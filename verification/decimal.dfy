/** Decimal text of integers as JavaScript's `String(n)` and template literals
    produce it for whole numbers, `padStart`, and a reader for digit runs. */
module Decimal {
  import opened Wrappers
  import opened Utf8

  predicate IsDigit(c: char) {
    '0' <= c <= '9'
  }

  predicate AllDigits(s: string) {
    forall i :: 0 <= i < |s| ==> IsDigit(s[i])
  }

  function Digit(d: nat): (c: char)
    requires d < 10
    ensures IsDigit(c) && c as int - '0' as int == d
  {
    ('0' as int + d) as char
  }

  function Pow10(k: nat): (r: nat)
    ensures r >= 1
  {
    if k == 0 then 1 else 10 * Pow10(k - 1)
  }

  /** `String(n)` for a whole number `n >= 0`. */
  function NatStr(n: nat): (r: string)
    ensures 1 <= |r| && AllDigits(r)
    ensures r[0] == '0' ==> n == 0
  {
    if n < 10 then [Digit(n)] else NatStr(n / 10) + [Digit(n % 10)]
  }

  /** `String(i)` for any whole number, with a leading `-` when negative. */
  function IntStr(i: int): (r: string)
    ensures 1 <= |r|
    ensures i >= 0 ==> r == NatStr(i)
    ensures i < 0 ==> r[0] == '-' && r[1..] == NatStr(-i)
  {
    if i < 0 then "-" + NatStr(-i) else NatStr(i)
  }

  /** The number a run of decimal digits denotes (leading zeros allowed). */
  function DigitsValue(s: string): nat
    requires AllDigits(s)
  {
    if |s| == 0 then 0
    else 10 * DigitsValue(s[..|s| - 1]) + (s[|s| - 1] as int - '0' as int)
  }

  function Repeat(c: char, k: nat): (r: string)
    ensures |r| == k && forall i :: 0 <= i < k ==> r[i] == c
  {
    if k == 0 then "" else [c] + Repeat(c, k - 1)
  }

  /** `s.padStart(width, fill)` with a one-character `fill`. */
  function PadStart(s: string, width: nat, fill: char): (r: string)
    ensures |s| >= width ==> r == s
    ensures |s| < width ==> |r| == width
    ensures r[|r| - |s|..] == s
    ensures forall i :: 0 <= i < |r| - |s| ==> r[i] == fill
  {
    if |s| >= width then s else Repeat(fill, width - |s|) + s
  }

  lemma DigitsAscii(s: string)
    requires AllDigits(s)
    ensures IsAscii(s)
  {
  }

  /** Reading back the decimal text of `n` gives `n`. */
  lemma {:induction false} ValueOfNatStr(n: nat)
    ensures DigitsValue(NatStr(n)) == n
  {
    if n >= 10 {
      var s := NatStr(n);
      assert s[..|s| - 1] == NatStr(n / 10);
      ValueOfNatStr(n / 10);
    }
  }

  lemma {:induction false} ValueOfAppend(a: string, b: string)
    requires AllDigits(a) && AllDigits(b)
    ensures AllDigits(a + b)
    ensures DigitsValue(a + b) == DigitsValue(a) * Pow10(|b|) + DigitsValue(b)
    decreases |b|
  {
    if |b| == 0 {
      assert a + b == a;
    } else {
      var b' := b[..|b| - 1];
      var d := b[|b| - 1] as int - '0' as int;
      assert AllDigits(a + b);
      assert DigitsValue(a + b) == 10 * DigitsValue(a + b') + d by {
        assert (a + b)[..|a + b| - 1] == a + b';
      }
      ValueOfAppend(a, b');
      ShiftDigit(DigitsValue(a), Pow10(|b'|), DigitsValue(b'), d);
    }
  }

  /** Appending one digit `d` multiplies the value by ten and adds `d`. */
  lemma ShiftDigit(x: nat, p: nat, y: nat, d: int)
    ensures 10 * (x * p + y) + d == x * (10 * p) + (10 * y + d)
  {
  }

  lemma {:induction false} ValueOfZeros(k: nat)
    ensures AllDigits(Repeat('0', k)) && DigitsValue(Repeat('0', k)) == 0
  {
    if k > 0 {
      var z := Repeat('0', k);
      assert z[..k - 1] == Repeat('0', k - 1) by {
        assert z == [ '0' ] + Repeat('0', k - 1);
        assert Repeat('0', k - 1) + ['0'] == z;
      }
      ValueOfZeros(k - 1);
    }
  }

  /** Zero padding does not change the value read back. */
  lemma ValueOfPadded(s: string, width: nat)
    requires AllDigits(s)
    ensures AllDigits(PadStart(s, width, '0'))
    ensures DigitsValue(PadStart(s, width, '0')) == DigitsValue(s)
  {
    if |s| < width {
      var z := Repeat('0', width - |s|);
      assert PadStart(s, width, '0') == z + s;
      ValueOfZeros(width - |s|);
      ValueOfAppend(z, s);
      assert DigitsValue(z) * Pow10(|s|) == 0;
    }
  }

  lemma ValueOfZeroPadded(n: nat, width: nat)
    ensures AllDigits(PadStart(NatStr(n), width, '0'))
    ensures DigitsValue(PadStart(NatStr(n), width, '0')) == n
  {
    ValueOfNatStr(n);
    ValueOfPadded(NatStr(n), width);
  }

  /** The decimal text of `n` fits in `k >= 1` characters exactly when `n < 10^k`. */
  lemma {:induction false} NatStrFits(n: nat, k: nat)
    requires k >= 1
    ensures |NatStr(n)| <= k <==> n < Pow10(k)
    decreases n
  {
    if n >= 10 {
      if k == 1 {
        assert Pow10(1) == 10;
      } else {
        NatStrFits(n / 10, k - 1);
        assert n / 10 < Pow10(k - 1) <==> n < 10 * Pow10(k - 1);
      }
    } else {
      PowAtLeastTen(k);
    }
  }

  lemma {:induction false} PowAtLeastTen(k: nat)
    requires k >= 1
    ensures Pow10(k) >= 10
  {
    if k > 1 {
      PowAtLeastTen(k - 1);
    }
  }

  /** Reads a byte run as decimal text: strict UTF-8 decoding, then digits only. */
  function ReadNumber(b: seq<byte>): Option<nat> {
    match Decode(b)
    case None => None
    case Some(s) => if AllDigits(s) then Some(DigitsValue(s)) else None
  }

  /** A zero-padded number, once encoded, reads back as that number. */
  lemma ReadZeroPadded(n: nat, width: nat)
    ensures ReadNumber(Encode(PadStart(NatStr(n), width, '0'))) == Some(n)
  {
    ValueOfZeroPadded(n, width);
    DecodeEncode(PadStart(NatStr(n), width, '0'));
  }
}
