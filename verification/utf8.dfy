/** UTF-8, as produced by the browser's `TextEncoder.encode`, which the PDF
    writer uses for every piece of text it emits.  A Dafny `char` is a Unicode
    scalar value, so the encoder never meets a lone surrogate. */
module Utf8 {
  import opened Wrappers

  type byte = x: int | 0 <= x < 256

  /** Code points Unicode allows in well-formed text. */
  predicate IsScalar(n: int) {
    0 <= n < 0xD800 || 0xE000 <= n < 0x110000
  }

  /** Number of bytes UTF-8 uses for code point `n`. */
  function Width(n: int): nat {
    if n < 0x80 then 1 else if n < 0x800 then 2 else if n < 0x10000 then 3 else 4
  }

  /** Number of bytes announced by a leading byte; 0 when `b` cannot start a character. */
  function LeadWidth(b: byte): nat {
    if b < 0x80 then 1
    else if 0xC0 <= b < 0xE0 then 2
    else if 0xE0 <= b < 0xF0 then 3
    else if 0xF0 <= b < 0xF8 then 4
    else 0
  }

  predicate IsContinuation(b: byte) {
    0x80 <= b < 0xC0
  }

  function EncodeChar(c: char): (r: seq<byte>)
    ensures |r| == Width(c as int)
    ensures LeadWidth(r[0]) == |r|
    ensures forall i :: 1 <= i < |r| ==> IsContinuation(r[i])
  {
    var n := c as int;
    if n < 0x80 then [n]
    else if n < 0x800 then [0xC0 + n / 0x40, 0x80 + n % 0x40]
    else if n < 0x10000 then [0xE0 + n / 0x1000, 0x80 + (n / 0x40) % 0x40, 0x80 + n % 0x40]
    else [0xF0 + n / 0x40000, 0x80 + (n / 0x1000) % 0x40, 0x80 + (n / 0x40) % 0x40, 0x80 + n % 0x40]
  }

  /** `TextEncoder.encode(s)`. */
  function Encode(s: string): (r: seq<byte>)
    ensures |s| <= |r| <= 4 * |s|
  {
    if |s| == 0 then [] else EncodeChar(s[0]) + Encode(s[1..])
  }

  /** The code point spelled by the bytes of one character, once its shape is checked. */
  function ScalarValue(b: seq<byte>): int
    requires 1 <= |b| <= 4
  {
    var b0: int := b[0];
    if |b| == 1 then b0
    else
      var b1: int := b[1];
      if |b| == 2 then (b0 - 0xC0) * 0x40 + (b1 - 0x80)
      else
        var b2: int := b[2];
        if |b| == 3 then (b0 - 0xE0) * 0x1000 + (b1 - 0x80) * 0x40 + (b2 - 0x80)
        else
          var b3: int := b[3];
          (b0 - 0xF0) * 0x40000 + (b1 - 0x80) * 0x1000 + (b2 - 0x80) * 0x40 + (b3 - 0x80)
  }

  /** Strict decoding of one character: continuation bytes, no overlong form, no surrogate. */
  function DecodeChar(b: seq<byte>): (r: Option<char>)
    requires 1 <= |b| <= 4 && LeadWidth(b[0]) == |b|
  {
    if !((|b| < 2 || IsContinuation(b[1])) && (|b| < 3 || IsContinuation(b[2])) && (|b| < 4 || IsContinuation(b[3]))) then None
    else
      var n := ScalarValue(b);
      if IsScalar(n) && Width(n) == |b| then Some(n as char) else None
  }

  /** Strict UTF-8 decoding; `None` on any malformed input. */
  function Decode(b: seq<byte>): Option<string>
    decreases |b|
  {
    if |b| == 0 then Some("")
    else
      var k := LeadWidth(b[0]);
      if k == 0 || |b| < k then None
      else match DecodeChar(b[..k])
        case None => None
        case Some(c) =>
          match Decode(b[k..])
          case None => None
          case Some(rest) => Some([c] + rest)
  }

  lemma {:induction false} EncodeAppend(a: string, b: string)
    ensures Encode(a + b) == Encode(a) + Encode(b)
  {
    if |a| == 0 {
      assert a + b == b;
    } else {
      assert (a + b)[1..] == a[1..] + b;
      EncodeAppend(a[1..], b);
    }
  }

  lemma DecodeCharOfEncodeChar(c: char)
    ensures DecodeChar(EncodeChar(c)) == Some(c)
  {
    var n := c as int;
    if n < 0x80 {
    } else if n < 0x800 {
      assert ScalarValue(EncodeChar(c)) == (n / 0x40) * 0x40 + n % 0x40;
    } else if n < 0x10000 {
      Split3(n);
    } else {
      Split4(n);
    }
  }

  lemma Split3(n: nat)
    ensures (n / 0x1000) * 0x1000 + ((n / 0x40) % 0x40) * 0x40 + n % 0x40 == n
  {
    var q := n / 0x40;
    assert n == q * 0x40 + n % 0x40;
    assert q == (q / 0x40) * 0x40 + q % 0x40;
    assert q / 0x40 == n / 0x1000;
  }

  lemma Split4(n: nat)
    ensures (n / 0x40000) * 0x40000 + ((n / 0x1000) % 0x40) * 0x1000 + ((n / 0x40) % 0x40) * 0x40 + n % 0x40 == n
  {
    Split3(n);
    var q := n / 0x1000;
    assert q == (q / 0x40) * 0x40 + q % 0x40;
    assert q / 0x40 == n / 0x40000;
  }

  /** Decoding undoes encoding. */
  lemma {:induction false} DecodeEncode(s: string)
    ensures Decode(Encode(s)) == Some(s)
  {
    if |s| > 0 {
      var h := EncodeChar(s[0]);
      var b := Encode(s);
      assert b == h + Encode(s[1..]);
      assert b[..|h|] == h;
      assert b[|h|..] == Encode(s[1..]);
      DecodeCharOfEncodeChar(s[0]);
      DecodeEncode(s[1..]);
      assert [s[0]] + s[1..] == s;
    }
  }

  lemma EncodeCharOfDecodeChar(b: seq<byte>, c: char)
    requires 1 <= |b| <= 4 && LeadWidth(b[0]) == |b|
    requires DecodeChar(b) == Some(c)
    ensures EncodeChar(c) == b
  {
    assert forall i :: 1 <= i < |b| ==> IsContinuation(b[i]);
    assert c as int == ScalarValue(b) && Width(c as int) == |b|;
    if |b| == 2 {
      EncodeTwo(b, c);
    } else if |b| == 3 {
      EncodeThree(b, c);
    } else if |b| == 4 {
      EncodeFour(b, c);
    }
  }

  lemma EncodeTwo(b: seq<byte>, c: char)
    requires |b| == 2 && 0xC0 <= b[0] && IsContinuation(b[1])
    requires c as int == ScalarValue(b) && Width(c as int) == 2
    ensures EncodeChar(c) == b
  {
    Join2(b[0] - 0xC0, b[1] - 0x80);
  }

  lemma EncodeThree(b: seq<byte>, c: char)
    requires |b| == 3 && 0xE0 <= b[0] && IsContinuation(b[1]) && IsContinuation(b[2])
    requires c as int == ScalarValue(b) && Width(c as int) == 3
    ensures EncodeChar(c) == b
  {
    Join3(b[0] - 0xE0, b[1] - 0x80, b[2] - 0x80);
  }

  lemma EncodeFour(b: seq<byte>, c: char)
    requires |b| == 4 && 0xF0 <= b[0] && IsContinuation(b[1]) && IsContinuation(b[2]) && IsContinuation(b[3])
    requires c as int == ScalarValue(b) && Width(c as int) == 4
    ensures EncodeChar(c) == b
  {
    Join4(b[0] - 0xF0, b[1] - 0x80, b[2] - 0x80, b[3] - 0x80);
  }

  lemma Join2(x0: nat, x1: nat)
    requires x1 < 0x40
    ensures (x0 * 0x40 + x1) / 0x40 == x0 && (x0 * 0x40 + x1) % 0x40 == x1
  {
  }

  lemma Join3(x0: nat, x1: nat, x2: nat)
    requires x1 < 0x40 && x2 < 0x40
    ensures var n := x0 * 0x1000 + x1 * 0x40 + x2;
      n / 0x1000 == x0 && (n / 0x40) % 0x40 == x1 && n % 0x40 == x2
  {
    var n := x0 * 0x1000 + x1 * 0x40 + x2;
    Join2(x0 * 0x40 + x1, x2);
    Join2(x0, x1);
    assert n / 0x40 == x0 * 0x40 + x1;
    assert n / 0x1000 == (n / 0x40) / 0x40;
  }

  lemma Join4(x0: nat, x1: nat, x2: nat, x3: nat)
    requires x1 < 0x40 && x2 < 0x40 && x3 < 0x40
    ensures var n := x0 * 0x40000 + x1 * 0x1000 + x2 * 0x40 + x3;
      n / 0x40000 == x0 && (n / 0x1000) % 0x40 == x1 && (n / 0x40) % 0x40 == x2 && n % 0x40 == x3
  {
    var m := x0 * 0x40 + x1;
    Join3(m, x2, x3);
    Join2(x0, x1);
    var n := x0 * 0x40000 + x1 * 0x1000 + x2 * 0x40 + x3;
    assert n == m * 0x1000 + x2 * 0x40 + x3;
    assert n / 0x40000 == (n / 0x1000) / 0x40;
  }

  /** Encoding undoes successful decoding: strict decoding accepts exactly the encoder's outputs. */
  lemma {:induction false} EncodeDecode(b: seq<byte>, s: string)
    requires Decode(b) == Some(s)
    ensures Encode(s) == b
    decreases |b|
  {
    if |b| > 0 {
      DecodeHead(b, s);
      var k := LeadWidth(b[0]);
      EncodeCharOfDecodeChar(b[..k], s[0]);
      EncodeDecode(b[k..], s[1..]);
      EncodeCons(b, k, s);
    }
  }

  /** The first character of a successful decoding comes from the first `k` bytes. */
  lemma DecodeHead(b: seq<byte>, s: string)
    requires Decode(b) == Some(s) && |b| > 0
    ensures 1 <= LeadWidth(b[0]) <= |b| && |s| >= 1
    ensures DecodeChar(b[..LeadWidth(b[0])]) == Some(s[0])
    ensures Decode(b[LeadWidth(b[0])..]) == Some(s[1..])
  {
  }

  lemma EncodeCons(b: seq<byte>, k: nat, s: string)
    requires |s| >= 1 && k <= |b|
    requires EncodeChar(s[0]) == b[..k] && Encode(s[1..]) == b[k..]
    ensures Encode(s) == b
  {
    SplitAt(b, k);
  }

  lemma SplitAt(b: seq<byte>, k: nat)
    requires k <= |b|
    ensures b[..k] + b[k..] == b
  {
  }

  predicate IsAscii(s: string) {
    forall i :: 0 <= i < |s| ==> s[i] as int < 0x80
  }

  /** Text made of ASCII characters encodes byte for byte. */
  lemma {:induction false} EncodeAscii(s: string)
    requires IsAscii(s)
    ensures |Encode(s)| == |s|
    ensures forall i :: 0 <= i < |s| ==> Encode(s)[i] == s[i] as int
  {
    if |s| > 0 {
      assert IsAscii(s[1..]) by {
        forall i | 0 <= i < |s[1..]| ensures s[1..][i] as int < 0x80 {
          assert s[1..][i] == s[i + 1];
        }
      }
      EncodeAscii(s[1..]);
    }
  }

  /** ASCII text encodes to the bytes of its character codes. */
  lemma EncodeAsciiBytes(s: string, b: seq<byte>)
    requires IsAscii(s) && |b| == |s|
    requires forall i :: 0 <= i < |s| ==> b[i] == s[i] as int
    ensures Encode(s) == b
  {
    EncodeAscii(s);
  }

  /** For ASCII text, slicing the encoding is encoding the slice. */
  lemma EncodeAsciiSlice(s: string, i: nat, j: nat)
    requires IsAscii(s) && i <= j <= |s|
    ensures IsAscii(s[i..j])
    ensures |Encode(s)| == |s|
    ensures Encode(s)[i..j] == Encode(s[i..j])
  {
    EncodeAscii(s);
    assert IsAscii(s[i..j]) by {
      forall k | 0 <= k < j - i ensures s[i..j][k] as int < 0x80 {
        assert s[i..j][k] == s[i + k];
      }
    }
    EncodeAscii(s[i..j]);
  }
}
