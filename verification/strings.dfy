/** String helpers shared by the writer and the renderer. */
module Strings {
  import opened Wrappers

  /** JavaScript's `s || fallback` for a possibly missing string: an absent or
      empty string is falsy and gives the fallback. */
  function OrElse(s: Option<string>, fallback: string): (r: string)
    ensures r == fallback || (s == Some(r) && r != "")
    ensures s.Some? && s.value != "" ==> r == s.value
  {
    if s.Some? && s.value != "" then s.value else fallback
  }

  /** `parts.join(sep)`. */
  function Join(parts: seq<string>, sep: string): string {
    if |parts| == 0 then ""
    else if |parts| == 1 then parts[0]
    else parts[0] + sep + Join(parts[1..], sep)
  }

  /** Joining one more part at the end adds one separator. */
  lemma {:induction false} JoinSnoc(parts: seq<string>, last: string, sep: string)
    requires |parts| > 0
    ensures Join(parts + [last], sep) == Join(parts, sep) + sep + last
  {
    if |parts| == 1 {
      assert (parts + [last])[1..] == [last];
    } else {
      assert (parts + [last])[1..] == parts[1..] + [last];
      JoinSnoc(parts[1..], last, sep);
    }
  }

  /** `a` is a prefix of `b`. */
  ghost predicate IsPrefix<T>(a: seq<T>, b: seq<T>) {
    |a| <= |b| && b[..|a|] == a
  }

  /** `s` ends with `tail`. */
  ghost predicate EndsWith<T>(s: seq<T>, tail: seq<T>) {
    |tail| <= |s| && s[|s| - |tail|..] == tail
  }

  /** The last two pieces of a concatenation end it. */
  lemma EndsWithLastTwo<T>(x: seq<T>, a: seq<T>, b: seq<T>)
    ensures EndsWith(x + a + b, a + b)
  {
    assert x + a + b == x + (a + b);
  }

  /** The head and the tail of a concatenation whose first part is not empty. */
  lemma HeadTailOfAppend<T>(a: seq<T>, b: seq<T>)
    requires |a| > 0
    ensures (a + b)[0] == a[0] && (a + b)[1..] == a[1..] + b
  {
  }

  /** `piece` occurs in `s` starting at index `at`. */
  ghost predicate At<T>(s: seq<T>, at: nat, piece: seq<T>) {
    at + |piece| <= |s| && s[at..at + |piece|] == piece
  }

  /** A sequence is its head and its tail at any cut. */
  lemma Cut<T>(s: seq<T>, k: nat)
    requires k <= |s|
    ensures s[..k] + s[k..] == s
  {
  }

  /** Appending twice to element `i` appends the two pieces together. */
  lemma AppendTwiceAt<T>(s: seq<seq<T>>, i: nat, a: seq<T>, b: seq<T>)
    requires i < |s|
    ensures s[i := s[i] + a][i := s[i] + a + b] == s[i := s[i] + (a + b)]
  {
    assert s[i] + a + b == s[i] + (a + b);
  }

  /** Appending to the last element of `s + [x]`. */
  lemma AppendAtEnd<T>(s: seq<seq<T>>, x: seq<T>, y: seq<T>)
    ensures (s + [x])[|s| := x + y] == s + [x + y]
  {
  }

  /** Appending to the last element keeps the first entry of every element. */
  lemma HeadAfterAppendLast<T>(s: seq<seq<T>>, i: nat, x: seq<T>)
    requires i < |s| && |s[i]| > 0
    ensures |s[|s| - 1 := s[|s| - 1] + x][i]| > 0
    ensures s[|s| - 1 := s[|s| - 1] + x][i][0] == s[i][0]
  {
    if i == |s| - 1 {
      assert (s[i] + x)[0] == s[i][0];
    }
  }

  /** A prefix of a slice is a slice. */
  lemma SliceOfSlice<T>(s: seq<T>, from: nat, to: nat, len: nat)
    requires from + len <= to <= |s|
    ensures s[from..to][..len] == s[from..from + len]
  {
  }

  /** The first `len` elements of a piece found at `at` are found at `at`. */
  lemma HeadOfPiece<T>(s: seq<T>, at: nat, piece: seq<T>, len: nat)
    requires At(s, at, piece) && len <= |piece|
    ensures s[at..at + len] == piece[..len]
  {
    assert s[at..at + len] == s[at..at + |piece|][..len];
  }

  /** Two pieces found one after the other form one piece. */
  lemma AtConcat<T>(s: seq<T>, at: nat, a: seq<T>, b: seq<T>)
    requires At(s, at, a) && At(s, at + |a|, b)
    ensures At(s, at, a + b)
  {
    assert s[at..at + |a| + |b|] == s[at..at + |a|] + s[at + |a|..at + |a| + |b|];
  }

  lemma AtEnd<T>(s: seq<T>, piece: seq<T>)
    ensures At(s + piece, |s|, piece)
  {
    assert (s + piece)[|s|..|s| + |piece|] == piece;
  }

  lemma AtExtend<T>(s: seq<T>, extra: seq<T>, at: nat, piece: seq<T>)
    requires At(s, at, piece)
    ensures At(s + extra, at, piece)
  {
    assert (s + extra)[at..at + |piece|] == s[at..at + |piece|];
  }

  lemma AtPrefix<T>(s: seq<T>, t: seq<T>, at: nat, piece: seq<T>)
    requires At(s, at, piece) && IsPrefix(s, t)
    ensures At(t, at, piece)
  {
    assert t[at..at + |piece|] == t[..|s|][at..at + |piece|];
  }

  /** A piece found inside a larger piece is found in the whole. */
  lemma AtInner<T>(s: seq<T>, at: nat, piece: seq<T>, inner: nat, sub: seq<T>)
    requires At(s, at, piece) && At(piece, inner, sub)
    ensures At(s, at + inner, sub)
  {
    forall t | 0 <= t < |sub|
      ensures s[at + inner + t] == sub[t]
    {
      assert s[at + inner + t] == s[at..at + |piece|][inner + t];
      assert piece[inner + t] == piece[inner..inner + |sub|][t];
    }
    assert s[at + inner..at + inner + |sub|] == sub;
  }
}
