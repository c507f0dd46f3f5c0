/** The text the export builds itself: the range line shown under the header
    and the name of the downloaded file. */
module ExportText {
  import opened Wrappers
  import opened Strings
  import TextFit

  /** JavaScript truthiness of an optional string: present and not empty. */
  predicate Given(s: Option<string>) {
    s.Some? && s.value != ""
  }

  // -------------------------------------------------------------- range line

  const RangeHead: string := "المدة: "
  const AllInvoices: string := "كل الفواتير"
  const Arrow: string := " → "
  const Missing: string := "..."
  const IssuedLabel: string := " | تاريخ الإخراج: "

  /** The range line under the header: both bounds (a missing one shown as
      `...`) when at least one is given, otherwise "all invoices"; then the
      generation date. */
  function RangeText(fromISO: Option<string>, toISO: Option<string>, genAt: string): (r: string)
    ensures IsPrefix(RangeHead, r) && EndsWith(r, IssuedLabel + genAt)
    ensures Given(fromISO) || Given(toISO) ==>
      && At(r, |RangeHead|, OrElse(fromISO, Missing) + Arrow + OrElse(toISO, Missing))
      && |r| == |RangeHead| + |OrElse(fromISO, Missing) + Arrow + OrElse(toISO, Missing)| + |IssuedLabel + genAt|
    ensures r == RangeHead + AllInvoices + IssuedLabel + genAt <==> !Given(fromISO) && !Given(toISO)
  {
    if Given(fromISO) || Given(toISO) then
      var from, to := OrElse(fromISO, Missing), OrElse(toISO, Missing);
      BoundsAreNotAll(from, to, genAt);
      EndsWithLastTwo(RangeHead + (from + Arrow + to), IssuedLabel, genAt);
      RangeHead + (from + Arrow + to) + IssuedLabel + genAt
    else
      EndsWithLastTwo(RangeHead + AllInvoices, IssuedLabel, genAt);
      RangeHead + AllInvoices + IssuedLabel + genAt
  }

  /** A line naming bounds never reads as the "all invoices" line: the arrow
      would have to sit inside the words "all invoices". */
  lemma BoundsAreNotAll(from: string, to: string, genAt: string)
    ensures RangeHead + (from + Arrow + to) + IssuedLabel + genAt != RangeHead + AllInvoices + IssuedLabel + genAt
  {
    var m := from + Arrow + to;
    var a := RangeHead + m + IssuedLabel + genAt;
    var b := RangeHead + AllInvoices + IssuedLabel + genAt;
    if |m| == |AllInvoices| {
      var k := |from| + 1;
      assert m[k] == '→';
      assert a[|RangeHead| + k] == m[k];
      assert b[|RangeHead| + k] == AllInvoices[k];
      assert forall j | 0 <= j < |AllInvoices| :: AllInvoices[j] != '→';
    }
  }

  // --------------------------------------------------------------- file name

  const NameHead: string := "كشف_"
  const NameTail: string := ".pdf"
  const DefaultClient: string := "عميل"

  /** Drop the leading run of characters satisfying `p`. */
  function DropRun(s: string, p: char -> bool): (r: string)
    ensures |r| <= |s| && r == s[|s| - |r|..]
    ensures |r| > 0 ==> !p(r[0])
    ensures forall i | 0 <= i < |s| - |r| :: p(s[i])
  {
    if |s| > 0 && p(s[0]) then
      var r := DropRun(s[1..], p);
      assert s[1..][|s| - 1 - |r|..] == s[|s| - |r|..];
      assert forall i | 1 <= i < |s| - |r| :: s[i] == s[1..][i - 1];
      r
    else s
  }

  /** `s` without the characters satisfying `drop`, the rest in order. */
  function Keep(s: string, drop: char -> bool): string {
    if |s| == 0 then ""
    else if drop(s[0]) then Keep(s[1..], drop)
    else [s[0]] + Keep(s[1..], drop)
  }

  lemma {:induction false} KeepDropRun(s: string, p: char -> bool, drop: char -> bool)
    requires forall c :: p(c) ==> drop(c)
    ensures Keep(DropRun(s, p), drop) == Keep(s, drop)
  {
    if |s| > 0 && p(s[0]) {
      KeepDropRun(s[1..], p, drop);
    }
  }

  lemma KeepCons(c: char, s: string, drop: char -> bool)
    ensures Keep([c] + s, drop) == (if drop(c) then Keep(s, drop) else [c] + Keep(s, drop))
  {
    assert ([c] + s)[1..] == s;
  }

  lemma {:induction false} KeepIn(s: string, c: char, drop: char -> bool)
    requires c in s && !drop(c)
    ensures c in Keep(s, drop)
  {
    if s[0] != c {
      KeepIn(s[1..], c, drop);
    }
  }

  // The replace as written: `/\\s+/g` is a backslash followed by one or more `s`.

  /** A backslash followed by an `s` starts at the head of `s`. */
  predicate StartsPair(s: string) {
    |s| >= 2 && s[0] == '\\' && s[1] == 's'
  }

  /** No backslash in `s` is followed by an `s`. */
  predicate NoPair(s: string) {
    forall i | 0 <= i < |s| - 1 :: !StartsPair(s[i..])
  }

  /** The characters that the literal pattern can remove or insert. */
  predicate PairNoise(c: char) {
    c == '\\' || c == 's' || c == '_'
  }

  /** `s.replace(/\\s+/g, '_')` as the literal reads: each leftmost, longest run of
      a backslash and one or more `s` becomes one underscore. */
  function ReplaceAsWritten(s: string): (r: string)
    ensures |r| <= |s|
    ensures |s| > 0 ==> |r| > 0 && r[0] == (if StartsPair(s) then '_' else s[0])
    decreases |s|
  {
    if |s| == 0 then ""
    else if StartsPair(s) then "_" + ReplaceAsWritten(DropRun(s[2..], c => c == 's'))
    else [s[0]] + ReplaceAsWritten(s[1..])
  }

  /** No backslash is left followed by an `s`. */
  lemma {:induction false} AsWrittenLeavesNoPair(s: string)
    ensures NoPair(ReplaceAsWritten(s))
    decreases |s|
  {
    if |s| > 0 {
      if StartsPair(s) {
        AsWrittenLeavesNoPair(DropRun(s[2..], c => c == 's'));
        NoPairCons('_', ReplaceAsWritten(DropRun(s[2..], c => c == 's')));
      } else {
        AsWrittenLeavesNoPair(s[1..]);
        NoPairCons(s[0], ReplaceAsWritten(s[1..]));
      }
    }
  }

  /** A text without a backslash followed by an `s` is left as it is. */
  lemma {:induction false} AsWrittenFixes(s: string)
    requires NoPair(s)
    ensures ReplaceAsWritten(s) == s
    decreases |s|
  {
    if |s| > 0 {
      assert !StartsPair(s[0..]);
      assert s[0..] == s;
      NoPairTail(s);
      AsWrittenFixes(s[1..]);
      assert [s[0]] + s[1..] == s;
    }
  }

  /** Every character other than a backslash, an `s` or an underscore survives,
      in order. */
  lemma {:induction false} AsWrittenKeeps(s: string)
    ensures Keep(ReplaceAsWritten(s), PairNoise) == Keep(s, PairNoise)
    decreases |s|
  {
    if |s| > 0 {
      if StartsPair(s) {
        var rest := DropRun(s[2..], c => c == 's');
        AsWrittenKeeps(rest);
        calc {
          Keep(ReplaceAsWritten(s), PairNoise);
          { KeepCons('_', ReplaceAsWritten(rest), PairNoise); }
          Keep(ReplaceAsWritten(rest), PairNoise);
          Keep(rest, PairNoise);
          { KeepDropRun(s[2..], c => c == 's', PairNoise); }
          Keep(s[2..], PairNoise);
          { KeepCons(s[0], s[1..], PairNoise); KeepCons(s[1], s[2..], PairNoise);
            assert s == [s[0]] + ([s[1]] + s[2..]); }
          Keep(s, PairNoise);
        }
      } else {
        AsWrittenKeeps(s[1..]);
        KeepCons(s[0], ReplaceAsWritten(s[1..]), PairNoise);
        KeepCons(s[0], s[1..], PairNoise);
        assert [s[0]] + s[1..] == s;
      }
    }
  }

  /** Replacing twice is replacing once. */
  lemma AsWrittenIdempotent(s: string)
    ensures ReplaceAsWritten(ReplaceAsWritten(s)) == ReplaceAsWritten(s)
  {
    AsWrittenLeavesNoPair(s);
    AsWrittenFixes(ReplaceAsWritten(s));
  }

  lemma NoPairCons(c: char, t: string)
    requires NoPair(t) && (c == '\\' && |t| > 0 ==> t[0] != 's')
    ensures NoPair([c] + t)
  {
    var s := [c] + t;
    forall i | 0 <= i < |s| - 1
      ensures !StartsPair(s[i..])
    {
      if i > 0 {
        assert s[i..] == t[i - 1..];
      }
    }
  }

  lemma NoPairTail(s: string)
    requires |s| > 0 && NoPair(s)
    ensures NoPair(s[1..])
  {
    forall i | 0 <= i < |s| - 2
      ensures !StartsPair(s[1..][i..])
    {
      assert s[1..][i..] == s[i + 1..];
    }
  }

  // The replace as evidently meant: `/\s+/g`, runs of white space (`TextFit.IsSpace`).

  predicate SpaceNoise(c: char) {
    TextFit.IsSpace(c) || c == '_'
  }

  /** `s.replace(/\s+/g, '_')`: each run of white space becomes one underscore. */
  function ReplaceSpaces(s: string): (r: string)
    ensures |r| <= |s|
    decreases |s|
  {
    if |s| == 0 then ""
    else if TextFit.IsSpace(s[0]) then "_" + ReplaceSpaces(DropRun(s[1..], TextFit.IsSpace))
    else [s[0]] + ReplaceSpaces(s[1..])
  }

  /** No white space is left. */
  lemma {:induction false} SpacesGone(s: string)
    ensures TextFit.NoSpace(ReplaceSpaces(s))
    decreases |s|
  {
    if |s| > 0 {
      var t := if TextFit.IsSpace(s[0]) then DropRun(s[1..], TextFit.IsSpace) else s[1..];
      SpacesGone(t);
      var r := ReplaceSpaces(s);
      assert r[1..] == ReplaceSpaces(t);
      assert !TextFit.IsSpace(r[0]);
      forall i | 1 <= i < |r|
        ensures !TextFit.IsSpace(r[i])
      {
        assert r[i] == r[1..][i - 1];
      }
    }
  }

  /** A text without white space is left as it is. */
  lemma {:induction false} SpacelessFixed(s: string)
    requires TextFit.NoSpace(s)
    ensures ReplaceSpaces(s) == s
    decreases |s|
  {
    if |s| > 0 {
      SpacelessFixed(s[1..]);
      assert [s[0]] + s[1..] == s;
    }
  }

  /** Every character other than white space and underscores survives, in order. */
  lemma {:induction false} SpacesKeep(s: string)
    ensures Keep(ReplaceSpaces(s), SpaceNoise) == Keep(s, SpaceNoise)
    decreases |s|
  {
    if |s| > 0 {
      KeepCons(s[0], s[1..], SpaceNoise);
      assert [s[0]] + s[1..] == s;
      if TextFit.IsSpace(s[0]) {
        var rest := DropRun(s[1..], TextFit.IsSpace);
        SpacesKeep(rest);
        KeepCons('_', ReplaceSpaces(rest), SpaceNoise);
        KeepDropRun(s[1..], TextFit.IsSpace, SpaceNoise);
      } else {
        SpacesKeep(s[1..]);
        KeepCons(s[0], ReplaceSpaces(s[1..]), SpaceNoise);
      }
    }
  }

  /** Replacing twice is replacing once. */
  lemma SpacesIdempotent(s: string)
    ensures ReplaceSpaces(ReplaceSpaces(s)) == ReplaceSpaces(s)
  {
    SpacesGone(s);
    SpacelessFixed(ReplaceSpaces(s));
  }

  /** The name shape of `makeName` around an already replaced base. */
  function NameAround(base: string, fromISO: Option<string>, toISO: Option<string>): (r: string)
    ensures IsPrefix(NameHead + base, r) && EndsWith(r, NameTail)
    ensures Given(fromISO) || Given(toISO) ==>
      && EndsWith(r, "_" + OrElse(fromISO, Missing) + "_" + OrElse(toISO, Missing) + NameTail)
      && |r| == |NameHead + base| + |"_" + OrElse(fromISO, Missing) + "_" + OrElse(toISO, Missing) + NameTail|
    ensures Given(fromISO) || Given(toISO) <==> |r| > |NameHead + base + NameTail|
    ensures !Given(fromISO) && !Given(toISO) ==> r == NameHead + base + NameTail
  {
    if Given(fromISO) || Given(toISO) then
      var tail := "_" + OrElse(fromISO, Missing) + "_" + OrElse(toISO, Missing) + NameTail;
      assert NameHead + base + tail == (NameHead + base) + tail;
      NameHead + base + tail
    else NameHead + base + NameTail
  }

  /** `makeName` as written: the client's name (or "client") with the literal
      pattern's runs replaced, spaces left in place. */
  function MakeNameAsWritten(clientName: Option<string>, fromISO: Option<string>, toISO: Option<string>): (r: string)
    ensures IsPrefix(NameHead + ReplaceAsWritten(OrElse(clientName, DefaultClient)), r) && EndsWith(r, NameTail)
    ensures Given(fromISO) || Given(toISO) ==>
      && EndsWith(r, "_" + OrElse(fromISO, Missing) + "_" + OrElse(toISO, Missing) + NameTail)
      && |r| == |NameHead + ReplaceAsWritten(OrElse(clientName, DefaultClient))| + |"_" + OrElse(fromISO, Missing) + "_" + OrElse(toISO, Missing) + NameTail|
    ensures !Given(fromISO) && !Given(toISO) ==> r == NameHead + ReplaceAsWritten(OrElse(clientName, DefaultClient)) + NameTail
  {
    NameAround(ReplaceAsWritten(OrElse(clientName, DefaultClient)), fromISO, toISO)
  }

  /** The space in a client's name reaches the file name. */
  lemma SpaceKeptAsWritten(name: string, fromISO: Option<string>, toISO: Option<string>)
    requires ' ' in name
    ensures ' ' in MakeNameAsWritten(Some(name), fromISO, toISO)
  {
    var base := ReplaceAsWritten(name);
    KeepIn(name, ' ', PairNoise);
    AsWrittenKeeps(name);
    KeepSubset(base, ' ', PairNoise);
    var r := MakeNameAsWritten(Some(name), fromISO, toISO);
    var k :| 0 <= k < |base| && base[k] == ' ';
    assert r[|NameHead| + k] == (NameHead + base)[|NameHead| + k];
  }

  lemma {:induction false} KeepSubset(s: string, c: char, drop: char -> bool)
    requires c in Keep(s, drop)
    ensures c in s
  {
    if s[0] != c {
      KeepSubset(s[1..], c, drop);
    }
  }

  /** A name with a space is one the literal pattern leaves alone. */
  lemma SpacedNameAsWritten()
    ensures MakeNameAsWritten(Some("أحمد علي"), None, None) == NameHead + "أحمد علي" + NameTail
  {
    var name := "أحمد علي";
    NoBackslashNoPair(name);
    AsWrittenFixes(name);
  }

  /** Without a backslash there is nothing for the literal pattern to match. */
  lemma NoBackslashNoPair(s: string)
    requires forall i | 0 <= i < |s| :: s[i] != '\\'
    ensures NoPair(s)
  {
    forall i | 0 <= i < |s| - 1
      ensures !StartsPair(s[i..])
    {
      assert s[i..][0] == s[i];
    }
  }

  /** `makeName` as meant: runs of white space in the name become underscores. */
  function MakeName(clientName: Option<string>, fromISO: Option<string>, toISO: Option<string>): (r: string)
    ensures IsPrefix(NameHead + ReplaceSpaces(OrElse(clientName, DefaultClient)), r) && EndsWith(r, NameTail)
    ensures Given(fromISO) || Given(toISO) ==>
      && EndsWith(r, "_" + OrElse(fromISO, Missing) + "_" + OrElse(toISO, Missing) + NameTail)
      && |r| == |NameHead + ReplaceSpaces(OrElse(clientName, DefaultClient))| + |"_" + OrElse(fromISO, Missing) + "_" + OrElse(toISO, Missing) + NameTail|
    ensures !Given(fromISO) && !Given(toISO) ==> r == NameHead + ReplaceSpaces(OrElse(clientName, DefaultClient)) + NameTail
  {
    NameAround(ReplaceSpaces(OrElse(clientName, DefaultClient)), fromISO, toISO)
  }

  /** With bounds free of white space, the file name has none. */
  lemma NameHasNoSpace(clientName: Option<string>, fromISO: Option<string>, toISO: Option<string>)
    requires TextFit.NoSpace(OrElse(fromISO, Missing)) && TextFit.NoSpace(OrElse(toISO, Missing))
    ensures TextFit.NoSpace(MakeName(clientName, fromISO, toISO))
  {
    SpacesGone(OrElse(clientName, DefaultClient));
    NameAroundSpaceless(ReplaceSpaces(OrElse(clientName, DefaultClient)), fromISO, toISO);
  }

  lemma NameAroundSpaceless(base: string, fromISO: Option<string>, toISO: Option<string>)
    requires TextFit.NoSpace(base) && TextFit.NoSpace(OrElse(fromISO, Missing)) && TextFit.NoSpace(OrElse(toISO, Missing))
    ensures TextFit.NoSpace(NameAround(base, fromISO, toISO))
  {
    var from, to := OrElse(fromISO, Missing), OrElse(toISO, Missing);
    NameConstantsSpaceless();
    SpacelessAppend(NameHead, base);
    if Given(fromISO) || Given(toISO) {
      SpacelessAppend("_", from);
      SpacelessAppend("_" + from, "_");
      SpacelessAppend("_" + from + "_", to);
      SpacelessAppend("_" + from + "_" + to, NameTail);
      SpacelessAppend(NameHead + base, "_" + from + "_" + to + NameTail);
    } else {
      SpacelessAppend(NameHead + base, NameTail);
    }
  }

  lemma NameConstantsSpaceless()
    ensures TextFit.NoSpace(NameHead) && TextFit.NoSpace(NameTail) && TextFit.NoSpace("_")
  {
  }

  lemma SpacelessAppend(a: string, b: string)
    requires TextFit.NoSpace(a) && TextFit.NoSpace(b)
    ensures TextFit.NoSpace(a + b)
  {
    forall i | |a| <= i < |a + b|
      ensures !TextFit.IsSpace((a + b)[i])
    {
      assert (a + b)[i] == b[i - |a|];
    }
  }
}
