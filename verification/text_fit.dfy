/** Fitting cell text into a column: `split(/\s+/).filter(Boolean)`, the greedy
    `wrapText` and the `…`-truncating `ellipsize` of the renderer.  Text width
    (`ctx.measureText(t).width` at the one font size the table uses) is the
    parameter `measure`; nothing is assumed about it. */
module TextFit {
  import opened Strings

  /** The characters JavaScript's `\s` matches: the ECMAScript white space and
      line terminators. */
  predicate IsSpace(c: char) {
    || c == '\U{09}' || c == '\U{0A}' || c == '\U{0B}' || c == '\U{0C}' || c == '\U{0D}'
    || c == ' ' || c == '\U{A0}' || c == '\U{1680}'
    || ('\U{2000}' <= c <= '\U{200A}')
    || c == '\U{2028}' || c == '\U{2029}' || c == '\U{202F}' || c == '\U{205F}'
    || c == '\U{3000}' || c == '\U{FEFF}'
  }

  /** A word: a non-empty run without white space. */
  predicate IsWord(w: string) {
    |w| > 0 && forall i :: 0 <= i < |w| ==> !IsSpace(w[i])
  }

  predicate NoSpace(s: string) {
    forall i :: 0 <= i < |s| ==> !IsSpace(s[i])
  }

  /** The finished run, as the list of words it contributes (none when empty). */
  function Flush(word: string): seq<string> {
    if word == "" then [] else [word]
  }

  /** The left-to-right scan behind `split(/\s+/).filter(Boolean)`: `word` is the
      run read so far; white space ends it. */
  function Scan(s: string, word: string): seq<string>
    decreases |s|
  {
    if |s| == 0 then Flush(word)
    else if IsSpace(s[0]) then Flush(word) + Scan(s[1..], "")
    else Scan(s[1..], word + [s[0]])
  }

  /** `String(text).split(/\s+/).filter(Boolean)`: the maximal white-space-free runs,
      in order. */
  function Words(s: string): (ws: seq<string>)
    ensures forall i :: 0 <= i < |ws| ==> IsWord(ws[i])
  {
    ScanWords(s, "");
    Scan(s, "")
  }

  lemma {:induction false} ScanWords(s: string, word: string)
    requires NoSpace(word)
    ensures forall i :: 0 <= i < |Scan(s, word)| ==> IsWord(Scan(s, word)[i])
    decreases |s|
  {
    if |s| > 0 {
      if IsSpace(s[0]) {
        ScanWords(s[1..], "");
      } else {
        ScanWords(s[1..], word + [s[0]]);
      }
    }
  }

  /** The characters of `s` that are not white space, in order. */
  function NonSpace(s: string): string {
    if |s| == 0 then ""
    else if IsSpace(s[0]) then NonSpace(s[1..])
    else [s[0]] + NonSpace(s[1..])
  }

  function Concat(ws: seq<string>): string {
    if |ws| == 0 then "" else ws[0] + Concat(ws[1..])
  }

  lemma {:induction false} ConcatAppend(a: seq<string>, b: seq<string>)
    ensures Concat(a + b) == Concat(a) + Concat(b)
    decreases |a|
  {
    if |a| > 0 {
      assert (a + b)[1..] == a[1..] + b;
      ConcatAppend(a[1..], b);
    } else {
      assert a + b == b;
    }
  }

  lemma {:induction false} ScanKeeps(s: string, word: string)
    ensures Concat(Scan(s, word)) == word + NonSpace(s)
    decreases |s|
  {
    if |s| == 0 {
      FlushKeeps(word);
      assert word + "" == word;
    } else if IsSpace(s[0]) {
      ConcatAppend(Flush(word), Scan(s[1..], ""));
      FlushKeeps(word);
      ScanKeeps(s[1..], "");
      assert "" + NonSpace(s[1..]) == NonSpace(s[1..]);
    } else {
      ScanKeeps(s[1..], word + [s[0]]);
      assert word + [s[0]] + NonSpace(s[1..]) == word + ([s[0]] + NonSpace(s[1..]));
    }
  }

  lemma FlushKeeps(word: string)
    ensures Concat(Flush(word)) == word
  {
    if word != "" {
      assert [word][1..] == [];
      assert word + "" == word;
    }
  }

  /** Splitting on white space loses exactly the white space: the words laid end to
      end are the text without its white-space characters. */
  lemma WordsKeepText(s: string)
    ensures Concat(Words(s)) == NonSpace(s)
  {
    ScanKeeps(s, "");
  }

  /** Reading a run without white space extends the word being read. */
  lemma {:induction false} ScanRun(w: string, rest: string, word: string)
    requires NoSpace(w)
    ensures Scan(w + rest, word) == Scan(rest, word + w)
    decreases |w|
  {
    if |w| == 0 {
      assert w + rest == rest;
      assert word + w == word;
    } else {
      assert (w + rest)[1..] == w[1..] + rest;
      ScanRun(w[1..], rest, word + [w[0]]);
      assert word + [w[0]] + w[1..] == word + w;
    }
  }

  /** Splitting words joined by single spaces gives the words back. */
  lemma {:induction false} WordsOfJoin(ws: seq<string>)
    requires forall i :: 0 <= i < |ws| ==> IsWord(ws[i])
    ensures Words(Join(ws, " ")) == ws
    decreases |ws|
  {
    if |ws| == 1 {
      ScanRun(ws[0], "", "");
      assert ws[0] + "" == ws[0];
      assert "" + ws[0] == ws[0];
    } else if |ws| > 1 {
      var w := ws[0];
      var rest := Join(ws[1..], " ");
      assert Join(ws, " ") == w + (" " + rest);
      ScanRun(w, " " + rest, "");
      assert "" + w == w;
      assert (" " + rest)[1..] == rest;
      WordsOfJoin(ws[1..]);
      assert ws == [w] + ws[1..];
    }
  }

  // ---------------------------------------------------------------- wrapText

  /** The lines of a wrap: the finished lines, plus the open line when it is not empty. */
  function Pending(lines: seq<string>, open: string): seq<string> {
    if open != "" then lines + [open] else lines
  }

  /** The loop of `wrapText`: try the next word on the open line; when the line then
      measures more than `maxWidth`, close the line (if any) and open one with the word. */
  function WrapWords(measure: string -> real, words: seq<string>, maxWidth: real,
                     open: string, lines: seq<string>): seq<string>
    decreases |words|
  {
    if |words| == 0 then Pending(lines, open)
    else
      var w := words[0];
      var test := if open != "" then open + " " + w else w;
      if measure(test) <= maxWidth then WrapWords(measure, words[1..], maxWidth, test, lines)
      else WrapWords(measure, words[1..], maxWidth, w, Pending(lines, open))
  }

  /** `wrapText(text, maxWidth)`: greedy wrapping of the words, and one empty line
      when there are none. */
  function WrapText(measure: string -> real, text: string, maxWidth: real): (lines: seq<string>)
    ensures |lines| >= 1
  {
    var lines := WrapWords(measure, Words(text), maxWidth, "", []);
    if |lines| == 0 then [""] else lines
  }

  /** A wrapped line either fits or is one word too wide to fit on its own. */
  ghost predicate LineFits(measure: string -> real, maxWidth: real, line: string) {
    line != "" && (measure(line) <= maxWidth || IsWord(line))
  }

  lemma JoinPending(lines: seq<string>, open: string, w: string)
    requires open != ""
    ensures Join(lines + [open + " " + w], " ") == Join(lines + [open], " ") + " " + w
  {
    if |lines| > 0 {
      JoinSnoc(lines, open + " " + w, " ");
      JoinSnoc(lines, open, " ");
    }
  }

  /** The greedy loop only regroups the words: with single spaces between them, the
      lines read as the words; and every line fits or is one word. */
  lemma {:induction false} WrapWordsRegroups(measure: string -> real, words: seq<string>, maxWidth: real,
                                            open: string, lines: seq<string>, done: seq<string>)
    requires forall i :: 0 <= i < |words| ==> IsWord(words[i])
    requires open == "" ==> lines == [] && done == []
    requires open != "" ==> |done| > 0 && Join(lines + [open], " ") == Join(done, " ")
    requires forall i :: 0 <= i < |lines| ==> LineFits(measure, maxWidth, lines[i])
    requires open != "" ==> LineFits(measure, maxWidth, open)
    ensures Join(WrapWords(measure, words, maxWidth, open, lines), " ") == Join(done + words, " ")
    ensures var r := WrapWords(measure, words, maxWidth, open, lines);
      forall i :: 0 <= i < |r| ==> LineFits(measure, maxWidth, r[i])
    decreases |words|
  {
    if |words| == 0 {
      assert done + words == done;
    } else {
      var w := words[0];
      var test := if open != "" then open + " " + w else w;
      assert done + words == (done + [w]) + words[1..];
      if open != "" {
        JoinSnoc(done, w, " ");
      }
      if measure(test) <= maxWidth {
        if open != "" {
          JoinPending(lines, open, w);
        }
        WrapWordsRegroups(measure, words[1..], maxWidth, test, lines, done + [w]);
      } else {
        var closed := Pending(lines, open);
        if open != "" {
          JoinSnoc(closed, w, " ");
        }
        WrapWordsRegroups(measure, words[1..], maxWidth, w, closed, done + [w]);
      }
    }
  }

  /** `wrapText` keeps the words: its lines, joined by single spaces, are the words of
      the text joined by single spaces, and splitting them again gives those words;
      every line fits `maxWidth` or is a single word. */
  lemma WrapTextKeepsWords(measure: string -> real, text: string, maxWidth: real)
    ensures Join(WrapText(measure, text, maxWidth), " ") == Join(Words(text), " ")
    ensures Words(Join(WrapText(measure, text, maxWidth), " ")) == Words(text)
    ensures |Words(text)| > 0 ==>
      forall i :: 0 <= i < |WrapText(measure, text, maxWidth)| ==>
        LineFits(measure, maxWidth, WrapText(measure, text, maxWidth)[i])
    ensures |Words(text)| == 0 ==> WrapText(measure, text, maxWidth) == [""]
  {
    var words := Words(text);
    WrapWordsRegroups(measure, words, maxWidth, "", [], []);
    assert [] + words == words;
    WordsOfJoin(words);
    if |words| > 0 {
      WrapWordsNonEmpty(measure, words, maxWidth, "", []);
    } else {
      assert WrapWords(measure, words, maxWidth, "", []) == [];
    }
  }

  lemma {:induction false} WrapWordsNonEmpty(measure: string -> real, words: seq<string>, maxWidth: real,
                                            open: string, lines: seq<string>)
    requires forall i :: 0 <= i < |words| ==> IsWord(words[i])
    requires |words| > 0 || open != ""
    ensures |WrapWords(measure, words, maxWidth, open, lines)| > 0
    decreases |words|
  {
    if |words| > 0 {
      var w := words[0];
      var test := if open != "" then open + " " + w else w;
      if measure(test) <= maxWidth {
        WrapWordsNonEmpty(measure, words[1..], maxWidth, test, lines);
      } else {
        WrapWordsNonEmpty(measure, words[1..], maxWidth, w, Pending(lines, open));
      }
    }
  }

  // --------------------------------------------------------------- ellipsize

  const Ellipsis: string := "\U{2026}"

  /** The loop of `ellipsize`: drop the last character while something is left and
      the rest with `…` is wider than `maxWidth`. */
  function Shorten(measure: string -> real, s: string, maxWidth: real): (r: string)
    ensures |r| <= |s| && r == s[..|r|]
    ensures |r| == 0 || measure(r + Ellipsis) <= maxWidth
    ensures forall i :: |r| < i <= |s| ==> measure(s[..i] + Ellipsis) > maxWidth
    decreases |s|
  {
    if |s| > 0 && measure(s + Ellipsis) > maxWidth then
      var shorter := s[..|s| - 1];
      assert forall i :: 0 <= i <= |shorter| ==> shorter[..i] == s[..i];
      assert s[..|s|] == s;
      Shorten(measure, shorter, maxWidth)
    else s
  }

  /** `ellipsize(text, maxW)`: the text itself when it fits, otherwise the longest
      prefix that fits with `…` after it (or just `…`), followed by `…`. */
  function Ellipsize(measure: string -> real, text: string, maxWidth: real): (r: string)
    ensures measure(text) <= maxWidth ==> r == text
    ensures measure(text) > maxWidth ==>
      && |r| >= 1 && r[|r| - 1..] == Ellipsis
      && IsPrefix(r[..|r| - 1], text)
      && (|r| == 1 || measure(r) <= maxWidth)
      && forall i :: |r| - 1 < i <= |text| ==> measure(text[..i] + Ellipsis) > maxWidth
  {
    if measure(text) <= maxWidth then text
    else
      var s := Shorten(measure, text, maxWidth);
      assert (s + Ellipsis)[..|s|] == s;
      s + Ellipsis
  }

  /** What a grid cell shows: the first wrapped line, ellipsized. */
  function Clip(measure: string -> real, text: string, maxWidth: real): (r: string)
    ensures var first := WrapText(measure, text, maxWidth)[0];
      measure(first) <= maxWidth ==> r == first
  {
    Ellipsize(measure, WrapText(measure, text, maxWidth)[0], maxWidth)
  }
}
