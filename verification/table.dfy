/** `drawTablePaginated`: column widths, the texts of the header, body and totals
    rows, and the row-count-driven pagination.  Rows move a local cursor `yy`;
    the page cursor `state.y` changes only when a page is turned. */
module Table {
  import opened Wrappers
  import opened Strings
  import opened TextFit
  import opened Layout

  /** A cell as the payload holds it; `None` is `null`/`undefined`. */
  type Cell = Option<string>

  /** A body row; `None` is a `null`/`undefined` row. */
  type Row = Option<seq<Cell>>

  /** `payload.headerTitles` and `payload.rows`; `None` stands for a missing value
      or one that is not an array. */
  datatype Payload = Payload(headerTitles: Option<seq<Cell>>, rows: Option<seq<Row>>)

  const RowH: int := 18 * Scale
  /** Every grid row is `rowH + 2 * scale` high. */
  const RowStep: int := RowH + 2 * Scale
  const MaxRows: nat := 18
  const TableW: int := PageW - (Margin + 10 * Scale) * 2
  const Pad: int := 6 * Scale
  const CellPx: int := 11 * Scale
  /** The space each grid row asks `ensureSpace` for. */
  const RowNeed: int := RowH + 18 * Scale
  /** The space the table asks for before its header. */
  const TableNeed: int := RowH * 4
  const Continued: string := "متابعة..."
  /** Where rows resume after a forced page turn: below the continuation mark. */
  const ResumeY: int := Margin + 18 * Scale

  /** `Array.isArray(payload?.headerTitles) ? payload.headerTitles : []`. */
  function Headers(p: Option<Payload>): seq<Cell> {
    if p.Some? && p.value.headerTitles.Some? then p.value.headerTitles.value else []
  }

  /** `Array.isArray(payload?.rows) ? payload.rows : []`. */
  function Rows(p: Option<Payload>): seq<Row> {
    if p.Some? && p.value.rows.Some? then p.value.rows.value else []
  }

  /** `Math.max(1, headers.length || (rows[0]?.length || 1))`. */
  function ColCount(p: Option<Payload>): (n: nat)
    ensures n >= 1
    ensures |Headers(p)| > 0 ==> n == |Headers(p)|
    ensures |Headers(p)| == 0 && |Rows(p)| > 0 && Rows(p)[0].Some? && |Rows(p)[0].value| > 0 ==>
      n == |Rows(p)[0].value|
    ensures |Headers(p)| == 0 && (|Rows(p)| == 0 || Rows(p)[0].None? || |Rows(p)[0].value| == 0) ==> n == 1
  {
    var headers := Headers(p);
    var rows := Rows(p);
    var fromRows := if |rows| > 0 && rows[0].Some? && |rows[0].value| > 0 then |rows[0].value| else 1;
    var count := if |headers| > 0 then |headers| else fromRows;
    if count > 1 then count else 1
  }

  function Sum(s: seq<real>): real {
    if |s| == 0 then 0.0 else Sum(s[..|s| - 1]) + s[|s| - 1]
  }

  /** The column widths: all `tableW / colCount`, except that with two or more
      columns the last is 1.15 times that and the others share the rest equally. */
  function Widths(n: nat): (w: seq<real>)
    requires n >= 1
    ensures |w| == n && Sum(w) == TableW as real
    ensures n == 1 ==> w == [TableW as real]
    ensures n >= 2 ==> w[n - 1] == 1.15 * (TableW as real / n as real)
    ensures n >= 2 ==> forall i | 0 <= i < n - 1 :: w[i] == w[0] && w[i] < w[n - 1]
  {
    var base := TableW as real / n as real;
    if n >= 2 then
      var last := base * 1.15;
      var other := (TableW as real - last) / (n - 1) as real;
      var w := seq(n, i => if i == n - 1 then last else other);
      WidthsSum(w, other, last);
      WidthsOrder(n, base, other);
      w
    else
      [base]
  }

  lemma WidthsOrder(n: nat, base: real, other: real)
    requires n >= 2 && base > 0.0 && other == (TableW as real - base * 1.15) / (n - 1) as real
    requires base == TableW as real / n as real
    ensures other < base * 1.15
  {
    assert base * n as real == TableW as real;
    assert other * (n - 1) as real == TableW as real - base * 1.15;
  }

  lemma WidthsSum(w: seq<real>, other: real, last: real)
    requires |w| >= 2 && w[|w| - 1] == last && other == (TableW as real - last) / (|w| - 1) as real
    requires forall i | 0 <= i < |w| - 1 :: w[i] == other
    ensures Sum(w) == TableW as real
  {
    SumConstant(w[..|w| - 1], other);
    assert (|w| - 1) as real * other == TableW as real - last;
  }

  lemma {:induction false} SumConstant(s: seq<real>, c: real)
    requires forall i | 0 <= i < |s| :: s[i] == c
    ensures Sum(s) == |s| as real * c
  {
    if |s| > 0 {
      SumConstant(s[..|s| - 1], c);
    }
  }

  /** `String(texts[i] ?? '')` for a list that may be shorter than `i`. */
  function CellText(cells: seq<Cell>, i: nat): string {
    if i < |cells| then cells[i].GetOr("") else ""
  }

  /** The texts of every row the table draws, each with one text per column. */
  datatype Cells = Cells(widths: seq<real>, header: seq<string>, body: seq<seq<string>>, totals: seq<string>)

  /** The header texts, each body row's `r?.[i] ?? ''`, and the totals row with the
      label next to last (when there are two columns or more) and the value last. */
  function CellsOf(p: Option<Payload>, totalLabel: string, totalValue: string): (c: Cells)
    ensures var n := ColCount(p);
      && |c.widths| == n && |c.header| == n && |c.totals| == n && |c.body| == |Rows(p)|
      && (forall k | 0 <= k < |c.body| :: |c.body[k]| == n)
      && (forall i | 0 <= i < n :: c.header[i] == CellText(Headers(p), i))
      && (forall k, i | 0 <= k < |c.body| && 0 <= i < n ::
            c.body[k][i] == if Rows(p)[k].Some? then CellText(Rows(p)[k].value, i) else "")
      && c.totals[n - 1] == totalValue
      && (n >= 2 ==> c.totals[n - 2] == totalLabel)
      && (forall i | 0 <= i < n - 2 :: c.totals[i] == "")
  {
    var n := ColCount(p);
    var rows := Rows(p);
    Cells(
      Widths(n),
      seq(n, i requires 0 <= i < n => CellText(Headers(p), i)),
      seq(|rows|, k requires 0 <= k < |rows| =>
        seq(n, i requires 0 <= i < n => if rows[k].Some? then CellText(rows[k].value, i) else "")),
      seq(n, i => if i == n - 1 then totalValue else if i == n - 2 then totalLabel else ""))
  }

  /** What a grid row shows in each column: the text's first wrapped line,
      ellipsized to the column width less the padding. */
  function Shown(measure: string -> real, widths: seq<real>, texts: seq<string>): (r: seq<string>)
    requires |texts| == |widths|
    ensures |r| == |widths|
    ensures forall i | 0 <= i < |r| :: r[i] == Clip(measure, texts[i], widths[i] - (2 * Pad) as real)
  {
    seq(|widths|, i requires 0 <= i < |widths| => Clip(measure, texts[i], widths[i] - (2 * Pad) as real))
  }

  function RowEvent(measure: string -> real, widths: seq<real>, yy: int, texts: seq<string>, bold: bool): Event
    requires |texts| == |widths|
  {
    Grid(yy, widths, Shown(measure, widths, texts), bold)
  }

  ghost predicate WellFormed(c: Cells) {
    && |c.header| == |c.widths| && |c.totals| == |c.widths|
    && forall k | 0 <= k < |c.body| :: |c.body[k]| == |c.widths|
  }

  /** `drawGridRow`: ask for `rowH + 18 * scale`, then draw the row on the current canvas. */
  function DrawGridRow(st: State, measure: string -> real, widths: seq<real>, yy: int,
                       texts: seq<string>, bold: bool): (r: State)
    requires Valid(st) && |texts| == |widths|
    ensures Valid(r) && r.current.Some? && Extends(st, r)
    ensures st.current.Some? && st.y + RowNeed <= Bottom ==>
      && r.canvases == st.canvases[st.current.value := st.canvases[st.current.value] + [RowEvent(measure, widths, yy, texts, bold)]]
      && r.pushed == st.pushed && r.current == st.current && r.y == st.y
  {
    var s1 := EnsureSpace(st, RowNeed);
    ExtendsTransitive(st, s1, Draw(s1, RowEvent(measure, widths, yy, texts, bold)));
    Draw(s1, RowEvent(measure, widths, yy, texts, bold))
  }

  /** The forced break: push the page, start a new one, draw the continuation mark
      and the header again. */
  function ContinuationBreak(st: State, measure: string -> real, c: Cells): (r: (State, int))
    requires Valid(st) && st.current.Some? && WellFormed(c)
    ensures Valid(r.0) && r.0.current.Some? && Extends(st, r.0)
  {
    var s1 := Turn(st);
    var s2 := Draw(s1, Text(Continued, PageW - Margin, Margin, CellPx));
    ExtendsTransitive(st, s1, s2);
    var s3 := DrawGridRow(s2, measure, c.widths, ResumeY, c.header, true);
    ExtendsTransitive(st, s2, s3);
    (s3, ResumeY + RowStep)
  }

  /** The row loop: before a row, when `printed` has reached 18, break the page. */
  function DrawRows(st: State, measure: string -> real, c: Cells, rows: seq<seq<string>>,
                    printed: nat, yy: int): (r: (State, int))
    requires Valid(st) && st.current.Some? && WellFormed(c)
    requires forall k | 0 <= k < |rows| :: |rows[k]| == |c.widths|
    ensures Valid(r.0) && r.0.current.Some? && Extends(st, r.0)
    decreases |rows|
  {
    if |rows| == 0 then (st, yy)
    else
      var (s1, y1) := if printed >= MaxRows then ContinuationBreak(st, measure, c) else (st, yy);
      var p1 := if printed >= MaxRows then 0 else printed;
      var s2 := DrawGridRow(s1, measure, c.widths, y1, rows[0], false);
      ExtendsTransitive(st, s1, s2);
      var r := DrawRows(s2, measure, c, rows[1..], p1 + 1, y1 + RowStep);
      ExtendsTransitive(st, s2, r.0);
      r
  }

  /** `drawTablePaginated({ payload, totalLabel, totalValue, y })`: the new page
      state and the returned cursor. */
  function DrawTable(st: State, measure: string -> real, p: Option<Payload>,
                     totalLabel: string, totalValue: string, y: int): (r: (State, int))
    requires Valid(st)
    ensures Valid(r.0) && r.0.current.Some? && Extends(st, r.0)
  {
    var c := CellsOf(p, totalLabel, totalValue);
    var s1 := EnsureSpace(st, TableNeed);
    var s2 := DrawGridRow(s1, measure, c.widths, y, c.header, true);
    var rows := DrawRows(s2, measure, c, c.body, 0, y + RowStep);
    var s4 := DrawGridRow(rows.0, measure, c.widths, rows.1, c.totals, true);
    ExtendsTransitive(st, s1, s2);
    ExtendsTransitive(st, s2, rows.0);
    ExtendsTransitive(st, rows.0, s4);
    (s4, rows.1 + RowStep + 10 * Scale)
  }

  // ------------------------------------------------------ reference layout

  function Min(a: int, b: int): int {
    if a <= b then a else b
  }

  /** Body rows drawn from `y0` down, one row step apart. */
  function RowsAt(measure: string -> real, widths: seq<real>, y0: int, rows: seq<seq<string>>): (evs: seq<Event>)
    requires forall k | 0 <= k < |rows| :: |rows[k]| == |widths|
    ensures |evs| == |rows|
  {
    seq(|rows|, k requires 0 <= k < |rows| => RowEvent(measure, widths, y0 + RowStep * k, rows[k], false))
  }

  /** How a page opened by a forced break begins: the continuation mark at the
      margin and the header row below it. */
  function ContinuedHead(measure: string -> real, c: Cells): seq<Event>
    requires WellFormed(c)
  {
    [Text(Continued, PageW - Margin, Margin, CellPx), RowEvent(measure, c.widths, ResumeY, c.header, true)]
  }

  /** Rows `18 j` up to `18 j + 18` (or the end). */
  function Chunk(rows: seq<seq<string>>, j: nat): seq<seq<string>>
    requires MaxRows * j < |rows|
  {
    rows[MaxRows * j..Min(MaxRows * j + MaxRows, |rows|)]
  }

  /** Reference layout of rows that go on fresh pages: page `j` holds the
      continuation mark, the header, and rows `18 j` to `18 j + 17` from
      `margin + 36 + 40` down. */
  function Chunks(measure: string -> real, c: Cells, rows: seq<seq<string>>): (pages: seq<seq<Event>>)
    requires WellFormed(c) && forall k | 0 <= k < |rows| :: |rows[k]| == |c.widths|
    ensures |pages| == (|rows| + MaxRows - 1) / MaxRows
    ensures forall j | 0 <= j < |pages| :: 3 <= |pages[j]| <= |ContinuedHead(measure, c)| + MaxRows
  {
    seq((|rows| + MaxRows - 1) / MaxRows, j requires 0 <= j < (|rows| + MaxRows - 1) / MaxRows =>
      ContinuedHead(measure, c) + RowsAt(measure, c.widths, ResumeY + RowStep, Chunk(rows, j)))
  }

  /** Where the row cursor ends after `n` rows drawn from `yy` when `printed` rows
      are already on the page. */
  function EndY(yy: int, printed: nat, n: nat): int
    requires printed <= MaxRows
  {
    if n <= MaxRows - printed then yy + RowStep * n
    else ResumeY + RowStep + RowStep * ((n - (MaxRows - printed) - 1) % MaxRows + 1)
  }

  /** The table's part of the page state: a current canvas and room for the table's
      header below `state.y`. */
  ghost predicate Roomy(st: State) {
    Valid(st) && st.current.Some? && st.y + TableNeed <= Bottom
  }

  lemma RowsAtCons(measure: string -> real, widths: seq<real>, y0: int, rows: seq<seq<string>>, n: nat)
    requires forall k | 0 <= k < |rows| :: |rows[k]| == |widths|
    requires 1 <= n <= |rows|
    ensures [RowEvent(measure, widths, y0, rows[0], false)] + RowsAt(measure, widths, y0 + RowStep, rows[1..][..n - 1])
         == RowsAt(measure, widths, y0, rows[..n])
  {
    var a := [RowEvent(measure, widths, y0, rows[0], false)] + RowsAt(measure, widths, y0 + RowStep, rows[1..][..n - 1]);
    var b := RowsAt(measure, widths, y0, rows[..n]);
    forall k | 0 <= k < n
      ensures a[k] == b[k]
    {
      if k > 0 {
        assert rows[1..][..n - 1][k - 1] == rows[k];
        assert y0 + RowStep + RowStep * (k - 1) == y0 + RowStep * k;
      }
    }
  }

  /** The first chunk of the rows, then the chunks of what is left after it. */
  lemma ChunksCons(measure: string -> real, c: Cells, rows: seq<seq<string>>)
    requires WellFormed(c) && forall k | 0 <= k < |rows| :: |rows[k]| == |c.widths|
    requires |rows| > 0
    ensures var k := Min(MaxRows, |rows|);
      Chunks(measure, c, rows)
        == [ContinuedHead(measure, c) + RowsAt(measure, c.widths, ResumeY + RowStep, rows[..k])]
           + Chunks(measure, c, rows[k..])
  {
    var k := Min(MaxRows, |rows|);
    var a := Chunks(measure, c, rows);
    var tail := Chunks(measure, c, rows[k..]);
    assert Chunk(rows, 0) == rows[..k];
    assert |a| == 1 + |tail|;
    forall j | 0 <= j < |tail|
      ensures a[j + 1] == tail[j]
    {
      assert Chunk(rows, j + 1) == Chunk(rows[k..], j);
    }
  }

  /** A row drawn while there is room goes on the current canvas. */
  lemma RowStaysRoomy(st: State, measure: string -> real, widths: seq<real>, yy: int, texts: seq<string>, bold: bool)
    requires Roomy(st) && |texts| == |widths|
    ensures var r := DrawGridRow(st, measure, widths, yy, texts, bold);
      && Roomy(r) && |r.canvases| == |st.canvases|
      && r == st.(canvases := st.canvases[st.current.value := st.canvases[st.current.value] + [RowEvent(measure, widths, yy, texts, bold)]])
  {
  }

  /** The forced break opens one canvas holding the mark and the header. */
  lemma BreakLog(st: State, measure: string -> real, c: Cells)
    requires Roomy(st) && WellFormed(c)
    ensures var (r, y1) := ContinuationBreak(st, measure, c);
      && Roomy(r) && r.y == Margin && y1 == ResumeY + RowStep
      && r.canvases == st.canvases + [ContinuedHead(measure, c)]
  {
    var s1 := Turn(st);
    var s2 := Draw(s1, Text(Continued, PageW - Margin, Margin, CellPx));
    var mark := Text(Continued, PageW - Margin, Margin, CellPx);
    var head := RowEvent(measure, c.widths, ResumeY, c.header, true);
    assert s2.canvases == st.canvases + [[mark]];
    assert Roomy(s2);
    RowStaysRoomy(s2, measure, c.widths, ResumeY, c.header, true);
    assert s2.current.value == |st.canvases|;
    AppendAtEnd(st.canvases, [mark], [head]);
    assert [mark] + [head] == [mark, head];
  }

  /** The row loop against the reference, for a final state `r` and cursor `yEnd`:
      the rows that still fit the current page (up to 18 in all) go on it one step
      apart from `yy`, the rest go on fresh pages chunk by chunk, and `state.y` moves
      only when a page is turned. */
  ghost predicate RowsLogged(st: State, measure: string -> real, c: Cells, rows: seq<seq<string>>,
                             printed: nat, yy: int, r: State, yEnd: int)
    requires Roomy(st) && WellFormed(c) && printed <= MaxRows
    requires forall k | 0 <= k < |rows| :: |rows[k]| == |c.widths|
  {
    var cur := st.current.value;
    var f := Min(MaxRows - printed, |rows|);
    var later := Chunks(measure, c, rows[f..]);
    && Roomy(r)
    && r.canvases == st.canvases[cur := st.canvases[cur] + RowsAt(measure, c.widths, yy, rows[..f])] + later
    && r.y == (if |later| == 0 then st.y else Margin)
    && yEnd == EndY(yy, printed, |rows|)
  }

  lemma {:induction false} DrawRowsLog(st: State, measure: string -> real, c: Cells, rows: seq<seq<string>>,
                                      printed: nat, yy: int)
    requires Roomy(st) && WellFormed(c) && printed <= MaxRows
    requires forall k | 0 <= k < |rows| :: |rows[k]| == |c.widths|
    ensures var (r, yEnd) := DrawRows(st, measure, c, rows, printed, yy);
      RowsLogged(st, measure, c, rows, printed, yy, r, yEnd)
    decreases |rows|, 1
  {
    if |rows| == 0 {
      var cur := st.current.value;
      assert st.canvases[cur] + RowsAt(measure, c.widths, yy, rows[..0]) == st.canvases[cur];
    } else if printed < MaxRows {
      DrawRowsLogRow(st, measure, c, rows, printed, yy);
    } else {
      DrawRowsLogBreak(st, measure, c, rows, yy);
    }
  }

  lemma {:induction false} DrawRowsLogRow(st: State, measure: string -> real, c: Cells, rows: seq<seq<string>>,
                                         printed: nat, yy: int)
    requires Roomy(st) && WellFormed(c) && printed < MaxRows && |rows| > 0
    requires forall k | 0 <= k < |rows| :: |rows[k]| == |c.widths|
    ensures var (r, yEnd) := DrawRows(st, measure, c, rows, printed, yy);
      RowsLogged(st, measure, c, rows, printed, yy, r, yEnd)
    decreases |rows|, 0
  {
    RowStaysRoomy(st, measure, c.widths, yy, rows[0], false);
    var s2 := DrawGridRow(st, measure, c.widths, yy, rows[0], false);
    DrawRowsLog(s2, measure, c, rows[1..], printed + 1, yy + RowStep);
    DrawRowsStep(st, measure, c, rows, printed, yy);
    var (r, yEnd) := DrawRows(s2, measure, c, rows[1..], printed + 1, yy + RowStep);
    RowCase(st, measure, c, rows, printed, yy, r, yEnd);
  }

  /** Below the row limit, one row is drawn where the cursor is and the rest follow. */
  lemma DrawRowsStep(st: State, measure: string -> real, c: Cells, rows: seq<seq<string>>, printed: nat, yy: int)
    requires Valid(st) && st.current.Some? && WellFormed(c) && printed < MaxRows && |rows| > 0
    requires forall k | 0 <= k < |rows| :: |rows[k]| == |c.widths|
    ensures var next := DrawRows(DrawGridRow(st, measure, c.widths, yy, rows[0], false), measure, c, rows[1..],
                                 printed + 1, yy + RowStep);
      && DrawRows(st, measure, c, rows, printed, yy).0 == next.0
      && DrawRows(st, measure, c, rows, printed, yy).1 == next.1
  {
  }

  lemma {:induction false} DrawRowsLogBreak(st: State, measure: string -> real, c: Cells, rows: seq<seq<string>>,
                                           yy: int)
    requires Roomy(st) && WellFormed(c) && |rows| > 0
    requires forall k | 0 <= k < |rows| :: |rows[k]| == |c.widths|
    ensures var (r, yEnd) := DrawRows(st, measure, c, rows, MaxRows, yy);
      RowsLogged(st, measure, c, rows, MaxRows, yy, r, yEnd)
    decreases |rows|, 0
  {
    BreakLog(st, measure, c);
    var (s1, y1) := ContinuationBreak(st, measure, c);
    RowStaysRoomy(s1, measure, c.widths, y1, rows[0], false);
    var s2 := DrawGridRow(s1, measure, c.widths, y1, rows[0], false);
    DrawRowsLog(s2, measure, c, rows[1..], 1, y1 + RowStep);
    var (r, yEnd) := DrawRows(s2, measure, c, rows[1..], 1, y1 + RowStep);
    assert DrawRows(st, measure, c, rows, MaxRows, yy) == (r, yEnd);
    BreakCase(st, measure, c, rows, yy, r, yEnd);
  }

  /** A row that still fits the page, then the rest as the reference says. */
  lemma RowCase(st: State, measure: string -> real, c: Cells, rows: seq<seq<string>>, printed: nat, yy: int,
                r: State, yEnd: int)
    requires Roomy(st) && WellFormed(c) && printed < MaxRows && |rows| > 0
    requires forall k | 0 <= k < |rows| :: |rows[k]| == |c.widths|
    requires var s2 := st.(canvases := st.canvases[st.current.value := st.canvases[st.current.value] + [RowEvent(measure, c.widths, yy, rows[0], false)]]);
      Roomy(s2) && RowsLogged(s2, measure, c, rows[1..], printed + 1, yy + RowStep, r, yEnd)
    ensures RowsLogged(st, measure, c, rows, printed, yy, r, yEnd)
  {
    var cur := st.current.value;
    var f := Min(MaxRows - printed, |rows|);
    var ev := RowEvent(measure, c.widths, yy, rows[0], false);
    RowsAtCons(measure, c.widths, yy, rows, f);
    assert rows[1..][f - 1..] == rows[f..];
    AppendTwiceAt(st.canvases, cur, [ev], RowsAt(measure, c.widths, yy + RowStep, rows[1..][..f - 1]));
  }

  /** A forced break, then the rest as the reference says. */
  lemma BreakCase(st: State, measure: string -> real, c: Cells, rows: seq<seq<string>>, yy: int,
                  r: State, yEnd: int)
    requires Roomy(st) && WellFormed(c) && |rows| > 0
    requires forall k | 0 <= k < |rows| :: |rows[k]| == |c.widths|
    requires var s2 := State(st.canvases + [ContinuedHead(measure, c) + [RowEvent(measure, c.widths, ResumeY + RowStep, rows[0], false)]],
                             st.pushed + [st.current.value], Some(|st.canvases|), Margin);
      Roomy(s2) && RowsLogged(s2, measure, c, rows[1..], 1, ResumeY + 2 * RowStep, r, yEnd)
    ensures RowsLogged(st, measure, c, rows, MaxRows, yy, r, yEnd)
  {
    var cur := st.current.value;
    var k := Min(MaxRows, |rows|);
    var y1 := ResumeY + RowStep;
    var head := ContinuedHead(measure, c);
    var ev := RowEvent(measure, c.widths, y1, rows[0], false);
    var rest := RowsAt(measure, c.widths, y1 + RowStep, rows[1..][..k - 1]);
    assert rows[1..][k - 1..] == rows[k..];
    BreakCanvases(st.canvases, measure, c, rows, r.canvases);
    assert rows[0..] == rows;
    assert RowsAt(measure, c.widths, yy, rows[..0]) == [];
    assert st.canvases[cur] + [] == st.canvases[cur];
    EndYBreak(yy, |rows|);
  }

  /** The canvases after a forced break: the first chunk opens a new canvas after the
      continuation head, and the rest follow chunk by chunk. */
  lemma BreakCanvases(canvases: seq<seq<Event>>, measure: string -> real, c: Cells, rows: seq<seq<string>>,
                      after: seq<seq<Event>>)
    requires WellFormed(c) && |rows| > 0
    requires forall k | 0 <= k < |rows| :: |rows[k]| == |c.widths|
    requires var k := Min(MaxRows, |rows|);
      var head := ContinuedHead(measure, c) + [RowEvent(measure, c.widths, ResumeY + RowStep, rows[0], false)];
      after == (canvases + [head])[|canvases| := head + RowsAt(measure, c.widths, ResumeY + 2 * RowStep, rows[1..][..k - 1])]
               + Chunks(measure, c, rows[k..])
    ensures after == canvases + Chunks(measure, c, rows)
  {
    var k := Min(MaxRows, |rows|);
    var y1 := ResumeY + RowStep;
    var head := ContinuedHead(measure, c);
    var ev := RowEvent(measure, c.widths, y1, rows[0], false);
    var rest := RowsAt(measure, c.widths, y1 + RowStep, rows[1..][..k - 1]);
    AppendAtEnd(canvases, head + [ev], rest);
    RowsAtCons(measure, c.widths, y1, rows, k);
    assert head + [ev] + rest == head + RowsAt(measure, c.widths, y1, rows[..k]);
    ChunksCons(measure, c, rows);
  }

  /** After a forced break the cursor ends where the reference puts it. */
  lemma EndYBreak(yy: int, n: nat)
    requires n > 0
    ensures EndY(ResumeY + 2 * RowStep, 1, n - 1) == EndY(yy, MaxRows, n)
  {
    if n - 1 > MaxRows - 1 {
      assert (n - 1 - (MaxRows - 1) - 1) % MaxRows == (n - 1) % MaxRows;
    }
  }

  /** The whole table against the reference, from the state `s1` the table's
      `ensureSpace` leaves to the canvases, pushed list and page cursor after it
      and the cursor `yOut` it returns: the header at `y`, the first (up to) 18
      rows under it on the same canvas, the rest on fresh canvases chunk by chunk,
      and the totals on the last canvas at the cursor the rows left; the table
      returns that cursor plus the totals row and `10 * scale`.  A table of `k`
      rows turns the page `max(0, ceil(k / 18) - 1)` times, and the page cursor
      moves only when it does. */
  ghost predicate TableLaid(s1: State, measure: string -> real, c: Cells, y: int,
                            canvases: seq<seq<Event>>, pushed: seq<nat>, cursor: int, yOut: int)
    requires Roomy(s1) && WellFormed(c)
  {
    var k := |c.body|;
    var cur := s1.current.value;
    var f := Min(MaxRows, k);
    var later := Chunks(measure, c, c.body[f..]);
    var yEnd := EndY(y + RowStep, 0, k);
    var log := s1.canvases[cur := s1.canvases[cur] + [RowEvent(measure, c.widths, y, c.header, true)]
                                  + RowsAt(measure, c.widths, y + RowStep, c.body[..f])] + later;
    && |later| == (if k == 0 then 0 else (k + MaxRows - 1) / MaxRows - 1)
    && canvases == log[|log| - 1 := log[|log| - 1] + [RowEvent(measure, c.widths, yEnd, c.totals, true)]]
    && |pushed| == |s1.pushed| + |later|
    && cursor == (if |later| == 0 then s1.y else Margin)
    && yOut == yEnd + RowStep + 10 * Scale
  }

  lemma DrawTableLog(st: State, measure: string -> real, p: Option<Payload>,
                     totalLabel: string, totalValue: string, y: int)
    requires Valid(st)
    ensures Roomy(EnsureSpace(st, TableNeed))
    ensures var r := DrawTable(st, measure, p, totalLabel, totalValue, y);
      TableLaid(EnsureSpace(st, TableNeed), measure, CellsOf(p, totalLabel, totalValue), y,
                r.0.canvases, r.0.pushed, r.0.y, r.1)
  {
    DrawTableSteps(st, measure, p, totalLabel, totalValue, y);
    TableOnRoom(EnsureSpace(st, TableNeed), measure, CellsOf(p, totalLabel, totalValue), y);
  }

  /** The header, the rows and the totals drawn from a state with room for the table. */
  lemma TableOnRoom(s1: State, measure: string -> real, c: Cells, y: int)
    requires Roomy(s1) && WellFormed(c)
    ensures var s2 := DrawGridRow(s1, measure, c.widths, y, c.header, true);
      var rows := DrawRows(s2, measure, c, c.body, 0, y + RowStep);
      var s4 := DrawGridRow(rows.0, measure, c.widths, rows.1, c.totals, true);
      TableLaid(s1, measure, c, y, s4.canvases, s4.pushed, s4.y, rows.1 + RowStep + 10 * Scale)
  {
    RowStaysRoomy(s1, measure, c.widths, y, c.header, true);
    var s2 := DrawGridRow(s1, measure, c.widths, y, c.header, true);
    DrawRowsLog(s2, measure, c, c.body, 0, y + RowStep);
    var rows := DrawRows(s2, measure, c, c.body, 0, y + RowStep);
    RowStaysRoomy(rows.0, measure, c.widths, rows.1, c.totals, true);
    var s4 := DrawGridRow(rows.0, measure, c.widths, rows.1, c.totals, true);
    TableFromRows(s1, measure, c, y, s2, rows.0, rows.1, s4);
  }

  /** The steps of the table, one after the other. */
  lemma DrawTableSteps(st: State, measure: string -> real, p: Option<Payload>,
                       totalLabel: string, totalValue: string, y: int)
    requires Valid(st)
    ensures var c := CellsOf(p, totalLabel, totalValue);
      var s2 := DrawGridRow(EnsureSpace(st, TableNeed), measure, c.widths, y, c.header, true);
      var rows := DrawRows(s2, measure, c, c.body, 0, y + RowStep);
      var s4 := DrawGridRow(rows.0, measure, c.widths, rows.1, c.totals, true);
      var r := DrawTable(st, measure, p, totalLabel, totalValue, y);
      && r.0.canvases == s4.canvases && r.0.pushed == s4.pushed && r.0.y == s4.y
      && r.1 == rows.1 + RowStep + 10 * Scale
  {
  }

  /** The table's log from the row loop's: the header went first on the current canvas. */
  lemma TableFromRows(s1: State, measure: string -> real, c: Cells, y: int, s2: State, s3: State, y3: int, s4: State)
    requires Roomy(s1) && WellFormed(c)
    requires s2.canvases == s1.canvases[s1.current.value := s1.canvases[s1.current.value] + [RowEvent(measure, c.widths, y, c.header, true)]]
    requires s2.pushed == s1.pushed && s2.current == s1.current && s2.y == s1.y
    requires Roomy(s2) && RowsLogged(s2, measure, c, c.body, 0, y + RowStep, s3, y3)
    requires s4.canvases == s3.canvases[s3.current.value := s3.canvases[s3.current.value] + [RowEvent(measure, c.widths, y3, c.totals, true)]]
    requires s4.pushed == s3.pushed && s4.y == s3.y
    ensures var k := |c.body|;
      var cur := s1.current.value;
      var f := Min(MaxRows, k);
      var later := Chunks(measure, c, c.body[f..]);
      var log := s1.canvases[cur := s1.canvases[cur] + [RowEvent(measure, c.widths, y, c.header, true)]
                                    + RowsAt(measure, c.widths, y + RowStep, c.body[..f])] + later;
      && |later| == (if k == 0 then 0 else (k + MaxRows - 1) / MaxRows - 1)
      && y3 == EndY(y + RowStep, 0, k)
      && s4.canvases == log[|log| - 1 := log[|log| - 1] + [RowEvent(measure, c.widths, EndY(y + RowStep, 0, k), c.totals, true)]]
      && |s4.pushed| == |s1.pushed| + |later|
      && s4.y == (if |later| == 0 then s1.y else Margin)
  {
    var cur := s1.current.value;
    var hdr := RowEvent(measure, c.widths, y, c.header, true);
    var f := Min(MaxRows, |c.body|);
    var rows := RowsAt(measure, c.widths, y + RowStep, c.body[..f]);
    var s2c := s1.canvases[cur := s1.canvases[cur] + [hdr]];
    assert s2c[cur := s2c[cur] + rows] == s1.canvases[cur := s1.canvases[cur] + [hdr] + rows];
  }

  /** Rows are counted, not measured: a table of 18 rows started with just enough
      room for its header turns no page, and its totals row is drawn below the
      bottom of the page. */
  lemma FullTableRunsOff(st: State, measure: string -> real, p: Option<Payload>,
                         totalLabel: string, totalValue: string)
    requires Valid(st) && st.current.Some? && st.y + TableNeed <= Bottom
    requires |Rows(p)| == MaxRows
    ensures var r := DrawTable(st, measure, p, totalLabel, totalValue, st.y);
      var canvas := r.0.canvases[st.current.value];
      && r.0.pushed == st.pushed && r.0.y == st.y && |canvas| > 0
      && canvas[|canvas| - 1].Grid? && canvas[|canvas| - 1].y == st.y + RowStep * (MaxRows + 1)
      && (st.y + TableNeed == Bottom ==> canvas[|canvas| - 1].y > PageH)
  {
    DrawTableLog(st, measure, p, totalLabel, totalValue, st.y);
    var c := CellsOf(p, totalLabel, totalValue);
    assert Chunks(measure, c, c.body[MaxRows..]) == [];
  }

  /** The table's own `ensureSpace` may open a page, but the header still goes at
      the cursor the caller passed: on a fresh page, far below its top margin. */
  lemma HeaderKeepsStaleCursor(st: State, measure: string -> real, p: Option<Payload>,
                               totalLabel: string, totalValue: string)
    requires Valid(st) && st.current.Some? && st.y + TableNeed > Bottom
    ensures var r := DrawTable(st, measure, p, totalLabel, totalValue, st.y);
      var c := CellsOf(p, totalLabel, totalValue);
      && |r.0.pushed| > |st.pushed| && |r.0.canvases| > |st.canvases|
      && |r.0.canvases[|st.canvases|]| > 0
      && r.0.canvases[|st.canvases|][0] == RowEvent(measure, c.widths, st.y, c.header, true)
      && r.0.canvases[|st.canvases|][0].y > Bottom - TableNeed
  {
    DrawTableLog(st, measure, p, totalLabel, totalValue, st.y);
    TurnAddsBlank(st, TableNeed);
    var r := DrawTable(st, measure, p, totalLabel, totalValue, st.y);
    HeaderOnBlank(EnsureSpace(st, TableNeed), measure, CellsOf(p, totalLabel, totalValue), st.y,
                  r.0.canvases, r.0.pushed, r.0.y, r.1);
  }

  /** A table started on a blank canvas has its header first on it. */
  lemma HeaderOnBlank(s1: State, measure: string -> real, c: Cells, y: int,
                      canvases: seq<seq<Event>>, pushed: seq<nat>, cursor: int, yOut: int)
    requires Roomy(s1) && WellFormed(c) && s1.canvases[s1.current.value] == []
    requires TableLaid(s1, measure, c, y, canvases, pushed, cursor, yOut)
    ensures var cur := s1.current.value;
      cur < |canvases| && |canvases[cur]| > 0 && canvases[cur][0] == RowEvent(measure, c.widths, y, c.header, true)
  {
    var f := Min(MaxRows, |c.body|);
    FirstOnCanvas(s1.canvases, s1.current.value, RowEvent(measure, c.widths, y, c.header, true),
                  RowsAt(measure, c.widths, y + RowStep, c.body[..f]), Chunks(measure, c, c.body[f..]),
                  RowEvent(measure, c.widths, EndY(y + RowStep, 0, |c.body|), c.totals, true), canvases);
  }

  /** What is drawn first on a blank canvas stays first whatever follows. */
  lemma FirstOnCanvas(canvases: seq<seq<Event>>, cur: nat, first: Event, rows: seq<Event>,
                      later: seq<seq<Event>>, last: Event, after: seq<seq<Event>>)
    requires cur < |canvases| && canvases[cur] == []
    requires var log := canvases[cur := canvases[cur] + [first] + rows] + later;
      after == log[|log| - 1 := log[|log| - 1] + [last]]
    ensures cur < |after| && |after[cur]| > 0 && after[cur][0] == first
  {
    var log := canvases[cur := canvases[cur] + [first] + rows] + later;
    assert log[cur] == [first] + rows;
    HeadAfterAppendLast(log, cur, [last]);
  }
}
