/** The page state machine of `makePage`: the list of pushed canvases, the current
    canvas and the cursor `y`, with `newCanvas`, `pushCanvas`, `ensureSpace` and
    `flushAll`.

    A canvas is a JavaScript object that stays drawable after it has been pushed,
    so canvases live in a store indexed by creation number and the page lists
    hold numbers: drawing through a context captured earlier lands on the canvas
    it belongs to, pushed or not.  Drawing is an append-only log of abstract
    events per canvas; colours, fonts and alignment are not modelled. */
module Layout {
  import opened Wrappers
  import opened Strings

  const Scale: int := 2
  /** `Math.round(595.28 * scale)` and `Math.round(841.89 * scale)`. */
  const PageW: int := 1191
  const PageH: int := 1684
  const Margin: int := 28 * Scale
  /** The lowest cursor position `ensureSpace` accepts: `hPx - margin`. */
  const Bottom: int := PageH - Margin

  datatype Event =
    | Text(text: string, x: int, y: int, px: int)
      /** A horizontal line from the left margin to the right margin at `y`. */
    | Rule(y: int)
    | Box(x: int, y: int, w: int, h: int)
      /** A table row: one cell per width, each showing its clipped text. */
    | Grid(y: int, widths: seq<real>, cells: seq<string>, bold: bool)

  /** `{ canvas, wPx, hPx }` as `flushAll` returns it. */
  datatype Page = Page(events: seq<Event>, wPx: int, hPx: int)

  /** `canvases`: every canvas made so far, by creation number; `pushed`: the numbers
      in `state.canvases`; `current`: `state.canvas` (and its `state.ctx`). */
  datatype State = State(canvases: seq<seq<Event>>, pushed: seq<nat>, current: Option<nat>, y: int)

  /** The state `makePage` starts with: nothing made, `y = margin`. */
  const Start: State := State([], [], None, Margin)

  /** Every canvas made so far is pushed or current, in the order made, each once. */
  ghost predicate Valid(st: State) {
    && (forall i | 0 <= i < |st.pushed| :: st.pushed[i] == i)
    && (if st.current.Some? then |st.pushed| + 1 == |st.canvases| && st.current.value == |st.pushed|
        else |st.pushed| == |st.canvases|)
  }

  /** `b` is `a` with more drawn or made: no event erased, no push undone. */
  ghost predicate Extends(a: State, b: State) {
    && |a.canvases| <= |b.canvases|
    && (forall i | 0 <= i < |a.canvases| :: IsPrefix(a.canvases[i], b.canvases[i]))
    && IsPrefix(a.pushed, b.pushed)
  }

  lemma ExtendsTransitive(a: State, b: State, c: State)
    requires Extends(a, b) && Extends(b, c)
    ensures Extends(a, c)
  {
    forall i | 0 <= i < |a.canvases|
      ensures IsPrefix(a.canvases[i], c.canvases[i])
    {
      PrefixTrans(a.canvases[i], b.canvases[i], c.canvases[i]);
    }
    PrefixTrans(a.pushed, b.pushed, c.pushed);
  }

  lemma PrefixTrans<T>(a: seq<T>, b: seq<T>, c: seq<T>)
    requires IsPrefix(a, b) && IsPrefix(b, c)
    ensures IsPrefix(a, c)
  {
    assert c[..|a|] == c[..|b|][..|a|];
  }

  lemma ExtendsRefl(a: State)
    ensures Extends(a, a)
  {
  }

  /** `newCanvas()`: a fresh blank canvas becomes current and `y` returns to the margin. */
  function NewCanvas(st: State): (r: State)
    ensures r.current == Some(|st.canvases|) && r.y == Margin
    ensures |r.canvases| == |st.canvases| + 1 && r.canvases[|st.canvases|] == []
    ensures Extends(st, r) && r.pushed == st.pushed
  {
    State(st.canvases + [[]], st.pushed, Some(|st.canvases|), Margin)
  }

  /** `pushCanvas()`: the current canvas, if any, joins the pushed list; it stays current. */
  function PushCanvas(st: State): (r: State)
    ensures st.current.Some? ==> r.pushed == st.pushed + [st.current.value]
    ensures st.current.None? ==> r.pushed == st.pushed
    ensures r.canvases == st.canvases && r.current == st.current && r.y == st.y
  {
    if st.current.Some? then st.(pushed := st.pushed + [st.current.value]) else st
  }

  /** `pushCanvas(); newCanvas();`: the page turn `ensureSpace` and the table use. */
  function Turn(st: State): (r: State)
    requires Valid(st) && st.current.Some?
    ensures Valid(r) && Extends(st, r)
    ensures r.pushed == st.pushed + [st.current.value] && r.y == Margin
    ensures r.current == Some(st.current.value + 1)
  {
    NewCanvas(PushCanvas(st))
  }

  /** `ensureSpace(px)`: make a canvas if there is none, then turn the page when the
      cursor plus `px` would pass `hPx - margin`. */
  function EnsureSpace(st: State, px: int): (r: State)
    requires Valid(st)
    ensures Valid(r) && Extends(st, r) && r.current.Some?
    ensures var y0 := if st.current.Some? then st.y else Margin;
      && (y0 + px > Bottom <==> |r.pushed| == |st.pushed| + 1)
      && (y0 + px > Bottom ==> r.y == Margin && r.current == Some(|r.canvases| - 1))
      && (y0 + px <= Bottom ==> r.pushed == st.pushed && r.y == y0)
      && |r.pushed| <= |st.pushed| + 1
    ensures st.current.Some? && st.y + px <= Bottom ==> r == st
    ensures forall i | 0 <= i < |st.canvases| :: r.canvases[i] == st.canvases[i]
  {
    var s1 := if st.current.None? then NewCanvas(st) else st;
    if s1.y + px > Bottom then Turn(s1) else s1
  }

  /** A page turned by `ensureSpace` adds one blank canvas and makes it current. */
  lemma TurnAddsBlank(st: State, px: int)
    requires Valid(st) && st.current.Some? && st.y + px > Bottom
    ensures var r := EnsureSpace(st, px);
      r.canvases == st.canvases + [[]] && r.current == Some(|st.canvases|) && r.y == Margin
  {
  }

  /** Draw one event on canvas `id`, wherever it is. */
  function DrawOn(st: State, id: nat, ev: Event): (r: State)
    requires id < |st.canvases|
    ensures |r.canvases| == |st.canvases| && r.canvases[id] == st.canvases[id] + [ev]
    ensures forall i | 0 <= i < |st.canvases| && i != id :: r.canvases[i] == st.canvases[i]
    ensures r.pushed == st.pushed && r.current == st.current && r.y == st.y
    ensures Extends(st, r) && (Valid(st) ==> Valid(r))
  {
    st.(canvases := st.canvases[id := st.canvases[id] + [ev]])
  }

  /** Draw several events, in order, on canvas `id`. */
  function DrawAllOn(st: State, id: nat, evs: seq<Event>): (r: State)
    requires id < |st.canvases|
    ensures |r.canvases| == |st.canvases| && r.canvases[id] == st.canvases[id] + evs
    ensures forall i | 0 <= i < |st.canvases| && i != id :: r.canvases[i] == st.canvases[i]
    ensures r.pushed == st.pushed && r.current == st.current && r.y == st.y
    ensures Extends(st, r) && (Valid(st) ==> Valid(r))
  {
    st.(canvases := st.canvases[id := st.canvases[id] + evs])
  }

  /** Draw on the current canvas (`state.ctx`). */
  function Draw(st: State, ev: Event): (r: State)
    requires Valid(st) && st.current.Some?
    ensures |r.canvases| == |st.canvases| && r.pushed == st.pushed && r.current == st.current && r.y == st.y
    ensures r.canvases[st.current.value] == st.canvases[st.current.value] + [ev]
    ensures forall i | 0 <= i < |st.canvases| && i != st.current.value :: r.canvases[i] == st.canvases[i]
    ensures Valid(r) && Extends(st, r)
  {
    DrawOn(st, st.current.value, ev)
  }

  /** `state.y += dy`. */
  function Advance(st: State, dy: int): (r: State)
    ensures r.y == st.y + dy && r.canvases == st.canvases && r.pushed == st.pushed && r.current == st.current
    ensures Extends(st, r) && (Valid(st) ==> Valid(r))
  {
    st.(y := st.y + dy)
  }

  function PageOf(events: seq<Event>): Page {
    Page(events, PageW, PageH)
  }

  /** `flushAll()`: push the current canvas, hand out every pushed canvas in order,
      and forget them all. */
  function FlushAll(st: State): (r: (seq<Page>, State))
    requires Valid(st)
    ensures var (pages, after) := r;
      && |pages| == |st.canvases|
      && (forall i | 0 <= i < |pages| :: pages[i] == Page(st.canvases[i], PageW, PageH))
      && after.pushed == [] && after.current == None && after.canvases == st.canvases
  {
    var s1 := PushCanvas(st);
    var pages := seq(|s1.pushed|, i requires 0 <= i < |s1.pushed| => PageOf(s1.canvases[s1.pushed[i]]));
    (pages, s1.(pushed := [], current := None))
  }
}
