/** `renderClientInvoicesToCanvases`: the statement header, one block per invoice
    (two paginated tables and a summary box), and the final flush of every page. */
module Renderer {
  import opened Wrappers
  import opened Strings
  import opened Layout
  import opened Table

  /** The client record: the renderer reads `name`, `phone` and `location`; the
      export also reads `name` and `currency`. */
  datatype Client = Client(name: Option<string>, phone: Option<string>, location: Option<string>,
                           currency: Option<string>)

  /** An invoice as the export passes it; the amounts arrive already formatted,
      as JavaScript's template literals format them. */
  datatype Invoice = Invoice(name: Option<string>, date: Option<string>, sym: Option<string>,
                             t1: Option<Payload>, t2: Option<Payload>,
                             s1: string, s2: string, bal: string)

  // ------------------------------------------------------------------ header

  const DefaultTitle: string := "الغدير نقل و تخليص"
  const DefaultSub: string := "كشف حساب العميل (PDF)"
  /** The header texts are right-aligned at the right margin. */
  const HeaderX: int := PageW - Margin
  /** `addHeader` asks for this much room. */
  const HeaderNeed: int := 160
  /** The space the header takes: four text lines, the divider and the gap below it. */
  const HeaderH: int := (22 + 6) * Scale + (13 + 8) * Scale + (11 + 4) * Scale + (11 + 10) * Scale + 12 * Scale

  /** `${client?.name || ''} — ${client?.phone || ''} — ${client?.location || ''}`. */
  function ClientLine(client: Option<Client>): (line: string)
    ensures client.None? ==> line == " —  — "
    ensures client.Some? ==> line == OrElse(client.value.name, "") + " — " + OrElse(client.value.phone, "")
                                     + " — " + OrElse(client.value.location, "")
  {
    var name := if client.Some? then OrElse(client.value.name, "") else "";
    var phone := if client.Some? then OrElse(client.value.phone, "") else "";
    var location := if client.Some? then OrElse(client.value.location, "") else "";
    name + " — " + phone + " — " + location
  }

  /** What `addHeader` draws when the cursor is at `y`: title, subtitle, client
      line, range line, each below the last, then the divider. */
  function HeaderEvents(brandTitle: Option<string>, brandSub: Option<string>, client: Option<Client>,
                        rangeText: Option<string>, y: int): (evs: seq<Event>)
    ensures |evs| == 5 && evs[4] == Rule(y + HeaderH - 12 * Scale)
    ensures forall i | 0 <= i < 4 :: evs[i].Text? && evs[i].x == HeaderX && y <= evs[i].y < evs[4].y
    ensures evs[0].text == OrElse(brandTitle, DefaultTitle) && evs[1].text == OrElse(brandSub, DefaultSub)
    ensures evs[2].text == ClientLine(client) && evs[3].text == OrElse(rangeText, "")
  {
    [ Text(OrElse(brandTitle, DefaultTitle), HeaderX, y, 22 * Scale),
      Text(OrElse(brandSub, DefaultSub), HeaderX, y + 28 * Scale, 13 * Scale),
      Text(ClientLine(client), HeaderX, y + 49 * Scale, 11 * Scale),
      Text(OrElse(rangeText, ""), HeaderX, y + 64 * Scale, 11 * Scale),
      Rule(y + 85 * Scale) ]
  }

  /** `addHeader`: ask for 160 px, then draw the header on the current canvas and
      move the cursor below it. */
  function AddHeader(st: State, brandTitle: Option<string>, brandSub: Option<string>,
                     client: Option<Client>, rangeText: Option<string>): (r: State)
    requires Valid(st)
    ensures Valid(r) && Extends(st, r) && r.current.Some?
    ensures var s1 := EnsureSpace(st, HeaderNeed);
      var cur := s1.current.value;
      && r.pushed == s1.pushed && r.current == s1.current && r.y == s1.y + HeaderH
      && r.canvases == s1.canvases[cur := s1.canvases[cur] + HeaderEvents(brandTitle, brandSub, client, rangeText, s1.y)]
  {
    var s1 := EnsureSpace(st, HeaderNeed);
    var s2 := DrawAllOn(s1, s1.current.value, HeaderEvents(brandTitle, brandSub, client, rangeText, s1.y));
    ExtendsTransitive(st, s1, s2);
    var r := Advance(s2, HeaderH);
    ExtendsTransitive(st, s2, r);
    r
  }

  // ----------------------------------------------------------- invoice block

  const DefaultName: string := "فاتورة"
  const DatePrefix: string := "تاريخ: "
  const OpsTitle: string := "العمليات"
  const PayTitle: string := "القبوضات"
  const FinalTitle: string := "الحساب النهائي"
  const OpsTotal: string := "إجمالي العمليات"
  const PayTotal: string := "مجموع القبوضات"
  const BalanceLabel: string := "الرصيد النهائي"

  const HeadPx: int := 14 * Scale
  const SmallPx: int := 11 * Scale
  const BlockW: int := PageW - Margin * 2
  /** Section titles sit right-aligned just inside the block. */
  const TitleX: int := PageW - Margin - 10 * Scale
  const DateX: int := Margin + 10 * Scale
  const SummaryH: int := 92 * Scale
  const LeftX: int := Margin + 22 * Scale
  const RightX: int := PageW - Margin - 22 * Scale

  /** `inv.sym || '$'`. */
  function Sym(inv: Invoice): string {
    OrElse(inv.sym, "$")
  }

  /** A section title at the cursor, then `headPx + 8 * scale` down. */
  function Section(st: State, title: string): (r: State)
    requires Valid(st) && st.current.Some?
    ensures Valid(r) && Extends(st, r) && r.current == st.current && r.pushed == st.pushed
    ensures r.y == st.y + HeadPx + 8 * Scale
    ensures r.canvases == st.canvases[st.current.value := st.canvases[st.current.value] + [Text(title, TitleX, st.y, HeadPx)]]
  {
    var s1 := Draw(st, Text(title, TitleX, st.y, HeadPx));
    var r := Advance(s1, HeadPx + 8 * Scale);
    ExtendsTransitive(st, s1, r);
    r
  }

  /** `state.y = drawTablePaginated({ ..., y: state.y })`. */
  function TableAt(st: State, measure: string -> real, p: Option<Payload>, totalLabel: string, totalValue: string): (r: State)
    requires Valid(st)
    ensures Valid(r) && Extends(st, r) && r.current.Some?
    ensures r.canvases == DrawTable(st, measure, p, totalLabel, totalValue, st.y).0.canvases
    ensures r.pushed == DrawTable(st, measure, p, totalLabel, totalValue, st.y).0.pushed
    ensures r.y == DrawTable(st, measure, p, totalLabel, totalValue, st.y).1
  {
    var t := DrawTable(st, measure, p, totalLabel, totalValue, st.y);
    t.0.(y := t.1)
  }

  /** The block's top: a thin box across the block, the invoice name and date,
      then the operations title; the cursor ends where the operations table goes. */
  function OpsTop(st: State, inv: Invoice): (r: State)
    requires Valid(st)
    ensures Valid(r) && Extends(st, r) && r.current.Some?
    ensures var s1 := EnsureSpace(st, 70);
      && r.pushed == s1.pushed && r.current == s1.current
      && r.y == s1.y + 46 * Scale + HeadPx + 8 * Scale
  {
    var s1 := EnsureSpace(st, 70);
    var y0 := s1.y;
    var s2 := DrawAllOn(s1, s1.current.value,
      [ Box(Margin, y0, BlockW, 1),
        Text(OrElse(inv.name, DefaultName), TitleX, y0 + 10 * Scale, HeadPx),
        Text(DatePrefix + OrElse(inv.date, "-"), DateX, y0 + 12 * Scale, SmallPx) ]);
    var s3 := Advance(s2, 44 * Scale + 2 * Scale);
    var r := Section(s3, OpsTitle);
    ExtendsTransitive(st, s1, s2);
    ExtendsTransitive(st, s2, s3);
    ExtendsTransitive(st, s3, r);
    r
  }

  /** The block's top and the operations table. */
  function OpsPart(st: State, measure: string -> real, inv: Invoice): (r: State)
    requires Valid(st)
    ensures Valid(r) && Extends(st, r) && r.current.Some?
  {
    var top := OpsTop(st, inv);
    var r := TableAt(top, measure, inv.t1, OpsTotal, inv.s1 + Sym(inv));
    ExtendsTransitive(st, top, r);
    r
  }

  /** The receipts title (after asking for 40 px) and the receipts table. */
  function PayPart(st: State, measure: string -> real, inv: Invoice): (r: State)
    requires Valid(st)
    ensures Valid(r) && Extends(st, r) && r.current.Some?
  {
    var s1 := EnsureSpace(st, 40);
    var s2 := Section(s1, PayTitle);
    var r := TableAt(s2, measure, inv.t2, PayTotal, inv.s2 + Sym(inv));
    ExtendsTransitive(st, s1, s2);
    ExtendsTransitive(st, s2, r);
    r
  }

  /** Where the summary begins: after asking for 130 px and drawing its title. */
  function SummaryStart(st: State): (r: State)
    requires Valid(st)
    ensures Valid(r) && Extends(st, r) && r.current.Some?
  {
    var s1 := EnsureSpace(st, 130);
    var r := Section(s1, FinalTitle);
    ExtendsTransitive(st, s1, r);
    r
  }

  /** The three label/value lines of the summary box whose top is at `y`. */
  function Pairs(inv: Invoice, y: int): (evs: seq<Event>)
    ensures |evs| == 6
    ensures forall i | 0 <= i < 6 ::
      evs[i].Text? && y < evs[i].y < y + SummaryH && evs[i].x == (if i % 2 == 0 then RightX else LeftX)
    ensures evs[1].text == inv.s1 + Sym(inv) && evs[3].text == inv.s2 + Sym(inv) && evs[5].text == inv.bal + Sym(inv)
  {
    var sym := Sym(inv);
    [ Text(OpsTotal, RightX, y + 12 * Scale, SmallPx), Text(inv.s1 + sym, LeftX, y + 12 * Scale, SmallPx),
      Text(PayTotal, RightX, y + 40 * Scale, SmallPx), Text(inv.s2 + sym, LeftX, y + 40 * Scale, SmallPx),
      Text(BalanceLabel, RightX, y + 68 * Scale, SmallPx), Text(inv.bal + sym, LeftX, y + 68 * Scale, SmallPx) ]
  }

  function SummaryBox(y: int): Event {
    Box(Margin + 10 * Scale, y, BlockW - 20 * Scale, SummaryH)
  }

  /** The summary box at the cursor, its three lines, then the separator after
      asking for 18 px.  The box goes on the current canvas; the lines and the
      separator go on canvas `fixed` when it is given, else on the current one. */
  function Summary(st: State, inv: Invoice, fixed: Option<nat>): (r: State)
    requires Valid(st) && st.current.Some?
    requires fixed.Some? ==> fixed.value < |st.canvases|
    ensures Valid(r) && Extends(st, r) && r.current.Some?
    ensures var to := fixed.GetOr(st.current.value);
      At(r.canvases[to], |st.canvases[to]| + (if to == st.current.value then 1 else 0), Pairs(inv, st.y))
    ensures |st.canvases[st.current.value]| < |r.canvases[st.current.value]|
      && r.canvases[st.current.value][|st.canvases[st.current.value]|] == SummaryBox(st.y)
  {
    var s1 := Draw(st, SummaryBox(st.y));
    var s2 := DrawAllOn(s1, fixed.GetOr(s1.current.value), Pairs(inv, st.y));
    var s3 := Advance(s2, SummaryH + 18 * Scale);
    var s4 := EnsureSpace(s3, 18);
    var s5 := DrawOn(s4, fixed.GetOr(s4.current.value), Rule(s4.y));
    var r := Advance(s5, 14 * Scale);
    ExtendsTransitive(st, s1, s2);
    ExtendsTransitive(st, s2, s3);
    ExtendsTransitive(st, s3, s4);
    ExtendsTransitive(st, s4, s5);
    ExtendsTransitive(st, s5, r);
    SummaryKept(st, inv, fixed, s2, r);
    r
  }

  /** What the summary wrote before the separator stays in place. */
  lemma SummaryKept(st: State, inv: Invoice, fixed: Option<nat>, s2: State, r: State)
    requires Valid(st) && st.current.Some? && (fixed.Some? ==> fixed.value < |st.canvases|)
    requires s2.canvases == Draw(st, SummaryBox(st.y)).canvases[fixed.GetOr(st.current.value) :=
                              Draw(st, SummaryBox(st.y)).canvases[fixed.GetOr(st.current.value)] + Pairs(inv, st.y)]
    requires Extends(s2, r)
    ensures var to := fixed.GetOr(st.current.value);
      At(r.canvases[to], |st.canvases[to]| + (if to == st.current.value then 1 else 0), Pairs(inv, st.y))
    ensures |st.canvases[st.current.value]| < |r.canvases[st.current.value]|
      && r.canvases[st.current.value][|st.canvases[st.current.value]|] == SummaryBox(st.y)
  {
    var to := fixed.GetOr(st.current.value);
    var cur := st.current.value;
    var at := |st.canvases[to]| + (if to == cur then 1 else 0);
    var d := Draw(st, SummaryBox(st.y)).canvases;
    assert |d[to]| == at;
    assert s2.canvases[to] == d[to] + Pairs(inv, st.y);
    AtEnd(d[to], Pairs(inv, st.y));
    AtPrefix(s2.canvases[to], r.canvases[to], at, Pairs(inv, st.y));
    assert d[cur] == st.canvases[cur] + [SummaryBox(st.y)];
    AtEnd(st.canvases[cur], [SummaryBox(st.y)]);
    assert IsPrefix(d[cur], s2.canvases[cur]);
    AtPrefix(d[cur], s2.canvases[cur], |st.canvases[cur]|, [SummaryBox(st.y)]);
    AtPrefix(s2.canvases[cur], r.canvases[cur], |st.canvases[cur]|, [SummaryBox(st.y)]);
  }

  /** The block up to its summary: the two tables and the summary title. */
  function BeforeSummary(st: State, measure: string -> real, inv: Invoice): (r: State)
    requires Valid(st)
    ensures Valid(r) && Extends(st, r) && r.current.Some?
  {
    var a := OpsPart(st, measure, inv);
    var p := PayPart(a, measure, inv);
    var r := SummaryStart(p);
    ExtendsTransitive(st, a, p);
    ExtendsTransitive(st, p, r);
    r
  }

  /** `addInvoiceBlock` as written: the context is taken once on entry, so the
      summary lines and the separator go on the canvas that was current then. */
  function InvoiceBlockAsWritten(st: State, measure: string -> real, inv: Invoice): (r: State)
    requires Valid(st) && st.current.Some?
    ensures Valid(r) && Extends(st, r) && r.current.Some?
  {
    var b := BeforeSummary(st, measure, inv);
    var r := Summary(b, inv, Some(st.current.value));
    ExtendsTransitive(st, b, r);
    r
  }

  /** `addInvoiceBlock` with every drawing on the canvas current at the time. */
  function InvoiceBlock(st: State, measure: string -> real, inv: Invoice): (r: State)
    requires Valid(st)
    ensures Valid(r) && Extends(st, r) && r.current.Some?
  {
    var b := BeforeSummary(st, measure, inv);
    var r := Summary(b, inv, None);
    ExtendsTransitive(st, b, r);
    r
  }

  /** A table of more than 18 rows turns at least one page. */
  lemma LongTableTurnsPage(st: State, measure: string -> real, p: Option<Payload>,
                           totalLabel: string, totalValue: string)
    requires Valid(st) && |Rows(p)| > MaxRows
    ensures |TableAt(st, measure, p, totalLabel, totalValue).pushed| > |st.pushed|
  {
    DrawTableLog(st, measure, p, totalLabel, totalValue, st.y);
  }

  /** As written, an operations table of 19 rows or more strands the summary: by
      the time it is drawn the canvas taken on entry has been pushed, so its three
      lines land on that earlier page while the box is on the current one. */
  lemma SummaryStrandedAsWritten(st: State, measure: string -> real, inv: Invoice)
    requires Valid(st) && st.current.Some? && |Rows(inv.t1)| > MaxRows
    ensures var b := BeforeSummary(st, measure, inv);
      var r := InvoiceBlockAsWritten(st, measure, inv);
      var c0 := st.current.value;
      && c0 < |b.pushed| && b.current.value != c0
      && At(r.canvases[c0], |b.canvases[c0]|, Pairs(inv, b.y))
      && r.canvases[b.current.value][|b.canvases[b.current.value]|] == SummaryBox(b.y)
  {
    OpsPartTurns(st, measure, inv);
    var a := OpsPart(st, measure, inv);
    var p := PayPart(a, measure, inv);
    ExtendsTransitive(a, p, SummaryStart(p));
  }

  lemma OpsPartTurns(st: State, measure: string -> real, inv: Invoice)
    requires Valid(st) && |Rows(inv.t1)| > MaxRows
    ensures |OpsPart(st, measure, inv).pushed| > |st.pushed|
  {
    LongTableTurnsPage(OpsTop(st, inv), measure, inv.t1, OpsTotal, inv.s1 + Sym(inv));
  }

  /** With every drawing on the canvas current at the time, the summary box and
      its three lines always sit together, in that order, on one canvas. */
  lemma SummaryTogether(st: State, measure: string -> real, inv: Invoice)
    requires Valid(st)
    ensures var b := BeforeSummary(st, measure, inv);
      var r := InvoiceBlock(st, measure, inv);
      var cur := b.current.value;
      At(r.canvases[cur], |b.canvases[cur]|, [SummaryBox(b.y)] + Pairs(inv, b.y))
  {
    SummaryOnCurrent(BeforeSummary(st, measure, inv), inv);
  }

  lemma SummaryOnCurrent(b: State, inv: Invoice)
    requires Valid(b) && b.current.Some?
    ensures var r := Summary(b, inv, None);
      var cur := b.current.value;
      At(r.canvases[cur], |b.canvases[cur]|, [SummaryBox(b.y)] + Pairs(inv, b.y))
  {
    var r := Summary(b, inv, None);
    var cur := b.current.value;
    assert At(r.canvases[cur], |b.canvases[cur]|, [SummaryBox(b.y)]);
    AtConcat(r.canvases[cur], |b.canvases[cur]|, [SummaryBox(b.y)], Pairs(inv, b.y));
  }

  /** An empty table with room for it stays on the page and takes 100 px: the
      header row, the totals row and `10 * scale`. */
  lemma EmptyTableStays(st: State, measure: string -> real, p: Option<Payload>,
                        totalLabel: string, totalValue: string)
    requires Valid(st) && st.current.Some? && st.y + TableNeed <= Bottom && |Rows(p)| == 0
    ensures var r := TableAt(st, measure, p, totalLabel, totalValue);
      r.pushed == st.pushed && r.current == st.current && r.y == st.y + 2 * RowStep + 10 * Scale
  {
    DrawTableLog(st, measure, p, totalLabel, totalValue, st.y);
    var r := TableAt(st, measure, p, totalLabel, totalValue);
    assert r.pushed[..|st.pushed|] == st.pushed;
  }

  /** The fixed advances of an invoice block: with empty tables and room for the
      whole block, every piece stays on the current page and the cursor moves by
      92 + 44 (top), 100 (operations table), 44 + 100 (receipts), 44 + 220
      (summary) and 28 (separator) pixels. */
  lemma EmptyInvoiceAdvance(st: State, measure: string -> real, inv: Invoice)
    requires Valid(st) && st.current.Some? && st.y + 662 <= Bottom
    requires |Rows(inv.t1)| == 0 && |Rows(inv.t2)| == 0
    ensures var r := InvoiceBlock(st, measure, inv);
      r.pushed == st.pushed && r.current == st.current && r.y == st.y + 672
  {
    var top := OpsTop(st, inv);
    assert top.pushed == st.pushed && top.y == st.y + 136;
    EmptyTableStays(top, measure, inv.t1, OpsTotal, inv.s1 + Sym(inv));
    var a := OpsPart(st, measure, inv);
    assert a.pushed == st.pushed && a.y == st.y + 236;
    var s1 := EnsureSpace(a, 40);
    var s2 := Section(s1, PayTitle);
    EmptyTableStays(s2, measure, inv.t2, PayTotal, inv.s2 + Sym(inv));
    var p := PayPart(a, measure, inv);
    assert p.pushed == st.pushed && p.y == st.y + 380;
    var b := BeforeSummary(st, measure, inv);
    assert b.pushed == st.pushed && b.y == st.y + 424;
  }

  // ------------------------------------------------------------------ render

  /** One invoice block: as written (`InvoiceBlockAsWritten`) or, when `corrected`,
      with every drawing on the canvas current at the time (`InvoiceBlock`). */
  function Block(st: State, measure: string -> real, inv: Invoice, corrected: bool): (r: State)
    requires Valid(st) && st.current.Some?
    ensures Valid(r) && Extends(st, r) && r.current.Some?
  {
    if corrected then InvoiceBlock(st, measure, inv) else InvoiceBlockAsWritten(st, measure, inv)
  }

  /** The invoice loop: ask for 80 px, then draw the block. */
  function Blocks(st: State, measure: string -> real, invoices: seq<Invoice>, corrected: bool): (r: State)
    requires Valid(st) && st.current.Some?
    ensures Valid(r) && Extends(st, r) && r.current.Some?
    ensures |invoices| == 0 ==> r == st
    decreases |invoices|
  {
    if |invoices| == 0 then st
    else
      var s1 := Block(EnsureSpace(st, 80), measure, invoices[0], corrected);
      ExtendsTransitive(st, EnsureSpace(st, 80), s1);
      var r := Blocks(s1, measure, invoices[1..], corrected);
      ExtendsTransitive(st, s1, r);
      r
  }

  /** The loop over two runs of invoices is the loop over the first run, then over
      the second from where the first left off. */
  lemma {:induction false} BlocksAppend(st: State, measure: string -> real, a: seq<Invoice>, b: seq<Invoice>,
                                        corrected: bool)
    requires Valid(st) && st.current.Some?
    ensures Blocks(st, measure, a + b, corrected) == Blocks(Blocks(st, measure, a, corrected), measure, b, corrected)
    decreases |a|
  {
    if |a| == 0 {
      assert a + b == b;
    } else {
      var s1 := Block(EnsureSpace(st, 80), measure, a[0], corrected);
      HeadTailOfAppend(a, b);
      BlocksAppend(s1, measure, a[1..], b, corrected);
    }
  }

  /** `renderClientInvoicesToCanvases` as written: a fresh page state, the header,
      every invoice block as `addInvoiceBlock` draws it, then every canvas made,
      in order, as a page. */
  function Render(brandTitle: Option<string>, brandSub: Option<string>, client: Option<Client>,
                  invoices: seq<Invoice>, rangeText: Option<string>, measure: string -> real): (pages: seq<Page>)
    ensures |pages| >= 1
    ensures forall p <- pages :: p.wPx == PageW && p.hPx == PageH
    ensures IsPrefix(HeaderEvents(brandTitle, brandSub, client, rangeText, Margin), pages[0].events)
    ensures |invoices| == 0 ==> pages == [Page(HeaderEvents(brandTitle, brandSub, client, rangeText, Margin), PageW, PageH)]
  {
    RenderPages(brandTitle, brandSub, client, invoices, rangeText, measure, false)
  }

  /** The render with the invoice block as written (`corrected` false) or with
      every summary drawn on the canvas current at the time (`corrected` true). */
  function RenderPages(brandTitle: Option<string>, brandSub: Option<string>, client: Option<Client>,
                       invoices: seq<Invoice>, rangeText: Option<string>, measure: string -> real,
                       corrected: bool): (pages: seq<Page>)
    ensures |pages| >= 1
    ensures forall p <- pages :: p.wPx == PageW && p.hPx == PageH
    ensures IsPrefix(HeaderEvents(brandTitle, brandSub, client, rangeText, Margin), pages[0].events)
    ensures |invoices| == 0 ==> pages == [Page(HeaderEvents(brandTitle, brandSub, client, rangeText, Margin), PageW, PageH)]
  {
    var e := Drawn(brandTitle, brandSub, client, invoices, rangeText, measure, corrected);
    var header := HeaderEvents(brandTitle, brandSub, client, rangeText, Margin);
    Flushed(e, header, |invoices| == 0);
    FlushAll(e).0
  }

  /** Flushing hands out the first canvas first, every page at full size. */
  lemma Flushed(e: State, header: seq<Event>, only: bool)
    requires Valid(e) && |e.canvases| >= 1 && IsPrefix(header, e.canvases[0])
    requires only ==> e.canvases == [header]
    ensures var pages := FlushAll(e).0;
      && |pages| >= 1
      && (forall p <- pages :: p.wPx == PageW && p.hPx == PageH)
      && IsPrefix(header, pages[0].events)
      && (only ==> pages == [Page(header, PageW, PageH)])
  {
  }

  /** Every canvas drawn by the render, before the flush: the first one opens
      with the header. */
  function Drawn(brandTitle: Option<string>, brandSub: Option<string>, client: Option<Client>,
                 invoices: seq<Invoice>, rangeText: Option<string>, measure: string -> real, corrected: bool): (e: State)
    ensures Valid(e) && |e.canvases| >= 1
    ensures IsPrefix(HeaderEvents(brandTitle, brandSub, client, rangeText, Margin), e.canvases[0])
    ensures |invoices| == 0 ==> e.canvases == [HeaderEvents(brandTitle, brandSub, client, rangeText, Margin)]
  {
    var s := AddHeader(Start, brandTitle, brandSub, client, rangeText);
    HeaderOnFreshPage(brandTitle, brandSub, client, rangeText);
    Blocks(s, measure, invoices, corrected)
  }

  /** The header opens the first page at the top margin. */
  lemma HeaderOnFreshPage(brandTitle: Option<string>, brandSub: Option<string>, client: Option<Client>,
                          rangeText: Option<string>)
    ensures var s := AddHeader(Start, brandTitle, brandSub, client, rangeText);
      && s.canvases == [HeaderEvents(brandTitle, brandSub, client, rangeText, Margin)]
      && s.pushed == [] && s.current == Some(0) && s.y == Margin + HeaderH
  {
    var s1 := EnsureSpace(Start, HeaderNeed);
    assert s1.canvases == [[]] && s1.y == Margin;
  }
}
