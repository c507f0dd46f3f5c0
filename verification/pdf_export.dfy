/** `downloadClientPdf` of the older static build: the range line, the per-invoice
    enrichment, the file name, and the hand-off from the rendered pages to the
    PDF writer.  The clock, the currency table, the payload sums, number
    formatting, text measurement and JPEG encoding are code outside this model
    and arrive as the `Outside` parameter. */
module PdfExport {
  import opened Wrappers
  import opened Strings
  import opened Layout
  import opened Table
  import opened Renderer
  import opened ExportText
  import Utf8
  import PdfWriter
  import PdfDocument

  /** The calls the export makes into code that is not part of this model:
      `getCurrencySymbol`, `sumAmountFromPayload`, the template literal's
      number-to-string conversion, the canvas's `measureText`, and
      `toDataURL('image/jpeg', 0.92)` followed by `dataUrlToBytes`. */
  datatype Outside = Outside(
    currencySymbol: string -> string,
    sumAmount: Option<Payload> -> real,
    format: real -> string,
    measure: string -> real,
    toJpeg: seq<Event> -> seq<Utf8.byte>)

  // -------------------------------------------------------------- enrichment

  datatype Meta = Meta(currency: Option<string>, date: Option<string>)
  datatype Statement = Statement(meta: Option<Meta>, t1: Option<Payload>, t2: Option<Payload>)
  /** An invoice as the export receives it. */
  datatype StoredInvoice = StoredInvoice(id: Option<string>, name: Option<string>, date: Option<string>,
                                         statement: Option<Statement>)
  /** One entry of `enriched`; amounts are numbers, modelled as reals. */
  datatype Enriched = Enriched(id: Option<string>, name: Option<string>, date: string, sym: string,
                               s1: real, s2: real, bal: real, t1: Option<Payload>, t2: Option<Payload>)

  /** `inv.statement?.meta`. */
  function MetaOf(inv: StoredInvoice): Option<Meta> {
    if inv.statement.Some? then inv.statement.value.meta else None
  }

  /** `inv.statement?.meta?.currency`. */
  function MetaCurrency(inv: StoredInvoice): Option<string> {
    if MetaOf(inv).Some? then MetaOf(inv).value.currency else None
  }

  /** `inv.statement?.meta?.date`. */
  function MetaDate(inv: StoredInvoice): Option<string> {
    if MetaOf(inv).Some? then MetaOf(inv).value.date else None
  }

  /** `inv.statement?.t1`. */
  function Ops(inv: StoredInvoice): Option<Payload> {
    if inv.statement.Some? then inv.statement.value.t1 else None
  }

  /** `inv.statement?.t2`. */
  function Receipts(inv: StoredInvoice): Option<Payload> {
    if inv.statement.Some? then inv.statement.value.t2 else None
  }

  /** `client?.currency`. */
  function ClientCurrency(client: Option<Client>): Option<string> {
    if client.Some? then client.value.currency else None
  }

  /** `client?.name`. */
  function ClientName(client: Option<Client>): Option<string> {
    if client.Some? then client.value.name else None
  }

  /** One step of the `invoices.map(...)`. */
  function Enrich(client: Option<Client>, inv: StoredInvoice, out: Outside): (e: Enriched)
    ensures e.id == inv.id && e.name == inv.name && e.t1 == Ops(inv) && e.t2 == Receipts(inv)
    ensures e.s1 == out.sumAmount(Ops(inv)) && e.s2 == out.sumAmount(Receipts(inv))
    ensures e.bal == e.s1 - e.s2
    ensures Given(inv.date) ==> e.date == inv.date.value
    ensures !Given(inv.date) && Given(MetaDate(inv)) ==> e.date == MetaDate(inv).value
    ensures e.date == "" <==> !Given(inv.date) && !Given(MetaDate(inv))
    ensures Given(MetaCurrency(inv)) ==> e.sym == MetaCurrency(inv).value
    ensures !Given(MetaCurrency(inv)) ==> e.sym == out.currencySymbol(OrElse(ClientCurrency(client), "$"))
  {
    var sym := OrElse(MetaCurrency(inv), out.currencySymbol(OrElse(ClientCurrency(client), "$")));
    var s1 := out.sumAmount(Ops(inv));
    var s2 := out.sumAmount(Receipts(inv));
    Enriched(inv.id, inv.name, OrElse(inv.date, OrElse(MetaDate(inv), "")), sym,
             s1, s2, s1 - s2, Ops(inv), Receipts(inv))
  }

  /** `enriched`: one entry per invoice, in the same order. */
  function EnrichAll(client: Option<Client>, invoices: seq<StoredInvoice>, out: Outside): (r: seq<Enriched>)
    ensures |r| == |invoices|
    ensures forall i | 0 <= i < |r| :: r[i] == Enrich(client, invoices[i], out)
    ensures forall i | 0 <= i < |r| :: r[i].id == invoices[i].id && r[i].bal == r[i].s1 - r[i].s2
  {
    if |invoices| == 0 then []
    else [Enrich(client, invoices[0], out)] + EnrichAll(client, invoices[1..], out)
  }

  /** Enriching a concatenation enriches each part. */
  lemma {:induction false} EnrichAllAppend(client: Option<Client>, a: seq<StoredInvoice>, b: seq<StoredInvoice>,
                                           out: Outside)
    ensures EnrichAll(client, a + b, out) == EnrichAll(client, a, out) + EnrichAll(client, b, out)
  {
    if |a| > 0 {
      HeadTailOfAppend(a, b);
      EnrichAllAppend(client, a[1..], b, out);
    } else {
      assert a + b == b;
    }
  }

  /** The record the renderer reads: amounts as the template literal prints them. */
  function ToInvoice(e: Enriched, out: Outside): Invoice {
    Invoice(e.name, Some(e.date), Some(e.sym), e.t1, e.t2, out.format(e.s1), out.format(e.s2), out.format(e.bal))
  }

  /** The summary box of an exported invoice prints the sum of its operations minus
      the sum of its receipts on the balance line, followed by its currency. */
  lemma BalanceLine(client: Option<Client>, inv: StoredInvoice, out: Outside, y: int)
    ensures var shown := ToInvoice(Enrich(client, inv, out), out);
      && Pairs(shown, y)[4] == Text(BalanceLabel, RightX, y + 68 * Scale, SmallPx)
      && Pairs(shown, y)[5] ==
           Text(out.format(out.sumAmount(Ops(inv)) - out.sumAmount(Receipts(inv))) + Sym(shown), LeftX, y + 68 * Scale, SmallPx)
      && (Given(MetaCurrency(inv)) ==> Sym(shown) == MetaCurrency(inv).value)
  {
  }

  // ---------------------------------------------------------------- download

  /** `pages.map(...)`: one JPEG entry per page, in order, with its pixel size. */
  function ToJpegs(pages: seq<Page>, out: Outside): (jpegs: seq<PdfWriter.Jpeg>)
    ensures |jpegs| == |pages|
    ensures forall i | 0 <= i < |pages| ::
      && jpegs[i].bytes == out.toJpeg(pages[i].events)
      && jpegs[i].wPx == pages[i].wPx && jpegs[i].hPx == pages[i].hPx
  {
    if |pages| == 0 then []
    else [PdfWriter.Jpeg(out.toJpeg(pages[0].events), pages[0].wPx, pages[0].hPx)] + ToJpegs(pages[1..], out)
  }

  /** What the download hands over: the JPEG entries, the PDF written from them,
      and the file name. */
  datatype Download = Download(jpegs: seq<PdfWriter.Jpeg>, pdf: seq<Utf8.byte>, fileName: string)

  /** The invoices as the renderer receives them. */
  function Shown(client: Option<Client>, invoices: seq<StoredInvoice>, out: Outside): (shown: seq<Invoice>)
    ensures |shown| == |invoices|
    ensures forall i | 0 <= i < |shown| :: shown[i] == ToInvoice(Enrich(client, invoices[i], out), out)
  {
    if |invoices| == 0 then []
    else [ToInvoice(Enrich(client, invoices[0], out), out)] + Shown(client, invoices[1..], out)
  }

  /** The renderer's records are the `enriched` entries, each with its amounts
      formatted. */
  lemma ShownOfEnrichAll(client: Option<Client>, invoices: seq<StoredInvoice>, out: Outside)
    ensures var shown := Shown(client, invoices, out); var enriched := EnrichAll(client, invoices, out);
      && |shown| == |enriched|
      && forall i | 0 <= i < |shown| :: shown[i] == ToInvoice(enriched[i], out)
  {
  }

  /** The pages the export renders, by `renderClientInvoicesToCanvases` as
      written (`corrected` false, `Renderer.Render`) or with its invoice block
      corrected: at least one, all of full size, the first opening with the
      header, and with no invoices that header alone. */
  function ExportPages(client: Option<Client>, invoices: seq<StoredInvoice>, rangeLine: string,
                       title: Option<string>, out: Outside, corrected: bool): (pages: seq<Page>)
    ensures |pages| >= 1
    ensures forall p <- pages :: p.wPx == PageW && p.hPx == PageH
    ensures IsPrefix(HeaderEvents(Some(title.GetOr(DefaultTitle)), Some(DefaultSub), client, Some(rangeLine), Margin), pages[0].events)
    ensures |invoices| == 0 ==> pages == [Page(HeaderEvents(Some(title.GetOr(DefaultTitle)), Some(DefaultSub), client, Some(rangeLine), Margin), PageW, PageH)]
  {
    RenderPages(Some(title.GetOr(DefaultTitle)), Some(DefaultSub), client, Shown(client, invoices, out),
                Some(rangeLine), out.measure, corrected)
  }

  /** `jpegs`: every exported page as a JPEG entry, in order. */
  function ExportJpegs(client: Option<Client>, invoices: seq<StoredInvoice>, rangeLine: string,
                       title: Option<string>, out: Outside, corrected: bool): (jpegs: seq<PdfWriter.Jpeg>)
    ensures var pages := ExportPages(client, invoices, rangeLine, title, out, corrected);
      && |jpegs| == |pages| >= 1
      && forall i | 0 <= i < |jpegs| :: jpegs[i].bytes == out.toJpeg(pages[i].events)
    ensures forall j <- jpegs :: j.wPx == PageW && j.hPx == PageH
  {
    var pages := ExportPages(client, invoices, rangeLine, title, out, corrected);
    var jpegs := ToJpegs(pages, out);
    JpegsFullSize(pages, jpegs);
    jpegs
  }

  /** `downloadClientPdf` as written: the pages of `renderClientInvoicesToCanvases`
      as written, handed to `pdfFromJpegs` as written with its default page
      size, and the file named by `makeName` with its literal pattern. */
  function DownloadClientPdf(client: Option<Client>, invoices: seq<StoredInvoice>, fromISO: Option<string>,
                             toISO: Option<string>, title: Option<string>, genAt: string, out: Outside): (d: Download)
    ensures d.jpegs == ExportJpegs(client, invoices, RangeText(fromISO, toISO, genAt), title, out, false)
    ensures d.pdf == PdfWriter.PdfFromJpegs(d.jpegs, PdfWriter.DefaultPage)
    ensures d.fileName == MakeNameAsWritten(ClientName(client), fromISO, toISO)
  {
    Deliver(ExportJpegs(client, invoices, RangeText(fromISO, toISO, genAt), title, out, false),
            MakeNameAsWritten(ClientName(client), fromISO, toISO), PdfWriter.PdfFromJpegs)
  }

  /** `downloadClientPdf` with the three corrections: the invoice block, the
      Parent number of the pages, and the white-space pattern of the name. */
  function DownloadClientPdfCorrected(client: Option<Client>, invoices: seq<StoredInvoice>, fromISO: Option<string>,
                                      toISO: Option<string>, title: Option<string>, genAt: string, out: Outside): (d: Download)
    ensures d.jpegs == ExportJpegs(client, invoices, RangeText(fromISO, toISO, genAt), title, out, true)
    ensures d.pdf == PdfWriter.PdfFromJpegsCorrected(d.jpegs, PdfWriter.DefaultPage)
    ensures d.fileName == MakeName(ClientName(client), fromISO, toISO)
  {
    Deliver(ExportJpegs(client, invoices, RangeText(fromISO, toISO, genAt), title, out, true),
            MakeName(ClientName(client), fromISO, toISO), PdfWriter.PdfFromJpegsCorrected)
  }

  /** `pdfFromJpegs({ jpegs })` with the writer's default page size, and the file
      to download. */
  function Deliver(jpegs: seq<PdfWriter.Jpeg>, fileName: string,
                   write: (seq<PdfWriter.Jpeg>, PdfWriter.PageSize) -> seq<Utf8.byte>): (d: Download)
    ensures d.jpegs == jpegs && d.fileName == fileName
    ensures d.pdf == write(jpegs, PdfWriter.DefaultPage)
  {
    Download(jpegs, write(jpegs, PdfWriter.DefaultPage), fileName)
  }

  /** The file `downloadClientPdf` downloads is a complete PDF document with one
      full-size page image per rendered page, at least one, whose Page objects
      name object 2n+1 as their parent. */
  lemma DownloadedDocument(client: Option<Client>, invoices: seq<StoredInvoice>, fromISO: Option<string>,
                           toISO: Option<string>, title: Option<string>, genAt: string, out: Outside)
    ensures var d := DownloadClientPdf(client, invoices, fromISO, toISO, title, genAt, out);
      && |d.jpegs| >= 1 && (forall j <- d.jpegs :: j.wPx == PageW && j.hPx == PageH)
      && PdfDocument.AsWrittenDocument(d.jpegs, PdfWriter.DefaultPage, d.pdf)
  {
    var d := DownloadClientPdf(client, invoices, fromISO, toISO, title, genAt, out);
    PdfDocument.PdfFromJpegsDocument(d.jpegs, PdfWriter.DefaultPage);
  }

  /** With the corrections, the downloaded document's Page objects name the
      Pages object 3n+1. */
  lemma DownloadedDocumentCorrected(client: Option<Client>, invoices: seq<StoredInvoice>, fromISO: Option<string>,
                                    toISO: Option<string>, title: Option<string>, genAt: string, out: Outside)
    ensures var d := DownloadClientPdfCorrected(client, invoices, fromISO, toISO, title, genAt, out);
      && |d.jpegs| >= 1 && (forall j <- d.jpegs :: j.wPx == PageW && j.hPx == PageH)
      && PdfDocument.CorrectedDocument(d.jpegs, PdfWriter.DefaultPage, d.pdf)
  {
    var d := DownloadClientPdfCorrected(client, invoices, fromISO, toISO, title, genAt, out);
    PdfDocument.PdfFromJpegsCorrectedDocument(d.jpegs, PdfWriter.DefaultPage);
  }

  lemma JpegsFullSize(pages: seq<Page>, jpegs: seq<PdfWriter.Jpeg>)
    requires forall p <- pages :: p.wPx == PageW && p.hPx == PageH
    requires |jpegs| == |pages|
    requires forall i | 0 <= i < |pages| :: jpegs[i].wPx == pages[i].wPx && jpegs[i].hPx == pages[i].hPx
    ensures forall j <- jpegs :: j.wPx == PageW && j.hPx == PageH
  {
    forall j <- jpegs
      ensures j.wPx == PageW && j.hPx == PageH
    {
      var i :| 0 <= i < |jpegs| && jpegs[i] == j;
      assert pages[i] in pages;
    }
  }

  /** The first exported page opens with the title (or the default title) and,
      on the fourth line, the range line. */
  lemma RangeLineOnFirstPage(client: Option<Client>, invoices: seq<StoredInvoice>, fromISO: Option<string>,
                             toISO: Option<string>, title: Option<string>, genAt: string, out: Outside,
                             corrected: bool)
    ensures var pages := ExportPages(client, invoices, RangeText(fromISO, toISO, genAt), title, out, corrected);
      && |pages[0].events| >= 5
      && pages[0].events[0].Text? && pages[0].events[0].text == OrElse(title, DefaultTitle)
      && pages[0].events[3].Text? && pages[0].events[3].text == RangeText(fromISO, toISO, genAt)
  {
    var pages := ExportPages(client, invoices, RangeText(fromISO, toISO, genAt), title, out, corrected);
    HeaderLines(pages[0].events, client, RangeText(fromISO, toISO, genAt), title);
  }

  lemma HeaderLines(events: seq<Event>, client: Option<Client>, rangeLine: string, title: Option<string>)
    requires IsPrefix(HeaderEvents(Some(title.GetOr(DefaultTitle)), Some(DefaultSub), client, Some(rangeLine), Margin), events)
    ensures |events| >= 5
    ensures events[0].Text? && events[0].text == OrElse(title, DefaultTitle)
    ensures events[3].Text? && events[3].text == rangeLine
  {
    var header := HeaderEvents(Some(title.GetOr(DefaultTitle)), Some(DefaultSub), client, Some(rangeLine), Margin);
    assert events[0] == header[0] && events[3] == header[3];
  }
}
