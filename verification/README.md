# Client statement PDF export, modelled in Dafny

This project models how the ALgadeer logistics front end turns a client's invoices into a downloadable PDF statement. The model has three parts:

- **The writer** (`pdfFromJpegs`, `concatBytes`) puts one full-page JPEG per page into a PDF 1.4 file. It writes the header, then image and content-stream objects, then Page objects, the Pages tree and the Catalog, then the cross-reference table and the trailer.
- **The renderer** (`makePage` and `renderClientInvoicesToCanvases`) lays the statement out on page-sized canvases. It draws the brand header, then one block per invoice: an operations table, a receipts table, and a summary box with totals and the balance. Tables move to a fresh page after every 18 body rows.
- **The export** (`downloadClientPdf` of the older static build) does the glue:
  - builds the range line;
  - enriches each invoice with its currency symbol, sums and balance;
  - renders the pages and encodes them as JPEGs;
  - writes the PDF and names the file.

Modules, one per file:

| module | models |
|---|---|
| `Wrappers` | `Option` |
| `Utf8` | the `TextEncoder` the writer uses, with a decoder as its partner |
| `Decimal` | `String(n)`, `padStart` and a digit reader |
| `Strings` | the `or` fallback on strings, `join`, prefix and slice predicates |
| `PdfWriter` | `pdfFromJpegs` and `concatBytes` |
| `TextFit` | `split(/\s+/)`, `wrapText`, `ellipsize` |
| `Layout` | the page state machine of `makePage` |
| `Table` | `drawTablePaginated` |
| `Renderer` | `addHeader`, `addInvoiceBlock`, the render loop |
| `ExportText` | the range line and `makeName` |
| `PdfDocument` | the files `pdfFromJpegs` writes, as written and corrected, seen as documents |
| `PdfExport` | `downloadClientPdf` |

**How the renderer is modelled.** Drawing is an append-only log of abstract events on each canvas: text, rules, boxes and table rows. Canvases are kept in a store indexed by creation number, so a context captured earlier keeps drawing on its own canvas after that canvas has been pushed. Text measurement is an uninterpreted `string -> real` parameter.

**How the writer is modelled.** Bytes are integers in `0..255`. Emission is generic over the functions that make each object body (`Makers`) and over the text encoder; `Standard(page)` supplies the dictionaries the source writes. The central property is `PdfWriter.Document`, which takes the number every Page names as its `/Parent`:

- the file starts with the header and holds `3n + 2` objects;
- right after the objects come `xref`, the subsection line `0 3n+3` and the free entry `0000000000 65535 f`;
- the file ends with `trailer`, `<< /Size 3n+3 /Root 3n+2 0 R >>`, `startxref`, the offset of `xref` and `%%EOF`;
- entry `k` of the table holds, in ten zero-padded digits that read back, the offset where object `k + 1` is framed with its expected body.

`PdfWriter.PdfFromJpegs` is the writer as written, whose Page objects name object `2n+1`. `PdfWriter.PdfFromJpegsCorrected` reserves the Pages number first, so they name the Pages object `3n+1`. Both are proved to write a `Document` over their own parent number.

**As written and corrected.** Each source-named member computes what the source computes. Where the source is wrong (see "## Findings"), the corrected behaviour sits beside it under its own name or behind a `corrected` flag:

- `PdfFromJpegs` and `PdfFromJpegsCorrected`;
- `Render`, which is `RenderPages` with `corrected` false;
- `DownloadClientPdf` and `DownloadClientPdfCorrected`.

## Model

| member | source | states |
|---|---|---|
| Utf8.EncodeChar | assets/js/pdf-writer.js:11 | a character becomes 1 to 4 bytes; the lead byte announces the width and the rest are continuation bytes |
| Utf8.Encode | assets/js/pdf-writer.js:11 | the encoding takes at least one and at most four bytes per character |
| Utf8.EncodeAppend | assets/js/pdf-writer.js:11 | encoding two strings pushed one after the other gives the encoding of their concatenation |
| Utf8.DecodeEncode | assets/js/pdf-writer.js:11 | decoding the bytes `TextEncoder` writes gives the text back |
| Utf8.EncodeDecode | assets/js/pdf-writer.js:11 | every byte sequence that decodes is exactly the encoding of the text it decodes to |
| Utf8.EncodeAscii | assets/js/pdf-writer.js:11 | ASCII text is written byte for byte, one byte per character |
| Decimal.NatStr | assets/js/pdf-writer.js:18 | `String(n)` is a non-empty run of digits with no leading zero unless `n` is 0 |
| Decimal.ValueOfNatStr | assets/js/pdf-writer.js:18 | reading the digits of `String(n)` back gives `n` |
| Decimal.IntStr | assets/js/pdf-writer.js:45-46 | an integer prints as its digits, preceded by `-` when negative |
| Decimal.PadStart | assets/js/pdf-writer.js:119 | `padStart` leaves a string at least `width` long unchanged; otherwise it puts fill characters in front up to exactly `width` |
| Decimal.ValueOfZeroPadded | assets/js/pdf-writer.js:119 | zero padding keeps the value of the digits |
| Decimal.NatStrFits | assets/js/pdf-writer.js:119 | `n` has at most `k` digits exactly when `n < 10^k` |
| Decimal.ReadZeroPadded | assets/js/pdf-writer.js:119 | reading a zero-padded offset back gives the offset |
| PdfWriter.ConcatBytes | assets/js/pdf-writer.js:131-141 | the output has the summed length of the parts and is the parts laid end to end, in order |
| PdfWriter.FlattenPartAt | assets/js/pdf-writer.js:131-141 | part `i` sits in the output at the summed length of the parts before it |
| PdfWriter.HeaderWritten | assets/js/pdf-writer.js:29 | the header is `%PDF-1.4`, a newline, `%` and four characters above 127 (two UTF-8 bytes each), and a newline |
| PdfWriter.AddObjGrows | assets/js/pdf-writer.js:15-22 | `addObj` returns the new length of the object list, records the current offset, and keeps everything written before |
| PdfWriter.AddObjPlaced | assets/js/pdf-writer.js:15-22 | after `addObj`, each object's `N 0 obj` frame still sits at its recorded offset |
| PdfWriter.AddAllPlaced | assets/js/pdf-writer.js:15-22 | any run of `addObj` calls keeps every object framed at its recorded offset |
| PdfWriter.EmitImagesAddsBodies | assets/js/pdf-writer.js:37-70 | the first loop adds an image body and a content body per page, in page order, and hands out the object numbers `2i+1` and `2i+2` |
| PdfWriter.ImageBodiesAt | assets/js/pdf-writer.js:53-66 | body `2p` of the first loop is page `p`'s image and body `2p+1` is its content stream |
| PdfWriter.EmitPagesAddsBodies | assets/js/pdf-writer.js:77-90 | the second loop adds one Page body per page, in order, and returns their numbers |
| PdfWriter.PlanBodiesAt | assets/js/pdf-writer.js:77-90 | Page body `p` names page `p`'s image and content objects and the given parent |
| PdfWriter.AssembleLoops | assets/js/pdf-writer.js:37-90 | after both loops there are `2n` loop objects and the Page objects are numbered `2n+1 .. 3n` |
| PdfWriter.AssembleNumbers | assets/js/pdf-writer.js:73-108 | the parent number is `2n + reserve + 1`, the Pages object is `3n+1` and the Catalog is `3n+2` |
| PdfWriter.AssembleFromBodies | assets/js/pdf-writer.js:37-108 | there are `3n+2` objects and object `k+1` holds the expected body for its number: image and content pairs, then the Page objects, then Pages, then Catalog |
| PdfWriter.AsWrittenParentIsFirstPage | assets/js/pdf-writer.js:73-100 | as written, every Page's `/Parent` names the first Page object (`2n+1`), not the Pages object (`3n+1`) |
| PdfWriter.AssembleParentIsPages | assets/js/pdf-writer.js:73-100 | corrected, `/Parent` names the Pages object `3n+1` |
| PdfWriter.XrefEntryBytes | assets/js/pdf-writer.js:117-120 | an entry for an offset below `10^10` is 20 bytes, and its first ten bytes are the zero-padded offset, which reads back |
| PdfWriter.EntryReadsBack | assets/js/pdf-writer.js:117-120 | ten bytes holding an entry's digits read back as that entry's offset |
| PdfWriter.XrefHeadLength | assets/js/pdf-writer.js:112-114 | the `xref` line, the subsection line and the free entry take 28 bytes plus the digits of the count |
| PdfWriter.EmitXrefFrame | assets/js/pdf-writer.js:110-126 | at the old length stand `xref`, the subsection line `0 count+1` and the free entry; the file ends with `trailer`, `<< /Size count+1 /Root catalog 0 R >>`, `startxref`, the old length and `%%EOF` |
| PdfWriter.EmitXrefResolves | assets/js/pdf-writer.js:110-126 | the cross-reference section keeps the objects, has the subsection line, free entry, trailer dictionary and `startxref` framing, ends with the old length and `%%EOF`, and entry `k` holds object `k+1`'s offset |
| PdfWriter.DocumentOf | assets/js/pdf-writer.js:6-129 | for any parent number, body makers and encoder that writes the table text as UTF-8 does, the assembled objects followed by the emitted table are a `Document` |
| PdfDocument.PdfFromJpegsDocument | assets/js/pdf-writer.js:6-129 | `pdfFromJpegs` as written writes a `Document` whose Page objects name object `2n+1`: header, `3n+2` objects framed at the offsets the table lists, each with its expected body, subsection line, free entry, trailer with `/Size 3n+3` and `/Root 3n+2 0 R`, `startxref`, `%%EOF` |
| PdfDocument.PdfFromJpegsCorrectedDocument | assets/js/pdf-writer.js:6-129 | the corrected writer writes the same kind of `Document`, with the Page objects naming the Pages object `3n+1` |
| TextFit.Words | assets/js/pdf-renderer.js:96 | `split(/\s+/).filter(Boolean)` yields non-empty words without white space |
| TextFit.WordsKeepText | assets/js/pdf-renderer.js:96 | the words, laid end to end, are the text with its white space removed |
| TextFit.WordsOfJoin | assets/js/pdf-renderer.js:96 | splitting words joined by single spaces gives the same words back |
| TextFit.WrapText | assets/js/pdf-renderer.js:93-111 | `wrapText` always returns at least one line |
| TextFit.WrapTextKeepsWords | assets/js/pdf-renderer.js:93-111 | the lines hold the text's words in order; each line fits or is a single word; text without words gives `[""]` |
| TextFit.Shorten | assets/js/pdf-renderer.js:355-358 | the loop keeps the longest prefix that fits with `…`, and stops at the empty prefix |
| TextFit.Ellipsize | assets/js/pdf-renderer.js:350-360 | text that fits is kept; otherwise the result is a prefix plus `…`, and no longer prefix plus `…` fits |
| TextFit.Clip | assets/js/pdf-renderer.js:340-344 | a cell shows the first wrapped line when that line fits its width |
| Layout.NewCanvas | assets/js/pdf-renderer.js:46-61 | a fresh blank canvas becomes current, the cursor returns to the margin, and nothing is pushed |
| Layout.PushCanvas | assets/js/pdf-renderer.js:63-67 | the current canvas, if there is one, joins the pushed list, and nothing else changes |
| Layout.Turn | assets/js/pdf-renderer.js:81-82 | a page turn pushes the current canvas and starts the next one at the margin |
| Layout.EnsureSpace | assets/js/pdf-renderer.js:78-84 | makes a canvas if there is none; turns the page exactly when cursor plus need passes `hPx - margin`; otherwise changes nothing |
| Layout.TurnAddsBlank | assets/js/pdf-renderer.js:78-84 | a page turn by `ensureSpace` adds one blank canvas and makes it current |
| Layout.Draw | assets/js/pdf-renderer.js:86-91 | drawing appends one event to the current canvas and leaves every other canvas alone |
| Layout.FlushAll | assets/js/pdf-renderer.js:69-76 | hands out one full-size page per canvas made, in creation order, and leaves nothing pushed or current |
| Table.ColCount | assets/js/pdf-renderer.js:256 | the column count is the header count, else the first row's length, else 1 |
| Table.Widths | assets/js/pdf-renderer.js:252-265 | the widths sum to the table width; with two or more columns the last is 1.15 times the even share and the others are equal and narrower |
| Table.WidthsSum | assets/js/pdf-renderer.js:260-265 | giving the other columns the remainder keeps the sum at the table width |
| Table.CellsOf | assets/js/pdf-renderer.js:249-316 | header, body and totals texts, one per column; missing cells are empty; totals have the label next to last (with two or more columns) and the value last |
| Table.Shown | assets/js/pdf-renderer.js:334-347 | each cell shows its text clipped to its width less twice the padding |
| Table.DrawGridRow | assets/js/pdf-renderer.js:318-348 | a row asks for room, and when there is room it is drawn on the current canvas and nothing else changes |
| Table.RowStaysRoomy | assets/js/pdf-renderer.js:318-348 | a row drawn with room left appends exactly one row event to the current canvas |
| Table.BreakLog | assets/js/pdf-renderer.js:369-379 | the forced break pushes the canvas and starts a new one holding the continuation mark and the header |
| Table.Chunks | assets/js/pdf-renderer.js:367-383 | rows beyond the first page fall into `ceil(k/18)` continuation pages, each with the mark, the header and at most 18 rows |
| Table.DrawRowsLog | assets/js/pdf-renderer.js:367-383 | the row loop puts 18 rows per page, turning the page before the 19th, 37th and so on, wherever the cursor is |
| Table.DrawTableLog | assets/js/pdf-renderer.js:247-387 | the whole table: header, first rows and totals placement; `max(0, ceil(k/18) - 1)` page turns; returned cursor; the page cursor moves only on a turn |
| Table.FullTableRunsOff | assets/js/pdf-renderer.js:362-386 | 18 rows started with just room for the header turn no page, and the totals row lands below the page bottom |
| Table.HeaderKeepsStaleCursor | assets/js/pdf-renderer.js:363-365 | when the table's own `ensureSpace` turns the page, the header is still drawn at the caller's old cursor, far below the top margin |
| Renderer.ClientLine | assets/js/pdf-renderer.js:136 | name, phone and location joined by ` — `, each `''` when missing; without a client just the two dashes with their spaces |
| Renderer.HeaderEvents | assets/js/pdf-renderer.js:122-151 | title, subtitle, client line and range line (each with its default) on descending lines, then the divider |
| Renderer.AddHeader | assets/js/pdf-renderer.js:122-151 | the header asks for 160 px, draws its five events on the current canvas, and moves the cursor by the header height |
| Renderer.HeaderOnFreshPage | assets/js/pdf-renderer.js:17-19 | the first page starts with exactly the header, at the margin |
| Renderer.Section | assets/js/pdf-renderer.js:178-179 | a section title is drawn at the cursor, which then moves by `headPx + 8 * scale` |
| Renderer.TableAt | assets/js/pdf-renderer.js:181-189 | the cursor after a table is the value `drawTablePaginated` returns, and the canvases are the ones it leaves |
| Renderer.OpsTop | assets/js/pdf-renderer.js:167-179 | the block asks for 70 px, then the cursor moves by the block head and the section title |
| Renderer.OpsPartTurns | assets/js/pdf-renderer.js:176-189 | an operations table of more than 18 rows turns the page |
| Renderer.LongTableTurnsPage | assets/js/pdf-renderer.js:367-383 | any table of more than 18 rows turns the page |
| Renderer.Pairs | assets/js/pdf-renderer.js:214-220 | three label and value pairs inside the summary box; values are the ops total, receipts total and balance, each followed by the symbol |
| Renderer.Summary | assets/js/pdf-renderer.js:206-232 | the box goes on the current canvas; the three pairs follow on the canvas they are drawn through |
| Renderer.SummaryOnCurrent | assets/js/pdf-renderer.js:206-222 | when drawn through the current canvas, the box and its three pairs are consecutive on it |
| Renderer.InvoiceBlockAsWritten | assets/js/pdf-renderer.js:153-245 | as written, the block keeps the layout valid and erases nothing |
| Renderer.SummaryStrandedAsWritten | assets/js/pdf-renderer.js:155-243 | as written, after a long operations table the summary values land on the first, already pushed canvas while their box is on the current one |
| Renderer.InvoiceBlock | assets/js/pdf-renderer.js:153-245 | corrected, the block keeps the layout valid and erases nothing |
| Renderer.SummaryTogether | assets/js/pdf-renderer.js:206-243 | corrected, the box and its three pairs are consecutive on the canvas current when the summary starts |
| Renderer.EmptyTableStays | assets/js/pdf-renderer.js:362-386 | an empty table with room turns no page and moves the cursor by header, totals and `10 * scale` |
| Renderer.EmptyInvoiceAdvance | assets/js/pdf-renderer.js:153-245 | an invoice with two empty tables and room turns no page and moves the cursor by 672 |
| Renderer.Block | assets/js/pdf-renderer.js:153-245 | one invoice block, as written or corrected, keeps the layout valid, erases nothing and leaves a canvas current |
| Renderer.Blocks | assets/js/pdf-renderer.js:21-24 | the invoice loop, as written or corrected, keeps the layout valid, erases nothing, and with no invoices changes nothing |
| Renderer.BlocksAppend | assets/js/pdf-renderer.js:21-24 | the loop over two runs of invoices is the loop over the first, then over the second from where the first stopped |
| Renderer.Drawn | assets/js/pdf-renderer.js:16-24 | before flushing, the first canvas starts with the header; with no invoices it holds only the header |
| Renderer.Render | assets/js/pdf-renderer.js:9-28 | as written: at least one page, all full size; the first starts with the header; with no invoices exactly one header-only page |
| Renderer.RenderPages | assets/js/pdf-renderer.js:9-28 | the same four facts for the render with the invoice block as written or corrected |
| ExportText.RangeText | old_static_version/assets/js/pdf-export.js:17-19 | starts with the period label and ends with the issue date; when either bound is given it is exactly label, both bounds (`...` for a missing one) around the arrow, then the issue part; otherwise exactly the "all invoices" line, in both directions |
| ExportText.ReplaceAsWritten | old_static_version/assets/js/pdf-export.js:56 | the literal pattern never lengthens the name, and turns a leading backslash-`s` run into `_` |
| ExportText.AsWrittenLeavesNoPair | old_static_version/assets/js/pdf-export.js:56 | as written, no backslash followed by `s` is left |
| ExportText.AsWrittenFixes | old_static_version/assets/js/pdf-export.js:56 | as written, a name without backslash-`s` is unchanged, spaces included |
| ExportText.AsWrittenKeeps | old_static_version/assets/js/pdf-export.js:56 | as written, every character other than backslash, `s` and `_` is kept, in order |
| ExportText.AsWrittenIdempotent | old_static_version/assets/js/pdf-export.js:56 | applying the literal replacement twice is applying it once |
| ExportText.ReplaceSpaces | old_static_version/assets/js/pdf-export.js:56 | corrected, replacing white-space runs never lengthens the name |
| ExportText.SpacesGone | old_static_version/assets/js/pdf-export.js:56 | corrected, no white space is left |
| ExportText.SpacelessFixed | old_static_version/assets/js/pdf-export.js:56 | corrected, a name without white space is unchanged |
| ExportText.SpacesKeep | old_static_version/assets/js/pdf-export.js:56 | corrected, every character other than white space and `_` is kept, in order |
| ExportText.SpacesIdempotent | old_static_version/assets/js/pdf-export.js:56 | corrected, replacing twice is replacing once |
| ExportText.NameAround | old_static_version/assets/js/pdf-export.js:57-60 | exactly `كشف_` plus base plus `_from_to.pdf` (each bound `...` when missing) when a bound is given, and exactly `كشف_` plus base plus `.pdf` otherwise |
| ExportText.MakeNameAsWritten | old_static_version/assets/js/pdf-export.js:55-61 | as written, the name is exactly `كشف_`, the literally replaced client name (default `عميل`), the bounds when given, and `.pdf` |
| ExportText.SpaceKeptAsWritten | old_static_version/assets/js/pdf-export.js:55-61 | as written, a client name with a space gives a file name with a space |
| ExportText.SpacedNameAsWritten | old_static_version/assets/js/pdf-export.js:55-61 | as written, `أحمد علي` without bounds gives `كشف_أحمد علي.pdf` |
| ExportText.MakeName | old_static_version/assets/js/pdf-export.js:55-61 | corrected, the name is exactly `كشف_`, the client name with white-space runs as `_`, the bounds when given, and `.pdf` |
| ExportText.NameHasNoSpace | old_static_version/assets/js/pdf-export.js:55-61 | corrected, with bounds free of white space, the file name has no white space |
| PdfExport.Enrich | old_static_version/assets/js/pdf-export.js:21-35 | copies id, name and both tables; sums both tables; balance is ops minus receipts; date falls back to the meta date, then `''`; symbol falls back to the client currency's symbol, then `$`'s |
| PdfExport.EnrichAll | old_static_version/assets/js/pdf-export.js:21-35 | one enriched entry per invoice, in the same order |
| PdfExport.EnrichAllAppend | old_static_version/assets/js/pdf-export.js:21-35 | enriching a concatenation enriches each part |
| PdfExport.BalanceLine | old_static_version/assets/js/pdf-export.js:31 | the summary's balance value is the formatted ops sum minus receipts sum, followed by the meta currency when given |
| PdfExport.Shown | old_static_version/assets/js/pdf-export.js:21-43 | the renderer receives one record per invoice, in order, each the enriched invoice with its amounts formatted |
| PdfExport.ShownOfEnrichAll | old_static_version/assets/js/pdf-export.js:21-43 | the records handed to the renderer are the `enriched` entries, position by position, with their amounts formatted |
| PdfExport.ExportPages | old_static_version/assets/js/pdf-export.js:37-43 | rendered as written or corrected: at least one full-size page, the first starting with the export's header (given or default title, the fixed subtitle, the client, the range line); with no invoices exactly that header page |
| PdfExport.RangeLineOnFirstPage | old_static_version/assets/js/pdf-export.js:37-43 | the first page opens with the title (default the brand name) and shows the range line fourth |
| PdfExport.ToJpegs | old_static_version/assets/js/pdf-export.js:45-49 | one JPEG per page, in order, with that page's bytes and pixel size |
| PdfExport.ExportJpegs | old_static_version/assets/js/pdf-export.js:37-49 | as many JPEGs as rendered pages, at least one, each full size and encoding its page |
| PdfExport.DownloadClientPdf | old_static_version/assets/js/pdf-export.js:9-53 | as written: the JPEGs of the pages the source renders, the PDF `pdfFromJpegs` as written makes of them on the default A4 size, and the file named by the literal-pattern `makeName` |
| PdfExport.DownloadClientPdfCorrected | old_static_version/assets/js/pdf-export.js:9-53 | the same download with the corrected block, Parent number and name pattern |
| PdfExport.DownloadedDocument | old_static_version/assets/js/pdf-export.js:51 | the bytes the source downloads are a `Document` over at least one full-size page, with the Page objects naming object `2n+1` |
| PdfExport.DownloadedDocumentCorrected | old_static_version/assets/js/pdf-export.js:51 | with the corrections, a `Document` whose Page objects name the Pages object `3n+1` |

## Left out

- Browser I/O is not modelled: canvas creation, `toDataURL`, `dataUrlToBytes` (`atob`), `Blob` and the download in `downloadBlob`. JPEG encoding is the `toJpeg` parameter.
- The clock (`todayISO`) is the `genAt` parameter. `getCurrencySymbol`, `sumAmountFromPayload` and the template literal's number formatting are parameters too; the code behind them is not part of this model.
- `measureText` and font shaping are an uninterpreted measure function. Colours, fonts, alignment and `roundRect` arcs are dropped; only what is drawn and where is kept. The 1-px placeholder at the block start is kept as a box event.
- JavaScript numbers are exact reals (widths) and integers (pixels). Floating-point rounding of `tableW / colCount` and of the sums is not modelled.
- Dafny characters are Unicode scalar values. `TextEncoder`'s replacement of lone surrogates by U+FFFD is not modelled.
- The invoice block's head texts (the invoice name, default `فاتورة`, and its date line) are drawn, but no contract states their text.
- assets/js/reports-page.js and frontend/src/utils/pdfHelper.js are not part of this model. The first renders DOM tables; the second wraps a third-party PDF library.
- Renderer.InvoiceBlock: its own contract states only that the layout stays valid and nothing is erased. Placement is stated by `SummaryTogether`, `EmptyInvoiceAdvance` and `OpsPartTurns`.
- Renderer.InvoiceBlockAsWritten: its own contract states only validity and growth. What it gets wrong is stated by `SummaryStrandedAsWritten`.
- Renderer.Blocks: states validity and growth only. The per-invoice layout is stated on `InvoiceBlock`'s lemmas, and how the loop splits is stated by `BlocksAppend`.
- TextFit.Shorten: the source's `s.length` and `s.slice(0, -1)` (assets/js/pdf-renderer.js:356-357) count UTF-16 code units, so a character outside the Basic Multilingual Plane is dropped in two steps and a prefix may end in a lone surrogate. The model drops one Unicode scalar value per step.
- TextFit.Ellipsize: the longest fitting prefix is taken over Unicode scalar values, not UTF-16 code units, for the same reason.
- Table.CellsOf: the source prints each cell as `String(texts[i] ?? '')` (assets/js/pdf-renderer.js:338), converting numbers on the way. The model takes cells as optional strings already, so that conversion is not modelled.
- PdfWriter.XrefEntryBytes: holds only for offsets below 10^10. Above that, `padStart` writes more than ten digits and the entry is not 20 bytes; `Document` therefore speaks of files shorter than 10^10 bytes.
- TextFit.WrapText: its own contract gives only "at least one line". The content is stated by `WrapTextKeepsWords`.
- TextFit.Clip: says what a cell shows only when the first wrapped line fits. A first line that is a single over-long word is ellipsized, and that case is stated by `Ellipsize`.
- Utf8.Encode: its own contract bounds the length only. Content is stated by `DecodeEncode` and `EncodeDecode`.

## Findings

| source | as written | input that shows it | evidently intended | confidence | as-written member | corrected member |
|---|---|---|---|---|---|---|
| assets/js/pdf-writer.js:73 | `pagesObjId` is taken before the Page objects are added. Each Page's `/Parent` names object `2n+1`, which is the first Page itself; the Pages object gets number `3n+1` | any single JPEG: `/Parent 3 0 R` while Pages is object 4 | `/Parent` names the Pages object | high, not executed | PdfWriter.AsWrittenParentIsFirstPage | PdfWriter.AssembleParentIsPages |
| assets/js/pdf-renderer.js:155 | `ctx` is captured at block start, and the summary pairs and separator draw through it. After a table turns the page, they land on the earlier, pushed canvas, away from the box | an invoice with 19 operation rows | the summary values are drawn on the current canvas, inside their box | high, not executed | Renderer.SummaryStrandedAsWritten | Renderer.SummaryTogether |
| old_static_version/assets/js/pdf-export.js:56 | the pattern `\\s+` matches a backslash followed by `s` characters, so white space in the client name is kept | client name `أحمد علي`, no bounds: `كشف_أحمد علي.pdf` | white-space runs become `_` | high, not executed | ExportText.SpacedNameAsWritten | ExportText.NameHasNoSpace |

The source-named members keep the behaviour as written, and each correction has its own member:

- `PdfFromJpegs` is built on `AssembleAsWritten`; `PdfFromJpegsCorrected` on `Assemble`;
- `Render` is built on `InvoiceBlockAsWritten`; `RenderPages` with `corrected` true on `InvoiceBlock`;
- `DownloadClientPdf` names the file with `MakeNameAsWritten`; `DownloadClientPdfCorrected` with `MakeName`.
