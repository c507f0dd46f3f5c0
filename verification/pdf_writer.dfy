/** The minimal PDF serialiser `pdfFromJpegs`: one image XObject, one content
    stream and one Page object per JPEG page, then the page tree (Pages), the
    Catalog, the cross-reference table and the trailer, following the file
    structure of ISO 32000-1 (indirect objects, section 7.3.10;
    cross-reference table, section 7.5.4; trailer, section 7.5.5; page tree,
    section 7.7.3; image XObjects, section 8.9.5).

    The writer is modelled as the source builds it: a byte accumulator plus the
    list of objects with the offset recorded when each was added.  The
    source's running counter `offsets[0]` is always the number of bytes pushed
    so far, which here is `|out|`. */
module PdfWriter {
  import opened Wrappers
  import opened Utf8
  import opened Decimal
  import opened Strings

  /** One page image: JPEG bytes and the pixel size written into the image dictionary. */
  datatype Jpeg = Jpeg(bytes: seq<byte>, wPx: int, hPx: int)

  /** Page size in points, already formatted as the decimal text JavaScript prints. */
  datatype PageSize = PageSize(w: string, h: string)

  /** The default `page = { w: 595.28, h: 841.89 }` (A4). */
  const DefaultPage := PageSize("595.28", "841.89")

  datatype Obj = Obj(offset: nat, body: seq<byte>)

  datatype Writer = Writer(out: seq<byte>, objects: seq<Obj>)

  /** Version line and binary-marker comment line. */
  const VersionLine: string := "%PDF-1.4\n"
  const MarkerLine: string := "%\U{E2}\U{E3}\U{CF}\U{D3}\n"
  const Header: string := VersionLine + MarkerLine

  /** The header as written: the four marker characters each take two bytes. */
  const HeaderBytes: seq<byte> :=
    [0x25, 0x50, 0x44, 0x46, 0x2D, 0x31, 0x2E, 0x34, 0x0A,
     0x25, 0xC3, 0xA2, 0xC3, 0xA3, 0xC3, 0x8F, 0xC3, 0x93, 0x0A]

  // ---------------------------------------------------------------- concatBytes

  /** Reference meaning of `concatBytes`: the parts laid end to end. */
  function Flatten(parts: seq<seq<byte>>): seq<byte> {
    if |parts| == 0 then [] else Flatten(parts[..|parts| - 1]) + parts[|parts| - 1]
  }

  function TotalLength(parts: seq<seq<byte>>): nat {
    if |parts| == 0 then 0 else TotalLength(parts[..|parts| - 1]) + |parts[|parts| - 1]|
  }

  lemma {:induction false} FlattenLength(parts: seq<seq<byte>>)
    ensures |Flatten(parts)| == TotalLength(parts)
  {
    if |parts| > 0 {
      FlattenLength(parts[..|parts| - 1]);
    }
  }

  lemma {:induction false} TotalLengthPrefix(parts: seq<seq<byte>>, i: nat)
    requires i <= |parts|
    ensures TotalLength(parts[..i]) <= TotalLength(parts)
    decreases |parts|
  {
    if i < |parts| {
      assert parts[..|parts| - 1][..i] == parts[..i];
      TotalLengthPrefix(parts[..|parts| - 1], i);
    } else {
      assert parts[..i] == parts;
    }
  }

  /** Part `i` of the flattened buffer starts right after the parts before it. */
  lemma {:induction false} FlattenPartAt(parts: seq<seq<byte>>, i: nat)
    requires i < |parts|
    ensures At(Flatten(parts), TotalLength(parts[..i]), parts[i])
    decreases |parts|
  {
    var last := |parts| - 1;
    var init := parts[..last];
    FlattenLength(init);
    if i == last {
      assert parts[..i] == init;
    } else {
      assert init[..i] == parts[..i];
      FlattenPartAt(init, i);
      AtExtend(Flatten(init), parts[last], TotalLength(parts[..i]), parts[i]);
    }
  }

  /** `out.set(p, o)`: copy `p` into `buf` from index `o`, leaving the bytes before `o` alone. */
  method CopyAt(buf: array<byte>, o: nat, p: seq<byte>)
    requires o + |p| <= buf.Length
    modifies buf
    ensures buf[..o] == old(buf[..o])
    ensures buf[o..o + |p|] == p
  {
    var j := 0;
    while j < |p|
      invariant 0 <= j <= |p|
      invariant buf[..o] == old(buf[..o])
      invariant buf[o..o + j] == p[..j]
    {
      buf[o + j] := p[j];
      assert buf[o..o + j + 1] == buf[o..o + j] + [p[j]];
      j := j + 1;
    }
  }

  /** `concatBytes(parts)`: size the buffer first, then copy every part at the running offset. */
  method ConcatBytes(parts: seq<seq<byte>>) returns (out: seq<byte>)
    ensures |out| == TotalLength(parts)
    ensures out == Flatten(parts)
  {
    var len := 0;
    var i := 0;
    while i < |parts|
      invariant 0 <= i <= |parts|
      invariant len == TotalLength(parts[..i])
    {
      assert parts[..i + 1][..i] == parts[..i];
      len := len + |parts[i]|;
      i := i + 1;
    }
    assert parts[..i] == parts;
    var buf := new byte[len](_ => 0);
    var o := 0;
    i := 0;
    while i < |parts|
      invariant 0 <= i <= |parts|
      invariant o == TotalLength(parts[..i]) <= len
      invariant buf[..o] == Flatten(parts[..i])
    {
      assert parts[..i + 1][..i] == parts[..i];
      TotalLengthPrefix(parts, i + 1);
      CopyAt(buf, o, parts[i]);
      assert buf[..o + |parts[i]|] == buf[..o] + buf[o..o + |parts[i]|];
      o := o + |parts[i]|;
      i := i + 1;
    }
    assert parts[..i] == parts;
    out := buf[..];
  }

  // ------------------------------------------------------------ object framing

  /** `pushStr`: append `enc.encode(s)`.  The encoder is a parameter here as in the
      source, where it is the one `TextEncoder`; `PdfFromJpegs` passes `Utf8.Encode`. */
  function PushStr(w: Writer, enc: string -> seq<byte>, s: string): Writer {
    Writer(w.out + enc(s), w.objects)
  }

  /** The first `pushStr` writes the version line, then `%` and four characters
      above 127, each two bytes, so the file reads as binary. */
  lemma HeaderWritten()
    ensures Encode(Header) == HeaderBytes
  {
    VersionLineBytes();
    MarkerLineBytes();
    EncodeAppend(VersionLine, MarkerLine);
    assert HeaderBytes == HeaderBytes[..9] + HeaderBytes[9..];
  }

  lemma VersionLineBytes()
    ensures Encode(VersionLine) == HeaderBytes[..9]
  {
    EncodeAsciiBytes(VersionLine, HeaderBytes[..9]);
  }

  lemma MarkerLineBytes()
    ensures Encode(MarkerLine) == HeaderBytes[9..]
  {
  }

  /** `" 0 obj\n"` and `"\nendobj\n"` as the bytes `TextEncoder` gives for them
      (see `ObjKeywordBytes` and `EndObjBytes`). */
  const ObjKeyword: seq<byte> := [0x20, 0x30, 0x20, 0x6F, 0x62, 0x6A, 0x0A]
  const EndObj: seq<byte> := [0x0A, 0x65, 0x6E, 0x64, 0x6F, 0x62, 0x6A, 0x0A]

  lemma ObjKeywordBytes()
    ensures ObjKeyword == Encode(" 0 obj\n")
  {
    EncodeAsciiBytes(" 0 obj\n", ObjKeyword);
  }

  lemma EndObjBytes()
    ensures EndObj == Encode("\nendobj\n")
  {
    EncodeAsciiBytes("\nendobj\n", EndObj);
  }

  /** The ASCII digits of `n`, as `TextEncoder` encodes `String(n)` (see `NatBytesEncoded`). */
  function NatBytes(n: nat): (r: seq<byte>)
    ensures |r| >= 1
  {
    if n < 10 then [0x30 + n] else NatBytes(n / 10) + [0x30 + n % 10]
  }

  lemma {:induction false} NatBytesEncoded(n: nat)
    ensures NatBytes(n) == Encode(NatStr(n))
  {
    if n >= 10 {
      NatBytesEncoded(n / 10);
      EncodeAppend(NatStr(n / 10), [Digit(n % 10)]);
    }
  }

  /** `${n} 0 obj\n`. */
  function ObjectHead(n: nat): seq<byte> {
    NatBytes(n) + ObjKeyword
  }

  /** How indirect object `n` with `body` appears in the file. */
  function Framed(n: nat, body: seq<byte>): seq<byte> {
    ObjectHead(n) + body + EndObj
  }

  /** `addObj`: record the current offset, then write `N 0 obj\n`, the body and
      `\nendobj\n`; the number returned is the object's position in the list. */
  function AddObj(w: Writer, body: seq<byte>): (Writer, nat) {
    var idx := |w.objects| + 1;
    (Writer(w.out + Framed(idx, body), w.objects + [Obj(|w.out|, body)]), idx)
  }

  /** Every object's framed bytes sit in the output at the offset recorded for it,
      numbered by its position in the object list (1-based). */
  ghost predicate Placed(w: Writer) {
    forall k | 0 <= k < |w.objects| :: At(w.out, w.objects[k].offset, Framed(k + 1, w.objects[k].body))
  }

  /** `w'` is `w` with more bytes and more objects after the existing ones. */
  ghost predicate Grows(w: Writer, w': Writer) {
    IsPrefix(w.out, w'.out) && IsPrefix(w.objects, w'.objects)
  }

  lemma GrowsTransitive(a: Writer, b: Writer, c: Writer)
    requires Grows(a, b) && Grows(b, c)
    ensures Grows(a, c)
  {
    assert c.out[..|a.out|] == c.out[..|b.out|][..|a.out|];
    assert c.objects[..|a.objects|] == c.objects[..|b.objects|][..|a.objects|];
  }

  lemma PushStrPlaced(w: Writer, enc: string -> seq<byte>, s: string)
    requires Placed(w)
    ensures Placed(PushStr(w, enc, s)) && Grows(w, PushStr(w, enc, s))
  {
    var w' := PushStr(w, enc, s);
    forall k | 0 <= k < |w.objects|
      ensures At(w'.out, w.objects[k].offset, Framed(k + 1, w.objects[k].body))
    {
      AtExtend(w.out, enc(s), w.objects[k].offset, Framed(k + 1, w.objects[k].body));
    }
  }

  lemma AddObjGrows(w: Writer, body: seq<byte>)
    ensures AddObj(w, body).1 == |w.objects| + 1
    ensures Grows(w, AddObj(w, body).0)
    ensures AddObj(w, body).0.objects[|w.objects|] == Obj(|w.out|, body)
  {
    assert AddObj(w, body).0.objects[..|w.objects|] == w.objects;
  }

  /** `addObj` keeps every recorded offset pointing at its object, the new one included. */
  lemma AddObjPlaced(w: Writer, body: seq<byte>)
    requires Placed(w)
    ensures Placed(AddObj(w, body).0)
  {
    var w' := AddObj(w, body).0;
    forall k | 0 <= k < |w'.objects|
      ensures At(w'.out, w'.objects[k].offset, Framed(k + 1, w'.objects[k].body))
    {
      if k < |w.objects| {
        PlacedKeepsOld(w, body, k);
      } else {
        PlacedNew(w, body);
      }
    }
  }

  lemma PlacedKeepsOld(w: Writer, body: seq<byte>, k: nat)
    requires Placed(w) && k < |w.objects|
    ensures At(w.out + Framed(|w.objects| + 1, body), w.objects[k].offset, Framed(k + 1, w.objects[k].body))
  {
    AtExtend(w.out, Framed(|w.objects| + 1, body), w.objects[k].offset, Framed(k + 1, w.objects[k].body));
  }

  lemma PlacedNew(w: Writer, body: seq<byte>)
    ensures At(w.out + Framed(|w.objects| + 1, body), |w.out|, Framed(|w.objects| + 1, body))
  {
    var f := Framed(|w.objects| + 1, body);
    assert (w.out + f)[|w.out|..|w.out| + |f|] == f;
  }

  // -------------------------------------------------------------- object bodies

  function ImageDict(j: Jpeg): string {
    "<<\n/Type /XObject\n/Subtype /Image\n/Width " + IntStr(j.wPx) + "\n/Height " + IntStr(j.hPx)
    + "\n/ColorSpace /DeviceRGB\n/BitsPerComponent 8\n/Filter /DCTDecode\n/Length " + NatStr(|j.bytes|) + "\n>>"
  }

  const StreamHead: string := "\nstream\n"
  const StreamTail: string := "\nendstream"

  /** Image XObject: dictionary, then the JPEG bytes verbatim as the stream. */
  function ImageBody(j: Jpeg): seq<byte> {
    Encode(ImageDict(j) + StreamHead) + j.bytes + Encode(StreamTail)
  }

  /** `/Im{i}`. */
  function ImageName(i: nat): string {
    "Im" + NatStr(i)
  }

  /** Content stream stamping image `i` over the whole page. */
  function ContentText(page: PageSize, i: nat): string {
    "q\n" + page.w + " 0 0 " + page.h + " 0 0 cm\n/" + ImageName(i) + " Do\nQ\n"
  }

  function ContentDict(page: PageSize, i: nat): string {
    "<< /Length " + NatStr(|Encode(ContentText(page, i))|) + " >>\nstream\n"
  }

  function ContentBody(page: PageSize, i: nat): seq<byte> {
    Encode(ContentDict(page, i)) + Encode(ContentText(page, i)) + Encode(StreamTail)
  }

  /** An indirect reference `N 0 R`. */
  function Ref(n: nat): string {
    NatStr(n) + " 0 R"
  }

  function PageDict(i: nat, imgObj: nat, contentObj: nat, pagesObj: nat, page: PageSize): string {
    "<<\n/Type /Page\n/Parent " + Ref(pagesObj)
    + "\n/Resources << /XObject << /" + ImageName(i) + " " + Ref(imgObj) + " >> >>"
    + "\n/MediaBox [0 0 " + page.w + " " + page.h + "]"
    + "\n/Contents " + Ref(contentObj) + "\n>>"
  }

  function Refs(ids: seq<nat>): seq<string>
    ensures |Refs(ids)| == |ids|
  {
    if |ids| == 0 then [] else [Ref(ids[0])] + Refs(ids[1..])
  }

  function PagesDict(kids: seq<nat>): string {
    "<<\n/Type /Pages\n/Count " + NatStr(|kids|) + "\n/Kids [ " + Join(Refs(kids), " ") + " ]\n>>"
  }

  function CatalogDict(pagesObj: nat): string {
    "<<\n/Type /Catalog\n/Pages " + Ref(pagesObj) + "\n>>"
  }

  // --------------------------------------------------------------- emission

  /** Adds `bodies` as objects, one `addObj` each, in order. */
  function AddAll(w: Writer, bodies: seq<seq<byte>>): (r: Writer)
    ensures |r.objects| == |w.objects| + |bodies|
    decreases |bodies|
  {
    if |bodies| == 0 then w else AddAll(AddObj(w, bodies[0]).0, bodies[1..])
  }

  /** The objects added are exactly `bodies`, after the existing ones, which stay. */
  lemma {:induction false} AddAllGrows(w: Writer, bodies: seq<seq<byte>>)
    ensures Grows(w, AddAll(w, bodies))
    ensures forall k | |w.objects| <= k < |AddAll(w, bodies).objects| ::
      AddAll(w, bodies).objects[k].body == bodies[k - |w.objects|]
    decreases |bodies|
  {
    if |bodies| > 0 {
      var w1 := AddObj(w, bodies[0]).0;
      AddObjGrows(w, bodies[0]);
      AddAllGrows(w1, bodies[1..]);
      var r := AddAll(w1, bodies[1..]);
      GrowsTransitive(w, w1, r);
      assert r.objects[|w.objects|] == r.objects[..|w1.objects|][|w.objects|];
    }
  }

  lemma {:induction false} AddAllPlaced(w: Writer, bodies: seq<seq<byte>>)
    requires Placed(w)
    ensures Placed(AddAll(w, bodies))
    decreases |bodies|
  {
    if |bodies| > 0 {
      AddObjPlaced(w, bodies[0]);
      AddAllPlaced(AddObj(w, bodies[0]).0, bodies[1..]);
    }
  }

  lemma {:induction false} AddAllAppend(w: Writer, a: seq<seq<byte>>, b: seq<seq<byte>>)
    ensures AddAll(w, a + b) == AddAll(AddAll(w, a), b)
    decreases |a|
  {
    if |a| == 0 {
      assert a + b == b;
    } else {
      assert (a + b)[0] == a[0];
      assert (a + b)[1..] == a[1..] + b;
      AddAllAppend(AddObj(w, a[0]).0, a[1..], b);
    }
  }

  /** How each object's body is made: the image XObject from a JPEG, page `i`'s
      content stream, a Page dictionary from (page index, image, content and
      parent numbers), the Pages dictionary from its kids, the Catalog from the
      Pages number.  `pdfFromJpegs` uses `Standard(page)`; the object layout
      below holds for any makers. */
  datatype Makers = Makers(
    image: Jpeg -> seq<byte>,
    content: nat -> seq<byte>,
    pageObj: (nat, nat, nat, nat) -> seq<byte>,
    pages: seq<nat> -> seq<byte>,
    catalog: nat -> seq<byte>)

  function Standard(page: PageSize): Makers {
    Makers(
      j => ImageBody(j),
      i => ContentBody(page, i),
      (i, img, content, parent) => Encode(PageDict(i, img, content, parent, page)),
      kids => Encode(PagesDict(kids)),
      pagesObj => Encode(CatalogDict(pagesObj)))
  }

  datatype PagePlan = PagePlan(imgObj: nat, contentObj: nat)

  /** The first loop: image object then content object for every page from `i` on. */
  function EmitImages(w: Writer, jpegs: seq<Jpeg>, mk: Makers, i: nat): (r: (Writer, seq<PagePlan>))
    requires i <= |jpegs|
    ensures |r.1| == |jpegs| - i
    ensures |r.0.objects| == |w.objects| + 2 * (|jpegs| - i)
    decreases |jpegs| - i
  {
    if i == |jpegs| then (w, [])
    else
      var (w1, imgObj) := AddObj(w, mk.image(jpegs[i]));
      var (w2, cObj) := AddObj(w1, mk.content(i));
      var (w3, rest) := EmitImages(w2, jpegs, mk, i + 1);
      (w3, [PagePlan(imgObj, cObj)] + rest)
  }

  /** What the first loop writes from page `i` on: image, then content, page by page. */
  function ImageBodies(jpegs: seq<Jpeg>, mk: Makers, i: nat): (r: seq<seq<byte>>)
    requires i <= |jpegs|
    ensures |r| == 2 * (|jpegs| - i)
    decreases |jpegs| - i
  {
    if i == |jpegs| then [] else [mk.image(jpegs[i]), mk.content(i)] + ImageBodies(jpegs, mk, i + 1)
  }

  /** Entries 2p and 2p+1 belong to page i+p. */
  lemma {:induction false} ImageBodiesAt(jpegs: seq<Jpeg>, mk: Makers, i: nat, p: nat)
    requires i + p < |jpegs|
    ensures ImageBodies(jpegs, mk, i)[2 * p] == mk.image(jpegs[i + p])
    ensures ImageBodies(jpegs, mk, i)[2 * p + 1] == mk.content(i + p)
    decreases p
  {
    if p > 0 {
      ImageBodiesAt(jpegs, mk, i + 1, p - 1);
    }
  }

  /** Plans for `m` pages whose objects are numbered from `base + 1` on. */
  function PlansFrom(base: nat, m: nat): (r: seq<PagePlan>)
    ensures |r| == m
    decreases m
  {
    if m == 0 then [] else [PagePlan(base + 1, base + 2)] + PlansFrom(base + 2, m - 1)
  }

  lemma {:induction false} PlansFromAt(base: nat, m: nat, j: nat)
    requires j < m
    ensures PlansFrom(base, m)[j] == PagePlan(base + 2 * j + 1, base + 2 * j + 2)
    decreases j
  {
    if j > 0 {
      PlansFromAt(base + 2, m - 1, j - 1);
    }
  }

  /** The first loop adds the image and content bodies in page order, and plans page
      `j` with objects base+2j+1 (image) and base+2j+2 (content). */
  lemma {:induction false} EmitImagesAddsBodies(w: Writer, jpegs: seq<Jpeg>, mk: Makers, i: nat)
    requires i <= |jpegs|
    ensures EmitImages(w, jpegs, mk, i).0 == AddAll(w, ImageBodies(jpegs, mk, i))
    ensures EmitImages(w, jpegs, mk, i).1 == PlansFrom(|w.objects|, |jpegs| - i)
    decreases |jpegs| - i
  {
    if i < |jpegs| {
      var bs := ImageBodies(jpegs, mk, i);
      var w1 := AddObj(w, mk.image(jpegs[i])).0;
      var w2 := AddObj(w1, mk.content(i)).0;
      assert bs[1..][1..] == ImageBodies(jpegs, mk, i + 1);
      assert AddAll(w, bs) == AddAll(w2, ImageBodies(jpegs, mk, i + 1));
      EmitImagesAddsBodies(w2, jpegs, mk, i + 1);
    }
  }

  /** The second loop: one Page object per planned page, all naming `pagesObj` as parent. */
  function EmitPages(w: Writer, plans: seq<PagePlan>, pagesObj: nat, mk: Makers, i: nat): (r: (Writer, seq<nat>))
    requires i <= |plans|
    ensures |r.1| == |plans| - i
    ensures |r.0.objects| == |w.objects| + (|plans| - i)
    decreases |plans| - i
  {
    if i == |plans| then (w, [])
    else
      var plan := plans[i];
      var (w1, pObj) := AddObj(w, mk.pageObj(i, plan.imgObj, plan.contentObj, pagesObj));
      var (w2, rest) := EmitPages(w1, plans, pagesObj, mk, i + 1);
      (w2, [pObj] + rest)
  }

  /** What the second loop writes from page `i` on. */
  function PlanBodies(plans: seq<PagePlan>, pagesObj: nat, mk: Makers, i: nat): (r: seq<seq<byte>>)
    requires i <= |plans|
    ensures |r| == |plans| - i
    decreases |plans| - i
  {
    if i == |plans| then []
    else [mk.pageObj(i, plans[i].imgObj, plans[i].contentObj, pagesObj)] + PlanBodies(plans, pagesObj, mk, i + 1)
  }

  lemma {:induction false} PlanBodiesAt(plans: seq<PagePlan>, pagesObj: nat, mk: Makers, i: nat, p: nat)
    requires i + p < |plans|
    ensures PlanBodies(plans, pagesObj, mk, i)[p] == mk.pageObj(i + p, plans[i + p].imgObj, plans[i + p].contentObj, pagesObj)
    decreases p
  {
    if p > 0 {
      PlanBodiesAt(plans, pagesObj, mk, i + 1, p - 1);
    }
  }

  /** Numbers `base + 1` to `base + m`. */
  function IdsFrom(base: nat, m: nat): (r: seq<nat>)
    ensures |r| == m
    decreases m
  {
    if m == 0 then [] else [base + 1] + IdsFrom(base + 1, m - 1)
  }

  lemma {:induction false} IdsFromAt(base: nat, m: nat, j: nat)
    requires j < m
    ensures IdsFrom(base, m)[j] == base + j + 1
    decreases j
  {
    if j > 0 {
      IdsFromAt(base + 1, m - 1, j - 1);
    }
  }

  /** The second loop adds the Page dictionaries in page order, numbered base+1, base+2, ... */
  lemma {:induction false} EmitPagesAddsBodies(w: Writer, plans: seq<PagePlan>, pagesObj: nat, mk: Makers, i: nat)
    requires i <= |plans|
    ensures EmitPages(w, plans, pagesObj, mk, i).0 == AddAll(w, PlanBodies(plans, pagesObj, mk, i))
    ensures EmitPages(w, plans, pagesObj, mk, i).1 == IdsFrom(|w.objects|, |plans| - i)
    decreases |plans| - i
  {
    if i < |plans| {
      var bs := PlanBodies(plans, pagesObj, mk, i);
      assert bs[1..] == PlanBodies(plans, pagesObj, mk, i + 1);
      EmitPagesAddsBodies(AddObj(w, bs[0]).0, plans, pagesObj, mk, i + 1);
    }
  }

  /** The writer after the Catalog, with the numbers the source keeps for later:
      the Parent number written into every Page, and the numbers `addObj`
      returned for Pages and Catalog. */
  datatype Assembled = Assembled(w: Writer, pagesRef: nat, pagesObj: nat, catalogObj: nat)

  /** Everything from the first object to the Catalog, written after `w0`.  The
      Parent number is fixed before the Page objects are written, as the next
      number after the objects so far and `reserve` more. */
  function AssembleFrom(w0: Writer, jpegs: seq<Jpeg>, mk: Makers, reserve: nat): Assembled {
    var images := EmitImages(w0, jpegs, mk, 0);
    var pagesObjId := |images.0.objects| + reserve + 1;
    var pageObjs := EmitPages(images.0, images.1, pagesObjId, mk, 0);
    Finish(pageObjs.0, pageObjs.1, pagesObjId, mk)
  }

  /** The Pages object over the Page numbers `kids`, then the Catalog naming it. */
  function Finish(w: Writer, kids: seq<nat>, pagesRef: nat, mk: Makers): (a: Assembled)
    ensures a.pagesRef == pagesRef
    ensures a.pagesObj == |w.objects| + 1 && a.catalogObj == |w.objects| + 2
  {
    var pages := AddObj(w, mk.pages(kids));
    var catalog := AddObj(pages.0, mk.catalog(pages.1));
    Assembled(catalog.0, pagesRef, pages.1, catalog.1)
  }

  lemma FinishAddsBodies(w: Writer, kids: seq<nat>, pagesRef: nat, mk: Makers)
    ensures Finish(w, kids, pagesRef, mk).w == AddAll(w, [mk.pages(kids), mk.catalog(|w.objects| + 1)])
  {
    AddAllPair(w, mk.pages(kids), mk.catalog(|w.objects| + 1));
  }

  /** The source: the Parent number is taken as `objects.length + 1` right after the
      first loop, with nothing reserved for the Page objects written before Pages. */
  function AssembleAsWritten(jpegs: seq<Jpeg>, mk: Makers): Assembled {
    AssembleFrom(Writer(HeaderBytes, []), jpegs, mk, 0)
  }

  /** The file up to the Catalog, with the Parent number skipping the `|jpegs|` Page
      objects, so that it names the Pages object. */
  function Assemble(jpegs: seq<Jpeg>, mk: Makers): Assembled {
    AssembleFrom(Writer(HeaderBytes, []), jpegs, mk, |jpegs|)
  }

  /** Reference numbering for `n` pages: image of page i is object 2i+1, its
      content 2i+2, its Page object 2n+i+1; Pages is 3n+1 and Catalog 3n+2. */
  function ImageObj(i: nat): nat { 2 * i + 1 }
  function ContentObj(i: nat): nat { 2 * i + 2 }
  function PageObj(n: nat, i: nat): nat { 2 * n + i + 1 }
  function PagesObj(n: nat): nat { 3 * n + 1 }
  function CatalogObj(n: nat): nat { 3 * n + 2 }

  /** The Page numbers of an `n`-page document, in page order. */
  function PageIds(n: nat): seq<nat> {
    IdsFrom(2 * n, n)
  }

  lemma PageIdsAt(n: nat, i: nat)
    requires i < n
    ensures |PageIds(n)| == n && PageIds(n)[i] == PageObj(n, i)
  {
    IdsFromAt(2 * n, n, i);
  }

  /** The image and content numbers of an `n`-page document, in page order. */
  function RefPlans(n: nat): seq<PagePlan> {
    PlansFrom(0, n)
  }

  /** Reference body of object number `k + 1` in a document of `jpegs` whose Page
      objects name `parent`. */
  function ExpectedBody(jpegs: seq<Jpeg>, mk: Makers, parent: nat, k: nat): seq<byte>
    requires k < 3 * |jpegs| + 2
  {
    var n := |jpegs|;
    if k < 2 * n then
      if k % 2 == 0 then mk.image(jpegs[k / 2]) else mk.content(k / 2)
    else if k < 3 * n then
      var i := k - 2 * n;
      mk.pageObj(i, ImageObj(i), ContentObj(i), parent)
    else if k == 3 * n then mk.pages(PageIds(n))
    else mk.catalog(PagesObj(n))
  }

  /** The bodies in the order the two loops and the last two `addObj` calls write them. */
  function DocBodies(jpegs: seq<Jpeg>, mk: Makers, parent: nat): (r: seq<seq<byte>>)
    ensures |r| == 3 * |jpegs| + 2
  {
    var n := |jpegs|;
    ImageBodies(jpegs, mk, 0) + PlanBodies(RefPlans(n), parent, mk, 0)
    + [mk.pages(PageIds(n)), mk.catalog(PagesObj(n))]
  }

  lemma DocBodyAt(jpegs: seq<Jpeg>, mk: Makers, parent: nat, k: nat)
    requires k < 3 * |jpegs| + 2
    ensures DocBodies(jpegs, mk, parent)[k] == ExpectedBody(jpegs, mk, parent, k)
  {
    var n := |jpegs|;
    var d := DocBodies(jpegs, mk, parent);
    var ib := ImageBodies(jpegs, mk, 0);
    var pb := PlanBodies(RefPlans(n), parent, mk, 0);
    if k < 2 * n {
      var p := k / 2;
      assert d[k] == ib[k];
      ImageBodiesAt(jpegs, mk, 0, p);
      assert k == 2 * p || k == 2 * p + 1;
    } else if k < 3 * n {
      assert d[k] == pb[k - 2 * n];
      PlanBodiesAt(RefPlans(n), parent, mk, 0, k - 2 * n);
      PlansFromAt(0, n, k - 2 * n);
    }
  }

  lemma AddAllPair(w: Writer, a: seq<byte>, b: seq<byte>)
    ensures AddAll(w, [a, b]) == AddObj(AddObj(w, a).0, b).0
  {
    var w1 := AddObj(w, a).0;
    assert [a, b][1..] == [b];
    assert AddAll(w, [a, b]) == AddAll(w1, [b]);
    assert [b][1..] == [];
    assert AddAll(w1, [b]) == AddAll(AddObj(w1, b).0, []);
  }

  /** The bodies the two loops write, in order. */
  function LoopBodies(jpegs: seq<Jpeg>, mk: Makers, parent: nat): seq<seq<byte>> {
    ImageBodies(jpegs, mk, 0) + PlanBodies(RefPlans(|jpegs|), parent, mk, 0)
  }

  /** The two loops write the image, content and Page bodies in page order, and
      hand out the numbers of the reference numbering. */
  lemma AssembleLoops(w0: Writer, jpegs: seq<Jpeg>, mk: Makers, parent: nat)
    requires |w0.objects| == 0
    ensures var r1 := EmitImages(w0, jpegs, mk, 0);
      var r2 := EmitPages(r1.0, r1.1, parent, mk, 0);
      && |r1.0.objects| == 2 * |jpegs|
      && r2.0 == AddAll(w0, LoopBodies(jpegs, mk, parent))
      && r2.1 == PageIds(|jpegs|)
  {
    var n := |jpegs|;
    var r1 := EmitImages(w0, jpegs, mk, 0);
    EmitImagesAddsBodies(w0, jpegs, mk, 0);
    var r2 := EmitPages(r1.0, r1.1, parent, mk, 0);
    EmitPagesAddsBodies(r1.0, r1.1, parent, mk, 0);
    AddAllAppend(w0, ImageBodies(jpegs, mk, 0), PlanBodies(RefPlans(n), parent, mk, 0));
  }

  /** Numbers of the whole document, from any starting writer with no objects
      yet: Pages and Catalog get 3n+1 and 3n+2, and the Parent number is 2n+1
      plus the reservation. */
  lemma AssembleNumbers(w0: Writer, jpegs: seq<Jpeg>, mk: Makers, reserve: nat)
    requires |w0.objects| == 0
    ensures var a := AssembleFrom(w0, jpegs, mk, reserve);
      && a.pagesRef == 2 * |jpegs| + reserve + 1
      && a.pagesObj == PagesObj(|jpegs|)
      && a.catalogObj == CatalogObj(|jpegs|)
  {
  }

  lemma AssembleAfterLoops(w0: Writer, jpegs: seq<Jpeg>, mk: Makers, reserve: nat)
    requires |w0.objects| == 0
    ensures var parent := 2 * |jpegs| + reserve + 1;
      AssembleFrom(w0, jpegs, mk, reserve) == Finish(AddAll(w0, LoopBodies(jpegs, mk, parent)), PageIds(|jpegs|), parent, mk)
  {
    var parent := 2 * |jpegs| + reserve + 1;
    var r1 := EmitImages(w0, jpegs, mk, 0);
    var r2 := EmitPages(r1.0, r1.1, parent, mk, 0);
    assert AssembleFrom(w0, jpegs, mk, reserve) == Finish(r2.0, r2.1, parent, mk);
    AssembleLoops(w0, jpegs, mk, parent);
  }

  lemma FinishAfterLoops(w0: Writer, jpegs: seq<Jpeg>, mk: Makers, parent: nat)
    requires |w0.objects| == 0
    ensures Finish(AddAll(w0, LoopBodies(jpegs, mk, parent)), PageIds(|jpegs|), parent, mk).w
         == AddAll(w0, DocBodies(jpegs, mk, parent))
  {
    var n := |jpegs|;
    var front := LoopBodies(jpegs, mk, parent);
    FinishAddsBodies(AddAll(w0, front), PageIds(n), parent, mk);
    AddAllAppend(w0, front, [mk.pages(PageIds(n)), mk.catalog(PagesObj(n))]);
  }

  /** The objects of the whole document are the reference bodies, in order. */
  lemma AssembleAddsBodies(w0: Writer, jpegs: seq<Jpeg>, mk: Makers, reserve: nat)
    requires |w0.objects| == 0
    ensures AssembleFrom(w0, jpegs, mk, reserve).w == AddAll(w0, DocBodies(jpegs, mk, 2 * |jpegs| + reserve + 1))
  {
    AssembleAfterLoops(w0, jpegs, mk, reserve);
    FinishAfterLoops(w0, jpegs, mk, 2 * |jpegs| + reserve + 1);
  }

  /** The document before its cross-reference table: header first, then 3n+2
      objects, each at its recorded offset under its own number. */
  lemma AssembleFromPlaced(jpegs: seq<Jpeg>, mk: Makers, reserve: nat)
    ensures var a := AssembleFrom(Writer(HeaderBytes, []), jpegs, mk, reserve);
      && |a.w.objects| == 3 * |jpegs| + 2
      && Placed(a.w)
      && IsPrefix(HeaderBytes, a.w.out)
  {
    var w0 := Writer(HeaderBytes, []);
    var d := DocBodies(jpegs, mk, 2 * |jpegs| + reserve + 1);
    AssembleAddsBodies(w0, jpegs, mk, reserve);
    AddAllGrows(w0, d);
    AddAllPlaced(w0, d);
  }

  /** Object `k + 1` holds the reference body for its number. */
  lemma AssembleFromBodies(jpegs: seq<Jpeg>, mk: Makers, reserve: nat)
    ensures var a := AssembleFrom(Writer(HeaderBytes, []), jpegs, mk, reserve);
      && |a.w.objects| == 3 * |jpegs| + 2
      && forall k | 0 <= k < |a.w.objects| :: a.w.objects[k].body == ExpectedBody(jpegs, mk, 2 * |jpegs| + reserve + 1, k)
  {
    var w0 := Writer(HeaderBytes, []);
    var parent := 2 * |jpegs| + reserve + 1;
    var d := DocBodies(jpegs, mk, parent);
    AssembleAddsBodies(w0, jpegs, mk, reserve);
    AddAllGrows(w0, d);
    forall k | 0 <= k < 3 * |jpegs| + 2
      ensures d[k] == ExpectedBody(jpegs, mk, parent, k)
    {
      DocBodyAt(jpegs, mk, parent, k);
    }
  }

  /** With the reservation, every Page names the Pages object as its parent. */
  lemma AssembleParentIsPages(jpegs: seq<Jpeg>, mk: Makers)
    ensures Assemble(jpegs, mk).pagesRef == Assemble(jpegs, mk).pagesObj == PagesObj(|jpegs|)
  {
    AssembleNumbers(Writer(HeaderBytes, []), jpegs, mk, |jpegs|);
  }

  /** As written, once there is a page the Parent number is that of the first Page
      object, not the Pages object. */
  lemma AsWrittenParentIsFirstPage(jpegs: seq<Jpeg>, mk: Makers)
    requires |jpegs| >= 1
    ensures AssembleAsWritten(jpegs, mk).pagesRef == PageObj(|jpegs|, 0)
    ensures AssembleAsWritten(jpegs, mk).pagesRef != AssembleAsWritten(jpegs, mk).pagesObj
  {
    AssembleNumbers(Writer(HeaderBytes, []), jpegs, mk, 0);
  }

  // ------------------------------------------------------ cross-reference table

  /** One cross-reference entry: the offset padded to ten digits, generation 0, in use. */
  function XrefEntry(offset: nat): string {
    PadStart(NatStr(offset), 10, '0') + " 00000 n \n"
  }

  const FreeEntry: string := "0000000000 65535 f \n"

  /** The subsection line: first object number 0, `size` entries. */
  function CountText(size: nat): string {
    "0 " + NatStr(size) + "\n"
  }

  /** The trailer dictionary: `size` entries, the root being object `root`. */
  function TrailerDict(size: nat, root: nat): string {
    "<< /Size " + NatStr(size) + " /Root " + Ref(root) + " >>\n"
  }

  /** `xref`, the subsection line `0 count+1`, and the free entry for object 0. */
  function XrefHead(w: Writer, enc: string -> seq<byte>): Writer {
    var w1 := PushStr(w, enc, "xref\n");
    var w2 := PushStr(w1, enc, CountText(|w.objects| + 1));
    PushStr(w2, enc, FreeEntry)
  }

  /** The texts the entry loop pushes: one entry per object, in object order. */
  function EntryTexts(objs: seq<Obj>): (r: seq<string>)
    ensures |r| == |objs|
  {
    if |objs| == 0 then [] else [XrefEntry(objs[0].offset)] + EntryTexts(objs[1..])
  }

  /** `pushStr` of each text in turn. */
  function PushAll(w: Writer, enc: string -> seq<byte>, texts: seq<string>): (r: Writer)
    ensures r.objects == w.objects
    decreases |texts|
  {
    if |texts| == 0 then w else PushAll(PushStr(w, enc, texts[0]), enc, texts[1..])
  }

  /** The trailer naming the Catalog as root, then `startxref` and the offset of `xref`. */
  function PushTrailer(w: Writer, enc: string -> seq<byte>, count: nat, catalogObj: nat, xrefOffset: nat): Writer {
    var w1 := PushStr(w, enc, "trailer\n");
    var w2 := PushStr(w1, enc, TrailerDict(count + 1, catalogObj));
    var w3 := PushStr(w2, enc, "startxref\n");
    PushStr(w3, enc, NatStr(xrefOffset) + "\n%%EOF")
  }

  /** Cross-reference section and trailer after the objects of `w`; `xref` starts
      at the current length. */
  function EmitXref(w: Writer, enc: string -> seq<byte>, catalogObj: nat): Writer {
    var xrefOffset := |w.out|;
    var head := XrefHead(w, enc);
    var entries := PushAll(head, enc, EntryTexts(w.objects));
    PushTrailer(entries, enc, |w.objects|, catalogObj, xrefOffset)
  }

  /** `pdfFromJpegs({ jpegs, page })` as written: the Page objects name object
      2n+1 as their parent (see `AsWrittenParentIsFirstPage`). */
  function PdfFromJpegs(jpegs: seq<Jpeg>, page: PageSize): seq<byte> {
    var a := AssembleAsWritten(jpegs, Standard(page));
    EmitXref(a.w, Encode, a.catalogObj).out
  }

  /** `pdfFromJpegs` with the Parent number naming the Pages object. */
  function PdfFromJpegsCorrected(jpegs: seq<Jpeg>, page: PageSize): seq<byte> {
    var a := Assemble(jpegs, Standard(page));
    EmitXref(a.w, Encode, a.catalogObj).out
  }

  // --------------------------------------------------- cross-reference lemmas

  /** Pushing text keeps what was written and puts the text's bytes right after it. */
  lemma PushStrAt(w: Writer, enc: string -> seq<byte>, s: string)
    ensures Grows(w, PushStr(w, enc, s))
    ensures At(PushStr(w, enc, s).out, |w.out|, enc(s))
  {
    var o := PushStr(w, enc, s).out;
    assert o[..|w.out|] == w.out;
    assert o[|w.out|..|w.out| + |enc(s)|] == enc(s);
  }

  lemma {:induction false} PushAllGrows(w: Writer, enc: string -> seq<byte>, texts: seq<string>)
    requires Placed(w)
    ensures Grows(w, PushAll(w, enc, texts)) && Placed(PushAll(w, enc, texts))
    decreases |texts|
  {
    if |texts| > 0 {
      var w1 := PushStr(w, enc, texts[0]);
      PushStrPlaced(w, enc, texts[0]);
      PushAllGrows(w1, enc, texts[1..]);
      GrowsTransitive(w, w1, PushAll(w1, enc, texts[1..]));
    }
  }

  /** When every text encodes to twenty bytes, text `k` sits `20 k` bytes after the start. */
  lemma {:induction false} PushAllAt(w: Writer, enc: string -> seq<byte>, texts: seq<string>, k: nat)
    requires k < |texts|
    requires forall i | 0 <= i < |texts| :: |enc(texts[i])| == 20
    ensures At(PushAll(w, enc, texts).out, |w.out| + 20 * k, enc(texts[k]))
    decreases k
  {
    var w1 := PushStr(w, enc, texts[0]);
    assert PushAll(w, enc, texts) == PushAll(w1, enc, texts[1..]);
    if k == 0 {
      PushStrAt(w, enc, texts[0]);
      PushAllKeeps(w1, enc, texts[1..]);
      AtPrefix(w1.out, PushAll(w1, enc, texts[1..]).out, |w.out|, enc(texts[0]));
    } else {
      assert texts[1..][k - 1] == texts[k];
      PushAllAt(w1, enc, texts[1..], k - 1);
    }
  }

  lemma {:induction false} PushAllKeeps(w: Writer, enc: string -> seq<byte>, texts: seq<string>)
    ensures IsPrefix(w.out, PushAll(w, enc, texts).out)
    decreases |texts|
  {
    if |texts| > 0 {
      var w1 := PushStr(w, enc, texts[0]);
      PushStrAt(w, enc, texts[0]);
      PushAllKeeps(w1, enc, texts[1..]);
      var r := PushAll(w1, enc, texts[1..]).out;
      assert r[..|w.out|] == r[..|w1.out|][..|w.out|];
    }
  }

  lemma {:induction false} EntryTextsAt(objs: seq<Obj>, k: nat)
    requires k < |objs|
    ensures EntryTexts(objs)[k] == XrefEntry(objs[k].offset)
    decreases k
  {
    if k > 0 {
      EntryTextsAt(objs[1..], k - 1);
    }
  }

  const EntryTail: seq<byte> := [0x20, 0x30, 0x30, 0x30, 0x30, 0x30, 0x20, 0x6E, 0x20, 0x0A]

  lemma EntryTailBytes()
    ensures Encode(" 00000 n \n") == EntryTail
  {
    EncodeAsciiBytes(" 00000 n \n", EntryTail);
  }

  /** The ten digits an entry starts with. */
  function EntryDigits(offset: nat): seq<byte> {
    Encode(PadStart(NatStr(offset), 10, '0'))
  }

  /** The ten bytes at `at` are the padded digits of `offset`. */
  ghost predicate EntryHolds(pdf: seq<byte>, at: nat, offset: nat) {
    at + 10 <= |pdf| && pdf[at..at + 10] == EntryDigits(offset)
  }

  /** The padded digits of an offset below 10^10 are ten bytes. */
  lemma EntryDigitsWidth(offset: nat)
    requires offset < Pow10(10)
    ensures |EntryDigits(offset)| == 10
  {
    var digits := PadStart(NatStr(offset), 10, '0');
    NatStrFits(offset, 10);
    ValueOfZeroPadded(offset, 10);
    DigitsAscii(digits);
    EncodeAscii(digits);
  }

  /** An entry is its padded digits followed by ` 00000 n \n`. */
  lemma EntryBytes(offset: nat)
    ensures Encode(XrefEntry(offset)) == EntryDigits(offset) + EntryTail
  {
    EncodeAppend(PadStart(NatStr(offset), 10, '0'), " 00000 n \n");
    EntryTailBytes();
  }

  /** An entry for an offset below 10^10 is twenty bytes, and its first ten read back
      as the offset. */
  lemma XrefEntryBytes(offset: nat)
    requires offset < Pow10(10)
    ensures |Encode(XrefEntry(offset))| == 20
    ensures Encode(XrefEntry(offset))[..10] == EntryDigits(offset)
    ensures ReadNumber(EntryDigits(offset)) == Some(offset)
  {
    EntryDigitsWidth(offset);
    EntryBytes(offset);
    PrefixOfAppend(EntryDigits(offset), EntryTail);
    ReadZeroPadded(offset, 10);
  }

  lemma PrefixOfAppend(a: seq<byte>, b: seq<byte>)
    ensures (a + b)[..|a|] == a
  {
  }

  /** What the encoder must do for the entry loop to line up: every entry for an
      offset below 10^10 is twenty bytes and starts with the offset's ten digits. */
  ghost predicate EncodesEntries(enc: string -> seq<byte>) {
    forall offset: nat | offset < Pow10(10) ::
      |enc(XrefEntry(offset))| == 20 && enc(XrefEntry(offset))[..10] == EntryDigits(offset)
  }

  lemma Utf8EncodesEntries()
    ensures EncodesEntries(Encode)
  {
    forall offset: nat | offset < Pow10(10)
      ensures |Encode(XrefEntry(offset))| == 20 && Encode(XrefEntry(offset))[..10] == EntryDigits(offset)
    {
      XrefEntryBytes(offset);
    }
  }

  lemma XrefHeadGrows(w: Writer, enc: string -> seq<byte>)
    requires Placed(w)
    ensures Grows(w, XrefHead(w, enc)) && Placed(XrefHead(w, enc))
    ensures At(XrefHead(w, enc).out, |w.out|, enc("xref\n"))
  {
    var w1 := PushStr(w, enc, "xref\n");
    var w2 := PushStr(w1, enc, CountText(|w.objects| + 1));
    PushStrAt(w, enc, "xref\n");
    PushStrPlaced(w, enc, "xref\n");
    PushStrPlaced(w1, enc, CountText(|w.objects| + 1));
    PushStrPlaced(w2, enc, FreeEntry);
    GrowsTransitive(w1, w2, XrefHead(w, enc));
    GrowsTransitive(w, w1, XrefHead(w, enc));
    AtPrefix(w1.out, XrefHead(w, enc).out, |w.out|, enc("xref\n"));
  }

  /** The trailer keeps what was written and ends the file with the last line. */
  lemma PushTrailerGrows(w: Writer, enc: string -> seq<byte>, count: nat, catalogObj: nat, xrefOffset: nat)
    requires Placed(w)
    ensures Grows(w, PushTrailer(w, enc, count, catalogObj, xrefOffset))
    ensures Placed(PushTrailer(w, enc, count, catalogObj, xrefOffset))
    ensures EndsWith(PushTrailer(w, enc, count, catalogObj, xrefOffset).out, enc(NatStr(xrefOffset) + "\n%%EOF"))
  {
    var w1 := PushStr(w, enc, "trailer\n");
    var w2 := PushStr(w1, enc, TrailerDict(count + 1, catalogObj));
    var w3 := PushStr(w2, enc, "startxref\n");
    var last := NatStr(xrefOffset) + "\n%%EOF";
    PushStrPlaced(w, enc, "trailer\n");
    PushStrPlaced(w1, enc, TrailerDict(count + 1, catalogObj));
    PushStrPlaced(w2, enc, "startxref\n");
    PushStrPlaced(w3, enc, last);
    GrowsTransitive(w, w1, w2);
    GrowsTransitive(w, w2, w3);
    GrowsTransitive(w, w3, PushTrailer(w, enc, count, catalogObj, xrefOffset));
    AppendEndsWith(w3.out, enc(last));
  }

  lemma AppendEndsWith(a: seq<byte>, b: seq<byte>)
    ensures EndsWith(a + b, b)
  {
    assert (a + b)[|a|..] == b;
  }

  /** The head of the section right after what was written: `xref`, the subsection
      line and the free entry, in that order. */
  lemma XrefHeadAt(w: Writer, enc: string -> seq<byte>)
    ensures At(XrefHead(w, enc).out, |w.out|, enc("xref\n") + enc(CountText(|w.objects| + 1)) + enc(FreeEntry))
  {
    var piece := enc("xref\n") + enc(CountText(|w.objects| + 1)) + enc(FreeEntry);
    assert XrefHead(w, enc).out == w.out + piece;
    assert XrefHead(w, enc).out[|w.out|..|w.out| + |piece|] == piece;
  }

  /** The trailer closes the output: `trailer`, the dictionary, `startxref` and the
      last line, in that order. */
  lemma PushTrailerEnds(w: Writer, enc: string -> seq<byte>, count: nat, catalogObj: nat, xrefOffset: nat)
    ensures EndsWith(PushTrailer(w, enc, count, catalogObj, xrefOffset).out,
                     enc("trailer\n") + enc(TrailerDict(count + 1, catalogObj)) + enc("startxref\n")
                     + enc(NatStr(xrefOffset) + "\n%%EOF"))
  {
    var tail := enc("trailer\n") + enc(TrailerDict(count + 1, catalogObj)) + enc("startxref\n")
                + enc(NatStr(xrefOffset) + "\n%%EOF");
    assert PushTrailer(w, enc, count, catalogObj, xrefOffset).out == w.out + tail;
    AppendEndsWith(w.out, tail);
  }

  /** The frame of the section in the finished output, for any writer: the head
      right after the objects, the trailer at the very end. */
  lemma EmitXrefFrame(w: Writer, enc: string -> seq<byte>, catalogObj: nat)
    ensures XrefFrame(EmitXref(w, enc, catalogObj).out, enc, |w.out|, |w.objects| + 1, catalogObj)
  {
    var head := XrefHead(w, enc);
    var entries := PushAll(head, enc, EntryTexts(w.objects));
    var pdf := EmitXref(w, enc, catalogObj).out;
    XrefHeadAt(w, enc);
    PushAllKeeps(head, enc, EntryTexts(w.objects));
    assert IsPrefix(entries.out, pdf);
    PrefixTransitive(head.out, entries.out, pdf);
    AtPrefix(head.out, pdf, |w.out|, enc("xref\n") + enc(CountText(|w.objects| + 1)) + enc(FreeEntry));
    PushTrailerEnds(entries, enc, |w.objects|, catalogObj, |w.out|);
  }

  /** Every recorded offset is inside the output. */
  lemma PlacedOffsetBelow(w: Writer, k: nat)
    requires Placed(w) && k < |w.objects|
    ensures w.objects[k].offset < |w.out|
  {
  }

  /** Offsets of placed objects are below the output length. */
  lemma OffsetsBelow(w: Writer, bound: nat)
    requires Placed(w) && |w.out| <= bound
    ensures forall i | 0 <= i < |w.objects| :: w.objects[i].offset < bound
  {
    forall i | 0 <= i < |w.objects|
      ensures w.objects[i].offset < bound
    {
      PlacedOffsetBelow(w, i);
    }
  }

  /** With twenty-byte texts, the head of text `k` sits `20 k` bytes after the start
      in anything the pushes are a prefix of. */
  lemma PieceHeadAt(head: Writer, enc: string -> seq<byte>, texts: seq<string>, pdf: seq<byte>, k: nat)
    requires forall i | 0 <= i < |texts| :: |enc(texts[i])| == 20
    requires k < |texts| && IsPrefix(PushAll(head, enc, texts).out, pdf)
    ensures EntryAt(|head.out|, k) + 20 <= |pdf|
    ensures pdf[EntryAt(|head.out|, k)..EntryAt(|head.out|, k) + 10] == enc(texts[k])[..10]
  {
    var at := EntryAt(|head.out|, k);
    PushAllAt(head, enc, texts, k);
    AtPrefix(PushAll(head, enc, texts).out, pdf, at, enc(texts[k]));
    HeadOfPiece(pdf, at, enc(texts[k]), 10);
  }

  /** Entry `k`, encoded, is twenty bytes starting with the padded offset of object `k + 1`. */
  lemma EntryTextFacts(enc: string -> seq<byte>, objs: seq<Obj>, k: nat)
    requires EncodesEntries(enc) && k < |objs| && objs[k].offset < Pow10(10)
    ensures |enc(EntryTexts(objs)[k])| == 20
    ensures enc(EntryTexts(objs)[k])[..10] == EntryDigits(objs[k].offset)
  {
    EntryTextsAt(objs, k);
  }

  lemma EntryTextWidths(enc: string -> seq<byte>, objs: seq<Obj>)
    requires EncodesEntries(enc)
    requires forall i | 0 <= i < |objs| :: objs[i].offset < Pow10(10)
    ensures forall i | 0 <= i < |objs| :: |enc(EntryTexts(objs)[i])| == 20
  {
    forall i | 0 <= i < |objs|
      ensures |enc(EntryTexts(objs)[i])| == 20
    {
      EntryTextFacts(enc, objs, i);
    }
  }

  lemma EntryResolves(head: Writer, enc: string -> seq<byte>, objs: seq<Obj>, pdf: seq<byte>, k: nat)
    requires EncodesEntries(enc)
    requires forall i | 0 <= i < |objs| :: objs[i].offset < Pow10(10)
    requires k < |objs| && IsPrefix(PushAll(head, enc, EntryTexts(objs)).out, pdf)
    ensures EntryHolds(pdf, EntryAt(|head.out|, k), objs[k].offset)
  {
    EntryTextWidths(enc, objs);
    PieceHeadAt(head, enc, EntryTexts(objs), pdf, k);
    EntryTextFacts(enc, objs, k);
  }

  /** What the cross-reference section gives a reader, for any writer whose objects
      are placed and whose output is below 10^10 bytes: the objects and the bytes so
      far are kept; `xref` starts at the old length; entry `k` (twenty bytes, right
      after the free entry) holds the ten digits of the offset of object `k + 1`,
      where that object's framed bytes are; the subsection line `0 count+1` and the
      free entry sit between `xref` and the entries; and the file ends with the
      trailer naming `count+1` entries and the root, `startxref`, the old length
      and `%%EOF`. */
  lemma EmitXrefResolves(w: Writer, enc: string -> seq<byte>, catalogObj: nat)
    requires Placed(w) && |w.out| < Pow10(10) && EncodesEntries(enc)
    ensures var pdf := EmitXref(w, enc, catalogObj);
      && Grows(w, pdf) && pdf.objects == w.objects && Placed(pdf)
      && At(pdf.out, |w.out|, enc("xref\n"))
      && EndsWith(pdf.out, enc(NatStr(|w.out|) + "\n%%EOF"))
    ensures XrefFrame(EmitXref(w, enc, catalogObj).out, enc, |w.out|, |w.objects| + 1, catalogObj)
    ensures var pdf := EmitXref(w, enc, catalogObj).out;
      var start := |XrefHead(w, enc).out|;
      forall k | 0 <= k < |w.objects| :: EntryHolds(pdf, EntryAt(start, k), w.objects[k].offset)
  {
    var head := XrefHead(w, enc);
    var entries := PushAll(head, enc, EntryTexts(w.objects));
    var pdf := EmitXref(w, enc, catalogObj);
    XrefHeadGrows(w, enc);
    PushAllGrows(head, enc, EntryTexts(w.objects));
    PushTrailerGrows(entries, enc, |w.objects|, catalogObj, |w.out|);
    GrowsTransitive(head, entries, pdf);
    GrowsTransitive(w, head, pdf);
    AtPrefix(head.out, pdf.out, |w.out|, enc("xref\n"));
    EmitXrefFrame(w, enc, catalogObj);
    OffsetsBelow(w, Pow10(10));
    forall k | 0 <= k < |w.objects|
      ensures EntryHolds(pdf.out, EntryAt(|head.out|, k), w.objects[k].offset)
    {
      EntryResolves(head, enc, w.objects, pdf.out, k);
    }
  }

  // ------------------------------------------------------------ the whole file

  const XrefLine: seq<byte> := [0x78, 0x72, 0x65, 0x66, 0x0A]
  const EofLine: seq<byte> := [0x0A, 0x25, 0x25, 0x45, 0x4F, 0x46]

  lemma XrefLineBytes()
    ensures Encode("xref\n") == XrefLine
  {
    EncodeAsciiBytes("xref\n", XrefLine);
  }

  lemma EofLineBytes()
    ensures Encode("\n%%EOF") == EofLine
  {
    EncodeAsciiBytes("\n%%EOF", EofLine);
  }

  /** The last line of the file: the decimal offset of `xref`, a newline, `%%EOF`. */
  lemma LastLineBytes(xrefOffset: nat)
    ensures Encode(NatStr(xrefOffset) + "\n%%EOF") == NatBytes(xrefOffset) + EofLine
  {
    EncodeAppend(NatStr(xrefOffset), "\n%%EOF");
    NatBytesEncoded(xrefOffset);
    EofLineBytes();
  }

  lemma SubsectionLength(count: nat)
    ensures |Encode(CountText(count))| == |NatBytes(count)| + 3
  {
    EncodeAppend("0 " + NatStr(count), "\n");
    EncodeAppend("0 ", NatStr(count));
    NatBytesEncoded(count);
    EncodeAscii("0 ");
    EncodeAscii("\n");
  }

  /** What the cross-reference section needs of the text encoder, beyond
      `EncodesEntries`: the byte forms of `xref`, the free entry, the subsection
      line and the last line. */
  ghost predicate XrefText(enc: string -> seq<byte>) {
    && EncodesEntries(enc)
    && enc("xref\n") == XrefLine
    && |enc(FreeEntry)| == 20
    && (forall count: nat :: CountLine(enc, count))
    && (forall offset: nat :: LastLine(enc, offset))
  }

  /** The subsection line for `count` entries is as wide as the count's digits plus three. */
  ghost predicate CountLine(enc: string -> seq<byte>, count: nat) {
    |enc(CountText(count))| == |NatBytes(count)| + 3
  }

  /** The last line is the offset's digits, a newline and `%%EOF`. */
  ghost predicate LastLine(enc: string -> seq<byte>, offset: nat) {
    enc(NatStr(offset) + "\n%%EOF") == NatBytes(offset) + EofLine
  }

  /** UTF-8 is such an encoder. */
  lemma Utf8XrefText()
    ensures XrefText(Encode)
  {
    Utf8EncodesEntries();
    XrefLineBytes();
    FreeEntryLength();
    forall count: nat
      ensures CountLine(Encode, count)
    {
      SubsectionLength(count);
    }
    forall offset: nat
      ensures LastLine(Encode, offset)
    {
      LastLineBytes(offset);
    }
  }

  lemma FreeEntryLength()
    ensures |Encode(FreeEntry)| == 20
  {
    EncodeAscii(FreeEntry);
  }

  /** The entries start 28 bytes plus the width of the object count after `xref`. */
  lemma XrefHeadLength(w: Writer, enc: string -> seq<byte>)
    requires enc("xref\n") == XrefLine && CountLine(enc, |w.objects| + 1) && |enc(FreeEntry)| == 20
    ensures |XrefHead(w, enc).out| == |w.out| + 28 + |NatBytes(|w.objects| + 1)|
  {
  }

  /** Where entry `k` starts when the entries start at `entries`: twenty bytes each. */
  function EntryAt(entries: nat, k: nat): nat {
    entries + 20 * k
  }

  /** Where entry `k` of a table after `xrefOffset` over `count` objects starts. */
  function EntryStart(xrefOffset: nat, count: nat, k: nat): nat {
    EntryAt(xrefOffset + 28 + |NatBytes(count + 1)|, k)
  }

  /** A reader of such an entry gets the offset back. */
  lemma EntryReadsBack(pdf: seq<byte>, at: nat, offset: nat)
    requires EntryHolds(pdf, at, offset) && offset < Pow10(10)
    ensures ReadNumber(pdf[at..at + 10]) == Some(offset)
  {
    XrefEntryBytes(offset);
  }

  /** What a reader finds in `pdf`, the file made from `jpegs` with body makers `mk`
      (`a` being the objects written before the cross-reference table): the file
      starts with the header and holds 3n+2 objects; `xref`, the subsection line
      `0 3n+3` and the free entry follow the objects; the file ends with the
      trailer (3n+3 entries, root the Catalog, object 3n+2), `startxref`, the
      offset of `xref` and `%%EOF`, these texts written by `enc`; and when the file is shorter than 10^10 bytes,
      entry `k` holds (see `EntryReadsBack`) the offset at which object `k + 1` is
      framed with the reference body for its number, whose Page objects name
      `parent`. */
  ghost predicate Document(jpegs: seq<Jpeg>, mk: Makers, parent: nat, enc: string -> seq<byte>, a: Assembled,
                           pdf: seq<byte>) {
    var n := |jpegs|;
    && IsPrefix(HeaderBytes, pdf)
    && |a.w.objects| == 3 * n + 2
    && XrefFrame(pdf, enc, |a.w.out|, 3 * n + 3, CatalogObj(n))
    && (|a.w.out| < Pow10(10) ==> ObjectsFound(jpegs, mk, parent, a, pdf))
  }

  /** The head of the cross-reference section at `xrefOffset` (`xref`, the
      subsection line for `size` entries, the free entry) and, at the end of
      `pdf`, the trailer naming `size` entries and `root`, `startxref` and the
      last line; every text as `enc` writes it. */
  ghost predicate XrefFrame(pdf: seq<byte>, enc: string -> seq<byte>, xrefOffset: nat, size: nat, root: nat) {
    && At(pdf, xrefOffset, enc("xref\n") + enc(CountText(size)) + enc(FreeEntry))
    && EndsWith(pdf, enc("trailer\n") + enc(TrailerDict(size, root)) + enc("startxref\n")
                     + enc(NatStr(xrefOffset) + "\n%%EOF"))
  }

  /** `xref` at the end of the objects, the offset of `xref` and `%%EOF` at the end
      of the file, and every object found through its entry. */
  ghost predicate ObjectsFound(jpegs: seq<Jpeg>, mk: Makers, parent: nat, a: Assembled, pdf: seq<byte>) {
    var n := |jpegs|;
    && |a.w.objects| == 3 * n + 2
    && At(pdf, |a.w.out|, XrefLine)
    && EndsWith(pdf, NatBytes(|a.w.out|) + EofLine)
    && forall k | 0 <= k < 3 * n + 2 ::
         && EntryHolds(pdf, EntryStart(|a.w.out|, 3 * n + 2, k), a.w.objects[k].offset)
         && a.w.objects[k].offset < Pow10(10)
         && At(pdf, a.w.objects[k].offset, Framed(k + 1, ExpectedBody(jpegs, mk, parent, k)))
  }

  /** The whole file, for any body makers and any encoder with the text facts
      above, over objects assembled with the Page objects naming `parent`. */
  lemma DocumentOf(jpegs: seq<Jpeg>, mk: Makers, enc: string -> seq<byte>, parent: nat, a: Assembled)
    requires XrefText(enc) && AssembledDocument(jpegs, mk, parent, a)
    ensures Document(jpegs, mk, parent, enc, a, EmitXref(a.w, enc, a.catalogObj).out)
  {
    assert CountLine(enc, |a.w.objects| + 1) && LastLine(enc, |a.w.out|);
    XrefSectionOf(a.w, enc, a.catalogObj);
    DocumentFrom(jpegs, mk, parent, enc, a, EmitXref(a.w, enc, a.catalogObj).out);
  }

  /** The objects before the cross-reference table: 3n+2 of them, placed after the
      header, each holding the reference body, the Page objects naming `parent`. */
  ghost predicate AssembledDocument(jpegs: seq<Jpeg>, mk: Makers, parent: nat, a: Assembled) {
    && |a.w.objects| == 3 * |jpegs| + 2 && Placed(a.w)
    && IsPrefix(HeaderBytes, a.w.out) && a.catalogObj == CatalogObj(|jpegs|)
    && forall k | 0 <= k < |a.w.objects| :: a.w.objects[k].body == ExpectedBody(jpegs, mk, parent, k)
  }

  /** `pdf` extends the objects of `w` with a cross-reference section over them,
      framed by its head and a trailer naming `root`. */
  ghost predicate XrefSection(w: Writer, enc: string -> seq<byte>, root: nat, pdf: seq<byte>) {
    && IsPrefix(w.out, pdf)
    && XrefFrame(pdf, enc, |w.out|, |w.objects| + 1, root)
    && (|w.out| < Pow10(10) ==>
         && At(pdf, |w.out|, XrefLine)
         && EndsWith(pdf, NatBytes(|w.out|) + EofLine)
         && forall k | 0 <= k < |w.objects| :: EntryHolds(pdf, EntryStart(|w.out|, |w.objects|, k), w.objects[k].offset))
  }

  /** The objects assembled with `reserve` numbers held back name object 2n+reserve+1
      as their parent. */
  lemma AssembleDocument(jpegs: seq<Jpeg>, mk: Makers, reserve: nat, parent: nat)
    requires parent == 2 * |jpegs| + reserve + 1
    ensures AssembledDocument(jpegs, mk, parent, AssembleFrom(Writer(HeaderBytes, []), jpegs, mk, reserve))
  {
    AssembleFromPlaced(jpegs, mk, reserve);
    AssembleFromBodies(jpegs, mk, reserve);
    AssembleNumbers(Writer(HeaderBytes, []), jpegs, mk, reserve);
  }

  /** The cross-reference section over the objects of `w`: the bytes so far kept,
      the head at the old length, the trailer at the end, entry `k` holding the offset of object `k + 1`, and
      the file ending with that length and `%%EOF`. */
  lemma XrefSectionOf(w: Writer, enc: string -> seq<byte>, catalogObj: nat)
    requires Placed(w) && EncodesEntries(enc) && enc("xref\n") == XrefLine
    requires CountLine(enc, |w.objects| + 1) && LastLine(enc, |w.out|) && |enc(FreeEntry)| == 20
    ensures XrefSection(w, enc, catalogObj, EmitXref(w, enc, catalogObj).out)
  {
    var pdf := EmitXref(w, enc, catalogObj).out;
    var entries := |XrefHead(w, enc).out|;
    EmitXrefKeeps(w, enc, catalogObj);
    EmitXrefFrame(w, enc, catalogObj);
    if |w.out| < Pow10(10) {
      EmitXrefResolves(w, enc, catalogObj);
      XrefHeadLength(w, enc);
    }
    XrefSectionFrom(w, enc, catalogObj, pdf, entries);
  }

  /** The section facts for any bytes, given where the entries start. */
  lemma XrefSectionFrom(w: Writer, enc: string -> seq<byte>, root: nat, pdf: seq<byte>, entries: nat)
    requires IsPrefix(w.out, pdf) && XrefFrame(pdf, enc, |w.out|, |w.objects| + 1, root)
    requires |w.out| < Pow10(10) ==>
      && At(pdf, |w.out|, XrefLine)
      && EndsWith(pdf, NatBytes(|w.out|) + EofLine)
      && entries == |w.out| + 28 + |NatBytes(|w.objects| + 1)|
      && forall k | 0 <= k < |w.objects| :: EntryHolds(pdf, EntryAt(entries, k), w.objects[k].offset)
    ensures XrefSection(w, enc, root, pdf)
  {
    if |w.out| < Pow10(10) {
      forall k | 0 <= k < |w.objects|
        ensures EntryHolds(pdf, EntryStart(|w.out|, |w.objects|, k), w.objects[k].offset)
      {
        assert EntryStart(|w.out|, |w.objects|, k) == EntryAt(entries, k);
      }
    }
  }

  /** The document facts for any bytes that extend the assembled objects with a
      cross-reference section framed by its head and a trailer naming the Catalog. */
  lemma DocumentFrom(jpegs: seq<Jpeg>, mk: Makers, parent: nat, enc: string -> seq<byte>, a: Assembled,
                     pdf: seq<byte>)
    requires AssembledDocument(jpegs, mk, parent, a) && XrefSection(a.w, enc, a.catalogObj, pdf)
    ensures Document(jpegs, mk, parent, enc, a, pdf)
  {
    var n := |jpegs|;
    assert |a.w.objects| + 1 == 3 * n + 3;
    PrefixTransitive(HeaderBytes, a.w.out, pdf);
    if |a.w.out| < Pow10(10) {
      OffsetsBelow(a.w, Pow10(10));
      forall k | 0 <= k < 3 * n + 2
        ensures && EntryHolds(pdf, EntryStart(|a.w.out|, 3 * n + 2, k), a.w.objects[k].offset)
                && a.w.objects[k].offset < Pow10(10)
                && At(pdf, a.w.objects[k].offset, Framed(k + 1, ExpectedBody(jpegs, mk, parent, k)))
      {
        PlacedAt(a.w, k);
        AtPrefix(a.w.out, pdf, a.w.objects[k].offset, Framed(k + 1, a.w.objects[k].body));
      }
    }
  }

  lemma PlacedAt(w: Writer, k: nat)
    requires Placed(w) && k < |w.objects|
    ensures At(w.out, w.objects[k].offset, Framed(k + 1, w.objects[k].body))
  {
  }

  lemma EmitXrefKeeps(w: Writer, enc: string -> seq<byte>, catalogObj: nat)
    ensures IsPrefix(w.out, EmitXref(w, enc, catalogObj).out)
  {
    var head := XrefHead(w, enc);
    var entries := PushAll(head, enc, EntryTexts(w.objects));
    assert IsPrefix(w.out, head.out);
    PushAllKeeps(head, enc, EntryTexts(w.objects));
    PrefixTransitive(w.out, head.out, entries.out);
    PrefixTransitive(w.out, entries.out, EmitXref(w, enc, catalogObj).out);
  }

  lemma PrefixTransitive(a: seq<byte>, b: seq<byte>, c: seq<byte>)
    requires IsPrefix(a, b) && IsPrefix(b, c)
    ensures IsPrefix(a, c)
  {
    assert c[..|a|] == c[..|b|][..|a|];
  }
}
