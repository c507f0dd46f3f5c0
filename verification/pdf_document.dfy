/** The files `pdfFromJpegs` writes, as a reader of the cross-reference table
    finds them: as written, and with the Parent number corrected. */
module PdfDocument {
  import opened Utf8
  import opened PdfWriter

  /** `pdf` is the document `pdfFromJpegs` as written lays out for `jpegs` on
      pages of size `page`: a Document whose Page objects name object 2n+1. */
  ghost predicate AsWrittenDocument(jpegs: seq<Jpeg>, page: PageSize, pdf: seq<byte>) {
    Document(jpegs, Standard(page), PageObj(|jpegs|, 0), Encode, AssembleAsWritten(jpegs, Standard(page)), pdf)
  }

  /** `pdf` is the document the corrected writer lays out: a Document whose
      Page objects name the Pages object 3n+1. */
  ghost predicate CorrectedDocument(jpegs: seq<Jpeg>, page: PageSize, pdf: seq<byte>) {
    Document(jpegs, Standard(page), PagesObj(|jpegs|), Encode, Assemble(jpegs, Standard(page)), pdf)
  }

  /** `pdfFromJpegs` as written makes a document whose Page objects name object
      2n+1: the first Page object once there is a page. */
  lemma PdfFromJpegsDocument(jpegs: seq<Jpeg>, page: PageSize)
    ensures Document(jpegs, Standard(page), PageObj(|jpegs|, 0), Encode, AssembleAsWritten(jpegs, Standard(page)),
                     PdfFromJpegs(jpegs, page))
    ensures AsWrittenDocument(jpegs, page, PdfFromJpegs(jpegs, page))
  {
    var mk := Standard(page);
    var a := AssembleAsWritten(jpegs, mk);
    AssembleDocument(jpegs, mk, 0, PageObj(|jpegs|, 0));
    assert AssembledDocument(jpegs, mk, PageObj(|jpegs|, 0), a);
    Utf8XrefText();
    DocumentOf(jpegs, mk, Encode, PageObj(|jpegs|, 0), a);
  }

  /** The corrected writer makes a document whose Page objects name the Pages
      object 3n+1. */
  lemma PdfFromJpegsCorrectedDocument(jpegs: seq<Jpeg>, page: PageSize)
    ensures Document(jpegs, Standard(page), PagesObj(|jpegs|), Encode, Assemble(jpegs, Standard(page)),
                     PdfFromJpegsCorrected(jpegs, page))
    ensures CorrectedDocument(jpegs, page, PdfFromJpegsCorrected(jpegs, page))
  {
    var mk := Standard(page);
    var a := Assemble(jpegs, mk);
    AssembleDocument(jpegs, mk, |jpegs|, PagesObj(|jpegs|));
    assert AssembledDocument(jpegs, mk, PagesObj(|jpegs|), a);
    Utf8XrefText();
    DocumentOf(jpegs, mk, Encode, PagesObj(|jpegs|), a);
  }
}
