/** What the three extractors resolve or reject with. Reading the file and the
    PDF and DOCX libraries are outside the model: what they hand back is an
    input here. The slide text of a presentation is computed by `Pptx`. */
module Extraction {
  import opened Wrappers
  import opened Text
  import opened Files
  import Slides = Pptx

  /** How reading and parsing a file can end: the file reader fails, the
      library rejects the bytes, or the library hands back its result. */
  datatype Reading<T> = ReadFailed | ParseFailed | Parsed(value: T)

  /** `reader.onerror`: the same message for every format. */
  const ReadError: string := "Error al leer el archivo."

  /** The message a library rejection turns into; it names the format. */
  function ParseError(fmt: Format): (m: string)
    ensures m != ReadError
  {
    match fmt
    case Pdf => "Error al procesar el archivo PDF."
    case Docx => "Error al procesar el archivo DOCX."
    case Pptx => "Error al procesar el archivo PPTX."
  }

  /** Each format has its own rejection message. */
  lemma ParseErrorInjective(f: Format, g: Format)
    ensures ParseError(f) == ParseError(g) <==> f == g
  {
    if f != g {
      assert ParseError(f)[26..] != ParseError(g)[26..];
    }
  }

  /** The text of a PDF whose pages hold the given text items: each page's
      items joined by a space and followed by a line feed. */
  function PdfText(pages: seq<seq<string>>): string
    decreases |pages|
  {
    if pages == [] then ""
    else PdfText(pages[..|pages| - 1]) + Join(pages[|pages| - 1], " ") + "\n"
  }

  /** One line per page: the page's items joined by a space. */
  function PageLines(pages: seq<seq<string>>): (r: seq<string>)
    ensures |r| == |pages|
    ensures forall i :: 0 <= i < |pages| ==> r[i] == Join(pages[i], " ")
  {
    seq(|pages|, i requires 0 <= i < |pages| => Join(pages[i], " "))
  }

  /** What the three readers of a file hand back. */
  datatype Contents = Contents(
    pdf: Reading<seq<seq<string>>>,
    docx: Reading<string>,
    pptx: Reading<seq<Slides.Entry>>)

  /** How far the reader of format `fmt` got. */
  function Stage(fmt: Format, c: Contents): Reading<()> {
    var failed := match fmt case Pdf => c.pdf.ReadFailed? case Docx => c.docx.ReadFailed? case Pptx => c.pptx.ReadFailed?;
    var parsed := match fmt case Pdf => c.pdf.Parsed? case Docx => c.docx.Parsed? case Pptx => c.pptx.Parsed?;
    if failed then ReadFailed else if parsed then Parsed(()) else ParseFailed
  }

  /** The promise of `extractTextFromPdf`, `extractTextFromDocx` or
      `extractTextFromPptx`: resolved with the text, or rejected with the
      reader's or the format's message. */
  function Extract(fmt: Format, c: Contents): (r: Result<string, string>)
    ensures r.Err? ==> r.error == ReadError || r.error == ParseError(fmt)
    ensures r == Err(ReadError) <==> Stage(fmt, c).ReadFailed?
    ensures r.Ok? <==> Stage(fmt, c).Parsed?
    ensures fmt == Pdf && c.pdf.Parsed? ==> r == Ok(PdfText(c.pdf.value))
    ensures fmt == Docx && c.docx.Parsed? ==> r == Ok(c.docx.value)
    ensures fmt == Pptx && c.pptx.Parsed? ==> r == Ok(Slides.PptxText(c.pptx.value))
  {
    var outcome: Reading<string> :=
      match fmt
      case Pdf => (match c.pdf case Parsed(pages) => Parsed(PdfText(pages)) case ReadFailed => ReadFailed case ParseFailed => ParseFailed)
      case Docx => c.docx
      case Pptx => (match c.pptx case Parsed(es) => Parsed(Slides.PptxText(es)) case ReadFailed => ReadFailed case ParseFailed => ParseFailed);
    match outcome
    case Parsed(text) => Ok(text)
    case ReadFailed => Err(ReadError)
    case ParseFailed => Err(ParseError(fmt))
  }

  // ---------------------------------------------------------------------------
  // Properties

  /** The text a PDF extraction resolves with splits back into the pages'
      lines, when no text item holds a line feed. */
  lemma ExtractPdfReadsBack(c: Contents, text: string)
    requires Extract(Pdf, c) == Ok(text)
    requires forall i, j :: 0 <= i < |c.pdf.value| && 0 <= j < |c.pdf.value[i]| ==> '\n' !in c.pdf.value[i][j]
    ensures Split(text, '\n') == PageLines(c.pdf.value) + [""]
  {
    PdfPagesReadBack(c.pdf.value);
  }

  /** The text a presentation extraction resolves with splits back into the
      slides' texts, in archive order. */
  lemma ExtractPptxReadsBack(c: Contents, text: string)
    requires Extract(Pptx, c) == Ok(text)
    requires |Slides.SlideEntries(c.pptx.value)| >= 1
    ensures Split(text, '\n') == Slides.SlideTexts(c.pptx.value)
  {
    Slides.SlidesReadBack(c.pptx.value);
  }

  /** The PDF text is the page lines joined by line feeds, with a final line feed. */
  lemma {:induction false} PdfTextIsLines(pages: seq<seq<string>>)
    ensures PdfText(pages) == Join(PageLines(pages) + [""], "\n")
    decreases |pages|
  {
    if pages != [] {
      var init := pages[..|pages| - 1];
      var x := Join(pages[|pages| - 1], " ");
      var ls := PageLines(init);
      PdfTextIsLines(init);
      assert PageLines(pages) == ls + [x];
      assert PageLines(pages) + [""] == ls + [x, ""];
      if ls == [] {
        assert Join([x, ""], "\n") == x + "\n" + Join([""], "\n");
      } else {
        JoinAppend(ls, [""], "\n");
        JoinAppend(ls, [x, ""], "\n");
        assert Join([x, ""], "\n") == x + "\n" + Join([""], "\n");
      }
    }
  }

  /** When no text item holds a line feed, the PDF text splits back into one
      line per page, in page order, and an empty piece after the final line feed. */
  lemma PdfPagesReadBack(pages: seq<seq<string>>)
    requires forall i, j :: 0 <= i < |pages| && 0 <= j < |pages[i]| ==> '\n' !in pages[i][j]
    ensures Split(PdfText(pages), '\n') == PageLines(pages) + [""]
  {
    var ls := PageLines(pages) + [""];
    forall i | 0 <= i < |ls|
      ensures '\n' !in ls[i]
    {
      if i < |pages| {
        JoinAvoids(pages[i], " ", '\n');
      }
    }
    PdfTextIsLines(pages);
    SplitJoin(ls, '\n');
  }

}
