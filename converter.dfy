/** doc_converter_all.py: the PDFConverter wrapper, the eight extractors that
    drive it, and the `convert_to_pdf` dispatch. Each extractor is proved to
    make exactly the calls its specification function in ConverterEvents
    describes; the dispatch is proved to pick the first claiming format. */
module Converter {
  import opened Wrappers
  import opened Text
  import opened Render
  import opened ConverterEvents

  // ---------------------------------------------------------------------
  // The PDFConverter class

  /** `PDFConverter`: an FPDF document set up with one page, regular 12pt and
      a 15 mm automatic page-break margin. */
  class PdfConverter {
    const pdf: Fpdf

    constructor ()
      ensures fresh(pdf) && pdf.Valid() && pdf.log == Prelude
    {
      pdf := new Fpdf();
      new;
      pdf.AddPage();
      pdf.SetFont(Regular12);
      pdf.SetAutoPageBreak(15);
    }

    /** `add_title(title, size)`. */
    method AddTitle(title: string, size: nat)
      requires pdf.Valid()
      modifies pdf
      ensures pdf.Valid() && pdf.log == old(pdf.log) + TitleEvents(title, size)
      ensures pdf.font == Some(Regular12) && pdf.page == old(pdf.page)
    {
      pdf.SetFont(Font(true, size));
      pdf.Cell(0.0, 10, title, false, true);
      pdf.Ln(Some(5));
      pdf.SetFont(Regular12);
    }

    /** `add_text(text)`. */
    method AddText(text: string)
      requires pdf.Valid()
      modifies pdf
      ensures pdf.Valid() && pdf.log == old(pdf.log) + TextEvents(text)
      ensures pdf.font == old(pdf.font) && pdf.page == old(pdf.page)
    {
      if text != [] && Strip(text) != [] {
        pdf.MultiCell(10, Sanitize(text));
      }
    }

    /** `add_table(data, headers)`; a missing header list is the empty one. */
    method AddTable(data: seq<seq<string>>, headers: seq<string>)
      requires pdf.Valid()
      modifies pdf
      ensures pdf.Valid() && pdf.log == old(pdf.log) + TableEvents(data, headers)
    {
      ghost var head := HeaderEvents(headers);
      if headers != [] {
        pdf.SetFont(Font(true, 12));
        DrawCells(pdf, HeaderCell, headers, 40.0);
        pdf.Ln(None);
        pdf.SetFont(Regular10);
        HeaderStep(headers, old(pdf.log), pdf.log);
      } else {
        AppendEmpty(old(pdf.log));
      }
      DrawRows(pdf, Ellipsize, data, 40.0, false);
      AppendAssoc(old(pdf.log), head, Rows(Ellipsize, data, 40.0, []));
    }
  }

  /** The inner `for cell in row: pdf.cell(width, 10, cell(...), border=1)`
      loop every table path runs. */
  method DrawCells<A>(pdf: Fpdf, cell: A -> string, row: seq<A>, width: real)
    requires pdf.Valid()
    modifies pdf
    ensures pdf.Valid() && pdf.log == old(pdf.log) + RowCells(cell, row, width)
    ensures pdf.font == old(pdf.font) && pdf.page == old(pdf.page)
  {
    var i := 0;
    while i < |row|
      invariant 0 <= i <= |row|
      invariant pdf.Valid() && pdf.log == old(pdf.log) + RowCells(cell, row[..i], width)
      invariant pdf.font == old(pdf.font) && pdf.page == old(pdf.page)
    {
      pdf.Cell(width, 10, cell(row[i]), true, false);
      RowCellsSnoc(cell, row, i, width);
      i := i + 1;
    }
    assert row[..i] == row;
  }

  /** The `for row in rows:` loop every table path runs: an optional reset to
      regular 10pt, the row's cells, then a line break. */
  method DrawRows<A>(pdf: Fpdf, cell: A -> string, rows: seq<seq<A>>, width: real, reset: bool)
    requires pdf.Valid()
    modifies pdf
    ensures pdf.Valid()
    ensures pdf.log == old(pdf.log) + Rows(cell, rows, width, if reset then [SetFont(Regular10)] else [])
  {
    ghost var lead: seq<Event> := if reset then [SetFont(Regular10)] else [];
    var k := 0;
    while k < |rows|
      invariant 0 <= k <= |rows|
      invariant pdf.Valid() && pdf.log == old(pdf.log) + Rows(cell, rows[..k], width, lead)
    {
      DrawRow(pdf, cell, rows[k], width, reset);
      RowsStep(cell, rows, k, width, lead, old(pdf.log), pdf.log);
      k := k + 1;
    }
    assert rows[..k] == rows;
  }

  /** One pass of that loop. */
  method DrawRow<A>(pdf: Fpdf, cell: A -> string, row: seq<A>, width: real, reset: bool)
    requires pdf.Valid()
    modifies pdf
    ensures pdf.Valid()
    ensures pdf.log == old(pdf.log) + (if reset then [SetFont(Regular10)] else [])
      + RowCells(cell, row, width) + [Ln(None)]
  {
    if reset {
      pdf.SetFont(Regular10);
    } else {
      AppendEmpty(old(pdf.log));
    }
    DrawCells(pdf, cell, row, width);
    pdf.Ln(None);
  }

  /** One worksheet of `xlsx_to_pdf`: its title, its rows, a 10 mm gap and a
      page break unless it is the last sheet. */
  method DrawSheet(c: PdfConverter, sheet: Sheet, lastName: string)
    requires c.pdf.Valid()
    modifies c.pdf
    ensures c.pdf.Valid() && c.pdf.log == old(c.pdf.log) + SheetEvents(sheet, lastName)
  {
    c.AddTitle(SheetTitlePrefix + sheet.name, 14);
    DrawRows(c.pdf, XlsxCell, sheet.rows, 40.0, true);
    c.pdf.Ln(Some(10));
    if sheet.name != lastName {
      c.pdf.AddPage();
    } else {
      AppendEmpty(c.pdf.log);
    }
    SheetEventsAppend(old(c.pdf.log), sheet, lastName, c.pdf.log);
  }

  /** Slide `i` of `pptx_to_pdf`: a page break unless it is the first, the
      title, then every shape with non-blank text. */
  method DrawSlide(c: PdfConverter, i: nat, slide: Slide)
    requires c.pdf.Valid()
    modifies c.pdf
    ensures c.pdf.Valid() && c.pdf.log == old(c.pdf.log) + SlideEvents(i, slide)
  {
    if i > 0 {
      c.pdf.AddPage();
    } else {
      AppendEmpty(old(c.pdf.log));
    }
    c.AddTitle(SlideTitle(i), 16);
    ghost var before := c.pdf.log;
    var shapes := slide.shapes;
    var k := 0;
    while k < |shapes|
      invariant 0 <= k <= |shapes|
      invariant c.pdf.Valid() && c.pdf.log == before + ShapeBlocks(shapes[..k])
    {
      var sh := shapes[k];
      if sh.text.Some? && sh.text.value != [] && Strip(sh.text.value) != [] {
        c.AddText(sh.text.value);
      } else {
        AppendEmpty(c.pdf.log);
      }
      ShapeBlocksStep(shapes, k, before, c.pdf.log);
      k := k + 1;
    }
    assert shapes[..k] == shapes;
    SlideEventsAppend(old(c.pdf.log), i, slide, c.pdf.log);
  }

  // ---------------------------------------------------------------------
  // Failures

  /** The optional libraries, each behind an availability flag. */
  datatype Library = PythonDocx | Openpyxl | PythonPptx | BeautifulSoup | Pypandoc | PyPdf2

  /** Which `*_AVAILABLE` flags the imports set. */
  datatype Capabilities = Capabilities(
    docx: bool, excel: bool, pptx: bool, bs4: bool, pandoc: bool, pypdf2: bool)

  predicate Available(caps: Capabilities, lib: Library) {
    match lib
    case PythonDocx => caps.docx
    case Openpyxl => caps.excel
    case PythonPptx => caps.pptx
    case BeautifulSoup => caps.bs4
    case Pypandoc => caps.pandoc
    case PyPdf2 => caps.pypdf2
  }

  /** The formats `convert_to_pdf` knows, in the order it tries them. */
  datatype Kind = Docx | Xlsx | Pptx | Csv | Txt | Html | Rtf | Pdf

  /** What a conversion raises: `ImportError` for a missing library, whatever
      the parsing library raises on a malformed input, what FPDF raises when a
      drawing call gets `None` for its text, and `ValueError` for an unknown
      type (carrying the MIME string of its message). */
  datatype Error =
    | MissingLibrary(lib: Library)
    | ParseFailed(kind: Kind)
    | DrawFailed(kind: Kind)
    | Unsupported(mime: string)

  // ---------------------------------------------------------------------
  // The extractors

  /** `txt_to_pdf` on the decoded text: never fails in this event-log model.
      The Latin-1 encoding of the output, which fails on the title, is left
      out. */
  method TxtToPdf(text: string) returns (log: seq<Event>)
    ensures log == TxtEvents(text)
  {
    var c := new PdfConverter();
    c.AddTitle(TxtTitle, 16);
    var lines := Split(text, '\n');
    var i := 0;
    while i < |lines|
      invariant 0 <= i <= |lines|
      invariant c.pdf.Valid() && c.pdf.log == Prelude + TitleEvents(TxtTitle, 16) + TextBlocks(lines[..i])
    {
      c.AddText(lines[i]);
      TextBlocksStep(lines, i, Prelude + TitleEvents(TxtTitle, 16), c.pdf.log);
      i := i + 1;
    }
    assert lines[..i] == lines;
    log := c.pdf.log;
  }

  /** `docx_to_pdf`: the availability guard, then python-docx's parse (`None`
      when it raises), then the paragraphs and the tables. */
  method DocxToPdf(caps: Capabilities, doc: Option<DocxDocument>) returns (r: Result<seq<Event>, Error>)
    ensures !caps.docx ==> r == Err(MissingLibrary(PythonDocx))
    ensures caps.docx && doc.None? ==> r == Err(ParseFailed(Docx))
    ensures caps.docx && doc.Some? ==> r == Ok(DocxEvents(doc.value))
  {
    if !caps.docx {
      return Err(MissingLibrary(PythonDocx));
    }
    if doc.None? {
      return Err(ParseFailed(Docx));
    }
    var d := doc.value;
    var c := new PdfConverter();
    var i := 0;
    while i < |d.paragraphs|
      invariant 0 <= i <= |d.paragraphs|
      invariant c.pdf.Valid() && c.pdf.log == Prelude + ParagraphBlocks(d.paragraphs[..i])
    {
      ghost var start := c.pdf.log;
      var p := d.paragraphs[i];
      var font := if StartsWith(p.style, "Heading") then Font(true, 14) else Regular12;
      c.pdf.SetFont(font);
      c.AddText(p.text);
      AppendAssoc(start, [SetFont(font)], TextEvents(p.text));
      ParagraphBlocksStep(d.paragraphs, i, Prelude, c.pdf.log);
      i := i + 1;
    }
    assert d.paragraphs[..i] == d.paragraphs;
    var t := 0;
    while t < |d.tables|
      invariant 0 <= t <= |d.tables|
      invariant c.pdf.Valid()
      invariant c.pdf.log == Prelude + ParagraphBlocks(d.paragraphs) + TableBlocks(d.tables[..t])
    {
      var table := d.tables[t];
      c.pdf.Ln(Some(5));
      DrawRows(c.pdf, DocxCell, table, 40.0, true);
      TableBlocksStep(d.tables, t, Prelude + ParagraphBlocks(d.paragraphs), c.pdf.log);
      t := t + 1;
    }
    assert d.tables[..t] == d.tables;
    return Ok(c.pdf.log);
  }

  /** `xlsx_to_pdf`: the availability guard, openpyxl's parse, then each
      sheet in workbook order. */
  method XlsxToPdf(caps: Capabilities, book: Option<seq<Sheet>>) returns (r: Result<seq<Event>, Error>)
    ensures !caps.excel ==> r == Err(MissingLibrary(Openpyxl))
    ensures caps.excel && book.None? ==> r == Err(ParseFailed(Xlsx))
    ensures caps.excel && book.Some? ==> r == Ok(XlsxEvents(book.value))
  {
    if !caps.excel {
      return Err(MissingLibrary(Openpyxl));
    }
    if book.None? {
      return Err(ParseFailed(Xlsx));
    }
    var sheets := book.value;
    var lastName := LastName(sheets);
    var c := new PdfConverter();
    var i := 0;
    while i < |sheets|
      invariant 0 <= i <= |sheets|
      invariant c.pdf.Valid() && c.pdf.log == Prelude + SheetBlocks(sheets[..i], lastName)
    {
      DrawSheet(c, sheets[i], lastName);
      SheetBlocksStep(sheets, i, lastName, Prelude, c.pdf.log);
      i := i + 1;
    }
    assert sheets[..i] == sheets;
    return Ok(c.pdf.log);
  }

  /** `pptx_to_pdf`: the availability guard, python-pptx's parse, then each
      slide in deck order. */
  method PptxToPdf(caps: Capabilities, deck: Option<seq<Slide>>) returns (r: Result<seq<Event>, Error>)
    ensures !caps.pptx ==> r == Err(MissingLibrary(PythonPptx))
    ensures caps.pptx && deck.None? ==> r == Err(ParseFailed(Pptx))
    ensures caps.pptx && deck.Some? ==> r == Ok(PptxEvents(deck.value))
  {
    if !caps.pptx {
      return Err(MissingLibrary(PythonPptx));
    }
    if deck.None? {
      return Err(ParseFailed(Pptx));
    }
    var slides := deck.value;
    var c := new PdfConverter();
    var i := 0;
    while i < |slides|
      invariant 0 <= i <= |slides|
      invariant c.pdf.Valid() && c.pdf.log == Prelude + SlideBlocks(slides[..i])
    {
      DrawSlide(c, i, slides[i]);
      SlideBlocksStep(slides, i, Prelude, c.pdf.log);
      i := i + 1;
    }
    assert slides[..i] == slides;
    return Ok(c.pdf.log);
  }

  /** `html_to_pdf`: the availability guard, then the title and the
      non-blank lines of what BeautifulSoup extracted. A title element
      without a string hands `None` to `add_title`, and FPDF's `cell` raises
      on it. */
  method HtmlToPdf(caps: Capabilities, soup: Soup) returns (r: Result<seq<Event>, Error>)
    ensures !caps.bs4 ==> r == Err(MissingLibrary(BeautifulSoup))
    ensures caps.bs4 && soup.title.NoString? ==> r == Err(DrawFailed(Html))
    ensures caps.bs4 && !soup.title.NoString? ==> r == Ok(HtmlEvents(HtmlTitle(soup.title).value, soup.text))
  {
    if !caps.bs4 {
      return Err(MissingLibrary(BeautifulSoup));
    }
    var c := new PdfConverter();
    if soup.title.NoString? {
      return Err(DrawFailed(Html));
    }
    var title := if soup.title.TitleString? then soup.title.text else DefaultHtmlTitle;
    c.AddTitle(title, 16);
    var lines := Split(soup.text, '\n');
    var i := 0;
    while i < |lines|
      invariant 0 <= i <= |lines|
      invariant c.pdf.Valid() && c.pdf.log == Prelude + TitleEvents(title, 16) + HtmlLines(lines[..i])
    {
      if Strip(lines[i]) != [] {
        c.AddText(lines[i]);
      } else {
        AppendEmpty(c.pdf.log);
      }
      HtmlLinesStep(lines, i, Prelude + TitleEvents(title, 16), c.pdf.log);
      i := i + 1;
    }
    assert lines[..i] == lines;
    return Ok(c.pdf.log);
  }

  /** `csv_to_pdf`: pandas' parse (`None` when `read_csv` raises), then the
      title, the bold header row and the data rows at one shared width.
      There is no availability guard. */
  method CsvToPdf(frame: Option<Frame>) returns (r: Result<seq<Event>, Error>)
    ensures frame.None? ==> r == Err(ParseFailed(Csv))
    ensures frame.Some? ==> r == Ok(CsvEvents(frame.value))
  {
    if frame.None? {
      return Err(ParseFailed(Csv));
    }
    var f := frame.value;
    var c := new PdfConverter();
    c.AddTitle(CsvTitle, 16);
    c.pdf.SetFont(Font(true, 12));
    ghost var start := c.pdf.log;
    var width := ColumnWidth(|f.columns|);
    DrawCells(c.pdf, CsvCell, f.columns, width);
    c.pdf.Ln(None);
    AppendAssoc(start, RowCells(CsvCell, f.columns, width), [Ln(None)]);
    c.pdf.SetFont(Regular10);
    DrawRows(c.pdf, CsvCell, f.rows, width, false);
    return Ok(c.pdf.log);
  }

  /** `rtf_to_pdf`: the availability guard, pandoc's plain-text conversion
      (`None` when it raises), then one paragraph per line. */
  method RtfToPdf(caps: Capabilities, plain: Option<string>) returns (r: Result<seq<Event>, Error>)
    ensures !caps.pandoc ==> r == Err(MissingLibrary(Pypandoc))
    ensures caps.pandoc && plain.None? ==> r == Err(ParseFailed(Rtf))
    ensures caps.pandoc && plain.Some? ==> r == Ok(RtfEvents(plain.value))
  {
    if !caps.pandoc {
      return Err(MissingLibrary(Pypandoc));
    }
    if plain.None? {
      return Err(ParseFailed(Rtf));
    }
    var c := new PdfConverter();
    c.AddTitle(RtfTitle, 16);
    var lines := Split(plain.value, '\n');
    var i := 0;
    while i < |lines|
      invariant 0 <= i <= |lines|
      invariant c.pdf.Valid() && c.pdf.log == Prelude + TitleEvents(RtfTitle, 16) + TextBlocks(lines[..i])
    {
      c.AddText(lines[i]);
      TextBlocksStep(lines, i, Prelude + TitleEvents(RtfTitle, 16), c.pdf.log);
      i := i + 1;
    }
    assert lines[..i] == lines;
    return Ok(c.pdf.log);
  }

  /** `pdf_to_pdf`: the availability guard, then the input unchanged. */
  function PdfToPdf(caps: Capabilities, data: Bytes): (r: Result<Bytes, Error>)
    ensures !caps.pypdf2 <==> r == Err(MissingLibrary(PyPdf2))
    ensures caps.pypdf2 ==> r == Ok(data)
  {
    if !caps.pypdf2 then Err(MissingLibrary(PyPdf2)) else Ok(data)
  }

  // ---------------------------------------------------------------------
  // The dispatch

  /** The MIME type each format answers to. */
  function Mime(k: Kind): string {
    match k
    case Docx => "application/vnd.openxmlformats-officedocument.wordprocessingml.document"
    case Xlsx => "application/vnd.openxmlformats-officedocument.spreadsheetml.sheet"
    case Pptx => "application/vnd.openxmlformats-officedocument.presentationml.presentation"
    case Csv => "text/csv"
    case Txt => "text/plain"
    case Html => "text/html"
    case Rtf => "application/rtf"
    case Pdf => "application/pdf"
  }

  /** Whether a lower-cased file name ends in one of the format's suffixes. */
  predicate NameClaims(k: Kind, lowerName: string) {
    match k
    case Docx => EndsWith(lowerName, ".docx")
    case Xlsx => EndsWith(lowerName, ".xlsx")
    case Pptx => EndsWith(lowerName, ".pptx")
    case Csv => EndsWith(lowerName, ".csv")
    case Txt => EndsWith(lowerName, ".txt")
    case Html => EndsWith(lowerName, ".html") || EndsWith(lowerName, ".htm")
    case Rtf => EndsWith(lowerName, ".rtf")
    case Pdf => EndsWith(lowerName, ".pdf")
  }

  /** The order in which `convert_to_pdf` asks the formats. */
  const Order: seq<Kind> := [Docx, Xlsx, Pptx, Csv, Txt, Html, Rtf, Pdf]

  /** Format `k` claims a file whose MIME type is its own or whose lower-cased
      name ends in one of its suffixes. */
  predicate Claims(k: Kind, mime: string, lowerName: string) {
    mime == Mime(k) || NameClaims(k, lowerName)
  }

  /** The first of `kinds` that `claims` accepts: the reference reading of an
      if/elif chain. */
  function FirstMatch(kinds: seq<Kind>, claims: Kind -> bool): Option<Kind> {
    if kinds == [] then None
    else if claims(kinds[0]) then Some(kinds[0])
    else FirstMatch(kinds[1..], claims)
  }

  /** The first format in `Order` that claims the file. */
  function FirstClaim(mime: string, lowerName: string): Option<Kind> {
    FirstMatch(Order, k => Claims(k, mime, lowerName))
  }

  /** The if/elif chain of `convert_to_pdf`, on the MIME type exactly and on
      the lower-cased file name. */
  function Classify(mime: string, name: string): Option<Kind> {
    ClassifyLower(mime, Lower(name))
  }

  function ClassifyLower(mime: string, lowerName: string): Option<Kind> {
    Chain(k => Claims(k, mime, lowerName))
  }

  /** The if/elif chain itself, for any claim test. */
  function Chain(claims: Kind -> bool): Option<Kind> {
    if claims(Docx) then Some(Docx)
    else if claims(Xlsx) then Some(Xlsx)
    else if claims(Pptx) then Some(Pptx)
    else if claims(Csv) then Some(Csv)
    else if claims(Txt) then Some(Txt)
    else if claims(Html) then Some(Html)
    else if claims(Rtf) then Some(Rtf)
    else if claims(Pdf) then Some(Pdf)
    else None
  }

  /** What the parsing libraries make of the input bytes, one view per format
      (`None` where the library raises), and the UTF-8 decoding with
      replacement that the text and HTML paths use. */
  datatype Views = Views(
    docx: Option<DocxDocument>, workbook: Option<seq<Sheet>>, deck: Option<seq<Slide>>,
    frame: Option<Frame>, text: string, soup: Soup, plain: Option<string>)

  /** A conversion yields either a drawn document or, for PDF, the input. */
  datatype Output = Rendered(log: seq<Event>) | Copied(bytes: Bytes)

  /** The library each extractor checks before it parses. */
  function Required(k: Kind): Option<Library> {
    match k
    case Docx => Some(PythonDocx)
    case Xlsx => Some(Openpyxl)
    case Pptx => Some(PythonPptx)
    case Csv => None
    case Txt => None
    case Html => Some(BeautifulSoup)
    case Rtf => Some(Pypandoc)
    case Pdf => Some(PyPdf2)
  }

  /** What an extractor does once its library is present. */
  function Draw(k: Kind, views: Views, data: Bytes): Result<Output, Error> {
    match k
    case Docx => if views.docx.None? then Err(ParseFailed(Docx)) else Ok(Rendered(DocxEvents(views.docx.value)))
    case Xlsx => if views.workbook.None? then Err(ParseFailed(Xlsx)) else Ok(Rendered(XlsxEvents(views.workbook.value)))
    case Pptx => if views.deck.None? then Err(ParseFailed(Pptx)) else Ok(Rendered(PptxEvents(views.deck.value)))
    case Csv => if views.frame.None? then Err(ParseFailed(Csv)) else Ok(Rendered(CsvEvents(views.frame.value)))
    case Txt => Ok(Rendered(TxtEvents(views.text)))
    case Html =>
      var title := HtmlTitle(views.soup.title);
      if title.None? then Err(DrawFailed(Html)) else Ok(Rendered(HtmlEvents(title.value, views.soup.text)))
    case Rtf => if views.plain.None? then Err(ParseFailed(Rtf)) else Ok(Rendered(RtfEvents(views.plain.value)))
    case Pdf => Ok(Copied(data))
  }

  /** An extractor: the availability guard, then the drawing. */
  function Extract(k: Kind, caps: Capabilities, views: Views, data: Bytes): Result<Output, Error> {
    if Required(k).Some? && !Available(caps, Required(k).value)
    then Err(MissingLibrary(Required(k).value))
    else Draw(k, views, data)
  }

  /** `convert_to_pdf`: the first claiming format's extractor, or
      `ValueError` naming the MIME type. */
  function Convert(caps: Capabilities, views: Views, data: Bytes, mime: string, name: string): Result<Output, Error> {
    Dispatch(Classify(mime, name), caps, views, data, mime)
  }

  /** The extractor of the format found, or `ValueError` naming the MIME type
      when none was. */
  function Dispatch(kind: Option<Kind>, caps: Capabilities, views: Views, data: Bytes, mime: string): Result<Output, Error> {
    match kind
    case None => Err(Unsupported(mime))
    case Some(k) => Extract(k, caps, views, data)
  }

  function Lift(r: Result<seq<Event>, Error>): Result<Output, Error> {
    match r
    case Ok(log) => Ok(Rendered(log))
    case Err(e) => Err(e)
  }

  /** `convert_to_pdf` as the script runs it: classify, then call one
      extractor; every failure propagates unchanged. */
  method ConvertToPdf(caps: Capabilities, views: Views, data: Bytes, mime: string, name: string)
    returns (r: Result<Output, Error>)
    ensures r == Convert(caps, views, data, mime, name)
  {
    var kind := Classify(mime, name);
    if kind.None? {
      r := Err(Unsupported(mime));
    } else {
      r := RunExtractor(kind.value, caps, views, data);
    }
  }

  /** The extractor call of one branch of the chain. */
  method RunExtractor(k: Kind, caps: Capabilities, views: Views, data: Bytes) returns (r: Result<Output, Error>)
    ensures r == Extract(k, caps, views, data)
  {
    match k
    case Docx =>
      var d := DocxToPdf(caps, views.docx);
      r := Lift(d);
    case Xlsx =>
      var d := XlsxToPdf(caps, views.workbook);
      r := Lift(d);
    case Pptx =>
      var d := PptxToPdf(caps, views.deck);
      r := Lift(d);
    case Csv =>
      var d := CsvToPdf(views.frame);
      r := Lift(d);
    case Txt =>
      var log := TxtToPdf(views.text);
      r := Ok(Rendered(log));
    case Html =>
      var d := HtmlToPdf(caps, views.soup);
      r := Lift(d);
    case Rtf =>
      var d := RtfToPdf(caps, views.plain);
      r := Lift(d);
    case Pdf =>
      match PdfToPdf(caps, data)
      case Ok(bytes) => r := Ok(Copied(bytes));
      case Err(e) => r := Err(e);
  }

  // ---------------------------------------------------------------------
  // Properties of the dispatch

  /** The first match is the earliest accepted format, and nothing is found
      exactly when nothing is accepted. */
  lemma {:induction false} FirstMatchAt(kinds: seq<Kind>, i: nat, claims: Kind -> bool)
    requires i < |kinds| && claims(kinds[i])
    requires forall j :: 0 <= j < i ==> !claims(kinds[j])
    ensures FirstMatch(kinds, claims) == Some(kinds[i])
  {
    if i > 0 {
      assert !claims(kinds[0]);
      FirstMatchAt(kinds[1..], i - 1, claims);
    }
  }

  lemma {:induction false} FirstMatchNone(kinds: seq<Kind>, claims: Kind -> bool)
    ensures FirstMatch(kinds, claims) == None <==> forall j :: 0 <= j < |kinds| ==> !claims(kinds[j])
  {
    if kinds != [] {
      FirstMatchNone(kinds[1..], claims);
      assert forall j :: 1 <= j < |kinds| ==> kinds[j] == kinds[1..][j - 1];
    }
  }

  /** The if/elif chain is the first claim in `Order`. */
  lemma ClassifyIsFirstClaim(mime: string, name: string)
    ensures Classify(mime, name) == FirstClaim(mime, Lower(name))
  {
    ChainIsFirstMatch(k => Claims(k, mime, Lower(name)));
  }

  lemma ChainIsFirstMatch(c: Kind -> bool)
    ensures Chain(c) == FirstMatch(Order, c)
  {
    var o1 := Order[1..];
    var o2 := o1[1..];
    var o3 := o2[1..];
    var o4 := o3[1..];
    var o5 := o4[1..];
    var o6 := o5[1..];
    var o7 := o6[1..];
    assert o1 == [Xlsx, Pptx, Csv, Txt, Html, Rtf, Pdf];
    assert o2 == [Pptx, Csv, Txt, Html, Rtf, Pdf];
    assert o3 == [Csv, Txt, Html, Rtf, Pdf];
    assert o4 == [Txt, Html, Rtf, Pdf];
    assert o5 == [Html, Rtf, Pdf];
    assert o6 == [Rtf, Pdf];
    assert o7 == [Pdf] && o7[1..] == [];
    assert FirstMatch(Order, c) == if c(Docx) then Some(Docx) else FirstMatch(o1, c);
    assert FirstMatch(o1, c) == if c(Xlsx) then Some(Xlsx) else FirstMatch(o2, c);
    assert FirstMatch(o2, c) == if c(Pptx) then Some(Pptx) else FirstMatch(o3, c);
    assert FirstMatch(o3, c) == if c(Csv) then Some(Csv) else FirstMatch(o4, c);
    assert FirstMatch(o4, c) == if c(Txt) then Some(Txt) else FirstMatch(o5, c);
    assert FirstMatch(o5, c) == if c(Html) then Some(Html) else FirstMatch(o6, c);
    assert FirstMatch(o6, c) == if c(Rtf) then Some(Rtf) else FirstMatch(o7, c);
    assert FirstMatch(o7, c) == if c(Pdf) then Some(Pdf) else None;
  }

  /** The position of each format in `Order`. */
  function Rank(k: Kind): (i: nat)
    ensures i < |Order| && Order[i] == k
  {
    match k
    case Docx => 0
    case Xlsx => 1
    case Pptx => 2
    case Csv => 3
    case Txt => 4
    case Html => 5
    case Rtf => 6
    case Pdf => 7
  }

  /** What `FirstMatch` finds is one of the candidates. */
  lemma {:induction false} FirstMatchMember(kinds: seq<Kind>, claims: Kind -> bool)
    ensures FirstMatch(kinds, claims).Some? ==> FirstMatch(kinds, claims).value in kinds
  {
    if kinds != [] && !claims(kinds[0]) {
      FirstMatchMember(kinds[1..], claims);
    }
  }

  /** Among distinct candidates, the one found is accepted and every earlier
      one is refused. */
  lemma {:induction false} FirstMatchFirst(kinds: seq<Kind>, i: nat, claims: Kind -> bool)
    requires i < |kinds| && forall a, b :: 0 <= a < b < |kinds| ==> kinds[a] != kinds[b]
    requires FirstMatch(kinds, claims) == Some(kinds[i])
    ensures claims(kinds[i]) && forall j :: 0 <= j < i ==> !claims(kinds[j])
  {
    if !claims(kinds[0]) {
      var rest := kinds[1..];
      FirstMatchMember(rest, claims);
      if i == 0 {
        assert false;
      }
      FirstMatchFirst(rest, i - 1, claims);
      assert forall j :: 1 <= j < i ==> kinds[j] == rest[j - 1];
    } else if i > 0 {
      assert false;
    }
  }

  /** The chain picks a format exactly when its test accepts it and refuses
      every format tried before it; it finds nothing exactly when the test
      refuses every format. */
  lemma ChainSome(c: Kind -> bool, k: Kind)
    ensures Chain(c) == Some(k) <==> c(k) && forall j :: 0 <= j < Rank(k) ==> !c(Order[j])
  {
    ChainIsFirstMatch(c);
    if Chain(c) == Some(k) {
      FirstMatchFirst(Order, Rank(k), c);
    }
    if c(k) && forall j :: 0 <= j < Rank(k) ==> !c(Order[j]) {
      FirstMatchAt(Order, Rank(k), c);
    }
  }

  lemma ChainNone(c: Kind -> bool)
    ensures Chain(c) == None <==> forall k :: !c(k)
  {
    ChainIsFirstMatch(c);
    FirstMatchNone(Order, c);
    if Chain(c) == None {
      forall k ensures !c(k) {
        assert Order[Rank(k)] == k;
      }
    }
  }

  /** `convert_to_pdf` picks a format exactly when it claims the file and no
      format tried before it does. */
  lemma ClassifySome(mime: string, name: string, k: Kind)
    ensures Classify(mime, name) == Some(k) <==>
      Claims(k, mime, Lower(name)) && forall j :: 0 <= j < Rank(k) ==> !Claims(Order[j], mime, Lower(name))
  {
    ChainSome(k => Claims(k, mime, Lower(name)), k);
  }

  /** `convert_to_pdf` raises `ValueError` exactly when no format claims the
      file. */
  lemma ClassifyNone(mime: string, name: string)
    ensures Classify(mime, name) == None <==> forall k :: !Claims(k, mime, Lower(name))
  {
    var c := k => Claims(k, mime, Lower(name));
    ChainNone(c);
    if Classify(mime, name) == None {
      forall k ensures !Claims(k, mime, Lower(name)) {
        assert !c(k);
      }
    } else {
      var k := Classify(mime, name).value;
      ChainSome(c, k);
      assert Claims(k, mime, Lower(name));
      assert exists k' :: Claims(k', mime, Lower(name));
    }
  }

  // ----- Conversions

  /** The unsupported-type error comes from the dispatch alone, and from it
      exactly when no format claims the file. */
  lemma DispatchUnsupported(kind: Option<Kind>, caps: Capabilities, views: Views, data: Bytes, mime: string)
    ensures Dispatch(kind, caps, views, data, mime) == Err(Unsupported(mime)) <==> kind == None
  {
    if kind.Some? {
      var k := kind.value;
      match k
      case Docx =>
      case Xlsx =>
      case Pptx =>
      case Csv =>
      case Txt =>
      case Html =>
      case Rtf =>
      case Pdf =>
    }
  }

  /** A missing library is reported before the input is looked at: the result
      is the same whatever the parsers would make of the bytes. */
  lemma GuardBeforeParse(k: Kind, caps: Capabilities, v1: Views, v2: Views, data: Bytes, mime: string)
    requires Required(k).Some? && !Available(caps, Required(k).value)
    ensures Dispatch(Some(k), caps, v1, data, mime) == Err(MissingLibrary(Required(k).value))
    ensures Dispatch(Some(k), caps, v1, data, mime) == Dispatch(Some(k), caps, v2, data, mime)
  {
  }

  /** CSV and plain text need no optional library. */
  lemma UnguardedFormats(k: Kind, caps: Capabilities, views: Views, data: Bytes, mime: string)
    requires k == Csv || k == Txt
    ensures !Dispatch(Some(k), caps, views, data, mime).Err? || !Dispatch(Some(k), caps, views, data, mime).error.MissingLibrary?
  {
  }

  /** A PDF input comes back unchanged when PyPDF2 is importable. */
  lemma PdfPassthrough(caps: Capabilities, views: Views, data: Bytes, mime: string)
    requires caps.pypdf2
    ensures Dispatch(Some(Pdf), caps, views, data, mime) == Ok(Copied(data))
  {
  }

  /** With BeautifulSoup present, an HTML conversion fails exactly when the
      title element has no string. Otherwise its only title line is the
      element's string, or "HTML Belgesi" when there is no element, followed
      by the sanitised non-blank lines of the extracted text. */
  lemma HtmlTitleCases(caps: Capabilities, views: Views, data: Bytes, mime: string)
    requires caps.bs4
    ensures var r := Dispatch(Some(Html), caps, views, data, mime);
      (r.Err? <==> views.soup.title.NoString?)
      && (r.Err? ==> r.error == DrawFailed(Html))
      && (r.Ok? ==>
            r.value.Rendered?
            && Titles(r.value.log) == [if views.soup.title.TitleString? then views.soup.title.text else DefaultHtmlTitle]
            && Paragraphs(r.value.log) == NonBlankLines(Split(views.soup.text, '\n'))
            && Pages(r.value.log) == 1)
  {
    if !views.soup.title.NoString? {
      HtmlShape(HtmlTitle(views.soup.title).value, views.soup.text);
    }
  }

  lemma PreludeFirst(rest: seq<Event>)
    ensures |Prelude + rest| >= 3 && (Prelude + rest)[..3] == Prelude
    ensures Pages(Prelude + rest) >= 1
  {
    PagesConcat(Prelude, rest);
    PreludeObservations();
  }

  /** Every drawn document starts with the `PDFConverter` set-up, so it has at
      least one page. */
  lemma RenderedOpensPage(kind: Option<Kind>, caps: Capabilities, views: Views, data: Bytes, mime: string)
    requires Dispatch(kind, caps, views, data, mime).Ok? && Dispatch(kind, caps, views, data, mime).value.Rendered?
    ensures var log := Dispatch(kind, caps, views, data, mime).value.log;
      |log| >= 3 && log[..3] == Prelude && Pages(log) >= 1
  {
    var k := kind.value;
    match k
    case Docx =>
      var d := views.docx.value;
      AppendAssoc(Prelude, ParagraphBlocks(d.paragraphs), TableBlocks(d.tables));
      PreludeFirst(ParagraphBlocks(d.paragraphs) + TableBlocks(d.tables));
    case Xlsx =>
      PreludeFirst(SheetBlocks(views.workbook.value, LastName(views.workbook.value)));
    case Pptx =>
      PreludeFirst(SlideBlocks(views.deck.value));
    case Csv =>
      var f := views.frame.value;
      var w := ColumnWidth(|f.columns|);
      var t := TitleEvents(CsvTitle, 16);
      var a, b, c, d := [SetFont(Font(true, 12))], RowEvents(CsvCell, f.columns, w), [SetFont(Regular10)], Rows(CsvCell, f.rows, w, []);
      AppendAssoc(Prelude, t, a);
      AppendAssoc(Prelude, t + a, b);
      AppendAssoc(Prelude, t + a + b, c);
      AppendAssoc(Prelude, t + a + b + c, d);
      PreludeFirst(t + a + b + c + d);
    case Txt =>
      AppendAssoc(Prelude, TitleEvents(TxtTitle, 16), TextBlocks(Split(views.text, '\n')));
      PreludeFirst(TitleEvents(TxtTitle, 16) + TextBlocks(Split(views.text, '\n')));
    case Html =>
      var soup := views.soup;
      var t := TitleEvents(HtmlTitle(soup.title).value, 16);
      AppendAssoc(Prelude, t, HtmlLines(Split(soup.text, '\n')));
      PreludeFirst(t + HtmlLines(Split(soup.text, '\n')));
    case Rtf =>
      var text := views.plain.value;
      AppendAssoc(Prelude, TitleEvents(RtfTitle, 16), TextBlocks(Split(text, '\n')));
      PreludeFirst(TitleEvents(RtfTitle, 16) + TextBlocks(Split(text, '\n')));
    case Pdf =>
      assert false;
  }
}
