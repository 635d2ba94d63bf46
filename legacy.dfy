/** doc_converter.py: the older converter. Each extractor builds its own FPDF
    document and draws on it directly (no PDFConverter wrapper); tables take
    the page width in equal shares and clip only their data cells; the
    dispatch compares file-name suffixes case-sensitively, checks the DOCX
    and Excel libraries itself, and knows neither PPTX nor PDF. */
module LegacyConverter {
  import opened Wrappers
  import opened Text
  import opened Render
  import opened ConverterEvents
  import opened Cleaners
  import C = Converter

  // ---------------------------------------------------------------------
  // Inputs and failures

  /** One worksheet of `pd.read_excel(path, sheet_name=None)`: its name and
      its data frame. */
  datatype NamedFrame = NamedFrame(name: string, frame: Frame)

  /** What the parsers and the decoding make of the input bytes (`None`
      where they raise): python-docx's paragraphs, pandas' worksheets and
      CSV frame, the strict UTF-8 text of the TXT and HTML paths, and the
      RTF text decoded with errors ignored. */
  datatype Inputs = Inputs(
    paragraphs: Option<seq<Paragraph>>, book: Option<seq<NamedFrame>>, frame: Option<Frame>,
    text: Option<string>, html: Option<string>, rtf: string)

  /** What a conversion raises: `ImportError` from the dispatcher, whatever
      the parser or the decoder raises, `ZeroDivisionError` for a table
      without columns, and `ValueError` for an unknown type. */
  datatype Failure =
    | Missing(lib: C.Library)
    | Unreadable(kind: C.Kind)
    | NoColumns(kind: C.Kind)
    | NotSupported(mime: string)

  // ---------------------------------------------------------------------
  // Tables: csv_to_pdf and each sheet of xlsx_to_pdf

  /** `pdf.w` of FPDF's default page, A4 portrait: 595.28 pt in millimetres. */
  const PageWidth: real := 595.28 * 25.4 / 72.0

  /** `pdf.w / len(df.columns)`: the columns share the page width equally. */
  function ColumnShare(columns: nat): (w: real)
    requires columns > 0
    ensures w > 0.0 && w * columns as real == PageWidth
  {
    PageWidth / columns as real
  }

  /** Header cells are `str(col)`, drawn as they are. */
  function Verbatim(s: string): string {
    s
  }

  /** A new page, the bold 16pt title line, a 5 mm gap, bold 12pt for the
      header. */
  function TableHead(title: string): seq<Event> {
    [AddPage, SetFont(Font(true, 16)), Cell(0.0, 10, title, false, true), Ln(Some(5)), SetFont(Font(true, 12))]
  }

  /** The header row, then the data rows at regular 10pt with long values
      cut to twelve characters and an ellipsis. */
  function TableBody(frame: Frame): seq<Event>
    requires |frame.columns| > 0
  {
    var w := ColumnShare(|frame.columns|);
    RowEvents(Verbatim, frame.columns, w) + [SetFont(Regular10)] + Rows(Ellipsize, frame.rows, w, [])
  }

  function TableBlock(title: string, frame: Frame): seq<Event>
    requires |frame.columns| > 0
  {
    TableHead(title) + TableBody(frame)
  }

  method DrawHead(pdf: Fpdf, title: string)
    requires pdf.Valid()
    modifies pdf
    ensures pdf.Valid() && pdf.log == old(pdf.log) + TableHead(title)
  {
    pdf.AddPage();
    pdf.SetFont(Font(true, 16));
    pdf.Cell(0.0, 10, title, false, true);
    pdf.Ln(Some(5));
    pdf.SetFont(Font(true, 12));
  }

  method DrawBody(pdf: Fpdf, frame: Frame)
    requires pdf.Valid() && |frame.columns| > 0
    modifies pdf
    ensures pdf.Valid() && pdf.log == old(pdf.log) + TableBody(frame)
  {
    var w := PageWidth / |frame.columns| as real;
    C.DrawCells(pdf, Verbatim, frame.columns, w);
    pdf.Ln(None);
    pdf.SetFont(Regular10);
    C.DrawRows(pdf, Ellipsize, frame.rows, w, false);
    var cells := RowCells(Verbatim, frame.columns, w);
    AppendAssoc(old(pdf.log), cells, [Ln(None)]);
    AppendAssoc(old(pdf.log), RowEvents(Verbatim, frame.columns, w), [SetFont(Regular10)]);
    AppendAssoc(old(pdf.log), RowEvents(Verbatim, frame.columns, w) + [SetFont(Regular10)],
                Rows(Ellipsize, frame.rows, w, []));
  }

  /** A titled table: the head is drawn before `pdf.w / len(df.columns)`
      is computed, which fails for a frame without columns. */
  method DrawTable(pdf: Fpdf, title: string, frame: Frame) returns (drawn: bool)
    requires pdf.Valid()
    modifies pdf
    ensures pdf.Valid() && drawn == (|frame.columns| > 0)
    ensures drawn ==> pdf.log == old(pdf.log) + TableBlock(title, frame)
  {
    DrawHead(pdf, title);
    if |frame.columns| == 0 {
      return false;
    }
    DrawBody(pdf, frame);
    AppendAssoc(old(pdf.log), TableHead(title), TableBody(frame));
    drawn := true;
  }

  /** `csv_to_pdf` on pandas' frame: the "CSV Verileri" table, or
      `ZeroDivisionError` when the frame has no column. */
  function CsvPage(frame: Frame): Result<seq<Event>, Failure> {
    if |frame.columns| == 0 then Err(NoColumns(C.Csv)) else Ok(TableBlock(CsvTitle, frame))
  }

  method CsvToPdf(frame: Frame) returns (r: Result<seq<Event>, Failure>)
    ensures r == CsvPage(frame)
  {
    var pdf := new Fpdf();
    var drawn := DrawTable(pdf, CsvTitle, frame);
    if !drawn {
      return Err(NoColumns(C.Csv));
    }
    AppendEmpty(TableBlock(CsvTitle, frame));
    r := Ok(pdf.log);
  }

  predicate AllHaveColumns(book: seq<NamedFrame>) {
    forall i :: 0 <= i < |book| ==> |book[i].frame.columns| > 0
  }

  /** The worksheets in workbook order, each a titled table on its own page. */
  function SheetTables(book: seq<NamedFrame>): seq<Event>
    requires AllHaveColumns(book)
  {
    if book == [] then []
    else
      var last := book[|book| - 1];
      SheetTables(book[..|book| - 1]) + TableBlock(SheetTitlePrefix + last.name, last.frame)
  }

  /** `xlsx_to_pdf`: every worksheet's table, or `ZeroDivisionError` as soon
      as one worksheet has no column (an empty sheet). */
  function XlsxPages(book: seq<NamedFrame>): Result<seq<Event>, Failure> {
    if exists i :: 0 <= i < |book| && |book[i].frame.columns| == 0 then Err(NoColumns(C.Xlsx))
    else Ok(SheetTables(book))
  }

  lemma SheetTablesStep(book: seq<NamedFrame>, i: nat, log: seq<Event>)
    requires i < |book| && AllHaveColumns(book[..i + 1])
    requires log == SheetTables(book[..i]) + TableBlock(SheetTitlePrefix + book[i].name, book[i].frame)
    ensures log == SheetTables(book[..i + 1])
  {
    var next := book[..i + 1];
    assert next[..|next| - 1] == book[..i] && next[|next| - 1] == book[i];
  }

  method XlsxToPdf(book: seq<NamedFrame>) returns (r: Result<seq<Event>, Failure>)
    ensures r == XlsxPages(book)
  {
    var pdf := new Fpdf();
    var i := 0;
    while i < |book|
      invariant 0 <= i <= |book|
      invariant AllHaveColumns(book[..i])
      invariant pdf.Valid() && pdf.log == SheetTables(book[..i])
    {
      var sheet := book[i];
      var drawn := DrawTable(pdf, SheetTitlePrefix + sheet.name, sheet.frame);
      if !drawn {
        return Err(NoColumns(C.Xlsx));
      }
      assert AllHaveColumns(book[..i + 1]) by {
        assert forall j :: 0 <= j < i + 1 ==> book[..i + 1][j] == book[j];
        assert forall j :: 0 <= j < i ==> book[..i][j] == book[j];
      }
      SheetTablesStep(book, i, pdf.log);
      i := i + 1;
    }
    assert book[..i] == book;
    r := Ok(pdf.log);
  }

  // ---------------------------------------------------------------------
  // docx_to_pdf

  /** A paragraph sets its style's font, then draws its sanitised text in a
      10 mm-high `multi_cell` unless the text is blank. */
  function StyledParagraph(p: Paragraph): seq<Event> {
    [SetFont(StyleFont(p.style))] + (if Strip(p.text) != [] then [MultiCell(10, Sanitize(p.text))] else [])
  }

  function StyledParagraphs(ps: seq<Paragraph>): seq<Event> {
    if ps == [] then []
    else StyledParagraphs(ps[..|ps| - 1]) + StyledParagraph(ps[|ps| - 1])
  }

  /** `docx_to_pdf`: a page, automatic page breaks with a 15 mm margin, then
      the paragraphs in document order. Tables are not read. */
  function DocxPages(ps: seq<Paragraph>): seq<Event> {
    [AddPage, SetAutoPageBreak(15)] + StyledParagraphs(ps)
  }

  /** One pass of the paragraph loop. */
  method DrawParagraph(pdf: Fpdf, p: Paragraph)
    requires pdf.Valid()
    modifies pdf
    ensures pdf.Valid() && pdf.log == old(pdf.log) + StyledParagraph(p)
  {
    if StartsWith(p.style, "Heading") {
      pdf.SetFont(Font(true, 14));
    } else {
      pdf.SetFont(Regular12);
    }
    if Strip(p.text) != [] {
      pdf.MultiCell(10, Sanitize(p.text));
    } else {
      AppendEmpty(pdf.log);
    }
    AppendAssoc(old(pdf.log), [SetFont(StyleFont(p.style))],
                if Strip(p.text) != [] then [MultiCell(10, Sanitize(p.text))] else []);
  }

  method DocxToPdf(ps: seq<Paragraph>) returns (log: seq<Event>)
    ensures log == DocxPages(ps)
  {
    var pdf := new Fpdf();
    pdf.AddPage();
    pdf.SetAutoPageBreak(15);
    ghost var start := pdf.log;
    var i := 0;
    while i < |ps|
      invariant 0 <= i <= |ps|
      invariant pdf.Valid() && pdf.log == start + StyledParagraphs(ps[..i])
    {
      DrawParagraph(pdf, ps[i]);
      assert ps[..i + 1][..i] == ps[..i];
      AppendAssoc(start, StyledParagraphs(ps[..i]), StyledParagraph(ps[i]));
      i := i + 1;
    }
    assert ps[..i] == ps;
    log := pdf.log;
  }

  // ---------------------------------------------------------------------
  // txt_to_pdf

  /** One sanitised, 8 mm-high `multi_cell` per line. */
  function LineCells(lines: seq<string>): seq<Event> {
    if lines == [] then []
    else LineCells(lines[..|lines| - 1]) + [MultiCell(8, Sanitize(lines[|lines| - 1]))]
  }

  /** `txt_to_pdf`: a page at regular 12pt, then every `\n`-separated line,
      empty ones included. */
  function TxtPage(text: string): seq<Event> {
    [AddPage, SetFont(Regular12)] + LineCells(Split(text, '\n'))
  }

  method TxtToPdf(text: string) returns (log: seq<Event>)
    ensures log == TxtPage(text)
  {
    var pdf := new Fpdf();
    pdf.AddPage();
    pdf.SetFont(Regular12);
    ghost var start := pdf.log;
    var lines := Split(text, '\n');
    var i := 0;
    while i < |lines|
      invariant 0 <= i <= |lines|
      invariant pdf.Valid() && pdf.log == start + LineCells(lines[..i])
    {
      pdf.MultiCell(8, Sanitize(lines[i]));
      assert lines[..i + 1][..i] == lines[..i];
      AppendAssoc(start, LineCells(lines[..i]), [MultiCell(8, Sanitize(lines[i]))]);
      i := i + 1;
    }
    assert lines[..i] == lines;
    log := pdf.log;
  }

  // ---------------------------------------------------------------------
  // html_to_pdf and rtf_to_pdf

  /** The title line, when the search found a title; it is not sanitised. */
  function TitleLine(title: Option<string>): seq<Event> {
    match title
    case None => []
    case Some(t) => [SetFont(Font(true, 16)), Cell(0.0, 10, t, false, true)]
  }

  /** `html_to_pdf`: a page, the title if any, then the whole cleaned text
      as one sanitised paragraph. */
  function HtmlPage(html: string): seq<Event> {
    [AddPage, SetFont(Regular12)] + TitleLine(TitleSearch(html))
    + [SetFont(Regular12), MultiCell(8, Sanitize(HtmlText(html)))]
  }

  method HtmlToPdf(html: string) returns (log: seq<Event>)
    ensures log == HtmlPage(html)
  {
    var pdf := new Fpdf();
    pdf.AddPage();
    pdf.SetFont(Regular12);
    var title := TitleSearch(html);
    if title.Some? {
      pdf.SetFont(Font(true, 16));
      pdf.Cell(0.0, 10, title.value, false, true);
    }
    var text := StripTags(html);
    text := Normalize(text);
    pdf.SetFont(Regular12);
    pdf.MultiCell(8, Sanitize(text));
    log := pdf.log;
  }

  /** `rtf_to_pdf`: a page with the cleaned text as one sanitised paragraph. */
  function RtfPage(rtf: string): seq<Event> {
    [AddPage, SetFont(Regular12), MultiCell(8, Sanitize(RtfText(rtf)))]
  }

  method RtfToPdf(rtf: string) returns (log: seq<Event>)
    ensures log == RtfPage(rtf)
  {
    var text := RemoveRtfHeader(rtf);
    text := ControlWords(text);
    text := RemoveBraces(text);
    text := Normalize(text);
    assert text == RtfText(rtf);
    var pdf := new Fpdf();
    pdf.AddPage();
    pdf.SetFont(Regular12);
    pdf.MultiCell(8, Sanitize(text));
    log := pdf.log;
  }

  // ---------------------------------------------------------------------
  // The dispatch

  /** The order in which this `convert_to_pdf` asks the formats. */
  const CasedOrder: seq<C.Kind> := [C.Docx, C.Xlsx, C.Csv, C.Txt, C.Html, C.Rtf]

  /** The if/elif chain for any claim test: PPTX and PDF have no branch. */
  function CasedChain(claims: C.Kind -> bool): (r: Option<C.Kind>)
    ensures r.Some? ==> claims(r.value) && r.value != C.Pptx && r.value != C.Pdf
  {
    if claims(C.Docx) then Some(C.Docx)
    else if claims(C.Xlsx) then Some(C.Xlsx)
    else if claims(C.Csv) then Some(C.Csv)
    else if claims(C.Txt) then Some(C.Txt)
    else if claims(C.Html) then Some(C.Html)
    else if claims(C.Rtf) then Some(C.Rtf)
    else None
  }

  /** The chain on the MIME type and the file name exactly as given: the
      suffix tests are case-sensitive. */
  function ClassifyCased(mime: string, name: string): Option<C.Kind> {
    CasedChain(k => C.Claims(k, mime, name))
  }

  /** One branch: DOCX and XLSX first check their library; then the
      extractor runs on what the parser or decoder produced. */
  function Run(k: C.Kind, caps: C.Capabilities, inputs: Inputs): (r: Result<seq<Event>, Failure>)
    requires k != C.Pptx && k != C.Pdf
    ensures r.Err? ==> !r.error.NotSupported?
  {
    match k
    case Docx =>
      if !caps.docx then Err(Missing(C.PythonDocx))
      else if inputs.paragraphs.None? then Err(Unreadable(C.Docx))
      else Ok(DocxPages(inputs.paragraphs.value))
    case Xlsx =>
      if !caps.excel then Err(Missing(C.Openpyxl))
      else if inputs.book.None? then Err(Unreadable(C.Xlsx))
      else XlsxPages(inputs.book.value)
    case Csv => if inputs.frame.None? then Err(Unreadable(C.Csv)) else CsvPage(inputs.frame.value)
    case Txt => if inputs.text.None? then Err(Unreadable(C.Txt)) else Ok(TxtPage(inputs.text.value))
    case Html => if inputs.html.None? then Err(Unreadable(C.Html)) else Ok(HtmlPage(inputs.html.value))
    case Rtf => Ok(RtfPage(inputs.rtf))
  }

  /** `convert_to_pdf`: the first claiming branch, or `ValueError`. */
  function Convert(caps: C.Capabilities, inputs: Inputs, mime: string, name: string): Result<seq<Event>, Failure> {
    match ClassifyCased(mime, name)
    case None => Err(NotSupported(mime))
    case Some(k) => Run(k, caps, inputs)
  }

  method ConvertToPdf(caps: C.Capabilities, inputs: Inputs, mime: string, name: string)
    returns (r: Result<seq<Event>, Failure>)
    ensures r == Convert(caps, inputs, mime, name)
  {
    var kind := ClassifyCased(mime, name);
    if kind.None? {
      return Err(NotSupported(mime));
    }
    match kind.value
    case Docx =>
      if !caps.docx {
        r := Err(Missing(C.PythonDocx));
      } else if inputs.paragraphs.None? {
        r := Err(Unreadable(C.Docx));
      } else {
        var log := DocxToPdf(inputs.paragraphs.value);
        r := Ok(log);
      }
    case Xlsx =>
      if !caps.excel {
        r := Err(Missing(C.Openpyxl));
      } else if inputs.book.None? {
        r := Err(Unreadable(C.Xlsx));
      } else {
        r := XlsxToPdf(inputs.book.value);
      }
    case Csv =>
      if inputs.frame.None? {
        r := Err(Unreadable(C.Csv));
      } else {
        r := CsvToPdf(inputs.frame.value);
      }
    case Txt =>
      if inputs.text.None? {
        r := Err(Unreadable(C.Txt));
      } else {
        var log := TxtToPdf(inputs.text.value);
        r := Ok(log);
      }
    case Html =>
      if inputs.html.None? {
        r := Err(Unreadable(C.Html));
      } else {
        var log := HtmlToPdf(inputs.html.value);
        r := Ok(log);
      }
    case Rtf =>
      var log := RtfToPdf(inputs.rtf);
      r := Ok(log);
  }

  // ---------------------------------------------------------------------
  // Properties of the dispatch

  lemma CasedChainIsFirstMatch(c: C.Kind -> bool)
    ensures CasedChain(c) == C.FirstMatch(CasedOrder, c)
  {
    var o1 := CasedOrder[1..];
    var o2 := o1[1..];
    var o3 := o2[1..];
    var o4 := o3[1..];
    var o5 := o4[1..];
    assert o1 == [C.Xlsx, C.Csv, C.Txt, C.Html, C.Rtf];
    assert o2 == [C.Csv, C.Txt, C.Html, C.Rtf];
    assert o3 == [C.Txt, C.Html, C.Rtf];
    assert o4 == [C.Html, C.Rtf];
    assert o5 == [C.Rtf] && o5[1..] == [];
    assert C.FirstMatch(CasedOrder, c) == if c(C.Docx) then Some(C.Docx) else C.FirstMatch(o1, c);
    assert C.FirstMatch(o1, c) == if c(C.Xlsx) then Some(C.Xlsx) else C.FirstMatch(o2, c);
    assert C.FirstMatch(o2, c) == if c(C.Csv) then Some(C.Csv) else C.FirstMatch(o3, c);
    assert C.FirstMatch(o3, c) == if c(C.Txt) then Some(C.Txt) else C.FirstMatch(o4, c);
    assert C.FirstMatch(o4, c) == if c(C.Html) then Some(C.Html) else C.FirstMatch(o5, c);
    assert C.FirstMatch(o5, c) == if c(C.Rtf) then Some(C.Rtf) else None;
  }

  /** Where neither PPTX nor PDF claims the file, the old chain and the
      current one pick the same format. */
  lemma ChainsAgree(c: C.Kind -> bool)
    requires !c(C.Pptx) && !c(C.Pdf)
    ensures CasedChain(c) == C.Chain(c)
  {
  }

  /** So on a lower-case file name that neither PPTX nor PDF claims, both
      converters choose the same branch. */
  lemma SameChoiceAsCurrent(mime: string, name: string)
    requires Lower(name) == name
    requires !C.Claims(C.Pptx, mime, name) && !C.Claims(C.Pdf, mime, name)
    ensures ClassifyCased(mime, name) == C.Classify(mime, name)
  {
    ChainsAgree(k => C.Claims(k, mime, name));
  }

  /** A suffix made of characters `lower()` leaves alone survives lowering. */
  lemma EndsWithLowered(s: string, suffix: string)
    requires forall i :: 0 <= i < |suffix| ==> suffix[i] == '.' || 'a' <= suffix[i] <= 'z'
    requires EndsWith(s, suffix)
    ensures EndsWith(Lower(s), suffix)
  {
    LowerPointwise(s);
    var d := |s| - |suffix|;
    forall i | 0 <= i < |suffix|
      ensures Lower(s)[d..][i] == suffix[i]
    {
      assert s[d..][i] == s[d + i];
    }
  }

  lemma NameClaimsLowered(k: C.Kind, name: string)
    requires C.NameClaims(k, name)
    ensures C.NameClaims(k, Lower(name))
  {
    match k
    case Docx => SuffixLowered(name, ".docx");
    case Xlsx => SuffixLowered(name, ".xlsx");
    case Pptx => SuffixLowered(name, ".pptx");
    case Csv => SuffixLowered(name, ".csv");
    case Txt => SuffixLowered(name, ".txt");
    case Html =>
      if EndsWith(name, ".html") {
        SuffixLowered(name, ".html");
      } else {
        SuffixLowered(name, ".htm");
      }
    case Rtf => SuffixLowered(name, ".rtf");
    case Pdf => SuffixLowered(name, ".pdf");
  }

  /** `EndsWithLowered` for one of the suffixes above. */
  lemma SuffixLowered(name: string, suffix: string)
    requires suffix in {".docx", ".xlsx", ".pptx", ".csv", ".txt", ".html", ".htm", ".rtf", ".pdf"}
    requires EndsWith(name, suffix)
    ensures EndsWith(Lower(name), suffix)
  {
    EndsWithLowered(name, suffix);
  }

  /** A claim test weaker than another accepts whatever the old chain
      accepts under the stronger one. */
  lemma ChainAcceptsMore(strong: C.Kind -> bool, weak: C.Kind -> bool)
    requires CasedChain(strong).Some?
    requires forall k :: strong(k) ==> weak(k)
    ensures C.Chain(weak).Some?
  {
    C.ChainNone(weak);
    assert weak(CasedChain(strong).value);
  }

  /** Every file the old dispatch accepts, the current one accepts too; the
      converse fails for PPTX, PDF and upper-case suffixes. */
  lemma CurrentAcceptsWhatCasedAccepts(mime: string, name: string)
    requires ClassifyCased(mime, name).Some?
    ensures C.Classify(mime, name).Some?
  {
    var strong := k => C.Claims(k, mime, name);
    var weak := k => C.Claims(k, mime, Lower(name));
    forall k
      ensures strong(k) ==> weak(k)
    {
      if C.NameClaims(k, name) {
        NameClaimsLowered(k, name);
      }
    }
    ChainAcceptsMore(strong, weak);
    assert C.Classify(mime, name) == C.Chain(weak);
  }

  /** The converse fails: a file only PPTX or PDF claims is refused here
      and accepted by the current converter. */
  lemma OnlyCurrentHandlesPptxAndPdf(c: C.Kind -> bool)
    requires forall k :: c(k) ==> k == C.Pptx || k == C.Pdf
    requires c(C.Pptx) || c(C.Pdf)
    ensures CasedChain(c) == None
    ensures C.Chain(c).Some?
  {
    C.ChainNone(c);
  }

  /** The unsupported-type error comes from the chain alone, and from it
      exactly when no branch claims the file. */
  lemma UnsupportedIffUnclaimed(caps: C.Capabilities, inputs: Inputs, mime: string, name: string)
    ensures Convert(caps, inputs, mime, name) == Err(NotSupported(mime)) <==> ClassifyCased(mime, name) == None
  {
  }

  /** The library checks happen in the dispatcher, before anything is read:
      without python-docx or openpyxl the inputs make no difference. */
  lemma GuardInDispatcher(k: C.Kind, caps: C.Capabilities, a: Inputs, b: Inputs)
    requires (k == C.Docx && !caps.docx) || (k == C.Xlsx && !caps.excel)
    ensures Run(k, caps, a) == Run(k, caps, b)
    ensures Run(k, caps, a) == Err(Missing(if k == C.Docx then C.PythonDocx else C.Openpyxl))
  {
  }

  // ---------------------------------------------------------------------
  // Properties of the tables

  /** The head of a table opens a page and draws its title line. */
  lemma HeadObservations(title: string)
    ensures var h := TableHead(title);
      Titles(h) == [title] && Pages(h) == 1 && Paragraphs(h) == [] && TableCells(h) == 0 && RowEnds(h) == 0
  {
    var a, b, c, d, e := AddPage, SetFont(Font(true, 16)), Cell(0.0, 10, title, false, true), Ln(Some(5)), SetFont(Font(true, 12));
    var s1, s2, s3, s4 := [a], [a, b], [a, b, c], [a, b, c, d];
    assert s1 == [] + [a] && s2 == s1 + [b] && s3 == s2 + [c] && s4 == s3 + [d];
    assert TableHead(title) == s4 + [e];
    assert Titles(s4 + [e]) == [title] by {
      TitlesSnoc([], a); TitlesSnoc(s1, b); TitlesSnoc(s2, c); TitlesSnoc(s3, d); TitlesSnoc(s4, e);
    }
    assert Pages(s4 + [e]) == 1 by {
      PagesSnoc([], a); PagesSnoc(s1, b); PagesSnoc(s2, c); PagesSnoc(s3, d); PagesSnoc(s4, e);
    }
    assert Paragraphs(s4 + [e]) == [] by {
      ParagraphsSnoc([], a); ParagraphsSnoc(s1, b); ParagraphsSnoc(s2, c); ParagraphsSnoc(s3, d); ParagraphsSnoc(s4, e);
    }
    assert TableCells(s4 + [e]) == 0 by {
      TableCellsSnoc([], a); TableCellsSnoc(s1, b); TableCellsSnoc(s2, c); TableCellsSnoc(s3, d); TableCellsSnoc(s4, e);
    }
    assert RowEnds(s4 + [e]) == 0 by {
      RowEndsSnoc([], a); RowEndsSnoc(s1, b); RowEndsSnoc(s2, c); RowEndsSnoc(s3, d); RowEndsSnoc(s4, e);
    }
  }

  lemma BodyObservations(frame: Frame)
    requires |frame.columns| > 0
    ensures var b := TableBody(frame);
      Pages(b) == 0 && Titles(b) == [] && Paragraphs(b) == []
      && RowEnds(b) == |frame.rows| + 1 && TableCells(b) == |frame.columns| + CellTotal(frame.rows)
  {
    var w := ColumnShare(|frame.columns|);
    var h := RowEvents(Verbatim, frame.columns, w);
    var f := [SetFont(Regular10)];
    var r := Rows(Ellipsize, frame.rows, w, []);
    assert TableBody(frame) == h + f + r;
    assert Quiet(h + f + r) by {
      assert Quiet(h) && Quiet(f) && Quiet([]);
      RowsQuiet(Ellipsize, frame.rows, w, []);
      QuietConcat(h, f);
      QuietConcat(h + f, r);
    }
    QuietObservations(h + f + r);
    assert TableCells(h + f + r) == |frame.columns| + CellTotal(frame.rows) by {
      RowEventsCounts(Verbatim, frame.columns, w);
      RowsCounts(Ellipsize, frame.rows, w, []);
      ObserveSingle(SetFont(Regular10));
      TableCellsConcat(h, f);
      TableCellsConcat(h + f, r);
    }
    assert RowEnds(h + f + r) == |frame.rows| + 1 by {
      RowEventsCounts(Verbatim, frame.columns, w);
      RowsCounts(Ellipsize, frame.rows, w, []);
      ObserveSingle(SetFont(Regular10));
      RowEndsConcat(h, f);
      RowEndsConcat(h + f, r);
    }
  }

  /** A table is one page whose only title line is its title, with no
      paragraph; it draws the header row and one row per data row, with one
      cell per column name and per value. */
  lemma TableBlockShape(title: string, frame: Frame)
    requires |frame.columns| > 0
    ensures var t := TableBlock(title, frame);
      Titles(t) == [title] && Pages(t) == 1 && Paragraphs(t) == []
      && RowEnds(t) == |frame.rows| + 1 && TableCells(t) == |frame.columns| + CellTotal(frame.rows)
  {
    HeadObservations(title);
    BodyObservations(frame);
    ObserveConcat(TableHead(title), TableBody(frame));
  }

  /** Only data cells are clipped: the header row draws every column name
      whole, so the table keeps to the 15-character limit exactly when every
      column name does. */
  lemma TableWithinLimitIffHeaders(title: string, frame: Frame)
    requires |frame.columns| > 0
    ensures forall i :: 0 <= i < |frame.columns| ==>
      TableBlock(title, frame)[5 + i] == Cell(ColumnShare(|frame.columns|), 10, frame.columns[i], true, false)
    ensures CellsWithin(TableBlock(title, frame), CellLimit) <==>
      forall i :: 0 <= i < |frame.columns| ==> |frame.columns[i]| <= CellLimit
  {
    var w := ColumnShare(|frame.columns|);
    var h := TableHead(title);
    var cells := RowCells(Verbatim, frame.columns, w);
    var rest := [Ln(None)] + [SetFont(Regular10)] + Rows(Ellipsize, frame.rows, w, []);
    var t := TableBlock(title, frame);
    assert t == h + cells + rest by {
      AppendAssoc(cells, [Ln(None)], [SetFont(Regular10)]);
      AppendAssoc(cells + [Ln(None)], [SetFont(Regular10)], Rows(Ellipsize, frame.rows, w, []));
      AppendAssoc(cells, [Ln(None)] + [SetFont(Regular10)], Rows(Ellipsize, frame.rows, w, []));
      AppendAssoc(h, cells, rest);
    }
    forall i | 0 <= i < |frame.columns|
      ensures t[5 + i] == Cell(w, 10, frame.columns[i], true, false)
    {
      assert t[5 + i] == cells[i];
    }
    if forall i :: 0 <= i < |frame.columns| ==> |frame.columns[i]| <= CellLimit {
      assert CellsWithin(h, CellLimit);
      assert CellsWithin(cells, CellLimit);
      RowsWithin(Ellipsize, frame.rows, w, [], CellLimit);
      assert CellsWithin([Ln(None)] + [SetFont(Regular10)], CellLimit);
      CellsWithinConcat([Ln(None)] + [SetFont(Regular10)], Rows(Ellipsize, frame.rows, w, []), CellLimit);
      CellsWithinConcat(h, cells, CellLimit);
      CellsWithinConcat(h + cells, rest, CellLimit);
    }
    if CellsWithin(t, CellLimit) {
      forall i | 0 <= i < |frame.columns|
        ensures |frame.columns[i]| <= CellLimit
      {
        assert t[5 + i].Cell? && t[5 + i].border;
      }
    }
  }

  /** The table spans the page: its columns' widths add up to `pdf.w`. */
  lemma ColumnsSpanPage(frame: Frame)
    requires |frame.columns| > 0
    ensures var w := ColumnShare(|frame.columns|);
      TableBlock("", frame)[5].width * |frame.columns| as real == PageWidth
  {
    TableWithinLimitIffHeaders("", frame);
  }

  /** A CSV conversion succeeds exactly when the frame has a column; the
      page then holds the "CSV Verileri" table. */
  lemma CsvPageShape(frame: Frame)
    ensures CsvPage(frame).Ok? <==> |frame.columns| > 0
    ensures CsvPage(frame).Ok? ==>
      Titles(CsvPage(frame).value) == [CsvTitle] && Pages(CsvPage(frame).value) == 1
      && RowEnds(CsvPage(frame).value) == |frame.rows| + 1
      && TableCells(CsvPage(frame).value) == |frame.columns| + CellTotal(frame.rows)
  {
    if |frame.columns| > 0 {
      TableBlockShape(CsvTitle, frame);
    }
  }

  /** An XLSX conversion succeeds exactly when every worksheet has a column;
      it then draws one page per worksheet, titled with its name, in
      workbook order. */
  lemma XlsxPagesShape(book: seq<NamedFrame>)
    ensures XlsxPages(book).Ok? <==> AllHaveColumns(book)
    ensures XlsxPages(book).Ok? ==>
      Titles(XlsxPages(book).value) == SheetTitlesOf(book) && Pages(XlsxPages(book).value) == |book|
  {
    if AllHaveColumns(book) {
      SheetTablesShape(book);
    } else {
      var i :| 0 <= i < |book| && |book[i].frame.columns| == 0;
    }
  }

  function SheetTitlesOf(book: seq<NamedFrame>): seq<string> {
    if book == [] then [] else SheetTitlesOf(book[..|book| - 1]) + [SheetTitlePrefix + book[|book| - 1].name]
  }

  lemma {:induction false} SheetTablesShape(book: seq<NamedFrame>)
    requires AllHaveColumns(book)
    ensures Titles(SheetTables(book)) == SheetTitlesOf(book) && Pages(SheetTables(book)) == |book|
  {
    if book != [] {
      var last := book[|book| - 1];
      var prev := book[..|book| - 1];
      assert AllHaveColumns(prev) by {
        assert forall j :: 0 <= j < |prev| ==> prev[j] == book[j];
      }
      SheetTablesShape(prev);
      TableBlockShape(SheetTitlePrefix + last.name, last.frame);
      TitlesConcat(SheetTables(prev), TableBlock(SheetTitlePrefix + last.name, last.frame));
      PagesConcat(SheetTables(prev), TableBlock(SheetTitlePrefix + last.name, last.frame));
    }
  }

  // ---------------------------------------------------------------------
  // Properties of the text pages

  function SanitizeAll(lines: seq<string>): seq<string> {
    if lines == [] then [] else SanitizeAll(lines[..|lines| - 1]) + [Sanitize(lines[|lines| - 1])]
  }

  lemma {:induction false} LineCellsParagraphs(lines: seq<string>)
    ensures Paragraphs(LineCells(lines)) == SanitizeAll(lines)
    ensures Pages(LineCells(lines)) == 0 && Titles(LineCells(lines)) == []
  {
    if lines != [] {
      var prev := LineCells(lines[..|lines| - 1]);
      var e := MultiCell(8, Sanitize(lines[|lines| - 1]));
      LineCellsParagraphs(lines[..|lines| - 1]);
      ParagraphsSnoc(prev, e);
      PagesSnoc(prev, e);
      TitlesSnoc(prev, e);
    }
  }

  /** The start of a page at regular 12pt. */
  lemma OpeningObservations()
    ensures var o := [AddPage, SetFont(Regular12)];
      Pages(o) == 1 && Titles(o) == [] && Paragraphs(o) == []
  {
    var a, b := AddPage, SetFont(Regular12);
    assert [a, b] == [a] + [b];
    ObserveSingle(a);
    ObserveSingle(b);
    ObserveConcat([a], [b]);
  }

  /** A text file is one page with one sanitised paragraph per line, empty
      lines included, and no title; joining the lines back with `\n` gives
      the text. */
  lemma TxtPageShape(text: string)
    ensures Paragraphs(TxtPage(text)) == SanitizeAll(Split(text, '\n'))
    ensures |Paragraphs(TxtPage(text))| == |Split(text, '\n')|
    ensures Pages(TxtPage(text)) == 1 && Titles(TxtPage(text)) == []
    ensures Join(Split(text, '\n'), '\n') == text
  {
    var lines := Split(text, '\n');
    LineCellsParagraphs(lines);
    OpeningObservations();
    ObserveConcat([AddPage, SetFont(Regular12)], LineCells(lines));
    SanitizeAllLength(lines);
    JoinSplit(text, '\n');
  }

  lemma {:induction false} SanitizeAllLength(lines: seq<string>)
    ensures |SanitizeAll(lines)| == |lines|
  {
    if lines != [] {
      SanitizeAllLength(lines[..|lines| - 1]);
    }
  }

  lemma {:induction false} StyledParagraphsShape(ps: seq<Paragraph>)
    ensures Paragraphs(StyledParagraphs(ps)) == NonBlankTexts(ps)
    ensures Pages(StyledParagraphs(ps)) == 0 && Titles(StyledParagraphs(ps)) == []
  {
    if ps != [] {
      var p := ps[|ps| - 1];
      StyledParagraphsShape(ps[..|ps| - 1]);
      StripEmptyIffBlank(p.text);
      ParagraphShape(StyleFont(p.style), Strip(p.text) != [], Sanitize(p.text));
      ObserveConcat(StyledParagraphs(ps[..|ps| - 1]), StyledParagraph(p));
    }
  }

  /** A DOCX document is one page (before automatic breaks) holding, in
      order, the sanitised text of every paragraph that is not blank. */
  lemma DocxPageShape(ps: seq<Paragraph>)
    ensures Paragraphs(DocxPages(ps)) == NonBlankTexts(ps)
    ensures Pages(DocxPages(ps)) == 1 && Titles(DocxPages(ps)) == []
  {
    var o := [AddPage, SetAutoPageBreak(15)];
    assert o == [AddPage] + [SetAutoPageBreak(15)];
    ObserveSingle(AddPage);
    ObserveSingle(SetAutoPageBreak(15));
    ObserveConcat([AddPage], [SetAutoPageBreak(15)]);
    StyledParagraphsShape(ps);
    ObserveConcat(o, StyledParagraphs(ps));
  }

  /** Both converters draw a DOCX paragraph alike: the style's font (bold
      14pt exactly for "Heading" styles, by `HeadingsBold`), then the
      sanitised text unless it is blank. */
  lemma {:induction false} SameParagraphBlocks(ps: seq<Paragraph>)
    ensures StyledParagraphs(ps) == ParagraphBlocks(ps)
  {
    if ps != [] {
      var p := ps[|ps| - 1];
      SameParagraphBlocks(ps[..|ps| - 1]);
      assert TextEvents(p.text) == if Strip(p.text) != [] then [MultiCell(10, Sanitize(p.text))] else [] by {
        if p.text == [] {
          assert Strip(p.text) == [];
        }
      }
    }
  }

  /** A title line is one title and nothing else. */
  lemma TitleLineShape(title: Option<string>)
    ensures var t := TitleLine(title);
      Titles(t) == (if title.Some? then [title.value] else []) && Paragraphs(t) == [] && Pages(t) == 0
  {
    if title.Some? {
      var x, y := SetFont(Font(true, 16)), Cell(0.0, 10, title.value, false, true);
      assert TitleLine(title) == [] + [x] + [y];
      assert Titles([] + [x] + [y]) == [title.value] by {
        TitlesSnoc([], x); TitlesSnoc([x], y);
      }
      assert Paragraphs([] + [x] + [y]) == [] by {
        ParagraphsSnoc([], x); ParagraphsSnoc([x], y);
      }
      assert Pages([] + [x] + [y]) == 0 by {
        PagesSnoc([], x); PagesSnoc([x], y);
      }
    }
  }

  /** A page with an optional title line and one paragraph. */
  lemma TitledPageShape(title: Option<string>, text: string)
    ensures var e := [AddPage, SetFont(Regular12)] + TitleLine(title) + [SetFont(Regular12), MultiCell(8, text)];
      Titles(e) == (if title.Some? then [title.value] else []) && Paragraphs(e) == [text] && Pages(e) == 1
  {
    var o := [AddPage, SetFont(Regular12)];
    var t := TitleLine(title);
    var f, m := SetFont(Regular12), MultiCell(8, text);
    var ot := o + t;
    assert Titles(ot) == Titles(t) && Paragraphs(ot) == [] && Pages(ot) == 1 by {
      OpeningObservations();
      TitleLineShape(title);
      ObserveConcat(o, t);
    }
    assert ot + [f, m] == ot + [f] + [m];
    assert Titles(ot + [f] + [m]) == Titles(t) by {
      TitlesSnoc(ot, f); TitlesSnoc(ot + [f], m);
    }
    assert Paragraphs(ot + [f] + [m]) == [text] by {
      ParagraphsSnoc(ot, f); ParagraphsSnoc(ot + [f], m);
    }
    assert Pages(ot + [f] + [m]) == 1 by {
      PagesSnoc(ot, f); PagesSnoc(ot + [f], m);
    }
    TitleLineShape(title);
  }

  /** An HTML page carries the title when the search finds one, then the
      whole cleaned text as one paragraph. */
  lemma HtmlPageShape(html: string)
    ensures Titles(HtmlPage(html)) == if TitleSearch(html).Some? then [TitleSearch(html).value] else []
    ensures Paragraphs(HtmlPage(html)) == [Sanitize(HtmlText(html))]
    ensures Pages(HtmlPage(html)) == 1
  {
    TitledPageShape(TitleSearch(html), Sanitize(HtmlText(html)));
  }

  /** An RTF page is one paragraph of cleaned text, which holds no closing
      brace. */
  lemma RtfPageShape(rtf: string)
    ensures Paragraphs(RtfPage(rtf)) == [Sanitize(RtfText(rtf))]
    ensures '}' !in Paragraphs(RtfPage(rtf))[0]
    ensures Pages(RtfPage(rtf)) == 1 && Titles(RtfPage(rtf)) == []
  {
    var text := Sanitize(RtfText(rtf));
    var o := [AddPage, SetFont(Regular12)];
    var m := MultiCell(8, text);
    assert RtfPage(rtf) == o + [m];
    assert Paragraphs(o + [m]) == [text] && Pages(o + [m]) == 1 && Titles(o + [m]) == [] by {
      OpeningObservations();
      ParagraphsSnoc(o, m); PagesSnoc(o, m); TitlesSnoc(o, m);
    }
    assert '}' !in text by {
      RtfTextClean(rtf);
      SanitizePointwise(RtfText(rtf));
    }
  }
}
