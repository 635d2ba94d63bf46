/** What each extractor of doc_converter_all.py draws, as a function of the
    document the parsing library hands it, and what is proved about those
    drawings. The methods that actually make the calls on a PdfConverter are
    in module Converter and are proved to produce exactly these logs. */
module ConverterEvents {
  import opened Wrappers
  import opened Text
  import opened Render

  // ---------------------------------------------------------------------
  // Parsed inputs, as the parsing libraries deliver them

  /** A python-docx paragraph: its style name and its text. */
  datatype Paragraph = Paragraph(style: string, text: string)

  /** A python-docx table: rows of cell texts. */
  type Table = seq<seq<string>>

  datatype DocxDocument = DocxDocument(paragraphs: seq<Paragraph>, tables: seq<Table>)

  /** An openpyxl worksheet: its name and `iter_rows(values_only=True)`, a
      missing value being `None`. */
  datatype Sheet = Sheet(name: string, rows: seq<seq<Option<string>>>)

  /** A python-pptx shape: `None` when it has no `text` attribute. */
  datatype Shape = Shape(text: Option<string>)

  datatype Slide = Slide(shapes: seq<Shape>)

  /** `soup.title`: no title element; an element whose `.string` is `None`
      (it is empty, as in `<title></title>`, or has several children); or an
      element whose `.string` is a text. */
  datatype TitleElement = NoTitle | NoString | TitleString(text: string)

  /** What BeautifulSoup yields: the title element and
      `soup.get_text(separator='\n', strip=True)`. */
  datatype Soup = Soup(title: TitleElement, text: string)

  /** What `pandas.read_csv` yields: the column labels and the data rows. */
  datatype Frame = Frame(columns: seq<string>, rows: seq<seq<string>>)

  // ---------------------------------------------------------------------
  // The PdfConverter primitives

  /** `PDFConverter()`: one page, regular 12pt, automatic page breaks with a
      15 mm margin. */
  const Prelude: seq<Event> := [AddPage, SetFont(Regular12), SetAutoPageBreak(15)]

  /** `add_title(title, size)`: a bold full-width line, a 5 mm gap, and the
      font back to regular 12pt. The title is not sanitised. */
  function TitleEvents(title: string, size: nat): seq<Event> {
    [SetFont(Font(true, size)), Cell(0.0, 10, title, false, true), Ln(Some(5)), SetFont(Regular12)]
  }

  /** `add_text(text)`: one wrapped paragraph of the sanitised text, unless the
      text is empty or whitespace only. */
  function TextEvents(text: string): seq<Event> {
    if text != [] && Strip(text) != [] then [MultiCell(10, Sanitize(text))] else []
  }

  /** The bordered cells of one table row, each `width` wide. */
  function RowCells<A>(cell: A -> string, row: seq<A>, width: real): (r: seq<Event>)
    ensures |r| == |row|
  {
    seq(|row|, i requires 0 <= i < |row| => Cell(width, 10, cell(row[i]), true, false))
  }

  /** Drawing one more cell extends the row by that cell. */
  lemma RowCellsSnoc<A>(cell: A -> string, row: seq<A>, i: nat, width: real)
    requires i < |row|
    ensures RowCells(cell, row[..i + 1], width)
      == RowCells(cell, row[..i], width) + [Cell(width, 10, cell(row[i]), true, false)]
  {
    var l := RowCells(cell, row[..i + 1], width);
    var r := RowCells(cell, row[..i], width) + [Cell(width, 10, cell(row[i]), true, false)];
    assert forall k :: 0 <= k < |l| ==> l[k] == r[k];
  }

  /** One table row: its cells, then `ln()`. */
  function RowEvents<A>(cell: A -> string, row: seq<A>, width: real): seq<Event> {
    RowCells(cell, row, width) + [Ln(None)]
  }

  /** The rows of a table, each preceded by `lead` (a font reset, or nothing). */
  function Rows<A>(cell: A -> string, rows: seq<seq<A>>, width: real, lead: seq<Event>): seq<Event> {
    if rows == [] then []
    else Rows(cell, rows[..|rows| - 1], width, lead) + lead + RowEvents(cell, rows[|rows| - 1], width)
  }

  /** Drawing one more row extends a log that ends in the first `k` rows to
      one that ends in the first `k + 1`. */
  lemma RowsStep<A>(cell: A -> string, rows: seq<seq<A>>, k: nat, width: real, lead: seq<Event>,
                    before: seq<Event>, log: seq<Event>)
    requires k < |rows|
    requires log == before + Rows(cell, rows[..k], width, lead) + lead
      + RowCells(cell, rows[k], width) + [Ln(None)]
    ensures log == before + Rows(cell, rows[..k + 1], width, lead)
  {
    assert rows[..k + 1][..k] == rows[..k];
    var prev := Rows(cell, rows[..k], width, lead);
    var row := RowCells(cell, rows[k], width);
    calc {
      before + Rows(cell, rows[..k + 1], width, lead);
      before + (prev + lead + (row + [Ln(None)]));
      { assert prev + lead + (row + [Ln(None)]) == prev + lead + row + [Ln(None)]; }
      before + (prev + lead + row + [Ln(None)]);
      log;
    }
  }

  /** `add_table`'s header cells: `str(header)[:15]`. */
  function HeaderCell(h: string): string {
    Prefix(h, CellLimit)
  }

  /** `add_table(data, headers)`: a bold header row when headers are given (a
      missing or empty list counts as none), then the data rows at regular
      10pt with every cell clipped to 12 characters and an ellipsis. */
  function TableEvents(data: seq<seq<string>>, headers: seq<string>): seq<Event> {
    HeaderEvents(headers) + Rows(Ellipsize, data, 40.0, [])
  }

  function HeaderEvents(headers: seq<string>): seq<Event> {
    if headers != []
    then [SetFont(Font(true, 12))] + RowEvents(HeaderCell, headers, 40.0) + [SetFont(Regular10)]
    else []
  }

  // ---------------------------------------------------------------------
  // The extractors

  /** Plain text, one `add_text` per `\n`-separated line. */
  function TextBlocks(lines: seq<string>): seq<Event> {
    if lines == [] then []
    else TextBlocks(lines[..|lines| - 1]) + TextEvents(lines[|lines| - 1])
  }

  const TxtTitle := "Metin Dosyas\U{131}"

  /** `txt_to_pdf` on the decoded text. */
  function TxtEvents(text: string): seq<Event> {
    Prelude + TitleEvents(TxtTitle, 16) + TextBlocks(Split(text, '\n'))
  }

  const RtfTitle := "RTF Belgesi"

  /** `rtf_to_pdf` on the plain text pandoc produced. */
  function RtfEvents(text: string): seq<Event> {
    Prelude + TitleEvents(RtfTitle, 16) + TextBlocks(Split(text, '\n'))
  }

  /** Bold 14pt for a style whose name starts with "Heading", else regular
      12pt. */
  function StyleFont(style: string): Font {
    if StartsWith(style, "Heading") then Font(true, 14) else Regular12
  }

  /** A DOCX paragraph: its style's font, then `add_text`. */
  function ParagraphEvents(p: Paragraph): seq<Event> {
    [SetFont(StyleFont(p.style))] + TextEvents(p.text)
  }

  function ParagraphBlocks(ps: seq<Paragraph>): seq<Event> {
    if ps == [] then []
    else ParagraphBlocks(ps[..|ps| - 1]) + ParagraphEvents(ps[|ps| - 1])
  }

  /** A DOCX table cell: sanitised, then cut to 15 characters. */
  function DocxCell(s: string): string {
    Prefix(Sanitize(s), CellLimit)
  }

  /** A DOCX table: a 5 mm gap, then each row at regular 10pt. */
  function TableBlocks(tables: seq<Table>): seq<Event> {
    if tables == [] then []
    else
      TableBlocks(tables[..|tables| - 1]) + [Ln(Some(5))]
      + Rows(DocxCell, tables[|tables| - 1], 40.0, [SetFont(Regular10)])
  }

  /** `docx_to_pdf`: all paragraphs in order, then all tables. */
  function DocxEvents(doc: DocxDocument): seq<Event> {
    Prelude + ParagraphBlocks(doc.paragraphs) + TableBlocks(doc.tables)
  }

  const SheetTitlePrefix := "\U{C7}al\U{131}\U{15F}ma Sayfas\U{131}: "

  /** An XLSX cell: `None` as "", sanitised, cut to 15 characters. */
  function XlsxCell(c: Option<string>): string {
    Prefix(Sanitize(if c.Some? then c.value else ""), CellLimit)
  }

  /** One worksheet: its title, its rows at regular 10pt, a 10 mm gap, and a
      new page unless its name is that of the workbook's last sheet. */
  function SheetEvents(sheet: Sheet, lastName: string): seq<Event> {
    TitleEvents(SheetTitlePrefix + sheet.name, 14)
    + Rows(XlsxCell, sheet.rows, 40.0, [SetFont(Regular10)])
    + [Ln(Some(10))]
    + (if sheet.name != lastName then [AddPage] else [])
  }

  function SheetBlocks(sheets: seq<Sheet>, lastName: string): seq<Event> {
    if sheets == [] then []
    else SheetBlocks(sheets[..|sheets| - 1], lastName) + SheetEvents(sheets[|sheets| - 1], lastName)
  }

  function LastName(sheets: seq<Sheet>): string {
    if sheets == [] then "" else sheets[|sheets| - 1].name
  }

  /** `xlsx_to_pdf`: the sheets in workbook order. */
  function XlsxEvents(sheets: seq<Sheet>): seq<Event> {
    Prelude + SheetBlocks(sheets, LastName(sheets))
  }

  /** A shape contributes its text when it has a non-blank one. */
  function ShapeEvents(shape: Shape): seq<Event> {
    if shape.text.Some? && shape.text.value != [] && Strip(shape.text.value) != []
    then TextEvents(shape.text.value)
    else []
  }

  function ShapeBlocks(shapes: seq<Shape>): seq<Event> {
    if shapes == [] then []
    else ShapeBlocks(shapes[..|shapes| - 1]) + ShapeEvents(shapes[|shapes| - 1])
  }

  function SlideTitle(i: nat): string {
    "Slayt " + Decimal(i + 1)
  }

  /** Slide `i` (from 0): a new page unless it is the first, the title
      "Slayt i+1", then its shapes' texts. */
  function SlideEvents(i: nat, slide: Slide): seq<Event> {
    (if i > 0 then [AddPage] else []) + TitleEvents(SlideTitle(i), 16) + ShapeBlocks(slide.shapes)
  }

  function SlideBlocks(slides: seq<Slide>): seq<Event> {
    if slides == [] then []
    else SlideBlocks(slides[..|slides| - 1]) + SlideEvents(|slides| - 1, slides[|slides| - 1])
  }

  /** `pptx_to_pdf`: the slides in deck order. */
  function PptxEvents(slides: seq<Slide>): seq<Event> {
    Prelude + SlideBlocks(slides)
  }

  const DefaultHtmlTitle := "HTML Belgesi"

  /** The non-blank lines of the extracted HTML text. */
  function HtmlLines(lines: seq<string>): seq<Event> {
    if lines == [] then []
    else
      var line := lines[|lines| - 1];
      HtmlLines(lines[..|lines| - 1]) + (if Strip(line) != [] then TextEvents(line) else [])
  }

  /** The title `html_to_pdf` hands to `add_title`: the element's string,
      "HTML Belgesi" when there is no element, and `None` when the element
      has no string. */
  function HtmlTitle(t: TitleElement): Option<string> {
    match t
    case NoTitle => Some(DefaultHtmlTitle)
    case NoString => None
    case TitleString(s) => Some(s)
  }

  /** `html_to_pdf` once the title is a text: the title, then each non-blank
      line of the extracted text. */
  function HtmlEvents(title: string, text: string): seq<Event> {
    Prelude + TitleEvents(title, 16) + HtmlLines(Split(text, '\n'))
  }

  const CsvTitle := "CSV Verileri"

  /** `min(40, 180 / len(headers)) if headers else 40`. */
  function ColumnWidth(columns: nat): (w: real)
    ensures 0.0 < w <= 40.0
    ensures columns > 0 ==> w * columns as real <= 180.0
    ensures 0 < columns <= 4 ==> w == 40.0
  {
    if columns > 0 then
      var share := 180.0 / columns as real;
      if share < 40.0 then share else 40.0
    else 40.0
  }

  /** A CSV cell, header or data: sanitised, then clipped with an ellipsis. */
  function CsvCell(s: string): string {
    Ellipsize(Sanitize(s))
  }

  /** `csv_to_pdf`: the title, a bold header row, then the data rows at
      regular 10pt, all columns sharing one width. */
  function CsvEvents(frame: Frame): seq<Event> {
    var w := ColumnWidth(|frame.columns|);
    Prelude + TitleEvents(CsvTitle, 16) + [SetFont(Font(true, 12))]
    + RowEvents(CsvCell, frame.columns, w) + [SetFont(Regular10)]
    + Rows(CsvCell, frame.rows, w, [])
  }

  // ---------------------------------------------------------------------
  // One loop iteration at a time: each extractor loop appends the block of
  // its next item, which extends the specification to one more item.

  lemma TextBlocksStep(lines: seq<string>, i: nat, before: seq<Event>, log: seq<Event>)
    requires i < |lines| && log == before + TextBlocks(lines[..i]) + TextEvents(lines[i])
    ensures log == before + TextBlocks(lines[..i + 1])
  {
    var next := lines[..i + 1];
    assert next[..|next| - 1] == lines[..i] && next[|next| - 1] == lines[i];
    AppendAssoc(before, TextBlocks(lines[..i]), TextEvents(lines[i]));
  }

  lemma HtmlLinesStep(lines: seq<string>, i: nat, before: seq<Event>, log: seq<Event>)
    requires i < |lines|
    requires log == before + HtmlLines(lines[..i]) + (if Strip(lines[i]) != [] then TextEvents(lines[i]) else [])
    ensures log == before + HtmlLines(lines[..i + 1])
  {
    var next := lines[..i + 1];
    assert next[..|next| - 1] == lines[..i] && next[|next| - 1] == lines[i];
    AppendAssoc(before, HtmlLines(lines[..i]), if Strip(lines[i]) != [] then TextEvents(lines[i]) else []);
  }

  lemma ParagraphBlocksStep(ps: seq<Paragraph>, i: nat, before: seq<Event>, log: seq<Event>)
    requires i < |ps| && log == before + ParagraphBlocks(ps[..i]) + ParagraphEvents(ps[i])
    ensures log == before + ParagraphBlocks(ps[..i + 1])
  {
    var next := ps[..i + 1];
    assert next[..|next| - 1] == ps[..i] && next[|next| - 1] == ps[i];
    AppendAssoc(before, ParagraphBlocks(ps[..i]), ParagraphEvents(ps[i]));
  }

  lemma HeaderStep(headers: seq<string>, before: seq<Event>, log: seq<Event>)
    requires headers != []
    requires log == before + [SetFont(Font(true, 12))] + RowCells(HeaderCell, headers, 40.0)
      + [Ln(None)] + [SetFont(Regular10)]
    ensures log == before + HeaderEvents(headers)
  {
    var a, cells := [SetFont(Font(true, 12))], RowCells(HeaderCell, headers, 40.0);
    AppendAssoc(before + a, cells, [Ln(None)]);
    AppendAssoc(before, a, cells + [Ln(None)]);
    AppendAssoc(before, a + RowEvents(HeaderCell, headers, 40.0), [SetFont(Regular10)]);
  }

  lemma TableBlocksStep(tables: seq<Table>, t: nat, before: seq<Event>, log: seq<Event>)
    requires t < |tables|
    requires log == before + TableBlocks(tables[..t]) + [Ln(Some(5))]
      + Rows(DocxCell, tables[t], 40.0, [SetFont(Regular10)])
    ensures log == before + TableBlocks(tables[..t + 1])
  {
    var next := tables[..t + 1];
    assert next[..|next| - 1] == tables[..t] && next[|next| - 1] == tables[t];
    var prev := TableBlocks(tables[..t]);
    var rows := Rows(DocxCell, tables[t], 40.0, [SetFont(Regular10)]);
    AppendAssoc(before, prev, [Ln(Some(5))]);
    AppendAssoc(before, prev + [Ln(Some(5))], rows);
  }

  lemma SheetBlocksStep(sheets: seq<Sheet>, i: nat, lastName: string, before: seq<Event>, log: seq<Event>)
    requires i < |sheets|
    requires log == before + SheetBlocks(sheets[..i], lastName) + SheetEvents(sheets[i], lastName)
    ensures log == before + SheetBlocks(sheets[..i + 1], lastName)
  {
    var next := sheets[..i + 1];
    assert next[..|next| - 1] == sheets[..i] && next[|next| - 1] == sheets[i];
    AppendAssoc(before, SheetBlocks(sheets[..i], lastName), SheetEvents(sheets[i], lastName));
  }

  /** A worksheet drawn after `start` extends it by that sheet's block. */
  lemma SheetEventsAppend(start: seq<Event>, sheet: Sheet, lastName: string, log: seq<Event>)
    requires log == start + TitleEvents(SheetTitlePrefix + sheet.name, 14)
      + Rows(XlsxCell, sheet.rows, 40.0, [SetFont(Regular10)]) + [Ln(Some(10))]
      + (if sheet.name != lastName then [AddPage] else [])
    ensures log == start + SheetEvents(sheet, lastName)
  {
    var t := TitleEvents(SheetTitlePrefix + sheet.name, 14);
    var rows := Rows(XlsxCell, sheet.rows, 40.0, [SetFont(Regular10)]);
    var brk: seq<Event> := if sheet.name != lastName then [AddPage] else [];
    AppendAssoc(start, t, rows);
    AppendAssoc(start, t + rows, [Ln(Some(10))]);
    AppendAssoc(start, t + rows + [Ln(Some(10))], brk);
  }

  /** A slide drawn after `start` extends it by that slide's block. */
  lemma SlideEventsAppend(start: seq<Event>, i: nat, slide: Slide, log: seq<Event>)
    requires log == start + (if i > 0 then [AddPage] else []) + TitleEvents(SlideTitle(i), 16)
      + ShapeBlocks(slide.shapes)
    ensures log == start + SlideEvents(i, slide)
  {
    var p: seq<Event> := if i > 0 then [AddPage] else [];
    var t := TitleEvents(SlideTitle(i), 16);
    AppendAssoc(start, p, t);
    AppendAssoc(start, p + t, ShapeBlocks(slide.shapes));
  }

  lemma ShapeBlocksStep(shapes: seq<Shape>, k: nat, before: seq<Event>, log: seq<Event>)
    requires k < |shapes| && log == before + ShapeBlocks(shapes[..k]) + ShapeEvents(shapes[k])
    ensures log == before + ShapeBlocks(shapes[..k + 1])
  {
    var next := shapes[..k + 1];
    assert next[..|next| - 1] == shapes[..k] && next[|next| - 1] == shapes[k];
    AppendAssoc(before, ShapeBlocks(shapes[..k]), ShapeEvents(shapes[k]));
  }

  lemma SlideBlocksStep(slides: seq<Slide>, i: nat, before: seq<Event>, log: seq<Event>)
    requires i < |slides| && log == before + SlideBlocks(slides[..i]) + SlideEvents(i, slides[i])
    ensures log == before + SlideBlocks(slides[..i + 1])
  {
    var next := slides[..i + 1];
    assert next[..|next| - 1] == slides[..i] && next[|next| - 1] == slides[i];
    AppendAssoc(before, SlideBlocks(slides[..i]), SlideEvents(i, slides[i]));
  }

  // =====================================================================
  // Properties

  /** `add_text` draws nothing for blank text, and otherwise exactly one
      paragraph holding the sanitised text. */
  lemma TextEventsCases(text: string)
    ensures Blank(text) <==> TextEvents(text) == []
    ensures !Blank(text) ==> TextEvents(text) == [MultiCell(10, Sanitize(text))]
  {
    StripEmptyIffBlank(text);
  }

  /** After `add_title` the font is regular 12pt, whatever came before. */
  lemma TitleRestoresFont(log: seq<Event>, title: string, size: nat)
    ensures CurrentFont(log + TitleEvents(title, size)) == Some(Regular12)
  {
    CurrentFontConcat(log, TitleEvents(title, size));
    assert TitleEvents(title, size)[..3] + [SetFont(Regular12)] == TitleEvents(title, size);
  }

  /** The prelude opens the first page and draws nothing. */
  lemma PreludeObservations()
    ensures Pages(Prelude) == 1 && Titles(Prelude) == [] && Paragraphs(Prelude) == []
    ensures TableCells(Prelude) == 0 && RowEnds(Prelude) == 0
  {
    var a, b, c := AddPage, SetFont(Regular12), SetAutoPageBreak(15);
    var s1, s2 := [a], [a, b];
    assert s1 == [] + [a] && s2 == s1 + [b] && Prelude == s2 + [c];
    PagesSnoc([], a); PagesSnoc(s1, b); PagesSnoc(s2, c);
    TitlesSnoc([], a); TitlesSnoc(s1, b); TitlesSnoc(s2, c);
    ParagraphsSnoc([], a); ParagraphsSnoc(s1, b); ParagraphsSnoc(s2, c);
    TableCellsSnoc([], a); TableCellsSnoc(s1, b); TableCellsSnoc(s2, c);
    RowEndsSnoc([], a); RowEndsSnoc(s1, b); RowEndsSnoc(s2, c);
  }

  /** A title is one title line and nothing else. */
  lemma TitleObservations(title: string, size: nat)
    ensures var t := TitleEvents(title, size);
      Titles(t) == [title] && Pages(t) == 0 && Paragraphs(t) == [] && TableCells(t) == 0 && RowEnds(t) == 0
  {
    var a, b, c, d := SetFont(Font(true, size)), Cell(0.0, 10, title, false, true), Ln(Some(5)), SetFont(Regular12);
    var s1, s2, s3 := [a], [a, b], [a, b, c];
    assert s1 == [] + [a] && s2 == s1 + [b] && s3 == s2 + [c];
    assert TitleEvents(title, size) == s3 + [d];
    assert Titles(s3 + [d]) == [title] by {
      TitlesSnoc([], a); TitlesSnoc(s1, b); TitlesSnoc(s2, c); TitlesSnoc(s3, d);
    }
    assert Pages(s3 + [d]) == 0 by {
      PagesSnoc([], a); PagesSnoc(s1, b); PagesSnoc(s2, c); PagesSnoc(s3, d);
    }
    assert Paragraphs(s3 + [d]) == [] by {
      ParagraphsSnoc([], a); ParagraphsSnoc(s1, b); ParagraphsSnoc(s2, c); ParagraphsSnoc(s3, d);
    }
    assert TableCells(s3 + [d]) == 0 by {
      TableCellsSnoc([], a); TableCellsSnoc(s1, b); TableCellsSnoc(s2, c); TableCellsSnoc(s3, d);
    }
    assert RowEnds(s3 + [d]) == 0 by {
      RowEndsSnoc([], a); RowEndsSnoc(s1, b); RowEndsSnoc(s2, c); RowEndsSnoc(s3, d);
    }
  }

  // ----- Logs that draw only table rows

  /** A log that opens no page, draws no title line and no paragraph. */
  predicate Quiet(log: seq<Event>) {
    forall i :: 0 <= i < |log| ==> !log[i].AddPage? && !log[i].MultiCell? && !(log[i].Cell? && log[i].newLine)
  }

  lemma QuietConcat(a: seq<Event>, b: seq<Event>)
    requires Quiet(a) && Quiet(b)
    ensures Quiet(a + b)
  {
    forall i | 0 <= i < |a + b|
      ensures !(a + b)[i].AddPage? && !(a + b)[i].MultiCell? && !((a + b)[i].Cell? && (a + b)[i].newLine)
    {
      if i >= |a| {
        assert (a + b)[i] == b[i - |a|];
      }
    }
  }

  lemma {:induction false} QuietObservations(log: seq<Event>)
    requires Quiet(log)
    ensures Pages(log) == 0 && Titles(log) == [] && Paragraphs(log) == []
  {
    if log != [] {
      QuietObservations(log[..|log| - 1]);
    }
  }

  lemma {:induction false} RowsQuiet<A>(cell: A -> string, rows: seq<seq<A>>, width: real, lead: seq<Event>)
    requires Quiet(lead)
    ensures Quiet(Rows(cell, rows, width, lead))
  {
    if rows != [] {
      RowsQuiet(cell, rows[..|rows| - 1], width, lead);
      QuietConcat(Rows(cell, rows[..|rows| - 1], width, lead), lead);
      QuietConcat(Rows(cell, rows[..|rows| - 1], width, lead) + lead, RowEvents(cell, rows[|rows| - 1], width));
    }
  }

  // ----- Cell bounds

  lemma RowEventsWithin<A>(cell: A -> string, row: seq<A>, width: real, limit: nat)
    requires forall a :: |cell(a)| <= limit
    ensures CellsWithin(RowEvents(cell, row, width), limit)
  {
    assert CellsWithin(RowCells(cell, row, width), limit);
    assert CellsWithin([Ln(None)], limit);
    CellsWithinConcat(RowCells(cell, row, width), [Ln(None)], limit);
  }

  /** Rows whose cell function never yields more than `limit` characters draw
      no longer cell. */
  lemma {:induction false} RowsWithin<A>(cell: A -> string, rows: seq<seq<A>>, width: real, lead: seq<Event>, limit: nat)
    requires forall a :: |cell(a)| <= limit
    requires CellsWithin(lead, limit)
    ensures CellsWithin(Rows(cell, rows, width, lead), limit)
  {
    if rows != [] {
      var prev := Rows(cell, rows[..|rows| - 1], width, lead);
      RowsWithin(cell, rows[..|rows| - 1], width, lead, limit);
      CellsWithinConcat(prev, lead, limit);
      RowEventsWithin(cell, rows[|rows| - 1], width, limit);
      CellsWithinConcat(prev + lead, RowEvents(cell, rows[|rows| - 1], width), limit);
    }
  }

  /** `add_table` draws no cell longer than 15 characters. */
  lemma TableCellsBounded(data: seq<seq<string>>, headers: seq<string>)
    ensures CellsWithin(TableEvents(data, headers), CellLimit)
  {
    RowsWithin(Ellipsize, data, 40.0, [], CellLimit);
    if headers != [] {
      var row := RowEvents(HeaderCell, headers, 40.0);
      RowEventsWithin(HeaderCell, headers, 40.0, CellLimit);
      assert CellsWithin([SetFont(Font(true, 12))], CellLimit);
      assert CellsWithin([SetFont(Regular10)], CellLimit);
      CellsWithinConcat([SetFont(Font(true, 12))], row, CellLimit);
      CellsWithinConcat([SetFont(Font(true, 12))] + row, [SetFont(Regular10)], CellLimit);
      CellsWithinConcat([SetFont(Font(true, 12))] + row + [SetFont(Regular10)], Rows(Ellipsize, data, 40.0, []), CellLimit);
    } else {
      assert TableEvents(data, headers) == Rows(Ellipsize, data, 40.0, []);
    }
  }

  lemma {:induction false} TableBlocksBounded(tables: seq<Table>)
    ensures CellsWithin(TableBlocks(tables), CellLimit)
  {
    if tables != [] {
      var prev := TableBlocks(tables[..|tables| - 1]);
      TableBlocksBounded(tables[..|tables| - 1]);
      RowsWithin(DocxCell, tables[|tables| - 1], 40.0, [SetFont(Regular10)], CellLimit);
      CellsWithinConcat(prev, [Ln(Some(5))], CellLimit);
      CellsWithinConcat(prev + [Ln(Some(5))], Rows(DocxCell, tables[|tables| - 1], 40.0, [SetFont(Regular10)]), CellLimit);
    }
  }

  /** Paragraphs contribute no table cell. */
  lemma {:induction false} ParagraphBlocksCellFree(ps: seq<Paragraph>)
    ensures CellsWithin(ParagraphBlocks(ps), 0)
  {
    if ps != [] {
      ParagraphBlocksCellFree(ps[..|ps| - 1]);
      CellsWithinConcat(ParagraphBlocks(ps[..|ps| - 1]), ParagraphEvents(ps[|ps| - 1]), 0);
    }
  }

  lemma CellsWithinWeaken(log: seq<Event>, a: nat, b: nat)
    requires a <= b && CellsWithin(log, a)
    ensures CellsWithin(log, b)
  {
  }

  /** Every table cell of a converted DOCX holds at most 15 characters. */
  lemma DocxCellsBounded(doc: DocxDocument)
    ensures CellsWithin(DocxEvents(doc), CellLimit)
  {
    ParagraphBlocksCellFree(doc.paragraphs);
    CellsWithinWeaken(ParagraphBlocks(doc.paragraphs), 0, CellLimit);
    TableBlocksBounded(doc.tables);
    CellsWithinConcat(Prelude, ParagraphBlocks(doc.paragraphs), CellLimit);
    CellsWithinConcat(Prelude + ParagraphBlocks(doc.paragraphs), TableBlocks(doc.tables), CellLimit);
  }

  lemma {:induction false} SheetBlocksBounded(sheets: seq<Sheet>, lastName: string)
    ensures CellsWithin(SheetBlocks(sheets, lastName), CellLimit)
  {
    if sheets != [] {
      var s := sheets[|sheets| - 1];
      var prev := SheetBlocks(sheets[..|sheets| - 1], lastName);
      SheetBlocksBounded(sheets[..|sheets| - 1], lastName);
      RowsWithin(XlsxCell, s.rows, 40.0, [SetFont(Regular10)], CellLimit);
      var t := TitleEvents(SheetTitlePrefix + s.name, 14);
      var tail := [Ln(Some(10))] + (if s.name != lastName then [AddPage] else []);
      CellsWithinConcat(t, Rows(XlsxCell, s.rows, 40.0, [SetFont(Regular10)]), CellLimit);
      CellsWithinConcat(t + Rows(XlsxCell, s.rows, 40.0, [SetFont(Regular10)]), tail, CellLimit);
      assert SheetEvents(s, lastName) == t + Rows(XlsxCell, s.rows, 40.0, [SetFont(Regular10)]) + tail;
      CellsWithinConcat(prev, SheetEvents(s, lastName), CellLimit);
    }
  }

  /** Every table cell of a converted workbook holds at most 15 characters. */
  lemma XlsxCellsBounded(sheets: seq<Sheet>)
    ensures CellsWithin(XlsxEvents(sheets), CellLimit)
  {
    SheetBlocksBounded(sheets, LastName(sheets));
    CellsWithinConcat(Prelude, SheetBlocks(sheets, LastName(sheets)), CellLimit);
  }

  /** Every cell of a converted CSV, header or data, holds at most 15
      characters. */
  lemma CsvCellsBounded(frame: Frame)
    ensures CellsWithin(CsvEvents(frame), CellLimit)
  {
    var w := ColumnWidth(|frame.columns|);
    var lead := Prelude + TitleEvents(CsvTitle, 16) + [SetFont(Font(true, 12))];
    var row := RowEvents(CsvCell, frame.columns, w);
    var head := lead + row + [SetFont(Regular10)];
    assert CellsWithin(lead, CellLimit);
    assert CellsWithin([SetFont(Regular10)], CellLimit);
    RowEventsWithin(CsvCell, frame.columns, w, CellLimit);
    CellsWithinConcat(lead, row, CellLimit);
    CellsWithinConcat(lead + row, [SetFont(Regular10)], CellLimit);
    RowsWithin(CsvCell, frame.rows, w, [], CellLimit);
    CellsWithinConcat(head, Rows(CsvCell, frame.rows, w, []), CellLimit);
  }

  // ----- Row and cell counts

  lemma {:induction false} RowCellsCounts<A>(cell: A -> string, row: seq<A>, width: real)
    ensures TableCells(RowCells(cell, row, width)) == |row|
    ensures RowEnds(RowCells(cell, row, width)) == 0
  {
    var r := RowCells(cell, row, width);
    if row != [] {
      RowCellsCounts(cell, row[..|row| - 1], width);
      assert r[..|r| - 1] == RowCells(cell, row[..|row| - 1], width);
    }
  }

  lemma RowEventsCounts<A>(cell: A -> string, row: seq<A>, width: real)
    ensures TableCells(RowEvents(cell, row, width)) == |row|
    ensures RowEnds(RowEvents(cell, row, width)) == 1
  {
    RowCellsCounts(cell, row, width);
    TableCellsConcat(RowCells(cell, row, width), [Ln(None)]);
    RowEndsConcat(RowCells(cell, row, width), [Ln(None)]);
  }

  /** The total number of cells of a table. */
  function CellTotal<A>(rows: seq<seq<A>>): nat {
    if rows == [] then 0 else CellTotal(rows[..|rows| - 1]) + |rows[|rows| - 1]|
  }

  lemma {:induction false} CellTotalRectangular<A>(rows: seq<seq<A>>, n: nat)
    requires forall k :: 0 <= k < |rows| ==> |rows[k]| == n
    ensures CellTotal(rows) == |rows| * n
  {
    if rows != [] {
      CellTotalRectangular(rows[..|rows| - 1], n);
    }
  }

  /** Each source row becomes exactly one drawn row holding one cell per
      source cell. */
  lemma {:induction false} RowsCounts<A>(cell: A -> string, rows: seq<seq<A>>, width: real, lead: seq<Event>)
    requires TableCells(lead) == 0 && RowEnds(lead) == 0
    ensures RowEnds(Rows(cell, rows, width, lead)) == |rows|
    ensures TableCells(Rows(cell, rows, width, lead)) == CellTotal(rows)
  {
    if rows != [] {
      var prev := Rows(cell, rows[..|rows| - 1], width, lead);
      var last := RowEvents(cell, rows[|rows| - 1], width);
      RowsCounts(cell, rows[..|rows| - 1], width, lead);
      RowEventsCounts(cell, rows[|rows| - 1], width);
      RowEndsConcat(prev, lead);
      RowEndsConcat(prev + lead, last);
      TableCellsConcat(prev, lead);
      TableCellsConcat(prev + lead, last);
    }
  }

  /** The part of a CSV conversion before the header row draws no table cell
      and ends no row. */
  lemma CsvLeadCounts()
    ensures var a := Prelude + TitleEvents(CsvTitle, 16) + [SetFont(Font(true, 12))];
      TableCells(a) == 0 && RowEnds(a) == 0
  {
    var t := TitleEvents(CsvTitle, 16);
    PreludeObservations();
    TitleObservations(CsvTitle, 16);
    ObserveSingle(SetFont(Font(true, 12)));
    TableCellsConcat(Prelude, t);
    RowEndsConcat(Prelude, t);
    TableCellsConcat(Prelude + t, [SetFont(Font(true, 12))]);
    RowEndsConcat(Prelude + t, [SetFont(Font(true, 12))]);
  }

  /** A CSV of N data rows draws N + 1 table rows, the header first; the
      header row holds one cell per column and the data rows one per value. */
  lemma CsvRowCounts(frame: Frame)
    ensures RowEnds(CsvEvents(frame)) == |frame.rows| + 1
    ensures TableCells(CsvEvents(frame)) == |frame.columns| + CellTotal(frame.rows)
  {
    var w := ColumnWidth(|frame.columns|);
    var a := Prelude + TitleEvents(CsvTitle, 16) + [SetFont(Font(true, 12))];
    var b := RowEvents(CsvCell, frame.columns, w);
    var c := [SetFont(Regular10)];
    var d := Rows(CsvCell, frame.rows, w, []);
    CsvLeadCounts();
    ObserveSingle(SetFont(Regular10));
    RowEventsCounts(CsvCell, frame.columns, w);
    RowsCounts(CsvCell, frame.rows, w, []);
    TableCellsConcat(a, b);
    RowEndsConcat(a, b);
    TableCellsConcat(a + b, c);
    RowEndsConcat(a + b, c);
    TableCellsConcat(a + b + c, d);
    RowEndsConcat(a + b + c, d);
  }

  /** When every row has one value per column (as pandas guarantees), the
      table is a full grid of (N + 1) x columns cells. */
  lemma CsvGrid(frame: Frame)
    requires forall k :: 0 <= k < |frame.rows| ==> |frame.rows[k]| == |frame.columns|
    ensures TableCells(CsvEvents(frame)) == (|frame.rows| + 1) * |frame.columns|
  {
    CsvRowCounts(frame);
    CellTotalRectangular(frame.rows, |frame.columns|);
  }

  // ----- Worksheets and slides

  function SheetTitles(sheets: seq<Sheet>): seq<string> {
    if sheets == [] then []
    else SheetTitles(sheets[..|sheets| - 1]) + [SheetTitlePrefix + sheets[|sheets| - 1].name]
  }

  /** Names are pairwise different, as in every openpyxl workbook. */
  predicate DistinctNames(sheets: seq<Sheet>) {
    forall i, j :: 0 <= i < j < |sheets| ==> sheets[i].name != sheets[j].name
  }

  /** The first `n` sheets, none named `lastName`, draw their titles in order
      and one page break each. */
  lemma {:induction false} SheetBlocksShape(sheets: seq<Sheet>, n: nat, lastName: string)
    requires n <= |sheets|
    requires forall k :: 0 <= k < n ==> sheets[k].name != lastName
    ensures Titles(SheetBlocks(sheets[..n], lastName)) == SheetTitles(sheets[..n])
    ensures Pages(SheetBlocks(sheets[..n], lastName)) == n
  {
    if n > 0 {
      var s := sheets[n - 1];
      assert sheets[..n][..n - 1] == sheets[..n - 1];
      var prev := SheetBlocks(sheets[..n - 1], lastName);
      SheetBlocksShape(sheets, n - 1, lastName);
      SheetEventsShape(s, lastName);
      TitlesConcat(prev, SheetEvents(s, lastName));
      PagesConcat(prev, SheetEvents(s, lastName));
    }
  }

  /** The end of a worksheet: a 10 mm gap, and a page break unless it is the
      last sheet. */
  lemma SheetTailObservations(brk: bool)
    ensures var tail := [Ln(Some(10))] + (if brk then [AddPage] else []);
      Titles(tail) == [] && Pages(tail) == (if brk then 1 else 0)
  {
    ObserveSingle(Ln(Some(10)));
    ObserveSingle(AddPage);
    if brk {
      TitlesConcat([Ln(Some(10))], [AddPage]);
      PagesConcat([Ln(Some(10))], [AddPage]);
    } else {
      assert [Ln(Some(10))] + [] == [Ln(Some(10))];
    }
  }

  lemma SheetEventsShape(s: Sheet, lastName: string)
    ensures Titles(SheetEvents(s, lastName)) == [SheetTitlePrefix + s.name]
    ensures Pages(SheetEvents(s, lastName)) == if s.name != lastName then 1 else 0
  {
    var t := TitleEvents(SheetTitlePrefix + s.name, 14);
    var rows := Rows(XlsxCell, s.rows, 40.0, [SetFont(Regular10)]);
    var brk: seq<Event> := if s.name != lastName then [AddPage] else [];
    var tail := [Ln(Some(10))] + brk;
    AppendAssoc(t + rows, [Ln(Some(10))], brk);
    RowsQuiet(XlsxCell, s.rows, 40.0, [SetFont(Regular10)]);
    QuietObservations(rows);
    TitleObservations(SheetTitlePrefix + s.name, 14);
    SheetTailObservations(s.name != lastName);
    TitlesConcat(t, rows);
    PagesConcat(t, rows);
    TitlesConcat(t + rows, tail);
    PagesConcat(t + rows, tail);
  }

  /** A workbook with distinct sheet names draws one title per sheet, in
      workbook order, and one page per sheet: `add_page` runs between sheets
      and not after the last. */
  lemma XlsxShape(sheets: seq<Sheet>)
    requires sheets != [] && DistinctNames(sheets)
    ensures Titles(XlsxEvents(sheets)) == SheetTitles(sheets)
    ensures Pages(XlsxEvents(sheets)) == |sheets|
  {
    var n := |sheets| - 1;
    var last := sheets[n];
    var prev := SheetBlocks(sheets[..n], last.name);
    var final := SheetEvents(last, last.name);
    assert XlsxEvents(sheets) == Prelude + (prev + final);
    SheetBlocksShape(sheets, n, last.name);
    SheetEventsShape(last, last.name);
    TitlesConcat(prev, final);
    PagesConcat(prev, final);
    PreludeObservations();
    TitlesConcat(Prelude, prev + final);
    PagesConcat(Prelude, prev + final);
    AppendEmpty(SheetTitles(sheets));
  }

  /** The number of rows, and of cells, over all worksheets. */
  function SheetRowTotal(sheets: seq<Sheet>): nat {
    if sheets == [] then 0 else SheetRowTotal(sheets[..|sheets| - 1]) + |sheets[|sheets| - 1].rows|
  }

  function SheetCellTotal(sheets: seq<Sheet>): nat {
    if sheets == [] then 0 else SheetCellTotal(sheets[..|sheets| - 1]) + CellTotal(sheets[|sheets| - 1].rows)
  }

  /** Rows led by a regular 10pt font reset: one row end per row, one cell per value. */
  lemma Regular10RowsCounts<A>(cell: A -> string, rows: seq<seq<A>>)
    ensures RowEnds(Rows(cell, rows, 40.0, [SetFont(Regular10)])) == |rows|
    ensures TableCells(Rows(cell, rows, 40.0, [SetFont(Regular10)])) == CellTotal(rows)
  {
    ObserveSingle(SetFont(Regular10));
    RowsCounts(cell, rows, 40.0, [SetFont(Regular10)]);
  }

  lemma SheetTailCounts(brk: bool)
    ensures var tail := [Ln(Some(10))] + (if brk then [AddPage] else []);
      RowEnds(tail) == 0 && TableCells(tail) == 0
  {
    ObserveSingle(Ln(Some(10)));
    ObserveSingle(AddPage);
    AppendEmpty([Ln(Some(10))]);
    RowEndsConcat([Ln(Some(10))], if brk then [AddPage] else []);
    TableCellsConcat([Ln(Some(10))], if brk then [AddPage] else []);
  }

  /** Row ends and cells of a log framed by two logs that draw neither. */
  lemma CountsBetween(pre: seq<Event>, mid: seq<Event>, post: seq<Event>)
    requires RowEnds(pre) == 0 && TableCells(pre) == 0
    requires RowEnds(post) == 0 && TableCells(post) == 0
    ensures RowEnds(pre + mid + post) == RowEnds(mid)
    ensures TableCells(pre + mid + post) == TableCells(mid)
  {
    RowEndsConcat(pre, mid);
    TableCellsConcat(pre, mid);
    RowEndsConcat(pre + mid, post);
    TableCellsConcat(pre + mid, post);
  }

  lemma SheetEventsCounts(s: Sheet, lastName: string)
    ensures RowEnds(SheetEvents(s, lastName)) == |s.rows|
    ensures TableCells(SheetEvents(s, lastName)) == CellTotal(s.rows)
  {
    var t := TitleEvents(SheetTitlePrefix + s.name, 14);
    var rows := Rows(XlsxCell, s.rows, 40.0, [SetFont(Regular10)]);
    var brk: seq<Event> := if s.name != lastName then [AddPage] else [];
    var tail := [Ln(Some(10))] + brk;
    assert SheetEvents(s, lastName) == t + rows + tail by {
      AppendAssoc(t + rows, [Ln(Some(10))], brk);
    }
    TitleObservations(SheetTitlePrefix + s.name, 14);
    SheetTailCounts(s.name != lastName);
    Regular10RowsCounts(XlsxCell, s.rows);
    CountsBetween(t, rows, tail);
  }

  lemma {:induction false} SheetBlocksCounts(sheets: seq<Sheet>, lastName: string)
    ensures RowEnds(SheetBlocks(sheets, lastName)) == SheetRowTotal(sheets)
    ensures TableCells(SheetBlocks(sheets, lastName)) == SheetCellTotal(sheets)
  {
    if sheets != [] {
      var s := sheets[|sheets| - 1];
      SheetBlocksCounts(sheets[..|sheets| - 1], lastName);
      SheetEventsCounts(s, lastName);
      RowEndsConcat(SheetBlocks(sheets[..|sheets| - 1], lastName), SheetEvents(s, lastName));
      TableCellsConcat(SheetBlocks(sheets[..|sheets| - 1], lastName), SheetEvents(s, lastName));
    }
  }

  /** A workbook draws one table row per worksheet row and one cell per
      worksheet value, `None` included. */
  lemma XlsxRowCounts(sheets: seq<Sheet>)
    ensures RowEnds(XlsxEvents(sheets)) == SheetRowTotal(sheets)
    ensures TableCells(XlsxEvents(sheets)) == SheetCellTotal(sheets)
  {
    SheetBlocksCounts(sheets, LastName(sheets));
    PreludeObservations();
    RowEndsConcat(Prelude, SheetBlocks(sheets, LastName(sheets)));
    TableCellsConcat(Prelude, SheetBlocks(sheets, LastName(sheets)));
  }

  /** The texts of the shapes that carry non-blank text, sanitised, in order. */
  function ShapeTexts(shapes: seq<Shape>): seq<string> {
    if shapes == [] then []
    else
      var sh := shapes[|shapes| - 1];
      ShapeTexts(shapes[..|shapes| - 1])
      + (if sh.text.Some? && !Blank(sh.text.value) then [Sanitize(sh.text.value)] else [])
  }

  lemma {:induction false} ShapeBlocksParagraphs(shapes: seq<Shape>)
    ensures Paragraphs(ShapeBlocks(shapes)) == ShapeTexts(shapes)
    ensures Pages(ShapeBlocks(shapes)) == 0 && Titles(ShapeBlocks(shapes)) == []
  {
    if shapes != [] {
      var sh := shapes[|shapes| - 1];
      ShapeBlocksParagraphs(shapes[..|shapes| - 1]);
      ParagraphsConcat(ShapeBlocks(shapes[..|shapes| - 1]), ShapeEvents(sh));
      PagesConcat(ShapeBlocks(shapes[..|shapes| - 1]), ShapeEvents(sh));
      TitlesConcat(ShapeBlocks(shapes[..|shapes| - 1]), ShapeEvents(sh));
      if sh.text.Some? {
        TextEventsCases(sh.text.value);
        StripEmptyIffBlank(sh.text.value);
      }
    }
  }

  function SlideTitles(n: nat): seq<string> {
    if n == 0 then [] else SlideTitles(n - 1) + [SlideTitle(n - 1)]
  }

  function DeckTexts(slides: seq<Slide>): seq<string> {
    if slides == [] then []
    else DeckTexts(slides[..|slides| - 1]) + ShapeTexts(slides[|slides| - 1].shapes)
  }

  /** The page break and title that open a slide. */
  lemma SlideHeadShape(i: nat)
    ensures var head := (if i > 0 then [AddPage] else []) + TitleEvents(SlideTitle(i), 16);
      Titles(head) == [SlideTitle(i)] && Pages(head) == (if i > 0 then 1 else 0) && Paragraphs(head) == []
  {
    var t := TitleEvents(SlideTitle(i), 16);
    TitleObservations(SlideTitle(i), 16);
    if i > 0 {
      ObserveSingle(AddPage);
      TitlesConcat([AddPage], t);
      PagesConcat([AddPage], t);
      ParagraphsConcat([AddPage], t);
    } else {
      AppendEmpty(t);
    }
  }

  lemma SlideEventsShape(i: nat, slide: Slide)
    ensures Titles(SlideEvents(i, slide)) == [SlideTitle(i)]
    ensures Pages(SlideEvents(i, slide)) == if i > 0 then 1 else 0
    ensures Paragraphs(SlideEvents(i, slide)) == ShapeTexts(slide.shapes)
  {
    var head := (if i > 0 then [AddPage] else []) + TitleEvents(SlideTitle(i), 16);
    var b := ShapeBlocks(slide.shapes);
    SlideHeadShape(i);
    ShapeBlocksParagraphs(slide.shapes);
    TitlesConcat(head, b);
    PagesConcat(head, b);
    ParagraphsConcat(head, b);
    AppendEmpty([SlideTitle(i)]);
    AppendEmpty(ShapeTexts(slide.shapes));
  }

  lemma {:induction false} SlideBlocksShape(slides: seq<Slide>)
    ensures Titles(SlideBlocks(slides)) == SlideTitles(|slides|)
    ensures Pages(SlideBlocks(slides)) == if slides == [] then 0 else |slides| - 1
    ensures Paragraphs(SlideBlocks(slides)) == DeckTexts(slides)
  {
    if slides != [] {
      var n := |slides|;
      var prev := SlideBlocks(slides[..n - 1]);
      SlideBlocksShape(slides[..n - 1]);
      SlideEventsShape(n - 1, slides[n - 1]);
      TitlesConcat(prev, SlideEvents(n - 1, slides[n - 1]));
      PagesConcat(prev, SlideEvents(n - 1, slides[n - 1]));
      ParagraphsConcat(prev, SlideEvents(n - 1, slides[n - 1]));
    }
  }

  /** A deck of n slides draws the titles "Slayt 1" .. "Slayt n" in order on
      max(1, n) pages (a page is added for every slide but the first), and
      the sanitised non-blank shape texts, slide by slide, in shape order. */
  lemma PptxShape(slides: seq<Slide>)
    ensures Titles(PptxEvents(slides)) == SlideTitles(|slides|)
    ensures Pages(PptxEvents(slides)) == if slides == [] then 1 else |slides|
    ensures Paragraphs(PptxEvents(slides)) == DeckTexts(slides)
  {
    SlideBlocksShape(slides);
    TitlesConcat(Prelude, SlideBlocks(slides));
    PagesConcat(Prelude, SlideBlocks(slides));
    ParagraphsConcat(Prelude, SlideBlocks(slides));
    PreludeObservations();
  }

  // ----- Plain text

  /** The sanitised non-blank lines, in order. */
  function NonBlankLines(lines: seq<string>): seq<string> {
    if lines == [] then []
    else
      var l := lines[|lines| - 1];
      NonBlankLines(lines[..|lines| - 1]) + (if Blank(l) then [] else [Sanitize(l)])
  }

  lemma {:induction false} TextBlocksParagraphs(lines: seq<string>)
    ensures Paragraphs(TextBlocks(lines)) == NonBlankLines(lines)
    ensures Titles(TextBlocks(lines)) == [] && Pages(TextBlocks(lines)) == 0
  {
    if lines != [] {
      var l := lines[|lines| - 1];
      TextBlocksParagraphs(lines[..|lines| - 1]);
      TextEventsCases(l);
      ParagraphsConcat(TextBlocks(lines[..|lines| - 1]), TextEvents(l));
      TitlesConcat(TextBlocks(lines[..|lines| - 1]), TextEvents(l));
      PagesConcat(TextBlocks(lines[..|lines| - 1]), TextEvents(l));
    }
  }

  /** The set-up, a 16pt title, then `add_text` for each line: the title,
      one page, and the sanitised non-blank lines in order. */
  lemma TitledLinesShape(title: string, lines: seq<string>)
    ensures var log := Prelude + TitleEvents(title, 16) + TextBlocks(lines);
      Titles(log) == [title] && Paragraphs(log) == NonBlankLines(lines) && Pages(log) == 1
  {
    var t := TitleEvents(title, 16);
    var b := TextBlocks(lines);
    TextBlocksParagraphs(lines);
    PreludeObservations();
    TitleObservations(title, 16);
    TitlesConcat(Prelude, t);
    TitlesConcat(Prelude + t, b);
    PagesConcat(Prelude, t);
    PagesConcat(Prelude + t, b);
    ParagraphsConcat(Prelude, t);
    ParagraphsConcat(Prelude + t, b);
  }

  /** A text file becomes its title and one paragraph per non-blank line,
      sanitised, in order, on one page (before automatic breaks). */
  lemma TxtShape(text: string)
    ensures Titles(TxtEvents(text)) == [TxtTitle]
    ensures Paragraphs(TxtEvents(text)) == NonBlankLines(Split(text, '\n'))
    ensures Pages(TxtEvents(text)) == 1
  {
    TitledLinesShape(TxtTitle, Split(text, '\n'));
  }

  /** pandoc's plain text becomes the title "RTF Belgesi" and one paragraph
      per non-blank line, sanitised, in order, on one page. */
  lemma RtfShape(text: string)
    ensures Titles(RtfEvents(text)) == [RtfTitle]
    ensures Paragraphs(RtfEvents(text)) == NonBlankLines(Split(text, '\n'))
    ensures Pages(RtfEvents(text)) == 1
  {
    TitledLinesShape(RtfTitle, Split(text, '\n'));
  }

  // ----- HTML

  /** The `line.strip()` test of `html_to_pdf` repeats the one inside
      `add_text`: filtering the lines first draws the same calls. */
  lemma {:induction false} HtmlLinesAreTextBlocks(lines: seq<string>)
    ensures HtmlLines(lines) == TextBlocks(lines)
  {
    if lines != [] {
      HtmlLinesAreTextBlocks(lines[..|lines| - 1]);
      var l := lines[|lines| - 1];
      if Strip(l) == [] {
        assert TextEvents(l) == [];
      }
    }
  }

  /** An HTML page with a title string becomes that title and one paragraph
      per non-blank line of the extracted text, sanitised, in order, on one
      page. */
  lemma HtmlShape(title: string, text: string)
    ensures Titles(HtmlEvents(title, text)) == [title]
    ensures Paragraphs(HtmlEvents(title, text)) == NonBlankLines(Split(text, '\n'))
    ensures Pages(HtmlEvents(title, text)) == 1
  {
    HtmlLinesAreTextBlocks(Split(text, '\n'));
    TitledLinesShape(title, Split(text, '\n'));
  }

  // ----- DOCX documents

  /** The sanitised texts of the non-blank paragraphs, in order. */
  function NonBlankTexts(ps: seq<Paragraph>): seq<string> {
    if ps == [] then []
    else
      var p := ps[|ps| - 1];
      NonBlankTexts(ps[..|ps| - 1]) + (if Blank(p.text) then [] else [Sanitize(p.text)])
  }

  /** One paragraph block: a font change, then its line when it is kept. */
  lemma ParagraphShape(font: Font, keep: bool, line: string)
    ensures var e := [SetFont(font)] + (if keep then [MultiCell(10, line)] else []);
      Paragraphs(e) == (if keep then [line] else []) && Pages(e) == 0 && Titles(e) == []
      && TableCells(e) == 0 && RowEnds(e) == 0
  {
    var f := SetFont(font);
    var m := MultiCell(10, line);
    assert [f] == [] + [f];
    if keep {
      assert Paragraphs([f] + [m]) == [line] by {
        ParagraphsSnoc([], f); ParagraphsSnoc([f], m);
      }
      assert Pages([f] + [m]) == 0 by {
        PagesSnoc([], f); PagesSnoc([f], m);
      }
      assert Titles([f] + [m]) == [] by {
        TitlesSnoc([], f); TitlesSnoc([f], m);
      }
      assert TableCells([f] + [m]) == 0 by {
        TableCellsSnoc([], f); TableCellsSnoc([f], m);
      }
      assert RowEnds([f] + [m]) == 0 by {
        RowEndsSnoc([], f); RowEndsSnoc([f], m);
      }
    } else {
      assert [f] + [] == [f];
      ObserveSingle(f);
    }
  }

  /** A paragraph is drawn in bold 14pt exactly when its style name starts
      with "Heading", and in regular 12pt otherwise: its block opens with
      that font, and the font is still in effect after the block. */
  lemma HeadingsBold(log: seq<Event>, p: Paragraph)
    ensures ParagraphEvents(p)[0] == SetFont(Font(true, 14)) <==> StartsWith(p.style, "Heading")
    ensures !StartsWith(p.style, "Heading") ==> ParagraphEvents(p)[0] == SetFont(Regular12)
    ensures CurrentFont(log + ParagraphEvents(p)) == Some(StyleFont(p.style))
  {
    var f := [SetFont(StyleFont(p.style))];
    var text := TextEvents(p.text);
    assert CurrentFont(text) == None by {
      if text != [] {
        assert text[..0] == [];
      }
    }
    assert CurrentFont(f) == Some(StyleFont(p.style));
    CurrentFontConcat(f, text);
    CurrentFontConcat(log, f + text);
  }

  lemma {:induction false} ParagraphBlocksShape(ps: seq<Paragraph>)
    ensures Paragraphs(ParagraphBlocks(ps)) == NonBlankTexts(ps)
    ensures Pages(ParagraphBlocks(ps)) == 0 && Titles(ParagraphBlocks(ps)) == []
    ensures TableCells(ParagraphBlocks(ps)) == 0 && RowEnds(ParagraphBlocks(ps)) == 0
  {
    if ps != [] {
      var p := ps[|ps| - 1];
      ParagraphBlocksShape(ps[..|ps| - 1]);
      StripEmptyIffBlank(p.text);
      assert TextEvents(p.text) == if Blank(p.text) then [] else [MultiCell(10, Sanitize(p.text))];
      ParagraphShape(StyleFont(p.style), !Blank(p.text), Sanitize(p.text));
      ObserveConcat(ParagraphBlocks(ps[..|ps| - 1]), ParagraphEvents(p));
    }
  }

  /** The number of rows, and of cells, of a list of tables. */
  function RowTotal(tables: seq<Table>): nat {
    if tables == [] then 0 else RowTotal(tables[..|tables| - 1]) + |tables[|tables| - 1]|
  }

  function CellTotals(tables: seq<Table>): nat {
    if tables == [] then 0 else CellTotals(tables[..|tables| - 1]) + CellTotal(tables[|tables| - 1])
  }

  /** One DOCX table block: its rows and cells, and nothing else. */
  lemma TableBlockShape(table: Table)
    ensures var b := [Ln(Some(5))] + Rows(DocxCell, table, 40.0, [SetFont(Regular10)]);
      RowEnds(b) == |table| && TableCells(b) == CellTotal(table)
      && Pages(b) == 0 && Titles(b) == [] && Paragraphs(b) == []
  {
    Regular10RowsCounts(DocxCell, table);
    Regular10RowsQuiet(DocxCell, table);
    GapObservations(Rows(DocxCell, table, 40.0, [SetFont(Regular10)]));
  }

  /** A leading `ln(5)` changes no observation. */
  lemma GapObservations(log: seq<Event>)
    ensures var g := [Ln(Some(5))] + log;
      RowEnds(g) == RowEnds(log) && TableCells(g) == TableCells(log)
      && Pages(g) == Pages(log) && Titles(g) == Titles(log) && Paragraphs(g) == Paragraphs(log)
  {
    ObserveSingle(Ln(Some(5)));
    ObserveConcat([Ln(Some(5))], log);
  }

  lemma Regular10RowsQuiet<A>(cell: A -> string, rows: seq<seq<A>>)
    ensures var log := Rows(cell, rows, 40.0, [SetFont(Regular10)]);
      Pages(log) == 0 && Titles(log) == [] && Paragraphs(log) == []
  {
    RowsQuiet(cell, rows, 40.0, [SetFont(Regular10)]);
    QuietObservations(Rows(cell, rows, 40.0, [SetFont(Regular10)]));
  }

  lemma {:induction false} TableBlocksShape(tables: seq<Table>)
    ensures RowEnds(TableBlocks(tables)) == RowTotal(tables)
    ensures TableCells(TableBlocks(tables)) == CellTotals(tables)
    ensures Pages(TableBlocks(tables)) == 0 && Titles(TableBlocks(tables)) == []
    ensures Paragraphs(TableBlocks(tables)) == []
  {
    if tables != [] {
      var table := tables[|tables| - 1];
      var prev := TableBlocks(tables[..|tables| - 1]);
      var block := [Ln(Some(5))] + Rows(DocxCell, table, 40.0, [SetFont(Regular10)]);
      assert TableBlocks(tables) == prev + block by {
        AppendAssoc(prev, [Ln(Some(5))], Rows(DocxCell, table, 40.0, [SetFont(Regular10)]));
      }
      TableBlocksShape(tables[..|tables| - 1]);
      TableBlockShape(table);
      ObserveConcat(prev, block);
    }
  }

  /** A DOCX document is one page (before automatic breaks) with no title
      line: the sanitised texts of its non-blank paragraphs in order, then
      one drawn row per table row and one cell per table cell. */
  lemma DocxShape(doc: DocxDocument)
    ensures Titles(DocxEvents(doc)) == [] && Pages(DocxEvents(doc)) == 1
    ensures Paragraphs(DocxEvents(doc)) == NonBlankTexts(doc.paragraphs)
    ensures RowEnds(DocxEvents(doc)) == RowTotal(doc.tables)
    ensures TableCells(DocxEvents(doc)) == CellTotals(doc.tables)
  {
    var ps := ParagraphBlocks(doc.paragraphs);
    var ts := TableBlocks(doc.tables);
    ParagraphBlocksShape(doc.paragraphs);
    TableBlocksShape(doc.tables);
    PreludeObservations();
    ObserveConcat(Prelude, ps);
    ObserveConcat(Prelude + ps, ts);
    AppendEmpty(NonBlankTexts(doc.paragraphs));
  }

  lemma {:induction false} NonBlankLinesLatin1(lines: seq<string>)
    ensures forall k :: 0 <= k < |NonBlankLines(lines)| ==> IsLatin1(NonBlankLines(lines)[k])
  {
    if lines != [] {
      var l := lines[|lines| - 1];
      NonBlankLinesLatin1(lines[..|lines| - 1]);
      SanitizeLatin1(l);
    }
  }

  /** The fixed titles of the text and worksheet conversions are not Latin-1:
      `add_title` hands them to FPDF unsanitised. */
  lemma FixedTitlesNotLatin1()
    ensures !IsLatin1(TxtTitle) && !IsLatin1(SheetTitlePrefix)
    ensures IsLatin1(RtfTitle) && IsLatin1(CsvTitle) && IsLatin1(DefaultHtmlTitle)
  {
    assert !IsLatin1Char(TxtTitle[12]);
    assert !IsLatin1Char(SheetTitlePrefix[3]);
  }
}
