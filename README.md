# novapdfeditor document conversion and compression, in Dafny

This project models the document-to-PDF and PDF compression scripts of
novapdfeditor:

- **doc_converter_all.py** is the current converter. `PDFConverter` wraps an FPDF
  document. Eight extractors (`txt`, `docx`, `xlsx`, `pptx`, `html`, `csv`,
  `rtf`, `pdf`) drive it. `convert_to_pdf` picks the extractor through an
  if/elif chain over the MIME type and the lower-cased file name.
- **doc_converter.py** is the older converter. Each extractor draws on its own FPDF
  document. HTML and RTF text is cleaned with regular expressions. Tables
  share the page width. The dispatcher compares file-name suffixes
  case-sensitively and checks the DOCX and Excel libraries itself.
- **qpdf_compressor.py, compress_pdf.py and pdf_compressor.py** are the three
  compressors. Each maps a compression level (`light`, `medium`, `high`, or
  anything else) to qpdf options or a Ghostscript `-dPDFSETTINGS` preset,
  builds the command line, and reports the sizes or the error.
- **scan_to_pdf.py** fits a scanned image on an A4 page and centres it.

The FPDF document is a `Render.Fpdf` object whose methods append one `Event`
per FPDF call to its `log`. Each extractor is an imperative method over that
object, proved to produce exactly the log a specification function describes.
Lemmas then state what the log shows: pages, title lines, paragraphs,
table cells and row ends, and the longest cell text. The dispatchers, the
regular-expression cleaners, the compressor mappings and the placement
geometry are functions, with lemmas about them.

Modules: `Wrappers`, `Text` (Python string behaviour), `Render` (the FPDF
event log), `ConverterEvents` and `Converter` (doc_converter_all.py),
`Cleaners` and `LegacyConverter` (doc_converter.py), `QpdfCompressor`,
`Ghostscript`, `CompressPdf`, `PdfCompressor`, `ScanToPdf`.

Where the code decides, the model follows the code. Two examples:

- Each branch of `convert_to_pdf` tests one format's MIME type *or* its
  suffix. So an earlier format's suffix wins over a later format's MIME type
  (`Converter.ClassifySome`).
- The older HTML path draws the cleaned text as one paragraph, not one per
  line.

## Model

| member | source | states |
|---|---|---|
| `Converter.PdfConverter.constructor` | doc_converter_all.py:63-67 | A new converter's log is one page, regular 12pt and a 15 mm page-break margin |
| `Converter.PdfConverter.AddTitle` | doc_converter_all.py:69-73 | Appends the bold title line and a 5 mm gap, then leaves the font at regular 12pt and the page unchanged |
| `Converter.PdfConverter.AddText` | doc_converter_all.py:75-83 | Appends the calls for `add_text` and keeps the font and page |
| `Converter.PdfConverter.AddTable` | doc_converter_all.py:85-99 | Appends the header row when headers are given, then every data row with clipped cells |
| `Converter.DrawCells` | doc_converter_all.py:94-98 | The cell loop draws one bordered cell per value, in order |
| `Converter.DrawRows` | doc_converter_all.py:93-99 | The row loop draws each row's cells followed by a line break |
| `Converter.DrawSheet` | doc_converter_all.py:199-220 | One worksheet: title, rows at 10pt, a 10 mm gap, and a new page unless it is the workbook's last sheet |
| `Converter.DrawSlide` | doc_converter_all.py:254-265 | One slide: a new page except for the first, the title "Slayt i+1", then each shape with non-blank text |
| `Converter.TxtToPdf` | doc_converter_all.py:106-124 | The log is the title plus one `add_text` per `\n`-separated line |
| `Converter.DocxToPdf` | doc_converter_all.py:128-178 | Missing python-docx raises ImportError and a failed parse fails; otherwise the paragraphs (Heading styles bold 14pt) come first, then the tables |
| `Converter.XlsxToPdf` | doc_converter_all.py:182-233 | Missing openpyxl raises ImportError and a failed load fails; otherwise every sheet in workbook order |
| `Converter.PptxToPdf` | doc_converter_all.py:237-278 | Missing python-pptx raises ImportError and a failed parse fails; otherwise every slide in deck order |
| `Converter.HtmlToPdf` | doc_converter_all.py:282-315 | Missing bs4 raises ImportError. A title element without a string fails the drawing. Otherwise the output is the title's string (or "HTML Belgesi" without an element), then each non-blank line of the extracted text |
| `Converter.CsvToPdf` | doc_converter_all.py:319-364 | No library guard. A failed `read_csv` fails; otherwise the title, the clipped header row and the data rows at one shared width |
| `Converter.RtfToPdf` | doc_converter_all.py:368-400 | Missing pypandoc raises ImportError and a failed conversion fails; otherwise the title and one `add_text` per line |
| `Converter.PdfToPdf` | doc_converter_all.py:404-409 | Fails exactly when PyPDF2 is missing; otherwise returns the input bytes unchanged |
| `Converter.ConvertToPdf` | doc_converter_all.py:413-469 | The result is the first claiming format's extractor result, or ValueError naming the MIME type |
| `Converter.RunExtractor` | doc_converter_all.py:432-461 | Each branch calls its extractor and passes the result or the error through unchanged |
| `Converter.Classify` | doc_converter_all.py:429-464 | The if/elif chain of `convert_to_pdf` on the MIME type and `file_name.lower()`; `ClassifySome` and `ClassifyNone` state which format it picks |
| `Converter.Convert` | doc_converter_all.py:413-469 | `convert_to_pdf` as a function: classify, then the format's guard and extractor, else ValueError; `ConvertToPdf` is proved equal to it |
| `Converter.ClassifyIsFirstClaim` | doc_converter_all.py:429-464 | The if/elif chain equals "the first format in DOCX..PDF order that claims the file" on the lower-cased name |
| `Converter.ChainIsFirstMatch` | doc_converter_all.py:431-464 | The chain of eight branches is the first match over the fixed format order, for any claim test |
| `Converter.ChainSome` | doc_converter_all.py:431-464 | The chain picks k exactly when k claims the file and no format before k does |
| `Converter.ChainNone` | doc_converter_all.py:431-464 | The chain finds nothing exactly when no format claims the file |
| `Converter.ClassifySome` | doc_converter_all.py:429-464 | `convert_to_pdf` picks k exactly when the MIME type or lower-cased suffix claims k and claims no earlier format |
| `Converter.ClassifyNone` | doc_converter_all.py:462-464 | ValueError is raised exactly when neither the MIME type nor the lower-cased suffix claims any format |
| `Converter.DispatchUnsupported` | doc_converter_all.py:463-464 | The unsupported-type error comes only from the dispatch, and only when nothing was classified |
| `Converter.GuardBeforeParse` | doc_converter_all.py:128-139 | A missing optional library fails with ImportError, whatever the input bytes parse to |
| `Converter.UnguardedFormats` | doc_converter_all.py:319-326 | CSV and TXT never fail for a missing library |
| `Converter.PdfPassthrough` | doc_converter_all.py:404-409 | With PyPDF2 present, a PDF comes back byte for byte |
| `Converter.RenderedOpensPage` | doc_converter_all.py:63-67 | Every drawn conversion starts with the converter set-up, so it has at least one page |
| `Converter.HtmlTitleCases` | doc_converter_all.py:282-315 | With bs4 present, an HTML conversion fails exactly when the title element has no string (FPDF's `cell` gets `None`). Otherwise the only title line is the element's string, or "HTML Belgesi" without an element, followed by the sanitised non-blank lines, on one page |
| `ConverterEvents.TextEventsCases` | doc_converter_all.py:75-80 | `add_text` draws nothing exactly for blank text; otherwise it draws one paragraph holding the sanitised text |
| `ConverterEvents.TxtEvents` | doc_converter_all.py:111-116 | The calls of `txt_to_pdf`: set-up, title "Metin Dosyası", `add_text` per `\n`-line; `TxtShape` states what they draw |
| `ConverterEvents.RtfEvents` | doc_converter_all.py:379-387 | The calls of `rtf_to_pdf` on pandoc's text: set-up, title "RTF Belgesi", `add_text` per line; `RtfShape` states what they draw |
| `ConverterEvents.HtmlTitle` | doc_converter_all.py:297 | `soup.title.string if soup.title else "HTML Belgesi"`: None for an element without a string; `HtmlTitleCases` states the consequence |
| `ConverterEvents.HtmlEvents` | doc_converter_all.py:294-307 | The calls of `html_to_pdf` once the title is a text; `HtmlShape` states what they draw |
| `ConverterEvents.StyleFont` | doc_converter_all.py:146-149 | The font a DOCX paragraph sets from its style name; `HeadingsBold` states it |
| `ConverterEvents.DocxEvents` | doc_converter_all.py:141-164 | The calls of `docx_to_pdf`: set-up, each paragraph's font and `add_text`, then each table after a 5 mm gap; `DocxShape` states what they draw |
| `ConverterEvents.XlsxEvents` | doc_converter_all.py:196-219 | The calls of `xlsx_to_pdf`, sheet by sheet; `XlsxShape`, `XlsxRowCounts` and `XlsxCellsBounded` state what they draw |
| `ConverterEvents.PptxEvents` | doc_converter_all.py:251-266 | The calls of `pptx_to_pdf`, slide by slide; `PptxShape` states what they draw |
| `ConverterEvents.CsvEvents` | doc_converter_all.py:329-354 | The calls of `csv_to_pdf`: title, header row and data rows at `ColumnWidth`; `CsvRowCounts`, `CsvGrid` and `CsvCellsBounded` state what they draw |
| `ConverterEvents.TitleRestoresFont` | doc_converter_all.py:69-73 | After `add_title` the current font is regular 12pt, whatever came before |
| `ConverterEvents.PreludeObservations` | doc_converter_all.py:63-67 | The set-up opens one page and draws no title, paragraph, cell or row |
| `ConverterEvents.TitleObservations` | doc_converter_all.py:69-73 | A title draws exactly one title line and nothing else |
| `ConverterEvents.ColumnWidth` | doc_converter_all.py:337 | The CSV column width lies in (0, 40], all columns fit in 180 mm, and up to four columns get the full 40 |
| `ConverterEvents.RowsWithin` | doc_converter_all.py:93-99 | Rows whose cell function yields at most `limit` characters draw no longer cell |
| `ConverterEvents.RowsCounts` | doc_converter_all.py:93-99 | Each source row becomes exactly one drawn row holding one cell per value |
| `ConverterEvents.TableCellsBounded` | doc_converter_all.py:85-99 | `add_table` draws no cell longer than 15 characters, header or data |
| `ConverterEvents.DocxCellsBounded` | doc_converter_all.py:154-165 | No table cell of a converted DOCX exceeds 15 characters |
| `ConverterEvents.XlsxCellsBounded` | doc_converter_all.py:204-213 | No cell of a converted workbook exceeds 15 characters |
| `ConverterEvents.CsvCellsBounded` | doc_converter_all.py:340-356 | No header or data cell of a converted CSV exceeds 15 characters |
| `ConverterEvents.CsvRowCounts` | doc_converter_all.py:332-356 | A CSV with N data rows draws N+1 table rows; cells are one per column plus one per value |
| `ConverterEvents.CsvGrid` | doc_converter_all.py:332-356 | With rectangular rows the table is a full (N+1) x columns grid |
| `ConverterEvents.XlsxShape` | doc_converter_all.py:199-220 | A workbook with distinct sheet names draws one title per sheet, in workbook order, on exactly one page per sheet. The new-page test compares names with the last sheet's name. |
| `ConverterEvents.PptxShape` | doc_converter_all.py:254-265 | n slides draw titles "Slayt 1".."Slayt n" on max(1, n) pages, plus the sanitised non-blank shape texts in order |
| `ConverterEvents.TxtShape` | doc_converter_all.py:111-116 | A text file draws its title on one page, then each non-blank line sanitised, in order |
| `ConverterEvents.RtfShape` | doc_converter_all.py:382-387 | pandoc's plain text draws the title "RTF Belgesi" on one page, then each non-blank line sanitised, in order |
| `ConverterEvents.HtmlLinesAreTextBlocks` | doc_converter_all.py:305-307 | The `line.strip()` test repeats the one inside `add_text` (line 76): filtering first draws the same calls |
| `ConverterEvents.HtmlShape` | doc_converter_all.py:294-307 | An HTML page with a title string draws that title on one page, then each non-blank line of the extracted text sanitised, in order |
| `ConverterEvents.HeadingsBold` | doc_converter_all.py:145-151 | A paragraph's block opens with bold 14pt exactly when its style name starts with "Heading", else regular 12pt, and that font is in effect after the block |
| `ConverterEvents.DocxShape` | doc_converter_all.py:141-164 | A DOCX document draws no title, one page, the sanitised non-blank paragraph texts in order, one row end per table row and one cell per table cell |
| `ConverterEvents.XlsxRowCounts` | doc_converter_all.py:204-213 | A workbook draws one table row per worksheet row and one cell per worksheet value, `None` included |
| `ConverterEvents.NonBlankLinesLatin1` | doc_converter_all.py:79-80 | Every line that `add_text` draws is Latin-1 |
| `ConverterEvents.FixedTitlesNotLatin1` | doc_converter_all.py:69-71 | The TXT and worksheet titles are not Latin-1 and reach FPDF unsanitised; the RTF, CSV and HTML defaults are Latin-1 |
| `Text.Sanitize` | doc_converter_all.py:79 | The `encode('latin-1', 'replace')` round trip keeps the length |
| `Text.SanitizePointwise` | doc_converter_all.py:79 | Each character above U+00FF becomes '?', the others stay in place |
| `Text.SanitizeLatin1` | doc_converter_all.py:79 | The sanitised text is Latin-1 |
| `Text.SanitizeIdempotent` | doc_converter_all.py:79 | Sanitising twice is sanitising once |
| `Text.SanitizeIdentityIffLatin1` | doc_converter_all.py:79 | Sanitising changes nothing exactly when the text is already Latin-1 |
| `Text.Ellipsize` | doc_converter_all.py:96-97 | Text of at most 15 characters is kept; longer text becomes its first 12 characters plus "...", 15 in all |
| `Text.EllipsizeIdempotent` | doc_converter_all.py:96-97 | Clipping twice is clipping once |
| `Text.Prefix` | doc_converter_all.py:89 | `s[:n]` has length min(n, len(s)) and is a prefix of s |
| `Text.StripEmptyIffBlank` | doc_converter_all.py:76 | `text.strip()` is empty exactly when the text is all whitespace |
| `Text.StripIsSlice` | doc_converter_all.py:76 | `strip()` keeps a contiguous piece between a blank prefix and a blank suffix |
| `Text.StripEnds` | doc_converter_all.py:76 | What `strip()` keeps neither starts nor ends with whitespace |
| `Text.Split` | doc_converter_all.py:116 | `split('\n')` always yields at least one part |
| `Text.SplitPartsFree` | doc_converter_all.py:116 | No part of a split contains the separator |
| `Text.JoinSplit` | doc_converter_all.py:116 | Joining the split parts with the separator gives the text back |
| `Text.SplitJoin` | doc_converter_all.py:116 | Splitting the join of separator-free parts gives the parts back |
| `Text.LowerPointwise` | doc_converter_all.py:429 | `lower()` maps each character on its own and keeps the length |
| `Text.DecimalRoundTrip` | doc_converter_all.py:259 | `str(i+1)` in the slide title reads back as the number |
| `Text.DecimalDigits` | doc_converter_all.py:259 | `str(n)` is decimal digits with no leading zero |
| `Cleaners.CloseFromSpec` | doc_converter.py:210 | The lazy `(.*?)</title>` stops at the first closing tag, or fails if a line break comes first |
| `Cleaners.MatchFromSpec` | doc_converter.py:210 | The scan finds the leftmost start that has a match, and the shortest group from it |
| `Cleaners.SearchSpec` | doc_converter.py:210-212 | The search fails exactly when there is no match on one line; otherwise it yields the group of the leftmost, then shortest, match |
| `Cleaners.TitleSearchSpec` | doc_converter.py:210-214 | The same for `<title>…</title>`, case-insensitively; the title never contains a line break |
| `Cleaners.TitleSearch` | doc_converter.py:210-212 | `re.search(r'<title>(.*?)</title>', html, re.IGNORECASE)` and its group; `TitleSearchSpec` states what it finds |
| `Cleaners.StripTags` | doc_converter.py:220 | `re.sub(r'<[^>]*>', ' ', text)`; `StripTagsNoTag`, `StripTagsKeeps` and `StripTagsIdempotent` state it |
| `Cleaners.Normalize` | doc_converter.py:222 | `re.sub(r'\s+', ' ', text).strip()`; `NormalizeNormalized`, `NormalizeIdempotent` and `NormalizeKeepsText` state it |
| `Cleaners.ControlWords` | doc_converter.py:249 | `re.sub(r'\\[a-z0-9]+', ' ', text)`; `ControlWordsClean`, `ControlWordsKeeps` and `ControlWordsIdempotent` state it |
| `Cleaners.RemoveBraces` | doc_converter.py:251 | `re.sub(r'}', '', text)`; `RemoveBracesCounts` and `BracesGone` state it |
| `Cleaners.HtmlText` | doc_converter.py:218-222 | The HTML cleaning: tags to spaces, then whitespace normalised; `HtmlTextClean` states it |
| `Cleaners.RtfText` | doc_converter.py:247-253 | The four RTF substitutions in order; `RtfTextClean` states it |
| `Cleaners.StripTagsNoTag` | doc_converter.py:220 | After tag removal no '<' is followed by a '>' |
| `Cleaners.StripTagsKeeps` | doc_converter.py:220 | Text without a tag is unchanged |
| `Cleaners.StripTagsIdempotent` | doc_converter.py:220 | Removing tags twice is removing them once |
| `Cleaners.NormalizeNormalized` | doc_converter.py:222 | After whitespace collapsing and `strip()` the text is single-spaced and trimmed |
| `Cleaners.NormalizeIdempotent` | doc_converter.py:222 | Normalising twice is normalising once |
| `Cleaners.NormalizeKeepsText` | doc_converter.py:222 | Normalising keeps every non-whitespace character, in order |
| `Cleaners.RemoveRtfHeader` | doc_converter.py:247 | The header removal leaves a suffix of the text |
| `Cleaners.RemoveRtfHeaderCuts` | doc_converter.py:247 | With the first `\rtf1` at i and the first '{' after it at j, what is left is the text after j |
| `Cleaners.RemoveRtfHeaderKeeps` | doc_converter.py:247 | Without a '{' after any `\rtf1`, the text is unchanged |
| `Cleaners.FindMarkerFirst` | doc_converter.py:247 | The marker found is the first one |
| `Cleaners.ControlWordsClean` | doc_converter.py:249 | After the substitution no backslash is followed by a lower-case letter or digit |
| `Cleaners.ControlWordsKeeps` | doc_converter.py:249 | Text without a control word is unchanged |
| `Cleaners.ControlWordsIdempotent` | doc_converter.py:249 | Substituting twice is substituting once |
| `Cleaners.RemoveBracesCounts` | doc_converter.py:251 | Exactly the '}' characters are removed; every other character keeps its count |
| `Cleaners.BracesGone` | doc_converter.py:251 | No '}' remains |
| `Cleaners.BraceRejoinsControlWord` | doc_converter.py:249-251 | Removing braces after control words can create one: `\}a` ends as `\a` |
| `Cleaners.RtfTextClean` | doc_converter.py:247-253 | The RTF text drawn has no '}' and is single-spaced and trimmed |
| `Cleaners.HtmlTextClean` | doc_converter.py:220-222 | The HTML text drawn is normalised, has the tag-stripped text's non-space characters, and the stripped text has no tag |
| `LegacyConverter.ColumnShare` | doc_converter.py:101 | `pdf.w / len(df.columns)` is positive and the columns together span the page width |
| `LegacyConverter.CsvPage` | doc_converter.py:131-169 | `csv_to_pdf` as a function of pandas' frame; `CsvPageShape` states it |
| `LegacyConverter.XlsxPages` | doc_converter.py:86-115 | `xlsx_to_pdf` as a function of pandas' worksheets; `XlsxPagesShape` states it |
| `LegacyConverter.DocxPages` | doc_converter.py:45-61 | `docx_to_pdf` as a function of the paragraphs; `DocxPageShape` and `SameParagraphBlocks` state it |
| `LegacyConverter.TxtPage` | doc_converter.py:179-187 | `txt_to_pdf` as a function of the decoded text; `TxtPageShape` states it |
| `LegacyConverter.HtmlPage` | doc_converter.py:204-227 | `html_to_pdf` as a function of the decoded text; `HtmlPageShape` states it |
| `LegacyConverter.RtfPage` | doc_converter.py:247-262 | `rtf_to_pdf` as a function of the decoded text; `RtfPageShape` states it |
| `LegacyConverter.DrawHead` | doc_converter.py:93-98 | A new page, the bold 16pt title line, a 5 mm gap, then bold 12pt |
| `LegacyConverter.DrawBody` | doc_converter.py:101-115 | The unclipped header row, then the data rows at 10pt with clipped values |
| `LegacyConverter.DrawTable` | doc_converter.py:93-115 | Draws the table exactly when the frame has a column; with none, the division raises after the head was drawn |
| `LegacyConverter.CsvToPdf` | doc_converter.py:131-169 | The result is the "CSV Verileri" table, or ZeroDivisionError for a frame without columns |
| `LegacyConverter.XlsxToPdf` | doc_converter.py:77-128 | Every worksheet's table in order, or ZeroDivisionError as soon as one sheet has no column |
| `LegacyConverter.DrawParagraph` | doc_converter.py:50-61 | Sets the style's font, then draws the sanitised text unless it is blank |
| `LegacyConverter.DocxToPdf` | doc_converter.py:33-74 | A page, a 15 mm break margin, then each paragraph; tables are not read |
| `LegacyConverter.TxtToPdf` | doc_converter.py:172-194 | A page at 12pt, then one sanitised 8 mm `multi_cell` per line, empty lines included |
| `LegacyConverter.HtmlToPdf` | doc_converter.py:197-234 | A page, the title line when the search finds one, then the cleaned text as one paragraph |
| `LegacyConverter.RtfToPdf` | doc_converter.py:237-269 | The four substitutions, then one page with the cleaned text as one paragraph |
| `LegacyConverter.CasedChain` | doc_converter.py:276-299 | The chain's choice claims the file and is never PPTX or PDF |
| `LegacyConverter.Run` | doc_converter.py:276-296 | A branch never raises the unsupported-type error |
| `LegacyConverter.ConvertToPdf` | doc_converter.py:272-304 | The result is the first claiming branch's result, or ValueError naming the MIME type |
| `LegacyConverter.CasedChainIsFirstMatch` | doc_converter.py:276-299 | The chain is the first match over DOCX, XLSX, CSV, TXT, HTML, RTF |
| `LegacyConverter.ChainsAgree` | doc_converter.py:276-299 | When neither PPTX nor PDF claims the file, this chain and the current converter's pick the same format |
| `LegacyConverter.SameChoiceAsCurrent` | doc_converter.py:276-299 | On a lower-case name that PPTX and PDF do not claim, both converters pick the same branch |
| `LegacyConverter.NameClaimsLowered` | doc_converter.py:276 | A suffix that matches the name as given also matches it lower-cased |
| `LegacyConverter.CurrentAcceptsWhatCasedAccepts` | doc_converter.py:276-299 | Every file this dispatcher accepts, the current one accepts too |
| `LegacyConverter.OnlyCurrentHandlesPptxAndPdf` | doc_converter.py:276-299 | A file claimed only by PPTX or PDF is refused here and accepted by the current converter |
| `LegacyConverter.UnsupportedIffUnclaimed` | doc_converter.py:298-299 | ValueError is raised exactly when no branch claims the file |
| `LegacyConverter.GuardInDispatcher` | doc_converter.py:276-284 | Without python-docx or openpyxl the result is ImportError, whatever the input |
| `LegacyConverter.TableBlockShape` | doc_converter.py:93-115 | A table is one page with its title as the only title line and no paragraph; it has rows+1 row ends and one cell per header and value |
| `LegacyConverter.TableWithinLimitIffHeaders` | doc_converter.py:101-115 | Header cells carry the column names whole, so the table keeps to 15 characters exactly when every column name does |
| `LegacyConverter.ColumnsSpanPage` | doc_converter.py:101 | The header cells' widths add up to the page width |
| `LegacyConverter.CsvPageShape` | doc_converter.py:131-162 | A CSV converts exactly when it has a column; the page then holds the "CSV Verileri" table with rows+1 rows |
| `LegacyConverter.XlsxPagesShape` | doc_converter.py:86-115 | A workbook converts exactly when every sheet has a column; it then draws one titled page per sheet, in order |
| `LegacyConverter.TxtPageShape` | doc_converter.py:172-187 | One page, no title, one sanitised paragraph per line (as many as the split has parts), and the lines rejoin to the text |
| `LegacyConverter.DocxPageShape` | doc_converter.py:45-61 | One page, no title, and the sanitised texts of the non-blank paragraphs in order |
| `LegacyConverter.SameParagraphBlocks` | doc_converter.py:50-61 | The older converter draws DOCX paragraphs exactly as the current one does (doc_converter_all.py:145-151), so `HeadingsBold` holds for both |
| `LegacyConverter.HtmlPageShape` | doc_converter.py:204-227 | The title appears exactly when the search finds one; the cleaned text is the only paragraph |
| `LegacyConverter.RtfPageShape` | doc_converter.py:255-262 | One page, no title, and one paragraph holding no '}' |
| `QpdfCompressor.Join` | qpdf_compressor.py:26-28 | `os.path.join(dir, name)` ends with the name |
| `QpdfCompressor.LevelFlags` | qpdf_compressor.py:50-95 | The second pass's options per level; `LevelsNested` and `UnknownLevelRepeatsFirstPass` state them |
| `QpdfCompressor.CompressWithQpdf` | qpdf_compressor.py:12-128 | `compress_pdf_with_qpdf` with decoding, the two qpdf runs and the output as parameters; `ResultCases` states its result |
| `QpdfCompressor.Command` | qpdf_compressor.py:130-155 | `main` on `sys.argv`; `CommandStatus` states what it prints and its exit status |
| `QpdfCompressor.TempFilesDistinct` | qpdf_compressor.py:26-28 | input.pdf, optimized.pdf and output.pdf are three different paths in any directory |
| `QpdfCompressor.PassesChain` | qpdf_compressor.py:41-95 | The second pass reads the file the first pass writes, and every argument between `qpdf` and the paths is an option |
| `QpdfCompressor.LevelsNested` | qpdf_compressor.py:51-85 | Medium extends the base options and high extends medium; light drops object streams and keeps unreferenced objects, which high removes |
| `QpdfCompressor.UnknownLevelRepeatsFirstPass` | qpdf_compressor.py:86-95 | An unknown level repeats the first pass's options and does not get medium's recompression |
| `QpdfCompressor.ResultCases` | qpdf_compressor.py:23-128 | No error exactly when decoding and both passes succeed; sizes are then the input and output lengths; after an error both sizes are 0 and the PDF is "" |
| `QpdfCompressor.CommandStatus` | qpdf_compressor.py:137-155 | Exit status 1 only for fewer than two arguments; a failed compression is printed with status 0 |
| `Ghostscript.Resolution` | pdf_compressor.py:18-25 | The image resolution of each `-dPDFSETTINGS` preset, taken from Ghostscript's documentation: screen 72, ebook 150, printer and prepress 300 dpi. The comments give the figures for screen, ebook and prepress only. None for any other name |
| `CompressPdf.Quality` | compress_pdf.py:48-56 | The quality name per level; `QualityIsPreset` and `LightAndMediumSameResolution` state it |
| `CompressPdf.DefaultIsLight` | compress_pdf.py:8 | The `quality="printer"` default of `compress_pdf` (line 8) is the quality `main` picks for light (lines 49-56), and for no other level |
| `CompressPdf.GsCommand` | compress_pdf.py:17-27 | The Ghostscript argv of `compress_pdf`; `CommandCarriesQuality` states its shape |
| `CompressPdf.Command` | compress_pdf.py:32-105 | `main` on `sys.argv` with decoding, the gs run and the output as parameters; `OutcomeCases` states it |
| `CompressPdf.QualityIsPreset` | compress_pdf.py:49-56 | Every level maps to a Ghostscript preset, an unknown level maps to medium's, and resolution never rises from light to high |
| `CompressPdf.LightAndMediumSameResolution` | compress_pdf.py:49-52 | Light (printer) and medium (prepress) are different presets with the same 300 dpi |
| `CompressPdf.CommandCarriesQuality` | compress_pdf.py:17-27 | The command is `gs` with nine arguments: `-dPDFSETTINGS=/<quality>` fourth, the output file eighth, the input last |
| `CompressPdf.OutcomeCases` | compress_pdf.py:40-105 | Exit 0 exactly when decoding and Ghostscript succeed, with the input and output lengths; other failures print an error record and exit 1; short argv prints usage |
| `PdfCompressor.Settings` | pdf_compressor.py:17-25 | The preset per level; `SettingsArePresets` states it |
| `PdfCompressor.GsCommand` | pdf_compressor.py:27-38 | The Ghostscript argv of `compress_pdf`; `ScriptsDisagree` compares it with compress_pdf.py's |
| `PdfCompressor.Level` | pdf_compressor.py:50 | `sys.argv[2] if len(sys.argv) > 2 else "medium"`; `DefaultIsMedium` states it |
| `PdfCompressor.Command` | pdf_compressor.py:43-103 | `main` on `sys.argv` with decoding, the gs run and the output as parameters; `OutcomeCases` states it |
| `PdfCompressor.SettingsArePresets` | pdf_compressor.py:18-25 | Every level maps to a preset, unknown and missing levels map to medium's, and resolution falls strictly from light to high |
| `PdfCompressor.DefaultIsMedium` | pdf_compressor.py:50 | Without a level argument the command is medium's |
| `PdfCompressor.OutcomeCases` | pdf_compressor.py:47-103 | Exit 0 exactly when the input argument exists and decoding and Ghostscript succeed; every failure prints the error on stderr and exits 1 |
| `PdfCompressor.ScriptsDisagree` | pdf_compressor.py:17-38 | The two Ghostscript scripts' commands differ only in the preset, and the presets differ at every level |
| `PdfCompressor.LowerResolutionThanCompressPdf` | pdf_compressor.py:18-25 | At every level this script's resolution is no higher than compress_pdf.py's, and strictly lower except for light |
| `ScanToPdf.Place` | scan_to_pdf.py:32-50 | The image's placement as written, None for a zero height (the division raises); `PlaceFitsPage` and `SideMarginLost` state it |
| `ScanToPdf.PlaceInBox` | scan_to_pdf.py:39-50 | The placement with the comparison against the 190x277 box; `PlaceInBoxKeepsMargins` states it |
| `ScanToPdf.ImageToPdfFails` | scan_to_pdf.py:20-64 | `image_to_pdf` returns True exactly when `Image.open` succeeds, the height is non-zero (else the division at line 37 raises), and `pdf.image` and `pdf.output` return normally. Every exception gives False |
| `ScanToPdf.PlaceFitsPage` | scan_to_pdf.py:33-50 | The image lies on the page, centred both ways, keeps its aspect ratio, and one side reaches its margin |
| `ScanToPdf.SideMarginLost` | scan_to_pdf.py:39-46 | A 209x297 image is placed wider than 190 mm, leaving side margins under 10 mm |
| `ScanToPdf.PlaceInBoxKeepsMargins` | scan_to_pdf.py:39-50 | Comparing with the 190x277 box's aspect ratio keeps all four 10 mm margins, centring and the aspect ratio |
| `ScanToPdf.PlacementsAgreeOutsideGap` | scan_to_pdf.py:39-46 | The two placements differ only for aspect ratios between 190/277 and 210/297 |

## Findings

| source | as written | input that shows it | evidently intended | confidence | as-written member | corrected member |
|---|---|---|---|---|---|---|
| scan_to_pdf.py:39 | The fit test compares the image's aspect ratio with the page's (210/297), not with the 190x277 area inside the 10 mm margins | A 209x297-pixel image: the tall branch gives width 277·209/297 ≈ 194.9 mm and side margins of about 7.5 mm | Compare with 190/277 so that the 10 mm margins of the comments hold on every side | medium, not executed | `ScanToPdf.SideMarginLost` | `ScanToPdf.PlaceInBoxKeepsMargins` |

## Left out

- Base64 decoding and encoding, temporary files, `subprocess.run` of gs and qpdf, file sizes, and `print`/`sys.exit` are not modelled as code. The compressors take what these give as parameters: decoded bytes or an exception text, a command's success or error text, and the output bytes. Only the command lines and the reported outcome are modelled.
- The parsing libraries are not modelled: python-docx, openpyxl, python-pptx, BeautifulSoup, pandas and pypandoc. What they yield is an input, and `None` means the library raised. `str()` of arbitrary cell objects is taken as given text.
- FPDF's rendering, automatic page breaks, and `output(...).encode('latin-1')` are not modelled. The model records the calls. So the failure of that encoding on the unsanitised, non-Latin-1 titles ("Metin Dosyası", "Çalışma Sayfası") is stated (`ConverterEvents.FixedTitlesNotLatin1`), not followed.
- `add_text`'s `except` fallback ("< Dönüştürme hatası >") is not modelled. `multi_cell` is taken never to raise on the Latin-1 text it receives.
- The `main` functions of the two converters (base64 in, JSON out) are not modelled. Neither are the command-line handling of scan_to_pdf.py, directory creation, or PIL's image loading and RGBA conversion.
- `ScanToPdf.Place`, `ScanToPdf.PlaceInBox`, `ConverterEvents.ColumnWidth`, `LegacyConverter.PageWidth`, `LegacyConverter.ColumnShare` and `LegacyConverter.ColumnsSpanPage` compute on exact reals, not on Python floats. Rounding is not modelled.
- Text.Lower: lower-cases ASCII and Latin-1 capitals only. Other scripts' case mappings in Python's `lower()` are not modelled.
- Cleaners.Fold: `re.IGNORECASE` is modelled for the pattern's ASCII letters, including the U+0130/U+0131 folds to 'i'. Other Unicode case folds are not modelled.
- The UTF-8 decoding of input bytes is not modelled. A strict decode that fails, like a parser that raises, is an `Unreadable` input, and the decoded text is taken as given.
- The older dispatcher writes "Dönüştürme hatası: …" to stderr before re-raising. This is not modelled; the failure itself is the result.
- The older dispatcher tests openpyxl's availability, but the extractor reads the workbook through pandas. The model follows the code: the guard, then pandas' worksheets as an input.
- Converter.HtmlToPdf: a `<title>` element with no single string gives `soup.title.string == None` (doc_converter_all.py:297). The model takes FPDF's `cell` to raise on that `None`, so the conversion fails as `DrawFailed(Html)`. That FPDF behaviour is taken as given, not modelled.
