# caselogcomposer upload handler, modelled in Dafny

The model covers `POST /api/process` in `src/pages/api/process.js`. That
handler takes an uploaded CSV or XLSX case log and the request-body fields
(student, hospital, supervisor, clerkship, course prefix, date, user name).
It then:

- picks the reading path for the file;
- finds the first row that holds a "Case Log type" heading and reads the
  rows below it as records;
- splits each record's `Case Log type: EPP / EPE` cell on commas into
  trimmed, non-empty case-log values;
- for every value, fills a fresh copy of the PDF form template (dates,
  MRN, student, site, supervisor, clerkship, course prefix, case names,
  case summary, five encounter checkboxes) with text cut down to code
  units 32..255;
- stores each copy under `${userName}/CaseLog_${mrn || 'unknown'}_${value || 'case'}.pdf`;
- answers `"<N> PDFs generated."`, or a 500 with the error text when
  anything throws: no file, bytes the spreadsheet library cannot read, no
  header row, or a template pdf-lib cannot load.

Modules, one per file, in dependency order:

| module | file | what it holds |
|---|---|---|
| `JsStrings` | js_strings.dfy | JavaScript strings as UTF-16 code units. It defines `trim()` with the exact ECMAScript white-space set, ASCII `toLowerCase()`, `startsWith`/`endsWith`, `split`/`join` on one unit, and decimal rendering of a count. |
| `JsValues` | js_values.dfy | The values that reach `String()`, `== null`, `\|\|` and default parameters: `undefined`, `null`, strings, and numbers or booleans (as their rendering and truthiness). It also defines spreadsheet records. |
| `PdfText` | pdf_text.dfy | `sanitizeForPdf`. |
| `InputKind` | input_kind.dfy | The CSV/XLSX choice. |
| `RowExpander` | row_expander.dfy | The splitting of a row's cell into values, and the loop with its three counters. The loop has a reference account of its result. |
| `HeaderLocator` | header_locator.dfy | The header-row search. |
| `FormFill` | form_fill.dfy | `fillText`, the checkbox ticks, the fixed order of writes, and what a rendered copy holds. |
| `StorageKey` | storage_key.dfy | The object key and its defaults. |
| `UploadHandler` | upload_handler.dfy | The whole request as a pure function. Its outputs are the effects (template fetch, then one store per PDF) and the response. |

A form is the template's field table, a map from field name to a text
field, a checkbox or any other kind of field. pdf-lib's `getTextField` and
`getCheckBox` throw when the field is missing or is of another kind. The
handler swallows that error, so such a write changes nothing. The
spreadsheet library is a parameter, `UploadHandler.Reader`. For each reading
path it says whether the library can read the bytes at all, and supplies
the first sheet as an array of arrays and the records read from a given
header row. The fetched template is `UploadHandler.Template`: the field
table pdf-lib loads from it, or nothing when `PDFDocument.load` rejects it.

## Model

| member | source | states |
|---|---|---|
| JsStrings.Trim | src/pages/api/process.js:100 | The result has no white space at either end (`NoEdgeSpace`). |
| JsStrings.TrimCore | src/pages/api/process.js:139 | The input is white space, then the result, then white space. |
| JsStrings.TrimIsTheCore | src/pages/api/process.js:139 | Split the input any way into white space, a core with no white space at either end, and white space. `trim()` returns that core, so the split is unique. |
| JsStrings.TrimIdempotent | src/pages/api/process.js:139 | Trimming twice is the same as trimming once. |
| JsStrings.Split | src/pages/api/process.js:137-138 | `split(',')` always yields at least one piece, and no piece contains the separator. |
| JsStrings.JoinSplit | src/pages/api/process.js:137-138 | Joining the pieces of a split with the separator gives back the string. |
| JsStrings.SplitJoin | src/pages/api/process.js:137-138 | Splitting a join of separator-free pieces gives back those pieces. |
| JsStrings.Decimal | src/pages/api/process.js:197 | The rendering of a count is a non-empty run of decimal digits with no leading zero, except for the count 0. |
| JsStrings.DecimalRoundTrip | src/pages/api/process.js:197 | Reading the rendered digits back gives the count. |
| JsStrings.LowerPrefix | src/pages/api/process.js:100 | If a string starts with `upper`, its lower-cased form starts with the unit-by-unit lower-casing of `upper`. |
| PdfText.SanitizeUnit | src/pages/api/process.js:30-35 | One input unit becomes at most one unit, and that unit lies in 32..255. |
| PdfText.Sanitize | src/pages/api/process.js:26-37 | The output is all in 32..255 and no longer than the input. A string that is already all in 32..255 comes back unchanged. |
| PdfText.SanitizeForPdf | src/pages/api/process.js:26-28 | A missing argument gives the empty text through the default parameter. Any other value is sanitised as its `String()` rendering, so `null` gives "null". Every output unit lies in 32..255. |
| PdfText.SanitizeAppend | src/pages/api/process.js:28-36 | The sanitiser works unit by unit, so it distributes over concatenation. |
| PdfText.SanitizeLast | src/pages/api/process.js:28-36 | The output is the sanitised prefix followed by what the last unit becomes. |
| PdfText.SubscriptBecomesDigit | src/pages/api/process.js:23-25 | Each subscript digit ₀..₉ becomes the ASCII digit of the same value. |
| PdfText.UnsafeUnitDropped | src/pages/api/process.js:33-34 | A unit that is neither a subscript digit nor in 32..255 is removed, and its neighbours close up. |
| PdfText.SanitizeFixpoints | src/pages/api/process.js:26-37 | The output equals the input exactly when every input unit is already in 32..255 (both directions). |
| PdfText.SanitizeIdempotent | src/pages/api/process.js:26-37 | Sanitising twice is the same as sanitising once. |
| PdfText.WaterExample | src/pages/api/process.js:22-25 | "H₂O" becomes "H2O". |
| InputKind.ChooseKind | src/pages/api/process.js:75-78 | The CSV path is taken exactly when the MIME type is `text/csv` or the name ends in ".csv" in any letter case. Otherwise the workbook path is taken. The name test is stated unit by unit against a reference predicate, in both directions. |
| InputKind.UpperCaseNameIsCsv | src/pages/api/process.js:77 | "LOG.CSV" with an Excel MIME type is still read as CSV. |
| HeaderLocator.RowHasMarker | src/pages/api/process.js:98-101 | A row matches exactly when some cell is a string that starts with "case log type" once trimmed and lower-cased. Numbers and booleans never match. |
| HeaderLocator.FindHeaderRow | src/pages/api/process.js:96-107 | The index found is the least index of a matching row. None (the source's -1) is returned exactly when no row matches. |
| HeaderLocator.KeyHeadingMatches | src/pages/api/process.js:97-101 | The heading the row loop reads, `Case Log type: EPP / EPE`, is a header cell: trimmed and lower-cased, it starts with "case log type". |
| HeaderLocator.CapitalHeadingIsNotTheKey | src/pages/api/process.js:100 | `CASE LOG TYPE: EPP / EPE` passes the locator's case-blind test, yet it differs from the exact key the row loop looks up. |
| HeaderLocator.PaddedHeadingMatches | src/pages/api/process.js:97-101 | The exact heading still matches with blanks and tabs around it. |
| RowExpander.TrimNonEmpty | src/pages/api/process.js:139-140 | Every value kept is non-empty, comma-free and edge-trimmed, and no more values come out than pieces went in. |
| RowExpander.TrimNonEmptyBlank | src/pages/api/process.js:139-142 | Nothing is left exactly when every piece is white space only. |
| RowExpander.TrimNonEmptyAppend | src/pages/api/process.js:139-140 | Trimming and filtering handles pieces one at a time and in order: it distributes over concatenation of piece lists. |
| RowExpander.TrimNonEmptySingle | src/pages/api/process.js:139-140 | One piece becomes its trimmed text, or nothing when the trimmed text is empty. |
| RowExpander.CaseLogValues | src/pages/api/process.js:137-140 | Every value is a case-log value (non-empty, comma-free, no white space at either end). There are at most as many values as comma-separated pieces. Nothing is left exactly when every comma-separated piece of the cell is blank. |
| RowExpander.CaseLogValuesConcat | src/pages/api/process.js:137-140 | The values of two cell texts joined by a comma are the values of the first followed by those of the second: the cell is read left to right, and nothing is reordered or merged. |
| RowExpander.CaseLogValuesOfPiece | src/pages/api/process.js:137-140 | A comma-free cell text yields its trimmed text, or nothing when that is empty. With `CaseLogValuesConcat` this fixes the values of every cell. |
| RowExpander.ValuesOfJoin | src/pages/api/process.js:137-140 | Case-log values joined with commas come back in the same order, with repetitions. The expander neither reorders nor de-duplicates. |
| RowExpander.DuplicatesKept | src/pages/api/process.js:137-140 | "A, B, ,A" gives A, B, A. |
| RowExpander.ClassifyRow | src/pages/api/process.js:128-147 | A row counts in `skippedHeader` exactly when its cell is `null` or `undefined`. It counts in `skippedEmpty` exactly when the cell is present and every comma-separated piece of its text is blank. Otherwise it yields the cell's values, at least one. |
| RowExpander.AllItems | src/pages/api/process.js:149 | Every work item carries a case-log value. |
| RowExpander.ExpandRows | src/pages/api/process.js:122-147 | The loop's work items are every row's values, rows in order and values in order. `skippedHeader` and `skippedEmpty` count the rows of each skip kind, as in an independent row-by-row account. |
| RowExpander.RowAccounting | src/pages/api/process.js:126-147 | Every row falls into exactly one of the three outcomes. The number of PDFs (`processed`) is the sum of the value counts, and it is at least the number of rows that produced any. |
| RowExpander.ListedRowItems | src/pages/api/process.js:126-149 | A row listing values `vs`, followed by rows without a case-log cell, yields exactly one item per listed value, in order. |
| RowExpander.MissingRowsAddNothing | src/pages/api/process.js:130-135 | Rows without a case-log cell produce no work items, and each counts in `skippedHeader`. |
| FormFill.FillText | src/pages/api/process.js:40-46 | A text field with that name gets the sanitised value. Every other field is unchanged. A missing field, or one of another kind, leaves the form as it was. |
| FormFill.CheckBoxOn | src/pages/api/process.js:173-176 | A checkbox with that name becomes checked. Every other field is unchanged. A missing field, or one of another kind, leaves the form as it was. |
| FormFill.ApplyPlan | src/pages/api/process.js:151-176 | Filling never adds or removes a field. |
| FormFill.ApplyPlanPointwise | src/pages/api/process.js:154-176 | Each field ends up as the writes that name it leave it, applied in order to that field alone. |
| FormFill.DistinctPlanEffect | src/pages/api/process.js:154-176 | When no two writes share a name, each named field ends up as its one write leaves it. A field no write names keeps its template state. |
| FormFill.FillPlanDistinct | src/pages/api/process.js:155-176 | The eighteen field names the handler writes are pairwise distinct. |
| FormFill.RenderKeepsOthers | src/pages/api/process.js:151-178 | A rendered copy has exactly the template's fields. Fields the handler does not name, and fields of other kinds, keep their template state. |
| FormFill.RenderDates | src/pages/api/process.js:155-158 | `DATES`, `DATES 2` and `DATES 3_af_date` each get the sanitised date. |
| FormFill.RenderCaseNames | src/pages/api/process.js:168-169 | `CASE NAME 2` and `CASE NAME.CASE NAME` each get the sanitised case-log value of the item. |
| FormFill.RenderCheckBoxes | src/pages/api/process.js:172-176 | `CheckEssentialEncounter1` to `CheckEssentialEncounter5` are ticked whatever the row holds. |
| FormFill.FieldAfterOther | src/pages/api/process.js:44-45 | No write changes a field of a third kind. |
| StorageKey.UserName | src/pages/api/process.js:70 | A missing `userName` becomes "UnknownUser". A present string is used as it is. |
| StorageKey.MrnPart | src/pages/api/process.js:181 | A falsy MRN cell (missing, empty, 0) becomes "unknown". A non-empty string is used as it is. |
| StorageKey.ValuePart | src/pages/api/process.js:181 | The value part is never empty, and it is the case-log value whenever that is non-empty. |
| StorageKey.KeyShape | src/pages/api/process.js:181 | Every key starts with `${userName}/` and ends in ".pdf". With a falsy MRN the key is the "unknown" form. |
| StorageKey.KeyCarriesValue | src/pages/api/process.js:181 | For a case-log value the key ends with `_<value>.pdf`, so the `'case'` fallback is never taken. |
| StorageKey.KeyDeterminesValue | src/pages/api/process.js:181 | For one user and one MRN, two case-log values give the same key exactly when they are equal. A value repeated in a row therefore overwrites its own earlier PDF and nothing else. |
| UploadHandler.Handle | src/pages/api/process.js:55-203 | A failed request stores nothing. Every failure except an unloadable template has no effects at all; an unloadable template fails right after the one fetch. A successful request fetches the template first and only stores PDFs after that. |
| UploadHandler.ErrorMessage | src/pages/api/process.js:104-107 | Only the header failure has an error text of the handler's own. |
| UploadHandler.FailureCauses | src/pages/api/process.js:75-107 | A missing file fails with `NoFile` exactly when there is no file. Bytes the library cannot read fail with `UnreadableInput` exactly when a file is present and unreadable on its path. Neither, nor the header failure, fetches or stores anything. |
| UploadHandler.HeaderDecidesFailure | src/pages/api/process.js:96-107 | With a readable file, the header error is raised exactly when no row of the chosen sheet matches, and then nothing is fetched or stored. Otherwise the template is fetched first. |
| UploadHandler.SuccessfulBatch | src/pages/api/process.js:109-197 | With a readable file, a header row and a template that loads, the status is 200 and the effects are the fetch followed by one store per reference work item of the rows below the header. The message is the item count followed by " PDFs generated.", and that count is the sum of the rows' value counts. |
| UploadHandler.UnloadableTemplate | src/pages/api/process.js:116-152 | With a template pdf-lib cannot load, a batch with at least one work item fails right after the fetch and stores nothing. A batch with no work items never loads it and answers 200 with a count of 0. |
| UploadHandler.KeylessSheetStoresNothing | src/pages/api/process.js:109-135 | When no record has the exact `Case Log type: EPP / EPE` key, every row counts in `skippedHeader`, nothing is stored, and the answer is 200 "0 PDFs generated.". |
| UploadHandler.MessageCountsPuts | src/pages/api/process.js:190-197 | The number in the success message, read back, is the number of PutObject writes. |
| UploadHandler.PutShape | src/pages/api/process.js:180-188 | A work item's object lies under the user's prefix and is a ".pdf" named `…_<value>.pdf`. It holds the template rendered for that item. |
| UploadHandler.StoredObjects | src/pages/api/process.js:149-188 | Every effect after the fetch stores a PDF under the user's prefix with a ".pdf" name. That PDF is the rendered template of some case-log value. |
| UploadHandler.ListedRowBatch | src/pages/api/process.js:126-197 | Take a sheet whose data row lists `X,Y` and whose other rows lack the case-log cell. It stores exactly one PDF per listed value, in order, and reports that count ("2 PDFs generated." for `X,Y`). |

## Left out

- Spreadsheet parsing (lines 81-93, 96, 109-112) belongs to the
  third-party `xlsx` library and is left out. `UploadHandler.Reader` stands
  in for it. Which bytes make the library throw is its own concern;
  `Reader.readable` only records whether it does.
  This covers the XLSX-to-CSV re-export, date flattening, the first-sheet
  choice, and `defval: ''` for blank cells. A blank cell therefore reaches
  the model as an empty string and a missing column as `undefined`.
- The bytes of the template fetch (lines 117-119) and `PDFDocument.load`
  / `save` (lines 151-152, 178) are left out. The template is its field
  table, or nothing when pdf-lib cannot load it, and a saved PDF is its
  filled field table. Appearance streams, font embedding, a field's
  `maxLength`, and errors that pdf-lib might raise on save are not
  modelled.
- PdfText.Sanitize: keeps every unit in 32..255, as the code does. That
  range includes U+007F and U+0080..U+009F, which the WinAnsi encoding of
  the standard PDF fonts has no glyph for, so the sanitised text is not
  promised to be encodable; an encoding error on save is not modelled.
- S3 calls always succeed in the model. A failed template fetch would
  answer 500 before any store; a storage failure part way through a batch
  would leave earlier objects in place and answer 500. Both depend on the
  network, so they are not modelled.
- `putObject`'s bucket, content type and `Expires` (lines 182-188) are left
  out. `Expires` reads the clock and the others are constants. The model
  keeps only the key and the body.
- Logging (lines 59-61, 113-114, 133, 145, 194-195, 200), the multer and
  next-connect setup (lines 48-52), and the environment variables (lines
  17-20) have no effect on the response or on what is stored.
- The missing-file, unreadable-input and unloadable-template failures are
  modelled, but their texts are not. They come from the JavaScript engine
  (the `TypeError` of reading `req.file.mimetype` with no file) or from
  the libraries, so `UploadHandler.ErrorMessage` gives none for them.
- JsStrings.ToLowerCase: maps only A-Z. Both places that use it compare
  the result with pure-ASCII text containing neither "i" nor "k" ("case
  log type" and ".csv"). Outside ASCII, only U+0130 (to "i" plus a
  combining dot) and U+212A KELVIN SIGN (to "k") lower-case to ASCII. So
  the fuller Unicode mapping cannot change either test.
- Numbers and booleans in cells are carried as their `String()` rendering
  and their truthiness (`JsValues.Prim`). JavaScript number formatting is
  not modelled.
- `src/pages/api/list-pdfs.js` (the zip download), the pages, the sign-in
  flow and the documentation scripts are not part of this model.

## Behaviour of the code worth knowing

- Duplicates are kept: the cell "A, B, ,A" gives three work items, A, B,
  A (`RowExpander.DuplicatesKept`). The two A items have the same key
  (`StorageKey.KeyDeterminesValue`), so the second write replaces the
  first, while `processed` counts both.
- The success text is "<N> PDFs generated.", where N counts PutObject
  writes.
- A request without a file answers 500: reading `req.file.mimetype`
  throws a `TypeError`, which the handler's `catch` turns into a 500.
- The locator ignores letter case, but the row loop reads the exact key
  `Case Log type: EPP / EPE`. A sheet whose heading is, say,
  `CASE LOG TYPE: EPP / EPE` passes the locator
  (`HeaderLocator.CapitalHeadingIsNotTheKey`). Every row below it then
  counts in `skippedHeader`, and the answer is 200 "0 PDFs generated."
  (`UploadHandler.KeylessSheetStoresNothing`).
