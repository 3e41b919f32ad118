/** The POST /api/process handler as one pure function from the request,
    the spreadsheet reader's output and the template's field table to the
    storage writes it makes and the response it sends. */
module UploadHandler {
  import opened JsStrings
  import opened JsValues
  import opened InputKind
  import opened HeaderLocator
  import opened RowExpander
  import opened FormFill
  import opened StorageKey

  /** The request body fields; any of them may be missing. */
  datatype RequestBody = RequestBody(
    studentName: JsValue,
    hospital: JsValue,
    supervisor: JsValue,
    clerkship: JsValue,
    coursePrefix: JsValue,
    date: JsValue,
    userName: JsValue)

  datatype Request = Request(file: Option<UploadedFile>, body: RequestBody)

  /** What the spreadsheet library yields for the uploaded bytes read along
      the chosen path: whether it can read them at all (it throws when it
      cannot), the first sheet as an array of arrays, and the sheet read as
      records with the given row as headers. */
  datatype Reader = Reader(
    readable: Kind -> bool,
    grid: Kind -> Grid,
    records: (Kind, nat) -> seq<Record>)

  /** The fetched template as pdf-lib loads it: its field table, or None
      when `PDFDocument.load` rejects the bytes. */
  type Template = Option<Form>

  datatype Effect =
    | FetchTemplate
    | PutObject(key: JsString, pdf: Form)

  datatype Failure =
    | NoFile              // req.file is undefined: a TypeError on its mimetype
    | UnreadableInput     // the spreadsheet library throws on the bytes
    | HeaderNotFound
    | TemplateUnreadable  // PDFDocument.load throws on the fetched template

  datatype Response = Generated(message: JsString) | ServerError(failure: Failure)

  datatype Outcome = Outcome(effects: seq<Effect>, response: Response)

  function Status(r: Response): nat
  {
    if r.Generated? then 200 else 500
  }

  /** The `error` text of a 500 response. Only the header failure has a
      text of the handler's own; the others carry the engine's or the
      library's text, which is not modelled. */
  function ErrorMessage(f: Failure): (m: Option<JsString>)
    ensures m.Some? <==> f == HeaderNotFound
  {
    match f
    case HeaderNotFound => Some(HeaderNotFoundMessage)
    case _ => None
  }

  const HeaderNotFoundMessage: JsString := Lit("No “Case Log type: EPP / EPE” header found")
  const GeneratedSuffix: JsString := Lit(" PDFs generated.")

  function Params(body: RequestBody): BatchParams
  {
    BatchParams(body.studentName, body.hospital, body.supervisor, body.clerkship,
                body.coursePrefix, body.date)
  }

  /** The PutObject of one work item: its key and its freshly rendered copy
      of the template. */
  function PutFor(template: Form, body: RequestBody, item: WorkItem): Effect
  {
    PutObject(Key(UserName(body.userName), Get(item.row, MrnColumn), item.value),
              Render(template, Params(body), item))
  }

  function Puts(template: Form, body: RequestBody, items: seq<WorkItem>): (puts: seq<Effect>)
    ensures |puts| == |items|
    ensures forall k :: 0 <= k < |items| ==> puts[k] == PutFor(template, body, items[k])
  {
    seq(|items|, k requires 0 <= k < |items| => PutFor(template, body, items[k]))
  }

  /** The whole request. No failure stores anything. Every failure but the
      template's happens before the template is fetched; a template pdf-lib
      cannot load fails right after the fetch. A successful request fetches
      the template first and then only stores PDFs. */
  function Handle(req: Request, reader: Reader, template: Template): (o: Outcome)
    ensures o.response.ServerError? ==> forall k :: 0 <= k < |o.effects| ==> !o.effects[k].PutObject?
    ensures o.response.ServerError? ==>
      (o.effects == [] <==> o.response.failure != TemplateUnreadable)
    ensures o.response == ServerError(TemplateUnreadable) ==>
      template.None? && o.effects == [FetchTemplate]
    ensures o.response.Generated? ==>
      && |o.effects| >= 1 && o.effects[0] == FetchTemplate
      && forall k :: 1 <= k < |o.effects| ==> o.effects[k].PutObject?
  {
    match req.file
    case None => Outcome([], ServerError(NoFile))
    case Some(file) =>
      var kind := ChooseKind(file);
      if !reader.readable(kind) then Outcome([], ServerError(UnreadableInput))
      else
        match FindHeaderRow(reader.grid(kind))
        case None => Outcome([], ServerError(HeaderNotFound))
        case Some(h) => Batch(template, req.body, reader.records(kind, h))
  }

  /** The batch below the header row: fetch the template once, then store
      one filled copy per work item, and report the count. The template is
      loaded once per item, so an unloadable one fails only when there is
      an item. */
  function Batch(template: Template, body: RequestBody, rows: seq<Record>): Outcome
  {
    var items := ExpandRows(rows).items;
    match template
    case Some(form) => Outcome(BatchEffects(form, body, items), Generated(Decimal(|items|) + GeneratedSuffix))
    case None =>
      if items == [] then Outcome([FetchTemplate], Generated(Decimal(0) + GeneratedSuffix))
      else Outcome([FetchTemplate], ServerError(TemplateUnreadable))
  }

  function BatchEffects(template: Form, body: RequestBody, items: seq<WorkItem>): (effects: seq<Effect>)
    ensures |effects| == |items| + 1 && effects[0] == FetchTemplate
    ensures forall k :: 1 <= k < |effects| ==> effects[k] == PutFor(template, body, items[k - 1])
  {
    [FetchTemplate] + Puts(template, body, items)
  }

  /** The rows the handler reads records from: the sheet read along the
      chosen path, with the first header row as column names. */
  function RowsRead(file: UploadedFile, reader: Reader, h: nat): seq<Record>
  {
    reader.records(ChooseKind(file), h)
  }

  // ---------------------------------------------------------------------
  // properties of the whole request
  // ---------------------------------------------------------------------

  /** Which failure a request meets, checked in the handler's order: no
      file, then bytes the spreadsheet library cannot read, then no header
      row. None of these fetches the template or stores anything. */
  lemma FailureCauses(req: Request, reader: Reader, template: Template)
    ensures var o := Handle(req, reader, template);
      && (o.response == ServerError(NoFile) <==> req.file.None?)
      && (o.response == ServerError(UnreadableInput) <==>
            req.file.Some? && !reader.readable(ChooseKind(req.file.value)))
      && (o.response.ServerError? && o.response.failure != TemplateUnreadable ==> o.effects == [])
  {
  }

  /** With a readable file, the header error is raised exactly when no row
      of the chosen sheet matches, and then nothing is fetched or stored;
      with a header row the template is fetched first. */
  lemma HeaderDecidesFailure(req: Request, reader: Reader, template: Template)
    requires req.file.Some? && reader.readable(ChooseKind(req.file.value))
    ensures var o := Handle(req, reader, template);
      && (o.response == ServerError(HeaderNotFound) <==>
            forall j :: 0 <= j < |reader.grid(ChooseKind(req.file.value))| ==>
              !IsHeaderRow(reader.grid(ChooseKind(req.file.value))[j]))
      && (o.response == ServerError(HeaderNotFound) ==> o.effects == [])
      && (o.response != ServerError(HeaderNotFound) ==> |o.effects| >= 1 && o.effects[0] == FetchTemplate)
  {
  }

  /** A request whose sheet has its first header row at `h` and whose
      template loads succeeds; it stores one PDF per case-log value of every
      row below the header, in row order, each under its key and rendered
      from a pristine template, and the message reports how many. */
  lemma SuccessfulBatch(req: Request, reader: Reader, template: Form, h: nat)
    requires req.file.Some? && reader.readable(ChooseKind(req.file.value))
    ensures FindHeaderRow(reader.grid(ChooseKind(req.file.value))) == Some(h) ==>
      var o := Handle(req, reader, Some(template));
      var items := AllItems(RowsRead(req.file.value, reader, h));
      && Status(o.response) == 200
      && o.effects == [FetchTemplate] + Puts(template, req.body, items)
      && o.response.message == Decimal(|items|) + GeneratedSuffix
      && |items| == ValueCount(RowsRead(req.file.value, reader, h))
  {
    RowAccounting(RowsRead(req.file.value, reader, h));
  }

  /** A template pdf-lib cannot load fails the batch right after the fetch,
      before any PDF is stored, unless there is nothing to render: then the
      batch succeeds with a count of 0. */
  lemma UnloadableTemplate(req: Request, reader: Reader, h: nat)
    requires req.file.Some? && reader.readable(ChooseKind(req.file.value))
    ensures FindHeaderRow(reader.grid(ChooseKind(req.file.value))) == Some(h) ==>
      var o := Handle(req, reader, None);
      var items := AllItems(RowsRead(req.file.value, reader, h));
      && (items == [] ==> o == Outcome([FetchTemplate], Generated(Decimal(0) + GeneratedSuffix)))
      && (items != [] ==> o == Outcome([FetchTemplate], ServerError(TemplateUnreadable)))
  {
  }

  /** Records that lack the exact `Case Log type: EPP / EPE` key, as when
      the located heading differs from it in letter case or in its text
      after the marker, are all skipped: the request answers 200 with a
      count of 0 and stores nothing. */
  lemma KeylessSheetStoresNothing(req: Request, reader: Reader, template: Template, h: nat)
    requires req.file.Some? && reader.readable(ChooseKind(req.file.value))
    ensures var rows := RowsRead(req.file.value, reader, h);
      FindHeaderRow(reader.grid(ChooseKind(req.file.value))) == Some(h) &&
      (forall k :: 0 <= k < |rows| ==> CaseLogKey !in rows[k]) ==>
        && Handle(req, reader, template) == Outcome([FetchTemplate], Generated(Decimal(0) + GeneratedSuffix))
        && ExpandRows(rows).skippedHeader == |rows|
  {
    var rows := RowsRead(req.file.value, reader, h);
    if forall k :: 0 <= k < |rows| ==> CaseLogKey !in rows[k] {
      KeylessBatch(template, req.body, rows);
    }
  }

  lemma KeylessBatch(template: Template, body: RequestBody, rows: seq<Record>)
    requires forall k :: 0 <= k < |rows| ==> CaseLogKey !in rows[k]
    ensures Batch(template, body, rows) == Outcome([FetchTemplate], Generated(Decimal(0) + GeneratedSuffix))
    ensures ExpandRows(rows).skippedHeader == |rows|
  {
    assert forall k :: 0 <= k < |rows| ==> IsNullish(Get(rows[k], CaseLogKey));
    MissingRowsAddNothing(rows);
    if template.Some? {
      assert BatchEffects(template.value, body, []) == [FetchTemplate];
    }
  }

  /** The count in the success message reads back as the number of
      PutObject writes. */
  lemma MessageCountsPuts(req: Request, reader: Reader, template: Template)
    requires Handle(req, reader, template).response.Generated?
    ensures var o := Handle(req, reader, template);
      var digits := o.response.message[..|o.response.message| - |GeneratedSuffix|];
      && EndsWith(o.response.message, GeneratedSuffix)
      && (forall k :: 0 <= k < |digits| ==> IsDigit(digits[k]))
      && DigitsValue(digits) == |o.effects| - 1
  {
    var o := Handle(req, reader, template);
    var file := req.file.value;
    var h := FindHeaderRow(reader.grid(ChooseKind(file))).value;
    var n := |ExpandRows(reader.records(ChooseKind(file), h)).items|;
    var d := Decimal(n);
    assert o.response.message == d + GeneratedSuffix;
    assert o.response.message[..|o.response.message| - |GeneratedSuffix|] == d;
    DecimalRoundTrip(n);
  }

  /** The object one work item produces: stored under the user's prefix, as
      a ".pdf" whose name ends in the item's own case-log value, holding the
      template rendered for that item. */
  lemma PutShape(template: Form, body: RequestBody, item: WorkItem)
    requires IsCaseLogValue(item.value)
    ensures var e := PutFor(template, body, item);
      && e.PutObject?
      && StartsWith(e.key, UserName(body.userName) + [Slash])
      && EndsWith(e.key, PdfSuffix)
      && EndsWith(e.key, Underscore + item.value + PdfSuffix)
      && e.pdf == Render(template, Params(body), item)
  {
    var user := UserName(body.userName);
    KeyShape(user, Get(item.row, MrnColumn), item.value);
    KeyCarriesValue(user, Get(item.row, MrnColumn), item.value);
  }

  /** Every effect of a successful request after the template fetch stores
      one work item's PDF under the user's prefix, as a ".pdf" named after a
      case-log value; the `'case'` fallback name is never used. */
  lemma StoredObjects(req: Request, reader: Reader, template: Form)
    ensures var o := Handle(req, reader, Some(template));
      o.response.Generated? ==>
        forall k :: 1 <= k < |o.effects| ==>
          && o.effects[k].PutObject?
          && StartsWith(o.effects[k].key, UserName(req.body.userName) + [Slash])
          && EndsWith(o.effects[k].key, PdfSuffix)
          && exists item: WorkItem :: IsCaseLogValue(item.value) && o.effects[k] == PutFor(template, req.body, item)
  {
    var o := Handle(req, reader, Some(template));
    if o.response.Generated? {
      var file := req.file.value;
      var h := FindHeaderRow(reader.grid(ChooseKind(file))).value;
      var items := AllItems(reader.records(ChooseKind(file), h));
      assert o.effects == BatchEffects(template, req.body, items);
      forall k | 1 <= k < |o.effects|
        ensures && o.effects[k].PutObject?
                && StartsWith(o.effects[k].key, UserName(req.body.userName) + [Slash])
                && EndsWith(o.effects[k].key, PdfSuffix)
                && exists item: WorkItem :: IsCaseLogValue(item.value) && o.effects[k] == PutFor(template, req.body, item)
      {
        PutShape(template, req.body, items[k - 1]);
      }
    }
  }

  /** A sheet whose first data row lists the values `vs` separated by
      commas and whose other rows have no case-log cell stores exactly one
      PDF per listed value, in the listed order, and reports that count. */
  lemma ListedRowBatch(template: Form, body: RequestBody, row: Record, vs: seq<JsString>, rest: seq<Record>)
    requires AllCaseLogValues(vs) && vs != []
    requires Get(row, CaseLogKey) == Str(Join(vs, Comma))
    requires forall k :: 0 <= k < |rest| ==> IsNullish(Get(rest[k], CaseLogKey))
    ensures var o := Batch(Some(template), body, [row] + rest);
      && |o.effects| == |vs| + 1
      && (forall k :: 0 <= k < |vs| ==> o.effects[k + 1] == PutFor(template, body, WorkItem(row, vs[k])))
      && o.response == Generated(Decimal(|vs|) + GeneratedSuffix)
  {
    ListedRowItems(row, vs, rest);
    ListedBatch(template, body, [row] + rest, row, vs);
  }

  lemma ListedBatch(template: Form, body: RequestBody, rows: seq<Record>, row: Record, vs: seq<JsString>)
    requires |AllItems(rows)| == |vs|
    requires forall k :: 0 <= k < |vs| ==> AllItems(rows)[k] == WorkItem(row, vs[k])
    ensures var o := Batch(Some(template), body, rows);
      && |o.effects| == |vs| + 1
      && (forall k :: 0 <= k < |vs| ==> o.effects[k + 1] == PutFor(template, body, WorkItem(row, vs[k])))
      && o.response == Generated(Decimal(|vs|) + GeneratedSuffix)
  {
    ListedEffects(template, body, AllItems(rows), row, vs);
  }

  lemma ListedEffects(template: Form, body: RequestBody, items: seq<WorkItem>, row: Record, vs: seq<JsString>)
    requires |items| == |vs|
    requires forall k :: 0 <= k < |vs| ==> items[k] == WorkItem(row, vs[k])
    ensures forall k :: 0 <= k < |vs| ==>
              BatchEffects(template, body, items)[k + 1] == PutFor(template, body, WorkItem(row, vs[k]))
  {
  }
}
