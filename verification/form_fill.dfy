/** Filling one copy of the PDF template for one work item. The form is
    the template's field table; a write to a field the template does not
    have, or has with another kind, throws in the PDF library and is
    swallowed by the handler, so it changes nothing. */
module FormFill {
  import opened JsStrings
  import opened JsValues
  import opened PdfText
  import opened RowExpander

  datatype Field = TextField(text: JsString) | CheckBox(checked: bool) | OtherField

  /** The AcroForm of one loaded template copy, by field name. */
  type Form = map<JsString, Field>

  /** The batch-level request-body fields; absent ones are undefined. */
  datatype BatchParams = BatchParams(
    studentName: JsValue,
    hospital: JsValue,
    supervisor: JsValue,
    clerkship: JsValue,
    coursePrefix: JsValue,
    date: JsValue)

  /** fillText: setText(sanitizeForPdf(value)) on the named text field,
      nothing at all when there is no such text field. */
  function FillText(form: Form, name: JsString, value: JsValue): (f: Form)
    ensures f.Keys == form.Keys
    ensures forall n :: n in form && n != name ==> f[n] == form[n]
    ensures name in form && form[name].TextField? ==> f[name] == TextField(SanitizeForPdf(value))
    ensures !(name in form && form[name].TextField?) ==> f == form
  {
    if name in form && form[name].TextField? then form[name := TextField(SanitizeForPdf(value))]
    else form
  }

  /** getCheckBox(name).check(), nothing when there is no such checkbox. */
  function CheckBoxOn(form: Form, name: JsString): (f: Form)
    ensures f.Keys == form.Keys
    ensures forall n :: n in form && n != name ==> f[n] == form[n]
    ensures name in form && form[name].CheckBox? ==> f[name] == CheckBox(true)
    ensures !(name in form && form[name].CheckBox?) ==> f == form
  {
    if name in form && form[name].CheckBox? then form[name := CheckBox(true)] else form
  }

  // ---------------------------------------------------------------------
  // the fill plan
  // ---------------------------------------------------------------------

  datatype Write = SetText(name: JsString, value: JsValue) | Tick(name: JsString)

  const MrnColumn: JsString := Lit("MRN / Patient ID")
  const SummaryColumn: JsString := Lit("Case Summary")

  const Dates: JsString := Lit("DATES")
  const Dates2: JsString := Lit("DATES 2")
  const Dates3: JsString := Lit("DATES 3_af_date")
  const Mrn: JsString := Lit("MRN")
  const StudentName: JsString := Lit("STUDENT NAME")
  const StudentName2: JsString := Lit("STUDENT NAME 2")
  const Hospital: JsString := Lit("HOSPITAL/CLINICAL SITE")
  const Supervisor: JsString := Lit("SUPERVISING FACULTY")
  const Clerkship: JsString := Lit("CLERKSHIP NAME")
  const CoursePrefix: JsString := Lit("COURSE PREFIX")
  const CaseName2: JsString := Lit("CASE NAME 2")
  const CaseNameCaseName: JsString := Lit("CASE NAME.CASE NAME")
  const CaseSummary: JsString := Lit("CASE SUMMARY")

  /** `CheckEssentialEncounter${i}`. */
  function CheckBoxName(i: nat): JsString
  {
    Lit("CheckEssentialEncounter") + Decimal(i)
  }

  /** The writes, in the order the handler makes them. */
  function FillPlan(p: BatchParams, item: WorkItem): seq<Write>
  {
    [ SetText(Dates, p.date),
      SetText(Dates2, p.date),
      SetText(Dates3, p.date),
      SetText(Mrn, Get(item.row, MrnColumn)),
      SetText(StudentName, p.studentName),
      SetText(StudentName2, p.studentName),
      SetText(Hospital, p.hospital),
      SetText(Supervisor, p.supervisor),
      SetText(Clerkship, p.clerkship),
      SetText(CoursePrefix, p.coursePrefix),
      SetText(CaseName2, Str(item.value)),
      SetText(CaseNameCaseName, Str(item.value)),
      SetText(CaseSummary, Get(item.row, SummaryColumn)),
      Tick(CheckBoxName(1)),
      Tick(CheckBoxName(2)),
      Tick(CheckBoxName(3)),
      Tick(CheckBoxName(4)),
      Tick(CheckBoxName(5)) ]
  }

  function ApplyWrite(form: Form, w: Write): Form
  {
    match w
    case SetText(name, value) => FillText(form, name, value)
    case Tick(name) => CheckBoxOn(form, name)
  }

  function ApplyPlan(form: Form, plan: seq<Write>): (f: Form)
    ensures f.Keys == form.Keys
    decreases |plan|
  {
    if plan == [] then form else ApplyPlan(ApplyWrite(form, plan[0]), plan[1..])
  }

  /** A fresh template copy with the item's plan applied. */
  function Render(template: Form, p: BatchParams, item: WorkItem): (f: Form)
    ensures f.Keys == template.Keys
  {
    ApplyPlan(template, FillPlan(p, item))
  }

  // ---------------------------------------------------------------------
  // the plan, field by field
  // ---------------------------------------------------------------------

  /** What a write does to one field it names. */
  function WriteField(f: Field, w: Write): Field
  {
    match w
    case SetText(_, value) => if f.TextField? then TextField(SanitizeForPdf(value)) else f
    case Tick(_) => if f.CheckBox? then CheckBox(true) else f
  }

  /** The writes of a plan that name `n`, applied to one field alone. */
  function FieldAfter(f: Field, n: JsString, plan: seq<Write>): Field
    decreases |plan|
  {
    if plan == [] then f
    else FieldAfter(if plan[0].name == n then WriteField(f, plan[0]) else f, n, plan[1..])
  }

  /** A plan acts field by field: no write touches a field it does not
      name, and no write adds or removes a field. */
  lemma {:induction false} ApplyPlanPointwise(form: Form, plan: seq<Write>)
    ensures ApplyPlan(form, plan).Keys == form.Keys
    ensures forall n :: n in form ==> ApplyPlan(form, plan)[n] == FieldAfter(form[n], n, plan)
  {
    if plan != [] {
      var next := ApplyWrite(form, plan[0]);
      ApplyPlanPointwise(next, plan[1..]);
      forall n | n in form
        ensures next[n] == (if plan[0].name == n then WriteField(form[n], plan[0]) else form[n])
      {
      }
    }
  }

  predicate DistinctNames(plan: seq<Write>)
  {
    forall i, j :: 0 <= i < j < |plan| ==> plan[i].name != plan[j].name
  }

  lemma {:induction false} FieldAfterUnnamed(f: Field, n: JsString, plan: seq<Write>)
    requires forall i :: 0 <= i < |plan| ==> plan[i].name != n
    ensures FieldAfter(f, n, plan) == f
  {
    if plan != [] {
      FieldAfterUnnamed(f, n, plan[1..]);
    }
  }

  lemma {:induction false} FieldAfterNamedOnce(f: Field, plan: seq<Write>, k: nat)
    requires k < |plan| && DistinctNames(plan)
    ensures FieldAfter(f, plan[k].name, plan) == WriteField(f, plan[k])
  {
    var n := plan[k].name;
    if k == 0 {
      FieldAfterUnnamed(WriteField(f, plan[0]), n, plan[1..]);
    } else {
      assert plan[0].name != n;
      FieldAfterNamedOnce(f, plan[1..], k - 1);
    }
  }

  /** With pairwise distinct names, each named field ends up as its one
      write leaves it and every other field is untouched. */
  lemma DistinctPlanEffect(form: Form, plan: seq<Write>)
    requires DistinctNames(plan)
    ensures ApplyPlan(form, plan).Keys == form.Keys
    ensures forall k :: 0 <= k < |plan| && plan[k].name in form ==>
              ApplyPlan(form, plan)[plan[k].name] == WriteField(form[plan[k].name], plan[k])
    ensures forall n :: n in form && (forall k :: 0 <= k < |plan| ==> plan[k].name != n) ==>
              ApplyPlan(form, plan)[n] == form[n]
  {
    ApplyPlanPointwise(form, plan);
    forall k | 0 <= k < |plan| && plan[k].name in form
      ensures ApplyPlan(form, plan)[plan[k].name] == WriteField(form[plan[k].name], plan[k])
    {
      FieldAfterNamedOnce(form[plan[k].name], plan, k);
    }
    forall n | n in form && (forall k :: 0 <= k < |plan| ==> plan[k].name != n)
      ensures ApplyPlan(form, plan)[n] == form[n]
    {
      FieldAfterUnnamed(form[n], n, plan);
    }
  }

  /** Field names are told apart by length, first and last unit. */
  function Signature(n: JsString): (int, int, int)
  {
    if n == [] then (0, 0, 0) else (|n|, n[0], n[|n| - 1])
  }

  /** The signatures of the plan's field names, in plan order. */
  const PlanSignatures: seq<(int, int, int)> :=
    [ (5, 0x44, 0x53), (7, 0x44, 0x32), (15, 0x44, 0x65), (3, 0x4D, 0x4E),
      (12, 0x53, 0x45), (14, 0x53, 0x32), (22, 0x48, 0x45), (19, 0x53, 0x59),
      (14, 0x43, 0x45), (13, 0x43, 0x58), (11, 0x43, 0x32), (19, 0x43, 0x45),
      (12, 0x43, 0x59),
      (24, 0x43, 0x31), (24, 0x43, 0x32), (24, 0x43, 0x33), (24, 0x43, 0x34), (24, 0x43, 0x35) ]

  lemma TextNameSignatures()
    ensures Signature(Dates) == (5, 0x44, 0x53) && Signature(Dates2) == (7, 0x44, 0x32)
    ensures Signature(Dates3) == (15, 0x44, 0x65) && Signature(Mrn) == (3, 0x4D, 0x4E)
    ensures Signature(StudentName) == (12, 0x53, 0x45) && Signature(StudentName2) == (14, 0x53, 0x32)
    ensures Signature(Hospital) == (22, 0x48, 0x45) && Signature(Supervisor) == (19, 0x53, 0x59)
    ensures Signature(Clerkship) == (14, 0x43, 0x45) && Signature(CoursePrefix) == (13, 0x43, 0x58)
    ensures Signature(CaseName2) == (11, 0x43, 0x32) && Signature(CaseNameCaseName) == (19, 0x43, 0x45)
    ensures Signature(CaseSummary) == (12, 0x43, 0x59)
  {
  }

  lemma CheckBoxSignature(i: nat)
    requires 1 <= i <= 9
    ensures Signature(CheckBoxName(i)) == (24, 0x43, 0x30 + i)
  {
    var prefix := Lit("CheckEssentialEncounter");
    assert prefix[0] == 0x43;
  }

  lemma PlanSignaturesOf(p: BatchParams, item: WorkItem)
    ensures |FillPlan(p, item)| == |PlanSignatures|
    ensures forall i :: 0 <= i < |PlanSignatures| ==> Signature(FillPlan(p, item)[i].name) == PlanSignatures[i]
  {
    TextNameSignatures();
    CheckBoxSignature(1);
    CheckBoxSignature(2);
    CheckBoxSignature(3);
    CheckBoxSignature(4);
    CheckBoxSignature(5);
  }

  lemma FillPlanDistinct(p: BatchParams, item: WorkItem)
    ensures DistinctNames(FillPlan(p, item))
  {
    var plan := FillPlan(p, item);
    PlanSignaturesOf(p, item);
    SignaturesDistinct();
    forall i, j | 0 <= i < j < |plan| ensures plan[i].name != plan[j].name {
      assert Signature(plan[i].name) != Signature(plan[j].name);
    }
  }

  lemma SignaturesDistinct()
    ensures forall i, j :: 0 <= i < j < |PlanSignatures| ==> PlanSignatures[i] != PlanSignatures[j]
  {
  }

  // ---------------------------------------------------------------------
  // what one rendered copy holds
  // ---------------------------------------------------------------------

  const DateFields: seq<JsString> := [Dates, Dates2, Dates3]
  const CaseNameFields: seq<JsString> := [CaseName2, CaseNameCaseName]

  /** Every field name the handler writes to. */
  function PlanNames(p: BatchParams, item: WorkItem): seq<JsString>
  {
    var plan := FillPlan(p, item);
    seq(|plan|, i requires 0 <= i < |plan| => plan[i].name)
  }

  /** A rendered copy has exactly the template's fields; a field the plan
      does not name, or one of a kind no write applies to, keeps its
      template state. */
  lemma RenderKeepsOthers(template: Form, p: BatchParams, item: WorkItem)
    ensures Render(template, p, item).Keys == template.Keys
    ensures forall n :: n in template && template[n].OtherField? ==> Render(template, p, item)[n] == template[n]
    ensures forall n :: n in template && n !in PlanNames(p, item) ==> Render(template, p, item)[n] == template[n]
  {
    var plan := FillPlan(p, item);
    var out := Render(template, p, item);
    ApplyPlanPointwise(template, plan);
    forall n | n in template && template[n].OtherField?
      ensures out[n] == template[n]
    {
      FieldAfterOther(template[n], n, plan);
    }
    forall n | n in template && n !in PlanNames(p, item)
      ensures out[n] == template[n]
    {
      forall k | 0 <= k < |plan| ensures plan[k].name != n {
        assert PlanNames(p, item)[k] == plan[k].name;
      }
      FieldAfterUnnamed(template[n], n, plan);
    }
  }

  /** The three date fields all get the same sanitised date. */
  lemma RenderDates(template: Form, p: BatchParams, item: WorkItem)
    ensures forall i :: 0 <= i < |DateFields| && DateFields[i] in template && template[DateFields[i]].TextField? ==>
              Render(template, p, item)[DateFields[i]] == TextField(SanitizeForPdf(p.date))
  {
    var plan := FillPlan(p, item);
    FillPlanDistinct(p, item);
    DistinctPlanEffect(template, plan);
    assert plan[0].name == Dates && plan[1].name == Dates2 && plan[2].name == Dates3;
  }

  /** Both case-name fields get the sanitised case-log value. */
  lemma RenderCaseNames(template: Form, p: BatchParams, item: WorkItem)
    ensures forall i :: 0 <= i < |CaseNameFields| && CaseNameFields[i] in template && template[CaseNameFields[i]].TextField? ==>
              Render(template, p, item)[CaseNameFields[i]] == TextField(Sanitize(item.value))
  {
    var plan := FillPlan(p, item);
    FillPlanDistinct(p, item);
    DistinctPlanEffect(template, plan);
    assert plan[10].name == CaseName2 && plan[11].name == CaseNameCaseName;
  }

  /** The five encounter checkboxes are ticked, whatever the row holds. */
  lemma RenderCheckBoxes(template: Form, p: BatchParams, item: WorkItem)
    ensures forall i :: 1 <= i <= 5 && CheckBoxName(i) in template && template[CheckBoxName(i)].CheckBox? ==>
              Render(template, p, item)[CheckBoxName(i)] == CheckBox(true)
  {
    var plan := FillPlan(p, item);
    FillPlanDistinct(p, item);
    DistinctPlanEffect(template, plan);
    forall i | 1 <= i <= 5 && CheckBoxName(i) in template && template[CheckBoxName(i)].CheckBox?
      ensures Render(template, p, item)[CheckBoxName(i)] == CheckBox(true)
    {
      assert plan[12 + i].name == CheckBoxName(i);
    }
  }

  /** No write changes a field of another kind. */
  lemma {:induction false} FieldAfterOther(f: Field, n: JsString, plan: seq<Write>)
    requires f.OtherField?
    ensures FieldAfter(f, n, plan) == f
    decreases |plan|
  {
    if plan != [] {
      FieldAfterOther(f, n, plan[1..]);
    }
  }
}
