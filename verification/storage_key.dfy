/** The object-storage key of one generated PDF:
    `${userName}/CaseLog_${mrn || 'unknown'}_${caseLogValue || 'case'}.pdf`. */
module StorageKey {
  import opened JsStrings
  import opened JsValues
  import opened RowExpander

  const DefaultUser: JsString := Lit("UnknownUser")
  const Slash: CodeUnit := 0x2F
  const KeyStem: JsString := Lit("/CaseLog_")
  const Underscore: JsString := Lit("_")
  const PdfSuffix: JsString := Lit(".pdf")
  const UnknownMrn: JsString := Lit("unknown")
  const DefaultCase: JsString := Lit("case")

  /** `userName = 'UnknownUser'` in the body destructuring: the default
      replaces a missing field only; a present one is interpolated as is. */
  function UserName(field: JsValue): (u: JsString)
    ensures field.Undefined? ==> u == DefaultUser
    ensures field.Str? ==> u == field.s
  {
    if field.Undefined? then DefaultUser else ToJsString(field)
  }

  /** `row['MRN / Patient ID'] || 'unknown'`. */
  function MrnPart(mrn: JsValue): (r: JsString)
    ensures !Truthy(mrn) ==> r == UnknownMrn
    ensures mrn.Str? && mrn.s != [] ==> r == mrn.s
  {
    if Truthy(mrn) then ToJsString(mrn) else UnknownMrn
  }

  /** `caseLogValue || 'case'`. */
  function ValuePart(value: JsString): (r: JsString)
    ensures r != []
    ensures value != [] ==> r == value
  {
    if value != [] then value else DefaultCase
  }

  function Key(user: JsString, mrn: JsValue, value: JsString): JsString
  {
    user + KeyStem + MrnPart(mrn) + Underscore + ValuePart(value) + PdfSuffix
  }

  /** Every key lies under the user's prefix `${userName}/` and names a
      ".pdf" object. */
  lemma KeyShape(user: JsString, mrn: JsValue, value: JsString)
    ensures StartsWith(Key(user, mrn, value), user + [Slash])
    ensures EndsWith(Key(user, mrn, value), PdfSuffix)
    ensures !Truthy(mrn) ==> Key(user, mrn, value) == user + KeyStem + UnknownMrn + Underscore + ValuePart(value) + PdfSuffix
  {
    var k := Key(user, mrn, value);
    assert KeyStem[0] == Slash;
    assert k[..|user| + 1] == user + [Slash] by {
      assert k == user + (KeyStem + MrnPart(mrn) + Underscore + ValuePart(value) + PdfSuffix);
    }
  }

  /** For a case-log value the `'case'` fallback is never taken: the key
      ends with `_<value>.pdf`. */
  lemma KeyCarriesValue(user: JsString, mrn: JsValue, value: JsString)
    requires IsCaseLogValue(value)
    ensures EndsWith(Key(user, mrn, value), Underscore + value + PdfSuffix)
  {
    var k := Key(user, mrn, value);
    var head := user + KeyStem + MrnPart(mrn);
    assert k == head + (Underscore + value + PdfSuffix);
  }

  /** For one user and one MRN, two case-log values share a key exactly
      when they are equal: a repeated value in a row overwrites its own
      earlier PDF and nothing else. */
  lemma KeyDeterminesValue(user: JsString, mrn: JsValue, v: JsString, w: JsString)
    requires IsCaseLogValue(v) && IsCaseLogValue(w)
    ensures Key(user, mrn, v) == Key(user, mrn, w) <==> v == w
  {
    var head := user + KeyStem + MrnPart(mrn) + Underscore;
    var kv, kw := Key(user, mrn, v), Key(user, mrn, w);
    assert kv == head + (v + PdfSuffix);
    assert kw == head + (w + PdfSuffix);
    if kv == kw {
      assert kv[|head|..] == v + PdfSuffix;
      assert kw[|head|..] == w + PdfSuffix;
      assert |v| == |w|;
      assert (v + PdfSuffix)[..|v|] == v;
      assert (w + PdfSuffix)[..|w|] == w;
    }
  }
}
