/** sanitizeForPdf: the text written into a PDF form field is cut down to
    code units in 32..255. Subscript digits become ASCII digits; every other
    code unit outside 32..255 is dropped. */
module PdfText {
  import opened JsStrings
  import opened JsValues

  /** U+2080 SUBSCRIPT ZERO .. U+2089 SUBSCRIPT NINE. */
  predicate IsSubscriptDigit(u: CodeUnit)
  {
    0x2080 <= u <= 0x2089
  }

  /** The units the sanitiser keeps as they are. */
  predicate IsPdfSafe(u: CodeUnit)
  {
    32 <= u <= 255
  }

  predicate AllPdfSafe(s: JsString)
  {
    forall k :: 0 <= k < |s| ==> IsPdfSafe(s[k])
  }

  /** What one input unit becomes: the SUBSCRIPT_MAP lookup first, then the
      range test. */
  function SanitizeUnit(u: CodeUnit): (r: JsString)
    ensures |r| <= 1 && AllPdfSafe(r)
  {
    if IsSubscriptDigit(u) then [u - 0x2080 + 0x30]
    else if IsPdfSafe(u) then [u]
    else []
  }

  /** The split('') / map / join('') pipeline over code units. */
  function Sanitize(s: JsString): (r: JsString)
    ensures AllPdfSafe(r)
    ensures |r| <= |s|
    ensures AllPdfSafe(s) ==> r == s
  {
    if s == [] then [] else SanitizeUnit(s[0]) + Sanitize(s[1..])
  }

  /** sanitizeForPdf(raw = ''): the default applies to a missing argument
      only, so null is sanitised as the text "null". */
  function SanitizeForPdf(raw: JsValue): (r: JsString)
    ensures AllPdfSafe(r)
    ensures raw.Undefined? ==> r == []
    ensures !raw.Undefined? ==> r == Sanitize(ToJsString(raw))
    ensures raw.Null? ==> r == Lit("null")
    ensures raw.Str? && AllPdfSafe(raw.s) ==> r == raw.s
  {
    if raw.Undefined? then [] else Sanitize(ToJsString(raw))
  }

  /** The sanitiser works unit by unit: it distributes over concatenation. */
  lemma {:induction false} SanitizeAppend(a: JsString, b: JsString)
    ensures Sanitize(a + b) == Sanitize(a) + Sanitize(b)
  {
    if a != [] {
      assert (a + b)[0] == a[0];
      assert (a + b)[1..] == a[1..] + b;
      SanitizeAppend(a[1..], b);
    } else {
      assert a + b == b;
    }
  }

  /** Each input unit contributes what SanitizeUnit says, at its place:
      the output is the concatenation of the per-unit results. */
  lemma {:induction false} SanitizeLast(s: JsString)
    requires s != []
    ensures Sanitize(s) == Sanitize(s[..|s| - 1]) + SanitizeUnit(s[|s| - 1])
  {
    var init := s[..|s| - 1];
    assert s == init + [s[|s| - 1]];
    SanitizeAppend(init, [s[|s| - 1]]);
    assert Sanitize([s[|s| - 1]]) == SanitizeUnit(s[|s| - 1]) + Sanitize([]);
  }

  /** A subscript digit becomes the ASCII digit of the same value. */
  lemma SubscriptBecomesDigit(d: int)
    requires 0 <= d <= 9
    ensures Sanitize([0x2080 + d]) == [0x30 + d]
  {
    assert [0x2080 + d][1..] == [];
  }

  /** A unit that is neither a subscript digit nor in 32..255 is removed. */
  lemma UnsafeUnitDropped(a: JsString, u: CodeUnit, b: JsString)
    requires !IsSubscriptDigit(u) && !IsPdfSafe(u)
    ensures Sanitize(a + [u] + b) == Sanitize(a) + Sanitize(b)
  {
    SanitizeAppend(a + [u], b);
    SanitizeAppend(a, [u]);
    assert Sanitize([u]) == [] by {
      assert [u][1..] == [];
      assert SanitizeUnit(u) == [];
    }
    assert Sanitize(a) + [] == Sanitize(a);
  }

  /** The output is the input exactly when every input unit is already in
      32..255. */
  lemma {:induction false} SanitizeFixpoints(s: JsString)
    ensures Sanitize(s) == s <==> AllPdfSafe(s)
  {
    if s != [] && Sanitize(s) == s {
      // the output is no longer than the input, so no unit was dropped
      // and none was rewritten
      var h := SanitizeUnit(s[0]);
      var t := Sanitize(s[1..]);
      if h == [] {
        assert false;
      }
      assert s[0] == h[0];
      assert t == s[1..];
      SanitizeFixpoints(s[1..]);
    }
  }

  /** Sanitising twice is sanitising once. */
  lemma SanitizeIdempotent(s: JsString)
    ensures Sanitize(Sanitize(s)) == Sanitize(s)
  {
    SanitizeFixpoints(Sanitize(s));
  }

  /** "H₂O" becomes "H2O". */
  lemma WaterExample()
    ensures Sanitize([0x48, 0x2082, 0x4F]) == Lit("H2O")
  {
    assert [0x48, 0x2082, 0x4F][1..] == [0x2082, 0x4F];
    assert [0x2082, 0x4F][1..] == [0x4F];
    assert [0x4F][1..] == [];
  }
}
