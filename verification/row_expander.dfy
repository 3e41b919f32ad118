/** The row loop: each record's case-log cell is split into case-log
    values, one PDF per value, and rows without values are counted as
    skipped. */
module RowExpander {
  import opened JsStrings
  import opened JsValues

  /** The exact column heading the loop reads. */
  const CaseLogKey: JsString := Lit("Case Log type: EPP / EPE")

  /** What a case-log value always looks like: not empty, no comma, no
      white space at either end. */
  predicate IsCaseLogValue(v: JsString)
  {
    v != [] && Comma !in v && NoEdgeSpace(v)
  }

  predicate AllCaseLogValues(vs: seq<JsString>)
  {
    forall k :: 0 <= k < |vs| ==> IsCaseLogValue(vs[k])
  }

  predicate CommaFree(parts: seq<JsString>)
  {
    forall j :: 0 <= j < |parts| ==> Comma !in parts[j]
  }

  /** `.map(v => v.trim()).filter(Boolean)` over the pieces of a split. */
  function TrimNonEmpty(parts: seq<JsString>): (vs: seq<JsString>)
    requires CommaFree(parts)
    ensures |vs| <= |parts|
    ensures AllCaseLogValues(vs)
  {
    if parts == [] then []
    else
      var t := Trim(parts[0]);
      TrimAddsNothing(parts[0], Comma);
      (if t == [] then [] else [t]) + TrimNonEmpty(parts[1..])
  }

  /** Nothing is left exactly when every piece is blank. */
  lemma {:induction false} TrimNonEmptyBlank(parts: seq<JsString>)
    requires CommaFree(parts)
    ensures TrimNonEmpty(parts) == [] <==> forall k :: 0 <= k < |parts| ==> AllWhiteSpace(parts[k])
  {
    if parts != [] {
      var tail := parts[1..];
      assert parts == [parts[0]] + tail;
      assert CommaFree(tail) by {
        forall j | 0 <= j < |tail| ensures Comma !in tail[j] { assert tail[j] == parts[j + 1]; }
      }
      TrimNonEmptyCons(parts[0], tail);
      TrimEmptyIffBlank(parts[0]);
      TrimNonEmptyBlank(tail);
      BlankCons(parts[0], tail);
    }
  }

  lemma BlankCons(p: JsString, tail: seq<JsString>)
    ensures (forall k :: 0 <= k < |[p] + tail| ==> AllWhiteSpace(([p] + tail)[k]))
        <==> AllWhiteSpace(p) && forall k :: 0 <= k < |tail| ==> AllWhiteSpace(tail[k])
  {
    var all := [p] + tail;
    assert all[0] == p;
    if AllWhiteSpace(p) && forall k :: 0 <= k < |tail| ==> AllWhiteSpace(tail[k]) {
      forall k | 0 <= k < |all| ensures AllWhiteSpace(all[k]) {
        if k > 0 { assert all[k] == tail[k - 1]; }
      }
    }
    if forall k :: 0 <= k < |all| ==> AllWhiteSpace(all[k]) {
      forall k | 0 <= k < |tail| ensures AllWhiteSpace(tail[k]) {
        assert all[k + 1] == tail[k];
      }
    }
  }

  /** The pieces are handled one by one and in order: trimming and
      filtering distributes over concatenation of the piece lists. */
  lemma {:induction false} TrimNonEmptyAppend(a: seq<JsString>, b: seq<JsString>)
    requires CommaFree(a) && CommaFree(b)
    ensures CommaFree(a + b)
    ensures TrimNonEmpty(a + b) == TrimNonEmpty(a) + TrimNonEmpty(b)
  {
    CommaFreeAppend(a, b);
    if a != [] {
      var tail := a[1..];
      assert a == [a[0]] + tail;
      assert a + b == [a[0]] + (tail + b);
      assert CommaFree(tail) by {
        forall j | 0 <= j < |tail| ensures Comma !in tail[j] { assert tail[j] == a[j + 1]; }
      }
      TrimNonEmptyAppend(tail, b);
      TrimNonEmptyConsAppend(a[0], tail, tail + b, TrimNonEmpty(b));
    } else {
      assert a + b == b;
    }
  }

  /** Putting one piece in front of two piece lists whose values differ by
      trailing values `q` keeps that difference. */
  lemma TrimNonEmptyConsAppend(p: JsString, t: seq<JsString>, tail: seq<JsString>, q: seq<JsString>)
    requires Comma !in p && CommaFree(t) && CommaFree(tail)
    requires TrimNonEmpty(tail) == TrimNonEmpty(t) + q
    ensures CommaFree([p] + t) && CommaFree([p] + tail)
    ensures TrimNonEmpty([p] + tail) == TrimNonEmpty([p] + t) + q
  {
    TrimNonEmptyCons(p, t);
    TrimNonEmptyCons(p, tail);
    ConsAppendAssoc(if Trim(p) == [] then [] else [Trim(p)], TrimNonEmpty(t), q);
  }

  lemma TrimNonEmptyCons(p: JsString, rest: seq<JsString>)
    requires Comma !in p && CommaFree(rest)
    ensures CommaFree([p] + rest)
    ensures TrimNonEmpty([p] + rest) == (if Trim(p) == [] then [] else [Trim(p)]) + TrimNonEmpty(rest)
  {
    CommaFreeAppend([p], rest);
    assert ([p] + rest)[0] == p && ([p] + rest)[1..] == rest;
  }

  lemma ConsAppendAssoc<T>(x: seq<T>, r: seq<T>, q: seq<T>)
    ensures x + (r + q) == (x + r) + q
  {
  }

  lemma CommaFreeAppend(a: seq<JsString>, b: seq<JsString>)
    requires CommaFree(a) && CommaFree(b)
    ensures CommaFree(a + b)
  {
    forall j | 0 <= j < |a + b| ensures Comma !in (a + b)[j] {
      if j < |a| { assert (a + b)[j] == a[j]; } else { assert (a + b)[j] == b[j - |a|]; }
    }
  }

  /** One piece is trimmed and kept unless nothing is left of it. */
  lemma TrimNonEmptySingle(p: JsString)
    requires Comma !in p
    ensures TrimNonEmpty([p]) == if Trim(p) == [] then [] else [Trim(p)]
  {
    assert [p][1..] == [];
  }

  /** `String(cell).split(',').map(v => v.trim()).filter(Boolean)`. Nothing
      is left exactly when every comma-separated piece is blank. */
  function CaseLogValues(cell: JsString): (vs: seq<JsString>)
    ensures AllCaseLogValues(vs)
    ensures |vs| <= |Split(cell, Comma)|
    ensures vs == [] <==> forall p :: p in Split(cell, Comma) ==> AllWhiteSpace(p)
  {
    var parts := Split(cell, Comma);
    TrimNonEmptyBlank(parts);
    TrimNonEmpty(parts)
  }

  /** The values of two cell texts joined by a comma are the values of the
      first followed by the values of the second. */
  lemma CaseLogValuesConcat(a: JsString, b: JsString)
    ensures CaseLogValues(a + [Comma] + b) == CaseLogValues(a) + CaseLogValues(b)
  {
    SplitConcat(a, b, Comma);
    TrimNonEmptyAppend(Split(a, Comma), Split(b, Comma));
  }

  /** A cell text without a comma yields its trimmed text, or nothing when
      that is empty. */
  lemma CaseLogValuesOfPiece(p: JsString)
    requires Comma !in p
    ensures CaseLogValues(p) == if Trim(p) == [] then [] else [Trim(p)]
  {
    SplitJoin([p], Comma);
    TrimNonEmptySingle(p);
  }

  lemma CaseLogValuesCommaFree(vs: seq<JsString>)
    requires AllCaseLogValues(vs)
    ensures CommaFree(vs)
  {
    forall j | 0 <= j < |vs| ensures Comma !in vs[j] {
      assert IsCaseLogValue(vs[j]);
    }
  }

  lemma {:induction false} TrimNonEmptyKeeps(vs: seq<JsString>)
    requires AllCaseLogValues(vs)
    ensures CommaFree(vs) && TrimNonEmpty(vs) == vs
  {
    CaseLogValuesCommaFree(vs);
    if vs != [] {
      assert IsCaseLogValue(vs[0]);
      TrimKeepsEdgeFree(vs[0]);
      var rest := vs[1..];
      assert AllCaseLogValues(rest) by {
        forall k | 0 <= k < |rest| ensures IsCaseLogValue(rest[k]) {
          assert rest[k] == vs[k + 1];
        }
      }
      TrimNonEmptyKeeps(rest);
      assert TrimNonEmpty(vs) == [vs[0]] + TrimNonEmpty(rest);
      assert [vs[0]] + rest == vs;
    }
  }

  /** Values written back with commas come out again in the same order,
      repetitions included: the expander neither reorders nor
      de-duplicates. */
  lemma ValuesOfJoin(vs: seq<JsString>)
    requires AllCaseLogValues(vs)
    ensures CaseLogValues(Join(vs, Comma)) == vs
  {
    if vs == [] {
      assert Split([], Comma) == [[]];
      assert Trim([]) == [] by { TrimKeepsEdgeFree([]); }
    } else {
      CaseLogValuesCommaFree(vs);
      SplitJoin(vs, Comma);
      TrimNonEmptyKeeps(vs);
    }
  }

  /** "A, B, ,A" gives A, B, A: the blank piece is dropped, the second A
      is kept. */
  lemma DuplicatesKept()
    ensures CaseLogValues([0x41, 0x2C, 0x20, 0x42, 0x2C, 0x20, 0x2C, 0x41])
         == [[0x41], [0x42], [0x41]]
  {
    var a: JsString, b: JsString, sp: JsString := [0x41], [0x42], [0x20];
    var pieces: seq<JsString> := [a, sp + b, sp, a];
    JoinedPieces(a, b, sp);
    assert CommaFree(pieces);
    SplitJoin(pieces, Comma);
    TrimmedPieces(a, b, sp);
    KeptPieces(a, b, sp);
  }

  lemma JoinedPieces(a: JsString, b: JsString, sp: JsString)
    requires a == [0x41] && b == [0x42] && sp == [0x20]
    ensures Join([a, sp + b, sp, a], Comma) == [0x41, 0x2C, 0x20, 0x42, 0x2C, 0x20, 0x2C, 0x41]
  {
    var pieces: seq<JsString> := [a, sp + b, sp, a];
    assert pieces[1..][1..][1..] == [a];
    assert pieces[1..][1..] == [sp, a];
    assert Join([sp, a], Comma) == [0x20, 0x2C, 0x41];
    assert pieces[1..] == [sp + b, sp, a];
  }

  lemma KeptPieces(a: JsString, b: JsString, sp: JsString)
    requires Trim(a) == a && a != [] && Trim(sp + b) == b && b != [] && Trim(sp) == []
    requires CommaFree([a, sp + b, sp, a])
    ensures TrimNonEmpty([a, sp + b, sp, a]) == [a, b, a]
  {
    var pieces: seq<JsString> := [a, sp + b, sp, a];
    assert pieces[1..] == [sp + b, sp, a];
    assert [sp + b, sp, a][1..] == [sp, a];
    assert [sp, a][1..] == [a];
    assert [a][1..] == [];
    assert TrimNonEmpty([a]) == [a];
    assert TrimNonEmpty([sp, a]) == [a];
    assert TrimNonEmpty([sp + b, sp, a]) == [b, a];
  }

  lemma TrimmedPieces(a: JsString, b: JsString, sp: JsString)
    requires a == [0x41] && b == [0x42] && sp == [0x20]
    ensures Trim(a) == a && Trim(sp + b) == b && Trim(sp) == []
  {
    TrimKeepsEdgeFree(a);
    assert CoreAt(sp + b, b, 1);
    TrimIsTheCore(sp + b, b);
    assert CoreAt(sp, [], 1);
    TrimIsTheCore(sp, []);
  }

  // ---------------------------------------------------------------------
  // one outcome per row
  // ---------------------------------------------------------------------

  datatype RowOutcome =
    | MissingField                   // counted in skippedHeader
    | EmptyValue                     // counted in skippedEmpty
    | Values(values: seq<JsString>)  // one PDF per value

  function ClassifyRow(row: Record): (o: RowOutcome)
    ensures o.MissingField? <==> IsNullish(Get(row, CaseLogKey))
    ensures o.EmptyValue? <==>
      && !IsNullish(Get(row, CaseLogKey))
      && forall p :: p in Split(ToJsString(Get(row, CaseLogKey)), Comma) ==> AllWhiteSpace(p)
    ensures o.Values? ==>
      && |o.values| >= 1
      && o.values == CaseLogValues(ToJsString(Get(row, CaseLogKey)))
  {
    var cell := Get(row, CaseLogKey);
    if IsNullish(cell) then MissingField
    else
      var vs := CaseLogValues(ToJsString(cell));
      if vs == [] then EmptyValue else Values(vs)
  }

  /** One candidate PDF: the row and one of its case-log values. */
  datatype WorkItem = WorkItem(row: Record, value: JsString)

  /** The running counters of the loop; `processed` is the number of items. */
  datatype Tally = Tally(items: seq<WorkItem>, skippedHeader: nat, skippedEmpty: nat)

  function ItemsOf(row: Record): seq<WorkItem>
  {
    match ClassifyRow(row)
    case Values(vs) => seq(|vs|, k requires 0 <= k < |vs| => WorkItem(row, vs[k]))
    case _ => []
  }

  /** One pass of the loop body. */
  function Step(t: Tally, row: Record): Tally
  {
    match ClassifyRow(row)
    case MissingField => t.(skippedHeader := t.skippedHeader + 1)
    case EmptyValue => t.(skippedEmpty := t.skippedEmpty + 1)
    case Values(_) => t.(items := t.items + ItemsOf(row))
  }

  /** The `for (... of rows.entries())` loop, left to right. */
  function ExpandFrom(t: Tally, rows: seq<Record>): Tally
    decreases |rows|
  {
    if rows == [] then t else ExpandFrom(Step(t, rows[0]), rows[1..])
  }

  // ---------------------------------------------------------------------
  // a reference account of the loop's result
  // ---------------------------------------------------------------------

  /** Every row's items, rows in order, each row's values in order. */
  function AllItems(rows: seq<Record>): (items: seq<WorkItem>)
    ensures forall k :: 0 <= k < |items| ==> IsCaseLogValue(items[k].value)
  {
    if rows == [] then [] else ItemsOf(rows[0]) + AllItems(rows[1..])
  }

  function CountMissing(rows: seq<Record>): nat
  {
    if rows == [] then 0
    else (if ClassifyRow(rows[0]).MissingField? then 1 else 0) + CountMissing(rows[1..])
  }

  function CountEmpty(rows: seq<Record>): nat
  {
    if rows == [] then 0
    else (if ClassifyRow(rows[0]).EmptyValue? then 1 else 0) + CountEmpty(rows[1..])
  }

  function CountProducing(rows: seq<Record>): nat
  {
    if rows == [] then 0
    else (if ClassifyRow(rows[0]).Values? then 1 else 0) + CountProducing(rows[1..])
  }

  /** The sum of |values| over the rows that have values. */
  function ValueCount(rows: seq<Record>): nat
  {
    if rows == [] then 0
    else
      (match ClassifyRow(rows[0]) case Values(vs) => |vs| case _ => 0) + ValueCount(rows[1..])
  }

  lemma StepAccount(t: Tally, row: Record)
    ensures Step(t, row).items == t.items + ItemsOf(row)
    ensures Step(t, row).skippedHeader == t.skippedHeader + (if ClassifyRow(row).MissingField? then 1 else 0)
    ensures Step(t, row).skippedEmpty == t.skippedEmpty + (if ClassifyRow(row).EmptyValue? then 1 else 0)
  {
    if !ClassifyRow(row).Values? {
      assert t.items + [] == t.items;
    }
  }

  lemma {:induction false} ExpandFromAccount(t: Tally, rows: seq<Record>)
    ensures ExpandFrom(t, rows).items == t.items + AllItems(rows)
    ensures ExpandFrom(t, rows).skippedHeader == t.skippedHeader + CountMissing(rows)
    ensures ExpandFrom(t, rows).skippedEmpty == t.skippedEmpty + CountEmpty(rows)
    decreases |rows|
  {
    if rows == [] {
      assert t.items + [] == t.items;
    } else {
      var row, rest := rows[0], rows[1..];
      var t' := Step(t, row);
      StepAccount(t, row);
      ExpandFromAccount(t', rest);
      assert ExpandFrom(t, rows) == ExpandFrom(t', rest);
      AppendAssoc(t.items, ItemsOf(row), AllItems(rest));
    }
  }

  lemma AppendAssoc<T>(a: seq<T>, b: seq<T>, c: seq<T>)
    ensures a + b + c == a + (b + c)
  {
  }

  /** The whole loop from zeroed counters: the items are every row's values
      in order, and the skip counters count the rows of each skip kind. */
  function ExpandRows(rows: seq<Record>): (t: Tally)
    ensures t.items == AllItems(rows)
    ensures t.skippedHeader == CountMissing(rows)
    ensures t.skippedEmpty == CountEmpty(rows)
  {
    ExpandFromAccount(Tally([], 0, 0), rows);
    ExpandFrom(Tally([], 0, 0), rows)
  }

  /** A row whose cell lists case-log values separated by commas, followed
      by rows without a case-log cell, yields one item per listed value, in
      order, and nothing else. */
  lemma ListedRowItems(row: Record, vs: seq<JsString>, rest: seq<Record>)
    requires AllCaseLogValues(vs) && vs != []
    requires Get(row, CaseLogKey) == Str(Join(vs, Comma))
    requires forall k :: 0 <= k < |rest| ==> IsNullish(Get(rest[k], CaseLogKey))
    ensures |AllItems([row] + rest)| == |vs|
    ensures forall k :: 0 <= k < |vs| ==> AllItems([row] + rest)[k] == WorkItem(row, vs[k])
  {
    ListedValues(row, vs);
    ItemsOfValues(row, vs);
    MissingRowsAddNothing(rest);
    assert ([row] + rest)[1..] == rest;
    assert AllItems([row] + rest) == ItemsOf(row) + [];
  }

  lemma {:induction false} MissingRowsAddNothing(rows: seq<Record>)
    requires forall k :: 0 <= k < |rows| ==> IsNullish(Get(rows[k], CaseLogKey))
    ensures AllItems(rows) == []
    ensures CountMissing(rows) == |rows|
    decreases |rows|
  {
    if rows != [] {
      assert IsNullish(Get(rows[0], CaseLogKey));
      MissingRowsAddNothing(rows[1..]);
    }
  }

  lemma ItemsOfValues(row: Record, vs: seq<JsString>)
    requires ClassifyRow(row) == Values(vs)
    ensures |ItemsOf(row)| == |vs|
    ensures forall k :: 0 <= k < |vs| ==> ItemsOf(row)[k] == WorkItem(row, vs[k])
  {
  }

  lemma ListedValues(row: Record, vs: seq<JsString>)
    requires AllCaseLogValues(vs) && vs != []
    requires Get(row, CaseLogKey) == Str(Join(vs, Comma))
    ensures ClassifyRow(row) == Values(vs)
  {
    ValuesOfJoin(vs);
  }

  /** Every row lands in exactly one outcome, and `processed` is the sum
      of the value counts of the rows that have values, at least one each. */
  lemma {:induction false} RowAccounting(rows: seq<Record>)
    ensures CountMissing(rows) + CountEmpty(rows) + CountProducing(rows) == |rows|
    ensures |AllItems(rows)| == ValueCount(rows)
    ensures CountProducing(rows) <= ValueCount(rows)
  {
    if rows != [] {
      RowAccounting(rows[1..]);
    }
  }
}
