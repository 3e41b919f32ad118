/** Header-row detection: spreadsheets arrive with title rows above the
    real column headers, so the handler looks for the first row that has a
    "Case Log type" heading and reads the records from there. */
module HeaderLocator {
  import opened JsStrings
  import opened JsValues
  import opened RowExpander

  /** The sheet as an array of arrays, blank cells read as ''. */
  type Grid = seq<seq<JsValue>>

  const Marker: JsString := Lit("case log type")

  /** A text cell that, trimmed and lower-cased, starts with the marker.
      Numbers and booleans never match. */
  predicate IsMarkerCell(cell: JsValue)
  {
    cell.Str? && StartsWith(ToLowerCase(Trim(cell.s)), Marker)
  }

  predicate IsHeaderRow(row: seq<JsValue>)
  {
    exists k :: 0 <= k < |row| && IsMarkerCell(row[k])
  }

  /** `row.some(...)`, scanning the cells left to right. */
  function RowHasMarker(row: seq<JsValue>): (b: bool)
    ensures b <==> IsHeaderRow(row)
  {
    if row == [] then false
    else IsMarkerCell(row[0]) || RowHasMarker(row[1..])
  }

  /** `findIndex`: the first header row, or None where the handler sees -1. */
  function FindHeaderRow(grid: Grid): (r: Option<nat>)
    ensures r.Some? ==> r.value < |grid| && IsHeaderRow(grid[r.value])
    ensures r.Some? ==> forall j :: 0 <= j < r.value ==> !IsHeaderRow(grid[j])
    ensures r.None? <==> forall j :: 0 <= j < |grid| ==> !IsHeaderRow(grid[j])
  {
    if grid == [] then None
    else if RowHasMarker(grid[0]) then Some(0)
    else
      var rest := grid[1..];
      assert forall j :: 1 <= j < |grid| ==> grid[j] == rest[j - 1];
      match FindHeaderRow(rest)
      case None => None
      case Some(i) => Some(i + 1)
  }

  /** The heading the row loop reads, `Case Log type: EPP / EPE`, is a
      header cell. */
  lemma KeyHeadingMatches()
    ensures StartsWith(ToLowerCase(CaseLogKey), Marker)
    ensures IsMarkerCell(Str(CaseLogKey))
  {
    MarkerUnits();
    KeyUnits();
    LowerPrefix(CaseLogKey, [0x43, 0x61, 0x73, 0x65, 0x20, 0x4C, 0x6F, 0x67, 0x20, 0x74, 0x79, 0x70, 0x65], Marker);
    assert CaseLogKey[0] == 0x43 && CaseLogKey[|CaseLogKey| - 1] == 0x45;
    TrimKeepsEdgeFree(CaseLogKey);
  }

  lemma MarkerUnits()
    ensures Marker == [0x63, 0x61, 0x73, 0x65, 0x20, 0x6C, 0x6F, 0x67, 0x20, 0x74, 0x79, 0x70, 0x65]
  {
  }

  lemma KeyUnits()
    ensures CaseLogKey[..13] == [0x43, 0x61, 0x73, 0x65, 0x20, 0x4C, 0x6F, 0x67, 0x20, 0x74, 0x79, 0x70, 0x65]
  {
  }

  /** The same heading in capitals. */
  const CapitalHeading: JsString := Lit("CASE LOG TYPE: EPP / EPE")

  /** The locator ignores letter case but the row loop does not: a heading
      in capitals is a header cell, yet it is not the key the loop looks
      up, so below it every row lacks the case-log cell. */
  lemma CapitalHeadingIsNotTheKey()
    ensures IsMarkerCell(Str(CapitalHeading))
    ensures CapitalHeading != CaseLogKey
  {
    MarkerUnits();
    CapitalUnits();
    LowerPrefix(CapitalHeading, [0x43, 0x41, 0x53, 0x45, 0x20, 0x4C, 0x4F, 0x47, 0x20, 0x54, 0x59, 0x50, 0x45], Marker);
    assert CapitalHeading[0] == 0x43 && CapitalHeading[|CapitalHeading| - 1] == 0x45;
    TrimKeepsEdgeFree(CapitalHeading);
    assert CapitalHeading[1] != CaseLogKey[1];
  }

  lemma CapitalUnits()
    ensures CapitalHeading[..13] == [0x43, 0x41, 0x53, 0x45, 0x20, 0x4C, 0x4F, 0x47, 0x20, 0x54, 0x59, 0x50, 0x45]
  {
  }

  /** Blanks and tabs around the heading do not hide it. */
  lemma PaddedHeadingMatches()
    ensures IsMarkerCell(Str([0x20, 0x09] + CaseLogKey + [0x20]))
  {
    var core := CaseLogKey;
    var s := [0x20, 0x09] + core + [0x20];
    assert s[..2] == [0x20, 0x09];
    assert s[2..2 + |core|] == core;
    assert s[2 + |core|..] == [0x20];
    assert core[0] == 0x43 && core[|core| - 1] == 0x45;
    assert CoreAt(s, core, 2);
    TrimIsTheCore(s, core);
    KeyHeadingMatches();
  }
}
