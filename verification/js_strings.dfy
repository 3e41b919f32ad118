/** JavaScript strings as the handler sees them: sequences of UTF-16 code
    units, with the few String.prototype operations the upload handler uses
    (trim, toLowerCase, startsWith, endsWith, split) and the decimal
    rendering of a non-negative integer. */
module JsStrings {

  /** One UTF-16 code unit, the element a JavaScript string is made of. */
  type CodeUnit = u: int | 0 <= u < 0x1_0000

  type JsString = seq<CodeUnit>

  /** A literal written as a Dafny string, read as code units; every
      character used in this model lies in the Basic Multilingual Plane,
      so each is one code unit. */
  function Lit(s: string): (r: JsString)
    ensures |r| == |s|
  {
    seq(|s|, i requires 0 <= i < |s| => (s[i] as int) % 0x1_0000)
  }

  const Comma: CodeUnit := 0x2C

  // ---------------------------------------------------------------------
  // trim
  // ---------------------------------------------------------------------

  /** The ECMAScript WhiteSpace and LineTerminator code points: TAB, VT, FF,
      the Zs space separators, ZWNBSP, LF, CR, LS and PS. These are exactly
      the units String.prototype.trim removes from both ends. */
  predicate IsWhiteSpace(u: CodeUnit)
  {
    || u == 0x09 || u == 0x0B || u == 0x0C || u == 0x20 || u == 0xA0
    || u == 0x1680 || (0x2000 <= u <= 0x200A) || u == 0x202F || u == 0x205F
    || u == 0x3000 || u == 0xFEFF
    || u == 0x0A || u == 0x0D || u == 0x2028 || u == 0x2029
  }

  predicate AllWhiteSpace(s: JsString)
  {
    forall k :: 0 <= k < |s| ==> IsWhiteSpace(s[k])
  }

  /** Neither the first nor the last unit is white space. */
  predicate NoEdgeSpace(s: JsString)
  {
    s == [] || (!IsWhiteSpace(s[0]) && !IsWhiteSpace(s[|s| - 1]))
  }

  /** The index of the first non-space unit at or after `i`, or |s|. */
  function SkipSpace(s: JsString, i: nat): (r: nat)
    requires i <= |s|
    ensures i <= r <= |s|
    ensures forall k :: i <= k < r ==> IsWhiteSpace(s[k])
    ensures r < |s| ==> !IsWhiteSpace(s[r])
    decreases |s| - i
  {
    if i < |s| && IsWhiteSpace(s[i]) then SkipSpace(s, i + 1) else i
  }

  /** The least `e` at or after `lo` such that s[e..j] is all white space. */
  function SkipSpaceBack(s: JsString, lo: nat, j: nat): (r: nat)
    requires lo <= j <= |s|
    ensures lo <= r <= j
    ensures forall k :: r <= k < j ==> IsWhiteSpace(s[k])
    ensures lo < r ==> !IsWhiteSpace(s[r - 1])
  {
    if lo < j && IsWhiteSpace(s[j - 1]) then SkipSpaceBack(s, lo, j - 1) else j
  }

  /** `t` is what is left of `s` once a white-space prefix and a white-space
      suffix are cut off, and `t` itself has no white space at either end. */
  predicate IsCoreOf(s: JsString, t: JsString)
  {
    exists i | 0 <= i <= |s| :: CoreAt(s, t, i)
  }

  /** `t` is the slice of `s` starting at `i`, with only white space around
      it and none at its own ends. */
  predicate CoreAt(s: JsString, t: JsString, i: int)
  {
    && 0 <= i <= |s| - |t| && AllWhiteSpace(s[..i]) && t == s[i..i + |t|]
    && AllWhiteSpace(s[i + |t|..]) && NoEdgeSpace(t)
  }

  /** String.prototype.trim. */
  function Trim(s: JsString): (r: JsString)
    ensures NoEdgeSpace(r)
  {
    var a := SkipSpace(s, 0);
    s[a..SkipSpaceBack(s, a, |s|)]
  }

  /** What `Trim` keeps is the core of its input. */
  lemma TrimCore(s: JsString)
    ensures IsCoreOf(s, Trim(s))
  {
    var a := SkipSpace(s, 0);
    var b := SkipSpaceBack(s, a, |s|);
    assert AllWhiteSpace(s[..a]) by {
      forall k | 0 <= k < a ensures IsWhiteSpace(s[..a][k]) { assert s[..a][k] == s[k]; }
    }
    assert AllWhiteSpace(s[b..]) by {
      forall k | 0 <= k < |s| - b ensures IsWhiteSpace(s[b..][k]) { assert s[b..][k] == s[b + k]; }
    }
    assert CoreAt(s, Trim(s), a);
  }

  lemma BlankWhole(s: JsString, i: nat)
    requires i <= |s| && AllWhiteSpace(s[..i]) && AllWhiteSpace(s[i..])
    ensures AllWhiteSpace(s)
  {
    forall k | 0 <= k < |s| ensures IsWhiteSpace(s[k]) {
      if k < i { assert s[..i][k] == s[k]; } else { assert s[i..][k - i] == s[k]; }
    }
  }

  /** Two white-space prefixes each followed by a non-space unit have the
      same length. */
  lemma SameStart(s: JsString, i: nat, j: nat)
    requires i < |s| && j < |s|
    requires AllWhiteSpace(s[..i]) && AllWhiteSpace(s[..j])
    requires !IsWhiteSpace(s[i]) && !IsWhiteSpace(s[j])
    ensures i == j
  {
  }

  /** Two white-space suffixes each preceded by a non-space unit have the
      same length. */
  lemma SameEnd(s: JsString, e: nat, f: nat)
    requires 0 < e <= |s| && 0 < f <= |s|
    requires AllWhiteSpace(s[e..]) && AllWhiteSpace(s[f..])
    requires !IsWhiteSpace(s[e - 1]) && !IsWhiteSpace(s[f - 1])
    ensures e == f
  {
  }

  /** A string has at most one core. */
  lemma CoreUnique(s: JsString, t: JsString, i: int, r: JsString, j: int)
    requires CoreAt(s, t, i) && CoreAt(s, r, j)
    ensures t == r
  {
    if t == [] {
      assert s[i + |t|..] == s[i..];
      BlankWhole(s, i);
      if r != [] {
        assert false;
      }
    } else if r == [] {
      assert s[j + |r|..] == s[j..];
      BlankWhole(s, j);
      assert false;
    } else {
      assert t[0] == s[i] && r[0] == s[j];
      SameStart(s, i, j);
      assert t[|t| - 1] == s[i + |t| - 1] && r[|r| - 1] == s[j + |r| - 1];
      SameEnd(s, i + |t|, j + |r|);
    }
  }

  /** Trimming is determined by the core: any white-space-free core of `s`
      is the one `Trim` returns. */
  lemma TrimIsTheCore(s: JsString, t: JsString)
    requires IsCoreOf(s, t)
    ensures Trim(s) == t
  {
    var i :| 0 <= i <= |s| && CoreAt(s, t, i);
    var r := Trim(s);
    TrimCore(s);
    var j :| 0 <= j <= |s| && CoreAt(s, r, j);
    CoreUnique(s, t, i, r, j);
  }

  /** Trimming only removes units. */
  lemma TrimAddsNothing(s: JsString, u: CodeUnit)
    requires u !in s
    ensures u !in Trim(s)
  {
    var r := Trim(s);
    TrimCore(s);
    var i :| 0 <= i <= |s| && CoreAt(s, r, i);
  }

  /** Trimming a string with no white space at either end leaves it as is. */
  lemma {:induction false} TrimKeepsEdgeFree(s: JsString)
    requires NoEdgeSpace(s)
    ensures Trim(s) == s
  {
    assert s[..0] == [] && s[0..|s|] == s && s[|s|..] == [];
    assert CoreAt(s, s, 0);
    TrimIsTheCore(s, s);
  }

  /** Trimming leaves nothing exactly when the string is all white space. */
  lemma TrimEmptyIffBlank(s: JsString)
    ensures Trim(s) == [] <==> AllWhiteSpace(s)
  {
    if AllWhiteSpace(s) {
      assert s[..0] == [] && s[0..0] == [] && s[0..] == s;
      assert CoreAt(s, [], 0);
      TrimIsTheCore(s, []);
    } else {
      TrimCore(s);
      var i :| 0 <= i <= |s| && CoreAt(s, Trim(s), i);
      if Trim(s) == [] {
        assert s[i + 0..] == s[i..];
        BlankWhole(s, i);
        assert false;
      }
    }
  }

  lemma TrimIdempotent(s: JsString)
    ensures Trim(Trim(s)) == Trim(s)
  {
    TrimKeepsEdgeFree(Trim(s));
  }

  // ---------------------------------------------------------------------
  // toLowerCase, startsWith, endsWith
  // ---------------------------------------------------------------------

  function LowerUnit(u: CodeUnit): CodeUnit
  {
    if 0x41 <= u <= 0x5A then u + 0x20 else u
  }

  /** String.prototype.toLowerCase on the ASCII letters; every other unit
      is left as it is. */
  function ToLowerCase(s: JsString): (r: JsString)
    ensures |r| == |s|
  {
    seq(|s|, i requires 0 <= i < |s| => LowerUnit(s[i]))
  }

  predicate StartsWith(s: JsString, prefix: JsString)
  {
    |prefix| <= |s| && s[..|prefix|] == prefix
  }

  predicate EndsWith(s: JsString, suffix: JsString)
  {
    |suffix| <= |s| && s[|s| - |suffix|..] == suffix
  }

  /** A string that starts with `upper` starts, once lower-cased, with the
      unit-by-unit lower-casing `lower` of it. */
  lemma LowerPrefix(s: JsString, upper: JsString, lower: JsString)
    requires StartsWith(s, upper)
    requires |upper| == |lower|
    requires forall k :: 0 <= k < |upper| ==> LowerUnit(upper[k]) == lower[k]
    ensures StartsWith(ToLowerCase(s), lower)
  {
    assert ToLowerCase(s)[..|lower|] == lower by {
      forall k | 0 <= k < |lower| ensures ToLowerCase(s)[k] == lower[k] {
        assert s[k] == upper[k];
      }
    }
  }

  // ---------------------------------------------------------------------
  // split and join on a one-unit separator
  // ---------------------------------------------------------------------

  /** String.prototype.split with a one-unit separator: the pieces between
      separators, including empty ones; the empty string gives one empty
      piece. */
  function Split(s: JsString, sep: CodeUnit): (parts: seq<JsString>)
    ensures |parts| >= 1
    ensures forall k :: 0 <= k < |parts| ==> sep !in parts[k]
  {
    if s == [] then [[]]
    else
      var rest := Split(s[1..], sep);
      if s[0] == sep then [[]] + rest
      else [[s[0]] + rest[0]] + rest[1..]
  }

  /** Array.prototype.join with a one-unit separator. */
  function Join(parts: seq<JsString>, sep: CodeUnit): JsString
  {
    if |parts| == 0 then []
    else if |parts| == 1 then parts[0]
    else parts[0] + [sep] + Join(parts[1..], sep)
  }

  /** Joining the pieces of a split with the same separator gives back the
      string. */
  lemma {:induction false} JoinSplit(s: JsString, sep: CodeUnit)
    ensures Join(Split(s, sep), sep) == s
  {
    if s != [] {
      var rest := Split(s[1..], sep);
      JoinSplit(s[1..], sep);
      if s[0] == sep {
        assert ([[]] + rest)[1..] == rest;
      } else {
        var parts := [[s[0]] + rest[0]] + rest[1..];
        if |rest| > 1 {
          assert parts[1..] == rest[1..];
          assert Join(rest, sep) == rest[0] + [sep] + Join(rest[1..], sep);
        }
      }
    }
  }

  /** Splitting at one separator unit splits the pieces on either side
      independently: the pieces of `a`, then the pieces of `b`. */
  lemma {:induction false} SplitConcat(a: JsString, b: JsString, sep: CodeUnit)
    ensures Split(a + [sep] + b, sep) == Split(a, sep) + Split(b, sep)
  {
    if a == [] {
      assert a + [sep] + b == [sep] + b;
      SplitCons(sep, b, sep);
    } else {
      var t := a[1..];
      assert a == [a[0]] + t;
      assert a + [sep] + b == [a[0]] + (t + [sep] + b);
      SplitConcat(t, b, sep);
      SplitConsAppend(a[0], t, t + [sep] + b, Split(b, sep), sep);
    }
  }

  /** Putting one unit in front of two strings whose pieces differ by
      trailing pieces `q` keeps that difference. */
  lemma SplitConsAppend(u: CodeUnit, t: JsString, tail: JsString, q: seq<JsString>, sep: CodeUnit)
    requires Split(tail, sep) == Split(t, sep) + q
    ensures Split([u] + tail, sep) == Split([u] + t, sep) + q
  {
    var r := Split(t, sep);
    SplitCons(u, tail, sep);
    SplitCons(u, t, sep);
    if u == sep {
      ConsAssoc([], r, q);
    } else {
      assert (r + q)[0] == r[0];
      assert (r + q)[1..] == r[1..] + q;
      ConsAssoc([u] + r[0], r[1..], q);
    }
  }

  lemma ConsAssoc<T>(x: T, r: seq<T>, q: seq<T>)
    ensures [x] + (r + q) == ([x] + r) + q
  {
  }

  /** One step of `Split`: the first unit either ends an empty piece or
      starts the first piece of the rest. */
  lemma SplitCons(u: CodeUnit, t: JsString, sep: CodeUnit)
    ensures Split([u] + t, sep) ==
      if u == sep then [[]] + Split(t, sep) else [[u] + Split(t, sep)[0]] + Split(t, sep)[1..]
  {
    assert ([u] + t)[0] == u && ([u] + t)[1..] == t;
  }

  lemma {:induction false} SplitPrefix(a: JsString, t: JsString, sep: CodeUnit)
    requires sep !in a
    ensures Split(a + t, sep) == [a + Split(t, sep)[0]] + Split(t, sep)[1..]
  {
    if a != [] {
      assert (a + t)[1..] == a[1..] + t;
      assert (a + t)[0] == a[0];
      SplitPrefix(a[1..], t, sep);
      assert [a[0]] + (a[1..] + Split(t, sep)[0]) == a + Split(t, sep)[0];
    } else {
      var parts := Split(t, sep);
      assert a + t == t;
      assert parts == [parts[0]] + parts[1..];
      assert a + parts[0] == parts[0];
    }
  }

  /** Splitting a join of separator-free pieces gives back the pieces, in
      order and with repetitions. */
  lemma {:induction false} SplitJoin(parts: seq<JsString>, sep: CodeUnit)
    requires |parts| >= 1
    requires forall k :: 0 <= k < |parts| ==> sep !in parts[k]
    ensures Split(Join(parts, sep), sep) == parts
  {
    if |parts| == 1 {
      SplitPrefix(parts[0], [], sep);
      assert parts[0] + [] == parts[0];
    } else {
      var tail := Join(parts[1..], sep);
      SplitJoin(parts[1..], sep);
      SplitPrefix(parts[0], [sep] + tail, sep);
      assert parts[0] + [sep] + tail == parts[0] + ([sep] + tail);
      assert ([sep] + tail)[1..] == tail;
      assert Split([sep] + tail, sep) == [[]] + parts[1..];
      assert parts[0] + [] == parts[0];
    }
  }

  // ---------------------------------------------------------------------
  // decimal rendering of a count
  // ---------------------------------------------------------------------

  predicate IsDigit(u: CodeUnit)
  {
    0x30 <= u <= 0x39
  }

  /** String(n) for a non-negative integer count: its decimal digits,
      without leading zeros. */
  function Decimal(n: nat): (r: JsString)
    ensures 1 <= |r|
    ensures forall k :: 0 <= k < |r| ==> IsDigit(r[k])
    ensures r[0] == 0x30 ==> n == 0
  {
    if n < 10 then [0x30 + n] else Decimal(n / 10) + [0x30 + n % 10]
  }

  /** The value of a string of decimal digits. */
  function DigitsValue(s: JsString): nat
    requires forall k :: 0 <= k < |s| ==> IsDigit(s[k])
  {
    if s == [] then 0
    else
      assert IsDigit(s[|s| - 1]);
      DigitsValue(s[..|s| - 1]) * 10 + (s[|s| - 1] - 0x30)
  }

  /** Reading the rendered digits back gives the count. */
  lemma {:induction false} DecimalRoundTrip(n: nat)
    ensures DigitsValue(Decimal(n)) == n
  {
    if n >= 10 {
      DecimalRoundTrip(n / 10);
      var d := Decimal(n);
      assert d[..|d| - 1] == Decimal(n / 10);
    }
  }
}
