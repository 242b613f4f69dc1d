/**
  The `java.lang.String` operations the application applies to user input and CSV lines:
  `trim()`, `replaceAll("\\s+", " ")`, `split(",")` and `compareTo`.
*/
module JavaText {

  /** `\s` in a Java regular expression: space, tab, line feed, vertical tab, form feed, return. */
  predicate IsWhitespace(c: char) {
    c == ' ' || c == '\t' || c == '\n' || c == '\U{B}' || c == '\U{C}' || c == '\r'
  }

  /** `String.trim()` strips every leading and trailing character at or below U+0020. */
  predicate IsTrimmable(c: char) {
    c <= ' '
  }

  // ---------------------------------------------------------------- whitespace runs

  /** Drops the run of whitespace at the front of `s`. */
  function SkipWhitespace(s: string): (r: string)
    ensures |r| <= |s| && r == s[|s| - |r|..]
    ensures r == [] || !IsWhitespace(r[0])
    ensures forall i :: 0 <= i < |s| - |r| ==> IsWhitespace(s[i])
    ensures s != [] && IsWhitespace(s[0]) ==> |r| < |s|
  {
    if s != [] && IsWhitespace(s[0]) then SkipWhitespace(s[1..]) else s
  }

  /** `s.replaceAll("\\s+", " ")`: each maximal run of whitespace becomes a single space. */
  function CollapseWhitespace(s: string): (r: string)
    decreases |s|
  {
    if s == [] then []
    else if IsWhitespace(s[0]) then " " + CollapseWhitespace(SkipWhitespace(s))
    else [s[0]] + CollapseWhitespace(s[1..])
  }

  /** No whitespace other than ' ', and never two spaces in a row. */
  predicate Collapsed(s: string) {
    (forall i :: 0 <= i < |s| && IsWhitespace(s[i]) ==> s[i] == ' ')
    && (forall i :: 0 <= i < |s| - 1 ==> !(s[i] == ' ' && s[i + 1] == ' '))
  }

  lemma CollapseFirst(s: string)
    requires s != [] && !IsWhitespace(s[0])
    ensures CollapseWhitespace(s) != [] && CollapseWhitespace(s)[0] == s[0]
  {
  }

  /** The result of `replaceAll("\\s+", " ")` has the collapsed shape. */
  lemma {:induction false} CollapseIsCollapsed(s: string)
    ensures Collapsed(CollapseWhitespace(s))
    decreases |s|
  {
    if s == [] {
    } else if IsWhitespace(s[0]) {
      var rest := SkipWhitespace(s);
      CollapseIsCollapsed(rest);
      if rest != [] {
        CollapseFirst(rest);
      }
    } else {
      CollapseIsCollapsed(s[1..]);
    }
  }

  /** Collapsing text that is already collapsed changes nothing. */
  lemma {:induction false} CollapseOfCollapsed(s: string)
    requires Collapsed(s)
    ensures CollapseWhitespace(s) == s
  {
    if s == [] {
    } else {
      assert Collapsed(s[1..]);
      CollapseOfCollapsed(s[1..]);
      if IsWhitespace(s[0]) {
        assert s[1..] == [] || !IsWhitespace(s[1]);
        assert SkipWhitespace(s) == s[1..] by {
          assert SkipWhitespace(s) == SkipWhitespace(s[1..]);
        }
      }
      assert s == [s[0]] + s[1..];
    }
  }

  /** The collapse keeps a last character that is not whitespace. */
  lemma {:induction false} CollapseLast(s: string)
    requires s != [] && !IsWhitespace(s[|s| - 1])
    ensures var c := CollapseWhitespace(s); c != [] && c[|c| - 1] == s[|s| - 1]
    decreases |s|
  {
    if |s| == 1 {
    } else if IsWhitespace(s[0]) {
      var rest := SkipWhitespace(s);
      assert rest != [] && rest[|rest| - 1] == s[|s| - 1];
      CollapseLast(rest);
    } else {
      CollapseLast(s[1..]);
    }
  }

  // ---------------------------------------------------------------- trim

  function TrimStart(s: string): (r: string)
    ensures |r| <= |s| && r == s[|s| - |r|..]
    ensures r == [] || !IsTrimmable(r[0])
    ensures forall i :: 0 <= i < |s| - |r| ==> IsTrimmable(s[i])
  {
    if s != [] && IsTrimmable(s[0]) then TrimStart(s[1..]) else s
  }

  function TrimEnd(s: string): (r: string)
    ensures |r| <= |s| && r == s[..|r|]
    ensures r == [] || !IsTrimmable(r[|r| - 1])
    ensures forall i :: |r| <= i < |s| ==> IsTrimmable(s[i])
  {
    if s != [] && IsTrimmable(s[|s| - 1]) then TrimEnd(s[..|s| - 1]) else s
  }

  /** `String.trim()`. */
  function Trim(s: string): string {
    TrimEnd(TrimStart(s))
  }

  /** Text with nothing to strip at either end is its own trim. */
  lemma TrimOfTrimmed(s: string)
    requires s == [] || (!IsTrimmable(s[0]) && !IsTrimmable(s[|s| - 1]))
    ensures Trim(s) == s
  {
  }

  /** An empty trim means every character was at or below U+0020, and conversely. */
  lemma TrimEmpty(s: string)
    ensures Trim(s) == [] <==> AllBlank(s)
  {
  }

  // ---------------------------------------------------------------- normalising input

  /** Any run of a collapsed text is collapsed. */
  lemma CollapsedSlice(s: string, i: nat, j: nat)
    requires Collapsed(s) && i <= j <= |s|
    ensures Collapsed(s[i..j])
  {
    var t := s[i..j];
    assert forall k :: 0 <= k < |t| ==> t[k] == s[i + k];
  }

  /** `String.trim()` returns a run of its input. */
  lemma TrimIsSlice(s: string) returns (i: nat, j: nat)
    ensures i <= j <= |s| && Trim(s) == s[i..j]
  {
    var t := TrimStart(s);
    i := |s| - |t|;
    j := i + |TrimEnd(t)|;
    assert t[..|TrimEnd(t)|] == s[i..j];
  }

  /** Every character is at or below U+0020. */
  predicate AllBlank(s: string) {
    forall k :: 0 <= k < |s| ==> IsTrimmable(s[k])
  }

  lemma AllBlankConcat(x: string, y: string)
    ensures AllBlank(x + y) <==> AllBlank(x) && AllBlank(y)
  {
    assert forall k :: 0 <= k < |x| ==> (x + y)[k] == x[k];
    assert forall k :: 0 <= k < |y| ==> (x + y)[|x| + k] == y[k];
  }

  /** A leading whitespace run is all blank. */
  lemma SkippedRunBlank(s: string)
    ensures AllBlank(s) <==> AllBlank(SkipWhitespace(s))
  {
    var rest := SkipWhitespace(s);
    var n := |s| - |rest|;
    assert s == s[..n] + rest;
    assert AllBlank(s[..n]) by {
      assert forall k :: 0 <= k < n ==> s[..n][k] == s[k];
    }
    AllBlankConcat(s[..n], rest);
  }

  /** A leading whitespace run collapses to one blank. */
  lemma CollapseBlankRun(s: string)
    requires s != [] && IsWhitespace(s[0])
    ensures var rest := SkipWhitespace(s);
      (AllBlank(CollapseWhitespace(s)) <==> AllBlank(CollapseWhitespace(rest)))
      && (AllBlank(s) <==> AllBlank(rest))
  {
    var c := CollapseWhitespace(SkipWhitespace(s));
    assert CollapseWhitespace(s) == " " + c;
    AllBlankConcat(" ", c);
    SkippedRunBlank(s);
  }

  /** A leading character that is not whitespace is kept as it is. */
  lemma CollapseKeptChar(s: string)
    requires s != [] && !IsWhitespace(s[0])
    ensures (AllBlank(CollapseWhitespace(s)) <==> IsTrimmable(s[0]) && AllBlank(CollapseWhitespace(s[1..])))
      && (AllBlank(s) <==> IsTrimmable(s[0]) && AllBlank(s[1..]))
  {
    assert CollapseWhitespace(s) == [s[0]] + CollapseWhitespace(s[1..]);
    assert s == [s[0]] + s[1..];
    AllBlankConcat([s[0]], s[1..]);
    AllBlankConcat([s[0]], CollapseWhitespace(s[1..]));
  }

  /** The collapse keeps all-blank text all blank, and other text not all blank. */
  lemma {:induction false} CollapseAllBlank(s: string)
    ensures AllBlank(CollapseWhitespace(s)) <==> AllBlank(s)
    decreases |s|
  {
    if s == [] {
    } else if IsWhitespace(s[0]) {
      CollapseAllBlank(SkipWhitespace(s));
      CollapseBlankRun(s);
    } else {
      CollapseAllBlank(s[1..]);
      CollapseKeptChar(s);
    }
  }

  /** How every text box is read before validation: `input.replaceAll("\\s+", " ").trim()`. */
  function Normalize(s: string): string {
    Trim(CollapseWhitespace(s))
  }

  /** Normalised text has no blank ends, no whitespace but ' ', and no double space. */
  lemma NormalizeShape(s: string)
    ensures var r := Normalize(s);
      Collapsed(r) && (r == [] || (!IsTrimmable(r[0]) && !IsTrimmable(r[|r| - 1])))
  {
    var c := CollapseWhitespace(s);
    CollapseIsCollapsed(s);
    var i, j := TrimIsSlice(c);
    CollapsedSlice(c, i, j);
    var t := TrimStart(c);
    if TrimEnd(t) != [] {
      assert TrimEnd(t)[0] == t[0];
    }
  }

  /** Normalising twice is normalising once. */
  lemma NormalizeIdempotent(s: string)
    ensures Normalize(Normalize(s)) == Normalize(s)
  {
    var r := Normalize(s);
    NormalizeShape(s);
    CollapseOfCollapsed(r);
    TrimOfTrimmed(r);
  }

  /** Text with no character at or below U+0020 normalises to itself. */
  lemma NormalizeVisible(s: string)
    requires forall k :: 0 <= k < |s| ==> !IsTrimmable(s[k])
    ensures Normalize(s) == s
  {
    CollapseOfCollapsed(s);
    TrimOfTrimmed(s);
  }

  /** Input normalises to the empty string exactly when it is all blanks. */
  lemma NormalizeEmpty(s: string)
    ensures Normalize(s) == [] <==> AllBlank(s)
  {
    CollapseAllBlank(s);
    TrimEmpty(CollapseWhitespace(s));
  }

  // ---------------------------------------------------------------- split and join

  /** The fields of `s` between commas, keeping every empty field. */
  function SplitAtCommas(s: string): (parts: seq<string>)
    ensures |parts| >= 1
  {
    if s == [] then [""]
    else
      var rest := SplitAtCommas(s[1..]);
      if s[0] == ',' then [""] + rest else [[s[0]] + rest[0]] + rest[1..]
  }

  function DropTrailingEmpty(parts: seq<string>): seq<string> {
    if parts != [] && parts[|parts| - 1] == "" then DropTrailingEmpty(parts[..|parts| - 1]) else parts
  }

  /**
    `s.split(",")`: text without a comma gives a one-element array holding `s` itself;
    otherwise the fields between commas, with trailing empty fields removed.
  */
  function Split(s: string): seq<string> {
    if ',' !in s then [s] else DropTrailingEmpty(SplitAtCommas(s))
  }

  /** Fields separated by commas; the inverse of `Split` on comma-free fields. */
  function JoinWithCommas(fields: seq<string>): string
    requires |fields| >= 1
  {
    if |fields| == 1 then fields[0] else fields[0] + "," + JoinWithCommas(fields[1..])
  }

  lemma {:induction false} SplitAtCommasNoComma(s: string)
    requires ',' !in s
    ensures SplitAtCommas(s) == [s]
  {
    if s != [] {
      SplitAtCommasNoComma(s[1..]);
      assert s == [s[0]] + s[1..];
    }
  }

  lemma {:induction false} SplitAtCommasField(a: string, b: string)
    requires ',' !in a
    ensures SplitAtCommas(a + "," + b) == [a] + SplitAtCommas(b)
  {
    var s := a + "," + b;
    if a == [] {
      assert s[1..] == b;
    } else {
      assert s[1..] == a[1..] + "," + b;
      SplitAtCommasField(a[1..], b);
      assert a == [a[0]] + a[1..];
    }
  }

  /** Splitting joined comma-free fields gives the fields back, empty ones included. */
  lemma {:induction false} SplitAtCommasJoin(fields: seq<string>)
    requires |fields| >= 1 && forall i :: 0 <= i < |fields| ==> ',' !in fields[i]
    ensures SplitAtCommas(JoinWithCommas(fields)) == fields
  {
    if |fields| == 1 {
      SplitAtCommasNoComma(fields[0]);
    } else {
      SplitAtCommasJoin(fields[1..]);
      SplitAtCommasField(fields[0], JoinWithCommas(fields[1..]));
    }
  }

  /** No field that `split(",")` produces holds a comma. */
  lemma {:induction false} SplitAtCommasFieldsCommaFree(s: string)
    ensures forall i :: 0 <= i < |SplitAtCommas(s)| ==> ',' !in SplitAtCommas(s)[i]
  {
    if s != [] {
      SplitAtCommasFieldsCommaFree(s[1..]);
    }
  }

  /** Dropping trailing empty fields keeps a prefix that ends in a non-empty field. */
  lemma {:induction false} DropTrailingEmptyPrefix(parts: seq<string>)
    ensures var r := DropTrailingEmpty(parts);
      |r| <= |parts| && r == parts[..|r|] && (r == [] || r[|r| - 1] != "")
      && forall i :: |r| <= i < |parts| ==> parts[i] == ""
  {
    if parts != [] && parts[|parts| - 1] == "" {
      DropTrailingEmptyPrefix(parts[..|parts| - 1]);
      assert parts[..|parts| - 1][..|DropTrailingEmpty(parts)|] == parts[..|DropTrailingEmpty(parts)|];
    }
  }

  lemma SplitFieldsCommaFree(s: string)
    ensures forall i :: 0 <= i < |Split(s)| ==> ',' !in Split(s)[i]
  {
    SplitAtCommasFieldsCommaFree(s);
    DropTrailingEmptyPrefix(SplitAtCommas(s));
  }

  /** A character the text does not hold is in none of its fields. */
  lemma {:induction false} SplitAtCommasFieldsAvoid(s: string, c: char)
    requires c !in s
    ensures forall i :: 0 <= i < |SplitAtCommas(s)| ==> c !in SplitAtCommas(s)[i]
  {
    if s != [] {
      assert c !in s[1..];
      SplitAtCommasFieldsAvoid(s[1..], c);
    }
  }

  /** No field that `split(",")` returns holds a character missing from the text. */
  lemma SplitFieldsAvoid(s: string, c: char)
    requires c !in s
    ensures forall i :: 0 <= i < |Split(s)| ==> c !in Split(s)[i]
  {
    SplitAtCommasFieldsAvoid(s, c);
    DropTrailingEmptyPrefix(SplitAtCommas(s));
  }

  /** Joining comma-free fields whose last one is not empty and splitting gives them back. */
  lemma SplitJoin(fields: seq<string>)
    requires |fields| >= 2 && forall i :: 0 <= i < |fields| ==> ',' !in fields[i]
    requires fields[|fields| - 1] != ""
    ensures Split(JoinWithCommas(fields)) == fields
  {
    var s := JoinWithCommas(fields);
    SplitAtCommasField(fields[0], JoinWithCommas(fields[1..]));
    assert s[|fields[0]|] == ',';
    SplitAtCommasJoin(fields);
    assert ',' in s;
    assert DropTrailingEmpty(fields) == fields;
  }

  // ---------------------------------------------------------------- ordering

  /** `a.compareTo(b) <= 0`: lexicographic order on character codes, a proper prefix first. */
  predicate StrLe(a: string, b: string) {
    a == [] || (b != [] && (a[0] < b[0] || (a[0] == b[0] && StrLe(a[1..], b[1..]))))
  }

  lemma {:induction false} StrLeReflexive(a: string)
    ensures StrLe(a, a)
  {
    if a != [] {
      StrLeReflexive(a[1..]);
    }
  }

  lemma {:induction false} StrLeTotal(a: string, b: string)
    ensures StrLe(a, b) || StrLe(b, a)
  {
    if a != [] && b != [] && a[0] == b[0] {
      StrLeTotal(a[1..], b[1..]);
    }
  }

  lemma {:induction false} StrLeAntisymmetric(a: string, b: string)
    requires StrLe(a, b) && StrLe(b, a)
    ensures a == b
  {
    if a != [] {
      StrLeAntisymmetric(a[1..], b[1..]);
      assert a == [a[0]] + a[1..] && b == [b[0]] + b[1..];
    }
  }

  lemma {:induction false} StrLeTransitive(a: string, b: string, c: string)
    requires StrLe(a, b) && StrLe(b, c)
    ensures StrLe(a, c)
  {
    if a != [] && a[0] == b[0] && b[0] == c[0] {
      StrLeTransitive(a[1..], b[1..], c[1..]);
    }
  }
}
