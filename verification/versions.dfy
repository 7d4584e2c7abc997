// Dotted software versions (src/software_version.cpp): a forgiving parser that
// keeps the first eight digit runs, and a zero-padded component-wise order.
module Versions {
  import opened Basics

  const MaxComponents: nat := 8
  const MaxLength: nat := 128

  /** A parsed version; the invalid version has an empty text and no component. */
  datatype Version = Version(raw: string, components: seq<nat>) {
    predicate Valid() { raw != "" }
  }

  const Invalid := Version("", [])

  predicate IsDigit(c: char) { '0' <= c <= '9' }

  // ---- what a version text means ------------------------------------------

  /** The maximal runs of digits of a text, from left to right. */
  function DigitRuns(text: string): seq<string> {
    if text == "" then []
    else if !IsDigit(text[0]) then DigitRuns(text[1..])
    else
      var n := RunLength(text);
      [text[..n]] + DigitRuns(text[n..])
  }

  /** How many digits the text starts with. */
  function RunLength(text: string): (n: nat)
    ensures n <= |text| && (text != "" && IsDigit(text[0]) ==> n > 0)
  {
    if text == "" || !IsDigit(text[0]) then 0 else 1 + RunLength(text[1..])
  }

  /** The unbounded decimal value of a run of digits. */
  function Decimal(run: string): nat {
    if run == "" then 0
    else 10 * Decimal(run[..|run| - 1]) + DigitValue(run[|run| - 1])
  }

  function DigitValue(c: char): nat {
    if IsDigit(c) then c as int - '0' as int else 0
  }

  function Saturated(run: string): nat {
    if Decimal(run) <= MaxU64 then Decimal(run) else MaxU64
  }

  function Take<T>(s: seq<T>, n: nat): seq<T> {
    if |s| <= n then s else s[..n]
  }

  function Components(text: string): seq<nat> {
    var runs := Take(DigitRuns(text), MaxComponents);
    seq(|runs|, i requires 0 <= i < |runs| => Saturated(runs[i]))
  }

  function Parse(text: string): Version {
    if 0 < |text| <= MaxLength && DigitRuns(text) != [] then Version(text, Components(text)) else Invalid
  }

  predicate IsParseable(text: string) {
    0 < |text| <= MaxLength && exists i :: 0 <= i < |text| && IsDigit(text[i])
  }

  // ---- the parser -----------------------------------------------------------

  lemma {:induction false} DecimalGrows(run: string, n: nat)
    requires n <= |run|
    ensures Decimal(run[..n]) <= Decimal(run)
  {
    if n < |run| {
      assert run[..|run| - 1][..n] == run[..n];
      DecimalGrows(run[..|run| - 1], n);
    } else {
      assert run[..n] == run;
    }
  }

  lemma {:induction false} RunPrefix(text: string, n: nat)
    requires n <= |text| && forall i :: 0 <= i < n ==> IsDigit(text[i])
    ensures n <= RunLength(text)
    ensures n == |text| || !IsDigit(text[n]) ==> n == RunLength(text)
  {
    if n > 0 {
      RunPrefix(text[1..], n - 1);
    }
  }

  lemma OverflowTest(value: nat, digit: nat)
    requires digit <= 9
    ensures value > (MaxU64 - digit) / 10 <==> 10 * value + digit > MaxU64
  {}

  lemma DecimalStep(text: string, start: nat, index: nat)
    requires start <= index < |text|
    ensures Decimal(text[start..index + 1]) == 10 * Decimal(text[start..index]) + DigitValue(text[index])
  {
    assert text[start..index + 1][..index - start] == text[start..index];
  }

  /** The digit loop of the parser: reads the run that starts at `start`. */
  method ParseComponent(text: string, start: nat) returns (value: nat, index: nat)
    requires start < |text| && IsDigit(text[start])
    ensures index <= |text| && index == start + RunLength(text[start..])
    ensures value == Saturated(text[start..index])
  {
    value, index := 0, start;
    var overflow := false;
    while index < |text| && IsDigit(text[index])
      invariant start <= index <= |text|
      invariant forall i :: start <= i < index ==> IsDigit(text[i])
      invariant value <= MaxU64 && value == Decimal(text[start..index])
      decreases |text| - index
    {
      var digit := DigitValue(text[index]);
      DecimalStep(text, start, index);
      OverflowTest(value, digit);
      if value > (MaxU64 - digit) / 10 {
        overflow := true;
        break;
      }
      value := value * 10 + digit;
      index := index + 1;
    }
    if overflow {
      value := MaxU64;
      index := SkipDigits(text, start, index);
    }
    RunPrefix(text[start..], index - start);
  }

  /** The rest of a run whose value already exceeds 64 bits. */
  method SkipDigits(text: string, start: nat, from: nat) returns (index: nat)
    requires start <= from < |text| && Decimal(text[start..from + 1]) > MaxU64
    requires forall i :: start <= i <= from ==> IsDigit(text[i])
    ensures from < index <= |text| && (index == |text| || !IsDigit(text[index]))
    ensures forall i :: start <= i < index ==> IsDigit(text[i])
    ensures Decimal(text[start..index]) > MaxU64
  {
    index := from;
    while index < |text| && IsDigit(text[index])
      invariant from <= index <= |text|
      invariant forall i :: start <= i < index ==> IsDigit(text[i])
    {
      index := index + 1;
    }
    assert text[start..index][..from + 1 - start] == text[start..from + 1];
    DecimalGrows(text[start..index], from + 1 - start);
  }

  lemma DigitRunsStep(text: string, index: nat)
    requires index < |text|
    ensures !IsDigit(text[index]) ==> DigitRuns(text[index..]) == DigitRuns(text[index + 1..])
    ensures IsDigit(text[index]) ==>
              var n := RunLength(text[index..]);
              DigitRuns(text[index..]) == [text[index..index + n]] + DigitRuns(text[index + n..])
  {
    var t := text[index..];
    assert t[1..] == text[index + 1..];
    if IsDigit(text[index]) {
      var n := RunLength(t);
      assert t[n..] == text[index + n..];
      assert t[..n] == text[index..index + n];
    }
  }

  ghost predicate Parsed(components: seq<nat>, runs: seq<string>) {
    |components| == |runs| && forall i :: 0 <= i < |runs| ==> components[i] == Saturated(runs[i])
  }

  method ParseVersion(text: string) returns (version: Version)
    ensures version == Parse(text)
  {
    if |text| == 0 || |text| > MaxLength { return Invalid; }
    var components: seq<nat> := [];
    var index := 0;
    ghost var runs: seq<string> := [];
    assert text[0..] == text;
    while index < |text| && |components| < MaxComponents
      invariant index <= |text| && |components| <= MaxComponents
      invariant Parsed(components, runs)
      invariant DigitRuns(text) == runs + DigitRuns(text[index..])
      decreases |text| - index
    {
      DigitRunsStep(text, index);
      if !IsDigit(text[index]) {
        index := index + 1;
      } else {
        var value, next := ParseComponent(text, index);
        runs := runs + [text[index..next]];
        components := components + [value];
        index := next;
      }
    }
    assert runs == Take(DigitRuns(text), MaxComponents);
    if |components| == 0 { return Invalid; }
    assert components == Components(text);
    version := Version(text, components);
  }

  lemma {:induction false} RunsExist(text: string)
    ensures DigitRuns(text) != [] <==> exists i :: 0 <= i < |text| && IsDigit(text[i])
  {
    if text != "" {
      if !IsDigit(text[0]) {
        RunsExist(text[1..]);
        if i :| 0 <= i < |text| && IsDigit(text[i]) {
          assert IsDigit(text[1..][i - 1]);
        }
        if DigitRuns(text) != [] {
          var i :| 0 <= i < |text[1..]| && IsDigit(text[1..][i]);
          assert IsDigit(text[i + 1]);
        }
      } else {
        assert IsDigit(text[0]);
      }
    }
  }

  /** A text parses to a valid version exactly when it is parseable. */
  lemma ParseableIffValid(text: string)
    ensures Parse(text).Valid() <==> IsParseable(text)
  {
    RunsExist(text);
  }

  // ---- the order --------------------------------------------------------------

  function At(v: Version, i: nat): nat {
    if i < |v.components| then v.components[i] else 0
  }

  /** Three-way comparison of the zero-padded components from position i on. */
  function CompareFrom(a: Version, b: Version, i: nat): int
    decreases |a.components| + |b.components| - i
  {
    if i >= |a.components| && i >= |b.components| then 0
    else if At(a, i) < At(b, i) then -1
    else if At(a, i) > At(b, i) then 1
    else CompareFrom(a, b, i + 1)
  }

  function Compare(a: Version, b: Version): int {
    if !a.Valid() && !b.Valid() then 0
    else if !a.Valid() then -1
    else if !b.Valid() then 1
    else CompareFrom(a, b, 0)
  }

  method CompareVersions(a: Version, b: Version) returns (r: int)
    ensures r == Compare(a, b)
  {
    if !a.Valid() && !b.Valid() { return 0; }
    if !a.Valid() { return -1; }
    if !b.Valid() { return 1; }
    var count := if |a.components| > |b.components| then |a.components| else |b.components|;
    for i := 0 to count
      invariant CompareFrom(a, b, 0) == CompareFrom(a, b, i)
    {
      var left := if i < |a.components| then a.components[i] else 0;
      var right := if i < |b.components| then b.components[i] else 0;
      if left < right { return -1; }
      if left > right { return 1; }
    }
    return 0;
  }

  /** The first position where two versions differ decides; none means equal. */
  lemma {:induction false} FirstDifference(a: Version, b: Version, i: nat) returns (d: nat)
    ensures i <= d && forall k :: i <= k < d ==> At(a, k) == At(b, k)
    ensures CompareFrom(a, b, i) < 0 ==> At(a, d) < At(b, d)
    ensures CompareFrom(a, b, i) > 0 ==> At(a, d) > At(b, d)
    ensures CompareFrom(a, b, i) == 0 ==> forall k :: i <= k ==> At(a, k) == At(b, k)
    ensures -1 <= CompareFrom(a, b, i) <= 1
    decreases |a.components| + |b.components| - i
  {
    d := i;
    if i < |a.components| || i < |b.components| {
      if At(a, i) == At(b, i) {
        d := FirstDifference(a, b, i + 1);
      }
    }
  }

  lemma {:induction false} DecidedAt(a: Version, b: Version, i: nat, d: nat)
    requires i <= d && forall k :: i <= k < d ==> At(a, k) == At(b, k)
    ensures At(a, d) < At(b, d) ==> CompareFrom(a, b, i) == -1
    ensures At(a, d) > At(b, d) ==> CompareFrom(a, b, i) == 1
    decreases d - i
  {
    if i < d { DecidedAt(a, b, i + 1, d); }
  }

  lemma {:induction false} SameComponents(a: Version, b: Version, i: nat)
    requires forall k: nat :: i <= k ==> At(a, k) == At(b, k)
    ensures CompareFrom(a, b, i) == 0
    decreases |a.components| + |b.components| - i
  {
    if i < |a.components| || i < |b.components| { SameComponents(a, b, i + 1); }
  }

  /** Comparison is antisymmetric in its sign, so the order is total. */
  lemma CompareSwaps(a: Version, b: Version)
    ensures Compare(a, b) == -Compare(b, a)
    ensures -1 <= Compare(a, b) <= 1
  {
    if a.Valid() && b.Valid() {
      var d := FirstDifference(a, b, 0);
      DecidedAt(b, a, 0, d);
      if Compare(a, b) == 0 { SameComponents(b, a, 0); }
    }
  }

  lemma CompareTransitive(a: Version, b: Version, c: Version)
    requires Compare(a, b) <= 0 && Compare(b, c) <= 0
    ensures Compare(a, c) <= 0
    ensures Compare(a, c) == 0 ==> Compare(a, b) == 0 && Compare(b, c) == 0
  {
    if a.Valid() && b.Valid() && c.Valid() {
      var d := FirstDifference(a, b, 0);
      var e := FirstDifference(b, c, 0);
      if Compare(a, b) == 0 {
        if Compare(b, c) == 0 { SameComponents(a, c, 0); } else { DecidedAt(a, c, 0, e); }
      } else if Compare(b, c) == 0 || d <= e {
        DecidedAt(a, c, 0, d);
      } else {
        DecidedAt(a, c, 0, e);
      }
    }
  }

  /** Trailing zero components do not matter, and nothing else is equated. */
  lemma EqualIffPaddedEqual(a: Version, b: Version)
    requires a.Valid() && b.Valid()
    ensures Compare(a, b) == 0 <==> forall k: nat :: At(a, k) == At(b, k)
  {
    var d := FirstDifference(a, b, 0);
    if forall k: nat :: At(a, k) == At(b, k) { SameComponents(a, b, 0); }
  }

  /** Which of two valid versions is the smaller: the one with the smaller component where they first differ. */
  lemma LessIff(a: Version, b: Version)
    requires a.Valid() && b.Valid()
    ensures Compare(a, b) < 0 <==> exists d: nat :: (forall k: nat :: k < d ==> At(a, k) == At(b, k)) && At(a, d) < At(b, d)
    ensures Compare(a, b) > 0 <==> exists d: nat :: (forall k: nat :: k < d ==> At(a, k) == At(b, k)) && At(a, d) > At(b, d)
  {
    var first := FirstDifference(a, b, 0);
    if d: nat :| (forall k: nat :: k < d ==> At(a, k) == At(b, k)) && At(a, d) < At(b, d) { DecidedAt(a, b, 0, d); }
    if d: nat :| (forall k: nat :: k < d ==> At(a, k) == At(b, k)) && At(a, d) > At(b, d) { DecidedAt(a, b, 0, d); }
  }

  /** Versions with equally many components are ordered as their lists of components are. */
  lemma SameLengthLessIff(a: Version, b: Version)
    requires a.Valid() && b.Valid() && |a.components| == |b.components|
    ensures Compare(a, b) < 0 <==>
      exists d :: 0 <= d < |a.components| && a.components[..d] == b.components[..d] && a.components[d] < b.components[d]
    ensures Compare(a, b) == 0 <==> a.components == b.components
  {
    LessIff(a, b);
    EqualIffPaddedEqual(a, b);
    if Compare(a, b) < 0 {
      var d: nat :| (forall k: nat :: k < d ==> At(a, k) == At(b, k)) && At(a, d) < At(b, d);
      SamePrefix(a, b, d);
      assert d < |a.components| && a.components[..d] == b.components[..d] && a.components[d] < b.components[d];
    }
    if d :| 0 <= d < |a.components| && a.components[..d] == b.components[..d] && a.components[d] < b.components[d] {
      forall k: nat | k < d ensures At(a, k) == At(b, k) { assert a.components[..d][k] == b.components[..d][k]; }
      assert At(a, d) < At(b, d);
    }
    if Compare(a, b) == 0 { SamePrefix(a, b, |a.components|); }
  }

  lemma SamePrefix(a: Version, b: Version, n: nat)
    requires |a.components| == |b.components| && forall k: nat :: k < n ==> At(a, k) == At(b, k)
    ensures n <= |a.components| ==> a.components[..n] == b.components[..n]
    ensures n == |a.components| ==> a.components == b.components
  {
    forall k: nat | k < n && k < |a.components| ensures a.components[k] == b.components[k] { assert At(a, k) == At(b, k); }
  }

  /** Components missing from the shorter version count as zero. */
  lemma ExtendedComparesIff(a: Version, b: Version)
    requires a.Valid() && b.Valid() && a.components <= b.components
    ensures Compare(a, b) == 0 <==> forall k :: |a.components| <= k < |b.components| ==> b.components[k] == 0
    ensures Compare(a, b) < 0 <==> exists k :: |a.components| <= k < |b.components| && b.components[k] > 0
  {
    EqualIffPaddedEqual(a, b);
    LessIff(a, b);
    forall k: nat | k < |a.components| ensures At(a, k) == At(b, k) {}
    if Compare(a, b) == 0 {
      forall k: nat | |a.components| <= k < |b.components| ensures b.components[k] == 0 { assert At(a, k) == At(b, k); }
    }
  }

  /** An invalid version is below every valid one, and invalid versions compare equal. */
  lemma InvalidIsLowest(a: Version, b: Version)
    requires !a.Valid()
    ensures if b.Valid() then Compare(a, b) < 0 < Compare(b, a) else Compare(a, b) == 0
  {}

  // ---- ranges -------------------------------------------------------------------

  /** Inclusive-exclusive interval; an invalid bound means unbounded. */
  datatype Range = Range(minimum: Version, maximum: Version, includeMaximum: bool) {
    predicate Valid() {
      minimum.Valid() && maximum.Valid() ==>
        Compare(minimum, maximum) < 0 || (Compare(minimum, maximum) == 0 && includeMaximum)
    }

    predicate Contains(v: Version) {
      && v.Valid()
      && (minimum.Valid() ==> Compare(v, minimum) >= 0)
      && (maximum.Valid() ==> if includeMaximum then Compare(v, maximum) <= 0 else Compare(v, maximum) < 0)
    }
  }

  /** The first difference of `a` and `b`, where `a` has the smaller component. */
  ghost predicate BelowAt(a: Version, b: Version, d: nat) {
    (forall k: nat :: k < d ==> At(a, k) == At(b, k)) && At(a, d) < At(b, d)
  }

  /**
   * A range contains the valid versions that are nowhere below its minimum and, where it is bounded above, are below its
   * maximum or, when that is included, nowhere above it.
   */
  lemma ContainsIff(range: Range, v: Version)
    ensures range.Contains(v) <==>
      && v.raw != ""
      && (range.minimum.raw != "" ==> forall d: nat :: !BelowAt(v, range.minimum, d))
      && (range.maximum.raw != "" && range.includeMaximum ==> forall d: nat :: !BelowAt(range.maximum, v, d))
      && (range.maximum.raw != "" && !range.includeMaximum ==> exists d: nat :: BelowAt(v, range.maximum, d))
  {
    var lo, hi := range.minimum, range.maximum;
    if v.Valid() && lo.Valid() { AtLeastIff(v, lo); }
    if v.Valid() && hi.Valid() {
      AtLeastIff(hi, v);
      AtLeastIff(v, hi);
      CompareSwaps(v, hi);
    }
  }

  /** A version is at least another exactly when it is nowhere below it. */
  lemma AtLeastIff(a: Version, b: Version)
    requires a.Valid() && b.Valid()
    ensures Compare(a, b) >= 0 <==> forall d: nat :: !BelowAt(a, b, d)
  {
    LessIff(a, b);
    if Compare(a, b) < 0 {
      var d: nat :| (forall k: nat :: k < d ==> At(a, k) == At(b, k)) && At(a, d) < At(b, d);
      assert BelowAt(a, b, d);
    }
    if d: nat :| BelowAt(a, b, d) {}
  }

  /** A range with two bounds is valid when its minimum is below its maximum, or equal to an included one. */
  lemma RangeValidIff(range: Range)
    requires range.minimum.raw != "" && range.maximum.raw != ""
    ensures range.Valid() <==>
      || (exists d: nat :: BelowAt(range.minimum, range.maximum, d))
      || (range.includeMaximum && forall k: nat :: At(range.minimum, k) == At(range.maximum, k))
  {
    var lo, hi := range.minimum, range.maximum;
    AtLeastIff(lo, hi);
    EqualIffPaddedEqual(lo, hi);
  }
}
