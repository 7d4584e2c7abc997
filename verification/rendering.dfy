// Equality and rendering of typed capability values (src/value.cpp:208-348):
// which values that are equal render alike. Versions are equal when their
// padded numbers are, and render as they were spelled.
module Rendering {
  import opened Basics
  import opened Wire
  import V = Versions
  import C = Conditions
  import opened Codec
  import opened Values

  // ---- the rendering ----------------------------------------------------------------------

  function Digit(n: nat): char
    requires n < 10
  {
    '0' + n as char
  }

  function Number(n: nat): string {
    if n < 10 then [Digit(n)] else Number(n / 10) + [Digit(n % 10)]
  }

  function Signed(i: int): string { if i < 0 then "-" + Number(-i) else Number(i) }

  const RateNames: seq<string> := ["Hz", "kHz", "MHz", "GHz", "ops/s"]
  const BandwidthNames: seq<string> := ["B/s", "kB/s", "MB/s", "GB/s", "TB/s", "bit/s", "kbit/s", "Mbit/s", "Gbit/s"]
  const LatencyNames: seq<string> := ["unknown", "ultra-low", "low", "medium", "high", "very-high"]
  const RelationNames: seq<string> := ["depends-on", "requires", "alternative-to", "supersedes", "exclusive"]

  /** The name of an enumerator; one out of range is named like the first. */
  function NameAt(names: seq<string>, i: nat): string
    requires names != []
  {
    if i < |names| then names[i] else names[0]
  }

  function Joined(ts: seq<string>): string {
    if ts == [] then "" else if |ts| == 1 then ts[0] else Joined(ts[..|ts| - 1]) + "," + ts[|ts| - 1]
  }

  function RenderRange(r: V.Range): string {
    if r.minimum.Valid() && r.maximum.Valid() then
      "[" + (r.minimum.raw + ("," + (r.maximum.raw + (if r.includeMaximum then "]" else ")"))))
    else if r.minimum.Valid() then ">=" + r.minimum.raw
    else if r.maximum.Valid() then (if r.includeMaximum then "<=" else "<") + r.maximum.raw
    else "*"
  }

  function RenderFlat(v: Value): string
    requires IsFlat(v)
  {
    match v
    case NoValue => "none"
    case Boolean(flag) => if flag then "true" else "false"
    case Count(n, unit) => if unit == "" then Number(n) else Number(n) + " " + unit
    case Bytes(n) => Number(n) + " B"
    case Rate(n, unit) => Number(n) + " " + NameAt(RateNames, unit)
    case Bandwidth(n, unit) => Number(n) + " " + NameAt(BandwidthNames, unit)
    case Latency(rank) => NameAt(LatencyNames, rank)
    case Enumeration(domain, token) => domain + ":" + token
    case FeatureSet(features) => "{" + Joined(features) + "}"
    case VersionRange(range) => RenderRange(range)
    case ArchitectureSet(ids) => "{" + Joined(ids) + "}"
    case NumericRange(low, high, step) => "[" + Signed(low) + "," + Signed(high) + "] step " + Signed(step)
    case Relationship(relation, target) => NameAt(RelationNames, relation) + ":" + target
  }

  function Render(v: Value): string
    decreases v, 1
  {
    match v
    case Record(fields) => "{" + (RenderFields(fields) + "}")
    case Predicate(condition) => "if " + C.Describe(condition)
    case _ => RenderFlat(v)
  }

  function RenderFields(fields: seq<Field>): string
    decreases fields, 0
  {
    if fields == [] then ""
    else
      var front, last := RenderFields(fields[..|fields| - 1]), RenderField(fields[|fields| - 1]);
      if |fields| == 1 then last else front + ("," + last)
  }

  function RenderField(f: Field): string
    decreases f, 0
  {
    f.name + ("=" + (if f.Field? then Render(f.value) else "none"))
  }

  method JoinTokens(ts: seq<string>) returns (s: string)
    ensures s == "{" + Joined(ts) + "}"
  {
    s := "{";
    for i := 0 to |ts|
      invariant s == "{" + Joined(ts[..i])
    {
      if i != 0 { s := s + ","; }
      s := s + ts[i];
      assert ts[..i + 1][..i] == ts[..i];
    }
    assert ts[..|ts|] == ts;
    s := s + "}";
  }

  method DescribeField(f: Field) returns (s: string)
    ensures s == RenderField(f)
    decreases f, 0
  {
    hide Render;
    var rendered := "none";
    if f.Field? { rendered := DescribeValue(f.value); }
    s := f.name + ("=" + rendered);
  }

  method DescribeRecord(fields: seq<Field>) returns (s: string)
    ensures s == "{" + (RenderFields(fields) + "}")
    decreases fields, 0
  {
    hide RenderField;
    s := "";
    for i := 0 to |fields|
      invariant s == RenderFields(fields[..i])
    {
      assert fields[..i + 1][..i] == fields[..i];
      var field := DescribeField(fields[i]);
      s := if i != 0 then s + ("," + field) else field;
    }
    assert fields[..|fields|] == fields;
    s := "{" + (s + "}");
  }

  method DescribeValue(v: Value) returns (s: string)
    ensures s == Render(v)
    decreases v, 1
  {
    hide Joined, RenderRange, Signed, Number, NameAt, RenderFields, C.Describe;
    match v {
      case FeatureSet(features) => s := JoinTokens(features);
      case ArchitectureSet(ids) => s := JoinTokens(ids);
      case Record(fields) => s := DescribeRecord(fields);
      case Predicate(condition) => s := "if " + C.Describe(condition);
      case _ => s := RenderFlat(v);
    }
  }

  // ---- equality -----------------------------------------------------------------------------

  predicate SameRange(a: V.Range, b: V.Range) {
    V.Compare(a.minimum, b.minimum) == 0 && V.Compare(a.maximum, b.maximum) == 0 && a.includeMaximum == b.includeMaximum
  }

  predicate Same(a: Value, b: Value)
    decreases a, 1
  {
    match a
    case VersionRange(range) => b.VersionRange? && SameRange(range, b.range)
    case Record(fields) => b.Record? && SameFields(fields, b.fields)
    case Predicate(condition) => b.Predicate? && C.Describe(condition) == C.Describe(b.condition)
    case _ => a == b
  }

  predicate SameFields(a: seq<Field>, b: seq<Field>)
    decreases a, 0
  {
    && |a| == |b|
    && forall i :: 0 <= i < |a| ==>
         && a[i].name == b[i].name && (a[i].Field? <==> b[i].Field?)
         && (a[i].Field? ==> Same(a[i].value, b[i].value))
  }

  method Equal(a: Value, b: Value) returns (same: bool)
    ensures same <==> Same(a, b)
    decreases a
  {
    hide C.Describe, V.Compare;
    if ValueCode(a) != ValueCode(b) { return false; }
    match a {
      case VersionRange(range) =>
        var least := V.CompareVersions(range.minimum, b.range.minimum);
        var most := V.CompareVersions(range.maximum, b.range.maximum);
        return least == 0 && most == 0 && range.includeMaximum == b.range.includeMaximum;
      case Record(fields) =>
        if |fields| != |b.fields| { return false; }
        for i := 0 to |fields|
          invariant SameFields(fields[..i], b.fields[..i])
        {
          var left, right := fields[i], b.fields[i];
          if left.name != right.name { return false; }
          if left.Missing? != right.Missing? { return false; }
          if left.Field? {
            var alike := Equal(left.value, right.value);
            if !alike { return false; }
          }
        }
        assert fields[..|fields|] == fields && b.fields[..|fields|] == b.fields;
        return true;
      case Predicate(condition) => return C.Describe(condition) == C.Describe(b.condition);
      case _ => return a == b;
    }
  }

  lemma {:induction false} SameReflexive(v: Value)
    ensures Same(v, v)
    decreases v
  {
    match v {
      case VersionRange(range) =>
        V.CompareSwaps(range.minimum, range.minimum);
        V.CompareSwaps(range.maximum, range.maximum);
      case Record(fields) =>
        forall i | 0 <= i < |fields| && fields[i].Field? ensures Same(fields[i].value, fields[i].value) { SameReflexive(fields[i].value); }
      case _ =>
    }
  }

  lemma {:induction false} SameSymmetric(a: Value, b: Value)
    requires Same(a, b)
    ensures Same(b, a)
    decreases a
  {
    hide V.Compare, C.Describe;
    match a {
      case VersionRange(range) =>
        V.CompareSwaps(range.minimum, b.range.minimum);
        V.CompareSwaps(range.maximum, b.range.maximum);
      case Record(fields) =>
        forall i | 0 <= i < |fields| && fields[i].Field? ensures Same(b.fields[i].value, fields[i].value) {
          SameSymmetric(fields[i].value, b.fields[i].value);
        }
      case _ =>
    }
  }

  lemma SameVersionTransitive(a: V.Version, b: V.Version, c: V.Version)
    requires V.Compare(a, b) == 0 && V.Compare(b, c) == 0
    ensures V.Compare(a, c) == 0
  {
    hide V.Compare;
    V.CompareSwaps(a, b);
    V.CompareSwaps(b, c);
    V.CompareSwaps(a, c);
    V.CompareTransitive(a, b, c);
    V.CompareTransitive(c, b, a);
  }

  /** Equality of values is an equivalence. */
  lemma {:induction false} SameTransitive(a: Value, b: Value, c: Value)
    requires Same(a, b) && Same(b, c)
    ensures Same(a, c)
    decreases a
  {
    hide V.Compare, C.Describe;
    match a {
      case VersionRange(range) =>
        SameVersionTransitive(range.minimum, b.range.minimum, c.range.minimum);
        SameVersionTransitive(range.maximum, b.range.maximum, c.range.maximum);
      case Record(fields) =>
        forall i | 0 <= i < |fields| && fields[i].Field? ensures Same(fields[i].value, c.fields[i].value) {
          SameTransitive(fields[i].value, b.fields[i].value, c.fields[i].value);
        }
      case _ =>
    }
  }

  // ---- another spelling of a version ------------------------------------------------------------

  lemma SameRuns(v: V.Version, text: string)
    requires v.Valid() && v == V.Parse(v.raw) && 0 < |text| <= V.MaxLength && V.DigitRuns(text) == V.DigitRuns(v.raw)
    ensures V.Parse(text).Valid() && V.Compare(v, V.Parse(text)) == 0
  {
    hide V.DigitRuns, V.Compare;
    V.EqualIffPaddedEqual(v, V.Parse(text));
  }

  lemma {:induction false} AllDigits(text: string)
    requires text != "" && forall i :: 0 <= i < |text| ==> V.IsDigit(text[i])
    ensures V.DigitRuns(text) == [text]
  {
    V.RunPrefix(text, |text|);
    assert text[..|text|] == text && text[|text|..] == "";
  }

  lemma {:induction false} LeadingZero(run: string)
    requires run != "" && run[0] == '0'
    ensures V.Decimal(run[1..]) == V.Decimal(run)
  {
    if |run| > 1 {
      var front := run[..|run| - 1];
      LeadingZero(front);
      assert run[1..][..|run| - 2] == front[1..];
    }
  }

  function Power(n: nat): nat { if n == 0 then 1 else 10 * Power(n - 1) }

  lemma {:induction false} DecimalAtLeast(run: string)
    requires run != "" && V.IsDigit(run[0]) && run[0] != '0'
    ensures V.Decimal(run) >= Power(|run| - 1)
  {
    if |run| > 1 { DecimalAtLeast(run[..|run| - 1]); }
  }

  lemma {:induction false} PowerGrows(m: nat, n: nat)
    requires m <= n
    ensures Power(m) <= Power(n)
  {
    if m < n { PowerGrows(m, n - 1); }
  }

  lemma LongRunsSaturate(run: string)
    requires |run| >= 21 && V.IsDigit(run[0]) && run[0] != '0'
    ensures V.Saturated(run) == MaxU64
  {
    DecimalAtLeast(run);
    PowerGrows(20, |run| - 1);
    assert Power(5) == 100000;
    assert Power(10) == 10000000000;
    assert Power(15) == 1000000000000000;
    assert Power(20) == 100000000000000000000;
  }

  /** Every version has another spelling that is equal to it. */
  lemma AnotherSpelling(v: V.Version) returns (w: V.Version)
    requires v.Valid() && IsParsed(v)
    ensures w.Valid() && IsParsed(w) && V.Compare(v, w) == 0 && w.raw != v.raw
  {
    hide V.Compare;
    var text := v.raw;
    if |text| < V.MaxLength {
      assert ("v" + text)[1..] == text;
      SameRuns(v, "v" + text);
      w := V.Parse("v" + text);
    } else if !V.IsDigit(text[0]) {
      SameRuns(v, text[1..]);
      w := V.Parse(text[1..]);
    } else if V.RunLength(text) < |text| {
      w := OtherSeparator(v);
    } else {
      w := OtherRun(v);
    }
  }

  lemma {:induction false} RunsAreDigits(text: string)
    ensures forall i :: 0 <= i < V.RunLength(text) ==> V.IsDigit(text[i])
    ensures V.RunLength(text) < |text| ==> !V.IsDigit(text[V.RunLength(text)])
  {
    if text != "" && V.IsDigit(text[0]) {
      RunsAreDigits(text[1..]);
      assert forall i :: 1 <= i < V.RunLength(text) ==> text[i] == text[1..][i - 1];
    }
  }

  lemma OtherSeparator(v: V.Version) returns (w: V.Version)
    requires v.Valid() && IsParsed(v) && V.IsDigit(v.raw[0]) && V.RunLength(v.raw) < |v.raw|
    ensures w.Valid() && IsParsed(w) && V.Compare(v, w) == 0 && w.raw != v.raw
  {
    hide V.Compare;
    var text, n := v.raw, V.RunLength(v.raw);
    RunsAreDigits(text);
    var other := text[n := if text[n] == 'x' then 'y' else 'x'];
    assert other[n] != text[n];
    V.RunPrefix(other, n);
    assert other[..n] == text[..n] && other[n..][1..] == text[n..][1..];
    SameRuns(v, other);
    w := V.Parse(other);
  }

  lemma OtherRun(v: V.Version) returns (w: V.Version)
    requires v.Valid() && IsParsed(v) && |v.raw| == V.MaxLength && V.RunLength(v.raw) == |v.raw|
    ensures w.Valid() && IsParsed(w) && V.Compare(v, w) == 0 && w.raw != v.raw
  {
    hide V.Compare, V.DigitRuns, V.Decimal;
    var text := v.raw;
    RunsAreDigits(text);
    AllDigits(text);
    var other := if text[0] == '0' then text[1..] else text[..|text| - 1];
    AllDigits(other);
    if text[0] == '0' {
      LeadingZero(text);
    } else {
      LongRunsSaturate(text);
      LongRunsSaturate(other);
    }
    w := V.Parse(other);
    V.EqualIffPaddedEqual(v, w);
  }

  // ---- which equal values render alike --------------------------------------------------------------

  /** Somewhere in the value is a version range with a bound. */
  predicate HasVersion(v: Value)
    decreases v
  {
    match v
    case VersionRange(range) => range.minimum.Valid() || range.maximum.Valid()
    case Record(fields) => exists i :: 0 <= i < |fields| && fields[i].Field? && HasVersion(fields[i].value)
    case _ => false
  }

  lemma {:induction false} SameRendersAlike(a: Value, b: Value)
    requires Same(a, b) && !HasVersion(a)
    ensures Render(a) == Render(b)
    decreases a, 1
  {
    hide C.Describe;
    if a.Record? { SameFieldsRenderAlike(a.fields, b.fields); }
  }

  lemma {:induction false} SameFieldsRenderAlike(a: seq<Field>, b: seq<Field>)
    requires SameFields(a, b) && forall i :: 0 <= i < |a| && a[i].Field? ==> !HasVersion(a[i].value)
    ensures RenderFields(a) == RenderFields(b)
    decreases a, 0, |a|
  {
    hide Render, HasVersion;
    if a != [] {
      var n := |a| - 1;
      SameFieldsRenderAlike(a[..n], b[..n]);
      if a[n].Field? { SameRendersAlike(a[n].value, b[n].value); }
    }
  }

  /** Replacing one field by one that renders differently changes the rendering. */
  lemma {:induction false} OneFieldChanges(fields: seq<Field>, i: nat, v: Value)
    requires i < |fields| && fields[i].Field? && Render(v) != Render(fields[i].value)
    ensures RenderFields(fields[i := Field(fields[i].name, v)]) != RenderFields(fields)
    decreases |fields|
  {
    hide Render, RenderField;
    var n := |fields| - 1;
    var changed := fields[i := Field(fields[i].name, v)];
    if i < n {
      OneFieldChanges(fields[..n], i, v);
      assert changed[..n] == fields[..n][i := Field(fields[i].name, v)] && changed[n] == fields[n];
      SuffixCancels(RenderFields(changed[..n]), RenderFields(fields[..n]), "," + RenderField(fields[n]));
    } else {
      assert changed[..n] == fields[..n];
      FieldChanges(fields[n], v);
      PrefixCancels(",", RenderField(changed[n]), RenderField(fields[n]));
      PrefixCancels(RenderFields(fields[..n]), "," + RenderField(changed[n]), "," + RenderField(fields[n]));
    }
  }

  lemma FieldChanges(f: Field, v: Value)
    requires f.Field? && Render(v) != Render(f.value)
    ensures RenderField(Field(f.name, v)) != RenderField(f)
  {
    hide Render;
    PrefixCancels("=", Render(v), Render(f.value));
    PrefixCancels(f.name, "=" + Render(v), "=" + Render(f.value));
  }

  lemma SuffixCancels(a: string, b: string, suffix: string)
    requires a != b
    ensures a + suffix != b + suffix
  {
    if |a| == |b| { assert (a + suffix)[..|a|] == a && (b + suffix)[..|a|] == b; }
    else { assert |a + suffix| != |b + suffix|; }
  }

  lemma PrefixCancels(prefix: string, a: string, b: string)
    requires a != b
    ensures prefix + a != prefix + b
  {
    assert (prefix + a)[|prefix|..] == a && (prefix + b)[|prefix|..] == b;
  }

  lemma VariantRange(r: V.Range) returns (q: V.Range)
    requires IsParsed(r.minimum) && IsParsed(r.maximum) && (r.minimum.Valid() || r.maximum.Valid())
    ensures IsParsed(q.minimum) && IsParsed(q.maximum) && SameRange(r, q) && RenderRange(q) != RenderRange(r)
    ensures (q.minimum.Valid() <==> r.minimum.Valid()) && (q.maximum.Valid() <==> r.maximum.Valid())
  {
    hide V.Compare, V.Parse;
    V.CompareSwaps(r.minimum, r.minimum);
    V.CompareSwaps(r.maximum, r.maximum);
    if r.minimum.Valid() {
      var w := AnotherSpelling(r.minimum);
      q := r.(minimum := w);
      var tail := if r.maximum.Valid() then "," + (r.maximum.raw + (if r.includeMaximum then "]" else ")")) else "";
      var head := if r.maximum.Valid() then "[" else ">=";
      SuffixCancels(w.raw, r.minimum.raw, tail);
      PrefixCancels(head, w.raw + tail, r.minimum.raw + tail);
      assert w.raw + "" == w.raw && r.minimum.raw + "" == r.minimum.raw;
    } else {
      var w := AnotherSpelling(r.maximum);
      q := r.(maximum := w);
      PrefixCancels(if r.includeMaximum then "<=" else "<", w.raw, r.maximum.raw);
    }
  }

  /** A value with a version in it has an equal that renders differently. */
  lemma {:induction false} Variant(v: Value) returns (b: Value)
    requires Built(v) && HasVersion(v)
    ensures Built(b) && Same(v, b) && Render(b) != Render(v)
    decreases v
  {
    hide V.Parse, V.Compare, RenderRange;
    if v.VersionRange? {
      var q := VariantRange(v.range);
      b := VersionRange(q);
    } else {
      var i :| 0 <= i < |v.fields| && v.fields[i].Field? && HasVersion(v.fields[i].value);
      var inner := Variant(v.fields[i].value);
      b := VariantRecord(v, i, inner);
    }
  }

  lemma VariantRecord(v: Value, i: nat, inner: Value) returns (b: Value)
    requires v.Record? && Built(v) && i < |v.fields| && v.fields[i].Field?
    requires Built(inner) && Same(v.fields[i].value, inner) && Render(inner) != Render(v.fields[i].value)
    ensures Built(b) && Same(v, b) && Render(b) != Render(v)
  {
    hide Render, V.Parse;
    b := Record(v.fields[i := Field(v.fields[i].name, inner)]);
    forall j | 0 <= j < |v.fields| && v.fields[j].Field? ensures Same(v.fields[j].value, b.fields[j].value) {
      SameReflexive(v.fields[j].value);
    }
    OneFieldChanges(v.fields, i, inner);
    RecordRendersApart(v.fields, b.fields);
  }

  lemma RecordRendersApart(a: seq<Field>, b: seq<Field>)
    requires RenderFields(a) != RenderFields(b)
    ensures Render(Record(a)) != Render(Record(b))
  {
    SuffixCancels(RenderFields(a), RenderFields(b), "}");
    PrefixCancels("{", RenderFields(a) + "}", RenderFields(b) + "}");
  }

  /** All the values that are equal to a value render as it does, exactly when no version is in it. */
  lemma RendersAlikeIff(v: Value)
    requires Built(v)
    ensures (forall b: Value :: Built(b) && Same(v, b) ==> Render(b) == Render(v)) <==> !HasVersion(v)
  {
    hide Built, Same, Render, HasVersion;
    if HasVersion(v) {
      var b := Variant(v);
    } else {
      forall b: Value | Built(b) && Same(v, b) ensures Render(b) == Render(v) { SameRendersAlike(v, b); }
    }
  }

  function AtLeast(text: Text): Value { VersionRange(V.Range(V.Parse(text), V.Invalid, false)) }

  lemma FirstRun(digit: char, rest: string)
    requires V.IsDigit(digit)
    ensures V.DigitRuns([digit, '.'] + rest) == [[digit]] + V.DigitRuns(rest)
  {
    var text := [digit, '.'] + rest;
    V.RunPrefix(text, 1);
    assert text[..1] == [digit] && text[1..][1..] == rest;
  }

  /** At least 1.0 and at least 1.0.0 are equal, and render as they are spelled. */
  lemma OnePointOh()
    ensures Same(AtLeast("1.0"), AtLeast("1.0.0")) && Render(AtLeast("1.0")) != Render(AtLeast("1.0.0"))
  {
    hide V.DigitRuns;
    AllDigits("0");
    FirstRun('0', "0");
    FirstRun('1', "0");
    FirstRun('1', "0.0");
    assert "1.0" == ['1', '.'] + "0" && "1.0.0" == ['1', '.'] + "0.0" && "0.0" == ['0', '.'] + "0";
    OnlyZeros(V.Parse("1.0"), V.Parse("1.0.0"));
    PrefixCancels(">=", "1.0", "1.0.0");
  }

  lemma OnlyZeros(a: V.Version, b: V.Version)
    requires a.Valid() && b.Valid() && |a.components| == 2 && |b.components| == 3
    requires b.components[..2] == a.components && b.components[2] == 0
    ensures V.Compare(a, b) == 0
  {
    hide V.Compare;
    V.EqualIffPaddedEqual(a, b);
    forall k: nat ensures V.At(a, k) == V.At(b, k) {
      if k < 2 { assert b.components[..2][k] == b.components[k]; }
    }
  }

  // ---- what is equal, and how numbers are rendered ----------------------------------------------------

  /** Two versions are equal when both are none or they agree up to trailing zeros. */
  predicate SameNumbers(a: V.Version, b: V.Version) {
    (a.raw == "" && b.raw == "") || (a.raw != "" && b.raw != "" && forall k :: 0 <= k < |a.components| + |b.components| ==> V.At(a, k) == V.At(b, k))
  }

  lemma SameNumbersIff(a: V.Version, b: V.Version)
    ensures V.Compare(a, b) == 0 <==> SameNumbers(a, b)
  {
    if a.raw != "" && b.raw != "" {
      V.EqualIffPaddedEqual(a, b);
      forall k: nat | k >= |a.components| + |b.components| ensures V.At(a, k) == V.At(b, k) {}
    }
  }

  /** Ranges are equal when their bounds are and the upper one counts alike. */
  lemma SameRangeIff(a: V.Range, b: V.Range)
    ensures Same(VersionRange(a), VersionRange(b)) <==>
      SameNumbers(a.minimum, b.minimum) && SameNumbers(a.maximum, b.maximum) && a.includeMaximum == b.includeMaximum
  {
    hide V.Compare, SameNumbers;
    SameNumbersIff(a.minimum, b.minimum);
    SameNumbersIff(a.maximum, b.maximum);
  }

  /** A number is rendered in decimal, without leading zeros. */
  lemma {:induction false} NumberIsDecimal(n: nat)
    ensures Number(n) != "" && V.Decimal(Number(n)) == n && (n > 0 ==> Number(n)[0] != '0')
  {
    if n >= 10 {
      NumberIsDecimal(n / 10);
      assert Number(n)[..|Number(n)| - 1] == Number(n / 10);
      assert Number(n)[0] == Number(n / 10)[0];
    } else {
      assert Number(n)[..0] == "";
    }
  }
}
