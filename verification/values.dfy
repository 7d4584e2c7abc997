// Validation of typed capability values (src/value.cpp), and which validated
// values the decoder accepts: it counts leaves and predicate trees among the
// levels of nesting, the validator counts records only.
module Values {
  import opened Basics
  import opened Wire
  import V = Versions
  import C = Conditions
  import Q = Quirks
  import opened Codec

  // ---- what is valid ----------------------------------------------------------------

  predicate Before(a: Text, b: Text) { Q.CompareText(a, b) < 0 }

  predicate StrictlySorted(ts: seq<Text>) {
    forall i :: 1 <= i < |ts| ==> Before(ts[i - 1], ts[i])
  }

  /**
   * The rules of the forms that hold no other value and no condition. The source tells a numeric range whose width does not
   * fit 64 bits by the wrap-around of the difference.
   */
  predicate ValidFlat(v: Value, limits: C.Limits)
    requires IsFlat(v)
  {
    match v
    case Count(_, unit) => unit == "" || IsCanonicalToken(unit)
    case Enumeration(domain, token) => IsCanonicalToken(domain) && IsCanonicalToken(token)
    case FeatureSet(features) =>
      |features| <= limits.maxFeatureEntries && StrictlySorted(features)
      && forall i :: 0 <= i < |features| ==> IsCanonicalToken(features[i])
    case VersionRange(range) => range.Valid() && (range.minimum.Valid() || range.maximum.Valid())
    case ArchitectureSet(ids) =>
      |ids| <= limits.maxArchitectureEntries && StrictlySorted(ids) && forall i :: 0 <= i < |ids| ==> ids[i] != ""
    case NumericRange(low, high, step) => low <= high && step > 0 && high - low <= MaxI64
    case Relationship(_, target) => target != ""
    case _ => true
  }

  /** A value nested in a record is validated on its own, and its record once more for the depth it is at. */
  predicate ValidValue(v: Value, limits: C.Limits)
    decreases v, 1
  {
    match v
    case Record(fields) => ValidFields(fields, 1, limits)
    case Predicate(condition) => C.Accepted(condition, limits)
    case _ => ValidFlat(v, limits)
  }

  predicate ValidFields(fields: seq<Field>, depth: nat, limits: C.Limits)
    decreases fields, 0
  {
    && depth <= limits.maxRecordDepth && |fields| <= limits.maxRecordFields
    && (forall i :: 0 <= i < |fields| ==> IsCanonicalToken(fields[i].name))
    && (forall i :: 1 <= i < |fields| ==> Before(fields[i - 1].name, fields[i].name))
    && forall i :: 0 <= i < |fields| ==>
         && fields[i].Field? && ValidValue(fields[i].value, limits)
         && (fields[i].value.Record? ==> ValidFields(fields[i].value.fields, depth + 1, limits))
  }

  lemma NullIsRefused(limits: C.Limits)
    ensures !C.Accepted(C.Null, limits)
  {}

  // ---- the validator --------------------------------------------------------------------

  method ValidateTokens(ts: seq<Text>) returns (ok: bool)
    ensures ok <==> StrictlySorted(ts) && forall i :: 0 <= i < |ts| ==> IsCanonicalToken(ts[i])
  {
    hide IsCanonicalToken, Before;
    var previous := "";
    for i := 0 to |ts|
      invariant i > 0 ==> previous == ts[i - 1]
      invariant forall k :: 0 <= k < i ==> IsCanonicalToken(ts[k])
      invariant forall k :: 1 <= k < i ==> Before(ts[k - 1], ts[k])
    {
      if !IsCanonicalToken(ts[i]) { return false; }
      if i > 0 && !Before(previous, ts[i]) { return false; }
      previous := ts[i];
    }
    return true;
  }

  method ValidateIds(ids: seq<Text>) returns (ok: bool)
    ensures ok <==> StrictlySorted(ids) && forall i :: 0 <= i < |ids| ==> ids[i] != ""
  {
    hide Before;
    for i := 0 to |ids|
      invariant forall k :: 0 <= k < i ==> ids[k] != ""
      invariant forall k :: 1 <= k < i ==> Before(ids[k - 1], ids[k])
    {
      if ids[i] == "" { return false; }
      if i != 0 && !Before(ids[i - 1], ids[i]) { return false; }
    }
    return true;
  }

  method ValidateFlat(v: Value, limits: C.Limits) returns (ok: bool)
    requires IsFlat(v)
    ensures ok <==> ValidFlat(v, limits)
  {
    hide IsCanonicalToken, StrictlySorted;
    match v {
      case NumericRange(low, high, step) =>
        if low > high { return false; }
        if step <= 0 { return false; }
        return high - low <= MaxI64;
      case Count(_, unit) => return unit == "" || IsCanonicalToken(unit);
      case Enumeration(domain, token) => return IsCanonicalToken(domain) && IsCanonicalToken(token);
      case FeatureSet(features) =>
        if |features| > limits.maxFeatureEntries { return false; }
        ok := ValidateTokens(features);
      case VersionRange(range) =>
        if !range.Valid() { return false; }
        return range.minimum.Valid() || range.maximum.Valid();
      case ArchitectureSet(ids) =>
        if |ids| > limits.maxArchitectureEntries { return false; }
        ok := ValidateIds(ids);
      case Relationship(_, target) => return target != "";
      case _ => return true;
    }
  }

  method ValidateValue(v: Value, limits: C.Limits) returns (ok: bool)
    ensures ok <==> ValidValue(v, limits)
    decreases v, 1
  {
    hide ValidFlat, ValidFields, C.Accepted;
    match v {
      case Record(fields) => ok := ValidateRecord(fields, limits, 1);
      case Predicate(condition) =>
        NullIsRefused(limits);
        if condition.Null? { return false; }
        ok := C.ValidateCondition(condition, limits);
      case _ => ok := ValidateFlat(v, limits);
    }
  }

  method ValidateRecord(fields: seq<Field>, limits: C.Limits, depth: nat) returns (ok: bool)
    ensures ok <==> ValidFields(fields, depth, limits)
    decreases fields, 0
  {
    hide IsCanonicalToken, Before, ValidFlat, C.Accepted;
    if depth > limits.maxRecordDepth { return false; }
    if |fields| > limits.maxRecordFields { return false; }
    var previous := "";
    for i := 0 to |fields|
      invariant i > 0 ==> previous == fields[i - 1].name
      invariant forall k :: 0 <= k < i ==> IsCanonicalToken(fields[k].name)
      invariant forall k :: 1 <= k < i ==> Before(fields[k - 1].name, fields[k].name)
      invariant forall k :: 0 <= k < i ==>
        && fields[k].Field? && ValidValue(fields[k].value, limits)
        && (fields[k].value.Record? ==> ValidFields(fields[k].value.fields, depth + 1, limits))
    {
      var field := fields[i];
      if !IsCanonicalToken(field.name) { return false; }
      if i > 0 && !Before(previous, field.name) { return false; }
      previous := field.name;
      if field.Missing? { return false; }
      var valid := ValidateValue(field.value, limits);
      if !valid { return false; }
      if field.value.Record? {
        var nested := ValidateRecord(field.value.fields, limits, depth + 1);
        if !nested { return false; }
      }
      if field.value.Predicate? {
        NullIsRefused(limits);
        if field.value.condition.Null? { return false; }
        var nested := C.ValidateCondition(field.value.condition, limits);
        if !nested { return false; }
      }
    }
    return true;
  }

  // ---- one bound on records -----------------------------------------------------------------

  /** The rules that do not depend on how deep a record is. */
  predicate Sound(v: Value, limits: C.Limits)
    decreases v, 1
  {
    match v
    case Record(fields) => SoundFields(fields, limits)
    case Predicate(condition) => C.Accepted(condition, limits)
    case _ => ValidFlat(v, limits)
  }

  predicate SoundFields(fields: seq<Field>, limits: C.Limits)
    decreases fields, 0
  {
    && |fields| <= limits.maxRecordFields
    && (forall i :: 0 <= i < |fields| ==> IsCanonicalToken(fields[i].name))
    && (forall i :: 1 <= i < |fields| ==> Before(fields[i - 1].name, fields[i].name))
    && forall i :: 0 <= i < |fields| ==> fields[i].Field? && Sound(fields[i].value, limits)
  }

  function Max(a: nat, b: nat): nat { if a < b then b else a }

  /** How many records are nested in each other. */
  function Records(v: Value): nat
    decreases v, 1
  {
    if v.Record? then 1 + RecordsIn(v.fields) else 0
  }

  function RecordsIn(fields: seq<Field>): nat
    decreases fields, 0
  {
    if fields == [] then 0
    else
      var f := fields[|fields| - 1];
      Max(RecordsIn(fields[..|fields| - 1]), if f.Field? then Records(f.value) else 0)
  }

  lemma {:induction false} RecordsWithin(fields: seq<Field>, bound: nat)
    ensures RecordsIn(fields) <= bound <==> forall i :: 0 <= i < |fields| && fields[i].Field? ==> Records(fields[i].value) <= bound
    decreases |fields|
  {
    hide Records;
    if fields != [] {
      var n := |fields| - 1;
      assert fields == fields[..n] + [fields[n]];
      RecordsWithin(fields[..n], bound);
    }
  }

  lemma {:induction false} ValidFieldsIff(fields: seq<Field>, depth: nat, limits: C.Limits)
    requires depth >= 1
    ensures ValidFields(fields, depth, limits) <==> SoundFields(fields, limits) && depth + RecordsIn(fields) <= limits.maxRecordDepth
    decreases fields, 0
  {
    hide C.Accepted, ValidFlat, IsCanonicalToken, Before;
    forall i | 0 <= i < |fields| && fields[i].Field?
      ensures ValidValue(fields[i].value, limits) <==> Sound(fields[i].value, limits) && Records(fields[i].value) <= limits.maxRecordDepth
      ensures var v := fields[i].value;
        v.Record? ==> (ValidFields(v.fields, depth + 1, limits) <==>
                         SoundFields(v.fields, limits) && depth + Records(v) <= limits.maxRecordDepth)
    {
      ValidIff(fields[i].value, limits);
      if fields[i].value.Record? { ValidFieldsIff(fields[i].value.fields, depth + 1, limits); }
    }
    if depth <= limits.maxRecordDepth { RecordsWithin(fields, limits.maxRecordDepth - depth); }
  }

  /** However often a nested record is validated, what comes out is one rule: no more records in each other than allowed. */
  lemma {:induction false} ValidIff(v: Value, limits: C.Limits)
    ensures ValidValue(v, limits) <==> Sound(v, limits) && Records(v) <= limits.maxRecordDepth
    decreases v, 1
  {
    hide C.Accepted, ValidFlat;
    if v.Record? { ValidFieldsIff(v.fields, 1, limits); }
  }

  // ---- what the decoder counts ------------------------------------------------------------------

  /** How many values are nested in each other, leaves included. */
  function Nesting(v: Value): (n: nat)
    ensures n >= 1
    decreases v, 1
  {
    if v.Record? then 1 + NestingIn(v.fields) else 1
  }

  function NestingIn(fields: seq<Field>): nat
    decreases fields, 0
  {
    if fields == [] then 0
    else
      var f := fields[|fields| - 1];
      Max(NestingIn(fields[..|fields| - 1]), if f.Field? then Nesting(f.value) else 0)
  }

  /** How many conditions are nested in each other. */
  function Height(c: C.Condition): nat
    decreases c, 1
  {
    if c.Null? then 0 else 1 + HeightOf(c.children)
  }

  function HeightOf(cs: seq<C.Condition>): nat
    decreases cs, 0
  {
    if cs == [] then 0 else Max(HeightOf(cs[..|cs| - 1]), Height(cs[|cs| - 1]))
  }

  /** The level of the deepest condition, counted on from the values around it. */
  function ConditionNesting(v: Value): nat
    decreases v, 1
  {
    if v.Record? then 1 + ConditionNestingIn(v.fields) else if v.Predicate? then 1 + Height(v.condition) else 1
  }

  function ConditionNestingIn(fields: seq<Field>): nat
    decreases fields, 0
  {
    if fields == [] then 0
    else
      var f := fields[|fields| - 1];
      Max(ConditionNestingIn(fields[..|fields| - 1]), if f.Field? then ConditionNesting(f.value) else 0)
  }

  /** The tree of a value fits when neither count is past its bound; `above` levels are around it. */
  predicate Fits(v: Value, above: nat, limits: C.Limits) {
    above + Nesting(v) <= limits.maxRecordDepth && above + ConditionNesting(v) <= C.MaxConditionDepth(limits)
  }

  lemma {:induction false} HeightWithin(cs: seq<C.Condition>, bound: nat)
    ensures HeightOf(cs) <= bound <==> forall i :: 0 <= i < |cs| ==> Height(cs[i]) <= bound
    decreases |cs|
  {
    hide Height;
    if cs != [] {
      var n := |cs| - 1;
      assert cs == cs[..n] + [cs[n]];
      HeightWithin(cs[..n], bound);
    }
  }

  lemma {:induction false} WithinDepthIff(c: C.Condition, above: nat, limits: C.Limits)
    ensures WithinDepth(c, above + 1, limits) <==> c.Null? || above + Height(c) <= C.MaxConditionDepth(limits)
    decreases c
  {
    if c.Node? {
      forall i | 0 <= i < |c.children|
        ensures WithinDepth(c.children[i], above + 2, limits) <==> c.children[i].Null? || above + 1 + Height(c.children[i]) <= C.MaxConditionDepth(limits)
      {
        WithinDepthIff(c.children[i], above + 1, limits);
      }
      if above + 1 <= C.MaxConditionDepth(limits) { HeightWithin(c.children, C.MaxConditionDepth(limits) - above - 1); }
    }
  }

  lemma {:induction false} NestingWithin(fields: seq<Field>, bound: nat)
    ensures NestingIn(fields) <= bound <==> forall i :: 0 <= i < |fields| && fields[i].Field? ==> Nesting(fields[i].value) <= bound
    decreases |fields|
  {
    hide Nesting;
    if fields != [] {
      var n := |fields| - 1;
      assert fields == fields[..n] + [fields[n]];
      NestingWithin(fields[..n], bound);
    }
  }

  lemma {:induction false} ConditionNestingWithin(fields: seq<Field>, bound: nat)
    ensures ConditionNestingIn(fields) <= bound <==>
      forall i :: 0 <= i < |fields| && fields[i].Field? ==> ConditionNesting(fields[i].value) <= bound
    decreases |fields|
  {
    hide ConditionNesting;
    if fields != [] {
      var n := |fields| - 1;
      assert fields == fields[..n] + [fields[n]];
      ConditionNestingWithin(fields[..n], bound);
    }
  }

  /** The levels the decoder allows, counted. */
  lemma {:induction false} WithinIffFits(v: Value, above: nat, limits: C.Limits)
    ensures ValueWithinDepth(v, above + 1, limits) <==> Fits(v, above, limits)
    decreases v
  {
    hide WithinDepth, Height;
    if v.Predicate? {
      WithinDepthIff(v.condition, above + 1, limits);
      NullHeight();
    }
    if v.Record? {
      forall i | 0 <= i < |v.fields| && v.fields[i].Field?
        ensures ValueWithinDepth(v.fields[i].value, above + 2, limits) <==> Fits(v.fields[i].value, above + 1, limits)
      {
        WithinIffFits(v.fields[i].value, above + 1, limits);
      }
      if above + 1 <= limits.maxRecordDepth {
        NestingWithin(v.fields, limits.maxRecordDepth - above - 1);
        ConditionNestingWithin(v.fields, C.MaxConditionDepth(limits) - above - 1);
      }
    }
  }

  lemma NullHeight()
    ensures Height(C.Null) == 0
  {}

  // ---- which validated values are read back -------------------------------------------------------

  predicate IsParsed(v: V.Version) { IsText(v.raw) && v == V.Parse(v.raw) }

  /** What the types of the source guarantee: numbers in their width, versions from the parser, identities canonical or not set. */
  predicate Built(v: Value)
    decreases v, 1
  {
    && Representable(v)
    && match v
       case VersionRange(range) => IsParsed(range.minimum) && IsParsed(range.maximum)
       case ArchitectureSet(ids) => forall i :: 0 <= i < |ids| ==> ids[i] == "" || IsCanonicalToken(ids[i])
       case Relationship(_, target) => target == "" || IsCanonicalToken(target)
       case Record(fields) => BuiltFields(fields)
       case _ => true
  }

  predicate BuiltFields(fields: seq<Field>)
    decreases fields, 0
  {
    forall i :: 0 <= i < |fields| && fields[i].Field? ==> Built(fields[i].value)
  }

  /** The writer does not cut tokens short. */
  predicate TokensFit(limits: C.Limits) {
    WireLimits(limits) && MaxTokenLength <= limits.maxNameLength && MaxTokenLength <= limits.maxMetadataBytes
  }

  lemma {:induction false} SoundIsBounded(v: Value, limits: C.Limits)
    requires TokensFit(limits) && Built(v) && Sound(v, limits)
    ensures BoundedValue(v, limits)
    decreases v, 1
  {
    hide V.Parse, V.Compare, C.WellFormedTree, C.NodeCount;
    match v {
      case Predicate(condition) => WellFormedTreesFit(condition, 1, limits);
      case VersionRange(range) =>
        ParsedIsShort(range.minimum);
        ParsedIsShort(range.maximum);
      case Record(fields) =>
        forall i | 0 <= i < |fields| ensures BoundedField(fields[i], limits) { SoundIsBounded(fields[i].value, limits); }
      case _ =>
    }
  }

  lemma ParsedIsShort(v: V.Version)
    requires IsParsed(v)
    ensures |v.raw| <= V.MaxLength
  {}

  /**
   * A validated value is read back from where values start exactly when its leaves and its conditions fit as well; a
   * record as deep as the validator allows is refused as soon as it has a field.
   */
  lemma ValidatedValueRoundTrip(v: Value, suffix: seq<byte>, limits: C.Limits)
    requires TokensFit(limits) && Built(v) && ValidValue(v, limits)
    ensures DecodeValue(EncodeValue(v, limits) + suffix, 1, limits) == if Fits(v, 0, limits) then Got(v, suffix) else Fail
  {
    hide Built, ValidValue, Sound, BoundedValue, EncodeValue, DecodeValue, ValueWithinDepth, Fits;
    ValidIff(v, limits);
    SoundIsBounded(v, limits);
    ValueRoundTrip(v, 1, suffix, limits);
    WithinIffFits(v, 0, limits);
  }

  /** A flag inside `n` records. */
  function Nested(n: nat): (v: Value)
    ensures Representable(v)
  {
    if n == 0 then Boolean(true) else Record([Field("a", Nested(n - 1))])
  }

  lemma {:induction false} NestedIsSound(n: nat, limits: C.Limits)
    requires n == 0 || limits.maxRecordFields >= 1
    ensures Sound(Nested(n), limits) && Built(Nested(n)) && Records(Nested(n)) == n && Nesting(Nested(n)) == n + 1
  {
    if n > 0 {
      NestedIsSound(n - 1, limits);
      var fields := Nested(n).fields;
      assert fields[..0] == [];
    }
  }

  /** The deepest value the validator allows, refused by the decoder. */
  lemma DeepestIsRefused(suffix: seq<byte>, limits: C.Limits)
    requires TokensFit(limits) && (limits.maxRecordDepth == 0 || limits.maxRecordFields >= 1)
    ensures var v := Nested(limits.maxRecordDepth);
      Built(v) && ValidValue(v, limits) && DecodeValue(EncodeValue(v, limits) + suffix, 1, limits).Fail?
  {
    hide Built, ValidValue, Sound, EncodeValue, DecodeValue, Nested;
    var v := Nested(limits.maxRecordDepth);
    NestedIsSound(limits.maxRecordDepth, limits);
    ValidIff(v, limits);
    ValidatedValueRoundTrip(v, suffix, limits);
  }

  function Negated(n: nat): C.Condition {
    if n == 0 then C.Node(C.Always, "", "", []) else C.Node(C.Kind.Not, "", "", [Negated(n - 1)])
  }

  lemma {:induction false} NegatedIsWellFormed(n: nat, depth: nat, limits: C.Limits)
    requires depth + n <= C.MaxConditionDepth(limits) && (n == 0 || limits.maxChildren >= 1)
    ensures C.WellFormedTree(Negated(n), depth, limits) && C.NodeCount(Negated(n)) == n + 1 && Height(Negated(n)) == n + 1
    decreases n
  {
    if n > 0 {
      NegatedIsWellFormed(n - 1, depth + 1, limits);
      var cs := Negated(n).children;
      assert cs[..0] == [] && C.NodeCounts(cs[..0]) == 0 && HeightOf(cs[..0]) == 0;
      assert C.NodeCounts(cs) == C.NodeCount(Negated(n - 1)) && HeightOf(cs) == Height(Negated(n - 1));
    }
  }

  /** The highest condition the validator allows, refused by the decoder when a value is built on it. */
  lemma HighestIsRefused(suffix: seq<byte>, limits: C.Limits)
    requires TokensFit(limits) && limits.maxNodes >= C.MaxConditionDepth(limits) && limits.maxChildren >= 1
    ensures var v := Predicate(Negated(limits.maxRecordDepth + 1));
      Built(v) && ValidValue(v, limits) && DecodeValue(EncodeValue(v, limits) + suffix, 1, limits).Fail?
  {
    hide EncodeValue, DecodeValue, Negated, C.WellFormedTree;
    NegatedIsWellFormed(limits.maxRecordDepth + 1, 1, limits);
    ValidatedValueRoundTrip(Predicate(Negated(limits.maxRecordDepth + 1)), suffix, limits);
  }

  ghost predicate AlwaysReadBack(limits: C.Limits) {
    forall v: Value :: Built(v) && ValidValue(v, limits) ==> DecodeValue(EncodeValue(v, limits) + [], 1, limits) == Got(v, [])
  }

  lemma {:induction false} HeightBelowCount(c: C.Condition)
    ensures Height(c) <= C.NodeCount(c)
    decreases c, 1
  {
    if c.Node? { HeightsBelowCounts(c.children); }
  }

  lemma {:induction false} HeightsBelowCounts(cs: seq<C.Condition>)
    ensures HeightOf(cs) <= C.NodeCounts(cs)
    decreases cs, 0, |cs|
  {
    if cs != [] {
      var n := |cs| - 1;
      HeightsBelowCounts(cs[..n]);
      HeightBelowCount(cs[n]);
    }
  }

  /**
   * The bounds under which every validated value is read back: only if records may not have a field at all, and no
   * condition of the allowed height can be written.
   */
  lemma AlwaysReadBackIff(limits: C.Limits)
    requires TokensFit(limits)
    ensures AlwaysReadBack(limits) <==>
      && limits.maxRecordDepth >= 1 && limits.maxRecordFields == 0
      && (limits.maxNodes < C.MaxConditionDepth(limits) || limits.maxChildren == 0)
  {
    hide EncodeValue, DecodeValue, Nested, C.WellFormedTree;
    if limits.maxRecordDepth == 0 || limits.maxRecordFields >= 1 {
      DeepestIsRefused([], limits);
    } else if limits.maxNodes >= C.MaxConditionDepth(limits) && limits.maxChildren >= 1 {
      HighestIsRefused([], limits);
    } else {
      forall v: Value | Built(v) && ValidValue(v, limits) ensures DecodeValue(EncodeValue(v, limits) + [], 1, limits) == Got(v, []) {
        FlatFits(v, limits);
        ValidatedValueRoundTrip(v, [], limits);
      }
    }
  }

  lemma FlatFits(v: Value, limits: C.Limits)
    requires ValidValue(v, limits) && limits.maxRecordDepth >= 1 && limits.maxRecordFields == 0
    requires limits.maxNodes < C.MaxConditionDepth(limits) || limits.maxChildren == 0
    ensures Fits(v, 0, limits)
  {
    if v.Predicate? { HeightBelowCount(v.condition); }
  }

  // ---- the rules, form by form -----------------------------------------------------------------

  lemma BelowTransitive(a: string, b: string, c: string, d: nat, e: nat)
    requires Q.TextBelowAt(a, b, d) && Q.TextBelowAt(b, c, e)
    ensures Q.TextBelowAt(a, c, if d < e then d else e)
  {
    if d < e {
      assert a[..d] == b[..d] == b[..e][..d] == c[..e][..d] == c[..d];
      assert b[d] == b[..e][d] == c[..e][d] == c[d];
    } else {
      assert a[..e] == a[..d][..e] == b[..d][..e] == b[..e] == c[..e];
      if e < d { assert a[e] == a[..d][e] == b[..d][e] == b[e]; }
    }
  }

  /** The first text is below the second, byte by byte. */
  ghost predicate TextBelow(a: string, b: string) {
    exists d: nat :: Q.TextBelowAt(a, b, d)
  }

  /** Strictly sorted means that of any two texts the earlier is below the later. */
  lemma SortedIff(ts: seq<Text>)
    ensures StrictlySorted(ts) <==> forall i, j :: 0 <= i < j < |ts| ==> TextBelow(ts[i], ts[j])
  {
    hide Q.TextBelowAt, Q.CompareText;
    if StrictlySorted(ts) {
      forall i, j | 0 <= i < j < |ts| ensures TextBelow(ts[i], ts[j]) { SortedBelow(ts, i, j); }
    }
    if forall i, j :: 0 <= i < j < |ts| ==> TextBelow(ts[i], ts[j]) {
      forall i | 1 <= i < |ts| ensures Before(ts[i - 1], ts[i]) {
        assert TextBelow(ts[i - 1], ts[i]);
        Q.CompareTextIff(ts[i - 1], ts[i]);
      }
    }
  }

  lemma {:induction false} SortedBelow(ts: seq<Text>, i: nat, j: nat)
    requires StrictlySorted(ts) && i < j < |ts|
    ensures TextBelow(ts[i], ts[j])
    decreases j
  {
    hide Q.TextBelowAt, Q.CompareText;
    assert Before(ts[j - 1], ts[j]);
    Q.CompareTextIff(ts[j - 1], ts[j]);
    var e: nat :| Q.TextBelowAt(ts[j - 1], ts[j], e);
    if i < j - 1 {
      SortedBelow(ts, i, j - 1);
      var d: nat :| Q.TextBelowAt(ts[i], ts[j - 1], d);
      BelowTransitive(ts[i], ts[j - 1], ts[j], d, e);
    }
  }

  predicate InOrder(ts: seq<Text>) {
    forall i :: 1 <= i < |ts| ==> Q.CompareText(ts[i - 1], ts[i]) < 0
  }

  lemma ListsAreValidIff(limits: C.Limits, texts: seq<Text>)
    ensures ValidFlat(FeatureSet(texts), limits) <==>
      |texts| <= limits.maxFeatureEntries && InOrder(texts) && forall t :: t in texts ==> IsCanonicalToken(t)
    ensures ValidFlat(ArchitectureSet(texts), limits) <==> |texts| <= limits.maxArchitectureEntries && InOrder(texts) && "" !in texts
  {
    hide IsCanonicalToken, Q.CompareText;
    forall t | t in texts ensures exists i :: 0 <= i < |texts| && texts[i] == t {}
    forall i | 0 <= i < |texts| ensures texts[i] in texts {}
  }

  /** When a value that holds no other is valid. */
  lemma FormsAreValidIff(limits: C.Limits, texts: seq<Text>, a: Text, b: Text, n: nat, range: V.Range, low: int, high: int, step: int)
    ensures ValidFlat(Count(n, a), limits) <==> a == "" || IsCanonicalToken(a)
    ensures ValidFlat(Enumeration(a, b), limits) <==> IsCanonicalToken(a) && IsCanonicalToken(b)
    ensures ValidFlat(FeatureSet(texts), limits) <==>
      |texts| <= limits.maxFeatureEntries && InOrder(texts) && forall t :: t in texts ==> IsCanonicalToken(t)
    ensures ValidFlat(ArchitectureSet(texts), limits) <==> |texts| <= limits.maxArchitectureEntries && InOrder(texts) && "" !in texts
    ensures ValidFlat(VersionRange(range), limits) <==> range.Valid() && (range.minimum.raw != "" || range.maximum.raw != "")
    ensures ValidFlat(NumericRange(low, high, step), limits) <==> low <= high < low + 0x8000_0000_0000_0000 && step >= 1
    ensures ValidFlat(Relationship(n, a), limits) <==> a != ""
  {
    hide IsCanonicalToken, Q.CompareText, StrictlySorted, InOrder;
    ListsAreValidIff(limits, texts);
  }
}
