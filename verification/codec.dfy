// Wire form of condition trees and typed capability values (src/codec.cpp):
// what is written, what is accepted back, and the depth at which the decoder
// stops following a tree.
module Codec {
  import opened Basics
  import opened Wire
  import V = Versions
  import opened Conditions

  const MaxTokenLength: nat := 128

  // ---- conditions ---------------------------------------------------------------

  const Kinds: seq<Kind> := [
    Always, MinDriverVersion, MinFirmwareVersion, MinRuntimeVersion, MinPlatformGeneration,
    RequiredOs, RequiredKernelVersion, RequiredDeviceMode, RequiredTopology, RequiredPeerHardware,
    RequiredPartitionState, RequiredPlatformSetting, RequiredPrivilege, RequiredDeviceGeneration,
    RequiredFeatureGate, AllOf, AnyOf, Kind.Not]

  function KindCode(kind: Kind): (n: nat)
    ensures n < |Kinds| && Kinds[n] == kind
  {
    match kind
    case Always => 0
    case MinDriverVersion => 1
    case MinFirmwareVersion => 2
    case MinRuntimeVersion => 3
    case MinPlatformGeneration => 4
    case RequiredOs => 5
    case RequiredKernelVersion => 6
    case RequiredDeviceMode => 7
    case RequiredTopology => 8
    case RequiredPeerHardware => 9
    case RequiredPartitionState => 10
    case RequiredPlatformSetting => 11
    case RequiredPrivilege => 12
    case RequiredDeviceGeneration => 13
    case RequiredFeatureGate => 14
    case AllOf => 15
    case AnyOf => 16
    case Not => 17
  }

  // The fixed part of a node, and the number of children that follow it.
  datatype NodeHead = NodeHead(kind: Kind, key: Text, value: Text, count: nat)

  function EncodeHead(h: NodeHead, limits: Limits): seq<byte> {
    Encode(KindCode(h.kind), 2)
    + (EncodeText(h.key, limits.maxNameLength) + (EncodeText(h.value, limits.maxNameLength) + Encode(h.count, 4)))
  }

  function TakeHead(bs: seq<byte>, limits: Limits): (p: Parsed<NodeHead>)
    ensures p.Got? ==> |p.rest| <= |bs|
  {
    var (kind, r1) :- TakeUint(bs, 2);
    var (key, r2) :- TakeText(r1, limits.maxNameLength);
    var (value, r3) :- TakeText(r2, limits.maxNameLength);
    var (n, r4) :- TakeUint(r3, 4);
    if kind >= |Kinds| || n > limits.maxChildren || n > |r4| then Fail
    else Got(NodeHead(Kinds[kind], key, value, n), r4)
  }

  function HeadOf(c: Condition, limits: Limits): NodeHead
    requires c.Node?
  {
    NodeHead(c.kind, c.key, c.value, Min(|c.children|, limits.maxChildren))
  }

  function EncodeCondition(c: Condition, limits: Limits): seq<byte>
    decreases c, 1
  {
    if c.Null? then Encode(0, 1)
    else Encode(1, 1) + EncodeHead(HeadOf(c, limits), limits)
         + EncodeConditions(c.children, HeadOf(c, limits).count, limits)
  }

  function EncodeConditions(cs: seq<Condition>, n: nat, limits: Limits): seq<byte>
    requires n <= |cs|
    decreases cs, 0, n
  {
    if n == 0 then [] else EncodeConditions(cs, n - 1, limits) + EncodeCondition(cs[n - 1], limits)
  }

  /** The decoder follows a tree at most this many levels further. */
  function Levels(depth: nat, limits: Limits): nat {
    if depth > MaxConditionDepth(limits) then 0 else MaxConditionDepth(limits) + 1 - depth
  }

  function DecodeCondition(bs: seq<byte>, depth: nat, limits: Limits): (p: Parsed<Condition>)
    ensures p.Got? ==> |p.rest| <= |bs|
    decreases Levels(depth, limits), 1, 0
  {
    var (present, r0) :- TakeUint(bs, 1);
    if present == 0 then Got(Null, r0)
    else if present != 1 || depth > MaxConditionDepth(limits) then Fail
    else
      var (h, r1) :- TakeHead(r0, limits);
      var (children, r2) :- DecodeConditions(r1, h.count, depth + 1, limits);
      Got(Node(h.kind, h.key, h.value, children), r2)
  }

  function DecodeConditions(bs: seq<byte>, n: nat, depth: nat, limits: Limits): (p: Parsed<seq<Condition>>)
    ensures p.Got? ==> |p.rest| <= |bs|
    decreases Levels(depth, limits), 2, n
  {
    if n == 0 then Got([], bs)
    else
      var (front, r) :- DecodeConditions(bs, n - 1, depth, limits);
      var (last, r') :- DecodeCondition(r, depth, limits);
      Got(front + [last], r')
  }

  /** Within the list and string bounds, so that nothing is clamped; null children are allowed. */
  predicate Bounded(c: Condition, limits: Limits) {
    c.Node? ==>
      && |c.key| <= limits.maxNameLength && |c.value| <= limits.maxNameLength
      && |c.children| <= limits.maxChildren
      && forall i :: 0 <= i < |c.children| ==> Bounded(c.children[i], limits)
  }

  predicate WithinDepth(c: Condition, depth: nat, limits: Limits) {
    c.Node? ==>
      depth <= MaxConditionDepth(limits) && forall i :: 0 <= i < |c.children| ==> WithinDepth(c.children[i], depth + 1, limits)
  }

  /** Every bound fits the four bytes a length or count is written in. */
  predicate WireLimits(limits: Limits) {
    && limits.maxNameLength <= MaxU32 && limits.maxChildren <= MaxU32 && limits.maxRecordFields <= MaxU32
    && limits.maxFeatureEntries <= MaxU32 && limits.maxArchitectureEntries <= MaxU32 && limits.maxMetadataBytes <= MaxU32
  }

  method WriteHead(writer: ByteWriter, h: NodeHead, limits: Limits)
    modifies writer
    ensures writer.out == old(writer.out) + EncodeHead(h, limits)
    ensures |h.key| <= limits.maxNameLength && |h.value| <= limits.maxNameLength ==> writer.truncated == old(writer.truncated)
  {
    hide Encode, EncodeText;
    writer.Uint(KindCode(h.kind), 2);
    writer.Str(h.key, limits.maxNameLength);
    writer.Str(h.value, limits.maxNameLength);
    writer.Uint(h.count, 4);
  }

  method WriteCondition(writer: ByteWriter, c: Condition, limits: Limits)
    modifies writer
    ensures writer.out == old(writer.out) + EncodeCondition(c, limits)
    ensures Bounded(c, limits) ==> writer.truncated == old(writer.truncated)
    decreases c
  {
    hide Encode, EncodeHead;
    if c.Null? {
      writer.Uint(0, 1);
      return;
    }
    var h := HeadOf(c, limits);
    writer.Uint(1, 1);
    WriteHead(writer, h, limits);
    ghost var front := writer.out;
    for i := 0 to h.count
      invariant writer.out == front + EncodeConditions(c.children, i, limits)
      invariant Bounded(c, limits) ==> writer.truncated == old(writer.truncated)
    {
      WriteCondition(writer, c.children[i], limits);
    }
  }

  method ReadHead(reader: ByteReader, limits: Limits) returns (h: NodeHead)
    requires reader.Valid() && reader.ok
    modifies reader
    ensures reader.Valid() && reader.After(TakeHead(old(reader.Rest()), limits), h)
  {
    hide TakeUint, TakeText;
    h := NodeHead(Always, "", "", 0);
    var kind := reader.Uint(2);
    if kind >= |Kinds| {
      reader.Fail();
      return;
    }
    var key := reader.Str(limits.maxNameLength);
    var value := reader.Str(limits.maxNameLength);
    var n := reader.Uint(4);
    if !reader.ok { return; }
    if n > limits.maxChildren || n > |reader.data| - reader.position {
      reader.Fail();
      return;
    }
    h := NodeHead(Kinds[kind], key, value, n);
  }

  method ReadCondition(reader: ByteReader, depth: nat, limits: Limits) returns (c: Condition)
    requires reader.Valid() && reader.ok
    modifies reader
    ensures reader.Valid() && reader.After(DecodeCondition(old(reader.Rest()), depth, limits), c)
    decreases Levels(depth, limits)
  {
    hide TakeUint, TakeHead;
    c := Null;
    var present := reader.U8();
    if !reader.ok || present == 0 { return; }
    if present != 1 {
      reader.Fail();
      return;
    }
    if depth > MaxConditionDepth(limits) {
      reader.Fail();
      return;
    }
    var h := ReadHead(reader, limits);
    if !reader.ok { return; }
    ghost var start := reader.Rest();
    var children: seq<Condition> := [];
    for i := 0 to h.count
      invariant reader.Valid() && reader.ok
      invariant DecodeConditions(start, i, depth + 1, limits) == Got(children, reader.Rest())
    {
      var child := ReadCondition(reader, depth + 1, limits);
      if !reader.ok {
        DecodeConditionsFail(start, i + 1, h.count, depth + 1, limits);
        return;
      }
      children := children + [child];
    }
    c := Node(h.kind, h.key, h.value, children);
  }

  lemma {:induction false} DecodeConditionsFail(bs: seq<byte>, m: nat, n: nat, depth: nat, limits: Limits)
    requires m <= n && DecodeConditions(bs, m, depth, limits).Fail?
    ensures DecodeConditions(bs, n, depth, limits).Fail?
    decreases n - m
  {
    hide DecodeCondition;
    if m < n { DecodeConditionsFail(bs, m, n - 1, depth, limits); }
  }

  // ---- condition round trip ------------------------------------------------------------

  lemma HeadRoundTrip(h: NodeHead, suffix: seq<byte>, limits: Limits)
    requires WireLimits(limits) && |h.key| <= limits.maxNameLength && |h.value| <= limits.maxNameLength
    requires h.count <= limits.maxChildren && h.count <= |suffix|
    ensures TakeHead(EncodeHead(h, limits) + suffix, limits) == Got(h, suffix)
  {
    hide Encode, EncodeText, TakeUint, TakeText;
    Widths();
    var r4 := Encode(h.count, 4) + suffix;
    var r3 := EncodeText(h.value, limits.maxNameLength) + r4;
    var r2 := EncodeText(h.key, limits.maxNameLength) + r3;
    assert EncodeHead(h, limits) + suffix == Encode(KindCode(h.kind), 2) + r2;
    TakeEncodedUint(KindCode(h.kind), 2, r2);
    TakeEncodedText(h.key, limits.maxNameLength, r3);
    TakeEncodedText(h.value, limits.maxNameLength, r4);
    TakeEncodedUint(h.count, 4, suffix);
  }

  lemma {:induction false} EveryConditionTakesAByte(cs: seq<Condition>, n: nat, limits: Limits)
    requires n <= |cs|
    ensures |EncodeConditions(cs, n, limits)| >= n
  {
    if n > 0 { EveryConditionTakesAByte(cs, n - 1, limits); }
  }

  /** Within its size bounds a tree is read back equal, consuming exactly what was written, if and only if it is not too deep. */
  lemma {:induction false} ConditionRoundTrip(c: Condition, depth: nat, suffix: seq<byte>, limits: Limits)
    requires WireLimits(limits) && Bounded(c, limits)
    ensures DecodeCondition(EncodeCondition(c, limits) + suffix, depth, limits) ==
            if WithinDepth(c, depth, limits) then Got(c, suffix) else Fail
    decreases c, 1
  {
    hide Encode, EncodeHead, TakeUint, TakeHead;
    Widths();
    if c.Null? {
      TakeEncodedUint(0, 1, suffix);
    } else {
      var h := HeadOf(c, limits);
      var body := EncodeConditions(c.children, h.count, limits);
      assert EncodeCondition(c, limits) + suffix == Encode(1, 1) + (EncodeHead(h, limits) + (body + suffix));
      TakeEncodedUint(1, 1, EncodeHead(h, limits) + (body + suffix));
      EveryConditionTakesAByte(c.children, h.count, limits);
      HeadRoundTrip(h, body + suffix, limits);
      if depth <= MaxConditionDepth(limits) {
        ConditionsRoundTrip(c.children, h.count, depth + 1, suffix, limits);
        assert c.children[..h.count] == c.children;
      }
    }
  }

  lemma {:induction false} ConditionsRoundTrip(cs: seq<Condition>, n: nat, depth: nat, suffix: seq<byte>, limits: Limits)
    requires WireLimits(limits) && n <= |cs| && forall i :: 0 <= i < |cs| ==> Bounded(cs[i], limits)
    ensures DecodeConditions(EncodeConditions(cs, n, limits) + suffix, n, depth, limits) ==
            if forall i :: 0 <= i < n ==> WithinDepth(cs[i], depth, limits) then Got(cs[..n], suffix) else Fail
    decreases cs, 0, n
  {
    hide EncodeCondition, DecodeCondition, Bounded, WithinDepth;
    if n == 0 {
      assert EncodeConditions(cs, n, limits) + suffix == suffix;
    } else {
      var last := EncodeCondition(cs[n - 1], limits);
      assert EncodeConditions(cs, n, limits) + suffix == EncodeConditions(cs, n - 1, limits) + (last + suffix);
      ConditionsRoundTrip(cs, n - 1, depth, last + suffix, limits);
      ConditionRoundTrip(cs[n - 1], depth, suffix, limits);
      assert cs[..n - 1] + [cs[n - 1]] == cs[..n];
    }
  }

  /** Every validated condition is within both the size and the depth the decoder accepts at depth one. */
  lemma {:induction false} WellFormedTreesFit(c: Condition, depth: nat, limits: Limits)
    requires WellFormedTree(c, depth, limits)
    ensures Bounded(c, limits) && WithinDepth(c, depth, limits)
  {
    forall i | 0 <= i < |c.children| ensures Bounded(c.children[i], limits) && WithinDepth(c.children[i], depth + 1, limits) {
      WellFormedTreesFit(c.children[i], depth + 1, limits);
    }
  }

  lemma ValidatedConditionRoundTrip(c: Condition, suffix: seq<byte>, limits: Limits)
    requires WireLimits(limits) && Accepted(c, limits)
    ensures DecodeCondition(EncodeCondition(c, limits) + suffix, 1, limits) == Got(c, suffix)
  {
    WellFormedTreesFit(c, 1, limits);
    ConditionRoundTrip(c, 1, suffix, limits);
  }

  /** The wire form is canonical: the decoder accepts nothing but what the encoder writes. */
  lemma {:induction false} DecodedConditionIsCanonical(bs: seq<byte>, depth: nat, limits: Limits)
    requires DecodeCondition(bs, depth, limits).Got?
    ensures var p := DecodeCondition(bs, depth, limits);
            && bs == EncodeCondition(p.value, limits) + p.rest
            && Bounded(p.value, limits) && WithinDepth(p.value, depth, limits)
    decreases Levels(depth, limits), 1, 0
  {
    hide Encode, EncodeHead, TakeUint, TakeHead;
    TakenUint(bs, 1);
    var r0 := TakeUint(bs, 1).rest;
    if TakeUint(bs, 1).value == 1 {
      TakenHead(r0, limits);
      var h, r1 := TakeHead(r0, limits).value, TakeHead(r0, limits).rest;
      DecodedConditionsAreCanonical(r1, h.count, depth + 1, limits);
      var p := DecodeConditions(r1, h.count, depth + 1, limits);
      var c := Node(h.kind, h.key, h.value, p.value);
      assert HeadOf(c, limits) == h;
      assert bs == EncodeCondition(c, limits) + p.rest;
    }
  }

  lemma {:induction false} DecodedConditionsAreCanonical(bs: seq<byte>, n: nat, depth: nat, limits: Limits)
    requires DecodeConditions(bs, n, depth, limits).Got?
    ensures var p := DecodeConditions(bs, n, depth, limits);
            && |p.value| == n && bs == EncodeConditions(p.value, n, limits) + p.rest
            && forall i :: 0 <= i < n ==> Bounded(p.value[i], limits) && WithinDepth(p.value[i], depth, limits)
    decreases Levels(depth, limits), 2, n
  {
    hide EncodeCondition, DecodeCondition, Bounded, WithinDepth;
    if n > 0 {
      DecodedConditionsAreCanonical(bs, n - 1, depth, limits);
      var front := DecodeConditions(bs, n - 1, depth, limits);
      DecodedConditionIsCanonical(front.rest, depth, limits);
      var last := DecodeCondition(front.rest, depth, limits);
      EncodeFront(front.value, last.value, n - 1, limits);
    }
  }

  lemma {:induction false} EncodeFront(cs: seq<Condition>, c: Condition, n: nat, limits: Limits)
    requires n <= |cs|
    ensures EncodeConditions(cs + [c], n, limits) == EncodeConditions(cs, n, limits)
  {
    if n > 0 { EncodeFront(cs, c, n - 1, limits); }
  }

  lemma TakenHead(bs: seq<byte>, limits: Limits)
    requires TakeHead(bs, limits).Got?
    ensures var p := TakeHead(bs, limits);
            && bs == EncodeHead(p.value, limits) + p.rest && p.value.count <= limits.maxChildren
            && |p.value.key| <= limits.maxNameLength && |p.value.value| <= limits.maxNameLength
  {
    hide Encode, EncodeText, TakeUint, TakeText;
    TakenUint(bs, 2);
    var r1 := TakeUint(bs, 2).rest;
    TakenText(r1, limits.maxNameLength);
    var r2 := TakeText(r1, limits.maxNameLength).rest;
    TakenText(r2, limits.maxNameLength);
    var r3 := TakeText(r2, limits.maxNameLength).rest;
    TakenUint(r3, 4);
    KindOfCode(TakeUint(bs, 2).value);
  }

  lemma KindOfCode(n: nat)
    requires n < |Kinds|
    ensures KindCode(Kinds[n]) == n
  {}

  // ---- values -------------------------------------------------------------------------------

  const MaxI64: int := 0x7FFF_FFFF_FFFF_FFFF
  const LastRateUnit: nat := 4
  const LastBandwidthUnit: nat := 8
  const LastLatencyClass: nat := 5
  const LastRelation: nat := 4

  /** Units, latency classes and relations are the numbers of their enumerators; identities are their tokens. */
  datatype Value =
    | NoValue
    | Boolean(flag: bool)
    | Count(count: nat, unit: Text)
    | Bytes(bytes: nat)
    | Rate(magnitude: nat, rateUnit: nat)
    | Bandwidth(magnitude: nat, bandwidthUnit: nat)
    | Latency(rank: nat)
    | Enumeration(domain: Text, token: Text)
    | FeatureSet(features: seq<Text>)
    | VersionRange(range: V.Range)
    | ArchitectureSet(architectures: seq<Text>)
    | NumericRange(minimum: int, maximum: int, step: int)
    | Record(fields: seq<Field>)
    | Relationship(relation: nat, target: Text)
    | Predicate(condition: Condition)

  /** A record field; `Missing` is a field whose value pointer is null. */
  datatype Field = Missing(name: Text) | Field(name: Text, value: Value)

  function ValueCode(v: Value): (n: nat)
    ensures n <= 14
  {
    match v
    case NoValue => 0
    case Boolean(_) => 1
    case Count(_, _) => 2
    case Bytes(_) => 3
    case Rate(_, _) => 4
    case Bandwidth(_, _) => 5
    case Latency(_) => 6
    case Enumeration(_, _) => 7
    case FeatureSet(_) => 8
    case VersionRange(_) => 9
    case ArchitectureSet(_) => 10
    case NumericRange(_, _, _) => 11
    case Record(_) => 12
    case Relationship(_, _) => 13
    case Predicate(_) => 14
  }

  predicate IsTokenChar(c: char) {
    'a' <= c <= 'z' || '0' <= c <= '9' || c == '.' || c == '_' || c == ':' || c == '-'
  }

  predicate IsCanonicalToken(s: string) {
    && 0 < |s| <= MaxTokenLength
    && ('a' <= s[0] <= 'z' || '0' <= s[0] <= '9')
    && forall i :: 0 <= i < |s| ==> IsTokenChar(s[i])
  }

  /** The identity parsed from a text: the text itself, or the invalid identity. */
  function IdOf(s: Text): Text {
    if IsCanonicalToken(s) then s else ""
  }

  function ToU64(i: int): nat
    requires -MaxI64 - 1 <= i <= MaxI64
  {
    if i >= 0 then i else i + (MaxU64 + 1)
  }

  function FromU64(n: nat): int {
    if n <= MaxI64 then n else n - (MaxU64 + 1)
  }

  function EncodeTexts(ts: seq<Text>, n: nat, max: nat): (bs: seq<byte>)
    requires n <= |ts|
    ensures |bs| >= n
  {
    if n == 0 then [] else EncodeTexts(ts, n - 1, max) + EncodeText(ts[n - 1], max)
  }

  function DecodeTexts(bs: seq<byte>, n: nat, max: nat): (p: Parsed<seq<Text>>)
    ensures p.Got? ==> |p.rest| <= |bs| && |p.value| == n
    decreases n
  {
    if n == 0 then Got([], bs)
    else
      var (front, r) :- DecodeTexts(bs, n - 1, max);
      var (last, r') :- TakeText(r, max);
      Got(front + [last], r')
  }

  function IdsOf(ts: seq<Text>): (ids: seq<Text>)
    ensures |ids| == |ts|
  {
    seq(|ts|, i requires 0 <= i < |ts| => IdOf(ts[i]))
  }

  /** A counted list of texts. */
  function EncodeList(ts: seq<Text>, bound: nat, max: nat): seq<byte> {
    Encode(Min(|ts|, bound), 4) + EncodeTexts(ts, Min(|ts|, bound), max)
  }

  function TakeList(bs: seq<byte>, bound: nat, max: nat): (p: Parsed<seq<Text>>)
    ensures p.Got? ==> |p.rest| <= |bs|
  {
    var (n, r) :- TakeUint(bs, 4);
    if n > bound || n > |r| then Fail else DecodeTexts(r, n, max)
  }

  function EncodeRange(r: V.Range, limits: Limits): seq<byte> {
    EncodeText(r.minimum.raw, limits.maxNameLength)
    + (EncodeText(r.maximum.raw, limits.maxNameLength) + Encode(if r.includeMaximum then 1 else 0, 1))
  }

  function TakeRange(bs: seq<byte>, limits: Limits): (p: Parsed<V.Range>)
    ensures p.Got? ==> |p.rest| <= |bs|
  {
    var (low, r1) :- TakeText(bs, limits.maxNameLength);
    var (high, r2) :- TakeText(r1, limits.maxNameLength);
    var (flag, r3) :- TakeUint(r2, 1);
    Got(V.Range(V.Parse(low), V.Parse(high), flag != 0), r3)
  }

  /** The forms that contain no other value or condition. */
  predicate IsFlat(v: Value) { !v.Record? && !v.Predicate? }

  function EncodeFlat(v: Value, limits: Limits): seq<byte>
    requires IsFlat(v) && Representable(v)
  {
    match v
    case NoValue => []
    case Boolean(flag) => Encode(if flag then 1 else 0, 1)
    case Count(n, unit) => Encode(n, 8) + EncodeText(unit, limits.maxNameLength)
    case Bytes(n) => Encode(n, 8)
    case Rate(n, unit) => Encode(n, 8) + Encode(unit, 2)
    case Bandwidth(n, unit) => Encode(n, 8) + Encode(unit, 2)
    case Latency(rank) => Encode(rank, 2)
    case Enumeration(domain, token) => EncodeText(domain, limits.maxNameLength) + EncodeText(token, limits.maxNameLength)
    case FeatureSet(features) => EncodeList(features, limits.maxFeatureEntries, limits.maxMetadataBytes)
    case VersionRange(range) => EncodeRange(range, limits)
    case ArchitectureSet(ids) => EncodeList(ids, limits.maxArchitectureEntries, MaxTokenLength)
    case NumericRange(low, high, step) => Encode(ToU64(low), 8) + (Encode(ToU64(high), 8) + Encode(ToU64(step), 8))
    case Relationship(relation, target) => Encode(relation, 2) + EncodeText(target, MaxTokenLength)
  }

  /** The numbers fit the C++ fields that hold them. */
  predicate Representable(v: Value) {
    match v
    case Count(n, _) => n <= MaxU64
    case Bytes(n) => n <= MaxU64
    case Rate(n, unit) => n <= MaxU64 && unit <= LastRateUnit
    case Bandwidth(n, unit) => n <= MaxU64 && unit <= LastBandwidthUnit
    case Latency(rank) => rank <= LastLatencyClass
    case NumericRange(low, high, step) =>
      -MaxI64 - 1 <= low <= MaxI64 && -MaxI64 - 1 <= high <= MaxI64 && -MaxI64 - 1 <= step <= MaxI64
    case Relationship(relation, _) => relation <= LastRelation
    case Record(fields) => forall i :: 0 <= i < |fields| && fields[i].Field? ==> Representable(fields[i].value)
    case _ => true
  }

  function DecodeFlat(code: nat, bs: seq<byte>, limits: Limits): Parsed<Value>
    requires code <= 14 && code != 12 && code != 14
  {
    match code
    case 0 => Got(NoValue, bs)
    case 1 =>
      var (flag, r) :- TakeUint(bs, 1);
      Got(Boolean(flag != 0), r)
    case 2 =>
      var (n, r) :- TakeUint(bs, 8);
      var (unit, r') :- TakeText(r, limits.maxNameLength);
      Got(Count(n, unit), r')
    case 3 =>
      var (n, r) :- TakeUint(bs, 8);
      Got(Bytes(n), r)
    case 4 =>
      var (n, r) :- TakeUint(bs, 8);
      var (unit, r') :- TakeUint(r, 2);
      if unit > LastRateUnit then Fail else Got(Rate(n, unit), r')
    case 5 =>
      var (n, r) :- TakeUint(bs, 8);
      var (unit, r') :- TakeUint(r, 2);
      if unit > LastBandwidthUnit then Fail else Got(Bandwidth(n, unit), r')
    case 6 =>
      var (rank, r) :- TakeUint(bs, 2);
      if rank > LastLatencyClass then Fail else Got(Latency(rank), r)
    case 7 =>
      var (domain, r) :- TakeText(bs, limits.maxNameLength);
      var (token, r') :- TakeText(r, limits.maxNameLength);
      Got(Enumeration(domain, token), r')
    case 8 =>
      var (features, r) :- TakeList(bs, limits.maxFeatureEntries, limits.maxMetadataBytes);
      Got(FeatureSet(features), r)
    case 9 =>
      var (range, r) :- TakeRange(bs, limits);
      Got(VersionRange(range), r)
    case 10 =>
      var (ids, r) :- TakeList(bs, limits.maxArchitectureEntries, MaxTokenLength);
      Got(ArchitectureSet(IdsOf(ids)), r)
    case 11 =>
      var (low, r) :- TakeUint(bs, 8);
      var (high, r') :- TakeUint(r, 8);
      var (step, r'') :- TakeUint(r', 8);
      Got(NumericRange(FromU64(low), FromU64(high), FromU64(step)), r'')
    case _ =>
      var (relation, r) :- TakeUint(bs, 2);
      if relation > LastRelation then Fail
      else
        var (target, r') :- TakeText(r, MaxTokenLength);
        Got(Relationship(relation, IdOf(target)), r')
  }

  const RecordCode: nat := 12
  const PredicateCode: nat := 14

  function EncodeValue(v: Value, limits: Limits): seq<byte>
    requires Representable(v)
    decreases v, 1
  {
    Encode(ValueCode(v), 2) +
    match v
    case Record(fields) =>
      var n := Min(|fields|, limits.maxRecordFields);
      Encode(n, 4) + EncodeFields(fields, n, limits)
    case Predicate(condition) => EncodeCondition(condition, limits)
    case _ => EncodeFlat(v, limits)
  }

  predicate RepresentableFields(fields: seq<Field>) {
    forall i :: 0 <= i < |fields| && fields[i].Field? ==> Representable(fields[i].value)
  }

  function EncodeFields(fields: seq<Field>, n: nat, limits: Limits): seq<byte>
    requires n <= |fields| && RepresentableFields(fields)
    decreases fields, 0, n
  {
    if n == 0 then []
    else EncodeFields(fields, n - 1, limits) + EncodeField(fields[n - 1], limits)
  }

  function EncodeField(f: Field, limits: Limits): seq<byte>
    requires f.Field? ==> Representable(f.value)
    decreases f, 0
  {
    EncodeText(f.name, limits.maxNameLength) +
    (if f.Missing? then Encode(0, 1) else Encode(1, 1) + EncodeValue(f.value, limits))
  }

  function ValueLevels(depth: nat, limits: Limits): nat {
    if depth > limits.maxRecordDepth then 0 else limits.maxRecordDepth + 1 - depth
  }

  function DecodeValue(bs: seq<byte>, depth: nat, limits: Limits): Parsed<Value>
    decreases ValueLevels(depth, limits), 1, 0
  {
    var (code, r) :- TakeUint(bs, 2);
    if code > 14 || depth > limits.maxRecordDepth then Fail
    else if code == RecordCode then
      var (n, r') :- TakeUint(r, 4);
      if n > limits.maxRecordFields || n > |r'| then Fail
      else
        var (fields, r'') :- DecodeFields(r', n, depth + 1, limits);
        Got(Record(fields), r'')
    else if code == PredicateCode then
      var (condition, r') :- DecodeCondition(r, depth + 1, limits);
      Got(Predicate(condition), r')
    else DecodeFlat(code, r, limits)
  }

  function DecodeFields(bs: seq<byte>, n: nat, depth: nat, limits: Limits): Parsed<seq<Field>>
    decreases ValueLevels(depth, limits), 3, n
  {
    if n == 0 then Got([], bs)
    else
      var (front, r) :- DecodeFields(bs, n - 1, depth, limits);
      var (last, r') :- DecodeField(r, depth, limits);
      Got(front + [last], r')
  }

  function DecodeField(bs: seq<byte>, depth: nat, limits: Limits): Parsed<Field>
    decreases ValueLevels(depth, limits), 2, 0
  {
    var (name, r) :- TakeText(bs, limits.maxNameLength);
    var (present, r') :- TakeUint(r, 1);
    if present == 0 then Got(Missing(name), r')
    else if present != 1 then Fail
    else
      var (value, r'') :- DecodeValue(r', depth, limits);
      Got(Field(name, value), r'')
  }

  // ---- value round trip --------------------------------------------------------------------

  predicate IsText(s: string) { forall i :: 0 <= i < |s| ==> s[i] as int < 256 }

  /** A version as the parser leaves it, short enough to be written whole. */
  predicate WritableVersion(v: V.Version, limits: Limits) {
    IsText(v.raw) && |v.raw| <= limits.maxNameLength && v == V.Parse(v.raw)
  }

  /** Within every list and string bound; identities are canonical or invalid. */
  predicate BoundedValue(v: Value, limits: Limits)
    decreases v
  {
    && Representable(v)
    && match v
       case Count(_, unit) => |unit| <= limits.maxNameLength
       case Enumeration(domain, token) => |domain| <= limits.maxNameLength && |token| <= limits.maxNameLength
       case FeatureSet(features) =>
         |features| <= limits.maxFeatureEntries && forall i :: 0 <= i < |features| ==> |features[i]| <= limits.maxMetadataBytes
       case VersionRange(range) => WritableVersion(range.minimum, limits) && WritableVersion(range.maximum, limits)
       case ArchitectureSet(ids) =>
         |ids| <= limits.maxArchitectureEntries && forall i :: 0 <= i < |ids| ==> ids[i] == "" || IsCanonicalToken(ids[i])
       case Relationship(_, target) => target == "" || IsCanonicalToken(target)
       case Record(fields) =>
         |fields| <= limits.maxRecordFields && forall i :: 0 <= i < |fields| ==> BoundedField(fields[i], limits)
       case Predicate(condition) => Bounded(condition, limits)
       case _ => true
  }

  predicate BoundedField(f: Field, limits: Limits)
    decreases f
  {
    |f.name| <= limits.maxNameLength && (f.Field? ==> Representable(f.value) && BoundedValue(f.value, limits))
  }

  /** Counting leaves and predicate trees, no level is past the decoder's bounds. */
  predicate ValueWithinDepth(v: Value, depth: nat, limits: Limits)
    decreases v
  {
    && depth <= limits.maxRecordDepth
    && (v.Record? ==> forall i :: 0 <= i < |v.fields| ==> FieldWithinDepth(v.fields[i], depth + 1, limits))
    && (v.Predicate? ==> WithinDepth(v.condition, depth + 1, limits))
  }

  predicate FieldWithinDepth(f: Field, depth: nat, limits: Limits)
    decreases f
  {
    f.Field? ==> ValueWithinDepth(f.value, depth, limits)
  }

  lemma {:induction false} TextsRoundTrip(ts: seq<Text>, n: nat, max: nat, suffix: seq<byte>)
    requires n <= |ts| && max <= MaxU32 && forall i :: 0 <= i < |ts| ==> |ts[i]| <= max
    ensures DecodeTexts(EncodeTexts(ts, n, max) + suffix, n, max) == Got(ts[..n], suffix)
  {
    hide EncodeText, TakeText;
    if n == 0 {
      assert EncodeTexts(ts, n, max) + suffix == suffix;
    } else {
      var last := EncodeText(ts[n - 1], max);
      assert EncodeTexts(ts, n, max) + suffix == EncodeTexts(ts, n - 1, max) + (last + suffix);
      TextsRoundTrip(ts, n - 1, max, last + suffix);
      TakeEncodedText(ts[n - 1], max, suffix);
      assert ts[..n - 1] + [ts[n - 1]] == ts[..n];
    }
  }

  lemma ListRoundTrip(ts: seq<Text>, bound: nat, max: nat, suffix: seq<byte>)
    requires |ts| <= bound <= MaxU32 && max <= MaxU32 && forall i :: 0 <= i < |ts| ==> |ts[i]| <= max
    ensures TakeList(EncodeList(ts, bound, max) + suffix, bound, max) == Got(ts, suffix)
  {
    hide Encode, EncodeTexts, DecodeTexts, TakeUint;
    Widths();
    var body := EncodeTexts(ts, |ts|, max);
    assert EncodeList(ts, bound, max) + suffix == Encode(|ts|, 4) + (body + suffix);
    TakeEncodedUint(|ts|, 4, body + suffix);
    TextsRoundTrip(ts, |ts|, max, suffix);
    assert ts[..|ts|] == ts;
  }

  lemma RangeRoundTrip(r: V.Range, suffix: seq<byte>, limits: Limits)
    requires WireLimits(limits) && WritableVersion(r.minimum, limits) && WritableVersion(r.maximum, limits)
    ensures TakeRange(EncodeRange(r, limits) + suffix, limits) == Got(r, suffix)
  {
    hide Encode, EncodeText, TakeUint, TakeText, V.Parse;
    Widths();
    var flag := if r.includeMaximum then 1 else 0;
    var r3 := Encode(flag, 1) + suffix;
    var r2 := EncodeText(r.maximum.raw, limits.maxNameLength) + r3;
    assert EncodeRange(r, limits) + suffix == EncodeText(r.minimum.raw, limits.maxNameLength) + r2;
    TakeEncodedText(r.minimum.raw, limits.maxNameLength, r2);
    TakeEncodedText(r.maximum.raw, limits.maxNameLength, r3);
    TakeEncodedUint(flag, 1, suffix);
  }

  lemma FlatRoundTrip(v: Value, suffix: seq<byte>, limits: Limits)
    requires WireLimits(limits) && IsFlat(v) && BoundedValue(v, limits)
    ensures DecodeFlat(ValueCode(v), EncodeFlat(v, limits) + suffix, limits) == Got(v, suffix)
  {
    if v.Count? || v.Enumeration? || v.Relationship? {
      NamedRoundTrip(v, suffix, limits);
    } else if v.FeatureSet? || v.ArchitectureSet? || v.VersionRange? {
      SetRoundTrip(v, suffix, limits);
    } else {
      NumericRoundTrip(v, suffix, limits);
    }
  }

  lemma NamedRoundTrip(v: Value, suffix: seq<byte>, limits: Limits)
    requires WireLimits(limits) && BoundedValue(v, limits) && (v.Count? || v.Enumeration? || v.Relationship?)
    ensures DecodeFlat(ValueCode(v), EncodeFlat(v, limits) + suffix, limits) == Got(v, suffix)
  {
    hide Encode, EncodeText, TakeUint, TakeText;
    Widths();
    match v
    case Count(n, unit) =>
      var r := EncodeText(unit, limits.maxNameLength) + suffix;
      assert EncodeFlat(v, limits) + suffix == Encode(n, 8) + r;
      TakeEncodedUint(n, 8, r);
      TakeEncodedText(unit, limits.maxNameLength, suffix);
    case Enumeration(domain, token) =>
      var r := EncodeText(token, limits.maxNameLength) + suffix;
      assert EncodeFlat(v, limits) + suffix == EncodeText(domain, limits.maxNameLength) + r;
      TakeEncodedText(domain, limits.maxNameLength, r);
      TakeEncodedText(token, limits.maxNameLength, suffix);
    case Relationship(relation, target) =>
      var r := EncodeText(target, MaxTokenLength) + suffix;
      assert EncodeFlat(v, limits) + suffix == Encode(relation, 2) + r;
      TakeEncodedUint(relation, 2, r);
      TakeEncodedText(target, MaxTokenLength, suffix);
  }

  lemma SetRoundTrip(v: Value, suffix: seq<byte>, limits: Limits)
    requires WireLimits(limits) && BoundedValue(v, limits) && (v.FeatureSet? || v.ArchitectureSet? || v.VersionRange?)
    ensures DecodeFlat(ValueCode(v), EncodeFlat(v, limits) + suffix, limits) == Got(v, suffix)
  {
    hide EncodeList, EncodeRange, TakeList, TakeRange, V.Parse;
    match v
    case FeatureSet(features) => ListRoundTrip(features, limits.maxFeatureEntries, limits.maxMetadataBytes, suffix);
    case VersionRange(range) => RangeRoundTrip(range, suffix, limits);
    case ArchitectureSet(ids) =>
      ListRoundTrip(ids, limits.maxArchitectureEntries, MaxTokenLength, suffix);
      assert IdsOf(ids) == ids;
  }

  lemma NumericRoundTrip(v: Value, suffix: seq<byte>, limits: Limits)
    requires WireLimits(limits) && BoundedValue(v, limits)
    requires v.NoValue? || v.Boolean? || v.Bytes? || v.Rate? || v.Bandwidth? || v.Latency? || v.NumericRange?
    ensures DecodeFlat(ValueCode(v), EncodeFlat(v, limits) + suffix, limits) == Got(v, suffix)
  {
    hide Encode, TakeUint;
    Widths();
    match v
    case NoValue => assert EncodeFlat(v, limits) + suffix == suffix;
    case Boolean(flag) => TakeEncodedUint(if flag then 1 else 0, 1, suffix);
    case Bytes(n) => TakeEncodedUint(n, 8, suffix);
    case Rate(n, unit) => TwoUints(n, unit, suffix);
    case Bandwidth(n, unit) => TwoUints(n, unit, suffix);
    case Latency(rank) => TakeEncodedUint(rank, 2, suffix);
    case NumericRange(low, high, step) =>
      var r := Encode(ToU64(high), 8) + (Encode(ToU64(step), 8) + suffix);
      assert EncodeFlat(v, limits) + suffix == Encode(ToU64(low), 8) + r;
      TakeEncodedUint(ToU64(low), 8, r);
      TakeEncodedUint(ToU64(high), 8, Encode(ToU64(step), 8) + suffix);
      TakeEncodedUint(ToU64(step), 8, suffix);
  }

  lemma TwoUints(n: nat, unit: nat, suffix: seq<byte>)
    requires n <= MaxU64 && unit < 0x1_0000
    ensures var bs := Encode(n, 8) + Encode(unit, 2) + suffix;
            TakeUint(bs, 8) == Got(n, Encode(unit, 2) + suffix) && TakeUint(Encode(unit, 2) + suffix, 2) == Got(unit, suffix)
  {
    hide Encode, TakeUint;
    Widths();
    assert Encode(n, 8) + Encode(unit, 2) + suffix == Encode(n, 8) + (Encode(unit, 2) + suffix);
    TakeEncodedUint(n, 8, Encode(unit, 2) + suffix);
    TakeEncodedUint(unit, 2, suffix);
  }

  /** Within its bounds a value is read back equal, consuming exactly what was written, if and only if its total nesting fits the decoder. */
  lemma {:induction false} ValueRoundTrip(v: Value, depth: nat, suffix: seq<byte>, limits: Limits)
    requires WireLimits(limits) && BoundedValue(v, limits)
    ensures DecodeValue(EncodeValue(v, limits) + suffix, depth, limits) ==
            if ValueWithinDepth(v, depth, limits) then Got(v, suffix) else Fail
    decreases v, 2
  {
    hide EncodeValue, DecodeValue, ValueWithinDepth;
    if v.Record? {
      RecordRoundTrip(v, depth, suffix, limits);
    } else if v.Predicate? {
      PredicateRoundTrip(v, depth, suffix, limits);
    } else {
      FlatValueRoundTrip(v, depth, suffix, limits);
    }
  }

  lemma FlatValueRoundTrip(v: Value, depth: nat, suffix: seq<byte>, limits: Limits)
    requires WireLimits(limits) && BoundedValue(v, limits) && IsFlat(v)
    ensures DecodeValue(EncodeValue(v, limits) + suffix, depth, limits) ==
            if ValueWithinDepth(v, depth, limits) then Got(v, suffix) else Fail
  {
    hide Encode, EncodeFlat, TakeUint, DecodeFlat, DecodeCondition, DecodeFields;
    Widths();
    var body := EncodeFlat(v, limits) + suffix;
    assert EncodeValue(v, limits) + suffix == Encode(ValueCode(v), 2) + body;
    TakeEncodedUint(ValueCode(v), 2, body);
    FlatRoundTrip(v, suffix, limits);
  }

  lemma PredicateRoundTrip(v: Value, depth: nat, suffix: seq<byte>, limits: Limits)
    requires WireLimits(limits) && v.Predicate? && Bounded(v.condition, limits)
    ensures DecodeValue(EncodeValue(v, limits) + suffix, depth, limits) ==
            if ValueWithinDepth(v, depth, limits) then Got(v, suffix) else Fail
  {
    hide Encode, EncodeCondition, Bounded, TakeUint, DecodeFlat, DecodeCondition, DecodeFields, WithinDepth;
    Widths();
    var body := EncodeCondition(v.condition, limits) + suffix;
    assert EncodeValue(v, limits) + suffix == Encode(ValueCode(v), 2) + body;
    TakeEncodedUint(ValueCode(v), 2, body);
    ConditionRoundTrip(v.condition, depth + 1, suffix, limits);
  }

  lemma {:induction false} RecordRoundTrip(v: Value, depth: nat, suffix: seq<byte>, limits: Limits)
    requires WireLimits(limits) && BoundedValue(v, limits) && v.Record?
    ensures DecodeValue(EncodeValue(v, limits) + suffix, depth, limits) ==
            if ValueWithinDepth(v, depth, limits) then Got(v, suffix) else Fail
    decreases v, 1
  {
    hide Encode, EncodeFields, TakeUint, DecodeFields, DecodeFlat, DecodeCondition;
    Widths();
    var n := |v.fields|;
    var body := EncodeFields(v.fields, n, limits) + suffix;
    assert EncodeValue(v, limits) + suffix == Encode(ValueCode(v), 2) + (Encode(n, 4) + body);
    TakeEncodedUint(ValueCode(v), 2, Encode(n, 4) + body);
    TakeEncodedUint(n, 4, body);
    EveryFieldTakesAByte(v.fields, n, limits);
    FieldsRoundTrip(v.fields, n, depth + 1, suffix, limits);
    assert v.fields[..n] == v.fields;
  }

  lemma {:induction false} EveryFieldTakesAByte(fields: seq<Field>, n: nat, limits: Limits)
    requires n <= |fields| && RepresentableFields(fields)
    ensures |EncodeFields(fields, n, limits)| >= n
  {
    if n > 0 { EveryFieldTakesAByte(fields, n - 1, limits); }
  }

  lemma {:induction false} FieldsRoundTrip(fields: seq<Field>, n: nat, depth: nat, suffix: seq<byte>, limits: Limits)
    requires WireLimits(limits) && n <= |fields| && RepresentableFields(fields)
    requires forall i :: 0 <= i < |fields| ==> BoundedField(fields[i], limits)
    ensures DecodeFields(EncodeFields(fields, n, limits) + suffix, n, depth, limits) ==
            if forall i :: 0 <= i < n ==> FieldWithinDepth(fields[i], depth, limits) then Got(fields[..n], suffix) else Fail
    decreases fields, 0, n
  {
    hide EncodeField, DecodeField, BoundedField, FieldWithinDepth;
    if n == 0 {
      assert EncodeFields(fields, n, limits) + suffix == suffix;
    } else {
      var last := EncodeField(fields[n - 1], limits);
      assert EncodeFields(fields, n, limits) + suffix == EncodeFields(fields, n - 1, limits) + (last + suffix);
      FieldsRoundTrip(fields, n - 1, depth, last + suffix, limits);
      FieldRoundTrip(fields[n - 1], depth, suffix, limits);
      assert fields[..n - 1] + [fields[n - 1]] == fields[..n];
    }
  }

  lemma {:induction false} FieldRoundTrip(f: Field, depth: nat, suffix: seq<byte>, limits: Limits)
    requires WireLimits(limits) && BoundedField(f, limits)
    ensures DecodeField(EncodeField(f, limits) + suffix, depth, limits) ==
            if FieldWithinDepth(f, depth, limits) then Got(f, suffix) else Fail
    decreases f, 0
  {
    hide Encode, EncodeText, EncodeValue, TakeUint, TakeText, DecodeValue, BoundedValue, ValueWithinDepth;
    Widths();
    if f.Missing? {
      assert EncodeField(f, limits) + suffix == EncodeText(f.name, limits.maxNameLength) + (Encode(0, 1) + suffix);
      TakeEncodedText(f.name, limits.maxNameLength, Encode(0, 1) + suffix);
      TakeEncodedUint(0, 1, suffix);
    } else {
      var rest := EncodeValue(f.value, limits) + suffix;
      assert EncodeField(f, limits) + suffix == EncodeText(f.name, limits.maxNameLength) + (Encode(1, 1) + rest);
      TakeEncodedText(f.name, limits.maxNameLength, Encode(1, 1) + rest);
      TakeEncodedUint(1, 1, rest);
      ValueRoundTrip(f.value, depth, suffix, limits);
    }
  }

  // ---- the value writer and reader ----------------------------------------------------------

  method WriteList(writer: ByteWriter, ts: seq<Text>, bound: nat, max: nat)
    modifies writer
    ensures writer.out == old(writer.out) + EncodeList(ts, bound, max)
    ensures (forall i :: 0 <= i < |ts| ==> |ts[i]| <= max) ==> writer.truncated == old(writer.truncated)
  {
    hide Encode, EncodeText;
    var n := Min(|ts|, bound);
    writer.Uint(n, 4);
    ghost var front := writer.out;
    for i := 0 to n
      invariant writer.out == front + EncodeTexts(ts, i, max)
      invariant (forall k :: 0 <= k < |ts| ==> |ts[k]| <= max) ==> writer.truncated == old(writer.truncated)
    {
      writer.Str(ts[i], max);
    }
  }

  method WriteRange(writer: ByteWriter, r: V.Range, limits: Limits)
    modifies writer
    ensures writer.out == old(writer.out) + EncodeRange(r, limits)
    ensures |r.minimum.raw| <= limits.maxNameLength && |r.maximum.raw| <= limits.maxNameLength ==>
              writer.truncated == old(writer.truncated)
  {
    hide Encode, EncodeText;
    writer.Str(r.minimum.raw, limits.maxNameLength);
    writer.Str(r.maximum.raw, limits.maxNameLength);
    writer.Uint(if r.includeMaximum then 1 else 0, 1);
  }

  method WriteFlat(writer: ByteWriter, v: Value, limits: Limits)
    requires IsFlat(v) && Representable(v)
    modifies writer
    ensures writer.out == old(writer.out) + EncodeFlat(v, limits)
    ensures BoundedValue(v, limits) ==> writer.truncated == old(writer.truncated)
  {
    hide Encode, EncodeText, EncodeList, EncodeRange, V.Parse;
    match v {
      case NoValue =>
      case Boolean(flag) =>
        writer.Uint(if flag then 1 else 0, 1);
      case Count(n, unit) =>
        writer.Uint(n, 8);
        writer.Str(unit, limits.maxNameLength);
      case Bytes(n) =>
        writer.Uint(n, 8);
      case Rate(n, unit) =>
        writer.Uint(n, 8);
        writer.Uint(unit, 2);
      case Bandwidth(n, unit) =>
        writer.Uint(n, 8);
        writer.Uint(unit, 2);
      case Latency(rank) =>
        writer.Uint(rank, 2);
      case Enumeration(domain, token) =>
        writer.Str(domain, limits.maxNameLength);
        writer.Str(token, limits.maxNameLength);
      case FeatureSet(features) =>
        WriteList(writer, features, limits.maxFeatureEntries, limits.maxMetadataBytes);
      case VersionRange(range) =>
        WriteRange(writer, range, limits);
      case ArchitectureSet(ids) =>
        WriteList(writer, ids, limits.maxArchitectureEntries, MaxTokenLength);
      case NumericRange(low, high, step) =>
        writer.Uint(ToU64(low), 8);
        writer.Uint(ToU64(high), 8);
        writer.Uint(ToU64(step), 8);
      case Relationship(relation, target) =>
        writer.Uint(relation, 2);
        writer.Str(target, MaxTokenLength);
    }
  }

  method WriteField(writer: ByteWriter, f: Field, limits: Limits)
    requires f.Field? ==> Representable(f.value)
    modifies writer
    ensures writer.out == old(writer.out) + EncodeField(f, limits)
    ensures BoundedField(f, limits) ==> writer.truncated == old(writer.truncated)
    decreases f, 0
  {
    hide Encode, EncodeText, EncodeValue, BoundedValue;
    writer.Str(f.name, limits.maxNameLength);
    if f.Missing? {
      writer.Uint(0, 1);
    } else {
      writer.Uint(1, 1);
      WriteValue(writer, f.value, limits);
    }
  }

  method WriteValue(writer: ByteWriter, v: Value, limits: Limits)
    requires Representable(v)
    modifies writer
    ensures writer.out == old(writer.out) + EncodeValue(v, limits)
    ensures BoundedValue(v, limits) ==> writer.truncated == old(writer.truncated)
    decreases v, 1
  {
    hide Encode, EncodeFlat, EncodeField, EncodeCondition, BoundedField;
    writer.Uint(ValueCode(v), 2);
    match v {
      case Record(fields) =>
        var n := Min(|fields|, limits.maxRecordFields);
        writer.Uint(n, 4);
        ghost var front := writer.out;
        for i := 0 to n
          invariant writer.out == front + EncodeFields(fields, i, limits)
          invariant BoundedValue(v, limits) ==> writer.truncated == old(writer.truncated)
        {
          WriteField(writer, fields[i], limits);
        }
      case Predicate(condition) =>
        WriteCondition(writer, condition, limits);
      case _ =>
        WriteFlat(writer, v, limits);
    }
  }

  method ReadList(reader: ByteReader, bound: nat, max: nat) returns (ts: seq<Text>)
    requires reader.Valid() && reader.ok
    modifies reader
    ensures reader.Valid() && reader.After(TakeList(old(reader.Rest()), bound, max), ts)
  {
    hide TakeUint, TakeText;
    ts := [];
    var n := reader.Uint(4);
    if !reader.ok { return; }
    if n > bound || n > |reader.data| - reader.position {
      reader.Fail();
      return;
    }
    ghost var start := reader.Rest();
    for i := 0 to n
      invariant reader.Valid() && reader.After(DecodeTexts(start, i, max), ts)
    {
      var text := reader.Str(max);
      ts := ts + [text];
    }
  }

  method ReadRange(reader: ByteReader, limits: Limits) returns (r: V.Range)
    requires reader.Valid() && reader.ok
    modifies reader
    ensures reader.Valid() && reader.After(TakeRange(old(reader.Rest()), limits), r)
  {
    hide TakeUint, TakeText, V.Parse;
    var low := reader.Str(limits.maxNameLength);
    var minimum := V.ParseVersion(low);
    var high := reader.Str(limits.maxNameLength);
    var maximum := V.ParseVersion(high);
    var flag := reader.Boolean();
    r := V.Range(minimum, maximum, flag);
  }

  method ReadFlat(reader: ByteReader, code: nat, limits: Limits) returns (v: Value)
    requires reader.Valid() && reader.ok && code <= 14 && code != RecordCode && code != PredicateCode
    modifies reader
    ensures reader.Valid() && reader.After(DecodeFlat(code, old(reader.Rest()), limits), v)
  {
    hide TakeUint, TakeText, TakeList, TakeRange, IsCanonicalToken;
    v := NoValue;
    match code {
      case 0 =>
      case 1 =>
        var flag := reader.Boolean();
        v := Boolean(flag);
      case 2 =>
        var n := reader.Uint(8);
        var unit := reader.Str(limits.maxNameLength);
        v := Count(n, unit);
      case 3 =>
        var n := reader.Uint(8);
        v := Bytes(n);
      case 4 =>
        var n := reader.Uint(8);
        var unit := reader.Uint(2);
        if unit > LastRateUnit { reader.Fail(); } else { v := Rate(n, unit); }
      case 5 =>
        var n := reader.Uint(8);
        var unit := reader.Uint(2);
        if unit > LastBandwidthUnit { reader.Fail(); } else { v := Bandwidth(n, unit); }
      case 6 =>
        var rank := reader.Uint(2);
        if rank > LastLatencyClass { reader.Fail(); } else { v := Latency(rank); }
      case 7 =>
        var domain := reader.Str(limits.maxNameLength);
        var token := reader.Str(limits.maxNameLength);
        v := Enumeration(domain, token);
      case 8 =>
        var features := ReadList(reader, limits.maxFeatureEntries, limits.maxMetadataBytes);
        v := FeatureSet(features);
      case 9 =>
        var range := ReadRange(reader, limits);
        v := VersionRange(range);
      case 10 =>
        var ids := ReadList(reader, limits.maxArchitectureEntries, MaxTokenLength);
        v := ArchitectureSet(IdsOf(ids));
      case 11 =>
        var low := reader.Uint(8);
        var high := reader.Uint(8);
        var step := reader.Uint(8);
        v := NumericRange(FromU64(low), FromU64(high), FromU64(step));
      case _ =>
        var relation := reader.Uint(2);
        if relation > LastRelation {
          reader.Fail();
          return;
        }
        var target := reader.Str(MaxTokenLength);
        v := Relationship(relation, IdOf(target));
    }
  }

  method ReadField(reader: ByteReader, depth: nat, limits: Limits) returns (f: Field)
    requires reader.Valid() && reader.ok
    modifies reader
    ensures reader.Valid() && reader.After(DecodeField(old(reader.Rest()), depth, limits), f)
    decreases ValueLevels(depth, limits), 2
  {
    hide TakeUint, TakeText, DecodeValue;
    var name := reader.Str(limits.maxNameLength);
    f := Missing(name);
    var present := reader.U8();
    if !reader.ok { return; }
    if present == 1 {
      var value := ReadValue(reader, depth, limits);
      if reader.ok { f := Field(name, value); }
    } else if present != 0 {
      reader.Fail();
    }
  }

  method ReadValue(reader: ByteReader, depth: nat, limits: Limits) returns (v: Value)
    requires reader.Valid() && reader.ok
    modifies reader
    ensures reader.Valid() && reader.After(DecodeValue(old(reader.Rest()), depth, limits), v)
    decreases ValueLevels(depth, limits), 1
  {
    hide TakeUint, DecodeFlat, DecodeField, DecodeCondition;
    v := NoValue;
    var code := reader.Uint(2);
    if !reader.ok { return; }
    if code > 14 || depth > limits.maxRecordDepth {
      reader.Fail();
      return;
    }
    if code == RecordCode {
      var n := reader.Uint(4);
      if !reader.ok { return; }
      if n > limits.maxRecordFields || n > |reader.data| - reader.position {
        reader.Fail();
        return;
      }
      ghost var start := reader.Rest();
      var fields: seq<Field> := [];
      for i := 0 to n
        invariant reader.Valid() && reader.ok
        invariant DecodeFields(start, i, depth + 1, limits) == Got(fields, reader.Rest())
      {
        var field := ReadField(reader, depth + 1, limits);
        if !reader.ok {
          DecodeFieldsFail(start, i + 1, n, depth + 1, limits);
          return;
        }
        fields := fields + [field];
      }
      v := Record(fields);
    } else if code == PredicateCode {
      var condition := ReadCondition(reader, depth + 1, limits);
      v := Predicate(condition);
    } else {
      v := ReadFlat(reader, code, limits);
    }
  }

  lemma {:induction false} DecodeFieldsFail(bs: seq<byte>, m: nat, n: nat, depth: nat, limits: Limits)
    requires m <= n && DecodeFields(bs, m, depth, limits).Fail?
    ensures DecodeFields(bs, n, depth, limits).Fail?
    decreases n - m
  {
    hide DecodeField;
    if m < n { DecodeFieldsFail(bs, m, n - 1, depth, limits); }
  }
}
