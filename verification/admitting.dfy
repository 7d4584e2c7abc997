// How a capability record is admitted (src/registry.cpp:844-870, 1348-1515): the
// reply, the capability generation it is given, and what its key becomes.
module Admitting {
  import opened Basics
  import C = Conditions
  import opened Model
  import opened Steps
  import opened Eviction
  import opened Invariants
  import opened Admission
  import opened Evidence

  // ---- whose claim new evidence may join ---------------------------------------------------

  /** No larger authority; if equal there, no smaller publisher; if there too, no later observation. */
  predicate NoHigher(r: Record, w: Record) {
    var x, y := r.source, w.source;
    && Authority(x.sourceClass) <= Authority(y.sourceClass)
    && (Authority(x.sourceClass) == Authority(y.sourceClass) ==>
          && x.publisher.id >= y.publisher.id
          && (x.publisher.id == y.publisher.id ==> x.observationSequence <= y.observationSequence))
  }

  predicate Level(r: Record, w: Record) {
    && Authority(r.source.sourceClass) == Authority(w.source.sourceClass) && r.source.publisher.id == w.source.publisher.id
    && r.source.observationSequence == w.source.observationSequence
  }

  /** The first of the current records that no other is higher than. */
  predicate Leads(s: State, records: seq<Stored>, d: Device, i: nat)
    requires i < |records|
  {
    && Current(s, records[i], d, d.generation)
    && forall j :: 0 <= j < |records| && Current(s, records[j], d, d.generation) ==>
         NoHigher(records[j].record, records[i].record) && (Level(records[j].record, records[i].record) ==> i <= j)
  }

  lemma OutranksIff(a: Record, b: Record)
    ensures Outranks(a, b) <==> !NoHigher(a, b)
    ensures NoHigher(b, a) <==> Outranks(a, b) || Level(a, b)
    ensures NoHigher(a, a) && Level(a, a) && (Level(a, b) ==> NoHigher(a, b))
  {
    hide Authority;
  }

  lemma NoHigherTransitive(a: Record, b: Record, c: Record)
    requires NoHigher(a, b) && NoHigher(b, c)
    ensures NoHigher(a, c) && (Level(a, c) ==> Level(b, c))
  {
    hide Authority;
  }

  lemma {:induction false} WinnerLeads(s: State, records: seq<Stored>, d: Device) returns (i: nat)
    ensures CurrentWinner(s, records, d) == None <==> forall st :: st in records ==> !Current(s, st, d, d.generation)
    ensures CurrentWinner(s, records, d).Some? ==>
      i < |records| && records[i] == CurrentWinner(s, records, d).value && Leads(s, records, d, i)
    decreases |records|
  {
    hide Current, NoHigher, Level, Outranks;
    i := 0;
    if records != [] {
      var n := |records| - 1;
      var front := records[..n];
      i := WinnerLeads(s, front, d);
      assert records == front + [records[n]];
      assert forall j :: 0 <= j < n ==> front[j] == records[j];
      OutranksIff(records[n].record, records[n].record);
      if CurrentWinner(s, front, d).Some? {
        if Current(s, records[n], d, d.generation) { LeadsOfTwo(s, records, d, i); }
        if CurrentWinner(s, records, d) != CurrentWinner(s, front, d) { i := n; }
      } else if CurrentWinner(s, records, d).Some? {
        i := n;
        forall j | 0 <= j < n ensures !Current(s, records[j], d, d.generation) { assert front[j] in front; }
      }
    }
  }

  lemma LeadsOfTwo(s: State, records: seq<Stored>, d: Device, w: nat)
    requires records != [] && w < |records| - 1 && Leads(s, records[..|records| - 1], d, w)
    requires Current(s, records[|records| - 1], d, d.generation)
    ensures var n := |records| - 1; Leads(s, records, d, if Outranks(records[n].record, records[w].record) then n else w)
  {
    hide Current, NoHigher, Level, Outranks;
    var n := |records| - 1;
    var front := records[..n];
    assert forall j :: 0 <= j < n ==> front[j] == records[j];
    OutranksIff(records[n].record, records[w].record);
    OutranksIff(records[n].record, records[n].record);
    forall j | 0 <= j < n && Current(s, records[j], d, d.generation)
      ensures Outranks(records[n].record, records[w].record) ==>
        NoHigher(records[j].record, records[n].record) && !Level(records[j].record, records[n].record)
    {
      assert NoHigher(front[j].record, front[w].record);
      OutranksIff(records[w].record, records[n].record);
      if Outranks(records[n].record, records[w].record) {
        NoHigherTransitive(records[j].record, records[w].record, records[n].record);
      }
    }
  }

  // ---- the generation ---------------------------------------------------------------------------

  /** The key before the record arrives. */
  function KeyFor(s: State, r: Record): Key {
    if (r.device, r.capability) in s.keys then s.keys[(r.device, r.capability)] else Key(r.schema, 0, false, [])
  }

  /** They make one claim: support, value by kind and meaning, rendering of the conditions, and device generation. */
  predicate OneClaimOf(a: Record, b: Record) {
    && a.support == b.support && (a.value.Value? <==> b.value.Value?)
    && (a.value.Value? && b.value.Value? ==> a.value.kind == b.value.kind && a.value.meaning == b.value.meaning)
    && C.Describe(a.conditions) == C.Describe(b.conditions)
    && a.deviceGeneration == b.deviceGeneration
  }

  /** A record joins the generation of the leading current claim when it makes the same, and otherwise opens the next one. */
  ghost predicate Assigned(s: State, r: Record, generation: nat)
    requires r.device in s.devices
  {
    var d, key := s.devices[r.device], KeyFor(s, r);
    if exists i :: 0 <= i < |key.records| && Leads(s, key.records, d, i) && OneClaimOf(key.records[i].record, r) then
      exists i :: 0 <= i < |key.records| && Leads(s, key.records, d, i) && generation == key.records[i].record.capabilityGeneration
    else generation == key.generation + 1
  }

  lemma OneLeads(s: State, records: seq<Stored>, d: Device, i: nat, j: nat)
    requires i < |records| && j < |records| && Leads(s, records, d, i) && Leads(s, records, d, j)
    ensures i == j
  {
    hide Current, Authority;
    assert NoHigher(records[i].record, records[j].record) && NoHigher(records[j].record, records[i].record);
  }

  lemma AssignIsAssigned(s: State, r: Record, d: Device)
    requires r.device in s.devices && d == s.devices[r.device] && KeyOk(KeyFor(s, r), s.nextSerial)
    ensures Assigned(s, r, AssignGeneration(KeyFor(s, r), CurrentWinner(s, KeyFor(s, r).records, d), Bind(r, d)))
  {
    hide Leads, CurrentWinner, C.Describe, Current, Ordered, OneClaim;
    var key := KeyFor(s, r);
    var i := WinnerLeads(s, key.records, d);
    var w := CurrentWinner(s, key.records, d);
    if w.Some? {
      assert key.records[i] in key.records;
      forall j | 0 <= j < |key.records| && Leads(s, key.records, d, j) ensures j == i { OneLeads(s, key.records, d, i, j); }
    } else {
      forall j | 0 <= j < |key.records| ensures !Leads(s, key.records, d, j) {
        assert key.records[j] in key.records;
        if Leads(s, key.records, d, j) { LeadsIsCurrent(s, key.records, d, j); }
      }
    }
  }

  lemma LeadsIsCurrent(s: State, records: seq<Stored>, d: Device, i: nat)
    requires i < |records| && Leads(s, records, d, i)
    ensures Current(s, records[i], d, d.generation)
  {}

  // ---- the reply -----------------------------------------------------------------------------------

  /** The newest record of the sender's slot says the same under the same generations, and neither withdraws anything. */
  predicate SaysTheSame(records: seq<Stored>, r: Record, d: Device) {
    exists i :: 0 <= i < |records| && IsLastOf(records, i, LiveSlot(r.source.publisher.id, r.source.publisher.boot, r.source.sourceClass))
      && !r.withdrawn && !records[i].record.withdrawn && OneClaimOf(records[i].record, r)
      && records[i].record.driverGeneration == d.software.driverGeneration
      && records[i].record.firmwareGeneration == d.software.firmwareGeneration
      && records[i].record.runtimeGeneration == d.software.runtimeGeneration
  }

  predicate IsLastOf(records: seq<Stored>, i: nat, slot: Slot)
    requires i < |records|
  {
    records[i].slot == slot && forall j :: 0 <= j < |records| && records[j].slot == slot ==> records[j].serial <= records[i].serial
  }

  lemma {:induction false} LatestIsLastOf(records: seq<Stored>, slot: Slot) returns (i: nat)
    ensures Latest(records, slot) == None <==> forall st :: st in records ==> st.slot != slot
    ensures Latest(records, slot).Some? ==> i < |records| && records[i] == Latest(records, slot).value && IsLastOf(records, i, slot)
  {
    i := 0;
    if records != [] {
      var n := |records| - 1;
      var front := records[..n];
      i := LatestIsLastOf(front, slot);
      assert records == front + [records[n]];
      assert forall j :: 0 <= j < n ==> front[j] == records[j];
      if Latest(records, slot) != Latest(front, slot) { i := n; }
    }
  }

  lemma RepeatsIff(records: seq<Stored>, r: Record, d: Device)
    requires Ordered(records)
    ensures Repeats(Latest(records, SlotOf(Bind(r, d))), Bind(r, d)) <==> SaysTheSame(records, r, d)
  {
    hide C.Describe;
    var slot := SlotOf(Bind(r, d));
    var i := LatestIsLastOf(records, slot);
    if Latest(records, slot).Some? {
      forall j | 0 <= j < |records| && IsLastOf(records, j, slot) ensures j == i {
        assert records[j].serial == records[i].serial;
      }
    } else {
      forall j | 0 <= j < |records| ensures records[j].slot != slot { assert records[j] in records; }
    }
  }

  /** There is no room for another key. */
  predicate NoKeyLeft(s: State, r: Record) {
    && (r.device, r.capability) !in s.keys
    && (|s.keys| >= s.config.limits.maxEvidenceHistory ||
        (r.device in s.deviceKeys && |s.deviceKeys[r.device]| >= s.config.limits.maxCapabilitiesPerDevice) ||
        s.config.limits.maxCapabilitiesPerDevice == 0)
  }

  /** Why a record is refused before it is compared with what is stored, checked in this order. */
  function Refusal(s: State, r: Record): Option<Code> {
    if r.schema !in s.config.schemas || s.config.schemas[r.schema].capability != r.capability then Some(RejectedUnknownSchema)
    else if r.value.Value? && r.value.kind != s.config.schemas[r.schema].valueKind then Some(RejectedValidation)
    else if !r.value.Value? && r.support !in {Unsupported, Unknown, RevalidationRequired} then Some(RejectedValidation)
    else if r.device !in s.devices then Some(RejectedUnknownDevice)
    else if r.deviceGeneration != s.devices[r.device].generation || r.deviceBoot != s.devices[r.device].boot then
      Some(RejectedStaleDeviceGeneration)
    else if NoKeyLeft(s, r) then Some(RejectedLimit)
    else if KeyFor(s, r).schema != r.schema then Some(RejectedValidation)
    else if KeyFor(s, r).generation != 0 && 1 <= r.capabilityGeneration <= KeyFor(s, r).generation then
      Some(RejectedStaleCapabilityGeneration)
    else if KeyFor(s, r).generation == 0 && r.capabilityGeneration >= 2 then Some(RejectedStaleCapabilityGeneration)
    else None
  }

  lemma EnsuredKey(s: State, r: Record)
    ensures var (ready, refused) := EnsureKey(s, r);
      && (refused == None <==> !NoKeyLeft(s, r)) && (refused != None ==> refused == Some(RejectedLimit))
      && (refused == None ==> IdOf(r) in ready.keys && ready.keys == s.keys[IdOf(r) := KeyFor(s, r)])
      && (refused != None ==> ready.keys == s.keys)
      && ready == s.(keys := ready.keys, deviceKeys := ready.deviceKeys)
  {}

  lemma KeyRejectionIs(key: Key, r: Record)
    ensures KeyRejection(key, r) ==
      if key.schema != r.schema then Some(RejectedValidation)
      else if key.generation != 0 && 1 <= r.capabilityGeneration <= key.generation then Some(RejectedStaleCapabilityGeneration)
      else if key.generation == 0 && r.capabilityGeneration >= 2 then Some(RejectedStaleCapabilityGeneration)
      else None
  {}

  /** Before a record is admitted its key exists as it was, or empty. */
  ghost function Ready(s: State, r: Record): State { EnsureKey(s, r).0 }

  lemma RefusedOrAdmitted(s: State, r: Record)
    ensures match Refusal(s, r)
      case Some(code) => ApplyCapability(s, r).reply == Plain(code)
      case None =>
        && r.device in s.devices && !NoKeyLeft(s, r) && IdOf(r) in Ready(s, r).keys
        && Ready(s, r).keys == s.keys[IdOf(r) := KeyFor(s, r)] && Ready(s, r).devices == s.devices
        && ApplyCapability(s, r) == Admit(Ready(s, r), r)
  {
    hide Admit, EnsureKey, NoKeyLeft, KeyFor, KeyRejection;
    EnsuredKey(s, r);
    KeyRejectionIs(KeyFor(s, r), r);
  }

  // ---- the whole operation ------------------------------------------------------------------------

  lemma {:induction false} CurrentWinnerDependsOn(s: State, t: State, records: seq<Stored>, d: Device)
    requires s.publishers == t.publishers && s.epoch == t.epoch
    ensures CurrentWinner(s, records, d) == CurrentWinner(t, records, d)
  {
    hide C.Mentions, IsDurable;
    if records != [] {
      CurrentWinnerDependsOn(s, t, records[..|records| - 1], d);
      var last := records[|records| - 1];
      assert forall f: Flag :: HasFlag(s, last, d, d.generation, f) <==> HasFlag(t, last, d, d.generation, f);
    }
  }

  /** The record is stored as the newest of its slot, under generation `g`, which its key now covers. */
  ghost predicate StoredUnder(t: State, r: Record, d: Device, before: Key, g: nat) {
    && IdOf(r) in t.keys
    && (exists stored :: StoredAs(r, d, stored) && stored.capabilityGeneration == g && HoldsRecord(t, stored))
    && t.keys[IdOf(r)].generation == (if g > before.generation then g else before.generation)
    && t.keys[IdOf(r)].schema == before.schema
  }

  lemma AdmitStores(s: State, r: Record)
    requires Inv(s) && IdOf(r) in s.keys && Admissible(s, r) && s.keys[IdOf(r)].schema == r.schema
    requires Admit(s, r).reply.code == Accepted
    ensures var d, key := s.devices[r.device], s.keys[IdOf(r)];
      StoredUnder(Admit(s, r).state, r, d, key, AssignGeneration(key, CurrentWinner(s, key.records, d), Bind(r, d)))
  {
    hide Inv, Grows, RecordOk, MakeRoom, CurrentWinner, Latest, Repeats, KeyOk, ValidRecord, UnderSchema, AssignGeneration, Fits, HoldsRecord;
    KnowledgeWas(s);
    KeyWasOk(s, IdOf(r));
    var d, key := s.devices[r.device], s.keys[IdOf(r)];
    var bound := Bind(r, d);
    var g := AssignGeneration(key, CurrentWinner(s, key.records, d), bound);
    var record := bound.(capabilityGeneration := g);
    AssignedGenerationFits(s, key, bound, d);
    var raised := s.(keys := s.keys[IdOf(r) := Raise(key, g)]);
    RaiseKeeps(s, IdOf(r), Raise(key, g));
    BoundRecordOk(s, r, g);
    SameRecordOk(s, raised, IdOf(r), record);
    MakeRoomHolds(raised, record);
    MakeRoomKeepsKey(raised, record);
    GenerationIsPositive(key, CurrentWinner(s, key.records, d), bound);
    assert StoredAs(r, d, record);
  }

  lemma GenerationIsPositive(key: Key, winner: Option<Stored>, r: Record)
    ensures AssignGeneration(key, winner, r) >= 1
  {
    hide SameContent;
  }

  lemma MakeRoomKeepsKey(s: State, r: Record)
    requires Inv(s) && IdOf(r) in s.keys && RecordOk(s, IdOf(r), r) && Fits(s.keys[IdOf(r)], r)
    ensures var t := MakeRoom(s, r).state;
      IdOf(r) in t.keys && t.keys[IdOf(r)].generation == s.keys[IdOf(r)].generation && t.keys[IdOf(r)].schema == s.keys[IdOf(r)].schema
  {
    hide Inv, Grows, Fits, RecordOk, EvictIfNeeded, Thinned;
    var max := s.config.limits.maxEvidenceHistory;
    var room := if s.evidenceCount >= max then EvictIfNeeded(s) else s;
    if s.evidenceCount >= max {
      EvictKeeps(s);
      FitsAfterEviction(s, room, r);
      SameRecordOk(s, room, IdOf(r), r);
    }
    if room.evidenceCount < max {
      StoreKeeps(room, r);
      EvictKeeps(Store(room, r));
    }
  }

  /** What admitting replies. */
  lemma AdmitReplies(s: State, r: Record)
    requires Inv(s) && IdOf(r) in s.keys && r.device in s.devices
    ensures var o := Admit(s, r);
      && (SaysTheSame(s.keys[IdOf(r)].records, r, s.devices[r.device]) ==> o == Outcome(s, Plain(AcceptedIdempotent)))
      && (!SaysTheSame(s.keys[IdOf(r)].records, r, s.devices[r.device]) ==>
            && (o.reply == Plain(Accepted) || o.reply == Plain(RejectedBackpressure))
            && (o.reply.code == RejectedBackpressure ==> s.evidenceCount >= s.config.limits.maxEvidenceHistory))
  {
    hide Inv, EvictIfNeeded, Store, CurrentWinner, Latest, Repeats, SaysTheSame, AssignGeneration;
    KnowledgeWas(s);
    KeyIsOrdered(s, IdOf(r));
    RepeatsIff(s.keys[IdOf(r)].records, r, s.devices[r.device]);
  }

  /**
   * A capability record is refused for the first reason that holds; otherwise, if it says what the newest record of its slot
   * says, it is accepted without effect on what is stored; otherwise it is stored, in the generation of the leading claim it
   * joins or else in the next one, unless the history is full.
   */
  lemma AdmissionIsExact(s: State, r: Record)
    requires Inv(s) && FromSender(s, r) && ValidRecord(s.config, r)
    ensures var o := ApplyCapability(s, r);
      match Refusal(s, r)
      case Some(code) => o.reply == Plain(code)
      case None =>
        && r.device in s.devices
        && var d, key := s.devices[r.device], KeyFor(s, r);
           if SaysTheSame(key.records, r, d) then
             o.reply == Plain(AcceptedIdempotent) && o.state.keys == s.keys && o.state.queue == s.queue
           else
             && (o.reply == Plain(Accepted) || (o.reply == Plain(RejectedBackpressure) && s.evidenceCount >= s.config.limits.maxEvidenceHistory))
             && (o.reply.code == Accepted ==> exists g :: Assigned(s, r, g) && StoredUnder(o.state, r, d, key, g))
  {
    hide Inv, Grows, ValidRecord, EnsureKey, Admit, Refusal, SaysTheSame, Assigned, StoredUnder, KeyFor, NoKeyLeft, DeviceRejection, ApplyCapability;
    RefusedOrAdmitted(s, r);
    if Refusal(s, r) == None {
      var ready := Ready(s, r);
      EnsureKeeps(s, r) by { NotRefusedBefore(s, r); }
      EnsuredKey(s, r);
      AdmitReplies(ready, r);
      if SaysTheSame(KeyFor(s, r).records, r, s.devices[r.device]) { EmptySaysNothing(s, r); }
      if Admit(ready, r).reply.code == Accepted {
        NotRefusedBefore(s, r);
        NotRefusedSchema(s, r);
        AdmissibleStill(s, ready, r);
        AdmitStores(ready, r);
        KnowledgeWas(ready);
        KeyWasOk(ready, IdOf(r));
        CurrentWinnerDependsOn(s, ready, KeyFor(s, r).records, s.devices[r.device]);
        SerialIsSame(s, r);
        AssignIsAssigned(s, r, s.devices[r.device]);
      }
    }
  }

  lemma SerialIsSame(s: State, r: Record)
    ensures var t := Ready(s, r); t.nextSerial == s.nextSerial && t.publishers == s.publishers && t.epoch == s.epoch
  {
    hide EnsureKey;
    EnsureKeepsRest(s, r);
  }

  lemma NotRefusedBefore(s: State, r: Record)
    requires Refusal(s, r) == None
    ensures UnderSchema(s.config, r) && DeviceRejection(s, r) == None && r.device in s.devices
  {
    hide KeyFor, NoKeyLeft;
  }

  lemma NotRefusedSchema(s: State, r: Record)
    requires Refusal(s, r) == None
    ensures KeyFor(s, r).schema == r.schema
  {
    hide KeyFor, NoKeyLeft;
  }

  /** A record that says what is stored already finds its key there. */
  lemma EmptySaysNothing(s: State, r: Record)
    requires r.device in s.devices && SaysTheSame(KeyFor(s, r).records, r, s.devices[r.device])
    ensures IdOf(r) in s.keys && s.keys[IdOf(r) := KeyFor(s, r)] == s.keys
  {
    hide IsLastOf, OneClaimOf;
  }
}
