// What a full history comes to (src/registry.cpp:784-842, 1489-1494): once a
// record was refused for lack of room, nothing is stored any more until the next
// restart; and after a restart a replaced record may keep the history full.
module Standstill {
  import opened Basics
  import C = Conditions
  import Q = Quirks
  import opened Model
  import opened Steps
  import opened Eviction
  import opened Invariants
  import opened Admission
  import opened Restart
  import opened Recovery
  import opened History
  import opened Evidence
  import opened Observing
  import opened Aging
  import opened Forgetting
  import opened Retaining

  /** The history is full, nothing is queued, and a key over its cap holds only the newest records of its sources. */
  predicate Full(s: State) {
    s.evidenceCount >= s.config.limits.maxEvidenceHistory && s.queue == [] && OverCapOnlyByNewest(s.keys, KeyCap(s.config))
  }

  lemma NoVictim(records: seq<Stored>, n: nat)
    requires n <= |records| && forall i :: 0 <= i < |records| ==> !Superseded(records, i)
    ensures Victim(records, n) == |records|
  {}

  lemma NothingToTrim(keys: map<KeyId, Key>, cap: nat)
    requires OverCapOnlyByNewest(keys, cap)
    ensures TrimKeys(keys, cap) == keys
  {
    hide Superseded;
    forall k | k in keys ensures TrimKey(keys[k].records, cap) == keys[k].records {
      if |keys[k].records| > cap { NoVictim(keys[k].records, |keys[k].records|); }
    }
  }

  lemma NothingToEvict(s: State)
    requires Full(s)
    ensures EvictIfNeeded(s) == s
  {
    hide TrimKeys, Total, OverCapOnlyByNewest;
    NothingToTrim(s.keys, KeyCap(s.config));
  }

  /** A refusal for lack of room leaves the history full. */
  lemma RefusedIsFull(s: State, r: Record)
    requires AllOrdered(s.keys) && s.evidenceCount == Total(s.keys)
    requires IdOf(r) in s.keys && MakeRoom(s, r).reply.code == RejectedBackpressure
    ensures Full(MakeRoom(s, r).state)
  {
    hide EvictIfNeeded, Store, OverCapOnlyByNewest, AllThinned, AllOrdered, Total;
    EvictionIsExact(s);
    EvictionStopsAtBounds(s);
  }

  lemma FullRefuses(s: State, r: Record)
    requires Full(s) && IdOf(r) in s.keys
    ensures MakeRoom(s, r) == Outcome(s, Plain(RejectedBackpressure))
  {
    hide EvictIfNeeded, Store;
    NothingToEvict(s);
  }

  /** Keys may be added empty, and their generations raised. */
  lemma SameRecordsFull(s: State, t: State)
    requires Full(s) && t.config == s.config && t.evidenceCount == s.evidenceCount && t.queue == s.queue
    requires forall k :: k in t.keys ==> t.keys[k].records == RecordsAt(s.keys, k)
    ensures Full(t)
  {
    hide Superseded;
  }

  lemma AdmitWhenFull(s: State, r: Record)
    requires Full(s) && r.device in s.devices && IdOf(r) in s.keys
    ensures Admit(s, r).reply.code != Accepted && Full(Admit(s, r).state)
  {
    hide Full, MakeRoom, CurrentWinner, Latest, Repeats, AssignGeneration;
    var d, key := s.devices[r.device], s.keys[IdOf(r)];
    var bound := Bind(r, d);
    var g := AssignGeneration(key, CurrentWinner(s, key.records, d), bound);
    var raised := s.(keys := s.keys[IdOf(r) := Raise(key, g)]);
    SameRecordsFull(s, raised);
    FullRefuses(raised, bound.(capabilityGeneration := g));
  }

  lemma CapabilityWhenFull(s: State, r: Record)
    requires Full(s)
    ensures var o := ApplyCapability(s, r); o.reply.code != Accepted && Full(o.state)
  {
    hide Full, EnsureKey, Admit, KeyRejection, DeviceRejection;
    RejectionsAreRejections(s, r);
    KnownDevice(s, r);
    EnsureKeepsRest(s, r);
    EnsureRejection(s, r);
    EnsureKeepsRecords(s, r);
    var ready := EnsureKey(s, r).0;
    SameRecordsFull(s, ready);
    if EnsureKey(s, r).1 == None {
      KeyRejectionIsRejection(ready.keys[IdOf(r)], r);
      if SchemaRejection(s.config, r) == None && DeviceRejection(s, r) == None { AdmitWhenFull(ready, r); }
    }
  }

  lemma EnsureKeepsRecords(s: State, r: Record)
    ensures var t := EnsureKey(s, r).0; forall k :: k in t.keys ==> t.keys[k].records == RecordsAt(s.keys, k)
  {
    hide OwnedBy;
  }

  lemma SameHistoryFull(s: State, t: State)
    requires Full(s) && t.config == s.config && t.keys == s.keys && t.queue == s.queue && t.evidenceCount == s.evidenceCount
    ensures Full(t)
  {
    hide OverCapOnlyByNewest;
  }

  lemma HandledWhenFull(s: State, pub: Publication)
    requires Full(s)
    ensures var o := Handle(s, pub); Full(o.state) && (IsCapability(pub.kind) ==> o.reply.code != Accepted)
  {
    hide Full, ApplyCapability, ApplyDevice, ApplyQuirk, ApplyFact;
    CapabilityWhenFull(s, pub.capability);
    DeviceTouchesOnlyDevices(s, pub.device, false);
    DeviceTouchesOnlyDevices(s, pub.device, true);
    QuirkTouchesOnlyQuirks(s, pub.quirk, false);
    QuirkTouchesOnlyQuirks(s, pub.quirk, true);
    FactTouchesOnlyFacts(s, pub.compatibility, false);
    FactTouchesOnlyFacts(s, pub.compatibility, true);
    if !IsCapability(pub.kind) { SameHistoryFull(s, Handle(s, pub).state); }
  }

  lemma SequencedWhenFull(s: State, pub: Publication)
    requires Full(s) && pub.publisher.id in s.publishers
    ensures var o := Sequenced(s, pub); Full(o.state) && (IsCapability(pub.kind) ==> o.reply.code != Accepted)
  {
    hide Full, Handle, SequenceVerdict, RecordAcceptance, OpenWatermark;
    var open := Opened(s, pub);
    SameHistoryFull(s, open);
    VerdictNeverAccepts(open.publishers[pub.publisher.id], pub);
    HandledWhenFull(open, pub);
    SameHistoryFull(Handle(open, pub).state, Handle(open, pub).state.(publishers := Sequenced(s, pub).state.publishers));
  }

  lemma PublicationWhenFull(s: State, pub: Publication)
    requires Full(s)
    ensures var o := ApplyPublication(s, pub); Full(o.state) && (IsCapability(pub.kind) ==> o.reply.code != Accepted)
  {
    hide Full, Sequenced, Validated, Unbound, SenderRejection, RegisterPublisher;
    var p := Attribute(s.config, pub);
    SenderNeverAccepts(s, p.publisher);
    RegistrationTouchesPublishers(s, p.publisher, p.adapter);
    SameHistoryFull(s, RegisterPublisher(s, p.publisher, p.adapter).state);
    if SenderRejection(s, p.publisher) == None { SequencedWhenFull(s, p); }
  }

  lemma RegistrationTouchesPublishers(s: State, identity: Identity, adapter: string)
    ensures var t := RegisterPublisher(s, identity, adapter).state; t == s.(publishers := t.publishers)
  {}

  lemma OthersWhenFull(s: State, op: Op)
    requires Full(s) && !op.Publish? && !op.RestartFrom?
    ensures Full(Step(s, op).state)
  {
    hide Full, Step;
    OthersKeepHistory(s, op);
    SameHistoryFull(s, Step(s, op).state);
  }

  lemma OthersKeepHistory(s: State, op: Op)
    requires !op.Publish? && !op.RestartFrom?
    ensures var t := Step(s, op).state; t.config == s.config && t.keys == s.keys && t.queue == s.queue && t.evidenceCount == s.evidenceCount
  {
    hide RegisterPublisher, FencePublisher, RetireBoot, ResetLiveness, AdvanceEpoch, Import, Fresh, ApplyPublication;
    match op {
      case Register(identity, adapter) => RegistrationTouchesPublishers(s, identity, adapter);
      case Fence(id) => FenceTouchesPublishers(s, id);
      case Retire(id, boot) => RetireTouchesPublishers(s, id, boot);
      case Reset => ResetTouchesPublishers(s);
      case NewEpoch => ResetTouchesPublishers(s);
      case _ =>
    }
  }

  lemma ResetTouchesPublishers(s: State)
    ensures var t := ResetLiveness(s); t == s.(publishers := t.publishers)
    ensures var t := AdvanceEpoch(s); t == s.(epoch := t.epoch)
  {}

  lemma FenceTouchesPublishers(s: State, id: nat)
    ensures var t := FencePublisher(s, id).state; t == s.(publishers := t.publishers)
  {}

  lemma RetireTouchesPublishers(s: State, id: nat, boot: nat)
    ensures var t := RetireBoot(s, id, boot).state; t == s.(publishers := t.publishers)
  {}

  // ---- the refusal -----------------------------------------------------------------------------

  lemma AdmitRefusedIsFull(s: State, r: Record)
    requires Inv(s) && r.device in s.devices && IdOf(r) in s.keys && Admit(s, r).reply.code == RejectedBackpressure
    ensures Full(Admit(s, r).state)
  {
    hide Inv, Full, MakeRoom, CurrentWinner, Latest, Repeats, AssignGeneration, Ordered, Total;
    KnowledgeWas(s);
    OrderedKeys(s);
    var d, key := s.devices[r.device], s.keys[IdOf(r)];
    var bound := Bind(r, d);
    var g := AssignGeneration(key, CurrentWinner(s, key.records, d), bound);
    var raised := s.(keys := s.keys[IdOf(r) := Raise(key, g)]);
    TotalSet(s.keys, IdOf(r), Raise(key, g));
    RefusedIsFull(raised, bound.(capabilityGeneration := g));
  }

  lemma OtherRejections(s: State, r: Record)
    ensures match SchemaRejection(s.config, r) case Some(code) => code != RejectedBackpressure case None => UnderSchema(s.config, r)
    ensures match DeviceRejection(s, r) case Some(code) => code != RejectedBackpressure case None => r.device in s.devices
    ensures match EnsureKey(s, r).1 case Some(code) => code != RejectedBackpressure case None => true
  {}

  lemma OtherKeyRejections(key: Key, r: Record)
    ensures match KeyRejection(key, r) case Some(code) => code != RejectedBackpressure case None => true
  {}

  lemma CapabilityRefusedIsFull(s: State, r: Record)
    requires Inv(s) && ApplyCapability(s, r).reply.code == RejectedBackpressure
    ensures Full(ApplyCapability(s, r).state)
  {
    hide Inv, Full, Grows, EnsureKey, Admit, KeyRejection, DeviceRejection, SchemaRejection;
    OtherRejections(s, r);
    EnsureKeepsRest(s, r);
    EnsureRejection(s, r);
    EnsureKeeps(s, r);
    var ready := EnsureKey(s, r).0;
    OtherKeyRejections(ready.keys[IdOf(r)], r);
    AdmitRefusedIsFull(ready, r);
  }

  /** Only a capability record is refused for lack of room. */
  lemma OthersHaveRoom(s: State, pub: Publication)
    requires !IsCapability(pub.kind)
    ensures Handle(s, pub).reply.code != RejectedBackpressure
  {
    hide ImpactsKnown, BothResolve, SameReference, RefreshDevice, NewDevice;
  }

  lemma VerdictHasRoom(p: Publisher, pub: Publication)
    ensures match SequenceVerdict(p, pub) case Some(code) => code != RejectedBackpressure case None => true
  {
    hide WatermarkOf;
  }

  lemma SequencedRefusedIsFull(s: State, pub: Publication)
    requires Inv(s) && pub.publisher.id in s.publishers && Sequenced(s, pub).reply.code == RejectedBackpressure
    ensures IsCapability(pub.kind) && Full(Sequenced(s, pub).state)
  {
    hide Inv, Full, Grows, Handle, SequenceVerdict, RecordAcceptance, OpenWatermark, PublisherOk;
    var open := Opened(s, pub);
    OpenedKeeps(s, pub);
    VerdictHasRoom(open.publishers[pub.publisher.id], pub);
    if !IsCapability(pub.kind) { OthersHaveRoom(open, pub); }
    CapabilityHandled(open, pub);
    CapabilityRefusedIsFull(open, pub.capability);
  }

  lemma CapabilityHandled(s: State, pub: Publication)
    requires IsCapability(pub.kind)
    ensures Handle(s, pub) == ApplyCapability(s, pub.capability)
  {
    hide ApplyCapability;
  }

  lemma SenderHasRoom(s: State, who: Identity, adapter: string)
    ensures match SenderRejection(s, who) case Some(code) => code != RejectedBackpressure case None => who.id in s.publishers
    ensures RegisterPublisher(s, who, adapter).reply.code != RejectedBackpressure
  {}

  lemma PublicationRefusedIsFull(s: State, pub: Publication)
    requires Inv(s) && ApplyPublication(s, pub).reply.code == RejectedBackpressure
    ensures Full(ApplyPublication(s, pub).state)
  {
    hide Inv, Full, Sequenced, Validated, Unbound, SenderRejection, RegisterPublisher;
    var p := Attribute(s.config, pub);
    SenderHasRoom(s, p.publisher, p.adapter);
    SequencedRefusedIsFull(s, p);
  }

  // ---- along a run ---------------------------------------------------------------------------------

  lemma {:induction false} StaysFull(run: Run, i: nat, j: nat)
    requires Behaviour(run) && SameProcess(run, i, j) && Full(run.states[i])
    ensures Full(run.states[j])
    decreases j
  {
    hide Full, Inv, Bound, Step, Allowed, ApplyPublication;
    if i < j {
      StaysFull(run, i, j - 1);
      assert StepAt(run, j - 1);
      var s, op := run.states[j - 1], run.ops[j - 1];
      if op.Publish? {
        PublishStep(s, op);
        PublicationWhenFull(s, op.publication);
      } else {
        OthersWhenFull(s, op);
      }
    }
  }

  /**
   * Once a record was refused because the history is full, no record of any publisher is stored, and no eviction happens, at any
   * later point of the process: only a restart makes room.
   */
  lemma BackpressureIsForever(run: Run, i: nat, j: nat)
    requires Behaviour(run) && i < j < |run.ops| && SameProcess(run, i + 1, j) && run.replies[i].code == RejectedBackpressure
    requires run.ops[i].Publish? && run.ops[j].Publish? && IsCapability(run.ops[j].publication.kind)
    ensures run.replies[j].code != Accepted
    ensures EvictIfNeeded(run.states[j]) == run.states[j]
  {
    hide Full, Inv, Bound, Allowed, ApplyPublication, EvictIfNeeded;
    RunKeeps(run, i);
    assert StepAt(run, i);
    PublishStep(run.states[i], run.ops[i]);
    PublicationRefusedIsFull(run.states[i], run.ops[i].publication);
    StaysFull(run, i + 1, j);
    NothingToEvict(run.states[j]);
    assert StepAt(run, j);
    PublishStep(run.states[j], run.ops[j]);
    PublicationWhenFull(run.states[j], run.ops[j].publication);
  }

  /** Under a bound of one the first record that is stored already leaves the history full. */
  lemma FirstRecordFills(s: State, r: Record)
    requires s.config.limits.maxEvidenceHistory == 1 && s.evidenceCount == 0 && s.queue == []
    requires s.keys.Keys == {IdOf(r)} && s.keys[IdOf(r)].records == []
    ensures MakeRoom(s, r).reply.code == Accepted && Full(MakeRoom(s, r).state)
  {
    hide TrimKeys, Total, OverCapOnlyByNewest;
    var k, t := IdOf(r), Store(s, r);
    assert k in s.keys.Keys;
    assert t.keys[k].records == [Stored(r, false, SlotOf(r), s.nextSerial)];
    OnlyNewest(t.keys, KeyCap(s.config));
    NothingToTrim(t.keys, KeyCap(s.config));
    var e := Entry(k, s.nextSerial);
    assert t.queue == [e] && t.evidenceCount == 1;
    LoneIsKept(t.keys, e);
    LoneDrains(t.keys, e);
  }

  lemma OnlyNewest(keys: map<KeyId, Key>, cap: nat)
    requires forall k :: k in keys ==> |keys[k].records| == 1
    ensures OverCapOnlyByNewest(keys, cap)
  {}

  lemma LoneIsKept(keys: map<KeyId, Key>, e: Entry)
    requires e.key in keys && |keys[e.key].records| == 1
    ensures !Evictable(keys, e)
  {}

  lemma LoneDrains(keys: map<KeyId, Key>, e: Entry)
    requires !Evictable(keys, e)
    ensures Drain(Retention(keys, [e], 1), 1) == Retention(keys, [], 1)
  {
    hide Evictable;
    assert [e][1..] == [];
  }

  // ---- serials after a restart ------------------------------------------------------------------------

  /** The last record that is loaded has the serial that the next record will be given. */
  lemma NextSerialIsTaken(s: State, d: Durable)
    requires Import(s, d).ok && d.history != []
    ensures var t, k := Import(s, d).state, IdOf(d.history[|d.history| - 1]);
      k in t.keys && t.keys[k].records != [] && t.keys[k].records[|t.keys[k].records| - 1].serial == t.nextSerial
  {
    hide StageDevices, StagePlatforms, StageRest, WithinBounds, IndexOf, QueueOf, Bury, Stageable, Supersede;
  }

  const Plain0 := Record(
    1, 1, 1, 1, 1, 1, SupportedNative, NoValue, Exact, Source(HardwareProbe, RealLiveHardware, Identity(1, 1, 1), 0, 0, 0), C.Null,
    0, 0, 0, 0, 0, false)

  /** A loaded record, and two of one live source, of which the first has the serial of the loaded one and is replaced. */
  function Overlap(): seq<Stored> {
    [Stored(Plain0, false, ImportedSlot(1, 1, HardwareProbe, 0, Exact), 2), Stored(Plain0, true, LiveSlot(1, 2, HardwareProbe), 2),
     Stored(Plain0, false, LiveSlot(1, 2, HardwareProbe), 3)]
  }

  /** Then a replaced record is not found by its entry, and the history stays full. */
  lemma SharedSerialKeepsFull()
    ensures var keys: map<KeyId, Key> := map[(1, 1) := Key(1, 1, true, Overlap())];
      var r := Retention(keys, [Entry((1, 1), 2), Entry((1, 1), 2), Entry((1, 1), 3)], 3);
      Superseded(Overlap(), 1) && Drain(r, 3) == r.(queue := [])
  {
    var keys: map<KeyId, Key> := map[(1, 1) := Key(1, 1, true, Overlap())];
    assert Overlap()[2].slot == Overlap()[1].slot && Overlap()[2].serial > Overlap()[1].serial;
    NotReplaced(keys, Entry((1, 1), 2), 0);
    NotReplaced(keys, Entry((1, 1), 3), 2);
    var e, f := Entry((1, 1), 2), Entry((1, 1), 3);
    assert [e, e, f][1..] == [e, f] && [e, f][1..] == [f] && [f][1..] == [];
    DrainsPast(keys, e, [e, f]);
    DrainsPast(keys, e, [f]);
    DrainsPast(keys, f, []);
  }

  lemma NotReplaced(keys: map<KeyId, Key>, e: Entry, i: nat)
    requires e.key in keys && keys[e.key].records == Overlap() && i < 3 && i != 1 && e.serial == Overlap()[i].serial
    ensures !Evictable(keys, e)
  {
    assert Find(Overlap(), e.serial, 0) == i;
  }

  lemma DrainsPast(keys: map<KeyId, Key>, e: Entry, rest: seq<Entry>)
    requires !Evictable(keys, e)
    ensures Drain(Retention(keys, [e] + rest, 3), 3) == Drain(Retention(keys, rest, 3), 3)
  {
    hide Evictable;
    assert ([e] + rest)[1..] == rest;
  }
}
