// What is forgotten and what is not (src/registry.cpp:784-842, 1449-1515): a
// record stays as it was stored until its own source says something newer, and
// eviction stops as soon as there is room.
module Forgetting {
  import opened Basics
  import C = Conditions
  import opened Model
  import opened Steps
  import opened Eviction
  import opened Invariants
  import opened Admission
  import opened Restart
  import opened Recovery
  import opened History
  import opened Evidence
  import opened Safety
  import opened Observing
  import opened Aging

  // ---- one key and slot at most is touched ------------------------------------------------

  predicate Holds(s: State, k: KeyId, st: Stored) { k in s.keys && st in s.keys[k].records }

  /** No record is added or flagged, and none that its source has not replaced is lost. */
  predicate LeavesAt(s: State, t: State, k: KeyId, st: Stored) {
    (Holds(t, k, st) ==> Holds(s, k, st)) && (Holds(s, k, st) && !st.superseded ==> Holds(t, k, st))
  }

  ghost predicate LeavesAll(s: State, t: State) {
    forall k, st: Stored :: LeavesAt(s, t, k, st)
  }

  /** The same of every source but one. */
  ghost predicate LeavesOthers(s: State, t: State, key: KeyId, slot: Slot) {
    forall k, st: Stored :: k != key || st.slot != slot ==> LeavesAt(s, t, k, st)
  }

  lemma LeavesOthersTransitive(s: State, t: State, u: State, key: KeyId, slot: Slot)
    requires LeavesOthers(s, t, key, slot) && LeavesOthers(t, u, key, slot)
    ensures LeavesOthers(s, u, key, slot)
  {
    hide Holds;
    forall k, st: Stored | k != key || st.slot != slot ensures LeavesAt(s, u, k, st) {
      assert LeavesAt(s, t, k, st) && LeavesAt(t, u, k, st);
    }
  }

  lemma LeavesAllTransitive(s: State, t: State, u: State)
    requires LeavesAll(s, t) && LeavesAll(t, u)
    ensures LeavesAll(s, u)
  {
    hide Holds;
    forall k, st: Stored ensures LeavesAt(s, u, k, st) { assert LeavesAt(s, t, k, st) && LeavesAt(t, u, k, st); }
  }

  lemma SameRecordsLeave(s: State, t: State)
    requires forall k :: RecordsAt(s.keys, k) == RecordsAt(t.keys, k)
    ensures LeavesAll(s, t)
  {
    forall k, st: Stored ensures LeavesAt(s, t, k, st) {
      assert Holds(s, k, st) <==> st in RecordsAt(s.keys, k);
      assert Holds(t, k, st) <==> st in RecordsAt(t.keys, k);
    }
  }

  lemma EvictionLeaves(s: State)
    requires Inv(s)
    ensures LeavesAll(s, EvictIfNeeded(s))
  {
    hide Inv, EvictIfNeeded, Grows, Ordered, Latest, Candidates;
    EvictKeeps(s);
    KnowledgeWas(s);
    var t := EvictIfNeeded(s);
    forall k, st: Stored ensures LeavesAt(s, t, k, st) {
      if k in s.keys {
        assert Thinned(s.keys[k].records, t.keys[k].records);
        KeyIsOrdered(s, k);
        if Holds(s, k, st) && !st.superseded {
          OlderIsSuperseded(s.keys[k].records, st.slot, st);
          LatestIsStored(t.keys[k].records, st.slot);
        }
      }
    }
  }

  lemma StoreLeaves(s: State, r: Record)
    requires IdOf(r) in s.keys
    ensures LeavesOthers(s, Store(s, r), IdOf(r), SlotOf(r))
  {
    hide Supersede;
    var t := Store(s, r);
    forall k, st: Stored | k != IdOf(r) || st.slot != SlotOf(r) ensures LeavesAt(s, t, k, st) {
      if k == IdOf(r) { AppendLeaves(s.keys[k], r, s.nextSerial, st); }
    }
  }

  lemma AppendLeaves(key: Key, r: Record, serial: nat, st: Stored)
    requires st.slot != SlotOf(r)
    ensures st in Append(key, r, serial).records <==> st in key.records
  {
    var was, now := key.records, Append(key, r, serial).records;
    if st in was {
      var i :| 0 <= i < |was| && was[i] == st;
      assert now[i] == st;
    }
    if st in now {
      var i :| 0 <= i < |now| && now[i] == st;
      assert i < |was| && was[i].slot == st.slot && was[i] == st;
    }
  }

  lemma LeavesAllButOne(s: State, t: State, key: KeyId, slot: Slot)
    requires LeavesAll(s, t)
    ensures LeavesOthers(s, t, key, slot)
  {
    hide LeavesAt;
  }

  lemma MakeRoomLeaves(s: State, r: Record)
    requires Inv(s) && IdOf(r) in s.keys && RecordOk(s, IdOf(r), r) && Fits(s.keys[IdOf(r)], r)
    ensures var o := MakeRoom(s, r);
      LeavesOthers(s, o.state, IdOf(r), SlotOf(r)) && (o.reply.code != Accepted ==> LeavesAll(s, o.state))
  {
    hide Inv, Grows, Fits, RecordOk, EvictIfNeeded, Store, AllThinned, LeavesAll, LeavesOthers;
    var max, o := s.config.limits.maxEvidenceHistory, MakeRoom(s, r);
    var room := if s.evidenceCount >= max then EvictIfNeeded(s) else s;
    if s.evidenceCount >= max {
      EvictKeeps(s);
      EvictionLeaves(s);
      FitsAfterEviction(s, room, r);
      SameRecordOk(s, room, IdOf(r), r);
    } else {
      SameRecordsLeave(s, s);
    }
    LeavesAllButOne(s, room, IdOf(r), SlotOf(r));
    if room.evidenceCount < max {
      StoreKeeps(room, r);
      StoreLeaves(room, r);
      EvictionLeaves(Store(room, r));
      LeavesAllButOne(Store(room, r), o.state, IdOf(r), SlotOf(r));
      LeavesOthersTransitive(s, room, Store(room, r), IdOf(r), SlotOf(r));
      LeavesOthersTransitive(s, Store(room, r), o.state, IdOf(r), SlotOf(r));
    }
  }

  lemma AdmitLeaves(s: State, r: Record)
    requires Inv(s) && IdOf(r) in s.keys && Admissible(s, r) && s.keys[IdOf(r)].schema == r.schema
    ensures var o := Admit(s, r);
      LeavesOthers(s, o.state, IdOf(r), SlotOf(r)) && (o.reply.code != Accepted ==> LeavesAll(s, o.state))
  {
    hide Inv, Grows, RecordOk, MakeRoom, CurrentWinner, Latest, Repeats, KeyOk, ValidRecord, UnderSchema, AssignGeneration, Fits, LeavesAll,
      LeavesOthers;
    KnowledgeWas(s);
    KeyWasOk(s, IdOf(r));
    var d, key := s.devices[r.device], s.keys[IdOf(r)];
    var bound := Bind(r, d);
    var g := AssignGeneration(key, CurrentWinner(s, key.records, d), bound);
    var record := bound.(capabilityGeneration := g);
    AssignedGenerationFits(s, key, bound, d);
    var raised := s.(keys := s.keys[IdOf(r) := Raise(key, g)]);
    RaiseKeeps(s, IdOf(r), Raise(key, g));
    BoundRecordOk(s, r, g);
    SameRecordOk(s, raised, IdOf(r), record);
    MakeRoomLeaves(raised, record);
    SameRecordsLeave(s, raised);
    SameRecordsLeave(s, s);
    LeavesAllButOne(s, s, IdOf(r), SlotOf(r));
    LeavesAllButOne(s, raised, IdOf(r), SlotOf(r));
    var o := MakeRoom(raised, record);
    LeavesOthersTransitive(s, raised, o.state, IdOf(r), SlotOf(r));
    if o.reply.code != Accepted { LeavesAllTransitive(s, raised, o.state); }
  }

  lemma EnsureLeaves(s: State, r: Record)
    ensures LeavesAll(s, EnsureKey(s, r).0)
  {
    hide LeavesAll, OwnedBy;
    SameRecordsLeave(s, EnsureKey(s, r).0);
  }

  lemma CapabilityLeaves(s: State, r: Record)
    requires Inv(s) && FromSender(s, r) && ValidRecord(s.config, r)
    ensures var o := ApplyCapability(s, r);
      LeavesOthers(s, o.state, IdOf(r), SlotOf(r)) && (o.reply.code != Accepted ==> LeavesAll(s, o.state))
  {
    hide Inv, Grows, ValidRecord, EnsureKey, Admit, KeyRejection, DeviceRejection, LeavesAll, LeavesOthers;
    SameRecordsLeave(s, s);
    LeavesAllButOne(s, s, IdOf(r), SlotOf(r));
    RejectionsAreRejections(s, r);
    KnownDevice(s, r);
    if SchemaRejection(s.config, r) == None && DeviceRejection(s, r) == None {
      EnsureKeeps(s, r);
      EnsureKeepsRest(s, r);
      EnsureRejection(s, r);
      EnsureLeaves(s, r);
      var (ready, refused) := EnsureKey(s, r);
      LeavesAllButOne(s, ready, IdOf(r), SlotOf(r));
      if refused == None && KeyRejection(ready.keys[IdOf(r)], r) == None {
        SchemaAgrees(ready.keys[IdOf(r)], r);
        AdmissibleStill(s, ready, r);
        AdmitLeaves(ready, r);
        var o := Admit(ready, r);
        LeavesOthersTransitive(s, ready, o.state, IdOf(r), SlotOf(r));
        if o.reply.code != Accepted { LeavesAllTransitive(s, ready, o.state); }
      }
    }
  }

  // ---- one operation ---------------------------------------------------------------------------

  lemma HandledLeaves(s: State, pub: Publication)
    requires Inv(s) && Validated(s.config, pub) && FromSender(s, pub.capability)
    ensures var o := Handle(s, pub);
      && LeavesOthers(s, o.state, IdOf(pub.capability), SlotOf(pub.capability))
      && (!IsCapability(pub.kind) || o.reply.code != Accepted ==> LeavesAll(s, o.state))
  {
    hide Inv, ApplyCapability, ApplyDevice, ApplyQuirk, ApplyFact, FromSender, ValidRecord, ValidQuirk, ValidFact, LeavesAll, LeavesOthers;
    if IsCapability(pub.kind) {
      CapabilityLeaves(s, pub.capability);
    } else {
      DeviceTouchesOnlyDevices(s, pub.device, false);
      DeviceTouchesOnlyDevices(s, pub.device, true);
      QuirkTouchesOnlyQuirks(s, pub.quirk, false);
      QuirkTouchesOnlyQuirks(s, pub.quirk, true);
      FactTouchesOnlyFacts(s, pub.compatibility, false);
      FactTouchesOnlyFacts(s, pub.compatibility, true);
      SameRecordsLeave(s, Handle(s, pub).state);
      LeavesAllButOne(s, Handle(s, pub).state, IdOf(pub.capability), SlotOf(pub.capability));
    }
  }

  /** What a publication leaves alone. */
  ghost predicate PublicationLeft(s: State, pub: Publication, o: Outcome) {
    && (IsCapability(pub.kind) ==> LeavesOthers(s, o.state, KeyOf(pub), SlotFor(pub)))
    && (!IsCapability(pub.kind) || o.reply.code != Accepted ==> LeavesAll(s, o.state))
  }

  lemma UntouchedIsLeft(s: State, pub: Publication, o: Outcome)
    requires o.state.keys == s.keys
    ensures PublicationLeft(s, pub, o)
  {
    hide LeavesAll, LeavesOthers;
    SameRecordsLeave(s, o.state);
    LeavesAllButOne(s, o.state, KeyOf(pub), SlotFor(pub));
  }

  lemma SequencedLeaves(s: State, pub: Publication)
    requires Inv(s) && SenderRejection(s, pub.publisher) == None && Validated(s.config, pub)
    requires pub.capability.source.publisher == pub.publisher
    ensures PublicationLeft(s, pub, Sequenced(s, pub))
  {
    hide Inv, Grows, PublisherOk, PublisherGrows, Handle, SequenceVerdict, RecordAcceptance, Validated, WatermarkOf, LeavesAll, LeavesOthers;
    OpenedKeeps(s, pub);
    var open := Opened(s, pub);
    if SequenceVerdict(open.publishers[pub.publisher.id], pub) != None {
      UntouchedIsLeft(s, pub, Sequenced(s, pub));
    } else {
      HandledLeaves(open, pub);
      SameKeysLeft(s, open, pub, Handle(open, pub), Sequenced(s, pub));
    }
  }

  lemma SameKeysLeft(s: State, open: State, pub: Publication, o: Outcome, after: Outcome)
    requires open.keys == s.keys && o.state.keys == after.state.keys && o.reply == after.reply
    requires LeavesOthers(open, o.state, IdOf(pub.capability), SlotOf(pub.capability))
    requires !IsCapability(pub.kind) || o.reply.code != Accepted ==> LeavesAll(open, o.state)
    requires pub.capability.source.publisher == pub.publisher
    ensures PublicationLeft(s, pub, after)
  {
    forall k, st: Stored ensures (LeavesAt(s, after.state, k, st) <==> LeavesAt(open, o.state, k, st)) {}
  }

  lemma PublicationLeaves(s: State, pub: Publication)
    requires Inv(s)
    ensures PublicationLeft(s, pub, ApplyPublication(s, pub))
  {
    hide Inv, Sequenced, Validated, SenderRejection, RegisterPublisher, Unbound, LeavesAll, LeavesOthers;
    var p, o := Attribute(s.config, pub), ApplyPublication(s, pub);
    if Validated(s.config, p) && SenderRejection(s, p.publisher) == None && p.kind != RegisterPublisherKind {
      SenderIsKnown(s, p.publisher);
      SequencedLeaves(s, p);
      assert KeyOf(p) == KeyOf(pub) && SlotFor(p) == SlotFor(pub);
      if o.state == s { UntouchedIsLeft(s, pub, o); }
    } else {
      RegistrationKeys(s, p.publisher, p.adapter);
      UntouchedIsLeft(s, pub, o);
    }
  }

  lemma SenderIsKnown(s: State, who: Identity)
    ensures SenderRejection(s, who) == None ==> who.id in s.publishers
  {}

  lemma RegistrationKeys(s: State, identity: Identity, adapter: string)
    ensures RegisterPublisher(s, identity, adapter).state.keys == s.keys
  {}

  lemma OthersLeave(s: State, op: Op)
    requires !op.Publish? && !op.RestartFrom?
    ensures LeavesAll(s, Step(s, op).state)
  {
    hide LeavesAll, RegisterPublisher, FencePublisher, RetireBoot;
    match op {
      case Register(identity, adapter) => RegistrationKeys(s, identity, adapter);
      case Fence(id) => FenceKeys(s, id);
      case Retire(id, boot) => RetireKeys(s, id, boot);
      case _ =>
    }
    SameRecordsLeave(s, Step(s, op).state);
  }

  lemma FenceKeys(s: State, id: nat)
    ensures FencePublisher(s, id).state.keys == s.keys
  {}

  lemma RetireKeys(s: State, id: nat, boot: nat)
    ensures RetireBoot(s, id, boot).state.keys == s.keys
  {}

  // ---- along a run ---------------------------------------------------------------------------------

  /** The source of this slot publishes about the key once more, and is accepted. */
  predicate SaysMore(run: Run, m: nat, k: KeyId, slot: Slot)
    requires m < |run.ops| == |run.replies|
  {
    && run.ops[m].Publish? && IsCapability(run.ops[m].publication.kind) && run.replies[m].code == Accepted
    && KeyOf(run.ops[m].publication) == k && SlotFor(run.ops[m].publication) == slot
  }

  predicate SaysMoreBetween(run: Run, i: nat, j: nat, k: KeyId, slot: Slot)
    requires j <= |run.ops| == |run.replies|
  {
    exists m: nat :: i <= m < j && SaysMore(run, m, k, slot)
  }

  lemma StepLeaves(run: Run, m: nat, k: KeyId, st: Stored)
    requires Behaviour(run) && m < |run.ops| && !run.ops[m].RestartFrom? && !SaysMore(run, m, k, st.slot)
    ensures LeavesAt(run.states[m], run.states[m + 1], k, st)
  {
    hide Inv, Bound, Step, Allowed, ApplyPublication, LeavesAt;
    RunKeeps(run, m);
    assert StepAt(run, m);
    var s, op := run.states[m], run.ops[m];
    if op.Publish? {
      PublishStep(s, op);
      PublicationLeaves(s, op.publication);
    } else {
      OthersLeave(s, op);
    }
  }

  /** Evidence that its source has not replaced is stored, as it was, at every later point of the process. */
  lemma {:induction false} NothingIsLost(run: Run, i: nat, j: nat, k: KeyId, st: Stored)
    requires Behaviour(run) && SameProcess(run, i, j) && k in run.states[i].keys && st in run.states[i].keys[k].records
    requires !st.superseded && !SaysMoreBetween(run, i, j, k, st.slot)
    ensures k in run.states[j].keys && st in run.states[j].keys[k].records
    decreases j
  {
    hide StepAt, SaysMore;
    if i < j {
      assert !SaysMore(run, j - 1, k, st.slot);
      NothingIsLost(run, i, j - 1, k, st);
      StepLeaves(run, j - 1, k, st);
      assert Holds(run.states[j], k, st);
    }
  }

  /** Evidence is superseded exactly when its own source has said something newer about the key. */
  lemma SupersededIff(run: Run, i: nat, j: nat, k: KeyId, st: Stored, later: Stored)
    requires Behaviour(run) && SameProcess(run, i, j) && k in run.states[i].keys && st in run.states[i].keys[k].records
    requires k in run.states[j].keys && later in run.states[j].keys[k].records && later.slot == st.slot && later.serial == st.serial
    requires !st.superseded
    ensures later.superseded <==> SaysMoreBetween(run, i, j, k, st.slot)
  {
    hide StepAt, SaysMore, Inv, Bound, KeyOk, Ordered;
    RunKeeps(run, j);
    KnowledgeWas(run.states[j]);
    KeyIsOrdered(run.states[j], k);
    var records := run.states[j].keys[k].records;
    if !SaysMoreBetween(run, i, j, k, st.slot) {
      NothingIsLost(run, i, j, k, st);
      SameSerialSame(records, st, later);
    } else {
      var m: nat :| i <= m < j && SaysMore(run, m, k, st.slot);
      NewerSupersedes(run, i, j, k, st, later, m);
    }
  }

  lemma SameSerialSame(records: seq<Stored>, a: Stored, b: Stored)
    requires Ordered(records) && a in records && b in records && a.slot == b.slot && a.serial == b.serial
    ensures a == b
  {
    var i :| 0 <= i < |records| && records[i] == a;
    var j :| 0 <= j < |records| && records[j] == b;
    OrderedIsUnique(records, i, j);
  }

  lemma AdmittedTakesSerial(s: State, r: Record)
    requires r.device in s.devices && IdOf(r) in s.keys && Admit(s, r).reply.code == Accepted
    ensures Admit(s, r).state.nextSerial == s.nextSerial + 1
  {
    hide Drain, TrimKeys, Total, Append, TrimQueue, CurrentWinner, Latest, Repeats, AssignGeneration, Raise;
  }

  lemma CapabilityTakesSerial(s: State, r: Record)
    requires ApplyCapability(s, r).reply.code == Accepted
    ensures ApplyCapability(s, r).state.nextSerial == s.nextSerial + 1
  {
    hide EnsureKey, Admit, KeyRejection, DeviceRejection;
    RejectionsAreRejections(s, r);
    KnownDevice(s, r);
    EnsureKeepsRest(s, r);
    EnsureRejection(s, r);
    var ready := EnsureKey(s, r).0;
    if EnsureKey(s, r).1 == None {
      KeyRejectionIsRejection(ready.keys[IdOf(r)], r);
      AdmittedTakesSerial(ready, r);
    }
  }

  lemma SequencedTakesSerial(s: State, pub: Publication)
    requires pub.publisher.id in s.publishers && IsCapability(pub.kind) && Sequenced(s, pub).reply.code == Accepted
    ensures Sequenced(s, pub).state.nextSerial == s.nextSerial + 1
  {
    hide ApplyCapability, SequenceVerdict, RecordAcceptance, OpenWatermark;
    VerdictNeverAccepts(Opened(s, pub).publishers[pub.publisher.id], pub);
    CapabilityTakesSerial(Opened(s, pub), pub.capability);
  }

  lemma PublicationTakesSerial(s: State, pub: Publication)
    requires IsCapability(pub.kind) && ApplyPublication(s, pub).reply.code == Accepted
    ensures ApplyPublication(s, pub).state.nextSerial == s.nextSerial + 1
  {
    hide Sequenced, Validated, SenderRejection, Unbound;
    var p := Attribute(s.config, pub);
    SenderNeverAccepts(s, p.publisher);
    SequencedTakesSerial(s, p);
  }

  lemma NewerIsHeld(run: Run, m: nat, k: KeyId, slot: Slot)
    requires Behaviour(run) && m < |run.ops| && SaysMore(run, m, k, slot)
    ensures k in run.states[m + 1].keys
    ensures forall st :: st in run.states[m + 1].keys[k].records && st.slot == slot && !st.superseded ==> st.serial >= run.states[m].nextSerial
  {
    hide Inv, Bound, Allowed, ApplyPublication, Published, HoldsRecord, StoredAs, DeviceRejection, Authoritative, Ordered;
    var s, t, pub := run.states[m], run.states[m + 1], run.ops[m].publication;
    assert StepAt(run, m);
    RunKeeps(run, m);
    RunKeeps(run, m + 1);
    PublishStep(s, run.ops[m]);
    PublicationLands(s, pub);
    PublicationTakesSerial(s, pub);
    AttributedAs(s, pub);
    var r := Published(s, pub);
    var stored :| StoredAs(r, t.devices[r.device], stored) && HoldsRecord(t, stored);
    SameKey(r, t.devices[r.device], stored);
    var held := HeldRecord(t, stored);
    KnowledgeWas(t);
    KeyIsOrdered(t, k);
    forall st | st in t.keys[k].records && st.slot == slot && !st.superseded ensures st.serial >= s.nextSerial {
      OlderIsSuperseded(t.keys[k].records, slot, st);
    }
  }

  /** A record is at any later time what it was, superseded or not. */
  lemma DescendsAcross(s: State, t: State, k: KeyId, later: Stored)
    requires Grows(s, t) && k in s.keys && k in t.keys && later in t.keys[k].records
    requires later.slot.LiveSlot? ==> later.serial < s.nextSerial
    ensures DescendsFrom(s.keys[k].records, later)
  {
    hide DevicesGrow, PublishersGrow, DescendsFrom;
    assert Descends(RecordsAt(s.keys, k), s.nextSerial, t.keys[k].records);
  }

  lemma SerialIsTaken(s: State, k: KeyId, st: Stored)
    requires Inv(s) && k in s.keys && st in s.keys[k].records && st.slot.LiveSlot?
    ensures st.serial < s.nextSerial
  {
    hide PublishersOk, DevicesOk, QuirksOk, FactsOk, Indexed, Counted, RecordOk, Ordered, OneClaim;
  }

  lemma NewerSupersedes(run: Run, i: nat, j: nat, k: KeyId, st: Stored, later: Stored, m: nat)
    requires Behaviour(run) && SameProcess(run, i, j) && k in run.states[i].keys && st in run.states[i].keys[k].records
    requires k in run.states[j].keys && later in run.states[j].keys[k].records && later.slot == st.slot && later.serial == st.serial
    requires i <= m < j && SaysMore(run, m, k, st.slot)
    ensures later.superseded
  {
    hide StepAt, Inv, Bound, Grows, Ordered;
    RunKeeps(run, i);
    SerialIsTaken(run.states[i], k, st);
    RunGrows(run, i, m);
    RunGrows(run, i, m + 1);
    RunGrows(run, m + 1, j);
    SerialsGrow(run.states[i], run.states[m]);
    SerialsGrow(run.states[i], run.states[m + 1]);
    NewerIsHeld(run, m, k, st.slot);
    DescendsAcross(run.states[m + 1], run.states[j], k, later);
    var records := run.states[m + 1].keys[k].records;
    var n :| 0 <= n < |records| && records[n].slot == later.slot && records[n].serial == later.serial
      && records[n].record == later.record && (records[n].superseded ==> later.superseded);
    assert records[n] in records;
  }

  lemma SerialsGrow(s: State, t: State)
    requires Grows(s, t)
    ensures s.nextSerial <= t.nextSerial
  {
    hide DevicesGrow, PublishersGrow, KeysGrow;
  }

  // ---- what is current ---------------------------------------------------------------------------------

  lemma NoFlagsIff(s: State, st: Stored, d: Device)
    ensures Current(s, st, d, d.generation) <==> forall f: Flag :: f !in Staleness(s, st, d, d.generation)
  {
    hide HasFlag;
    forall f: Flag ensures f in Staleness(s, st, d, d.generation) <==> HasFlag(s, st, d, d.generation, f) {}
  }

  /**
   * Accepted evidence that is still stored is current at a later point of the process if and only if, since then, its device
   * has opened no generation, no component it was observed under was replaced (of the runtime, while the device has the same
   * one), its source has said nothing more about the key, and, unless it is durable knowledge, the device has not moved, its
   * publisher's boot is not fenced and the epoch is the same.
   */
  lemma EvidenceIsCurrentIff(run: Run, i: nat, j: nat, st: Stored, later: Stored)
    requires Behaviour(run) && i < j && SameProcess(run, i + 1, j) && run.replies[i].code == Accepted
    requires run.ops[i].Publish? && run.ops[i].publication.kind == PublishCapability
    requires var pub, t := run.ops[i].publication, run.states[i + 1];
      KeyOf(pub) in t.keys && st in t.keys[KeyOf(pub)].records && st.slot == SlotFor(pub) && !st.superseded
    requires var k, t := KeyOf(run.ops[i].publication), run.states[j];
      k in t.keys && later in t.keys[k].records && later.slot == st.slot && later.serial == st.serial
    ensures var pub, id := run.ops[i].publication, run.ops[i].publication.capability.device;
      && id in run.states[i + 1].devices && id in run.states[j].devices
      && var d, e, r := run.states[i + 1].devices[id].software, run.states[j].devices[id], pub.capability;
         Current(run.states[j], later, e, e.generation) <==>
         && !MovedBetween(run, i + 1, j, id, NewGeneration)
         && !(Follows(r, C.MinDriverVersion) && d.driver.id != 0 && MovedBetween(run, i + 1, j, id, Driver))
         && !(Follows(r, C.MinFirmwareVersion) && d.firmware.id != 0 && MovedBetween(run, i + 1, j, id, Firmware))
         && !(Follows(r, C.MinRuntimeVersion) && d.runtime.id != 0 && d.runtime.id == e.software.runtime.id
              && MovedBetween(run, i + 1, j, id, Runtime))
         && !SaysMoreBetween(run, i + 1, j, KeyOf(pub), SlotFor(pub))
         && (IsLive(r) ==>
               && !MovedBetween(run, i + 1, j, id, Platform)
               && !FencedBoot(run.states[j], pub.publisher.id, pub.publisher.boot)
               && run.states[j].epoch == run.states[i + 1].epoch)
  {
    hide StepAt, Staleness, Current, MovedBetween, SaysMoreBetween, Follows, IsLive, FencedBoot, RecordedAs;
    FlagsTellWhatMoved(run, i, j, st, later);
    SupersededIff(run, i + 1, j, KeyOf(run.ops[i].publication), st, later);
    var e := run.states[j].devices[run.ops[i].publication.capability.device];
    NoFlagsIff(run.states[j], later, e);
    EveryFlag(Staleness(run.states[j], later, e, e.generation));
  }

  lemma EveryFlag(flags: set<Flag>)
    ensures (forall f: Flag :: f !in flags) <==>
      && DeviceGenerationSuperseded !in flags && DeviceBootChanged !in flags && DriverGenerationChanged !in flags
      && FirmwareGenerationChanged !in flags && RuntimeGenerationChanged !in flags && PlatformGenerationChanged !in flags
      && PublisherFenced !in flags && EpochSuperseded !in flags && SupersededByNewerEvidence !in flags
      && Withdrawn !in flags && RequiresRevalidation !in flags
  {
    forall f: Flag | f in flags
      ensures
        || DeviceGenerationSuperseded in flags || DeviceBootChanged in flags || DriverGenerationChanged in flags
        || FirmwareGenerationChanged in flags || RuntimeGenerationChanged in flags || PlatformGenerationChanged in flags
        || PublisherFenced in flags || EpochSuperseded in flags || SupersededByNewerEvidence in flags
        || Withdrawn in flags || RequiresRevalidation in flags
    {
      match f {
        case DeviceGenerationSuperseded =>
        case DeviceBootChanged =>
        case DriverGenerationChanged =>
        case FirmwareGenerationChanged =>
        case RuntimeGenerationChanged =>
        case PlatformGenerationChanged =>
        case PublisherFenced =>
        case EpochSuperseded =>
        case SupersededByNewerEvidence =>
        case Withdrawn =>
        case RequiresRevalidation =>
      }
    }
  }

  /**
   * Once an accepted observation has opened a generation of the device, no record that was stored for it before is current,
   * then or at any later point of the process.
   */
  lemma NothingOlderIsCurrent(run: Run, m: nat, j: nat, k: KeyId, st: Stored, later: Stored)
    requires Behaviour(run) && m < j && SameProcess(run, m, j) && MovesAt(run, m, k.0, NewGeneration)
    requires k in run.states[m].keys && st in run.states[m].keys[k].records
    requires k in run.states[j].keys && later in run.states[j].keys[k].records && later.slot == st.slot && later.serial == st.serial
    ensures k.0 in run.states[j].devices
    ensures forall target :: !Current(run.states[j], later, run.states[j].devices[k.0], target)
  {
    hide StepAt, Inv, Bound, Grows, HasFlag, MovesAt, RecordOk;
    var s, t := run.states[m], run.states[j];
    RunKeeps(run, m);
    RunGrows(run, m, j);
    KnownWhenMoved(run, m, k.0);
    AxisStep(run, m, k.0, NewGeneration);
    AxisMovesIff(run, m + 1, j, k.0, NewGeneration);
    SameStored(s, t, k, st, later);
    RecordFacts(s, k, st);
    RecordIsNotAhead(s, k, st.record);
    forall target ensures !Current(t, later, t.devices[k.0], target) {
      OtherGenerationIsStale(t, later, t.devices[k.0], target);
    }
  }

  lemma KnownWhenMoved(run: Run, m: nat, id: nat)
    requires Behaviour(run) && m < |run.ops| && MovesAt(run, m, id, NewGeneration)
    ensures id in run.states[m].devices
  {
    hide StepAt;
  }

  lemma RecordIsNotAhead(s: State, k: KeyId, r: Record)
    requires RecordOk(s, k, r)
    ensures k.0 in s.devices && r.deviceGeneration <= s.devices[k.0].generation
  {
    hide ValidRecord, WithinPublisher, UnderSchema;
  }

  lemma OtherGenerationIsStale(s: State, st: Stored, d: Device, target: nat)
    requires st.record.deviceGeneration < d.generation
    ensures !Current(s, st, d, target)
  {
    assert HasFlag(s, st, d, target, DeviceGenerationSuperseded);
  }
}
