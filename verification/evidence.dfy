// What accepting a capability publication achieves: fresh evidence is current
// and answered, and a withdrawal retracts what its source claimed before.
module Evidence {
  import opened Basics
  import C = Conditions
  import opened Model
  import opened Steps
  import opened Eviction
  import opened Invariants
  import opened Admission
  import opened History
  import opened Resolution
  import opened Observing

  // ---- the stored record survives the eviction that follows it ---------------------------

  lemma {:induction false} LatestIsStored(records: seq<Stored>, slot: Slot)
    ensures var l := Latest(records, slot); l.Some? ==> l.value in records && l.value.slot == slot
  {
    if records != [] { LatestIsStored(records[..|records| - 1], slot); }
  }

  lemma AppendedIsLatest(key: Key, r: Record, serial: nat)
    requires Ordered(Append(key, r, serial).records)
    ensures Latest(Append(key, r, serial).records, SlotOf(r)) == Some(Stored(r, false, SlotOf(r), serial))
  {
    hide Ordered, Supersede, Latest;
    var records := Append(key, r, serial).records;
    LatestIsLast(records, SlotOf(r), |records| - 1);
  }

  /** The newest record of the slot of `r` is `r` itself, unsuperseded, and the last that was stored. */
  predicate HoldsRecord(t: State, r: Record) {
    && IdOf(r) in t.keys
    && var l := Latest(t.keys[IdOf(r)].records, SlotOf(r));
       l.Some? && l.value.record == r && !l.value.superseded && l.value.serial + 1 == t.nextSerial
  }

  lemma ThinnedHolds(s: State, t: State, r: Record)
    requires HoldsRecord(s, r) && AllThinned(s.keys, t.keys) && t.nextSerial == s.nextSerial
    ensures HoldsRecord(t, r)
  {
    hide Latest, Candidates, Ordered;
    assert Thinned(s.keys[IdOf(r)].records, t.keys[IdOf(r)].records);
  }

  lemma StoreHolds(s: State, r: Record)
    requires IdOf(r) in s.keys && Inv(Store(s, r))
    ensures HoldsRecord(Store(s, r), r)
  {
    hide Inv, Latest, Append, OneClaim, Ordered, RecordOk;
    KnowledgeWas(Store(s, r));
    KeyIsOrdered(Store(s, r), IdOf(r));
    AppendedIsLatest(s.keys[IdOf(r)], r, s.nextSerial);
  }

  lemma KeyIsOrdered(s: State, k: KeyId)
    requires KeysOk(s) && k in s.keys
    ensures Ordered(s.keys[k].records)
  {
    hide Ordered, OneClaim, RecordOk;
  }

  lemma MakeRoomHolds(s: State, r: Record)
    requires Inv(s) && IdOf(r) in s.keys && RecordOk(s, IdOf(r), r) && Fits(s.keys[IdOf(r)], r)
    requires MakeRoom(s, r).reply.code == Accepted
    ensures HoldsRecord(MakeRoom(s, r).state, r)
  {
    hide Inv, Grows, Fits, RecordOk, EvictIfNeeded, Store, AllThinned, HoldsRecord;
    var max := s.config.limits.maxEvidenceHistory;
    var room := if s.evidenceCount >= max then EvictIfNeeded(s) else s;
    if s.evidenceCount >= max {
      EvictKeeps(s);
      FitsAfterEviction(s, room, r);
      SameRecordOk(s, room, IdOf(r), r);
    }
    StoreKeeps(room, r);
    EvictKeeps(Store(room, r));
    StoreHolds(room, r);
    ThinnedHolds(Store(room, r), EvictIfNeeded(Store(room, r)), r);
  }

  /**
   * The record as it is stored: under the software and platform generations the device has, for the runtime it has, and
   * under a capability generation that is assigned; everything else is as published.
   */
  predicate StoredAs(r: Record, d: Device, stored: Record) {
    && stored.driverGeneration == d.software.driverGeneration
    && stored.firmwareGeneration == d.software.firmwareGeneration
    && stored.runtimeGeneration == d.software.runtimeGeneration
    && stored.runtimeId == d.software.runtime.id
    && stored.platformGeneration == d.platformGeneration
    && stored.device == r.device && stored.deviceGeneration == r.deviceGeneration && stored.deviceBoot == r.deviceBoot
    && stored.capability == r.capability && stored.schema == r.schema
    && stored.support == r.support && stored.value == r.value && stored.precision == r.precision
    && stored.source == r.source && stored.conditions == r.conditions && stored.withdrawn == r.withdrawn
  }

  lemma AdmitHolds(s: State, r: Record)
    requires Inv(s) && IdOf(r) in s.keys && Admissible(s, r) && s.keys[IdOf(r)].schema == r.schema
    requires Admit(s, r).reply.code == Accepted
    ensures exists stored :: StoredAs(r, s.devices[r.device], stored) && HoldsRecord(Admit(s, r).state, stored)
  {
    hide Inv, Grows, RecordOk, MakeRoom, CurrentWinner, Latest, Repeats, KeyOk, ValidRecord, UnderSchema, AssignGeneration, Fits, HoldsRecord;
    KnowledgeWas(s);
    KeyWasOk(s, IdOf(r));
    var d, key := s.devices[r.device], s.keys[IdOf(r)];
    var bound := Bind(r, d);
    var g := AssignGeneration(key, CurrentWinner(s, key.records, d), bound);
    var record := bound.(capabilityGeneration := g);
    AssignedGenerationFits(s, key, bound, d);
    var raised := s.(keys := s.keys[IdOf(r) := Raise(key, g)]);
    RaiseKeeps(s, IdOf(r), Raise(key, g));
    BoundRecordOk(s, r, g);
    SameRecordOk(s, raised, IdOf(r), record);
    MakeRoomHolds(raised, record);
    assert StoredAs(r, d, record);
  }

  lemma KeyWasOk(s: State, k: KeyId)
    requires KeysOk(s) && k in s.keys
    ensures KeyOk(s.keys[k], s.nextSerial)
  {
    hide KeyOk, RecordOk;
  }

  lemma CapabilityHolds(s: State, r: Record)
    requires Inv(s) && FromSender(s, r) && ValidRecord(s.config, r) && ApplyCapability(s, r).reply.code == Accepted
    ensures DeviceRejection(s, r) == None
    ensures exists stored :: StoredAs(r, s.devices[r.device], stored) && HoldsRecord(ApplyCapability(s, r).state, stored)
  {
    hide Inv, Grows, ValidRecord, EnsureKey, Admit, HoldsRecord, StoredAs, KeyRejection, DeviceRejection;
    RejectionsAreRejections(s, r);
    EnsureKeeps(s, r) by { KnownDevice(s, r); }
    EnsureKeepsRest(s, r);
    EnsureRejection(s, r);
    var (ready, refused) := EnsureKey(s, r);
    KeyRejectionIsRejection(ready.keys[IdOf(r)], r);
    SchemaAgrees(ready.keys[IdOf(r)], r);
    AdmissibleStill(s, ready, r);
    AdmitHolds(ready, r);
  }

  lemma KnownDevice(s: State, r: Record)
    ensures DeviceRejection(s, r) == None ==> r.device in s.devices
  {}

  lemma RejectionsAreRejections(s: State, r: Record)
    ensures match SchemaRejection(s.config, r) case Some(code) => code != Accepted case None => UnderSchema(s.config, r)
    ensures match DeviceRejection(s, r) case Some(code) => code != Accepted case None => true
  {}

  lemma EnsureRejection(s: State, r: Record)
    ensures match EnsureKey(s, r).1 case Some(code) => code != Accepted case None => IdOf(r) in EnsureKey(s, r).0.keys
  {}

  lemma KeyRejectionIsRejection(key: Key, r: Record)
    ensures match KeyRejection(key, r) case Some(code) => code != Accepted case None => true
  {}

  lemma SchemaAgrees(key: Key, r: Record)
    ensures KeyRejection(key, r) == None ==> key.schema == r.schema
  {}

  lemma AdmissibleStill(s: State, t: State, r: Record)
    requires FromSender(s, r) && ValidRecord(s.config, r) && UnderSchema(s.config, r) && DeviceRejection(s, r) == None
    requires t == s.(keys := t.keys, deviceKeys := t.deviceKeys)
    ensures Admissible(t, r) && t.devices[r.device] == s.devices[r.device]
  {}

  // ---- through the envelope --------------------------------------------------------------------

  /** The published record under its attributed publisher and schema. */
  function Published(s: State, pub: Publication): Record { Attribute(s.config, pub).capability }

  /** After the publication the key holds the published record as the newest of its slot. */
  ghost predicate Landed(s: State, pub: Publication) {
    var t, r := ApplyPublication(s, pub).state, Published(s, pub);
    && r.device in t.devices && DeviceRejection(t, r) == None
    && Authoritative(t.publishers, pub.publisher.id, pub.publisher.boot) && pub.publisher.epoch == t.epoch
    && exists stored :: StoredAs(r, t.devices[r.device], stored) && HoldsRecord(t, stored)
  }

  lemma SequencedLands(s: State, pub: Publication)
    requires Inv(s) && SenderRejection(s, pub.publisher) == None && Validated(s.config, pub) && IsCapability(pub.kind)
    requires pub.capability.source.publisher == pub.publisher && Sequenced(s, pub).reply.code == Accepted
    ensures var t := Sequenced(s, pub).state;
      && DeviceRejection(t, pub.capability) == None && t.epoch == s.epoch
      && Authoritative(t.publishers, pub.publisher.id, pub.publisher.boot)
      && exists stored :: StoredAs(pub.capability, t.devices[pub.capability.device], stored) && HoldsRecord(t, stored)
  {
    hide Inv, Grows, PublisherOk, ApplyCapability, SequenceVerdict, RecordAcceptance, ValidRecord, WatermarkOf, StoredAs, HoldsRecord, ValidQuirk;
    var id := pub.publisher.id;
    OpenedKeeps(s, pub);
    var open := Opened(s, pub);
    VerdictNeverAccepts(open.publishers[id], pub);
    CapabilityTouchesOnlyKeys(open, pub.capability);
    CapabilityHolds(open, pub.capability);
    var o, t := ApplyCapability(open, pub.capability), Sequenced(s, pub).state;
    AcceptanceKeepsAuthority(open.publishers[id], pub);
    RegisteredBoot(open, pub.publisher);
    var stored :| StoredAs(pub.capability, open.devices[pub.capability.device], stored) && HoldsRecord(o.state, stored);
    SameKeysHold(o.state, t, stored);
  }

  lemma SameKeysHold(s: State, t: State, r: Record)
    requires HoldsRecord(s, r) && s.keys == t.keys && s.nextSerial == t.nextSerial
    ensures HoldsRecord(t, r)
  {
    hide Latest;
  }

  lemma AcceptanceKeepsAuthority(p: Publisher, pub: Publication)
    ensures var q := RecordAcceptance(p, pub);
      q.boot == p.boot && q.state == p.state && q.fencedBoots == p.fencedBoots && q.fenced == p.fenced
  {
    hide TrimFingerprints;
  }

  /** An admitted sender is authoritative. */
  lemma RegisteredBoot(s: State, who: Identity)
    requires Inv(s) && SenderRejection(s, who) == None
    ensures Authoritative(s.publishers, who.id, who.boot)
  {
    hide Inv;
    PublishersWere(s);
  }

  lemma PublicationLands(s: State, pub: Publication)
    requires Inv(s) && IsCapability(pub.kind) && ApplyPublication(s, pub).reply.code == Accepted
    ensures Landed(s, pub)
  {
    hide Inv, Sequenced, Validated, SenderRejection, Unbound, StoredAs, HoldsRecord, DeviceRejection, Authoritative;
    var p := Attribute(s.config, pub);
    SenderNeverAccepts(s, p.publisher);
    SequencedLands(s, p);
    KnownDevice(Sequenced(s, p).state, p.capability);
    AdmittedEpoch(s, p.publisher);
  }

  lemma AdmittedEpoch(s: State, who: Identity)
    requires SenderRejection(s, who) == None
    ensures who.epoch == s.epoch
  {}

  // ---- fresh evidence counts ---------------------------------------------------------------------

  lemma FreshIsCurrent(t: State, r: Record, d: Device, stored: Record, st: Stored)
    requires StoredAs(r, d, stored) && st.record == stored && !st.superseded && !r.withdrawn
    requires r.deviceGeneration == d.generation && r.deviceBoot == d.boot
    requires Authoritative(t.publishers, r.source.publisher.id, r.source.publisher.boot) && r.source.publisher.epoch == t.epoch
    ensures Current(t, st, d, d.generation)
  {
    hide Authoritative, C.Mentions, IsDurable;
    forall f: Flag ensures !HasFlag(t, st, d, d.generation, f) {}
  }

  lemma AcceptedDevice(t: State, r: Record)
    requires DeviceRejection(t, r) == None
    ensures r.device in t.devices && r.deviceGeneration == t.devices[r.device].generation && r.deviceBoot == t.devices[r.device].boot
  {}

  lemma PublishedIsCurrent(s: State, pub: Publication, facts: C.Facts, ids: seq<nat>)
    requires Inv(s) && pub.kind == PublishCapability && ApplyPublication(s, pub).reply.code == Accepted
    requires forall i :: 0 <= i < |ids| ==> ids[i] in ApplyPublication(s, pub).state.quirks
    ensures var t, r := ApplyPublication(s, pub).state, Published(s, pub); var k := IdOf(r);
      && k in t.keys && r.device in t.devices
      && var d := t.devices[r.device];
         && (exists st :: st in t.keys[k].records && StoredAs(r, d, st.record) && Staleness(t, st, d, d.generation) == {})
         && var answer := Resolve(t, r.device, r.capability, 0, facts, ids); answer.current && answer.contradiction != NeedsRevalidation
  {
    hide Inv, ApplyPublication, HoldsRecord, StoredAs, DeviceRejection, HasFlag, Authoritative, Classify, Gather, C.Evaluate, Winner, Published, Newest, AllFlags, Candidates;
    PublicationLands(s, pub);
    var t, r := ApplyPublication(s, pub).state, Published(s, pub);
    AcceptedDevice(t, r);
    var d := t.devices[r.device];
    var stored :| StoredAs(r, d, stored) && HoldsRecord(t, stored);
    PublishedFacts(s, pub);
    SameKey(r, d, stored);
    var st := HeldRecord(t, stored);
    FreshIsCurrent(t, r, d, stored, st);
    assert forall f: Flag :: !HasFlag(t, st, d, d.generation, f);
    assert Staleness(t, st, d, d.generation) == {};
    CandidatesAre(t, t.keys[IdOf(r)].records, d, d.generation);
    var cs := Candidates(t, t.keys[IdOf(r)].records, d, d.generation);
    assert st in cs;
    ClassifiedIsNotStale(cs);
  }

  /**
   * An accepted, non-repeated capability publication leaves its record, as published, without any staleness flag, and its key
   * is answered from current evidence.
   */
  lemma FreshEvidenceCounts(run: Run, i: nat, facts: C.Facts, ids: seq<nat>)
    requires Behaviour(run) && i < |run.ops| && run.replies[i].code == Accepted
    requires run.ops[i].Publish? && run.ops[i].publication.kind == PublishCapability
    requires forall n :: 0 <= n < |ids| ==> ids[n] in run.states[i + 1].quirks
    ensures var t, r := run.states[i + 1], Published(run.states[i], run.ops[i].publication);
      && IdOf(r) in t.keys && r.device in t.devices
      && var d := t.devices[r.device];
         && (exists st :: st in t.keys[IdOf(r)].records && StoredAs(r, d, st.record) && Staleness(t, st, d, d.generation) == {})
         && var answer := Resolve(t, r.device, r.capability, 0, facts, ids); answer.current && answer.contradiction != NeedsRevalidation
  {
    hide Inv, Allowed, ApplyPublication, StoredAs, Resolve, Published, Staleness;
    RunKeeps(run, i);
    assert StepAt(run, i);
    PublishedIsCurrent(run.states[i], run.ops[i].publication, facts, ids);
  }

  lemma ClassifiedIsNotStale(cs: seq<Stored>)
    requires cs != []
    ensures Classify(cs) != NeedsRevalidation
  {
    hide AllAgree, TopAgree, RealDissent;
  }

  lemma SameKey(r: Record, d: Device, stored: Record)
    requires StoredAs(r, d, stored)
    ensures IdOf(stored) == IdOf(r) && SlotOf(stored) == SlotOf(r) && stored.withdrawn == r.withdrawn
  {}

  ghost function HeldRecord(t: State, r: Record): (st: Stored)
    requires HoldsRecord(t, r)
    ensures IdOf(r) in t.keys && st in t.keys[IdOf(r)].records && st.record == r && !st.superseded && st.slot == SlotOf(r)
    ensures st.serial + 1 == t.nextSerial
    ensures Latest(t.keys[IdOf(r)].records, SlotOf(r)) == Some(st)
  {
    LatestIsStored(t.keys[IdOf(r)].records, SlotOf(r));
    Latest(t.keys[IdOf(r)].records, SlotOf(r)).value
  }

  lemma PublishedFacts(s: State, pub: Publication)
    requires IsAccepted(ApplyPublication(s, pub).reply.code) && IsCapability(pub.kind)
    ensures Published(s, pub).source.publisher == pub.publisher
    ensures Published(s, pub).withdrawn <==> pub.kind == WithdrawCapability
  {
    hide Sequenced, SenderRejection, Unbound, ValidRecord;
  }

  // ---- a withdrawal retracts -----------------------------------------------------------------------

  lemma OlderIsSuperseded(records: seq<Stored>, slot: Slot, st: Stored)
    requires Ordered(records) && st in records && st.slot == slot
    ensures Latest(records, slot) == Some(st) || st.superseded
  {
    hide Latest;
    var i :| 0 <= i < |records| && records[i] == st;
    var m := LastOf(records, slot);
    LatestIsLast(records, slot, m);
    assert i <= m;
  }

  lemma FlaggedIsNotCurrent(t: State, st: Stored, d: Device, target: nat)
    requires st.superseded || st.record.withdrawn
    ensures !Current(t, st, d, target)
  {
    assert st.superseded ==> HasFlag(t, st, d, target, SupersededByNewerEvidence);
    assert st.record.withdrawn ==> HasFlag(t, st, d, target, Withdrawn);
  }

  lemma WithdrawnIsRetracted(s: State, pub: Publication, d: Device, target: nat)
    requires Inv(s) && pub.kind == WithdrawCapability && ApplyPublication(s, pub).reply.code == Accepted
    ensures var t, r := ApplyPublication(s, pub).state, Published(s, pub);
      && IdOf(r) in t.keys
      && forall st :: st in t.keys[IdOf(r)].records && st.slot == SlotOf(r) ==>
           st !in Candidates(t, t.keys[IdOf(r)].records, d, target)
  {
    hide Inv, ApplyPublication, HoldsRecord, StoredAs, DeviceRejection, HasFlag, Authoritative, Published, Candidates, Current, Ordered;
    PublicationLands(s, pub);
    PublicationKeeps(s, pub);
    PublishedFacts(s, pub);
    var t, r := ApplyPublication(s, pub).state, Published(s, pub);
    var stored :| StoredAs(r, t.devices[r.device], stored) && HoldsRecord(t, stored);
    SameKey(r, t.devices[r.device], stored);
    var w := HeldRecord(t, stored);
    var records := t.keys[IdOf(r)].records;
    CandidatesAre(t, records, d, target);
    KnowledgeWas(t);
    KeyIsOrdered(t, IdOf(r));
    forall st | st in records && st.slot == SlotOf(r) ensures st !in Candidates(t, records, d, target) {
      OlderIsSuperseded(records, SlotOf(r), st);
      FlaggedIsNotCurrent(t, st, d, target);
    }
  }

  /** After an accepted withdrawal nothing that publisher boot ever said through that source class is current evidence for the key. */
  lemma WithdrawalRetracts(run: Run, i: nat, d: Device, target: nat)
    requires Behaviour(run) && i < |run.ops| && run.replies[i].code == Accepted
    requires run.ops[i].Publish? && run.ops[i].publication.kind == WithdrawCapability
    ensures var t, r := run.states[i + 1], Published(run.states[i], run.ops[i].publication);
      && IdOf(r) in t.keys
      && forall st :: st in t.keys[IdOf(r)].records && st.slot == SlotOf(r) ==>
           st !in Candidates(t, t.keys[IdOf(r)].records, d, target)
  {
    hide Inv, Allowed, ApplyPublication, Published, Candidates;
    RunKeeps(run, i);
    assert StepAt(run, i);
    WithdrawnIsRetracted(run.states[i], run.ops[i].publication, d, target);
  }
}
