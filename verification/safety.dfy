// What no run of the registry can undo: a fenced boot stays powerless, stale
// evidence stays stale, a replayed publication changes nothing, a generation
// stands for one claim, and a restart restores no authority.
module Safety {
  import opened Basics
  import C = Conditions
  import R = Readability
  import opened Model
  import opened Steps
  import opened Eviction
  import opened Invariants
  import opened Admission
  import opened Restart
  import opened Recovery
  import opened History

  // ---- fencing is forever ---------------------------------------------------------------

  predicate FencedBoot(s: State, id: nat, boot: nat) {
    id in s.publishers && boot in s.publishers[id].fencedBoots
  }

  lemma GrowthKeepsFences(s: State, t: State, id: nat, boot: nat)
    requires Grows(s, t) && FencedBoot(s, id, boot)
    ensures FencedBoot(t, id, boot)
  {
    hide KeysGrow, DevicesGrow, WatermarkOf;
  }

  lemma RecoveryKeepsFences(s: State, f: State, t: State, id: nat, boot: nat)
    requires Recovers(s, f, t) && FencedBoot(s, id, boot)
    ensures FencedBoot(t, id, boot)
  {
    hide BareRecords;
  }

  lemma StepKeepsFences(s: State, op: Op, id: nat, boot: nat)
    requires Inv(s) && Bound(s.config) && Allowed(s, op) && FencedBoot(s, id, boot)
    ensures FencedBoot(Step(s, op).state, id, boot)
  {
    hide Inv, Grows, Bound, FencedBoot, Recovers, IsExport, Import, RegisterPublisher, FencePublisher, RetireBoot, ApplyPublication;
    StepKeeps(s, op);
    match op {
      case RestartFrom(durable) =>
        ImportOfExport(s, Fresh(s.config), durable);
        RecoveryKeepsFences(s, Fresh(s.config), Import(Fresh(s.config), durable).state, id, boot);
      case _ => GrowthKeepsFences(s, Step(s, op).state, id, boot);
    }
  }

  lemma {:induction false} RunKeepsFences(run: Run, i: nat, j: nat, id: nat, boot: nat)
    requires Behaviour(run) && i <= j < |run.states| && FencedBoot(run.states[i], id, boot)
    ensures FencedBoot(run.states[j], id, boot)
    decreases j
  {
    hide Inv, Step, Allowed, Bound, FencedBoot;
    if i < j {
      RunKeepsFences(run, i, j - 1, id, boot);
      RunKeeps(run, j - 1);
      assert StepAt(run, j - 1);
      StepKeepsFences(run.states[j - 1], run.ops[j - 1], id, boot);
    }
  }

  /** No registration hands out a fenced boot. */
  lemma NeverAssigned(s: State, identity: Identity, adapter: string, boot: nat)
    requires Inv(s) && FencedBoot(s, identity.id, boot)
    ensures var reply := RegisterPublisher(s, identity, adapter).reply; IsAccepted(reply.code) ==> reply.identity.boot != boot
  {
    hide Inv;
    PublishersWere(s);
  }

  /** Nothing a fenced boot sends is accepted, or changes anything. */
  lemma AlwaysRefused(s: State, pub: Publication)
    requires FencedBoot(s, pub.publisher.id, pub.publisher.boot)
    ensures !IsAccepted(ApplyPublication(s, pub).reply.code) && ApplyPublication(s, pub).state == s
  {
    hide Sequenced, Validated, Unbound;
    ValidatedBoot(s.config, Attribute(s.config, pub));
    if pub.publisher.boot != 0 { RegisteringFencedBoot(s, pub.publisher, pub.adapter); }
  }

  lemma ValidatedBoot(config: Config, p: Publication)
    ensures Validated(config, p) ==> p.publisher.boot != 0 && p.publisher.id != 0
  {}

  lemma RegisteringFencedBoot(s: State, identity: Identity, adapter: string)
    requires FencedBoot(s, identity.id, identity.boot) && identity.boot != 0
    ensures var o := RegisterPublisher(s, identity, adapter); !IsAccepted(o.reply.code) && o.state == s
  {}

  /** The operation asks to register this publisher, by a registration or by a publication of that kind. */
  predicate Registers(op: Op, id: nat) {
    || (op.Register? && op.identity.id == id)
    || (op.Publish? && op.publication.kind == RegisterPublisherKind && op.publication.publisher.id == id)
  }

  /** An accepted request to register has gone through the one registration there is. */
  lemma AcceptedRegistration(s: State, op: Op, id: nat) returns (identity: Identity, adapter: string)
    requires Registers(op, id) && IsAccepted(Step(s, op).reply.code)
    ensures identity.id == id && Step(s, op) == RegisterPublisher(s, identity, adapter)
  {
    hide RegisterPublisher, Validated, Unbound;
    if op.Register? { return op.identity, op.adapter; } else { return op.publication.publisher, op.publication.adapter; }
  }

  /**
   * Once a boot is fenced, at every later point of every run, clean restarts included, it is not authoritative; a
   * publication that carries it is refused and changes nothing; and no registration assigns or re-affirms it.
   */
  lemma FencingIsForever(run: Run, i: nat, j: nat, id: nat, boot: nat)
    requires Behaviour(run) && i <= j < |run.ops| && FencedBoot(run.states[i], id, boot)
    ensures !Authoritative(run.states[j].publishers, id, boot)
    ensures run.ops[j].Publish? && run.ops[j].publication.publisher.id == id && run.ops[j].publication.publisher.boot == boot ==>
      !IsAccepted(run.replies[j].code) && run.states[j + 1] == run.states[j]
    ensures Registers(run.ops[j], id) && IsAccepted(run.replies[j].code) ==> run.replies[j].identity.boot != boot
  {
    hide Inv, Bound, Allowed, ApplyPublication, RegisterPublisher;
    RunKeepsFences(run, i, j, id, boot);
    RunKeeps(run, j);
    assert StepAt(run, j);
    if run.ops[j].Publish? {
      var pub := run.ops[j].publication;
      if pub.publisher.id == id && pub.publisher.boot == boot { AlwaysRefused(run.states[j], pub); }
    }
    if Registers(run.ops[j], id) && IsAccepted(run.replies[j].code) {
      var identity, adapter := AcceptedRegistration(run.states[j], run.ops[j], id);
      NeverAssigned(run.states[j], identity, adapter, boot);
    }
  }

  /** What fences a boot: fencing its publisher, retiring it, resetting liveness, or registering the next one. */
  lemma WhatFences(s: State, id: nat)
    requires Inv(s) && id in s.publishers
    ensures FencedBoot(FencePublisher(s, id).state, id, s.publishers[id].boot)
    ensures FencedBoot(RetireBoot(s, id, s.publishers[id].boot).state, id, s.publishers[id].boot)
    ensures FencedBoot(ResetLiveness(s), id, s.publishers[id].boot)
  {
    hide Inv;
    PublishersWere(s);
    if s.publishers[id].fenced { FencedPublisherBoot(s, id); }
  }

  /** Registering anew opens the next boot and fences the one before. */
  lemma NextBootFences(s: State, id: nat, adapter: string)
    requires Inv(s) && id in s.publishers
    ensures var o := RegisterPublisher(s, Identity(id, 0, 0), adapter);
      IsAccepted(o.reply.code) ==> FencedBoot(o.state, id, s.publishers[id].boot) && o.reply.identity.boot == s.publishers[id].boot + 1
  {
    hide Inv;
    PublishersWere(s);
  }

  lemma FencedPublisherBoot(s: State, id: nat)
    requires Inv(s) && id in s.publishers && s.publishers[id].fenced
    ensures s.publishers[id].boot in s.publishers[id].fencedBoots
  {
    hide Inv;
    PublishersWere(s);
  }

  // ---- why only assigned boots may be retired ------------------------------------------------

  /** The state after `n` fresh registrations of one publisher. */
  function Reregistered(s: State, id: nat, adapter: string, n: nat): State {
    if n == 0 then s else RegisterOpen(Reregistered(s, id, adapter, n - 1), Identity(id, 0, 0), adapter).state
  }

  /** A publisher that may register. */
  predicate MayRegister(s: State, id: nat, adapter: string) {
    && id != 0 && id in s.publishers && !s.publishers[id].fenced && s.publishers[id].boot >= 1 && !s.shuttingDown
    && adapter != "" && |adapter| <= s.config.limits.maxMetadataBytes
  }

  lemma OneMoreBoot(s: State, id: nat, adapter: string)
    requires MayRegister(s, id, adapter)
    ensures var t := RegisterOpen(s, Identity(id, 0, 0), adapter).state;
      && MayRegister(t, id, adapter) && t.publishers[id].boot == s.publishers[id].boot + 1
      && s.publishers[id].fencedBoots <= t.publishers[id].fencedBoots
  {}

  lemma {:induction false} BootsAfter(s: State, id: nat, adapter: string, n: nat)
    requires MayRegister(s, id, adapter)
    ensures var t := Reregistered(s, id, adapter, n);
      && MayRegister(t, id, adapter) && t.publishers[id].boot == s.publishers[id].boot + n
      && s.publishers[id].fencedBoots <= t.publishers[id].fencedBoots
    decreases n
  {
    hide RegisterOpen;
    if n > 0 {
      BootsAfter(s, id, adapter, n - 1);
      OneMoreBoot(Reregistered(s, id, adapter, n - 1), id, adapter);
    }
  }

  /** A boot retired ahead of its assignment is later handed out although it is fenced. */
  lemma RetiringAheadBreaksFencing(s: State, id: nat, boot: nat, adapter: string)
    requires Inv(s) && MayRegister(s, id, adapter) && boot > s.publishers[id].boot
    ensures var retired := RetireBoot(s, id, boot).state;
      var t := Reregistered(retired, id, adapter, boot - 1 - s.publishers[id].boot);
      var reply := RegisterPublisher(t, Identity(id, 0, 0), adapter).reply;
      FencedBoot(retired, id, boot) && FencedBoot(t, id, boot) && reply.code == Accepted && reply.identity.boot == boot
  {
    hide Inv, Reregistered;
    PublishersWere(s);
    BootsAfter(RetireBoot(s, id, boot).state, id, adapter, boot - 1 - s.publishers[id].boot);
  }

  // ---- staleness is absorbing -------------------------------------------------------------------

  /** The same stored record, recognised by key, slot and serial, at a later time. */
  lemma SameStored(s: State, t: State, k: KeyId, st: Stored, later: Stored)
    requires Inv(s) && Grows(s, t) && k in s.keys && k in t.keys
    requires st in s.keys[k].records && later in t.keys[k].records && st.slot == later.slot && st.serial == later.serial
    ensures later.record == st.record && (st.superseded ==> later.superseded)
  {
    hide PublishersOk, DevicesOk, QuirksOk, FactsOk, Indexed, Counted, OneClaim, RecordOk, PublishersGrow, DevicesGrow;
    var records := s.keys[k].records;
    assert StoredOk(st, s.keys[k], s.nextSerial);
    assert DescendsFrom(records, later);
    var i :| 0 <= i < |records| && records[i].slot == later.slot && records[i].serial == later.serial
      && records[i].record == later.record && (records[i].superseded ==> later.superseded);
    var j :| 0 <= j < |records| && records[j] == st;
    OrderedIsUnique(records, i, j);
  }

  lemma OrderedIsUnique(records: seq<Stored>, i: nat, j: nat)
    requires Ordered(records) && i < |records| && j < |records|
    requires records[i].slot == records[j].slot && records[i].serial == records[j].serial
    ensures i == j
  {}

  lemma RecordFacts(s: State, k: KeyId, st: Stored)
    requires Inv(s) && k in s.keys && st in s.keys[k].records
    ensures RecordOk(s, k, st.record)
  {
    hide PublishersOk, DevicesOk, QuirksOk, FactsOk, Indexed, Counted, KeyOk, RecordOk;
  }

  lemma DeviceGrowth(s: State, t: State, id: nat)
    requires Grows(s, t) && id in s.devices
    ensures id in t.devices && DeviceGrows(s.devices[id], t.devices[id]) && s.epoch <= t.epoch
  {
    hide KeysGrow, PublishersGrow;
  }

  /** A boot that has lost authority never regains it. */
  lemma LostAuthority(s: State, t: State, who: Identity)
    requires Inv(s) && Grows(s, t) && WithinPublisher(s, who)
    requires !Authoritative(s.publishers, who.id, who.boot)
    ensures !Authoritative(t.publishers, who.id, who.boot)
  {
    hide KeysGrow, DevicesGrow, DevicesOk, QuirksOk, FactsOk, KnowledgeOk, WatermarkOf;
    var p, q := s.publishers[who.id], t.publishers[who.id];
    assert PublisherOk(p) && PublisherGrows(p, q);
  }

  lemma FlagIsKept(s: State, t: State, k: KeyId, st: Stored, later: Stored, flag: Flag)
    requires Inv(s) && Grows(s, t) && k in s.keys && k in t.keys && k.0 in s.devices && k.0 in t.devices
    requires st in s.keys[k].records && later in t.keys[k].records && st.slot == later.slot && st.serial == later.serial
    requires flag != RuntimeGenerationChanged
    requires HasFlag(s, st, s.devices[k.0], s.devices[k.0].generation, flag)
    ensures HasFlag(t, later, t.devices[k.0], t.devices[k.0].generation, flag)
  {
    hide Inv, Grows, Authoritative, UnderSchema, ValidRecord, C.Mentions, IsDurable;
    SameStored(s, t, k, st, later);
    RecordFacts(s, k, st);
    DeviceGrowth(s, t, k.0);
    if flag == PublisherFenced { LostAuthority(s, t, st.record.source.publisher); }
  }

  /**
   * Within one process, every flag a stored record carries against its device, except a runtime change, is carried in every
   * later state in which the record is still stored: stale evidence is never a candidate again.
   */
  lemma StalenessIsAbsorbing(run: Run, i: nat, j: nat, k: KeyId, st: Stored, later: Stored)
    requires Behaviour(run) && SameProcess(run, i, j)
    requires k in run.states[i].keys && st in run.states[i].keys[k].records
    requires k in run.states[j].keys && later in run.states[j].keys[k].records && st.slot == later.slot && st.serial == later.serial
    ensures k.0 in run.states[i].devices && k.0 in run.states[j].devices
    ensures var d, e := run.states[i].devices[k.0], run.states[j].devices[k.0];
      var flags := Staleness(run.states[i], st, d, d.generation) - {RuntimeGenerationChanged};
      flags <= Staleness(run.states[j], later, e, e.generation) && (flags != {} ==> !Current(run.states[j], later, e, e.generation))
  {
    hide Inv, Grows, HasFlag, Bound, RecordOk, Step, Allowed;
    var s, t := run.states[i], run.states[j];
    RunKeeps(run, i);
    RunKeeps(run, j);
    RunGrows(run, i, j);
    RecordFacts(s, k, st);
    DeviceOfKey(s, k);
    DeviceGrowth(s, t, k.0);
    var d, e := s.devices[k.0], t.devices[k.0];
    forall f | f in Staleness(s, st, d, d.generation) && f != RuntimeGenerationChanged ensures HasFlag(t, later, e, e.generation, f) {
      FlagIsKept(s, t, k, st, later, f);
    }
  }

  lemma DeviceOfKey(s: State, k: KeyId)
    requires Inv(s) && k in s.keys
    ensures k.0 in s.devices
  {
    hide PublishersOk, DevicesOk, QuirksOk, FactsOk, Indexed, Counted, KeyOk, RecordOk;
  }

  /** The excepted flag: a runtime change is forgotten exactly when the device has moved to another runtime. */
  lemma RuntimeFlagIsKeptIff(s: State, t: State, k: KeyId, st: Stored, later: Stored)
    requires Inv(s) && Grows(s, t) && k in s.keys && k in t.keys && k.0 in s.devices && k.0 in t.devices
    requires st in s.keys[k].records && later in t.keys[k].records && st.slot == later.slot && st.serial == later.serial
    requires HasFlag(s, st, s.devices[k.0], s.devices[k.0].generation, RuntimeGenerationChanged)
    ensures
      HasFlag(t, later, t.devices[k.0], t.devices[k.0].generation, RuntimeGenerationChanged) <==>
      t.devices[k.0].software.runtime.id == s.devices[k.0].software.runtime.id
  {
    hide Inv, Grows, UnderSchema, ValidRecord, C.Mentions, IsDurable;
    SameStored(s, t, k, st, later);
    RecordFacts(s, k, st);
    DeviceGrowth(s, t, k.0);
  }

  /** It does happen: naming another runtime in a refresh clears the flag of every record of the device. */
  lemma RuntimeFlagCanClear(s: State, st: Stored, d: Device, r: Registration)
    requires HasFlag(s, st, d, d.generation, RuntimeGenerationChanged) && r.runtime.id != 0 && r.runtime.id != d.software.runtime.id
    ensures var e := RefreshDevice(d, r, false); !HasFlag(s, st, e, e.generation, RuntimeGenerationChanged)
  {}

  // ---- one generation, one claim -------------------------------------------------------------------

  /**
   * In every state a run can reach, restarts included, records of one key that share a capability generation make the same
   * claim about the same device generation, and no record is ahead of its key.
   */
  lemma GenerationsNeverMixClaims(run: Run, j: nat, k: KeyId, a: Stored, b: Stored)
    requires Behaviour(run) && j < |run.states|
    requires k in run.states[j].keys && a in run.states[j].keys[k].records && b in run.states[j].keys[k].records
    ensures 1 <= a.record.capabilityGeneration <= run.states[j].keys[k].generation
    ensures a.record.capabilityGeneration == b.record.capabilityGeneration ==>
      && a.record.support == b.record.support && SameValue(a.record.value, b.record.value)
      && C.Describe(a.record.conditions) == C.Describe(b.record.conditions)
      && a.record.deviceGeneration == b.record.deviceGeneration
  {
    hide Inv, Bound, Ordered, C.Describe, SameValue, Step, Allowed;
    RunKeeps(run, j);
    KnowledgeWas(run.states[j]);
    KeyWas(run.states[j], k);
  }

  /**
   * Such records have the same outcome, whatever the facts, when the texts of their conditions hold no separator; the
   * renderings that are compared tell conditions apart only then.
   */
  lemma GenerationsNeverMixOutcomes(run: Run, j: nat, k: KeyId, a: Stored, b: Stored, facts: C.Facts)
    requires Behaviour(run) && j < |run.states|
    requires k in run.states[j].keys && a in run.states[j].keys[k].records && b in run.states[j].keys[k].records
    requires a.record.capabilityGeneration == b.record.capabilityGeneration
    requires R.PlainTexts(a.record.conditions) && R.PlainTexts(b.record.conditions)
    ensures R.Counting(C.Evaluate(a.record.conditions, facts)) == R.Counting(C.Evaluate(b.record.conditions, facts))
  {
    hide Inv, Bound, StepAt, C.Describe, C.Evaluate, C.Accepted, R.PlainTexts, SameValue;
    GenerationsNeverMixClaims(run, j, k, a, b);
    RunKeeps(run, j);
    CarriesConditions(run.states[j], k, a);
    CarriesConditions(run.states[j], k, b);
    R.RenderedAlikeSameOutcome(a.record.conditions, b.record.conditions, run.states[j].config.limits.conditions, facts);
  }

  lemma CarriesConditions(s: State, k: KeyId, st: Stored)
    requires Inv(s) && k in s.keys && st in s.keys[k].records
    ensures R.Carried(st.record.conditions, s.config.limits.conditions)
  {
    hide PublishersOk, DevicesOk, QuirksOk, FactsOk, Indexed, Counted, KeyOk, WithinDevice, WithinPublisher, UnderSchema, C.Accepted;
  }

  /** In every state of every run the evidence is counted exactly and within its bound. */
  lemma EvidenceIsBounded(run: Run, j: nat)
    requires Behaviour(run) && j < |run.states|
    ensures run.states[j].evidenceCount == Total(run.states[j].keys) <= run.states[j].config.limits.maxEvidenceHistory
  {
    hide Inv, Bound, Total, Step, Allowed;
    RunKeeps(run, j);
    KnowledgeWas(run.states[j]);
  }

  lemma KeyWas(s: State, k: KeyId)
    requires KeysOk(s) && k in s.keys
    ensures KeyOk(s.keys[k], s.nextSerial)
  {
    hide KeyOk, RecordOk;
  }

  /** Within one process no generation moves backwards: not of a key, a device axis, a publisher boot or the coordinator. */
  lemma GenerationsNeverDecrease(run: Run, i: nat, j: nat, k: KeyId, id: nat, publisher: nat)
    requires Behaviour(run) && SameProcess(run, i, j)
    ensures k in run.states[i].keys ==>
      k in run.states[j].keys && run.states[i].keys[k].generation <= run.states[j].keys[k].generation
      && run.states[i].keys[k].schema == run.states[j].keys[k].schema
    ensures id in run.states[i].devices ==> id in run.states[j].devices && DeviceGrows(run.states[i].devices[id], run.states[j].devices[id])
    ensures publisher in run.states[i].publishers ==>
      publisher in run.states[j].publishers && run.states[i].publishers[publisher].boot <= run.states[j].publishers[publisher].boot
    ensures run.states[i].epoch <= run.states[j].epoch
  {
    hide Inv, Bound, Descends, DeviceGrows, WatermarkOf, Step, Allowed;
    RunGrows(run, i, j);
  }

  // ---- a restart restores no authority ------------------------------------------------------------------

  /** What the coordinator does when it starts over an exported state. */
  ghost function Started(config: Config, d: Durable): State {
    ResetLiveness(AdvanceEpoch(Import(Fresh(config), d).state))
  }

  lemma RecoveredHasNoAuthority(s: State, t: State, id: nat, boot: nat)
    requires Recovers(s, Fresh(s.config), t)
    ensures !Authoritative(t.publishers, id, boot)
  {
    hide BareRecords;
  }

  lemma StartedIsInv(s: State, d: Durable)
    requires Inv(s) && Bound(s.config) && IsExport(s, d) && Import(Fresh(s.config), d).ok
    ensures var t := Started(s.config, d);
      && Inv(t) && t.epoch == s.epoch + 1 && t.devices == s.devices && t.config == s.config && t.quirks == s.quirks
      && t.facts == s.facts
      && t.publishers.Keys == s.publishers.Keys
      && (forall id :: id in s.publishers ==> t.publishers[id].boot == s.publishers[id].boot && !t.publishers[id].fenced)
      && (forall id, boot: nat :: !Authoritative(t.publishers, id, boot))
      && (forall k :: multiset(BareRecords(RecordsAt(t.keys, k))) == multiset(BareRecords(RecordsAt(s.keys, k))))
  {
    hide Inv, Bound, IsExport, Import, BareRecords;
    var f := Fresh(s.config);
    ImportOfExport(s, f, d);
    var loaded := Import(f, d).state;
    AdvanceKeeps(loaded);
    ResetKeeps(AdvanceEpoch(loaded));
    forall id, boot: nat ensures !Authoritative(Started(s.config, d).publishers, id, boot) {
      RecoveredHasNoAuthority(s, loaded, id, boot);
    }
    assert s.epoch >= 1 by { EpochWas(s); }
  }

  lemma EpochWas(s: State)
    requires Inv(s)
    ensures s.epoch >= 1
  {
    hide PublishersOk, DevicesOk, QuirksOk, FactsOk, KnowledgeOk;
  }

  /** Process-bound evidence from before the restart carries both flags. */
  lemma OldEvidenceIsStale(s: State, t: State, k: KeyId, st: Stored)
    requires Inv(s) && k in t.keys && st in t.keys[k].records && k.0 in t.devices
    requires t.epoch > s.epoch && !Authoritative(t.publishers, st.record.source.publisher.id, st.record.source.publisher.boot)
    requires multiset(BareRecords(RecordsAt(t.keys, k))) == multiset(BareRecords(RecordsAt(s.keys, k)))
    requires !IsDurable(st.record.source.provenance)
    ensures var d := t.devices[k.0]; {PublisherFenced, EpochSuperseded} <= Staleness(t, st, d, d.generation)
  {
    hide Inv, Authoritative, BareRecords, IsDurable, RecordOk, C.Mentions;
    SameRecords(RecordsAt(s.keys, k), t.keys[k].records, st);
    var was :| was in RecordsAt(s.keys, k) && was.record == st.record;
    assert k in s.keys;
    RecordFacts(s, k, was);
    assert st.record.source.publisher.epoch <= s.epoch by { RecordEpoch(s, k, st.record); }
    var d := t.devices[k.0];
    assert HasFlag(t, st, d, d.generation, PublisherFenced) && HasFlag(t, st, d, d.generation, EpochSuperseded);
  }

  lemma RecordEpoch(s: State, k: KeyId, r: Record)
    requires RecordOk(s, k, r)
    ensures r.source.publisher.epoch <= s.epoch
  {
    hide ValidRecord, WithinDevice, UnderSchema;
  }

  lemma OnlyOldEvidence(s: State, t: State, k: KeyId, facts: C.Facts, ids: seq<nat>)
    requires k in t.keys && k.0 in t.devices && forall i :: 0 <= i < |ids| ==> ids[i] in t.quirks
    requires forall st :: st in t.keys[k].records ==>
               PublisherFenced in Staleness(t, st, t.devices[k.0], t.devices[k.0].generation)
    ensures var answer := Resolve(t, k.0, k.1, 0, facts, ids);
      answer.effective == NotCurrent && answer.contradiction == NeedsRevalidation && !answer.current
  {
    hide HasFlag, Gather, C.Evaluate, Classify, Newest;
    var d := t.devices[k.0];
    assert k == (k.0, k.1);
    NoCandidates(t, t.keys[k].records, d, d.generation);
  }

  /** A clean start over an export of `s`. */
  ghost predicate CleanStart(s: State, d: Durable) {
    Inv(s) && Bound(s.config) && IsExport(s, d) && Import(Fresh(s.config), d).ok
  }

  predicate ProcessBound(st: Stored) { !IsDurable(st.record.source.provenance) }

  /** From its `i`-th state on the run goes through a clean start: load the export, advance the epoch, reset liveness. */
  predicate StartsAt(run: Run, i: nat) {
    i + 2 < |run.ops| && run.ops[i].RestartFrom? && run.ops[i + 1] == NewEpoch && run.ops[i + 2] == Reset
  }

  lemma StartInRun(run: Run, i: nat)
    requires Behaviour(run) && StartsAt(run, i)
    ensures CleanStart(run.states[i], run.ops[i].durable) && run.states[i + 3] == Started(run.states[i].config, run.ops[i].durable)
  {
    hide Inv, Bound, IsExport, Import, ResetLiveness, AdvanceEpoch;
    RunKeeps(run, i);
    assert StepAt(run, i);
    assert StepAt(run, i + 1);
    assert StepAt(run, i + 2);
  }

  lemma StartIsConservative(s: State, d: Durable, k: KeyId, st: Stored)
    requires CleanStart(s, d)
    requires var t := Started(s.config, d); k in t.keys && st in t.keys[k].records && ProcessBound(st)
    ensures var t := Started(s.config, d);
      k.0 in t.devices && {PublisherFenced, EpochSuperseded} <= Staleness(t, st, t.devices[k.0], t.devices[k.0].generation)
  {
    hide Inv, Bound, IsExport, Import, Started, BareRecords, Authoritative, IsDurable, HasFlag;
    StartedIsInv(s, d);
    var t := Started(s.config, d);
    DeviceOfKey(t, k);
    OldEvidenceIsStale(s, t, k, st);
  }

  /**
   * After a clean start the epoch is strictly larger, the same devices, quirks and facts and the same records of every key are
   * held, and no publisher is authoritative.
   */
  lemma RestartIsConservative(run: Run, i: nat, k: KeyId, id: nat, boot: nat)
    requires Behaviour(run) && StartsAt(run, i)
    ensures run.states[i + 3].epoch > run.states[i].epoch && run.states[i + 3].devices == run.states[i].devices
    ensures run.states[i + 3].quirks == run.states[i].quirks && run.states[i + 3].facts == run.states[i].facts
    ensures multiset(BareRecords(RecordsAt(run.states[i + 3].keys, k))) == multiset(BareRecords(RecordsAt(run.states[i].keys, k)))
    ensures !Authoritative(run.states[i + 3].publishers, id, boot)
  {
    hide StepAt, CleanStart, Started, BareRecords, Authoritative;
    StartInRun(run, i);
    StartIsClean(run.states[i], run.ops[i].durable);
  }

  lemma StartIsClean(s: State, d: Durable)
    requires CleanStart(s, d)
    ensures var t := Started(s.config, d);
      && Inv(t) && t.epoch == s.epoch + 1 && t.devices == s.devices && t.publishers.Keys == s.publishers.Keys
      && t.quirks == s.quirks && t.facts == s.facts
      && (forall id :: id in s.publishers ==> t.publishers[id].boot == s.publishers[id].boot)
      && (forall id, boot: nat :: !Authoritative(t.publishers, id, boot))
      && (forall k :: multiset(BareRecords(RecordsAt(t.keys, k))) == multiset(BareRecords(RecordsAt(s.keys, k))))
  {
    hide Inv, Bound, IsExport, Import, Started, BareRecords, Authoritative;
    StartedIsInv(s, d);
  }

  /** No process-bound record is current after a clean start, nor at any later time of that process. */
  lemma OldEvidenceNeverReturns(run: Run, i: nat, j: nat, k: KeyId, st: Stored, later: Stored)
    requires Behaviour(run) && StartsAt(run, i) && i + 3 <= j && SameProcess(run, i + 3, j)
    requires k in run.states[i + 3].keys && st in run.states[i + 3].keys[k].records && ProcessBound(st)
    requires k in run.states[j].keys && later in run.states[j].keys[k].records && later.slot == st.slot && later.serial == st.serial
    ensures k.0 in run.states[j].devices && !Current(run.states[j], later, run.states[j].devices[k.0], run.states[j].devices[k.0].generation)
  {
    hide StepAt, CleanStart, Started, HasFlag, Current, BareRecords;
    StartInRun(run, i);
    StartIsConservative(run.states[i], run.ops[i].durable, k, st);
    StalenessIsAbsorbing(run, i + 3, j, k, st, later);
    var t := run.states[i + 3];
    assert PublisherFenced in Staleness(t, st, t.devices[k.0], t.devices[k.0].generation) - {RuntimeGenerationChanged};
  }

  lemma {:induction false} BootsNeverDecrease(run: Run, i: nat, j: nat, id: nat)
    requires Behaviour(run) && SameProcess(run, i, j) && id in run.states[i].publishers
    ensures id in run.states[j].publishers && run.states[i].publishers[id].boot <= run.states[j].publishers[id].boot
  {
    hide Behaviour, KeysGrow, DevicesGrow, WatermarkOf;
    RunGrows(run, i, j);
  }

  /** After a clean start a publisher is accepted again only under a strictly larger boot. */
  lemma RestartNeedsNewBoot(run: Run, i: nat, j: nat, id: nat)
    requires Behaviour(run) && StartsAt(run, i) && i + 3 <= j < |run.ops| && SameProcess(run, i + 3, j)
    requires Registers(run.ops[j], id) && id in run.states[i].publishers && IsAccepted(run.replies[j].code)
    ensures run.replies[j].identity.boot > run.states[i].publishers[id].boot
  {
    hide CleanStart, Started, BareRecords, Inv, Bound, Allowed, RegisterPublisher, Registers, Step;
    StartInRun(run, i);
    StartIsClean(run.states[i], run.ops[i].durable);
    var t := run.states[i + 3];
    assert !Authoritative(t.publishers, id, t.publishers[id].boot);
    LastBootIsFenced(t, id);
    BootsNeverDecrease(run, i + 3, j, id);
    RunKeepsFences(run, i + 3, j, id, t.publishers[id].boot);
    RunKeeps(run, j);
    assert StepAt(run, j);
    var identity, adapter := AcceptedRegistration(run.states[j], run.ops[j], id);
    AssignsAhead(run.states[j], identity, adapter, t.publishers[id].boot);
  }

  lemma LastBootIsFenced(s: State, id: nat)
    requires Inv(s) && id in s.publishers && !Authoritative(s.publishers, id, s.publishers[id].boot)
    ensures FencedBoot(s, id, s.publishers[id].boot)
  {
    hide Inv;
    PublishersWere(s);
  }

  /** The last boot the publisher had; boots start at one. */
  function BootOf(s: State, id: nat): nat { if id in s.publishers then s.publishers[id].boot else 0 }

  /** A durable record, or one published under a boot that its publisher did not have in `s`. */
  predicate Outlives(s: State, st: Stored) {
    !ProcessBound(st) || st.record.source.publisher.boot > BootOf(s, st.record.source.publisher.id)
  }

  /** After a clean start every boot up to the last one is fenced. */
  lemma OldBootsAreFenced(run: Run, i: nat, id: nat, boot: nat)
    requires Behaviour(run) && StartsAt(run, i) && 1 <= boot <= BootOf(run.states[i], id)
    ensures FencedBoot(run.states[i + 3], id, boot)
  {
    hide StepAt, CleanStart, Started, BareRecords, Inv;
    StartInRun(run, i);
    StartIsClean(run.states[i], run.ops[i].durable);
    var t := run.states[i + 3];
    assert !Authoritative(t.publishers, id, t.publishers[id].boot);
    LastBootIsFenced(t, id);
    PublishersWere(t);
  }

  lemma RecordSender(s: State, k: KeyId, st: Stored)
    requires Inv(s) && k in s.keys && st in s.keys[k].records
    ensures st.record.source.publisher.boot >= 1
  {
    hide PublishersOk, DevicesOk, QuirksOk, FactsOk, Indexed, Counted, KeyOk, WithinDevice, ValidRecord, UnderSchema;
  }

  lemma FencedIsStale(s: State, st: Stored, d: Device)
    requires ProcessBound(st) && FencedBoot(s, st.record.source.publisher.id, st.record.source.publisher.boot)
    ensures PublisherFenced in Staleness(s, st, d, d.generation)
  {
    hide IsDurable;
    assert HasFlag(s, st, d, d.generation, PublisherFenced);
  }

  /**
   * From a clean start on, in this process and all that follow, a key answers that it needs revalidation, whatever the facts,
   * until it holds a durable record or one published under a boot larger than its publisher had before the start.
   */
  lemma RestartNeedsRevalidation(run: Run, i: nat, j: nat, k: KeyId, facts: C.Facts, ids: seq<nat>)
    requires Behaviour(run) && StartsAt(run, i) && i + 3 <= j < |run.states|
    requires k in run.states[j].keys && k.0 in run.states[j].devices && forall n :: 0 <= n < |ids| ==> ids[n] in run.states[j].quirks
    requires forall st :: st in run.states[j].keys[k].records ==> !Outlives(run.states[i], st)
    ensures var answer := Resolve(run.states[j], k.0, k.1, 0, facts, ids);
      answer.effective == NotCurrent && answer.contradiction == NeedsRevalidation && !answer.current
  {
    hide StepAt, Inv, Bound, Resolve, HasFlag, FencedBoot, ProcessBound, Staleness;
    var s, t := run.states[i], run.states[j];
    RunKeeps(run, j);
    forall st | st in t.keys[k].records ensures PublisherFenced in Staleness(t, st, t.devices[k.0], t.devices[k.0].generation) {
      var who := st.record.source.publisher;
      RecordSender(t, k, st);
      assert !Outlives(s, st);
      OldBootsAreFenced(run, i, who.id, who.boot);
      RunKeepsFences(run, i + 3, j, who.id, who.boot);
      FencedIsStale(t, st, t.devices[k.0]);
    }
    OnlyOldEvidence(s, t, k, facts, ids);
  }

  lemma AssignsAhead(s: State, identity: Identity, adapter: string, boot: nat)
    requires Inv(s) && FencedBoot(s, identity.id, boot) && boot <= s.publishers[identity.id].boot
    ensures var reply := RegisterPublisher(s, identity, adapter).reply; IsAccepted(reply.code) ==> reply.identity.boot > boot
  {
    hide Inv;
    PublishersWere(s);
  }
}
