// The invariant of the registry and the order in which its states grow: every
// operation keeps the first and moves along the second.
module Invariants {
  import opened Basics
  import C = Conditions
  import opened Model
  import opened Steps
  import opened Eviction

  // ---- the invariant -------------------------------------------------------------------

  /** Boots are fenced only once assigned, every replaced boot is fenced, and so is the boot of a publisher that is not registered. */
  predicate PublisherOk(p: Publisher) {
    && p.boot >= 1
    && (forall b :: b in p.fencedBoots ==> 1 <= b <= p.boot)
    && (forall b :: 1 <= b < p.boot ==> b in p.fencedBoots)
    && (p.state == Registered <==> p.boot !in p.fencedBoots)
    && (p.fenced ==> p.state == Fenced)
  }

  predicate DeviceOk(d: Device) {
    d.generation >= 1 && d.boot >= 1 && d.platformGeneration >= 1 && d.incarnation != 0 && ValidHardware(d.hardware)
  }

  /** Evidence never comes from the future of its device. */
  predicate WithinDevice(r: Record, d: Device) {
    && 1 <= r.deviceGeneration <= d.generation
    && r.deviceBoot <= d.boot
    && r.driverGeneration <= d.software.driverGeneration
    && r.firmwareGeneration <= d.software.firmwareGeneration
    && r.runtimeGeneration <= d.software.runtimeGeneration
    && r.platformGeneration <= d.platformGeneration
  }

  /** Nor from the future of its publisher or of the coordinator. */
  predicate WithinPublisher(s: State, who: Identity) {
    who.id in s.publishers && 1 <= who.boot <= s.publishers[who.id].boot && who.epoch <= s.epoch
  }

  predicate UnderSchema(config: Config, r: Record) {
    r.schema in config.schemas && config.schemas[r.schema].capability == r.capability
  }

  predicate RecordOk(s: State, k: KeyId, r: Record) {
    && IdOf(r) == k && k.0 in s.devices && WithinDevice(r, s.devices[k.0])
    && WithinPublisher(s, r.source.publisher)
    && UnderSchema(s.config, r) && ValidRecord(s.config, r)
  }

  /** Two records of one claim. */
  predicate SameClaim(a: Record, b: Record) {
    SameContent(a, b) && a.deviceGeneration == b.deviceGeneration
  }

  /** One capability generation never stands for two claims. */
  predicate OneClaim(records: seq<Stored>) {
    forall a, b :: a in records && b in records && a.record.capabilityGeneration == b.record.capabilityGeneration ==>
      SameClaim(a.record, b.record)
  }

  predicate StoredOk(st: Stored, key: Key, nextSerial: nat) {
    && st.record.schema == key.schema
    && 1 <= st.record.capabilityGeneration <= key.generation
    && (if st.slot.LiveSlot? then st.serial < nextSerial else st.serial <= nextSerial)
  }

  predicate KeyOk(key: Key, nextSerial: nat) {
    && Ordered(key.records) && OneClaim(key.records)
    && forall st :: st in key.records ==> StoredOk(st, key, nextSerial)
  }

  predicate KeysOk(s: State) {
    forall k :: k in s.keys ==>
      && k.0 in s.devices
      && KeyOk(s.keys[k], s.nextSerial)
      && forall st :: st in s.keys[k].records ==> RecordOk(s, k, st.record)
  }

  predicate IndexedAt(keys: map<KeyId, Key>, deviceKeys: map<nat, set<nat>>, d: nat, c: nat) {
    (d, c) in keys <==> d in deviceKeys && c in deviceKeys[d]
  }

  ghost predicate Indexed(s: State) {
    forall d: nat, c: nat :: IndexedAt(s.keys, s.deviceKeys, d, c)
  }

  predicate QuirksOk(s: State) {
    && |s.quirks| <= s.config.limits.maxQuirks
    && forall id :: id in s.quirks ==> s.quirks[id].id == id && ValidQuirk(s.config, s.quirks[id]) && ImpactsKnown(s.config, s.quirks[id])
  }

  ghost predicate Counted(s: State) {
    s.evidenceCount == Total(s.keys) && s.evidenceCount <= s.config.limits.maxEvidenceHistory
  }

  predicate PublishersOk(s: State) {
    && |s.publishers| <= s.config.limits.maxPublishers
    && forall id :: id in s.publishers ==> id != 0 && PublisherOk(s.publishers[id])
  }

  predicate DevicesOk(s: State) {
    && |s.devices| <= s.config.limits.maxDevices
    && forall id :: id in s.devices ==> id != 0 && DeviceOk(s.devices[id])
  }

  /** While a registry lives, the references of its facts resolve. */
  predicate FactsOk(s: State) {
    && 0 !in s.platforms && |s.facts| <= s.config.limits.maxFacts
    && forall id :: id in s.facts ==> s.facts[id].id == id && ValidFact(s.config, s.facts[id]) && BothResolve(Known(s), s.facts[id])
  }

  ghost predicate KnowledgeOk(s: State) { KeysOk(s) && Indexed(s) && Counted(s) }

  ghost predicate Inv(s: State) {
    PublishersOk(s) && DevicesOk(s) && QuirksOk(s) && FactsOk(s) && KnowledgeOk(s) && s.epoch >= 1
  }

  // ---- growth ------------------------------------------------------------------------------

  predicate DeviceGrows(a: Device, b: Device) {
    && a.generation <= b.generation && a.boot <= b.boot && a.platformGeneration <= b.platformGeneration
    && a.software.driverGeneration <= b.software.driverGeneration
    && a.software.firmwareGeneration <= b.software.firmwareGeneration
    && a.software.runtimeGeneration <= b.software.runtimeGeneration
  }

  predicate WatermarkGrows(a: Watermark, b: Watermark) {
    a.maxSequence <= b.maxSequence && a.maxEvidenceGeneration <= b.maxEvidenceGeneration
  }

  ghost predicate PublisherGrows(a: Publisher, b: Publisher) {
    && a.boot <= b.boot && a.fencedBoots <= b.fencedBoots && (a.fenced ==> b.fenced)
    && forall boot: nat :: WatermarkGrows(WatermarkOf(a, boot), WatermarkOf(b, boot))
  }

  function RecordsAt(keys: map<KeyId, Key>, k: KeyId): seq<Stored> {
    if k in keys then keys[k].records else []
  }

  /** The same stored record at a later time: supersession may have been noted, nothing else changes. */
  predicate DescendsFrom(records: seq<Stored>, st: Stored) {
    exists i :: 0 <= i < |records| && records[i].slot == st.slot && records[i].serial == st.serial
      && records[i].record == st.record && (records[i].superseded ==> st.superseded)
  }

  predicate Descends(before: seq<Stored>, nextSerial: nat, after: seq<Stored>) {
    forall st :: st in after ==> (st.slot.LiveSlot? && st.serial >= nextSerial) || DescendsFrom(before, st)
  }

  predicate KeysGrow(s: State, t: State) {
    && (forall k :: k in s.keys ==> k in t.keys && s.keys[k].schema == t.keys[k].schema && s.keys[k].generation <= t.keys[k].generation)
    && (forall k :: k in t.keys ==> Descends(RecordsAt(s.keys, k), s.nextSerial, t.keys[k].records))
  }

  predicate DevicesGrow(s: State, t: State) {
    forall id :: id in s.devices ==> id in t.devices && DeviceGrows(s.devices[id], t.devices[id])
  }

  ghost predicate PublishersGrow(s: State, t: State) {
    forall id :: id in s.publishers ==> id in t.publishers && PublisherGrows(s.publishers[id], t.publishers[id])
  }

  ghost predicate Grows(s: State, t: State) {
    && s.config == t.config && s.epoch <= t.epoch && s.nextSerial <= t.nextSerial
    && DevicesGrow(s, t) && PublishersGrow(s, t) && KeysGrow(s, t)
  }

  lemma KeysGrowTransitive(s: State, t: State, u: State)
    requires KeysGrow(s, t) && KeysGrow(t, u) && s.nextSerial <= t.nextSerial
    ensures KeysGrow(s, u)
  {
    forall k | k in u.keys ensures Descends(RecordsAt(s.keys, k), s.nextSerial, u.keys[k].records) {
      var was, mid := RecordsAt(s.keys, k), RecordsAt(t.keys, k);
      forall st | st in u.keys[k].records && !(st.slot.LiveSlot? && st.serial >= s.nextSerial)
        ensures DescendsFrom(was, st)
      {
        assert DescendsFrom(mid, st);
        var i :| 0 <= i < |mid| && mid[i].slot == st.slot && mid[i].serial == st.serial
          && mid[i].record == st.record && (mid[i].superseded ==> st.superseded);
        assert mid[i] in mid;
        assert DescendsFrom(was, mid[i]);
      }
    }
  }

  lemma GrowsTransitive(s: State, t: State, u: State)
    requires Grows(s, t) && Grows(t, u)
    ensures Grows(s, u)
  {
    hide KeysGrow, WatermarkOf;
    KeysGrowTransitive(s, t, u);
    forall id | id in s.publishers ensures id in u.publishers && PublisherGrows(s.publishers[id], u.publishers[id]) {
      var a, b, c := s.publishers[id], t.publishers[id], u.publishers[id];
      forall boot: nat ensures WatermarkGrows(WatermarkOf(a, boot), WatermarkOf(c, boot)) {
        assert WatermarkGrows(WatermarkOf(a, boot), WatermarkOf(b, boot));
      }
    }
  }

  lemma KeysGrowReflexive(s: State, t: State)
    requires s.keys == t.keys && s.nextSerial <= t.nextSerial
    ensures KeysGrow(s, t)
  {
    forall k, st | k in t.keys && st in t.keys[k].records ensures DescendsFrom(RecordsAt(s.keys, k), st) {
      var i :| 0 <= i < |t.keys[k].records| && t.keys[k].records[i] == st;
      assert RecordsAt(s.keys, k)[i] == st;
    }
  }

  // ---- what is true of the keys stays true while everything else grows -----------------------------

  lemma RecordStaysOk(s: State, t: State, k: KeyId, r: Record)
    requires RecordOk(s, k, r) && s.config == t.config && s.epoch <= t.epoch && DevicesGrow(s, t) && PublishersGrow(s, t)
    ensures RecordOk(t, k, r)
  {
    hide ValidRecord, WatermarkOf;
  }

  lemma KeyStaysOk(key: Key, before: nat, after: nat)
    requires KeyOk(key, before) && before <= after
    ensures KeyOk(key, after)
  {
    hide Ordered, OneClaim;
  }

  /** A step that touches no key. */
  lemma KeysStayOk(s: State, t: State)
    requires Inv(s) && t.keys == s.keys && t.deviceKeys == s.deviceKeys && t.evidenceCount == s.evidenceCount
    requires t.config == s.config && s.epoch <= t.epoch && s.nextSerial <= t.nextSerial
    requires DevicesGrow(s, t) && PublishersGrow(s, t)
    requires PublishersOk(t) && DevicesOk(t) && QuirksOk(t) && FactsOk(t)
    ensures Inv(t) && Grows(s, t)
  {
    hide RecordOk, KeyOk, PublishersOk, DevicesOk, QuirksOk, FactsOk, KeysGrow;
    KeysGrowReflexive(s, t);
    forall k | k in t.keys ensures k.0 in t.devices && KeyOk(t.keys[k], t.nextSerial) {
      KeyStaysOk(s.keys[k], s.nextSerial, t.nextSerial);
    }
    forall k, st | k in t.keys && st in t.keys[k].records ensures RecordOk(t, k, st.record) {
      RecordStaysOk(s, t, k, st.record);
    }
  }

  lemma StaysPut(s: State)
    requires Inv(s)
    ensures Grows(s, s)
  {
    hide KeysGrow;
    KeysGrowReflexive(s, s);
  }

  // ---- publishers -------------------------------------------------------------------------------------

  lemma SameDevices(s: State, t: State)
    requires DevicesOk(s) && s.devices == t.devices && s.config == t.config
    ensures DevicesOk(t) && DevicesGrow(s, t)
  {}

  lemma SameQuirks(s: State, t: State)
    requires QuirksOk(s) && s.quirks == t.quirks && s.config == t.config
    ensures QuirksOk(t)
  {
    hide ValidQuirk, ImpactsKnown;
  }

  predicate Includes(x: Subjects, y: Subjects) {
    && x.devices <= y.devices && x.platforms <= y.platforms && x.families <= y.families && x.models <= y.models
    && x.architectures <= y.architectures
  }

  lemma SameFacts(s: State, t: State)
    requires FactsOk(s) && s.facts == t.facts && s.config == t.config && Includes(Known(s), Known(t))
    requires forall p :: p in t.platforms && p !in s.platforms ==> p != 0
    ensures FactsOk(t)
  {
    hide ValidFact;
  }

  lemma SamePublishers(s: State, t: State)
    requires PublishersOk(s) && s.publishers == t.publishers && s.config == t.config
    ensures PublishersOk(t) && PublishersGrow(s, t)
  {
    hide PublisherOk, WatermarkOf;
  }

  lemma PublishersAfter(s: State, t: State, id: nat, p: Publisher)
    requires PublishersOk(s) && t.publishers == s.publishers[id := p] && t.config == s.config
    requires id != 0 && PublisherOk(p)
    requires if id in s.publishers then PublisherGrows(s.publishers[id], p) else |s.publishers| < s.config.limits.maxPublishers
    ensures PublishersOk(t) && PublishersGrow(s, t)
  {
    hide PublisherOk, WatermarkOf;
    assert id !in s.publishers ==> |t.publishers| == |s.publishers| + 1;
    assert id in s.publishers ==> t.publishers.Keys == s.publishers.Keys;
    assert |t.publishers.Keys| == |t.publishers| && |s.publishers.Keys| == |s.publishers|;
  }

  /** One publisher replaced by a later version of itself, or a new one added within the bound. */
  lemma PublisherStep(s: State, t: State, id: nat, p: Publisher)
    requires Inv(s) && t == s.(publishers := s.publishers[id := p])
    requires id != 0 && PublisherOk(p)
    requires if id in s.publishers then PublisherGrows(s.publishers[id], p) else |s.publishers| < s.config.limits.maxPublishers
    ensures Inv(t) && Grows(s, t)
  {
    hide KnowledgeOk, KeysGrow, PublishersOk, PublishersGrow, PublisherOk, PublisherGrows, DevicesOk, QuirksOk, FactsOk, DevicesGrow;
    PublishersAfter(s, t, id, p) by { PublishersWere(s); }
    SameDevices(s, t);
    SameQuirks(s, t);
    SameFacts(s, t);
    KeysStayOk(s, t);
  }

  lemma PublishersWere(s: State)
    requires Inv(s)
    ensures PublishersOk(s) && forall id :: id in s.publishers ==> id != 0 && PublisherOk(s.publishers[id])
  {
    hide KnowledgeOk, PublisherOk, DevicesOk, QuirksOk, FactsOk;
  }

  lemma NewIsRegistered(epoch: nat)
    ensures PublisherOk(NewPublisher(epoch))
  {}

  lemma Reboots(p: Publisher, epoch: nat)
    requires PublisherOk(p) && !p.fenced
    ensures PublisherOk(Reboot(p, epoch)) && PublisherGrows(p, Reboot(p, epoch))
  {}

  lemma Reaffirms(p: Publisher, epoch: nat)
    requires PublisherOk(p) && p.boot !in p.fencedBoots
    ensures var q := p.(epoch := epoch, state := Registered); PublisherOk(q) && PublisherGrows(p, q)
  {}

  lemma RegisterKeeps(s: State, identity: Identity, adapter: string)
    requires Inv(s)
    ensures var t := RegisterPublisher(s, identity, adapter).state; Inv(t) && Grows(s, t)
  {
    hide Inv, Grows, PublisherOk, PublisherGrows, Reboot;
    StaysPut(s);
    assert PublisherOk(NewPublisher(s.epoch)) by { NewIsRegistered(s.epoch); }
    if identity.id in s.publishers {
      PublishersWere(s);
      var p := s.publishers[identity.id];
      if !p.fenced { Reboots(p, s.epoch); }
      if p.boot !in p.fencedBoots { Reaffirms(p, s.epoch); }
    }
    var id, t := identity.id, RegisterPublisher(s, identity, adapter).state;
    if t != s {
      PublisherStep(s, t, id, t.publishers[id]);
    }
  }

  lemma FenceKeeps(s: State, id: nat)
    requires Inv(s)
    ensures var t := FencePublisher(s, id).state; Inv(t) && Grows(s, t)
  {
    hide Inv, Grows;
    StaysPut(s);
    PublishersWere(s);
    var t := FencePublisher(s, id).state;
    if t != s {
      PublisherStep(s, t, id, t.publishers[id]);
    }
  }

  /** Only a boot that has been assigned may be retired. */
  lemma RetireKeeps(s: State, id: nat, boot: nat)
    requires Inv(s) && (id in s.publishers ==> boot <= s.publishers[id].boot)
    ensures var t := RetireBoot(s, id, boot).state; Inv(t) && Grows(s, t)
  {
    hide Inv, Grows;
    StaysPut(s);
    PublishersWere(s);
    var t := RetireBoot(s, id, boot).state;
    if t != s {
      PublisherStep(s, t, id, t.publishers[id]);
    }
  }

  lemma DeadenKeeps(p: Publisher)
    requires PublisherOk(p)
    ensures PublisherOk(Deaden(p)) && PublisherGrows(p, Deaden(p))
  {}

  lemma ResetKeeps(s: State)
    requires Inv(s)
    ensures Inv(ResetLiveness(s)) && Grows(s, ResetLiveness(s))
  {
    hide KnowledgeOk, KeysGrow, PublisherOk, PublisherGrows, DevicesOk, DevicesGrow, QuirksOk, FactsOk, Deaden;
    var t := ResetLiveness(s);
    assert t.publishers.Keys == s.publishers.Keys;
    assert |t.publishers.Keys| == |t.publishers| && |s.publishers.Keys| == |s.publishers|;
    forall id | id in s.publishers ensures PublisherOk(t.publishers[id]) && PublisherGrows(s.publishers[id], t.publishers[id]) {
      DeadenKeeps(s.publishers[id]);
    }
    SameDevices(s, t);
    SameQuirks(s, t);
    SameFacts(s, t);
    KeysStayOk(s, t);
  }

  lemma AdvanceKeeps(s: State)
    requires Inv(s)
    ensures Inv(AdvanceEpoch(s)) && Grows(s, AdvanceEpoch(s))
  {
    hide KnowledgeOk, KeysGrow, PublishersOk, PublishersGrow, DevicesOk, DevicesGrow, QuirksOk, FactsOk;
    var t := AdvanceEpoch(s);
    SamePublishers(s, t);
    SameDevices(s, t);
    SameQuirks(s, t);
    SameFacts(s, t);
    KeysStayOk(s, t);
  }

  // ---- devices and quirks --------------------------------------------------------------------------------

  lemma RefreshKeeps(d: Device, r: Registration, explicit: bool)
    requires DeviceOk(d) && ValidHardware(r.hardware)
    ensures DeviceOk(RefreshDevice(d, r, explicit)) && DeviceGrows(d, RefreshDevice(d, r, explicit))
  {}

  lemma DevicesAfter(s: State, t: State, id: nat, d: Device)
    requires DevicesOk(s) && t.devices == s.devices[id := d] && t.config == s.config
    requires id != 0 && DeviceOk(d)
    requires if id in s.devices then DeviceGrows(s.devices[id], d) else |s.devices| < s.config.limits.maxDevices
    ensures DevicesOk(t) && DevicesGrow(s, t)
  {
    hide DeviceOk;
    assert id !in s.devices ==> |t.devices| == |s.devices| + 1;
    assert id in s.devices ==> t.devices.Keys == s.devices.Keys;
    assert |t.devices.Keys| == |t.devices| && |s.devices.Keys| == |s.devices|;
  }

  lemma DeviceKeeps(s: State, r: Registration, explicit: bool)
    requires Inv(s) && ValidRegistration(r)
    ensures var t := ApplyDevice(s, r, explicit).state; Inv(t) && Grows(s, t)
  {
    hide KnowledgeOk, KeysGrow, PublishersOk, PublishersGrow, QuirksOk, FactsOk, DevicesGrow, DeviceOk, DeviceGrows, RefreshDevice, NewDevice, Noted, NotedPlatform, Known, Includes,
      ValidHardware;
    StaysPut(s);
    var t := ApplyDevice(s, r, explicit).state;
    if t != s {
      if r.device in s.devices { RefreshKeeps(s.devices[r.device], r, explicit); }
      NewIsOk(r);
      DevicesAfter(s, t, r.device, t.devices[r.device]);
      KnownGrows(s, r, explicit);
      SamePublishers(s, t);
      SameQuirks(s, t);
      SameFacts(s, t);
      KeysStayOk(s, t);
    }
  }

  lemma NotedIncludes(xs: set<nat>, x: nat, max: nat)
    ensures xs <= Noted(xs, x)
    ensures xs <= NotedPlatform(xs, x, max) && forall p :: p in NotedPlatform(xs, x, max) && p !in xs ==> p != 0
  {}

  /** Nothing that was registered is forgotten. */
  lemma KnownGrows(s: State, r: Registration, explicit: bool)
    ensures var t := ApplyDevice(s, r, explicit).state;
      Includes(Known(s), Known(t)) && forall p :: p in t.platforms && p !in s.platforms ==> p != 0
  {
    hide RefreshDevice, NewDevice, Noted, NotedPlatform;
    NotedIncludes(s.platforms, r.announced, s.config.limits.maxDevices);
    NotedIncludes(s.families, r.hardware.family, 0);
    NotedIncludes(s.models, r.hardware.model, 0);
    NotedIncludes(s.architectures, r.hardware.architecture, 0);
  }

  lemma NewIsOk(r: Registration)
    requires ValidRegistration(r)
    ensures DeviceOk(NewDevice(r))
  {}

  lemma QuirksAfter(s: State, t: State, q: Quirk)
    requires QuirksOk(s) && t.quirks == s.quirks[q.id := q] && t.config == s.config
    requires ValidQuirk(s.config, q) && ImpactsKnown(s.config, q)
    requires q.id !in s.quirks ==> |s.quirks| < s.config.limits.maxQuirks
    ensures QuirksOk(t)
  {
    hide ValidQuirk, ImpactsKnown;
    assert q.id !in s.quirks ==> |t.quirks| == |s.quirks| + 1;
    assert q.id in s.quirks ==> t.quirks.Keys == s.quirks.Keys;
    assert |t.quirks.Keys| == |t.quirks| && |s.quirks.Keys| == |s.quirks|;
  }

  lemma WithdrawnQuirk(s: State, id: nat)
    requires QuirksOk(s) && id in s.quirks
    ensures var q := s.quirks[id].(withdrawn := true); q.id == id && ValidQuirk(s.config, q) && ImpactsKnown(s.config, q)
  {
    hide KnownCapability;
  }

  lemma FactsAfter(s: State, t: State, f: Fact)
    requires FactsOk(s) && t.facts == s.facts[f.id := f] && t.config == s.config && Known(t) == Known(s)
    requires ValidFact(s.config, f) && BothResolve(Known(s), f)
    requires f.id !in s.facts ==> |s.facts| < s.config.limits.maxFacts
    ensures FactsOk(t)
  {
    hide ValidFact, BothResolve;
    assert f.id !in s.facts ==> |t.facts| == |s.facts| + 1;
    assert f.id in s.facts ==> t.facts.Keys == s.facts.Keys;
    assert |t.facts.Keys| == |t.facts| && |s.facts.Keys| == |s.facts|;
  }

  lemma FactsWere(s: State)
    requires Inv(s)
    ensures FactsOk(s)
  {
    hide KnowledgeOk, PublishersOk, DevicesOk, QuirksOk, FactsOk;
  }

  lemma WithdrawnFact(s: State, id: nat, source: Source)
    requires FactsOk(s) && id in s.facts && source.publisher.id != 0 && source.sourceClass != Unspecified
    requires AllowedFor(source.provenance, source.sourceClass)
    ensures var f := s.facts[id].(withdrawn := true, source := source);
      f.id == id && ValidFact(s.config, f) && BothResolve(Known(s), f)
  {
    hide SameReference, AllowedFor;
  }

  lemma FactStep(s: State, t: State, f: Fact)
    requires Inv(s) && t == s.(facts := s.facts[f.id := f])
    requires ValidFact(s.config, f) && BothResolve(Known(s), f)
    requires f.id !in s.facts ==> |s.facts| < s.config.limits.maxFacts
    ensures Inv(t) && Grows(s, t)
  {
    hide KnowledgeOk, KeysGrow, PublishersOk, PublishersGrow, QuirksOk, FactsOk, DevicesOk, DevicesGrow, ValidFact, BothResolve;
    FactsAfter(s, t, f);
    SamePublishers(s, t);
    SameDevices(s, t);
    SameQuirks(s, t);
    KeysStayOk(s, t);
  }

  lemma FactKeeps(s: State, f: Fact, withdraw: bool)
    requires Inv(s) && ValidFact(s.config, f)
    ensures var t := ApplyFact(s, f, withdraw).state; Inv(t) && Grows(s, t)
  {
    hide Inv, Grows, FactsOk, BothResolve, SameReference, AllowedFor, C.Accepted;
    StaysPut(s);
    FactsWere(s);
    var t := ApplyFact(s, f, withdraw).state;
    if t != s {
      if withdraw { WithdrawnFact(s, f.id, f.source); }
      FactStep(s, t, t.facts[f.id]);
    }
  }

  lemma QuirksWere(s: State)
    requires Inv(s)
    ensures QuirksOk(s)
  {
    hide KnowledgeOk, PublishersOk, DevicesOk, QuirksOk, FactsOk;
  }

  lemma QuirkStep(s: State, t: State, q: Quirk)
    requires Inv(s) && t == s.(quirks := s.quirks[q.id := q])
    requires ValidQuirk(s.config, q) && ImpactsKnown(s.config, q)
    requires q.id !in s.quirks ==> |s.quirks| < s.config.limits.maxQuirks
    ensures Inv(t) && Grows(s, t)
  {
    hide KnowledgeOk, KeysGrow, PublishersOk, PublishersGrow, QuirksOk, FactsOk, DevicesOk, DevicesGrow, ImpactsKnown, ValidQuirk;
    QuirksAfter(s, t, q);
    SamePublishers(s, t);
    SameDevices(s, t);
    SameFacts(s, t);
    KeysStayOk(s, t);
  }

  lemma QuirkChanges(s: State, q: Quirk, withdraw: bool)
    ensures var t := ApplyQuirk(s, q, withdraw).state;
      t != s ==>
        && ImpactsKnown(s.config, q) && q.id in t.quirks && t == s.(quirks := s.quirks[q.id := t.quirks[q.id]])
        && if withdraw then q.id in s.quirks && t.quirks[q.id] == s.quirks[q.id].(withdrawn := true)
           else t.quirks[q.id] == q && (q.id !in s.quirks ==> |s.quirks| < s.config.limits.maxQuirks)
  {
    hide ImpactsKnown;
  }

  lemma QuirkKeeps(s: State, q: Quirk, withdraw: bool)
    requires Inv(s) && ValidQuirk(s.config, q)
    ensures var t := ApplyQuirk(s, q, withdraw).state; Inv(t) && Grows(s, t)
  {
    hide Inv, Grows, QuirksOk, ImpactsKnown, ValidQuirk, ApplyQuirk;
    StaysPut(s);
    QuirkChanges(s, q, withdraw);
    var t := ApplyQuirk(s, q, withdraw).state;
    if t != s {
      assert QuirksOk(s) by { QuirksWere(s); }
      if withdraw { WithdrawnQuirk(s, q.id); }
      QuirkStep(s, t, t.quirks[q.id]);
    }
  }
}
