// What each registry operation does to the knowledge (src/registry.cpp), as
// total functions from a state to the next state and a reply.
module Steps {
  import opened Basics
  import C = Conditions
  import Q = Quirks
  import opened Model

  datatype Code =
    | Accepted | AcceptedIdempotent | RejectedValidation | RejectedUnknownPublisher | RejectedFencedPublisher
    | RejectedStaleBoot | RejectedStaleEpoch | RejectedStaleSequence | RejectedGenerationRegression
    | RejectedDuplicateConflict | RejectedStaleDeviceGeneration | RejectedStaleCapabilityGeneration
    | RejectedUnknownDevice | RejectedUnknownSchema | RejectedLimit | RejectedBackpressure | RejectedShuttingDown

  predicate IsAccepted(c: Code) { c == Accepted || c == AcceptedIdempotent }

  const NoIdentity := Identity(0, 0, 0)

  /** The reply to one operation; the assigned identity and device generations are zero unless set by it. */
  datatype Reply = Reply(code: Code, identity: Identity, deviceGeneration: nat, deviceBoot: nat)

  function Plain(code: Code): Reply { Reply(code, NoIdentity, 0, 0) }

  datatype Outcome = Outcome(state: State, reply: Reply)

  // ---- publishers ---------------------------------------------------------------------

  function NewPublisher(epoch: nat): Publisher {
    Publisher(1, epoch, Registered, 0, 0, {}, map[], map[], false)
  }

  /** A fresh process gets the next boot, and the boot it replaces is fenced. */
  function Reboot(p: Publisher, epoch: nat): Publisher {
    p.(boot := p.boot + 1, epoch := epoch, state := Registered,
       fencedBoots := if p.boot != 0 then p.fencedBoots + {p.boot} else p.fencedBoots)
  }

  function RegisterPublisher(s: State, identity: Identity, adapter: string): Outcome {
    var id := identity.id;
    if id == 0 || adapter == "" || |adapter| > s.config.limits.maxMetadataBytes then Outcome(s, Plain(RejectedValidation))
    else if id !in s.publishers then
      if |s.publishers| >= s.config.limits.maxPublishers then Outcome(s, Plain(RejectedLimit))
      else if identity.boot > 1 then Outcome(s, Plain(RejectedStaleBoot))
      else Outcome(s.(publishers := s.publishers[id := NewPublisher(s.epoch)]),
                   Reply(Accepted, Identity(id, 1, s.epoch), 0, 0))
    else
      var p := s.publishers[id];
      if p.fenced then Outcome(s, Plain(RejectedFencedPublisher))
      else if identity.boot == 0 then
        Outcome(s.(publishers := s.publishers[id := Reboot(p, s.epoch)]),
                Reply(Accepted, Identity(id, p.boot + 1, s.epoch), 0, 0))
      else if identity.boot in p.fencedBoots then Outcome(s, Plain(RejectedFencedPublisher))
      else if identity.boot != p.boot then Outcome(s, Plain(RejectedStaleBoot))
      else Outcome(s.(publishers := s.publishers[id := p.(epoch := s.epoch, state := Registered)]),
                   Reply(AcceptedIdempotent, Identity(id, p.boot, s.epoch), 0, 0))
  }

  function FencePublisher(s: State, id: nat): Outcome {
    if id !in s.publishers then Outcome(s, Plain(RejectedUnknownPublisher))
    else if s.publishers[id].fenced then Outcome(s, Plain(AcceptedIdempotent))
    else
      var p := s.publishers[id];
      var boots := if p.boot != 0 then p.fencedBoots + {p.boot} else p.fencedBoots;
      Outcome(s.(publishers := s.publishers[id := p.(fenced := true, state := Fenced, fencedBoots := boots)]), Plain(Accepted))
  }

  function RetireBoot(s: State, id: nat, boot: nat): Outcome {
    if id !in s.publishers then Outcome(s, Plain(RejectedUnknownPublisher))
    else if boot == 0 then Outcome(s, Plain(RejectedValidation))
    else if boot in s.publishers[id].fencedBoots then Outcome(s, Plain(AcceptedIdempotent))
    else
      var p := s.publishers[id];
      var state := if p.boot == boot then Dead else p.state;
      Outcome(s.(publishers := s.publishers[id := p.(state := state, fencedBoots := p.fencedBoots + {boot})]), Plain(Accepted))
  }

  function Deaden(p: Publisher): Publisher {
    if p.state == Registered then
      p.(state := Dead, fencedBoots := if p.boot != 0 then p.fencedBoots + {p.boot} else p.fencedBoots)
    else p
  }

  function ResetLiveness(s: State): State {
    s.(publishers := map id | id in s.publishers :: Deaden(s.publishers[id]))
  }

  function AdvanceEpoch(s: State): State { s.(epoch := s.epoch + 1) }

  // ---- devices ----------------------------------------------------------------------------

  /** `platform` is where the device says it sits, `announced` the platform that is described along with it. */
  datatype Registration = Registration(
    device: nat, incarnation: nat, platform: nat, announced: nat, hardware: Q.Hardware,
    driver: Q.Component, firmware: Q.Firmware, runtime: Q.Component, bootObserved: bool)

  /** The generation of an axis that has just been identified, or not. */
  function FirstGeneration(id: nat): nat { if id != 0 then 1 else 0 }

  /** Advances exactly when the identified component changes, and never regresses. */
  function NextGeneration(generation: nat, known: bool, changed: bool): nat {
    if !known then generation
    else if changed then if generation != 0 then generation + 1 else 1
    else if generation != 0 then generation else 1
  }

  /** An observation that does not identify an axis does not erase what is known about it. */
  function MergeSoftware(p: Q.Software, r: Registration): Q.Software {
    var driver := if r.driver.id == 0 then p.driver else r.driver;
    var firmware := if r.firmware.id == 0 then p.firmware else r.firmware;
    var runtime := if r.runtime.id == 0 then p.runtime else r.runtime;
    Q.Software(driver, NextGeneration(p.driverGeneration, driver.id != 0, p.driver.id == 0 || p.driver != driver),
               firmware, NextGeneration(p.firmwareGeneration, firmware.id != 0, p.firmware.id == 0 || p.firmware != firmware),
               runtime, NextGeneration(p.runtimeGeneration, runtime.id != 0, p.runtime.id == 0 || p.runtime != runtime))
  }

  function NewDevice(r: Registration): Device {
    Device(r.incarnation, r.platform, r.hardware,
           Q.Software(r.driver, FirstGeneration(r.driver.id), r.firmware, FirstGeneration(r.firmware.id),
                      r.runtime, FirstGeneration(r.runtime.id)), 1, 1, 1)
  }

  /** A changed incarnation or an observed boot opens a new generation. The stored incarnation is never updated. */
  function RefreshDevice(d: Device, r: Registration, explicit: bool): Device {
    var boundary := d.incarnation != r.incarnation || r.bootObserved || explicit;
    Device(d.incarnation, r.platform, r.hardware, MergeSoftware(d.software, r),
           if boundary then d.generation + 1 else d.generation,
           if boundary then d.boot + 1 else d.boot,
           if d.platform != r.platform then d.platformGeneration + 1 else d.platformGeneration)
  }

  function Noted(xs: set<nat>, x: nat): set<nat> { if x != 0 then xs + {x} else xs }

  /** A platform past the bound is silently not registered. */
  function NotedPlatform(platforms: set<nat>, x: nat, max: nat): set<nat> {
    if x == 0 || |platforms| >= max then platforms else platforms + {x}
  }

  /** A refresh may change the hardware identity, but registers no family, model or architecture. */
  function ApplyDevice(s: State, r: Registration, explicit: bool): Outcome {
    var platforms := NotedPlatform(s.platforms, r.announced, s.config.limits.maxDevices);
    if r.device in s.devices then
      var d := RefreshDevice(s.devices[r.device], r, explicit);
      Outcome(s.(devices := s.devices[r.device := d], platforms := platforms), Reply(Accepted, NoIdentity, d.generation, d.boot))
    else if |s.devices| >= s.config.limits.maxDevices then Outcome(s, Plain(RejectedLimit))
    else if r.hardware.family != 0 && |s.families| >= s.config.limits.maxFamilies && r.hardware.family !in s.families then
      Outcome(s, Plain(RejectedLimit))
    else
      Outcome(s.(devices := s.devices[r.device := NewDevice(r)], platforms := platforms,
                 families := Noted(s.families, r.hardware.family), models := Noted(s.models, r.hardware.model),
                 architectures := Noted(s.architectures, r.hardware.architecture)),
              Reply(Accepted, NoIdentity, 1, 1))
  }

  // ---- bounded retention --------------------------------------------------------------------

  /** A newer record occupies the same source slot. */
  predicate Superseded(records: seq<Stored>, i: nat)
    requires i < |records|
  {
    exists j :: 0 <= j < |records| && j != i && records[j].slot == records[i].slot && records[j].serial > records[i].serial
  }

  /** The oldest superseded record among the first `n`, or the number of records when there is none. */
  function Victim(records: seq<Stored>, n: nat): (v: nat)
    requires n <= |records|
    ensures v <= |records| && (v < |records| ==> v < n && Superseded(records, v))
    ensures v == |records| ==> forall i :: 0 <= i < n ==> !Superseded(records, i)
  {
    if n == 0 then |records|
    else
      var v := Victim(records, n - 1);
      if Superseded(records, n - 1) && (v == |records| || records[n - 1].serial < records[v].serial) then n - 1 else v
  }

  function Erase<T>(s: seq<T>, i: nat): (r: seq<T>)
    requires i < |s|
    ensures |r| == |s| - 1
  {
    s[..i] + s[i + 1..]
  }

  function TrimKey(records: seq<Stored>, cap: nat): seq<Stored>
    decreases |records|
  {
    if |records| <= cap then records
    else
      var v := Victim(records, |records|);
      if v == |records| then records else TrimKey(Erase(records, v), cap)
  }

  function KeyCap(config: Config): nat { config.limits.maxEvidencePerCapability * 8 }

  function TrimKeys(keys: map<KeyId, Key>, cap: nat): map<KeyId, Key> {
    map k | k in keys :: keys[k].(records := TrimKey(keys[k].records, cap))
  }

  /** The position of the first record with this serial, or the number of records. */
  function Find(records: seq<Stored>, serial: nat, i: nat): (p: nat)
    requires i <= |records|
    ensures p <= |records| && (p < |records| ==> records[p].serial == serial)
    decreases |records| - i
  {
    if i == |records| then |records| else if records[i].serial == serial then i else Find(records, serial, i + 1)
  }

  predicate Evictable(keys: map<KeyId, Key>, e: Entry) {
    && e.key in keys
    && var records := keys[e.key].records;
       var i := Find(records, e.serial, 0);
       i < |records| && Superseded(records, i)
  }

  function Evict(keys: map<KeyId, Key>, e: Entry): map<KeyId, Key>
    requires Evictable(keys, e)
  {
    var key := keys[e.key];
    keys[e.key := key.(records := Erase(key.records, Find(key.records, e.serial, 0)))]
  }

  datatype Retention = Retention(keys: map<KeyId, Key>, queue: seq<Entry>, count: int)

  /** Pops the global queue while the history is full; only superseded records are erased. */
  function Drain(r: Retention, max: nat): (t: Retention)
    ensures t.keys.Keys == r.keys.Keys
    decreases |r.queue|
  {
    if r.count < max || r.queue == [] then r
    else
      var e := r.queue[0];
      if Evictable(r.keys, e) then Drain(Retention(Evict(r.keys, e), r.queue[1..], r.count - 1), max)
      else Drain(r.(queue := r.queue[1..]), max)
  }

  function TrimQueue(queue: seq<Entry>, bound: nat): seq<Entry> {
    if |queue| > bound then queue[|queue| - bound..] else queue
  }

  /** The number of stored records. */
  ghost function Total(keys: map<KeyId, Key>): nat
    decreases |keys|
  {
    if keys == map[] then 0
    else
      var k := PickKey(keys);
      |keys[k].records| + Total(keys - {k})
  }

  ghost function PickKey(keys: map<KeyId, Key>): (k: KeyId)
    requires keys != map[]
    ensures k in keys
  {
    var k :| k in keys; k
  }

  ghost function EvictIfNeeded(s: State): (t: State)
    ensures t.keys.Keys == s.keys.Keys
  {
    var trimmed := TrimKeys(s.keys, KeyCap(s.config));
    var count := s.evidenceCount - (Total(s.keys) - Total(trimmed));
    var max := s.config.limits.maxEvidenceHistory;
    var r := Drain(Retention(trimmed, s.queue, count), max);
    s.(keys := r.keys, queue := TrimQueue(r.queue, max * 4), evidenceCount := r.count)
  }

  // ---- capabilities ---------------------------------------------------------------------------

  predicate NeedsValue(support: Support) {
    support != Unsupported && support != Unknown && support != RevalidationRequired
  }

  /** The checks against the schema. */
  function SchemaRejection(config: Config, r: Record): Option<Code> {
    if r.schema !in config.schemas then Some(RejectedUnknownSchema)
    else if config.schemas[r.schema].capability != r.capability then Some(RejectedUnknownSchema)
    else if r.value.Value? && r.value.kind != config.schemas[r.schema].valueKind then Some(RejectedValidation)
    else if r.value.NoValue? && NeedsValue(r.support) then Some(RejectedValidation)
    else None
  }

  function DeviceRejection(s: State, r: Record): Option<Code> {
    if r.device !in s.devices then Some(RejectedUnknownDevice)
    else if r.deviceGeneration != s.devices[r.device].generation then Some(RejectedStaleDeviceGeneration)
    else if r.deviceBoot != s.devices[r.device].boot then Some(RejectedStaleDeviceGeneration)
    else None
  }

  function OwnedBy(s: State, device: nat): set<nat> {
    if device in s.deviceKeys then s.deviceKeys[device] else {}
  }

  function IdOf(r: Record): KeyId { (r.device, r.capability) }

  /** Makes sure the key exists. The index entry of the device exists afterwards even when the key is refused. */
  function EnsureKey(s: State, r: Record): (State, Option<Code>) {
    if IdOf(r) in s.keys then (s, None)
    else
      var owned := OwnedBy(s, r.device);
      if |owned| >= s.config.limits.maxCapabilitiesPerDevice || |s.keys| >= s.config.limits.maxEvidenceHistory then
        (s.(deviceKeys := s.deviceKeys[r.device := owned]), Some(RejectedLimit))
      else
        (s.(keys := s.keys[IdOf(r) := Key(r.schema, 0, false, [])],
            deviceKeys := s.deviceKeys[r.device := owned + {r.capability}]), None)
  }

  function KeyRejection(key: Key, r: Record): Option<Code> {
    if key.schema != r.schema then Some(RejectedValidation)
    else if r.capabilityGeneration != 0 && key.generation != 0 && r.capabilityGeneration <= key.generation then
      Some(RejectedStaleCapabilityGeneration)
    else if r.capabilityGeneration != 0 && key.generation == 0 && r.capabilityGeneration > 1 then
      Some(RejectedStaleCapabilityGeneration)
    else None
  }

  /** The record as stored: qualified by the software and platform generations in force. */
  function Bind(r: Record, d: Device): Record {
    r.(firmwareGeneration := d.software.firmwareGeneration, driverGeneration := d.software.driverGeneration,
       runtimeGeneration := d.software.runtimeGeneration, platformGeneration := d.platformGeneration,
       runtimeId := d.software.runtime.id)
  }

  function SlotOf(r: Record): Slot {
    LiveSlot(r.source.publisher.id, r.source.publisher.boot, r.source.sourceClass)
  }

  /** The newest record of a slot. */
  function Latest(records: seq<Stored>, slot: Slot): Option<Stored> {
    if records == [] then None
    else
      var front, last := Latest(records[..|records| - 1], slot), records[|records| - 1];
      if last.slot == slot && (front == None || last.serial > front.value.serial) then Some(last) else front
  }

  predicate Repeats(latest: Option<Stored>, r: Record) {
    && latest.Some? && !r.withdrawn && !latest.value.record.withdrawn
    && var o := latest.value.record;
       && SameContent(o, r) && o.deviceGeneration == r.deviceGeneration && o.driverGeneration == r.driverGeneration
       && o.firmwareGeneration == r.firmwareGeneration && o.runtimeGeneration == r.runtimeGeneration
  }

  /** Whether a current record outranks the winner found so far: authority, then publisher, then observation sequence. */
  predicate Outranks(a: Record, b: Record) {
    var x, y := Authority(a.source.sourceClass), Authority(b.source.sourceClass);
    x > y || (x == y &&
      (a.source.publisher.id < b.source.publisher.id ||
       (a.source.publisher.id == b.source.publisher.id && a.source.observationSequence > b.source.observationSequence)))
  }

  function CurrentWinner(s: State, records: seq<Stored>, d: Device): Option<Stored> {
    if records == [] then None
    else
      var front, last := CurrentWinner(s, records[..|records| - 1], d), records[|records| - 1];
      if !Current(s, last, d, d.generation) then front
      else if front == None || Outranks(last.record, front.value.record) then Some(last)
      else front
  }

  /** Corroborating evidence joins the winner's generation; any other claim opens the next one. */
  function AssignGeneration(key: Key, winner: Option<Stored>, r: Record): nat {
    if winner.Some? && SameContent(winner.value.record, r) && winner.value.record.deviceGeneration == r.deviceGeneration then
      if winner.value.record.capabilityGeneration != 0 then winner.value.record.capabilityGeneration else 1
    else if key.generation != 0 then key.generation + 1 else 1
  }

  function Supersede(records: seq<Stored>, slot: Slot): (marked: seq<Stored>)
    ensures |marked| == |records|
    ensures forall i :: 0 <= i < |records| ==>
              marked[i] == if records[i].slot == slot then records[i].(superseded := true) else records[i]
  {
    seq(|records|, i requires 0 <= i < |records| => if records[i].slot == slot then records[i].(superseded := true) else records[i])
  }

  /** The key with its generation raised to cover the record. */
  function Raise(key: Key, generation: nat): Key {
    key.(hasEvidence := true,
         generation := if key.generation == 0 || generation > key.generation then generation else key.generation)
  }

  function Append(key: Key, r: Record, serial: nat): Key {
    key.(records := Supersede(key.records, SlotOf(r)) + [Stored(r, false, SlotOf(r), serial)])
  }

  function Store(s: State, r: Record): State
    requires IdOf(r) in s.keys
  {
    s.(keys := s.keys[IdOf(r) := Append(s.keys[IdOf(r)], r, s.nextSerial)],
       queue := s.queue + [Entry(IdOf(r), s.nextSerial)],
       evidenceCount := s.evidenceCount + 1, nextSerial := s.nextSerial + 1)
  }

  /** From a key that accepts the record: repeat, refuse for lack of room, or store. */
  ghost function Admit(s: State, r: Record): Outcome
    requires r.device in s.devices && IdOf(r) in s.keys
  {
    var d, key := s.devices[r.device], s.keys[IdOf(r)];
    var bound := Bind(r, d);
    if Repeats(Latest(key.records, SlotOf(bound)), bound) then Outcome(s, Plain(AcceptedIdempotent))
    else
      var generation := AssignGeneration(key, CurrentWinner(s, key.records, d), bound);
      var record := bound.(capabilityGeneration := generation);
      var raised := s.(keys := s.keys[IdOf(r) := Raise(key, generation)]);
      MakeRoom(raised, record)
  }

  ghost function MakeRoom(s: State, r: Record): Outcome
    requires IdOf(r) in s.keys
  {
    var max := s.config.limits.maxEvidenceHistory;
    var room := if s.evidenceCount >= max then EvictIfNeeded(s) else s;
    if room.evidenceCount >= max then Outcome(room, Plain(RejectedBackpressure))
    else Outcome(EvictIfNeeded(Store(room, r)), Plain(Accepted))
  }

  ghost function ApplyCapability(s: State, r: Record): Outcome {
    match SchemaRejection(s.config, r)
    case Some(code) => Outcome(s, Plain(code))
    case None =>
      match DeviceRejection(s, r)
      case Some(code) => Outcome(s, Plain(code))
      case None =>
        var (ready, refused) := EnsureKey(s, r);
        match refused
        case Some(code) => Outcome(ready, Plain(code))
        case None =>
          match KeyRejection(ready.keys[IdOf(r)], r)
          case Some(code) => Outcome(ready, Plain(code))
          case None => Admit(ready, r)
  }

  // ---- quirks -------------------------------------------------------------------------------

  predicate KnownCapability(config: Config, capability: nat) {
    exists id :: id in config.schemas && config.schemas[id].capability == capability
  }

  predicate ImpactsKnown(config: Config, q: Quirk) {
    forall i :: 0 <= i < |q.impacted| ==> KnownCapability(config, q.impacted[i])
  }

  function ApplyQuirk(s: State, q: Quirk, withdraw: bool): Outcome {
    if !ImpactsKnown(s.config, q) then Outcome(s, Plain(RejectedUnknownSchema))
    else if withdraw then
      if q.id !in s.quirks then Outcome(s, Plain(RejectedUnknownDevice))
      else if s.quirks[q.id].withdrawn then Outcome(s, Plain(AcceptedIdempotent))
      else Outcome(s.(quirks := s.quirks[q.id := s.quirks[q.id].(withdrawn := true)]), Plain(Accepted))
    else if q.generation == 0 then Outcome(s, Plain(RejectedValidation))
    else if q.id !in s.quirks then
      if |s.quirks| >= s.config.limits.maxQuirks then Outcome(s, Plain(RejectedLimit))
      else if q.generation > 1 then Outcome(s, Plain(RejectedStaleCapabilityGeneration))
      else Outcome(s.(quirks := s.quirks[q.id := q]), Plain(Accepted))
    else
      var e := s.quirks[q.id];
      if q.generation < e.generation then Outcome(s, Plain(RejectedGenerationRegression))
      else if q.generation == e.generation then
        if e.title == q.title && e.severity == q.severity && e.category == q.category && e.impacted == q.impacted then
          Outcome(s, Plain(AcceptedIdempotent))
        else Outcome(s, Plain(RejectedDuplicateConflict))
      else Outcome(s.(quirks := s.quirks[q.id := q]), Plain(Accepted))
  }

  // ---- compatibility facts --------------------------------------------------------------------

  /** A withdrawn fact stays, and so do its references; withdrawing takes a resolving fact as well. */
  function ApplyFact(s: State, f: Fact, withdraw: bool): Outcome {
    if !BothResolve(Known(s), f) then Outcome(s, Plain(RejectedValidation))
    else if withdraw then
      if f.id !in s.facts then Outcome(s, Plain(RejectedUnknownDevice))
      else if s.facts[f.id].withdrawn then Outcome(s, Plain(AcceptedIdempotent))
      else Outcome(s.(facts := s.facts[f.id := s.facts[f.id].(withdrawn := true, source := f.source)]), Plain(Accepted))
    else if f.generation == 0 then Outcome(s, Plain(RejectedValidation))
    else if f.id !in s.facts then
      if |s.facts| >= s.config.limits.maxFacts then Outcome(s, Plain(RejectedLimit))
      else if f.generation > 1 then Outcome(s, Plain(RejectedStaleCapabilityGeneration))
      else Outcome(s.(facts := s.facts[f.id := f]), Plain(Accepted))
    else
      var e := s.facts[f.id];
      if f.generation < e.generation then Outcome(s, Plain(RejectedGenerationRegression))
      else if f.generation == e.generation then
        if e.outcome == f.outcome && SameReference(e.lhs, f.lhs) && SameReference(e.rhs, f.rhs) && e.reason == f.reason then
          Outcome(s, Plain(AcceptedIdempotent))
        else Outcome(s, Plain(RejectedDuplicateConflict))
      else Outcome(s.(facts := s.facts[f.id := f]), Plain(Accepted))
  }

  // ---- publications ---------------------------------------------------------------------------

  datatype Kind =
    | RegisterPublisherKind | RegisterDevice | PublishDeviceGeneration | PublishCapability | WithdrawCapability
    | PublishQuirk | WithdrawQuirk | PublishCompatibility | WithdrawCompatibility | Heartbeat

  predicate IsCapability(k: Kind) { k == PublishCapability || k == WithdrawCapability }

  /** `wellFormed` sums up the length, token and value-form checks; `fingerprint` is the content hash. */
  datatype Publication = Publication(
    kind: Kind, publisher: Identity, sequence: nat, evidenceGeneration: nat, adapter: string,
    wellFormed: bool, fingerprint: nat, device: Registration, capability: Record, quirk: Quirk, compatibility: Fact)

  predicate ValidHardware(h: Q.Hardware) { h.vendor != 0 && (h.family != 0 || h.model != 0) }

  predicate ValidRegistration(r: Registration) { r.device != 0 && r.incarnation != 0 && ValidHardware(r.hardware) }

  predicate ValidRecord(config: Config, r: Record) {
    && r.device != 0 && r.deviceGeneration != 0 && r.capability != 0 && r.schema != 0 && r.source.publisher.id != 0
    && r.source.sourceClass != Unspecified && AllowedFor(r.source.provenance, r.source.sourceClass)
    && (r.withdrawn ==> r.support == Unknown && r.value.NoValue?)
    && (r.conditions.Node? ==> C.Accepted(r.conditions, config.limits.conditions))
  }

  predicate ValidQuirk(config: Config, q: Quirk) {
    && q.id != 0 && q.generation != 0 && q.impacted != []
    && (q.applicability.platformConditions.Node? ==> C.Accepted(q.applicability.platformConditions, config.limits.conditions))
  }

  predicate ValidFact(config: Config, f: Fact) {
    && f.id != 0 && f.generation != 0 && f.lhs.token != 0 && f.rhs.token != 0 && !SameReference(f.lhs, f.rhs)
    && |f.reason| <= config.limits.maxMetadataBytes && (f.outcome.Incompatible? || f.outcome.UnsupportedCompatibility? ==> f.reason != "")
    && f.window.Valid() && f.source.publisher.id != 0
    && f.source.sourceClass != Unspecified && AllowedFor(f.source.provenance, f.source.sourceClass)
    && (f.conditions.Node? ==> C.Accepted(f.conditions, config.limits.conditions))
  }

  predicate Validated(config: Config, p: Publication) {
    && p.publisher.id != 0 && p.publisher.boot != 0 && p.wellFormed
    && match p.kind
       case RegisterDevice => ValidRegistration(p.device)
       case PublishDeviceGeneration => ValidRegistration(p.device)
       case PublishCapability => !p.capability.withdrawn && ValidRecord(config, p.capability)
       case WithdrawCapability => p.capability.withdrawn && ValidRecord(config, p.capability)
       case PublishQuirk => ValidQuirk(config, p.quirk)
       case WithdrawQuirk => ValidQuirk(config, p.quirk)
       case PublishCompatibility => !p.compatibility.withdrawn && ValidFact(config, p.compatibility)
       case WithdrawCompatibility => p.compatibility.withdrawn && ValidFact(config, p.compatibility)
       case _ => true
  }

  /** The registry, not the publisher, says who published and under which schema. */
  function Attribute(config: Config, p: Publication): Publication {
    var r := p.capability;
    var schema := if IsCapability(p.kind) && r.schema == 0 && r.capability in config.bindings then config.bindings[r.capability] else r.schema;
    p.(capability := r.(source := r.source.(publisher := p.publisher), schema := schema),
       compatibility := p.compatibility.(source := p.compatibility.source.(publisher := p.publisher)))
  }

  predicate Unbound(config: Config, p: Publication) {
    IsCapability(p.kind) && p.capability.schema == 0 && p.capability.capability !in config.bindings
  }

  /** The checks of the sender. */
  function SenderRejection(s: State, who: Identity): (rejected: Option<Code>)
    ensures rejected == None ==> who.id in s.publishers
  {
    if who.id !in s.publishers then Some(RejectedUnknownPublisher)
    else if s.publishers[who.id].fenced then Some(RejectedFencedPublisher)
    else if who.boot in s.publishers[who.id].fencedBoots then Some(RejectedFencedPublisher)
    else if s.publishers[who.id].boot != who.boot then Some(RejectedStaleBoot)
    else if who.epoch != s.epoch then Some(RejectedStaleEpoch)
    else None
  }

  function WatermarkOf(p: Publisher, boot: nat): Watermark {
    if boot in p.watermarks then p.watermarks[boot] else Watermark(0, 0)
  }

  /** The sequence and evidence-generation checks; an idempotent duplicate also ends here. */
  function SequenceVerdict(p: Publisher, pub: Publication): Option<Code> {
    var w := WatermarkOf(p, pub.publisher.boot);
    if pub.sequence < w.maxSequence then Some(RejectedStaleSequence)
    else if pub.sequence == w.maxSequence then
      if pub.sequence !in p.fingerprints || p.fingerprints[pub.sequence] == pub.fingerprint then Some(AcceptedIdempotent)
      else Some(RejectedDuplicateConflict)
    else if pub.evidenceGeneration < w.maxEvidenceGeneration then Some(RejectedGenerationRegression)
    else None
  }

  const MaxFingerprints: nat := 4096

  lemma {:induction false} LeastBelow(xs: set<nat>, x: nat)
    requires x in xs
    ensures exists m :: m in xs && forall y :: y in xs ==> m <= y
    decreases x
  {
    if y: nat :| y in xs && y < x { LeastBelow(xs, y); }
  }

  ghost function MinOf(xs: set<nat>): (m: nat)
    requires xs != {}
    ensures m in xs && forall y :: y in xs ==> m <= y
  {
    var some :| some in xs;
    LeastBelow(xs, some);
    var x :| x in xs && forall y :: y in xs ==> x <= y;
    x
  }

  /** The numbers of a set in ascending order, as an ordered map visits its keys. */
  ghost function Ascending(xs: set<nat>): (ids: seq<nat>)
    ensures forall i :: 0 <= i < |ids| ==> ids[i] in xs
    decreases |xs|
  {
    if xs == {} then [] else [MinOf(xs)] + Ascending(xs - {MinOf(xs)})
  }

  lemma {:induction false} AscendingIsEnumeration(xs: set<nat>)
    ensures IsEnumeration(Ascending(xs), xs) && |Ascending(xs)| == |xs|
    ensures forall i, j :: 0 <= i < j < |Ascending(xs)| ==> Ascending(xs)[i] < Ascending(xs)[j]
    decreases |xs|
  {
    if xs != {} {
      var least := MinOf(xs);
      AscendingIsEnumeration(xs - {least});
      var rest := Ascending(xs - {least});
      assert Ascending(xs) == [least] + rest;
      forall x | x in xs ensures x in Ascending(xs) {
        if x != least { assert x in rest; }
      }
    }
  }

  /** The fingerprints of the smallest sequences are forgotten first. */
  ghost function TrimFingerprints(m: map<nat, nat>): map<nat, nat>
    decreases |m|
  {
    if |m| <= MaxFingerprints then m else TrimFingerprints(m - {MinOf(m.Keys)})
  }

  function OpenWatermark(p: Publisher, boot: nat): Publisher {
    p.(watermarks := p.watermarks[boot := WatermarkOf(p, boot)])
  }

  ghost function RecordAcceptance(p: Publisher, pub: Publication): Publisher {
    var w := WatermarkOf(p, pub.publisher.boot);
    var generation := if pub.evidenceGeneration > w.maxEvidenceGeneration then pub.evidenceGeneration else w.maxEvidenceGeneration;
    p.(watermarks := p.watermarks[pub.publisher.boot := Watermark(pub.sequence, generation)],
       fingerprints := TrimFingerprints(p.fingerprints[pub.sequence := pub.fingerprint]),
       lastSequence := pub.sequence, maxEvidenceGeneration := generation)
  }

  /** The handler of each sequenced kind. */
  ghost function Handle(s: State, pub: Publication): Outcome {
    match pub.kind
    case RegisterDevice => ApplyDevice(s, pub.device, false)
    case PublishDeviceGeneration => ApplyDevice(s, pub.device, true)
    case PublishCapability => ApplyCapability(s, pub.capability)
    case WithdrawCapability => ApplyCapability(s, pub.capability)
    case PublishQuirk => ApplyQuirk(s, pub.quirk, false)
    case WithdrawQuirk => ApplyQuirk(s, pub.quirk, true)
    case PublishCompatibility => ApplyFact(s, pub.compatibility, false)
    case WithdrawCompatibility => ApplyFact(s, pub.compatibility, true)
    case Heartbeat => Outcome(s, Plain(Accepted))
    case RegisterPublisherKind => Outcome(s, Plain(RejectedValidation))
  }

  /** A publication from an admitted sender. */
  ghost function Sequenced(s: State, pub: Publication): Outcome
    requires pub.publisher.id in s.publishers
  {
    var id := pub.publisher.id;
    var open := s.(publishers := s.publishers[id := OpenWatermark(s.publishers[id], pub.publisher.boot)]);
    match SequenceVerdict(open.publishers[id], pub)
    case Some(code) => Outcome(open, Plain(code))
    case None =>
      var o := Handle(open, pub);
      if IsAccepted(o.reply.code) then
        Outcome(o.state.(publishers := open.publishers[id := RecordAcceptance(open.publishers[id], pub)]), o.reply)
      else o
  }

  ghost function ApplyPublication(s: State, submitted: Publication): Outcome {
    var pub := Attribute(s.config, submitted);
    if s.shuttingDown then Outcome(s, Plain(RejectedShuttingDown))
    else if Unbound(s.config, submitted) then Outcome(s, Plain(RejectedUnknownSchema))
    else if !Validated(s.config, pub) then Outcome(s, Plain(RejectedValidation))
    else if pub.kind == RegisterPublisherKind then RegisterPublisher(s, pub.publisher, pub.adapter)
    else match SenderRejection(s, pub.publisher)
      case Some(code) => Outcome(s, Plain(code))
      case None => Sequenced(s, pub)
  }
}
