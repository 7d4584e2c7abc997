// Export and import of the durable state (src/registry.cpp:2420-2820): what is
// written, what a registry that loads it knows, and what it no longer trusts.
module Restart {
  import opened Basics
  import opened Model
  import opened Steps
  import opened Eviction
  import opened Invariants
  import opened Admission

  datatype Subject = Subject(id: nat, device: Device)

  datatype Mark = Mark(publisher: nat, boot: nat, maxSequence: nat, maxEvidenceGeneration: nat)

  datatype Boot = Boot(publisher: nat, boot: nat)

  datatype Durable = Durable(
    epoch: nat, platforms: seq<nat>, subjects: seq<Subject>, history: seq<Record>, quirks: seq<Quirk>, facts: seq<Fact>,
    marks: seq<Mark>, fencedBoots: seq<Boot>)

  // ---- export ------------------------------------------------------------------------------

  /** The order in which the history is written. */
  predicate HistoryLess(a: Record, b: Record) {
    if a.device != b.device then a.device < b.device
    else if a.capability != b.capability then a.capability < b.capability
    else if a.capabilityGeneration != b.capabilityGeneration then a.capabilityGeneration < b.capabilityGeneration
    else if a.source.publisher.id != b.source.publisher.id then a.source.publisher.id < b.source.publisher.id
    else a.source.observationSequence < b.source.observationSequence
  }

  predicate HistorySorted(h: seq<Record>) {
    forall i, j :: 0 <= i < j < |h| ==> !HistoryLess(h[j], h[i])
  }

  function BareRecords(records: seq<Stored>): (rs: seq<Record>)
    ensures |rs| == |records| && forall i :: 0 <= i < |rs| ==> rs[i] == records[i].record
  {
    seq(|records|, i requires 0 <= i < |records| => records[i].record)
  }

  /** Every stored record, without its flag, slot and serial. */
  ghost function AllRecords(keys: map<KeyId, Key>): multiset<Record>
    decreases |keys|
  {
    if keys == map[] then multiset{}
    else
      var k := PickKey(keys);
      multiset(BareRecords(keys[k].records)) + AllRecords(keys - {k})
  }

  /** The fenced boots that are written: the current one only when the whole publisher is fenced. */
  predicate IsExportedFence(publishers: map<nat, Publisher>, id: nat, boot: nat) {
    id in publishers && boot in publishers[id].fencedBoots && (boot != publishers[id].boot || publishers[id].fenced)
  }

  function MarkOf(id: nat, p: Publisher): Mark {
    Mark(id, p.boot, p.lastSequence, p.maxEvidenceGeneration)
  }

  predicate SubjectsExported(devices: map<nat, Device>, subjects: seq<Subject>) {
    && |subjects| == |devices|
    && (forall i :: 0 <= i < |subjects| ==> subjects[i].id in devices && devices[subjects[i].id] == subjects[i].device)
    && (forall i, j :: 0 <= i < j < |subjects| ==> subjects[i].id < subjects[j].id)
    && (forall id :: id in devices ==> Subject(id, devices[id]) in subjects)
  }

  predicate QuirksExported(quirks: map<nat, Quirk>, written: seq<Quirk>) {
    && |written| == |quirks|
    && (forall i :: 0 <= i < |written| ==> written[i].id in quirks && quirks[written[i].id] == written[i])
    && (forall i, j :: 0 <= i < j < |written| ==> written[i].id < written[j].id)
    && (forall id :: id in quirks ==> quirks[id] in written)
  }

  predicate FactsExported(facts: map<nat, Fact>, written: seq<Fact>) {
    && |written| == |facts|
    && (forall i :: 0 <= i < |written| ==> written[i].id in facts && facts[written[i].id] == written[i])
    && (forall i, j :: 0 <= i < j < |written| ==> written[i].id < written[j].id)
    && (forall id :: id in facts ==> facts[id] in written)
  }

  predicate PlatformsExported(platforms: set<nat>, written: seq<nat>) {
    && (forall i :: 0 <= i < |written| ==> written[i] in platforms)
    && (forall i, j :: 0 <= i < j < |written| ==> written[i] < written[j])
    && (forall p :: p in platforms ==> p in written)
  }

  ghost predicate PublishersExported(publishers: map<nat, Publisher>, marks: seq<Mark>, fenced: seq<Boot>) {
    && |marks| == |publishers|
    && (forall i :: 0 <= i < |marks| ==> marks[i].publisher in publishers && marks[i] == MarkOf(marks[i].publisher, publishers[marks[i].publisher]))
    && (forall i, j :: 0 <= i < j < |marks| ==> marks[i].publisher < marks[j].publisher)
    && (forall id :: id in publishers ==> MarkOf(id, publishers[id]) in marks)
    && (forall b :: b in fenced <==> IsExportedFence(publishers, b.publisher, b.boot))
  }

  ghost predicate IsExport(s: State, d: Durable) {
    && d.epoch == s.epoch
    && PlatformsExported(s.platforms, d.platforms)
    && SubjectsExported(s.devices, d.subjects)
    && multiset(d.history) == AllRecords(s.keys) && HistorySorted(d.history)
    && QuirksExported(s.quirks, d.quirks)
    && FactsExported(s.facts, d.facts)
    && PublishersExported(s.publishers, d.marks, d.fencedBoots)
  }

  // ---- import --------------------------------------------------------------------------------

  datatype Devices = Devices(devices: map<nat, Device>, families: set<nat>, models: set<nat>, architectures: set<nat>)

  function Adopted(d: Device): Device {
    if d.platformGeneration == 0 then d.(platformGeneration := 1) else d
  }

  function StageDevice(limits: Limits, staged: Devices, x: Subject): Option<Devices> {
    var h := x.device.hardware;
    if x.id == 0 || x.device.incarnation == 0 || x.device.generation == 0 || x.device.boot == 0 || !ValidHardware(h)
       || x.id in staged.devices then None
    else if h.family != 0 && |staged.families| >= limits.maxFamilies && h.family !in staged.families then None
    else Some(Devices(staged.devices[x.id := Adopted(x.device)], Noted(staged.families, h.family),
                      Noted(staged.models, h.model), Noted(staged.architectures, h.architecture)))
  }

  function StageDevices(limits: Limits, subjects: seq<Subject>): Option<Devices> {
    if subjects == [] then Some(Devices(map[], {}, {}, {}))
    else
      match StageDevices(limits, subjects[..|subjects| - 1])
      case None => None
      case Some(staged) => StageDevice(limits, staged, subjects[|subjects| - 1])
  }

  /** Imported slots are finer than live ones. */
  function ImportSlot(r: Record): Slot {
    ImportedSlot(r.source.publisher.id, r.source.publisher.boot, r.source.sourceClass, r.source.nativeReference, r.precision)
  }

  function StageKey(key: Key, r: Record, serial: nat): Key {
    Key(key.schema, if r.capabilityGeneration != 0 then r.capabilityGeneration else key.generation, true,
        Supersede(key.records, ImportSlot(r)) + [Stored(r, false, ImportSlot(r), serial)])
  }

  /** The keys staged so far, the serial counter, and whether every record so far was acceptable. */
  datatype Staging = Staging(keys: map<KeyId, Key>, nextSerial: nat, ok: bool)

  function KeyAt(keys: map<KeyId, Key>, r: Record): Key {
    if IdOf(r) in keys then keys[IdOf(r)] else Key(r.schema, 0, false, [])
  }

  predicate Stageable(config: Config, devices: map<nat, Device>, key: Key, r: Record) {
    && ValidRecord(config, r) && r.device in devices && UnderSchema(config, r)
    && r.deviceGeneration <= devices[r.device].generation
    && key.schema == r.schema
    && (r.capabilityGeneration != 0 && key.generation != 0 ==> r.capabilityGeneration >= key.generation)
  }

  /** The serial counter moves even when a later record makes the import fail. */
  function StageHistory(config: Config, devices: map<nat, Device>, history: seq<Record>, start: nat): Staging {
    if history == [] then Staging(map[], start, true)
    else
      var n := |history| - 1;
      var x, g := history[n], StageHistory(config, devices, history[..n], start);
      if !g.ok || !Stageable(config, devices, KeyAt(g.keys, x), x) then g.(ok := false)
      else Staging(g.keys[IdOf(x) := StageKey(KeyAt(g.keys, x), x, g.nextSerial + 1)], g.nextSerial + 1, true)
  }

  predicate ImpactsBound(config: Config, q: Quirk) {
    forall i :: 0 <= i < |q.impacted| ==> q.impacted[i] in config.bindings
  }

  function StageQuirk(config: Config, staged: map<nat, Quirk>, q: Quirk): Option<map<nat, Quirk>> {
    if !ValidQuirk(config, q) || !ImpactsBound(config, q) || q.id in staged then None else Some(staged[q.id := q])
  }

  function StageQuirks(config: Config, quirks: seq<Quirk>): Option<map<nat, Quirk>> {
    if quirks == [] then Some(map[])
    else
      match StageQuirks(config, quirks[..|quirks| - 1])
      case None => None
      case Some(staged) => StageQuirk(config, staged, quirks[|quirks| - 1])
  }

  function StagePlatforms(platforms: seq<nat>): Option<set<nat>> {
    if platforms == [] then Some({})
    else
      match StagePlatforms(platforms[..|platforms| - 1])
      case None => None
      case Some(staged) =>
        var last := platforms[|platforms| - 1];
        if last == 0 then None else Some(staged + {last})
  }

  /** The subjects of the loaded state: families, models and architectures are those the devices name now. */
  function Loaded(x: Devices, platforms: set<nat>): Subjects {
    Subjects(x.devices.Keys, platforms, x.families, x.models, x.architectures)
  }

  function StageFact(config: Config, x: Subjects, staged: map<nat, Fact>, f: Fact): Option<map<nat, Fact>> {
    if !ValidFact(config, f) || !BothResolve(x, f) || f.id in staged then None else Some(staged[f.id := f])
  }

  /** Withdrawn facts are looked up as well. */
  function StageFacts(config: Config, x: Subjects, facts: seq<Fact>): Option<map<nat, Fact>> {
    if facts == [] then Some(map[])
    else
      match StageFacts(config, x, facts[..|facts| - 1])
      case None => None
      case Some(staged) => StageFact(config, x, staged, facts[|facts| - 1])
  }

  const Unlisted := Publisher(0, 0, Dead, 0, 0, {}, map[], map[], false)

  /** The first mark of a publisher names its boot; one boot may not be marked twice. */
  function StageMark(staged: map<nat, Publisher>, m: Mark): Option<map<nat, Publisher>> {
    if m.publisher == 0 then None
    else
      var p := if m.publisher in staged then staged[m.publisher]
               else Unlisted.(boot := m.boot, maxEvidenceGeneration := m.maxEvidenceGeneration);
      if m.boot in p.watermarks then None
      else Some(staged[m.publisher := p.(watermarks := p.watermarks[m.boot := Watermark(m.maxSequence, m.maxEvidenceGeneration)])])
  }

  function StageMarks(marks: seq<Mark>): Option<map<nat, Publisher>> {
    if marks == [] then Some(map[])
    else
      match StageMarks(marks[..|marks| - 1])
      case None => None
      case Some(staged) => StageMark(staged, marks[|marks| - 1])
  }

  function StageFence(staged: map<nat, Publisher>, b: Boot): Option<map<nat, Publisher>> {
    if b.publisher == 0 || b.boot == 0 then None
    else
      var p := if b.publisher in staged then staged[b.publisher] else Unlisted;
      Some(staged[b.publisher := p.(fencedBoots := p.fencedBoots + {b.boot})])
  }

  function StageFences(publishers: map<nat, Publisher>, boots: seq<Boot>): Option<map<nat, Publisher>> {
    if boots == [] then Some(publishers)
    else
      match StageFences(publishers, boots[..|boots| - 1])
      case None => None
      case Some(staged) => StageFence(staged, boots[|boots| - 1])
  }

  /** Liveness is never restored: the boot that was current is fenced. */
  function Buried(p: Publisher): Publisher {
    p.(state := Dead, fencedBoots := if p.boot != 0 then p.fencedBoots + {p.boot} else p.fencedBoots)
  }

  function Bury(publishers: map<nat, Publisher>): map<nat, Publisher> {
    map id | id in publishers :: Buried(publishers[id])
  }

  function DevicesIn(keys: set<KeyId>): set<nat> { set k | k in keys :: k.0 }

  function CapabilitiesIn(keys: set<KeyId>, device: nat): set<nat> { set k | k in keys && k.0 == device :: k.1 }

  function IndexOf(keys: map<KeyId, Key>): map<nat, set<nat>> {
    map d | d in DevicesIn(keys.Keys) :: CapabilitiesIn(keys.Keys, d)
  }

  ghost function LeastKey(keys: set<KeyId>): (k: KeyId)
    requires keys != {}
    ensures k in keys && forall j :: j in keys ==> k.0 < j.0 || (k.0 == j.0 && k.1 <= j.1)
  {
    var some :| some in keys;
    assert some.0 in DevicesIn(keys);
    var d := MinOf(DevicesIn(keys));
    var first :| first in keys && first.0 == d;
    assert first.1 in CapabilitiesIn(keys, d);
    var c := MinOf(CapabilitiesIn(keys, d));
    assert forall j :: j in keys ==> j.0 in DevicesIn(keys) && j.1 in CapabilitiesIn(keys, j.0);
    (d, c)
  }

  function EntriesOf(k: KeyId, records: seq<Stored>): seq<Entry> {
    seq(|records|, i requires 0 <= i < |records| => Entry(k, records[i].serial))
  }

  /** The eviction queue is rebuilt key by key. */
  ghost function QueueOf(keys: map<KeyId, Key>): seq<Entry>
    decreases |keys|
  {
    if keys == map[] then []
    else
      var k := LeastKey(keys.Keys);
      EntriesOf(k, keys[k].records) + QueueOf(keys - {k})
  }

  predicate WithinBounds(limits: Limits, d: Durable) {
    && |d.subjects| <= limits.maxDevices && |d.history| <= limits.maxEvidenceHistory && |d.quirks| <= limits.maxQuirks
    && |d.facts| <= limits.maxFacts && |d.marks| <= limits.maxPublishers * 64
  }

  datatype Load = Load(state: State, ok: bool)

  /** What is staged after the history: quirks, facts and publishers, each tested before anything is changed. */
  datatype Rest = Rest(quirks: map<nat, Quirk>, facts: map<nat, Fact>, publishers: map<nat, Publisher>)

  function StagePublishers(limits: Limits, d: Durable): Option<map<nat, Publisher>> {
    match StageMarks(d.marks)
    case None => None
    case Some(marked) =>
      match StageFences(marked, d.fencedBoots)
      case None => None
      case Some(publishers) => if |publishers| > limits.maxPublishers then None else Some(publishers)
  }

  function StageRest(c: Config, x: Subjects, d: Durable): Option<Rest> {
    match (StageQuirks(c, d.quirks), StageFacts(c, x, d.facts), StagePublishers(c.limits, d))
    case (Some(quirks), Some(facts), Some(publishers)) => Some(Rest(quirks, facts, publishers))
    case _ => None
  }

  ghost function Import(s: State, d: Durable): Load {
    var c := s.config;
    if !WithinBounds(c.limits, d) then Load(s, false)
    else match StageDevices(c.limits, d.subjects)
      case None => Load(s, false)
      case Some(x) =>
        match StagePlatforms(d.platforms)
        case None => Load(s, false)
        case Some(platforms) =>
          var g := StageHistory(c, x.devices, d.history, s.nextSerial);
          var failed := Load(s.(nextSerial := g.nextSerial), false);
          if !g.ok then failed
          else match StageRest(c, Loaded(x, platforms), d)
            case None => failed
            case Some(r) =>
              Load(
                State(c, x.devices, platforms, x.families, x.models, x.architectures, g.keys, IndexOf(g.keys), QueueOf(g.keys),
                      |d.history|, g.nextSerial, r.quirks, r.facts, Bury(r.publishers),
                      if d.epoch > s.epoch then d.epoch else s.epoch, s.shuttingDown), true)
  }
}
