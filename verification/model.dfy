// The registry's knowledge as a value: publishers, devices, evidence records
// in source slots, quirks, compatibility facts and the epoch, and the questions asked of them
// (src/registry.cpp, src/provenance.cpp, src/support.cpp). Identity tokens and
// schema names are numbers compared and ordered as such; zero is "not set".
module Model {
  import opened Basics
  import C = Conditions
  import Q = Quirks
  import V = Versions

  // ---- provenance -----------------------------------------------------------------

  datatype SourceClass =
    | Unspecified | SyntheticBackend | ImportedManifest | StaticCuratedDatabase | AcpiSmbios | PciConfiguration
    | OsEnumeration | NicDriverApi | CxlEnumeration | RocmSmi | Nvml | CudaRuntime | RuntimeProbe | FirmwareQuery
    | DriverQuery | LiveVendorApi | HardwareProbe

  function Authority(c: SourceClass): nat {
    match c
    case SyntheticBackend => 1
    case Unspecified => 2
    case ImportedManifest => 3
    case StaticCuratedDatabase => 4
    case AcpiSmbios => 5
    case PciConfiguration => 6
    case OsEnumeration => 7
    case NicDriverApi => 8
    case CxlEnumeration => 9
    case RocmSmi => 10
    case Nvml => 11
    case CudaRuntime => 12
    case RuntimeProbe => 13
    case FirmwareQuery => 14
    case DriverQuery => 15
    case LiveVendorApi => 16
    case HardwareProbe => 17
  }

  datatype Provenance =
    | RealLiveHardware | RealOsReported | RealVendorApi | RealRuntimeProbe | CuratedStatic | Derived | Imported
    | Synthetic | UnknownSource

  predicate IsReal(p: Provenance) {
    p == RealLiveHardware || p == RealOsReported || p == RealVendorApi || p == RealRuntimeProbe
  }

  /** Only curated, imported and derived knowledge may stay current across a restart. */
  predicate IsDurable(p: Provenance) {
    p == CuratedStatic || p == Imported || p == Derived
  }

  function Strength(p: Provenance): nat {
    match p
    case Synthetic => 0
    case UnknownSource => 1
    case Imported => 2
    case CuratedStatic => 3
    case Derived => 4
    case RealOsReported => 5
    case RealVendorApi => 6
    case RealRuntimeProbe => 7
    case RealLiveHardware => 8
  }

  function ImpliedBy(c: SourceClass): Provenance {
    match c
    case SyntheticBackend => Synthetic
    case ImportedManifest => Imported
    case StaticCuratedDatabase => CuratedStatic
    case AcpiSmbios => RealOsReported
    case PciConfiguration => RealOsReported
    case OsEnumeration => RealOsReported
    case NicDriverApi => RealVendorApi
    case CxlEnumeration => RealVendorApi
    case RocmSmi => RealVendorApi
    case Nvml => RealVendorApi
    case CudaRuntime => RealVendorApi
    case RuntimeProbe => RealRuntimeProbe
    case FirmwareQuery => RealRuntimeProbe
    case DriverQuery => RealRuntimeProbe
    case LiveVendorApi => RealLiveHardware
    case HardwareProbe => RealLiveHardware
    case Unspecified => UnknownSource
  }

  /** A source may weaken its claim, never strengthen it. */
  predicate AllowedFor(p: Provenance, c: SourceClass) {
    Strength(p) <= Strength(ImpliedBy(c))
  }

  // ---- evidence ---------------------------------------------------------------------

  datatype Support =
    | SupportedNative | SupportedConditional | SupportedEmulated | SupportedSoftwareAssisted | SupportedExperimental
    | Disabled | Unsupported | Unknown | RevalidationRequired

  predicate AssertsUsable(s: Support) {
    s == SupportedNative || s == SupportedConditional || s == SupportedEmulated || s == SupportedSoftwareAssisted
    || s == SupportedExperimental
  }

  datatype Precision = Exact | Probed | DirectReported | DerivedPrecision | Curated | Inferred | UnknownPrecision

  function Rank(p: Precision): nat {
    match p
    case Exact => 6
    case Probed => 5
    case DirectReported => 4
    case DerivedPrecision => 3
    case Curated => 2
    case Inferred => 1
    case UnknownPrecision => 0
  }

  /** A capability value as the registry sees it: its kind, what it is equal to, and its rendering. */
  datatype Value = NoValue | Value(kind: nat, meaning: nat, rendering: nat)

  predicate SameValue(a: Value, b: Value) {
    if a.Value? && b.Value? then a.kind == b.kind && a.meaning == b.meaning else a == b
  }

  datatype Identity = Identity(id: nat, boot: nat, epoch: nat)

  datatype Source = Source(
    sourceClass: SourceClass, provenance: Provenance, publisher: Identity,
    nativeReference: nat, observationSequence: nat, evidenceGeneration: nat)

  datatype Record = Record(
    device: nat, deviceGeneration: nat, deviceBoot: nat, capability: nat, schema: nat, capabilityGeneration: nat,
    support: Support, value: Value, precision: Precision, source: Source, conditions: C.Condition,
    firmwareGeneration: nat, driverGeneration: nat, runtimeGeneration: nat, platformGeneration: nat,
    runtimeId: nat, withdrawn: bool)

  /** The slot texts of the registry, by their parts: live slots ignore reference and precision, imported ones do not. */
  datatype Slot =
    | LiveSlot(publisher: nat, boot: nat, sourceClass: SourceClass)
    | ImportedSlot(publisher: nat, boot: nat, sourceClass: SourceClass, nativeReference: nat, precision: Precision)

  /** `superseded` is the only flag the registry ever stores with a record. */
  datatype Stored = Stored(record: Record, superseded: bool, slot: Slot, serial: nat)

  datatype Key = Key(schema: nat, generation: nat, hasEvidence: bool, records: seq<Stored>)

  type KeyId = (nat, nat)

  datatype Entry = Entry(key: KeyId, serial: nat)

  datatype Device = Device(
    incarnation: nat, platform: nat, hardware: Q.Hardware, software: Q.Software,
    generation: nat, boot: nat, platformGeneration: nat)

  datatype PublisherState = Registered | Fenced | Dead

  datatype Watermark = Watermark(maxSequence: nat, maxEvidenceGeneration: nat)

  datatype Publisher = Publisher(
    boot: nat, epoch: nat, state: PublisherState, lastSequence: nat, maxEvidenceGeneration: nat,
    fencedBoots: set<nat>, watermarks: map<nat, Watermark>, fingerprints: map<nat, nat>, fenced: bool)

  datatype Quirk = Quirk(
    id: nat, generation: nat, title: nat, category: nat, severity: Q.Severity,
    applicability: Q.Applicability, impacted: seq<nat>, withdrawn: bool)

  // ---- compatibility ---------------------------------------------------------------

  datatype ReferenceKind =
    | DeviceReference | FamilyReference | ModelReference | ArchitectureReference | VendorReference
    | FirmwareReference | DriverReference | RuntimeReference | PlatformReference

  /** One side of a compatibility fact; the version qualifies software. */
  datatype Reference = Reference(kind: ReferenceKind, token: nat, version: string)

  predicate SameReference(a: Reference, b: Reference) {
    a.kind == b.kind && a.token == b.token && V.Compare(V.Parse(a.version), V.Parse(b.version)) == 0
  }

  datatype Compatibility =
    | Compatible | CompatibleConditional | Incompatible | UndecidedCompatibility | UnsupportedCompatibility
    | CompatibilityRevalidationRequired

  datatype Fact = Fact(
    id: nat, generation: nat, lhs: Reference, rhs: Reference, outcome: Compatibility, conditions: C.Condition,
    window: V.Range, reason: string, source: Source, withdrawn: bool)

  /** The subjects a reference is looked up among. */
  datatype Subjects = Subjects(
    devices: set<nat>, platforms: set<nat>, families: set<nat>, models: set<nat>, architectures: set<nat>)

  /** References to software and vendors name no subject. */
  predicate Resolves(x: Subjects, r: Reference) {
    match r.kind
    case DeviceReference => r.token in x.devices
    case PlatformReference => r.token in x.platforms
    case FamilyReference => r.token in x.families
    case ModelReference => r.token in x.models
    case ArchitectureReference => r.token in x.architectures
    case _ => true
  }

  predicate BothResolve(x: Subjects, f: Fact) { Resolves(x, f.lhs) && Resolves(x, f.rhs) }

  datatype Schema = Schema(capability: nat, valueKind: nat)

  datatype Limits = Limits(
    maxDevices: nat, maxFamilies: nat, maxCapabilitiesPerDevice: nat, maxEvidencePerCapability: nat,
    maxEvidenceHistory: nat, maxQuirks: nat, maxFacts: nat, maxPublishers: nat, maxMetadataBytes: nat, maxQueryResults: nat,
    conditions: C.Limits)

  /** What never changes while a registry lives: its bounds, its schemas and the schema each capability is bound to. */
  datatype Config = Config(limits: Limits, schemas: map<nat, Schema>, bindings: map<nat, nat>)

  datatype State = State(
    config: Config,
    devices: map<nat, Device>,
    platforms: set<nat>,
    families: set<nat>,
    models: set<nat>,
    architectures: set<nat>,
    keys: map<KeyId, Key>,
    deviceKeys: map<nat, set<nat>>,
    queue: seq<Entry>,
    evidenceCount: int,
    nextSerial: nat,
    quirks: map<nat, Quirk>,
    facts: map<nat, Fact>,
    publishers: map<nat, Publisher>,
    epoch: nat,
    shuttingDown: bool)

  function Fresh(config: Config): State {
    State(config, map[], {}, {}, {}, {}, map[], map[], [], 0, 1, map[], map[], map[], 1, false)
  }

  /** What has been registered so far: none of it is ever forgotten while the registry lives. */
  function Known(s: State): Subjects {
    Subjects(s.devices.Keys, s.platforms, s.families, s.models, s.architectures)
  }

  // ---- authority and staleness -----------------------------------------------------------

  /** The publisher boot that currently speaks for itself. */
  predicate Authoritative(publishers: map<nat, Publisher>, id: nat, boot: nat) {
    && id in publishers
    && !publishers[id].fenced
    && publishers[id].state == Registered
    && publishers[id].boot == boot
    && boot !in publishers[id].fencedBoots
  }

  datatype Flag =
    | DeviceGenerationSuperseded | DeviceBootChanged | DriverGenerationChanged | FirmwareGenerationChanged
    | RuntimeGenerationChanged | PlatformGenerationChanged | PublisherFenced | EpochSuperseded
    | SupersededByNewerEvidence | Withdrawn | RequiresRevalidation

  predicate LiveBound(r: Record) { !IsDurable(r.source.provenance) }

  /** Evidence depends on an axis when it came from a live process or its conditions name the axis. */
  predicate DependsOn(r: Record, axis: C.Kind) {
    LiveBound(r) || C.Mentions(r.conditions, axis)
  }

  /** The record carries the flag when the device is asked about at generation `target`. */
  predicate HasFlag(s: State, st: Stored, d: Device, target: nat, flag: Flag) {
    var r := st.record;
    var current := target == d.generation;
    match flag
    case SupersededByNewerEvidence => st.superseded
    case Withdrawn => r.withdrawn
    case DeviceGenerationSuperseded => r.deviceGeneration != target || !current
    case DeviceBootChanged => current && r.deviceBoot != d.boot
    case DriverGenerationChanged =>
      current && DependsOn(r, C.MinDriverVersion) && r.driverGeneration != 0
      && r.driverGeneration != d.software.driverGeneration
    case FirmwareGenerationChanged =>
      current && DependsOn(r, C.MinFirmwareVersion) && r.firmwareGeneration != 0
      && r.firmwareGeneration != d.software.firmwareGeneration
    case RuntimeGenerationChanged =>
      current && DependsOn(r, C.MinRuntimeVersion) && r.runtimeId != 0 && r.runtimeId == d.software.runtime.id
      && r.runtimeGeneration != 0 && r.runtimeGeneration != d.software.runtimeGeneration
    case PlatformGenerationChanged =>
      current && LiveBound(r) && r.platformGeneration != 0 && r.platformGeneration != d.platformGeneration
    case PublisherFenced =>
      current && LiveBound(r) && !Authoritative(s.publishers, r.source.publisher.id, r.source.publisher.boot)
    case EpochSuperseded => current && LiveBound(r) && r.source.publisher.epoch != s.epoch
    case RequiresRevalidation => false
  }

  function Staleness(s: State, st: Stored, d: Device, target: nat): set<Flag> {
    set f: Flag | HasFlag(s, st, d, target, f)
  }

  /** Current evidence: no flag at all. */
  predicate Current(s: State, st: Stored, d: Device, target: nat) {
    forall f: Flag :: !HasFlag(s, st, d, target, f)
  }

  // ---- claims ------------------------------------------------------------------------------

  /** The content test of the registry: support, value and the rendering of the conditions. */
  predicate SameContent(a: Record, b: Record) {
    a.support == b.support && SameValue(a.value, b.value) && C.Describe(a.conditions) == C.Describe(b.conditions)
  }

  /** What contradiction handling compares: the three renderings. */
  datatype Assertion = Assertion(support: Support, hasValue: bool, rendering: nat, conditions: string)

  function AssertionOf(r: Record): Assertion {
    Assertion(r.support, r.value.Value?, if r.value.Value? then r.value.rendering else 0, C.Describe(r.conditions))
  }

  // ---- resolution -------------------------------------------------------------------------

  function Candidates(s: State, records: seq<Stored>, d: Device, target: nat): seq<Stored> {
    if records == [] then []
    else
      var front := Candidates(s, records[..|records| - 1], d, target);
      var last := records[|records| - 1];
      if Current(s, last, d, target) then front + [last] else front
  }

  /** `a` is strictly preferred to `b`: authority, precision, evidence generation, publisher, observation sequence. */
  predicate Precedes(a: Record, b: Record) {
    var x, y := Authority(a.source.sourceClass), Authority(b.source.sourceClass);
    if x != y then x > y
    else if Rank(a.precision) != Rank(b.precision) then Rank(a.precision) > Rank(b.precision)
    else if a.source.evidenceGeneration != b.source.evidenceGeneration then
      a.source.evidenceGeneration > b.source.evidenceGeneration
    else if a.source.publisher.id != b.source.publisher.id then a.source.publisher.id < b.source.publisher.id
    else a.source.observationSequence > b.source.observationSequence
  }

  /** The first most preferred candidate. */
  function Winner(cs: seq<Stored>): (w: nat)
    requires cs != []
    ensures w < |cs|
  {
    if |cs| == 1 then 0
    else
      var w := Winner(cs[..|cs| - 1]);
      if Precedes(cs[|cs| - 1].record, cs[w].record) then |cs| - 1 else w
  }

  datatype Contradiction =
    | Consistent | PreferredLiveEvidence | PreferredHigherAuthoritySource | Ambiguous | NeedsRevalidation

  predicate AllAgree(cs: seq<Stored>) {
    forall i :: 0 <= i < |cs| ==> AssertionOf(cs[i].record) == AssertionOf(cs[0].record)
  }

  /** The candidates of the winner's authority. */
  predicate TopAgree(cs: seq<Stored>, w: Stored) {
    forall i, j :: 0 <= i < |cs| && 0 <= j < |cs|
      && Authority(cs[i].record.source.sourceClass) == Authority(w.record.source.sourceClass)
      && Authority(cs[j].record.source.sourceClass) == Authority(w.record.source.sourceClass)
      ==> AssertionOf(cs[i].record) == AssertionOf(cs[j].record)
  }

  /** Some candidate observed on real hardware contradicts the winner. */
  predicate RealDissent(cs: seq<Stored>, w: Stored) {
    exists i :: 0 <= i < |cs| && AssertionOf(cs[i].record) != AssertionOf(w.record) && IsReal(cs[i].record.source.provenance)
  }

  function Classify(cs: seq<Stored>): Contradiction
    requires cs != []
  {
    var w := cs[Winner(cs)];
    if AllAgree(cs) then Consistent
    else if !TopAgree(cs, w) then Ambiguous
    else if IsReal(w.record.source.provenance) && !RealDissent(cs, w) then PreferredLiveEvidence
    else PreferredHigherAuthoritySource
  }

  /** The newest retained claim of a key without current evidence: by capability generation, then serial. */
  function Newest(records: seq<Stored>): Option<Stored> {
    if records == [] then None
    else
      var front, last := Newest(records[..|records| - 1]), records[|records| - 1];
      if last.record.withdrawn then front
      else if front == None || last.record.capabilityGeneration > front.value.record.capabilityGeneration
           || (last.record.capabilityGeneration == front.value.record.capabilityGeneration && last.serial > front.value.serial)
      then Some(last)
      else front
  }

  // ---- quirks ---------------------------------------------------------------------------------

  datatype Application = Application(id: nat, severity: Q.Severity, verdict: Q.Verdict)

  function Judge(q: Quirk, device: nat, d: Device, facts: C.Facts): Application {
    Application(q.id, q.severity, Q.Applicable(q.applicability, device, d.hardware, d.software, facts))
  }

  predicate Gathered(q: Quirk, device: nat, d: Device, capability: nat, facts: C.Facts) {
    !q.withdrawn && capability in q.impacted && Judge(q, device, d, facts).verdict != Q.DoesNotApply
  }

  /** The applicable and undetermined quirks among `ids`, up to the query bound; `n` have been gathered already. */
  function Gather(s: State, ids: seq<nat>, n: nat, device: nat, d: Device, capability: nat, facts: C.Facts): seq<Application>
    requires forall i :: 0 <= i < |ids| ==> ids[i] in s.quirks
  {
    if ids == [] then []
    else
      var q := s.quirks[ids[0]];
      if !Gathered(q, device, d, capability, facts) then Gather(s, ids[1..], n, device, d, capability, facts)
      else if n + 1 >= s.config.limits.maxQueryResults then [Judge(q, device, d, facts)]
      else [Judge(q, device, d, facts)] + Gather(s, ids[1..], n + 1, device, d, capability, facts)
  }

  ghost predicate IsEnumeration(ids: seq<nat>, m: set<nat>) {
    && (forall i :: 0 <= i < |ids| ==> ids[i] in m)
    && (forall x :: x in m ==> x in ids)
    && (forall i, j :: 0 <= i < j < |ids| ==> ids[i] != ids[j])
  }

  datatype EffectiveSupport =
    | Supported | SupportedConditionalUnmet | SupportedConditionalUnknown | SupportedWithCaveat | BlockedByQuirk
    | EffectivelyDisabled | EffectivelyUnsupported | EffectivelyUnknown | NotCurrent

  predicate Blocks(a: Application) {
    a.verdict == Q.Applies && (a.severity == Q.Unusable || a.severity == Q.Fatal)
  }

  predicate Caveats(a: Application) {
    a.verdict == Q.Applies && (a.severity == Q.Caveat || a.severity == Q.Degraded)
  }

  function Effective(declared: Support, outcome: C.Outcome, quirks: seq<Application>): EffectiveSupport {
    if declared == Unknown then EffectivelyUnknown
    else if declared == RevalidationRequired then NotCurrent
    else if declared == Unsupported then EffectivelyUnsupported
    else if declared == Disabled then EffectivelyDisabled
    else if outcome == C.Unsatisfied then SupportedConditionalUnmet
    else if outcome == C.Unknown then SupportedConditionalUnknown
    else if exists i :: 0 <= i < |quirks| && Blocks(quirks[i]) then BlockedByQuirk
    else if exists i :: 0 <= i < |quirks| && Caveats(quirks[i]) then SupportedWithCaveat
    else Supported
  }

  /** The answer to a capability query, without evidence views, quirk listing and free text. */
  datatype Resolved = Resolved(
    known: bool, current: bool, declared: Support, value: Value, precision: Precision, conditions: C.Condition,
    outcome: C.Outcome, contradiction: Contradiction, staleness: set<Flag>, effective: EffectiveSupport,
    schema: nat, capabilityGeneration: nat)

  function Unrecorded(): Resolved {
    Resolved(false, false, Unknown, NoValue, UnknownPrecision, C.Null, C.NotApplicable, Consistent, {}, EffectivelyUnknown, 0, 0)
  }

  predicate SomeFlagged(s: State, records: seq<Stored>, d: Device, target: nat, flag: Flag) {
    exists i :: 0 <= i < |records| && HasFlag(s, records[i], d, target, flag)
  }

  function AllFlags(s: State, records: seq<Stored>, d: Device, target: nat): set<Flag> {
    set f: Flag | SomeFlagged(s, records, d, target, f)
  }

  function Target(d: Device, pinned: nat): nat {
    if pinned != 0 then pinned else d.generation
  }

  /** The answer for a known key; `ids` is the order in which the quirks are visited. */
  function ResolveKey(s: State, device: nat, capability: nat, pinned: nat, facts: C.Facts, ids: seq<nat>): Resolved
    requires device in s.devices && (device, capability) in s.keys
    requires forall i :: 0 <= i < |ids| ==> ids[i] in s.quirks
  {
    var d, key := s.devices[device], s.keys[(device, capability)];
    var target := Target(d, pinned);
    var cs := Candidates(s, key.records, d, target);
    if cs == [] then
      var flags := AllFlags(s, key.records, d, target);
      var staleness := if flags == {} then {RequiresRevalidation} else flags;
      match Newest(key.records)
      case None =>
        Resolved(true, false, Unknown, NoValue, UnknownPrecision, C.Null, C.NotApplicable, NeedsRevalidation, staleness,
                 NotCurrent, key.schema, key.generation)
      case Some(newest) =>
        var r := newest.record;
        Resolved(true, false, r.support, r.value, r.precision, r.conditions, C.Evaluate(r.conditions, facts), NeedsRevalidation,
                 staleness, NotCurrent, key.schema, key.generation)
    else
      var r := cs[Winner(cs)].record;
      var outcome := C.Evaluate(r.conditions, facts);
      Resolved(true, target == d.generation, r.support, r.value, r.precision, r.conditions, outcome, Classify(cs), {},
               Effective(r.support, outcome, Gather(s, ids, 0, device, d, capability, facts)), key.schema, key.generation)
  }

  function Resolve(s: State, device: nat, capability: nat, pinned: nat, facts: C.Facts, ids: seq<nat>): Resolved
    requires device in s.devices && forall i :: 0 <= i < |ids| ==> ids[i] in s.quirks
  {
    if (device, capability) in s.keys then ResolveKey(s, device, capability, pinned, facts, ids) else Unrecorded()
  }
}
