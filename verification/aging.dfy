// When evidence stops being current (src/registry.cpp:320-385, 1185-1317): a
// record accepted at some point of a run is stale later exactly when something
// it was observed under has moved in between.
module Aging {
  import opened Basics
  import C = Conditions
  import Q = Quirks
  import opened Model
  import opened Steps
  import opened Eviction
  import opened Invariants
  import opened Admission
  import opened Restart
  import opened Recovery
  import opened History
  import opened Evidence
  import opened Safety
  import opened Observing

  // ---- the axes of a device along a run --------------------------------------------------

  datatype Axis = NewGeneration | NewBoot | Driver | Firmware | Runtime | Platform

  function GenerationOf(d: Device, axis: Axis): nat {
    match axis
    case NewGeneration => d.generation
    case NewBoot => d.boot
    case Driver => d.software.driverGeneration
    case Firmware => d.software.firmwareGeneration
    case Runtime => d.software.runtimeGeneration
    case Platform => d.platformGeneration
  }

  predicate Moves(d: Device, pub: Publication, axis: Axis) {
    match axis
    case NewGeneration => OpensGeneration(d, pub)
    case NewBoot => OpensGeneration(d, pub)
    case Driver => MovesDriver(d, pub)
    case Firmware => MovesFirmware(d, pub)
    case Runtime => MovesRuntime(d, pub)
    case Platform => MovesPlatform(d, pub)
  }

  /** The step is an accepted observation of the known device that moves this axis. */
  predicate MovesAt(run: Run, m: nat, id: nat, axis: Axis)
    requires m < |run.ops| == |run.replies| && |run.states| == |run.ops| + 1
  {
    Observes(run, m, id) && id in run.states[m].devices && Moves(run.states[m].devices[id], run.ops[m].publication, axis)
  }

  /** Some accepted observation moves the axis between the two points of the run. */
  predicate MovedBetween(run: Run, i: nat, j: nat, id: nat, axis: Axis)
    requires j <= |run.ops| == |run.replies| && |run.states| == |run.ops| + 1
  {
    exists m: nat :: i <= m < j && MovesAt(run, m, id, axis)
  }

  lemma ObservedAsAxis(d: Device, pub: Publication, e: Device, axis: Axis)
    requires ObservedAs(d, pub, e)
    ensures GenerationOf(e, axis) == GenerationOf(d, axis) + if Moves(d, pub, axis) then 1 else 0
  {}

  lemma AxisStep(run: Run, m: nat, id: nat, axis: Axis)
    requires Behaviour(run) && m < |run.ops| && id in run.states[m].devices
    ensures id in run.states[m + 1].devices
    ensures GenerationOf(run.states[m + 1].devices[id], axis) ==
      GenerationOf(run.states[m].devices[id], axis) + if MovesAt(run, m, id, axis) then 1 else 0
  {
    hide StepAt, ObservedAs, Moves, GenerationOf, FirstObservedAs;
    if Observes(run, m, id) {
      ObservationIsExact(run, m, id);
      ObservedAsAxis(run.states[m].devices[id], run.ops[m].publication, run.states[m + 1].devices[id], axis);
    } else {
      OnlyObservationsChange(run, m, id);
    }
  }

  /** An axis of a known device stands still exactly as long as no accepted observation moves it. */
  lemma {:induction false} AxisMovesIff(run: Run, i: nat, j: nat, id: nat, axis: Axis)
    requires Behaviour(run) && i <= j < |run.states| && id in run.states[i].devices
    ensures id in run.states[j].devices
    ensures GenerationOf(run.states[i].devices[id], axis) <= GenerationOf(run.states[j].devices[id], axis)
    ensures GenerationOf(run.states[i].devices[id], axis) != GenerationOf(run.states[j].devices[id], axis) <==>
      MovedBetween(run, i, j, id, axis)
    decreases j
  {
    hide StepAt, GenerationOf, MovesAt;
    if i < j {
      AxisMovesIff(run, i, j - 1, id, axis);
      AxisStep(run, j - 1, id, axis);
      if MovedBetween(run, i, j, id, axis) {
        var m: nat :| i <= m < j && MovesAt(run, m, id, axis);
        if m < j - 1 { assert MovedBetween(run, i, j - 1, id, axis); }
      }
    }
  }

  // ---- the record of an accepted publication ------------------------------------------------

  /** The key of an accepted capability publication, and the slot of its sender. */
  function KeyOf(pub: Publication): KeyId { (pub.capability.device, pub.capability.capability) }

  function SlotFor(pub: Publication): Slot {
    LiveSlot(pub.publisher.id, pub.publisher.boot, pub.capability.source.sourceClass)
  }

  /** What is stored of a publication: under the sender, the schema bound to the capability, and the generations of the device. */
  predicate RecordedAs(config: Config, pub: Publication, d: Device, stored: Record) {
    var r := pub.capability;
    && stored.driverGeneration == d.software.driverGeneration
    && stored.firmwareGeneration == d.software.firmwareGeneration
    && stored.runtimeGeneration == d.software.runtimeGeneration
    && stored.runtimeId == d.software.runtime.id
    && stored.platformGeneration == d.platformGeneration
    && stored.source == Source(r.source.sourceClass, r.source.provenance, pub.publisher, r.source.nativeReference,
                               r.source.observationSequence, r.source.evidenceGeneration)
    && stored.schema == (if r.schema == 0 && r.capability in config.bindings then config.bindings[r.capability] else r.schema)
    && stored.device == r.device && stored.deviceGeneration == r.deviceGeneration == d.generation
    && stored.deviceBoot == r.deviceBoot == d.boot && stored.capability == r.capability
    && stored.support == r.support && stored.value == r.value && stored.precision == r.precision
    && stored.conditions == r.conditions && stored.withdrawn == r.withdrawn
  }

  lemma AttributedAs(s: State, pub: Publication)
    requires IsCapability(pub.kind)
    ensures var r, p := Published(s, pub), pub.capability;
      && r.source == Source(p.source.sourceClass, p.source.provenance, pub.publisher, p.source.nativeReference,
                            p.source.observationSequence, p.source.evidenceGeneration)
      && r.schema == (if p.schema == 0 && p.capability in s.config.bindings then s.config.bindings[p.capability] else p.schema)
      && IdOf(r) == KeyOf(pub) && SlotOf(r) == SlotFor(pub)
      && r.deviceGeneration == p.deviceGeneration && r.deviceBoot == p.deviceBoot
      && r.support == p.support && r.value == p.value && r.precision == p.precision
      && r.conditions == p.conditions && r.withdrawn == p.withdrawn
  {}

  /** An accepted capability publication is stored as published, as the newest record of its sender's slot. */
  lemma PublicationIsRecorded(run: Run, i: nat, st: Stored)
    requires Behaviour(run) && i < |run.ops| && run.replies[i].code == Accepted
    requires run.ops[i].Publish? && IsCapability(run.ops[i].publication.kind)
    requires var pub, t := run.ops[i].publication, run.states[i + 1];
      KeyOf(pub) in t.keys && st in t.keys[KeyOf(pub)].records && st.slot == SlotFor(pub) && !st.superseded
    ensures var pub, t := run.ops[i].publication, run.states[i + 1];
      && pub.capability.device in t.devices && RecordedAs(t.config, pub, t.devices[pub.capability.device], st.record)
      && (pub.kind == WithdrawCapability <==> st.record.withdrawn)
      && Authoritative(t.publishers, pub.publisher.id, pub.publisher.boot) && pub.publisher.epoch == t.epoch
  {
    hide Inv, Bound, Allowed, ApplyPublication, Published, HoldsRecord, StoredAs, DeviceRejection, Authoritative, Ordered;
    var s, t, pub := run.states[i], run.states[i + 1], run.ops[i].publication;
    assert StepAt(run, i);
    RunKeeps(run, i);
    RunKeeps(run, i + 1);
    PublishStep(s, run.ops[i]);
    PublicationLands(s, pub);
    PublishedFacts(s, pub);
    AttributedAs(s, pub);
    var r := Published(s, pub);
    AcceptedDevice(t, r);
    var d := t.devices[r.device];
    var stored :| StoredAs(r, d, stored) && HoldsRecord(t, stored);
    SameKey(r, d, stored);
    var held := HeldRecord(t, stored);
    KnowledgeWas(t);
    KeyIsOrdered(t, KeyOf(pub));
    OlderIsSuperseded(t.keys[KeyOf(pub)].records, SlotFor(pub), st);
    assert st == held;
    StoredIsRecorded(t.config, pub, r, d, stored);
  }

  lemma StoredIsRecorded(config: Config, pub: Publication, r: Record, d: Device, stored: Record)
    requires StoredAs(r, d, stored) && r.deviceGeneration == d.generation && r.deviceBoot == d.boot
    requires r.source == Source(pub.capability.source.sourceClass, pub.capability.source.provenance, pub.publisher,
                                pub.capability.source.nativeReference, pub.capability.source.observationSequence,
                                pub.capability.source.evidenceGeneration)
    requires r.schema == (if pub.capability.schema == 0 && pub.capability.capability in config.bindings
                          then config.bindings[pub.capability.capability] else pub.capability.schema)
    requires IdOf(r) == KeyOf(pub) && r.deviceGeneration == pub.capability.deviceGeneration && r.deviceBoot == pub.capability.deviceBoot
    requires r.support == pub.capability.support && r.value == pub.capability.value && r.precision == pub.capability.precision
    requires r.conditions == pub.capability.conditions && r.withdrawn == pub.capability.withdrawn
    ensures RecordedAs(config, pub, d, stored)
  {}

  // ---- its flags later on --------------------------------------------------------------------

  /** The record came from a live process, or its conditions name the axis. */
  predicate Follows(r: Record, axis: C.Kind) {
    !(r.source.provenance in {CuratedStatic, Imported, Derived}) || C.Mentions(r.conditions, axis)
  }

  predicate IsLive(r: Record) { !(r.source.provenance in {CuratedStatic, Imported, Derived}) }

  /** The flags of a record stored under device `d`, against the later device `e`. */
  lemma FlagsAre(t: State, later: Stored, d: Device, e: Device)
    requires var r := later.record;
      && r.driverGeneration == d.software.driverGeneration && r.firmwareGeneration == d.software.firmwareGeneration
      && r.runtimeGeneration == d.software.runtimeGeneration && r.runtimeId == d.software.runtime.id
      && r.platformGeneration == d.platformGeneration && r.deviceGeneration == d.generation && r.deviceBoot == d.boot
    requires Identified(d) && d.platformGeneration >= 1
    ensures var flags, r := Staleness(t, later, e, e.generation), later.record;
      && (DeviceGenerationSuperseded in flags <==> GenerationOf(d, NewGeneration) != GenerationOf(e, NewGeneration))
      && (DeviceBootChanged in flags <==> GenerationOf(d, NewBoot) != GenerationOf(e, NewBoot))
      && (DriverGenerationChanged in flags <==>
            Follows(r, C.MinDriverVersion) && d.software.driver.id != 0 && GenerationOf(d, Driver) != GenerationOf(e, Driver))
      && (FirmwareGenerationChanged in flags <==>
            Follows(r, C.MinFirmwareVersion) && d.software.firmware.id != 0 && GenerationOf(d, Firmware) != GenerationOf(e, Firmware))
      && (RuntimeGenerationChanged in flags <==>
            && Follows(r, C.MinRuntimeVersion) && d.software.runtime.id != 0 && d.software.runtime.id == e.software.runtime.id
            && GenerationOf(d, Runtime) != GenerationOf(e, Runtime))
      && (PlatformGenerationChanged in flags <==> IsLive(r) && GenerationOf(d, Platform) != GenerationOf(e, Platform))
      && (PublisherFenced in flags <==>
            IsLive(r) && !Authoritative(t.publishers, r.source.publisher.id, r.source.publisher.boot))
      && (EpochSuperseded in flags <==> IsLive(r) && r.source.publisher.epoch != t.epoch)
      && (SupersededByNewerEvidence in flags <==> later.superseded)
      && (Withdrawn in flags <==> r.withdrawn) && RequiresRevalidation !in flags
  {
    hide C.Mentions, Authoritative;
  }

  /** A boot that has been assigned speaks for itself exactly until it is fenced. */
  lemma AuthorityIff(s: State, who: Identity)
    requires Inv(s) && WithinPublisher(s, who)
    ensures Authoritative(s.publishers, who.id, who.boot) <==> !FencedBoot(s, who.id, who.boot)
  {
    hide Inv;
    PublishersWere(s);
  }

  /**
   * The flags of accepted evidence, at every later point of the process, are exactly these: its device opened another
   * generation, a component it was observed under was replaced (of the runtime, while the device has the same one), the device
   * moved to another platform, its publisher's boot was fenced, the epoch advanced, or its source said something newer.
   */
  lemma FlagsTellWhatMoved(run: Run, i: nat, j: nat, st: Stored, later: Stored)
    requires Behaviour(run) && i < j && SameProcess(run, i + 1, j) && run.replies[i].code == Accepted
    requires run.ops[i].Publish? && run.ops[i].publication.kind == PublishCapability
    requires var pub, t := run.ops[i].publication, run.states[i + 1];
      KeyOf(pub) in t.keys && st in t.keys[KeyOf(pub)].records && st.slot == SlotFor(pub) && !st.superseded
    requires var k, t := KeyOf(run.ops[i].publication), run.states[j];
      k in t.keys && later in t.keys[k].records && later.slot == st.slot && later.serial == st.serial
    ensures var pub, id := run.ops[i].publication, run.ops[i].publication.capability.device;
      && id in run.states[i + 1].devices && id in run.states[j].devices
      && RecordedAs(run.states[i + 1].config, pub, run.states[i + 1].devices[id], later.record)
      && var d, e, r := run.states[i + 1].devices[id].software, run.states[j].devices[id], pub.capability;
         var flags := Staleness(run.states[j], later, e, e.generation);
         && (DeviceGenerationSuperseded in flags <==> MovedBetween(run, i + 1, j, id, NewGeneration))
         && (DeviceBootChanged in flags <==> MovedBetween(run, i + 1, j, id, NewGeneration))
         && (DriverGenerationChanged in flags <==>
               Follows(r, C.MinDriverVersion) && d.driver.id != 0 && MovedBetween(run, i + 1, j, id, Driver))
         && (FirmwareGenerationChanged in flags <==>
               Follows(r, C.MinFirmwareVersion) && d.firmware.id != 0 && MovedBetween(run, i + 1, j, id, Firmware))
         && (RuntimeGenerationChanged in flags <==>
               && Follows(r, C.MinRuntimeVersion) && d.runtime.id != 0 && d.runtime.id == e.software.runtime.id
               && MovedBetween(run, i + 1, j, id, Runtime))
         && (PlatformGenerationChanged in flags <==> IsLive(r) && MovedBetween(run, i + 1, j, id, Platform))
         && (PublisherFenced in flags <==> IsLive(r) && FencedBoot(run.states[j], pub.publisher.id, pub.publisher.boot))
         && (EpochSuperseded in flags <==> IsLive(r) && run.states[j].epoch != run.states[i + 1].epoch)
         && (SupersededByNewerEvidence in flags <==> later.superseded)
         && Withdrawn !in flags && RequiresRevalidation !in flags
  {
    hide Inv, Bound, Step, Allowed, StepAt, Staleness, GenerationOf, MovedBetween, Follows, IsLive, Identified, Grows, Authoritative, RecordOk;
    var pub, id, a, t := run.ops[i].publication, run.ops[i].publication.capability.device, run.states[i + 1], run.states[j];
    PublicationIsRecorded(run, i, st);
    RunKeeps(run, i + 1);
    RunKeeps(run, j);
    RunGrows(run, i + 1, j);
    SameStored(a, t, KeyOf(pub), st, later);
    RecordFacts(t, KeyOf(pub), later);
    RecordSentBy(t, KeyOf(pub), later.record);
    AuthorityIff(t, later.record.source.publisher);
    AxisMovesIff(run, i + 1, j, id, NewGeneration);
    forall axis: Axis ensures GenerationOf(a.devices[id], axis) != GenerationOf(t.devices[id], axis) <==> MovedBetween(run, i + 1, j, id, axis) {
      AxisMovesIff(run, i + 1, j, id, axis);
    }
    BootMovesAlong(run, i + 1, j, id);
    RunIdentifies(run, i + 1, id);
    PlatformIsCounted(a, id);
    FlagsAre(t, later, a.devices[id], t.devices[id]);
    SameFollows(later.record, pub.capability, C.MinDriverVersion);
    SameFollows(later.record, pub.capability, C.MinFirmwareVersion);
    SameFollows(later.record, pub.capability, C.MinRuntimeVersion);
  }

  lemma SameFollows(a: Record, b: Record, axis: C.Kind)
    requires a.source.provenance == b.source.provenance && a.conditions == b.conditions
    ensures (Follows(a, axis) <==> Follows(b, axis)) && (IsLive(a) <==> IsLive(b))
  {}

  lemma RecordSentBy(s: State, k: KeyId, r: Record)
    requires RecordOk(s, k, r)
    ensures WithinPublisher(s, r.source.publisher)
  {
    hide ValidRecord, WithinDevice, UnderSchema;
  }

  lemma PlatformIsCounted(s: State, id: nat)
    requires Inv(s) && id in s.devices
    ensures s.devices[id].platformGeneration >= 1
  {
    hide PublishersOk, QuirksOk, FactsOk, KnowledgeOk;
  }

  /** A boot is counted with each boundary. */
  lemma BootMovesAlong(run: Run, i: nat, j: nat, id: nat)
    requires |run.replies| == |run.ops| && |run.states| == |run.ops| + 1 && i <= j <= |run.ops|
    ensures MovedBetween(run, i, j, id, NewBoot) <==> MovedBetween(run, i, j, id, NewGeneration)
  {
    hide Observes, OpensGeneration;
    if MovedBetween(run, i, j, id, NewBoot) {
      var m: nat :| i <= m < j && MovesAt(run, m, id, NewBoot);
      assert MovesAt(run, m, id, NewGeneration);
    }
    if MovedBetween(run, i, j, id, NewGeneration) {
      var m: nat :| i <= m < j && MovesAt(run, m, id, NewGeneration);
      assert MovesAt(run, m, id, NewBoot);
    }
  }
}
