// What an observation of a device does (src/registry.cpp:1185-1317): when a new
// device generation opens, which software generations move, and that nothing
// observed before a boundary is current after it.
module Observing {
  import opened Basics
  import C = Conditions
  import Q = Quirks
  import opened Model
  import opened Steps
  import opened Eviction
  import opened Invariants
  import opened Admission
  import opened Restart
  import opened Recovery
  import opened History
  import opened Safety

  /** The publication is an observation of a device. */
  predicate IsObservation(pub: Publication) { pub.kind == RegisterDevice || pub.kind == PublishDeviceGeneration }

  /** The operation of the run is an observation of this device, and is accepted as a new one. */
  predicate Observes(run: Run, m: nat, id: nat)
    requires m < |run.ops| == |run.replies|
  {
    && run.ops[m].Publish? && IsObservation(run.ops[m].publication) && run.ops[m].publication.device.device == id
    && run.replies[m].code == Accepted
  }

  /** A component has a generation exactly when it is identified. */
  predicate Identified(d: Device) {
    && (d.software.driver.id != 0 <==> d.software.driverGeneration != 0)
    && (d.software.firmware.id != 0 <==> d.software.firmwareGeneration != 0)
    && (d.software.runtime.id != 0 <==> d.software.runtimeGeneration != 0)
  }

  /** The observation opens a new generation of the device. */
  predicate OpensGeneration(d: Device, pub: Publication) {
    pub.device.incarnation != d.incarnation || pub.device.bootObserved || pub.kind == PublishDeviceGeneration
  }

  predicate MovesDriver(d: Device, pub: Publication) {
    pub.device.driver.id != 0 && pub.device.driver != d.software.driver
  }

  predicate MovesFirmware(d: Device, pub: Publication) {
    pub.device.firmware.id != 0 && pub.device.firmware != d.software.firmware
  }

  predicate MovesRuntime(d: Device, pub: Publication) {
    pub.device.runtime.id != 0 && pub.device.runtime != d.software.runtime
  }

  predicate MovesPlatform(d: Device, pub: Publication) { pub.device.platform != d.platform }

  function Next(generation: nat, moves: bool): nat { if moves then generation + 1 else generation }

  /** The known device after the observation, part by part. */
  predicate ObservedAs(d: Device, pub: Publication, e: Device) {
    && e.generation == Next(d.generation, OpensGeneration(d, pub))
    && e.boot == Next(d.boot, OpensGeneration(d, pub))
    && e.platformGeneration == Next(d.platformGeneration, MovesPlatform(d, pub))
    && e.software.driverGeneration == Next(d.software.driverGeneration, MovesDriver(d, pub))
    && e.software.firmwareGeneration == Next(d.software.firmwareGeneration, MovesFirmware(d, pub))
    && e.software.runtimeGeneration == Next(d.software.runtimeGeneration, MovesRuntime(d, pub))
    && e.software.driver == (if pub.device.driver.id != 0 then pub.device.driver else d.software.driver)
    && e.software.firmware == (if pub.device.firmware.id != 0 then pub.device.firmware else d.software.firmware)
    && e.software.runtime == (if pub.device.runtime.id != 0 then pub.device.runtime else d.software.runtime)
    && e.incarnation == d.incarnation && e.platform == pub.device.platform && e.hardware == pub.device.hardware
  }

  /** A device that was not known before. */
  predicate FirstObservedAs(pub: Publication, e: Device) {
    && e.generation == 1 && e.boot == 1 && e.platformGeneration == 1
    && e.software.driver == pub.device.driver && e.software.firmware == pub.device.firmware && e.software.runtime == pub.device.runtime
    && e.software.driverGeneration == (if pub.device.driver.id != 0 then 1 else 0)
    && e.software.firmwareGeneration == (if pub.device.firmware.id != 0 then 1 else 0)
    && e.software.runtimeGeneration == (if pub.device.runtime.id != 0 then 1 else 0)
    && e.incarnation == pub.device.incarnation && e.platform == pub.device.platform && e.hardware == pub.device.hardware
  }

  lemma RefreshIsObserved(d: Device, pub: Publication)
    requires Identified(d)
    ensures var e := RefreshDevice(d, pub.device, pub.kind == PublishDeviceGeneration); ObservedAs(d, pub, e) && Identified(e)
  {}

  lemma NewIsObserved(pub: Publication)
    ensures FirstObservedAs(pub, NewDevice(pub.device)) && Identified(NewDevice(pub.device))
  {}

  /** The incarnation on record stays the first one, so the same observation opens a generation each time it comes or never. */
  lemma RepeatedObservationOpensAgain(d: Device, pub: Publication, e: Device)
    requires ObservedAs(d, pub, e)
    ensures OpensGeneration(e, pub) <==> OpensGeneration(d, pub)
    ensures !MovesDriver(e, pub) && !MovesFirmware(e, pub) && !MovesRuntime(e, pub) && !MovesPlatform(e, pub)
  {}

  // ---- one step ---------------------------------------------------------------------------------

  /** An accepted observation changes the device it is of, and no other. */
  lemma ObservationOfDevice(s: State, r: Registration, explicit: bool)
    ensures var o := ApplyDevice(s, r, explicit);
      && (o.reply.code != Accepted ==> o.state == s)
      && (o.reply.code == Accepted ==>
            && o.state.devices == s.devices[r.device :=
                 if r.device in s.devices then RefreshDevice(s.devices[r.device], r, explicit) else NewDevice(r)]
            && o.reply.deviceGeneration == o.state.devices[r.device].generation && o.reply.deviceBoot == o.state.devices[r.device].boot)
  {
    hide RefreshDevice, Noted, NotedPlatform;
  }

  lemma HandledDevices(s: State, pub: Publication)
    ensures !IsObservation(pub) ==> Handle(s, pub).state.devices == s.devices
  {
    hide ApplyCapability, ApplyDevice, ApplyQuirk, ApplyFact;
    CapabilityTouchesOnlyKeys(s, pub.capability);
    QuirkTouchesOnlyQuirks(s, pub.quirk, false);
    QuirkTouchesOnlyQuirks(s, pub.quirk, true);
    FactTouchesOnlyFacts(s, pub.compatibility, false);
    FactTouchesOnlyFacts(s, pub.compatibility, true);
  }

  /** What a publication does to the devices. */
  ghost predicate DevicesStep(s: State, pub: Publication, o: Outcome) {
    var id := pub.device.device;
    if IsObservation(pub) && o.reply.code == Accepted then
      && id in o.state.devices && o.state.devices == s.devices[id := o.state.devices[id]]
      && (id in s.devices && Identified(s.devices[id]) ==> ObservedAs(s.devices[id], pub, o.state.devices[id]))
      && (id !in s.devices ==> FirstObservedAs(pub, o.state.devices[id]))
      && ((id in s.devices ==> Identified(s.devices[id])) ==> Identified(o.state.devices[id]))
      && o.reply.deviceGeneration == o.state.devices[id].generation && o.reply.deviceBoot == o.state.devices[id].boot
    else o.state.devices == s.devices
  }

  lemma HandledStep(s: State, pub: Publication)
    requires pub.kind != RegisterPublisherKind
    ensures DevicesStep(s, pub, Handle(s, pub))
  {
    hide ApplyCapability, ApplyDevice, ApplyQuirk, ApplyFact, Identified, ObservedAs, FirstObservedAs, RefreshDevice, NewDevice;
    HandledDevices(s, pub);
    var id := pub.device.device;
    ObservationOfDevice(s, pub.device, pub.kind == PublishDeviceGeneration);
    NewIsObserved(pub);
    if id in s.devices && Identified(s.devices[id]) { RefreshIsObserved(s.devices[id], pub); }
  }

  lemma SequencedDevices(s: State, pub: Publication)
    requires pub.publisher.id in s.publishers && pub.kind != RegisterPublisherKind
    ensures DevicesStep(s, pub, Sequenced(s, pub))
  {
    hide Handle, SequenceVerdict, RecordAcceptance, OpenWatermark, Identified, ObservedAs, FirstObservedAs;
    var open := Opened(s, pub);
    VerdictNeverAccepts(open.publishers[pub.publisher.id], pub);
    HandledStep(open, pub);
    if SequenceVerdict(open.publishers[pub.publisher.id], pub) == None {
      assert Sequenced(s, pub).state.devices == Handle(open, pub).state.devices && Sequenced(s, pub).reply == Handle(open, pub).reply;
    }
  }

  lemma VerdictNeverAccepts(p: Publisher, pub: Publication)
    ensures match SequenceVerdict(p, pub) case Some(code) => code != Accepted case None => true
  {
    hide WatermarkOf;
  }

  lemma RegistrationDevices(s: State, identity: Identity, adapter: string)
    ensures RegisterPublisher(s, identity, adapter).state.devices == s.devices
  {}

  lemma SenderNeverAccepts(s: State, who: Identity)
    ensures match SenderRejection(s, who) case Some(code) => code != Accepted case None => who.id in s.publishers
  {}

  lemma PublicationDevices(s: State, pub: Publication)
    ensures DevicesStep(s, pub, ApplyPublication(s, pub))
  {
    hide Sequenced, Validated, Unbound, SenderRejection, RegisterPublisher, Identified, ObservedAs, FirstObservedAs;
    var p := Attribute(s.config, pub);
    RegistrationDevices(s, p.publisher, p.adapter);
    SenderNeverAccepts(s, p.publisher);
    if p.kind != RegisterPublisherKind && SenderRejection(s, p.publisher) == None {
      SequencedDevices(s, p);
      SameObservation(s, p, pub, Sequenced(s, p));
    }
  }

  lemma SameObservation(s: State, p: Publication, pub: Publication, o: Outcome)
    requires DevicesStep(s, p, o) && p.kind == pub.kind && p.device == pub.device
    ensures DevicesStep(s, pub, o)
  {}

  lemma OtherDevices(s: State, op: Op)
    requires Inv(s) && Bound(s.config) && Allowed(s, op) && !op.Publish?
    ensures Step(s, op).state.devices == s.devices
  {
    hide Inv, Bound, Import, IsExport, Recovers, RegisterPublisher, FencePublisher, RetireBoot;
    match op {
      case Register(identity, adapter) => RegistrationDevices(s, identity, adapter);
      case Fence(id) => FenceDevices(s, id);
      case Retire(id, boot) => FenceDevices(s, id); RetireDevices(s, id, boot);
      case RestartFrom(durable) =>
        ImportOfExport(s, Fresh(s.config), durable);
        RecoversDevices(s, Fresh(s.config), Import(Fresh(s.config), durable).state);
      case _ =>
    }
  }

  lemma FenceDevices(s: State, id: nat)
    ensures FencePublisher(s, id).state.devices == s.devices
  {}

  lemma RetireDevices(s: State, id: nat, boot: nat)
    ensures RetireBoot(s, id, boot).state.devices == s.devices
  {}

  lemma RecoversDevices(s: State, f: State, t: State)
    requires Recovers(s, f, t)
    ensures t.devices == s.devices
  {
    hide BareRecords;
  }

  // ---- along a run ---------------------------------------------------------------------------------

  /** In every state of every run the components of a device have a generation exactly when they are identified. */
  lemma {:induction false} RunIdentifies(run: Run, j: nat, id: nat)
    requires Behaviour(run) && j < |run.states| && id in run.states[j].devices
    ensures Identified(run.states[j].devices[id])
  {
    hide Inv, Bound, Step, Allowed, Identified, ObservedAs, FirstObservedAs, ApplyPublication, IsObservation;
    if j > 0 {
      var s, op := run.states[j - 1], run.ops[j - 1];
      RunKeeps(run, j - 1);
      assert StepAt(run, j - 1);
      if id in s.devices { RunIdentifies(run, j - 1, id); }
      if op.Publish? {
        PublicationDevices(s, op.publication);
        PublishStep(s, op);
      } else {
        OtherDevices(s, op);
      }
    }
  }

  lemma PublishStep(s: State, op: Op)
    requires op.Publish?
    ensures Step(s, op) == ApplyPublication(s, op.publication)
  {
    hide ApplyPublication;
  }

  /**
   * An accepted observation of a known device opens a new generation and boot if and only if the incarnation differs, a boot
   * was observed, or a generation is published; moves each software generation if and only if it identifies another
   * component; moves the platform generation if and only if the platform differs; and changes no other device.
   */
  lemma ObservationIsExact(run: Run, m: nat, id: nat)
    requires Behaviour(run) && m < |run.ops| && Observes(run, m, id)
    ensures var pub := run.ops[m].publication;
      && id in run.states[m + 1].devices
      && var e := run.states[m + 1].devices[id];
         && (id in run.states[m].devices ==> ObservedAs(run.states[m].devices[id], pub, e))
         && (id !in run.states[m].devices ==> FirstObservedAs(pub, e))
         && run.states[m + 1].devices == run.states[m].devices[id := e]
         && run.replies[m].deviceGeneration == e.generation && run.replies[m].deviceBoot == e.boot
  {
    hide Inv, Bound, Step, Allowed, Identified, ObservedAs, FirstObservedAs, ApplyPublication;
    assert StepAt(run, m);
    if id in run.states[m].devices { RunIdentifies(run, m, id); }
    PublishStep(run.states[m], run.ops[m]);
    PublicationDevices(run.states[m], run.ops[m].publication);
  }

  /** Nothing else changes a device, a restart included. */
  lemma OnlyObservationsChange(run: Run, m: nat, id: nat)
    requires Behaviour(run) && m < |run.ops| && !Observes(run, m, id) && id in run.states[m].devices
    ensures id in run.states[m + 1].devices && run.states[m + 1].devices[id] == run.states[m].devices[id]
  {
    hide Inv, Bound, Step, Allowed, Identified, ObservedAs, FirstObservedAs, ApplyPublication;
    assert StepAt(run, m);
    RunKeeps(run, m);
    if run.ops[m].Publish? {
      PublishStep(run.states[m], run.ops[m]);
      PublicationDevices(run.states[m], run.ops[m].publication);
    } else {
      OtherDevices(run.states[m], run.ops[m]);
    }
  }

  // ---- registering what is new -------------------------------------------------------------------------

  /** A device that is not known is registered if and only if there is room for it and, when that is new too, for its family. */
  predicate MayBeAdded(s: State, r: Registration) {
    && |s.devices| < s.config.limits.maxDevices
    && (r.hardware.family == 0 || r.hardware.family in s.families || |s.families| < s.config.limits.maxFamilies)
  }

  /**
   * Observations of known devices are always accepted. With a new device its family, model and architecture are registered;
   * with either the platform that is announced, while there is room for it.
   */
  lemma RegisteringIsExact(s: State, r: Registration, explicit: bool)
    ensures var o := ApplyDevice(s, r, explicit);
      && (o.reply.code == Accepted <==> r.device in s.devices || MayBeAdded(s, r))
      && (o.reply.code != Accepted ==> o == Outcome(s, Plain(RejectedLimit)))
      && (o.reply.code == Accepted ==>
            && o.state == s.(devices := o.state.devices, platforms := o.state.platforms, families := o.state.families,
                             models := o.state.models, architectures := o.state.architectures)
            && (forall x :: x in o.state.platforms <==>
                  x in s.platforms || (x == r.announced && x != 0 && |s.platforms| < s.config.limits.maxDevices))
            && var h, added := r.hardware, r.device !in s.devices;
               && (forall x :: x in o.state.families <==> x in s.families || (added && x == h.family && x != 0))
               && (forall x :: x in o.state.models <==> x in s.models || (added && x == h.model && x != 0))
               && (forall x :: x in o.state.architectures <==> x in s.architectures || (added && x == h.architecture && x != 0)))
  {
    hide RefreshDevice, NewDevice;
  }
}
