// Runs of the registry: every operation, in any order, with restarts in
// between, and what stays true along every run.
module History {
  import opened Basics
  import opened Model
  import opened Steps
  import opened Eviction
  import opened Invariants
  import opened Admission
  import opened Restart
  import opened Recovery

  datatype Op =
    | Register(identity: Identity, adapter: string)
    | Fence(id: nat)
    | Retire(id: nat, boot: nat)
    | Reset
    | Publish(publication: Publication)
    | NewEpoch
    | SetEpoch(epoch: nat)
    | SetShutdown(on: bool)
    | RestartFrom(durable: Durable)

  function RegisterOpen(s: State, identity: Identity, adapter: string): Outcome {
    if s.shuttingDown then Outcome(s, Plain(RejectedShuttingDown)) else RegisterPublisher(s, identity, adapter)
  }

  ghost function Step(s: State, op: Op): Outcome {
    match op
    case Register(identity, adapter) => RegisterOpen(s, identity, adapter)
    case Fence(id) => FencePublisher(s, id)
    case Retire(id, boot) => RetireBoot(s, id, boot)
    case Reset => Outcome(ResetLiveness(s), Plain(Accepted))
    case Publish(publication) => ApplyPublication(s, publication)
    case NewEpoch => Outcome(AdvanceEpoch(s), Plain(Accepted))
    case SetEpoch(epoch) => if epoch <= s.epoch then Outcome(s, Plain(RejectedValidation)) else Outcome(s.(epoch := epoch), Plain(Accepted))
    case SetShutdown(on) => Outcome(s.(shuttingDown := on), Plain(Accepted))
    case RestartFrom(durable) => Outcome(Import(Fresh(s.config), durable).state, Plain(Accepted))
  }

  /** Only assigned boots are retired, and a restart is clean: the exported state, successfully loaded by a fresh registry. */
  ghost predicate Allowed(s: State, op: Op) {
    match op
    case Retire(id, boot) => id in s.publishers ==> boot <= s.publishers[id].boot
    case RestartFrom(durable) => IsExport(s, durable) && Import(Fresh(s.config), durable).ok
    case _ => true
  }

  /** A run: what was done, what was replied, and the states before, between and after. */
  datatype Run = Run(ops: seq<Op>, replies: seq<Reply>, states: seq<State>)

  /** The `i`-th operation was allowed, and led to the reply and the state recorded. */
  ghost predicate StepAt(run: Run, i: nat)
    requires i < |run.ops| && |run.replies| == |run.ops| && |run.states| == |run.ops| + 1
  {
    Allowed(run.states[i], run.ops[i]) && Outcome(run.states[i + 1], run.replies[i]) == Step(run.states[i], run.ops[i])
  }

  /** The runs of a registry that starts fresh. */
  ghost predicate Behaviour(run: Run) {
    && |run.replies| == |run.ops| && |run.states| == |run.ops| + 1
    && run.states[0] == Fresh(run.states[0].config) && Bound(run.states[0].config)
    && forall i: nat :: i < |run.ops| ==> StepAt(run, i)
  }

  /** No restart happens between the two points of the run. */
  predicate SameProcess(run: Run, i: nat, j: nat) {
    i <= j <= |run.ops| && forall k :: i <= k < j ==> !run.ops[k].RestartFrom?
  }

  // ---- publications keep the invariant -----------------------------------------------------------

  /** Storing evidence touches the keys and nothing else. */
  predicate OnlyKeys(s: State, t: State) {
    t == s.(keys := t.keys, deviceKeys := t.deviceKeys, queue := t.queue, evidenceCount := t.evidenceCount, nextSerial := t.nextSerial)
  }

  lemma MakeRoomTouchesOnlyKeys(s: State, r: Record)
    requires IdOf(r) in s.keys
    ensures OnlyKeys(s, MakeRoom(s, r).state)
  {
    hide Drain, TrimKeys, Total, Append, TrimQueue;
  }

  lemma AdmitTouchesOnlyKeys(s: State, r: Record)
    requires r.device in s.devices && IdOf(r) in s.keys
    ensures OnlyKeys(s, Admit(s, r).state)
  {
    hide MakeRoom, CurrentWinner, Latest, Repeats, AssignGeneration, Raise;
    var d, key := s.devices[r.device], s.keys[IdOf(r)];
    var bound := Bind(r, d);
    var generation := AssignGeneration(key, CurrentWinner(s, key.records, d), bound);
    MakeRoomTouchesOnlyKeys(s.(keys := s.keys[IdOf(r) := Raise(key, generation)]), bound.(capabilityGeneration := generation));
  }

  lemma CapabilityTouchesOnlyKeys(s: State, r: Record)
    ensures OnlyKeys(s, ApplyCapability(s, r).state)
  {
    hide SchemaRejection, KeyRejection, Admit, EnsureKey;
    if SchemaRejection(s.config, r) == None && DeviceRejection(s, r) == None {
      EnsureKeepsRest(s, r);
      EnsureHasKey(s, r);
      var (ready, refused) := EnsureKey(s, r);
      if refused == None && KeyRejection(ready.keys[IdOf(r)], r) == None { AdmitTouchesOnlyKeys(ready, r); }
    }
  }

  lemma EnsureHasKey(s: State, r: Record)
    ensures EnsureKey(s, r).1 == None ==> IdOf(r) in EnsureKey(s, r).0.keys
  {}

  lemma DeviceTouchesOnlyDevices(s: State, r: Registration, explicit: bool)
    ensures var t := ApplyDevice(s, r, explicit).state; t == s.(devices := t.devices, platforms := t.platforms, families := t.families, models := t.models, architectures := t.architectures)
  {
    hide RefreshDevice, NewDevice, Noted, NotedPlatform;
  }

  lemma QuirkTouchesOnlyQuirks(s: State, q: Quirk, withdraw: bool)
    ensures var t := ApplyQuirk(s, q, withdraw).state; t == s.(quirks := t.quirks)
  {
    hide ImpactsKnown;
  }

  lemma FactTouchesOnlyFacts(s: State, f: Fact, withdraw: bool)
    ensures var t := ApplyFact(s, f, withdraw).state; t == s.(facts := t.facts)
  {
    hide BothResolve, SameReference;
  }

  lemma HandleKeepsPublishers(s: State, pub: Publication)
    ensures var t := Handle(s, pub).state; t.publishers == s.publishers && t.config == s.config && t.epoch == s.epoch && t.shuttingDown == s.shuttingDown
  {
    hide ApplyCapability, ApplyDevice, ApplyQuirk, ApplyFact;
    CapabilityTouchesOnlyKeys(s, pub.capability);
    DeviceTouchesOnlyDevices(s, pub.device, false);
    DeviceTouchesOnlyDevices(s, pub.device, true);
    QuirkTouchesOnlyQuirks(s, pub.quirk, false);
    QuirkTouchesOnlyQuirks(s, pub.quirk, true);
    FactTouchesOnlyFacts(s, pub.compatibility, false);
    FactTouchesOnlyFacts(s, pub.compatibility, true);
  }

  lemma HandleKeeps(s: State, pub: Publication)
    requires Inv(s) && Validated(s.config, pub) && FromSender(s, pub.capability)
    ensures var t := Handle(s, pub).state; Inv(t) && Grows(s, t)
  {
    hide Inv, Grows, ApplyCapability, ApplyDevice, ApplyQuirk, ApplyFact, FromSender, ValidRecord, ValidQuirk, ValidFact;
    StaysPut(s);
    match pub.kind {
      case RegisterDevice => DeviceKeeps(s, pub.device, false);
      case PublishDeviceGeneration => DeviceKeeps(s, pub.device, true);
      case PublishCapability => CapabilityKeeps(s, pub.capability);
      case WithdrawCapability => CapabilityKeeps(s, pub.capability);
      case PublishQuirk => QuirkKeeps(s, pub.quirk, false);
      case WithdrawQuirk => QuirkKeeps(s, pub.quirk, true);
      case PublishCompatibility => FactKeeps(s, pub.compatibility, false);
      case WithdrawCompatibility => FactKeeps(s, pub.compatibility, true);
      case _ =>
    }
  }

  lemma OpenKeeps(p: Publisher, boot: nat)
    requires PublisherOk(p)
    ensures PublisherOk(OpenWatermark(p, boot)) && PublisherGrows(p, OpenWatermark(p, boot))
  {}

  lemma AcceptanceKeeps(p: Publisher, pub: Publication)
    requires PublisherOk(p) && SequenceVerdict(p, pub) == None
    ensures PublisherOk(RecordAcceptance(p, pub)) && PublisherGrows(p, RecordAcceptance(p, pub))
  {
    hide TrimFingerprints;
  }

  ghost function Opened(s: State, pub: Publication): State
    requires pub.publisher.id in s.publishers
  {
    s.(publishers := s.publishers[pub.publisher.id := OpenWatermark(s.publishers[pub.publisher.id], pub.publisher.boot)])
  }

  lemma OpenedKeeps(s: State, pub: Publication)
    requires Inv(s) && pub.publisher.id in s.publishers
    ensures var t := Opened(s, pub); Inv(t) && Grows(s, t) && PublisherOk(t.publishers[pub.publisher.id])
  {
    hide Inv, Grows, PublisherOk, PublisherGrows, OpenWatermark;
    PublishersWere(s);
    OpenKeeps(s.publishers[pub.publisher.id], pub.publisher.boot);
    PublisherStep(s, Opened(s, pub), pub.publisher.id, OpenWatermark(s.publishers[pub.publisher.id], pub.publisher.boot));
  }

  lemma SequencedKeeps(s: State, pub: Publication)
    requires Inv(s) && SenderRejection(s, pub.publisher) == None && Validated(s.config, pub)
    requires pub.capability.source.publisher == pub.publisher
    ensures var t := Sequenced(s, pub).state; Inv(t) && Grows(s, t)
  {
    hide Inv, Grows, PublisherOk, PublisherGrows, Handle, SequenceVerdict, RecordAcceptance, Validated, WatermarkOf;
    var id := pub.publisher.id;
    OpenedKeeps(s, pub);
    var open := Opened(s, pub);
    if SequenceVerdict(open.publishers[id], pub) == None {
      HandleKeeps(open, pub);
      HandleKeepsPublishers(open, pub);
      var o := Handle(open, pub);
      GrowsTransitive(s, open, o.state);
      if IsAccepted(o.reply.code) {
        AcceptanceKeeps(open.publishers[id], pub);
        PublishersWere(o.state);
        PublisherStep(o.state, Sequenced(s, pub).state, id, RecordAcceptance(open.publishers[id], pub));
        GrowsTransitive(s, o.state, Sequenced(s, pub).state);
      }
    }
  }

  lemma PublicationKeeps(s: State, pub: Publication)
    requires Inv(s)
    ensures var t := ApplyPublication(s, pub).state; Inv(t) && Grows(s, t)
  {
    hide Inv, Grows, Sequenced, Validated, SenderRejection, RegisterPublisher, Unbound;
    StaysPut(s);
    var p := Attribute(s.config, pub);
    RegisterKeeps(s, p.publisher, p.adapter);
    if Validated(s.config, p) && SenderRejection(s, p.publisher) == None {
      SequencedKeeps(s, p);
    }
  }

  // ---- every run keeps the invariant --------------------------------------------------------------

  lemma FreshIsInv(config: Config)
    ensures Inv(Fresh(config))
  {}

  lemma EpochKeeps(s: State, epoch: nat)
    requires Inv(s) && s.epoch < epoch
    ensures var t := s.(epoch := epoch); Inv(t) && Grows(s, t)
  {
    hide KnowledgeOk, KeysGrow, PublishersOk, PublishersGrow, DevicesOk, DevicesGrow, QuirksOk, FactsOk;
    var t := s.(epoch := epoch);
    SamePublishers(s, t);
    SameDevices(s, t);
    SameQuirks(s, t);
    SameFacts(s, t);
    KeysStayOk(s, t);
  }

  lemma ShutdownKeeps(s: State, on: bool)
    requires Inv(s)
    ensures var t := s.(shuttingDown := on); Inv(t) && Grows(s, t)
  {
    hide KnowledgeOk, KeysGrow, PublishersOk, PublishersGrow, DevicesOk, DevicesGrow, QuirksOk, FactsOk;
    var t := s.(shuttingDown := on);
    SamePublishers(s, t);
    SameDevices(s, t);
    SameQuirks(s, t);
    SameFacts(s, t);
    KeysStayOk(s, t);
  }

  /** Every operation keeps the invariant, and all but a restart only let the state grow. */
  lemma StepKeeps(s: State, op: Op)
    requires Inv(s) && Bound(s.config) && Allowed(s, op)
    ensures var t := Step(s, op).state; Inv(t) && t.config == s.config && (!op.RestartFrom? ==> Grows(s, t))
  {
    hide Inv, Grows, RegisterPublisher, FencePublisher, RetireBoot, ResetLiveness, AdvanceEpoch, ApplyPublication, Import, Bound, IsExport, Recovers;
    StaysPut(s);
    match op {
      case Register(identity, adapter) => RegisterKeeps(s, identity, adapter);
      case Fence(id) => FenceKeeps(s, id);
      case Retire(id, boot) => RetireKeeps(s, id, boot);
      case Reset => ResetKeeps(s);
      case Publish(publication) => PublicationKeeps(s, publication);
      case NewEpoch => AdvanceKeeps(s);
      case SetEpoch(epoch) => if s.epoch < epoch { EpochKeeps(s, epoch); }
      case SetShutdown(on) => ShutdownKeeps(s, on);
      case RestartFrom(durable) =>
        ImportOfExport(s, Fresh(s.config), durable);
        RecoversConfig(s, Fresh(s.config), Import(Fresh(s.config), durable).state);
    }
    if !op.RestartFrom? { GrowsConfig(s, Step(s, op).state); }
  }

  lemma RecoversConfig(s: State, f: State, t: State)
    requires Recovers(s, f, t)
    ensures t.config == s.config
  {
    hide BareRecords;
  }

  lemma GrowsConfig(s: State, t: State)
    requires Grows(s, t)
    ensures t.config == s.config
  {
    hide KeysGrow, PublishersGrow, DevicesGrow;
  }

  /** Every state of every run meets the invariant. */
  lemma {:induction false} RunKeeps(run: Run, j: nat)
    requires Behaviour(run) && j < |run.states|
    ensures Inv(run.states[j]) && Bound(run.states[j].config) && run.states[j].config == run.states[0].config
  {
    hide Inv, Grows, Step, Allowed, Bound;
    FreshIsInv(run.states[0].config);
    if j > 0 {
      RunKeeps(run, j - 1);
      assert StepAt(run, j - 1);
      StepKeeps(run.states[j - 1], run.ops[j - 1]);
    }
  }

  /** Between two states of one process the state only grows. */
  lemma {:induction false} RunGrows(run: Run, i: nat, j: nat)
    requires Behaviour(run) && SameProcess(run, i, j)
    ensures Grows(run.states[i], run.states[j])
    decreases j
  {
    hide Inv, Grows, Step, Allowed, Bound;
    RunKeeps(run, i);
    StaysPut(run.states[i]);
    if i < j {
      RunGrows(run, i, j - 1);
      RunKeeps(run, j - 1);
      assert StepAt(run, j - 1);
      StepKeeps(run.states[j - 1], run.ops[j - 1]);
      GrowsTransitive(run.states[i], run.states[j - 1], run.states[j]);
    }
  }
}
