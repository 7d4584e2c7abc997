// When a clean restart is refused (src/registry.cpp:1185-1317, 1603-1616,
// 2556-2571, 2692-2722): a refresh changes the hardware identity of a device but
// not what has been registered, so devices may come to name more families than
// are allowed, and facts may speak of names that no device has any more.
module RestartBound {
  import opened Basics
  import opened Model
  import opened Steps
  import opened Invariants
  import opened Restart
  import opened Recovery
  import opened History
  import opened Runs

  // ---- a run that gives every device a family of its own ----------------------------------

  /** There are the devices 1 to `k`, the first `moved` of them in families of their own. */
  ghost predicate Spread(devices: map<nat, Device>, k: nat, moved: nat) {
    && |devices| == k && (forall id :: id in devices <==> 1 <= id <= k)
    && forall id :: id in devices ==> devices[id].hardware.family == if id <= moved then id else 0
  }

  /** Nothing but devices. */
  predicate OnlyDevices(s: State) { s.keys == map[] && s.quirks == map[] && s.facts == map[] }

  ghost predicate Stage(s: State, config: Config, n: nat, k: nat, moved: nat) {
    Ready(s, config, n) && OnlyDevices(s) && Spread(s.devices, k, moved)
  }

  lemma SpreadArrives(devices: map<nat, Device>, k: nat, d: Device)
    requires Spread(devices, k, k) && d.hardware.family == 0
    ensures Spread(devices[k + 1 := d], k + 1, k)
  {
    assert devices[k + 1 := d].Keys == devices.Keys + {k + 1};
  }

  lemma SpreadMoves(devices: map<nat, Device>, k: nat, d: Device)
    requires Spread(devices, k + 1, k) && d.hardware.family == k + 1
    ensures Spread(devices[k + 1 := d], k + 1, k + 1)
  {
    assert devices[k + 1 := d].Keys == devices.Keys;
  }

  lemma ArrivesAt(s: State, config: Config, n: nat, k: nat)
    requires Stage(s, config, n, k, k) && k < config.limits.maxDevices
    ensures Stage(Step(s, Publish(Observation(n + 1, Announced(k + 1, 0, 1)))).state, config, n + 1, k + 1, k)
  {
    hide Step, Noted, NotedPlatform;
    Observes(s, config, n, Announced(k + 1, 0, 1));
    SpreadArrives(s.devices, k, NewDevice(Announced(k + 1, 0, 1)));
  }

  lemma MovesTo(s: State, config: Config, n: nat, k: nat)
    requires Stage(s, config, n, k + 1, k)
    ensures Stage(Step(s, Publish(Observation(n + 1, Announced(k + 1, k + 1, 1)))).state, config, n + 1, k + 1, k + 1)
  {
    hide Step, Noted, NotedPlatform;
    Observes(s, config, n, Announced(k + 1, k + 1, 1));
    SpreadMoves(s.devices, k, RefreshDevice(s.devices[k + 1], Announced(k + 1, k + 1, 1), false));
  }

  lemma {:induction false} SpreadsOut(config: Config, k: nat) returns (run: Run, s: State)
    requires Bound(config) && MayJoin(config) && k <= config.limits.maxDevices
    ensures LeadsTo(run, config, s) && Stage(s, config, 2 * k, k, k)
    decreases k
  {
    hide Stage, Step, Bound, LeadsTo, Fresh;
    if k == 0 {
      Starts(config);
      FirstRegistration(config);
      run, s := Start(config), Fresh(config);
      var op := Register(Identity(1, 0, 0), "a");
      NothingYet(config, Step(s, op).state);
      run := GoesOn(run, config, s, op);
      s := Step(s, op).state;
    } else {
      run, s := SpreadsOut(config, k - 1);
      var n := 2 * (k - 1);
      var arrives, moves := Publish(Observation(n + 1, Announced(k, 0, 1))), Publish(Observation(n + 2, Announced(k, k, 1)));
      ArrivesAt(s, config, n, k - 1);
      run := GoesOn(run, config, s, arrives);
      s := Step(s, arrives).state;
      MovesTo(s, config, n + 1, k - 1);
      run := GoesOn(run, config, s, moves);
      s := Step(s, moves).state;
    }
  }

  lemma NothingYet(config: Config, s: State)
    requires Ready(s, config, 0) && Alike(Fresh(config), s)
    ensures Stage(s, config, 0, 0, 0)
  {
    hide Ready;
  }

  function UpTo(k: nat): (ids: set<nat>)
    ensures |ids| == k && forall id :: id in ids <==> 1 <= id <= k
  {
    if k == 0 then {} else UpTo(k - 1) + {k}
  }

  lemma FamiliesAt(devices: map<nat, Device>, k: nat)
    requires Spread(devices, k, k)
    ensures |Families(devices)| == k
  {
    forall f ensures f in Families(devices) <==> f in UpTo(k) {
      if f in UpTo(k) { assert NameAlong(devices[f], FamilyAxis) == f; }
    }
    assert Families(devices) == UpTo(k);
  }

  // ---- a run that leaves a fact without its subject ----------------------------------------------

  /** Model 1 goes with vendor 2. */
  const AboutModel := NoFact.(
    id := 1, generation := 1, lhs := Reference(ModelReference, 1, ""), rhs := Reference(VendorReference, 2, ""),
    source := NoSource.(sourceClass := StaticCuratedDatabase, provenance := CuratedStatic))

  lemma FactIsNext(config: Config, n: nat)
    ensures IsNext(config, Related(n + 1, AboutModel), n)
  {
    assert Attribute(config, Related(n + 1, AboutModel)) == Related(n + 1, AboutModel);
    assert ValidFact(config, AboutModel) by { assert !SameReference(AboutModel.lhs, AboutModel.rhs); }
  }

  /** The fact about a model is taken while the model is registered. */
  lemma Relates(s: State, config: Config, n: nat)
    requires Ready(s, config, n) && 1 in s.models && s.facts == map[] && config.limits.maxFacts >= 1
    ensures var t := Step(s, Publish(Related(n + 1, AboutModel))).state;
      Ready(t, config, n + 1) && Alike(s.(facts := map[1 := AboutModel]), t)
  {
    hide Ready, IsNext, Step;
    FactIsNext(config, n);
    assert s.config == config by { ReadyConfig(s, config, n); }
    var open := Publishes(s, config, n, Related(n + 1, AboutModel));
  }

  /** The only fact speaks of model 1, and the only device has become one of model 2. */
  predicate Dangles(s: State) {
    && s.facts == map[1 := AboutModel] && s.keys == map[]
    && s.devices.Keys == {1} && s.devices[1].hardware.model == 2
  }

  lemma DanglesAt(s: State)
    requires Dangles(s)
    ensures !AllResolve(Exported(s), s.facts)
  {
    assert 1 in s.facts && s.facts[1] == AboutModel;
    assert 1 !in Named(s.devices, ModelAxis);
  }

  lemma OneDevice(s: State, config: Config)
    requires Ready(s, config, 0) && Alike(Fresh(config), s) && config.limits.maxDevices >= 1
    ensures var t := Step(s, Publish(Observation(1, Announced(1, 0, 1)))).state;
      && Ready(t, config, 1) && t.facts == map[] && t.keys == map[] && t.devices.Keys == {1} && 1 in t.models
  {
    hide Ready, Step, NotedPlatform;
    ReadyConfig(s, config, 0);
    Observes(s, config, 0, Announced(1, 0, 1));
  }

  lemma OtherModel(s: State, config: Config, n: nat)
    requires Ready(s, config, n) && s.facts == map[1 := AboutModel] && s.keys == map[] && s.devices.Keys == {1}
    ensures var t := Step(s, Publish(Observation(n + 1, Announced(1, 0, 2)))).state; Ready(t, config, n + 1) && Dangles(t)
  {
    hide Ready, Step, NotedPlatform;
    assert 1 in s.devices;
    Observes(s, config, n, Announced(1, 0, 2));
  }

  lemma LosesItsSubject(config: Config) returns (run: Run, s: State)
    requires Bound(config) && MayJoin(config) && config.limits.maxDevices >= 1 && config.limits.maxFacts >= 1
    ensures LeadsTo(run, config, s) && Ready(s, config, 3) && Dangles(s)
  {
    hide Ready, Step, Bound, LeadsTo, Fresh, Dangles;
    Starts(config);
    FirstRegistration(config);
    run, s := Start(config), Fresh(config);
    var register, device, fact, refresh := Register(Identity(1, 0, 0), "a"), Publish(Observation(1, Announced(1, 0, 1))),
      Publish(Related(2, AboutModel)), Publish(Observation(3, Announced(1, 0, 2)));
    run := GoesOn(run, config, s, register);
    s := Step(s, register).state;
    OneDevice(s, config);
    run := GoesOn(run, config, s, device);
    s := Step(s, device).state;
    Relates(s, config, 1);
    run := GoesOn(run, config, s, fact);
    s := Step(s, fact).state;
    OtherModel(s, config, 2);
    run := GoesOn(run, config, s, refresh);
    s := Step(s, refresh).state;
  }

  // ---- no more families than devices --------------------------------------------------------------

  lemma {:induction false} FewerFamilies(devices: map<nat, Device>)
    ensures |Families(devices)| <= |devices|
    decreases |devices|
  {
    if devices != map[] {
      var id :| id in devices;
      var rest := devices - {id};
      FewerFamilies(rest);
      var family := devices[id].hardware.family;
      forall f | f in Families(devices) ensures f in Families(rest) + {family} {
        var other :| other in devices && NameAlong(devices[other], FamilyAxis) == f;
        if other != id { assert other in rest && NameAlong(rest[other], FamilyAxis) == f; }
      }
      SubsetIsSmaller(Families(devices), Families(rest) + {family});
    } else {
      assert Families(devices) == {};
    }
  }

  lemma SubsetIsSmaller(a: set<nat>, b: set<nat>)
    requires a <= b
    ensures |a| <= |b|
  {
    assert b == a + (b - a);
  }

  // ---- registries in which nothing happens ------------------------------------------------------------

  /** Nobody has registered, so nothing is known. */
  predicate Blank(s: State) { s.publishers == map[] && s.devices == map[] && s.facts == map[] }

  lemma BlankStays(s: State, op: Op)
    requires Inv(s) && Bound(s.config) && Allowed(s, op) && Blank(s) && !MayJoin(s.config)
    ensures Blank(Step(s, op).state)
  {
    hide Inv, Bound, IsExport, Import, Sequenced, Validated, Unbound;
    match op {
      case RestartFrom(durable) =>
        ImportOfExport(s, Fresh(s.config), durable);
        NobodyRecovers(s, Fresh(s.config), Import(Fresh(s.config), durable).state);
      case _ =>
    }
  }

  lemma NobodyRecovers(s: State, f: State, t: State)
    requires Recovers(s, f, t) && Blank(s)
    ensures Blank(t)
  {
    hide BareRecords, Recovered;
  }

  /** No device was ever registered, and so no subject at all. */
  predicate Bare(s: State) { Known(s) == Subjects({}, {}, {}, {}, {}) }

  lemma HandleStaysBare(s: State, pub: Publication)
    requires Bare(s) && s.config.limits.maxDevices == 0
    ensures Bare(Handle(s, pub).state)
  {
    hide ApplyCapability, ApplyQuirk, ApplyFact, Noted, NotedPlatform;
    CapabilityTouchesOnlyKeys(s, pub.capability);
    QuirkTouchesOnlyQuirks(s, pub.quirk, false);
    QuirkTouchesOnlyQuirks(s, pub.quirk, true);
    FactTouchesOnlyFacts(s, pub.compatibility, false);
    FactTouchesOnlyFacts(s, pub.compatibility, true);
  }

  lemma SequencedStaysBare(s: State, pub: Publication)
    requires Bare(s) && s.config.limits.maxDevices == 0 && pub.publisher.id in s.publishers
    ensures Bare(Sequenced(s, pub).state)
  {
    hide Handle, SequenceVerdict, RecordAcceptance, OpenWatermark;
    HandleStaysBare(Opened(s, pub), pub);
  }

  lemma PublicationStaysBare(s: State, pub: Publication)
    requires Bare(s) && s.config.limits.maxDevices == 0
    ensures Bare(ApplyPublication(s, pub).state)
  {
    hide Sequenced, Validated, Unbound, SenderRejection;
    var p := Attribute(s.config, pub);
    if SenderRejection(s, p.publisher) == None { SequencedStaysBare(s, p); }
  }

  lemma BareStays(s: State, op: Op)
    requires Inv(s) && Bound(s.config) && Allowed(s, op) && Bare(s) && s.config.limits.maxDevices == 0
    ensures Bare(Step(s, op).state)
  {
    hide Inv, Bound, IsExport, Import, ApplyPublication;
    match op {
      case Publish(pub) => PublicationStaysBare(s, pub);
      case RestartFrom(durable) =>
        ImportOfExport(s, Fresh(s.config), durable);
        BareRecovers(s, Fresh(s.config), Import(Fresh(s.config), durable).state);
      case _ =>
    }
  }

  lemma BareIsExported(s: State)
    requires Bare(s)
    ensures Exported(s) == Known(s)
  {
    assert s.devices.Keys == {};
    assert s.devices == map[];
    NobodyNames(FamilyAxis);
    NobodyNames(ModelAxis);
    NobodyNames(ArchitectureAxis);
  }

  lemma BareRecovers(s: State, f: State, t: State)
    requires Recovers(s, f, t) && Bare(s)
    ensures Bare(t)
  {
    hide BareRecords, Recovered, Exported;
    BareIsExported(s);
  }

  lemma {:induction false} StaysBlank(run: Run, j: nat)
    requires Behaviour(run) && j < |run.states| && !MayJoin(run.states[0].config)
    ensures Blank(run.states[j])
  {
    hide Inv, Bound, Step, Allowed;
    if j > 0 {
      StaysBlank(run, j - 1);
      RunKeeps(run, j - 1);
      assert StepAt(run, j - 1);
      BlankStays(run.states[j - 1], run.ops[j - 1]);
    }
  }

  lemma {:induction false} StaysBare(run: Run, j: nat)
    requires Behaviour(run) && j < |run.states| && run.states[0].config.limits.maxDevices == 0
    ensures Bare(run.states[j])
  {
    hide Inv, Bound, Step, Allowed;
    if j > 0 {
      StaysBare(run, j - 1);
      RunKeeps(run, j - 1);
      assert StepAt(run, j - 1);
      BareStays(run.states[j - 1], run.ops[j - 1]);
    }
  }

  // ---- the exact bounds -------------------------------------------------------------------------------

  /** Whatever happened before, a fresh registry takes over whatever may be exported. */
  ghost predicate AlwaysRestarts(config: Config) {
    forall run: Run, d: Durable :: Behaviour(run) && run.states[0].config == config && IsExport(Last(run), d) ==>
      Import(Fresh(config), d).ok
  }

  /** Some publisher and some device can be registered. */
  predicate CanRegister(config: Config) { MayJoin(config) && config.limits.maxDevices >= 1 }

  lemma InRun(run: Run)
    requires Behaviour(run)
    ensures Last(run).config == run.states[0].config && Inv(Last(run)) && Bound(Last(run).config)
  {
    hide StepAt, Inv, Bound;
    RunKeeps(run, |run.states| - 1);
  }

  /** A run whose clean restart is refused, for lack of families or for a fact that speaks of a model no device has. */
  lemma RestartIsRefused(config: Config) returns (run: Run, s: State, d: Durable)
    requires Bound(config) && CanRegister(config)
    requires config.limits.maxFamilies < config.limits.maxDevices || config.limits.maxFacts >= 1
    ensures LeadsTo(run, config, s) && IsExport(s, d) && !Import(Fresh(config), d).ok
  {
    hide Stage, Bound, StepAt, Inv, IsExport, Import, Families, Ready, Exported, AllResolve, Dangles;
    var k := config.limits.maxFamilies + 1;
    var n: nat;
    if config.limits.maxFamilies < config.limits.maxDevices {
      run, s := SpreadsOut(config, k);
      n := 2 * k;
      StageParts(s, config, n, k);
    } else {
      run, s := LosesItsSubject(config);
      n := 3;
      DanglesAt(s);
      assert s.keys == map[] by { DanglesParts(s); }
    }
    LeadsFrom(run, config, s);
    InRun(run);
    NoHistory();
    Exports(s, config, n, []);
    d := ExportWith(s, []);
    ImportOfExport(s, Fresh(config), d);
  }

  lemma StageParts(s: State, config: Config, n: nat, k: nat)
    requires Stage(s, config, n, k, k)
    ensures Ready(s, config, n) && s.keys == map[] && |Families(s.devices)| == k
  {
    hide Ready, Families;
    FamiliesAt(s.devices, k);
  }

  lemma DanglesParts(s: State)
    requires Dangles(s)
    ensures s.keys == map[]
  {}

  lemma NoHistory()
    ensures multiset([]) == AllRecords(map[]) && HistorySorted([])
  {}

  /** Every export of every run is accepted exactly when nothing can be registered, or no fact and no family is one too many. */
  lemma AlwaysRestartsIff(config: Config)
    requires Bound(config)
    ensures AlwaysRestarts(config) <==>
      CanRegister(config) ==> config.limits.maxDevices <= config.limits.maxFamilies && config.limits.maxFacts == 0
  {
    hide Bound, Inv, IsExport, Import, Families, StepAt, LeadsTo;
    if CanRegister(config) && (config.limits.maxFamilies < config.limits.maxDevices || config.limits.maxFacts >= 1) {
      var run, s, d := RestartIsRefused(config);
      LeadsFrom(run, config, s);
      assert IsExport(Last(run), d);
    } else {
      forall run: Run, d: Durable | Behaviour(run) && run.states[0].config == config && IsExport(Last(run), d)
        ensures Import(Fresh(config), d).ok
      {
        InRun(run);
        AlwaysRestartable(run);
        ImportOfExport(Last(run), Fresh(config), d);
      }
    }
  }

  lemma AlwaysRestartable(run: Run)
    requires Behaviour(run)
    requires var limits := run.states[0].config.limits;
      !CanRegister(run.states[0].config) || (limits.maxDevices <= limits.maxFamilies && limits.maxFacts == 0)
    ensures Restartable(Last(run))
  {
    hide StepAt, Inv, Bound, Families, Exported;
    var s, limits := Last(run), run.states[0].config.limits;
    InRun(run);
    FewerFamilies(s.devices);
    FactsWere(s);
    DevicesFit(s);
    if !MayJoin(run.states[0].config) {
      StaysBlank(run, |run.states| - 1);
    } else if limits.maxDevices == 0 {
      StaysBare(run, |run.states| - 1);
      BareIsExported(s);
    }
  }

  lemma DevicesFit(s: State)
    requires Inv(s)
    ensures |s.devices| <= s.config.limits.maxDevices
  {
    hide PublishersOk, QuirksOk, FactsOk, KnowledgeOk;
  }

  // ---- what does not help -----------------------------------------------------------------------------

  /** Withdrawing a fact does not rid it of its references: a restart is refused after it exactly when it was before. */
  lemma WithdrawingDoesNotHelp(s: State, f: Fact)
    ensures Restartable(ApplyFact(s, f, true).state) <==> Restartable(s)
  {
    hide Families, Named, Resolves, SameReference;
    var t := ApplyFact(s, f, true).state;
    assert Exported(t) == Exported(s);
    if t != s {
      assert t.facts.Keys == s.facts.Keys;
      assert forall id :: id in s.facts ==> BothResolve(Exported(s), t.facts[id]) == BothResolve(Exported(s), s.facts[id]);
    }
  }
}
