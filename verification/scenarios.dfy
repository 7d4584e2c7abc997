// Runs that show what the general results leave open: an answer that rises with
// a harmless quirk, stale evidence that is current again, a superseded claim
// that a restart revives, and sessions that strand authority.
module Scenarios {
  import opened Basics
  import C = Conditions
  import Q = Quirks
  import R = Readability
  import opened Model
  import opened Steps
  import opened Eviction
  import opened Invariants
  import opened Restart
  import opened Recovery
  import opened History
  import opened Safety
  import opened Resolution
  import opened QuirkBound
  import opened Supersession
  import opened Runs
  import opened Coordination

  /** One of most things, and one answer a query. */
  const OneAnswer := Limits(1, 1, 1, 1, 4, 2, 0, 1, 1, 1, C.Limits(3, 2, 1, 13, 1, 1, 1, 1))

  /** Capability 7 under schema 5. */
  const OneCapability := Config(OneAnswer, map[5 := Schema(7, 1)], map[7 := 5])

  lemma OneIsBound()
    ensures Bound(OneCapability)
  {}

  function WithRuntime(id: nat, version: string): Registration { Announced(1, 0, 1).(runtime := Q.Component(id, version)) }

  const Anything := Record(
    1, 1, 1, 7, 5, 0, SupportedNative, Value(1, 1, 1), Exact, Source(StaticCuratedDatabase, CuratedStatic, Sender, 0, 1, 0),
    C.Null, 0, 0, 0, 0, 0, false)

  /** Publisher 1 has registered device 1. */
  ghost predicate OnlyDevice(s: State, d: Device, n: nat) {
    Ready(s, OneCapability, n) && NoEvidence(s) && s.nextSerial == 1 && s.quirks == map[] && s.facts == map[] && s.devices == map[1 := d]
  }

  lemma RegistersDevice(r: Registration) returns (run: Run, s: State)
    requires r.device == 1 && ValidRegistration(r) && r.hardware.family == 0
    ensures LeadsTo(run, OneCapability, s) && OnlyDevice(s, NewDevice(r), 1)
    ensures |run.ops| == 2 && |run.states| == 3
  {
    hide Ready, Step, LeadsTo, NewDevice, Noted, NotedPlatform;
    OneIsBound();
    Starts(OneCapability);
    FirstRegistration(OneCapability);
    var register, observe := Register(Identity(1, 0, 0), "a"), Publish(Observation(1, r));
    run, s := Start(OneCapability), Fresh(OneCapability);
    run := GoesOn(run, OneCapability, s, register);
    s := Step(s, register).state;
    assert s.config == OneCapability by { ReadyConfig(s, OneCapability, 0); }
    Observes(s, OneCapability, 0, r);
    run := GoesOn(run, OneCapability, s, observe);
    s := Step(s, observe).state;
  }

  /** The record under which `r` is stored first. */
  function FirstRecord(r: Record, d: Device): Stored { Stored(Bind(r, d).(capabilityGeneration := 1), false, SlotOf(r), 1) }

  ghost predicate OneRecord(s: State, d: Device, n: nat, r: Record) {
    && Ready(s, OneCapability, n) && s.quirks == map[] && s.facts == map[] && s.devices == map[1 := d]
    && s.keys == map[(1, 7) := Key(5, 1, true, [FirstRecord(r, d)])] && s.deviceKeys == map[1 := {7}]
    && s.queue == [Entry((1, 7), 1)] && s.evidenceCount == 1 && s.nextSerial == 2
  }

  /** Any valid claim of capability 7 on device 1 as it was registered. */
  predicate ClaimOn(r: Record) {
    && r.device == 1 && r.capability == 7 && r.schema == 5 && r.deviceGeneration == 1 && r.deviceBoot == 1
    && r.capabilityGeneration == 0 && !r.withdrawn && r.source.publisher == Sender && r.value == Value(1, 1, 1)
    && ValidRecord(OneCapability, r)
  }

  lemma Claims(run: Run, s: State, d: Device, r: Record) returns (longer: Run, t: State)
    requires LeadsTo(run, OneCapability, s) && OnlyDevice(s, d, 1) && ClaimOn(r) && d.generation == 1 && d.boot == 1
    ensures LeadsTo(longer, OneCapability, t) && OneRecord(t, d, 2, r)
    ensures longer.ops == run.ops + [Publish(Claimed(2, r))] && longer.states == run.states + [t]
  {
    hide Ready, Step, LeadsTo, ValidRecord;
    assert s.config == OneCapability by { ReadyConfig(s, OneCapability, 1); }
    assert OneCapability.schemas[5].capability == 7;
    ClaimsFirst(s, OneCapability, 1, r);
    longer := GoesOn(run, OneCapability, s, Publish(Claimed(2, r)));
    t := Step(s, Publish(Claimed(2, r))).state;
  }

  // ---- a harmless quirk that unblocks ----------------------------------------------------------------

  /** Quirk 2 blocks the capability everywhere. */
  const Fatal2 := Harmless(2, 7).(severity := Q.Fatal)

  const Plain1 := NewDevice(Announced(1, 0, 1))

  /** The one record is there, under these quirks. */
  ghost predicate Known7(s: State, n: nat, quirks: map<nat, Quirk>) {
    && Ready(s, OneCapability, n) && s.devices == map[1 := Plain1] && s.quirks == quirks
    && s.keys == map[(1, 7) := Key(5, 1, true, [FirstRecord(Anything, Plain1)])]
  }

  lemma CuratedIsCurrent(s: State, n: nat, quirks: map<nat, Quirk>)
    requires Known7(s, n, quirks)
    ensures var records := s.keys[(1, 7)].records; Candidates(s, records, Plain1, 1) == records
  {
    var records := s.keys[(1, 7)].records;
    assert records[..0] == [];
    assert forall f: Flag :: !HasFlag(s, records[0], Plain1, 1, f);
  }

  lemma AnswerOfCurated(s: State, n: nat, quirks: map<nat, Quirk>, ids: seq<nat>)
    requires Known7(s, n, quirks) && forall i :: 0 <= i < |ids| ==> ids[i] in s.quirks
    ensures Resolve(s, 1, 7, 0, map[], ids).effective == AnswerWith(s, ids, 1, Plain1, 7, map[], SupportedNative, C.NotApplicable)
  {
    hide Gather, Classify, Candidates, Effective, Ready;
    CuratedIsCurrent(s, n, quirks);
    assert C.Evaluate(C.Null, map[]) == C.NotApplicable;
  }

  lemma Impacts7(s: State, q: Quirk)
    requires s.config == OneCapability && q.impacted == [7]
    ensures ImpactsKnown(s.config, q)
  {
    assert OneCapability.schemas[5].capability == 7;
  }

  lemma WarnsOf(run: Run, s: State, n: nat, quirks: map<nat, Quirk>, q: Quirk) returns (longer: Run, t: State)
    requires LeadsTo(run, OneCapability, s) && Known7(s, n, quirks) && q.id !in quirks && |quirks| < 2
    requires q.id != 0 && q.generation == 1 && q.impacted == [7] && q.applicability == Anywhere
    ensures LeadsTo(longer, OneCapability, t) && Known7(t, n + 1, quirks[q.id := q])
    ensures longer.ops == run.ops + [Publish(Warned(n + 1, q))] && longer.states == run.states + [t]
  {
    hide Ready, Step, LeadsTo, ImpactsKnown;
    assert s.config == OneCapability by { ReadyConfig(s, OneCapability, n); }
    Impacts7(s, q);
    Warns(s, OneCapability, n, q);
    longer := GoesOn(run, OneCapability, s, Publish(Warned(n + 1, q)));
    t := Step(s, Publish(Warned(n + 1, q))).state;
  }

  lemma BlockedThenNot(s: State, t: State)
    requires Known7(s, 3, map[2 := Fatal2]) && Known7(t, 4, map[2 := Fatal2][1 := Harmless(1, 7)])
    ensures Resolve(s, 1, 7, 0, map[], [2]).effective == BlockedByQuirk
    ensures Resolve(t, 1, 7, 0, map[], [1, 2]).effective == Supported
  {
    hide Q.Applicable, C.Evaluate, Resolve, Known7;
    assert s.quirks == map[2 := Fatal2] && t.quirks == map[2 := Fatal2][1 := Harmless(1, 7)] && s.config == t.config == OneCapability by {
      Known7Parts(s, 3, map[2 := Fatal2]);
      Known7Parts(t, 4, map[2 := Fatal2][1 := Harmless(1, 7)]);
    }
    AppliesAnywhere(1, Plain1, map[]);
    AnswerOfCurated(s, 3, s.quirks, [2]);
    AnswerOfCurated(t, 4, t.quirks, [1, 2]);
    var fatal, harmless := Judge(Fatal2, 1, Plain1, map[]), Judge(Harmless(1, 7), 1, Plain1, map[]);
    assert Gather(s, [2], 0, 1, Plain1, 7, map[]) == [fatal];
    assert Blocks([fatal][0]);
    assert Gather(t, [1, 2], 0, 1, Plain1, 7, map[]) == [harmless];
  }

  lemma Known7Parts(s: State, n: nat, quirks: map<nat, Quirk>)
    requires Known7(s, n, quirks)
    ensures s.quirks == quirks && s.config == OneCapability
  {}

  /** Capability 7 of device 1, with these and no other quirks visited, has this answer. */
  ghost predicate Answers(s: State, ids: seq<nat>, answer: EffectiveSupport) {
    && 1 in s.devices && s.quirks.Keys == (set id | id in ids) && Resolve(s, 1, 7, 0, map[], ids).effective == answer
  }

  /**
   * A run under a query bound of one: a device, a capability, a fatal quirk that blocks it, and then a harmless quirk under a
   * smaller id, with which the answer rises from BLOCKED_BY_QUIRK to SUPPORTED.
   */
  lemma HarmlessQuirkUnblocks() returns (run: Run, s: State, t: State)
    ensures LeadsTo(run, OneCapability, t) && |run.states| == 6 && run.states[4] == s
    ensures |run.ops| == 5 && run.ops[4] == Publish(Warned(4, Harmless(1, 7)))
    ensures Answers(s, [2], BlockedByQuirk) && Answers(t, [1, 2], Supported)
  {
    hide Ready, Step, LeadsTo, NewDevice, ClaimOn, Resolve;
    run, s := RegistersDevice(Announced(1, 0, 1));
    assert ClaimOn(Anything) by { AnythingClaims(); }
    assert Plain1.generation == 1 && Plain1.boot == 1 by { NewIsFirst(Announced(1, 0, 1)); }
    run, s := Claims(run, s, Plain1, Anything);
    run, s := WarnsOf(run, s, 2, map[], Fatal2);
    run, t := WarnsOf(run, s, 3, map[2 := Fatal2], Harmless(1, 7));
    BlockedThenNot(s, t);
  }

  lemma NewIsFirst(r: Registration)
    ensures NewDevice(r).generation == 1 && NewDevice(r).boot == 1
  {}

  lemma AnythingClaims()
    ensures ClaimOn(Anything)
  {}

  // ---- stale evidence that is current again -------------------------------------------------------------

  /** Observed by a probe of the hardware. */
  const Probed := Anything.(source := Anything.source.(sourceClass := HardwareProbe, provenance := RealLiveHardware))

  lemma ProbedClaims()
    ensures ClaimOn(Probed)
  {}

  const Runtime1 := NewDevice(WithRuntime(1, "1"))
  const Updated := RefreshDevice(Runtime1, WithRuntime(1, "2"), false)
  const Replaced := RefreshDevice(Updated, WithRuntime(2, "1"), false)

  /** The probed record is there, and the device looks like this now. */
  ghost predicate Probed7(s: State, n: nat, d: Device) {
    && Ready(s, OneCapability, n) && s.devices == map[1 := d]
    && s.keys == map[(1, 7) := Key(5, 1, true, [FirstRecord(Probed, Runtime1)])]
  }

  lemma ObservesAgain(run: Run, s: State, n: nat, d: Device, r: Registration) returns (longer: Run, t: State)
    requires LeadsTo(run, OneCapability, s) && Probed7(s, n, d) && r.device == 1 && ValidRegistration(r)
    ensures LeadsTo(longer, OneCapability, t) && Probed7(t, n + 1, RefreshDevice(d, r, false))
    ensures longer.ops == run.ops + [Publish(Observation(n + 1, r))] && longer.states == run.states + [t]
  {
    hide Ready, Step, LeadsTo, RefreshDevice, NotedPlatform;
    Observes(s, OneCapability, n, r);
    longer := GoesOn(run, OneCapability, s, Publish(Observation(n + 1, r)));
    t := Step(s, Publish(Observation(n + 1, r))).state;
    assert s.devices[1 := RefreshDevice(d, r, false)] == map[1 := RefreshDevice(d, r, false)];
  }

  lemma StaleAt(s: State)
    requires Probed7(s, 3, Updated)
    ensures Staleness(s, FirstRecord(Probed, Runtime1), Updated, 1) == {RuntimeGenerationChanged}
  {
    var st := FirstRecord(Probed, Runtime1);
    forall f: Flag ensures HasFlag(s, st, Updated, 1, f) <==> f == RuntimeGenerationChanged {}
  }

  lemma CurrentAt(s: State)
    requires Probed7(s, 4, Replaced)
    ensures Current(s, FirstRecord(Probed, Runtime1), Replaced, 1)
  {
    var st := FirstRecord(Probed, Runtime1);
    forall f: Flag ensures !HasFlag(s, st, Replaced, 1, f) {}
  }

  /** The one stored record of capability 7 on device 1. */
  ghost predicate Holding(s: State, st: Stored) {
    1 in s.devices && s.devices[1].generation == 1 && (1, 7) in s.keys && s.keys[(1, 7)].records == [st]
  }

  /**
   * A run in which evidence of a live probe goes stale with a new version of the runtime, and is current again once another
   * runtime is named.
   */
  lemma StaleEvidenceReturns() returns (run: Run, s: State, t: State, st: Stored)
    ensures LeadsTo(run, OneCapability, t) && |run.states| == 6 && run.states[4] == s
    ensures |run.ops| == 5 && run.ops[3] == Publish(Observation(3, WithRuntime(1, "2"))) && run.ops[4] == Publish(Observation(4, WithRuntime(2, "1")))
    ensures Holding(s, st) && Staleness(s, st, s.devices[1], 1) == {RuntimeGenerationChanged}
    ensures Holding(t, st) && Current(t, st, t.devices[1], 1)
  {
    hide Ready, Step, LeadsTo, NewDevice, RefreshDevice, ClaimOn, HasFlag;
    run, s := RegistersDevice(WithRuntime(1, "1"));
    assert ClaimOn(Probed) by { ProbedClaims(); }
    assert Runtime1.generation == 1 && Runtime1.boot == 1 by { NewIsFirst(WithRuntime(1, "1")); }
    run, s := Claims(run, s, Runtime1, Probed);
    run, s := ObservesAgain(run, s, 2, Runtime1, WithRuntime(1, "2"));
    run, t := ObservesAgain(run, s, 3, Updated, WithRuntime(2, "1"));
    st := FirstRecord(Probed, Runtime1);
    StaleAt(s);
    CurrentAt(t);
    assert Updated.generation == 1 && Replaced.generation == 1 by { SameGeneration(); }
  }

  lemma SameGeneration()
    ensures Updated.generation == 1 && Replaced.generation == 1
  {}

  // ---- a superseded claim that a restart revives --------------------------------------------------------------

  /** The same publisher thinks again, in other words. */
  const Second := Anything.(support := SupportedExperimental, precision := Curated)

  lemma SecondClaims()
    ensures ClaimOn(Second)
  {}

  const Overruled := FirstRecord(Anything, Plain1).(superseded := true)
  const Overruling := Stored(Bind(Second, Plain1).(capabilityGeneration := 2), false, SlotOf(Second), 2)

  ghost predicate Both7(s: State, n: nat) {
    && Ready(s, OneCapability, n) && s.quirks == map[] && s.facts == map[] && s.devices == map[1 := Plain1]
    && s.keys == map[(1, 7) := Key(5, 2, true, [Overruled, Overruling])]
  }

  lemma CuratedWins(s: State)
    requires OneRecord(s, Plain1, 2, Anything)
    ensures var st := FirstRecord(Anything, Plain1); CurrentWinner(s, [st], Plain1) == Some(st) && Latest([st], SlotOf(Second)) == Some(st)
  {
    var st := FirstRecord(Anything, Plain1);
    assert [st][..0] == [];
    assert forall f: Flag :: !HasFlag(s, st, Plain1, 1, f);
  }

  lemma OtherWords()
    ensures var st := FirstRecord(Anything, Plain1); var bound := Bind(Second, Plain1);
      !SameContent(st.record, bound) && !Repeats(Some(st), bound) && st.slot == SlotOf(Second)
  {}

  lemma SecondIsStored(s: State)
    requires OneRecord(s, Plain1, 2, Anything)
    ensures ApplyCapability(s, Second) == Outcome(Stores(s, Bind(Second, Plain1), 2), Plain(Accepted))
    ensures Stores(s, Bind(Second, Plain1), 2).keys == map[(1, 7) := Key(5, 2, true, [Overruled, Overruling])]
  {
    hide Admit, CurrentWinner, Latest, Repeats, SameContent, Total, Ready;
    assert s.config == OneCapability by { ReadyConfig(s, OneCapability, 2); }
    var key := s.keys[(1, 7)];
    OneKey((1, 7), key);
    CuratedWins(s);
    OtherWords();
    AdmitsInRoom(s, Second);
    StoresSecond(s);
  }

  lemma StoresSecond(s: State)
    requires OneRecord(s, Plain1, 2, Anything)
    ensures Stores(s, Bind(Second, Plain1), 2).keys == map[(1, 7) := Key(5, 2, true, [Overruled, Overruling])]
  {
    hide Ready;
    var bound := Bind(Second, Plain1);
    var record := bound.(capabilityGeneration := 2);
    var raised := Raise(s.keys[(1, 7)], 2);
    assert raised == Key(5, 2, true, [FirstRecord(Anything, Plain1)]) && IdOf(record) == (1, 7) && SlotOf(record) == SlotOf(Second);
    assert FirstRecord(Anything, Plain1).slot == SlotOf(record);
    assert Supersede(raised.records, SlotOf(record)) == [Overruled];
    assert Append(raised, record, 2).records == [Overruled, Overruling];
  }

  lemma ClaimsAgain(run: Run, s: State) returns (longer: Run, t: State)
    requires LeadsTo(run, OneCapability, s) && OneRecord(s, Plain1, 2, Anything)
    ensures LeadsTo(longer, OneCapability, t) && Both7(t, 3)
    ensures longer.ops == run.ops + [Publish(Claimed(3, Second))] && longer.states == run.states + [t]
  {
    hide Ready, Step, LeadsTo, Handle, ValidRecord, ApplyCapability, IsNext, Stores, FirstRecord;
    SecondClaims();
    ClaimIsNext(OneCapability, 2, Second);
    var open := Publishes(s, OneCapability, 2, Claimed(3, Second));
    ClaimIsHandled(open, 3, Second);
    SecondIsStored(open);
    CapabilityTouchesOnlyKeys(open, Second);
    longer := GoesOn(run, OneCapability, s, Publish(Claimed(3, Second)));
    t := Step(s, Publish(Claimed(3, Second))).state;
  }

  const Written7 := [Overruled.record, Overruling.record]

  lemma BothAreWritten(s: State, n: nat)
    requires Both7(s, n)
    ensures multiset(Written7) == AllRecords(s.keys) && HistorySorted(Written7) && Of(Written7, (1, 7)) == Written7
    ensures Restartable(s)
  {
    OneKey((1, 7), s.keys[(1, 7)]);
    assert BareRecords([Overruled, Overruling]) == Written7;
    assert Written7[..1] == [Overruled.record] && Written7[..1][..0] == [];
    assert Of(Written7[..1], (1, 7)) == [Overruled.record];
    assert Families(s.devices) == {};
  }

  lemma NeitherIsOverruled()
    ensures !OverruledAt(Written7, 0) && !OverruledAt(Written7, 1)
  {
    assert ImportSlot(Written7[0]).precision != ImportSlot(Written7[1]).precision;
  }

  /** What is loaded then. */
  lemma LoadsBoth(run: Run, s: State) returns (d: Durable, loaded: State)
    requires LeadsTo(run, OneCapability, s) && Both7(s, 3)
    ensures IsExport(s, d) && Import(Fresh(OneCapability), d) == Load(loaded, true) && s.config == OneCapability
    ensures loaded.devices == s.devices && FlaggedAs(RecordsAt(loaded.keys, (1, 7)), Written7)
  {
    hide LeadsTo, Import, IsExport, Inv, Bound, Both7, FlaggedAs, Restartable, ExportWith, Recovers;
    assert Inv(s) && Bound(s.config) && s.config == OneCapability by { LedToInv(run, s); }
    assert Ready(s, OneCapability, 3) by { BothParts(s, 3); }
    assert 1 in s.publishers.Keys by { ReadyHasOne(s, OneCapability, 3); }
    BothAreWritten(s, 3);
    Exports(s, OneCapability, 3, Written7);
    d := ExportWith(s, Written7);
    var f := Fresh(OneCapability);
    ImportOfExport(s, f, d);
    SupersededAfterImport(f, d, (1, 7));
    assert d.history == Written7 by { WrittenHistory(s); }
    loaded := Import(f, d).state;
    assert loaded.devices == s.devices by { RecoversDevices(s, f, loaded); }
  }

  /** The clean start over what is known then. */
  lemma StartsAgain(run: Run, s: State) returns (longer: Run, t: State)
    requires LeadsTo(run, OneCapability, s) && Both7(s, 3)
    ensures LeadsTo(longer, OneCapability, t) && t.devices == s.devices && FlaggedAs(RecordsAt(t.keys, (1, 7)), Written7)
    ensures |longer.ops| == |run.ops| + 3 && longer.ops[..|run.ops|] == run.ops
    ensures longer.ops[|run.ops|].RestartFrom? && longer.ops[|run.ops| + 1] == NewEpoch && longer.ops[|run.ops| + 2] == Reset
    ensures |longer.states| == |run.states| + 3 && longer.states[..|run.states|] == run.states
  {
    hide LeadsTo, Import, IsExport, Both7, FlaggedAs, Fresh;
    var d, loaded := LoadsBoth(run, s);
    longer := GoesOn(run, OneCapability, s, RestartFrom(d));
    longer := GoesOn(longer, OneCapability, loaded, NewEpoch);
    longer := GoesOn(longer, OneCapability, AdvanceEpoch(loaded), Reset);
    t := ResetLiveness(AdvanceEpoch(loaded));
  }

  lemma LedToInv(run: Run, s: State)
    requires LeadsTo(run, OneCapability, s)
    ensures Inv(s) && Bound(s.config) && s.config == OneCapability
  {
    hide Inv, Bound, StepAt;
    LeadsFrom(run, OneCapability, s);
    RunKeeps(run, |run.states| - 1);
  }

  lemma BothParts(s: State, n: nat)
    requires Both7(s, n)
    ensures Ready(s, OneCapability, n)
  {
    hide Ready;
  }

  lemma WrittenHistory(s: State)
    requires 1 in s.publishers
    ensures ExportWith(s, Written7).history == Written7
  {}

  lemma RecoversDevices(s: State, f: State, t: State)
    requires Recovers(s, f, t)
    ensures t.devices == s.devices
  {
    hide BareRecords, Recovered;
  }

  lemma RevivedIsCurrent(t: State, st: Stored)
    requires t.devices == map[1 := Plain1] && st.record == Overruled.record && !st.superseded
    ensures Current(t, st, Plain1, 1)
  {
    forall f: Flag ensures !HasFlag(t, st, Plain1, 1, f) {}
  }

  /**
   * A run in which a publisher thinks again about a curated claim, in another precision, and the overruled claim is current
   * again after a clean restart, next to the one that overruled it.
   */
  lemma OverruledClaimReturns() returns (run: Run, s: State, t: State)
    ensures LeadsTo(run, OneCapability, t) && |run.ops| == 7 && |run.states| == 8 && run.states[4] == s && StartsAt(run, 4)
    ensures s.devices == t.devices && 1 in s.devices && |RecordsAt(s.keys, (1, 7))| == 2 && |RecordsAt(t.keys, (1, 7))| == 2
    ensures var before, after := RecordsAt(s.keys, (1, 7)), RecordsAt(t.keys, (1, 7));
      && before[0].record == after[0].record && before[1].record == after[1].record
      && before[0].superseded && !Current(s, before[0], s.devices[1], 1)
      && Current(t, after[0], t.devices[1], 1) && Current(t, after[1], t.devices[1], 1)
  {
    hide Ready, Step, LeadsTo, NewDevice, ClaimOn, HasFlag, Current;
    run, s := RegistersDevice(Announced(1, 0, 1));
    assert ClaimOn(Anything) by { AnythingClaims(); }
    assert Plain1.generation == 1 && Plain1.boot == 1 by { NewIsFirst(Announced(1, 0, 1)); }
    run, s := Claims(run, s, Plain1, Anything);
    run, s := ClaimsAgain(run, s);
    run, t := StartsAgain(run, s);
    var before, after := RecordsAt(s.keys, (1, 7)), RecordsAt(t.keys, (1, 7));
    NeitherIsOverruled();
    SupersededIsStale(s, before[0], s.devices[1]);
    RevivedIsCurrent(t, after[0]);
    OverrulingIsCurrent(t, after[1]);
  }

  lemma OverrulingIsCurrent(t: State, st: Stored)
    requires t.devices == map[1 := Plain1] && st.record == Overruling.record && !st.superseded
    ensures Current(t, st, Plain1, 1)
  {
    forall f: Flag ensures !HasFlag(t, st, Plain1, 1, f) {}
  }

  lemma SupersededIsStale(s: State, st: Stored, d: Device)
    requires st.superseded
    ensures !Current(s, st, d, 1)
  {
    assert HasFlag(s, st, d, 1, SupersededByNewerEvidence);
  }

  // ---- a different claim that is dropped ------------------------------------------------------------------------

  const Worded := Anything.(conditions := R.OneName)
  const Otherwise := Anything.(conditions := R.TwoNames)

  lemma WordedClaims()
    ensures ClaimOn(Worded) && ClaimOn(Otherwise)
  {
    hide C.Accepted;
    R.NamesAreAccepted(OneAnswer.conditions);
  }

  lemma Rewords()
    ensures var st := FirstRecord(Worded, Plain1); var bound := Bind(Otherwise, Plain1);
      Latest([st], SlotOf(bound)) == Some(st) && Repeats(Some(st), bound)
  {
    hide C.Describe;
    R.NamesRenderAlike();
    assert [FirstRecord(Worded, Plain1)][..0] == [];
  }

  lemma OtherwiseIsDropped(s: State)
    requires OneRecord(s, Plain1, 2, Worded)
    ensures ApplyCapability(s, Otherwise) == Outcome(s, Plain(AcceptedIdempotent))
  {
    hide Latest, Repeats, Ready, C.Describe, FirstRecord, MakeRoom, CurrentWinner;
    assert s.config == OneCapability by { ReadyConfig(s, OneCapability, 2); }
    Rewords();
  }

  lemma Drops(run: Run, s: State) returns (longer: Run, t: State)
    requires LeadsTo(run, OneCapability, s) && OneRecord(s, Plain1, 2, Worded)
    ensures LeadsTo(longer, OneCapability, t) && t.keys == s.keys
    ensures longer.ops == run.ops + [Publish(Claimed(3, Otherwise))] && longer.states == run.states + [t]
  {
    hide Ready, Step, LeadsTo, ClaimOn, Handle, ApplyCapability, IsNext, FirstRecord, ValidRecord, C.Accepted;
    WordedClaims();
    assert ValidRecord(OneCapability, Otherwise) by { ClaimIsValid(Otherwise); }
    ClaimIsNext(OneCapability, 2, Otherwise);
    var open := Publishes(s, OneCapability, 2, Claimed(3, Otherwise));
    ClaimIsHandled(open, 3, Otherwise);
    OtherwiseIsDropped(open);
    longer := GoesOn(run, OneCapability, s, Publish(Claimed(3, Otherwise)));
    t := Step(s, Publish(Claimed(3, Otherwise))).state;
  }

  /** A run in which a claim under other conditions is taken for a repetition, because it is worded alike, and not stored. */
  lemma DifferentClaimIsDropped() returns (run: Run, s: State, t: State, facts: C.Facts)
    ensures LeadsTo(run, OneCapability, t) && |run.states| == 5 && run.states[3] == s
    ensures |run.ops| == 4 && run.ops[2] == Publish(Claimed(2, Worded)) && run.ops[3] == Publish(Claimed(3, Otherwise))
    ensures t.keys == s.keys && C.IsLowered(facts)
    ensures C.Evaluate(Worded.conditions, facts) == C.Satisfied && C.Evaluate(Otherwise.conditions, facts) == C.Unsatisfied
  {
    hide Ready, Step, LeadsTo, NewDevice, ClaimOn, OneRecord, OnlyDevice, C.Evaluate, C.Accepted, C.Describe, C.IsLowered;
    run, s := RegistersDevice(Announced(1, 0, 1));
    WordedClaims();
    assert Plain1.generation == 1 && Plain1.boot == 1 by { NewIsFirst(Announced(1, 0, 1)); }
    run, s := Claims(run, s, Plain1, Worded);
    run, t := Drops(run, s);
    facts := R.RenderingCollides(OneAnswer.conditions);
  }

  lemma ClaimIsValid(r: Record)
    requires ClaimOn(r)
    ensures ValidRecord(OneCapability, r)
  {}

  // ---- frames that strand authority ---------------------------------------------------------------------------

  const Introduction := [Frame(Hello(true), true), Frame(RegisterFrame(Identity(1, 0, 0), "a"), true)]

  const Connecting := Round(false, Some(5), [])
  const Introducing := Round(false, None, [Delivered(5, Introduction)])

  /** Session 5 holds the first boot of publisher 1, and that is all there is. */
  ghost predicate Introduced(w: World, config: Config) {
    && Ready(w.registry, config, 0) && w.sessions == map[5 := Session(true, true, 1, 1)] && !w.stopping
  }

  lemma Connects(config: Config, b: Bounds)
    requires b.maxConnections >= 1
    ensures Iterate(World(Fresh(config), map[], false, []), b, Connecting) == World(Fresh(config), map[5 := NewSession], false, [])
  {
    hide Fresh;
  }

  lemma Introduces(config: Config, w: World) returns (held: World)
    requires MayJoin(config) && w.registry == Fresh(config) && w.sessions == map[5 := NewSession] && !w.stopping
    ensures DispatchFrames(w, 5, Introduction) == Dispatched(held, false) && Introduced(held, config)
  {
    hide Fresh, Ready, RegisterOpen;
    FirstRegistration(config);
    FirstReply(config);
    var greeted := Dispatch(w, 5, Hello(true));
    assert greeted.sessions == map[5 := Session(true, false, 0, 0)];
    held := Dispatch(greeted, 5, Introduction[1].message);
    assert held.sessions == map[5 := Session(true, true, 1, 1)];
    assert Introduction[1..][0] == Introduction[1] && Introduction[1..][1..] == [];
    assert DispatchFrames(greeted, 5, Introduction[1..]) == Dispatched(held, false);
  }

  lemma IntroducesIn(w: World, b: Bounds, held: World)
    requires 5 in w.sessions && b.maxPending >= 2 && DispatchFrames(w, 5, Introduction) == Dispatched(held, false)
    ensures Iterate(w, b, Introducing) == held
  {
    hide DispatchFrames;
    var arrivals := Introducing.arrivals;
    assert arrivals[1..] == [] && DeadIn(arrivals[1..], b) == [];
    assert DeadIn(arrivals, b) == [];
    assert DispatchAll(held, arrivals[1..], b) == held;
  }

  lemma FirstReply(config: Config)
    requires MayJoin(config)
    ensures RegisterOpen(Fresh(config), Identity(1, 0, 0), "a").reply == Reply(Accepted, Identity(1, 1, 1), 0, 0)
  {}

  /** A publication that registers a second publisher. */
  const Newcomer := Envelope(RegisterPublisherKind, 1).(publisher := Identity(2, 1, 1), adapter := "a")

  lemma StrandsAt(w: World, config: Config)
    requires Introduced(w, config) && config.limits.maxPublishers >= 2 && config.limits.maxMetadataBytes >= 1
    ensures StrandsFormerPublisher(w, 5, Identity(2, 0, 0), "a") && StrandsNewPublisher(w, Newcomer)
  {
    var s := w.registry;
    assert |s.publishers| == |s.publishers.Keys|;
    assert 2 !in s.publishers.Keys;
    assert Authoritative(s.publishers, 1, 1);
  }

  /** With room for two publishers, both ways of stranding authority come about in a coordinator that has just started. */
  lemma AuthorityIsStranded(config: Config, b: Bounds) returns (run: LoopRun, w: World)
    requires Bound(config) && config.limits.maxPublishers >= 2 && config.limits.maxMetadataBytes >= 1
    requires b.maxConnections >= 1 && b.maxPending >= 2
    ensures LoopBehaviour(run) && |run.worlds| == 3 && run.worlds[2] == w && 5 in w.sessions
    ensures !AllHeld(Dispatch(w, 5, RegisterFrame(Identity(2, 0, 0), "a")))
    ensures !AllHeld(Dispatch(w, 5, PublicationFrame(Newcomer)))
  {
    hide Iterate, Fresh, RegistryOk, Ready, Dispatch, AllHeld, WorldOk, StrandsFormerPublisher, StrandsNewPublisher;
    var first := World(Fresh(config), map[], false, []);
    var second := Iterate(first, b, Connecting);
    w := Iterate(second, b, Introducing);
    Connects(config, b);
    var held := Introduces(config, second);
    IntroducesIn(second, b, held);
    run := LoopRun(b, [Connecting, Introducing], [first, second, w]);
    FreshIsOk(config);
    assert Orderly(second.sessions[5], Introduction, 1) by { IntroductionIsOrderly(); }
    assert RoundAt(run, 0) && RoundAt(run, 1);
    LoopRunIsOk(run, 2);
    StrandsAt(w, config);
    AuthorityStaysHeldIff(w, 5, RegisterFrame(Identity(2, 0, 0), "a"));
    AuthorityStaysHeldIff(w, 5, PublicationFrame(Newcomer));
  }

  lemma IntroductionIsOrderly()
    ensures Orderly(NewSession, Introduction, 1)
  {}

  lemma FreshIsOk(config: Config)
    requires Bound(config)
    ensures RegistryOk(Fresh(config)) && forall id: nat, boot: nat :: !Authoritative(Fresh(config).publishers, id, boot)
  {
    hide Inv, Bound;
    FreshIsInv(config);
  }
}
