// Building runs: a publisher that registers and publishes, an operation at a
// time, and an export of what is known then.
module Runs {
  import opened Basics
  import C = Conditions
  import Q = Quirks
  import V = Versions
  import opened Model
  import opened Steps
  import opened Eviction
  import opened Invariants
  import opened Restart
  import opened Recovery
  import opened History

  // ---- a run goes on --------------------------------------------------------------------------

  function Start(config: Config): Run { Run([], [], [Fresh(config)]) }

  function Last(run: Run): State
    requires run.states != []
  {
    run.states[|run.states| - 1]
  }

  /** A run from the fresh registry that has led to this state. */
  ghost predicate LeadsTo(run: Run, config: Config, s: State) {
    Behaviour(run) && run.states[0] == Fresh(config) && Last(run) == s
  }

  lemma Starts(config: Config)
    requires Bound(config)
    ensures LeadsTo(Start(config), config, Fresh(config))
  {
    hide Bound;
  }

  lemma GoesOn(run: Run, config: Config, s: State, op: Op) returns (longer: Run)
    requires LeadsTo(run, config, s) && Allowed(s, op)
    ensures LeadsTo(longer, config, Step(s, op).state)
    ensures longer.ops == run.ops + [op] && longer.states == run.states + [Step(s, op).state]
    ensures longer.replies == run.replies + [Step(s, op).reply]
  {
    hide Step, Allowed, Bound, Fresh;
    var o := Step(s, op);
    longer := Run(run.ops + [op], run.replies + [o.reply], run.states + [o.state]);
    forall i: nat | i < |longer.ops| ensures StepAt(longer, i) {
      if i < |run.ops| { assert StepAt(run, i); }
    }
  }

  lemma LeadsFrom(run: Run, config: Config, s: State)
    requires LeadsTo(run, config, s)
    ensures Behaviour(run) && run.states[0].config == config && Last(run) == s
    ensures |run.replies| == |run.ops| && |run.states| == |run.ops| + 1
  {
    hide StepAt, Bound;
  }

  // ---- one publisher ----------------------------------------------------------------------------

  const Sender := Identity(1, 1, 1)

  /** Publisher 1 is alive under its first boot, and the first `n` sequence numbers are used. */
  ghost predicate Ready(s: State, config: Config, n: nat) {
    && s.config == config && !s.shuttingDown && s.epoch == 1
    && s.publishers.Keys == {1} && s.publishers[1].boot == 1 && s.publishers[1].state == Registered
    && !s.publishers[1].fenced && s.publishers[1].fencedBoots == {} && WatermarkOf(s.publishers[1], 1) == Watermark(n, 0)
  }

  /** The same but for the publishers. */
  ghost predicate Alike(s: State, t: State) { t == s.(publishers := t.publishers) }

  /** A publisher can register at all. */
  predicate MayJoin(config: Config) { config.limits.maxPublishers >= 1 && config.limits.maxMetadataBytes >= 1 }

  lemma FirstRegistration(config: Config)
    requires MayJoin(config)
    ensures var t := Step(Fresh(config), Register(Identity(1, 0, 0), "a")).state;
      Ready(t, config, 0) && Alike(Fresh(config), t)
  {}

  const NoSoftware := Q.Software(Q.Component(0, ""), 0, Q.Firmware(0, "", ""), 0, Q.Component(0, ""), 0)

  const NoDevice := Registration(0, 0, 0, 0, Q.Hardware(0, 0, 0, 0, ""), Q.Component(0, ""), Q.Firmware(0, "", ""), Q.Component(0, ""), false)

  const NoSource := Source(Unspecified, UnknownSource, Sender, 0, 0, 0)

  const NoRecord := Record(
    0, 0, 0, 0, 0, 0, Support.Unknown, NoValue, UnknownPrecision, NoSource, C.Null, 0, 0, 0, 0, 0, false)

  const NoQuirk := Quirk(0, 0, 0, 0, Q.Informational, Q.Applicability([], [], [], [], [], [], [], [], [], [], C.Null), [], false)

  const NoReference := Reference(VendorReference, 0, "")

  const NoFact := Fact(
    0, 0, NoReference, NoReference, Compatible, C.Null, V.Range(V.Invalid, V.Invalid, false), "", NoSource, false)

  function Envelope(kind: Kind, sequence: nat): Publication {
    Publication(kind, Sender, sequence, 0, "", true, 0, NoDevice, NoRecord, NoQuirk, NoFact)
  }

  /** A device of vendor 1, by its family and model. */
  function Announced(device: nat, family: nat, model: nat): Registration {
    NoDevice.(device := device, incarnation := 1, hardware := Q.Hardware(1, family, model, 0, ""))
  }

  function Observation(sequence: nat, r: Registration): Publication { Envelope(RegisterDevice, sequence).(device := r) }

  function Claimed(sequence: nat, r: Record): Publication { Envelope(PublishCapability, sequence).(capability := r) }

  function Warned(sequence: nat, q: Quirk): Publication { Envelope(PublishQuirk, sequence).(quirk := q) }

  function Related(sequence: nat, f: Fact): Publication { Envelope(PublishCompatibility, sequence).(compatibility := f) }

  /** The next publication of the publisher, complete with sender and schema. */
  predicate IsNext(config: Config, pub: Publication, n: nat) {
    && pub.kind != RegisterPublisherKind && pub.publisher == Sender && pub.sequence == n + 1 && pub.evidenceGeneration == 0
    && Attribute(config, pub) == pub && !Unbound(config, pub) && Validated(config, pub)
  }

  lemma PassesChecks(s: State, config: Config, n: nat, pub: Publication)
    requires Ready(s, config, n) && IsNext(config, pub, n)
    ensures Step(s, Publish(pub)) == Sequenced(s, pub)
  {
    hide Sequenced, Validated, Attribute, Unbound;
  }

  lemma OpensReady(s: State, config: Config, n: nat, pub: Publication)
    requires Ready(s, config, n) && IsNext(config, pub, n)
    ensures var open := Opened(s, pub);
      Ready(open, config, n) && Alike(s, open) && SequenceVerdict(open.publishers[1], pub) == None
  {
    hide Validated, Attribute, Unbound;
  }

  lemma AcceptsReady(s: State, t: State, config: Config, n: nat, pub: Publication)
    requires Ready(s, config, n) && pub.publisher == Sender && pub.sequence == n + 1 && pub.evidenceGeneration == 0
    requires t.publishers == s.publishers[1 := RecordAcceptance(s.publishers[1], pub)]
    requires t.config == s.config && t.epoch == s.epoch && t.shuttingDown == s.shuttingDown
    ensures Ready(t, config, n + 1)
  {
    hide TrimFingerprints;
  }

  /** What an accepted publication does: it goes to its handler, and the next one may come. */
  lemma Publishes(s: State, config: Config, n: nat, pub: Publication) returns (open: State)
    requires Ready(s, config, n) && IsNext(config, pub, n)
    ensures Ready(open, config, n) && Alike(s, open)
    ensures IsAccepted(Handle(open, pub).reply.code) ==>
      var t := Step(s, Publish(pub)).state; Ready(t, config, n + 1) && Alike(Handle(open, pub).state, t)
  {
    hide Ready, Handle, Validated, Attribute, Unbound, SequenceVerdict, RecordAcceptance, Step, OpenWatermark;
    ReadyHasOne(s, config, n);
    assert 1 in s.publishers.Keys;
    PassesChecks(s, config, n, pub);
    OpensReady(s, config, n, pub);
    open := Opened(s, pub);
    HandleKeepsPublishers(open, pub);
    if IsAccepted(Handle(open, pub).reply.code) {
      assert open.publishers.Keys == {1} by { ReadyHasOne(open, config, n); }
      AcceptsReady(open, Step(s, Publish(pub)).state, config, n, pub);
    }
  }

  lemma ReadyHasOne(s: State, config: Config, n: nat)
    requires Ready(s, config, n)
    ensures s.publishers.Keys == {1}
  {}

  lemma ObservationIsNext(config: Config, n: nat, r: Registration)
    requires ValidRegistration(r)
    ensures IsNext(config, Observation(n + 1, r), n)
  {
    assert Attribute(config, Observation(n + 1, r)) == Observation(n + 1, r);
  }

  lemma AlikeObservation(s: State, open: State, r: Registration)
    requires Alike(s, open)
    ensures ApplyDevice(s, r, false).reply == ApplyDevice(open, r, false).reply
    ensures Alike(ApplyDevice(s, r, false).state, ApplyDevice(open, r, false).state)
  {
    hide RefreshDevice, NewDevice, Noted, NotedPlatform;
  }

  lemma ObservationIsHandled(s: State, n: nat, r: Registration)
    ensures Handle(s, Observation(n, r)) == ApplyDevice(s, r, false)
  {
    hide ApplyDevice;
  }

  /** What an accepted observation of a device changes. */
  lemma Observes(s: State, config: Config, n: nat, r: Registration)
    requires Ready(s, config, n) && ValidRegistration(r) && IsAccepted(ApplyDevice(s, r, false).reply.code)
    ensures var t := Step(s, Publish(Observation(n + 1, r))).state;
      Ready(t, config, n + 1) && Alike(ApplyDevice(s, r, false).state, t)
  {
    hide Ready, IsNext, ApplyDevice, Step, Handle;
    ObservationIsNext(config, n, r);
    var open := Publishes(s, config, n, Observation(n + 1, r));
    AlikeObservation(s, open, r);
    ObservationIsHandled(open, n + 1, r);
  }

  lemma WarningIsNext(config: Config, n: nat, q: Quirk)
    requires ValidQuirk(config, q)
    ensures IsNext(config, Warned(n + 1, q), n)
  {
    hide ValidQuirk;
    assert Attribute(config, Warned(n + 1, q)) == Warned(n + 1, q);
  }

  lemma WarningIsHandled(s: State, n: nat, q: Quirk)
    ensures Handle(s, Warned(n, q)) == ApplyQuirk(s, q, false)
  {
    hide ApplyQuirk;
  }

  lemma AlikeWarning(s: State, open: State, q: Quirk)
    requires Alike(s, open)
    ensures ApplyQuirk(s, q, false).reply == ApplyQuirk(open, q, false).reply
    ensures Alike(ApplyQuirk(s, q, false).state, ApplyQuirk(open, q, false).state)
  {
    hide ImpactsKnown;
  }

  /** What an accepted quirk changes. */
  lemma Warns(s: State, config: Config, n: nat, q: Quirk)
    requires Ready(s, config, n) && ValidQuirk(config, q) && IsAccepted(ApplyQuirk(s, q, false).reply.code)
    ensures var t := Step(s, Publish(Warned(n + 1, q))).state;
      Ready(t, config, n + 1) && Alike(ApplyQuirk(s, q, false).state, t)
  {
    hide Ready, IsNext, ApplyQuirk, Step, Handle, ValidQuirk;
    WarningIsNext(config, n, q);
    var open := Publishes(s, config, n, Warned(n + 1, q));
    AlikeWarning(s, open, q);
    WarningIsHandled(open, n + 1, q);
  }

  // ---- claims ---------------------------------------------------------------------------------------

  /** There is room for one more record, so nothing is evicted for it. */
  ghost predicate Roomy(s: State, k: KeyId) {
    && s.evidenceCount == Total(s.keys) && s.evidenceCount + 1 < s.config.limits.maxEvidenceHistory
    && |s.queue| + 1 <= s.config.limits.maxEvidenceHistory * 4
    && (forall j :: j in s.keys ==> |s.keys[j].records| <= KeyCap(s.config))
    && k in s.keys && |s.keys[k].records| + 1 <= KeyCap(s.config)
  }

  lemma NothingToEvict(s: State)
    requires s.evidenceCount < s.config.limits.maxEvidenceHistory && |s.queue| <= s.config.limits.maxEvidenceHistory * 4
    requires forall j :: j in s.keys ==> |s.keys[j].records| <= KeyCap(s.config)
    ensures EvictIfNeeded(s) == s
  {
    hide Total;
    assert TrimKeys(s.keys, KeyCap(s.config)) == s.keys;
  }

  /** The key with one more record at the end. */
  ghost function Stores(s: State, r: Record, generation: nat): State
    requires IdOf(r) in s.keys
  {
    Store(s.(keys := s.keys[IdOf(r) := Raise(s.keys[IdOf(r)], generation)]), r.(capabilityGeneration := generation))
  }

  lemma AdmitsInRoom(s: State, r: Record)
    requires r.device in s.devices && IdOf(r) in s.keys && Roomy(s, IdOf(r))
    requires !Repeats(Latest(s.keys[IdOf(r)].records, SlotOf(r)), Bind(r, s.devices[r.device]))
    ensures var d, key := s.devices[r.device], s.keys[IdOf(r)];
      var bound := Bind(r, d);
      Admit(s, r) == Outcome(Stores(s, bound, AssignGeneration(key, CurrentWinner(s, key.records, d), bound)), Plain(Accepted))
  {
    hide Repeats, Latest, CurrentWinner, AssignGeneration, Total, EvictIfNeeded, Supersede;
    var d, key := s.devices[r.device], s.keys[IdOf(r)];
    var bound := Bind(r, d);
    NothingToEvict(Stores(s, bound, AssignGeneration(key, CurrentWinner(s, key.records, d), bound)));
  }

  /** A record that its schema and its device take. */
  predicate Fitting(s: State, r: Record) {
    SchemaRejection(s.config, r) == None && DeviceRejection(s, r) == None && r.capabilityGeneration == 0
  }

  lemma ClaimIsNext(config: Config, n: nat, r: Record)
    requires ValidRecord(config, r) && !r.withdrawn && r.source.publisher == Sender
    ensures IsNext(config, Claimed(n + 1, r), n)
  {
    hide ValidRecord;
    assert r.schema != 0 by { ValidSchema(config, r); }
    assert Attribute(config, Claimed(n + 1, r)) == Claimed(n + 1, r);
  }

  lemma ValidSchema(config: Config, r: Record)
    requires ValidRecord(config, r)
    ensures r.schema != 0
  {}

  lemma ClaimIsHandled(s: State, n: nat, r: Record)
    ensures Handle(s, Claimed(n, r)) == ApplyCapability(s, r)
  {
    hide ApplyCapability;
  }

  /** The state after the first claim of all. */
  ghost function FirstStored(s: State, r: Record): State
    requires r.device in s.devices
  {
    var record := Bind(r, s.devices[r.device]).(capabilityGeneration := 1);
    s.(keys := map[IdOf(r) := Key(r.schema, 1, true, [Stored(record, false, SlotOf(r), s.nextSerial)])],
       deviceKeys := map[r.device := {r.capability}], queue := [Entry(IdOf(r), s.nextSerial)], evidenceCount := 1,
       nextSerial := s.nextSerial + 1)
  }

  predicate NoEvidence(s: State) { s.keys == map[] && s.deviceKeys == map[] && s.queue == [] && s.evidenceCount == 0 }

  predicate RoomForTwo(limits: Limits) {
    limits.maxEvidenceHistory >= 4 && limits.maxEvidencePerCapability >= 1 && limits.maxCapabilitiesPerDevice >= 1
  }

  lemma OneKey(k: KeyId, key: Key)
    ensures Total(map[k := key]) == |key.records|
    ensures AllRecords(map[k := key]) == multiset(BareRecords(key.records))
  {
    var m := map[k := key];
    assert PickKey(m) == k;
    assert m - {k} == map[];
  }

  /** The state with an empty key for the record. */
  ghost function ReadyFor(s: State, r: Record): State {
    s.(keys := map[IdOf(r) := Key(r.schema, 0, false, [])], deviceKeys := map[r.device := {r.capability}])
  }

  lemma KeyIsMade(s: State, r: Record)
    requires NoEvidence(s) && RoomForTwo(s.config.limits)
    ensures EnsureKey(s, r) == (ReadyFor(s, r), None)
  {
    assert OwnedBy(s, r.device) + {r.capability} == {r.capability};
  }

  lemma StoresFirst(s: State, r: Record)
    requires NoEvidence(s) && r.device in s.devices
    ensures var ready := ReadyFor(s, r); var d := s.devices[r.device]; var bound := Bind(r, d);
      && AssignGeneration(ready.keys[IdOf(r)], CurrentWinner(ready, [], d), bound) == 1
      && Stores(ready, bound, 1) == FirstStored(s, r)
  {
    hide EvictIfNeeded;
    var ready := ReadyFor(s, r);
    var bound := Bind(r, s.devices[r.device]);
    assert Supersede([], SlotOf(bound)) == [];
    var record := bound.(capabilityGeneration := 1);
    var raised := Raise(ready.keys[IdOf(r)], 1);
    assert raised == Key(r.schema, 1, true, []) && SlotOf(record) == SlotOf(r);
    assert Append(raised, record, s.nextSerial) == Key(r.schema, 1, true, [Stored(record, false, SlotOf(r), s.nextSerial)]);
    assert Stores(ready, bound, 1).keys == FirstStored(s, r).keys;
  }

  lemma FirstClaimIsStored(s: State, r: Record)
    requires NoEvidence(s) && RoomForTwo(s.config.limits) && Fitting(s, r)
    ensures ApplyCapability(s, r) == Outcome(FirstStored(s, r), Plain(Accepted))
  {
    hide SchemaRejection, Admit, Total, Repeats, EnsureKey, Bind, Stores, AssignGeneration;
    KeyIsMade(s, r);
    var ready := ReadyFor(s, r);
    OneKey(IdOf(r), Key(r.schema, 0, false, []));
    NothingRepeats(Bind(r, s.devices[r.device]));
    AdmitsInRoom(ready, r);
    StoresFirst(s, r);
  }

  lemma NothingRepeats(r: Record)
    ensures !Repeats(None, r)
  {}

  lemma AlikeFirst(s: State, open: State, r: Record)
    requires Alike(s, open) && NoEvidence(s) && Fitting(s, r)
    ensures NoEvidence(open) && Fitting(open, r) && Alike(FirstStored(s, r), FirstStored(open, r))
  {
    hide SchemaRejection;
  }

  lemma ClaimsFirst(s: State, config: Config, n: nat, r: Record)
    requires Ready(s, config, n) && NoEvidence(s) && RoomForTwo(config.limits) && Fitting(s, r)
    requires ValidRecord(config, r) && !r.withdrawn && r.source.publisher == Sender
    ensures var t := Step(s, Publish(Claimed(n + 1, r))).state; Ready(t, config, n + 1) && Alike(FirstStored(s, r), t)
  {
    hide Ready, IsNext, Step, Handle, ValidRecord, ApplyCapability, Fitting, FirstStored;
    ClaimIsNext(config, n, r);
    assert s.config == config by { ReadyConfig(s, config, n); }
    assert r.device in s.devices by { FittingDevice(s, r); }
    var open := Publishes(s, config, n, Claimed(n + 1, r));
    AlikeFirst(s, open, r);
    FirstClaimIsStored(open, r);
    ClaimIsHandled(open, n + 1, r);
  }

  lemma FittingDevice(s: State, r: Record)
    requires Fitting(s, r)
    ensures r.device in s.devices
  {}

  lemma ReadyConfig(s: State, config: Config, n: nat)
    requires Ready(s, config, n)
    ensures s.config == config
  {}

  // ---- what is exported then ------------------------------------------------------------------------

  ghost function ExportWith(s: State, history: seq<Record>): Durable
    requires 1 in s.publishers
  {
    var devices, quirks, facts := Ascending(s.devices.Keys), Ascending(s.quirks.Keys), Ascending(s.facts.Keys);
    Durable(
      s.epoch, Ascending(s.platforms),
      seq(|devices|, i requires 0 <= i < |devices| => Subject(devices[i], s.devices[devices[i]])), history,
      seq(|quirks|, i requires 0 <= i < |quirks| => s.quirks[quirks[i]]),
      seq(|facts|, i requires 0 <= i < |facts| => s.facts[facts[i]]), [MarkOf(1, s.publishers[1])], [])
  }

  lemma SubjectsOf(devices: map<nat, Device>, subjects: seq<Subject>)
    requires var ids := Ascending(devices.Keys);
      |subjects| == |ids| && forall i :: 0 <= i < |ids| ==> subjects[i] == Subject(ids[i], devices[ids[i]])
    ensures SubjectsExported(devices, subjects)
  {
    var ids := Ascending(devices.Keys);
    hide Ascending;
    AscendingIsEnumeration(devices.Keys);
    forall id | id in devices ensures Subject(id, devices[id]) in subjects {
      var i :| 0 <= i < |ids| && ids[i] == id;
      assert subjects[i] == Subject(id, devices[id]);
    }
  }

  lemma QuirksInOrder(quirks: map<nat, Quirk>, written: seq<Quirk>)
    requires forall id :: id in quirks ==> quirks[id].id == id
    requires var ids := Ascending(quirks.Keys); |written| == |ids| && forall i :: 0 <= i < |ids| ==> written[i] == quirks[ids[i]]
    ensures QuirksExported(quirks, written)
  {
    var ids := Ascending(quirks.Keys);
    hide Ascending;
    AscendingIsEnumeration(quirks.Keys);
    forall id | id in quirks ensures quirks[id] in written {
      var i :| 0 <= i < |ids| && ids[i] == id;
      assert written[i] == quirks[id];
    }
  }

  lemma FactsInOrder(facts: map<nat, Fact>, written: seq<Fact>)
    requires forall id :: id in facts ==> facts[id].id == id
    requires var ids := Ascending(facts.Keys); |written| == |ids| && forall i :: 0 <= i < |ids| ==> written[i] == facts[ids[i]]
    ensures FactsExported(facts, written)
  {
    var ids := Ascending(facts.Keys);
    hide Ascending;
    AscendingIsEnumeration(facts.Keys);
    forall id | id in facts ensures facts[id] in written {
      var i :| 0 <= i < |ids| && ids[i] == id;
      assert written[i] == facts[id];
    }
  }

  lemma PlatformsInOrder(platforms: set<nat>)
    ensures PlatformsExported(platforms, Ascending(platforms))
  {
    hide Ascending;
    AscendingIsEnumeration(platforms);
  }

  lemma OneMark(s: State, config: Config, n: nat)
    requires Ready(s, config, n)
    ensures PublishersExported(s.publishers, [MarkOf(1, s.publishers[1])], [])
  {
    assert |s.publishers| == |s.publishers.Keys|;
  }

  lemma FactAndQuirkIds(s: State)
    requires Inv(s)
    ensures forall id :: id in s.quirks ==> s.quirks[id].id == id
    ensures forall id :: id in s.facts ==> s.facts[id].id == id
  {
    hide Inv, ValidQuirk, ImpactsKnown, ValidFact, BothResolve;
    QuirksWere(s);
    FactsWere(s);
  }

  /** What one publisher has brought about can be exported, given its records in order. */
  lemma Exports(s: State, config: Config, n: nat, history: seq<Record>)
    requires Inv(s) && Ready(s, config, n)
    requires multiset(history) == AllRecords(s.keys) && HistorySorted(history)
    ensures 1 in s.publishers && IsExport(s, ExportWith(s, history))
  {
    hide Inv, Ready, Ascending, SubjectsExported, QuirksExported, FactsExported, PlatformsExported, PublishersExported, HistorySorted,
      AllRecords;
    ReadyHasOne(s, config, n);
    assert 1 in s.publishers.Keys;
    FactAndQuirkIds(s);
    var d := ExportWith(s, history);
    SubjectsOf(s.devices, d.subjects);
    QuirksInOrder(s.quirks, d.quirks);
    FactsInOrder(s.facts, d.facts);
    PlatformsInOrder(s.platforms);
    OneMark(s, config, n);
  }
}
