// What a registry knows after importing the export of another one: the same
// devices, quirks, publishers and evidence, but no live authority.
module Recovery {
  import opened Basics
  import opened Model
  import opened Steps
  import opened Eviction
  import opened Invariants
  import opened Admission
  import opened Restart

  // ---- the history, key by key ---------------------------------------------------------

  /** The records of one key, in the order of the history. */
  function Of(h: seq<Record>, k: KeyId): seq<Record> {
    if h == [] then []
    else
      var front, last := Of(h[..|h| - 1], k), h[|h| - 1];
      if IdOf(last) == k then front + [last] else front
  }

  lemma {:induction false} OfCounts(h: seq<Record>, k: KeyId, r: Record)
    ensures multiset(Of(h, k))[r] == if IdOf(r) == k then multiset(h)[r] else 0
  {
    if h != [] {
      var n := |h| - 1;
      assert h == h[..n] + [h[n]];
      OfCounts(h[..n], k, r);
    }
  }

  lemma {:induction false} OfIn(h: seq<Record>, k: KeyId)
    ensures forall r :: r in Of(h, k) <==> r in h && IdOf(r) == k
  {
    forall r ensures r in Of(h, k) <==> r in h && IdOf(r) == k {
      OfCounts(h, k, r);
      assert r in multiset(h) <==> r in h;
      assert r in multiset(Of(h, k)) <==> r in Of(h, k);
    }
  }

  predicate Placed(keys: map<KeyId, Key>) {
    forall k :: k in keys ==> forall r :: r in BareRecords(keys[k].records) ==> IdOf(r) == k
  }

  lemma {:induction false} AllRecordsCount(keys: map<KeyId, Key>, r: Record)
    requires Placed(keys)
    ensures AllRecords(keys)[r] == multiset(BareRecords(RecordsAt(keys, IdOf(r))))[r]
    decreases |keys|
  {
    hide BareRecords;
    if keys == map[] {
      EmptyBare();
    } else {
      var k := PickKey(keys);
      var rest := keys - {k};
      assert Placed(rest);
      AllRecordsCount(rest, r);
      if k != IdOf(r) {
        assert RecordsAt(rest, IdOf(r)) == RecordsAt(keys, IdOf(r));
        assert r !in BareRecords(keys[k].records);
        assert multiset(BareRecords(keys[k].records))[r] == 0;
      } else {
        EmptyBare();
      }
    }
  }

  lemma EmptyBare()
    ensures BareRecords([]) == []
  {}

  lemma {:induction false} AllRecordsSize(keys: map<KeyId, Key>)
    ensures |AllRecords(keys)| == Total(keys)
    decreases |keys|
  {
    if keys != map[] { AllRecordsSize(keys - {PickKey(keys)}); }
  }

  lemma RecordsPlaced(s: State)
    requires KeysOk(s)
    ensures Placed(s.keys)
  {
    hide KeyOk, WithinDevice, WithinPublisher, UnderSchema, ValidRecord;
    forall k, r | k in s.keys && r in BareRecords(s.keys[k].records) ensures IdOf(r) == k {
      var bare := BareRecords(s.keys[k].records);
      var i :| 0 <= i < |bare| && bare[i] == r;
      assert s.keys[k].records[i] in s.keys[k].records;
      assert RecordOk(s, k, r);
    }
  }

  /** An exported history holds, for each key, exactly the records of that key. */
  lemma HistoryOfKey(s: State, h: seq<Record>, k: KeyId)
    requires KeysOk(s) && multiset(h) == AllRecords(s.keys)
    ensures multiset(Of(h, k)) == multiset(BareRecords(RecordsAt(s.keys, k)))
  {
    hide KeysOk, BareRecords, Of;
    RecordsPlaced(s);
    forall r ensures multiset(Of(h, k))[r] == multiset(BareRecords(RecordsAt(s.keys, k)))[r] {
      OfCounts(h, k, r);
      AllRecordsCount(s.keys, r);
      if IdOf(r) != k {
        EmptyBare();
        assert r !in BareRecords(RecordsAt(s.keys, k));
        assert multiset(BareRecords(RecordsAt(s.keys, k)))[r] == 0;
      }
    }
  }

  /** What the registry guarantees of a record it holds, and so of one it writes. */
  predicate Written(s: State, r: Record) {
    && IdOf(r) in s.keys && RecordOk(s, IdOf(r), r)
    && r.schema == s.keys[IdOf(r)].schema && 1 <= r.capabilityGeneration <= s.keys[IdOf(r)].generation
  }

  lemma HistoryIsWritten(s: State, h: seq<Record>, r: Record)
    requires KeysOk(s) && multiset(h) == AllRecords(s.keys) && r in h
    ensures Written(s, r) && exists st :: st in s.keys[IdOf(r)].records && st.record == r
  {
    hide RecordOk, Of, Ordered, OneClaim;
    var k := IdOf(r);
    HistoryOfKey(s, h, k);
    OfIn(h, k);
    assert r in multiset(Of(h, k));
    var bare := BareRecords(RecordsAt(s.keys, k));
    assert r in bare;
    var i :| 0 <= i < |bare| && bare[i] == r;
    assert s.keys[k].records[i] in s.keys[k].records;
  }

  // ---- staging the history ----------------------------------------------------------------

  /** What has been staged when the records so far are `h`. */
  ghost predicate Staged(s: State, g: Staging, h: seq<Record>, start: nat) {
    && g.ok && g.nextSerial == start + |h|
    && (forall k :: k in g.keys <==> Of(h, k) != [])
    && (forall k :: k in g.keys ==> StagedKey(s, g, Of(h, k), k))
  }

  ghost predicate StagedKey(s: State, g: Staging, rs: seq<Record>, k: KeyId)
    requires k in g.keys && rs != []
  {
    var key := g.keys[k];
    && k in s.keys && key.schema == s.keys[k].schema
    && BareRecords(key.records) == rs && key.generation == rs[|rs| - 1].capabilityGeneration
    && Ordered(key.records)
    && forall st :: st in key.records ==> StoredOk(st, key, g.nextSerial) && st.slot.ImportedSlot?
  }

  lemma StageOneKey(key: Key, r: Record, serial: nat)
    requires Ordered(key.records) && key.schema == r.schema && 1 <= r.capabilityGeneration && key.generation <= r.capabilityGeneration
    requires forall st :: st in key.records ==> StoredOk(st, key, serial) && st.slot.ImportedSlot?
    ensures var after := StageKey(key, r, serial + 1);
      && Ordered(after.records) && BareRecords(after.records) == BareRecords(key.records) + [r]
      && forall st :: st in after.records ==> StoredOk(st, after, serial + 1) && st.slot.ImportedSlot?
  {
    var after := StageKey(key, r, serial + 1);
    var marked := Supersede(key.records, ImportSlot(r));
    forall i, j | 0 <= i < j < |after.records| && after.records[i].slot == after.records[j].slot
      ensures after.records[i].serial < after.records[j].serial && after.records[i].superseded
    {
      assert key.records[i] in key.records;
    }
    forall st | st in after.records ensures StoredOk(st, after, serial + 1) && st.slot.ImportedSlot? {
      if st in marked {
        var i :| 0 <= i < |marked| && marked[i] == st;
        assert key.records[i] in key.records;
      }
    }
    assert BareRecords(after.records) == BareRecords(key.records) + [r];
  }

  /** Along one key the exported history never regresses. */
  lemma NoRegression(h: seq<Record>, r: Record)
    requires |h| > 0 && h[|h| - 1] == r && HistorySorted(h)
    ensures var rs := Of(h[..|h| - 1], IdOf(r)); rs != [] ==> rs[|rs| - 1].capabilityGeneration <= r.capabilityGeneration
  {
    var n := |h| - 1;
    var rs := Of(h[..n], IdOf(r));
    OfIn(h[..n], IdOf(r));
    if rs != [] {
      var before := rs[|rs| - 1];
      assert before in rs;
      var j :| 0 <= j < n && h[..n][j] == before;
      assert !HistoryLess(h[n], h[j]);
    }
  }

  lemma NextIsStageable(s: State, g: Staging, h: seq<Record>, start: nat)
    requires h != [] && HistorySorted(h) && Written(s, h[|h| - 1])
    requires Staged(s, g, h[..|h| - 1], start)
    ensures var r := h[|h| - 1]; var key := KeyAt(g.keys, r);
      && Stageable(s.config, s.devices, key, r) && key.generation <= r.capabilityGeneration && key.schema == r.schema
  {
    hide BareRecords, Ordered, ValidRecord, HistorySorted, UnderSchema, WithinPublisher, StoredOk;
    NoRegression(h, h[|h| - 1]);
  }

  lemma StagedKeyLater(s: State, g: Staging, t: Staging, rs: seq<Record>, k: KeyId)
    requires k in g.keys && rs != [] && StagedKey(s, g, rs, k)
    requires k in t.keys && t.keys[k] == g.keys[k] && g.nextSerial <= t.nextSerial
    ensures StagedKey(s, t, rs, k)
  {
    hide BareRecords, Ordered;
  }

  lemma StagedKeyNext(s: State, g: Staging, r: Record, rs: seq<Record>)
    requires Written(s, r)
    requires var key := KeyAt(g.keys, r); key.schema == r.schema && key.generation <= r.capabilityGeneration
    requires if IdOf(r) in g.keys then rs != [] && StagedKey(s, g, rs, IdOf(r)) else rs == []
    ensures var t := Staging(g.keys[IdOf(r) := StageKey(KeyAt(g.keys, r), r, g.nextSerial + 1)], g.nextSerial + 1, true);
      StagedKey(s, t, rs + [r], IdOf(r))
  {
    hide Ordered, StageKey, RecordOk, BareRecords, StoredOk;
    OrderedEmpty();
    EmptyBare();
    StageOneKey(KeyAt(g.keys, r), r, g.nextSerial);
    StageKeyShape(KeyAt(g.keys, r), r, g.nextSerial + 1);
  }

  lemma StageNext(s: State, g: Staging, h: seq<Record>, start: nat)
    requires h != [] && HistorySorted(h) && Written(s, h[|h| - 1])
    requires Staged(s, g, h[..|h| - 1], start)
    ensures var r := h[|h| - 1];
      && Stageable(s.config, s.devices, KeyAt(g.keys, r), r)
      && Staged(s, Staging(g.keys[IdOf(r) := StageKey(KeyAt(g.keys, r), r, g.nextSerial + 1)], g.nextSerial + 1, true), h, start)
  {
    hide StageKey, Stageable, Written, StagedKey, HistorySorted, KeyAt;
    var n := |h| - 1;
    var r := h[n];
    NextIsStageable(s, g, h, start);
    StagedKeyNext(s, g, r, Of(h[..n], IdOf(r)));
    var t := Staging(g.keys[IdOf(r) := StageKey(KeyAt(g.keys, r), r, g.nextSerial + 1)], g.nextSerial + 1, true);
    forall j | j in t.keys ensures Of(h, j) != [] && StagedKey(s, t, Of(h, j), j) {
      if j != IdOf(r) { StagedKeyLater(s, g, t, Of(h[..n], j), j); }
    }
  }

  lemma OrderedEmpty()
    ensures Ordered([])
  {}

  lemma StageKeyShape(key: Key, r: Record, serial: nat)
    requires r.capabilityGeneration != 0
    ensures var after := StageKey(key, r, serial); after.schema == key.schema && after.generation == r.capabilityGeneration
  {}

  lemma {:induction false} StagesAll(s: State, h: seq<Record>, start: nat)
    requires HistorySorted(h) && forall r :: r in h ==> Written(s, r)
    ensures Staged(s, StageHistory(s.config, s.devices, h, start), h, start)
  {
    hide Written, Stageable, StageKey, StagedKey;
    if h != [] {
      var n := |h| - 1;
      StagesAll(s, h[..n], start);
      StageNext(s, StageHistory(s.config, s.devices, h[..n], start), h, start);
    }
  }

  // ---- staging devices, quirks and publishers ---------------------------------------------------

  /** What a device may be named by in a reference, besides its identity. */
  datatype Axis = FamilyAxis | ModelAxis | ArchitectureAxis

  function NameAlong(d: Device, axis: Axis): nat {
    match axis
    case FamilyAxis => d.hardware.family
    case ModelAxis => d.hardware.model
    case ArchitectureAxis => d.hardware.architecture
  }

  function NamedIn(subjects: seq<Subject>, axis: Axis): set<nat> {
    if subjects == [] then {}
    else Noted(NamedIn(subjects[..|subjects| - 1], axis), NameAlong(subjects[|subjects| - 1].device, axis))
  }

  /** The families, models or architectures that the devices name now. */
  function Named(devices: map<nat, Device>, axis: Axis): set<nat> {
    set id | id in devices && NameAlong(devices[id], axis) != 0 :: NameAlong(devices[id], axis)
  }

  function Families(devices: map<nat, Device>): set<nat> { Named(devices, FamilyAxis) }

  /** What references are looked up among once the state is loaded. */
  function Exported(s: State): Subjects {
    Subjects(s.devices.Keys, s.platforms, Families(s.devices), Named(s.devices, ModelAxis), Named(s.devices, ArchitectureAxis))
  }

  function DevicesOf(subjects: seq<Subject>): map<nat, Device> {
    if subjects == [] then map[] else DevicesOf(subjects[..|subjects| - 1])[subjects[|subjects| - 1].id := subjects[|subjects| - 1].device]
  }

  predicate SubjectOk(x: Subject) { x.id != 0 && DeviceOk(x.device) }

  predicate Distinct(subjects: seq<Subject>) {
    forall i, j :: 0 <= i < j < |subjects| ==> subjects[i].id != subjects[j].id
  }

  lemma {:induction false} DevicesOfIn(subjects: seq<Subject>)
    ensures forall id :: id in DevicesOf(subjects) ==> Subject(id, DevicesOf(subjects)[id]) in subjects
    ensures forall x :: x in subjects ==> x.id in DevicesOf(subjects)
  {
    if subjects != [] {
      var front, last := subjects[..|subjects| - 1], subjects[|subjects| - 1];
      assert subjects == front + [last];
      DevicesOfIn(front);
    }
  }

  function StagedSoFar(subjects: seq<Subject>): Devices {
    Devices(DevicesOf(subjects), NamedIn(subjects, FamilyAxis), NamedIn(subjects, ModelAxis), NamedIn(subjects, ArchitectureAxis))
  }

  lemma StagesDevice(limits: Limits, staged: Devices, x: Subject)
    requires x.id !in staged.devices && SubjectOk(x) && |staged.families| <= limits.maxFamilies
    ensures StageDevice(limits, staged, x) ==
      if |Noted(staged.families, x.device.hardware.family)| <= limits.maxFamilies then
        Some(Devices(staged.devices[x.id := x.device], Noted(staged.families, x.device.hardware.family),
                     Noted(staged.models, x.device.hardware.model), Noted(staged.architectures, x.device.hardware.architecture)))
      else None
  {
    var family := x.device.hardware.family;
    if family in staged.families {
      assert staged.families + {family} == staged.families;
    } else {
      assert |staged.families + {family}| == |staged.families| + 1;
    }
  }

  lemma Grown(xs: set<nat>, x: nat)
    ensures |xs| <= |Noted(xs, x)|
  {
    assert xs + {x} == xs + ({x} - xs);
  }

  /** Distinct valid devices are staged exactly when their families fit. */
  lemma {:induction false} StagesDevices(limits: Limits, subjects: seq<Subject>)
    requires Distinct(subjects) && forall i :: 0 <= i < |subjects| ==> SubjectOk(subjects[i])
    ensures StageDevices(limits, subjects) ==
      if |NamedIn(subjects, FamilyAxis)| <= limits.maxFamilies then Some(StagedSoFar(subjects)) else None
  {
    hide SubjectOk, StageDevice, Noted;
    if subjects != [] {
      var front, x := subjects[..|subjects| - 1], subjects[|subjects| - 1];
      StagesDevices(limits, front);
      LastIsNew(subjects);
      Grown(NamedIn(front, FamilyAxis), x.device.hardware.family);
      if |NamedIn(front, FamilyAxis)| <= limits.maxFamilies { StagesDevice(limits, StagedSoFar(front), x); }
    }
  }

  lemma LastIsNew(subjects: seq<Subject>)
    requires Distinct(subjects) && subjects != []
    ensures subjects[|subjects| - 1].id !in DevicesOf(subjects[..|subjects| - 1])
  {
    hide DevicesOf;
    DevicesOfIn(subjects[..|subjects| - 1]);
  }

  lemma ExportedDevices(devices: map<nat, Device>, subjects: seq<Subject>)
    requires SubjectsExported(devices, subjects)
    ensures DevicesOf(subjects) == devices && Distinct(subjects)
  {
    hide DevicesOf;
    DevicesOfIn(subjects);
    var all := DevicesOf(subjects);
    forall id | id in all ensures id in devices && devices[id] == all[id] {
      var i :| 0 <= i < |subjects| && subjects[i] == Subject(id, all[id]);
    }
    forall id | id in devices ensures id in all {
      assert Subject(id, devices[id]) in subjects;
    }
  }

  lemma {:induction false} NamedOfSubjects(subjects: seq<Subject>, axis: Axis)
    requires Distinct(subjects)
    ensures Named(DevicesOf(subjects), axis) == NamedIn(subjects, axis)
  {
    NobodyNames(axis);
    hide Named, Noted;
    if subjects != [] {
      var n := |subjects| - 1;
      NamedOfSubjects(subjects[..n], axis);
      LastIsNew(subjects);
      NamedAdds(DevicesOf(subjects[..n]), subjects[n], axis);
    }
  }

  lemma NobodyNames(axis: Axis)
    ensures Named(map[], axis) == {}
  {}

  lemma NamedAdds(devices: map<nat, Device>, x: Subject, axis: Axis)
    requires x.id !in devices
    ensures Named(devices[x.id := x.device], axis) == Noted(Named(devices, axis), NameAlong(x.device, axis))
  {
    hide NameAlong;
    var after := devices[x.id := x.device];
    forall n | n in Noted(Named(devices, axis), NameAlong(x.device, axis)) ensures n in Named(after, axis) {
      if n in Named(devices, axis) {
        var id :| id in devices && NameAlong(devices[id], axis) != 0 && NameAlong(devices[id], axis) == n;
        assert id in after && after[id] == devices[id];
      } else {
        assert NameAlong(after[x.id], axis) == n;
      }
    }
  }

  lemma ExportedNames(devices: map<nat, Device>, subjects: seq<Subject>)
    requires SubjectsExported(devices, subjects)
    ensures StagedSoFar(subjects) ==
      Devices(devices, Families(devices), Named(devices, ModelAxis), Named(devices, ArchitectureAxis))
    ensures Distinct(subjects)
  {
    hide Named, NamedIn, DevicesOf;
    ExportedDevices(devices, subjects);
    NamedOfSubjects(subjects, FamilyAxis);
    NamedOfSubjects(subjects, ModelAxis);
    NamedOfSubjects(subjects, ArchitectureAxis);
  }

  lemma {:induction false} StagesPlatforms(written: seq<nat>)
    requires 0 !in written
    ensures StagePlatforms(written).Some? && forall p :: p in StagePlatforms(written).value <==> p in written
  {
    if written != [] {
      assert written == written[..|written| - 1] + [written[|written| - 1]];
      StagesPlatforms(written[..|written| - 1]);
    }
  }

  lemma ExportedPlatforms(s: State, written: seq<nat>)
    requires FactsOk(s) && PlatformsExported(s.platforms, written)
    ensures StagePlatforms(written) == Some(s.platforms)
  {
    hide ValidFact, StagePlatforms;
    StagesPlatforms(written);
    assert StagePlatforms(written).value == s.platforms;
  }

  function FactsOf(written: seq<Fact>): map<nat, Fact> {
    if written == [] then map[] else FactsOf(written[..|written| - 1])[written[|written| - 1].id := written[|written| - 1]]
  }

  lemma {:induction false} FactsOfIn(written: seq<Fact>)
    ensures forall id :: id in FactsOf(written) ==> FactsOf(written)[id] in written && FactsOf(written)[id].id == id
    ensures forall f :: f in written ==> f.id in FactsOf(written)
  {
    if written != [] {
      assert written == written[..|written| - 1] + [written[|written| - 1]];
      FactsOfIn(written[..|written| - 1]);
    }
  }

  predicate AllOfThem(x: Subjects, written: seq<Fact>) {
    forall i :: 0 <= i < |written| ==> BothResolve(x, written[i])
  }

  lemma LastOfThem(x: Subjects, written: seq<Fact>)
    requires written != []
    ensures AllOfThem(x, written) <==> AllOfThem(x, written[..|written| - 1]) && BothResolve(x, written[|written| - 1])
  {
    hide BothResolve;
  }

  /** Distinct valid facts are staged exactly when every reference resolves. */
  lemma {:induction false} StagesFacts(config: Config, x: Subjects, written: seq<Fact>)
    requires forall i :: 0 <= i < |written| ==> ValidFact(config, written[i])
    requires forall i, j :: 0 <= i < j < |written| ==> written[i].id < written[j].id
    ensures StageFacts(config, x, written) == if AllOfThem(x, written) then Some(FactsOf(written)) else None
  {
    hide ValidFact, BothResolve, AllOfThem;
    if written != [] {
      var front := written[..|written| - 1];
      StagesFacts(config, x, front);
      FactsOfIn(front);
      LastOfThem(x, written);
    } else {
      assert AllOfThem(x, written) by { NoneOfThem(x); }
    }
  }

  lemma NoneOfThem(x: Subjects)
    ensures AllOfThem(x, [])
  {}

  predicate AllResolve(x: Subjects, facts: map<nat, Fact>) {
    forall id :: id in facts ==> BothResolve(x, facts[id])
  }

  lemma ExportedFacts(s: State, written: seq<Fact>, x: Subjects)
    requires FactsOk(s) && FactsExported(s.facts, written)
    ensures StageFacts(s.config, x, written) == if AllResolve(x, s.facts) then Some(s.facts) else None
  {
    hide StageFacts, ValidFact, BothResolve, FactsOf;
    StagesFacts(s.config, x, written);
    FactsOfIn(written);
    var m := FactsOf(written);
    forall id | id in m ensures id in s.facts && m[id] == s.facts[id] {
      var i :| 0 <= i < |written| && written[i] == m[id];
    }
    forall id | id in s.facts ensures id in m { assert s.facts[id] in written; }
    assert m == s.facts;
    if AllOfThem(x, written) {
      forall id | id in s.facts ensures BothResolve(x, s.facts[id]) {
        var i :| 0 <= i < |written| && written[i] == s.facts[id];
      }
    }
  }

  /** Every capability some schema describes is bound to a schema. */
  ghost predicate Bound(config: Config) {
    forall c: nat :: KnownCapability(config, c) ==> c in config.bindings
  }

  function QuirksOf(written: seq<Quirk>): map<nat, Quirk> {
    if written == [] then map[] else QuirksOf(written[..|written| - 1])[written[|written| - 1].id := written[|written| - 1]]
  }

  lemma {:induction false} QuirksOfIn(written: seq<Quirk>)
    ensures forall id :: id in QuirksOf(written) ==> QuirksOf(written)[id] in written && QuirksOf(written)[id].id == id
    ensures forall q :: q in written ==> q.id in QuirksOf(written)
  {
    if written != [] {
      assert written == written[..|written| - 1] + [written[|written| - 1]];
      QuirksOfIn(written[..|written| - 1]);
    }
  }

  lemma {:induction false} StagesQuirks(config: Config, written: seq<Quirk>)
    requires forall i :: 0 <= i < |written| ==> ValidQuirk(config, written[i]) && ImpactsBound(config, written[i])
    requires forall i, j :: 0 <= i < j < |written| ==> written[i].id < written[j].id
    ensures StageQuirks(config, written) == Some(QuirksOf(written))
  {
    hide ValidQuirk, ImpactsBound;
    if written != [] {
      var front := written[..|written| - 1];
      StagesQuirks(config, front);
      QuirksOfIn(front);
    }
  }

  lemma ImpactsAreBound(config: Config, q: Quirk)
    requires Bound(config) && ImpactsKnown(config, q)
    ensures ImpactsBound(config, q)
  {
    hide KnownCapability;
  }

  lemma ExportedQuirks(s: State, written: seq<Quirk>)
    requires QuirksOk(s) && Bound(s.config) && QuirksExported(s.quirks, written)
    ensures StageQuirks(s.config, written) == Some(s.quirks)
  {
    hide QuirksOk, FactsOk, Bound, StageQuirks, ImpactsBound, ValidQuirk, ImpactsKnown, QuirksOf;
    forall i | 0 <= i < |written| ensures ValidQuirk(s.config, written[i]) && ImpactsBound(s.config, written[i]) {
      QuirkFacts(s, written[i].id);
      ImpactsAreBound(s.config, written[i]);
    }
    StagesQuirks(s.config, written);
    QuirksOfIn(written);
    var m := QuirksOf(written);
    forall id | id in s.quirks ensures id in m { QuirkFacts(s, id); }
    forall id | id in m ensures id in s.quirks && m[id] == s.quirks[id] {
      var i :| 0 <= i < |written| && written[i] == m[id];
    }
    assert m == s.quirks;
  }

  lemma QuirkFacts(s: State, id: nat)
    requires QuirksOk(s) && id in s.quirks
    ensures s.quirks[id].id == id && ValidQuirk(s.config, s.quirks[id]) && ImpactsKnown(s.config, s.quirks[id])
  {
    hide ValidQuirk, ImpactsKnown;
  }

  function FromMark(m: Mark): Publisher {
    Unlisted.(boot := m.boot, maxEvidenceGeneration := m.maxEvidenceGeneration,
              watermarks := map[m.boot := Watermark(m.maxSequence, m.maxEvidenceGeneration)])
  }

  function PublishersOf(marks: seq<Mark>): map<nat, Publisher> {
    if marks == [] then map[] else PublishersOf(marks[..|marks| - 1])[marks[|marks| - 1].publisher := FromMark(marks[|marks| - 1])]
  }

  lemma {:induction false} PublishersOfIn(marks: seq<Mark>)
    ensures forall id :: id in PublishersOf(marks) ==> exists m :: m in marks && m.publisher == id && PublishersOf(marks)[id] == FromMark(m)
    ensures forall m :: m in marks ==> m.publisher in PublishersOf(marks)
  {
    hide FromMark;
    if marks != [] {
      assert marks == marks[..|marks| - 1] + [marks[|marks| - 1]];
      PublishersOfIn(marks[..|marks| - 1]);
    }
  }

  lemma {:induction false} StagesMarks(marks: seq<Mark>)
    requires forall i :: 0 <= i < |marks| ==> marks[i].publisher != 0
    requires forall i, j :: 0 <= i < j < |marks| ==> marks[i].publisher < marks[j].publisher
    ensures StageMarks(marks) == Some(PublishersOf(marks))
  {
    hide FromMark;
    if marks != [] {
      var front, last := marks[..|marks| - 1], marks[|marks| - 1];
      StagesMarks(front);
      PublishersOfIn(front);
      assert last.publisher !in PublishersOf(front);
      StagesMark(PublishersOf(front), last);
    }
  }

  lemma StagesMark(staged: map<nat, Publisher>, m: Mark)
    requires m.publisher != 0 && m.publisher !in staged
    ensures StageMark(staged, m) == Some(staged[m.publisher := FromMark(m)])
  {}

  lemma {:induction false} StagesFences(publishers: map<nat, Publisher>, boots: seq<Boot>)
    requires forall b :: b in boots ==> b.publisher in publishers && b.publisher != 0 && b.boot != 0
    ensures StageFences(publishers, boots).Some?
    ensures StageFences(publishers, boots).value.Keys == publishers.Keys
    ensures forall id :: id in publishers ==>
              var p, q := publishers[id], StageFences(publishers, boots).value[id];
              && q == p.(fencedBoots := q.fencedBoots)
              && forall b :: b in q.fencedBoots <==> b in p.fencedBoots || Boot(id, b) in boots
  {
    if boots != [] {
      var n := |boots| - 1;
      assert boots == boots[..n] + [boots[n]];
      StagesFences(publishers, boots[..n]);
    }
  }

  /** A publisher after a restart: dead, with every boot it ever had fenced. */
  function Recovered(p: Publisher): Publisher {
    Publisher(p.boot, 0, Dead, 0, p.maxEvidenceGeneration, p.fencedBoots + {p.boot},
              map[p.boot := Watermark(p.lastSequence, p.maxEvidenceGeneration)], map[], false)
  }

  lemma ExportedFencesInBounds(s: State, d: Durable, marked: map<nat, Publisher>)
    requires PublishersOk(s) && PublishersExported(s.publishers, d.marks, d.fencedBoots) && marked.Keys == s.publishers.Keys
    ensures forall b :: b in d.fencedBoots ==> b.publisher in marked && b.publisher != 0 && b.boot != 0
  {
    forall b | b in d.fencedBoots ensures b.publisher in marked && b.publisher != 0 && b.boot != 0 {
      assert IsExportedFence(s.publishers, b.publisher, b.boot);
      assert PublisherOk(s.publishers[b.publisher]);
    }
  }

  lemma ExportedMarks(s: State, d: Durable)
    requires PublishersOk(s) && PublishersExported(s.publishers, d.marks, d.fencedBoots)
    ensures StageMarks(d.marks).Some? && StageMarks(d.marks).value.Keys == s.publishers.Keys
    ensures forall id :: id in s.publishers ==> StageMarks(d.marks).value[id] == FromMark(MarkOf(id, s.publishers[id]))
  {
    hide StageMarks, PublisherOk, PublishersOf, FromMark;
    StagesMarks(d.marks);
    PublishersOfIn(d.marks);
    var marked := PublishersOf(d.marks);
    forall id | id in marked ensures id in s.publishers && marked[id] == FromMark(MarkOf(id, s.publishers[id])) {
      var m :| m in d.marks && m.publisher == id && marked[id] == FromMark(m);
      var i :| 0 <= i < |d.marks| && d.marks[i] == m;
    }
    forall id | id in s.publishers ensures id in marked {
      assert MarkOf(id, s.publishers[id]) in d.marks;
    }
  }

  lemma RecoveredFrom(publishers: map<nat, Publisher>, marks: seq<Mark>, fenced: seq<Boot>, id: nat, q: Publisher)
    requires id in publishers && PublisherOk(publishers[id]) && PublishersExported(publishers, marks, fenced)
    requires q == FromMark(MarkOf(id, publishers[id])).(fencedBoots := q.fencedBoots)
    requires forall b :: b in q.fencedBoots <==> Boot(id, b) in fenced
    ensures Buried(q) == Recovered(publishers[id])
  {
    var p := publishers[id];
    forall b: nat ensures b in q.fencedBoots + {p.boot} <==> b in p.fencedBoots + {p.boot} {
      assert Boot(id, b) in fenced <==> IsExportedFence(publishers, id, b);
    }
    assert q.fencedBoots + {p.boot} == p.fencedBoots + {p.boot};
  }

  /** The exported publishers come back, every one of them dead. */
  lemma ExportedPublishers(s: State, d: Durable)
    requires PublishersOk(s) && PublishersExported(s.publishers, d.marks, d.fencedBoots)
    ensures StageMarks(d.marks).Some? && StageFences(StageMarks(d.marks).value, d.fencedBoots).Some?
    ensures Bury(StageFences(StageMarks(d.marks).value, d.fencedBoots).value) == map id | id in s.publishers :: Recovered(s.publishers[id])
  {
    hide StageMarks, StageFences, PublisherOk, PublishersExported, FromMark, MarkOf, Buried, Recovered;
    ExportedMarks(s, d);
    var marked := StageMarks(d.marks).value;
    ExportedFencesInBounds(s, d, marked);
    StagesFences(marked, d.fencedBoots);
    var staged := StageFences(marked, d.fencedBoots).value;
    forall id | id in s.publishers ensures Buried(staged[id]) == Recovered(s.publishers[id]) {
      NoFencesYet(MarkOf(id, s.publishers[id]));
      RecoveredFrom(s.publishers, d.marks, d.fencedBoots, id, staged[id]);
    }
  }

  lemma NoFencesYet(m: Mark)
    ensures FromMark(m).fencedBoots == {}
  {}

  // ---- the import of an export -----------------------------------------------------------------------

  /** What the importing registry knows: the knowledge of the exporting one, under publishers that are all dead. */
  ghost predicate Recovers(s: State, f: State, t: State) {
    && t.config == s.config && t.devices == s.devices && t.quirks == s.quirks && t.facts == s.facts && Known(t) == Exported(s)
    && t.publishers == (map id | id in s.publishers :: Recovered(s.publishers[id]))
    && t.epoch == (if s.epoch > f.epoch then s.epoch else f.epoch) && t.shuttingDown == f.shuttingDown
    && t.evidenceCount == s.evidenceCount && t.nextSerial == f.nextSerial + s.evidenceCount
    && forall k :: multiset(BareRecords(RecordsAt(t.keys, k))) == multiset(BareRecords(RecordsAt(s.keys, k)))
  }

  lemma RecoveredOk(p: Publisher)
    requires PublisherOk(p)
    ensures PublisherOk(Recovered(p))
  {}

  lemma RecoveredPublishersOk(s: State, t: State)
    requires PublishersOk(s) && t.config == s.config
    requires t.publishers == map id | id in s.publishers :: Recovered(s.publishers[id])
    ensures PublishersOk(t)
  {
    hide PublisherOk, Recovered;
    forall id | id in s.publishers ensures PublisherOk(t.publishers[id]) { RecoveredOk(s.publishers[id]); }
    assert t.publishers.Keys == s.publishers.Keys;
    assert |t.publishers.Keys| == |t.publishers| && |s.publishers.Keys| == |s.publishers|;
  }

  lemma RecoveredRecordOk(s: State, t: State, k: KeyId, r: Record)
    requires RecordOk(s, k, r) && t.config == s.config && t.devices == s.devices && s.epoch <= t.epoch
    requires t.publishers == map id | id in s.publishers :: Recovered(s.publishers[id])
    ensures RecordOk(t, k, r)
  {
    hide ValidRecord, WithinDevice;
  }

  /** The records of a key, before and after, are the same up to order. */
  lemma SameRecords(before: seq<Stored>, after: seq<Stored>, st: Stored)
    requires multiset(BareRecords(after)) == multiset(BareRecords(before)) && st in after
    ensures exists was :: was in before && was.record == st.record
  {
    var i :| 0 <= i < |after| && after[i] == st;
    assert BareRecords(after)[i] == st.record;
    assert st.record in multiset(BareRecords(before));
    var j :| 0 <= j < |before| && BareRecords(before)[j] == st.record;
    assert before[j] in before;
  }

  lemma RecoveredOneClaim(before: seq<Stored>, after: seq<Stored>)
    requires multiset(BareRecords(after)) == multiset(BareRecords(before)) && OneClaim(before)
    ensures OneClaim(after)
  {
    hide BareRecords, SameClaim;
    forall a, b | a in after && b in after && a.record.capabilityGeneration == b.record.capabilityGeneration
      ensures SameClaim(a.record, b.record)
    {
      SameRecords(before, after, a);
      SameRecords(before, after, b);
    }
  }

  lemma IndexIsExact(keys: map<KeyId, Key>, d: nat, c: nat)
    ensures IndexedAt(keys, IndexOf(keys), d, c)
  {
    if (d, c) in keys { assert (d, c).0 in DevicesIn(keys.Keys) && (d, c).1 in CapabilitiesIn(keys.Keys, d); }
    if d in IndexOf(keys) && c in IndexOf(keys)[d] {
      var k :| k in keys.Keys && k.0 == d && k.1 == c;
      assert k == (d, c);
    }
  }

  lemma StagedRecords(s: State, g: Staging, h: seq<Record>, start: nat, k: KeyId)
    requires KeysOk(s) && multiset(h) == AllRecords(s.keys) && Staged(s, g, h, start)
    ensures multiset(BareRecords(RecordsAt(g.keys, k))) == multiset(BareRecords(RecordsAt(s.keys, k)))
  {
    hide KeysOk, Of, BareRecords, Ordered, StoredOk;
    HistoryOfKey(s, h, k);
    EmptyBare();
  }

  lemma RecoveredKeysOk(s: State, g: Staging, h: seq<Record>, start: nat, t: State)
    requires KeysOk(s) && multiset(h) == AllRecords(s.keys) && Staged(s, g, h, start)
    requires t.keys == g.keys && t.nextSerial == g.nextSerial
    requires t.config == s.config && t.devices == s.devices && s.epoch <= t.epoch
    requires t.publishers == map id | id in s.publishers :: Recovered(s.publishers[id])
    ensures KeysOk(t)
  {
    hide RecordOk, BareRecords, Of, Recovered, OneClaim, Ordered, StoredOk;
    forall k | k in t.keys
      ensures k.0 in t.devices && KeyOk(t.keys[k], t.nextSerial)
      ensures forall st :: st in t.keys[k].records ==> RecordOk(t, k, st.record)
    {
      assert StagedKey(s, g, Of(h, k), k);
      StagedRecords(s, g, h, start, k);
      RecoveredOneClaim(s.keys[k].records, t.keys[k].records);
      forall st | st in t.keys[k].records ensures RecordOk(t, k, st.record) {
        SameRecords(s.keys[k].records, t.keys[k].records, st);
        RecoveredRecordOk(s, t, k, st.record);
      }
    }
  }

  lemma SameTotals(s: State, t: State)
    requires KeysOk(s) && KeysOk(t)
    requires forall k :: multiset(BareRecords(RecordsAt(t.keys, k))) == multiset(BareRecords(RecordsAt(s.keys, k)))
    ensures Total(t.keys) == Total(s.keys)
  {
    hide KeysOk, BareRecords, Total, AllRecords;
    RecordsPlaced(s);
    RecordsPlaced(t);
    forall r ensures AllRecords(t.keys)[r] == AllRecords(s.keys)[r] {
      AllRecordsCount(s.keys, r);
      AllRecordsCount(t.keys, r);
    }
    assert AllRecords(t.keys) == AllRecords(s.keys);
    AllRecordsSize(s.keys);
    AllRecordsSize(t.keys);
  }

  lemma RecoveredInv(s: State, f: State, g: Staging, h: seq<Record>, t: State)
    requires Inv(s) && multiset(h) == AllRecords(s.keys) && Staged(s, g, h, f.nextSerial)
    requires t.keys == g.keys && t.deviceKeys == IndexOf(g.keys) && t.nextSerial == g.nextSerial && t.evidenceCount == |h|
    requires t.config == s.config && t.devices == s.devices && t.quirks == s.quirks && s.epoch <= t.epoch
    requires t.facts == s.facts && Known(t) == Exported(s) && AllResolve(Exported(s), s.facts)
    requires t.publishers == map id | id in s.publishers :: Recovered(s.publishers[id])
    ensures Inv(t) && t.evidenceCount == s.evidenceCount
    ensures forall k :: multiset(BareRecords(RecordsAt(t.keys, k))) == multiset(BareRecords(RecordsAt(s.keys, k)))
  {
    hide KeysOk, BareRecords, Recovered, Staged, PublishersOk, DevicesOk, QuirksOk, FactsOk, Known, Exported, AllResolve, Total, AllRecords;
    RecoveredPublishersOk(s, t);
    SameDevices(s, t);
    SameQuirks(s, t);
    RecoveredFacts(s, t);
    RecoveredKeysOk(s, g, h, f.nextSerial, t);
    forall d: nat, c: nat ensures IndexedAt(t.keys, t.deviceKeys, d, c) { IndexIsExact(t.keys, d, c); }
    forall k ensures multiset(BareRecords(RecordsAt(t.keys, k))) == multiset(BareRecords(RecordsAt(s.keys, k))) {
      StagedRecords(s, g, h, f.nextSerial, k);
    }
    SameTotals(s, t);
    AllRecordsSize(s.keys);
    assert |multiset(h)| == |h|;
  }

  lemma RecoveredFacts(s: State, t: State)
    requires FactsOk(s) && t.config == s.config && t.facts == s.facts && Known(t) == Exported(s) && AllResolve(Exported(s), s.facts)
    ensures FactsOk(t)
  {
    hide ValidFact, BothResolve;
  }

  lemma ExportFits(s: State, d: Durable)
    requires Inv(s) && IsExport(s, d)
    ensures WithinBounds(s.config.limits, d) && |d.history| == s.evidenceCount
  {
    hide KeysOk, Indexed, Total, AllRecords, HistorySorted;
    AllRecordsSize(s.keys);
    assert |multiset(d.history)| == |d.history|;
  }

  lemma ExportedSubjectsOk(s: State, d: Durable)
    requires DevicesOk(s) && SubjectsExported(s.devices, d.subjects)
    ensures forall i :: 0 <= i < |d.subjects| ==> SubjectOk(d.subjects[i])
  {
    hide DeviceOk;
  }

  /** What a clean restart needs: the families the devices name fit, and every stored fact speaks of what is written. */
  predicate Restartable(s: State) {
    |Families(s.devices)| <= s.config.limits.maxFamilies && AllResolve(Exported(s), s.facts)
  }

  lemma StagesRest(s: State, d: Durable, x: Subjects)
    requires PublishersOk(s) && QuirksOk(s) && FactsOk(s) && Bound(s.config)
    requires QuirksExported(s.quirks, d.quirks) && FactsExported(s.facts, d.facts) && PublishersExported(s.publishers, d.marks, d.fencedBoots)
    ensures StageRest(s.config, x, d).Some? <==> AllResolve(x, s.facts)
    ensures AllResolve(x, s.facts) ==> var r := StageRest(s.config, x, d).value;
      r.quirks == s.quirks && r.facts == s.facts && Bury(r.publishers) == map id | id in s.publishers :: Recovered(s.publishers[id])
  {
    hide PublishersOk, QuirksOk, FactsOk, Bound, QuirksExported, FactsExported, PublishersExported, StageQuirks, StageFacts, StageMarks,
      StageFences, Bury, Recovered, AllResolve;
    ExportedQuirks(s, d.quirks);
    ExportedFacts(s, d.facts, x);
    ExportedPublishers(s, d);
    SamePublisherCount(s, d);
  }

  /**
   * A registry accepts the export of another one exactly when its devices name no more families than allowed and every
   * reference of its facts, withdrawn ones included, is to a device, a platform, or a name that some device still has; then
   * it knows what was exported. A refresh may have moved a device to a family that was never counted, or away from the last
   * mention of a name that a fact speaks of.
   */
  lemma ImportOfExport(s: State, f: State, d: Durable)
    requires Inv(s) && Bound(s.config) && IsExport(s, d) && f.config == s.config
    ensures Import(f, d).ok <==> Restartable(s)
    ensures Import(f, d).ok ==> Recovers(s, f, Import(f, d).state) && Inv(Import(f, d).state)
    ensures !Import(f, d).ok ==>
      Import(f, d).state == if |Families(s.devices)| <= s.config.limits.maxFamilies then f.(nextSerial := f.nextSerial + |d.history|) else f
  {
    hide Inv, KeysOk, BareRecords, AllRecords, HistorySorted, StageDevices, StagePlatforms, StageHistory, StageRest,
      Staged, SubjectsExported, PlatformsExported, QuirksExported, FactsExported, PublishersExported, DevicesOf, NamedIn, Families, Named,
      Bury, Recovered, Bound, WithinBounds, SubjectOk, Distinct, IndexOf, QueueOf, Total, PublishersOk, QuirksOk, FactsOk, DevicesOk,
      AllResolve, Recovers;
    assert PublishersOk(s) && DevicesOk(s) && QuirksOk(s) && FactsOk(s) && KeysOk(s) by { Parts(s); }
    ExportFits(s, d);
    ExportedSubjectsOk(s, d);
    ExportedNames(s.devices, d.subjects);
    StagesDevices(s.config.limits, d.subjects);
    ExportedPlatforms(s, d.platforms);
    if |Families(s.devices)| <= s.config.limits.maxFamilies {
      forall r | r in d.history ensures Written(s, r) { HistoryIsWritten(s, d.history, r); }
      StagesAll(s, d.history, f.nextSerial);
      var g := StageHistory(s.config, s.devices, d.history, f.nextSerial);
      assert g.ok && g.nextSerial == f.nextSerial + |d.history| by { StagedShape(s, g, d.history, f.nextSerial); }
      StagesRest(s, d, Exported(s));
      if AllResolve(Exported(s), s.facts) {
        var t := Import(f, d).state;
        RecoveredInv(s, f, g, d.history, t);
        assert Recovers(s, f, t) by { RecoversParts(s, f, t); }
      }
    }
  }

  lemma RecoversParts(s: State, f: State, t: State)
    requires t.config == s.config && t.devices == s.devices && t.quirks == s.quirks && t.facts == s.facts && Known(t) == Exported(s)
    requires t.publishers == (map id | id in s.publishers :: Recovered(s.publishers[id]))
    requires t.epoch == (if s.epoch > f.epoch then s.epoch else f.epoch) && t.shuttingDown == f.shuttingDown
    requires t.evidenceCount == s.evidenceCount && t.nextSerial == f.nextSerial + s.evidenceCount
    requires forall k :: multiset(BareRecords(RecordsAt(t.keys, k))) == multiset(BareRecords(RecordsAt(s.keys, k)))
    ensures Recovers(s, f, t)
  {
    hide BareRecords, Recovered;
  }

  lemma Parts(s: State)
    requires Inv(s)
    ensures PublishersOk(s) && DevicesOk(s) && QuirksOk(s) && FactsOk(s) && KeysOk(s)
  {
    hide PublishersOk, DevicesOk, QuirksOk, FactsOk, KeysOk;
  }

  lemma StagedShape(s: State, g: Staging, h: seq<Record>, start: nat)
    requires Staged(s, g, h, start)
    ensures g.ok && g.nextSerial == start + |h|
  {
    hide StagedKey;
  }

  lemma SamePublisherCount(s: State, d: Durable)
    requires PublishersOk(s) && PublishersExported(s.publishers, d.marks, d.fencedBoots)
    requires StageMarks(d.marks).Some? && StageFences(StageMarks(d.marks).value, d.fencedBoots).Some?
    ensures |StageFences(StageMarks(d.marks).value, d.fencedBoots).value| <= s.config.limits.maxPublishers
  {
    hide StageMarks, StageFences, PublisherOk;
    ExportedMarks(s, d);
    var marked := StageMarks(d.marks).value;
    ExportedFencesInBounds(s, d, marked);
    StagesFences(marked, d.fencedBoots);
    var staged := StageFences(marked, d.fencedBoots).value;
    assert |staged.Keys| == |staged| && |s.publishers.Keys| == |s.publishers|;
  }
}
