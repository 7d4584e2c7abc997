// What comes back from a durable state (src/registry.cpp:2420-2820): which states
// are loaded, in which order the history is written and queued, what is left of
// the publishers, and that the fence of a publisher does not come back.
module Returning {
  import opened Basics
  import C = Conditions
  import Q = Quirks
  import opened Model
  import opened Steps
  import opened Eviction
  import opened Invariants
  import opened Admission
  import opened Restart
  import opened Recovery
  import opened History
  import opened Safety
  import opened Sending

  // ---- the order of the history -------------------------------------------------------

  /** By device, then capability, then capability generation, then publisher, then observation. */
  predicate InOrder(a: Record, b: Record) {
    && a.device <= b.device
    && (a.device == b.device ==>
          && a.capability <= b.capability
          && (a.capability == b.capability ==>
                && a.capabilityGeneration <= b.capabilityGeneration
                && (a.capabilityGeneration == b.capabilityGeneration ==>
                      && a.source.publisher.id <= b.source.publisher.id
                      && (a.source.publisher.id == b.source.publisher.id ==>
                            a.source.observationSequence <= b.source.observationSequence))))
  }

  /** The history is written in ascending order. */
  lemma HistoryIsInOrder(s: State, d: Durable)
    requires IsExport(s, d)
    ensures forall i, j :: 0 <= i < j < |d.history| ==> InOrder(d.history[i], d.history[j])
  {
    hide AllRecords, SubjectsExported, PlatformsExported, QuirksExported, FactsExported, PublishersExported;
    forall i, j | 0 <= i < j < |d.history| ensures InOrder(d.history[i], d.history[j]) {
      assert !HistoryLess(d.history[j], d.history[i]);
    }
  }

  // ---- which states are loaded ------------------------------------------------------------

  predicate SoundSubject(x: Subject) {
    && x.id > 0 && x.device.incarnation > 0 && x.device.generation > 0 && x.device.boot > 0 && x.device.hardware.vendor > 0
    && (x.device.hardware.family > 0 || x.device.hardware.model > 0)
  }

  /** The families the devices name. */
  function FamiliesIn(subjects: seq<Subject>): set<nat> {
    set i | 0 <= i < |subjects| && subjects[i].device.hardware.family > 0 :: subjects[i].device.hardware.family
  }

  predicate SoundSubjects(limits: Limits, subjects: seq<Subject>) {
    && (forall i :: 0 <= i < |subjects| ==> SoundSubject(subjects[i]))
    && (forall i, j :: 0 <= i < j < |subjects| ==> subjects[i].id != subjects[j].id)
    && |FamiliesIn(subjects)| <= limits.maxFamilies
  }

  lemma FamiliesNext(subjects: seq<Subject>)
    requires subjects != []
    ensures FamiliesIn(subjects) ==
      Noted(FamiliesIn(subjects[..|subjects| - 1]), subjects[|subjects| - 1].device.hardware.family)
  {
    var n := |subjects| - 1;
    var front := subjects[..n];
    forall f ensures f in FamiliesIn(subjects) <==> f in Noted(FamiliesIn(front), subjects[n].device.hardware.family) {
      if f in FamiliesIn(subjects) {
        var i :| 0 <= i < |subjects| && subjects[i].device.hardware.family > 0 && f == subjects[i].device.hardware.family;
        if i < n { assert front[i] == subjects[i]; }
      }
      if f in FamiliesIn(front) {
        var i :| 0 <= i < n && front[i].device.hardware.family > 0 && f == front[i].device.hardware.family;
        assert subjects[i] == front[i];
      }
    }
  }

  lemma NotedSize(xs: set<nat>, x: nat)
    ensures |Noted(xs, x)| == if x != 0 && x !in xs then |xs| + 1 else |xs|
  {
    if x in xs { assert xs + {x} == xs; }
  }

  /** The device with the platform generation it has, or the first. */
  predicate LoadedAs(x: Subject, d: Device) {
    d == x.device.(platformGeneration := if x.device.platformGeneration == 0 then 1 else x.device.platformGeneration)
  }

  predicate AreModels(xs: set<nat>, subjects: seq<Subject>) {
    && (forall i :: 0 <= i < |subjects| && subjects[i].device.hardware.model != 0 ==> subjects[i].device.hardware.model in xs)
    && (forall x :: x in xs ==> x != 0 && exists i :: 0 <= i < |subjects| && subjects[i].device.hardware.model == x)
  }

  predicate AreArchitectures(xs: set<nat>, subjects: seq<Subject>) {
    && (forall i :: 0 <= i < |subjects| && subjects[i].device.hardware.architecture != 0 ==> subjects[i].device.hardware.architecture in xs)
    && (forall x :: x in xs ==> x != 0 && exists i :: 0 <= i < |subjects| && subjects[i].device.hardware.architecture == x)
  }

  lemma NamesNext(subjects: seq<Subject>, models: set<nat>, architectures: set<nat>)
    requires subjects != [] && AreModels(models, subjects[..|subjects| - 1]) && AreArchitectures(architectures, subjects[..|subjects| - 1])
    ensures var h := subjects[|subjects| - 1].device.hardware;
      AreModels(Noted(models, h.model), subjects) && AreArchitectures(Noted(architectures, h.architecture), subjects)
  {
    var n := |subjects| - 1;
    var front, h := subjects[..n], subjects[n].device.hardware;
    assert forall i :: 0 <= i < n ==> front[i] == subjects[i];
    forall x | x in Noted(models, h.model) ensures x != 0 && exists i :: 0 <= i < |subjects| && subjects[i].device.hardware.model == x {
      if x in models {
        var i :| 0 <= i < |front| && front[i].device.hardware.model == x;
        assert subjects[i].device.hardware.model == x;
      }
    }
    forall x | x in Noted(architectures, h.architecture)
      ensures x != 0 && exists i :: 0 <= i < |subjects| && subjects[i].device.hardware.architecture == x
    {
      if x in architectures {
        var i :| 0 <= i < |front| && front[i].device.hardware.architecture == x;
        assert subjects[i].device.hardware.architecture == x;
      }
    }
  }

  /** The devices that were loaded are the subjects, one by one, and the names are those they have. */
  ghost predicate LoadedFrom(x: Devices, subjects: seq<Subject>) {
    && x.families == FamiliesIn(subjects) && AreModels(x.models, subjects) && AreArchitectures(x.architectures, subjects)
    && (forall id :: id in x.devices <==> exists i :: 0 <= i < |subjects| && subjects[i].id == id)
    && (forall i :: 0 <= i < |subjects| ==> subjects[i].id in x.devices && LoadedAs(subjects[i], x.devices[subjects[i].id]))
  }

  lemma LoadedNext(limits: Limits, subjects: seq<Subject>, staged: Devices)
    requires subjects != []
    requires var n := |subjects| - 1; LoadedFrom(staged, subjects[..n]) && StageDevice(limits, staged, subjects[n]).Some?
    ensures LoadedFrom(StageDevice(limits, staged, subjects[|subjects| - 1]).value, subjects)
  {
    hide LoadedAs, Adopted, FamiliesIn, Noted, AreModels, AreArchitectures;
    var n := |subjects| - 1;
    var front := subjects[..n];
    FamiliesNext(subjects);
    NamesNext(subjects, staged.models, staged.architectures);
    AdoptedIsLoaded(subjects[n]);
    assert forall i :: 0 <= i < n ==> front[i] == subjects[i];
    var x := StageDevice(limits, staged, subjects[n]).value;
    forall id ensures id in x.devices <==> exists i :: 0 <= i < |subjects| && subjects[i].id == id {
      if i :| 0 <= i < |front| && front[i].id == id { assert subjects[i].id == id; }
      if id == subjects[n].id { assert id in x.devices; }
      if i :| 0 <= i < |subjects| && subjects[i].id == id { if i < n { assert front[i].id == id; } }
    }
  }

  lemma SoundNext(limits: Limits, subjects: seq<Subject>, staged: Devices)
    requires subjects != [] && LoadedFrom(staged, subjects[..|subjects| - 1])
    ensures SoundSubjects(limits, subjects) <==>
      SoundSubjects(limits, subjects[..|subjects| - 1]) && StageDevice(limits, staged, subjects[|subjects| - 1]).Some?
  {
    hide FamiliesIn, LoadedAs, Noted, SoundSubject, AreModels, AreArchitectures;
    var n := |subjects| - 1;
    var front := subjects[..n];
    assert forall i :: 0 <= i < n ==> front[i] == subjects[i];
    FamiliesNext(subjects);
    NotedSize(FamiliesIn(front), subjects[n].device.hardware.family);
    StagedNextIff(limits, staged, subjects[n]);
    if SoundSubjects(limits, subjects) {
      assert subjects[n].id !in staged.devices;
    }
  }

  /** The subjects are loaded exactly when they are sound and distinct and their families fit. */
  lemma {:induction false} SubjectsIff(limits: Limits, subjects: seq<Subject>)
    ensures StageDevices(limits, subjects).Some? <==> SoundSubjects(limits, subjects)
    ensures StageDevices(limits, subjects).Some? ==> LoadedFrom(StageDevices(limits, subjects).value, subjects)
  {
    hide LoadedFrom, SoundSubjects, StageDevice;
    if subjects != [] {
      var front := subjects[..|subjects| - 1];
      SubjectsIff(limits, front);
      if StageDevices(limits, front).Some? {
        SoundNext(limits, subjects, StageDevices(limits, front).value);
        if StageDevices(limits, subjects).Some? { LoadedNext(limits, subjects, StageDevices(limits, front).value); }
      } else if SoundSubjects(limits, subjects) {
        SoundFront(limits, subjects);
      }
    } else {
      NoSubjects(limits);
    }
  }

  lemma NoSubjects(limits: Limits)
    ensures SoundSubjects(limits, []) && LoadedFrom(Devices(map[], {}, {}, {}), [])
  {
    assert FamiliesIn([]) == {};
  }

  lemma SoundFront(limits: Limits, subjects: seq<Subject>)
    requires subjects != [] && SoundSubjects(limits, subjects)
    ensures SoundSubjects(limits, subjects[..|subjects| - 1])
  {
    hide FamiliesIn, SoundSubject;
    var front := subjects[..|subjects| - 1];
    assert forall i :: 0 <= i < |front| ==> front[i] == subjects[i];
    FamiliesNext(subjects);
    NotedSize(FamiliesIn(front), subjects[|subjects| - 1].device.hardware.family);
  }

  lemma AdoptedIsLoaded(x: Subject)
    ensures LoadedAs(x, Adopted(x.device))
  {}

  lemma StagedNextIff(limits: Limits, staged: Devices, x: Subject)
    ensures StageDevice(limits, staged, x).Some? <==>
      && SoundSubject(x) && x.id !in staged.devices
      && (x.device.hardware.family == 0 || x.device.hardware.family in staged.families || |staged.families| < limits.maxFamilies)
  {}

  // ---- the history ----------------------------------------------------------------------------

  /** A record that may be loaded by itself. */
  predicate SoundRecordOf(config: Config, devices: map<nat, Device>, r: Record) {
    && ValidRecord(config, r) && r.device in devices && r.deviceGeneration <= devices[r.device].generation
    && r.schema in config.schemas && config.schemas[r.schema].capability == r.capability
  }

  /** Of two records of one key the later is under the same schema and in no earlier generation. */
  predicate Follow(a: Record, b: Record) {
    a.device == b.device && a.capability == b.capability ==>
      a.schema == b.schema && (a.capabilityGeneration != 0 && b.capabilityGeneration != 0 ==> a.capabilityGeneration <= b.capabilityGeneration)
  }

  predicate SoundHistory(config: Config, devices: map<nat, Device>, h: seq<Record>) {
    && (forall i :: 0 <= i < |h| ==> SoundRecordOf(config, devices, h[i]))
    && (forall i, j :: 0 <= i < j < |h| ==> Follow(h[i], h[j]))
  }

  /** What has been staged of a history: each key with its records in that order. */
  ghost predicate KeysCover(keys: map<KeyId, Key>, h: seq<Record>) {
    forall k :: (k in keys <==> exists i :: 0 <= i < |h| && IdOf(h[i]) == k) && (k in keys ==> CoversKey(keys[k], h, k))
  }

  predicate CoversKey(key: Key, h: seq<Record>, k: KeyId) {
    && (forall i :: 0 <= i < |h| && IdOf(h[i]) == k ==> h[i].schema == key.schema && h[i].capabilityGeneration <= key.generation)
    && (key.generation != 0 ==> exists i :: 0 <= i < |h| && IdOf(h[i]) == k && h[i].capabilityGeneration == key.generation)
  }

  /** The records follow those before them. */
  predicate AllFollow(h: seq<Record>) {
    forall i, j :: 0 <= i < j < |h| ==> Follow(h[i], h[j])
  }

  lemma AllFollowNext(h: seq<Record>)
    requires h != []
    ensures AllFollow(h) <==> AllFollow(h[..|h| - 1]) && forall i :: 0 <= i < |h| - 1 ==> Follow(h[i], h[|h| - 1])
  {
    hide Follow;
    var n := |h| - 1;
    var front := h[..n];
    assert forall i :: 0 <= i < n ==> front[i] == h[i];
    if AllFollow(front) && forall i :: 0 <= i < n ==> Follow(h[i], h[n]) {
      forall i, j | 0 <= i < j < |h| ensures Follow(h[i], h[j]) {
        if j < n { assert Follow(front[i], front[j]); }
      }
    }
  }

  /** A record follows all that were staged before it exactly when it fits their key. */
  lemma FollowsIff(front: seq<Record>, keys: map<KeyId, Key>, x: Record)
    requires KeysCover(keys, front)
    ensures (forall i :: 0 <= i < |front| ==> Follow(front[i], x)) <==>
      var key := KeyAt(keys, x);
      key.schema == x.schema && (x.capabilityGeneration != 0 && key.generation != 0 ==> x.capabilityGeneration >= key.generation)
  {
    var k := IdOf(x);
    assert k in keys ==> CoversKey(keys[k], front, k);
    if k !in keys {
      forall i | 0 <= i < |front| ensures IdOf(front[i]) != k {}
    } else if forall i :: 0 <= i < |front| ==> Follow(front[i], x) {
      var i :| 0 <= i < |front| && IdOf(front[i]) == k;
      assert Follow(front[i], x);
      if keys[k].generation != 0 {
        var j :| 0 <= j < |front| && IdOf(front[j]) == k && front[j].capabilityGeneration == keys[k].generation;
        assert Follow(front[j], x);
      }
    }
  }

  lemma SoundHistoryNext(config: Config, devices: map<nat, Device>, h: seq<Record>, keys: map<KeyId, Key>)
    requires h != [] && KeysCover(keys, h[..|h| - 1])
    ensures SoundHistory(config, devices, h) <==>
      SoundHistory(config, devices, h[..|h| - 1]) && Stageable(config, devices, KeyAt(keys, h[|h| - 1]), h[|h| - 1])
  {
    hide ValidRecord, Follow, KeysCover, KeyAt;
    var n := |h| - 1;
    var front, x := h[..n], h[n];
    assert forall i :: 0 <= i < n ==> front[i] == h[i];
    AllFollowNext(h);
    FollowsIff(front, keys, x);
    assert SoundHistory(config, devices, front) <==> AllFollow(front) && forall i :: 0 <= i < n ==> SoundRecordOf(config, devices, h[i]);
  }

  lemma CoverNext(config: Config, devices: map<nat, Device>, h: seq<Record>, keys: map<KeyId, Key>, serial: nat)
    requires h != [] && KeysCover(keys, h[..|h| - 1])
    requires var x := h[|h| - 1]; Stageable(config, devices, KeyAt(keys, x), x)
    ensures var x := h[|h| - 1]; KeysCover(keys[IdOf(x) := StageKey(KeyAt(keys, x), x, serial)], h)
  {
    hide ValidRecord, Supersede;
    var n := |h| - 1;
    var front, x := h[..n], h[n];
    assert forall i :: 0 <= i < n ==> front[i] == h[i];
    var after := keys[IdOf(x) := StageKey(KeyAt(keys, x), x, serial)];
    forall k ensures (k in after <==> exists i :: 0 <= i < |h| && IdOf(h[i]) == k) && (k in after ==> CoversKey(after[k], h, k)) {
      assert k in keys <==> exists i :: 0 <= i < |front| && IdOf(front[i]) == k;
      if i :| 0 <= i < |front| && IdOf(front[i]) == k { assert IdOf(h[i]) == k; }
      if k == IdOf(x) { assert IdOf(h[n]) == k; }
      if k in after { CoversNext(keys, h, k, x, after[k]); }
    }
  }

  lemma CoversNext(keys: map<KeyId, Key>, h: seq<Record>, k: KeyId, x: Record, key: Key)
    requires h != [] && x == h[|h| - 1] && KeysCover(keys, h[..|h| - 1])
    requires if k == IdOf(x) then
        && key.schema == KeyAt(keys, x).schema == x.schema
        && key.generation == (if x.capabilityGeneration != 0 then x.capabilityGeneration else KeyAt(keys, x).generation)
        && (x.capabilityGeneration != 0 && KeyAt(keys, x).generation != 0 ==> x.capabilityGeneration >= KeyAt(keys, x).generation)
      else k in keys && key == keys[k]
    ensures CoversKey(key, h, k)
  {
    var n := |h| - 1;
    var front := h[..n];
    assert forall i :: 0 <= i < n ==> front[i] == h[i];
    assert k in keys ==> CoversKey(keys[k], front, k);
    if key.generation != 0 {
      if k == IdOf(x) && x.capabilityGeneration != 0 {
        assert IdOf(h[n]) == k && h[n].capabilityGeneration == key.generation;
      } else {
        var i :| 0 <= i < |front| && IdOf(front[i]) == k && front[i].capabilityGeneration == key.generation;
        assert h[i] == front[i];
      }
    }
  }

  /**
   * A history is loaded exactly when each record may be loaded by itself and those of one key follow each other; every key then
   * has the schema of its records and the largest of their generations.
   */
  lemma {:induction false} HistoryIff(config: Config, devices: map<nat, Device>, h: seq<Record>, start: nat)
    ensures var g := StageHistory(config, devices, h, start);
      && (g.ok <==> SoundHistory(config, devices, h))
      && (g.ok ==> KeysCover(g.keys, h) && g.nextSerial == start + |h|)
      && start <= g.nextSerial <= start + |h|
  {
    hide SoundHistory, KeysCover, Stageable, StageKey;
    if h == [] {
      NoHistory(config, devices);
    } else {
      var front := h[..|h| - 1];
      var g := StageHistory(config, devices, front, start);
      HistoryIff(config, devices, front, start);
      if g.ok {
        SoundHistoryNext(config, devices, h, g.keys);
        if StageHistory(config, devices, h, start).ok { CoverNext(config, devices, h, g.keys, g.nextSerial + 1); }
      } else if SoundHistory(config, devices, h) {
        SoundHistoryFront(config, devices, h);
      }
    }
  }

  lemma NoHistory(config: Config, devices: map<nat, Device>)
    ensures SoundHistory(config, devices, []) && KeysCover(map[], [])
  {}

  lemma SoundHistoryFront(config: Config, devices: map<nat, Device>, h: seq<Record>)
    requires h != [] && SoundHistory(config, devices, h)
    ensures SoundHistory(config, devices, h[..|h| - 1])
  {
    hide SoundRecordOf, Follow;
    var front := h[..|h| - 1];
    assert forall i :: 0 <= i < |front| ==> front[i] == h[i];
  }

  // ---- platforms, quirks, facts and publishers ---------------------------------------------------

  lemma {:induction false} PlatformsIff(platforms: seq<nat>)
    ensures StagePlatforms(platforms).Some? <==> 0 !in platforms
    ensures StagePlatforms(platforms).Some? ==> forall p :: p in StagePlatforms(platforms).value <==> p in platforms
  {
    if platforms != [] {
      assert platforms == platforms[..|platforms| - 1] + [platforms[|platforms| - 1]];
      PlatformsIff(platforms[..|platforms| - 1]);
    }
  }

  predicate SoundQuirks(config: Config, quirks: seq<Quirk>) {
    && (forall i :: 0 <= i < |quirks| ==> ValidQuirk(config, quirks[i]) && forall c :: c in quirks[i].impacted ==> c in config.bindings)
    && (forall i, j :: 0 <= i < j < |quirks| ==> quirks[i].id != quirks[j].id)
  }

  /** The loaded quirks are those of the list, by identity. */
  ghost predicate QuirksLoaded(staged: map<nat, Quirk>, quirks: seq<Quirk>) {
    && (forall id :: id in staged <==> exists i :: 0 <= i < |quirks| && quirks[i].id == id)
    && (forall i :: 0 <= i < |quirks| ==> quirks[i].id in staged && staged[quirks[i].id] == quirks[i])
  }

  lemma QuirksLoadedNext(quirks: seq<Quirk>, staged: map<nat, Quirk>)
    requires quirks != [] && QuirksLoaded(staged, quirks[..|quirks| - 1]) && quirks[|quirks| - 1].id !in staged
    ensures QuirksLoaded(staged[quirks[|quirks| - 1].id := quirks[|quirks| - 1]], quirks)
  {
    var n := |quirks| - 1;
    var front, next := quirks[..n], staged[quirks[n].id := quirks[n]];
    assert forall i :: 0 <= i < n ==> front[i] == quirks[i];
    forall id ensures id in next <==> exists i :: 0 <= i < |quirks| && quirks[i].id == id {
      if id in staged {
        var i :| 0 <= i < |front| && front[i].id == id;
        assert quirks[i].id == id;
      }
      if i :| 0 <= i < |quirks| && quirks[i].id == id {
        if i < n { assert front[i].id == id; }
      }
    }
  }

  lemma QuirksSoundNext(config: Config, quirks: seq<Quirk>, staged: map<nat, Quirk>)
    requires quirks != [] && QuirksLoaded(staged, quirks[..|quirks| - 1])
    ensures SoundQuirks(config, quirks) <==>
      SoundQuirks(config, quirks[..|quirks| - 1]) && StageQuirk(config, staged, quirks[|quirks| - 1]).Some?
  {
    hide ValidQuirk, ImpactsBound;
    var n := |quirks| - 1;
    var front := quirks[..n];
    assert forall i :: 0 <= i < n ==> front[i] == quirks[i];
    ImpactsBoundIff(config, quirks[n]);
    if quirks[n].id in staged {
      var i :| 0 <= i < |front| && front[i].id == quirks[n].id;
      assert quirks[i].id == quirks[n].id;
    }
    if SoundQuirks(config, front) && quirks[n].id !in staged {
      forall i | 0 <= i < n ensures quirks[i].id != quirks[n].id { assert front[i].id in staged; }
    }
  }

  lemma {:induction false} QuirksIff(config: Config, quirks: seq<Quirk>)
    ensures StageQuirks(config, quirks).Some? <==> SoundQuirks(config, quirks)
    ensures StageQuirks(config, quirks).Some? ==> QuirksLoaded(StageQuirks(config, quirks).value, quirks)
  {
    hide SoundQuirks, QuirksLoaded, StageQuirk;
    if quirks == [] {
      NoQuirks(config);
    } else {
      var front := quirks[..|quirks| - 1];
      QuirksIff(config, front);
      if StageQuirks(config, front).Some? {
        var staged := StageQuirks(config, front).value;
        QuirksSoundNext(config, quirks, staged);
        if StageQuirks(config, quirks).Some? { QuirksStagedNew(config, quirks, staged); }
      } else if SoundQuirks(config, quirks) {
        QuirksFront(config, quirks);
      }
    }
  }

  lemma QuirksStagedNew(config: Config, quirks: seq<Quirk>, staged: map<nat, Quirk>)
    requires quirks != [] && QuirksLoaded(staged, quirks[..|quirks| - 1]) && StageQuirk(config, staged, quirks[|quirks| - 1]).Some?
    ensures QuirksLoaded(StageQuirk(config, staged, quirks[|quirks| - 1]).value, quirks)
  {
    hide QuirksLoaded, ValidQuirk, ImpactsBound;
    QuirksLoadedNext(quirks, staged);
  }

  lemma NoQuirks(config: Config)
    ensures SoundQuirks(config, []) && QuirksLoaded(map[], [])
  {}

  lemma QuirksFront(config: Config, quirks: seq<Quirk>)
    requires quirks != [] && SoundQuirks(config, quirks)
    ensures SoundQuirks(config, quirks[..|quirks| - 1])
  {
    hide ValidQuirk, ImpactsBound;
    var front := quirks[..|quirks| - 1];
    assert forall i :: 0 <= i < |front| ==> front[i] == quirks[i];
  }

  lemma ImpactsBoundIff(config: Config, q: Quirk)
    ensures ImpactsBound(config, q) <==> forall c :: c in q.impacted ==> c in config.bindings
  {
    if forall c :: c in q.impacted ==> c in config.bindings {
      forall i | 0 <= i < |q.impacted| ensures q.impacted[i] in config.bindings { assert q.impacted[i] in q.impacted; }
    }
  }

  predicate SoundFacts(config: Config, x: Subjects, facts: seq<Fact>) {
    && (forall i :: 0 <= i < |facts| ==> ValidFact(config, facts[i]) && BothResolve(x, facts[i]))
    && (forall i, j :: 0 <= i < j < |facts| ==> facts[i].id != facts[j].id)
  }

  /** The loaded facts are those of the list, by identity. */
  ghost predicate FactsLoaded(staged: map<nat, Fact>, facts: seq<Fact>) {
    && (forall id :: id in staged <==> exists i :: 0 <= i < |facts| && facts[i].id == id)
    && (forall i :: 0 <= i < |facts| ==> facts[i].id in staged && staged[facts[i].id] == facts[i])
  }

  lemma FactsLoadedNext(facts: seq<Fact>, staged: map<nat, Fact>)
    requires facts != [] && FactsLoaded(staged, facts[..|facts| - 1]) && facts[|facts| - 1].id !in staged
    ensures FactsLoaded(staged[facts[|facts| - 1].id := facts[|facts| - 1]], facts)
  {
    var n := |facts| - 1;
    var front, next := facts[..n], staged[facts[n].id := facts[n]];
    assert forall i :: 0 <= i < n ==> front[i] == facts[i];
    forall id ensures id in next <==> exists i :: 0 <= i < |facts| && facts[i].id == id {
      if id in staged {
        var i :| 0 <= i < |front| && front[i].id == id;
        assert facts[i].id == id;
      }
      if i :| 0 <= i < |facts| && facts[i].id == id {
        if i < n { assert front[i].id == id; }
      }
    }
  }

  lemma FactsSoundNext(config: Config, x: Subjects, facts: seq<Fact>, staged: map<nat, Fact>)
    requires facts != [] && FactsLoaded(staged, facts[..|facts| - 1])
    ensures SoundFacts(config, x, facts) <==>
      SoundFacts(config, x, facts[..|facts| - 1]) && StageFact(config, x, staged, facts[|facts| - 1]).Some?
  {
    hide ValidFact, BothResolve;
    var n := |facts| - 1;
    var front := facts[..n];
    assert forall i :: 0 <= i < n ==> front[i] == facts[i];
    if facts[n].id in staged {
      var i :| 0 <= i < |front| && front[i].id == facts[n].id;
      assert facts[i].id == facts[n].id;
    }
    if SoundFacts(config, x, front) && facts[n].id !in staged {
      forall i | 0 <= i < n ensures facts[i].id != facts[n].id { assert front[i].id in staged; }
    }
  }

  lemma {:induction false} FactsIff(config: Config, x: Subjects, facts: seq<Fact>)
    ensures StageFacts(config, x, facts).Some? <==> SoundFacts(config, x, facts)
    ensures StageFacts(config, x, facts).Some? ==> FactsLoaded(StageFacts(config, x, facts).value, facts)
  {
    hide SoundFacts, FactsLoaded, StageFact;
    if facts == [] {
      NoFacts(config, x);
    } else {
      var front := facts[..|facts| - 1];
      FactsIff(config, x, front);
      if StageFacts(config, x, front).Some? {
        var staged := StageFacts(config, x, front).value;
        FactsSoundNext(config, x, facts, staged);
        if StageFacts(config, x, facts).Some? { FactsStagedNew(config, x, facts, staged); }
      } else if SoundFacts(config, x, facts) {
        FactsFront(config, x, facts);
      }
    }
  }

  lemma FactsStagedNew(config: Config, x: Subjects, facts: seq<Fact>, staged: map<nat, Fact>)
    requires facts != [] && FactsLoaded(staged, facts[..|facts| - 1]) && StageFact(config, x, staged, facts[|facts| - 1]).Some?
    ensures FactsLoaded(StageFact(config, x, staged, facts[|facts| - 1]).value, facts)
  {
    hide FactsLoaded, ValidFact, BothResolve;
    FactsLoadedNext(facts, staged);
  }

  lemma NoFacts(config: Config, x: Subjects)
    ensures SoundFacts(config, x, []) && FactsLoaded(map[], [])
  {}

  lemma FactsFront(config: Config, x: Subjects, facts: seq<Fact>)
    requires facts != [] && SoundFacts(config, x, facts)
    ensures SoundFacts(config, x, facts[..|facts| - 1])
  {
    hide ValidFact, BothResolve;
    var front := facts[..|facts| - 1];
    assert forall i :: 0 <= i < |front| ==> front[i] == facts[i];
  }

  predicate SoundMarks(marks: seq<Mark>) {
    && (forall i :: 0 <= i < |marks| ==> marks[i].publisher > 0)
    && (forall i, j :: 0 <= i < j < |marks| ==> marks[i].publisher != marks[j].publisher || marks[i].boot != marks[j].boot)
  }

  /** The publisher has the boot of its first mark and the watermark of each. */
  ghost predicate MarkedBy(staged: map<nat, Publisher>, marks: seq<Mark>) {
    && (forall id :: id in staged <==> exists i :: 0 <= i < |marks| && marks[i].publisher == id)
    && (forall id, boot :: id in staged ==>
          (boot in staged[id].watermarks <==> exists i :: 0 <= i < |marks| && marks[i].publisher == id && marks[i].boot == boot))
  }

  lemma MarkedNext(marks: seq<Mark>, staged: map<nat, Publisher>)
    requires marks != [] && MarkedBy(staged, marks[..|marks| - 1]) && StageMark(staged, marks[|marks| - 1]).Some?
    ensures MarkedBy(StageMark(staged, marks[|marks| - 1]).value, marks)
  {
    var n := |marks| - 1;
    var front, m, next := marks[..n], marks[n], StageMark(staged, marks[n]).value;
    assert forall i :: 0 <= i < n ==> front[i] == marks[i];
    forall id ensures id in next <==> exists i :: 0 <= i < |marks| && marks[i].publisher == id {
      if id in staged {
        var i :| 0 <= i < |front| && front[i].publisher == id;
        assert marks[i].publisher == id;
      }
      if i :| 0 <= i < |marks| && marks[i].publisher == id {
        if i < n { assert front[i].publisher == id; }
      }
      if id == m.publisher { assert marks[n].publisher == id; }
    }
    forall id, boot | id in next
      ensures boot in next[id].watermarks <==> exists i :: 0 <= i < |marks| && marks[i].publisher == id && marks[i].boot == boot
    {
      if i :| 0 <= i < |marks| && marks[i].publisher == id && marks[i].boot == boot {
        if i < n { assert front[i].publisher == id && front[i].boot == boot; }
      }
      if id in staged && boot in staged[id].watermarks {
        var i :| 0 <= i < |front| && front[i].publisher == id && front[i].boot == boot;
        assert marks[i].publisher == id && marks[i].boot == boot;
      }
      if id == m.publisher && boot == m.boot { assert marks[n].publisher == id && marks[n].boot == boot; }
    }
  }

  lemma MarksSoundNext(marks: seq<Mark>, staged: map<nat, Publisher>)
    requires marks != [] && MarkedBy(staged, marks[..|marks| - 1])
    ensures SoundMarks(marks) <==> SoundMarks(marks[..|marks| - 1]) && StageMark(staged, marks[|marks| - 1]).Some?
  {
    var n := |marks| - 1;
    var front, m := marks[..n], marks[n];
    assert forall i :: 0 <= i < n ==> front[i] == marks[i];
    if m.publisher in staged && m.boot in staged[m.publisher].watermarks {
      var i :| 0 <= i < |front| && front[i].publisher == m.publisher && front[i].boot == m.boot;
      assert marks[i].publisher == marks[n].publisher && marks[i].boot == marks[n].boot;
    } else {
      forall i | 0 <= i < n ensures marks[i].publisher != m.publisher || marks[i].boot != m.boot {
        assert front[i].publisher == marks[i].publisher && front[i].boot == marks[i].boot;
      }
    }
  }

  lemma {:induction false} MarksIff(marks: seq<Mark>)
    ensures StageMarks(marks).Some? <==> SoundMarks(marks)
    ensures StageMarks(marks).Some? ==> MarkedBy(StageMarks(marks).value, marks)
  {
    hide SoundMarks, MarkedBy, StageMark;
    if marks == [] {
      NoMarks();
    } else {
      var front := marks[..|marks| - 1];
      MarksIff(front);
      if StageMarks(front).Some? {
        MarksSoundNext(marks, StageMarks(front).value);
        if StageMarks(marks).Some? { MarkedNext(marks, StageMarks(front).value); }
      } else if SoundMarks(marks) {
        MarksFront(marks);
      }
    }
  }

  lemma NoMarks()
    ensures SoundMarks([]) && MarkedBy(map[], [])
  {}

  lemma MarksFront(marks: seq<Mark>)
    requires marks != [] && SoundMarks(marks)
    ensures SoundMarks(marks[..|marks| - 1])
  {
    var front := marks[..|marks| - 1];
    assert forall i :: 0 <= i < |front| ==> front[i] == marks[i];
  }

  predicate SoundFences(boots: seq<Boot>) {
    forall i :: 0 <= i < |boots| ==> boots[i].publisher > 0 && boots[i].boot > 0
  }

  ghost predicate NamedOrFenced(staged: map<nat, Publisher>, publishers: map<nat, Publisher>, boots: seq<Boot>) {
    forall id :: id in staged <==> id in publishers || exists i :: 0 <= i < |boots| && boots[i].publisher == id
  }

  lemma {:induction false} FencesIff(publishers: map<nat, Publisher>, boots: seq<Boot>)
    ensures StageFences(publishers, boots).Some? <==> SoundFences(boots)
    ensures StageFences(publishers, boots).Some? ==> NamedOrFenced(StageFences(publishers, boots).value, publishers, boots)
  {
    hide NamedOrFenced;
    if boots == [] {
      NothingFenced(publishers);
    } else {
      var n := |boots| - 1;
      var front := boots[..n];
      assert forall i :: 0 <= i < n ==> front[i] == boots[i];
      FencesIff(publishers, front);
      if StageFences(publishers, boots).Some? { FencedNext(publishers, boots, StageFences(publishers, front).value); }
    }
  }

  lemma NothingFenced(publishers: map<nat, Publisher>)
    ensures NamedOrFenced(publishers, publishers, [])
  {}

  lemma FencedNext(publishers: map<nat, Publisher>, boots: seq<Boot>, staged: map<nat, Publisher>)
    requires boots != [] && NamedOrFenced(staged, publishers, boots[..|boots| - 1]) && StageFence(staged, boots[|boots| - 1]).Some?
    ensures NamedOrFenced(StageFence(staged, boots[|boots| - 1]).value, publishers, boots)
  {
    var n := |boots| - 1;
    var front, after := boots[..n], StageFence(staged, boots[n]).value;
    assert forall i :: 0 <= i < n ==> front[i] == boots[i];
    forall id ensures id in after <==> id in publishers || exists i :: 0 <= i < |boots| && boots[i].publisher == id {
      if i :| 0 <= i < |front| && front[i].publisher == id { assert boots[i].publisher == id; }
      if i :| 0 <= i < |boots| && boots[i].publisher == id {
        if i < n { assert front[i].publisher == id; }
      }
    }
  }

  /** The publishers that are named by a mark or a fenced boot. */
  function PublishersIn(d: Durable): set<nat> {
    (set i | 0 <= i < |d.marks| :: d.marks[i].publisher) + (set i | 0 <= i < |d.fencedBoots| :: d.fencedBoots[i].publisher)
  }

  lemma PublishersIff(limits: Limits, d: Durable)
    ensures StagePublishers(limits, d).Some? <==>
      SoundMarks(d.marks) && SoundFences(d.fencedBoots) && |PublishersIn(d)| <= limits.maxPublishers
  {
    hide SoundMarks, SoundFences, StageMarks, StageFences;
    MarksIff(d.marks);
    if SoundMarks(d.marks) {
      var marked := StageMarks(d.marks).value;
      FencesIff(marked, d.fencedBoots);
      if SoundFences(d.fencedBoots) {
        var staged := StageFences(marked, d.fencedBoots).value;
        forall id ensures id in staged.Keys <==> id in PublishersIn(d) {
          assert id in marked <==> exists i :: 0 <= i < |d.marks| && d.marks[i].publisher == id;
        }
        assert staged.Keys == PublishersIn(d) && |staged.Keys| == |staged|;
      }
    }
  }

  // ---- the whole state -----------------------------------------------------------------------------

  /** What the facts of a state may refer to: its devices, its platforms and what its devices are named by. */
  predicate Refers(d: Durable, r: Reference) {
    && (r.kind == DeviceReference ==> exists i :: 0 <= i < |d.subjects| && d.subjects[i].id == r.token)
    && (r.kind == PlatformReference ==> r.token in d.platforms)
    && (r.kind == FamilyReference ==>
          r.token != 0 && exists i :: 0 <= i < |d.subjects| && d.subjects[i].device.hardware.family == r.token)
    && (r.kind == ModelReference ==>
          r.token != 0 && exists i :: 0 <= i < |d.subjects| && d.subjects[i].device.hardware.model == r.token)
    && (r.kind == ArchitectureReference ==>
          r.token != 0 && exists i :: 0 <= i < |d.subjects| && d.subjects[i].device.hardware.architecture == r.token)
  }

  lemma ResolvesIff(d: Durable, x: Devices, platforms: set<nat>, r: Reference)
    requires LoadedFrom(x, d.subjects) && forall p :: p in platforms <==> p in d.platforms
    ensures Resolves(Loaded(x, platforms), r) <==> Refers(d, r)
  {
    hide LoadedAs;
  }

  /** A quirk of a loaded state may name capabilities that are bound; a fact what the state itself names. */
  predicate SoundState(config: Config, d: Durable) {
    var limits := config.limits;
    && |d.subjects| <= limits.maxDevices && |d.history| <= limits.maxEvidenceHistory && |d.quirks| <= limits.maxQuirks
    && |d.facts| <= limits.maxFacts && |d.marks| <= 64 * limits.maxPublishers
    && SoundSubjects(limits, d.subjects) && 0 !in d.platforms
    && (forall i :: 0 <= i < |d.history| ==> SoundEvidence(config, d, d.history[i]))
    && (forall i, j :: 0 <= i < j < |d.history| ==> Follow(d.history[i], d.history[j]))
    && SoundQuirks(config, d.quirks)
    && (forall i :: 0 <= i < |d.facts| ==> ValidFact(config, d.facts[i]) && Refers(d, d.facts[i].lhs) && Refers(d, d.facts[i].rhs))
    && (forall i, j :: 0 <= i < j < |d.facts| ==> d.facts[i].id != d.facts[j].id)
    && SoundMarks(d.marks) && SoundFences(d.fencedBoots) && |PublishersIn(d)| <= limits.maxPublishers
  }

  /** Evidence about a device of the state, not from a later generation of it, under the schema of its capability. */
  predicate SoundEvidence(config: Config, d: Durable, r: Record) {
    && ValidRecord(config, r) && r.schema in config.schemas && config.schemas[r.schema].capability == r.capability
    && exists i :: 0 <= i < |d.subjects| && d.subjects[i].id == r.device && r.deviceGeneration <= d.subjects[i].device.generation
  }

  lemma EvidenceIff(config: Config, d: Durable, x: Devices, r: Record)
    requires LoadedFrom(x, d.subjects) && SoundSubjects(config.limits, d.subjects)
    ensures SoundRecordOf(config, x.devices, r) <==> SoundEvidence(config, d, r)
  {
    hide ValidRecord, AreModels, AreArchitectures, SoundSubject;
    if r.device in x.devices {
      var i :| 0 <= i < |d.subjects| && d.subjects[i].id == r.device;
      assert LoadedAs(d.subjects[i], x.devices[d.subjects[i].id]);
      forall j | 0 <= j < |d.subjects| && d.subjects[j].id == r.device ensures j == i {}
    }
  }

  lemma SoundHistoryIff(config: Config, d: Durable, x: Devices)
    requires LoadedFrom(x, d.subjects) && SoundSubjects(config.limits, d.subjects)
    ensures SoundHistory(config, x.devices, d.history) <==>
      && (forall i :: 0 <= i < |d.history| ==> SoundEvidence(config, d, d.history[i]))
      && (forall i, j :: 0 <= i < j < |d.history| ==> Follow(d.history[i], d.history[j]))
  {
    hide SoundRecordOf, SoundEvidence, Follow, LoadedFrom, SoundSubjects;
    forall i | 0 <= i < |d.history|
      ensures SoundRecordOf(config, x.devices, d.history[i]) <==> SoundEvidence(config, d, d.history[i])
    {
      EvidenceIff(config, d, x, d.history[i]);
    }
  }

  lemma SoundFactsIff(config: Config, d: Durable, x: Devices, platforms: set<nat>)
    requires LoadedFrom(x, d.subjects) && forall p :: p in platforms <==> p in d.platforms
    ensures SoundFacts(config, Loaded(x, platforms), d.facts) <==>
      && (forall i :: 0 <= i < |d.facts| ==> ValidFact(config, d.facts[i]) && Refers(d, d.facts[i].lhs) && Refers(d, d.facts[i].rhs))
      && (forall i, j :: 0 <= i < j < |d.facts| ==> d.facts[i].id != d.facts[j].id)
  {
    hide ValidFact, Resolves, Refers, LoadedFrom, Loaded;
    forall i | 0 <= i < |d.facts|
      ensures BothResolve(Loaded(x, platforms), d.facts[i]) <==> Refers(d, d.facts[i].lhs) && Refers(d, d.facts[i].rhs)
    {
      ResolvesIff(d, x, platforms, d.facts[i].lhs);
      ResolvesIff(d, x, platforms, d.facts[i].rhs);
    }
  }

  /**
   * A durable state is loaded if and only if it is sound: within the bounds, its devices sound and distinct, its records valid,
   * about its devices and in order, its quirks, facts and marks sound and distinct. Otherwise only the serial counter may move.
   */
  lemma ImportIff(s: State, d: Durable)
    ensures Import(s, d).ok <==> SoundState(s.config, d)
    ensures !Import(s, d).ok ==> var t := Import(s, d).state; t == s.(nextSerial := t.nextSerial) && s.nextSerial <= t.nextSerial <= s.nextSerial + |d.history|
  {
    hide SoundSubjects, SoundEvidence, Follow, SoundQuirks, ValidFact, Refers, SoundMarks, SoundFences, PublishersIn, StageDevices, StagePlatforms,
      StageHistory, StageQuirks, StageFacts, StagePublishers, LoadedFrom, Loaded, SoundHistory, SoundFacts, KeysCover, QuirksLoaded, FactsLoaded, Import;
    var c := s.config;
    ImportSteps(s, d);
    SubjectsIff(c.limits, d.subjects);
    PlatformsIff(d.platforms);
    if SoundSubjects(c.limits, d.subjects) && 0 !in d.platforms {
      var x, platforms := StageDevices(c.limits, d.subjects).value, StagePlatforms(d.platforms).value;
      HistoryIff(c, x.devices, d.history, s.nextSerial);
      SoundHistoryIff(c, d, x);
      QuirksIff(c, d.quirks);
      FactsIff(c, Loaded(x, platforms), d.facts);
      SoundFactsIff(c, d, x, platforms);
      PublishersIff(c.limits, d);
    }
  }

  /** Everything is staged before anything is loaded. */
  lemma ImportSteps(s: State, d: Durable)
    ensures var c, t := s.config, Import(s, d);
      && (!t.ok ==> t.state == s.(nextSerial := t.state.nextSerial))
      && match (StageDevices(c.limits, d.subjects), StagePlatforms(d.platforms))
         case (Some(x), Some(platforms)) =>
           var g := StageHistory(c, x.devices, d.history, s.nextSerial);
           && (t.ok <==>
                 && WithinBounds(c.limits, d) && g.ok && StageQuirks(c, d.quirks).Some?
                 && StageFacts(c, Loaded(x, platforms), d.facts).Some? && StagePublishers(c.limits, d).Some?)
           && (!t.ok ==> t.state.nextSerial == s.nextSerial || t.state.nextSerial == g.nextSerial)
         case _ => !t.ok && t.state == s
  {
    hide WithinBounds, StageDevices, StagePlatforms, StageHistory, StageQuirks, StageFacts, StagePublishers, IndexOf, QueueOf, Bury, Loaded;
  }

  // ---- what is loaded ---------------------------------------------------------------------------------

  /** Entries come key by key, and those of one key with increasing serials. */
  predicate EntryBefore(a: Entry, b: Entry) {
    || a.key.0 < b.key.0 || (a.key.0 == b.key.0 && a.key.1 < b.key.1) || (a.key == b.key && a.serial < b.serial)
  }

  /** The serials of a key increase in the order in which its records are stored. */
  predicate Rising(records: seq<Stored>) {
    forall i, j :: 0 <= i < j < |records| ==> records[i].serial < records[j].serial
  }

  ghost predicate AllRising(keys: map<KeyId, Key>) {
    forall k :: k in keys ==> Rising(keys[k].records)
  }

  predicate Below(records: seq<Stored>, serial: nat) {
    forall i :: 0 <= i < |records| ==> records[i].serial <= serial
  }

  lemma StageKeyRises(key: Key, r: Record, serial: nat)
    requires Rising(key.records) && Below(key.records, serial)
    ensures var after := StageKey(key, r, serial + 1); Rising(after.records) && Below(after.records, serial + 1)
  {}

  lemma {:induction false} StagedRises(config: Config, devices: map<nat, Device>, h: seq<Record>, start: nat)
    ensures var g := StageHistory(config, devices, h, start);
      AllRising(g.keys) && forall k :: k in g.keys ==> Below(g.keys[k].records, g.nextSerial)
  {
    hide Stageable, StageKey, Rising;
    if h != [] {
      var n := |h| - 1;
      var g := StageHistory(config, devices, h[..n], start);
      StagedRises(config, devices, h[..n], start);
      NothingRises();
      StageKeyRises(KeyAt(g.keys, h[n]), h[n], g.nextSerial);
    }
  }

  lemma NothingRises()
    ensures Rising([])
  {}

  /** The entries of exactly the stored records. */
  ghost predicate EntriesFor(queue: seq<Entry>, keys: map<KeyId, Key>) {
    forall e :: e in queue <==> HasSerial(keys, e)
  }

  predicate HasSerial(keys: map<KeyId, Key>, e: Entry) {
    e.key in keys && exists i :: 0 <= i < |keys[e.key].records| && keys[e.key].records[i].serial == e.serial
  }

  predicate QueueInOrder(queue: seq<Entry>) {
    forall i, j :: 0 <= i < j < |queue| ==> EntryBefore(queue[i], queue[j])
  }

  /** The rebuilt queue holds the entries of exactly the stored records, in order. */
  lemma {:induction false} QueueIsExact(keys: map<KeyId, Key>)
    requires AllRising(keys)
    ensures EntriesFor(QueueOf(keys), keys) && QueueInOrder(QueueOf(keys))
    decreases |keys|
  {
    hide Rising, EntriesFor, QueueInOrder, EntriesOf;
    if keys == map[] {
      NoEntries();
    } else {
      var k := LeastKey(keys.Keys);
      var rest := keys - {k};
      QueueIsExact(rest);
      EntriesAreExact(k, keys[k].records);
      QueueFromFirst(keys, k, EntriesOf(k, keys[k].records), QueueOf(rest));
    }
  }

  lemma NoEntries()
    ensures EntriesFor([], map[]) && QueueInOrder([])
  {}

  lemma QueueFromFirst(keys: map<KeyId, Key>, k: KeyId, first: seq<Entry>, later: seq<Entry>)
    requires k in keys && forall j :: j in keys ==> k.0 < j.0 || (k.0 == j.0 && k.1 <= j.1)
    requires EntriesFor(later, keys - {k}) && QueueInOrder(later)
    requires forall e :: e in first <==> e.key == k && exists i :: 0 <= i < |keys[k].records| && keys[k].records[i].serial == e.serial
    requires (forall i :: 0 <= i < |first| ==> first[i].key == k) && QueueInOrder(first)
    ensures EntriesFor(first + later, keys) && QueueInOrder(first + later)
  {
    forall e ensures e in first + later <==> HasSerial(keys, e) {
      assert e in later <==> HasSerial(keys - {k}, e);
    }
    forall i, j | 0 <= i < j < |first + later| ensures EntryBefore((first + later)[i], (first + later)[j]) {
      if i < |first| <= j {
        assert later[j - |first|] in later;
        assert HasSerial(keys - {k}, later[j - |first|]);
      }
    }
  }

  lemma EntriesAreExact(k: KeyId, records: seq<Stored>)
    requires Rising(records)
    ensures var es := EntriesOf(k, records);
      && (forall e :: e in es <==> e.key == k && exists i :: 0 <= i < |records| && records[i].serial == e.serial)
      && (forall i :: 0 <= i < |es| ==> es[i].key == k) && QueueInOrder(es)
  {
    var es := EntriesOf(k, records);
    forall e: Entry | e.key == k && exists i :: 0 <= i < |records| && records[i].serial == e.serial ensures e in es {
      var i :| 0 <= i < |records| && records[i].serial == e.serial;
      assert es[i] == e;
    }
  }

  /**
   * A loaded key stands under the schema of its records and the largest of their generations; every stored record is queued,
   * and the queue is in order; the index lists the keys; the epoch is the larger one.
   */
  lemma LoadedIsExact(s: State, d: Durable, k: KeyId)
    requires Import(s, d).ok
    ensures var t := Import(s, d).state;
      && (k in t.keys <==> exists i :: 0 <= i < |d.history| && IdOf(d.history[i]) == k)
      && (k in t.keys ==> CoversKey(t.keys[k], d.history, k))
      && EntriesFor(t.queue, t.keys) && QueueInOrder(t.queue)
      && (k in t.keys <==> k.0 in t.deviceKeys && k.1 in t.deviceKeys[k.0])
      && t.epoch == (if d.epoch > s.epoch then d.epoch else s.epoch)
      && t.evidenceCount == |d.history| && t.nextSerial == s.nextSerial + |d.history|
      && t.config == s.config && t.shuttingDown == s.shuttingDown
  {
    hide StageDevices, StagePlatforms, StageHistory, StageRest, WithinBounds, KeysCover, CoversKey, IndexOf, QueueOf, Bury, SoundHistory, AllRising, Below, EntriesFor, QueueInOrder;
    var x := StageDevices(s.config.limits, d.subjects).value;
    HistoryIff(s.config, x.devices, d.history, s.nextSerial);
    StagedRises(s.config, x.devices, d.history, s.nextSerial);
    var keys := StageHistory(s.config, x.devices, d.history, s.nextSerial).keys;
    KeyIsCovered(keys, d.history, k);
    QueueIsExact(keys);
    IndexIsExact(keys, k.0, k.1);
    assert k == (k.0, k.1);
  }

  lemma KeyIsCovered(keys: map<KeyId, Key>, h: seq<Record>, k: KeyId)
    requires KeysCover(keys, h)
    ensures (k in keys <==> exists i :: 0 <= i < |h| && IdOf(h[i]) == k) && (k in keys ==> CoversKey(keys[k], h, k))
  {
    hide CoversKey;
  }

  /** A publisher comes back dead, with every boot it had fenced and the numbers of its last boot; its own fence does not. */
  lemma PublisherAfterRestart(s: State, f: State, d: Durable, id: nat)
    requires Inv(s) && Bound(s.config) && IsExport(s, d) && f.config == s.config && Import(f, d).ok
    ensures var t := Import(f, d).state;
      && (id in t.publishers <==> id in s.publishers)
      && (id in s.publishers ==>
            var p, q := s.publishers[id], t.publishers[id];
            && q.state == Dead && !q.fenced && q.boot == p.boot && q.epoch == 0 && q.lastSequence == 0
            && q.maxEvidenceGeneration == p.maxEvidenceGeneration && q.fingerprints == map[]
            && (forall b :: b in q.fencedBoots <==> 1 <= b <= p.boot)
            && (forall b :: b in q.watermarks <==> b == p.boot)
            && q.watermarks[p.boot] == Watermark(p.lastSequence, p.maxEvidenceGeneration))
  {
    hide Inv, Bound, IsExport, Import, BareRecords, Known, PublishersOk;
    ImportOfExport(s, f, d);
    PublisherWas(s, id);
  }

  // ---- the fence of a publisher ---------------------------------------------------------------------

  predicate FencedPublisher(s: State, id: nat) { id in s.publishers && s.publishers[id].fenced }

  lemma {:induction false} FenceLasts(run: Run, i: nat, j: nat, id: nat)
    requires Behaviour(run) && SameProcess(run, i, j) && FencedPublisher(run.states[i], id)
    ensures FencedPublisher(run.states[j], id)
  {
    hide StepAt, KeysGrow, DevicesGrow, WatermarkOf;
    RunGrows(run, i, j);
  }

  /** While the process lives, a fenced publisher is refused under whatever boot. */
  lemma FencedIsRefused(run: Run, i: nat, j: nat, id: nat)
    requires Behaviour(run) && SameProcess(run, i, j) && j < |run.ops| && FencedPublisher(run.states[i], id)
    requires Registers(run.ops[j], id) || (run.ops[j].Publish? && run.ops[j].publication.publisher.id == id)
    ensures !IsAccepted(run.replies[j].code) && run.states[j + 1] == run.states[j]
  {
    hide Inv, Bound, Allowed, Sequenced, Validated, Unbound;
    FenceLasts(run, i, j, id);
    assert StepAt(run, j);
    FencedRegistration(run.states[j], id);
  }

  lemma FencedRegistration(s: State, id: nat)
    requires FencedPublisher(s, id)
    ensures forall identity: Identity, adapter: string :: identity.id == id ==>
      !IsAccepted(RegisterPublisher(s, identity, adapter).reply.code) && RegisterPublisher(s, identity, adapter).state == s
  {}

  /** A restart forgets the fence: right after it the publisher may register again, under its next boot. */
  lemma RestartForgetsFence(run: Run, m: nat, id: nat, adapter: string)
    requires Behaviour(run) && m < |run.ops| && run.ops[m].RestartFrom? && FencedPublisher(run.states[m], id)
    requires SoundAdapter(run.states[m].config, adapter)
    ensures var t := run.states[m + 1]; var o := RegisterPublisher(t, Identity(id, 0, 0), adapter);
      && o.reply.code == Accepted && o.reply.identity.boot == run.states[m].publishers[id].boot + 1
      && Authoritative(o.state.publishers, id, o.reply.identity.boot)
  {
    hide Inv, Bound, IsExport, Import, PublishersOk;
    RunKeeps(run, m);
    RunKeeps(run, m + 1);
    assert StepAt(run, m);
    var s, t := run.states[m], run.states[m + 1];
    PublisherAfterRestart(s, Fresh(s.config), run.ops[m].durable, id);
    PublisherNonzero(s, id);
    RegistrationIsExact(t, Identity(id, 0, 0), adapter);
  }

  lemma PublisherNonzero(s: State, id: nat)
    requires Inv(s) && id in s.publishers
    ensures id != 0
  {
    hide Inv, PublisherOk;
    PublishersWere(s);
  }
}
