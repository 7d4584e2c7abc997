// Writing and reading the durable state (src/registry.cpp:2420-2820), loop by
// loop, against the definitions of export and import.
module Persistence {
  import opened Basics
  import opened Model
  import opened Steps
  import opened Eviction
  import opened Invariants
  import opened Restart
  import opened Recovery
  import opened Validation

  // ---- export -----------------------------------------------------------------------------

  method ExportSubjects(devices: map<nat, Device>) returns (subjects: seq<Subject>)
    ensures SubjectsExported(devices, subjects)
  {
    subjects := [];
    var todo := devices.Keys;
    while todo != {}
      invariant todo <= devices.Keys && |subjects| + |todo| == |devices|
      invariant forall i :: 0 <= i < |subjects| ==>
        subjects[i].id in devices && subjects[i].id !in todo && devices[subjects[i].id] == subjects[i].device
      invariant forall i, id :: 0 <= i < |subjects| && id in todo ==> subjects[i].id < id
      invariant forall i, j :: 0 <= i < j < |subjects| ==> subjects[i].id < subjects[j].id
      invariant forall id :: id in devices && id !in todo ==> Subject(id, devices[id]) in subjects
      decreases |todo|
    {
      ghost var least := MinOf(todo);
      assert least in todo;
      var id :| id in todo && forall other :: other in todo ==> id <= other;
      subjects := subjects + [Subject(id, devices[id])];
      todo := todo - {id};
    }
  }

  method ExportQuirks(quirks: map<nat, Quirk>) returns (written: seq<Quirk>)
    requires forall id :: id in quirks ==> quirks[id].id == id
    ensures QuirksExported(quirks, written)
  {
    written := [];
    var todo := quirks.Keys;
    while todo != {}
      invariant todo <= quirks.Keys && |written| + |todo| == |quirks|
      invariant forall i :: 0 <= i < |written| ==> written[i].id in quirks && written[i].id !in todo && quirks[written[i].id] == written[i]
      invariant forall i, id :: 0 <= i < |written| && id in todo ==> written[i].id < id
      invariant forall i, j :: 0 <= i < j < |written| ==> written[i].id < written[j].id
      invariant forall id :: id in quirks && id !in todo ==> quirks[id] in written
      decreases |todo|
    {
      ghost var least := MinOf(todo);
      assert least in todo;
      var id :| id in todo && forall other :: other in todo ==> id <= other;
      written := written + [quirks[id]];
      todo := todo - {id};
    }
  }

  method ExportFacts(facts: map<nat, Fact>) returns (written: seq<Fact>)
    requires forall id :: id in facts ==> facts[id].id == id
    ensures FactsExported(facts, written)
  {
    written := [];
    var todo := facts.Keys;
    while todo != {}
      invariant todo <= facts.Keys && |written| + |todo| == |facts|
      invariant forall i :: 0 <= i < |written| ==> written[i].id in facts && written[i].id !in todo && facts[written[i].id] == written[i]
      invariant forall i, id :: 0 <= i < |written| && id in todo ==> written[i].id < id
      invariant forall i, j :: 0 <= i < j < |written| ==> written[i].id < written[j].id
      invariant forall id :: id in facts && id !in todo ==> facts[id] in written
      decreases |todo|
    {
      ghost var least := MinOf(todo);
      assert least in todo;
      var id :| id in todo && forall other :: other in todo ==> id <= other;
      written := written + [facts[id]];
      todo := todo - {id};
    }
  }

  method ExportPlatforms(platforms: set<nat>) returns (written: seq<nat>)
    ensures PlatformsExported(platforms, written)
  {
    written := [];
    var todo := platforms;
    while todo != {}
      invariant todo <= platforms
      invariant forall i :: 0 <= i < |written| ==> written[i] in platforms
      invariant forall i, p :: 0 <= i < |written| && p in todo ==> written[i] < p
      invariant forall i, j :: 0 <= i < j < |written| ==> written[i] < written[j]
      invariant forall p :: p in platforms && p !in todo ==> p in written
      decreases |todo|
    {
      ghost var least := MinOf(todo);
      assert least in todo;
      var p :| p in todo && forall other :: other in todo ==> p <= other;
      written := written + [p];
      todo := todo - {p};
    }
  }

  /** The fenced boots of one publisher that are written. */
  method ExportFences(publishers: map<nat, Publisher>, id: nat, before: seq<Boot>) returns (fenced: seq<Boot>)
    requires id in publishers && publishers[id].boot != 0
    requires publishers[id].fenced ==> publishers[id].boot in publishers[id].fencedBoots
    ensures forall b :: b in fenced <==> b in before || (b.publisher == id && IsExportedFence(publishers, id, b.boot))
  {
    var p := publishers[id];
    fenced := before;
    var todo := p.fencedBoots;
    while todo != {}
      invariant todo <= p.fencedBoots
      invariant forall b :: b in fenced <==>
        b in before || (b.publisher == id && b.boot in p.fencedBoots && b.boot !in todo && b.boot != p.boot)
      decreases |todo|
    {
      var boot :| boot in todo;
      todo := todo - {boot};
      if boot == p.boot { continue; }
      fenced := fenced + [Boot(id, boot)];
    }
    if p.fenced { fenced := fenced + [Boot(id, p.boot)]; }
  }

  method ExportPublishers(publishers: map<nat, Publisher>) returns (marks: seq<Mark>, fenced: seq<Boot>)
    requires forall id :: id in publishers ==> PublisherOk(publishers[id])
    ensures PublishersExported(publishers, marks, fenced)
  {
    hide PublisherOk, IsExportedFence;
    OnlyPublishersFence(publishers);
    marks, fenced := [], [];
    var todo := publishers.Keys;
    while todo != {}
      invariant todo <= publishers.Keys && |marks| + |todo| == |publishers|
      invariant forall i :: 0 <= i < |marks| ==>
        marks[i].publisher in publishers && marks[i].publisher !in todo
        && marks[i] == MarkOf(marks[i].publisher, publishers[marks[i].publisher])
      invariant forall i, id :: 0 <= i < |marks| && id in todo ==> marks[i].publisher < id
      invariant forall i, j :: 0 <= i < j < |marks| ==> marks[i].publisher < marks[j].publisher
      invariant forall id :: id in publishers && id !in todo ==> MarkOf(id, publishers[id]) in marks
      invariant forall b :: b in fenced <==> b.publisher !in todo && IsExportedFence(publishers, b.publisher, b.boot)
      decreases |todo|
    {
      ghost var least := MinOf(todo);
      assert least in todo;
      var id :| id in todo && forall other :: other in todo ==> id <= other;
      FencedPublisher(publishers[id]);
      marks := marks + [MarkOf(id, publishers[id])];
      fenced := ExportFences(publishers, id, fenced);
      todo := todo - {id};
    }
  }

  lemma OnlyPublishersFence(publishers: map<nat, Publisher>)
    ensures forall b: Boot :: IsExportedFence(publishers, b.publisher, b.boot) ==> b.publisher in publishers
  {}

  lemma FencedPublisher(p: Publisher)
    requires PublisherOk(p)
    ensures p.boot != 0 && (p.fenced ==> p.boot in p.fencedBoots)
  {}

  lemma NotLessTransitive(a: Record, b: Record, c: Record)
    requires !HistoryLess(b, a) && !HistoryLess(c, b)
    ensures !HistoryLess(c, a)
  {}

  method InsertHistory(h: seq<Record>, r: Record) returns (more: seq<Record>)
    requires HistorySorted(h)
    ensures HistorySorted(more) && multiset(more) == multiset(h) + multiset{r}
  {
    hide HistoryLess;
    var i := |h|;
    while i > 0 && HistoryLess(r, h[i - 1])
      invariant 0 <= i <= |h|
      invariant forall j :: i <= j < |h| ==> HistoryLess(r, h[j])
    {
      i := i - 1;
    }
    more := h[..i] + [r] + h[i..];
    assert h == h[..i] + h[i..];
    forall j | 0 <= j < i ensures !HistoryLess(r, h[j]) {
      if j < i - 1 { NotLessTransitive(h[j], h[i - 1], r); }
    }
    forall j | i <= j < |h| ensures !HistoryLess(h[j], r) { LessIsStrict(r, h[j]); }
    InsertedIsSorted(h, i, r);
  }

  lemma LessIsStrict(a: Record, b: Record)
    ensures HistoryLess(a, b) ==> !HistoryLess(b, a)
  {}

  lemma InsertedIsSorted(h: seq<Record>, i: nat, r: Record)
    requires HistorySorted(h) && i <= |h|
    requires forall j :: 0 <= j < i ==> !HistoryLess(r, h[j])
    requires forall j :: i <= j < |h| ==> !HistoryLess(h[j], r)
    ensures HistorySorted(h[..i] + [r] + h[i..])
  {
    hide HistoryLess;
    var more := h[..i] + [r] + h[i..];
    forall x, y | 0 <= x < y < |more| ensures !HistoryLess(more[y], more[x]) {
      if x < i {
        if y > i { assert more[y] == h[y - 1]; }
      } else if x == i {
        assert more[y] == h[y - 1];
      } else {
        assert more[x] == h[x - 1] && more[y] == h[y - 1];
      }
    }
  }

  method SortHistory(h: seq<Record>) returns (sorted: seq<Record>)
    ensures HistorySorted(sorted) && multiset(sorted) == multiset(h)
  {
    sorted := [];
    for i := 0 to |h|
      invariant HistorySorted(sorted) && multiset(sorted) == multiset(h[..i])
    {
      assert h[..i + 1] == h[..i] + [h[i]];
      sorted := InsertHistory(sorted, h[i]);
    }
    assert h[..|h|] == h;
  }

  lemma {:induction false} AllRecordsRemove(keys: map<KeyId, Key>, k: KeyId)
    requires k in keys
    ensures AllRecords(keys) == multiset(BareRecords(keys[k].records)) + AllRecords(keys - {k})
    decreases |keys|
  {
    hide BareRecords;
    var p := PickKey(keys);
    if p != k {
      var rest, other := keys - {p}, keys - {k};
      AllRecordsRemove(rest, k);
      AllRecordsRemove(other, p);
      assert rest - {k} == other - {p};
    }
  }

  method ExportHistory(keys: map<KeyId, Key>) returns (history: seq<Record>)
    ensures multiset(history) == AllRecords(keys) && HistorySorted(history)
  {
    hide HistorySorted;
    history := [];
    var left := keys;
    while left != map[]
      invariant multiset(history) + AllRecords(left) == AllRecords(keys)
      decreases |left|
    {
      var k :| k in left;
      AllRecordsRemove(left, k);
      var records := left[k].records;
      ghost var before := history;
      for i := 0 to |records|
        invariant history == before + BareRecords(records)[..i]
      {
        history := history + [records[i].record];
      }
      assert BareRecords(records)[..|records|] == BareRecords(records);
      left := left - {k};
    }
    history := SortHistory(history);
  }

  // ---- import -------------------------------------------------------------------------------

  method ImportSubjects(limits: Limits, subjects: seq<Subject>) returns (staged: Option<Devices>)
    ensures staged == StageDevices(limits, subjects)
  {
    hide StageDevice;
    staged := Some(Devices(map[], {}, {}, {}));
    for i := 0 to |subjects|
      invariant staged == StageDevices(limits, subjects[..i]) && staged.Some?
    {
      assert subjects[..i + 1][..i] == subjects[..i];
      var next := ImportSubject(limits, staged.value, subjects[i]);
      if next == None {
        StagingStops(limits, subjects, i + 1);
        return None;
      }
      staged := next;
    }
    assert subjects[..|subjects|] == subjects;
  }

  lemma {:induction false} StagingStops(limits: Limits, subjects: seq<Subject>, n: nat)
    requires n <= |subjects| && StageDevices(limits, subjects[..n]) == None
    ensures StageDevices(limits, subjects) == None
    decreases |subjects| - n
  {
    if n < |subjects| {
      assert subjects[..n + 1][..n] == subjects[..n];
      StagingStops(limits, subjects, n + 1);
    } else {
      assert subjects[..n] == subjects;
    }
  }

  method ImportSubject(limits: Limits, staged: Devices, x: Subject) returns (next: Option<Devices>)
    ensures next == StageDevice(limits, staged, x)
  {
    if x.id == 0 || x.device.incarnation == 0 { return None; }
    if x.device.generation == 0 || x.device.boot == 0 { return None; }
    var valid := ValidateHardware(x.device.hardware);
    if !valid { return None; }
    var device := x.device;
    if device.platformGeneration == 0 { device := device.(platformGeneration := 1); }
    if x.id in staged.devices { return None; }
    var h := device.hardware;
    var families, models, architectures := staged.families, staged.models, staged.architectures;
    if h.family != 0 {
      if |families| >= limits.maxFamilies && h.family !in families { return None; }
      families := families + {h.family};
    }
    if h.model != 0 { models := models + {h.model}; }
    if h.architecture != 0 { architectures := architectures + {h.architecture}; }
    return Some(Devices(staged.devices[x.id := device], families, models, architectures));
  }

  method ImportPlatforms(platforms: seq<nat>) returns (staged: Option<set<nat>>)
    ensures staged == StagePlatforms(platforms)
  {
    var known: set<nat> := {};
    for i := 0 to |platforms|
      invariant Some(known) == StagePlatforms(platforms[..i])
    {
      assert platforms[..i + 1][..i] == platforms[..i];
      if platforms[i] == 0 {
        PlatformsStop(platforms, i + 1);
        return None;
      }
      known := known + {platforms[i]};
    }
    assert platforms[..|platforms|] == platforms;
    return Some(known);
  }

  lemma {:induction false} PlatformsStop(platforms: seq<nat>, n: nat)
    requires n <= |platforms| && StagePlatforms(platforms[..n]) == None
    ensures StagePlatforms(platforms) == None
    decreases |platforms| - n
  {
    if n < |platforms| {
      assert platforms[..n + 1][..n] == platforms[..n];
      PlatformsStop(platforms, n + 1);
    } else {
      assert platforms[..n] == platforms;
    }
  }

  /** Reads the history; the serial counter is the registry's own and moves with every record read. */
  method ImportHistory(config: Config, devices: map<nat, Device>, history: seq<Record>, start: nat) returns (g: Staging)
    ensures g == StageHistory(config, devices, history, start)
  {
    hide Stageable, StageKey;
    g := Staging(map[], start, true);
    for i := 0 to |history|
      invariant g == StageHistory(config, devices, history[..i], start) && g.ok
    {
      assert history[..i + 1][..i] == history[..i];
      var record := history[i];
      var key := if IdOf(record) in g.keys then g.keys[IdOf(record)] else Key(record.schema, 0, false, []);
      var stageable := CheckStageable(config, devices, key, record);
      if !stageable {
        g := g.(ok := false);
        HistoryStops(config, devices, history, start, i + 1);
        return;
      }
      key := ImportRecord(key, record, g.nextSerial + 1);
      g := Staging(g.keys[IdOf(record) := key], g.nextSerial + 1, true);
    }
    assert history[..|history|] == history;
  }

  lemma {:induction false} HistoryStops(config: Config, devices: map<nat, Device>, history: seq<Record>, start: nat, n: nat)
    requires n <= |history| && !StageHistory(config, devices, history[..n], start).ok
    ensures StageHistory(config, devices, history, start) == StageHistory(config, devices, history[..n], start)
    decreases |history| - n
  {
    hide Stageable, StageKey;
    if n < |history| {
      assert history[..n + 1][..n] == history[..n];
      HistoryStops(config, devices, history, start, n + 1);
    } else {
      assert history[..n] == history;
    }
  }

  method CheckStageable(config: Config, devices: map<nat, Device>, key: Key, r: Record) returns (ok: bool)
    ensures ok <==> Stageable(config, devices, key, r)
  {
    hide ValidRecord;
    ok := ValidateRecord(config, r);
    if !ok { return; }
    if r.device !in devices { return false; }
    if r.schema !in config.schemas { return false; }
    if config.schemas[r.schema].capability != r.capability { return false; }
    if r.deviceGeneration > devices[r.device].generation { return false; }
    if key.schema != r.schema { return false; }
    if r.capabilityGeneration != 0 && key.generation != 0 && r.capabilityGeneration < key.generation { return false; }
  }

  method ImportRecord(key: Key, r: Record, serial: nat) returns (after: Key)
    ensures after == StageKey(key, r, serial)
  {
    var generation := if r.capabilityGeneration != 0 then r.capabilityGeneration else key.generation;
    var slot := ImportSlot(r);
    var superseded := false;
    for i := 0 to |key.records|
      invariant !superseded ==> forall j :: 0 <= j < i ==> key.records[j].slot != slot
    {
      if key.records[i].slot == slot { superseded := true; }
    }
    var records := key.records;
    if superseded {
      for i := 0 to |records|
        invariant |records| == |key.records|
        invariant forall x :: 0 <= x < |records| ==>
          records[x] == if x < i && key.records[x].slot == slot then key.records[x].(superseded := true) else key.records[x]
      {
        if records[i].slot == slot { records := records[i := records[i].(superseded := true)]; }
      }
    }
    assert records == Supersede(key.records, slot);
    after := Key(key.schema, generation, true, records + [Stored(r, false, slot, serial)]);
  }

  method ImportQuirks(config: Config, quirks: seq<Quirk>) returns (staged: Option<map<nat, Quirk>>)
    ensures staged == StageQuirks(config, quirks)
  {
    hide ValidQuirk;
    staged := Some(map[]);
    for i := 0 to |quirks|
      invariant staged == StageQuirks(config, quirks[..i]) && staged.Some?
    {
      assert quirks[..i + 1][..i] == quirks[..i];
      var valid := ValidateQuirk(config, quirks[i]);
      if !valid || !ImpactsBound(config, quirks[i]) || quirks[i].id in staged.value {
        QuirksStop(config, quirks, i + 1);
        return None;
      }
      staged := Some(staged.value[quirks[i].id := quirks[i]]);
    }
    assert quirks[..|quirks|] == quirks;
  }

  lemma {:induction false} QuirksStop(config: Config, quirks: seq<Quirk>, n: nat)
    requires n <= |quirks| && StageQuirks(config, quirks[..n]) == None
    ensures StageQuirks(config, quirks) == None
    decreases |quirks| - n
  {
    hide StageQuirk;
    if n < |quirks| {
      assert quirks[..n + 1][..n] == quirks[..n];
      QuirksStop(config, quirks, n + 1);
    } else {
      assert quirks[..n] == quirks;
    }
  }

  method ImportFacts(config: Config, x: Subjects, facts: seq<Fact>) returns (staged: Option<map<nat, Fact>>)
    ensures staged == StageFacts(config, x, facts)
  {
    hide ValidFact, Resolves;
    staged := Some(map[]);
    for i := 0 to |facts|
      invariant staged == StageFacts(config, x, facts[..i]) && staged.Some?
    {
      assert facts[..i + 1][..i] == facts[..i];
      var valid := ValidateFact(config, facts[i]);
      if !valid || !Resolves(x, facts[i].lhs) || !Resolves(x, facts[i].rhs) || facts[i].id in staged.value {
        FactsStop(config, x, facts, i + 1);
        return None;
      }
      staged := Some(staged.value[facts[i].id := facts[i]]);
    }
    assert facts[..|facts|] == facts;
  }

  lemma {:induction false} FactsStop(config: Config, x: Subjects, facts: seq<Fact>, n: nat)
    requires n <= |facts| && StageFacts(config, x, facts[..n]) == None
    ensures StageFacts(config, x, facts) == None
    decreases |facts| - n
  {
    hide StageFact;
    if n < |facts| {
      assert facts[..n + 1][..n] == facts[..n];
      FactsStop(config, x, facts, n + 1);
    } else {
      assert facts[..n] == facts;
    }
  }

  method ImportMarks(marks: seq<Mark>) returns (staged: Option<map<nat, Publisher>>)
    ensures staged == StageMarks(marks)
  {
    staged := Some(map[]);
    for i := 0 to |marks|
      invariant staged == StageMarks(marks[..i]) && staged.Some?
    {
      assert marks[..i + 1][..i] == marks[..i];
      var mark := marks[i];
      if mark.publisher == 0 {
        MarksStop(marks, i + 1);
        return None;
      }
      var publisher := if mark.publisher in staged.value then staged.value[mark.publisher]
                       else Unlisted.(boot := mark.boot, maxEvidenceGeneration := mark.maxEvidenceGeneration);
      if mark.boot in publisher.watermarks {
        MarksStop(marks, i + 1);
        return None;
      }
      publisher := publisher.(watermarks := publisher.watermarks[mark.boot := Watermark(mark.maxSequence, mark.maxEvidenceGeneration)]);
      staged := Some(staged.value[mark.publisher := publisher]);
    }
    assert marks[..|marks|] == marks;
  }

  lemma {:induction false} MarksStop(marks: seq<Mark>, n: nat)
    requires n <= |marks| && StageMarks(marks[..n]) == None
    ensures StageMarks(marks) == None
    decreases |marks| - n
  {
    hide StageMark;
    if n < |marks| {
      assert marks[..n + 1][..n] == marks[..n];
      MarksStop(marks, n + 1);
    } else {
      assert marks[..n] == marks;
    }
  }

  method ImportFences(publishers: map<nat, Publisher>, boots: seq<Boot>) returns (staged: Option<map<nat, Publisher>>)
    ensures staged == StageFences(publishers, boots)
  {
    staged := Some(publishers);
    for i := 0 to |boots|
      invariant staged == StageFences(publishers, boots[..i]) && staged.Some?
    {
      assert boots[..i + 1][..i] == boots[..i];
      var b := boots[i];
      if b.publisher == 0 || b.boot == 0 {
        FencesStop(publishers, boots, i + 1);
        return None;
      }
      var publisher := if b.publisher in staged.value then staged.value[b.publisher] else Unlisted;
      staged := Some(staged.value[b.publisher := publisher.(fencedBoots := publisher.fencedBoots + {b.boot})]);
    }
    assert boots[..|boots|] == boots;
  }

  lemma {:induction false} FencesStop(publishers: map<nat, Publisher>, boots: seq<Boot>, n: nat)
    requires n <= |boots| && StageFences(publishers, boots[..n]) == None
    ensures StageFences(publishers, boots) == None
    decreases |boots| - n
  {
    hide StageFence;
    if n < |boots| {
      assert boots[..n + 1][..n] == boots[..n];
      FencesStop(publishers, boots, n + 1);
    } else {
      assert boots[..n] == boots;
    }
  }

  method BuryAll(publishers: map<nat, Publisher>) returns (buried: map<nat, Publisher>)
    ensures buried == Bury(publishers)
  {
    hide Buried;
    buried := publishers;
    var todo := publishers.Keys;
    while todo != {}
      invariant todo <= publishers.Keys && buried.Keys == publishers.Keys
      invariant forall id :: id in publishers ==> buried[id] == if id in todo then publishers[id] else Buried(publishers[id])
      decreases |todo|
    {
      var id :| id in todo;
      var one := BuryOne(buried[id]);
      buried := buried[id := one];
      todo := todo - {id};
    }
    assert buried == Bury(publishers);
  }

  method BuryOne(p: Publisher) returns (q: Publisher)
    ensures q == Buried(p)
  {
    q := p;
    if q.boot != 0 { q := q.(fencedBoots := q.fencedBoots + {q.boot}); }
    q := q.(state := Dead);
  }

  /** Rebuilds the per-device index. */
  method RebuildIndex(keys: map<KeyId, Key>) returns (deviceKeys: map<nat, set<nat>>)
    ensures deviceKeys == IndexOf(keys)
  {
    hide IndexOf;
    deviceKeys := map[];
    ghost var done: map<KeyId, Key> := map[];
    var left := keys;
    IndexEmpty();
    while left != map[]
      invariant forall k :: k in keys <==> k in left || k in done
      invariant forall k :: k in left ==> k in keys && left[k] == keys[k]
      invariant forall k :: k in done ==> k in keys && done[k] == keys[k]
      invariant deviceKeys == IndexOf(done)
      decreases |left|
    {
      var k :| k in left;
      IndexAdd(done, k, keys[k]);
      var owned := if k.0 in deviceKeys then deviceKeys[k.0] else {};
      deviceKeys := deviceKeys[k.0 := owned + {k.1}];
      done := done[k := keys[k]];
      left := left - {k};
    }
    assert done == keys;
  }

  /** Rebuilds the eviction queue, key by key in ascending order. */
  method RebuildQueue(keys: map<KeyId, Key>) returns (queue: seq<Entry>)
    ensures queue == QueueOf(keys)
  {
    hide EntriesOf;
    queue := [];
    var left := keys;
    while left != map[]
      invariant queue + QueueOf(left) == QueueOf(keys)
      decreases |left|
    {
      ghost var least := LeastKey(left.Keys);
      assert least in left;
      var k :| k in left && forall j :: j in left ==> k.0 < j.0 || (k.0 == j.0 && k.1 <= j.1);
      assert k == least;
      var entries := ListEntries(k, left[k].records);
      assert queue + (entries + QueueOf(left - {k})) == (queue + entries) + QueueOf(left - {k});
      queue := queue + entries;
      left := left - {k};
    }
  }

  method ListEntries(k: KeyId, records: seq<Stored>) returns (entries: seq<Entry>)
    ensures entries == EntriesOf(k, records)
  {
    entries := [];
    for i := 0 to |records|
      invariant entries == EntriesOf(k, records)[..i]
    {
      entries := entries + [Entry(k, records[i].serial)];
    }
  }

  lemma IndexEmpty()
    ensures IndexOf(map[]) == map[]
  {}

  lemma IndexAdd(keys: map<KeyId, Key>, k: KeyId, key: Key)
    ensures var index := IndexOf(keys);
      IndexOf(keys[k := key]) == index[k.0 := (if k.0 in index then index[k.0] else {}) + {k.1}]
  {
    hide DevicesIn, CapabilitiesIn;
    var after := keys[k := key];
    assert after.Keys == keys.Keys + {k};
    DevicesAdd(keys.Keys, k);
    if k.0 !in DevicesIn(keys.Keys) { NoCapabilities(keys.Keys, k.0); }
    var index, more := IndexOf(keys), IndexOf(after);
    var expected := index[k.0 := (if k.0 in index then index[k.0] else {}) + {k.1}];
    assert more.Keys == expected.Keys;
    forall d | d in more ensures more[d] == expected[d] {
      CapabilitiesAdd(keys.Keys, k, d);
    }
  }

  lemma DevicesAdd(keys: set<KeyId>, k: KeyId)
    ensures DevicesIn(keys + {k}) == DevicesIn(keys) + {k.0}
  {
    assert k in keys + {k};
    forall d | d in DevicesIn(keys) ensures d in DevicesIn(keys + {k}) {
      var j :| j in keys && j.0 == d;
      assert j in keys + {k};
    }
  }

  lemma CapabilitiesAdd(keys: set<KeyId>, k: KeyId, d: nat)
    ensures CapabilitiesIn(keys + {k}, d) == CapabilitiesIn(keys, d) + if d == k.0 then {k.1} else {}
  {
    assert k in keys + {k};
    forall c | c in CapabilitiesIn(keys, d) ensures c in CapabilitiesIn(keys + {k}, d) {
      var j :| j in keys && j.0 == d && j.1 == c;
      assert j in keys + {k};
    }
  }

  lemma NoCapabilities(keys: set<KeyId>, d: nat)
    requires d !in DevicesIn(keys)
    ensures CapabilitiesIn(keys, d) == {}
  {}
}
