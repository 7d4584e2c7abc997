// Bounded retention (src/registry.cpp:779-842): what eviction may remove, what
// it never touches, and that nothing a query answers from current evidence
// depends on it.
module Eviction {
  import opened Basics
  import C = Conditions
  import opened Model
  import opened Steps

  /** Along a source slot serials increase, and every record that is not the newest carries the flag. */
  predicate Ordered(records: seq<Stored>) {
    forall i, j :: 0 <= i < j < |records| && records[i].slot == records[j].slot ==>
      records[i].serial < records[j].serial && records[i].superseded
  }

  predicate AllOrdered(keys: map<KeyId, Key>) {
    forall k :: k in keys ==> Ordered(keys[k].records)
  }

  /** What eviction leaves alone: the newest record of every slot, and every candidate of every query. */
  ghost predicate Thinned(before: seq<Stored>, after: seq<Stored>) {
    && |after| <= |before|
    && Ordered(after)
    && (forall st :: st in after ==> st in before)
    && (forall slot :: Latest(after, slot) == Latest(before, slot))
    && (forall s, d, target :: Candidates(s, after, d, target) == Candidates(s, before, d, target))
  }

  ghost predicate AllThinned(before: map<KeyId, Key>, after: map<KeyId, Key>) {
    && before.Keys == after.Keys
    && forall k :: k in before ==>
         after[k] == before[k].(records := after[k].records) && Thinned(before[k].records, after[k].records)
  }

  // ---- one record ---------------------------------------------------------------------

  lemma SupersededCarriesFlag(records: seq<Stored>, i: nat)
    requires Ordered(records) && i < |records| && Superseded(records, i)
    ensures records[i].superseded
  {
    var j :| 0 <= j < |records| && j != i && records[j].slot == records[i].slot && records[j].serial > records[i].serial;
    assert i < j;
  }

  lemma {:induction false} CandidatesAppend(s: State, a: seq<Stored>, b: seq<Stored>, d: Device, target: nat)
    ensures Candidates(s, a + b, d, target) == Candidates(s, a, d, target) + Candidates(s, b, d, target)
    decreases |b|
  {
    hide Current;
    if b == [] {
      assert a + b == a;
    } else {
      var front := b[..|b| - 1];
      assert (a + b)[..|a + b| - 1] == a + front;
      CandidatesAppend(s, a, front, d, target);
    }
  }

  lemma {:induction false} NoCandidates(s: State, records: seq<Stored>, d: Device, target: nat)
    requires forall st :: st in records ==> !Current(s, st, d, target)
    ensures Candidates(s, records, d, target) == []
  {
    hide Current;
    if records != [] { NoCandidates(s, records[..|records| - 1], d, target); }
  }

  lemma CandidatesWithout(s: State, records: seq<Stored>, i: nat, d: Device, target: nat)
    requires i < |records| && records[i].superseded
    ensures Candidates(s, Erase(records, i), d, target) == Candidates(s, records, d, target)
  {
    var a, x, b := records[..i], [records[i]], records[i + 1..];
    assert HasFlag(s, records[i], d, target, SupersededByNewerEvidence);
    assert x[..0] == [];
    assert Candidates(s, x, d, target) == [];
    assert records == a + x + b;
    CandidatesAppend(s, a + x, b, d, target);
    CandidatesAppend(s, a, x, d, target);
    CandidatesAppend(s, a, b, d, target);
  }

  /** The last record of a slot is its newest one. */
  lemma {:induction false} LatestIsLast(records: seq<Stored>, slot: Slot, m: int)
    requires Ordered(records) && -1 <= m < |records|
    requires 0 <= m ==> records[m].slot == slot
    requires forall j :: m < j < |records| ==> records[j].slot != slot
    ensures Latest(records, slot) == if m == -1 then None else Some(records[m])
    decreases |records|
  {
    if records != [] {
      var front := records[..|records| - 1];
      if m < |records| - 1 {
        LatestIsLast(front, slot, m);
      } else {
        var p := LastOf(front, slot);
        LatestIsLast(front, slot, p);
      }
    }
  }

  ghost function LastOf(records: seq<Stored>, slot: Slot): (m: int)
    ensures -1 <= m < |records|
    ensures 0 <= m ==> records[m].slot == slot
    ensures forall j :: m < j < |records| ==> records[j].slot != slot
  {
    if records == [] then -1
    else if records[|records| - 1].slot == slot then |records| - 1
    else LastOf(records[..|records| - 1], slot)
  }

  lemma LatestWithout(records: seq<Stored>, i: nat, slot: Slot)
    requires Ordered(records) && i < |records| && Superseded(records, i) && Ordered(Erase(records, i))
    ensures Latest(Erase(records, i), slot) == Latest(records, slot)
  {
    var m := LastOf(records, slot);
    var j :| 0 <= j < |records| && j != i && records[j].slot == records[i].slot && records[j].serial > records[i].serial;
    assert m != i;
    LatestIsLast(records, slot, m);
    var after := Erase(records, i);
    LatestIsLast(after, slot, if m < i then m else m - 1);
  }

  lemma EraseOrdered(records: seq<Stored>, i: nat)
    requires Ordered(records) && i < |records|
    ensures Ordered(Erase(records, i))
  {
    var after := Erase(records, i);
    forall a, b | 0 <= a < b < |after| && after[a].slot == after[b].slot
      ensures after[a].serial < after[b].serial && after[a].superseded
    {
      var x, y := if a < i then a else a + 1, if b < i then b else b + 1;
      assert after[a] == records[x] && after[b] == records[y];
    }
  }

  lemma Erased(records: seq<Stored>, i: nat)
    requires Ordered(records) && i < |records| && Superseded(records, i)
    ensures Thinned(records, Erase(records, i))
  {
    hide Superseded, Candidates, Latest;
    EraseOrdered(records, i);
    SupersededCarriesFlag(records, i);
    var after := Erase(records, i);
    forall slot ensures Latest(after, slot) == Latest(records, slot) { LatestWithout(records, i, slot); }
    forall s, d, target ensures Candidates(s, after, d, target) == Candidates(s, records, d, target) {
      CandidatesWithout(s, records, i, d, target);
    }
  }

  // ---- trimming one key -------------------------------------------------------------------

  lemma {:induction false} TrimKeyThins(records: seq<Stored>, cap: nat)
    requires Ordered(records)
    ensures Thinned(records, TrimKey(records, cap))
    ensures |TrimKey(records, cap)| > cap ==>
              forall i :: 0 <= i < |TrimKey(records, cap)| ==> !Superseded(TrimKey(records, cap), i)
    decreases |records|
  {
    hide Superseded, Candidates, Latest, Ordered, Erase;
    if |records| > cap {
      var v := Victim(records, |records|);
      if v < |records| {
        Erased(records, v);
        TrimKeyThins(Erase(records, v), cap);
      }
    }
  }

  /** The record a trim removes is the oldest of those a newer record of the same slot has replaced. */
  lemma {:induction false} VictimIsOldest(records: seq<Stored>, n: nat)
    requires n <= |records|
    ensures var v := Victim(records, n);
      v < |records| ==> forall i :: 0 <= i < n && Superseded(records, i) ==> records[v].serial <= records[i].serial
  {
    hide Superseded;
    if n > 0 { VictimIsOldest(records, n - 1); }
  }

  // ---- counting -------------------------------------------------------------------------------

  lemma {:induction false} TotalRemove(keys: map<KeyId, Key>, k: KeyId)
    requires k in keys
    ensures Total(keys) == |keys[k].records| + Total(keys - {k})
    decreases |keys|
  {
    var p := PickKey(keys);
    if p != k {
      var rest := keys - {p};
      assert k in rest;
      TotalRemove(rest, k);
      var other := keys - {k};
      assert p in other;
      TotalRemove(other, p);
      assert rest - {k} == other - {p};
    }
  }

  lemma TotalSet(keys: map<KeyId, Key>, k: KeyId, key: Key)
    ensures k in keys ==> Total(keys[k := key]) == Total(keys) - |keys[k].records| + |key.records|
    ensures k !in keys ==> Total(keys[k := key]) == Total(keys) + |key.records|
  {
    hide Total;
    var after := keys[k := key];
    TotalRemove(after, k);
    if k in keys {
      TotalRemove(keys, k);
      assert after - {k} == keys - {k};
    } else {
      assert after - {k} == keys;
    }
  }

  // ---- the global queue ---------------------------------------------------------------------------

  /** A key over its cap retains only the newest records of its slots. */
  predicate OverCapOnlyByNewest(keys: map<KeyId, Key>, cap: nat) {
    forall k :: k in keys && |keys[k].records| > cap ==>
      forall i :: 0 <= i < |keys[k].records| ==> !Superseded(keys[k].records, i)
  }

  lemma EvictThins(keys: map<KeyId, Key>, e: Entry, cap: nat)
    requires AllOrdered(keys) && Evictable(keys, e) && OverCapOnlyByNewest(keys, cap)
    ensures AllThinned(keys, Evict(keys, e)) && AllOrdered(Evict(keys, e)) && OverCapOnlyByNewest(Evict(keys, e), cap)
    ensures Total(Evict(keys, e)) == Total(keys) - 1
  {
    hide Superseded, Candidates, Latest, Find, Total, Erase;
    var key := keys[e.key];
    var i := Find(key.records, e.serial, 0);
    Erased(key.records, i);
    TotalSet(keys, e.key, key.(records := Erase(key.records, i)));
    ThinnedReflexive(keys);
  }

  lemma ThinnedReflexive(keys: map<KeyId, Key>)
    requires AllOrdered(keys)
    ensures AllThinned(keys, keys)
  {
    hide Ordered, Latest, Candidates;
  }

  lemma ThinnedTransitive(a: map<KeyId, Key>, b: map<KeyId, Key>, c: map<KeyId, Key>)
    requires AllThinned(a, b) && AllThinned(b, c)
    ensures AllThinned(a, c)
  {
    hide Ordered, Latest, Candidates;
    forall k | k in a ensures c[k] == a[k].(records := c[k].records) && Thinned(a[k].records, c[k].records) {
      assert k in b;
    }
  }

  lemma {:induction false} DrainThins(r: Retention, max: nat, cap: nat)
    requires AllOrdered(r.keys) && OverCapOnlyByNewest(r.keys, cap)
    ensures var t := Drain(r, max);
      && AllThinned(r.keys, t.keys) && AllOrdered(t.keys) && OverCapOnlyByNewest(t.keys, cap)
      && t.count - Total(t.keys) == r.count - Total(r.keys) && t.count <= r.count
      && (t.count < max || t.queue == [])
    decreases |r.queue|
  {
    hide Evictable, Evict, Total, OverCapOnlyByNewest, Superseded, AllOrdered, Thinned, Find, Erase;
    if r.count < max || r.queue == [] {
      ThinnedReflexive(r.keys);
    } else {
      var e := r.queue[0];
      if Evictable(r.keys, e) {
        EvictThins(r.keys, e, cap);
        var next := Evict(r.keys, e);
        DrainThins(Retention(next, r.queue[1..], r.count - 1), max, cap);
        ThinnedTransitive(r.keys, next, Drain(r, max).keys);
      } else {
        DrainThins(r.(queue := r.queue[1..]), max, cap);
      }
    }
  }

  // ---- the whole step ---------------------------------------------------------------------------------

  lemma TrimKeysThins(keys: map<KeyId, Key>, cap: nat)
    requires AllOrdered(keys)
    ensures var t := TrimKeys(keys, cap); AllThinned(keys, t) && AllOrdered(t) && OverCapOnlyByNewest(t, cap)
  {
    hide Ordered, Latest, Candidates, TrimKey, Superseded;
    forall k | k in keys
      ensures Thinned(keys[k].records, TrimKey(keys[k].records, cap))
      ensures |TrimKey(keys[k].records, cap)| > cap ==>
              forall i :: 0 <= i < |TrimKey(keys[k].records, cap)| ==> !Superseded(TrimKey(keys[k].records, cap), i)
    {
      TrimKeyThins(keys[k].records, cap);
    }
  }

  lemma {:induction false} TotalThinned(before: map<KeyId, Key>, after: map<KeyId, Key>)
    requires AllThinned(before, after)
    ensures Total(after) <= Total(before)
    decreases |before|
  {
    hide Ordered, Latest, Candidates;
    if before != map[] {
      var k := PickKey(before);
      TotalRemove(after, k);
      assert |after[k].records| <= |before[k].records|;
      assert AllThinned(before - {k}, after - {k});
      TotalThinned(before - {k}, after - {k});
    } else {
      assert after == map[];
    }
  }

  /** Eviction keeps the count exact, thins every key, and leaves a key over its cap only by newest records. */
  lemma EvictionIsExact(s: State)
    requires AllOrdered(s.keys) && s.evidenceCount == Total(s.keys)
    ensures var t := EvictIfNeeded(s);
      && t == s.(keys := t.keys, queue := t.queue, evidenceCount := t.evidenceCount)
      && AllThinned(s.keys, t.keys) && AllOrdered(t.keys)
      && t.evidenceCount == Total(t.keys) && t.evidenceCount <= s.evidenceCount
      && OverCapOnlyByNewest(t.keys, KeyCap(s.config))
  {
    hide Drain, Total, AllThinned, OverCapOnlyByNewest, TrimKeys;
    var cap := KeyCap(s.config);
    var trimmed := TrimKeys(s.keys, cap);
    TrimKeysThins(s.keys, cap);
    TotalThinned(s.keys, trimmed);
    var r := Retention(trimmed, s.queue, Total(trimmed));
    DrainThins(r, s.config.limits.maxEvidenceHistory, cap);
    ThinnedTransitive(s.keys, trimmed, Drain(r, s.config.limits.maxEvidenceHistory).keys);
  }

  // ---- what queries see -----------------------------------------------------------------------------------

  lemma {:induction false} CandidatesDependOn(s: State, t: State, records: seq<Stored>, d: Device, target: nat)
    requires s.publishers == t.publishers && s.epoch == t.epoch
    ensures Candidates(s, records, d, target) == Candidates(t, records, d, target)
  {
    if records != [] {
      var last := records[|records| - 1];
      CandidatesDependOn(s, t, records[..|records| - 1], d, target);
      assert forall f: Flag :: HasFlag(s, last, d, target, f) == HasFlag(t, last, d, target, f);
    }
  }

  lemma {:induction false} GatherDependsOn(
    s: State, t: State, ids: seq<nat>, n: nat, device: nat, d: Device, capability: nat, facts: C.Facts)
    requires s.quirks == t.quirks && s.config == t.config
    requires forall i :: 0 <= i < |ids| ==> ids[i] in s.quirks
    ensures Gather(s, ids, n, device, d, capability, facts) == Gather(t, ids, n, device, d, capability, facts)
  {
    hide Gathered, Judge;
    if ids != [] {
      GatherDependsOn(s, t, ids[1..], n, device, d, capability, facts);
      GatherDependsOn(s, t, ids[1..], n + 1, device, d, capability, facts);
    }
  }

  /** Where there is a candidate the answer is a function of the candidates; where there is none it is not current. */
  lemma AnswerDependsOn(s: State, t: State, device: nat, capability: nat, pinned: nat, facts: C.Facts, ids: seq<nat>)
    requires device in s.devices && s.devices == t.devices
    requires (device, capability) in s.keys && (device, capability) in t.keys
    requires s.quirks == t.quirks && s.config == t.config && forall i :: 0 <= i < |ids| ==> ids[i] in s.quirks
    requires var a, b := s.keys[(device, capability)], t.keys[(device, capability)];
      var d := s.devices[device]; var target := Target(d, pinned);
      a.schema == b.schema && a.generation == b.generation
      && Candidates(s, a.records, d, target) == Candidates(t, b.records, d, target)
    ensures var d := s.devices[device];
      var before, after := ResolveKey(s, device, capability, pinned, facts, ids), ResolveKey(t, device, capability, pinned, facts, ids);
      if Candidates(s, s.keys[(device, capability)].records, d, Target(d, pinned)) != [] then before == after
      else before.effective == NotCurrent && after.effective == NotCurrent && !after.current
           && after.contradiction == NeedsRevalidation && after.capabilityGeneration == before.capabilityGeneration
  {
    hide Candidates, Gather, Classify, Winner, Newest, AllFlags, C.Evaluate, Effective, C.Describe;
    GatherDependsOn(s, t, ids, 0, device, s.devices[device], capability, facts);
  }

  /** Where there is current evidence, no answer at all depends on whether eviction has happened. */
  lemma EvictionIsInvisible(s: State, device: nat, capability: nat, pinned: nat, facts: C.Facts, ids: seq<nat>)
    requires AllOrdered(s.keys) && s.evidenceCount == Total(s.keys)
    requires device in s.devices && (device, capability) in s.keys
    requires forall i :: 0 <= i < |ids| ==> ids[i] in s.quirks
    ensures var d := s.devices[device]; var t := EvictIfNeeded(s); var k := (device, capability);
      var before := ResolveKey(s, device, capability, pinned, facts, ids);
      var after := ResolveKey(t, device, capability, pinned, facts, ids);
      && (Candidates(s, s.keys[k].records, d, Target(d, pinned)) != [] ==> before == after)
      && (Candidates(s, s.keys[k].records, d, Target(d, pinned)) == [] ==>
            before.effective == NotCurrent && after.effective == NotCurrent && !after.current
            && after.contradiction == NeedsRevalidation && after.capabilityGeneration == before.capabilityGeneration)
  {
    hide EvictIfNeeded, Candidates, ResolveKey, Ordered, Latest, Total, OverCapOnlyByNewest;
    var d, t, k := s.devices[device], EvictIfNeeded(s), (device, capability);
    EvictionIsExact(s);
    assert Thinned(s.keys[k].records, t.keys[k].records);
    CandidatesDependOn(s, t, t.keys[k].records, d, Target(d, pinned));
    AnswerDependsOn(s, t, device, capability, pinned, facts, ids);
  }
}
