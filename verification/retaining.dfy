// How far eviction goes (src/registry.cpp:784-842): it takes the oldest replaced
// records first, only what the bounds ask for, and forgets the oldest entries of
// the queue.
module Retaining {
  import opened Basics
  import opened Model
  import opened Steps
  import opened Eviction

  // ---- one key ---------------------------------------------------------------------------

  lemma StillSuperseded(records: seq<Stored>, v: nat, i: nat)
    requires v < |records| && i < |records| - 1 && Superseded(Erase(records, v), i)
    ensures Superseded(records, if i < v then i else i + 1)
  {
    var after := Erase(records, v);
    var j :| 0 <= j < |after| && j != i && after[j].slot == after[i].slot && after[j].serial > after[i].serial;
    assert after[j] == records[if j < v then j else j + 1];
  }

  /** The least serial is below that of every replaced record. */
  predicate BelowReplaced(serial: nat, records: seq<Stored>) {
    forall i :: 0 <= i < |records| && Superseded(records, i) ==> serial <= records[i].serial
  }

  lemma BelowAfterErase(serial: nat, records: seq<Stored>, v: nat)
    requires v < |records| && BelowReplaced(serial, records)
    ensures BelowReplaced(serial, Erase(records, v))
  {
    hide Superseded;
    var after := Erase(records, v);
    forall i | 0 <= i < |after| && Superseded(after, i) ensures serial <= after[i].serial {
      StillSuperseded(records, v, i);
      assert after[i] == records[if i < v then i else i + 1];
    }
  }

  lemma {:induction false} BelowAfterTrim(serial: nat, records: seq<Stored>, cap: nat)
    requires BelowReplaced(serial, records)
    ensures BelowReplaced(serial, TrimKey(records, cap))
    decreases |records|
  {
    hide BelowReplaced, Superseded, Erase;
    if |records| > cap {
      var v := Victim(records, |records|);
      if v < |records| {
        BelowAfterErase(serial, records, v);
        BelowAfterTrim(serial, Erase(records, v), cap);
      }
    }
  }

  lemma KeptByErase(records: seq<Stored>, v: nat, st: Stored)
    requires v < |records| && st in records && st != records[v]
    ensures st in Erase(records, v)
  {
    var i :| 0 <= i < |records| && records[i] == st;
    assert Erase(records, v)[if i < v then i else i - 1] == st;
  }

  lemma {:induction false} TrimmedIsOlder(records: seq<Stored>, cap: nat, st: Stored)
    requires st in records && st !in TrimKey(records, cap)
    ensures BelowReplaced(st.serial, TrimKey(records, cap))
    decreases |records|
  {
    hide BelowReplaced, Superseded, Erase;
    var v := Victim(records, |records|);
    VictimIsOldest(records, |records|);
    if st != records[v] {
      KeptByErase(records, v, st);
      TrimmedIsOlder(Erase(records, v), cap, st);
    } else {
      OldestIsBelow(records, v);
      BelowAfterErase(st.serial, records, v);
      BelowAfterTrim(st.serial, Erase(records, v), cap);
    }
  }

  lemma OldestIsBelow(records: seq<Stored>, v: nat)
    requires v < |records| && forall i :: 0 <= i < |records| && Superseded(records, i) ==> records[v].serial <= records[i].serial
    ensures BelowReplaced(records[v].serial, records)
  {
    hide Superseded;
  }

  lemma {:induction false} TrimStops(records: seq<Stored>, cap: nat)
    ensures |records| <= cap ==> TrimKey(records, cap) == records
    ensures |records| > cap ==> |TrimKey(records, cap)| >= cap
    decreases |records|
  {
    hide Superseded;
    if |records| > cap {
      var v := Victim(records, |records|);
      if v < |records| { TrimStops(Erase(records, v), cap); }
    }
  }

  /** A trim takes nothing from a key within its cap, never goes below the cap, and takes the oldest replaced records first. */
  lemma TrimTakesOldest(records: seq<Stored>, cap: nat)
    ensures var kept := TrimKey(records, cap);
      && (|records| <= cap ==> kept == records) && (|records| > cap ==> |kept| >= cap)
      && forall st, i :: st in records && st !in kept && 0 <= i < |kept| && Superseded(kept, i) ==> st.serial <= kept[i].serial
  {
    hide Superseded, TrimKey;
    TrimStops(records, cap);
    forall st | st in records && st !in TrimKey(records, cap) ensures BelowReplaced(st.serial, TrimKey(records, cap)) {
      TrimmedIsOlder(records, cap, st);
    }
  }

  // ---- the queue ---------------------------------------------------------------------------

  predicate Has(keys: map<KeyId, Key>, k: KeyId, st: Stored) { k in keys && st in keys[k].records }

  /** The record is named by one of the entries. */
  predicate Named(entries: seq<Entry>, k: KeyId, st: Stored) { Entry(k, st.serial) in entries }

  lemma EvictTakesNamed(keys: map<KeyId, Key>, e: Entry, k: KeyId, st: Stored)
    requires Evictable(keys, e) && Has(keys, k, st) && !Has(Evict(keys, e), k, st)
    ensures e == Entry(k, st.serial)
  {
    var records := keys[e.key].records;
    var i := Find(records, e.serial, 0);
    if k == e.key && st != records[i] { KeptByErase(records, i, st); }
  }

  /** Only records that these entries name are taken. */
  ghost predicate TakesNamed(before: map<KeyId, Key>, after: map<KeyId, Key>, entries: seq<Entry>) {
    forall k, st :: Has(before, k, st) && !Has(after, k, st) ==> Named(entries, k, st)
  }

  /** The queue is drained from its front, only while the history is full, and only records named by what was drained are taken. */
  lemma {:induction false} DrainTakesFromFront(r: Retention, max: nat) returns (n: nat)
    ensures n <= |r.queue| && Drain(r, max).queue == r.queue[n..]
    ensures r.count < max ==> Drain(r, max) == r
    ensures r.count >= max ==> Drain(r, max).count >= max - 1 && (Drain(r, max).count >= max ==> n == |r.queue|)
    ensures TakesNamed(r.keys, Drain(r, max).keys, r.queue[..n])
    decreases |r.queue|
  {
    hide Evictable, Evict, TakesNamed;
    if r.count < max || r.queue == [] {
      n := 0;
      NothingTaken(r.keys, r.queue[..0]);
    } else {
      var e := r.queue[0];
      assert forall m: nat :: m <= |r.queue[1..]| ==> r.queue[1..][m..] == r.queue[m + 1..];
      if Evictable(r.keys, e) {
        var next := Retention(Evict(r.keys, e), r.queue[1..], r.count - 1);
        n := DrainTakesFromFront(next, max);
        NamedByMore(r, next, Drain(next, max), n);
      } else {
        var next := r.(queue := r.queue[1..]);
        n := DrainTakesFromFront(next, max);
        NamedByMore(r, next, Drain(next, max), n);
      }
      n := n + 1;
    }
  }

  lemma NothingTaken(keys: map<KeyId, Key>, entries: seq<Entry>)
    ensures TakesNamed(keys, keys, entries)
  {}

  lemma NamedByMore(r: Retention, next: Retention, t: Retention, n: nat)
    requires r.queue != [] && next.queue == r.queue[1..] && n <= |next.queue| && TakesNamed(next.keys, t.keys, next.queue[..n])
    requires next.keys == if Evictable(r.keys, r.queue[0]) then Evict(r.keys, r.queue[0]) else r.keys
    ensures TakesNamed(r.keys, t.keys, r.queue[..n + 1])
  {
    hide Evictable, Evict, Has, Named;
    forall k, st | Has(r.keys, k, st) && !Has(t.keys, k, st) ensures Named(r.queue[..n + 1], k, st) {
      if !Has(next.keys, k, st) {
        EvictTakesNamed(r.keys, r.queue[0], k, st);
        NamedFirst(r.queue, n + 1, k, st);
      } else {
        NamedLater(r.queue, n, k, st);
      }
    }
  }

  lemma NamedFirst(queue: seq<Entry>, n: nat, k: KeyId, st: Stored)
    requires 1 <= n <= |queue| && queue[0] == Entry(k, st.serial)
    ensures Named(queue[..n], k, st)
  {
    assert queue[..n][0] == queue[0];
  }

  lemma NamedLater(queue: seq<Entry>, n: nat, k: KeyId, st: Stored)
    requires n < |queue| && Named(queue[1..][..n], k, st)
    ensures Named(queue[..n + 1], k, st)
  {
    var i :| 0 <= i < n && queue[1..][..n][i] == Entry(k, st.serial);
    assert queue[..n + 1][i + 1] == Entry(k, st.serial);
  }

  /** The first record of the key with this serial, and a newer one of its slot. */
  predicate IsReplaced(keys: map<KeyId, Key>, e: Entry) {
    && e.key in keys
    && exists i, j :: 0 <= i < |keys[e.key].records| && 0 <= j < |keys[e.key].records|
         && keys[e.key].records[i].serial == e.serial && (forall n :: 0 <= n < i ==> keys[e.key].records[n].serial != e.serial)
         && keys[e.key].records[j].slot == keys[e.key].records[i].slot && keys[e.key].records[j].serial > e.serial
  }

  lemma {:induction false} FindIsFirst(records: seq<Stored>, serial: nat, i: nat)
    requires i <= |records|
    ensures var p := Find(records, serial, i); i <= p && forall n :: i <= n < p ==> records[n].serial != serial
    decreases |records| - i
  {
    if i < |records| && records[i].serial != serial { FindIsFirst(records, serial, i + 1); }
  }

  /** An entry may be evicted exactly when the record it names has been replaced by a newer one of its source. */
  lemma EvictableIff(keys: map<KeyId, Key>, e: Entry)
    ensures Evictable(keys, e) <==> IsReplaced(keys, e)
  {
    if e.key in keys {
      var records := keys[e.key].records;
      FindIsFirst(records, e.serial, 0);
      if IsReplaced(keys, e) {
        var i, j :| 0 <= i < |records| && 0 <= j < |records| && records[i].serial == e.serial
          && (forall n :: 0 <= n < i ==> records[n].serial != e.serial) && records[j].slot == records[i].slot && records[j].serial > e.serial;
        assert Find(records, e.serial, 0) == i;
      }
    }
  }

  /** No two records of a key have the same serial. */
  predicate UniqueSerials(keys: map<KeyId, Key>) {
    forall k, i, j :: k in keys && 0 <= i < j < |keys[k].records| ==> keys[k].records[i].serial != keys[k].records[j].serial
  }

  lemma ErasedAt(records: seq<Stored>, v: nat, i: nat)
    requires v < |records| && i < |records| - 1
    ensures Erase(records, v)[i] == records[if i < v then i else i + 1]
  {}

  lemma UniqueAfterEvict(keys: map<KeyId, Key>, e: Entry)
    requires UniqueSerials(keys) && Evictable(keys, e)
    ensures UniqueSerials(Evict(keys, e)) && !Evictable(Evict(keys, e), e)
  {
    hide Superseded, Erase;
    var records, after := keys[e.key].records, Evict(keys, e);
    var v := Find(records, e.serial, 0);
    forall i | 0 <= i < |records| - 1 ensures Erase(records, v)[i] == records[if i < v then i else i + 1] { ErasedAt(records, v, i); }
    assert after[e.key].records == Erase(records, v);
    forall i | 0 <= i < |records| - 1 ensures after[e.key].records[i].serial != e.serial {
      assert records[v].serial == e.serial;
    }
  }

  lemma NotReplacedStays(keys: map<KeyId, Key>, e: Entry, other: Entry)
    requires UniqueSerials(keys) && Evictable(keys, e) && !Evictable(keys, other)
    ensures !Evictable(Evict(keys, e), other)
  {
    EvictableIff(keys, other);
    var after := Evict(keys, e);
    EvictableIff(after, other);
    if IsReplaced(after, other) && other.key == e.key {
      var was, now, v := keys[e.key].records, after[e.key].records, Find(keys[e.key].records, e.serial, 0);
      var i, j :| 0 <= i < |now| && 0 <= j < |now| && now[i].serial == other.serial
        && (forall n :: 0 <= n < i ==> now[n].serial != other.serial) && now[j].slot == now[i].slot && now[j].serial > other.serial;
      ErasedAt(was, v, i);
      ErasedAt(was, v, j);
    }
  }

  /** While serials tell records apart, the history stays full only when nothing that is queued has been replaced. */
  lemma {:induction false} DrainTakesAllReplaced(r: Retention, max: nat, e: Entry)
    requires UniqueSerials(r.keys) && Drain(r, max).count >= max && r.count >= max
    ensures e in r.queue || !Evictable(r.keys, e) ==> !Evictable(Drain(r, max).keys, e)
    decreases |r.queue|
  {
    hide Evictable, Evict, UniqueSerials;
    if r.queue != [] {
      var first := r.queue[0];
      assert r.queue == [first] + r.queue[1..];
      if Evictable(r.keys, first) {
        var next := Retention(Evict(r.keys, first), r.queue[1..], r.count - 1);
        UniqueAfterEvict(r.keys, first);
        StillFull(next, max);
        DrainTakesAllReplaced(next, max, e);
        if e != first && !Evictable(r.keys, e) { NotReplacedStays(r.keys, first, e); }
      } else {
        DrainTakesAllReplaced(r.(queue := r.queue[1..]), max, e);
      }
    }
  }

  lemma StillFull(r: Retention, max: nat)
    requires Drain(r, max).count >= max
    ensures r.count >= max
  {
    hide Evictable, Evict;
  }

  /** A stored record is counted, takes the next serial, and is queued last. */
  lemma StoreIsExact(s: State, r: Record)
    requires (r.device, r.capability) in s.keys
    ensures var t, k := Store(s, r), (r.device, r.capability);
      && t.queue == s.queue + [Entry(k, s.nextSerial)] && t.evidenceCount == s.evidenceCount + 1 && t.nextSerial == s.nextSerial + 1
      && t == s.(keys := t.keys, queue := t.queue, evidenceCount := t.evidenceCount, nextSerial := t.nextSerial)
      && (forall other :: other in s.keys && other != k ==> other in t.keys && t.keys[other] == s.keys[other]) && t.keys.Keys == s.keys.Keys
      && var was, now := s.keys[k].records, t.keys[k].records;
         && |now| == |was| + 1
         && now[|was|] == Stored(r, false, LiveSlot(r.source.publisher.id, r.source.publisher.boot, r.source.sourceClass), s.nextSerial)
         && forall i :: 0 <= i < |was| ==> now[i] == was[i].(superseded := was[i].superseded || was[i].slot == now[|was|].slot)
  {
    hide Supersede;
  }

  // ---- the whole step ------------------------------------------------------------------------

  /**
   * Eviction stops at the bounds: it leaves at least one record less than the history may hold, or every key what eight times its
   * bound allows; it does nothing to the records when the bounds are kept; and it keeps the newest entries of the queue, up to
   * four times the history bound.
   */
  lemma EvictionStopsAtBounds(s: State)
    requires AllOrdered(s.keys) && s.evidenceCount == Total(s.keys)
    ensures var t, max, cap := EvictIfNeeded(s), s.config.limits.maxEvidenceHistory, s.config.limits.maxEvidencePerCapability * 8;
      && (t.evidenceCount >= max - 1 ||
          forall k :: k in s.keys ==> |t.keys[k].records| >= if |s.keys[k].records| < cap then |s.keys[k].records| else cap)
      && (s.evidenceCount < max && (forall k :: k in s.keys ==> |s.keys[k].records| <= cap) ==>
            t.keys == s.keys && t.evidenceCount == s.evidenceCount)
      && (t.evidenceCount >= max ==> t.queue == [])
      && |t.queue| <= max * 4
      && |t.queue| <= |s.queue| && t.queue == s.queue[|s.queue| - |t.queue|..]
      && (s.evidenceCount < max ==> |t.queue| == if |s.queue| < max * 4 then |s.queue| else max * 4)
  {
    hide Drain, Total, TrimKey, TrimKeys, AllOrdered, AllThinned, OverCapOnlyByNewest, TakesNamed;
    var max, cap := s.config.limits.maxEvidenceHistory, KeyCap(s.config);
    var trimmed := TrimKeys(s.keys, cap);
    TrimKeysThins(s.keys, cap);
    TotalThinned(s.keys, trimmed);
    TrimKeysStop(s.keys, cap);
    var r := Retention(trimmed, s.queue, Total(trimmed));
    var n := DrainTakesFromFront(r, max);
    DrainThins(r, max, cap);
    QueueEnd(s.queue, n, max * 4);
  }

  lemma QueueEnd(queue: seq<Entry>, n: nat, bound: nat)
    requires n <= |queue|
    ensures var t := TrimQueue(queue[n..], bound);
      |t| <= bound && |t| <= |queue| && t == queue[|queue| - |t|..] && (n == 0 ==> |t| == if |queue| < bound then |queue| else bound)
  {}

  lemma TrimKeysStop(keys: map<KeyId, Key>, cap: nat)
    ensures var t := TrimKeys(keys, cap);
      && t.Keys == keys.Keys
      && (forall k :: k in keys ==> |t[k].records| >= if |keys[k].records| < cap then |keys[k].records| else cap)
      && ((forall k :: k in keys ==> |keys[k].records| <= cap) ==> t == keys)
  {
    hide TrimKey;
    forall k | k in keys
      ensures |TrimKey(keys[k].records, cap)| >= if |keys[k].records| < cap then |keys[k].records| else cap
      ensures |keys[k].records| <= cap ==> TrimKey(keys[k].records, cap) == keys[k].records
    {
      TrimStops(keys[k].records, cap);
    }
  }

  /** A record is refused for lack of room exactly when the history is full and stays full after eviction. */
  lemma RefusedForRoomIff(s: State, r: Record)
    requires IdOf(r) in s.keys
    ensures var code, max := MakeRoom(s, r).reply.code, s.config.limits.maxEvidenceHistory;
      && (code == RejectedBackpressure <==> s.evidenceCount >= max && EvictIfNeeded(s).evidenceCount >= max)
      && (code == Accepted <==> code != RejectedBackpressure)
  {
    hide EvictIfNeeded, Store;
  }
}
