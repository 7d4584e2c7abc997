// Admitting a capability record (src/registry.cpp:1348-1515) keeps the
// invariant: generations never mix claims, slots stay ordered, the count stays
// exact and within its bound.
module Admission {
  import opened Basics
  import C = Conditions
  import opened Model
  import opened Steps
  import opened Eviction
  import opened Invariants

  /** A step that only touches keys. */
  lemma KeysStep(s: State, t: State)
    requires Inv(s) && KnowledgeOk(t) && KeysGrow(s, t) && s.nextSerial <= t.nextSerial
    requires t == s.(keys := t.keys, deviceKeys := t.deviceKeys, queue := t.queue, evidenceCount := t.evidenceCount,
                     nextSerial := t.nextSerial)
    ensures Inv(t) && Grows(s, t)
  {
    hide KnowledgeOk, KeysGrow, PublishersOk, PublishersGrow, DevicesOk, DevicesGrow, QuirksOk, FactsOk;
    SamePublishers(s, t);
    SameDevices(s, t);
    SameQuirks(s, t);
    SameFacts(s, t);
  }

  lemma KnowledgeWas(s: State)
    requires Inv(s)
    ensures KeysOk(s) && Indexed(s) && Counted(s)
  {
    hide PublishersOk, DevicesOk, QuirksOk, FactsOk, KeysOk, Indexed, Counted;
  }

  lemma DescendsReflexive(records: seq<Stored>, nextSerial: nat)
    ensures Descends(records, nextSerial, records)
  {
    forall st | st in records ensures DescendsFrom(records, st) {
      var i :| 0 <= i < |records| && records[i] == st;
    }
  }

  lemma OrderedKeys(s: State)
    requires KeysOk(s)
    ensures AllOrdered(s.keys)
  {
    hide OneClaim, RecordOk, Ordered;
  }

  // ---- eviction ------------------------------------------------------------------------------

  lemma ThinnedKeyOk(before: Key, after: Key, nextSerial: nat)
    requires KeyOk(before, nextSerial) && after == before.(records := after.records) && Thinned(before.records, after.records)
    ensures KeyOk(after, nextSerial) && Descends(before.records, nextSerial, after.records)
  {
    hide Ordered, SameClaim, Latest, Candidates, Descends;
    DescendsReflexive(before.records, nextSerial);
    ThinnedDescends(before.records, after.records, nextSerial);
  }

  lemma ThinnedDescends(before: seq<Stored>, after: seq<Stored>, nextSerial: nat)
    requires Descends(before, nextSerial, before) && forall st :: st in after ==> st in before
    ensures Descends(before, nextSerial, after)
  {
    hide DescendsFrom;
  }

  lemma ThinnedIn(before: seq<Stored>, after: seq<Stored>)
    requires Thinned(before, after)
    ensures forall st :: st in after ==> st in before
  {
    hide Ordered, Latest, Candidates;
  }

  lemma IndexedSame(s: State, t: State)
    requires Indexed(s) && t.keys.Keys == s.keys.Keys && t.deviceKeys == s.deviceKeys
    ensures Indexed(t)
  {
    forall d: nat, c: nat ensures IndexedAt(t.keys, t.deviceKeys, d, c) {
      assert IndexedAt(s.keys, s.deviceKeys, d, c);
      assert (d, c) in s.keys <==> (d, c) in t.keys.Keys;
    }
  }

  lemma EvictKeeps(s: State)
    requires Inv(s)
    ensures var t := EvictIfNeeded(s);
      Inv(t) && Grows(s, t) && t.evidenceCount <= s.evidenceCount && AllThinned(s.keys, t.keys)
      && t == s.(keys := t.keys, queue := t.queue, evidenceCount := t.evidenceCount)
  {
    hide EvictIfNeeded, Ordered, Thinned, Total, Descends, RecordOk, KeyOk, Inv, Grows, OverCapOnlyByNewest, AllOrdered;
    KnowledgeWas(s);
    OrderedKeys(s);
    EvictionIsExact(s);
    var t := EvictIfNeeded(s);
    forall k | k in t.keys ensures KeyOk(t.keys[k], t.nextSerial) && Descends(s.keys[k].records, s.nextSerial, t.keys[k].records) {
      ThinnedKeyOk(s.keys[k], t.keys[k], s.nextSerial);
    }
    forall k, st | k in t.keys && st in t.keys[k].records ensures RecordOk(t, k, st.record) {
      ThinnedIn(s.keys[k].records, t.keys[k].records);
      SameRecordOk(s, t, k, st.record);
    }
    IndexedSame(s, t);
    KeysStep(s, t);
  }

  lemma SameRecordOk(s: State, t: State, k: KeyId, r: Record)
    requires RecordOk(s, k, r)
    requires s.devices == t.devices && s.publishers == t.publishers && s.epoch == t.epoch && s.config == t.config
    ensures RecordOk(t, k, r)
  {
    hide ValidRecord, WithinDevice;
  }

  // ---- one key replaced ---------------------------------------------------------------------------

  /** Replacing one key, or adding an empty one, with everything it needs. */
  lemma KeyReplaced(s: State, t: State, k: KeyId, key: Key)
    requires Inv(s) && k in s.keys && t.keys == s.keys[k := key]
    requires t == s.(keys := t.keys, queue := t.queue, evidenceCount := t.evidenceCount, nextSerial := t.nextSerial)
    requires s.nextSerial <= t.nextSerial && KeyOk(key, t.nextSerial)
    requires key.schema == s.keys[k].schema && s.keys[k].generation <= key.generation
    requires forall st :: st in key.records ==> RecordOk(s, k, st.record)
    requires Descends(s.keys[k].records, s.nextSerial, key.records)
    requires t.evidenceCount == s.evidenceCount - |s.keys[k].records| + |key.records|
    requires t.evidenceCount <= s.config.limits.maxEvidenceHistory
    ensures Inv(t) && Grows(s, t)
  {
    hide Total, Descends, RecordOk, KeyOk, Inv, Grows;
    KnowledgeWas(s);
    TotalSet(s.keys, k, key);
    forall j | j in t.keys ensures KeyOk(t.keys[j], t.nextSerial) && Descends(RecordsAt(s.keys, j), s.nextSerial, t.keys[j].records) {
      if j != k { KeyStaysOk(s.keys[j], s.nextSerial, t.nextSerial); }
      DescendsReflexive(s.keys[j].records, s.nextSerial);
    }
    forall j, st | j in t.keys && st in t.keys[j].records ensures RecordOk(t, j, st.record) {
      SameRecordOk(s, t, j, st.record);
    }
    IndexedSame(s, t);
    KeysStep(s, t);
  }

  lemma IndexedAfterEnsure(s: State, r: Record)
    requires Indexed(s)
    ensures Indexed(EnsureKey(s, r).0)
  {
    hide IndexedAt;
    var t := EnsureKey(s, r).0;
    forall d: nat, c: nat ensures IndexedAt(t.keys, t.deviceKeys, d, c) {
      assert IndexedAt(s.keys, s.deviceKeys, d, c);
      EntryKept(s.keys, s.deviceKeys, r.device, d, c);
      EntryAdded(s.keys, s.deviceKeys, r.device, r.capability, Key(r.schema, 0, false, []), d, c);
    }
  }

  lemma EntryKept(keys: map<KeyId, Key>, deviceKeys: map<nat, set<nat>>, device: nat, d: nat, c: nat)
    requires IndexedAt(keys, deviceKeys, d, c)
    ensures var owned := if device in deviceKeys then deviceKeys[device] else {};
      IndexedAt(keys, deviceKeys[device := owned], d, c)
  {}

  lemma EntryAdded(keys: map<KeyId, Key>, deviceKeys: map<nat, set<nat>>, device: nat, capability: nat, key: Key, d: nat, c: nat)
    requires IndexedAt(keys, deviceKeys, d, c)
    ensures var owned := if device in deviceKeys then deviceKeys[device] else {};
      IndexedAt(keys[(device, capability) := key], deviceKeys[device := owned + {capability}], d, c)
  {}

  lemma KeyAdded(s: State, t: State, k: KeyId, key: Key)
    requires KeysOk(s) && k !in s.keys && k.0 in s.devices && key.records == []
    requires t == s.(keys := s.keys[k := key], deviceKeys := t.deviceKeys)
    ensures KeysOk(t) && KeysGrow(s, t)
  {
    hide KeyOk, RecordOk, Descends;
    EmptyKeyOk(key, s.nextSerial);
    forall j | j in t.keys ensures Descends(RecordsAt(s.keys, j), s.nextSerial, t.keys[j].records) {
      DescendsReflexive(RecordsAt(s.keys, j), s.nextSerial);
    }
    forall j, st | j in t.keys && st in t.keys[j].records ensures RecordOk(t, j, st.record) {
      assert j in s.keys && st in s.keys[j].records;
      SameRecordOk(s, t, j, st.record);
    }
  }

  lemma KeysUnchanged(s: State, t: State)
    requires KeysOk(s) && t == s.(deviceKeys := t.deviceKeys)
    ensures KeysOk(t) && KeysGrow(s, t)
  {
    hide KeyOk, KeysGrow, RecordOk;
    KeysGrowReflexive(s, t);
    forall j, st | j in t.keys && st in t.keys[j].records ensures RecordOk(t, j, st.record) {
      SameRecordOk(s, t, j, st.record);
    }
  }

  lemma KeysAfterEnsure(s: State, r: Record)
    requires KeysOk(s) && r.device in s.devices
    ensures var t := EnsureKey(s, r).0; KeysOk(t) && KeysGrow(s, t)
  {
    hide KeysOk, KeysGrow;
    var t := EnsureKey(s, r).0;
    if IdOf(r) in s.keys || EnsureKey(s, r).1 != None {
      KeysUnchanged(s, t);
    } else {
      KeyAdded(s, t, IdOf(r), Key(r.schema, 0, false, []));
    }
  }

  lemma EnsureKeeps(s: State, r: Record)
    requires Inv(s) && r.device in s.devices
    ensures var t := EnsureKey(s, r).0; Inv(t) && Grows(s, t) && (EnsureKey(s, r).1 == None ==> IdOf(r) in t.keys)
  {
    hide Total, Inv, Grows, KeysOk, Indexed, KeysGrow;
    KnowledgeWas(s);
    KeysAfterEnsure(s, r);
    IndexedAfterEnsure(s, r);
    TotalSet(s.keys, IdOf(r), Key(r.schema, 0, false, []));
    KeysStep(s, EnsureKey(s, r).0);
  }

  lemma EmptyKeyOk(key: Key, nextSerial: nat)
    requires key.records == []
    ensures KeyOk(key, nextSerial)
  {}

  // ---- the generation of a claim --------------------------------------------------------------------

  lemma {:induction false} CurrentWinnerIsCurrent(s: State, records: seq<Stored>, d: Device)
    ensures var w := CurrentWinner(s, records, d); w.Some? ==> w.value in records && Current(s, w.value, d, d.generation)
  {
    hide Current, Outranks;
    if records != [] { CurrentWinnerIsCurrent(s, records[..|records| - 1], d); }
  }

  /** The record may join this key under its generation. */
  predicate Fits(key: Key, r: Record) {
    && r.schema == key.schema && 1 <= r.capabilityGeneration <= key.generation
    && forall st :: st in key.records && st.record.capabilityGeneration == r.capabilityGeneration ==> SameClaim(st.record, r)
  }

  lemma SameClaimTransitive(a: Record, b: Record, c: Record)
    requires SameClaim(a, b) && SameClaim(b, c)
    ensures SameClaim(a, c)
  {
    hide C.Describe;
  }

  /** The generation chosen for a record stands for its claim and for no other. */
  lemma AssignedGenerationFits(s: State, key: Key, r: Record, d: Device)
    requires KeyOk(key, s.nextSerial) && r.schema == key.schema
    ensures var g := AssignGeneration(key, CurrentWinner(s, key.records, d), r);
      var raised := Raise(key, g);
      Fits(raised, r.(capabilityGeneration := g)) && KeyOk(raised, s.nextSerial) && key.generation <= raised.generation
  {
    hide CurrentWinner, Ordered, Current, SameContent;
    CurrentWinnerIsCurrent(s, key.records, d);
    var w := CurrentWinner(s, key.records, d);
    var g := AssignGeneration(key, w, r);
    var record := r.(capabilityGeneration := g);
    forall st | st in key.records && st.record.capabilityGeneration == g ensures SameClaim(st.record, record) {
      assert SameClaim(st.record, w.value.record);
      assert SameClaim(w.value.record, record) by { ClaimIgnoresGeneration(w.value.record, r, g); }
      SameClaimTransitive(st.record, w.value.record, record);
    }
  }

  lemma ClaimIgnoresGeneration(a: Record, r: Record, g: nat)
    ensures SameClaim(a, r.(capabilityGeneration := g)) == SameClaim(a, r)
  {
    hide C.Describe;
  }

  // ---- storing ---------------------------------------------------------------------------------------

  lemma AppendOrdered(records: seq<Stored>, r: Record, serial: nat)
    requires Ordered(records) && forall st :: st in records && st.slot.LiveSlot? ==> st.serial < serial
    ensures Ordered(Supersede(records, SlotOf(r)) + [Stored(r, false, SlotOf(r), serial)])
  {
    var marked := Supersede(records, SlotOf(r));
    var all := marked + [Stored(r, false, SlotOf(r), serial)];
    forall i, j | 0 <= i < j < |all| && all[i].slot == all[j].slot ensures all[i].serial < all[j].serial && all[i].superseded {
      assert records[i] in records;
    }
  }

  lemma AppendOneClaim(records: seq<Stored>, r: Record, serial: nat)
    requires OneClaim(records)
    requires forall st :: st in records && st.record.capabilityGeneration == r.capabilityGeneration ==> SameClaim(st.record, r)
    ensures OneClaim(Supersede(records, SlotOf(r)) + [Stored(r, false, SlotOf(r), serial)])
  {
    hide SameContent;
    var marked := Supersede(records, SlotOf(r));
    var latest := Stored(r, false, SlotOf(r), serial);
    forall a, b | a in marked + [latest] && b in marked + [latest] && a.record.capabilityGeneration == b.record.capabilityGeneration
      ensures SameClaim(a.record, b.record)
    {
      Unmarked(records, SlotOf(r));
      Symmetric(a.record, b.record);
      assert SameClaim(r, r) by { Reflexive(r); }
    }
  }

  lemma Reflexive(a: Record)
    ensures SameClaim(a, a)
  {}

  lemma Symmetric(a: Record, b: Record)
    ensures SameClaim(a, b) == SameClaim(b, a)
  {
    hide C.Describe;
  }

  /** Marking a slot as superseded changes no record. */
  lemma Unmarked(records: seq<Stored>, slot: Slot)
    ensures forall st :: st in Supersede(records, slot) ==>
              exists was :: was in records && was.record == st.record && was.slot == st.slot && was.serial == st.serial
                && (was.superseded ==> st.superseded)
  {
    var marked := Supersede(records, slot);
    forall st | st in marked
      ensures exists was :: was in records && was.record == st.record && was.slot == st.slot && was.serial == st.serial
                && (was.superseded ==> st.superseded)
    {
      var i :| 0 <= i < |marked| && marked[i] == st;
      assert records[i] in records;
    }
  }

  lemma AppendKeeps(key: Key, r: Record, nextSerial: nat)
    requires KeyOk(key, nextSerial) && Fits(key, r)
    ensures KeyOk(Append(key, r, nextSerial), nextSerial + 1)
    ensures Descends(key.records, nextSerial, Append(key, r, nextSerial).records)
  {
    hide Ordered, OneClaim, Supersede, SameClaim;
    AppendOrdered(key.records, r, nextSerial);
    AppendOneClaim(key.records, r, nextSerial);
    Unmarked(key.records, SlotOf(r));
    var marked := Supersede(key.records, SlotOf(r));
    forall st | st in marked ensures DescendsFrom(key.records, st) && StoredOk(st, Append(key, r, nextSerial), nextSerial + 1) {
      var was :| was in key.records && was.record == st.record && was.slot == st.slot && was.serial == st.serial
        && (was.superseded ==> st.superseded);
      var i :| 0 <= i < |key.records| && key.records[i] == was;
    }
  }

  lemma StoreKeeps(s: State, r: Record)
    requires Inv(s) && IdOf(r) in s.keys && RecordOk(s, IdOf(r), r) && Fits(s.keys[IdOf(r)], r)
    requires s.evidenceCount < s.config.limits.maxEvidenceHistory
    ensures Inv(Store(s, r)) && Grows(s, Store(s, r))
  {
    hide Inv, Grows, Fits, RecordOk, KeyOk, Descends, Supersede, Total;
    var k, t := IdOf(r), Store(s, r);
    var key := Append(s.keys[k], r, s.nextSerial);
    KnowledgeWas(s);
    AppendKeeps(s.keys[k], r, s.nextSerial);
    forall st | st in key.records ensures RecordOk(s, k, st.record) {
      Unmarked(s.keys[k].records, SlotOf(r));
    }
    KeyReplaced(s, t, k, key);
  }

  // ---- admitting ----------------------------------------------------------------------------------------

  lemma FitsAfterEviction(s: State, t: State, r: Record)
    requires AllThinned(s.keys, t.keys) && IdOf(r) in s.keys && Fits(s.keys[IdOf(r)], r)
    ensures IdOf(r) in t.keys && Fits(t.keys[IdOf(r)], r)
  {
    hide SameClaim, Ordered, Latest, Candidates;
    assert Thinned(s.keys[IdOf(r)].records, t.keys[IdOf(r)].records);
  }

  lemma MakeRoomKeeps(s: State, r: Record)
    requires Inv(s) && IdOf(r) in s.keys && RecordOk(s, IdOf(r), r) && Fits(s.keys[IdOf(r)], r)
    ensures var t := MakeRoom(s, r).state; Inv(t) && Grows(s, t)
  {
    hide Inv, Grows, Fits, RecordOk, EvictIfNeeded, Store, AllThinned;
    var max := s.config.limits.maxEvidenceHistory;
    StaysPut(s);
    var room := if s.evidenceCount >= max then EvictIfNeeded(s) else s;
    if s.evidenceCount >= max {
      EvictKeeps(s);
      FitsAfterEviction(s, room, r);
      SameRecordOk(s, room, IdOf(r), r);
    }
    if room.evidenceCount < max {
      StoreKeeps(room, r);
      EvictKeeps(Store(room, r));
      GrowsTransitive(s, room, Store(room, r));
      GrowsTransitive(s, Store(room, r), EvictIfNeeded(Store(room, r)));
    }
  }

  lemma RaiseKeeps(s: State, k: KeyId, key: Key)
    requires Inv(s) && k in s.keys && key == s.keys[k].(generation := key.generation, hasEvidence := true)
    requires KeyOk(key, s.nextSerial) && s.keys[k].generation <= key.generation
    ensures var t := s.(keys := s.keys[k := key]); Inv(t) && Grows(s, t)
  {
    hide Inv, Grows, KeyOk, RecordOk, Descends, Total;
    KnowledgeWas(s);
    DescendsReflexive(key.records, s.nextSerial);
    KeyReplaced(s, s.(keys := s.keys[k := key]), k, key);
  }

  /** What the record of an admitted sender is worth. */
  predicate FromSender(s: State, r: Record) {
    && r.source.publisher.id in s.publishers
    && r.source.publisher.boot == s.publishers[r.source.publisher.id].boot
    && r.source.publisher.epoch == s.epoch
  }

  predicate Admissible(s: State, r: Record) {
    && FromSender(s, r) && ValidRecord(s.config, r) && UnderSchema(s.config, r)
    && DeviceRejection(s, r) == None
  }

  lemma BoundRecordOk(s: State, r: Record, g: nat)
    requires Inv(s) && Admissible(s, r)
    ensures RecordOk(s, IdOf(r), Bind(r, s.devices[r.device]).(capabilityGeneration := g))
  {
    hide KnowledgeOk, QuirksOk, FactsOk, C.Accepted;
  }

  lemma AdmitKeeps(s: State, r: Record)
    requires Inv(s) && IdOf(r) in s.keys && Admissible(s, r) && s.keys[IdOf(r)].schema == r.schema
    ensures var t := Admit(s, r).state; Inv(t) && Grows(s, t)
  {
    hide Inv, Grows, RecordOk, MakeRoom, CurrentWinner, Latest, Repeats, KeyOk, ValidRecord, UnderSchema, AssignGeneration, Fits;
    StaysPut(s);
    KnowledgeWas(s);
    var d, key := s.devices[r.device], s.keys[IdOf(r)];
    var bound := Bind(r, d);
    var g := AssignGeneration(key, CurrentWinner(s, key.records, d), bound);
    var record := bound.(capabilityGeneration := g);
    AssignedGenerationFits(s, key, bound, d);
    var raised := s.(keys := s.keys[IdOf(r) := Raise(key, g)]);
    RaiseKeeps(s, IdOf(r), Raise(key, g));
    BoundRecordOk(s, r, g);
    SameRecordOk(s, raised, IdOf(r), record);
    MakeRoomKeeps(raised, record);
    GrowsTransitive(s, raised, MakeRoom(raised, record).state);
  }

  lemma CapabilityKeeps(s: State, r: Record)
    requires Inv(s) && FromSender(s, r) && ValidRecord(s.config, r)
    ensures var t := ApplyCapability(s, r).state; Inv(t) && Grows(s, t)
  {
    hide Inv, Grows, ValidRecord, EnsureKey, Admit;
    StaysPut(s);
    if SchemaRejection(s.config, r) == None && DeviceRejection(s, r) == None {
      EnsureKeeps(s, r);
      EnsureKeepsRest(s, r);
      var (ready, refused) := EnsureKey(s, r);
      if refused == None && KeyRejection(ready.keys[IdOf(r)], r) == None {
        AdmitKeeps(ready, r);
        GrowsTransitive(s, ready, Admit(ready, r).state);
      }
    }
  }

  lemma EnsureKeepsRest(s: State, r: Record)
    ensures var t := EnsureKey(s, r).0; t == s.(keys := t.keys, deviceKeys := t.deviceKeys)
  {}
}
