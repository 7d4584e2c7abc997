// What becomes of the superseded flag across a restart (src/registry.cpp:1449-1515
// against 2606-2667): it is not written, and the import supersedes within slots
// that tell native references and precisions apart, in the written order.
module Supersession {
  import opened Basics
  import opened Model
  import opened Steps
  import opened Eviction
  import opened Invariants
  import opened Restart
  import opened Recovery

  /** Imported records share a slot when they come from one publisher boot and source class, with one reference and precision. */
  lemma SharesSlotIff(a: Record, b: Record)
    ensures ImportSlot(a) == ImportSlot(b) <==>
      && a.source.publisher.id == b.source.publisher.id && a.source.publisher.boot == b.source.publisher.boot
      && a.source.sourceClass == b.source.sourceClass && a.source.nativeReference == b.source.nativeReference && a.precision == b.precision
  {}

  /** A record of the same import slot is written later. */
  predicate OverruledAt(rs: seq<Record>, i: nat)
    requires i < |rs|
  {
    exists j :: i < j < |rs| && ImportSlot(rs[j]) == ImportSlot(rs[i])
  }

  /** The key holds these records, in this order, flagged as their import slots say. */
  predicate FlaggedAs(records: seq<Stored>, rs: seq<Record>) {
    && |records| == |rs|
    && forall i :: 0 <= i < |rs| ==>
         records[i].record == rs[i] && records[i].slot == ImportSlot(rs[i]) && (records[i].superseded <==> OverruledAt(rs, i))
  }

  lemma StagedNext(key: Key, rs: seq<Record>, r: Record, serial: nat)
    requires FlaggedAs(key.records, rs)
    ensures FlaggedAs(StageKey(key, r, serial).records, rs + [r])
  {
    var more, after := rs + [r], StageKey(key, r, serial).records;
    forall i | 0 <= i < |more|
      ensures after[i].record == more[i] && after[i].slot == ImportSlot(more[i]) && (after[i].superseded <==> OverruledAt(more, i))
    {
      if i < |rs| {
        if OverruledAt(rs, i) {
          var j :| i < j < |rs| && ImportSlot(rs[j]) == ImportSlot(rs[i]);
          assert more[j] == rs[j];
        }
        if OverruledAt(more, i) && !OverruledAt(rs, i) {
          var j :| i < j < |more| && ImportSlot(more[j]) == ImportSlot(more[i]);
          assert j == |rs|;
        }
        assert more[|rs|] == r;
      }
    }
  }

  /** After staging, a record carries the flag exactly when one of its import slot comes later in the history. */
  lemma {:induction false} StagedFlags(config: Config, devices: map<nat, Device>, h: seq<Record>, start: nat, k: KeyId)
    requires StageHistory(config, devices, h, start).ok
    ensures var keys := StageHistory(config, devices, h, start).keys; FlaggedAs(RecordsAt(keys, k), Of(h, k))
  {
    hide Stageable, StageKey, FlaggedAs;
    if h == [] {
      NoneFlagged();
    } else {
      var n := |h| - 1;
      var g := StageHistory(config, devices, h[..n], start);
      StagedFlags(config, devices, h[..n], start, k);
      if IdOf(h[n]) == k { StagedNext(KeyAt(g.keys, h[n]), Of(h[..n], k), h[n], g.nextSerial + 1); }
    }
  }

  lemma NoneFlagged()
    ensures FlaggedAs([], [])
  {}

  /**
   * An imported record is superseded exactly when a record of the same publisher boot, source class, native reference and
   * precision is written after it. Whether it was superseded before plays no part.
   */
  lemma SupersededAfterImport(f: State, d: Durable, k: KeyId)
    requires Import(f, d).ok
    ensures FlaggedAs(RecordsAt(Import(f, d).state.keys, k), Of(d.history, k))
  {
    hide StageHistory, StageDevices, StagePlatforms, StageRest, FlaggedAs, WithinBounds, Of;
    var x := StageDevices(f.config.limits, d.subjects).value;
    StagedFlags(f.config, x.devices, d.history, f.nextSerial, k);
  }

  /** Every record is back after a restart, superseded exactly when one of its import slot is written after it. */
  lemma FlagAfterRestart(s: State, f: State, d: Durable, k: KeyId, i: nat)
    requires Inv(s) && Bound(s.config) && IsExport(s, d) && f.config == s.config && Restartable(s)
    requires i < |Of(d.history, k)|
    ensures var t := Import(f, d).state;
      && i < |RecordsAt(t.keys, k)| && RecordsAt(t.keys, k)[i].record == Of(d.history, k)[i]
      && (RecordsAt(t.keys, k)[i].superseded <==> OverruledAt(Of(d.history, k), i))
      && exists st :: st in RecordsAt(s.keys, k) && st.record == Of(d.history, k)[i]
  {
    hide Inv, Bound, Import, Restartable, IsExport, OverruledAt, Of;
    ImportOfExport(s, f, d);
    SupersededAfterImport(f, d, k);
    OfIn(d.history, k);
    assert Of(d.history, k)[i] in d.history && IdOf(Of(d.history, k)[i]) == k;
    WasStored(s, d, Of(d.history, k)[i]);
  }

  lemma WasStored(s: State, d: Durable, r: Record)
    requires Inv(s) && IsExport(s, d) && r in d.history
    ensures exists st :: st in RecordsAt(s.keys, IdOf(r)) && st.record == r
  {
    hide Inv, KeysOk, SubjectsExported, PlatformsExported, QuirksExported, FactsExported, PublishersExported, HistorySorted, Written;
    Parts(s);
    HistoryIsWritten(s, d.history, r);
    assert IdOf(r) in s.keys by { WrittenKey(s, r); }
  }

  lemma WrittenKey(s: State, r: Record)
    requires Written(s, r)
    ensures IdOf(r) in s.keys
  {}
}
