// What a resolved answer means (src/registry.cpp:402-683): usable answers rest
// on current evidence of the highest authority, contradictions are classified
// exactly, and neither more facts nor more quirks can unblock a capability.
module Resolution {
  import opened Basics
  import C = Conditions
  import Q = Quirks
  import opened Model
  import opened Steps
  import opened Eviction
  import opened Invariants
  import opened Admission
  import opened History

  // ---- candidates and the winner -----------------------------------------------------

  lemma {:induction false} CandidatesCount(s: State, records: seq<Stored>, d: Device, target: nat, st: Stored)
    ensures multiset(Candidates(s, records, d, target))[st] == if Current(s, st, d, target) then multiset(records)[st] else 0
  {
    hide Current;
    if records != [] {
      var n := |records| - 1;
      assert records == records[..n] + [records[n]];
      CandidatesCount(s, records[..n], d, target, st);
    }
  }

  /** The candidates are exactly the current records. */
  lemma CandidatesAre(s: State, records: seq<Stored>, d: Device, target: nat)
    ensures forall st :: st in Candidates(s, records, d, target) <==> st in records && Current(s, st, d, target)
  {
    hide Current, Candidates;
    forall st ensures st in Candidates(s, records, d, target) <==> st in records && Current(s, st, d, target) {
      CandidatesCount(s, records, d, target, st);
      assert st in multiset(records) <==> st in records;
      assert st in multiset(Candidates(s, records, d, target)) <==> st in Candidates(s, records, d, target);
    }
  }

  lemma PrecedesTransitive(a: Record, b: Record, c: Record)
    requires Precedes(a, b) && Precedes(b, c)
    ensures Precedes(a, c)
  {}

  /** No candidate is preferred to the winner. */
  lemma {:induction false} WinnerIsMaximal(cs: seq<Stored>)
    requires cs != []
    ensures forall i :: 0 <= i < |cs| ==> !Precedes(cs[i].record, cs[Winner(cs)].record)
  {
    hide Precedes;
    NotBefore(cs[0].record);
    if |cs| > 1 {
      var n := |cs| - 1;
      WinnerIsMaximal(cs[..n]);
      var w := Winner(cs[..n]);
      if Precedes(cs[n].record, cs[w].record) {
        NotBefore(cs[n].record);
        forall i | 0 <= i < n ensures !Precedes(cs[i].record, cs[n].record) {
          assert cs[..n][i] == cs[i];
          if Precedes(cs[i].record, cs[n].record) { PrecedesTransitive(cs[i].record, cs[n].record, cs[w].record); }
        }
      } else {
        forall i | 0 <= i < n ensures !Precedes(cs[i].record, cs[w].record) { assert cs[..n][i] == cs[i]; }
      }
    }
  }

  lemma NotBefore(a: Record)
    ensures !Precedes(a, a)
  {}

  lemma WinnerHasTopAuthority(cs: seq<Stored>)
    requires cs != []
    ensures forall i :: 0 <= i < |cs| ==>
              Authority(cs[i].record.source.sourceClass) <= Authority(cs[Winner(cs)].record.source.sourceClass)
  {
    hide Authority, Winner;
    WinnerIsMaximal(cs);
  }

  // ---- usable answers are justified -----------------------------------------------------

  predicate Usable(e: EffectiveSupport) { e == Supported || e == SupportedWithCaveat }

  /** Current evidence, spelled out: the device's own generation and boot, neither withdrawn nor superseded, and alive unless durable. */
  predicate Alive(s: State, st: Stored, d: Device) {
    var r := st.record;
    && r.deviceGeneration == d.generation && r.deviceBoot == d.boot && !r.withdrawn && !st.superseded
    && (IsDurable(r.source.provenance) ||
        (Authoritative(s.publishers, r.source.publisher.id, r.source.publisher.boot) && r.source.publisher.epoch == s.epoch))
  }

  lemma CurrentIsAlive(s: State, st: Stored, d: Device, target: nat)
    requires Current(s, st, d, target)
    ensures target == d.generation && Alive(s, st, d)
  {
    hide Authoritative, C.Mentions;
    assert !HasFlag(s, st, d, target, DeviceGenerationSuperseded);
    assert !HasFlag(s, st, d, target, DeviceBootChanged);
    assert !HasFlag(s, st, d, target, Withdrawn);
    assert !HasFlag(s, st, d, target, SupersededByNewerEvidence);
    assert !HasFlag(s, st, d, target, PublisherFenced);
    assert !HasFlag(s, st, d, target, EpochSuperseded);
  }

  /** The stored record that an answer rests on. */
  predicate Justifies(s: State, st: Stored, k: KeyId, facts: C.Facts)
    requires k in s.keys && k.0 in s.devices
  {
    var d := s.devices[k.0];
    && st in s.keys[k].records && Alive(s, st, d)
    && AssertsUsable(st.record.support)
    && (C.Evaluate(st.record.conditions, facts) == C.Satisfied || C.Evaluate(st.record.conditions, facts) == C.NotApplicable)
    && forall other :: other in s.keys[k].records && Current(s, other, d, d.generation) ==> !Precedes(other.record, st.record)
  }

  /** SUPPORTED, with or without a caveat, rests on a live record of the device's own generation that nothing current outranks. */
  lemma UsableAnswersAreJustified(s: State, k: KeyId, pinned: nat, facts: C.Facts, ids: seq<nat>)
    requires k.0 in s.devices && k in s.keys && forall i :: 0 <= i < |ids| ==> ids[i] in s.quirks
    requires Usable(Resolve(s, k.0, k.1, pinned, facts, ids).effective)
    ensures pinned == 0 || pinned == s.devices[k.0].generation
    ensures exists st :: Justifies(s, st, k, facts)
  {
    hide Candidates, Winner, Gather, C.Evaluate, Current, Classify, Newest, AllFlags, Precedes, Alive;
    assert k == (k.0, k.1);
    var d, records := s.devices[k.0], s.keys[k].records;
    var target := Target(d, pinned);
    var cs := Candidates(s, records, d, target);
    CandidatesAre(s, records, d, target);
    WinnerIsMaximal(cs);
    var st := cs[Winner(cs)];
    assert st in cs;
    CurrentIsAlive(s, st, d, target);
    forall other | other in records && Current(s, other, d, d.generation) ensures !Precedes(other.record, st.record) {
      assert other in cs;
      var i :| 0 <= i < |cs| && cs[i] == other;
    }
    assert Justifies(s, st, k, facts);
  }

  /** And exactly then: the winner asserts the capability, its conditions are not in doubt, and no gathered quirk blocks it. */
  lemma UsableExactly(s: State, k: KeyId, pinned: nat, facts: C.Facts, ids: seq<nat>)
    requires k.0 in s.devices && k in s.keys && forall i :: 0 <= i < |ids| ==> ids[i] in s.quirks
    ensures var d := s.devices[k.0];
      var cs := Candidates(s, s.keys[k].records, d, Target(d, pinned));
      Usable(Resolve(s, k.0, k.1, pinned, facts, ids).effective) <==>
      && cs != []
      && var r := cs[Winner(cs)].record;
         && AssertsUsable(r.support)
         && (C.Evaluate(r.conditions, facts) == C.Satisfied || C.Evaluate(r.conditions, facts) == C.NotApplicable)
         && !SomeGathered(Gather(s, ids, 0, k.0, d, k.1, facts), {Q.Unusable, Q.Fatal})
  {
    hide Candidates, Winner, Gather, C.Evaluate, Classify, Newest, AllFlags, SomeGathered;
    assert k == (k.0, k.1);
    var d := s.devices[k.0];
    var cs := Candidates(s, s.keys[k].records, d, Target(d, pinned));
    if cs != [] {
      var r := cs[Winner(cs)].record;
      var outcome := C.Evaluate(r.conditions, facts);
      if AssertsUsable(r.support) && (outcome == C.Satisfied || outcome == C.NotApplicable) {
        EffectiveOfGathered(r.support, outcome, Gather(s, ids, 0, k.0, d, k.1, facts));
      }
    }
  }

  /** A pin to any other generation of a known key needs revalidation. */
  lemma OtherGenerationsNeedRevalidation(s: State, k: KeyId, pinned: nat, facts: C.Facts, ids: seq<nat>)
    requires k.0 in s.devices && k in s.keys && forall i :: 0 <= i < |ids| ==> ids[i] in s.quirks
    requires pinned != 0 && pinned != s.devices[k.0].generation
    ensures var answer := Resolve(s, k.0, k.1, pinned, facts, ids);
      && answer.effective == NotCurrent && answer.contradiction == NeedsRevalidation && !answer.current
      && (s.keys[k].records != [] ==> DeviceGenerationSuperseded in answer.staleness)
  {
    hide Candidates, Gather, C.Evaluate, Current, Classify, Newest, HasFlag;
    assert k == (k.0, k.1);
    var d, records := s.devices[k.0], s.keys[k].records;
    forall st ensures HasFlag(s, st, d, pinned, DeviceGenerationSuperseded) { OtherGeneration(s, st, d, pinned); }
    forall st | st in records ensures !Current(s, st, d, pinned) {
      if Current(s, st, d, pinned) { CurrentIsAlive(s, st, d, pinned); }
    }
    NoCandidates(s, records, d, pinned);
    if records != [] { assert SomeFlagged(s, records, d, pinned, DeviceGenerationSuperseded) by { assert HasFlag(s, records[0], d, pinned, DeviceGenerationSuperseded); } }
  }

  lemma OtherGeneration(s: State, st: Stored, d: Device, pinned: nat)
    requires pinned != d.generation
    ensures HasFlag(s, st, d, pinned, DeviceGenerationSuperseded)
  {}

  // ---- contradictions, exactly -------------------------------------------------------------

  predicate IsTop(cs: seq<Stored>, st: Stored) {
    forall other :: other in cs ==> Authority(other.record.source.sourceClass) <= Authority(st.record.source.sourceClass)
  }

  /** Two candidates of maximal source authority disagree. */
  predicate TopDisagreement(cs: seq<Stored>) {
    exists a, b :: a in cs && b in cs && IsTop(cs, a) && IsTop(cs, b) && AssertionOf(a.record) != AssertionOf(b.record)
  }

  predicate Unanimous(cs: seq<Stored>) {
    forall a, b :: a in cs && b in cs ==> AssertionOf(a.record) == AssertionOf(b.record)
  }

  lemma UnanimousMeansAllAgree(cs: seq<Stored>)
    ensures Unanimous(cs) <==> AllAgree(cs)
  {
    hide AssertionOf;
    if AllAgree(cs) {
      forall a, b | a in cs && b in cs ensures AssertionOf(a.record) == AssertionOf(b.record) {
        var i :| 0 <= i < |cs| && cs[i] == a;
        var j :| 0 <= j < |cs| && cs[j] == b;
      }
    }
    if Unanimous(cs) {
      forall i | 0 <= i < |cs| ensures AssertionOf(cs[i].record) == AssertionOf(cs[0].record) {
        assert cs[i] in cs && cs[0] in cs;
      }
    }
  }

  lemma TopOfWinner(cs: seq<Stored>, st: Stored)
    requires cs != [] && st in cs
    ensures IsTop(cs, st) <==> Authority(st.record.source.sourceClass) == Authority(cs[Winner(cs)].record.source.sourceClass)
  {
    hide Authority, Winner;
    WinnerHasTopAuthority(cs);
    var w := cs[Winner(cs)];
    assert w in cs;
    var i :| 0 <= i < |cs| && cs[i] == st;
    forall other | other in cs ensures Authority(other.record.source.sourceClass) <= Authority(w.record.source.sourceClass) {
      var j :| 0 <= j < |cs| && cs[j] == other;
    }
  }

  lemma TopAgreeMeansNoDisagreement(cs: seq<Stored>)
    requires cs != []
    ensures TopAgree(cs, cs[Winner(cs)]) <==> !TopDisagreement(cs)
  {
    hide Authority, Winner, AssertionOf, IsTop;
    var w := cs[Winner(cs)];
    if TopAgree(cs, w) {
      forall a, b | a in cs && b in cs && IsTop(cs, a) && IsTop(cs, b) ensures AssertionOf(a.record) == AssertionOf(b.record) {
        TopOfWinner(cs, a);
        TopOfWinner(cs, b);
        var i :| 0 <= i < |cs| && cs[i] == a;
        var j :| 0 <= j < |cs| && cs[j] == b;
      }
    } else {
      var i, j :| 0 <= i < |cs| && 0 <= j < |cs|
        && Authority(cs[i].record.source.sourceClass) == Authority(w.record.source.sourceClass)
        && Authority(cs[j].record.source.sourceClass) == Authority(w.record.source.sourceClass)
        && AssertionOf(cs[i].record) != AssertionOf(cs[j].record);
      TopOfWinner(cs, cs[i]);
      TopOfWinner(cs, cs[j]);
      assert cs[i] in cs && cs[j] in cs;
    }
  }

  /**
   * CONSISTENT means that all candidates agree, AMBIGUOUS that two of maximal authority disagree; in every other case the
   * declared assertion is the one all candidates of maximal authority share.
   */
  lemma ContradictionsAreExact(cs: seq<Stored>)
    requires cs != []
    ensures Classify(cs) == Consistent <==> Unanimous(cs)
    ensures Classify(cs) == Ambiguous <==> TopDisagreement(cs)
    ensures Classify(cs) != Ambiguous ==>
              forall st :: st in cs && IsTop(cs, st) ==> AssertionOf(st.record) == AssertionOf(cs[Winner(cs)].record)
    ensures cs[Winner(cs)] in cs && IsTop(cs, cs[Winner(cs)])
  {
    hide Winner, AssertionOf, AllAgree, TopAgree, IsTop, RealDissent, IsReal;
    UnanimousMeansAllAgree(cs);
    TopAgreeMeansNoDisagreement(cs);
    assert cs[Winner(cs)] in cs;
    TopOfWinner(cs, cs[Winner(cs)]);
  }

  lemma SameMembers(a: seq<Stored>, b: seq<Stored>)
    requires multiset(a) == multiset(b)
    ensures forall st :: st in a <==> st in b
  {
    forall st ensures st in a <==> st in b {
      assert st in a <==> st in multiset(a);
      assert st in b <==> st in multiset(b);
    }
  }

  /** The order in which records are stored decides neither whether an answer is ambiguous nor, if it is not, what it declares. */
  lemma OrderDoesNotMatter(s: State, records: seq<Stored>, permuted: seq<Stored>, d: Device, target: nat)
    requires multiset(records) == multiset(permuted)
    ensures var a, b := Candidates(s, records, d, target), Candidates(s, permuted, d, target);
      && (a == [] <==> b == [])
      && (a != [] ==>
            && (Classify(a) == Ambiguous <==> Classify(b) == Ambiguous) && (Classify(a) == Consistent <==> Classify(b) == Consistent)
            && (Classify(a) != Ambiguous ==> AssertionOf(a[Winner(a)].record) == AssertionOf(b[Winner(b)].record)))
  {
    hide Candidates, Winner, Classify, AssertionOf, Current;
    var a, b := Candidates(s, records, d, target), Candidates(s, permuted, d, target);
    CandidatesAre(s, records, d, target);
    CandidatesAre(s, permuted, d, target);
    SameMembers(records, permuted);
    assert forall st :: st in a <==> st in b;
    if a != [] { assert a[0] in b; ContradictionsAreExact(a); }
    if b != [] { assert b[0] in a; ContradictionsAreExact(b); }
  }

  /** A synthetic answer is given only when there is nothing else. */
  lemma SyntheticOnlyAlone(cs: seq<Stored>)
    requires cs != [] && cs[Winner(cs)].record.source.sourceClass == SyntheticBackend
    ensures forall st :: st in cs ==> st.record.source.sourceClass == SyntheticBackend
  {
    hide Winner;
    WinnerHasTopAuthority(cs);
    forall st | st in cs ensures st.record.source.sourceClass == SyntheticBackend {
      var i :| 0 <= i < |cs| && cs[i] == st;
    }
  }

  // ---- quirks -----------------------------------------------------------------------------------

  function GatheredCount(s: State, ids: seq<nat>, device: nat, d: Device, capability: nat, facts: C.Facts): nat
    requires forall i :: 0 <= i < |ids| ==> ids[i] in s.quirks
  {
    if ids == [] then 0
    else (if Gathered(s.quirks[ids[0]], device, d, capability, facts) then 1 else 0) + GatheredCount(s, ids[1..], device, d, capability, facts)
  }

  /** Within the query bound every impacting quirk is gathered. */
  lemma {:induction false} GatherIsComplete(
    s: State, ids: seq<nat>, n: nat, device: nat, d: Device, capability: nat, facts: C.Facts, a: Application)
    requires forall i :: 0 <= i < |ids| ==> ids[i] in s.quirks
    requires n + GatheredCount(s, ids, device, d, capability, facts) <= s.config.limits.maxQueryResults
    ensures a in Gather(s, ids, n, device, d, capability, facts) <==>
      exists id :: id in ids && Gathered(s.quirks[id], device, d, capability, facts) && a == Judge(s.quirks[id], device, d, facts)
  {
    hide Gathered, Judge;
    if ids != [] {
      assert ids == [ids[0]] + ids[1..];
      var q := s.quirks[ids[0]];
      if Gathered(q, device, d, capability, facts) {
        if n + 1 >= s.config.limits.maxQueryResults {
          NothingMore(s, ids[1..], device, d, capability, facts);
        } else {
          GatherIsComplete(s, ids[1..], n + 1, device, d, capability, facts, a);
        }
      } else {
        GatherIsComplete(s, ids[1..], n, device, d, capability, facts, a);
      }
    }
  }

  lemma {:induction false} NothingMore(s: State, ids: seq<nat>, device: nat, d: Device, capability: nat, facts: C.Facts)
    requires forall i :: 0 <= i < |ids| ==> ids[i] in s.quirks
    requires GatheredCount(s, ids, device, d, capability, facts) == 0
    ensures forall id :: id in ids ==> !Gathered(s.quirks[id], device, d, capability, facts)
  {
    hide Gathered;
    if ids != [] { NothingMore(s, ids[1..], device, d, capability, facts); }
  }

  /** Some quirk that applies to the capability has one of these severities. */
  predicate SomeApplies(s: State, device: nat, d: Device, capability: nat, facts: C.Facts, severities: set<Q.Severity>) {
    exists id :: id in s.quirks && !s.quirks[id].withdrawn && capability in s.quirks[id].impacted
      && s.quirks[id].severity in severities
      && Q.Applicable(s.quirks[id].applicability, device, d.hardware, d.software, facts) == Q.Applies
  }

  /** The decision of the most severe quirk that applies. */
  function Severest(s: State, device: nat, d: Device, capability: nat, facts: C.Facts): EffectiveSupport {
    if SomeApplies(s, device, d, capability, facts, {Q.Unusable, Q.Fatal}) then BlockedByQuirk
    else if SomeApplies(s, device, d, capability, facts, {Q.Caveat, Q.Degraded}) then SupportedWithCaveat
    else Supported
  }

  predicate SomeGathered(apps: seq<Application>, severities: set<Q.Severity>) {
    exists a :: a in apps && a.verdict == Q.Applies && a.severity in severities
  }

  lemma GatherFindsSeverities(
    s: State, ids: seq<nat>, device: nat, d: Device, capability: nat, facts: C.Facts, severities: set<Q.Severity>)
    requires IsEnumeration(ids, s.quirks.Keys)
    requires GatheredCount(s, ids, device, d, capability, facts) <= s.config.limits.maxQueryResults
    ensures SomeGathered(Gather(s, ids, 0, device, d, capability, facts), severities) <==>
      SomeApplies(s, device, d, capability, facts, severities)
  {
    hide Gather, GatheredCount, Q.Applicable;
    var apps := Gather(s, ids, 0, device, d, capability, facts);
    if SomeApplies(s, device, d, capability, facts, severities) {
      var id :| id in s.quirks && !s.quirks[id].withdrawn && capability in s.quirks[id].impacted
        && s.quirks[id].severity in severities
        && Q.Applicable(s.quirks[id].applicability, device, d.hardware, d.software, facts) == Q.Applies;
      var a := Judge(s.quirks[id], device, d, facts);
      assert id in ids && Gathered(s.quirks[id], device, d, capability, facts);
      GatherIsComplete(s, ids, 0, device, d, capability, facts, a);
    }
    if SomeGathered(apps, severities) {
      var a :| a in apps && a.verdict == Q.Applies && a.severity in severities;
      GatherIsComplete(s, ids, 0, device, d, capability, facts, a);
    }
  }

  lemma EffectiveOfGathered(declared: Support, outcome: C.Outcome, apps: seq<Application>)
    requires AssertsUsable(declared) && (outcome == C.Satisfied || outcome == C.NotApplicable)
    ensures Effective(declared, outcome, apps) ==
      if SomeGathered(apps, {Q.Unusable, Q.Fatal}) then BlockedByQuirk
      else if SomeGathered(apps, {Q.Caveat, Q.Degraded}) then SupportedWithCaveat else Supported
  {
    if SomeGathered(apps, {Q.Unusable, Q.Fatal}) {
      var a :| a in apps && a.verdict == Q.Applies && a.severity in {Q.Unusable, Q.Fatal};
      var i :| 0 <= i < |apps| && apps[i] == a;
      assert Blocks(apps[i]);
    }
    if SomeGathered(apps, {Q.Caveat, Q.Degraded}) {
      var a :| a in apps && a.verdict == Q.Applies && a.severity in {Q.Caveat, Q.Degraded};
      var i :| 0 <= i < |apps| && apps[i] == a;
      assert Caveats(apps[i]);
    }
    forall i | 0 <= i < |apps| && Blocks(apps[i]) ensures SomeGathered(apps, {Q.Unusable, Q.Fatal}) { assert apps[i] in apps; }
    forall i | 0 <= i < |apps| && Caveats(apps[i]) ensures SomeGathered(apps, {Q.Caveat, Q.Degraded}) { assert apps[i] in apps; }
  }

  /** Within the query bound the most severe applicable quirk decides, in whatever order the quirks are visited. */
  lemma SeverestQuirkDecides(
    s: State, ids: seq<nat>, device: nat, d: Device, capability: nat, facts: C.Facts, declared: Support, outcome: C.Outcome)
    requires IsEnumeration(ids, s.quirks.Keys)
    requires GatheredCount(s, ids, device, d, capability, facts) <= s.config.limits.maxQueryResults
    requires AssertsUsable(declared) && (outcome == C.Satisfied || outcome == C.NotApplicable)
    ensures Effective(declared, outcome, Gather(s, ids, 0, device, d, capability, facts)) == Severest(s, device, d, capability, facts)
  {
    hide Gather, GatheredCount, SomeApplies, SomeGathered, Effective;
    EffectiveOfGathered(declared, outcome, Gather(s, ids, 0, device, d, capability, facts));
    GatherFindsSeverities(s, ids, device, d, capability, facts, {Q.Unusable, Q.Fatal});
    GatherFindsSeverities(s, ids, device, d, capability, facts, {Q.Caveat, Q.Degraded});
  }

  function Freedom(e: EffectiveSupport): nat {
    match e
    case Supported => 2
    case SupportedWithCaveat => 1
    case _ => 0
  }

  lemma NewQuirkStillApplies(s: State, q: Quirk, device: nat, d: Device, capability: nat, facts: C.Facts, severities: set<Q.Severity>)
    requires q.id !in s.quirks && SomeApplies(s, device, d, capability, facts, severities)
    ensures SomeApplies(s.(quirks := s.quirks[q.id := q]), device, d, capability, facts, severities)
  {
    hide Q.Applicable;
    var t := s.(quirks := s.quirks[q.id := q]);
    var id :| id in s.quirks && !s.quirks[id].withdrawn && capability in s.quirks[id].impacted
      && s.quirks[id].severity in severities
      && Q.Applicable(s.quirks[id].applicability, device, d.hardware, d.software, facts) == Q.Applies;
    assert id in t.quirks && t.quirks[id] == s.quirks[id];
  }

  /** Publishing a quirk under a new id never raises an answer while the impacting quirks fit the query bound. */
  lemma NewQuirkNeverRaises(
    s: State, q: Quirk, ids: seq<nat>, more: seq<nat>, device: nat, d: Device, capability: nat, facts: C.Facts,
    declared: Support, outcome: C.Outcome)
    requires q.id !in s.quirks && IsEnumeration(ids, s.quirks.Keys)
    requires var t := s.(quirks := s.quirks[q.id := q]);
      IsEnumeration(more, t.quirks.Keys) && GatheredCount(t, more, device, d, capability, facts) <= s.config.limits.maxQueryResults
    requires GatheredCount(s, ids, device, d, capability, facts) <= s.config.limits.maxQueryResults
    requires AssertsUsable(declared) && (outcome == C.Satisfied || outcome == C.NotApplicable)
    ensures var t := s.(quirks := s.quirks[q.id := q]);
      Freedom(Effective(declared, outcome, Gather(t, more, 0, device, d, capability, facts)))
      <= Freedom(Effective(declared, outcome, Gather(s, ids, 0, device, d, capability, facts)))
  {
    hide Gather, GatheredCount, SomeApplies, Effective;
    var t := s.(quirks := s.quirks[q.id := q]);
    SeverestQuirkDecides(s, ids, device, d, capability, facts, declared, outcome);
    SeverestQuirkDecides(t, more, device, d, capability, facts, declared, outcome);
    if SomeApplies(s, device, d, capability, facts, {Q.Unusable, Q.Fatal}) {
      NewQuirkStillApplies(s, q, device, d, capability, facts, {Q.Unusable, Q.Fatal});
    }
    if SomeApplies(s, device, d, capability, facts, {Q.Caveat, Q.Degraded}) {
      NewQuirkStillApplies(s, q, device, d, capability, facts, {Q.Caveat, Q.Degraded});
    }
  }

  // ---- more facts never unblock --------------------------------------------------------------------

  ghost predicate QuirksSameGates(s: State, facts: C.Facts, more: C.Facts) {
    forall id :: id in s.quirks ==> C.SameGates(s.quirks[id].applicability.platformConditions, facts, more)
  }

  lemma {:induction false} BlockingStaysGathered(
    s: State, ids: seq<nat>, n: nat, m: nat, device: nat, d: Device, capability: nat, facts: C.Facts, more: C.Facts)
    requires forall i :: 0 <= i < |ids| ==> ids[i] in s.quirks
    requires m <= n && C.Extends(facts, more) && QuirksSameGates(s, facts, more)
    requires SomeGathered(Gather(s, ids, n, device, d, capability, facts), {Q.Unusable, Q.Fatal})
    ensures SomeGathered(Gather(s, ids, m, device, d, capability, more), {Q.Unusable, Q.Fatal})
  {
    hide Q.Applicable, C.SameGates, C.Extends;
    if ids != [] {
      var q, rest := s.quirks[ids[0]], ids[1..];
      Q.MoreFactsKeepVerdict(q.applicability, device, d.hardware, d.software, facts, more);
      var before, after := Gather(s, ids, n, device, d, capability, facts), Gather(s, ids, m, device, d, capability, more);
      var a :| a in before && a.verdict == Q.Applies && a.severity in {Q.Unusable, Q.Fatal};
      if Gathered(q, device, d, capability, facts) && a == Judge(q, device, d, facts) {
        assert Judge(q, device, d, more) == a && after[0] == a;
      } else {
        var n' := if Gathered(q, device, d, capability, facts) then n + 1 else n;
        var m' := if Gathered(q, device, d, capability, more) then m + 1 else m;
        assert a in Gather(s, rest, n', device, d, capability, facts);
        BlockingStaysGathered(s, rest, n', m', device, d, capability, facts, more);
      }
    }
  }

  /**
   * When facts are added that decide no feature gate, an answer whose conditions were unmet stays unmet and one that was
   * blocked by a quirk stays blocked.
   */
  lemma MoreFactsNeverUnblock(s: State, k: KeyId, pinned: nat, facts: C.Facts, more: C.Facts, ids: seq<nat>)
    requires k.0 in s.devices && k in s.keys && forall i :: 0 <= i < |ids| ==> ids[i] in s.quirks
    requires C.Extends(facts, more) && QuirksSameGates(s, facts, more)
    requires C.SameGates(Resolve(s, k.0, k.1, pinned, facts, ids).conditions, facts, more)
    ensures var before, after := Resolve(s, k.0, k.1, pinned, facts, ids).effective, Resolve(s, k.0, k.1, pinned, more, ids).effective;
      before == SupportedConditionalUnmet || before == BlockedByQuirk ==> after == before
  {
    hide Candidates, Winner, Gather, C.Evaluate, Classify, Newest, AllFlags, QuirksSameGates, C.SameGates, C.Extends, SomeGathered, Effective;
    assert k == (k.0, k.1);
    var d, records := s.devices[k.0], s.keys[k].records;
    var cs := Candidates(s, records, d, Target(d, pinned));
    if cs != [] {
      var r := cs[Winner(cs)].record;
      C.MoreFactsKeepDecisions(r.conditions, facts, more);
      var apps, appsMore := Gather(s, ids, 0, k.0, d, k.1, facts), Gather(s, ids, 0, k.0, d, k.1, more);
      if SomeGathered(apps, {Q.Unusable, Q.Fatal}) { BlockingStaysGathered(s, ids, 0, 0, k.0, d, k.1, facts, more); }
      StaysBlocked(r.support, C.Evaluate(r.conditions, facts), apps, C.Evaluate(r.conditions, more), appsMore);
    }
  }

  lemma StaysBlocked(declared: Support, outcome: C.Outcome, apps: seq<Application>, later: C.Outcome, appsLater: seq<Application>)
    requires outcome != C.Unknown ==> later == outcome
    requires SomeGathered(apps, {Q.Unusable, Q.Fatal}) ==> SomeGathered(appsLater, {Q.Unusable, Q.Fatal})
    ensures var before := Effective(declared, outcome, apps);
      before == SupportedConditionalUnmet || before == BlockedByQuirk ==> Effective(declared, later, appsLater) == before
  {
    hide SomeGathered;
    if AssertsUsable(declared) && (outcome == C.Satisfied || outcome == C.NotApplicable) {
      EffectiveOfGathered(declared, outcome, apps);
      EffectiveOfGathered(declared, later, appsLater);
    }
  }
}
