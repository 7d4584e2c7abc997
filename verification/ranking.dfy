// Which evidence is preferred (src/registry.cpp:475-683, src/provenance.cpp),
// stated for the stored records of a key: the ranking of sources, precisions and
// provenances, the record that answers, and every part of the answer.
module Ranking {
  import opened Basics
  import C = Conditions
  import Q = Quirks
  import opened Model
  import opened Steps
  import opened Eviction
  import opened Resolution

  // ---- tables ------------------------------------------------------------------------------

  /** Sources from the least to the most authoritative. */
  lemma SourcesAreOrdered()
    ensures Authority(SyntheticBackend) < Authority(Unspecified) < Authority(ImportedManifest) < Authority(StaticCuratedDatabase)
      < Authority(AcpiSmbios) < Authority(PciConfiguration) < Authority(OsEnumeration) < Authority(NicDriverApi)
      < Authority(CxlEnumeration) < Authority(RocmSmi) < Authority(Nvml) < Authority(CudaRuntime) < Authority(RuntimeProbe)
      < Authority(FirmwareQuery) < Authority(DriverQuery) < Authority(LiveVendorApi) < Authority(HardwareProbe)
  {}

  /** Precisions from the least to the most precise. */
  lemma PrecisionsAreOrdered()
    ensures Rank(UnknownPrecision) < Rank(Inferred) < Rank(Curated) < Rank(DerivedPrecision) < Rank(DirectReported) < Rank(Probed)
      < Rank(Exact)
  {}

  /** Severities from the mildest to the worst. */
  lemma SeveritiesAreOrdered()
    ensures Q.SeverityRank(Q.Informational) < Q.SeverityRank(Q.Caveat) < Q.SeverityRank(Q.Degraded) < Q.SeverityRank(Q.Unusable)
      < Q.SeverityRank(Q.Fatal)
  {}

  /** Synthetic and unknown sources come before durable knowledge, and that before what was observed on real hardware. */
  lemma ProvenancesAreOrdered(p: Provenance)
    ensures Strength(Synthetic) < Strength(UnknownSource) < Strength(Imported) < Strength(CuratedStatic) < Strength(Derived)
      < Strength(RealOsReported) < Strength(RealVendorApi) < Strength(RealRuntimeProbe) < Strength(RealLiveHardware)
    ensures IsReal(p) <==> Strength(p) >= Strength(RealOsReported)
    ensures IsDurable(p) <==> Strength(Imported) <= Strength(p) <= Strength(Derived)
  {}

  /** Which sources may claim a provenance. */
  lemma AllowedIff(p: Provenance, c: SourceClass)
    ensures AllowedFor(p, c) <==>
      match p
      case Synthetic => true
      case UnknownSource => c != SyntheticBackend
      case Imported => c != SyntheticBackend && c != Unspecified
      case CuratedStatic => c != SyntheticBackend && c != Unspecified && c != ImportedManifest
      case Derived => Authority(c) >= Authority(AcpiSmbios)
      case RealOsReported => Authority(c) >= Authority(AcpiSmbios)
      case RealVendorApi => Authority(c) >= Authority(NicDriverApi)
      case RealRuntimeProbe => Authority(c) >= Authority(RuntimeProbe)
      case RealLiveHardware => c == LiveVendorApi || c == HardwareProbe
  {
    match c { case _ => }
  }

  // ---- the winner -----------------------------------------------------------------------------

  /**
   * `r` has no larger authority than `w`; if they are equal there no higher precision; if there too no later evidence
   * generation; then no smaller publisher; then no later observation.
   */
  predicate NoBetter(r: Record, w: Record) {
    var x, y := r.source, w.source;
    && Authority(x.sourceClass) <= Authority(y.sourceClass)
    && (Authority(x.sourceClass) == Authority(y.sourceClass) ==> Rank(r.precision) <= Rank(w.precision))
    && (Authority(x.sourceClass) == Authority(y.sourceClass) && Rank(r.precision) == Rank(w.precision) ==>
          && x.evidenceGeneration <= y.evidenceGeneration
          && (x.evidenceGeneration == y.evidenceGeneration ==> x.publisher.id >= y.publisher.id)
          && (x.evidenceGeneration == y.evidenceGeneration && x.publisher.id == y.publisher.id ==>
                x.observationSequence <= y.observationSequence))
  }

  /** They agree in all of that. */
  predicate Ties(r: Record, w: Record) {
    && Authority(r.source.sourceClass) == Authority(w.source.sourceClass) && Rank(r.precision) == Rank(w.precision)
    && r.source.evidenceGeneration == w.source.evidenceGeneration && r.source.publisher.id == w.source.publisher.id
    && r.source.observationSequence == w.source.observationSequence
  }

  /** The `i`-th record is current, and no current record is better, or as good and earlier. */
  predicate IsBest(s: State, records: seq<Stored>, d: Device, target: nat, i: nat)
    requires i < |records|
  {
    && Current(s, records[i], d, target)
    && forall j :: 0 <= j < |records| && Current(s, records[j], d, target) ==>
         NoBetter(records[j].record, records[i].record) && (Ties(records[j].record, records[i].record) ==> i <= j)
  }

  lemma PrecedesIff(a: Record, b: Record)
    ensures Precedes(a, b) <==> !NoBetter(a, b)
    ensures NoBetter(b, a) <==> Precedes(a, b) || Ties(a, b)
  {
    hide Authority, Rank;
  }

  lemma NoBetterTransitive(a: Record, b: Record, c: Record)
    requires NoBetter(a, b) && NoBetter(b, c)
    ensures NoBetter(a, c) && (Ties(a, c) ==> Ties(b, c))
  {
    hide Authority, Rank;
  }

  /** The winner among the candidates is the first best of the stored records. */
  lemma {:induction false} WinnerIsFirstBest(s: State, records: seq<Stored>, d: Device, target: nat) returns (i: nat)
    requires Candidates(s, records, d, target) != []
    ensures i < |records| && IsBest(s, records, d, target, i)
    ensures var cs := Candidates(s, records, d, target); cs[Winner(cs)] == records[i]
    decreases |records|
  {
    hide Current, NoBetter, Ties, Precedes;
    var n := |records| - 1;
    var front, cs := Candidates(s, records[..n], d, target), Candidates(s, records, d, target);
    CandidatesAre(s, records[..n], d, target);
    if !Current(s, records[n], d, target) {
      i := WinnerIsFirstBest(s, records[..n], d, target);
      Extended(s, records, d, target, i);
    } else if front == [] {
      i := n;
      forall j | 0 <= j < n ensures !Current(s, records[j], d, target) { assert records[..n][j] in records[..n]; }
      PrecedesIff(records[n].record, records[n].record);
      NotBefore(records[n].record);
    } else {
      var w := WinnerIsFirstBest(s, records[..n], d, target);
      assert cs[..|cs| - 1] == front;
      PrecedesIff(records[n].record, records[w].record);
      i := if Precedes(records[n].record, records[w].record) then n else w;
      BestOfTwo(s, records, d, target, w);
    }
  }

  lemma Extended(s: State, records: seq<Stored>, d: Device, target: nat, i: nat)
    requires records != [] && i < |records| - 1 && IsBest(s, records[..|records| - 1], d, target, i)
    requires !Current(s, records[|records| - 1], d, target)
    ensures IsBest(s, records, d, target, i)
  {
    hide Current, NoBetter, Ties;
    var front := records[..|records| - 1];
    assert forall j :: 0 <= j < |front| ==> front[j] == records[j];
  }

  lemma BestOfTwo(s: State, records: seq<Stored>, d: Device, target: nat, w: nat)
    requires records != [] && w < |records| - 1 && IsBest(s, records[..|records| - 1], d, target, w)
    requires Current(s, records[|records| - 1], d, target)
    ensures var n := |records| - 1;
      IsBest(s, records, d, target, if Precedes(records[n].record, records[w].record) then n else w)
  {
    hide Current, NoBetter, Ties, Precedes;
    var n := |records| - 1;
    var front := records[..n];
    assert forall j :: 0 <= j < n ==> front[j] == records[j];
    PrecedesIff(records[n].record, records[w].record);
    PrecedesIff(records[n].record, records[n].record);
    NotBefore(records[n].record);
    forall j | 0 <= j < n && Current(s, records[j], d, target)
      ensures Precedes(records[n].record, records[w].record) ==>
        NoBetter(records[j].record, records[n].record) && !Ties(records[j].record, records[n].record)
    {
      assert NoBetter(front[j].record, front[w].record);
      if Precedes(records[n].record, records[w].record) {
        NoBetterTransitive(records[j].record, records[w].record, records[n].record);
        TiesIsNoBetter(records[w].record, records[n].record);
      }
    }
  }

  lemma TiesIsNoBetter(a: Record, b: Record)
    ensures Ties(a, b) ==> NoBetter(a, b) && NoBetter(b, a)
  {
    hide Authority, Rank;
  }

  // ---- the answer ------------------------------------------------------------------------------

  /** Two records assert the same: the support, whether there is a value, its rendering, and the rendering of the conditions. */
  lemma SameAssertionIff(a: Record, b: Record)
    ensures AssertionOf(a) == AssertionOf(b) <==>
      && a.support == b.support && (a.value.Value? <==> b.value.Value?)
      && (a.value.Value? && b.value.Value? ==> a.value.rendering == b.value.rendering)
      && C.Describe(a.conditions) == C.Describe(b.conditions)
  {
    hide C.Describe;
  }

  /** Two records make the same claim: values count as equal by kind and meaning, whatever their rendering. */
  lemma SameContentIff(a: Record, b: Record)
    ensures SameContent(a, b) <==>
      && a.support == b.support && (a.value.Value? <==> b.value.Value?)
      && (a.value.Value? && b.value.Value? ==> a.value.kind == b.value.kind && a.value.meaning == b.value.meaning)
      && C.Describe(a.conditions) == C.Describe(b.conditions)
  {
    hide C.Describe;
  }

  /** Without agreement among all or disagreement at the top, live evidence is preferred unless other live evidence dissents. */
  lemma PreferredLiveIff(cs: seq<Stored>)
    requires cs != []
    ensures var w := cs[Winner(cs)].record;
      && (Classify(cs) == PreferredLiveEvidence <==>
            && !Unanimous(cs) && !TopDisagreement(cs)
            && w.source.provenance in {RealLiveHardware, RealOsReported, RealVendorApi, RealRuntimeProbe}
            && forall st :: st in cs && AssertionOf(st.record) != AssertionOf(w) ==>
                 st.record.source.provenance !in {RealLiveHardware, RealOsReported, RealVendorApi, RealRuntimeProbe})
      && (Classify(cs) == PreferredHigherAuthoritySource <==>
            !Unanimous(cs) && !TopDisagreement(cs) && Classify(cs) != PreferredLiveEvidence)
  {
    hide Winner, AssertionOf, AllAgree, TopAgree, Unanimous, TopDisagreement;
    UnanimousMeansAllAgree(cs);
    TopAgreeMeansNoDisagreement(cs);
    var w := cs[Winner(cs)];
    if RealDissent(cs, w) {
      var i :| 0 <= i < |cs| && AssertionOf(cs[i].record) != AssertionOf(w.record) && IsReal(cs[i].record.source.provenance);
      assert cs[i] in cs;
    } else {
      forall st | st in cs && AssertionOf(st.record) != AssertionOf(w.record) ensures !IsReal(st.record.source.provenance) {
        var i :| 0 <= i < |cs| && cs[i] == st;
      }
    }
  }

  /** The `i`-th record is not withdrawn, and of those it has the largest capability generation, and there the largest serial. */
  predicate IsNewest(records: seq<Stored>, i: nat)
    requires i < |records|
  {
    && !records[i].record.withdrawn
    && forall j :: 0 <= j < |records| && !records[j].record.withdrawn ==>
         && records[j].record.capabilityGeneration <= records[i].record.capabilityGeneration
         && (records[j].record.capabilityGeneration == records[i].record.capabilityGeneration ==> records[j].serial <= records[i].serial)
  }

  lemma {:induction false} NewestIsNewest(records: seq<Stored>) returns (i: nat)
    ensures Newest(records) == None <==> forall st :: st in records ==> st.record.withdrawn
    ensures Newest(records).Some? ==> i < |records| && records[i] == Newest(records).value && IsNewest(records, i)
  {
    i := 0;
    if records != [] {
      var n := |records| - 1;
      var front := records[..n];
      i := NewestIsNewest(front);
      assert records == front + [records[n]];
      assert forall j :: 0 <= j < n ==> front[j] == records[j];
      if Newest(records) != Newest(front) { i := n; }
    }
  }

  /**
   * With current evidence the answer is what the first best record says. Without, it is not current and needs revalidation, for
   * every reason some record gives, and declares what the newest claim that was not withdrawn said.
   */
  lemma AnswerIsExact(s: State, k: KeyId, pinned: nat, facts: C.Facts, ids: seq<nat>)
    requires k.0 in s.devices && k in s.keys && forall i :: 0 <= i < |ids| ==> ids[i] in s.quirks
    ensures var d, records, answer := s.devices[k.0], s.keys[k].records, Resolve(s, k.0, k.1, pinned, facts, ids);
      var target := if pinned != 0 then pinned else d.generation;
      && answer.known && answer.schema == s.keys[k].schema && answer.capabilityGeneration == s.keys[k].generation
      && if exists st :: st in records && Current(s, st, d, target) then
           && answer.current && answer.staleness == {} && target == d.generation
           && exists i :: 0 <= i < |records| && IsBest(s, records, d, target, i) && Declares(answer, records[i].record, facts)
         else
           && !answer.current && answer.contradiction == NeedsRevalidation && answer.effective == NotCurrent
           && (forall f :: f in answer.staleness <==>
                 (exists st :: st in records && f in Staleness(s, st, d, target)) || (f == RequiresRevalidation && records == []))
           && if exists st :: st in records && !st.record.withdrawn then
                exists i :: 0 <= i < |records| && IsNewest(records, i) && Declares(answer, records[i].record, facts)
              else
                && answer.declared == Unknown && answer.value == NoValue && answer.precision == UnknownPrecision
                && answer.conditions == C.Null && answer.outcome == C.NotApplicable
  {
    hide Candidates, Winner, Gather, C.Evaluate, Current, Classify, Newest, AllFlags, Effective, IsBest, IsNewest, Staleness;
    assert k == (k.0, k.1);
    var d, records := s.devices[k.0], s.keys[k].records;
    var target := Target(d, pinned);
    var cs := Candidates(s, records, d, target);
    CandidatesAre(s, records, d, target);
    if cs != [] {
      var i := WinnerIsFirstBest(s, records, d, target);
      assert cs[0] in cs;
      CurrentIsAlive(s, cs[0], d, target);
    } else {
      assert forall st :: st !in cs;
      FlagsAreAll(s, records, d, target);
      var i := NewestIsNewest(records);
      if Newest(records).Some? { assert records[i] in records; IsNewestIsKept(records, i); }
    }
  }

  lemma IsNewestIsKept(records: seq<Stored>, i: nat)
    requires i < |records| && IsNewest(records, i)
    ensures !records[i].record.withdrawn
  {}

  /** The answer declares what the record says. */
  predicate Declares(answer: Resolved, r: Record, facts: C.Facts) {
    && answer.declared == r.support && answer.value == r.value && answer.precision == r.precision
    && answer.conditions == r.conditions && answer.outcome == C.Evaluate(r.conditions, facts)
  }

  lemma FlagsAreAll(s: State, records: seq<Stored>, d: Device, target: nat)
    requires forall st :: st in records ==> !Current(s, st, d, target)
    ensures forall f :: f in AllFlags(s, records, d, target) <==> exists st :: st in records && f in Staleness(s, st, d, target)
    ensures AllFlags(s, records, d, target) == {} <==> records == []
  {
    hide HasFlag;
    forall f: Flag ensures f in AllFlags(s, records, d, target) <==> exists st :: st in records && f in Staleness(s, st, d, target) {
      if SomeFlagged(s, records, d, target, f) {
        var i :| 0 <= i < |records| && HasFlag(s, records[i], d, target, f);
        assert records[i] in records && f in Staleness(s, records[i], d, target);
      }
      if st :| st in records && f in Staleness(s, st, d, target) {
        var i :| 0 <= i < |records| && records[i] == st;
        assert SomeFlagged(s, records, d, target, f);
      }
    }
    if records != [] {
      assert records[0] in records;
      var f: Flag :| HasFlag(s, records[0], d, target, f);
      assert SomeFlagged(s, records, d, target, f);
      assert f in AllFlags(s, records, d, target);
    } else {
      assert forall f: Flag :: !SomeFlagged(s, records, d, target, f);
    }
  }

  /** A key nothing is known about is unknown, and not as a current statement. */
  lemma UnknownKeyIsUnknown(s: State, device: nat, capability: nat, pinned: nat, facts: C.Facts, ids: seq<nat>)
    requires device in s.devices && (device, capability) !in s.keys && forall i :: 0 <= i < |ids| ==> ids[i] in s.quirks
    ensures var answer := Resolve(s, device, capability, pinned, facts, ids);
      && !answer.known && !answer.current && answer.declared == Unknown && answer.effective == EffectivelyUnknown
      && answer.contradiction == Consistent && answer.value == NoValue && answer.staleness == {}
  {}

  /**
   * What a current answer comes to while the impacting quirks fit the query bound: what is declared unusable stays so; then
   * unmet or undecided conditions decide; then the quirks that apply.
   */
  lemma EffectiveIsExact(s: State, k: KeyId, pinned: nat, facts: C.Facts, ids: seq<nat>)
    requires k.0 in s.devices && k in s.keys && IsEnumeration(ids, s.quirks.Keys)
    requires GatheredCount(s, ids, k.0, s.devices[k.0], k.1, facts) <= s.config.limits.maxQueryResults
    requires Resolve(s, k.0, k.1, pinned, facts, ids).current
    ensures var d, answer := s.devices[k.0], Resolve(s, k.0, k.1, pinned, facts, ids);
      answer.effective ==
        match answer.declared
        case Unknown => EffectivelyUnknown
        case RevalidationRequired => NotCurrent
        case Unsupported => EffectivelyUnsupported
        case Disabled => EffectivelyDisabled
        case _ =>
          if answer.outcome == C.Unsatisfied then SupportedConditionalUnmet
          else if answer.outcome == C.Unknown then SupportedConditionalUnknown
          else if SomeApplies(s, k.0, d, k.1, facts, {Q.Unusable, Q.Fatal}) then BlockedByQuirk
          else if SomeApplies(s, k.0, d, k.1, facts, {Q.Caveat, Q.Degraded}) then SupportedWithCaveat
          else Supported
  {
    hide Candidates, Winner, Gather, C.Evaluate, Classify, Newest, AllFlags, SomeApplies, GatheredCount;
    assert k == (k.0, k.1);
    var d := s.devices[k.0];
    var cs := Candidates(s, s.keys[k].records, d, Target(d, pinned));
    var r := cs[Winner(cs)].record;
    var outcome := C.Evaluate(r.conditions, facts);
    if AssertsUsable(r.support) && (outcome == C.Satisfied || outcome == C.NotApplicable) {
      SeverestQuirkDecides(s, ids, k.0, d, k.1, facts, r.support, outcome);
    }
  }
}
