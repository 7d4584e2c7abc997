// Quirks and compatibility facts (src/registry.cpp:1517-1700): which
// publications of them are accepted, and what they change.
module Catalogue {
  import opened Basics
  import C = Conditions
  import Q = Quirks
  import V = Versions
  import opened Model
  import opened Steps

  // ---- quirks --------------------------------------------------------------------------------

  /** Every capability it impacts is that of some schema. */
  predicate NamesCapabilities(config: Config, q: Quirk) {
    forall c :: c in q.impacted ==> exists id :: id in config.schemas && config.schemas[id].capability == c
  }

  lemma NamesCapabilitiesIff(config: Config, q: Quirk)
    ensures ImpactsKnown(config, q) <==> NamesCapabilities(config, q)
  {
    if ImpactsKnown(config, q) {
      forall c | c in q.impacted ensures exists id :: id in config.schemas && config.schemas[id].capability == c {
        var i :| 0 <= i < |q.impacted| && q.impacted[i] == c;
        assert KnownCapability(config, q.impacted[i]);
      }
    }
    if NamesCapabilities(config, q) {
      forall i | 0 <= i < |q.impacted| ensures KnownCapability(config, q.impacted[i]) { assert q.impacted[i] in q.impacted; }
    }
  }

  predicate SameQuirk(a: Quirk, b: Quirk) {
    a.title == b.title && a.severity == b.severity && a.category == b.category && a.impacted == b.impacted
  }

  /** The reply to a published quirk, in terms of the generation that is stored. */
  function QuirkReply(s: State, q: Quirk): Code {
    if !NamesCapabilities(s.config, q) then RejectedUnknownSchema
    else if q.generation == 0 then RejectedValidation
    else if q.id in s.quirks then
      if q.generation > s.quirks[q.id].generation then Accepted
      else if q.generation < s.quirks[q.id].generation then RejectedGenerationRegression
      else if SameQuirk(s.quirks[q.id], q) then AcceptedIdempotent else RejectedDuplicateConflict
    else if |s.quirks| >= s.config.limits.maxQuirks then RejectedLimit
    else if q.generation == 1 then Accepted else RejectedStaleCapabilityGeneration
  }

  /** A quirk is stored exactly when its publication is accepted as new, and then replaces what its id stood for. */
  lemma QuirkIsExact(s: State, q: Quirk)
    ensures var o := ApplyQuirk(s, q, false);
      o.reply == Plain(QuirkReply(s, q)) && o.state == s.(quirks := if o.reply.code == Accepted then s.quirks[q.id := q] else s.quirks)
  {
    hide ImpactsKnown, NamesCapabilities;
    NamesCapabilitiesIff(s.config, q);
  }

  /** A withdrawal marks the stored quirk, once, and changes nothing else of it. */
  lemma QuirkWithdrawalIsExact(s: State, q: Quirk)
    ensures var o := ApplyQuirk(s, q, true);
      if !NamesCapabilities(s.config, q) then o == Outcome(s, Plain(RejectedUnknownSchema))
      else if q.id !in s.quirks then o == Outcome(s, Plain(RejectedUnknownDevice))
      else
        && o.reply == Plain(if s.quirks[q.id].withdrawn then AcceptedIdempotent else Accepted)
        && o.state == s.(quirks := o.state.quirks) && o.state.quirks.Keys == s.quirks.Keys
        && (forall id :: id in s.quirks && id != q.id ==> o.state.quirks[id] == s.quirks[id])
        && o.state.quirks[q.id].withdrawn && o.state.quirks[q.id] == s.quirks[q.id].(withdrawn := true)
  {
    hide ImpactsKnown, NamesCapabilities;
    NamesCapabilitiesIff(s.config, q);
  }

  // ---- facts ------------------------------------------------------------------------------------

  /** What a reference names has been registered; software and vendors are not looked up. */
  predicate IsRegistered(s: State, r: Reference) {
    && (r.kind == DeviceReference ==> r.token in s.devices)
    && (r.kind == PlatformReference ==> r.token in s.platforms)
    && (r.kind == FamilyReference ==> r.token in s.families)
    && (r.kind == ModelReference ==> r.token in s.models)
    && (r.kind == ArchitectureReference ==> r.token in s.architectures)
  }

  lemma RegisteredIff(s: State, f: Fact)
    ensures BothResolve(Known(s), f) <==> IsRegistered(s, f.lhs) && IsRegistered(s, f.rhs)
  {}

  /** Same kind and name, and versions that compare equal, or are both none. */
  lemma SameReferenceIff(a: Reference, b: Reference)
    ensures SameReference(a, b) <==>
      && a.kind == b.kind && a.token == b.token
      && (V.Parse(a.version).raw == "" <==> V.Parse(b.version).raw == "")
      && (V.Parse(a.version).raw != "" ==> forall k: nat :: V.At(V.Parse(a.version), k) == V.At(V.Parse(b.version), k))
  {
    if V.Parse(a.version).raw != "" && V.Parse(b.version).raw != "" { V.EqualIffPaddedEqual(V.Parse(a.version), V.Parse(b.version)); }
  }

  predicate SameFact(a: Fact, b: Fact) {
    a.outcome == b.outcome && SameReference(a.lhs, b.lhs) && SameReference(a.rhs, b.rhs) && a.reason == b.reason
  }

  function FactReply(s: State, f: Fact): Code {
    if !IsRegistered(s, f.lhs) || !IsRegistered(s, f.rhs) || f.generation == 0 then RejectedValidation
    else if f.id in s.facts then
      if f.generation > s.facts[f.id].generation then Accepted
      else if f.generation < s.facts[f.id].generation then RejectedGenerationRegression
      else if SameFact(s.facts[f.id], f) then AcceptedIdempotent else RejectedDuplicateConflict
    else if |s.facts| >= s.config.limits.maxFacts then RejectedLimit
    else if f.generation == 1 then Accepted else RejectedStaleCapabilityGeneration
  }

  /** A fact is stored exactly when its publication is accepted as new. */
  lemma FactIsExact(s: State, f: Fact)
    ensures var o := ApplyFact(s, f, false);
      o.reply == Plain(FactReply(s, f)) && o.state == s.(facts := if o.reply.code == Accepted then s.facts[f.id := f] else s.facts)
  {
    hide BothResolve, SameReference, IsRegistered;
    RegisteredIff(s, f);
  }

  /** A withdrawal marks the stored fact, once, and takes over who withdrew it. */
  lemma FactWithdrawalIsExact(s: State, f: Fact)
    ensures var o := ApplyFact(s, f, true);
      if !IsRegistered(s, f.lhs) || !IsRegistered(s, f.rhs) then o == Outcome(s, Plain(RejectedValidation))
      else if f.id !in s.facts then o == Outcome(s, Plain(RejectedUnknownDevice))
      else if s.facts[f.id].withdrawn then o == Outcome(s, Plain(AcceptedIdempotent))
      else
        && o.reply == Plain(Accepted) && o.state == s.(facts := o.state.facts) && o.state.facts.Keys == s.facts.Keys
        && (forall id :: id in s.facts && id != f.id ==> o.state.facts[id] == s.facts[id])
        && o.state.facts[f.id] == s.facts[f.id].(withdrawn := true, source := f.source)
  {
    hide BothResolve, SameReference, IsRegistered;
    RegisteredIff(s, f);
  }

  // ---- publications ------------------------------------------------------------------------------

  /** Which handler each kind of publication goes to. */
  lemma HandlersAre(s: State, pub: Publication)
    ensures pub.kind == PublishQuirk ==>
      Handle(s, pub).reply == Plain(QuirkReply(s, pub.quirk))
      && Handle(s, pub).state.quirks == if QuirkReply(s, pub.quirk) == Accepted then s.quirks[pub.quirk.id := pub.quirk] else s.quirks
    ensures pub.kind == WithdrawQuirk && Handle(s, pub).reply.code == Accepted ==>
      pub.quirk.id in s.quirks && pub.quirk.id in Handle(s, pub).state.quirks && Handle(s, pub).state.quirks[pub.quirk.id].withdrawn
    ensures pub.kind == PublishCompatibility ==>
      Handle(s, pub).reply == Plain(FactReply(s, pub.compatibility))
      && Handle(s, pub).state.facts ==
           if FactReply(s, pub.compatibility) == Accepted then s.facts[pub.compatibility.id := pub.compatibility] else s.facts
    ensures pub.kind == WithdrawCompatibility && Handle(s, pub).reply.code == Accepted ==>
      pub.compatibility.id in s.facts && pub.compatibility.id in Handle(s, pub).state.facts
      && Handle(s, pub).state.facts[pub.compatibility.id].withdrawn
    ensures pub.kind == PublishCapability || pub.kind == WithdrawCapability ==> Handle(s, pub) == ApplyCapability(s, pub.capability)
    ensures pub.kind == Heartbeat ==> Handle(s, pub) == Outcome(s, Plain(Accepted))
  {
    hide ApplyQuirk, ApplyFact, ApplyCapability, ApplyDevice, QuirkReply, FactReply, NamesCapabilities, IsRegistered;
    QuirkIsExact(s, pub.quirk);
    QuirkWithdrawalIsExact(s, pub.quirk);
    FactIsExact(s, pub.compatibility);
    FactWithdrawalIsExact(s, pub.compatibility);
  }
}
