// Who may speak and in which order (src/registry.cpp:872-1183, 1847-1954): which
// registrations are accepted and what they assign, which senders are admitted,
// and what becomes of each sequence number.
module Sending {
  import opened Basics
  import C = Conditions
  import opened Model
  import opened Steps
  import opened Eviction
  import opened Invariants
  import opened Admission
  import opened Restart
  import opened Recovery
  import opened History
  import opened Safety
  import opened Replay
  import opened Runs

  lemma PublisherWas(s: State, id: nat)
    requires Inv(s)
    ensures id in s.publishers ==> PublisherOk(s.publishers[id])
  {
    hide Inv, PublisherOk;
    PublishersWere(s);
  }

  // ---- registration -----------------------------------------------------------------------

  predicate SoundAdapter(config: Config, adapter: string) { 1 <= |adapter| <= config.limits.maxMetadataBytes }

  /** The request names the boot the publisher has, and that boot is not fenced. */
  predicate NamesItsBoot(s: State, identity: Identity) {
    && identity.id in s.publishers && identity.boot == s.publishers[identity.id].boot
    && identity.boot !in s.publishers[identity.id].fencedBoots
  }

  /** The boot an accepted request gets: the first, the next one for a fresh process, or the one it has. */
  function AssignedBoot(s: State, identity: Identity): nat {
    if identity.id !in s.publishers then 1
    else if identity.boot == 0 then s.publishers[identity.id].boot + 1
    else s.publishers[identity.id].boot
  }

  predicate MayBeRegistered(s: State, identity: Identity) {
    if identity.id !in s.publishers then |s.publishers| < s.config.limits.maxPublishers && identity.boot <= 1
    else !s.publishers[identity.id].fenced && (identity.boot == 0 || NamesItsBoot(s, identity))
  }

  /** What the reply to a request, and its effect, have to be. */
  ghost predicate RegisteredExactly(s: State, identity: Identity, adapter: string) {
    var o, id, boot := RegisterPublisher(s, identity, adapter), identity.id, AssignedBoot(s, identity);
      && (IsAccepted(o.reply.code) <==> id != 0 && SoundAdapter(s.config, adapter) && MayBeRegistered(s, identity))
      && (!IsAccepted(o.reply.code) ==> o.state == s && o.reply.identity == Identity(0, 0, 0))
      && (IsAccepted(o.reply.code) ==>
            && o.reply.identity == Identity(id, boot, s.epoch)
            && (o.reply.code == AcceptedIdempotent <==> id in s.publishers && identity.boot != 0)
            && id in o.state.publishers && o.state == s.(publishers := s.publishers[id := o.state.publishers[id]])
            && Authoritative(o.state.publishers, id, boot)
            && var p := o.state.publishers[id];
               && p.boot == boot && p.epoch == s.epoch
               && if id in s.publishers then
                    && (forall b :: b in p.fencedBoots <==>
                          b in s.publishers[id].fencedBoots || (identity.boot == 0 && b == s.publishers[id].boot))
                    && p.watermarks == s.publishers[id].watermarks && p.fingerprints == s.publishers[id].fingerprints
                    && p.lastSequence == s.publishers[id].lastSequence
                    && p.maxEvidenceGeneration == s.publishers[id].maxEvidenceGeneration
                  else p.fencedBoots == {} && p.watermarks == map[] && p.fingerprints == map[] && p.lastSequence == 0 && p.maxEvidenceGeneration == 0)
  }

  lemma KnownIsRegistered(s: State, identity: Identity, adapter: string)
    requires identity.id in s.publishers && PublisherOk(s.publishers[identity.id])
    ensures RegisteredExactly(s, identity, adapter)
  {
    hide PublisherOk, RegisteredExactly, RegisterPublisher;
    if identity.id == 0 || !SoundAdapter(s.config, adapter) || s.publishers[identity.id].fenced
       || (identity.boot != 0 && !NamesItsBoot(s, identity)) {
      KnownIsRefused(s, identity, adapter);
    } else if identity.boot == 0 {
      KnownIsRebooted(s, identity, adapter);
    } else {
      KnownIsReaffirmed(s, identity, adapter);
    }
  }

  lemma KnownIsRefused(s: State, identity: Identity, adapter: string)
    requires identity.id in s.publishers
    requires identity.id == 0 || !SoundAdapter(s.config, adapter) || s.publishers[identity.id].fenced
      || (identity.boot != 0 && !NamesItsBoot(s, identity))
    ensures RegisteredExactly(s, identity, adapter)
  {
    hide Reboot, Authoritative;
  }

  lemma KnownIsRebooted(s: State, identity: Identity, adapter: string)
    requires identity.id in s.publishers && PublisherOk(s.publishers[identity.id]) && !s.publishers[identity.id].fenced
    requires identity.id != 0 && SoundAdapter(s.config, adapter) && identity.boot == 0
    ensures RegisteredExactly(s, identity, adapter)
  {
    var p := s.publishers[identity.id];
    var t := s.(publishers := s.publishers[identity.id := Reboot(p, s.epoch)]);
    assert RegisterPublisher(s, identity, adapter) == Outcome(t, Reply(Accepted, Identity(identity.id, p.boot + 1, s.epoch), 0, 0));
  }

  lemma KnownIsReaffirmed(s: State, identity: Identity, adapter: string)
    requires identity.id in s.publishers && !s.publishers[identity.id].fenced
    requires identity.id != 0 && SoundAdapter(s.config, adapter) && identity.boot != 0 && NamesItsBoot(s, identity)
    ensures RegisteredExactly(s, identity, adapter)
  {
    var p := s.publishers[identity.id];
    var t := s.(publishers := s.publishers[identity.id := p.(epoch := s.epoch, state := Registered)]);
    assert RegisterPublisher(s, identity, adapter) == Outcome(t, Reply(AcceptedIdempotent, Identity(identity.id, p.boot, s.epoch), 0, 0));
  }

  lemma NewIsRegistered(s: State, identity: Identity, adapter: string)
    requires identity.id !in s.publishers
    ensures RegisteredExactly(s, identity, adapter)
  {}

  /**
   * A request to register is accepted if and only if it names a publisher and an adapter within bounds and the publisher is new
   * and fits, or is not fenced and asks for its next boot or names its own. It then speaks under the assigned boot and the
   * current epoch; the boot it had before is fenced, and nothing else of it, or of anyone else, changes.
   */
  lemma RegistrationIsExact(s: State, identity: Identity, adapter: string)
    requires Inv(s)
    ensures RegisteredExactly(s, identity, adapter)
  {
    hide Inv, PublisherOk, RegisteredExactly;
    if identity.id in s.publishers {
      PublisherWas(s, identity.id);
      KnownIsRegistered(s, identity, adapter);
    } else {
      NewIsRegistered(s, identity, adapter);
    }
  }

  /** Why a request is refused: in this order an unsound request, the bound, a fenced publisher or boot, another boot. */
  lemma RegistrationRefusals(s: State, identity: Identity, adapter: string)
    requires Inv(s) && !IsAccepted(RegisterPublisher(s, identity, adapter).reply.code)
    ensures var id, code := identity.id, RegisterPublisher(s, identity, adapter).reply.code;
      && (code == RejectedValidation <==> id == 0 || !SoundAdapter(s.config, adapter))
      && (code == RejectedLimit <==>
            code != RejectedValidation && id !in s.publishers && |s.publishers| >= s.config.limits.maxPublishers)
      && (code == RejectedFencedPublisher <==>
            && code != RejectedValidation && id in s.publishers
            && (s.publishers[id].fenced || (identity.boot != 0 && identity.boot in s.publishers[id].fencedBoots)))
      && (code == RejectedStaleBoot <==>
            && code != RejectedValidation && code != RejectedLimit && code != RejectedFencedPublisher
            && identity.boot > (if id in s.publishers then s.publishers[id].boot else 1))
  {
    hide Inv, PublishersOk;
    PublisherWas(s, identity.id);
  }

  // ---- losing authority ---------------------------------------------------------------------

  /** Fencing a publisher takes away its authority under any boot, and that alone. */
  lemma FencingIsExact(s: State, id: nat)
    requires Inv(s)
    ensures var o := FencePublisher(s, id);
      if id !in s.publishers then o == Outcome(s, Plain(RejectedUnknownPublisher))
      else
        && o.reply.code == (if s.publishers[id].fenced then AcceptedIdempotent else Accepted)
        && id in o.state.publishers && o.state == s.(publishers := s.publishers[id := o.state.publishers[id]])
        && var p, q := s.publishers[id], o.state.publishers[id];
           && q.fenced && q.state == Fenced && q == p.(fenced := true, state := Fenced, fencedBoots := q.fencedBoots)
           && (forall b :: b in q.fencedBoots <==> b in p.fencedBoots || b == p.boot)
           && forall boot: nat :: !Authoritative(o.state.publishers, id, boot)
  {
    hide Inv, PublishersOk;
    PublisherWas(s, id);
  }

  /** Retiring a boot fences it, and takes away authority when it is the one the publisher has. */
  lemma RetiringIsExact(s: State, id: nat, boot: nat)
    requires Inv(s)
    ensures var o := RetireBoot(s, id, boot);
      if id !in s.publishers then o == Outcome(s, Plain(RejectedUnknownPublisher))
      else if boot == 0 then o == Outcome(s, Plain(RejectedValidation))
      else
        && o.reply.code == (if boot in s.publishers[id].fencedBoots then AcceptedIdempotent else Accepted)
        && id in o.state.publishers && o.state == s.(publishers := s.publishers[id := o.state.publishers[id]])
        && var p, q := s.publishers[id], o.state.publishers[id];
           && q == p.(state := q.state, fencedBoots := q.fencedBoots)
           && (forall b :: b in q.fencedBoots <==> b in p.fencedBoots || b == boot)
           && (boot == p.boot ==> forall b: nat :: !Authoritative(o.state.publishers, id, b))
           && (boot != p.boot ==> q.state == p.state)
           && (q.state == Registered ==> p.state == Registered)
  {
    hide Inv, PublishersOk;
    PublisherWas(s, id);
  }

  /** A reset leaves no publisher with authority, fences the boots of those that had it, and changes nothing else. */
  lemma ResetIsExact(s: State, id: nat)
    requires Inv(s)
    ensures var t := ResetLiveness(s);
      && t == s.(publishers := t.publishers) && t.publishers.Keys == s.publishers.Keys
      && (id in s.publishers ==>
            var p, q := s.publishers[id], t.publishers[id];
            && q == p.(state := q.state, fencedBoots := q.fencedBoots)
            && q.state == (if p.state == Registered then Dead else p.state)
            && forall b :: b in q.fencedBoots <==> b in p.fencedBoots || (p.state == Registered && b == p.boot))
      && forall boot: nat :: !Authoritative(t.publishers, id, boot)
  {
    hide Inv, PublishersOk;
    PublisherWas(s, id);
  }

  // ---- admission of a sender ---------------------------------------------------------------------

  /** A sender is admitted if and only if it speaks under the boot that has authority and in the current epoch. */
  lemma SenderAdmittedIff(s: State, who: Identity)
    requires Inv(s)
    ensures SenderRejection(s, who) == None <==> Authoritative(s.publishers, who.id, who.boot) && who.epoch == s.epoch
    ensures SenderRejection(s, who) == Some(RejectedUnknownPublisher) <==> who.id !in s.publishers
    ensures SenderRejection(s, who) == Some(RejectedFencedPublisher) <==>
      who.id in s.publishers && (s.publishers[who.id].fenced || who.boot in s.publishers[who.id].fencedBoots)
    ensures SenderRejection(s, who) == Some(RejectedStaleBoot) <==>
      who.id in s.publishers && !s.publishers[who.id].fenced && (who.boot == 0 || who.boot > s.publishers[who.id].boot)
    ensures SenderRejection(s, who) == Some(RejectedStaleEpoch) <==>
      Authoritative(s.publishers, who.id, who.boot) && who.epoch != s.epoch
  {
    hide Inv, PublishersOk;
    PublisherWas(s, who.id);
  }

  // ---- sequence numbers ----------------------------------------------------------------------------

  /** The boot has the numbers it had, or those of the accepted publication. */
  function Recorded(s: State, pub: Publication): Watermark
    requires pub.publisher.id in s.publishers
  {
    var w := WatermarkOf(s.publishers[pub.publisher.id], pub.publisher.boot);
    Watermark(pub.sequence, if pub.evidenceGeneration > w.maxEvidenceGeneration then pub.evidenceGeneration else w.maxEvidenceGeneration)
  }

  /** A different publication was accepted under this number, and it is still remembered. */
  predicate Conflicts(p: Publisher, pub: Publication) {
    pub.sequence in p.fingerprints && p.fingerprints[pub.sequence] != pub.fingerprint
  }

  /** The knowledge and every publisher are as before, and so are the numbers of every boot. */
  ghost predicate OnlyLooked(s: State, t: State, id: nat) {
    && t == s.(publishers := t.publishers) && t.publishers.Keys == s.publishers.Keys
    && (forall other :: other in s.publishers && other != id ==> t.publishers[other] == s.publishers[other])
    && (id in s.publishers ==>
          && t.publishers[id] == s.publishers[id].(watermarks := t.publishers[id].watermarks)
          && forall boot: nat :: WatermarkOf(t.publishers[id], boot) == WatermarkOf(s.publishers[id], boot))
  }

  /**
   * A publication that reaches the sequence checks is refused when it is behind what its boot has had accepted, is idempotent or
   * a conflict when it repeats the last number, is refused when its evidence generation regresses, and otherwise is handled; only
   * then, and only when it is accepted, its numbers are recorded.
   */
  lemma SequenceIsExact(s: State, pub: Publication)
    requires pub.publisher.id in s.publishers
    ensures var o, id, p := Sequenced(s, pub), pub.publisher.id, s.publishers[pub.publisher.id];
      var w := WatermarkOf(p, pub.publisher.boot);
      if pub.sequence < w.maxSequence then o.reply == Plain(RejectedStaleSequence) && OnlyLooked(s, o.state, id)
      else if pub.sequence == w.maxSequence then
        o.reply == Plain(if Conflicts(p, pub) then RejectedDuplicateConflict else AcceptedIdempotent) && OnlyLooked(s, o.state, id)
      else if pub.evidenceGeneration < w.maxEvidenceGeneration then
        o.reply == Plain(RejectedGenerationRegression) && OnlyLooked(s, o.state, id)
      else
        && o.reply == Handle(Opened(s, pub), pub).reply
        && OnlyLooked(s, Opened(s, pub), id)
        && o.state.publishers.Keys == s.publishers.Keys
        && o.state == Handle(Opened(s, pub), pub).state.(publishers := o.state.publishers)
        && if IsAccepted(o.reply.code) then
             && WatermarkOf(o.state.publishers[id], pub.publisher.boot) == Recorded(s, pub)
             && (forall boot: nat :: boot != pub.publisher.boot ==>
                   WatermarkOf(o.state.publishers[id], boot) == WatermarkOf(p, boot))
             && o.state.publishers[id].fingerprints == TrimFingerprints(p.fingerprints[pub.sequence := pub.fingerprint])
             && o.state.publishers[id].lastSequence == pub.sequence
             && o.state.publishers[id].maxEvidenceGeneration == Recorded(s, pub).maxEvidenceGeneration
             && o.state.publishers[id].boot == p.boot && o.state.publishers[id].state == p.state
             && o.state.publishers[id].fencedBoots == p.fencedBoots && o.state.publishers[id].fenced == p.fenced
             && o.state.publishers[id].epoch == p.epoch
             && forall other :: other in s.publishers && other != id ==> o.state.publishers[other] == s.publishers[other]
           else o.state.publishers == Opened(s, pub).publishers
  {
    hide Handle, TrimFingerprints;
    HandleKeepsPublishers(Opened(s, pub), pub);
  }

  /** Number zero is never handled: it passes for a repetition from the start. */
  lemma ZeroIsNeverHandled(s: State, pub: Publication)
    requires pub.publisher.id in s.publishers && pub.sequence == 0
    ensures OnlyLooked(s, Sequenced(s, pub).state, pub.publisher.id)
    ensures WatermarkOf(s.publishers[pub.publisher.id], pub.publisher.boot) == Watermark(0, 0) && s.publishers[pub.publisher.id].fingerprints == map[] ==>
      Sequenced(s, pub).reply == Plain(AcceptedIdempotent)
  {
    hide Sequenced, Handle, TrimFingerprints;
    SequenceIsExact(s, pub);
  }

  // ---- the envelope --------------------------------------------------------------------------------

  /** A registry that shuts down takes no registration and no publication. */
  lemma ShutdownRefuses(run: Run, i: nat)
    requires Behaviour(run) && i < |run.ops| && run.states[i].shuttingDown && (run.ops[i].Publish? || run.ops[i].Register?)
    ensures run.replies[i] == Plain(RejectedShuttingDown) && run.states[i + 1] == run.states[i]
  {
    hide Bound, Allowed;
    assert StepAt(run, i);
  }

  /** No schema is given and none is bound to the capability. */
  predicate HasNoSchema(config: Config, pub: Publication) {
    pub.kind in {PublishCapability, WithdrawCapability} && pub.capability.schema == 0 && pub.capability.capability !in config.bindings
  }

  /**
   * A publication is refused while the registry shuts down, without a schema, when it is malformed under the name of its
   * sender, and from a sender that is not admitted, in this order; a registration then goes the way of registrations, anything
   * else to the sequence checks.
   */
  lemma EnvelopeIsExact(s: State, pub: Publication)
    ensures var o, p := ApplyPublication(s, pub), Attribute(s.config, pub);
      && p.kind == pub.kind && p.publisher == pub.publisher && p.sequence == pub.sequence && p.evidenceGeneration == pub.evidenceGeneration
      && p.fingerprint == pub.fingerprint && p.device == pub.device && p.quirk == pub.quirk
      && p.capability.source.publisher == pub.publisher && p.compatibility.source.publisher == pub.publisher
      && if s.shuttingDown then o == Outcome(s, Plain(RejectedShuttingDown))
         else if HasNoSchema(s.config, pub) then o == Outcome(s, Plain(RejectedUnknownSchema))
         else if !Validated(s.config, p) then o == Outcome(s, Plain(RejectedValidation))
         else if pub.kind == RegisterPublisherKind then o == RegisterPublisher(s, pub.publisher, pub.adapter)
         else match SenderRejection(s, pub.publisher)
           case Some(code) => o == Outcome(s, Plain(code))
           case None => o == Sequenced(s, p)
  {
    hide Validated, RegisterPublisher, Sequenced, SenderRejection;
  }

  /** What is asked of a capability record: a source that may claim its provenance, no claim in a withdrawal, sound conditions. */
  predicate SoundRecord(config: Config, r: Record, withdraws: bool) {
    && r.device > 0 && r.deviceGeneration > 0 && r.capability > 0 && r.schema > 0 && r.source.publisher.id > 0
    && r.source.sourceClass != Unspecified && AllowedFor(r.source.provenance, r.source.sourceClass)
    && r.withdrawn == withdraws && (withdraws ==> r.support == Support.Unknown && r.value == NoValue)
    && (r.conditions != C.Null ==> C.Accepted(r.conditions, config.limits.conditions))
  }

  predicate SoundObservation(r: Registration) {
    r.device > 0 && r.incarnation > 0 && r.hardware.vendor > 0 && (r.hardware.family > 0 || r.hardware.model > 0)
  }

  predicate SoundQuirk(config: Config, q: Quirk) {
    && q.id > 0 && q.generation > 0 && |q.impacted| > 0
    && (q.applicability.platformConditions != C.Null ==> C.Accepted(q.applicability.platformConditions, config.limits.conditions))
  }

  predicate SoundFact(config: Config, f: Fact, withdraws: bool) {
    && f.id > 0 && f.generation > 0 && f.lhs.token > 0 && f.rhs.token > 0 && !SameReference(f.lhs, f.rhs) && f.withdrawn == withdraws
    && |f.reason| <= config.limits.maxMetadataBytes
    && (f.outcome in {Incompatible, UnsupportedCompatibility} ==> f.reason != "") && f.window.Valid()
    && f.source.publisher.id > 0 && f.source.sourceClass != Unspecified && AllowedFor(f.source.provenance, f.source.sourceClass)
    && (f.conditions != C.Null ==> C.Accepted(f.conditions, config.limits.conditions))
  }

  /** A publication is validated by the rules of its kind, and names its sender and boot. */
  lemma ValidatedIff(config: Config, p: Publication)
    ensures Validated(config, p) <==>
      && p.publisher.id > 0 && p.publisher.boot > 0 && p.wellFormed
      && (p.kind in {RegisterDevice, PublishDeviceGeneration} ==> SoundObservation(p.device))
      && (p.kind in {PublishCapability, WithdrawCapability} ==> SoundRecord(config, p.capability, p.kind == WithdrawCapability))
      && (p.kind in {PublishQuirk, WithdrawQuirk} ==> SoundQuirk(config, p.quirk))
      && (p.kind in {PublishCompatibility, WithdrawCompatibility} ==> SoundFact(config, p.compatibility, p.kind == WithdrawCompatibility))
  {
    hide AllowedFor, SameReference, C.Accepted;
  }

  // ---- remembered fingerprints --------------------------------------------------------------------

  /** How many of the numbers are larger. */
  function Larger(xs: set<nat>, x: nat): nat { |set y | y in xs && y > x| }

  lemma LargerAfterMin(xs: set<nat>, m: nat, x: nat)
    requires m in xs && (forall y :: y in xs ==> m <= y) && x >= m
    ensures Larger(xs - {m}, x) == Larger(xs, x)
  {
    assert (set y | y in xs - {m} && y > x) == (set y | y in xs && y > x);
  }

  lemma LargerThanMin(xs: set<nat>, m: nat)
    requires m in xs && forall y :: y in xs ==> m <= y
    ensures Larger(xs, m) == |xs| - 1
  {
    assert (set y | y in xs && y > m) == xs - {m};
  }

  lemma LargerIsFewer(xs: set<nat>, x: nat)
    requires x in xs
    ensures Larger(xs, x) < |xs|
  {
    var above := set y | y in xs && y > x;
    assert above <= xs - {x};
    Fewer(above, xs - {x});
  }

  lemma {:induction false} Fewer(a: set<nat>, b: set<nat>)
    requires a <= b
    ensures |a| <= |b|
    decreases |a|
  {
    if x :| x in a { Fewer(a - {x}, b - {x}); }
  }

  /** The fingerprints of the 4096 largest numbers are remembered, and no other. */
  lemma {:induction false} RememberedIff(m: map<nat, nat>, x: nat)
    ensures x in TrimFingerprints(m) <==> x in m && Larger(m.Keys, x) < 4096
    ensures x in TrimFingerprints(m) ==> TrimFingerprints(m)[x] == m[x]
    decreases |m|
  {
    hide Larger;
    if |m| <= MaxFingerprints {
      if x in m { LargerIsFewer(m.Keys, x); }
      assert |m.Keys| == |m|;
    } else {
      assert |m.Keys| == |m|;
      var least := MinOf(m.Keys);
      var rest := m - {least};
      assert rest.Keys == m.Keys - {least};
      RememberedIff(rest, x);
      if x in m {
        LargerAfterMin(m.Keys, least, x);
        LargerThanMin(m.Keys, least);
      }
    }
  }

  /**
   * Another publication under the number that was accepted last is refused as a conflict if and only if it differs and fewer
   * than 4096 larger numbers are remembered, which may be those of former boots; past that it passes for a repetition.
   */
  lemma ConflictIsSeenIff(s: State, first: Publication, second: Publication)
    requires first.publisher.id in s.publishers && Ahead(s, first)
    requires IsAccepted(Sequenced(s, first).reply.code)
    requires second.publisher == first.publisher && second.sequence == first.sequence
    ensures var t := Sequenced(s, first).state;
      && second.publisher.id in t.publishers
      && var code, remembered := Sequenced(t, second).reply.code, s.publishers[first.publisher.id].fingerprints.Keys + {first.sequence};
         && (code == RejectedDuplicateConflict <==>
               second.fingerprint != first.fingerprint && Larger(remembered, first.sequence) < 4096)
         && (code != RejectedDuplicateConflict ==> code == AcceptedIdempotent)
  {
    hide Handle, TrimFingerprints, SequenceVerdict, RecordAcceptance, Larger, Sequenced;
    var id, p := first.publisher.id, s.publishers[first.publisher.id];
    SequenceIsExact(s, first);
    AcceptedWasHandled(s, first);
    var t := Sequenced(s, first).state;
    SequenceIsExact(t, second);
    var m := p.fingerprints[first.sequence := first.fingerprint];
    assert m.Keys == p.fingerprints.Keys + {first.sequence};
    RememberedIff(m, first.sequence);
  }

  lemma AcceptedWasHandled(s: State, pub: Publication)
    requires pub.publisher.id in s.publishers && Ahead(s, pub) && IsAccepted(Sequenced(s, pub).reply.code)
    ensures pub.evidenceGeneration >= WatermarkOf(s.publishers[pub.publisher.id], pub.publisher.boot).maxEvidenceGeneration
  {
    hide Handle, RecordAcceptance;
  }

  // ---- a run in which a conflict passes for a repetition -----------------------------------------------

  function Beat(who: Identity, sequence: nat, fingerprint: nat): Publication {
    Envelope(Heartbeat, sequence).(
      publisher := who, fingerprint := fingerprint, capability := NoRecord.(source := NoSource.(publisher := who)),
      compatibility := NoFact.(source := NoSource.(publisher := who)))
  }

  /** The fingerprints of the last 4096 of `n` numbers. */
  ghost predicate Remembers(m: map<nat, nat>, n: nat) {
    forall x: nat :: x in m <==> 1 <= x <= n && n < x + 4096
  }

  /** Publisher 1 speaks under `boot`, has used the first `n` numbers there, and there is nothing else. */
  ghost predicate HasBeaten(s: State, config: Config, boot: nat, n: nat) {
    && s == Fresh(config).(publishers := s.publishers) && s.publishers.Keys == {1}
    && var p := s.publishers[1];
       && p.boot == boot && boot >= 1 && p.state == Registered && !p.fenced && (forall b :: b in p.fencedBoots <==> 1 <= b < boot)
       && WatermarkOf(p, boot) == Watermark(n, 0) && forall b: nat :: b > boot ==> WatermarkOf(p, b) == Watermark(0, 0)
  }

  lemma BeatIsNext(s: State, config: Config, boot: nat, n: nat, sequence: nat, fingerprint: nat)
    requires HasBeaten(s, config, boot, n)
    ensures Step(s, Publish(Beat(Identity(1, boot, 1), sequence, fingerprint))) == Sequenced(s, Beat(Identity(1, boot, 1), sequence, fingerprint))
  {
    hide Sequenced;
    var pub := Beat(Identity(1, boot, 1), sequence, fingerprint);
    assert Attribute(config, pub) == pub;
    assert 1 in s.publishers.Keys;
  }

  lemma HasOne(s: State, config: Config, boot: nat, n: nat)
    requires HasBeaten(s, config, boot, n)
    ensures 1 in s.publishers
  {
    assert 1 in s.publishers.Keys;
  }

  lemma BeatIsAccepted(s: State, config: Config, boot: nat, n: nat, fingerprint: nat)
    requires HasBeaten(s, config, boot, n)
    ensures var pub := Beat(Identity(1, boot, 1), n + 1, fingerprint); var o := Step(s, Publish(pub));
      && o.reply == Plain(Accepted) && HasBeaten(o.state, config, boot, n + 1)
      && o.state.publishers[1].fingerprints == TrimFingerprints(s.publishers[1].fingerprints[n + 1 := fingerprint])
  {
    hide Sequenced, TrimFingerprints, Step;
    var pub := Beat(Identity(1, boot, 1), n + 1, fingerprint);
    BeatIsNext(s, config, boot, n, n + 1, fingerprint);
    SequenceIsExact(s, pub);
    HasOne(s, config, boot, n);
    assert Handle(Opened(s, pub), pub) == Outcome(Opened(s, pub), Plain(Accepted));
    var o := Sequenced(s, pub);
    assert o.state == s.(publishers := o.state.publishers) && o.state.publishers.Keys == {1};
  }

  lemma {:induction false} IntervalSize(xs: set<nat>, a: nat, b: nat)
    requires a <= b && forall x: nat :: x in xs <==> a < x <= b
    ensures |xs| == b - a
    decreases b
  {
    if a < b { IntervalSize(xs - {b}, a, b - 1); } else { assert xs == {}; }
  }

  lemma RemembersNext(m: map<nat, nat>, n: nat, fingerprint: nat)
    requires Remembers(m, n)
    ensures Remembers(TrimFingerprints(m[n + 1 := fingerprint]), n + 1)
  {
    hide TrimFingerprints, Larger;
    var next := m[n + 1 := fingerprint];
    forall x: nat ensures x in TrimFingerprints(next) <==> 1 <= x <= n + 1 && n + 1 < x + 4096 {
      RememberedIff(next, x);
      if x in next { LargerInRun(next.Keys, n + 1, x); }
    }
  }

  lemma LargerInRun(xs: set<nat>, n: nat, x: nat)
    requires x in xs && (forall y: nat :: y in xs && y > x ==> y <= n) && (forall y: nat :: x < y <= n ==> y in xs) && x <= n
    ensures Larger(xs, x) == n - x
  {
    var above := set y | y in xs && y > x;
    IntervalSize(above, x, n);
  }

  lemma FirstBeats(config: Config)
    requires MayJoin(config)
    ensures var t := Step(Fresh(config), Register(Identity(1, 0, 0), "a")).state;
      HasBeaten(t, config, 1, 0) && Remembers(t.publishers[1].fingerprints, 0)
  {}

  lemma {:induction false} BeatsOn(config: Config, n: nat) returns (run: Run, s: State)
    requires Bound(config) && MayJoin(config)
    ensures LeadsTo(run, config, s) && HasBeaten(s, config, 1, n) && Remembers(s.publishers[1].fingerprints, n)
  {
    hide Bound, Step, LeadsTo, HasBeaten, Remembers;
    if n == 0 {
      Starts(config);
      FirstBeats(config);
      run := GoesOn(Start(config), config, Fresh(config), Register(Identity(1, 0, 0), "a"));
      s := Step(Fresh(config), Register(Identity(1, 0, 0), "a")).state;
    } else {
      var front, before := BeatsOn(config, n - 1);
      var pub := Beat(Identity(1, 1, 1), n, 0);
      BeatIsAccepted(before, config, 1, n - 1, 0);
      HasOne(before, config, 1, n - 1);
      RemembersNext(before.publishers[1].fingerprints, n - 1, 0);
      run := GoesOn(front, config, before, Publish(pub));
      s := Step(before, Publish(pub)).state;
    }
  }

  lemma NextBoot(s: State, config: Config)
    requires HasBeaten(s, config, 1, 4097) && MayJoin(config) && Remembers(s.publishers[1].fingerprints, 4097)
    ensures var t := Step(s, Register(Identity(1, 0, 0), "a")).state;
      HasBeaten(t, config, 2, 0) && Remembers(t.publishers[1].fingerprints, 4097)
  {
    HasOne(s, config, 1, 4097);
    var t := Step(s, Register(Identity(1, 0, 0), "a")).state;
    assert t.publishers == s.publishers[1 := t.publishers[1]] && t.publishers[1].watermarks == s.publishers[1].watermarks;
    forall b: nat ensures WatermarkOf(t.publishers[1], b) == WatermarkOf(s.publishers[1], b) {}
  }

  /**
   * A run: after 4097 numbers under its first boot, a publisher starts anew; the first publication of the new boot is accepted,
   * and a different one under the same number passes for its repetition.
   */
  lemma ConflictPassesForRepetition(config: Config) returns (run: Run, n: nat)
    requires Bound(config) && MayJoin(config)
    ensures Behaviour(run) && n + 2 == |run.ops| && run.ops[n].Publish? && run.ops[n + 1].Publish?
    ensures var first, second := run.ops[n].publication, run.ops[n + 1].publication;
      && first.publisher == second.publisher && first.sequence == second.sequence && first.fingerprint != second.fingerprint
    ensures run.replies[n].code == Accepted && run.replies[n + 1].code == AcceptedIdempotent
  {
    hide Bound, Step, LeadsTo, HasBeaten, Remembers, TrimFingerprints;
    var s, t, u: State;
    run, s := BeatsOn(config, 4097);
    NextBoot(s, config);
    run := GoesOn(run, config, s, Register(Identity(1, 0, 0), "a"));
    t := Step(s, Register(Identity(1, 0, 0), "a")).state;
    var who := Identity(1, 2, 1);
    LeadsFrom(run, config, t);
    n := |run.ops|;
    BeatIsAccepted(t, config, 2, 0, 0);
    run := GoesOn(run, config, t, Publish(Beat(who, 1, 0)));
    u := Step(t, Publish(Beat(who, 1, 0))).state;
    SecondIsRepetition(t, u, config);
    run := GoesOn(run, config, u, Publish(Beat(who, 1, 1)));
    LeadsFrom(run, config, Step(u, Publish(Beat(who, 1, 1))).state);
  }

  lemma SecondIsRepetition(t: State, u: State, config: Config)
    requires HasBeaten(t, config, 2, 0) && Remembers(t.publishers[1].fingerprints, 4097)
    requires u == Step(t, Publish(Beat(Identity(1, 2, 1), 1, 0))).state && HasBeaten(u, config, 2, 1)
    requires Step(t, Publish(Beat(Identity(1, 2, 1), 1, 0))).reply.code == Accepted
    ensures Step(u, Publish(Beat(Identity(1, 2, 1), 1, 1))).reply == Plain(AcceptedIdempotent)
  {
    hide Step, Sequenced, TrimFingerprints, Larger;
    var who := Identity(1, 2, 1);
    BeatIsNext(t, config, 2, 0, 1, 0);
    BeatIsNext(u, config, 2, 1, 1, 1);
    ConflictIsSeenIff(t, Beat(who, 1, 0), Beat(who, 1, 1));
    var remembered := t.publishers[1].fingerprints.Keys + {1};
    LargerInRun(remembered, 4097, 1);
    SequenceIsExact(u, Beat(who, 1, 1));
  }
}
