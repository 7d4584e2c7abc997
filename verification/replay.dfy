// Sequence numbers (src/registry.cpp:1073-1183): accepted publications of one
// boot move strictly forward, and submitting one again changes nothing.
module Replay {
  import opened Basics
  import opened Model
  import opened Steps
  import opened Eviction
  import opened Invariants
  import opened Admission
  import opened Restart
  import opened Recovery
  import opened History

  /** The boot has been assigned, and is fenced or has accepted at least this sequence and evidence generation. */
  predicate Settled(s: State, id: nat, boot: nat, w: Watermark) {
    && id in s.publishers && 1 <= boot <= s.publishers[id].boot
    && (boot in s.publishers[id].fencedBoots || WatermarkGrows(w, WatermarkOf(s.publishers[id], boot)))
  }

  // ---- what settles stays settled ----------------------------------------------------------

  lemma GrowthKeepsSettled(s: State, t: State, id: nat, boot: nat, w: Watermark)
    requires Grows(s, t) && Settled(s, id, boot, w)
    ensures Settled(t, id, boot, w)
  {
    hide KeysGrow, DevicesGrow, WatermarkOf;
    assert PublisherGrows(s.publishers[id], t.publishers[id]);
    assert WatermarkGrows(WatermarkOf(s.publishers[id], boot), WatermarkOf(t.publishers[id], boot));
  }

  lemma RecoveryKeepsSettled(s: State, f: State, t: State, id: nat, boot: nat, w: Watermark)
    requires Inv(s) && Recovers(s, f, t) && Settled(s, id, boot, w)
    ensures Settled(t, id, boot, w)
  {
    hide Inv, BareRecords;
    PublishersWere(s);
  }

  lemma StepKeepsSettled(s: State, op: Op, id: nat, boot: nat, w: Watermark)
    requires Inv(s) && Bound(s.config) && Allowed(s, op) && Settled(s, id, boot, w)
    ensures Settled(Step(s, op).state, id, boot, w)
  {
    hide Inv, Grows, Bound, Settled, Recovers, IsExport, Import, RegisterPublisher, FencePublisher, RetireBoot, ApplyPublication;
    StepKeeps(s, op);
    match op {
      case RestartFrom(durable) =>
        ImportOfExport(s, Fresh(s.config), durable);
        RecoveryKeepsSettled(s, Fresh(s.config), Import(Fresh(s.config), durable).state, id, boot, w);
      case _ => GrowthKeepsSettled(s, Step(s, op).state, id, boot, w);
    }
  }

  lemma {:induction false} RunKeepsSettled(run: Run, i: nat, j: nat, id: nat, boot: nat, w: Watermark)
    requires Behaviour(run) && i <= j < |run.states| && Settled(run.states[i], id, boot, w)
    ensures Settled(run.states[j], id, boot, w)
    decreases j
  {
    hide Inv, Step, Allowed, Bound, Settled;
    if i < j {
      RunKeepsSettled(run, i, j - 1, id, boot, w);
      RunKeeps(run, j - 1);
      assert StepAt(run, j - 1);
      StepKeepsSettled(run.states[j - 1], run.ops[j - 1], id, boot, w);
    }
  }

  // ---- acceptance settles --------------------------------------------------------------------

  /** The publication gets past every check of the envelope and the sender. */
  predicate Reaches(s: State, submitted: Publication) {
    var pub := Attribute(s.config, submitted);
    && !s.shuttingDown && !Unbound(s.config, submitted) && Validated(s.config, pub) && pub.kind != RegisterPublisherKind
    && SenderRejection(s, pub.publisher) == None
  }

  /** The publication is ahead of everything its boot has had accepted. */
  predicate Ahead(s: State, pub: Publication) {
    pub.publisher.id in s.publishers && pub.sequence > WatermarkOf(s.publishers[pub.publisher.id], pub.publisher.boot).maxSequence
  }

  function MarkOfPublication(pub: Publication): Watermark { Watermark(pub.sequence, pub.evidenceGeneration) }

  lemma SequencedSettles(s: State, pub: Publication)
    requires Inv(s) && SenderRejection(s, pub.publisher) == None && pub.publisher.boot != 0
    requires IsAccepted(Sequenced(s, pub).reply.code)
    ensures var t := Sequenced(s, pub).state;
      && Settled(t, pub.publisher.id, pub.publisher.boot, Watermark(pub.sequence, 0))
      && (Ahead(s, pub) ==>
            Settled(t, pub.publisher.id, pub.publisher.boot, MarkOfPublication(pub)))
  {
    hide Inv, Handle, TrimFingerprints;
    PublishersWere(s);
  }

  lemma AcceptedSettles(s: State, pub: Publication)
    requires Inv(s) && pub.kind != RegisterPublisherKind && IsAccepted(ApplyPublication(s, pub).reply.code)
    ensures var t := ApplyPublication(s, pub).state;
      && Reaches(s, pub)
      && Settled(t, pub.publisher.id, pub.publisher.boot, Watermark(pub.sequence, 0))
      && (Ahead(s, pub) ==> Settled(t, pub.publisher.id, pub.publisher.boot, MarkOfPublication(pub)))
  {
    hide Inv, Sequenced, Validated, SenderRejection, Unbound, SequenceVerdict, Settled;
    var p := Attribute(s.config, pub);
    SequencedSettles(s, p) by { EnvelopeIsValid(s.config, p); RejectionIsNotAcceptance(s, p.publisher); }
    RejectionIsNotAcceptance(s, p.publisher);
  }

  lemma EnvelopeIsValid(config: Config, p: Publication)
    ensures Validated(config, p) ==> p.publisher.boot != 0
  {}

  lemma RejectionIsNotAcceptance(s: State, who: Identity)
    ensures match SenderRejection(s, who) case Some(code) => !IsAccepted(code) case None => true
  {}

  // ---- a settled publication is ignored --------------------------------------------------------

  /** Everything but the publishers: devices, evidence, generations, quirks and the epoch. */
  predicate SameKnowledge(s: State, t: State) {
    t == s.(publishers := t.publishers)
  }

  lemma SequencedIgnores(s: State, pub: Publication)
    requires SenderRejection(s, pub.publisher) == None
    requires Settled(s, pub.publisher.id, pub.publisher.boot, Watermark(pub.sequence, 0))
    ensures SameKnowledge(s, Sequenced(s, pub).state)
  {
    hide Handle;
  }

  lemma SettledIsIgnored(s: State, pub: Publication)
    requires pub.kind != RegisterPublisherKind
    requires Settled(s, pub.publisher.id, pub.publisher.boot, Watermark(pub.sequence, 0))
    ensures SameKnowledge(s, ApplyPublication(s, pub).state)
  {
    hide Sequenced, Validated, SenderRejection, Unbound, SequenceVerdict, Settled;
    var p := Attribute(s.config, pub);
    if SenderRejection(s, p.publisher) == None { SequencedIgnores(s, p); }
  }

  /** The `i`-th operation of the run submits a sequenced publication, and it is accepted. */
  predicate AcceptedAt(run: Run, i: nat)
    requires |run.replies| == |run.ops|
  {
    && i < |run.ops| && run.ops[i].Publish? && run.ops[i].publication.kind != RegisterPublisherKind
    && IsAccepted(run.replies[i].code)
  }

  lemma AcceptedStaysSettled(run: Run, i: nat, j: nat)
    requires Behaviour(run) && AcceptedAt(run, i) && i < j < |run.states|
    ensures var pub := run.ops[i].publication;
      && Settled(run.states[j], pub.publisher.id, pub.publisher.boot, Watermark(pub.sequence, 0))
      && (Ahead(run.states[i], pub) ==> Settled(run.states[j], pub.publisher.id, pub.publisher.boot, MarkOfPublication(pub)))
  {
    hide Inv, Bound, ApplyPublication, Settled, Allowed, Reaches, SequenceVerdict, Ahead;
    var pub := run.ops[i].publication;
    RunKeeps(run, i);
    assert StepAt(run, i);
    AcceptedSettles(run.states[i], pub);
    RunKeepsSettled(run, i + 1, j, pub.publisher.id, pub.publisher.boot, Watermark(pub.sequence, 0));
    if Ahead(run.states[i], pub) {
      RunKeepsSettled(run, i + 1, j, pub.publisher.id, pub.publisher.boot, MarkOfPublication(pub));
    }
  }

  /**
   * Submitting once more, at any later point of a run, clean restarts included, a publication that was accepted before
   * changes no device, no evidence, no generation and no quirk.
   */
  lemma ReplayIsNoOp(run: Run, i: nat, j: nat)
    requires Behaviour(run) && AcceptedAt(run, i) && i < j < |run.ops| && run.ops[j] == run.ops[i]
    ensures SameKnowledge(run.states[j], run.states[j + 1])
  {
    hide Inv, Bound, Allowed, ApplyPublication, Settled;
    AcceptedStaysSettled(run, i, j);
    assert StepAt(run, j);
    SettledIsIgnored(run.states[j], run.ops[i].publication);
  }

  // ---- accepted sequences strictly increase ------------------------------------------------------

  lemma AheadIsBeyond(s: State, pub: Publication, w: Watermark)
    requires IsAccepted(ApplyPublication(s, pub).reply.code) && pub.kind != RegisterPublisherKind && Ahead(s, pub)
    requires Settled(s, pub.publisher.id, pub.publisher.boot, w)
    ensures pub.sequence > w.maxSequence && pub.evidenceGeneration >= w.maxEvidenceGeneration
  {
    hide Sequenced, Validated, Unbound, SequenceVerdict, Settled;
    var p := Attribute(s.config, pub);
    RejectionIsNotAcceptance(s, p.publisher);
    AheadInSequence(s, p, w);
  }

  /** Of the publications that are accepted, those ahead are exactly those that reach a handler. */
  lemma AheadReachesHandler(s: State, pub: Publication)
    requires SenderRejection(s, pub.publisher) == None && IsAccepted(Sequenced(s, pub).reply.code)
    ensures Ahead(s, pub) <==> SequenceVerdict(Opened(s, pub).publishers[pub.publisher.id], pub) == None
  {
    hide Handle, TrimFingerprints;
  }

  lemma AheadInSequence(s: State, pub: Publication, w: Watermark)
    requires SenderRejection(s, pub.publisher) == None && IsAccepted(Sequenced(s, pub).reply.code) && Ahead(s, pub)
    requires Settled(s, pub.publisher.id, pub.publisher.boot, w)
    ensures pub.sequence > w.maxSequence && pub.evidenceGeneration >= w.maxEvidenceGeneration
  {
    hide Handle, TrimFingerprints;
  }

  /**
   * Of two accepted publications of one boot that were ahead of everything accepted before them, which are those that
   * reach a handler, the later carries the larger sequence and no smaller evidence generation.
   */
  lemma SequencesIncrease(run: Run, i: nat, j: nat)
    requires Behaviour(run) && i < j && AcceptedAt(run, i) && AcceptedAt(run, j)
    requires var first, second := run.ops[i].publication, run.ops[j].publication;
      && first.publisher.id == second.publisher.id && first.publisher.boot == second.publisher.boot
      && Ahead(run.states[i], first) && Ahead(run.states[j], second)
    ensures run.ops[i].publication.sequence < run.ops[j].publication.sequence
    ensures run.ops[i].publication.evidenceGeneration <= run.ops[j].publication.evidenceGeneration
  {
    hide Inv, Bound, Allowed, ApplyPublication, Settled, Ahead;
    AcceptedStaysSettled(run, i, j);
    assert StepAt(run, j);
    AheadIsBeyond(run.states[j], run.ops[j].publication, MarkOfPublication(run.ops[i].publication));
  }
}
