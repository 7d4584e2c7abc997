// The event loop from outside (src/coordinator.cpp:122-253, 331-409, 486-589):
// what each frame is answered and changes, how far the frames of a session are
// taken, who is heard in an iteration, and how many sessions there are.
module Dispatching {
  import opened Basics
  import opened Model
  import opened Steps
  import opened History
  import opened Coordination

  // ---- one frame -----------------------------------------------------------------------

  /** The answer to a frame, and the registry after it. */
  ghost function Answered(w: World, h: nat, m: Message): (Code, State)
    requires h in w.sessions
  {
    match m
    case Hello(matches) => (if matches then Accepted else RejectedValidation, w.registry)
    case RegisterFrame(identity, adapter) =>
      if !w.sessions[h].handshake then (RejectedValidation, w.registry)
      else if w.registry.shuttingDown then (RejectedShuttingDown, w.registry)
      else (RegisterPublisher(w.registry, identity, adapter).reply.code, RegisterPublisher(w.registry, identity, adapter).state)
    case PublicationFrame(pub) => (ApplyPublication(w.registry, pub).reply.code, ApplyPublication(w.registry, pub).state)
    case FenceFrame(id) => (FencePublisher(w.registry, id).reply.code, FencePublisher(w.registry, id).state)
    case ShutdownFrame => (Accepted, w.registry)
    case Other => (Accepted, w.registry)
  }

  /**
   * A frame is answered once, to its own session. A matching greeting completes the handshake, without which no registration
   * frame reaches the registry; an accepted one makes the session hold what was assigned; only a shutdown request stops the loop.
   */
  lemma FrameIsExact(w: World, h: nat, m: Message)
    requires h in w.sessions
    ensures var v, (code, registry) := Dispatch(w, h, m), Answered(w, h, m);
      && v.responses == w.responses + [Response(h, m, code)] && v.registry == registry
      && (v.stopping <==> w.stopping || m == ShutdownFrame)
      && v.sessions.Keys == w.sessions.Keys && (forall k :: k in w.sessions && k != h ==> v.sessions[k] == w.sessions[k])
      && var s, t := w.sessions[h], v.sessions[h];
         && (t.handshake <==> s.handshake || m == Hello(true))
         && if m.RegisterFrame? && s.handshake && IsAccepted(code) then
              && t.registered && t.publisher == m.identity.id
              && t.publisher in registry.publishers && t.boot == registry.publishers[t.publisher].boot
            else t.registered == s.registered && t.publisher == s.publisher && t.boot == s.boot
  {
    hide ApplyPublication, FencePublisher, RegisterPublisher, RegisterOpen;
    if m.RegisterFrame? {
      RegistrationChanges(w.registry, m.identity, m.adapter);
      RegistersUnder(w.registry, m.identity, m.adapter);
      OpenRegistration(w.registry, m.identity, m.adapter);
    }
  }

  lemma OpenRegistration(s: State, identity: Identity, adapter: string)
    ensures RegisterOpen(s, identity, adapter) ==
      if s.shuttingDown then Outcome(s, Plain(RejectedShuttingDown)) else RegisterPublisher(s, identity, adapter)
  {
    hide RegisterPublisher;
  }

  // ---- the frames of one session ------------------------------------------------------------

  /** The answers to the first frames, one each, to the session they came from. */
  predicate AnswersTo(responses: seq<Response>, h: nat, frames: seq<Frame>) {
    |responses| == |frames| && forall i :: 0 <= i < |frames| ==> responses[i].handle == h && responses[i].message == frames[i].message
  }

  /** The first `n` frames were interpreted, one after the other, and the rest were not. */
  predicate Taken(w: World, h: nat, frames: seq<Frame>, d: Dispatched, n: nat) {
    && n <= |frames| && |d.world.responses| == |w.responses| + n
    && d.world.responses[..|w.responses|] == w.responses && AnswersTo(d.world.responses[|w.responses|..], h, frames[..n])
    && (d.closed <==> n > 0 && !frames[n - 1].answered)
    && (n < |frames| ==> d.closed || d.world.stopping)
    && (forall i :: 0 <= i < n - 1 ==> frames[i].answered && frames[i].message != ShutdownFrame)
    && (d.world.stopping <==> w.stopping || (n > 0 && frames[n - 1].message == ShutdownFrame))
    && (frames != [] ==> n > 0) && (w.stopping ==> n <= 1)
    && d.world.sessions.Keys == w.sessions.Keys && forall k :: k in w.sessions && k != h ==> d.world.sessions[k] == w.sessions[k]
  }

  /**
   * The frames of a session are interpreted in order, up to the first that cannot be answered, which closes the session, or
   * after which the loop is to stop.
   */
  lemma {:induction false} FramesAreTakenInOrder(w: World, h: nat, frames: seq<Frame>) returns (n: nat)
    requires h in w.sessions
    ensures Taken(w, h, frames, DispatchFrames(w, h, frames), n)
    decreases |frames|
  {
    hide Dispatch, AnswersTo, Taken;
    if frames == [] {
      n := 0;
      NothingTaken(w, h);
    } else {
      var next := Dispatch(w, h, frames[0].message);
      FrameIsOne(w, h, frames[0].message);
      if !frames[0].answered || next.stopping {
        n := 1;
        OneTaken(w, h, frames, next);
      } else {
        n := FramesAreTakenInOrder(next, h, frames[1..]);
        MoreTaken(w, h, frames, next, DispatchFrames(next, h, frames[1..]), n);
        n := n + 1;
      }
    }
  }

  lemma NothingTaken(w: World, h: nat)
    ensures Taken(w, h, [], Dispatched(w, false), 0)
  {}

  /** What one interpreted frame does to the sessions, the answers and the request to stop. */
  predicate OneFrame(w: World, h: nat, m: Message, v: World) {
    && |v.responses| == |w.responses| + 1 && v.responses[..|w.responses|] == w.responses
    && v.responses[|w.responses|].handle == h && v.responses[|w.responses|].message == m
    && (v.stopping <==> w.stopping || m == ShutdownFrame)
    && v.sessions.Keys == w.sessions.Keys && forall k :: k in w.sessions && k != h ==> v.sessions[k] == w.sessions[k]
  }

  lemma FrameIsOne(w: World, h: nat, m: Message)
    requires h in w.sessions
    ensures OneFrame(w, h, m, Dispatch(w, h, m))
  {
    hide Dispatch, Answered;
    FrameIsExact(w, h, m);
  }

  lemma OneTaken(w: World, h: nat, frames: seq<Frame>, next: World)
    requires frames != [] && OneFrame(w, h, frames[0].message, next) && (!frames[0].answered || next.stopping)
    ensures Taken(w, h, frames, Dispatched(next, !frames[0].answered), 1)
  {
    OneAnswer(h, frames, next.responses[|w.responses|]);
    assert next.responses[|w.responses|..] == [next.responses[|w.responses|]];
  }

  lemma MoreTaken(w: World, h: nat, frames: seq<Frame>, next: World, d: Dispatched, n: nat)
    requires frames != [] && OneFrame(w, h, frames[0].message, next) && frames[0].answered && !next.stopping
    requires Taken(next, h, frames[1..], d, n)
    ensures Taken(w, h, frames, d, n + 1)
  {
    hide AnswersTo;
    var was, now := |w.responses|, d.world.responses;
    assert now[..was] == now[..was + 1][..was] && now[was] == now[..was + 1][was];
    assert now[was..] == [now[was]] + now[was + 1..];
    MoreAnswers(h, frames, n, now[was], now[was + 1..]);
    forall i | 0 <= i < n ensures frames[i].answered && frames[i].message != ShutdownFrame {
      if i > 0 { assert frames[1..][i - 1] == frames[i]; }
    }
  }

  lemma OneAnswer(h: nat, frames: seq<Frame>, response: Response)
    requires frames != [] && response.handle == h && response.message == frames[0].message
    ensures AnswersTo([response], h, frames[..1])
  {}

  lemma MoreAnswers(h: nat, frames: seq<Frame>, n: nat, response: Response, responses: seq<Response>)
    requires frames != [] && n < |frames| && response.handle == h && response.message == frames[0].message
    requires AnswersTo(responses, h, frames[1..][..n])
    ensures AnswersTo([response] + responses, h, frames[..n + 1])
  {
    var all := [response] + responses;
    forall i | 0 <= i < n + 1 ensures all[i].handle == h && all[i].message == frames[..n + 1][i].message {
      if i > 0 { assert frames[1..][..n][i - 1] == frames[i]; }
    }
  }

  // ---- one iteration ------------------------------------------------------------------------------

  /** The message was delivered, within the bound on frames, by the session it is answered to. */
  predicate WasDelivered(arrivals: seq<Arrival>, b: Bounds, response: Response) {
    exists i :: 0 <= i < |arrivals| && Brings(arrivals[i], b, response)
  }

  predicate Brings(a: Arrival, b: Bounds, response: Response) {
    && a.Delivered? && |a.frames| <= b.maxPending && a.handle == response.handle
    && exists j :: 0 <= j < |a.frames| && a.frames[j].message == response.message
  }

  /** The responses before are kept, and every new one answers a message that was delivered. */
  ghost predicate AnswersDelivered(w: World, v: World, arrivals: seq<Arrival>, b: Bounds) {
    && |w.responses| <= |v.responses| && v.responses[..|w.responses|] == w.responses
    && forall i :: |w.responses| <= i < |v.responses| ==> WasDelivered(arrivals, b, v.responses[i])
  }

  lemma TurnAnswers(w: World, a: Arrival, b: Bounds)
    ensures var v := Turn(w, a, b);
      && |w.responses| <= |v.responses| && v.responses[..|w.responses|] == w.responses && v.sessions.Keys <= w.sessions.Keys
      && (forall i :: |w.responses| <= i < |v.responses| ==> Brings(a, b, v.responses[i]))
      && forall k :: k in w.sessions && k != a.handle ==> k in v.sessions
  {
    hide Retired, DispatchFrames;
    if !IsDead(a, b) && a.handle in w.sessions {
      var n := FramesAreTakenInOrder(w, a.handle, a.frames);
      var d, was := DispatchFrames(w, a.handle, a.frames), |w.responses|;
      forall i | was <= i < |d.world.responses| ensures Brings(a, b, d.world.responses[i]) {
        assert d.world.responses[was..][i - was] == d.world.responses[i];
        assert a.frames[..n][i - was] == a.frames[i - was];
      }
    }
  }

  lemma {:induction false} AllTurnsAnswer(w: World, arrivals: seq<Arrival>, b: Bounds)
    ensures var v := DispatchAll(w, arrivals, b);
      && AnswersDelivered(w, v, arrivals, b) && v.sessions.Keys <= w.sessions.Keys
      && forall k :: k in w.sessions && (forall a :: a in arrivals ==> a.handle != k) ==> k in v.sessions
    decreases |arrivals|
  {
    hide DispatchFrames, Drop, Brings;
    if arrivals != [] {
      var a, rest := arrivals[0], arrivals[1..];
      assert arrivals == [a] + rest;
      TurnAnswers(w, a, b);
      var mid, v := Turn(w, a, b), DispatchAll(w, arrivals, b);
      AllTurnsAnswer(mid, rest, b);
      assert v.responses[..|w.responses|] == v.responses[..|mid.responses|][..|w.responses|];
      forall i | |w.responses| <= i < |v.responses| ensures WasDelivered(arrivals, b, v.responses[i]) {
        if i < |mid.responses| {
          assert v.responses[..|mid.responses|][i] == v.responses[i];
          assert Brings(arrivals[0], b, v.responses[i]);
        } else {
          var j :| 0 <= j < |rest| && Brings(rest[j], b, v.responses[i]);
          assert Brings(arrivals[j + 1], b, v.responses[i]);
        }
      }
    }
  }

  lemma {:induction false} DroppedAre(w: World, hs: seq<nat>)
    ensures var v := DropAll(w, hs);
      && v.responses == w.responses && v.stopping == w.stopping
      && forall k :: k in v.sessions <==> k in w.sessions && k !in hs
    decreases |hs|
  {
    hide Retired;
    if hs != [] {
      assert hs == [hs[0]] + hs[1..];
      DroppedAre(Drop(w, hs[0]), hs[1..]);
    }
  }

  lemma {:induction false} DeadInIff(arrivals: seq<Arrival>, b: Bounds, h: nat)
    ensures h in DeadIn(arrivals, b) <==>
      exists i :: 0 <= i < |arrivals| && arrivals[i].handle == h && (arrivals[i].Closed? || |arrivals[i].frames| > b.maxPending)
  {
    if arrivals != [] {
      var rest := arrivals[1..];
      DeadInIff(rest, b, h);
      if i :| 0 <= i < |rest| && rest[i].handle == h && (rest[i].Closed? || |rest[i].frames| > b.maxPending) {
        assert arrivals[i + 1] == rest[i];
      }
      if i :| 0 <= i < |arrivals| && arrivals[i].handle == h && (arrivals[i].Closed? || |arrivals[i].frames| > b.maxPending) {
        if i > 0 { assert rest[i - 1] == arrivals[i]; }
      }
    }
  }

  /**
   * In an iteration only sessions that live are heard: every answer is to a message that was delivered by a session within its
   * bound; one that closed or exceeded it is gone, whatever it delivered; one that was not ready stays; a new one is there
   * only for an accepted connection, and the number of sessions stays within the bound.
   */
  lemma IterationIsExact(w: World, b: Bounds, r: Round)
    ensures var v := Iterate(w, b, r);
      && AnswersDelivered(w, v, r.arrivals, b)
      && (forall i :: 0 <= i < |r.arrivals| && (r.arrivals[i].Closed? || |r.arrivals[i].frames| > b.maxPending) ==>
            r.arrivals[i].handle !in v.sessions)
      && (forall k :: k in w.sessions && (forall a :: a in r.arrivals ==> a.handle != k) ==> k in v.sessions)
      && (forall k :: k in v.sessions && k !in w.sessions ==> r.connection == Some(k) && |w.sessions| < b.maxConnections)
      && (|w.sessions| <= b.maxConnections ==> |v.sessions| <= b.maxConnections)
  {
    hide DispatchAll, DropAll, DeadIn, AnswersDelivered;
    var accepted := AcceptConnection(w, b, r.connection);
    var dead := DeadIn(r.arrivals, b);
    var living := DropAll(accepted, dead);
    AcceptedFits(w, b, r.connection);
    DroppedAre(accepted, dead);
    AllTurnsAnswer(living, r.arrivals, b);
    var v := DispatchAll(living, r.arrivals, b);
    forall i | 0 <= i < |r.arrivals| && (r.arrivals[i].Closed? || |r.arrivals[i].frames| > b.maxPending)
      ensures r.arrivals[i].handle !in v.sessions
    {
      DeadInIff(r.arrivals, b, r.arrivals[i].handle);
    }
    forall k | k in w.sessions && forall a :: a in r.arrivals ==> a.handle != k ensures k in v.sessions {
      DeadInIff(r.arrivals, b, k);
      NotReady(r.arrivals, k);
    }
    assert v.sessions.Keys <= accepted.sessions.Keys;
    FewerKeys(v.sessions, accepted.sessions);
    SameAnswers(w, living, v, r.arrivals, b);
  }

  lemma SameAnswers(w: World, living: World, v: World, arrivals: seq<Arrival>, b: Bounds)
    requires living.responses == w.responses && AnswersDelivered(living, v, arrivals, b)
    ensures AnswersDelivered(w, v, arrivals, b)
  {
    hide WasDelivered;
  }

  lemma NotReady(arrivals: seq<Arrival>, k: nat)
    requires forall a :: a in arrivals ==> a.handle != k
    ensures forall i :: 0 <= i < |arrivals| ==> arrivals[i].handle != k
  {
    forall i | 0 <= i < |arrivals| ensures arrivals[i].handle != k { assert arrivals[i] in arrivals; }
  }

  lemma AcceptedFits(w: World, b: Bounds, connection: Option<nat>)
    ensures var v := AcceptConnection(w, b, connection);
      && v.responses == w.responses && w.sessions.Keys <= v.sessions.Keys
      && (forall k :: k in v.sessions && k !in w.sessions ==> connection == Some(k) && |w.sessions| < b.maxConnections)
      && (connection.Some? && |w.sessions| < b.maxConnections ==> connection.value in v.sessions)
      && (|w.sessions| <= b.maxConnections ==> |v.sessions| <= b.maxConnections)
  {
    var v := AcceptConnection(w, b, connection);
    if v != w {
      assert v.sessions.Keys == w.sessions.Keys + {connection.value};
      assert |v.sessions.Keys| == |v.sessions| && |w.sessions.Keys| == |w.sessions|;
    }
  }

  lemma {:induction false} FewerKeys(a: map<nat, Session>, b: map<nat, Session>)
    requires a.Keys <= b.Keys
    ensures |a| <= |b|
    decreases |a|
  {
    if a != map[] {
      var k :| k in a;
      FewerKeys(a - {k}, b - {k});
    }
  }

  /** In every world of every run of the loop the sessions are within their bound. */
  lemma {:induction false} SessionsAreBounded(run: LoopRun, j: nat)
    requires LoopBehaviour(run) && j < |run.worlds|
    ensures |run.worlds[j].sessions| <= run.bounds.maxConnections
  {
    hide RegistryOk, Authoritative, Iterate, OrderlyArrivals;
    if j > 0 {
      SessionsAreBounded(run, j - 1);
      assert RoundAt(run, j - 1);
      IterationIsExact(run.worlds[j - 1], run.bounds, run.rounds[j - 1]);
    }
  }

  // ---- the end of the loop -----------------------------------------------------------------------------

  /** Nothing is read once the loop is to stop; a request from outside stops it before the round. */
  lemma LoopStops(w: World, b: Bounds, rounds: seq<Round>)
    ensures w.stopping ==> Loop(w, b, rounds) == w
    ensures !w.stopping && rounds != [] && rounds[0].cancelled ==> Loop(w, b, rounds) == w.(stopping := true)
    ensures !w.stopping && rounds != [] && !rounds[0].cancelled ==> Loop(w, b, rounds) == Loop(Iterate(w, b, rounds[0]), b, rounds[1..])
  {
    hide Iterate;
  }

  /** The ordered shutdown changes what publishers may do and nothing that is known. */
  lemma {:induction false} RetiringKeepsKnowledge(s: State, sessions: map<nat, Session>)
    ensures var t := RetireAll(s, sessions); t == s.(publishers := t.publishers) && t.publishers.Keys == s.publishers.Keys
    decreases |sessions|
  {
    hide RetireBoot;
    if sessions != map[] {
      var h := MinOf(sessions.Keys);
      RetiredKeeps(s, sessions[h]);
      RetiringKeepsKnowledge(Retired(s, sessions[h]), sessions - {h});
    }
  }

  lemma RetiredKeeps(s: State, session: Session)
    ensures var t := Retired(s, session); t == s.(publishers := t.publishers) && t.publishers.Keys == s.publishers.Keys
  {}

  lemma ShutdownKeepsKnowledge(w: World)
    ensures var v := Finish(w);
      && v == w.(registry := v.registry, sessions := map[])
      && v.registry == w.registry.(publishers := v.registry.publishers, shuttingDown := true)
  {
    hide RetireAll;
    RetiringKeepsKnowledge(w.registry, w.sessions);
  }
}
