// The coordinator object (src/coordinator.cpp): the session map and the
// registry it owns, changed phase by phase as the functions of Coordination
// say.
module Coordinator {
  import opened Basics
  import opened Model
  import opened Steps
  import opened Invariants
  import opened Restart
  import opened Recovery
  import opened History
  import opened Safety
  import opened Coordination
  import opened Registry

  /** The arrivals that bring frames to interpret. */
  function Bringing(arrivals: seq<Arrival>, b: Bounds): seq<Arrival> {
    if arrivals == [] then []
    else
      var a := arrivals[0];
      (if !IsDead(a, b) && a.frames != [] then [a] else []) + Bringing(arrivals[1..], b)
  }

  lemma {:induction false} OnlyFramesMatter(w: World, arrivals: seq<Arrival>, b: Bounds)
    ensures DispatchAll(w, arrivals, b) == DispatchAll(w, Bringing(arrivals, b), b)
    decreases |arrivals|
  {
    hide DispatchFrames, Drop;
    if arrivals != [] {
      var a, rest := arrivals[0], arrivals[1..];
      NoFramesNoEffect(w, a.handle);
      OnlyFramesMatter(Turn(w, a, b), rest, b);
      if !IsDead(a, b) && a.frames != [] {
        assert Bringing(arrivals, b) == [a] + Bringing(rest, b);
        assert Bringing(arrivals, b)[1..] == Bringing(rest, b);
      } else {
        assert Bringing(arrivals, b) == Bringing(rest, b);
      }
    }
  }

  lemma NoFramesNoEffect(w: World, h: nat)
    ensures h in w.sessions ==> DispatchFrames(w, h, []) == Dispatched(w, false)
  {}

  class CapabilityCoordinator {
    const bounds: Bounds
    const registry: CapabilityRegistry
    var sessions: map<nat, Session>
    var stopping: bool
    var responses: seq<Response>

    ghost function View(): World
      reads this, registry
    {
      World(registry.View(), sessions, stopping, responses)
    }

    constructor (config: Config, bounds: Bounds)
      requires Bound(config)
      ensures View() == World(Fresh(config), map[], false, []) && registry.Valid() && fresh(registry)
    {
      this.bounds := bounds;
      registry := new CapabilityRegistry(config);
      sessions, stopping, responses := map[], false, [];
    }

    /** Loads the stored state, if there is one; then a new epoch begins, and no publisher is alive. */
    method Start(stored: Option<Durable>) returns (started: bool)
      modifies registry
      ensures unchanged(this)
      ensures started <==> stored == None || Import(old(registry.View()), stored.value).ok
      ensures var loaded := if stored == None then old(registry.View()) else Import(old(registry.View()), stored.value).state;
        started ==> registry.View() == ResetLiveness(AdvanceEpoch(loaded))
      ensures !started ==> stored.Some? && registry.View() == Import(old(registry.View()), stored.value).state
    {
      hide Import;
      if stored.Some? {
        var loaded := registry.ImportDurableState(stored.value);
        if !loaded { return false; }
      }
      var epoch := registry.AdvanceCoordinatorEpoch();
      registry.ResetPublisherLiveness();
      return true;
    }

    // ---- frames ----------------------------------------------------------------------------------

    method Answer(h: nat, m: Message, code: Code)
      modifies `responses
      ensures responses == old(responses) + [Response(h, m, code)]
    {
      responses := responses + [Response(h, m, code)];
    }

    method DispatchFrame(h: nat, m: Message)
      requires h in sessions
      modifies this, registry
      ensures View() == Dispatch(old(View()), h, m)
    {
      hide RegisterOpen, ApplyPublication, Steps.FencePublisher;
      match m {
        case Hello(matches) =>
          if !matches {
            Answer(h, m, RejectedValidation);
            return;
          }
          sessions := sessions[h := sessions[h].(handshake := true)];
          Answer(h, m, Accepted);
        case RegisterFrame(identity, adapter) =>
          if !sessions[h].handshake {
            Answer(h, m, RejectedValidation);
            return;
          }
          var reply := registry.RegisterPublisher(identity, adapter);
          if IsAccepted(reply.code) {
            sessions := sessions[h := sessions[h].(publisher := reply.identity.id, boot := reply.identity.boot, registered := true)];
          }
          Answer(h, m, reply.code);
        case PublicationFrame(publication) =>
          var reply := registry.Apply(publication);
          Answer(h, m, reply.code);
        case FenceFrame(publisher) =>
          var reply := registry.FencePublisher(publisher);
          Answer(h, m, reply.code);
        case ShutdownFrame =>
          Answer(h, m, Accepted);
          stopping := true;
        case Other =>
          Answer(h, m, Accepted);
      }
    }

    method DispatchSession(h: nat, frames: seq<Frame>) returns (closed: bool)
      requires h in sessions
      modifies this, registry
      ensures Dispatched(View(), closed) == DispatchFrames(old(View()), h, frames)
    {
      hide Dispatch;
      for i := 0 to |frames|
        invariant h in sessions
        invariant DispatchFrames(View(), h, frames[i..]) == DispatchFrames(old(View()), h, frames)
      {
        assert frames[i..][0] == frames[i] && frames[i..][1..] == frames[i + 1..];
        DispatchFrame(h, frames[i].message);
        if !frames[i].answered { return true; }
        if stopping { return false; }
      }
      assert frames[|frames|..] == [];
      return false;
    }

    // ---- sessions ----------------------------------------------------------------------------------

    method RetireSession(session: Session)
      modifies registry
      ensures registry.View() == Retired(old(registry.View()), session)
    {
      hide RetireBoot;
      if session.registered {
        var reply := registry.RetirePublisherBoot(session.publisher, session.boot);
      }
    }

    method DropSession(h: nat)
      modifies this, registry
      ensures View() == Drop(old(View()), h)
    {
      hide Retired;
      if h !in sessions { return; }
      RetireSession(sessions[h]);
      sessions := sessions - {h};
    }

    method Accept(connection: Option<nat>)
      modifies `sessions
      ensures View() == AcceptConnection(old(View()), bounds, connection)
    {
      if connection == None { return; }
      if |sessions| >= bounds.maxConnections { return; }
      if connection.value !in sessions { sessions := sessions[connection.value := NewSession]; }
    }

    /** Phase one: every ready session is read before anything is interpreted. */
    method ReadAll(arrivals: seq<Arrival>) returns (dead: seq<nat>, delivered: seq<Arrival>)
      ensures dead == DeadIn(arrivals, bounds) && delivered == Bringing(arrivals, bounds)
    {
      dead, delivered := [], [];
      for i := 0 to |arrivals|
        invariant dead + DeadIn(arrivals[i..], bounds) == DeadIn(arrivals, bounds)
        invariant delivered + Bringing(arrivals[i..], bounds) == Bringing(arrivals, bounds)
      {
        assert arrivals[i..][0] == arrivals[i] && arrivals[i..][1..] == arrivals[i + 1..];
        var a := arrivals[i];
        if a.Closed? || |a.frames| > bounds.maxPending {
          dead := dead + [a.handle];
        } else if a.frames != [] {
          delivered := delivered + [a];
        }
      }
      assert arrivals[|arrivals|..] == [];
    }

    method DropDead(dead: seq<nat>)
      modifies this, registry
      ensures View() == DropAll(old(View()), dead)
    {
      hide Drop;
      for i := 0 to |dead|
        invariant DropAll(View(), dead[i..]) == DropAll(old(View()), dead)
      {
        assert dead[i..][0] == dead[i] && dead[i..][1..] == dead[i + 1..];
        DropSession(dead[i]);
      }
      assert dead[|dead|..] == [];
    }

    method DispatchDelivered(delivered: seq<Arrival>)
      requires forall a :: a in delivered ==> !IsDead(a, bounds)
      modifies this, registry
      ensures View() == DispatchAll(old(View()), delivered, bounds)
    {
      hide DispatchFrames, Drop;
      for i := 0 to |delivered|
        invariant DispatchAll(View(), delivered[i..], bounds) == DispatchAll(old(View()), delivered, bounds)
      {
        assert delivered[i..][0] == delivered[i] && delivered[i..][1..] == delivered[i + 1..];
        var a := delivered[i];
        if a.handle in sessions {
          var closed := DispatchSession(a.handle, a.frames);
          if closed { DropSession(a.handle); }
        }
      }
      assert delivered[|delivered|..] == [];
    }

    lemma BringingAreAlive(arrivals: seq<Arrival>)
      ensures forall a :: a in Bringing(arrivals, bounds) ==> !IsDead(a, bounds)
    {}

    method RunOnce(r: Round)
      modifies this, registry
      ensures View() == Iterate(old(View()), bounds, r)
    {
      hide DispatchAll, DropAll, AcceptConnection, Bringing, DeadIn;
      Accept(r.connection);
      var dead, delivered := ReadAll(r.arrivals);
      DropDead(dead);
      BringingAreAlive(r.arrivals);
      OnlyFramesMatter(View(), r.arrivals, bounds);
      DispatchDelivered(delivered);
    }

    method RetireEverySession()
      modifies registry
      ensures registry.View() == RetireAll(old(registry.View()), sessions)
    {
      hide Retired;
      var left := sessions;
      while left != map[]
        invariant RetireAll(registry.View(), left) == RetireAll(old(registry.View()), sessions)
        decreases |left|
      {
        ghost var least := MinOf(left.Keys);
        assert least in left;
        var h :| h in left && forall other :: other in left ==> h <= other;
        assert h == least;
        RetireSession(left[h]);
        left := left - {h};
      }
    }

    /** Runs until a shutdown is requested, by a frame or from outside; it returns normally only then, after retiring every session that is left. */
    method Run(rounds: seq<Round>) returns (finished: bool)
      modifies this, registry
      ensures finished <==> Loop(old(View()), bounds, rounds).stopping
      ensures View() == if finished then Finish(Loop(old(View()), bounds, rounds)) else Loop(old(View()), bounds, rounds)
    {
      hide Iterate, RetireAll;
      var i := 0;
      while !stopping && i < |rounds|
        invariant i <= |rounds|
        invariant Loop(View(), bounds, rounds[i..]) == Loop(old(View()), bounds, rounds)
        decreases |rounds| - i
      {
        assert rounds[i..][0] == rounds[i] && rounds[i..][1..] == rounds[i + 1..];
        if rounds[i].cancelled {
          stopping := true;
          break;
        }
        RunOnce(rounds[i]);
        i := i + 1;
      }
      if !stopping {
        assert rounds[i..] == [];
        return false;
      }
      RetireEverySession();
      sessions := map[];
      registry.BeginShutdown();
      return true;
    }
  }
}
