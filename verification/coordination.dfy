// The coordinator's event loop (src/coordinator.cpp:115-348, 491-589) as
// functions on values: sessions that hold publisher boots, frames that are
// interpreted, and one iteration as accept, read, retire the dead, dispatch.
module Coordination {
  import opened Basics
  import opened Model
  import opened Steps
  import opened Eviction
  import opened Invariants
  import opened Admission
  import opened Restart
  import opened Recovery
  import opened History
  import opened Safety

  datatype Session = Session(handshake: bool, registered: bool, publisher: nat, boot: nat)

  const NewSession := Session(false, false, 0, 0)

  /** A decoded request; `Other` sums up those that do not touch the registry, undecodable ones included. */
  datatype Message =
    | Hello(versionMatches: bool)
    | RegisterFrame(identity: Identity, adapter: string)
    | PublicationFrame(publication: Publication)
    | FenceFrame(publisher: nat)
    | ShutdownFrame
    | Other

  /** `answered` is whether sending the response succeeded. */
  datatype Frame = Frame(message: Message, answered: bool)

  /** What reading a ready session gave: its end (closed, unreadable or undecodable), or complete frames. */
  datatype Arrival = Closed(handle: nat) | Delivered(handle: nat, frames: seq<Frame>)

  /** The outside of one iteration: a shutdown asked for from outside, a connection to accept, and the ready sessions. */
  datatype Round = Round(cancelled: bool, connection: Option<nat>, arrivals: seq<Arrival>)

  datatype Bounds = Bounds(maxConnections: nat, maxPending: nat)

  datatype Response = Response(handle: nat, message: Message, code: Code)

  datatype World = World(registry: State, sessions: map<nat, Session>, stopping: bool, responses: seq<Response>)

  // ---- one frame ---------------------------------------------------------------------------

  function Respond(w: World, h: nat, m: Message, code: Code): World {
    w.(responses := w.responses + [Response(h, m, code)])
  }

  ghost function Dispatch(w: World, h: nat, m: Message): (v: World)
    requires h in w.sessions
    ensures v.sessions.Keys == w.sessions.Keys
  {
    match m
    case Hello(matches) =>
      if matches then Respond(w.(sessions := w.sessions[h := w.sessions[h].(handshake := true)]), h, m, Accepted)
      else Respond(w, h, m, RejectedValidation)
    case RegisterFrame(identity, adapter) =>
      if !w.sessions[h].handshake then Respond(w, h, m, RejectedValidation)
      else
        var o := RegisterOpen(w.registry, identity, adapter);
        var held := w.sessions[h].(registered := true, publisher := o.reply.identity.id, boot := o.reply.identity.boot);
        Respond(w.(registry := o.state, sessions := if IsAccepted(o.reply.code) then w.sessions[h := held] else w.sessions), h, m, o.reply.code)
    case PublicationFrame(publication) =>
      var o := ApplyPublication(w.registry, publication);
      Respond(w.(registry := o.state), h, m, o.reply.code)
    case FenceFrame(publisher) =>
      var o := Steps.FencePublisher(w.registry, publisher);
      Respond(w.(registry := o.state), h, m, o.reply.code)
    case ShutdownFrame => Respond(w, h, m, Accepted).(stopping := true)
    case Other => Respond(w, h, m, Accepted)
  }

  datatype Dispatched = Dispatched(world: World, closed: bool)

  /** The frames of one session: a response that cannot be sent closes it, a shutdown request ends its turn. */
  ghost function DispatchFrames(w: World, h: nat, frames: seq<Frame>): (d: Dispatched)
    requires h in w.sessions
    ensures h in d.world.sessions
    decreases |frames|
  {
    if frames == [] then Dispatched(w, false)
    else
      var next := Dispatch(w, h, frames[0].message);
      if !frames[0].answered then Dispatched(next, true)
      else if next.stopping then Dispatched(next, false)
      else DispatchFrames(next, h, frames[1..])
  }

  // ---- sessions --------------------------------------------------------------------------------

  /** The boot a dying session held is retired. */
  function Retired(registry: State, session: Session): State {
    if session.registered then RetireBoot(registry, session.publisher, session.boot).state else registry
  }

  function Drop(w: World, h: nat): World {
    if h !in w.sessions then w
    else w.(registry := Retired(w.registry, w.sessions[h]), sessions := w.sessions - {h})
  }

  function DropAll(w: World, hs: seq<nat>): World
    decreases |hs|
  {
    if hs == [] then w else DropAll(Drop(w, hs[0]), hs[1..])
  }

  function AcceptConnection(w: World, b: Bounds, connection: Option<nat>): World {
    if connection == None || |w.sessions| >= b.maxConnections || connection.value in w.sessions then w
    else w.(sessions := w.sessions[connection.value := NewSession])
  }

  /** A session is found dead when its connection ended or it delivered more frames than may be pending. */
  predicate IsDead(a: Arrival, b: Bounds) {
    a.Closed? || |a.frames| > b.maxPending
  }

  function DeadIn(arrivals: seq<Arrival>, b: Bounds): seq<nat> {
    if arrivals == [] then []
    else (if IsDead(arrivals[0], b) then [arrivals[0].handle] else []) + DeadIn(arrivals[1..], b)
  }

  /** The frames of every session that was read alive are interpreted in turn. */
  ghost function DispatchAll(w: World, arrivals: seq<Arrival>, b: Bounds): World
    decreases |arrivals|
  {
    if arrivals == [] then w
    else
      var a := arrivals[0];
      if IsDead(a, b) || a.handle !in w.sessions then DispatchAll(w, arrivals[1..], b)
      else
        var d := DispatchFrames(w, a.handle, a.frames);
        DispatchAll(if d.closed then Drop(d.world, a.handle) else d.world, arrivals[1..], b)
  }

  /** One iteration: the dead are retired before any frame of any session is interpreted. */
  ghost function Iterate(w: World, b: Bounds, r: Round): World {
    var accepted := AcceptConnection(w, b, r.connection);
    DispatchAll(DropAll(accepted, DeadIn(r.arrivals, b)), r.arrivals, b)
  }

  ghost function RetireAll(registry: State, sessions: map<nat, Session>): State
    decreases |sessions|
  {
    if sessions == map[] then registry
    else
      var h := MinOf(sessions.Keys);
      RetireAll(Retired(registry, sessions[h]), sessions - {h})
  }

  /** Ordered shutdown: every remaining session is retired, and the registry accepts nothing more. */
  ghost function Finish(w: World): World {
    w.(registry := RetireAll(w.registry, w.sessions).(shuttingDown := true), sessions := map[])
  }

  ghost function Loop(w: World, b: Bounds, rounds: seq<Round>): World
    decreases |rounds|
  {
    if w.stopping || rounds == [] then w
    else if rounds[0].cancelled then w.(stopping := true)
    else Loop(Iterate(w, b, rounds[0]), b, rounds[1..])
  }

  // ---- the authority invariant --------------------------------------------------------------------

  predicate Holds(s: Session, id: nat, boot: nat) {
    s.registered && s.publisher == id && s.boot == boot
  }

  predicate IsHeld(sessions: map<nat, Session>, id: nat, boot: nat) {
    exists h :: h in sessions && Holds(sessions[h], id, boot)
  }

  /** Every authoritative boot is held by a live session. */
  ghost predicate AllHeld(w: World) {
    forall id: nat, boot: nat :: Authoritative(w.registry.publishers, id, boot) ==> IsHeld(w.sessions, id, boot)
  }

  predicate Assigned(s: State, id: nat, boot: nat) {
    id in s.publishers && 1 <= boot <= s.publishers[id].boot
  }

  /** Sessions hold only boots that were assigned. */
  predicate SessionsOk(w: World) {
    forall h :: h in w.sessions && w.sessions[h].registered ==> Assigned(w.registry, w.sessions[h].publisher, w.sessions[h].boot)
  }

  ghost predicate RegistryOk(s: State) { Inv(s) && Bound(s.config) }

  ghost predicate WorldOk(w: World) { RegistryOk(w.registry) && SessionsOk(w) && AllHeld(w) }

  /** One publisher per session, and registration only by registration frames. */
  predicate Orderly(session: Session, frames: seq<Frame>, id: nat) {
    && (session.registered ==> session.publisher == id)
    && forall f :: f in frames ==>
         && (f.message.RegisterFrame? ==> f.message.identity.id == id)
         && (f.message.PublicationFrame? ==> f.message.publication.kind != RegisterPublisherKind)
  }

  predicate OneArrivalEach(arrivals: seq<Arrival>) {
    forall i, j :: 0 <= i < j < |arrivals| ==> arrivals[i].handle != arrivals[j].handle
  }

  // ---- what operations do to authority ---------------------------------------------------------------

  ghost predicate NoNewAuthority(s: State, t: State) {
    forall id: nat, boot: nat :: Authoritative(t.publishers, id, boot) ==> Authoritative(s.publishers, id, boot)
  }

  lemma PublicationGivesNoAuthority(s: State, pub: Publication)
    requires pub.kind != RegisterPublisherKind
    ensures NoNewAuthority(s, ApplyPublication(s, pub).state)
  {
    hide Sequenced, Validated, SenderRejection, Unbound;
    var p := Attribute(s.config, pub);
    if SenderRejection(s, p.publisher) == None { SequencedGivesNoAuthority(s, p); }
  }

  lemma SequencedGivesNoAuthority(s: State, pub: Publication)
    requires pub.publisher.id in s.publishers
    ensures NoNewAuthority(s, Sequenced(s, pub).state)
  {
    hide Handle, SequenceVerdict, TrimFingerprints;
    HandleKeepsPublishers(Opened(s, pub), pub);
  }

  lemma FenceGivesNoAuthority(s: State, id: nat)
    ensures NoNewAuthority(s, Steps.FencePublisher(s, id).state)
  {}

  lemma RetireTakesAuthority(s: State, id: nat, boot: nat)
    requires Assigned(s, id, boot)
    ensures var t := RetireBoot(s, id, boot).state;
      NoNewAuthority(s, t) && !Authoritative(t.publishers, id, boot) && FencedBoot(t, id, boot)
  {}

  lemma RegistrationChanges(s: State, identity: Identity, adapter: string)
    ensures var o := RegisterOpen(s, identity, adapter);
      if !IsAccepted(o.reply.code) then o.state == s
      else
        && identity.id in o.state.publishers && o.state.publishers[identity.id].boot == o.reply.identity.boot
        && o.state.publishers == s.publishers[identity.id := o.state.publishers[identity.id]]
  {}

  /** A registration gives authority to the boot it replies with, and to no other. */
  lemma RegistrationGivesOnly(s: State, identity: Identity, adapter: string, id: nat, boot: nat)
    requires Authoritative(RegisterOpen(s, identity, adapter).state.publishers, id, boot)
    ensures var reply := RegisterOpen(s, identity, adapter).reply;
      if IsAccepted(reply.code) && id == identity.id then boot == reply.identity.boot else Authoritative(s.publishers, id, boot)
  {
    hide RegisterOpen;
    RegistrationChanges(s, identity, adapter);
  }

  lemma RegistersUnder(s: State, identity: Identity, adapter: string)
    ensures var reply := RegisterOpen(s, identity, adapter).reply; IsAccepted(reply.code) ==> reply.identity.id == identity.id
  {}

  lemma RegistrationAssigns(s: State, identity: Identity, adapter: string)
    requires Inv(s)
    ensures var o := RegisterOpen(s, identity, adapter);
      IsAccepted(o.reply.code) ==> o.reply.identity.id == identity.id && Assigned(o.state, identity.id, o.reply.identity.boot)
  {
    hide Inv;
    PublishersWere(s);
  }

  lemma AssignedStays(s: State, t: State, id: nat, boot: nat)
    requires Grows(s, t) && Assigned(s, id, boot)
    ensures Assigned(t, id, boot)
  {
    hide KeysGrow, DevicesGrow, WatermarkOf;
  }

  // ---- the invariant is kept, frame by frame ------------------------------------------------------------

  lemma StepIsOk(s: State, op: Op)
    requires RegistryOk(s) && Allowed(s, op) && !op.RestartFrom?
    ensures var t := Step(s, op).state; RegistryOk(t) && Grows(s, t)
  {
    hide Inv, Grows, Bound, Allowed, Step;
    StepKeeps(s, op);
  }

  lemma HelloKeeps(w: World, h: nat, matches: bool)
    requires WorldOk(w) && h in w.sessions
    ensures var v := Dispatch(w, h, Hello(matches)); WorldOk(v) && Grows(w.registry, v.registry)
  {
    hide RegistryOk, Grows, Authoritative, Assigned;
    var v := Dispatch(w, h, Hello(matches));
    assert Grows(w.registry, v.registry) by { GrowsFromOk(w.registry); }
    forall k | k in v.sessions && v.sessions[k].registered ensures Assigned(v.registry, v.sessions[k].publisher, v.sessions[k].boot) {
      assert w.sessions[k].registered;
    }
    forall id: nat, boot: nat | Authoritative(v.registry.publishers, id, boot) ensures IsHeld(v.sessions, id, boot) {
      assert IsHeld(w.sessions, id, boot);
      var k :| k in w.sessions && Holds(w.sessions[k], id, boot);
      assert k in v.sessions && Holds(v.sessions[k], id, boot);
    }
  }

  lemma GrowsFromOk(s: State)
    requires RegistryOk(s)
    ensures Grows(s, s)
  {
    hide Inv, Bound, Grows;
    StaysPut(s);
  }

  lemma OkIsInv(s: State)
    requires RegistryOk(s)
    ensures Inv(s)
  {
    hide Inv, Bound;
  }

  // ---- exactly when a frame strands an authoritative boot ------------------------------------------------

  /** What a registration has to pass. */
  predicate Registrable(s: State, identity: Identity, adapter: string) {
    && identity.id != 0 && 1 <= |adapter| <= s.config.limits.maxMetadataBytes
    && if identity.id !in s.publishers then |s.publishers| < s.config.limits.maxPublishers && identity.boot <= 1
       else
         var p := s.publishers[identity.id];
         !p.fenced && (identity.boot == 0 || (identity.boot == p.boot && identity.boot !in p.fencedBoots))
  }

  lemma AcceptedIffRegistrable(s: State, identity: Identity, adapter: string)
    ensures IsAccepted(RegisterPublisher(s, identity, adapter).reply.code) <==> Registrable(s, identity, adapter)
    ensures IsAccepted(RegisterOpen(s, identity, adapter).reply.code) <==> !s.shuttingDown && Registrable(s, identity, adapter)
  {}

  /** A publication that registers a publisher never seen before: its boot has authority, and no session holds it. */
  predicate StrandsNewPublisher(w: World, pub: Publication) {
    && !w.registry.shuttingDown && pub.kind == RegisterPublisherKind && pub.wellFormed && pub.publisher.boot == 1
    && pub.publisher.id !in w.registry.publishers && Registrable(w.registry, pub.publisher, pub.adapter)
  }

  predicate HeldByAnother(sessions: map<nat, Session>, h: nat, id: nat, boot: nat) {
    exists k :: k in sessions && k != h && Holds(sessions[k], id, boot)
  }

  /** A registration frame for another publisher, from the only session that holds a boot with authority. */
  predicate StrandsFormerPublisher(w: World, h: nat, identity: Identity, adapter: string)
    requires h in w.sessions
  {
    var session := w.sessions[h];
    && !w.registry.shuttingDown && session.handshake && session.registered && session.publisher != identity.id
    && Authoritative(w.registry.publishers, session.publisher, session.boot)
    && !HeldByAnother(w.sessions, h, session.publisher, session.boot)
    && Registrable(w.registry, identity, adapter)
  }

  predicate Strands(w: World, h: nat, m: Message)
    requires h in w.sessions
  {
    || (m.PublicationFrame? && StrandsNewPublisher(w, m.publication))
    || (m.RegisterFrame? && StrandsFormerPublisher(w, h, m.identity, m.adapter))
  }

  /** What every frame keeps, stranding or not. */
  ghost predicate MovedOn(w: World, v: World) {
    RegistryOk(v.registry) && SessionsOk(v) && Grows(w.registry, v.registry)
  }

  lemma HoldersStay(w: World, v: World)
    requires WorldOk(w) && RegistryOk(v.registry) && Grows(w.registry, v.registry) && v.sessions == w.sessions
    ensures MovedOn(w, v)
  {
    hide RegistryOk, Grows, AllHeld, Assigned;
    forall h | h in v.sessions && v.sessions[h].registered ensures Assigned(v.registry, v.sessions[h].publisher, v.sessions[h].boot) {
      AssignedStays(w.registry, v.registry, w.sessions[h].publisher, w.sessions[h].boot);
    }
  }

  lemma WorldOkIff(w: World, v: World)
    requires MovedOn(w, v)
    ensures WorldOk(v) <==> AllHeld(v)
  {
    hide RegistryOk, Grows, AllHeld, SessionsOk;
  }

  lemma NotAllHeld(w: World, id: nat, boot: nat)
    requires Authoritative(w.registry.publishers, id, boot) && !IsHeld(w.sessions, id, boot)
    ensures !AllHeld(w)
  {
    hide Authoritative, IsHeld;
  }

  /** Authority that stays where it was stays held by the sessions that stay as they were. */
  lemma StaysHeld(w: World, v: World)
    requires AllHeld(w) && NoNewAuthority(w.registry, v.registry) && v.sessions == w.sessions
    ensures AllHeld(v)
  {
    hide Authoritative, IsHeld;
  }

  lemma RegistrationMovesOn(w: World, h: nat, identity: Identity, adapter: string)
    requires WorldOk(w) && h in w.sessions
    ensures MovedOn(w, Dispatch(w, h, RegisterFrame(identity, adapter)))
  {
    hide RegistryOk, Grows, AllHeld, Assigned, RegisterOpen;
    var v := Dispatch(w, h, RegisterFrame(identity, adapter));
    GrowsFromOk(w.registry);
    if w.sessions[h].handshake {
      StepIsOk(w.registry, Register(identity, adapter));
      RegistrationAssigns(w.registry, identity, adapter) by { OkIsInv(w.registry); }
      forall k | k in v.sessions && v.sessions[k].registered ensures Assigned(v.registry, v.sessions[k].publisher, v.sessions[k].boot) {
        if k in w.sessions && w.sessions[k].registered { AssignedStays(w.registry, v.registry, w.sessions[k].publisher, w.sessions[k].boot); }
      }
    }
  }

  lemma RegistrationKeepsOthers(s: State, identity: Identity, adapter: string, id: nat, boot: nat)
    requires Authoritative(s.publishers, id, boot) && id != identity.id
    ensures Authoritative(RegisterOpen(s, identity, adapter).state.publishers, id, boot)
  {
    hide RegisterOpen;
    RegistrationChanges(s, identity, adapter);
  }

  lemma RegistrationStrandsIff(w: World, h: nat, identity: Identity, adapter: string)
    requires WorldOk(w) && h in w.sessions
    ensures AllHeld(Dispatch(w, h, RegisterFrame(identity, adapter))) <==> !StrandsFormerPublisher(w, h, identity, adapter)
  {
    hide RegistryOk, SessionsOk, Authoritative, RegisterOpen, Registrable;
    var v := Dispatch(w, h, RegisterFrame(identity, adapter));
    var session := w.sessions[h];
    AcceptedIffRegistrable(w.registry, identity, adapter);
    RegistrationAssigns(w.registry, identity, adapter) by { OkIsInv(w.registry); }
    if StrandsFormerPublisher(w, h, identity, adapter) {
      RegistrationKeepsOthers(w.registry, identity, adapter, session.publisher, session.boot);
      NotAllHeld(v, session.publisher, session.boot);
    } else if session.handshake {
      var reply := RegisterOpen(w.registry, identity, adapter).reply;
      forall id: nat, boot: nat | Authoritative(v.registry.publishers, id, boot) ensures IsHeld(v.sessions, id, boot) {
        RegistrationGivesOnly(w.registry, identity, adapter, id, boot);
        if IsAccepted(reply.code) && id == identity.id {
          assert Holds(v.sessions[h], id, boot);
        } else {
          assert IsHeld(w.sessions, id, boot);
          var k := AnotherHolder(w.sessions, h, id, boot);
          assert k in v.sessions && Holds(v.sessions[k], id, boot);
        }
      }
    }
  }

  lemma AnotherHolder(sessions: map<nat, Session>, h: nat, id: nat, boot: nat) returns (k: nat)
    requires IsHeld(sessions, id, boot)
    ensures k in sessions && Holds(sessions[k], id, boot) && (k == h ==> !HeldByAnother(sessions, h, id, boot))
  {
    k :| k in sessions && Holds(sessions[k], id, boot);
    if HeldByAnother(sessions, h, id, boot) {
      k :| k in sessions && k != h && Holds(sessions[k], id, boot);
    }
  }

  /** Re-affirming a boot, or being refused, gives nobody authority that did not have it. */
  lemma OnlyNewPublishersGainAuthority(s: State, identity: Identity, adapter: string)
    requires Inv(s) && identity.boot != 0 && !(identity.id !in s.publishers && Registrable(s, identity, adapter))
    ensures NoNewAuthority(s, RegisterPublisher(s, identity, adapter).state)
  {
    hide Inv;
    PublishersWere(s);
  }

  lemma NewPublisherGainsAuthority(s: State, identity: Identity, adapter: string)
    requires identity.boot == 1 && identity.id !in s.publishers && Registrable(s, identity, adapter)
    ensures Authoritative(RegisterPublisher(s, identity, adapter).state.publishers, identity.id, 1)
  {}

  /** What becomes of a publication that registers its publisher. */
  lemma RegisteringPublication(s: State, pub: Publication)
    requires pub.kind == RegisterPublisherKind
    ensures var t := ApplyPublication(s, pub).state;
      if s.shuttingDown || !pub.wellFormed || pub.publisher.id == 0 || pub.publisher.boot == 0 then t == s
      else t == RegisterPublisher(s, pub.publisher, pub.adapter).state
  {
    hide RegisterPublisher;
  }

  lemma NobodyHoldsStrangers(w: World, id: nat, boot: nat)
    requires SessionsOk(w) && id !in w.registry.publishers
    ensures !IsHeld(w.sessions, id, boot)
  {}

  lemma PublicationStrandsIff(w: World, h: nat, pub: Publication)
    requires WorldOk(w) && h in w.sessions
    ensures AllHeld(Dispatch(w, h, PublicationFrame(pub))) <==> !StrandsNewPublisher(w, pub)
  {
    hide RegistryOk, SessionsOk, AllHeld, NoNewAuthority, RegisterPublisher, ApplyPublication, Authoritative;
    var v := Dispatch(w, h, PublicationFrame(pub));
    OkIsInv(w.registry);
    if pub.kind != RegisterPublisherKind {
      PublicationGivesNoAuthority(w.registry, pub);
      StaysHeld(w, v);
    } else {
      RegisteringPublication(w.registry, pub);
      if StrandsNewPublisher(w, pub) {
        NewPublisherGainsAuthority(w.registry, pub.publisher, pub.adapter);
        NobodyHoldsStrangers(w, pub.publisher.id, 1);
        NotAllHeld(v, pub.publisher.id, 1);
      } else {
        if v.registry == w.registry { NothingNew(w.registry); }
        else { OnlyNewPublishersGainAuthority(w.registry, pub.publisher, pub.adapter); }
        StaysHeld(w, v);
      }
    }
  }

  lemma NothingNew(s: State)
    ensures NoNewAuthority(s, s)
  {
    hide Authoritative;
  }

  lemma DispatchMovesOn(w: World, h: nat, m: Message)
    requires WorldOk(w) && h in w.sessions
    ensures MovedOn(w, Dispatch(w, h, m))
  {
    hide RegistryOk, Grows, SessionsOk, AllHeld, RegisterOpen, ApplyPublication, Steps.FencePublisher;
    GrowsFromOk(w.registry);
    match m {
      case Hello(matches) => HelloKeeps(w, h, matches);
      case RegisterFrame(identity, adapter) => RegistrationMovesOn(w, h, identity, adapter);
      case PublicationFrame(publication) =>
        StepIsOk(w.registry, Publish(publication));
        HoldersStay(w, Dispatch(w, h, m));
      case FenceFrame(publisher) =>
        StepIsOk(w.registry, Fence(publisher));
        HoldersStay(w, Dispatch(w, h, m));
      case _ => HoldersStay(w, Dispatch(w, h, m));
    }
  }

  /**
   * A frame leaves every authoritative boot held exactly when it does not register a publisher never seen before by a
   * publication, nor a second publisher from the only session that holds the first one's authoritative boot.
   */
  lemma AuthorityStaysHeldIff(w: World, h: nat, m: Message)
    requires WorldOk(w) && h in w.sessions
    ensures var v := Dispatch(w, h, m); WorldOk(v) <==> !Strands(w, h, m)
    ensures AllHeld(Dispatch(w, h, m)) <==> !Strands(w, h, m)
    ensures Grows(w.registry, Dispatch(w, h, m).registry)
  {
    hide RegistryOk, Grows, SessionsOk, AllHeld, RegisterOpen, ApplyPublication, NoNewAuthority, StrandsNewPublisher,
      StrandsFormerPublisher, Steps.FencePublisher;
    var v := Dispatch(w, h, m);
    DispatchMovesOn(w, h, m);
    WorldOkIff(w, v);
    match m {
      case Hello(matches) => HelloKeeps(w, h, matches);
      case RegisterFrame(identity, adapter) => RegistrationStrandsIff(w, h, identity, adapter);
      case PublicationFrame(publication) => PublicationStrandsIff(w, h, publication);
      case FenceFrame(publisher) =>
        FenceGivesNoAuthority(w.registry, publisher);
        StaysHeld(w, v);
      case _ =>
        NothingNew(w.registry);
        StaysHeld(w, v);
    }
  }

  /** One publisher per session, and registration only by registration frames: such frames strand nothing. */
  lemma DispatchKeeps(w: World, h: nat, m: Message)
    requires WorldOk(w) && h in w.sessions
    requires m.RegisterFrame? && w.sessions[h].registered ==> w.sessions[h].publisher == m.identity.id
    requires m.PublicationFrame? ==> m.publication.kind != RegisterPublisherKind
    ensures var v := Dispatch(w, h, m); WorldOk(v) && Grows(w.registry, v.registry)
  {
    hide WorldOk, Grows, Dispatch, Registrable, Authoritative;
    AuthorityStaysHeldIff(w, h, m);
  }

  lemma WorldParts(w: World)
    requires WorldOk(w)
    ensures RegistryOk(w.registry)
  {
    hide RegistryOk, SessionsOk, AllHeld;
  }

  lemma DropKeeps(w: World, h: nat)
    requires WorldOk(w)
    ensures var v := Drop(w, h); WorldOk(v) && Grows(w.registry, v.registry)
    ensures h in w.sessions && w.sessions[h].registered ==> FencedBoot(Drop(w, h).registry, w.sessions[h].publisher, w.sessions[h].boot)
  {
    hide RegistryOk, Grows, Authoritative, FencedBoot, RetireBoot;
    var v := Drop(w, h);
    GrowsFromOk(w.registry);
    if h in w.sessions {
      var dying := w.sessions[h];
      if dying.registered {
        StepIsOk(w.registry, Retire(dying.publisher, dying.boot));
        RetireTakesAuthority(w.registry, dying.publisher, dying.boot);
      }
      forall k | k in v.sessions && v.sessions[k].registered ensures Assigned(v.registry, v.sessions[k].publisher, v.sessions[k].boot) {
        AssignedStays(w.registry, v.registry, w.sessions[k].publisher, w.sessions[k].boot);
      }
      forall id: nat, boot: nat | Authoritative(v.registry.publishers, id, boot) ensures IsHeld(v.sessions, id, boot) {
        assert IsHeld(w.sessions, id, boot);
        var k :| k in w.sessions && Holds(w.sessions[k], id, boot);
        assert k in v.sessions && Holds(v.sessions[k], id, boot);
      }
    }
  }

  // ---- whole turns -----------------------------------------------------------------------------------------

  ghost predicate SameOthers(w: World, v: World, h: nat) {
    forall k :: k != h ==> (k in v.sessions <==> k in w.sessions) && (k in w.sessions ==> v.sessions[k] == w.sessions[k])
  }

  /** What a session that has been dispatched still looks like to the frames behind. */
  lemma DispatchTouchesOne(w: World, h: nat, m: Message, id: nat)
    requires Inv(w.registry) && h in w.sessions && (w.sessions[h].registered ==> w.sessions[h].publisher == id)
    requires m.RegisterFrame? ==> m.identity.id == id
    ensures var v := Dispatch(w, h, m);
      SameOthers(w, v, h) && (v.sessions[h].registered ==> v.sessions[h].publisher == id)
  {
    hide Inv, RegisterOpen, ApplyPublication, Steps.FencePublisher;
    if m.RegisterFrame? { RegistrationAssigns(w.registry, m.identity, m.adapter); }
  }

  lemma DispatchStaysOrderly(w: World, h: nat, frames: seq<Frame>, id: nat)
    requires WorldOk(w) && h in w.sessions && frames != [] && Orderly(w.sessions[h], frames, id)
    ensures var v := Dispatch(w, h, frames[0].message); Orderly(v.sessions[h], frames[1..], id) && SameOthers(w, v, h)
  {
    hide RegistryOk, SessionsOk, AllHeld, Dispatch, SameOthers;
    assert frames[0] in frames;
    OkIsInv(w.registry);
    DispatchTouchesOne(w, h, frames[0].message, id);
  }

  lemma {:induction false} DispatchFramesKeeps(w: World, h: nat, frames: seq<Frame>, id: nat)
    requires WorldOk(w) && h in w.sessions && Orderly(w.sessions[h], frames, id)
    ensures var d := DispatchFrames(w, h, frames);
      WorldOk(d.world) && Grows(w.registry, d.world.registry) && SameOthers(w, d.world, h)
    decreases |frames|
  {
    hide WorldOk, Grows, Dispatch, RegistryOk;
    WorldParts(w);
    GrowsFromOk(w.registry);
    if frames != [] {
      assert frames[0] in frames;
      DispatchKeeps(w, h, frames[0].message);
      DispatchStaysOrderly(w, h, frames, id);
      var next := Dispatch(w, h, frames[0].message);
      if frames[0].answered && !next.stopping {
        DispatchFramesKeeps(next, h, frames[1..], id);
        GrowsTransitive(w.registry, next.registry, DispatchFrames(w, h, frames).world.registry);
      }
    }
  }

  ghost predicate OrderlyArrivals(w: World, arrivals: seq<Arrival>) {
    forall a :: a in arrivals && a.Delivered? && a.handle in w.sessions ==> exists id :: Orderly(w.sessions[a.handle], a.frames, id)
  }

  /** The sessions still waiting for their turn are the ones they were. */
  predicate OthersKept(w: World, v: World, arrivals: seq<Arrival>) {
    forall a :: a in arrivals && a.handle in v.sessions ==> a.handle in w.sessions && v.sessions[a.handle] == w.sessions[a.handle]
  }

  lemma OrderlyLater(w: World, v: World, arrivals: seq<Arrival>)
    requires OrderlyArrivals(w, arrivals) && OthersKept(w, v, arrivals)
    ensures OrderlyArrivals(v, arrivals)
  {
    hide Orderly;
  }

  ghost function Turn(w: World, a: Arrival, b: Bounds): World {
    if IsDead(a, b) || a.handle !in w.sessions then w
    else
      var d := DispatchFrames(w, a.handle, a.frames);
      if d.closed then Drop(d.world, a.handle) else d.world
  }

  lemma TurnKeeps(w: World, a: Arrival, b: Bounds)
    requires WorldOk(w) && (a.Delivered? && a.handle in w.sessions ==> exists id :: Orderly(w.sessions[a.handle], a.frames, id))
    ensures var v := Turn(w, a, b);
      && WorldOk(v) && Grows(w.registry, v.registry)
      && forall k :: k != a.handle && k in v.sessions ==> k in w.sessions && v.sessions[k] == w.sessions[k]
  {
    hide WorldOk, Grows, Orderly, DispatchFrames, RegistryOk, Retired;
    WorldParts(w);
    GrowsFromOk(w.registry);
    if !IsDead(a, b) && a.handle in w.sessions {
      var id :| Orderly(w.sessions[a.handle], a.frames, id);
      DispatchFramesKeeps(w, a.handle, a.frames, id);
      var d := DispatchFrames(w, a.handle, a.frames);
      DropKeeps(d.world, a.handle);
      GrowsTransitive(w.registry, d.world.registry, Drop(d.world, a.handle).registry);
    }
  }

  lemma {:induction false} DispatchAllKeeps(w: World, arrivals: seq<Arrival>, b: Bounds)
    requires WorldOk(w) && OrderlyArrivals(w, arrivals) && OneArrivalEach(arrivals)
    ensures var v := DispatchAll(w, arrivals, b); WorldOk(v) && Grows(w.registry, v.registry)
    decreases |arrivals|
  {
    hide WorldOk, Grows, Orderly, DispatchFrames, RegistryOk, Drop;
    WorldParts(w);
    GrowsFromOk(w.registry);
    if arrivals != [] {
      var a, rest := arrivals[0], arrivals[1..];
      assert arrivals == [a] + rest;
      TurnKeeps(w, a, b);
      var v := Turn(w, a, b);
      assert OthersKept(w, v, rest);
      OrderlyLater(w, v, rest);
      DispatchAllKeeps(v, rest, b);
      GrowsTransitive(w.registry, v.registry, DispatchAll(v, rest, b).registry);
    }
  }

  lemma {:induction false} DropAllKeeps(w: World, hs: seq<nat>)
    requires WorldOk(w)
    ensures var v := DropAll(w, hs);
      && WorldOk(v) && Grows(w.registry, v.registry) && v.responses == w.responses && v.stopping == w.stopping
      && (forall k :: k in v.sessions ==> k in w.sessions && v.sessions[k] == w.sessions[k])
      && (forall h :: h in hs && h in w.sessions && w.sessions[h].registered ==> FencedBoot(v.registry, w.sessions[h].publisher, w.sessions[h].boot))
    decreases |hs|
  {
    hide WorldOk, Grows, RegistryOk, Retired, FencedBoot;
    WorldParts(w);
    GrowsFromOk(w.registry);
    if hs != [] {
      assert hs == [hs[0]] + hs[1..];
      DropKeeps(w, hs[0]);
      var v := Drop(w, hs[0]);
      DropAllKeeps(v, hs[1..]);
      GrowsTransitive(w.registry, v.registry, DropAll(v, hs[1..]).registry);
      if hs[0] in w.sessions && w.sessions[hs[0]].registered {
        GrowthKeepsFences(v.registry, DropAll(v, hs[1..]).registry, w.sessions[hs[0]].publisher, w.sessions[hs[0]].boot);
      }
    }
  }

  lemma AcceptKeeps(w: World, b: Bounds, connection: Option<nat>)
    requires WorldOk(w)
    ensures var v := AcceptConnection(w, b, connection);
      && WorldOk(v) && v.registry == w.registry && v.responses == w.responses
      && forall k :: k in w.sessions ==> k in v.sessions && v.sessions[k] == w.sessions[k]
  {
    hide RegistryOk, Authoritative, Assigned;
    var v := AcceptConnection(w, b, connection);
    forall id: nat, boot: nat | Authoritative(v.registry.publishers, id, boot) ensures IsHeld(v.sessions, id, boot) {
      assert IsHeld(w.sessions, id, boot);
      var k :| k in w.sessions && Holds(w.sessions[k], id, boot);
      assert k in v.sessions && Holds(v.sessions[k], id, boot);
    }
  }

  /** The ready sessions were sessions before the round, so a connection accepted in it is not among them. */
  predicate ReadyAreOld(w: World, r: Round) {
    forall a :: a in r.arrivals ==> a.handle in w.sessions
  }

  /** After every iteration each authoritative boot is held by a live session. */
  lemma IterationKeepsAuthorityHeld(w: World, b: Bounds, r: Round)
    requires WorldOk(w) && OneArrivalEach(r.arrivals) && ReadyAreOld(w, r) && OrderlyArrivals(w, r.arrivals)
    ensures WorldOk(Iterate(w, b, r)) && Grows(w.registry, Iterate(w, b, r).registry)
  {
    hide WorldOk, Grows, Orderly, DispatchAll, DropAll, AcceptConnection;
    AcceptKeeps(w, b, r.connection);
    var accepted := AcceptConnection(w, b, r.connection);
    DropAllKeeps(accepted, DeadIn(r.arrivals, b));
    var living := DropAll(accepted, DeadIn(r.arrivals, b));
    assert OthersKept(w, living, r.arrivals);
    OrderlyLater(w, living, r.arrivals);
    DispatchAllKeeps(living, r.arrivals, b);
    GrowsTransitive(accepted.registry, living.registry, Iterate(w, b, r).registry);
  }

  // ---- the dead are not heard ----------------------------------------------------------------------------------

  /** The request speaks for this boot. */
  predicate Carries(m: Message, id: nat, boot: nat) {
    || (m.PublicationFrame? && m.publication.publisher.id == id && m.publication.publisher.boot == boot)
    || (m.RegisterFrame? && m.identity.id == id && m.identity.boot == boot)
  }

  /** Every response from the `from`-th on that answers a request for the boot is a refusal. */
  predicate RefusedSince(w: World, from: nat, id: nat, boot: nat) {
    from <= |w.responses| && forall i :: from <= i < |w.responses| && Carries(w.responses[i].message, id, boot) ==> !IsAccepted(w.responses[i].code)
  }

  lemma DispatchRefuses(w: World, h: nat, m: Message, from: nat, id: nat, boot: nat)
    requires h in w.sessions && FencedBoot(w.registry, id, boot) && boot != 0 && RefusedSince(w, from, id, boot)
    ensures RefusedSince(Dispatch(w, h, m), from, id, boot)
  {
    hide ApplyPublication, RegisterPublisher, FencedBoot;
    if m.PublicationFrame? && Carries(m, id, boot) { AlwaysRefused(w.registry, m.publication); }
    if m.RegisterFrame? && Carries(m, id, boot) { RegisteringFencedBoot(w.registry, m.identity, m.adapter); }
  }

  lemma {:induction false} DispatchFramesRefuses(w: World, h: nat, frames: seq<Frame>, publisher: nat, from: nat, id: nat, boot: nat)
    requires WorldOk(w) && h in w.sessions && Orderly(w.sessions[h], frames, publisher)
    requires FencedBoot(w.registry, id, boot) && boot != 0 && RefusedSince(w, from, id, boot)
    ensures RefusedSince(DispatchFrames(w, h, frames).world, from, id, boot)
    decreases |frames|
  {
    hide WorldOk, Grows, Dispatch, FencedBoot, RefusedSince;
    if frames != [] {
      assert frames[0] in frames;
      DispatchKeeps(w, h, frames[0].message);
      DispatchStaysOrderly(w, h, frames, publisher);
      DispatchRefuses(w, h, frames[0].message, from, id, boot);
      var next := Dispatch(w, h, frames[0].message);
      GrowthKeepsFences(w.registry, next.registry, id, boot);
      if frames[0].answered && !next.stopping { DispatchFramesRefuses(next, h, frames[1..], publisher, from, id, boot); }
    }
  }

  lemma {:induction false} DispatchAllRefuses(w: World, arrivals: seq<Arrival>, b: Bounds, from: nat, id: nat, boot: nat)
    requires WorldOk(w) && OrderlyArrivals(w, arrivals) && OneArrivalEach(arrivals)
    requires FencedBoot(w.registry, id, boot) && boot != 0 && RefusedSince(w, from, id, boot)
    ensures RefusedSince(DispatchAll(w, arrivals, b), from, id, boot)
    decreases |arrivals|
  {
    hide WorldOk, Grows, Orderly, DispatchFrames, FencedBoot, RefusedSince, Retired;
    if arrivals != [] {
      var a, rest := arrivals[0], arrivals[1..];
      assert arrivals == [a] + rest && a in arrivals;
      TurnKeeps(w, a, b);
      var v := Turn(w, a, b);
      if !IsDead(a, b) && a.handle in w.sessions {
        var publisher :| Orderly(w.sessions[a.handle], a.frames, publisher);
        DispatchFramesRefuses(w, a.handle, a.frames, publisher, from, id, boot);
        SameResponses(DispatchFrames(w, a.handle, a.frames).world, Drop(DispatchFrames(w, a.handle, a.frames).world, a.handle), from, id, boot);
      }
      assert OthersKept(w, v, rest);
      OrderlyLater(w, v, rest);
      GrowthKeepsFences(w.registry, v.registry, id, boot);
      DispatchAllRefuses(v, rest, b, from, id, boot);
    }
  }

  lemma SameResponses(w: World, v: World, from: nat, id: nat, boot: nat)
    requires RefusedSince(w, from, id, boot) && w.responses == v.responses
    ensures RefusedSince(v, from, id, boot)
  {}

  lemma {:induction false} DeadInHas(arrivals: seq<Arrival>, b: Bounds, a: Arrival)
    requires a in arrivals && IsDead(a, b)
    ensures a.handle in DeadIn(arrivals, b)
  {
    if arrivals[0] != a { DeadInHas(arrivals[1..], b, a); }
  }

  /**
   * Whatever is delivered in an iteration, by whichever session, no request that speaks for a boot whose session was found
   * dead in that iteration is accepted.
   */
  lemma TheDeadAreNotHeard(w: World, b: Bounds, r: Round, dead: Arrival)
    requires WorldOk(w) && OneArrivalEach(r.arrivals) && ReadyAreOld(w, r) && OrderlyArrivals(w, r.arrivals)
    requires dead in r.arrivals && IsDead(dead, b) && w.sessions[dead.handle].registered
    ensures var s := w.sessions[dead.handle];
      FencedBoot(Iterate(w, b, r).registry, s.publisher, s.boot) && RefusedSince(Iterate(w, b, r), |w.responses|, s.publisher, s.boot)
  {
    hide WorldOk, Grows, Orderly, DispatchAll, DropAll, AcceptConnection, FencedBoot;
    var s := w.sessions[dead.handle];
    AcceptKeeps(w, b, r.connection);
    var accepted := AcceptConnection(w, b, r.connection);
    DropAllKeeps(accepted, DeadIn(r.arrivals, b));
    DeadInHas(r.arrivals, b, dead);
    var living := DropAll(accepted, DeadIn(r.arrivals, b));
    assert OthersKept(w, living, r.arrivals);
    OrderlyLater(w, living, r.arrivals);
    assert s.boot != 0 by { HeldBoot(w, dead.handle); }
    DispatchAllRefuses(living, r.arrivals, b, |w.responses|, s.publisher, s.boot);
    DispatchAllKeeps(living, r.arrivals, b);
    GrowthKeepsFences(living.registry, Iterate(w, b, r).registry, s.publisher, s.boot);
  }

  lemma IterationStillRefuses(w: World, b: Bounds, r: Round, from: nat, id: nat, boot: nat)
    requires WorldOk(w) && OneArrivalEach(r.arrivals) && ReadyAreOld(w, r) && OrderlyArrivals(w, r.arrivals)
    requires FencedBoot(w.registry, id, boot) && boot != 0 && RefusedSince(w, from, id, boot)
    ensures FencedBoot(Iterate(w, b, r).registry, id, boot) && RefusedSince(Iterate(w, b, r), from, id, boot)
  {
    hide WorldOk, Grows, Orderly, DispatchAll, DropAll, AcceptConnection, FencedBoot, RefusedSince;
    AcceptKeeps(w, b, r.connection);
    var accepted := AcceptConnection(w, b, r.connection);
    DropAllKeeps(accepted, DeadIn(r.arrivals, b));
    var living := DropAll(accepted, DeadIn(r.arrivals, b));
    assert OthersKept(w, living, r.arrivals);
    OrderlyLater(w, living, r.arrivals);
    GrowthKeepsFences(accepted.registry, living.registry, id, boot);
    SameResponses(w, living, from, id, boot);
    DispatchAllRefuses(living, r.arrivals, b, from, id, boot);
    DispatchAllKeeps(living, r.arrivals, b);
    GrowthKeepsFences(living.registry, Iterate(w, b, r).registry, id, boot);
  }

  lemma HeldBoot(w: World, h: nat)
    requires WorldOk(w) && h in w.sessions && w.sessions[h].registered
    ensures w.sessions[h].boot != 0
  {
    hide RegistryOk, AllHeld;
  }

  // ---- whole runs of the loop ---------------------------------------------------------------------------------------

  /** A run of the event loop: the rounds, and the worlds before, between and after them. */
  datatype LoopRun = LoopRun(bounds: Bounds, rounds: seq<Round>, worlds: seq<World>)

  /** The `i`-th round is orderly, and leads to the world recorded. */
  ghost predicate RoundAt(run: LoopRun, i: nat)
    requires i < |run.rounds| && |run.worlds| == |run.rounds| + 1
  {
    && !run.rounds[i].cancelled
    && OneArrivalEach(run.rounds[i].arrivals) && ReadyAreOld(run.worlds[i], run.rounds[i])
    && OrderlyArrivals(run.worlds[i], run.rounds[i].arrivals)
    && run.worlds[i + 1] == Iterate(run.worlds[i], run.bounds, run.rounds[i])
  }

  /** The runs of a coordinator that starts without sessions over a registry in which nothing has authority. */
  ghost predicate LoopBehaviour(run: LoopRun) {
    && |run.worlds| == |run.rounds| + 1
    && RegistryOk(run.worlds[0].registry) && run.worlds[0].sessions == map[]
    && (forall id: nat, boot: nat :: !Authoritative(run.worlds[0].registry.publishers, id, boot))
    && forall i: nat :: i < |run.rounds| ==> RoundAt(run, i)
  }

  lemma {:induction false} LoopRunIsOk(run: LoopRun, j: nat)
    requires LoopBehaviour(run) && j < |run.worlds|
    ensures WorldOk(run.worlds[j])
  {
    hide RegistryOk, Authoritative, Iterate, OrderlyArrivals;
    if j > 0 {
      LoopRunIsOk(run, j - 1);
      assert RoundAt(run, j - 1);
      IterationKeepsAuthorityHeld(run.worlds[j - 1], run.bounds, run.rounds[j - 1]);
    }
  }

  /** In every world of every run an authoritative boot is held by a live session. */
  lemma AuthorityIsAlwaysHeld(run: LoopRun, j: nat, id: nat, boot: nat)
    requires LoopBehaviour(run) && j < |run.worlds| && Authoritative(run.worlds[j].registry.publishers, id, boot)
    ensures IsHeld(run.worlds[j].sessions, id, boot)
  {
    hide RegistryOk, Authoritative, RoundAt, IsHeld;
    LoopRunIsOk(run, j);
  }

  /** A session is found dead in the `i`-th round while it holds this boot. */
  predicate DiesAt(run: LoopRun, i: nat, dead: Arrival, id: nat, boot: nat)
    requires i < |run.rounds| && |run.worlds| == |run.rounds| + 1
  {
    && dead in run.rounds[i].arrivals && IsDead(dead, run.bounds)
    && dead.handle in run.worlds[i].sessions && Holds(run.worlds[i].sessions[dead.handle], id, boot)
  }

  /** From the round in which its session is found dead on, no request of any session that speaks for the boot is accepted. */
  lemma {:induction false} TheDeadAreNeverHeard(run: LoopRun, i: nat, j: nat, dead: Arrival, id: nat, boot: nat)
    requires LoopBehaviour(run) && i < j < |run.worlds| && DiesAt(run, i, dead, id, boot)
    ensures FencedBoot(run.worlds[j].registry, id, boot)
    ensures RefusedSince(run.worlds[j], |run.worlds[i].responses|, id, boot)
    decreases j
  {
    hide RegistryOk, Authoritative, Iterate, OrderlyArrivals, FencedBoot, RefusedSince, WorldOk;
    LoopRunIsOk(run, j - 1);
    assert RoundAt(run, j - 1);
    if j == i + 1 {
      TheDeadAreNotHeard(run.worlds[i], run.bounds, run.rounds[i], dead);
    } else {
      TheDeadAreNeverHeard(run, i, j - 1, dead, id, boot);
      LoopRunIsOk(run, i);
      HeldBoot(run.worlds[i], dead.handle);
      IterationStillRefuses(run.worlds[j - 1], run.bounds, run.rounds[j - 1], |run.worlds[i].responses|, id, boot);
    }
  }

  // ---- start and shutdown -------------------------------------------------------------------------------------------

  /** A coordinator started over an export has no sessions, and nothing in its registry has authority. */
  lemma StartHoldsNothing(run: Run, i: nat)
    requires Behaviour(run) && StartsAt(run, i)
    ensures WorldOk(World(run.states[i + 3], map[], false, []))
  {
    hide StepAt, CleanStart, Started, BareRecords, Authoritative, Inv, Bound;
    StartInRun(run, i);
    StartIsClean(run.states[i], run.ops[i].durable);
    RunKeeps(run, i + 3);
  }

  lemma {:induction false} RetireAllTakesAuthority(w: World, sessions: map<nat, Session>)
    requires WorldOk(w) && w.sessions == sessions
    ensures var t := RetireAll(w.registry, sessions);
      RegistryOk(t) && Grows(w.registry, t) && forall id: nat, boot: nat :: !Authoritative(t.publishers, id, boot)
    decreases |sessions|
  {
    hide RegistryOk, Grows, Authoritative, SessionsOk, Retired;
    WorldParts(w);
    GrowsFromOk(w.registry);
    if sessions != map[] {
      var h := MinOf(sessions.Keys);
      DropKeeps(w, h);
      RetireAllTakesAuthority(Drop(w, h), sessions - {h});
      GrowsTransitive(w.registry, Drop(w, h).registry, RetireAll(w.registry, sessions));
    } else {
      NobodyHolds(w);
    }
  }

  lemma NobodyHolds(w: World)
    requires AllHeld(w) && w.sessions == map[]
    ensures forall id: nat, boot: nat :: !Authoritative(w.registry.publishers, id, boot)
  {
    hide Authoritative;
    forall id: nat, boot: nat ensures !Authoritative(w.registry.publishers, id, boot) {
      assert !IsHeld(w.sessions, id, boot);
    }
  }

  /** Every round is orderly for the sessions there are when it comes. */
  ghost predicate OrderlyRounds(w: World, b: Bounds, rounds: seq<Round>)
    decreases |rounds|
  {
    rounds == [] || w.stopping || rounds[0].cancelled ||
    (OneArrivalEach(rounds[0].arrivals) && ReadyAreOld(w, rounds[0]) && OrderlyArrivals(w, rounds[0].arrivals)
     && OrderlyRounds(Iterate(w, b, rounds[0]), b, rounds[1..]))
  }

  lemma SameWorld(w: World, v: World)
    requires WorldOk(w) && v.registry == w.registry && v.sessions == w.sessions
    ensures WorldOk(v)
  {
    hide RegistryOk, Authoritative, IsHeld, Assigned;
  }

  lemma {:induction false} LoopKeeps(w: World, b: Bounds, rounds: seq<Round>)
    requires WorldOk(w) && OrderlyRounds(w, b, rounds)
    ensures WorldOk(Loop(w, b, rounds)) && Grows(w.registry, Loop(w, b, rounds).registry)
    decreases |rounds|
  {
    hide WorldOk, Grows, Iterate, RegistryOk, OrderlyArrivals;
    WorldParts(w);
    GrowsFromOk(w.registry);
    if !w.stopping && rounds != [] && rounds[0].cancelled { SameWorld(w, w.(stopping := true)); }
    if !w.stopping && rounds != [] && !rounds[0].cancelled {
      IterationKeepsAuthorityHeld(w, b, rounds[0]);
      var v := Iterate(w, b, rounds[0]);
      LoopKeeps(v, b, rounds[1..]);
      GrowsTransitive(w.registry, v.registry, Loop(v, b, rounds[1..]).registry);
    }
  }

  /** When the loop has been shut down, no boot of any publisher is authoritative. */
  lemma ShutdownLeavesNoAuthority(w: World, b: Bounds, rounds: seq<Round>)
    requires WorldOk(w) && OrderlyRounds(w, b, rounds)
    ensures var v := Finish(Loop(w, b, rounds));
      v.sessions == map[] && v.registry.shuttingDown && forall id: nat, boot: nat :: !Authoritative(v.registry.publishers, id, boot)
  {
    hide WorldOk, Grows, RegistryOk, Authoritative, Loop;
    LoopKeeps(w, b, rounds);
    RetireAllTakesAuthority(Loop(w, b, rounds), Loop(w, b, rounds).sessions);
  }

  // ---- why rounds must be orderly ---------------------------------------------------------------------------------------

  /** A registration that comes as a publication gives authority to a boot that no session holds. */
  lemma RegistrationByPublicationIsNotHeld(w: World, h: nat, pub: Publication)
    requires WorldOk(w) && h in w.sessions && pub.kind == RegisterPublisherKind && !IsHeld(w.sessions, pub.publisher.id, pub.publisher.boot)
    requires ApplyPublication(w.registry, pub).reply.code == Accepted
    ensures !AllHeld(Dispatch(w, h, PublicationFrame(pub)))
  {
    hide RegistryOk, SessionsOk, AllHeld, Validated, Unbound, Sequenced, SenderRejection;
    ValidatedBoot(w.registry.config, Attribute(w.registry.config, pub));
    NewlyRegistered(w.registry, pub.publisher, pub.adapter);
    var v := Dispatch(w, h, PublicationFrame(pub));
    NotAllHeld(v, pub.publisher.id, pub.publisher.boot);
  }

  lemma NewlyRegistered(s: State, identity: Identity, adapter: string)
    requires RegisterPublisher(s, identity, adapter).reply.code == Accepted && identity.boot != 0
    ensures Authoritative(RegisterPublisher(s, identity, adapter).state.publishers, identity.id, identity.boot)
  {}

  /** A session that registers a second publisher no longer holds its first, which keeps its authority. */
  lemma SecondRegistrationDropsFirst(w: World, h: nat, identity: Identity, adapter: string)
    requires h in w.sessions && w.sessions[h].handshake && w.sessions[h].registered && w.sessions[h].publisher != identity.id
    requires Authoritative(w.registry.publishers, w.sessions[h].publisher, w.sessions[h].boot)
    requires forall k :: k in w.sessions && k != h ==> !Holds(w.sessions[k], w.sessions[h].publisher, w.sessions[h].boot)
    requires IsAccepted(RegisterOpen(w.registry, identity, adapter).reply.code)
    ensures !AllHeld(Dispatch(w, h, RegisterFrame(identity, adapter)))
  {
    hide AllHeld, RegisterOpen, Authoritative;
    var s, v := w.sessions[h], Dispatch(w, h, RegisterFrame(identity, adapter));
    AcceptedIffRegistrable(w.registry, identity, adapter);
    RegistrationKeepsOthers(w.registry, identity, adapter, s.publisher, s.boot);
    RegistersUnder(w.registry, identity, adapter);
    NotAllHeld(v, s.publisher, s.boot);
  }
}
