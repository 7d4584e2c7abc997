// The registry object (src/registry.cpp): its operations change its fields one
// at a time, and each is proved to take the abstract state where the step
// functions say.
module Registry {
  import opened Basics
  import C = Conditions
  import Q = Quirks
  import opened Model
  import opened Steps
  import opened Eviction
  import opened Invariants
  import opened Admission
  import opened Restart
  import opened Recovery
  import opened History
  import opened Validation
  import opened Persistence

  // ---- loops over the records of one key ------------------------------------------------------

  method IsSuperseded(records: seq<Stored>, i: nat) returns (superseded: bool)
    requires i < |records|
    ensures superseded <==> Superseded(records, i)
  {
    for j := 0 to |records|
      invariant forall x :: 0 <= x < j && x != i && records[x].slot == records[i].slot ==> records[x].serial <= records[i].serial
    {
      if j != i && records[j].slot == records[i].slot && records[j].serial > records[i].serial { return true; }
    }
    return false;
  }

  /** The oldest superseded record, or the number of records when every one is the newest of its slot. */
  method FindVictim(records: seq<Stored>) returns (victim: nat)
    ensures victim == Victim(records, |records|)
  {
    hide Superseded;
    victim := |records|;
    for i := 0 to |records|
      invariant victim == Victim(records, i)
    {
      var superseded := IsSuperseded(records, i);
      if superseded && (victim == |records| || records[i].serial < records[victim].serial) { victim := i; }
    }
  }

  method FindSerial(records: seq<Stored>, serial: nat) returns (index: nat)
    ensures index == Find(records, serial, 0)
  {
    index := 0;
    while index < |records|
      invariant index <= |records| && Find(records, serial, index) == Find(records, serial, 0)
    {
      if records[index].serial == serial { return; }
      index := index + 1;
    }
  }

  method LatestInSlot(records: seq<Stored>, slot: Slot) returns (latest: Option<Stored>)
    ensures latest == Latest(records, slot)
  {
    latest := None;
    for i := 0 to |records|
      invariant latest == Latest(records[..i], slot)
    {
      assert records[..i + 1][..i] == records[..i];
      if records[i].slot == slot && (latest == None || records[i].serial > latest.value.serial) { latest := Some(records[i]); }
    }
    assert records[..|records|] == records;
  }

  method MarkSuperseded(records: seq<Stored>, slot: Slot) returns (marked: seq<Stored>)
    ensures marked == Supersede(records, slot)
  {
    marked := records;
    for i := 0 to |records|
      invariant |marked| == |records|
      invariant forall x :: 0 <= x < |records| ==>
        marked[x] == if x < i && records[x].slot == slot then records[x].(superseded := true) else records[x]
    {
      if marked[i].slot == slot { marked := marked[i := marked[i].(superseded := true)]; }
    }
  }

  lemma CurrentIsNotSuperseded(s: State, st: Stored, d: Device, target: nat)
    requires Current(s, st, d, target)
    ensures !st.superseded
  {
    assert !HasFlag(s, st, d, target, SupersededByNewerEvidence);
  }

  // ---- loops of a resolution -------------------------------------------------------------------

  method FindWinner(cs: seq<Stored>) returns (winner: nat)
    requires cs != []
    ensures winner == Winner(cs)
  {
    hide Precedes;
    winner := 0;
    for i := 1 to |cs|
      invariant winner == Winner(cs[..i])
    {
      assert cs[..i + 1][..i] == cs[..i];
      if Precedes(cs[i].record, cs[winner].record) { winner := i; }
    }
    assert cs[..|cs|] == cs;
  }

  method FindNewest(records: seq<Stored>) returns (newest: Option<Stored>)
    ensures newest == Newest(records)
  {
    newest := None;
    for i := 0 to |records|
      invariant newest == Newest(records[..i])
    {
      assert records[..i + 1][..i] == records[..i];
      var stored := records[i];
      if stored.record.withdrawn { continue; }
      if newest == None || stored.record.capabilityGeneration > newest.value.record.capabilityGeneration
         || (stored.record.capabilityGeneration == newest.value.record.capabilityGeneration && stored.serial > newest.value.serial) {
        newest := Some(stored);
      }
    }
    assert records[..|records|] == records;
  }

  method CheckAllAgree(cs: seq<Stored>) returns (agree: bool)
    requires cs != []
    ensures agree <==> AllAgree(cs)
  {
    hide AssertionOf;
    for i := 1 to |cs|
      invariant forall j :: 0 <= j < i ==> AssertionOf(cs[j].record) == AssertionOf(cs[0].record)
    {
      if AssertionOf(cs[i].record) != AssertionOf(cs[0].record) { return false; }
    }
    return true;
  }

  predicate AtTop(cs: seq<Stored>, winner: nat, i: nat)
    requires winner < |cs| && i < |cs|
  {
    Authority(cs[i].record.source.sourceClass) == Authority(cs[winner].record.source.sourceClass)
  }

  method CheckTopAgree(cs: seq<Stored>, winner: nat) returns (agree: bool)
    requires winner < |cs|
    ensures agree <==> TopAgree(cs, cs[winner])
  {
    hide AssertionOf, Authority;
    var top: seq<nat> := [];
    for i := 0 to |cs|
      invariant forall x :: 0 <= x < |top| ==> top[x] < i && AtTop(cs, winner, top[x])
      invariant forall j :: 0 <= j < i && AtTop(cs, winner, j) ==> j in top
    {
      if AtTop(cs, winner, i) { top := top + [i]; }
    }
    for x := 0 to |top|
      invariant forall y :: 0 <= y < x ==> AssertionOf(cs[top[y]].record) == AssertionOf(cs[top[0]].record)
    {
      if AssertionOf(cs[top[x]].record) != AssertionOf(cs[top[0]].record) { return false; }
    }
    forall i, j | 0 <= i < |cs| && 0 <= j < |cs| && AtTop(cs, winner, i) && AtTop(cs, winner, j)
      ensures AssertionOf(cs[i].record) == AssertionOf(cs[j].record)
    {
      assert i in top && j in top;
    }
    return true;
  }

  method CheckDissent(cs: seq<Stored>, winner: nat) returns (allNonLive: bool)
    requires winner < |cs|
    ensures allNonLive <==> !RealDissent(cs, cs[winner])
  {
    hide AssertionOf, IsReal;
    for i := 0 to |cs|
      invariant forall j :: 0 <= j < i ==>
        AssertionOf(cs[j].record) == AssertionOf(cs[winner].record) || !IsReal(cs[j].record.source.provenance)
    {
      if i == winner { continue; }
      if AssertionOf(cs[i].record) == AssertionOf(cs[winner].record) { continue; }
      if IsReal(cs[i].record.source.provenance) { return false; }
    }
    return true;
  }

  method ClassifyCandidates(cs: seq<Stored>, winner: nat) returns (contradiction: Contradiction)
    requires cs != [] && winner == Winner(cs)
    ensures contradiction == Classify(cs)
  {
    hide AllAgree, TopAgree, RealDissent, IsReal, Winner;
    var allEqual := CheckAllAgree(cs);
    if allEqual { return Consistent; }
    var topAgree := CheckTopAgree(cs, winner);
    if !topAgree { return Ambiguous; }
    var winnerLive := IsReal(cs[winner].record.source.provenance);
    var dissentNonLive := CheckDissent(cs, winner);
    return if winnerLive && dissentNonLive then PreferredLiveEvidence else PreferredHigherAuthoritySource;
  }

  /** Listed quirks: the more severe first, then by identity. */
  predicate ListedBefore(a: Application, b: Application) {
    if a.severity != b.severity then Q.SeverityRank(a.severity) > Q.SeverityRank(b.severity) else a.id <= b.id
  }

  predicate Listed(apps: seq<Application>) {
    forall i, j :: 0 <= i < j < |apps| ==> ListedBefore(apps[i], apps[j])
  }

  lemma ListedBeforeIsTotal(a: Application, b: Application, c: Application)
    ensures !ListedBefore(a, b) ==> ListedBefore(b, a)
    ensures ListedBefore(a, b) && ListedBefore(b, c) ==> ListedBefore(a, c)
  {}

  lemma InsertedIsListed(apps: seq<Application>, i: nat, a: Application)
    requires Listed(apps) && i <= |apps|
    requires forall j :: 0 <= j < i ==> ListedBefore(apps[j], a)
    requires forall j :: i <= j < |apps| ==> ListedBefore(a, apps[j])
    ensures Listed(apps[..i] + [a] + apps[i..])
  {
    hide ListedBefore;
    var more := apps[..i] + [a] + apps[i..];
    forall x, y | 0 <= x < y < |more| ensures ListedBefore(more[x], more[y]) {
      if x < i {
        if y > i { assert more[y] == apps[y - 1]; }
      } else if x == i {
        assert more[y] == apps[y - 1];
      } else {
        assert more[x] == apps[x - 1] && more[y] == apps[y - 1];
      }
    }
  }

  method InsertListed(apps: seq<Application>, a: Application) returns (more: seq<Application>)
    requires Listed(apps)
    ensures Listed(more) && multiset(more) == multiset(apps) + multiset{a}
  {
    hide ListedBefore;
    var i := |apps|;
    while i > 0 && !ListedBefore(apps[i - 1], a)
      invariant 0 <= i <= |apps|
      invariant forall j :: i <= j < |apps| ==> ListedBefore(a, apps[j])
    {
      ListedBeforeIsTotal(apps[i - 1], a, a);
      i := i - 1;
    }
    more := apps[..i] + [a] + apps[i..];
    assert apps == apps[..i] + apps[i..];
    forall j | 0 <= j < i ensures ListedBefore(apps[j], a) {
      if j < i - 1 { ListedBeforeIsTotal(apps[j], apps[i - 1], a); }
    }
    InsertedIsListed(apps, i, a);
  }

  method SortListed(apps: seq<Application>) returns (sorted: seq<Application>)
    ensures Listed(sorted) && multiset(sorted) == multiset(apps) && |sorted| == |apps|
  {
    sorted := [];
    for i := 0 to |apps|
      invariant Listed(sorted) && multiset(sorted) == multiset(apps[..i])
    {
      assert apps[..i + 1] == apps[..i] + [apps[i]];
      sorted := InsertListed(sorted, apps[i]);
    }
    assert apps[..|apps|] == apps;
    assert |multiset(sorted)| == |sorted| && |multiset(apps)| == |apps|;
  }

  /** Two listed parts, the first of `n`. */
  predicate ListedApart(apps: seq<Application>, n: nat) {
    n <= |apps| && Listed(apps[..n]) && Listed(apps[n..])
  }

  function OfVerdict(apps: seq<Application>, verdict: Q.Verdict): seq<Application> {
    if apps == [] then []
    else
      var front, last := OfVerdict(apps[..|apps| - 1], verdict), apps[|apps| - 1];
      if last.verdict == verdict then front + [last] else front
  }

  lemma OfVerdictAdd(apps: seq<Application>, a: Application)
    ensures forall v :: OfVerdict(apps + [a], v) == if a.verdict == v then OfVerdict(apps, v) + [a] else OfVerdict(apps, v)
  {
    assert (apps + [a])[..|apps|] == apps;
  }

  /** Applications that apply or may apply, taken apart. */
  lemma {:induction false} VerdictsSplit(apps: seq<Application>)
    requires forall a :: a in apps ==> a.verdict != Q.DoesNotApply
    ensures multiset(OfVerdict(apps, Q.Applies)) + multiset(OfVerdict(apps, Q.Undetermined)) == multiset(apps)
    ensures |OfVerdict(apps, Q.Applies)| + |OfVerdict(apps, Q.Undetermined)| == |apps|
  {
    if apps != [] {
      var front, last := apps[..|apps| - 1], apps[|apps| - 1];
      assert apps == front + [last];
      VerdictsSplit(front);
    }
  }

  lemma NoVerdicts()
    ensures forall v :: OfVerdict([], v) == []
  {}

  method ComputeEffectiveSupport(declared: Support, outcome: C.Outcome, quirks: seq<Application>) returns (effective: EffectiveSupport)
    ensures effective == Effective(declared, outcome, quirks)
  {
    if declared == Support.Unknown { return EffectivelyUnknown; }
    if declared == RevalidationRequired { return NotCurrent; }
    if declared == Unsupported { return EffectivelyUnsupported; }
    if declared == Disabled { return EffectivelyDisabled; }
    if outcome == C.Unsatisfied { return SupportedConditionalUnmet; }
    if outcome == C.Unknown { return SupportedConditionalUnknown; }
    for i := 0 to |quirks|
      invariant forall j :: 0 <= j < i ==> !Blocks(quirks[j])
    {
      if Blocks(quirks[i]) { return BlockedByQuirk; }
    }
    for i := 0 to |quirks|
      invariant forall j :: 0 <= j < i ==> !Caveats(quirks[j])
    {
      if Caveats(quirks[i]) { return SupportedWithCaveat; }
    }
    return Supported;
  }

  /** The order of the list does not matter to the answer. */
  lemma EffectivePermuted(declared: Support, outcome: C.Outcome, a: seq<Application>, b: seq<Application>)
    requires multiset(a) == multiset(b)
    ensures Effective(declared, outcome, a) == Effective(declared, outcome, b)
  {
    forall x ensures x in a <==> x in b {
      assert x in a <==> x in multiset(a);
      assert x in b <==> x in multiset(b);
    }
    forall i | 0 <= i < |a| ensures a[i] in b { assert a[i] in a; }
    forall i | 0 <= i < |b| ensures b[i] in a { assert b[i] in b; }
  }

  lemma AllFlagsGrow(s: State, records: seq<Stored>, st: Stored, d: Device, target: nat)
    ensures AllFlags(s, records + [st], d, target) == AllFlags(s, records, d, target) + Staleness(s, st, d, target)
  {
    hide HasFlag;
    var all := records + [st];
    forall f ensures f in AllFlags(s, all, d, target) <==> f in AllFlags(s, records, d, target) + Staleness(s, st, d, target) {
      if SomeFlagged(s, all, d, target, f) {
        var i :| 0 <= i < |all| && HasFlag(s, all[i], d, target, f);
        if i < |records| { assert HasFlag(s, records[i], d, target, f); }
      }
      if SomeFlagged(s, records, d, target, f) {
        var i :| 0 <= i < |records| && HasFlag(s, records[i], d, target, f);
        assert HasFlag(s, all[i], d, target, f);
      }
      if HasFlag(s, st, d, target, f) { assert HasFlag(s, all[|records|], d, target, f); }
    }
  }

  class CapabilityRegistry {
    const config: Config
    var devices: map<nat, Device>
    var platforms: set<nat>
    var families: set<nat>
    var models: set<nat>
    var architectures: set<nat>
    var keys: map<KeyId, Key>
    var deviceKeys: map<nat, set<nat>>
    var queue: seq<Entry>
    var evidenceCount: int
    var nextSerial: nat
    var quirks: map<nat, Quirk>
    var compatibility: map<nat, Fact>
    var publishers: map<nat, Publisher>
    var epoch: nat
    var shuttingDown: bool

    ghost function View(): State
      reads this
    {
      State(config, devices, platforms, families, models, architectures, keys, deviceKeys, queue, evidenceCount, nextSerial, quirks,
            compatibility, publishers, epoch, shuttingDown)
    }

    ghost predicate Valid()
      reads this
    {
      Inv(View()) && Bound(config)
    }

    constructor (config: Config)
      requires Bound(config)
      ensures View() == Fresh(config) && Valid()
    {
      this.config := config;
      devices, platforms, families, models, architectures := map[], {}, {}, {}, {};
      keys, deviceKeys := map[], map[];
      queue, evidenceCount, nextSerial := [], 0, 1;
      quirks, compatibility, publishers, epoch, shuttingDown := map[], map[], map[], 1, false;
      new;
      FreshIsInv(config);
    }

    // ---- publishers ------------------------------------------------------------------------------

    method RegisterPublisherLocked(identity: Identity, adapter: string) returns (reply: Reply)
      modifies `publishers
      ensures Outcome(View(), reply) == Steps.RegisterPublisher(old(View()), identity, adapter)
    {
      if identity.id == 0 { return Plain(RejectedValidation); }
      if adapter == "" || |adapter| > config.limits.maxMetadataBytes { return Plain(RejectedValidation); }
      if identity.id !in publishers {
        if |publishers| >= config.limits.maxPublishers { return Plain(RejectedLimit); }
        if identity.boot != 0 && identity.boot > 1 { return Plain(RejectedStaleBoot); }
        publishers := publishers[identity.id := Publisher(1, epoch, Registered, 0, 0, {}, map[], map[], false)];
        return Reply(Accepted, Identity(identity.id, 1, epoch), 0, 0);
      }
      var state := publishers[identity.id];
      if state.fenced { return Plain(RejectedFencedPublisher); }
      if identity.boot == 0 {
        if state.boot != 0 { state := state.(fencedBoots := state.fencedBoots + {state.boot}); }
        state := state.(boot := if state.boot != 0 then state.boot + 1 else 1, epoch := epoch, state := Registered);
        publishers := publishers[identity.id := state];
        return Reply(Accepted, Identity(identity.id, state.boot, epoch), 0, 0);
      }
      if identity.boot in state.fencedBoots { return Plain(RejectedFencedPublisher); }
      if state.boot != identity.boot { return Plain(RejectedStaleBoot); }
      publishers := publishers[identity.id := state.(epoch := epoch, state := Registered)];
      return Reply(AcceptedIdempotent, Identity(identity.id, state.boot, epoch), 0, 0);
    }

    method RegisterPublisher(identity: Identity, adapter: string) returns (reply: Reply)
      modifies `publishers
      ensures Outcome(View(), reply) == RegisterOpen(old(View()), identity, adapter)
      ensures old(Valid()) ==> Valid()
    {
      hide Inv, Grows, Steps.RegisterPublisher;
      ghost var s := View();
      if Inv(s) { RegisterKeeps(s, identity, adapter); }
      if shuttingDown { return Plain(RejectedShuttingDown); }
      reply := RegisterPublisherLocked(identity, adapter);
    }

    method FencePublisher(id: nat) returns (reply: Reply)
      modifies `publishers
      ensures Outcome(View(), reply) == Steps.FencePublisher(old(View()), id)
      ensures old(Valid()) ==> Valid()
    {
      hide Inv, Grows;
      ghost var s := View();
      if Inv(s) { FenceKeeps(s, id); }
      if id !in publishers { return Plain(RejectedUnknownPublisher); }
      var state := publishers[id];
      if state.fenced { return Plain(AcceptedIdempotent); }
      state := state.(fenced := true, state := Fenced);
      if state.boot != 0 { state := state.(fencedBoots := state.fencedBoots + {state.boot}); }
      publishers := publishers[id := state];
      return Plain(Accepted);
    }

    /** Keeps the invariant when the boot has been assigned. */
    method RetirePublisherBoot(id: nat, boot: nat) returns (reply: Reply)
      modifies `publishers
      ensures Outcome(View(), reply) == RetireBoot(old(View()), id, boot)
      ensures old(Valid()) && (id in old(publishers) ==> boot <= old(publishers)[id].boot) ==> Valid()
    {
      hide Inv, Grows;
      ghost var s := View();
      if Inv(s) && (id in s.publishers ==> boot <= s.publishers[id].boot) { RetireKeeps(s, id, boot); }
      if id !in publishers { return Plain(RejectedUnknownPublisher); }
      if boot == 0 { return Plain(RejectedValidation); }
      var state := publishers[id];
      if boot in state.fencedBoots { return Plain(AcceptedIdempotent); }
      state := state.(fencedBoots := state.fencedBoots + {boot});
      if state.boot == boot { state := state.(state := Dead); }
      publishers := publishers[id := state];
      return Plain(Accepted);
    }

    method LoseLiveness(id: nat)
      requires id in publishers
      modifies `publishers
      ensures publishers == old(publishers)[id := Deaden(old(publishers)[id])]
    {
      var state := publishers[id];
      if state.state == Registered {
        state := state.(state := Dead);
        if state.boot != 0 { state := state.(fencedBoots := state.fencedBoots + {state.boot}); }
        publishers := publishers[id := state];
      }
    }

    method LoseAllLiveness()
      modifies `publishers
      ensures publishers == map id | id in old(publishers) :: Deaden(old(publishers)[id])
    {
      hide Deaden;
      ghost var before := publishers;
      var todo := publishers.Keys;
      while todo != {}
        invariant todo <= publishers.Keys && publishers.Keys == before.Keys
        invariant forall id :: id in publishers ==> publishers[id] == if id in todo then before[id] else Deaden(before[id])
        decreases |todo|
      {
        var id :| id in todo;
        LoseLiveness(id);
        todo := todo - {id};
      }
      assert publishers == map id | id in before :: Deaden(before[id]);
    }

    method ResetPublisherLiveness()
      modifies `publishers
      ensures View() == ResetLiveness(old(View()))
      ensures old(Valid()) ==> Valid()
    {
      hide Inv, Grows, Deaden;
      ghost var s := View();
      if Inv(s) { ResetKeeps(s); }
      LoseAllLiveness();
    }

    method AdvanceCoordinatorEpoch() returns (advanced: nat)
      modifies `epoch
      ensures View() == AdvanceEpoch(old(View())) && advanced == epoch
      ensures old(Valid()) ==> Valid()
    {
      hide Inv, Grows;
      ghost var s := View();
      if Inv(s) { AdvanceKeeps(s); }
      epoch := if epoch != 0 then epoch + 1 else 1;
      advanced := epoch;
    }

    method BeginShutdown()
      modifies `shuttingDown
      ensures View() == old(View()).(shuttingDown := true)
      ensures old(Valid()) ==> Valid()
    {
      hide Inv, Grows;
      ghost var s := View();
      if Inv(s) { ShutdownKeeps(s, true); }
      shuttingDown := true;
    }

    // ---- devices ---------------------------------------------------------------------------------

    method RegisterPlatform(platform: nat)
      modifies `platforms
      ensures platforms == NotedPlatform(old(platforms), platform, config.limits.maxDevices)
    {
      if platform == 0 { return; }
      if platform !in platforms {
        if |platforms| >= config.limits.maxDevices { return; }
        platforms := platforms + {platform};
      } else {
        assert platforms == platforms + {platform};
      }
    }

    method NoteHardware(h: Q.Hardware)
      modifies `families, `models, `architectures
      ensures families == Noted(old(families), h.family) && models == Noted(old(models), h.model)
      ensures architectures == Noted(old(architectures), h.architecture)
    {
      if h.family != 0 { families := families + {h.family}; }
      if h.model != 0 { models := models + {h.model}; }
      if h.architecture != 0 { architectures := architectures + {h.architecture}; }
    }

    method ApplyDevice(r: Registration, explicit: bool) returns (reply: Reply)
      modifies `devices, `platforms, `families, `models, `architectures
      ensures Outcome(View(), reply) == Steps.ApplyDevice(old(View()), r, explicit)
    {
      hide Noted, NotedPlatform, RefreshDevice;
      if r.device !in devices {
        if |devices| >= config.limits.maxDevices { return Plain(RejectedLimit); }
        if r.hardware.family != 0 && |families| >= config.limits.maxFamilies && r.hardware.family !in families {
          return Plain(RejectedLimit);
        }
        var software := Q.Software(
          r.driver, if r.driver.id != 0 then 1 else 0, r.firmware, if r.firmware.id != 0 then 1 else 0,
          r.runtime, if r.runtime.id != 0 then 1 else 0);
        devices := devices[r.device := Device(r.incarnation, r.platform, r.hardware, software, 1, 1, 1)];
        NoteHardware(r.hardware);
        RegisterPlatform(r.announced);
        return Reply(Accepted, NoIdentity, 1, 1);
      }
      RegisterPlatform(r.announced);
      var device := Refreshed(devices[r.device], r, explicit);
      devices := devices[r.device := device];
      return Reply(Accepted, NoIdentity, device.generation, device.boot);
    }

    /** Nothing is known, the component changed, or it is the one that was known. */
    static method AdvanceAxis(generation: nat, known: bool, changed: bool) returns (next: nat)
      ensures next == NextGeneration(generation, known, changed)
    {
      if !known { return generation; }
      if changed { return if generation != 0 then generation + 1 else 1; }
      return if generation != 0 then generation else 1;
    }

    static method Refreshed(existing: Device, r: Registration, explicit: bool) returns (device: Device)
      ensures device == RefreshDevice(existing, r, explicit)
    {
      hide NextGeneration;
      var boundary := false;
      if existing.incarnation != r.incarnation {
        boundary := true;
      } else if r.bootObserved || explicit {
        boundary := true;
      }
      device := existing.(hardware := r.hardware);
      if device.platform != r.platform {
        device := device.(platformGeneration := device.platformGeneration + 1, platform := r.platform);
      }
      var previous := existing.software;
      var merged := Q.Software(r.driver, 0, r.firmware, 0, r.runtime, 0);
      if merged.firmware.id == 0 { merged := merged.(firmware := previous.firmware); }
      if merged.driver.id == 0 { merged := merged.(driver := previous.driver); }
      if merged.runtime.id == 0 { merged := merged.(runtime := previous.runtime); }
      var firmware := AdvanceAxis(previous.firmwareGeneration, merged.firmware.id != 0,
                                  previous.firmware.id == 0 || previous.firmware != merged.firmware);
      var driver := AdvanceAxis(previous.driverGeneration, merged.driver.id != 0,
                                previous.driver.id == 0 || previous.driver != merged.driver);
      var runtime := AdvanceAxis(previous.runtimeGeneration, merged.runtime.id != 0,
                                 previous.runtime.id == 0 || previous.runtime != merged.runtime);
      merged := merged.(firmwareGeneration := firmware, driverGeneration := driver, runtimeGeneration := runtime);
      device := device.(software := merged);
      if boundary { device := device.(generation := device.generation + 1, boot := device.boot + 1); }
    }

    // ---- bounded retention ---------------------------------------------------------------------------

    /** Erases superseded records of one key, oldest first, while it is over its cap. */
    method TrimOne(k: KeyId, cap: nat)
      requires k in keys
      modifies `keys, `evidenceCount
      ensures keys == old(keys)[k := old(keys)[k].(records := TrimKey(old(keys)[k].records, cap))]
      ensures evidenceCount == old(evidenceCount) - (|old(keys)[k].records| - |keys[k].records|)
    {
      hide Victim, Superseded, Erase;
      ghost var key := keys[k];
      while |keys[k].records| > cap
        invariant k in keys && keys == old(keys)[k := key.(records := keys[k].records)]
        invariant TrimKey(keys[k].records, cap) == TrimKey(key.records, cap)
        invariant evidenceCount == old(evidenceCount) - (|key.records| - |keys[k].records|)
        decreases |keys[k].records|
      {
        var records := keys[k].records;
        var victim := FindVictim(records);
        if victim == |records| { break; }
        records := Erase(records, victim);
        keys := keys[k := keys[k].(records := records)];
        evidenceCount := evidenceCount - 1;
      }
      assert TrimKey(keys[k].records, cap) == keys[k].records;
    }

    method TrimAll(cap: nat)
      modifies `keys, `evidenceCount
      ensures keys == TrimKeys(old(keys), cap)
      ensures evidenceCount == old(evidenceCount) - (Total(old(keys)) - Total(keys))
    {
      hide TrimKey, Total;
      ghost var before := keys;
      var todo := keys.Keys;
      while todo != {}
        invariant todo <= keys.Keys && keys.Keys == before.Keys
        invariant forall k :: k in keys ==>
          keys[k] == if k in todo then before[k] else before[k].(records := TrimKey(before[k].records, cap))
        invariant evidenceCount == old(evidenceCount) - (Total(before) - Total(keys))
        decreases |todo|
      {
        var k :| k in todo;
        TotalSet(keys, k, keys[k].(records := TrimKey(keys[k].records, cap)));
        TrimOne(k, cap);
        todo := todo - {k};
      }
      assert keys == TrimKeys(before, cap);
    }

    /** One turn of the global queue. */
    method PopFront()
      requires queue != []
      modifies `keys, `queue, `evidenceCount
      ensures queue == old(queue)[1..]
      ensures if Evictable(old(keys), old(queue)[0])
              then keys == Evict(old(keys), old(queue)[0]) && evidenceCount == old(evidenceCount) - 1
              else keys == old(keys) && evidenceCount == old(evidenceCount)
    {
      hide Superseded, Find, Erase;
      var front := queue[0];
      queue := queue[1..];
      if front.key !in keys { return; }
      var key := keys[front.key];
      var index := FindSerial(key.records, front.serial);
      if index == |key.records| { return; }
      var superseded := IsSuperseded(key.records, index);
      if !superseded { return; }
      keys := keys[front.key := key.(records := Erase(key.records, index))];
      evidenceCount := evidenceCount - 1;
    }

    /** The guard bounds the turns, and never ends the loop before the queue does. */
    method DrainQueue(max: nat)
      modifies `keys, `queue, `evidenceCount
      ensures Retention(keys, queue, evidenceCount) == Drain(old(Retention(keys, queue, evidenceCount)), max)
    {
      hide Evictable, Evict;
      ghost var start := Retention(keys, queue, evidenceCount);
      var guard := |queue| + 1;
      while evidenceCount >= max && guard > 0
        invariant guard == |queue| + 1
        invariant Drain(Retention(keys, queue, evidenceCount), max) == Drain(start, max)
        decreases guard
      {
        guard := guard - 1;
        if queue == [] { break; }
        PopFront();
      }
    }

    method TrimFront(bound: nat)
      modifies `queue
      ensures queue == TrimQueue(old(queue), bound)
    {
      ghost var before := queue;
      while queue != [] && |queue| > bound
        invariant TrimQueue(queue, bound) == TrimQueue(before, bound)
        decreases |queue|
      {
        queue := queue[1..];
      }
    }

    method EvictIfNeeded()
      modifies `keys, `queue, `evidenceCount
      ensures View() == Steps.EvictIfNeeded(old(View()))
    {
      hide Drain, TrimKeys, Total, TrimQueue;
      TrimAll(config.limits.maxEvidencePerCapability * 8);
      DrainQueue(config.limits.maxEvidenceHistory);
      TrimFront(config.limits.maxEvidenceHistory * 4);
    }

    // ---- staleness ---------------------------------------------------------------------------------------

    method PublisherIsAuthoritative(r: Record) returns (authoritative: bool)
      ensures authoritative <==> Authoritative(publishers, r.source.publisher.id, r.source.publisher.boot)
    {
      if r.source.publisher.id !in publishers { return false; }
      var state := publishers[r.source.publisher.id];
      if state.fenced { return false; }
      if state.state != Registered { return false; }
      if state.boot != r.source.publisher.boot { return false; }
      if r.source.publisher.boot in state.fencedBoots { return false; }
      return true;
    }

    static method Depends(r: Record, axis: C.Kind) returns (depends: bool)
      ensures depends <==> DependsOn(r, axis)
    {
      depends := !IsDurable(r.source.provenance);
      if !depends { depends := C.TreeContains(r.conditions, axis); }
    }

    /** Driver, firmware and runtime: an axis counts only when the evidence was bound to an identified generation of it. */
    static method ComputeSoftwareFlags(r: Record, software: Q.Software) returns (flags: set<Flag>)
      ensures flags <= {DriverGenerationChanged, FirmwareGenerationChanged, RuntimeGenerationChanged}
      ensures DriverGenerationChanged in flags <==>
        DependsOn(r, C.MinDriverVersion) && r.driverGeneration != 0 && r.driverGeneration != software.driverGeneration
      ensures FirmwareGenerationChanged in flags <==>
        DependsOn(r, C.MinFirmwareVersion) && r.firmwareGeneration != 0 && r.firmwareGeneration != software.firmwareGeneration
      ensures RuntimeGenerationChanged in flags <==>
        DependsOn(r, C.MinRuntimeVersion) && r.runtimeId != 0 && r.runtimeId == software.runtime.id
        && r.runtimeGeneration != 0 && r.runtimeGeneration != software.runtimeGeneration
    {
      hide DependsOn;
      flags := {};
      var driver := Depends(r, C.MinDriverVersion);
      if driver && r.driverGeneration != 0 && r.driverGeneration != software.driverGeneration {
        flags := flags + {DriverGenerationChanged};
      }
      var firmware := Depends(r, C.MinFirmwareVersion);
      if firmware && r.firmwareGeneration != 0 && r.firmwareGeneration != software.firmwareGeneration {
        flags := flags + {FirmwareGenerationChanged};
      }
      var runtime := Depends(r, C.MinRuntimeVersion);
      if runtime {
        var sameRuntime := r.runtimeId != 0 && r.runtimeId == software.runtime.id;
        if sameRuntime && r.runtimeGeneration != 0 && r.runtimeGeneration != software.runtimeGeneration {
          flags := flags + {RuntimeGenerationChanged};
        }
      }
    }

    /** Platform, publisher and epoch bind only evidence from a live process. */
    method ComputeLiveFlags(r: Record, device: Device) returns (flags: set<Flag>)
      ensures flags <= {PlatformGenerationChanged, PublisherFenced, EpochSuperseded}
      ensures PlatformGenerationChanged in flags <==>
        LiveBound(r) && r.platformGeneration != 0 && r.platformGeneration != device.platformGeneration
      ensures PublisherFenced in flags <==>
        LiveBound(r) && !Authoritative(publishers, r.source.publisher.id, r.source.publisher.boot)
      ensures EpochSuperseded in flags <==> LiveBound(r) && r.source.publisher.epoch != epoch
    {
      hide Authoritative;
      flags := {};
      var liveBound := LiveBound(r);
      if liveBound && r.platformGeneration != 0 && r.platformGeneration != device.platformGeneration {
        flags := flags + {PlatformGenerationChanged};
      }
      if liveBound {
        var authoritative := PublisherIsAuthoritative(r);
        if !authoritative { flags := flags + {PublisherFenced}; }
        if r.source.publisher.epoch != epoch { flags := flags + {EpochSuperseded}; }
      }
    }

    method ComputeStaleness(stored: Stored, device: Device, target: nat) returns (flags: set<Flag>)
      ensures flags == Staleness(View(), stored, device, target)
      ensures flags == {} <==> Current(View(), stored, device, target)
    {
      hide DependsOn, LiveBound, Authoritative, HasFlag, Staleness, Current;
      flags := if stored.superseded then {SupersededByNewerEvidence} else {};
      var targetIsCurrent := target == device.generation;
      if stored.record.withdrawn { flags := flags + {Withdrawn}; }
      if stored.record.deviceGeneration != target { flags := flags + {DeviceGenerationSuperseded}; }
      if !targetIsCurrent { flags := flags + {DeviceGenerationSuperseded}; }
      ghost var own := flags;
      var software, live := {}, {};
      if targetIsCurrent {
        if stored.record.deviceBoot != device.boot { flags := flags + {DeviceBootChanged}; }
        software := ComputeSoftwareFlags(stored.record, device.software);
        live := ComputeLiveFlags(stored.record, device);
        flags := flags + software + live;
      }
      forall f ensures f in flags <==> HasFlag(View(), stored, device, target, f) {
        if target == device.generation { FlagByAxis(View(), stored, device, target); }
        FlagsAssembled(View(), stored, device, target, software, live, flags, f);
      }
      FlagsAreStaleness(View(), stored, device, target, flags);
    }

    static lemma FlagsAreStaleness(s: State, st: Stored, d: Device, target: nat, flags: set<Flag>)
      requires forall f :: f in flags <==> HasFlag(s, st, d, target, f)
      ensures flags == Staleness(s, st, d, target) && (flags == {} <==> Current(s, st, d, target))
    {
      hide HasFlag;
    }

    static lemma FlagByAxis(s: State, st: Stored, d: Device, target: nat)
      requires target == d.generation
      ensures HasFlag(s, st, d, target, DriverGenerationChanged) <==>
        DependsOn(st.record, C.MinDriverVersion)
        && st.record.driverGeneration != 0 && st.record.driverGeneration != d.software.driverGeneration
      ensures HasFlag(s, st, d, target, FirmwareGenerationChanged) <==>
        DependsOn(st.record, C.MinFirmwareVersion)
        && st.record.firmwareGeneration != 0 && st.record.firmwareGeneration != d.software.firmwareGeneration
      ensures HasFlag(s, st, d, target, RuntimeGenerationChanged) <==>
        DependsOn(st.record, C.MinRuntimeVersion)
        && st.record.runtimeId != 0 && st.record.runtimeId == d.software.runtime.id
        && st.record.runtimeGeneration != 0 && st.record.runtimeGeneration != d.software.runtimeGeneration
      ensures HasFlag(s, st, d, target, PlatformGenerationChanged) <==>
        LiveBound(st.record)
        && st.record.platformGeneration != 0 && st.record.platformGeneration != d.platformGeneration
      ensures HasFlag(s, st, d, target, PublisherFenced) <==>
        LiveBound(st.record)
        && !Authoritative(s.publishers, st.record.source.publisher.id, st.record.source.publisher.boot)
      ensures HasFlag(s, st, d, target, EpochSuperseded) <==> LiveBound(st.record) && st.record.source.publisher.epoch != s.epoch
    {
      hide DependsOn, LiveBound, Authoritative;
    }

    static lemma FlagsAssembled(
      s: State, st: Stored, d: Device, target: nat, software: set<Flag>, live: set<Flag>, flags: set<Flag>, f: Flag)
      requires software <= {DriverGenerationChanged, FirmwareGenerationChanged, RuntimeGenerationChanged}
      requires live <= {PlatformGenerationChanged, PublisherFenced, EpochSuperseded}
      requires f in flags <==>
        f in software || f in live || (f == SupersededByNewerEvidence && st.superseded) || (f == Withdrawn && st.record.withdrawn)
        || (f == DeviceGenerationSuperseded && (st.record.deviceGeneration != target || target != d.generation))
        || (f == DeviceBootChanged && target == d.generation && st.record.deviceBoot != d.boot)
      requires target != d.generation ==> software == {} && live == {}
      requires target == d.generation && f in {DriverGenerationChanged, FirmwareGenerationChanged, RuntimeGenerationChanged} ==>
        (f in software <==> HasFlag(s, st, d, target, f))
      requires target == d.generation && f in {PlatformGenerationChanged, PublisherFenced, EpochSuperseded} ==>
        (f in live <==> HasFlag(s, st, d, target, f))
      ensures f in flags <==> HasFlag(s, st, d, target, f)
    {
      hide DependsOn, LiveBound, Authoritative;
    }

    method CurrentWinnerRecord(records: seq<Stored>, device: Device) returns (winner: Option<Stored>)
      ensures winner == CurrentWinner(View(), records, device)
    {
      hide Current, Staleness, Authority;
      winner := None;
      for i := 0 to |records|
        invariant winner == CurrentWinner(View(), records[..i], device)
      {
        assert records[..i + 1][..i] == records[..i];
        var stored := records[i];
        var flags := ComputeStaleness(stored, device, device.generation);
        if !stored.superseded && flags == {} {
          if winner == None {
            winner := Some(stored);
          } else {
            var left, right := Authority(stored.record.source.sourceClass), Authority(winner.value.record.source.sourceClass);
            if left > right {
              winner := Some(stored);
            } else if left == right {
              if stored.record.source.publisher.id < winner.value.record.source.publisher.id
                 || (stored.record.source.publisher.id == winner.value.record.source.publisher.id
                     && stored.record.source.observationSequence > winner.value.record.source.observationSequence) {
                winner := Some(stored);
              }
            }
          }
        }
        assert flags == {} ==> !stored.superseded by { if flags == {} { CurrentIsNotSuperseded(View(), stored, device, device.generation); } }
      }
      assert records[..|records|] == records;
    }

    // ---- capabilities ------------------------------------------------------------------------------------

    /** The checks against schema and device, in the order of the source. */
    method CheckRecord(r: Record) returns (rejected: Option<Code>)
      ensures rejected == if SchemaRejection(config, r) != None then SchemaRejection(config, r) else DeviceRejection(View(), r)
    {
      if r.schema !in config.schemas { return Some(RejectedUnknownSchema); }
      if config.schemas[r.schema].capability != r.capability { return Some(RejectedUnknownSchema); }
      if r.value.Value? && r.value.kind != config.schemas[r.schema].valueKind { return Some(RejectedValidation); }
      if r.value.NoValue? && r.support != Unsupported && r.support != Support.Unknown && r.support != RevalidationRequired {
        return Some(RejectedValidation);
      }
      if r.device !in devices { return Some(RejectedUnknownDevice); }
      if r.deviceGeneration != devices[r.device].generation { return Some(RejectedStaleDeviceGeneration); }
      if r.deviceBoot != devices[r.device].boot { return Some(RejectedStaleDeviceGeneration); }
      return None;
    }

    method CreateKey(r: Record) returns (rejected: Option<Code>)
      modifies `keys, `deviceKeys
      ensures (View(), rejected) == EnsureKey(old(View()), r)
    {
      if IdOf(r) in keys { return None; }
      ghost var owned := OwnedBy(View(), r.device);
      if r.device !in deviceKeys { deviceKeys := deviceKeys[r.device := {}]; }
      assert deviceKeys == old(deviceKeys)[r.device := owned];
      if |deviceKeys[r.device]| >= config.limits.maxCapabilitiesPerDevice { return Some(RejectedLimit); }
      if |keys| >= config.limits.maxEvidenceHistory { return Some(RejectedLimit); }
      keys := keys[IdOf(r) := Key(r.schema, 0, false, [])];
      deviceKeys := deviceKeys[r.device := deviceKeys[r.device] + {r.capability}];
      assert deviceKeys == old(deviceKeys)[r.device := owned + {r.capability}];
      return None;
    }

    method StoreRecord(r: Record)
      requires IdOf(r) in keys
      modifies `keys, `queue, `evidenceCount, `nextSerial
      ensures View() == Store(old(View()), r)
    {
      hide Supersede;
      var key := keys[IdOf(r)];
      var marked := MarkSuperseded(key.records, SlotOf(r));
      var stored := Stored(r, false, SlotOf(r), nextSerial);
      nextSerial := nextSerial + 1;
      keys := keys[IdOf(r) := key.(records := marked + [stored])];
      queue := queue + [Entry(IdOf(r), stored.serial)];
      evidenceCount := evidenceCount + 1;
    }

    static method IsRepeat(latest: Option<Stored>, record: Record) returns (repeat: bool)
      ensures repeat <==> Repeats(latest, record)
    {
      hide SameContent;
      if latest == None || record.withdrawn || latest.value.record.withdrawn { return false; }
      var previous := latest.value.record;
      return SameContent(previous, record)
        && previous.deviceGeneration == record.deviceGeneration && previous.driverGeneration == record.driverGeneration
        && previous.firmwareGeneration == record.firmwareGeneration && previous.runtimeGeneration == record.runtimeGeneration;
    }

    static method ChooseGeneration(key: Key, winner: Option<Stored>, record: Record) returns (generation: nat)
      ensures generation == AssignGeneration(key, winner, record)
    {
      hide SameContent;
      if winner.Some? && SameContent(winner.value.record, record) && winner.value.record.deviceGeneration == record.deviceGeneration {
        generation := if winner.value.record.capabilityGeneration != 0 then winner.value.record.capabilityGeneration else 1;
      } else {
        generation := if key.generation != 0 then key.generation + 1 else 1;
      }
    }

    method AdmitRecord(r: Record) returns (reply: Reply)
      requires r.device in devices && IdOf(r) in keys
      modifies `keys, `queue, `evidenceCount, `nextSerial
      ensures Outcome(View(), reply) == Admit(old(View()), r)
    {
      hide CurrentWinner, Latest, Repeats, AssignGeneration, MakeRoom;
      var device := devices[r.device];
      var record := r.(
        firmwareGeneration := device.software.firmwareGeneration, driverGeneration := device.software.driverGeneration,
        runtimeGeneration := device.software.runtimeGeneration, platformGeneration := device.platformGeneration,
        runtimeId := device.software.runtime.id);
      var key := keys[IdOf(r)];
      var latest := LatestInSlot(key.records, SlotOf(record));
      var repeat := IsRepeat(latest, record);
      if repeat { return Plain(AcceptedIdempotent); }
      var winner := CurrentWinnerRecord(key.records, device);
      var generation := ChooseGeneration(key, winner, record);
      if key.generation == 0 || generation > key.generation { key := key.(generation := generation); }
      keys := keys[IdOf(r) := key.(hasEvidence := true)];
      reply := Keep(record.(capabilityGeneration := generation));
    }

    method Keep(record: Record) returns (reply: Reply)
      requires IdOf(record) in keys
      modifies `keys, `queue, `evidenceCount, `nextSerial
      ensures Outcome(View(), reply) == MakeRoom(old(View()), record)
    {
      hide Store, Steps.EvictIfNeeded;
      if evidenceCount >= config.limits.maxEvidenceHistory {
        EvictIfNeeded();
        if evidenceCount >= config.limits.maxEvidenceHistory { return Plain(RejectedBackpressure); }
      }
      StoreRecord(record);
      EvictIfNeeded();
      return Plain(Accepted);
    }

    method ApplyCapability(r: Record) returns (reply: Reply)
      modifies `keys, `deviceKeys, `queue, `evidenceCount, `nextSerial
      ensures Outcome(View(), reply) == Steps.ApplyCapability(old(View()), r)
    {
      hide EnsureKey, Admit, SchemaRejection;
      var rejected := CheckRecord(r);
      if rejected.Some? { return Plain(rejected.value); }
      EnsureKeepsRest(View(), r);
      EnsureHasKey(View(), r);
      rejected := CreateKey(r);
      if rejected.Some? { return Plain(rejected.value); }
      var key := keys[IdOf(r)];
      if key.schema != r.schema { return Plain(RejectedValidation); }
      if r.capabilityGeneration != 0 && key.generation != 0 && r.capabilityGeneration <= key.generation {
        return Plain(RejectedStaleCapabilityGeneration);
      }
      if r.capabilityGeneration != 0 && key.generation == 0 && r.capabilityGeneration > 1 {
        return Plain(RejectedStaleCapabilityGeneration);
      }
      reply := AdmitRecord(r);
    }

    // ---- quirks and publications -----------------------------------------------------------------------------

    method ApplyQuirk(q: Quirk, withdraw: bool) returns (reply: Reply)
      modifies `quirks
      ensures Outcome(View(), reply) == Steps.ApplyQuirk(old(View()), q, withdraw)
    {
      hide KnownCapability;
      for i := 0 to |q.impacted|
        invariant forall j :: 0 <= j < i ==> KnownCapability(config, q.impacted[j])
      {
        if !KnownCapability(config, q.impacted[i]) { return Plain(RejectedUnknownSchema); }
      }
      assert ImpactsKnown(config, q);
      if withdraw {
        if q.id !in quirks { return Plain(RejectedUnknownDevice); }
        if quirks[q.id].withdrawn { return Plain(AcceptedIdempotent); }
        quirks := quirks[q.id := quirks[q.id].(withdrawn := true)];
        return Plain(Accepted);
      }
      if q.generation == 0 { return Plain(RejectedValidation); }
      if q.id !in quirks {
        if |quirks| >= config.limits.maxQuirks { return Plain(RejectedLimit); }
        if q.generation > 1 { return Plain(RejectedStaleCapabilityGeneration); }
        quirks := quirks[q.id := q];
        return Plain(Accepted);
      }
      var existing := quirks[q.id];
      if q.generation < existing.generation { return Plain(RejectedGenerationRegression); }
      if q.generation == existing.generation {
        if existing.title == q.title && existing.severity == q.severity && existing.category == q.category
           && existing.impacted == q.impacted {
          return Plain(AcceptedIdempotent);
        }
        return Plain(RejectedDuplicateConflict);
      }
      quirks := quirks[q.id := q];
      return Plain(Accepted);
    }

    method ReferenceResolves(r: Reference) returns (resolves: bool)
      ensures resolves <==> Resolves(Known(View()), r)
    {
      match r.kind {
        case DeviceReference => return r.token in devices;
        case PlatformReference => return r.token in platforms;
        case FamilyReference => return r.token in families;
        case ModelReference => return r.token in models;
        case ArchitectureReference => return r.token in architectures;
        case _ => return true;
      }
    }

    method ApplyCompatibility(f: Fact, withdraw: bool) returns (reply: Reply)
      modifies `compatibility
      ensures Outcome(View(), reply) == ApplyFact(old(View()), f, withdraw)
    {
      hide Resolves, SameReference;
      var left := ReferenceResolves(f.lhs);
      if !left { return Plain(RejectedValidation); }
      var right := ReferenceResolves(f.rhs);
      if !right { return Plain(RejectedValidation); }
      if withdraw {
        if f.id !in compatibility { return Plain(RejectedUnknownDevice); }
        var stored := compatibility[f.id];
        if stored.withdrawn { return Plain(AcceptedIdempotent); }
        compatibility := compatibility[f.id := stored.(withdrawn := true, source := f.source)];
        return Plain(Accepted);
      }
      if f.generation == 0 { return Plain(RejectedValidation); }
      if f.id !in compatibility {
        if |compatibility| >= config.limits.maxFacts { return Plain(RejectedLimit); }
        if f.generation > 1 { return Plain(RejectedStaleCapabilityGeneration); }
        compatibility := compatibility[f.id := f];
        return Plain(Accepted);
      }
      var existing := compatibility[f.id];
      if f.generation < existing.generation { return Plain(RejectedGenerationRegression); }
      if f.generation == existing.generation {
        if existing.outcome == f.outcome && SameReference(existing.lhs, f.lhs) && SameReference(existing.rhs, f.rhs)
           && existing.reason == f.reason {
          return Plain(AcceptedIdempotent);
        }
        return Plain(RejectedDuplicateConflict);
      }
      compatibility := compatibility[f.id := f];
      return Plain(Accepted);
    }

    /** Who publishes is checked before anything of the publication is looked at. */
    method CheckSender(who: Identity) returns (rejected: Option<Code>)
      ensures rejected == SenderRejection(View(), who)
    {
      if who.id !in publishers { return Some(RejectedUnknownPublisher); }
      var publisher := publishers[who.id];
      if publisher.fenced { return Some(RejectedFencedPublisher); }
      if who.boot in publisher.fencedBoots { return Some(RejectedFencedPublisher); }
      if publisher.boot != who.boot { return Some(RejectedStaleBoot); }
      if who.epoch != epoch { return Some(RejectedStaleEpoch); }
      return None;
    }

    method CheckSequence(pub: Publication) returns (verdict: Option<Code>)
      requires pub.publisher.id in publishers
      modifies `publishers
      ensures View() == Opened(old(View()), pub)
      ensures verdict == SequenceVerdict(publishers[pub.publisher.id], pub)
    {
      var publisher := publishers[pub.publisher.id];
      if pub.publisher.boot !in publisher.watermarks {
        publisher := publisher.(watermarks := publisher.watermarks[pub.publisher.boot := Watermark(0, 0)]);
      }
      assert publisher.watermarks == OpenWatermark(publishers[pub.publisher.id], pub.publisher.boot).watermarks;
      publishers := publishers[pub.publisher.id := publisher];
      var watermark := publisher.watermarks[pub.publisher.boot];
      if pub.sequence < watermark.maxSequence { return Some(RejectedStaleSequence); }
      if pub.sequence == watermark.maxSequence {
        if pub.sequence !in publisher.fingerprints { return Some(AcceptedIdempotent); }
        if publisher.fingerprints[pub.sequence] == pub.fingerprint { return Some(AcceptedIdempotent); }
        return Some(RejectedDuplicateConflict);
      }
      if pub.evidenceGeneration < watermark.maxEvidenceGeneration { return Some(RejectedGenerationRegression); }
      return None;
    }

    /** The fingerprints of the smallest sequences are dropped while there are too many. */
    static method Forget(fingerprints: map<nat, nat>) returns (kept: map<nat, nat>)
      ensures kept == TrimFingerprints(fingerprints)
    {
      kept := fingerprints;
      while |kept| > MaxFingerprints
        invariant TrimFingerprints(kept) == TrimFingerprints(fingerprints)
        decreases |kept|
      {
        ghost var expected := MinOf(kept.Keys);
        assert expected in kept;
        var smallest :| smallest in kept && forall other :: other in kept ==> smallest <= other;
        assert smallest == expected;
        kept := kept - {smallest};
      }
    }

    method NoteAcceptance(pub: Publication)
      requires pub.publisher.id in publishers && pub.publisher.boot in publishers[pub.publisher.id].watermarks
      modifies `publishers
      ensures publishers == old(publishers)[pub.publisher.id := RecordAcceptance(old(publishers)[pub.publisher.id], pub)]
    {
      hide TrimFingerprints;
      var publisher := publishers[pub.publisher.id];
      var watermark := publisher.watermarks[pub.publisher.boot];
      watermark := watermark.(maxSequence := pub.sequence);
      if pub.evidenceGeneration > watermark.maxEvidenceGeneration {
        watermark := watermark.(maxEvidenceGeneration := pub.evidenceGeneration);
      }
      var fingerprints := Forget(publisher.fingerprints[pub.sequence := pub.fingerprint]);
      publishers := publishers[pub.publisher.id := publisher.(
        watermarks := publisher.watermarks[pub.publisher.boot := watermark], fingerprints := fingerprints,
        lastSequence := pub.sequence, maxEvidenceGeneration := watermark.maxEvidenceGeneration)];
    }

    method Dispatch(pub: Publication) returns (reply: Reply)
      modifies `devices, `platforms, `families, `models, `architectures, `keys, `deviceKeys, `queue, `evidenceCount, `nextSerial,
        `quirks, `compatibility
      ensures Outcome(View(), reply) == Handle(old(View()), pub)
    {
      hide Steps.ApplyDevice, Steps.ApplyCapability, Steps.ApplyQuirk, ApplyFact;
      match pub.kind {
        case RegisterDevice => reply := ApplyDevice(pub.device, false);
        case PublishDeviceGeneration => reply := ApplyDevice(pub.device, true);
        case PublishCapability => reply := ApplyCapability(pub.capability);
        case WithdrawCapability => reply := ApplyCapability(pub.capability);
        case PublishQuirk => reply := ApplyQuirk(pub.quirk, false);
        case WithdrawQuirk => reply := ApplyQuirk(pub.quirk, true);
        case PublishCompatibility => reply := ApplyCompatibility(pub.compatibility, false);
        case WithdrawCompatibility => reply := ApplyCompatibility(pub.compatibility, true);
        case Heartbeat => reply := Plain(Accepted);
        case RegisterPublisherKind => reply := Plain(RejectedValidation);
      }
    }

    method ApplySequenced(pub: Publication) returns (reply: Reply)
      requires pub.publisher.id in publishers
      modifies this
      ensures Outcome(View(), reply) == Sequenced(old(View()), pub)
    {
      hide Handle, SequenceVerdict, RecordAcceptance;
      ghost var s := View();
      var verdict := CheckSequence(pub);
      if verdict.Some? { return Plain(verdict.value); }
      ghost var open := View();
      HandleKeepsPublishers(open, pub);
      reply := Dispatch(pub);
      if IsAccepted(reply.code) { NoteAcceptance(pub); }
    }

    /** The sender becomes the source; a capability without schema gets the one it is bound to, if any. */
    method AttributeToSender(submitted: Publication) returns (pub: Option<Publication>)
      ensures pub == if Unbound(config, submitted) then None else Some(Attribute(config, submitted))
    {
      var r := submitted.capability.(source := submitted.capability.source.(publisher := submitted.publisher));
      if IsCapability(submitted.kind) && r.schema == 0 {
        if r.capability !in config.bindings { return None; }
        r := r.(schema := config.bindings[r.capability]);
      }
      var fact := submitted.compatibility.(source := submitted.compatibility.source.(publisher := submitted.publisher));
      return Some(submitted.(capability := r, compatibility := fact));
    }

    /** A publication that has been attributed to its sender. */
    method ApplyAttributed(pub: Publication) returns (reply: Reply)
      modifies this
      ensures Outcome(View(), reply) ==
        if !Validated(config, pub) then Outcome(old(View()), Plain(RejectedValidation))
        else if pub.kind == RegisterPublisherKind then Steps.RegisterPublisher(old(View()), pub.publisher, pub.adapter)
        else match SenderRejection(old(View()), pub.publisher)
          case Some(code) => Outcome(old(View()), Plain(code))
          case None => Sequenced(old(View()), pub)
    {
      hide Sequenced, Validated, SenderRejection, Steps.RegisterPublisher;
      var valid := ValidatePublication(config, pub);
      if !valid { return Plain(RejectedValidation); }
      if pub.kind == RegisterPublisherKind {
        reply := RegisterPublisherLocked(pub.publisher, pub.adapter);
        return;
      }
      var rejected := CheckSender(pub.publisher);
      if rejected.Some? { return Plain(rejected.value); }
      reply := ApplySequenced(pub);
    }

    method Apply(submitted: Publication) returns (reply: Reply)
      modifies this
      ensures Outcome(View(), reply) == ApplyPublication(old(View()), submitted)
      ensures old(Valid()) ==> Valid()
    {
      hide Inv, Grows, Sequenced, Validated, SenderRejection, Steps.RegisterPublisher, Attribute, Unbound;
      ghost var s := View();
      if Inv(s) { PublicationKeeps(s, submitted); }
      AttributeKeepsKind(config, submitted);
      if shuttingDown { return Plain(RejectedShuttingDown); }
      var attributed := AttributeToSender(submitted);
      if attributed == None { return Plain(RejectedUnknownSchema); }
      reply := ApplyAttributed(attributed.value);
    }

    static lemma AttributeKeepsKind(config: Config, submitted: Publication)
      ensures var p := Attribute(config, submitted);
        p.kind == submitted.kind && p.publisher == submitted.publisher && p.adapter == submitted.adapter
    {}

    // ---- queries ---------------------------------------------------------------------------------------------------

    method CollectCandidates(records: seq<Stored>, device: Device, target: nat) returns (cs: seq<Stored>, flags: set<Flag>)
      ensures cs == Candidates(View(), records, device, target)
      ensures flags == AllFlags(View(), records, device, target)
    {
      hide Current, HasFlag, Staleness;
      cs, flags := [], {};
      for i := 0 to |records|
        invariant cs == Candidates(View(), records[..i], device, target)
        invariant flags == AllFlags(View(), records[..i], device, target)
      {
        assert records[..i + 1][..i] == records[..i];
        assert records[..i + 1] == records[..i] + [records[i]];
        AllFlagsGrow(View(), records[..i], records[i], device, target);
        var own := ComputeStaleness(records[i], device, target);
        flags := flags + own;
        if own == {} { cs := cs + [records[i]]; }
      }
      assert records[..|records|] == records;
    }

    static method JudgeQuirk(quirk: Quirk, id: nat, device: Device, capability: nat, facts: C.Facts) returns (judged: Option<Application>)
      ensures judged ==
        if Gathered(quirk, id, device, capability, facts) then Some(Judge(quirk, id, device, facts)) else None
    {
      hide Q.Applicable;
      if quirk.withdrawn { return None; }
      if capability !in quirk.impacted { return None; }
      var verdict := Q.EvaluateQuirk(quirk.applicability, id, device.hardware, device.software, facts);
      if verdict == Q.DoesNotApply { return None; }
      return Some(Application(quirk.id, quirk.severity, verdict));
    }

    /** What has been gathered, and what visiting the quirks in `todo` would still add. */
    ghost predicate GatheredSoFar(todo: set<nat>, collected: seq<Application>, id: nat, device: Device, capability: nat, facts: C.Facts)
      requires todo <= quirks.Keys
      reads this
    {
      Gather(View(), Ascending(quirks.Keys), 0, id, device, capability, facts)
      == collected + Gather(View(), Ascending(todo), |collected|, id, device, capability, facts)
    }

    lemma GatherTurn(todo: set<nat>, next: nat, collected: seq<Application>, id: nat, device: Device, capability: nat, facts: C.Facts)
      requires todo <= quirks.Keys && next in todo && (forall other :: other in todo ==> next <= other)
      requires GatheredSoFar(todo, collected, id, device, capability, facts)
      ensures var quirk, more := quirks[next], collected + [Judge(quirks[next], id, device, facts)];
        if !Gathered(quirk, id, device, capability, facts) then GatheredSoFar(todo - {next}, collected, id, device, capability, facts)
        else if |more| >= config.limits.maxQueryResults then Gather(View(), Ascending(quirks.Keys), 0, id, device, capability, facts) == more
        else GatheredSoFar(todo - {next}, more, id, device, capability, facts)
    {
      hide Gathered, Judge;
      assert next == MinOf(todo);
      assert Ascending(todo)[0] == next && Ascending(todo)[1..] == Ascending(todo - {next});
    }

    /** The quirks that apply and those that may, in the order of their identities. */
    method CollectQuirks(id: nat, device: Device, capability: nat, facts: C.Facts)
      returns (applications: seq<Application>, deferred: seq<Application>)
      ensures var all := Gather(View(), Ascending(quirks.Keys), 0, id, device, capability, facts);
        applications == OfVerdict(all, Q.Applies) && deferred == OfVerdict(all, Q.Undetermined)
        && multiset(applications) + multiset(deferred) == multiset(all)
    {
      hide Judge, Gathered, GatheredSoFar, OfVerdict, Gather;
      applications, deferred := [], [];
      ghost var collected: seq<Application> := [];
      var todo := quirks.Keys;
      GatherStart(id, device, capability, facts);
      NoVerdicts();
      while todo != {}
        invariant todo <= quirks.Keys && GatheredSoFar(todo, collected, id, device, capability, facts)
        invariant applications == OfVerdict(collected, Q.Applies) && deferred == OfVerdict(collected, Q.Undetermined)
        invariant forall a :: a in collected ==> a.verdict != Q.DoesNotApply
        decreases |todo|
      {
        ghost var least := MinOf(todo);
        assert least in todo;
        var next :| next in todo && forall other :: other in todo ==> next <= other;
        GatherTurn(todo, next, collected, id, device, capability, facts);
        todo := todo - {next};
        var judged := JudgeQuirk(quirks[next], id, device, capability, facts);
        if judged == None { continue; }
        OfVerdictAdd(collected, judged.value);
        collected := collected + [judged.value];
        assert judged.value.verdict != Q.DoesNotApply by { GatheredVerdict(quirks[next], id, device, capability, facts); }
        if judged.value.verdict == Q.Undetermined {
          deferred := deferred + [judged.value];
        } else {
          applications := applications + [judged.value];
        }
        VerdictsSplit(collected);
        if |applications| + |deferred| >= config.limits.maxQueryResults { return; }
      }
      GatherEnd(collected, id, device, capability, facts);
      VerdictsSplit(collected);
    }

    lemma GatherStart(id: nat, device: Device, capability: nat, facts: C.Facts)
      ensures GatheredSoFar(quirks.Keys, [], id, device, capability, facts)
    {}

    lemma GatherEnd(collected: seq<Application>, id: nat, device: Device, capability: nat, facts: C.Facts)
      requires GatheredSoFar({}, collected, id, device, capability, facts)
      ensures Gather(View(), Ascending(quirks.Keys), 0, id, device, capability, facts) == collected
    {}

    static lemma GatheredVerdict(quirk: Quirk, id: nat, device: Device, capability: nat, facts: C.Facts)
      ensures Gathered(quirk, id, device, capability, facts) ==> Judge(quirk, id, device, facts).verdict != Q.DoesNotApply
    {}

    /** The impacting quirks, those that apply before those that may, each list by severity. */
    method GatherQuirks(id: nat, device: Device, capability: nat, facts: C.Facts) returns (apps: seq<Application>)
      ensures multiset(apps) == multiset(Gather(View(), Ascending(quirks.Keys), 0, id, device, capability, facts))
      ensures ListedApart(apps, |OfVerdict(Gather(View(), Ascending(quirks.Keys), 0, id, device, capability, facts), Q.Applies)|)
    {
      hide Gather, OfVerdict, Listed;
      var applications, deferred := CollectQuirks(id, device, capability, facts);
      applications := SortListed(applications);
      deferred := SortListed(deferred);
      apps := applications + deferred;
      assert apps[..|applications|] == applications && apps[|applications|..] == deferred;
    }

    method ResolveKnown(device: nat, capability: nat, pinned: nat, facts: C.Facts) returns (resolved: Resolved)
      requires device in devices && (device, capability) in keys
      ensures resolved == ResolveKey(View(), device, capability, pinned, facts, Ascending(quirks.Keys))
    {
      hide Candidates, AllFlags, Gather, Classify, Winner, Newest, Effective, C.Evaluate;
      var d, key := devices[device], keys[(device, capability)];
      var target := if pinned != 0 then pinned else d.generation;
      var cs, flags := CollectCandidates(key.records, d, target);
      if cs == [] {
        var newest := FindNewest(key.records);
        var staleness := if flags == {} then {RequiresRevalidation} else flags;
        if newest == None {
          return Resolved(true, false, Support.Unknown, NoValue, UnknownPrecision, C.Null, C.NotApplicable, NeedsRevalidation,
                          staleness, NotCurrent, key.schema, key.generation);
        }
        var r := newest.value.record;
        var outcome := C.EvaluateCondition(r.conditions, facts);
        return Resolved(true, false, r.support, r.value, r.precision, r.conditions, outcome, NeedsRevalidation, staleness,
                        NotCurrent, key.schema, key.generation);
      }
      var winner := FindWinner(cs);
      var contradiction := ClassifyCandidates(cs, winner);
      var r := cs[winner].record;
      var outcome := C.EvaluateCondition(r.conditions, facts);
      var apps := GatherQuirks(device, d, capability, facts);
      EffectivePermuted(r.support, outcome, apps, Gather(View(), Ascending(quirks.Keys), 0, device, d, capability, facts));
      var effective := ComputeEffectiveSupport(r.support, outcome, apps);
      return Resolved(true, target == d.generation, r.support, r.value, r.precision, r.conditions, outcome, contradiction, {},
                      effective, key.schema, key.generation);
    }

    /** None when the identities are not set or the device is not registered. */
    method QueryCapability(device: nat, capability: nat, pinned: nat, facts: C.Facts) returns (resolved: Option<Resolved>)
      ensures resolved ==
        if device == 0 || capability == 0 || device !in devices then None
        else Some(Resolve(View(), device, capability, pinned, facts, Ascending(quirks.Keys)))
    {
      hide ResolveKey;
      if device == 0 || capability == 0 { return None; }
      if device !in devices { return None; }
      if (device, capability) !in keys { return Some(Unrecorded()); }
      var known := ResolveKnown(device, capability, pinned, facts);
      return Some(known);
    }

    // ---- the durable state -------------------------------------------------------------------------------------------

    method ExportDurableState() returns (d: Durable)
      requires Valid()
      ensures IsExport(View(), d)
    {
      hide SubjectsExported, PlatformsExported, QuirksExported, FactsExported, PublishersExported, HistorySorted, AllRecords, PublisherOk;
      PublishersWere(View());
      QuirkIdentities(View());
      FactIdentities(View());
      var written := ExportPlatforms(platforms);
      var subjects := ExportSubjects(devices);
      var history := ExportHistory(keys);
      var writtenQuirks := ExportQuirks(quirks);
      var facts := ExportFacts(compatibility);
      var marks, fenced := ExportPublishers(publishers);
      d := Durable(epoch, written, subjects, history, writtenQuirks, facts, marks, fenced);
    }

    static lemma FactIdentities(s: State)
      requires Inv(s)
      ensures forall id :: id in s.facts ==> s.facts[id].id == id
    {
      hide Inv, ValidFact, BothResolve;
      FactsWere(s);
    }

    static lemma QuirkIdentities(s: State)
      requires Inv(s)
      ensures forall id :: id in s.quirks ==> s.quirks[id].id == id
    {
      hide Inv, ValidQuirk, ImpactsKnown;
      QuirksWere(s);
    }

    method ImportPublishers(d: Durable) returns (staged: Option<map<nat, Publisher>>)
      ensures staged == StagePublishers(config.limits, d)
    {
      hide StageMarks, StageFences;
      var marked := ImportMarks(d.marks);
      if marked == None { return None; }
      var fenced := ImportFences(marked.value, d.fencedBoots);
      if fenced == None { return None; }
      if |fenced.value| > config.limits.maxPublishers { return None; }
      return fenced;
    }

    method ImportRest(x: Subjects, d: Durable) returns (staged: Option<Rest>)
      ensures staged == StageRest(config, x, d)
    {
      hide StageQuirks, StageFacts, StagePublishers;
      var stagedQuirks := ImportQuirks(config, d.quirks);
      if stagedQuirks == None { return None; }
      var facts := ImportFacts(config, x, d.facts);
      if facts == None { return None; }
      var stagedPublishers := ImportPublishers(d);
      if stagedPublishers == None { return None; }
      return Some(Rest(stagedQuirks.value, facts.value, stagedPublishers.value));
    }

    method CommitSubjects(staged: Devices, stagedPlatforms: set<nat>)
      modifies `devices, `platforms, `families, `models, `architectures
      ensures devices == staged.devices && platforms == stagedPlatforms
      ensures families == staged.families && models == staged.models && architectures == staged.architectures
    {
      devices, platforms := staged.devices, stagedPlatforms;
      families, models, architectures := staged.families, staged.models, staged.architectures;
    }

    method CommitEvidence(stagedKeys: map<KeyId, Key>, count: nat)
      modifies `keys, `deviceKeys, `queue, `evidenceCount
      ensures keys == stagedKeys && deviceKeys == IndexOf(stagedKeys) && queue == QueueOf(stagedKeys) && evidenceCount == count
    {
      hide IndexOf, QueueOf;
      var index := RebuildIndex(stagedKeys);
      var entries := RebuildQueue(stagedKeys);
      keys, deviceKeys, queue, evidenceCount := stagedKeys, index, entries, count;
    }

    method CommitRest(rest: Rest)
      modifies `quirks, `compatibility, `publishers
      ensures quirks == rest.quirks && compatibility == rest.facts && publishers == Bury(rest.publishers)
    {
      hide Bury;
      var buried := BuryAll(rest.publishers);
      quirks, compatibility, publishers := rest.quirks, rest.facts, buried;
    }

    method CommitImport(d: Durable, staged: Devices, stagedPlatforms: set<nat>, stagedKeys: map<KeyId, Key>, rest: Rest)
      modifies this
      ensures View() == State(
                config, staged.devices, stagedPlatforms, staged.families, staged.models, staged.architectures, stagedKeys,
                IndexOf(stagedKeys), QueueOf(stagedKeys), |d.history|, old(nextSerial), rest.quirks, rest.facts, Bury(rest.publishers),
                if d.epoch > old(epoch) then d.epoch else old(epoch), old(shuttingDown))
    {
      hide Bury, IndexOf, QueueOf, Inv;
      CommitSubjects(staged, stagedPlatforms);
      CommitEvidence(stagedKeys, |d.history|);
      CommitRest(rest);
      if d.epoch > epoch { epoch := d.epoch; }
    }

    /** Everything is read and checked before anything but the serial counter is replaced. */
    method ImportDurableState(d: Durable) returns (ok: bool)
      modifies this
      ensures Load(View(), ok) == Import(old(View()), d)
    {
      hide StageDevices, StagePlatforms, StageHistory, StageRest, Bury, IndexOf, QueueOf;
      if |d.subjects| > config.limits.maxDevices { return false; }
      if |d.history| > config.limits.maxEvidenceHistory { return false; }
      if |d.quirks| > config.limits.maxQuirks { return false; }
      if |d.facts| > config.limits.maxFacts { return false; }
      if |d.marks| > config.limits.maxPublishers * 64 { return false; }
      var staged := ImportSubjects(config.limits, d.subjects);
      if staged == None { return false; }
      var stagedPlatforms := ImportPlatforms(d.platforms);
      if stagedPlatforms == None { return false; }
      var g := ImportHistory(config, staged.value.devices, d.history, nextSerial);
      nextSerial := g.nextSerial;
      if !g.ok { return false; }
      var rest := ImportRest(Loaded(staged.value, stagedPlatforms.value), d);
      if rest == None { return false; }
      CommitImport(d, staged.value, stagedPlatforms.value, g.keys, rest.value);
      return true;
    }
  }
}
