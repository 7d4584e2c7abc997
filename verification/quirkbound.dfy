// The query bound on quirks (src/registry.cpp:612-683): only the first
// impacting quirks are looked at, so a new quirk can push a decisive one out.
// Exactly when it can is decided here.
module QuirkBound {
  import opened Basics
  import C = Conditions
  import Q = Quirks
  import opened Model
  import opened Steps
  import opened Resolution

  // ---- gathering is cutting ---------------------------------------------------------------

  /** The number of impacting quirks that are looked at; even a bound of zero lets one through. */
  function Places(s: State): (places: nat)
    ensures places > 0
  {
    if s.config.limits.maxQueryResults == 0 then 1 else s.config.limits.maxQueryResults
  }

  function Cut(apps: seq<Application>, places: nat): seq<Application> {
    if |apps| <= places then apps else apps[..places]
  }

  /** Every impacting quirk among `ids`, with no bound. */
  function Impacting(s: State, ids: seq<nat>, device: nat, d: Device, capability: nat, facts: C.Facts): seq<Application>
    requires forall i :: 0 <= i < |ids| ==> ids[i] in s.quirks
  {
    if ids == [] then []
    else
      var q := s.quirks[ids[0]];
      (if Gathered(q, device, d, capability, facts) then [Judge(q, device, d, facts)] else [])
      + Impacting(s, ids[1..], device, d, capability, facts)
  }

  lemma {:induction false} GatherIsCut(s: State, ids: seq<nat>, n: nat, device: nat, d: Device, capability: nat, facts: C.Facts)
    requires forall i :: 0 <= i < |ids| ==> ids[i] in s.quirks
    requires n < Places(s)
    ensures Gather(s, ids, n, device, d, capability, facts) == Cut(Impacting(s, ids, device, d, capability, facts), Places(s) - n)
  {
    hide Gathered, Judge;
    if ids != [] {
      if !Gathered(s.quirks[ids[0]], device, d, capability, facts) {
        GatherIsCut(s, ids[1..], n, device, d, capability, facts);
      } else if n + 1 < Places(s) {
        GatherIsCut(s, ids[1..], n + 1, device, d, capability, facts);
      }
    }
  }

  lemma {:induction false} ImpactingAppend(
    s: State, a: seq<nat>, b: seq<nat>, device: nat, d: Device, capability: nat, facts: C.Facts)
    requires forall i :: 0 <= i < |a| ==> a[i] in s.quirks
    requires forall i :: 0 <= i < |b| ==> b[i] in s.quirks
    ensures Impacting(s, a + b, device, d, capability, facts)
         == Impacting(s, a, device, d, capability, facts) + Impacting(s, b, device, d, capability, facts)
  {
    hide Gathered, Judge;
    if a == [] {
      assert a + b == b;
    } else {
      assert (a + b)[1..] == a[1..] + b;
      ImpactingAppend(s, a[1..], b, device, d, capability, facts);
    }
  }

  /** The state with one more quirk. */
  function With(s: State, q: Quirk): State { s.(quirks := s.quirks[q.id := q]) }

  lemma {:induction false} ImpactingUnchanged(
    s: State, q: Quirk, ids: seq<nat>, device: nat, d: Device, capability: nat, facts: C.Facts)
    requires q.id !in s.quirks && forall i :: 0 <= i < |ids| ==> ids[i] in s.quirks
    ensures Impacting(With(s, q), ids, device, d, capability, facts) == Impacting(s, ids, device, d, capability, facts)
  {
    hide Gathered, Judge;
    if ids != [] { ImpactingUnchanged(s, q, ids[1..], device, d, capability, facts); }
  }

  function OneImpacting(q: Quirk, device: nat, d: Device, capability: nat, facts: C.Facts): seq<Application> {
    if Gathered(q, device, d, capability, facts) then [Judge(q, device, d, facts)] else []
  }

  lemma ImpactingOne(s: State, q: Quirk, device: nat, d: Device, capability: nat, facts: C.Facts)
    ensures Impacting(With(s, q), [q.id], device, d, capability, facts) == OneImpacting(q, device, d, capability, facts)
  {
    hide Gathered, Judge;
    assert [q.id][1..] == [];
    assert Impacting(With(s, q), [], device, d, capability, facts) == [];
  }

  lemma InsertedImpacting(
    s: State, q: Quirk, a: seq<nat>, b: seq<nat>, device: nat, d: Device, capability: nat, facts: C.Facts)
    requires q.id !in s.quirks
    requires forall i :: 0 <= i < |a| ==> a[i] in s.quirks
    requires forall i :: 0 <= i < |b| ==> b[i] in s.quirks
    ensures Impacting(With(s, q), a + [q.id] + b, device, d, capability, facts)
         == Impacting(s, a, device, d, capability, facts) + OneImpacting(q, device, d, capability, facts)
            + Impacting(s, b, device, d, capability, facts)
  {
    hide Impacting, OneImpacting;
    var t := With(s, q);
    ImpactingAppend(t, a + [q.id], b, device, d, capability, facts);
    ImpactingAppend(t, a, [q.id], device, d, capability, facts);
    ImpactingOne(s, q, device, d, capability, facts);
    ImpactingUnchanged(s, q, a, device, d, capability, facts);
    ImpactingUnchanged(s, q, b, device, d, capability, facts);
  }

  // ---- what a list of quirks leaves of a capability ------------------------------------------

  /** What one quirk leaves: nothing, use with a caveat, or full use. */
  function Leaves(a: Application): nat {
    if Blocks(a) then 0 else if Caveats(a) then 1 else 2
  }

  function LeftBy(apps: seq<Application>): (left: nat)
    ensures left <= 2
  {
    if apps == [] then 2 else Min(LeftBy(apps[..|apps| - 1]), Leaves(apps[|apps| - 1]))
  }

  lemma {:induction false} LeftByAppend(a: seq<Application>, b: seq<Application>)
    ensures LeftBy(a + b) == Min(LeftBy(a), LeftBy(b))
    decreases |b|
  {
    hide Leaves;
    if b == [] {
      assert a + b == a;
    } else {
      assert (a + b)[..|a + b| - 1] == a + b[..|b| - 1];
      LeftByAppend(a, b[..|b| - 1]);
    }
  }

  lemma LeftByOne(a: Application)
    ensures LeftBy([a]) == Leaves(a)
  {
    assert [a][..0] == [];
  }

  lemma {:induction false} LeftByLeast(apps: seq<Application>)
    ensures LeftBy(apps) == 0 <==> exists i :: 0 <= i < |apps| && Blocks(apps[i])
    ensures LeftBy(apps) == 1 ==> exists i :: 0 <= i < |apps| && Caveats(apps[i])
    ensures LeftBy(apps) == 2 ==> forall i :: 0 <= i < |apps| ==> !Caveats(apps[i])
  {
    hide Blocks, Caveats;
    if apps != [] {
      var front := apps[..|apps| - 1];
      LeftByLeast(front);
      forall i | 0 <= i < |front| ensures front[i] == apps[i] {}
      if LeftBy(apps) == 0 && !Blocks(apps[|apps| - 1]) {
        var i :| 0 <= i < |front| && Blocks(front[i]);
        assert Blocks(apps[i]);
      }
      if LeftBy(apps) == 1 && !Caveats(apps[|apps| - 1]) {
        var i :| 0 <= i < |front| && Caveats(front[i]);
        assert Caveats(apps[i]);
      }
    }
  }

  predicate Open(declared: Support, outcome: C.Outcome) {
    AssertsUsable(declared) && (outcome == C.Satisfied || outcome == C.NotApplicable)
  }

  /** Where evidence and conditions leave the answer to the quirks, they leave what the least of them leaves. */
  lemma FreedomIsLeft(declared: Support, outcome: C.Outcome, apps: seq<Application>)
    requires Open(declared, outcome)
    ensures Freedom(Effective(declared, outcome, apps)) == LeftBy(apps)
  {
    hide Blocks, Caveats, LeftBy;
    LeftByLeast(apps);
  }

  // ---- exactly when a new quirk raises an answer -----------------------------------------------

  /** The places are taken, and the quirk in the last of them alone holds the answer down. */
  predicate LastIsDecisive(apps: seq<Application>, places: nat)
    requires places > 0
  {
    |apps| >= places && Leaves(apps[places - 1]) < LeftBy(apps[..places - 1])
  }

  lemma CutOfMany(apps: seq<Application>, places: nat)
    requires places > 0
    ensures |apps| >= places ==>
      LeftBy(Cut(apps, places)) == Min(LeftBy(apps[..places - 1]), Leaves(apps[places - 1]))
  {
    if |apps| >= places { assert Cut(apps, places)[..places - 1] == apps[..places - 1]; }
  }

  /** Inserting `j` after `a` among the impacting quirks `a + b`. */
  lemma InsertedLeaves(a: seq<Application>, j: Application, b: seq<Application>, places: nat)
    requires places > 0
    ensures var was, now := LeftBy(Cut(a + b, places)), LeftBy(Cut(a + [j] + b, places));
      now > was <==> |a| < places && LastIsDecisive(a + b, places) && Leaves(j) > Leaves((a + b)[places - 1])
  {
    hide Leaves, LeftBy;
    var all := a + b;
    LeftByOne(j);
    if |a| >= places {
      assert Cut(a + [j] + b, places) == a[..places] && Cut(all, places) == a[..places];
    } else if |all| < places {
      LeftByAppend(a + [j], b);
      LeftByAppend(a, [j]);
      LeftByAppend(a, b);
      assert Cut(a + [j] + b, places) == a + [j] + b && Cut(all, places) == all;
    } else {
      var kept := b[..places - 1 - |a|];
      assert Cut(a + [j] + b, places) == a + [j] + kept;
      assert all[..places - 1] == a + kept;
      LeftByAppend(a + [j], kept);
      LeftByAppend(a, [j]);
      LeftByAppend(a, kept);
      CutOfMany(all, places);
    }
  }

  function AnswerWith(
    s: State, ids: seq<nat>, device: nat, d: Device, capability: nat, facts: C.Facts, declared: Support, outcome: C.Outcome): EffectiveSupport
    requires forall i :: 0 <= i < |ids| ==> ids[i] in s.quirks
  {
    Effective(declared, outcome, Gather(s, ids, 0, device, d, capability, facts))
  }

  /**
   * A quirk under a new id, visited after `a` and before `b`, raises an answer if and only if it impacts the capability, is
   * visited within the bound, the bound was reached before, the last quirk looked at alone held the answer down, and the new
   * one leaves more than that one.
   */
  lemma NewQuirkRaisesIff(
    s: State, q: Quirk, a: seq<nat>, b: seq<nat>, device: nat, d: Device, capability: nat, facts: C.Facts,
    declared: Support, outcome: C.Outcome)
    requires q.id !in s.quirks && Open(declared, outcome)
    requires forall i :: 0 <= i < |a| ==> a[i] in s.quirks
    requires forall i :: 0 <= i < |b| ==> b[i] in s.quirks
    ensures var was := AnswerWith(s, a + b, device, d, capability, facts, declared, outcome);
      var now := AnswerWith(With(s, q), a + [q.id] + b, device, d, capability, facts, declared, outcome);
      var all := Impacting(s, a + b, device, d, capability, facts);
      Freedom(now) > Freedom(was) <==>
      && Gathered(q, device, d, capability, facts)
      && |Impacting(s, a, device, d, capability, facts)| < Places(s)
      && LastIsDecisive(all, Places(s))
      && Leaves(Judge(q, device, d, facts)) > Leaves(all[Places(s) - 1])
  {
    hide Gathered, Judge, Effective, Gather, Impacting, Leaves, LeftBy, LastIsDecisive;
    var t, places := With(s, q), Places(s);
    var before, after := Impacting(s, a, device, d, capability, facts), Impacting(s, b, device, d, capability, facts);
    ImpactingAppend(s, a, b, device, d, capability, facts);
    InsertedImpacting(s, q, a, b, device, d, capability, facts);
    GatherIsCut(s, a + b, 0, device, d, capability, facts);
    GatherIsCut(t, a + [q.id] + b, 0, device, d, capability, facts);
    FreedomIsLeft(declared, outcome, Gather(s, a + b, 0, device, d, capability, facts));
    FreedomIsLeft(declared, outcome, Gather(t, a + [q.id] + b, 0, device, d, capability, facts));
    if Gathered(q, device, d, capability, facts) {
      InsertedLeaves(before, Judge(q, device, d, facts), after, places);
    } else {
      assert before + [] + after == before + after;
    }
  }

  // ---- exactly when none can ---------------------------------------------------------------------

  lemma {:induction false} Above(ids: set<nat>) returns (m: nat)
    ensures m > 0 && forall id :: id in ids ==> id < m
    decreases ids
  {
    m := 1;
    if ids != {} {
      var x :| x in ids;
      var rest := Above(ids - {x});
      m := if x < rest then rest else x + 1;
      assert forall id :: id in ids ==> id == x || id in ids - {x};
    }
  }

  const Anywhere := Q.Applicability([], [], [], [], [], [], [], [], [], [], C.Null)

  /** A quirk without selectors that changes nothing. */
  function Harmless(id: nat, capability: nat): Quirk {
    Quirk(id, 1, 0, 0, Q.Informational, Anywhere, [capability], false)
  }

  lemma AppliesAnywhere(device: nat, d: Device, facts: C.Facts)
    ensures Q.Applicable(Anywhere, device, d.hardware, d.software, facts) == Q.Applies
  {
    assert C.Evaluate(C.Null, facts) == C.NotApplicable;
    assert Q.SoftwareSelectors(Anywhere, d.software, facts) == [C.Satisfied, C.Satisfied, C.Satisfied, C.NotApplicable];
  }

  lemma HarmlessApplies(id: nat, capability: nat, device: nat, d: Device, facts: C.Facts)
    ensures Gathered(Harmless(id, capability), device, d, capability, facts)
    ensures Leaves(Judge(Harmless(id, capability), device, d, facts)) == 2
  {
    hide Q.Applicable;
    AppliesAnywhere(device, d, facts);
  }

  /** The answer rises when the quirk is visited in the `n`-th place. */
  ghost predicate Raises(
    s: State, q: Quirk, ids: seq<nat>, n: nat, device: nat, d: Device, capability: nat, facts: C.Facts,
    declared: Support, outcome: C.Outcome)
    requires forall i :: 0 <= i < |ids| ==> ids[i] in s.quirks
  {
    && q.id !in s.quirks && ValidQuirk(s.config, q) && n <= |ids|
    && Freedom(AnswerWith(With(s, q), ids[..n] + [q.id] + ids[n..], device, d, capability, facts, declared, outcome))
       > Freedom(AnswerWith(s, ids, device, d, capability, facts, declared, outcome))
  }

  /** No new quirk can raise the answer, wherever it is visited, exactly when the last quirk looked at is not decisive. */
  lemma NoNewQuirkRaisesIff(
    s: State, ids: seq<nat>, device: nat, d: Device, capability: nat, facts: C.Facts, declared: Support, outcome: C.Outcome)
    requires Open(declared, outcome) && forall i :: 0 <= i < |ids| ==> ids[i] in s.quirks
    ensures
      (forall q: Quirk, n: nat :: !Raises(s, q, ids, n, device, d, capability, facts, declared, outcome)) <==>
      !LastIsDecisive(Impacting(s, ids, device, d, capability, facts), Places(s))
  {
    hide Gathered, Judge, AnswerWith, Impacting, LeftBy, ValidQuirk, Leaves;
    var all := Impacting(s, ids, device, d, capability, facts);
    forall q: Quirk, n: nat | Raises(s, q, ids, n, device, d, capability, facts, declared, outcome)
      ensures LastIsDecisive(all, Places(s))
    {
      assert ids[..n] + ids[n..] == ids;
      NewQuirkRaisesIff(s, q, ids[..n], ids[n..], device, d, capability, facts, declared, outcome);
    }
    if LastIsDecisive(all, Places(s)) {
      var m := Above(s.quirks.Keys);
      assert m !in s.quirks;
      HarmlessRaises(s, m, ids, device, d, capability, facts, declared, outcome);
    }
  }

  lemma HarmlessRaises(
    s: State, id: nat, ids: seq<nat>, device: nat, d: Device, capability: nat, facts: C.Facts, declared: Support, outcome: C.Outcome)
    requires Open(declared, outcome) && forall i :: 0 <= i < |ids| ==> ids[i] in s.quirks
    requires id !in s.quirks && id > 0 && LastIsDecisive(Impacting(s, ids, device, d, capability, facts), Places(s))
    ensures Raises(s, Harmless(id, capability), ids, 0, device, d, capability, facts, declared, outcome)
  {
    hide Gathered, Judge, AnswerWith, LeftBy, Leaves;
    var q := Harmless(id, capability);
    HarmlessApplies(id, capability, device, d, facts);
    assert ids[..0] == [] && ids[0..] == ids && [] + ids == ids;
    NewQuirkRaisesIff(s, q, [], ids, device, d, capability, facts, declared, outcome);
    assert LeftBy(Impacting(s, ids, device, d, capability, facts)[..Places(s) - 1]) <= 2;
    assert Impacting(s, [], device, d, capability, facts) == [];
  }

  // ---- and in the order of identities -------------------------------------------------------------

  predicate InOrder(ids: seq<nat>) {
    forall i, j :: 0 <= i < j < |ids| ==> ids[i] < ids[j]
  }

  /** Where an identity is visited among others in ascending order. */
  predicate InPlace(ids: seq<nat>, id: nat, n: nat) {
    n <= |ids| && (forall i :: 0 <= i < n ==> ids[i] < id) && (forall i :: n <= i < |ids| ==> id < ids[i])
  }

  lemma {:induction false} PlaceOf(ids: seq<nat>, id: nat) returns (n: nat)
    requires InOrder(ids) && id !in ids
    ensures InPlace(ids, id, n)
  {
    n := 0;
    while n < |ids| && ids[n] < id
      invariant n <= |ids| && forall i :: 0 <= i < n ==> ids[i] < id
    {
      n := n + 1;
    }
  }

  lemma {:induction false} ImpactingIds(s: State, ids: seq<nat>, device: nat, d: Device, capability: nat, facts: C.Facts)
    requires forall i :: 0 <= i < |ids| ==> ids[i] in s.quirks && s.quirks[ids[i]].id == ids[i]
    ensures forall a :: a in Impacting(s, ids, device, d, capability, facts) ==> a.id in ids
  {
    hide Gathered;
    if ids != [] { ImpactingIds(s, ids[1..], device, d, capability, facts); }
  }

  /** The last quirk looked at comes after the place exactly when the place is within the bound. */
  lemma PlaceWithinBound(s: State, ids: seq<nat>, id: nat, n: nat, device: nat, d: Device, capability: nat, facts: C.Facts)
    requires forall i :: 0 <= i < |ids| ==> ids[i] in s.quirks && s.quirks[ids[i]].id == ids[i]
    requires InPlace(ids, id, n) && |Impacting(s, ids, device, d, capability, facts)| >= Places(s)
    ensures |Impacting(s, ids[..n], device, d, capability, facts)| < Places(s) <==>
      id < Impacting(s, ids, device, d, capability, facts)[Places(s) - 1].id
  {
    hide Impacting;
    var a, b := ids[..n], ids[n..];
    assert a + b == ids;
    ImpactingAppend(s, a, b, device, d, capability, facts);
    ImpactingIds(s, a, device, d, capability, facts);
    ImpactingIds(s, b, device, d, capability, facts);
    var before, after := Impacting(s, a, device, d, capability, facts), Impacting(s, b, device, d, capability, facts);
    var last := Impacting(s, ids, device, d, capability, facts)[Places(s) - 1];
    if |before| < Places(s) {
      assert last == after[Places(s) - 1 - |before|];
      assert last.id in b;
    } else {
      assert last == before[Places(s) - 1];
      assert last.id in a;
    }
  }

  /** An identity is left that comes before the last quirk looked at. */
  ghost predicate RoomBefore(s: State, last: nat) {
    exists id: nat :: 0 < id < last && id !in s.quirks
  }

  /**
   * Quirks are visited in the order of their identities. Then no new quirk can raise the answer exactly when the last quirk
   * looked at is not decisive or every identity before it is taken.
   */
  lemma NoNewQuirkInOrderRaisesIff(
    s: State, ids: seq<nat>, device: nat, d: Device, capability: nat, facts: C.Facts, declared: Support, outcome: C.Outcome)
    requires Open(declared, outcome) && Enumerated(s, ids)
    ensures
      (forall q: Quirk, n: nat :: InPlace(ids, q.id, n) ==> !Raises(s, q, ids, n, device, d, capability, facts, declared, outcome)) <==>
      var all := Impacting(s, ids, device, d, capability, facts);
      !(LastIsDecisive(all, Places(s)) && RoomBefore(s, all[Places(s) - 1].id))
  {
    hide Gathered, Judge, AnswerWith, Impacting, LeftBy, ValidQuirk, Leaves, Enumerated;
    EnumeratedFacts(s, ids);
    var all := Impacting(s, ids, device, d, capability, facts);
    forall q: Quirk, n: nat
      | InPlace(ids, q.id, n) && Raises(s, q, ids, n, device, d, capability, facts, declared, outcome)
      ensures LastIsDecisive(all, Places(s)) && RoomBefore(s, all[Places(s) - 1].id)
    {
      assert ids[..n] + ids[n..] == ids;
      NewQuirkRaisesIff(s, q, ids[..n], ids[n..], device, d, capability, facts, declared, outcome);
      PlaceWithinBound(s, ids, q.id, n, device, d, capability, facts);
      assert 0 < q.id by { ValidIdentity(s.config, q); }
    }
    if LastIsDecisive(all, Places(s)) && RoomBefore(s, all[Places(s) - 1].id) {
      var id: nat :| 0 < id < all[Places(s) - 1].id && id !in s.quirks;
      var n := PlaceOf(ids, id);
      HarmlessRaisesAt(s, id, ids, n, device, d, capability, facts, declared, outcome);
      assert InPlace(ids, Harmless(id, capability).id, n);
    }
  }

  lemma ValidIdentity(config: Config, q: Quirk)
    requires ValidQuirk(config, q)
    ensures q.id != 0
  {}

  /** All quirks, each under its own identity, in ascending order. */
  ghost predicate Enumerated(s: State, ids: seq<nat>) {
    && InOrder(ids) && IsEnumeration(ids, s.quirks.Keys)
    && forall id :: id in s.quirks ==> s.quirks[id].id == id
  }

  lemma EnumeratedFacts(s: State, ids: seq<nat>)
    requires Enumerated(s, ids)
    ensures InOrder(ids) && (forall i :: 0 <= i < |ids| ==> ids[i] in s.quirks && s.quirks[ids[i]].id == ids[i])
    ensures forall id :: id !in s.quirks ==> id !in ids
  {}

  lemma HarmlessRaisesAt(
    s: State, id: nat, ids: seq<nat>, n: nat, device: nat, d: Device, capability: nat, facts: C.Facts, declared: Support,
    outcome: C.Outcome)
    requires Open(declared, outcome)
    requires forall i :: 0 <= i < |ids| ==> ids[i] in s.quirks && s.quirks[ids[i]].id == ids[i]
    requires id !in s.quirks && id > 0 && InPlace(ids, id, n)
    requires var all := Impacting(s, ids, device, d, capability, facts);
      LastIsDecisive(all, Places(s)) && id < all[Places(s) - 1].id
    ensures Raises(s, Harmless(id, capability), ids, n, device, d, capability, facts, declared, outcome)
  {
    hide Gathered, Judge, AnswerWith, LeftBy, Leaves, Impacting;
    var q := Harmless(id, capability);
    HarmlessApplies(id, capability, device, d, facts);
    assert ids[..n] + ids[n..] == ids;
    NewQuirkRaisesIff(s, q, ids[..n], ids[n..], device, d, capability, facts, declared, outcome);
    PlaceWithinBound(s, ids, id, n, device, d, capability, facts);
    assert LeftBy(Impacting(s, ids, device, d, capability, facts)[..Places(s) - 1]) <= 2;
  }
}
