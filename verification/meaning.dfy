// What a condition says: each kind of leaf in terms of the fact it reads, the
// connectives in terms of their children, and the validator and the search in
// terms of the nodes of the tree.
module Meaning {
  import opened Basics
  import opened Versions
  import opened Conditions

  // ---- connectives -------------------------------------------------------------------

  /** Unsatisfied on any unsatisfied child, otherwise unknown on any unknown one; a null child counts as met. */
  lemma AllOfIff(key: Text, value: Text, children: seq<Condition>, facts: Facts)
    ensures var o := Evaluate(Node(AllOf, key, value, children), facts);
      && (o == Unsatisfied <==> exists i :: 0 <= i < |children| && Evaluate(children[i], facts) == Unsatisfied)
      && (o == Satisfied <==>
            forall i :: 0 <= i < |children| ==> Evaluate(children[i], facts) == Satisfied || Evaluate(children[i], facts) == NotApplicable)
      && o != NotApplicable
  {
    var os := Outcomes(children, facts);
    forall i | 0 <= i < |children| ensures os[i] == Evaluate(children[i], facts) && os[i] in os {}
    if Unsatisfied in os { var i :| 0 <= i < |os| && os[i] == Unsatisfied; assert Evaluate(children[i], facts) == Unsatisfied; }
    if Unknown in os { var i :| 0 <= i < |os| && os[i] == Unknown; assert Evaluate(children[i], facts) == Unknown; }
  }

  /** Satisfied on any satisfied child, otherwise unknown on any unknown one; a null child counts as missed. */
  lemma AnyOfIff(key: Text, value: Text, children: seq<Condition>, facts: Facts)
    ensures var o := Evaluate(Node(AnyOf, key, value, children), facts);
      && (o == Satisfied <==> exists i :: 0 <= i < |children| && Evaluate(children[i], facts) == Satisfied)
      && (o == Unsatisfied <==>
            forall i :: 0 <= i < |children| ==> Evaluate(children[i], facts) == Unsatisfied || Evaluate(children[i], facts) == NotApplicable)
      && o != NotApplicable
  {
    var os := Outcomes(children, facts);
    forall i | 0 <= i < |children| ensures os[i] == Evaluate(children[i], facts) && os[i] in os {}
    if Satisfied in os { var i :| 0 <= i < |os| && os[i] == Satisfied; assert Evaluate(children[i], facts) == Satisfied; }
    if Unknown in os { var i :| 0 <= i < |os| && os[i] == Unknown; assert Evaluate(children[i], facts) == Unknown; }
  }

  /** Negation swaps the two decided outcomes; the first child alone counts. */
  lemma NotIff(key: Text, value: Text, child: Condition, rest: seq<Condition>, facts: Facts)
    ensures var o, inner := Evaluate(Node(Not, key, value, [child] + rest), facts), Evaluate(child, facts);
      && (o == Satisfied <==> inner == Unsatisfied) && (o == Unsatisfied <==> inner == Satisfied)
      && (o == Unknown <==> inner == Unknown)
    ensures Evaluate(Null, facts) == NotApplicable && Evaluate(Node(Always, key, value, rest), facts) == Satisfied
  {
    assert ([child] + rest)[0] == child;
  }

  // ---- leaves ------------------------------------------------------------------------------

  /** The observed version is asked for under this name. */
  predicate ReadsVersion(kind: Kind, name: string) {
    || (kind == MinDriverVersion && name == "driver.version")
    || (kind == MinFirmwareVersion && name == "firmware.version")
    || (kind == MinRuntimeVersion && name == "runtime.version")
    || (kind == RequiredKernelVersion && name == "kernel.version")
  }

  /** A version requirement is missed exactly when the observed version is somewhere below it, and unknown when either is no version. */
  lemma VersionLeafIff(kind: Kind, name: string, key: Text, required: Text, children: seq<Condition>, facts: Facts)
    requires ReadsVersion(kind, name)
    ensures var o := Evaluate(Node(kind, key, required, children), facts);
      if name !in facts || Parse(facts[name]).raw == "" || Parse(required).raw == "" then o == Unknown
      else
        && (o == Unsatisfied <==> exists d: nat :: BelowAt(Parse(facts[name]), Parse(required), d))
        && (o == Satisfied <==> forall d: nat :: !BelowAt(Parse(facts[name]), Parse(required), d))
  {
    if name in facts && Parse(facts[name]).Valid() && Parse(required).Valid() {
      AtLeastIff(Parse(facts[name]), Parse(required));
    }
  }

  /** The observed generation is asked for under this name. */
  predicate ReadsGeneration(kind: Kind, name: string) {
    || (kind == MinPlatformGeneration && name == "platform.generation")
    || (kind == RequiredDeviceGeneration && name == "device.generation")
  }

  /** A generation requirement is met when the observed number is no smaller, and unknown when either is no number. */
  lemma GenerationLeafIff(kind: Kind, name: string, key: Text, required: Text, children: seq<Condition>, facts: Facts)
    requires ReadsGeneration(kind, name)
    ensures var o := Evaluate(Node(kind, key, required, children), facts);
      if name !in facts || ParseU64(facts[name]) == None || ParseU64(required) == None then o == Unknown
      else o == if ParseU64(facts[name]).value >= ParseU64(required).value then Satisfied else Unsatisfied
  {
    hide ParseU64;
  }

  /** The observed text is asked for under this name; a platform setting has its own. */
  predicate ReadsText(kind: Kind, key: string, name: string) {
    || (kind == RequiredOs && name == "os.name")
    || (kind == RequiredDeviceMode && name == "device.mode")
    || (kind == RequiredTopology && name == "topology")
    || (kind == RequiredPeerHardware && name == "peer.hardware")
    || (kind == RequiredPartitionState && name == "partition.state")
    || (kind == RequiredPrivilege && name == "privilege")
    || (kind == RequiredPlatformSetting && name == "platform.setting." + key)
  }

  /** Two characters are the same letter, or the same character. */
  predicate SameLetter(a: char, b: char) {
    a == b || ('A' <= a <= 'Z' && b as int == a as int + 32) || ('A' <= b <= 'Z' && a as int == b as int + 32)
  }

  predicate SameText(a: string, b: string) {
    |a| == |b| && forall i :: 0 <= i < |a| ==> SameLetter(a[i], b[i])
  }

  /** A text requirement is met when the observed text is the same but for the case of letters. */
  lemma TextLeafIff(kind: Kind, name: string, key: Text, required: Text, children: seq<Condition>, facts: Facts)
    requires ReadsText(kind, key, name)
    ensures var o := Evaluate(Node(kind, key, required, children), facts);
      if name !in facts then o == Unknown else o == if SameText(facts[name], required) then Satisfied else Unsatisfied
  {
    hide Lower, SameText, ReadsText, FactKey, EvaluateFact;
    TextNames(kind, key, name);
    if name in facts {
      SameTextIff(facts[name], required);
      TextFact(kind, key, name, required, facts[name]);
    }
  }

  lemma TextNames(kind: Kind, key: string, name: string)
    requires ReadsText(kind, key, name)
    ensures FactKey(kind, key) == name && kind != Always && !IsLogical(kind) && kind != RequiredFeatureGate
  {}

  lemma TextFact(kind: Kind, key: string, name: string, required: string, observed: string)
    requires ReadsText(kind, key, name)
    ensures EvaluateFact(kind, required, observed) == Truth(Lower(observed) == Lower(required))
  {}

  lemma SameTextIff(a: string, b: string)
    ensures Lower(a) == Lower(b) <==> SameText(a, b)
  {
    forall x: char, y: char ensures LowerChar(x) == LowerChar(y) <==> SameLetter(x, y) {}
    if Lower(a) == Lower(b) {
      assert |Lower(a)| == |a| && |Lower(b)| == |b|;
      forall i | 0 <= i < |a| ensures SameLetter(a[i], b[i]) { assert Lower(a)[i] == Lower(b)[i]; }
    }
  }

  /** A feature gate is met when it is present, whatever its value, and missed, not unknown, when it is absent. */
  lemma GateLeafIff(key: Text, value: Text, children: seq<Condition>, facts: Facts)
    ensures Evaluate(Node(RequiredFeatureGate, key, value, children), facts) ==
      if "feature.gate." + key in facts then Satisfied else Unsatisfied
  {}

  // ---- renderings ------------------------------------------------------------------------------

  /** A leaf is rendered as what it reads, how it compares and what it asks. */
  lemma LeafIsDescribed(kind: Kind, name: string, key: Text, value: Text, children: seq<Condition>)
    ensures ReadsVersion(kind, name) || ReadsGeneration(kind, name) ==>
      Describe(Node(kind, key, value, children)) == name + ">=" + value
    ensures ReadsText(kind, key, name) ==> Describe(Node(kind, key, value, children)) == name + "==" + value
    ensures Describe(Node(RequiredFeatureGate, key, value, children)) == "feature.gate." + key + "==present"
    ensures Describe(Null) == Describe(Node(Always, key, value, children)) == "always"
  {
    hide ReadsVersion, ReadsGeneration, ReadsText;
    if ReadsVersion(kind, name) { VersionNames(kind, key, name); }
    if ReadsGeneration(kind, name) { GenerationNames(kind, key, name); }
    if ReadsText(kind, key, name) { TextNames(kind, key, name); TextRelation(kind, key, name); }
  }

  lemma VersionNames(kind: Kind, key: string, name: string)
    requires ReadsVersion(kind, name)
    ensures FactKey(kind, key) == name && Relation(kind) == ">=" && kind != Always && !IsLogical(kind) && kind != RequiredFeatureGate
  {}

  lemma GenerationNames(kind: Kind, key: string, name: string)
    requires ReadsGeneration(kind, name)
    ensures FactKey(kind, key) == name && Relation(kind) == ">=" && kind != Always && !IsLogical(kind) && kind != RequiredFeatureGate
  {}

  lemma TextRelation(kind: Kind, key: string, name: string)
    requires ReadsText(kind, key, name)
    ensures Relation(kind) == "=="
  {}

  /** The renderings of the children, one after the other. */
  function Listed(cs: seq<Condition>): string {
    if cs == [] then "" else if |cs| == 1 then Describe(cs[0]) else Describe(cs[0]) + ", " + Listed(cs[1..])
  }

  lemma {:induction false} ListedIsDescribed(cs: seq<Condition>)
    ensures DescribeAll(cs) == Listed(cs)
    decreases |cs|
  {
    hide Describe;
    if |cs| > 2 {
      var n := |cs| - 1;
      ListedIsDescribed(cs[1..]);
      ListedIsDescribed(cs[..n]);
      assert cs[..n][1..] == cs[1..][..n - 1] && cs[1..][n - 1] == cs[n];
      ListedIsDescribed(cs[1..n]);
      assert cs[..n][1..] == cs[1..n];
    } else if |cs| == 2 {
      assert cs[..1] == [cs[0]] && cs[1..] == [cs[1]];
    }
  }

  /** A group is rendered as the list of its children, a negation as its child. */
  lemma GroupIsDescribed(key: Text, value: Text, children: seq<Condition>, child: Condition)
    ensures Describe(Node(AllOf, key, value, children)) == "all_of(" + Listed(children) + ")"
    ensures Describe(Node(AnyOf, key, value, children)) == "any_of(" + Listed(children) + ")"
    ensures Describe(Node(Not, key, value, [child])) == "not(" + Describe(child) + ")"
  {
    hide Listed, DescribeAll;
    ListedIsDescribed(children);
    assert [child][0] == child;
  }

  // ---- nodes -----------------------------------------------------------------------------------

  /** The node reached by going to these children, one after the other. */
  function NodeAt(c: Condition, path: seq<nat>): Option<Condition>
    decreases path
  {
    if path == [] then Some(c)
    else if c.Node? && path[0] < |c.children| then NodeAt(c.children[path[0]], path[1..])
    else None
  }

  predicate KindAt(c: Condition, path: seq<nat>, axis: Kind) {
    NodeAt(c, path).Some? && NodeAt(c, path).value.Node? && NodeAt(c, path).value.kind == axis
  }

  /** The search finds an axis exactly when some node has it. */
  lemma {:induction false} MentionsIff(c: Condition, axis: Kind)
    ensures Mentions(c, axis) <==> exists path :: KindAt(c, path, axis)
  {
    if c.Node? {
      if c.kind == axis { assert KindAt(c, [], axis); }
      if i :| 0 <= i < |c.children| && Mentions(c.children[i], axis) {
        MentionsIff(c.children[i], axis);
        var path :| KindAt(c.children[i], path, axis);
        assert ([i] + path)[1..] == path;
        assert KindAt(c, [i] + path, axis);
      }
      if path :| KindAt(c, path, axis) {
        if path != [] { FoundBelow(c, path, axis); }
      }
    }
  }

  lemma {:induction false} FoundBelow(c: Condition, path: seq<nat>, axis: Kind)
    requires KindAt(c, path, axis)
    ensures Mentions(c, axis)
    decreases path
  {
    if path != [] {
      assert KindAt(c.children[path[0]], path[1..], axis);
      FoundBelow(c.children[path[0]], path[1..], axis);
    }
  }

  /** What the validator asks of a node by itself, kind by kind. */
  predicate Sound(c: Condition, limits: Limits) {
    && c.Node?
    && |c.children| <= limits.maxChildren && |c.key| <= limits.maxNameLength && |c.value| <= limits.maxNameLength
    && (c.kind == AllOf || c.kind == AnyOf ==> |c.children| >= 1 && c.key == "" && c.value == "")
    && (c.kind == Not ==> |c.children| == 1)
    && (c.kind == Always ==> |c.children| == 0)
    && (c.kind == RequiredFeatureGate ==> c.key != "")
    && (c.kind == RequiredPlatformSetting ==> c.key != "" && c.value != "")
    && (c.kind in {MinDriverVersion, MinFirmwareVersion, MinRuntimeVersion, RequiredKernelVersion, MinPlatformGeneration} ==>
          |c.value| <= 128 && exists i :: 0 <= i < |c.value| && '0' <= c.value[i] <= '9')
    && (c.kind in {RequiredOs, RequiredDeviceMode, RequiredTopology, RequiredPeerHardware} ==> c.value != "" && |c.children| == 0)
    && (c.kind in {RequiredPartitionState, RequiredPrivilege, RequiredDeviceGeneration} ==> c.value != "" && |c.children| == 0)
  }

  lemma SoundIff(c: Condition, limits: Limits)
    ensures WellFormedNode(c, limits) <==> Sound(c, limits)
  {
    if c.Node? {
      if i :| 0 <= i < |c.value| && IsDigit(c.value[i]) { assert '0' <= c.value[i] <= '9'; }
      if i :| 0 <= i < |c.value| && '0' <= c.value[i] <= '9' { assert IsDigit(c.value[i]); }
    }
  }

  /** Every node of the tree is sound, and none is below the depth bound. */
  ghost predicate AllSound(c: Condition, depth: nat, limits: Limits) {
    forall path :: NodeAt(c, path).Some? ==> depth + |path| <= limits.maxRecordDepth + 2 && Sound(NodeAt(c, path).value, limits)
  }

  lemma {:induction false} WellFormedIff(c: Condition, depth: nat, limits: Limits)
    ensures WellFormedTree(c, depth, limits) <==> AllSound(c, depth, limits)
  {
    hide WellFormedNode, Sound, AllSound;
    SoundIff(c, limits);
    SoundIsNode(c, limits);
    if c.Node? {
      forall i | 0 <= i < |c.children|
        ensures WellFormedTree(c.children[i], depth + 1, limits) <==> AllSound(c.children[i], depth + 1, limits)
      {
        WellFormedIff(c.children[i], depth + 1, limits);
      }
    }
    AllSoundIff(c, depth, limits);
  }

  lemma AllSoundIff(c: Condition, depth: nat, limits: Limits)
    ensures AllSound(c, depth, limits) <==>
      && depth <= limits.maxRecordDepth + 2 && Sound(c, limits)
      && forall i :: 0 <= i < |c.children| ==> AllSound(c.children[i], depth + 1, limits)
  {
    hide Sound;
    SoundIsNode(c, limits);
    assert NodeAt(c, []) == Some(c);
    if AllSound(c, depth, limits) {
      forall i, path | 0 <= i < |c.children| && NodeAt(c.children[i], path).Some?
        ensures depth + 1 + |path| <= limits.maxRecordDepth + 2 && Sound(NodeAt(c.children[i], path).value, limits)
      {
        assert ([i] + path)[1..] == path;
        assert NodeAt(c, [i] + path) == NodeAt(c.children[i], path);
      }
    }
    if Sound(c, limits) && forall i :: 0 <= i < |c.children| ==> AllSound(c.children[i], depth + 1, limits) {
      forall path | path != [] && NodeAt(c, path).Some?
        ensures depth + |path| <= limits.maxRecordDepth + 2 && Sound(NodeAt(c, path).value, limits)
      {
        assert NodeAt(c.children[path[0]], path[1..]) == NodeAt(c, path);
        assert AllSound(c.children[path[0]], depth + 1, limits);
      }
    }
  }

  lemma SoundIsNode(c: Condition, limits: Limits)
    ensures Sound(c, limits) ==> c.Node?
  {}

  /** The nodes of a tree, by the ways to reach them. */
  ghost predicate AreNodes(c: Condition, paths: set<seq<nat>>) {
    forall path :: path in paths <==> NodeAt(c, path).Some?
  }

  /** The nodes of the first `n` children. */
  ghost predicate AreNodesOf(cs: seq<Condition>, n: nat, paths: set<seq<nat>>)
    requires n <= |cs|
  {
    forall path :: path in paths <==> path != [] && path[0] < n && NodeAt(cs[path[0]], path[1..]).Some?
  }

  lemma {:induction false} CountedNodes(c: Condition) returns (paths: set<seq<nat>>)
    ensures AreNodes(c, paths) && |paths| == NodeCount(c)
    decreases c, 1
  {
    if c.Null? { return {[]}; }
    var below := CountedChildren(c.children, |c.children|);
    assert c.children[..|c.children|] == c.children;
    paths := below + {[]};
    assert [] !in below;
  }

  lemma {:induction false} CountedChildren(cs: seq<Condition>, n: nat) returns (paths: set<seq<nat>>)
    requires n <= |cs|
    ensures AreNodesOf(cs, n, paths) && |paths| == NodeCounts(cs[..n])
    decreases cs, 0, n
  {
    if n == 0 { return {}; }
    var front := CountedChildren(cs, n - 1);
    var last := CountedNodes(cs[n - 1]);
    var moved := set path | path in last :: [n - 1] + path;
    SameSize(last, moved, n - 1);
    assert front !! moved;
    assert |front + moved| == |front| + |moved|;
    assert cs[..n][..n - 1] == cs[..n - 1] && cs[..n][n - 1] == cs[n - 1];
    paths := front + moved;
    OneMoreChild(cs, n, front, last, moved);
  }

  lemma OneMoreChild(cs: seq<Condition>, n: nat, front: set<seq<nat>>, last: set<seq<nat>>, moved: set<seq<nat>>)
    requires 1 <= n <= |cs| && AreNodesOf(cs, n - 1, front) && AreNodes(cs[n - 1], last)
    requires moved == set path | path in last :: [n - 1] + path
    requires forall path :: path in moved ==> path != [] && path[0] == n - 1 && path[1..] in last
    ensures AreNodesOf(cs, n, front + moved)
  {
    hide NodeAt;
    forall path: seq<nat> | path != [] && path[0] == n - 1 && path[1..] in last ensures path in moved {
      assert path == [n - 1] + path[1..];
    }
  }

  lemma {:induction false} SameSize(paths: set<seq<nat>>, moved: set<seq<nat>>, k: nat)
    requires moved == set path | path in paths :: [k] + path
    ensures |moved| == |paths| && forall path :: path in moved ==> path != [] && path[0] == k && path[1..] in paths
    decreases |paths|
  {
    forall path | path in moved ensures path != [] && path[0] == k && path[1..] in paths {
      var p :| p in paths && path == [k] + p;
      assert path[1..] == p;
    }
    if p :| p in paths {
      var rest := paths - {p};
      var movedRest := set path | path in rest :: [k] + path;
      SameSize(rest, movedRest, k);
      assert moved == movedRest + {[k] + p};
      assert ([k] + p)[1..] == p;
    }
  }

  /** The validator accepts exactly the trees of bounded size and depth whose nodes are all there and sound. */
  lemma AcceptedIff(c: Condition, limits: Limits)
    ensures Accepted(c, limits) <==>
      && (exists paths :: AreNodes(c, paths) && |paths| <= limits.maxNodes)
      && (forall path :: NodeAt(c, path).Some? ==>
            1 + |path| <= limits.maxRecordDepth + 2 && Sound(NodeAt(c, path).value, limits))
  {
    hide Sound, WellFormedTree, NodeAt;
    WellFormedIff(c, 1, limits);
    var paths := CountedNodes(c);
    if other :| AreNodes(c, other) && |other| <= limits.maxNodes { assert other == paths; }
  }
}
