// Conditional capability (src/condition.cpp): predicate trees, their
// three-valued evaluation against caller-supplied facts, and the structural
// validator that walks a tree with an explicit stack.
module Conditions {
  import opened Basics
  import opened Versions

  datatype Kind =
    | Always | MinDriverVersion | MinFirmwareVersion | MinRuntimeVersion | MinPlatformGeneration
    | RequiredOs | RequiredKernelVersion | RequiredDeviceMode | RequiredTopology | RequiredPeerHardware
    | RequiredPartitionState | RequiredPlatformSetting | RequiredPrivilege | RequiredDeviceGeneration
    | RequiredFeatureGate | AllOf | AnyOf | Not

  /** A shared pointer to a condition node; `Null` is the null pointer. */
  datatype Condition = Null | Node(kind: Kind, key: Text, value: Text, children: seq<Condition>)

  datatype Outcome = Satisfied | Unsatisfied | Unknown | NotApplicable

  type Facts = map<string, string>

  // ---- canonical text ---------------------------------------------------------

  function LowerChar(c: char): char {
    if 'A' <= c <= 'Z' then c + ('a' - 'A') else c
  }

  function Lower(s: string): string {
    seq(|s|, i requires 0 <= i < |s| => LowerChar(s[i]))
  }

  /** A caller-supplied environment; keys and values are stored in lower case. */
  class EnvironmentContext {
    var facts: Facts

    ghost predicate Valid()
      reads this
    {
      IsLowered(facts)
    }

    constructor ()
      ensures Valid() && facts == map[]
    {
      facts := map[];
    }

    method Set(key: string, value: string)
      requires Valid()
      modifies this
      ensures Valid() && facts == old(facts)[Lower(key) := Lower(value)]
    {
      LowerIdempotent(key);
      LowerIdempotent(value);
      facts := facts[Lower(key) := Lower(value)];
    }
  }

  ghost predicate IsLowered(facts: Facts) {
    forall k :: k in facts ==> Lower(k) == k && Lower(facts[k]) == facts[k]
  }

  lemma LowerIdempotent(s: string)
    ensures Lower(Lower(s)) == Lower(s)
  {}

  // ---- leaf predicates ----------------------------------------------------------

  function FactKey(kind: Kind, key: string): string {
    match kind
    case MinDriverVersion => "driver.version"
    case MinFirmwareVersion => "firmware.version"
    case MinRuntimeVersion => "runtime.version"
    case MinPlatformGeneration => "platform.generation"
    case RequiredOs => "os.name"
    case RequiredKernelVersion => "kernel.version"
    case RequiredDeviceMode => "device.mode"
    case RequiredTopology => "topology"
    case RequiredPeerHardware => "peer.hardware"
    case RequiredPartitionState => "partition.state"
    case RequiredPrivilege => "privilege"
    case RequiredDeviceGeneration => "device.generation"
    case RequiredPlatformSetting => "platform.setting." + key
    case RequiredFeatureGate => "feature.gate." + key
    case _ => ""
  }

  predicate IsVersionKind(kind: Kind) {
    kind == MinDriverVersion || kind == MinFirmwareVersion || kind == MinRuntimeVersion || kind == RequiredKernelVersion
  }

  predicate IsGenerationKind(kind: Kind) {
    kind == MinPlatformGeneration || kind == RequiredDeviceGeneration
  }

  predicate IsLogical(kind: Kind) {
    kind == AllOf || kind == AnyOf || kind == Not
  }

  predicate IsSpace(c: char) {
    c == ' ' || 9 <= c as int <= 13
  }

  function SkipSpace(s: string): string {
    if s != "" && IsSpace(s[0]) then SkipSpace(s[1..]) else s
  }

  /** std::stoull in base ten: leading blanks, an optional sign, a digit run. */
  function ParseU64(s: string): Option<nat> {
    var t := SkipSpace(s);
    var negative := t != "" && t[0] == '-';
    var u := if t != "" && (t[0] == '-' || t[0] == '+') then t[1..] else t;
    var n := RunLength(u);
    if n == 0 || Decimal(u[..n]) > MaxU64 then None
    else Some(if negative then (MaxU64 + 1 - Decimal(u[..n])) % (MaxU64 + 1) else Decimal(u[..n]))
  }

  function Truth(b: bool): Outcome {
    if b then Satisfied else Unsatisfied
  }

  /** The outcome of a leaf, given its observed fact. */
  function EvaluateFact(kind: Kind, required: string, observed: string): Outcome {
    if IsVersionKind(kind) then
      if !Parse(required).Valid() || !Parse(observed).Valid() then Unknown
      else Truth(Compare(Parse(observed), Parse(required)) >= 0)
    else if IsGenerationKind(kind) then
      match (ParseU64(required), ParseU64(observed))
      case (Some(r), Some(a)) => Truth(a >= r)
      case _ => Unknown
    else if kind == RequiredFeatureGate then Satisfied
    else Truth(Lower(observed) == Lower(required))
  }

  function EvaluateLeaf(kind: Kind, key: string, required: string, facts: Facts): Outcome {
    if kind == Always then Satisfied
    else if FactKey(kind, key) in facts then EvaluateFact(kind, required, facts[FactKey(kind, key)])
    else if kind == RequiredFeatureGate then Unsatisfied
    else Unknown
  }

  // ---- evaluation -----------------------------------------------------------------

  function Negation(o: Outcome): Outcome {
    match o
    case Satisfied => Unsatisfied
    case Unsatisfied => Satisfied
    case _ => o
  }

  /** Strong Kleene conjunction and disjunction; an outcome that is not applicable counts for neither side. */
  function Conjunction(os: seq<Outcome>): Outcome {
    if Unsatisfied in os then Unsatisfied else if Unknown in os then Unknown else Satisfied
  }

  function Disjunction(os: seq<Outcome>): Outcome {
    if Satisfied in os then Satisfied else if Unknown in os then Unknown else Unsatisfied
  }

  function Evaluate(c: Condition, facts: Facts): Outcome
    decreases c, 1
  {
    if c.Null? then NotApplicable
    else match c.kind
      case AllOf => Conjunction(Outcomes(c.children, facts))
      case AnyOf => Disjunction(Outcomes(c.children, facts))
      case Not => if c.children == [] then Unknown else Negation(Evaluate(c.children[0], facts))
      case _ => EvaluateLeaf(c.kind, c.key, c.value, facts)
  }

  function Outcomes(cs: seq<Condition>, facts: Facts): (os: seq<Outcome>)
    ensures |os| == |cs|
    decreases cs, 0
  {
    seq(|cs|, i requires 0 <= i < |cs| => Evaluate(cs[i], facts))
  }

  method EvaluateCondition(c: Condition, facts: Facts) returns (outcome: Outcome)
    ensures outcome == Evaluate(c, facts)
    decreases c, 1
  {
    if c.Null? { return NotApplicable; }
    match c.kind {
      case AllOf =>
        outcome := EvaluateAllOf(c.children, facts);
      case AnyOf =>
        outcome := EvaluateAnyOf(c.children, facts);
      case Not =>
        if c.children == [] { return Unknown; }
        var child := EvaluateCondition(c.children[0], facts);
        outcome := Negation(child);
      case _ =>
        outcome := EvaluateLeaf(c.kind, c.key, c.value, facts);
    }
  }

  method EvaluateAllOf(children: seq<Condition>, facts: Facts) returns (outcome: Outcome)
    ensures outcome == Conjunction(Outcomes(children, facts))
    decreases children, 0
  {
    ghost var os := Outcomes(children, facts);
    var anyUnknown, anyUnsatisfied := false, false;
    for i := 0 to |children|
      invariant anyUnsatisfied <==> Unsatisfied in os[..i]
      invariant anyUnknown <==> Unknown in os[..i]
    {
      var child := EvaluateCondition(children[i], facts);
      assert os[..i + 1] == os[..i] + [child];
      if child == Unsatisfied { anyUnsatisfied := true; } else if child == Unknown { anyUnknown := true; }
    }
    assert os[..|children|] == os;
    outcome := if anyUnsatisfied then Unsatisfied else if anyUnknown then Unknown else Satisfied;
  }

  method EvaluateAnyOf(children: seq<Condition>, facts: Facts) returns (outcome: Outcome)
    ensures outcome == Disjunction(Outcomes(children, facts))
    decreases children, 0
  {
    ghost var os := Outcomes(children, facts);
    var anyUnknown, anySatisfied := false, false;
    for i := 0 to |children|
      invariant anySatisfied <==> Satisfied in os[..i]
      invariant anyUnknown <==> Unknown in os[..i]
    {
      var child := EvaluateCondition(children[i], facts);
      assert os[..i + 1] == os[..i] + [child];
      if child == Satisfied { anySatisfied := true; } else if child == Unknown { anyUnknown := true; }
    }
    assert os[..|children|] == os;
    outcome := if anySatisfied then Satisfied else if anyUnknown then Unknown else Unsatisfied;
  }

  function Negated(c: Condition): Condition { Node(Not, "", "", [c]) }

  lemma NegatedOutcome(c: Condition, facts: Facts)
    ensures Evaluate(Negated(c), facts) == Negation(Evaluate(c, facts))
  {
    assert Negated(c).children[0] == c;
  }

  lemma NegatedLists(os: seq<Outcome>, ns: seq<Outcome>)
    requires |os| == |ns| && forall i :: 0 <= i < |os| ==> ns[i] == Negation(os[i])
    ensures Negation(Conjunction(os)) == Disjunction(ns) && Negation(Disjunction(os)) == Conjunction(ns)
  {
    forall o: Outcome ensures o in os <==> Negation(o) in ns {
      if o in os {
        var i :| 0 <= i < |os| && os[i] == o;
        assert ns[i] == Negation(o);
      }
      if Negation(o) in ns {
        var i :| 0 <= i < |ns| && ns[i] == Negation(o);
        assert Negation(Negation(os[i])) == os[i];
      }
    }
    assert Unsatisfied in os <==> Negation(Unsatisfied) in ns;
    assert Satisfied in os <==> Negation(Satisfied) in ns;
    assert Unknown in os <==> Negation(Unknown) in ns;
  }

  /** De Morgan's laws hold for every list of children, nulls and the empty list included. */
  lemma DeMorgan(children: seq<Condition>, facts: Facts)
    ensures var negated := seq(|children|, i requires 0 <= i < |children| => Negated(children[i]));
            && Evaluate(Negated(Node(AllOf, "", "", children)), facts) == Evaluate(Node(AnyOf, "", "", negated), facts)
            && Evaluate(Negated(Node(AnyOf, "", "", children)), facts) == Evaluate(Node(AllOf, "", "", negated), facts)
  {
    var negated := seq(|children|, i requires 0 <= i < |children| => Negated(children[i]));
    forall i | 0 <= i < |children| ensures Evaluate(negated[i], facts) == Negation(Evaluate(children[i], facts)) {
      NegatedOutcome(children[i], facts);
    }
    NegatedOutcome(Node(AllOf, "", "", children), facts);
    NegatedOutcome(Node(AnyOf, "", "", children), facts);
    NegatedLists(Outcomes(children, facts), Outcomes(negated, facts));
  }

  // ---- more facts never change a decided answer -----------------------------------------

  ghost predicate Extends(facts: Facts, more: Facts) {
    forall k :: k in facts ==> k in more && more[k] == facts[k]
  }

  /** No feature gate of the tree is present in one environment and absent in the other. */
  ghost predicate SameGates(c: Condition, facts: Facts, more: Facts) {
    c.Node? ==>
      && (c.kind == RequiredFeatureGate ==> (FactKey(c.kind, c.key) in facts <==> FactKey(c.kind, c.key) in more))
      && forall i :: 0 <= i < |c.children| ==> SameGates(c.children[i], facts, more)
  }

  predicate GateFree(c: Condition) {
    c.Node? ==> c.kind != RequiredFeatureGate && forall i :: 0 <= i < |c.children| ==> GateFree(c.children[i])
  }

  lemma {:induction false} GateFreeSameGates(c: Condition, facts: Facts, more: Facts)
    requires GateFree(c)
    ensures SameGates(c, facts, more)
  {
    if c.Node? {
      forall i | 0 <= i < |c.children| ensures SameGates(c.children[i], facts, more) {
        GateFreeSameGates(c.children[i], facts, more);
      }
    }
  }

  lemma DecidedListsAgree(os: seq<Outcome>, ns: seq<Outcome>)
    requires |os| == |ns| && forall i :: 0 <= i < |os| ==> os[i] != Unknown ==> ns[i] == os[i]
    ensures Conjunction(os) != Unknown ==> Conjunction(ns) == Conjunction(os)
    ensures Disjunction(os) != Unknown ==> Disjunction(ns) == Disjunction(os)
  {
    forall o: Outcome | o in os && o != Unknown ensures o in ns {
      var i :| 0 <= i < |os| && os[i] == o;
      assert ns[i] == o;
    }
    if Unknown !in os { assert os == ns; }
  }

  lemma {:induction false} MoreFactsKeepDecisions(c: Condition, facts: Facts, more: Facts)
    requires Extends(facts, more) && SameGates(c, facts, more)
    ensures Evaluate(c, facts) != Unknown ==> Evaluate(c, more) == Evaluate(c, facts)
  {
    if c.Node? && IsLogical(c.kind) {
      forall i | 0 <= i < |c.children|
        ensures Evaluate(c.children[i], facts) != Unknown ==> Evaluate(c.children[i], more) == Evaluate(c.children[i], facts)
      {
        MoreFactsKeepDecisions(c.children[i], facts, more);
      }
      DecidedListsAgree(Outcomes(c.children, facts), Outcomes(c.children, more));
    }
  }

  /** An absent gate is unsatisfied, not unknown, so a lone gate keeps its outcome only while it stays absent or present. */
  lemma GateDecidedByPresence(key: Text, value: Text, facts: Facts, more: Facts)
    requires Extends(facts, more)
    ensures var gate := Node(RequiredFeatureGate, key, value, []);
            Evaluate(gate, facts) == Evaluate(gate, more) <==> SameGates(gate, facts, more)
  {
  }

  function GateKey(key: string): string { "feature.gate." + key }

  /** No feature gate is present in one environment only. */
  ghost predicate NoNewGate(facts: Facts, more: Facts) {
    forall key: Text :: GateKey(key) in more ==> GateKey(key) in facts
  }

  lemma {:induction false} NoNewGateSameGates(c: Condition, facts: Facts, more: Facts)
    requires Extends(facts, more) && NoNewGate(facts, more)
    ensures SameGates(c, facts, more)
  {
    if c.Node? {
      assert FactKey(RequiredFeatureGate, c.key) == GateKey(c.key);
      forall i | 0 <= i < |c.children| ensures SameGates(c.children[i], facts, more) {
        NoNewGateSameGates(c.children[i], facts, more);
      }
    }
  }

  ghost predicate KeepsDecisions(facts: Facts, more: Facts) {
    forall c: Condition :: Evaluate(c, facts) != Unknown ==> Evaluate(c, more) == Evaluate(c, facts)
  }

  lemma NewGateUndoesDecision(facts: Facts, more: Facts, key: Text)
    requires GateKey(key) in more && GateKey(key) !in facts
    ensures !KeepsDecisions(facts, more)
  {
    var gate := Node(RequiredFeatureGate, key, "", []);
    assert FactKey(RequiredFeatureGate, key) == GateKey(key);
    assert Evaluate(gate, facts) == Unsatisfied && Evaluate(gate, more) == Satisfied;
  }

  /** Added facts keep every decision of every tree exactly when none of them is a feature gate. */
  lemma DecisionsKeptIffNoNewGate(facts: Facts, more: Facts)
    requires Extends(facts, more)
    ensures KeepsDecisions(facts, more) <==> NoNewGate(facts, more)
  {
    hide Evaluate;
    if NoNewGate(facts, more) {
      forall c: Condition | Evaluate(c, facts) != Unknown ensures Evaluate(c, more) == Evaluate(c, facts) {
        NoNewGateSameGates(c, facts, more);
        MoreFactsKeepDecisions(c, facts, more);
      }
    } else {
      var key: Text :| GateKey(key) in more && GateKey(key) !in facts;
      NewGateUndoesDecision(facts, more, key);
    }
  }

  // ---- names are not lowered when they are looked up ---------------------------------------

  lemma LowerAppend(a: string, b: string)
    ensures Lower(a + b) == Lower(a) + Lower(b)
  {}

  /** A key under a lower-case prefix is stored by some context exactly when it is in lower case itself. */
  lemma LoweredKey(prefix: string, key: string)
    requires Lower(prefix) == prefix
    ensures Lower(prefix + key) == prefix + key <==> Lower(key) == key
  {
    LowerAppend(prefix, key);
    assert (prefix + Lower(key))[|prefix|..] == Lower(key) && (prefix + key)[|prefix|..] == key;
  }

  lemma LowerPrefixes()
    ensures Lower("feature.gate.") == "feature.gate." && Lower("platform.setting.") == "platform.setting."
  {}

  /** Some facts decide the condition. */
  ghost predicate CanBe(c: Condition, o: Outcome) {
    exists facts: Facts :: IsLowered(facts) && Evaluate(c, facts) == o
  }

  lemma LoweredFact(key: string)
    requires Lower(key) == key
    ensures IsLowered(map[key := ""])
  {}

  /** A feature gate can be met exactly when its name is in lower case. */
  lemma GateCanBeMetIff(key: Text, value: Text)
    ensures CanBe(Node(RequiredFeatureGate, key, value, []), Satisfied) <==> Lower(key) == key
  {
    hide Lower;
    var gate := Node(RequiredFeatureGate, key, value, []);
    LowerPrefixes();
    LoweredKey("feature.gate.", key);
    if Lower(key) == key {
      LoweredFact(GateKey(key));
      assert Evaluate(gate, map[GateKey(key) := ""]) == Satisfied;
    }
    forall facts: Facts | IsLowered(facts) && Evaluate(gate, facts) == Satisfied ensures Lower(key) == key {
      assert GateKey(key) in facts;
    }
  }

  /** A required platform setting can be met or missed, rather than unknown, under the same condition. */
  lemma SettingCanBeDecidedIff(key: Text, value: Text)
    ensures var setting := Node(RequiredPlatformSetting, key, value, []);
            CanBe(setting, Satisfied) || CanBe(setting, Unsatisfied) <==> Lower(key) == key
  {
    hide Lower;
    var setting := Node(RequiredPlatformSetting, key, value, []);
    LowerPrefixes();
    LoweredKey("platform.setting.", key);
    if Lower(key) == key {
      LoweredFact("platform.setting." + key);
      assert Evaluate(setting, map["platform.setting." + key := ""]) in {Satisfied, Unsatisfied};
    }
    forall facts: Facts | IsLowered(facts) && Evaluate(setting, facts) in {Satisfied, Unsatisfied} ensures Lower(key) == key {
      assert "platform.setting." + key in facts;
    }
  }

  /** In particular a gate with an upper-case letter is never present. */
  lemma UpperCaseGateNeverPresent(key: Text, value: Text, facts: Facts, i: nat)
    requires IsLowered(facts) && i < |key| && 'A' <= key[i] <= 'Z'
    ensures Evaluate(Node(RequiredFeatureGate, key, value, []), facts) == Unsatisfied
    ensures Evaluate(Node(RequiredPlatformSetting, key, value, []), facts) == Unknown
  {
    var gate, setting := "feature.gate." + key, "platform.setting." + key;
    assert gate[13 + i] == key[i] && setting[17 + i] == key[i];
    assert Lower(gate)[13 + i] != gate[13 + i] && Lower(setting)[17 + i] != setting[17 + i];
  }

  // ---- raising an observed version --------------------------------------------------------

  predicate NotFree(c: Condition) {
    c.Node? ==> c.kind != Not && forall i :: 0 <= i < |c.children| ==> NotFree(c.children[i])
  }

  lemma VersionKeysAreDistinct(a: Kind, b: Kind, key: string)
    requires IsVersionKind(a) && FactKey(a, "") == FactKey(b, key)
    ensures a == b || b == RequiredFeatureGate
  {
    var k := FactKey(a, "");
    assert k[0] == 'd' || k[0] == 'f' || k[0] == 'r' || k[0] == 'k';
    assert |k| == 14 || |k| == 16 || |k| == 15;
    assert FactKey(RequiredPlatformSetting, key)[0] == 'p';
  }

  lemma SatisfiedListsAgree(os: seq<Outcome>, ns: seq<Outcome>)
    requires |os| == |ns| && forall i :: 0 <= i < |os| ==> os[i] == Satisfied || os[i] == NotApplicable ==> ns[i] == os[i]
    ensures Conjunction(os) == Satisfied ==> Conjunction(ns) == Satisfied
    ensures Disjunction(os) == Satisfied ==> Disjunction(ns) == Satisfied
  {
    if Satisfied in os {
      var i :| 0 <= i < |os| && os[i] == Satisfied;
      assert ns[i] == Satisfied;
    }
    if Conjunction(os) == Satisfied {
      forall i | 0 <= i < |os| ensures ns[i] == os[i] { assert os[i] in os; }
      assert os == ns;
    }
  }

  lemma {:induction false} RaisedVersionKeepsSatisfied(c: Condition, facts: Facts, axis: Kind, raised: string)
    requires NotFree(c) && IsVersionKind(axis) && FactKey(axis, "") in facts
    requires Compare(Parse(raised), Parse(facts[FactKey(axis, "")])) >= 0
    ensures var before := Evaluate(c, facts);
            before == Satisfied || before == NotApplicable ==> Evaluate(c, facts[FactKey(axis, "") := raised]) == before
  {
    var more := facts[FactKey(axis, "") := raised];
    if c.Node? {
      if c.kind == AllOf || c.kind == AnyOf {
        forall i | 0 <= i < |c.children|
          ensures var before := Evaluate(c.children[i], facts);
                  before == Satisfied || before == NotApplicable ==> Evaluate(c.children[i], more) == before
        {
          RaisedVersionKeepsSatisfied(c.children[i], facts, axis, raised);
        }
        SatisfiedListsAgree(Outcomes(c.children, facts), Outcomes(c.children, more));
      } else {
        RaisedLeaf(c.kind, c.key, c.value, facts, axis, raised);
      }
    }
  }

  lemma RaisedLeaf(kind: Kind, key: string, required: string, facts: Facts, axis: Kind, raised: string)
    requires IsVersionKind(axis) && FactKey(axis, "") in facts
    requires Compare(Parse(raised), Parse(facts[FactKey(axis, "")])) >= 0
    ensures EvaluateLeaf(kind, key, required, facts) == Satisfied ==>
              EvaluateLeaf(kind, key, required, facts[FactKey(axis, "") := raised]) == Satisfied
  {
    var k := FactKey(axis, "");
    if kind != Always && FactKey(kind, key) == k {
      VersionKeysAreDistinct(axis, kind, key);
      if kind == axis && EvaluateLeaf(kind, key, required, facts) == Satisfied {
        CompareSwaps(Parse(raised), Parse(facts[k]));
        CompareSwaps(Parse(facts[k]), Parse(required));
        CompareSwaps(Parse(raised), Parse(required));
        CompareTransitive(Parse(required), Parse(facts[k]), Parse(raised));
      }
    }
  }

  // ---- structural validation -----------------------------------------------------------------

  datatype Limits = Limits(
    maxNodes: nat, maxChildren: nat, maxRecordDepth: nat, maxNameLength: nat,
    maxRecordFields: nat, maxFeatureEntries: nat, maxArchitectureEntries: nat, maxMetadataBytes: nat)

  function MaxConditionDepth(limits: Limits): nat { limits.maxRecordDepth + 2 }

  /** The rule each node obeys on its own. */
  predicate WellFormedNode(c: Condition, limits: Limits) {
    && c.Node?
    && |c.children| <= limits.maxChildren
    && |c.key| <= limits.maxNameLength && |c.value| <= limits.maxNameLength
    && match c.kind
       case AllOf => c.children != [] && c.key == "" && c.value == ""
       case AnyOf => c.children != [] && c.key == "" && c.value == ""
       case Not => |c.children| == 1
       case Always => c.children == []
       case RequiredFeatureGate => c.key != ""
       case RequiredPlatformSetting => c.key != "" && c.value != ""
       case _ =>
         && c.value != ""
         && (IsVersionKind(c.kind) || c.kind == MinPlatformGeneration ==> IsParseable(c.value))
         && (!IsVersionKind(c.kind) && c.kind != MinPlatformGeneration ==> c.children == [])
  }

  /** Every node well-formed, none null, and no node deeper than the bound. */
  predicate WellFormedTree(c: Condition, depth: nat, limits: Limits) {
    && depth <= MaxConditionDepth(limits)
    && WellFormedNode(c, limits)
    && forall i :: 0 <= i < |c.children| ==> WellFormedTree(c.children[i], depth + 1, limits)
  }

  function NodeCount(c: Condition): (n: nat)
    ensures n > 0
    decreases c, 1
  {
    if c.Null? then 1 else 1 + NodeCounts(c.children)
  }

  function NodeCounts(cs: seq<Condition>): nat
    decreases cs, 0
  {
    if cs == [] then 0 else NodeCounts(cs[..|cs| - 1]) + NodeCount(cs[|cs| - 1])
  }

  predicate Accepted(c: Condition, limits: Limits) {
    NodeCount(c) <= limits.maxNodes && WellFormedTree(c, 1, limits)
  }

  datatype Frame = Frame(node: Condition, depth: nat)

  function PendingNodes(stack: seq<Frame>): nat {
    if stack == [] then 0 else PendingNodes(stack[..|stack| - 1]) + NodeCount(stack[|stack| - 1].node)
  }

  ghost predicate PendingWellFormed(stack: seq<Frame>, limits: Limits) {
    forall i :: 0 <= i < |stack| ==> WellFormedTree(stack[i].node, stack[i].depth, limits)
  }

  method ValidateCondition(root: Condition, limits: Limits) returns (ok: bool)
    ensures ok <==> Accepted(root, limits)
  {
    var stack := [Frame(root, 1)];
    var visited := 0;
    assert stack[..0] == [];
    while stack != []
      invariant visited + PendingNodes(stack) == NodeCount(root)
      invariant visited <= limits.maxNodes
      invariant WellFormedTree(root, 1, limits) <==> PendingWellFormed(stack, limits)
      decreases PendingNodes(stack)
    {
      var frame := stack[|stack| - 1];
      var rest := stack[..|stack| - 1];
      visited := visited + 1;
      if visited > limits.maxNodes { return false; }
      if frame.depth > MaxConditionDepth(limits) { return false; }
      if !WellFormedNode(frame.node, limits) { return false; }
      assert PendingWellFormed(stack, limits) <==>
        PendingWellFormed(rest, limits) && WellFormedTree(frame.node, frame.depth, limits);
      stack := PushChildren(rest, frame);
      PushedFrames(rest, stack, frame, limits);
    }
    return true;
  }

  method PushChildren(rest: seq<Frame>, frame: Frame) returns (stack: seq<Frame>)
    requires frame.node.Node?
    ensures |stack| == |rest| + |frame.node.children| && stack[..|rest|] == rest
    ensures forall j :: 0 <= j < |frame.node.children| ==> stack[|rest| + j] == Frame(frame.node.children[j], frame.depth + 1)
    ensures PendingNodes(stack) == PendingNodes(rest) + NodeCounts(frame.node.children)
  {
    var children := frame.node.children;
    stack := rest;
    for i := 0 to |children|
      invariant |stack| == |rest| + i && stack[..|rest|] == rest
      invariant forall j :: 0 <= j < i ==> stack[|rest| + j] == Frame(children[j], frame.depth + 1)
      invariant PendingNodes(stack) == PendingNodes(rest) + NodeCounts(children[..i])
    {
      assert (stack + [Frame(children[i], frame.depth + 1)])[..|stack|] == stack;
      assert children[..i + 1][..i] == children[..i];
      stack := stack + [Frame(children[i], frame.depth + 1)];
    }
    assert children[..|children|] == children;
  }

  lemma PushedFrames(rest: seq<Frame>, stack: seq<Frame>, frame: Frame, limits: Limits)
    requires frame.depth <= MaxConditionDepth(limits) && WellFormedNode(frame.node, limits)
    requires |stack| == |rest| + |frame.node.children| && stack[..|rest|] == rest
    requires forall j :: 0 <= j < |frame.node.children| ==> stack[|rest| + j] == Frame(frame.node.children[j], frame.depth + 1)
    ensures PendingWellFormed(stack, limits) <==>
            PendingWellFormed(rest, limits) && WellFormedTree(frame.node, frame.depth, limits)
  {
    var n := |rest|;
    assert forall i :: 0 <= i < n ==> stack[i] == rest[i];
    if PendingWellFormed(stack, limits) {
      forall j | 0 <= j < |frame.node.children| ensures WellFormedTree(frame.node.children[j], frame.depth + 1, limits) {
        assert stack[n + j].node == frame.node.children[j];
      }
    }
    if WellFormedTree(frame.node, frame.depth, limits) && PendingWellFormed(rest, limits) {
      forall i | 0 <= i < |stack| ensures WellFormedTree(stack[i].node, stack[i].depth, limits) {
        if i >= n { assert stack[i] == Frame(frame.node.children[i - n], frame.depth + 1); }
      }
    }
  }

  // ---- rendering and search -------------------------------------------------------------------

  function Relation(kind: Kind): string {
    if IsVersionKind(kind) || IsGenerationKind(kind) then ">=" else "=="
  }

  /** The canonical rendering by which the registry compares conditions. */
  function Describe(c: Condition): string
    decreases c, 1
  {
    if c.Null? || c.kind == Always then "always"
    else match c.kind
      case AllOf => "all_of(" + DescribeAll(c.children) + ")"
      case AnyOf => "any_of(" + DescribeAll(c.children) + ")"
      case Not => "not(" + (if c.children == [] then "" else Describe(c.children[0])) + ")"
      case RequiredFeatureGate => FactKey(c.kind, c.key) + "==present"
      case _ => FactKey(c.kind, c.key) + Relation(c.kind) + c.value
  }

  function DescribeAll(cs: seq<Condition>): string
    decreases cs, 0
  {
    if cs == [] then ""
    else if |cs| == 1 then Describe(cs[0])
    else DescribeAll(cs[..|cs| - 1]) + ", " + Describe(cs[|cs| - 1])
  }

  /** Some node of the tree is of this kind. */
  predicate Mentions(c: Condition, axis: Kind) {
    c.Node? && (c.kind == axis || exists i :: 0 <= i < |c.children| && Mentions(c.children[i], axis))
  }

  ghost predicate SomePending(stack: seq<Frame>, axis: Kind) {
    exists i :: 0 <= i < |stack| && Mentions(stack[i].node, axis)
  }

  method TreeContains(root: Condition, axis: Kind) returns (found: bool)
    ensures found <==> Mentions(root, axis)
  {
    var stack := [Frame(root, 1)];
    assert stack[0].node == root;
    assert stack[..0] == [];
    while stack != []
      invariant Mentions(root, axis) <==> SomePending(stack, axis)
      decreases PendingNodes(stack)
    {
      var frame := stack[|stack| - 1];
      var rest := stack[..|stack| - 1];
      SplitPending(stack, axis);
      if frame.node.Null? {
        stack := rest;
      } else if frame.node.kind == axis {
        return true;
      } else {
        stack := PushChildren(rest, frame);
        PushedPending(rest, stack, frame, axis);
      }
    }
    return false;
  }

  lemma SplitPending(stack: seq<Frame>, axis: Kind)
    requires stack != []
    ensures SomePending(stack, axis) <==> SomePending(stack[..|stack| - 1], axis) || Mentions(stack[|stack| - 1].node, axis)
  {
    var rest := stack[..|stack| - 1];
    if SomePending(stack, axis) {
      var i :| 0 <= i < |stack| && Mentions(stack[i].node, axis);
      if i < |rest| { assert rest[i] == stack[i]; }
    }
    if SomePending(rest, axis) {
      var i :| 0 <= i < |rest| && Mentions(rest[i].node, axis);
      assert stack[i] == rest[i];
    }
  }

  lemma PushedKeepsPending(rest: seq<Frame>, stack: seq<Frame>, frame: Frame, axis: Kind)
    requires frame.node.Node? && frame.node.kind != axis
    requires |stack| == |rest| + |frame.node.children| && stack[..|rest|] == rest
    requires forall j :: 0 <= j < |frame.node.children| ==> stack[|rest| + j] == Frame(frame.node.children[j], frame.depth + 1)
    requires SomePending(rest, axis) || Mentions(frame.node, axis)
    ensures SomePending(stack, axis)
  {
    var n, children := |rest|, frame.node.children;
    if SomePending(rest, axis) {
      var i :| 0 <= i < n && Mentions(rest[i].node, axis);
      assert stack[i] == stack[..n][i];
    } else {
      var j :| 0 <= j < |children| && Mentions(children[j], axis);
      assert stack[n + j].node == children[j];
    }
  }

  lemma PushedPending(rest: seq<Frame>, stack: seq<Frame>, frame: Frame, axis: Kind)
    requires frame.node.Node? && frame.node.kind != axis
    requires |stack| == |rest| + |frame.node.children| && stack[..|rest|] == rest
    requires forall j :: 0 <= j < |frame.node.children| ==> stack[|rest| + j] == Frame(frame.node.children[j], frame.depth + 1)
    ensures SomePending(stack, axis) <==> SomePending(rest, axis) || Mentions(frame.node, axis)
  {
    var n, children := |rest|, frame.node.children;
    if SomePending(stack, axis) {
      var i :| 0 <= i < |stack| && Mentions(stack[i].node, axis);
      if i < n {
        assert stack[i] == stack[..n][i];
      } else {
        assert stack[n + (i - n)] == Frame(children[i - n], frame.depth + 1);
      }
    } else if SomePending(rest, axis) || Mentions(frame.node, axis) {
      PushedKeepsPending(rest, stack, frame, axis);
    }
  }
}
