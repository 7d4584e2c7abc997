// How far the rendering of a condition tells what it means (src/condition.cpp):
// the registry compares conditions by their renderings, and a text that holds a
// separator can be read as structure. Without separators it cannot.
module Readability {
  import opened Basics
  import opened Versions
  import opened Conditions

  // ---- the same sense -------------------------------------------------------------------------

  predicate IsSeparator(c: char) { c == '(' || c == ')' || c == ',' || c == '=' || c == '>' }

  predicate IsPlain(s: string) { forall i :: 0 <= i < |s| ==> !IsSeparator(s[i]) }

  /** A tree whose texts hold no separator, and whose logical nodes have the children they need. */
  predicate Readable(c: Condition) {
    && c.Node? && IsPlain(c.key) && IsPlain(c.value)
    && (c.kind == AllOf || c.kind == AnyOf ==> c.children != [])
    && (c.kind == Kind.Not ==> |c.children| == 1)
    && (IsLogical(c.kind) ==> forall i :: 0 <= i < |c.children| ==> Readable(c.children[i]))
  }

  predicate PlainTexts(c: Condition) {
    c.Node? ==> IsPlain(c.key) && IsPlain(c.value) && forall i :: 0 <= i < |c.children| ==> PlainTexts(c.children[i])
  }

  /** Whatever the validator accepts is readable as soon as its texts are plain. */
  lemma {:induction false} AcceptedIsReadable(c: Condition, depth: nat, limits: Limits)
    requires WellFormedTree(c, depth, limits) && PlainTexts(c)
    ensures Readable(c)
    decreases c
  {
    hide IsPlain;
    forall i | 0 <= i < |c.children| ensures Readable(c.children[i]) { AcceptedIsReadable(c.children[i], depth + 1, limits); }
  }

  /** The same logical structure over the same questions asked of the environment. */
  predicate SameSense(a: Condition, b: Condition)
    requires Readable(a) && Readable(b)
    decreases a
  {
    && a.kind == b.kind
    && if IsLogical(a.kind) then
         |a.children| == |b.children| && forall i :: 0 <= i < |a.children| ==> SameSense(a.children[i], b.children[i])
       else FactKey(a.kind, a.key) == FactKey(b.kind, b.key) && (a.kind != Always && a.kind != RequiredFeatureGate ==> a.value == b.value)
  }

  predicate AllReadable(cs: seq<Condition>) { forall i :: 0 <= i < |cs| ==> Readable(cs[i]) }

  predicate SameSenses(a: seq<Condition>, b: seq<Condition>)
    requires AllReadable(a) && AllReadable(b)
  {
    |a| == |b| && forall i :: 0 <= i < |a| ==> SameSense(a[i], b[i])
  }

  // ---- reading a rendering back ----------------------------------------------------------------

  const Stops := {'(', ')', ','}
  const Relations := {'=', '>'}

  predicate Free(s: string, of: set<char>) { forall i :: 0 <= i < |s| ==> s[i] !in of }

  /** What may follow a rendered condition. */
  predicate Follows(x: string) { x != "" ==> x[0] == ')' || x[0] == ',' }

  lemma LongerIsApart(t: string, x: string, u: string, y: string, marks: set<char>)
    requires |t| < |u| && Free(u, marks) && (x != "" ==> x[0] in marks)
    ensures t + x != u + y
  {
    if x != "" {
      assert (t + x)[|t|] == x[0];
      assert (u + y)[|t|] == u[|t|];
    }
  }

  /** A text is split in one way where its first mark is. */
  lemma SplitsOnce(t: string, x: string, u: string, y: string, marks: set<char>)
    requires t + x == u + y && Free(t, marks) && Free(u, marks)
    requires (x != "" ==> x[0] in marks) && (y != "" ==> y[0] in marks)
    ensures t == u && x == y
  {
    if |t| < |u| {
      LongerIsApart(t, x, u, y, marks);
    } else if |u| < |t| {
      LongerIsApart(u, y, t, x, marks);
    } else {
      assert t == (t + x)[..|t|] && u == (u + y)[..|t|] && x == (t + x)[|t|..] && y == (u + y)[|t|..];
    }
  }

  // ---- leaves ------------------------------------------------------------------------------------

  /** What follows the key of a leaf. */
  function Demand(c: Condition): string
    requires c.Node?
  {
    if c.kind == RequiredFeatureGate then "==present" else Relation(c.kind) + c.value
  }

  lemma LeafText(c: Condition)
    requires Readable(c) && !IsLogical(c.kind)
    ensures Describe(c) == if c.kind == Always then "always" else FactKey(c.kind, c.key) + Demand(c)
  {
    var k := FactKey(c.kind, c.key);
    assert k + Relation(c.kind) + c.value == k + (Relation(c.kind) + c.value);
  }

  /** Enough of a fact key to tell the kind by. */
  function Tag(s: string): (char, char, char)
    requires |s| >= 2
  {
    (s[0], s[1], if |s| > 9 then s[9] else ' ')
  }

  function TagOf(kind: Kind): (char, char, char) {
    match kind
    case MinDriverVersion => ('d', 'r', 'r')
    case MinFirmwareVersion => ('f', 'i', 'v')
    case MinRuntimeVersion => ('r', 'u', 'e')
    case MinPlatformGeneration => ('p', 'l', 'g')
    case RequiredOs => ('o', 's', ' ')
    case RequiredKernelVersion => ('k', 'e', 'r')
    case RequiredDeviceMode => ('d', 'e', 'd')
    case RequiredTopology => ('t', 'o', ' ')
    case RequiredPeerHardware => ('p', 'e', 'w')
    case RequiredPartitionState => ('p', 'a', '.')
    case RequiredPrivilege => ('p', 'r', ' ')
    case RequiredDeviceGeneration => ('d', 'e', 'n')
    case RequiredPlatformSetting => ('p', 'l', 's')
    case RequiredFeatureGate => ('f', 'e', 'a')
    case _ => (' ', ' ', ' ')
  }

  predicate HasKey(kind: Kind) { !IsLogical(kind) && kind != Always }

  lemma FactKeyTag(kind: Kind, key: string)
    requires HasKey(kind)
    ensures |FactKey(kind, key)| >= 2 && Tag(FactKey(kind, key)) == TagOf(kind)
  {}

  lemma KeyTellsKind(a: Kind, b: Kind, x: string, y: string)
    requires HasKey(a) && HasKey(b) && FactKey(a, x) == FactKey(b, y)
    ensures a == b
  {
    hide FactKey, Tag;
    FactKeyTag(a, x);
    FactKeyTag(b, y);
  }

  lemma DriverKeysArePlain()
    ensures IsPlain("driver.version") && IsPlain("firmware.version")
  {}

  lemma RuntimeKeysArePlain()
    ensures IsPlain("runtime.version") && IsPlain("kernel.version")
  {}

  lemma VersionKeyIsPlain(kind: Kind)
    requires IsVersionKind(kind)
    ensures IsPlain(FactKey(kind, ""))
  {
    hide IsPlain;
    DriverKeysArePlain();
    RuntimeKeysArePlain();
  }

  lemma GenerationKeyIsPlain(kind: Kind)
    requires IsGenerationKind(kind) || kind == RequiredOs || kind == RequiredTopology
    ensures IsPlain(FactKey(kind, ""))
  {}

  lemma OtherKeyIsPlain(kind: Kind)
    requires kind == RequiredDeviceMode || kind == RequiredPeerHardware || kind == RequiredPartitionState || kind == RequiredPrivilege
    ensures IsPlain(FactKey(kind, ""))
  {}

  lemma SettingKeyIsPlain()
    ensures IsPlain("platform.setting.") && IsPlain("feature.gate.")
  {}

  lemma KeyText(kind: Kind, key: string)
    requires HasKey(kind)
    ensures FactKey(kind, key) ==
      if kind == RequiredPlatformSetting then "platform.setting." + key
      else if kind == RequiredFeatureGate then "feature.gate." + key
      else FactKey(kind, "")
  {}

  lemma KeyIsPlain(kind: Kind, key: string)
    requires HasKey(kind) && IsPlain(key)
    ensures IsPlain(FactKey(kind, key))
  {
    hide FactKey, IsPlain;
    KeyText(kind, key);
    if kind == RequiredPlatformSetting || kind == RequiredFeatureGate {
      SettingKeyIsPlain();
      PlainAppend("platform.setting.", key);
      PlainAppend("feature.gate.", key);
    } else if IsVersionKind(kind) {
      VersionKeyIsPlain(kind);
    } else if IsGenerationKind(kind) || kind == RequiredOs || kind == RequiredTopology {
      GenerationKeyIsPlain(kind);
    } else {
      OtherKeyIsPlain(kind);
    }
  }

  lemma PlainAppend(a: string, b: string)
    requires IsPlain(a) && IsPlain(b)
    ensures IsPlain(a + b)
  {}

  lemma PlainParts(c: Condition)
    requires Readable(c) && HasKey(c.kind)
    ensures Free(FactKey(c.kind, c.key), Relations) && Free(FactKey(c.kind, c.key), Stops) && Free(Demand(c), Stops)
    ensures Demand(c) != "" && Demand(c)[0] in Relations
  {
    hide FactKey;
    KeyIsPlain(c.kind, c.key);
  }

  lemma LeafIsFree(c: Condition)
    requires Readable(c) && !IsLogical(c.kind)
    ensures Free(Describe(c), Stops)
  {
    hide FactKey, Describe, Demand;
    LeafText(c);
    if c.kind != Always { PlainParts(c); }
  }

  lemma LeavesReadBack(a: Condition, b: Condition)
    requires Readable(a) && Readable(b) && !IsLogical(a.kind) && !IsLogical(b.kind) && Describe(a) == Describe(b)
    ensures SameSense(a, b)
  {
    hide FactKey, Describe, Demand;
    LeafText(a);
    LeafText(b);
    if a.kind == Always || b.kind == Always {
      if a.kind != Always { AlwaysIsApart(a); }
      if b.kind != Always { AlwaysIsApart(b); }
      NoKey(a.key, b.key);
    } else {
      PlainParts(a);
      PlainParts(b);
      SplitsOnce(FactKey(a.kind, a.key), Demand(a), FactKey(b.kind, b.key), Demand(b), Relations);
      KeyTellsKind(a.kind, b.kind, a.key, b.key);
      if a.kind != RequiredFeatureGate { DemandTellsValue(a, b); }
    }
  }

  lemma NoKey(x: string, y: string)
    ensures FactKey(Always, x) == FactKey(Always, y)
  {}

  lemma AlwaysIsApart(c: Condition)
    requires Readable(c) && HasKey(c.kind)
    ensures FactKey(c.kind, c.key) + Demand(c) != "always"
  {
    hide FactKey, Demand;
    PlainParts(c);
    if FactKey(c.kind, c.key) + Demand(c) == "always" {
      assert "always" + "" == "always";
      SplitsOnce(FactKey(c.kind, c.key), Demand(c), "always", "", Relations);
    }
  }

  lemma DemandTellsValue(a: Condition, b: Condition)
    requires a.Node? && b.Node? && a.kind == b.kind && a.kind != RequiredFeatureGate && Demand(a) == Demand(b)
    ensures a.value == b.value
  {
    var r := Relation(a.kind);
    assert a.value == (r + a.value)[|r|..] && b.value == (r + b.value)[|r|..];
  }

  // ---- trees -------------------------------------------------------------------------------------

  function Opening(kind: Kind): string {
    if kind == AllOf then "all_of" else if kind == AnyOf then "any_of" else "not"
  }

  lemma OneDescribed(c: Condition)
    ensures DescribeAll([c]) == Describe(c)
  {}

  lemma Enclosed(c: Condition)
    requires Readable(c) && IsLogical(c.kind)
    ensures Describe(c) == Opening(c.kind) + "(" + DescribeAll(c.children) + ")"
  {
    if c.kind == Kind.Not {
      assert c.children == [c.children[0]];
      OneDescribed(c.children[0]);
    }
  }

  lemma Rebracket(head: string, inner: string, x: string)
    ensures head + "(" + inner + ")" + x == head + ("(" + (inner + (")" + x)))
  {}

  lemma CompositeText(c: Condition, x: string)
    requires Readable(c) && IsLogical(c.kind)
    ensures Describe(c) + x == Opening(c.kind) + ("(" + (DescribeAll(c.children) + (")" + x)))
    ensures Free(Opening(c.kind), Stops)
  {
    hide Describe, DescribeAll;
    Enclosed(c);
    Rebracket(Opening(c.kind), DescribeAll(c.children), x);
  }

  function More(cs: seq<Condition>): string { if cs == [] then "" else ", " + DescribeAll(cs) }

  lemma {:induction false} FirstOfAll(cs: seq<Condition>)
    requires cs != []
    ensures DescribeAll(cs) == Describe(cs[0]) + More(cs[1..])
    decreases |cs|
  {
    hide Describe;
    if |cs| > 1 {
      var n := |cs| - 1;
      FirstOfAll(cs[..n]);
      assert cs[..n][1..] == cs[1..][..n - 1] && cs[1..][n - 1] == cs[n];
    }
  }

  /** A rendering with anything that may follow it is read in one way. */
  lemma {:induction false} ReadBack(a: Condition, x: string, b: Condition, y: string)
    requires Readable(a) && Readable(b) && Follows(x) && Follows(y) && Describe(a) + x == Describe(b) + y
    ensures SameSense(a, b) && x == y
    decreases a, 1
  {
    hide Describe, DescribeAll;
    if IsLogical(a.kind) && IsLogical(b.kind) {
      CompositesReadBack(a, x, b, y);
    } else if IsLogical(a.kind) {
      LeafIsFree(b);
      CompositeText(a, x);
      SplitsOnce(Opening(a.kind), "(" + (DescribeAll(a.children) + (")" + x)), Describe(b), y, Stops);
    } else if IsLogical(b.kind) {
      LeafIsFree(a);
      CompositeText(b, y);
      SplitsOnce(Describe(a), x, Opening(b.kind), "(" + (DescribeAll(b.children) + (")" + y)), Stops);
    } else {
      LeafIsFree(a);
      LeafIsFree(b);
      SplitsOnce(Describe(a), x, Describe(b), y, Stops);
      LeavesReadBack(a, b);
    }
  }

  lemma {:induction false} CompositesReadBack(a: Condition, x: string, b: Condition, y: string)
    requires Readable(a) && Readable(b) && IsLogical(a.kind) && IsLogical(b.kind) && Describe(a) + x == Describe(b) + y
    ensures SameSense(a, b) && x == y
    decreases a, 0
  {
    hide Describe, DescribeAll;
    CompositeText(a, x);
    CompositeText(b, y);
    var p, q := DescribeAll(a.children) + (")" + x), DescribeAll(b.children) + (")" + y);
    SplitsOnce(Opening(a.kind), "(" + p, Opening(b.kind), "(" + q, Stops);
    assert ("(" + p)[1..] == p && ("(" + q)[1..] == q;
    assert a.kind == b.kind by { HeadTellsKind(a.kind, b.kind); }
    ReadAllBack(a.children, x, b.children, y);
  }

  lemma HeadTellsKind(a: Kind, b: Kind)
    requires IsLogical(a) && IsLogical(b) && Opening(a) == Opening(b)
    ensures a == b
  {
    assert Opening(a)[0] == Opening(b)[0] && Opening(a)[1] == Opening(b)[1];
  }

  lemma MoreBegins(cs: seq<Condition>, x: string)
    ensures var p := More(cs) + (")" + x);
      if cs == [] then p[0] == ')' && p[1..] == x else p[0] == ',' && p[2..] == DescribeAll(cs) + (")" + x)
  {
    hide DescribeAll;
    if cs != [] { assert More(cs) + (")" + x) == ", " + (DescribeAll(cs) + (")" + x)); }
  }

  lemma Regroup(a: string, b: string, c: string)
    ensures a + b + c == a + (b + c)
  {}

  lemma AllSame(cs: seq<Condition>, ds: seq<Condition>)
    requires AllReadable(cs) && AllReadable(ds) && cs != [] && ds != [] && SameSense(cs[0], ds[0])
    requires AllReadable(cs[1..]) && AllReadable(ds[1..]) && SameSenses(cs[1..], ds[1..])
    ensures SameSenses(cs, ds)
  {
    hide Readable, SameSense;
    forall i | 0 <= i < |cs| ensures SameSense(cs[i], ds[i]) {
      if i > 0 { assert cs[1..][i - 1] == cs[i] && ds[1..][i - 1] == ds[i]; }
    }
  }

  lemma {:induction false} ReadAllBack(cs: seq<Condition>, x: string, ds: seq<Condition>, y: string)
    requires AllReadable(cs) && AllReadable(ds) && cs != [] && ds != []
    requires DescribeAll(cs) + (")" + x) == DescribeAll(ds) + (")" + y)
    ensures SameSenses(cs, ds) && x == y
    decreases cs, |cs|
  {
    hide Describe, DescribeAll, Readable, SameSense, More, SameSenses;
    FirstOfAll(cs);
    FirstOfAll(ds);
    var p, q := More(cs[1..]) + (")" + x), More(ds[1..]) + (")" + y);
    Regroup(Describe(cs[0]), More(cs[1..]), ")" + x);
    Regroup(Describe(ds[0]), More(ds[1..]), ")" + y);
    MoreBegins(cs[1..], x);
    MoreBegins(ds[1..], y);
    ReadBack(cs[0], p, ds[0], q);
    if cs[1..] != [] && ds[1..] != [] {
      ReadAllBack(cs[1..], x, ds[1..], y);
    } else {
      assert SameSenses(cs[1..], ds[1..]) by { NoneDiffer(cs[1..], ds[1..]); }
    }
    AllSame(cs, ds);
  }

  lemma NoneDiffer(cs: seq<Condition>, ds: seq<Condition>)
    requires cs == [] && ds == []
    ensures SameSenses(cs, ds)
  {}

  lemma {:induction false} SameSenseRendersAlike(a: Condition, b: Condition)
    requires Readable(a) && Readable(b) && SameSense(a, b)
    ensures Describe(a) == Describe(b)
    decreases a, 1
  {
    if IsLogical(a.kind) { SameSensesRenderAlike(a.children, b.children); }
  }

  lemma {:induction false} SameSensesRenderAlike(cs: seq<Condition>, ds: seq<Condition>)
    requires AllReadable(cs) && AllReadable(ds) && SameSenses(cs, ds)
    ensures DescribeAll(cs) == DescribeAll(ds)
    ensures |cs| == 1 ==> Describe(cs[0]) == Describe(ds[0])
    decreases cs, 0, |cs|
  {
    hide Describe, Readable, SameSense;
    if cs != [] {
      var n := |cs| - 1;
      SameSensesRenderAlike(cs[..n], ds[..n]);
      SameSenseRendersAlike(cs[n], ds[n]);
    }
  }

  /** Among readable conditions the rendering tells the sense: equal renderings mean the same, and conversely. */
  lemma RendersAlikeIffSameSense(a: Condition, b: Condition)
    requires Readable(a) && Readable(b)
    ensures Describe(a) == Describe(b) <==> SameSense(a, b)
  {
    hide Describe, Readable, SameSense;
    if Describe(a) == Describe(b) {
      assert Describe(a) + "" == Describe(b) + "";
      ReadBack(a, "", b, "");
    } else if SameSense(a, b) {
      SameSenseRendersAlike(a, b);
    }
  }

  // ---- what that means for outcomes ----------------------------------------------------------------

  lemma {:induction false} SameSenseSameOutcome(a: Condition, b: Condition, facts: Facts)
    requires Readable(a) && Readable(b) && SameSense(a, b)
    ensures Evaluate(a, facts) == Evaluate(b, facts)
    decreases a
  {
    hide FactKey;
    if IsLogical(a.kind) {
      forall i | 0 <= i < |a.children| ensures Evaluate(a.children[i], facts) == Evaluate(b.children[i], facts) {
        SameSenseSameOutcome(a.children[i], b.children[i], facts);
      }
      assert Outcomes(a.children, facts) == Outcomes(b.children, facts);
    }
  }

  /** A condition that is not there counts as met. */
  function Counting(outcome: Outcome): Outcome { if outcome == NotApplicable then Satisfied else outcome }

  /** What a record may carry: no condition, or one that the validator accepts. */
  predicate Carried(c: Condition, limits: Limits) { c.Node? ==> Accepted(c, limits) }

  lemma AbsentReadsAlways(c: Condition, facts: Facts)
    requires Readable(c) && Describe(c) == "always"
    ensures Evaluate(c, facts) == Satisfied
  {
    hide Describe;
    var always := Node(Always, "", "", []);
    assert Describe(always) == "always" by { AlwaysReads(); }
    RendersAlikeIffSameSense(c, always);
  }

  lemma AlwaysReads()
    ensures Describe(Node(Always, "", "", [])) == "always" && Describe(Null) == "always"
  {}

  /** Conditions of plain texts that render alike have the same outcome, whatever the facts. */
  lemma RenderedAlikeSameOutcome(a: Condition, b: Condition, limits: Limits, facts: Facts)
    requires Carried(a, limits) && Carried(b, limits) && PlainTexts(a) && PlainTexts(b) && Describe(a) == Describe(b)
    ensures Counting(Evaluate(a, facts)) == Counting(Evaluate(b, facts))
  {
    hide Describe, Readable, WellFormedTree, SameSense, NodeCount, PlainTexts;
    AlwaysReads();
    if a.Node? { AcceptedIsReadable(a, 1, limits); }
    if b.Node? { AcceptedIsReadable(b, 1, limits); }
    if a.Node? && b.Node? {
      RendersAlikeIffSameSense(a, b);
      SameSenseSameOutcome(a, b, facts);
    } else if a.Node? {
      AbsentReadsAlways(a, facts);
    } else if b.Node? {
      AbsentReadsAlways(b, facts);
    }
  }

  // ---- a separator in a text ---------------------------------------------------------------------------

  function Os(name: Text): Condition { Node(RequiredOs, "", name, []) }

  const OneName := Node(AllOf, "", "", [Os("a, os.name==b")])
  const TwoNames := Node(AllOf, "", "", [Os("a"), Os("b")])

  lemma NamesAreAccepted(limits: Limits)
    requires limits.maxNodes >= 3 && limits.maxChildren >= 2 && limits.maxNameLength >= 13
    ensures Accepted(OneName, limits) && Accepted(TwoNames, limits)
  {
    assert OneName.children[..0] == [] && TwoNames.children[..1] == [Os("a")] && TwoNames.children[..1][..0] == [];
    assert NodeCounts(TwoNames.children[..1]) == NodeCounts([]) + NodeCount(Os("a"));
    assert |"a, os.name==b"| == 13;
  }

  lemma NamesRenderAlike()
    ensures Describe(OneName) == Describe(TwoNames)
  {
    assert TwoNames.children[..1] == [Os("a")];
    var one, two := Describe(Os("a, os.name==b")), Describe(Os("a")) + ", " + Describe(Os("b"));
    assert one == "os.name==" + "a, os.name==b" && Describe(Os("a")) == "os.name==" + "a" && Describe(Os("b")) == "os.name==" + "b";
    assert one == two;
  }

  /** Two validated conditions that render alike, of which one environment meets the first and misses the second. */
  lemma RenderingCollides(limits: Limits) returns (facts: Facts)
    requires limits.maxNodes >= 3 && limits.maxChildren >= 2 && limits.maxNameLength >= 13
    ensures Accepted(OneName, limits) && Accepted(TwoNames, limits) && Describe(OneName) == Describe(TwoNames)
    ensures IsLowered(facts) && Evaluate(OneName, facts) == Satisfied && Evaluate(TwoNames, facts) == Unsatisfied
  {
    hide Accepted, Describe;
    NamesAreAccepted(limits);
    NamesRenderAlike();
    facts := map["os.name" := "a, os.name==b"];
    assert Lower("os.name") == "os.name" && Lower("a, os.name==b") == "a, os.name==b";
    assert Evaluate(Os("a, os.name==b"), facts) == Satisfied;
    assert Lower("a")[0] == 'a' && |Lower("a")| == 1;
    assert Evaluate(Os("a"), facts) == Unsatisfied;
    assert Outcomes(OneName.children, facts) == [Satisfied];
    assert Outcomes(TwoNames.children, facts)[0] == Unsatisfied;
  }
}
