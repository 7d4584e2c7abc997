// Quirk applicability (src/quirk.cpp): selectors over the device, its software
// and the environment, combined as a three-valued conjunction.
module Quirks {
  import opened Basics
  import opened Versions
  import opened Conditions

  // Identity tokens are numbers; zero is the token that is not set.
  datatype Hardware = Hardware(vendor: nat, family: nat, model: nat, architecture: nat, revision: string)

  /** A driver or runtime; its identity is zero when it is not known. */
  datatype Component = Component(id: nat, version: string)

  /** Firmware is told apart by its build as well. */
  datatype Firmware = Firmware(id: nat, version: string, build: string)

  datatype Software = Software(
    driver: Component, driverGeneration: nat,
    firmware: Firmware, firmwareGeneration: nat,
    runtime: Component, runtimeGeneration: nat)

  datatype Severity = Informational | Caveat | Degraded | Unusable | Fatal

  function SeverityRank(s: Severity): nat {
    match s
    case Informational => 0
    case Caveat => 1
    case Degraded => 2
    case Unusable => 3
    case Fatal => 4
  }

  datatype RevisionRange = RevisionRange(minimum: string, maximum: string)

  datatype Applicability = Applicability(
    devices: seq<nat>, vendors: seq<nat>, families: seq<nat>, models: seq<nat>, architectures: seq<nat>,
    revisions: seq<string>, revisionRanges: seq<RevisionRange>,
    driverRanges: seq<Range>, firmwareRanges: seq<Range>, runtimeRanges: seq<Range>,
    platformConditions: Condition)

  datatype Verdict = Applies | DoesNotApply | Undetermined

  /** Byte-wise order of two texts, as std::string_view compares them. */
  function CompareText(a: string, b: string): int {
    if a == "" && b == "" then 0
    else if a == "" then -1
    else if b == "" then 1
    else if a[0] < b[0] then -1
    else if a[0] > b[0] then 1
    else CompareText(a[1..], b[1..])
  }

  function CompareRevision(a: string, b: string): int {
    if Parse(a).Valid() && Parse(b).Valid() then Compare(Parse(a), Parse(b)) else CompareText(a, b)
  }

  // ---- what each selector says ---------------------------------------------------

  function Decide(matches: bool): Outcome {
    if matches then Satisfied else Unsatisfied
  }

  /** A list of identities the hardware must be in; an unset identity never matches. */
  function MustBeListed(selected: seq<nat>, id: nat): Outcome {
    Decide(selected == [] || (id != 0 && id in selected))
  }

  function MayBeUnknown(unused: bool, known: bool, matches: bool): Outcome {
    if unused then Satisfied else if !known then Unknown else Decide(matches)
  }

  predicate InRevisionRange(revision: string, range: RevisionRange) {
    CompareRevision(revision, range.minimum) >= 0 && CompareRevision(revision, range.maximum) <= 0
  }

  predicate InSomeRevisionRange(revision: string, ranges: seq<RevisionRange>) {
    exists i :: 0 <= i < |ranges| && InRevisionRange(revision, ranges[i])
  }

  predicate InSomeRange(v: Version, ranges: seq<Range>) {
    exists i :: 0 <= i < |ranges| && ranges[i].Contains(v)
  }

  function VersionSelector(ranges: seq<Range>, observed: string): Outcome {
    MayBeUnknown(ranges == [], Parse(observed).Valid(), InSomeRange(Parse(observed), ranges))
  }

  /** The verdicts of the selectors over the device; an unused selector is satisfied. */
  function HardwareSelectors(a: Applicability, device: nat, hw: Hardware): seq<Outcome> {
    [ Decide(a.devices == [] || device in a.devices),
      MustBeListed(a.vendors, hw.vendor),
      MustBeListed(a.families, hw.family),
      MustBeListed(a.models, hw.model),
      MayBeUnknown(a.architectures == [], hw.architecture != 0, hw.architecture in a.architectures),
      MayBeUnknown(a.revisions == [], hw.revision != "", hw.revision in a.revisions),
      MayBeUnknown(a.revisionRanges == [], hw.revision != "", InSomeRevisionRange(hw.revision, a.revisionRanges)) ]
  }

  function SoftwareSelectors(a: Applicability, sw: Software, facts: Facts): seq<Outcome> {
    [ VersionSelector(a.driverRanges, sw.driver.version),
      VersionSelector(a.firmwareRanges, sw.firmware.version),
      VersionSelector(a.runtimeRanges, sw.runtime.version),
      Evaluate(a.platformConditions, facts) ]
  }

  function Selectors(a: Applicability, device: nat, hw: Hardware, sw: Software, facts: Facts): seq<Outcome> {
    HardwareSelectors(a, device, hw) + SoftwareSelectors(a, sw, facts)
  }

  function VerdictOf(o: Outcome): Verdict {
    match o
    case Unsatisfied => DoesNotApply
    case Unknown => Undetermined
    case _ => Applies
  }

  /** A definite mismatch anywhere wins over any unknown; otherwise an unknown leaves the quirk undetermined. */
  function Applicable(a: Applicability, device: nat, hw: Hardware, sw: Software, facts: Facts): Verdict {
    VerdictOf(Conjunction(Selectors(a, device, hw, sw, facts)))
  }

  // ---- the evaluator ------------------------------------------------------------------

  method MatchRevision(revision: string, ranges: seq<RevisionRange>) returns (matched: bool)
    ensures matched <==> InSomeRevisionRange(revision, ranges)
  {
    for i := 0 to |ranges|
      invariant forall j :: 0 <= j < i ==> !InRevisionRange(revision, ranges[j])
    {
      if InRevisionRange(revision, ranges[i]) { return true; }
    }
    return false;
  }

  method EvaluateRanges(ranges: seq<Range>, observed: string) returns (o: Outcome)
    ensures o == VersionSelector(ranges, observed)
  {
    if ranges == [] { return Satisfied; }
    if observed == "" { return Unknown; }
    var version := ParseVersion(observed);
    if !version.Valid() { return Unknown; }
    for i := 0 to |ranges|
      invariant forall j :: 0 <= j < i ==> !ranges[j].Contains(version)
    {
      if ranges[i].Contains(version) { return Satisfied; }
    }
    return Unsatisfied;
  }

  lemma Mismatch(os: seq<Outcome>, i: nat)
    requires i < |os| && os[i] == Unsatisfied
    ensures Conjunction(os) == Unsatisfied
  {}

  /** The hardware selectors, in the order in which they are checked. */
  method EvaluateHardware(a: Applicability, device: nat, hw: Hardware) returns (o: Outcome)
    ensures o == Conjunction(HardwareSelectors(a, device, hw))
  {
    ghost var os := HardwareSelectors(a, device, hw);
    if a.devices != [] && device !in a.devices { Mismatch(os, 0); return Unsatisfied; }
    if a.vendors != [] && (hw.vendor == 0 || hw.vendor !in a.vendors) { Mismatch(os, 1); return Unsatisfied; }
    if a.families != [] && (hw.family == 0 || hw.family !in a.families) { Mismatch(os, 2); return Unsatisfied; }
    if a.models != [] && (hw.model == 0 || hw.model !in a.models) { Mismatch(os, 3); return Unsatisfied; }
    assert os[..4] == [Satisfied, Satisfied, Satisfied, Satisfied];
    var unknown := false;
    if a.architectures != [] {
      if hw.architecture == 0 {
        unknown := true;
      } else if hw.architecture !in a.architectures {
        Mismatch(os, 4);
        return Unsatisfied;
      }
    }
    assert os[4] == if unknown then Unknown else Satisfied;
    ghost var first := unknown;
    if a.revisions != [] {
      if hw.revision == "" {
        unknown := true;
      } else if hw.revision !in a.revisions {
        Mismatch(os, 5);
        return Unsatisfied;
      }
    }
    ghost var second := a.revisions != [] && hw.revision == "";
    assert os[5] == if second then Unknown else Satisfied;
    if a.revisionRanges != [] {
      if hw.revision == "" {
        unknown := true;
      } else {
        var matched := MatchRevision(hw.revision, a.revisionRanges);
        if !matched { Mismatch(os, 6); return Unsatisfied; }
      }
    }
    assert os == os[..4] + [os[4], os[5], os[6]];
    o := if unknown then Unknown else Satisfied;
  }

  method EvaluateQuirk(a: Applicability, device: nat, hw: Hardware, sw: Software, facts: Facts) returns (verdict: Verdict)
    ensures verdict == Applicable(a, device, hw, sw, facts)
  {
    hide HardwareSelectors, VersionSelector, Evaluate;
    ghost var head, tail := HardwareSelectors(a, device, hw), SoftwareSelectors(a, sw, facts);
    var hardware := EvaluateHardware(a, device, hw);
    if hardware == Unsatisfied { return DoesNotApply; }
    var driver := EvaluateRanges(a.driverRanges, sw.driver.version);
    if driver == Unsatisfied { Mismatch(tail, 0); return DoesNotApply; }
    var firmware := EvaluateRanges(a.firmwareRanges, sw.firmware.version);
    if firmware == Unsatisfied { Mismatch(tail, 1); return DoesNotApply; }
    var runtime := EvaluateRanges(a.runtimeRanges, sw.runtime.version);
    if runtime == Unsatisfied { Mismatch(tail, 2); return DoesNotApply; }
    var platform := EvaluateCondition(a.platformConditions, facts);
    if platform == Unsatisfied { Mismatch(tail, 3); return DoesNotApply; }
    assert tail == [driver, firmware, runtime, platform];
    var unknown := hardware == Unknown || driver == Unknown || firmware == Unknown || runtime == Unknown || platform == Unknown;
    verdict := if unknown then Undetermined else Applies;
  }

  // ---- what the selectors select ------------------------------------------------------------

  /** A text comes before another where they first differ, or as a proper beginning of it. */
  ghost predicate TextBelowAt(a: string, b: string, d: nat) {
    d <= |a| && d < |b| && a[..d] == b[..d] && (d < |a| ==> a[d] < b[d])
  }

  lemma {:induction false} CompareTextIff(a: string, b: string)
    ensures CompareText(a, b) < 0 <==> exists d: nat :: TextBelowAt(a, b, d)
    ensures CompareText(a, b) > 0 <==> exists d: nat :: TextBelowAt(b, a, d)
    ensures CompareText(a, b) == 0 <==> a == b
  {
    if a == "" || b == "" || a[0] != b[0] {
      assert a != b ==> TextBelowAt(a, b, 0) || TextBelowAt(b, a, 0);
      assert a[..0] == b[..0];
      forall d: nat | d > 0 && d <= |a| && d <= |b| && (a == "" || b == "" || a[0] != b[0]) ensures a[..d] != b[..d] {
        assert a[..d][0] == a[0] && b[..d][0] == b[0];
      }
    } else {
      CompareTextIff(a[1..], b[1..]);
      assert a == [a[0]] + a[1..] && b == [b[0]] + b[1..];
      forall d: nat ensures TextBelowAt(a[1..], b[1..], d) <==> TextBelowAt(a, b, d + 1) { TextBelowNext(a, b, d); }
      forall d: nat ensures TextBelowAt(b[1..], a[1..], d) <==> TextBelowAt(b, a, d + 1) { TextBelowNext(b, a, d); }
      forall d: nat | TextBelowAt(a, b, d) || TextBelowAt(b, a, d) ensures d > 0 {}
      if d: nat :| TextBelowAt(a, b, d) { assert TextBelowAt(a[1..], b[1..], d - 1); }
      if d: nat :| TextBelowAt(b, a, d) { assert TextBelowAt(b[1..], a[1..], d - 1); }
    }
  }

  lemma TextBelowNext(a: string, b: string, d: nat)
    requires a != "" && b != "" && a[0] == b[0]
    ensures TextBelowAt(a[1..], b[1..], d) <==> TextBelowAt(a, b, d + 1)
  {
    if d <= |a[1..]| && d <= |b[1..]| {
      assert a[..d + 1] == [a[0]] + a[1..][..d] && b[..d + 1] == [b[0]] + b[1..][..d];
      assert a[..d + 1][1..] == a[1..][..d] && b[..d + 1][1..] == b[1..][..d];
    }
  }

  /** Revisions are ordered as versions when both are versions, and otherwise byte by byte. */
  lemma RevisionOrderIff(a: string, b: string)
    ensures CompareRevision(a, b) < 0 <==>
      if Parse(a).raw != "" && Parse(b).raw != "" then exists d: nat :: BelowAt(Parse(a), Parse(b), d)
      else exists d: nat :: TextBelowAt(a, b, d)
    ensures CompareRevision(a, b) > 0 <==> CompareRevision(b, a) < 0
  {
    CompareTextIff(a, b);
    CompareTextIff(b, a);
    CompareSwaps(Parse(a), Parse(b));
    if Parse(a).Valid() && Parse(b).Valid() { AtLeastIff(Parse(a), Parse(b)); }
  }

  /** An observed version is outside every range; one that is no version is not known to be. */
  predicate OutsideAll(ranges: seq<Range>, observed: string) {
    ranges != [] && Parse(observed).raw != "" && forall i :: 0 <= i < |ranges| ==> !ranges[i].Contains(Parse(observed))
  }

  /** A quirk is ruled out exactly when some selector that is used definitely does not match. */
  lemma DoesNotApplyIff(a: Applicability, device: nat, hw: Hardware, sw: Software, facts: Facts)
    ensures Applicable(a, device, hw, sw, facts) == DoesNotApply <==>
      || (a.devices != [] && device !in a.devices)
      || (a.vendors != [] && (hw.vendor == 0 || hw.vendor !in a.vendors))
      || (a.families != [] && (hw.family == 0 || hw.family !in a.families))
      || (a.models != [] && (hw.model == 0 || hw.model !in a.models))
      || (a.architectures != [] && hw.architecture != 0 && hw.architecture !in a.architectures)
      || (a.revisions != [] && hw.revision != "" && hw.revision !in a.revisions)
      || (a.revisionRanges != [] && hw.revision != "" && forall i :: 0 <= i < |a.revisionRanges| ==>
            CompareRevision(hw.revision, a.revisionRanges[i].minimum) < 0 || CompareRevision(hw.revision, a.revisionRanges[i].maximum) > 0)
      || OutsideAll(a.driverRanges, sw.driver.version)
      || OutsideAll(a.firmwareRanges, sw.firmware.version)
      || OutsideAll(a.runtimeRanges, sw.runtime.version)
      || Evaluate(a.platformConditions, facts) == Unsatisfied
  {
    hide Evaluate, CompareRevision;
    SelectorsConjoined(a, device, hw, sw, facts);
    forall i | 0 <= i < |a.revisionRanges|
      ensures InRevisionRange(hw.revision, a.revisionRanges[i]) <==>
        !(CompareRevision(hw.revision, a.revisionRanges[i].minimum) < 0 || CompareRevision(hw.revision, a.revisionRanges[i].maximum) > 0)
    {}
  }

  /** Each selector by itself decides: one mismatch rules out, and only without any an unknown counts. */
  lemma SelectorsConjoined(a: Applicability, device: nat, hw: Hardware, sw: Software, facts: Facts)
    ensures var head, tail := HardwareSelectors(a, device, hw), SoftwareSelectors(a, sw, facts);
      var verdict := Applicable(a, device, hw, sw, facts);
      && (verdict == DoesNotApply <==> Unsatisfied in head || Unsatisfied in tail)
      && (verdict == Undetermined <==> verdict != DoesNotApply && (Unknown in head || Unknown in tail))
  {
    hide HardwareSelectors, SoftwareSelectors;
  }

  /** Otherwise it stays open exactly when the device does not tell about something that is asked. */
  lemma UndeterminedIff(a: Applicability, device: nat, hw: Hardware, sw: Software, facts: Facts)
    ensures Applicable(a, device, hw, sw, facts) == Undetermined <==>
      && Applicable(a, device, hw, sw, facts) != DoesNotApply
      && ( || (a.architectures != [] && hw.architecture == 0)
           || ((a.revisions != [] || a.revisionRanges != []) && hw.revision == "")
           || (a.driverRanges != [] && Parse(sw.driver.version).raw == "")
           || (a.firmwareRanges != [] && Parse(sw.firmware.version).raw == "")
           || (a.runtimeRanges != [] && Parse(sw.runtime.version).raw == "")
           || Evaluate(a.platformConditions, facts) == Unknown)
  {
    hide Evaluate, CompareRevision;
    SelectorsConjoined(a, device, hw, sw, facts);
  }

  // ---- more facts ------------------------------------------------------------------------

  /** A decided quirk stays decided when facts are added, provided no gate of its platform condition appears. */
  lemma MoreFactsKeepVerdict(a: Applicability, device: nat, hw: Hardware, sw: Software, facts: Facts, more: Facts)
    requires Extends(facts, more) && SameGates(a.platformConditions, facts, more)
    ensures Applicable(a, device, hw, sw, facts) != Undetermined ==>
              Applicable(a, device, hw, sw, more) == Applicable(a, device, hw, sw, facts)
  {
    hide HardwareSelectors, VersionSelector, Evaluate;
    MoreFactsKeepDecisions(a.platformConditions, facts, more);
    DecidedListsAgree(Selectors(a, device, hw, sw, facts), Selectors(a, device, hw, sw, more));
  }
}
