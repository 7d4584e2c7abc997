# Hardware capability registry: a verified model

The registry collects evidence about what hardware devices can do. Publishers
register, get a boot identity from the coordinator, and publish capability
records, device observations and quirks. The registry decides which evidence is
still current, which source wins a contradiction, whether conditions and quirks
leave a capability usable, what to forget when its history is full, and what
survives a restart. This project models that logic in Dafny and proves what it
guarantees over every input, every reachable state and every run.

## How the model is laid out

| file | contents |
|---|---|
| `basics.dfy`, `wire.dfy` | options, bounded texts; the little-endian byte writer and reader |
| `crc.dfy`, `framing.dfy` | the table-driven CRC-32 against its bit-by-bit definition; the incremental frame decoder |
| `versions.dfy`, `conditions.dfy`, `readability.dfy`, `quirks.dfy` | version parsing and order; condition trees: evaluation, validation, rendering, and how far the rendering tells what is meant; quirk applicability |
| `spelling.dfy`, `meaning.dfy` | what texts are read as versions and numbers; what each kind of condition asks, and the validator in terms of the nodes of a tree |
| `codec.dfy`, `layout.dfy` | the tree and value codecs, written and read; the bytes of numbers, texts, frames, conditions and values, and the check value of the checksum |
| `values.dfy`, `rendering.dfy` | validation of capability values, and which validated values are read back; their equality and rendering |
| `model.dfy`, `steps.dfy` | the registry as a value, the questions asked of it, and every operation as a function from state to state |
| `eviction.dfy`, `invariants.dfy`, `admission.dfy` | bounded retention; the invariant and the growth order; admitting a capability record |
| `restart.dfy`, `recovery.dfy` | export and import of the durable state, and what an import of an export knows |
| `history.dfy`, `safety.dfy`, `replay.dfy` | runs of operations and what no run can undo |
| `observing.dfy`, `aging.dfy`, `forgetting.dfy` | what an observation of a device moves; which flags evidence carries later and when it is current; what stays stored |
| `sending.dfy`, `admitting.dfy`, `catalogue.dfy` | registrations, senders and sequence numbers; how a capability record is admitted; quirks and facts |
| `retaining.dfy`, `standstill.dfy` | how far eviction goes; what a full history comes to |
| `returning.dfy` | which durable states are loaded, and what comes back |
| `runs.dfy`, `scenarios.dfy` | building runs operation by operation; runs that show what the general results leave open |
| `restartbound.dfy`, `supersession.dfy` | when some run leads to a state whose clean restart is refused; what becomes of the superseded flag in a restart |
| `ranking.dfy` | the rankings of sources, precisions and provenances; which record answers, and every part of the answer |
| `resolution.dfy`, `quirkbound.dfy`, `evidence.dfy` | what a resolved answer means; when a new quirk raises it; what accepting a publication achieves |
| `validation.dfy`, `persistence.dfy`, `registry.dfy` | the registry object: the source's loops and field updates, each proved to take the abstract state where `steps.dfy` and `restart.dfy` say |
| `coordination.dfy`, `dispatching.dfy`, `coordinator.dfy` | the event loop as functions; what it does seen from outside; the coordinator object that performs it |

Three conventions hold throughout. Identity tokens, schema names, titles and
timestamps are natural numbers compared and ordered as such; zero is "not set".
Generations, boots, epochs and serials are natural numbers. The registry's lock
makes every public method one atomic step, so concurrency is the interleaving
of steps.

The classes (`CapabilityRegistry`, `CapabilityCoordinator`, `FrameDecoder`,
`ByteWriter`, `ByteReader`, `EnvironmentContext`) have the fields of their C++
counterparts and change them in the same order. Each method's contract equates
the new abstract state with a function of the old one; the lemmas are about
those functions.

The one state invariant is `Invariants.Inv`: a boot is fenced only once it was
assigned, every replaced boot is fenced, and a publisher is registered exactly
when its boot is not fenced; records never come from the future of their
device, publisher or epoch; along a source slot serials increase and every
record but the newest carries the superseded flag; a capability generation
stands for one claim and is covered by its key's generation; the evidence count
is the number of stored records and within its bound; the per-device index
lists exactly the keys; and the references of compatibility facts resolve among
what has been registered. `Invariants.Grows` is the order in which states evolve
within one process.

Statements about runs are about a `History.Run` that is a `History.Behaviour`:
operations, replies and states of a registry that starts fresh, in which only
assigned boots are retired and every restart loads the exported state into a
fresh registry successfully. They hold between any two points of any such run.
`Coordination.LoopBehaviour` says the same of iterations of the event loop.

## Where the code falls short of a plain reading

Each of these is proved: the failure by an instance or a general construction,
and the exact condition under which the code delivers.

- Fencing is forever only if no boot is retired before it has been assigned
  (`Safety.FencingIsForever` against `Safety.RetiringAheadBreaksFencing`). The
  coordinator only retires boots it was given, which `Coordination.SessionsOk`
  states and every frame and iteration keeps.
- Runtime staleness is kept exactly as long as the device stays on the same
  runtime (`Safety.RuntimeFlagIsKeptIff`, `Safety.RuntimeFlagCanClear`);
  `Scenarios.StaleEvidenceReturns` is a run in which evidence that went stale
  is current again.
- A registry accepts the export of another one exactly when the devices name no
  more hardware families than allowed and every reference of every stored
  compatibility fact, withdrawn ones included, is to a device, a platform or a
  name that some device still has (`Recovery.ImportOfExport`). A refresh changes
  the hardware identity of a device but not what has been registered, so either
  may fail: every export of every run is accepted exactly when nothing can be
  registered, or there may be as many families as devices and no fact at all,
  unlike by default (`RestartBound.AlwaysRestartsIff`,
  `RestartBound.RestartIsRefused`). Withdrawing the fact does not help
  (`RestartBound.WithdrawingDoesNotHelp`).
- The superseded flag is not written. After a restart a record carries it
  exactly when a record of the same boot, source class, native reference and
  precision is written after it (`Supersession.SupersededAfterImport`,
  `Supersession.FlagAfterRestart`), whatever it was before:
  `Scenarios.OverruledClaimReturns` is a run in which an overruled claim is
  current again after a clean start.
- Conditions are compared by their renderings. Validated conditions whose texts
  hold no separator render alike exactly when they ask the same, and then have
  the same outcome (`Readability.RendersAlikeIffSameSense`,
  `Readability.RenderedAlikeSameOutcome`); with a separator they may not
  (`Readability.RenderingCollides`), and a different claim is dropped as a
  repetition (`Scenarios.DifferentClaimIsDropped`).
- A new quirk never raises an answer while the impacting quirks fit the query
  bound (`Resolution.NewQuirkNeverRaises`). Past it, it does exactly when it is
  visited within the bound, the bound had been reached, the last quirk looked at
  alone held the answer down, and the new one leaves more
  (`QuirkBound.NewQuirkRaisesIff`); some quirk can exactly when the last one
  looked at is decisive (`QuirkBound.NoNewQuirkRaisesIff`) and, quirks being
  visited by identity, an identity before it is free
  (`QuirkBound.NoNewQuirkInOrderRaisesIff`). `Scenarios.HarmlessQuirkUnblocks`
  is a run in which an informational quirk takes the answer from blocked to
  supported.
- A capability value or condition tree is read back equal exactly when its
  nesting fits the decoder (`Codec.ValueRoundTrip`, `Codec.ConditionRoundTrip`).
  The validator counts nested records, the decoder leaves and conditions as
  well: a validated value is read back exactly when those fit
  (`Values.ValidatedValueRoundTrip`). The deepest validated record and the
  highest validated condition are refused (`Values.DeepestIsRefused`,
  `Values.HighestIsRefused`), so every validated value is read back only under
  bounds that allow no record field (`Values.AlwaysReadBackIff`).
- More facts leave every decision of every tree as it was exactly when none of
  them is a feature gate: an absent gate is Unsatisfied and not Unknown
  (`Conditions.DecisionsKeptIffNoNewGate`, `Conditions.GateDecidedByPresence`).
  Facts are stored in lower case while keys of conditions are not, so a gate can
  be met, and a platform setting decided, exactly when its name is in lower case
  (`Conditions.GateCanBeMetIff`, `Conditions.SettingCanBeDecidedIff`).
- A frame leaves each authoritative boot held by a live session exactly when it
  is neither a publication that registers a publisher never seen before nor a
  registration of another publisher by the only session that holds an
  authoritative boot, either of them passing the checks of a registration
  (`Coordination.AuthorityStaysHeldIff`); both come about in a coordinator that
  has just started (`Scenarios.AuthorityIsStranded`). Registrations that come as frames, one
  publisher for each session, keep to that, and then authority is held along
  every run of the loop (`Coordination.AuthorityIsAlwaysHeld`).
- Fencing a publisher is described as permanent. It is refused under any boot
  while the process lives (`Returning.FencedIsRefused`), but its fence is not
  written: right after any restart it may register again
  (`Returning.RestartForgetsFence`).
- A history that is full of the newest records of their sources never has room
  again: once a record was refused for lack of room, none is stored and none is
  evicted until the next restart (`Standstill.BackpressureIsForever`; under a
  bound of one the first record fills it, `Standstill.FirstRecordFills`). While
  serials tell the records of a key apart, it stays full only when nothing that
  is queued has been replaced (`Retaining.DrainTakesAllReplaced`); but a restart
  gives its last record the serial that the next live record will get
  (`Standstill.NextSerialIsTaken`), and then a replaced record may keep the
  history full (`Standstill.SharedSerialKeepsFull`).
- A different publication under the number that its boot had accepted last is
  refused as a conflict exactly while fewer than 4096 larger numbers are
  remembered, those of former boots included (`Sending.ConflictIsSeenIff`);
  `Sending.ConflictPassesForRepetition` is a run in which it passes for a
  repetition. Number zero always does (`Sending.ZeroIsNeverHandled`).
- The incarnation of a device is never updated, so an observation that opened a
  generation opens another one whenever it is repeated
  (`Observing.RepeatedObservationOpensAgain`).
- A header comment says that equal values always render identically. All values
  equal to a given one render like it exactly when there is no version in it
  (`Rendering.RendersAlikeIff`): equal versions such as 1.0 and 1.0.0 render as
  they are spelled (`Rendering.OnePointOh`). The registry model keeps what a
  value is equal to apart from how it renders, as the code does.

## Model

| member | source | states |
|---|---|---|
| Wire.TakeEncodedUint | include/hcr/detail/binary.hpp:23-35 | a number within its width that is written little-endian is read back, and exactly its bytes are consumed |
| Wire.TakenUint | include/hcr/detail/binary.hpp:85-110 | whatever an integer read accepts is the encoding of its result followed by what is left |
| Wire.TakeEncodedText | include/hcr/detail/binary.hpp:45-50 | a text within the bound is read back equal, whatever follows |
| Wire.TakenText | include/hcr/detail/binary.hpp:111-122 | whatever a text read accepts is the encoding of its result, within the bound |
| Wire.ByteWriter.Uint | include/hcr/detail/binary.hpp:25-35 | appends the little-endian encoding |
| Wire.ByteWriter.Str | include/hcr/detail/binary.hpp:45-50 | appends the text clamped to the bound, and records whether it was truncated |
| Wire.ByteReader.Uint | include/hcr/detail/binary.hpp:93-110 | reads what the encoding says or fails for good; a failed reader stays failed |
| Wire.ByteReader.Str | include/hcr/detail/binary.hpp:111-122 | reads a length-prefixed text within the bound, or fails |
| Crc.TableStep | src/protocol.cpp:56-74 | eight bit steps on a register are one table entry of its low byte and a shift |
| Crc.BuildTable | src/protocol.cpp:56-66 | every table entry is eight bit steps of its index |
| Crc.Crc32 | src/protocol.cpp:56-74 | the table-driven checksum is the bit-by-bit reflected CRC-32 (IEEE 802.3 clause 3.2.9, section 8 of RFC 1952) of any byte sequence |
| Crc.AlteredByteAltersCrc | src/protocol.cpp:56-74 | two equally long payloads that differ in exactly one byte have different checksums |
| Framing.EncodeFrame | src/protocol.cpp:76-98 | yields the encoding exactly for frames with a known type, known flags and a payload within the bound |
| Framing.FrameDecoder.ReadFrame | src/protocol.cpp:117-150 | recognises at a position an incomplete frame, a defect or a frame, from the bytes that follow |
| Framing.FrameDecoder.Feed | src/protocol.cpp:111-157 | refuses a chunk that overflows the buffer; otherwise outputs the frames of the buffered stream and keeps the residue, or keeps everything on a defect |
| Framing.FrameDecoder.Finish | src/protocol.cpp:104-109 | a connection may end exactly when no byte is buffered |
| Framing.DecodePrefixFirst | src/protocol.cpp:111-157 | decoding a prefix and then its residue with the rest gives the frames, residue or defect of the whole; a prefix with a defect already gives the defect and the frames of the whole |
| Framing.ChunkingIndependence | src/protocol.cpp:111-157 | however a stream is cut, unless some piece overflows the buffer, feeding the pieces gives the frames of one feed and ends with the same defect, or without one with the same residue |
| Framing.FedInParts | src/protocol.cpp:111-157 | a stream that fits one feed gives the same frames and the same defect or residue however it is cut |
| Framing.RestIsPartOfOneFrame | src/protocol.cpp:111-157 | the residue is an incomplete frame: shorter than a header, or with a sound header and shorter than the frame it announces; it never fills the buffer |
| Framing.FrameIsCanonical | src/protocol.cpp:117-150 | a recognised frame, encoded again, gives back the bytes it was read from |
| Framing.NothingIsLost | src/protocol.cpp:111-157 | the frames a decode gives, encoded again, followed by the residue, are the bytes it was given, with or without a defect |
| Framing.HeadRoundTrip | src/protocol.cpp:76-150 | the encoding of a frame, followed by anything, is recognised as that frame and its length |
| Framing.StreamRoundTrip | src/protocol.cpp:76-157 | the encodings of a list of frames decode to that list and leave nothing |
| Framing.FramesSurviveChunking | src/protocol.cpp:111-157 | frames sent in sequence arrive as sent with an empty buffer, however the bytes are cut, unless a piece overflows |
| Framing.SingleBytesAlwaysArrive | src/protocol.cpp:111-157 | delivered byte by byte no stream overflows: every frame list arrives |
| Framing.AlteredPayloadRefused | src/protocol.cpp:143-146 | a frame with one altered payload byte is refused with a checksum error, whatever follows |
| Versions.ParseComponent | src/software_version.cpp:33-53 | a digit run yields the smaller of its decimal value and 2^64-1, with no intermediate overflow, and is consumed whole |
| Versions.ParseVersion | src/software_version.cpp:26-61 | the first eight digit runs, saturated, for texts of 1 to 128 characters; otherwise the invalid version |
| Versions.ParseableIffValid | src/software_version.cpp:16-24 | a text is parseable exactly when it holds a digit, and then parses to a valid version if it is short enough |
| Versions.CompareVersions | src/software_version.cpp:63-75 | the index loop computes the comparison of the zero-padded component lists, invalid lowest |
| Versions.CompareSwaps | src/software_version.cpp:63-75 | the comparison is total and antisymmetric |
| Versions.CompareTransitive | src/software_version.cpp:63-75 | the comparison is transitive |
| Versions.EqualIffPaddedEqual | src/software_version.cpp:63-75 | two versions compare equal exactly when they agree up to trailing zero components |
| Versions.LessIff | src/software_version.cpp:63-75 | of two valid versions the smaller is the one with the smaller component, missing ones counting as zero, at the first position where they differ |
| Versions.SameLengthLessIff | src/software_version.cpp:63-75 | versions with equally many components are ordered as their component lists are, and equal when those are |
| Versions.ExtendedComparesIff | src/software_version.cpp:63-75 | further components make a version larger if and only if one of them is not zero |
| Versions.InvalidIsLowest | src/software_version.cpp:63-66 | an invalid version is below every valid one, and invalid versions are equal |
| Versions.ContainsIff | include/hcr/software_version.hpp:74-83 | a range contains the valid versions that are nowhere below its minimum and below its maximum, or nowhere above an included one |
| Versions.RangeValidIff | include/hcr/software_version.hpp:66-72 | a range with two bounds is valid if and only if the first is below the second, or equals it and that is included |
| Spelling.VersionIsItsNumbers | src/software_version.cpp:26-61 | whatever stands between the numbers of a text, its version has the first eight of them, each capped at 2^64-1; no number or more than 128 characters is no version |
| Spelling.EveryTextIsSpelled | src/software_version.cpp:26-61 | every text consists of numbers with leading zeros and text without digits between them |
| Conditions.EnvironmentContext.Set | src/condition.cpp:96-98 | facts are stored with key and value in lower case, replacing what was there |
| Conditions.EvaluateCondition | src/condition.cpp:241-421 | the recursive evaluator computes the strong Kleene value of the tree |
| Conditions.DeMorgan | src/condition.cpp:258-300 | negating all_of is any_of of the negations and conversely |
| Conditions.MoreFactsKeepDecisions | src/condition.cpp:241-421 | facts added that change the presence of no feature gate leave every decided outcome as it was |
| Conditions.DecisionsKeptIffNoNewGate | src/condition.cpp:241-421 | added facts leave every decided outcome of every tree as it was if and only if none of them is a feature gate |
| Conditions.UpperCaseGateNeverPresent | src/condition.cpp:96-108 | over lowered facts a gate whose key has an upper-case letter is unsatisfied |
| Conditions.GateCanBeMetIff | src/condition.cpp:96-108 | some environment satisfies a feature gate if and only if its name is in lower case |
| Conditions.SettingCanBeDecidedIff | src/condition.cpp:96-108 | some environment decides a platform setting, either way, if and only if its name is in lower case |
| Conditions.RaisedVersionKeepsSatisfied | src/condition.cpp:300-322 | raising an observed version keeps every satisfied condition without negation satisfied |
| Conditions.ValidateCondition | src/condition.cpp:110-190 | the explicit-stack validator terminates and accepts exactly the trees without null nodes, within the node bound and depth bound, whose every node is locally well-formed |
| Conditions.TreeContains | src/registry.cpp:206-218 | the explicit-stack search finds an axis exactly when some node of the tree has that kind |
| Spelling.NumberIsRead | src/condition.cpp:341-374 | an unsigned number is read after blanks and a sign up to the first other character, if it fits 64 bits; after a minus it is taken modulo 2^64 |
| Spelling.NothingIsRead | src/condition.cpp:341-374 | without a digit where the number should start none is read |
| Meaning.AllOfIff | src/condition.cpp:257-270 | all_of is unsatisfied if and only if some child is, satisfied if and only if every child is satisfied or null |
| Meaning.AnyOfIff | src/condition.cpp:271-284 | any_of is satisfied if and only if some child is, unsatisfied if and only if every child is unsatisfied or null |
| Meaning.NotIff | src/condition.cpp:285-295 | not swaps satisfied and unsatisfied and keeps unknown |
| Meaning.VersionLeafIff | src/condition.cpp:300-322 | a version requirement is missed if and only if the version observed under its name is somewhere below the required one; unknown without two versions |
| Meaning.GenerationLeafIff | src/condition.cpp:341-374 | a generation requirement is met if and only if the number observed under its name is no smaller; unknown without two numbers |
| Meaning.TextLeafIff | src/condition.cpp:324-339 | a text requirement is met if and only if the text observed under its name, or for a platform setting under the name with its key, is the same but for case; unknown when absent |
| Meaning.GateLeafIff | src/condition.cpp:404-413 | a feature gate is met when it is present under its name and missed when it is not |
| Meaning.AcceptedIff | src/condition.cpp:110-190 | the validator accepts a tree if and only if it has no more nodes than allowed and every node, wherever it is, is there, within the depth bound and sound by the rule of its kind |
| Meaning.MentionsIff | src/registry.cpp:206-218 | the search finds an axis if and only if some path of child positions leads to a node of that kind |
| Meaning.LeafIsDescribed | src/condition.cpp:192-239 | a leaf is rendered as the name it reads, its relation and its value |
| Meaning.GroupIsDescribed | src/condition.cpp:192-239 | a group is rendered as the list of its children between its name and a parenthesis |
| Readability.ReadBack | src/condition.cpp:192-239 | the rendering of a readable condition, with anything that may follow it, is read in one way |
| Readability.RendersAlikeIffSameSense | src/condition.cpp:192-239 | readable conditions render alike if and only if they have the same logical structure over the same questions |
| Readability.RenderedAlikeSameOutcome | src/condition.cpp:192-421 | validated conditions without separators in their texts that render alike have the same outcome under all facts, an absent condition counting as met |
| Readability.RenderingCollides | src/condition.cpp:192-239 | two validated conditions render alike, one environment meets the first and misses the second |
| Codec.WriteCondition | src/codec.cpp:96-108 | writes the encoding of the tree |
| Codec.ReadCondition | src/codec.cpp:110-142 | reads what decoding at that depth says, or fails |
| Codec.ConditionRoundTrip | src/codec.cpp:96-142 | a bounded tree, followed by any bytes, is read back equal and consumed exactly, if and only if its depth fits |
| Codec.ValidatedConditionRoundTrip | src/codec.cpp:96-142 | every tree the validator accepts is read back equal from depth 1 |
| Codec.DecodedConditionIsCanonical | src/codec.cpp:110-142 | whatever is decoded re-encodes to the bytes that were consumed |
| Codec.WriteValue | src/codec.cpp:144-228 | writes the encoding of the value |
| Codec.ReadValue | src/codec.cpp:230-364 | reads what decoding at that depth says, or fails |
| Codec.ValueRoundTrip | src/codec.cpp:144-364 | a bounded value, followed by any bytes, is read back equal and consumed exactly, if and only if its total nesting fits |
| Layout.NumbersAreLaidOut | include/hcr/detail/binary.hpp:23-35 | a number is written with the least significant byte first |
| Layout.TextIsLaidOut | include/hcr/detail/binary.hpp:45-50 | a text is written as its clamped length in four bytes and its characters |
| Layout.FrameIsLaidOut | src/protocol.cpp:76-98 | a frame is the bytes HCRP, version 1, type, flags, length, checksum and correlation, and the payload |
| Layout.HeadIsRead | src/protocol.cpp:117-150 | which defect, how much is missing or which frame the bytes at the cursor are, by their places |
| Layout.CheckValue | src/protocol.cpp:56-74 | the checksum of the digits 1 to 9 is 0xCBF43926, the check value of CRC-32 |
| Layout.ConditionIsLaidOut | src/codec.cpp:96-108 | a condition is a zero byte, or a one, the number of its kind, key, value, the clamped number of children, and those in order |
| Layout.ValueIsLaidOut | src/codec.cpp:144-228 | a value is the number of its form and then its parts, form by form |
| Values.ValidateValue | src/value.cpp:363-465 | accepts exactly the values that meet the rules of their form |
| Values.ValidateRecord | src/value.cpp:31-66 | accepts exactly the records within the depth and field bounds whose names are canonical and strictly sorted and whose values are there and valid, nested records once more at their depth |
| Values.ValidIff | src/value.cpp:31-66 | for all the validations of nested records, a value is valid if and only if every part meets its own rules and no more records are nested than allowed |
| Values.WithinIffFits | src/codec.cpp:230-364 | the decoder's bounds hold level by level if and only if the numbers of nested values and conditions are within them |
| Values.ValidatedValueRoundTrip | src/codec.cpp:144-364 | a validated value is read back equal, or refused, according to whether its leaves and conditions fit as well |
| Values.DeepestIsRefused | src/codec.cpp:230-364 | for all bounds, a flag in as many records as the validator allows is validated and refused by the decoder |
| Values.HighestIsRefused | src/codec.cpp:230-364 | for all bounds, a value built on a condition as high as the validator allows is validated and refused by the decoder |
| Values.AlwaysReadBackIff | src/codec.cpp:230-364 | every validated value is read back if and only if the bounds allow no record field and no condition of the full height |
| Rendering.Equal | src/value.cpp:286-322 | decides equality: versions by comparison, conditions by rendering, records field by field, everything else by content |
| Rendering.DescribeValue | src/value.cpp:226-284 | the rendering of every form, records and sets built up piece by piece |
| Rendering.SameTransitive | src/value.cpp:286-322 | equality of values is transitive, for versions and records too |
| Rendering.SameSymmetric | src/value.cpp:286-322 | and symmetric |
| Rendering.AnotherSpelling | src/software_version.cpp:26-75 | every valid version, the longest included, has another spelling that compares equal |
| Rendering.RendersAlikeIff | include/hcr/value.hpp:233-235 | every value equal to a given one renders as it does if and only if there is no version bound anywhere in it |
| Values.SortedIff | src/value.cpp:363-465 | the pairwise test of neighbours means that of any two entries the earlier is below the later, byte by byte |
| Values.FormsAreValidIff | src/value.cpp:363-465 | the rules of counts, enumerations, lists, version bounds, numeric ranges and relationships |
| Rendering.SameRangeIff | src/value.cpp:286-322 | version ranges are equal if and only if their bounds agree up to trailing zeros, or are both open, and the upper one counts alike |
| Quirks.EvaluateRanges | src/quirk.cpp:235-353 | a version selector is unknown for an unparseable version, and otherwise decided by some range containing it |
| Quirks.EvaluateQuirk | src/quirk.cpp:235-353 | the verdict is the three-valued conjunction of all selectors: a definite mismatch anywhere wins over any unknown |
| Quirks.MoreFactsKeepVerdict | src/quirk.cpp:235-353 | a decided verdict stays when facts are added that decide no feature gate |
| Quirks.DoesNotApplyIff | src/quirk.cpp:257-346 | a quirk is ruled out if and only if some used selector definitely mismatches: device not listed; vendor, family or model unset or not listed; architecture or revision set and not listed; a set revision outside every range; a driver, firmware or runtime version outside every range; or the platform condition unsatisfied |
| Quirks.UndeterminedIff | src/quirk.cpp:257-346 | it is undetermined if and only if it is not ruled out and something that is asked is not known |
| Quirks.RevisionOrderIff | src/quirk.cpp:18-25 | revisions are ordered as versions if both are versions, else byte by byte |
| Eviction.VictimIsOldest | src/registry.cpp:789-810 | the record a trim removes is the oldest superseded one |
| Eviction.TrimKeyThins | src/registry.cpp:784-812 | trimming keeps the newest record of every slot and every candidate, and stops over the cap only when every record is the newest of its slot |
| Eviction.DrainThins | src/registry.cpp:813-838 | draining the queue does the same for every key, counts what it erases, and ends below the bound or with an empty queue |
| Eviction.EvictionIsExact | src/registry.cpp:784-842 | eviction keeps the count equal to the stored records and never raises it, and a key stays over its cap only with newest records |
| Eviction.EvictionIsInvisible | src/registry.cpp:784-842 | an answer with current evidence is the same before and after eviction, for every pin, fact set and quirk order; without it both need revalidation |
| Retaining.TrimTakesOldest | src/registry.cpp:784-812 | a trim takes nothing from a key within its cap, never goes below the cap, and takes the oldest replaced records first |
| Retaining.DrainTakesFromFront | src/registry.cpp:813-838 | the queue is drained from its front and only while the history is full, down to one less than its bound; only records named by what was drained are taken |
| Retaining.EvictableIff | src/registry.cpp:819-833 | an entry may be evicted if and only if the first record with its serial has been replaced by a newer one of its source |
| Retaining.DrainTakesAllReplaced | src/registry.cpp:813-838 | while serials tell the records of a key apart, the history stays full only when no queued record has been replaced |
| Retaining.EvictionStopsAtBounds | src/registry.cpp:784-842 | eviction leaves one record less than the history may hold or every key what eight times its bound allows, touches nothing within the bounds, and keeps the newest entries of the queue, up to four times the history bound |
| Retaining.RefusedForRoomIff | src/registry.cpp:1489-1495 | a record is refused for lack of room if and only if the history is full and eviction leaves it full |
| Retaining.StoreIsExact | src/registry.cpp:1497-1508 | a stored record takes the next serial, marks those of its slot as superseded and no other, and is queued last |
| Standstill.BackpressureIsForever | src/registry.cpp:784-842 | once a record was refused for lack of room, no record is stored and none evicted at any later point of the process |
| Standstill.FirstRecordFills | src/registry.cpp:1489-1510 | under a bound of one, the first record that is stored leaves the history full |
| Standstill.NextSerialIsTaken | src/registry.cpp:2654 | after a load the last record has the serial that the next live record is given |
| Standstill.SharedSerialKeepsFull | src/registry.cpp:813-838 | with a shared serial a replaced record that is queued is not evicted and the history stays full |
| Invariants.RegisterKeeps | src/registry.cpp:872-963 | registration keeps the invariant and only grows the state |
| Invariants.RetireKeeps | src/registry.cpp:1877-1913 | retiring an assigned boot keeps the invariant and only grows the state |
| Invariants.DeviceKeeps | src/registry.cpp:1185-1317 | registering or refreshing a device keeps the invariant and lets no generation regress |
| Observing.ObservationIsExact | src/registry.cpp:1185-1317 | an accepted observation of a known device opens a generation and boot if and only if the incarnation differs, a boot was observed or a generation is published; moves each software generation if and only if it identifies another component, and the platform generation if and only if the platform differs; a new device starts at one; no other device changes |
| Observing.OnlyObservationsChange | src/registry.cpp:1185-1317 | no other operation changes a known device, a restart included |
| Observing.RunIdentifies | src/registry.cpp:1253-1310 | in every state of every run a component of a device has a generation if and only if it is identified |
| Observing.RegisteringIsExact | src/registry.cpp:1192-1229 | a new device is refused exactly for lack of room for it or its new family; which names and platforms are registered |
| Observing.RepeatedObservationOpensAgain | src/registry.cpp:1231-1240 | the same observation opens a generation every time or never |
| Invariants.QuirkKeeps | src/registry.cpp:1517-1596 | publishing or withdrawing a quirk keeps the invariant |
| Invariants.FactKeeps | src/registry.cpp:1603-1700 | publishing or withdrawing a compatibility fact keeps the invariant: every stored reference resolves among what has been registered |
| Admission.AssignedGenerationFits | src/registry.cpp:1471-1488 | the generation chosen for a record stands for its claim and for no other record's, and the key's generation covers it |
| Admission.CapabilityKeeps | src/registry.cpp:1348-1515 | admitting, refusing or repeating a capability record keeps the invariant and only grows the state |
| Admitting.AdmissionIsExact | src/registry.cpp:1348-1515 | a capability record is refused for the first reason that holds; otherwise accepted without effect if it says what the newest record of its slot says under the same generations; otherwise stored, in the generation of the leading claim it joins or the next one, unless the history is full |
| Admitting.WinnerLeads | src/registry.cpp:844-870 | the claim new evidence may join is that of the first current record with no larger authority, then no smaller publisher, then no later observation beside it |
| Catalogue.QuirkIsExact | src/registry.cpp:1517-1596 | the reply to a published quirk by the generation on record, and that it is stored exactly when accepted as new |
| Catalogue.QuirkWithdrawalIsExact | src/registry.cpp:1535-1552 | a withdrawal marks the stored quirk once and changes nothing else |
| Catalogue.FactIsExact | src/registry.cpp:1603-1700 | the reply to a published fact by its references and the generation on record, and that it is stored exactly when accepted as new |
| Catalogue.FactWithdrawalIsExact | src/registry.cpp:1603-1700 | a withdrawal marks the stored fact once and takes over its source |
| Catalogue.HandlersAre | src/registry.cpp:1125-1152 | which handler each kind of publication goes to |
| Recovery.ImportOfExport | src/registry.cpp:2420-2820 | the export of a registry is accepted if and only if its device families fit and every reference of its facts resolves among the exported devices, platforms and hardware names; then devices, quirks, facts and every key's records are the same, every publisher is dead with all its boots fenced, and the invariant holds; a refusal changes at most the serial counter |
| History.StepKeeps | src/registry.cpp:872-1183 | every operation keeps the invariant, and all but a restart only grow the state |
| History.RunKeeps | src/registry.cpp:872-1183 | every state of every run meets the invariant, clean restarts included |
| History.RunGrows | src/registry.cpp:872-1183 | between any two points of one process the state only grows |
| Safety.FencingIsForever | src/registry.cpp:872-1036 | at every later point of every run, restarts included, a fenced boot is not authoritative, a publication that carries it is refused and changes nothing, and no registration, by itself or by a publication, assigns or re-affirms it |
| Safety.WhatFences | src/registry.cpp:1847-1954 | fencing a publisher, retiring its boot and resetting liveness fence its boot |
| Safety.NextBootFences | src/registry.cpp:919-942 | a fresh registration assigns the next boot and fences the one before |
| Safety.RetiringAheadBreaksFencing | src/registry.cpp:1877-1913 | a boot retired before it was assigned is later assigned although it is fenced |
| Safety.StalenessIsAbsorbing | src/registry.cpp:320-385 | within a process every staleness flag of a stored record except a runtime change is still given in every later state, so the record is never current again |
| Safety.RuntimeFlagIsKeptIff | src/registry.cpp:360-369 | a runtime-change flag is kept exactly when the device still has the same runtime |
| Safety.RuntimeFlagCanClear | src/registry.cpp:1253-1310 | a refresh that names another runtime clears it |
| Aging.AxisMovesIff | src/registry.cpp:1228-1317 | between two points of a run a generation of a device stands still if and only if no accepted observation moves it |
| Aging.PublicationIsRecorded | src/registry.cpp:1441-1447 | an accepted capability publication is stored as published, under its sender, the bound schema, and the device's driver, firmware, runtime and platform generations and runtime |
| Aging.FlagsTellWhatMoved | src/registry.cpp:320-385 | at every later point of the process each flag of that evidence is given if and only if what it stands for has happened since: another generation, another driver, firmware or (of the same runtime) runtime version, another platform, a fenced boot, another epoch |
| Forgetting.EvidenceIsCurrentIff | src/registry.cpp:320-385 | and the evidence is current if and only if none of that has happened and its source has said nothing more about the key |
| Forgetting.NothingOlderIsCurrent | src/registry.cpp:1231-1240 | once a generation was opened no record that was stored for the device before is current, asked for any generation |
| Forgetting.NothingIsLost | src/registry.cpp:784-842 | evidence its source has not replaced is stored, as it was, at every later point of the process |
| Forgetting.SupersededIff | src/registry.cpp:1497-1500 | evidence is superseded if and only if its own source has said something newer about the key |
| Returning.FencedIsRefused | src/registry.cpp:1847-1875 | while the process lives a fenced publisher is refused under any boot, in publications and registrations |
| Returning.RestartForgetsFence | src/registry.cpp:2724-2750 | right after any restart a fenced publisher may register again, under its next boot |
| Safety.GenerationsNeverMixClaims | src/registry.cpp:1471-1488 | in every reachable state, restarts included, records of a key sharing a generation agree in support, value, rendering of conditions and device generation, and no record is ahead of its key |
| Safety.GenerationsNeverMixOutcomes | src/registry.cpp:1471-1488 | and their conditions have the same outcome under all facts when their texts hold no separator |
| Safety.EvidenceIsBounded | src/registry.cpp:784-842 | in every reachable state the evidence count is the number of stored records and within the history bound |
| Safety.GenerationsNeverDecrease | src/registry.cpp:1228-1317 | within a process no generation of a key or device axis, no publisher boot and no epoch moves backwards |
| Safety.RestartIsConservative | src/coordinator.cpp:426-450 | after a clean start over an export the epoch is strictly larger, the same devices, quirks, facts and the same records of every key are held, and no publisher is authoritative |
| Safety.RestartNeedsRevalidation | src/registry.cpp:493-528 | at every point after a clean start, later restarts included, a key answers that it needs revalidation, whatever the facts, until it holds a durable record or one published under a boot larger than its publisher had before |
| Safety.OldEvidenceNeverReturns | src/registry.cpp:372-382 | no process-bound record from before a clean start is current after it, then or at any later time of the process |
| Safety.RestartNeedsNewBoot | src/registry.cpp:2786-2797 | after a clean start every registration of a known publisher that is accepted, by itself or by a publication, assigns or re-affirms a strictly larger boot |
| RestartBound.RestartIsRefused | src/registry.cpp:1185-1317 | a publisher and a device once possible, with fewer families than devices or any fact allowed: a run whose export a fresh registry refuses, one family for each device or a fact about a model that the refreshed device has left |
| RestartBound.AlwaysRestartsIff | src/registry.cpp:2556-2571 | whatever any run leads to, every export is accepted by a fresh registry if and only if no publisher or no device can be registered, or as many families as devices and no facts are allowed |
| RestartBound.WithdrawingDoesNotHelp | src/registry.cpp:2692-2722 | withdrawing a fact leaves it open exactly as before whether a restart is accepted |
| Supersession.SupersededAfterImport | src/registry.cpp:2606-2667 | an imported record is superseded if and only if one of its import slot comes later in the history |
| Supersession.FlagAfterRestart | src/registry.cpp:2606-2667 | of an accepted export every record is back in the written order, flagged by that rule alone |
| Returning.ImportIff | src/registry.cpp:2498-2752 | a durable state is loaded if and only if it is within the bounds, its devices are sound and distinct with few enough families, its records valid, about its devices and in order, its quirks, facts, marks and fences sound and distinct; a refusal moves at most the serial counter |
| Returning.HistoryIsInOrder | src/registry.cpp:2470-2480 | the history is written by device, capability, capability generation, publisher and observation |
| Returning.LoadedIsExact | src/registry.cpp:2754-2800 | loaded keys stand under the schema and largest generation of their records; the queue holds every record in order; the index lists the keys; the epoch is the larger one |
| Returning.PublisherAfterRestart | src/registry.cpp:2724-2800 | a publisher comes back dead and not fenced, with every boot fenced and the numbers of its last boot |
| Supersession.SharesSlotIff | src/registry.cpp:2651-2653 | when two imported records share a slot |
| Scenarios.OverruledClaimReturns | src/registry.cpp:2651-2653 | a run: a claim superseded by the same publisher in another precision is current again after a clean start |
| Scenarios.StaleEvidenceReturns | src/registry.cpp:360-369 | a run: live evidence carries the runtime flag after a new runtime version and none after another runtime is named |
| Scenarios.DifferentClaimIsDropped | src/registry.cpp:1449-1470 | a run: a claim under other conditions that render alike is taken for a repetition and not stored |
| Replay.ReplayIsNoOp | src/registry.cpp:1073-1183 | submitting an accepted publication once more, at any later point of a run, restarts included, changes no device, evidence, generation or quirk |
| Replay.SequencesIncrease | src/registry.cpp:1083-1165 | of two publications of one boot that reached a handler and were accepted, the later has the larger sequence and no smaller evidence generation |
| Sending.RegistrationIsExact | src/registry.cpp:872-963 | which requests to register are accepted, what boot they are given, and that nothing else of the publisher or anyone else changes |
| Sending.RegistrationRefusals | src/registry.cpp:872-963 | for which reason a request is refused |
| Sending.FencingIsExact | src/registry.cpp:1847-1875 | fencing takes away a publisher's authority under every boot and fences the one it has, and nothing else |
| Sending.RetiringIsExact | src/registry.cpp:1877-1913 | retiring a boot fences it and, if it is the publisher's, takes away its authority |
| Sending.ResetIsExact | src/registry.cpp:1937-1954 | a reset leaves no authority, fences the boots that had it and changes nothing else |
| Sending.SenderAdmittedIff | src/registry.cpp:1038-1071 | a sender is admitted if and only if its boot has authority and its epoch is the current one; for which reason it is refused |
| Sending.EnvelopeIsExact | src/registry.cpp:970-1071 | in which order a publication is checked before its number is |
| Sending.ValidatedIff | src/registry.cpp:84-127 | what is asked of each kind of publication |
| Sending.ShutdownRefuses | src/registry.cpp:970-977 | a registry that shuts down takes no registration and no publication |
| Sending.SequenceIsExact | src/registry.cpp:1073-1183 | what becomes of a number behind, equal to and ahead of the last one, of a regressing evidence generation, and what is recorded |
| Sending.RememberedIff | src/registry.cpp:1163-1167 | the fingerprints of the 4096 largest numbers are remembered |
| Sending.ConflictIsSeenIff | src/registry.cpp:1091-1113 | another publication under the last accepted number is refused as a conflict if and only if it differs and fewer than 4096 larger numbers are remembered |
| Sending.ConflictPassesForRepetition | src/registry.cpp:1091-1167 | a run in which a different publication passes for a repetition |
| Sending.ZeroIsNeverHandled | src/registry.cpp:1091-1098 | a publication under number zero is never handled |
| Resolution.CandidatesAre | src/registry.cpp:446-473 | the candidates are exactly the stored records without a staleness flag |
| Resolution.WinnerIsMaximal | src/registry.cpp:475-536 | no candidate precedes the winner in authority, precision, evidence generation, publisher and observation order |
| Ranking.SourcesAreOrdered | src/provenance.cpp:66-87 | the source classes from the least to the most authoritative |
| Ranking.PrecisionsAreOrdered | src/support.cpp:165-176 | the precisions from the lowest to the highest |
| Ranking.ProvenancesAreOrdered | src/provenance.cpp:119-183 | the provenances from the weakest to the strongest; real ones are the strongest, durable ones those between |
| Ranking.AllowedIff | src/provenance.cpp:142-192 | which source may claim which provenance |
| Ranking.WinnerIsFirstBest | src/registry.cpp:475-536 | the winner is a current record with no larger authority beside it, then no higher precision, then no later evidence generation, then no smaller publisher, then no later observation, and the first of those that tie |
| Ranking.AnswerIsExact | src/registry.cpp:402-610 | with current evidence the answer declares what the first best record says; without it needs revalidation for every reason some record gives and declares the newest claim that was not withdrawn |
| Ranking.PreferredLiveIff | src/registry.cpp:538-582 | when live evidence is preferred among disagreeing candidates, and when a higher source |
| Ranking.EffectiveIsExact | src/registry.cpp:655-683 | within the query bound: the effective answer by what is declared, the outcome of the conditions and the quirks that apply |
| Ranking.UnknownKeyIsUnknown | src/registry.cpp:418-432 | a key nothing is known about is unknown and not current |
| Resolution.UsableAnswersAreJustified | src/registry.cpp:402-610 | a supported answer, with or without caveat, rests on a stored record of the device's own generation and boot, not withdrawn or superseded, alive unless durable, asserting the capability with its conditions met, that nothing current precedes |
| Resolution.UsableExactly | src/registry.cpp:655-683 | an answer is usable if and only if the winner asserts the capability, its conditions are met or absent, and no gathered quirk blocks |
| Resolution.OtherGenerationsNeedRevalidation | src/registry.cpp:418-432 | a pin to any other generation of a known key answers that it needs revalidation |
| Resolution.ContradictionsAreExact | src/registry.cpp:538-582 | consistent means all candidates agree, ambiguous that two of maximal authority disagree, and otherwise the declared assertion is shared by all of maximal authority |
| Resolution.OrderDoesNotMatter | src/registry.cpp:446-585 | permuting the stored records changes neither whether an answer is ambiguous or consistent nor, when it is not ambiguous, what it declares |
| Resolution.SyntheticOnlyAlone | src/provenance.cpp:66-87 | a synthetic source wins only when every candidate is synthetic |
| Resolution.SeverestQuirkDecides | src/registry.cpp:612-683 | within the query bound the most severe applicable quirk decides, in whatever order quirks are visited |
| Resolution.NewQuirkNeverRaises | src/registry.cpp:612-683 | and a quirk under a new id never raises the answer |
| QuirkBound.NewQuirkRaisesIff | src/registry.cpp:612-683 | past the bound: a new quirk, visited anywhere, raises the answer if and only if it impacts, is visited within the bound, the bound had been reached, the last quirk looked at alone held the answer down, and the new one leaves more |
| QuirkBound.NoNewQuirkRaisesIff | src/registry.cpp:612-683 | no new quirk raises the answer, wherever it is visited, if and only if the bound is not reached or the last quirk looked at does not alone decide |
| QuirkBound.NoNewQuirkInOrderRaisesIff | src/registry.cpp:612-683 | with quirks visited by identity, the same or every identity before that last quirk is taken |
| Scenarios.HarmlessQuirkUnblocks | src/registry.cpp:612-634 | a run from the fresh registry in which an accepted informational quirk takes the answer from blocked to supported |
| Resolution.MoreFactsNeverUnblock | src/registry.cpp:612-683 | facts that decide no feature gate leave an unmet answer unmet and a blocked answer blocked |
| Evidence.FreshEvidenceCounts | src/registry.cpp:1348-1515 | an accepted, non-repeated capability publication leaves its record without any flag, and its key is answered from current evidence |
| Evidence.WithdrawalRetracts | src/registry.cpp:1449-1515 | after an accepted withdrawal nothing that publisher boot said through that source class is current evidence for the key |
| Validation.ValidatePublication | src/registry.cpp:84-127 | accepts exactly the well-formed publications of a set sender and boot whose device, record, quirk or fact meets the rules of its kind, withdrawal matching the kind |
| Validation.ValidateFact | src/compatibility.cpp:108-152 | accepts exactly the facts with identity and generation, two different references, a reason where one is required, a window that is not inverted, an allowed provenance and valid conditions |
| Persistence.ExportHistory | src/registry.cpp:2434-2480 | writes exactly the stored records, sorted as the source sorts them |
| Persistence.ExportPublishers | src/registry.cpp:2443-2464 | writes one mark per publisher and exactly the fenced boots that are to be written |
| Persistence.ImportHistory | src/registry.cpp:2606-2667 | stages the records one by one, moves the serial counter with each, and stops at the first that is not acceptable |
| Persistence.ImportFacts | src/registry.cpp:2692-2722 | stages the facts one by one and stops at the first that is invalid, dangling or repeated |
| Persistence.RebuildIndex | src/registry.cpp:2770-2775 | the rebuilt index lists exactly the staged keys |
| Persistence.RebuildQueue | src/registry.cpp:2780-2785 | the rebuilt queue lists every record, key by key in ascending order |
| Registry.IsSuperseded | src/registry.cpp:791-799 | some other record of the slot has a larger serial |
| Registry.FindVictim | src/registry.cpp:789-806 | the double loop finds the specified victim, or none when every record is the newest of its slot |
| Registry.LatestInSlot | src/registry.cpp:1455-1459 | the newest record of a slot |
| Registry.ClassifyCandidates | src/registry.cpp:538-582 | the loops over candidates decide unanimity, agreement at the top authority and live dissent, and so the class of the contradiction |
| Registry.CapabilityRegistry.RegisterPublisher | src/registry.cpp:872-963 | assigns boot 1 to a new publisher, the next boot to a fresh process (fencing the one before), or re-affirms the current boot; fenced, stale and surplus registrations are refused without effect; the invariant is kept |
| Registry.CapabilityRegistry.FencePublisher | src/registry.cpp:1847-1875 | fences the publisher and its boot for good, is idempotent, refuses unknown publishers, and keeps the invariant |
| Registry.CapabilityRegistry.RetirePublisherBoot | src/registry.cpp:1877-1913 | fences the boot, and the publisher is dead when it was the current one; keeps the invariant when the boot had been assigned |
| Registry.CapabilityRegistry.ResetPublisherLiveness | src/registry.cpp:1937-1954 | the loop leaves every registered publisher dead with its boot fenced, touches no other, and keeps the invariant |
| Registry.CapabilityRegistry.AdvanceCoordinatorEpoch | src/registry.cpp:2362-2368 | the epoch is one larger |
| Registry.CapabilityRegistry.ApplyDevice | src/registry.cpp:1185-1346 | a new device starts at generation 1 within the device and family bounds and registers its family, model and architecture; a known one keeps what the observation does not identify, advances exactly the changed axes, opens a generation on a changed incarnation, an observed boot or on request, and registers no name; platforms are registered within their bound |
| Registry.CapabilityRegistry.EvictIfNeeded | src/registry.cpp:784-842 | the loops over keys and queue reach the specified state; the guard never ends the second loop early |
| Registry.CapabilityRegistry.ComputeStaleness | src/registry.cpp:320-385 | the accumulated flags are the specified ones, and empty exactly for current evidence |
| Registry.CapabilityRegistry.CurrentWinnerRecord | src/registry.cpp:844-870 | the loop finds the first current record of maximal authority, then smallest publisher, then latest observation, whose claim new evidence may join |
| Registry.CapabilityRegistry.ApplyCapability | src/registry.cpp:1348-1515 | key creation, generation, eviction, supersession and storing, in the source's order, reach the specified state and reply |
| Registry.CapabilityRegistry.ApplyQuirk | src/registry.cpp:1517-1596 | a quirk starts at generation 1 within the bound, moves only forward, repeats idempotently, refuses other content under the same generation, and is withdrawn once |
| Registry.CapabilityRegistry.ApplyCompatibility | src/registry.cpp:1603-1700 | a fact whose references resolve starts at generation 1 within the bound, moves only forward, repeats idempotently, refuses other content under the same generation, and is withdrawn once |
| Registry.CapabilityRegistry.Apply | src/registry.cpp:970-1183 | attribution, validation, sender and sequence checks, handler and acceptance reach the specified state and reply; the invariant is kept |
| Registry.CapabilityRegistry.GatherQuirks | src/registry.cpp:612-646 | the impacting quirks up to the bound, those that apply before those that may, each part by severity and identity |
| Registry.CapabilityRegistry.QueryCapability | src/registry.cpp:1996-2008 | none for unset identities or an unknown device, unknown for a key without knowledge, otherwise the resolution of the stored records, quirks and facts |
| Registry.CapabilityRegistry.ExportDurableState | src/registry.cpp:2420-2496 | writes every platform, device, quirk, fact and publisher once in order, exactly the stored records sorted, and exactly the fenced boots that are to be written |
| Registry.CapabilityRegistry.ImportDurableState | src/registry.cpp:2498-2820 | state and success are as specified: everything is staged and checked before anything but the serial counter changes |
| Coordination.AuthorityStaysHeldIff | src/coordinator.cpp:122-253 | a frame leaves every authoritative boot held by a live session if and only if it does not register a publisher never seen before by a publication, nor another publisher from the only session holding an authoritative boot |
| Coordination.DispatchKeeps | src/coordinator.cpp:122-253 | a frame of a session that keeps to one publisher and does not register by publication keeps every authoritative boot held |
| Coordination.DropKeeps | src/coordinator.cpp:331-348 | dropping a session fences the boot it held and keeps the others held |
| Coordination.IterationKeepsAuthorityHeld | src/coordinator.cpp:491-569 | after every iteration each authoritative boot is held by a live session |
| Coordination.TheDeadAreNotHeard | src/coordinator.cpp:536-569 | no request delivered in an iteration, by whichever session, that speaks for a boot whose session was found dead in it is accepted |
| Coordination.AuthorityIsAlwaysHeld | src/coordinator.cpp:491-569 | in every world of every run of the loop an authoritative boot is held by a live session |
| Coordination.TheDeadAreNeverHeard | src/coordinator.cpp:536-569 | from the round in which its session is found dead on, no request of any session that speaks for the boot is accepted |
| Coordination.StartHoldsNothing | src/coordinator.cpp:426-450 | a coordinator started over an export meets the invariant with no session |
| Coordination.ShutdownLeavesNoAuthority | src/coordinator.cpp:571-583 | when the loop has been shut down no boot is authoritative |
| Coordination.RegistrationByPublicationIsNotHeld | src/coordinator.cpp:170-190 | a registration that comes as a publication gives authority to a boot no session holds |
| Coordination.SecondRegistrationDropsFirst | src/coordinator.cpp:145-169 | a session that registers a second publisher leaves the first authoritative and unheld |
| Dispatching.FrameIsExact | src/coordinator.cpp:122-253 | what each frame is answered and what it changes: no registration before a greeting, the session holds what was assigned, only a shutdown request stops the loop |
| Dispatching.FramesAreTakenInOrder | src/coordinator.cpp:397-409 | the frames of a session are interpreted in order up to the first that cannot be answered, which closes it, or after which the loop is to stop |
| Dispatching.IterationIsExact | src/coordinator.cpp:507-569 | every answer of an iteration is to a message delivered by a living session within its bound; one that closed or exceeded it is gone; a new one is there only for an accepted connection |
| Dispatching.SessionsAreBounded | src/coordinator.cpp:507-535 | in every world of every run of the loop the sessions are within their bound |
| Dispatching.LoopStops | src/coordinator.cpp:486-497 | nothing is read once the loop is to stop |
| Dispatching.ShutdownKeepsKnowledge | src/coordinator.cpp:571-589 | the ordered shutdown changes what publishers may do and nothing that is known |
| Scenarios.AuthorityIsStranded | src/coordinator.cpp:122-253 | a run of the loop from a fresh coordinator with room for two publishers, after which either kind of stranding frame leaves an authoritative boot unheld |
| Coordinator.CapabilityCoordinator.Start | src/coordinator.cpp:426-450 | loads the stored state or fails, advances the epoch and resets liveness |
| Coordinator.CapabilityCoordinator.DispatchSession | src/coordinator.cpp:397-409 | interprets frames until a response cannot be sent or shutdown is requested |
| Coordinator.CapabilityCoordinator.RunOnce | src/coordinator.cpp:507-569 | one iteration: the connection is accepted within the bound, every ready session is read, the dead are retired, and only then frames are dispatched in turn |
| Coordinator.CapabilityCoordinator.Run | src/coordinator.cpp:486-589 | iterates until shutdown is asked for by a frame or from outside, and then retires every session that is left |

## Left out

- Sockets, readiness waiting, files, clocks, command line and rendering: an iteration is given the accepted connection and what each ready session delivered; whether a response could be sent is part of the frame.
- Hardware adapters and the built-in catalogue of schemas: the schemas are a parameter of the registry.
- Registering further schemas, device comparison, fleet and stale listings, snapshots: they add no invariant that interacts with the rest.
- What a compatibility fact is called, queries for facts, and what describes a platform besides its identity: nothing else reads them.
- Truth classes, evidence views and their order, explanations, reasons, usage counters and revision numbers: text and statistics derived from what is modelled.
- Publications, snapshots and the state container as bytes: restart is modelled on the durable value; its digest and format version are not.
- The publication fingerprint is a number given with the publication; the model does not say how it is hashed.
- Value normalisation and validation inside the registry: a registry value is its kind, what it is equal to and how it renders; `wellFormed` sums up the length, token and value-form checks of a publication.
- The name of the adapter travels as `adapter` in a registering publication, where the source uses its reason field.
- Error codes and messages of the validator and of import: the model says whether they succeed.
- Wrap-around of 64-bit generations, boots, epochs and serials: they are unbounded numbers. Version components saturate as in the source.
- A Not node without a child is undefined in the source and is refused by its validator; the model evaluates it to Unknown.
- The order of identity tokens is that of numbers, standing for the order of strings.
- Sessions are values in the coordinator's map; their decoders are modelled in `framing.dfy` and appear in an iteration as the frames they delivered.
- Heartbeat, query and snapshot frames: they do not touch the registry and are one message here.
- Recovery.ImportOfExport: merging schemas, the digest and the format version are outside the modelled durable value.
- Validation.ValidatePublication: the length, token and value-form checks are the one given flag `wellFormed`; those of values are modelled on their own in `values.dfy`.
- Registry.CapabilityRegistry.Apply: has no schema registration, because the schemas are a parameter.
- Registry.CapabilityRegistry.QueryCapability: gives the resolved answer without the evidence views, the listed quirks and the truth class, which are derived from it.
- Registry.CapabilityRegistry.ExportDurableState: leaves out schemas and the digest.
- Registry.CapabilityRegistry.ImportDurableState: leaves out the format and digest tests and merging schemas.
- Coordinator.CapabilityCoordinator.Start: opens no listener and does not save the state after the start.
- Coordinator.CapabilityCoordinator.Run: does not save the state at the end; that export is `Registry.CapabilityRegistry.ExportDurableState`.
- Values.ValidateValue: normalising a value before it is validated, which sorts sets and fields, is not modelled.
- Catalogue.QuirkWithdrawalIsExact: a quirk of the model carries no source, which a withdrawal replaces in the code.
