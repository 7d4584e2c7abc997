// How numbers, texts, frames, conditions and values are laid out as bytes
// (include/hcr/detail/binary.hpp, src/protocol.cpp, src/codec.cpp), and the
// check value of the frame checksum.
module Layout {
  import opened Basics
  import opened Wire
  import opened Crc
  import V = Versions
  import C = Conditions
  import F = Framing
  import D = Codec

  // ---- numbers and texts ------------------------------------------------------------

  function Two(n: nat): seq<byte> { [n % 256, n / 256 % 256] }

  function Four(n: nat): seq<byte> { [n % 256, n / 256 % 256, n / 65536 % 256, n / 16777216 % 256] }

  function Eight(n: nat): seq<byte> { Four(n) + Four(n / 0x1_0000_0000) }

  lemma OneByte(n: nat, width: nat)
    requires width > 0
    ensures Encode(n, width) == [n % 256] + Encode(n / 256, width - 1)
  {}

  lemma FourBytes(n: nat, width: nat)
    requires width >= 4
    ensures Encode(n, width) == Four(n) + Encode(n / 0x1_0000_0000, width - 4)
  {
    hide Encode;
    var a, b, c := n / 256, n / 65536, n / 16777216;
    OneByte(n, width);
    OneByte(a, width - 1);
    OneByte(b, width - 2);
    OneByte(c, width - 3);
    assert a / 256 == b && b / 256 == c && c / 256 == n / 0x1_0000_0000;
    Joined(n % 256, a % 256, b % 256, c % 256, Encode(c / 256, width - 4));
  }

  lemma Joined(a: byte, b: byte, c: byte, d: byte, rest: seq<byte>)
    ensures [a] + ([b] + ([c] + ([d] + rest))) == [a, b, c, d] + rest
  {}

  /** Numbers are written with the least significant byte first. */
  lemma NumbersAreLaidOut(n: nat)
    ensures Encode(n, 1) == [n % 256] && Encode(n, 2) == Two(n) && Encode(n, 4) == Four(n) && Encode(n, 8) == Eight(n)
  {
    hide Four, Encode;
    NoBytes(n / 256);
    NoBytes(n / 256 / 256);
    NoBytes(n / 0x1_0000_0000);
    NoBytes(n / 0x1_0000_0000 / 0x1_0000_0000);
    OneByte(n, 1);
    OneByte(n, 2);
    OneByte(n / 256, 1);
    FourBytes(n, 4);
    FourBytes(n, 8);
    FourBytes(n / 0x1_0000_0000, 4);
  }

  lemma NoBytes(n: nat)
    ensures Encode(n, 0) == []
  {}

  /** A text is written as its length, clamped to the bound, and then its characters. */
  lemma TextIsLaidOut(s: Text, max: nat)
    ensures var n, bs := if |s| < max then |s| else max, EncodeText(s, max);
      |bs| == 4 + n && bs[..4] == Four(n) && forall i :: 0 <= i < n ==> bs[4 + i] == s[i] as int
  {
    hide Encode;
    NumbersAreLaidOut(Min(|s|, max));
  }

  // ---- frames ---------------------------------------------------------------------------

  /** A frame is written as "HCRP", version 1, type, flags, length, checksum, correlation and payload. */
  lemma FrameIsLaidOut(f: F.Frame)
    ensures F.Encoded(f) ==
      [72, 67, 82, 80] + ([1, 0] + (Two(f.kind) + (Four(f.flags) + (Four(|f.payload|) + (Four(CrcField(f.payload))
      + (Eight(f.correlation) + f.payload))))))
  {
    hide Encode, Four, Two, Eight, CrcField;
    MagicIsLaidOut();
    NumbersAreLaidOut(f.kind);
    NumbersAreLaidOut(f.flags);
    NumbersAreLaidOut(|f.payload|);
    NumbersAreLaidOut(CrcField(f.payload));
    NumbersAreLaidOut(f.correlation);
  }

  lemma MagicIsLaidOut()
    ensures Encode(F.Magic, 4) == [72, 67, 82, 80] && Encode(F.ProtocolVersion, 2) == [1, 0]
  {
    hide Encode;
    NumbersAreLaidOut(F.Magic);
    NumbersAreLaidOut(F.ProtocolVersion);
  }

  // ---- reading a header ------------------------------------------------------------------

  /** The number in four bytes from `i` on. */
  function FourAt(bs: seq<byte>, i: nat): nat
    requires i + 4 <= |bs|
  {
    (bs[i] as nat) + 256 * (bs[i + 1] as nat) + 65536 * (bs[i + 2] as nat) + 16777216 * (bs[i + 3] as nat)
  }

  lemma FourAreRead(bs: seq<byte>, i: nat)
    requires i + 4 <= |bs|
    ensures Decode(bs[i..i + 4]) == FourAt(bs, i)
  {
    var a, b, c, d := bs[i..i + 4], bs[i + 1..i + 4], bs[i + 2..i + 4], bs[i + 3..i + 4];
    assert a[1..] == b && b[1..] == c && c[1..] == d && d[1..] == [];
    assert Decode(d) == d[0] + 256 * Decode([]);
    assert Decode(c) == c[0] + 256 * Decode(d);
    assert Decode(b) == b[0] + 256 * Decode(c);
    assert Decode(a) == a[0] + 256 * Decode(b);
  }

  lemma TwoAreRead(bs: seq<byte>, i: nat)
    requires i + 2 <= |bs|
    ensures Decode(bs[i..i + 2]) == (bs[i] as nat) + 256 * (bs[i + 1] as nat)
  {
    var a, b := bs[i..i + 2], bs[i + 1..i + 2];
    assert a[1..] == b && b[1..] == [];
    assert Decode(b) == b[0] + 256 * Decode([]);
    assert Decode(a) == a[0] + 256 * Decode(b);
  }

  /** How the bytes at the cursor are judged, by what is at which place. */
  lemma HeadIsRead(bs: seq<byte>, maxPayload: nat)
    ensures var head := F.ReadHead(bs, maxPayload);
      if |bs| < 28 then head == F.Incomplete
      else if bs[0] != 72 || bs[1] != 67 || bs[2] != 82 || bs[3] != 80 then head == F.Defect(F.BadMagic)
      else if bs[4] != 1 || bs[5] != 0 then head == F.Defect(F.UnsupportedVersion)
      else if bs[6] == 0 || bs[6] > 17 || bs[7] > 0 then head == F.Defect(F.UnknownType)
      else if bs[8] > 3 || bs[9] != 0 || bs[10] != 0 || bs[11] != 0 then head == F.Defect(F.UndefinedFlags)
      else if FourAt(bs, 12) > maxPayload then head == F.Defect(F.PayloadTooLong)
      else if |bs| < 28 + FourAt(bs, 12) then head == F.Incomplete
      else if CrcField(bs[28..28 + FourAt(bs, 12)]) != FourAt(bs, 16) then head == F.Defect(F.BadChecksum)
      else
        && head.Complete? && head.size == 28 + FourAt(bs, 12) && head.frame.payload == bs[28..28 + FourAt(bs, 12)]
        && head.frame.kind == bs[6] && head.frame.flags == bs[8]
        && head.frame.correlation == FourAt(bs, 20) + 0x1_0000_0000 * FourAt(bs, 24)
  {
    hide Decode, CrcField;
    if |bs| >= 28 {
      FourAreRead(bs, 0);
      TwoAreRead(bs, 4);
      TwoAreRead(bs, 6);
      FourAreRead(bs, 8);
      FourAreRead(bs, 12);
      FourAreRead(bs, 16);
      EightAreRead(bs);
    }
  }

  lemma EightAreRead(bs: seq<byte>)
    requires |bs| >= 28
    ensures Decode(bs[20..28]) == FourAt(bs, 20) + 0x1_0000_0000 * FourAt(bs, 24)
  {
    FourAreRead(bs, 24);
    var a, b, c, d, e := bs[20..28], bs[21..28], bs[22..28], bs[23..28], bs[24..28];
    assert a[1..] == b && b[1..] == c && c[1..] == d && d[1..] == e;
    assert Decode(d) == d[0] + 256 * Decode(e);
    assert Decode(c) == c[0] + 256 * Decode(d);
    assert Decode(b) == b[0] + 256 * Decode(c);
    assert Decode(a) == a[0] + 256 * Decode(b);
  }

  // ---- the check value of the checksum ---------------------------------------------------------

  lemma EightBits(a: bv32, b: bv32, c: bv32, d: bv32, e: bv32, f: bv32, g: bv32, h: bv32, i: bv32)
    requires BitStep(a) == b && BitStep(b) == c && BitStep(c) == d && BitStep(d) == e
    requires BitStep(e) == f && BitStep(f) == g && BitStep(g) == h && BitStep(h) == i
    ensures Iterate(BitStep, a, 8) == i
  {
    assert Iterate(BitStep, a, 0) == a;
    assert Iterate(BitStep, a, 1) == b;
    assert Iterate(BitStep, a, 2) == c;
    assert Iterate(BitStep, a, 3) == d;
    assert Iterate(BitStep, a, 4) == e;
    assert Iterate(BitStep, a, 5) == f;
    assert Iterate(BitStep, a, 6) == g;
    assert Iterate(BitStep, a, 7) == h;
  }

  lemma Step1()
    ensures ByteStep(0xFFFFFFFF, 49) == 0x7C231048
  {
    assert Xor(0xFFFFFFFF, Word(49)) == 0xFFFFFFCE;
    EightBits(0xFFFFFFCE, 0x7FFFFFE7, 0xD2477CD3, 0x849B3D49, 0xAFF51D84, 0x57FA8EC2, 0x2BFD4761, 0xF8462090, 0x7C231048);
  }

  lemma Step2()
    ensures ByteStep(0x7C231048, 50) == 0xB0ACBB32
  {
    assert Xor(0x7C231048, Word(50)) == 0x7C23107A;
    EightBits(0x7C23107A, 0x3E11883D, 0xF2B0473E, 0x7958239F, 0xD11492EF, 0x8532CA57, 0xAF21E60B, 0xBA287025, 0xB0ACBB32);
  }

  lemma Step3()
    ensures ByteStep(0xB0ACBB32, 51) == 0x77B79C2D
  {
    assert Xor(0xB0ACBB32, Word(51)) == 0xB0ACBB01;
    EightBits(0xB0ACBB01, 0xB5EEDEA0, 0x5AF76F50, 0x2D7BB7A8, 0x16BDDBD4, 0x0B5EEDEA, 0x05AF76F5, 0xEF6F385A, 0x77B79C2D);
  }

  lemma Step4()
    ensures ByteStep(0x77B79C2D, 52) == 0x641C1F5C
  {
    assert Xor(0x77B79C2D, Word(52)) == 0x77B79C19;
    EightBits(0x77B79C19, 0xD6634D2C, 0x6B31A696, 0x3598D34B, 0xF774EA85, 0x9602F662, 0x4B017B31, 0xC8383EB8, 0x641C1F5C);
  }

  lemma Step5()
    ensures ByteStep(0x641C1F5C, 53) == 0x340AC5E3
  {
    assert Xor(0x641C1F5C, Word(53)) == 0x641C1F69;
    EightBits(0x641C1F69, 0xDFB68C94, 0x6FDB464A, 0x37EDA325, 0xF64E52B2, 0x7B272959, 0xD02B178C, 0x68158BC6, 0x340AC5E3);
  }

  lemma Step6()
    ensures ByteStep(0x340AC5E3, 54) == 0xF68D2C9E
  {
    assert Xor(0x340AC5E3, Word(54)) == 0x340AC5D5;
    EightBits(0x340AC5D5, 0xF7BDE1CA, 0x7BDEF0E5, 0xD057FB52, 0x682BFDA9, 0xD9AD7DF4, 0x6CD6BEFA, 0x366B5F7D, 0xF68D2C9E);
  }

  lemma Step7()
    ensures ByteStep(0xF68D2C9E, 55) == 0xAFFC9660
  {
    assert Xor(0xF68D2C9E, Word(55)) == 0xF68D2CA9;
    EightBits(0xF68D2CA9, 0x96FE1574, 0x4B7F0ABA, 0x25BF855D, 0xFF67418E, 0x7FB3A0C7, 0xD2615343, 0x84882A81, 0xAFFC9660);
  }

  lemma Step8()
    ensures ByteStep(0xAFFC9660, 56) == 0x651F2550
  {
    assert Xor(0xAFFC9660, Word(56)) == 0xAFFC9658;
    EightBits(0xAFFC9658, 0x57FE4B2C, 0x2BFF2596, 0x15FF92CB, 0xE7474A45, 0x9E1B2602, 0x4F0D9301, 0xCA3E4AA0, 0x651F2550);
  }

  lemma Step9()
    ensures ByteStep(0x651F2550, 57) == 0x340BC6D9
  {
    assert Xor(0x651F2550, Word(57)) == 0x651F2569;
    EightBits(0x651F2569, 0xDF371194, 0x6F9B88CA, 0x37CDC465, 0xF65E6112, 0x7B2F3089, 0xD02F1B64, 0x68178DB2, 0x340BC6D9);
  }

  lemma FoldNext(data: seq<byte>, n: nat, x: bv32, y: bv32)
    requires n < |data| && Fold(ByteStep, 0xFFFFFFFF, data[..n]) == x && ByteStep(x, data[n]) == y
    ensures Fold(ByteStep, 0xFFFFFFFF, data[..n + 1]) == y
  {
    hide ByteStep;
    assert data[..n + 1][..n] == data[..n];
  }

  const Digits: seq<byte> := [49, 50, 51, 52, 53, 54, 55, 56, 57]

  lemma FirstDigits()
    ensures Fold(ByteStep, 0xFFFFFFFF, Digits[..5]) == 0x340AC5E3
  {
    hide ByteStep;
    assert Digits[..0] == [];
    Step1();
    FoldNext(Digits, 0, 0xFFFFFFFF, 0x7C231048);
    Step2();
    FoldNext(Digits, 1, 0x7C231048, 0xB0ACBB32);
    Step3();
    FoldNext(Digits, 2, 0xB0ACBB32, 0x77B79C2D);
    Step4();
    FoldNext(Digits, 3, 0x77B79C2D, 0x641C1F5C);
    Step5();
    FoldNext(Digits, 4, 0x641C1F5C, 0x340AC5E3);
  }

  /** The checksum of the digits 1 to 9 is the check value of CRC-32. */
  lemma CheckValue()
    ensures Checksum([49, 50, 51, 52, 53, 54, 55, 56, 57]) == 0xCBF43926
  {
    hide ByteStep;
    FirstDigits();
    Step6();
    FoldNext(Digits, 5, 0x340AC5E3, 0xF68D2C9E);
    Step7();
    FoldNext(Digits, 6, 0xF68D2C9E, 0xAFFC9660);
    Step8();
    FoldNext(Digits, 7, 0xAFFC9660, 0x651F2550);
    Step9();
    FoldNext(Digits, 8, 0x651F2550, 0x340BC6D9);
    assert Digits[..9] == Digits;
  }

  // ---- conditions ---------------------------------------------------------------------------------

  function Text4(s: string, max: nat): seq<byte> {
    var n := if |s| < max then |s| else max;
    Four(n) + seq(n, i requires 0 <= i < n => s[i] as int % 256)
  }

  lemma TextIsFour(s: string, max: nat)
    ensures EncodeText(s, max) == Text4(s, max)
  {
    hide Encode, Four;
    NumbersAreLaidOut(Min(|s|, max));
    assert Octets(s[..Min(|s|, max)]) == Text4(s, max)[4..];
  }

  /** The numbers of the kinds on the wire. */
  function KindNumber(kind: C.Kind): nat {
    match kind
    case Always => 0
    case MinDriverVersion => 1
    case MinFirmwareVersion => 2
    case MinRuntimeVersion => 3
    case MinPlatformGeneration => 4
    case RequiredOs => 5
    case RequiredKernelVersion => 6
    case RequiredDeviceMode => 7
    case RequiredTopology => 8
    case RequiredPeerHardware => 9
    case RequiredPartitionState => 10
    case RequiredPlatformSetting => 11
    case RequiredPrivilege => 12
    case RequiredDeviceGeneration => 13
    case RequiredFeatureGate => 14
    case AllOf => 15
    case AnyOf => 16
    case Not => 17
  }

  lemma KindsAreNumbered(kind: C.Kind)
    ensures D.KindCode(kind) == KindNumber(kind)
  {}

  /** The conditions one after the other. */
  function InTurn(cs: seq<C.Condition>, limits: C.Limits): seq<byte> {
    if cs == [] then [] else D.EncodeCondition(cs[0], limits) + InTurn(cs[1..], limits)
  }

  lemma {:induction false} InTurnNext(cs: seq<C.Condition>, last: C.Condition, limits: C.Limits)
    ensures InTurn(cs + [last], limits) == InTurn(cs, limits) + D.EncodeCondition(last, limits)
    decreases |cs|
  {
    hide D.EncodeCondition;
    if cs == [] {
      assert ([] + [last])[1..] == [];
    } else {
      assert (cs + [last])[1..] == cs[1..] + [last];
      InTurnNext(cs[1..], last, limits);
    }
  }

  lemma {:induction false} ChildrenAreInTurn(cs: seq<C.Condition>, n: nat, limits: C.Limits)
    requires n <= |cs|
    ensures D.EncodeConditions(cs, n, limits) == InTurn(cs[..n], limits)
  {
    hide D.EncodeCondition;
    if n > 0 {
      ChildrenAreInTurn(cs, n - 1, limits);
      assert cs[..n] == cs[..n - 1] + [cs[n - 1]];
      InTurnNext(cs[..n - 1], cs[n - 1], limits);
    }
  }

  /** A condition is a zero byte, or a one and then kind, key, value, the number of children that are written, and those. */
  lemma ConditionIsLaidOut(kind: C.Kind, key: Text, value: Text, children: seq<C.Condition>, limits: C.Limits)
    ensures D.EncodeCondition(C.Null, limits) == [0]
    ensures var n := if |children| < limits.maxChildren then |children| else limits.maxChildren;
      D.EncodeCondition(C.Node(kind, key, value, children), limits) ==
        [1] + (Two(KindNumber(kind)) + (Text4(key, limits.maxNameLength) + (Text4(value, limits.maxNameLength) + Four(n))))
        + InTurn(children[..n], limits)
  {
    hide Encode, EncodeText, Four, Two, Text4, D.KindCode, KindNumber;
    KindsAreNumbered(kind);
    NumbersAreLaidOut(0);
    NumbersAreLaidOut(1);
    NumbersAreLaidOut(D.KindCode(kind));
    NumbersAreLaidOut(Min(|children|, limits.maxChildren));
    TextIsFour(key, limits.maxNameLength);
    TextIsFour(value, limits.maxNameLength);
    ChildrenAreInTurn(children, Min(|children|, limits.maxChildren), limits);
  }

  // ---- values ----------------------------------------------------------------------------------------

  /** A signed number as 64 bits in two's complement. */
  function Signed8(i: int): seq<byte>
    requires -0x8000_0000_0000_0000 <= i
  {
    Eight(if i >= 0 then i else 0x1_0000_0000_0000_0000 + i)
  }

  function ListedTexts(ts: seq<Text>, max: nat): seq<byte> {
    if ts == [] then [] else Text4(ts[0], max) + ListedTexts(ts[1..], max)
  }

  /** A list as the number of its entries that are written and those. */
  function List4(ts: seq<Text>, bound: nat, max: nat): seq<byte> {
    var n := if |ts| < bound then |ts| else bound;
    Four(n) + ListedTexts(ts[..n], max)
  }

  lemma {:induction false} ListedNext(ts: seq<Text>, last: Text, max: nat)
    ensures ListedTexts(ts + [last], max) == ListedTexts(ts, max) + Text4(last, max)
    decreases |ts|
  {
    hide Text4;
    if ts == [] {
      assert ([] + [last])[1..] == [];
    } else {
      assert (ts + [last])[1..] == ts[1..] + [last];
      ListedNext(ts[1..], last, max);
    }
  }

  lemma {:induction false} TextsAreListed(ts: seq<Text>, n: nat, max: nat)
    requires n <= |ts|
    ensures D.EncodeTexts(ts, n, max) == ListedTexts(ts[..n], max)
  {
    hide Text4, EncodeText;
    if n > 0 {
      TextsAreListed(ts, n - 1, max);
      TextIsFour(ts[n - 1], max);
      assert ts[..n] == ts[..n - 1] + [ts[n - 1]];
      ListedNext(ts[..n - 1], ts[n - 1], max);
    }
  }

  lemma ListIsLaidOut(ts: seq<Text>, bound: nat, max: nat)
    ensures D.EncodeList(ts, bound, max) == List4(ts, bound, max)
  {
    hide Encode, Four, ListedTexts, D.EncodeTexts;
    NumbersAreLaidOut(Min(|ts|, bound));
    TextsAreListed(ts, Min(|ts|, bound), max);
  }

  /** What follows the kind of a value that holds no other. */
  function FlatBytes(v: D.Value, limits: C.Limits): seq<byte>
    requires D.IsFlat(v) && D.Representable(v)
  {
    match v
    case NoValue => []
    case Boolean(flag) => if flag then [1] else [0]
    case Count(n, unit) => Eight(n) + Text4(unit, limits.maxNameLength)
    case Bytes(n) => Eight(n)
    case Rate(n, unit) => Eight(n) + Two(unit)
    case Bandwidth(n, unit) => Eight(n) + Two(unit)
    case Latency(rank) => Two(rank)
    case Enumeration(domain, token) => Text4(domain, limits.maxNameLength) + Text4(token, limits.maxNameLength)
    case FeatureSet(features) => List4(features, limits.maxFeatureEntries, limits.maxMetadataBytes)
    case VersionRange(range) =>
      Text4(range.minimum.raw, limits.maxNameLength) + (Text4(range.maximum.raw, limits.maxNameLength) + (if range.includeMaximum then [1] else [0]))
    case ArchitectureSet(ids) => List4(ids, limits.maxArchitectureEntries, 128)
    case NumericRange(low, high, step) => Signed8(low) + (Signed8(high) + Signed8(step))
    case Relationship(relation, target) => Two(relation) + Text4(target, 128)
  }

  lemma FlatIsLaidOut(v: D.Value, limits: C.Limits)
    requires D.IsFlat(v) && D.Representable(v)
    ensures D.EncodeFlat(v, limits) == FlatBytes(v, limits)
  {
    hide Encode, Four, Two, Eight, Text4, List4, EncodeText, D.EncodeList;
    NumbersAreLaidOut(0);
    NumbersAreLaidOut(1);
    match v {
      case Count(n, unit) => NumbersAreLaidOut(n); TextIsFour(unit, limits.maxNameLength);
      case Bytes(n) => NumbersAreLaidOut(n);
      case Rate(n, unit) => NumbersAreLaidOut(n); NumbersAreLaidOut(unit);
      case Bandwidth(n, unit) => NumbersAreLaidOut(n); NumbersAreLaidOut(unit);
      case Latency(rank) => NumbersAreLaidOut(rank);
      case Enumeration(domain, token) => TextIsFour(domain, limits.maxNameLength); TextIsFour(token, limits.maxNameLength);
      case FeatureSet(features) => ListIsLaidOut(features, limits.maxFeatureEntries, limits.maxMetadataBytes);
      case VersionRange(range) => TextIsFour(range.minimum.raw, limits.maxNameLength); TextIsFour(range.maximum.raw, limits.maxNameLength);
      case ArchitectureSet(ids) => ListIsLaidOut(ids, limits.maxArchitectureEntries, 128);
      case NumericRange(low, high, step) =>
        NumbersAreLaidOut(D.ToU64(low));
        NumbersAreLaidOut(D.ToU64(high));
        NumbersAreLaidOut(D.ToU64(step));
      case Relationship(relation, target) => NumbersAreLaidOut(relation); TextIsFour(target, 128);
      case _ =>
    }
  }

  /** The numbers of the forms of a value. */
  function FormNumber(v: D.Value): nat {
    match v
    case NoValue => 0
    case Boolean(_) => 1
    case Count(_, _) => 2
    case Bytes(_) => 3
    case Rate(_, _) => 4
    case Bandwidth(_, _) => 5
    case Latency(_) => 6
    case Enumeration(_, _) => 7
    case FeatureSet(_) => 8
    case VersionRange(_) => 9
    case ArchitectureSet(_) => 10
    case NumericRange(_, _, _) => 11
    case Record(_) => 12
    case Relationship(_, _) => 13
    case Predicate(_) => 14
  }

  /** The fields one after the other: the name, whether there is a value, and the value. */
  function FieldsInTurn(fields: seq<D.Field>, limits: C.Limits): seq<byte>
    requires D.RepresentableFields(fields)
  {
    if fields == [] then []
    else
      Text4(fields[0].name, limits.maxNameLength)
      + ((if fields[0].Missing? then [0] else [1] + D.EncodeValue(fields[0].value, limits)) + FieldsInTurn(fields[1..], limits))
  }

  lemma {:induction false} FieldsNext(fields: seq<D.Field>, last: D.Field, limits: C.Limits)
    requires D.RepresentableFields(fields) && (last.Field? ==> D.Representable(last.value))
    ensures D.RepresentableFields(fields + [last])
    ensures FieldsInTurn(fields + [last], limits) == FieldsInTurn(fields, limits) + D.EncodeField(last, limits)
    decreases |fields|
  {
    hide D.EncodeValue, Text4, EncodeText, Encode, D.Representable, Four, Two;
    NumbersAreLaidOut(0);
    NumbersAreLaidOut(1);
    TextIsFour(last.name, limits.maxNameLength);
    if fields == [] {
      assert ([] + [last])[1..] == [];
    } else {
      assert (fields + [last])[1..] == fields[1..] + [last];
      FieldsNext(fields[1..], last, limits);
    }
  }

  lemma NoFields(limits: C.Limits)
    ensures FieldsInTurn([], limits) == []
  {}

  lemma {:induction false} FieldsAreInTurn(fields: seq<D.Field>, n: nat, limits: C.Limits)
    requires n <= |fields| && D.RepresentableFields(fields)
    ensures D.EncodeFields(fields, n, limits) == FieldsInTurn(fields[..n], limits)
  {
    hide D.EncodeField, D.Representable, FieldsInTurn;
    if n == 0 {
      NoFields(limits);
    } else {
      FieldsAreInTurn(fields, n - 1, limits);
      assert fields[..n] == fields[..n - 1] + [fields[n - 1]];
      FieldsNext(fields[..n - 1], fields[n - 1], limits);
    }
  }

  /** What follows the number of the form. */
  function PartsOf(v: D.Value, limits: C.Limits): seq<byte>
    requires D.Representable(v)
  {
    if v.Record? then
      var n := if |v.fields| < limits.maxRecordFields then |v.fields| else limits.maxRecordFields;
      Four(n) + FieldsInTurn(v.fields[..n], limits)
    else if v.Predicate? then D.EncodeCondition(v.condition, limits)
    else FlatBytes(v, limits)
  }

  /** A value is the number of its form and then its parts. */
  lemma ValueIsLaidOut(v: D.Value, limits: C.Limits)
    requires D.Representable(v)
    ensures D.EncodeValue(v, limits) == Two(FormNumber(v)) + PartsOf(v, limits)
  {
    hide Encode, Four, Two, FlatBytes, D.EncodeFlat, FieldsInTurn, D.EncodeFields, D.EncodeCondition;
    NumbersAreLaidOut(FormNumber(v));
    if v.Record? {
      var n := Min(|v.fields|, limits.maxRecordFields);
      NumbersAreLaidOut(n);
      FieldsAreInTurn(v.fields, n, limits);
    } else if !v.Predicate? {
      FlatIsLaidOut(v, limits);
    }
  }
}
