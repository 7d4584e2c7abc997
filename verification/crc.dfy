// The frame checksum (src/protocol.cpp): a 256-entry table driven CRC-32
// (IEEE 802.3 clause 3.2.9, in the reflected form of section 8 of RFC 1952).
// The definition below works bit by bit; the method works byte by byte.
module Crc {
  import opened Wire

  // Iterates of an arbitrary step. The rank of the iterate itself is part of the
  // termination measure only to keep the solver from unrolling constant counts.
  function Iterate<W>(step: W -> W, x: W, n: nat): W
    decreases n, x
  {
    if n == 0 then x else step(Iterate(step, x, n - 1))
  }

  function Fold<W, B>(f: (W, B) -> W, start: W, data: seq<B>): W {
    if |data| == 0 then start else f(Fold(f, start, data[..|data| - 1]), data[|data| - 1])
  }

  // ---- the bit-by-bit definition -------------------------------------------------

  function Xor(x: bv32, y: bv32): bv32 { x ^ y }

  function Nibbles(high: bv4, low: bv4): bv32 { ((high as bv32) << 4) ^ (low as bv32) }

  /** A byte as a word, converted nibble by nibble. */
  function Word(b: byte): bv32 { Nibbles((b / 16) as bv4, (b % 16) as bv4) }

  /** One bit of the reflected division by the polynomial. */
  function BitStep(x: bv32): bv32 {
    if x & 1 == 1 then 0xEDB88320 ^ (x >> 1) else x >> 1
  }

  function ByteStep(crc: bv32, b: byte): bv32 {
    Iterate(BitStep, Xor(crc, Word(b)), 8)
  }

  function Checksum(data: seq<byte>): bv32 {
    Xor(Fold(ByteStep, 0xFFFFFFFF, data), 0xFFFFFFFF)
  }

  // ---- a byte step needs only the low byte of the register -----------------------------

  lemma ShiftXor(x: bv32, y: bv32)
    ensures (x ^ y) >> 1 == (x >> 1) ^ (y >> 1)
  {}

  lemma LowBitXor(x: bv32, y: bv32)
    requires y & 1 == 0
    ensures (x ^ y) & 1 == x & 1
  {}

  lemma LowBit(x: bv32)
    ensures x & 1 == 0 || x & 1 == 1
  {}

  lemma OddStepXorEven(x: bv32, y: bv32)
    requires y & 1 == 0 && x & 1 == 1
    ensures BitStep(x ^ y) == BitStep(x) ^ (y >> 1)
  {
    ShiftXor(x, y);
    LowBitXor(x, y);
  }

  lemma EvenStepXorEven(x: bv32, y: bv32)
    requires y & 1 == 0 && x & 1 == 0
    ensures BitStep(x ^ y) == BitStep(x) ^ (y >> 1)
  {
    ShiftXor(x, y);
    LowBitXor(x, y);
  }

  /** A step is linear in an even summand, which it merely shifts. */
  lemma StepXorEven(x: bv32, y: bv32)
    requires y & 1 == 0
    ensures BitStep(Xor(x, y)) == Xor(BitStep(x), y >> 1)
  {
    LowBit(x);
    if x & 1 == 1 { OddStepXorEven(x, y); } else { EvenStepXorEven(x, y); }
  }

  lemma StepsXorNext(x: bv32, z: bv32, n: nat, a: bv32, b: bv32)
    requires Iterate(BitStep, z, n) == Xor(Iterate(BitStep, x, n), a)
    requires a & 1 == 0 && b == a >> 1
    ensures Iterate(BitStep, z, n + 1) == Xor(Iterate(BitStep, x, n + 1), b)
  {
    StepXorEven(Iterate(BitStep, x, n), a);
  }

  lemma FourStepsXor(x: bv32, z: bv32, n: nat, a: bv32, b: bv32, c: bv32, d: bv32, e: bv32)
    requires Iterate(BitStep, z, n) == Xor(Iterate(BitStep, x, n), a)
    requires a & 1 == 0 && b & 1 == 0 && c & 1 == 0 && d & 1 == 0
    requires b == a >> 1 && c == b >> 1 && d == c >> 1 && e == d >> 1
    ensures Iterate(BitStep, z, n + 4) == Xor(Iterate(BitStep, x, n + 4), e)
  {
    StepsXorNext(x, z, n, a, b);
    StepsXorNext(x, z, n + 1, b, c);
    StepsXorNext(x, z, n + 2, c, d);
    StepsXorNext(x, z, n + 3, d, e);
  }

  lemma HalfZeroLow(y: bv32, m: bv32) returns (h: bv32)
    requires y & m == 0 && m & 1 == 1
    ensures h == y >> 1 && y & 1 == 0 && h & (m >> 1) == 0
  {
    h := y >> 1;
  }

  lemma Halves(y: bv32) returns (a: bv32, b: bv32, c: bv32, d: bv32, e: bv32, f: bv32, g: bv32, h: bv32)
    requires y & 0xFF == 0
    ensures y & 1 == 0 && a & 1 == 0 && b & 1 == 0 && c & 1 == 0
    ensures d & 1 == 0 && e & 1 == 0 && f & 1 == 0 && g & 1 == 0
    ensures a == y >> 1 && b == a >> 1 && c == b >> 1 && d == c >> 1
    ensures e == d >> 1 && f == e >> 1 && g == f >> 1 && h == g >> 1
    ensures h == y >> 8
  {
    a := HalfZeroLow(y, 0xFF);
    b := HalfZeroLow(a, 0x7F);
    c := HalfZeroLow(b, 0x3F);
    d := HalfZeroLow(c, 0x1F);
    e := HalfZeroLow(d, 0xF);
    f := HalfZeroLow(e, 7);
    g := HalfZeroLow(f, 3);
    h := HalfZeroLow(g, 1);
    EightShifts(y, a, b, c, d, e, f, g, h);
  }

  lemma EightShifts(y: bv32, a: bv32, b: bv32, c: bv32, d: bv32, e: bv32, f: bv32, g: bv32, h: bv32)
    requires a == y >> 1 && b == a >> 1 && c == b >> 1 && d == c >> 1
    requires e == d >> 1 && f == e >> 1 && g == f >> 1 && h == g >> 1
    ensures h == y >> 8
  {}

  lemma StepsXorHigh(x: bv32, y: bv32, z: bv32)
    requires y & 0xFF == 0 && z == Xor(x, y)
    ensures Iterate(BitStep, z, 8) == Xor(Iterate(BitStep, x, 8), y >> 8)
  {
    var a, b, c, d, e, f, g, h := Halves(y);
    FourStepsXor(x, z, 0, y, a, b, c, d);
    FourStepsXor(x, z, 4, d, e, f, g, h);
  }

  lemma SplitLow(x: bv32)
    ensures x == Xor(x & 0xFF, x & 0xFFFFFF00)
    ensures (x & 0xFFFFFF00) & 0xFF == 0 && (x & 0xFFFFFF00) >> 8 == x >> 8
  {}

  lemma ByteLeavesHigh(crc: bv32, high: bv4, low: bv4)
    ensures Xor(crc, Nibbles(high, low)) >> 8 == crc >> 8
  {}

  lemma TableStep(crc: bv32, b: byte)
    ensures ByteStep(crc, b) == Xor(Iterate(BitStep, Xor(crc, Word(b)) & 0xFF, 8), crc >> 8)
  {
    var x := Xor(crc, Word(b));
    SplitLow(x);
    StepsXorHigh(x & 0xFF, x & 0xFFFFFF00, x);
    ByteLeavesHigh(crc, (b / 16) as bv4, (b % 16) as bv4);
  }

  lemma LowByte(x: bv32)
    ensures x & 0xFF <= 255
  {}

  lemma IndexRoundTrip(x: bv32)
    requires x <= 255
    ensures x as int < 256 && (x as int) as bv32 == x
  {}

  // ---- the table-driven computation ---------------------------------------------------

  ghost predicate IsTable(t: seq<bv32>) {
    |t| == 256 && forall k :: 0 <= k < 256 ==> t[k] == Iterate(BitStep, k as bv32, 8)
  }

  method BuildTable() returns (table: array<bv32>)
    ensures fresh(table) && IsTable(table[..])
  {
    table := new bv32[256];
    for i := 0 to 256
      invariant forall k :: 0 <= k < i ==> table[k] == Iterate(BitStep, k as bv32, 8)
    {
      var value := i as bv32;
      for bit := 0 to 8
        invariant value == Iterate(BitStep, i as bv32, bit)
        invariant forall k :: 0 <= k < i ==> table[k] == Iterate(BitStep, k as bv32, 8)
      {
        LowBit(value);
        value := if value & 1 != 0 then 0xEDB88320 ^ (value >> 1) else value >> 1;
      }
      table[i] := value;
    }
  }

  method TableIndex(crc: bv32, b: byte) returns (index: nat)
    ensures index < 256 && index as bv32 == Xor(crc, Word(b)) & 0xFF
  {
    var low := Xor(crc, Word(b)) & 0xFF;
    LowByte(Xor(crc, Word(b)));
    IndexRoundTrip(low);
    index := low as int;
  }

  method Update(table: array<bv32>, crc: bv32, b: byte) returns (next: bv32)
    requires IsTable(table[..])
    ensures next == ByteStep(crc, b)
  {
    var index := TableIndex(crc, b);
    TableStep(crc, b);
    assert table[index] == table[..][index];
    next := Xor(table[index], crc >> 8);
  }

  /** The table-driven checksum is the bit-by-bit one. */
  method Crc32(data: seq<byte>) returns (crc: bv32)
    ensures crc == Checksum(data)
  {
    var table := BuildTable();
    crc := 0xFFFFFFFF;
    for i := 0 to |data|
      invariant crc == Fold(ByteStep, 0xFFFFFFFF, data[..i])
      invariant IsTable(table[..])
    {
      assert data[..i + 1][..i] == data[..i];
      crc := Update(table, crc, data[i]);
    }
    assert data[..|data|] == data;
    crc := Xor(crc, 0xFFFFFFFF);
  }

  // ---- one altered byte always changes the checksum --------------------------------------

  lemma {:induction false} IterateInjective<W(!new)>(step: W -> W, x: W, y: W, n: nat)
    requires forall a, b :: step(a) == step(b) ==> a == b
    requires Iterate(step, x, n) == Iterate(step, y, n)
    ensures x == y
  {
    if n > 0 { IterateInjective(step, x, y, n - 1); }
  }

  lemma {:induction false} FoldInjective<W(!new), B(!new)>(f: (W, B) -> W, s: W, t: W, data: seq<B>)
    requires forall a, b, c :: f(a, c) == f(b, c) ==> a == b
    requires s != t
    ensures Fold(f, s, data) != Fold(f, t, data)
  {
    if |data| > 0 { FoldInjective(f, s, t, data[..|data| - 1]); }
  }

  lemma {:induction false} FoldConcat<W, B>(f: (W, B) -> W, start: W, a: seq<B>, b: seq<B>)
    ensures Fold(f, start, a + b) == Fold(f, Fold(f, start, a), b)
  {
    if |b| == 0 {
      assert a + b == a;
    } else {
      var n := |b| - 1;
      FoldConcat(f, start, a, b[..n]);
      assert (a + b)[..|a| + n] == a + b[..n];
    }
  }

  lemma BitStepInjective(x: bv32, y: bv32)
    requires BitStep(x) == BitStep(y)
    ensures x == y
  {}

  lemma XorInjective(c: bv32, d: bv32, x: bv32)
    requires Xor(c, x) == Xor(d, x)
    ensures c == d
  {}

  lemma XorWordInjective(c: bv32, x: bv32, y: bv32)
    requires Xor(c, x) == Xor(c, y)
    ensures x == y
  {}

  lemma NibblesInjective(h: bv4, l: bv4, i: bv4, m: bv4)
    requires Nibbles(h, l) == Nibbles(i, m)
    ensures h == i && l == m
  {}

  lemma NibbleRoundTrip(n: nat)
    requires n < 16
    ensures (n as bv4) as int == n
  {}

  lemma WordInjective(x: byte, y: byte)
    requires Word(x) == Word(y)
    ensures x == y
  {
    NibblesInjective((x / 16) as bv4, (x % 16) as bv4, (y / 16) as bv4, (y % 16) as bv4);
    NibbleRoundTrip(x / 16);
    NibbleRoundTrip(x % 16);
    NibbleRoundTrip(y / 16);
    NibbleRoundTrip(y % 16);
  }

  lemma BitStepsInjective(x: bv32, y: bv32)
    requires Iterate(BitStep, x, 8) == Iterate(BitStep, y, 8)
    ensures x == y
  {
    forall a, b | BitStep(a) == BitStep(b) ensures a == b { BitStepInjective(a, b); }
    IterateInjective(BitStep, x, y, 8);
  }

  lemma ByteStepInjective(c: bv32, d: bv32, b: byte)
    requires ByteStep(c, b) == ByteStep(d, b)
    ensures c == d
  {
    BitStepsInjective(Xor(c, Word(b)), Xor(d, Word(b)));
    XorInjective(c, d, Word(b));
  }

  lemma ByteStepSeparates(c: bv32, x: byte, y: byte)
    requires ByteStep(c, x) == ByteStep(c, y)
    ensures x == y
  {
    BitStepsInjective(Xor(c, Word(x)), Xor(c, Word(y)));
    XorWordInjective(c, Word(x), Word(y));
    WordInjective(x, y);
  }

  lemma OneByteAltered(prefix: seq<byte>, x: byte, y: byte, suffix: seq<byte>)
    requires x != y
    ensures Checksum(prefix + [x] + suffix) != Checksum(prefix + [y] + suffix)
  {
    var r := Fold(ByteStep, 0xFFFFFFFF, prefix);
    assert (prefix + [x])[..|prefix|] == prefix == (prefix + [y])[..|prefix|];
    if ByteStep(r, x) == ByteStep(r, y) { ByteStepSeparates(r, x, y); }
    FoldConcat(ByteStep, 0xFFFFFFFF, prefix + [x], suffix);
    FoldConcat(ByteStep, 0xFFFFFFFF, prefix + [y], suffix);
    forall a, b, c | ByteStep(a, c) == ByteStep(b, c) ensures a == b { ByteStepInjective(a, b, c); }
    FoldInjective(ByteStep, ByteStep(r, x), ByteStep(r, y), suffix);
    var a := Fold(ByteStep, 0xFFFFFFFF, prefix + [x] + suffix);
    var b := Fold(ByteStep, 0xFFFFFFFF, prefix + [y] + suffix);
    if Xor(a, 0xFFFFFFFF) == Xor(b, 0xFFFFFFFF) { XorInjective(a, b, 0xFFFFFFFF); }
  }

  /** The checksum as the 32-bit integer written on the wire. */
  function CrcField(data: seq<byte>): (crc: nat)
    ensures crc <= MaxU32
  {
    Checksum(data) as int
  }

  lemma DistinctWords(a: bv32, b: bv32)
    requires a != b
    ensures a as int != b as int
  {
    assert (a as int) as bv32 == a;
    assert (b as int) as bv32 == b;
  }

  lemma AlteredByteAltersCrc(payload: seq<byte>, altered: seq<byte>, i: nat)
    requires i < |payload| && |altered| == |payload|
    requires payload[i] != altered[i] && forall k :: 0 <= k < |payload| && k != i ==> payload[k] == altered[k]
    ensures CrcField(payload) != CrcField(altered)
  {
    assert payload == payload[..i] + [payload[i]] + payload[i + 1..];
    assert altered == payload[..i] + [altered[i]] + payload[i + 1..];
    OneByteAltered(payload[..i], payload[i], altered[i], payload[i + 1..]);
    DistinctWords(Checksum(payload), Checksum(altered));
  }
}
