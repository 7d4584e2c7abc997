// The bounded little-endian byte codec (include/hcr/detail/binary.hpp).
module Wire {
  import opened Basics

  type byte = n: nat | n < 256

  // ---- little-endian integers -------------------------------------------------

  function Power256(width: nat): (p: nat)
    ensures p > 0
  {
    if width == 0 then 1 else 256 * Power256(width - 1)
  }

  function Encode(n: nat, width: nat): (bs: seq<byte>)
    ensures |bs| == width
  {
    if width == 0 then [] else [n % 256] + Encode(n / 256, width - 1)
  }

  function Decode(bs: seq<byte>): nat {
    if bs == [] then 0 else bs[0] + 256 * Decode(bs[1..])
  }

  lemma {:induction false} EncodeDecode(n: nat, width: nat)
    requires n < Power256(width)
    ensures Decode(Encode(n, width)) == n
  {
    if width > 0 {
      EncodeDecode(n / 256, width - 1);
      assert Encode(n, width)[1..] == Encode(n / 256, width - 1);
    }
  }

  lemma LowByteSplits(b: byte, high: nat)
    ensures (b + 256 * high) % 256 == b && (b + 256 * high) / 256 == high
  {}

  lemma {:induction false} DecodeEncode(bs: seq<byte>)
    ensures Decode(bs) < Power256(|bs|) && Encode(Decode(bs), |bs|) == bs
  {
    if bs != [] {
      DecodeEncode(bs[1..]);
      LowByteSplits(bs[0], Decode(bs[1..]));
      assert bs == [bs[0]] + bs[1..];
    }
  }

  /** The octets of a C++ byte string. */
  function Octets(s: string): (bs: seq<byte>)
    ensures |bs| == |s|
  {
    seq(|s|, i requires 0 <= i < |s| => s[i] as int % 256)
  }

  function TextOf(bs: seq<byte>): (s: Text)
    ensures |s| == |bs|
  {
    seq(|bs|, i requires 0 <= i < |bs| => bs[i] as char)
  }

  lemma TextOctets(s: Text)
    ensures TextOf(Octets(s)) == s
  {}

  lemma OctetsText(bs: seq<byte>)
    ensures Octets(TextOf(bs)) == bs
  {}

  // ---- what a read consumes ---------------------------------------------------

  /** The outcome of decoding a prefix: nothing, or a value and the bytes after it. */
  datatype Parsed<+T> = Fail | Got(value: T, rest: seq<byte>) {
    predicate IsFailure() { Fail? }

    function PropagateFailure<U>(): Parsed<U>
      requires Fail?
    {
      Fail
    }

    function Extract(): (T, seq<byte>)
      requires Got?
    {
      (value, rest)
    }
  }

  function TakeUint(bs: seq<byte>, width: nat): (p: Parsed<nat>)
    ensures p.Got? ==> |p.rest| <= |bs|
  {
    if |bs| < width then Fail else Got(Decode(bs[..width]), bs[width..])
  }

  function TakeText(bs: seq<byte>, max: nat): (p: Parsed<Text>)
    ensures p.Got? ==> |p.rest| <= |bs|
  {
    var (n, rest) :- TakeUint(bs, 4);
    if n > max || n > |rest| then Fail else Got(TextOf(rest[..n]), rest[n..])
  }

  function EncodeText(s: string, max: nat): seq<byte> {
    var n := Min(|s|, max);
    Encode(n, 4) + Octets(s[..n])
  }

  lemma TakeEncodedUint(n: nat, width: nat, suffix: seq<byte>)
    requires n < Power256(width)
    ensures TakeUint(Encode(n, width) + suffix, width) == Got(n, suffix)
  {
    EncodeDecode(n, width);
    assert (Encode(n, width) + suffix)[..width] == Encode(n, width);
    assert (Encode(n, width) + suffix)[width..] == suffix;
  }

  lemma TakenUint(bs: seq<byte>, width: nat)
    requires TakeUint(bs, width).Got?
    ensures var p := TakeUint(bs, width); bs == Encode(p.value, width) + p.rest
  {
    DecodeEncode(bs[..width]);
    assert bs == bs[..width] + bs[width..];
  }

  const MaxU32: nat := 0xFFFF_FFFF

  lemma Widths()
    ensures Power256(1) == 0x100 && Power256(2) == 0x1_0000 && Power256(4) == MaxU32 + 1
    ensures Power256(8) == 0x1_0000_0000_0000_0000
  {
    assert Power256(3) == 0x100_0000 && Power256(5) == 0x100_0000_0000;
    assert Power256(6) == 0x1_0000_0000_0000;
  }

  lemma TakeEncodedText(s: Text, max: nat, suffix: seq<byte>)
    requires |s| <= max <= MaxU32
    ensures TakeText(EncodeText(s, max) + suffix, max) == Got(s, suffix)
  {
    Widths();
    var head, body := Encode(|s|, 4), Octets(s);
    assert s[..|s|] == s;
    assert EncodeText(s, max) + suffix == head + (body + suffix);
    TakeEncodedUint(|s|, 4, body + suffix);
    assert (body + suffix)[..|s|] == body && (body + suffix)[|s|..] == suffix;
    TextOctets(s);
  }

  lemma TakenText(bs: seq<byte>, max: nat)
    requires TakeText(bs, max).Got?
    ensures var p := TakeText(bs, max); bs == EncodeText(p.value, max) + p.rest && |p.value| <= max
  {
    hide Encode, Decode;
    TakenUint(bs, 4);
    var n, rest := TakeUint(bs, 4).value, TakeUint(bs, 4).rest;
    OctetsText(rest[..n]);
    var s := TextOf(rest[..n]);
    assert s[..n] == s;
    assert rest == rest[..n] + rest[n..];
  }

  // ---- the writer ----------------------------------------------------------------

  class ByteWriter {
    var out: seq<byte>
    var truncated: bool

    constructor (prefix: seq<byte>)
      ensures out == prefix && !truncated
    {
      out, truncated := prefix, false;
    }

    method Uint(value: nat, width: nat)
      modifies this`out
      ensures out == old(out) + Encode(value, width)
    {
      var rest := value;
      for i := 0 to width
        invariant out + Encode(rest, width - i) == old(out) + Encode(value, width)
      {
        out := out + [rest % 256];
        rest := rest / 256;
      }
    }

    /** A text longer than the bound is clamped and the truncation recorded. */
    method Str(text: string, max: nat)
      modifies this
      ensures out == old(out) + EncodeText(text, max)
      ensures truncated <==> old(truncated) || |text| > max
    {
      if |text| > max { truncated := true; }
      var size := if |text| > max then max else |text|;
      Uint(size, 4);
      out := out + Octets(text[..size]);
    }
  }

  // ---- the reader ----------------------------------------------------------------

  class ByteReader {
    const data: seq<byte>
    var position: nat
    var ok: bool

    ghost predicate Valid()
      reads this
    {
      position <= |data|
    }

    ghost function Rest(): seq<byte>
      requires Valid()
      reads this
    {
      data[position..]
    }

    /** This read turned the unread bytes `before` into what `p` says. */
    ghost predicate After<T(!new)>(p: Parsed<T>, value: T)
      requires Valid()
      reads this
    {
      if p.Got? then ok && value == p.value && Rest() == p.rest else !ok
    }

    constructor (bytes: seq<byte>)
      ensures Valid() && ok && Rest() == bytes
    {
      data, position, ok := bytes, 0, true;
    }

    method Fail()
      requires Valid()
      modifies this`ok
      ensures !ok
    {
      ok := false;
    }

    method U8() returns (value: nat)
      requires Valid()
      modifies this
      ensures Valid() && value < 256
      ensures old(ok) ==> After(TakeUint(old(Rest()), 1), value)
      ensures !old(ok) ==> !ok
    {
      if !ok { return 0; }
      if position + 1 > |data| {
        ok := false;
        return 0;
      }
      value := data[position];
      assert Rest()[..1] == [data[position]] && Rest()[1..] == data[position + 1..];
      assert Decode([data[position]]) == data[position];
      position := position + 1;
    }

    method Uint(width: nat) returns (value: nat)
      requires Valid()
      modifies this
      ensures Valid()
      ensures old(ok) ==> After(TakeUint(old(Rest()), width), value)
      ensures !old(ok) ==> !ok
    {
      value := 0;
      var scale: nat := 1;
      ghost var start := position;
      ghost var whole := if |data| - start >= width then data[start..start + width] else [];
      for i := 0 to width
        invariant Valid()
        invariant !old(ok) ==> !ok
        invariant old(ok) && ok ==> position == start + i
        invariant old(ok) && !ok ==> |data| - start < width
        invariant old(ok) && |data| - start >= width ==> ok && Decode(whole) == value + scale * Decode(whole[i..])
      {
        ghost var here := position;
        var octet := U8();
        if ok && |data| - start >= width {
          assert whole[i..][1..] == whole[i + 1..];
          assert data[here..][..1] == [data[here]] && whole[i] == data[here];
          assert Decode([data[here]]) == data[here];
          Distribute(scale, octet, Decode(whole[i + 1..]));
        }
        value := value + scale * octet;
        scale := scale * 256;
      }
      if old(ok) && ok {
        assert whole[width..] == [];
        assert old(Rest())[..width] == whole;
      }
    }

    lemma Distribute(scale: nat, octet: nat, tail: nat)
      ensures scale * (octet + 256 * tail) == scale * octet + (scale * 256) * tail
    {}

    method Boolean() returns (value: bool)
      requires Valid()
      modifies this
      ensures Valid()
      ensures old(ok) ==> match TakeUint(old(Rest()), 1)
                          case Fail => !ok
                          case Got(n, rest) => ok && Rest() == rest && (value <==> n != 0)
      ensures !old(ok) ==> !ok
    {
      var raw := U8();
      value := raw != 0;
    }

    method Str(max: nat) returns (text: Text)
      requires Valid()
      modifies this
      ensures Valid()
      ensures old(ok) ==> After(TakeText(old(Rest()), max), text)
      ensures !old(ok) ==> !ok
    {
      var length := Uint(4);
      if !ok { return ""; }
      if length > max || length > |data| - position {
        ok := false;
        return "";
      }
      text := TextOf(data[position..position + length]);
      assert Rest()[..length] == data[position..position + length];
      position := position + length;
    }
  }
}
