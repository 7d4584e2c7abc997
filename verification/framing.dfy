// Bounded, checksum-protected frames (src/protocol.cpp): the encoder, the
// incremental decoder over a growing buffer, and what is independent of how
// the byte stream happens to be cut into chunks.
module Framing {
  import opened Basics
  import opened Wire
  import opened Crc

  const HeaderSize: nat := 28
  const Magic: nat := 0x5052_4348
  const ProtocolVersion: nat := 1
  const KnownFlags: nat := 3
  const LastMessageType: nat := 17

  /** A frame; `kind` is the message type number. */
  datatype Frame = Frame(kind: nat, flags: nat, correlation: nat, payload: seq<byte>)

  datatype Header = Header(magic: nat, version: nat, kind: nat, flags: nat, length: nat, checksum: nat, correlation: nat)

  datatype Error =
    | BadMagic | UnsupportedVersion | UnknownType | UndefinedFlags | PayloadTooLong | BadChecksum | BufferFull

  predicate KnownType(kind: nat) { 1 <= kind <= LastMessageType }

  // ---- encoding -------------------------------------------------------------------

  /** The frames the encoder accepts; a flag set is known when only its two lowest bits are used. */
  predicate Encodable(f: Frame, maxPayload: nat) {
    KnownType(f.kind) && f.flags <= KnownFlags && |f.payload| <= maxPayload && f.correlation <= MaxU64
  }

  function Encoded(f: Frame): (bs: seq<byte>)
    ensures |bs| == HeaderSize + |f.payload|
  {
    Encode(Magic, 4) + (Encode(ProtocolVersion, 2) + (Encode(f.kind, 2) + (Encode(f.flags, 4)
    + (Encode(|f.payload|, 4) + (Encode(CrcField(f.payload), 4) + (Encode(f.correlation, 8) + f.payload))))))
  }

  method EncodeFrame(f: Frame, maxPayload: nat) returns (r: Option<seq<byte>>)
    requires f.correlation <= MaxU64
    ensures r == if Encodable(f, maxPayload) then Some(Encoded(f)) else None
  {
    if !KnownType(f.kind) { return None; }
    if |f.payload| > maxPayload { return None; }
    if f.flags > KnownFlags { return None; }
    var crc := Crc32(f.payload);
    var bytes := WriteFrame(f, crc as int);
    return Some(bytes);
  }

  lemma LeftToRight(a: seq<byte>, b: seq<byte>, c: seq<byte>, d: seq<byte>, e: seq<byte>, f: seq<byte>, g: seq<byte>, h: seq<byte>)
    ensures a + b + c + d + e + f + g + h == a + (b + (c + (d + (e + (f + (g + h))))))
  {}

  method WriteFrame(f: Frame, crc: nat) returns (bytes: seq<byte>)
    requires crc == CrcField(f.payload)
    ensures bytes == Encoded(f)
  {
    var writer := new ByteWriter([]);
    writer.Uint(Magic, 4);
    assert writer.out == Encode(Magic, 4);
    writer.Uint(ProtocolVersion, 2);
    writer.Uint(f.kind, 2);
    writer.Uint(f.flags, 4);
    writer.Uint(|f.payload|, 4);
    writer.Uint(crc, 4);
    writer.Uint(f.correlation, 8);
    bytes := writer.out + f.payload;
    LeftToRight(Encode(Magic, 4), Encode(ProtocolVersion, 2), Encode(f.kind, 2), Encode(f.flags, 4),
                Encode(|f.payload|, 4), Encode(crc, 4), Encode(f.correlation, 8), f.payload);
  }

  // ---- decoding ---------------------------------------------------------------------

  function ReadHeader(bs: seq<byte>): Header
    requires |bs| >= HeaderSize
  {
    Header(Decode(bs[0..4]), Decode(bs[4..6]), Decode(bs[6..8]), Decode(bs[8..12]),
           Decode(bs[12..16]), Decode(bs[16..20]), Decode(bs[20..28]))
  }

  function HeaderError(h: Header, maxPayload: nat): Option<Error> {
    if h.magic != Magic then Some(BadMagic)
    else if h.version != ProtocolVersion then Some(UnsupportedVersion)
    else if !KnownType(h.kind) then Some(UnknownType)
    else if h.flags > KnownFlags then Some(UndefinedFlags)
    else if h.length > maxPayload then Some(PayloadTooLong)
    else None
  }

  /** What the bytes at the cursor hold: part of a frame, a defect, or a frame and its size. */
  datatype Head = Incomplete | Defect(error: Error) | Complete(frame: Frame, size: nat)

  function ReadHead(bs: seq<byte>, maxPayload: nat): (head: Head)
    ensures head.Complete? ==> HeaderSize <= head.size <= |bs|
  {
    if |bs| < HeaderSize then Incomplete
    else
      var h := ReadHeader(bs);
      match HeaderError(h, maxPayload)
      case Some(e) => Defect(e)
      case None =>
        if |bs| < HeaderSize + h.length then Incomplete
        else
          var payload := bs[HeaderSize..HeaderSize + h.length];
          if CrcField(payload) != h.checksum then Defect(BadChecksum)
          else Complete(Frame(h.kind, h.flags, h.correlation, payload), HeaderSize + h.length)
  }

  /** All complete frames, the bytes left over, and the defect that stopped decoding, if any. */
  datatype Stream = Stream(frames: seq<Frame>, rest: seq<byte>, error: Option<Error>)

  function Prepend(frames: seq<Frame>, s: Stream): Stream {
    s.(frames := frames + s.frames)
  }

  lemma PrependTwice(a: seq<Frame>, b: seq<Frame>, s: Stream)
    ensures Prepend(a, Prepend(b, s)) == Prepend(a + b, s)
  {
    assert a + (b + s.frames) == a + b + s.frames;
  }

  lemma PrependNothing(s: Stream)
    ensures Prepend([], s) == s
  {}

  // Decoding a stream is the same loop whatever reads the next frame, so it is
  // defined and studied for an arbitrary reader.
  type HeadReader = seq<byte> -> Head

  function DecodeWith(head: HeadReader, bs: seq<byte>): Stream {
    match head(bs)
    case Incomplete => Stream([], bs, None)
    case Defect(e) => Stream([], bs, Some(e))
    case Complete(f, n) =>
      if 0 < n <= |bs| then Prepend([f], DecodeWith(head, bs[n..])) else Stream([], bs, None)
  }

  /** The decoder loop so far: these frames came off the front, and `consumed` bytes with them. */
  ghost predicate Drained(head: HeadReader, bs: seq<byte>, frames: seq<Frame>, consumed: nat) {
    consumed <= |bs| && DecodeWith(head, bs) == Prepend(frames, DecodeWith(head, bs[consumed..]))
  }

  lemma DrainNothing(head: HeadReader, bs: seq<byte>)
    ensures Drained(head, bs, [], 0)
  {
    assert bs[0..] == bs;
    PrependNothing(DecodeWith(head, bs));
  }

  lemma DrainOne(head: HeadReader, bs: seq<byte>, frames: seq<Frame>, consumed: nat, f: Frame, n: nat)
    requires Drained(head, bs, frames, consumed)
    requires head(bs[consumed..]) == Complete(f, n) && 0 < n <= |bs| - consumed
    ensures Drained(head, bs, frames + [f], consumed + n)
  {
    assert bs[consumed..][n..] == bs[consumed + n..];
    PrependTwice(frames, [f], DecodeWith(head, bs[consumed + n..]));
  }

  lemma DrainEnd(head: HeadReader, bs: seq<byte>, frames: seq<Frame>, consumed: nat)
    requires Drained(head, bs, frames, consumed) && !head(bs[consumed..]).Complete?
    ensures var s := DecodeWith(head, bs);
            && s.frames == frames && s.rest == bs[consumed..]
            && s.error == if head(bs[consumed..]).Defect? then Some(head(bs[consumed..]).error) else None
  {}

  function Reader(maxPayload: nat): HeadReader {
    bs => ReadHead(bs, maxPayload)
  }

  lemma ShortIsIncomplete(bs: seq<byte>, maxPayload: nat)
    requires |bs| < HeaderSize
    ensures Reader(maxPayload)(bs) == Incomplete
  {}

  function DecodeStream(bs: seq<byte>, maxPayload: nat): Stream {
    DecodeWith(Reader(maxPayload), bs)
  }

  class FrameDecoder {
    const maxPayload: nat
    var buffer: seq<byte>

    constructor (maxPayload: nat)
      ensures this.maxPayload == maxPayload && buffer == []
    {
      this.maxPayload, buffer := maxPayload, [];
    }

    method ReadFrame(consumed: nat) returns (head: Head)
      requires consumed <= |buffer|
      ensures head == Reader(maxPayload)(buffer[consumed..])
      ensures head.Complete? ==> HeaderSize <= head.size <= |buffer| - consumed
      ensures |buffer| - consumed < HeaderSize ==> head == Incomplete
    {
      var bytes := buffer[consumed..];
      if |bytes| < HeaderSize { return Incomplete; }
      var h := ReadHeader(bytes);
      if h.magic != Magic { return Defect(BadMagic); }
      if h.version != ProtocolVersion { return Defect(UnsupportedVersion); }
      if !KnownType(h.kind) { return Defect(UnknownType); }
      if h.flags > KnownFlags { return Defect(UndefinedFlags); }
      if h.length > maxPayload { return Defect(PayloadTooLong); }
      if |bytes| < HeaderSize + h.length { return Incomplete; }
      var payload := bytes[HeaderSize..HeaderSize + h.length];
      var crc := Crc32(payload);
      if crc as int != h.checksum { return Defect(BadChecksum); }
      return Complete(Frame(h.kind, h.flags, h.correlation, payload), HeaderSize + h.length);
    }

    /** Hands out every complete frame of the buffer; `consumed` bytes of it belong to them. */
    method Drain() returns (frames: seq<Frame>, consumed: nat, error: Option<Error>)
      ensures consumed <= |buffer|
      ensures var s := DecodeWith(Reader(maxPayload), buffer);
              frames == s.frames && error == s.error && buffer[consumed..] == s.rest
    {
      hide ReadHead;
      ghost var reader := Reader(maxPayload);
      frames, consumed, error := [], 0, None;
      DrainNothing(reader, buffer);
      while |buffer| - consumed >= HeaderSize
        invariant Drained(reader, buffer, frames, consumed)
        decreases |buffer| - consumed
      {
        var head := ReadFrame(consumed);
        if head.Incomplete? {
          break;
        } else if head.Defect? {
          DrainEnd(reader, buffer, frames, consumed);
          return frames, consumed, Some(head.error);
        }
        DrainOne(reader, buffer, frames, consumed, head.frame, head.size);
        frames := frames + [head.frame];
        consumed := consumed + head.size;
      }
      if |buffer| - consumed < HeaderSize { ShortIsIncomplete(buffer[consumed..], maxPayload); }
      DrainEnd(reader, buffer, frames, consumed);
    }

    /** Appends bytes, hands out every complete frame, keeps the rest. On a defect nothing is erased. */
    method Feed(data: seq<byte>) returns (frames: seq<Frame>, error: Option<Error>)
      modifies this
      ensures |old(buffer)| + |data| > maxPayload + HeaderSize ==>
                error == Some(BufferFull) && frames == [] && buffer == old(buffer)
      ensures |old(buffer)| + |data| <= maxPayload + HeaderSize ==>
                var s := DecodeStream(old(buffer) + data, maxPayload);
                frames == s.frames && error == s.error && buffer == if s.error == None then s.rest else old(buffer) + data
    {
      if |buffer| + |data| > maxPayload + HeaderSize { return [], Some(BufferFull); }
      buffer := buffer + data;
      var consumed: nat;
      frames, consumed, error := Drain();
      if error == None { buffer := buffer[consumed..]; }
    }

    /** A connection may end only between frames. */
    method Finish() returns (ok: bool)
      ensures ok <==> buffer == []
    {
      ok := |buffer| == 0;
    }
  }

  // ---- cutting the stream ---------------------------------------------------------------

  lemma HeaderOfPrefix(x: seq<byte>, y: seq<byte>)
    requires |x| >= HeaderSize
    ensures ReadHeader(x + y) == ReadHeader(x)
  {
    assert (x + y)[0..4] == x[0..4] && (x + y)[4..6] == x[4..6] && (x + y)[6..8] == x[6..8] && (x + y)[8..12] == x[8..12];
    assert (x + y)[12..16] == x[12..16] && (x + y)[16..20] == x[16..20] && (x + y)[20..28] == x[20..28];
  }

  lemma HeadOfPrefix(x: seq<byte>, y: seq<byte>, maxPayload: nat)
    ensures ReadHead(x, maxPayload) != Incomplete ==> ReadHead(x + y, maxPayload) == ReadHead(x, maxPayload)
  {
    if |x| >= HeaderSize {
      HeaderOfPrefix(x, y);
      var n := HeaderSize + ReadHeader(x).length;
      if n <= |x| { assert (x + y)[HeaderSize..n] == x[HeaderSize..n]; }
    }
  }

  /** More bytes never change what a reader has already recognised. */
  ghost predicate Stable(head: HeadReader) {
    && (forall x, y :: head(x) != Incomplete ==> head(x + y) == head(x))
    && (forall x :: head(x).Complete? ==> 0 < head(x).size <= |x|)
  }

  lemma FrameReaderStable(maxPayload: nat)
    ensures Stable(Reader(maxPayload))
  {
    var head := Reader(maxPayload);
    forall x, y | head(x) != Incomplete ensures head(x + y) == head(x) {
      HeadOfPrefix(x, y, maxPayload);
    }
  }

  /** Decoding a prefix first loses nothing: not the frames, and not the defect that ends them. */
  lemma {:induction false} DecodePrefixFirst(head: HeadReader, x: seq<byte>, y: seq<byte>)
    requires Stable(head)
    ensures var s := DecodeWith(head, x);
            s.error == None ==> DecodeWith(head, x + y) == Prepend(s.frames, DecodeWith(head, s.rest + y))
    ensures var s := DecodeWith(head, x);
            s.error != None ==> DecodeWith(head, x + y).error == s.error && DecodeWith(head, x + y).frames == s.frames
  {
    match head(x)
    case Incomplete =>
      PrependNothing(DecodeWith(head, x + y));
    case Defect(_) =>
    case Complete(f, n) =>
      assert head(x + y) == head(x);
      assert (x + y)[n..] == x[n..] + y;
      DecodePrefixFirst(head, x[n..], y);
      var tail := DecodeWith(head, x[n..]);
      PrependTwice([f], tail.frames, DecodeWith(head, tail.rest + y));
  }

  /** What remains after a successful decode holds no complete frame. */
  lemma {:induction false} RestIsIncomplete(head: HeadReader, bs: seq<byte>)
    requires Stable(head) && DecodeWith(head, bs).error == None
    ensures head(DecodeWith(head, bs).rest) == Incomplete
  {
    if head(bs).Complete? { RestIsIncomplete(head, bs[head(bs).size..]); }
  }

  /** Successive feeds, as the decoder performs them, stopping at the first failure. */
  function FeedAllWith(head: HeadReader, capacity: nat, buffer: seq<byte>, chunks: seq<seq<byte>>): Stream
    decreases chunks
  {
    if chunks == [] then Stream([], buffer, None)
    else if |buffer| + |chunks[0]| > capacity then Stream([], buffer, Some(BufferFull))
    else
      var s := DecodeWith(head, buffer + chunks[0]);
      if s.error != None then Stream(s.frames, buffer + chunks[0], s.error)
      else Prepend(s.frames, FeedAllWith(head, capacity, s.rest, chunks[1..]))
  }

  function FeedAll(chunks: seq<seq<byte>>, maxPayload: nat): Stream {
    FeedAllWith(Reader(maxPayload), maxPayload + HeaderSize, [], chunks)
  }

  function Concat(chunks: seq<seq<byte>>): seq<byte> {
    if chunks == [] then [] else chunks[0] + Concat(chunks[1..])
  }

  /** The same frames and the same defect; without a defect the same residue too. */
  predicate SameOutcome(cut: Stream, whole: Stream) {
    cut.error == whole.error && cut.frames == whole.frames && (whole.error == None ==> cut.rest == whole.rest)
  }

  lemma {:induction false} ChunksWith(head: HeadReader, capacity: nat, buffer: seq<byte>, chunks: seq<seq<byte>>)
    requires Stable(head) && head(buffer) == Incomplete
    ensures var whole, cut := DecodeWith(head, buffer + Concat(chunks)), FeedAllWith(head, capacity, buffer, chunks);
            cut.error == Some(BufferFull) || SameOutcome(cut, whole)
    decreases chunks
  {
    if chunks == [] {
      assert buffer + Concat(chunks) == buffer;
    } else if |buffer| + |chunks[0]| <= capacity {
      var rest := Concat(chunks[1..]);
      assert buffer + Concat(chunks) == buffer + chunks[0] + rest;
      DecodePrefixFirst(head, buffer + chunks[0], rest);
      var s := DecodeWith(head, buffer + chunks[0]);
      if s.error == None {
        RestIsIncomplete(head, buffer + chunks[0]);
        ChunksWith(head, capacity, s.rest, chunks[1..]);
      }
    }
  }

  /**
   * However a stream is cut, either some chunk overflows the buffer, or the chunks give the frames of one feed and end with
   * the same defect, or without one with the same residue.
   */
  lemma ChunkingIndependence(chunks: seq<seq<byte>>, maxPayload: nat)
    ensures var whole, cut := DecodeStream(Concat(chunks), maxPayload), FeedAll(chunks, maxPayload);
            cut.error == Some(BufferFull) || SameOutcome(cut, whole)
  {
    FrameReaderStable(maxPayload);
    assert [] + Concat(chunks) == Concat(chunks);
    ChunksWith(Reader(maxPayload), maxPayload + HeaderSize, [], chunks);
  }

  lemma {:induction false} RestIsShorter(head: HeadReader, bs: seq<byte>)
    ensures |DecodeWith(head, bs).rest| <= |bs|
    decreases |bs|
  {
    if head(bs).Complete? && 0 < head(bs).size <= |bs| { RestIsShorter(head, bs[head(bs).size..]); }
  }

  lemma {:induction false} PartsFit(head: HeadReader, capacity: nat, buffer: seq<byte>, chunks: seq<seq<byte>>)
    requires |buffer| + |Concat(chunks)| <= capacity && forall x :: head(x) != Defect(BufferFull)
    ensures FeedAllWith(head, capacity, buffer, chunks).error != Some(BufferFull)
    decreases chunks
  {
    if chunks != [] {
      DecodeNeverFull(head, buffer + chunks[0]);
      RestIsShorter(head, buffer + chunks[0]);
      var s := DecodeWith(head, buffer + chunks[0]);
      if s.error == None { PartsFit(head, capacity, s.rest, chunks[1..]); }
    }
  }

  /** A stream that fits one feed gives the same however it is cut. */
  lemma FedInParts(chunks: seq<seq<byte>>, maxPayload: nat)
    requires |Concat(chunks)| <= maxPayload + HeaderSize
    ensures SameOutcome(FeedAll(chunks, maxPayload), DecodeStream(Concat(chunks), maxPayload))
  {
    ChunkingIndependence(chunks, maxPayload);
    forall x ensures Reader(maxPayload)(x) != Defect(BufferFull) { IncompleteIsShort(x, maxPayload); }
    PartsFit(Reader(maxPayload), maxPayload + HeaderSize, [], chunks);
  }

  /**
   * The residue of a successful decode is an incomplete frame: shorter than a header, or with a sound header and shorter than
   * the frame it announces. One more byte always fits the buffer.
   */
  lemma RestIsPartOfOneFrame(bs: seq<byte>, maxPayload: nat)
    requires DecodeStream(bs, maxPayload).error == None
    ensures var rest := DecodeStream(bs, maxPayload).rest;
            && ReadHead(rest, maxPayload) == Incomplete && |rest| < HeaderSize + maxPayload
            && (|rest| >= HeaderSize ==>
                 HeaderError(ReadHeader(rest), maxPayload) == None && |rest| < HeaderSize + ReadHeader(rest).length)
  {
    FrameReaderStable(maxPayload);
    RestIsIncomplete(Reader(maxPayload), bs);
    IncompleteIsShort(DecodeStream(bs, maxPayload).rest, maxPayload);
  }

  // ---- round trip ---------------------------------------------------------------------------

  /** The number encoded at position k, and what follows it. */
  lemma FieldAt(bs: seq<byte>, k: nat, n: nat, width: nat, rest: seq<byte>)
    requires k <= |bs| && bs[k..] == Encode(n, width) + rest && n < Power256(width)
    ensures k + width <= |bs| && Decode(bs[k..k + width]) == n && bs[k + width..] == rest
  {
    EncodeDecode(n, width);
    assert bs[k..][..width] == bs[k..k + width] && bs[k..][width..] == bs[k + width..];
  }

  lemma HeaderRoundTrip(f: Frame, maxPayload: nat)
    requires Encodable(f, maxPayload) && maxPayload <= MaxU32
    ensures ReadHeader(Encoded(f)) ==
            Header(Magic, ProtocolVersion, f.kind, f.flags, |f.payload|, CrcField(f.payload), f.correlation)
    ensures Encoded(f)[HeaderSize..] == f.payload
  {
    Widths();
    var bs := Encoded(f);
    var correlation := Encode(f.correlation, 8) + f.payload;
    var checksum := Encode(CrcField(f.payload), 4) + correlation;
    var length := Encode(|f.payload|, 4) + checksum;
    var flags := Encode(f.flags, 4) + length;
    var kind := Encode(f.kind, 2) + flags;
    FieldAt(bs, 0, Magic, 4, Encode(ProtocolVersion, 2) + kind);
    FieldAt(bs, 4, ProtocolVersion, 2, kind);
    FieldAt(bs, 6, f.kind, 2, flags);
    FieldAt(bs, 8, f.flags, 4, length);
    FieldAt(bs, 12, |f.payload|, 4, checksum);
    FieldAt(bs, 16, CrcField(f.payload), 4, correlation);
    FieldAt(bs, 20, f.correlation, 8, f.payload);
  }

  lemma HeadRoundTrip(f: Frame, suffix: seq<byte>, maxPayload: nat)
    requires Encodable(f, maxPayload) && maxPayload <= MaxU32
    ensures ReadHead(Encoded(f) + suffix, maxPayload) == Complete(f, |Encoded(f)|)
  {
    HeaderRoundTrip(f, maxPayload);
    assert Encoded(f)[HeaderSize..HeaderSize + |f.payload|] == f.payload;
    HeadOfPrefix(Encoded(f), suffix, maxPayload);
  }

  function EncodedAll(frames: seq<Frame>): seq<byte> {
    if frames == [] then [] else Encoded(frames[0]) + EncodedAll(frames[1..])
  }

  lemma {:induction false} StreamRoundTripWith(head: HeadReader, frames: seq<Frame>)
    requires Stable(head) && head([]) == Incomplete
    requires forall i, suffix :: 0 <= i < |frames| ==> head(Encoded(frames[i]) + suffix) == Complete(frames[i], |Encoded(frames[i])|)
    ensures DecodeWith(head, EncodedAll(frames)) == Stream(frames, [], None)
  {
    hide Encoded;
    if frames != [] {
      var first, suffix := Encoded(frames[0]), EncodedAll(frames[1..]);
      StreamRoundTripWith(head, frames[1..]);
      assert head(first + suffix) == Complete(frames[0], |first|);
      assert (first + suffix)[|first|..] == suffix;
      assert [frames[0]] + frames[1..] == frames;
    }
  }

  ghost predicate AllEncodable(frames: seq<Frame>, maxPayload: nat) {
    forall i :: 0 <= i < |frames| ==> Encodable(frames[i], maxPayload)
  }

  lemma StreamRoundTrip(frames: seq<Frame>, maxPayload: nat)
    requires maxPayload <= MaxU32 && AllEncodable(frames, maxPayload)
    ensures DecodeStream(EncodedAll(frames), maxPayload) == Stream(frames, [], None)
  {
    var head := Reader(maxPayload);
    FrameReaderStable(maxPayload);
    forall i, suffix | 0 <= i < |frames|
      ensures head(Encoded(frames[i]) + suffix) == Complete(frames[i], |Encoded(frames[i])|)
    {
      HeadRoundTrip(frames[i], suffix, maxPayload);
    }
    StreamRoundTripWith(head, frames);
  }

  /** Frames sent in sequence arrive as sent, however the bytes are cut, and leave the buffer empty. */
  lemma FramesSurviveChunking(frames: seq<Frame>, chunks: seq<seq<byte>>, maxPayload: nat)
    requires maxPayload <= MaxU32 && AllEncodable(frames, maxPayload)
    requires Concat(chunks) == EncodedAll(frames)
    ensures var s := FeedAll(chunks, maxPayload); s.error == Some(BufferFull) || s == Stream(frames, [], None)
  {
    StreamRoundTrip(frames, maxPayload);
    ChunkingIndependence(chunks, maxPayload);
  }

  lemma {:induction false} DecodeNeverFull(head: HeadReader, bs: seq<byte>)
    requires forall x :: head(x) != Defect(BufferFull)
    ensures DecodeWith(head, bs).error != Some(BufferFull)
  {
    if head(bs).Complete? && 0 < head(bs).size <= |bs| { DecodeNeverFull(head, bs[head(bs).size..]); }
  }

  lemma {:induction false} SmallChunksFit(head: HeadReader, capacity: nat, buffer: seq<byte>, chunks: seq<seq<byte>>)
    requires Stable(head) && head(buffer) == Incomplete
    requires forall x :: head(x) != Defect(BufferFull) && (head(x) == Incomplete ==> |x| < capacity)
    requires forall i :: 0 <= i < |chunks| ==> |chunks[i]| <= 1
    ensures FeedAllWith(head, capacity, buffer, chunks).error != Some(BufferFull)
    decreases chunks
  {
    if chunks != [] {
      var s := DecodeWith(head, buffer + chunks[0]);
      DecodeNeverFull(head, buffer + chunks[0]);
      if s.error == None {
        RestIsIncomplete(head, buffer + chunks[0]);
        SmallChunksFit(head, capacity, s.rest, chunks[1..]);
      }
    }
  }

  lemma IncompleteIsShort(x: seq<byte>, maxPayload: nat)
    ensures ReadHead(x, maxPayload) != Defect(BufferFull)
    ensures ReadHead(x, maxPayload) == Incomplete ==> |x| < maxPayload + HeaderSize
  {}

  /** Delivered byte by byte, no stream ever overflows the buffer: every frame sequence arrives. */
  lemma SingleBytesAlwaysArrive(frames: seq<Frame>, chunks: seq<seq<byte>>, maxPayload: nat)
    requires maxPayload <= MaxU32 && AllEncodable(frames, maxPayload)
    requires Concat(chunks) == EncodedAll(frames) && forall i :: 0 <= i < |chunks| ==> |chunks[i]| <= 1
    ensures FeedAll(chunks, maxPayload) == Stream(frames, [], None)
  {
    var head := Reader(maxPayload);
    FrameReaderStable(maxPayload);
    forall x ensures head(x) != Defect(BufferFull) && (head(x) == Incomplete ==> |x| < maxPayload + HeaderSize) {
      IncompleteIsShort(x, maxPayload);
    }
    SmallChunksFit(head, maxPayload + HeaderSize, [], chunks);
    FramesSurviveChunking(frames, chunks, maxPayload);
  }

  lemma FieldIs(bs: seq<byte>, k: nat, width: nat)
    requires k + width <= |bs|
    ensures bs[k..] == Encode(Decode(bs[k..k + width]), width) + bs[k + width..]
  {
    DecodeEncode(bs[k..k + width]);
    assert bs[k..] == bs[k..k + width] + bs[k + width..];
  }

  /** A recognised frame is the only reading of its bytes: encoding it gives them back. */
  lemma FrameIsCanonical(bs: seq<byte>, maxPayload: nat)
    requires ReadHead(bs, maxPayload).Complete?
    ensures var h := ReadHead(bs, maxPayload); bs == Encoded(h.frame) + bs[h.size..] && |Encoded(h.frame)| == h.size
  {
    var h := ReadHead(bs, maxPayload);
    var frame := bs[..h.size];
    HeaderOfPrefix(frame, bs[h.size..]);
    assert bs == frame + bs[h.size..];
    FieldIs(frame, 0, 4);
    FieldIs(frame, 4, 2);
    FieldIs(frame, 6, 2);
    FieldIs(frame, 8, 4);
    FieldIs(frame, 12, 4);
    FieldIs(frame, 16, 4);
    FieldIs(frame, 20, 8);
    assert frame[0..] == frame && frame[28..] == h.frame.payload;
  }

  predicate CanonicalAt(bs: seq<byte>, f: Frame, n: nat) {
    0 < n <= |bs| && bs == Encoded(f) + bs[n..]
  }

  lemma EncodedAllFirst(f: Frame, frames: seq<Frame>)
    ensures EncodedAll([f] + frames) == Encoded(f) + EncodedAll(frames)
  {
    hide Encoded;
    assert ([f] + frames)[1..] == frames;
  }

  lemma Regroup(whole: seq<byte>, a: seq<byte>, rest: seq<byte>, b: seq<byte>, c: seq<byte>)
    requires whole == a + rest && rest == b + c
    ensures whole == a + b + c
  {}

  lemma DecodeFirst(head: HeadReader, bs: seq<byte>)
    requires head(bs).Complete? ==> 0 < head(bs).size <= |bs|
    ensures var s := DecodeWith(head, bs);
            if head(bs).Complete? then
              var tail := DecodeWith(head, bs[head(bs).size..]);
              s.frames == [head(bs).frame] + tail.frames && s.rest == tail.rest
            else s.frames == [] && s.rest == bs
  {}

  lemma {:induction false} StreamIsCanonicalWith(head: HeadReader, bs: seq<byte>)
    requires forall x :: head(x).Complete? ==> CanonicalAt(x, head(x).frame, head(x).size)
    ensures var s := DecodeWith(head, bs); bs == EncodedAll(s.frames) + s.rest
    decreases |bs|
  {
    hide Encoded, EncodedAll, DecodeWith;
    assert head(bs).Complete? ==> CanonicalAt(bs, head(bs).frame, head(bs).size);
    DecodeFirst(head, bs);
    if head(bs).Complete? {
      var f, rest := head(bs).frame, bs[head(bs).size..];
      var tail := DecodeWith(head, rest);
      StreamIsCanonicalWith(head, rest);
      EncodedAllFirst(f, tail.frames);
      Regroup(bs, Encoded(f), rest, EncodedAll(tail.frames), tail.rest);
    } else {
      EncodedNone();
    }
  }

  lemma EncodedNone()
    ensures EncodedAll([]) == []
  {}

  /** Nothing is lost: the frames a decode gives, encoded again, and the residue are the bytes it was given. */
  lemma NothingIsLost(bs: seq<byte>, maxPayload: nat)
    ensures var s := DecodeStream(bs, maxPayload); bs == EncodedAll(s.frames) + s.rest
  {
    hide Encoded, EncodedAll;
    forall x | Reader(maxPayload)(x).Complete?
      ensures CanonicalAt(x, Reader(maxPayload)(x).frame, Reader(maxPayload)(x).size)
    {
      FrameIsCanonical(x, maxPayload);
    }
    StreamIsCanonicalWith(Reader(maxPayload), bs);
  }

  // ---- integrity ------------------------------------------------------------------------------

  lemma SameHeader(x: seq<byte>, y: seq<byte>)
    requires |x| >= HeaderSize && |y| >= HeaderSize && x[..HeaderSize] == y[..HeaderSize]
    ensures ReadHeader(x) == ReadHeader(y)
  {
    HeaderOfPrefix(x[..HeaderSize], x[HeaderSize..]);
    HeaderOfPrefix(y[..HeaderSize], y[HeaderSize..]);
    assert x == x[..HeaderSize] + x[HeaderSize..] && y == y[..HeaderSize] + y[HeaderSize..];
  }

  /** A frame with one altered payload byte is refused, whatever follows it. */
  lemma AlteredPayloadRefused(f: Frame, i: nat, b: byte, suffix: seq<byte>, maxPayload: nat)
    requires Encodable(f, maxPayload) && maxPayload <= MaxU32
    requires i < |f.payload| && b != f.payload[i]
    ensures DecodeStream(Encoded(f)[HeaderSize + i := b] + suffix, maxPayload).error == Some(BadChecksum)
  {
    hide ReadHeader, Encoded, CrcField;
    var altered := Encoded(f)[HeaderSize + i := b];
    assert altered[..HeaderSize] == Encoded(f)[..HeaderSize];
    SameHeader(altered, Encoded(f));
    HeaderRoundTrip(f, maxPayload);
    var payload := f.payload[i := b];
    assert altered[HeaderSize..] == Encoded(f)[HeaderSize..][i := b];
    assert altered[HeaderSize..HeaderSize + |f.payload|] == payload;
    AlteredByteAltersCrc(f.payload, payload, i);
    assert ReadHead(altered, maxPayload) == Defect(BadChecksum);
    HeadOfPrefix(altered, suffix, maxPayload);
    assert Reader(maxPayload)(altered + suffix) == Defect(BadChecksum);
  }
}
