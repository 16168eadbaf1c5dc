/**
 The packet codec and the stream reader (src/proto/packet.rs), with the per-connection
 cells they consult (src/proto/client.rs).
 */
module Packet {
  import opened Base
  import VarInt

  // ----- src/proto/client.rs -----

  datatype ClientState = Handshake | Status | Login | Play

  function FromId(id: I32): Option<ClientState> {
    match id
    case 0 => Some(Handshake)
    case 1 => Some(Status)
    case 2 => Some(Login)
    case _ => None
  }

  function ToId(state: ClientState): I32 {
    match state
    case Handshake => 0
    case Status => 1
    case Login => 2
    case Play => -1
  }

  /** `from_id` inverts `to_id` exactly on the states a handshake can ask for. */
  lemma StateIds(state: ClientState, id: I32)
    ensures FromId(id) == Some(state) <==> state != Play && ToId(state) == id
    ensures FromId(id) == None <==> id < 0 || id > 2
    ensures FromId(0) == Some(Handshake) && FromId(1) == Some(Status) && FromId(2) == Some(Login)
  {
  }

  class Client {
    var state: ClientState
    var compression: I32

    constructor ()
      ensures state == Handshake && compression == -1
    {
      state := Handshake;
      compression := -1;
    }

    predicate IsCompressed()
      reads this
    {
      compression >= 0
    }

    method SetState(to: ClientState)
      modifies this`state
      ensures state == to
    {
      state := to;
    }

    method SetCompression(threshold: I32)
      modifies this`compression
      ensures compression == threshold
    {
      compression := threshold;
    }
  }

  // ----- codec -----

  datatype RawPacket = RawPacket(id: Byte, data: seq<Byte>)

  /** The zlib library (RFC 1950), as an opaque pair of total functions. */
  datatype Zlib = Zlib(deflate: seq<Byte> -> seq<Byte>, inflate: seq<Byte> -> Option<seq<Byte>>) {
    ghost predicate Lawful() {
      forall x :: inflate(deflate(x)) == Some(x)
    }
  }

  function IdAndData(buf: seq<Byte>): Option<RawPacket> {
    match VarInt.Parse(buf)
    case Malformed => None
    case Read(n, id) => Some(RawPacket(id % 256, buf[n..]))
  }

  /** `decode_without_len`: what a frame body means to a reader whose threshold is `t`. */
  function DecodeBody(z: Zlib, t: I32, body: seq<Byte>): Option<RawPacket> {
    if t < 0 then IdAndData(body)
    else match VarInt.Parse(body)
         case Malformed => None
         case Read(n, size) =>
           if size == 0 then IdAndData(body[n..])
           else match z.inflate(body[n..])
                case None => None
                case Some(plain) => if |plain| != AsUsize(size) then None else IdAndData(plain)
  }

  function Plain(p: RawPacket): seq<Byte> {
    VarInt.Encode(p.id) + p.data
  }

  /** `encode_without_len`: the frame body a writer whose threshold is `t` produces. */
  function Body(z: Zlib, t: I32, p: RawPacket): seq<Byte> {
    if t < 0 then Plain(p)
    else var size := AsI32(|Plain(p)|);
         if size > t then VarInt.Encode(size) + z.deflate(Plain(p))
         else VarInt.Encode(0) + Plain(p)
  }

  function Framed(body: seq<Byte>): seq<Byte> {
    VarInt.Encode(AsI32(|body|)) + body
  }

  function Frame(z: Zlib, t: I32, p: RawPacket): seq<Byte> {
    Framed(Body(z, t, p))
  }

  /** `decode_with_len` slices out of bounds, and so panics, unless its caller framed the buffer. */
  predicate InBounds(buf: seq<Byte>) {
    var r := VarInt.Parse(buf);
    r.Read? ==> r.len + AsUsize(r.value) <= |buf|
  }

  function DecodeFrame(z: Zlib, t: I32, buf: seq<Byte>): Option<RawPacket>
    requires InBounds(buf)
  {
    match VarInt.Parse(buf)
    case Malformed => None
    case Read(n, len) => DecodeBody(z, t, buf[n..][..AsUsize(len)])
  }

  /** The sizes the source casts to i32 fit. */
  predicate Fits(z: Zlib, t: I32, p: RawPacket) {
    |Plain(p)| < 0x8000_0000 && |Body(z, t, p)| < 0x8000_0000
  }

  // ----- the codec of the source, buffer by buffer -----

  method ReadPacketIdData(buf: seq<Byte>) returns (r: Option<RawPacket>)
    ensures r == IdAndData(buf)
  {
    var id := VarInt.ReadVarInt(buf);
    if id.Malformed? { return None; }
    var rest := buf[id.len..];
    return Some(RawPacket(id.value % 256, rest));
  }

  method DecodeWithoutLen(z: Zlib, client: Client, body: seq<Byte>) returns (r: Option<RawPacket>)
    ensures r == DecodeBody(z, client.compression, body)
  {
    var buf := body;
    if !client.IsCompressed() {
      r := ReadPacketIdData(buf);
      return;
    }
    var size := VarInt.ReadVarInt(buf);
    if size.Malformed? { return None; }
    buf := buf[size.len..];
    if size.value == 0 {
      r := ReadPacketIdData(buf);
      return;
    }
    var plain := z.inflate(buf);
    if plain.None? || |plain.value| != AsUsize(size.value) { return None; }
    r := ReadPacketIdData(plain.value);
  }

  method DecodeWithLen(z: Zlib, client: Client, frame: seq<Byte>) returns (r: Option<RawPacket>)
    requires InBounds(frame)
    ensures r == DecodeFrame(z, client.compression, frame)
  {
    var buf := frame;
    var len := VarInt.ReadVarInt(buf);
    if len.Malformed? { return None; }
    buf := buf[len.len..][..AsUsize(len.value)];
    r := DecodeWithoutLen(z, client, buf);
  }

  method EncodeCompressed(z: Zlib, p: RawPacket, threshold: I32) returns (packet: seq<Byte>)
    requires threshold >= 0
    ensures packet == Body(z, threshold, p)
  {
    var payload := VarInt.EncodeVarInt(p.id);
    payload := payload + p.data;
    var size := AsI32(|payload|);
    var compress := size > threshold;
    var header := if compress then size else 0;
    if compress {
      payload := z.deflate(payload);
    }
    packet := VarInt.EncodeVarInt(header);
    packet := packet + payload;
  }

  method EncodeWithoutLen(z: Zlib, client: Client, p: RawPacket) returns (packet: seq<Byte>)
    ensures packet == Body(z, client.compression, p)
  {
    var threshold := client.compression;
    if threshold >= 0 {
      packet := EncodeCompressed(z, p, threshold);
    } else {
      packet := VarInt.EncodeVarInt(p.id);
      packet := packet + p.data;
    }
  }

  method EncodeWithLen(z: Zlib, client: Client, p: RawPacket) returns (packet: seq<Byte>)
    ensures packet == Frame(z, client.compression, p)
  {
    var payload := EncodeWithoutLen(z, client, p);
    packet := VarInt.EncodeVarInt(AsI32(|payload|));
    packet := packet + payload;
  }

  // ----- codec laws -----

  lemma IdAndDataInvertsPlain(p: RawPacket)
    ensures IdAndData(Plain(p)) == Some(p)
  {
    VarInt.RoundTrip(p.id, p.data);
  }

  /** What a compressing reader makes of a size header and the rest of a body. */
  lemma ReadsHeader(z: Zlib, t: I32, size: I32, rest: seq<Byte>)
    requires t >= 0
    ensures DecodeBody(z, t, VarInt.Encode(size) + rest) ==
            if size == 0 then IdAndData(rest)
            else
              var plain := z.inflate(rest);
              if plain.None? || |plain.value| != AsUsize(size) then None else IdAndData(plain.value)
  {
    hide VarInt.Parse, VarInt.Encode, IdAndData;
    VarInt.RoundTrip(size, rest);
    assert (VarInt.Encode(size) + rest)[|VarInt.Encode(size)|..] == rest;
  }

  lemma PlainIsThere(p: RawPacket)
    ensures |Plain(p)| > 0
  {
    hide VarInt.Encode;
    VarInt.RoundTrip(p.id, []);
  }

  /** A body decodes to the packet it came from whenever reader and writer agree on the sign. */
  lemma BodyRoundTrip(z: Zlib, t: I32, t': I32, p: RawPacket)
    requires z.Lawful() && Fits(z, t, p) && (t >= 0 <==> t' >= 0)
    ensures DecodeBody(z, t', Body(z, t, p)) == Some(p)
  {
    hide VarInt.Encode, VarInt.Parse, IdAndData, Plain;
    IdAndDataInvertsPlain(p);
    PlainIsThere(p);
    if t >= 0 {
      hide DecodeBody;
      var size := AsI32(|Plain(p)|);
      if size > t {
        ReadsHeader(z, t', size, z.deflate(Plain(p)));
      } else {
        ReadsHeader(z, t', 0, Plain(p));
      }
    }
  }

  /** `decode_with_len(encode_with_len(p) ++ suffix) == p`. */
  lemma FrameRoundTrip(z: Zlib, t: I32, t': I32, p: RawPacket, suffix: seq<Byte>)
    requires z.Lawful() && Fits(z, t, p) && (t >= 0 <==> t' >= 0)
    ensures InBounds(Frame(z, t, p) + suffix)
    ensures DecodeFrame(z, t', Frame(z, t, p) + suffix) == Some(p)
    ensures forall body :: DecodeBody(z, t, body) == DecodeBody(z, t', body)
  {
    BodyRoundTrip(z, t, t', p);
    FramedSplits(Body(z, t, p), suffix);
  }

  lemma FramedSplits(body: seq<Byte>, suffix: seq<Byte>)
    requires |body| < 0x8000_0000
    ensures var n := |VarInt.Encode(|body|)|;
            && VarInt.Parse(Framed(body) + suffix) == VarInt.Read(n, |body|)
            && 1 <= n <= 5 && |Framed(body)| == n + |body|
            && (Framed(body) + suffix)[n..][..|body|] == body
  {
    hide VarInt.Parse, VarInt.Encode;
    var prefix := VarInt.Encode(|body|);
    VarInt.RoundTrip(|body|, body + suffix);
    assert Framed(body) + suffix == prefix + (body + suffix);
    assert (prefix + (body + suffix))[|prefix|..] == body + suffix;
    assert (body + suffix)[..|body|] == body;
  }

  /** With a threshold in force the size header is zero iff the payload travels as it is. */
  lemma HeaderTellsCompression(z: Zlib, t: I32, p: RawPacket)
    requires t >= 0 && Fits(z, t, p)
    ensures var h := VarInt.Parse(Body(z, t, p));
            && h.Read?
            && (h.value == 0 <==> |Plain(p)| <= t)
            && Body(z, t, p)[h.len..] == (if h.value == 0 then Plain(p) else z.deflate(Plain(p)))
  {
    var size := AsI32(|Plain(p)|);
    VarInt.RoundTrip(if size > t then size else 0, if size > t then z.deflate(Plain(p)) else Plain(p));
  }

  /** The wire form, byte by byte, of a packet short enough for prefixes of one byte. */
  lemma WireForm(z: Zlib, t: I32, p: RawPacket)
    requires p.id < 128 && |p.data| < 126
    ensures t < 0 ==> Frame(z, t, p) == [1 + |p.data|] + ([p.id] + p.data)
    ensures t >= 1 + |p.data| ==> Frame(z, t, p) == [2 + |p.data|] + ([0] + ([p.id] + p.data))
  {
    hide VarInt.Encode;
    OneByte(p.id);
    OneByte(0);
    OneByte(1 + |p.data|);
    OneByte(2 + |p.data|);
  }

  lemma OneByte(n: I32)
    requires 0 <= n < 128
    ensures VarInt.Encode(n) == [n]
  {
  }

  /** A packet id wider than a byte is cut down to its low eight bits. */
  lemma IdsAreTruncated(id: I32, data: seq<Byte>)
    ensures IdAndData(VarInt.Encode(id) + data) == Some(RawPacket(id % 256, data))
  {
    VarInt.RoundTrip(id, data);
    assert (VarInt.Encode(id) + data)[|VarInt.Encode(id)|..] == data;
  }

  /**
   Exactly which bodies a compressing reader accepts: the size header is zero and the rest is a plain packet, or the
   rest inflates to a plain packet of exactly that size.
   */
  lemma AcceptedIff(z: Zlib, t: I32, size: I32, rest: seq<Byte>, p: RawPacket)
    requires t >= 0
    requires z.inflate(rest).Some? ==> |z.inflate(rest).value| < 0x8000_0000_0000_0000
    ensures DecodeBody(z, t, VarInt.Encode(size) + rest) == Some(p) <==>
              if size == 0 then IdAndData(rest) == Some(p)
              else
                var plain := z.inflate(rest);
                plain.Some? && size > 0 && |plain.value| == size && IdAndData(plain.value) == Some(p)
  {
    hide DecodeBody, IdAndData, VarInt.Encode;
    ReadsHeader(z, t, size, rest);
  }

  // ----- the stream reader -----

  /** How a socket ends once its bytes are used up. */
  datatype Ending = Eof | Reset | Broken

  datatype SocketRead = Data(bytes: seq<Byte>) | Ended(how: Ending)

  /** A socket read half: the reads still to come, none of them empty, then its ending. */
  class Socket {
    var chunks: seq<seq<Byte>>
    const ending: Ending

    ghost predicate Valid()
      reads this
    {
      forall c :: c in chunks ==> c != []
    }

    constructor (chunks: seq<seq<Byte>>, ending: Ending)
      requires forall c :: c in chunks ==> c != []
      ensures Valid() && this.chunks == chunks && this.ending == ending
    {
      this.chunks := chunks;
      this.ending := ending;
    }

    method ReadBuf() returns (r: SocketRead)
      modifies this
      ensures old(chunks) == [] ==> r == Ended(ending) && chunks == []
      ensures old(chunks) != [] ==> r == Data(old(chunks[0])) && chunks == old(chunks[1..])
    {
      if chunks == [] { return Ended(ending); }
      r := Data(chunks[0]);
      chunks := chunks[1..];
    }
  }

  class Buffer {
    var bytes: seq<Byte>

    constructor (bytes: seq<Byte>)
      ensures this.bytes == bytes
    {
      this.bytes := bytes;
    }

    method Extend(more: seq<Byte>)
      modifies this
      ensures bytes == old(bytes) + more
    {
      bytes := bytes + more;
    }

    method SplitTo(n: nat) returns (front: seq<Byte>)
      requires n <= |bytes|
      modifies this
      ensures front == old(bytes)[..n] && bytes == old(bytes)[n..]
    {
      front := bytes[..n];
      bytes := bytes[n..];
    }
  }

  datatype Outcome = Packet(packet: RawPacket, raw: seq<Byte>) | Closed | Failed

  /** One call of `read_packet`: its result, the bytes it removed from the front, and what it leaves. */
  datatype Reading = Reading(outcome: Outcome, taken: seq<Byte>, buf: seq<Byte>, chunks: seq<seq<Byte>>)

  datatype Fed = Fed(buf: seq<Byte>, chunks: seq<seq<Byte>>)

  /** The bytes a reader has not removed yet: those buffered, then those still to be received. */
  function Pending(buf: seq<Byte>, chunks: seq<seq<Byte>>): seq<Byte> {
    buf + Flat(chunks)
  }

  /** Reads until `n` bytes are buffered or the socket has no more. */
  function Feed(n: nat, buf: seq<Byte>, chunks: seq<seq<Byte>>): (r: Fed)
    ensures buf <= r.buf
    ensures |r.buf| >= n || r.chunks == []
    decreases |chunks|
  {
    if |buf| >= n || chunks == [] then Fed(buf, chunks)
    else Feed(n, buf + chunks[0], chunks[1..])
  }

  lemma {:induction false} FeedConserves(n: nat, buf: seq<Byte>, chunks: seq<seq<Byte>>)
    ensures var r := Feed(n, buf, chunks);
            Pending(r.buf, r.chunks) == Pending(buf, chunks)
    decreases |chunks|
  {
    if |buf| < n && chunks != [] {
      FeedConserves(n, buf + chunks[0], chunks[1..]);
      assert buf + Flat(chunks) == buf + chunks[0] + Flat(chunks[1..]);
    }
  }

  lemma {:induction false} FeedTakesFromFront(n: nat, buf: seq<Byte>, chunks: seq<seq<Byte>>)
    ensures Suffix(Feed(n, buf, chunks).chunks, chunks)
    decreases |chunks|
  {
    if |buf| < n && chunks != [] {
      FeedTakesFromFront(n, buf + chunks[0], chunks[1..]);
      SuffixTransitive(Feed(n, buf, chunks).chunks, chunks[1..], chunks);
    }
  }

  /** `consumed + len as usize`, in 64-bit wrapping arithmetic. */
  function FrameEnd(consumed: nat, len: I32): nat {
    (consumed + AsUsize(len)) % 0x1_0000_0000_0000_0000
  }

  function AtEnd(ending: Ending): Outcome {
    if ending.Broken? then Failed else Closed
  }

  /** The buffer cut at `FrameEnd` is always fit for `decode_with_len`, negative lengths included. */
  lemma CutIsInBounds(buf: seq<Byte>)
    requires VarInt.Parse(buf).Read?
    requires FrameEnd(VarInt.Parse(buf).len, VarInt.Parse(buf).value) <= |buf|
    ensures InBounds(buf[..FrameEnd(VarInt.Parse(buf).len, VarInt.Parse(buf).value)])
  {
    var r := VarInt.Parse(buf);
    var raw := buf[..FrameEnd(r.len, r.value)];
    if |raw| >= r.len {
      VarInt.Locality(buf, raw);
    } else {
      assert forall k :: 0 <= k < |raw| ==> raw[k] == buf[k] >= 128;
    }
  }

  /** What `read_packet` does from a given buffer and socket. */
  function ReadStep(z: Zlib, t: I32, buf: seq<Byte>, chunks: seq<seq<Byte>>, ending: Ending): Reading {
    var Fed(b1, c1) := Feed(2, buf, chunks);
    if |b1| < 2 then Reading(AtEnd(ending), [], b1, c1)
    else match VarInt.Parse(b1)
         case Malformed => Reading(Failed, [], b1, c1)
         case Read(n, len) => CutFrame(z, t, Feed(FrameEnd(n, len), b1, c1), b1, n, len, ending)
  }

  function CutFrame(z: Zlib, t: I32, fed: Fed, start: seq<Byte>, n: nat, len: I32, ending: Ending): Reading
    requires VarInt.Parse(start) == VarInt.Read(n, len) && start <= fed.buf
  {
    var need := FrameEnd(n, len);
    if |fed.buf| < need then Reading(AtEnd(ending), [], fed.buf, fed.chunks)
    else VarInt.Locality(start, fed.buf);
         CutIsInBounds(fed.buf);
         var raw := fed.buf[..need];
         var outcome := match DecodeFrame(z, t, raw)
                        case None => Failed
                        case Some(p) => Packet(p, raw);
         Reading(outcome, raw, fed.buf[need..], fed.chunks)
  }

  // ----- read_packet itself -----

  method FillTo(n: nat, buf: Buffer, stream: Socket) returns (enough: bool)
    modifies buf, stream
    ensures enough <==> |buf.bytes| >= n
    ensures Fed(buf.bytes, stream.chunks) == Feed(n, old(buf.bytes), old(stream.chunks))
  {
    while |buf.bytes| < n
      invariant Feed(n, buf.bytes, stream.chunks) == Feed(n, old(buf.bytes), old(stream.chunks))
      decreases |stream.chunks|, n - |buf.bytes|
    {
      var r := stream.ReadBuf();
      if r.Ended? { return false; }
      buf.Extend(r.bytes);
    }
    return true;
  }

  method ReadPacket(z: Zlib, client: Client, buf: Buffer, stream: Socket)
    returns (r: Outcome, ghost taken: seq<Byte>)
    modifies buf, stream
    ensures Reading(r, taken, buf.bytes, stream.chunks)
         == ReadStep(z, client.compression, old(buf.bytes), old(stream.chunks), stream.ending)
  {
    taken := [];
    var enough := FillTo(2, buf, stream);
    if !enough {
      return AtEnd(stream.ending), [];
    }
    var len := VarInt.ReadVarInt(buf.bytes);
    if len.Malformed? {
      return Failed, [];
    }
    ghost var start := buf.bytes;
    var need := FrameEnd(len.len, len.value);
    enough := FillTo(need, buf, stream);
    if !enough {
      return AtEnd(stream.ending), [];
    }
    VarInt.Locality(start, buf.bytes);
    CutIsInBounds(buf.bytes);
    var raw := buf.SplitTo(need);
    taken := raw;
    var packet := DecodeWithLen(z, client, raw);
    r := match packet case None => Failed case Some(p) => Packet(p, raw);
  }

  // ----- laws of the reader -----

  lemma CutConserves(z: Zlib, t: I32, fed: Fed, start: seq<Byte>, n: nat, len: I32, ending: Ending)
    requires VarInt.Parse(start) == VarInt.Read(n, len) && start <= fed.buf
    ensures var r := CutFrame(z, t, fed, start, n, len, ending);
            && r.taken + Pending(r.buf, r.chunks) == Pending(fed.buf, fed.chunks)
            && r.chunks == fed.chunks
            && (r.outcome.Packet? ==> r.outcome.raw == r.taken && r.taken != [])
            && (r.outcome.Closed? ==> r.taken == [])
  {
    hide DecodeBody, Flat;
    var need := FrameEnd(n, len);
    if |fed.buf| >= need {
      VarInt.Locality(start, fed.buf);
      CutIsInBounds(fed.buf);
      assert VarInt.Parse(fed.buf[..need]).Read? ==> fed.buf[..need] != [];
      CutAndJoin(fed.buf, need, Flat(fed.chunks));
    }
  }

  /** Every byte received is either removed as part of one frame or still waiting, in order. */
  lemma ReadConserves(z: Zlib, t: I32, buf: seq<Byte>, chunks: seq<seq<Byte>>, ending: Ending)
    ensures var r := ReadStep(z, t, buf, chunks, ending);
            && r.taken + Pending(r.buf, r.chunks) == Pending(buf, chunks)
            && (r.outcome.Packet? ==> r.outcome.raw == r.taken && r.taken != [])
            && (r.outcome.Closed? ==> r.taken == [])
  {
    hide Feed, CutFrame, Pending, VarInt.Parse;
    var Fed(b1, c1) := Feed(2, buf, chunks);
    FeedConserves(2, buf, chunks);
    var m := VarInt.Parse(b1);
    if |b1| >= 2 && m.Read? {
      var fed := Feed(FrameEnd(m.len, m.value), b1, c1);
      FeedConserves(FrameEnd(m.len, m.value), b1, c1);
      CutConserves(z, t, fed, b1, m.len, m.value, ending);
    }
  }

  lemma ReadTakesFromFront(z: Zlib, t: I32, buf: seq<Byte>, chunks: seq<seq<Byte>>, ending: Ending)
    ensures Suffix(ReadStep(z, t, buf, chunks, ending).chunks, chunks)
  {
    var Fed(b1, c1) := Feed(2, buf, chunks);
    FeedTakesFromFront(2, buf, chunks);
    var m := VarInt.Parse(b1);
    if m.Read? {
      FeedTakesFromFront(FrameEnd(m.len, m.value), b1, c1);
      SuffixTransitive(Feed(FrameEnd(m.len, m.value), b1, c1).chunks, c1, chunks);
    }
  }

  /** The length prefix of the next frame is wholly buffered once two bytes are. */
  predicate PrefixReady(body: seq<Byte>, buf: seq<Byte>, chunks: seq<seq<Byte>>) {
    |Feed(2, buf, chunks).buf| >= |VarInt.Encode(AsI32(|body|))|
  }

  predicate SmallBody(body: seq<Byte>) {
    1 <= |body| < 16384
  }

  function Decoded(p: Option<RawPacket>, raw: seq<Byte>): Outcome {
    match p case None => Failed case Some(p) => Packet(p, raw)
  }

  /**
   A frame at the front of the stream, however it is cut up: exactly that frame is removed, and its
   body alone decides between packet and error.
   */
  lemma ReadsOneFrame(z: Zlib, t: I32, body: seq<Byte>, rest: seq<Byte>,
                      buf: seq<Byte>, chunks: seq<seq<Byte>>, ending: Ending)
    requires 1 <= |body| < 0x8000_0000
    requires Pending(buf, chunks) == Framed(body) + rest
    requires PrefixReady(body, buf, chunks)
    ensures var r := ReadStep(z, t, buf, chunks, ending);
            && r.taken == Framed(body)
            && Pending(r.buf, r.chunks) == rest
            && r.outcome == Decoded(DecodeBody(z, t, body), Framed(body))
  {
    hide Feed, CutFrame, DecodeBody, VarInt.Parse, Pending;
    var n, need := |VarInt.Encode(|body|)|, |Framed(body)|;
    var Fed(b1, c1) := Feed(2, buf, chunks);
    FeedConserves(2, buf, chunks);
    EnoughWasFed(2, Framed(body), rest, Fed(b1, c1));
    StartShowsLength(body, rest, b1, c1);
    var fed := Feed(need, b1, c1);
    FeedConserves(need, b1, c1);
    EnoughWasFed(need, Framed(body), rest, fed);
    CutsOneFrame(z, t, body, rest, fed, b1, ending);
  }

  lemma EnoughWasFed(n: nat, frame: seq<Byte>, rest: seq<Byte>, fed: Fed)
    requires Pending(fed.buf, fed.chunks) == frame + rest && n <= |frame|
    requires |fed.buf| >= n || fed.chunks == []
    ensures |fed.buf| >= n
  {
    assert |Pending(fed.buf, fed.chunks)| == |frame| + |rest|;
  }

  lemma StartShowsLength(body: seq<Byte>, rest: seq<Byte>, start: seq<Byte>, more: seq<seq<Byte>>)
    requires 1 <= |body| < 0x8000_0000
    requires Pending(start, more) == Framed(body) + rest
    requires |start| >= |VarInt.Encode(|body|)|
    ensures VarInt.Parse(start) == VarInt.Read(|VarInt.Encode(|body|)|, |body|)
    ensures |Framed(body)| == FrameEnd(|VarInt.Encode(|body|)|, |body|)
  {
    hide VarInt.Parse, VarInt.Encode;
    var n := |VarInt.Encode(|body|)|;
    FramedSplits(body, rest);
    assert start[..n] == Pending(start, more)[..n];
    VarInt.Locality(Pending(start, more), start);
  }

  lemma CutsOneFrame(z: Zlib, t: I32, body: seq<Byte>, rest: seq<Byte>, fed: Fed, start: seq<Byte>, ending: Ending)
    requires 1 <= |body| < 0x8000_0000
    requires Pending(fed.buf, fed.chunks) == Framed(body) + rest
    requires VarInt.Parse(start) == VarInt.Read(|VarInt.Encode(|body|)|, |body|) && start <= fed.buf
    requires |fed.buf| >= |Framed(body)| == FrameEnd(|VarInt.Encode(|body|)|, |body|)
    ensures var r := CutFrame(z, t, fed, start, |VarInt.Encode(|body|)|, |body|, ending);
            && r.taken == Framed(body)
            && Pending(r.buf, r.chunks) == rest
            && r.outcome == Decoded(DecodeBody(z, t, body), Framed(body))
  {
    Resplit(Framed(body), rest, fed.buf, Flat(fed.chunks));
    FramedSplits(body, []);
    assert Framed(body) + [] == Framed(body);
  }

  /**
   The exact boundary of chunking independence: the frame is read iff its length prefix is buffered
   by the time two bytes are. Otherwise the reader reports an error, removes nothing, reads nothing
   more, and the same call keeps failing.
   */
  lemma FrameReadIff(z: Zlib, t: I32, body: seq<Byte>, rest: seq<Byte>,
                     buf: seq<Byte>, chunks: seq<seq<Byte>>, ending: Ending)
    requires 1 <= |body| < 0x8000_0000
    requires Pending(buf, chunks) == Framed(body) + rest
    ensures var r := ReadStep(z, t, buf, chunks, ending);
            && (PrefixReady(body, buf, chunks) <==> r.taken == Framed(body))
            && (!PrefixReady(body, buf, chunks) ==>
                  r.outcome == Failed && r.taken == [] && ReadStep(z, t, r.buf, r.chunks, ending) == r)
  {
    FramedSplits(body, rest);
    if PrefixReady(body, buf, chunks) {
      ReadsOneFrame(z, t, body, rest, buf, chunks, ending);
    } else {
      SplitPrefixFails(z, t, body, rest, buf, chunks, ending);
    }
  }

  /** Less than a whole length prefix cannot be read. */
  lemma PartMalformed(body: seq<Byte>, rest: seq<Byte>, part: seq<Byte>, more: seq<Byte>)
    requires |body| < 0x8000_0000
    requires |part| < |VarInt.Encode(|body|)| && part + more == Framed(body) + rest
    ensures VarInt.Parse(part) == VarInt.Malformed
  {
    hide VarInt.Parse, VarInt.Encode;
    Associate(VarInt.Encode(|body|), body, rest);
    assert part <= VarInt.Encode(|body|) + (body + rest) by {
      assert part <= part + more;
    }
    VarInt.ProperPrefix(|body|, body + rest, part);
  }

  lemma FeedAgain(n: nat, buf: seq<Byte>, chunks: seq<seq<Byte>>)
    ensures var b := Feed(n, buf, chunks); Feed(n, b.buf, b.chunks) == b
    decreases |chunks|
  {
  }

  lemma SplitPrefixFails(z: Zlib, t: I32, body: seq<Byte>, rest: seq<Byte>,
                         buf: seq<Byte>, chunks: seq<seq<Byte>>, ending: Ending)
    requires 1 <= |body| < 0x8000_0000
    requires Pending(buf, chunks) == Framed(body) + rest
    requires !PrefixReady(body, buf, chunks)
    ensures var b1 := Feed(2, buf, chunks);
            && ReadStep(z, t, buf, chunks, ending) == Reading(Failed, [], b1.buf, b1.chunks)
            && ReadStep(z, t, b1.buf, b1.chunks, ending) == Reading(Failed, [], b1.buf, b1.chunks)
  {
    hide CutFrame, VarInt.Parse, VarInt.Encode, Framed, Feed;
    var Fed(b1, c1) := Feed(2, buf, chunks);
    FeedConserves(2, buf, chunks);
    FeedAgain(2, buf, chunks);
    PartMalformed(body, rest, b1, Flat(c1));
    FramedSplits(body, rest);
    assert |b1| >= 2 by {
      assert |Pending(b1, c1)| == |Framed(body) + rest| >= 2;
    }
  }

  /** Bodies of 1 to 16383 bytes have a prefix of at most two bytes, so no cut can split it badly. */
  lemma SmallBodiesAreReady(body: seq<Byte>, rest: seq<Byte>, buf: seq<Byte>, chunks: seq<seq<Byte>>)
    requires SmallBody(body)
    requires Pending(buf, chunks) == Framed(body) + rest
    ensures PrefixReady(body, buf, chunks)
  {
    hide VarInt.Encode, Feed;
    VarInt.EncodeSize(|body|);
    var fed := Feed(2, buf, chunks);
    FeedConserves(2, buf, chunks);
    assert |Pending(fed.buf, fed.chunks)| == |Framed(body) + rest| >= 2;
  }

  /** From 16384 bytes on there is a cut of the stream, after two bytes, on which the read fails. */
  lemma LargeBodiesCanFail(z: Zlib, t: I32, body: seq<Byte>, ending: Ending)
    requires 16384 <= |body| < 0x8000_0000
    ensures var cut := [Framed(body)[..2], Framed(body)[2..]];
            && Pending([], cut) == Framed(body)
            && !PrefixReady(body, [], cut)
            && ReadStep(z, t, [], cut, ending).outcome == Failed
  {
    hide ReadStep;
    var f := Framed(body);
    VarInt.EncodeSize(|body|);
    var cut := [f[..2], f[2..]];
    FlatCons(f[2..], []);
    assert cut[1..] == [f[2..]] + [];
    assert Flat(cut) == f[..2] + f[2..] == f;
    assert Framed(body) + [] == f;
    assert [] + f[..2] == f[..2];
    assert Feed(2, [] + cut[0], cut[1..]).buf == f[..2];
    FrameReadIff(z, t, body, [], [], cut, ending);
  }

  // ----- repeated calls -----

  datatype Session = Session(outcomes: seq<Outcome>, taken: seq<seq<Byte>>, buf: seq<Byte>, chunks: seq<seq<Byte>>)

  /** `n` successive calls of `read_packet` under one threshold. */
  function ReadMany(z: Zlib, t: I32, buf: seq<Byte>, chunks: seq<seq<Byte>>, ending: Ending, n: nat): Session
    decreases n
  {
    if n == 0 then Session([], [], buf, chunks)
    else
      var r := ReadStep(z, t, buf, chunks, ending);
      var s := ReadMany(z, t, r.buf, r.chunks, ending, n - 1);
      Session([r.outcome] + s.outcomes, [r.taken] + s.taken, s.buf, s.chunks)
  }

  lemma {:induction false} SessionTakesFromFront(z: Zlib, t: I32, buf: seq<Byte>, chunks: seq<seq<Byte>>,
                                                 ending: Ending, n: nat)
    ensures Suffix(ReadMany(z, t, buf, chunks, ending, n).chunks, chunks)
    decreases n
  {
    hide ReadStep, Suffix;
    if n > 0 {
      var r := ReadStep(z, t, buf, chunks, ending);
      ReadTakesFromFront(z, t, buf, chunks, ending);
      SessionTakesFromFront(z, t, r.buf, r.chunks, ending, n - 1);
      SuffixTransitive(ReadMany(z, t, buf, chunks, ending, n).chunks, r.chunks, chunks);
    } else {
      SuffixOfItself(chunks);
    }
  }

  lemma {:induction false} SessionTotal(z: Zlib, t: I32, buf: seq<Byte>, chunks: seq<seq<Byte>>,
                                        ending: Ending, n: nat)
    ensures var s := ReadMany(z, t, buf, chunks, ending, n);
            Flat(s.taken) + Pending(s.buf, s.chunks) == Pending(buf, chunks)
    decreases n
  {
    hide ReadStep, Pending;
    if n > 0 {
      hide Flat;
      var r := ReadStep(z, t, buf, chunks, ending);
      var s := ReadMany(z, t, r.buf, r.chunks, ending, n - 1);
      ReadConserves(z, t, buf, chunks, ending);
      SessionTotal(z, t, r.buf, r.chunks, ending, n - 1);
      ConsTotal(r.taken, s.taken, Pending(s.buf, s.chunks), Pending(r.buf, r.chunks));
    }
  }

  lemma ConsTotal(first: seq<Byte>, taken: seq<seq<Byte>>, left: seq<Byte>, total: seq<Byte>)
    requires Flat(taken) + left == total
    ensures Flat([first] + taken) + left == first + total
  {
    FlatCons(first, taken);
  }

  /** After any number of calls, on any input: what was removed, then the buffer, is what was received. */
  lemma SessionConserves(z: Zlib, t: I32, buf: seq<Byte>, chunks: seq<seq<Byte>>, ending: Ending, n: nat)
    ensures var s := ReadMany(z, t, buf, chunks, ending, n);
            && Suffix(s.chunks, chunks)
            && Flat(s.taken) + s.buf == buf + Flat(chunks[..|chunks| - |s.chunks|])
  {
    var s := ReadMany(z, t, buf, chunks, ending, n);
    SessionTakesFromFront(z, t, buf, chunks, ending, n);
    SessionTotal(z, t, buf, chunks, ending, n);
    var received := chunks[..|chunks| - |s.chunks|];
    assert chunks == received + s.chunks;
    FlatAppend(received, s.chunks);
    SameTail(Flat(s.taken), s.buf, buf, Flat(received), Flat(s.chunks));
  }

  lemma SameTail(a: seq<Byte>, b: seq<Byte>, c: seq<Byte>, d: seq<Byte>, tail: seq<Byte>)
    requires a + (b + tail) == c + (d + tail)
    ensures a + b == c + d
  {
    assert a + (b + tail) == (a + b) + tail && c + (d + tail) == (c + d) + tail;
    Resplit(a + b, tail, c + d, tail);
    assert (c + d)[..|a + b|] == c + d;
  }

  function Frames(z: Zlib, t: I32, ps: seq<RawPacket>): seq<Byte> {
    if ps == [] then [] else Frame(z, t, ps[0]) + Frames(z, t, ps[1..])
  }

  function Deliveries(z: Zlib, t: I32, ps: seq<RawPacket>): seq<Outcome> {
    seq(|ps|, i requires 0 <= i < |ps| => Packet(ps[i], Frame(z, t, ps[i])))
  }

  predicate Small(z: Zlib, t: I32, p: RawPacket) {
    |Plain(p)| < 0x8000_0000 && SmallBody(Body(z, t, p))
  }

  /** The same for a packet, written under one threshold and read under another of the same sign. */
  lemma ReadsOnePacket(z: Zlib, t: I32, t': I32, p: RawPacket, rest: seq<Byte>,
                       buf: seq<Byte>, chunks: seq<seq<Byte>>, ending: Ending)
    requires z.Lawful() && (t >= 0 <==> t' >= 0)
    requires Small(z, t, p)
    requires Pending(buf, chunks) == Frame(z, t, p) + rest
    ensures var r := ReadStep(z, t', buf, chunks, ending);
            && r.outcome == Packet(p, Frame(z, t, p))
            && r.taken == Frame(z, t, p)
            && Pending(r.buf, r.chunks) == rest
  {
    SmallBodiesAreReady(Body(z, t, p), rest, buf, chunks);
    ReadsOneFrame(z, t', Body(z, t, p), rest, buf, chunks, ending);
    BodyRoundTrip(z, t, t', p);
  }

  /** With nothing left to receive, the next call reports how the socket ended. */
  lemma ReadsTheEnd(z: Zlib, t: I32, buf: seq<Byte>, chunks: seq<seq<Byte>>, ending: Ending)
    requires Pending(buf, chunks) == []
    ensures var r := ReadStep(z, t, buf, chunks, ending);
            && r.outcome == (if ending == Broken then Failed else Closed)
            && r.taken == [] && Pending(r.buf, r.chunks) == []
  {
    FeedConserves(2, buf, chunks);
  }

  /** A length that cannot be read is an error that removes nothing and repeats. */
  lemma UnreadableLength(z: Zlib, t: I32, buf: seq<Byte>, chunks: seq<seq<Byte>>, ending: Ending)
    requires |buf| >= 2 && forall k :: 0 <= k < 5 && k < |buf| ==> buf[k] >= 128
    ensures ReadStep(z, t, buf, chunks, ending) == Reading(Failed, [], buf, chunks)
  {
    hide VarInt.Parse;
    VarInt.ReadableIff(buf);
  }

  /** An empty frame is removed and is an error, for there is no packet id in it. */
  lemma EmptyFrame(z: Zlib, t: I32, buf: seq<Byte>, chunks: seq<seq<Byte>>, ending: Ending)
    requires |buf| >= 2 && buf[0] == 0
    ensures ReadStep(z, t, buf, chunks, ending) == Reading(Failed, [0], buf[1..], chunks)
  {
    hide VarInt.Parse, VarInt.Encode, DecodeBody;
    OneByte(0);
    assert buf == [0] + buf[1..] && buf[..1] == [0] + [];
    VarInt.RoundTrip(0, buf[1..]);
    VarInt.RoundTrip(0, []);
    assert buf[..1][1..][..0] == [];
    NoIdInNothing(z, t);
  }

  lemma NoIdInNothing(z: Zlib, t: I32)
    ensures DecodeBody(z, t, []) == None
  {
  }

  /**
   A negative length. From -5 on the wrapping sum cuts off fewer than the five bytes of the length itself, which is an
   error; below, it asks for more bytes than any stream has, and the call waits for the end.
   */
  lemma NegativeLength(z: Zlib, t: I32, len: I32, buf: seq<Byte>, chunks: seq<seq<Byte>>, ending: Ending)
    requires len < 0 && |buf| >= 5 && buf[..5] == VarInt.Encode(len)
    requires |Pending(buf, chunks)| < 0x8000_0000_0000_0000
    ensures var r := ReadStep(z, t, buf, chunks, ending);
            if len >= -5 then
              r.outcome == Failed && r.taken == buf[..5 + len] && r.buf == buf[5 + len..] && r.chunks == chunks
            else
              && r.outcome == (if ending == Broken then Failed else Closed)
              && r.taken == [] && r.buf == Pending(buf, chunks) && r.chunks == []
  {
    hide VarInt.Parse, VarInt.Encode;
    NegativeSize(len);
    assert buf == VarInt.Encode(len) + buf[5..];
    VarInt.RoundTrip(len, buf[5..]);
    assert VarInt.Parse(buf) == VarInt.Read(5, len);
    if len >= -5 {
      CutIsInBounds(buf);
      VarInt.Locality(buf, buf);
      assert VarInt.Parse(buf[..5 + len]) == VarInt.Malformed;
    } else {
      var need := FrameEnd(5, len);
      FeedConserves(need, buf, chunks);
      var fed := Feed(need, buf, chunks);
      assert |Pending(fed.buf, fed.chunks)| < need;
    }
  }

  lemma NegativeSize(len: I32)
    requires len < 0
    ensures |VarInt.Encode(len)| == 5
  {
    hide VarInt.Groups;
    VarInt.GroupsSize(VarInt.Pattern(len));
  }

  lemma DeliveriesCons(z: Zlib, t: I32, ps: seq<RawPacket>, last: Outcome)
    requires ps != []
    ensures Deliveries(z, t, ps) + [last] == [Packet(ps[0], Frame(z, t, ps[0]))] + (Deliveries(z, t, ps[1..]) + [last])
  {
    hide Frame;
    assert Deliveries(z, t, ps) == [Packet(ps[0], Frame(z, t, ps[0]))] + Deliveries(z, t, ps[1..]);
  }

  lemma NoDeliveries(z: Zlib, t: I32)
    ensures Deliveries(z, t, []) == []
  {
  }

  /**
   Chunking independence: whatever way the frames of `ps` were cut into reads, the calls return
   exactly `ps`, each with its own raw frame, and then report the end.
   */
  lemma {:induction false} ChunkingIndependence(z: Zlib, t: I32, t': I32, ps: seq<RawPacket>,
                                                buf: seq<Byte>, chunks: seq<seq<Byte>>, ending: Ending)
    requires z.Lawful() && (t >= 0 <==> t' >= 0)
    requires forall p :: p in ps ==> Small(z, t, p)
    requires Pending(buf, chunks) == Frames(z, t, ps)
    ensures var s := ReadMany(z, t', buf, chunks, ending, |ps| + 1);
            && s.outcomes == Deliveries(z, t, ps) + [AtEnd(ending)]
            && Pending(s.buf, s.chunks) == []
    decreases |ps|
  {
    hide ReadStep, Frame, Deliveries, Pending;
    if ps == [] {
      ReadsTheEnd(z, t', buf, chunks, ending);
      var r := ReadStep(z, t', buf, chunks, ending);
      assert ReadMany(z, t', r.buf, r.chunks, ending, 0).outcomes == [] == Deliveries(z, t, ps) by {
        NoDeliveries(z, t);
      }
    } else {
      var r := ReadStep(z, t', buf, chunks, ending);
      ReadsOnePacket(z, t, t', ps[0], Frames(z, t, ps[1..]), buf, chunks, ending);
      ChunkingIndependence(z, t, t', ps[1..], r.buf, r.chunks, ending);
      DeliveriesCons(z, t, ps, AtEnd(ending));
    }
  }
}
