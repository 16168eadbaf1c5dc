/**
 The monitor's wait loops (src/monitor.rs). Both skip whatever `read_packet` rejects and call it again; `calls` bounds
 the number of calls looked at, and the loops themselves have no bound. The timeout around them can fire only where a
 read has to wait, and is an error there just as the end of the stream is.
 */
module Monitor {
  import opened Base
  import opened Cuts
  import opened Packet

  const CLIENT_STATUS: Byte := 0
  const CLIENT_PING: Byte := 1

  /** What a loop makes of one well-formed packet. */
  datatype Judgement = Skip | Accept | Reject

  /** `Undecided`: the calls looked at gave no verdict, and the loop goes on. */
  datatype WaitResult = Accepted(packet: RawPacket) | Rejected | Undecided

  /** A status response ends the wait either way. */
  function JudgeStatus(decodes: seq<Byte> -> bool): RawPacket -> Judgement {
    (p: RawPacket) =>
      if p.id == CLIENT_STATUS then (if decodes(p.data) then Accept else Reject) else Skip
  }

  /** A ping response that answers another token is passed over. */
  function JudgePing(time: seq<Byte> -> Option<nat>, token: nat): RawPacket -> Judgement {
    (p: RawPacket) =>
      if p.id == CLIENT_PING then
        match time(p.data)
        case None => Reject
        case Some(t) => if t == token then Accept else Skip
      else Skip
  }

  function WaitRun(z: Zlib, t: I32, judge: RawPacket -> Judgement, buf: seq<Byte>, chunks: seq<seq<Byte>>,
                   ending: Ending, calls: nat): WaitResult
    decreases calls
  {
    if calls == 0 then Undecided
    else
      var r := ReadStep(z, t, buf, chunks, ending);
      match r.outcome
      case Closed => Rejected
      case Failed => WaitRun(z, t, judge, r.buf, r.chunks, ending, calls - 1)
      case Packet(p, _) =>
        match judge(p)
        case Accept => Accepted(p)
        case Reject => Rejected
        case Skip => WaitRun(z, t, judge, r.buf, r.chunks, ending, calls - 1)
  }

  method WaitForStatus(z: Zlib, decodes: seq<Byte> -> bool, client: Client, stream: Socket, calls: nat)
    returns (r: WaitResult)
    modifies stream
    ensures r == WaitRun(z, client.compression, JudgeStatus(decodes), [], old(stream.chunks), stream.ending, calls)
  {
    hide ReadStep;
    var buf := new Buffer([]);
    for left := calls downto 0
      invariant fresh(buf)
      invariant WaitRun(z, client.compression, JudgeStatus(decodes), buf.bytes, stream.chunks, stream.ending, left)
             == WaitRun(z, client.compression, JudgeStatus(decodes), [], old(stream.chunks), stream.ending, calls)
    {
      var read, taken := ReadPacket(z, client, buf, stream);
      if read.Closed? { return Rejected; }
      if read.Failed? { continue; }
      if read.packet.id == CLIENT_STATUS {
        return if decodes(read.packet.data) then Accepted(read.packet) else Rejected;
      }
    }
    return Undecided;
  }

  method WaitForPing(z: Zlib, time: seq<Byte> -> Option<nat>, token: nat, client: Client, stream: Socket, calls: nat)
    returns (r: WaitResult)
    modifies stream
    ensures r == WaitRun(z, client.compression, JudgePing(time, token), [], old(stream.chunks), stream.ending, calls)
  {
    hide ReadStep;
    var buf := new Buffer([]);
    for left := calls downto 0
      invariant fresh(buf)
      invariant WaitRun(z, client.compression, JudgePing(time, token), buf.bytes, stream.chunks, stream.ending, left)
             == WaitRun(z, client.compression, JudgePing(time, token), [], old(stream.chunks), stream.ending, calls)
    {
      var read, taken := ReadPacket(z, client, buf, stream);
      if read.Closed? { return Rejected; }
      if read.Failed? { continue; }
      if read.packet.id == CLIENT_PING {
        var pong := time(read.packet.data);
        if pong.None? { return Rejected; }
        if pong.value == token { return Accepted(read.packet); }
      }
    }
    return Undecided;
  }

  // ----- what the loops find -----

  /** The first frame that decodes and is not skipped decides; undecodable bodies do not matter. */
  function FirstVerdict(z: Zlib, t: I32, judge: RawPacket -> Judgement, bodies: seq<seq<Byte>>, otherwise: WaitResult)
    : WaitResult
  {
    if bodies == [] then otherwise
    else match DecodeBody(z, t, bodies[0])
         case None => FirstVerdict(z, t, judge, bodies[1..], otherwise)
         case Some(p) =>
           match judge(p)
           case Accept => Accepted(p)
           case Reject => Rejected
           case Skip => FirstVerdict(z, t, judge, bodies[1..], otherwise)
  }

  /**
   What a wait over these frames, then the front of one more, cut as they are, comes to: nothing behind a split length
   prefix is ever seen, and at the end of a stream that was closed or reset the wait is given up.
   */
  ghost function WaitVerdict(z: Zlib, t: I32, judge: RawPacket -> Judgement, bodies: seq<seq<Byte>>, last: seq<Byte>,
                             have: nat, chunks: seq<seq<Byte>>, ending: Ending): WaitResult {
    var k := Whole(bodies + [last], 0, have, chunks);
    if k > |bodies| then FirstVerdict(z, t, judge, bodies, if ending == Broken then Undecided else Rejected)
    else FirstVerdict(z, t, judge, bodies[..k], Undecided)
  }

  /**
   Over any frames, of any size, decodable or not, then the front of one more, which may be empty, cut up in any way:
   the wait stays on frame boundaries and returns the verdict on the first packet that gets one, as long as that comes
   before the first split length prefix.
   */
  lemma {:induction false} WaitResynchronises(z: Zlib, t: I32, judge: RawPacket -> Judgement, bodies: seq<seq<Byte>>,
                                              last: seq<Byte>, tail: seq<Byte>, rest: seq<Byte>,
                                              buf: seq<Byte>, chunks: seq<seq<Byte>>, ending: Ending, calls: nat)
    requires Sizes(bodies + [last]) && Pending(buf, chunks) == FramedAll(bodies) + tail
    requires tail + rest == Framed(last) && rest != []
    requires calls > |bodies|
    ensures WaitRun(z, t, judge, buf, chunks, ending, calls)
         == WaitVerdict(z, t, judge, bodies, last, |buf|, chunks, ending)
    decreases |bodies|
  {
    hide ReadStep, Pending, Framed, DecodeBody, Whole, WaitVerdict, Sizes;
    if bodies == [] {
      assert bodies + [last] == [last];
      assert [] + tail == tail;
      WaitsOnTail(z, t, judge, last, rest, buf, chunks, ending, calls);
    } else {
      var r, k, more := ReadStep(z, t, buf, chunks, ending), Whole(bodies + [last], 0, |buf|, chunks), bodies[1..];
      TailOfMore(bodies, last);
      Associate(Framed(bodies[0]), FramedAll(more), tail);
      ReadsFirstFrame(z, t, bodies + [last], FramedAll(more) + tail, buf, chunks, ending);
      if k == 0 {
        Stuck(z, t, judge, r.buf, r.chunks, ending, calls - 1);
        NothingReadable(z, t, judge, bodies, last, |buf|, chunks, ending);
      } else {
        WaitResynchronises(z, t, judge, more, last, tail, rest, r.buf, r.chunks, ending, calls - 1);
        FirstJudged(z, t, judge, bodies, last, |buf|, chunks, |r.buf|, r.chunks, ending);
      }
    }
  }

  lemma TailOfMore(bodies: seq<seq<Byte>>, last: seq<Byte>)
    requires bodies != []
    ensures (bodies + [last])[1..] == bodies[1..] + [last] && (bodies + [last])[0] == bodies[0]
    ensures Sizes(bodies + [last]) ==> Sizes(bodies[1..] + [last])
  {
    assert (bodies + [last])[1..] == bodies[1..] + [last];
  }

  lemma WaitsOnTail(z: Zlib, t: I32, judge: RawPacket -> Judgement, last: seq<Byte>, rest: seq<Byte>,
                    buf: seq<Byte>, chunks: seq<seq<Byte>>, ending: Ending, calls: nat)
    requires Sizes([last]) && Pending(buf, chunks) + rest == Framed(last) && rest != [] && calls > 0
    ensures WaitRun(z, t, judge, buf, chunks, ending, calls)
         == WaitVerdict(z, t, judge, [], last, |buf|, chunks, ending)
  {
    hide ReadStep, Pending, Framed, Splits;
    assert last in [last];
    assert [] + [last] == [last];
    ReadsCutOff(z, t, last, rest, buf, chunks, ending);
    var r := ReadStep(z, t, buf, chunks, ending);
    if r.outcome == Failed {
      Stuck(z, t, judge, r.buf, r.chunks, ending, calls - 1);
    }
  }

  lemma NothingReadable(z: Zlib, t: I32, judge: RawPacket -> Judgement, bodies: seq<seq<Byte>>, last: seq<Byte>,
                        have: nat, chunks: seq<seq<Byte>>, ending: Ending)
    requires Whole(bodies + [last], 0, have, chunks) == 0
    ensures WaitVerdict(z, t, judge, bodies, last, have, chunks, ending) == Undecided
  {
    hide Whole;
    assert bodies[..0] == [];
  }

  /** A readable first frame is judged, and if it gets no verdict the wait is that on the others. */
  lemma FirstJudged(z: Zlib, t: I32, judge: RawPacket -> Judgement, bodies: seq<seq<Byte>>, last: seq<Byte>,
                    have: nat, chunks: seq<seq<Byte>>, have': nat, chunks': seq<seq<Byte>>, ending: Ending)
    requires bodies != []
    requires Whole(bodies + [last], 0, have, chunks) == 1 + Whole(bodies[1..] + [last], 0, have', chunks')
    ensures WaitVerdict(z, t, judge, bodies, last, have, chunks, ending) ==
            var p := DecodeBody(z, t, bodies[0]);
            if p.None? || judge(p.value) == Skip then
              WaitVerdict(z, t, judge, bodies[1..], last, have', chunks', ending)
            else if judge(p.value) == Accept then Accepted(p.value) else Rejected
  {
    hide Whole, DecodeBody;
    var k := Whole(bodies + [last], 0, have, chunks);
    if k <= |bodies| {
      assert bodies[..k][0] == bodies[0] && bodies[..k][1..] == bodies[1..][..k - 1];
    }
  }

  /** A verdict, once there, does not depend on how many more calls are looked at. */
  lemma {:induction false} VerdictStays(z: Zlib, t: I32, judge: RawPacket -> Judgement, buf: seq<Byte>,
                                        chunks: seq<seq<Byte>>, ending: Ending, calls: nat, more: nat)
    requires calls <= more
    ensures var r := WaitRun(z, t, judge, buf, chunks, ending, calls);
            r != Undecided ==> WaitRun(z, t, judge, buf, chunks, ending, more) == r
    decreases calls
  {
    hide ReadStep;
    if calls > 0 {
      var r := ReadStep(z, t, buf, chunks, ending);
      VerdictStays(z, t, judge, r.buf, r.chunks, ending, calls - 1, more - 1);
    }
  }

  /**
   Exactly when a wait comes to no verdict of its own, however many calls it makes: iff no packet before the first split
   length prefix gets one, and there is such a prefix or every read behind the frames is an error.
   */
  lemma NeverDecidedIff(z: Zlib, t: I32, judge: RawPacket -> Judgement, bodies: seq<seq<Byte>>,
                        last: seq<Byte>, tail: seq<Byte>, rest: seq<Byte>,
                        buf: seq<Byte>, chunks: seq<seq<Byte>>, ending: Ending)
    requires Sizes(bodies + [last]) && Pending(buf, chunks) == FramedAll(bodies) + tail
    requires tail + rest == Framed(last) && rest != []
    ensures (forall calls: nat :: WaitRun(z, t, judge, buf, chunks, ending, calls) == Undecided) <==>
              WaitVerdict(z, t, judge, bodies, last, |buf|, chunks, ending) == Undecided
  {
    hide WaitRun, WaitVerdict, Pending, FramedAll, Framed;
    WaitResynchronises(z, t, judge, bodies, last, tail, rest, buf, chunks, ending, |bodies| + 1);
    forall calls: nat
      ensures WaitRun(z, t, judge, buf, chunks, ending, calls) != Undecided ==>
                WaitVerdict(z, t, judge, bodies, last, |buf|, chunks, ending) != Undecided
    {
      WaitResynchronises(z, t, judge, bodies, last, tail, rest, buf, chunks, ending, calls + |bodies| + 1);
      VerdictStays(z, t, judge, buf, chunks, ending, calls, calls + |bodies| + 1);
    }
  }

  /**
   The one way to lose a frame boundary: a length prefix cut after its second byte. Then, for every `n`, `n` calls give
   no verdict, remove nothing and, after the two bytes of the first, read nothing. No read has to wait, so no timeout
   can fire, and the task that runs the loop never gets out of it.
   */
  lemma SplitPrefixSpins(z: Zlib, t: I32, judge: RawPacket -> Judgement, body: seq<Byte>, rest: seq<Byte>,
                         buf: seq<Byte>, chunks: seq<seq<Byte>>, ending: Ending, n: nat)
    requires 1 <= |body| < 0x8000_0000
    requires Pending(buf, chunks) == Framed(body) + rest
    requires Splits(body, 0, |buf|, chunks)
    ensures WaitRun(z, t, judge, buf, chunks, ending, n) == Undecided
    ensures var fed := Feed(2, buf, chunks);
            ReadMany(z, t, buf, chunks, ending, n + 1) ==
            Session(Times(Failed, n + 1), Times([], n + 1), fed.buf, fed.chunks)
  {
    hide ReadStep, Pending, Framed, Feed, Times, Splits;
    var fed := Feed(2, buf, chunks);
    ReadyIffUnsplit(body, rest, buf, chunks);
    SplitPrefixFails(z, t, body, rest, buf, chunks, ending);
    if n > 0 {
      Stuck(z, t, judge, fed.buf, fed.chunks, ending, n - 1);
    }
    StuckForGood(z, t, fed.buf, fed.chunks, ending, n);
    TimesCons(Failed, n);
    TimesCons<seq<Byte>>([], n);
  }

  lemma {:induction false} Stuck(z: Zlib, t: I32, judge: RawPacket -> Judgement, buf: seq<Byte>,
                                 chunks: seq<seq<Byte>>, ending: Ending, calls: nat)
    requires ReadStep(z, t, buf, chunks, ending) == Reading(Failed, [], buf, chunks)
    ensures WaitRun(z, t, judge, buf, chunks, ending, calls) == Undecided
    decreases calls
  {
    hide ReadStep;
    if calls > 0 {
      Stuck(z, t, judge, buf, chunks, ending, calls - 1);
    }
  }

  // ----- what each loop waits for -----

  /** The packets the wait for a status passes over. */
  ghost predicate NoStatus(z: Zlib, t: I32, body: seq<Byte>) {
    var p := DecodeBody(z, t, body);
    p.Some? ==> p.value.id != 0
  }

  /**
   The wait for a status ends with the first decodable frame of id 0: with that packet if it decodes as a status, with
   an error if not.
   */
  lemma {:induction false} StatusDecides(z: Zlib, t: I32, decodes: seq<Byte> -> bool, bodies: seq<seq<Byte>>, i: nat,
                                         otherwise: WaitResult)
    requires i <= |bodies| && forall j :: 0 <= j < i ==> NoStatus(z, t, bodies[j])
    requires i < |bodies| ==> !NoStatus(z, t, bodies[i])
    ensures FirstVerdict(z, t, JudgeStatus(decodes), bodies, otherwise) ==
            if i == |bodies| then otherwise
            else
              var p := DecodeBody(z, t, bodies[i]).value;
              if decodes(p.data) then Accepted(p) else Rejected
    decreases i
  {
    hide DecodeBody;
    if i > 0 {
      assert NoStatus(z, t, bodies[0]);
      forall j | 0 <= j < i - 1 ensures NoStatus(z, t, bodies[1..][j]) {
        assert NoStatus(z, t, bodies[j + 1]);
      }
      StatusDecides(z, t, decodes, bodies[1..], i - 1, otherwise);
    }
  }

  /** The packets the wait for a ping passes over: any with another id, and pongs with another token. */
  ghost predicate NoPong(z: Zlib, t: I32, time: seq<Byte> -> Option<nat>, token: nat, body: seq<Byte>) {
    var p := DecodeBody(z, t, body);
    p.Some? && p.value.id == 1 ==> time(p.value.data).Some? && time(p.value.data).value != token
  }

  /** The wait for a ping ends with the first pong that does not decode, with an error, or that has the token. */
  lemma {:induction false} PongDecides(z: Zlib, t: I32, time: seq<Byte> -> Option<nat>, token: nat,
                                       bodies: seq<seq<Byte>>, i: nat, otherwise: WaitResult)
    requires i <= |bodies| && forall j :: 0 <= j < i ==> NoPong(z, t, time, token, bodies[j])
    requires i < |bodies| ==> !NoPong(z, t, time, token, bodies[i])
    ensures FirstVerdict(z, t, JudgePing(time, token), bodies, otherwise) ==
            if i == |bodies| then otherwise
            else
              var p := DecodeBody(z, t, bodies[i]).value;
              if time(p.data).Some? then Accepted(p) else Rejected
    decreases i
  {
    hide DecodeBody;
    if i > 0 {
      assert NoPong(z, t, time, token, bodies[0]);
      forall j | 0 <= j < i - 1 ensures NoPong(z, t, time, token, bodies[1..][j]) {
        assert NoPong(z, t, time, token, bodies[j + 1]);
      }
      PongDecides(z, t, time, token, bodies[1..], i - 1, otherwise);
    }
  }
}
