/**
 The lobby's connection to the real server (src/lobby.rs): a login loop that changes its own
 compression mode mid-stream, and the lobby's side of the same conversation.
 */
module Lobby {
  import opened Base
  import opened Cuts
  import opened Packet
  import VarInt

  const COMPRESSION_THRESHOLD: I32 := 256

  // Clientbound login packets.
  const CLIENT_DISCONNECT: Byte := 0
  const CLIENT_ENCRYPTION_REQUEST: Byte := 1
  const CLIENT_LOGIN_SUCCESS: Byte := 2
  const CLIENT_SET_COMPRESSION: Byte := 3
  const CLIENT_LOGIN_PLUGIN_REQUEST: Byte := 4

  datatype LoginResult = LoggedIn | GaveUp | Errored

  /** What the loop does about one packet. */
  datatype Reaction = Switch(threshold: I32) | Answer | Ignore | Finish(result: LoginResult)

  /** `answers` says whether a plugin request decodes and its reply is sent. */
  function React(answers: seq<Byte> -> bool, p: RawPacket): Reaction {
    if p.id == CLIENT_SET_COMPRESSION then
      match VarInt.Parse(p.data)
      case Malformed => Finish(Errored)
      case Read(_, threshold) => Switch(threshold)
    else if p.id == CLIENT_ENCRYPTION_REQUEST then Finish(GaveUp)
    else if p.id == CLIENT_LOGIN_PLUGIN_REQUEST then
      if answers(p.data) then Answer else Finish(Errored)
    else if p.id == CLIENT_LOGIN_SUCCESS then Finish(LoggedIn)
    else if p.id == CLIENT_DISCONNECT then Finish(GaveUp)
    else Ignore
  }

  function Adopt(t: I32, reaction: Reaction): I32 {
    if reaction.Switch? then reaction.threshold else t
  }

  // ----- the conversation seen as packets -----

  datatype Talk = Talk(result: LoginResult, threshold: I32, seen: nat)

  /** Which of the packets a server sends are read, and to what end. */
  function TalkThrough(answers: seq<Byte> -> bool, t: I32, ps: seq<RawPacket>): (talk: Talk)
    ensures talk.seen <= |ps|
    decreases |ps|
  {
    if ps == [] then Talk(GaveUp, t, 0)
    else
      var reaction := React(answers, ps[0]);
      if reaction.Finish? then Talk(reaction.result, t, 1)
      else
        var talk := TalkThrough(answers, Adopt(t, reaction), ps[1..]);
        talk.(seen := talk.seen + 1)
  }

  // ----- the conversation as bytes -----

  /** A sender goes over to the announced threshold right after the announcement. */
  function ThresholdAfter(t: I32, p: RawPacket): I32 {
    if p.id == CLIENT_SET_COMPRESSION && VarInt.Parse(p.data).Read? then VarInt.Parse(p.data).value else t
  }

  function SentBytes(z: Zlib, t: I32, ps: seq<RawPacket>): seq<Byte>
    decreases |ps|
  {
    if ps == [] then [] else Frame(z, t, ps[0]) + SentBytes(z, ThresholdAfter(t, ps[0]), ps[1..])
  }

  /** The frame bodies sent, each under the threshold in force at its turn. */
  function SentBodies(z: Zlib, t: I32, ps: seq<RawPacket>): (r: seq<seq<Byte>>)
    ensures |r| == |ps|
    decreases |ps|
  {
    if ps == [] then [] else [Body(z, t, ps[0])] + SentBodies(z, ThresholdAfter(t, ps[0]), ps[1..])
  }

  predicate AllFit(z: Zlib, t: I32, ps: seq<RawPacket>)
    decreases |ps|
  {
    ps != [] ==> Fits(z, t, ps[0]) && AllFit(z, ThresholdAfter(t, ps[0]), ps[1..])
  }

  lemma {:induction false} SentSizes(z: Zlib, t: I32, ps: seq<RawPacket>)
    requires AllFit(z, t, ps)
    ensures Sizes(SentBodies(z, t, ps))
    decreases |ps|
  {
    hide Fits, Body;
    if ps != [] {
      BodyIsThere(z, t, ps[0]);
      SentSizes(z, ThresholdAfter(t, ps[0]), ps[1..]);
    }
  }

  datatype LoginEnd = LoginEnd(result: LoginResult, threshold: I32, seen: seq<RawPacket>,
                               buf: seq<Byte>, chunks: seq<seq<Byte>>)

  /** The read loop of `connect_to_server_no_timeout`, from any buffer and socket. */
  function LoginRun(z: Zlib, answers: seq<Byte> -> bool, t: I32, buf: seq<Byte>, chunks: seq<seq<Byte>>,
                    ending: Ending): LoginEnd
    decreases |Pending(buf, chunks)|
  {
    var r := ReadStep(z, t, buf, chunks, ending);
    ReadConserves(z, t, buf, chunks, ending);
    if !r.outcome.Packet? then LoginEnd(GaveUp, t, [], r.buf, r.chunks)
    else
      var p := r.outcome.packet;
      var reaction := React(answers, p);
      if reaction.Finish? then LoginEnd(reaction.result, t, [p], r.buf, r.chunks)
      else
        var end := LoginRun(z, answers, Adopt(t, reaction), r.buf, r.chunks, ending);
        end.(seen := [p] + end.seen)
  }

  /** `whole` is what `end` becomes once the packets in `seen` are put in front. */
  ghost predicate Continues(whole: LoginEnd, seen: seq<RawPacket>, end: LoginEnd) {
    && whole.result == end.result && whole.threshold == end.threshold
    && whole.buf == end.buf && whole.chunks == end.chunks
    && whole.seen == seen + end.seen
  }

  /** The loop's reaction to one packet, with its effect on the connection's cells. */
  method Handle(answers: seq<Byte> -> bool, client: Client, packet: RawPacket) returns (reaction: Reaction)
    requires client.state == Login
    modifies client
    ensures reaction == React(answers, packet)
    ensures client.compression == Adopt(old(client.compression), reaction)
    ensures client.state == (if reaction == Finish(LoggedIn) then Play else Login)
  {
    if packet.id == CLIENT_SET_COMPRESSION {
      var threshold := VarInt.ReadVarInt(packet.data);
      if threshold.Malformed? { return Finish(Errored); }
      client.SetCompression(threshold.value);
      return Switch(threshold.value);
    }
    if packet.id == CLIENT_ENCRYPTION_REQUEST {
      return Finish(GaveUp);
    }
    if packet.id == CLIENT_LOGIN_PLUGIN_REQUEST {
      if !answers(packet.data) { return Finish(Errored); }
      return Answer;
    }
    if packet.id == CLIENT_LOGIN_SUCCESS {
      client.SetState(Play);
      return Finish(LoggedIn);
    }
    if packet.id == CLIENT_DISCONNECT {
      return Finish(GaveUp);
    }
    return Ignore;
  }

  method ConnectToServer(z: Zlib, answers: seq<Byte> -> bool, client: Client, buf: Buffer, stream: Socket)
    returns (result: LoginResult, ghost seen: seq<RawPacket>)
    requires client.state == Login
    modifies client, buf, stream
    ensures Continues(LoginRun(z, answers, old(client.compression), old(buf.bytes), old(stream.chunks), stream.ending),
                      [],
                      LoginEnd(result, client.compression, seen, buf.bytes, stream.chunks))
    ensures client.state == (if result.LoggedIn? then Play else Login)
  {
    hide React, ReadStep, Pending;
    ghost var whole := LoginRun(z, answers, client.compression, buf.bytes, stream.chunks, stream.ending);
    seen := [];
    while true
      invariant client.state == Login
      invariant Continues(whole, seen,
                          LoginRun(z, answers, client.compression, buf.bytes, stream.chunks, stream.ending))
      decreases |Pending(buf.bytes, stream.chunks)|
    {
      ghost var end := LoginRun(z, answers, client.compression, buf.bytes, stream.chunks, stream.ending);
      ReadConserves(z, client.compression, buf.bytes, stream.chunks, stream.ending);
      var r, taken := ReadPacket(z, client, buf, stream);
      if !r.Packet? {
        return GaveUp, seen;
      }
      var reaction := Handle(answers, client, r.packet);
      if reaction.Finish? {
        return reaction.result, seen + [r.packet];
      }
      assert seen + end.seen == seen + [r.packet] + end.seen[1..];
      seen := seen + [r.packet];
    }
  }

  /** What the byte loop comes to, `k` of the packets sent being readable. */
  ghost predicate Follows(z: Zlib, answers: seq<Byte> -> bool, t: I32, ps: seq<RawPacket>, k: nat, end: LoginEnd)
    requires k <= |ps|
  {
    var talk := TalkThrough(answers, t, ps);
    if k >= talk.seen then
      && end.result == talk.result && end.threshold == talk.threshold
      && end.seen == ps[..talk.seen]
      && Pending(end.buf, end.chunks) == SentBytes(z, talk.threshold, ps[talk.seen..])
    else
      end.result == GaveUp && end.seen == ps[..k]
  }

  /**
   The mid-stream compression switch is buffer-safe, and exactly when: of the packets sent, `k` come before the first
   length prefix that a read cuts after its second byte. If those include all the packets the conversation gets to, the
   byte loop reads exactly these, in order, ends the same way and with the sender's threshold, and leaves exactly the
   bytes of the others, however many later bytes were buffered when a switch took effect. If not, it reads exactly
   those `k` and gives up.
   */
  lemma {:induction false} SwitchIsBufferSafe(z: Zlib, answers: seq<Byte> -> bool, t: I32, ps: seq<RawPacket>,
                                              buf: seq<Byte>, chunks: seq<seq<Byte>>, ending: Ending)
    requires z.Lawful() && AllFit(z, t, ps)
    requires Pending(buf, chunks) == SentBytes(z, t, ps)
    ensures Follows(z, answers, t, ps, Whole(SentBodies(z, t, ps), 0, |buf|, chunks),
                    LoginRun(z, answers, t, buf, chunks, ending))
    decreases |ps|
  {
    hide ReadStep, Frame, Pending, Fits, Whole, React, SentBytes, TalkThrough, Follows;
    var k := Whole(SentBodies(z, t, ps), 0, |buf|, chunks);
    if ps == [] {
      NothingSent(z, answers, t, buf, chunks, ending);
    } else {
      var p, t' := ps[0], ThresholdAfter(t, ps[0]);
      ReadsFirstSent(z, t, ps, buf, chunks, ending);
      var r := ReadStep(z, t, buf, chunks, ending);
      if k == 0 {
        FollowsNothing(z, answers, t, ps, LoginRun(z, answers, t, buf, chunks, ending));
      } else if React(answers, p).Finish? {
        FollowsToEnd(z, answers, t, ps, k, r.buf, r.chunks);
      } else {
        AdoptsAnnounced(answers, t, p);
        SwitchIsBufferSafe(z, answers, t', ps[1..], r.buf, r.chunks, ending);
        FollowsOneMore(z, answers, t, ps, k - 1, LoginRun(z, answers, t', r.buf, r.chunks, ending));
      }
    }
  }

  lemma NothingSent(z: Zlib, answers: seq<Byte> -> bool, t: I32, buf: seq<Byte>, chunks: seq<seq<Byte>>, ending: Ending)
    requires Pending(buf, chunks) == SentBytes(z, t, [])
    ensures Follows(z, answers, t, [], 0, LoginRun(z, answers, t, buf, chunks, ending))
  {
    hide ReadStep, Pending;
    ReadsTheEnd(z, t, buf, chunks, ending);
  }

  lemma FollowsNothing(z: Zlib, answers: seq<Byte> -> bool, t: I32, ps: seq<RawPacket>, end: LoginEnd)
    requires ps != [] && end.result == GaveUp && end.seen == []
    ensures Follows(z, answers, t, ps, 0, end)
  {
    hide React;
  }

  lemma FollowsToEnd(z: Zlib, answers: seq<Byte> -> bool, t: I32, ps: seq<RawPacket>, k: nat,
                     buf: seq<Byte>, chunks: seq<seq<Byte>>)
    requires ps != [] && 0 < k <= |ps| && React(answers, ps[0]).Finish?
    requires Pending(buf, chunks) == SentBytes(z, ThresholdAfter(t, ps[0]), ps[1..])
    ensures Follows(z, answers, t, ps, k, LoginEnd(React(answers, ps[0]).result, t, [ps[0]], buf, chunks))
  {
    hide SentBytes, Pending;
  }

  lemma AdoptsAnnounced(answers: seq<Byte> -> bool, t: I32, p: RawPacket)
    requires !React(answers, p).Finish?
    ensures Adopt(t, React(answers, p)) == ThresholdAfter(t, p)
  {
  }

  lemma FollowsOneMore(z: Zlib, answers: seq<Byte> -> bool, t: I32, ps: seq<RawPacket>, k: nat, end: LoginEnd)
    requires k < |ps| && !React(answers, ps[0]).Finish?
    requires Follows(z, answers, Adopt(t, React(answers, ps[0])), ps[1..], k, end)
    ensures Follows(z, answers, t, ps, k + 1, end.(seen := [ps[0]] + end.seen))
  {
    hide SentBytes, Pending, React;
    TakeOneMore(ps, TalkThrough(answers, Adopt(t, React(answers, ps[0])), ps[1..]).seen);
    TakeOneMore(ps, k);
  }

  lemma TakeOneMore<T>(s: seq<T>, n: nat)
    requires n < |s|
    ensures [s[0]] + s[1..][..n] == s[..n + 1] && s[1..][n..] == s[n + 1..]
  {
  }

  lemma ReadsFirstSent(z: Zlib, t: I32, ps: seq<RawPacket>, buf: seq<Byte>, chunks: seq<seq<Byte>>, ending: Ending)
    requires ps != [] && z.Lawful() && AllFit(z, t, ps)
    requires Pending(buf, chunks) == SentBytes(z, t, ps)
    ensures var t', k := ThresholdAfter(t, ps[0]), Whole(SentBodies(z, t, ps), 0, |buf|, chunks);
            var r := ReadStep(z, t, buf, chunks, ending);
            if k == 0 then r.outcome == Failed
            else
              && r.outcome == Packet(ps[0], Frame(z, t, ps[0]))
              && Pending(r.buf, r.chunks) == SentBytes(z, t', ps[1..])
              && k == 1 + Whole(SentBodies(z, t', ps[1..]), 0, |r.buf|, r.chunks)
  {
    hide ReadStep, Framed, Body, Pending, Fits, Whole, DecodeBody;
    SentSizes(z, t, ps);
    BodyRoundTrip(z, t, t, ps[0]);
    var bodies, t' := SentBodies(z, t, ps), ThresholdAfter(t, ps[0]);
    assert bodies[1..] == SentBodies(z, t', ps[1..]);
    ReadsFirstFrame(z, t, bodies, SentBytes(z, t', ps[1..]), buf, chunks, ending);
  }

  // ----- what the packets of a login mean -----

  /**
   A packet the login goes on after, by id: not a disconnect (0), an encryption request (1) or a login success (2); an
   announcement of compression (3) that decodes; a plugin request (4) that is answered.
   */
  predicate GoesOn(answers: seq<Byte> -> bool, p: RawPacket) {
    && p.id != 0 && p.id != 1 && p.id != 2
    && (p.id == 3 ==> VarInt.Parse(p.data).Read?)
    && (p.id == 4 ==> answers(p.data))
  }

  predicate AllGoOn(answers: seq<Byte> -> bool, ps: seq<RawPacket>) {
    forall p :: p in ps ==> GoesOn(answers, p)
  }

  /** The threshold announced last, or the one in force before. */
  function Announced(t: I32, ps: seq<RawPacket>): I32
    decreases |ps|
  {
    if ps == [] then t
    else
      var last, before := ps[|ps| - 1], ps[..|ps| - 1];
      if last.id == 3 && VarInt.Parse(last.data).Read? then VarInt.Parse(last.data).value else Announced(t, before)
  }

  lemma {:induction false} AnnouncedFirst(t: I32, p: RawPacket, ps: seq<RawPacket>)
    ensures Announced(t, [p] + ps) == Announced(Announced(t, [p]), ps)
    decreases |ps|
  {
    if ps == [] {
      assert [p] + ps == [p];
    } else {
      var all := [p] + ps;
      assert all[..|all| - 1] == [p] + ps[..|ps| - 1] && all[|all| - 1] == ps[|ps| - 1];
      AnnouncedFirst(t, p, ps[..|ps| - 1]);
    }
  }

  /**
   What a login comes to, packet by packet: the first one it does not go on after decides. A login success logs in; an
   announcement or a plugin request of that kind is an error; a disconnect or an encryption request, and the end of the
   packets, give up. The threshold is the one announced last before that.
   */
  lemma {:induction false} FirstStopDecides(answers: seq<Byte> -> bool, t: I32, ps: seq<RawPacket>, n: nat)
    requires n <= |ps| && AllGoOn(answers, ps[..n])
    requires n < |ps| ==> !GoesOn(answers, ps[n])
    ensures var talk := TalkThrough(answers, t, ps);
            && talk.threshold == Announced(t, ps[..n])
            && talk.seen == (if n < |ps| then n + 1 else n)
            && (talk.result == LoggedIn <==> n < |ps| && ps[n].id == 2)
            && (talk.result == Errored <==> n < |ps| && (ps[n].id == 3 || ps[n].id == 4))
            && (talk.result == GaveUp <==> n == |ps| || ps[n].id == 0 || ps[n].id == 1)
    decreases n
  {
    hide VarInt.Parse;
    if n > 0 {
      var p, more := ps[0], ps[1..];
      assert ps[..n] == [p] + more[..n - 1];
      assert p in ps[..n];
      assert forall q :: q in more[..n - 1] ==> q in ps[..n];
      FirstStopDecides(answers, Adopt(t, React(answers, p)), more, n - 1);
      AnnouncedFirst(t, p, more[..n - 1]);
      assert [p][..0] == [];
    }
  }

  function FirstStop(answers: seq<Byte> -> bool, ps: seq<RawPacket>): (n: nat)
    ensures n <= |ps| && AllGoOn(answers, ps[..n])
    ensures n < |ps| ==> !GoesOn(answers, ps[n])
  {
    if ps == [] || !GoesOn(answers, ps[0]) then 0
    else
      var n := FirstStop(answers, ps[1..]);
      assert ps[..n + 1] == [ps[0]] + ps[1..][..n];
      n + 1
  }

  /**
   Exactly when a login over the stream succeeds: iff a login success was sent, every packet before it is one the login
   goes on after, and no read cuts a length prefix up to there after its second byte. The threshold is then the one
   announced last.
   */
  lemma LogsInIff(z: Zlib, answers: seq<Byte> -> bool, t: I32, ps: seq<RawPacket>,
                  buf: seq<Byte>, chunks: seq<seq<Byte>>, ending: Ending)
    requires z.Lawful() && AllFit(z, t, ps)
    requires Pending(buf, chunks) == SentBytes(z, t, ps)
    ensures var end, k := LoginRun(z, answers, t, buf, chunks, ending), Whole(SentBodies(z, t, ps), 0, |buf|, chunks);
            var n := FirstStop(answers, ps);
            && (end.result == LoggedIn <==> n < k && ps[n].id == 2)
            && (end.result == Errored <==> n < k && (ps[n].id == 3 || ps[n].id == 4))
            && (n < k ==> end.seen == ps[..n + 1] && end.threshold == Announced(t, ps[..n]))
  {
    hide LoginRun, TalkThrough, Whole, Pending, SentBytes, FirstStop, AllFit, GoesOn;
    SwitchIsBufferSafe(z, answers, t, ps, buf, chunks, ending);
    FirstStopDecides(answers, t, ps, FirstStop(answers, ps));
  }

  /** In particular the login of a server whose answer starts with a disconnect or an encryption request is given up. */
  lemma RefusalGivesUp(z: Zlib, answers: seq<Byte> -> bool, t: I32, ps: seq<RawPacket>,
                       buf: seq<Byte>, chunks: seq<seq<Byte>>, ending: Ending)
    requires z.Lawful() && AllFit(z, t, ps)
    requires Pending(buf, chunks) == SentBytes(z, t, ps)
    requires ps != [] && (ps[0].id == 0 || ps[0].id == 1)
    ensures LoginRun(z, answers, t, buf, chunks, ending).result == GaveUp
  {
    hide LoginRun, Whole, Pending, SentBytes, AllFit;
    LogsInIff(z, answers, t, ps, buf, chunks, ending);
  }

  // ----- the lobby as a server -----

  class Writer {
    var bytes: seq<Byte>

    constructor ()
      ensures bytes == []
    {
      bytes := [];
    }

    method WriteAll(more: seq<Byte>)
      modifies this
      ensures bytes == old(bytes) + more
    {
      bytes := bytes + more;
    }
  }

  method WritePacket(z: Zlib, p: RawPacket, client: Client, writer: Writer)
    modifies writer
    ensures writer.bytes == old(writer.bytes) + Frame(z, client.compression, p)
  {
    var response := EncodeWithLen(z, client, p);
    writer.WriteAll(response);
  }

  function SetCompressionPacket(threshold: I32): RawPacket {
    RawPacket(CLIENT_SET_COMPRESSION, VarInt.Encode(threshold))
  }

  function LoginSuccessPacket(data: seq<Byte>): RawPacket {
    RawPacket(CLIENT_LOGIN_SUCCESS, data)
  }

  /** The lobby's answer to a login start: announce compression, adopt it, report success. */
  method RespondLogin(z: Zlib, success: seq<Byte>, client: Client, writer: Writer)
    modifies client, writer
    ensures writer.bytes == old(writer.bytes)
                            + SentBytes(z, old(client.compression),
                                        [SetCompressionPacket(COMPRESSION_THRESHOLD), LoginSuccessPacket(success)])
    ensures client.state == Play && client.compression == COMPRESSION_THRESHOLD
  {
    hide Frame, SentBytes;
    ghost var before, t := writer.bytes, client.compression;
    var announce := VarInt.EncodeVarInt(COMPRESSION_THRESHOLD);
    WritePacket(z, RawPacket(CLIENT_SET_COMPRESSION, announce), client, writer);
    client.SetCompression(COMPRESSION_THRESHOLD);
    WritePacket(z, RawPacket(CLIENT_LOGIN_SUCCESS, success), client, writer);
    client.SetState(Play);
    ResponseBytes(z, t, success, before);
  }

  lemma SwitchTakesEffect(t: I32, threshold: I32)
    ensures ThresholdAfter(t, SetCompressionPacket(threshold)) == threshold
    ensures forall answers :: React(answers, SetCompressionPacket(threshold)) == Switch(threshold)
  {
    VarInt.RoundTrip(threshold, []);
    assert VarInt.Encode(threshold) + [] == VarInt.Encode(threshold);
  }

  lemma ResponseBytes(z: Zlib, t: I32, success: seq<Byte>, before: seq<Byte>)
    ensures before + SentBytes(z, t, [SetCompressionPacket(COMPRESSION_THRESHOLD), LoginSuccessPacket(success)])
         == before + Frame(z, t, SetCompressionPacket(COMPRESSION_THRESHOLD))
            + Frame(z, COMPRESSION_THRESHOLD, LoginSuccessPacket(success))
  {
    hide Frame;
    SwitchTakesEffect(t, COMPRESSION_THRESHOLD);
    var first, second := SetCompressionPacket(COMPRESSION_THRESHOLD), LoginSuccessPacket(success);
    assert [first, second][1..] == [second] && [second][1..] == [];
    calc {
      SentBytes(z, t, [first, second]);
      Frame(z, t, first) + SentBytes(z, COMPRESSION_THRESHOLD, [second]);
      Frame(z, t, first) + (Frame(z, COMPRESSION_THRESHOLD, second) + []);
    }
  }

  /**
   Both sides agree: a client running the login loop against the lobby's own response is logged in iff no read cuts one
   of the two length prefixes after its second byte, and then with the lobby's threshold, whatever play packets follow
   still whole and in order.
   */
  lemma LobbyResponseLogsIn(z: Zlib, answers: seq<Byte> -> bool, t: I32, ps: seq<RawPacket>,
                            buf: seq<Byte>, chunks: seq<seq<Byte>>, ending: Ending)
    requires z.Lawful() && AllFit(z, t, ps)
    requires Pending(buf, chunks) == SentBytes(z, t, ps)
    requires StartsWithResponse(ps)
    ensures var end := LoginRun(z, answers, t, buf, chunks, ending);
            && (end.result == LoggedIn <==> Whole(SentBodies(z, t, ps), 0, |buf|, chunks) >= 2)
            && (end.result == LoggedIn ==>
                  && end.threshold == COMPRESSION_THRESHOLD
                  && Pending(end.buf, end.chunks) == SentBytes(z, COMPRESSION_THRESHOLD, ps[2..]))
  {
    hide AllFit, SentBytes, LoginRun, Pending, Whole;
    SwitchIsBufferSafe(z, answers, t, ps, buf, chunks, ending);
    ResponseEndsTalk(answers, t, ps);
  }

  predicate StartsWithResponse(ps: seq<RawPacket>) {
    |ps| >= 2 && ps[0] == SetCompressionPacket(COMPRESSION_THRESHOLD) && ps[1] == LoginSuccessPacket(ps[1].data)
  }

  lemma ResponseEndsTalk(answers: seq<Byte> -> bool, t: I32, ps: seq<RawPacket>)
    requires StartsWithResponse(ps)
    ensures TalkThrough(answers, t, ps) == Talk(LoggedIn, COMPRESSION_THRESHOLD, 2)
  {
    SwitchTakesEffect(t, COMPRESSION_THRESHOLD);
    assert TalkThrough(answers, COMPRESSION_THRESHOLD, ps[1..]) == Talk(LoggedIn, COMPRESSION_THRESHOLD, 1);
  }
}
