/**
 The login front-end (src/status.rs): one connection, from its first byte to the hand-over to
 the join methods.
 */
module Status {
  import opened Base
  import opened Cuts
  import opened Packet
  import VarInt

  // Serverbound packets.
  const SERVER_HANDSHAKE: Byte := 0
  const SERVER_STATUS: Byte := 0
  const SERVER_PING: Byte := 1
  const SERVER_LOGIN_START: Byte := 0

  datatype Hello = Hello(protocol: I32, nextState: I32)

  /** What can keep a login out. */
  datatype Gate = Lockout | Ban | Whitelist

  /** Everything the connection consults besides its own bytes. */
  datatype Site = Site(
    zlib: Zlib,
    decodeHandshake: seq<Byte> -> Option<Hello>,
    decodeLogin: seq<Byte> -> Option<string>,
    lockout: bool,
    banned: bool,
    whitelisted: string -> bool,
    statusData: nat -> seq<Byte>,      // the status sent as the n-th write to the client
    kick: Gate -> RawPacket,           // the disconnect packet of the gate that closes
    writes: nat -> bool)               // whether the n-th write to the client succeeds

  /** The variables of `serve`, with a count of its calls to `Server::start`. */
  datatype Conn = Conn(
    state: ClientState,
    history: seq<Byte>,
    handshake: Option<Hello>,
    username: Option<string>,
    written: seq<seq<Byte>>,
    starts: nat)

  const FRESH := Conn(Handshake, [], None, None, [], 0)

  /** How a packet leaves the loop: read on, close quietly, return an error, or hand over. */
  datatype Verdict = Next | Quit | Error | HandOver

  datatype Reply = Reply(verdict: Verdict, conn: Conn)

  function Send(site: Site, c: Conn, bytes: seq<Byte>, after: Verdict): Reply {
    if site.writes(|c.written|) then Reply(after, c.(written := c.written + [bytes]))
    else Reply(Error, c)
  }

  /** The first gate that is closed to a name, which may be unreadable. */
  function ClosedGate(site: Site, username: Option<string>): Option<Gate> {
    if site.lockout then Some(Lockout)
    else if site.banned then Some(Ban)
    else if username.Some? && !site.whitelisted(username.value) then Some(Whitelist)
    else None
  }

  function OnPacket(site: Site, t: I32, c: Conn, p: RawPacket, raw: seq<Byte>): Reply {
    if c.state == Handshake && p.id == SERVER_HANDSHAKE then
      match site.decodeHandshake(p.data)
      case None => Reply(Quit, c)
      case Some(hello) =>
        match FromId(hello.nextState)
        case None => Reply(Quit, c)
        case Some(next) =>
          Reply(Next, c.(handshake := Some(hello), state := next,
                         history := if next == Login then c.history + raw else c.history))
    else if c.state == ClientState.Status && p.id == SERVER_STATUS then
      Send(site, c, Frame(site.zlib, t, RawPacket(0, site.statusData(|c.written|))), Next)
    else if c.state == ClientState.Status && p.id == SERVER_PING then
      Send(site, c, raw, Next)
    else if c.state == Login && p.id == SERVER_LOGIN_START then
      var named := c.(username := site.decodeLogin(p.data));
      match ClosedGate(site, named.username)
      case None => Reply(HandOver, named.(starts := named.starts + 1))
      case Some(gate) => Send(site, named, Frame(site.zlib, t, site.kick(gate)), Quit)
    else Reply(Next, c)
  }

  datatype How = Left | Errored | HandedOver(queue: seq<Byte>)

  datatype Arrival = Arrival(packet: RawPacket, raw: seq<Byte>)

  /** The end of `serve`: its variables, the packets it read, and what is left of the stream. */
  datatype End = End(how: How, conn: Conn, seen: seq<Arrival>, chunks: seq<seq<Byte>>)

  function ServeRun(site: Site, t: I32, c: Conn, seen: seq<Arrival>, buf: seq<Byte>, chunks: seq<seq<Byte>>,
                    ending: Ending): End
    decreases |Pending(buf, chunks)|
  {
    var r := ReadStep(site.zlib, t, buf, chunks, ending);
    ReadConserves(site.zlib, t, buf, chunks, ending);
    if !r.outcome.Packet? then End(Left, c, seen, r.chunks)
    else
      var p, raw := r.outcome.packet, r.outcome.raw;
      var seen' := seen + [Arrival(p, raw)];
      var Reply(verdict, c') := OnPacket(site, t, c, p, raw);
      match verdict
      case Next => ServeRun(site, t, c', seen', r.buf, r.chunks, ending)
      case Quit => End(Left, c', seen', r.chunks)
      case Error => End(Errored, c', seen', r.chunks)
      case HandOver => End(HandedOver(raw + r.buf), c'.(history := c'.history + raw + r.buf), seen', r.chunks)
  }

  // ----- serve itself -----

  /** One connection's mutable state. */
  class Connection {
    const client: Client
    const buf: Buffer
    const stream: Socket
    var history: seq<Byte>
    var handshake: Option<Hello>
    var username: Option<string>
    var written: seq<seq<Byte>>
    var starts: nat

    constructor (stream: Socket)
      ensures fresh(client) && fresh(buf) && this.stream == stream
      ensures Abs() == FRESH && client.compression == -1 && buf.bytes == []
    {
      client := new Client();
      buf := new Buffer([]);
      this.stream := stream;
      history, handshake, username, written, starts := [], None, None, [], 0;
    }

    ghost function Abs(): Conn
      reads this, client
    {
      Conn(client.state, history, handshake, username, written, starts)
    }

    method Write(site: Site, bytes: seq<Byte>) returns (ok: bool)
      modifies this`written
      ensures ok == site.writes(|old(written)|)
      ensures written == if ok then old(written) + [bytes] else old(written)
    {
      ok := site.writes(|written|);
      if ok { written := written + [bytes]; }
    }

    method OnHandshake(site: Site, p: RawPacket, raw: seq<Byte>) returns (verdict: Verdict)
      requires client.state == Handshake && p.id == SERVER_HANDSHAKE
      modifies this, client
      ensures Reply(verdict, Abs()) == OnPacket(site, client.compression, old(Abs()), p, raw)
      ensures client.compression == old(client.compression)
    {
      var hello := site.decodeHandshake(p.data);
      if hello.None? { return Quit; }
      var next := FromId(hello.value.nextState);
      if next.None? { return Quit; }
      handshake := hello;
      client.SetState(next.value);
      if next.value == Login {
        history := history + raw;
      }
      return Next;
    }

    method TurnAway(site: Site, gate: Gate) returns (verdict: Verdict)
      modifies this
      ensures Reply(verdict, Abs())
           == Send(site, old(Abs()), Frame(site.zlib, client.compression, site.kick(gate)), Quit)
    {
      var bytes := EncodeWithLen(site.zlib, client, site.kick(gate));
      var ok := Write(site, bytes);
      return if ok then Quit else Error;
    }

    method OnLoginStart(site: Site, p: RawPacket, ghost raw: seq<Byte>) returns (verdict: Verdict)
      requires client.state == Login && p.id == SERVER_LOGIN_START
      modifies this
      ensures Reply(verdict, Abs()) == OnPacket(site, client.compression, old(Abs()), p, raw)
    {
      username := site.decodeLogin(p.data);
      if site.lockout {
        verdict := TurnAway(site, Lockout);
        return;
      }
      if site.banned {
        verdict := TurnAway(site, Ban);
        return;
      }
      if username.Some? && !site.whitelisted(username.value) {
        verdict := TurnAway(site, Whitelist);
        return;
      }
      starts := starts + 1;
      return HandOver;
    }

    method OnStatus(site: Site, p: RawPacket, raw: seq<Byte>) returns (verdict: Verdict)
      requires client.state == ClientState.Status
      modifies this
      ensures Reply(verdict, Abs()) == OnPacket(site, client.compression, old(Abs()), p, raw)
    {
      var ok := true;
      if p.id == SERVER_STATUS {
        var bytes := EncodeWithLen(site.zlib, client, RawPacket(0, site.statusData(|written|)));
        ok := Write(site, bytes);
      } else if p.id == SERVER_PING {
        ok := Write(site, raw);
      }
      return if ok then Next else Error;
    }

    method Serve(site: Site) returns (how: How, ghost seen: seq<Arrival>)
      modifies this, client, buf, stream
      ensures End(how, Abs(), seen, stream.chunks)
           == ServeRun(site, old(client.compression), old(Abs()), [], old(buf.bytes), old(stream.chunks), stream.ending)
      ensures how.HandedOver? ==> buf.bytes == []
    {
      hide OnPacket, ReadStep, Pending;
      seen := [];
      ghost var t := client.compression;
      while true
        invariant client.compression == t
        invariant ServeRun(site, t, Abs(), seen, buf.bytes, stream.chunks, stream.ending)
               == ServeRun(site, t, old(Abs()), [], old(buf.bytes), old(stream.chunks), stream.ending)
        decreases |Pending(buf.bytes, stream.chunks)|
      {
        ReadConserves(site.zlib, t, buf.bytes, stream.chunks, stream.ending);
        var r, taken := ReadPacket(site.zlib, client, buf, stream);
        if !r.Packet? {
          return Left, seen;
        }
        seen := seen + [Arrival(r.packet, r.raw)];
        var verdict := Dispatch(site, r.packet, r.raw);
        match verdict {
          case Next =>
          case Quit => return Left, seen;
          case Error => return Errored, seen;
          case HandOver =>
            history := history + r.raw;
            history := history + buf.bytes;
            how := HandedOver(r.raw + buf.bytes);
            buf.bytes := [];
            return how, seen;
        }
      }
    }

    method Dispatch(site: Site, p: RawPacket, raw: seq<Byte>) returns (verdict: Verdict)
      modifies this, client
      ensures Reply(verdict, Abs()) == OnPacket(site, client.compression, old(Abs()), p, raw)
      ensures client.compression == old(client.compression)
    {
      if client.state == Handshake && p.id == SERVER_HANDSHAKE {
        verdict := OnHandshake(site, p, raw);
      } else if client.state == ClientState.Status {
        verdict := OnStatus(site, p, raw);
      } else if client.state == Login && p.id == SERVER_LOGIN_START {
        verdict := OnLoginStart(site, p, raw);
      } else {
        verdict := Next;
      }
    }
  }

  // ----- what every connection keeps -----

  predicate IsLoginHello(site: Site, a: Arrival) {
    a.packet.id == SERVER_HANDSHAKE
    && var hello := site.decodeHandshake(a.packet.data);
       hello.Some? && hello.value.nextState == 2
  }

  /** The history is exactly the frame of the handshake that asked for login; in any other state it is empty. */
  ghost predicate Coherent(site: Site, c: Conn, seen: seq<Arrival>) {
    && c.state != Play
    && (c.state == Login ==> exists i :: 0 <= i < |seen| && HistoryIs(site, c, seen[i]))
    && (c.state != Login ==> c.history == [])
  }

  predicate HistoryIs(site: Site, c: Conn, hello: Arrival) {
    IsLoginHello(site, hello) && c.history == hello.raw && c.handshake == site.decodeHandshake(hello.packet.data)
  }

  lemma PacketKeepsCoherence(site: Site, t: I32, c: Conn, seen: seq<Arrival>, p: RawPacket, raw: seq<Byte>)
    requires Coherent(site, c, seen)
    ensures var Reply(verdict, c') := OnPacket(site, t, c, p, raw);
            && Coherent(site, c', seen + [Arrival(p, raw)])
            && (verdict == HandOver ==>
                  && c'.state == Login && c'.history == c.history && c'.handshake == c.handshake
                  && c'.username == site.decodeLogin(p.data)
                  && !site.lockout && !site.banned && (c'.username.Some? ==> site.whitelisted(c'.username.value))
                  && c'.starts == c.starts + 1)
            && (verdict != HandOver ==> c'.starts == c.starts)
  {
    hide Frame;
    var seen' := seen + [Arrival(p, raw)];
    var c' := OnPacket(site, t, c, p, raw).conn;
    if c.state == Login {
      var i :| 0 <= i < |seen| && HistoryIs(site, c, seen[i]);
      assert seen'[i] == seen[i] && HistoryIs(site, c', seen'[i]);
    } else if c'.state == Login {
      StateIds(Login, site.decodeHandshake(p.data).value.nextState);
      assert HistoryIs(site, c', seen'[|seen|]);
    }
  }

  /** What holds when a connection is handed over to the join methods. */
  ghost predicate WellHandedOver(site: Site, end: End, startsBefore: nat)
    requires end.how.HandedOver?
  {
    var n := |end.seen| - 1;
    && n >= 0
    && end.conn.state == Login
    && end.conn.handshake.Some? && end.conn.handshake.value.nextState == 2
    && (exists i :: 0 <= i < n && HistoryWas(site, end, end.seen[i]))
    && end.seen[n].raw <= end.how.queue
    && end.conn.username == site.decodeLogin(end.seen[n].packet.data)
    && !site.lockout && !site.banned && (end.conn.username.Some? ==> site.whitelisted(end.conn.username.value))
    && end.conn.starts == startsBefore + 1
  }

  predicate HistoryWas(site: Site, end: End, hello: Arrival)
    requires end.how.HandedOver?
  {
    && IsLoginHello(site, hello)
    && end.conn.history == hello.raw + end.how.queue
    && end.conn.handshake == site.decodeHandshake(hello.packet.data)
  }

  /**
   The connection invariant over whole runs. A connection that is handed over is in state Login, its
   history is one login handshake frame followed by the login queue, it passed every gate, and it
   called `start` exactly once; one that ends otherwise never called it.
   */
  lemma {:induction false} ConnectionInvariant(site: Site, t: I32, c: Conn, seen: seq<Arrival>, buf: seq<Byte>,
                                               chunks: seq<seq<Byte>>, ending: Ending)
    requires Coherent(site, c, seen)
    ensures var end := ServeRun(site, t, c, seen, buf, chunks, ending);
            && (end.how.HandedOver? ==> WellHandedOver(site, end, c.starts))
            && (!end.how.HandedOver? ==> end.conn.starts == c.starts && Coherent(site, end.conn, end.seen))
    decreases |Pending(buf, chunks)|
  {
    hide ReadStep, Pending, OnPacket, Coherent, WellHandedOver;
    var r := ReadStep(site.zlib, t, buf, chunks, ending);
    ReadConserves(site.zlib, t, buf, chunks, ending);
    if r.outcome.Packet? {
      var p, raw := r.outcome.packet, r.outcome.raw;
      PacketKeepsCoherence(site, t, c, seen, p, raw);
      var reply := OnPacket(site, t, c, p, raw);
      if reply.verdict == Next {
        ConnectionInvariant(site, t, reply.conn, seen + [Arrival(p, raw)], r.buf, r.chunks, ending);
      } else if reply.verdict == HandOver {
        HandOverIsWell(site, t, c, seen, p, raw, r.buf, r.chunks);
      }
    }
  }

  lemma HandOverIsWell(site: Site, t: I32, c: Conn, seen: seq<Arrival>, p: RawPacket, raw: seq<Byte>,
                       buf: seq<Byte>, chunks: seq<seq<Byte>>)
    requires Coherent(site, c, seen)
    requires OnPacket(site, t, c, p, raw).verdict == HandOver
    ensures var c' := OnPacket(site, t, c, p, raw).conn;
            WellHandedOver(site, End(HandedOver(raw + buf), c'.(history := c'.history + raw + buf),
                                     seen + [Arrival(p, raw)], chunks), c.starts)
  {
    hide Frame;
    var c' := OnPacket(site, t, c, p, raw).conn;
    var end := End(HandedOver(raw + buf), c'.(history := c'.history + raw + buf), seen + [Arrival(p, raw)], chunks);
    var i :| 0 <= i < |seen| && HistoryIs(site, c, seen[i]);
    assert end.seen[i] == seen[i];
    Associate(c.history, raw, buf);
    assert HistoryWas(site, end, end.seen[i]);
  }

  /** A lockout or a ban starts nothing and hands nobody over, whatever the client sends. */
  lemma ClosedGatesStartNothing(site: Site, t: I32, chunks: seq<seq<Byte>>, ending: Ending)
    requires site.lockout || site.banned
    ensures var end := ServeRun(site, t, FRESH, [], [], chunks, ending);
            !end.how.HandedOver? && end.conn.starts == 0
  {
    ConnectionInvariant(site, t, FRESH, [], [], chunks, ending);
  }

  // ----- what is relayed -----

  function Raws(seen: seq<Arrival>): seq<seq<Byte>> {
    seq(|seen|, i requires 0 <= i < |seen| => seen[i].raw)
  }

  /** At hand-over: the earlier frames, the queue and the unread rest are all that was ever received. */
  lemma {:induction false} HandOverConserves(site: Site, t: I32, c: Conn, seen: seq<Arrival>, buf: seq<Byte>,
                                             chunks: seq<seq<Byte>>, ending: Ending)
    requires forall a :: a in seen ==> a.raw != []
    ensures var end := ServeRun(site, t, c, seen, buf, chunks, ending);
            end.how.HandedOver? ==>
              && |end.seen| > 0 && (forall a :: a in end.seen ==> a.raw != [])
              && Flat(Raws(end.seen[..|end.seen| - 1])) + (end.how.queue + Flat(end.chunks))
                 == Flat(Raws(seen)) + Pending(buf, chunks)
    decreases |Pending(buf, chunks)|
  {
    hide ReadStep, Pending, OnPacket, Raws, Flat;
    var r := ReadStep(site.zlib, t, buf, chunks, ending);
    ReadConserves(site.zlib, t, buf, chunks, ending);
    if r.outcome.Packet? {
      var p, raw := r.outcome.packet, r.outcome.raw;
      var reply := OnPacket(site, t, c, p, raw);
      var seen' := seen + [Arrival(p, raw)];
      RawsGrow(seen, Arrival(p, raw), r.buf, r.chunks);
      assert forall a :: a in seen' ==> a.raw != [];
      if reply.verdict == Next {
        HandOverConserves(site, t, reply.conn, seen', r.buf, r.chunks, ending);
      } else {
        assert seen'[..|seen'| - 1] == seen;
      }
    }
  }

  lemma RawsGrow(seen: seq<Arrival>, a: Arrival, buf: seq<Byte>, chunks: seq<seq<Byte>>)
    ensures Flat(Raws(seen + [a])) + Pending(buf, chunks) == Flat(Raws(seen)) + (a.raw + Pending(buf, chunks))
    ensures a.raw + buf + Flat(chunks) == a.raw + Pending(buf, chunks)
  {
    assert Raws(seen + [a]) == Raws(seen) + [a.raw];
    FlatAppend(Raws(seen), [a.raw]);
    FlatCons(a.raw, []);
    assert [a.raw] + [] == [a.raw];
  }

  /** What a relay would send is all the client sent iff the login start was the second packet read. */
  lemma CompleteIffSecond(site: Site, t: I32, chunks: seq<seq<Byte>>, ending: Ending)
    ensures var end := ServeRun(site, t, FRESH, [], [], chunks, ending);
            end.how.HandedOver? ==>
              (end.conn.history + Flat(end.chunks) == Flat(chunks) <==> |end.seen| == 2)
  {
    hide ReadStep, OnPacket, ServeRun;
    var end := ServeRun(site, t, FRESH, [], [], chunks, ending);
    ConnectionInvariant(site, t, FRESH, [], [], chunks, ending);
    HandOverConserves(site, t, FRESH, [], [], chunks, ending);
    if end.how.HandedOver? {
      var earlier := end.seen[..|end.seen| - 1];
      var i :| 0 <= i < |end.seen| - 1 && HistoryWas(site, end, end.seen[i]);
      CompleteIffAlone(Raws(earlier), i, end.how.queue + Flat(end.chunks));
      Associate(end.seen[i].raw, end.how.queue, Flat(end.chunks));
      assert Flat(Raws([])) + Pending([], chunks) == Flat(chunks);
    }
  }

  lemma CompleteIffAlone(xs: seq<seq<Byte>>, i: nat, rest: seq<Byte>)
    requires i < |xs| && forall k :: 0 <= k < |xs| ==> |xs[k]| > 0
    ensures xs[i] + rest == Flat(xs) + rest <==> |xs| == 1
  {
    if |xs| == 1 {
      assert xs == [xs[0]] + [];
      FlatCons(xs[0], []);
    } else {
      hide Flat;
      FlatLongerThan(xs, i);
      var all := Flat(xs);
      assert |all + rest| == |all| + |rest| > |xs[i]| + |rest| == |xs[i] + rest|;
    }
  }

  // ----- whole conversations, however they are cut up -----

  /** One round of the loop on the first of some frames: it ends there iff that frame cannot be read or decoded. */
  lemma ServeStep(site: Site, t: I32, c: Conn, seen: seq<Arrival>, bodies: seq<seq<Byte>>, rest: seq<Byte>,
                  buf: seq<Byte>, chunks: seq<seq<Byte>>, ending: Ending)
    returns (buf': seq<Byte>, chunks': seq<seq<Byte>>)
    requires bodies != [] && Sizes(bodies) && Pending(buf, chunks) == Framed(bodies[0]) + rest
    ensures var frame, packet := Framed(bodies[0]), DecodeBody(site.zlib, t, bodies[0]);
            var run, k := ServeRun(site, t, c, seen, buf, chunks, ending), Whole(bodies, 0, |buf|, chunks);
            if k == 0 || packet.None? then run.how == Left && run.conn == c
            else
              var Reply(verdict, c') := OnPacket(site, t, c, packet.value, frame);
              var seen' := seen + [Arrival(packet.value, frame)];
              && Pending(buf', chunks') == rest && k == 1 + Whole(bodies[1..], 0, |buf'|, chunks')
              && run == match verdict
                        case Next => ServeRun(site, t, c', seen', buf', chunks', ending)
                        case Quit => End(Left, c', seen', chunks')
                        case Error => End(Errored, c', seen', chunks')
                        case HandOver => End(HandedOver(frame + buf'), c'.(history := c'.history + frame + buf'),
                                             seen', chunks')
  {
    hide ReadStep, Framed, DecodeBody, OnPacket, Pending, Whole;
    ReadsFirstFrame(site.zlib, t, bodies, rest, buf, chunks, ending);
    var r := ReadStep(site.zlib, t, buf, chunks, ending);
    buf', chunks' := r.buf, r.chunks;
  }

  /** The same for a small frame that decodes, which is read however it is cut. */
  lemma ServeNext(site: Site, t: I32, c: Conn, seen: seq<Arrival>, body: seq<Byte>, rest: seq<Byte>,
                  buf: seq<Byte>, chunks: seq<seq<Byte>>, ending: Ending)
    returns (buf': seq<Byte>, chunks': seq<seq<Byte>>)
    requires SmallBody(body) && DecodeBody(site.zlib, t, body).Some?
    requires Pending(buf, chunks) == Framed(body) + rest
    ensures Pending(buf', chunks') == rest
    ensures var arrival := Arrival(DecodeBody(site.zlib, t, body).value, Framed(body));
            var Reply(verdict, c') := OnPacket(site, t, c, arrival.packet, arrival.raw);
            ServeRun(site, t, c, seen, buf, chunks, ending) ==
            match verdict
            case Next => ServeRun(site, t, c', seen + [arrival], buf', chunks', ending)
            case Quit => End(Left, c', seen + [arrival], chunks')
            case Error => End(Errored, c', seen + [arrival], chunks')
            case HandOver => End(HandedOver(Framed(body) + buf'), c'.(history := c'.history + Framed(body) + buf'),
                                 seen + [arrival], chunks')
  {
    hide ServeRun, Framed, DecodeBody, OnPacket, Pending, Whole;
    SmallIsWhole([body], 0, |buf|, chunks);
    buf', chunks' := ServeStep(site, t, c, seen, [body], rest, buf, chunks, ending);
  }

  /** The client's opening: a handshake that asks for login, then a login start. */
  ghost predicate Opening(site: Site, t: I32, hello: seq<Byte>, login: seq<Byte>) {
    && (var p := DecodeBody(site.zlib, t, hello); p.Some? && IsLoginHello(site, Arrival(p.value, [])))
    && (var p := DecodeBody(site.zlib, t, login); p.Some? && p.value.id == SERVER_LOGIN_START)
  }

  /** The gates the login start faces: no lockout, no ban, and a name that can be read is on the whitelist. */
  predicate Admitted(site: Site, t: I32, login: seq<Byte>)
    requires DecodeBody(site.zlib, t, login).Some?
  {
    && !site.lockout && !site.banned
    && var name := site.decodeLogin(DecodeBody(site.zlib, t, login).value.data);
       name.Some? ==> site.whitelisted(name.value)
  }

  lemma HelloOpens(site: Site, t: I32, p: RawPacket, raw: seq<Byte>)
    requires IsLoginHello(site, Arrival(p, []))
    ensures OnPacket(site, t, FRESH, p, raw)
         == Reply(Next, FRESH.(state := Login, handshake := site.decodeHandshake(p.data), history := raw))
  {
    assert [] + raw == raw;
  }

  /** The frame a refused login gets: that of the first of lockout, ban and whitelist that keeps it out. */
  function Refusal(site: Site, t: I32): seq<Byte> {
    Frame(site.zlib, t, site.kick(if site.lockout then Lockout else if site.banned then Ban else Whitelist))
  }

  /** What a login start does to a connection that has sent and started nothing yet. */
  lemma LoginStartDecides(site: Site, t: I32, c: Conn, seen: seq<Arrival>, login: seq<Byte>, tail: seq<Byte>,
                          buf: seq<Byte>, chunks: seq<seq<Byte>>, ending: Ending)
    requires c.state == Login && c.starts == 0 && c.written == []
    requires Sizes([login]) && Pending(buf, chunks) == Framed(login) + tail
    requires var p := DecodeBody(site.zlib, t, login); p.Some? && p.value.id == SERVER_LOGIN_START
    ensures var end, readable := ServeRun(site, t, c, seen, buf, chunks, ending), Whole([login], 0, |buf|, chunks) > 0;
            && (end.how.HandedOver? <==> readable && Admitted(site, t, login))
            && (end.how.HandedOver? ==>
                  && |end.seen| == |seen| + 1
                  && end.how.queue + Flat(end.chunks) == Framed(login) + tail
                  && Framed(login) <= end.how.queue)
            && (!end.how.HandedOver? ==> end.conn.starts == 0)
            && (readable && !end.how.HandedOver? ==>
                  && end.conn.written == (if site.writes(0) then [Refusal(site, t)] else [])
                  && end.how == (if site.writes(0) then Left else Errored))
  {
    hide ReadStep, Framed, DecodeBody, Frame, ServeRun, Whole;
    var buf', rest' := ServeStep(site, t, c, seen, [login], tail, buf, chunks, ending);
    Associate(Framed(login), buf', Flat(rest'));
  }

  /**
   The hand-over is transparent, and exactly when it happens: a client that sends a login handshake, a login start and
   any tail is handed over iff the gates admit it and no read ended inside one of the two length prefixes after its
   second byte, and then nothing is lost or duplicated. Otherwise the server is not started, and a client that was
   read but not admitted is sent the disconnect packet and nothing else.
   */
  lemma LoginIsHandedOver(site: Site, t: I32, hello: seq<Byte>, login: seq<Byte>, tail: seq<Byte>,
                          chunks: seq<seq<Byte>>, ending: Ending)
    requires Sizes([hello, login]) && Opening(site, t, hello, login)
    requires Flat(chunks) == Framed(hello) + (Framed(login) + tail)
    ensures var end, readable := ServeRun(site, t, FRESH, [], [], chunks, ending), Uncut([hello, login], 0, 0, chunks);
            && (end.how.HandedOver? <==> readable && Admitted(site, t, login))
            && (end.how.HandedOver? ==>
                  && end.conn.history + Flat(end.chunks) == Flat(chunks)
                  && end.how.queue + Flat(end.chunks) == Framed(login) + tail
                  && Framed(login) <= end.how.queue)
            && (!end.how.HandedOver? ==> end.conn.starts == 0)
            && (readable && !end.how.HandedOver? ==>
                  && end.conn.written == (if site.writes(0) then [Refusal(site, t)] else [])
                  && end.how == (if site.writes(0) then Left else Errored))
  {
    hide ReadStep, Framed, DecodeBody, Frame, ServeRun, Whole, Uncut;
    WholeIffUncut([hello, login], 0, 0, chunks);
    var buf, rest := ServeStep(site, t, FRESH, [], [hello, login], Framed(login) + tail, [], chunks, ending);
    var p := DecodeBody(site.zlib, t, hello).value;
    HelloOpens(site, t, p, Framed(hello));
    if Whole([hello, login], 0, 0, chunks) > 0 {
      assert [hello, login][1..] == [login];
      var c, seen := OnPacket(site, t, FRESH, p, Framed(hello)).conn, [] + [Arrival(p, Framed(hello))];
      LoginStartDecides(site, t, c, seen, login, tail, buf, rest, ending);
      CompleteIffSecond(site, t, chunks, ending);
    }
  }

  // ----- exactly when the relay is complete -----

  lemma {:induction false} SeenGrows(site: Site, t: I32, c: Conn, seen: seq<Arrival>, buf: seq<Byte>,
                                     chunks: seq<seq<Byte>>, ending: Ending)
    ensures var end := ServeRun(site, t, c, seen, buf, chunks, ending);
            end.how.HandedOver? ==> |end.seen| > |seen|
    decreases |Pending(buf, chunks)|
  {
    hide ReadStep, Pending, OnPacket;
    var r := ReadStep(site.zlib, t, buf, chunks, ending);
    ReadConserves(site.zlib, t, buf, chunks, ending);
    if r.outcome.Packet? {
      var p, raw := r.outcome.packet, r.outcome.raw;
      var reply := OnPacket(site, t, c, p, raw);
      if reply.verdict == Next {
        SeenGrows(site, t, reply.conn, seen + [Arrival(p, raw)], r.buf, r.chunks, ending);
      }
    }
  }

  /** The second of two frames hands the client over only if the two are an opening, and then does not read on. */
  lemma SecondHandsOver(site: Site, t: I32, p0: RawPacket, raw0: seq<Byte>, p1: RawPacket, raw1: seq<Byte>)
    ensures OnPacket(site, t, FRESH, p0, raw0).verdict != HandOver
    ensures OnPacket(site, t, FRESH, p0, raw0).verdict == Next ==>
              var opens := IsLoginHello(site, Arrival(p0, [])) && p1.id == SERVER_LOGIN_START;
              var reply := OnPacket(site, t, OnPacket(site, t, FRESH, p0, raw0).conn, p1, raw1);
              (reply.verdict == HandOver ==> opens) && (opens ==> reply.verdict != Next)
    ensures OnPacket(site, t, FRESH, p0, raw0).verdict != Next ==> !IsLoginHello(site, Arrival(p0, []))
  {
    hide Frame;
    var c := OnPacket(site, t, FRESH, p0, raw0).conn;
    if c.state == Login {
      StateIds(Login, site.decodeHandshake(p0.data).value.nextState);
    }
  }

  /**
   Exactly when nothing the client sent is lost: a client that is handed over has all its bytes relayed (the history,
   then the rest of the stream) iff its first two frames are its opening. Frames before the login handshake, or between
   it and the login start, are dropped.
   */
  lemma RelayIsCompleteIff(site: Site, t: I32, first: seq<Byte>, second: seq<Byte>, rest: seq<Byte>,
                           chunks: seq<seq<Byte>>, ending: Ending)
    requires Sizes([first, second])
    requires Flat(chunks) == Framed(first) + (Framed(second) + rest)
    ensures var end := ServeRun(site, t, FRESH, [], [], chunks, ending);
            end.how.HandedOver? ==>
              (end.conn.history + Flat(end.chunks) == Flat(chunks) <==> Opening(site, t, first, second))
  {
    hide ReadStep, Framed, DecodeBody, OnPacket, ServeRun, Whole;
    CompleteIffSecond(site, t, chunks, ending);
    assert Pending([], chunks) == Framed(first) + (Framed(second) + rest);
    var buf, more := ServeStep(site, t, FRESH, [], [first], Framed(second) + rest, [], chunks, ending);
    if Whole([first], 0, 0, chunks) > 0 && DecodeBody(site.zlib, t, first).Some? {
      var p0 := DecodeBody(site.zlib, t, first).value;
      SecondHandsOver(site, t, p0, Framed(first), p0, []);
      if OnPacket(site, t, FRESH, p0, Framed(first)).verdict == Next {
        SecondDecides(site, t, p0, Framed(first), second, rest, buf, more, ending);
      }
    }
  }

  /** After a first frame that was read on from, a hand-over is at the second packet iff the two are an opening. */
  lemma SecondDecides(site: Site, t: I32, p0: RawPacket, raw: seq<Byte>, second: seq<Byte>, rest: seq<Byte>,
                      buf: seq<Byte>, chunks: seq<seq<Byte>>, ending: Ending)
    requires Sizes([second]) && Pending(buf, chunks) == Framed(second) + rest
    requires OnPacket(site, t, FRESH, p0, raw).verdict == Next
    ensures var end := ServeRun(site, t, OnPacket(site, t, FRESH, p0, raw).conn, [] + [Arrival(p0, raw)],
                                buf, chunks, ending);
            end.how.HandedOver? ==>
              (|end.seen| == 2 <==>
                 IsLoginHello(site, Arrival(p0, []))
                 && var p := DecodeBody(site.zlib, t, second); p.Some? && p.value.id == SERVER_LOGIN_START)
  {
    hide ReadStep, Framed, DecodeBody, OnPacket, ServeRun, Pending, Whole;
    var c, seen := OnPacket(site, t, FRESH, p0, raw).conn, [] + [Arrival(p0, raw)];
    var buf', more' := ServeStep(site, t, c, seen, [second], rest, buf, chunks, ending);
    if Whole([second], 0, |buf|, chunks) > 0 && DecodeBody(site.zlib, t, second).Some? {
      var p1 := DecodeBody(site.zlib, t, second).value;
      SecondHandsOver(site, t, p0, raw, p1, Framed(second));
      var reply := OnPacket(site, t, c, p1, Framed(second));
      SeenGrows(site, t, reply.conn, seen + [Arrival(p1, Framed(second))], buf', more', ending);
    }
  }

  /** The packets the loop passes over, by state: no handshake, no status request or ping, no login start. */
  predicate Ignored(state: ClientState, id: Byte) {
    match state
    case Handshake => id != 0
    case Status => id != 0 && id != 1
    case Login => id != 0
    case Play => true
  }

  ghost predicate AllIgnored(site: Site, t: I32, state: ClientState, bodies: seq<seq<Byte>>) {
    forall b :: b in bodies ==>
      SmallBody(b) && var p := DecodeBody(site.zlib, t, b); p.Some? && Ignored(state, p.value.id)
  }

  lemma {:induction false} PassesOver(site: Site, t: I32, c: Conn, seen: seq<Arrival>, bodies: seq<seq<Byte>>,
                                      rest: seq<Byte>, buf: seq<Byte>, chunks: seq<seq<Byte>>, ending: Ending)
    returns (seen': seq<Arrival>, buf': seq<Byte>, chunks': seq<seq<Byte>>)
    requires AllIgnored(site, t, c.state, bodies) && Pending(buf, chunks) == FramedAll(bodies) + rest
    ensures Pending(buf', chunks') == rest
    ensures ServeRun(site, t, c, seen, buf, chunks, ending) == ServeRun(site, t, c, seen', buf', chunks', ending)
    decreases |bodies|
  {
    hide ServeRun, Framed, DecodeBody, Pending;
    if bodies == [] {
      assert [] + rest == rest;
      return seen, buf, chunks;
    }
    assert bodies[0] in bodies;
    Associate(Framed(bodies[0]), FramedAll(bodies[1..]), rest);
    buf', chunks' := ServeNext(site, t, c, seen, bodies[0], FramedAll(bodies[1..]) + rest, buf, chunks, ending);
    seen' := seen + [Arrival(DecodeBody(site.zlib, t, bodies[0]).value, Framed(bodies[0]))];
    seen', buf', chunks' := PassesOver(site, t, c, seen', bodies[1..], rest, buf', chunks', ending);
  }

  /**
   A client that sends other packets before its login handshake, or between it and its login start, is handed over all
   the same, with exactly those frames missing.
   */
  lemma StrayFramesAreDropped(site: Site, t: I32, before: seq<seq<Byte>>, hello: seq<Byte>, between: seq<seq<Byte>>,
                              login: seq<Byte>, tail: seq<Byte>, chunks: seq<seq<Byte>>, ending: Ending)
    requires AllIgnored(site, t, Handshake, before) && AllIgnored(site, t, Login, between)
    requires SmallBody(hello) && SmallBody(login) && Opening(site, t, hello, login) && Admitted(site, t, login)
    requires Flat(chunks)
          == FramedAll(before) + (Framed(hello) + (FramedAll(between) + (Framed(login) + tail)))
    ensures var end := ServeRun(site, t, FRESH, [], [], chunks, ending);
            && end.how.HandedOver?
            && end.conn.history + Flat(end.chunks) == Framed(hello) + (Framed(login) + tail)
            && (end.conn.history + Flat(end.chunks) == Flat(chunks) <==> before == [] && between == [])
  {
    hide ReadStep, Framed, DecodeBody, Frame, ServeRun, FramedAll, AllIgnored;
    var afterHello := FramedAll(between) + (Framed(login) + tail);
    assert [] + Flat(chunks) == Flat(chunks);
    var seen, buf, rest := PassesOver(site, t, FRESH, [], before, Framed(hello) + afterHello, [], chunks, ending);
    var p := DecodeBody(site.zlib, t, hello).value;
    var buf1, rest1 := ServeNext(site, t, FRESH, seen, hello, afterHello, buf, rest, ending);
    HelloOpens(site, t, p, Framed(hello));
    var c := OnPacket(site, t, FRESH, p, Framed(hello)).conn;
    var seen1 := seen + [Arrival(p, Framed(hello))];
    var seen2, buf2, rest2 := PassesOver(site, t, c, seen1, between, Framed(login) + tail, buf1, rest1, ending);
    var buf3, rest3 := ServeNext(site, t, c, seen2, login, tail, buf2, rest2, ending);
    JoinsUp(Framed(hello), Framed(login), buf3, Flat(rest3));
    SomeBytes(before);
    SomeBytes(between);
    MissingIffAny(FramedAll(before), Framed(hello), FramedAll(between), Framed(login) + tail);
  }

  lemma JoinsUp(hello: seq<Byte>, login: seq<Byte>, buf: seq<Byte>, rest: seq<Byte>)
    ensures hello + login + buf + rest == hello + (login + (buf + rest))
  {
    Associate(hello + login, buf, rest);
    Associate(hello, login, buf + rest);
  }

  lemma {:induction false} SomeBytes(bodies: seq<seq<Byte>>)
    ensures FramedAll(bodies) == [] <==> bodies == []
  {
    if bodies != [] {
      assert |Framed(bodies[0])| > 0;
    }
  }

  lemma MissingIffAny(a: seq<Byte>, b: seq<Byte>, c: seq<Byte>, d: seq<Byte>)
    ensures b + d == a + (b + (c + d)) <==> a == [] && c == []
  {
    assert |a + (b + (c + d))| == |a| + |b| + |c| + |d|;
  }

  /** A handshake that does not decode, or that asks for a state there is not, ends the connection with no answer. */
  lemma BadHandshakeCloses(site: Site, t: I32, before: seq<seq<Byte>>, hello: seq<Byte>, rest: seq<Byte>,
                           chunks: seq<seq<Byte>>, ending: Ending)
    requires AllIgnored(site, t, Handshake, before) && SmallBody(hello)
    requires Flat(chunks) == FramedAll(before) + (Framed(hello) + rest)
    requires var p := DecodeBody(site.zlib, t, hello);
             p.Some? && p.value.id == 0
             && var h := site.decodeHandshake(p.value.data); h.Some? ==> !(0 <= h.value.nextState <= 2)
    ensures var end := ServeRun(site, t, FRESH, [], [], chunks, ending);
            end.how == Left && end.conn == FRESH
  {
    hide ServeRun, Framed, DecodeBody, FramedAll, AllIgnored;
    assert [] + Flat(chunks) == Flat(chunks);
    var seen, buf, more := PassesOver(site, t, FRESH, [], before, Framed(hello) + rest, [], chunks, ending);
    var buf', more' := ServeNext(site, t, FRESH, seen, hello, rest, buf, more, ending);
  }

  /** Such a client: a packet with id 1, then an opening, in one read, at a site that admits everyone. */
  lemma RelayCanBeIncomplete(z: Zlib) returns (site: Site, chunks: seq<seq<Byte>>)
    ensures var end := ServeRun(site, -1, FRESH, [], [], chunks, Eof);
            end.how.HandedOver? && end.conn.history + Flat(end.chunks) != Flat(chunks)
  {
    hide ServeRun, Framed, Plain;
    var stray, zero := RawPacket(1, []), RawPacket(0, []);
    site := Site(z, _ => Some(Hello(763, 2)), _ => None, false, false, _ => true, _ => [], _ => zero, _ => true);
    PlainIsSmall(z, stray);
    PlainIsSmall(z, zero);
    var tail: seq<Byte> := [];
    var stream := Framed(Plain(stray)) + (Framed(Plain(zero)) + (Framed(Plain(zero)) + tail));
    chunks := [stream] + [];
    FlatCons(stream, []);
    OneFramed(Plain(stray));
    assert FramedAll([]) + (Framed(Plain(zero)) + tail) == Framed(Plain(zero)) + tail;
    StrayFramesAreDropped(site, -1, [Plain(stray)], Plain(zero), [], Plain(zero), tail, chunks, Eof);
  }

  lemma PlainIsSmall(z: Zlib, p: RawPacket)
    requires p.data == []
    ensures SmallBody(Plain(p)) && DecodeBody(z, -1, Plain(p)) == Some(p)
  {
    VarInt.RoundTrip(p.id, []);
    IdAndDataInvertsPlain(p);
  }

  lemma OneFramed(body: seq<Byte>)
    ensures FramedAll([body]) == Framed(body)
  {
    assert [body][1..] == [];
    assert Framed(body) + [] == Framed(body);
  }

  /** What a status client sends: a handshake that asks for status, a status request, a ping. */
  ghost predicate StatusVisit(site: Site, t: I32, hello: seq<Byte>, request: seq<Byte>, ping: seq<Byte>) {
    && SmallBody(hello) && SmallBody(request) && SmallBody(ping)
    && (var p := DecodeBody(site.zlib, t, hello);
        p.Some? && p.value.id == SERVER_HANDSHAKE
        && var h := site.decodeHandshake(p.value.data); h.Some? && h.value.nextState == 1)
    && (var p := DecodeBody(site.zlib, t, request); p.Some? && p.value.id == SERVER_STATUS)
    && (var p := DecodeBody(site.zlib, t, ping); p.Some? && p.value.id == SERVER_PING)
  }

  lemma ServeEnds(site: Site, t: I32, c: Conn, seen: seq<Arrival>, buf: seq<Byte>, chunks: seq<seq<Byte>>,
                  ending: Ending)
    requires Pending(buf, chunks) == []
    ensures var end := ServeRun(site, t, c, seen, buf, chunks, ending);
            end.how == Left && end.conn == c && end.seen == seen
  {
    hide ReadStep, Pending;
    ReadsTheEnd(site.zlib, t, buf, chunks, ending);
  }

  /**
   What a client in state Status gets for a list of frames, of which the first answer is its `n`-th: for each status
   request (0) the status, for each ping (1) its own frame, for others nothing, until a write fails.
   */
  function Answers(site: Site, t: I32, n: nat, bodies: seq<seq<Byte>>): (seq<seq<Byte>>, bool)
    requires forall b :: b in bodies ==> DecodeBody(site.zlib, t, b).Some?
    decreases |bodies|
  {
    if bodies == [] then ([], true)
    else
      assert bodies[0] in bodies;
      var id := DecodeBody(site.zlib, t, bodies[0]).value.id;
      if id > 1 then Answers(site, t, n, bodies[1..])
      else if !site.writes(n) then ([], false)
      else
        var answer := if id == 0 then Frame(site.zlib, t, RawPacket(0, site.statusData(n))) else Framed(bodies[0]);
        var (more, allSent) := Answers(site, t, n + 1, bodies[1..]);
        ([answer] + more, allSent)
  }

  /** A client in state Status gets exactly these answers, in order, and nothing is started for it. */
  lemma {:induction false} StatusConversation(site: Site, t: I32, c: Conn, seen: seq<Arrival>, bodies: seq<seq<Byte>>,
                                              buf: seq<Byte>, chunks: seq<seq<Byte>>, ending: Ending)
    requires c.state == ClientState.Status
    requires forall b :: b in bodies ==> SmallBody(b) && DecodeBody(site.zlib, t, b).Some?
    requires Pending(buf, chunks) == FramedAll(bodies)
    ensures var end := ServeRun(site, t, c, seen, buf, chunks, ending);
            var (sent, allSent) := Answers(site, t, |c.written|, bodies);
            end.conn == c.(written := c.written + sent) && end.how == if allSent then Left else Errored
    decreases |bodies|
  {
    hide ServeRun, Framed, DecodeBody, Pending, Frame;
    if bodies == [] {
      assert c.written + [] == c.written;
      ServeEnds(site, t, c, seen, buf, chunks, ending);
    } else {
      assert bodies[0] in bodies;
      var p := DecodeBody(site.zlib, t, bodies[0]).value;
      var buf', chunks' := ServeNext(site, t, c, seen, bodies[0], FramedAll(bodies[1..]), buf, chunks, ending);
      var reply := OnPacket(site, t, c, p, Framed(bodies[0]));
      if reply.verdict == Next {
        var seen' := seen + [Arrival(p, Framed(bodies[0]))];
        StatusConversation(site, t, reply.conn, seen', bodies[1..], buf', chunks', ending);
      }
    }
  }

  /** A status client is sent the status and then its own ping, and nothing is started for it. */
  lemma StatusVisitIsAnswered(site: Site, t: I32, hello: seq<Byte>, request: seq<Byte>, ping: seq<Byte>,
                              chunks: seq<seq<Byte>>, ending: Ending)
    requires StatusVisit(site, t, hello, request, ping) && site.writes(0) && site.writes(1)
    requires Flat(chunks) == Framed(hello) + (Framed(request) + Framed(ping))
    ensures var end := ServeRun(site, t, FRESH, [], [], chunks, ending);
            && end.how == Left && end.conn.starts == 0 && end.conn.history == []
            && end.conn.written == [Frame(site.zlib, t, RawPacket(0, site.statusData(0))), Framed(ping)]
  {
    hide ServeRun, Framed, DecodeBody, Frame, Pending;
    var p := DecodeBody(site.zlib, t, hello).value;
    NothingBuffered(chunks);
    var buf, rest := ServeNext(site, t, FRESH, [], hello, Framed(request) + Framed(ping), [], chunks, ending);
    StatusOpens(site, t, p, Framed(hello));
    var c, seen := OnPacket(site, t, FRESH, p, Framed(hello)).conn, [] + [Arrival(p, Framed(hello))];
    OneFramed(ping);
    assert [request, ping][1..] == [ping];
    assert FramedAll([request, ping]) == Framed(request) + FramedAll([ping]);
    StatusConversation(site, t, c, seen, [request, ping], buf, rest, ending);
    TwoAnswers(site, t, request, ping);
  }

  lemma NothingBuffered(chunks: seq<seq<Byte>>)
    ensures Pending([], chunks) == Flat(chunks)
  {
  }

  lemma StatusOpens(site: Site, t: I32, p: RawPacket, raw: seq<Byte>)
    requires p.id == SERVER_HANDSHAKE
    requires var h := site.decodeHandshake(p.data); h.Some? && h.value.nextState == 1
    ensures OnPacket(site, t, FRESH, p, raw)
         == Reply(Next, FRESH.(state := ClientState.Status, handshake := site.decodeHandshake(p.data)))
  {
  }

  lemma TwoAnswers(site: Site, t: I32, request: seq<Byte>, ping: seq<Byte>)
    requires site.writes(0) && site.writes(1)
    requires var p := DecodeBody(site.zlib, t, request); p.Some? && p.value.id == SERVER_STATUS
    requires var p := DecodeBody(site.zlib, t, ping); p.Some? && p.value.id == SERVER_PING
    ensures Answers(site, t, 0, [request, ping])
         == ([Frame(site.zlib, t, RawPacket(0, site.statusData(0))), Framed(ping)], true)
  {
    hide DecodeBody, Frame, Framed;
    var answer := Frame(site.zlib, t, RawPacket(0, site.statusData(0)));
    assert [ping][1..] == [];
    assert Answers(site, t, 2, []) == ([], true);
    assert [Framed(ping)] + [] == [Framed(ping)];
    assert Answers(site, t, 1, [ping]).0 == [Framed(ping)] && Answers(site, t, 1, [ping]).1;
    assert [request, ping][1..] == [ping];
    assert [answer] + [Framed(ping)] == [answer, Framed(ping)];
  }
}
