/**
 The join methods (src/join/mod.rs and its submodules) that take over a client waiting for the server,
 and the proxy that relays it (src/proxy.rs).
 */
module Join {
  import opened Base
  import opened Cuts
  import opened Packet
  import Lobby
  import Server
  import Status
  import VarInt

  datatype Method = Kick | Hold | Forward | LobbyWorld

  /** How serving the lobby world ends: in a relay, with an error, or at the end of a stream with no login start. */
  datatype LobbyEnd =
    | LobbyDone(written: seq<seq<Byte>>)
    | LobbyFailed(loggedIn: bool, written: seq<seq<Byte>>)
    | LobbyUnread

  /** What one method finds and meets when its turn comes. */
  datatype Turn = Turn(
    state: Server.State,     // the server state it loads
    online: bool,            // hold: the server came online in time
    kickStarting: seq<Byte>, // the disconnect frames
    kickStopping: seq<Byte>,
    writeOk: bool,
    closeOk: bool,
    probed: bool,            // lobby: the probe has finished
    lobby: LobbyEnd)         // lobby: how serving the lobby world ends

  datatype Target = RealServer | ForwardAddress

  /** How the owned stream left our hands. */
  datatype Fate = Shut | Relayed(target: Target, queue: seq<Byte>) | LeftInLobby | Dropped

  /** The client's cells and stream as the chain of methods sees them. */
  datatype Guest = Guest(state: ClientState, written: seq<seq<Byte>>, fates: seq<Fate>)

  datatype Result = Consumed | Continue | Error

  /** Everything about the connection that does not change along the chain. */
  datatype Case = Case(forge: bool, username: Option<string>, history: seq<Byte>, queue: seq<Byte>)

  function Ends(g: Guest, fate: Fate): Guest {
    g.(fates := g.fates + [fate])
  }

  /** Closing the stream, or failing to and dropping it. */
  function Closes(g: Guest, ok: bool): (Result, Guest) {
    if ok then (Consumed, Ends(g, Shut)) else (Error, Ends(g, Dropped))
  }

  function KickFrame(turn: Turn): seq<Byte> {
    match turn.state
    case Stopping => turn.kickStopping
    case _ => turn.kickStarting
  }

  function TakeTurn(c: Case, m: Method, turn: Turn, g: Guest): (Result, Guest) {
    match m
    case Kick =>
      if !(g.state == Login || g.state == Play) || !turn.writeOk then (Error, Ends(g, Dropped))
      else Closes(g.(written := g.written + [KickFrame(turn)]), turn.closeOk)
    case Hold =>
      if turn.state != Server.Starting then (Continue, g)
      else if turn.online then (Consumed, Ends(g, Relayed(RealServer, c.history)))
      else (Continue, g)
    case Forward => (Consumed, Ends(g, Relayed(ForwardAddress, c.history)))
    case LobbyWorld =>
      if c.forge && !turn.probed then (Continue, g)
      else if g.state != Login || c.username.None? then (Error, Ends(g, Dropped))
      else
        match turn.lobby
        case LobbyDone(sent) => (Consumed, Ends(g.(state := Play, written := g.written + sent), LeftInLobby))
        case LobbyFailed(loggedIn, sent) =>
          (Error, Ends(g.(state := if loggedIn then Play else Login, written := g.written + sent), Dropped))
        case LobbyUnread => Closes(g, turn.closeOk)
  }

  /** `occupy` from the `i`-th method on: whether it returns Ok, and the guest it leaves. */
  function OccupyFrom(c: Case, methods: seq<Method>, turns: nat -> Turn, i: nat, g: Guest): (bool, Guest)
    requires i <= |methods|
    decreases |methods| - i
  {
    if i == |methods| then
      var (r, g') := Closes(g, turns(i).closeOk);
      (r == Consumed, g')
    else
      var (r, g') := TakeTurn(c, methods[i], turns(i), g);
      if r == Continue then OccupyFrom(c, methods, turns, i + 1, g') else (r == Consumed, g')
  }

  // ----- the chain itself -----

  class Inbound {
    const client: Client
    var written: seq<seq<Byte>>
    var fates: seq<Fate>

    constructor (client: Client)
      ensures this.client == client && written == [] && fates == []
    {
      this.client := client;
      written, fates := [], [];
    }

    ghost function Abs(): Guest
      reads this, client
    {
      Guest(client.state, written, fates)
    }

    method Close(ok: bool) returns (r: Result)
      modifies this
      ensures (r, Abs()) == Closes(old(Abs()), ok)
    {
      if !ok {
        fates := fates + [Dropped];
        return Error;
      }
      fates := fates + [Shut];
      return Consumed;
    }

    method KickClient(turn: Turn, ghost c: Case) returns (r: Result)
      modifies this
      ensures (r, Abs()) == TakeTurn(c, Kick, turn, old(Abs()))
    {
      if (client.state != Login && client.state != Play) || !turn.writeOk {
        fates := fates + [Dropped];
        return Error;
      }
      match turn.state {
        case Starting | Stopped | Started => written := written + [turn.kickStarting];
        case Stopping => written := written + [turn.kickStopping];
      }
      r := Close(turn.closeOk);
    }

    method HoldClient(turn: Turn, c: Case) returns (r: Result)
      modifies this
      ensures (r, Abs()) == TakeTurn(c, Hold, turn, old(Abs()))
    {
      if turn.state != Server.Starting { return Continue; }
      if turn.online {
        fates := fates + [Relayed(RealServer, c.history)];
        return Consumed;
      }
      return Continue;
    }

    method ServeLobby(turn: Turn, c: Case) returns (r: Result)
      modifies this, client
      ensures (r, Abs()) == TakeTurn(c, LobbyWorld, turn, old(Abs()))
    {
      if c.forge && !turn.probed { return Continue; }
      if client.state != Login || c.username.None? {
        fates := fates + [Dropped];
        return Error;
      }
      if turn.lobby.LobbyUnread? {
        r := Close(turn.closeOk);
        return;
      }
      if turn.lobby.LobbyDone? || turn.lobby.loggedIn {
        client.SetState(Play);
      }
      written := written + turn.lobby.written;
      if turn.lobby.LobbyFailed? {
        fates := fates + [Dropped];
        return Error;
      }
      fates := fates + [LeftInLobby];
      return Consumed;
    }

    method Occupy(c: Case, methods: seq<Method>, turns: nat -> Turn) returns (ok: bool)
      requires client.state == Login
      modifies this, client
      ensures (ok, Abs()) == OccupyFrom(c, methods, turns, 0, old(Abs()))
    {
      for i := 0 to |methods|
        invariant OccupyFrom(c, methods, turns, i, Abs()) == OccupyFrom(c, methods, turns, 0, old(Abs()))
      {
        var r;
        match methods[i] {
          case Kick => r := KickClient(turns(i), c);
          case Hold => r := HoldClient(turns(i), c);
          case Forward =>
            fates := fates + [Relayed(ForwardAddress, c.history)];
            r := Consumed;
          case LobbyWorld => r := ServeLobby(turns(i), c);
        }
        if r != Continue {
          return r == Consumed;
        }
      }
      var r := Close(turns(|methods|).closeOk);
      return r == Consumed;
    }
  }

  // ----- laws of the chain -----

  /** Whether a method passes the client on; this does not depend on the client. */
  predicate Passes(c: Case, m: Method, turn: Turn) {
    match m
    case Hold => turn.state != Server.Starting || !turn.online
    case LobbyWorld => c.forge && !turn.probed
    case _ => false
  }

  /** A method that passes a client on has not touched it, and only those methods leave its stream alone. */
  lemma PassingLeavesNoTrace(c: Case, m: Method, turn: Turn, g: Guest)
    ensures var (r, g') := TakeTurn(c, m, turn, g);
            && (r == Continue <==> Passes(c, m, turn))
            && (r == Continue ==> g' == g)
            && (r != Continue ==> |g'.fates| == |g.fates| + 1 && g.fates <= g'.fates
                                  && (r == Error <==> g'.fates[|g.fates|] == Dropped))
  {
  }

  /** The chain is decided by its first method that does not pass, acting on the client as it arrived. */
  lemma {:induction false} FirstTakerDecides(c: Case, methods: seq<Method>, turns: nat -> Turn,
                                             i: nat, k: nat, g: Guest)
    requires i <= k <= |methods|
    requires forall j :: i <= j < k ==> Passes(c, methods[j], turns(j))
    requires k < |methods| ==> !Passes(c, methods[k], turns(k))
    ensures OccupyFrom(c, methods, turns, i, g) ==
            var (r, g') := if k < |methods| then TakeTurn(c, methods[k], turns(k), g) else Closes(g, turns(k).closeOk);
            (r == Consumed, g')
    decreases k - i
  {
    hide TakeTurn;
    if i < |methods| {
      PassingLeavesNoTrace(c, methods[i], turns(i), g);
      if i < k {
        FirstTakerDecides(c, methods, turns, i + 1, k, g);
      }
    }
  }

  function FirstTaker(c: Case, methods: seq<Method>, turns: nat -> Turn, i: nat): (k: nat)
    requires i <= |methods|
    ensures i <= k <= |methods|
    ensures forall j :: i <= j < k ==> Passes(c, methods[j], turns(j))
    ensures k < |methods| ==> !Passes(c, methods[k], turns(k))
    decreases |methods| - i
  {
    if i == |methods| || !Passes(c, methods[i], turns(i)) then i else FirstTaker(c, methods, turns, i + 1)
  }

  /** For any list of methods the stream is disposed of exactly once, and never just dropped when Ok is returned. */
  lemma OccupyDisposesOnce(c: Case, methods: seq<Method>, turns: nat -> Turn, g: Guest)
    requires g.fates == []
    ensures var (ok, g') := OccupyFrom(c, methods, turns, 0, g);
            |g'.fates| == 1 && (ok <==> g'.fates[0] != Dropped)
  {
    var k := FirstTaker(c, methods, turns, 0);
    FirstTakerDecides(c, methods, turns, 0, k, g);
    if k < |methods| {
      PassingLeavesNoTrace(c, methods[k], turns(k), g);
    }
  }

  /** A client that kick is the first to take is sent one disconnect frame, by what the server is doing, and closed. */
  lemma KickedClientIsTold(c: Case, methods: seq<Method>, turns: nat -> Turn)
    requires var k := FirstTaker(c, methods, turns, 0); k < |methods| && methods[k] == Kick
    ensures var turn := turns(FirstTaker(c, methods, turns, 0));
            var (ok, g) := OccupyFrom(c, methods, turns, 0, Guest(Login, [], []));
            && g.state == Login
            && g.written == (if !turn.writeOk then []
                             else if turn.state == Server.Stopping then [turn.kickStopping] else [turn.kickStarting])
            && ok == (turn.writeOk && turn.closeOk)
            && g.fates == [if ok then Shut else Dropped]
  {
    FirstTakerDecides(c, methods, turns, 0, FirstTaker(c, methods, turns, 0), Guest(Login, [], []));
  }

  /** A client nobody takes is closed without a word. */
  lemma UntakenClientIsClosed(c: Case, methods: seq<Method>, turns: nat -> Turn)
    requires FirstTaker(c, methods, turns, 0) == |methods|
    ensures var (ok, g) := OccupyFrom(c, methods, turns, 0, Guest(Login, [], []));
            && g.state == Login && g.written == []
            && ok == turns(|methods|).closeOk
            && g.fates == [if ok then Shut else Dropped]
  {
    FirstTakerDecides(c, methods, turns, 0, |methods|, Guest(Login, [], []));
  }

  /**
   A client the lobby is the first to take stays in the lobby, in state Play, iff its name is known and the lobby gets
   to the end; one whose stream ends before its login start is closed in state Login; any other is dropped with an
   error.
   */
  lemma LobbyTakes(c: Case, methods: seq<Method>, turns: nat -> Turn)
    requires var k := FirstTaker(c, methods, turns, 0); k < |methods| && methods[k] == LobbyWorld
    ensures var turn := turns(FirstTaker(c, methods, turns, 0));
            var (ok, g) := OccupyFrom(c, methods, turns, 0, Guest(Login, [], []));
            && (g.fates == [LeftInLobby] <==> c.username.Some? && turn.lobby.LobbyDone?)
            && (g.fates == [Shut] <==> c.username.Some? && turn.lobby.LobbyUnread? && turn.closeOk)
            && (g.fates == [Dropped] <==> !ok)
            && (g.state == Play <==>
                  c.username.Some? && (turn.lobby.LobbyDone? || (turn.lobby.LobbyFailed? && turn.lobby.loggedIn)))
            && (c.username.None? ==> g.written == [])
  {
    FirstTakerDecides(c, methods, turns, 0, FirstTaker(c, methods, turns, 0), Guest(Login, [], []));
  }

  // ----- src/proxy.rs -----

  datatype ProxyHeader = NoHeader | Local | Proxy {
    function NotNone(notNone: bool): ProxyHeader {
      if notNone then this else NoHeader
    }
  }

  /** The encoded headers (library output). */
  datatype Headers = Headers(local: seq<Byte>, client: seq<Byte>) {
    function Bytes(h: ProxyHeader): seq<Byte> {
      match h
      case NoHeader => []
      case Local => local
      case Proxy => client
    }
  }

  /** `io::copy` of one direction: every read is written on, in order. */
  method Copy(from: Socket, to: Lobby.Writer)
    modifies from, to
    ensures from.chunks == [] && to.bytes == old(to.bytes) + Flat(old(from.chunks))
  {
    while from.chunks != []
      invariant to.bytes + Flat(from.chunks) == old(to.bytes) + Flat(old(from.chunks))
      decreases |from.chunks|
    {
      ghost var rest := from.chunks;
      var r := from.ReadBuf();
      Associate(to.bytes, r.bytes, Flat(from.chunks));
      to.WriteAll(r.bytes);
    }
  }

  method ProxyInboundOutboundWithQueue(inbound: Socket, toClient: Lobby.Writer,
                                       outbound: Socket, toServer: Lobby.Writer,
                                       inboundQueue: seq<Byte>, outboundQueue: seq<Byte>)
    requires inbound != outbound && toClient != toServer
    modifies inbound, toClient, outbound, toServer
    ensures toServer.bytes == old(toServer.bytes) + outboundQueue + Flat(old(inbound.chunks))
    ensures toClient.bytes == old(toClient.bytes) + inboundQueue + Flat(old(outbound.chunks))
  {
    if inboundQueue != [] {
      toClient.WriteAll(inboundQueue);
    }
    if outboundQueue != [] {
      toServer.WriteAll(outboundQueue);
    }
    Copy(inbound, toServer);
    Copy(outbound, toClient);
  }

  /** What reaches the target of a relay: header, queue, then the rest of the client's stream. */
  function Delivered(headers: Headers, h: ProxyHeader, queue: seq<Byte>, chunks: seq<seq<Byte>>): seq<Byte> {
    headers.Bytes(h) + queue + Flat(chunks)
  }

  method ProxyWithQueue(headers: Headers, h: ProxyHeader, inbound: Socket, toClient: Lobby.Writer,
                        outbound: Socket, queue: seq<Byte>) returns (toServer: Lobby.Writer)
    requires inbound != outbound
    modifies inbound, toClient, outbound
    ensures fresh(toServer)
    ensures toServer.bytes == Delivered(headers, h, queue, old(inbound.chunks))
    ensures toClient.bytes == old(toClient.bytes) + Flat(old(outbound.chunks))
  {
    toServer := new Lobby.Writer();
    match h {
      case NoHeader =>
      case Local => toServer.WriteAll(headers.local);
      case Proxy => toServer.WriteAll(headers.client);
    }
    ProxyInboundOutboundWithQueue(inbound, toClient, outbound, toServer, [], queue);
  }

  // ----- end to end -----

  /** A relaying method that is the first to take the client relays exactly the history. */
  lemma RelayingTakerRelays(c: Case, methods: seq<Method>, turns: nat -> Turn, state: ClientState)
    requires var k := FirstTaker(c, methods, turns, 0); k < |methods| && (methods[k] == Hold || methods[k] == Forward)
    ensures var (ok, g) := OccupyFrom(c, methods, turns, 0, Guest(state, [], []));
            var target := if methods[FirstTaker(c, methods, turns, 0)] == Hold then RealServer else ForwardAddress;
            ok && g == Guest(state, [], [Relayed(target, c.history)])
  {
    FirstTakerDecides(c, methods, turns, 0, FirstTaker(c, methods, turns, 0), Guest(state, [], []));
  }

  /**
   End-to-end transparency: whichever relaying method takes the client, after any number of methods
   that passed it on, the target receives the header if one is configured and then the client's bytes, in order, none
   lost and none repeated, and the client was sent nothing before.
   */
  lemma EndToEnd(site: Status.Site, t: I32, hello: seq<Byte>, login: seq<Byte>, tail: seq<Byte>,
                 chunks: seq<seq<Byte>>, ending: Ending, forge: bool, methods: seq<Method>, turns: nat -> Turn,
                 headers: Headers, sendProxyV2: bool)
    requires Status.Opening(site, t, hello, login) && Status.Admitted(site, t, login)
    requires Sizes([hello, login]) && Uncut([hello, login], 0, 0, chunks)
    requires Flat(chunks) == Framed(hello) + (Framed(login) + tail)
    ensures var end := Status.ServeRun(site, t, Status.FRESH, [], [], chunks, ending);
            && end.how.HandedOver?
            && var c := Case(forge, end.conn.username, end.conn.history, end.how.queue);
               var k := FirstTaker(c, methods, turns, 0);
               (k < |methods| && (methods[k] == Hold || methods[k] == Forward) ==>
                  var (ok, g) := OccupyFrom(c, methods, turns, 0, Guest(end.conn.state, [], []));
                  && ok && g.written == [] && |g.fates| == 1 && g.fates[0].Relayed?
                  && Delivered(headers, Proxy.NotNone(sendProxyV2), g.fates[0].queue, end.chunks)
                     == (if sendProxyV2 then headers.client else []) + Flat(chunks))
  {
    hide Status.ServeRun, OccupyFrom, Flat, Framed, DecodeBody, FirstTaker, Uncut;
    var end := Status.ServeRun(site, t, Status.FRESH, [], [], chunks, ending);
    Status.LoginIsHandedOver(site, t, hello, login, tail, chunks, ending);
    var c := Case(forge, end.conn.username, end.conn.history, end.how.queue);
    var k := FirstTaker(c, methods, turns, 0);
    if k < |methods| && (methods[k] == Hold || methods[k] == Forward) {
      RelayingTakerRelays(c, methods, turns, end.conn.state);
      Associate(headers.Bytes(Proxy.NotNone(sendProxyV2)), end.conn.history, Flat(end.chunks));
    }
  }

  /** The lobby, given the login queue and the rest of the stream, reads the client's login start first. */
  lemma LobbyReadsTheLogin(site: Status.Site, t: I32, hello: seq<Byte>, login: seq<Byte>, tail: seq<Byte>,
                           chunks: seq<seq<Byte>>, ending: Ending)
    requires Status.Opening(site, t, hello, login) && Status.Admitted(site, t, login)
    requires Sizes([hello, login]) && Uncut([hello, login], 0, 0, chunks)
    requires Flat(chunks) == Framed(hello) + (Framed(login) + tail)
    ensures var end := Status.ServeRun(site, t, Status.FRESH, [], [], chunks, ending);
            && end.how.HandedOver?
            && var r := ReadStep(site.zlib, t, end.how.queue, end.chunks, ending);
               && r.outcome == Packet(DecodeBody(site.zlib, t, login).value, Framed(login))
               && Pending(r.buf, r.chunks) == tail
  {
    hide Status.ServeRun, ReadStep, DecodeBody, Uncut, VarInt.Encode;
    var end := Status.ServeRun(site, t, Status.FRESH, [], [], chunks, ending);
    Status.LoginIsHandedOver(site, t, hello, login, tail, chunks, ending);
    ReadsOneFrame(site.zlib, t, login, tail, end.how.queue, end.chunks, ending);
  }
}
