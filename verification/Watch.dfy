/**
 Waiting for the server to come online (src/join/hold.rs and `wait_for_server` in src/lobby.rs).
 `state_receiver` clones a receiver that never advances, so every waiter starts at version 0 of the
 watch channel and is behind as soon as the state has ever changed.
 */
module Watch {
  import opened Base
  import opened Server

  // ----- the wait loop -----

  /** One pass of the loop: the version `changed` woke up on, and the version `borrow` then looked at. */
  datatype Look = Look(woken: nat, shown: nat)

  /** Each wake-up is on a version not seen before, each look on one at least as new. */
  predicate PossibleLooks(log: seq<State>, looks: seq<Look>) {
    && (forall k :: 0 <= k < |looks| ==> looks[k].woken <= looks[k].shown < |log|)
    && (forall k :: 0 <= k < |looks| ==> looks[k].woken > 0)
    && (forall j, k :: 0 <= j < k < |looks| ==> looks[j].woken < looks[k].woken)
  }

  /** The first look that does not show Starting. */
  predicate DecidedAt(log: seq<State>, looks: seq<Look>, k: nat)
    requires PossibleLooks(log, looks) && k < |looks|
  {
    log[looks[k].shown] != Starting && forall j :: 0 <= j < k ==> log[looks[j].shown] == Starting
  }

  /** ... shows Started. */
  ghost predicate ShowsOnline(log: seq<State>, looks: seq<Look>)
    requires PossibleLooks(log, looks)
  {
    exists k :: 0 <= k < |looks| && DecidedAt(log, looks, k) && log[looks[k].shown] == Started
  }

  /**
   `hold`: `log[v]` is the value at version `v`; the looks are those made before the timeout. It
   reports the server online iff the first look that did not show Starting showed Started.
   */
  method Hold(log: seq<State>, looks: seq<Look>) returns (online: bool)
    requires PossibleLooks(log, looks)
    ensures online <==> ShowsOnline(log, looks)
  {
    var seen := 0;
    for k := 0 to |looks|
      invariant forall j :: 0 <= j < k ==> log[looks[j].shown] == Starting
      invariant seen == if k == 0 then 0 else looks[k - 1].woken
    {
      assert looks[k].woken > seen;
      seen := looks[k].woken;
      match log[looks[k].shown] {
        case Starting => continue;
        case Started =>
          assert DecidedAt(log, looks, k);
          return true;
        case Stopping => return false;
        case Stopped => return false;
      }
    }
    return false;
  }

  // ----- waiters among the server's other callers -----

  datatype At = Changed | Borrow | Done(online: bool)

  datatype Waiter = Waiter(seen: nat, at: At)

  const ARRIVED := Waiter(0, Changed)

  /** `changed().await` returns only for a version the receiver has not seen. */
  predicate Blocked(version: nat, w: Waiter) {
    w.at == Changed && w.seen == version
  }

  /** One step of a waiter on a channel that shows a value and a version. */
  function WaiterRuns(watch: State, version: nat, w: Waiter): Waiter {
    match w.at
    case Changed => if w.seen == version then w else Waiter(version, Borrow)
    case Borrow =>
      (match watch
       case Starting => w.(at := Changed)
       case Started => w.(at := Done(true))
       case _ => w.(at := Done(false)))
    case Done(_) => w
  }

  /** A step of the whole: some caller's `Server` call, a step of the waiter, or its timeout. */
  datatype Event = Called(step: Step) | Ran | TimedOut

  datatype World = World(server: Snapshot, waiter: Waiter)

  function Advance(cfg: Config, w: World, e: Event): World {
    match e
    case Called(step) => World(Apply(cfg, w.server, step), w.waiter)
    case Ran => World(w.server, WaiterRuns(w.server.watch, w.server.version, w.waiter))
    case TimedOut => if w.waiter.at.Done? then w else World(w.server, w.waiter.(at := Done(false)))
  }

  function Play(cfg: Config, w: World, events: seq<Event>): World
    decreases |events|
  {
    if events == [] then w else Play(cfg, Advance(cfg, w, events[0]), events[1..])
  }

  predicate Awake(w: World) {
    && w.server.watch == w.server.state && w.server.version > 0
    && w.waiter.seen <= w.server.version
    && (Blocked(w.server.version, w.waiter) ==> w.server.watch == Starting)
  }

  lemma AdvanceKeepsAwake(cfg: Config, w: World, e: Event)
    requires Awake(w)
    ensures Awake(Advance(cfg, w, e))
  {
    hide Apply;
    if e.Called? {
      CallEffect(cfg, w.server, e.step);
    }
  }

  /** `start` has been called, by this connection or another: the channel is past version 0. */
  lemma StartMovesTheChannel(cfg: Config, run: seq<Step>, now: int)
    ensures Awake(World(After(cfg, run + [Step.At(now, Start)]), ARRIVED))
  {
    var started := run + [Step.At(now, Start)];
    assert started[..|started| - 1] == run;
    ReachableBookkeeping(cfg, run);
    ReachableBookkeeping(cfg, started);
  }

  /**
   No lost wake-up: a waiter that arrives after `start` returned, either way, is blocked only while
   the channel shows Starting, over every later interleaving of calls, steps and coalesced updates.
   */
  lemma {:induction false} NoLostWakeUp(cfg: Config, w: World, events: seq<Event>)
    requires Awake(w)
    ensures Awake(Play(cfg, w, events))
    decreases |events|
  {
    if events != [] {
      AdvanceKeepsAwake(cfg, w, events[0]);
      NoLostWakeUp(cfg, Advance(cfg, w, events[0]), events[1..]);
    }
  }

  lemma HeldClientsAreNeverStranded(cfg: Config, run: seq<Step>, now: int, events: seq<Event>)
    ensures var w := Play(cfg, World(After(cfg, run + [Step.At(now, Start)]), ARRIVED), events);
            && (Blocked(w.server.version, w.waiter) ==> w.server.state == Starting)
            && (!w.waiter.at.Done? && w.server.state != Starting ==>
                  Play(cfg, w, [Ran, Ran]).waiter.at == Done(w.server.state == Started))
  {
    var w0 := World(After(cfg, run + [Step.At(now, Start)]), ARRIVED);
    StartMovesTheChannel(cfg, run, now);
    NoLostWakeUp(cfg, w0, events);
    var w := Play(cfg, w0, events);
    var w1 := Advance(cfg, w, Ran);
    assert [Ran, Ran][1..] == [Ran] && [Ran][1..] == [];
    assert Play(cfg, w, [Ran, Ran]) == Play(cfg, w1, [Ran]) == Advance(cfg, w1, Ran);
  }

  /** A waiter turns out online only in a step that finds the state Started. */
  lemma {:induction false} OnlineWasSeen(cfg: Config, w: World, events: seq<Event>) returns (k: nat)
    requires Awake(w) && !w.waiter.at.Done?
    requires Play(cfg, w, events).waiter.at == Done(true)
    ensures k < |events| && events[k] == Ran
    ensures Play(cfg, w, events[..k]).server.state == Started
    decreases |events|
  {
    var w1 := Advance(cfg, w, events[0]);
    AdvanceKeepsAwake(cfg, w, events[0]);
    if w1.waiter.at.Done? {
      DoneStays(cfg, w1, events[1..]);
      assert events[..0] == [];
      k := 0;
    } else {
      var j := OnlineWasSeen(cfg, w1, events[1..]);
      k := j + 1;
      assert events[..k][1..] == events[1..][..j];
    }
  }

  lemma {:induction false} DoneStays(cfg: Config, w: World, events: seq<Event>)
    requires w.waiter.at.Done?
    ensures Play(cfg, w, events).waiter == w.waiter
    decreases |events|
  {
    if events != [] {
      DoneStays(cfg, Advance(cfg, w, events[0]), events[1..]);
    }
  }

  // ----- a waiter's run is a run of the loop -----

  /** The waiter has made these looks, `log` being what the channel has shown so far, version by version. */
  ghost predicate Tracks(w: World, log: seq<State>, looks: seq<Look>) {
    && |log| == w.server.version + 1 && log[w.server.version] == w.server.watch
    && PossibleLooks(log, looks)
    && (match w.waiter.at
        case Changed => AllStarting(log, looks) && w.waiter.seen == LastWoken(looks)
        case Borrow => AllStarting(log, looks) && LastWoken(looks) < w.waiter.seen <= w.server.version
        case Done(online) => online <==> ShowsOnline(log, looks))
  }

  predicate AllStarting(log: seq<State>, looks: seq<Look>)
    requires PossibleLooks(log, looks)
  {
    forall k :: 0 <= k < |looks| ==> log[looks[k].shown] == Starting
  }

  function LastWoken(looks: seq<Look>): nat {
    if looks == [] then 0 else looks[|looks| - 1].woken
  }

  lemma LookIsPossible(log: seq<State>, looks: seq<Look>, look: Look)
    requires PossibleLooks(log, looks) && LastWoken(looks) < look.woken <= look.shown < |log|
    ensures PossibleLooks(log, looks + [look])
  {
    var looks' := looks + [look];
    assert forall k :: 0 <= k < |looks| ==> looks'[k] == looks[k] && looks[k].woken <= LastWoken(looks);
    assert looks'[|looks|] == look;
  }

  lemma LookOnce(w: World, log: seq<State>, looks: seq<Look>)
    requires Tracks(w, log, looks) && w.waiter.at == Borrow
    ensures Tracks(World(w.server, WaiterRuns(w.server.watch, w.server.version, w.waiter)), log,
                   looks + [Look(w.waiter.seen, w.server.version)])
  {
    hide PossibleLooks;
    var look := Look(w.waiter.seen, w.server.version);
    var looks' := looks + [look];
    InBounds(log, looks);
    LookIsPossible(log, looks, look);
    InBounds(log, looks');
    assert forall k :: 0 <= k < |looks| ==> looks'[k] == looks[k];
    assert looks'[|looks|] == look;
    if log[look.shown] != Starting {
      assert DecidedAt(log, looks', |looks|);
    }
  }

  lemma InBounds(log: seq<State>, looks: seq<Look>)
    requires PossibleLooks(log, looks)
    ensures forall k :: 0 <= k < |looks| ==> looks[k].shown < |log|
  {
  }

  lemma LogGrows(w: World, log: seq<State>, looks: seq<Look>, server: Snapshot)
    requires Tracks(w, log, looks) && server.version == w.server.version + 1
    ensures Tracks(World(server, w.waiter), log + [server.watch], looks)
  {
    var log' := log + [server.watch];
    assert forall v :: 0 <= v < |log| ==> log'[v] == log[v];
    assert forall k :: 0 <= k < |looks| ==> (DecidedAt(log, looks, k) <==> DecidedAt(log', looks, k));
  }

  /** What the channel comes to show in one event, and the look made in it. */
  function ShownBy(cfg: Config, w: World, e: Event): seq<State> {
    var w' := Advance(cfg, w, e);
    if w'.server.version > w.server.version then [w'.server.watch] else []
  }

  function LookBy(w: World, e: Event): seq<Look> {
    if e == Ran && w.waiter.at == Borrow then [Look(w.waiter.seen, w.server.version)] else []
  }

  function Shown(cfg: Config, w: World, events: seq<Event>): seq<State>
    decreases |events|
  {
    if events == [] then [] else ShownBy(cfg, w, events[0]) + Shown(cfg, Advance(cfg, w, events[0]), events[1..])
  }

  function LooksMade(cfg: Config, w: World, events: seq<Event>): seq<Look>
    decreases |events|
  {
    if events == [] then [] else LookBy(w, events[0]) + LooksMade(cfg, Advance(cfg, w, events[0]), events[1..])
  }

  lemma AdvanceTracks(cfg: Config, w: World, e: Event, log: seq<State>, looks: seq<Look>)
    requires Tracks(w, log, looks)
    ensures Tracks(Advance(cfg, w, e), log + ShownBy(cfg, w, e), looks + LookBy(w, e))
  {
    hide Apply;
    assert log + [] == log && looks + [] == looks;
    match e {
      case Called(step) =>
        CallEffect(cfg, w.server, step);
        if Apply(cfg, w.server, step).version > w.server.version {
          LogGrows(w, log, looks, Apply(cfg, w.server, step));
        }
      case Ran =>
        if w.waiter.at == Borrow {
          LookOnce(w, log, looks);
        }
      case TimedOut =>
    }
  }

  lemma {:induction false} PlayTracks(cfg: Config, w: World, events: seq<Event>, log: seq<State>, looks: seq<Look>)
    requires Tracks(w, log, looks)
    ensures Tracks(Play(cfg, w, events), log + Shown(cfg, w, events), looks + LooksMade(cfg, w, events))
    decreases |events|
  {
    hide Tracks, Advance, ShownBy, LookBy;
    if events == [] {
      assert log + [] == log && looks + [] == looks;
    } else {
      var e, w1 := events[0], Advance(cfg, w, events[0]);
      AdvanceTracks(cfg, w, e, log, looks);
      PlayTracks(cfg, w1, events[1..], log + ShownBy(cfg, w, e), looks + LookBy(w, e));
      Associate(log, ShownBy(cfg, w, e), Shown(cfg, w1, events[1..]));
      Associate(looks, LookBy(w, e), LooksMade(cfg, w1, events[1..]));
    }
  }

  /**
   Every run of a waiter, among any calls, is a run of `hold` on what the channel showed: the looks it made are possible
   ones, and once done it has reported what that loop reports for them, a timeout included.
   */
  lemma WaiterIsHold(cfg: Config, server: Snapshot, log: seq<State>, events: seq<Event>)
    requires |log| == server.version + 1 && log[server.version] == server.watch
    ensures var w := World(server, ARRIVED);
            var channel, looks := log + Shown(cfg, w, events), LooksMade(cfg, w, events);
            var at := Play(cfg, w, events).waiter.at;
            && PossibleLooks(channel, looks)
            && (at.Done? ==> (at.online <==> ShowsOnline(channel, looks)))
  {
    hide Play, Shown, LooksMade;
    var w := World(server, ARRIVED);
    PlayTracks(cfg, w, events, log, []);
    assert [] + LooksMade(cfg, w, events) == LooksMade(cfg, w, events);
  }
}
