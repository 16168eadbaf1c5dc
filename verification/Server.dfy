/**
 The server lifecycle (src/server.rs, src/monitor.rs) at the granularity of one `Server` method
 call per step. Instants are milliseconds; each call sees one instant.
 */
module Server {
  import opened Base

  datatype State = Stopped | Starting | Started | Stopping

  const RCON_COOLDOWN: int := 15_000

  /** Timeouts in seconds; zero switches one off. */
  datatype Config = Config(startTimeout: nat, stopTimeout: nat, minOnlineTime: nat, sleepAfter: nat,
                           freezeProcess: bool, rconEnabled: bool)

  /** What the outside world answers to one call of `stop`. */
  datatype StopEnv = StopEnv(signalSent: bool, rconConnects: bool, rconAccepts: bool)

  /** The fields of `Server`. `status` is the number of players of the last status. */
  datatype Snapshot = Snapshot(
    state: State,
    killAt: Option<int>,
    lastActive: Option<int>,
    keepOnlineUntil: Option<int>,
    pid: Option<nat>,
    status: Option<nat>,
    rconLastStop: Option<int>,
    watch: State,
    version: nat)

  const INITIAL := Snapshot(Stopped, None, None, None, None, None, None, Stopped, 0)

  function Timeout(cfg: Config, state: State): nat {
    match state
    case Starting => cfg.startTimeout
    case Stopping => cfg.stopTimeout
    case _ => 0
  }

  function KeepUntil(cfg: Config, now: int): Option<int> {
    if cfg.minOnlineTime > 0 then Some(now + 1000 * cfg.minOnlineTime) else None
  }

  function Swap(cfg: Config, s: Snapshot, to: State, now: int): (Snapshot, bool) {
    if s.state == to then (s, false)
    else
      var moved := s.(state := to, watch := to, version := s.version + 1,
                      killAt := if Timeout(cfg, to) > 0 then Some(now + 1000 * Timeout(cfg, to)) else None);
      if to != Started then (moved, true)
      else (moved.(lastActive := Some(now), keepOnlineUntil := KeepUntil(cfg, now)), true)
  }

  function UpdateFrom(cfg: Config, s: Snapshot, from: Option<State>, to: State, now: int): (Snapshot, bool) {
    if from.Some? && s.state != from.value then (s, false) else Swap(cfg, s, to, now)
  }

  function Reported(cfg: Config, s: Snapshot, status: Option<nat>, now: int): Snapshot {
    var s1 := match status
              case Some(_) => if s.state == Stopped || s.state == Starting then Swap(cfg, s, Started, now).0 else s
              case None => if s.state == Started then Swap(cfg, s, Stopped, now).0 else s;
    match status
    case None => s1
    case Some(players) =>
      s1.(status := status, lastActive := if players > 0 then Some(now) else s1.lastActive)
  }

  /** `start`: the new state, its result, and whether a supervisor was spawned. */
  function StartResult(cfg: Config, s: Snapshot, now: int): (Snapshot, bool, bool) {
    var (s1, won) := UpdateFrom(cfg, s, Some(Stopped), Starting, now);
    if !won then (s1, false, false)
    else if cfg.freezeProcess && s1.pid.Some? then
      var s2 := UpdateFrom(cfg, s1, Some(Stopping), Starting, now).0;
      (UpdateFrom(cfg, s2, Some(Stopped), Starting, now).0, true, false)
    else (s1, true, true)
  }

  function RconStops(cfg: Config, s: Snapshot, env: StopEnv, now: int): bool {
    && cfg.rconEnabled
    && (s.rconLastStop.Some? ==> Elapsed(s.rconLastStop.value, now) >= RCON_COOLDOWN)
    && env.rconConnects && env.rconAccepts
  }

  function Elapsed(since: int, now: int): nat {
    if now > since then now - since else 0
  }

  /** The two compare-exchanges by which a signalled stop leaves `Starting` or `Started`. */
  function LeaveFor(cfg: Config, s: Snapshot, to: State, now: int): Snapshot {
    var s1 := UpdateFrom(cfg, s, Some(Starting), to, now).0;
    UpdateFrom(cfg, s1, Some(Started), to, now).0
  }

  function StopResult(cfg: Config, s: Snapshot, env: StopEnv, now: int): (Snapshot, bool) {
    if cfg.freezeProcess && s.pid.Some? then (LeaveFor(cfg, s, Stopped, now), true)
    else if s.state == Started && RconStops(cfg, s, env, now) then
      (Swap(cfg, s.(rconLastStop := Some(now)), Stopping, now).0, true)
    else if s.pid.None? || !env.signalSent then (s, false)
    else (LeaveFor(cfg, s, Stopping, now), true)
  }

  function ShouldSleep(cfg: Config, s: Snapshot, now: int): bool {
    && s.state == Started
    && !(s.status.Some? && s.status.value > 0)
    && !(s.keepOnlineUntil.Some? && s.keepOnlineUntil.value >= now)
    && s.lastActive.Some? && Elapsed(s.lastActive.value, now) >= 1000 * cfg.sleepAfter
  }

  function ShouldKill(s: Snapshot, now: int): bool {
    s.killAt.Some? && s.killAt.value <= now
  }

  // ----- the class -----

  class Server {
    var state: State
    var watch: State
    var version: nat
    var pid: Option<nat>
    var status: Option<nat>
    var lastActive: Option<int>
    var keepOnlineUntil: Option<int>
    var killAt: Option<int>
    var rconLastStop: Option<int>

    ghost function Abs(): Snapshot
      reads this
    {
      Snapshot(state, killAt, lastActive, keepOnlineUntil, pid, status, rconLastStop, watch, version)
    }

    constructor ()
      ensures Abs() == INITIAL
    {
      state, watch, version := Stopped, Stopped, 0;
      pid, status, lastActive, keepOnlineUntil, killAt, rconLastStop := None, None, None, None, None, None;
    }

    method UpdateStateFrom(from: Option<State>, to: State, cfg: Config, now: int) returns (changed: bool)
      modifies this
      ensures (Abs(), changed) == UpdateFrom(cfg, old(Abs()), from, to, now)
    {
      var before := state;
      if from.Some? && before != from.value {
        return false;
      }
      state := to;
      if before == to {
        return false;
      }
      watch, version := to, version + 1;
      if to == Starting && cfg.startTimeout > 0 {
        killAt := Some(now + 1000 * cfg.startTimeout);
      } else if to == Stopping && cfg.stopTimeout > 0 {
        killAt := Some(now + 1000 * cfg.stopTimeout);
      } else {
        killAt := None;
      }
      if to == Started {
        lastActive := Some(now);
        KeepOnlineFor(cfg.minOnlineTime, now);
      }
      return true;
    }

    method KeepOnlineFor(duration: nat, now: int)
      modifies this`keepOnlineUntil
      ensures keepOnlineUntil == if duration > 0 then Some(now + 1000 * duration) else None
    {
      keepOnlineUntil := if duration > 0 then Some(now + 1000 * duration) else None;
    }

    method UpdateStatus(cfg: Config, reported: Option<nat>, now: int)
      modifies this
      ensures Abs() == Reported(cfg, old(Abs()), reported, now)
    {
      if (state == Stopped || state == Starting) && reported.Some? {
        var _ := UpdateStateFrom(None, Started, cfg, now);
      } else if state == Started && reported.None? {
        var _ := UpdateStateFrom(None, Stopped, cfg, now);
      }
      if reported.Some? {
        if reported.value > 0 {
          lastActive := Some(now);
        }
        status := reported;
      }
    }

    method Start(cfg: Config, now: int) returns (started: bool, spawned: bool)
      modifies this
      ensures (Abs(), started, spawned) == StartResult(cfg, old(Abs()), now)
    {
      var won := UpdateStateFrom(Some(Stopped), Starting, cfg, now);
      if !won { return false, false; }
      if cfg.freezeProcess && pid.Some? {
        var _ := UpdateStateFrom(Some(Stopping), Starting, cfg, now);
        var _ := UpdateStateFrom(Some(Stopped), Starting, cfg, now);
        return true, false;
      }
      return true, true;
    }

    method StopServerRcon(cfg: Config, env: StopEnv, now: int) returns (stopped: bool)
      modifies this
      ensures stopped == RconStops(cfg, old(Abs()), env, now)
      ensures Abs() ==
              if stopped then Swap(cfg, old(Abs()).(rconLastStop := Some(now)), Stopping, now).0 else old(Abs())
    {
      if !cfg.rconEnabled { return false; }
      if rconLastStop.Some? && Elapsed(rconLastStop.value, now) < RCON_COOLDOWN { return false; }
      if !env.rconConnects { return false; }
      if !env.rconAccepts { return false; }
      rconLastStop := Some(now);
      var _ := UpdateStateFrom(None, Stopping, cfg, now);
      return true;
    }

    method Stop(cfg: Config, env: StopEnv, now: int) returns (stopping: bool)
      modifies this
      ensures (Abs(), stopping) == StopResult(cfg, old(Abs()), env, now)
    {
      if cfg.freezeProcess && pid.Some? {
        var _ := UpdateStateFrom(Some(Starting), Stopped, cfg, now);
        var _ := UpdateStateFrom(Some(Started), Stopped, cfg, now);
        return true;
      }
      if state == Started {
        var stopped := StopServerRcon(cfg, env, now);
        if stopped { return true; }
      }
      if pid.None? || !env.signalSent { return false; }
      var _ := UpdateStateFrom(Some(Starting), Stopping, cfg, now);
      var _ := UpdateStateFrom(Some(Started), Stopping, cfg, now);
      return true;
    }

    method IsIdle(cfg: Config, now: int) returns (sleep: bool)
      ensures sleep == ShouldSleep(cfg, Abs(), now)
    {
      if state != Started { return false; }
      var playersOnline := status.Some? && status.value > 0;
      if playersOnline { return false; }
      var keepOnline := keepOnlineUntil.Some? && keepOnlineUntil.value >= now;
      if keepOnline { return false; }
      if lastActive.Some? {
        return Elapsed(lastActive.value, now) >= 1000 * cfg.sleepAfter;
      }
      return false;
    }

    method IsOverdue(now: int) returns (kill: bool)
      ensures kill == ShouldKill(Abs(), now)
    {
      return killAt.Some? && killAt.value <= now;
    }

    /** `force_kill`: the process that gets the kill signal. */
    method ForceKill() returns (target: Option<nat>)
      ensures target == Abs().pid
    {
      return pid;
    }

    /** One call, by whichever task. */
    method Perform(cfg: Config, step: Step)
      modifies this
      ensures Abs() == Apply(cfg, old(Abs()), step)
    {
      match step.call {
        case Report(reported) => UpdateStatus(cfg, reported, step.now);
        case Start => var _, _ := Start(cfg, step.now);
        case Stop(env) => var _ := Stop(cfg, env, step.now);
        case ChildUp(child) => pid := Some(child);
        case ChildGone => pid := None;
        case SupervisorDone => var _ := UpdateStateFrom(None, Stopped, cfg, step.now);
      }
    }

    /** The calls other tasks get in before the next one of this task. */
    method OthersRun(cfg: Config, steps: seq<Step>)
      modifies this
      ensures Abs() == Resume(cfg, old(Abs()), steps)
    {
      for i := 0 to |steps|
        invariant Abs() == Resume(cfg, old(Abs()), steps[..i])
      {
        Perform(cfg, steps[i]);
        assert steps[..i + 1][..i] == steps[..i];
      }
      assert steps[..|steps|] == steps;
    }

    /** One round of the monitor, with the calls of the other tasks that fall between its own. */
    method MonitorTick(cfg: Config, round: Round) returns (slept: bool, killing: bool, target: Option<nat>)
      modifies this
      ensures RoundEnd(Abs(), slept, killing, target) == RoundResult(cfg, old(Abs()), round)
    {
      UpdateStatus(cfg, round.poll, round.t1);
      OthersRun(cfg, round.mid1);
      slept := IsIdle(cfg, round.t2);
      if slept {
        OthersRun(cfg, round.mid2);
        var _ := Stop(cfg, round.env, round.t3);
      }
      OthersRun(cfg, round.mid3);
      killing := IsOverdue(round.t4);
      target := None;
      if killing {
        OthersRun(cfg, round.mid4);
        target := ForceKill();
      }
    }
  }

  /**
   A monitor round: the poll result arrives at `t1`, idleness is looked at at `t2`, the stop comes at `t3`,
   the deadline is looked at at `t4` and the kill comes at `t5`; `mid1` to `mid4` are the calls other tasks make
   between these.
   */
  datatype Round = Round(poll: Option<nat>, env: StopEnv, t1: int, t2: int, t3: int, t4: int, t5: int,
                         mid1: seq<Step>, mid2: seq<Step>, mid3: seq<Step>, mid4: seq<Step>)

  datatype RoundEnd = RoundEnd(after: Snapshot, slept: bool, killing: bool, target: Option<nat>)

  function RoundResult(cfg: Config, s: Snapshot, round: Round): RoundEnd {
    var checked := Resume(cfg, Reported(cfg, s, round.poll, round.t1), round.mid1);
    var slept := ShouldSleep(cfg, checked, round.t2);
    var done := if slept then StopResult(cfg, Resume(cfg, checked, round.mid2), round.env, round.t3).0 else checked;
    var waited := Resume(cfg, done, round.mid3);
    var killing := ShouldKill(waited, round.t4);
    var end := if killing then Resume(cfg, waited, round.mid4) else waited;
    RoundEnd(end, slept, killing, if killing then end.pid else None)
  }

  // ----- runs -----

  /** A call on the shared server, by whichever task makes it. */
  datatype Call = Report(status: Option<nat>)   // the monitor
                | Start                         // a login, the probe, a crash restart
                | Stop(env: StopEnv)            // the monitor or ctrl-c
                | ChildUp(child: nat)           // the supervisor records its child
                | ChildGone                     // ... forgets it
                | SupervisorDone                // ... and reports the server stopped

  datatype Step = At(now: int, call: Call)

  function Apply(cfg: Config, s: Snapshot, step: Step): Snapshot {
    match step.call
    case Report(status) => Reported(cfg, s, status, step.now)
    case Start => StartResult(cfg, s, step.now).0
    case Stop(env) => StopResult(cfg, s, env, step.now).0
    case ChildUp(child) => s.(pid := Some(child))
    case ChildGone => s.(pid := None)
    case SupervisorDone => Swap(cfg, s, Stopped, step.now).0
  }

  /** The server after a run, oldest call first. */
  function After(cfg: Config, run: seq<Step>): Snapshot
    decreases |run|
  {
    if run == [] then INITIAL else Apply(cfg, After(cfg, run[..|run| - 1]), run[|run| - 1])
  }

  /** The server after further calls. */
  function Resume(cfg: Config, s: Snapshot, steps: seq<Step>): Snapshot
    decreases |steps|
  {
    if steps == [] then s else Apply(cfg, Resume(cfg, s, steps[..|steps| - 1]), steps[|steps| - 1])
  }

  lemma {:induction false} AfterResumes(cfg: Config, run: seq<Step>, steps: seq<Step>)
    ensures After(cfg, run + steps) == Resume(cfg, After(cfg, run), steps)
    decreases |steps|
  {
    hide Apply;
    if steps == [] {
      assert run + steps == run;
    } else {
      AfterResumes(cfg, run, steps[..|steps| - 1]);
      assert (run + steps)[..|run + steps| - 1] == run + steps[..|steps| - 1];
    }
  }

  lemma AfterOne(cfg: Config, run: seq<Step>, step: Step)
    ensures After(cfg, run + [step]) == Apply(cfg, After(cfg, run), step)
  {
    assert (run + [step])[..|run + [step]| - 1] == run;
  }

  ghost predicate Chronological(run: seq<Step>) {
    forall i, j :: 0 <= i < j < |run| ==> run[i].now <= run[j].now
  }

  // ----- the history, read off the run alone -----

  /** What the calls of a run tell of the state, the child and the last stop through RCON. */
  datatype Story = Story(state: State, pid: Option<nat>, rconLastStop: Option<int>)

  /**
   The state as a table over the calls, without the exchanges by which the server gets there. An answered poll makes
   every server Started but a stopping one; an unanswered one makes a started server Stopped. A start counts from
   Stopped alone. A stop counts from Starting and Started, if one of its ways works.
   */
  function Told(cfg: Config, was: Story, step: Step): Story {
    match step.call
    case Report(Some(_)) => was.(state := if was.state == Stopping then Stopping else Started)
    case Report(None) => was.(state := if was.state == Started then Stopped else was.state)
    case Start => was.(state := if was.state == Stopped then Starting else was.state)
    case Stop(env) => Stops(cfg, was, env, step.now)
    case ChildUp(child) => was.(pid := Some(child))
    case ChildGone => was.(pid := None)
    case SupervisorDone => was.(state := Stopped)
  }

  /** A child to freeze is frozen; else RCON, for a started server, not within 15 s of its last use; else a signal. */
  function Stops(cfg: Config, was: Story, env: StopEnv, now: int): Story {
    var freezes := cfg.freezeProcess && was.pid.Some?;
    var byRcon := !freezes && was.state == Started && cfg.rconEnabled && env.rconConnects && env.rconAccepts
                  && (was.rconLastStop.Some? ==> now >= was.rconLastStop.value + 15_000);
    var bySignal := was.pid.Some? && env.signalSent;
    if was.state == Stopped || was.state == Stopping then was
    else if freezes then was.(state := Stopped)
    else if byRcon then was.(state := Stopping, rconLastStop := Some(now))
    else if bySignal then was.(state := Stopping)
    else was
  }

  function Tells(cfg: Config, run: seq<Step>): Story
    decreases |run|
  {
    if run == [] then Story(Stopped, None, None) else Told(cfg, Tells(cfg, run[..|run| - 1]), run[|run| - 1])
  }

  function StoryOf(s: Snapshot): Story {
    Story(s.state, s.pid, s.rconLastStop)
  }

  lemma StopIsTold(cfg: Config, s: Snapshot, env: StopEnv, now: int)
    ensures StoryOf(StopResult(cfg, s, env, now).0) == Stops(cfg, StoryOf(s), env, now)
  {
  }

  lemma CallIsTold(cfg: Config, s: Snapshot, step: Step)
    ensures StoryOf(Apply(cfg, s, step)) == Told(cfg, StoryOf(s), step)
  {
    hide StopResult, Stops;
    if step.call.Stop? {
      StopIsTold(cfg, s, step.call.env, step.now);
    }
  }

  /** In every reachable state, state, pid and last stop through RCON are what the calls tell. */
  lemma {:induction false} StateIsHistory(cfg: Config, run: seq<Step>)
    ensures StoryOf(After(cfg, run)) == Tells(cfg, run)
    decreases |run|
  {
    hide Apply, Told;
    if run != [] {
      StateIsHistory(cfg, run[..|run| - 1]);
      CallIsTold(cfg, After(cfg, run[..|run| - 1]), run[|run| - 1]);
    }
  }

  /** What a poll, and the end of a supervisor, make of any reachable server. */
  lemma PollDecides(cfg: Config, run: seq<Step>, now: int, status: Option<nat>)
    ensures var from, to := After(cfg, run).state, After(cfg, run + [At(now, Report(status))]).state;
            if status.Some? then to == (if from == Stopping then Stopping else Started)
            else to == if from == Started then Stopped else from
    ensures After(cfg, run + [At(now, SupervisorDone)]).state == Stopped
  {
    AfterOne(cfg, run, At(now, Report(status)));
    AfterOne(cfg, run, At(now, SupervisorDone));
  }

  /** The state after a run, as its calls tell it. */
  function StateOf(cfg: Config, run: seq<Step>): State {
    Tells(cfg, run).state
  }

  /** When the state last changed. */
  function ChangedAt(cfg: Config, run: seq<Step>): Option<int>
    decreases |run|
  {
    if run == [] then None
    else
      var before := run[..|run| - 1];
      if StateOf(cfg, run) != StateOf(cfg, before) then Some(run[|run| - 1].now) else ChangedAt(cfg, before)
  }

  function LastStatus(run: seq<Step>): Option<nat>
    decreases |run|
  {
    if run == [] then None
    else match run[|run| - 1].call
         case Report(Some(players)) => Some(players)
         case _ => LastStatus(run[..|run| - 1])
  }

  /** When a poll last reported players. */
  function LastBusy(run: seq<Step>): Option<int>
    decreases |run|
  {
    if run == [] then None
    else match run[|run| - 1].call
         case Report(Some(players)) => if players > 0 then Some(run[|run| - 1].now) else LastBusy(run[..|run| - 1])
         case _ => LastBusy(run[..|run| - 1])
  }

  /** How many calls changed the state. */
  function Changes(cfg: Config, run: seq<Step>): nat
    decreases |run|
  {
    if run == [] then 0
    else
      var before := run[..|run| - 1];
      Changes(cfg, before) + if StateOf(cfg, run) != StateOf(cfg, before) then 1 else 0
  }

  // ----- lifecycle -----

  predicate Allowed(from: State, to: State) {
    match from
    case Stopped => to == Starting || to == Started
    case Starting => to == Started || to == Stopping || to == Stopped
    case Started => to == Stopping || to == Stopped
    case Stopping => to == Stopped
  }

  /** What one call does to the bookkeeping, according to whether it changes the state. */
  lemma CallEffect(cfg: Config, s: Snapshot, step: Step)
    ensures var s' := Apply(cfg, s, step);
            if s'.state == s.state then
              s'.killAt == s.killAt && s'.watch == s.watch && s'.version == s.version
              && s'.keepOnlineUntil == s.keepOnlineUntil
            else
              && Allowed(s.state, s'.state)
              && s'.watch == s'.state && s'.version == s.version + 1
              && s'.killAt == (if Timeout(cfg, s'.state) > 0 then Some(step.now + 1000 * Timeout(cfg, s'.state))
                               else None)
              && (s'.state == Started ==>
                    s'.lastActive == Some(step.now)
                    && s'.keepOnlineUntil == KeepUntil(cfg, step.now))
  {
  }

  /** The lifecycle relation, for every call of every run. */
  lemma LifecycleRelation(cfg: Config, run: seq<Step>, i: nat)
    requires i < |run|
    ensures var from, to := StateOf(cfg, run[..i]), StateOf(cfg, run[..i + 1]);
            from == to || Allowed(from, to)
  {
    assert run[..i + 1][..i] == run[..i];
    CallEffect(cfg, After(cfg, run[..i]), run[i]);
    StateIsHistory(cfg, run[..i]);
    StateIsHistory(cfg, run[..i + 1]);
  }

  /** A status is only ever replaced by a poll, and Started is only entered with one at hand. */
  lemma CallEvidence(cfg: Config, s: Snapshot, step: Step)
    ensures var s' := Apply(cfg, s, step);
            && s'.status == (match step.call case Report(Some(players)) => Some(players) case _ => s.status)
            && (s.lastActive.Some? ==> s'.lastActive.Some?)
            && (s'.state == Started && s.state != Started ==> s'.status.Some? && s'.lastActive.Some?)
  {
  }

  /**
   In every reachable state: the watch shows the state and has counted its changes; Started has a status and an
   activity.
   */
  lemma {:induction false} ReachableBookkeeping(cfg: Config, run: seq<Step>)
    ensures var s := After(cfg, run);
            && s.state == StateOf(cfg, run) && s.watch == s.state && s.version == Changes(cfg, run)
            && (s.version == 0 ==> s.state == Stopped)
            && (s.version > 0 <==> ChangedAt(cfg, run).Some?)
            && (s.state == Started ==> s.status.Some? && s.lastActive.Some?)
            && s.status == LastStatus(run)
    decreases |run|
  {
    hide Apply;
    if run != [] {
      var before := run[..|run| - 1];
      StateIsHistory(cfg, run);
      ReachableBookkeeping(cfg, before);
      CallEffect(cfg, After(cfg, before), run[|run| - 1]);
      CallEvidence(cfg, After(cfg, before), run[|run| - 1]);
    }
  }

  // ----- start and stop -----

  /** `start` succeeds exactly from Stopped, and spawns a supervisor unless it thaws a frozen child. */
  lemma StartMeans(cfg: Config, s: Snapshot, now: int)
    ensures var (s', started, spawned) := StartResult(cfg, s, now);
            && (started <==> s.state == Stopped)
            && (started ==> s'.state == Starting)
            && (!started ==> s' == s)
            && (spawned <==> started && !(cfg.freezeProcess && s.pid.Some?))
  {
  }

  /** `stop` reports success exactly when one of its three ways worked, and only then touches the server. */
  lemma StopMeans(cfg: Config, s: Snapshot, env: StopEnv, now: int)
    ensures var (s', stopping) := StopResult(cfg, s, env, now);
            var freezes := cfg.freezeProcess && s.pid.Some?;
            var byRcon := !freezes && s.state == Started && cfg.rconEnabled && env.rconConnects && env.rconAccepts
                          && (s.rconLastStop.Some? ==> now >= s.rconLastStop.value + 15_000);
            && (stopping <==> freezes || byRcon || (s.pid.Some? && env.signalSent))
            && (!stopping ==> s' == s)
            && (s.state == Stopped || s.state == Stopping ==> s' == s)
            && (stopping && (s.state == Starting || s.state == Started) ==>
                  s'.state == if freezes then Stopped else Stopping)
            && s'.rconLastStop == (if byRcon then Some(now) else s.rconLastStop)
  {
  }

  // ----- the kill deadline -----

  /**
   The kill deadline is a function of the history: it is set iff the state is Starting or Stopping
   with a positive timeout, and then it is that timeout after the last change of state.
   */
  lemma {:induction false} KillDeadlineIsHistory(cfg: Config, run: seq<Step>)
    ensures var s, state := After(cfg, run), StateOf(cfg, run);
            && (s.killAt.Some? <==>
                  (state == Starting && cfg.startTimeout > 0) || (state == Stopping && cfg.stopTimeout > 0))
            && (s.killAt.Some? ==>
                  ChangedAt(cfg, run).Some?
                  && s.killAt.value == ChangedAt(cfg, run).value
                     + 1000 * (if state == Starting then cfg.startTimeout else cfg.stopTimeout))
    decreases |run|
  {
    if run != [] {
      var before := run[..|run| - 1];
      StateIsHistory(cfg, run);
      StateIsHistory(cfg, before);
      KillDeadlineIsHistory(cfg, before);
      CallEffect(cfg, After(cfg, before), run[|run| - 1]);
    }
  }

  /** Force kills fall only in Starting or Stopping, never early, and on every check past the deadline. */
  lemma KillsExactlyOverdue(cfg: Config, run: seq<Step>, now: int)
    ensures ShouldKill(After(cfg, run), now) <==>
              && Timeout(cfg, StateOf(cfg, run)) > 0
              && ChangedAt(cfg, run).Some?
              && now >= ChangedAt(cfg, run).value + 1000 * Timeout(cfg, StateOf(cfg, run))
  {
    StateIsHistory(cfg, run);
    KillDeadlineIsHistory(cfg, run);
  }

  // ----- idleness -----

  function Latest(a: int, b: Option<int>): int {
    if b.Some? && b.value > a then b.value else a
  }

  /** Whether the history calls for sleep. */
  ghost predicate SleepDue(cfg: Config, run: seq<Step>, now: int) {
    && StateOf(cfg, run) == Started
    && LastStatus(run) == Some(0)
    && ChangedAt(cfg, run).Some?
    && var startedAt := ChangedAt(cfg, run).value;
       && (cfg.minOnlineTime > 0 ==> now > startedAt + 1000 * cfg.minOnlineTime)
       && now >= Latest(startedAt, LastBusy(run)) + 1000 * cfg.sleepAfter
  }

  ghost predicate NoLaterThan(run: seq<Step>, now: int) {
    forall i :: 0 <= i < |run| ==> run[i].now <= now
  }

  lemma {:induction false} HistoryIsPast(cfg: Config, run: seq<Step>, now: int)
    requires NoLaterThan(run, now)
    ensures ChangedAt(cfg, run).Some? ==> ChangedAt(cfg, run).value <= now
    ensures LastBusy(run).Some? ==> LastBusy(run).value <= now
    decreases |run|
  {
    if run != [] {
      HistoryIsPast(cfg, run[..|run| - 1], now);
    }
  }

  /** While Started: the activity stamp is the later of the start and the last poll with players. */
  lemma {:induction false} ActivityIsHistory(cfg: Config, run: seq<Step>)
    requires Chronological(run)
    requires StateOf(cfg, run) == Started
    ensures ChangedAt(cfg, run).Some?
    ensures var s, startedAt := After(cfg, run), ChangedAt(cfg, run).value;
            && s.lastActive == Some(Latest(startedAt, LastBusy(run)))
            && s.keepOnlineUntil == KeepUntil(cfg, startedAt)
    decreases |run|
  {
    hide Tells;
    StateIsHistory(cfg, run);
    StateIsHistory(cfg, run[..|run| - 1]);
    NothingTold(cfg);
    var before, step := run[..|run| - 1], run[|run| - 1];
    CallEffect(cfg, After(cfg, before), step);
    assert NoLaterThan(before, step.now);
    HistoryIsPast(cfg, before, step.now);
    if After(cfg, before).state == Started {
      ActivityIsHistory(cfg, before);
      StartedStays(cfg, After(cfg, before), step);
    }
  }

  lemma NothingTold(cfg: Config)
    ensures StateOf(cfg, []) == Stopped
  {
  }

  lemma StartedStays(cfg: Config, s: Snapshot, step: Step)
    requires s.state == Started && Apply(cfg, s, step).state == Started
    ensures Apply(cfg, s, step).lastActive ==
            match step.call
            case Report(Some(players)) => if players > 0 then Some(step.now) else s.lastActive
            case _ => s.lastActive
  {
  }

  /** The idle decision refines the history, over every chronological run. */
  lemma SleepsExactlyWhenDue(cfg: Config, run: seq<Step>, now: int)
    requires Chronological(run) && NoLaterThan(run, now)
    ensures ShouldSleep(cfg, After(cfg, run), now) <==> SleepDue(cfg, run, now)
  {
    hide After, LastStatus, LastBusy, ChangedAt;
    ReachableBookkeeping(cfg, run);
    if After(cfg, run).state == Started {
      ActivityIsHistory(cfg, run);
      HistoryIsPast(cfg, run, now);
    }
  }

  // ----- the monitor among other tasks -----

  /** Calls of tasks other than the monitor, which alone polls. */
  ghost predicate Others(steps: seq<Step>) {
    forall i :: 0 <= i < |steps| ==> !steps[i].call.Report?
  }

  /** Without a poll nothing enters Started, and while it lasts nothing changes the idle decision. */
  lemma OthersLeaveActivity(cfg: Config, s: Snapshot, step: Step)
    requires !step.call.Report?
    ensures var s' := Apply(cfg, s, step);
            && (s'.state == Started ==> s.state == Started)
            && (s'.state == Started ==> s'.status == s.status && s'.lastActive == s.lastActive
                                        && s'.keepOnlineUntil == s.keepOnlineUntil)
  {
  }

  /**
   Between `should_sleep` and `stop` any calls of other tasks may come. Sleep is still due at the stop iff the server
   is still Started, which is iff none of them changed its state.
   */
  lemma {:induction false} SleepStaysDue(cfg: Config, run: seq<Step>, mid: seq<Step>, t2: int, t3: int)
    requires Others(mid) && t2 <= t3 && ShouldSleep(cfg, After(cfg, run), t2)
    ensures ShouldSleep(cfg, After(cfg, run + mid), t3) <==> After(cfg, run + mid).state == Started
    ensures After(cfg, run + mid).state == Started <==> Changes(cfg, run + mid) == Changes(cfg, run)
    ensures Changes(cfg, run + mid) >= Changes(cfg, run)
    decreases |mid|
  {
    hide After, Apply;
    if mid == [] {
      assert run + mid == run;
    } else {
      var before, step := run + mid[..|mid| - 1], mid[|mid| - 1];
      SleepStaysDue(cfg, run, mid[..|mid| - 1], t2, t3);
      LastCall(cfg, run, mid);
      OthersLeaveActivity(cfg, After(cfg, before), step);
    }
  }

  lemma LastCall(cfg: Config, run: seq<Step>, mid: seq<Step>)
    requires mid != []
    ensures var before := run + mid[..|mid| - 1];
            && After(cfg, run + mid) == Apply(cfg, After(cfg, before), mid[|mid| - 1])
            && Changes(cfg, run + mid) == Changes(cfg, before)
               + (if After(cfg, run + mid).state != After(cfg, before).state then 1 else 0)
            && ChangedAt(cfg, run + mid) == if After(cfg, run + mid).state != After(cfg, before).state
                                            then Some(mid[|mid| - 1].now) else ChangedAt(cfg, before)
  {
    assert (run + mid)[..|run + mid| - 1] == run + mid[..|mid| - 1];
    StateIsHistory(cfg, run + mid);
    StateIsHistory(cfg, run + mid[..|mid| - 1]);
  }

  /** Calls that do not change the state leave its last change and the kill deadline. */
  lemma {:induction false} QuietCallsKeepDeadline(cfg: Config, run: seq<Step>, mid: seq<Step>)
    ensures Changes(cfg, run + mid) >= Changes(cfg, run)
    ensures Changes(cfg, run + mid) == Changes(cfg, run) ==>
              && ChangedAt(cfg, run + mid) == ChangedAt(cfg, run)
              && After(cfg, run + mid).state == After(cfg, run).state
              && After(cfg, run + mid).killAt == After(cfg, run).killAt
    decreases |mid|
  {
    hide After, Apply, Changes, ChangedAt;
    if mid == [] {
      assert run + mid == run;
    } else {
      QuietCallsKeepDeadline(cfg, run, mid[..|mid| - 1]);
      LastCall(cfg, run, mid);
      CallEffect(cfg, After(cfg, run + mid[..|mid| - 1]), mid[|mid| - 1]);
    }
  }

  lemma {:induction false} NewChangeIsRecent(cfg: Config, run: seq<Step>, mid: seq<Step>, now: int)
    requires forall i :: 0 <= i < |mid| ==> now <= mid[i].now
    requires Changes(cfg, run + mid) > Changes(cfg, run)
    ensures ChangedAt(cfg, run + mid).Some? && ChangedAt(cfg, run + mid).value >= now
    decreases |mid|
  {
    hide After, Apply, Changes, ChangedAt;
    assert run + [] == run;
    if mid == [] {
      assert false;
    } else {
      LastCall(cfg, run, mid);
      if After(cfg, run + mid).state == After(cfg, run + mid[..|mid| - 1]).state {
        NewChangeIsRecent(cfg, run, mid[..|mid| - 1], now);
      }
    }
  }

  /**
   Between `should_kill` and `force_kill` any calls may come. The kill falls on a server that is not overdue iff one
   of them changed the state, and so recently that its new deadline, if any, is still to come. Within less than
   the shortest timeout that is: iff one of them changed the state.
   */
  lemma KillIsEarlyIff(cfg: Config, run: seq<Step>, mid: seq<Step>, t4: int, t5: int)
    requires t4 <= t5 && ShouldKill(After(cfg, run), t4)
    ensures !ShouldKill(After(cfg, run + mid), t5) <==>
              var timeout := Timeout(cfg, After(cfg, run + mid).state);
              && Changes(cfg, run + mid) > Changes(cfg, run)
              && (timeout == 0 || ChangedAt(cfg, run + mid).None?
                  || t5 < ChangedAt(cfg, run + mid).value + 1000 * timeout)
    ensures (forall i :: 0 <= i < |mid| ==> t4 <= mid[i].now)
            && (cfg.startTimeout == 0 || t5 < t4 + 1000 * cfg.startTimeout)
            && (cfg.stopTimeout == 0 || t5 < t4 + 1000 * cfg.stopTimeout) ==>
              (!ShouldKill(After(cfg, run + mid), t5) <==> Changes(cfg, run + mid) > Changes(cfg, run))
  {
    hide After, Apply, Changes, ChangedAt;
    hide Tells;
    QuietCallsKeepDeadline(cfg, run, mid);
    StateIsHistory(cfg, run + mid);
    KillsExactlyOverdue(cfg, run + mid, t5);
    if Changes(cfg, run + mid) > Changes(cfg, run) && forall i :: 0 <= i < |mid| ==> t4 <= mid[i].now {
      NewChangeIsRecent(cfg, run, mid, t4);
    }
  }

  /** A ctrl-c between check and kill: the child gets the kill signal at the instant its stopping time begins. */
  lemma KillsEarly() returns (cfg: Config, run: seq<Step>, mid: seq<Step>, t4: int, t5: int)
    ensures Chronological(run + mid) && Others(mid) && NoLaterThan(run, t4) && NoLaterThan(run + mid, t5) && t4 <= t5
    ensures ShouldKill(After(cfg, run), t4)
    ensures var s := After(cfg, run + mid);
            && s.state == Stopping && s.pid == Some(1)
            && s.killAt == Some(t4 + 1000 * cfg.stopTimeout) && !ShouldKill(s, t5)
  {
    cfg := Config(300, 150, 60, 60, false, false);
    var env := StopEnv(true, false, false);
    run, mid, t4, t5 := [At(0, Start), At(1, ChildUp(1))], [At(300_000, Stop(env))], 300_000, 300_001;
    assert After(cfg, run[..1]) == Apply(cfg, After(cfg, run[..0]), run[0]) by { assert run[..1][..0] == run[..0]; }
    assert run[..2] == run && run[..2][..1] == run[..1];
    AfterResumes(cfg, run, mid);
  }

  /**
   What the monitor's `stop` does when calls of other tasks came after `should_sleep`: it takes a server for which
   sleep is no longer due out of its state iff that server was started anew meanwhile and `stop` has a way to.
   */
  lemma StopIsStaleIff(cfg: Config, run: seq<Step>, mid: seq<Step>, env: StopEnv, t2: int, t3: int)
    requires Others(mid) && t2 <= t3 && ShouldSleep(cfg, After(cfg, run), t2)
    ensures var s := After(cfg, run + mid);
            StopResult(cfg, s, env, t3).0 != s && !ShouldSleep(cfg, s, t3) <==>
              s.state == Starting && s.pid.Some? && (cfg.freezeProcess || env.signalSent)
  {
    hide After, Changes;
    SleepStaysDue(cfg, run, mid, t2, t3);
    StopMeans(cfg, After(cfg, run + mid), env, t3);
  }

  /** The child goes and a login starts the next one between `should_sleep` and `stop`, which then stops that one. */
  lemma StopsStale() returns (cfg: Config, run: seq<Step>, mid: seq<Step>, env: StopEnv, t2: int, t3: int)
    ensures Chronological(run + mid) && Others(mid) && NoLaterThan(run, t2) && NoLaterThan(run + mid, t3) && t2 <= t3
    ensures ShouldSleep(cfg, After(cfg, run), t2)
    ensures After(cfg, run + mid).state == Starting
    ensures StopResult(cfg, After(cfg, run + mid), env, t3).0.state == Stopping
  {
    cfg, env := Config(300, 150, 60, 60, false, false), StopEnv(true, false, false);
    run, t2, t3 := [At(0, Report(Some(0)))], 60_001, 60_002;
    mid := [At(60_001, SupervisorDone), At(60_001, Start), At(60_002, ChildUp(2))];
    assert After(cfg, run) == Apply(cfg, After(cfg, run[..0]), run[0]);
    AfterResumes(cfg, run, mid);
    var s := After(cfg, run);
    assert Resume(cfg, s, mid[..0]) == s;
    assert mid[..1][..0] == mid[..0] && mid[..2][..1] == mid[..1] && mid[..3][..2] == mid[..2] && mid[..3] == mid;
    assert Resume(cfg, s, mid[..1]) == Apply(cfg, s, mid[0]);
    assert Resume(cfg, s, mid[..2]) == Apply(cfg, Resume(cfg, s, mid[..1]), mid[1]);
    assert Resume(cfg, s, mid[..3]) == Apply(cfg, Resume(cfg, s, mid[..2]), mid[2]);
  }

  // ----- one round -----

  function AtSleepCheck(run: seq<Step>, round: Round): seq<Step> {
    run + [At(round.t1, Report(round.poll))] + round.mid1
  }

  function AtStop(run: seq<Step>, round: Round): seq<Step> {
    AtSleepCheck(run, round) + round.mid2
  }

  function AtKillCheck(run: seq<Step>, round: Round, slept: bool): seq<Step> {
    (if slept then AtStop(run, round) + [At(round.t3, Stop(round.env))] else AtSleepCheck(run, round)) + round.mid3
  }

  /** Time passes through a round, and no other task polls. */
  ghost predicate Timely(run: seq<Step>, round: Round) {
    && Chronological(AtStop(run, round)) && Others(round.mid2)
    && NoLaterThan(AtSleepCheck(run, round), round.t2) && NoLaterThan(AtStop(run, round), round.t3)
    && round.t2 <= round.t3 && round.t4 <= round.t5
  }

  lemma PrefixIsChronological(run: seq<Step>, steps: seq<Step>)
    requires Chronological(run + steps)
    ensures Chronological(run)
  {
    assert forall i :: 0 <= i < |run| ==> (run + steps)[i] == run[i];
  }

  /** The snapshots of a round are those of the run it is part of. */
  lemma RoundIsARun(cfg: Config, run: seq<Step>, round: Round)
    ensures var end := RoundResult(cfg, After(cfg, run), round);
            var atKillCheck := AtKillCheck(run, round, end.slept);
            && end.slept == ShouldSleep(cfg, After(cfg, AtSleepCheck(run, round)), round.t2)
            && end.killing == ShouldKill(After(cfg, atKillCheck), round.t4)
            && end.after == After(cfg, if end.killing then atKillCheck + round.mid4 else atKillCheck)
  {
    hide After, Resume, Reported, StopResult, ShouldSleep, ShouldKill;
    var end := RoundResult(cfg, After(cfg, run), round);
    var polled := run + [At(round.t1, Report(round.poll))];
    var stopped := AtStop(run, round) + [At(round.t3, Stop(round.env))];
    AfterOne(cfg, run, At(round.t1, Report(round.poll)));
    AfterResumes(cfg, polled, round.mid1);
    if end.slept {
      AfterResumes(cfg, AtSleepCheck(run, round), round.mid2);
      AfterOne(cfg, AtStop(run, round), At(round.t3, Stop(round.env)));
      AfterResumes(cfg, stopped, round.mid3);
    } else {
      AfterResumes(cfg, AtSleepCheck(run, round), round.mid3);
    }
    AfterResumes(cfg, AtKillCheck(run, round, end.slept), round.mid4);
  }

  /**
   A monitor round on any reachable server, with any calls of other tasks between its own. It goes to stop the server
   iff the history at that check calls for sleep, and goes to kill iff the history at that check is overdue. When the
   stop and the kill come, both are still due unless another task has changed the state since the check.
   */
  lemma MonitorActsOnHistory(cfg: Config, run: seq<Step>, round: Round)
    requires Timely(run, round)
    ensures var end := RoundResult(cfg, After(cfg, run), round);
            var atKillCheck := AtKillCheck(run, round, end.slept);
            var due := After(cfg, atKillCheck);
            && (end.slept <==> SleepDue(cfg, AtSleepCheck(run, round), round.t2))
            && (end.slept ==>
                  (SleepDue(cfg, AtStop(run, round), round.t3) <==>
                     Changes(cfg, AtStop(run, round)) == Changes(cfg, AtSleepCheck(run, round))))
            && (end.killing <==>
                  && Timeout(cfg, StateOf(cfg, atKillCheck)) > 0 && ChangedAt(cfg, atKillCheck).Some?
                  && round.t4 >= ChangedAt(cfg, atKillCheck).value + 1000 * Timeout(cfg, StateOf(cfg, atKillCheck)))
            && (end.killing ==>
                  && end.after == After(cfg, atKillCheck + round.mid4)
                  && end.target == end.after.pid
                  && (!ShouldKill(end.after, round.t5) ==>
                        Changes(cfg, atKillCheck + round.mid4) > Changes(cfg, atKillCheck)))
            && (!end.killing ==> end.after == due && end.target == None)
  {
    hide After, Resume, Changes, ChangedAt, LastStatus, LastBusy, Apply, RoundResult;
    hide SleepDue, ShouldSleep, AtKillCheck;
    var end := RoundResult(cfg, After(cfg, run), round);
    var atKillCheck := AtKillCheck(run, round, end.slept);
    RoundIsARun(cfg, run, round);
    PrefixIsChronological(AtSleepCheck(run, round), round.mid2);
    SleepsExactlyWhenDue(cfg, AtSleepCheck(run, round), round.t2);
    SleepsExactlyWhenDue(cfg, AtStop(run, round), round.t3);
    if end.slept {
      SleepStaysDue(cfg, AtSleepCheck(run, round), round.mid2, round.t2, round.t3);
    }
    KillsExactlyOverdue(cfg, atKillCheck, round.t4);
    if end.killing {
      KillIsEarlyIff(cfg, atKillCheck, round.mid4, round.t4, round.t5);
    }
    TargetIsRead(cfg, After(cfg, run), round);
  }

  lemma TargetIsRead(cfg: Config, s: Snapshot, round: Round)
    ensures var end := RoundResult(cfg, s, round); end.target == if end.killing then end.after.pid else None
  {
  }
}
