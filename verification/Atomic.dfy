/**
 Who starts the server process (src/server.rs), at the granularity of single atomic operations: every
 load, swap and compare-exchange of the state, and every update of the pid, is a step of its own,
 taken by any of an unbounded number of concurrent tasks. `freeze_process` is off.
 */
module Atomic {
  import opened Base
  import opened Server

  datatype Task =
    // Server::start
    | Starter                                   // about to compare-exchange Stopped with Starting
    | Winner                                    // exchanged, about to spawn the supervisor
    // invoke_server_cmd, the supervisor
    | Launching                                 // about to spawn the child
    | Unrecorded(child: nat)                    // about to store the pid
    | Running(child: nat)                       // waiting for the child
    | Failed(child: nat)                        // the child failed, about to load the state
    | Reaping(child: nat, crashed: bool)        // about to clear the pid
    | Cooling(crashed: bool)                    // about to swap in Stopped
    // Server::update_status
    | PollReader(online: bool)                  // about to load the state
    | PollWriter(to: State)                     // about to swap it
    // Server::stop
    | Stopper                                   // about to load the state
    | RconWriter                                // about to swap in Stopping
    | Signaller                                 // about to read the pid
    | ExchangeStarting                          // about to compare-exchange Starting with Stopping
    | ExchangeStarted                           // about to compare-exchange Started with Stopping
    | Finished

  /** The shared cells, the living child processes, and two counts over the run. */
  datatype Shared = Shared(state: State, pid: Option<nat>, alive: set<nat>, starts: nat, stops: nat)

  /** What the environment decides in a step: success, whether a child exit counts as failure, a new process id. */
  datatype Choice = Choice(ok: bool, failure: bool, child: nat)

  function Store(g: Shared, to: State): Shared {
    g.(state := to, stops := if to == Stopped && g.state != Stopped then g.stops + 1 else g.stops)
  }

  function Exchange(g: Shared, from: State, to: State): Shared {
    if g.state == from then Store(g, to) else g
  }

  /** One step of one task. A task whose child still lives, or that is given a used process id, waits. */
  function RunTask(wakeOnCrash: bool, g: Shared, task: Task, c: Choice): (Shared, Task) {
    match task
    case Starter =>
      if g.state == Stopped then (Exchange(g, Stopped, Starting).(starts := g.starts + 1), Winner) else (g, Finished)
    case Winner => (g, Launching)
    case Launching =>
      if !c.ok then (g, Finished)
      else if c.child in g.alive then (g, task)
      else (g.(alive := g.alive + {c.child}), Unrecorded(c.child))
    case Unrecorded(child) => (g.(pid := Some(child)), Running(child))
    case Running(child) =>
      if child in g.alive then (g, task)
      else (g, if c.failure then Failed(child) else Reaping(child, false))
    case Failed(child) => (g, Reaping(child, g.state == Started))
    case Reaping(_, crashed) => (g.(pid := None), Cooling(crashed))
    case Cooling(crashed) => (Store(g, Stopped), if crashed && wakeOnCrash then Starter else Finished)
    case PollReader(online) =>
      (g, if online && (g.state == Stopped || g.state == Starting) then PollWriter(Started)
          else if !online && g.state == Started then PollWriter(Stopped)
          else Finished)
    case PollWriter(to) => (Store(g, to), Finished)
    case Stopper => (g, if g.state == Started && c.ok then RconWriter else Signaller)
    case RconWriter => (Store(g, Stopping), Finished)
    case Signaller => (g, if g.pid.Some? && c.ok then ExchangeStarting else Finished)
    case ExchangeStarting => (Exchange(g, Starting, Stopping), ExchangeStarted)
    case ExchangeStarted => (Exchange(g, Started, Stopping), Finished)
    case Finished => (g, Finished)
  }

  datatype System = System(g: Shared, tasks: map<nat, Task>)

  const BOOT := System(Shared(Stopped, None, {}, 0, 0), map[])

  /** A new task arrives (a login, the probe, a poll, a stop), a task takes a step, or a child exits. */
  datatype Event = Arrives(id: nat, task: Task) | Steps(id: nat, choice: Choice) | Exits(child: nat)

  function Next(wakeOnCrash: bool, s: System, e: Event): System {
    match e
    case Arrives(id, task) =>
      if id !in s.tasks && (task == Starter || task.PollReader? || task == Stopper)
      then s.(tasks := s.tasks[id := task]) else s
    case Steps(id, choice) =>
      if id in s.tasks then
        var (g, task) := RunTask(wakeOnCrash, s.g, s.tasks[id], choice);
        System(g, s.tasks[id := task])
      else s
    case Exits(child) => s.(g := s.g.(alive := s.g.alive - {child}))
  }

  function Play(wakeOnCrash: bool, s: System, events: seq<Event>): System
    decreases |events|
  {
    if events == [] then s else Play(wakeOnCrash, Next(wakeOnCrash, s, events[0]), events[1..])
  }

  // ----- start exclusivity -----

  /** Successful starts not yet matched by an entry into Stopped. */
  function Debt(g: Shared): int {
    g.starts - g.stops - if g.state == Stopped then 0 else 1
  }

  lemma {:induction false} DebtNeverGrows(wakeOnCrash: bool, s: System, events: seq<Event>)
    ensures Debt(Play(wakeOnCrash, s, events).g) <= Debt(s.g)
    ensures s.g.stops <= Play(wakeOnCrash, s, events).g.stops
    decreases |events|
  {
    if events != [] {
      DebtNeverGrows(wakeOnCrash, Next(wakeOnCrash, s, events[0]), events[1..]);
    }
  }

  /** Over any interleaving, successful starts number at most one more than the entries into Stopped. */
  lemma StartsAreBounded(wakeOnCrash: bool, events: seq<Event>)
    ensures var g := Play(wakeOnCrash, BOOT, events).g;
            g.starts <= g.stops + if g.state == Stopped then 0 else 1
  {
    DebtNeverGrows(wakeOnCrash, BOOT, events);
  }

  /** Between a successful start and the next one, the state entered Stopped. */
  lemma StoppedBetweenStarts(wakeOnCrash: bool, s: System, id: nat, c: Choice, events: seq<Event>)
    requires id in s.tasks && s.tasks[id] == Starter && s.g.state == Stopped
    ensures var won := Next(wakeOnCrash, s, Steps(id, c));
            var later := Play(wakeOnCrash, won, events);
            && won.g.starts == s.g.starts + 1
            && (later.g.starts > won.g.starts ==> later.g.stops > won.g.stops)
  {
    DebtNeverGrows(wakeOnCrash, Next(wakeOnCrash, s, Steps(id, c)), events);
  }

  // ----- single child -----

  /** From a won start until its supervisor has put Stopped back. */
  predicate Outstanding(task: Task) {
    || task.Winner? || task.Launching? || task.Unrecorded?
    || task.Running? || task.Failed? || task.Reaping? || task.Cooling?
  }

  function PidOf(task: Task): Option<nat> {
    match task
    case Running(child) => Some(child)
    case Failed(child) => Some(child)
    case Reaping(child, _) => Some(child)
    case _ => None
  }

  function ChildOf(task: Task): set<nat> {
    match task
    case Unrecorded(child) => {child}
    case Running(child) => {child}
    case _ => {}
  }

  predicate Idle(s: System) {
    forall i :: i in s.tasks ==> !Outstanding(s.tasks[i])
  }

  predicate OneSupervisor(s: System) {
    forall i, j :: i in s.tasks && j in s.tasks && Outstanding(s.tasks[i]) && Outstanding(s.tasks[j]) ==> i == j
  }

  /** At most one supervisor; Stopped means none; the pid and the living child are those of that one. */
  predicate Single(s: System) {
    && OneSupervisor(s)
    && (s.g.state == Stopped ==> Idle(s))
    && (forall i :: i in s.tasks && Outstanding(s.tasks[i]) ==>
          s.g.pid == PidOf(s.tasks[i]) && s.g.alive <= ChildOf(s.tasks[i]))
    && (Idle(s) ==> s.g.pid == None && s.g.alive == {})
  }

  /** The event is not a failed poll overwriting the state with Stopped under an outstanding supervisor. */
  predicate Quiet(s: System, e: Event) {
    e.Steps? && e.id in s.tasks && s.tasks[e.id] == PollWriter(Stopped) ==> Idle(s)
  }

  /** What a step of one task can do to the things `Single` speaks of. */
  lemma TaskEffect(wakeOnCrash: bool, g: Shared, task: Task, c: Choice)
    requires Outstanding(task) ==> g.pid == PidOf(task) && g.alive <= ChildOf(task) && g.state != Stopped
    ensures var (g', task') := RunTask(wakeOnCrash, g, task, c);
            && (Outstanding(task') ==> g'.state != Stopped)
            && (Outstanding(task) && Outstanding(task') ==> g'.pid == PidOf(task') && g'.alive <= ChildOf(task'))
            && (Outstanding(task) && !Outstanding(task') ==> g'.pid == None && g'.alive == {})
            && (!Outstanding(task) ==> g'.pid == g.pid && g'.alive == g.alive && PidOf(task') == None)
            && (!Outstanding(task) && Outstanding(task') ==> g.state == Stopped)
            && (!Outstanding(task) && g'.state == Stopped ==> g.state == Stopped || task == PollWriter(Stopped))
  {
  }

  lemma NextKeepsSingle(wakeOnCrash: bool, s: System, e: Event)
    requires Single(s) && Quiet(s, e)
    ensures Single(Next(wakeOnCrash, s, e))
  {
    hide RunTask, Outstanding, PidOf, ChildOf;
    var s' := Next(wakeOnCrash, s, e);
    if e.Steps? && e.id in s.tasks {
      StepKeepsSingle(wakeOnCrash, s, e.id, e.choice);
    } else if e.Arrives? {
      ArrivalKeepsSingle(wakeOnCrash, s, e.id, e.task);
    }
  }

  lemma ArrivalKeepsSingle(wakeOnCrash: bool, s: System, id: nat, task: Task)
    requires Single(s)
    ensures Single(Next(wakeOnCrash, s, Arrives(id, task)))
  {
    var s' := Next(wakeOnCrash, s, Arrives(id, task));
    assert forall i :: i in s.tasks ==> i in s'.tasks && s'.tasks[i] == s.tasks[i];
    assert forall i :: i in s'.tasks && i !in s.tasks ==> !Outstanding(s'.tasks[i]);
  }

  lemma StepKeepsSingle(wakeOnCrash: bool, s: System, id: nat, c: Choice)
    requires id in s.tasks
    requires Single(s) && Quiet(s, Steps(id, c))
    ensures Single(Next(wakeOnCrash, s, Steps(id, c)))
  {
    hide RunTask, Outstanding, PidOf, ChildOf;
    var task := s.tasks[id];
    TaskEffect(wakeOnCrash, s.g, task, c);
    var s' := Next(wakeOnCrash, s, Steps(id, c));
    assert s'.tasks.Keys == s.tasks.Keys;
    assert forall i :: i in s.tasks && i != id ==> s'.tasks[i] == s.tasks[i];
    if Outstanding(s'.tasks[id]) {
      assert forall i :: i in s.tasks && i != id ==> !Outstanding(s.tasks[i]);
    } else if Outstanding(task) {
      assert Idle(s');
    } else {
      assert Idle(s') ==> Idle(s);
    }
  }

  predicate QuietThroughout(wakeOnCrash: bool, s: System, events: seq<Event>)
    decreases |events|
  {
    events == [] || (Quiet(s, events[0]) && QuietThroughout(wakeOnCrash, Next(wakeOnCrash, s, events[0]), events[1..]))
  }

  predicate SingleThroughout(wakeOnCrash: bool, s: System, events: seq<Event>)
    decreases |events|
  {
    Single(s) && (events == [] || SingleThroughout(wakeOnCrash, Next(wakeOnCrash, s, events[0]), events[1..]))
  }

  /**
   A run keeps all of `Single`, that Stopped means no supervisor included, iff no failed poll writes Stopped while a
   supervisor is outstanding: such a write is what breaks that clause.
   */
  lemma {:induction false} SingleChildIff(wakeOnCrash: bool, s: System, events: seq<Event>)
    requires Single(s)
    ensures SingleThroughout(wakeOnCrash, s, events) <==> QuietThroughout(wakeOnCrash, s, events)
    decreases |events|
  {
    hide RunTask, Single, Quiet;
    if events != [] {
      var s' := Next(wakeOnCrash, s, events[0]);
      if Quiet(s, events[0]) {
        NextKeepsSingle(wakeOnCrash, s, events[0]);
        SingleChildIff(wakeOnCrash, s', events[1..]);
      } else {
        LoudBreaksSingle(wakeOnCrash, s, events[0]);
      }
    }
  }

  lemma LoudBreaksSingle(wakeOnCrash: bool, s: System, e: Event)
    requires !Quiet(s, e)
    ensures !Single(Next(wakeOnCrash, s, e))
  {
    var i :| i in s.tasks && Outstanding(s.tasks[i]);
    var s' := Next(wakeOnCrash, s, e);
    assert i != e.id && s'.tasks[i] == s.tasks[i];
    assert s'.g.state == Stopped;
  }

  /**
   From boot, in a quiet run: at most one child lives, and the pid is that of the one supervisor between storing and
   clearing it.
   */
  lemma SingleChild(wakeOnCrash: bool, events: seq<Event>)
    requires QuietThroughout(wakeOnCrash, BOOT, events)
    ensures var s := Play(wakeOnCrash, BOOT, events);
            && Single(s)
            && (forall a, b :: a in s.g.alive && b in s.g.alive ==> a == b)
            && (forall child :: s.g.pid == Some(child) <==>
                  exists i :: i in s.tasks && PidOf(s.tasks[i]) == Some(child))
  {
    SingleChildIff(wakeOnCrash, BOOT, events);
    LastIsSingle(wakeOnCrash, BOOT, events);
    OneChildLives(Play(wakeOnCrash, BOOT, events));
  }

  lemma {:induction false} LastIsSingle(wakeOnCrash: bool, s: System, events: seq<Event>)
    requires SingleThroughout(wakeOnCrash, s, events)
    ensures Single(Play(wakeOnCrash, s, events))
    decreases |events|
  {
    hide Single;
    if events != [] {
      LastIsSingle(wakeOnCrash, Next(wakeOnCrash, s, events[0]), events[1..]);
    }
  }

  lemma OneChildLives(s: System)
    requires Single(s)
    ensures forall a, b :: a in s.g.alive && b in s.g.alive ==> a == b
    ensures forall child :: s.g.pid == Some(child) <==> exists i :: i in s.tasks && PidOf(s.tasks[i]) == Some(child)
  {
    if !Idle(s) {
      var i :| i in s.tasks && Outstanding(s.tasks[i]);
      assert s.g.pid == PidOf(s.tasks[i]);
    }
    forall i, child | i in s.tasks && PidOf(s.tasks[i]) == Some(child) ensures s.g.pid == Some(child) {
      assert Outstanding(s.tasks[i]);
    }
  }

  /** A supervisor that still owns the pid of a child that has exited. */
  predicate Outlives(task: Task, child: nat, alive: set<nat>) {
    || task == Failed(child)
    || (task.Reaping? && task.child == child)
    || (task == Running(child) && child !in alive)
  }

  /**
   From boot, in a quiet run: the pid names a process that does not live iff the supervisor that owns it has seen
   its child fail, is about to clear the pid, or has not yet noticed the exit.
   */
  lemma StalePidIff(wakeOnCrash: bool, events: seq<Event>, child: nat)
    requires QuietThroughout(wakeOnCrash, BOOT, events)
    ensures var s := Play(wakeOnCrash, BOOT, events);
            s.g.pid == Some(child) && child !in s.g.alive <==>
              exists i :: i in s.tasks && Outlives(s.tasks[i], child, s.g.alive)
  {
    hide Single, QuietThroughout, Play;
    SingleChild(wakeOnCrash, events);
    OwnerKnows(Play(wakeOnCrash, BOOT, events), child);
  }

  lemma OwnerKnows(s: System, child: nat)
    requires Single(s)
    requires s.g.pid == Some(child) <==> exists i :: i in s.tasks && PidOf(s.tasks[i]) == Some(child)
    ensures s.g.pid == Some(child) && child !in s.g.alive <==>
              exists i :: i in s.tasks && Outlives(s.tasks[i], child, s.g.alive)
  {
    if s.g.pid == Some(child) && child !in s.g.alive {
      var i :| i in s.tasks && PidOf(s.tasks[i]) == Some(child);
      assert Outlives(s.tasks[i], child, s.g.alive);
    }
    forall i | i in s.tasks && Outlives(s.tasks[i], child, s.g.alive)
      ensures s.g.pid == Some(child) && child !in s.g.alive
    {
      assert Outstanding(s.tasks[i]) && PidOf(s.tasks[i]) == Some(child);
    }
  }

  // ----- exactly when there is a second supervisor -----

  predicate OneThroughout(wakeOnCrash: bool, s: System, events: seq<Event>)
    decreases |events|
  {
    && OneSupervisor(s)
    && (events == [] || OneThroughout(wakeOnCrash, Next(wakeOnCrash, s, events[0]), events[1..]))
  }

  /** A start is won although the supervisor of an earlier one is still outstanding. */
  predicate WinsTwice(s: System, e: Event) {
    e.Steps? && e.id in s.tasks && s.tasks[e.id] == Starter && s.g.state == Stopped && !Idle(s)
  }

  predicate NeverWinsTwice(wakeOnCrash: bool, s: System, events: seq<Event>)
    decreases |events|
  {
    || events == []
    || (!WinsTwice(s, events[0]) && NeverWinsTwice(wakeOnCrash, Next(wakeOnCrash, s, events[0]), events[1..]))
  }

  lemma NextKeepsOne(wakeOnCrash: bool, s: System, e: Event)
    requires OneSupervisor(s)
    ensures OneSupervisor(Next(wakeOnCrash, s, e)) <==> !WinsTwice(s, e)
  {
    hide RunTask, Outstanding;
    var s' := Next(wakeOnCrash, s, e);
    if e.Steps? && e.id in s.tasks {
      Enters(wakeOnCrash, s.g, s.tasks[e.id], e.choice);
      assert forall i :: i in s.tasks && i != e.id ==> i in s'.tasks && s'.tasks[i] == s.tasks[i];
      assert e.id in s'.tasks;
    } else if e.Arrives? {
      NotYet();
      assert forall i :: i in s.tasks ==> i in s'.tasks && s'.tasks[i] == s.tasks[i];
    }
  }

  lemma NotYet()
    ensures !Outstanding(Starter) && !Outstanding(Stopper) && forall online :: !Outstanding(PollReader(online))
  {
  }

  lemma Enters(wakeOnCrash: bool, g: Shared, task: Task, c: Choice)
    ensures !Outstanding(task) ==>
              (Outstanding(RunTask(wakeOnCrash, g, task, c).1) <==> task == Starter && g.state == Stopped)
    ensures !Outstanding(Starter)
  {
  }

  /** A run has at most one supervisor at every point iff in it no start is won under an outstanding one. */
  lemma {:induction false} OneSupervisorIff(wakeOnCrash: bool, s: System, events: seq<Event>)
    requires OneSupervisor(s)
    ensures OneThroughout(wakeOnCrash, s, events) <==> NeverWinsTwice(wakeOnCrash, s, events)
    decreases |events|
  {
    hide RunTask, OneSupervisor, WinsTwice, Next;
    if events != [] {
      NextKeepsOne(wakeOnCrash, s, events[0]);
      var s' := Next(wakeOnCrash, s, events[0]);
      if OneSupervisor(s') {
        OneSupervisorIff(wakeOnCrash, s', events[1..]);
      }
    }
  }

  /** Such a win comes only after a failed poll has written Stopped under an outstanding supervisor. */
  lemma SecondWinNeedsLoudPoll(wakeOnCrash: bool, events: seq<Event>, e: Event)
    requires WinsTwice(Play(wakeOnCrash, BOOT, events), e)
    ensures !QuietThroughout(wakeOnCrash, BOOT, events)
  {
    if QuietThroughout(wakeOnCrash, BOOT, events) {
      SingleChild(wakeOnCrash, events);
    }
  }

  /** ... and after any such write, wherever it comes, the next login wins and is the second. */
  lemma LoudPollAdmitsSecond(wakeOnCrash: bool, s: System, e: Event, id: nat, c: Choice)
    requires !Quiet(s, e) && id !in s.tasks
    ensures var s' := Next(wakeOnCrash, Next(wakeOnCrash, s, e), Arrives(id, Starter));
            WinsTwice(s', Steps(id, c)) && !OneSupervisor(Next(wakeOnCrash, s', Steps(id, c)))
  {
    var i :| i in s.tasks && Outstanding(s.tasks[i]);
    var s1 := Next(wakeOnCrash, s, e);
    var s2 := Next(wakeOnCrash, s1, Arrives(id, Starter));
    var s3 := Next(wakeOnCrash, s2, Steps(id, c));
    assert i != e.id && i != id && s3.tasks[i] == s2.tasks[i] == s1.tasks[i] == s.tasks[i];
    assert s3.tasks[id] == Winner;
  }

  // ----- the condition is needed -----

  lemma {:induction false} PlayTwice(wakeOnCrash: bool, s: System, a: seq<Event>, b: seq<Event>)
    ensures Play(wakeOnCrash, s, a + b) == Play(wakeOnCrash, Play(wakeOnCrash, s, a), b)
    decreases |a|
  {
    hide Next;
    if a == [] {
      assert a + b == b;
    } else {
      assert (a + b)[1..] == a[1..] + b;
      PlayTwice(wakeOnCrash, Next(wakeOnCrash, s, a[0]), a[1..], b);
    }
  }

  /** `n` steps of one task, all with the same choice. */
  function Solo(wakeOnCrash: bool, g: Shared, task: Task, c: Choice, n: nat): (Shared, Task)
    decreases n
  {
    if n == 0 then (g, task)
    else
      var (g', task') := RunTask(wakeOnCrash, g, task, c);
      Solo(wakeOnCrash, g', task', c, n - 1)
  }

  lemma {:induction false} RunsAlone(s: System, id: nat, c: Choice, n: nat) returns (events: seq<Event>)
    requires id in s.tasks
    ensures var (g, task) := Solo(false, s.g, s.tasks[id], c, n);
            Play(false, s, events) == System(g, s.tasks[id := task])
    ensures forall e :: e in events ==> e == Steps(id, c)
    decreases n
  {
    hide RunTask;
    if n == 0 {
      assert s.tasks[id := s.tasks[id]] == s.tasks;
      return [];
    }
    var s' := Next(false, s, Steps(id, c));
    var rest := RunsAlone(s', id, c, n - 1);
    events := [Steps(id, c)] + rest;
    var end := Solo(false, s.g, s.tasks[id], c, n).1;
    assert s'.tasks[id := end] == s.tasks[id := end];
  }

  /** A task that arrives at `s` can take its steps with nothing in between. */
  lemma ArrivesAndRuns(s: System, id: nat, task: Task, c: Choice, n: nat) returns (events: seq<Event>)
    requires id !in s.tasks && (task == Starter || task.PollReader? || task == Stopper)
    ensures var (g, task') := Solo(false, s.g, task, c, n);
            Play(false, s, events) == System(g, s.tasks[id := task'])
    ensures forall e :: e in events ==> e == Arrives(id, task) || e == Steps(id, c)
  {
    hide RunTask, Solo;
    var s' := Next(false, s, Arrives(id, task));
    var rest := RunsAlone(s', id, c, n);
    events := [Arrives(id, task)] + rest;
    var end := Solo(false, s.g, task, c, n).1;
    assert s'.tasks[id := end] == s.tasks[id := end];
  }

  function Go(child: nat): Choice {
    Choice(true, false, child)
  }

  lemma StarterRuns(g: Shared, child: nat)
    requires g.state == Stopped && child !in g.alive
    ensures Solo(false, g, Starter, Go(child), 3)
         == (g.(state := Starting, starts := g.starts + 1, alive := g.alive + {child}), Unrecorded(child))
  {
    var g1 := g.(state := Starting, starts := g.starts + 1);
    assert Solo(false, g1, Launching, Go(child), 1) == (g1.(alive := g.alive + {child}), Unrecorded(child)) by {
      assert Solo(false, g1.(alive := g.alive + {child}), Unrecorded(child), Go(child), 0).0.state == Starting;
    }
    assert Solo(false, g1, Winner, Go(child), 2) == Solo(false, g1, Launching, Go(child), 1);
  }

  lemma PollRuns(g: Shared, online: bool, child: nat)
    requires g.state == if online then Starting else Started
    ensures Solo(false, g, PollReader(online), Go(child), 2)
         == (Store(g, if online then Started else Stopped), Finished)
  {
    var to := if online then Started else Stopped;
    assert Solo(false, g, PollWriter(to), Go(child), 1) == Solo(false, Store(g, to), Finished, Go(child), 0);
  }

  /** A child that cannot be spawned leaves the server in Starting, with no supervisor, where every login loses. */
  lemma FailedSpawnBlocks(wakeOnCrash: bool, g: Shared, c: Choice)
    requires g.state == Stopped && !c.ok
    ensures var g' := g.(state := Starting, starts := g.starts + 1);
            && Solo(wakeOnCrash, g, Starter, c, 3) == (g', Finished)
            && forall c': Choice :: Solo(wakeOnCrash, g', Starter, c', 1) == (g', Finished)
  {
    var g' := g.(state := Starting, starts := g.starts + 1);
    assert Solo(wakeOnCrash, g', Launching, c, 1) == Solo(wakeOnCrash, g', Finished, c, 0);
    assert Solo(wakeOnCrash, g', Winner, c, 2) == Solo(wakeOnCrash, g', Launching, c, 1);
    forall c': Choice ensures Solo(wakeOnCrash, g', Starter, c', 1) == (g', Finished) {
      assert Solo(wakeOnCrash, g', Starter, c', 1) == Solo(wakeOnCrash, g', Finished, c', 0);
    }
  }

  /** The state told of a server whose shared cells are these. */
  function StateTold(cfg: Config, g: Shared, call: Call): State {
    Told(cfg, Story(g.state, g.pid, None), At(0, call)).state
  }

  /**
   The atomic steps of a start, a poll and the end of a supervisor, taken with nothing in between, are the one call that
   the lifecycle is told in.
   */
  lemma UndisturbedIsOneCall(cfg: Config, wakeOnCrash: bool, g: Shared, c: Choice, online: bool, crashed: bool)
    ensures Solo(wakeOnCrash, g, Starter, c, 1).0.state == StateTold(cfg, g, Start)
    ensures Solo(wakeOnCrash, g, PollReader(online), c, 2).0.state
         == StateTold(cfg, g, Report(if online then Some(0) else None))
    ensures Solo(wakeOnCrash, g, Cooling(crashed), c, 1).0.state == StateTold(cfg, g, SupervisorDone)
  {
    var (g1, t1) := RunTask(wakeOnCrash, g, Starter, c);
    assert Solo(wakeOnCrash, g, Starter, c, 1) == Solo(wakeOnCrash, g1, t1, c, 0);
    var (_, t2) := RunTask(wakeOnCrash, g, PollReader(online), c);
    var (g3, t3) := RunTask(wakeOnCrash, g, t2, c);
    assert Solo(wakeOnCrash, g, PollReader(online), c, 2) == Solo(wakeOnCrash, g, t2, c, 1)
        == Solo(wakeOnCrash, g3, t3, c, 0);
    var (g4, t4) := RunTask(wakeOnCrash, g, Cooling(crashed), c);
    assert Solo(wakeOnCrash, g, Cooling(crashed), c, 1) == Solo(wakeOnCrash, g4, t4, c, 0);
  }

  /** So are those of a stop, by RCON or else by a signal, which touch neither the pid nor the child. */
  lemma UndisturbedStop(cfg: Config, wakeOnCrash: bool, g: Shared, rcon: Choice, signal: Choice)
    requires !cfg.freezeProcess && cfg.rconEnabled
    ensures var (_, chosen) := RunTask(wakeOnCrash, g, Stopper, rcon);
            var (g', end) := Solo(wakeOnCrash, g, chosen, signal, 3);
            && end == Finished
            && g'.state == StateTold(cfg, g, Stop(StopEnv(signal.ok, true, rcon.ok)))
            && g'.pid == g.pid && g'.alive == g.alive && g'.starts == g.starts
  {
    var (_, t1) := RunTask(wakeOnCrash, g, Stopper, rcon);
    var (g2, t2) := RunTask(wakeOnCrash, g, t1, signal);
    var (g3, t3) := RunTask(wakeOnCrash, g2, t2, signal);
    var (g4, t4) := RunTask(wakeOnCrash, g3, t3, signal);
    ThreeSteps(wakeOnCrash, g, t1, signal);
    assert Solo(wakeOnCrash, g, t1, signal, 3) == (g4, t4);
  }

  lemma ThreeSteps(wakeOnCrash: bool, g: Shared, task: Task, c: Choice)
    ensures var (g1, t1) := RunTask(wakeOnCrash, g, task, c);
            var (g2, t2) := RunTask(wakeOnCrash, g1, t1, c);
            Solo(wakeOnCrash, g, task, c, 3) == RunTask(wakeOnCrash, g2, t2, c)
  {
    hide RunTask;
    var (g1, t1) := RunTask(wakeOnCrash, g, task, c);
    var (g2, t2) := RunTask(wakeOnCrash, g1, t1, c);
    assert Solo(wakeOnCrash, g, task, c, 3) == Solo(wakeOnCrash, g1, t1, c, 2) == Solo(wakeOnCrash, g2, t2, c, 1);
    var (g3, t3) := RunTask(wakeOnCrash, g2, t2, c);
    assert Solo(wakeOnCrash, g2, t2, c, 1) == Solo(wakeOnCrash, g3, t3, c, 0);
  }

  /**
   A supervisor whose child has exited clears the pid and puts Stopped back; it goes on to start the
   server again exactly when that is configured, the exit was a failure, and the server was Started.
   */
  lemma SupervisorEnds(wakeOnCrash: bool, g: Shared, child: nat, c: Choice)
    requires child !in g.alive
    ensures Solo(wakeOnCrash, g, Running(child), c, if c.failure then 4 else 3)
         == (Store(g.(pid := None), Stopped),
             if wakeOnCrash && c.failure && g.state == Started then Starter else Finished)
  {
    var crashed := c.failure && g.state == Started;
    var g1 := g.(pid := None);
    var last := if wakeOnCrash && crashed then Starter else Finished;
    assert Solo(wakeOnCrash, g1, Cooling(crashed), c, 1) == Solo(wakeOnCrash, Store(g1, Stopped), last, c, 0);
    assert Solo(wakeOnCrash, g, Reaping(child, crashed), c, 2) == Solo(wakeOnCrash, g1, Cooling(crashed), c, 1);
    if c.failure {
      assert Solo(wakeOnCrash, g, Failed(child), c, 3) == Solo(wakeOnCrash, g, Reaping(child, crashed), c, 2);
    }
  }

  /** A failed poll of a running server lets the next login start a second child beside the first. */
  lemma LoudRunsStartTwice() returns (events: seq<Event>)
    ensures Play(false, BOOT, events).g.alive == {100, 101}
    ensures !QuietThroughout(false, BOOT, events)
  {
    hide Solo, RunTask, Next;
    StarterRuns(BOOT.g, 100);
    var e1 := ArrivesAndRuns(BOOT, 1, Starter, Go(100), 3);
    var s1 := Play(false, BOOT, e1);
    PollRuns(s1.g, true, 100);
    var e2 := ArrivesAndRuns(s1, 2, PollReader(true), Go(100), 2);
    var s2 := Play(false, s1, e2);
    PollRuns(s2.g, false, 100);
    var e3 := ArrivesAndRuns(s2, 3, PollReader(false), Go(100), 2);
    var s3 := Play(false, s2, e3);
    StarterRuns(s3.g, 101);
    var e4 := ArrivesAndRuns(s3, 4, Starter, Go(101), 3);
    PlayTwice(false, BOOT, e1, e2);
    PlayTwice(false, BOOT, e1 + e2, e3);
    PlayTwice(false, BOOT, e1 + e2 + e3, e4);
    events := e1 + e2 + e3 + e4;
    assert 100 in Play(false, BOOT, events).g.alive && 101 in Play(false, BOOT, events).g.alive;
    if QuietThroughout(false, BOOT, events) {
      SingleChild(false, events);
    }
  }

  predicate NoFailedPolls(s: System) {
    forall i :: i in s.tasks ==> s.tasks[i] != PollReader(false) && s.tasks[i] != PollWriter(Stopped)
  }

  lemma {:induction false} AnsweredPollsAreQuiet(wakeOnCrash: bool, s: System, events: seq<Event>)
    requires NoFailedPolls(s) && forall e :: e in events && e.Arrives? ==> e.task != PollReader(false)
    ensures QuietThroughout(wakeOnCrash, s, events)
    decreases |events|
  {
    if events != [] {
      assert events[0] in events;
      AnsweredPollsAreQuiet(wakeOnCrash, Next(wakeOnCrash, s, events[0]), events[1..]);
    }
  }

  /** Even in a quiet run the pid can name a child that has exited: it is cleared a step after the exit. */
  lemma PidCanOutliveItsChild() returns (events: seq<Event>)
    ensures QuietThroughout(false, BOOT, events)
    ensures var g := Play(false, BOOT, events).g;
            g.pid == Some(100) && g.alive == {}
  {
    hide Solo, QuietThroughout;
    StarterRuns(BOOT.g, 100);
    var e1 := ArrivesAndRuns(BOOT, 1, Starter, Go(100), 3);
    var s1 := Play(false, BOOT, e1);
    var e2 := [Steps(1, Go(100)), Exits(100)];
    assert e2[1..] == [Exits(100)] && [Exits(100)][1..] == [];
    PlayTwice(false, BOOT, e1, e2);
    events := e1 + e2;
    AnsweredPollsAreQuiet(false, BOOT, events);
  }

  // ----- a state nothing leads out of -----

  /** Stopping, with no supervisor left to report the end, and no poll about to write. */
  predicate Dead(s: System) {
    && s.g.state == Stopping && s.g.pid == None
    && forall i :: i in s.tasks ==> !Outstanding(s.tasks[i]) && !s.tasks[i].PollWriter?
  }

  lemma NextKeepsDead(wakeOnCrash: bool, s: System, e: Event)
    requires Dead(s)
    ensures Dead(Next(wakeOnCrash, s, e)) && Next(wakeOnCrash, s, e).g.starts == s.g.starts
  {
  }

  /** Whatever tasks come, in any order: the server stays in Stopping and no start ever succeeds. */
  lemma {:induction false} DeadForGood(wakeOnCrash: bool, s: System, events: seq<Event>)
    requires Dead(s)
    ensures Dead(Play(wakeOnCrash, s, events)) && Play(wakeOnCrash, s, events).g.starts == s.g.starts
    decreases |events|
  {
    hide Dead, Next;
    if events != [] {
      NextKeepsDead(wakeOnCrash, s, events[0]);
      DeadForGood(wakeOnCrash, Next(wakeOnCrash, s, events[0]), events[1..]);
    }
  }

  /**
   A stop that went out by RCON, and a poll that has read the state, write over whatever it has become meanwhile; a stop
   by signal changes it only from the state each exchange names.
   */
  lemma SwapsOverwrite(wakeOnCrash: bool, g: Shared, to: State, c: Choice)
    ensures Solo(wakeOnCrash, g, RconWriter, c, 1) == (g.(state := Stopping), Finished)
    ensures Solo(wakeOnCrash, g, PollWriter(to), c, 1).0.state == to
    ensures Solo(wakeOnCrash, g, ExchangeStarting, c, 1).0 == if g.state == Starting then g.(state := Stopping) else g
    ensures Solo(wakeOnCrash, g, ExchangeStarted, c, 1).0 == if g.state == Started then g.(state := Stopping) else g
  {
    assert Solo(wakeOnCrash, g, RconWriter, c, 1) == Solo(wakeOnCrash, Store(g, Stopping), Finished, c, 0);
    assert Solo(wakeOnCrash, g, PollWriter(to), c, 1) == Solo(wakeOnCrash, Store(g, to), Finished, c, 0);
    var (g1, t1) := RunTask(wakeOnCrash, g, ExchangeStarting, c);
    assert Solo(wakeOnCrash, g, ExchangeStarting, c, 1) == Solo(wakeOnCrash, g1, t1, c, 0);
    var (g2, t2) := RunTask(wakeOnCrash, g, ExchangeStarted, c);
    assert Solo(wakeOnCrash, g, ExchangeStarted, c, 1) == Solo(wakeOnCrash, g2, t2, c, 0);
  }

  /** So a run without failed polls can end there: the child is gone and Stopped restored before the late write. */
  lemma LateRconStopIsDead() returns (events: seq<Event>)
    ensures QuietThroughout(false, BOOT, events)
    ensures Dead(Play(false, BOOT, events))
  {
    hide Solo, RunTask, Next, QuietThroughout, Play;
    var e1 := StartsServer();
    var s1 := Play(false, BOOT, e1);
    StopperReads(s1.g, Go(100));
    var e2 := ArrivesAndRuns(s1, 3, Stopper, Go(100), 1);
    var s2 := Play(false, s1, e2);
    ChildExits(s2, 100);
    var s3 := Next(false, s2, Exits(100));
    SupervisorEnds(false, s3.g, 100, Go(100));
    var e3 := RunsAlone(s3, 1, Go(100), 3);
    var s4 := Play(false, s3, e3);
    SwapsOverwrite(false, s4.g, Stopped, Go(100));
    var e4 := RunsAlone(s4, 3, Go(100), 1);
    PlayOne(s2, Exits(100), e3);
    PlayTwice(false, BOOT, e1, e2);
    PlayTwice(false, BOOT, e1 + e2, [Exits(100)] + e3);
    PlayTwice(false, BOOT, e1 + e2 + ([Exits(100)] + e3), e4);
    events := e1 + e2 + ([Exits(100)] + e3) + e4;
    AnsweredPollsAreQuiet(false, BOOT, events);
    AllEnded(Play(false, BOOT, events));
  }

  lemma StopperReads(g: Shared, c: Choice)
    requires g.state == Started && c.ok
    ensures Solo(false, g, Stopper, c, 1) == (g, RconWriter)
  {
    assert Solo(false, g, Stopper, c, 1) == Solo(false, g, RconWriter, c, 0);
  }

  lemma ChildExits(s: System, child: nat)
    ensures Next(false, s, Exits(child)) == s.(g := s.g.(alive := s.g.alive - {child}))
  {
  }

  lemma PlayOne(s: System, e: Event, events: seq<Event>)
    ensures Play(false, s, [e] + events) == Play(false, Next(false, s, e), events)
  {
    assert ([e] + events)[1..] == events;
  }

  lemma AllEnded(s: System)
    requires s.g.state == Stopping && s.g.pid == None
    requires forall i :: i in s.tasks ==> s.tasks[i] == Finished
    ensures Dead(s)
  {
  }

  /** A login starts the server, its child is recorded, and a poll finds it online. */
  lemma StartsServer() returns (events: seq<Event>)
    ensures forall e :: e in events && e.Arrives? ==> e.task != PollReader(false)
    ensures var s := Play(false, BOOT, events);
            && s.tasks == map[1 := Running(100), 2 := Finished]
            && s.g.state == Started && s.g.alive == {100}
  {
    hide Solo, RunTask, Next, Play;
    StarterRuns(BOOT.g, 100);
    var e1 := ArrivesAndRuns(BOOT, 1, Starter, Go(100), 3);
    var s1 := Play(false, BOOT, e1);
    Records(s1.g, 100);
    var e2 := RunsAlone(s1, 1, Go(100), 1);
    var s2 := Play(false, s1, e2);
    PollRuns(s2.g, true, 100);
    var e3 := ArrivesAndRuns(s2, 2, PollReader(true), Go(100), 2);
    PlayTwice(false, BOOT, e1, e2);
    PlayTwice(false, BOOT, e1 + e2, e3);
    events := e1 + e2 + e3;
  }

  lemma Records(g: Shared, child: nat)
    ensures Solo(false, g, Unrecorded(child), Go(child), 1) == (g.(pid := Some(child)), Running(child))
  {
    assert Solo(false, g, Unrecorded(child), Go(child), 1)
        == Solo(false, g.(pid := Some(child)), Running(child), Go(child), 0);
  }
}
