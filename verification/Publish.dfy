/**
 The two steps in which a change of state is published (src/server.rs): the compare-exchange or swap of the state, and
 the send on the watch channel after it. Any number of tasks change the state, and a task sends before its next change,
 but nothing orders the sends of different tasks.
 */
module Publish {
  import opened Base
  import opened Server
  import opened Watch

  /** A change some task has made and not sent yet: its place among all changes, and its value. */
  datatype Unsent = Unsent(change: nat, to: State)

  /** The state and the channel, with the history: every change in order, and which of them were sent, in order. */
  datatype Cells = Cells(state: State, watch: State, version: nat, unsent: map<nat, Unsent>,
                         changes: seq<State>, sends: seq<nat>)

  const QUIET := Cells(Stopped, Stopped, 0, map[], [], [])

  /** A task tries a change, a task sends the change it made, or the waiter takes a step. */
  datatype Move = Swaps(task: nat, from: Option<State>, to: State) | Sends(task: nat) | Waits

  datatype Hall = Hall(cells: Cells, waiter: Waiter)

  function ChangeState(c: Cells, task: nat, from: Option<State>, to: State): Cells {
    if task in c.unsent || (from.Some? && from.value != c.state) || c.state == to then c
    else c.(state := to, changes := c.changes + [to], unsent := c.unsent[task := Unsent(|c.changes|, to)])
  }

  function SendChange(c: Cells, task: nat): Cells {
    if task !in c.unsent then c
    else c.(watch := c.unsent[task].to, version := c.version + 1, sends := c.sends + [c.unsent[task].change],
            unsent := c.unsent - {task})
  }

  function Take(h: Hall, m: Move): Hall {
    match m
    case Swaps(task, from, to) => h.(cells := ChangeState(h.cells, task, from, to))
    case Sends(task) => h.(cells := SendChange(h.cells, task))
    case Waits => h.(waiter := WaiterRuns(h.cells.watch, h.cells.version, h.waiter))
  }

  function TakeAll(h: Hall, moves: seq<Move>): Hall
    decreases |moves|
  {
    if moves == [] then h else TakeAll(Take(h, moves[0]), moves[1..])
  }

  /** With nothing in between, a change and its send are what one call of `update_state_from` does. */
  lemma UndisturbedIsOneCall(cfg: Config, s: Snapshot, c: Cells, task: nat, from: Option<State>, to: State, now: int)
    requires c.unsent == map[] && c.state == s.state && c.watch == s.watch && c.version == s.version
    ensures var c', s' := SendChange(ChangeState(c, task, from, to), task), UpdateFrom(cfg, s, from, to, now).0;
            c'.state == s'.state && c'.watch == s'.watch && c'.version == s'.version && c'.unsent == map[]
  {
  }

  // ----- what every run keeps -----

  /** The state is the change made last, the channel shows the one sent last, and each is sent or about to be. */
  ghost predicate Recorded(c: Cells) {
    && c.state == (if c.changes == [] then Stopped else c.changes[|c.changes| - 1])
    && c.version == |c.sends|
    && (forall i :: 0 <= i < |c.sends| ==> c.sends[i] < |c.changes|)
    && c.watch == (if c.sends == [] then Stopped else c.changes[c.sends[|c.sends| - 1]])
    && (forall t :: t in c.unsent ==>
          c.unsent[t].change < |c.changes| && c.unsent[t].to == c.changes[c.unsent[t].change])
    && (forall n :: 0 <= n < |c.changes| ==> n in c.sends || Awaits(c, n))
  }

  ghost predicate Awaits(c: Cells, n: nat) {
    exists t :: t in c.unsent && c.unsent[t].change == n
  }

  lemma ChangeIsRecorded(c: Cells, task: nat, from: Option<State>, to: State)
    requires Recorded(c)
    ensures Recorded(ChangeState(c, task, from, to))
  {
    var c' := ChangeState(c, task, from, to);
    if c' != c {
      assert c'.unsent[task].change == |c.changes|;
      forall n | 0 <= n < |c'.changes| ensures n in c'.sends || Awaits(c', n) {
        if n < |c.changes| && n !in c.sends {
          var t :| t in c.unsent && c.unsent[t].change == n;
          assert t in c'.unsent && c'.unsent[t] == c.unsent[t];
        }
      }
    }
  }

  lemma SendIsRecorded(c: Cells, task: nat)
    requires Recorded(c)
    ensures Recorded(SendChange(c, task))
  {
    var c' := SendChange(c, task);
    if task in c.unsent {
      assert forall i :: 0 <= i < |c.sends| ==> c'.sends[i] == c.sends[i];
      assert c'.sends[|c.sends|] == c.unsent[task].change;
      forall n | 0 <= n < |c'.changes| ensures n in c'.sends || Awaits(c', n) {
        if n !in c.sends {
          var t :| t in c.unsent && c.unsent[t].change == n;
          if t != task {
            assert t in c'.unsent && c'.unsent[t] == c.unsent[t];
          }
        }
      }
    }
  }

  /** A waiter that waits has looked at what the channel shows, unless nothing was ever sent. */
  ghost predicate Attentive(h: Hall) {
    && h.waiter.seen <= h.cells.version
    && (Blocked(h.cells.version, h.waiter) && h.cells.version > 0 ==> h.cells.watch == Starting)
  }

  lemma {:induction false} AllIsRecorded(h: Hall, moves: seq<Move>)
    requires Recorded(h.cells) && Attentive(h)
    ensures Recorded(TakeAll(h, moves).cells) && Attentive(TakeAll(h, moves))
    ensures |TakeAll(h, moves).cells.changes| >= |h.cells.changes|
    decreases |moves|
  {
    hide Recorded, Blocked;
    if moves != [] {
      match moves[0] {
        case Swaps(task, from, to) => ChangeIsRecorded(h.cells, task, from, to);
        case Sends(task) => SendIsRecorded(h.cells, task);
        case Waits =>
      }
      StaysAttentive(h, moves[0]);
      AllIsRecorded(Take(h, moves[0]), moves[1..]);
    }
  }

  lemma StaysAttentive(h: Hall, m: Move)
    requires Attentive(h)
    ensures Attentive(Take(h, m))
    ensures |Take(h, m).cells.changes| >= |h.cells.changes|
  {
  }

  // ----- when the wake-up comes -----

  /** A waiter that arrives after `before`, and what happens from then on. */
  function Visit(before: seq<Move>, moves: seq<Move>): Hall {
    TakeAll(Hall(TakeAll(Hall(QUIET, ARRIVED), before).cells, ARRIVED), moves)
  }

  lemma VisitIsRecorded(before: seq<Move>, moves: seq<Move>)
    ensures Recorded(Visit(before, moves).cells) && Attentive(Visit(before, moves))
    ensures |Visit(before, moves).cells.changes| >= |Visit(before, []).cells.changes|
  {
    hide Recorded;
    assert Recorded(QUIET) by { NothingRecorded(); }
    AllIsRecorded(Hall(QUIET, ARRIVED), before);
    AllIsRecorded(Hall(TakeAll(Hall(QUIET, ARRIVED), before).cells, ARRIVED), moves);
  }

  lemma NothingRecorded()
    ensures Recorded(QUIET)
  {
  }

  /** The sends happened in the order of the changes. */
  predicate InOrder(sends: seq<nat>) {
    forall i, j :: 0 <= i < j < |sends| ==> sends[i] < sends[j]
  }

  /** The send made last is of a Starting, and a change to another state, made later, had been sent before it. */
  predicate LateStarting(c: Cells) {
    && c.sends != [] && c.sends[|c.sends| - 1] < |c.changes|
    && c.changes[c.sends[|c.sends| - 1]] == Starting
    && c.changes[|c.changes| - 1] != Starting
  }

  lemma AllSentInOrder(c: Cells)
    requires Recorded(c) && c.unsent == map[] && c.changes != []
    ensures c.sends != [] && (|c.changes| - 1) in c.sends
    ensures InOrder(c.sends) ==> c.watch == c.state
  {
    var last := |c.changes| - 1;
    assert !Awaits(c, last);
    var i :| 0 <= i < |c.sends| && c.sends[i] == last;
    assert InOrder(c.sends) ==> i == |c.sends| - 1;
  }

  /**
   With the two steps apart, no wake-up is lost as long as sends keep to the order of the changes: a waiter that arrives
   once the state has changed and is blocked out of Starting is still to be sent a change.
   */
  lemma WakeUpStillComes(before: seq<Move>, moves: seq<Move>)
    requires Visit(before, []).cells.changes != []
    ensures var h := Visit(before, moves);
            InOrder(h.cells.sends) && Blocked(h.cells.version, h.waiter) && h.cells.state != Starting ==>
              h.cells.unsent != map[]
  {
    hide Visit;
    VisitIsRecorded(before, moves);
    var h := Visit(before, moves);
    if h.cells.unsent == map[] {
      AllSentInOrder(h.cells);
    }
  }

  /**
   Exactly when a waiter is stranded: with every change sent, a waiter that is not done, given its turns, ends up
   blocked although the server is out of Starting iff a Starting was sent after a later change.
   */
  lemma StrandedIff(before: seq<Move>, moves: seq<Move>)
    requires Visit(before, []).cells.changes != []
    requires var h := Visit(before, moves); h.cells.unsent == map[] && !h.waiter.at.Done?
    ensures var h := Visit(before, moves);
            var end := TakeAll(h, [Waits, Waits, Waits]);
            && end.cells == h.cells
            && (Blocked(end.cells.version, end.waiter) && end.cells.state != Starting <==> LateStarting(h.cells))
  {
    hide Visit;
    VisitIsRecorded(before, moves);
    var h := Visit(before, moves);
    AllSentInOrder(h.cells);
    ThreeTurns(h);
  }

  lemma ThreeTurns(h: Hall)
    ensures var w := WaiterRuns(h.cells.watch, h.cells.version, h.waiter);
            var w' := WaiterRuns(h.cells.watch, h.cells.version, w);
            TakeAll(h, [Waits, Waits, Waits]) == Hall(h.cells, WaiterRuns(h.cells.watch, h.cells.version, w'))
  {
    hide WaiterRuns;
    var h1 := Take(h, Waits);
    var h2 := Take(h1, Waits);
    assert [Waits, Waits, Waits][1..] == [Waits, Waits] && [Waits, Waits][1..] == [Waits] && [Waits][1..] == [];
    assert TakeAll(h, [Waits, Waits, Waits]) == TakeAll(h1, [Waits, Waits]) == TakeAll(h2, [Waits]);
  }

  /** It happens: a poll finds the server online and sends Started before the login that started it sends Starting. */
  lemma LateSendStrands() returns (before: seq<Move>)
    ensures var h := Visit(before, []);
            && h.cells.unsent == map[] && h.cells.state == Started && LateStarting(h.cells)
            && Blocked(h.cells.version, TakeAll(h, [Waits, Waits, Waits]).waiter)
  {
    hide TakeAll;
    before := [Swaps(1, Some(Stopped), Starting), Swaps(2, None, Started), Sends(2), Sends(1)];
    FourMoves(Hall(QUIET, ARRIVED), before[0], before[1], before[2], before[3]);
    NoMoves(Hall(TakeAll(Hall(QUIET, ARRIVED), before).cells, ARRIVED));
    var c := Visit(before, []).cells;
    assert c.changes == [Starting, Started] && c.sends == [1, 0];
    assert c.unsent == map[];
    StrandedIff(before, []);
  }

  lemma NoMoves(h: Hall)
    ensures TakeAll(h, []) == h
  {
  }

  lemma FourMoves(h: Hall, a: Move, b: Move, c: Move, d: Move)
    ensures TakeAll(h, [a, b, c, d]) == Take(Take(Take(Take(h, a), b), c), d)
  {
    hide Take;
    assert [a, b, c, d][1..] == [b, c, d] && [b, c, d][1..] == [c, d] && [c, d][1..] == [d] && [d][1..] == [];
    var h1 := Take(h, a);
    var h2 := Take(h1, b);
    assert TakeAll(h, [a, b, c, d]) == TakeAll(h1, [b, c, d]) == TakeAll(h2, [c, d]) == TakeAll(Take(h2, c), [d]);
  }
}
