/**
 Stopping through RCON (src/server.rs, `stop_server_rcon`), with any number of concurrent callers. The
 semaphore has one permit; each line that touches shared state or the wire is a step of its own.
 */
module Rcon {
  import opened Base
  import opened Server

  datatype Phase =
    | Waiting                  // for the permit
    | Checking                 // holds it, about to look at the last stop
    | Connecting               // cooled down
    | Commanding               // connected, about to send "stop"
    | Recording                // the command succeeded, about to note the time
    | Releasing(done: bool)    // about to drop the permit
    | Over

  /** A command on the wire, with the last stop on record at that moment, and whether the server accepted it. */
  datatype Issue = Issue(at: int, recorded: Option<int>, accepted: bool)

  datatype System = System(now: int, holder: Option<nat>, lastStop: Option<int>, callers: map<nat, Phase>,
                           issued: seq<Issue>, records: seq<int>)

  /** A caller arrives, time passes, or a caller takes a step that succeeds or not. */
  datatype Event = Calls(id: nat) | Passes(ms: nat) | Steps(id: nat, ok: bool)

  function Boot(now: int): System {
    System(now, None, None, map[], [], [])
  }

  function Moved(s: System, id: nat, phase: Phase): System {
    s.(callers := s.callers[id := phase])
  }

  function StepCaller(s: System, id: nat, ok: bool): System
    requires id in s.callers
  {
    match s.callers[id]
    case Waiting => if s.holder.None? then Moved(s, id, Checking).(holder := Some(id)) else s
    case Checking =>
      var cooledDown := s.lastStop.Some? ==> Elapsed(s.lastStop.value, s.now) >= RCON_COOLDOWN;
      Moved(s, id, if cooledDown then Connecting else Releasing(false))
    case Connecting => Moved(s, id, if ok then Commanding else Releasing(false))
    case Commanding =>
      Moved(s, id, if ok then Recording else Releasing(false)).(issued := s.issued + [Issue(s.now, s.lastStop, ok)])
    case Recording => Moved(s, id, Releasing(true)).(lastStop := Some(s.now), records := s.records + [s.now])
    case Releasing(_) => Moved(s, id, Over).(holder := None)
    case Over => s
  }

  function Next(s: System, e: Event): System {
    match e
    case Calls(id) => if id in s.callers then s else Moved(s, id, Waiting)
    case Passes(ms) => s.(now := s.now + ms)
    case Steps(id, ok) => if id in s.callers then StepCaller(s, id, ok) else s
  }

  function Play(s: System, events: seq<Event>): System
    decreases |events|
  {
    if events == [] then s else Play(Next(s, events[0]), events[1..])
  }

  // ----- the discipline -----

  predicate Holds(phase: Phase) {
    !phase.Waiting? && !phase.Over?
  }

  /** Past the cooldown check, and not done yet. */
  predicate Cold(phase: Phase) {
    phase.Connecting? || phase.Commanding? || phase.Recording?
  }

  predicate Cooled(lastStop: Option<int>, now: int) {
    lastStop.Some? ==> now >= lastStop.value + RCON_COOLDOWN
  }

  predicate Spaced(issues: seq<Issue>) {
    forall k :: 0 <= k < |issues| ==> Cooled(issues[k].recorded, issues[k].at)
  }

  /** Successive recorded stops are at least the cooldown apart. */
  predicate Apart(records: seq<int>) {
    forall k :: 0 < k < |records| ==> records[k] >= records[k - 1] + RCON_COOLDOWN
  }

  predicate Locked(s: System) {
    && (forall i :: i in s.callers && Holds(s.callers[i]) ==> s.holder == Some(i))
    && (forall i :: i in s.callers && Cold(s.callers[i]) ==> Cooled(s.lastStop, s.now))
  }

  predicate Logged(s: System) {
    && Spaced(s.issued) && Apart(s.records)
    && s.lastStop == (if s.records == [] then None else Some(s.records[|s.records| - 1]))
  }

  predicate Disciplined(s: System) {
    Locked(s) && Logged(s)
  }

  lemma NextKeepsDiscipline(s: System, e: Event)
    requires Disciplined(s)
    ensures Disciplined(Next(s, e))
  {
    NextKeepsLocked(s, e);
    NextKeepsLogged(s, e);
  }

  /** What one step does to the caller, the permit and the last stop. */
  lemma StepEffect(s: System, id: nat, ok: bool)
    requires id in s.callers
    requires Holds(s.callers[id]) ==> s.holder == Some(id)
    requires Cold(s.callers[id]) ==> Cooled(s.lastStop, s.now)
    ensures var s' := StepCaller(s, id, ok);
            && s'.callers == s.callers[id := s'.callers[id]] && s'.now == s.now
            && (Holds(s'.callers[id]) ==> s'.holder == Some(id))
            && (Cold(s'.callers[id]) ==> Cooled(s'.lastStop, s'.now))
            && (s'.holder == s.holder || s.holder == None || s.holder == Some(id))
            && (s'.lastStop == s.lastStop || s.holder == Some(id))
  {
  }

  lemma NextKeepsLocked(s: System, e: Event)
    requires Locked(s)
    ensures Locked(Next(s, e))
  {
    var s' := Next(s, e);
    if e.Steps? && e.id in s.callers {
      hide StepCaller, Cooled, Holds, Cold;
      StepEffect(s, e.id, e.ok);
      ColdHolds();
      assert forall i :: i in s'.callers && i != e.id ==> i in s.callers && s'.callers[i] == s.callers[i];
    }
  }

  lemma ColdHolds()
    ensures forall phase: Phase :: Cold(phase) ==> Holds(phase)
  {
  }

  lemma NextKeepsLogged(s: System, e: Event)
    requires Disciplined(s)
    ensures Logged(Next(s, e))
  {
  }

  /**
   At every moment of every run: one caller holds the permit, and no stop command went out, nor was recorded, within
   the cooldown.
   */
  lemma {:induction false} RconDiscipline(s: System, events: seq<Event>)
    requires Disciplined(s)
    ensures Disciplined(Play(s, events))
    decreases |events|
  {
    hide Disciplined;
    if events != [] {
      NextKeepsDiscipline(s, events[0]);
      RconDiscipline(Next(s, events[0]), events[1..]);
    }
  }

  /** From boot: each command is issued at least 15 s after the last recorded one, and recorded ones are 15 s apart. */
  lemma StopsAreSpaced(now: int, events: seq<Event>)
    ensures var s := Play(Boot(now), events);
            && (forall k :: 0 <= k < |s.issued| && s.issued[k].recorded.Some? ==>
                  s.issued[k].at >= s.issued[k].recorded.value + 15_000)
            && (forall j, k :: 0 <= j < k < |s.records| ==> s.records[k] >= s.records[j] + 15_000 * (k - j))
  {
    hide Play;
    RconDiscipline(Boot(now), events);
    var s := Play(Boot(now), events);
    forall j, k | 0 <= j < k < |s.records| ensures s.records[k] >= s.records[j] + 15_000 * (k - j) {
      ApartTelescopes(s.records, j, k);
    }
  }

  lemma {:induction false} ApartTelescopes(records: seq<int>, j: nat, k: nat)
    requires Apart(records) && j < k < |records|
    ensures records[k] >= records[j] + 15_000 * (k - j)
    decreases k
  {
    if j + 1 < k {
      ApartTelescopes(records, j, k - 1);
    }
  }

  // ----- every accepted command is recorded -----

  /** When the commands the server accepted went out. */
  function Accepted(issues: seq<Issue>): seq<int>
    decreases |issues|
  {
    if issues == [] then []
    else
      var last := issues[|issues| - 1];
      Accepted(issues[..|issues| - 1]) + if last.accepted then [last.at] else []
  }

  predicate Recorder(s: System) {
    s.holder.Some? && s.holder.value in s.callers && s.callers[s.holder.value] == Recording
  }

  /** The accepted commands are those recorded, and one more exactly while the holder is about to record it. */
  ghost predicate Matched(s: System) {
    var sent := Accepted(s.issued);
    && |sent| == |s.records| + (if Recorder(s) then 1 else 0)
    && (forall k :: 0 <= k < |s.records| ==> sent[k] <= s.records[k])
    && (forall k :: 0 <= k < |sent| ==> sent[k] <= s.now)
    && (forall i :: i in s.callers && Holds(s.callers[i]) ==> s.holder == Some(i))
  }

  lemma OneMoreIssue(issues: seq<Issue>, issue: Issue)
    ensures Accepted(issues + [issue]) == Accepted(issues) + if issue.accepted then [issue.at] else []
  {
    assert (issues + [issue])[..|issues|] == issues;
  }

  lemma NextKeepsMatched(s: System, e: Event)
    requires Matched(s)
    ensures Matched(Next(s, e))
  {
    hide Accepted;
    if e.Steps? && e.id in s.callers {
      OneMoreIssue(s.issued, Issue(s.now, s.lastStop, e.ok));
    }
  }

  lemma {:induction false} PlayKeepsMatched(s: System, events: seq<Event>)
    requires Matched(s)
    ensures Matched(Play(s, events))
    decreases |events|
  {
    hide Matched, Next;
    if events != [] {
      NextKeepsMatched(s, events[0]);
      PlayKeepsMatched(Next(s, events[0]), events[1..]);
    }
  }

  /**
   No accepted stop goes unrecorded: whenever the permit is free, the records are exactly as many as the commands the
   server accepted, and each was made no earlier than its command.
   */
  lemma AcceptedAreRecorded(now: int, events: seq<Event>)
    ensures var s := Play(Boot(now), events);
            var sent := Accepted(s.issued);
            && |s.records| <= |sent| <= |s.records| + 1
            && (s.holder.None? ==> |sent| == |s.records|)
            && forall k :: 0 <= k < |s.records| ==> sent[k] <= s.records[k]
  {
    hide Play;
    PlayKeepsMatched(Boot(now), events);
  }

  // ----- a caller on its own -----

  /** `n` steps of one caller with nothing in between, all of which succeed where they can. */
  function Alone(s: System, id: nat, n: nat): System
    requires id in s.callers
    decreases n
  {
    if n == 0 then s else Alone(StepCaller(s, id, true), id, n - 1)
  }

  /**
   A caller that finds the permit free sends its command, and records it, iff no stop was recorded within 15 s; either
   way it is done in six steps and the permit is free again.
   */
  lemma SendsIffCool(s: System, id: nat)
    requires id in s.callers && s.callers[id] == Waiting && s.holder.None?
    ensures var cool := s.lastStop.None? || s.now >= s.lastStop.value + 15_000;
            var end := Alone(s, id, if cool then 6 else 3);
            && end.callers[id] == Over && end.holder.None?
            && end.issued == s.issued + (if cool then [Issue(s.now, s.lastStop, true)] else [])
            && end.records == s.records + (if cool then [s.now] else [])
            && end.lastStop == if cool then Some(s.now) else s.lastStop
  {
    var s1 := StepCaller(s, id, true);
    var s2 := StepCaller(s1, id, true);
    var s3 := StepCaller(s2, id, true);
    assert Alone(s, id, 3) == Alone(s1, id, 2) == Alone(s2, id, 1) == Alone(s3, id, 0);
    assert Alone(s, id, 6) == Alone(s1, id, 5) == Alone(s2, id, 4) == Alone(s3, id, 3);
    var s4 := StepCaller(s3, id, true);
    var s5 := StepCaller(s4, id, true);
    assert Alone(s3, id, 3) == Alone(s4, id, 2) == Alone(s5, id, 1) == StepCaller(s5, id, true);
  }

  /**
   A caller that cannot connect, or whose command is refused, frees the permit two steps later with nothing recorded;
   only the refused command was on the wire.
   */
  lemma FailureIsNotRecorded(s: System, id: nat, ok: bool)
    requires id in s.callers && (s.callers[id] == Connecting || s.callers[id] == Commanding)
    ensures var end := StepCaller(StepCaller(s, id, false), id, ok);
            && end.callers[id] == Over && end.holder.None?
            && end.records == s.records && end.lastStop == s.lastStop
            && end.issued == s.issued + (if s.callers[id].Commanding? then [Issue(s.now, s.lastStop, false)] else [])
  {
  }
}
