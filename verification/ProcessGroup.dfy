/** Running a command in its own process group and signalling that group at most once
    (crates/harness/src/exec.rs, `run` and `ProcessGroupGuard`). */
module ProcessGroup {
  import opened Outcomes

  // How far the `run` future has got. `reaped` in the later phases records whether the group's
  // leader had already been waited for when the phase was entered.
  datatype Phase =
    | Spawning
    | SpawnFailed
    | NeverSpawned                   // dropped before it was first polled
    | Waiting
    | Completed
    | Reaping(reaped: bool)          // timed out; waiting for the killed child
    | TimedOut(reaped: bool)
    | DroppedWaiting(reaped: bool)
    | DroppedReaping(reaped: bool)

  datatype Event =
    | SpawnFails
    | Spawned(pid: nat)              // the leader of a new group, whose id is its pid
    | LeaderReaped                   // the wait for the leader is over; the pipes may still be open
    | AllDone                        // the pipes are drained too
    | TimerFires
    | ChildReaped                    // the wait after a timeout is over
    | FutureDropped

  // A process id the signal call accepts.
  predicate Signallable(pid: nat) {
    1 <= pid <= 0x7FFF_FFFF
  }

  datatype State = State(phase: Phase, leader: Option<nat>, guard: Option<nat>, signals: seq<nat>)

  const START: State := State(Spawning, None, None, [])

  // ----- The guard -----

  /** Disarmed on completion and right after a timeout's own kill; signals its group when dropped armed. */
  class ProcessGroupGuard {
    var pgid: Option<nat>

    constructor (pid: Option<nat>)
      ensures pgid == pid
    {
      pgid := pid;
    }

    method Disarm()
      modifies this
      ensures pgid == None
    {
      pgid := None;
    }

    /** What dropping the guard adds to the signals sent so far. */
    method Drop(sent: seq<nat>) returns (signals: seq<nat>)
      ensures signals == sent + SignalsTo(pgid)
    {
      signals := sent;
      if pgid.Some? && Signallable(pgid.value) {
        signals := sent + [pgid.value];
      }
    }
  }

  function SignalsTo(pgid: Option<nat>): seq<nat> {
    if pgid.Some? && Signallable(pgid.value) then [pgid.value] else []
  }

  // ----- The future, event by event -----

  /** What one event does to the future; an event that cannot happen now changes nothing. */
  function Next(s: State, e: Event): State {
    match (s.phase, e)
    case (Spawning, SpawnFails) => s.(phase := SpawnFailed)
    case (Spawning, FutureDropped) => s.(phase := NeverSpawned)
    case (Spawning, Spawned(pid)) => s.(phase := Waiting, leader := Some(pid), guard := Some(pid))
    case (Waiting, LeaderReaped) => s.(leader := None)
    case (Waiting, AllDone) => if s.leader.None? then s.(phase := Completed, guard := None) else s
    case (Waiting, TimerFires) =>
      s.(phase := Reaping(s.leader.None?), guard := None, signals := s.signals + SignalsTo(s.leader))
    case (Waiting, FutureDropped) =>
      s.(phase := DroppedWaiting(s.leader.None?), guard := None, signals := s.signals + SignalsTo(s.guard))
    case (Reaping(reaped), ChildReaped) => s.(phase := TimedOut(reaped), leader := None)
    case (Reaping(reaped), FutureDropped) =>
      s.(phase := DroppedReaping(reaped), guard := None, signals := s.signals + SignalsTo(s.guard))
    case _ => s
  }

  function Play(s: State, events: seq<Event>): State
    decreases |events|
  {
    if events == [] then s else Play(Next(s, events[0]), events[1..])
  }

  /** Runs a command under any schedule; `final` is how the future stands when the schedule ends. */
  method Run(schedule: seq<Event>) returns (final: State)
    ensures final == Play(START, schedule)
  {
    var phase: Phase := Spawning;
    var leader: Option<nat> := None;
    var guard := new ProcessGroupGuard(None);
    var signals: seq<nat> := [];
    for i := 0 to |schedule|
      invariant fresh(guard)
      invariant Play(START, schedule) == Play(State(phase, leader, guard.pgid, signals), schedule[i..])
    {
      ghost var before := State(phase, leader, guard.pgid, signals);
      assert schedule[i..][1..] == schedule[i + 1..];
      match (phase, schedule[i]) {
        case (Spawning, SpawnFails) =>
          phase := SpawnFailed;
        case (Spawning, FutureDropped) =>
          phase := NeverSpawned;
        case (Spawning, Spawned(pid)) =>
          guard := new ProcessGroupGuard(Some(pid));
          phase, leader := Waiting, Some(pid);
        case (Waiting, LeaderReaped) =>
          leader := None;
        case (Waiting, AllDone) =>
          if leader.None? {
            guard.Disarm();
            phase := Completed;
          }
        case (Waiting, TimerFires) =>
          if leader.Some? && Signallable(leader.value) {
            signals := signals + [leader.value];
          }
          guard.Disarm();
          phase := Reaping(leader.None?);
        case (Waiting, FutureDropped) =>
          signals := guard.Drop(signals);
          guard.Disarm();
          phase := DroppedWaiting(leader.None?);
        case (Reaping(reaped), ChildReaped) =>
          phase, leader := TimedOut(reaped), None;
        case (Reaping(reaped), FutureDropped) =>
          signals := guard.Drop(signals);
          guard.Disarm();
          phase := DroppedReaping(reaped);
        case _ =>
      }
      assert State(phase, leader, guard.pgid, signals) == Next(before, schedule[i]);
    }
    final := State(phase, leader, guard.pgid, signals);
  }

  // ----- How many signals, over every schedule -----

  /** The signals a run has sent, told from where it stands: none on spawn failure and completion; the
      group once on a timeout before the leader was reaped; the group once when the future is dropped
      while waiting, reaped or not. */
  ghost predicate SignalsFit(s: State, pid: nat) {
    match s.phase
    case Spawning => s == START
    case SpawnFailed => s.guard == None && s.signals == []
    case NeverSpawned => s.guard == None && s.signals == []
    case Waiting => s.guard == Some(pid) && (s.leader == Some(pid) || s.leader == None) && s.signals == []
    case Completed => s.guard == None && s.signals == []
    case Reaping(reaped) => s.guard == None && s.signals == SignalsTo(if reaped then None else Some(pid))
    case TimedOut(reaped) => s.guard == None && s.signals == SignalsTo(if reaped then None else Some(pid))
    case DroppedWaiting(_) => s.guard == None && s.signals == SignalsTo(Some(pid))
    case DroppedReaping(reaped) => s.guard == None && s.signals == SignalsTo(if reaped then None else Some(pid))
  }

  lemma {:induction false} PlayFits(s: State, events: seq<Event>, pid: nat)
    requires SignalsFit(s, pid)
    requires s.phase.Spawning? ==> forall i | 0 <= i < |events| && events[i].Spawned? :: events[i].pid == pid
    ensures SignalsFit(Play(s, events), pid)
    decreases |events|
  {
    if events != [] {
      assert SignalsFit(Next(s, events[0]), pid);
      PlayFits(Next(s, events[0]), events[1..], pid);
    }
  }

  /** Whatever the order of completion, timeout and cancellation: never more than one signal, never
      to another group, none on the normal path, and exactly one when the run times out or is dropped
      while its leader is still unreaped. */
  lemma AtMostOneSignal(events: seq<Event>, pid: nat)
    requires Signallable(pid)
    requires forall i | 0 <= i < |events| && events[i].Spawned? :: events[i].pid == pid
    ensures var s := Play(START, events);
            && (s.signals == [] || s.signals == [pid])
            && (s.phase.SpawnFailed? || s.phase.NeverSpawned? ==> s.signals == [])
            && (s.phase.Completed? || s.phase.Waiting? ==> s.signals == [])
            && (s.phase in {TimedOut(false), Reaping(false), DroppedReaping(false)} ==> s.signals == [pid])
            && (s.phase in {TimedOut(true), Reaping(true), DroppedReaping(true)} ==> s.signals == [])
            && (s.phase.DroppedWaiting? ==> s.signals == [pid])
  {
    PlayFits(START, events, pid);
  }

  /** Once a run has timed out or been dropped, nothing that still happens to it sends a signal. */
  lemma {:induction false} NothingAfterTheEnd(s: State, events: seq<Event>, pid: nat)
    requires SignalsFit(s, pid) && !s.phase.Spawning? && !s.phase.Waiting?
    ensures Play(s, events).signals == s.signals
    decreases |events|
  {
    if events != [] {
      assert SignalsFit(Next(s, events[0]), pid);
      NothingAfterTheEnd(Next(s, events[0]), events[1..], pid);
    }
  }

  /** A drop while waiting signals even after the leader was reaped, when its id could name another
      group: the guard stays armed until the pipes are drained too. A timeout at that point does not. */
  lemma DropAfterReapStillSignals(pid: nat)
    requires Signallable(pid)
    ensures Play(START, [Spawned(pid), LeaderReaped, FutureDropped]).signals == [pid]
    ensures Play(START, [Spawned(pid), LeaderReaped, TimerFires]).signals == []
  {
    var waiting := State(Waiting, None, Some(pid), []);
    assert Next(Next(START, Spawned(pid)), LeaderReaped) == waiting;
    ThreeEvents(Spawned(pid), LeaderReaped, FutureDropped);
    ThreeEvents(Spawned(pid), LeaderReaped, TimerFires);
  }

  lemma ThreeEvents(a: Event, b: Event, c: Event)
    ensures Play(START, [a, b, c]) == Next(Next(Next(START, a), b), c)
  {
    assert [a, b, c][1..] == [b, c] && [b, c][1..] == [c];
    var s := Next(Next(START, a), b);
    assert Play(s, [c]) == Next(s, c) by {
      assert [c][1..] == [];
    }
  }

  // ----- When a signal goes out after the leader was reaped -----

  lemma {:induction false} PlayOneMore(s: State, events: seq<Event>, e: Event)
    ensures Play(s, events + [e]) == Next(Play(s, events), e)
    decreases |events|
  {
    if events == [] {
      assert [] + [e] == [e] && [e][1..] == [];
    } else {
      assert (events + [e])[1..] == events[1..] + [e];
      PlayOneMore(Next(s, events[0]), events[1..], e);
    }
  }

  lemma PlayPrefix(events: seq<Event>, c: nat)
    requires c < |events|
    ensures Play(START, events[..c + 1]) == Next(Play(START, events[..c]), events[c])
  {
    assert events[..c + 1] == events[..c] + [events[c]];
    PlayOneMore(START, events[..c], events[c]);
  }

  /** The event settles whether there will be a child. */
  predicate SettlesSpawn(e: Event) {
    e.Spawned? || e.SpawnFails? || e.FutureDropped?
  }

  /** Event `a` is the first to settle the spawn, and it succeeds. */
  predicate SpawnedAt(events: seq<Event>, a: nat) {
    a < |events| && events[a].Spawned? && forall i | 0 <= i < a :: !SettlesSpawn(events[i])
  }

  predicate EndsWaiting(e: Event) {
    e.TimerFires? || e.FutureDropped?
  }

  /** Event `b` reaps the leader that event `a` spawned, with neither timer nor drop between. */
  predicate ReapedAt(events: seq<Event>, a: nat, b: nat) {
    && SpawnedAt(events, a) && a < b < |events| && events[b].LeaderReaped?
    && forall i | a < i < b :: !EndsWaiting(events[i]) && !events[i].LeaderReaped?
  }

  /** From the reaping at `b` up to event `c` the pipes stay open and nobody gives up. */
  predicate OpenUntil(events: seq<Event>, a: nat, b: nat, c: nat) {
    && ReapedAt(events, a, b) && c <= |events|
    && forall i | b < i < c :: !EndsWaiting(events[i]) && !events[i].AllDone?
  }

  /** Event `c` drops the future between the reaping and the end of the pipes. */
  predicate LateDrop(events: seq<Event>, a: nat, b: nat, c: nat) {
    OpenUntil(events, a, b, c) && b < c < |events| && events[c].FutureDropped?
  }

  predicate NoSpawn(events: seq<Event>, n: nat)
    requires n <= |events|
  {
    forall i | 0 <= i < n :: !SettlesSpawn(events[i])
  }

  lemma {:induction false} SpawningWhile(events: seq<Event>, n: nat)
    requires n <= |events|
    ensures Play(START, events[..n]).phase.Spawning? <==> NoSpawn(events, n)
    ensures NoSpawn(events, n) ==> Play(START, events[..n]) == START
    decreases n
  {
    if n > 0 {
      PlayPrefix(events, n - 1);
      SpawningWhile(events, n - 1);
    }
  }

  /** While the leader that `a` spawned is neither reaped nor given up on, the future waits for it. */
  lemma {:induction false} WaitingUnreaped(events: seq<Event>, a: nat, n: nat)
    requires SpawnedAt(events, a) && a < n <= |events|
    requires forall i | a < i < n :: !EndsWaiting(events[i]) && !events[i].LeaderReaped?
    ensures Play(START, events[..n]) == State(Waiting, Some(events[a].pid), Some(events[a].pid), [])
    decreases n
  {
    PlayPrefix(events, n - 1);
    if n - 1 == a {
      SpawningWhile(events, a);
    } else {
      WaitingUnreaped(events, a, n - 1);
    }
  }

  lemma {:induction false} WaitingReaped(events: seq<Event>, a: nat, b: nat, n: nat)
    requires OpenUntil(events, a, b, n) && b < n
    ensures Play(START, events[..n]) == State(Waiting, None, Some(events[a].pid), [])
    decreases n
  {
    PlayPrefix(events, n - 1);
    if n - 1 == b {
      WaitingUnreaped(events, a, b);
    } else {
      WaitingReaped(events, a, b, n - 1);
    }
  }

  /** A future that waits has been spawned, and was neither timed out nor dropped since. */
  lemma {:induction false} WaitingSince(events: seq<Event>, n: nat) returns (a: nat)
    requires n <= |events| && Play(START, events[..n]).phase.Waiting? && Play(START, events[..n]).leader.Some?
    ensures SpawnedAt(events, a) && a < n
    ensures forall i | a < i < n :: !EndsWaiting(events[i]) && !events[i].LeaderReaped?
    decreases n
  {
    SpawningWhile(events, n);
    PlayPrefix(events, n - 1);
    if Play(START, events[..n - 1]).phase.Spawning? {
      SpawningWhile(events, n - 1);
      a := n - 1;
    } else {
      a := WaitingSince(events, n - 1);
    }
  }

  lemma {:induction false} ReapedSince(events: seq<Event>, n: nat) returns (a: nat, b: nat)
    requires n <= |events| && Play(START, events[..n]).phase.Waiting? && Play(START, events[..n]).leader.None?
    ensures OpenUntil(events, a, b, n) && b < n
    decreases n
  {
    SpawningWhile(events, n);
    PlayPrefix(events, n - 1);
    var before := Play(START, events[..n - 1]);
    if before.phase.Waiting? && before.leader.Some? {
      a := WaitingSince(events, n - 1);
      b := n - 1;
    } else {
      a, b := ReapedSince(events, n - 1);
    }
  }

  lemma {:induction false} ReapingIsDisarmed(events: seq<Event>, n: nat)
    requires n <= |events|
    ensures Play(START, events[..n]).phase.Reaping? ==> Play(START, events[..n]).guard == None
    decreases n
  {
    if n > 0 {
      PlayPrefix(events, n - 1);
      ReapingIsDisarmed(events, n - 1);
    }
  }

  /** The leader was spawned and has been waited for. */
  predicate LeaderGone(s: State) {
    s.leader.None? && !s.phase.Spawning? && !s.phase.SpawnFailed? && !s.phase.NeverSpawned?
  }

  /** Event `c` sends a signal although the leader is gone. */
  predicate LateSignalAt(events: seq<Event>, c: nat) {
    && c < |events| && LeaderGone(Play(START, events[..c]))
    && Play(START, events[..c + 1]).signals != Play(START, events[..c]).signals
  }

  lemma LateSignalIsLateDrop(events: seq<Event>, c: nat) returns (a: nat, b: nat)
    requires LateSignalAt(events, c)
    ensures LateDrop(events, a, b, c) && Signallable(events[a].pid)
  {
    PlayPrefix(events, c);
    ReapingIsDisarmed(events, c);
    a, b := ReapedSince(events, c);
    WaitingReaped(events, a, b, c);
  }

  lemma LateDropSignals(events: seq<Event>, a: nat, b: nat, c: nat)
    requires LateDrop(events, a, b, c) && Signallable(events[a].pid)
    ensures LateSignalAt(events, c)
  {
    PlayPrefix(events, c);
    WaitingReaped(events, a, b, c);
  }

  /** Over every schedule, a signal goes out after the leader was reaped exactly when the future is dropped
      while the pipes are still open, with no timeout before. */
  lemma LateSignalExactly(events: seq<Event>)
    ensures (exists c: nat :: LateSignalAt(events, c))
        <==> (exists a: nat, b: nat, c: nat :: LateDrop(events, a, b, c) && 0 < events[a].pid < 0x8000_0000)
  {
    if c: nat :| LateSignalAt(events, c) {
      var a, b := LateSignalIsLateDrop(events, c);
      assert LateDrop(events, a, b, c);
    }
    if a: nat, b: nat, c: nat :| LateDrop(events, a, b, c) && 0 < events[a].pid < 0x8000_0000 {
      LateDropSignals(events, a, b, c);
    }
  }

  // ----- When a timeout kills the group -----

  /** The timer at event `c` sends a signal. */
  predicate TimerSignalsAt(events: seq<Event>, c: nat) {
    c < |events| && events[c].TimerFires? && Play(START, events[..c + 1]).signals != Play(START, events[..c]).signals
  }

  /** Event `a` spawned the child, and up to event `c` neither timer nor drop happened. */
  predicate UndisturbedUntil(events: seq<Event>, a: nat, c: nat) {
    SpawnedAt(events, a) && a < c <= |events| && forall i | a < i < c :: !EndsWaiting(events[i])
  }

  predicate ReapedBetween(events: seq<Event>, a: nat, c: nat)
    requires c <= |events|
  {
    exists i :: a < i < c && events[i].LeaderReaped?
  }

  /** Over every schedule, a timer kills the group exactly when it is the first thing to end the wait for a
      spawned child and the leader was not reaped before; a leader reaped in time leaves its group alive. */
  lemma TimeoutKillsExactly(events: seq<Event>, c: nat)
    ensures TimerSignalsAt(events, c) <==>
            c < |events| && events[c].TimerFires?
            && exists a: nat ::
                 UndisturbedUntil(events, a, c) && !ReapedBetween(events, a, c) && 0 < events[a].pid < 0x8000_0000
  {
    if TimerSignalsAt(events, c) {
      PlayPrefix(events, c);
      var a := WaitingSince(events, c);
      WaitingUnreaped(events, a, c);
      assert UndisturbedUntil(events, a, c) && !ReapedBetween(events, a, c);
    }
    if c < |events| && events[c].TimerFires? {
      if a: nat :| UndisturbedUntil(events, a, c) && !ReapedBetween(events, a, c) && 0 < events[a].pid < 0x8000_0000 {
        PlayPrefix(events, c);
        WaitingUnreaped(events, a, c);
      }
    }
  }

  // ----- How a run ends -----

  predicate HasEnded(s: State) {
    s.phase.Completed? || s.phase.TimedOut? || s.phase.SpawnFailed? || s.phase.NeverSpawned?
    || s.phase.DroppedWaiting? || s.phase.DroppedReaping?
  }

  lemma {:induction false} EndedStays(events: seq<Event>, n: nat, m: nat)
    requires n <= m <= |events| && HasEnded(Play(START, events[..n]))
    ensures Play(START, events[..m]).phase == Play(START, events[..n]).phase
    decreases m
  {
    if n < m {
      EndedStays(events, n, m - 1);
      PlayPrefix(events, m - 1);
    }
  }

  /** Event `c` drains the pipes of a reaped leader that nobody has given up on. */
  predicate DoneAt(events: seq<Event>, a: nat, b: nat, c: nat) {
    OpenUntil(events, a, b, c) && b < c < |events| && events[c].AllDone?
  }

  lemma {:induction false} CompletedSince(events: seq<Event>, n: nat) returns (a: nat, b: nat, c: nat)
    requires n <= |events| && Play(START, events[..n]).phase.Completed?
    ensures DoneAt(events, a, b, c) && c < n
    decreases n
  {
    SpawningWhile(events, n);
    PlayPrefix(events, n - 1);
    if Play(START, events[..n - 1]).phase.Completed? {
      a, b, c := CompletedSince(events, n - 1);
    } else {
      a, b := ReapedSince(events, n - 1);
      c := n - 1;
    }
  }

  /** A run completes exactly when, with neither timer nor drop before, its leader is reaped and then
      its pipes are drained. */
  lemma CompletesExactly(events: seq<Event>)
    ensures Play(START, events).phase.Completed? <==> exists a: nat, b: nat, c: nat :: DoneAt(events, a, b, c)
  {
    assert events[..|events|] == events;
    if Play(START, events).phase.Completed? {
      var a, b, c := CompletedSince(events, |events|);
    }
    if a: nat, b: nat, c: nat :| DoneAt(events, a, b, c) {
      WaitingReaped(events, a, b, c);
      PlayPrefix(events, c);
      EndedStays(events, c + 1, |events|);
    }
  }

  /** The leader was reaped, and its pipes were drained behind that. */
  predicate DrainedBetween(events: seq<Event>, a: nat, c: nat)
    requires c <= |events|
  {
    exists i, j :: a < i < j < c && events[i].LeaderReaped? && events[j].AllDone?
  }

  /** Up to event `n` the child that event `a` spawned is waited for. */
  predicate WaitsUntil(events: seq<Event>, a: nat, n: nat) {
    UndisturbedUntil(events, a, n) && !DrainedBetween(events, a, n)
  }

  lemma {:induction false} FirstReaping(events: seq<Event>, a: nat, c: nat) returns (b: nat)
    requires UndisturbedUntil(events, a, c) && ReapedBetween(events, a, c)
    ensures b < c && ReapedAt(events, a, b)
    decreases c
  {
    if UndisturbedUntil(events, a, c - 1) && ReapedBetween(events, a, c - 1) {
      b := FirstReaping(events, a, c - 1);
    } else {
      b := c - 1;
    }
  }

  lemma WaitsHere(events: seq<Event>, a: nat, n: nat)
    requires WaitsUntil(events, a, n)
    ensures var s := Play(START, events[..n]);
            s.phase.Waiting? && (s.leader.None? <==> ReapedBetween(events, a, n))
  {
    if ReapedBetween(events, a, n) {
      var b := FirstReaping(events, a, n);
      WaitingReaped(events, a, b, n);
    } else {
      WaitingUnreaped(events, a, n);
    }
  }

  lemma WaitedSince(events: seq<Event>, n: nat) returns (a: nat)
    requires n <= |events| && Play(START, events[..n]).phase.Waiting?
    ensures WaitsUntil(events, a, n)
  {
    if Play(START, events[..n]).leader.Some? {
      a := WaitingSince(events, n);
    } else {
      var b;
      a, b := ReapedSince(events, n);
    }
  }

  /** The timer at event `c` ended the wait, and up to event `n` the killed child is waited for. */
  predicate ReapsUntil(events: seq<Event>, a: nat, c: nat, n: nat) {
    && WaitsUntil(events, a, c) && c < n <= |events| && events[c].TimerFires?
    && forall i | c < i < n :: !events[i].ChildReaped? && !events[i].FutureDropped?
  }

  lemma {:induction false} ReapsHere(events: seq<Event>, a: nat, c: nat, n: nat)
    requires ReapsUntil(events, a, c, n)
    ensures Play(START, events[..n]).phase == Reaping(ReapedBetween(events, a, c))
    decreases n
  {
    PlayPrefix(events, n - 1);
    if n - 1 == c {
      WaitsHere(events, a, c);
    } else {
      ReapsHere(events, a, c, n - 1);
    }
  }

  lemma {:induction false} ReapedFor(events: seq<Event>, n: nat) returns (a: nat, c: nat)
    requires n <= |events| && Play(START, events[..n]).phase.Reaping?
    ensures ReapsUntil(events, a, c, n)
    decreases n
  {
    SpawningWhile(events, n);
    PlayPrefix(events, n - 1);
    if Play(START, events[..n - 1]).phase.Reaping? {
      a, c := ReapedFor(events, n - 1);
    } else {
      a := WaitedSince(events, n - 1);
      c := n - 1;
    }
  }

  lemma {:induction false} EndedAt(events: seq<Event>, n: nat) returns (k: nat)
    requires n <= |events| && HasEnded(Play(START, events[..n]))
    ensures k < n && !HasEnded(Play(START, events[..k]))
    ensures Play(START, events[..k + 1]).phase == Play(START, events[..n]).phase
    decreases n
  {
    SpawningWhile(events, n);
    PlayPrefix(events, n - 1);
    if HasEnded(Play(START, events[..n - 1])) {
      k := EndedAt(events, n - 1);
    } else {
      k := n - 1;
    }
  }

  /** Event `k` ends the wait for a child killed by a timer. */
  predicate TimedOutAt(events: seq<Event>, k: nat, end: Event, reaped: bool) {
    && k < |events| && events[k] == end
    && exists a, c :: 0 <= a < c < k && ReapsUntil(events, a, c, k) && reaped == ReapedBetween(events, a, c)
  }

  /** Event `k` drops the future while its child is waited for. */
  predicate DroppedAt(events: seq<Event>, k: nat, reaped: bool) {
    && k < |events| && events[k] == FutureDropped
    && exists a :: 0 <= a < k && WaitsUntil(events, a, k) && reaped == ReapedBetween(events, a, k)
  }

  lemma TimedOutHere(events: seq<Event>, k: nat, end: Event, reaped: bool)
    requires TimedOutAt(events, k, end, reaped) && (end == ChildReaped || end == FutureDropped)
    ensures Play(START, events).phase == if end == ChildReaped then TimedOut(reaped) else DroppedReaping(reaped)
  {
    var a, c :| 0 <= a < c < k && ReapsUntil(events, a, c, k) && reaped == ReapedBetween(events, a, c);
    ReapsHere(events, a, c, k);
    PlayPrefix(events, k);
    EndedStays(events, k + 1, |events|);
    assert events[..|events|] == events;
  }

  lemma DroppedHere(events: seq<Event>, k: nat, reaped: bool)
    requires DroppedAt(events, k, reaped)
    ensures Play(START, events).phase == DroppedWaiting(reaped)
  {
    var a :| 0 <= a < k && WaitsUntil(events, a, k) && reaped == ReapedBetween(events, a, k);
    WaitsHere(events, a, k);
    PlayPrefix(events, k);
    EndedStays(events, k + 1, |events|);
    assert events[..|events|] == events;
  }

  /** Event `k` is what brings the run to that end. */
  predicate BringsTo(events: seq<Event>, k: nat, phase: Phase) {
    match phase
    case TimedOut(reaped) => TimedOutAt(events, k, ChildReaped, reaped)
    case DroppedReaping(reaped) => TimedOutAt(events, k, FutureDropped, reaped)
    case DroppedWaiting(reaped) => DroppedAt(events, k, reaped)
    case _ => true
  }

  lemma EndedBy(events: seq<Event>) returns (k: nat)
    requires HasEnded(Play(START, events))
    ensures k < |events| && BringsTo(events, k, Play(START, events).phase)
  {
    assert events[..|events|] == events;
    k := EndedAt(events, |events|);
    PlayPrefix(events, k);
    if Play(START, events[..k]).phase.Waiting? {
      var a := WaitedSince(events, k);
      WaitsHere(events, a, k);
    } else if Play(START, events[..k]).phase.Reaping? {
      var a, c := ReapedFor(events, k);
      ReapsHere(events, a, c, k);
    }
  }

  /** A run times out exactly when the timer is first to end the wait for its child, and the killed
      child is then reaped before the future is dropped. It is dropped in the one wait or in the other
      when that is what ends it. Each end tells whether the leader had been reaped before the wait was over. */
  lemma EndsExactly(events: seq<Event>, reaped: bool)
    ensures var phase := Play(START, events).phase;
            && (phase == TimedOut(reaped) <==> exists k: nat :: TimedOutAt(events, k, ChildReaped, reaped))
            && (phase == DroppedReaping(reaped) <==> exists k: nat :: TimedOutAt(events, k, FutureDropped, reaped))
            && (phase == DroppedWaiting(reaped) <==> exists k: nat :: DroppedAt(events, k, reaped))
  {
    if HasEnded(Play(START, events)) {
      var k := EndedBy(events);
    }
    forall k: nat, end | TimedOutAt(events, k, end, reaped) && (end == ChildReaped || end == FutureDropped)
      ensures Play(START, events).phase == if end == ChildReaped then TimedOut(reaped) else DroppedReaping(reaped)
    {
      TimedOutHere(events, k, end, reaped);
    }
    forall k: nat | DroppedAt(events, k, reaped) ensures Play(START, events).phase == DroppedWaiting(reaped) {
      DroppedHere(events, k, reaped);
    }
  }
}
