/** Turns and whole runs of the session supervisor. */
module SessionRuns {
  import opened Basics
  import opened ProcessTree
  import opened SessionTables
  import opened SessionModel
  import opened SessionSafety

  /** Between turns: a stopped supervisor has returned, and an idle streak means that nobody is there. */
  ghost predicate Between(s: State)
  {
    && Inv(s)
    && (s.phase == Stopped ==> s.loop.finished)
    && (s.phase == Ready && s.loop.idleStreak > 0 ==> s.kernel.processes == map[])
    && (s.phase == Ready ==> (s.loop.idleEmitted <==> s.loop.idleStreak >= 2))
  }

  ghost predicate SameIdle(s: State, s': State)
  {
    s'.loop.idleStreak == s.loop.idleStreak && s'.loop.idleEmitted == s.loop.idleEmitted
  }

  lemma LoopKeeps(s: State, loop: Loop)
    requires Inv(s) && loop.finished == s.loop.finished
    ensures Inv(s.(loop := loop)) && Follows(s, s.(loop := loop))
  {
    hide LogAgrees, Agree, Sound, Timed, AcceptsShutdown, SpawnOrder, GraceKept;
  }

  lemma FollowsItself(s: State)
    ensures Follows(s, s)
  {
  }

  lemma ListenKeeps(s: State, input: Input)
    requires Inv(s) && !s.loop.finished && s.phase != Stopped
    ensures var r := Listen(s, input);
            Inv(r) && Follows(s, r) && !r.loop.finished && r.phase != Stopped && SameIdle(s, r)
  {
    hide Inv, Core, Follows, HandleRequest, BeginForcedShutdown;
    FollowsItself(s);
    InvIsCore(s);
    match input
    case NoInput =>
    case Line(request) =>
      HandleRequestKeeps(s, request);
      var handled := HandleRequest(s, request).0;
      InvIsCore(handled);
      EmitKeeps(handled, Error(None, Protocol));
      FollowsTransitive(s, handled, Emit(handled, Error(None, Protocol)));
    case Unreadable => EmitKeeps(s, Error(None, Protocol));
    case EndOfInput =>
      var ended := s.(loop := s.loop.(eof := true));
      LoopKeeps(s, ended.loop);
      InvIsCore(ended);
      BeginForcedShutdownKeeps(ended);
      FollowsTransitive(s, ended, BeginForcedShutdown(ended));
  }

  lemma ForceKeeps(s: State, when: bool)
    requires Inv(s) && !s.loop.finished && s.phase != Stopped
    ensures var r := if when then BeginForcedShutdown(s) else s;
            Inv(r) && Follows(s, r) && r.loop == s.loop && r.phase != Stopped && (when ==> r.timers.forced && r.phase == Stopping)
  {
    hide Inv, Core, Follows;
    FollowsItself(s);
    InvIsCore(s);
    BeginForcedShutdownKeeps(s);
  }

  lemma HearKeeps(s: State, turn: Turn)
    requires Inv(s) && !s.loop.finished && s.phase != Stopped
    ensures var r := Hear(s, turn);
            Inv(r) && Follows(s, r) && !r.loop.finished && r.phase != Stopped && SameIdle(s, r)
  {
    hide Inv, Follows, Listen, BeginForcedShutdown;
    ForceKeeps(s, turn.parentGone);
    var s1 := if turn.parentGone then BeginForcedShutdown(s) else s;
    ForceKeeps(s1, turn.sigterm);
    var s2 := if turn.sigterm then BeginForcedShutdown(s1) else s1;
    ListenKeeps(s2, turn.input);
    FollowsTransitive(s, s1, s2);
    FollowsTransitive(s, s2, Listen(s2, turn.input));
  }

  lemma NoteIdleKeeps(s: State)
    requires Inv(s) && !s.loop.finished
    ensures var r := NoteIdle(s);
            && Inv(r) && Follows(s, r) && !r.loop.finished && r.phase == s.phase && r.kernel == s.kernel && r.sent == s.sent
            && (r.phase == Ready && r.loop.idleStreak > 0 ==> s.echild)
            && (r.phase == Ready && (s.loop.idleEmitted <==> s.loop.idleStreak >= 2) ==>
                  (r.loop.idleEmitted <==> r.loop.idleStreak >= 2))
  {
    hide Inv, Core, Follows;
    FollowsItself(s);
    var r := NoteIdle(s);
    if r.log == s.log {
      LoopKeeps(s, r.loop);
    } else {
      InvIsCore(s);
      EmitKeeps(s, Idle);
      LoopKeeps(Emit(s, Idle), r.loop);
      FollowsTransitive(s, Emit(s, Idle), r);
    }
  }

  lemma FinalLog(log: Log, at: nat)
    requires Ended(log, false, Stopped) && ShutdownOnce(log, Stopped)
    ensures var log' := log + [Entry(at, SessionStopped)];
            && Ended(log', true, Stopped) && ShutdownOnce(log', Stopped)
            && forall t :: GraceKept(log, t) ==> GraceKept(log', t)
  {
    var log' := log + [Entry(at, SessionStopped)];
    assert forall i: nat :: AcceptsShutdown(log', i) <==> AcceptsShutdown(log, i);
    forall t | GraceKept(log, t)
      ensures GraceKept(log', t)
    {
      var i: nat :| AcceptsShutdown(log, i) && t.deadline.value == log[i].at + t.graceMs;
      assert AcceptsShutdown(log', i) && log'[i] == log[i];
    }
  }

  lemma ConcludeKeeps(s: State)
    requires Inv(s) && !s.loop.finished
    ensures var r := Conclude(s);
            && Inv(r) && Follows(s, r) && r.phase == s.phase && r.kernel == s.kernel && r.sent == s.sent
            && SameIdle(s, r) && (r.phase == Stopped ==> r.loop.finished)
  {
    hide LogAgrees, Agree, Sound, Timed, Ended, ShutdownOnce, AcceptsShutdown, SpawnOrder, GraceKept;
    if s.phase == Stopped {
      FinalLog(s.log, s.kernel.clock);
      NeutralAgrees(s.log, Entry(s.kernel.clock, SessionStopped), s.tables);
    }
  }

  /** The state of a turn before it looks for idleness and for the end. */
  function Body(s: State, turn: Turn): (r: State)
  {
    AdvanceShutdown(Drain(Hear(s, turn)))
  }

  lemma BodyKeeps(s: State, turn: Turn)
    requires Inv(s) && !s.loop.finished && s.phase != Stopped
    ensures var r := Body(s, turn);
            && Inv(r) && Follows(s, r) && !r.loop.finished && SameIdle(s, r)
            && (r.phase == Ready && r.echild ==> r.kernel.processes == map[])
  {
    hide Inv, Follows, Hear, Drain, AdvanceShutdown;
    var h := Hear(s, turn);
    var d := Drain(h);
    HearKeeps(s, turn);
    DrainKeepsInv(h);
    AdvanceShutdownKeeps(d);
    FollowsTransitive(s, h, d);
    FollowsTransitive(s, d, AdvanceShutdown(d));
    assert d.loop == h.loop;
    ReadyStays(d);
  }

  lemma ReadyStays(d: State)
    ensures d.phase == Stopping ==> AdvanceShutdown(d).phase != Ready
    ensures d.phase != Stopping ==> AdvanceShutdown(d) == d
  {
    if d.phase == Stopping {
      DrainPhase(d);
      hide Drain;
      var k := KillStep(TermStep(Drain(d)));
      DrainPhase(k);
    }
  }

  lemma {:induction false} DrainPhase(s: State)
    ensures Drain(s).phase == s.phase
    decreases |s.kernel.future|
  {
    var (k, answer) := Wait(s.kernel);
    if answer.Reaped? {
      DrainPhase(Reap(s.(kernel := k, echild := false), answer.pid, answer.status));
    }
  }

  lemma TickKeeps(s: State, turn: Turn)
    requires Between(s)
    ensures Between(Tick(s, turn)) && Follows(s, Tick(s, turn))
  {
    hide Inv, Follows, Hear, Drain, AdvanceShutdown, NoteIdle, Conclude;
    FollowsItself(s);
    if !s.loop.finished {
      var b := Body(s, turn);
      var n := NoteIdle(b);
      BodyKeeps(s, turn);
      NoteIdleKeeps(b);
      ConcludeKeeps(n);
      FollowsTransitive(s, b, n);
      FollowsTransitive(s, n, Conclude(n));
      ForcedFollows(s, b);
    }
  }

  lemma {:induction false} RunKeeps(s: State, turns: seq<Turn>)
    requires Between(s)
    ensures Between(Run(s, turns)) && Follows(s, Run(s, turns))
    decreases |turns|
  {
    hide Between, Follows, Tick;
    if turns == [] {
      FollowsItself(s);
    } else {
      TickKeeps(s, turns[0]);
      RunKeeps(Tick(s, turns[0]), turns[1..]);
      FollowsTransitive(s, Tick(s, turns[0]), Run(s, turns));
    }
  }

  ghost predicate Reachable(s: State)
  {
    exists k: Kernel, turns: seq<Turn> :: Sound(k.processes) && s == Run(Start(k), turns)
  }

  lemma ReachableIsBetween(s: State)
    requires Reachable(s)
    ensures Between(s)
  {
    var k: Kernel, turns: seq<Turn> :| Sound(k.processes) && s == Run(Start(k), turns);
    StartIsInv(k);
    hide Inv, Run;
    RunKeeps(Start(k), turns);
  }

  // ---------------------------------------------------------------- what holds of every run

  /** In every run the tables agree, the count is exact and bounded, and requests are answered once. */
  lemma TablesAgreeInEveryRun(s: State)
    requires Reachable(s)
    ensures Agree(s.tables, s.kernel.processes) && s.tables.inFlight == |Launches(s.tables.controllers)| <= MAX_IN_FLIGHT
    ensures OncePerRequest(s.log)
    ensures forall i, id, pid :: Accepts(s.log, i, id, pid) ==>
              id in s.tables.requestIds &&
              (id !in s.tables.controllers ==> HasExit(s.log, id, pid)) &&
              (id in s.tables.controllers ==> s.tables.controllers[id] == Record(pid, false))
  {
    ReachableIsBetween(s);
    hide Reachable, Accepts, HasExit, OncePerRequest, Sound, Ended, ShutdownOnce, Timed;
  }

  /** Phases only advance, and once the supervisor has left Ready it spawns nothing any more. */
  lemma NothingSpawnsAfterReady(s: State, turns: seq<Turn>)
    requires Reachable(s)
    ensures var s' := Run(s, turns);
            && Rank(s.phase) <= Rank(s'.phase)
            && s.spawns <= s'.spawns && (s.phase != Ready ==> s'.spawns == s.spawns)
            && (forall i :: 0 <= i < |s'.spawns| && s'.spawns[i].isShutdown ==> s'.phase != Ready && i == |s'.spawns| - 1)
  {
    ReachableIsBetween(s);
    RunKeeps(s, turns);
    hide Reachable, Run, Sound, Agree, LogAgrees, Ended, ShutdownOnce, Timed;
  }

  lemma {:induction false} FinishedStays(s: State, turns: seq<Turn>)
    requires s.loop.finished
    ensures Run(s, turns) == s
    decreases |turns|
  {
    if turns != [] {
      FinishedStays(s, turns[1..]);
    }
  }

  /** The exit of a launch is in the log between two positions. */
  ghost predicate ExitBetween(log: Log, a: nat, b: nat, id: string, pid: Pid)
  {
    exists j: nat :: Exits(log, j, id, pid) && a < j < b
  }

  lemma AllExitsReported(log: Log, t: Tables, i: nat)
    requires LogAgrees(log, t) && t.controllers == map[] && i == |log| - 1 && log[i].event == SessionStopped
    ensures forall a, id, pid :: Accepts(log, a, id, pid) ==> ExitBetween(log, a, i, id, pid)
  {
    forall a: nat, id, pid | Accepts(log, a, id, pid)
      ensures ExitBetween(log, a, i, id, pid)
    {
      assert HasExit(log, id, pid);
      var j: nat :| Exits(log, j, id, pid);
    }
  }

  /** The final event is the last, nothing follows it, no process is left, and every accepted launch has had its exit reported. */
  lemma StoppedIsFinal(s: State, i: nat, turns: seq<Turn>)
    requires Reachable(s) && i < |s.log| && s.log[i].event == SessionStopped
    ensures i == |s.log| - 1 && s.phase == Stopped && Run(s, turns) == s
    ensures forall j :: 0 <= j < |s.log| && s.log[j].event == SessionStopped ==> j == i
    ensures s.kernel.processes == map[]
    ensures s.tables.pidToRequest == map[] && s.tables.controllers == map[] && s.tables.inFlight == 0
    ensures forall a, id, pid :: Accepts(s.log, a, id, pid) ==> ExitBetween(s.log, a, i, id, pid)
  {
    hide Run, Reachable, Sound, Agree, ShutdownOnce, Timed, LogAgrees, ExitBetween, Accepts, SpawnOrder, GraceKept;
    ReachableIsBetween(s);
    FinishedStays(s, turns);
    NobodyLeft(s.tables);
    AllExitsReported(s.log, s.tables, i);
  }

  /** What a finished session leaves: the final event, once and last, nobody, and nothing in the tables. */
  ghost predicate Over(s: State)
  {
    && s.phase == Stopped && s.log != [] && s.log[|s.log| - 1].event == SessionStopped
    && (forall i :: 0 <= i < |s.log| - 1 ==> s.log[i].event != SessionStopped)
    && s.kernel.processes == map[]
    && s.tables.pidToRequest == map[] && s.tables.controllers == map[] && s.tables.inFlight == 0
    && forall a, id, pid :: Accepts(s.log, a, id, pid) ==> ExitBetween(s.log, a, |s.log| - 1, id, pid)
  }

  lemma FinishedIsOver(s: State)
    requires Between(s) && s.loop.finished
    ensures Over(s)
  {
    hide Sound, Agree, ShutdownOnce, Timed, LogAgrees, ExitBetween, Accepts, SpawnOrder, GraceKept;
    NobodyLeft(s.tables);
    AllExitsReported(s.log, s.tables, |s.log| - 1);
  }

  /** Every run keeps the promises of the states between turns, and one that returns is over. */
  lemma RunPromises(s: State, turns: seq<Turn>)
    requires Between(s)
    ensures var r := Run(s, turns);
            Between(r) && Follows(s, r) && (r.loop.finished ==> Over(r))
  {
    hide Between, Follows, Run, Over;
    RunKeeps(s, turns);
    if Run(s, turns).loop.finished {
      FinishedIsOver(Run(s, turns));
    }
  }

  // ---------------------------------------------------------------- answers

  /** What a launch request has to meet: a ready supervisor, a new id, a free place, a valid spec, a process. */
  ghost predicate Admitted(s: State, id: string, spec: Spec)
  {
    && s.phase == Ready && id !in s.tables.requestIds && s.tables.inFlight < MAX_IN_FLIGHT && spec.valid
    && ForkChild(s.kernel, spec.child, spec.birth).1.Some?
  }

  /**
   A launch is answered by one event that names it: its acceptance with the pid of a child that
   is new, or an error. Only an admitted launch whose identity cannot be read is answered by
   nothing of its own. A refused id stays used.
   */
  lemma LaunchIsAnsweredOnce(s: State, id: string, spec: Spec)
    requires Inv(s)
    ensures var (r, normally) := HandleLaunch(s, id, spec);
            var child := ForkChild(s.kernel, spec.child, spec.birth).1;
            && (normally <==> !Admitted(s, id, spec) || spec.identity)
            && |r.log| == |s.log| + (if normally then 1 else 0)
            && (normally ==>
                  if Admitted(s, id, spec) then r.log[|s.log|].event == LaunchAccepted(id, child.value)
                  else r.log[|s.log|].event.Error? && r.log[|s.log|].event.request == Some(id))
            && r.spawns == (if Admitted(s, id, spec) then s.spawns + [Spawn(id, child.value, false)] else s.spawns)
            && (Admitted(s, id, spec) ==>
                  && child.value in r.kernel.processes && r.kernel.processes[child.value].parent == SELF
                  && (child.value !in s.kernel.processes || s.kernel.processes[child.value].parent != SELF)
                  && child.value !in s.tables.pidToRequest)
            && (s.phase == Ready ==> id in r.tables.requestIds)
  {
    hide ForkChild, Inv, Sound;
    ListedPidsAreChildren(s);
    ForkKeeps(s.kernel, spec.child, spec.birth);
  }

  lemma ListedPidsAreChildren(s: State)
    requires Inv(s)
    ensures Sound(s.kernel.processes)
    ensures forall pid :: pid in s.tables.pidToRequest ==> pid in s.kernel.processes && s.kernel.processes[pid].parent == SELF
  {
  }

  /** A shutdown whose controller cannot be started is forced: one error, and a deadline two seconds away. */
  lemma FailedShutdownForces(s: State, id: string, spec: Spec, graceMs: nat)
    requires Inv(s) && s.phase == Ready && id !in s.tables.requestIds
    requires !spec.valid || ForkChild(s.kernel, spec.child, spec.birth).1.None?
    ensures var r := HandleShutdown(s, id, spec, graceMs);
            && r.phase == Stopping && r.timers.forced && r.spawns == s.spawns
            && r.timers.deadline == Some(r.kernel.clock + FORCED_GRACE_MS)
            && |r.log| == |s.log| + 1 && r.log[|s.log|].event == Error(Some(id), ShuttingDown)
  {
    assert s.timers.deadline.None?;
    hide ForkChild, Core, Pass, ClampGrace;
  }

  // ---------------------------------------------------------------- timing

  /** An accepted shutdown's deadline is the time of its acceptance plus the requested grace, clamped. */
  lemma ShutdownSetsDeadline(s: State, id: string, spec: Spec, graceMs: nat)
    requires s.phase == Ready && !s.timers.forced
    ensures var r := HandleShutdown(s, id, spec, graceMs);
            r.phase == Stopping && !r.timers.forced ==>
              && r.log != [] && r.log[|r.log| - 1].event == ShutdownAccepted(id)
              && r.timers.deadline == Some(r.log[|r.log| - 1].at + ClampGrace(graceMs))
  {
    hide ForkChild, Enrol, ClampGrace, Pass;
  }

  /** While a shutdown is not forced, no signal comes before its acceptance plus a grace of one to ten seconds. */
  lemma NoSignalBeforeGrace(s: State, i: nat)
    requires Reachable(s) && !s.timers.forced && i < |s.sent|
    ensures 1000 <= s.timers.graceMs <= 10000
    ensures exists j: nat :: AcceptsShutdown(s.log, j) && s.sent[i].at >= s.log[j].at + s.timers.graceMs
  {
    hide Run, Reachable, Sound, Agree, ShutdownOnce, LogAgrees, SpawnOrder, AcceptsShutdown;
    ReachableIsBetween(s);
    assert InTime(s.sent[i], s.timers, s.kernel.clock);
  }

  /** SIGKILL never comes sooner than two seconds after the clock reading on which the first SIGTERM was decided. */
  lemma NoKillBeforeTwoSeconds(s: State, i: nat)
    requires Reachable(s) && i < |s.sent| && s.sent[i].kill
    ensures i > 0 && !s.sent[0].kill && s.timers.termSentAt.Some? && s.timers.termSentAt.value <= s.sent[0].at
    ensures s.timers.termSentAt.value + KILL_DELAY_MS <= s.sent[i].at
    ensures s.sent[0].at == s.timers.termSentAt.value ==> s.sent[0].at + KILL_DELAY_MS <= s.sent[i].at
  {
    hide Run, Reachable, Sound, Agree, ShutdownOnce, LogAgrees, SpawnOrder, AcceptsShutdown, GraceKept;
    ReachableIsBetween(s);
    assert InTime(s.sent[i], s.timers, s.kernel.clock) && InTime(s.sent[0], s.timers, s.kernel.clock);
  }

  lemma TermStepSends(s: State)
    requires Inv(s) && s.phase == Stopping && (s.timers.forced || s.timers.deadline.value <= s.kernel.clock)
    ensures var r := TermStep(s);
            |r.sent| == |s.sent| + 1 && !r.sent[|s.sent|].kill && r.sent[|s.sent|].at >= s.kernel.clock
  {
    var k := Pass(s.kernel);
    PassKeeps(s.kernel);
    PassKeeps(k);
    hide Pass, Sound, Agree, LogAgrees;
  }

  lemma KillStepSends(s: State)
    requires Inv(s) && s.phase == Stopping
    requires s.timers.termSentAt.Some? && s.timers.termSentAt.value + KILL_DELAY_MS <= s.kernel.clock
    ensures var r := KillStep(s);
            |r.sent| == |s.sent| + 1 && r.sent[|s.sent|].kill && r.sent[|s.sent|].at >= s.kernel.clock
  {
    var k := Pass(s.kernel);
    PassKeeps(s.kernel);
    PassKeeps(k);
    hide Pass, Sound, Agree, LogAgrees;
  }

  /** A signal of this kind was sent since. */
  ghost predicate SentSince(s: State, s': State, kill: bool)
  {
    exists i: nat :: |s.sent| <= i < |s'.sent| && s'.sent[i].kill == kill && s'.sent[i].at >= s.kernel.clock
  }

  lemma SentStays(s: State, a: State, b: State, kill: bool, i: nat)
    requires Follows(a, b) && |s.sent| <= i < |a.sent| && a.sent[i].kill == kill && a.sent[i].at >= s.kernel.clock
    ensures SentSince(s, b, kill)
  {
    assert b.sent[i] == a.sent[i];
  }

  /** When a shutdown advances past its deadline, it is over or SIGTERM goes out; two seconds later, SIGKILL. */
  lemma AdvanceSends(s: State, kill: bool)
    requires Inv(s) && !s.loop.finished && s.phase == Stopping
    requires if kill then s.timers.termSentAt.Some? && s.timers.termSentAt.value + KILL_DELAY_MS <= s.kernel.clock
             else s.timers.forced || s.timers.deadline.value <= s.kernel.clock
    ensures AdvanceShutdown(s).phase == Stopped || SentSince(s, AdvanceShutdown(s), kill)
  {
    hide Core, Drain, TermStep, KillStep, GraceKept, SentSince;
    DrainKeepsInv(s);
    var d := Drain(s);
    if !d.echild {
      TermStepKeeps(d);
      var t := TermStep(d);
      KillStepKeeps(t);
      var k := KillStep(t);
      DrainKeepsInv(k);
      var a := Drain(k);
      if kill {
        KillStepSends(t);
        SentStays(s, k, a, true, |t.sent|);
      } else {
        TermStepSends(d);
        FollowsTransitive(t, k, a);
        SentStays(s, t, a, false, |d.sent|);
      }
      SentFrame(s, a, AdvanceShutdown(s), kill);
    }
  }

  lemma SentFrame(s: State, a: State, b: State, kill: bool)
    requires SentSince(s, a, kill) && a.sent == b.sent
    ensures SentSince(s, b, kill)
  {
  }

  /** What makes a signal due. */
  ghost predicate Due(s: State, kill: bool)
  {
    if kill then s.timers.termSentAt.Some? && s.timers.termSentAt.value + KILL_DELAY_MS <= s.kernel.clock
    else s.timers.forced || (s.timers.deadline.Some? && s.timers.deadline.value <= s.kernel.clock)
  }

  lemma DueStays(s: State, s': State, kill: bool)
    requires Follows(s, s') && Due(s, kill)
    ensures Due(s', kill)
  {
  }

  lemma EarlierSince(s: State, a: State, b: State, kill: bool)
    requires Follows(s, a) && SentSince(a, b, kill)
    ensures SentSince(s, b, kill)
  {
  }

  /** A turn that finds a signal due after listening sends it, unless it ends the session. */
  lemma DueTurnSends(s: State, turn: Turn, kill: bool)
    requires Between(s) && !s.loop.finished
    requires Hear(s, turn).phase == Stopping && Due(Hear(s, turn), kill)
    ensures Tick(s, turn).phase == Stopped || SentSince(s, Tick(s, turn), kill)
  {
    hide Core, Hear, Drain, AdvanceShutdown, NoteIdle, Conclude, SentSince, Follows, GraceKept;
    var h := Hear(s, turn);
    HearKeeps(s, turn);
    DrainKeepsInv(h);
    var d := Drain(h);
    DueStays(h, d, kill);
    AdvanceShutdownKeeps(d);
    var a := AdvanceShutdown(d);
    NoteIdleKeeps(a);
    var n := NoteIdle(a);
    ConcludeKeeps(n);
    if a.phase != Stopped {
      AdvanceSends(d, kill);
      FollowsTransitive(s, h, d);
      EarlierSince(s, d, a, kill);
      SentFrame(s, a, n, kill);
      SentFrame(s, n, Conclude(n), kill);
    }
  }

  /** If children persist, the first turn past the bound of a signal sends it. */
  lemma FirstTurnPastTheBoundSends(s: State, turn: Turn, kill: bool)
    requires Reachable(s) && s.phase == Stopping && Due(s, kill)
    ensures Tick(s, turn).phase == Stopped || SentSince(s, Tick(s, turn), kill)
  {
    ReachableIsBetween(s);
    assert !s.loop.finished;
    hide Core, Hear, Tick, SentSince, Reachable, Due;
    HearKeeps(s, turn);
    DueStays(s, Hear(s, turn), kill);
    DueTurnSends(s, turn, kill);
  }

  /** A vanished parent, a SIGTERM, the end of input or a second greeting stops the session or sends SIGTERM in the same turn. */
  lemma ForcedTurnTerminates(s: State, turn: Turn)
    requires Reachable(s) && !s.loop.finished
    requires turn.parentGone || turn.sigterm || ((turn.input.EndOfInput? || turn.input == Line(Hello)) && !s.loop.eof)
    ensures Tick(s, turn).phase == Stopped || SentSince(s, Tick(s, turn), false)
  {
    ReachableIsBetween(s);
    assert s.phase != Stopped;
    hide Core, Tick, SentSince, Reachable, Listen, Follows, BeginForcedShutdown;
    ForceKeeps(s, turn.parentGone);
    var s1 := if turn.parentGone then BeginForcedShutdown(s) else s;
    ForceKeeps(s1, turn.sigterm);
    var s2 := if turn.sigterm then BeginForcedShutdown(s1) else s1;
    ListenForces(s2, turn.input);
    ForcedFollows(s1, s2);
    DueTurnSends(s, turn, false);
  }

  lemma ForcedFollows(s: State, s': State)
    requires Follows(s, s')
    ensures s.timers.forced ==> s'.timers.forced
    ensures s.phase == Stopping ==> s'.phase != Ready
  {
  }

  lemma ListenForces(s: State, input: Input)
    requires Inv(s) && !s.loop.finished && s.phase != Stopped
    requires (s.timers.forced && s.phase == Stopping) || ((input.EndOfInput? || input == Line(Hello)) && !s.loop.eof)
    ensures Listen(s, input).timers.forced && Listen(s, input).phase == Stopping
  {
    ListenKeeps(s, input);
    hide Inv, Core, HandleLaunch, HandleShutdown;
    ForcedFollows(s, Listen(s, input));
  }
}
