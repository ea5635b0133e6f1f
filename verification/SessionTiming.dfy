/** The timing of shutdown signals over whole runs, and when SIGKILL really keeps its distance. */
module SessionTiming {
  import opened Basics
  import opened ProcessTree
  import opened SessionTables
  import opened SessionModel
  import opened SessionSafety
  import opened SessionRuns

  // ---------------------------------------------------------------- short sessions

  lemma DrainNobody(s: State)
    requires s.kernel.processes == map[]
    ensures var d := Drain(s); d == s.(kernel := d.kernel, echild := true) && d.kernel.processes == map[]
  {
    PassKeeps(s.kernel);
    hide Pass;
  }

  /** A session without processes ends in the turn in which it is told to. */
  lemma EmptySessionStops(k: Kernel)
    requires k.processes == map[]
    ensures var s := Run(Start(k), [Turn(false, true, NoInput)]);
            Reachable(s) && |s.log| == 1 && s.log[0].event == SessionStopped
  {
    var turn := Turn(false, true, NoInput);
    PassKeeps(k);
    var h := Hear(Start(k), turn);
    assert h.phase == Stopping && h.log == [] && h.kernel.processes == map[];
    hide Pass, Drain, Hear;
    DrainNobody(h);
    DrainNobody(Drain(h));
    var s := Tick(Start(k), turn);
    assert s.log == [] + [Entry(s.kernel.clock, SessionStopped)];
    assert [turn][1..] == [] && Run(s, []) == s;
    assert Run(Start(k), [turn]) == s;
  }

  lemma QuietPass(k: Kernel, elapsed: nat, rest: seq<Moment>)
    requires k.future == [Moment([], elapsed, SELF)] + rest
    ensures Pass(k) == Kernel(k.processes, k.clock + elapsed, rest)
  {
    assert k.future[1..] == rest;
  }

  lemma QuietDrain(s: State, rest: seq<Moment>)
    requires SELF !in s.kernel.processes && HasChildren(s.kernel.processes)
    requires s.kernel.future == [Moment([], 0, SELF)] + rest
    ensures Drain(s) == s.(kernel := Kernel(s.kernel.processes, s.kernel.clock, rest), echild := false)
  {
    QuietPass(s.kernel, 0, rest);
    hide Pass;
  }

  lemma LastDrain(s: State)
    requires HasChildren(s.kernel.processes) && s.kernel.future == []
    ensures Drain(s) == s.(echild := false)
  {
  }

  const QUIET := Moment([], 0, SELF)

  /** The moments of one turn: two drains, then a reading, SIGTERM after `delay`, and a reading after `pause`. */
  function TurnMoments(delay: nat, pause: nat): (r: seq<Moment>)
  {
    [QUIET] + ([QUIET] + Escalation(delay, pause))
  }

  function Escalation(delay: nat, pause: nat): (r: seq<Moment>)
  {
    [QUIET] + ([Moment([], delay, SELF)] + ([Moment([], pause, SELF)] + []))
  }

  /** The reading that counts for SIGKILL when SIGTERM is sent now. */
  function Reading(s: State): (at: nat)
  {
    if s.timers.termSentAt.Some? then s.timers.termSentAt.value else s.kernel.clock
  }

  /** SIGTERM after `delay`, SIGKILL after a further `pause`. */
  ghost predicate Escalated(d: State, r: State, delay: nat, pause: nat)
  {
    var all := d.kernel.processes.Keys;
    var at := d.kernel.clock + delay;
    && r.sent == d.sent + [Sent(false, at, all), Sent(true, at + pause, all)]
    && r.timers.termSentAt == Some(Reading(d))
    && r.phase == d.phase && r.loop == d.loop
  }

  lemma TermAfter(d: State, delay: nat, pause: nat)
    requires d.timers.deadline.Some? && (d.timers.forced || d.timers.deadline.value <= d.kernel.clock)
    requires d.kernel.future == Escalation(delay, pause)
    ensures var r := TermStep(d);
            && r.sent == d.sent + [Sent(false, d.kernel.clock + delay, d.kernel.processes.Keys)]
            && r.timers.termSentAt == Some(Reading(d)) && r.phase == d.phase && r.loop == d.loop
            && r.kernel == Kernel(d.kernel.processes, d.kernel.clock + delay, [Moment([], pause, SELF)] + [])
  {
    var rest := [Moment([], pause, SELF)] + [];
    QuietPass(d.kernel, 0, [Moment([], delay, SELF)] + rest);
    QuietPass(Pass(d.kernel), delay, rest);
    hide Pass;
  }

  lemma KillAfter(t: State, pause: nat)
    requires t.kernel.future == [Moment([], pause, SELF)] + []
    requires t.timers.termSentAt.Some? && t.timers.termSentAt.value + KILL_DELAY_MS <= t.kernel.clock + pause
    ensures var r := KillStep(t);
            && r.sent == t.sent + [Sent(true, t.kernel.clock + pause, t.kernel.processes.Keys)]
            && r.timers.termSentAt == t.timers.termSentAt && r.phase == t.phase && r.loop == t.loop
            && r.kernel == Kernel(t.kernel.processes, t.kernel.clock + pause, [])
  {
    QuietPass(t.kernel, pause, []);
    var k := Pass(t.kernel);
    assert Pass(k) == k;
    hide Pass;
  }

  lemma EscalationOfOneTurn(h: State, delay: nat, pause: nat)
    requires h.phase == Stopping && SELF !in h.kernel.processes && HasChildren(h.kernel.processes)
    requires h.timers.deadline.Some? && (h.timers.forced || h.timers.deadline.value <= h.kernel.clock)
    requires h.kernel.future == TurnMoments(delay, pause)
    requires Reading(h) + KILL_DELAY_MS <= h.kernel.clock + delay + pause
    ensures Escalated(h, AdvanceShutdown(Drain(h)), delay, pause)
  {
    hide Drain, TermStep, KillStep, HasChildren, Escalation;
    QuietDrain(h, [QUIET] + Escalation(delay, pause));
    var d := Drain(h);
    QuietDrain(d, Escalation(delay, pause));
    TermAfter(Drain(d), delay, pause);
    var t := TermStep(Drain(d));
    KillAfter(t, pause);
    LastDrain(KillStep(t));
    TwoMore(d.sent, t.sent[|d.sent|], KillStep(t).sent[|d.sent| + 1]);
  }

  lemma TwoMore(sent: seq<Sent>, a: Sent, b: Sent)
    ensures sent + [a] + [b] == sent + [a, b]
  {
  }

  lemma TickOfStopping(s: State, turn: Turn)
    requires !s.loop.finished
    requires var a := AdvanceShutdown(Drain(Hear(s, turn))); a.phase == Stopping
    ensures Tick(s, turn) == AdvanceShutdown(Drain(Hear(s, turn)))
  {
    hide AdvanceShutdown, Drain, Hear;
  }

  lemma OneTurn(k: Kernel, turn: Turn)
    requires Sound(k.processes)
    ensures Reachable(Tick(Start(k), turn))
  {
    hide Tick;
    RunOne(Start(k), turn);
  }

  lemma RunOne(s: State, turn: Turn)
    ensures Run(s, [turn]) == Tick(s, turn)
  {
    hide Tick;
    assert [turn][1..] == [] && Run(Tick(s, turn), []) == Tick(s, turn);
  }

  lemma ForcedAtOnce(k: Kernel, rest: seq<Moment>)
    requires k.future == [QUIET] + rest
    ensures var h := Hear(Start(k), Turn(false, true, NoInput));
            && h.phase == Stopping && h.timers.forced && h.timers.deadline.Some? && h.timers.termSentAt.None?
            && h.kernel == Kernel(k.processes, k.clock, rest) && h.sent == [] && !h.loop.finished
  {
    QuietPass(k, 0, rest);
    hide Pass;
  }

  /** A child that outlives SIGTERM is sent SIGKILL, whatever passes before SIGTERM and between the two. */
  lemma StubbornChildIsKilled(delay: nat, pause: nat)
    requires delay + pause >= KILL_DELAY_MS
    ensures exists s: State :: Reachable(s) && |s.sent| == 2 && !s.sent[0].kill && s.sent[1].kill
                               && s.timers.termSentAt == Some(0) && s.sent[0].at == delay && s.sent[1].at == delay + pause
  {
    hide Pass, Drain, Hear, AdvanceShutdown, TurnMoments;
    var ps: Processes := map[1 := Process(SELF, 0, None)];
    assert 1 in ps && ps[1].parent == SELF;
    var k := Kernel(ps, 0, [QUIET] + TurnMoments(delay, pause));
    var turn := Turn(false, true, NoInput);
    ForcedAtOnce(k, TurnMoments(delay, pause));
    var h := Hear(Start(k), turn);
    EscalationOfOneTurn(h, delay, pause);
    TickOfStopping(Start(k), turn);
    OneTurn(k, turn);
  }

  // ---------------------------------------------------------------- the requested grace

  /** After listening, a turn goes on to its end without taking anything back. */
  lemma RestOfTurn(s: State, turn: Turn)
    requires Inv(s) && !s.loop.finished && s.phase != Stopped
    ensures Follows(Hear(s, turn), Tick(s, turn)) && (Hear(s, turn).phase == Ready ==> Tick(s, turn).phase == Ready)
  {
    hide Inv, Follows, Hear, Drain, AdvanceShutdown, NoteIdle, Conclude;
    HearKeeps(s, turn);
    var h := Hear(s, turn);
    DrainKeepsInv(h);
    var d := Drain(h);
    AdvanceShutdownKeeps(d);
    var a := AdvanceShutdown(d);
    NoteIdleKeeps(a);
    var n := NoteIdle(a);
    ConcludeKeeps(n);
    FollowsTransitive(h, d, a);
    FollowsTransitive(h, a, n);
    FollowsTransitive(h, n, Conclude(n));
  }

  /** A turn that hears a shutdown and is not forced has handled exactly that request. */
  lemma HearsShutdown(s: State, turn: Turn, id: string, spec: Spec, graceMs: nat)
    requires Inv(s) && !s.loop.finished && s.phase == Ready && !s.loop.eof
    requires turn.input == Line(Shutdown(id, spec, graceMs))
    requires !Hear(s, turn).timers.forced
    ensures !s.timers.forced && Hear(s, turn) == HandleShutdown(s, id, spec, graceMs)
  {
    hide Inv, Core, BeginForcedShutdown, HandleShutdown, Follows;
    ForceKeeps(s, turn.parentGone);
    var s1 := if turn.parentGone then BeginForcedShutdown(s) else s;
    ForceKeeps(s1, turn.sigterm);
    var s2 := if turn.sigterm then BeginForcedShutdown(s1) else s1;
    ListenKeeps(s2, turn.input);
    ForcedFollows(s, s1);
    ForcedFollows(s1, s2);
    ForcedFollows(s2, Listen(s2, turn.input));
  }

  /** The acceptance of the request is in the log, and the signal came no sooner than its grace after it. */
  ghost predicate AfterGrace(log: Log, id: string, graceMs: nat, at: nat)
  {
    exists j: nat :: j < |log| && log[j].event == ShutdownAccepted(id) && at >= log[j].at + ClampGrace(graceMs)
  }

  /**
   From the request to the signal: a turn that hears a shutdown leaves Ready; as long as nothing
   forces the shutdown, over all later turns, every signal comes at or after the acceptance of
   that request plus its requested grace, clamped.
   */
  lemma NoSignalBeforeRequestedGrace(
    s: State, turn: Turn, id: string, spec: Spec, graceMs: nat, turns: seq<Turn>, i: nat)
    requires Reachable(s) && s.phase == Ready && !s.loop.eof
    requires turn.input == Line(Shutdown(id, spec, graceMs)) && Tick(s, turn).phase != Ready
    requires var r := Run(Tick(s, turn), turns); !r.timers.forced && i < |r.sent|
    ensures var r := Run(Tick(s, turn), turns); AfterGrace(r.log, id, graceMs, r.sent[i].at)
  {
    ReachableIsBetween(s);
    hide Inv, Reachable, Tick, Run, ClampGrace;
    var s1 := Tick(s, turn);
    var r := Run(s1, turns);
    TickKeeps(s, turn);
    RunKeeps(s1, turns);
    ForcedFollows(s1, r);
    var at := ShutdownIsAccepted(s, turn, id, spec, graceMs);
    assert r.log[at] == s1.log[at];
    SignalsAfterDeadline(r, i);
  }

  /** The turn that hears the shutdown and leaves Ready without being forced has accepted it. */
  lemma ShutdownIsAccepted(s: State, turn: Turn, id: string, spec: Spec, graceMs: nat) returns (at: nat)
    requires Between(s) && s.phase == Ready && !s.loop.eof
    requires turn.input == Line(Shutdown(id, spec, graceMs)) && Tick(s, turn).phase != Ready
    requires !Tick(s, turn).timers.forced
    ensures var r := Tick(s, turn);
            && at < |r.log| && r.log[at].event == ShutdownAccepted(id)
            && r.timers.deadline == Some(r.log[at].at + ClampGrace(graceMs))
  {
    ReadyRuns(s);
    hide Inv, Hear, Tick, HandleShutdown, ClampGrace;
    var h := Hear(s, turn);
    HearKeeps(s, turn);
    RestOfTurn(s, turn);
    ForcedFollows(h, Tick(s, turn));
    HearsShutdown(s, turn, id, spec, graceMs);
    ShutdownSetsDeadline(s, id, spec, graceMs);
    at := |h.log| - 1;
    assert Tick(s, turn).log[at] == h.log[at];
  }

  lemma ReadyRuns(s: State)
    requires Between(s) && s.phase == Ready
    ensures !s.loop.finished
  {
  }

  lemma SignalsAfterDeadline(s: State, i: nat)
    requires Between(s) && !s.timers.forced && i < |s.sent|
    ensures s.timers.deadline.Some? && s.timers.deadline.value <= s.sent[i].at
  {
    hide Sound, Agree, LogAgrees, ShutdownOnce, SpawnOrder, GraceKept, Ended;
    assert InTime(s.sent[i], s.timers, s.kernel.clock);
  }

  // ---------------------------------------------------------------- when SIGKILL keeps its distance

  /** For every delay between the reading and SIGTERM some run sends SIGKILL less than two seconds after SIGTERM. */
  lemma KillCanFollowSooner(delay: nat)
    requires delay > 0
    ensures exists s: State :: Reachable(s) && |s.sent| == 2 && !s.sent[0].kill && s.sent[1].kill
                               && s.timers.termSentAt.Some? && s.sent[0].at == s.timers.termSentAt.value + delay
                               && s.sent[1].at < s.sent[0].at + KILL_DELAY_MS
  {
    hide Reachable;
    var pause := if delay < KILL_DELAY_MS then KILL_DELAY_MS - delay else 0;
    StubbornChildIsKilled(delay, pause);
    var s: State :| Reachable(s) && |s.sent| == 2 && !s.sent[0].kill && s.sent[1].kill
                    && s.timers.termSentAt == Some(0) && s.sent[0].at == delay && s.sent[1].at == delay + pause;
  }

  /** A run on from `s` in which processes and clock behave as `future` says. */
  ghost function Continued(s: State, future: seq<Moment>, turns: seq<Turn>): State
  {
    Run(s.(kernel := s.kernel.(future := future)), turns)
  }

  /** However things go on, every further SIGKILL comes at least two seconds after the first SIGTERM. */
  ghost predicate DistanceKept(s: State)
    requires s.sent != []
  {
    forall future, turns, i: nat ::
      |s.sent| <= i < |Continued(s, future, turns).sent| && Continued(s, future, turns).sent[i].kill ==>
        s.sent[0].at + KILL_DELAY_MS <= Continued(s, future, turns).sent[i].at
  }

  lemma AnyFuture(s: State, future: seq<Moment>)
    requires Between(s)
    ensures Between(s.(kernel := s.kernel.(future := future)))
  {
    hide Sound, Agree, LogAgrees, Ended, ShutdownOnce, SpawnOrder, Timed, GraceKept;
  }

  lemma TermIsFirst(s: State)
    requires Between(s) && s.timers.termSentAt.Some?
    ensures s.sent != [] && !s.sent[0].kill && s.timers.termSentAt.value <= s.sent[0].at <= s.kernel.clock
    ensures s.phase == Stopping && !s.timers.forced ==> s.timers.deadline.Some? && s.timers.deadline.value <= s.kernel.clock
    ensures s.phase == Stopping ==> s.timers.deadline.Some? && !s.loop.finished
  {
    hide Sound, Agree, LogAgrees, ShutdownOnce, SpawnOrder, GraceKept;
    assert InTime(s.sent[0], s.timers, s.kernel.clock);
  }

  lemma KillsAreInTime(s: State, i: nat)
    requires Between(s) && i < |s.sent| && s.sent[i].kill
    ensures s.timers.termSentAt.Some? && s.timers.termSentAt.value + KILL_DELAY_MS <= s.sent[i].at
  {
    hide Sound, Agree, LogAgrees, ShutdownOnce, SpawnOrder, GraceKept, Ended;
    assert InTime(s.sent[i], s.timers, s.kernel.clock);
  }

  /** Nobody is left and the deadline is set: listening starts nothing and waits for nothing. */
  ghost predicate Deserted(s: State, sent: seq<Sent>)
  {
    s.phase == Stopping && s.timers.deadline.Some? && s.kernel.processes == map[] && s.sent == sent
  }

  lemma ForcedDeserted(s: State, sent: seq<Sent>)
    requires Deserted(s, sent)
    ensures Deserted(BeginForcedShutdown(s), sent)
  {
  }

  lemma ListenDeserted(s: State, sent: seq<Sent>, input: Input)
    requires Deserted(s, sent)
    ensures Deserted(Listen(s, input), sent)
  {
    hide BeginForcedShutdown;
    ForcedDeserted(s.(loop := s.loop.(eof := true)), sent);
    ForcedDeserted(Emit(s, Error(None, Validation)), sent);
  }

  lemma HearNobody(s: State, turn: Turn)
    requires s.phase == Stopping && s.timers.deadline.Some? && s.kernel.processes == map[]
    ensures var h := Hear(s, turn);
            h.phase == Stopping && h.kernel.processes == map[] && h.sent == s.sent && h.timers.deadline.Some?
  {
    hide BeginForcedShutdown, Listen;
    ForcedDeserted(s, s.sent);
    var s1 := if turn.parentGone then BeginForcedShutdown(s) else s;
    ForcedDeserted(s1, s.sent);
    var s2 := if turn.sigterm then BeginForcedShutdown(s1) else s1;
    ListenDeserted(s2, s.sent, turn.input);
  }

  /** Once nobody is left, nothing is signalled any more: the next turn ends the session. */
  lemma NobodyIsSignalled(s: State, turn: Turn)
    requires s.phase == Stopping && s.timers.deadline.Some? && s.kernel.processes == map[] && !s.loop.finished
    ensures Tick(s, turn).sent == s.sent && Tick(s, turn).loop.finished
  {
    HearNobody(s, turn);
    var h := Hear(s, turn);
    DrainNobody(h);
    DrainNobody(Drain(h));
    hide Hear, Drain;
  }

  lemma NobodyIsSignalledLater(s: State, turns: seq<Turn>)
    requires s.phase == Stopping && s.timers.deadline.Some? && s.kernel.processes == map[] && !s.loop.finished
    ensures Run(s, turns).sent == s.sent
  {
    if turns != [] {
      NobodyIsSignalled(s, turns[0]);
      hide Tick;
      FinishedStays(Tick(s, turns[0]), turns[1..]);
    }
  }

  lemma DistanceIsKept(s: State, future: seq<Moment>, turns: seq<Turn>, i: nat)
    requires Between(s) && s.phase == Stopping && s.timers.termSentAt.Some? && s.sent != []
    requires s.sent[0].at == s.timers.termSentAt.value || s.sent[0].at + KILL_DELAY_MS <= s.kernel.clock
             || s.kernel.processes == map[]
    requires |s.sent| <= i < |Continued(s, future, turns).sent| && Continued(s, future, turns).sent[i].kill
    ensures s.sent[0].at + KILL_DELAY_MS <= Continued(s, future, turns).sent[i].at
  {
    hide Run, Inv;
    var s' := s.(kernel := s.kernel.(future := future));
    var r := Run(s', turns);
    AnyFuture(s, future);
    RunKeeps(s', turns);
    KillsAreInTime(r, i);
    if s.kernel.processes == map[] {
      TermIsFirst(s);
      NobodyIsSignalledLater(s', turns);
    }
  }

  lemma DistanceIsLost(s: State)
    requires Between(s) && s.phase == Stopping && s.timers.termSentAt.Some? && s.sent != []
    requires s.timers.termSentAt.value < s.sent[0].at && s.kernel.clock < s.sent[0].at + KILL_DELAY_MS
    requires s.kernel.processes != map[]
    ensures !DistanceKept(s)
  {
    hide BeginForcedShutdown, Listen, DistanceKept, Agree, LogAgrees, Ended, ShutdownOnce, SpawnOrder, Timed, GraceKept, Drain, AdvanceShutdown, TurnMoments, Tick, Run;
    TermIsFirst(s);
    assert Sound(s.kernel.processes);
    SomebodyIsAChild(s.kernel.processes);
    var due := s.timers.termSentAt.value + KILL_DELAY_MS;
    var pause := if s.kernel.clock < due then due - s.kernel.clock else 0;
    var future := TurnMoments(0, pause);
    var s' := s.(kernel := s.kernel.(future := future));
    var turn := Turn(false, false, NoInput);
    QuietHear(s');
    hide Inv, Hear, HasChildren, Sound;
    EscalationOfOneTurn(s', 0, pause);
    TickOfStopping(s', turn);
    var r := Tick(s', turn);
    RunOne(s', turn);
    assert Continued(s, future, [turn]) == r;
    LateKillBreaks(s, future, [turn], |s.sent| + 1);
  }

  lemma QuietHear(s: State)
    ensures Hear(s, Turn(false, false, NoInput)) == s
  {
  }

  lemma LateKillBreaks(s: State, future: seq<Moment>, turns: seq<Turn>, i: nat)
    requires s.sent != [] && |s.sent| <= i < |Continued(s, future, turns).sent| && Continued(s, future, turns).sent[i].kill
    requires Continued(s, future, turns).sent[i].at < s.sent[0].at + KILL_DELAY_MS
    ensures !DistanceKept(s)
  {
    hide Continued;
  }

  /**
   Once SIGTERM was sent, every further SIGKILL of every continuation keeps two seconds from it
   exactly when no time passed between the reading and SIGTERM, or the two seconds are already
   over, or nobody is left to signal.
   */
  lemma DistanceKeptIff(s: State)
    requires Reachable(s) && s.phase == Stopping && s.timers.termSentAt.Some?
    ensures s.sent != []
    ensures DistanceKept(s) <==>
            || s.sent[0].at == s.timers.termSentAt.value
            || s.sent[0].at + KILL_DELAY_MS <= s.kernel.clock
            || s.kernel.processes == map[]
  {
    ReachableIsBetween(s);
    TermIsFirst(s);
    hide Reachable, Between, Continued;
    if || s.sent[0].at == s.timers.termSentAt.value
       || s.sent[0].at + KILL_DELAY_MS <= s.kernel.clock
       || s.kernel.processes == map[] {
      forall future, turns, i: nat
        | |s.sent| <= i < |Continued(s, future, turns).sent| && Continued(s, future, turns).sent[i].kill
        ensures s.sent[0].at + KILL_DELAY_MS <= Continued(s, future, turns).sent[i].at
      {
        DistanceIsKept(s, future, turns, i);
      }
    } else {
      DistanceIsLost(s);
    }
  }
}
