/** What every request gets in the turn that hears it, and what every reaped child leaves in the log. */
module SessionAnswers {
  import opened Basics
  import opened ProcessTree
  import opened SessionTables
  import opened SessionModel
  import opened SessionSafety
  import opened SessionRuns
  import opened SessionTiming

  // ---------------------------------------------------------------- shutdown requests

  /** What a shutdown request has to meet: a ready supervisor, a new id, a valid spec, a process. */
  ghost predicate Startable(s: State, id: string, spec: Spec)
  {
    && s.phase == Ready && id !in s.tables.requestIds && spec.valid
    && ForkChild(s.kernel, spec.child, spec.birth).1.Some?
  }

  /** Its controller runs, it is accepted, and its grace has begun; nothing is forced. */
  ghost predicate ShutdownBegun(s: State, r: State, id: string, child: Pid, graceMs: nat)
  {
    && r.phase == Stopping && !r.timers.forced
    && r.spawns == s.spawns + [Spawn(id, child, true)]
    && |r.log| == |s.log| + 1 && r.log[|s.log|].event == ShutdownAccepted(id)
    && r.timers.deadline == Some(r.log[|s.log|].at + ClampGrace(graceMs))
    && id in r.tables.controllers && r.tables.controllers[id] == Record(child, true)
    && child in r.tables.pidToRequest && r.tables.pidToRequest[child] == id
    && r.tables.inFlight == s.tables.inFlight
  }

  /** A shutdown that can be started is started, accepted, and not forced. */
  lemma StartableShutdownBegins(s: State, id: string, spec: Spec, graceMs: nat)
    requires Inv(s) && Startable(s, id, spec)
    ensures ShutdownBegun(s, HandleShutdown(s, id, spec, graceMs), id,
                          ForkChild(s.kernel, spec.child, spec.birth).1.value, graceMs)
  {
    assert !s.timers.forced;
    hide ForkChild, Inv, ClampGrace, Pass;
    var leaving := Leaving(s, id, graceMs);
    var (k, child) := ForkChild(s.kernel, spec.child, spec.birth);
    assert StartShutdown(leaving, id, spec) == GraceBegins(Spawned(leaving.(kernel := k), id, child.value, true), id);
  }

  /** A shutdown request is answered by one event that names it: its acceptance exactly if it can be started. */
  lemma ShutdownIsAnsweredOnce(s: State, id: string, spec: Spec, graceMs: nat)
    requires Inv(s)
    ensures var r := HandleShutdown(s, id, spec, graceMs);
            && |r.log| == |s.log| + 1
            && (if Startable(s, id, spec) then r.log[|s.log|].event == ShutdownAccepted(id)
                else r.log[|s.log|].event.Error? && r.log[|s.log|].event.request == Some(id))
            && (s.phase == Ready ==> id in r.tables.requestIds)
            && (!Startable(s, id, spec) ==> r.spawns == s.spawns)
            && (r.phase != s.phase <==> s.phase == Ready && id !in s.tables.requestIds)
  {
    if Startable(s, id, spec) {
      StartableShutdownBegins(s, id, spec, graceMs);
      ShutdownClaims(s, id, spec, graceMs);
      hide HandleShutdown, Inv, ForkChild;
    } else if s.phase == Ready && id !in s.tables.requestIds {
      FailedShutdownForces(s, id, spec, graceMs);
      ShutdownClaims(s, id, spec, graceMs);
      hide HandleShutdown, Inv, ForkChild;
    }
  }

  lemma ShutdownClaims(s: State, id: string, spec: Spec, graceMs: nat)
    requires s.phase == Ready
    ensures id in HandleShutdown(s, id, spec, graceMs).tables.requestIds
  {
    hide ForkChild, ClampGrace, Pass;
  }

  // ---------------------------------------------------------------- turns

  /** A turn in which nothing but its input happens, and the input is still open. */
  ghost predicate Calm(s: State, turn: Turn)
  {
    !s.loop.finished && !s.loop.eof && !turn.parentGone && !turn.sigterm
  }

  /** A line is handed to its handler; a handler that fails is reported as a protocol error. */
  lemma CalmTurnHears(s: State, turn: Turn, request: Request)
    requires Calm(s, turn) && turn.input == Line(request)
    ensures var (h, normally) := HandleRequest(s, request);
            Hear(s, turn) == if normally then h else Emit(h, Error(None, Protocol))
  {
    hide HandleRequest;
  }

  /** After listening, a turn starts no process. */
  lemma RestSpawnsNothing(s: State, turn: Turn)
    requires Inv(s) && !s.loop.finished && s.phase != Stopped
    ensures Tick(s, turn).spawns == Hear(s, turn).spawns
    ensures Hear(s, turn).log <= Tick(s, turn).log
    ensures Hear(s, turn).timers.deadline.Some? ==> Tick(s, turn).timers.deadline == Hear(s, turn).timers.deadline
    ensures Hear(s, turn).phase != Ready ==> Tick(s, turn).phase != Ready
    ensures Hear(s, turn).timers.forced ==> Tick(s, turn).timers.forced
  {
    hide Inv, Hear, Drain, AdvanceShutdown;
    HearKeeps(s, turn);
    var h := Hear(s, turn);
    DrainKeepsInv(h);
    AdvanceShutdownKeeps(Drain(h));
    RestOfTurn(s, turn);
    ForcedFollows(h, Tick(s, turn));
  }

  /** The turn that hears a launch answers it, first of all: accepted with a new controller exactly if admitted. */
  lemma LaunchTurn(s: State, turn: Turn, id: string, spec: Spec)
    requires Reachable(s) && Calm(s, turn) && turn.input == Line(Launch(id, spec))
    ensures var r := Tick(s, turn);
            var child := ForkChild(s.kernel, spec.child, spec.birth).1;
            && |r.log| > |s.log|
            && (if !Admitted(s, id, spec) then
                  r.log[|s.log|].event.Error? && r.log[|s.log|].event.request == Some(id) && r.spawns == s.spawns
                else
                  && r.spawns == s.spawns + [Spawn(id, child.value, false)]
                  && r.log[|s.log|].event == if spec.identity then LaunchAccepted(id, child.value) else Error(None, Protocol))
  {
    ReachableRuns(s);
    hide Reachable, Tick, Inv, ForkChild, HandleLaunch, Hear;
    CalmTurnHears(s, turn, Launch(id, spec));
    LaunchIsAnsweredOnce(s, id, spec);
    RestSpawnsNothing(s, turn);
    assert HandleRequest(s, Launch(id, spec)) == HandleLaunch(s, id, spec);
    var h := Hear(s, turn);
    assert |h.log| == |s.log| + 1;
    assert Tick(s, turn).log[|s.log|] == h.log[|s.log|];
  }

  lemma ReachableRuns(s: State)
    requires Reachable(s) && !s.loop.finished
    ensures Between(s) && Inv(s) && s.phase != Stopped
  {
    ReachableIsBetween(s);
  }

  /** The turn that hears a shutdown answers it, and starts its controller exactly if it can. */
  lemma ShutdownTurn(s: State, turn: Turn, id: string, spec: Spec, graceMs: nat)
    requires Reachable(s) && Calm(s, turn) && turn.input == Line(Shutdown(id, spec, graceMs))
    ensures var r := Tick(s, turn);
            var child := ForkChild(s.kernel, spec.child, spec.birth).1;
            && |r.log| > |s.log|
            && (if !Startable(s, id, spec) then
                  r.log[|s.log|].event.Error? && r.log[|s.log|].event.request == Some(id) && r.spawns == s.spawns
                else
                  && r.phase != Ready && r.spawns == s.spawns + [Spawn(id, child.value, true)]
                  && r.log[|s.log|].event == ShutdownAccepted(id)
                  && r.timers.deadline == Some(r.log[|s.log|].at + ClampGrace(graceMs)))
  {
    hide *;
    var h := HearsOneShutdown(s, turn, id, spec, graceMs);
    ReachableRuns(s);
    ShutdownIsAnsweredOnce(s, id, spec, graceMs);
    RestSpawnsNothing(s, turn);
    assert Tick(s, turn).log[|s.log|] == h.log[|s.log|];
    if Startable(s, id, spec) {
      StartableShutdownBegins(s, id, spec, graceMs);
      BegunParts(s, h, id, ForkChild(s.kernel, spec.child, spec.birth).1.value, graceMs);
    }
  }

  lemma HearsOneShutdown(s: State, turn: Turn, id: string, spec: Spec, graceMs: nat) returns (h: State)
    requires Calm(s, turn) && turn.input == Line(Shutdown(id, spec, graceMs))
    ensures h == Hear(s, turn) == HandleShutdown(s, id, spec, graceMs) && !s.loop.finished
    ensures Startable(s, id, spec) ==> ForkChild(s.kernel, spec.child, spec.birth).1.Some?
  {
    hide HandleShutdown, Hear;
    CalmTurnHears(s, turn, Shutdown(id, spec, graceMs));
    h := Hear(s, turn);
  }

  lemma BegunParts(s: State, r: State, id: string, child: Pid, graceMs: nat)
    requires ShutdownBegun(s, r, id, child, graceMs)
    ensures r.phase == Stopping && !r.timers.forced && r.spawns == s.spawns + [Spawn(id, child, true)]
    ensures |r.log| == |s.log| + 1 && r.timers.deadline == Some(r.log[|s.log|].at + ClampGrace(graceMs))
  {
  }

  /** While nothing forces it, the turn that begins a shutdown leaves it unforced. */
  lemma BegunIsNotForced(s: State, turn: Turn, id: string, spec: Spec, graceMs: nat)
    requires Reachable(s) && Calm(s, turn) && turn.input == Line(Shutdown(id, spec, graceMs)) && Startable(s, id, spec)
    ensures !Tick(s, turn).timers.forced
  {
    hide *;
    var h := HearsOneShutdown(s, turn, id, spec, graceMs);
    ReachableRuns(s);
    StartableShutdownBegins(s, id, spec, graceMs);
    BegunParts(s, h, id, ForkChild(s.kernel, spec.child, spec.birth).1.value, graceMs);
    RestForcesNothing(s, turn);
  }

  lemma RestForcesNothing(s: State, turn: Turn)
    requires Inv(s) && !s.loop.finished && s.phase != Stopped
    ensures Tick(s, turn).timers.forced == Hear(s, turn).timers.forced
  {
    hide Inv, Hear, Drain, AdvanceShutdown;
    HearKeeps(s, turn);
    var h := Hear(s, turn);
    DrainKeepsInv(h);
    AdvanceForcesNothing(Drain(h));
  }

  lemma AdvanceForcesNothing(s: State)
    requires Inv(s) && !s.loop.finished
    ensures AdvanceShutdown(s).timers.forced == s.timers.forced
  {
    if s.phase == Stopping {
      hide Inv, Drain, TermStep, KillStep;
      DrainKeepsInv(s);
      var d := Drain(s);
      if !d.echild {
        StepsForceNothing(d);
        TermStepKeeps(d);
        KillStepKeeps(TermStep(d));
        DrainKeepsInv(KillStep(TermStep(d)));
      }
    }
  }

  lemma StepsForceNothing(s: State)
    ensures KillStep(TermStep(s)).timers.forced == s.timers.forced
  {
    hide Pass;
  }

  /** A second greeting, whatever the phase, is reported and forces the shutdown. */
  lemma SecondGreetingForces(s: State, turn: Turn)
    requires Reachable(s) && Calm(s, turn) && turn.input == Line(Hello)
    ensures var r := Tick(s, turn);
            && r.timers.forced && r.phase != Ready && r.spawns == s.spawns
            && |r.log| > |s.log| && r.log[|s.log|].event == Error(None, Validation)
            && (r.phase == Stopped || SentSince(s, r, false))
  {
    ReachableRuns(s);
    ForcedTurnTerminates(s, turn);
    hide Reachable, Tick, Inv, Hear, SentSince, BeginForcedShutdown;
    CalmTurnHears(s, turn, Hello);
    var h := Hear(s, turn);
    GreetingForces(s);
    RestSpawnsNothing(s, turn);
    RestOfTurn(s, turn);
    ForcedFollows(h, Tick(s, turn));
    assert Tick(s, turn).log[|s.log|] == h.log[|s.log|];
  }

  lemma GreetingForces(s: State)
    requires s.phase != Stopped
    ensures var h := HandleRequest(s, Hello).0;
            && HandleRequest(s, Hello).1 && h.timers.forced && h.phase == Stopping && h.spawns == s.spawns
            && h.log == s.log + [Entry(s.kernel.clock, Error(None, Validation))]
  {
    hide Pass;
  }

  /** A line that cannot be read is reported and changes nothing else about the session's course. */
  lemma UnreadableIsReported(s: State, turn: Turn)
    requires Reachable(s) && Calm(s, turn) && turn.input == Unreadable
    ensures var r := Tick(s, turn);
            && |r.log| > |s.log| && r.log[|s.log|].event == Error(None, Protocol)
            && r.spawns == s.spawns && r.timers.forced == s.timers.forced
            && (s.phase == Ready ==> r.phase == Ready)
  {
    ReachableRuns(s);
    assert Hear(s, turn) == Emit(s, Error(None, Protocol));
    hide Reachable, Tick, Inv, Hear;
    RestSpawnsNothing(s, turn);
    RestForcesNothing(s, turn);
    RestOfTurn(s, turn);
    assert Tick(s, turn).log[|s.log|] == Hear(s, turn).log[|s.log|];
  }

  /** After the end of input nothing is heard any more. */
  lemma DeafAfterTheEnd(s: State, input: Input)
    ensures Listen(s, EndOfInput).loop.eof && (s.loop.eof ==> Listen(s, input) == s)
  {
    hide HandleRequest;
  }

  // ---------------------------------------------------------------- reaped children

  /** The status waitpid gives is the one the child died with. */
  lemma WaitReportsTheStatus(k: Kernel)
    ensures var (k', answer) := Wait(k);
            answer.Reaped? ==>
              && answer.pid in Pass(k).processes && Pass(k).processes[answer.pid].parent == SELF
              && Pass(k).processes[answer.pid].exit == Some(answer.status)
  {
  }

  lemma {:induction false} DrainExtendsLog(s: State)
    ensures s.log <= Drain(s).log
    decreases |s.kernel.future|
  {
    var (k, answer) := Wait(s.kernel);
    if answer.Reaped? {
      var r := Reap(s.(kernel := k, echild := false), answer.pid, answer.status);
      hide Wait, Strike, IsShutdown;
      DrainExtendsLog(r);
    }
  }

  /** The exit of a launch is reported with the status waitpid gave; that of anyone else is not. */
  lemma ReapedIsReported(s: State, pid: Pid, status: ExitStatus)
    requires Wait(s.kernel).1 == Reaped(pid, status)
    ensures var d, t := Drain(s), s.tables;
            if pid in t.pidToRequest && !IsShutdown(t, t.pidToRequest[pid]) then
              |d.log| > |s.log| && d.log[|s.log|].event == ControllerExited(t.pidToRequest[pid], pid, status)
            else
              d == Drain(s.(kernel := Wait(s.kernel).0, echild := false,
                            tables := if pid in t.pidToRequest then Strike(t, pid) else t))
  {
    var k := Wait(s.kernel).0;
    var r := Reap(s.(kernel := k, echild := false), pid, status);
    assert Drain(s) == Drain(r);
    hide Wait, Drain;
    DrainExtendsLog(r);
  }

  /** A drain goes on until waitpid has nothing more to report, and ends with that answer. */
  lemma {:induction false} DrainGoesOn(s: State) returns (last: Kernel)
    ensures !Wait(last).1.Reaped?
    ensures Drain(s).kernel == Wait(last).0 && (Drain(s).echild <==> Wait(last).1 == NoChildren)
    decreases |s.kernel.future|
  {
    var (k, answer) := Wait(s.kernel);
    if answer.Reaped? {
      var r := Reap(s.(kernel := k, echild := false), answer.pid, answer.status);
      hide Wait, Reap;
      last := DrainGoesOn(r);
    } else {
      last := s.kernel;
    }
  }

  /** A drain finds no children exactly if no process is left below the sidecar. */
  lemma DrainSeesNobodyIff(s: State)
    requires Inv(s) && !s.loop.finished && s.phase != Stopped
    ensures Drain(s).echild <==> Drain(s).kernel.processes == map[]
  {
    DrainKeepsInv(s);
    var last := DrainGoesOn(s);
    if !Drain(s).echild {
      StillSomebody(last);
    }
  }

  lemma StillSomebody(k: Kernel)
    requires Wait(k).1 == NothingYet
    ensures Wait(k).0.processes != map[]
  {
  }

  /** A signal goes to every process that is below the sidecar when it is sent. */
  lemma SignalsReachEverybody(s: State)
    ensures |TermStep(s).sent| > |s.sent| ==> TermStep(s).sent[|s.sent|].targets == TermStep(s).kernel.processes.Keys
    ensures |KillStep(s).sent| > |s.sent| ==> KillStep(s).sent[|s.sent|].targets == KillStep(s).kernel.processes.Keys
  {
    hide Pass;
  }

  // ---------------------------------------------------------------- idleness

  lemma BodyOfReady(s: State, turn: Turn)
    requires Inv(s) && !s.loop.finished && s.phase != Stopped && Body(s, turn).phase == Ready
    ensures Body(s, turn).echild <==> Body(s, turn).kernel.processes == map[]
  {
    hide Inv, Hear, Drain, AdvanceShutdown;
    HearKeeps(s, turn);
    var h := Hear(s, turn);
    DrainKeepsInv(h);
    ReadyStays(Drain(h));
    DrainSeesNobodyIff(h);
  }

  /**
   A turn reports Idle exactly if the supervisor is ready, nobody is left, and the turn before
   was the first to find nobody. Then the tables are empty too.
   */
  lemma IdleIsReportedIff(s: State, turn: Turn)
    requires Reachable(s) && !s.loop.finished
    ensures var b := Body(s, turn);
            var n := NoteIdle(b);
            && n.log == (if b.phase == Ready && b.kernel.processes == map[] && s.loop.idleStreak == 1
                         then b.log + [Entry(b.kernel.clock, Idle)] else b.log)
            && (n.log != b.log ==>
                  && s.kernel.processes == map[]
                  && b.tables.pidToRequest == map[] && b.tables.controllers == map[] && b.tables.inFlight == 0)
            && (n.phase == Ready ==>
                  n.loop.idleStreak == if b.kernel.processes == map[] then s.loop.idleStreak + 1 else 0)
  {
    ReachableRuns(s);
    var b := Body(s, turn);
    hide Reachable, Body, Sound, Agree, LogAgrees, Ended, ShutdownOnce, Timed, SpawnOrder, GraceKept;
    BodyKeeps(s, turn);
    ForcedFollows(s, b);
    if b.phase == Ready {
      BodyOfReady(s, turn);
      if b.kernel.processes == map[] {
        NobodyLeft(b.tables);
      }
    }
  }

  /** `n` turns in which nothing happens. */
  function QuietTurns(n: nat): (r: seq<Turn>)
  {
    seq(n, _ => Turn(false, false, NoInput))
  }

  /** A ready session without processes, `n` quiet turns old. */
  ghost predicate Resting(s: State, n: nat)
  {
    && s.phase == Ready && !s.loop.finished && s.kernel.processes == map[]
    && s.loop.idleStreak == n && (s.loop.idleEmitted <==> n >= 2)
    && (if n < 2 then s.log == [] else |s.log| == 1 && s.log[0].event == Idle)
  }

  lemma RestingTurn(s: State, n: nat)
    requires Resting(s, n)
    ensures Resting(Tick(s, Turn(false, false, NoInput)), n + 1)
  {
    QuietHear(s);
    DrainNobody(s);
    hide Hear, Drain;
  }

  /** A session without processes reports Idle after two quiet turns, once, and nothing else ever. */
  lemma {:induction false} EmptySessionIsIdle(k: Kernel, n: nat)
    requires k.processes == map[]
    ensures Resting(Run(Start(k), QuietTurns(n)), n)
  {
    if n > 0 {
      EmptySessionIsIdle(k, n - 1);
      RestingTurn(Run(Start(k), QuietTurns(n - 1)), n - 1);
      hide Tick, Resting;
      var turn := Turn(false, false, NoInput);
      assert QuietTurns(n) == QuietTurns(n - 1) + [turn];
      RunSnoc(Start(k), QuietTurns(n - 1), turn);
    }
  }

  lemma {:induction false} RunSnoc(s: State, turns: seq<Turn>, turn: Turn)
    ensures Run(s, turns + [turn]) == Tick(Run(s, turns), turn)
    decreases |turns|
  {
    hide Tick;
    if turns == [] {
      assert turns + [turn] == [turn];
      RunOne(s, turn);
    } else {
      assert (turns + [turn])[1..] == turns[1..] + [turn];
      RunSnoc(Tick(s, turns[0]), turns[1..], turn);
    }
  }

  // ---------------------------------------------------------------- the life of a launch

  /** A launched child that ends at once: accepted, then reported with its pid and status, and nobody is left. */
  lemma LaunchIsAcceptedAndReported(id: string, pid: Pid, status: ExitStatus)
    requires pid != SELF
    ensures exists s: State :: Reachable(s) && |s.log| == 2 && s.log[0].event == LaunchAccepted(id, pid)
                               && s.log[1].event == ControllerExited(id, pid, status)
                               && s.kernel.processes == map[] && s.tables.inFlight == 0
  {
    var dies := Moment([Exit(pid, status)], 0, pid);
    var k := Kernel(map[], 0, [QUIET, dies]);
    var spec := Spec(true, Some(pid), 1, true);
    var turn := Turn(false, false, Line(Launch(id, spec)));
    var h := LaunchHeard(k, id, pid, dies);
    var d := DeathReported(h, id, pid, status, dies);
    hide Hear, Drain;
    var s := Tick(Start(k), turn);
    assert Sound(k.processes);
    OneTurn(k, turn);
  }

  lemma LaunchHeard(k: Kernel, id: string, pid: Pid, dies: Moment) returns (h: State)
    requires k == Kernel(map[], 0, [QUIET, dies]) && pid != SELF
    ensures h == Hear(Start(k), Turn(false, false, Line(Launch(id, Spec(true, Some(pid), 1, true)))))
    ensures h.kernel == Kernel(map[pid := Process(SELF, 1, None)], 0, [dies])
    ensures h.tables == Tables({id}, 1, map[pid := id], map[id := Record(pid, false)])
    ensures |h.log| == 1 && h.log[0].event == LaunchAccepted(id, pid) && h.phase == Ready
    ensures h.loop == Start(k).loop
  {
    h := Hear(Start(k), Turn(false, false, Line(Launch(id, Spec(true, Some(pid), 1, true)))));
    QuietPass(k, 0, [dies]);
    hide Pass;
  }

  lemma DeathReported(h: State, id: string, pid: Pid, status: ExitStatus, dies: Moment) returns (d: State)
    requires h.kernel == Kernel(map[pid := Process(SELF, 1, None)], 0, [dies]) && pid != SELF
    requires dies == Moment([Exit(pid, status)], 0, pid)
    requires h.tables == Tables({id}, 1, map[pid := id], map[id := Record(pid, false)])
    requires |h.log| == 1 && h.phase == Ready
    ensures d == Drain(h) && |d.log| == 2 && d.log[0] == h.log[0] && d.log[1].event == ControllerExited(id, pid, status)
    ensures d.kernel.processes == map[] && d.tables.inFlight == 0 && d.phase == Ready && d.loop == h.loop && d.echild
  {
    var ps := map[pid := Process(SELF, 1, None)];
    DeadChild(ps, pid, status);
    var k := Wait(h.kernel).0;
    OneDeath(h.kernel, pid, status, dies);
    var r := Reap(h.(kernel := k, echild := false), pid, status);
    assert Drain(h) == Drain(r);
    hide Drain, Wait;
    DrainNobody(r);
    d := Drain(h);
  }

  lemma DeadChild(ps: Processes, pid: Pid, status: ExitStatus)
    requires ps == map[pid := Process(SELF, 1, None)] && pid != SELF
    ensures HappenAll(ps, [Exit(pid, status)]) == map[pid := Process(SELF, 1, Some(status))]
  {
    assert [Exit(pid, status)][1..] == [];
    var after := Happens(ps, Exit(pid, status));
    assert after == map[pid := Process(SELF, 1, Some(status))];
    assert HappenAll(after, []) == after;
  }

  lemma OneDeath(k: Kernel, pid: Pid, status: ExitStatus, dies: Moment)
    requires k == Kernel(map[pid := Process(SELF, 1, None)], 0, [dies]) && pid != SELF
    requires dies == Moment([Exit(pid, status)], 0, pid)
    ensures Wait(k) == (Kernel(map[], 0, []), Reaped(pid, status))
  {
    DeadChild(k.processes, pid, status);
    assert k.future[1..] == [];
    var k' := Pass(k);
    assert k'.processes == map[pid := Process(SELF, 1, Some(status))];
    assert pid in k'.processes && k'.processes[pid].parent == SELF;
    assert k'.processes - {pid} == map[];
  }
}
