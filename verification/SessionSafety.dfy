/**
 What every step of the session supervisor keeps: agreeing tables and log, the order of phases,
 and the timing of signals.
 */
module SessionSafety {
  import opened Basics
  import opened ProcessTree
  import opened SessionTables
  import opened SessionModel

  // ---------------------------------------------------------------- the invariant

  /** The final event is written once, last, by a stopped supervisor whose loop then returns. */
  ghost predicate Ended(log: Log, finished: bool, phase: Phase)
  {
    && (finished ==> phase == Stopped && log != [] && log[|log| - 1].event == SessionStopped)
    && (forall i :: 0 <= i < |log| && log[i].event == SessionStopped ==> finished && i == |log| - 1)
  }

  predicate AcceptsShutdown(log: Log, i: nat)
  {
    i < |log| && log[i].event.ShutdownAccepted?
  }

  /** A shutdown is accepted at most once, and then the supervisor is not ready any more. */
  ghost predicate ShutdownOnce(log: Log, phase: Phase)
  {
    && (forall i, j :: AcceptsShutdown(log, i) && AcceptsShutdown(log, j) ==> i == j)
    && (forall i :: AcceptsShutdown(log, i) ==> phase != Ready)
  }

  /** The shutdown controller is the last process that is spawned. */
  ghost predicate SpawnOrder(spawns: seq<Spawn>, phase: Phase)
  {
    forall i :: 0 <= i < |spawns| && spawns[i].isShutdown ==> phase != Ready && i == |spawns| - 1
  }

  /** A signal in time: after the first reading for SIGTERM, and SIGKILL two seconds after that. */
  ghost predicate InTime(x: Sent, t: Timers, clock: nat)
  {
    && t.termSentAt.Some?
    && t.termSentAt.value + (if x.kill then KILL_DELAY_MS else 0) <= x.at <= clock
    && (!t.forced ==> t.deadline.Some? && t.deadline.value <= x.at)
  }

  ghost predicate Timed(t: Timers, sent: seq<Sent>, clock: nat)
  {
    && (forall i :: 0 <= i < |sent| ==> InTime(sent[i], t, clock))
    && (t.termSentAt.Some? ==> t.termSentAt.value <= clock && sent != [] && !sent[0].kill)
    && (t.termSentAt.Some? && !t.forced ==> t.deadline.Some? && t.deadline.value <= t.termSentAt.value)
  }

  ghost predicate Rested(s: State)
  {
    && (s.phase == Ready ==> s.timers.deadline.None? && !s.timers.forced && s.timers.termSentAt.None?)
    && (s.phase == Stopped ==> s.kernel.processes == map[])
  }

  ghost predicate Core(s: State)
  {
    && Sound(s.kernel.processes)
    && Agree(s.tables, s.kernel.processes)
    && LogAgrees(s.log, s.tables)
    && Ended(s.log, s.loop.finished, s.phase)
    && ShutdownOnce(s.log, s.phase)
    && SpawnOrder(s.spawns, s.phase)
    && Timed(s.timers, s.sent, s.kernel.clock)
    && Rested(s)
  }

  /** An unforced deadline is the accepted shutdown's time plus a grace within its bounds. */
  ghost predicate GraceKept(log: Log, t: Timers)
  {
    && t.deadline.Some? && 1000 <= t.graceMs <= 10000
    && exists i: nat :: AcceptsShutdown(log, i) && t.deadline.value == log[i].at + t.graceMs
  }

  ghost predicate Inv(s: State)
  {
    && Core(s)
    && (s.phase != Ready ==> s.timers.deadline.Some? && (!s.timers.forced ==> GraceKept(s.log, s.timers)))
  }

  lemma StartIsInv(k: Kernel)
    requires Sound(k.processes)
    ensures Inv(Start(k))
  {
    EmptyAgrees(k.processes);
  }

  // ---------------------------------------------------------------- histories

  function Rank(p: Phase): (r: nat)
  {
    match p case Ready => 0 case Stopping => 1 case Stopped => 2
  }

  /** Signals are only added, and only at times from `clock` on. */
  ghost predicate SentLater(sent: seq<Sent>, sent': seq<Sent>, clock: nat)
  {
    sent <= sent' && forall i :: |sent| <= i < |sent'| ==> sent'[i].at >= clock
  }

  /** What a later state keeps of an earlier one. */
  ghost predicate Follows(s: State, s': State)
  {
    && Rank(s.phase) <= Rank(s'.phase)
    && s.log <= s'.log && SentLater(s.sent, s'.sent, s.kernel.clock) && s.spawns <= s'.spawns
    && (s.phase != Ready ==> s'.spawns == s.spawns)
    && s.tables.requestIds <= s'.tables.requestIds
    && s.kernel.clock <= s'.kernel.clock
    && (s.timers.forced ==> s'.timers.forced)
    && (s.timers.deadline.Some? ==> s'.timers.deadline == s.timers.deadline)
    && (s.timers.termSentAt.Some? ==> s'.timers.termSentAt == s.timers.termSentAt)
  }

  lemma FollowsTransitive(a: State, b: State, c: State)
    requires Follows(a, b) && Follows(b, c)
    ensures Follows(a, c)
  {
  }

  // ---------------------------------------------------------------- small steps

  predicate Plain(e: SessionEvent)
  {
    Neutral(e) && !e.ShutdownAccepted? && e != SessionStopped
  }

  lemma PlainEnds(log: Log, e: Entry, phase: Phase)
    requires Ended(log, false, phase) && ShutdownOnce(log, phase) && !e.event.ShutdownAccepted? && e.event != SessionStopped
    ensures Ended(log + [e], false, phase) && ShutdownOnce(log + [e], phase)
    ensures forall t :: GraceKept(log, t) ==> GraceKept(log + [e], t)
  {
    var log' := log + [e];
    assert forall i :: AcceptsShutdown(log', i) <==> AcceptsShutdown(log, i);
    forall t | GraceKept(log, t)
      ensures GraceKept(log', t)
    {
      var i: nat :| AcceptsShutdown(log, i) && t.deadline.value == log[i].at + t.graceMs;
      assert AcceptsShutdown(log', i) && log'[i] == log[i];
    }
  }

  lemma EmitKeeps(s: State, e: SessionEvent)
    requires Core(s) && !s.loop.finished && Plain(e)
    ensures Core(Emit(s, e)) && Follows(s, Emit(s, e))
    ensures Inv(s) ==> Inv(Emit(s, e))
  {
    var entry := Entry(s.kernel.clock, e);
    PlainEnds(s.log, entry, s.phase);
    NeutralAgrees(s.log, entry, s.tables);
    hide Ended, ShutdownOnce, LogAgrees, Agree, Sound, Timed, SpawnOrder, GraceKept;
  }

  lemma ClaimKeeps(s: State, id: string)
    requires Core(s)
    ensures Core(Claimed(s, id)) && Follows(s, Claimed(s, id))
    ensures Inv(s) ==> Inv(Claimed(s, id))
  {
    ClaimAgrees(s.tables, s.kernel.processes, id);
    ClaimLog(s.log, s.tables, id);
    hide Ended, ShutdownOnce, LogAgrees, Agree, Sound, Timed, SpawnOrder, GraceKept;
  }

  lemma LaterTimed(t: Timers, sent: seq<Sent>, clock: nat, clock': nat)
    requires Timed(t, sent, clock) && clock <= clock'
    ensures Timed(t, sent, clock')
  {
  }

  /** The kernel moves on and no child of the sidecar is lost. */
  lemma KernelKeeps(s: State, k: Kernel)
    requires Core(s) && s.phase != Stopped && Sound(k.processes) && ChildrenStay(s.kernel.processes, k.processes)
    requires k.clock >= s.kernel.clock
    ensures Core(s.(kernel := k)) && Follows(s, s.(kernel := k))
    ensures Inv(s) ==> Inv(s.(kernel := k))
  {
    StayAgrees(s.tables, s.kernel.processes, k.processes);
    LaterTimed(s.timers, s.sent, s.kernel.clock, k.clock);
    hide Ended, ShutdownOnce, LogAgrees, Agree, Sound, Timed, SpawnOrder, GraceKept, ChildrenStay;
  }

  lemma PassKeepsState(s: State)
    requires Core(s) && s.phase != Stopped
    ensures Core(s.(kernel := Pass(s.kernel))) && Follows(s, s.(kernel := Pass(s.kernel)))
    ensures Inv(s) ==> Inv(s.(kernel := Pass(s.kernel)))
  {
    PassKeeps(s.kernel);
    KernelKeeps(s, Pass(s.kernel));
  }

  // ---------------------------------------------------------------- reaping

  /** What draining may change: the tables, the log, and the kernel. */
  ghost predicate Drained(s: State, d: State)
  {
    && d.phase == s.phase && d.timers == s.timers && d.loop == s.loop && d.sent == s.sent && d.spawns == s.spawns
    && d.tables.requestIds == s.tables.requestIds
    && s.log <= d.log && s.kernel.clock <= d.kernel.clock
  }

  lemma ReapTables(s: State, pid: Pid, status: ExitStatus, k: Kernel)
    requires Core(s) && pid in s.tables.pidToRequest && !s.loop.finished
    requires forall p :: p in s.kernel.processes && s.kernel.processes[p].parent == SELF && p != pid ==>
               p in k.processes && k.processes[p].parent == SELF
    ensures var r := Reap(s.(kernel := k, echild := false), pid, status);
            && Agree(r.tables, k.processes) && LogAgrees(r.log, r.tables) && s.log <= r.log
            && Ended(r.log, false, r.phase) && ShutdownOnce(r.log, r.phase)
            && (forall t :: GraceKept(s.log, t) ==> GraceKept(r.log, t))
  {
    var id := s.tables.pidToRequest[pid];
    StrikeAgrees(s.tables, s.kernel.processes, k.processes, pid);
    if IsShutdown(s.tables, id) {
      ShutdownExitLog(s.log, s.tables, s.kernel.processes, pid);
    } else {
      var entry := Entry(k.clock, ControllerExited(id, pid, status));
      ExitLog(s.log, s.tables, s.kernel.processes, pid, status, k.clock);
      PlainEnds(s.log, entry, s.phase);
    }
    hide Ended, ShutdownOnce, LogAgrees, Agree, Strike, GraceKept, IsShutdown;
  }

  lemma ReapKeepsState(s: State, k: Kernel, pid: Pid, status: ExitStatus)
    requires Core(s) && !s.loop.finished && s.phase != Stopped && Wait(s.kernel) == (k, Reaped(pid, status))
    ensures var r := Reap(s.(kernel := k, echild := false), pid, status);
            Core(r) && Drained(s, r) && (Inv(s) ==> Inv(r))
  {
    hide Ended, ShutdownOnce, LogAgrees, Agree, Sound, Timed, SpawnOrder, GraceKept, Wait, IsShutdown;
    WaitKeeps(s.kernel);
    LaterTimed(s.timers, s.sent, s.kernel.clock, k.clock);
    if pid in s.tables.pidToRequest {
      ReapTables(s, pid, status, k);
    } else {
      OrphanAgrees(s.tables, s.kernel.processes, k.processes, pid);
    }
  }

  lemma OrphanAgrees(t: Tables, ps: Processes, ps': Processes, pid: Pid)
    requires Agree(t, ps) && pid !in t.pidToRequest
    requires forall p :: p in ps && ps[p].parent == SELF && p != pid ==> p in ps' && ps'[p].parent == SELF
    ensures Agree(t, ps')
  {
  }

  lemma WaitChildrenStay(k: Kernel)
    requires Sound(k.processes)
    ensures !Wait(k).1.Reaped? ==> ChildrenStay(k.processes, Wait(k).0.processes)
  {
    WaitKeeps(k);
  }

  lemma {:induction false} DrainKeeps(s: State)
    requires Core(s) && !s.loop.finished && s.phase != Stopped
    ensures var d := Drain(s);
            && Core(d) && Drained(s, d) && (Inv(s) ==> Inv(d))
            && (d.echild ==> d.kernel.processes == map[])
    decreases |s.kernel.future|
  {
    hide Inv, Wait, Strike, Emit, Ended, ShutdownOnce, LogAgrees, Agree, Sound, Timed, SpawnOrder;
    var (k, answer) := Wait(s.kernel);
    WaitKeeps(s.kernel);
    WaitChildrenStay(s.kernel);
    if answer.Reaped? {
      var r := Reap(s.(kernel := k, echild := false), answer.pid, answer.status);
      ReapKeepsState(s, k, answer.pid, answer.status);
      DrainKeeps(r);
    } else {
      KernelKeeps(s, k);
      EchildKeeps(s.(kernel := k), answer.NoChildren?);
    }
  }

  lemma EchildKeeps(s: State, echild: bool)
    requires Core(s)
    ensures Core(s.(echild := echild)) && (Inv(s) ==> Inv(s.(echild := echild)))
  {
    hide Ended, ShutdownOnce, LogAgrees, Agree, Sound, Timed, SpawnOrder, GraceKept;
  }

  // ---------------------------------------------------------------- requests

  lemma DrainedFollows(s: State, d: State)
    requires Drained(s, d)
    ensures Follows(s, d)
  {
  }

  lemma SpawnsOrdered(spawns: seq<Spawn>, spawn: Spawn, phase: Phase)
    requires SpawnOrder(spawns, Ready) && (spawn.isShutdown ==> phase != Ready)
    ensures SpawnOrder(spawns + [spawn], phase)
  {
  }

  /** A new child is entered under a new request while the supervisor is still ready. */
  lemma StartLaunchKeeps(s: State, id: string, spec: Spec)
    requires Inv(s) && !s.loop.finished && s.phase == Ready
    requires id !in s.tables.requestIds && s.tables.inFlight < MAX_IN_FLIGHT
    ensures var r := StartLaunch(Claimed(s, id), id, spec).0;
            Inv(r) && Follows(s, r)
  {
    hide Ended, ShutdownOnce, LogAgrees, Agree, Sound, Timed, SpawnOrder, GraceKept, ForkChild;
    ForkKeeps(s.kernel, spec.child, spec.birth);
    var (k, child) := ForkChild(s.kernel, spec.child, spec.birth);
    ClaimKeeps(s, id);
    var claimed := Claimed(s, id);
    KernelKeeps(claimed, k);
    var forked := claimed.(kernel := k);
    if child.None? {
      EmitKeeps(forked, Error(Some(id), Launching));
    } else {
      EnrolKeepsTables(s.tables, s.kernel.processes, k.processes, id, child.value, false);
      EnrolLog(s.log, s.tables, id, child.value, false);
      AcceptLog(s.log, s.tables, id, child.value, k.clock);
      SpawnsOrdered(s.spawns, Spawn(id, child.value, false), Ready);
      PlainEnds(s.log, Entry(k.clock, LaunchAccepted(id, child.value)), Ready);
    }
  }

  lemma EnrolKeepsTables(t: Tables, ps: Processes, ps': Processes, id: string, pid: Pid, isShutdown: bool)
    requires Agree(t, ps) && ChildrenStay(ps, ps') && id !in t.requestIds
    requires pid in ps' && ps'[pid].parent == SELF
    requires pid !in ps || ps[pid].parent != SELF
    requires !isShutdown ==> t.inFlight < MAX_IN_FLIGHT
    ensures Agree(Enrol(Claim(t, id), id, pid, isShutdown), ps')
  {
    ClaimAgrees(t, ps, id);
    StayAgrees(Claim(t, id), ps, ps');
    EnrolAgrees(Claim(t, id), ps', id, pid, isShutdown);
  }

  lemma HandleLaunchKeeps(s: State, id: string, spec: Spec)
    requires Inv(s) && !s.loop.finished
    ensures Inv(HandleLaunch(s, id, spec).0) && Follows(s, HandleLaunch(s, id, spec).0)
  {
    hide Core, Inv, StartLaunch, Emit, Follows;
    InvIsCore(s);
    ClaimKeeps(s, id);
    EmitKeeps(s, Error(Some(id), Validation));
    EmitKeeps(Claimed(s, id), Error(Some(id), Validation));
    FollowsTransitive(s, Claimed(s, id), Emit(Claimed(s, id), Error(Some(id), Validation)));
    if s.phase == Ready && id !in s.tables.requestIds && s.tables.inFlight < MAX_IN_FLIGHT {
      StartLaunchKeeps(s, id, spec);
    }
  }

  lemma InvIsCore(s: State)
    requires Inv(s)
    ensures Core(s)
  {
  }

  /** Leaving Ready early only makes the timing of signals a matter of the deadline. */
  lemma ForcedTimed(t: Timers, sent: seq<Sent>, clock: nat, deadline: Option<nat>)
    requires Timed(t, sent, clock)
    ensures Timed(t.(forced := true, deadline := deadline), sent, clock)
  {
  }

  lemma BeginForcedShutdownKeeps(s: State)
    requires Core(s) && !s.loop.finished && s.phase != Stopped
    ensures Inv(BeginForcedShutdown(s)) && Follows(s, BeginForcedShutdown(s))
    ensures BeginForcedShutdown(s).phase == Stopping && BeginForcedShutdown(s).timers.forced
  {
    hide LogAgrees, Agree, Sound, Timed, GraceKept, Pass, AcceptsShutdown;
    PassKeepsState(s);
    var k := if s.timers.deadline.None? then Pass(s.kernel) else s.kernel;
    assert Core(s.(kernel := k));
    ForcedTimed(s.timers, s.sent, k.clock, BeginForcedShutdown(s).timers.deadline);
  }

  lemma NothingSent(s: State)
    requires Core(s) && s.timers.termSentAt.None?
    ensures s.sent == []
  {
    assert s.sent != [] ==> !InTime(s.sent[0], s.timers, s.kernel.clock);
  }

  lemma LeavingKeeps(s: State, id: string, graceMs: nat)
    requires Core(s) && !s.loop.finished && s.phase == Ready
    ensures Core(Leaving(s, id, graceMs)) && Follows(s, Leaving(s, id, graceMs))
  {
    hide LogAgrees, Agree, Sound, AcceptsShutdown, ClampGrace;
    NothingSent(s);
    ClaimKeeps(s, id);
  }

  lemma GraceLog(log: Log, e: Entry, t: Timers)
    requires Ended(log, false, Ready) && ShutdownOnce(log, Ready) && e.event.ShutdownAccepted?
    requires 1000 <= t.graceMs <= 10000 && t.deadline == Some(e.at + t.graceMs)
    ensures Ended(log + [e], false, Stopping) && ShutdownOnce(log + [e], Stopping) && GraceKept(log + [e], t)
  {
    assert AcceptsShutdown(log + [e], |log|);
    assert forall i: nat :: AcceptsShutdown(log + [e], i) ==> i == |log| || AcceptsShutdown(log, i);
  }

  /** An accepted shutdown: one more controller, the last, and a deadline a clamped grace away. */
  lemma ShutdownAcceptedKeeps(s: State, id: string, graceMs: nat, k: Kernel, pid: Pid)
    requires Core(s) && !s.loop.finished && s.phase == Ready && id !in s.tables.requestIds
    requires Sound(k.processes) && ChildrenStay(s.kernel.processes, k.processes) && k.clock >= s.kernel.clock
    requires pid in k.processes && k.processes[pid].parent == SELF
    requires pid !in s.kernel.processes || s.kernel.processes[pid].parent != SELF
    ensures var r := GraceBegins(Spawned(Leaving(s, id, graceMs).(kernel := k), id, pid, true), id);
            Inv(r) && Follows(s, r)
  {
    hide LogAgrees, Agree, Sound, SpawnOrder, Ended, ShutdownOnce, GraceKept, Pass, Enrol;
    NothingSent(s);
    PassKeeps(k);
    var k' := Pass(k);
    var r := GraceBegins(Spawned(Leaving(s, id, graceMs).(kernel := k), id, pid, true), id);
    EnrolKeepsTables(s.tables, s.kernel.processes, k.processes, id, pid, true);
    StayAgrees(r.tables, k.processes, k'.processes);
    EnrolLog(s.log, s.tables, id, pid, true);
    EnrolKeepsIds(s.tables, id, pid, true);
    NeutralAgrees(s.log, Entry(k'.clock, ShutdownAccepted(id)), r.tables);
    SpawnsOrdered(s.spawns, Spawn(id, pid, true), Stopping);
    GraceLog(s.log, Entry(k'.clock, ShutdownAccepted(id)), r.timers);
  }

  lemma EnrolKeepsIds(t: Tables, id: string, pid: Pid, isShutdown: bool)
    ensures Enrol(Claim(t, id), id, pid, isShutdown).requestIds == t.requestIds + {id}
  {
  }

  lemma ForcedAfterError(s: State, id: string)
    requires Core(s) && !s.loop.finished && s.phase != Stopped
    ensures var r := BeginForcedShutdown(Emit(s, Error(Some(id), ShuttingDown)));
            Inv(r) && Follows(s, r)
  {
    hide Core, Inv, BeginForcedShutdown, Follows;
    var e := Error(Some(id), ShuttingDown);
    EmitKeeps(s, e);
    BeginForcedShutdownKeeps(Emit(s, e));
    FollowsTransitive(s, Emit(s, e), BeginForcedShutdown(Emit(s, e)));
  }

  lemma StartShutdownKeeps(s: State, id: string, spec: Spec, graceMs: nat)
    requires Core(s) && !s.loop.finished && s.phase == Ready && id !in s.tables.requestIds
    ensures var r := StartShutdown(Leaving(s, id, graceMs), id, spec);
            Inv(r) && Follows(s, r)
  {
    var leaving := Leaving(s, id, graceMs);
    assert leaving.phase == Stopping && leaving.kernel == s.kernel && leaving.loop == s.loop;
    assert Sound(s.kernel.processes);
    hide Core, Inv, BeginForcedShutdown, Follows, Leaving, ForkChild, GraceBegins, Spawned, Emit, Sound;
    ForkKeeps(s.kernel, spec.child, spec.birth);
    LeavingKeeps(s, id, graceMs);
    var (k, child) := ForkChild(s.kernel, spec.child, spec.birth);
    if child.None? {
      var forked := leaving.(kernel := k);
      KernelKeeps(leaving, k);
      ForcedAfterError(forked, id);
      FollowsTransitive(s, leaving, forked);
      FollowsTransitive(s, forked, StartShutdown(leaving, id, spec));
    } else {
      ShutdownAcceptedKeeps(s, id, graceMs, k, child.value);
    }
  }

  lemma HandleShutdownKeeps(s: State, id: string, spec: Spec, graceMs: nat)
    requires Inv(s) && !s.loop.finished
    ensures var r := HandleShutdown(s, id, spec, graceMs);
            Inv(r) && Follows(s, r)
  {
    var leaving := Leaving(s, id, graceMs);
    assert leaving.phase == Stopping && leaving.loop == s.loop;
    hide Core, Inv, BeginForcedShutdown, Follows, StartShutdown, Emit;
    InvIsCore(s);
    EmitKeeps(s, Error(Some(id), Validation));
    if s.phase == Ready && id !in s.tables.requestIds {
      LeavingKeeps(s, id, graceMs);
      StartShutdownKeeps(s, id, spec, graceMs);
      ForcedAfterError(leaving, id);
      FollowsTransitive(s, leaving, BeginForcedShutdown(Emit(leaving, Error(Some(id), ShuttingDown))));
    }
  }

  lemma HandleRequestKeeps(s: State, request: Request)
    requires Inv(s) && !s.loop.finished && s.phase != Stopped
    ensures var r := HandleRequest(s, request).0;
            Inv(r) && Follows(s, r) && r.phase != Stopped && r.loop == s.loop
  {
    hide Core, Inv, BeginForcedShutdown, Follows, HandleLaunch, HandleShutdown;
    match request
    case Hello =>
      var e := Error(None, Validation);
      InvIsCore(s);
      EmitKeeps(s, e);
      BeginForcedShutdownKeeps(Emit(s, e));
      FollowsTransitive(s, Emit(s, e), BeginForcedShutdown(Emit(s, e)));
    case Launch(id, spec) => HandleLaunchKeeps(s, id, spec);
    case Shutdown(id, spec, graceMs) => HandleShutdownKeeps(s, id, spec, graceMs);
  }

  // ---------------------------------------------------------------- signals

  lemma TerminateTimed(t: Timers, sent: seq<Sent>, now: nat, x: Sent)
    requires Timed(t, sent, now) && !x.kill && now <= x.at
    requires t.forced || (t.deadline.Some? && t.deadline.value <= now)
    ensures Timed(t.(termSentAt := if t.termSentAt.None? then Some(now) else t.termSentAt), sent + [x], x.at)
  {
    assert t.termSentAt.None? && sent != [] ==> !InTime(sent[0], t, now);
  }

  lemma TerminateKeeps(s: State)
    requires Inv(s) && s.phase == Stopping
    requires s.timers.forced || s.timers.deadline.value <= s.kernel.clock
    ensures Inv(Terminate(s, s.kernel.clock)) && Follows(s, Terminate(s, s.kernel.clock))
  {
    hide LogAgrees, Agree, Sound, SpawnOrder, Ended, ShutdownOnce, Timed, AcceptsShutdown, Pass;
    var k := Pass(s.kernel);
    PassKeepsState(s);
    TerminateTimed(s.timers, s.sent, s.kernel.clock, Sent(false, k.clock, k.processes.Keys));
  }

  lemma KillTimed(t: Timers, sent: seq<Sent>, now: nat, x: Sent)
    requires Timed(t, sent, now) && t.termSentAt.Some? && x.kill && t.termSentAt.value + KILL_DELAY_MS <= now <= x.at
    ensures Timed(t.(killSent := true), sent + [x], x.at)
  {
  }

  lemma KillKeeps(s: State)
    requires Inv(s) && s.phase == Stopping && s.timers.termSentAt.Some?
    requires s.timers.termSentAt.value + KILL_DELAY_MS <= s.kernel.clock
    ensures Inv(Kill(s)) && Follows(s, Kill(s))
  {
    hide LogAgrees, Agree, Sound, SpawnOrder, Ended, ShutdownOnce, Timed, AcceptsShutdown, Pass;
    var k := Pass(s.kernel);
    PassKeepsState(s);
    KillTimed(s.timers, s.sent, s.kernel.clock, Sent(true, k.clock, k.processes.Keys));
  }

  /** The second look at a missing deadline is never needed. */
  lemma TermStepKeeps(s: State)
    requires Inv(s) && s.phase == Stopping
    ensures var r := TermStep(s);
            Inv(r) && Follows(s, r) && r.phase == Stopping && r.loop == s.loop
  {
    assert s.timers.deadline.Some?;
    hide Inv, Core, Pass, Follows;
    InvIsCore(s);
    PassKeepsState(s);
    var s' := s.(kernel := Pass(s.kernel));
    if s.timers.forced || s'.kernel.clock >= s.timers.deadline.value {
      TerminateKeeps(s');
      FollowsTransitive(s, s', Terminate(s', s'.kernel.clock));
    }
  }

  lemma KillStepKeeps(s: State)
    requires Inv(s) && s.phase == Stopping
    ensures var r := KillStep(s);
            Inv(r) && Follows(s, r) && r.phase == Stopping && r.loop == s.loop
  {
    assert Follows(s, s);
    hide Inv, Core, Pass, Follows;
    InvIsCore(s);
    PassKeepsState(s);
    var s' := s.(kernel := Pass(s.kernel));
    if s.timers.termSentAt.Some? && s'.kernel.clock >= s.timers.termSentAt.value + KILL_DELAY_MS {
      KillKeeps(s');
      FollowsTransitive(s, s', Kill(s'));
    }
  }

  lemma StopKeeps(s: State)
    requires Inv(s) && s.phase == Stopping && !s.loop.finished && s.kernel.processes == map[]
    ensures Inv(s.(phase := Stopped)) && Follows(s, s.(phase := Stopped))
  {
    hide LogAgrees, Agree, Sound, Timed, AcceptsShutdown;
  }

  lemma DrainKeepsInv(s: State)
    requires Inv(s) && !s.loop.finished && s.phase != Stopped
    ensures var d := Drain(s);
            && Inv(d) && Drained(s, d) && Follows(s, d)
            && (d.echild ==> d.kernel.processes == map[])
  {
    hide Core, Follows, Drain, Drained;
    InvIsCore(s);
    DrainKeeps(s);
    DrainedFollows(s, Drain(s));
  }

  lemma AdvanceShutdownKeeps(s: State)
    requires Inv(s) && !s.loop.finished
    ensures var r := AdvanceShutdown(s);
            Inv(r) && Follows(s, r) && r.loop == s.loop && (s.phase == Ready ==> r == s)
  {
    assert Follows(s, s);
    hide Inv, Core, Follows, Drain, TermStep, KillStep;
    if s.phase == Stopping {
      DrainKeepsInv(s);
      var d := Drain(s);
      if d.echild {
        StopKeeps(d);
        FollowsTransitive(s, d, d.(phase := Stopped));
      } else {
        EscalateKeeps(d);
        var a := Drain(KillStep(TermStep(d)));
        FollowsTransitive(s, d, a);
        if a.echild {
          StopKeeps(a);
          FollowsTransitive(s, a, a.(phase := Stopped));
        }
      }
    }
  }

  lemma EscalateKeeps(d: State)
    requires Inv(d) && !d.loop.finished && d.phase == Stopping
    ensures var a := Drain(KillStep(TermStep(d)));
            && Inv(a) && Follows(d, a) && a.phase == Stopping && a.loop == d.loop
            && (a.echild ==> a.kernel.processes == map[])
  {
    hide Inv, Core, Follows, Drain, TermStep, KillStep;
    TermStepKeeps(d);
    var t := TermStep(d);
    KillStepKeeps(t);
    var k := KillStep(t);
    DrainKeepsInv(k);
    FollowsTransitive(d, t, k);
    FollowsTransitive(d, k, Drain(k));
  }
}
