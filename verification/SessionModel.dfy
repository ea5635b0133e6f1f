/**
 The session supervisor as a function of its state: requests, reaping, timed shutdown and one turn
 of the main loop (crates/ro-sessiond/src/supervisor.rs and main.rs).
 */
module SessionModel {
  import opened Basics
  import opened ProcessTree
  import opened SessionTables

  datatype Phase = Ready | Stopping | Stopped

  const FORCED_GRACE_MS: nat := 2000
  const KILL_DELAY_MS: nat := 2000

  function ClampGrace(ms: nat): (r: nat)
    ensures 1000 <= r <= 10000
    ensures 1000 <= ms <= 10000 ==> r == ms
    ensures ms < 1000 ==> r == 1000
    ensures ms > 10000 ==> r == 10000
  {
    if ms < 1000 then 1000 else if ms > 10000 then 10000 else ms
  }

  datatype Timers = Timers(
    graceMs: nat, deadline: Option<nat>, forced: bool, termSentAt: Option<nat>, killSent: bool)

  /** The variables of the main loop; `finished` once it has returned. */
  datatype Loop = Loop(eof: bool, idleStreak: nat, idleEmitted: bool, finished: bool)

  /** A signal to every process below the sidecar, with the time it was sent. */
  datatype Sent = Sent(kill: bool, at: nat, targets: set<Pid>)

  datatype Spawn = Spawn(id: string, pid: Pid, isShutdown: bool)

  datatype State = State(
    phase: Phase,
    tables: Tables,
    timers: Timers,
    echild: bool,
    loop: Loop,
    log: Log,
    sent: seq<Sent>,
    spawns: seq<Spawn>,
    kernel: Kernel)

  function Start(kernel: Kernel): (s: State)
  {
    State(Ready, EMPTY, Timers(2000, None, false, None, false), false, Loop(false, 0, false, false), [], [], [], kernel)
  }

  function Emit(s: State, e: SessionEvent): (s': State)
  {
    s.(log := s.log + [Entry(s.kernel.clock, e)])
  }

  // ---------------------------------------------------------------- requests

  /** A process specification, as far as the supervisor sees it: is it valid, and what does starting it give? */
  datatype Spec = Spec(valid: bool, child: Option<Pid>, birth: nat, identity: bool)

  datatype Request =
    | Hello
    | Launch(id: string, spec: Spec)
    | Shutdown(id: string, spec: Spec, graceMs: nat)

  function Spawned(s: State, id: string, pid: Pid, isShutdown: bool): (s': State)
  {
    s.(tables := Enrol(s.tables, id, pid, isShutdown), spawns := s.spawns + [Spawn(id, pid, isShutdown)])
  }

  function Claimed(s: State, id: string): (s': State)
  {
    s.(tables := Claim(s.tables, id))
  }

  /** The second result tells whether the handler returned normally. */
  function HandleLaunch(s: State, id: string, spec: Spec): (r: (State, bool))
    ensures r.0.phase == s.phase && r.0.loop == s.loop && r.0.timers == s.timers
  {
    if s.phase != Ready then (Emit(s, Error(Some(id), Validation)), true)
    else if id in s.tables.requestIds then (Emit(s, Error(Some(id), Validation)), true)
    else if s.tables.inFlight >= MAX_IN_FLIGHT then (Emit(Claimed(s, id), Error(Some(id), Validation)), true)
    else if !spec.valid then (Emit(Claimed(s, id), Error(Some(id), Validation)), true)
    else StartLaunch(Claimed(s, id), id, spec)
  }

  function StartLaunch(s: State, id: string, spec: Spec): (r: (State, bool))
    ensures r.0.phase == s.phase && r.0.loop == s.loop && r.0.timers == s.timers
  {
    var (k, child) := ForkChild(s.kernel, spec.child, spec.birth);
    var forked := s.(kernel := k);
    if child.None? then (Emit(forked, Error(Some(id), Launching)), true) else
    var spawned := Spawned(forked, id, child.value, false);
    if !spec.identity then (spawned, false)
    else (Emit(spawned, LaunchAccepted(id, child.value)), true)
  }

  /** Signal, hang-up, a vanished parent or a second greeting: stop without waiting for a controller. */
  function BeginForcedShutdown(s: State): (s': State)
    ensures s.phase != Stopped ==> s'.phase == Stopping && s'.timers.forced
    ensures s'.loop == s.loop
  {
    if s.phase == Stopped then s else
    var k := if s.timers.deadline.None? then Pass(s.kernel) else s.kernel;
    s.(phase := Stopping, kernel := k,
       timers := s.timers.(forced := true,
         deadline := if s.timers.deadline.None? then Some(k.clock + FORCED_GRACE_MS) else s.timers.deadline))
  }

  /** The state in which a shutdown request has been claimed and nothing started yet. */
  function Leaving(s: State, id: string, graceMs: nat): (s': State)
  {
    Claimed(s, id).(phase := Stopping, timers := s.timers.(graceMs := ClampGrace(graceMs)))
  }

  function HandleShutdown(s: State, id: string, spec: Spec, graceMs: nat): (s': State)
    ensures s.phase != Stopped ==> s'.phase != Stopped
    ensures s'.loop == s.loop
  {
    if s.phase != Ready then Emit(s, Error(Some(id), Validation))
    else if id in s.tables.requestIds then Emit(s, Error(Some(id), Validation))
    else
      var leaving := Leaving(s, id, graceMs);
      if !spec.valid then BeginForcedShutdown(Emit(leaving, Error(Some(id), ShuttingDown)))
      else StartShutdown(leaving, id, spec)
  }

  function StartShutdown(s: State, id: string, spec: Spec): (s': State)
    ensures s.phase != Stopped ==> s'.phase != Stopped
    ensures s'.loop == s.loop
  {
    var (k, child) := ForkChild(s.kernel, spec.child, spec.birth);
    var forked := s.(kernel := k);
    if child.None? then BeginForcedShutdown(Emit(forked, Error(Some(id), ShuttingDown)))
    else GraceBegins(Spawned(forked, id, child.value, true), id)
  }

  /** The clock is read and the deadline set before the acceptance is written. */
  function GraceBegins(s: State, id: string): (s': State)
  {
    var k := Pass(s.kernel);
    Emit(s.(kernel := k, timers := s.timers.(deadline := Some(k.clock + s.timers.graceMs))), ShutdownAccepted(id))
  }

  function HandleRequest(s: State, request: Request): (r: (State, bool))
  {
    match request
    case Hello => (BeginForcedShutdown(Emit(s, Error(None, Validation))), true)
    case Launch(id, spec) => HandleLaunch(s, id, spec)
    case Shutdown(id, spec, graceMs) => (HandleShutdown(s, id, spec, graceMs), true)
  }

  // ---------------------------------------------------------------- reaping

  /** A reaped pid leaves the tables; only launches have their exit reported. */
  function Reap(s: State, pid: Pid, status: ExitStatus): (s': State)
    ensures s'.kernel == s.kernel
  {
    if pid !in s.tables.pidToRequest then s else
    var id := s.tables.pidToRequest[pid];
    var reported := if IsShutdown(s.tables, id) then s else Emit(s, ControllerExited(id, pid, status));
    reported.(tables := Strike(s.tables, pid))
  }

  function Drain(s: State): (s': State)
    decreases |s.kernel.future|
  {
    var (k, answer) := Wait(s.kernel);
    match answer
    case Reaped(pid, status) => Drain(Reap(s.(kernel := k, echild := false), pid, status))
    case NothingYet => s.(kernel := k, echild := false)
    case NoChildren => s.(kernel := k, echild := true)
  }

  // ---------------------------------------------------------------- shutdown

  /** SIGTERM to all; the first time is remembered as it was read before sending. */
  function Terminate(s: State, now: nat): (s': State)
  {
    var k := Pass(s.kernel);
    s.(kernel := k, sent := s.sent + [Sent(false, k.clock, k.processes.Keys)],
       timers := s.timers.(termSentAt := if s.timers.termSentAt.None? then Some(now) else s.timers.termSentAt))
  }

  function Kill(s: State): (s': State)
  {
    var k := Pass(s.kernel);
    s.(kernel := k, sent := s.sent + [Sent(true, k.clock, k.processes.Keys)], timers := s.timers.(killSent := true))
  }

  function TermStep(s: State): (s': State)
  {
    var k := if s.timers.deadline.None? then Pass(s.kernel) else s.kernel;
    var deadline := if s.timers.deadline.None? then k.clock else s.timers.deadline.value;
    var k' := Pass(k);
    if s.timers.forced || k'.clock >= deadline then Terminate(s.(kernel := k'), k'.clock) else s.(kernel := k')
  }

  function KillStep(s: State): (s': State)
  {
    if s.timers.termSentAt.None? then s else
    var k := Pass(s.kernel);
    if k.clock >= s.timers.termSentAt.value + KILL_DELAY_MS then Kill(s.(kernel := k)) else s.(kernel := k)
  }

  function AdvanceShutdown(s: State): (s': State)
  {
    if s.phase != Stopping then s else
    var drained := Drain(s);
    if drained.echild then drained.(phase := Stopped) else
    var again := Drain(KillStep(TermStep(drained)));
    if again.timers.termSentAt.Some? && again.echild then again.(phase := Stopped) else again
  }

  // ---------------------------------------------------------------- the main loop

  datatype Input = NoInput | Line(request: Request) | Unreadable | EndOfInput

  /** What one turn of the loop finds: is the parent gone, was SIGTERM caught, what is on standard input? */
  datatype Turn = Turn(parentGone: bool, sigterm: bool, input: Input)

  function Listen(s: State, input: Input): (s': State)
  {
    if s.loop.eof then s else
    match input
    case NoInput => s
    case Line(request) =>
      var (handled, normally) := HandleRequest(s, request);
      if normally then handled else Emit(handled, Error(None, Protocol))
    case Unreadable => Emit(s, Error(None, Protocol))
    case EndOfInput => BeginForcedShutdown(s.(loop := s.loop.(eof := true)))
  }

  function Hear(s: State, turn: Turn): (s': State)
  {
    var s1 := if turn.parentGone then BeginForcedShutdown(s) else s;
    var s2 := if turn.sigterm then BeginForcedShutdown(s1) else s1;
    Listen(s2, turn.input)
  }

  /** Two turns in a row without children make the session idle, reported once until children return. */
  function NoteIdle(s: State): (s': State)
  {
    if s.phase != Ready then s
    else if !s.echild then s.(loop := s.loop.(idleStreak := 0, idleEmitted := false))
    else
      var streak := s.loop.idleStreak + 1;
      var counted := s.(loop := s.loop.(idleStreak := streak));
      if streak >= 2 && !s.loop.idleEmitted then Emit(counted, Idle).(loop := counted.loop.(idleEmitted := true))
      else counted
  }

  function Conclude(s: State): (s': State)
  {
    if s.phase != Stopped then s
    else Emit(s, SessionStopped).(loop := s.loop.(finished := true))
  }

  /** One turn of the loop; a loop that has returned does nothing more. */
  function Tick(s: State, turn: Turn): (s': State)
  {
    if s.loop.finished then s else Conclude(NoteIdle(AdvanceShutdown(Drain(Hear(s, turn)))))
  }

  function Run(s: State, turns: seq<Turn>): (s': State)
    decreases |turns|
  {
    if turns == [] then s else Run(Tick(s, turns[0]), turns[1..])
  }
}
