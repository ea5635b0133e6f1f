/** The supervisor object and the main loop of ro-sessiond, statement by statement. */
module Supervisor {
  import opened Basics
  import opened ProcessTree
  import opened SessionTables
  import opened SessionModel
  import opened SessionSafety
  import opened SessionRuns
  import opened SessionAnswers

  class Supervisor {
    var phase: Phase
    var requestIds: set<string>
    var inFlight: nat
    var pidToRequest: map<Pid, string>
    var controllers: map<string, Record>
    var graceMs: nat
    var deadline: Option<nat>
    var forced: bool
    var termSentAt: Option<nat>
    var killSent: bool
    var lastWaitEchild: bool

    // The variables of the main loop.
    var eof: bool
    var idleStreak: nat
    var idleEmitted: bool
    var finished: bool

    // What the outside has seen: events, signals, spawned controllers, and the kernel itself.
    var log: Log
    var sent: seq<Sent>
    var spawns: seq<Spawn>
    var kernel: Kernel

    ghost function Now(): (s: State)
      reads this
    {
      State(phase, Tables(requestIds, inFlight, pidToRequest, controllers),
            Timers(graceMs, deadline, forced, termSentAt, killSent), lastWaitEchild,
            Loop(eof, idleStreak, idleEmitted, finished), log, sent, spawns, kernel)
    }

    constructor (kernel: Kernel)
      ensures Now() == Start(kernel)
      ensures Sound(kernel.processes) ==> Between(Now())
    {
      phase := Ready;
      requestIds, inFlight, pidToRequest, controllers := {}, 0, map[], map[];
      graceMs, deadline, forced, termSentAt, killSent := 2000, None, false, None, false;
      lastWaitEchild := false;
      eof, idleStreak, idleEmitted, finished := false, 0, false, false;
      log, sent, spawns := [], [], [];
      this.kernel := kernel;
      new;
      hide Between;
      if Sound(kernel.processes) {
        StartIsBetween(kernel);
      }
    }

    method Emit(e: SessionEvent)
      modifies this`log
      ensures Now() == SessionModel.Emit(old(Now()), e)
    {
      log := log + [Entry(kernel.clock, e)];
    }

    method HandleLaunch(id: string, spec: Spec) returns (normally: bool)
      modifies this
      ensures (Now(), normally) == SessionModel.HandleLaunch(old(Now()), id, spec)
    {
      hide SessionModel.StartLaunch, SessionModel.Emit;
      if phase != Ready {
        Emit(Error(Some(id), Validation));
        return true;
      }
      if id in requestIds {
        Emit(Error(Some(id), Validation));
        return true;
      }
      requestIds := requestIds + {id};
      if inFlight >= MAX_IN_FLIGHT {
        Emit(Error(Some(id), Validation));
        return true;
      }
      if !spec.valid {
        Emit(Error(Some(id), Validation));
        return true;
      }
      normally := StartLaunch(id, spec);
    }

    /** The controller enters both tables as soon as it exists. */
    method NoteSpawned(id: string, pid: Pid, isShutdown: bool)
      modifies this`pidToRequest, this`inFlight, this`controllers, this`spawns
      ensures Now() == Spawned(old(Now()), id, pid, isShutdown)
    {
      pidToRequest := pidToRequest[pid := id];
      if !isShutdown {
        inFlight := inFlight + 1;
      }
      controllers := controllers[id := Record(pid, isShutdown)];
      spawns := spawns + [Spawn(id, pid, isShutdown)];
    }

    method StartLaunch(id: string, spec: Spec) returns (normally: bool)
      modifies this
      ensures (Now(), normally) == SessionModel.StartLaunch(old(Now()), id, spec)
    {
      hide ForkChild, Spawned, SessionModel.Emit;
      var (k, child) := ForkChild(kernel, spec.child, spec.birth);
      kernel := k;
      if child.None? {
        Emit(Error(Some(id), Launching));
        return true;
      }
      NoteSpawned(id, child.value, false);
      if !spec.identity {
        return false;
      }
      Emit(LaunchAccepted(id, child.value));
      return true;
    }

    method BeginForcedShutdown()
      modifies this`forced, this`phase, this`deadline, this`kernel
      ensures Now() == SessionModel.BeginForcedShutdown(old(Now()))
    {
      hide Pass;
      if phase == Stopped {
        return;
      }
      forced := true;
      phase := Stopping;
      if deadline.None? {
        kernel := Pass(kernel);
        deadline := Some(kernel.clock + FORCED_GRACE_MS);
      }
    }

    method Leave(id: string, requestedMs: nat)
      modifies this`requestIds, this`phase, this`graceMs
      ensures Now() == Leaving(old(Now()), id, requestedMs)
    {
      hide ClampGrace;
      requestIds := requestIds + {id};
      phase := Stopping;
      graceMs := ClampGrace(requestedMs);
    }

    method HandleShutdown(id: string, spec: Spec, requestedMs: nat)
      modifies this
      ensures Now() == SessionModel.HandleShutdown(old(Now()), id, spec, requestedMs)
      ensures Inv(old(Now())) && Startable(old(Now()), id, spec) ==>
                ShutdownBegun(old(Now()), Now(), id, ForkChild(old(kernel), spec.child, spec.birth).1.value, requestedMs)
    {
      if Inv(Now()) && Startable(Now(), id, spec) {
        StartableShutdownBegins(Now(), id, spec, requestedMs);
      }
      hide Inv, Startable, ShutdownBegun, ForkChild;
      hide Leaving, SessionModel.BeginForcedShutdown, SessionModel.Emit, SessionModel.StartShutdown;
      if phase != Ready {
        Emit(Error(Some(id), Validation));
        return;
      }
      if id in requestIds {
        Emit(Error(Some(id), Validation));
        return;
      }
      Leave(id, requestedMs);
      if !spec.valid {
        Emit(Error(Some(id), ShuttingDown));
        BeginForcedShutdown();
        return;
      }
      StartShutdown(id, spec);
    }

    method StartShutdown(id: string, spec: Spec)
      modifies this
      ensures Now() == SessionModel.StartShutdown(old(Now()), id, spec)
    {
      hide ForkChild, Spawned, SessionModel.Emit, SessionModel.BeginForcedShutdown, SessionModel.GraceBegins;
      var (k, child) := ForkChild(kernel, spec.child, spec.birth);
      kernel := k;
      if child.None? {
        Emit(Error(Some(id), ShuttingDown));
        BeginForcedShutdown();
        return;
      }
      NoteSpawned(id, child.value, true);
      BeginGrace(id);
    }

    method BeginGrace(id: string)
      modifies this
      ensures Now() == GraceBegins(old(Now()), id)
    {
      hide Pass, SessionModel.Emit;
      kernel := Pass(kernel);
      deadline := Some(kernel.clock + graceMs);
      Emit(ShutdownAccepted(id));
    }

    method HandleLine(request: Request) returns (normally: bool)
      modifies this
      ensures (Now(), normally) == HandleRequest(old(Now()), request)
    {
      hide SessionModel.BeginForcedShutdown, SessionModel.HandleLaunch, SessionModel.HandleShutdown;
      match request
      case Hello =>
        Emit(Error(None, Validation));
        BeginForcedShutdown();
        return true;
      case Launch(id, spec) =>
        normally := HandleLaunch(id, spec);
      case Shutdown(id, spec, ms) =>
        HandleShutdown(id, spec, ms);
        return true;
    }

    /** One reaped child: out of both tables, its exit reported unless it ran the shutdown. */
    method NoteReaped(pid: Pid, status: ExitStatus)
      modifies this`inFlight, this`pidToRequest, this`controllers, this`log
      ensures Now() == Reap(old(Now()), pid, status)
    {
      if pid in pidToRequest {
        var id := pidToRequest[pid];
        pidToRequest := pidToRequest - {pid};
        if !(id in controllers && controllers[id].isShutdown) {
          inFlight := if inFlight == 0 then 0 else inFlight - 1;
          Emit(ControllerExited(id, pid, status));
        }
        controllers := controllers - {id};
      }
    }

    method DrainReapEvents()
      modifies this
      ensures Now() == Drain(old(Now()))
      ensures Inv(old(Now())) && !old(finished) && old(phase) != Stopped ==>
                Inv(Now()) && (lastWaitEchild ==> kernel.processes == map[])
    {
      hide Wait, Reap, Inv;
      if Inv(Now()) && !finished && phase != Stopped {
        DrainKeepsInv(Now());
      }
      while true
        invariant Drain(Now()) == Drain(old(Now()))
        decreases |kernel.future|
      {
        var (k, answer) := Wait(kernel);
        kernel := k;
        match answer {
          case Reaped(pid, status) =>
            lastWaitEchild := false;
            NoteReaped(pid, status);
          case NothingYet =>
            lastWaitEchild := false;
            break;
          case NoChildren =>
            lastWaitEchild := true;
            break;
        }
      }
    }

    method SendTermWhenDue()
      modifies this`termSentAt, this`sent, this`kernel
      ensures Now() == TermStep(old(Now()))
    {
      hide Pass;
      var bound: nat;
      if deadline.None? {
        kernel := Pass(kernel);
        bound := kernel.clock;
      } else {
        bound := deadline.value;
      }
      kernel := Pass(kernel);
      var now := kernel.clock;
      if forced || now >= bound {
        if termSentAt.None? {
          termSentAt := Some(now);
        }
        kernel := Pass(kernel);
        sent := sent + [Sent(false, kernel.clock, kernel.processes.Keys)];
      }
    }

    method SendKillWhenDue()
      modifies this
      ensures Now() == KillStep(old(Now()))
    {
      hide Pass;
      if termSentAt.Some? {
        kernel := Pass(kernel);
        if kernel.clock >= termSentAt.value + KILL_DELAY_MS {
          kernel := Pass(kernel);
          sent := sent + [Sent(true, kernel.clock, kernel.processes.Keys)];
          killSent := true;
        }
      }
    }

    method AdvanceShutdown()
      modifies this
      ensures Now() == SessionModel.AdvanceShutdown(old(Now()))
      ensures Inv(old(Now())) && !old(finished) ==> Inv(Now()) && (phase == Stopped ==> kernel.processes == map[])
    {
      hide Drain, TermStep, KillStep, Inv;
      if Inv(Now()) && !finished {
        AdvanceStopsWhenEmpty(Now());
      }
      if phase != Stopping {
        return;
      }
      DrainReapEvents();
      if lastWaitEchild {
        phase := Stopped;
        return;
      }
      SendTermWhenDue();
      SendKillWhenDue();
      DrainReapEvents();
      if termSentAt.Some? && lastWaitEchild {
        phase := Stopped;
      }
    }

    method ReadInput(input: Input)
      modifies this
      ensures Now() == Listen(old(Now()), input)
    {
      hide HandleRequest, SessionModel.BeginForcedShutdown;
      if eof {
        return;
      }
      match input
      case NoInput =>
      case Line(request) =>
        var normally := HandleLine(request);
        if !normally {
          Emit(Error(None, Protocol));
        }
      case Unreadable =>
        Emit(Error(None, Protocol));
      case EndOfInput =>
        eof := true;
        BeginForcedShutdown();
    }

    method ReportIdle()
      modifies this
      ensures Now() == NoteIdle(old(Now()))
    {
      if phase == Ready {
        if lastWaitEchild {
          idleStreak := idleStreak + 1;
          if idleStreak >= 2 && !idleEmitted {
            Emit(Idle);
            idleEmitted := true;
          }
        } else {
          idleStreak := 0;
          idleEmitted := false;
        }
      }
    }

    /** One turn of the loop, in the order of the source. */
    method RunTurn(turn: Turn)
      requires !finished
      modifies this
      ensures Now() == Tick(old(Now()), turn)
      ensures Between(old(Now())) ==> Between(Now()) && Follows(old(Now()), Now())
    {
      hide SessionModel.BeginForcedShutdown, Listen, Drain, SessionModel.AdvanceShutdown, NoteIdle, Between, Follows, Inv;
      if Between(Now()) {
        TickKeeps(Now(), turn);
      }
      if turn.parentGone {
        BeginForcedShutdown();
      }
      if turn.sigterm {
        BeginForcedShutdown();
      }
      ReadInput(turn.input);
      DrainReapEvents();
      AdvanceShutdown();
      ReportIdle();
      if phase == Stopped {
        Emit(SessionStopped);
        finished := true;
      }
    }

    /** The whole session; it returns as soon as it has stopped, and then it is over for good. */
    method RunSession(turns: seq<Turn>)
      modifies this
      ensures Now() == Run(old(Now()), turns)
      ensures Between(old(Now())) ==> Between(Now()) && Follows(old(Now()), Now()) && (finished ==> Over(Now()))
    {
      hide Tick, Between, Follows, Over, Inv;
      if Between(Now()) {
        RunPromises(Now(), turns);
      }
      var i := 0;
      assert turns[0..] == turns;
      while i < |turns| && !finished
        invariant 0 <= i <= |turns|
        invariant Run(Now(), turns[i..]) == Run(old(Now()), turns)
      {
        assert turns[i..][1..] == turns[i + 1..];
        RunTurn(turns[i]);
        i := i + 1;
      }
      if finished {
        FinishedStays(Now(), turns[i..]);
      }
    }
  }

  lemma StartIsBetween(k: Kernel)
    requires Sound(k.processes)
    ensures Between(Start(k))
  {
    hide Inv;
    StartIsInv(k);
  }

  lemma AdvanceStopsWhenEmpty(s: State)
    requires Inv(s) && !s.loop.finished
    ensures var r := SessionModel.AdvanceShutdown(s);
            Inv(r) && (r.phase == Stopped ==> r.kernel.processes == map[])
  {
    AdvanceShutdownKeeps(s);
    hide Sound, Agree, LogAgrees, Ended, ShutdownOnce, SpawnOrder, Timed, GraceKept, SessionModel.AdvanceShutdown;
  }
}
