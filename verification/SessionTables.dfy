/**
 The request, pid and controller tables of the session supervisor and its event log
 (crates/ro-sessiond/src/supervisor.rs), and what keeps them in agreement.
 */
module SessionTables {
  import opened Basics
  import opened ProcessTree

  const MAX_IN_FLIGHT: nat := 32

  datatype Record = Record(pid: Pid, isShutdown: bool)

  datatype Tables = Tables(
    requestIds: set<string>,
    inFlight: nat,
    pidToRequest: map<Pid, string>,
    controllers: map<string, Record>)

  const EMPTY := Tables({}, 0, map[], map[])

  function Claim(t: Tables, id: string): (t': Tables)
  {
    t.(requestIds := t.requestIds + {id})
  }

  /** A spawned controller enters both tables; only launches count as in flight. */
  function Enrol(t: Tables, id: string, pid: Pid, isShutdown: bool): (t': Tables)
  {
    Tables(
      t.requestIds,
      if isShutdown then t.inFlight else t.inFlight + 1,
      t.pidToRequest[pid := id],
      t.controllers[id := Record(pid, isShutdown)])
  }

  function Saturating(n: nat): (r: nat)
  {
    if n == 0 then 0 else n - 1
  }

  /** Whether the record of `id` is the shutdown controller's; a missing record is not. */
  predicate IsShutdown(t: Tables, id: string)
  {
    id in t.controllers && t.controllers[id].isShutdown
  }

  function Strike(t: Tables, pid: Pid): (t': Tables)
    requires pid in t.pidToRequest
  {
    var id := t.pidToRequest[pid];
    Tables(
      t.requestIds,
      if IsShutdown(t, id) then t.inFlight else Saturating(t.inFlight),
      t.pidToRequest - {pid},
      t.controllers - {id})
  }

  // ---------------------------------------------------------------- agreement

  function Launches(controllers: map<string, Record>): (ids: set<string>)
  {
    set id | id in controllers && !controllers[id].isShutdown
  }

  /** Pids and controller records are one-to-one, every pid is a child not yet reaped, and the count is right. */
  ghost predicate Agree(t: Tables, ps: Processes)
  {
    && (forall pid :: pid in t.pidToRequest ==>
          && t.pidToRequest[pid] in t.controllers && t.controllers[t.pidToRequest[pid]].pid == pid
          && pid in ps && ps[pid].parent == SELF)
    && (forall id :: id in t.controllers ==>
          && id in t.requestIds
          && t.controllers[id].pid in t.pidToRequest && t.pidToRequest[t.controllers[id].pid] == id)
    && t.inFlight == |Launches(t.controllers)|
    && t.inFlight <= MAX_IN_FLIGHT
  }

  lemma EmptyAgrees(ps: Processes)
    ensures Agree(EMPTY, ps)
  {
  }

  lemma ClaimAgrees(t: Tables, ps: Processes, id: string)
    requires Agree(t, ps)
    ensures Agree(Claim(t, id), ps)
  {
  }

  lemma StayAgrees(t: Tables, ps: Processes, ps': Processes)
    requires Agree(t, ps) && ChildrenStay(ps, ps')
    ensures Agree(t, ps')
  {
  }

  lemma EnrolAgrees(t: Tables, ps: Processes, id: string, pid: Pid, isShutdown: bool)
    requires Agree(t, ps) && id in t.requestIds && id !in t.controllers && pid !in t.pidToRequest
    requires pid in ps && ps[pid].parent == SELF
    requires !isShutdown ==> t.inFlight < MAX_IN_FLIGHT
    ensures Agree(Enrol(t, id, pid, isShutdown), ps)
  {
    EnrolCounts(t.controllers, id, Record(pid, isShutdown));
    var t' := Enrol(t, id, pid, isShutdown);
    forall p | p in t'.pidToRequest
      ensures t'.pidToRequest[p] in t'.controllers && t'.controllers[t'.pidToRequest[p]].pid == p && p in ps && ps[p].parent == SELF
    {
      EnrolKeepsPid(t, ps, id, pid, isShutdown, p);
    }
    hide Launches;
  }

  lemma EnrolKeepsPid(t: Tables, ps: Processes, id: string, pid: Pid, isShutdown: bool, p: Pid)
    requires Agree(t, ps) && id !in t.controllers && pid in ps && ps[pid].parent == SELF
    requires p in Enrol(t, id, pid, isShutdown).pidToRequest
    ensures var t' := Enrol(t, id, pid, isShutdown);
            t'.pidToRequest[p] in t'.controllers && t'.controllers[t'.pidToRequest[p]].pid == p && p in ps && ps[p].parent == SELF
  {
    hide Launches;
  }

  lemma EnrolCounts(controllers: map<string, Record>, id: string, record: Record)
    requires id !in controllers
    ensures |Launches(controllers[id := record])| == |Launches(controllers)| + if record.isShutdown then 0 else 1
  {
    var after := Launches(controllers[id := record]);
    assert after == if record.isShutdown then Launches(controllers) else Launches(controllers) + {id};
  }

  /** The saturating decrement never meets zero: a launch that is struck was counted. */
  lemma NeverSaturates(t: Tables, ps: Processes, pid: Pid)
    requires Agree(t, ps) && pid in t.pidToRequest
    ensures var id := t.pidToRequest[pid];
            id in t.controllers && (!IsShutdown(t, id) ==> id in Launches(t.controllers) && t.inFlight > 0)
  {
    var id := t.pidToRequest[pid];
    if !IsShutdown(t, id) {
      assert id in Launches(t.controllers);
    }
  }

  lemma StrikeAgrees(t: Tables, ps: Processes, ps': Processes, pid: Pid)
    requires Agree(t, ps) && pid in t.pidToRequest
    requires forall p :: p in ps && ps[p].parent == SELF && p != pid ==> p in ps' && ps'[p].parent == SELF
    ensures Agree(Strike(t, pid), ps')
  {
    NeverSaturates(t, ps, pid);
    var id := t.pidToRequest[pid];
    var after := Launches(Strike(t, pid).controllers);
    assert after == Launches(t.controllers) - {id};
    if IsShutdown(t, id) {
      assert id !in Launches(t.controllers);
    }
  }

  lemma NobodyLeft(t: Tables)
    requires Agree(t, map[])
    ensures t.pidToRequest == map[] && t.controllers == map[] && t.inFlight == 0
  {
    assert forall id :: id in t.controllers ==> t.controllers[id].pid in t.pidToRequest;
    assert Launches(t.controllers) == {};
  }

  // ---------------------------------------------------------------- the event log

  datatype Stage = Validation | Launching | ShuttingDown | Protocol

  datatype SessionEvent =
    | LaunchAccepted(id: string, pid: Pid)
    | ShutdownAccepted(id: string)
    | ControllerExited(id: string, pid: Pid, status: ExitStatus)
    | Idle
    | Error(request: Option<string>, stage: Stage)
    | SessionStopped

  /** An event with the time at which it was written. */
  datatype Entry = Entry(at: nat, event: SessionEvent)

  type Log = seq<Entry>

  predicate Accepts(log: Log, i: nat, id: string, pid: Pid)
  {
    i < |log| && log[i].event == LaunchAccepted(id, pid)
  }

  predicate Exits(log: Log, i: nat, id: string, pid: Pid)
  {
    i < |log| && log[i].event.ControllerExited? && log[i].event.id == id && log[i].event.pid == pid
  }

  /** A request is accepted at most once and exits at most once, later and with the same pid. */
  ghost predicate OncePerRequest(log: Log)
  {
    && (forall i, j, id, p, q :: Accepts(log, i, id, p) && Accepts(log, j, id, q) ==> i == j)
    && (forall i, j, id, p, q :: Exits(log, i, id, p) && Exits(log, j, id, q) ==> i == j)
    && (forall i, j, id, p, q :: Accepts(log, i, id, p) && Exits(log, j, id, q) ==> i < j && p == q)
  }

  ghost predicate HasExit(log: Log, id: string, pid: Pid)
  {
    exists j :: Exits(log, j, id, pid)
  }

  /** An accepted launch is in the tables until its exit is in the log. */
  ghost predicate LogAgrees(log: Log, t: Tables)
  {
    && OncePerRequest(log)
    && (forall i, id, p :: Accepts(log, i, id, p) ==>
          && id in t.requestIds
          && (if id in t.controllers then t.controllers[id] == Record(p, false) else HasExit(log, id, p)))
    && (forall j, id, p :: Exits(log, j, id, p) ==> id in t.requestIds && id !in t.controllers)
  }

  predicate Neutral(e: SessionEvent)
  {
    !e.LaunchAccepted? && !e.ControllerExited?
  }

  lemma NeutralLog(log: Log, e: Entry)
    requires Neutral(e.event)
    ensures forall i, id, p :: Accepts(log + [e], i, id, p) <==> Accepts(log, i, id, p)
    ensures forall i, id, p :: Exits(log + [e], i, id, p) <==> Exits(log, i, id, p)
    ensures forall id, p :: HasExit(log, id, p) ==> HasExit(log + [e], id, p)
  {
    forall id, p | HasExit(log, id, p)
      ensures HasExit(log + [e], id, p)
    {
      var j :| Exits(log, j, id, p);
      assert Exits(log + [e], j, id, p);
    }
  }

  lemma NeutralAgrees(log: Log, e: Entry, t: Tables)
    requires LogAgrees(log, t) && Neutral(e.event)
    ensures LogAgrees(log + [e], t)
  {
    NeutralLog(log, e);
    hide Accepts, Exits, HasExit, Neutral;
  }

  lemma ClaimLog(log: Log, t: Tables, id: string)
    requires LogAgrees(log, t)
    ensures LogAgrees(log, Claim(t, id))
  {
    hide Accepts, Exits, HasExit, OncePerRequest;
  }

  /** A new request in the tables, with nothing about it in the log yet. */
  lemma EnrolLog(log: Log, t: Tables, id: string, pid: Pid, isShutdown: bool)
    requires LogAgrees(log, t) && id !in t.requestIds
    ensures LogAgrees(log, Enrol(Claim(t, id), id, pid, isShutdown))
  {
    hide Accepts, Exits, HasExit, OncePerRequest;
  }

  lemma AcceptLog(log: Log, t: Tables, id: string, pid: Pid, at: nat)
    requires LogAgrees(log, t) && id !in t.requestIds
    ensures LogAgrees(log + [Entry(at, LaunchAccepted(id, pid))], Enrol(Claim(t, id), id, pid, false))
  {
    var log' := log + [Entry(at, LaunchAccepted(id, pid))];
    AppendedAccept(log, id, pid, at);
    hide Accepts, Exits, HasExit;
  }

  lemma AppendedAccept(log: Log, id: string, pid: Pid, at: nat)
    ensures var log' := log + [Entry(at, LaunchAccepted(id, pid))];
            && (forall i, x, p :: Accepts(log', i, x, p) <==> Accepts(log, i, x, p) || (i == |log| && x == id && p == pid))
            && (forall i, x, p :: Exits(log', i, x, p) <==> Exits(log, i, x, p))
            && (forall x, p :: HasExit(log, x, p) ==> HasExit(log', x, p))
            && (forall i: nat, x, p :: Exits(log, i, x, p) || Accepts(log, i, x, p) ==> i < |log|)
  {
    var log' := log + [Entry(at, LaunchAccepted(id, pid))];
    forall x, p | HasExit(log, x, p)
      ensures HasExit(log', x, p)
    {
      var j :| Exits(log, j, x, p);
      assert Exits(log', j, x, p);
    }
  }

  lemma AppendedExit(log: Log, id: string, pid: Pid, status: ExitStatus, at: nat)
    ensures var log' := log + [Entry(at, ControllerExited(id, pid, status))];
            && (forall i, x, p :: Accepts(log', i, x, p) <==> Accepts(log, i, x, p))
            && (forall i, x, p :: Exits(log', i, x, p) <==> Exits(log, i, x, p) || (i == |log| && x == id && p == pid))
            && (forall x, p :: HasExit(log, x, p) ==> HasExit(log', x, p))
            && HasExit(log', id, pid)
            && (forall i: nat, x, p :: Exits(log, i, x, p) || Accepts(log, i, x, p) ==> i < |log|)
  {
    var log' := log + [Entry(at, ControllerExited(id, pid, status))];
    assert Exits(log', |log|, id, pid);
    forall x, p | HasExit(log, x, p)
      ensures HasExit(log', x, p)
    {
      var j :| Exits(log, j, x, p);
      assert Exits(log', j, x, p);
    }
  }

  lemma ExitLog(log: Log, t: Tables, ps: Processes, pid: Pid, status: ExitStatus, at: nat)
    requires LogAgrees(log, t) && Agree(t, ps) && pid in t.pidToRequest && !IsShutdown(t, t.pidToRequest[pid])
    ensures LogAgrees(log + [Entry(at, ControllerExited(t.pidToRequest[pid], pid, status))], Strike(t, pid))
  {
    var id := t.pidToRequest[pid];
    AppendedExit(log, id, pid, status, at);
    assert t.controllers[id].pid == pid;
    hide Accepts, Exits, HasExit, Launches;
  }

  lemma ShutdownExitLog(log: Log, t: Tables, ps: Processes, pid: Pid)
    requires LogAgrees(log, t) && Agree(t, ps) && pid in t.pidToRequest && IsShutdown(t, t.pidToRequest[pid])
    ensures LogAgrees(log, Strike(t, pid))
  {
    hide Accepts, Exits, HasExit, OncePerRequest, Launches;
  }
}
