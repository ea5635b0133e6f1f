/**
 The processes below the session sidecar, as its kernel shows them: forks, exits that hand their
 children to the sidecar (it is a subreaper), the sidecar's own waitpid, fork, clock and signals.

 Whatever the processes do between two system calls of the sidecar, and how long it takes, is one
 `Moment`; the moments still to come are part of the kernel's state.
 */
module ProcessTree {
  import opened Basics

  type Pid = nat

  /** The sidecar itself. */
  const SELF: Pid := 0

  datatype ExitStatus = Exited(code: int) | Signaled(signal: int)

  datatype Process = Process(parent: Pid, birth: nat, exit: Option<ExitStatus>)

  type Processes = map<Pid, Process>

  datatype Happening =
    | Fork(parent: Pid, child: Pid, birth: nat)
    | Exit(pid: Pid, status: ExitStatus)
    | Collect(pid: Pid)

  /** What happens before a system call returns, how long it takes, and which child waitpid would pick. */
  datatype Moment = Moment(happenings: seq<Happening>, elapsed: nat, pick: Pid)

  datatype Kernel = Kernel(processes: Processes, clock: nat, future: seq<Moment>)

  /** Parents are alive, older than their children, and below the sidecar. */
  ghost predicate Sound(ps: Processes)
  {
    && SELF !in ps
    && forall p :: p in ps && ps[p].parent != SELF ==>
         ps[p].parent in ps && ps[ps[p].parent].exit.None? && ps[ps[p].parent].birth < ps[p].birth
  }

  predicate Alive(ps: Processes, p: Pid)
  {
    p in ps && ps[p].exit.None?
  }

  /** The exit of `p` leaves a zombie and gives its children to the sidecar. */
  function Orphaned(ps: Processes, p: Pid, status: ExitStatus): (r: Processes)
    requires p in ps
  {
    map q | q in ps ::
      if q == p then ps[q].(exit := Some(status))
      else if ps[q].parent == p then ps[q].(parent := SELF)
      else ps[q]
  }

  /** One thing the processes do by themselves; what is not possible does not happen. */
  function Happens(ps: Processes, h: Happening): (r: Processes)
  {
    match h
    case Fork(parent, child, birth) =>
      if Alive(ps, parent) && child !in ps && child != SELF && ps[parent].birth < birth
      then ps[child := Process(parent, birth, None)] else ps
    case Exit(pid, status) =>
      if Alive(ps, pid) && pid != SELF then Orphaned(ps, pid, status) else ps
    case Collect(pid) =>
      if pid in ps && ps[pid].exit.Some? && ps[pid].parent != SELF then ps - {pid} else ps
  }

  function HappenAll(ps: Processes, hs: seq<Happening>): (r: Processes)
    decreases |hs|
  {
    if hs == [] then ps else HappenAll(Happens(ps, hs[0]), hs[1..])
  }

  /** The children of the sidecar stay its children until it reaps them. */
  ghost predicate ChildrenStay(before: Processes, after: Processes)
  {
    forall p :: p in before && before[p].parent == SELF ==> p in after && after[p].parent == SELF
  }

  lemma HappensKeeps(ps: Processes, h: Happening)
    requires Sound(ps)
    ensures Sound(Happens(ps, h)) && ChildrenStay(ps, Happens(ps, h))
    ensures ps == map[] ==> Happens(ps, h) == map[]
  {
  }

  lemma {:induction false} HappenAllKeeps(ps: Processes, hs: seq<Happening>)
    requires Sound(ps)
    ensures Sound(HappenAll(ps, hs)) && ChildrenStay(ps, HappenAll(ps, hs))
    ensures ps == map[] ==> HappenAll(ps, hs) == map[]
    decreases |hs|
  {
    if hs != [] {
      HappensKeeps(ps, hs[0]);
      HappenAllKeeps(Happens(ps, hs[0]), hs[1..]);
    }
  }

  /** Time passes and processes act while a system call is made. */
  function Pass(k: Kernel): (k': Kernel)
  {
    if k.future == [] then k
    else Kernel(HappenAll(k.processes, k.future[0].happenings), k.clock + k.future[0].elapsed, k.future[1..])
  }

  lemma PassKeeps(k: Kernel)
    requires Sound(k.processes)
    ensures Sound(Pass(k).processes) && ChildrenStay(k.processes, Pass(k).processes)
    ensures k.processes == map[] ==> Pass(k).processes == map[]
    ensures Pass(k).clock >= k.clock
  {
    if k.future != [] {
      HappenAllKeeps(k.processes, k.future[0].happenings);
    }
  }

  /** The answers of waitpid(-1, WNOHANG). */
  datatype WaitAnswer = Reaped(pid: Pid, status: ExitStatus) | NothingYet | NoChildren

  predicate HasChildren(ps: Processes)
  {
    exists p :: p in ps && ps[p].parent == SELF
  }

  /** waitpid may also answer NothingYet for an error that is neither ECHILD nor EINTR. */
  function Wait(k: Kernel): (r: (Kernel, WaitAnswer))
    ensures r.1.Reaped? ==> |r.0.future| < |k.future|
    ensures r.1 == NoChildren <==> !HasChildren(Pass(k).processes)
  {
    var k' := Pass(k);
    if !HasChildren(k'.processes) then (k', NoChildren)
    else if k.future == [] then (k', NothingYet)
    else
      var p := k.future[0].pick;
      if p in k'.processes && k'.processes[p].parent == SELF && k'.processes[p].exit.Some? then
        (k'.(processes := k'.processes - {p}), Reaped(p, k'.processes[p].exit.value))
      else (k', NothingYet)
  }

  /** Unless there is no process at all, the oldest one is the sidecar's own child. */
  lemma SomebodyIsAChild(ps: Processes)
    requires Sound(ps) && ps != map[]
    ensures HasChildren(ps)
  {
    assert ps.Keys == {} ==> ps == map[];
    var p := Oldest(ps, ps.Keys);
  }

  lemma {:induction false} Oldest(ps: Processes, among: set<Pid>) returns (p: Pid)
    requires among != {} && among <= ps.Keys
    ensures p in among && forall q :: q in among ==> ps[p].birth <= ps[q].birth
  {
    p :| p in among;
    if among != {p} {
      var q := Oldest(ps, among - {p});
      if ps[q].birth < ps[p].birth {
        p := q;
      }
    }
  }

  lemma ReapKeeps(ps: Processes, p: Pid)
    requires Sound(ps) && p in ps && ps[p].exit.Some?
    ensures Sound(ps - {p})
  {
  }

  /** waitpid takes away no child but the one it reports, and ECHILD means that no process is left. */
  lemma WaitKeeps(k: Kernel)
    requires Sound(k.processes)
    ensures var (k', answer) := Wait(k);
            && Sound(k'.processes) && k'.clock >= k.clock
            && (forall p :: p in k.processes && k.processes[p].parent == SELF && !(answer.Reaped? && answer.pid == p) ==>
                  p in k'.processes && k'.processes[p].parent == SELF)
            && (answer.Reaped? ==> answer.pid !in k'.processes)
            && (answer == NoChildren ==> k'.processes == map[])
  {
    PassKeeps(k);
    hide Pass, Sound, HasChildren;
    var (k', answer) := Wait(k);
    if answer.Reaped? {
      ReapKeeps(Pass(k).processes, answer.pid);
    } else if answer.NoChildren? {
      if k'.processes != map[] {
        SomebodyIsAChild(k'.processes);
      }
    }
  }

  /** fork by the sidecar: fails, or makes a child with an unused pid. */
  function ForkChild(k: Kernel, pid: Option<Pid>, birth: nat): (r: (Kernel, Option<Pid>))
  {
    var k' := Pass(k);
    if pid.None? || pid.value in k'.processes || pid.value == SELF then (k', None)
    else (k'.(processes := k'.processes[pid.value := Process(SELF, birth, None)]), pid)
  }

  lemma ForkKeeps(k: Kernel, pid: Option<Pid>, birth: nat)
    requires Sound(k.processes)
    ensures var (k', child) := ForkChild(k, pid, birth);
            && Sound(k'.processes) && ChildrenStay(k.processes, k'.processes) && k'.clock >= k.clock
            && (child.Some? ==> child.value in k'.processes && k'.processes[child.value].parent == SELF)
            && (child.Some? ==> child.value !in k.processes || k.processes[child.value].parent != SELF)
  {
    PassKeeps(k);
    hide Pass;
    if pid.Some? && pid.value !in Pass(k).processes && pid.value != SELF {
      NewChildIsSound(Pass(k).processes, pid.value, birth);
    }
  }

  lemma NewChildIsSound(ps: Processes, pid: Pid, birth: nat)
    requires Sound(ps) && pid !in ps && pid != SELF
    ensures Sound(ps[pid := Process(SELF, birth, None)])
  {
  }
}
