/**
 Operation guards across threads and processes (src-tauri/src/utils/operation_lock.rs).

 Every process keeps a registry of its guards per key and one record lock per key in the
 kernel. The kernel follows fcntl() of IEEE Std 1003.1-2017: a record lock belongs to the
 process, a new request of the owner replaces its old lock, closing any descriptor of the file
 drops the process's locks on it, and a forked child inherits descriptors but no locks.
 */
module OperationLock {
  import opened Basics

  type Pid = nat
  type Fd = nat

  /** A resource, named by a namespace and a normalised path; it stands for its lock file. */
  datatype Key = Key(namespace: string, path: string)

  datatype Mode = Shared | Exclusive

  // ---------------------------------------------------------------- the kernel

  /** What the kernel keeps for one process: open lock files and record locks. */
  datatype Side = Side(files: map<Fd, Key>, records: map<Key, Mode>)

  type Kernel = map<Pid, Side>

  /** Another process holds a lock that is not compatible with the request. */
  predicate Contended(k: Kernel, p: Pid, key: Key, mode: Mode)
  {
    exists q :: q in k && q != p && key in k[q].records && (mode == Exclusive || k[q].records[key] == Exclusive)
  }

  function Open(s: Side, fd: Fd, key: Key): (s': Side)
  {
    s.(files := s.files[fd := key])
  }

  function SetLock(s: Side, key: Key, mode: Mode): (s': Side)
  {
    s.(records := s.records[key := mode])
  }

  function Close(s: Side, fd: Fd): (s': Side)
  {
    if fd in s.files then Side(s.files - {fd}, s.records - {s.files[fd]}) else s
  }

  /** What the system answers to the open and lock calls of one acquisition. */
  datatype Answer =
    | Works(fd: Fd, interrupts: nat)
    | OpenFails
    | LockFails(fd: Fd, interrupts: nat)

  // ---------------------------------------------------------------- one process

  datatype LockState = LockState(readers: nat, writer: bool, crossProcess: Option<Fd>)

  datatype LockError = Busy | Io

  type Operations = map<Key, LockState>

  datatype Guard = Guard(key: Key, shared: bool)

  function ModeOf(shared: bool): (m: Mode) { if shared then Shared else Exclusive }

  function LockAcrossProcesses(s: Side, key: Key, shared: bool, answer: Answer, contended: bool)
    : (r: (Side, Result<Fd, LockError>))
  {
    match answer
    case OpenFails => (s, Err(Io))
    case LockFails(fd, _) => (Close(Open(s, fd, key), fd), Err(Io))
    case Works(fd, _) =>
      if contended then (Close(Open(s, fd, key), fd), Err(Busy))
      else (SetLock(Open(s, fd, key), key, ModeOf(shared)), Ok(fd))
  }

  /** The registry, the kernel's side and the result after acquire_with_mode. */
  function AcquireWithMode(ops: Operations, s: Side, key: Key, shared: bool, answer: Answer, contended: bool)
    : (r: (Operations, Side, Result<Guard, LockError>))
  {
    var active := if key in ops then ops[key] else LockState(0, false, None);
    var unavailable := if shared then active.writer else active.writer || active.readers > 0;
    if unavailable then (ops[key := active], s, Err(Busy))
    else
      var (s', lock) :=
        if active.crossProcess.None? then LockAcrossProcesses(s, key, shared, answer, contended)
        else (s, Ok(active.crossProcess.value));
      if lock.Err? then (ops - {key}, s', Err(lock.error))
      else
        var locked := active.(crossProcess := Some(lock.value));
        var counted := if shared then locked.(readers := locked.readers + 1) else locked.(writer := true);
        (ops[key := counted], s', Ok(Guard(key, shared)))
  }

  /** The registry and the kernel's side after a guard is dropped. */
  function DropGuard(ops: Operations, s: Side, guard: Guard): (r: (Operations, Side))
  {
    if guard.key !in ops then (ops, s)
    else
      var active := ops[guard.key];
      var released :=
        if guard.shared then active.(readers := if active.readers > 0 then active.readers - 1 else 0)
        else active.(writer := false);
      if released.readers == 0 && !released.writer then
        (ops - {guard.key}, if released.crossProcess.Some? then Close(s, released.crossProcess.value) else s)
      else (ops[guard.key := released], s)
  }

  class KernelTable {
    var sides: Kernel

    constructor ()
      ensures sides == map[]
    {
      sides := map[];
    }
  }

  /** The registry of one process, changed in place under its mutex. */
  class OperationRegistry {
    const pid: Pid
    var operations: Operations

    constructor (pid: Pid)
      ensures this.pid == pid && operations == map[]
    {
      this.pid := pid;
      operations := map[];
    }

    /** Opens the key's file and asks for the record lock; interrupted calls are repeated. */
    method TakeRecordLock(kernel: KernelTable, key: Key, shared: bool, answer: Answer)
      returns (r: Result<Fd, LockError>)
      requires pid in kernel.sides
      modifies kernel
      ensures var contended := Contended(old(kernel.sides), pid, key, ModeOf(shared));
              var (s, lock) := LockAcrossProcesses(old(kernel.sides)[pid], key, shared, answer, contended);
              kernel.sides == old(kernel.sides)[pid := s] && r == lock
    {
      hide Open, Close, SetLock;
      ghost var before := kernel.sides;
      assert before[pid := before[pid]] == before;
      if answer.OpenFails? {
        return Err(Io);
      }
      var fd := answer.fd;
      kernel.sides := kernel.sides[pid := Open(kernel.sides[pid], fd, key)];
      var interrupts := answer.interrupts;
      while interrupts > 0
        invariant kernel.sides == before[pid := Open(before[pid], fd, key)]
      {
        interrupts := interrupts - 1;
      }
      if answer.LockFails? {
        kernel.sides := kernel.sides[pid := Close(kernel.sides[pid], fd)];
        return Err(Io);
      }
      var contended := Contended(kernel.sides, pid, key, ModeOf(shared));
      assert contended == Contended(before, pid, key, ModeOf(shared)) by {
        assert forall q :: q != pid ==> (q in before <==> q in kernel.sides) && (q in before ==> kernel.sides[q] == before[q]);
      }
      if contended {
        kernel.sides := kernel.sides[pid := Close(kernel.sides[pid], fd)];
        return Err(Busy);
      }
      kernel.sides := kernel.sides[pid := SetLock(kernel.sides[pid], key, ModeOf(shared))];
      return Ok(fd);
    }

    method Acquire(kernel: KernelTable, key: Key, shared: bool, answer: Answer)
      returns (r: Result<Guard, LockError>)
      requires pid in kernel.sides
      modifies this, kernel
      ensures var contended := Contended(old(kernel.sides), pid, key, ModeOf(shared));
              var (ops, s, result) :=
                AcquireWithMode(old(operations), old(kernel.sides)[pid], key, shared, answer, contended);
              operations == ops && kernel.sides == old(kernel.sides)[pid := s] && r == result
    {
      ghost var before := kernel.sides;
      assert before[pid := before[pid]] == before;
      if key !in operations {
        operations := operations[key := LockState(0, false, None)];
      }
      var active := operations[key];
      var unavailable := if shared then active.writer else active.writer || active.readers > 0;
      if unavailable {
        assert operations == old(operations)[key := active];
        return Err(Busy);
      }
      if active.crossProcess.None? {
        var lock := TakeRecordLock(kernel, key, shared, answer);
        if lock.Err? {
          assert operations - {key} == old(operations) - {key};
          operations := operations - {key};
          return Err(lock.error);
        }
        active := active.(crossProcess := Some(lock.value));
      }
      if shared {
        active := active.(readers := active.readers + 1);
      } else {
        active := active.(writer := true);
      }
      assert operations[key := active] == old(operations)[key := active];
      operations := operations[key := active];
      return Ok(Guard(key, shared));
    }

    method Drop(kernel: KernelTable, guard: Guard)
      requires pid in kernel.sides
      modifies this, kernel
      ensures var (ops, s) := DropGuard(old(operations), old(kernel.sides)[pid], guard);
              operations == ops && kernel.sides == old(kernel.sides)[pid := s]
    {
      ghost var before := kernel.sides;
      assert before[pid := before[pid]] == before;
      if guard.key in operations {
        var active := operations[guard.key];
        if guard.shared {
          active := active.(readers := if active.readers > 0 then active.readers - 1 else 0);
        } else {
          active := active.(writer := false);
        }
        operations := operations[guard.key := active];
        if active.readers == 0 && !active.writer {
          if active.crossProcess.Some? {
            kernel.sides := kernel.sides[pid := Close(kernel.sides[pid], active.crossProcess.value)];
          }
          assert operations - {guard.key} == old(operations) - {guard.key};
          operations := operations - {guard.key};
        }
      }
    }
  }

  // ---------------------------------------------------------------- many processes

  /** A process: its registry and its live guards. A forked child runs no launcher code. */
  datatype Process = Process(operations: Operations, guards: multiset<Guard>, launcher: bool)

  datatype World = World(processes: map<Pid, Process>, kernel: Kernel)

  datatype Step =
    | Start(p: Pid)
    | Acquire(p: Pid, key: Key, shared: bool, answer: Answer)
    | Drop(p: Pid, guard: Guard)
    | Fork(p: Pid, child: Pid)
    | Die(p: Pid)

  const INITIAL := World(map[], map[])

  ghost predicate Enabled(w: World, s: Step)
  {
    && w.processes.Keys == w.kernel.Keys
    && match s
       case Start(p) => p !in w.processes
       case Acquire(p, _, _, answer) =>
         p in w.processes && w.processes[p].launcher && (answer.OpenFails? || answer.fd !in w.kernel[p].files)
       case Drop(p, guard) => p in w.processes && guard in w.processes[p].guards
       case Fork(p, child) => p in w.processes && child !in w.processes
       case Die(p) => p in w.processes
  }

  ghost function Attempt(w: World, p: Pid, key: Key, shared: bool, answer: Answer)
    : (r: (World, Result<Guard, LockError>))
    requires Enabled(w, Acquire(p, key, shared, answer))
  {
    var proc := w.processes[p];
    var contended := Contended(w.kernel, p, key, ModeOf(shared));
    var (ops, s, result) := AcquireWithMode(proc.operations, w.kernel[p], key, shared, answer, contended);
    var guards := if result.Ok? then proc.guards + multiset{result.value} else proc.guards;
    (Put(w, p, proc.(operations := ops, guards := guards), s), result)
  }

  function Put(w: World, p: Pid, proc: Process, s: Side): (w': World)
  {
    World(w.processes[p := proc], w.kernel[p := s])
  }

  /**
   The child inherits the descriptors and none of the locks. A process that dies takes its
   descriptors and locks with it.
   */
  ghost function Apply(w: World, s: Step): (w': World)
    requires Enabled(w, s)
  {
    match s
    case Start(p) => Put(w, p, Process(map[], multiset{}, true), Side(map[], map[]))
    case Acquire(p, key, shared, answer) => Attempt(w, p, key, shared, answer).0
    case Drop(p, guard) =>
      var proc := w.processes[p];
      var (ops, side) := DropGuard(proc.operations, w.kernel[p], guard);
      Put(w, p, proc.(operations := ops, guards := proc.guards - multiset{guard}), side)
    case Fork(p, child) =>
      Put(w, child, Process(map[], multiset{}, false), Side(w.kernel[p].files, map[]))
    case Die(p) => World(w.processes - {p}, w.kernel - {p})
  }

  ghost predicate IsRun(w: World, steps: seq<Step>, w': World)
    decreases |steps|
  {
    if steps == [] then w' == w
    else Enabled(w, steps[0]) && IsRun(Apply(w, steps[0]), steps[1..], w')
  }

  // ---------------------------------------------------------------- the invariant

  /** One registry entry counts its guards and holds one descriptor and the right lock. */
  ghost predicate EntryAgrees(proc: Process, s: Side, key: Key)
    requires key in proc.operations
  {
    var e := proc.operations[key];
    && e.readers == proc.guards[Guard(key, true)]
    && proc.guards[Guard(key, false)] == (if e.writer then 1 else 0)
    && (e.writer <==> e.readers == 0)
    && e.crossProcess.Some?
    && e.crossProcess.value in s.files && s.files[e.crossProcess.value] == key
    && key in s.records && s.records[key] == ModeOf(!e.writer)
  }

  /** A process's registry, guards, descriptors and locks tell the same story. */
  ghost predicate Agrees(proc: Process, s: Side)
  {
    && (forall key :: key in proc.operations ==> EntryAgrees(proc, s, key))
    && NothingElse(proc, s)
  }

  /** No guard, lock or descriptor is without its registry entry. */
  ghost predicate NothingElse(proc: Process, s: Side)
  {
    && (forall g :: g in proc.guards ==> g.key in proc.operations)
    && (forall key :: key in s.records ==> key in proc.operations)
    && (proc.launcher ==> forall fd :: fd in s.files ==>
          s.files[fd] in proc.operations && proc.operations[s.files[fd]].crossProcess == Some(fd))
    && (!proc.launcher ==> proc.operations == map[])
  }

  ghost predicate Compatible(k: Kernel)
  {
    forall p, q, key :: p in k && q in k && p != q && key in k[p].records && key in k[q].records
                        ==> k[p].records[key] == Shared
  }

  ghost predicate Inv(w: World)
  {
    && w.processes.Keys == w.kernel.Keys
    && (forall p :: p in w.processes ==> Agrees(w.processes[p], w.kernel[p]))
    && Compatible(w.kernel)
  }

  // ---------------------------------------------------------------- what every step keeps

  /** The outcomes of an acquisition in a registry that agrees with the kernel. */
  lemma AcquireCases(proc: Process, s: Side, key: Key, shared: bool, answer: Answer, contended: bool)
    requires Agrees(proc, s)
    requires answer.OpenFails? || answer.fd !in s.files
    ensures var ops := proc.operations;
            var r := AcquireWithMode(ops, s, key, shared, answer, contended);
            if key in ops then
              if shared && !ops[key].writer then
                r == (ops[key := ops[key].(readers := ops[key].readers + 1)], s, Ok(Guard(key, true)))
              else r == (ops, s, Err(Busy))
            else if !answer.Works? then r == (ops, s, Err(Io))
            else if contended then r == (ops, s, Err(Busy))
            else
              r == (ops[key := LockState(if shared then 1 else 0, !shared, Some(answer.fd))],
                    SetLock(Open(s, answer.fd, key), key, ModeOf(shared)),
                    Ok(Guard(key, shared)))
  {
    var ops := proc.operations;
    if key in ops {
      assert EntryAgrees(proc, s, key);
      assert ops[key := ops[key]] == ops;
    } else {
      assert ops - {key} == ops;
      if !answer.OpenFails? {
        assert s.files[answer.fd := key] - {answer.fd} == s.files;
        assert s.records - {key} == s.records;
      }
    }
  }

  lemma PutSame(w: World, p: Pid)
    requires p in w.processes && p in w.kernel
    ensures Put(w, p, w.processes[p], w.kernel[p]) == w
  {
    assert w.processes[p := w.processes[p]] == w.processes;
    assert w.kernel[p := w.kernel[p]] == w.kernel;
  }

  /** A failed acquisition leaves registries, descriptors and locks of everybody as they were. */
  lemma FailedAcquireChangesNothing(w: World, p: Pid, key: Key, shared: bool, answer: Answer)
    requires Inv(w) && Enabled(w, Acquire(p, key, shared, answer))
    ensures var (w', r) := Attempt(w, p, key, shared, answer); r.Err? ==> w' == w
  {
    hide AcquireWithMode, Agrees, Compatible, Contended, Put;
    AcquireCases(w.processes[p], w.kernel[p], key, shared, answer, Contended(w.kernel, p, key, ModeOf(shared)));
    PutSame(w, p);
  }

  lemma GuardCounts(proc: Process, s: Side, key: Key)
    requires Agrees(proc, s) && key !in proc.operations
    ensures proc.guards[Guard(key, true)] == 0 && proc.guards[Guard(key, false)] == 0
  {
  }

  /** An entry's agreement depends on nothing but the entry, its guards, its file and its lock. */
  lemma EntryFrame(proc: Process, s: Side, proc': Process, s': Side, key: Key)
    requires key in proc.operations && EntryAgrees(proc, s, key)
    requires key in proc'.operations && proc'.operations[key] == proc.operations[key]
    requires proc'.guards[Guard(key, true)] == proc.guards[Guard(key, true)]
    requires proc'.guards[Guard(key, false)] == proc.guards[Guard(key, false)]
    requires forall fd :: fd in s.files && s.files[fd] == key ==> fd in s'.files && s'.files[fd] == key
    requires key in s.records ==> key in s'.records && s'.records[key] == s.records[key]
    ensures EntryAgrees(proc', s', key)
  {
  }

  function AddReader(proc: Process, key: Key): (proc': Process)
    requires key in proc.operations
  {
    var e := proc.operations[key];
    proc.(operations := proc.operations[key := e.(readers := e.readers + 1)],
          guards := proc.guards + multiset{Guard(key, true)})
  }

  lemma ReaderEntry(proc: Process, s: Side, key: Key)
    requires key in proc.operations && EntryAgrees(proc, s, key) && !proc.operations[key].writer
    ensures EntryAgrees(AddReader(proc, key), s, key)
  {
  }

  /** Another reader of a key that this process reads already. */
  lemma ReaderJoins(proc: Process, s: Side, key: Key)
    requires Agrees(proc, s) && key in proc.operations && !proc.operations[key].writer
    ensures Agrees(AddReader(proc, key), s)
  {
    hide EntryAgrees;
    var proc' := AddReader(proc, key);
    ReaderEntry(proc, s, key);
    forall other | other in proc'.operations
      ensures EntryAgrees(proc', s, other)
    {
      if other != key {
        EntryFrame(proc, s, proc', s, other);
      }
    }
  }

  function AddFirst(proc: Process, key: Key, shared: bool, fd: Fd): (proc': Process)
  {
    proc.(operations := proc.operations[key := LockState(if shared then 1 else 0, !shared, Some(fd))],
          guards := proc.guards + multiset{Guard(key, shared)})
  }

  lemma FirstEntry(proc: Process, s: Side, key: Key, shared: bool, fd: Fd)
    requires proc.guards[Guard(key, true)] == 0 && proc.guards[Guard(key, false)] == 0
    ensures EntryAgrees(AddFirst(proc, key, shared, fd), SetLock(Open(s, fd, key), key, ModeOf(shared)), key)
  {
  }

  /** The first guard of this process on a key, granted by the kernel. */
  lemma FirstGuard(proc: Process, s: Side, key: Key, shared: bool, fd: Fd)
    requires Agrees(proc, s) && proc.launcher && key !in proc.operations && fd !in s.files
    ensures Agrees(AddFirst(proc, key, shared, fd), SetLock(Open(s, fd, key), key, ModeOf(shared)))
  {
    hide EntryAgrees;
    var proc' := AddFirst(proc, key, shared, fd);
    var s' := SetLock(Open(s, fd, key), key, ModeOf(shared));
    GuardCounts(proc, s, key);
    FirstEntry(proc, s, key, shared, fd);
    forall other | other in proc'.operations
      ensures EntryAgrees(proc', s', other)
    {
      if other != key {
        EntryFrame(proc, s, proc', s', other);
      }
    }
  }

  function Without(proc: Process, s: Side, guard: Guard): (r: (Process, Side))
  {
    var (ops, s') := DropGuard(proc.operations, s, guard);
    (proc.(operations := ops, guards := proc.guards - multiset{guard}), s')
  }

  /** The outcomes of dropping a guard: the last one of a key takes descriptor and lock along. */
  lemma DropCases(proc: Process, s: Side, guard: Guard)
    requires Agrees(proc, s) && guard in proc.guards
    ensures var (proc', s') := Without(proc, s, guard);
            var key := guard.key;
            && key in proc.operations
            && proc'.guards == proc.guards - multiset{guard}
            && if key in proc'.operations then
                 && s' == s && guard.shared
                 && proc'.operations == proc.operations[key := proc'.operations[key]]
                 && proc'.operations[key].crossProcess == proc.operations[key].crossProcess
                 && EntryAgrees(proc', s', key)
               else
                 && proc'.operations == proc.operations - {key}
                 && s'.records == s.records - {key}
                 && proc.operations[key].crossProcess.Some?
                 && s'.files == s.files - {proc.operations[key].crossProcess.value}
                 && proc.operations[key].crossProcess.value in s.files
                 && s.files[proc.operations[key].crossProcess.value] == key
                 && proc'.guards[Guard(key, true)] == 0 && proc'.guards[Guard(key, false)] == 0
  {
    assert EntryAgrees(proc, s, guard.key);
  }

  lemma DropKeepsOthers(proc: Process, s: Side, guard: Guard, other: Key)
    requires Agrees(proc, s) && guard in proc.guards
    requires other in Without(proc, s, guard).0.operations
    ensures EntryAgrees(Without(proc, s, guard).0, Without(proc, s, guard).1, other)
  {
    DropCases(proc, s, guard);
    hide EntryAgrees, Without;
    var (proc', s') := Without(proc, s, guard);
    if other != guard.key {
      EntryFrame(proc, s, proc', s', other);
    }
  }

  lemma DropKeepsGuardsListed(proc: Process, s: Side, guard: Guard, g: Guard)
    requires Agrees(proc, s) && guard in proc.guards
    requires g in Without(proc, s, guard).0.guards
    ensures g.key in Without(proc, s, guard).0.operations
  {
    DropCases(proc, s, guard);
    hide EntryAgrees, Without;
    assert g in proc.guards && g.key in proc.operations;
    assert g == Guard(g.key, g.shared);
  }

  lemma DropKeepsFilesListed(proc: Process, s: Side, guard: Guard, fd: Fd)
    requires Agrees(proc, s) && guard in proc.guards && proc.launcher
    requires fd in Without(proc, s, guard).1.files
    ensures var (proc', s') := Without(proc, s, guard);
            s'.files[fd] in proc'.operations && proc'.operations[s'.files[fd]].crossProcess == Some(fd)
  {
    DropCases(proc, s, guard);
    hide EntryAgrees, Without;
    assert fd in s.files;
  }

  lemma DropKeepsRecordsListed(proc: Process, s: Side, guard: Guard, key: Key)
    requires Agrees(proc, s) && guard in proc.guards
    requires key in Without(proc, s, guard).1.records
    ensures key in Without(proc, s, guard).0.operations
  {
    DropCases(proc, s, guard);
    hide EntryAgrees, Without;
  }

  lemma DropKeepsLauncher(proc: Process, s: Side, guard: Guard)
    requires Agrees(proc, s) && guard in proc.guards
    ensures Without(proc, s, guard).0.launcher == proc.launcher
    ensures !proc.launcher ==> Without(proc, s, guard).0.operations == map[]
  {
  }

  lemma DropLeavesNothingElse(proc: Process, s: Side, guard: Guard)
    requires Agrees(proc, s) && guard in proc.guards
    ensures NothingElse(Without(proc, s, guard).0, Without(proc, s, guard).1)
  {
    hide Agrees, Without, EntryAgrees;
    DropKeepsLauncher(proc, s, guard);
    var (proc', s') := Without(proc, s, guard);
    forall g | g in proc'.guards
      ensures g.key in proc'.operations
    {
      DropKeepsGuardsListed(proc, s, guard, g);
    }
    forall key | key in s'.records
      ensures key in proc'.operations
    {
      DropKeepsRecordsListed(proc, s, guard, key);
    }
    forall fd | fd in s'.files && proc.launcher
      ensures s'.files[fd] in proc'.operations && proc'.operations[s'.files[fd]].crossProcess == Some(fd)
    {
      DropKeepsFilesListed(proc, s, guard, fd);
    }
  }

  lemma DropAgrees(proc: Process, s: Side, guard: Guard)
    requires Agrees(proc, s) && guard in proc.guards
    ensures Agrees(Without(proc, s, guard).0, Without(proc, s, guard).1)
    ensures Without(proc, s, guard).1.records in {s.records, s.records - {guard.key}}
  {
    hide EntryAgrees, Without, NothingElse;
    DropCases(proc, s, guard);
    DropLeavesNothingElse(proc, s, guard);
    var (proc', s') := Without(proc, s, guard);
    forall other | other in proc'.operations
      ensures EntryAgrees(proc', s', other)
    {
      DropKeepsOthers(proc, s, guard, other);
    }
  }

  /** The kernel stays compatible when one side keeps or loses locks, or gains a granted one. */
  lemma CompatibleAfter(k: Kernel, p: Pid, s: Side, key: Key, mode: Mode)
    requires Compatible(k)
    requires forall x :: x in s.records ==>
               (p in k && x in k[p].records && s.records[x] == k[p].records[x])
               || (x == key && s.records[x] == mode && !Contended(k, p, key, mode))
    ensures Compatible(k[p := s])
  {
  }

  lemma PutKeepsInv(w: World, p: Pid, proc: Process, s: Side)
    requires Inv(w) && Agrees(proc, s) && Compatible(w.kernel[p := s])
    ensures Inv(Put(w, p, proc, s))
  {
  }

  lemma AcquireKeepsInv(w: World, p: Pid, key: Key, shared: bool, answer: Answer)
    requires Inv(w) && Enabled(w, Acquire(p, key, shared, answer))
    ensures Inv(Attempt(w, p, key, shared, answer).0)
  {
    hide AcquireWithMode, Agrees, Compatible, Contended;
    var (w', r) := Attempt(w, p, key, shared, answer);
    var proc, s, mode := w.processes[p], w.kernel[p], ModeOf(shared);
    FailedAcquireChangesNothing(w, p, key, shared, answer);
    AcquireCases(proc, s, key, shared, answer, Contended(w.kernel, p, key, mode));
    if r.Ok? {
      if key in proc.operations {
        ReaderJoins(proc, s, key);
        CompatibleAfter(w.kernel, p, w'.kernel[p], key, mode);
      } else {
        FirstGuard(proc, s, key, shared, answer.fd);
        CompatibleAfter(w.kernel, p, w'.kernel[p], key, mode);
      }
      PutKeepsInv(w, p, w'.processes[p], w'.kernel[p]);
    }
  }

  lemma DropKeepsInv(w: World, p: Pid, guard: Guard)
    requires Inv(w) && Enabled(w, Drop(p, guard))
    ensures Inv(Apply(w, Drop(p, guard)))
  {
    hide Agrees, Compatible, Contended, DropGuard;
    DropAgrees(w.processes[p], w.kernel[p], guard);
    var (proc', s') := Without(w.processes[p], w.kernel[p], guard);
    CompatibleAfter(w.kernel, p, s', guard.key, Shared);
    PutKeepsInv(w, p, proc', s');
  }

  lemma NewProcessKeepsInv(w: World, p: Pid, launcher: bool, files: map<Fd, Key>)
    requires Inv(w) && (launcher ==> files == map[])
    ensures Inv(Put(w, p, Process(map[], multiset{}, launcher), Side(files, map[])))
  {
    var s := Side(files, map[]);
    CompatibleAfter(w.kernel, p, s, Key("", ""), Shared);
    assert Agrees(Process(map[], multiset{}, launcher), s);
    hide Agrees, Compatible;
    PutKeepsInv(w, p, Process(map[], multiset{}, launcher), s);
  }

  lemma DeathKeepsInv(w: World, p: Pid)
    requires Inv(w)
    ensures Inv(World(w.processes - {p}, w.kernel - {p}))
  {
    hide Agrees;
  }

  /** Every step of every process keeps the invariant. */
  lemma StepKeepsInv(w: World, step: Step)
    requires Inv(w) && Enabled(w, step)
    ensures Inv(Apply(w, step))
  {
    hide Inv, AcquireWithMode, DropGuard;
    match step
    case Start(p) => NewProcessKeepsInv(w, p, true, map[]);
    case Acquire(p, key, shared, answer) => AcquireKeepsInv(w, p, key, shared, answer);
    case Drop(p, guard) => DropKeepsInv(w, p, guard);
    case Fork(p, child) => NewProcessKeepsInv(w, child, false, w.kernel[p].files);
    case Die(p) => DeathKeepsInv(w, p);
  }

  lemma {:induction false} RunKeepsInv(w: World, steps: seq<Step>, w': World)
    requires Inv(w) && IsRun(w, steps, w')
    ensures Inv(w')
    decreases |steps|
  {
    if steps != [] {
      StepKeepsInv(w, steps[0]);
      RunKeepsInv(Apply(w, steps[0]), steps[1..], w');
    }
  }

  // ---------------------------------------------------------------- the promises

  /** How many live guards `p` has on `key` in the given mode. */
  ghost function Live(w: World, p: Pid, key: Key, shared: bool): (n: nat)
  {
    if p in w.processes then w.processes[p].guards[Guard(key, shared)] else 0
  }

  /** In every run an exclusive guard is the only guard of its key, in any process. */
  lemma ExclusiveIsAlone(steps: seq<Step>, w: World, p: Pid, q: Pid, key: Key, shared: bool)
    requires IsRun(INITIAL, steps, w)
    requires Live(w, p, key, false) > 0 && Live(w, q, key, shared) > 0
    ensures p == q && !shared && Live(w, p, key, false) == 1
  {
    RunKeepsInv(INITIAL, steps, w);
    assert Guard(key, false) in w.processes[p].guards && Guard(key, shared) in w.processes[q].guards;
    assert EntryAgrees(w.processes[p], w.kernel[p], key);
    assert EntryAgrees(w.processes[q], w.kernel[q], key);
  }

  /** In every run a registry lists exactly the keys with live guards, with their exact counts. */
  lemma RegistryCountsLiveGuards(steps: seq<Step>, w: World, p: Pid, key: Key)
    requires IsRun(INITIAL, steps, w) && p in w.processes
    ensures p in w.kernel
    ensures var ops := w.processes[p].operations;
            var readers, writers := Live(w, p, key, true), Live(w, p, key, false);
            && (key in ops <==> readers + writers > 0)
            && (key in ops ==> ops[key].readers == readers && ops[key].writer == (writers == 1) && writers <= 1)
            && (key in w.kernel[p].records <==> readers + writers > 0)
            && (key in w.kernel[p].records ==> w.kernel[p].records[key] == ModeOf(readers > 0))
  {
    RunKeepsInv(INITIAL, steps, w);
    assert Agrees(w.processes[p], w.kernel[p]);
    if key in w.processes[p].operations {
      assert EntryAgrees(w.processes[p], w.kernel[p], key);
    } else {
      GuardCounts(w.processes[p], w.kernel[p], key);
    }
  }

  /** Some process has a live guard that excludes a new guard of the given mode. */
  ghost predicate Excluded(w: World, key: Key, shared: bool)
  {
    exists p, s :: Live(w, p, key, s) > 0 && !(shared && s)
  }

  lemma ExcludedByEntry(w: World, p: Pid, key: Key)
    requires Inv(w) && p in w.processes && key in w.processes[p].operations
    ensures var e := w.processes[p].operations[key];
            && (e.writer <==> Live(w, p, key, false) > 0)
            && (!e.writer <==> Live(w, p, key, true) > 0)
            && key in w.kernel[p].records && w.kernel[p].records[key] == ModeOf(!e.writer)
  {
    assert EntryAgrees(w.processes[p], w.kernel[p], key);
  }

  /**
   In every run an acquisition that the system lets through succeeds exactly when no live guard
   anywhere excludes it: dropped guards and dead or forked processes never block.
   */
  lemma GrantedExactlyWhenFree(steps: seq<Step>, w: World, p: Pid, key: Key, shared: bool, answer: Answer)
    requires IsRun(INITIAL, steps, w)
    requires Enabled(w, Acquire(p, key, shared, answer)) && answer.Works?
    ensures Attempt(w, p, key, shared, answer).1
            == if Excluded(w, key, shared) then Err(Busy) else Ok(Guard(key, shared))
  {
    RunKeepsInv(INITIAL, steps, w);
    hide AcquireWithMode, Agrees, Compatible, Excluded, Contended;
    AcquireCases(w.processes[p], w.kernel[p], key, shared, answer, Contended(w.kernel, p, key, ModeOf(shared)));
    BlockedIsExcluded(w, p, key, shared);
  }

  /** The two tests of an acquisition together find every excluding guard, and only those. */
  lemma BlockedIsExcluded(w: World, p: Pid, key: Key, shared: bool)
    requires Inv(w) && p in w.processes
    ensures var ops := w.processes[p].operations;
            Excluded(w, key, shared) <==>
              if key in ops then !shared || ops[key].writer else Contended(w.kernel, p, key, ModeOf(shared))
  {
    hide Agrees;
    var ops := w.processes[p].operations;
    if key in ops {
      ExcludedByEntry(w, p, key);
      if shared && !ops[key].writer {
        forall q, s | Live(w, q, key, s) > 0
          ensures s
        {
          LiveHasEntry(w, q, key, s);
          ExcludedByEntry(w, q, key);
        }
      }
    } else {
      if Excluded(w, key, shared) {
        var q, s :| Live(w, q, key, s) > 0 && !(shared && s);
        LiveHasEntry(w, q, key, s);
        ExcludedByEntry(w, q, key);
      }
      if Contended(w.kernel, p, key, ModeOf(shared)) {
        var q :| q in w.kernel && q != p && key in w.kernel[q].records
                 && (ModeOf(shared) == Exclusive || w.kernel[q].records[key] == Exclusive);
        RecordHasEntry(w, q, key);
        ExcludedByEntry(w, q, key);
        assert Live(w, q, key, !w.processes[q].operations[key].writer) > 0;
      }
    }
  }

  lemma LiveHasEntry(w: World, p: Pid, key: Key, shared: bool)
    requires Inv(w) && Live(w, p, key, shared) > 0
    ensures p in w.processes && key in w.processes[p].operations
  {
    assert Guard(key, shared) in w.processes[p].guards;
    assert Agrees(w.processes[p], w.kernel[p]);
  }

  lemma RecordHasEntry(w: World, p: Pid, key: Key)
    requires Inv(w) && p in w.kernel && key in w.kernel[p].records
    ensures p in w.processes && key in w.processes[p].operations
  {
    assert Agrees(w.processes[p], w.kernel[p]);
  }
}
