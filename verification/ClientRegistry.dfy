/**
 The registry of game clients (src-tauri/src/state/game_process.rs).

 A launch reserves a generation; the reservation may be copied and used at any later time.
 The state is a value with one function per operation; the class changes it in place, and the
 last part follows arbitrary runs of operations and guard drops.
 */
module ClientRegistry {
  import opened Basics

  datatype Identity = Identity(pid: nat, startTime: nat)

  datatype Metadata = Metadata(clientId: string, serverId: string, serverName: string)

  /** What a running client holds beyond its identity; `memory` is the lease of the last handoff. */
  datatype Runtime = Runtime(planId: string, observationId: Option<string>, memory: Option<string>)

  datatype Client =
    | Launching(metadata: Metadata, controller: Option<Identity>, stopRequested: bool)
    | Running(metadata: Metadata, identity: Identity, controller: Option<Identity>, runtime: Runtime,
              stopRequested: bool)

  type Generation = nat

  type Clients = map<Generation, Client>

  datatype Refusal =
    | Restarting | AnotherLaunching | IdInUse | IdentityTaken | StaleReservation | Cancelled
    | AlreadyRunning | ClientsOpen | NoSuchClient

  datatype StopRequest = StopRequest(identities: seq<Identity>, wasOnlyClient: bool)

  datatype Finished = Finished(metadata: Metadata, stopRequested: bool, remaining: nat)

  function Controllers(c: Client): (s: seq<Identity>)
  {
    if c.controller.Some? then [c.controller.value] else []
  }

  /** Every process the client stands for, in the order a stop request reports them. */
  function Identities(c: Client): (s: seq<Identity>)
  {
    match c
    case Launching(_, _, _) => Controllers(c)
    case Running(_, id, controller, _, _) =>
      [id] + if controller != Some(id) then Controllers(c) else []
  }

  /** A process of the client: the game it runs as, or the controller that started it. */
  ghost predicate Stands(c: Client, i: Identity)
  {
    (c.Running? && i == c.identity) || c.controller == Some(i)
  }

  /** The list names every process of the client, once, the game before its controller. */
  lemma IdentitiesAreExact(c: Client)
    ensures forall i :: i in Identities(c) <==> Stands(c, i)
    ensures forall j, k :: 0 <= j < k < |Identities(c)| ==> Identities(c)[j] != Identities(c)[k]
    ensures c.Running? ==> Identities(c) != [] && Identities(c)[0] == c.identity
  {
  }

  /** The list a stop request returns for a client. */
  ghost predicate StoppedAs(c: Client, identities: seq<Identity>)
  {
    && (forall i :: i in identities <==> Stands(c, i))
    && (forall j, k :: 0 <= j < k < |identities| ==> identities[j] != identities[k])
    && (c.Running? ==> identities != [] && identities[0] == c.identity)
  }

  /** The same client, asked to stop. */
  ghost predicate Marked(c: Client, c': Client)
  {
    && c'.stopRequested && c'.metadata == c.metadata && c'.controller == c.controller
    && (c'.Running? <==> c.Running?)
    && (c.Running? ==> c'.identity == c.identity && c'.runtime == c.runtime)
  }

  lemma StopMarks(c: Client)
    ensures Marked(c, Stop(c)) && forall c' :: Marked(c, c') ==> c' == Stop(c)
  {
  }

  function Stop(c: Client): (c': Client)
  {
    c.(stopRequested := true)
  }

  // ---------------------------------------------------------------- operations on the state

  datatype Registry = Registry(clients: Clients, closed: bool, nextGeneration: Generation)

  const EMPTY := Registry(map[], false, 1)

  function BeginLaunch(r: Registry, m: Metadata): (x: (Registry, Result<Generation, Refusal>))
  {
    if r.closed then (r, Err(Restarting))
    else if exists g :: g in r.clients && r.clients[g].Launching? then (r, Err(AnotherLaunching))
    else if exists g :: g in r.clients && r.clients[g].metadata.clientId == m.clientId then (r, Err(IdInUse))
    else
      (r.(clients := r.clients[r.nextGeneration := Launching(m, None, false)], nextGeneration := r.nextGeneration + 1),
       Ok(r.nextGeneration))
  }

  /** Another client already runs as `id`. */
  predicate Taken(clients: Clients, g: Generation, id: Identity)
  {
    exists other :: other in clients && other != g && clients[other].Running? && clients[other].identity == id
  }

  function MarkRunning(r: Registry, g: Generation, id: Identity, runtime: Runtime): (x: (Registry, Result<Client, Refusal>))
  {
    if Taken(r.clients, g, id) then (r, Err(IdentityTaken))
    else if g !in r.clients then (r, Err(StaleReservation))
    else
      match r.clients[g]
      case Running(_, _, _, _, _) => (r, Err(AlreadyRunning))
      case Launching(m, controller, stop) =>
        if stop then (r, Err(Cancelled))
        else
          var c := Running(m, id, controller, runtime, false);
          (r.(clients := r.clients[g := c]), Ok(c))
  }

  function MarkController(r: Registry, g: Generation, id: Identity): (x: (Registry, Result<(), Refusal>))
  {
    if g !in r.clients then (r, Err(StaleReservation))
    else
      match r.clients[g]
      case Running(_, _, _, _, _) => (r, Err(AlreadyRunning))
      case Launching(m, _, stop) =>
        if stop then (r, Err(Cancelled))
        else (r.(clients := r.clients[g := Launching(m, Some(id), false)]), Ok(()))
  }

  function CancelLaunch(r: Registry, g: Generation): (r': Registry)
  {
    if g in r.clients && r.clients[g].Launching? then r.(clients := r.clients - {g}) else r
  }

  function CloseAdmission(r: Registry): (x: (Registry, Result<(), Refusal>))
  {
    if r.clients != map[] then (r, Err(ClientsOpen))
    else if r.closed then (r, Err(Restarting))
    else (r.(closed := true), Ok(()))
  }

  function ReopenAdmission(r: Registry): (r': Registry)
  {
    r.(closed := false)
  }

  /** The stop request for the client that the search by client id found under `g`. */
  function StopOne(r: Registry, g: Generation): (x: (Registry, StopRequest))
    requires g in r.clients
  {
    (r.(clients := r.clients[g := Stop(r.clients[g])]),
     StopRequest(Identities(r.clients[g]), |r.clients| == 1))
  }

  function StopAll(r: Registry): (r': Registry)
  {
    r.(clients := map g | g in r.clients :: Stop(r.clients[g]))
  }

  function AllIdentities(clients: Clients): (s: set<Identity>)
  {
    set g, id | g in clients && id in Identities(clients[g]) :: id
  }

  function ReplaceRunning(r: Registry, g: Generation, expected: Identity, replacement: Identity, lease: string)
    : (x: (Registry, bool))
  {
    if exists other :: other in r.clients && other != g
                       && (r.clients[other].Launching? || r.clients[other].identity == replacement) then (r, false)
    else if g !in r.clients then (r, false)
    else
      match r.clients[g]
      case Launching(_, _, _) => (r, false)
      case Running(m, id, controller, runtime, stop) =>
        if stop || id != expected then (r, false)
        else
          (r.(clients := r.clients[g := Running(m, replacement, controller, runtime.(memory := Some(lease)), false)]), true)
  }

  function Finish(r: Registry, g: Generation): (x: (Registry, Option<Finished>))
  {
    if g in r.clients && r.clients[g].Running? then
      var c := r.clients[g];
      var r' := r.(clients := r.clients - {g});
      (r', Some(Finished(c.metadata, c.stopRequested, |r'.clients|)))
    else (r, None)
  }

  lemma AllIdentitiesAreExact(clients: Clients)
    ensures forall i :: i in AllIdentities(clients) <==> exists g :: g in clients && Stands(clients[g], i)
  {
    forall g | g in clients
      ensures forall i :: i in Identities(clients[g]) <==> Stands(clients[g], i)
    {
      IdentitiesAreExact(clients[g]);
    }
    hide Identities, Stands;
  }

  // ---------------------------------------------------------------- the handle

  /** The loop of request_stop_all when the clients in `todo` are still to come. */
  ghost function StoppedExcept(clients: map<Generation, Client>, todo: set<Generation>): map<Generation, Client>
  {
    map g | g in clients :: if g in todo then clients[g] else Stop(clients[g])
  }

  ghost function IdentitiesExcept(clients: map<Generation, Client>, todo: set<Generation>): set<Identity>
  {
    set g, id | g in clients && g !in todo && id in Identities(clients[g]) :: id
  }

  lemma StopNext(clients: map<Generation, Client>, todo: set<Generation>, g: Generation)
    requires g in todo && todo <= clients.Keys
    ensures var stopped := StoppedExcept(clients, todo);
            && g in stopped && stopped[g] == clients[g]
            && StoppedExcept(clients, todo - {g}) == stopped[g := Stop(clients[g])]
            && IdentitiesExcept(clients, todo - {g}) == IdentitiesExcept(clients, todo) + set id | id in Identities(clients[g])
  {
    hide Identities, Stop;
  }

  lemma NoneStopped(clients: map<Generation, Client>)
    ensures StoppedExcept(clients, clients.Keys) == clients && IdentitiesExcept(clients, clients.Keys) == {}
  {
  }

  lemma AllStopped(r: Registry)
    ensures StopAll(r) == r.(clients := StoppedExcept(r.clients, {}))
    ensures AllIdentities(r.clients) == IdentitiesExcept(r.clients, {})
  {
  }

  class GameProcessHandle {
    var clients: Clients
    var relaunchAdmissionClosed: bool
    var nextGeneration: Generation

    ghost function View(): (r: Registry)
      reads this
    {
      Registry(clients, relaunchAdmissionClosed, nextGeneration)
    }

    constructor ()
      ensures View() == EMPTY
    {
      clients, relaunchAdmissionClosed, nextGeneration := map[], false, 1;
    }

    method Begin(m: Metadata) returns (x: Result<Generation, Refusal>)
      modifies this
      ensures (View(), x) == BeginLaunch(old(View()), m)
    {
      if relaunchAdmissionClosed {
        return Err(Restarting);
      }
      if exists g :: g in clients && clients[g].Launching? {
        return Err(AnotherLaunching);
      }
      if exists g :: g in clients && clients[g].metadata.clientId == m.clientId {
        return Err(IdInUse);
      }
      var generation := nextGeneration;
      nextGeneration := nextGeneration + 1;
      clients := clients[generation := Launching(m, None, false)];
      return Ok(generation);
    }

    method Promote(g: Generation, id: Identity, runtime: Runtime) returns (x: Result<Client, Refusal>)
      modifies this
      ensures (View(), x) == MarkRunning(old(View()), g, id, runtime)
    {
      if Taken(clients, g, id) {
        return Err(IdentityTaken);
      }
      if g !in clients {
        return Err(StaleReservation);
      }
      match clients[g]
      case Running(_, _, _, _, _) => return Err(AlreadyRunning);
      case Launching(m, controller, stop) =>
        if stop {
          return Err(Cancelled);
        }
        var c := Running(m, id, controller, runtime, false);
        clients := clients[g := c];
        return Ok(c);
    }

    method SetController(g: Generation, id: Identity) returns (x: Result<(), Refusal>)
      modifies this
      ensures (View(), x) == MarkController(old(View()), g, id)
    {
      if g !in clients {
        return Err(StaleReservation);
      }
      match clients[g]
      case Running(_, _, _, _, _) => return Err(AlreadyRunning);
      case Launching(m, _, stop) =>
        if stop {
          return Err(Cancelled);
        }
        clients := clients[g := Launching(m, Some(id), false)];
        return Ok(());
    }

    /** Also what dropping a pending launch guard does. */
    method Cancel(g: Generation)
      modifies this
      ensures View() == CancelLaunch(old(View()), g)
    {
      if g in clients && clients[g].Launching? {
        clients := clients - {g};
      }
    }

    method CloseIfIdle() returns (x: Result<(), Refusal>)
      modifies this
      ensures (View(), x) == CloseAdmission(old(View()))
    {
      if clients != map[] {
        return Err(ClientsOpen);
      }
      if relaunchAdmissionClosed {
        return Err(Restarting);
      }
      relaunchAdmissionClosed := true;
      return Ok(());
    }

    /** Dropping the admission guard. */
    method Reopen()
      modifies this
      ensures View() == ReopenAdmission(old(View()))
    {
      relaunchAdmissionClosed := false;
    }

    method RequestStop(clientId: string) returns (x: Result<StopRequest, Refusal>)
      modifies this
      ensures x.Err? ==> x.error == NoSuchClient && View() == old(View())
      ensures x.Err? <==> forall g :: g in old(clients) ==> old(clients)[g].metadata.clientId != clientId
      ensures x.Ok? ==> exists g :: g in old(clients) && old(clients)[g].metadata.clientId == clientId
                                    && (View(), x.value) == StopOne(old(View()), g)
                                    && StoppedAs(old(clients)[g], x.value.identities)
    {
      var wasOnlyClient := |clients| == 1;
      if !exists g :: g in clients && clients[g].metadata.clientId == clientId {
        return Err(NoSuchClient);
      }
      var g :| g in clients && clients[g].metadata.clientId == clientId;
      var identities;
      match clients[g] {
        case Launching(_, controller, _) =>
          identities := if controller.Some? then [controller.value] else [];
        case Running(_, id, controller, _, _) =>
          identities := [id];
          if controller.Some? && controller.value != id {
            identities := identities + [controller.value];
          }
      }
      assert identities == Identities(clients[g]);
      IdentitiesAreExact(clients[g]);
      clients := clients[g := Stop(clients[g])];
      assert (View(), StopRequest(identities, wasOnlyClient)) == StopOne(old(View()), g);
      return Ok(StopRequest(identities, wasOnlyClient));
    }

    method RequestStopAll() returns (identities: set<Identity>)
      modifies this
      ensures View() == StopAll(old(View()))
      ensures identities == AllIdentities(old(clients))
      ensures forall i :: i in identities <==> exists g :: g in old(clients) && Stands(old(clients)[g], i)
    {
      hide Identities, Stop, StoppedExcept, IdentitiesExcept, AllIdentities, StopAll;
      identities := {};
      var todo := clients.Keys;
      NoneStopped(clients);
      while todo != {}
        invariant todo <= old(clients).Keys
        invariant clients == StoppedExcept(old(clients), todo)
        invariant identities == IdentitiesExcept(old(clients), todo)
        invariant relaunchAdmissionClosed == old(relaunchAdmissionClosed) && nextGeneration == old(nextGeneration)
        decreases |todo|
      {
        var g :| g in todo;
        StopNext(old(clients), todo, g);
        identities := identities + set id | id in Identities(clients[g]);
        clients := clients[g := Stop(clients[g])];
        todo := todo - {g};
      }
      AllStopped(old(View()));
      AllIdentitiesAreExact(old(clients));
    }

    method Handoff(g: Generation, expected: Identity, replacement: Identity, lease: string) returns (done: bool)
      modifies this
      ensures (View(), done) == ReplaceRunning(old(View()), g, expected, replacement, lease)
    {
      if exists other :: other in clients && other != g
                         && (clients[other].Launching? || clients[other].identity == replacement) {
        return false;
      }
      if g !in clients {
        return false;
      }
      match clients[g]
      case Launching(_, _, _) => return false;
      case Running(m, id, controller, runtime, stop) =>
        if stop || id != expected {
          return false;
        }
        clients := clients[g := Running(m, replacement, controller, runtime.(memory := Some(lease)), false)];
        return true;
    }

    method FinishClient(g: Generation) returns (x: Option<Finished>)
      modifies this
      ensures (View(), x) == Finish(old(View()), g)
    {
      if g !in clients || !clients[g].Running? {
        return None;
      }
      var c := clients[g];
      clients := clients - {g};
      return Some(Finished(c.metadata, c.stopRequested, |clients|));
    }
  }

  // ---------------------------------------------------------------- runs

  /** The registry and the number of live admission guards. */
  datatype World = World(r: Registry, admissions: nat)

  const START := World(EMPTY, 0)

  datatype Step =
    | DoBegin(m: Metadata)
    | DoMarkRunning(g: Generation, id: Identity, runtime: Runtime)
    | DoMarkController(g: Generation, id: Identity)
    | DoCancel(g: Generation)
    | DoClose
    | DropAdmission
    | DoStop(g: Generation)
    | DoStopAll
    | DoReplace(g: Generation, expected: Identity, replacement: Identity, lease: string)
    | DoFinish(g: Generation)

  ghost predicate Enabled(w: World, s: Step)
  {
    match s
    case DropAdmission => w.admissions > 0
    case DoStop(g) => g in w.r.clients
    case _ => true
  }

  ghost function Apply(w: World, s: Step): (w': World)
    requires Enabled(w, s)
  {
    match s
    case DoBegin(m) => w.(r := BeginLaunch(w.r, m).0)
    case DoMarkRunning(g, id, runtime) => w.(r := MarkRunning(w.r, g, id, runtime).0)
    case DoMarkController(g, id) => w.(r := MarkController(w.r, g, id).0)
    case DoCancel(g) => w.(r := CancelLaunch(w.r, g))
    case DoClose =>
      var (r, x) := CloseAdmission(w.r);
      World(r, if x.Ok? then w.admissions + 1 else w.admissions)
    case DropAdmission => World(ReopenAdmission(w.r), w.admissions - 1)
    case DoStop(g) => w.(r := StopOne(w.r, g).0)
    case DoStopAll => w.(r := StopAll(w.r))
    case DoReplace(g, expected, replacement, lease) => w.(r := ReplaceRunning(w.r, g, expected, replacement, lease).0)
    case DoFinish(g) => w.(r := Finish(w.r, g).0)
  }

  ghost predicate IsRun(w: World, steps: seq<Step>, w': World)
    decreases |steps|
  {
    if steps == [] then w' == w
    else Enabled(w, steps[0]) && IsRun(Apply(w, steps[0]), steps[1..], w')
  }

  /** Two clients never share the same role: one launch at a time, one id, one running identity. */
  ghost predicate Apart(a: Client, b: Client)
  {
    && !(a.Launching? && b.Launching?)
    && a.metadata.clientId != b.metadata.clientId
    && !(a.Running? && b.Running? && a.identity == b.identity)
  }

  ghost predicate Inv(w: World)
  {
    var clients := w.r.clients;
    && (forall g :: g in clients ==> g < w.r.nextGeneration)
    && (forall g, h :: g in clients && h in clients && g != h ==> Apart(clients[g], clients[h]))
    && w.admissions == (if w.r.closed then 1 else 0)
    && (w.r.closed ==> clients == map[])
  }

  // ---------------------------------------------------------------- what every step keeps

  lemma UpdateKeepsInv(w: World, g: Generation, c: Client)
    requires Inv(w) && g in w.r.clients
    requires c.metadata == w.r.clients[g].metadata
    requires c.Launching? ==> w.r.clients[g].Launching?
    requires c.Running? ==> !Taken(w.r.clients, g, c.identity)
    ensures Inv(w.(r := w.r.(clients := w.r.clients[g := c])))
  {
    var clients := w.r.clients;
    forall h | h in clients && h != g
      ensures Apart(c, clients[h]) && Apart(clients[h], c)
    {
      assert Apart(clients[g], clients[h]) && Apart(clients[h], clients[g]);
    }
  }

  lemma RemovalKeepsInv(w: World, g: Generation)
    requires Inv(w)
    ensures Inv(w.(r := w.r.(clients := w.r.clients - {g})))
  {
    hide Apart;
  }

  lemma StopAllKeepsInv(w: World)
    requires Inv(w)
    ensures Inv(w.(r := StopAll(w.r)))
  {
    var clients, clients' := w.r.clients, StopAll(w.r).clients;
    forall g, h | g in clients' && h in clients' && g != h
      ensures Apart(clients'[g], clients'[h])
    {
      assert Apart(clients[g], clients[h]);
    }
  }

  lemma BeginKeepsInv(w: World, m: Metadata)
    requires Inv(w)
    ensures Inv(w.(r := BeginLaunch(w.r, m).0))
  {
    var clients, clients' := w.r.clients, BeginLaunch(w.r, m).0.clients;
    forall g, h | g in clients' && h in clients' && g != h
      ensures Apart(clients'[g], clients'[h])
    {
      if g in clients && h in clients {
        assert Apart(clients[g], clients[h]);
      }
    }
  }

  /** A running client is not taken by anybody else. */
  lemma OwnIdentity(w: World, g: Generation)
    requires Inv(w) && g in w.r.clients && w.r.clients[g].Running?
    ensures !Taken(w.r.clients, g, w.r.clients[g].identity)
  {
    var clients := w.r.clients;
    forall h | h in clients && h != g
      ensures !(clients[h].Running? && clients[h].identity == clients[g].identity)
    {
      assert Apart(clients[h], clients[g]);
    }
  }

  /** Every operation and every guard drop keeps the invariant. */
  lemma StepKeepsInv(w: World, s: Step)
    requires Inv(w) && Enabled(w, s)
    ensures Inv(Apply(w, s))
  {
    var clients := w.r.clients;
    match s
    case DoBegin(m) => BeginKeepsInv(w, m);
    case DoMarkRunning(g, id, runtime) =>
      if g in clients && !Taken(clients, g, id) && clients[g].Launching? {
        UpdateKeepsInv(w, g, Running(clients[g].metadata, id, clients[g].controller, runtime, false));
      }
    case DoMarkController(g, id) =>
      if g in clients && clients[g].Launching? {
        UpdateKeepsInv(w, g, Launching(clients[g].metadata, Some(id), clients[g].stopRequested));
      }
    case DoCancel(g) => RemovalKeepsInv(w, g);
    case DoClose =>
    case DropAdmission =>
    case DoStop(g) =>
      if clients[g].Running? {
        OwnIdentity(w, g);
      }
      UpdateKeepsInv(w, g, Stop(clients[g]));
    case DoStopAll => StopAllKeepsInv(w);
    case DoReplace(g, expected, replacement, lease) =>
      if ReplaceRunning(w.r, g, expected, replacement, lease).1 {
        UpdateKeepsInv(w, g, ReplaceRunning(w.r, g, expected, replacement, lease).0.clients[g]);
      }
    case DoFinish(g) => RemovalKeepsInv(w, g);
  }

  lemma {:induction false} RunKeepsInv(w: World, steps: seq<Step>, w': World)
    requires Inv(w) && IsRun(w, steps, w')
    ensures Inv(w')
    ensures w.r.nextGeneration <= w'.r.nextGeneration
    decreases |steps|
  {
    if steps != [] {
      StepKeepsInv(w, steps[0]);
      NumbersOnlyGrow(w, steps[0]);
      RunKeepsInv(Apply(w, steps[0]), steps[1..], w');
    }
  }

  lemma NumbersOnlyGrow(w: World, s: Step)
    requires Enabled(w, s)
    ensures w.r.nextGeneration <= Apply(w, s).r.nextGeneration
    ensures forall g :: g in Apply(w, s).r.clients ==> g in w.r.clients || g == w.r.nextGeneration
  {
  }

  // ---------------------------------------------------------------- the promises

  /**
   Every reachable registry: one launch at a time, distinct client ids, distinct running
   identities, and admission closed exactly while its one guard lives, and then without clients.
   */
  lemma ReachableRegistry(steps: seq<Step>, w: World)
    requires IsRun(START, steps, w)
    ensures forall g, h :: g in w.r.clients && h in w.r.clients && g != h ==> Apart(w.r.clients[g], w.r.clients[h])
    ensures w.r.closed <==> w.admissions > 0
    ensures w.admissions <= 1
    ensures w.admissions > 0 ==> w.r.clients == map[]
  {
    RunKeepsInv(START, steps, w);
  }

  /** A generation handed out once is never handed out again. */
  lemma GenerationsAreFresh(before: seq<Step>, w: World, m: Metadata, after: seq<Step>, w': World, m': Metadata)
    requires IsRun(START, before, w) && BeginLaunch(w.r, m).1.Ok?
    requires IsRun(Apply(w, DoBegin(m)), after, w') && BeginLaunch(w'.r, m').1.Ok?
    ensures BeginLaunch(w.r, m).1.value < BeginLaunch(w'.r, m').1.value
    ensures BeginLaunch(w'.r, m').1.value !in w'.r.clients
  {
    hide IsRun, Inv, BeginLaunch, Apply;
    StartIsInv();
    RunKeepsInv(START, before, w);
    BeginTakesNext(w, m);
    StepKeepsInv(w, DoBegin(m));
    RunKeepsInv(Apply(w, DoBegin(m)), after, w');
    BeginTakesNext(w', m');
  }

  lemma StartIsInv()
    ensures Inv(START)
  {
  }

  lemma BeginTakesNext(w: World, m: Metadata)
    requires Inv(w) && BeginLaunch(w.r, m).1.Ok?
    ensures Enabled(w, DoBegin(m)) && BeginLaunch(w.r, m).1.value == w.r.nextGeneration
    ensures w.r.nextGeneration !in w.r.clients && w.r.nextGeneration < Apply(w, DoBegin(m)).r.nextGeneration
  {
  }

  /** The reservation an operation works on, if it works on one. */
  ghost function Reservation(s: Step): (g: Option<Generation>)
  {
    match s
    case DoMarkRunning(g, _, _) => Some(g)
    case DoMarkController(g, _) => Some(g)
    case DoCancel(g) => Some(g)
    case DoReplace(g, _, _, _) => Some(g)
    case DoFinish(g) => Some(g)
    case _ => None
  }

  /** A reservation touches no other client, a stale one touches nothing, a pending guard no promoted client. */
  lemma ReservationsAreLocal(w: World, s: Step, h: Generation)
    requires Enabled(w, s) && Reservation(s).Some?
    ensures var g, clients, clients' := Reservation(s).value, w.r.clients, Apply(w, s).r.clients;
            && (h != g ==> (h in clients' <==> h in clients) && (h in clients ==> clients'[h] == clients[h]))
            && (g !in clients ==> Apply(w, s) == w)
            && (s.DoCancel? && g in clients && clients[g].Running? ==> Apply(w, s) == w)
  {
  }

  /** A client with a stop request, or gone. */
  ghost predicate Settled(w: World, g: Generation, c: Client)
  {
    && g < w.r.nextGeneration
    && c.stopRequested
    && (g in w.r.clients ==> w.r.clients[g] == c)
  }

  lemma SettledStep(w: World, s: Step, g: Generation, c: Client)
    requires Inv(w) && Enabled(w, s) && Settled(w, g, c)
    ensures Settled(Apply(w, s), g, c)
  {
    NumbersOnlyGrow(w, s);
  }

  lemma {:induction false} SettledRun(w: World, steps: seq<Step>, w': World, g: Generation, c: Client)
    requires Inv(w) && IsRun(w, steps, w') && Settled(w, g, c)
    ensures Settled(w', g, c)
    decreases |steps|
  {
    if steps != [] {
      SettledStep(w, steps[0], g, c);
      StepKeepsInv(w, steps[0]);
      SettledRun(Apply(w, steps[0]), steps[1..], w', g, c);
    }
  }

  /** Nothing can promote, mark or hand off a settled client. */
  lemma SettledRefuses(w: World, g: Generation, c: Client, id: Identity, runtime: Runtime, expected: Identity, lease: string)
    requires Settled(w, g, c)
    ensures MarkRunning(w.r, g, id, runtime).1.Err?
    ensures MarkController(w.r, g, id).1.Err?
    ensures !ReplaceRunning(w.r, g, expected, id, lease).1
  {
  }

  /**
   After a stop request, over every later run: the client keeps its stop request for as long as
   it exists, its processes are exactly those the request returned, and promotion, controller
   marking and handoff are refused.
   */
  lemma StopIsFinal(before: seq<Step>, w: World, g: Generation, after: seq<Step>, w': World,
                    id: Identity, runtime: Runtime, expected: Identity, lease: string)
    requires IsRun(START, before, w) && g in w.r.clients
    requires IsRun(Apply(w, DoStop(g)), after, w')
    ensures StoppedAs(w.r.clients[g], StopOne(w.r, g).1.identities)
    ensures g in w'.r.clients ==>
              && w'.r.clients[g].stopRequested
              && forall i :: Stands(w'.r.clients[g], i) <==> i in StopOne(w.r, g).1.identities
    ensures MarkRunning(w'.r, g, id, runtime).1.Err?
    ensures MarkController(w'.r, g, id).1.Err?
    ensures !ReplaceRunning(w'.r, g, expected, id, lease).1
  {
    hide IsRun, Inv;
    RunKeepsInv(START, before, w);
    StepKeepsInv(w, DoStop(g));
    var c := Stop(w.r.clients[g]);
    SettledRun(Apply(w, DoStop(g)), after, w', g, c);
    SettledRefuses(w', g, c, id, runtime, expected, lease);
    IdentitiesAreExact(w.r.clients[g]);
    assert forall i :: Stands(c, i) <==> Stands(w.r.clients[g], i);
  }

  /** The same for every client there was when all were asked to stop. */
  lemma StopAllIsFinal(before: seq<Step>, w: World, g: Generation, after: seq<Step>, w': World,
                       id: Identity, runtime: Runtime, expected: Identity, lease: string)
    requires IsRun(START, before, w) && g in w.r.clients
    requires IsRun(Apply(w, DoStopAll), after, w')
    ensures g in w'.r.clients ==>
              && w'.r.clients[g].stopRequested
              && forall i :: Stands(w'.r.clients[g], i) ==> Stands(w.r.clients[g], i) && i in AllIdentities(w.r.clients)
    ensures MarkRunning(w'.r, g, id, runtime).1.Err?
    ensures MarkController(w'.r, g, id).1.Err?
    ensures !ReplaceRunning(w'.r, g, expected, id, lease).1
  {
    hide IsRun, Inv;
    RunKeepsInv(START, before, w);
    StepKeepsInv(w, DoStopAll);
    var c := Stop(w.r.clients[g]);
    SettledRun(Apply(w, DoStopAll), after, w', g, c);
    SettledRefuses(w', g, c, id, runtime, expected, lease);
    AllIdentitiesAreExact(w.r.clients);
    assert forall i :: Stands(c, i) <==> Stands(w.r.clients[g], i);
  }
}
