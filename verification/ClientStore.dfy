/**
 The frontend's view of the client registry (src/features/launcher/launcher.store.ts,
 src/features/launcher/refreshGameClients.ts).

 A census asks the backend for the client list and applies the answer only if it is the newest
 request and the store has not changed meanwhile. Removed ids stay in a list of closed ids.
 */
module ClientStore {
  import opened Basics

  datatype Status = Launching | Running | Stopping

  datatype Snapshot = Snapshot(clientId: string, serverId: string, status: Status, pid: Option<nat>)

  datatype Store = Store(clients: seq<Snapshot>, revision: nat, closedIds: seq<string>)

  const FRESH := Store([], 0, [])

  // ---------------------------------------------------------------- store actions

  /** The snapshots whose id is not listed, in order. */
  function Without(clients: seq<Snapshot>, ids: seq<string>): (r: seq<Snapshot>)
    ensures forall c :: c in r <==> c in clients && c.clientId !in ids
  {
    if clients == [] then []
    else (if clients[0].clientId in ids then [] else [clients[0]]) + Without(clients[1..], ids)
  }

  ghost predicate Ascending(positions: seq<nat>)
  {
    forall j, k :: 0 <= j < k < |positions| ==> positions[j] < positions[k]
  }

  /** `shown` is what stands at these positions, which are those of all snapshots whose id is not listed. */
  ghost predicate ShownAt(clients: seq<Snapshot>, ids: seq<string>, shown: seq<Snapshot>, positions: seq<nat>)
  {
    && |positions| == |shown| && Ascending(positions)
    && (forall k :: 0 <= k < |positions| ==> positions[k] < |clients| && shown[k] == clients[positions[k]])
    && (forall p :: 0 <= p < |clients| ==> (clients[p].clientId !in ids <==> p in positions))
  }

  /** Exactly the snapshots whose id is not listed, as often and in the order they are given. */
  ghost predicate Shows(clients: seq<Snapshot>, ids: seq<string>, shown: seq<Snapshot>)
  {
    exists positions :: ShownAt(clients, ids, shown, positions)
  }

  lemma {:induction false} WithoutShows(clients: seq<Snapshot>, ids: seq<string>)
    ensures Shows(clients, ids, Without(clients, ids))
  {
    var positions := Positions(clients, ids);
  }

  lemma {:induction false} Positions(clients: seq<Snapshot>, ids: seq<string>) returns (positions: seq<nat>)
    ensures ShownAt(clients, ids, Without(clients, ids), positions)
  {
    if clients == [] {
      positions := [];
    } else {
      var rest := Positions(clients[1..], ids);
      var moved := seq(|rest|, k requires 0 <= k < |rest| => rest[k] + 1);
      hide Without;
      MovedPositions(rest, moved);
      WithoutCons(clients, ids);
      MovedShown(clients, ids, Without(clients[1..], ids), rest, moved);
      positions := if clients[0].clientId in ids then moved else [0] + moved;
      if clients[0].clientId !in ids {
        OneMoreShown(clients, ids, Without(clients[1..], ids), moved);
      }
    }
  }

  lemma WithoutCons(clients: seq<Snapshot>, ids: seq<string>)
    requires clients != []
    ensures Without(clients, ids) ==
            if clients[0].clientId in ids then Without(clients[1..], ids) else [clients[0]] + Without(clients[1..], ids)
  {
  }

  /** The same, but for the first snapshot. */
  ghost predicate TailShownAt(clients: seq<Snapshot>, ids: seq<string>, shown: seq<Snapshot>, positions: seq<nat>)
  {
    && |positions| == |shown| && Ascending(positions) && 0 !in positions
    && (forall k :: 0 <= k < |positions| ==> positions[k] < |clients| && shown[k] == clients[positions[k]])
    && (forall p :: 1 <= p < |clients| ==> (clients[p].clientId !in ids <==> p in positions))
  }

  lemma MovedShown(clients: seq<Snapshot>, ids: seq<string>, shown: seq<Snapshot>, rest: seq<nat>, moved: seq<nat>)
    requires clients != [] && ShownAt(clients[1..], ids, shown, rest)
    requires |moved| == |rest| && forall k :: 0 <= k < |rest| ==> moved[k] == rest[k] + 1
    ensures TailShownAt(clients, ids, shown, moved)
    ensures clients[0].clientId in ids ==> ShownAt(clients, ids, shown, moved)
  {
    MovedPositions(rest, moved);
    hide Ascending;
    forall k | 0 <= k < |moved|
      ensures moved[k] < |clients| && shown[k] == clients[moved[k]]
    {
      assert rest[k] < |clients[1..]| && clients[1..][rest[k]] == clients[moved[k]];
    }
    forall p | 1 <= p < |clients|
      ensures clients[p].clientId !in ids <==> p in moved
    {
      assert clients[1..][p - 1] == clients[p];
      assert p - 1 in rest <==> (p - 1) + 1 in moved;
    }
  }

  lemma OneMoreShown(clients: seq<Snapshot>, ids: seq<string>, shown: seq<Snapshot>, moved: seq<nat>)
    requires clients != [] && clients[0].clientId !in ids && TailShownAt(clients, ids, shown, moved)
    ensures ShownAt(clients, ids, [clients[0]] + shown, [0] + moved)
  {
    var positions, all := [0] + moved, [clients[0]] + shown;
    forall k | 0 <= k < |positions|
      ensures positions[k] < |clients| && all[k] == clients[positions[k]]
      ensures k > 0 ==> positions[k] == moved[k - 1] && positions[k] > 0
    {
      if k > 0 {
        assert moved[k - 1] in moved;
      }
    }
    assert Ascending(positions);
    assert positions[0] == 0;
    forall p | 0 <= p < |clients|
      ensures clients[p].clientId !in ids <==> p in positions
    {
      assert p > 0 ==> (p in positions <==> p in moved);
    }
  }

  lemma MovedPositions(rest: seq<nat>, moved: seq<nat>)
    requires |moved| == |rest| && forall k :: 0 <= k < |rest| ==> moved[k] == rest[k] + 1
    ensures forall p: nat :: p in rest <==> p + 1 in moved
    ensures 0 !in moved
    ensures Ascending(rest) ==> Ascending(moved)
  {
    forall p: nat | p in rest
      ensures p + 1 in moved
    {
      var k :| 0 <= k < |rest| && rest[k] == p;
      assert moved[k] == p + 1;
    }
  }

  function SetClients(s: Store, clients: seq<Snapshot>): (s': Store)
  {
    s.(clients := Without(clients, s.closedIds), revision := s.revision + 1)
  }

  /** The position of the first snapshot with the id, or the length. */
  function ClientIndex(clients: seq<Snapshot>, id: string): (i: nat)
    ensures i <= |clients|
    ensures i < |clients| ==> clients[i].clientId == id
    ensures forall j :: 0 <= j < i ==> clients[j].clientId != id
  {
    if clients == [] || clients[0].clientId == id then 0 else 1 + ClientIndex(clients[1..], id)
  }

  function Upsert(s: Store, client: Snapshot): (s': Store)
  {
    if client.clientId in s.closedIds then s
    else
      var i := ClientIndex(s.clients, client.clientId);
      var clients := if i == |s.clients| then s.clients + [client] else s.clients[i := client];
      s.(clients := clients, revision := s.revision + 1)
  }

  function Remove(s: Store, id: string): (s': Store)
  {
    Store(Without(s.clients, [id]), s.revision + 1,
          if id in s.closedIds then s.closedIds else s.closedIds + [id])
  }

  function SetStatus(s: Store, id: string, status: Status): (s': Store)
  {
    s.(revision := s.revision + 1,
       clients := seq(|s.clients|, i requires 0 <= i < |s.clients| =>
                    if s.clients[i].clientId == id then s.clients[i].(status := status) else s.clients[i]))
  }

  // ---------------------------------------------------------------- the store and the census in place

  class LauncherStore {
    var clients: seq<Snapshot>
    var clientsRevision: nat
    var closedClientIds: seq<string>

    ghost function View(): (s: Store)
      reads this
    {
      Store(clients, clientsRevision, closedClientIds)
    }

    constructor ()
      ensures View() == FRESH
    {
      clients, clientsRevision, closedClientIds := [], 0, [];
    }

    method Set(list: seq<Snapshot>)
      modifies this
      ensures View() == SetClients(old(View()), list)
      ensures Shows(list, closedClientIds, clients) && closedClientIds == old(closedClientIds)
      ensures clientsRevision == old(clientsRevision) + 1
    {
      WithoutShows(list, closedClientIds);
      clients := Without(list, closedClientIds);
      clientsRevision := clientsRevision + 1;
    }

    method UpsertClient(client: Snapshot)
      modifies this
      ensures View() == Upsert(old(View()), client)
    {
      if client.clientId in closedClientIds {
        return;
      }
      var index := ClientIndex(clients, client.clientId);
      if index == |clients| {
        clients := clients + [client];
      } else {
        clients := clients[index := client];
      }
      clientsRevision := clientsRevision + 1;
    }

    method RemoveClient(id: string)
      modifies this
      ensures View() == Remove(old(View()), id)
    {
      clients := Without(clients, [id]);
      clientsRevision := clientsRevision + 1;
      if id !in closedClientIds {
        closedClientIds := closedClientIds + [id];
      }
    }

    method SetClientStatus(id: string, status: Status)
      modifies this
      ensures View() == SetStatus(old(View()), id, status)
    {
      clientsRevision := clientsRevision + 1;
      var updated: seq<Snapshot> := [];
      for i := 0 to |clients|
        invariant |updated| == i
        invariant forall j :: 0 <= j < i ==>
                    updated[j] == if clients[j].clientId == id then clients[j].(status := status) else clients[j]
        invariant clients == old(clients) && closedClientIds == old(closedClientIds)
        invariant clientsRevision == old(clientsRevision) + 1
      {
        updated := updated + [if clients[i].clientId == id then clients[i].(status := status) else clients[i]];
      }
      clients := updated;
      assert clients == SetStatus(old(View()), id, status).clients;
    }
  }

  /** One waiting request of the census. */
  datatype Ticket = Ticket(generation: nat, revision: nat)

  /** refreshGameClients cut at its only suspension point: what runs before and after the answer. */
  class Census {
    const store: LauncherStore
    var refreshGeneration: nat

    constructor (store: LauncherStore)
      ensures this.store == store && refreshGeneration == 0
    {
      this.store := store;
      refreshGeneration := 0;
    }

    method Ask() returns (t: Ticket)
      modifies this
      ensures refreshGeneration == old(refreshGeneration) + 1
      ensures t == Ticket(refreshGeneration, store.clientsRevision)
    {
      refreshGeneration := refreshGeneration + 1;
      t := Ticket(refreshGeneration, store.clientsRevision);
    }

    method Answer(t: Ticket, list: seq<Snapshot>)
      modifies store
      ensures store.View() == if t.generation == refreshGeneration && t.revision == old(store.clientsRevision)
                              then SetClients(old(store.View()), list) else old(store.View())
      ensures t.generation == refreshGeneration && t.revision == old(store.clientsRevision) ==>
                Shows(list, store.closedClientIds, store.clients)
    {
      if t.generation == refreshGeneration && t.revision == store.clientsRevision {
        store.Set(list);
      }
    }
  }

  // ---------------------------------------------------------------- runs

  /** The store, the request counter, and each waiting request with the store it saw when it asked. */
  datatype World = World(store: Store, generation: nat, waiting: map<nat, Store>)

  const START := World(FRESH, 0, map[])

  datatype Step =
    | DoSet(clients: seq<Snapshot>)
    | DoUpsert(client: Snapshot)
    | DoRemove(id: string)
    | DoSetStatus(id: string, status: Status)
    | DoAsk
    | DoAnswer(generation: nat, clients: seq<Snapshot>)

  ghost predicate Enabled(w: World, s: Step)
  {
    s.DoAnswer? ==> s.generation in w.waiting
  }

  /** The test made when an answer arrives: the newest request, and no revision since. */
  ghost predicate Accepted(w: World, generation: nat)
    requires generation in w.waiting
  {
    generation == w.generation && w.waiting[generation].revision == w.store.revision
  }

  ghost function Apply(w: World, s: Step): (w': World)
    requires Enabled(w, s)
  {
    match s
    case DoSet(clients) => w.(store := SetClients(w.store, clients))
    case DoUpsert(client) => w.(store := Upsert(w.store, client))
    case DoRemove(id) => w.(store := Remove(w.store, id))
    case DoSetStatus(id, status) => w.(store := SetStatus(w.store, id, status))
    case DoAsk => World(w.store, w.generation + 1, w.waiting[w.generation + 1 := w.store])
    case DoAnswer(g, clients) =>
      w.(store := if Accepted(w, g) then SetClients(w.store, clients) else w.store, waiting := w.waiting - {g})
  }

  ghost predicate IsRun(w: World, steps: seq<Step>, w': World)
    decreases |steps|
  {
    if steps == [] then w' == w
    else Enabled(w, steps[0]) && IsRun(Apply(w, steps[0]), steps[1..], w')
  }

  /** No closed id is shown; requests are numbered; an unchanged revision means an unchanged store. */
  ghost predicate Inv(w: World)
  {
    && (forall c :: c in w.store.clients ==> c.clientId !in w.store.closedIds)
    && (forall g :: g in w.waiting ==> g <= w.generation && w.waiting[g].revision <= w.store.revision)
    && (forall g :: g in w.waiting && w.waiting[g].revision == w.store.revision ==> w.waiting[g] == w.store)
  }

  /** A store action changes nothing or counts one revision; ids only join the closed list. */
  lemma ActionCounts(w: World, s: Step)
    requires Enabled(w, s)
    ensures Apply(w, s).store == w.store || Apply(w, s).store.revision == w.store.revision + 1
    ensures w.store.closedIds <= Apply(w, s).store.closedIds
  {
  }

  lemma StepKeepsInv(w: World, s: Step)
    requires Inv(w) && Enabled(w, s)
    ensures Inv(Apply(w, s))
  {
    ActionCounts(w, s);
    var store' := Apply(w, s).store;
    forall c | c in store'.clients
      ensures c.clientId !in store'.closedIds
    {
      if s.DoSetStatus? {
        var i :| 0 <= i < |store'.clients| && store'.clients[i] == c;
        assert w.store.clients[i] in w.store.clients;
      }
    }
  }

  lemma {:induction false} RunKeepsInv(w: World, steps: seq<Step>, w': World)
    requires Inv(w) && IsRun(w, steps, w')
    ensures Inv(w')
    ensures w.store.closedIds <= w'.store.closedIds
    decreases |steps|
  {
    if steps != [] {
      StepKeepsInv(w, steps[0]);
      ActionCounts(w, steps[0]);
      RunKeepsInv(Apply(w, steps[0]), steps[1..], w');
    }
  }

  /** Over every run, a client once removed never reappears. */
  lemma RemovedStaysRemoved(before: seq<Step>, w: World, id: string, after: seq<Step>, w': World)
    requires IsRun(START, before, w)
    requires IsRun(Apply(w, DoRemove(id)), after, w')
    ensures forall c :: c in w'.store.clients ==> c.clientId != id
  {
    RunKeepsInv(START, before, w);
    StepKeepsInv(w, DoRemove(id));
    RunKeepsInv(Apply(w, DoRemove(id)), after, w');
    assert id in Apply(w, DoRemove(id)).store.closedIds;
  }

  /**
   Over every run, an answer is applied exactly when it belongs to the newest request and the
   store is, in every part, the one the request saw; then the store shows exactly the listed
   clients that are not closed, in their order. Otherwise it changes nothing.
   */
  lemma AnswerAppliesToUnchangedStore(steps: seq<Step>, w: World, g: nat, clients: seq<Snapshot>)
    requires IsRun(START, steps, w) && g in w.waiting
    ensures var s' := Apply(w, DoAnswer(g, clients)).store;
            if g == w.generation && w.waiting[g] == w.store then
              && Shows(clients, w.store.closedIds, s'.clients)
              && (forall c :: c in s'.clients <==> c in clients && c.clientId !in w.store.closedIds)
              && s'.closedIds == w.store.closedIds && s'.revision == w.store.revision + 1
            else s' == w.store
  {
    RunKeepsInv(START, steps, w);
    WithoutShows(clients, w.store.closedIds);
  }

  /** A client that is not closed takes the place of the first of its id, or the end; a closed one changes nothing. */
  lemma UpsertShowsTheClient(s: Store, client: Snapshot)
    ensures var s' := Upsert(s, client);
            if client.clientId in s.closedIds then s' == s
            else
              && client in s'.clients && s'.closedIds == s.closedIds && s'.revision == s.revision + 1
              && (if forall c :: c in s.clients ==> c.clientId != client.clientId then s'.clients == s.clients + [client]
                  else exists i :: 0 <= i < |s.clients| && s.clients[i].clientId == client.clientId
                         && s'.clients == s.clients[i := client]
                         && forall j :: 0 <= j < i ==> s.clients[j].clientId != client.clientId)
  {
    var i := ClientIndex(s.clients, client.clientId);
    if i < |s.clients| {
      assert s.clients[i] in s.clients;
      assert s.clients[i := client][i] == client;
    } else {
      assert (s.clients + [client])[i] == client;
    }
  }

  /** A removed client is shown no more and remembered as closed; the others stay, in their order. */
  lemma RemoveHidesOnlyTheClient(s: Store, id: string)
    ensures var s' := Remove(s, id);
            && Shows(s.clients, [id], s'.clients) && s'.revision == s.revision + 1
            && s.closedIds <= s'.closedIds && (forall x :: x in s'.closedIds <==> x in s.closedIds || x == id)
  {
    WithoutShows(s.clients, [id]);
  }

  /** A status reaches every snapshot of its client, and nothing else changes. */
  lemma StatusReachesTheClient(s: Store, id: string, status: Status)
    ensures var s' := SetStatus(s, id, status);
            && |s'.clients| == |s.clients| && s'.closedIds == s.closedIds && s'.revision == s.revision + 1
            && forall i :: 0 <= i < |s.clients| ==>
                 if s.clients[i].clientId == id then
                   && s'.clients[i].status == status && s'.clients[i].clientId == id
                   && s'.clients[i].serverId == s.clients[i].serverId && s'.clients[i].pid == s.clients[i].pid
                 else s'.clients[i] == s.clients[i]
  {
  }
}
