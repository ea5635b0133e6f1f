/**
 When the client registry grants what it is asked, and what a grant leaves behind: the life of a
 client from its reservation to its end.
 */
module ClientLaws {
  import opened Basics
  import opened ClientRegistry

  /** Nothing but the client under `g` differs. */
  ghost predicate OnlyAt(r: Registry, r': Registry, g: Generation)
  {
    && r'.closed == r.closed
    && forall h :: h != g ==> (h in r'.clients <==> h in r.clients) && (h in r.clients ==> r'.clients[h] == r.clients[h])
  }

  /** Nobody is being launched, and nobody has this client id. */
  ghost predicate RoomFor(r: Registry, clientId: string)
  {
    !r.closed && forall g :: g in r.clients ==> r.clients[g].Running? && r.clients[g].metadata.clientId != clientId
  }

  /** A launch is granted exactly while admission is open, nobody else is launching and its id is free. */
  lemma LaunchGrantedIff(r: Registry, m: Metadata)
    requires r.nextGeneration !in r.clients
    ensures var (r', x) := BeginLaunch(r, m);
            && (x.Ok? <==> RoomFor(r, m.clientId))
            && (x.Err? ==> r' == r)
            && (x.Ok? ==>
                  && x.value !in r.clients && x.value in r'.clients && OnlyAt(r, r', x.value)
                  && r'.clients[x.value] == Launching(m, None, false) && r'.nextGeneration > x.value)
  {
  }

  /** The reservation is still good: the client is launching and was not asked to stop. */
  ghost predicate Pending(r: Registry, g: Generation)
  {
    g in r.clients && r.clients[g].Launching? && !r.clients[g].stopRequested
  }

  /** Nobody else runs as this process. */
  ghost predicate Free(r: Registry, g: Generation, id: Identity)
  {
    forall h :: h in r.clients && h != g && r.clients[h].Running? ==> r.clients[h].identity != id
  }

  /** A promotion is granted exactly to a pending launch and a process nobody else runs as; the client then runs as it. */
  lemma PromotionGrantedIff(r: Registry, g: Generation, id: Identity, runtime: Runtime)
    ensures var (r', x) := MarkRunning(r, g, id, runtime);
            && (x.Ok? <==> Pending(r, g) && Free(r, g, id))
            && (x.Err? ==> r' == r)
            && (x.Ok? ==>
                  && OnlyAt(r, r', g) && g in r'.clients && r'.nextGeneration == r.nextGeneration
                  && x.value == r'.clients[g] && x.value.Running? && x.value.identity == id && x.value.runtime == runtime
                  && x.value.metadata == r.clients[g].metadata && x.value.controller == r.clients[g].controller
                  && !x.value.stopRequested)
  {
  }

  /** A controller is noted exactly for a pending launch, which stays pending. */
  lemma ControllerGrantedIff(r: Registry, g: Generation, id: Identity)
    ensures var (r', x) := MarkController(r, g, id);
            && (x.Ok? <==> Pending(r, g))
            && (x.Err? ==> r' == r)
            && (x.Ok? ==>
                  && OnlyAt(r, r', g) && Pending(r', g) && r'.nextGeneration == r.nextGeneration
                  && r'.clients[g].controller == Some(id) && r'.clients[g].metadata == r.clients[g].metadata)
  {
  }

  /**
   A handoff is granted exactly if the client runs as the expected process and was not asked to
   stop, nobody is launching, and nobody else runs as the replacement; it changes the identity
   and the lease and nothing else.
   */
  lemma HandoffGrantedIff(r: Registry, g: Generation, expected: Identity, replacement: Identity, lease: string)
    ensures var (r', done) := ReplaceRunning(r, g, expected, replacement, lease);
            && (done <==> && g in r.clients && r.clients[g].Running? && r.clients[g].identity == expected
                          && !r.clients[g].stopRequested && Free(r, g, replacement)
                          && forall h :: h in r.clients ==> r.clients[h].Running?)
            && (!done ==> r' == r)
            && (done ==>
                  && OnlyAt(r, r', g) && g in r'.clients && r'.nextGeneration == r.nextGeneration
                  && r'.clients[g].Running? && r'.clients[g].identity == replacement
                  && r'.clients[g].metadata == r.clients[g].metadata && r'.clients[g].controller == r.clients[g].controller
                  && r'.clients[g].runtime.planId == r.clients[g].runtime.planId
                  && r'.clients[g].runtime.observationId == r.clients[g].runtime.observationId
                  && r'.clients[g].runtime.memory == Some(lease) && !r'.clients[g].stopRequested)
  {
  }

  /** A cancelled launch is gone; anyone else stays. */
  lemma CancelRemovesLaunch(r: Registry, g: Generation)
    ensures var r' := CancelLaunch(r, g);
            && OnlyAt(r, r', g) && r'.nextGeneration == r.nextGeneration
            && (g in r'.clients <==> g in r.clients && r.clients[g].Running?)
            && (g in r'.clients ==> r'.clients[g] == r.clients[g])
  {
  }

  /** A running client that ends is reported with its data and removed; a launching one is left alone. */
  lemma FinishReports(r: Registry, g: Generation)
    ensures var (r', x) := Finish(r, g);
            && OnlyAt(r, r', g) && r'.nextGeneration == r.nextGeneration
            && (x.Some? <==> g in r.clients && r.clients[g].Running?)
            && (x.None? ==> r' == r)
            && (x.Some? ==>
                  && g !in r'.clients && x.value.metadata == r.clients[g].metadata
                  && x.value.stopRequested == r.clients[g].stopRequested
                  && x.value.remaining == |r'.clients| == |r.clients| - 1)
  {
    if g in r.clients && r.clients[g].Running? {
      assert r.clients.Keys == (r.clients - {g}).Keys + {g};
    }
  }

  /** Admission is closed exactly when it was open and nobody is there; reopening undoes just that. */
  lemma AdmissionClosesIff(r: Registry)
    ensures var (r', x) := CloseAdmission(r);
            && (x.Ok? <==> !r.closed && r.clients == map[])
            && (x.Err? ==> r' == r)
            && (x.Ok? ==> r' != r && r'.closed && ReopenAdmission(r') == r)
  {
  }

  /** A stop request marks the client, leaves everyone else alone, and names its processes. */
  lemma StopOneNames(r: Registry, g: Generation)
    requires g in r.clients
    ensures var (r', x) := StopOne(r, g);
            && OnlyAt(r, r', g) && r'.nextGeneration == r.nextGeneration
            && g in r'.clients && Marked(r.clients[g], r'.clients[g])
            && StoppedAs(r.clients[g], x.identities)
            && (x.wasOnlyClient <==> r.clients.Keys == {g})
  {
    IdentitiesAreExact(r.clients[g]);
    StopMarks(r.clients[g]);
    if |r.clients| == 1 {
      assert |r.clients.Keys - {g}| == 0;
      assert r.clients.Keys == {g};
    }
  }

  /** Stopping everyone marks everyone and keeps everything else. */
  lemma StopAllMarks(r: Registry)
    ensures var r' := StopAll(r);
            && r'.clients.Keys == r.clients.Keys && r'.closed == r.closed && r'.nextGeneration == r.nextGeneration
            && forall g :: g in r.clients ==> Marked(r.clients[g], r'.clients[g])
  {
  }

  /**
   The life of a client, from any reachable registry with room for it: reserved, given its
   controller, promoted, handed over, stopped and finished, it keeps its data throughout, and
   the stop names the process it then runs as and its controller.
   */
  lemma LifeOfAClient(before: seq<Step>, w: World, m: Metadata, controller: Identity, first: Identity, second: Identity,
                      runtime: Runtime, lease: string)
    requires IsRun(START, before, w) && RoomFor(w.r, m.clientId)
    requires forall g :: g in w.r.clients ==> w.r.clients[g].identity != first && w.r.clients[g].identity != second
    ensures var (r1, x) := BeginLaunch(w.r, m);
            x.Ok? &&
            var g := x.value;
            var (r2, y) := MarkController(r1, g, controller);
            var (r3, z) := MarkRunning(r2, g, first, runtime);
            var (r4, done) := ReplaceRunning(r3, g, first, second, lease);
            y.Ok? && z.Ok? && done && g in r4.clients &&
            var (r5, stop) := StopOne(r4, g);
            var (r6, end) := Finish(r5, g);
            && (forall i :: i in stop.identities <==> i == second || i == controller)
            && stop.identities[0] == second
            && end == Some(Finished(m, true, |w.r.clients|)) && r6.clients == w.r.clients
  {
    hide IsRun, Inv, BeginLaunch, MarkController, MarkRunning, ReplaceRunning, StopOne, Finish;
    StartIsInv();
    RunKeepsInv(START, before, w);
    NextIsNew(w);
    var g, r3 := FirstHalf(w.r, m, controller, first, runtime);
    SecondHalf(w.r, r3, g, m, controller, first, second, runtime, lease);
  }

  /** Reserved, controlled, promoted. */
  lemma FirstHalf(r: Registry, m: Metadata, controller: Identity, first: Identity, runtime: Runtime)
    returns (g: Generation, r3: Registry)
    requires r.nextGeneration !in r.clients && RoomFor(r, m.clientId)
    requires forall h :: h in r.clients ==> r.clients[h].identity != first
    ensures var (r1, x) := BeginLaunch(r, m);
            x.Ok? && x.value == g && MarkController(r1, g, controller).1.Ok? &&
            var (r2, y) := MarkController(r1, g, controller);
            MarkRunning(r2, g, first, runtime).1.Ok? && r3 == MarkRunning(r2, g, first, runtime).0
    ensures g !in r.clients && r3.clients == r.clients[g := Running(m, first, Some(controller), runtime, false)]
  {
    LaunchGrantedIff(r, m);
    hide BeginLaunch, MarkController, MarkRunning;
    var (r1, x) := BeginLaunch(r, m);
    g := x.value;
    ControllerGrantedIff(r1, g, controller);
    var r2 := MarkController(r1, g, controller).0;
    PromotionGrantedIff(r2, g, first, runtime);
    r3 := MarkRunning(r2, g, first, runtime).0;
  }

  /** Handed over, stopped, finished. */
  lemma SecondHalf(r: Registry, r3: Registry, g: Generation, m: Metadata, controller: Identity, first: Identity,
                   second: Identity, runtime: Runtime, lease: string)
    requires g !in r.clients && r3.clients == r.clients[g := Running(m, first, Some(controller), runtime, false)]
    requires forall h :: h in r.clients ==> r.clients[h].Running? && r.clients[h].identity != second
    ensures var (r4, done) := ReplaceRunning(r3, g, first, second, lease);
            done && g in r4.clients &&
            var (r5, stop) := StopOne(r4, g);
            var (r6, end) := Finish(r5, g);
            && stop.identities != [] && stop.identities[0] == second
            && (forall i :: i in stop.identities <==> i == second || i == controller)
            && end == Some(Finished(m, true, |r.clients|)) && r6.clients == r.clients
  {
    var c := r3.clients[g];
    var r0 := r3.(clients := r.clients);
    assert OnlyAt(r0, r3, g);
    hide ReplaceRunning, StopOne, Finish, OnlyAt;
    HandoffGrantedIff(r3, g, first, second, lease);
    var r4 := ReplaceRunning(r3, g, first, second, lease).0;
    StopOneNames(r4, g);
    var r5 := StopOne(r4, g).0;
    FinishReports(r5, g);
    var r6 := Finish(r5, g).0;
    OnlyAtTransitive(r0, r3, r4, g);
    OnlyAtTransitive(r0, r4, r5, g);
    OnlyAtTransitive(r0, r5, r6, g);
    NothingAt(r0, r6, g);
  }

  lemma OnlyAtTransitive(a: Registry, b: Registry, c: Registry, g: Generation)
    requires OnlyAt(a, b, g) && OnlyAt(b, c, g)
    ensures OnlyAt(a, c, g)
  {
  }

  lemma NothingAt(a: Registry, b: Registry, g: Generation)
    requires OnlyAt(a, b, g) && g !in a.clients && g !in b.clients
    ensures b.clients == a.clients
  {
  }

  lemma NextIsNew(w: World)
    requires Inv(w)
    ensures w.r.nextGeneration !in w.r.clients
  {
  }
}
