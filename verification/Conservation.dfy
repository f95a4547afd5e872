/** The replica count is never lost: it is always either the workload's own count
    or, while a snapshot exists, the saved one. */
module Conservation {
  import opened Wrappers
  import opened Text
  import opened Api
  import opened Schedule
  import opened SleepOrderSpec

  /** The count the workload will have once it is awake again. */
  function Recoverable(o: Workload): Int32 {
    match o.Saved()
    case None => o.Replicas()
    case Some(text) =>
      match Atoi(text)
      case None => 0
      case Some(n) => ToInt32(n)
  }

  predicate SameCount(before: World, after: World) {
    && (before.target.Some? <==> after.target.Some?)
    && (before.target.Some? ==> Recoverable(after.target.value) == Recoverable(before.target.value))
  }

  // ----- What single writes keep -----

  lemma StoredIsEquivalent(o: Workload, omitsEmpty: bool)
    ensures Stored(o, omitsEmpty).Saved() == o.Saved()
    ensures Stored(o, omitsEmpty).Replicas() == o.Replicas()
    ensures Recoverable(Stored(o, omitsEmpty)) == Recoverable(o)
  {
  }

  lemma SnapshotSavesCount(o: Workload, n: Int32)
    ensures Recoverable(o.WithSaved(Itoa(n))) == n
    ensures Recoverable(o.WithSaved(Itoa(n)).Scaled(0)) == n
  {
    AtoiItoa(n);
  }

  /** The copy in memory is the stored object, or has lost the snapshot but holds
      the count itself, or cannot be read. */
  predicate Synced(w: World, copy: Workload)
    requires w.target.Some?
  {
    || copy == w.target.value
    || (copy.Saved().None? && copy.Replicas() == Recoverable(w.target.value))
    || (copy.Saved().Some? && Atoi(copy.Saved().value).None?)
  }

  /** Restoring without a snapshot changes nothing. */
  predicate WakeSafe(o: Workload) {
    o.annotations.Some? && o.Saved().None? ==> o.Replicas() == 0
  }

  lemma ScaleDownKeepsCount(w: World, copy: Workload, original: Int32, nextEvent: int, clock: int)
    requires w.target.Some? && copy.Saved().Some? && Recoverable(copy) == Recoverable(w.target.value)
    ensures SameCount(w, ScaleDown(w, copy, original, nextEvent, clock).world)
  {
  }

  lemma SleepKeepsCount(w: World, copy: Workload, nextEvent: int, clock: int)
    requires w.target.Some? && Synced(w, copy)
    ensures SameCount(w, HandleSleep(w, copy, nextEvent, clock).world)
  {
    if copy.Saved().Some? {
      if Atoi(copy.Saved().value).Some? {
        ScaleDownKeepsCount(w, copy, ToInt32(Atoi(copy.Saved().value).value), nextEvent, clock);
      }
    } else {
      var s := SnapshotReplicas(w, copy);
      var saved := w.target.value.WithSaved(Itoa(copy.Replicas()));
      SnapshotSavesCount(w.target.value, copy.Replicas());
      StoredIsEquivalent(saved, w.omitsEmpty);
      assert SameCount(w, s.world);
      if s.result.Ok? {
        ScaleDownKeepsCount(s.world, s.copy, s.result.value, nextEvent, clock);
      }
    }
  }

  /** A restore from this object would not end in an error. */
  predicate Restorable(o: Workload) {
    && o.annotations.Some?
    && (o.Saved().None? || o.Saved().value == "" || Atoi(o.Saved().value).Some?)
  }

  /** What a restore writes. */
  function Restored(o: Workload): Workload
    requires o.Saved().Some?
  {
    o.Scaled(Recoverable(o)).WithoutSaved()
  }

  /** A restore either has a readable snapshot and writes its count, or writes nothing. */
  lemma RestoreCases(w: World)
    requires w.target.Some?
    ensures var o, r := w.target.value, RestoreReplicas(w);
            if o.Saved().Some? && Atoi(o.Saved().value).Some? then
              && r.copy == Restored(o)
              && r.world.order == w.order && r.world.omitsEmpty == w.omitsEmpty
              && r.world.target.value in {o, Stored(Restored(o), w.omitsEmpty)}
              && (r.result.Ok? ==> r.result.value == Recoverable(o))
              && (r.result.Ok? ==> r.world.target.value == Stored(Restored(o), w.omitsEmpty))
            else
              && r.world == w && r.copy == o
              && (r.result.Ok? ==> r.result.value == 0)
              && (r.result.Ok? ==> o.annotations.Some?)
  {
  }

  lemma WakeKeepsCount(w: World, current: Int32, nextEvent: int, clock: int)
    requires w.target.Some? && (current == 0 ==> WakeSafe(w.target.value))
    ensures SameCount(w, HandleWake(w, current, nextEvent, clock).world)
  {
    if current == 0 {
      var r := RestoreReplicas(w);
      RestoreCases(w);
      if w.target.value.Saved().Some? {
        StoredIsEquivalent(Restored(w.target.value), w.omitsEmpty);
      }
      if r.result.Ok? {
        StoredIsEquivalent(r.copy.Scaled(r.result.value), w.omitsEmpty);
      }
    }
  }

  // ----- The finalizer step -----

  predicate BeingReleased(w: World) {
    w.order.Some? && w.order.value.deleting && SLEEP_ORDER_FINALIZER in w.order.value.finalizers
  }

  /** A restored object that reads back with a nil annotation map cannot be
      mistaken for one whose count is zero. */
  predicate LeavesNilMap(o: Workload, omitsEmpty: bool) {
    o.annotations.Some? && o.WithoutSaved().annotations == Some(map[]) && omitsEmpty
  }

  /** What every run of the retried closure keeps when the count is not at risk. */
  predicate Calm(w: World, copy: Workload, captured: Int32, n: Int32) {
    && w.target.Some?
    && Recoverable(w.target.value) == n
    && Synced(w, copy)
    && (captured == 0 ==> WakeSafe(w.target.value))
    && (captured == 0 && n != 0 && BeingReleased(w) && w.target.value.Saved().Some? ==>
          LeavesNilMap(w.target.value, w.omitsEmpty))
  }

  lemma AttemptStaysCalm(w: World, copy: Workload, captured: Int32, n: Int32)
    requires Calm(w, copy, captured, n)
    ensures var a := FinalizerAttempt(w, copy, captured); Calm(a.world, a.copy, captured, n)
  {
    var a := FinalizerAttempt(w, copy, captured);
    var o := w.target.value;
    if BeingReleased(w) && captured == 0 {
      var r := RestoreReplicas(w);
      RestoreCases(w);
      if o.Saved().Some? {
        StoredIsEquivalent(Restored(o), w.omitsEmpty);
      }
      if r.result.Ok? {
        StoredIsEquivalent(r.copy.Scaled(r.result.value), w.omitsEmpty);
      }
    }
  }

  lemma {:induction false} FinalizerStepStaysCalm(w: World, copy: Workload, captured: Int32, n: Int32, tries: nat)
    requires Calm(w, copy, captured, n)
    ensures var a := HandleFinalizer(w, copy, captured, tries); Calm(a.world, a.copy, captured, n)
    decreases tries
  {
    var a := FinalizerAttempt(w, copy, captured);
    AttemptStaysCalm(w, copy, captured, n);
    if a.error == Some(WriteConflict) && tries > 1 {
      FinalizerStepStaysCalm(a.world, a.copy, captured, n, tries - 1);
    }
  }

  // ----- Whole passes -----

  ghost predicate ActsOnTarget(lib: TimeLibrary, w: World, now: int) {
    && w.order.Some? && Supported(w.order.value.spec.target.kind) && w.target.Some?
    && TimeStateFor(lib, w.order.value.spec, now).Ok?
  }

  /** The one situation that can lose the count: a sleeping workload with a saved,
      non-zero count is given back because its order is being deleted, and other
      annotations survive the snapshot's removal. */
  ghost predicate AtRisk(lib: TimeLibrary, w: World, now: int) {
    && ActsOnTarget(lib, w, now) && BeingReleased(w)
    && w.target.value.Replicas() == 0 && Recoverable(w.target.value) != 0
    && !LeavesNilMap(w.target.value, w.omitsEmpty)
  }

  /** Outside that situation no pass loses the count, however the network answers. */
  lemma PassKeepsCount(lib: TimeLibrary, w: World, now: int, clock: int)
    requires !AtRisk(lib, w, now)
    ensures SameCount(w, Reconcile(lib, w, now, clock).world)
  {
    if ActsOnTarget(lib, w, now) {
      var o := w.target.value;
      var n, captured := Recoverable(o), o.Replicas();
      var time := TimeStateFor(lib, w.order.value.spec, now).value;
      FinalizerStepStaysCalm(w, o, captured, n, RETRY_STEPS);
      var f := HandleFinalizer(w, o, captured, RETRY_STEPS);
      if !f.stop {
        if time.shouldSleep {
          SleepKeepsCount(f.world, f.copy, time.nextEvent, clock);
        } else {
          WakeKeepsCount(f.world, captured, time.nextEvent, clock);
        }
      }
    }
  }

  /** In that situation one write conflict after the restore is enough: the closure
      is run again, finds no snapshot, and writes the count it now takes for zero. */
  lemma ConflictLosesCount(lib: TimeLibrary, w: World, now: int, clock: int)
    requires AtRisk(lib, w, now)
    requires w.network == Script([Applied, Applied, Conflict])
    ensures Reconcile(lib, w, now, clock).world.target.Some?
    ensures Recoverable(Reconcile(lib, w, now, clock).world.target.value) == 0
  {
    var o := w.target.value;
    var a := FinalizerAttempt(w, o, 0);
    assert w.network.Rest() == Script([Applied, Conflict]);
    assert w.network.Rest().Rest() == Script([Conflict]);
    assert w.network.Rest().Rest().Rest() == HEALTHY;
    assert a.error == Some(WriteConflict) && a.world.network == HEALTHY;
    assert a.world.target == Some(Restored(o)) && a.world.order == w.order;
    var b := FinalizerAttempt(a.world, a.copy, 0);
    assert b.stop && b.error.None?;
    assert b.world.target == Some(Restored(o).Scaled(0));
    assert HandleFinalizer(w, o, 0, RETRY_STEPS) == HandleFinalizer(a.world, a.copy, 0, RETRY_STEPS - 1) == b;
  }

  /** So a pass keeps the count under every network exactly when it is not at risk. */
  lemma CountIsSafeUnlessAtRisk(lib: TimeLibrary, w: World, now: int, clock: int)
    ensures (forall net :: SameCount(w, Reconcile(lib, w.(network := net), now, clock).world))
       <==> !AtRisk(lib, w, now)
  {
    if AtRisk(lib, w, now) {
      var bad := w.(network := Script([Applied, Applied, Conflict]));
      ConflictLosesCount(lib, bad, now, clock);
      assert !SameCount(w, Reconcile(lib, w.(network := bad.network), now, clock).world);
    } else {
      forall net ensures SameCount(w, Reconcile(lib, w.(network := net), now, clock).world) {
        PassKeepsCount(lib, w.(network := net), now, clock);
      }
    }
  }

  /** No conflict is needed: when the schedule says awake, a refused write after the
      restore is dropped, and the wake step overwrites the restored count. */
  lemma DroppedErrorLosesCount(lib: TimeLibrary, w: World, now: int, clock: int)
    requires AtRisk(lib, w, now)
    requires !TimeStateFor(lib, w.order.value.spec, now).value.shouldSleep
    requires w.network == Script([Applied, Rejected])
    ensures Reconcile(lib, w, now, clock).world.target.Some?
    ensures Recoverable(Reconcile(lib, w, now, clock).world.target.value) == 0
  {
    var o := w.target.value;
    var a := FinalizerAttempt(w, o, 0);
    assert w.network.Rest() == Script([Rejected]);
    assert w.network.Rest().Rest() == HEALTHY;
    assert !a.stop && a.error == Some(WriteFailed) && a.world.network == HEALTHY;
    assert a.world.target == Some(Restored(o));
    assert HandleFinalizer(w, o, 0, RETRY_STEPS) == a;
    var time := TimeStateFor(lib, w.order.value.spec, now).value;
    assert HandleWake(a.world, 0, time.nextEvent, clock).world.target == Some(Restored(o).Scaled(0));
  }

  // ----- Networks without conflicts -----

  /** No write is refused because its object changed in between. */
  predicate ConflictFree(net: Network) {
    net.StopsAfter? || Conflict !in net.answers
  }

  lemma ConflictFreeStaysSo(net: Network)
    requires ConflictFree(net)
    ensures net.Next() != Conflict && ConflictFree(net.Rest())
  {
  }

  /** Without conflicts the closure runs once, and what it leaves behind if it
      fails still holds the count. */
  lemma RiskyAttemptHoldsCount(w: World)
    requires BeingReleased(w) && w.target.Some? && w.target.value.Replicas() == 0
    requires w.target.value.Saved().Some? && Atoi(w.target.value.Saved().value).Some? && ConflictFree(w.network)
    ensures var a := FinalizerAttempt(w, w.target.value, 0);
            && HandleFinalizer(w, w.target.value, 0, RETRY_STEPS) == a
            && SameCount(w, a.world) && Synced(a.world, a.copy)
  {
    var o := w.target.value;
    ConflictFreeStaysSo(w.network);
    ConflictFreeStaysSo(w.network.Rest());
    ConflictFreeStaysSo(w.network.Rest().Rest());
    var r := RestoreReplicas(w);
    RestoreCases(w);
    StoredIsEquivalent(Restored(o), w.omitsEmpty);
    assert Restored(o).Scaled(Recoverable(o)) == Restored(o);
  }

  /** Without conflicts a pass at risk keeps the count exactly when the schedule
      says asleep: only the wake step acts on the count captured before. */
  lemma ConflictFreeRisk(lib: TimeLibrary, w: World, now: int, clock: int)
    requires AtRisk(lib, w, now)
    ensures (forall net :: ConflictFree(net) ==> SameCount(w, Reconcile(lib, w.(network := net), now, clock).world))
       <==> TimeStateFor(lib, w.order.value.spec, now).value.shouldSleep
  {
    var time := TimeStateFor(lib, w.order.value.spec, now).value;
    if time.shouldSleep {
      forall net | ConflictFree(net) ensures SameCount(w, Reconcile(lib, w.(network := net), now, clock).world) {
        NightPassKeepsCount(lib, w.(network := net), now, clock);
      }
    } else {
      var bad := w.(network := Script([Applied, Rejected]));
      DroppedErrorLosesCount(lib, bad, now, clock);
      assert ConflictFree(bad.network);
      assert !SameCount(w, Reconcile(lib, w.(network := bad.network), now, clock).world);
    }
  }

  lemma NightPassKeepsCount(lib: TimeLibrary, w: World, now: int, clock: int)
    requires AtRisk(lib, w, now) && ConflictFree(w.network)
    requires TimeStateFor(lib, w.order.value.spec, now).value.shouldSleep
    ensures SameCount(w, Reconcile(lib, w, now, clock).world)
  {
    hide HandleFinalizer, HandleSleep;
    var o := w.target.value;
    RiskyAttemptHoldsCount(w);
    var f := HandleFinalizer(w, o, 0, RETRY_STEPS);
    if !f.stop {
      SleepKeepsCount(f.world, f.copy, TimeStateFor(lib, w.order.value.spec, now).value.nextEvent, clock);
    }
  }

  /** Without failing writes a pass at risk gives the count back and ends there. */
  lemma HealthyPassKeepsCount(lib: TimeLibrary, w: World, now: int, clock: int)
    requires AtRisk(lib, w, now) && w.network == HEALTHY
    ensures SameCount(w, Reconcile(lib, w, now, clock).world)
  {
    RiskyAttemptHoldsCount(w);
    assert FinalizerAttempt(w, w.target.value, 0).stop;
  }

  // ----- Passes that stop -----

  lemma DeadNetworkWritesNothing(w: World, copy: Workload, captured: Int32, time: TimeState, clock: int)
    requires w.target.Some? && w.network == StopsAfter(0)
    ensures ActOn(w, copy, captured, time, clock).world.target == w.target
  {
  }

  /** A pass cut short after any number of writes keeps the count, at risk or not. */
  lemma StoppedPassKeepsCount(lib: TimeLibrary, w: World, now: int, clock: int)
    requires w.network.StopsAfter?
    ensures SameCount(w, Reconcile(lib, w, now, clock).world)
  {
    if AtRisk(lib, w, now) {
      var o := w.target.value;
      var f := HandleFinalizer(w, o, 0, RETRY_STEPS);
      var r := RestoreReplicas(w);
      RestoreCases(w);
      StoredIsEquivalent(Restored(o), w.omitsEmpty);
      if r.result.Ok? {
        StoredIsEquivalent(r.copy.Scaled(r.result.value), w.omitsEmpty);
      }
      assert f == FinalizerAttempt(w, o, 0);
      assert SameCount(w, f.world);
      if !f.stop {
        assert f.world.network == StopsAfter(0);
        DeadNetworkWritesNothing(f.world, f.copy, 0, TimeStateFor(lib, w.order.value.spec, now).value, clock);
      }
    } else {
      PassKeepsCount(lib, w, now, clock);
    }
  }

  // ----- Whole runs -----

  /** What can happen to an order: a pass under some network, a rewrite by the
      policy controller, a deletion request, a new order. */
  datatype Event =
    | Passed(now: int, clock: int, network: Network)
    | Redeployed(spec: OrderSpec, configHash: Hash)
    | DeletionRequested
    | Created(spec: OrderSpec, configHash: Hash)

  ghost function Step(lib: TimeLibrary, w: World, e: Event): World {
    match e
    case Passed(now, clock, network) => Reconcile(lib, w.(network := network), now, clock).world
    case Redeployed(spec, hash) =>
      if w.order.None? then w
      else w.(order := Kept(SleepOrder(spec, Some(hash), {}, w.order.value.deleting, w.order.value.status)))
    case DeletionRequested =>
      if w.order.None? then w else w.(order := Kept(w.order.value.(deleting := true)))
    case Created(spec, hash) =>
      if w.order.Some? then w else w.(order := Some(SleepOrder(spec, Some(hash), {}, false, EMPTY_STATUS)))
  }

  ghost function Run(lib: TimeLibrary, w: World, events: seq<Event>): World {
    if events == [] then w else Step(lib, Run(lib, w, events[..|events| - 1]), events[|events| - 1])
  }

  /** The pass is not at risk, or is only cut short or complete, or meets no
      conflict while the schedule says asleep. */
  ghost predicate CarefulPass(lib: TimeLibrary, w: World, now: int, network: Network) {
    || !AtRisk(lib, w, now)
    || network.StopsAfter?
    || network == HEALTHY
    || (ConflictFree(network) && TimeStateFor(lib, w.order.value.spec, now).value.shouldSleep)
  }

  lemma CarefulPassKeepsCount(lib: TimeLibrary, w: World, now: int, clock: int)
    requires CarefulPass(lib, w, now, w.network)
    ensures SameCount(w, Reconcile(lib, w, now, clock).world)
  {
    hide Reconcile;
    if !AtRisk(lib, w, now) {
      PassKeepsCount(lib, w, now, clock);
    } else if w.network.StopsAfter? {
      StoppedPassKeepsCount(lib, w, now, clock);
    } else if w.network == HEALTHY {
      HealthyPassKeepsCount(lib, w, now, clock);
    } else {
      NightPassKeepsCount(lib, w, now, clock);
    }
  }

  ghost predicate CarefulRun(lib: TimeLibrary, w: World, events: seq<Event>) {
    forall i :: 0 <= i < |events| && events[i].Passed? ==>
      CarefulPass(lib, Run(lib, w, events[..i]), events[i].now, events[i].network)
  }

  /** Conservation over whole runs: in every reachable state the count is the first one. */
  lemma {:induction false} CountIsConserved(lib: TimeLibrary, w: World, events: seq<Event>)
    requires CarefulRun(lib, w, events)
    ensures SameCount(w, Run(lib, w, events))
  {
    if events != [] {
      var front, e := events[..|events| - 1], events[|events| - 1];
      var before := Run(lib, w, front);
      assert CarefulRun(lib, w, front) by {
        forall i | 0 <= i < |front| && front[i].Passed?
          ensures CarefulPass(lib, Run(lib, w, front[..i]), front[i].now, front[i].network)
        {
          assert front[..i] == events[..i] && events[i] == front[i];
        }
      }
      CountIsConserved(lib, w, front);
      if e.Passed? {
        assert CarefulPass(lib, before, e.now, e.network);
        CarefulPassKeepsCount(lib, before.(network := e.network), e.now, e.clock);
      }
    }
  }
}
