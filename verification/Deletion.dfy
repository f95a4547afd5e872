/** Deleting an order gives its workload back. */
module Deletion {
  import opened Wrappers
  import opened Text
  import opened Api
  import opened Schedule
  import opened SleepOrderSpec
  import opened Conservation
  import Tracking

  /** The controller no longer holds the order back. */
  predicate Released(w: World) {
    w.order.None? || SLEEP_ORDER_FINALIZER !in w.order.value.finalizers
  }

  ghost function CompletePass(lib: TimeLibrary, w: World, now: int, clock: int): World {
    Reconcile(lib, w.(network := HEALTHY), now, clock).world
  }

  ghost function StoppedPass(lib: TimeLibrary, w: World, writes: nat, now: int, clock: int): World {
    Reconcile(lib, w.(network := StopsAfter(writes)), now, clock).world
  }

  /** A complete pass releases a terminating order exactly when it has a kind of
      workload the controller knows, and the workload is gone, or the schedule can be
      parsed and the workload runs or can be restored from. */
  lemma CompletePassReleases(lib: TimeLibrary, w: World, now: int, clock: int)
    requires BeingReleased(w)
    ensures Released(CompletePass(lib, w, now, clock)) <==>
              && Supported(w.order.value.spec.target.kind)
              && (w.target.Some? ==>
                    && TimeStateFor(lib, w.order.value.spec, now).Ok?
                    && (w.target.value.Replicas() != 0 || Restorable(w.target.value)))
  {
    if ActsOnTarget(lib, w, now) {
      ActingPassReleases(lib, w, now, clock);
    }
  }

  lemma ActingPassReleases(lib: TimeLibrary, w: World, now: int, clock: int)
    requires ActsOnTarget(lib, w, now) && BeingReleased(w)
    ensures Released(CompletePass(lib, w, now, clock))
       <==> w.target.value.Replicas() != 0 || Restorable(w.target.value)
  {
    var here, o := w.(network := HEALTHY), w.target.value;
    var f := HandleFinalizer(here, o, o.Replicas(), RETRY_STEPS);
    assert f == FinalizerAttempt(here, o, o.Replicas());
    assert f.stop <==> o.Replicas() != 0 || Restorable(o);
    if !f.stop {
      assert f.world == here;
      var time := TimeStateFor(lib, w.order.value.spec, now).value;
      ActingKeepsFinalizers(f.world, f.copy, o.Replicas(), time, clock);
    }
  }

  lemma ActingKeepsFinalizers(w: World, copy: Workload, captured: Int32, time: TimeState, clock: int)
    requires w.target.Some? && w.order.Some?
    ensures var after := ActOn(w, copy, captured, time, clock).world;
            after.order.Some? && after.order.value.finalizers == w.order.value.finalizers
  {
  }

  /** Deleting a sleeping order restores the saved count, removes the snapshot and
      nothing else from the annotations, and lets the order go. */
  lemma DeletionGivesBack(lib: TimeLibrary, w: World, now: int, clock: int)
    requires ActsOnTarget(lib, w, now) && BeingReleased(w)
    requires w.target.value.Replicas() == 0
    requires w.target.value.Saved().Some? && Atoi(w.target.value.Saved().value).Some?
    ensures var o, after := w.target.value, CompletePass(lib, w, now, clock);
            && Released(after)
            && after.target.Some?
            && after.target.value == Stored(Restored(o), w.omitsEmpty)
            && after.target.value.Replicas() == Recoverable(o)
            && after.target.value.Saved().None?
  {
  }

  // ----- Recovery from passes that stop -----

  /** The workload still sleeps on its snapshot, or runs and has been given back;
      the order is let go only in the second case. */
  predicate GivingBack(w: World, asleep: Workload)
    requires asleep.Saved().Some?
  {
    && w.target.Some?
    && (w.target.value == asleep || w.target.value == Stored(Restored(asleep), w.omitsEmpty))
    && (BeingReleased(w) || (Released(w) && w.target.value == Stored(Restored(asleep), w.omitsEmpty)))
  }

  predicate SleepsOn(o: Workload, n: Int32) {
    o.Replicas() == 0 && o.Saved().Some? && Atoi(o.Saved().value).Some? && Recoverable(o) == n
  }

  ghost predicate Schedulable(lib: TimeLibrary, w: World, now: int) {
    w.order.Some? ==> Supported(w.order.value.spec.target.kind) && TimeStateFor(lib, w.order.value.spec, now).Ok?
  }

  lemma StoppedPassKeepsGivingBack(lib: TimeLibrary, w: World, asleep: Workload, n: Int32,
                                   writes: nat, now: int, clock: int)
    requires SleepsOn(asleep, n) && n != 0 && GivingBack(w, asleep) && Schedulable(lib, w, now)
    requires w.order.Some? ==> w.order.value.deleting
    ensures var after := StoppedPass(lib, w, writes, now, clock);
            && GivingBack(after, asleep) && after.omitsEmpty == w.omitsEmpty
            && (after.order.Some? ==> after.order.value.deleting)
            && (after.order.Some? ==> w.order.Some? && after.order.value.spec == w.order.value.spec)
  {
    if BeingReleased(w) {
      var here, o := w.(network := StopsAfter(writes)), w.target.value;
      StoredIsEquivalent(Restored(asleep), w.omitsEmpty);
      var f := HandleFinalizer(here, o, o.Replicas(), RETRY_STEPS);
      if o == asleep {
        RestoreCases(here);
        assert RestoreReplicas(here).copy.Scaled(n) == Restored(asleep);
      }
      assert f == FinalizerAttempt(here, o, o.Replicas());
      if !f.stop {
        assert f.world.network == StopsAfter(0);
        var time := TimeStateFor(lib, w.order.value.spec, now).value;
        DeadNetworkWritesNothing(f.world, f.copy, o.Replicas(), time, clock);
        DeadNetworkKeepsOrder(f.world, f.copy, o.Replicas(), time, clock);
      }
    }
  }

  lemma DeadNetworkKeepsOrder(w: World, copy: Workload, captured: Int32, time: TimeState, clock: int)
    requires w.target.Some? && w.network == StopsAfter(0)
    ensures ActOn(w, copy, captured, time, clock).world.order == w.order
  {
  }

  datatype Stop = Stop(writes: nat, now: int, clock: int)

  ghost function AfterStops(lib: TimeLibrary, w: World, stops: seq<Stop>): World {
    if stops == [] then w
    else
      var last := stops[|stops| - 1];
      StoppedPass(lib, AfterStops(lib, w, stops[..|stops| - 1]), last.writes, last.now, last.clock)
  }

  lemma {:induction false} StopsKeepGivingBack(lib: TimeLibrary, w: World, n: Int32, stops: seq<Stop>)
    requires BeingReleased(w) && w.target.Some? && SleepsOn(w.target.value, n) && n != 0
    requires forall now :: Schedulable(lib, w, now)
    ensures var after := AfterStops(lib, w, stops);
            && GivingBack(after, w.target.value) && after.omitsEmpty == w.omitsEmpty
            && (after.order.Some? ==> after.order.value.deleting && after.order.value.spec == w.order.value.spec)
  {
    if stops != [] {
      var front, last := stops[..|stops| - 1], stops[|stops| - 1];
      StopsKeepGivingBack(lib, w, n, front);
      var before := AfterStops(lib, w, front);
      assert Schedulable(lib, w, last.now);
      StoppedPassKeepsGivingBack(lib, before, w.target.value, n, last.writes, last.now, last.clock);
    }
  }

  /** However often and wherever deletion passes stop, the next complete one ends
      with the workload at its saved non-zero count and the order let go. */
  lemma DeletionSurvivesStops(lib: TimeLibrary, w: World, n: Int32, stops: seq<Stop>, now: int, clock: int)
    requires BeingReleased(w) && w.target.Some? && SleepsOn(w.target.value, n) && n != 0
    requires forall t :: Schedulable(lib, w, t)
    ensures var after := CompletePass(lib, AfterStops(lib, w, stops), now, clock);
            Released(after) && after.target.Some? && after.target.value.Replicas() == n
  {
    var before := AfterStops(lib, w, stops);
    StopsKeepGivingBack(lib, w, n, stops);
    StoredIsEquivalent(Restored(w.target.value), w.omitsEmpty);
    assert Schedulable(lib, w, now);
    if BeingReleased(before) {
      CompletePassReleases(lib, before, now, clock);
      if before.target.value == w.target.value {
        DeletionGivesBack(lib, before, now, clock);
      } else {
        var o := before.target.value;
        assert HandleFinalizer(before.(network := HEALTHY), o, n, RETRY_STEPS)
            == FinalizerAttempt(before.(network := HEALTHY), o, n);
      }
    }
  }

  /** A count of zero is different: the order is let go after every possible stop
      exactly when removing the snapshot does not leave a nil annotation map. */
  lemma ZeroCountCanStick(lib: TimeLibrary, w: World, now: int, clock: int)
    requires ActsOnTarget(lib, w, now) && BeingReleased(w) && SleepsOn(w.target.value, 0)
    ensures (forall writes: nat ::
               Released(CompletePass(lib, StoppedPass(lib, w, writes, now, clock), now, clock)))
       <==> !LeavesNilMap(w.target.value, w.omitsEmpty)
  {
    var o := w.target.value;
    if LeavesNilMap(o, w.omitsEmpty) {
      var between := StoppedPass(lib, w, 1, now, clock);
      ZeroCountAfterStop(lib, w, 1, now, clock);
      assert between.target == Some(Stored(Restored(o), w.omitsEmpty));
      CompletePassReleases(lib, between, now, clock);
      assert !Released(CompletePass(lib, between, now, clock));
    } else {
      forall writes: nat
        ensures Released(CompletePass(lib, StoppedPass(lib, w, writes, now, clock), now, clock))
      {
        ZeroCountAfterStop(lib, w, writes, now, clock);
        var between := StoppedPass(lib, w, writes, now, clock);
        if BeingReleased(between) {
          CompletePassReleases(lib, between, now, clock);
        }
      }
    }
  }

  lemma ZeroCountAfterStop(lib: TimeLibrary, w: World, writes: nat, now: int, clock: int)
    requires ActsOnTarget(lib, w, now) && BeingReleased(w) && SleepsOn(w.target.value, 0)
    ensures var o, after := w.target.value, StoppedPass(lib, w, writes, now, clock);
            && after.target.Some? && after.omitsEmpty == w.omitsEmpty
            && after.target.value == (if writes == 0 then o else Stored(Restored(o), w.omitsEmpty))
            && (if writes < 3 then after.order == w.order else Released(after) && !BeingReleased(after))
  {
    var here, o := w.(network := StopsAfter(writes)), w.target.value;
    var r := RestoreReplicas(here);
    RestoreCases(here);
    StoredIsEquivalent(Restored(o), w.omitsEmpty);
    assert Restored(o).Scaled(0) == Restored(o);
    var f := HandleFinalizer(here, o, 0, RETRY_STEPS);
    assert f == FinalizerAttempt(here, o, 0);
    if !f.stop {
      assert f.world.network == StopsAfter(0);
      var time := TimeStateFor(lib, w.order.value.spec, now).value;
      DeadNetworkWritesNothing(f.world, f.copy, 0, time, clock);
      DeadNetworkKeepsOrder(f.world, f.copy, 0, time, clock);
    }
  }

  // ----- Letting go of a workload that sleeps -----

  /** Under no network does a pass let the order go without its workload at its count. */
  ghost predicate LetsGoAwakeOnly(lib: TimeLibrary, w: World, n: Int32, now: int, clock: int) {
    forall net ::
      var after := Reconcile(lib, w.(network := net), now, clock).world;
      Released(after) ==> after.target.Some? && after.target.value.Replicas() == n
  }

  /** A terminating order is let go only with its workload at its count exactly when
      the schedule says awake and the pass is not at risk. While it says asleep, a
      release reported as failed is dropped, and the sleep step follows. */
  lemma ReleasedAwakeOnly(lib: TimeLibrary, w: World, n: Int32, now: int, clock: int)
    requires ActsOnTarget(lib, w, now) && BeingReleased(w) && Tracking.Holds(w, n) && n != 0
    ensures LetsGoAwakeOnly(lib, w, n, now, clock)
       <==> !TimeStateFor(lib, w.order.value.spec, now).value.shouldSleep && !AtRisk(lib, w, now)
  {
    hide Reconcile;
    var o, asleep := w.target.value, TimeStateFor(lib, w.order.value.spec, now).value.shouldSleep;
    if AtRisk(lib, w, now) {
      ConflictReleasesAtZero(lib, w.(network := Script([Applied, Applied, Conflict])), now, clock);
    } else if asleep && o.Replicas() != 0 {
      LostReleaseStrandsRunning(lib, w.(network := Script([Lost])), now, clock);
    } else if asleep {
      LostReleaseStrandsSleeping(lib, w.(network := Script([Applied, Applied, Lost])), now, clock);
    } else {
      forall net
        ensures var after := Reconcile(lib, w.(network := net), now, clock).world;
                Released(after) ==> after.target.Some? && after.target.value.Replicas() == n
      {
        AwakePassLetsGoAwake(lib, w.(network := net), n, now, clock);
      }
    }
  }

  /** The conflict that loses the count lets the order go as well. */
  lemma ConflictReleasesAtZero(lib: TimeLibrary, w: World, now: int, clock: int)
    requires AtRisk(lib, w, now) && w.network == Script([Applied, Applied, Conflict])
    ensures var after := Reconcile(lib, w, now, clock).world;
            Released(after) && after.target.Some? && after.target.value.Replicas() == 0
  {
    var o := w.target.value;
    assert o.Saved().Some? && o.Saved().value != "";
    hide Itoa, Atoi;
    var a := FinalizerAttempt(w, o, 0);
    assert w.network.Rest() == Script([Applied, Conflict]);
    assert w.network.Rest().Rest() == Script([Conflict]);
    assert w.network.Rest().Rest().Rest() == HEALTHY;
    assert a.error == Some(WriteConflict) && a.world == w.(network := HEALTHY, target := Some(Restored(o)));
    var b := FinalizerAttempt(a.world, a.copy, 0);
    assert b.stop && b.world.target == Some(Restored(o).Scaled(0));
    assert HandleFinalizer(w, o, 0, RETRY_STEPS) == HandleFinalizer(a.world, a.copy, 0, RETRY_STEPS - 1) == b;
  }

  lemma LostReleaseStrandsRunning(lib: TimeLibrary, w: World, now: int, clock: int)
    requires ActsOnTarget(lib, w, now) && BeingReleased(w) && w.network == Script([Lost])
    requires TimeStateFor(lib, w.order.value.spec, now).value.shouldSleep
    requires w.target.value.Replicas() != 0 && Recoverable(w.target.value) != 0
    ensures var after := Reconcile(lib, w, now, clock).world;
            Released(after) && after.target.Some? && after.target.value.Replicas() == 0
  {
    hide Itoa, Atoi;
    var o := w.target.value;
    var f := FinalizerAttempt(w, o, o.Replicas());
    assert w.network.Rest() == HEALTHY;
    assert HandleFinalizer(w, o, o.Replicas(), RETRY_STEPS) == f && !f.stop && f.copy == o;
    HealthySleepEndsAtZero(f.world, o, TimeStateFor(lib, w.order.value.spec, now).value.nextEvent, clock);
  }

  lemma LostReleaseStrandsSleeping(lib: TimeLibrary, w: World, now: int, clock: int)
    requires ActsOnTarget(lib, w, now) && BeingReleased(w) && w.network == Script([Applied, Applied, Lost])
    requires TimeStateFor(lib, w.order.value.spec, now).value.shouldSleep
    requires w.target.value.Replicas() == 0 && Recoverable(w.target.value) != 0
    ensures var after := Reconcile(lib, w, now, clock).world;
            Released(after) && after.target.Some? && after.target.value.Replicas() == 0
  {
    var o := w.target.value;
    assert o.Saved().Some? && o.Saved().value != "";
    hide Itoa, Atoi;
    var f := FinalizerAttempt(w, o, 0);
    assert w.network.Rest() == Script([Applied, Lost]);
    assert w.network.Rest().Rest() == Script([Lost]);
    assert w.network.Rest().Rest().Rest() == HEALTHY;
    assert HandleFinalizer(w, o, 0, RETRY_STEPS) == f && !f.stop && f.copy == Restored(o);
    HealthySleepEndsAtZero(f.world, f.copy, TimeStateFor(lib, w.order.value.spec, now).value.nextEvent, clock);
  }

  /** A sleep step without failing writes scales to zero and releases nothing. */
  lemma HealthySleepEndsAtZero(w: World, copy: Workload, nextEvent: int, clock: int)
    requires w.target.Some? && w.network == HEALTHY
    requires copy.Saved().Some? ==> Atoi(copy.Saved().value).Some?
    ensures var after := HandleSleep(w, copy, nextEvent, clock).world;
            && after.target.Some? && after.target.value.Replicas() == 0
            && (Released(after) <==> Released(w))
  {
    hide Itoa, Atoi;
  }

  lemma AwakePassLetsGoAwake(lib: TimeLibrary, w: World, n: Int32, now: int, clock: int)
    requires ActsOnTarget(lib, w, now) && BeingReleased(w) && Tracking.Holds(w, n) && n != 0
    requires !TimeStateFor(lib, w.order.value.spec, now).value.shouldSleep && !AtRisk(lib, w, now)
    ensures var after := Reconcile(lib, w, now, clock).world;
            Released(after) ==> after.target.Some? && after.target.value.Replicas() == n
  {
    hide HandleFinalizer, HandleWake, Itoa, Atoi;
    var o, time := w.target.value, TimeStateFor(lib, w.order.value.spec, now).value;
    var f := HandleFinalizer(w, o, o.Replicas(), RETRY_STEPS);
    if o.Replicas() != 0 {
      RunningStepKeepsTarget(w, o, RETRY_STEPS);
      RunningWakeKeepsTarget(f.world, o.Replicas(), time.nextEvent, clock);
    } else {
      StoredIsEquivalent(Restored(o), w.omitsEmpty);
      StepKeepsGivingBack(w, o, o, RETRY_STEPS);
      if !f.stop {
        WakeKeepsGivingBack(f.world, o, time.nextEvent, clock);
      }
    }
  }

  lemma {:induction false} RunningStepKeepsTarget(w: World, copy: Workload, tries: nat)
    requires w.target.Some? && w.target.value.Replicas() != 0
    requires w.order.Some? ==> w.order.value.deleting
    ensures HandleFinalizer(w, copy, w.target.value.Replicas(), tries).world.target == w.target
    decreases tries
  {
    var a := FinalizerAttempt(w, copy, w.target.value.Replicas());
    if a.error == Some(WriteConflict) && tries > 1 {
      RunningStepKeepsTarget(a.world, a.copy, tries - 1);
    }
  }

  lemma RunningWakeKeepsTarget(w: World, current: Int32, nextEvent: int, clock: int)
    requires w.target.Some? && current != 0
    ensures HandleWake(w, current, nextEvent, clock).world.target == w.target
  {
  }

  /** Once it has been given back the workload has no annotations, so a further run
      of the closure fails instead of taking the count for zero. */
  lemma AttemptKeepsGivingBack(w: World, asleep: Workload, copy: Workload)
    requires asleep.Saved().Some? && Atoi(asleep.Saved().value).Some?
    requires LeavesNilMap(asleep, w.omitsEmpty) && GivingBack(w, asleep)
    requires w.order.Some? ==> w.order.value.deleting
    ensures var a := FinalizerAttempt(w, copy, 0);
            GivingBack(a.world, asleep) && a.world.omitsEmpty == w.omitsEmpty
            && (a.world.order.Some? ==> a.world.order.value.deleting)
  {
    assert asleep.Saved().value != "";
    hide Itoa, Atoi;
    var r := RestoreReplicas(w);
    RestoreCases(w);
    assert Restored(asleep).Scaled(Recoverable(asleep)) == Restored(asleep);
  }

  lemma {:induction false} StepKeepsGivingBack(w: World, asleep: Workload, copy: Workload, tries: nat)
    requires asleep.Saved().Some? && Atoi(asleep.Saved().value).Some?
    requires LeavesNilMap(asleep, w.omitsEmpty) && GivingBack(w, asleep)
    requires w.order.Some? ==> w.order.value.deleting
    ensures var f := HandleFinalizer(w, copy, 0, tries);
            GivingBack(f.world, asleep) && f.world.omitsEmpty == w.omitsEmpty
            && (f.world.order.Some? ==> f.world.order.value.deleting)
    decreases tries
  {
    hide FinalizerAttempt, LeavesNilMap;
    var a := FinalizerAttempt(w, copy, 0);
    AttemptKeepsGivingBack(w, asleep, copy);
    if a.error == Some(WriteConflict) && tries > 1 {
      StepKeepsGivingBack(a.world, asleep, a.copy, tries - 1);
    }
  }

  lemma WakeKeepsGivingBack(w: World, asleep: Workload, nextEvent: int, clock: int)
    requires asleep.Saved().Some? && Atoi(asleep.Saved().value).Some?
    requires LeavesNilMap(asleep, w.omitsEmpty) && GivingBack(w, asleep)
    ensures GivingBack(HandleWake(w, 0, nextEvent, clock).world, asleep)
  {
    hide Itoa, Atoi;
    RestoreCases(w);
    assert Restored(asleep).Scaled(Recoverable(asleep)) == Restored(asleep);
  }

  // ----- Sequences of complete passes -----

  /** The order is being deleted, and its texts parse into schedule `s`. */
  predicate Terminating(lib: TimeLibrary, w: World, s: Schedule) {
    && BeingReleased(w) && w.target.Some?
    && var spec := w.order.value.spec;
       && Supported(spec.target.kind)
       && ParseSchedule(lib, spec.wakeAt, spec.sleepAt, spec.timezone, spec.workingDays) == Ok(s)
  }

  datatype Visit = Visit(now: int, clock: int)

  ghost function AfterVisits(lib: TimeLibrary, w: World, visits: seq<Visit>): World
    decreases |visits|
  {
    if visits == [] then w
    else AfterVisits(lib, CompletePass(lib, w, visits[0].now, visits[0].clock), visits[1..])
  }

  /** A zero workload without annotations gets some from a pass made while asleep:
      the snapshot of its zero count. */
  lemma VisitMakesRestorable(lib: TimeLibrary, w: World, s: Schedule, now: int, clock: int)
    requires Terminating(lib, w, s) && w.target.value.Replicas() == 0 && w.target.value.annotations.None?
    ensures var after := CompletePass(lib, w, now, clock);
            && Terminating(lib, after, s)
            && (if Awake(s, now) then after.target == w.target else Restorable(after.target.value))
  {
    hide Awake, NextEvent, Itoa, Atoi;
    var here := w.(network := HEALTHY);
    var saved := w.target.value.WithSaved(Itoa(0));
    AtoiItoa(0);
    StoredIsEquivalent(saved, w.omitsEmpty);
    StoredIsEquivalent(saved.Scaled(0), w.omitsEmpty);
    assert HandleFinalizer(here, w.target.value, 0, RETRY_STEPS) == FinalizerAttempt(here, w.target.value, 0);
  }

  /** An unreadable snapshot on a zero workload makes every pass fail. */
  lemma VisitLeavesUnreadable(lib: TimeLibrary, w: World, s: Schedule, now: int, clock: int)
    requires Terminating(lib, w, s) && w.target.value.Replicas() == 0
    requires w.target.value.annotations.Some? && !Restorable(w.target.value)
    ensures var after := CompletePass(lib, w, now, clock); Terminating(lib, after, s) && after.target == w.target
  {
    hide Awake, NextEvent, Itoa, Atoi;
    var here := w.(network := HEALTHY);
    assert HandleFinalizer(here, w.target.value, 0, RETRY_STEPS) == FinalizerAttempt(here, w.target.value, 0);
  }

  /** A released order that is still there waits for others; passes leave it alone. */
  predicate LetGo(w: World) {
    w.order.Some? ==> w.order.value.deleting && SLEEP_ORDER_FINALIZER !in w.order.value.finalizers
  }

  lemma LetGoStepStops(w: World, copy: Workload, captured: Int32, tries: nat)
    requires w.target.Some? && LetGo(w)
    ensures HandleFinalizer(w, copy, captured, tries) == Attempt(w, copy, true, None)
  {
    assert HandleFinalizer(w, copy, captured, tries) == FinalizerAttempt(w, copy, captured);
  }

  /** A terminating order without the controller's finalizer is not acted on any more. */
  lemma LetGoIsLeftAlone(lib: TimeLibrary, w: World, now: int, clock: int)
    requires ActsOnTarget(lib, w, now) && LetGo(w)
    ensures Reconcile(lib, w, now, clock) == Pass(w, Ok(None))
  {
    hide Awake, NextEvent, HandleFinalizer;
    LetGoStepStops(w, w.target.value, w.target.value.Replicas(), RETRY_STEPS);
  }

  lemma VisitLetsGo(lib: TimeLibrary, w: World, s: Schedule, now: int, clock: int)
    requires Terminating(lib, w, s) && (w.target.value.Replicas() != 0 || Restorable(w.target.value))
    ensures LetGo(CompletePass(lib, w, now, clock)) && CompletePass(lib, w, now, clock).target.Some?
  {
    hide Awake, NextEvent, Itoa, Atoi;
    var here, o := w.(network := HEALTHY), w.target.value;
    assert HandleFinalizer(here, o, o.Replicas(), RETRY_STEPS) == FinalizerAttempt(here, o, o.Replicas());
  }

  lemma {:induction false} LetGoLasts(lib: TimeLibrary, w: World, visits: seq<Visit>)
    requires LetGo(w) && w.target.Some?
    ensures LetGo(AfterVisits(lib, w, visits))
    decreases |visits|
  {
    if visits != [] {
      VisitKeepsLetGo(lib, w, visits[0].now, visits[0].clock);
      LetGoLasts(lib, CompletePass(lib, w, visits[0].now, visits[0].clock), visits[1..]);
    }
  }

  lemma VisitKeepsLetGo(lib: TimeLibrary, w: World, now: int, clock: int)
    requires LetGo(w) && w.target.Some?
    ensures LetGo(CompletePass(lib, w, now, clock)) && CompletePass(lib, w, now, clock).target.Some?
  {
  }

  /** Some complete pass but the last was made while asleep. */
  ghost predicate AsleepBeforeLast(s: Schedule, visits: seq<Visit>) {
    exists i :: 0 <= i < |visits| - 1 && !Awake(s, visits[i].now)
  }

  /** Any number of complete passes release a terminating order exactly when there
      is one and its workload has replicas or can be restored from, or has no
      annotations and a pass before the last was made while asleep. A zero workload
      with an unreadable snapshot is never released. */
  lemma {:induction false} CompletePassesRelease(lib: TimeLibrary, w: World, s: Schedule, visits: seq<Visit>)
    requires Terminating(lib, w, s)
    ensures Released(AfterVisits(lib, w, visits)) <==>
              && visits != []
              && var o := w.target.value;
                 || o.Replicas() != 0
                 || Restorable(o)
                 || (o.annotations.None? && AsleepBeforeLast(s, visits))
    decreases |visits|
  {
    hide CompletePass, Awake, Restorable;
    if visits != [] {
      var o, first, rest := w.target.value, visits[0], visits[1..];
      var after := CompletePass(lib, w, first.now, first.clock);
      if o.Replicas() != 0 || Restorable(o) {
        VisitLetsGo(lib, w, s, first.now, first.clock);
        LetGoLasts(lib, after, rest);
      } else if o.annotations.None? {
        VisitMakesRestorable(lib, w, s, first.now, first.clock);
        CompletePassesRelease(lib, after, s, rest);
        LaterAsleep(s, visits);
      } else {
        VisitLeavesUnreadable(lib, w, s, first.now, first.clock);
        CompletePassesRelease(lib, after, s, rest);
      }
    }
  }

  lemma LaterAsleep(s: Schedule, visits: seq<Visit>)
    requires visits != []
    ensures AsleepBeforeLast(s, visits)
       <==> visits[1..] != [] && (!Awake(s, visits[0].now) || AsleepBeforeLast(s, visits[1..]))
  {
    hide Awake;
    if AsleepBeforeLast(s, visits) {
      var i :| 0 <= i < |visits| - 1 && !Awake(s, visits[i].now);
      if i > 0 {
        assert visits[1..][i - 1] == visits[i];
      }
    }
    if AsleepBeforeLast(s, visits[1..]) {
      var i :| 0 <= i < |visits[1..]| - 1 && !Awake(s, visits[1..][i].now);
      assert visits[i + 1] == visits[1..][i];
    }
  }
}
