/** The controller's finalizer: when a pass puts it on an order, what it is good
    for, and how it comes off. */
module Protection {
  import opened Wrappers
  import opened Text
  import opened Api
  import opened Schedule
  import opened SleepOrderSpec
  import opened Conservation
  import opened Deletion
  import opened Tracking

  predicate Held(w: World) {
    w.order.Some? && SLEEP_ORDER_FINALIZER in w.order.value.finalizers
  }

  // ----- Putting the finalizer on -----

  lemma {:induction false} LiveStepAddsFinalizer(w: World, copy: Workload, captured: Int32, tries: nat)
    requires w.order.Some? && !w.order.value.deleting && w.target.Some?
    ensures var f, former := HandleFinalizer(w, copy, captured, tries), w.order.value.finalizers;
            && f.world.order.Some?
            && f.world.order.value.finalizers in {former, former + {SLEEP_ORDER_FINALIZER}}
            && (w.network == HEALTHY ==> Held(f.world))
            && (Held(w) ==> f.world == w)
    decreases tries
  {
    var a := FinalizerAttempt(w, copy, captured);
    if a.error == Some(WriteConflict) && tries > 1 {
      LiveStepAddsFinalizer(a.world, a.copy, captured, tries - 1);
    }
  }

  /** A pass of a live order takes no finalizer away, whatever the network answers,
      and without failing writes it puts the controller's own one on, and no other. */
  lemma LivePassAddsFinalizer(lib: TimeLibrary, w: World, s: Schedule, now: int, clock: int)
    requires Live(lib, w, s) && w.target.Some?
    ensures var after, former := Reconcile(lib, w, now, clock).world, w.order.value.finalizers;
            && after.order.Some?
            && after.order.value.finalizers in {former, former + {SLEEP_ORDER_FINALIZER}}
            && (w.network == HEALTHY ==> after.order.value.finalizers == former + {SLEEP_ORDER_FINALIZER})
  {
    hide HandleFinalizer, ActOn, Awake, NextEvent;
    var o, time := w.target.value, TimeStateFor(lib, w.order.value.spec, now).value;
    var f := HandleFinalizer(w, o, o.Replicas(), RETRY_STEPS);
    LiveFinalizerStep(lib, w, s, o.Replicas(), RETRY_STEPS);
    LiveStepAddsFinalizer(w, o, o.Replicas(), RETRY_STEPS);
    ActingKeepsFinalizers(f.world, f.copy, o.Replicas(), time, clock);
    var former := w.order.value.finalizers;
    assert SLEEP_ORDER_FINALIZER in former ==> former + {SLEEP_ORDER_FINALIZER} == former;
  }

  /** What it is good for: after such a pass a deletion request leaves the order
      there, and the next complete pass gives the workload back before letting go. */
  lemma DeletionIsHeldBack(lib: TimeLibrary, w: World, s: Schedule, n: Int32,
                           now: int, clock: int, later: int, clock': int)
    requires Live(lib, w, s) && Holds(w, n) && n != 0 && w.network == HEALTHY
    ensures var requested := Step(lib, Reconcile(lib, w, now, clock).world, DeletionRequested);
            var after := CompletePass(lib, requested, later, clock');
            && BeingReleased(requested)
            && Released(after) && after.target.Some? && after.target.value.Replicas() == n
  {
    hide Reconcile, Awake, NextEvent;
    var passed := Reconcile(lib, w, now, clock).world;
    LivePassAddsFinalizer(lib, w, s, now, clock);
    PassBringsUpToDate(lib, w, s, n, now, clock);
    var requested := Step(lib, passed, DeletionRequested);
    assert BeingReleased(requested);
    AwakeOrGivenBack(lib, requested, n, later, clock');
  }

  lemma AwakeOrGivenBack(lib: TimeLibrary, w: World, n: Int32, now: int, clock: int)
    requires ActsOnTarget(lib, w, now) && BeingReleased(w) && Holds(w, n) && n != 0
    ensures var after := CompletePass(lib, w, now, clock);
            Released(after) && after.target.Some? && after.target.value.Replicas() == n
  {
    var here, o := w.(network := HEALTHY), w.target.value;
    if o.Replicas() == 0 {
      DeletionGivesBack(lib, w, now, clock);
    } else {
      assert HandleFinalizer(here, o, n, RETRY_STEPS) == FinalizerAttempt(here, o, n);
    }
  }

  /** Under no network does a pass put the workload to sleep and leave the order
      without the finalizer. */
  ghost predicate SleepsHeldOnly(lib: TimeLibrary, w: World, now: int, clock: int) {
    forall net ::
      var after := Reconcile(lib, w.(network := net), now, clock).world;
      after.target.Some? && after.target.value.Replicas() == 0 ==> Held(after)
  }

  /** A finalizer write that fails is dropped and the pass goes on. So a running
      workload is put to sleep only under a held order exactly when the order was
      held before, or the schedule says awake. */
  lemma SleepsHeldOnlyExact(lib: TimeLibrary, w: World, s: Schedule, n: Int32, now: int, clock: int)
    requires Live(lib, w, s) && Holds(w, n) && n != 0 && w.target.value.Replicas() == n
    ensures SleepsHeldOnly(lib, w, now, clock) <==> Held(w) || Awake(s, now)
  {
    hide Reconcile, Awake, NextEvent;
    if Held(w) || Awake(s, now) {
      forall net
        ensures var after := Reconcile(lib, w.(network := net), now, clock).world;
                after.target.Some? && after.target.value.Replicas() == 0 ==> Held(after)
      {
        var here := w.(network := net);
        LivePassAddsFinalizer(lib, here, s, now, clock);
        if Awake(s, now) {
          AwakePassKeepsRunning(lib, here, s, now, clock);
        }
      }
    } else {
      var bad := w.(network := Script([Rejected]));
      RefusedFinalizerSleeps(lib, bad, s, now, clock);
      assert !SleepsHeldOnly(lib, w, now, clock) by {
        var after := Reconcile(lib, w.(network := bad.network), now, clock).world;
        assert after.target.Some? && after.target.value.Replicas() == 0 && !Held(after);
      }
    }
  }

  lemma AwakePassKeepsRunning(lib: TimeLibrary, w: World, s: Schedule, now: int, clock: int)
    requires Live(lib, w, s) && w.target.Some? && w.target.value.Replicas() != 0 && Awake(s, now)
    ensures Reconcile(lib, w, now, clock).world.target == w.target
  {
    hide HandleFinalizer, Awake, NextEvent;
    LiveFinalizerStep(lib, w, s, w.target.value.Replicas(), RETRY_STEPS);
  }

  lemma RefusedFinalizerSleeps(lib: TimeLibrary, w: World, s: Schedule, now: int, clock: int)
    requires Live(lib, w, s) && w.target.Some? && !Held(w) && !Awake(s, now)
    requires Recoverable(w.target.value) != 0 && w.network == Script([Rejected])
    ensures var after := Reconcile(lib, w, now, clock).world;
            after.target.Some? && after.target.value.Replicas() == 0 && !Held(after)
  {
    hide Awake, NextEvent, Itoa, Atoi;
    var o := w.target.value;
    var f := FinalizerAttempt(w, o, o.Replicas());
    assert w.network.Rest() == HEALTHY;
    assert HandleFinalizer(w, o, o.Replicas(), RETRY_STEPS) == f == Attempt(w.(network := HEALTHY), o, false, f.error);
    HealthySleepEndsAtZero(f.world, o, NextEvent(s, now), clock);
    ActingKeepsFinalizers(f.world, o, o.Replicas(), TimeStateFor(lib, w.order.value.spec, now).value, clock);
  }

  // ----- Conflicts when it is taken off -----

  /** The next `k` writes are refused with a conflict, all later ones applied. */
  function Conflicts(k: nat): Network {
    Script(seq(k, _ => Conflict))
  }

  lemma {:induction false} TriesAgainstConflicts(w: World, copy: Workload, captured: Int32, tries: nat, k: nat)
    requires w.target.Some? && BeingReleased(w) && captured != 0 && tries > 0 && w.network == Conflicts(k)
    ensures var f := HandleFinalizer(w, copy, captured, tries);
            && f.world.target == w.target
            && (if k < tries then f.stop && f.error.None? && Released(f.world)
                else !f.stop && f.error == Some(WriteConflict)
                     && f.world == w.(network := Conflicts(k - tries)))
    decreases tries
  {
    var a := FinalizerAttempt(w, copy, captured);
    if k > 0 {
      assert w.network.Rest() == Conflicts(k - 1);
      assert a.world == w.(network := Conflicts(k - 1));
      if tries > 1 {
        TriesAgainstConflicts(a.world, a.copy, captured, tries - 1, k - 1);
      }
    }
  }

  /** A running workload's order is let go through up to four conflicts in a row.
      The fifth ends the attempts, and the pass goes on with the order still held. */
  lemma ReleaseThroughConflicts(lib: TimeLibrary, w: World, now: int, clock: int, k: nat)
    requires ActsOnTarget(lib, w, now) && BeingReleased(w) && w.target.value.Replicas() != 0
    requires w.network == Conflicts(k)
    ensures var p := Reconcile(lib, w, now, clock);
            && (Released(p.world) <==> k < 5)
            && (k < 5 ==> p.result == Ok(None) && p.world.target == w.target)
  {
    hide HandleFinalizer, ActOn;
    var o, time := w.target.value, TimeStateFor(lib, w.order.value.spec, now).value;
    var f := HandleFinalizer(w, o, o.Replicas(), RETRY_STEPS);
    TriesAgainstConflicts(w, o, o.Replicas(), RETRY_STEPS, k);
    if k >= 5 {
      ActingKeepsFinalizers(f.world, f.copy, o.Replicas(), time, clock);
    }
  }

  // ----- Passes that send nothing -----

  /** Made at `now`, a pass changes nothing and returns the same under every network,
      so it sends no write. */
  ghost predicate Quiet(lib: TimeLibrary, w: World, now: int, clock: int, next: int) {
    forall net :: Reconcile(lib, w.(network := net), now, clock) == Pass(w.(network := net), Ok(Some(next)))
  }

  lemma NextEventStays(s: Schedule, now: int, later: int)
    requires now <= later < NextEvent(s, now)
    ensures NextEvent(s, later) == NextEvent(s, now)
  {
    NextEventIsLeast(s, now);
    NextEventIsLeast(s, later);
  }

  /** After a completed pass, a pass made before the announced event repeats it
      without sending anything exactly when the workload is awake with a count and
      the finalizer is on; asleep, the workload is written each time. */
  lemma RepeatedPassIsQuiet(lib: TimeLibrary, w: World, s: Schedule, n: Int32,
                            now: int, clock: int, later: int, clock': int)
    requires Live(lib, w, s) && Holds(w, n) && Reconcile(lib, w, now, clock).result.Ok?
    requires s.wakeAt != s.sleepAt || s.wakeAt == 0 || UniformDays(s.days)
    requires now <= later < NextEvent(s, now)
    ensures var done := Reconcile(lib, w, now, clock).world;
            Quiet(lib, done, later, clock', NextEvent(s, now)) <==> Awake(s, now) && n != 0 && Held(done)
  {
    hide Reconcile, Awake, NextEvent, UniformDays;
    var done, next := Reconcile(lib, w, now, clock).world, NextEvent(s, now);
    PassBringsUpToDate(lib, w, s, n, now, clock);
    NextEventStays(s, now, later);
    SoundBetweenEvents(s, now, later);
    if Awake(s, now) && n != 0 && Held(done) {
      forall net
        ensures Reconcile(lib, done.(network := net), later, clock') == Pass(done.(network := net), Ok(Some(next)))
      {
        AwakeRepeatIsQuiet(lib, done.(network := net), s, later, clock');
      }
    } else if !Held(done) {
      LivePassAddsFinalizer(lib, done.(network := HEALTHY), s, later, clock');
      assert Reconcile(lib, done.(network := HEALTHY), later, clock') != Pass(done.(network := HEALTHY), Ok(Some(next)));
    } else {
      WriteIsNeeded(lib, done.(network := StopsAfter(0)), s, later, clock');
      assert Reconcile(lib, done.(network := StopsAfter(0)), later, clock')
          != Pass(done.(network := StopsAfter(0)), Ok(Some(next)));
    }
  }

  lemma AwakeRepeatIsQuiet(lib: TimeLibrary, w: World, s: Schedule, now: int, clock: int)
    requires Live(lib, w, s) && Held(w) && Awake(s, now)
    requires w.target.Some? && w.target.value.Replicas() != 0
    requires UpToDate(w, s, w.target.value.Replicas(), now)
    ensures Reconcile(lib, w, now, clock) == Pass(w, Ok(Some(NextEvent(s, now))))
  {
    hide HandleFinalizer, Awake, NextEvent;
    var o := w.target.value;
    LiveFinalizerStep(lib, w, s, o.Replicas(), RETRY_STEPS);
    LiveStepAddsFinalizer(w, o, o.Replicas(), RETRY_STEPS);
  }

  lemma WriteIsNeeded(lib: TimeLibrary, w: World, s: Schedule, now: int, clock: int)
    requires Live(lib, w, s) && Held(w) && w.target.Some? && w.network == StopsAfter(0)
    requires Awake(s, now) ==> w.target.value.Replicas() == 0
    ensures Reconcile(lib, w, now, clock).result.Err?
  {
    hide HandleFinalizer, Awake, NextEvent, Itoa, Atoi;
    var o := w.target.value;
    LiveFinalizerStep(lib, w, s, o.Replicas(), RETRY_STEPS);
    LiveStepAddsFinalizer(w, o, o.Replicas(), RETRY_STEPS);
  }
}
