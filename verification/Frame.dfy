/** What passes of an order leave alone, and what they report when they cannot act. */
module Frame {
  import opened Wrappers
  import opened Text
  import opened Api
  import opened Schedule
  import opened SleepOrderSpec
  import opened Conservation

  /** The annotations other than the snapshot; nil and empty maps are alike. */
  function Others(o: Workload): map<string, string> {
    if o.annotations.None? then map[] else o.annotations.value - {ORIGINAL_REPLICAS_KEY}
  }

  /** Of the workload only count and snapshot may differ, of the order only the
      status and the controller's own finalizer; an order is gone only if it was
      terminating and nothing else held it. */
  predicate SameElse(before: World, after: World) {
    && (before.target.Some? <==> after.target.Some?)
    && (before.target.Some? ==> Others(after.target.value) == Others(before.target.value))
    && (after.order.Some? ==>
          && before.order.Some?
          && after.order.value.finalizers - {SLEEP_ORDER_FINALIZER} ==
               before.order.value.finalizers - {SLEEP_ORDER_FINALIZER}
          && after.order.value ==
               before.order.value.(finalizers := after.order.value.finalizers, status := after.order.value.status))
    && (before.order.Some? && after.order.None? ==>
          before.order.value.deleting && before.order.value.finalizers - {SLEEP_ORDER_FINALIZER} == {})
  }

  /** A copy in memory with the other annotations of the stored object. */
  predicate Alike(w: World, copy: Workload) {
    w.target.Some? && Others(copy) == Others(w.target.value)
  }

  lemma SameElseJoins(a: World, b: World, c: World)
    requires SameElse(a, b) && SameElse(b, c)
    ensures SameElse(a, c)
  {
    hide Others;
  }

  lemma TargetWriteTouchesOnly(w: World, copy: Workload)
    requires Alike(w, copy)
    ensures var sent := UpdateTarget(w, copy); SameElse(w, sent.world) && Alike(sent.world, copy)
  {
  }

  lemma OwnFinalizerWriteTouchesOnly(w: World, finalizers: set<string>)
    requires w.order.Some?
    requires finalizers - {SLEEP_ORDER_FINALIZER} == w.order.value.finalizers - {SLEEP_ORDER_FINALIZER}
    ensures var sent := UpdateOrder(w, w.order.value.(finalizers := finalizers));
            SameElse(w, sent.world) && sent.world.target == w.target
  {
    hide Others;
  }

  lemma RestoreTouchesOnly(w: World)
    requires w.target.Some?
    ensures var r := RestoreReplicas(w); SameElse(w, r.world) && Alike(r.world, r.copy)
  {
    var copy := w.target.value;
    if Restorable(copy) && copy.Saved().Some? && copy.Saved().value != "" {
      TargetWriteTouchesOnly(w, Restored(copy));
    }
  }

  lemma ReleaseTouchesOnly(w: World, copy: Workload)
    requires w.order.Some? && Alike(w, copy)
    ensures var a := ReleaseOrder(w, copy, w.order.value); SameElse(w, a.world) && Alike(a.world, a.copy)
  {
    OwnFinalizerWriteTouchesOnly(w, w.order.value.finalizers - {SLEEP_ORDER_FINALIZER});
  }

  lemma AttemptTouchesOnly(w: World, copy: Workload, captured: Int32)
    requires Alike(w, copy)
    ensures var a := FinalizerAttempt(w, copy, captured); SameElse(w, a.world) && Alike(a.world, a.copy)
  {
    hide Others, UpdateTarget, UpdateOrder, RestoreReplicas, ReleaseOrder;
    if w.order.Some? {
      var order := w.order.value;
      if !order.deleting {
        OwnFinalizerWriteTouchesOnly(w, order.finalizers + {SLEEP_ORDER_FINALIZER});
      } else if captured != 0 {
        ReleaseTouchesOnly(w, copy);
      } else {
        var r := RestoreReplicas(w);
        RestoreTouchesOnly(w);
        RestoreKeepsOrder(w);
        if r.result.Ok? {
          var again := r.copy.Scaled(r.result.value);
          ScalingTouchesOnly(r.copy, r.result.value);
          var sent := UpdateTarget(r.world, again);
          TargetWriteTouchesOnly(r.world, again);
          TargetWriteKeepsOrder(r.world, again);
          ReleaseTouchesOnly(sent.world, again);
          SameElseJoins(w, r.world, sent.world);
          SameElseJoins(w, sent.world, ReleaseOrder(sent.world, again, order).world);
        }
      }
    }
  }

  lemma ScalingTouchesOnly(o: Workload, n: Int32)
    ensures Others(o.Scaled(n)) == Others(o)
  {
  }

  lemma RestoreKeepsOrder(w: World)
    requires w.target.Some?
    ensures RestoreReplicas(w).world.order == w.order
  {
  }

  lemma TargetWriteKeepsOrder(w: World, copy: Workload)
    ensures UpdateTarget(w, copy).world.order == w.order
  {
  }

  lemma {:induction false} FinalizerStepTouchesOnly(w: World, copy: Workload, captured: Int32, tries: nat)
    requires Alike(w, copy)
    ensures var f := HandleFinalizer(w, copy, captured, tries); SameElse(w, f.world) && Alike(f.world, f.copy)
    decreases tries
  {
    hide FinalizerAttempt, SameElse;
    var a := FinalizerAttempt(w, copy, captured);
    AttemptTouchesOnly(w, copy, captured);
    if a.error == Some(WriteConflict) && tries > 1 {
      FinalizerStepTouchesOnly(a.world, a.copy, captured, tries - 1);
      SameElseJoins(w, a.world, HandleFinalizer(a.world, a.copy, captured, tries - 1).world);
    }
  }

  lemma StatusTouchesOnly(w: World, state: string, nextEvent: int, replicas: Option<Int32>, clock: int)
    ensures var p := UpdateStatus(w, state, nextEvent, replicas, clock);
            SameElse(w, p.world) && p.world.target == w.target
  {
    hide Others;
  }

  lemma ScaleDownTouchesOnly(w: World, copy: Workload, original: Int32, nextEvent: int, clock: int)
    requires Alike(w, copy)
    ensures SameElse(w, ScaleDown(w, copy, original, nextEvent, clock).world)
  {
    ScalingTouchesOnly(copy, 0);
    hide Others, UpdateTarget, UpdateStatus, SameElse;
    var sent := UpdateTarget(w, copy.Scaled(0));
    TargetWriteTouchesOnly(w, copy.Scaled(0));
    StatusTouchesOnly(sent.world, SLEEPING_STATE, nextEvent, Some(original), clock);
    SameElseJoins(w, sent.world, UpdateStatus(sent.world, SLEEPING_STATE, nextEvent, Some(original), clock).world);
  }

  lemma SleepTouchesOnly(w: World, copy: Workload, nextEvent: int, clock: int)
    requires Alike(w, copy)
    ensures SameElse(w, HandleSleep(w, copy, nextEvent, clock).world)
  {
    hide ScaleDown, SameElse, UpdateTarget;
    if copy.Saved().None? {
      var s := SnapshotReplicas(w, copy);
      TargetWriteTouchesOnly(w, s.copy);
      if s.result.Ok? {
        ScaleDownTouchesOnly(s.world, s.copy, s.result.value, nextEvent, clock);
        SameElseJoins(w, s.world, ScaleDown(s.world, s.copy, s.result.value, nextEvent, clock).world);
      }
    } else {
      forall n: Int32 ensures SameElse(w, ScaleDown(w, copy, n, nextEvent, clock).world) {
        ScaleDownTouchesOnly(w, copy, n, nextEvent, clock);
      }
      SameElseStays(w);
    }
  }

  lemma SameElseStays(w: World)
    ensures SameElse(w, w)
  {
  }

  lemma WakeTouchesOnly(w: World, current: Int32, nextEvent: int, clock: int)
    requires w.target.Some?
    ensures SameElse(w, HandleWake(w, current, nextEvent, clock).world)
  {
    hide Others, UpdateTarget, UpdateStatus, RestoreReplicas, SameElse;
    if current != 0 {
      StatusTouchesOnly(w, AWAKE_STATE, nextEvent, Some(current), clock);
    } else {
      var r := RestoreReplicas(w);
      RestoreTouchesOnly(w);
      if r.result.Ok? {
        var again := r.copy.Scaled(r.result.value);
        ScalingTouchesOnly(r.copy, r.result.value);
        var sent := UpdateTarget(r.world, again);
        TargetWriteTouchesOnly(r.world, again);
        StatusTouchesOnly(sent.world, AWAKE_STATE, nextEvent, Some(r.result.value), clock);
        SameElseJoins(w, r.world, sent.world);
        SameElseJoins(w, sent.world,
                      UpdateStatus(sent.world, AWAKE_STATE, nextEvent, Some(r.result.value), clock).world);
      }
    }
  }

  /** No pass, whatever the network answers, touches anything else. */
  lemma PassTouchesOnly(lib: TimeLibrary, w: World, now: int, clock: int)
    ensures SameElse(w, Reconcile(lib, w, now, clock).world)
  {
    hide SameElse, HandleFinalizer, HandleSleep, HandleWake, UpdateStatus, UpdateOrder;
    SameElseStays(w);
    if ActsOnTarget(lib, w, now) {
      var o, time := w.target.value, TimeStateFor(lib, w.order.value.spec, now).value;
      var f := HandleFinalizer(w, o, o.Replicas(), RETRY_STEPS);
      FinalizerStepTouchesOnly(w, o, o.Replicas(), RETRY_STEPS);
      SleepTouchesOnly(f.world, f.copy, time.nextEvent, clock);
      WakeTouchesOnly(f.world, o.Replicas(), time.nextEvent, clock);
      SameElseJoins(w, f.world, ActOn(f.world, f.copy, o.Replicas(), time, clock).world);
    } else if w.order.Some? && w.target.None? {
      var finalizers := w.order.value.finalizers - {SLEEP_ORDER_FINALIZER};
      var sent := UpdateOrder(w, w.order.value.(finalizers := finalizers));
      OwnFinalizerWriteTouchesOnly(w, finalizers);
      StatusTouchesOnly(sent.world, TARGET_NOT_FOUND_STATE, now + MINUTE, None, clock);
      SameElseJoins(w, sent.world, UpdateStatus(sent.world, TARGET_NOT_FOUND_STATE, now + MINUTE, None, clock).world);
    }
  }

  /** So over every run, failing and conflicting writes included, a workload keeps
      all its annotations but the snapshot. */
  lemma {:induction false} OtherAnnotationsAreKept(lib: TimeLibrary, w: World, events: seq<Event>)
    requires w.target.Some?
    ensures Alike(Run(lib, w, events), w.target.value)
  {
    hide Reconcile;
    if events != [] {
      var front, e := events[..|events| - 1], events[|events| - 1];
      OtherAnnotationsAreKept(lib, w, front);
      if e.Passed? {
        PassTouchesOnly(lib, Run(lib, w, front).(network := e.network), e.now, e.clock);
      }
    }
  }

  // ----- Passes that cannot act -----

  /** Errors that only show once a pass acts. */
  predicate MetWhileActing(e: PassError) {
    !e.UnsupportedKind? && !e.BadSchedule?
  }

  lemma {:induction false} FinalizerStepErrors(w: World, copy: Workload, captured: Int32, tries: nat)
    requires w.target.Some?
    ensures var f := HandleFinalizer(w, copy, captured, tries); f.error.Some? ==> MetWhileActing(f.error.value)
    decreases tries
  {
    var a := FinalizerAttempt(w, copy, captured);
    if a.error == Some(WriteConflict) && tries > 1 {
      FinalizerStepErrors(a.world, a.copy, captured, tries - 1);
    }
  }

  lemma ActErrors(w: World, copy: Workload, captured: Int32, time: TimeState, clock: int)
    requires w.target.Some?
    ensures var p := ActOn(w, copy, captured, time, clock); p.result.Err? ==> MetWhileActing(p.result.error)
  {
    hide Stored, Itoa, Atoi;
  }

  /** An order of an unknown kind, or one of whose texts cannot be read, is reported
      as such, and nothing is sent; an order that is gone is no error. */
  lemma ErrorsNameTheirCause(lib: TimeLibrary, w: World, now: int, clock: int, e: ScheduleError)
    ensures w.order.None? ==> Reconcile(lib, w, now, clock) == Pass(w, Ok(None))
    ensures w.order.Some? ==>
            var p, spec := Reconcile(lib, w, now, clock), w.order.value.spec;
            && (p.result == Err(UnsupportedKind) <==> spec.target.kind !in {"Deployment", "StatefulSet"})
            && (p.result == Err(BadSchedule(e)) <==>
                  && spec.target.kind in {"Deployment", "StatefulSet"} && w.target.Some?
                  && NamesBadText(lib, spec.wakeAt, spec.sleepAt, spec.timezone, e))
            && (p.result == Err(UnsupportedKind) || p.result == Err(BadSchedule(e)) ==> p.world == w)
  {
    if w.order.None? {
      return;
    }
    var spec := w.order.value.spec;
    TimeStateReadsTexts(lib, now, spec.wakeAt, spec.sleepAt, spec.timezone, spec.workingDays);
    if ActsOnTarget(lib, w, now) {
      var o, time := w.target.value, TimeStateFor(lib, spec, now).value;
      var f := HandleFinalizer(w, o, o.Replicas(), RETRY_STEPS);
      FinalizerStepErrors(w, o, o.Replicas(), RETRY_STEPS);
      ActErrors(f.world, f.copy, o.Replicas(), time, clock);
    }
    hide TimeStateOf, HandleFinalizer, ActOn, UpdateOrder;
  }

  /** An order whose workload is gone loses the controller's finalizer, terminating or
      not. If it is still there after that, a pass without failing writes says so in
      the status and asks to be called a minute later. */
  lemma MissingTargetIsReported(lib: TimeLibrary, w: World, now: int, clock: int)
    requires w.order.Some? && Supported(w.order.value.spec.target.kind) && w.target.None?
    ensures var p, order := Reconcile(lib, w, now, clock), w.order.value;
            var others, former := order.finalizers - {SLEEP_ORDER_FINALIZER}, order.status;
            var report := OrderStatus("Error TargetNotFound", None,
                                      if former.currentState == "Error TargetNotFound" then former.lastTransitionTime
                                      else Some(clock),
                                      Some(now + 60_000_000_000));
            && p.world.target.None?
            && (w.network == HEALTHY ==>
                  if order.deleting && others == {} then p.world.order.None? && p.result == Err(OrderNotFound)
                  else p.result.Ok?)
            && (p.result.Ok? ==>
                  && p.result == Ok(Some(now + 60_000_000_000))
                  && p.world.order == Some(order.(finalizers := others, status := report)))
  {
  }
}
