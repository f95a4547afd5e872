/** What the status of an order remembers about the passes made so far. */
module StatusHistory {
  import opened Wrappers
  import opened Api
  import opened Schedule
  import opened SleepOrderSpec
  import opened Tracking

  ghost function StateAt(s: Schedule, t: int): string {
    if Awake(s, t) then "Awake" else "Sleeping"
  }

  /** Pass `i` finds a state other than the one before it, which for the first pass
      is the one stored at the start. */
  ghost predicate Transition(s: Schedule, initial: string, ticks: seq<Tick>, i: int)
    requires 0 <= i < |ticks|
  {
    if i == 0 then StateAt(s, ticks[0].now) != initial
    else Awake(s, ticks[i].now) != Awake(s, ticks[i - 1].now)
  }

  /** The index of the latest transition, or -1. */
  ghost function LatestTransition(s: Schedule, initial: string, ticks: seq<Tick>): (i: int)
    ensures -1 <= i < |ticks|
    ensures i >= 0 ==> Transition(s, initial, ticks, i)
    ensures forall k :: i < k < |ticks| ==> !Transition(s, initial, ticks, k)
  {
    if ticks == [] then -1
    else if Transition(s, initial, ticks, |ticks| - 1) then |ticks| - 1
    else
      var front := ticks[..|ticks| - 1];
      assert forall k :: 0 <= k < |front| ==> (Transition(s, initial, front, k) <==> Transition(s, initial, ticks, k));
      LatestTransition(s, initial, front)
  }

  // ----- One pass -----

  /** A step that only writes its status at the end. */
  predicate Reports(p: Pass, before: OrderStatus, state: string, clock: int) {
    p.result.Ok? ==>
      && p.world.order.Some?
      && p.world.order.value.status.lastTransitionTime ==
           if before.currentState != state then Some(clock) else before.lastTransitionTime
  }

  lemma SleepReports(w: World, copy: Workload, nextEvent: int, clock: int)
    requires w.target.Some? && w.order.Some?
    ensures Reports(HandleSleep(w, copy, nextEvent, clock), w.order.value.status, SLEEPING_STATE, clock)
  {
  }

  lemma WakeReports(w: World, current: Int32, nextEvent: int, clock: int)
    requires w.target.Some? && w.order.Some?
    ensures Reports(HandleWake(w, current, nextEvent, clock), w.order.value.status, AWAKE_STATE, clock)
  {
  }

  lemma PassSetsTransitionTime(lib: TimeLibrary, w: World, s: Schedule, now: int, clock: int)
    requires Live(lib, w, s) && w.target.Some?
    ensures Reports(Reconcile(lib, w, now, clock), w.order.value.status, StateAt(s, now), clock)
  {
    hide Awake, NextEvent, HandleSleep, HandleWake, HandleFinalizer, Reports;
    var o := w.target.value;
    LiveFinalizerStep(lib, w, s, o.Replicas(), RETRY_STEPS);
    var f := HandleFinalizer(w, o, o.Replicas(), RETRY_STEPS);
    SleepReports(f.world, o, NextEvent(s, now), clock);
    WakeReports(f.world, o.Replicas(), NextEvent(s, now), clock);
  }

  // ----- Runs -----

  /** After any run of completed passes of a live order, under whatever network, the
      stored state, next operation and replicas are the last pass's, and the last
      transition time is the clock of the latest pass that found the schedule in a
      state other than the pass before it, or as it was if there was none: skipping
      unchanged status writes loses nothing. */
  lemma {:induction false} StatusRemembersRun(lib: TimeLibrary, w: World, s: Schedule, n: Int32, ticks: seq<Tick>)
    requires Live(lib, w, s) && Holds(w, n)
    requires ticks != [] && AllComplete(lib, w, ticks)
    ensures After(lib, w, ticks).order.Some?
    ensures var initial, status := w.order.value.status, After(lib, w, ticks).order.value.status;
            var last, latest := ticks[|ticks| - 1], LatestTransition(s, initial.currentState, ticks);
            && status.currentState == StateAt(s, last.now)
            && status.nextOperationTime == Some(NextEvent(s, last.now))
            && status.originalReplicas == Some(n)
            && status.lastTransitionTime ==
                 if latest == -1 then initial.lastTransitionTime else Some(ticks[latest].clock)
  {
    hide Awake, NextEvent, Reconcile;
    var front, last := ticks[..|ticks| - 1], ticks[|ticks| - 1];
    assert ticks[..|ticks|] == ticks;
    RunBringsUpToDate(lib, w, s, n, ticks);
    RunHolds(lib, w, s, n, front);
    PassSetsTransitionTime(lib, After(lib, w, front).(network := last.network), s, last.now, last.clock);
    if front != [] {
      assert forall i :: 0 < i <= |front| ==> front[..i] == ticks[..i];
      StatusRemembersRun(lib, w, s, n, front);
      assert ticks[|ticks| - 2] == front[|front| - 1];
    }
  }
}
