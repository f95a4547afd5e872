/** Following the requeue chain, the workload's replicas track the ideal schedule. */
module Tracking {
  import opened Wrappers
  import opened Text
  import opened Api
  import opened Schedule
  import opened SleepOrderSpec
  import opened Conservation

  /** The order is not being deleted and its texts parse into schedule `s`. */
  predicate Live(lib: TimeLibrary, w: World, s: Schedule) {
    && w.order.Some? && !w.order.value.deleting
    && var spec := w.order.value.spec;
       && Supported(spec.target.kind)
       && ParseSchedule(lib, spec.wakeAt, spec.sleepAt, spec.timezone, spec.workingDays) == Ok(s)
  }

  /** The workload is at its count `n` or at zero, and `n` can be recovered. */
  predicate Holds(w: World, n: Int32) {
    && w.target.Some?
    && Recoverable(w.target.value) == n
    && (w.target.value.Replicas() == n || w.target.value.Replicas() == 0)
  }

  ghost predicate UpToDate(w: World, s: Schedule, n: Int32, now: int) {
    && w.target.Some? && w.order.Some?
    && w.target.value.Replicas() == (if Awake(s, now) then n else 0)
    && var status := w.order.value.status;
       && status.currentState == (if Awake(s, now) then AWAKE_STATE else SLEEPING_STATE)
       && status.nextOperationTime == Some(NextEvent(s, now))
       && status.originalReplicas == Some(n)
  }

  // ----- One pass of a live order -----

  lemma {:induction false} LiveFinalizerStep(lib: TimeLibrary, w: World, s: Schedule, captured: Int32, tries: nat)
    requires Live(lib, w, s) && w.target.Some?
    ensures var f := HandleFinalizer(w, w.target.value, captured, tries);
            && Live(lib, f.world, s) && !f.stop
            && f.world.target == w.target && f.copy == w.target.value && f.world.omitsEmpty == w.omitsEmpty
            && f.world.order.value.status == w.order.value.status
    decreases tries
  {
    var a := FinalizerAttempt(w, w.target.value, captured);
    if a.error == Some(WriteConflict) && tries > 1 {
      LiveFinalizerStep(lib, a.world, s, captured, tries - 1);
    }
  }

  lemma StatusReported(w: World, state: string, nextEvent: int, replicas: Option<Int32>, clock: int)
    requires w.order.Some?
    ensures var p := UpdateStatus(w, state, nextEvent, replicas, clock);
            && p.world.target == w.target && p.world.order.Some?
            && p.world.order.value.(status := w.order.value.status) == w.order.value
            && (p.result.Ok? ==>
                  && p.result == Ok(Some(nextEvent))
                  && p.world.order.value.status.currentState == state
                  && p.world.order.value.status.nextOperationTime == Some(nextEvent)
                  && p.world.order.value.status.originalReplicas == replicas)
  {
  }

  /** What a step promises: the count is held, and if it returns without error
      the replicas and the status are as given. */
  ghost predicate Promise(lib: TimeLibrary, p: Pass, s: Schedule, n: Int32,
                          replicas: Int32, state: string, nextEvent: int)
  {
    && Live(lib, p.world, s) && Holds(p.world, n)
    && (p.result.Ok? ==>
          && p.result == Ok(Some(nextEvent))
          && p.world.target.value.Replicas() == replicas
          && p.world.order.value.status.currentState == state
          && p.world.order.value.status.nextOperationTime == Some(nextEvent)
          && p.world.order.value.status.originalReplicas == Some(n))
  }

  lemma LiveScaleDown(lib: TimeLibrary, w: World, copy: Workload, s: Schedule, n: Int32, nextEvent: int, clock: int)
    requires Live(lib, w, s) && Holds(w, n)
    requires copy.Saved().Some? && Recoverable(copy) == n
    ensures Promise(lib, ScaleDown(w, copy, n, nextEvent, clock), s, n, 0, SLEEPING_STATE, nextEvent)
  {
    ScaleDownKeepsCount(w, copy, n, nextEvent, clock);
    StoredIsEquivalent(copy.Scaled(0), w.omitsEmpty);
    var sent := UpdateTarget(w, copy.Scaled(0));
    StatusReported(sent.world, SLEEPING_STATE, nextEvent, Some(n), clock);
  }

  lemma LiveSleep(lib: TimeLibrary, w: World, s: Schedule, n: Int32, nextEvent: int, clock: int)
    requires Live(lib, w, s) && Holds(w, n)
    ensures Promise(lib, HandleSleep(w, w.target.value, nextEvent, clock), s, n, 0, SLEEPING_STATE, nextEvent)
  {
    hide ScaleDown, Itoa, Atoi;
    var o := w.target.value;
    if o.Saved().Some? {
      if Atoi(o.Saved().value).Some? {
        LiveScaleDown(lib, w, o, s, n, nextEvent, clock);
      }
    } else {
      var saved := o.WithSaved(Itoa(n));
      SnapshotSavesCount(o, n);
      StoredIsEquivalent(saved, w.omitsEmpty);
      var snapshot := SnapshotReplicas(w, o);
      if snapshot.result.Ok? {
        LiveScaleDown(lib, snapshot.world, saved, s, n, nextEvent, clock);
      }
    }
  }

  lemma LiveWake(lib: TimeLibrary, w: World, s: Schedule, n: Int32, nextEvent: int, clock: int)
    requires Live(lib, w, s) && Holds(w, n)
    ensures Promise(lib, HandleWake(w, w.target.value.Replicas(), nextEvent, clock), s, n, n, AWAKE_STATE, nextEvent)
  {
    var o := w.target.value;
    WakeKeepsCount(w, o.Replicas(), nextEvent, clock);
    if o.Replicas() == 0 {
      var r := RestoreReplicas(w);
      RestoreCases(w);
      if o.Saved().Some? {
        StoredIsEquivalent(Restored(o), w.omitsEmpty);
      }
      if r.result.Ok? {
        assert r.result.value == n;
        var again := r.copy.Scaled(n);
        StoredIsEquivalent(again, w.omitsEmpty);
        StatusReported(UpdateTarget(r.world, again).world, AWAKE_STATE, nextEvent, Some(n), clock);
      }
    } else {
      StatusReported(w, AWAKE_STATE, nextEvent, Some(n), clock);
    }
    hide RestoreReplicas, UpdateStatus, Recoverable, Stored, Restored, Atoi;
  }

  /** A pass that returns without error leaves the workload as the ideal schedule
      wants it, a truthful status, and asks to be called at the next event; a pass
      that fails anywhere still holds the count. */
  lemma PassBringsUpToDate(lib: TimeLibrary, w: World, s: Schedule, n: Int32, now: int, clock: int)
    requires Live(lib, w, s) && Holds(w, n)
    ensures var p := Reconcile(lib, w, now, clock);
            && Live(lib, p.world, s) && Holds(p.world, n)
            && (p.result.Ok? ==> UpToDate(p.world, s, n, now) && p.result == Ok(Some(NextEvent(s, now))))
  {
    hide Awake, NextEvent, HandleSleep, HandleWake, HandleFinalizer;
    var o := w.target.value;
    LiveFinalizerStep(lib, w, s, o.Replicas(), RETRY_STEPS);
    var f := HandleFinalizer(w, o, o.Replicas(), RETRY_STEPS);
    LiveSleep(lib, f.world, s, n, NextEvent(s, now), clock);
    LiveWake(lib, f.world, s, n, NextEvent(s, now), clock);
  }

  /** Without failing writes a pass completes exactly when the object it has to
      read can be read; so it does whenever the count is not zero. */
  lemma HealthyPassCompletes(lib: TimeLibrary, w: World, s: Schedule, now: int, clock: int)
    requires Live(lib, w, s) && w.target.Some? && w.network == HEALTHY
    ensures var o := w.target.value;
            Reconcile(lib, w, now, clock).result.Ok? <==>
              if Awake(s, now) then o.Replicas() != 0 || Restorable(o)
              else o.Saved().None? || Atoi(o.Saved().value).Some?
    ensures Recoverable(w.target.value) != 0 ==> Reconcile(lib, w, now, clock).result.Ok?
  {
    hide Awake, NextEvent;
  }

  // ----- Runs -----

  datatype Tick = Tick(now: int, clock: int, network: Network)

  ghost function After(lib: TimeLibrary, w: World, ticks: seq<Tick>): World
    decreases |ticks|, 1
  {
    if ticks == [] then w else LastPass(lib, w, ticks).world
  }

  ghost function LastPass(lib: TimeLibrary, w: World, ticks: seq<Tick>): Pass
    requires ticks != []
    decreases |ticks|, 0
  {
    var last := ticks[|ticks| - 1];
    Reconcile(lib, After(lib, w, ticks[..|ticks| - 1]).(network := last.network), last.now, last.clock)
  }

  predicate Ordered(ticks: seq<Tick>) {
    forall i, j :: 0 <= i < j < |ticks| ==> ticks[i].now < ticks[j].now
  }

  /** The passes made up to and including instant `x`. */
  function UpTo(ticks: seq<Tick>, x: int): (r: seq<Tick>)
    ensures |r| <= |ticks| && r == ticks[..|r|]
    ensures r != [] ==> r[|r| - 1].now <= x
    ensures Ordered(ticks) ==> forall i :: |r| <= i < |ticks| ==> ticks[i].now > x
  {
    if ticks == [] || ticks[|ticks| - 1].now <= x then ticks
    else
      var r := UpTo(ticks[..|ticks| - 1], x);
      assert ticks[..|ticks| - 1][..|r|] == ticks[..|r|];
      r
  }

  /** The replicas at instant `x`, between passes nothing changes. */
  ghost function ReplicasAt(lib: TimeLibrary, w: World, ticks: seq<Tick>, x: int): int {
    var target := After(lib, w, UpTo(ticks, x)).target;
    if target.None? then 0 else target.value.Replicas()
  }

  lemma {:induction false} RunHolds(lib: TimeLibrary, w: World, s: Schedule, n: Int32, ticks: seq<Tick>)
    requires Live(lib, w, s) && Holds(w, n)
    ensures Live(lib, After(lib, w, ticks), s) && Holds(After(lib, w, ticks), n)
  {
    if ticks != [] {
      var front, last := ticks[..|ticks| - 1], ticks[|ticks| - 1];
      RunHolds(lib, w, s, n, front);
      PassBringsUpToDate(lib, After(lib, w, front).(network := last.network), s, n, last.now, last.clock);
    }
  }

  /** Whole-run tracking: whatever the network did to earlier passes, from a pass
      that completed until the event it announced the workload has its count
      exactly while the ideal schedule is awake, and zero replicas otherwise. */
  lemma ReplicasTrackSchedule(lib: TimeLibrary, w: World, s: Schedule, n: Int32, ticks: seq<Tick>, x: int)
    requires Live(lib, w, s) && Holds(w, n)
    requires s.wakeAt != s.sleepAt || s.wakeAt == 0 || UniformDays(s.days)
    requires UpTo(ticks, x) != [] && LastPass(lib, w, UpTo(ticks, x)).result.Ok?
    requires x < NextEvent(s, UpTo(ticks, x)[|UpTo(ticks, x)| - 1].now)
    ensures ReplicasAt(lib, w, ticks, x) == if Awake(s, x) then n else 0
  {
    hide Awake, NextEvent;
    var done := UpTo(ticks, x);
    var front, last := done[..|done| - 1], done[|done| - 1];
    RunHolds(lib, w, s, n, front);
    PassBringsUpToDate(lib, After(lib, w, front).(network := last.network), s, n, last.now, last.clock);
    SoundBetweenEvents(s, last.now, x);
  }

  /** A pass that returned without error, or met no failing write. */
  ghost predicate Sound(lib: TimeLibrary, w: World, ticks: seq<Tick>)
    requires ticks != []
  {
    LastPass(lib, w, ticks).result.Ok? || ticks[|ticks| - 1].network == HEALTHY
  }

  /** The same for a pass of which only the network is known: if its writes do not
      fail, the workload tracks the schedule until the next event, whatever the
      network did to earlier passes. */
  lemma SoundPassTracksSchedule(lib: TimeLibrary, w: World, s: Schedule, n: Int32, ticks: seq<Tick>, x: int)
    requires Live(lib, w, s) && Holds(w, n)
    requires s.wakeAt != s.sleepAt || s.wakeAt == 0 || UniformDays(s.days)
    requires UpTo(ticks, x) != [] && Sound(lib, w, UpTo(ticks, x))
    requires x < NextEvent(s, UpTo(ticks, x)[|UpTo(ticks, x)| - 1].now)
    ensures ReplicasAt(lib, w, ticks, x) == if Awake(s, x) then n else 0
  {
    hide Awake, NextEvent, Reconcile;
    var done := UpTo(ticks, x);
    if n == 0 {
      RunHolds(lib, w, s, n, done);
    } else {
      var front, last := done[..|done| - 1], done[|done| - 1];
      RunHolds(lib, w, s, n, front);
      if last.network == HEALTHY {
        HealthyPassCompletes(lib, After(lib, w, front).(network := HEALTHY), s, last.now, last.clock);
      }
      ReplicasTrackSchedule(lib, w, s, n, ticks, x);
    }
  }

  /** No pass fails, and the next one comes no later than `lag` after the event the
      last one announced. */
  ghost predicate Prompt(lib: TimeLibrary, w: World, s: Schedule, ticks: seq<Tick>, lag: nat) {
    && Ordered(ticks)
    && (forall i :: 0 < i <= |ticks| ==> Sound(lib, w, ticks[..i]))
    && (forall i, j :: 0 <= i && j == i + 1 < |ticks| ==> ticks[j].now <= NextEvent(s, ticks[i].now) + lag)
  }

  /** On a prompt run the workload can differ from the ideal only in the lag
      between an announced event and the pass that follows it. */
  lemma DisagreementIsConfined(lib: TimeLibrary, w: World, s: Schedule, n: Int32,
                               ticks: seq<Tick>, lag: nat, x: int) returns (i: nat)
    requires Live(lib, w, s) && Holds(w, n)
    requires s.wakeAt != s.sleepAt || s.wakeAt == 0 || UniformDays(s.days)
    requires Prompt(lib, w, s, ticks, lag)
    requires ticks != [] && ticks[0].now <= x < NextEvent(s, ticks[|ticks| - 1].now) + lag
    ensures i < |ticks| && ticks[i].now <= x < NextEvent(s, ticks[i].now) + lag
    ensures i + 1 < |ticks| ==> x < ticks[i + 1].now
    ensures ReplicasAt(lib, w, ticks, x) == (if Awake(s, x) then n else 0)
         || NextEvent(s, ticks[i].now) <= x
  {
    hide Awake, NextEvent;
    var done := UpTo(ticks, x);
    assert done != [];
    i := |done| - 1;
    assert Sound(lib, w, ticks[..|done|]);
    if i + 1 < |ticks| {
      var j := i + 1;
      assert ticks[j].now > x;
      assert ticks[j].now <= NextEvent(s, ticks[i].now) + lag;
    }
    if x < NextEvent(s, ticks[i].now) {
      SoundPassTracksSchedule(lib, w, s, n, ticks, x);
    }
  }

  // ----- Runs of completed passes -----

  ghost predicate AllComplete(lib: TimeLibrary, w: World, ticks: seq<Tick>) {
    forall i :: 0 < i <= |ticks| ==> LastPass(lib, w, ticks[..i]).result.Ok?
  }

  /** Without failing writes every pass of a run completes, if the count is not zero. */
  lemma HealthyRunCompletes(lib: TimeLibrary, w: World, s: Schedule, n: Int32, ticks: seq<Tick>)
    requires Live(lib, w, s) && Holds(w, n) && n != 0
    requires forall i :: 0 <= i < |ticks| ==> ticks[i].network == HEALTHY
    ensures AllComplete(lib, w, ticks)
  {
    hide Reconcile;
    forall i | 0 < i <= |ticks| ensures LastPass(lib, w, ticks[..i]).result.Ok? {
      var front, last := ticks[..i][..i - 1], ticks[..i][i - 1];
      RunHolds(lib, w, s, n, front);
      HealthyPassCompletes(lib, After(lib, w, front).(network := HEALTHY), s, last.now, last.clock);
    }
  }

  /** After the last of some passes the workload and the status are up to date. */
  lemma RunBringsUpToDate(lib: TimeLibrary, w: World, s: Schedule, n: Int32, ticks: seq<Tick>)
    requires Live(lib, w, s) && Holds(w, n)
    requires ticks != [] && LastPass(lib, w, ticks).result.Ok?
    ensures UpToDate(After(lib, w, ticks), s, n, ticks[|ticks| - 1].now)
  {
    hide Reconcile, UpToDate;
    var front, last := ticks[..|ticks| - 1], ticks[|ticks| - 1];
    RunHolds(lib, w, s, n, front);
    PassBringsUpToDate(lib, After(lib, w, front).(network := last.network), s, n, last.now, last.clock);
  }
}
