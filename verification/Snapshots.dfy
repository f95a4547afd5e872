/** The saved count is written once per sleep, and outlives whatever others do
    to the sleeping workload. */
module Snapshots {
  import opened Wrappers
  import opened Text
  import opened Api
  import opened Schedule
  import opened SleepOrderSpec
  import opened Conservation
  import opened Tracking

  /** While the schedule is asleep: passes under any network, and outside scaling. */
  datatype NightEvent = NightPass(tick: Tick) | ScaledOutside(replicas: Int32)

  ghost function NightStep(lib: TimeLibrary, w: World, e: NightEvent): World {
    match e
    case NightPass(tick) => Reconcile(lib, w.(network := tick.network), tick.now, tick.clock).world
    case ScaledOutside(n) => if w.target.None? then w else w.(target := Some(w.target.value.Scaled(n)))
  }

  ghost function Night(lib: TimeLibrary, w: World, events: seq<NightEvent>): World {
    if events == [] then w else NightStep(lib, Night(lib, w, events[..|events| - 1]), events[|events| - 1])
  }

  ghost predicate AllAsleep(s: Schedule, events: seq<NightEvent>) {
    forall i :: 0 <= i < |events| && events[i].NightPass? ==> !Awake(s, events[i].tick.now)
  }

  predicate Saves(w: World, text: string) {
    w.target.Some? && w.target.value.Saved() == Some(text)
  }

  lemma NightPassKeepsSnapshot(lib: TimeLibrary, w: World, s: Schedule, text: string, now: int, clock: int)
    requires Live(lib, w, s) && Saves(w, text) && !Awake(s, now)
    ensures var p := Reconcile(lib, w, now, clock);
            && Live(lib, p.world, s) && Saves(p.world, text)
            && (p.result.Ok? ==> p.world.target.value.Replicas() == 0)
  {
    hide Awake, NextEvent, HandleFinalizer, Atoi;
    var o := w.target.value;
    LiveFinalizerStep(lib, w, s, o.Replicas(), RETRY_STEPS);
    StoredIsEquivalent(o.Scaled(0), w.omitsEmpty);
  }

  lemma FirstNightPassSaves(lib: TimeLibrary, w: World, s: Schedule, now: int, clock: int)
    requires Live(lib, w, s) && w.target.Some? && w.target.value.Saved().None? && !Awake(s, now)
    ensures var p := Reconcile(lib, w, now, clock);
            && Live(lib, p.world, s)
            && (p.result.Ok? ==> Saves(p.world, Itoa(w.target.value.Replicas())))
            && (p.result.Ok? ==> p.world.target.value.Replicas() == 0)
  {
    hide Awake, NextEvent, HandleFinalizer, Itoa, ScaleDown;
    var o := w.target.value;
    var n := o.Replicas();
    LiveFinalizerStep(lib, w, s, n, RETRY_STEPS);
    var here := HandleFinalizer(w, o, n, RETRY_STEPS).world;
    var saved := o.WithSaved(Itoa(n));
    StoredIsEquivalent(saved, w.omitsEmpty);
    var snapshot := SnapshotReplicas(here, o);
    if snapshot.result.Ok? {
      ScaleDownLeavesZero(lib, snapshot.world, saved, s, n, NextEvent(s, now), clock);
    }
  }

  lemma ScaleDownLeavesZero(lib: TimeLibrary, w: World, copy: Workload, s: Schedule, n: Int32, nextEvent: int, clock: int)
    requires Live(lib, w, s) && w.target.Some? && copy.Saved().Some?
    ensures var p := ScaleDown(w, copy, n, nextEvent, clock);
            && Live(lib, p.world, s)
            && (p.result.Ok? ==> Saves(p.world, copy.Saved().value))
            && (p.result.Ok? ==> p.world.target.value.Replicas() == 0)
  {
  }

  lemma {:induction false} NightKeepsSnapshot(lib: TimeLibrary, w: World, s: Schedule, text: string, events: seq<NightEvent>)
    requires Live(lib, w, s) && Saves(w, text) && AllAsleep(s, events)
    ensures Live(lib, Night(lib, w, events), s) && Saves(Night(lib, w, events), text)
  {
    if events != [] {
      var front, e := events[..|events| - 1], events[|events| - 1];
      NightKeepsSnapshot(lib, w, s, text, front);
      if e.NightPass? {
        NightPassKeepsSnapshot(lib, Night(lib, w, front).(network := e.tick.network), s, text, e.tick.now, e.tick.clock);
      }
    }
  }

  /** After the first completed sleep pass the snapshot holds that pass's count, and
      it still reads back as that count after any further passes and any outside
      scaling; every completed pass puts the replicas back to zero. */
  lemma SnapshotWrittenOnce(lib: TimeLibrary, w: World, s: Schedule, first: Tick, events: seq<NightEvent>, last: Tick)
    requires Live(lib, w, s) && w.target.Some? && w.target.value.Saved().None?
    requires !Awake(s, first.now) && AllAsleep(s, events) && !Awake(s, last.now)
    requires Reconcile(lib, w.(network := first.network), first.now, first.clock).result.Ok?
    ensures var n := w.target.value.Replicas();
            var night := Night(lib, NightStep(lib, w, NightPass(first)), events);
            var end := Reconcile(lib, night.(network := last.network), last.now, last.clock);
            && Saves(night, Itoa(n)) && Atoi(Itoa(n)) == Some(n) && Recoverable(night.target.value) == n
            && (end.result.Ok? ==> Saves(end.world, Itoa(n)))
            && (end.result.Ok? ==> end.world.target.value.Replicas() == 0)
  {
    hide Reconcile, Awake, Itoa, Atoi, Night;
    var n := w.target.value.Replicas();
    FirstNightPassSaves(lib, w.(network := first.network), s, first.now, first.clock);
    var asleep := NightStep(lib, w, NightPass(first));
    NightKeepsSnapshot(lib, asleep, s, Itoa(n), events);
    var night := Night(lib, asleep, events);
    NightPassKeepsSnapshot(lib, night.(network := last.network), s, Itoa(n), last.now, last.clock);
    AtoiItoa(n);
  }

  // ----- Whose count a night gives back -----

  /** A snapshot that can be read. */
  predicate Readable(o: Workload) {
    o.Saved().Some? && Atoi(o.Saved().value).Some?
  }

  /** What a night without failing writes gives back: the count of a snapshot that
      was there before and can be read, and otherwise the workload's own count. So
      its owner's count survives exactly when no readable snapshot says otherwise. */
  lemma NightGivesBack(lib: TimeLibrary, w: World, s: Schedule, sleep: int, again: int, clock: int, clock': int)
    requires Live(lib, w, s) && w.target.Some? && w.network == HEALTHY
    requires !Awake(s, sleep) && Awake(s, again)
    ensures var down := Reconcile(lib, w, sleep, clock);
            var up := Reconcile(lib, down.world.(network := HEALTHY), again, clock');
            var o, m := w.target.value, w.target.value.Replicas();
            && (down.result.Ok? <==> o.Saved().None? || Readable(o))
            && up.world.target.Some?
            && up.world.target.value.Replicas() == (if Readable(o) then Recoverable(o) else m)
            && (up.world.target.value.Replicas() == m <==> (Readable(o) ==> Recoverable(o) == m))
  {
    hide Awake, NextEvent, Itoa, Atoi, Reconcile;
    var o, m := w.target.value, w.target.value.Replicas();
    var down := Reconcile(lib, w, sleep, clock);
    HealthyPassCompletes(lib, w, s, sleep, clock);
    if o.Saved().None? {
      FirstNightPassSaves(lib, w, s, sleep, clock);
      AtoiItoa(m);
      MorningAfter(lib, down.world.(network := HEALTHY), s, Itoa(m), again, clock');
    } else if Readable(o) {
      NightPassKeepsSnapshot(lib, w, s, o.Saved().value, sleep, clock);
      MorningAfter(lib, down.world.(network := HEALTHY), s, o.Saved().value, again, clock');
    } else {
      UnreadablePassKeepsTarget(lib, w, s, sleep, clock);
      UnreadablePassKeepsTarget(lib, down.world.(network := HEALTHY), s, again, clock');
    }
  }

  /** A workload that states no count has one replica after its first night. */
  lemma UnsetCountIsOne(lib: TimeLibrary, w: World, s: Schedule, sleep: int, again: int, clock: int, clock': int)
    requires Live(lib, w, s) && w.target == Some(Workload(None, None)) && w.network == HEALTHY
    requires !Awake(s, sleep) && Awake(s, again)
    ensures var down := Reconcile(lib, w, sleep, clock);
            var up := Reconcile(lib, down.world.(network := HEALTHY), again, clock');
            up.world.target.Some? && up.world.target.value.Replicas() == 1
  {
    hide Reconcile, Awake;
    NightGivesBack(lib, w, s, sleep, again, clock, clock');
  }

  /** A wake pass over a sleeping workload restores what its snapshot reads as. */
  lemma MorningAfter(lib: TimeLibrary, w: World, s: Schedule, text: string, now: int, clock: int)
    requires Live(lib, w, s) && Saves(w, text) && Atoi(text).Some? && w.target.value.Replicas() == 0
    requires w.network == HEALTHY && Awake(s, now)
    ensures var up := Reconcile(lib, w, now, clock);
            && up.result.Ok?
            && up.world.target.Some?
            && up.world.target.value.Replicas() == ToInt32(Atoi(text).value)
  {
    assert text != "";
    hide Awake, NextEvent, Atoi, Reconcile;
    HealthyPassCompletes(lib, w, s, now, clock);
    PassBringsUpToDate(lib, w, s, ToInt32(Atoi(text).value), now, clock);
  }

  /** A snapshot that cannot be read stops every pass from changing the count. */
  lemma UnreadablePassKeepsTarget(lib: TimeLibrary, w: World, s: Schedule, now: int, clock: int)
    requires Live(lib, w, s) && w.target.Some? && w.target.value.Saved().Some? && !Readable(w.target.value)
    ensures var p := Reconcile(lib, w, now, clock);
            && Live(lib, p.world, s) && p.world.target.Some?
            && p.world.target.value.Saved() == w.target.value.Saved()
            && p.world.target.value.Replicas() == w.target.value.Replicas()
  {
    hide Awake, NextEvent, HandleFinalizer;
    var o := w.target.value;
    LiveFinalizerStep(lib, w, s, o.Replicas(), RETRY_STEPS);
    var here := HandleFinalizer(w, o, o.Replicas(), RETRY_STEPS).world;
    StoredIsEquivalent(o.Scaled(0), w.omitsEmpty);
    if o.Replicas() == 0 {
      StatusReported(UpdateTarget(here, o.Scaled(0)).world, AWAKE_STATE, NextEvent(s, now), Some(0), clock);
    } else {
      StatusReported(here, AWAKE_STATE, NextEvent(s, now), Some(o.Replicas()), clock);
    }
  }

  /** A sleep pass that stops between its two writes leaves a snapshot behind on a
      running workload; the next wake pass does not remove it. */
  lemma WakePassKeepsStaleSnapshot(lib: TimeLibrary, w: World, s: Schedule, text: string, now: int, clock: int)
    requires Live(lib, w, s) && Saves(w, text) && w.target.value.Replicas() != 0 && Awake(s, now)
    ensures Reconcile(lib, w, now, clock).world.target == w.target
    ensures Live(lib, Reconcile(lib, w, now, clock).world, s)
  {
    hide Awake, NextEvent, HandleFinalizer;
    var o := w.target.value;
    LiveFinalizerStep(lib, w, s, o.Replicas(), RETRY_STEPS);
    StatusReported(HandleFinalizer(w, o, o.Replicas(), RETRY_STEPS).world, AWAKE_STATE, NextEvent(s, now),
                   Some(o.Replicas()), clock);
  }

  /** Such a night is reachable: after a sleep pass that stopped between its two
      writes and a wake pass, whatever count `m` the owner scales to, the complete
      night that follows brings the old `n` back. */
  lemma StaleSnapshotWins(lib: TimeLibrary, w: World, s: Schedule, n: Int32, m: Int32,
                          stopped: int, wake: int, sleep: int, again: int, clock: int)
    requires Live(lib, w, s) && SLEEP_ORDER_FINALIZER in w.order.value.finalizers
    requires w.target.Some? && w.target.value.Saved().None? && w.target.value.Replicas() == n && n != 0
    requires !Awake(s, stopped) && Awake(s, wake) && !Awake(s, sleep) && Awake(s, again)
    ensures var w1 := Reconcile(lib, w.(network := StopsAfter(1)), stopped, clock).world;
            var w2 := Reconcile(lib, w1.(network := HEALTHY), wake, clock).world;
            var w3 := NightStep(lib, w2, ScaledOutside(m));
            var w4 := Reconcile(lib, w3.(network := HEALTHY), sleep, clock);
            var w5 := Reconcile(lib, w4.world.(network := HEALTHY), again, clock);
            w4.result.Ok? && w5.world.target.Some? && w5.world.target.value.Replicas() == n
  {
    hide Awake, NextEvent, Itoa, Atoi;
    AtoiItoa(n);
    var text, o := Itoa(n), w.target.value;
    var start := w.(network := StopsAfter(1));
    assert HandleFinalizer(start, o, n, RETRY_STEPS) == FinalizerAttempt(start, o, n);
    var w1 := Reconcile(lib, start, stopped, clock).world;
    StoredIsEquivalent(o.WithSaved(text), w.omitsEmpty);
    assert Live(lib, w1, s) && Saves(w1, text) && w1.target.value.Replicas() == n;
    hide Reconcile;
    var w2 := Reconcile(lib, w1.(network := HEALTHY), wake, clock).world;
    WakePassKeepsStaleSnapshot(lib, w1.(network := HEALTHY), s, text, wake, clock);
    var w3 := NightStep(lib, w2, ScaledOutside(m));
    assert Live(lib, w3, s) && Saves(w3, text) && Recoverable(w3.target.value) == n;
    NightGivesBack(lib, w3.(network := HEALTHY), s, sleep, again, clock, clock);
  }
}
