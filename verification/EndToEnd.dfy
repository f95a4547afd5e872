/** From a policy entry to a workload's replicas. */
module EndToEnd {
  import opened Wrappers
  import opened Api
  import opened Schedule
  import opened WorkingDays
  import opened ConfigHash
  import opened SleepPolicyLogic
  import Policies = SleepPolicyPass
  import Orders = SleepOrderSpec
  import opened Tracking

  /** The last of the rounds is the pass about to be made in this namespace. */
  predicate EndsIn(d: Defaults, digest: string -> Hash, rounds: seq<Policies.Round>, s: Space) {
    && Policies.ApplyRun(digest, rounds) && Policies.WellHashed(digest, rounds)
    && rounds != [] && rounds[|rounds| - 1] == Policies.Round(s.orders, DesiredState(d, s))
  }

  /** The order a policy pass leaves for a listed workload whose entry is enabled: it
      is live exactly when it was not terminating, and then says what the entry says. */
  lemma OrderOfEnabledWorkload(d: Defaults, digest: string -> Hash, s: Space, rounds: seq<Policies.Round>,
                               kind: string, name: string, c: PolicyConfig)
    requires !s.policy.deleting && Policies.Missing(s) == 0 && EndsIn(d, digest, rounds, s)
    requires Supported(kind) && Listed(s, kind, name) && Governs(c, Entries(s.policy, kind), name) && c.enable
    ensures var key := GetSleepOrderName(s.policy.name, kind, name);
            var orders := Policies.Reconcile(d, digest, s).space.orders;
            && (key in orders && !orders[key].deleting <==> (key in s.orders ==> !s.orders[key].deleting))
            && (key in orders ==> orders[key].spec.target == TargetRef(kind, name) && Says(d, c, orders[key].spec))
  {
    hide GetSleepOrderName, Fills, Governs, EntryWorks;
    var key, desired := GetSleepOrderName(s.policy.name, kind, name), DesiredState(d, s);
    DesiredStateExact(d, s, kind, name);
    assert key in desired;
    RecordSays(d, c, desired[key]);
    Policies.SpecsAreCurrent(digest, rounds, key);
    Policies.DesiredOrderIsLive(digest, s.orders, desired, key);
    assert Policies.Reconcile(d, digest, s).space.orders == InLine(digest, s.orders, desired);
  }

  /** The texts of an order are those of the entry, defaults where it has none. */
  predicate Says(d: Defaults, c: PolicyConfig, spec: OrderSpec) {
    && spec.wakeAt == (if c.wakeAt != "" then c.wakeAt else d.wakeAt)
    && spec.sleepAt == (if c.sleepAt != "" then c.sleepAt else d.sleepAt)
    && spec.timezone == (if c.timezone != "" then c.timezone else d.timezone)
    && forall day: Weekday :: DayWorking(spec.workingDays, day) <==> EntryWorks(d, c, day)
  }

  lemma RecordSays(d: Defaults, c: PolicyConfig, p: SleepParams)
    requires Fills(d, c, p)
    ensures Says(d, c, SpecOf(p))
  {
    hide DayWorking, EntryWorks;
  }

  /** When a policy pass, the last of a run of them, has applied the desired state,
      take a listed workload whose entry is enabled, says times and a time zone that
      can be read, and whose order was not terminating. This order targets the
      workload and is live under a schedule with just these times, offset and days.
      So over every run of its passes the workload and its status are up to date
      after a completed pass, and the replicas track the schedule until the event
      this pass announces. */
  lemma EnabledWorkloadFollowsPolicy(d: Defaults, digest: string -> Hash, lib: TimeLibrary, s: Space,
                                     rounds: seq<Policies.Round>, kind: string, name: string, c: PolicyConfig,
                                     w: Orders.World, n: Int32, ticks: seq<Tick>, x: int) returns (schedule: Schedule)
    requires !s.policy.deleting && Policies.Missing(s) == 0 && EndsIn(d, digest, rounds, s)
    requires Supported(kind) && Listed(s, kind, name) && Governs(c, Entries(s.policy, kind), name) && c.enable
    requires var key := GetSleepOrderName(s.policy.name, kind, name); key in s.orders ==> !s.orders[key].deleting
    requires lib.zone(if c.timezone != "" then c.timezone else d.timezone).Some?
    requires lib.clock(if c.wakeAt != "" then c.wakeAt else d.wakeAt).Some?
    requires lib.clock(if c.sleepAt != "" then c.sleepAt else d.sleepAt).Some?
    requires Holds(w, n)
    ensures Some(schedule.offset) == lib.zone(if c.timezone != "" then c.timezone else d.timezone)
    ensures Some(schedule.wakeAt) == lib.clock(if c.wakeAt != "" then c.wakeAt else d.wakeAt)
    ensures Some(schedule.sleepAt) == lib.clock(if c.sleepAt != "" then c.sleepAt else d.sleepAt)
    ensures forall day: Weekday :: DayWorking(schedule.days, day) <==> EntryWorks(d, c, day)
    ensures var key := GetSleepOrderName(s.policy.name, kind, name);
            var orders := Policies.Reconcile(d, digest, s).space.orders;
            && key in orders
            && orders[key].spec.target == TargetRef(kind, name)
            && FollowsOverRuns(lib, w.(order := Some(orders[key])), schedule, n, ticks, x)
  {
    OrderOfEnabledWorkload(d, digest, s, rounds, kind, name, c);
    var order := Policies.Reconcile(d, digest, s).space.orders[GetSleepOrderName(s.policy.name, kind, name)];
    hide GetSleepOrderName, Policies.Reconcile, FollowsOverRuns, DayWorking, EntryWorks;
    schedule := ParseSchedule(lib, order.spec.wakeAt, order.spec.sleepAt, order.spec.timezone,
                              order.spec.workingDays).value;
    var here := w.(order := Some(order));
    assert Live(lib, here, schedule);
    LiveOrderFollows(lib, here, schedule, n, ticks, x);
  }

  /** The order is live; a completed pass brings everything up to date, and from a
      sound one on the replicas track the schedule. */
  ghost predicate FollowsOverRuns(lib: TimeLibrary, w: Orders.World, s: Schedule, n: Int32, ticks: seq<Tick>, x: int) {
    var made := UpTo(ticks, x);
    && Live(lib, w, s)
    && (made != [] && LastPass(lib, w, made).result.Ok? ==>
          UpToDate(After(lib, w, made), s, n, made[|made| - 1].now))
    && ((s.wakeAt != s.sleepAt || s.wakeAt == 0 || UniformDays(s.days))
        && made != [] && Sound(lib, w, made) && x < NextEvent(s, made[|made| - 1].now) ==>
          ReplicasAt(lib, w, ticks, x) == if Awake(s, x) then n else 0)
  }

  lemma LiveOrderFollows(lib: TimeLibrary, w: Orders.World, s: Schedule, n: Int32, ticks: seq<Tick>, x: int)
    requires Live(lib, w, s) && Holds(w, n)
    ensures FollowsOverRuns(lib, w, s, n, ticks, x)
  {
    hide Orders.Reconcile, Awake, NextEvent, UpToDate, UniformDays, Live, Holds;
    var made := UpTo(ticks, x);
    if made != [] {
      if LastPass(lib, w, made).result.Ok? {
        RunBringsUpToDate(lib, w, s, n, made);
      }
      if (s.wakeAt != s.sleepAt || s.wakeAt == 0 || UniformDays(s.days))
         && Sound(lib, w, made) && x < NextEvent(s, made[|made| - 1].now) {
        SoundPassTracksSchedule(lib, w, s, n, ticks, x);
      }
    }
  }
}
