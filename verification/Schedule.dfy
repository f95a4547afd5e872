/** The daily schedule: the ideal set of awake shifts, and the computation that
    answers "asleep now?" and "when to look next?". Time is counted in
    nanoseconds since 1970-01-01 00:00 UTC; a time zone is a fixed offset. */
module Schedule {
  import opened Wrappers
  import opened WorkingDays

  const MINUTE: int := 60_000_000_000
  const DAY: int := 86_400_000_000_000

  /** A time of day, in minutes after midnight. */
  type Clock = m: nat | m < 1440

  datatype ScheduleError = BadTimezone | BadWakeAt | BadSleepAt

  /** Go's time zone database and clock parser, as parameters: None is a failure. */
  datatype TimeLibrary = TimeLibrary(zone: string -> Option<int>, clock: string -> Option<Clock>)

  /** A schedule whose texts have been parsed; `days` stays text. */
  datatype Schedule = Schedule(offset: int, wakeAt: Clock, sleepAt: Clock, days: string) {
    function Wake(): int { wakeAt * MINUTE }
    function Sleep(): int { sleepAt * MINUTE }
    function Local(t: int): int { t + offset }
  }

  datatype TimeState = TimeState(shouldSleep: bool, nextEvent: int, event: string)

  function ParseSchedule(lib: TimeLibrary, wakeAt: string, sleepAt: string, timezone: string, days: string)
    : Result<Schedule, ScheduleError>
  {
    match lib.zone(timezone)
    case None => Err(BadTimezone)
    case Some(offset) =>
      match lib.clock(wakeAt)
      case None => Err(BadWakeAt)
      case Some(wake) =>
        match lib.clock(sleepAt)
        case None => Err(BadSleepAt)
        case Some(sleep) => Ok(Schedule(offset, wake, sleep, days))
  }

  // ----- The ideal schedule -----

  function DayOf(local: int): int { local / DAY }

  function TimeOfDay(local: int): int { local % DAY }

  /** 1970-01-01 was a Thursday. */
  function WeekdayOf(day: int): Weekday { (day + 4) % 7 }

  predicate WorksOn(s: Schedule, day: int) {
    DayWorking(s.days, WeekdayOf(day))
  }

  /** Local instant at which the shift of `day` begins. */
  function ShiftStart(s: Schedule, day: int): int {
    day * DAY + if s.wakeAt == s.sleepAt then 0 else s.Wake()
  }

  /** Local instant at which the shift of `day` ends: the next sleep time of day
      after it began, or the following midnight when wake and sleep coincide. */
  function ShiftEnd(s: Schedule, day: int): int {
    if s.wakeAt < s.sleepAt then day * DAY + s.Sleep()
    else if s.wakeAt > s.sleepAt then (day + 1) * DAY + s.Sleep()
    else (day + 1) * DAY
  }

  predicate InShift(s: Schedule, day: int, t: int) {
    ShiftStart(s, day) <= s.Local(t) < ShiftEnd(s, day)
  }

  /** The ideal: a workload is awake during the shifts of the working days. */
  ghost predicate Awake(s: Schedule, t: int) {
    exists day :: WorksOn(s, day) && InShift(s, day, t)
  }

  /** An instant whose local time of day is the wake or the sleep time. */
  predicate IsEvent(s: Schedule, t: int) {
    TimeOfDay(s.Local(t)) == s.Wake() || TimeOfDay(s.Local(t)) == s.Sleep()
  }

  function UntilWake(s: Schedule, t: int): int {
    (s.Wake() - s.Local(t)) % DAY
  }

  function UntilSleep(s: Schedule, t: int): int {
    (s.Sleep() - s.Local(t)) % DAY
  }

  function NextEvent(s: Schedule, t: int): int {
    t + if UntilWake(s, t) < UntilSleep(s, t) then UntilWake(s, t) else UntilSleep(s, t)
  }

  function NextLabel(s: Schedule, t: int): string {
    if UntilWake(s, t) < UntilSleep(s, t) then "Wake" else "Sleep"
  }

  /** What the controller should be told at `now`, in terms of the ideal. */
  ghost function TimeStateOf(lib: TimeLibrary, now: int,
                             wakeAt: string, sleepAt: string, timezone: string, days: string)
    : Result<TimeState, ScheduleError>
  {
    match ParseSchedule(lib, wakeAt, sleepAt, timezone, days)
    case Err(e) => Err(e)
    case Ok(s) => Ok(TimeState(!Awake(s, now), NextEvent(s, now), NextLabel(s, now)))
  }

  // ----- What the controller is told, from the texts alone -----

  /** The texts are read in this order, and the first that cannot be read is named. */
  predicate NamesBadText(lib: TimeLibrary, wakeAt: string, sleepAt: string, timezone: string, e: ScheduleError) {
    match e
    case BadTimezone => lib.zone(timezone).None?
    case BadWakeAt => lib.zone(timezone).Some? && lib.clock(wakeAt).None?
    case BadSleepAt => lib.zone(timezone).Some? && lib.clock(wakeAt).Some? && lib.clock(sleepAt).None?
  }

  /** Awake at local time `local`, for a wake and a sleep time of day. */
  predicate AwakeByClock(wake: Clock, sleep: Clock, days: string, local: int) {
    var today, tod := WeekdayOf(DayOf(local)), TimeOfDay(local);
    var yesterday: Weekday := (today + 6) % 7;
    if wake < sleep then DayWorking(days, today) && wake * MINUTE <= tod < sleep * MINUTE
    else if wake > sleep then
      (DayWorking(days, today) && wake * MINUTE <= tod) || (DayWorking(days, yesterday) && tod < sleep * MINUTE)
    else DayWorking(days, today)
  }

  /** A clock with this offset shows `tod` at `t`. */
  predicate ClockShows(tod: Clock, offset: int, t: int) {
    TimeOfDay(t + offset) == tod * MINUTE
  }

  /** `event` is the first instant from `now` on whose local time of day is `wake` or
      `sleep`, and `name` says which; when both are the same it says "Sleep". */
  predicate IsNextEvent(wake: Clock, sleep: Clock, offset: int, now: int, event: int, name: string) {
    && now <= event
    && (ClockShows(wake, offset, event) || ClockShows(sleep, offset, event))
    && (forall x :: now <= x < event ==> !ClockShows(wake, offset, x) && !ClockShows(sleep, offset, x))
    && name == if ClockShows(sleep, offset, event) then "Sleep" else "Wake"
  }

  predicate ReadsTexts(lib: TimeLibrary, now: int, wakeAt: string, sleepAt: string, timezone: string, days: string,
                       r: Result<TimeState, ScheduleError>)
  {
    match r
    case Err(e) => NamesBadText(lib, wakeAt, sleepAt, timezone, e)
    case Ok(time) =>
      && lib.zone(timezone).Some? && lib.clock(wakeAt).Some? && lib.clock(sleepAt).Some?
      && var offset, wake, sleep := lib.zone(timezone).value, lib.clock(wakeAt).value, lib.clock(sleepAt).value;
         && (time.shouldSleep <==> !AwakeByClock(wake, sleep, days, now + offset))
         && IsNextEvent(wake, sleep, offset, now, time.nextEvent, time.event)
  }

  /** The ideal, read off the clock: by day, overnight, and when wake and sleep coincide. */
  lemma TimeStateReadsTexts(lib: TimeLibrary, now: int,
                            wakeAt: string, sleepAt: string, timezone: string, days: string)
    ensures ReadsTexts(lib, now, wakeAt, sleepAt, timezone, days,
                       TimeStateOf(lib, now, wakeAt, sleepAt, timezone, days))
  {
    var parsed := ParseSchedule(lib, wakeAt, sleepAt, timezone, days);
    if parsed.Ok? {
      ScheduleByClock(parsed.value, now);
      NextEventByClock(parsed.value, now);
    }
    hide AwakeByClock, IsNextEvent, Awake, NextEvent, NextLabel;
  }

  lemma NextEventByClock(s: Schedule, t: int)
    ensures IsNextEvent(s.wakeAt, s.sleepAt, s.offset, t, NextEvent(s, t), NextLabel(s, t))
  {
    LabelNamesTheEvent(s, t);
    NextEventIsLeast(s, t);
    forall x ensures IsEvent(s, x) <==> ClockShows(s.wakeAt, s.offset, x) || ClockShows(s.sleepAt, s.offset, x) {
    }
    hide NextEvent, TimeOfDay, UntilWake, UntilSleep;
  }

  lemma ScheduleByClock(s: Schedule, t: int)
    ensures Awake(s, t) <==> AwakeByClock(s.wakeAt, s.sleepAt, s.days, s.Local(t))
  {
    hide DayWorking;
    AwakeByLookBack(s, t);
    var day := DayOf(s.Local(t));
    assert s.Local(t) == day * DAY + TimeOfDay(s.Local(t));
    assert WeekdayOf(day - 1) == (WeekdayOf(day) + 6) % 7;
  }

  /** The label names the event announced, also when the reading is taken at it. */
  lemma LabelNamesTheEvent(s: Schedule, t: int)
    ensures NextLabel(s, t) == "Wake" <==> s.wakeAt != s.sleepAt && TimeOfDay(s.Local(NextEvent(s, t))) == s.Wake()
    ensures NextLabel(s, t) == "Sleep" <==> TimeOfDay(s.Local(NextEvent(s, t))) == s.Sleep()
    ensures s.wakeAt != s.sleepAt && TimeOfDay(s.Local(t)) == s.Wake() ==> NextLabel(s, t) == "Wake"
    ensures TimeOfDay(s.Local(t)) == s.Sleep() ==> NextLabel(s, t) == "Sleep"
  {
    assert "Sleep"[0] != "Wake"[0];
    ArrivalTime(s, t, s.Wake());
    ArrivalTime(s, t, s.Sleep());
    NextInstants(s, t);
  }

  /** The calendar: days of 1440 minutes, the first of them a Thursday, weekdays in turn. */
  lemma Calendar(day: int)
    ensures DAY == 1440 * MINUTE == 24 * 60 * 60 * 1_000_000_000
    ensures FullName(WeekdayOf(0)) == "Thursday"
    ensures FullName(WeekdayOf(day + 1)) == FullName((WeekdayOf(day) + 1) % 7)
  {
    assert WeekdayOf(day + 1) == (WeekdayOf(day) + 1) % 7;
  }

  // ----- Shifts and days -----

  lemma WholeDays(day: int, tod: int)
    requires 0 <= tod < DAY
    ensures DayOf(day * DAY + tod) == day
    ensures TimeOfDay(day * DAY + tod) == tod
  {
  }

  /** A shift lies within one day of its start, so an instant can only be in the
      shift of its own local day or of the day before, never in both. */
  lemma ShiftCandidates(s: Schedule, day: int, t: int)
    requires InShift(s, day, t)
    ensures day == DayOf(s.Local(t)) || day == DayOf(s.Local(t)) - 1
    ensures forall other :: InShift(s, other, t) ==> other == day
    ensures day == DayOf(s.Local(t)) - 1
       <==> s.wakeAt > s.sleepAt && TimeOfDay(s.Local(t)) < s.Sleep()
  {
  }

  /** The one-day look-back is exact: the only shift that can cover an instant is
      today's, or yesterday's in the morning part of an overnight schedule. */
  lemma AwakeByLookBack(s: Schedule, t: int)
    ensures var overnight := s.wakeAt > s.sleepAt && TimeOfDay(s.Local(t)) < s.Sleep();
            var day := if overnight then DayOf(s.Local(t)) - 1 else DayOf(s.Local(t));
            Awake(s, t) <==> WorksOn(s, day) && InShift(s, day, t)
  {
    hide DayWorking;
    if Awake(s, t) {
      var day :| WorksOn(s, day) && InShift(s, day, t);
      ShiftCandidates(s, day, t);
    }
  }

  /** The comparisons with today's wake and sleep instants that decide the state. */
  lemma AwakeByComparison(s: Schedule, t: int)
    ensures var local, tod := s.Local(t), TimeOfDay(s.Local(t));
            var overnight := s.Wake() > s.Sleep();
            Awake(s, t) <==>
              && WorksOn(s, if overnight && tod < s.Sleep() then DayOf(local - DAY) else DayOf(local))
              && if s.Wake() < s.Sleep() then s.Wake() <= tod < s.Sleep() else s.Wake() <= tod || tod < s.Sleep()
  {
    hide DayWorking;
    var local := s.Local(t);
    AwakeByLookBack(s, t);
    assert DayOf(local - DAY) == DayOf(local) - 1 by {
      WholeDays(DayOf(local) - 1, TimeOfDay(local));
    }
    assert local == DayOf(local) * DAY + TimeOfDay(local);
    hide DayOf, TimeOfDay;
  }

  /** The next wake and sleep instants, from today's. */
  lemma NextInstants(s: Schedule, t: int)
    ensures var tod := TimeOfDay(s.Local(t));
            && UntilWake(s, t) == s.Wake() - tod + (if s.Wake() < tod then DAY else 0)
            && UntilSleep(s, t) == s.Sleep() - tod + (if s.Sleep() < tod then DAY else 0)
  {
  }

  method GetTimeState(lib: TimeLibrary, now: int,
                      wakeAt: string, sleepAt: string, timezone: string, workingDays: string)
    returns (r: Result<TimeState, ScheduleError>)
    ensures r == TimeStateOf(lib, now, wakeAt, sleepAt, timezone, workingDays)
    ensures ReadsTexts(lib, now, wakeAt, sleepAt, timezone, workingDays, r)
  {
    TimeStateReadsTexts(lib, now, wakeAt, sleepAt, timezone, workingDays);
    hide DayWorking, ReadsTexts;
    var parsed := ParseSchedule(lib, wakeAt, sleepAt, timezone, workingDays);
    if parsed.Err? {
      return Err(parsed.error);
    }
    var s := parsed.value;
    var targetNow := s.Local(now);
    var midnight := targetNow - TimeOfDay(targetNow);
    var todayWake, todaySleep := midnight + s.Wake(), midnight + s.Sleep();

    var isAwake := false;
    var isWorkingDay := IsDayWorking(WeekdayOf(DayOf(targetNow)), workingDays);
    if todayWake > todaySleep {
      if targetNow < todaySleep {
        isWorkingDay := IsDayWorking(WeekdayOf(DayOf(targetNow - DAY)), workingDays);
      }
    }
    if isWorkingDay {
      if todayWake < todaySleep {
        if targetNow >= todayWake && targetNow < todaySleep {
          isAwake := true;
        }
      } else if targetNow >= todayWake || targetNow < todaySleep {
        isAwake := true;
      }
    }
    var shouldSleep := !isAwake;
    assert isWorkingDay ==
      WorksOn(s, if s.Wake() > s.Sleep() && TimeOfDay(targetNow) < s.Sleep()
                 then DayOf(targetNow - DAY) else DayOf(targetNow));
    AwakeByComparison(s, now);

    var nextWake, nextSleep;
    if todayWake < targetNow {
      nextWake := todayWake + DAY;
    } else {
      nextWake := todayWake;
    }
    if todaySleep < targetNow {
      nextSleep := todaySleep + DAY;
    } else {
      nextSleep := todaySleep;
    }
    NextInstants(s, now);
    if nextWake < nextSleep {
      return Ok(TimeState(shouldSleep, nextWake - s.offset, "Wake"));
    }
    return Ok(TimeState(shouldSleep, nextSleep - s.offset, "Sleep"));
  }

  // ----- The next event -----

  /** The distance from `t` ahead to a time of day is that to any later instant
      with this time of day, up to whole days. */
  lemma DistanceAhead(s: Schedule, t: int, x: int, tod: int)
    requires TimeOfDay(s.Local(x)) == tod
    ensures (tod - s.Local(t)) % DAY == (x - t) % DAY
    ensures t <= x ==> (tod - s.Local(t)) % DAY <= x - t
  {
  }

  lemma ArrivalTime(s: Schedule, t: int, tod: int)
    requires 0 <= tod < DAY
    ensures TimeOfDay(s.Local(t + (tod - s.Local(t)) % DAY)) == tod
  {
  }

  lemma EventIsNotBefore(s: Schedule, t: int, x: int)
    requires t <= x && IsEvent(s, x)
    ensures NextEvent(s, t) <= x
  {
    DistanceAhead(s, t, x, TimeOfDay(s.Local(x)));
  }

  /** The next event is the first event not before `t`, and less than a day away. */
  lemma NextEventIsLeast(s: Schedule, t: int)
    ensures t <= NextEvent(s, t) < t + DAY
    ensures IsEvent(s, NextEvent(s, t))
    ensures forall x :: t <= x < NextEvent(s, t) ==> !IsEvent(s, x)
  {
    ArrivalTime(s, t, s.Wake());
    ArrivalTime(s, t, s.Sleep());
    forall x | t <= x < NextEvent(s, t) ensures !IsEvent(s, x) {
      if IsEvent(s, x) {
        EventIsNotBefore(s, t, x);
      }
    }
  }

  /** A reading taken at an event announces that very instant. */
  lemma EventAnnouncesItself(s: Schedule, t: int)
    ensures NextEvent(s, t) == t <==> IsEvent(s, t)
  {
    NextEventIsLeast(s, t);
    if IsEvent(s, t) {
      EventIsNotBefore(s, t, t);
    }
  }

  lemma SleepAheadInShift(s: Schedule, t: int)
    requires s.wakeAt != s.sleepAt && !IsEvent(s, t)
    ensures var today := DayOf(s.Local(t));
            UntilSleep(s, t) <= UntilWake(s, t) <==> InShift(s, today, t) || InShift(s, today - 1, t)
  {
    NextInstants(s, t);
    assert s.Local(t) == DayOf(s.Local(t)) * DAY + TimeOfDay(s.Local(t));
  }

  /** Strictly between events the label tells whether some day's shift is under
      way, so an awake workload is told "Sleep", and, when every day works, a
      sleeping one is told "Wake". */
  lemma LabelNamesTheShift(s: Schedule, t: int)
    requires s.wakeAt != s.sleepAt && !IsEvent(s, t)
    ensures NextLabel(s, t) == "Sleep" <==> exists day :: InShift(s, day, t)
    ensures Awake(s, t) ==> NextLabel(s, t) == "Sleep"
    ensures (forall d: Weekday :: DayWorking(s.days, d)) && !Awake(s, t) ==> NextLabel(s, t) == "Wake"
  {
    SleepAheadInShift(s, t);
    assert "Sleep"[0] != "Wake"[0];
    if day :| InShift(s, day, t) {
      ShiftCandidates(s, day, t);
    }
    hide DayWorking, InShift, UntilWake, UntilSleep, DayOf, WeekdayOf, IsEvent;
    if (forall d: Weekday :: DayWorking(s.days, d)) && NextLabel(s, t) == "Sleep" {
      var day :| InShift(s, day, t);
      assert WorksOn(s, day);
    }
  }

  // ----- Requeue soundness -----

  /** Nothing changes between a reading and the next event it announces. */
  ghost predicate RequeueSound(s: Schedule) {
    forall now, t :: now <= t < NextEvent(s, now) ==> (Awake(s, t) <==> Awake(s, now))
  }

  ghost predicate UniformDays(days: string) {
    forall d: Weekday, e: Weekday :: DayWorking(days, d) <==> DayWorking(days, e)
  }

  /** A shift begins and ends at events, so without an event nothing begins or ends. */
  lemma NoEventNoChange(s: Schedule, now: int, t: int, day: int)
    requires s.wakeAt != s.sleepAt || s.wakeAt == 0
    requires now <= t < NextEvent(s, now)
    ensures InShift(s, day, now) <==> InShift(s, day, t)
  {
    hide DayWorking;
    var start, end := ShiftStart(s, day) - s.offset, ShiftEnd(s, day) - s.offset;
    assert IsEvent(s, start) by {
      WholeDays(day, s.Wake());
    }
    assert IsEvent(s, end) by {
      WholeDays(day, s.Sleep());
      WholeDays(day + 1, s.Sleep());
    }
    if now <= start {
      EventIsNotBefore(s, now, start);
    }
    if now <= end {
      EventIsNotBefore(s, now, end);
    }
  }

  lemma SoundBetweenEvents(s: Schedule, now: int, t: int)
    requires s.wakeAt != s.sleepAt || s.wakeAt == 0 || UniformDays(s.days)
    requires now <= t < NextEvent(s, now)
    ensures Awake(s, t) <==> Awake(s, now)
  {
    hide DayWorking;
    if s.wakeAt != s.sleepAt || s.wakeAt == 0 {
      forall day ensures InShift(s, day, now) <==> InShift(s, day, t) {
        NoEventNoChange(s, now, t, day);
      }
    } else {
      AwakeByLookBack(s, now);
      AwakeByLookBack(s, t);
    }
  }

  lemma NonUniformHasNeighbours(days: string) returns (d: Weekday)
    requires !UniformDays(days)
    ensures DayWorking(days, d) != DayWorking(days, (d + 1) % 7)
  {
    hide DayWorking;
    var works := seq(7, i requires 0 <= i < 7 => DayWorking(days, i));
    var a: Weekday, b: Weekday :| DayWorking(days, a) != DayWorking(days, b);
    assert works[a] != works[b];
    d := 0;
    while d < 6 && works[d] == works[d + 1]
      invariant forall e :: 0 <= e <= d ==> works[e] == works[0]
    {
      d := d + 1;
    }
    assert d < 6;
    assert works[d] == DayWorking(days, d) && works[d + 1] == DayWorking(days, d + 1);
  }

  /** Sleeping until the announced event misses no transition exactly when wake
      and sleep differ, or both are midnight, or all weekdays are alike. */
  lemma RequeueSoundness(s: Schedule)
    ensures RequeueSound(s) <==> s.wakeAt != s.sleepAt || s.wakeAt == 0 || UniformDays(s.days)
  {
    hide DayWorking;
    if s.wakeAt != s.sleepAt || s.wakeAt == 0 || UniformDays(s.days) {
      forall now, t | now <= t < NextEvent(s, now) ensures Awake(s, t) <==> Awake(s, now) {
        SoundBetweenEvents(s, now, t);
      }
    } else {
      var d := NonUniformHasNeighbours(s.days);
      var now, t := MissedMidnight(s, d);
      assert !(Awake(s, t) <==> Awake(s, now));
    }
  }

  /** The family that fails: wake equals sleep but not midnight, so the state flips
      at a midnight no event announces. */
  lemma MissedMidnight(s: Schedule, d: Weekday) returns (now: int, t: int)
    requires s.wakeAt == s.sleepAt && s.wakeAt != 0
    requires DayWorking(s.days, d) != DayWorking(s.days, (d + 1) % 7)
    ensures now <= t < NextEvent(s, now)
    ensures Awake(s, t) != Awake(s, now)
  {
    hide DayWorking;
    var day := d + 3;
    t := (day + 1) * DAY - s.offset;
    now := t - 1;
    WholeDays(day, DAY - 1);
    WholeDays(day + 1, 0);
    EqualTimesWorkWholeDays(s, day, now);
    EqualTimesWorkWholeDays(s, day + 1, t);
    assert t < NextEvent(s, now) by {
      assert TimeOfDay(s.Local(now)) == DAY - 1;
    }
  }

  /** When wake and sleep coincide the workload is awake exactly on working days,
      from midnight to midnight. */
  lemma EqualTimesWorkWholeDays(s: Schedule, day: int, t: int)
    requires s.wakeAt == s.sleepAt && DayOf(s.Local(t)) == day
    ensures Awake(s, t) <==> DayWorking(s.days, WeekdayOf(day))
  {
    hide DayWorking;
    AwakeByLookBack(s, t);
  }
}
