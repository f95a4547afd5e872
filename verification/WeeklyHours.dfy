/** How long a schedule keeps a workload awake in a week. */
module WeeklyHours {
  import opened WorkingDays
  import opened Schedule

  const WEEK: int := 7 * DAY

  /** Awake instants among the `n` that start at `from`. */
  ghost function AwakeTicks(s: Schedule, from: int, n: nat): nat {
    if n == 0 then 0
    else AwakeTicks(s, from, n - 1) + if Awake(s, from + n - 1) then 1 else 0
  }

  lemma {:induction false} TicksAppend(s: Schedule, from: int, a: nat, b: nat)
    ensures AwakeTicks(s, from, a + b) == AwakeTicks(s, from, a) + AwakeTicks(s, from + a, b)
  {
    if b > 0 {
      TicksAppend(s, from, a, b - 1);
      assert from + (a + b) - 1 == (from + a) + b - 1;
    }
  }

  lemma {:induction false} ConstantTicks(s: Schedule, from: int, n: nat, v: bool)
    requires forall x :: from <= x < from + n ==> (Awake(s, x) <==> v)
    ensures AwakeTicks(s, from, n) == if v then n else 0
  {
    if n > 0 {
      ConstantTicks(s, from, n - 1, v);
      assert Awake(s, from + n - 1) <==> v;
    }
  }

  // ----- One day, counted from shift to shift -----

  lemma AwakeInDayOfShift(s: Schedule, day: int, x: int)
    requires ShiftStart(s, day) <= s.Local(x) < ShiftStart(s, day) + DAY
    ensures Awake(s, x) <==> WorksOn(s, day) && s.Local(x) < ShiftEnd(s, day)
  {
    hide DayWorking;
    if other :| InShift(s, other, x) {
      assert other == day;
    }
  }

  lemma TicksOfDay(s: Schedule, day: int)
    ensures ShiftStart(s, day) <= ShiftEnd(s, day) <= ShiftStart(s, day) + DAY
    ensures AwakeTicks(s, ShiftStart(s, day) - s.offset, DAY)
         == if WorksOn(s, day) then ShiftEnd(s, day) - ShiftStart(s, day) else 0
  {
    hide DayWorking;
    var from := ShiftStart(s, day) - s.offset;
    var shift := ShiftEnd(s, day) - ShiftStart(s, day);
    forall x | from <= x < from + DAY
      ensures Awake(s, x) <==> WorksOn(s, day) && s.Local(x) < ShiftEnd(s, day)
    {
      AwakeInDayOfShift(s, day, x);
    }
    TicksAppend(s, from, shift, DAY - shift);
    ConstantTicks(s, from, shift, WorksOn(s, day));
    ConstantTicks(s, from + shift, DAY - shift, false);
  }

  // ----- One week -----

  /** The length of every shift: (sleep - wake) modulo a day, or a whole day. */
  function ShiftLength(s: Schedule): nat {
    if s.wakeAt == s.sleepAt then DAY else (s.Sleep() - s.Wake()) % DAY
  }

  lemma ShiftsAreAlike(s: Schedule, day: int)
    ensures ShiftEnd(s, day) - ShiftStart(s, day) == ShiftLength(s)
  {
    WholeDays(0, ShiftEnd(s, day) - ShiftStart(s, day) - if s.wakeAt == s.sleepAt then 1 else 0);
  }

  lemma NextShift(s: Schedule, n: nat)
    requires 0 < n <= 7
    ensures ShiftStart(s, n + 2) == ShiftStart(s, 3) + (n - 1) * DAY
    ensures WeekdayOf(n + 2) == n - 1
  {
  }

  /** The lengths of the shifts of weekdays 0 to n-1 that work. */
  ghost function ShiftTicks(s: Schedule, n: nat): nat
    requires n <= 7
  {
    if n == 0 then 0 else ShiftTicks(s, n - 1) + if DayWorking(s.days, n - 1) then ShiftLength(s) else 0
  }

  lemma {:induction false} ShiftTicksAreProduct(s: Schedule, n: nat)
    requires n <= 7
    ensures ShiftTicks(s, n) == WorkingDayCount(s.days, n) * ShiftLength(s)
  {
    hide DayWorking, ShiftLength;
    if n > 0 {
      ShiftTicksAreProduct(s, n - 1);
      var before, length := WorkingDayCount(s.days, n - 1), ShiftLength(s);
      assert (before + 1) * length == before * length + length;
    }
  }

  /** Weeks counted from the shift of day 3, a Sunday. */
  lemma {:induction false} TicksFromSunday(s: Schedule, n: nat)
    requires n <= 7
    ensures AwakeTicks(s, ShiftStart(s, 3) - s.offset, n * DAY) == ShiftTicks(s, n)
  {
    hide DayWorking, ShiftStart, ShiftEnd, ShiftLength, WeekdayOf;
    var from := ShiftStart(s, 3) - s.offset;
    if n > 0 {
      TicksFromSunday(s, n - 1);
      TicksOfDay(s, n + 2);
      TicksAppend(s, from, (n - 1) * DAY, DAY);
      NextShift(s, n);
      ShiftsAreAlike(s, n + 2);
    }
  }

  lemma AwakeRepeatsWeekly(s: Schedule, t: int)
    ensures Awake(s, t + WEEK) <==> Awake(s, t)
  {
    hide DayWorking;
    if day :| WorksOn(s, day) && InShift(s, day, t) {
      assert WeekdayOf(day + 7) == WeekdayOf(day);
      assert WorksOn(s, day + 7) && InShift(s, day + 7, t + WEEK);
    }
    if day :| WorksOn(s, day) && InShift(s, day, t + WEEK) {
      assert WeekdayOf(day - 7) == WeekdayOf(day);
      assert WorksOn(s, day - 7) && InShift(s, day - 7, t);
    }
  }

  /** Every window of seven days holds the same number of awake instants. */
  lemma {:induction false} WindowsAgree(s: Schedule, a: int, steps: nat)
    ensures AwakeTicks(s, a, WEEK) == AwakeTicks(s, a + steps, WEEK)
    decreases steps
  {
    if steps > 0 {
      WindowsAgree(s, a, steps - 1);
      var b := a + steps - 1;
      TicksAppend(s, b, 1, WEEK);
      TicksAppend(s, b, WEEK, 1);
      AwakeRepeatsWeekly(s, b);
      assert AwakeTicks(s, b, 1) == (if Awake(s, b) then 1 else 0) by {
        assert AwakeTicks(s, b, 0) == 0;
      }
      assert AwakeTicks(s, b + WEEK, 1) == (if Awake(s, b + WEEK) then 1 else 0) by {
        assert AwakeTicks(s, b + WEEK, 0) == 0;
      }
    }
  }

  /** Over any seven days, wherever they start, a schedule grants exactly one
      shift's length for each working weekday, overnight shifts included. */
  lemma WeeklyAccounting(s: Schedule, from: int)
    ensures AwakeTicks(s, from, WEEK) == WorkingDayCount(s.days, 7) * ShiftLength(s)
  {
    var sunday := ShiftStart(s, 3) - s.offset;
    TicksFromSunday(s, 7);
    ShiftTicksAreProduct(s, 7);
    if from <= sunday {
      WindowsAgree(s, from, sunday - from);
    } else {
      WindowsAgree(s, sunday, from - sunday);
    }
  }
}
