/** Working-day lists: which weekdays a text such as "Mon-Thu, sunday" names,
    and the list left over when a weekend is taken out of the week. */
module WorkingDays {
  import opened Text

  /** Days of the week, Sunday first. */
  type Weekday = d: nat | d < 7

  const ALL_DAYS: seq<string> :=
    ["Monday", "Tuesday", "Wednesday", "Thursday", "Friday", "Saturday", "Sunday"]

  function FullName(d: Weekday): string {
    ["Sunday", "Monday", "Tuesday", "Wednesday", "Thursday", "Friday", "Saturday"][d]
  }

  /** The weekday a lower-case name stands for, or -1. */
  function DayOfName(name: string): (d: int)
    ensures -1 <= d < 7
  {
    if name == "sunday" || name == "sun" then 0
    else if name == "monday" || name == "mon" then 1
    else if name == "tuesday" || name == "tue" then 2
    else if name == "wednesday" || name == "wed" then 3
    else if name == "thursday" || name == "thu" then 4
    else if name == "friday" || name == "fri" then 5
    else if name == "saturday" || name == "sat" then 6
    else -1
  }

  function ParseDay(day: string): (d: int)
    ensures -1 <= d < 7
  {
    DayOfName(ToLower(TrimSpace(day)))
  }

  /** `d` lies on the way round the week from `first` to `last`, both included. */
  predicate InCycle(first: int, last: int, d: int) {
    (d - first) % 7 <= (last - first) % 7
  }

  lemma CycleByComparison(first: int, last: int, d: Weekday)
    requires 0 <= first < 7 && 0 <= last < 7
    ensures InCycle(first, last, d)
       <==> if first <= last then first <= d <= last else d >= first || d <= last
  {
  }

  /** The days one comma part denotes: a cyclic range "a-b" or a single day. */
  predicate PartCovers(part: string, d: Weekday) {
    var text := TrimSpace(part);
    if '-' in text then
      var ends := Split(text, '-');
      && |ends| == 2
      && ParseDay(ends[0]) != -1
      && ParseDay(ends[1]) != -1
      && InCycle(ParseDay(ends[0]), ParseDay(ends[1]), d)
    else
      ParseDay(text) == d
  }

  predicate SomePartCovers(parts: seq<string>, d: Weekday) {
    exists i :: 0 <= i < |parts| && PartCovers(parts[i], d)
  }

  /** The meaning of a list: the union of its parts; the empty text means every day. */
  predicate DayWorking(days: string, d: Weekday) {
    days == "" || SomePartCovers(Split(ToLower(days), ','), d)
  }

  method IsDayWorking(currentDay: Weekday, workingDays: string) returns (working: bool)
    ensures working == DayWorking(workingDays, currentDay)
  {
    hide ParseDay, TrimSpace, Split, ToLower, InCycle;
    if workingDays == "" {
      return true;
    }
    var days := ToLower(workingDays);
    var parts := Split(days, ',');
    for k := 0 to |parts|
      invariant forall i :: 0 <= i < k ==> !PartCovers(parts[i], currentDay)
    {
      var part := TrimSpace(parts[k]);
      if '-' in part {
        var rangeParts := Split(part, '-');
        if |rangeParts| == 2 {
          var start, end := ParseDay(rangeParts[0]), ParseDay(rangeParts[1]);
          if start != -1 && end != -1 {
            CycleByComparison(start, end, currentDay);
            if start <= end {
              if start <= currentDay <= end {
                return true;
              }
            } else if currentDay >= start || currentDay <= end {
              return true;
            }
          }
        }
      } else {
        var d := ParseDay(part);
        if d != -1 && currentDay == d {
          return true;
        }
      }
    }
    return false;
  }

  // ----- What lists denote -----

  /** A comma joins two lists into the union of their days. */
  lemma ListIsUnion(a: string, b: string, d: Weekday)
    requires a != "" && b != ""
    ensures DayWorking(a + "," + b, d) <==> DayWorking(a, d) || DayWorking(b, d)
  {
    LowerAppend(a + ",", b);
    LowerAppend(a, ",");
    assert ToLower(",") == ",";
    assert ToLower(a + "," + b) == ToLower(a) + "," + ToLower(b);
    SplitAppend(ToLower(a), ToLower(b), ',');
    SomePartOfConcat(Split(ToLower(a), ','), Split(ToLower(b), ','), d);
  }

  lemma SomePartOfConcat(p: seq<string>, q: seq<string>, d: Weekday)
    ensures SomePartCovers(p + q, d) <==> SomePartCovers(p, d) || SomePartCovers(q, d)
  {
    if SomePartCovers(p, d) {
      var i :| 0 <= i < |p| && PartCovers(p[i], d);
      assert (p + q)[i] == p[i];
    }
    if SomePartCovers(q, d) {
      var i :| 0 <= i < |q| && PartCovers(q[i], d);
      assert (p + q)[|p| + i] == q[i];
    }
  }

  /** Lists that differ only in letter case name the same days. */
  lemma ListIgnoresCase(a: string, b: string, d: Weekday)
    requires EqualFold(a, b)
    ensures DayWorking(a, d) <==> DayWorking(b, d)
  {
  }

  lemma NamesExact(name: string, d: Weekday)
    ensures DayOfName(name) == d <==> name == ToLower(FullName(d)) || name == ToLower(FullName(d)[..3])
  {
    var full := ["sunday", "monday", "tuesday", "wednesday", "thursday", "friday", "saturday"];
    assert ToLower(FullName(d)) == full[d];
    assert ToLower(FullName(d)[..3]) == full[d][..3];
    assert full[d][..3] == ["sun", "mon", "tue", "wed", "thu", "fri", "sat"][d];
  }

  /** A text denotes a day exactly when, blanks around it and letter case aside, it
      is that day's name or the first three letters of it. */
  lemma DayTexts(text: string, d: Weekday)
    ensures ParseDay(text) == d
       <==> EqualFold(TrimSpace(text), FullName(d)) || EqualFold(TrimSpace(text), FullName(d)[..3])
  {
    NamesExact(ToLower(TrimSpace(text)), d);
  }

  /** A list without commas and dashes denotes the day it names, if any. */
  lemma SingleDay(text: string, d: Weekday)
    requires text != "" && ',' !in text && '-' !in text
    ensures DayWorking(text, d) <==> ParseDay(text) == d
  {
    var lower := ToLower(text);
    LowerLacks(text, ',');
    LowerLacks(text, '-');
    SplitWhole(lower, ',');
    TrimLeftLacks(lower, '-');
    TrimRightLacks(TrimLeft(lower), '-');
    TrimAbsorbsLeft(lower);
    TrimAbsorbsRight(TrimLeft(lower));
    LowerTrim(text);
    LowerIdempotent(TrimSpace(text));
    assert Split(lower, ',')[0] == lower;
  }

  lemma LowerLacks(text: string, c: char)
    requires c !in text && (c == '-' || c == ',')
    ensures c !in ToLower(text)
  {
    var lower := ToLower(text);
    assert forall i :: 0 <= i < |lower| ==> lower[i] == LowerChar(text[i]) && text[i] != c;
  }

  /** A day name contains neither of the list's punctuation characters. */
  lemma DayNamesHaveNoPunctuation(name: string, c: char)
    requires ParseDay(name) != -1
    requires c == '-' || c == ','
    ensures c !in name
  {
    var core := TrimSpace(name);
    PlainNames(ToLower(core), c);
    assert forall i :: 0 <= i < |core| ==> ToLower(core)[i] == LowerChar(core[i]) && core[i] != c;
    if c in name {
      TrimLeftKeeps(name, c);
      TrimRightKeeps(TrimLeft(name), c);
    }
  }

  lemma PlainNames(name: string, c: char)
    requires DayOfName(name) != -1
    requires c == '-' || c == ','
    ensures forall i :: 0 <= i < |name| ==> name[i] != c
  {
  }

  lemma ParseDayIgnoresCaseAndBlanks(name: string)
    ensures ParseDay(TrimLeft(ToLower(name))) == ParseDay(name)
    ensures ParseDay(TrimRight(ToLower(name))) == ParseDay(name)
  {
    var lower := ToLower(name);
    TrimAbsorbsLeft(lower);
    TrimAbsorbsRight(lower);
    LowerTrim(name);
    LowerIdempotent(TrimSpace(name));
  }

  /** A list with a dash and no comma denotes a range if the dash is the only one
      and a day name stands on either side, and otherwise no day at all. */
  lemma RangeText(first: string, rest: string, d: Weekday)
    requires '-' !in first && ',' !in first && ',' !in rest
    ensures DayWorking(first + "-" + rest, d) <==>
              && '-' !in rest && ParseDay(first) != -1 && ParseDay(rest) != -1
              && InCycle(ParseDay(first), ParseDay(rest), d)
  {
    hide InCycle, DayOfName;
    var a, b := ToLower(first), ToLower(rest);
    LowerAppend(first + "-", rest);
    LowerAppend(first, "-");
    assert ToLower("-") == "-";
    var whole := a + ['-'] + b;
    assert ToLower(first + "-" + rest) == whole;
    LowerLacks(first, ',');
    LowerLacks(rest, ',');
    LowerLacks(first, '-');
    SplitWhole(whole, ',');
    assert Split(whole, ',')[0] == whole;
    assert DayWorking(first + "-" + rest, d) <==> PartCovers(whole, d);
    ParseDayIgnoresCaseAndBlanks(first);
    ParseDayIgnoresCaseAndBlanks(rest);
    var l, r := TrimLeft(a), TrimRight(b);
    TrimInfix(a, '-', b);
    TrimLeftLacks(a, '-');
    var text := TrimSpace(whole);
    assert text == l + ['-'] + r && text[|l|] == '-';
    SplitAppend(l, r, '-');
    SplitWhole(l, '-');
    if '-' in rest {
      LowerHas(rest, '-');
      TrimRightKeeps(b, '-');
      SplitMore(r, '-');
    } else {
      LowerLacks(rest, '-');
      TrimRightLacks(b, '-');
      SplitWhole(r, '-');
      assert Split(text, '-') == [l, r];
    }
  }

  lemma LowerHas(text: string, c: char)
    requires c in text && LowerChar(c) == c
    ensures c in ToLower(text)
  {
    var i :| 0 <= i < |text| && text[i] == c;
    assert ToLower(text)[i] == c;
  }

  /** A range of two day names denotes exactly the days met on the way round
      the week from the first to the last, across the week's end if need be. */
  lemma RangeIsCyclicInterval(first: string, last: string, d: Weekday)
    requires ParseDay(first) != -1 && ParseDay(last) != -1
    ensures DayWorking(first + "-" + last, d) <==> InCycle(ParseDay(first), ParseDay(last), d)
  {
    DayNamesHaveNoPunctuation(first, '-');
    DayNamesHaveNoPunctuation(first, ',');
    DayNamesHaveNoPunctuation(last, '-');
    DayNamesHaveNoPunctuation(last, ',');
    RangeText(first, last, d);
  }

  /** How many of the weekdays 0 to n-1 a list names. */
  ghost function WorkingDayCount(days: string, n: nat): nat
    requires n <= 7
  {
    if n == 0 then 0
    else WorkingDayCount(days, n - 1) + if DayWorking(days, n - 1) then 1 else 0
  }

  /** A range of day names holds ((last - first) mod 7) + 1 days. */
  lemma RangeSize(first: string, last: string)
    requires ParseDay(first) != -1 && ParseDay(last) != -1
    ensures WorkingDayCount(first + "-" + last, 7) == (ParseDay(last) - ParseDay(first)) % 7 + 1
  {
    var days, a, b := first + "-" + last, ParseDay(first), ParseDay(last);
    forall d: Weekday ensures DayWorking(days, d) <==> InCycle(a, b, d) {
      RangeIsCyclicInterval(first, last, d);
    }
    assert WorkingDayCount(days, 7) == CycleCount(a, b, 7) by {
      CountsAgree(days, a, b, 7);
    }
    CycleSize(a, b);
  }

  ghost function CycleCount(a: int, b: int, n: nat): nat {
    if n == 0 then 0 else CycleCount(a, b, n - 1) + if InCycle(a, b, n - 1) then 1 else 0
  }

  lemma {:induction false} CountsAgree(days: string, a: int, b: int, n: nat)
    requires n <= 7
    requires forall d: Weekday :: DayWorking(days, d) <==> InCycle(a, b, d)
    ensures WorkingDayCount(days, n) == CycleCount(a, b, n)
  {
    if n > 0 {
      CountsAgree(days, a, b, n - 1);
      var d: Weekday := n - 1;
      assert DayWorking(days, d) <==> InCycle(a, b, d);
    }
  }

  /** Counting from 0 up to n, the cycle from `a` to `b` is an interval or the
      complement of one. */
  lemma {:induction false} CycleCountIs(a: int, b: int, n: nat)
    requires 0 <= a < 7 && 0 <= b < 7 && n <= 7
    ensures a <= b ==> CycleCount(a, b, n) == (if n <= a then 0 else if n <= b then n - a else b - a + 1)
    ensures a > b ==> CycleCount(a, b, n) == (if n <= b then n else if n <= a then b + 1 else n - a + b + 1)
  {
    if n > 0 {
      CycleCountIs(a, b, n - 1);
      CycleByComparison(a, b, n - 1);
    }
  }

  lemma CycleSize(a: int, b: int)
    requires 0 <= a < 7 && 0 <= b < 7
    ensures CycleCount(a, b, 7) == (b - a) % 7 + 1
  {
    CycleCountIs(a, b, 7);
  }

  // ----- The week without its weekend -----

  /** Some comma part of the weekend text names this day, blanks and case aside. */
  predicate InWeekend(weekend: string, day: string) {
    SomePartIs(Split(weekend, ','), day)
  }

  predicate SomePartIs(parts: seq<string>, day: string) {
    exists i :: 0 <= i < |parts| && EqualFold(TrimSpace(day), TrimSpace(parts[i]))
  }

  function Remaining(days: seq<string>, weekend: string): seq<string> {
    if days == [] then []
    else
      var front, last := days[..|days| - 1], days[|days| - 1];
      Remaining(front, weekend) + if InWeekend(weekend, last) then [] else [last]
  }

  lemma {:induction false} RemainingMembers(days: seq<string>, weekend: string, x: string)
    ensures x in Remaining(days, weekend) <==> x in days && !InWeekend(weekend, x)
  {
    hide InWeekend;
    if days != [] {
      var front, last := days[..|days| - 1], days[|days| - 1];
      RemainingMembers(front, weekend, x);
      assert x in days <==> x in front || x == last;
    }
  }

  function WorkingDaysOutside(weekend: string): string {
    Join(Remaining(ALL_DAYS, weekend), ',')
  }

  method CalculateWorkingDays(weekend: string) returns (workingDays: string)
    ensures workingDays == WorkingDaysOutside(weekend)
  {
    hide Split, Join, TrimSpace, EqualFold;
    var weekendDays := Split(weekend, ',');
    var workspace: seq<string> := [];
    for k := 0 to |ALL_DAYS|
      invariant workspace == Remaining(ALL_DAYS[..k], weekend)
    {
      var day := ALL_DAYS[k];
      var isWeekend := false;
      for j := 0 to |weekendDays|
        invariant !isWeekend
        invariant forall i :: 0 <= i < j ==> !EqualFold(TrimSpace(day), TrimSpace(weekendDays[i]))
      {
        if EqualFold(TrimSpace(day), TrimSpace(weekendDays[j])) {
          isWeekend := true;
          break;
        }
      }
      if !isWeekend {
        workspace := workspace + [day];
      }
      assert isWeekend == InWeekend(weekend, day);
      assert ALL_DAYS[..k + 1][..k] == ALL_DAYS[..k];
    }
    assert ALL_DAYS[..|ALL_DAYS|] == ALL_DAYS;
    workingDays := Join(workspace, ',');
  }

  lemma SomePartNames(p: seq<string>, q: seq<string>, day: string)
    ensures SomePartIs(p + q, day) <==> SomePartIs(p, day) || SomePartIs(q, day)
  {
    hide EqualFold, TrimSpace;
    if i :| 0 <= i < |p| && EqualFold(TrimSpace(day), TrimSpace(p[i])) {
      assert (p + q)[i] == p[i];
    }
    if i :| 0 <= i < |q| && EqualFold(TrimSpace(day), TrimSpace(q[i])) {
      assert (p + q)[|p| + i] == q[i];
    }
  }

  /** A comma joins two weekends into the union of their days. */
  lemma WeekendIsUnion(a: string, b: string, day: string)
    ensures InWeekend(a + "," + b, day) <==> InWeekend(a, day) || InWeekend(b, day)
  {
    SplitAppend(a, b, ',');
    SomePartNames(Split(a, ','), Split(b, ','), day);
  }

  /** A weekend without commas takes out the day whose full name it is, blanks and
      case aside. The short names, which lists of working days know, take out none. */
  lemma WeekendOfOne(text: string, d: Weekday)
    requires ',' !in text
    ensures InWeekend(text, FullName(d)) <==> EqualFold(TrimSpace(text), FullName(d))
    ensures |TrimSpace(text)| == 3 ==> !InWeekend(text, FullName(d))
  {
    SplitWhole(text, ',');
    FullNameIsBare(d);
    hide Split, TrimSpace, EqualFold, FullName;
    assert Split(text, ',')[0] == text;
    if EqualFold(TrimSpace(text), FullName(d)) {
      assert |ToLower(TrimSpace(text))| == |ToLower(FullName(d))|;
    }
  }

  lemma FullNameIsBare(d: Weekday)
    ensures TrimSpace(FullName(d)) == FullName(d) && |FullName(d)| > 3
  {
    TrimSpaceStrips("", FullName(d), "");
    assert "" + FullName(d) + "" == FullName(d);
  }

  /** Weekends that differ only in letter case leave the same list. */
  lemma WeekendIgnoresCase(a: string, b: string)
    requires EqualFold(a, b)
    ensures WorkingDaysOutside(a) == WorkingDaysOutside(b)
  {
    forall day ensures InWeekend(a, day) <==> InWeekend(b, day) {
      SplitLower(a, ',');
      SplitLower(b, ',');
      PartsFoldAlike(Split(a, ','), Split(b, ','), day);
    }
    SameRemaining(ALL_DAYS, a, b);
  }

  lemma PartsFoldAlike(p: seq<string>, q: seq<string>, day: string)
    requires |p| == |q| && forall i :: 0 <= i < |p| ==> ToLower(p[i]) == ToLower(q[i])
    ensures SomePartIs(p, day) <==> SomePartIs(q, day)
  {
    forall i | 0 <= i < |p|
      ensures EqualFold(TrimSpace(day), TrimSpace(p[i])) <==> EqualFold(TrimSpace(day), TrimSpace(q[i]))
    {
      LowerTrim(p[i]);
      LowerTrim(q[i]);
    }
  }

  lemma {:induction false} SameRemaining(days: seq<string>, a: string, b: string)
    requires forall day :: InWeekend(a, day) <==> InWeekend(b, day)
    ensures Remaining(days, a) == Remaining(days, b)
  {
    hide InWeekend;
    if days != [] {
      SameRemaining(days[..|days| - 1], a, b);
    }
  }

  /** A part with no blanks at its ends and no dash denotes the day it names. */
  lemma PlainPart(part: string, d: Weekday)
    requires part != "" && !IsSpace(part[0]) && !IsSpace(part[|part| - 1])
    requires '-' !in part && ToLower(part) == part
    ensures PartCovers(part, d) <==> DayOfName(part) == d
  {
  }

  /** Each full name, lower-cased, is plain and denotes its own day only. */
  lemma FullNameCovers(e: Weekday, d: Weekday)
    ensures ',' !in FullName(e) && FullName(e) != ""
    ensures PartCovers(ToLower(FullName(e)), d) <==> e == d
  {
    var lower := ToLower(FullName(e));
    LowerIdempotent(FullName(e));
    assert lower == ["sunday", "monday", "tuesday", "wednesday", "thursday", "friday", "saturday"][e];
    PlainPart(lower, d);
  }

  lemma FullNamesDiffer(e: Weekday, d: Weekday)
    ensures FullName(e) == FullName(d) <==> e == d
  {
  }

  lemma AllDaysAreFullNames(x: string) returns (e: Weekday)
    requires x in ALL_DAYS
    ensures x == FullName(e)
  {
    var i :| 0 <= i < 7 && ALL_DAYS[i] == x;
    e := (i + 1) % 7;
  }

  /** Taking a weekend out of the week leaves exactly the other days working,
      unless nothing is left: then the list is empty and every day works. */
  lemma WeekendComplement(weekend: string, d: Weekday)
    ensures DayWorking(WorkingDaysOutside(weekend), d)
       <==> !InWeekend(weekend, FullName(d)) || forall x :: x in ALL_DAYS ==> InWeekend(weekend, x)
    ensures WorkingDaysOutside(weekend) == "" <==> forall x :: x in ALL_DAYS ==> InWeekend(weekend, x)
  {
    hide PartCovers, Split, ToLower, Remaining, InWeekend;
    var kept := Remaining(ALL_DAYS, weekend);
    forall x ensures x in kept <==> x in ALL_DAYS && !InWeekend(weekend, x) {
      RemainingMembers(ALL_DAYS, weekend, x);
    }
    var days := WorkingDaysOutside(weekend);
    assert FullName(d) in ALL_DAYS;
    forall x | x in kept ensures ',' !in x && x != "" {
      var e := AllDaysAreFullNames(x);
      FullNameCovers(e, d);
    }
    if kept == [] {
      assert forall x :: x in ALL_DAYS ==> x !in kept;
    } else {
      assert kept[0] in kept;
      assert kept[0] != "" && !InWeekend(weekend, kept[0]);
      SplitJoin(kept, ',');
      assert Split(days, ',') == kept;
      assert days != "";
      SplitLower(days, ',');
      var parts := Split(ToLower(days), ',');
      assert |parts| == |kept|;
      forall i | 0 <= i < |parts| ensures PartCovers(parts[i], d) <==> kept[i] == FullName(d) {
        assert kept[i] in kept;
        var e := AllDaysAreFullNames(kept[i]);
        FullNameCovers(e, d);
        FullNamesDiffer(e, d);
      }
    }
  }
}
