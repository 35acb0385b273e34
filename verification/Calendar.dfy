/** The proleptic Gregorian calendar and ISO week dates (section 4.1.4 of ISO 8601:2004) as
    the `datetime` type used by app/leaderboard/updater.py computes them. Days are counted by
    ordinals: day 1 is Monday, 1 January of year 1. */
module Calendar {

  datatype Date = Date(year: int, month: int, day: int)

  const MAX_YEAR := 9999
  /** The ordinal of 31 December 9999, the last day a `datetime` can hold. */
  const MAX_ORDINAL := 3652059

  predicate IsLeap(y: int) { y % 4 == 0 && (y % 100 != 0 || y % 400 == 0) }

  function DaysInYear(y: int): int { if IsLeap(y) then 366 else 365 }

  function DaysInMonth(y: int, m: int): int {
    if m == 2 then (if IsLeap(y) then 29 else 28)
    else if m == 4 || m == 6 || m == 9 || m == 11 then 30 else 31
  }

  /** Whether the fields name a day, in any year from 1 on. */
  predicate IsDate(d: Date) {
    1 <= d.year && 1 <= d.month <= 12 && 1 <= d.day <= DaysInMonth(d.year, d.month)
  }

  /** The days of the years before `y`, added up year by year. */
  function DaysBeforeYear(y: int): (n: int)
    ensures n >= 0
    decreases y
  {
    if y <= 1 then 0 else DaysBeforeYear(y - 1) + DaysInYear(y - 1)
  }

  /** The closed form the `datetime` type uses. */
  function DaysBeforeYearFast(y: int): int {
    var p := y - 1;
    p * 365 + p / 4 - p / 100 + p / 400
  }

  /** Days of a common year before each month. */
  function CommonDaysBefore(m: int): int {
    match m
    case 1 => 0 case 2 => 31 case 3 => 59 case 4 => 90 case 5 => 120 case 6 => 151
    case 7 => 181 case 8 => 212 case 9 => 243 case 10 => 273 case 11 => 304 case _ => 334
  }

  function DaysBeforeMonth(y: int, m: int): int {
    CommonDaysBefore(m) + if m > 2 && IsLeap(y) then 1 else 0
  }

  function Ordinal(d: Date): int {
    DaysBeforeYear(d.year) + DaysBeforeMonth(d.year, d.month) + d.day
  }

  /** The date with a given ordinal, by 400-, 100-, 4- and 1-year cycles. */
  function FromOrdinal(ordinal: int): Date
    requires ordinal >= 1
  {
    var n := ordinal - 1;
    var n400, r400 := n / 146097, n % 146097;
    var n100, r100 := r400 / 36524, r400 % 36524;
    var n4, r4 := r100 / 1461, r100 % 1461;
    Assemble(n400, n100, n4, r4 / 365, r4 % 365)
  }

  function Assemble(n400: int, n100: int, n4: int, n1: int, r: int): Date {
    var year := n400 * 400 + 1 + n100 * 100 + n4 * 4 + n1;
    if n1 == 4 || n100 == 4 then Date(year - 1, 12, 31)
    else
      var leap := n1 == 3 && (n4 != 24 || n100 == 3);
      var m := MonthOf(r, leap);
      Date(year, m, r - (CommonDaysBefore(m) + if m > 2 && leap then 1 else 0) + 1)
  }

  /** The month of the day `r` days after 1 January: a guess, or the month before it. */
  function MonthOf(r: int, leap: bool): int {
    var guess := (r + 50) / 32;
    if CommonDaysBefore(guess) + (if guess > 2 && leap then 1 else 0) > r then guess - 1 else guess
  }

  // ---- Years and months tile the days ----

  /** The closed form counts the days of all earlier years. */
  lemma {:induction false} DaysBeforeYearClosedForm(y: int)
    requires y >= 1
    ensures DaysBeforeYearFast(y) == DaysBeforeYear(y)
  {
    if y > 1 {
      DaysBeforeYearClosedForm(y - 1);
      QuotientStep4(y - 1);
      QuotientStep100(y - 1);
      QuotientStep400(y - 1);
    }
  }

  lemma QuotientStep4(p: int)
    ensures p / 4 == (p - 1) / 4 + if p % 4 == 0 then 1 else 0
  {
  }

  lemma QuotientStep100(p: int)
    ensures p / 100 == (p - 1) / 100 + if p % 100 == 0 then 1 else 0
    ensures p % 100 == 0 ==> p % 4 == 0
  {
  }

  lemma QuotientStep400(p: int)
    ensures p / 400 == (p - 1) / 400 + if p % 400 == 0 then 1 else 0
    ensures p % 400 == 0 ==> p % 100 == 0
  {
  }

  lemma {:induction false} YearsOrdered(y: int, z: int)
    requires 1 <= y < z
    ensures DaysBeforeYear(y) + DaysInYear(y) <= DaysBeforeYear(z)
    decreases z
  {
    if y < z - 1 { YearsOrdered(y, z - 1); }
  }

  lemma MonthLength(y: int, m: int)
    requires 1 <= m <= 12
    ensures DaysBeforeMonth(y, m) + DaysInMonth(y, m) ==
            if m == 12 then DaysInYear(y) else DaysBeforeMonth(y, m + 1)
  {
  }

  lemma DayOfYearBounds(d: Date)
    requires IsDate(d)
    ensures DaysBeforeYear(d.year) < Ordinal(d) <= DaysBeforeYear(d.year) + DaysInYear(d.year)
  {
    MonthLength(d.year, d.month);
  }

  /** Different dates have different ordinals. */
  lemma OrdinalInjective(d: Date, e: Date)
    requires IsDate(d) && IsDate(e) && Ordinal(d) == Ordinal(e)
    ensures d == e
  {
    DayOfYearBounds(d);
    DayOfYearBounds(e);
    if d.year < e.year { YearsOrdered(d.year, e.year); }
    if e.year < d.year { YearsOrdered(e.year, d.year); }
    MonthLength(d.year, d.month);
    MonthLength(e.year, e.month);
  }

  lemma DivBy400(a: int, r: int)
    requires 0 <= r < 400
    ensures (400 * a + r) / 400 == a && (400 * a + r) % 400 == r
  {
  }

  lemma DivBy100(a: int, r: int)
    requires 0 <= r < 100
    ensures (100 * a + r) / 100 == a && (100 * a + r) % 100 == r
  {
  }

  lemma DivBy4(a: int, r: int)
    requires 0 <= r < 4
    ensures (4 * a + r) / 4 == a && (4 * a + r) % 4 == r
  {
  }

  lemma CycleDaysFast(n400: int, n100: int, n4: int, n1: int)
    requires 0 <= n400 && 0 <= n100 <= 3 && 0 <= n4 <= 24 && 0 <= n1 <= 3
    ensures DaysBeforeYearFast(n400 * 400 + 1 + n100 * 100 + n4 * 4 + n1) ==
            n400 * 146097 + n100 * 36524 + n4 * 1461 + n1 * 365
  {
    var p := n400 * 400 + n100 * 100 + n4 * 4 + n1;
    DivBy400(n400, n100 * 100 + n4 * 4 + n1);
    DivBy100(n400 * 4 + n100, n4 * 4 + n1);
    DivBy4(n400 * 100 + n100 * 25 + n4, n1);
    assert p / 400 == n400 && p / 100 == n400 * 4 + n100 && p / 4 == n400 * 100 + n100 * 25 + n4;
  }

  /** The days before a year, from its place in the cycles. */
  lemma {:induction false} CycleDays(n400: int, n100: int, n4: int, n1: int)
    requires 0 <= n400 && 0 <= n100 <= 3 && 0 <= n4 <= 24 && 0 <= n1 <= 3
    ensures DaysBeforeYear(n400 * 400 + 1 + n100 * 100 + n4 * 4 + n1) ==
            n400 * 146097 + n100 * 36524 + n4 * 1461 + n1 * 365
  {
    CycleDaysFast(n400, n100, n4, n1);
    DaysBeforeYearClosedForm(n400 * 400 + 1 + n100 * 100 + n4 * 4 + n1);
  }

  /** Which years of the cycles are leap years. */
  lemma CycleLeap(n400: int, n100: int, n4: int, n1: int)
    requires 0 <= n400 && 0 <= n100 <= 3 && 0 <= n4 <= 24 && 0 <= n1 <= 3
    ensures IsLeap(n400 * 400 + 1 + n100 * 100 + n4 * 4 + n1) <==> n1 == 3 && (n4 != 24 || n100 == 3)
  {
    var q4, q100, q400 := n400 * 100 + n100 * 25 + n4, n400 * 4 + n100, n400;
    var r100 := n4 * 4 + n1 + 1;
    var r400 := n100 * 100 + r100;
    if n1 == 3 { DivBy4(q4 + 1, 0); } else { DivBy4(q4, n1 + 1); }
    if r100 == 100 { DivBy100(q100 + 1, 0); } else { DivBy100(q100, r100); }
    if r400 == 400 { DivBy400(q400 + 1, 0); } else { DivBy400(q400, r400); }
  }

  lemma MonthOfCorrect(r: int, leap: bool)
    requires 0 <= r < if leap then 366 else 365
    ensures var m := MonthOf(r, leap);
            var before := CommonDaysBefore(m) + if m > 2 && leap then 1 else 0;
            && 1 <= m <= 12
            && 1 <= r - before + 1 <= DaysInMonth(if leap then 4 else 1, m)
  {
  }

  lemma {:induction false} DayInYear(y: int, r: int)
    requires y >= 1 && 0 <= r < DaysInYear(y)
    ensures var m := MonthOf(r, IsLeap(y));
            var d := Date(y, m, r - (CommonDaysBefore(m) + if m > 2 && IsLeap(y) then 1 else 0) + 1);
            IsDate(d) && Ordinal(d) == DaysBeforeYear(y) + r + 1
  {
    MonthOfCorrect(r, IsLeap(y));
  }

  lemma {:induction false} LastDayOfYear(y: int)
    requires y >= 1
    ensures var d := Date(y, 12, 31); IsDate(d) && Ordinal(d) == DaysBeforeYear(y) + DaysInYear(y)
  {
  }

  /** 31 December of the last year of a 4-year cycle. */
  lemma LastDayOfCycle(n400: int, n100: int, n4: int)
    requires 0 <= n400 && 0 <= n100 <= 3 && 0 <= n4 <= 24 && (n4 != 24 || n100 == 3)
    ensures var d := Date(n400 * 400 + 1 + n100 * 100 + n4 * 4 + 3, 12, 31);
            IsDate(d) && Ordinal(d) == n400 * 146097 + n100 * 36524 + n4 * 1461 + 1461
  {
    CycleDays(n400, n100, n4, 3);
    CycleLeap(n400, n100, n4, 3);
    LastDayOfYear(n400 * 400 + 1 + n100 * 100 + n4 * 4 + 3);
  }

  lemma DayOfCycle(n400: int, n100: int, n4: int, n1: int, r: int)
    requires 0 <= n400 && 0 <= n100 <= 3 && 0 <= n4 <= 24 && 0 <= n1 <= 3 && 0 <= r < 365
    ensures var d := Assemble(n400, n100, n4, n1, r);
            IsDate(d) && Ordinal(d) == n400 * 146097 + n100 * 36524 + n4 * 1461 + n1 * 365 + r + 1
  {
    CycleDays(n400, n100, n4, n1);
    CycleLeap(n400, n100, n4, n1);
    DayInYear(n400 * 400 + 1 + n100 * 100 + n4 * 4 + n1, r);
  }

  lemma AssembleCorrect(n400: int, n100: int, n4: int, n1: int, r: int)
    requires 0 <= n400 && 0 <= n100 <= 4 && 0 <= n4 <= 24 && 0 <= n1 <= 4 && 0 <= r < 365
    requires n100 == 4 ==> n4 == n1 == r == 0
    requires n1 == 4 ==> r == 0 && (n4 != 24 || n100 == 3)
    ensures var d := Assemble(n400, n100, n4, n1, r);
            IsDate(d) && Ordinal(d) == n400 * 146097 + n100 * 36524 + n4 * 1461 + n1 * 365 + r + 1
  {
    if n100 == 4 {
      LastDayOfCycle(n400, 3, 24);
    } else if n1 == 4 {
      LastDayOfCycle(n400, n100, n4);
    } else {
      DayOfCycle(n400, n100, n4, n1, r);
    }
  }

  lemma CycleRanges(n: int)
    requires n >= 0
    ensures var r400 := n % 146097; var r100 := r400 % 36524; var r4 := r100 % 1461;
            && 0 <= n / 146097 && 0 <= r400 / 36524 <= 4 && 0 <= r100 / 1461 <= 24 && 0 <= r4 / 365 <= 4
            && 0 <= r4 % 365 < 365
            && (r400 / 36524 == 4 ==> r100 == 0)
            && (r4 / 365 == 4 ==> r4 % 365 == 0 && (r100 / 1461 != 24 || r400 / 36524 == 3))
            && n == n / 146097 * 146097 + r400 / 36524 * 36524 + r100 / 1461 * 1461 + r4 / 365 * 365 + r4 % 365
  {
  }

  /** Every ordinal is the ordinal of the date it converts to. */
  lemma FromOrdinalCorrect(ordinal: int)
    requires ordinal >= 1
    ensures IsDate(FromOrdinal(ordinal)) && Ordinal(FromOrdinal(ordinal)) == ordinal
  {
    var n := ordinal - 1;
    var r400 := n % 146097;
    var r100 := r400 % 36524;
    var r4 := r100 % 1461;
    CycleRanges(n);
    AssembleCorrect(n / 146097, r400 / 36524, r100 / 1461, r4 / 365, r4 % 365);
  }

  /** Converting a date to its ordinal and back gives the date. */
  lemma OrdinalRoundTrip(d: Date)
    requires IsDate(d)
    ensures Ordinal(d) >= 1 && FromOrdinal(Ordinal(d)) == d
  {
    DayOfYearBounds(d);
    if d.year > 1 { YearsOrdered(1, d.year); }
    FromOrdinalCorrect(Ordinal(d));
    OrdinalInjective(FromOrdinal(Ordinal(d)), d);
  }

  // ---- ISO weeks ----

  /** The ISO year and week of a day. */
  datatype IsoWeek = IsoWeek(year: int, week: int)

  /** The Monday on which ISO year `y` begins. */
  function FirstMonday(y: int): int { WeekStart(DaysBeforeYear(y) + 1) }

  function WeekStart(first: int): int {
    var weekday := (first + 6) % 7;
    first - weekday + if weekday > 3 then 7 else 0
  }

  /** `isocalendar`: the week counted from the first Monday of the calendar year, moved into
      the previous or the next ISO year when it falls outside. */
  function IsoCalendar(d: Date): IsoWeek
    requires IsDate(d)
  {
    IsoFrom(Ordinal(d), d.year, FirstMonday(d.year - 1), FirstMonday(d.year), FirstMonday(d.year + 1))
  }

  function IsoFrom(today: int, year: int, previous: int, first: int, next: int): IsoWeek {
    var week := (today - first) / 7;
    if week < 0 then IsoWeek(year - 1, (today - previous) / 7 + 1)
    else if week >= 52 && today >= next then IsoWeek(year + 1, 1)
    else IsoWeek(year, week + 1)
  }

  /** `fromisocalendar(year, week, 1)`, as an ordinal. */
  function MondayOf(w: IsoWeek): int { FirstMonday(w.year) + (w.week - 1) * 7 }

  /** The weeks ISO year `y` has. */
  function WeeksIn(y: int): int { (FirstMonday(y + 1) - FirstMonday(y)) / 7 }

  predicate IsIsoWeek(w: IsoWeek) { 1 <= w.year && 1 <= w.week <= WeeksIn(w.year) }

  /** The Monday on or before a day. */
  function MondayBefore(ordinal: int): int { ordinal - (ordinal + 6) % 7 }

  /** First Mondays are Mondays, within three days of 1 January, 52 or 53 weeks apart. */
  lemma FirstMondayFacts(y: int)
    requires y >= 1
    ensures FirstMonday(y) % 7 == 1
    ensures DaysBeforeYear(y) - 2 <= FirstMonday(y) <= DaysBeforeYear(y) + 4
    ensures FirstMonday(y + 1) - FirstMonday(y) == 7 * WeeksIn(y) && 52 <= WeeksIn(y) <= 53
  {
    NearNewYear(y);
    FirstMondaysApart(y);
  }

  lemma WeekStartsApart(a: int, b: int)
    requires 365 <= b - a <= 366
    ensures OneYearApart(WeekStart(a), WeekStart(b))
  {
  }

  lemma {:induction false} FirstMondaysOrdered(y: int, z: int)
    requires 1 <= y < z
    ensures FirstMonday(y + 1) <= FirstMonday(z)
    decreases z
  {
    if y < z - 1 {
      FirstMondayFacts(z - 1);
      FirstMondaysOrdered(y, z - 1);
    }
  }

  /** The ISO week of a date is a real week, and the Monday rebuilt from it is the Monday of
      the date's own Monday-to-Sunday week. */
  lemma IsoCalendarCorrect(d: Date)
    requires IsDate(d)
    ensures IsIsoWeek(IsoCalendar(d))
    ensures MondayOf(IsoCalendar(d)) == MondayBefore(Ordinal(d)) <= Ordinal(d) < MondayOf(IsoCalendar(d)) + 7
  {
    IsoCalendarCases(d);
    var w := IsoCalendar(d);
    if w.year == d.year + 1 { FirstMondaysApart(w.year); }
    WithinYear(w, Ordinal(d));
  }

  lemma WithinYear(w: IsoWeek, today: int)
    requires 1 <= w.year && WeekWithin(w.week, today, FirstMonday(w.year), FirstMonday(w.year + 1))
    ensures IsIsoWeek(w) && MondayOf(w) == MondayBefore(today) <= today < MondayOf(w) + 7
  {
  }

  lemma IsoCalendarCases(d: Date)
    requires IsDate(d)
    ensures var w, y := IsoCalendar(d), d.year;
            || (w.year == y - 1 >= 1 && WeekWithin(w.week, Ordinal(d), FirstMonday(y - 1), FirstMonday(y)))
            || (w.year == y && WeekWithin(w.week, Ordinal(d), FirstMonday(y), FirstMonday(y + 1)))
            || (w.year == y + 1 && WeekWithin(w.week, Ordinal(d), FirstMonday(y + 1), FirstMonday(y + 1) + 7))
  {
    var y := d.year;
    SurroundingMondays(d);
    IsoFromCorrect(Ordinal(d), y, FirstMonday(y - 1), FirstMonday(y), FirstMonday(y + 1));
  }

  /** A date lies between the first Mondays of the years around it. */
  lemma SurroundingMondays(d: Date)
    requires IsDate(d)
    ensures d.year > 1 ==>
              && OneYearApart(FirstMonday(d.year - 1), FirstMonday(d.year))
              && FirstMonday(d.year - 1) <= Ordinal(d)
    ensures d.year == 1 ==> FirstMonday(1) <= Ordinal(d)
    ensures OneYearApart(FirstMonday(d.year), FirstMonday(d.year + 1)) && Ordinal(d) < FirstMonday(d.year + 1) + 7
  {
    FirstMondaysApart(d.year);
    AfterFirstMonday(d);
    DayOfYearBounds(d);
    NearNewYear(d.year + 1);
  }

  lemma AfterFirstMonday(d: Date)
    requires IsDate(d)
    ensures d.year > 1 ==>
              && OneYearApart(FirstMonday(d.year - 1), FirstMonday(d.year))
              && FirstMonday(d.year - 1) <= Ordinal(d)
    ensures d.year == 1 ==> FirstMonday(1) <= Ordinal(d)
  {
    DayOfYearBounds(d);
    if d.year > 1 {
      FirstMondaysApart(d.year - 1);
      NearNewYear(d.year - 1);
    }
  }

  lemma {:induction false} NearNewYear(y: int)
    ensures DaysBeforeYear(y) - 2 <= FirstMonday(y) <= DaysBeforeYear(y) + 4
  {
  }

  lemma FirstMondaysApart(y: int)
    requires y >= 1
    ensures OneYearApart(FirstMonday(y), FirstMonday(y + 1))
  {
    WeekStartsApart(DaysBeforeYear(y) + 1, DaysBeforeYear(y + 1) + 1);
  }

  predicate OneYearApart(monday: int, next: int) {
    monday % 7 == 1 && (next == monday + 364 || next == monday + 371)
  }

  lemma IsoFromCorrect(today: int, year: int, previous: int, first: int, next: int)
    requires today < first ==> previous <= today && OneYearApart(previous, first)
    requires today < next + 7 && OneYearApart(first, next)
    ensures var w := IsoFrom(today, year, previous, first, next);
            || (w.year == year - 1 && today < first && WeekWithin(w.week, today, previous, first))
            || (w.year == year && WeekWithin(w.week, today, first, next))
            || (w.year == year + 1 && WeekWithin(w.week, today, next, next + 7))
  {
    if today < first {
      WeekIndex(today, previous, first);
    } else if today < next {
      WeekIndex(today, first, next);
    } else {
      WeekIndex(today, next, next + 7);
    }
  }

  /** `week` counts from the Monday `start`, ends by `end`, and is the week of `today`. */
  predicate WeekWithin(week: int, today: int, start: int, end: int) {
    && 1 <= week <= (end - start) / 7
    && start + (week - 1) * 7 == MondayBefore(today) <= today < MondayBefore(today) + 7
  }

  lemma WeekIndex(today: int, start: int, end: int)
    requires start <= today < end && start % 7 == 1 && (end - start) % 7 == 0
    ensures 0 <= (today - start) / 7 < (end - start) / 7
    ensures start + (today - start) / 7 * 7 == MondayBefore(today) <= today < MondayBefore(today) + 7
  {
  }

  /** A real ISO week is determined by its Monday. */
  lemma MondayInjective(v: IsoWeek, w: IsoWeek)
    requires IsIsoWeek(v) && IsIsoWeek(w) && MondayOf(v) == MondayOf(w)
    ensures v == w
  {
    FirstMondayFacts(v.year);
    FirstMondayFacts(w.year);
    if v.year < w.year { FirstMondaysOrdered(v.year, w.year); }
    if w.year < v.year { FirstMondaysOrdered(w.year, v.year); }
  }

  /** Weeks tile the days: a day lies in the seven days of an ISO week exactly when that week
      is the one `isocalendar` gives. */
  lemma WeeksTile(w: IsoWeek, d: Date)
    requires IsIsoWeek(w) && IsDate(d)
    ensures MondayOf(w) <= Ordinal(d) < MondayOf(w) + 7 <==> IsoCalendar(d) == w
  {
    IsoCalendarCorrect(d);
    MondayOfIsMonday(w);
    SameWeek(MondayOf(w), Ordinal(d));
    if MondayBefore(Ordinal(d)) == MondayOf(w) {
      MondayInjective(w, IsoCalendar(d));
    }
  }

  lemma MondayOfIsMonday(w: IsoWeek)
    requires IsIsoWeek(w)
    ensures MondayOf(w) % 7 == 1
  {
    FirstMondayFacts(w.year);
  }

  lemma SameWeek(monday: int, day: int)
    ensures monday % 7 == 1 ==> (monday <= day < monday + 7 <==> MondayBefore(day) == monday)
  {
  }

  /** Consecutive weeks abut, across the end of a 52- or 53-week year too. */
  lemma WeeksAbut(w: IsoWeek)
    requires IsIsoWeek(w)
    ensures var next := if w.week < WeeksIn(w.year) then IsoWeek(w.year, w.week + 1) else IsoWeek(w.year + 1, 1);
            IsIsoWeek(next) && MondayOf(next) == MondayOf(w) + 7
  {
    FirstMondayFacts(w.year);
    FirstMondayFacts(w.year + 1);
  }

  /** The standard's rule: a week belongs to the calendar year of its Thursday, and is numbered
      by that Thursday's place among the year's Thursdays. */
  lemma ThursdayRule(d: Date)
    requires IsDate(d)
    ensures var thursday := MondayBefore(Ordinal(d)) + 3;
            && thursday >= 1
            && IsoCalendar(d) == IsoWeek(FromOrdinal(thursday).year,
                                         (thursday - DaysBeforeYear(FromOrdinal(thursday).year) - 1) / 7 + 1)
  {
    var w, thursday := IsoCalendar(d), MondayBefore(Ordinal(d)) + 3;
    IsoCalendarCorrect(d);
    ThursdayWithin(w);
    FromOrdinalCorrect(thursday);
    OrdinalYear(FromOrdinal(thursday), w.year);
  }

  lemma ThursdayWithin(w: IsoWeek)
    requires IsIsoWeek(w)
    ensures var thursday := MondayOf(w) + 3;
            && DaysBeforeYear(w.year) < thursday <= DaysBeforeYear(w.year) + DaysInYear(w.year)
            && (thursday - DaysBeforeYear(w.year) - 1) / 7 == w.week - 1
  {
    FirstMondayFacts(w.year);
    NearNewYear(w.year + 1);
  }

  lemma {:induction false} OrdinalYear(d: Date, y: int)
    requires IsDate(d) && y >= 1 && DaysBeforeYear(y) < Ordinal(d) <= DaysBeforeYear(y) + DaysInYear(y)
    ensures d.year == y
  {
    DayOfYearBounds(d);
    if d.year < y { YearsOrdered(d.year, y); }
    if y < d.year { YearsOrdered(y, d.year); }
  }

  // ---- Month windows ----

  datatype Month = Month(year: int, month: int)

  function NextMonth(m: Month): Month {
    if m.month == 12 then Month(m.year + 1, 1) else Month(m.year, m.month + 1)
  }

  function FirstOf(m: Month): int { Ordinal(Date(m.year, m.month, 1)) }

  /** Months tile the days: a day lies between the first of a month and the first of the next
      exactly when the month is its own. */
  lemma MonthsTile(m: Month, d: Date)
    requires 1 <= m.year && 1 <= m.month <= 12 && IsDate(d)
    ensures FirstOf(m) <= Ordinal(d) < FirstOf(NextMonth(m)) <==> Month(d.year, d.month) == m
    ensures FirstOf(NextMonth(m)) == FirstOf(m) + DaysInMonth(m.year, m.month)
  {
    MonthLength(m.year, m.month);
    MonthLength(d.year, d.month);
    DayOfYearBounds(d);
    DayOfYearBounds(Date(m.year, m.month, 1));
    if m.year < d.year { YearsOrdered(m.year, d.year); }
    if d.year < m.year { YearsOrdered(d.year, m.year); }
  }

  // ---- The range of a `datetime` ----

  lemma {:induction false} YearsWithinRange(y: int)
    requires 1 <= y <= MAX_YEAR + 1
    ensures DaysBeforeYear(y) <= MAX_ORDINAL && (y <= MAX_YEAR ==> DaysBeforeYear(y) <= MAX_ORDINAL - 365)
    decreases MAX_YEAR - y
  {
    if y >= MAX_YEAR {
      DaysBeforeYearClosedForm(y);
    } else {
      YearsWithinRange(y + 1);
    }
  }

  lemma {:induction false} YearsBeyondRange(y: int)
    requires y > MAX_YEAR
    ensures FirstMonday(y) > MAX_ORDINAL
    decreases y
  {
    if y == MAX_YEAR + 1 {
      DaysBeforeYearClosedForm(y);
    } else {
      YearsBeyondRange(y - 1);
      FirstMondaysApart(y - 1);
    }
  }

  lemma DateWithinRange(d: Date)
    requires IsDate(d) && d.year <= MAX_YEAR
    ensures 1 <= Ordinal(d) <= MAX_ORDINAL && (d.year < MAX_YEAR ==> Ordinal(d) <= MAX_ORDINAL - 365)
  {
    DayOfYearBounds(d);
    YearsWithinRange(d.year + 1);
  }

  /** The ISO year of a `datetime` is in its range too. */
  lemma IsoYearWithinRange(d: Date)
    requires IsDate(d) && d.year <= MAX_YEAR
    ensures IsoCalendar(d).year <= MAX_YEAR
  {
    IsoCalendarCorrect(d);
    DateWithinRange(d);
    if IsoCalendar(d).year > MAX_YEAR { YearsBeyondRange(IsoCalendar(d).year); }
  }

  // ---- Some dates ----

  lemma {:induction false} YearStart(y: int)
    requires y >= 1
    ensures DaysBeforeYear(y) == (y - 1) * 365 + (y - 1) / 4 - (y - 1) / 100 + (y - 1) / 400
  {
    DaysBeforeYearClosedForm(y);
  }

  /** 1 January 1970 is day 719163, and was a Thursday. */
  lemma EpochIsThursday(y: int)
    requires y == 1970
    ensures Ordinal(Date(y, 1, 1)) == 719163 && MondayBefore(719163) == 719160
  {
    YearStart(y);
  }

  predicate DaysAround(y: int, previous: int, first: int, next: int) {
    DaysBeforeYear(y - 1) == previous && DaysBeforeYear(y) == first && DaysBeforeYear(y + 1) == next
  }

  /** The ISO week of a date, from the days before the years around it and before its month. */
  lemma IsoWeekAt(d: Date, before: int, previous: int, first: int, next: int)
    requires IsDate(d) && d.year > 1 && DaysBeforeMonth(d.year, d.month) == before
    requires DaysAround(d.year, previous, first, next)
    ensures IsoCalendar(d) == IsoFrom(first + before + d.day, d.year,
                                      WeekStart(previous + 1), WeekStart(first + 1), WeekStart(next + 1))
  {
    assert Ordinal(d) == first + before + d.day;
    assert FirstMonday(d.year - 1) == WeekStart(previous + 1);
    assert FirstMonday(d.year) == WeekStart(first + 1) && FirstMonday(d.year + 1) == WeekStart(next + 1);
  }

  lemma Days2021(y: int)
    requires y == 2021
    ensures DaysAround(y, 737424, 737790, 738155)
  {
    YearStart(y - 1);
    YearStart(y);
    YearStart(y + 1);
  }

  lemma Days2024(y: int)
    requires y == 2024
    ensures DaysAround(y, 738520, 738885, 739251)
  {
    YearStart(y - 1);
    YearStart(y);
    YearStart(y + 1);
  }

  lemma Days2027(y: int)
    requires y == 2027
    ensures DaysAround(y, 739616, 739981, 740346)
  {
    YearStart(y - 1);
    YearStart(y);
    YearStart(y + 1);
  }

  /** The ISO week a day of January has, given the days before the years around it. */
  lemma January(y: int, day: int, previous: int, first: int, next: int, w: IsoWeek)
    requires y > 1 && 1 <= day <= 31 && DaysAround(y, previous, first, next)
    requires w == IsoFrom(first + day, y, WeekStart(previous + 1), WeekStart(first + 1), WeekStart(next + 1))
    ensures IsoCalendar(Date(y, 1, day)) == w
  {
    IsoWeekAt(Date(y, 1, day), 0, previous, first, next);
  }

  lemma DecemberOfLeapYear(y: int, day: int, previous: int, first: int, next: int, w: IsoWeek)
    requires y > 1 && IsLeap(y) && 1 <= day <= 31 && DaysAround(y, previous, first, next)
    requires w == IsoFrom(first + 335 + day, y, WeekStart(previous + 1), WeekStart(first + 1), WeekStart(next + 1))
    ensures IsoCalendar(Date(y, 12, day)) == w
  {
    IsoWeekAt(Date(y, 12, day), 335, previous, first, next);
  }

  /** ISO weeks around three turns of the year: 2020 and 2026 have 53 weeks, 2024 has 52 and gives its
      last two days to 2025. */
  lemma IsoWeeks2021(y: int)
    requires y == 2021
    ensures IsoCalendar(Date(y, 1, 3)) == IsoWeek(2020, 53)
    ensures IsoCalendar(Date(y, 1, 4)) == IsoWeek(2021, 1)
  {
    Days2021(y);
    January(y, 3, 737424, 737790, 738155, IsoWeek(2020, 53));
    January(y, 4, 737424, 737790, 738155, IsoWeek(2021, 1));
  }

  lemma IsoWeeks2024(y: int)
    requires y == 2024
    ensures IsoCalendar(Date(y, 12, 29)) == IsoWeek(2024, 52)
    ensures IsoCalendar(Date(y, 12, 30)) == IsoWeek(2025, 1)
  {
    Days2024(y);
    DecemberOfLeapYear(y, 29, 738520, 738885, 739251, IsoWeek(2024, 52));
    DecemberOfLeapYear(y, 30, 738520, 738885, 739251, IsoWeek(2025, 1));
  }

  lemma IsoWeeks2027(y: int)
    requires y == 2027
    ensures IsoCalendar(Date(y, 1, 3)) == IsoWeek(2026, 53)
    ensures IsoCalendar(Date(y, 1, 4)) == IsoWeek(2027, 1)
  {
    Days2027(y);
    January(y, 3, 739616, 739981, 740346, IsoWeek(2026, 53));
    January(y, 4, 739616, 739981, 740346, IsoWeek(2027, 1));
  }
}
