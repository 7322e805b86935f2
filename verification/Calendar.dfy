/** The last complete week, month and quarter before a moment, on the proleptic Gregorian
    calendar with Python's ordinals (1 January of year 1 is day 1, a Monday). */
module Calendar {
  import opened Multiples
  import opened Options

  datatype Date = Date(year: nat, month: nat, day: nat)

  datatype DateTime = DateTime(date: Date, hour: nat, minute: nat, second: nat, microsecond: nat)

  datatype TimeSpan = TimeSpan(start: DateTime, end: DateTime)

  // ---------------------------------------------------------------- the calendar

  predicate IsLeap(year: nat) {
    year % 4 == 0 && (year % 100 != 0 || year % 400 == 0)
  }

  function DaysIn(year: nat, month: nat): nat {
    if month == 2 then (if IsLeap(year) then 29 else 28)
    else if month == 4 || month == 6 || month == 9 || month == 11 then 30
    else 31
  }

  predicate IsDate(d: Date) {
    1 <= d.year && 1 <= d.month <= 12 && 1 <= d.day <= DaysIn(d.year, d.month)
  }

  predicate IsDateTime(t: DateTime) {
    IsDate(t.date) && t.hour < 24 && t.minute < 60 && t.second < 60 && t.microsecond < 1000000
  }

  function DaysBeforeYear(year: nat): nat
    requires 1 <= year
  {
    var y := year - 1;
    365 * y + y / 4 - y / 100 + y / 400
  }

  function DaysBeforeMonth(year: nat, month: nat): nat
    requires 1 <= month
  {
    if month == 1 then 0 else DaysBeforeMonth(year, month - 1) + DaysIn(year, month - 1)
  }

  /** `date.toordinal()`. */
  function Ordinal(d: Date): nat
    requires IsDate(d)
  {
    DaysBeforeYear(d.year) + DaysBeforeMonth(d.year, d.month) + d.day
  }

  /** `date.weekday()`: 0 is Monday. */
  function Weekday(d: Date): nat
    requires IsDate(d)
  {
    (Ordinal(d) + 6) % 7
  }

  /** Milliseconds since the day before day 1, as printed by `get_millisecond_str`. */
  function Millis(t: DateTime): nat
    requires IsDateTime(t)
  {
    (((Ordinal(t.date) * 24 + t.hour) * 60 + t.minute) * 60 + t.second) * 1000 + t.microsecond / 1000
  }

  /** February has a leap day by the Gregorian rule; the other months have theirs always. */
  lemma MonthLengths(year: nat)
    ensures DaysIn(year, 2) == if year % 4 == 0 && (year % 100 != 0 || year % 400 == 0) then 29 else 28
    ensures forall m :: m in {1, 3, 5, 7, 8, 10, 12} ==> DaysIn(year, m) == 31
    ensures forall m :: m in {4, 6, 9, 11} ==> DaysIn(year, m) == 30
  {
  }

  /** Ordinals and weekdays as Python counts them: 1 January of year 1 is day 1, a Monday,
      and that of 1970 is day 719163, a Thursday. */
  lemma KnownDays(d: Date)
    requires IsDate(d) && d.month == 1 && d.day == 1
    ensures d.year == 1 ==> Ordinal(d) == 1 && Weekday(d) == 0
    ensures d.year == 1970 ==> Ordinal(d) == 719163 && Weekday(d) == 3
  {
    hide *;
    NewYearsDay(d);
    KnownYears(d.year);
    WeekdayIs(d);
  }

  lemma NewYearsDay(d: Date)
    requires IsDate(d) && d.month == 1 && d.day == 1
    ensures d.year >= 1 && Ordinal(d) == DaysBeforeYear(d.year) + 1
  {
    hide DaysBeforeYear, IsLeap, DaysIn;
  }

  lemma KnownYears(year: nat)
    requires year >= 1
    ensures year == 1 ==> DaysBeforeYear(year) == 0
    ensures year == 1970 ==> DaysBeforeYear(year) == 719162
  {
  }

  lemma WeekdayIs(d: Date)
    requires IsDate(d)
    ensures Weekday(d) == (Ordinal(d) + 6) % 7
  {
    hide Ordinal, IsDate;
  }

  /** Four hundred years are 146097 days, a whole number of weeks. */
  lemma FourCenturiesLater(d: Date)
    requires IsDate(d)
    ensures var later := Date(d.year + 400, d.month, d.day);
            IsDate(later) && Ordinal(later) == Ordinal(d) + 146097 && Weekday(later) == Weekday(d)
  {
    var later := Date(d.year + 400, d.month, d.day);
    SameMonths(d.year, d.month);
    FourCenturies(d.year);
    hide IsLeap, DaysIn, DaysBeforeYear, DaysBeforeMonth;
    assert Ordinal(later) == Ordinal(d) + 146097;
    WholeWeeks(d, later);
    hide Ordinal, Weekday;
  }

  lemma WholeWeeks(d: Date, later: Date)
    requires IsDate(d) && IsDate(later) && Ordinal(later) == Ordinal(d) + 20871 * 7
    ensures Weekday(later) == Weekday(d)
  {
    AddMultiple(Ordinal(d) + 6, 20871, 7);
    hide Ordinal, IsDate;
  }

  lemma {:induction false} SameMonths(year: nat, month: nat)
    requires 1 <= month
    ensures DaysBeforeMonth(year + 400, month) == DaysBeforeMonth(year, month)
    ensures DaysIn(year + 400, month) == DaysIn(year, month)
  {
    SameLeap(year);
    hide IsLeap;
    if month > 1 {
      SameMonths(year, month - 1);
    }
  }

  lemma SameLeap(year: nat)
    ensures IsLeap(year + 400) == IsLeap(year)
  {
    AddMultiple(year, 100, 4);
    AddMultiple(year, 4, 100);
    AddMultiple(year, 1, 400);
  }

  lemma FourCenturies(year: nat)
    requires 1 <= year
    ensures DaysBeforeYear(year + 400) == DaysBeforeYear(year) + 146097
  {
    var y := year - 1;
    assert (y + 400) / 4 == y / 4 + 100 && (y + 400) / 100 == y / 100 + 4 && (y + 400) / 400 == y / 400 + 1;
  }

  // ---------------------------------------------------------------- days one by one

  function PrevDay(d: Date): (p: Option<Date>)
    requires IsDate(d)
    ensures p.Some? ==> IsDate(p.value)
  {
    if d.day > 1 then Some(Date(d.year, d.month, d.day - 1))
    else if d.month > 1 then Some(Date(d.year, d.month - 1, DaysIn(d.year, d.month - 1)))
    else if d.year > 1 then Some(Date(d.year - 1, 12, 31))
    else None
  }

  /** `d - timedelta(days=n)`; None is Python's OverflowError before year 1. */
  function MinusDays(d: Date, n: nat): (p: Option<Date>)
    requires IsDate(d)
    ensures p.Some? ==> IsDate(p.value)
    decreases n
  {
    if n == 0 then Some(d)
    else
      var p := PrevDay(d);
      if p.None? then None else MinusDays(p.value, n - 1)
  }

  lemma YearLength(year: nat)
    requires 1 <= year
    ensures DaysBeforeYear(year + 1) == DaysBeforeYear(year) + if IsLeap(year) then 366 else 365
  {
    FoursCount(year - 1);
    HundredsCount(year - 1);
    FourHundredsCount(year - 1);
    LeapByFours(year);
  }

  lemma FoursCount(y: nat)
    ensures (y + 1) / 4 == y / 4 + if (y + 1) % 4 == 0 then 1 else 0
  {
  }

  lemma HundredsCount(y: nat)
    ensures (y + 1) / 100 == y / 100 + if (y + 1) % 100 == 0 then 1 else 0
  {
  }

  lemma FourHundredsCount(y: nat)
    ensures (y + 1) / 400 == y / 400 + if (y + 1) % 400 == 0 then 1 else 0
  {
  }

  lemma LeapByFours(year: nat)
    ensures year % 400 == 0 ==> year % 100 == 0
    ensures year % 100 == 0 ==> year % 4 == 0
  {
    AddMultiple(0, 4 * (year / 400), 100);
    AddMultiple(0, 25 * (year / 100), 4);
  }

  lemma MonthsOfYear(year: nat)
    ensures DaysBeforeMonth(year, 4) == 59 + 31 + (if IsLeap(year) then 1 else 0)
    ensures DaysBeforeMonth(year, 7) == DaysBeforeMonth(year, 4) + 91
    ensures DaysBeforeMonth(year, 10) == DaysBeforeMonth(year, 7) + 92
    ensures DaysBeforeMonth(year, 13) == DaysBeforeMonth(year, 10) + 92
  {
    assert DaysBeforeMonth(year, 2) == 31;
    assert DaysBeforeMonth(year, 3) == 59 + if IsLeap(year) then 1 else 0;
    assert DaysBeforeMonth(year, 5) == DaysBeforeMonth(year, 4) + 30;
    assert DaysBeforeMonth(year, 6) == DaysBeforeMonth(year, 5) + 31;
    assert DaysBeforeMonth(year, 8) == DaysBeforeMonth(year, 7) + 31;
    assert DaysBeforeMonth(year, 9) == DaysBeforeMonth(year, 8) + 31;
    assert DaysBeforeMonth(year, 11) == DaysBeforeMonth(year, 10) + 31;
    assert DaysBeforeMonth(year, 12) == DaysBeforeMonth(year, 11) + 30;
  }

  lemma PrevDaySameYear(d: Date)
    requires IsDate(d) && (d.day > 1 || d.month > 1)
    ensures PrevDay(d).Some? && Ordinal(PrevDay(d).value) == Ordinal(d) - 1 && Ordinal(d) > 1
  {
    hide IsLeap, DaysBeforeYear;
    DaysBeforeMonthStep(d.year, d.month);
  }

  lemma DaysBeforeMonthStep(year: nat, month: nat)
    requires 1 <= month
    ensures month > 1 ==> DaysBeforeMonth(year, month) == DaysBeforeMonth(year, month - 1) + DaysIn(year, month - 1)
    ensures DaysIn(year, month) >= 28
  {
    hide IsLeap;
  }

  lemma PrevDayOrdinal(d: Date)
    requires IsDate(d)
    ensures PrevDay(d).None? <==> Ordinal(d) == 1
    ensures PrevDay(d).Some? ==> Ordinal(PrevDay(d).value) == Ordinal(d) - 1
  {
    hide Ordinal, PrevDay, IsLeap, DaysIn;
    if d.day > 1 || d.month > 1 {
      PrevDaySameYear(d);
    } else if d.year > 1 {
      assert d == Date(d.year, 1, 1);
      NewYear(d.year);
    } else {
      assert d == Date(1, 1, 1);
      FirstDay();
    }
  }

  lemma FirstDay()
    ensures Ordinal(Date(1, 1, 1)) == 1 && PrevDay(Date(1, 1, 1)).None?
  {
  }

  /** 31 December is the day before 1 January. */
  lemma NewYear(year: nat)
    requires year > 1
    ensures PrevDay(Date(year, 1, 1)) == Some(Date(year - 1, 12, 31))
    ensures 0 < Ordinal(Date(year - 1, 12, 31)) == Ordinal(Date(year, 1, 1)) - 1
  {
    YearLength(year - 1);
    MonthsOfYear(year - 1);
    DaysBeforeMonthStep(year - 1, 13);
    hide IsLeap, DaysBeforeYear;
  }

  /** Dates are ordered as their ordinals, so an ordinal names one date. */
  lemma OrdinalInjective(a: Date, b: Date)
    requires IsDate(a) && IsDate(b) && Ordinal(a) == Ordinal(b)
    ensures a == b
  {
    if a.year != b.year {
      YearsInOrder(a, b);
      YearsInOrder(b, a);
    } else if a.month < b.month {
      MonthsInOrder(a, b);
    } else if b.month < a.month {
      MonthsInOrder(b, a);
    }
    hide DaysBeforeYear, DaysBeforeMonth, IsDate;
  }

  lemma YearsInOrder(a: Date, b: Date)
    requires IsDate(a) && IsDate(b)
    ensures a.year < b.year ==> Ordinal(a) < Ordinal(b)
  {
    hide IsLeap, DaysBeforeMonth, DaysIn;
    if a.year < b.year {
      YearEnd(a);
      YearsGrow(a.year + 1, b.year);
      hide DaysBeforeYear;
    }
  }

  lemma MonthsInOrder(a: Date, b: Date)
    requires IsDate(a) && IsDate(b) && a.year == b.year && a.month < b.month
    ensures Ordinal(a) < Ordinal(b)
  {
    MonthsGrow(a.year, a.month + 1, b.month);
    hide IsLeap, DaysBeforeYear;
  }

  lemma YearEnd(d: Date)
    requires IsDate(d)
    ensures Ordinal(d) <= DaysBeforeYear(d.year + 1)
  {
    MonthsGrow(d.year, d.month + 1, 13);
    MonthsOfYear(d.year);
    YearLength(d.year);
  }

  lemma {:induction false} MonthsGrow(year: nat, a: nat, b: nat)
    requires 1 <= a <= b
    ensures DaysBeforeMonth(year, a) <= DaysBeforeMonth(year, b)
    decreases b - a
  {
    if a < b {
      MonthsGrow(year, a, b - 1);
    }
  }

  lemma {:induction false} YearsGrow(a: nat, b: nat)
    requires 1 <= a <= b
    ensures DaysBeforeYear(a) <= DaysBeforeYear(b)
    decreases b - a
  {
    if a < b {
      YearLength(b - 1);
      YearsGrow(a, b - 1);
    }
  }

  lemma {:induction false} MinusDaysOrdinal(d: Date, n: nat)
    requires IsDate(d)
    ensures MinusDays(d, n).None? <==> Ordinal(d) <= n
    ensures MinusDays(d, n).Some? ==> Ordinal(MinusDays(d, n).value) == Ordinal(d) - n
    decreases n
  {
    PrevDayOrdinal(d);
    if n > 0 && PrevDay(d).Some? {
      MinusDaysOrdinal(PrevDay(d).value, n - 1);
    }
  }

  // ---------------------------------------------------------------- the functions

  function Midnight(d: Date): DateTime {
    DateTime(d, 0, 0, 0, 0)
  }

  /** `replace(hour=23, minute=59, second=59, microsecond=999000)`. */
  function LastMillisecond(d: Date): DateTime {
    DateTime(d, 23, 59, 59, 999000)
  }

  /** `get_last_complete_week_utc`. */
  function LastCompleteWeek(now: DateTime): (span: Option<TimeSpan>)
    requires IsDateTime(now)
  {
    var last := MinusDays(now.date, Weekday(now.date) + 1);
    if last.None? then None else
    var first := MinusDays(last.value, 6);
    if first.None? then None else Some(TimeSpan(Midnight(first.value), LastMillisecond(last.value)))
  }

  /** `get_last_complete_month_utc`. */
  function LastCompleteMonth(now: DateTime): (span: Option<TimeSpan>)
    requires IsDateTime(now)
  {
    var firstDayOfThisMonth := Date(now.date.year, now.date.month, 1);
    var last := MinusDays(firstDayOfThisMonth, 1);
    if last.None? then None
    else Some(TimeSpan(Midnight(Date(last.value.year, last.value.month, 1)), LastMillisecond(last.value)))
  }

  function QuarterMonth(month: nat): nat
    requires 1 <= month
  {
    ((month - 1) / 3 + 1 - 1) * 3 + 1
  }

  /** `get_last_complete_quarter_utc`. */
  function LastCompleteQuarter(now: DateTime): (span: Option<TimeSpan>)
    requires IsDateTime(now)
  {
    var firstDayOfThisQuarter := Date(now.date.year, QuarterMonth(now.date.month), 1);
    var last := MinusDays(firstDayOfThisQuarter, 1);
    if last.None? then None
    else
      Some(TimeSpan(Midnight(Date(last.value.year, QuarterMonth(last.value.month), 1)), LastMillisecond(last.value)))
  }

  // ---------------------------------------------------------------- what they return

  /** Months counted from January of year 0. */
  function MonthIndex(d: Date): nat
    requires IsDate(d)
  {
    12 * d.year + d.month - 1
  }

  lemma DayLength(t: DateTime)
    requires IsDateTime(t)
    ensures Millis(Midnight(t.date)) <= Millis(t) <= Millis(LastMillisecond(t.date))
    ensures Millis(Midnight(t.date)) == Ordinal(t.date) * 86400000
    ensures Millis(LastMillisecond(t.date)) + 1 == (Ordinal(t.date) + 1) * 86400000
  {
  }

  /** The end is one millisecond before midnight of the unit that contains now, and that
      midnight is not after now. */
  ghost predicate EndsJustBefore(span: TimeSpan, thisUnit: Date, now: DateTime)
    requires IsDateTime(span.end) && IsDate(thisUnit) && IsDateTime(now)
  {
    && Millis(span.end) + 1 == Millis(DateTime(thisUnit, 0, 0, 0, 0)) <= Millis(now)
    && span.end.microsecond == 999000
  }

  lemma EndsBefore(last: Date, thisUnit: Date, now: DateTime, start: DateTime)
    requires IsDate(last) && IsDate(thisUnit) && IsDateTime(now)
    requires Ordinal(last) + 1 == Ordinal(thisUnit) <= Ordinal(now.date)
    ensures EndsJustBefore(TimeSpan(start, LastMillisecond(last)), thisUnit, now)
  {
    DayLength(now);
    DayLength(Midnight(thisUnit));
    DayLength(LastMillisecond(last));
    hide Millis, Ordinal;
    assert Ordinal(thisUnit) * 86400000 <= Ordinal(now.date) * 86400000;
  }

  /** The last complete week is a Monday to a Sunday, seven days that end one millisecond
      before the Monday of the week of now; there is none only in the first calendar week. */
  lemma WeekIsWhole(now: DateTime, monday: Date)
    requires IsDateTime(now) && IsDate(monday) && Ordinal(monday) == Ordinal(now.date) - Weekday(now.date)
    ensures LastCompleteWeek(now).None? <==> Ordinal(monday) <= 7
    ensures LastCompleteWeek(now).Some? ==>
              var span := LastCompleteWeek(now).value;
              && IsDateTime(span.start) && IsDateTime(span.end)
              && span.start == DateTime(span.start.date, 0, 0, 0, 0)
              && Weekday(span.start.date) == 0 && Weekday(span.end.date) == 6
              && Ordinal(span.end.date) == Ordinal(span.start.date) + 6
              && Weekday(monday) == 0 && EndsJustBefore(span, monday, now)
  {
    var last := MinusDays(now.date, Weekday(now.date) + 1);
    MinusDaysOrdinal(now.date, Weekday(now.date) + 1);
    hide Ordinal, MinusDays, EndsJustBefore, IsLeap, DaysIn;
    if last.Some? {
      MinusDaysOrdinal(last.value, 6);
      if MinusDays(last.value, 6).Some? {
        SevenDays(now.date, monday, last.value, MinusDays(last.value, 6).value);
        hide Weekday;
        EndsBefore(last.value, monday, now, Midnight(MinusDays(last.value, 6).value));
      }
    }
  }

  lemma SevenDays(now: Date, monday: Date, last: Date, first: Date)
    requires IsDate(now) && IsDate(monday) && IsDate(last) && IsDate(first)
    requires Ordinal(monday) == Ordinal(now) - Weekday(now)
    requires Ordinal(last) == Ordinal(monday) - 1 && Ordinal(first) == Ordinal(last) - 6
    ensures Weekday(monday) == 0 && Weekday(last) == 6 && Weekday(first) == 0
  {
    hide Ordinal, IsDate;
    var n := Ordinal(now);
    assert (n - (n + 6) % 7 + 6) % 7 == 0;
  }

  /** The day before the first of a month is the last of the month before. */
  lemma DayBeforeFirst(year: nat, month: nat)
    requires 1 <= year && 1 <= month <= 12
    ensures var p := MinusDays(Date(year, month, 1), 1);
            && (p.None? <==> year == 1 && month == 1)
            && (p.Some? ==>
                  && p.value.day == DaysIn(p.value.year, p.value.month)
                  && MonthIndex(p.value) + 1 == MonthIndex(Date(year, month, 1))
                  && Ordinal(p.value) + 1 == Ordinal(Date(year, month, 1)))
  {
    var d := Date(year, month, 1);
    OneDay(d);
    PrevDayOrdinal(d);
    hide Ordinal, MinusDays, IsLeap;
  }

  lemma OneDay(d: Date)
    requires IsDate(d)
    ensures MinusDays(d, 1) == PrevDay(d)
  {
    hide PrevDay, IsLeap, DaysIn;
    assert PrevDay(d).Some? ==> MinusDays(PrevDay(d).value, 0) == PrevDay(d);
  }

  /** The last complete month is one whole month, the one before that of now; there is none
      only in January of year 1. */
  lemma MonthIsWhole(now: DateTime)
    requires IsDateTime(now)
    ensures LastCompleteMonth(now).None? <==> now.date.year == 1 && now.date.month == 1
    ensures LastCompleteMonth(now).Some? ==>
              var span := LastCompleteMonth(now).value; var (s, e) := (span.start.date, span.end.date);
              && IsDateTime(span.start) && IsDateTime(span.end)
              && span.start == DateTime(s, 0, 0, 0, 0) && s.day == 1
              && s.year == e.year && s.month == e.month && e.day == DaysIn(e.year, e.month)
              && MonthIndex(s) + 1 == MonthIndex(now.date)
              && EndsJustBefore(span, Date(now.date.year, now.date.month, 1), now)
  {
    var first := Date(now.date.year, now.date.month, 1);
    var last := MinusDays(first, 1);
    FirstOfMonth(now.date);
    DayBeforeFirst(now.date.year, now.date.month);
    hide Ordinal, MinusDays, EndsJustBefore, IsLeap, DaysIn;
    if last.Some? {
      FirstOfMonth(last.value);
      EndsBefore(last.value, first, now, Midnight(Date(last.value.year, last.value.month, 1)));
    }
  }

  lemma FirstOfMonth(d: Date)
    requires IsDate(d)
    ensures var first := Date(d.year, d.month, 1); IsDate(first) && Ordinal(first) <= Ordinal(d)
  {
    hide DaysBeforeYear, DaysBeforeMonth, IsLeap;
  }

  /** The last complete quarter is three whole months from the first of January, April,
      July or October, the ones before the quarter of now; there is none only in the first
      quarter of year 1. */
  lemma QuarterIsWhole(now: DateTime)
    requires IsDateTime(now)
    ensures LastCompleteQuarter(now).None? <==> now.date.year == 1 && now.date.month <= 3
    ensures var m := QuarterMonth(now.date.month); m in {1, 4, 7, 10} && m <= now.date.month < m + 3
    ensures LastCompleteQuarter(now).Some? ==>
              var span := LastCompleteQuarter(now).value; var (s, e) := (span.start.date, span.end.date);
              var thisQuarter := Date(now.date.year, QuarterMonth(now.date.month), 1);
              && IsDateTime(span.start) && IsDateTime(span.end)
              && span.start == DateTime(s, 0, 0, 0, 0) && s.day == 1 && s.month in {1, 4, 7, 10}
              && e.year == s.year && e.month == s.month + 2 && e.day == DaysIn(e.year, e.month)
              && MonthIndex(s) + 3 == MonthIndex(thisQuarter)
              && EndsJustBefore(span, thisQuarter, now)
  {
    var first := Date(now.date.year, QuarterMonth(now.date.month), 1);
    var last := MinusDays(first, 1);
    DayBeforeFirst(first.year, first.month);
    QuarterStart(now.date);
    QuarterMonths(now.date.month);
    hide Ordinal, MinusDays, EndsJustBefore, IsLeap, DaysIn, DaysBeforeMonth, QuarterMonth;
    if last.Some? {
      QuarterStart(last.value);
      QuarterEnds(last.value, first);
      EndsBefore(last.value, first, now, Midnight(Date(last.value.year, QuarterMonth(last.value.month), 1)));
    }
  }

  lemma QuarterMonths(month: nat)
    requires 1 <= month <= 12
    ensures QuarterMonth(month) in {1, 4, 7, 10} && QuarterMonth(month) <= month < QuarterMonth(month) + 3
    ensures QuarterMonth(month) == 1 <==> month <= 3
  {
  }

  lemma QuarterEnds(last: Date, first: Date)
    requires IsDate(last) && IsDate(first)
    requires first.month in {1, 4, 7, 10} && MonthIndex(last) + 1 == MonthIndex(first)
    ensures last.month == QuarterMonth(last.month) + 2 && QuarterMonth(last.month) in {1, 4, 7, 10}
  {
    hide DaysIn;
    assert last.month in {3, 6, 9, 12};
  }

  lemma QuarterStart(d: Date)
    requires IsDate(d)
    ensures var first := Date(d.year, QuarterMonth(d.month), 1); IsDate(first) && Ordinal(first) <= Ordinal(d)
  {
    MonthsGrow(d.year, QuarterMonth(d.month), d.month);
    hide DaysBeforeYear, DaysBeforeMonth, IsLeap;
  }
}
