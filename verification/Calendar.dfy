/**
 The proleptic Gregorian calendar from 1 January of year 1, as the datetimes of
 the scheduler count it: days have ordinals starting at 1, minutes and instants
 (microseconds) start at 0.
 */
module Calendar {
  datatype Date = Date(year: int, month: int, day: int)

  const MINUTES_IN_A_DAY := 24 * 60
  const LAST_YEAR := 9999
  const MINUTE := 60_000_000
  const LAST_MINUTE := (DaysBeforeYear(LAST_YEAR + 1)) * MINUTES_IN_A_DAY - 1

  predicate Leap(y: int) {
    y % 4 == 0 && (y % 100 != 0 || y % 400 == 0)
  }

  function DaysInYear(y: int): int {
    if Leap(y) then 366 else 365
  }

  function DaysBeforeYear(y: int): int {
    (y - 1) * 365 + (y - 1) / 4 - (y - 1) / 100 + (y - 1) / 400
  }

  function DaysInMonth(y: int, m: int): int {
    if m == 2 then if Leap(y) then 29 else 28
    else if m == 4 || m == 6 || m == 9 || m == 11 then 30
    else 31
  }

  function DaysBeforeMonth(y: int, m: int): int
    requires 1 <= m <= 12
  {
    [0, 31, 59, 90, 120, 151, 181, 212, 243, 273, 304, 334][m - 1] + if m > 2 && Leap(y) then 1 else 0
  }

  predicate ValidDate(d: Date) {
    d.year >= 1 && 1 <= d.month <= 12 && 1 <= d.day <= DaysInMonth(d.year, d.month)
  }

  function Ordinal(d: Date): int
    requires 1 <= d.month <= 12
  {
    DaysBeforeYear(d.year) + DaysBeforeMonth(d.year, d.month) + d.day
  }

  /** The n-th day counting from the first of month `m` of year `y`. */
  function DateFrom(y: int, m: int, n: int): Date
    requires y >= 1 && 1 <= m <= 12 && n >= 1
    decreases n
  {
    if n <= DaysInMonth(y, m) then Date(y, m, n)
    else if m < 12 then DateFrom(y, m + 1, n - DaysInMonth(y, m))
    else DateFrom(y + 1, 1, n - DaysInMonth(y, m))
  }

  function DateOf(ordinal: int): Date
    requires ordinal >= 1
  {
    DateFrom(1, 1, ordinal)
  }

  lemma {:induction false} FourthYear(y: int)
    ensures y / 4 == (y - 1) / 4 + if y % 4 == 0 then 1 else 0
  {
  }

  lemma {:induction false} HundredthYear(y: int)
    ensures y / 100 == (y - 1) / 100 + if y % 100 == 0 then 1 else 0
    ensures y / 400 == (y - 1) / 400 + if y % 400 == 0 then 1 else 0
  {
  }

  lemma {:induction false} YearStep(y: int)
    ensures DaysBeforeYear(y + 1) == DaysBeforeYear(y) + DaysInYear(y)
  {
    FourthYear(y);
    HundredthYear(y);
    LeapCount(y);
  }

  lemma {:induction false} LeapCount(y: int)
    ensures (if Leap(y) then 1 else 0) ==
            (if y % 4 == 0 then 1 else 0) - (if y % 100 == 0 then 1 else 0) + if y % 400 == 0 then 1 else 0
  {
    assert y == 100 * (y / 100) + y % 100 && 100 * (y / 100) == 4 * (25 * (y / 100));
    assert y == 400 * (y / 400) + y % 400 && 400 * (y / 400) == 100 * (4 * (y / 400));
  }

  lemma {:induction false} MonthStep(y: int, m: int)
    requires 1 <= m <= 12
    ensures DaysBeforeMonth(y, m) + DaysInMonth(y, m) == if m < 12 then DaysBeforeMonth(y, m + 1) else DaysInYear(y)
  {
  }

  lemma {:induction false} YearsGrow(y: int, z: int)
    requires y <= z
    ensures DaysBeforeYear(y) <= DaysBeforeYear(z)
    decreases z - y
  {
    if y < z {
      YearsGrow(y, z - 1);
      YearStep(z - 1);
    }
  }

  lemma {:induction false} MonthsGrow(y: int, m: int, n: int)
    requires 1 <= m < n <= 12
    ensures DaysBeforeMonth(y, m) + DaysInMonth(y, m) <= DaysBeforeMonth(y, n)
    decreases n
  {
    MonthStep(y, n - 1);
    if m < n - 1 {
      MonthsGrow(y, m, n - 1);
    }
  }

  lemma {:induction false} DayInYear(d: Date)
    requires ValidDate(d)
    ensures DaysBeforeYear(d.year) < Ordinal(d) <= DaysBeforeYear(d.year + 1)
  {
    YearStep(d.year);
    MonthStep(d.year, 12);
    if d.month < 12 {
      MonthsGrow(d.year, d.month, 12);
    }
  }

  predicate Before(a: Date, b: Date) {
    || a.year < b.year
    || (a.year == b.year && a.month < b.month)
    || (a.year == b.year && a.month == b.month && a.day < b.day)
  }

  lemma {:induction false} OrdinalGrows(a: Date, b: Date)
    requires ValidDate(a) && ValidDate(b) && Before(a, b)
    ensures Ordinal(a) < Ordinal(b)
  {
    if a.year < b.year {
      DayInYear(a);
      DayInYear(b);
      YearsGrow(a.year + 1, b.year);
    } else if a.month < b.month {
      MonthsGrow(a.year, a.month, b.month);
    }
  }

  lemma {:induction false} OrdinalFrom(y: int, m: int, n: int)
    requires y >= 1 && 1 <= m <= 12 && n >= 1
    ensures ValidDate(DateFrom(y, m, n))
    ensures Ordinal(DateFrom(y, m, n)) == DaysBeforeYear(y) + DaysBeforeMonth(y, m) + n
    decreases n
  {
    MonthStep(y, m);
    if n <= DaysInMonth(y, m) {
    } else if m < 12 {
      OrdinalFrom(y, m + 1, n - DaysInMonth(y, m));
    } else {
      YearStep(y);
      OrdinalFrom(y + 1, 1, n - DaysInMonth(y, m));
    }
  }

  /** Days and ordinals are in bijection. */
  lemma {:induction false} DateOfOrdinal(d: Date)
    requires ValidDate(d)
    ensures Ordinal(d) >= 1 && DateOf(Ordinal(d)) == d
  {
    DayInYear(d);
    YearsGrow(1, d.year);
    var e := DateOf(Ordinal(d));
    OrdinalFrom(1, 1, Ordinal(d));
    if Before(d, e) {
      OrdinalGrows(d, e);
    } else if Before(e, d) {
      OrdinalGrows(e, d);
    }
  }

  lemma {:induction false} OrdinalOfDate(n: int)
    requires n >= 1
    ensures ValidDate(DateOf(n)) && Ordinal(DateOf(n)) == n
  {
    OrdinalFrom(1, 1, n);
  }

  /** A day of a month other than 29 February comes back after 365 or 366 days. */
  lemma {:induction false} YearApart(d: Date)
    requires ValidDate(d) && !(d.month == 2 && d.day == 29)
    ensures
      var next := d.(year := d.year + 1);
      && ValidDate(next)
      && Ordinal(next) - Ordinal(d) == if Leap(if d.month <= 2 then d.year else d.year + 1) then 366 else 365
  {
    YearStep(d.year);
  }

  // ------------------------------------------------------------------ minutes

  function DateAt(minute: int): Date
    requires minute >= 0
  {
    DateOf(minute / MINUTES_IN_A_DAY + 1)
  }

  function HourAt(minute: int): int {
    minute % MINUTES_IN_A_DAY / 60
  }

  function MinuteAt(minute: int): int {
    minute % 60
  }

  /** Monday is 0. */
  function WeekdayAt(minute: int): int {
    (minute / MINUTES_IN_A_DAY + 1 + 6) % 7
  }

  function At(d: Date, hour: int, minute: int): int
    requires ValidDate(d)
  {
    (Ordinal(d) - 1) * MINUTES_IN_A_DAY + hour * 60 + minute
  }

  lemma {:induction false} SplitMinutes(day: int, hour: int, minute: int)
    requires day >= 0 && 0 <= hour < 24 && 0 <= minute < 60
    ensures
      var t := day * MINUTES_IN_A_DAY + hour * 60 + minute;
      t >= 0 && t / MINUTES_IN_A_DAY == day && HourAt(t) == hour && MinuteAt(t) == minute
  {
    var t, of := day * MINUTES_IN_A_DAY + hour * 60 + minute, hour * 60 + minute;
    assert 0 <= of < MINUTES_IN_A_DAY && of / 60 == hour;
    assert t == 60 * (day * 24 + hour) + minute;
  }

  lemma {:induction false} MinuteOfDay(n: int, hour: int, minute: int)
    requires n >= 1 && 0 <= hour < 24 && 0 <= minute < 60
    ensures
      var t := (n - 1) * MINUTES_IN_A_DAY + hour * 60 + minute;
      t >= 0 && DateAt(t) == DateOf(n) && HourAt(t) == hour && MinuteAt(t) == minute
  {
    SplitMinutes(n - 1, hour, minute);
  }

  /** A minute is known by its date, hour and minute. */
  lemma {:induction false} PartsOfAt(d: Date, hour: int, minute: int)
    requires ValidDate(d) && 0 <= hour < 24 && 0 <= minute < 60
    ensures
      var t := At(d, hour, minute);
      t >= 0 && DateAt(t) == d && HourAt(t) == hour && MinuteAt(t) == minute
  {
    DateOfOrdinal(d);
    MinuteOfDay(Ordinal(d), hour, minute);
  }

  lemma {:induction false} AtOfParts(t: int)
    requires t >= 0
    ensures ValidDate(DateAt(t)) && 0 <= HourAt(t) < 24 && 0 <= MinuteAt(t) < 60
    ensures At(DateAt(t), HourAt(t), MinuteAt(t)) == t
  {
    OrdinalOfDate(t / MINUTES_IN_A_DAY + 1);
    JoinMinutes(t);
  }

  lemma {:induction false} JoinMinutes(t: int)
    requires t >= 0
    ensures t / MINUTES_IN_A_DAY * MINUTES_IN_A_DAY + HourAt(t) * 60 + MinuteAt(t) == t
    ensures 0 <= HourAt(t) < 24 && 0 <= MinuteAt(t) < 60
  {
    var day, of := t / MINUTES_IN_A_DAY, t % MINUTES_IN_A_DAY;
    assert t == day * MINUTES_IN_A_DAY + of;
    ShiftByHours(day * 24, of);
    assert of == of / 60 * 60 + of % 60;
  }

  lemma {:induction false} ShiftByHours(hours: int, of: int)
    ensures (60 * hours + of) % 60 == of % 60
  {
  }

  // ------------------------------------------------------------------ the calendar everybody knows

  /** The lengths of the months. */
  lemma {:induction false} MonthLengths(y: int, m: int)
    requires 1 <= m <= 12
    ensures DaysInMonth(y, m) ==
            [31, if Leap(y) then 29 else 28, 31, 30, 31, 30, 31, 31, 30, 31, 30, 31][m - 1]
  {
  }

  /** Four hundred years have 146097 days, and of the years around it only those that should are leap years. */
  lemma {:induction false} GregorianCycle(y: int)
    ensures DaysBeforeYear(y + 400) == DaysBeforeYear(y) + 146_097
    ensures Leap(y + 400) == Leap(y)
    ensures Leap(2000) && Leap(2024) && !Leap(1900) && !Leap(2100) && !Leap(2023)
  {
    assert (y + 399) / 4 == (y - 1) / 4 + 100;
    assert (y + 399) / 100 == (y - 1) / 100 + 4;
    assert (y + 399) / 400 == (y - 1) / 400 + 1;
  }

  /** 1 January 1970 was a Thursday, and the last minute there is is that before midnight of 31 December 9999. */
  lemma {:induction false} Anchors()
    ensures At(Date(1970, 1, 1), 0, 0) == 719_162 * 1440 && WeekdayAt(At(Date(1970, 1, 1), 0, 0)) == 3
    ensures LAST_MINUTE == At(Date(9999, 12, 31), 23, 59)
  {
  }

  lemma {:induction false} WeekdayOfDay(day: int, hour: int, minute: int)
    requires day >= 0 && 0 <= hour < 24 && 0 <= minute < 60
    ensures WeekdayAt(day * MINUTES_IN_A_DAY + hour * 60 + minute) == day % 7
  {
    SplitMinutes(day, hour, minute);
    assert (day + 7) % 7 == day % 7;
  }

  lemma {:induction false} NextWeekday(day: int)
    ensures (day + 1) % 7 == (day % 7 + 1) % 7
  {
  }

  /** The weekday lasts all day, and the day after any is the next weekday. */
  lemma {:induction false} WeekdaysFollow(d: Date, hour: int, minute: int)
    requires ValidDate(d) && 0 <= hour < 24 && 0 <= minute < 60
    ensures 0 <= WeekdayAt(At(d, hour, minute)) < 7
    ensures WeekdayAt(At(d, hour, minute)) == WeekdayAt(At(d, 0, 0))
    ensures WeekdayAt(At(d, hour, minute) + 1440) == (WeekdayAt(At(d, hour, minute)) + 1) % 7
  {
    DayNumber(d);
    var day := Ordinal(d) - 1;
    WeekdayOfDay(day, hour, minute);
    WeekdayOfDay(day, 0, 0);
    WeekdayOfDay(day + 1, hour, minute);
    NextWeekday(day);
  }

  lemma {:induction false} DayNumber(d: Date)
    requires ValidDate(d)
    ensures Ordinal(d) >= 1
  {
    DateOfOrdinal(d);
  }
}
