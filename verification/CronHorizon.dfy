/**
 How far the cron search has to look: 366 days are enough for every yearly date but
 29 February, and no fewer are.
 */
module CronHorizons {
  import opened Calendar
  import opened Crons

  /** No part of the field can raise. */
  predicate Sound(f: seq<Part>) {
    forall i :: 0 <= i < |f| ==> !f[i].Broken? && f[i] != Every(0)
  }

  predicate AcceptsAll(f: seq<Part>, lo: int, hi: int) {
    forall v :: lo <= v <= hi ==> MatchField(f, v) == Yes
  }

  lemma {:induction false} SoundNeverFails(f: seq<Part>, value: int)
    requires Sound(f)
    ensures MatchField(f, value) != Fails
  {
    if f != [] {
      assert MatchPart(f[0], value) != Fails;
      SoundNeverFails(f[1..], value);
    }
  }

  predicate SoundExpr(c: Expr) {
    c.Fields? && Sound(c.minutes) && Sound(c.hours) && Sound(c.days) && Sound(c.months) && Sound(c.weekdays)
  }

  lemma {:induction false} AcceptsNeverFails(c: Expr, t: int)
    requires SoundExpr(c) && t >= 0
    ensures Accepts(c, t) != Fails
  {
    SoundNeverFails(c.minutes, MinuteAt(t));
    SoundNeverFails(c.hours, HourAt(t));
    SoundNeverFails(c.days, DateAt(t).day);
    SoundNeverFails(c.months, DateAt(t).month);
    SoundNeverFails(c.weekdays, WeekdayAt(t));
  }

  /** The expression accepts this minute of this day of the year, whatever the weekday. */
  predicate AcceptsDate(c: Expr, month: int, day: int, hour: int, minute: int) {
    && c.Fields?
    && MatchField(c.minutes, minute) == Yes && MatchField(c.hours, hour) == Yes
    && MatchField(c.days, day) == Yes && MatchField(c.months, month) == Yes
    && AcceptsAll(c.weekdays, 0, 6)
  }

  lemma {:induction false} AcceptsAt(c: Expr, d: Date, hour: int, minute: int)
    requires ValidDate(d) && 0 <= hour < 24 && 0 <= minute < 60 && AcceptsDate(c, d.month, d.day, hour, minute)
    ensures At(d, hour, minute) >= 0 && Accepts(c, At(d, hour, minute)) == Yes
  {
    PartsOfAt(d, hour, minute);
    var w := WeekdayAt(At(d, hour, minute));
    assert 0 <= w <= 6;
  }

  lemma {:induction false} MinutesBetween(day: int, of: int, lo: int, hi: int)
    requires lo < day + 1 <= hi && 0 <= of < MINUTES_IN_A_DAY
    ensures lo * MINUTES_IN_A_DAY <= day * MINUTES_IN_A_DAY + of < hi * MINUTES_IN_A_DAY
  {
  }

  lemma {:induction false} YearOfDay(n: int)
    requires n >= 1
    ensures DateOf(n).year >= 1 && DaysBeforeYear(DateOf(n).year) < n <= DaysBeforeYear(DateOf(n).year + 1)
  {
    OrdinalOfDate(n);
    DayInYear(DateOf(n));
  }

  /** The minutes of a year are those from its first to the one before the next year's first. */
  lemma {:induction false} MinutesOfYear(t: int)
    requires t >= 0
    ensures
      var y := DateAt(t).year;
      y >= 1 && DaysBeforeYear(y) * MINUTES_IN_A_DAY <= t < DaysBeforeYear(y + 1) * MINUTES_IN_A_DAY
  {
    YearOfDay(t / MINUTES_IN_A_DAY + 1);
    var y := DateAt(t).year;
    MinutesBetween(t / MINUTES_IN_A_DAY, t % MINUTES_IN_A_DAY, DaysBeforeYear(y), DaysBeforeYear(y + 1));
  }

  lemma {:induction false} AtInYear(d: Date, hour: int, minute: int)
    requires ValidDate(d) && 0 <= hour < 24 && 0 <= minute < 60
    ensures DaysBeforeYear(d.year) * MINUTES_IN_A_DAY <= At(d, hour, minute)
    ensures At(d, hour, minute) < DaysBeforeYear(d.year + 1) * MINUTES_IN_A_DAY
  {
    DayInYear(d);
    MinutesBetween(Ordinal(d) - 1, hour * 60 + minute, DaysBeforeYear(d.year), DaysBeforeYear(d.year + 1));
  }

  lemma {:induction false} AtIsRepresentable(d: Date, hour: int, minute: int)
    requires ValidDate(d) && 0 <= hour < 24 && 0 <= minute < 60 && d.year <= LAST_YEAR
    ensures At(d, hour, minute) <= LAST_MINUTE
  {
    AtInYear(d, hour, minute);
    YearsGrow(d.year + 1, LAST_YEAR + 1);
  }

  /** The date of this year or of the next one comes up within 366 days. */
  lemma {:induction false} YearlyWithin366Days(first: int, month: int, day: int, hour: int, minute: int)
    returns (y: int)
    requires first >= 0 && 0 <= hour < 24 && 0 <= minute < 60
    requires ValidDate(Date(1, month, day))
    ensures DateAt(first).year <= y <= DateAt(first).year + 1 && ValidDate(Date(y, month, day))
    ensures first <= At(Date(y, month, day), hour, minute) < first + HORIZON
    ensures y > DateAt(first).year ==>
            ValidDate(Date(y - 1, month, day)) && At(Date(y - 1, month, day), hour, minute) < first
  {
    y := DateAt(first).year;
    MinutesOfYear(first);
    var d := Date(y, month, day);
    AtInYear(d, hour, minute);
    YearStep(y);
    if At(d, hour, minute) >= first {
      WithinYear(first, At(d, hour, minute), DaysBeforeYear(y), DaysBeforeYear(y + 1));
    } else {
      AtInYear(NextYear(d), hour, minute);
      AtNextYear(d, hour, minute);
      y := y + 1;
    }
  }

  lemma {:induction false} WithinYear(first: int, at: int, lo: int, hi: int)
    requires lo * MINUTES_IN_A_DAY <= first && at < hi * MINUTES_IN_A_DAY && hi <= lo + 366
    ensures at < first + HORIZON
  {
  }

  function NextYear(d: Date): (e: Date)
    requires ValidDate(d) && !(d.month == 2 && d.day == 29)
    ensures ValidDate(e)
  {
    YearApart(d);
    d.(year := d.year + 1)
  }

  lemma {:induction false} AtNextYear(d: Date, hour: int, minute: int)
    requires ValidDate(d) && !(d.month == 2 && d.day == 29)
    ensures At(NextYear(d), hour, minute) <= At(d, hour, minute) + HORIZON
  {
    YearApart(d);
  }

  lemma {:induction false} YearOfLast(first: int, d: Date, hour: int, minute: int)
    requires first >= 0 && ValidDate(d) && 0 <= hour < 24 && 0 <= minute < 60 && first <= At(d, hour, minute)
    ensures DateAt(first).year <= d.year
  {
    MinutesOfYear(first);
    AtInYear(d, hour, minute);
    if DateAt(first).year > d.year {
      YearsGrow(d.year + 1, DateAt(first).year);
    }
  }

  /**
   366 days are enough.  An expression that raises nowhere and accepts some minute of
   some day of every year has a next run whatever the time asked about, up to the
   last time that minute comes up in the calendar.
   */
  lemma {:induction false} YearlyIsFound(c: Expr, now: nat, month: int, day: int, hour: int, minute: int)
    requires SoundExpr(c) && 0 <= hour < 24 && 0 <= minute < 60 && ValidDate(Date(1, month, day))
    requires AcceptsDate(c, month, day, hour, minute)
    requires FirstMinute(now) <= At(Date(LAST_YEAR, month, day), hour, minute)
    ensures NextAfter(c, now).Due?
  {
    var first := FirstMinute(now);
    var y := YearlyWithin366Days(first, month, day, hour, minute);
    YearOfLast(first, Date(LAST_YEAR, month, day), hour, minute);
    var d := Date(y, month, day);
    AcceptsAt(c, d, hour, minute);
    AtIsRepresentable(d, hour, minute);
    forall s | first <= s < At(d, hour, minute)
      ensures Accepts(c, s) != Fails
    {
      AcceptsNeverFails(c, s);
    }
    FoundByHorizon(c, now, At(d, hour, minute));
  }

  lemma {:induction false} NextDaily(first: int, hour: int, minute: int) returns (target: int)
    requires first >= 0 && 0 <= hour < 24 && 0 <= minute < 60
    ensures first <= target < first + MINUTES_IN_A_DAY && HourAt(target) == hour && MinuteAt(target) == minute
    ensures 1 <= DateAt(target).month <= 12 && 1 <= DateAt(target).day <= 31 && 0 <= WeekdayAt(target) <= 6
  {
    var day := FirstDay(first, hour, minute);
    target := day * MINUTES_IN_A_DAY + hour * 60 + minute;
    SplitMinutes(day, hour, minute);
    OrdinalOfDate(day + 1);
  }

  /** The day on which an hour and minute next come up. */
  lemma {:induction false} FirstDay(first: int, hour: int, minute: int) returns (day: int)
    requires first >= 0 && 0 <= hour < 24 && 0 <= minute < 60
    ensures day >= 0 && first <= day * MINUTES_IN_A_DAY + hour * 60 + minute < first + MINUTES_IN_A_DAY
  {
    day := first / MINUTES_IN_A_DAY;
    if day * MINUTES_IN_A_DAY + hour * 60 + minute < first {
      day := day + 1;
    }
  }

  /** With every day accepted, the next run is less than a day off. */
  lemma {:induction false} DailyIsFoundInADay(c: Expr, now: nat, hour: int, minute: int)
    requires SoundExpr(c) && 0 <= hour < 24 && 0 <= minute < 60
    requires MatchField(c.minutes, minute) == Yes && MatchField(c.hours, hour) == Yes
    requires AcceptsAll(c.days, 1, 31) && AcceptsAll(c.months, 1, 12) && AcceptsAll(c.weekdays, 0, 6)
    requires FirstMinute(now) + MINUTES_IN_A_DAY <= LAST_MINUTE + 1
    ensures NextAfter(c, now).Due? && NextAfter(c, now).when < (FirstMinute(now) + MINUTES_IN_A_DAY) * MINUTE
  {
    var first := FirstMinute(now);
    var target := NextDaily(first, hour, minute);
    assert Accepts(c, target) == Yes;
    forall s | first <= s < target
      ensures Accepts(c, s) != Fails
    {
      AcceptsNeverFails(c, s);
    }
    FoundByHorizon(c, now, target);
  }

  // ------------------------------------------------------------------ one fixed date

  /** A fixed minute of a fixed day of the year, on any weekday. */
  function Yearly(month: nat, day: nat, hour: nat, minute: nat): Expr {
    Fields([Exact(minute)], [Exact(hour)], [Exact(day)], [Exact(month)], [Any])
  }

  lemma {:induction false} YearlyAccepts(t: int, month: nat, day: nat, hour: nat, minute: nat)
    requires t >= 0
    ensures Accepts(Yearly(month, day, hour, minute), t) != Fails
    ensures Accepts(Yearly(month, day, hour, minute), t) == Yes <==>
            DateAt(t).month == month && DateAt(t).day == day && HourAt(t) == hour && MinuteAt(t) == minute
  {
    OnePart(Exact(minute), MinuteAt(t));
    OnePart(Exact(hour), HourAt(t));
    OnePart(Exact(day), DateAt(t).day);
    OnePart(Exact(month), DateAt(t).month);
    OnePart(Any, WeekdayAt(t));
  }

  lemma {:induction false} OnePart(p: Part, value: int)
    ensures MatchField([p], value) == MatchPart(p, value)
  {
    assert [p][1..] == [];
  }

  /** The only accepted minutes are this minute of this day in some year, later in later years. */
  lemma {:induction false} YearlyOnlyAt(t: int, month: nat, day: nat, hour: nat, minute: nat)
    requires t >= 0 && Accepts(Yearly(month, day, hour, minute), t) == Yes
    ensures ValidDate(Date(DateAt(t).year, month, day)) && t == At(Date(DateAt(t).year, month, day), hour, minute)
    ensures 0 <= hour < 24 && 0 <= minute < 60
  {
    YearlyAccepts(t, month, day, hour, minute);
    AtOfParts(t);
  }

  lemma {:induction false} AtGrows(y: int, z: int, month: nat, day: nat, hour: nat, minute: nat)
    requires ValidDate(Date(y, month, day)) && ValidDate(Date(z, month, day)) && y < z
    ensures At(Date(y, month, day), hour, minute) < At(Date(z, month, day), hour, minute)
  {
    OrdinalGrows(Date(y, month, day), Date(z, month, day));
  }

  /** For a fixed date other than 29 February: the trigger has a next run until the date is past for good. */
  lemma {:induction false} YearlyFoundExactlyWhen(now: nat, month: nat, day: nat, hour: nat, minute: nat)
    requires hour < 24 && minute < 60 && ValidDate(Date(1, month, day))
    ensures NextAfter(Yearly(month, day, hour, minute), now).Due? <==>
            FirstMinute(now) <= At(Date(LAST_YEAR, month, day), hour, minute)
  {
    var c := Yearly(month, day, hour, minute);
    if FirstMinute(now) <= At(Date(LAST_YEAR, month, day), hour, minute) {
      YearlyAcceptsItsDate(month, day, hour, minute);
      YearlyIsFound(c, now, month, day, hour, minute);
    } else if NextAfter(c, now).Due? {
      var m := DueIsMinute(c, now);
      YearlyOnlyAt(m, month, day, hour, minute);
      YearIsRepresentable(m);
      if DateAt(m).year < LAST_YEAR {
        AtGrows(DateAt(m).year, LAST_YEAR, month, day, hour, minute);
      }
    }
  }

  lemma {:induction false} YearlyAcceptsItsDate(month: nat, day: nat, hour: nat, minute: nat)
    ensures SoundExpr(Yearly(month, day, hour, minute)) &&
            AcceptsDate(Yearly(month, day, hour, minute), month, day, hour, minute)
  {
    OnePart(Exact(minute), minute);
    OnePart(Exact(hour), hour);
    OnePart(Exact(day), day);
    OnePart(Exact(month), month);
    forall v
      ensures MatchField([Any], v) == Yes
    {
      OnePart(Any, v);
    }
  }

  lemma {:induction false} YearIsRepresentable(t: int)
    requires 0 <= t <= LAST_MINUTE
    ensures DateAt(t).year <= LAST_YEAR
  {
    MinutesOfYear(t);
    if DateAt(t).year > LAST_YEAR {
      YearsGrow(LAST_YEAR + 1, DateAt(t).year);
    }
  }

  /** A year whose next anniversary of the date is 366 days off. */
  predicate LongYear(y: int, month: int) {
    Leap(if month <= 2 then y else y + 1)
  }

  /**
   And no fewer are.  Asked at the minute itself in a year with a long gap, the search
   has to look at its very last minute: one minute less and it finds nothing.
   */
  lemma {:induction false} HorizonIsTight(y: int, month: nat, day: nat, hour: nat, minute: nat)
    requires ValidDate(Date(y, month, day)) && !(month == 2 && day == 29) && hour < 24 && minute < 60
    requires LongYear(y, month) && y < LAST_YEAR
    ensures
      var c := Yearly(month, day, hour, minute);
      var now, next := At(Date(y, month, day), hour, minute), At(Date(y + 1, month, day), hour, minute);
      && now >= 0 && next == FirstMinute(now * MINUTE) + HORIZON - 1 <= LAST_MINUTE
      && NextAfter(c, now * MINUTE) == Due(next * MINUTE)
      && Scan(c, FirstMinute(now * MINUTE), HORIZON - 1) == Never
  {
    var c := Yearly(month, day, hour, minute);
    var now, next := At(Date(y, month, day), hour, minute), At(Date(y + 1, month, day), hour, minute);
    LongGap(y, month, day, hour, minute);
    PartsOfAt(Date(y, month, day), hour, minute);
    PartsOfAt(Date(y + 1, month, day), hour, minute);
    AtIsRepresentable(Date(y + 1, month, day), hour, minute);
    forall s | now + 1 <= s < next
      ensures Accepts(c, s) == No
    {
      QuietBetween(y, s, month, day, hour, minute);
    }
    YearlyAccepts(next, month, day, hour, minute);
    FoundAtTheEnd(c, now, next);
  }

  lemma {:induction false} MinuteAfter(now: int)
    requires now >= 0
    ensures FirstMinute(now * MINUTE) == now + 1
  {
  }

  lemma {:induction false} FoundAtTheEnd(c: Expr, now: int, next: int)
    requires c.Fields? && now >= 0 && next == now + HORIZON <= LAST_MINUTE
    requires Accepts(c, next) == Yes && Quiet(c, now + 1, next)
    ensures FirstMinute(now * MINUTE) == now + 1
    ensures NextAfter(c, now * MINUTE) == Due(next * MINUTE)
    ensures Scan(c, FirstMinute(now * MINUTE), HORIZON - 1) == Never
  {
    var first := FirstMinute(now * MINUTE);
    MinuteAfter(now);
    FoundLast(c, first, next);
    NeverBefore(c, first, next);
  }

  lemma {:induction false} FoundLast(c: Expr, first: int, next: int)
    requires c.Fields? && first >= 0 && next == first + HORIZON - 1 <= LAST_MINUTE
    requires Accepts(c, next) == Yes && Quiet(c, first, next)
    ensures Scan(c, first, HORIZON) == Due(next * MINUTE)
  {
    ScanFinds(c, first, HORIZON);
    assert FirstMatch(c, first, HORIZON, next);
  }

  lemma {:induction false} NeverBefore(c: Expr, first: int, next: int)
    requires c.Fields? && first >= 0 && next == first + HORIZON - 1 <= LAST_MINUTE && Quiet(c, first, next)
    ensures Scan(c, first, HORIZON - 1) == Never
  {
    ScanFinds(c, first, HORIZON - 1);
  }

  lemma {:induction false} LongGap(y: int, month: nat, day: nat, hour: nat, minute: nat)
    requires ValidDate(Date(y, month, day)) && !(month == 2 && day == 29) && LongYear(y, month)
    ensures ValidDate(Date(y + 1, month, day))
    ensures At(Date(y + 1, month, day), hour, minute) == At(Date(y, month, day), hour, minute) + HORIZON
  {
    YearApart(Date(y, month, day));
  }

  lemma {:induction false} QuietBetween(y: int, s: int, month: nat, day: nat, hour: nat, minute: nat)
    requires ValidDate(Date(y, month, day)) && ValidDate(Date(y + 1, month, day)) && s >= 0
    requires At(Date(y, month, day), hour, minute) < s < At(Date(y + 1, month, day), hour, minute)
    ensures Accepts(Yearly(month, day, hour, minute), s) == No
  {
    YearlyAccepts(s, month, day, hour, minute);
    if Accepts(Yearly(month, day, hour, minute), s) == Yes {
      YearlyOnlyAt(s, month, day, hour, minute);
      var z := DateAt(s).year;
      if z < y {
        AtGrows(z, y, month, day, hour, minute);
      } else if z > y + 1 {
        AtGrows(y + 1, z, month, day, hour, minute);
      }
    }
  }

  // ------------------------------------------------------------------ 29 February

  /** Whether the leap day of year `y` lies in the calendar and in the minutes the search looks at. */
  predicate LeapDayInReach(first: int, y: int, hour: nat, minute: nat) {
    1 <= y <= LAST_YEAR && Leap(y) && first <= At(Date(y, 2, 29), hour, minute) < first + HORIZON
  }

  /**
   A job for 29 February has a next run exactly when the leap day of this year or of
   the next one is within reach; otherwise the trigger gives up although there is one.
   */
  lemma {:induction false} LeapDayFoundExactlyWhen(now: nat, hour: nat, minute: nat)
    requires hour < 24 && minute < 60
    ensures
      var first := FirstMinute(now);
      var y := DateAt(first).year;
      NextAfter(Yearly(2, 29, hour, minute), now).Due? <==>
      LeapDayInReach(first, y, hour, minute) || LeapDayInReach(first, y + 1, hour, minute)
  {
    var first := FirstMinute(now);
    var y := DateAt(first).year;
    if LeapDayInReach(first, y, hour, minute) {
      LeapDayIsFound(now, y, hour, minute);
    } else if LeapDayInReach(first, y + 1, hour, minute) {
      LeapDayIsFound(now, y + 1, hour, minute);
    } else if NextAfter(Yearly(2, 29, hour, minute), now).Due? {
      var z := LeapDayFoundIn(now, hour, minute);
      LeapDayIsNear(first, z, hour, minute);
    }
  }

  lemma {:induction false} LeapDayIsNear(first: int, z: int, hour: nat, minute: nat)
    requires first >= 0 && hour < 24 && minute < 60 && LeapDayInReach(first, z, hour, minute)
    ensures DateAt(first).year <= z <= DateAt(first).year + 1
  {
    MinutesOfYear(first);
    var y := DateAt(first).year;
    if z < y {
      LeapDayTooEarly(first, y, z, hour, minute);
    } else if z > y + 1 {
      LeapDayTooFar(first, y, z, hour, minute);
    }
  }

  lemma {:induction false} LeapDayFoundIn(now: nat, hour: nat, minute: nat) returns (z: int)
    requires hour < 24 && minute < 60 && NextAfter(Yearly(2, 29, hour, minute), now).Due?
    ensures LeapDayInReach(FirstMinute(now), z, hour, minute)
  {
    var m := DueIsMinute(Yearly(2, 29, hour, minute), now);
    YearlyOnlyAt(m, 2, 29, hour, minute);
    YearIsRepresentable(m);
    z := DateAt(m).year;
  }

  lemma {:induction false} LeapDayTooEarly(first: int, y: int, z: int, hour: nat, minute: nat)
    requires 1 <= z < y && Leap(z) && hour < 24 && minute < 60
    requires DaysBeforeYear(y) * MINUTES_IN_A_DAY <= first
    ensures At(Date(z, 2, 29), hour, minute) < first
  {
    AtInYear(Date(z, 2, 29), hour, minute);
    YearsGrow(z + 1, y);
  }

  lemma {:induction false} LeapDayTooFar(first: int, y: int, z: int, hour: nat, minute: nat)
    requires 1 <= y && y + 2 <= z && Leap(z)
    requires first < DaysBeforeYear(y + 1) * MINUTES_IN_A_DAY
    ensures At(Date(z, 2, 29), hour, minute) >= first + HORIZON
  {
    YearStep(y + 1);
    YearsGrow(y + 2, z);
    assert Ordinal(Date(z, 2, 29)) == DaysBeforeYear(z) + 60;
  }

  /** With no part that raises and no end of time in reach, an answer is missing only because there is none. */
  lemma {:induction false} ScanNeverRaises(c: Expr, t: int, n: nat)
    requires c.Fields? && 0 <= t && t + n <= LAST_MINUTE
    requires forall s :: t <= s < t + n ==> Accepts(c, s) != Fails
    ensures Scan(c, t, n) != Error
    decreases n
  {
    if n > 0 {
      ScanNeverRaises(c, t + 1, n - 1);
    }
  }

  lemma {:induction false} LeapDayIsFound(now: nat, y: int, hour: nat, minute: nat)
    requires hour < 24 && minute < 60 && LeapDayInReach(FirstMinute(now), y, hour, minute)
    ensures NextAfter(Yearly(2, 29, hour, minute), now).Due?
  {
    var c, d := Yearly(2, 29, hour, minute), Date(y, 2, 29);
    var t := At(d, hour, minute);
    AtIsRepresentable(d, hour, minute);
    PartsOfAt(d, hour, minute);
    YearlyAccepts(t, 2, 29, hour, minute);
    forall s | FirstMinute(now) <= s < t
      ensures Accepts(c, s) != Fails
    {
      YearlyAccepts(s, 2, 29, hour, minute);
    }
    FoundByHorizon(c, now, t);
  }

  lemma {:induction false} RoomToSearch(t: int)
    requires t >= 0 && DateAt(t).year + 3 <= LAST_YEAR + 1
    ensures t + HORIZON <= LAST_MINUTE
  {
    MinutesOfYear(t);
    var y := DateAt(t).year;
    YearStep(y + 1);
    YearStep(y + 2);
    YearsGrow(y + 3, LAST_YEAR + 1);
    DaysToMinutes(t, DaysBeforeYear(y + 1), DaysBeforeYear(LAST_YEAR + 1));
  }

  lemma {:induction false} DaysToMinutes(t: int, soon: int, last: int)
    requires t < soon * MINUTES_IN_A_DAY && soon + 366 <= last
    ensures t + HORIZON <= last * MINUTES_IN_A_DAY - 1
  {
  }

  /** Asked at a leap day's own minute, the trigger gives up: the next leap day is four years off. */
  lemma {:induction false} LeapDayIsLast(y: int, hour: nat, minute: nat)
    requires Leap(y) && 1 <= y && y + 2 < LAST_YEAR && hour < 24 && minute < 60
    ensures At(Date(y, 2, 29), hour, minute) >= 0
    ensures NextAfter(Yearly(2, 29, hour, minute), At(Date(y, 2, 29), hour, minute) * MINUTE) == Never
  {
    var t := At(Date(y, 2, 29), hour, minute);
    PartsOfAt(Date(y, 2, 29), hour, minute);
    var c, first := Yearly(2, 29, hour, minute), t + 1;
    assert FirstMinute(t * MINUTE) == first;
    NextMinuteInYear(y, hour, minute);
    NoneInReach(y, hour, minute);
    LeapDayFoundExactlyWhen(t * MINUTE, hour, minute);
    forall s | first <= s < first + HORIZON
      ensures Accepts(c, s) != Fails
    {
      YearlyAccepts(s, 2, 29, hour, minute);
    }
    RoomToSearch(first);
    ScanNeverRaises(c, first, HORIZON);
  }

  lemma {:induction false} NoneInReach(y: int, hour: nat, minute: nat)
    requires Leap(y) && 1 <= y
    ensures !LeapDayInReach(At(Date(y, 2, 29), hour, minute) + 1, y, hour, minute)
    ensures !LeapDayInReach(At(Date(y, 2, 29), hour, minute) + 1, y + 1, hour, minute)
  {
    assert !Leap(y + 1);
  }

  lemma {:induction false} YearOfMinute(t: int, y: int)
    requires y >= 1 && 0 <= t && DaysBeforeYear(y) * MINUTES_IN_A_DAY <= t < DaysBeforeYear(y + 1) * MINUTES_IN_A_DAY
    ensures DateAt(t).year == y
  {
    MinutesOfYear(t);
    if DateAt(t).year < y {
      YearsGrow(DateAt(t).year + 1, y);
    } else if DateAt(t).year > y {
      YearsGrow(y + 1, DateAt(t).year);
    }
  }

  lemma {:induction false} NextMinuteInYear(y: int, hour: nat, minute: nat)
    requires Leap(y) && 1 <= y && hour < 24 && minute < 60
    ensures At(Date(y, 2, 29), hour, minute) >= 0
    ensures DateAt(At(Date(y, 2, 29), hour, minute) + 1).year == y
  {
    PartsOfAt(Date(y, 2, 29), hour, minute);
    AtInYear(Date(y, 2, 29), hour, minute);
    AtInYear(Date(y, 3, 1), 0, 0);
    BeforeMarch(y, hour, minute);
    YearOfMinute(At(Date(y, 2, 29), hour, minute) + 1, y);
  }

  lemma {:induction false} BeforeMarch(y: int, hour: nat, minute: nat)
    requires Leap(y) && 1 <= y && hour < 24 && minute < 60
    ensures At(Date(y, 2, 29), hour, minute) < At(Date(y, 3, 1), 0, 0)
  {
    OrdinalGrows(Date(y, 2, 29), Date(y, 3, 1));
  }
}
