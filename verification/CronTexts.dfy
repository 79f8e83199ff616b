/**
 What the text of a cron expression says: when a part, a field and a whole expression
 accept a time, in terms of the text, of multiples and of the calendar.
 */
module CronTexts {
  import opened Common
  import opened Calendar
  import opened Crons
  import opened Texts

  ghost predicate IsMultiple(v: int, n: int) {
    exists q :: v == n * q
  }

  lemma {:induction false} ProductGrows(a: int, b: int)
    requires a > 0 && b > 0
    ensures a * b >= a
  {
    assert a * b == a * (b - 1) + a;
  }

  lemma {:induction false} SignsMove(a: int, b: int)
    ensures a * b == (-a) * (-b) && a * b == -((-a) * b) && a * b == -(a * (-b))
  {
  }

  lemma {:induction false} SmallMultiple(n: int, q: int)
    requires n != 0 && 0 <= n * q < if n < 0 then -n else n
    ensures q == 0
  {
    SignsMove(n, q);
    if q > 0 {
      ProductGrows(if n > 0 then n else -n, q);
    } else if q < 0 {
      ProductGrows(if n > 0 then n else -n, -q);
    }
  }

  lemma {:induction false} MultipleIsRemainder(v: int, n: int)
    requires n != 0
    ensures v % n == 0 <==> IsMultiple(v, n)
  {
    assert v == n * (v / n) + v % n;
    if q :| v == n * q {
      assert n * (q - v / n) == v % n;
      SmallMultiple(n, q - v / n);
    }
  }

  /** The part is `*`, or a step of which the value is a multiple, or the value in digits. */
  ghost predicate PartSays(text: string, num: Numerals, v: int) {
    || text == "*"
    || (|text| >= 2 && text[..2] == "*/" && num.toInt(text[2..]).Some? && num.toInt(text[2..]).value != 0
        && IsMultiple(v, num.toInt(text[2..]).value))
    || (text != "*" && (|text| < 2 || text[..2] != "*/") && num.isDigit(text) && num.toInt(text) == Some(v))
  }

  /** The part is a step that is no number or zero, or digits that are no number. */
  predicate PartRaises(text: string, num: Numerals) {
    || (|text| >= 2 && text[..2] == "*/" && (num.toInt(text[2..]) == None || num.toInt(text[2..]) == Some(0)))
    || (text != "*" && (|text| < 2 || text[..2] != "*/") && num.isDigit(text) && num.toInt(text) == None)
  }

  lemma {:induction false} PartMeaning(text: string, num: Numerals, v: int)
    ensures MatchPart(ParsePart(text, num), v) == Yes <==> PartSays(text, num, v)
    ensures MatchPart(ParsePart(text, num), v) == Fails <==> PartRaises(text, num)
  {
    if "*/" <= text {
      assert text[..2] == "*/" && text != "*";
      match num.toInt(text[2..])
      case Some(n) =>
        if n != 0 {
          MultipleIsRemainder(v, n);
        }
      case None =>
    } else {
      assert |text| < 2 || text[..2] != "*/";
    }
  }

  /** Part `i` of the field is the first that says the value or raises, and it says it. */
  ghost predicate SaysAt(field: string, num: Numerals, v: int, i: int) {
    var parts := Split(field, ',');
    && 0 <= i < |parts| && PartSays(parts[i], num, v)
    && forall j :: 0 <= j < i ==> !PartSays(parts[j], num, v) && !PartRaises(parts[j], num)
  }

  ghost predicate FieldSays(field: string, num: Numerals, v: int) {
    exists i :: SaysAt(field, num, v, i)
  }

  lemma {:induction false} DecidesIsSays(field: string, num: Numerals, v: int, i: int)
    ensures DecidedAt(ParseField(field, num), v, i, Yes) <==> SaysAt(field, num, v, i)
  {
    var parts, f := Split(field, ','), ParseField(field, num);
    forall j | 0 <= j < |parts|
      ensures MatchPart(f[j], v) == Yes <==> PartSays(parts[j], num, v)
      ensures MatchPart(f[j], v) == Fails <==> PartRaises(parts[j], num)
    {
      assert f[j] == ParsePart(parts[j], num);
      PartMeaning(parts[j], num, v);
    }
  }

  /** A field accepts a value if and only if one of its parts says it, and none before raises. */
  lemma {:induction false} FieldMeaning(field: string, num: Numerals, v: int)
    ensures MatchField(ParseField(field, num), v) == Yes <==> FieldSays(field, num, v)
  {
    MatchFieldMeaning(ParseField(field, num), v);
    forall i
      ensures DecidedAt(ParseField(field, num), v, i, Yes) <==> SaysAt(field, num, v, i)
    {
      DecidesIsSays(field, num, v, i);
    }
    if FieldSays(field, num, v) {
      var i :| SaysAt(field, num, v, i);
      assert DecidedAt(ParseField(field, num), v, i, Yes);
    }
  }

  /** The five fields accept the minute, the hour, the day of the month, the month and the day of the week. */
  ghost predicate ExprSays(text: string, num: Numerals, d: Date, hour: int, minute: int, weekday: int) {
    var f := SplitSpace(text);
    && |f| == 5
    && FieldSays(f[0], num, minute) && FieldSays(f[1], num, hour) && FieldSays(f[2], num, d.day)
    && FieldSays(f[3], num, d.month) && FieldSays(f[4], num, weekday)
  }

  /** An expression accepts a time if and only if its five fields accept that time's parts. */
  lemma {:induction false} ExprMeaning(text: string, num: Numerals, d: Date, hour: int, minute: int)
    requires ValidDate(d) && 0 <= hour < 24 && 0 <= minute < 60
    ensures At(d, hour, minute) >= 0
    ensures ParseExpr(text, num).Fields? <==> |SplitSpace(text)| == 5
    ensures ParseExpr(text, num).Fields? ==>
      (Accepts(ParseExpr(text, num), At(d, hour, minute)) == Yes <==>
       ExprSays(text, num, d, hour, minute, WeekdayAt(At(d, hour, minute))))
  {
    PartsOfAt(d, hour, minute);
    var f := SplitSpace(text);
    if |f| == 5 {
      FieldMeaning(f[0], num, minute);
      FieldMeaning(f[1], num, hour);
      FieldMeaning(f[2], num, d.day);
      FieldMeaning(f[3], num, d.month);
      FieldMeaning(f[4], num, WeekdayAt(At(d, hour, minute)));
    }
  }

  // ------------------------------------------------------------------ every n minutes

  /** `*\/n * * * *`, written with these digits. */
  function EveryMinutes(digits: string): string {
    "*/" + digits + " * * * *"
  }

  predicate PlainDigits(digits: string) {
    forall c :: c in digits ==> !IsSpace(c) && c != ','
  }

  lemma {:induction false} StarField(s: string)
    requires s == "" || IsSpace(s[0])
    ensures SplitSpace(" *" + s) == ["*"] + SplitSpace(s)
  {
    assert " *" + s == [' '] + ("*" + s);
    SplitSpaceSkips(' ', "*" + s);
    SplitSpaceTakes("*", s);
  }

  lemma {:induction false} EveryMinutesSplits(digits: string)
    requires PlainDigits(digits)
    ensures SplitSpace(EveryMinutes(digits)) == ["*/" + digits, "*", "*", "*", "*"]
  {
    FourStars();
    PlainStep(digits);
    SplitSpaceTakes("*/" + digits, " * * * *");
    FiveFields("*/" + digits);
  }

  lemma {:induction false} FiveFields(first: string)
    ensures [first] + ["*", "*", "*", "*"] == [first, "*", "*", "*", "*"]
  {
  }

  lemma {:induction false} PlainStep(digits: string)
    requires PlainDigits(digits)
    ensures PlainDigits("*/" + digits)
  {
  }

  /** `n` more fields that are a star. */
  function Stars(n: nat): string {
    if n == 0 then "" else " *" + Stars(n - 1)
  }

  lemma {:induction false} StarsSplit(n: nat)
    ensures SplitSpace(Stars(n)) == seq(n, i => "*")
  {
    if n > 0 {
      StarField(Stars(n - 1));
      StarsSplit(n - 1);
    }
  }

  lemma {:induction false} FourStars()
    ensures SplitSpace(" * * * *") == ["*", "*", "*", "*"]
  {
    StarsSplit(4);
    assert Stars(0) == "" && Stars(1) == " *" && Stars(2) == " * *";
    assert Stars(4) == " *" + (" *" + Stars(2));
    assert Stars(4) == " * * * *";
  }

  lemma {:induction false} StarSays(num: Numerals, v: int)
    ensures FieldSays("*", num, v)
  {
    SplitWhole("*", ',');
    assert SaysAt("*", num, v, 0);
  }

  lemma {:induction false} StepSays(digits: string, num: Numerals, n: int, v: int)
    requires PlainDigits(digits) && num.toInt(digits) == Some(n) && n > 0
    ensures FieldSays("*/" + digits, num, v) <==> IsMultiple(v, n)
  {
    var field := "*/" + digits;
    SplitWhole(field, ',');
    assert field[2..] == digits && field[..2] == "*/";
    if IsMultiple(v, n) {
      assert SaysAt(field, num, v, 0);
    }
  }

  /** It accepts exactly the minutes whose minute of the hour is a multiple of n. */
  lemma {:induction false} EveryMinutesAccepts(digits: string, num: Numerals, n: int, t: int)
    requires PlainDigits(digits) && num.toInt(digits) == Some(n) && n > 0 && t >= 0
    ensures ParseExpr(EveryMinutes(digits), num).Fields?
    ensures Accepts(ParseExpr(EveryMinutes(digits), num), t) == if t % 60 % n == 0 then Yes else No
  {
    var text := EveryMinutes(digits);
    var c := ParseExpr(text, num);
    EveryMinutesSplits(digits);
    AtOfParts(t);
    var d := DateAt(t);
    ExprMeaning(text, num, d, HourAt(t), MinuteAt(t));
    StarSays(num, HourAt(t));
    StarSays(num, d.day);
    StarSays(num, d.month);
    StarSays(num, WeekdayAt(t));
    StepSays(digits, num, n, t % 60);
    MultipleIsRemainder(t % 60, n);
    StepNeverRaises(digits, num, n, t % 60);
  }

  lemma {:induction false} StepNeverRaises(digits: string, num: Numerals, n: int, v: int)
    requires PlainDigits(digits) && num.toInt(digits) == Some(n) && n > 0
    ensures MatchField(ParseField("*/" + digits, num), v) != Fails
    ensures MatchField(ParseField("*", num), v) == Yes
  {
    var field := "*/" + digits;
    SplitWhole(field, ',');
    SplitWhole("*", ',');
    PartMeaning(field, num, v);
    assert field[2..] == digits && field[..2] == "*/";
    assert ParseField(field, num) == [ParsePart(field, num)];
    assert ParseField("*", num) == [ParsePart("*", num)];
    assert [ParsePart(field, num)][1..] == [] && [ParsePart("*", num)][1..] == [];
  }

  /** The next whole hour is at most sixty minutes off. */
  lemma {:induction false} NextHour(t: int) returns (h: int)
    requires t >= 0
    ensures t <= h < t + 60 && h % 60 == 0
  {
    h := (t + 59) / 60 * 60;
  }

  /**
   The trigger `*\/n * * * *`: its next run is the first whole minute after `now`, in
   microseconds, whose minute of the hour is a multiple of n, and it is within the hour.
   */
  lemma {:induction false} EveryMinutesNext(digits: string, num: Numerals, n: int, now: nat) returns (m: int)
    requires PlainDigits(digits) && num.toInt(digits) == Some(n) && n > 0
    requires now / 60_000_000 + 60 <= LAST_MINUTE
    ensures NextAfter(ParseExpr(EveryMinutes(digits), num), now) == Due(m * 60_000_000)
    ensures now < m * 60_000_000 <= now + 60 * 60_000_000 && IsMultiple(m % 60, n)
    ensures forall k :: now < k * 60_000_000 < m * 60_000_000 ==> !IsMultiple(k % 60, n)
  {
    var c, first := ParseExpr(EveryMinutes(digits), num), now / 60_000_000 + 1;
    forall t: int | t >= 0
      ensures c.Fields? && Accepts(c, t) == if t % 60 % n == 0 then Yes else No
    {
      EveryMinutesAccepts(digits, num, n, t);
    }
    EveryMinutesAccepts(digits, num, n, first);
    var h := NextHour(first);
    assert Accepts(c, h) == Yes;
    m := FirstAccepted(c, first, h);
    NextIsLeast(c, now, m);
    MultipleIsRemainder(m % 60, n);
    forall k | now < k * 60_000_000 < m * 60_000_000
      ensures !IsMultiple(k % 60, n)
    {
      assert first <= k < m && Accepts(c, k) == No;
      MultipleIsRemainder(k % 60, n);
    }
  }

  lemma {:induction false} FirstAccepted(c: Expr, first: int, h: int) returns (m: int)
    requires c.Fields? && 0 <= first <= h < first + HORIZON && h <= LAST_MINUTE && Accepts(c, h) == Yes
    requires forall t :: first <= t <= h ==> Accepts(c, t) != Fails
    ensures m <= h && FirstMatch(c, first, HORIZON, m)
  {
    m := first;
    while Accepts(c, m) != Yes
      invariant first <= m <= h && Quiet(c, first, m)
      decreases h - m
    {
      m := m + 1;
    }
  }

  // ------------------------------------------------------------------ what raises

  ghost predicate RaisesAt(field: string, num: Numerals, v: int, i: int) {
    var parts := Split(field, ',');
    && 0 <= i < |parts| && PartRaises(parts[i], num)
    && forall j :: 0 <= j <= i ==> !PartSays(parts[j], num, v) && (j < i ==> !PartRaises(parts[j], num))
  }

  /** A field raises on a value if and only if one of its parts does and none before that says the value. */
  ghost predicate FieldRaises(field: string, num: Numerals, v: int) {
    exists i :: RaisesAt(field, num, v, i)
  }

  lemma {:induction false} DecidesIsRaises(field: string, num: Numerals, v: int, i: int)
    ensures DecidedAt(ParseField(field, num), v, i, Fails) <==> RaisesAt(field, num, v, i)
  {
    var parts, f := Split(field, ','), ParseField(field, num);
    forall j | 0 <= j < |parts|
      ensures MatchPart(f[j], v) == Yes <==> PartSays(parts[j], num, v)
      ensures MatchPart(f[j], v) == Fails <==> PartRaises(parts[j], num)
    {
      assert f[j] == ParsePart(parts[j], num);
      PartMeaning(parts[j], num, v);
    }
  }

  lemma {:induction false} FieldRaising(field: string, num: Numerals, v: int)
    ensures MatchField(ParseField(field, num), v) == Fails <==> FieldRaises(field, num, v)
  {
    MatchFieldMeaning(ParseField(field, num), v);
    forall i
      ensures DecidedAt(ParseField(field, num), v, i, Fails) <==> RaisesAt(field, num, v, i)
    {
      DecidesIsRaises(field, num, v, i);
    }
    if FieldRaises(field, num, v) {
      var i :| RaisesAt(field, num, v, i);
      assert DecidedAt(ParseField(field, num), v, i, Fails);
    }
  }

  /**
   An expression without exactly five fields raises.  One that has them raises on a time
   if and only if a field raises on its part of the time and every field before accepts.
   */
  lemma {:induction false} ExprRaising(text: string, num: Numerals, d: Date, hour: int, minute: int, now: nat)
    requires ValidDate(d) && 0 <= hour < 24 && 0 <= minute < 60
    ensures At(d, hour, minute) >= 0
    ensures |SplitSpace(text)| != 5 ==> NextAfter(ParseExpr(text, num), now) == Error
    ensures |SplitSpace(text)| == 5 ==>
      (Accepts(ParseExpr(text, num), At(d, hour, minute)) == Fails <==>
       var f, v := SplitSpace(text), [minute, hour, d.day, d.month, WeekdayAt(At(d, hour, minute))];
       exists k :: 0 <= k < 5 && FieldRaises(f[k], num, v[k]) && forall j :: 0 <= j < k ==> FieldSays(f[j], num, v[j]))
  {
    PartsOfAt(d, hour, minute);
    var f := SplitSpace(text);
    if |f| == 5 {
      var v := [minute, hour, d.day, d.month, WeekdayAt(At(d, hour, minute))];
      forall k | 0 <= k < 5
        ensures MatchField(ParseField(f[k], num), v[k]) == Yes <==> FieldSays(f[k], num, v[k])
        ensures MatchField(ParseField(f[k], num), v[k]) == Fails <==> FieldRaises(f[k], num, v[k])
      {
        FieldMeaning(f[k], num, v[k]);
        FieldRaising(f[k], num, v[k]);
      }
      FirstRaises(ParseExpr(text, num), At(d, hour, minute), f, v, num);
    }
  }

  lemma {:induction false} FirstRaises(c: Expr, t: int, f: seq<string>, v: seq<int>, num: Numerals)
    requires c.Fields? && t >= 0 && |f| == 5 && |v| == 5
    requires v == [MinuteAt(t), HourAt(t), DateAt(t).day, DateAt(t).month, WeekdayAt(t)]
    requires [c.minutes, c.hours, c.days, c.months, c.weekdays] ==
             [ParseField(f[0], num), ParseField(f[1], num), ParseField(f[2], num), ParseField(f[3], num),
              ParseField(f[4], num)]
    requires forall k :: 0 <= k < 5 ==> (MatchField(ParseField(f[k], num), v[k]) == Yes <==> FieldSays(f[k], num, v[k]))
    requires forall k :: 0 <= k < 5 ==>
               (MatchField(ParseField(f[k], num), v[k]) == Fails <==> FieldRaises(f[k], num, v[k]))
    ensures Accepts(c, t) == Fails <==>
            exists k :: 0 <= k < 5 && FieldRaises(f[k], num, v[k])
                        && forall j :: 0 <= j < k ==> FieldSays(f[j], num, v[j])
  {
    var p := [c.minutes, c.hours, c.days, c.months, c.weekdays];
    assert c.minutes == p[0] && c.hours == p[1] && c.days == p[2] && c.months == p[3] && c.weekdays == p[4];
    if Accepts(c, t) == Fails {
      var k := if MatchField(p[0], v[0]) != Yes then 0 else if MatchField(p[1], v[1]) != Yes then 1
               else if MatchField(p[2], v[2]) != Yes then 2 else if MatchField(p[3], v[3]) != Yes then 3 else 4;
      assert FieldRaises(f[k], num, v[k]);
    }
  }
}
