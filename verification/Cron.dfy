/**
 The five-field cron trigger: which minutes a field accepts, and the search for
 the next accepted minute over 366 days.
 */
module Crons {
  import opened Common
  import opened Calendar
  import opened Texts

  /** `int` and `isdigit`: the number a text stands for, if `int` takes it, and whether it is all digits. */
  datatype Numerals = Numerals(toInt: string -> Option<int>, isDigit: string -> bool)

  /** One comma-separated part: `*`, `*` over a step, digits, one that raises when it is reached, or anything else. */
  datatype Part = Any | Every(step: int) | Exact(n: int) | Broken | Other

  datatype Expr =
    | Malformed
    | Fields(minutes: seq<Part>, hours: seq<Part>, days: seq<Part>, months: seq<Part>, weekdays: seq<Part>)

  datatype Verdict = Yes | No | Fails

  /** The answer of a trigger: an instant, none, or an exception. */
  datatype Next = Due(when: int) | Never | Error

  /** The search looks at this many minutes. */
  const HORIZON := 366 * 24 * 60

  function ParsePart(text: string, num: Numerals): Part {
    if text == "*" then Any
    else if "*/" <= text then
      match num.toInt(text[2..]) case Some(n) => Every(n) case None => Broken
    else if num.isDigit(text) then
      match num.toInt(text) case Some(n) => Exact(n) case None => Broken
    else Other
  }

  function ParseParts(texts: seq<string>, num: Numerals): (parts: seq<Part>)
    ensures |parts| == |texts|
  {
    seq(|texts|, i requires 0 <= i < |texts| => ParsePart(texts[i], num))
  }

  function ParseField(text: string, num: Numerals): seq<Part> {
    ParseParts(Split(text, ','), num)
  }

  /** Five fields between space; any other number of them raises. */
  function ParseExpr(text: string, num: Numerals): Expr {
    var f := SplitSpace(text);
    if |f| != 5 then Malformed
    else
      Fields(ParseField(f[0], num), ParseField(f[1], num), ParseField(f[2], num), ParseField(f[3], num),
             ParseField(f[4], num))
  }

  function MatchPart(p: Part, value: int): Verdict {
    match p
    case Any => Yes
    case Every(step) => if step == 0 then Fails else if value % step == 0 then Yes else No
    case Exact(n) => if n == value then Yes else No
    case Broken => Fails
    case Other => No
  }

  /** The first part that accepts or raises decides. */
  function MatchField(f: seq<Part>, value: int): Verdict {
    if f == [] then No
    else
      var v := MatchPart(f[0], value);
      if v == No then MatchField(f[1..], value) else v
  }

  /** All parts before position `i` turn the value down. */
  ghost predicate NoBefore(f: seq<Part>, value: int, i: int)
    requires i <= |f|
  {
    forall j :: 0 <= j < i ==> MatchPart(f[j], value) == No
  }

  ghost predicate DecidedAt(f: seq<Part>, value: int, i: int, v: Verdict) {
    0 <= i < |f| && MatchPart(f[i], value) == v && NoBefore(f, value, i)
  }

  /**
   A field accepts a value, or raises on it, if and only if one of its parts does and
   every part before that one turns it down; otherwise all parts turn it down.
   */
  lemma {:induction false} MatchFieldMeaning(f: seq<Part>, value: int)
    ensures MatchField(f, value) == Yes <==> exists i :: DecidedAt(f, value, i, Yes)
    ensures MatchField(f, value) == Fails <==> exists i :: DecidedAt(f, value, i, Fails)
    ensures MatchField(f, value) == No <==> NoBefore(f, value, |f|)
  {
    if f != [] {
      MatchFieldMeaning(f[1..], value);
      if MatchPart(f[0], value) == No {
        ShiftExists(f, value, Yes);
        ShiftExists(f, value, Fails);
        assert forall j :: 0 <= j < |f[1..]| ==> f[1..][j] == f[j + 1];
      } else {
        assert DecidedAt(f, value, 0, MatchPart(f[0], value));
      }
    }
  }

  lemma {:induction false} ShiftDecision(f: seq<Part>, value: int, i: int, v: Verdict)
    requires f != [] && MatchPart(f[0], value) == No && v != No
    ensures DecidedAt(f, value, i + 1, v) <==> DecidedAt(f[1..], value, i, v)
  {
    if 0 <= i < |f| - 1 {
      assert f[1..][i] == f[i + 1];
      forall j | 0 <= j < i
        ensures f[1..][j] == f[j + 1]
      {
      }
      assert NoBefore(f, value, i + 1) <==> NoBefore(f[1..], value, i) by {
        assert forall j :: 0 < j < i + 1 ==> f[j] == f[1..][j - 1];
      }
    }
  }

  lemma {:induction false} ShiftExists(f: seq<Part>, value: int, v: Verdict)
    requires f != [] && MatchPart(f[0], value) == No && v != No
    ensures (exists i :: DecidedAt(f, value, i, v)) <==> (exists i :: DecidedAt(f[1..], value, i, v))
  {
    if i :| DecidedAt(f, value, i, v) {
      ShiftDecision(f, value, i - 1, v);
      assert DecidedAt(f[1..], value, i - 1, v);
    }
    if i :| DecidedAt(f[1..], value, i, v) {
      ShiftDecision(f, value, i, v);
      assert DecidedAt(f, value, i + 1, v);
    }
  }

  /** `_match`, on the text of a field. */
  method Matches(text: string, value: int, num: Numerals) returns (v: Verdict)
    ensures v == MatchField(ParseField(text, num), value)
  {
    var texts := Split(text, ',');
    ghost var parts := ParseField(text, num);
    for i := 0 to |texts|
      invariant MatchField(parts[i..], value) == MatchField(parts, value)
    {
      var part := texts[i];
      if part == "*" {
        return Yes;
      }
      if "*/" <= part {
        match num.toInt(part[2..]) {
          case None => return Fails;
          case Some(n) =>
            if n == 0 {
              return Fails;
            }
            if value % n == 0 {
              return Yes;
            }
        }
      } else if num.isDigit(part) {
        match num.toInt(part) {
          case None => return Fails;
          case Some(n) =>
            if n == value {
              return Yes;
            }
        }
      }
    }
    v := No;
  }

  /** `and` between two verdicts: the second is looked at only when the first accepts. */
  function And(v: Verdict, w: Verdict): Verdict {
    if v == Yes then w else v
  }

  function Accepts(c: Expr, t: int): Verdict
    requires c.Fields? && t >= 0
  {
    var d := DateAt(t);
    And(MatchField(c.minutes, MinuteAt(t)), And(MatchField(c.hours, HourAt(t)),
        And(MatchField(c.days, d.day), And(MatchField(c.months, d.month), MatchField(c.weekdays, WeekdayAt(t))))))
  }

  /** Looks at up to `n` minutes from `t`; going past the last representable minute raises. */
  function Scan(c: Expr, t: int, n: nat): Next
    requires c.Fields? && 0 <= t <= LAST_MINUTE
    decreases n
  {
    if n == 0 then Never
    else
      match Accepts(c, t)
      case Fails => Error
      case Yes => Due(t * MINUTE)
      case No => if t == LAST_MINUTE then Error else Scan(c, t + 1, n - 1)
  }

  /** The whole minute after `now`. */
  function FirstMinute(now: int): int {
    now / MINUTE + 1
  }

  function NextAfter(c: Expr, now: int): Next
    requires now >= 0
  {
    if c.Malformed? || FirstMinute(now) > LAST_MINUTE then Error else Scan(c, FirstMinute(now), HORIZON)
  }

  method NextRun(text: string, num: Numerals, now: int) returns (r: Next)
    requires now >= 0
    ensures r == NextAfter(ParseExpr(text, num), now)
  {
    var fields := SplitSpace(text);
    if |fields| != 5 {
      return Error;
    }
    ghost var c := ParseExpr(text, num);
    var t := now / MINUTE + 1;
    if t > LAST_MINUTE {
      return Error;
    }
    for i := 0 to HORIZON
      invariant 0 <= t <= LAST_MINUTE
      invariant NextAfter(c, now) == Scan(c, t, HORIZON - i)
    {
      var v := MatchMinute(fields, num, t);
      if v == Yes {
        return Due(t * MINUTE);
      }
      if v == Fails || t == LAST_MINUTE {
        return Error;
      }
      t := t + 1;
    }
    r := Never;
  }

  method MatchMinute(f: seq<string>, num: Numerals, t: int) returns (v: Verdict)
    requires |f| == 5 && t >= 0
    ensures v ==
            Accepts(Fields(ParseField(f[0], num), ParseField(f[1], num), ParseField(f[2], num), ParseField(f[3], num),
                                ParseField(f[4], num)), t)
  {
    var d := DateAt(t);
    v := Matches(f[0], MinuteAt(t), num);
    if v != Yes {
      return;
    }
    v := Matches(f[1], HourAt(t), num);
    if v != Yes {
      return;
    }
    v := Matches(f[2], d.day, num);
    if v != Yes {
      return;
    }
    v := Matches(f[3], d.month, num);
    if v != Yes {
      return;
    }
    v := Matches(f[4], WeekdayAt(t), num);
  }

  // ------------------------------------------------------------------ what the search finds

  /** All minutes in a range are turned down, without an exception. */
  ghost predicate Quiet(c: Expr, from: int, to: int)
    requires c.Fields? && from >= 0
  {
    forall s :: from <= s < to ==> Accepts(c, s) == No
  }

  ghost predicate FirstMatch(c: Expr, t: int, n: nat, m: int)
    requires c.Fields? && t >= 0
  {
    t <= m < t + n && m <= LAST_MINUTE && Accepts(c, m) == Yes && Quiet(c, t, m)
  }

  /** The search finds the least accepted minute of its range, or none exactly when there is none. */
  lemma {:induction false} ScanFinds(c: Expr, t: int, n: nat)
    requires c.Fields? && 0 <= t <= LAST_MINUTE
    ensures forall m :: Scan(c, t, n) == Due(m * MINUTE) <==> FirstMatch(c, t, n, m)
    ensures Scan(c, t, n).Due? ==> exists m :: FirstMatch(c, t, n, m) && Scan(c, t, n).when == m * MINUTE
    ensures Scan(c, t, n) == Never <==> Quiet(c, t, t + n) && t + n <= LAST_MINUTE + if n == 0 then 1 else 0
    decreases n
  {
    if n > 0 {
      if Accepts(c, t) == Yes {
        assert FirstMatch(c, t, n, t);
      } else if Accepts(c, t) == No && t < LAST_MINUTE {
        ScanFinds(c, t + 1, n - 1);
        forall m
          ensures FirstMatch(c, t, n, m) <==> FirstMatch(c, t + 1, n - 1, m)
        {
        }
      }
    }
  }

  /** The next run is the least accepted whole minute after `now` within the horizon. */
  lemma {:induction false} NextIsLeast(c: Expr, now: int, m: int)
    requires c.Fields? && now >= 0 && FirstMinute(now) <= LAST_MINUTE
    ensures NextAfter(c, now) == Due(m * MINUTE) <==> FirstMatch(c, FirstMinute(now), HORIZON, m)
    ensures FirstMatch(c, FirstMinute(now), HORIZON, m) ==> m * MINUTE > now
    ensures NextAfter(c, now) == Never <==>
            Quiet(c, FirstMinute(now), FirstMinute(now) + HORIZON) && FirstMinute(now) + HORIZON <= LAST_MINUTE
  {
    ScanFinds(c, FirstMinute(now), HORIZON);
  }

  /** The minute behind an answer. */
  lemma {:induction false} DueIsMinute(c: Expr, now: int) returns (m: int)
    requires now >= 0 && NextAfter(c, now).Due?
    ensures c.Fields? && FirstMinute(now) <= LAST_MINUTE
    ensures NextAfter(c, now) == Due(m * MINUTE) && FirstMatch(c, FirstMinute(now), HORIZON, m) && m * MINUTE > now
  {
    ScanFinds(c, FirstMinute(now), HORIZON);
    m :| FirstMatch(c, FirstMinute(now), HORIZON, m) && NextAfter(c, now).when == m * MINUTE;
  }

  /** Moving the clock forward keeps the answer until the answer is past, and never moves it back. */
  lemma {:induction false} NextIsMonotone(c: Expr, now: int, later: int)
    requires 0 <= now <= later && NextAfter(c, now).Due?
    ensures NextAfter(c, now).when > later ==> NextAfter(c, later) == NextAfter(c, now)
    ensures NextAfter(c, later).Due? ==> NextAfter(c, now).when <= NextAfter(c, later).when
  {
    var m := DueIsMinute(c, now);
    var from := FirstMinute(later);
    if m * MINUTE > later {
      assert FirstMinute(now) <= from <= m;
      assert FirstMatch(c, from, HORIZON, m);
      NextIsLeast(c, later, m);
    } else if NextAfter(c, later).Due? {
      var n := DueIsMinute(c, later);
    }
  }

  predicate IsRun(c: Expr, t: int) {
    c.Fields? && t >= 0 && t % MINUTE == 0 && Accepts(c, t / MINUTE) == Yes
  }

  lemma {:induction false} DueIsRun(c: Expr, now: int)
    requires now >= 0 && NextAfter(c, now).Due?
    ensures NextAfter(c, now).when > now && IsRun(c, NextAfter(c, now).when)
  {
    var m := DueIsMinute(c, now);
    assert m * MINUTE / MINUTE == m && m * MINUTE % MINUTE == 0;
  }

  lemma {:induction false} NothingBetween(c: Expr, now: int, t: int)
    requires 0 <= now < t && IsRun(c, t) && NextAfter(c, now).Due?
    ensures NextAfter(c, now).when <= t
  {
    var m := DueIsMinute(c, now);
    assert Quiet(c, FirstMinute(now), m);
  }

  /** The answers to asking again at each answer. */
  function Iterate(ask: nat -> Next, now: nat, k: nat): seq<int>
    decreases k
  {
    if k == 0 then []
    else
      match ask(now)
      case Due(when) => if when >= 0 then [when] + Iterate(ask, when, k - 1) else []
      case _ => []
  }

  function Latest(now: int, runs: seq<int>): int {
    if runs == [] then now else runs[|runs| - 1]
  }

  /** The first `|runs|` members of a set of instants after `now`, in order: none repeated, none skipped. */
  ghost predicate Enumerates(member: int -> bool, now: int, runs: seq<int>) {
    && (forall i :: 0 <= i < |runs| ==> now < runs[i] <= Latest(now, runs) && member(runs[i]))
    && (forall i, j :: 0 <= i < j < |runs| ==> runs[i] < runs[j])
    && (forall t :: now < t <= Latest(now, runs) && member(t) ==> t in runs)
  }

  /** Every answer is the least member after the question. */
  ghost predicate AsksForLeast(ask: nat -> Next, member: int -> bool) {
    forall now: nat :: ask(now).Due? ==>
      && ask(now).when > now && member(ask(now).when)
      && (forall t :: now < t < ask(now).when ==> !member(t))
  }

  lemma {:induction false} EnumeratesCons(member: int -> bool, now: int, when: int, rest: seq<int>)
    requires now < when && member(when) && Enumerates(member, when, rest)
    requires forall t :: now < t < when ==> !member(t)
    ensures Enumerates(member, now, [when] + rest)
  {
    var runs := [when] + rest;
    assert Latest(now, runs) == Latest(when, rest);
    forall i | 0 <= i < |runs|
      ensures now < runs[i] <= Latest(now, runs) && member(runs[i])
    {
      if i > 0 {
        assert runs[i] == rest[i - 1];
      } else if rest != [] {
        assert rest[0] > when;
      }
    }
  }

  lemma {:induction false} IterateStep(ask: nat -> Next, now: nat, k: nat, when: nat)
    requires k > 0 && ask(now) == Due(when)
    ensures Iterate(ask, now, k) == [when] + Iterate(ask, when, k - 1)
    ensures Latest(now, Iterate(ask, now, k)) == Latest(when, Iterate(ask, when, k - 1))
  {
  }

  lemma {:induction false} AskedForLeast(ask: nat -> Next, member: int -> bool, now: nat)
    requires AsksForLeast(ask, member) && ask(now).Due?
    ensures ask(now).when > now && member(ask(now).when) && forall t :: now < t < ask(now).when ==> !member(t)
  {
  }

  lemma {:induction false} IterateEnumerates(ask: nat -> Next, member: int -> bool, now: nat, k: nat)
    requires AsksForLeast(ask, member)
    ensures Enumerates(member, now, Iterate(ask, now, k)) && Latest(now, Iterate(ask, now, k)) >= now
    ensures |Iterate(ask, now, k)| == k || !ask(Latest(now, Iterate(ask, now, k))).Due?
    decreases k
  {
    if k > 0 && ask(now).Due? {
      AskedForLeast(ask, member, now);
      var when := ask(now).when;
      IterateStep(ask, now, k, when);
      IterateEnumerates(ask, member, when, k - 1);
      EnumeratesCons(member, now, when, Iterate(ask, when, k - 1));
    }
  }

  function Asking(c: Expr): nat -> Next {
    (now: nat) => NextAfter(c, now)
  }

  /**
   Asking the trigger again at each of its answers lists the accepted minutes in
   order, repeats none and skips none, and stops early only where one more question
   finds nothing within the horizon.
   */
  lemma {:induction false} RunsEnumerate(c: Expr, now: nat, k: nat)
    ensures Enumerates(t => IsRun(c, t), now, Iterate(Asking(c), now, k))
    ensures
      var runs := Iterate(Asking(c), now, k);
      |runs| == k || (Latest(now, runs) >= 0 && !NextAfter(c, Latest(now, runs)).Due?)
  {
    forall at: nat | NextAfter(c, at).Due?
      ensures NextAfter(c, at).when > at && IsRun(c, NextAfter(c, at).when)
      ensures forall t :: at < t < NextAfter(c, at).when ==> !IsRun(c, t)
    {
      DueIsRun(c, at);
      forall t | at < t < NextAfter(c, at).when
        ensures !IsRun(c, t)
      {
        if IsRun(c, t) {
          NothingBetween(c, at, t);
        }
      }
    }
    IterateEnumerates(Asking(c), t => IsRun(c, t), now, k);
  }

  /** An accepted minute within the horizon is enough for an answer that is no later. */
  lemma {:induction false} FoundByHorizon(c: Expr, now: int, m: int)
    requires c.Fields? && now >= 0
    requires FirstMinute(now) <= m < FirstMinute(now) + HORIZON && m <= LAST_MINUTE && Accepts(c, m) == Yes
    requires forall s :: FirstMinute(now) <= s < m ==> Accepts(c, s) != Fails
    ensures NextAfter(c, now).Due? && NextAfter(c, now).when <= m * MINUTE
  {
    var least := LeastMatch(c, FirstMinute(now), m);
    assert FirstMatch(c, FirstMinute(now), HORIZON, least);
    NextIsLeast(c, now, least);
  }

  lemma {:induction false} LeastMatch(c: Expr, t: int, m: int) returns (least: int)
    requires c.Fields? && 0 <= t <= m && Accepts(c, m) == Yes
    requires forall s :: t <= s < m ==> Accepts(c, s) != Fails
    ensures t <= least <= m && Accepts(c, least) == Yes && Quiet(c, t, least)
    decreases m - t
  {
    if Accepts(c, t) == Yes {
      least := t;
    } else {
      least := LeastMatch(c, t + 1, m);
    }
  }
}
