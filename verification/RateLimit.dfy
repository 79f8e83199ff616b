/**
 Token buckets in exact arithmetic.  The clock is a parameter of each check; the
 laws below relate the decision of one check to all the checks before it.
 */
module RateLimits {

  datatype Bucket = Bucket(capacity: real, rate: real, tokens: real, updated: real)

  function Min(a: real, b: real): real {
    if a <= b then a else b
  }

  /** What a rate earns between two instants. */
  function Earned(rate: real, from: real, to: real): real {
    (to - from) * rate
  }

  function Refill(b: Bucket, now: real): Bucket {
    b.(tokens := Min(b.capacity, b.tokens + Earned(b.rate, b.updated, now)), updated := now)
  }

  predicate Grants(b: Bucket, now: real) {
    Refill(b, now).tokens >= 1.0
  }

  function Check(b: Bucket, now: real): Bucket {
    var r := Refill(b, now);
    if r.tokens < 1.0 then r else r.(tokens := r.tokens - 1.0)
  }

  function New(capacity: real, rate: real, now: real): Bucket {
    Bucket(capacity, rate, capacity, now)
  }

  /** The bucket after checks at the given times, and the decisions. */
  function After(b: Bucket, times: seq<real>): Bucket {
    if times == [] then b else Check(After(b, times[..|times| - 1]), times[|times| - 1])
  }

  function Decision(b: Bucket, times: seq<real>, k: nat): bool
    requires k < |times|
  {
    Grants(After(b, times[..k]), times[k])
  }

  /** The number of checks granted among `j .. k`. */
  function Granted(b: Bucket, times: seq<real>, j: nat, k: nat): nat
    requires j <= k <= |times|
    decreases k
  {
    if j == k then 0 else Granted(b, times, j, k - 1) + if Decision(b, times, k - 1) then 1 else 0
  }

  /** The tokens the k-th check finds. */
  function Available(b: Bucket, times: seq<real>, k: nat): real
    requires k < |times|
  {
    Refill(After(b, times[..k]), times[k]).tokens
  }

  /** What a window from check `j` up to check `k` leaves to be granted at `k`. */
  function Allowance(b: Bucket, times: seq<real>, j: nat, k: nat): real
    requires j <= k < |times|
  {
    b.capacity + Earned(b.rate, times[j], times[k]) - Granted(b, times, j, k) as real
  }

  predicate NonDecreasing(times: seq<real>) {
    forall i, j :: 0 <= i <= j < |times| ==> times[i] <= times[j]
  }

  lemma {:induction false} EarnedAdds(rate: real, a: real, b: real, c: real)
    ensures Earned(rate, a, b) + Earned(rate, b, c) == Earned(rate, a, c)
    ensures Earned(rate, a, a) == 0.0
  {
  }

  lemma {:induction false} EarnedGrows(rate: real, a: real, b: real)
    requires rate >= 0.0 && a <= b
    ensures Earned(rate, a, b) >= 0.0
  {
  }

  lemma {:induction false} AfterKeepsLimits(b: Bucket, times: seq<real>)
    ensures After(b, times).capacity == b.capacity && After(b, times).rate == b.rate
    ensures times != [] ==> After(b, times).updated == times[|times| - 1]
  {
    if times != [] {
      AfterKeepsLimits(b, times[..|times| - 1]);
    }
  }

  /** One check to the next: what was found, less what was granted, plus what was earned, capped. */
  lemma {:induction false} AvailableStep(b: Bucket, times: seq<real>, k: nat)
    requires k + 1 < |times|
    ensures
      Available(b, times, k + 1) ==
      Min(b.capacity,
          Available(b, times, k) - (if Decision(b, times, k) then 1.0 else 0.0)
          + Earned(b.rate, times[k], times[k + 1]))
  {
    assert times[..k + 1][..k] == times[..k];
    AfterKeepsLimits(b, times[..k]);
  }

  lemma {:induction false} AllowanceStep(b: Bucket, times: seq<real>, j: nat, k: nat)
    requires j <= k && k + 1 < |times|
    ensures
      Allowance(b, times, j, k + 1) ==
      Allowance(b, times, j, k) - (if Decision(b, times, k) then 1.0 else 0.0) + Earned(b.rate, times[k], times[k + 1])
  {
    EarnedAdds(b.rate, times[j], times[k], times[k + 1]);
  }

  /**
   The min-plus law of a bucket made no later than its first check: what the k-th
   check finds is the least allowance over the windows that end there.
   */
  lemma {:induction false} AvailableIsLeastAllowance(b: Bucket, times: seq<real>, k: nat)
    requires k < |times| && b.tokens == b.capacity && Earned(b.rate, b.updated, times[0]) >= 0.0
    ensures forall j :: 0 <= j <= k ==> Available(b, times, k) <= Allowance(b, times, j, k)
    ensures exists j :: 0 <= j <= k && Available(b, times, k) == Allowance(b, times, j, k)
  {
    EarnedAdds(b.rate, times[k], times[k], times[k]);
    assert Allowance(b, times, k, k) == b.capacity;
    if k == 0 {
      assert times[..0] == [];
      assert Available(b, times, 0) == Allowance(b, times, 0, 0);
    } else {
      AvailableIsLeastAllowance(b, times, k - 1);
      AvailableStep(b, times, k - 1);
      forall j | 0 <= j < k
        ensures Available(b, times, k) <= Allowance(b, times, j, k)
      {
        AllowanceStep(b, times, j, k - 1);
        assert Available(b, times, k - 1) <= Allowance(b, times, j, k - 1);
      }
      if Available(b, times, k) != b.capacity {
        var j :| 0 <= j <= k - 1 && Available(b, times, k - 1) == Allowance(b, times, j, k - 1);
        AllowanceStep(b, times, j, k - 1);
        assert Available(b, times, k) == Allowance(b, times, j, k);
      }
    }
  }

  /** A check is granted exactly when no window ending with it would exceed its allowance. */
  lemma {:induction false} GrantedExactlyWhen(b: Bucket, times: seq<real>, k: nat)
    requires k < |times| && b.tokens == b.capacity && Earned(b.rate, b.updated, times[0]) >= 0.0
    ensures Decision(b, times, k) <==>
            forall j :: 0 <= j <= k ==>
              Granted(b, times, j, k) as real + 1.0 <= b.capacity + Earned(b.rate, times[j], times[k])
  {
    AvailableIsLeastAllowance(b, times, k);
    if Decision(b, times, k) {
      forall j | 0 <= j <= k
        ensures Granted(b, times, j, k) as real + 1.0 <= b.capacity + Earned(b.rate, times[j], times[k])
      {
        assert Available(b, times, k) <= Allowance(b, times, j, k);
      }
    } else {
      var j :| 0 <= j <= k && Available(b, times, k) == Allowance(b, times, j, k);
      assert Allowance(b, times, j, k) < 1.0;
    }
  }

  /** No window of checks is granted more than the capacity and what its length earns. */
  lemma {:induction false} WindowBound(b: Bucket, times: seq<real>, j: nat, k: nat)
    requires j <= k < |times| && b.tokens == b.capacity && b.rate >= 0.0
    requires b.updated <= times[0] && NonDecreasing(times)
    ensures || Granted(b, times, j, k + 1) == 0
            || Granted(b, times, j, k + 1) as real <= b.capacity + Earned(b.rate, times[j], times[k])
  {
    EarnedGrows(b.rate, b.updated, times[0]);
    if Decision(b, times, k) {
      GrantedExactlyWhen(b, times, k);
    } else if j < k {
      WindowBound(b, times, j, k - 1);
      EarnedGrows(b.rate, times[k - 1], times[k]);
      EarnedAdds(b.rate, times[j], times[k - 1], times[k]);
    }
  }

  // ------------------------------------------------------------------ refused checks

  /** Refilling twice is refilling once. */
  lemma {:induction false} RefillComposes(b: Bucket, t: real, u: real)
    requires b.rate >= 0.0 && t <= u
    ensures Refill(Refill(b, t), u) == Refill(b, u)
  {
    EarnedGrows(b.rate, t, u);
    EarnedAdds(b.rate, b.updated, t, u);
  }

  /** The times of the checks that were granted. */
  function Keep(b: Bucket, times: seq<real>): seq<real> {
    if times == [] then []
    else
      var k := |times| - 1;
      Keep(b, times[..k]) + if Decision(b, times, k) then [times[k]] else []
  }

  /** No check later than the last one can tell the buckets apart. */
  ghost predicate Indistinguishable(a: Bucket, b: Bucket, since: real) {
    forall now :: now >= since ==> Refill(a, now) == Refill(b, now)
  }

  /** The granted checks alone: all granted again, leaving a bucket no later check can tell apart. */
  ghost predicate Invisible(b: Bucket, kept: seq<real>, times: seq<real>) {
    && (forall i :: 0 <= i < |kept| ==> Decision(b, kept, i))
    && Indistinguishable(After(b, kept), After(b, times), Last(b, times))
  }

  function Last(b: Bucket, times: seq<real>): real {
    if times == [] then b.updated else times[|times| - 1]
  }

  lemma {:induction false} DecisionAppend(b: Bucket, kept: seq<real>, t: real, i: nat)
    requires i < |kept|
    ensures Decision(b, kept + [t], i) == Decision(b, kept, i)
  {
    assert (kept + [t])[..i] == kept[..i];
  }

  lemma {:induction false} AfterAppend(b: Bucket, times: seq<real>, t: real)
    ensures After(b, times + [t]) == Check(After(b, times), t)
  {
    assert (times + [t])[..|times|] == times;
  }

  lemma {:induction false} KeepGranted(b: Bucket, kept: seq<real>, times: seq<real>, t: real)
    requires Invisible(b, kept, times) && Last(b, times) <= t && Grants(After(b, times), t)
    ensures Invisible(b, kept + [t], times + [t])
  {
    AfterAppend(b, kept, t);
    AfterAppend(b, times, t);
    assert Refill(After(b, kept), t) == Refill(After(b, times), t);
    assert Check(After(b, kept), t) == Check(After(b, times), t);
    forall i | 0 <= i < |kept + [t]|
      ensures Decision(b, kept + [t], i)
    {
      if i < |kept| {
        DecisionAppend(b, kept, t, i);
      } else {
        assert (kept + [t])[..i] == kept;
      }
    }
  }

  lemma {:induction false} KeepRefused(b: Bucket, kept: seq<real>, times: seq<real>, t: real)
    requires b.rate >= 0.0 && Invisible(b, kept, times) && Last(b, times) <= t && !Grants(After(b, times), t)
    ensures Invisible(b, kept, times + [t])
  {
    AfterAppend(b, times, t);
    AfterKeepsLimits(b, times);
    forall now | now >= t
      ensures Refill(After(b, kept), now) == Refill(After(b, times + [t]), now)
    {
      RefillComposes(After(b, times), t, now);
    }
  }

  lemma {:induction false} KeepAppend(b: Bucket, times: seq<real>, t: real)
    ensures Keep(b, times + [t]) == if Grants(After(b, times), t) then Keep(b, times) + [t] else Keep(b, times)
  {
    assert (times + [t])[..|times|] == times;
  }

  lemma {:induction false} InvisibleStep(b: Bucket, times: seq<real>, t: real)
    requires b.rate >= 0.0 && Invisible(b, Keep(b, times), times) && Last(b, times) <= t
    ensures Invisible(b, Keep(b, times + [t]), times + [t])
  {
    KeepAppend(b, times, t);
    if Grants(After(b, times), t) {
      KeepGranted(b, Keep(b, times), times, t);
    } else {
      KeepRefused(b, Keep(b, times), times, t);
    }
  }

  /**
   Refused checks are invisible: the granted checks alone are all granted again and
   leave a bucket that every later check finds the same.
   */
  lemma {:induction false} RefusalsAreInvisible(b: Bucket, times: seq<real>)
    requires b.rate >= 0.0 && NonDecreasing(times) && (times != [] ==> b.updated <= times[0])
    ensures Invisible(b, Keep(b, times), times)
  {
    if times != [] {
      var k := |times| - 1;
      RefusalsAreInvisible(b, times[..k]);
      assert times == times[..k] + [times[k]];
      InvisibleStep(b, times[..k], times[k]);
    }
  }
}
