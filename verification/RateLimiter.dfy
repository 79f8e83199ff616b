/**
 The limiter over many keys: a class with a bucket object per key, proved against
 a value-level machine, and that machine reduced to the single-bucket laws.
 */
module RateLimiters {
  import opened RateLimits

  datatype Limit = Limit(capacity: real, rate: real)

  datatype Limiter = Limiter(fallback: Limit, limits: map<string, Limit>, buckets: map<string, Bucket>)

  /** A check reads the clock when it has to make the bucket, and once more to refill it. */
  datatype Op = Configure(key: string, limit: Limit) | Attempt(key: string, made: real, now: real)

  function LimitOf(l: Limiter, key: string): Limit {
    if key in l.limits then l.limits[key] else l.fallback
  }

  function BucketOf(l: Limiter, key: string, made: real): Bucket {
    if key in l.buckets then l.buckets[key]
    else New(LimitOf(l, key).capacity, LimitOf(l, key).rate, made)
  }

  function Apply(l: Limiter, op: Op): Limiter {
    match op
    case Configure(key, limit) => l.(limits := l.limits[key := limit], buckets := l.buckets - {key})
    case Attempt(key, made, now) => l.(buckets := l.buckets[key := Check(BucketOf(l, key, made), now)])
  }

  function Run(l: Limiter, ops: seq<Op>): Limiter {
    if ops == [] then l else Apply(Run(l, ops[..|ops| - 1]), ops[|ops| - 1])
  }

  /** Whether the call at `ops[k]` is let through. */
  predicate Allowed(l: Limiter, ops: seq<Op>, k: nat)
    requires k < |ops| && ops[k].Attempt?
  {
    Grants(BucketOf(Run(l, ops[..k]), ops[k].key, ops[k].made), ops[k].now)
  }

  /** The operations on one key. */
  function On(key: string, ops: seq<Op>): seq<Op> {
    if ops == [] then []
    else On(key, ops[..|ops| - 1]) + if ops[|ops| - 1].key == key then [ops[|ops| - 1]] else []
  }

  /** Two limiters that treat a key alike. */
  predicate SameFor(a: Limiter, b: Limiter, key: string) {
    && LimitOf(a, key) == LimitOf(b, key)
    && (key in a.buckets <==> key in b.buckets)
    && (key in a.buckets ==> a.buckets[key] == b.buckets[key])
  }

  /** What one key experiences depends on the operations on that key alone. */
  lemma {:induction false} KeysAreIndependent(l: Limiter, ops: seq<Op>, key: string)
    ensures SameFor(Run(l, ops), Run(l, On(key, ops)), key)
  {
    if ops != [] {
      var last := |ops| - 1;
      KeysAreIndependent(l, ops[..last], key);
      if ops[last].key == key {
        assert On(key, ops)[..|On(key, ops)| - 1] == On(key, ops[..last]);
      } else {
        assert On(key, ops) == On(key, ops[..last]);
      }
    }
  }

  /** The clock readings of the checks on a key. */
  function Times(key: string, ops: seq<Op>): seq<real> {
    if ops == [] then []
    else
      var last := ops[|ops| - 1];
      Times(key, ops[..|ops| - 1]) + if last.Attempt? && last.key == key then [last.now] else []
  }

  /** The reading at which the first check on a key makes its bucket. */
  function MadeAt(key: string, ops: seq<Op>): real {
    if ops == [] then 0.0
    else
      var earlier, last := ops[..|ops| - 1], ops[|ops| - 1];
      if Times(key, earlier) == [] && last.Attempt? && last.key == key then last.made else MadeAt(key, earlier)
  }

  /** The bucket a key starts from when it has none. */
  function Fresh(l: Limiter, key: string, ops: seq<Op>): Bucket {
    New(LimitOf(l, key).capacity, LimitOf(l, key).rate, MadeAt(key, ops))
  }

  predicate Reconfigures(key: string, ops: seq<Op>) {
    exists i :: 0 <= i < |ops| && ops[i].Configure? && ops[i].key == key
  }

  /** Between two configurations of a key, its bucket is one bucket's history. */
  lemma {:induction false} KeyIsOneBucket(l: Limiter, key: string, ops: seq<Op>)
    requires key !in l.buckets && !Reconfigures(key, ops)
    ensures
      var m := Run(l, ops);
      && LimitOf(m, key) == LimitOf(l, key)
      && (key in m.buckets <==> Times(key, ops) != [])
      && (key in m.buckets ==> m.buckets[key] == After(Fresh(l, key, ops), Times(key, ops)))
  {
    if ops != [] {
      var last := |ops| - 1;
      var earlier := ops[..last];
      assert forall i :: 0 <= i < |earlier| ==> earlier[i] == ops[i];
      KeyIsOneBucket(l, key, earlier);
      if ops[last].key == key {
        assert ops[last].Attempt?;
        assert Times(key, ops)[..|Times(key, ops)| - 1] == Times(key, earlier);
      } else {
        assert Times(key, ops) == Times(key, earlier);
      }
    }
  }

  /** The windows of granted checks ending with the last of `times` all leave room for it. */
  ghost predicate EveryWindowHasRoom(b: Bucket, times: seq<real>)
    requires times != []
  {
    var k := |times| - 1;
    forall j :: 0 <= j <= k ==> Granted(b, times, j, k) as real + 1.0 <= b.capacity + Earned(b.rate, times[j], times[k])
  }

  /**
   The law of the whole limiter.  From the time a key has no bucket, every check of
   it is let through exactly when no window of its own granted checks would exceed
   what its limit allows, whatever happens to other keys in between.
   */
  lemma {:induction false} AllowedExactlyWhen(l: Limiter, key: string, ops: seq<Op>, op: Op)
    requires key !in l.buckets && LimitOf(l, key).rate >= 0.0
    requires !Reconfigures(key, ops) && op.Attempt? && op.key == key
    requires Times(key, ops + [op]) != [] ==> MadeAt(key, ops + [op]) <= Times(key, ops + [op])[0]
    ensures Times(key, ops + [op]) != []
    ensures Allowed(l, ops + [op], |ops|) <==> EveryWindowHasRoom(Fresh(l, key, ops + [op]), Times(key, ops + [op]))
  {
    assert (ops + [op])[..|ops|] == ops;
    var times, b := Times(key, ops + [op]), Fresh(l, key, ops + [op]);
    var k := |times| - 1;
    assert times[..k] == Times(key, ops);
    KeyIsOneBucket(l, key, ops);
    assert After(b, times[..k]) == BucketOf(Run(l, ops), key, op.made);
    EarnedGrows(b.rate, b.updated, times[0]);
    GrantedExactlyWhen(b, times, k);
  }

  /** Configuring a key starts it afresh, whatever was done before. */
  lemma {:induction false} ConfiguringStartsAfresh(l: Limiter, before: seq<Op>, key: string, limit: Limit, ops: seq<Op>,
                                                   op: Op)
    requires limit.rate >= 0.0 && !Reconfigures(key, ops) && op.Attempt? && op.key == key
    requires Times(key, ops + [op]) != [] ==> MadeAt(key, ops + [op]) <= Times(key, ops + [op])[0]
    ensures Times(key, ops + [op]) != []
    ensures
      Allowed(l, before + [Configure(key, limit)] + ops + [op], |before| + 1 + |ops|) <==>
      EveryWindowHasRoom(New(limit.capacity, limit.rate, MadeAt(key, ops + [op])), Times(key, ops + [op]))
  {
    var configured := before + [Configure(key, limit)];
    var m := Run(l, configured);
    assert configured[..|configured| - 1] == before;
    assert key !in m.buckets && LimitOf(m, key) == limit;
    AllowedExactlyWhen(m, key, ops, op);
    assert (configured + ops + [op])[..|configured| + |ops|] == configured + ops;
    assert (ops + [op])[..|ops|] == ops;
    RunAppend(l, configured, ops);
  }

  lemma {:induction false} RunAppend(l: Limiter, a: seq<Op>, b: seq<Op>)
    ensures Run(l, a + b) == Run(Run(l, a), b)
  {
    if b == [] {
      assert a + b == a;
    } else {
      RunAppend(l, a, b[..|b| - 1]);
      assert (a + b)[..|a + b| - 1] == a + b[..|b| - 1];
    }
  }

  // ------------------------------------------------------------------ the law in the caller's terms

  /** Operation `k` is a check of the key. */
  predicate Checks(ops: seq<Op>, k: int, key: string) {
    0 <= k < |ops| && ops[k].Attempt? && ops[k].key == key
  }

  /** How many checks of the key were let through, from operation `from` on. */
  function Passed(l: Limiter, ops: seq<Op>, key: string, from: nat): nat {
    if |ops| <= from then 0
    else
      var k := |ops| - 1;
      Passed(l, ops[..k], key, from) + if Checks(ops, k, key) && Allowed(l, ops, k) then 1 else 0
  }

  lemma {:induction false} GrantedPrefix(b: Bucket, times: seq<real>, t: real, j: nat, k: nat)
    requires j <= k <= |times|
    ensures Granted(b, times + [t], j, k) == Granted(b, times, j, k)
    decreases k
  {
    if j < k {
      GrantedPrefix(b, times, t, j, k - 1);
      assert (times + [t])[..k - 1] == times[..k - 1];
    }
  }

  lemma {:induction false} TimesNext(key: string, ops: seq<Op>)
    requires ops != []
    ensures
      var k := |ops| - 1;
      Times(key, ops) == Times(key, ops[..k]) + if Checks(ops, k, key) then [ops[k].now] else []
  {
  }

  lemma {:induction false} TimesGrow(key: string, ops: seq<Op>, j: nat)
    requires j <= |ops|
    ensures Times(key, ops[..j]) <= Times(key, ops)
    ensures Checks(ops, j, key) ==>
            |Times(key, ops[..j])| < |Times(key, ops)| && Times(key, ops)[|Times(key, ops[..j])|] == ops[j].now
  {
    if j == |ops| {
      assert ops[..j] == ops;
    } else {
      var k := |ops| - 1;
      assert ops[..k][..j] == ops[..j];
      TimesGrow(key, ops[..k], j);
      TimesNext(key, ops);
    }
  }

  /** Every reading of the clock belongs to a check. */
  lemma {:induction false} CheckOf(key: string, ops: seq<Op>, t: nat) returns (j: nat)
    requires t < |Times(key, ops)|
    ensures Checks(ops, j, key) && |Times(key, ops[..j])| == t
  {
    var k := |ops| - 1;
    TimesNext(key, ops);
    if t < |Times(key, ops[..k])| {
      j := CheckOf(key, ops[..k], t);
      assert ops[..k][..j] == ops[..j];
    } else {
      j := k;
    }
  }

  lemma {:induction false} MadeStays(key: string, ops: seq<Op>, op: Op)
    requires Times(key, ops) != []
    ensures MadeAt(key, ops + [op]) == MadeAt(key, ops)
  {
    assert (ops + [op])[..|ops|] == ops;
  }

  /** What a check of the key decides is what its bucket decides. */
  lemma {:induction false} CheckDecides(l: Limiter, key: string, ops: seq<Op>, op: Op, made: real)
    requires key !in l.buckets && !Reconfigures(key, ops) && op.Attempt? && op.key == key
    requires MadeAt(key, ops + [op]) == made
    ensures
      var b := New(LimitOf(l, key).capacity, LimitOf(l, key).rate, made);
      Allowed(l, ops + [op], |ops|) <==> Decision(b, Times(key, ops) + [op.now], |Times(key, ops)|)
  {
    var times := Times(key, ops);
    assert (ops + [op])[..|ops|] == ops && (times + [op.now])[..|times|] == times;
    KeyIsOneBucket(l, key, ops);
    if times != [] {
      MadeStays(key, ops, op);
    }
  }

  lemma {:induction false} FewerReconfigure(key: string, ops: seq<Op>, k: nat)
    requires k <= |ops| && !Reconfigures(key, ops)
    ensures !Reconfigures(key, ops[..k])
  {
    assert forall i :: 0 <= i < k ==> ops[..k][i] == ops[i];
  }

  lemma {:induction false} PassedNext(l: Limiter, ops: seq<Op>, op: Op, key: string, from: nat)
    requires from <= |ops|
    ensures Passed(l, ops + [op], key, from) == Passed(l, ops, key, from) +
            if op.Attempt? && op.key == key && Allowed(l, ops + [op], |ops|) then 1 else 0
  {
    assert (ops + [op])[..|ops|] == ops;
  }

  /** The grants of the bucket in a window are the checks let through in it. */
  ghost predicate Counts(l: Limiter, key: string, ops: seq<Op>, from: nat, made: real)
    requires from <= |ops|
  {
    var b := New(LimitOf(l, key).capacity, LimitOf(l, key).rate, made);
    var j, n := |Times(key, ops[..from])|, |Times(key, ops)|;
    j <= n && Granted(b, Times(key, ops), j, n) == Passed(l, ops, key, from)
  }

  lemma {:induction false} CountsNext(l: Limiter, key: string, ops: seq<Op>, op: Op, from: nat, made: real)
    requires key !in l.buckets && !Reconfigures(key, ops + [op]) && from <= |ops|
    requires Times(key, ops + [op]) != [] ==> MadeAt(key, ops + [op]) == made
    requires Counts(l, key, ops, from, made)
    ensures Counts(l, key, ops + [op], from, made)
  {
    var whole := ops + [op];
    assert whole[..|ops|] == ops && whole[..from] == ops[..from];
    FewerReconfigure(key, whole, |ops|);
    PassedNext(l, ops, op, key, from);
    TimesNext(key, whole);
    if Checks(whole, |ops|, key) {
      LastCheckCounts(l, key, ops, op, from, made);
    } else {
      assert Times(key, whole) == Times(key, ops);
    }
  }

  lemma {:induction false} GrantedIsPassed(l: Limiter, key: string, ops: seq<Op>, from: nat, made: real)
    requires key !in l.buckets && !Reconfigures(key, ops) && from <= |ops|
    requires Times(key, ops) != [] ==> MadeAt(key, ops) == made
    ensures Counts(l, key, ops, from, made)
    decreases |ops|
  {
    if from == |ops| {
      assert ops[..from] == ops;
    } else {
      var front, last := ops[..|ops| - 1], ops[|ops| - 1];
      assert ops == front + [last];
      FewerReconfigure(key, ops, |ops| - 1);
      if Times(key, front) != [] {
        MadeStays(key, front, last);
        TimesNext(key, ops);
      }
      GrantedIsPassed(l, key, front, from, made);
      CountsNext(l, key, front, last, from, made);
    }
  }

  lemma {:induction false} LastCheckCounts(l: Limiter, key: string, ops: seq<Op>, op: Op, from: nat, made: real)
    requires key !in l.buckets && !Reconfigures(key, ops) && from <= |ops| && op.Attempt? && op.key == key
    requires MadeAt(key, ops + [op]) == made && |Times(key, ops[..from])| <= |Times(key, ops)|
    ensures
      var b := New(LimitOf(l, key).capacity, LimitOf(l, key).rate, made);
      var j, n := |Times(key, ops[..from])|, |Times(key, ops)|;
      Granted(b, Times(key, ops) + [op.now], j, n + 1) ==
      Granted(b, Times(key, ops), j, n) + if Allowed(l, ops + [op], |ops|) then 1 else 0
  {
    var b := New(LimitOf(l, key).capacity, LimitOf(l, key).rate, made);
    CheckDecides(l, key, ops, op, made);
    GrantedPrefix(b, Times(key, ops), op.now, |Times(key, ops[..from])|, |Times(key, ops)|);
  }

  /** With this check the window that begins at operation `j` is within its allowance. */
  predicate HasRoom(l: Limiter, ops: seq<Op>, op: Op, key: string, capacity: real, rate: real, j: nat)
    requires op.Attempt? && Checks(ops + [op], j, key)
  {
    Passed(l, ops, key, j) as real + 1.0 <= capacity + (op.now - (ops + [op])[j].now) * rate
  }

  lemma {:induction false} WindowOf(l: Limiter, ops: seq<Op>, op: Op, key: string, j: nat)
    requires key !in l.buckets && !Reconfigures(key, ops) && op.Attempt? && op.key == key
    requires Checks(ops + [op], j, key)
    ensures
      var whole := ops + [op];
      var times, t := Times(key, whole), |Times(key, whole[..j])|;
      var b := Fresh(l, key, whole);
      && t < |times| && times[t] == whole[j].now && times[|times| - 1] == op.now
      && Granted(b, times, t, |times| - 1) == Passed(l, ops, key, j)
  {
    var whole := ops + [op];
    assert whole[..|ops|] == ops && whole[..j] == ops[..j];
    TimesNext(key, whole);
    TimesGrow(key, whole, j);
    TimesGrow(key, ops, j);
    if Times(key, ops) != [] {
      MadeStays(key, ops, op);
    }
    GrantedIsPassed(l, key, ops, j, MadeAt(key, whole));
    GrantedPrefix(Fresh(l, key, whole), Times(key, ops), op.now, |Times(key, ops[..j])|, |Times(key, ops)|);
  }

  lemma {:induction false} MadeBeforeFirst(key: string, ops: seq<Op>)
    requires forall o :: o in ops && o.Attempt? ==> o.made <= o.now
    ensures Times(key, ops) != [] ==> MadeAt(key, ops) <= Times(key, ops)[0]
  {
    if ops != [] {
      MadeBeforeFirst(key, ops[..|ops| - 1]);
      TimesNext(key, ops);
    }
  }

  /**
   The window law in the caller's terms, for a key without a bucket whose limit is
   `capacity` and `rate`: a check is let through if and only if for every earlier check
   of the key, and itself, the checks let through since and this one are at most the
   capacity and what the time in between earns.
   */
  lemma {:induction false} WindowLaw(l: Limiter, key: string, capacity: real, rate: real, ops: seq<Op>, op: Op)
    requires key !in l.buckets && LimitOf(l, key) == Limit(capacity, rate) && rate >= 0.0
    requires !Reconfigures(key, ops) && op.Attempt? && op.key == key
    requires forall o :: o in ops + [op] && o.Attempt? ==> o.made <= o.now
    ensures Allowed(l, ops + [op], |ops|) <==>
            forall j: nat :: Checks(ops + [op], j, key) ==> HasRoom(l, ops, op, key, capacity, rate, j)
  {
    MadeBeforeFirst(key, ops + [op]);
    AllowedExactlyWhen(l, key, ops, op);
    if Allowed(l, ops + [op], |ops|) {
      forall j: nat | Checks(ops + [op], j, key)
        ensures HasRoom(l, ops, op, key, capacity, rate, j)
      {
        RoomOf(l, ops, op, key, capacity, rate, j);
      }
    } else {
      var j := FullWindow(l, ops, op, key, capacity, rate);
    }
  }

  lemma {:induction false} RoomIsEarned(l: Limiter, ops: seq<Op>, op: Op, key: string, capacity: real, rate: real,
                                        j: nat)
    requires op.Attempt? && Checks(ops + [op], j, key)
    ensures HasRoom(l, ops, op, key, capacity, rate, j) <==>
            Passed(l, ops, key, j) as real + 1.0 <= capacity + Earned(rate, (ops + [op])[j].now, op.now)
  {
  }

  /** A window has room for the limiter when it has for the bucket. */
  lemma {:induction false} RoomOf(l: Limiter, ops: seq<Op>, op: Op, key: string, capacity: real, rate: real, j: nat)
    requires key !in l.buckets && LimitOf(l, key) == Limit(capacity, rate)
    requires !Reconfigures(key, ops) && op.Attempt? && op.key == key && Checks(ops + [op], j, key)
    ensures
      var times, t := Times(key, ops + [op]), |Times(key, (ops + [op])[..j])|;
      var b, n := Fresh(l, key, ops + [op]), |times| - 1;
      && 0 <= t <= n
      && (HasRoom(l, ops, op, key, capacity, rate, j) <==>
          Granted(b, times, t, n) as real + 1.0 <= b.capacity + Earned(b.rate, times[t], times[n]))
  {
    WindowOf(l, ops, op, key, j);
    RoomIsEarned(l, ops, op, key, capacity, rate, j);
    var times, t := Times(key, ops + [op]), |Times(key, (ops + [op])[..j])|;
    assert Earned(rate, times[t], times[|times| - 1]) == Earned(rate, (ops + [op])[j].now, op.now);
  }

  lemma {:induction false} FullWindow(l: Limiter, ops: seq<Op>, op: Op, key: string, capacity: real, rate: real)
    returns (j: nat)
    requires key !in l.buckets && LimitOf(l, key) == Limit(capacity, rate)
    requires !Reconfigures(key, ops) && op.Attempt? && op.key == key
    requires Times(key, ops + [op]) != []
    requires !EveryWindowHasRoom(Fresh(l, key, ops + [op]), Times(key, ops + [op]))
    ensures Checks(ops + [op], j, key) && !HasRoom(l, ops, op, key, capacity, rate, j)
  {
    var times, b := Times(key, ops + [op]), Fresh(l, key, ops + [op]);
    var n := |times| - 1;
    var t: nat :| t <= n && !(Granted(b, times, t, n) as real + 1.0 <= b.capacity + Earned(b.rate, times[t], times[n]));
    j := CheckOf(key, ops + [op], t);
    RoomOf(l, ops, op, key, capacity, rate, j);
  }

  /** A limiter just constructed, and a key that is never configured: the constructor's capacity and rate rule. */
  lemma {:induction false} ConstructedLaw(capacity: real, rate: real, key: string, ops: seq<Op>, op: Op)
    requires rate >= 0.0 && !Reconfigures(key, ops) && op.Attempt? && op.key == key
    requires forall o :: o in ops + [op] && o.Attempt? ==> o.made <= o.now
    ensures
      var l := Limiter(Limit(capacity, rate), map[], map[]);
      Allowed(l, ops + [op], |ops|) <==>
      forall j: nat :: Checks(ops + [op], j, key) ==> HasRoom(l, ops, op, key, capacity, rate, j)
  {
    WindowLaw(Limiter(Limit(capacity, rate), map[], map[]), key, capacity, rate, ops, op);
  }

  /** After a key was configured, and until it is configured again: the capacity and rate it was given rule. */
  lemma {:induction false} ConfiguredLaw(l: Limiter, before: seq<Op>, key: string, capacity: real, rate: real,
                                         ops: seq<Op>, op: Op)
    requires rate >= 0.0 && !Reconfigures(key, ops) && op.Attempt? && op.key == key
    requires forall o :: o in ops + [op] && o.Attempt? ==> o.made <= o.now
    ensures
      var configured := before + [Configure(key, Limit(capacity, rate))];
      var m := Run(l, configured);
      Allowed(l, configured + ops + [op], |configured| + |ops|) <==>
      forall j: nat :: Checks(ops + [op], j, key) ==> HasRoom(m, ops, op, key, capacity, rate, j)
  {
    var configured := before + [Configure(key, Limit(capacity, rate))];
    var m := Run(l, configured);
    assert configured[..|configured| - 1] == before;
    assert key !in m.buckets && LimitOf(m, key) == Limit(capacity, rate);
    WindowLaw(m, key, capacity, rate, ops, op);
    assert (configured + ops + [op])[..|configured| + |ops|] == configured + ops;
    assert (ops + [op])[..|ops|] == ops;
    RunAppend(l, configured, ops);
  }

  // ------------------------------------------------------------------ the classes

  class TokenBucket {
    const capacity: real
    const rate: real
    var tokens: real
    var updated: real

    constructor (capacity: real, rate: real, now: real)
      ensures State() == New(capacity, rate, now)
    {
      this.capacity := capacity;
      this.rate := rate;
      tokens := capacity;
      updated := now;
    }

    function State(): Bucket
      reads this
    {
      Bucket(capacity, rate, tokens, updated)
    }

    /** Refills the bucket and takes a token if there is one. */
    method Take(now: real) returns (ok: bool)
      modifies this
      ensures ok == Grants(old(State()), now) && State() == Check(old(State()), now)
    {
      tokens := Min(capacity, tokens + Earned(rate, updated, now));
      updated := now;
      assert State() == Refill(old(State()), now);
      ok := tokens >= 1.0;
      if ok {
        tokens := tokens - 1.0;
      }
    }
  }

  class TokenBucketRateLimiter {
    const fallback: Limit
    var limits: map<string, Limit>
    var buckets: map<string, TokenBucket>

    constructor (capacity: real, rate: real)
      ensures Valid() && Model() == Limiter(Limit(capacity, rate), map[], map[])
      ensures fresh(Objects())
    {
      fallback := Limit(capacity, rate);
      limits := map[];
      buckets := map[];
    }

    /** No bucket serves two keys. */
    ghost predicate Valid()
      reads this
    {
      forall k, m :: k in buckets && m in buckets && k != m ==> buckets[k] != buckets[m]
    }

    ghost function Objects(): set<TokenBucket>
      reads this
    {
      set k | k in buckets :: buckets[k]
    }

    ghost function Model(): Limiter
      reads this, Objects()
    {
      Limiter(fallback, limits, map k | k in buckets :: buckets[k].State())
    }

    method Configure(key: string, capacity: real, rate: real)
      requires Valid()
      modifies this
      ensures Valid() && Objects() <= old(Objects())
      ensures Model() == Apply(old(Model()), Op.Configure(key, Limit(capacity, rate)))
    {
      limits := limits[key := Limit(capacity, rate)];
      buckets := buckets - {key};
    }

    /** The bucket of a key, made full on first use. */
    method BucketFor(key: string, made: real) returns (b: TokenBucket)
      requires Valid()
      modifies this
      ensures Valid() && key in buckets && buckets[key] == b && fresh(Objects() - old(Objects()))
      ensures b.State() == BucketOf(old(Model()), key, made)
      ensures Model() == old(Model()).(buckets := old(Model()).buckets[key := b.State()])
    {
      if key !in buckets {
        var limit := if key in limits then limits[key] else fallback;
        b := new TokenBucket(limit.capacity, limit.rate, made);
        buckets := buckets[key := b];
      }
      b := buckets[key];
    }

    /** One call: true when it is let through, false when it is refused. */
    method CheckKey(key: string, made: real, now: real) returns (ok: bool)
      requires Valid()
      modifies this, Objects()
      ensures Valid() && fresh(Objects() - old(Objects()))
      ensures ok == Grants(BucketOf(old(Model()), key, made), now)
      ensures Model() == Apply(old(Model()), Attempt(key, made, now))
    {
      var b := BucketFor(key, made);
      ok := b.Take(now);
      assert Model().buckets == old(Model()).buckets[key := b.State()];
    }
  }
}
