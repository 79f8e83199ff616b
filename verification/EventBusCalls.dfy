/**
 What the handlers did, as the trace has it, against what the bus makes of it: which
 payloads are delivered and which become dead letters.
 */
module EventBusCalls {
  import opened Common
  import opened EventBuses
  import opened EventBusTheorems

  /** A handler call of subscription `i` ends with this action. */
  predicate EndsCall(s: Bus, a: Action, i: nat) {
    a.Consume? && a.sub == i && i < |s.subs| && Enabled(s.subs[i]) && !s.subs[i].cancelling && s.subs[i].at.Calling?
  }

  /** The handler calls of subscription `i` that end in a trace: the payload in hand, and how the trace has it end. */
  function Outcomes(maxRetries: int, trace: seq<Action>, i: nat): seq<Call> {
    if trace == [] then []
    else
      var s, a := Run(NewBus(maxRetries), trace[..|trace| - 1]), trace[|trace| - 1];
      Outcomes(maxRetries, trace[..|trace| - 1], i)
        + if a.Consume? && EndsCall(s, a, i) then [Call(s.subs[i].at.payload, a.ok)] else []
  }

  /** The calls a subscription has recorded. */
  function CallsOf(s: Bus, i: nat): seq<Call> {
    if i < |s.subs| then s.subs[i].calls else []
  }

  lemma {:induction false} ConsumeCalls(s: Bus, j: nat, ok: bool, i: nat)
    ensures CallsOf(Apply(s, Consume(j, ok)), i) ==
            CallsOf(s, i) + if EndsCall(s, Consume(j, ok), i) then [Call(s.subs[i].at.payload, ok)] else []
  {
  }

  lemma {:induction false} ApplyCalls(s: Bus, a: Action, i: nat)
    ensures CallsOf(Apply(s, a), i) ==
            CallsOf(s, i) + if a.Consume? && EndsCall(s, a, i) then [Call(s.subs[i].at.payload, a.ok)] else []
  {
    match a
    case Publish(_, _) =>
    case Subscribe(_) =>
    case Unsubscribe(_) =>
    case Shutdown =>
    case Consume(j, ok) => ConsumeCalls(s, j, ok, i);
  }

  /** The recorded calls are those of the trace, with the trace's outcomes. */
  lemma {:induction false} CallsAreOutcomes(maxRetries: int, trace: seq<Action>, i: nat)
    ensures CallsOf(Run(NewBus(maxRetries), trace), i) == Outcomes(maxRetries, trace, i)
  {
    if trace != [] {
      CallsAreOutcomes(maxRetries, trace[..|trace| - 1], i);
      ApplyCalls(Run(NewBus(maxRetries), trace[..|trace| - 1]), trace[|trace| - 1], i);
    }
  }

  lemma {:induction false} RepeatIs(p: Payload, n: nat)
    ensures |Repeat(p, n)| == n && forall c :: c in Repeat(p, n) ==> c == Call(p, false)
    ensures forall j :: 0 <= j < n ==> Repeat(p, n)[j] == Call(p, false)
  {
    if n > 0 {
      RepeatIs(p, n - 1);
    }
  }

  /** The number of the first call for the k-th settled payload. */
  function FirstCall(settled: seq<Settlement>, k: nat): nat
    requires k <= |settled|
  {
    |CallsFor(settled[..k])|
  }

  lemma {:induction false} CallsForFront(settled: seq<Settlement>, k: nat)
    requires k <= |settled|
    ensures CallsFor(settled[..k]) <= CallsFor(settled)
  {
    if k < |settled| {
      var front := settled[..|settled| - 1];
      CallsForFront(front, k);
      assert front[..k] == settled[..k];
      CallsForLast(settled);
    } else {
      assert settled[..k] == settled;
    }
  }

  lemma {:induction false} CallsForLast(settled: seq<Settlement>)
    requires settled != []
    ensures CallsFor(settled[..|settled| - 1]) <= CallsFor(settled)
  {
    var z := settled[|settled| - 1];
    Regroup(CallsFor(settled[..|settled| - 1]), Repeat(z.payload, z.failures),
            if z.delivered then [Call(z.payload, true)] else []);
  }

  /** What the calls for one payload are when it is settled: failures, and a success that ends them. */
  ghost predicate SettledBy(z: Settlement, calls: seq<Call>, maxRetries: int) {
    && (forall c :: c in calls ==> c.payload == z.payload)
    && |calls| <= (if maxRetries < 1 then 0 else maxRetries)
    && (z.delivered <==> calls != [] && calls[|calls| - 1].ok)
    && (forall j :: 0 <= j < |calls| - 1 ==> !calls[j].ok)
    && (!z.delivered ==> |calls| == if maxRetries < 1 then 0 else maxRetries)
    && (!z.delivered <==> |calls| == (if maxRetries < 1 then 0 else maxRetries) && forall c :: c in calls ==> !c.ok)
  }

  lemma {:induction false} SettlementCalls(z: Settlement, maxRetries: int)
    requires Proper(z, maxRetries)
    ensures SettledBy(z, Repeat(z.payload, z.failures) + if z.delivered then [Call(z.payload, true)] else [],
                      maxRetries)
  {
    RepeatIs(z.payload, z.failures);
    var calls := Repeat(z.payload, z.failures) + if z.delivered then [Call(z.payload, true)] else [];
    if z.delivered {
      assert calls[|calls| - 1] in calls && calls[|calls| - 1].ok;
    } else {
      assert calls == Repeat(z.payload, z.failures);
      assert calls != [] ==> calls[|calls| - 1] in calls;
    }
  }

  /** The calls of the trace for the k-th settled payload. */
  function CallsAt(maxRetries: int, trace: seq<Action>, i: nat, settled: seq<Settlement>, k: nat): (calls: seq<Call>)
    requires k < |settled|
    requires FirstCall(settled, k) <= FirstCall(settled, k + 1) <= |Outcomes(maxRetries, trace, i)|
  {
    Outcomes(maxRetries, trace, i)[FirstCall(settled, k)..FirstCall(settled, k + 1)]
  }

  lemma {:induction false} CallsAtIs(calls: seq<Call>, settled: seq<Settlement>, k: nat)
    requires k < |settled| && CallsFor(settled) <= calls
    ensures FirstCall(settled, k) <= FirstCall(settled, k + 1) <= |calls|
    ensures calls[FirstCall(settled, k)..FirstCall(settled, k + 1)] ==
            Repeat(settled[k].payload, settled[k].failures) +
            if settled[k].delivered then [Call(settled[k].payload, true)] else []
  {
    var z, upto := settled[k], settled[..k + 1];
    CallsForFront(settled, k + 1);
    assert upto[..k] == settled[..k] && upto[k] == z;
    var before, own := CallsFor(settled[..k]), Repeat(z.payload, z.failures);
    var last := if z.delivered then [Call(z.payload, true)] else [];
    assert CallsFor(upto) == before + own + last;
    Regroup(before, own, last);
    assert calls[..|CallsFor(upto)|] == before + (own + last);
    assert calls[|before|..|CallsFor(upto)|] == own + last;
  }

  /**
   Delivered or dead-lettered, by the trace alone.  In every run, of any subscription:
   the settled payloads have the calls of the trace in turn, each its own; a payload is
   delivered if and only if its last call returned, and undelivered, which is what the
   dead letters are, if and only if all the allowed calls were made and every one of
   them raised.
   */
  lemma {:induction false} DeadLetteredExactlyWhen(maxRetries: int, trace: seq<Action>, i: nat, k: nat)
    requires i < |Run(NewBus(maxRetries), trace).subs| && k < |Run(NewBus(maxRetries), trace).subs[i].settled|
    ensures
      var s := Run(NewBus(maxRetries), trace);
      var settled := s.subs[i].settled;
      && FirstCall(settled, k) <= FirstCall(settled, k + 1) <= |Outcomes(maxRetries, trace, i)|
      && SettledBy(settled[k], CallsAt(maxRetries, trace, i, settled, k), maxRetries)
      && DeadOf(s.dead, i) == Undelivered(settled)
  {
    RunKeepsInv(maxRetries, trace);
    CallsAreOutcomes(maxRetries, trace, i);
    var sub := Run(NewBus(maxRetries), trace).subs[i];
    assert SubInv(sub, maxRetries) && CallsFor(sub.settled) <= sub.calls;
    CallsAtIs(sub.calls, sub.settled, k);
    assert sub.settled[k] in sub.settled;
    SettlementCalls(sub.settled[k], maxRetries);
  }
}
