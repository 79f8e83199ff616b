/**
 When a cancelled subscription loses payloads: exactly when something was queued or
 in delivery at the call, or, after a shutdown, was published afterwards.
 */
module EventBusLosses {
  import opened Common
  import opened EventBuses
  import opened EventBusTheorems

  /**
   What the cancelled subscription `before` can have become: its consumer stops at its next
   resumption; more may be queued.
   */
  predicate Ended(before: Sub, now: Sub) {
    && now.key == before.key && now.settled == before.settled
    && before.queue <= now.queue && now.sent == before.sent + now.queue[|before.queue|..]
    && (if now.at.Stopped?
        then now.at == Stopped(if InDelivery(before.at) then Some(before.at.payload) else None)
        else now.at == before.at && now.cancelling)
  }

  /** Nothing is queued and nothing is in delivery, so that cancelling drops nothing. */
  predicate LosesNothing(before: Sub) {
    before.queue == [] && !InDelivery(before.at)
  }

  lemma {:induction false} CancelEnds(sub: Sub)
    requires !sub.at.Stopped?
    ensures Ended(sub, Cancel(sub))
  {
  }

  lemma {:induction false} PutKeepsEnded(before: Sub, now: Sub, payload: Payload)
    requires Ended(before, now)
    ensures Ended(before, Put(now, payload)) && |Put(now, payload).sent| == |now.sent| + 1
  {
    var n := |before.queue|;
    assert (now.queue + [payload])[n..] == now.queue[n..] + [payload];
  }

  lemma {:induction false} ResumeKeepsEnded(before: Sub, now: Sub, running: bool, maxRetries: int, ok: bool)
    requires Ended(before, now) && Enabled(now)
    ensures Ended(before, Resume(now, running, maxRetries, ok).sub)
    ensures Resume(now, running, maxRetries, ok).sub.sent == now.sent
  {
  }

  /** Whether the action sends a payload to subscription `i`. */
  predicate SendsTo(s: Bus, a: Action, i: nat) {
    a.Publish? && Registered(s, i) && s.subs[i].key.0 == a.topic
  }

  /** An action after the call leaves the subscription ended, and it is sent what is still published to it. */
  lemma {:induction false} ApplyKeepsEnded(s: Bus, a: Action, i: nat, before: Sub)
    requires i < |s.subs| && Ended(before, s.subs[i])
    ensures i < |Apply(s, a).subs| && Ended(before, Apply(s, a).subs[i])
    ensures |Apply(s, a).subs[i].sent| == |s.subs[i].sent| + if SendsTo(s, a, i) then 1 else 0
  {
    match a
    case Publish(topic, payload) => PutKeepsEnded(before, s.subs[i], payload);
    case Subscribe(_) =>
    case Unsubscribe(_) =>
    case Shutdown =>
    case Consume(j, ok) =>
      if j == i && Enabled(s.subs[i]) {
        ResumeKeepsEnded(before, s.subs[i], s.running, s.maxRetries, ok);
      }
  }

  /** Nothing of `rest` is sent to subscription `i`. */
  ghost predicate SendsNothing(s: Bus, rest: seq<Action>, i: nat) {
    forall k :: 0 <= k < |rest| ==> !SendsTo(Run(s, rest[..k]), rest[k], i)
  }

  lemma {:induction false} SendsNothingNext(s: Bus, rest: seq<Action>, i: nat)
    requires rest != []
    ensures SendsNothing(s, rest, i) <==>
            SendsNothing(s, rest[..|rest| - 1], i) && !SendsTo(Run(s, rest[..|rest| - 1]), rest[|rest| - 1], i)
  {
    var earlier := rest[..|rest| - 1];
    forall k | 0 <= k < |earlier|
      ensures earlier[..k] == rest[..k] && earlier[k] == rest[k]
    {
    }
  }

  lemma {:induction false} RunKeepsEnded(s: Bus, rest: seq<Action>, i: nat, before: Sub)
    requires i < |s.subs| && Ended(before, s.subs[i])
    ensures i < |Run(s, rest).subs| && Ended(before, Run(s, rest).subs[i])
    ensures |Run(s, rest).subs[i].sent| >= |s.subs[i].sent|
    ensures |Run(s, rest).subs[i].sent| == |s.subs[i].sent| <==> SendsNothing(s, rest, i)
  {
    if rest != [] {
      var earlier := rest[..|rest| - 1];
      RunKeepsEnded(s, earlier, i, before);
      ApplyKeepsEnded(Run(s, earlier), rest[|rest| - 1], i, before);
      SendsNothingNext(s, rest, i);
    }
  }

  /** A stopped subscription was settled all it was sent exactly when nothing was open at the call or came after it. */
  lemma {:induction false} EndedMeaning(before: Sub, now: Sub, maxRetries: int)
    requires SubInv(before, maxRetries) && Ended(before, now) && SubInv(now, maxRetries) && now.at.Stopped?
    ensures now.sent == Payloads(now.settled) <==> LosesNothing(before) && |now.sent| == |before.sent|
    ensures |now.sent| == |Payloads(now.settled)| + |InHand(now.at)| + |now.queue|
  {
    if now.sent == Payloads(now.settled) {
      assert |InHand(now.at)| + |now.queue| == 0;
    }
  }

  lemma {:induction false} RunInv(s: Bus, rest: seq<Action>)
    requires Inv(s)
    ensures Inv(Run(s, rest)) && Run(s, rest).maxRetries == s.maxRetries
  {
    if rest != [] {
      RunInv(s, rest[..|rest| - 1]);
      ApplyKeepsInv(Run(s, rest[..|rest| - 1]), rest[|rest| - 1]);
    }
  }

  // ------------------------------------------------------------------ unsubscribing

  lemma {:induction false} NeverRegisteredAgain(s: Bus, rest: seq<Action>, i: nat)
    requires KeysInv(s) && i < |s.subs| && !Registered(s, i)
    ensures KeysInv(Run(s, rest)) && i < |Run(s, rest).subs| && !Registered(Run(s, rest), i)
  {
    if rest != [] {
      NeverRegisteredAgain(s, rest[..|rest| - 1], i);
      StaysUnregistered(Run(s, rest[..|rest| - 1]), rest[|rest| - 1], i);
    }
  }

  lemma {:induction false} StaysUnregistered(s: Bus, a: Action, i: nat)
    requires KeysInv(s) && i < |s.subs| && !Registered(s, i)
    ensures KeysInv(Apply(s, a)) && i < |Apply(s, a).subs| && !Registered(Apply(s, a), i)
  {
    KeepsKeys(s, a);
    if a.Consume? && a.sub < |s.subs| && Enabled(s.subs[a.sub]) {
      ResumeKeepsKey(s.subs[a.sub], s.running, s.maxRetries, a.ok);
    }
  }

  lemma {:induction false} UnsubscribedGetsNothing(s: Bus, rest: seq<Action>, i: nat)
    requires KeysInv(s) && i < |s.subs| && !Registered(s, i)
    ensures SendsNothing(s, rest, i)
  {
    forall k | 0 <= k < |rest|
      ensures !SendsTo(Run(s, rest[..k]), rest[k], i)
    {
      NeverRegisteredAgain(s, rest[..k], i);
    }
  }

  /**
   Unsubscribing.  Once the consumer has stopped, everything the subscription was sent
   is settled if and only if, at the call, its queue was empty and it was not in a
   delivery.  What was settled is what was settled at the call.
   */
  lemma {:induction false} UnsubscribeLosesNothingExactlyWhen(maxRetries: int, trace: seq<Action>, key: Key,
                                                              rest: seq<Action>)
    requires
      var s := Run(NewBus(maxRetries), trace);
      s.running && key in s.groups && s.groups[key] < |s.subs|
    ensures
      var s := Run(NewBus(maxRetries), trace);
      var i, t := s.groups[key], Run(Apply(s, Unsubscribe(key)), rest);
      && i < |t.subs| && t.subs[i].settled == s.subs[i].settled && t.subs[i].sent == s.subs[i].sent
      && (t.subs[i].at.Stopped? ==> (t.subs[i].sent == Payloads(t.subs[i].settled) <==> LosesNothing(s.subs[i])))
  {
    RunKeepsInv(maxRetries, trace);
    var s := Run(NewBus(maxRetries), trace);
    var i, u := s.groups[key], Apply(s, Unsubscribe(key));
    assert Registered(s, i);
    CancelEnds(s.subs[i]);
    ApplyKeepsInv(s, Unsubscribe(key));
    UnsubscribedGetsNothing(u, rest, i);
    RunKeepsEnded(u, rest, i, s.subs[i]);
    RunInv(u, rest);
    StoppedLoses(s.subs[i], Run(u, rest).subs[i], maxRetries);
  }

  lemma {:induction false} StoppedLoses(before: Sub, now: Sub, maxRetries: int)
    requires SubInv(before, maxRetries) && Ended(before, now) && SubInv(now, maxRetries)
    ensures |now.sent| == |before.sent| ==> now.sent == before.sent
    ensures now.at.Stopped? ==> (now.sent == Payloads(now.settled) <==>
            LosesNothing(before) && |now.sent| == |before.sent|)
  {
    if now.at.Stopped? {
      EndedMeaning(before, now, maxRetries);
    }
  }

  // ------------------------------------------------------------------ shutting down

  /**
   Shutting down.  A registered subscription keeps being queued for, so once its
   consumer has stopped, everything it was sent is settled if and only if, at the
   call, its queue was empty and it was not in a delivery, and nothing was published
   to it afterwards.
   */
  lemma {:induction false} ShutdownLosesNothingExactlyWhen(maxRetries: int, trace: seq<Action>, i: nat,
                                                           rest: seq<Action>)
    requires
      var s := Run(NewBus(maxRetries), trace);
      s.running && Registered(s, i)
    ensures
      var s := Run(NewBus(maxRetries), trace);
      var u := Apply(s, Shutdown);
      var t := Run(u, rest);
      && i < |t.subs| && t.subs[i].settled == s.subs[i].settled
      && (t.subs[i].at.Stopped? ==>
          (t.subs[i].sent == Payloads(t.subs[i].settled) <==> LosesNothing(s.subs[i]) && SendsNothing(u, rest, i)))
  {
    RunKeepsInv(maxRetries, trace);
    var s := Run(NewBus(maxRetries), trace);
    var u := Apply(s, Shutdown);
    CancelEnds(s.subs[i]);
    ApplyKeepsInv(s, Shutdown);
    RunKeepsEnded(u, rest, i, s.subs[i]);
    RunInv(u, rest);
    StoppedLoses(s.subs[i], Run(u, rest).subs[i], maxRetries);
  }

  // ------------------------------------------------------------------ an instance

  lemma {:induction false} RunNext(s: Bus, trace: seq<Action>, a: Action)
    ensures Run(s, trace + [a]) == Apply(Run(s, trace), a)
  {
    assert (trace + [a])[..|trace|] == trace;
  }

  /** Published, unsubscribed before the consumer ran, dropped: neither delivered nor dead-lettered. */
  lemma {:induction false} UnsubscribeDropsAPayload(key: Key, payload: Payload)
    ensures
      var trace: seq<Action> :=
        [] + [Subscribe(key)] + [Publish(key.0, payload)] + [Unsubscribe(key)] + [Consume(0, true)];
      var t := Run(NewBus(3), trace);
      && SentTo(3, trace, 0) == [payload]
      && |t.subs| == 1 && t.subs[0].at.Stopped? && t.subs[0].settled == [] && t.subs[0].calls == [] && t.dead == []
  {
    var none: seq<Action> := [];
    var one := none + [Subscribe(key)];
    var two := one + [Publish(key.0, payload)];
    var three := two + [Unsubscribe(key)];
    var s := NewBus(3);
    RunNext(s, none, Subscribe(key));
    RunNext(s, one, Publish(key.0, payload));
    RunNext(s, two, Unsubscribe(key));
    RunNext(s, three, Consume(0, true));
    SentIsPublished(3, three + [Consume(0, true)], 0);
    var s1 := Run(s, one);
    assert s1.subs == [Sub(key, [], NotStarted, false, [], [], [])] && s1.groups == map[key := 0];
    var s2 := Run(s, two);
    assert |s2.subs| == 1 && s2.subs[0] == Put(s1.subs[0], payload);
    assert s2.subs[0] == Sub(key, [payload], NotStarted, false, [payload], [], []);
    assert s2.subs == [Sub(key, [payload], NotStarted, false, [payload], [], [])];
    var s3 := Run(s, three);
    assert s3.subs == [Sub(key, [payload], NotStarted, true, [payload], [], [])];
  }

  /** A bus with one subscription, its dead letters empty. */
  function OneSub(groups: map<Key, nat>, sub: Sub, inflight: int): Bus {
    Bus(groups, [sub], [], inflight, true, 1)
  }

  lemma {:induction false} OneSubConsumes(groups: map<Key, nat>, sub: Sub, inflight: int, ok: bool)
    requires Enabled(sub) && !Resume(sub, true, 1, ok).dead
    ensures Apply(OneSub(groups, sub, inflight), Consume(0, ok)) ==
            OneSub(groups, Resume(sub, true, 1, ok).sub, inflight + Resume(sub, true, 1, ok).inflight)
  {
  }

  lemma {:induction false} OneSubIsSent(sub: Sub, payload: Payload)
    ensures Apply(OneSub(map[sub.key := 0], sub, 0), Publish(sub.key.0, payload)) ==
            OneSub(map[sub.key := 0], Put(sub, payload), 0)
  {
    assert Apply(OneSub(map[sub.key := 0], sub, 0), Publish(sub.key.0, payload)).subs == [Put(sub, payload)];
  }

  lemma {:induction false} Queued(key: Key, payload: Payload)
    ensures Run(NewBus(1), [] + [Subscribe(key)] + [Publish(key.0, payload)]) ==
            OneSub(map[key := 0], Sub(key, [payload], NotStarted, false, [payload], [], []), 0)
  {
    var s, none: seq<Action> := NewBus(1), [];
    var start := Sub(key, [], NotStarted, false, [], [], []);
    RunNext(s, none, Subscribe(key));
    assert Run(s, none + [Subscribe(key)]) == OneSub(map[key := 0], start, 0);
    OneSubIsSent(start, payload);
    RunNext(s, none + [Subscribe(key)], Publish(key.0, payload));
    assert Put(start, payload) == Sub(key, [payload], NotStarted, false, [payload], [], []);
  }

  /** A delivery that has failed once and pauses. */
  lemma {:induction false} FirstFailure(key: Key, payload: Payload)
    ensures
      var trace: seq<Action> := [] + [Subscribe(key)] + [Publish(key.0, payload)] + [Consume(0, true)]
                                + [Consume(0, true)] + [Consume(0, false)];
      Run(NewBus(1), trace) ==
      OneSub(map[key := 0], Sub(key, [], Pausing(payload, 1), false, [payload], [Call(payload, false)], []), 1)
  {
    var s, groups := NewBus(1), map[key := 0];
    var two: seq<Action> := [] + [Subscribe(key)] + [Publish(key.0, payload)];
    var three := two + [Consume(0, true)];
    var four := three + [Consume(0, true)];
    var queued := Sub(key, [payload], NotStarted, false, [payload], [], []);
    var waiting, called := queued.(at := Waiting), queued.(queue := [], at := Calling(payload, 1));
    Queued(key, payload);
    RunNext(s, two, Consume(0, true));
    OneSubConsumes(groups, queued, 0, true);
    assert Resume(queued, true, 1, true).sub == waiting;
    RunNext(s, three, Consume(0, true));
    OneSubConsumes(groups, waiting, 0, true);
    assert Resume(waiting, true, 1, true).sub == called;
    RunNext(s, four, Consume(0, false));
    OneSubConsumes(groups, called, 1, false);
    assert Resume(called, true, 1, false).sub == called.(at := Pausing(payload, 1), calls := [Call(payload, false)]);
  }

  /** Every allowed call failed, and unsubscribing before the last pause is over keeps it from the dead letters. */
  lemma {:induction false} DroppedIsNotDeadLettered(key: Key, payload: Payload)
    ensures
      var trace: seq<Action> := [] + [Subscribe(key)] + [Publish(key.0, payload)] + [Consume(0, true)]
                                + [Consume(0, true)] + [Consume(0, false)] + [Unsubscribe(key)] + [Consume(0, true)];
      var t := Run(NewBus(1), trace);
      && Allowed(1) == 1 && |t.subs| == 1 && t.subs[0].calls == Repeat(payload, 1)
      && t.subs[0].at == Stopped(Some(payload)) && t.dead == []
  {
    var s := NewBus(1);
    var five: seq<Action> := [] + [Subscribe(key)] + [Publish(key.0, payload)] + [Consume(0, true)]
                             + [Consume(0, true)] + [Consume(0, false)];
    var six := five + [Unsubscribe(key)];
    FirstFailure(key, payload);
    RunNext(s, five, Unsubscribe(key));
    var sub := Sub(key, [], Pausing(payload, 1), true, [payload], [Call(payload, false)], []);
    assert Run(s, six) == OneSub(map[key := 0] - {key}, sub, 1);
    RunNext(s, six, Consume(0, true));
    OneSubConsumes(map[key := 0] - {key}, sub, 1, true);
    assert Repeat(payload, 1) == Repeat(payload, 0) + [Call(payload, false)];
  }

  // ------------------------------------------------------------------ after a shutdown

  /** The consumer has not begun, or stopped without beginning a delivery. */
  predicate NeverDelivered(sub: Sub) {
    sub.calls == [] && sub.settled == [] && (sub.at == NotStarted || sub.at == Stopped(None))
  }

  lemma {:induction false} ApplyNeverDelivers(s: Bus, a: Action, i: nat)
    requires !s.running && (i < |s.subs| ==> NeverDelivered(s.subs[i]))
    ensures !Apply(s, a).running && (i < |Apply(s, a).subs| ==> NeverDelivered(Apply(s, a).subs[i]))
  {
  }

  /** A subscription made after a shutdown is never delivered anything, whatever is published to it. */
  lemma {:induction false} ShutDownStartsNothing(s: Bus, rest: seq<Action>, i: nat)
    requires i >= |s.subs|
    ensures
      var t := Run(Apply(s, Shutdown), rest);
      !t.running && (i < |t.subs| ==> NeverDelivered(t.subs[i]))
  {
    if rest != [] {
      ShutDownStartsNothing(s, rest[..|rest| - 1], i);
      ApplyNeverDelivers(Run(Apply(s, Shutdown), rest[..|rest| - 1]), rest[|rest| - 1], i);
    }
  }
}
