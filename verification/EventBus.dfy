/**
 The in-memory event bus as a state machine.  Every subscription has its own
 queue and one consumer coroutine; an action is an API call or one resumption of
 a consumer, which runs up to its next suspension point.
 */
module EventBuses {
  import opened Common

  type Topic = string
  type Group = string
  type Payload = string
  type Key = (Topic, Group)

  /** A call of a handler that returned or raised. */
  datatype Call = Call(payload: Payload, ok: bool)

  /** A payload the consumer is done with, after `failures` failed calls. */
  datatype Settlement = Settlement(payload: Payload, failures: nat, delivered: bool)

  /** Where a consumer is suspended; a stopped one may have dropped the payload it was delivering. */
  datatype Consumer =
    | NotStarted
    | Waiting
    | Calling(payload: Payload, attempt: nat)
    | Pausing(payload: Payload, attempt: nat)
    | Stopped(dropped: Option<Payload>)

  /**
   A subscription.  `cancelling` says that its consumer will find a cancellation
   when it is next resumed.  `sent`, `calls` and `settled` record its history.
   */
  datatype Sub = Sub(key: Key, queue: seq<Payload>, at: Consumer, cancelling: bool,
                     sent: seq<Payload>, calls: seq<Call>, settled: seq<Settlement>)

  datatype DeadLetter = DeadLetter(sub: nat, key: Key, payload: Payload)

  datatype Bus = Bus(groups: map<Key, nat>, subs: seq<Sub>, dead: seq<DeadLetter>,
                     inflight: int, running: bool, maxRetries: int)

  datatype Action =
    | Publish(topic: Topic, payload: Payload)
    | Subscribe(key: Key)
    | Unsubscribe(key: Key)
    | Shutdown
    | Consume(sub: nat, ok: bool)   // `ok`: whether the handler call that ends here returned

  function NewBus(maxRetries: int): Bus {
    Bus(map[], [], [], 0, true, maxRetries)
  }

  predicate Registered(s: Bus, i: nat) {
    i < |s.subs| && s.subs[i].key in s.groups && s.groups[s.subs[i].key] == i
  }

  predicate InDelivery(c: Consumer) {
    c.Calling? || c.Pausing?
  }

  function Put(sub: Sub, payload: Payload): Sub {
    sub.(queue := sub.queue + [payload], sent := sub.sent + [payload])
  }

  /** Cancelling a task that has ended has no effect. */
  function Cancel(sub: Sub): Sub {
    if sub.at.Stopped? then sub else sub.(cancelling := true)
  }

  /** What one resumption of a consumer does to its subscription, to `inflight` and to the dead letters. */
  datatype Progress = Progress(sub: Sub, inflight: int, dead: bool)

  /** Back at the head of the consumer's loop. */
  function Loop(sub: Sub, running: bool): Sub {
    sub.(at := if running then Waiting else Stopped(None))
  }

  function Settle(sub: Sub, payload: Payload, failures: nat, delivered: bool): Sub {
    sub.(settled := sub.settled + [Settlement(payload, failures, delivered)])
  }

  /** Whether resuming the consumer can do anything: a waiting one needs a payload or a cancellation. */
  predicate Enabled(sub: Sub) {
    !sub.at.Stopped? && (sub.cancelling || !sub.at.Waiting? || sub.queue != [])
  }

  function Resume(sub: Sub, running: bool, maxRetries: int, ok: bool): Progress
    requires Enabled(sub)
  {
    if sub.cancelling then
      var dropped := if InDelivery(sub.at) then Some(sub.at.payload) else None;
      Progress(sub.(at := Stopped(dropped), cancelling := false), if InDelivery(sub.at) then -1 else 0, false)
    else
      match sub.at
      case NotStarted => Progress(Loop(sub, running), 0, false)
      case Waiting =>
        var p, rest := sub.queue[0], sub.queue[1..];
        if maxRetries < 1 then
          Progress(Loop(Settle(sub.(queue := rest), p, 0, false), running), 0, true)
        else
          Progress(sub.(queue := rest, at := Calling(p, 1)), 1, false)
      case Calling(p, n) =>
        var called := sub.(calls := sub.calls + [Call(p, ok)]);
        if ok then
          Progress(Loop(Settle(called, p, if n == 0 then 0 else n - 1, true), running), -1, false)
        else
          Progress(called.(at := Pausing(p, n)), 0, false)
      case Pausing(p, n) =>
        if n < maxRetries then
          Progress(sub.(at := Calling(p, n + 1)), 0, false)
        else
          Progress(Loop(Settle(sub, p, n, false), running), -1, true)
  }

  function Apply(s: Bus, a: Action): Bus {
    match a
    case Publish(topic, payload) =>
      s.(subs := seq(|s.subs|, i requires 0 <= i < |s.subs| =>
        if s.subs[i].key.0 == topic && Registered(s, i) then Put(s.subs[i], payload) else s.subs[i]))
    case Subscribe(key) =>
      if key in s.groups then s
      else s.(groups := s.groups[key := |s.subs|], subs := s.subs + [Sub(key, [], NotStarted, false, [], [], [])])
    case Unsubscribe(key) =>
      if key in s.groups && s.groups[key] < |s.subs| then
        s.(groups := s.groups - {key}, subs := s.subs[s.groups[key] := Cancel(s.subs[s.groups[key]])])
      else s
    case Shutdown =>
      s.(running := false, subs := seq(|s.subs|, i requires 0 <= i < |s.subs| =>
        if Registered(s, i) then Cancel(s.subs[i]) else s.subs[i]))
    case Consume(i, ok) =>
      if i < |s.subs| && Enabled(s.subs[i]) then
        var p := Resume(s.subs[i], s.running, s.maxRetries, ok);
        s.(subs := s.subs[i := p.sub],
        inflight := s.inflight + p.inflight,
        dead := if !p.dead then s.dead
                else s.dead + [DeadLetter(i, s.subs[i].key, p.sub.settled[|p.sub.settled| - 1].payload)])
      else s
  }

  function Run(s: Bus, trace: seq<Action>): Bus {
    if trace == [] then s else Apply(Run(s, trace[..|trace| - 1]), trace[|trace| - 1])
  }

  /** The bus has nothing queued for a registered group and no delivery in flight. */
  predicate Idle(s: Bus) {
    s.inflight == 0 && forall i :: 0 <= i < |s.subs| && Registered(s, i) ==> s.subs[i].queue == []
  }

  // ------------------------------------------------------------------ what every run keeps

  function Payloads(settled: seq<Settlement>): seq<Payload> {
    seq(|settled|, i requires 0 <= i < |settled| => settled[i].payload)
  }

  function InHand(c: Consumer): seq<Payload> {
    match c
    case Calling(p, _) => [p]
    case Pausing(p, _) => [p]
    case Stopped(Some(p)) => [p]
    case _ => []
  }

  function Repeat(p: Payload, n: nat): seq<Call> {
    if n == 0 then [] else Repeat(p, n - 1) + [Call(p, false)]
  }

  /** The calls that settling payloads in this way takes. */
  function CallsFor(settled: seq<Settlement>): seq<Call> {
    if settled == [] then []
    else
      var z := settled[|settled| - 1];
      CallsFor(settled[..|settled| - 1]) + Repeat(z.payload, z.failures) +
      if z.delivered then [Call(z.payload, true)] else []
  }

  function CallsInHand(c: Consumer): seq<Call> {
    match c
    case Calling(p, n) => Repeat(p, if n == 0 then 0 else n - 1)
    case Pausing(p, n) => Repeat(p, n)
    case _ => []
  }

  function Allowed(maxRetries: int): nat {
    if maxRetries < 1 then 0 else maxRetries
  }

  /**
   The handler calls so far: those for the settled payloads, then the failures of the
   payload in hand; a payload that was dropped had failed no more often than allowed.
   */
  ghost predicate CallsInOrder(sub: Sub, maxRetries: int) {
    match sub.at
    case Stopped(None) => sub.calls == CallsFor(sub.settled)
    case Stopped(Some(p)) =>
      exists n: nat :: n <= Allowed(maxRetries) && sub.calls == CallsFor(sub.settled) + Repeat(p, n)
    case _ => sub.calls == CallsFor(sub.settled) + CallsInHand(sub.at)
  }

  /** Delivered by an allowed call, or dead-lettered once every allowed call has failed. */
  predicate Proper(z: Settlement, maxRetries: int) {
    if z.delivered then z.failures < Allowed(maxRetries) else z.failures == Allowed(maxRetries)
  }

  /**
   One subscription: everything sent is settled, in hand or queued, in that order;
   handler calls follow the settlements, all calls for one payload before the next.
   */
  ghost predicate SubInv(sub: Sub, maxRetries: int) {
    && sub.sent == Payloads(sub.settled) + InHand(sub.at) + sub.queue
    && CallsInOrder(sub, maxRetries)
    && (InDelivery(sub.at) ==> 1 <= sub.at.attempt <= maxRetries)
    && (forall z :: z in sub.settled ==> Proper(z, maxRetries))
    && (sub.at.Stopped? ==> !sub.cancelling)
  }

  function CountInDelivery(subs: seq<Sub>): nat {
    if subs == [] then 0
    else CountInDelivery(subs[..|subs| - 1]) + if InDelivery(subs[|subs| - 1].at) then 1 else 0
  }

  /** The payloads of the dead letters of subscription `i`. */
  function DeadOf(dead: seq<DeadLetter>, i: nat): seq<Payload> {
    if dead == [] then []
    else DeadOf(dead[..|dead| - 1], i) + if dead[|dead| - 1].sub == i then [dead[|dead| - 1].payload] else []
  }

  function Undelivered(settled: seq<Settlement>): seq<Payload> {
    if settled == [] then []
    else
      var z := settled[|settled| - 1];
      Undelivered(settled[..|settled| - 1]) + if z.delivered then [] else [z.payload]
  }

  ghost predicate KeysInv(s: Bus) {
    && (forall k :: k in s.groups ==> s.groups[k] < |s.subs| && s.subs[s.groups[k]].key == k)
    && (forall d :: d in s.dead ==> d.sub < |s.subs| && s.subs[d.sub].key == d.key)
  }

  ghost predicate SubsInv(s: Bus) {
    forall i :: 0 <= i < |s.subs| ==> SubInv(s.subs[i], s.maxRetries)
  }

  ghost predicate DeadInv(s: Bus) {
    DeadIn(s.dead, s.subs)
  }

  /** The dead letters are those of the subscriptions' failed payloads. */
  ghost predicate DeadIn(dead: seq<DeadLetter>, subs: seq<Sub>) {
    forall i :: 0 <= i < |subs| ==> DeadOf(dead, i) == Undelivered(subs[i].settled)
  }

  /** While the bus runs, the consumer of a registered group is alive. */
  ghost predicate LiveInv(s: Bus) {
    s.running ==> forall i :: 0 <= i < |s.subs| && Registered(s, i) ==> !s.subs[i].at.Stopped? && !s.subs[i].cancelling
  }

  ghost predicate Inv(s: Bus) {
    KeysInv(s) && SubsInv(s) && DeadInv(s) && LiveInv(s) && s.inflight == CountInDelivery(s.subs)
  }

  lemma {:induction false} CountUpdate(subs: seq<Sub>, i: nat, sub: Sub)
    requires i < |subs|
    ensures CountInDelivery(subs[i := sub]) ==
            CountInDelivery(subs) + (if InDelivery(sub.at) then 1 else 0) - if InDelivery(subs[i].at) then 1 else 0
  {
    var k := |subs| - 1;
    if i < k {
      CountUpdate(subs[..k], i, sub);
      assert subs[i := sub][..k] == subs[..k][i := sub];
    } else {
      assert subs[i := sub][..k] == subs[..k];
    }
  }

  lemma {:induction false} CountSame(subs: seq<Sub>, other: seq<Sub>)
    requires |subs| == |other| && forall i :: 0 <= i < |subs| ==> subs[i].at == other[i].at
    ensures CountInDelivery(subs) == CountInDelivery(other)
  {
    if subs != [] {
      CountSame(subs[..|subs| - 1], other[..|subs| - 1]);
    }
  }

  lemma {:induction false} CallsForAppend(settled: seq<Settlement>, z: Settlement)
    ensures CallsFor(settled + [z]) ==
            CallsFor(settled) + Repeat(z.payload, z.failures) + if z.delivered then [Call(z.payload, true)] else []
    ensures Undelivered(settled + [z]) == Undelivered(settled) + if z.delivered then [] else [z.payload]
    ensures Payloads(settled + [z]) == Payloads(settled) + [z.payload]
  {
    assert (settled + [z])[..|settled|] == settled;
  }

  /** Settling the payload in hand and going back to the head of the loop keeps a subscription in order. */
  lemma {:induction false} SettleKeepsSub(sub: Sub, p: Payload, failures: nat, delivered: bool, running: bool,
                                          maxRetries: int)
    requires sub.sent == Payloads(sub.settled) + [p] + sub.queue
    requires sub.calls == CallsFor(sub.settled) + Repeat(p, failures) + if delivered then [Call(p, true)] else []
    requires Proper(Settlement(p, failures, delivered), maxRetries) && !sub.cancelling
    requires forall z :: z in sub.settled ==> Proper(z, maxRetries)
    ensures SubInv(Loop(Settle(sub, p, failures, delivered), running), maxRetries)
    ensures Undelivered(Settle(sub, p, failures, delivered).settled) ==
            Undelivered(sub.settled) + if delivered then [] else [p]
  {
    CallsForAppend(sub.settled, Settlement(p, failures, delivered));
    var after := Loop(Settle(sub, p, failures, delivered), running);
    assert after.sent == Payloads(after.settled) + sub.queue;
    assert after.calls == CallsFor(after.settled);
  }

  ghost predicate Accounted(sub: Sub, p: Progress) {
    && p.sub.key == sub.key
    && p.sub.sent == sub.sent
    && p.inflight == (if InDelivery(p.sub.at) then 1 else 0) - (if InDelivery(sub.at) then 1 else 0)
    && (p.dead ==> p.sub.settled != [])
    && Undelivered(p.sub.settled) == Undelivered(sub.settled)
         + (if p.dead then [p.sub.settled[|p.sub.settled| - 1].payload] else [])
  }

  lemma {:induction false} DequeueKeepsSub(sub: Sub, running: bool, maxRetries: int, ok: bool)
    requires SubInv(sub, maxRetries) && Enabled(sub) && !sub.cancelling && sub.at.Waiting?
    ensures SubInv(Resume(sub, running, maxRetries, ok).sub, maxRetries)
    ensures Accounted(sub, Resume(sub, running, maxRetries, ok))
  {
    var p, rest := sub.queue[0], sub.queue[1..];
    assert sub.queue == [p] + rest;
    if maxRetries < 1 {
      SettleKeepsSub(sub.(queue := rest), p, 0, false, running, maxRetries);
    } else {
      assert Repeat(p, 0) == [];
    }
  }

  lemma {:induction false} CallKeepsSub(sub: Sub, running: bool, maxRetries: int, ok: bool)
    requires SubInv(sub, maxRetries) && !sub.cancelling && sub.at.Calling?
    ensures SubInv(Resume(sub, running, maxRetries, ok).sub, maxRetries)
    ensures Accounted(sub, Resume(sub, running, maxRetries, ok))
  {
    var p, n := sub.at.payload, sub.at.attempt;
    var called := sub.(calls := sub.calls + [Call(p, ok)]);
    assert Repeat(p, n) == Repeat(p, n - 1) + [Call(p, false)];
    if ok {
      SettleKeepsSub(called, p, n - 1, true, running, maxRetries);
    } else {
      assert called.calls == CallsFor(sub.settled) + Repeat(p, n);
    }
  }

  lemma {:induction false} PauseKeepsSub(sub: Sub, running: bool, maxRetries: int, ok: bool)
    requires SubInv(sub, maxRetries) && !sub.cancelling && sub.at.Pausing?
    ensures SubInv(Resume(sub, running, maxRetries, ok).sub, maxRetries)
    ensures Accounted(sub, Resume(sub, running, maxRetries, ok))
  {
    if sub.at.attempt >= maxRetries {
      SettleKeepsSub(sub, sub.at.payload, sub.at.attempt, false, running, maxRetries);
    }
  }

  /** A resumption keeps its subscription in order and accounts for `inflight` and the dead letters. */
  lemma {:induction false} ResumeKeepsSub(sub: Sub, running: bool, maxRetries: int, ok: bool)
    requires SubInv(sub, maxRetries) && Enabled(sub)
    ensures SubInv(Resume(sub, running, maxRetries, ok).sub, maxRetries)
    ensures Accounted(sub, Resume(sub, running, maxRetries, ok))
  {
    if !sub.cancelling {
      match sub.at
      case NotStarted =>
      case Waiting => DequeueKeepsSub(sub, running, maxRetries, ok);
      case Calling(_, _) => CallKeepsSub(sub, running, maxRetries, ok);
      case Pausing(_, _) => PauseKeepsSub(sub, running, maxRetries, ok);
    }
  }
}
