/** What holds of the event bus in every run. */
module EventBusTheorems {
  import opened Common
  import opened EventBuses

  lemma {:induction false} DeadAppend(dead: seq<DeadLetter>, d: DeadLetter, i: nat)
    ensures DeadOf(dead + [d], i) == DeadOf(dead, i) + if d.sub == i then [d.payload] else []
  {
    assert (dead + [d])[..|dead|] == dead;
  }

  lemma {:induction false} NoDeadYet(dead: seq<DeadLetter>, i: nat)
    requires forall d :: d in dead ==> d.sub != i
    ensures DeadOf(dead, i) == []
  {
    if dead != [] {
      NoDeadYet(dead[..|dead| - 1], i);
    }
  }

  lemma {:induction false} PutKeepsSub(sub: Sub, payload: Payload, maxRetries: int)
    requires SubInv(sub, maxRetries)
    ensures SubInv(Put(sub, payload), maxRetries)
  {
    Regroup(Payloads(sub.settled) + InHand(sub.at), sub.queue, [payload]);
  }

  lemma {:induction false} ResumeFacts(s: Bus, i: nat, ok: bool)
    requires SubsInv(s) && i < |s.subs| && Enabled(s.subs[i])
    ensures SubInv(Resume(s.subs[i], s.running, s.maxRetries, ok).sub, s.maxRetries)
    ensures Accounted(s.subs[i], Resume(s.subs[i], s.running, s.maxRetries, ok))
  {
    ResumeKeepsSub(s.subs[i], s.running, s.maxRetries, ok);
  }

  lemma {:induction false} PublishKeepsSubs(s: Bus, topic: Topic, payload: Payload)
    requires SubsInv(s)
    ensures SubsInv(Apply(s, Publish(topic, payload)))
  {
    forall i | 0 <= i < |s.subs|
      ensures SubInv(Put(s.subs[i], payload), s.maxRetries)
    {
      PutKeepsSub(s.subs[i], payload, s.maxRetries);
    }
  }

  lemma {:induction false} CancelKeepsSub(sub: Sub, maxRetries: int)
    requires SubInv(sub, maxRetries)
    ensures SubInv(Cancel(sub), maxRetries)
  {
  }

  lemma {:induction false} CallsKeepSubs(s: Bus, a: Action)
    requires SubsInv(s) && (a.Subscribe? || a.Unsubscribe? || a.Shutdown?)
    ensures SubsInv(Apply(s, a))
  {
    forall i | 0 <= i < |s.subs|
      ensures SubInv(Cancel(s.subs[i]), s.maxRetries)
    {
      CancelKeepsSub(s.subs[i], s.maxRetries);
    }
  }

  lemma {:induction false} ConsumeKeepsSubs(s: Bus, i: nat, ok: bool)
    requires SubsInv(s)
    ensures SubsInv(Apply(s, Consume(i, ok)))
  {
    if i < |s.subs| && Enabled(s.subs[i]) {
      ResumeFacts(s, i, ok);
    }
  }

  lemma {:induction false} KeepsSubs(s: Bus, a: Action)
    requires SubsInv(s)
    ensures SubsInv(Apply(s, a))
  {
    match a
    case Publish(topic, payload) => PublishKeepsSubs(s, topic, payload);
    case Consume(i, ok) => ConsumeKeepsSubs(s, i, ok);
    case Subscribe(_) => CallsKeepSubs(s, a);
    case Unsubscribe(_) => CallsKeepSubs(s, a);
    case Shutdown => CallsKeepSubs(s, a);
  }

  lemma {:induction false} ResumeKeepsKey(sub: Sub, running: bool, maxRetries: int, ok: bool)
    requires Enabled(sub)
    ensures
      var p := Resume(sub, running, maxRetries, ok);
      && p.sub.key == sub.key
      && (running && !sub.cancelling ==> !p.sub.at.Stopped? && !p.sub.cancelling)
  {
  }

  lemma {:induction false} ConsumeKeepsKeys(s: Bus, i: nat, ok: bool)
    requires KeysInv(s)
    ensures KeysInv(Apply(s, Consume(i, ok)))
  {
    if i < |s.subs| && Enabled(s.subs[i]) {
      ResumeKeepsKey(s.subs[i], s.running, s.maxRetries, ok);
    }
  }

  lemma {:induction false} KeepsKeys(s: Bus, a: Action)
    requires KeysInv(s)
    ensures KeysInv(Apply(s, a))
  {
    match a
    case Consume(i, ok) => ConsumeKeepsKeys(s, i, ok);
    case Publish(_, _) =>
    case Subscribe(_) =>
    case Unsubscribe(_) =>
    case Shutdown =>
  }

  lemma {:induction false} SubscribeKeepsDead(s: Bus, key: Key)
    requires KeysInv(s) && DeadInv(s)
    ensures DeadInv(Apply(s, Subscribe(key)))
  {
    NoDeadYet(s.dead, |s.subs|);
  }

  /** The dead letters after a resumption of subscription `i` that made progress `p`. */
  function DeadAfter(dead: seq<DeadLetter>, i: nat, key: Key, p: Progress): seq<DeadLetter>
    requires p.dead ==> p.sub.settled != []
  {
    if p.dead then dead + [DeadLetter(i, key, p.sub.settled[|p.sub.settled| - 1].payload)] else dead
  }

  lemma {:induction false} ProgressKeepsDeadAt(dead: seq<DeadLetter>, subs: seq<Sub>, i: nat, p: Progress, j: nat)
    requires i < |subs| && j < |subs| && DeadOf(dead, j) == Undelivered(subs[j].settled) && Accounted(subs[i], p)
    ensures DeadOf(DeadAfter(dead, i, subs[i].key, p), j) == Undelivered(subs[i := p.sub][j].settled)
  {
    if p.dead {
      DeadAppend(dead, DeadLetter(i, subs[i].key, p.sub.settled[|p.sub.settled| - 1].payload), j);
    }
  }

  lemma {:induction false} ProgressKeepsDead(dead: seq<DeadLetter>, subs: seq<Sub>, i: nat, p: Progress)
    requires i < |subs| && DeadIn(dead, subs) && Accounted(subs[i], p)
    ensures DeadIn(DeadAfter(dead, i, subs[i].key, p), subs[i := p.sub])
  {
    forall j: nat | j < |subs|
      ensures DeadOf(DeadAfter(dead, i, subs[i].key, p), j) == Undelivered(subs[i := p.sub][j].settled)
    {
      ProgressKeepsDeadAt(dead, subs, i, p, j);
    }
  }

  lemma {:induction false} ConsumeKeepsDead(s: Bus, i: nat, ok: bool)
    requires DeadInv(s) && i < |s.subs| && Enabled(s.subs[i])
    requires Accounted(s.subs[i], Resume(s.subs[i], s.running, s.maxRetries, ok))
    ensures DeadInv(Apply(s, Consume(i, ok)))
  {
    ProgressKeepsDead(s.dead, s.subs, i, Resume(s.subs[i], s.running, s.maxRetries, ok));
  }

  lemma {:induction false} KeepsDead(s: Bus, a: Action)
    requires KeysInv(s) && DeadInv(s)
    requires a.Consume? && a.sub < |s.subs| && Enabled(s.subs[a.sub]) ==>
      Accounted(s.subs[a.sub], Resume(s.subs[a.sub], s.running, s.maxRetries, a.ok))
    ensures DeadInv(Apply(s, a))
  {
    match a
    case Publish(_, _) =>
    case Subscribe(key) => SubscribeKeepsDead(s, key);
    case Unsubscribe(_) =>
    case Shutdown =>
    case Consume(i, ok) =>
      if i < |s.subs| && Enabled(s.subs[i]) {
        ConsumeKeepsDead(s, i, ok);
      }
  }

  lemma {:induction false} KeepsLive(s: Bus, a: Action)
    requires KeysInv(s) && LiveInv(s)
    ensures LiveInv(Apply(s, a))
  {
    if a.Consume? && a.sub < |s.subs| && Enabled(s.subs[a.sub]) {
      ResumeKeepsKey(s.subs[a.sub], s.running, s.maxRetries, a.ok);
    }
  }

  lemma {:induction false} SubscribeKeepsCount(subs: seq<Sub>, key: Key)
    ensures CountInDelivery(subs + [Sub(key, [], NotStarted, false, [], [], [])]) == CountInDelivery(subs)
  {
    assert (subs + [Sub(key, [], NotStarted, false, [], [], [])])[..|subs|] == subs;
  }

  lemma {:induction false} CancelKeepsCount(subs: seq<Sub>, i: nat)
    requires i < |subs|
    ensures CountInDelivery(subs[i := Cancel(subs[i])]) == CountInDelivery(subs)
  {
    CountUpdate(subs, i, Cancel(subs[i]));
  }

  lemma {:induction false} ConsumeKeepsCount(s: Bus, i: nat, ok: bool)
    requires SubsInv(s) && s.inflight == CountInDelivery(s.subs)
    ensures Apply(s, Consume(i, ok)).inflight == CountInDelivery(Apply(s, Consume(i, ok)).subs)
  {
    if i < |s.subs| && Enabled(s.subs[i]) {
      ResumeFacts(s, i, ok);
      CountUpdate(s.subs, i, Resume(s.subs[i], s.running, s.maxRetries, ok).sub);
    }
  }

  lemma {:induction false} KeepsCount(s: Bus, a: Action)
    requires SubsInv(s) && s.inflight == CountInDelivery(s.subs)
    ensures Apply(s, a).inflight == CountInDelivery(Apply(s, a).subs)
  {
    match a
    case Publish(_, _) => CountSame(s.subs, Apply(s, a).subs);
    case Subscribe(key) => SubscribeKeepsCount(s.subs, key);
    case Unsubscribe(key) =>
      if key in s.groups && s.groups[key] < |s.subs| {
        CancelKeepsCount(s.subs, s.groups[key]);
      }
    case Shutdown => CountSame(s.subs, Apply(s, a).subs);
    case Consume(i, ok) => ConsumeKeepsCount(s, i, ok);
  }

  lemma {:induction false} ApplyKeepsInv(s: Bus, a: Action)
    requires Inv(s)
    ensures Inv(Apply(s, a)) && Apply(s, a).maxRetries == s.maxRetries
  {
    KeepsSubs(s, a);
    KeepsKeys(s, a);
    if a.Consume? && a.sub < |s.subs| && Enabled(s.subs[a.sub]) {
      ResumeFacts(s, a.sub, a.ok);
    }
    KeepsDead(s, a);
    KeepsLive(s, a);
    KeepsCount(s, a);
  }

  /** Safety over whole runs, in any interleaving of calls and resumptions and with any handler outcomes. */
  lemma {:induction false} RunKeepsInv(maxRetries: int, trace: seq<Action>)
    ensures Inv(Run(NewBus(maxRetries), trace))
    ensures Run(NewBus(maxRetries), trace).maxRetries == maxRetries
  {
    if trace != [] {
      RunKeepsInv(maxRetries, trace[..|trace| - 1]);
      ApplyKeepsInv(Run(NewBus(maxRetries), trace[..|trace| - 1]), trace[|trace| - 1]);
    }
  }

  // ------------------------------------------------------------------ conservation and order

  /** What the trace publishes to subscription `i` while it is registered. */
  function SentTo(maxRetries: int, trace: seq<Action>, i: nat): seq<Payload> {
    if trace == [] then []
    else
      var s, a := Run(NewBus(maxRetries), trace[..|trace| - 1]), trace[|trace| - 1];
      SentTo(maxRetries, trace[..|trace| - 1], i)
        + if a.Publish? && Registered(s, i) && s.subs[i].key.0 == a.topic then [a.payload] else []
  }

  lemma {:induction false} SentIsPublished(maxRetries: int, trace: seq<Action>, i: nat)
    ensures
      var s := Run(NewBus(maxRetries), trace);
      if i < |s.subs| then s.subs[i].sent == SentTo(maxRetries, trace, i) else SentTo(maxRetries, trace, i) == []
  {
    if trace != [] {
      var before, a := trace[..|trace| - 1], trace[|trace| - 1];
      SentIsPublished(maxRetries, before, i);
      RunKeepsInv(maxRetries, before);
      var s := Run(NewBus(maxRetries), before);
      ApplySends(s, a, i);
    }
  }

  lemma {:induction false} ApplySends(s: Bus, a: Action, i: nat)
    requires SubsInv(s)
    ensures |s.subs| <= |Apply(s, a).subs|
    ensures i < |s.subs| ==>
      (Apply(s, a).subs[i].sent ==
       s.subs[i].sent + if a.Publish? && Registered(s, i) && s.subs[i].key.0 == a.topic then [a.payload] else [])
    ensures |s.subs| <= i < |Apply(s, a).subs| ==> Apply(s, a).subs[i].sent == []
  {
    if a.Consume? && a.sub < |s.subs| && Enabled(s.subs[a.sub]) {
      ResumeFacts(s, a.sub, a.ok);
    }
  }

  function Delivered(settled: seq<Settlement>): nat {
    if settled == [] then 0
    else Delivered(settled[..|settled| - 1]) + if settled[|settled| - 1].delivered then 1 else 0
  }

  lemma {:induction false} DeliveredOrUndelivered(settled: seq<Settlement>)
    ensures |settled| == Delivered(settled) + |Undelivered(settled)|
  {
    if settled != [] {
      DeliveredOrUndelivered(settled[..|settled| - 1]);
    }
  }

  /**
   The history of one subscription in any run: what was published to it is what it
   settled, then what it has in hand, then what is queued, each in publish order,
   and in numbers delivered + dead-lettered + in hand + queued.
   */
  lemma {:induction false} Conservation(maxRetries: int, trace: seq<Action>, i: nat)
    requires i < |Run(NewBus(maxRetries), trace).subs|
    ensures
      var s := Run(NewBus(maxRetries), trace);
      var sub := s.subs[i];
      && SentTo(maxRetries, trace, i) == Payloads(sub.settled) + InHand(sub.at) + sub.queue
      && DeadOf(s.dead, i) == Undelivered(sub.settled)
      && |SentTo(maxRetries, trace, i)| == Delivered(sub.settled) + |DeadOf(s.dead, i)| + |InHand(sub.at)| + |sub.queue|
  {
    RunKeepsInv(maxRetries, trace);
    SentIsPublished(maxRetries, trace, i);
    var s := Run(NewBus(maxRetries), trace);
    assert SubInv(s.subs[i], maxRetries);
    DeliveredOrUndelivered(s.subs[i].settled);
  }

  /**
   What the handler of a group has been called with in any run, whether its consumer
   is alive or was cancelled: for each settled payload in turn its failures and then, if
   it was delivered, one success; then the failures so far of the payload in hand, or of
   the one that was dropped.  No payload gets more than the allowed calls.  The dead
   letters are the settled payloads all of whose allowed calls failed, so a payload that
   was dropped is not among them, however often it failed.
   */
  lemma {:induction false} HandlerCalls(maxRetries: int, trace: seq<Action>, i: nat)
    requires i < |Run(NewBus(maxRetries), trace).subs|
    ensures
      var sub := Run(NewBus(maxRetries), trace).subs[i];
      && CallsInOrder(sub, maxRetries)
      && DeadOf(Run(NewBus(maxRetries), trace).dead, i) == Undelivered(sub.settled)
      && (forall z :: z in sub.settled ==>
          && (z.delivered ==> z.failures + 1 <= Allowed(maxRetries))
          && (!z.delivered ==> z.failures == Allowed(maxRetries)))
      && (InDelivery(sub.at) ==> 1 <= sub.at.attempt <= Allowed(maxRetries))
  {
    RunKeepsInv(maxRetries, trace);
    assert SubInv(Run(NewBus(maxRetries), trace).subs[i], maxRetries);
  }

  lemma {:induction false} NoneInDelivery(subs: seq<Sub>, i: nat)
    requires CountInDelivery(subs) == 0 && i < |subs|
    ensures !InDelivery(subs[i].at)
  {
    if i < |subs| - 1 {
      NoneInDelivery(subs[..|subs| - 1], i);
    }
  }

  /** When a running bus is idle, everything sent to a registered group was delivered or dead-lettered. */
  lemma {:induction false} IdleMeansSettled(maxRetries: int, trace: seq<Action>, i: nat)
    requires
      var s := Run(NewBus(maxRetries), trace);
      s.running && Idle(s) && Registered(s, i)
    ensures
      var s := Run(NewBus(maxRetries), trace);
      && SentTo(maxRetries, trace, i) == Payloads(s.subs[i].settled)
      && s.subs[i].calls == CallsFor(s.subs[i].settled)
      && |SentTo(maxRetries, trace, i)| == Delivered(s.subs[i].settled) + |DeadOf(s.dead, i)|
  {
    Conservation(maxRetries, trace, i);
    HandlerCalls(maxRetries, trace, i);
    RunKeepsInv(maxRetries, trace);
    NoneInDelivery(Run(NewBus(maxRetries), trace).subs, i);
  }

  // ------------------------------------------------------------------ isolation

  /** The trace without the steps and handler outcomes of every consumer but that of `i`. */
  function Hide(trace: seq<Action>, i: nat): seq<Action> {
    if trace == [] then []
    else
      var a := trace[|trace| - 1];
      Hide(trace[..|trace| - 1], i) + if a.Consume? && a.sub != i then [] else [a]
  }

  ghost predicate Alike(s: Bus, t: Bus, i: nat) {
    && s.groups == t.groups && s.running == t.running && s.maxRetries == t.maxRetries
    && |s.subs| == |t.subs|
    && (forall j :: 0 <= j < |s.subs| ==> s.subs[j].key == t.subs[j].key)
    && (i < |s.subs| ==> s.subs[i] == t.subs[i])
  }

  /** Another consumer's resumption changes its own subscription only. */
  lemma {:induction false} OtherConsumeAlike(s: Bus, t: Bus, j: nat, ok: bool, i: nat)
    requires Alike(s, t, i) && j != i
    ensures Alike(Apply(s, Consume(j, ok)), t, i)
  {
    if j < |s.subs| && Enabled(s.subs[j]) {
      ResumeKeepsKey(s.subs[j], s.running, s.maxRetries, ok);
    }
  }

  lemma {:induction false} OwnConsumeAlike(s: Bus, t: Bus, i: nat, ok: bool)
    requires Alike(s, t, i)
    ensures Alike(Apply(s, Consume(i, ok)), Apply(t, Consume(i, ok)), i)
  {
    if i < |s.subs| && Enabled(s.subs[i]) {
      ResumeKeepsKey(s.subs[i], s.running, s.maxRetries, ok);
    }
  }

  lemma {:induction false} ApplyAlike(s: Bus, t: Bus, a: Action, i: nat)
    requires Alike(s, t, i)
    ensures a.Consume? && a.sub != i ==> Alike(Apply(s, a), t, i)
    ensures !(a.Consume? && a.sub != i) ==> Alike(Apply(s, a), Apply(t, a), i)
  {
    match a
    case Consume(j, ok) =>
      if j == i {
        OwnConsumeAlike(s, t, i, ok);
      } else {
        OtherConsumeAlike(s, t, j, ok, i);
      }
    case Publish(_, _) =>
    case Subscribe(_) =>
    case Unsubscribe(_) =>
    case Shutdown =>
  }

  lemma {:induction false} HidingIsInvisible(maxRetries: int, trace: seq<Action>, i: nat)
    ensures Alike(Run(NewBus(maxRetries), trace), Run(NewBus(maxRetries), Hide(trace, i)), i)
  {
    if trace != [] {
      var before, a := trace[..|trace| - 1], trace[|trace| - 1];
      HidingIsInvisible(maxRetries, before, i);
      var hidden := Hide(before, i);
      assert (hidden + [a])[..|hidden|] == hidden && hidden + [] == hidden;
      assert Hide(trace, i) == if a.Consume? && a.sub != i then hidden else hidden + [a];
      ApplyAlike(Run(NewBus(maxRetries), before), Run(NewBus(maxRetries), hidden), a, i);
    }
  }

  /**
   Non-interference: two runs with the same calls of the bus and the same steps of
   the consumer of `i` leave that subscription, its queue, its handler calls and
   its settlements the same, whatever the other consumers and handlers did.
   */
  lemma {:induction false} Isolation(maxRetries: int, one: seq<Action>, two: seq<Action>, i: nat)
    requires Hide(one, i) == Hide(two, i)
    requires i < |Run(NewBus(maxRetries), one).subs|
    ensures i < |Run(NewBus(maxRetries), two).subs|
    ensures Run(NewBus(maxRetries), one).subs[i] == Run(NewBus(maxRetries), two).subs[i]
  {
    HidingIsInvisible(maxRetries, one, i);
    HidingIsInvisible(maxRetries, two, i);
  }

  // ------------------------------------------------------------------ draining

  /** How many more resumptions a subscription can take without further calls of the bus. */
  function Effort(sub: Sub, maxRetries: int): nat {
    var m := Allowed(maxRetries);
    if sub.at.Stopped? then 0
    else
      (if sub.cancelling then 1 else 0) + |sub.queue| * (2 * m + 1) +
      match sub.at
      case Calling(_, n) => (if n <= m then 2 * (m - n) + 2 else 2)
      case Pausing(_, n) => (if n <= m then 2 * (m - n) + 1 else 1)
      case NotStarted => 1
      case _ => 0
  }

  function TotalEffort(subs: seq<Sub>, maxRetries: int): nat {
    if subs == [] then 0
    else TotalEffort(subs[..|subs| - 1], maxRetries) + Effort(subs[|subs| - 1], maxRetries)
  }

  lemma {:induction false} EffortUpdate(subs: seq<Sub>, i: nat, sub: Sub, maxRetries: int)
    requires i < |subs|
    ensures TotalEffort(subs[i := sub], maxRetries) ==
            TotalEffort(subs, maxRetries) + Effort(sub, maxRetries) - Effort(subs[i], maxRetries)
  {
    var k := |subs| - 1;
    if i < k {
      EffortUpdate(subs[..k], i, sub, maxRetries);
      assert subs[i := sub][..k] == subs[..k][i := sub];
    } else {
      assert subs[i := sub][..k] == subs[..k];
    }
  }

  lemma {:induction false} ResumeSpends(sub: Sub, running: bool, maxRetries: int, ok: bool)
    requires SubInv(sub, maxRetries) && Enabled(sub)
    ensures Effort(Resume(sub, running, maxRetries, ok).sub, maxRetries) < Effort(sub, maxRetries)
  {
    if sub.at.Waiting? && !sub.cancelling {
      var m := Allowed(maxRetries);
      assert |sub.queue| * (2 * m + 1) == (|sub.queue| - 1) * (2 * m + 1) + (2 * m + 1);
    }
  }

  ghost predicate Quiet(s: Bus) {
    forall i :: 0 <= i < |s.subs| ==> !Enabled(s.subs[i])
  }

  /** Each effective resumption brings a bus that is left alone closer to rest. */
  lemma {:induction false} ConsumeSpends(s: Bus, i: nat, ok: bool)
    requires Inv(s) && i < |s.subs| && Enabled(s.subs[i])
    ensures TotalEffort(Apply(s, Consume(i, ok)).subs, s.maxRetries) < TotalEffort(s.subs, s.maxRetries)
  {
    assert SubInv(s.subs[i], s.maxRetries);
    ResumeSpends(s.subs[i], s.running, s.maxRetries, ok);
    EffortUpdate(s.subs, i, Resume(s.subs[i], s.running, s.maxRetries, ok).sub, s.maxRetries);
  }

  /** A running bus at rest is idle. */
  lemma {:induction false} QuietIsIdle(s: Bus)
    requires Inv(s) && s.running
    ensures Quiet(s) ==> Idle(s)
  {
    if Quiet(s) {
      QuietHasNoDelivery(s.subs);
    }
  }

  lemma {:induction false} QuietHasNoDelivery(subs: seq<Sub>)
    requires forall i :: 0 <= i < |subs| ==> !Enabled(subs[i])
    ensures CountInDelivery(subs) == 0
  {
    if subs != [] {
      QuietHasNoDelivery(subs[..|subs| - 1]);
    }
  }

  /** Every action of `steps` is a resumption that does something. */
  ghost predicate Effective(s: Bus, steps: seq<Action>) {
    forall k :: 0 <= k < |steps| ==>
      steps[k].Consume? && var t := Run(s, steps[..k]); steps[k].sub < |t.subs| && Enabled(t.subs[steps[k].sub])
  }

  /**
   A bus that is left alone comes to rest: under any scheduling of its consumers and
   any handler outcomes, the resumptions that do something are limited in number.
   */
  lemma {:induction false} Drains(s: Bus, steps: seq<Action>)
    requires Inv(s) && Effective(s, steps)
    ensures Inv(Run(s, steps)) && Run(s, steps).maxRetries == s.maxRetries
    ensures |steps| + TotalEffort(Run(s, steps).subs, s.maxRetries) <= TotalEffort(s.subs, s.maxRetries)
  {
    if steps != [] {
      var k := |steps| - 1;
      var before := steps[..k];
      forall j | 0 <= j < k
        ensures before[..j] == steps[..j]
      {
      }
      Drains(s, before);
      var t, a := Run(s, before), steps[k];
      assert a.Consume? && a.sub < |t.subs| && Enabled(t.subs[a.sub]);
      ConsumeSpends(t, a.sub, a.ok);
      ApplyKeepsInv(t, a);
    }
  }
}
