/**
 Across components: what the monitor's handlers were called with, once the bus is
 idle, against the events the task manager published and the report of the king.
 */
module ProgressLedger {
  import opened Common
  import opened EventBuses
  import opened EventBusCalls
  import opened EventBusTheorems
  import T = TaskRuns
  import L = TaskLedger
  import K = King
  import A = Aggregators
  import M = Monitors

  /** The payloads published on a topic, in order. */
  function PublishedOn(trace: seq<Action>, topic: Topic): seq<Payload> {
    if trace == [] then []
    else
      var a := trace[|trace| - 1];
      PublishedOn(trace[..|trace| - 1], topic) + if a.Publish? && a.topic == topic then [a.payload] else []
  }

  /** The bus stays up and nobody unsubscribes `key`. */
  ghost predicate KeepsSubscription(trace: seq<Action>, key: Key) {
    forall a :: a in trace ==> a != Unsubscribe(key) && a != Shutdown
  }

  lemma {:induction false} RunKeepsKeys(maxRetries: int, trace: seq<Action>)
    ensures KeysInv(Run(NewBus(maxRetries), trace))
  {
    RunKeepsInv(maxRetries, trace);
  }

  /** `i` is the live subscription under `key`, and what it was sent is `sent`. */
  ghost predicate Subscribed(maxRetries: int, trace: seq<Action>, i: nat, key: Key, sent: seq<Payload>) {
    var s := Run(NewBus(maxRetries), trace);
    Registered(s, i) && s.subs[i].key == key && SentTo(maxRetries, trace, i) == sent
  }

  lemma {:induction false} SubscribeStarts(maxRetries: int, before: seq<Action>, key: Key)
    requires key !in Run(NewBus(maxRetries), before).groups
    ensures Subscribed(maxRetries, before + [Subscribe(key)], |Run(NewBus(maxRetries), before).subs|, key, [])
  {
    assert (before + [Subscribe(key)])[..|before|] == before;
    SentIsPublished(maxRetries, before, |Run(NewBus(maxRetries), before).subs|);
  }

  lemma {:induction false} ActionSends(maxRetries: int, trace: seq<Action>, i: nat, key: Key, sent: seq<Payload>,
                                       a: Action)
    requires Subscribed(maxRetries, trace, i, key, sent) && a != Unsubscribe(key)
    ensures Subscribed(maxRetries, trace + [a], i, key,
                       sent + if a.Publish? && a.topic == key.0 then [a.payload] else [])
  {
    assert (trace + [a])[..|trace|] == trace;
    RunKeepsKeys(maxRetries, trace);
    StaysRegistered(Run(NewBus(maxRetries), trace), a, i, key);
  }

  lemma {:induction false} SubscribedAlong(maxRetries: int, start: seq<Action>, i: nat, key: Key, rest: seq<Action>)
    requires Subscribed(maxRetries, start, i, key, []) && KeepsSubscription(rest, key)
    ensures Subscribed(maxRetries, start + rest, i, key, PublishedOn(rest, key.0))
  {
    if rest == [] {
      assert start + rest == start;
    } else {
      var k := |rest| - 1;
      var before, a := rest[..k], rest[k];
      assert rest == before + [a];
      assert a in rest && forall b :: b in before ==> b in rest;
      SubscribedAlong(maxRetries, start, i, key, before);
      ActionSends(maxRetries, start + before, i, key, PublishedOn(before, key.0), a);
      Regroup(start, before, [a]);
    }
  }

  /** A subscription that is made and kept is sent everything published on its topic since. */
  lemma {:induction false} SubscriberSeesTopic(maxRetries: int, before: seq<Action>, key: Key, rest: seq<Action>)
    requires key !in Run(NewBus(maxRetries), before).groups && KeepsSubscription(rest, key)
    ensures Subscribed(maxRetries, before + [Subscribe(key)] + rest, |Run(NewBus(maxRetries), before).subs|, key,
                       PublishedOn(rest, key.0))
  {
    SubscribeStarts(maxRetries, before, key);
    SubscribedAlong(maxRetries, before + [Subscribe(key)], |Run(NewBus(maxRetries), before).subs|, key, rest);
  }

  lemma {:induction false} StaysRegistered(s: Bus, a: Action, i: nat, key: Key)
    requires KeysInv(s) && Registered(s, i) && s.subs[i].key == key && a != Unsubscribe(key)
    ensures Registered(Apply(s, a), i) && Apply(s, a).subs[i].key == key
  {
    if a.Consume? && a.sub < |s.subs| && Enabled(s.subs[a.sub]) {
      ResumeKeepsKey(s.subs[a.sub], s.running, s.maxRetries, a.ok);
    }
  }

  /** A handler that never fails is called once for each payload it settles. */
  lemma {:induction false} OneCallEach(settled: seq<Settlement>, maxRetries: int)
    requires maxRetries >= 1 && forall z :: z in settled ==> Proper(z, maxRetries)
    requires forall c :: c in CallsFor(settled) ==> c.ok
    ensures |CallsFor(settled)| == |settled| && Undelivered(settled) == []
  {
    if settled != [] {
      var k := |settled| - 1;
      var z := settled[k];
      var earlier, failed := CallsFor(settled[..k]), Repeat(z.payload, z.failures);
      var last := if z.delivered then [Call(z.payload, true)] else [];
      assert CallsFor(settled) == earlier + failed + last;
      AllOkParts(earlier, failed, last);
      OneCallEach(settled[..k], maxRetries);
      RepeatFails(z.payload, z.failures);
      assert Proper(z, maxRetries) && z.failures == 0 && z.delivered;
    }
  }

  lemma {:induction false} AllOkParts(a: seq<Call>, b: seq<Call>, c: seq<Call>)
    requires forall x :: x in a + b + c ==> x.ok
    ensures (forall x :: x in a ==> x.ok) && (forall x :: x in b ==> x.ok)
  {
    forall x | x in a || x in b
      ensures x.ok
    {
      assert x in a + b + c;
    }
  }

  lemma {:induction false} RepeatFails(p: Payload, n: nat)
    ensures n > 0 ==> Call(p, false) in Repeat(p, n)
  {
  }

  /**
   After a drain that ended idle, the number of calls of a handler that never fails
   is the number of payloads published on its topic since it subscribed.
   */
  lemma {:induction false} IdleHandlerCalls(maxRetries: int, before: seq<Action>, key: Key, rest: seq<Action>)
    requires maxRetries >= 1
    requires key !in Run(NewBus(maxRetries), before).groups && KeepsSubscription(rest, key)
    requires
      var s := Run(NewBus(maxRetries), before + [Subscribe(key)] + rest);
      s.running && Idle(s)
    requires
      var i := |Run(NewBus(maxRetries), before).subs|;
      var s := Run(NewBus(maxRetries), before + [Subscribe(key)] + rest);
      i < |s.subs| ==> forall c :: c in s.subs[i].calls ==> c.ok
    ensures
      var i := |Run(NewBus(maxRetries), before).subs|;
      var s := Run(NewBus(maxRetries), before + [Subscribe(key)] + rest);
      && i < |s.subs|
      && |s.subs[i].calls| == |PublishedOn(rest, key.0)|
      && DeadOf(s.dead, i) == []
  {
    var i := |Run(NewBus(maxRetries), before).subs|;
    var trace := before + [Subscribe(key)] + rest;
    SubscriberSeesTopic(maxRetries, before, key, rest);
    IdleMeansSettled(maxRetries, trace, i);
    Conservation(maxRetries, trace, i);
    RunKeepsInv(maxRetries, trace);
    var sub := Run(NewBus(maxRetries), trace).subs[i];
    assert SubInv(sub, maxRetries);
    OneCallEach(sub.settled, maxRetries);
  }

  // ------------------------------------------------------------------ one request on the bus

  function TopicName(topic: T.Topic): Topic {
    match topic
    case TaskAssigned => "task.assigned"
    case TaskCompleted => "task.completed"
    case TaskDeadLetter => "task.dead_letter"
  }

  /** The task manager's events as calls of the bus, in order. */
  function Publications(log: seq<T.Event>): seq<Action> {
    if log == [] then []
    else
      var e := log[|log| - 1];
      Publications(log[..|log| - 1]) + [Publish(TopicName(e.topic), e.id)]
  }

  predicate OnTaskTopic(a: Action) {
    a.Publish? && a.topic in {TopicName(T.TaskAssigned), TopicName(T.TaskCompleted), TopicName(T.TaskDeadLetter)}
  }

  /** What a trace publishes on the three topics. */
  function TaskPublishes(trace: seq<Action>): seq<Action> {
    if trace == [] then []
    else
      var a := trace[|trace| - 1];
      TaskPublishes(trace[..|trace| - 1]) + if OnTaskTopic(a) then [a] else []
  }

  /** The tasks a log has events about on a topic, in order. */
  function IdsOn(log: seq<T.Event>, topic: T.Topic): seq<Payload> {
    if log == [] then []
    else
      var e := log[|log| - 1];
      IdsOn(log[..|log| - 1], topic) + if e.topic == topic then [e.id] else []
  }

  lemma {:induction false} IdsOnCounts(log: seq<T.Event>, topic: T.Topic)
    ensures |IdsOn(log, topic)| == L.CountTopic(log, topic)
  {
    if log != [] {
      IdsOnCounts(log[..|log| - 1], topic);
    }
  }

  lemma {:induction false} PublishedOnAppend(trace: seq<Action>, a: Action, topic: Topic)
    ensures PublishedOn(trace + [a], topic) ==
            PublishedOn(trace, topic) + if a.Publish? && a.topic == topic then [a.payload] else []
  {
    assert (trace + [a])[..|trace|] == trace;
  }

  lemma {:induction false} PublishedByTasks(trace: seq<Action>, topic: T.Topic)
    ensures PublishedOn(TaskPublishes(trace), TopicName(topic)) == PublishedOn(trace, TopicName(topic))
  {
    if trace != [] {
      var k := |trace| - 1;
      PublishedByTasks(trace[..k], topic);
      PublishedOnAppend(TaskPublishes(trace[..k]), trace[k], TopicName(topic));
      assert TaskPublishes(trace[..k]) + [] == TaskPublishes(trace[..k]);
      match topic
      case TaskAssigned =>
      case TaskCompleted =>
      case TaskDeadLetter =>
    }
  }

  lemma {:induction false} TopicNamesDiffer(a: T.Topic, b: T.Topic)
    ensures TopicName(a) == TopicName(b) <==> a == b
  {
    var x, y, z := TopicName(T.TaskAssigned), TopicName(T.TaskCompleted), TopicName(T.TaskDeadLetter);
    assert |x| == 13 && |y| == 14 && |z| == 16;
  }

  lemma {:induction false} LoggedIsPublished(log: seq<T.Event>, topic: T.Topic)
    ensures PublishedOn(Publications(log), TopicName(topic)) == IdsOn(log, topic)
  {
    if log != [] {
      var k := |log| - 1;
      LoggedIsPublished(log[..k], topic);
      TopicNamesDiffer(log[k].topic, topic);
      PublishedOnAppend(Publications(log[..k]), Publish(TopicName(log[k].topic), log[k].id), TopicName(topic));
    }
  }

  /** Whatever else happens on the bus, what is published on a topic is what the manager logged on it. */
  lemma {:induction false} PublishedIsLogged(trace: seq<Action>, log: seq<T.Event>, topic: T.Topic)
    requires TaskPublishes(trace) == Publications(log)
    ensures PublishedOn(trace, TopicName(topic)) == IdsOn(log, topic)
  {
    PublishedByTasks(trace, topic);
    LoggedIsPublished(log, topic);
  }

  /** The three topics are known on the bus by these names. */
  lemma {:induction false} PublishedUnderTheirNames(trace: seq<Action>, log: seq<T.Event>)
    requires TaskPublishes(trace) == Publications(log)
    ensures PublishedOn(trace, "task.assigned") == IdsOn(log, T.TaskAssigned)
    ensures PublishedOn(trace, "task.completed") == IdsOn(log, T.TaskCompleted)
    ensures PublishedOn(trace, "task.dead_letter") == IdsOn(log, T.TaskDeadLetter)
  {
    PublishedIsLogged(trace, log, T.TaskAssigned);
    PublishedIsLogged(trace, log, T.TaskCompleted);
    PublishedIsLogged(trace, log, T.TaskDeadLetter);
  }

  // ------------------------------------------------------------------ the monitor on the bus

  /** The keys of the three subscriptions, in the order they are made. */
  function WatchKeys(group: Group): seq<Key> {
    [(TopicName(T.TaskAssigned), group), (TopicName(T.TaskCompleted), group), (TopicName(T.TaskDeadLetter), group)]
  }

  function Subscribing(keys: seq<Key>): seq<Action> {
    seq(|keys|, i requires 0 <= i < |keys| => Subscribe(keys[i]))
  }

  /** The subscription of a topic when the first of the three is subscription `n`. */
  function SubOf(n: nat, topic: T.Topic): nat {
    match topic
    case TaskAssigned => n
    case TaskCompleted => n + 1
    case TaskDeadLetter => n + 2
  }

  /** The topic of the k-th of the three subscriptions. */
  function TopicAt(k: nat): T.Topic {
    if k == 0 then T.TaskAssigned else if k == 1 then T.TaskCompleted else T.TaskDeadLetter
  }

  lemma {:induction false} TopicAtSub(n: nat, i: nat, topic: T.Topic)
    ensures n <= i < n + 3 && TopicAt(i - n) == topic <==> i == SubOf(n, topic)
  {
  }

  /** The event whose handler runs in this action, when it is one of the monitor's. */
  function HeardIn(s: Bus, a: Action, n: nat): seq<(T.Topic, Payload)> {
    if a.Consume? && EndsCall(s, a, a.sub) && n <= a.sub < n + 3
    then [(TopicAt(a.sub - n), s.subs[a.sub].at.payload)] else []
  }

  /** The events the monitor's handlers are run on, one for each handler call. */
  function Heard(maxRetries: int, trace: seq<Action>, n: nat): seq<(T.Topic, Payload)> {
    if trace == [] then []
    else
      var earlier := trace[..|trace| - 1];
      Heard(maxRetries, earlier, n) + HeardIn(Run(NewBus(maxRetries), earlier), trace[|trace| - 1], n)
  }

  /** The number of handler calls of a subscription. */
  function CallCount(s: Bus, i: nat): nat {
    |CallsOf(s, i)|
  }

  lemma {:induction false} SeenAppend(events: seq<(T.Topic, Payload)>, more: seq<(T.Topic, Payload)>, topic: T.Topic)
    requires |more| <= 1
    ensures M.Seen(events + more, topic) == M.Seen(events, topic) + if more != [] && more[0].0 == topic then 1 else 0
  {
    if more == [] {
      assert events + more == events;
    } else {
      assert (events + more)[..|events|] == events;
    }
  }

  /** The monitor hears of a topic as often as the handler of its subscription is called. */
  lemma {:induction false} HeardIsCalls(maxRetries: int, trace: seq<Action>, n: nat, topic: T.Topic)
    ensures M.Seen(Heard(maxRetries, trace, n), topic) == CallCount(Run(NewBus(maxRetries), trace), SubOf(n, topic))
  {
    if trace != [] {
      var earlier, a := trace[..|trace| - 1], trace[|trace| - 1];
      HeardIsCalls(maxRetries, earlier, n, topic);
      var s := Run(NewBus(maxRetries), earlier);
      ApplyCalls(s, a, SubOf(n, topic));
      SeenAppend(Heard(maxRetries, earlier, n), HeardIn(s, a, n), topic);
      HeardOnce(s, a, n, topic);
    }
  }

  lemma {:induction false} HeardOnce(s: Bus, a: Action, n: nat, topic: T.Topic)
    ensures (HeardIn(s, a, n) != [] && HeardIn(s, a, n)[0].0 == topic) <==>
            (a.Consume? && a.sub == SubOf(n, topic) && EndsCall(s, a, SubOf(n, topic)))
  {
    if a.Consume? {
      TopicAtSub(n, a.sub, topic);
    }
  }

  /** Runs the monitor's handler once for each event it hears. */
  method RunHandlers(m: M.ProgressMonitor<Payload>, heard: seq<(T.Topic, Payload)>)
    requires m.Valid()
    modifies m
    ensures m.Valid() && m.events == old(m.events) + heard
  {
    for k := 0 to |heard|
      invariant m.Valid() && m.events == old(m.events) + heard[..k]
    {
      m.OnEvent(heard[k].0, heard[k].1);
      assert heard[..k + 1] == heard[..k] + [heard[k]];
    }
    assert heard[..|heard|] == heard;
  }

  /**
   One request on the bus: the monitor's group is new, its three subscriptions are made
   after `before` and kept, its handlers do not fail, in `rest` the task topics carry
   exactly the manager's log, and at the end the bus runs and is idle.
   */
  ghost predicate Watched(maxRetries: int, before: seq<Action>, group: Group, rest: seq<Action>, log: seq<T.Event>) {
    var s := Run(NewBus(maxRetries), before + Subscribing(WatchKeys(group)) + rest);
    && maxRetries >= 1
    && (forall topic: T.Topic :: NewKey(maxRetries, before, (TopicName(topic), group)))
    && (forall topic: T.Topic :: KeepsSubscription(rest, (TopicName(topic), group)))
    && (forall topic: T.Topic :: NeverFails(s, SubOf(|Run(NewBus(maxRetries), before).subs|, topic)))
    && TaskPublishes(rest) == Publications(log)
    && s.running && Idle(s)
  }

  predicate NewKey(maxRetries: int, before: seq<Action>, key: Key) {
    key !in Run(NewBus(maxRetries), before).groups
  }

  ghost predicate NeverFails(s: Bus, i: nat) {
    i < |s.subs| ==> forall c :: c in s.subs[i].calls ==> c.ok
  }

  ghost predicate AllNew(maxRetries: int, before: seq<Action>, keys: seq<Key>) {
    Distinct(keys) && forall i :: 0 <= i < |keys| ==> NewKey(maxRetries, before, keys[i])
  }

  lemma {:induction false} SubscribeOne(maxRetries: int, before: seq<Action>, key: Key, other: Key)
    requires NewKey(maxRetries, before, key) && NewKey(maxRetries, before, other) && key != other
    ensures NewKey(maxRetries, before + [Subscribe(key)], other)
    ensures |Run(NewBus(maxRetries), before + [Subscribe(key)]).subs| == |Run(NewBus(maxRetries), before).subs| + 1
  {
    assert (before + [Subscribe(key)])[..|before|] == before;
  }

  lemma {:induction false} SubscribingLast(before: seq<Action>, keys: seq<Key>)
    requires keys != []
    ensures before + Subscribing(keys) == before + Subscribing(keys[..|keys| - 1]) + [Subscribe(keys[|keys| - 1])]
  {
    var k := |keys| - 1;
    assert Subscribing(keys) == Subscribing(keys[..k]) + [Subscribe(keys[k])];
  }

  /** Subscribing under some new keys takes these keys only, one subscription each. */
  lemma {:induction false} SubscribeNew(maxRetries: int, before: seq<Action>, keys: seq<Key>, other: Key)
    requires AllNew(maxRetries, before, keys) && NewKey(maxRetries, before, other) && other !in keys
    ensures NewKey(maxRetries, before + Subscribing(keys), other)
    ensures |Run(NewBus(maxRetries), before + Subscribing(keys)).subs| ==
            |Run(NewBus(maxRetries), before).subs| + |keys|
  {
    if keys == [] {
      assert before + Subscribing(keys) == before;
    } else {
      var k := |keys| - 1;
      assert AllNew(maxRetries, before, keys[..k]) && keys[k] !in keys[..k];
      SubscribeNew(maxRetries, before, keys[..k], other);
      SubscribeNew(maxRetries, before, keys[..k], keys[k]);
      SubscribingLast(before, keys);
      SubscribeOne(maxRetries, before + Subscribing(keys[..k]), keys[k], other);
    }
  }

  lemma {:induction false} PublishedAfterSubscribing(keys: seq<Key>, rest: seq<Action>, topic: Topic)
    ensures PublishedOn(Subscribing(keys) + rest, topic) == PublishedOn(rest, topic)
  {
    if rest == [] {
      NothingPublished(keys, topic);
      assert Subscribing(keys) + rest == Subscribing(keys);
    } else {
      var k := |rest| - 1;
      PublishedAfterSubscribing(keys, rest[..k], topic);
      assert rest == rest[..k] + [rest[k]];
      Regroup(Subscribing(keys), rest[..k], [rest[k]]);
      PublishedOnAppend(Subscribing(keys) + rest[..k], rest[k], topic);
    }
  }

  lemma {:induction false} SubscribingKeeps(keys: seq<Key>, rest: seq<Action>, key: Key)
    requires KeepsSubscription(rest, key)
    ensures KeepsSubscription(Subscribing(keys) + rest, key)
  {
  }

  lemma {:induction false} NothingPublished(keys: seq<Key>, topic: Topic)
    ensures PublishedOn(Subscribing(keys), topic) == []
  {
    if keys != [] {
      var k := |keys| - 1;
      assert Subscribing(keys)[..k] == Subscribing(keys[..k]);
      NothingPublished(keys[..k], topic);
    }
  }

  /** The calls of the handler subscribed after `start`, up to an idle end. */
  lemma {:induction false} CallsOfOne(maxRetries: int, start: seq<Action>, key: Key, more: seq<Action>,
                                      whole: seq<Action>, i: nat)
    requires maxRetries >= 1 && NewKey(maxRetries, start, key) && KeepsSubscription(more, key)
    requires whole == start + [Subscribe(key)] + more && i == |Run(NewBus(maxRetries), start).subs|
    requires
      var s := Run(NewBus(maxRetries), whole);
      s.running && Idle(s) && NeverFails(s, i)
    ensures CallCount(Run(NewBus(maxRetries), whole), i) == |PublishedOn(more, key.0)|
  {
    IdleHandlerCalls(maxRetries, start, key, more);
  }

  lemma {:induction false} AllNewBefore(maxRetries: int, before: seq<Action>, keys: seq<Key>, k: nat)
    requires AllNew(maxRetries, before, keys) && k < |keys|
    ensures AllNew(maxRetries, before, keys[..k]) && NewKey(maxRetries, before, keys[k]) && keys[k] !in keys[..k]
  {
  }

  /** How often the handler of one of several subscriptions made together is called, up to an idle end. */
  lemma {:induction false} WatchedCalls(maxRetries: int, before: seq<Action>, keys: seq<Key>, k: nat, rest: seq<Action>)
    requires maxRetries >= 1 && AllNew(maxRetries, before, keys) && k < |keys| && KeepsSubscription(rest, keys[k])
    requires
      var s := Run(NewBus(maxRetries), before + Subscribing(keys) + rest);
      s.running && Idle(s) && NeverFails(s, |Run(NewBus(maxRetries), before).subs| + k)
    ensures
      var s := Run(NewBus(maxRetries), before + Subscribing(keys) + rest);
      CallCount(s, |Run(NewBus(maxRetries), before).subs| + k) == |PublishedOn(rest, keys[k].0)|
  {
    AllNewBefore(maxRetries, before, keys, k);
    SubscribeNew(maxRetries, before, keys[..k], keys[k]);
    PublishedAfterSubscribing(keys[k + 1..], rest, keys[k].0);
    SubscribingKeeps(keys[k + 1..], rest, keys[k]);
    CutSubscribing(before, keys, k, rest);
    CallsOfOne(maxRetries, before + Subscribing(keys[..k]), keys[k], Subscribing(keys[k + 1..]) + rest,
               before + Subscribing(keys) + rest, |Run(NewBus(maxRetries), before).subs| + k);
  }

  lemma {:induction false} CutSubscribing(before: seq<Action>, keys: seq<Key>, k: nat, rest: seq<Action>)
    requires k < |keys|
    ensures before + Subscribing(keys) + rest ==
            before + Subscribing(keys[..k]) + [Subscribe(keys[k])] + (Subscribing(keys[k + 1..]) + rest)
  {
    assert Subscribing(keys) == Subscribing(keys[..k]) + [Subscribe(keys[k])] + Subscribing(keys[k + 1..]);
  }

  lemma {:induction false} WatchKeysAreNew(maxRetries: int, before: seq<Action>, group: Group)
    requires forall topic: T.Topic :: NewKey(maxRetries, before, (TopicName(topic), group))
    ensures AllNew(maxRetries, before, WatchKeys(group))
  {
    TopicNamesDiffer(T.TaskAssigned, T.TaskCompleted);
    TopicNamesDiffer(T.TaskAssigned, T.TaskDeadLetter);
    TopicNamesDiffer(T.TaskCompleted, T.TaskDeadLetter);
  }

  lemma {:induction false} KeyOf(group: Group, topic: T.Topic)
    ensures WatchKeys(group)[SubOf(0, topic)] == (TopicName(topic), group)
  {
  }

  /** The handler calls of the three subscriptions are the manager's events on their topics. */
  lemma {:induction false} CallsAreEvents(maxRetries: int, before: seq<Action>, group: Group, rest: seq<Action>,
                                          log: seq<T.Event>, topic: T.Topic)
    requires Watched(maxRetries, before, group, rest, log)
    ensures
      var s := Run(NewBus(maxRetries), before + Subscribing(WatchKeys(group)) + rest);
      CallCount(s, SubOf(|Run(NewBus(maxRetries), before).subs|, topic)) == L.CountTopic(log, topic)
  {
    WatchKeysAreNew(maxRetries, before, group);
    KeyOf(group, topic);
    var n := |Run(NewBus(maxRetries), before).subs|;
    var s := Run(NewBus(maxRetries), before + Subscribing(WatchKeys(group)) + rest);
    assert NeverFails(s, SubOf(n, topic)) && SubOf(n, topic) == n + SubOf(0, topic);
    WatchedCalls(maxRetries, before, WatchKeys(group), SubOf(0, topic), rest);
    PublishedIsLogged(rest, log, topic);
    IdsOnCounts(log, topic);
  }

  /** The monitor's tallies balance, and they are those of the report. */
  ghost predicate TalliesMatch(p: M.ProgressReport, r: A.Report, s: T.Sys) {
    && p.started == p.completed + p.deadLetter && p.eventsSeen == 2 * p.started
    && p.completed == r.completed
    && r.completed + r.failed == r.total
    && r.failed - p.deadLetter == |L.WithStatus(s.tasks, T.Pending)|
  }

  /** What the monitor heard of a request, once the bus is idle, against the report on it. */
  lemma {:induction false} TalliesMatchReport(maxRetries: int, before: seq<Action>, group: Group, rest: seq<Action>,
                                              r: A.Report, s: T.Sys)
    requires K.ReportBalances(r, s) && Watched(maxRetries, before, group, rest, s.log)
    ensures
      var n := |Run(NewBus(maxRetries), before).subs|;
      TalliesMatch(M.Tallies(Heard(maxRetries, before + Subscribing(WatchKeys(group)) + rest, n)), r, s)
  {
    var n, whole := |Run(NewBus(maxRetries), before).subs|, before + Subscribing(WatchKeys(group)) + rest;
    forall topic: T.Topic
      ensures M.Seen(Heard(maxRetries, whole, n), topic) == L.CountTopic(s.log, topic)
    {
      HeardIsCalls(maxRetries, whole, n, topic);
      CallsAreEvents(maxRetries, before, group, rest, s.log, topic);
    }
    M.SeenAll(Heard(maxRetries, whole, n));
  }

  /**
   The ledger across components, for one request whose drain ended idle: a monitor whose
   handlers were run on what it heard has a snapshot that balances and matches the report.
   */
  method SnapshotMatchesReport(m: M.ProgressMonitor<Payload>, heard: seq<(T.Topic, Payload)>, ghost maxRetries: int,
                               ghost before: seq<Action>, ghost group: Group, ghost rest: seq<Action>,
                               ghost r: A.Report, ghost s: T.Sys)
    returns (p: M.ProgressReport)
    requires m.Valid() && m.events == []
    requires heard ==
             Heard(maxRetries, before + Subscribing(WatchKeys(group)) + rest, |Run(NewBus(maxRetries), before).subs|)
    requires K.ReportBalances(r, s) && Watched(maxRetries, before, group, rest, s.log)
    modifies m
    ensures m.events == heard && TalliesMatch(p, r, s)
  {
    RunHandlers(m, heard);
    assert m.events == heard;
    p := m.Snapshot();
    TalliesMatchReport(maxRetries, before, group, rest, r, s);
  }
}
