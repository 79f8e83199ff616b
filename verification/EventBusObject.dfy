/** The event bus as an object; each method is one atomic stretch of the coroutine code. */
module EventBusObject {
  import opened Common
  import opened EventBuses

  class EventBus {
    var groups: map<Key, nat>
    var subs: seq<Sub>
    var deadLetter: seq<DeadLetter>
    var inflight: int
    var running: bool
    const maxRetries: int

    ghost function State(): Bus
      reads this
    {
      Bus(groups, subs, deadLetter, inflight, running, maxRetries)
    }

    constructor (maxRetries: int)
      ensures State() == NewBus(maxRetries)
    {
      groups, subs, deadLetter, inflight, running := map[], [], [], 0, true;
      this.maxRetries := maxRetries;
    }

    /** Puts the payload in the queue of every group registered for the topic, one after the other. */
    method PublishTo(topic: Topic, payload: Payload)
      requires KeysInv(State())
      modifies this
      ensures State() == Apply(old(State()), Publish(topic, payload))
    {
      var rest := set k | k in groups && k.0 == topic;
      while rest != {}
        invariant rest <= groups.Keys
        invariant State() == old(State()).(subs := subs) && |subs| == |old(subs)|
        invariant forall k :: k in rest ==> k.0 == topic
        invariant forall i :: 0 <= i < |subs| ==>
          subs[i] == if old(subs)[i].key.0 == topic && Registered(old(State()), i) && old(subs)[i].key !in rest
                     then Put(old(subs)[i], payload) else old(subs)[i]
      {
        var k :| k in rest;
        rest := rest - {k};
        var i := groups[k];
        subs := subs[i := subs[i].(queue := subs[i].queue + [payload], sent := subs[i].sent + [payload])];
      }
    }

    /** A second subscription of the same group to the same topic is refused. */
    method SubscribeAs(key: Key) returns (accepted: bool)
      modifies this
      ensures accepted == (key !in old(groups))
      ensures State() == Apply(old(State()), Subscribe(key))
    {
      if key in groups {
        return false;
      }
      groups := groups[key := |subs|];
      subs := subs + [Sub(key, [], NotStarted, false, [], [], [])];
      return true;
    }

    method UnsubscribeFrom(key: Key)
      requires KeysInv(State())
      modifies this
      ensures State() == Apply(old(State()), Unsubscribe(key))
    {
      if key in groups {
        var i := groups[key];
        groups := groups - {key};
        CancelTask(i);
      }
    }

    method CancelTask(i: nat)
      requires i < |subs|
      modifies this`subs
      ensures subs == old(subs)[i := Cancel(old(subs)[i])]
    {
      if !subs[i].at.Stopped? {
        subs := subs[i := subs[i].(cancelling := true)];
      }
    }

    method Stop()
      requires KeysInv(State())
      modifies this
      ensures State() == Apply(old(State()), Shutdown)
    {
      running := false;
      var rest := groups.Keys;
      while rest != {}
        invariant rest <= groups.Keys
        invariant State() == old(State()).(subs := subs, running := false) && |subs| == |old(subs)|
        invariant forall i :: 0 <= i < |subs| ==>
          subs[i] == if Registered(old(State()), i) && old(subs)[i].key !in rest then Cancel(old(subs)[i])
                     else old(subs)[i]
      {
        var k :| k in rest;
        rest := rest - {k};
        CancelTask(groups[k]);
      }
    }

    /**
     `_consume` and `_deliver` of subscription `i`, from where its consumer is suspended to where
     it suspends next.
     */
    method ResumeConsumer(i: nat, ok: bool)
      requires i < |subs| && Enabled(subs[i])
      modifies this
      ensures State() == Apply(old(State()), Consume(i, ok))
    {
      var sub := subs[i];
      if sub.cancelling {
        var dropped: Option<Payload> := None;
        if InDelivery(sub.at) {
          dropped := Some(sub.at.payload);
          inflight := inflight - 1;
        }
        subs := subs[i := sub.(at := Stopped(dropped), cancelling := false)];
        return;
      }
      match sub.at {
        case NotStarted =>
          NextRound(i, sub);
        case Waiting =>
          var payload := sub.queue[0];
          sub := sub.(queue := sub.queue[1..]);
          inflight := inflight + 1;
          if maxRetries < 1 {
            Bury(i, sub, payload, 0);
          } else {
            subs := subs[i := sub.(at := Calling(payload, 1))];
          }
        case Calling(payload, attempt) =>
          sub := sub.(calls := sub.calls + [Call(payload, ok)]);
          if ok {
            inflight := inflight - 1;
            var failures := if attempt == 0 then 0 else attempt - 1;
            NextRound(i, sub.(settled := sub.settled + [Settlement(payload, failures, true)]));
          } else {
            subs := subs[i := sub.(at := Pausing(payload, attempt))];
          }
        case Pausing(payload, attempt) =>
          if attempt < maxRetries {
            subs := subs[i := sub.(at := Calling(payload, attempt + 1))];
          } else {
            Bury(i, sub, payload, attempt);
          }
      }
    }

    /** The end of a delivery all of whose calls failed. */
    method Bury(i: nat, sub: Sub, payload: Payload, failures: nat)
      requires i < |subs|
      modifies this
      ensures subs == old(subs)[i := Loop(Settle(sub, payload, failures, false), running)]
      ensures deadLetter == old(deadLetter) + [DeadLetter(i, sub.key, payload)]
      ensures inflight == old(inflight) - 1 && groups == old(groups) && running == old(running)
    {
      deadLetter := deadLetter + [DeadLetter(i, sub.key, payload)];
      inflight := inflight - 1;
      NextRound(i, sub.(settled := sub.settled + [Settlement(payload, failures, false)]));
    }

    method NextRound(i: nat, sub: Sub)
      requires i < |subs|
      modifies this`subs
      ensures subs == old(subs)[i := Loop(sub, running)]
    {
      if running {
        subs := subs[i := sub.(at := Waiting)];
      } else {
        subs := subs[i := sub.(at := Stopped(None))];
      }
    }

    method IsIdle() returns (idle: bool)
      requires KeysInv(State())
      ensures idle == Idle(State())
    {
      var empty := forall k :: k in groups ==> subs[groups[k]].queue == [];
      idle := empty && inflight == 0;
    }
  }
}
