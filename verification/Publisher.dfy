/** `Publisher`: a list of subscribers, each with the kinds of notification it takes. */
module Publisher {
  import opened Subscriber

  /** `SubscriberType`, a set of bits. */
  const ACQUIRE: bv8 := 1
  const ACQUIRE_FRAME: bv8 := 2
  const BOTH: bv8 := 3

  datatype Registration<T> = Registration(kind: bv8, subscriber: Queues<T>)

  /** The subscriber registered at `k` is updated by a notification of kind `kind`. */
  predicate Takes<T>(r: Registration<T>, kind: bv8) {
    kind & r.kind != 0
  }

  /** Of the three kinds only the two single ones miss each other, and nothing takes kind 0. */
  lemma KindsThatMeet<T>(r: Registration<T>, kind: bv8)
    requires r.kind in {ACQUIRE, ACQUIRE_FRAME, BOTH} && kind in {0, ACQUIRE, ACQUIRE_FRAME, BOTH}
    ensures Takes(r, kind) <==> kind == r.kind || kind == BOTH || (r.kind == BOTH && kind != 0)
  {
  }

  /** Since the call began, the subscriber has been updated with these items and with nothing else. */
  twostate predicate Got<T>(s: Queues<T>, added: seq<T>)
    reads s
  {
    && s.log == old(s.log) + added && s.protectedQueue == old(s.protectedQueue) + added
    && s.items == old(s.items) && s.notified == old(s.notified) && s.completions == old(s.completions)
  }

  class Publisher<T(==)> {
    var subscribers: seq<Registration<T>>
    var completed: bool

    constructor ()
      ensures Valid() && subscribers == [] && !completed
    {
      subscribers, completed := [], false;
    }

    /** No subscriber is registered twice, and all are consistent. */
    ghost predicate Valid()
      reads this, set r | r in subscribers :: r.subscriber
    {
      && (forall i, j :: 0 <= i < j < |subscribers| ==> subscribers[i].subscriber != subscribers[j].subscriber)
      && (forall i :: 0 <= i < |subscribers| ==> subscribers[i].subscriber.Valid())
    }

    method RegisterSubscriber(subscriber: Queues<T>, kind: bv8)
      requires Valid() && subscriber.Valid() && forall r :: r in subscribers ==> r.subscriber != subscriber
      modifies this`subscribers
      ensures Valid() && subscribers == old(subscribers) + [Registration(kind, subscriber)]
    {
      subscribers := subscribers + [Registration(kind, subscriber)];
    }

    /** Removes the one registration of the subscriber, if there is one, and keeps the others in order. */
    method UnregisterSubscriber(subscriber: Queues<T>)
      requires Valid()
      modifies this`subscribers
      ensures Valid() && forall r :: r in subscribers ==> r in old(subscribers) && r.subscriber != subscriber
      ensures if k: nat :| k < |old(subscribers)| && old(subscribers)[k].subscriber == subscriber
              then subscribers == old(subscribers)[..k] + old(subscribers)[k + 1..]
              else subscribers == old(subscribers)
    {
      var it := 0;
      while it < |subscribers| && subscribers[it].subscriber != subscriber
        invariant 0 <= it <= |subscribers| && subscribers == old(subscribers)
        invariant forall j :: 0 <= j < it ==> subscribers[j].subscriber != subscriber
      {
        it := it + 1;
      }
      if it != |subscribers| {
        subscribers := subscribers[..it] + subscribers[it + 1..];
      }
    }

    /** Updates exactly the subscribers that take this kind, each once and with nothing else. */
    method Notify(item: T, kind: bv8)
      requires Valid()
      modifies set r | r in subscribers :: r.subscriber
      ensures Valid()
      ensures forall i :: 0 <= i < |subscribers| ==>
                Got(subscribers[i].subscriber, if Takes(subscribers[i], kind) then [item] else [])
    {
      hide Takes, Queues.Valid;
      for k := 0 to |subscribers|
        invariant Valid()
        invariant forall i :: 0 <= i < k ==>
                    Got(subscribers[i].subscriber, if Takes(subscribers[i], kind) then [item] else [])
        invariant forall i :: k <= i < |subscribers| ==> unchanged(subscribers[i].subscriber)
      {
        if Takes(subscribers[k], kind) {
          subscribers[k].subscriber.Update(item);
        }
      }
    }

    /** The promise can be kept once; a second time is an exception, and changes nothing. */
    method NotifyCompleted() returns (ok: bool)
      modifies this`completed
      ensures completed && (ok <==> !old(completed))
    {
      ok := !completed;
      completed := true;
    }
  }
}
