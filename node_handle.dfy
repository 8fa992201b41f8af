/**
 * The native (non-ROS) PX4 node handle: a subscription list, a publication
 * list and a cached pointer to the subscription with the smallest interval.
 */
module Px4 {
  import opened Subscriptions
  import opened Dispatch

  /** One publication node: the topic it advertises. */
  datatype Publication = Publication(topic: Topic)

  class NodeHandle {
    /** `_subs`, from the head of the list through the siblings. */
    var subs: seq<Subscription>
    /** `_pubs`. */
    var pubs: seq<Publication>
    /** `_sub_min_interval`: index into `subs`, None for the null pointer. */
    var minInterval: Option<nat>
    /** How many times `update` has been called on each node of `subs`. */
    ghost var updates: seq<nat>

    ghost predicate Valid()
      reads this
    {
      |updates| == |subs| && CacheInvariant(subs, minInterval)
    }

    constructor ()
      ensures Valid()
      ensures subs == [] && pubs == [] && minInterval == None && updates == []
    {
      subs, pubs, minInterval := [], [], None;
      updates := [];
    }

    /**
     * Subscribes to `topic` with minimal interval `interval`; the list links
     * the new node in at position `at`. Returns the new node's index.
     */
    method Subscribe(topic: Topic, interval: Interval, at: nat) returns (node: nat)
      requires Valid()
      requires at <= |subs|
      modifies this
      ensures Valid()
      ensures subs == Insert(old(subs), at, Subscription(topic, interval))
      ensures node == at && subs[node] == Subscription(topic, interval)
      ensures updates == Insert(old(updates), at, 0)
      ensures minInterval == NewCache(old(subs), old(minInterval), at, Subscription(topic, interval))
      ensures pubs == old(pubs)
    {
      ghost var subs0, cache0 := subs, minInterval;
      SubscribeKeepsCacheInvariant(subs0, cache0, at, Subscription(topic, interval));
      // the node links itself into the list; the cached pointer still names the same node
      subs := Insert(subs, at, Subscription(topic, interval));
      updates := Insert(updates, at, 0);
      if minInterval.Some? {
        assert subs[Shift(minInterval.value, at)] == subs0[minInterval.value];
        minInterval := Some(Shift(minInterval.value, at));
      }
      if minInterval == None || subs[minInterval.value].interval > interval {
        minInterval := Some(at);
      }
      assert minInterval == NewCache(subs0, cache0, at, Subscription(topic, interval));
      node := at;
    }

    /**
     * Advertises `topic`; the publication list links the new node in at
     * position `at`. Returns the new node's index.
     */
    method Advertise(topic: Topic, at: nat) returns (node: nat)
      requires Valid()
      requires at <= |pubs|
      modifies this
      ensures Valid()
      ensures node == at
      ensures pubs == Insert(old(pubs), at, Publication(topic))
      ensures subs == old(subs) && minInterval == old(minInterval) && updates == old(updates)
    {
      pubs := Insert(pubs, at, Publication(topic));
      node := at;
    }

    /**
     * One dispatch pass: walks the list from its head and updates each node,
     * stopping with a warning once the post-incremented counter exceeds
     * `MAX_SUBSCRIPTIONS`. `trace` lists the updated nodes in call order.
     */
    method SpinOnce() returns (ghost trace: seq<nat>, warned: bool)
      requires Valid()
      modifies this
      ensures Valid()
      ensures subs == old(subs) && pubs == old(pubs) && minInterval == old(minInterval)
      ensures trace == Prefix(PassLength(|subs|))
      ensures updates == Bumped(old(updates), PassLength(|subs|), 1)
      ensures warned <==> |subs| > MAX_SUBSCRIPTIONS + 1
    {
      var sub := 0;  // index of the current node; |subs| stands for the null pointer
      var count := 0;
      trace, warned := [], false;
      while sub < |subs|
        invariant sub == count <= PassLength(|subs|)
        invariant |updates| == |subs|
        invariant trace == Prefix(sub)
        invariant updates == Bumped(old(updates), sub, 1)
        invariant !warned
        invariant subs == old(subs) && pubs == old(pubs) && minInterval == old(minInterval)
        decreases |subs| - sub
      {
        var before := count;
        count := count + 1;
        if before > MAX_SUBSCRIPTIONS {
          warned := true;
          break;
        }
        updates := updates[sub := updates[sub] + 1];
        trace := trace + [sub];
        sub := sub + 1;
      }
    }

    /**
     * One iteration of `spin` whose `poll` on the cached node's handle would
     * return `pollResult` (not consulted when nothing is subscribed).
     */
    method SpinIteration(pollResult: int) returns (step: Step)
      requires Valid()
      modifies this
      ensures Valid()
      ensures subs == old(subs) && pubs == old(pubs) && minInterval == old(minInterval)
      ensures step == Decide(minInterval.Some?, pollResult)
      ensures updates == Bumped(old(updates), PassLength(|subs|), if step.Dispatched? then 1 else 0)
    {
      if minInterval == None {
        step := Slept(SPIN_TIMEOUT_MS * 1000);
        return;
      }
      if pollResult <= 0 {
        step := NotReady;
        return;
      }
      var _, _ := SpinOnce();
      step := Dispatched;
    }

    /**
     * `spin` for a run in which `ok()` holds for `|polls|` iterations and
     * `polls[i]` is what `poll` returns in iteration `i`.
     */
    method Spin(polls: seq<int>) returns (steps: seq<Step>)
      requires Valid()
      modifies this
      ensures Valid()
      ensures subs == old(subs) && pubs == old(pubs) && minInterval == old(minInterval)
      ensures steps == Decisions(subs != [], polls)
      ensures updates == Bumped(old(updates), PassLength(|subs|), if subs == [] then 0 else Positives(polls))
    {
      steps := [];
      var i := 0;
      while i < |polls|
        invariant 0 <= i <= |polls|
        invariant Valid()
        invariant subs == old(subs) && pubs == old(pubs) && minInterval == old(minInterval)
        invariant steps == Decisions(subs != [], polls[..i])
        invariant updates == Bumped(old(updates), PassLength(|subs|), Passes(steps))
      {
        var step := SpinIteration(polls[i]);
        BumpedTwice(old(updates), PassLength(|subs|), Passes(steps), if step.Dispatched? then 1 else 0);
        assert steps + [step] == Decisions(subs != [], polls[..i + 1]);
        assert (steps + [step])[..|steps|] == steps;
        steps := steps + [step];
        i := i + 1;
      }
      assert polls[..i] == polls;
      PassesOfDecisions(subs != [], polls);
    }
  }

  /**
   * A fresh handle on which `calls` are made in order, each `subscribe`
   * linking its node in where the call says: it reaches the registry and
   * cache of `Replay(calls)`.
   */
  method SubscribeAll(calls: seq<SubscribeCall>) returns (h: NodeHandle)
    requires ValidPositions(calls)
    ensures fresh(h) && h.Valid()
    ensures h.subs == Replay(calls).subs && h.minInterval == Replay(calls).cache
    ensures h.pubs == []
  {
    h := new NodeHandle();
    var i := 0;
    while i < |calls|
      invariant 0 <= i <= |calls|
      invariant fresh(h) && h.Valid() && h.pubs == []
      invariant ValidPositions(calls[..i])
      invariant h.subs == Replay(calls[..i]).subs && h.minInterval == Replay(calls[..i]).cache
    {
      assert calls[..i + 1][..i] == calls[..i];
      assert ValidPositions(calls[..i + 1]);
      var _ := h.Subscribe(calls[i].sub.topic, calls[i].sub.interval, calls[i].at);
      i := i + 1;
    }
    assert calls[..i] == calls;
  }
}
