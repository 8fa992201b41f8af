/**
 * The subscription registry of the native PX4 node handle and its
 * minimum-interval cache, as values.
 *
 * The registry is the intrusive list `_subs`, read from its head through the
 * siblings; here it is a sequence in that order. The cache `_sub_min_interval`
 * is a pointer to one node of that list; here it is an index into the
 * sequence (None for the null pointer). Where the list links a new node in is
 * decided by code this model does not see, so every insertion takes its
 * position `at` as a parameter; a pointer keeps naming the same node when
 * another node is linked in before it, so a cached index is shifted by one
 * when the insertion happens at or before it.
 */
module Subscriptions {

  datatype Option<T> = None | Some(value: T)

  /** The `unsigned` minimal interval between two callback calls. */
  newtype Interval = x: int | 0 <= x < 0x1_0000_0000

  /** Identity of a topic (its uORB metadata), compared by identity only. */
  datatype Topic = Topic(id: nat)

  /** One subscription node: the topic it follows and its minimal interval. */
  datatype Subscription = Subscription(topic: Topic, interval: Interval)

  /** `s` with `x` linked in at position `at`. */
  function Insert<T>(s: seq<T>, at: nat, x: T): (r: seq<T>)
    requires at <= |s|
    ensures |r| == |s| + 1 && r[at] == x
    ensures forall i :: 0 <= i < at ==> r[i] == s[i]
    ensures forall i :: at < i < |r| ==> r[i] == s[i - 1]
    ensures multiset(r) == multiset(s) + multiset{x}
  {
    assert s == s[..at] + s[at..];
    s[..at] + [x] + s[at..]
  }

  /** Index of the node that was at index `k` once a node is linked in at `at`. */
  function Shift(k: nat, at: nat): nat {
    if k < at then k else k + 1
  }

  /** True when node `k` of `subs` has the smallest interval of all of them. */
  predicate IsMinimal(subs: seq<Subscription>, k: nat) {
    k < |subs| && forall j :: 0 <= j < |subs| ==> subs[k].interval <= subs[j].interval
  }

  /**
   * The invariant stated by the field comment of `_sub_min_interval`: the
   * cache is null exactly when there is no subscription, and otherwise it
   * names a registered node whose interval is the smallest of all.
   */
  predicate CacheInvariant(subs: seq<Subscription>, cache: Option<nat>) {
    (cache.None? <==> subs == []) &&
    (cache.Some? ==> IsMinimal(subs, cache.value))
  }

  /**
   * The cache after `subscribe` links `s` in at `at`: the new node when the
   * cache was null or the cached node's interval is strictly larger than the
   * new one, otherwise the node cached before.
   */
  function NewCache(subs: seq<Subscription>, cache: Option<nat>, at: nat, s: Subscription): (r: Option<nat>)
    requires at <= |subs|
    requires cache.Some? ==> cache.value < |subs|
    ensures r.Some? && r.value <= |subs|
    // the first subscription on an empty handle is cached
    ensures cache.None? ==> r == Some(at)
    // the cache names either the new node or the very node it named before
    ensures r == Some(at) || (cache.Some? && r == Some(Shift(cache.value, at)))
    // the cached interval is the smaller of the old cached one and the new one
    ensures cache.Some? ==>
      Insert(subs, at, s)[r.value].interval <= s.interval &&
      Insert(subs, at, s)[r.value].interval <= subs[cache.value].interval
    // on a tie the earlier subscription stays cached
    ensures cache.Some? && subs[cache.value].interval <= s.interval ==> r == Some(Shift(cache.value, at))
  {
    if cache.None? || subs[cache.value].interval > s.interval then Some(at)
    else Some(Shift(cache.value, at))
  }

  /** Every `subscribe` keeps the cache invariant. */
  lemma SubscribeKeepsCacheInvariant(subs: seq<Subscription>, cache: Option<nat>, at: nat, s: Subscription)
    requires CacheInvariant(subs, cache)
    requires at <= |subs|
    ensures CacheInvariant(Insert(subs, at, s), NewCache(subs, cache, at, s))
  {
    var subs', r := Insert(subs, at, s), NewCache(subs, cache, at, s);
    forall j | 0 <= j < |subs'|
      ensures subs'[r.value].interval <= subs'[j].interval
    {
      if j != at {
        var old_j := if j < at then j else j - 1;
        assert subs'[j] == subs[old_j];
      }
    }
  }

  /** One call of `subscribe`: the node it adds and where the list links it in. */
  datatype SubscribeCall = SubscribeCall(sub: Subscription, at: nat)

  /** The registry and cache reached from a fresh handle by a series of calls. */
  datatype Registry = Registry(subs: seq<Subscription>, cache: Option<nat>)

  /** Each call links its node in at a position the list then has. */
  predicate ValidPositions(calls: seq<SubscribeCall>) {
    forall i :: 0 <= i < |calls| ==> calls[i].at <= i
  }

  /** The nodes a series of calls subscribes, counted with multiplicity. */
  function Subscribed(calls: seq<SubscribeCall>): multiset<Subscription> {
    if calls == [] then multiset{} else Subscribed(calls[..|calls| - 1]) + multiset{calls[|calls| - 1].sub}
  }

  /** The smallest interval requested by a non-empty series of calls. */
  function MinInterval(calls: seq<SubscribeCall>): Interval
    requires calls != []
  {
    if |calls| == 1 then calls[0].sub.interval
    else
      var m := MinInterval(calls[..|calls| - 1]);
      var last := calls[|calls| - 1].sub.interval;
      if last < m then last else m
  }

  /** The effect of `calls`, in order, on a freshly constructed handle. */
  function Replay(calls: seq<SubscribeCall>): (r: Registry)
    requires ValidPositions(calls)
    ensures |r.subs| == |calls|
    ensures CacheInvariant(r.subs, r.cache)
  {
    if calls == [] then Registry([], None)
    else
      var prefix := calls[..|calls| - 1];
      var c := calls[|calls| - 1];
      var before := Replay(prefix);
      SubscribeKeepsCacheInvariant(before.subs, before.cache, c.at, c.sub);
      Registry(Insert(before.subs, c.at, c.sub), NewCache(before.subs, before.cache, c.at, c.sub))
  }

  /** After any series of `subscribe` calls the list holds exactly the subscribed nodes. */
  lemma {:induction false} ReplayHoldsSubscribed(calls: seq<SubscribeCall>)
    requires ValidPositions(calls)
    ensures multiset(Replay(calls).subs) == Subscribed(calls)
  {
    if calls != [] {
      var prefix := calls[..|calls| - 1];
      var c := calls[|calls| - 1];
      assert ValidPositions(prefix);
      ReplayHoldsSubscribed(prefix);
      assert Replay(calls).subs == Insert(Replay(prefix).subs, c.at, c.sub);
    }
  }

  /** The interval `subscribe` leaves cached is the smaller of the old cached one and the new one. */
  lemma CachedIntervalAfterSubscribe(subs: seq<Subscription>, cache: Option<nat>, at: nat, s: Subscription)
    requires CacheInvariant(subs, cache) && cache.Some?
    requires at <= |subs|
    ensures var m := subs[cache.value].interval;
      Insert(subs, at, s)[NewCache(subs, cache, at, s).value].interval == if s.interval < m then s.interval else m
  {
    var r := NewCache(subs, cache, at, s).value;
    if r != at {
      assert Insert(subs, at, s)[r] == subs[cache.value];
    }
  }

  /**
   * After any series of `subscribe` calls the cache is null exactly when
   * there were no calls, and otherwise the cached node's interval is the
   * minimum of all requested ones.
   */
  lemma {:induction false} ReplayCachesMinimum(calls: seq<SubscribeCall>)
    requires ValidPositions(calls)
    ensures Replay(calls).cache.None? <==> calls == []
    ensures calls != [] ==> Replay(calls).subs[Replay(calls).cache.value].interval == MinInterval(calls)
  {
    if calls != [] {
      var prefix := calls[..|calls| - 1];
      var c := calls[|calls| - 1];
      assert ValidPositions(prefix);
      var before := Replay(prefix);
      if prefix != [] {
        ReplayCachesMinimum(prefix);
        CachedIntervalAfterSubscribe(before.subs, before.cache, c.at, c.sub);
      }
    }
  }
}
