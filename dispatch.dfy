/**
 * What a dispatch pass (`spinOnce`) and the wait loop (`spin`) of the native
 * PX4 node handle do, as functions of the registry size and of the values
 * that `poll` returns.
 */
module Dispatch {

  /** `kMaxSubscriptions`: the cap on the pass counter. */
  const MAX_SUBSCRIPTIONS: nat := 100

  /** `timeout_ms`: both the idle sleep and the poll timeout of `spin`. */
  const SPIN_TIMEOUT_MS: nat := 100

  /**
   * How many nodes one pass over a list of `n` nodes updates. The counter is
   * compared after its increment with a strict `>`, so the pass updates
   * `MAX_SUBSCRIPTIONS + 1` nodes before it stops, not `MAX_SUBSCRIPTIONS`.
   */
  function PassLength(n: nat): (k: nat)
    ensures k <= n && k <= MAX_SUBSCRIPTIONS + 1
    // the pass only stops short when the cap is hit, and then after 101 nodes
    ensures k < n ==> k == MAX_SUBSCRIPTIONS + 1
    ensures k == n <==> n <= MAX_SUBSCRIPTIONS + 1
  {
    if n <= MAX_SUBSCRIPTIONS + 1 then n else MAX_SUBSCRIPTIONS + 1
  }

  /** The node indices `0, 1, ..., k - 1`: the order in which a pass updates. */
  function Prefix(k: nat): (r: seq<nat>)
    ensures |r| == k && forall i :: 0 <= i < k ==> r[i] == i
  {
    seq(k, i => i)
  }

  /** The update counters after the first `k` nodes have been updated `times` times more. */
  function Bumped(updates: seq<nat>, k: nat, times: nat): (r: seq<nat>)
    ensures |r| == |updates|
    ensures forall i :: 0 <= i < |r| && i < k ==> r[i] == updates[i] + times
    ensures forall i :: k <= i < |r| ==> r[i] == updates[i]
  {
    seq(|updates|, i requires 0 <= i < |updates| => if i < k then updates[i] + times else updates[i])
  }

  /** Two rounds of updates on the same nodes add up. */
  lemma BumpedTwice(updates: seq<nat>, k: nat, a: nat, b: nat)
    ensures Bumped(Bumped(updates, k, a), k, b) == Bumped(updates, k, a + b)
  {
  }

  /** What one iteration of `spin` did. */
  datatype Step =
    | Slept(micros: nat)  // no subscription: slept without dispatching
    | NotReady            // poll timed out or failed: no dispatch
    | Dispatched          // poll reported data: one dispatch pass

  /**
   * One iteration of `spin`, given whether the minimum-interval cache is set
   * and what `poll` on the cached node's handle returns.
   */
  function Decide(cached: bool, pollResult: int): (r: Step)
    ensures r.Slept? <==> !cached
    ensures r.Slept? ==> r.micros == SPIN_TIMEOUT_MS * 1000
    // a timeout (0) or an error (negative) never leads to a dispatch pass
    ensures r.Dispatched? <==> cached && pollResult > 0
  {
    if !cached then Slept(SPIN_TIMEOUT_MS * 1000)
    else if pollResult <= 0 then NotReady
    else Dispatched
  }

  /** The steps of a run of `spin` whose polls return `polls`, one per iteration. */
  function Decisions(cached: bool, polls: seq<int>): (r: seq<Step>)
    ensures |r| == |polls|
  {
    seq(|polls|, i requires 0 <= i < |polls| => Decide(cached, polls[i]))
  }

  /** Number of dispatch passes among `steps`. */
  function Passes(steps: seq<Step>): nat {
    if steps == [] then 0
    else Passes(steps[..|steps| - 1]) + (if steps[|steps| - 1].Dispatched? then 1 else 0)
  }

  /** Number of strictly positive poll results. */
  function Positives(polls: seq<int>): nat {
    if polls == [] then 0
    else Positives(polls[..|polls| - 1]) + (if polls[|polls| - 1] > 0 then 1 else 0)
  }

  /**
   * A run of `spin` performs one dispatch pass per positive poll result when
   * a subscription exists, and none at all otherwise.
   */
  lemma {:induction false} PassesOfDecisions(cached: bool, polls: seq<int>)
    ensures Passes(Decisions(cached, polls)) == if cached then Positives(polls) else 0
  {
    if polls != [] {
      var n := |polls|;
      assert Decisions(cached, polls)[..n - 1] == Decisions(cached, polls[..n - 1]);
      PassesOfDecisions(cached, polls[..n - 1]);
    }
  }
}
