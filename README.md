# PX4 native node handle, modelled in Dafny

This project models the native (NuttX, non-ROS) `px4::NodeHandle` of the PX4
middleware wrapper (`src/platforms/px4_nodehandle.h`). It owns two intrusive
lists: `_subs` holds subscription nodes and `_pubs` holds publication nodes. It
also keeps `_sub_min_interval`, a pointer to the subscription with the smallest
minimal interval. It offers four operations:

- `subscribe` registers a node and keeps the pointer up to date.
- `advertise` registers a publication.
- `spinOnce` walks the subscription list and calls `update()` on each node,
  with a cap on the number of nodes per pass.
- `spin` loops while `ok()` holds. It sleeps when nothing is subscribed.
  Otherwise it polls the cached node's handle and runs one `spinOnce` when
  the poll reports data.

The model has three modules:

- `Subscriptions` (`subscriptions.dfy`) covers the registry as values. The
  list, read from its head through the siblings, is a `seq<Subscription>`.
  The cached pointer is an `Option<nat>` index into it. `NewCache` is the
  cache update that `subscribe` performs. `CacheInvariant` is the invariant
  that the field comment states. `Replay` runs a series of `subscribe` calls
  from a fresh handle.
- `Dispatch` (`dispatch.dfy`) says what a dispatch pass and a run of `spin`
  do. `PassLength` gives how many nodes a pass updates. `Decide` is the
  three-way choice of one `spin` iteration. `Passes` and `Positives` count
  dispatch passes and positive poll results.
- `Px4` (`node_handle.dfy`) holds the class `NodeHandle`. Its fields are
  `subs`, `pubs` and `minInterval`, plus a ghost counter per node of how
  often `update()` was called. Its methods keep `Valid()` and are proved
  against the functions above.

The code does not show where a new node is linked into a list: the
`SubscriberUORB` and `Publisher` constructors do that. So `Subscribe` and
`Advertise` take that position `at` as a parameter. A pointer keeps naming the
same node when another node is linked in before it, so the model shifts the
cached index by one in that case (`Shift`). Traversal order is list order,
not registration order.

Two details of the code that the model pins down:

- Despite its name, `kMaxSubscriptions` (100) does not cap a pass at 100
  nodes. The test `count++ > kMaxSubscriptions` (`:203-206`) lets 101 nodes
  through and warns only for lists of 102 nodes or more.
- A timeout (`poll` returns 0) and an error (a negative return) both
  `continue` (`:232-234`), so neither leads to a dispatch pass.

## Model

| member | source | states |
|---|---|---|
| `Subscriptions.NewCache` | src/platforms/px4_nodehandle.h:173-176 | The new cache is never null. The first subscription on an empty handle is cached. The cache then names either the new node or the node it named before, and its interval is at most both the old cached interval and the new one. On a tie the earlier node stays cached. |
| `Subscriptions.SubscribeKeepsCacheInvariant` | src/platforms/px4_nodehandle.h:244-245 | Whatever position the new node is linked in at, `subscribe` preserves this invariant: the cache is null exactly when the list is empty, and otherwise it names a listed node whose interval is no larger than any listed node's. |
| `Subscriptions.Replay` | src/platforms/px4_nodehandle.h:151-179 | From a fresh handle, after any series of `subscribe` calls, the list has one node per call and the cache invariant holds. |
| `Subscriptions.ReplayHoldsSubscribed` | src/platforms/px4_nodehandle.h:171 | After any series of `subscribe` calls, the list holds exactly the subscribed nodes, counted as a multiset, whatever positions they were linked in at. |
| `Subscriptions.CachedIntervalAfterSubscribe` | src/platforms/px4_nodehandle.h:174-175 | When a node is already cached, the interval cached after `subscribe` is the smaller of the old cached interval and the new one. |
| `Subscriptions.ReplayCachesMinimum` | src/platforms/px4_nodehandle.h:166-179 | After any series of `subscribe` calls from a fresh handle, the cache is null exactly when there were no calls. Otherwise the cached interval equals the minimum of all requested intervals. |
| `Px4.NodeHandle.constructor` | src/platforms/px4_nodehandle.h:151-155 | A new handle has empty subscription and publication lists and a null cache. |
| `Px4.NodeHandle.Subscribe` | src/platforms/px4_nodehandle.h:166-179 | The new node is linked in at the given position. The cache becomes `NewCache` of the old state. Publications are unchanged, and the invariant is kept. |
| `Px4.SubscribeAll` | src/platforms/px4_nodehandle.h:151-179 | A new handle on which a series of `subscribe` calls is made ends with exactly the list and cache of `Replay` of those calls. So `ReplayCachesMinimum` holds of the class: the cached interval is the minimum of all requested intervals. |
| `Px4.NodeHandle.Advertise` | src/platforms/px4_nodehandle.h:185-191 | Only the publication list changes: it gains the new node. The subscription list, the cache and the update counters are unchanged. |
| `Dispatch.PassLength` | src/platforms/px4_nodehandle.h:203-206 | A pass over n nodes updates at most `MAX_SUBSCRIPTIONS + 1` = 101 nodes. It updates all n exactly when n is at most 101. When it stops short, it has updated exactly 101 nodes. |
| `Px4.NodeHandle.SpinOnce` | src/platforms/px4_nodehandle.h:196-211 | The pass updates nodes 0 to `PassLength` - 1 once each, in list order from the head. Later nodes keep their counters. An empty list gets no update. A warning is emitted exactly when the list has more than 101 nodes. Lists and cache are unchanged. |
| `Dispatch.Decide` | src/platforms/px4_nodehandle.h:222-237 | With a null cache, the iteration sleeps `timeout_ms` * 1000 us and does not dispatch. Otherwise it dispatches exactly when `poll` returns a positive value; 0 (timeout) and negative values (error) do not dispatch. |
| `Px4.NodeHandle.SpinIteration` | src/platforms/px4_nodehandle.h:218-237 | One iteration takes the step `Decide` chooses. It runs exactly one dispatch pass when that step is a dispatch and none otherwise. It never changes the lists or the cache. |
| `Px4.NodeHandle.Spin` | src/platforms/px4_nodehandle.h:216-239 | A run of `spin` takes one `Decide` step per iteration in which `ok()` held. The first 101 nodes are updated once per positive poll result, and not at all with no subscriptions. The lists and the cache are unchanged. |
| `Dispatch.PassesOfDecisions` | src/platforms/px4_nodehandle.h:218-238 | The number of dispatch passes in a run is the number of positive poll results when a subscription exists, and zero otherwise. |

## Left out

- The ROS backend `NodeHandle` (`src/platforms/px4_nodehandle.h:58-146`) is a thin wrapper over `ros::NodeHandle`, `ros::spinOnce` and `ros::spin`, which are not part of this model.
- `SubscriberUORB`, `Publisher`, `List` and `uORB::SubscriptionNode` are not part of this model. The model does not capture what `update()` fetches or delivers, or which callback it calls, so it says nothing about which data a pass hands to the consumers; each call is only counted in a ghost counter.
- `SubscriberUORB` is not visible. `Subscribe` assumes two things about it: its constructor links the new node into `_subs` (it receives `&_subs`, `:171`), and `getInterval()` (`:174`) returns the `interval` passed to that constructor. The interval results of `NewCache` and `ReplayCachesMinimum` hold under that reading.
- Where `List` links a new node in is not visible. It is a parameter `at` of `Subscribe` and `Advertise`. `Advertise` assumes the `Publisher` constructor links the node into `_pubs`, since it receives `&_pubs`.
- `ok()`, `poll`, `usleep` and `PX4_WARN` are operating-system calls. `Spin` takes the poll results as input, and their number is the number of iterations in which `ok()` held. The sleep is a step value holding its length in microseconds. The warning is the `warned` result of `SpinOnce`. Real time, and how soon `spin` notices that `ok()` turned false, are not modelled.
- `Spin` and `SpinIteration` keep the lists and the cache fixed. A callback run inside `update()` that subscribes or advertises is not modelled.
- Heap allocation with `new`, the returned `Subscriber *`/`Publisher *` (modelled as the new node's index) and the empty destructor have no behaviour to verify.
- `Subscriptions.Interval` models the `unsigned` interval as a 32-bit range. Nothing in the core does arithmetic on it. The pass counter is an `int` that never exceeds 102, so no wrap-around needs modelling.
