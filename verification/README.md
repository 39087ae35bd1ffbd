# NovaAIRouter in Dafny

NovaAIRouter is a cluster of gateways. Each gateway keeps a registry of local backends, gossips
its paths and load to the others, and answers a request from one of its own request pools or
forwards it to another gateway. This project models that behaviour and proves what holds of it
for every input, every interleaving and every run. `dafny verify dfyconfig.toml` checks all of it.

## How the model is laid out

| files | part of the system |
|---|---|
| `PoolProtocol`, `PoolGuarantees`, `PoolVisits`, `RequestPool` | one request pool: callers, workers and Shutdown, interleaved at every atomic addition and channel operation |
| `GoStrings`, `Routing`, `LocalPick`, `Router`, `PathRewrite`, `Forwarding`, `PoolChoice`, `LocalService` | path matching, candidate collection, the decision on a node, the path rewrite, a request travelling through the cluster, and the choice of a pool, the call on it and the call of the backend where it is served |
| `RemoteStore`, `Gossip`, `GossipHistory`, `GossipSync`, `ClusterRouting` | the peer table and the remote nodes under gossip messages and timed cleaning, and what routing makes of them |
| `NestedMaps`, `AdminModel`, `AdminGuarantees`, `AdminLiveness`, `RegistryHistory`, `RegistryDetails`, `LocalRegistry`, `AdminServer`, `DeletionGossip` | registration, deletion, heartbeats and the liveness sweep over endpoints and pools, and what peers make of a deletion |
| `Balancer`, `CircuitBreaker`, `Aggregation`, `RemoteCounters` | selection arithmetic, the breaker, the broadcast totals, the in-flight counters |
| `Counting`, `Models` | counting lemmas and the shared records |

Where the Go code changes things step by step, the model has a class or a loop with invariants, and
each handler is proved equal to one step of a value-level machine (`Gossip.Step`, `AdminModel.Step`,
`CircuitBreakers.Apply`). The theorems are about runs of those machines. The request pool is the
exception: its calls take many atomic steps (`PoolProtocol.Apply`), so `RequestPool` has whole calls as
methods, lets the other parties take any enabled steps in between, and records the run it makes. Maps are
visited with a non-deterministic choice, as Go's `range` does.

Conventions: integers are unbounded except where a wrap decides a result (`Balancer.Wrap32`); scores
are reals; clocks, random draws and generated ids are parameters or non-deterministic choices; a
time is a positive number, and zero is Go's zero time.

## Where the code differs from what one would expect

Each of these is proved with its exact condition.

- The forwarder's loop check looks for the node id as a substring of the header. It refuses a request
  that is in no loop exactly when the id is part of the id of a node visited earlier, such as `node-1`
  after `node-10` (`Forwarding.LoopCheckFiresIff`, `Forwarding.PartOfAnotherMisfires`,
  `Forwarding.PrefixedIdsMisfire`).
- The forwarder writes the decoded path into a URL without escaping it. The next node sees the same path
  exactly when it holds no `?`, `#`, `%` or control character (`PathRewrite.HopKeepsPathIff`).
- Deleting by path decodes the path twice for endpoints and once for pools, so a path with `+` or `%`
  leaves an endpoint without its pool or a pool without its endpoint
  (`AdminGuarantees.DeleteAgreesIff`, `AdminGuarantees.PlusInPathInput`).
- A deletion broadcasts the paths of all deleted endpoints as deleted, after announcing the paths still served. A
  peer that knew the served paths before knows them afterwards exactly when no such path has an endpoint of
  another service, unless the two messages overtake each other (`DeletionGossip.PeersFollowDeletionIff`,
  `DeletionGossip.StillServedIsForgotten`).
- A remote node that was dropped for its silence while its peer stayed known comes back with its next announcement, but
  under the peer's address as given, which may hold a port already, and with the port this node listens on itself
  (`GossipHistory.AddressFollowsHistory`).
- The health flag of a gossip announcement is overwritten with true, so it never keeps a node from being
  offered (`GossipHistory.ViewFollowsHistory`, `ClusterRouting.OffersFollowHistory`).
- The one-plugin-per-path check does not look inside the batch (`AdminGuarantees.OnePluginKeptIff`,
  `AdminGuarantees.TwoPluginsInOneBatch`).
- A node whose announced load and limit have opposite signs scores below zero unless it is slow, and then the balancer
  can be left without any candidate and panic. With several nodes some random factors make it panic exactly when some
  node scores below -0.02/1.05, and all of them do exactly when one scores below -0.02/0.95
  (`Balancer.SelectNodePanicsIff`); one active request under a limit of -1, and a queue of -10 under a limit of 10, are
  such nodes (`Balancer.NegativeAnnouncementsPanic`).
- A weighted choice is proportional to the weights exactly when their sum fits int32, or when it wraps to a total
  that is not positive and the weights are all equal (`Balancer.ProportionalIff`, `Balancer.OverflowWitnesses`).
  The choice of a pool has no such fallback and panics on a total that is not positive
  (`Balancer.SelectPoolLeastLoaded`).
- The router learns of a local path through one of its endpoints, whichever the map yields last. If that one is
  unhealthy the path is passed over even though another of its endpoints is healthy; what a request finds is independent
  of the pick exactly when it has passed the node before, no live path matches, or all endpoints of the longest live match are
  healthy (`LocalPick.PickIndependentIff`).
- The choice of a pool ignores health: some loads send a request to an unhealthy endpoint exactly when the path has
  one with a port (`PoolChoice.UnhealthyIsServedIff`, `PoolChoice.UnhealthyIsServed`).
- A port above 65535 is registered and pooled, and every readable request through it is answered 502 while somebody waits
  (`LocalService.ResponseMeans`).
- The queue length that is broadcast counts the waiting requests, the one the router reads counts the queued ones;
  for healthy endpoints they differ by exactly the requests in transit (`Aggregation.BroadcastExceedsRouter`).
- A caller that was counted before Shutdown closed the queue panics at its send and stays counted in
  `waitingCount` (`PoolGuarantees.CountersExplained`, the `Panicked` callers).
- The plugin example of the repository's README registers `:18011/...`; that port does not parse, so the
  endpoint gets no pool (`AdminGuarantees.ColonPortHasNoPool`). The router offers it all the same, and every request
  for it is answered 503 (`LocalService.OfferedYetUnavailable`).
- An empty registration batch crashes after changing nothing (`LocalRegistryObjects.LocalRegistry.RegisterEndpoints`).
- The broadcast plugin flag of a path depends on the listing order exactly when its endpoints disagree
  (`Aggregation.PluginIndependentIff`).
- Bare ports registered under a path without trailing slash can produce a doubled slash
  (`PathRewrite.DoubledSlashIff`).

## Model

| member | source | states |
|---|---|---|
| PoolProtocol.StepKeepsInv | internal/pool/pool.go:293-392 | every atomic step of a caller, a worker or Shutdown keeps the invariant that ties both counters, the queue and the request histories to all program counters |
| PoolProtocol.RunKeepsInv | internal/pool/pool.go:293-392 | the invariant holds after every interleaving, and no worker is ever added or lost |
| PoolProtocol.HeldIsOpen | internal/pool/pool.go:318-360 | a request a worker is serving has not had Done closed by anyone |
| PoolGuarantees.CountersExplained | internal/pool/pool.go:303-316 | waitingCount is queue plus counted callers plus workers that dequeued but did not lower it; activeCount is the workers between raise and lowering, within 0..len(workers), however the limit is changed |
| PoolGuarantees.ActiveUpToLimit | internal/pool/pool.go:253-287 | a pool asked for m >= 1 workers can have exactly 0..m requests active at once, one asked for fewer exactly 0..1, whatever the capacity |
| PoolGuarantees.LimitIsLast | internal/pool/pool.go:182-185 | the reported limit is the one the live pool was last given, and no resize starts or stops a worker |
| PoolGuarantees.NothingIsStranded | internal/pool/pool.go:293-316 | from every reachable state of a pool that is not shut down, worker steps alone lead to a state in which every accepted request is finished exactly once |
| PoolGuarantees.LoadNeverUndercounts | internal/pool/pool.go:366-392 | active + waiting is at least the accepted unfinished requests, and the excess is exactly the requests in transit |
| PoolGuarantees.ExactlyOnePlace | internal/pool/pool.go:303-360 | an accepted request is queued, held by exactly one worker, or finished with Done closed exactly once; any other request is nowhere; a caller told "served" had its Done closed |
| PoolGuarantees.DequeuedInOrder | internal/pool/pool.go:303-306 | requests are taken in the order in which they were enqueued |
| PoolGuarantees.RejectedNeverRuns | internal/pool/pool.go:377-384 | a request that was turned away is never accepted, started or finished, at any later time |
| PoolGuarantees.ShutdownLeavesNothingActive | internal/pool/pool.go:514-525 | once Shutdown has returned activeCount is 0 and each accepted request is finished or still queued, never both |
| PoolGuarantees.DrainsInBoundedSteps | internal/pool/pool.go:293-316 | after the queue is closed the workers take exactly as many steps as a computed bound decreases |
| PoolGuarantees.DrainNeverStuck | internal/pool/pool.go:514-525 | until all workers have exited one of them can move, and then Shutdown can return |
| PoolVisits.OutcomeExplained | internal/pool/pool.go:374-391 | in every run, "queue full" is returned if and only if the send found the buffer of the open queue full, the panic happens if and only if it found the queue closed, neither is ever started, and nil means that a worker took the request |
| RequestPoolObject.RequestPool.constructor | internal/pool/pool.go:253-291 | as many workers and as high a limit as asked for, and one when asked for fewer, in the initial state of the protocol |
| RequestPoolObject.RequestPool.ServeWithHeaders | internal/pool/pool.go:366-392 | whatever the others do between its steps: nil means that Done of this request was closed exactly once and nothing of it is left; "queue full" and the panic mean that no worker takes it now or ever; after an ended context it is queued, held or done; only the panic leaves it counted as waiting |
| RequestPoolObject.RequestPool.TrySend | internal/pool/pool.go:377-384 | handed over or queued if at all, refused only with a full buffer, a panic exactly on a closed queue |
| RequestPoolObject.RequestPool.ServeOne | internal/pool/pool.go:297-316 | one turn of a worker: a processed request was finished by nobody before and has Done closed exactly once; the worker leaves only after Shutdown began and waits only with an empty queue |
| RequestPoolObject.RequestPool.Select | internal/pool/pool.go:298-306 | the worker gets the oldest queued request, is handed one over an empty queue, leaves, or waits |
| RequestPoolObject.RequestPool.Complete | internal/pool/pool.go:318-360 | Done of the served request is closed, and had not been closed before |
| RequestPoolObject.RequestPool.Shutdown | internal/pool/pool.go:514-526 | every call returns with all workers gone, nothing active, and every accepted request done or queued but not both |
| RequestPoolObject.RequestPool.AwaitFirst | internal/pool/pool.go:515-515 | a later call returns only after the first has finished, within the computed bound of worker steps |
| RequestPoolObject.RequestPool.Wait | internal/pool/pool.go:523-523 | among any steps of the others the workers exit within the computed bound |
| Routing.MatchesIff | internal/business/router/router.go:152-160 | a registered path ending in a slash matches if and only if it is a prefix of the request path plus a slash; any other if and only if the request path is it with at most one slash added |
| Routing.MatchIsPrefix | internal/business/router/router.go:152-160 | a matching registered path is a prefix of the request path plus a slash |
| Routing.MatchFixedByLength | internal/business/router/router.go:152-160 | two matches of equal length are the same path |
| Routing.LongestIsUnique | internal/business/router/router.go:166-176 | the longest match does not depend on the visiting order |
| Routing.LongestLocalMatch | internal/business/router/router.go:166-176 | the loop over the representatives, in any order, finds the longest healthy local match |
| Routing.TotalLocal | internal/business/router/router.go:180-201 | the loop sums the healthy endpoints of the path |
| Routing.LocalTotalsAnyOrder | internal/business/router/router.go:180-201 | the local totals and flags are the same for every order in which the endpoints are listed |
| Routing.CollectLocal | internal/business/router/router.go:165-226 | at most one local candidate, plugin only if no regular endpoint is healthy |
| Routing.LongestRemoteLength | internal/business/router/router.go:229-236 | the length found is that of the longest match over all remote nodes |
| Routing.CollectFrom | internal/business/router/router.go:244-284 | visiting a node's states in any order yields at most one candidate, for the one longest path |
| Routing.CollectRemote | internal/business/router/router.go:239-285 | the candidates of all unseen nodes, in list order |
| Routing.GetNodesForPath | internal/business/router/router.go:164-294 | both candidate lists equal an order-free definition |
| Routing.CandidatesSound | internal/business/router/router.go:203-284 | every candidate is unseen, matches with the agreed longest path of its side, and carries a single state |
| Routing.OneCandidatePerNode | internal/business/router/router.go:239-285 | over both lists a node id is offered at most as often as it is listed |
| Routing.LocalCandidateLoad | internal/business/router/router.go:180-226 | the local candidate carries the load of the pools and the limits summed over the healthy endpoints of the path, and is a plugin if and only if all of them are |
| Routing.LocallyServedIsFound | internal/business/router/router.go:165-226 | a node with a healthy representative whose path covers the request, and which has not seen it, has a candidate |
| Routing.RemotelyServedIsFound | internal/business/router/router.go:228-285 | an unseen remote node with the longest path covering the request gives a candidate |
| LocalPick.LiveRequestIsFound | internal/business/router/router.go:152-226 | a request at or below a live path that ends in a slash finds the longest live match if all its endpoints are healthy, unless it has passed the node |
| LocalPick.ExactRequestIsFound | internal/business/router/router.go:152-226 | the same for a live path without trailing slash and a request that adds at most one |
| LocalPick.PickIndependentIff | internal/models/endpoint.go:154-165 | the local candidate does not depend on which endpoint represents each path if and only if the request has passed the node before, no live path matches, or all endpoints of the longest live match are healthy |
| LocalPick.MixedHealthDepends | internal/business/router/router.go:168-176 | for a request new to the node, a healthy and an unhealthy endpoint under the longest live match give two picks with different candidates |
| Aggregation.AggregateLocalPathInfos | internal/registry/registry.go:182-202 | for any listing, the result covers exactly the served paths, each with its sums, health and first plugin flag |
| Aggregation.OrderDoesNotMatter | internal/registry/registry.go:182-202 | active, queue length, limit and health are the same for every listing order |
| Aggregation.PluginIndependentIff | internal/registry/registry.go:186-193 | the plugin flag is order-independent exactly when the endpoints of the path agree |
| Aggregation.TotalsConserved | internal/registry/registry.go:194-200 | summed over the broadcast paths every quantity equals its total over all endpoints |
| Aggregation.LimitPositiveIffHealthy | internal/registry/registry.go:194-197 | the broadcast limit is positive exactly when some endpoint of the path is healthy |
| Aggregation.RouterTotalAgrees | internal/business/router/router.go:184-188 | the router's local limit for a path is the broadcast one |
| Aggregation.BroadcastExceedsRouter | internal/pool/pool.go:492-512 | with waitingCount recorded by the callback and len(queue) read by the router, the broadcast load of a path exceeds the router's by exactly the requests in transit at its healthy endpoints and all the load of its unhealthy ones |
| Aggregation.HealthySurplus | internal/business/router/router.go:184-194 | with healthy endpoints only, both agree on the active requests, and on the queue exactly when no pool has a request in transit |
| Balancer.WeightedRandomIndex | internal/business/balancer/balancer.go:10-26 | the two loops compute the specified choice, including the int32 total and its fallback |
| Balancer.SubtractInTurn | internal/business/balancer/balancer.go:19-25 | the subtracting loop finds the interval the draw falls into |
| Balancer.ShareIsWeight | internal/business/balancer/balancer.go:18-25 | index i is chosen by exactly weights[i] of the draws and the fall-through is unreachable |
| Balancer.ProportionalIff | internal/business/balancer/balancer.go:11-25 | over the outcomes actually drawn from, every index wins in proportion to its weight if and only if the sum fits int32, or it wraps to a non-positive total and all weights are equal |
| Balancer.OverflowWitnesses | internal/business/balancer/balancer.go:11-25 | weights that overflow: one takes every draw, two unequal ones are treated alike, and two equal ones stay proportional |
| Balancer.SelectNode | internal/business/balancer/balancer.go:41-137 | scoring, minimum, tolerance and weighted choice equal the specified selection |
| Balancer.RawScoreMeans | internal/business/balancer/balancer.go:73-93 | the exact score: 0.6 of the active and queued requests over the limit, a limit of zero counting as ten, plus 0.004 per millisecond of response time up to a hundred |
| Balancer.SelectNodeShare | internal/business/balancer/balancer.go:102-136 | a node within the tolerance is selected by exactly its limit of the draws, or ten when that is not positive, any other by none, while the weights fit int32 |
| Balancer.Wrap32Means | internal/business/balancer/balancer.go:11-14 | int32 arithmetic: the value itself within the range, repeating every 2^32 |
| Balancer.SelectNodePanicsIff | internal/business/balancer/balancer.go:54-136 | with several nodes, some random factors cause a panic if and only if some node has 1.05 times its score below -0.02, and all do if and only if some node has 0.95 times its score below it |
| Balancer.NegativeAnnouncementsPanic | internal/business/balancer/balancer.go:73-136 | one active request under a limit of -1, and a queue of -10 under a limit of 10, each make every selection panic |
| Balancer.JitterIsSmall | internal/business/balancer/balancer.go:95-97 | for non-negative loads each jittered score stays within five percent |
| Balancer.NearOptimal | internal/business/balancer/balancer.go:102-136 | for every jitter and draw 0.95 of the chosen score is at most 1.1025 of any other plus 0.001 |
| Balancer.SelectPoolByLoad | internal/business/forwarder/forwarder.go:157-221 | the loops compute the specified pool choice |
| Balancer.SelectPoolLeastLoaded | internal/business/forwarder/forwarder.go:181-220 | the chosen pool is within 0.001 of the least load, and the choice panics if and only if several pools are that close and their limits wrap to a total that is not positive |
| Balancer.LoadsCompared | internal/business/forwarder/forwarder.go:172-179 | comparing loads is comparing active plus queued requests, each side times the other's limit |
| Balancer.PoolShare | internal/business/forwarder/forwarder.go:189-220 | each pool within 0.001 of the least load is selected by exactly its limit of the draws, any other by none, while those limits fit int32 |
| Router.ParseForwardedBy | internal/business/router/router.go:54-61 | the loop yields the set of trimmed parts of the header |
| Router.SeenMeans | internal/business/router/router.go:55-61 | a joined header gives the set of its ids without the white space around them |
| Router.SelectWithFallback | internal/business/router/router.go:116-149 | a plugin candidate if there is any, an error exactly when both lists are empty, the first attempt close to the best, a later one another node if there is one |
| Router.HandleRequest | internal/business/router/router.go:42-113 | "not found" exactly without candidates, hence never when the node itself or an unseen remote node with the longest match serves the path; otherwise the first attempt decides and the retries' failure answer is never given |
| PathRewrite.SubPathCompletes | internal/pool/pool.go:335-341 | for every matching path the registered path plus the remainder is the request path, or the remainder is empty and only the slash differs |
| PathRewrite.DoubledSlashIff | internal/admin/handlers.go:376-396 | exactly when base and remainder meet in a doubled slash |
| PathRewrite.HopKeepsPathIff | internal/business/forwarder/forwarder.go:249-269 | a hop hands the path over unchanged exactly when it is plain |
| PathRewrite.HopDecodes | internal/business/forwarder/forwarder.go:264-269 | a percent-escaped text arrives decoded |
| PathRewrite.HopCutsTail | internal/business/forwarder/forwarder.go:264-269 | everything from the first question mark or hash is cut off |
| PathRewrite.EscapedQuestionMarkIsLost | internal/business/forwarder/forwarder.go:264-269 | a path whose tail is lost on a hop |
| Forwarding.Forward | internal/business/forwarder/forwarder.go:234-300 | loop check, target path and header growth as the protocol's dispatch |
| Forwarding.HandleAndForward | internal/business/server.go:93-112 | for every header: not found exactly without candidates; served only from a candidate that is the node itself, and always when there is no other; "loop detected" only for a remote candidate and a header containing the node; a bad target only for a remote candidate and a path that does not parse; otherwise on to a remote candidate with the header extended. A single candidate, or non-negative loads, always give an answer |
| Forwarding.ServesIff | internal/business/server.go:93-112 | served if all candidates are the node itself and never if none is; with remote candidates only, loop, bad target and forward each have their exact condition |
| Forwarding.ServedUnderLongest | internal/business/server.go:105-108 | a request is served under the longest healthy local match |
| Forwarding.OnlyItself | internal/business/router/router.go:164-286 | a node that serves the request, has not seen it and knows no unseen node for it has itself as its only candidate |
| Forwarding.ArrivesAndIsServed | internal/business/server.go:93-112 | however many nodes it has passed, a request that comes to a node whose only candidate is itself is served there next, under the longest healthy local match |
| Forwarding.NoNodeForwardsTwice | internal/business/forwarder/forwarder.go:235-240 | no node forwards a request twice, whatever header it came with |
| Forwarding.ForwardsAreBounded | internal/business/forwarder/forwarder.go:235-300 | the number of forwards is at most the number of node ids the first header does not contain |
| Forwarding.SeenIsHops | internal/business/router/router.go:55-61 | splitting and trimming the joined header gives back exactly the forwarders |
| Forwarding.HeaderIsItinerary | internal/business/router/router.go:54-63 | a request that entered without header carries its itinerary in order and never comes to a node again |
| Forwarding.LoopCheckFiresIff | internal/business/forwarder/forwarder.go:236-240 | for such a request the loop check fires exactly when the node's id is part of an earlier, different id |
| Forwarding.NoFalseLoops | internal/business/forwarder/forwarder.go:236-240 | if no id is part of another, "Loop detected" is never answered |
| Forwarding.PartOfAnotherMisfires | internal/business/forwarder/forwarder.go:236-240 | for any id that is part of another, and any plain path, there is an orderly run in which its node answers "Loop detected" without a loop |
| Forwarding.PrefixedIdsMisfire | internal/business/forwarder/forwarder.go:236-240 | the run in which node-1 refuses a request that node-10 forwarded |
| Forwarding.PathSurvives | internal/business/forwarder/forwarder.go:249-262 | over any number of hops a plain path stays the same, and is served under a path it matches with only the matched prefix replaced |
| LocalService.PoolsTargetEndpoints | internal/admin/handlers.go:373-400 | over every run a pool calls the port and base path, under the limit, that its endpoint was registered with |
| PoolChoice.GetPoolsByPath | internal/pool/pool.go:228-238 | every pool of the path once, with its metrics, in any order |
| PoolChoice.SelectPool | internal/business/forwarder/forwarder.go:157-221 | no pool exactly when the path has none; otherwise one whose active and queued requests per unit of limit no pool of the path undercuts by more than a thousandth, or the panic of the choice |
| PoolChoice.SelectedByLimit | internal/business/forwarder/forwarder.go:189-220 | each such pool is selected by exactly its limit of the draws, any other by none |
| PoolChoice.CanSelectIff | internal/business/forwarder/forwarder.go:157-221 | some loads lead to a pool if and only if it is a pool of the path |
| PoolChoice.UnhealthyIsServedIff | internal/business/forwarder/forwarder.go:158-178 | some loads send a request to an unhealthy endpoint if and only if the path has an unhealthy endpoint with a port |
| PoolChoice.UnhealthyIsServed | internal/business/forwarder/forwarder.go:57-71 | two services under a path, one of them unhealthy: the path is live and requests can go to that one |
| LocalService.HandleLocalRequestByPath | internal/business/forwarder/forwarder.go:55-105 | on the live pools: 503 without pool or endpoint, the panic of the choice, or what the call on a pool comes to whose activeCount plus queue length per unit of limit is least up to a thousandth, with the run of that pool as evidence |
| LocalService.AnswersMean | internal/business/forwarder/forwarder.go:55-105 | while the tables agree, 503 if and only if no endpoint of the path has a port that parses or the chosen pool's buffer was full at the send, a panic if and only if the choice panics or the queue was closed at the send; 400, 502 and a call only for a request that a worker started |
| LocalService.ResponseMeans | internal/pool/pool.go:318-425 | the worker answers 400 if and only if the body cannot be read, 502 if and only if it can and the call could not be made or was not answered while somebody waited, and otherwise calls the endpoint's address; for a plain service path the call cannot be made if and only if the port is not within 0..65535 |
| LocalService.ServedIsLive | internal/business/router/router.go:168-176 | a node serves a request only under a path of its own that has a healthy endpoint |
| LocalService.ServedEndToEnd | internal/business/server.go:93-112 | from the first node to the backend: a plain request path is served under a live path of the node; exact conditions for 503, the panic, 400 and 502; a call is for a request a worker took and has the matched prefix of the original path exchanged for the base path of an endpoint of the served path |
| LocalService.OfferedYetUnavailable | internal/business/forwarder/forwarder.go:57-62 | an endpoint registered with ":18011/v1" is offered by the router and every request for it is answered 503 |
| LocalService.FullQueueIsUnavailable | internal/pool/pool.go:377-384 | under any path with a pooled endpoint a request can be answered 503: the run in which the second call finds a buffer of one full |
| GoStrings.ContainsJoin | internal/business/forwarder/forwarder.go:236-236 | a comma-free text occurs in the header exactly when it occurs in one of its ids |
| GoStrings.SplitJoin | internal/business/router/router.go:58-58 | splitting undoes joining |
| GoStrings.JoinSplit | internal/business/router/router.go:58-58 | joining undoes splitting, and no part holds a comma |
| GoStrings.TrimSpaceMeans | internal/business/router/router.go:59-59 | exactly the white space at both ends is removed |
| RemoteStore.AlwaysDescribed | internal/models/node.go:120-224 | between any two store calls, in any order, each described path has a state and each node sits under its own id |
| RemoteStore.RemoteNodeStore.Upsert | internal/models/node.go:59-76 | the node has the given address, port and time; an existing node keeps its paths, a new one starts without |
| RemoteStore.RemoteNodeStore.TouchLastSeen | internal/models/node.go:92-98 | only the time of an existing node changes |
| RemoteStore.RemoteNodeStore.DeleteNode | internal/models/node.go:85-89 | the node is removed |
| RemoteStore.RemoteNodeStore.UpdateStates | internal/models/node.go:120-133 | given states are merged with the current time, the others stay |
| RemoteStore.RemoteNodeStore.UpdateDescriptions | internal/models/node.go:135-161 | descriptions are merged, described states refreshed and forced healthy |
| RemoteStore.RemoteNodeStore.RemovePath | internal/models/node.go:217-224 | state and description of the path go together |
| RemoteStore.RemoteNodeStore.CleanStale | internal/models/node.go:198-215 | silent nodes go; of the others exactly the silent paths go |
| Gossip.StepSlot | internal/gossip/sync/sync.go:66-334 | an event changes each node's share of both tables as if that node were alone; every remote node stays a known peer |
| Gossip.RunIsSlotwise | internal/gossip/sync/sync.go:66-334 | in every reachable state each remote node is a known peer, and its share follows from the events alone |
| Gossip.OnlyRelevantMatters | internal/gossip/sync/sync.go:253-318 | a node's share depends only on the events about it and the cleanings |
| Gossip.InterleavingDoesNotMatter | internal/gossip/sync/sync.go:66-318 | two interleavings with the same events per node end in the same state |
| Gossip.DifferentSendersCommute | internal/gossip/sync/sync.go:66-318 | events about different nodes commute |
| GossipHistory.ViewFollowsHistory | internal/gossip/sync/sync.go:253-334 | a path is in a node's view exactly when the node announced it while known and no deletion, removal or timeout followed; the stored state is the last announcement with health true; a node is a peer exactly when it greeted and was not lost |
| GossipHistory.PeerAddressIsFirst | internal/gossip/sync/sync.go:72-106 | a peer keeps the address of the greeting that made it known |
| GossipHistory.AddressFollowsHistory | internal/gossip/sync/sync.go:66-106 | requests for a node go to host and port of the greeting that made it known, or, if it was dropped for its silence since, to the peer's address as given with this node's own port |
| Gossip.InfoMapIsLast | internal/gossip/sync/sync.go:283-299 | of several announcements for a path in one message the last counts |
| GossipSync.BuildMaps | internal/gossip/sync/sync.go:283-299 | the last announcement per path wins |
| GossipSync.SyncService.AddPeerLocked | internal/gossip/sync/sync.go:66-107 | a new peer is entered in both tables, a known one has its times refreshed |
| GossipSync.SyncService.JoinPeer | internal/gossip/gossip.go:395-403 | the join event |
| GossipSync.SyncService.RemovePeer | internal/gossip/sync/sync.go:110-117 | the removal event |
| GossipSync.SyncService.StoreAnnouncements | internal/gossip/sync/sync.go:263-302 | announcements of a known peer are stored, creating its node if it was cleaned away |
| GossipSync.SyncService.HandleStateMessage | internal/gossip/sync/sync.go:253-318 | announcements, then deletions, then the leave |
| GossipSync.SyncService.HandleGossipState | internal/gossip/gossip.go:280-287 | the state event |
| GossipSync.SyncService.HandleGossipSync | internal/gossip/gossip.go:317-344 | the sync event; a message without node id changes nothing |
| GossipSync.SyncService.CleanupStalePeers | internal/gossip/sync/sync.go:321-334 | exactly the silent peers go, from both tables |
| GossipSync.SyncService.CleanStaleRemoteNodes | internal/admin/server.go:94-94 | the cleaning event |
| GossipSync.SyncService.HasPath | internal/registry/registry.go:151-153 | what the tables show is what the history says |
| ClusterRouting.OffersFollowHistory | internal/business/router/router.go:238-286 | the remote nodes offered are exactly those unseen whose view, by the gossip history, holds the longest match |
| ClusterRouting.RemotePathsFollowHistory | internal/business/router/router.go:229-236 | the paths matched against are exactly those in some node's view by the history |
| ClusterRouting.OfferedLoadFollowsHistory | internal/business/router/router.go:251-278 | after any gossip history and any run of forwards, a remote candidate is judged by the active requests last announced plus the forwards to it begun and not ended, with queue, limit and kind as last announced |
| ClusterRouting.OfferedAddressFollowsHistory | internal/business/forwarder/forwarder.go:264-264 | a remote candidate carries the address and port that the gossip history gives its node |
| RemoteCounters.CounterIsInFlight | internal/pool/pool.go:106-139 | over every interleaving the counter of a node and path is the number of forwards begun and not ended |
| RemoteCounters.KeyInjective | internal/pool/pool.go:101-103 | joined keys are unambiguous for ids without a bar |
| RemoteCounters.CounterTable.IncRemoteActive | internal/pool/pool.go:106-116 | one more in flight, all counters still exact |
| RemoteCounters.CounterTable.DecRemoteActive | internal/pool/pool.go:119-127 | one fewer in flight, all counters still exact |
| RemoteCounters.CounterTable.GetRemoteActive | internal/pool/pool.go:130-139 | the number of forwards in flight under the key |
| AdminModel.ServicePathSplits | internal/admin/handlers.go:376-388 | port text and base path make up the service path again |
| AdminModel.AtoiDecimal | internal/admin/handlers.go:390-396 | a printed port reads back as itself |
| AdminModel.AtoiSigned | internal/admin/handlers.go:390-394 | signs are read, and numbers beyond 64 bits do not parse |
| AdminModel.BarePort | internal/admin/handlers.go:381-388 | a service path without a slash is all port and has the base path "/" |
| AdminModel.ValidRequestIff | internal/admin/handlers.go:318-330 | a request is valid if and only if both paths are given and both or neither end in a slash |
| AdminModel.RegisterHas | internal/registry/local/local.go:59-64 | a registration adds every endpoint of the batch under its path and id and changes nothing else |
| AdminGuarantees.AlwaysWellFormed | internal/models/endpoint.go:45-140 | in every reachable registry no inner map is empty, every endpoint sits under its own path and id, and limits are at least one |
| AdminGuarantees.RemovalAgreesIff | internal/admin/handlers.go:458-496 | removing endpoints and pools by two rules keeps them in agreement exactly when the rules pick the same pooled endpoints |
| AdminGuarantees.DecodesQuery | internal/admin/handlers.go:450-481 | decoding a query value undoes its encoding |
| AdminGuarantees.SecondDecodingHarmlessIff | internal/admin/handlers.go:473-481 | decoding again changes nothing exactly when there is no escape character |
| AdminGuarantees.DeleteAgreesIff | internal/admin/handlers.go:458-496 | when exactly a deletion keeps endpoints and pools in agreement |
| AdminGuarantees.PlusInPathBreaksAgreement | internal/admin/handlers.go:473-496 | deleting a registered path with a plus breaks the agreement |
| AdminGuarantees.PlusInPathInput | internal/admin/handlers.go:473-496 | registering "/a+b" in an empty registry and deleting it leaves an endpoint without its pool |
| AdminGuarantees.PoolsFollowEndpoints | internal/admin/handlers.go:359-413 | over every run with plain deletions the pools are exactly those of the registered endpoints whose port parses |
| AdminGuarantees.LookupAfterPoolSucceeds | internal/business/forwarder/forwarder.go:57-70 | the endpoint lookup after choosing a pool always succeeds |
| AdminGuarantees.ColonPortHasNoPool | internal/admin/handlers.go:390-394 | a service path that starts with a colon gets no pool |
| AdminGuarantees.OnePluginKeptIff | internal/registry/local/local.go:44-71 | registration is all or nothing; an accepted batch keeps one plugin per path exactly when it holds one itself |
| AdminGuarantees.TwoPluginsInOneBatch | internal/registry/local/local.go:48-54 | one batch of two plugins for a path is accepted by an empty registry |
| AdminGuarantees.AlwaysOnePlugin | internal/registry/local/local.go:48-54 | if every batch has at most one plugin per path, every reachable registry has |
| AdminLiveness.TimesAlwaysRecorded | internal/registry/local/local.go:161-179 | an endpoint's heartbeat time is when its service was last heard from |
| AdminLiveness.SweepIsFair | internal/registry/local/local.go:212-229 | a sweep leaves alone who was heard within the timeout, marks only who was silent longer, and removes exactly who was unhealthy already and silent for more than twice the timeout |
| AdminLiveness.SilentIsSwept | internal/registry/local/local.go:212-229 | a silent endpoint is gone after two late sweeps, whatever happens in between |
| RegistryHistory.RegistryFollowsHistory | internal/registry/local/local.go:44-229 | after any history an endpoint is registered exactly when an accepted registration brought it and no deletion or sweep removed it, and healthy exactly when its service last said so and no sweep since found it silent |
| RegistryHistory.AcceptanceFollowsHistory | internal/registry/local/local.go:44-57 | a registration is accepted if and only if it is not empty, all its requests are valid, and for no path it wants a plugin for did an earlier accepted registration bring one that nothing removed since |
| RegistryHistory.StepAt | internal/admin/handlers.go:282-496 | what one admin operation does to one path and id |
| RegistryDetails.DetailsFollowHistory | internal/admin/handlers.go:332-347 | a registered endpoint has the service path, the kind and the limit of the registration that brought it, and the load its pool reported last since then |
| RegistryDetails.LimitMeans | internal/admin/handlers.go:332-335 | the registered limit is the int32 value asked for, and one when that is below one |
| LocalRegistryObjects.LocalEndpointStore.Set | internal/models/endpoint.go:45-52 | the endpoint is stored under its path and id |
| LocalRegistryObjects.LocalEndpointStore.DeleteByEpID | internal/models/endpoint.go:115-124 | the endpoint goes, and an emptied inner map with it |
| LocalRegistryObjects.LocalEndpointStore.DeleteByServiceID | internal/models/endpoint.go:127-140 | exactly the service's endpoints under the path go |
| LocalRegistryObjects.LocalEndpointStore.GetByEpID | internal/models/endpoint.go:80-91 | finds the endpoint exactly when it is stored |
| LocalRegistryObjects.LocalEndpointStore.GetByServiceID | internal/models/endpoint.go:94-105 | finds one of the service's endpoints exactly when there is one |
| LocalRegistryObjects.LocalEndpointStore.GetAll | internal/models/endpoint.go:154-165 | one stored endpoint for each path, whichever is visited last |
| LocalRegistryObjects.LocalEndpointStore.List | internal/models/endpoint.go:142-152 | every stored endpoint once, in any order |
| LocalRegistryObjects.LocalRegistry.RegisterEndpoints | internal/registry/local/local.go:44-71 | refused exactly on a plugin conflict, crash only on an empty batch, otherwise the whole batch is stored |
| LocalRegistryObjects.LocalRegistry.CheckPlugins | internal/registry/local/local.go:48-54 | the nested loops find a conflict exactly when there is one |
| LocalRegistryObjects.LocalRegistry.UpdateHeartbeat | internal/registry/local/local.go:161-179 | exactly the endpoints of the named service are refreshed; an empty name is refused |
| LocalRegistryObjects.LocalRegistry.UpdateMetrics | internal/registry/local/local.go:199-209 | only the named endpoint's load changes |
| LocalRegistryObjects.LocalRegistry.CheckStaleEndpoints | internal/registry/local/local.go:212-229 | the loop ages every endpoint once and returns exactly the removed ones |
| LocalRegistryObjects.LocalRegistry.RemoveByServiceAndPath | internal/registry/local/local.go:96-109 | exactly the service's endpoints under the path go, zero reported exactly when nothing changed |
| LocalRegistryObjects.LocalRegistry.RemoveByServiceID | internal/registry/local/local.go:80-93 | exactly the service's endpoints go |
| AdminServerObject.PoolManager.CreatePool | internal/pool/pool.go:174-192 | the pool of the key has the new target and limit |
| AdminServerObject.PoolManager.CreatePools | internal/admin/handlers.go:371-413 | a pool for every endpoint of the batch whose port parses |
| AdminServerObject.PoolManager.RemovePool | internal/pool/pool.go:194-212 | the pool goes, and an emptied inner map with it |
| AdminServerObject.PoolManager.RemovePools | internal/admin/handlers.go:490-496 | exactly the named pools go |
| AdminServerObject.AdminServer.HandlePost | internal/admin/handlers.go:282-434 | one registration event; 400 exactly for a missing path or a mismatched trailing slash, a crash exactly on an empty batch; accepted batches register all endpoints and their pools |
| AdminServerObject.AdminServer.CollectDoomed | internal/admin/handlers.go:458-471 | exactly the keys of the endpoints the received path selects |
| AdminServerObject.AdminServer.HandleDelete | internal/admin/handlers.go:436-496 | one deletion event; 400 exactly when the service is missing or a value does not decode, and then nothing changes |
| AdminServerObject.AdminServer.HandleHeartbeat | internal/admin/handlers.go:541-546 | one heartbeat event |
| AdminServerObject.AdminServer.UpdateMetrics | internal/admin/handlers.go:406-408 | one metrics event |
| AdminServerObject.AdminServer.SweepTick | internal/admin/server.go:87-93 | one sweep event: stale endpoints go and their pools with them |
| AdminServerObject.AdminServer.EndpointOfPool | internal/business/forwarder/forwarder.go:57-70 | while the tables agree, the endpoint of a pool is found |
| DeletionGossip.SyncInfos | internal/gossip/sync/sync.go:213-228 | one announcement for each served path, with its totals |
| DeletionGossip.MirrorsIff | internal/admin/handlers.go:498-507 | after both messages a peer lists exactly the served paths if and only if no path broadcast as deleted is still served and every path it listed that is no longer served was broadcast |
| DeletionGossip.PeersFollowDeletionIff | internal/admin/handlers.go:458-507 | a peer that listed the served paths before a plain deletion lists them after it if and only if no path of the deleted endpoints has an endpoint of another service; it always does when the messages arrive in the other order |
| DeletionGossip.StillServedIsForgotten | internal/admin/handlers.go:500-505 | two services under a path, one deleted: every peer forgets the path, which is still served |
| CircuitBreakers.EveryRunExplained | internal/business/circuitbreaker/circuitbreaker.go:51-123 | after every history the breaker is open if and only if the events have opened it and half-open if and only if a trial is under way, both read off the events alone; closed means as many failures as the streak since the last success or reset, below the threshold; activeHalfOpen is never positive |
| CircuitBreakers.RefusesIff | internal/business/circuitbreaker/circuitbreaker.go:51-71 | refused if and only if the events have opened the breaker and less than the timeout has passed since the last failure |
| CircuitBreakers.OpensIff | internal/business/circuitbreaker/circuitbreaker.go:90-108 | it opens exactly on the fifth failure in a row or on a failure during a trial |
| CircuitBreakers.ClosesIff | internal/business/circuitbreaker/circuitbreaker.go:73-88 | a trial ends in closing exactly on a reset or on its second success |
| CircuitBreakers.CircuitBreaker.Allow | internal/business/circuitbreaker/circuitbreaker.go:51-71 | answer and new state follow from the history |
| CircuitBreakers.CircuitBreaker.RecordSuccess | internal/business/circuitbreaker/circuitbreaker.go:73-88 | the success event |
| CircuitBreakers.CircuitBreaker.RecordFailure | internal/business/circuitbreaker/circuitbreaker.go:90-108 | the failure event |
| CircuitBreakers.CircuitBreaker.ResetAll | internal/business/circuitbreaker/circuitbreaker.go:116-123 | the reset event |

## Left out

- The models_plugin election, sessions and failover: votes are counted from the HTTP status and the quorum is
  not a majority for every cluster size, so the expected safety properties are not properties of that code.
- The plugin re-forward branch after a local request: the response headers it reads are never filled.
- HTTP bodies, response streaming, headers other than X-Forwarded-By, TLS, API keys, UDP discovery: input and
  output, and library behaviour.
- Configuration, logging, metrics export, the passive health checker and the web pages: plumbing with easy members.
- Address parsing in addPeerLocked: host and port are parameters of the event; the peer-announce broadcast carries no
  node id and is ignored by its receiver, as the sync event shows.
- The caller of cleanupStalePeers: nothing in the repository calls it; its effect is modelled as an event all the same.
- Aliasing: endpoints, states and nodes are values in maps, so a reader that keeps a Go reference across an update is not
  captured; a message, an admin operation and a store call are each one step.
- Sums in the router and in the broadcast totals are unbounded; int32 wrap-around is modelled only in the weighted choice
  and in the registered limit.
- Floating-point rounding: scores and loads are reals.
- PathRewrite.HopKeepsPathIff: covers the path part of the URL after host and port, for paths that begin with a slash.
- The write-only service map of the local registry, the remote snapshots, and the update-by-path variant of the metrics
  callback: nothing reads them.
- Balancer.SelectNode: takes nodes with at most one state each, which is what the router builds.
- Calls that never return: `RequestPool` describes the calls that come back, and `Wait` lets an unfinished worker move
  again and again, so a backend that never answers is not captured.
- The network between nodes: a forward to a node id is taken to arrive at the node of that id; the address and port it is
  sent to are stated separately (`ClusterRouting.OfferedAddressFollowsHistory`).
- Redirects: the HTTP client follows those of a backend, and the call recorded is the first one.
- What a worker writes after its caller has left: the answer of a call whose context ended is taken to be nothing.
- The two messages of a deletion when nothing was deleted: the second is not sent, and one that names no path changes
  nothing.
- The lag of the metrics callback: `Aggregation.BroadcastExceedsRouter` compares the two readings of one moment, after
  the callback of the last change.
