/** Path matching and candidate collection (internal/business/router/router.go). */
module Routing {
  import opened Counting
  import opened GoStrings
  import opened Models

  /** matchNodePath. */
  predicate Matches(request: string, nodePath: string) {
    if HasSuffix(nodePath, "/") then
      || HasPrefix(request, nodePath)
      || request + "/" == nodePath
      || request == nodePath[..|nodePath| - 1]
    else
      request == nodePath || request == nodePath + "/"
  }

  /** A registered path that ends in a slash matches every request at or below it, with or
      without that slash; any other matches itself with at most one slash added. */
  lemma MatchesIff(request: string, nodePath: string)
    ensures nodePath != "" && nodePath[|nodePath| - 1] == '/' ==> (Matches(request, nodePath) <==> nodePath <= request + "/")
    ensures nodePath == "" || nodePath[|nodePath| - 1] != '/' ==>
              (Matches(request, nodePath) <==> nodePath <= request <= nodePath + "/")
  {
    if nodePath != "" && nodePath[|nodePath| - 1] == '/' {
      assert nodePath == nodePath[..|nodePath| - 1] + "/";
      assert HasSuffix(nodePath, "/");
      if nodePath <= request + "/" && !(nodePath <= request) {
        assert |nodePath| == |request| + 1;
        assert nodePath == request + "/";
      }
    } else {
      assert !HasSuffix(nodePath, "/");
      if nodePath <= request <= nodePath + "/" && request != nodePath {
        assert |request| == |nodePath| + 1;
      }
    }
  }

  /** Every match is a prefix of the request with a slash added, so the length of a
      match determines it. */
  lemma MatchIsPrefix(request: string, nodePath: string)
    requires Matches(request, nodePath)
    ensures nodePath <= request + "/"
  {
    if HasSuffix(nodePath, "/") {
      assert nodePath == nodePath[..|nodePath| - 1] + "/";
    }
  }

  lemma MatchFixedByLength(request: string, a: string, b: string)
    requires Matches(request, a) && Matches(request, b) && |a| == |b|
    ensures a == b
  {
    MatchIsPrefix(request, a);
    MatchIsPrefix(request, b);
    assert a == (request + "/")[..|a|] == b;
  }

  /** `best` is the longest non-empty match among `paths`, or "" when there is none. */
  ghost predicate IsLongest(request: string, paths: set<string>, best: string) {
    && (best != "" ==> best in paths && Matches(request, best))
    && forall p :: p in paths && Matches(request, p) ==> |p| <= |best|
  }

  /** The longest match is unique, whatever order the paths are visited in. */
  lemma LongestIsUnique(request: string, paths: set<string>, a: string, b: string)
    requires IsLongest(request, paths, a) && IsLongest(request, paths, b)
    ensures a == b
  {
    if a != "" && b != "" {
      MatchFixedByLength(request, a, b);
    }
  }

  lemma {:induction false} LongestExists(request: string, paths: set<string>)
    ensures exists best :: IsLongest(request, paths, best)
    decreases |paths|
  {
    if paths == {} {
      assert IsLongest(request, paths, "");
    } else {
      var p :| p in paths;
      LongestExists(request, paths - {p});
      var b :| IsLongest(request, paths - {p}, b);
      assert IsLongest(request, paths, if Matches(request, p) && |p| > |b| then p else b);
    }
  }

  ghost function Longest(request: string, paths: set<string>): (best: string)
    ensures IsLongest(request, paths, best)
  {
    LongestExists(request, paths);
    var best :| IsLongest(request, paths, best);
    best
  }

  // ---------- Candidate collection ----------

  /** What one node knows when a request arrives: its own id, one representative
      endpoint per path, all endpoints per path, the load of the pool of each
      (path, EpID), the remote nodes, and the requests in flight per remote key. */
  datatype NodeView = NodeView(
    self: string,
    representatives: map<string, LocalEndpoint>,
    endpoints: map<string, seq<LocalEndpoint>>,
    poolLoad: map<(string, string), (int, int)>,
    remote: seq<RemoteNode>,
    inFlight: map<string, int>)

  function RemoteKey(nodeID: string, nodePath: string): string {
    nodeID + "|" + nodePath
  }

  function InFlight(v: NodeView, nodeID: string, nodePath: string): int {
    var k := RemoteKey(nodeID, nodePath);
    if k in v.inFlight then v.inFlight[k] else 0
  }

  ghost function HealthyLocalPaths(reps: map<string, LocalEndpoint>): set<string> {
    set p | p in reps && reps[p].healthy :: reps[p].nodePath
  }

  ghost function RemotePaths(remote: seq<RemoteNode>): set<string> {
    set n, p | n in remote && p in n.states :: p
  }

  /** The totals over the healthy endpoints of one path. */
  datatype LocalTotal = LocalTotal(maxConcurrent: int, active: int, queueLen: int, hasPlugin: bool, hasRegular: bool)

  function AddEndpoint(v: NodeView, best: string, t: LocalTotal, ep: LocalEndpoint): LocalTotal {
    if !ep.healthy then t
    else
      var load := if (best, ep.epID) in v.poolLoad then v.poolLoad[(best, ep.epID)] else (0, 0);
      LocalTotal(t.maxConcurrent + ep.maxConcurrent, t.active + load.0, t.queueLen + load.1,
                 t.hasPlugin || ep.plugin, t.hasRegular || !ep.plugin)
  }

  function LocalTotals(v: NodeView, best: string, eps: seq<LocalEndpoint>): LocalTotal {
    if eps == [] then LocalTotal(0, 0, 0, false, false)
    else AddEndpoint(v, best, LocalTotals(v, best, eps[..|eps| - 1]), eps[|eps| - 1])
  }

  function LocalCandidate(v: NodeView, best: string, t: LocalTotal): RemoteNode {
    RemoteNode(v.self, "127.0.0.1", 0, "", best,
               map[best := EndpointState(t.active, t.queueLen, true, t.maxConcurrent, t.hasPlugin && !t.hasRegular, 0, 0)],
               map[], 0)
  }

  /** The local candidates of one kind: at most one. */
  function LocalCandidates(v: NodeView, best: string, seen: set<string>, plugin: bool): seq<RemoteNode> {
    if best == "" then []
    else
      var t := LocalTotals(v, best, if best in v.endpoints then v.endpoints[best] else []);
      if t.maxConcurrent > 0 && v.self !in seen && (t.hasPlugin && !t.hasRegular) == plugin
      then [LocalCandidate(v, best, t)] else []
  }

  predicate IsPluginAt(n: RemoteNode, path: string)
    requires path in n.states
  {
    if path in n.descriptions then n.descriptions[path].plugin else n.states[path].plugin
  }

  /** The candidate a remote node contributes for a path it has a state for. */
  function ForwardCandidate(v: NodeView, n: RemoteNode, path: string): RemoteNode
    requires path in n.states
  {
    var s := n.states[path];
    var estimated := s.active + InFlight(v, n.nodeID, path);
    RemoteNode(n.nodeID, n.address, n.servicePort, "", path,
               map[path := EndpointState(if estimated < 0 then 0 else estimated, s.queueLen, true,
                                         s.maxConcurrent, IsPluginAt(n, path), 0, 0)],
               map[], 0)
  }

  /** What one remote node contributes: at most one candidate, for the one path that is
      the longest match over all remote nodes. */
  function Contribution(v: NodeView, n: RemoteNode, best: string, seen: set<string>, plugin: bool): seq<RemoteNode> {
    if best != "" && n.nodeID !in seen && best in n.states && n.states[best].healthy && IsPluginAt(n, best) == plugin
    then [ForwardCandidate(v, n, best)] else []
  }

  function RemoteCandidates(v: NodeView, ns: seq<RemoteNode>, best: string, seen: set<string>, plugin: bool): seq<RemoteNode> {
    if ns == [] then []
    else RemoteCandidates(v, ns[..|ns| - 1], best, seen, plugin) + Contribution(v, ns[|ns| - 1], best, seen, plugin)
  }

  /** getNodesForPath, without any visiting order. */
  ghost function Candidates(v: NodeView, path: string, seen: set<string>, plugin: bool): seq<RemoteNode> {
    LocalCandidates(v, Longest(path, HealthyLocalPaths(v.representatives)), seen, plugin)
    + RemoteCandidates(v, v.remote, Longest(path, RemotePaths(v.remote)), seen, plugin)
  }

  /** The first loop: the longest healthy local match, visited in any order. */
  method LongestLocalMatch(path: string, reps: map<string, LocalEndpoint>) returns (best: string)
    ensures best == Longest(path, HealthyLocalPaths(reps))
  {
    best := "";
    var left := reps.Keys;
    ghost var seen := {};
    while left != {}
      invariant left <= reps.Keys
      invariant seen == set p | p in reps && p !in left && reps[p].healthy :: reps[p].nodePath
      invariant IsLongest(path, seen, best)
      decreases |left|
    {
      var key :| key in left;
      var ep := reps[key];
      left := left - {key};
      if ep.healthy {
        seen := seen + {ep.nodePath};
        if Matches(path, ep.nodePath) && |ep.nodePath| > |best| {
          best := ep.nodePath;
        }
      }
    }
    assert seen == HealthyLocalPaths(reps);
    LongestIsUnique(path, seen, best, Longest(path, seen));
  }

  method TotalLocal(v: NodeView, best: string, eps: seq<LocalEndpoint>) returns (t: LocalTotal)
    ensures t == LocalTotals(v, best, eps)
  {
    t := LocalTotal(0, 0, 0, false, false);
    for i := 0 to |eps|
      invariant t == LocalTotals(v, best, eps[..i])
    {
      assert eps[..i + 1][..i] == eps[..i];
      var ep := eps[i];
      if ep.healthy {
        t := t.(maxConcurrent := t.maxConcurrent + ep.maxConcurrent);
        if (best, ep.epID) in v.poolLoad {
          var m := v.poolLoad[(best, ep.epID)];
          t := t.(active := t.active + m.0, queueLen := t.queueLen + m.1);
        }
        if ep.plugin {
          t := t.(hasPlugin := true);
        } else {
          t := t.(hasRegular := true);
        }
      }
    }
    assert eps[..|eps|] == eps;
  }

  /** The third loop: only the length of the longest remote match is kept. */
  method LongestRemoteLength(path: string, remote: seq<RemoteNode>) returns (len: nat)
    ensures len == |Longest(path, RemotePaths(remote))|
  {
    len := 0;
    ghost var best := "";
    ghost var paths: set<string> := {};
    for i := 0 to |remote|
      invariant forall p :: p in paths <==> exists k :: 0 <= k < i && p in remote[k].states
      invariant len == |best| && IsLongest(path, paths, best)
    {
      len, best := LongestAmong(path, remote[i].states.Keys, len, best, paths);
      paths := paths + remote[i].states.Keys;
    }
    assert paths == RemotePaths(remote);
    LongestIsUnique(path, paths, best, Longest(path, paths));
  }

  method LongestAmong(path: string, keys: set<string>, start: nat, ghost first: string, ghost paths: set<string>)
    returns (len: nat, ghost best: string)
    requires start == |first| && IsLongest(path, paths, first)
    ensures len == |best| && IsLongest(path, paths + keys, best)
  {
    len, best := start, first;
    var left := keys;
    while left != {}
      invariant left <= keys
      invariant len == |best| && IsLongest(path, paths + (keys - left), best)
      decreases |left|
    {
      var p :| p in left;
      left := left - {p};
      if Matches(path, p) && |p| > len {
        len, best := |p|, p;
      }
    }
    assert keys - left == keys;
  }

  /** The inner loop of the fourth loop: the states of one remote node, in any order. */
  method CollectFrom(v: NodeView, n: RemoteNode, path: string, len: nat, ghost best: string, ghost seen: set<string>)
    returns (plugins: seq<RemoteNode>, regulars: seq<RemoteNode>)
    requires n.nodeID !in seen
    requires best != "" && len == |best| && Matches(path, best)
    ensures plugins == Contribution(v, n, best, seen, true)
    ensures regulars == Contribution(v, n, best, seen, false)
  {
    plugins, regulars := [], [];
    var left := n.states.Keys;
    while left != {}
      invariant left <= n.states.Keys
      invariant plugins == if best in left then [] else Contribution(v, n, best, seen, true)
      invariant regulars == if best in left then [] else Contribution(v, n, best, seen, false)
      decreases |left|
    {
      var p :| p in left;
      left := left - {p};
      var state := n.states[p];
      if state.healthy && Matches(path, p) && |p| == len {
        MatchFixedByLength(path, p, best);
        var isPlugin := state.plugin;
        if p in n.descriptions {
          isPlugin := n.descriptions[p].plugin;
        }
        var estimated := state.active + InFlight(v, n.nodeID, p);
        if estimated < 0 {
          estimated := 0;
        }
        var forwardNode := RemoteNode(n.nodeID, n.address, n.servicePort, "", p,
                                      map[p := EndpointState(estimated, state.queueLen, true,
                                                             state.maxConcurrent, isPlugin, 0, 0)],
                                      map[], 0);
        if isPlugin {
          plugins := plugins + [forwardNode];
        } else {
          regulars := regulars + [forwardNode];
        }
      }
    }
  }

  method CollectLocal(v: NodeView, path: string, seen: set<string>)
    returns (plugins: seq<RemoteNode>, regulars: seq<RemoteNode>)
    ensures var best := Longest(path, HealthyLocalPaths(v.representatives));
            && plugins == LocalCandidates(v, best, seen, true)
            && regulars == LocalCandidates(v, best, seen, false)
  {
    plugins, regulars := [], [];
    var best := LongestLocalMatch(path, v.representatives);
    if best != "" {
      var t := TotalLocal(v, best, if best in v.endpoints then v.endpoints[best] else []);
      if t.maxConcurrent > 0 && v.self !in seen {
        var state := EndpointState(t.active, t.queueLen, true, t.maxConcurrent, t.hasPlugin && !t.hasRegular, 0, 0);
        var local := RemoteNode(v.self, "127.0.0.1", 0, "", best, map[best := state], map[], 0);
        if t.hasPlugin && !t.hasRegular {
          plugins := [local];
        } else {
          regulars := [local];
        }
      }
    }
  }

  lemma RemoteCandidatesNext(v: NodeView, ns: seq<RemoteNode>, i: nat, best: string, seen: set<string>, plugin: bool)
    requires i < |ns|
    ensures RemoteCandidates(v, ns[..i + 1], best, seen, plugin)
         == RemoteCandidates(v, ns[..i], best, seen, plugin) + Contribution(v, ns[i], best, seen, plugin)
    ensures ns[i].nodeID in seen ==>
              RemoteCandidates(v, ns[..i + 1], best, seen, plugin) == RemoteCandidates(v, ns[..i], best, seen, plugin)
  {
    assert ns[..i + 1][..i] == ns[..i];
  }

  method CollectRemote(v: NodeView, path: string, seen: set<string>, len: nat, ghost best: string)
    returns (plugins: seq<RemoteNode>, regulars: seq<RemoteNode>)
    requires best != "" && len == |best| && Matches(path, best)
    ensures plugins == RemoteCandidates(v, v.remote, best, seen, true)
    ensures regulars == RemoteCandidates(v, v.remote, best, seen, false)
  {
    plugins, regulars := [], [];
    for i := 0 to |v.remote|
      invariant plugins == RemoteCandidates(v, v.remote[..i], best, seen, true)
      invariant regulars == RemoteCandidates(v, v.remote[..i], best, seen, false)
    {
      RemoteCandidatesNext(v, v.remote, i, best, seen, true);
      RemoteCandidatesNext(v, v.remote, i, best, seen, false);
      if v.remote[i].nodeID !in seen {
        var ps, rs := CollectFrom(v, v.remote[i], path, len, best, seen);
        plugins, regulars := plugins + ps, regulars + rs;
      }
    }
    assert v.remote[..|v.remote|] == v.remote;
  }

  /** getNodesForPath: the loops visit maps in any order and still compute Candidates. */
  method GetNodesForPath(v: NodeView, path: string, seen: set<string>)
    returns (plugins: seq<RemoteNode>, regulars: seq<RemoteNode>)
    ensures plugins == Candidates(v, path, seen, true)
    ensures regulars == Candidates(v, path, seen, false)
  {
    plugins, regulars := CollectLocal(v, path, seen);
    var len := LongestRemoteLength(path, v.remote);
    ghost var far := Longest(path, RemotePaths(v.remote));
    if len > 0 {
      var ps, rs := CollectRemote(v, path, seen, len, far);
      plugins, regulars := plugins + ps, regulars + rs;
    } else {
      NoRemoteMatch(v, v.remote, seen, true);
      NoRemoteMatch(v, v.remote, seen, false);
      assert plugins + [] == plugins && regulars + [] == regulars;
    }
  }

  lemma {:induction false} NoRemoteMatch(v: NodeView, ns: seq<RemoteNode>, seen: set<string>, plugin: bool)
    ensures RemoteCandidates(v, ns, "", seen, plugin) == []
  {
    if ns != [] {
      NoRemoteMatch(v, ns[..|ns| - 1], seen, plugin);
    }
  }

  // ---------- What a candidate is ----------

  /** The node itself with its summed local load, or a remote node not yet seen. */
  ghost predicate IsCandidate(v: NodeView, path: string, seen: set<string>, c: RemoteNode) {
    && Matches(path, c.nodePath) && c.nodePath != ""
    && c.servicePath == ""
    && c.states.Keys == {c.nodePath}
    && c.nodeID !in seen
    && ((c.nodeID == v.self && c.address == "127.0.0.1" && c.nodePath == Longest(path, HealthyLocalPaths(v.representatives)))
        || exists n :: n in v.remote && n.nodeID == c.nodeID && n.address == c.address && c.nodePath in n.states
                       && c.nodePath == Longest(path, RemotePaths(v.remote)))
  }

  lemma {:induction false} RemoteCandidatesSound(v: NodeView, ns: seq<RemoteNode>, path: string, seen: set<string>, plugin: bool, k: nat)
    requires forall n :: n in ns ==> n in v.remote
    requires k < |RemoteCandidates(v, ns, Longest(path, RemotePaths(v.remote)), seen, plugin)|
    ensures IsCandidate(v, path, seen, RemoteCandidates(v, ns, Longest(path, RemotePaths(v.remote)), seen, plugin)[k])
  {
    var best := Longest(path, RemotePaths(v.remote));
    var before := RemoteCandidates(v, ns[..|ns| - 1], best, seen, plugin);
    if k < |before| {
      RemoteCandidatesSound(v, ns[..|ns| - 1], path, seen, plugin, k);
    } else {
      assert ns[|ns| - 1] in v.remote;
    }
  }

  /** Every candidate names a node not yet seen, matches the request with one agreed
      path per side, and carries a single state. */
  lemma CandidatesSound(v: NodeView, path: string, seen: set<string>, plugin: bool, c: RemoteNode)
    requires c in Candidates(v, path, seen, plugin)
    ensures IsCandidate(v, path, seen, c)
  {
    var near := LocalCandidates(v, Longest(path, HealthyLocalPaths(v.representatives)), seen, plugin);
    var far := RemoteCandidates(v, v.remote, Longest(path, RemotePaths(v.remote)), seen, plugin);
    if c !in near {
      var k: nat :| k < |far| && far[k] == c;
      RemoteCandidatesSound(v, v.remote, path, seen, plugin, k);
    }
  }

  /** The sum over the healthy endpoints of what f counts. */
  function SumHealthy(eps: seq<LocalEndpoint>, f: LocalEndpoint -> int): int {
    if eps == [] then 0 else (if eps[0].healthy then f(eps[0]) else 0) + SumHealthy(eps[1..], f)
  }

  lemma {:induction false} SumHealthyAppend(eps: seq<LocalEndpoint>, ep: LocalEndpoint, f: LocalEndpoint -> int)
    ensures SumHealthy(eps + [ep], f) == SumHealthy(eps, f) + if ep.healthy then f(ep) else 0
  {
    if eps == [] {
      assert (eps + [ep])[1..] == [];
    } else {
      assert (eps + [ep])[1..] == eps[1..] + [ep];
      SumHealthyAppend(eps[1..], ep, f);
    }
  }

  /** The active requests and the queue length of an endpoint's pool. */
  function PoolActive(v: NodeView, best: string, ep: LocalEndpoint): int {
    if (best, ep.epID) in v.poolLoad then v.poolLoad[(best, ep.epID)].0 else 0
  }

  function PoolQueue(v: NodeView, best: string, ep: LocalEndpoint): int {
    if (best, ep.epID) in v.poolLoad then v.poolLoad[(best, ep.epID)].1 else 0
  }

  lemma {:induction false} LocalTotalsMean(v: NodeView, best: string, eps: seq<LocalEndpoint>)
    ensures var t := LocalTotals(v, best, eps);
            && t.active == SumHealthy(eps, ep => PoolActive(v, best, ep))
            && t.queueLen == SumHealthy(eps, ep => PoolQueue(v, best, ep))
            && t.maxConcurrent == SumHealthy(eps, (ep: LocalEndpoint) => ep.maxConcurrent)
            && (t.hasPlugin <==> exists ep :: ep in eps && ep.healthy && ep.plugin)
            && (t.hasRegular <==> exists ep :: ep in eps && ep.healthy && !ep.plugin)
  {
    if eps != [] {
      var init, last := eps[..|eps| - 1], eps[|eps| - 1];
      LocalTotalsMean(v, best, init);
      assert eps == init + [last];
      SumHealthyAppend(init, last, ep => PoolActive(v, best, ep));
      SumHealthyAppend(init, last, ep => PoolQueue(v, best, ep));
      SumHealthyAppend(init, last, (ep: LocalEndpoint) => ep.maxConcurrent);
      assert forall ep :: ep in eps <==> ep in init || ep == last;
    }
  }

  /** The local candidate carries the load of the pools of the path's healthy endpoints and the
      sum of their limits, and is a plugin when all of them are. */
  lemma LocalCandidateLoad(v: NodeView, best: string, seen: set<string>, plugin: bool, c: RemoteNode)
    requires c in LocalCandidates(v, best, seen, plugin)
    ensures var eps := if best in v.endpoints then v.endpoints[best] else [];
            && c.nodeID == v.self && c.address == "127.0.0.1" && c.nodePath == best && c.nodeID !in seen
            && c.states == map[best := EndpointState(
                                 SumHealthy(eps, ep => PoolActive(v, best, ep)),
                                 SumHealthy(eps, ep => PoolQueue(v, best, ep)), true,
                                 SumHealthy(eps, (ep: LocalEndpoint) => ep.maxConcurrent), plugin, 0, 0)]
            && (plugin <==> forall ep :: ep in eps && ep.healthy ==> ep.plugin)
  {
    var eps := if best in v.endpoints then v.endpoints[best] else [];
    LocalTotalsMean(v, best, eps);
    if forall ep :: ep in eps ==> !ep.healthy {
      NoHealthySum(eps);
    }
  }

  lemma {:induction false} NoHealthySum(eps: seq<LocalEndpoint>)
    requires forall ep :: ep in eps ==> !ep.healthy
    ensures SumHealthy(eps, (ep: LocalEndpoint) => ep.maxConcurrent) == 0
  {
    if eps != [] {
      NoHealthySum(eps[1..]);
    }
  }

  // ---------- What is found ----------

  /** The request lies at or below a path that ends in a slash, or is the path with at most one
      slash added. */
  predicate Under(request: string, nodePath: string) {
    if nodePath != "" && nodePath[|nodePath| - 1] == '/' then nodePath <= request + "/"
    else nodePath <= request <= nodePath + "/"
  }

  /** Each representative is one of the listed endpoints of its own path, and limits are at
      least one. */
  ghost predicate Represented(v: NodeView) {
    && (forall p :: p in v.representatives ==> v.representatives[p].nodePath == p && p in v.endpoints
                                               && v.representatives[p] in v.endpoints[p])
    && (forall p, ep :: p in v.endpoints && ep in v.endpoints[p] ==> ep.maxConcurrent >= 1)
  }

  /** Some healthy representative's path covers the request. */
  ghost predicate LocallyServed(v: NodeView, request: string) {
    exists p :: p in v.representatives && p != "" && v.representatives[p].healthy && Under(request, p)
  }

  /** An unseen remote node has a healthy state for a path that covers the request, and no
      remote node has a longer one. */
  ghost predicate RemotelyServed(v: NodeView, request: string, seen: set<string>) {
    exists n, p ::
      && n in v.remote && n.nodeID !in seen && p != "" && p in n.states && n.states[p].healthy && Under(request, p)
      && forall m, q :: m in v.remote && q in m.states && Under(request, q) ==> |q| <= |p|
  }

  lemma {:induction false} HealthyTotalPositive(v: NodeView, best: string, eps: seq<LocalEndpoint>)
    requires forall ep :: ep in eps ==> ep.maxConcurrent >= 1
    ensures LocalTotals(v, best, eps).maxConcurrent >= 0
    ensures LocalTotals(v, best, eps).maxConcurrent > 0 <==> exists ep :: ep in eps && ep.healthy
  {
    if eps != [] {
      var init, last := eps[..|eps| - 1], eps[|eps| - 1];
      HealthyTotalPositive(v, best, init);
      assert eps == init + [last];
    }
  }

  /** A node that serves the request and has not seen it is a candidate. */
  lemma LocallyServedIsFound(v: NodeView, request: string, seen: set<string>)
    requires Represented(v) && LocallyServed(v, request) && v.self !in seen
    ensures Candidates(v, request, seen, true) != [] || Candidates(v, request, seen, false) != []
  {
    var paths := HealthyLocalPaths(v.representatives);
    var best := Longest(request, paths);
    var p :| p in v.representatives && p != "" && v.representatives[p].healthy && Under(request, p);
    MatchesIff(request, p);
    assert v.representatives[p].nodePath in paths;
    assert best in paths;
    HealthyTotalPositive(v, best, v.endpoints[best]);
    var t := LocalTotals(v, best, v.endpoints[best]);
    assert LocalCandidates(v, best, seen, t.hasPlugin && !t.hasRegular) != [];
  }

  lemma {:induction false} ContributionKept(v: NodeView, ns: seq<RemoteNode>, best: string, seen: set<string>, plugin: bool, n: RemoteNode)
    requires n in ns && Contribution(v, n, best, seen, plugin) != []
    ensures RemoteCandidates(v, ns, best, seen, plugin) != []
  {
    if n != ns[|ns| - 1] {
      ContributionKept(v, ns[..|ns| - 1], best, seen, plugin, n);
    }
  }

  /** And so is an unseen remote node with the longest remote match. */
  lemma RemotelyServedIsFound(v: NodeView, request: string, seen: set<string>)
    requires RemotelyServed(v, request, seen)
    ensures Candidates(v, request, seen, true) != [] || Candidates(v, request, seen, false) != []
  {
    var paths := RemotePaths(v.remote);
    var n, p :| && n in v.remote && n.nodeID !in seen && p != "" && p in n.states && n.states[p].healthy && Under(request, p)
                && forall m, q :: m in v.remote && q in m.states && Under(request, q) ==> |q| <= |p|;
    MatchesIff(request, p);
    assert p in paths;
    forall q | q in paths && Matches(request, q) ensures |q| <= |p| {
      MatchesIff(request, q);
      var m :| m in v.remote && q in m.states;
    }
    LongestIsUnique(request, paths, p, Longest(request, paths));
    ContributionKept(v, v.remote, p, seen, IsPluginAt(n, p), n);
  }

  lemma {:induction false} TotalWithout(v: NodeView, best: string, eps: seq<LocalEndpoint>, j: nat)
    requires j < |eps|
    ensures LocalTotals(v, best, eps) == AddEndpoint(v, best, LocalTotals(v, best, eps[..j] + eps[j + 1..]), eps[j])
    decreases |eps|
  {
    var n := |eps| - 1;
    if j < n {
      var rest, shorter := eps[..j] + eps[j + 1..], eps[..n][..j] + eps[..n][j + 1..];
      TotalWithout(v, best, eps[..n], j);
      assert rest[..|rest| - 1] == shorter && rest[|rest| - 1] == eps[n];
      AddCommutes(v, best, LocalTotals(v, best, shorter), eps[j], eps[n]);
    } else {
      assert eps[..j] + eps[j + 1..] == eps[..n];
    }
  }

  lemma AddCommutes(v: NodeView, best: string, t: LocalTotal, x: LocalEndpoint, y: LocalEndpoint)
    ensures AddEndpoint(v, best, AddEndpoint(v, best, t, x), y) == AddEndpoint(v, best, AddEndpoint(v, best, t, y), x)
  {
  }

  lemma BagWithout(s: seq<LocalEndpoint>, j: nat)
    requires j < |s|
    ensures multiset(s[..j] + s[j + 1..]) == multiset(s) - multiset{s[j]}
  {
    assert s == s[..j] + ([s[j]] + s[j + 1..]);
  }

  /** The local candidate is the same in whatever order the endpoints of the path are listed. */
  lemma {:induction false} LocalTotalsAnyOrder(v: NodeView, best: string, a: seq<LocalEndpoint>, b: seq<LocalEndpoint>)
    requires multiset(a) == multiset(b)
    ensures LocalTotals(v, best, a) == LocalTotals(v, best, b)
    decreases |a|
  {
    if a == [] {
      assert |multiset(b)| == 0;
    } else {
      var n := |a| - 1;
      assert a[n] in multiset(b);
      var j :| 0 <= j < |b| && b[j] == a[n];
      BagWithout(a, n);
      BagWithout(b, j);
      assert a[..n] + a[n + 1..] == a[..n];
      LocalTotalsAnyOrder(v, best, a[..n], b[..j] + b[j + 1..]);
      TotalWithout(v, best, b, j);
    }
  }

  predicate HasID(n: RemoteNode, id: string) { n.nodeID == id }

  /** Over both lists, a node id is offered at most as often as it is listed: once,
      since the store keeps one node per id. */
  lemma {:induction false} OneCandidatePerNode(v: NodeView, ns: seq<RemoteNode>, best: string, seen: set<string>, id: string)
    ensures Count(RemoteCandidates(v, ns, best, seen, true), n => HasID(n, id))
          + Count(RemoteCandidates(v, ns, best, seen, false), n => HasID(n, id))
         <= Count(ns, n => HasID(n, id))
  {
    if ns != [] {
      var init, last := ns[..|ns| - 1], ns[|ns| - 1];
      OneCandidatePerNode(v, init, best, seen, id);
      CountAppend(RemoteCandidates(v, init, best, seen, true), Contribution(v, last, best, seen, true), n => HasID(n, id));
      CountAppend(RemoteCandidates(v, init, best, seen, false), Contribution(v, last, best, seen, false), n => HasID(n, id));
      CountAppend(init, [last], n => HasID(n, id));
      ContributionsOf(v, last, best, seen, id);
      assert ns == init + [last];
    }
  }

  lemma ContributionsOf(v: NodeView, n: RemoteNode, best: string, seen: set<string>, id: string)
    ensures Count(Contribution(v, n, best, seen, true), c => HasID(c, id)) + Count(Contribution(v, n, best, seen, false), c => HasID(c, id))
         <= Count([n], c => HasID(c, id))
  {
  }
}
