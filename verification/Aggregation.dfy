/** AggregateLocalPathInfos (internal/registry/registry.go): what a node tells the others
    about its paths, summed over its endpoints in whatever order they are listed. */
module Aggregation {
  import opened Counting
  import opened Models
  import opened PoolProtocol
  import opened Routing

  datatype PathTotal = PathTotal(active: int, queueLen: int, healthy: bool, maxConcurrent: int, plugin: bool)

  /** The quantities that are summed; only healthy endpoints count for the last two. */
  datatype Field = ActiveRequests | QueueLength | HealthyLimit | HealthyEndpoints

  function Amount(f: Field, ep: LocalEndpoint): int {
    match f
    case ActiveRequests => ep.active
    case QueueLength => ep.queueLen
    case HealthyLimit => if ep.healthy then ep.maxConcurrent else 0
    case HealthyEndpoints => if ep.healthy then 1 else 0
  }

  function AmountAt(f: Field, path: string, ep: LocalEndpoint): int {
    if ep.nodePath == path then Amount(f, ep) else 0
  }

  /** The sum of a quantity over the endpoints of one path. */
  function SumAt(f: Field, path: string, eps: seq<LocalEndpoint>): int {
    if eps == [] then 0 else SumAt(f, path, eps[..|eps| - 1]) + AmountAt(f, path, eps[|eps| - 1])
  }

  function SumAll(f: Field, eps: seq<LocalEndpoint>): int {
    if eps == [] then 0 else SumAll(f, eps[..|eps| - 1]) + Amount(f, eps[|eps| - 1])
  }

  /** The plugin flag of the first listed endpoint of a path. */
  function FirstPlugin(path: string, eps: seq<LocalEndpoint>): bool {
    if eps == [] then false
    else if eps[0].nodePath == path then eps[0].plugin
    else FirstPlugin(path, eps[1..])
  }

  predicate Serves(eps: seq<LocalEndpoint>, path: string) {
    exists i :: 0 <= i < |eps| && eps[i].nodePath == path
  }

  function TotalAt(path: string, eps: seq<LocalEndpoint>): PathTotal {
    PathTotal(SumAt(ActiveRequests, path, eps), SumAt(QueueLength, path, eps), SumAt(HealthyEndpoints, path, eps) > 0,
              SumAt(HealthyLimit, path, eps), FirstPlugin(path, eps))
  }

  method AggregateLocalPathInfos(eps: seq<LocalEndpoint>) returns (result: map<string, PathTotal>)
    ensures forall path :: path in result <==> Serves(eps, path)
    ensures forall path :: path in result ==> result[path] == TotalAt(path, eps)
  {
    result := map[];
    for i := 0 to |eps|
      invariant forall path :: path in result <==> Serves(eps[..i], path)
      invariant forall path :: path in result ==> result[path] == TotalAt(path, eps[..i])
    {
      var ep := eps[i];
      ghost var before := eps[..i];
      assert eps[..i + 1] == before + [ep];
      NextTotals(before, ep);
      var agg := if ep.nodePath in result then result[ep.nodePath] else PathTotal(0, 0, false, 0, ep.plugin);
      if ep.healthy {
        agg := agg.(healthy := true, maxConcurrent := agg.maxConcurrent + ep.maxConcurrent);
      }
      agg := agg.(active := agg.active + ep.active, queueLen := agg.queueLen + ep.queueLen);
      result := result[ep.nodePath := agg];
    }
    assert eps[..|eps|] == eps;
  }

  /** How the totals change when one more endpoint is listed. */
  lemma NextTotals(before: seq<LocalEndpoint>, ep: LocalEndpoint)
    ensures forall path :: Serves(before + [ep], path) <==> Serves(before, path) || ep.nodePath == path
    ensures forall path :: path != ep.nodePath ==> TotalAt(path, before + [ep]) == TotalAt(path, before)
    ensures var base := if Serves(before, ep.nodePath) then TotalAt(ep.nodePath, before) else PathTotal(0, 0, false, 0, ep.plugin);
            TotalAt(ep.nodePath, before + [ep])
            == PathTotal(base.active + ep.active, base.queueLen + ep.queueLen, base.healthy || ep.healthy,
                         base.maxConcurrent + (if ep.healthy then ep.maxConcurrent else 0), base.plugin)
  {
    var after := before + [ep];
    forall path, f ensures SumAt(f, path, after) == SumAt(f, path, before) + AmountAt(f, path, ep) {
      assert after[..|before|] == before;
    }
    forall path ensures Serves(after, path) <==> Serves(before, path) || ep.nodePath == path {
      if i :| 0 <= i < |before| && before[i].nodePath == path {
        assert after[i].nodePath == path;
      }
      if ep.nodePath == path {
        assert after[|before|].nodePath == path;
      }
    }
    forall path
      ensures FirstPlugin(path, after) == if Serves(before, path) then FirstPlugin(path, before) else ep.nodePath == path && ep.plugin
    {
      FirstPluginNext(path, before, ep);
    }
    forall path | !Serves(before, path) ensures !FirstPlugin(path, before) {
      FirstPluginIsSome(path, before);
    }
    if !Serves(before, ep.nodePath) {
      NotServed(ep.nodePath, before);
    }
    HealthyCountNonNegative(ep.nodePath, before);
  }

  lemma {:induction false} FirstPluginNext(path: string, before: seq<LocalEndpoint>, ep: LocalEndpoint)
    ensures FirstPlugin(path, before + [ep])
         == if Serves(before, path) then FirstPlugin(path, before) else ep.nodePath == path && ep.plugin
  {
    if before == [] {
      assert (before + [ep])[1..] == [];
    } else {
      assert (before + [ep])[1..] == before[1..] + [ep];
      FirstPluginNext(path, before[1..], ep);
      if i :| 0 <= i < |before[1..]| && before[1..][i].nodePath == path {
        assert before[i + 1].nodePath == path;
      }
      if before[0].nodePath != path {
        if i :| 0 <= i < |before| && before[i].nodePath == path {
          assert before[1..][i - 1].nodePath == path;
        }
      }
    }
  }

  lemma {:induction false} NotServed(path: string, eps: seq<LocalEndpoint>)
    requires !Serves(eps, path)
    ensures forall f :: SumAt(f, path, eps) == 0
  {
    if eps != [] {
      var init := eps[..|eps| - 1];
      assert forall i :: 0 <= i < |init| ==> init[i] == eps[i];
      NotServed(path, init);
    }
  }

  lemma {:induction false} HealthyCountNonNegative(path: string, eps: seq<LocalEndpoint>)
    ensures SumAt(HealthyEndpoints, path, eps) >= 0
    ensures SumAt(HealthyEndpoints, path, eps) > 0 <==> exists i :: 0 <= i < |eps| && eps[i].nodePath == path && eps[i].healthy
  {
    if eps != [] {
      var init, last := eps[..|eps| - 1], eps[|eps| - 1];
      HealthyCountNonNegative(path, init);
      if i :| 0 <= i < |init| && init[i].nodePath == path && init[i].healthy {
        assert eps[i].nodePath == path && eps[i].healthy;
      }
      if i :| 0 <= i < |eps| && eps[i].nodePath == path && eps[i].healthy {
        assert i < |init| ==> init[i] == eps[i];
      }
    }
  }

  // ---------- The order of listing ----------

  lemma {:induction false} SumWithout(f: Field, path: string, eps: seq<LocalEndpoint>, j: nat)
    requires j < |eps|
    ensures SumAt(f, path, eps) == SumAt(f, path, eps[..j] + eps[j + 1..]) + AmountAt(f, path, eps[j])
    decreases |eps|
  {
    var n := |eps| - 1;
    if j < n {
      SumWithout(f, path, eps[..n], j);
      var rest := eps[..j] + eps[j + 1..];
      assert rest[..|rest| - 1] == eps[..n][..j] + eps[..n][j + 1..];
    } else {
      assert eps[..j] + eps[j + 1..] == eps[..n];
    }
  }

  lemma SameElement(a: seq<LocalEndpoint>, b: seq<LocalEndpoint>) returns (j: nat)
    requires multiset(a) == multiset(b) && a != []
    ensures j < |b| && b[j] == a[|a| - 1]
  {
    assert a[|a| - 1] in multiset(b);
    j :| j < |b| && b[j] == a[|a| - 1];
  }

  /** Active, queue length, limit and health do not depend on the order of listing. */
  lemma {:induction false} OrderDoesNotMatter(f: Field, path: string, a: seq<LocalEndpoint>, b: seq<LocalEndpoint>)
    requires multiset(a) == multiset(b)
    ensures SumAt(f, path, a) == SumAt(f, path, b)
    decreases |a|
  {
    if a == [] {
      assert |multiset(b)| == 0;
    } else {
      var n := |a| - 1;
      var j := SameElement(a, b);
      var rest := b[..j] + b[j + 1..];
      BagWithout(a, n);
      BagWithout(b, j);
      assert a[..n] + a[n + 1..] == a[..n];
      OrderDoesNotMatter(f, path, a[..n], rest);
      SumWithout(f, path, b, j);
    }
  }

  /** The plugin flag is independent of the order exactly when all endpoints of the path
      agree on it. */
  lemma PluginIndependentIff(path: string, eps: seq<LocalEndpoint>)
    ensures (forall b :: multiset(b) == multiset(eps) ==> FirstPlugin(path, b) == FirstPlugin(path, eps))
       <==> forall i, j :: 0 <= i < |eps| && 0 <= j < |eps| && eps[i].nodePath == path && eps[j].nodePath == path ==>
              eps[i].plugin == eps[j].plugin
  {
    if i, j :| 0 <= i < |eps| && 0 <= j < |eps| && eps[i].nodePath == path && eps[j].nodePath == path && eps[i].plugin != eps[j].plugin {
      OtherOrder(path, eps, if eps[i].plugin != FirstPlugin(path, eps) then i else j);
    } else {
      forall b | multiset(b) == multiset(eps) ensures FirstPlugin(path, b) == FirstPlugin(path, eps) {
        SameFlagSameFirst(path, eps, b);
      }
    }
  }

  lemma OtherOrder(path: string, eps: seq<LocalEndpoint>, k: nat)
    requires k < |eps| && eps[k].nodePath == path && eps[k].plugin != FirstPlugin(path, eps)
    ensures exists b :: multiset(b) == multiset(eps) && FirstPlugin(path, b) != FirstPlugin(path, eps)
  {
    var b := [eps[k]] + (eps[..k] + eps[k + 1..]);
    assert eps == eps[..k] + [eps[k]] + eps[k + 1..];
    assert multiset(b) == multiset(eps);
    assert FirstPlugin(path, b) == eps[k].plugin;
  }

  lemma SameFlagSameFirst(path: string, eps: seq<LocalEndpoint>, b: seq<LocalEndpoint>)
    requires multiset(b) == multiset(eps)
    requires forall i, j :: 0 <= i < |eps| && 0 <= j < |eps| && eps[i].nodePath == path && eps[j].nodePath == path ==>
               eps[i].plugin == eps[j].plugin
    ensures FirstPlugin(path, b) == FirstPlugin(path, eps)
  {
    FirstPluginIsSome(path, b);
    FirstPluginIsSome(path, eps);
    forall x ensures x in b <==> x in eps {
      assert x in b <==> x in multiset(b);
      assert x in eps <==> x in multiset(eps);
    }
  }

  lemma {:induction false} FirstPluginIsSome(path: string, eps: seq<LocalEndpoint>)
    ensures (exists x :: x in eps && x.nodePath == path && x.plugin == FirstPlugin(path, eps))
         || ((forall x :: x in eps ==> x.nodePath != path) && !FirstPlugin(path, eps))
  {
    if eps != [] {
      FirstPluginIsSome(path, eps[1..]);
      assert eps == [eps[0]] + eps[1..];
    }
  }

  // ---------- Conservation and meaning ----------

  function SumPaths(f: Field, paths: seq<string>, eps: seq<LocalEndpoint>): int {
    if paths == [] then 0 else SumPaths(f, paths[1..], eps) + SumAt(f, paths[0], eps)
  }

  predicate DistinctPaths(paths: seq<string>) {
    forall i, j :: 0 <= i < j < |paths| ==> paths[i] != paths[j]
  }

  lemma {:induction false} SumPathsNext(f: Field, paths: seq<string>, before: seq<LocalEndpoint>, ep: LocalEndpoint)
    requires DistinctPaths(paths)
    ensures SumPaths(f, paths, before + [ep]) == SumPaths(f, paths, before) + if ep.nodePath in paths then Amount(f, ep) else 0
  {
    if paths != [] {
      SumPathsNext(f, paths[1..], before, ep);
      assert (before + [ep])[..|before|] == before;
      assert paths == [paths[0]] + paths[1..];
      assert paths[0] !in paths[1..];
    }
  }

  /** Summed over the broadcast paths, each quantity is conserved. */
  lemma {:induction false} TotalsConserved(f: Field, paths: seq<string>, eps: seq<LocalEndpoint>)
    requires DistinctPaths(paths) && forall i :: 0 <= i < |eps| ==> eps[i].nodePath in paths
    ensures SumPaths(f, paths, eps) == SumAll(f, eps)
  {
    if eps == [] {
      EmptySums(f, paths);
    } else {
      var init, last := eps[..|eps| - 1], eps[|eps| - 1];
      TotalsConserved(f, paths, init);
      SumPathsNext(f, paths, init, last);
      assert init + [last] == eps;
    }
  }

  lemma {:induction false} EmptySums(f: Field, paths: seq<string>)
    ensures SumPaths(f, paths, []) == 0
  {
    if paths != [] {
      EmptySums(f, paths[1..]);
    }
  }

  /** Registered limits are at least one, so a positive broadcast limit means exactly that
      some endpoint of the path is healthy. */
  lemma {:induction false} LimitPositiveIffHealthy(path: string, eps: seq<LocalEndpoint>)
    requires forall i :: 0 <= i < |eps| ==> eps[i].maxConcurrent >= 1
    ensures TotalAt(path, eps).maxConcurrent >= SumAt(HealthyEndpoints, path, eps) >= 0
    ensures TotalAt(path, eps).maxConcurrent > 0 <==> TotalAt(path, eps).healthy
  {
    if eps != [] {
      LimitPositiveIffHealthy(path, eps[..|eps| - 1]);
    }
  }

  /** The router's own total for a path is the broadcast one. */
  lemma {:induction false} RouterTotalAgrees(v: NodeView, path: string, eps: seq<LocalEndpoint>)
    requires forall i :: 0 <= i < |eps| ==> eps[i].nodePath == path
    ensures LocalTotals(v, path, eps).maxConcurrent == TotalAt(path, eps).maxConcurrent
  {
    if eps != [] {
      RouterTotalAgrees(v, path, eps[..|eps| - 1]);
    }
  }

  // ---------- The two readings of a pool's load ----------

  /** The callback records activeCount and waitingCount at the endpoint; the router reads
      activeCount and the length of the queue. An endpoint without a pool has neither. */
  ghost predicate Reported(v: NodeView, path: string, ep: LocalEndpoint, pool: Option<Pool>) {
    && ep.nodePath == path
    && match pool
       case None => ep.active == 0 && ep.queueLen == 0 && (path, ep.epID) !in v.poolLoad
       case Some(p) =>
         && Inv(p) && ep.active == p.active && ep.queueLen == p.waiting
         && (path, ep.epID) in v.poolLoad && v.poolLoad[(path, ep.epID)] == (p.active, |p.queue|)
  }

  /** Requests that waitingCount includes and the queue does not hold: counted by a caller
      that has not queued them, or taken by a worker that has not lowered the count. */
  function InTransit(p: Pool): nat {
    Count(p.callers, CountedOutside) + Count(p.workers, StillWaiting)
  }

  /** What the broadcast adds for one endpoint to the router's active and queue length:
      the requests in transit of a healthy one, all the load of an unhealthy one. */
  function Surplus(ep: LocalEndpoint, pool: Option<Pool>): (int, int) {
    match pool
    case None => (0, 0)
    case Some(p) => if ep.healthy then (0, InTransit(p)) else (p.active, p.waiting)
  }

  function Surpluses(eps: seq<LocalEndpoint>, pools: seq<Option<Pool>>): (int, int)
    requires |eps| == |pools|
  {
    if eps == [] then (0, 0)
    else
      var n := |eps| - 1;
      var before, last := Surpluses(eps[..n], pools[..n]), Surplus(eps[n], pools[n]);
      (before.0 + last.0, before.1 + last.1)
  }

  /** The load broadcast for a path exceeds the load its own router judges it by, by exactly
      the surpluses of its endpoints: the requests in transit at the healthy ones and
      everything at the unhealthy ones. */
  lemma {:induction false} BroadcastExceedsRouter(v: NodeView, path: string, eps: seq<LocalEndpoint>, pools: seq<Option<Pool>>)
    requires |eps| == |pools| && forall i :: 0 <= i < |eps| ==> Reported(v, path, eps[i], pools[i])
    ensures TotalAt(path, eps).active == LocalTotals(v, path, eps).active + Surpluses(eps, pools).0
    ensures TotalAt(path, eps).queueLen == LocalTotals(v, path, eps).queueLen + Surpluses(eps, pools).1
    decreases |eps|
  {
    if eps != [] {
      var n := |eps| - 1;
      BroadcastExceedsRouter(v, path, eps[..n], pools[..n]);
      assert Reported(v, path, eps[n], pools[n]);
    }
  }

  /** With healthy endpoints only, both agree on the active requests, and on the queue
      exactly when no pool has a request in transit. */
  lemma {:induction false} HealthySurplus(eps: seq<LocalEndpoint>, pools: seq<Option<Pool>>)
    requires |eps| == |pools| && forall i :: 0 <= i < |eps| ==> eps[i].healthy
    ensures Surpluses(eps, pools).0 == 0 && Surpluses(eps, pools).1 >= 0
    ensures Surpluses(eps, pools).1 == 0 <==> forall i :: 0 <= i < |eps| && pools[i].Some? ==> InTransit(pools[i].value) == 0
    decreases |eps|
  {
    if eps != [] {
      var n := |eps| - 1;
      HealthySurplus(eps[..n], pools[..n]);
      assert forall i :: 0 <= i < n ==> pools[..n][i] == pools[i];
    }
  }
}
