/** selectPoolByLoad over the pools of one path (internal/business/forwarder/forwarder.go): what
    the choice looks at, and what it does not. */
module PoolChoice {
  import opened NestedMaps
  import opened AdminModel
  import opened AdminGuarantees
  import Balancer
  import LocalPick

  /** Active requests and queue length of each pool. */
  type Loads = map<(string, string), (int, int)>

  /** A pool of the path with its metrics. */
  function Metered(sys: System, load: Loads, path: string, k: string): Balancer.PoolLoad
    requires Has(sys.pools, path, k)
  {
    var m := if (path, k) in load then load[(path, k)] else (0, 0);
    Balancer.PoolLoad(k, m.0, m.1, At(sys.pools, path, k).limit)
  }

  /** Every pool of the path once, in any order. */
  ghost predicate Listing(sys: System, load: Loads, path: string, ps: seq<Balancer.PoolLoad>) {
    && (forall i :: 0 <= i < |ps| ==> Has(sys.pools, path, ps[i].epID) && ps[i] == Metered(sys, load, path, ps[i].epID))
    && (forall k :: Has(sys.pools, path, k) ==> Metered(sys, load, path, k) in ps)
    && (forall i, j :: 0 <= i < j < |ps| ==> ps[i].epID != ps[j].epID)
  }

  method GetPoolsByPath(sys: System, load: Loads, path: string) returns (ps: seq<Balancer.PoolLoad>)
    ensures Listing(sys, load, path, ps)
  {
    ps := [];
    if path in sys.pools {
      var left := sys.pools[path].Keys;
      while left != {}
        invariant left <= sys.pools[path].Keys
        invariant forall i :: 0 <= i < |ps| ==>
                    Has(sys.pools, path, ps[i].epID) && ps[i].epID !in left && ps[i] == Metered(sys, load, path, ps[i].epID)
        invariant forall k :: Has(sys.pools, path, k) && k !in left ==> Metered(sys, load, path, k) in ps
        invariant forall i, j :: 0 <= i < j < |ps| ==> ps[i].epID != ps[j].epID
        decreases |left|
      {
        var k :| k in left;
        left := left - {k};
        ps := ps + [Metered(sys, load, path, k)];
      }
    }
  }

  /** selectPoolByLoad on a listing. */
  function Choose(ps: seq<Balancer.PoolLoad>, draw: nat): Balancer.Choice {
    Balancer.SelectPool(Balancer.Loads(ps), Balancer.Limits(ps), draw)
  }

  /** With these loads, listing and draw the choice falls on pool k. */
  ghost predicate Selects(sys: System, load: Loads, path: string, ps: seq<Balancer.PoolLoad>, draw: nat, k: string) {
    Listing(sys, load, path, ps) && var c := Choose(ps, draw); c.Selected? && c.index < |ps| && ps[c.index].epID == k
  }

  /** With these loads the choice can panic. */
  ghost predicate CanFail(sys: System, load: Loads, path: string) {
    exists ps, draw: nat :: Listing(sys, load, path, ps) && Choose(ps, draw).Panics?
  }

  /** No pool of the path is less loaded than this one by more than 0.001. */
  ghost predicate LeastLoaded(sys: System, load: Loads, path: string, k: string) {
    && Has(sys.pools, path, k)
    && forall j :: Has(sys.pools, path, j) ==>
         Balancer.Load(Metered(sys, load, path, k)) <= Balancer.Load(Metered(sys, load, path, j)) + 0.001
  }

  /** In the metrics themselves: the requests of pool k, active and queued, are no more per unit
      of its limit than those of pool j, up to a thousandth. */
  predicate NotAbove(sys: System, load: Loads, path: string, k: string, j: string) {
    Has(sys.pools, path, k) && Has(sys.pools, path, j) && (path, k) in load && (path, j) in load
    && At(sys.pools, path, k).limit >= 1 && At(sys.pools, path, j).limit >= 1 ==>
      WithinThousandth(load[(path, k)].0 + load[(path, k)].1, At(sys.pools, path, k).limit,
                       load[(path, j)].0 + load[(path, j)].1, At(sys.pools, path, j).limit)
  }

  /** a requests per b are at most c per d and a thousandth, without division. */
  predicate WithinThousandth(a: int, b: int, c: int, d: int) {
    1000 * a * d <= 1000 * c * b + b * d
  }

  lemma LeastIsNotAbove(sys: System, load: Loads, path: string, k: string, j: string)
    requires LeastLoaded(sys, load, path, k)
    ensures NotAbove(sys, load, path, k, j)
  {
    if Has(sys.pools, path, j) && At(sys.pools, path, k).limit >= 1 && At(sys.pools, path, j).limit >= 1 {
      Balancer.LoadsCompared(Metered(sys, load, path, k), Metered(sys, load, path, j));
    }
  }

  lemma SelectedIsLeast(sys: System, load: Loads, path: string, ps: seq<Balancer.PoolLoad>, draw: nat, k: string)
    requires Selects(sys, load, path, ps, draw, k)
    ensures LeastLoaded(sys, load, path, k)
  {
    var c, loads := Choose(ps, draw), Balancer.Loads(ps);
    Balancer.SelectPoolLeastLoaded(loads, Balancer.Limits(ps), draw);
    forall j | Has(sys.pools, path, j)
      ensures Balancer.Load(Metered(sys, load, path, k)) <= Balancer.Load(Metered(sys, load, path, j)) + 0.001
    {
      var i :| 0 <= i < |ps| && ps[i] == Metered(sys, load, path, j);
      assert loads[c.index] <= loads[i] + 0.001;
    }
  }

  lemma EmptyListing(sys: System, load: Loads, path: string, ps: seq<Balancer.PoolLoad>)
    requires NoEmptyInner(sys.pools) && Listing(sys, load, path, ps)
    ensures ps == [] <==> path !in sys.pools
  {
    if ps != [] {
      assert Has(sys.pools, path, ps[0].epID);
    }
    if path in sys.pools {
      NonEmptyHas(sys.pools, path);
    }
  }

  method SelectPool(sys: System, load: Loads, path: string, draw: nat) returns (c: Balancer.Choice, epID: string)
    requires NoEmptyInner(sys.pools)
    ensures c.Nobody? <==> path !in sys.pools
    ensures c.Panics? ==> CanFail(sys, load, path)
    ensures c.Selected? ==> LeastLoaded(sys, load, path, epID)
    ensures c.Selected? ==> forall j :: Has(sys.pools, path, j) ==> NotAbove(sys, load, path, epID, j)
  {
    var ps := GetPoolsByPath(sys, load, path);
    c := Balancer.SelectPoolByLoad(ps, draw);
    epID := "";
    EmptyListing(sys, load, path, ps);
    if ps != [] {
      Balancer.SelectPoolLeastLoaded(Balancer.Loads(ps), Balancer.Limits(ps), draw);
      assert c == Choose(ps, draw);
      if c.Selected? {
        epID := ps[c.index].epID;
        SelectedIsLeast(sys, load, path, ps, draw, epID);
        forall j | Has(sys.pools, path, j) ensures NotAbove(sys, load, path, epID, j) {
          LeastIsNotAbove(sys, load, path, epID, j);
        }
      }
    }
  }

  // ---------- How often each pool is chosen ----------

  /** What the limits of the pools within 0.001 of the least load add up to. */
  function NearLimits(ps: seq<Balancer.PoolLoad>): int
    requires ps != []
  {
    Balancer.WeightNear(Balancer.Loads(ps), Balancer.Limits(ps), Balancer.PoolCut(Balancer.MinOf(Balancer.Loads(ps))))
  }

  /** With several pools, each pool that no other undercuts by more than 0.001 is selected by
      exactly its limit of the draws below that sum, as long as the sum fits int32; any other
      pool by none. */
  lemma SelectedByLimit(sys: System, load: Loads, path: string, ps: seq<Balancer.PoolLoad>, i: nat)
    requires Listing(sys, load, path, ps) && |ps| > 1 && NearLimits(ps) <= Balancer.MAX_INT32
    requires i < |ps| && At(sys.pools, path, ps[i].epID).limit >= 1
    ensures |Balancer.PoolWins(Balancer.Loads(ps), Balancer.Limits(ps), i)|
         == if LeastLoaded(sys, load, path, ps[i].epID) then At(sys.pools, path, ps[i].epID).limit else 0
  {
    Balancer.PoolShare(Balancer.Loads(ps), Balancer.Limits(ps), i);
    NearIsLeast(sys, load, path, ps, i);
  }

  lemma NearIsLeast(sys: System, load: Loads, path: string, ps: seq<Balancer.PoolLoad>, i: nat)
    requires Listing(sys, load, path, ps) && i < |ps|
    ensures Balancer.Loads(ps)[i] <= Balancer.MinOf(Balancer.Loads(ps)) + 0.001 <==> LeastLoaded(sys, load, path, ps[i].epID)
  {
    var loads := Balancer.Loads(ps);
    Balancer.MinOfIsMin(loads);
    if loads[i] <= Balancer.MinOf(loads) + 0.001 {
      forall j | Has(sys.pools, path, j)
        ensures Balancer.Load(ps[i]) <= Balancer.Load(Metered(sys, load, path, j)) + 0.001
      {
        var n :| 0 <= n < |ps| && ps[n] == Metered(sys, load, path, j);
        assert Balancer.MinOf(loads) <= loads[n];
      }
    }
    if LeastLoaded(sys, load, path, ps[i].epID) {
      var m :| 0 <= m < |loads| && loads[m] == Balancer.MinOf(loads);
      assert Has(sys.pools, path, ps[m].epID);
    }
  }

  // ---------- Health plays no part ----------

  /** Some loads, listing and draw lead to pool k. */
  ghost predicate CanSelect(sys: System, path: string, k: string) {
    exists load, ps, draw: nat :: Selects(sys, load, path, ps, draw, k)
  }

  /** Pool k is idle and every other pool of the path is busy up to its limit. */
  ghost function Favouring(sys: System, path: string, k: string): Loads
    requires Has(sys.pools, path, k)
  {
    var keys := set j | j in sys.pools[path] :: (path, j);
    map key | key in keys ::
      (if key.1 == k then (0, 0) else (Balancer.Limit(Balancer.PoolLoad(key.1, 0, 0, sys.pools[path][key.1].limit)), 0))
  }

  lemma SameOverSame(x: real)
    requires x > 0.0
    ensures x / x == 1.0 && 0.0 / x == 0.0
  {
  }

  lemma FavouringLoads(sys: System, path: string, k: string, j: string)
    requires Has(sys.pools, path, k) && Has(sys.pools, path, j)
    ensures Balancer.Load(Metered(sys, Favouring(sys, path, k), path, j)) == if j == k then 0.0 else 1.0
  {
    var load := Favouring(sys, path, k);
    assert (path, j) in load;
    var p := Metered(sys, load, path, j);
    assert p.active + p.queueLen == if j == k then 0 else Balancer.Limit(p);
    SameOverSame(Balancer.Limit(p) as real);
  }

  lemma {:induction false} ListKeys(sys: System, load: Loads, path: string, keys: set<string>) returns (ps: seq<Balancer.PoolLoad>)
    requires forall k :: k in keys ==> Has(sys.pools, path, k)
    ensures forall i :: 0 <= i < |ps| ==> ps[i].epID in keys && ps[i] == Metered(sys, load, path, ps[i].epID)
    ensures forall k :: k in keys ==> Metered(sys, load, path, k) in ps
    ensures forall i, j :: 0 <= i < j < |ps| ==> ps[i].epID != ps[j].epID
    decreases |keys|
  {
    if keys == {} {
      ps := [];
    } else {
      var k :| k in keys;
      ps := ListKeys(sys, load, path, keys - {k});
      ps := ps + [Metered(sys, load, path, k)];
    }
  }

  lemma ListingExists(sys: System, load: Loads, path: string) returns (ps: seq<Balancer.PoolLoad>)
    ensures Listing(sys, load, path, ps)
  {
    ps := ListKeys(sys, load, path, if path in sys.pools then sys.pools[path].Keys else {});
  }

  lemma {:induction false} NearOnly(xs: seq<real>, cut: real, i: nat)
    requires i < |xs| && xs[i] <= cut && forall j :: 0 <= j < |xs| && j != i ==> cut < xs[j]
    ensures Balancer.Near(xs, cut) == [i]
  {
    var n := |xs| - 1;
    if i == n {
      Balancer.NearNone(xs[..n], cut);
    } else {
      NearOnly(xs[..n], cut, i);
    }
  }

  lemma FavouredIsSelected(sys: System, path: string, k: string, ps: seq<Balancer.PoolLoad>, draw: nat)
    requires Has(sys.pools, path, k) && Listing(sys, Favouring(sys, path, k), path, ps)
    ensures Selects(sys, Favouring(sys, path, k), path, ps, draw, k)
  {
    var load, xs := Favouring(sys, path, k), Balancer.Loads(ps);
    var i: nat :| i < |ps| && ps[i] == Metered(sys, load, path, k);
    forall j | 0 <= j < |ps| ensures xs[j] == if j == i then 0.0 else 1.0 {
      FavouringLoads(sys, path, k, ps[j].epID);
    }
    IdleIsChosen(xs, Balancer.Limits(ps), draw, i);
  }

  lemma IdleIsChosen(xs: seq<real>, limits: seq<int>, draw: nat, i: nat)
    requires i < |xs| == |limits| && forall j :: 0 <= j < |xs| ==> xs[j] == if j == i then 0.0 else 1.0
    ensures Balancer.SelectPool(xs, limits, draw) == Balancer.Selected(i)
  {
    Balancer.MinOfIsMin(xs);
    assert Balancer.MinOf(xs) <= xs[i];
    NearOnly(xs, Balancer.PoolCut(Balancer.MinOf(xs)), i);
  }

  /** Any pool of the path can be chosen, and nothing else. */
  lemma CanSelectIff(sys: System, path: string, k: string)
    ensures CanSelect(sys, path, k) <==> Has(sys.pools, path, k)
  {
    if Has(sys.pools, path, k) {
      var ps := ListingExists(sys, Favouring(sys, path, k), path);
      FavouredIsSelected(sys, path, k, ps, 0);
    }
  }

  ghost predicate Unhealthy(eps: Endpoints, path: string, k: string) {
    Has(eps, path, k) && !At(eps, path, k).healthy
  }

  /** The choice ignores health: some loads send a request to an unhealthy endpoint if and
      only if the path has an unhealthy endpoint with a port. */
  lemma UnhealthyIsServedIff(sys: System, path: string)
    requires Agree(sys.eps, sys.pools)
    ensures (exists k :: CanSelect(sys, path, k) && Unhealthy(sys.eps, path, k))
       <==> exists k :: Pooled(sys.eps, path, k) && Unhealthy(sys.eps, path, k)
  {
    if k :| CanSelect(sys, path, k) && Unhealthy(sys.eps, path, k) {
      CanSelectIff(sys, path, k);
      assert Pooled(sys.eps, path, k);
    }
    if k :| Pooled(sys.eps, path, k) && Unhealthy(sys.eps, path, k) {
      assert Has(sys.pools, path, k);
      CanSelectIff(sys, path, k);
    }
  }

  /** Two services under "/p", one of which reports itself unhealthy: the path is live, and
      requests for it can go to that one. */
  lemma UnhealthyIsServed() returns (h: seq<Event>, sys: System)
    ensures h == TWO_SERVICES + [Heartbeat("s", false, 2)] && Runs(EMPTY_SYSTEM, h) && sys == After(EMPTY_SYSTEM, h)
    ensures "/p" in LocalPick.LivePaths(sys.eps) && Unhealthy(sys.eps, "/p", "x") && CanSelect(sys, "/p", "x")
  {
    var beat := Heartbeat("s", false, 2);
    h := TWO_SERVICES + [beat];
    TwoServices();
    RunsSnoc(EMPTY_SYSTEM, TWO_SERVICES, beat);
    sys := After(EMPTY_SYSTEM, h);
    var before := After(EMPTY_SYSTEM, TWO_SERVICES);
    UpdateAt(before.eps, Beat("s", false, 2), "/p", "x");
    UpdateAt(before.eps, Beat("s", false, 2), "/p", "y");
    assert "/p" in sys.eps && "y" in sys.eps["/p"] && sys.eps["/p"]["y"].healthy;
    CanSelectIff(sys, "/p", "x");
  }
}
