/** The admin handlers and the periodic sweep as methods over the registry and the pool
    manager (internal/admin/handlers.go, internal/admin/server.go, internal/pool/pool.go).
    Each performs exactly one event of AdminModel. */
module AdminServerObject {
  import opened Models
  import opened NestedMaps
  import opened PathRewrite
  import opened AdminModel
  import opened AdminGuarantees
  import opened LocalRegistryObjects

  class PoolManager {
    var pools: Pools

    constructor ()
      ensures pools == map[]
    {
      pools := map[];
    }

    /** CreatePool: an existing pool gets the new limit and target, otherwise one is made. */
    method CreatePool(path: string, epID: string, info: PoolInfo)
      modifies this
      ensures pools == Put(old(pools), path, epID, info)
    {
      if path !in pools {
        pools := pools[path := map[]];
      }
      if epID in pools[path] {
        var pool := pools[path][epID].(limit := info.limit, port := info.port, base := info.base);
        pools := pools[path := pools[path][epID := pool]];
      } else {
        pools := pools[path := pools[path][epID := info]];
      }
    }

    /** The loop of handlePostEndpoints: a pool for every endpoint whose port parses. */
    method CreatePools(rs: seq<Request>, ids: seq<string>)
      requires |ids| == |rs|
      modifies this
      ensures pools == CreateIn(old(pools), rs, ids)
    {
      for i := 0 to |rs|
        invariant pools == CreateIn(old(pools), rs[..i], ids[..i])
      {
        assert rs[..i + 1][..i] == rs[..i] && ids[..i + 1][..i] == ids[..i];
        var port := Atoi(ServicePort(rs[i].servicePath));
        if port.Some? {
          CreatePool(rs[i].nodePath, ids[i],
                     PoolInfo(port.value, ServiceBase(rs[i].servicePath), Limit(rs[i].maxConcurrent)));
        }
      }
      assert rs[..|rs|] == rs && ids[..|ids|] == ids;
    }

    method RemovePool(path: string, epID: string)
      requires NoEmptyInner(pools)
      modifies this
      ensures pools == Drop(old(pools), path, epID)
    {
      if path in pools {
        if epID in pools[path] {
          var sub := pools[path] - {epID};
          if |sub| == 0 {
            pools := pools - {path};
          } else {
            pools := pools[path := sub];
          }
        } else {
          assert pools[path] - {epID} == pools[path];
          assert |pools[path]| != 0;
        }
      }
    }

    /** The loop that follows a deletion or a sweep. */
    method RemovePools(keys: seq<(string, string)>)
      requires NoEmptyInner(pools)
      modifies this
      ensures pools == Without(old(pools), set key | key in keys)
    {
      for i := 0 to |keys|
        invariant NoEmptyInner(pools)
        invariant forall p, k :: Has(pools, p, k) <==> Has(old(pools), p, k) && (p, k) !in keys[..i]
        invariant forall p, k :: Has(pools, p, k) ==> At(pools, p, k) == At(old(pools), p, k)
      {
        assert keys[..i + 1] == keys[..i] + [keys[i]];
        HasDrop(pools, keys[i].0, keys[i].1);
        RemovePool(keys[i].0, keys[i].1);
      }
      assert keys[..|keys|] == keys;
      HasWithout(old(pools), set key | key in keys);
      Extensional(pools, Without(old(pools), set key | key in keys));
    }
  }

  datatype Answer = Done | BadRequest | PluginConflicts | Panicked

  class AdminServer {
    const registry: LocalRegistry
    const poolMgr: PoolManager
    ghost var issued: set<string>

    ghost function Value(): System
      reads this, registry.store, poolMgr
    {
      System(registry.store.endpoints, poolMgr.pools, issued)
    }

    ghost predicate Valid()
      reads this, registry, registry.store, poolMgr
    {
      WellFormed(Value()) && registry.Valid()
    }

    constructor ()
      ensures Valid() && Value() == EMPTY_SYSTEM && fresh(registry.store) && fresh(poolMgr)
    {
      registry := new LocalRegistry();
      poolMgr := new PoolManager();
      issued := {};
    }

    /** handlePostEndpoints. */
    method HandlePost(rs: seq<Request>, service: string, ids: seq<string>, now: int) returns (a: Answer)
      requires Valid() && FreshIds(Value(), Post(rs, service, ids, now))
      modifies this`issued, registry.store, poolMgr
      ensures Value() == Step(old(Value()), Post(rs, service, ids, now)) && Valid()
      ensures a.Done? <==> Accepted(old(Value()), Post(rs, service, ids, now))
      ensures a.BadRequest? <==>
                exists i :: 0 <= i < |rs| && (rs[i].servicePath == "" || rs[i].nodePath == ""
                                              || (rs[i].servicePath[|rs[i].servicePath| - 1] == '/') != (rs[i].nodePath[|rs[i].nodePath| - 1] == '/'))
      ensures a.Panicked? <==> rs == []
    {
      PostKeepsWellFormed(Value(), Post(rs, service, ids, now));
      ghost var given := set id | id in ids;
      forall i | 0 <= i < |rs|
        ensures ValidRequest(rs[i]) <==>
                  && rs[i].servicePath != "" && rs[i].nodePath != ""
                  && (rs[i].servicePath[|rs[i].servicePath| - 1] == '/' <==> rs[i].nodePath[|rs[i].nodePath| - 1] == '/')
      {
        ValidRequestIff(rs[i]);
      }
      for i := 0 to |rs|
        invariant forall j :: 0 <= j < i ==> ValidRequest(rs[j])
      {
        if !ValidRequest(rs[i]) {
          issued := issued + given;
          return BadRequest;
        }
      }
      var out := registry.RegisterEndpoints(rs, service, ids, now);
      issued := issued + given;
      match out {
        case Conflict => return PluginConflicts;
        case Crash => return Panicked;
        case Registered =>
      }
      poolMgr.CreatePools(rs, ids);
      return Done;
    }

    /** The pools a deletion will remove, collected before the endpoints go. */
    method CollectDoomed(sid: string, path: string) returns (keys: seq<(string, string)>)
      requires Valid()
      ensures (set key | key in keys) == KeysOf(registry.store.endpoints, Forget(sid, if path == "" then None else Some(path)))
    {
      ghost var c := Forget(sid, if path == "" then None else Some(path));
      ghost var s := registry.store.endpoints;
      var eps := registry.store.List();
      keys := [];
      for i := 0 to |eps|
        invariant forall p, k :: (p, k) in keys <==> Listed(eps[..i], p, k) && Removed(s, c, p, k)
      {
        var ep := eps[i];
        assert StoredIn(s, ep);
        ListedNext(eps[..i], ep);
        assert eps[..i + 1] == eps[..i] + [ep];
        if ep.serviceID == sid && (path == "" || ep.nodePath == path) {
          keys := keys + [(ep.nodePath, ep.epID)];
        }
      }
      assert eps[..|eps|] == eps;
      KeysOfMeans(Value(), c);
      SameKeys((set key | key in keys), KeysOf(s, c));
    }

    static lemma SameKeys(a: set<(string, string)>, b: set<(string, string)>)
      requires forall p, k :: (p, k) in a <==> (p, k) in b
      ensures a == b
    {
      forall key ensures key in a <==> key in b {
        assert key == (key.0, key.1);
      }
    }

    /** handleDeleteEndpoints. */
    method HandleDelete(service: string, path: string) returns (a: Answer)
      requires Valid()
      modifies registry.store, poolMgr
      ensures Value() == Step(old(Value()), Delete(service, path)) && Valid()
      ensures a == BadRequest ==> Value() == old(Value())
      ensures a == BadRequest <==> service == "" || QueryUnescape(service).None? || (path != "" && QueryUnescape(path).None?)
    {
      StepKeepsWellFormed(Value(), Delete(service, path));
      if service == "" {
        return BadRequest;
      }
      var sid := QueryUnescape(service);
      if sid.None? {
        return BadRequest;
      }
      var keys := CollectDoomed(sid.value, path);
      if path != "" {
        var decoded := QueryUnescape(path);
        if decoded.None? {
          return BadRequest;
        }
        var removed := registry.RemoveByServiceAndPath(sid.value, decoded.value);
      } else {
        var removed := registry.RemoveByServiceID(sid.value);
      }
      poolMgr.RemovePools(keys);
      return Done;
    }

    /** handleHeartbeat. */
    method HandleHeartbeat(service: string, healthy: bool, now: int) returns (a: Answer)
      requires Valid()
      modifies registry.store
      ensures Value() == Step(old(Value()), Heartbeat(service, healthy, now)) && Valid()
      ensures a.Done? <==> service != ""
    {
      StepKeepsWellFormed(Value(), Heartbeat(service, healthy, now));
      var ok := registry.UpdateHeartbeat(service, healthy, now);
      return if ok then Done else BadRequest;
    }

    /** The metrics callback of a pool. */
    method UpdateMetrics(path: string, epID: string, active: int, queueLen: int)
      requires Valid()
      modifies registry.store
      ensures Value() == Step(old(Value()), Metrics(path, epID, active, queueLen)) && Valid()
    {
      StepKeepsWellFormed(Value(), Metrics(path, epID, active, queueLen));
      registry.UpdateMetrics(path, epID, active, queueLen);
    }

    static method KeysOfList(eps: seq<LocalEndpoint>) returns (keys: seq<(string, string)>)
      ensures forall p, k :: (p, k) in keys <==> Listed(eps, p, k)
    {
      keys := [];
      for i := 0 to |eps|
        invariant forall p, k :: (p, k) in keys <==> Listed(eps[..i], p, k)
      {
        ListedNext(eps[..i], eps[i]);
        assert eps[..i + 1] == eps[..i] + [eps[i]];
        keys := keys + [(eps[i].nodePath, eps[i].epID)];
      }
      assert eps[..|eps|] == eps;
    }

    /** One tick of the periodic sweep: stale endpoints go, and their pools with them. */
    method SweepTick(now: int, timeout: int)
      requires Valid()
      modifies registry.store, poolMgr
      ensures Value() == Step(old(Value()), Sweep(now, timeout)) && Valid()
    {
      StepKeepsWellFormed(Value(), Sweep(now, timeout));
      ghost var s, c := registry.store.endpoints, Age(now, timeout);
      KeysOfMeans(Value(), c);
      var deleted := registry.CheckStaleEndpoints(now, timeout);
      var keys := KeysOfList(deleted);
      SameKeys((set key | key in keys), KeysOf(s, c));
      poolMgr.RemovePools(keys);
    }

    /** HandleLocalRequestByPath after its choice of a pool: as long as the tables agree, the
        endpoint of the pool is found. */
    method EndpointOfPool(path: string, epID: string) returns (r: Option<LocalEndpoint>)
      requires Valid() && Agree(registry.store.endpoints, poolMgr.pools)
      ensures Has(poolMgr.pools, path, epID) ==> r.Some? && r.value.epID == epID && r.value.nodePath == path
                                                 && HasPort(r.value.servicePath)
    {
      r := registry.store.GetByEpID(path, epID);
    }
  }
}
