/** The endpoint store and the local registry as objects: two-level maps changed in place by
    loops over a listing taken beforehand (internal/models/endpoint.go,
    internal/registry/local/local.go). */
module LocalRegistryObjects {
  import opened Models
  import opened NestedMaps
  import opened AdminModel
  import Balancer

  ghost predicate OwnKeys(s: Endpoints) {
    forall p, k :: Has(s, p, k) ==> At(s, p, k).nodePath == p && At(s, p, k).epID == k
  }

  ghost predicate Listed(eps: seq<LocalEndpoint>, p: string, k: string) {
    exists i :: 0 <= i < |eps| && eps[i].nodePath == p && eps[i].epID == k
  }

  lemma ListedNext(eps: seq<LocalEndpoint>, ep: LocalEndpoint)
    ensures forall p, k :: Listed(eps + [ep], p, k) <==> Listed(eps, p, k) || (p == ep.nodePath && k == ep.epID)
  {
    forall p, k ensures Listed(eps + [ep], p, k) <==> Listed(eps, p, k) || (p == ep.nodePath && k == ep.epID) {
      if i :| 0 <= i < |eps| && eps[i].nodePath == p && eps[i].epID == k {
        assert (eps + [ep])[i] == eps[i];
      }
      if p == ep.nodePath && k == ep.epID {
        assert (eps + [ep])[|eps|] == ep;
      }
    }
  }

  ghost predicate DistinctKeys(eps: seq<LocalEndpoint>) {
    forall i, j :: 0 <= i < j < |eps| ==> eps[i].nodePath != eps[j].nodePath || eps[i].epID != eps[j].epID
  }

  /** A listing names every stored endpoint once. */
  ghost predicate Lists(s: Endpoints, eps: seq<LocalEndpoint>) {
    && (forall p, k :: Listed(eps, p, k) <==> Has(s, p, k))
    && AllStored(s, eps)
    && DistinctKeys(eps)
  }

  ghost predicate AllStored(s: Endpoints, eps: seq<LocalEndpoint>) {
    forall i :: 0 <= i < |eps| ==> StoredIn(s, eps[i])
  }

  ghost predicate StoredIn(s: Endpoints, ep: LocalEndpoint) {
    Has(s, ep.nodePath, ep.epID) && At(s, ep.nodePath, ep.epID) == ep
  }

  // ---------- Changing a store along a listing ----------

  /** `cur` is `s` with change c applied to the endpoints named in `done`, and to no other. */
  ghost predicate Progress(s: Endpoints, cur: Endpoints, c: Change, done: seq<LocalEndpoint>) {
    && NoEmptyInner(cur)
    && (forall p, k :: Has(cur, p, k) <==> Has(s, p, k) && (Listed(done, p, k) ==> Changed(c, At(s, p, k)).Some?))
    && (forall p, k :: Has(cur, p, k) ==>
          At(cur, p, k) == if Listed(done, p, k) then Changed(c, At(s, p, k)).value else At(s, p, k))
  }

  /** Handling the next listed endpoint: it is dropped, or its changed value is stored. */
  lemma ProgressNext(s: Endpoints, cur: Endpoints, c: Change, done: seq<LocalEndpoint>, ep: LocalEndpoint, next: Endpoints)
    requires Progress(s, cur, c, done)
    requires StoredIn(s, ep) && !Listed(done, ep.nodePath, ep.epID)
    requires match Changed(c, ep)
             case None => next == Drop(cur, ep.nodePath, ep.epID)
             case Some(v) => next == Put(cur, ep.nodePath, ep.epID, v)
    ensures Progress(s, next, c, done + [ep])
  {
    ListedNext(done, ep);
    match Changed(c, ep) {
      case None => HasDrop(cur, ep.nodePath, ep.epID);
      case Some(v) => HasPut(cur, ep.nodePath, ep.epID, v);
    }
  }

  /** An endpoint the change leaves as it is need not be written. */
  lemma ProgressSkip(s: Endpoints, cur: Endpoints, c: Change, done: seq<LocalEndpoint>, ep: LocalEndpoint)
    requires Progress(s, cur, c, done)
    requires StoredIn(s, ep) && !Listed(done, ep.nodePath, ep.epID)
    requires Changed(c, ep) == Some(ep)
    ensures Progress(s, cur, c, done + [ep])
  {
    ListedNext(done, ep);
  }

  lemma ProgressEnd(s: Endpoints, cur: Endpoints, c: Change, eps: seq<LocalEndpoint>)
    requires Progress(s, cur, c, eps) && Lists(s, eps)
    ensures cur == Update(s, c)
  {
    HasUpdate(s, c);
    Extensional(cur, Update(s, c));
  }

  lemma ProgressStart(s: Endpoints, c: Change)
    requires NoEmptyInner(s)
    ensures Progress(s, s, c, [])
  {
  }

  lemma NotYetListed(eps: seq<LocalEndpoint>, i: nat)
    requires DistinctKeys(eps) && i < |eps|
    ensures !Listed(eps[..i], eps[i].nodePath, eps[i].epID)
  {
  }

  class LocalEndpointStore {
    var endpoints: Endpoints

    constructor ()
      ensures endpoints == map[]
    {
      endpoints := map[];
    }

    method Set(path: string, ep: LocalEndpoint)
      modifies this
      ensures endpoints == Put(old(endpoints), path, ep.epID, ep)
    {
      if path !in endpoints {
        endpoints := endpoints[path := map[]];
      }
      endpoints := endpoints[path := endpoints[path][ep.epID := ep]];
    }

    method DeleteByEpID(path: string, epID: string)
      modifies this
      ensures endpoints == Drop(old(endpoints), path, epID)
    {
      if path in endpoints {
        var sub := endpoints[path] - {epID};
        if |sub| == 0 {
          endpoints := endpoints - {path};
        } else {
          endpoints := endpoints[path := sub];
        }
      }
    }

    /** GetByEpID: searches the inner map for an endpoint that carries the id. */
    method GetByEpID(path: string, epID: string) returns (r: Option<LocalEndpoint>)
      requires OwnKeys(endpoints)
      ensures r == if Has(endpoints, path, epID) then Some(At(endpoints, path, epID)) else None
    {
      if path in endpoints {
        var sub := endpoints[path];
        var left := sub.Keys;
        while left != {}
          invariant left <= sub.Keys
          invariant epID in sub ==> epID in left
          decreases |left|
        {
          var k :| k in left;
          left := left - {k};
          assert Has(endpoints, path, k);
          if sub[k].epID == epID {
            return Some(sub[k]);
          }
        }
      }
      return None;
    }

    /** GetByServiceID: any endpoint of the service under the path. */
    method GetByServiceID(path: string, service: string) returns (r: Option<LocalEndpoint>)
      ensures r.None? <==> forall k :: Has(endpoints, path, k) ==> At(endpoints, path, k).serviceID != service
      ensures r.Some? ==> exists k :: Has(endpoints, path, k) && At(endpoints, path, k) == r.value && r.value.serviceID == service
    {
      if path in endpoints {
        var sub := endpoints[path];
        var left := sub.Keys;
        while left != {}
          invariant left <= sub.Keys
          invariant forall k :: k in sub && k !in left ==> sub[k].serviceID != service
          decreases |left|
        {
          var k :| k in left;
          left := left - {k};
          if sub[k].serviceID == service {
            assert Has(endpoints, path, k);
            return Some(sub[k]);
          }
        }
        assert forall k :: Has(endpoints, path, k) ==> k in sub;
      }
      return None;
    }

    /** DeleteByServiceID: the service's endpoints under one path. */
    method DeleteByServiceID(path: string, service: string)
      requires NoEmptyInner(endpoints) && OwnKeys(endpoints)
      modifies this
      ensures endpoints == Update(old(endpoints), Forget(service, Some(path)))
    {
      ghost var s := endpoints;
      if path in endpoints {
        var sub := endpoints[path];
        var kept := sub;
        var left := sub.Keys;
        while left != {}
          invariant left <= sub.Keys && endpoints == s
          invariant forall k :: k in kept <==> k in sub && (k in left || sub[k].serviceID != service)
          invariant forall k :: k in kept ==> kept[k] == sub[k]
          decreases |left|
        {
          var k :| k in left;
          left := left - {k};
          if sub[k].serviceID == service {
            kept := kept - {k};
          }
        }
        if |kept| == 0 {
          endpoints := endpoints - {path};
        } else {
          endpoints := endpoints[path := kept];
        }
        HasWithInner(s, path, kept);
      }
      HasUpdate(s, Forget(service, Some(path)));
      Extensional(endpoints, Update(s, Forget(service, Some(path))));
    }

    /** GetAll: for each path whichever of its endpoints is visited last. */
    method GetAll() returns (reps: map<string, LocalEndpoint>)
      requires NoEmptyInner(endpoints)
      ensures IsPick(endpoints, reps)
    {
      reps := map[];
      var paths := endpoints.Keys;
      while paths != {}
        invariant paths <= endpoints.Keys
        invariant forall p :: p in reps <==> p in endpoints && p !in paths
        invariant forall p :: p in reps ==> EntryOf(endpoints, p, reps[p])
        decreases |paths|
      {
        var path :| path in paths;
        paths := paths - {path};
        var last := LastOf(path);
        reps := reps[path := last];
      }
    }

    method LastOf(path: string) returns (last: LocalEndpoint)
      requires path in endpoints && endpoints[path] != map[]
      ensures EntryOf(endpoints, path, last)
    {
      NonEmptyHas(endpoints, path);
      var first :| first in endpoints[path];
      last := endpoints[path][first];
      assert Has(endpoints, path, first);
      var left := endpoints[path].Keys - {first};
      while left != {}
        invariant left <= endpoints[path].Keys
        invariant EntryOf(endpoints, path, last)
        decreases |left|
      {
        var k :| k in left;
        left := left - {k};
        assert Has(endpoints, path, k);
        last := endpoints[path][k];
      }
    }

    /** List: every endpoint once, in any order. */
    method List() returns (eps: seq<LocalEndpoint>)
      requires OwnKeys(endpoints)
      ensures Lists(endpoints, eps)
    {
      eps := [];
      var paths := endpoints.Keys;
      while paths != {}
        invariant paths <= endpoints.Keys
        invariant forall p, k :: Listed(eps, p, k) <==> Has(endpoints, p, k) && p !in paths
        invariant AllStored(endpoints, eps)
        invariant DistinctKeys(eps)
        decreases |paths|
      {
        var path :| path in paths;
        eps := ListInner(eps, path);
        paths := paths - {path};
      }
    }

    method ListInner(before: seq<LocalEndpoint>, path: string) returns (eps: seq<LocalEndpoint>)
      requires OwnKeys(endpoints) && path in endpoints && DistinctKeys(before)
      requires forall k :: !Listed(before, path, k)
      requires AllStored(endpoints, before)
      ensures forall p, k :: Listed(eps, p, k) <==> Listed(before, p, k) || (p == path && k in endpoints[path])
      ensures AllStored(endpoints, eps)
      ensures DistinctKeys(eps)
    {
      eps := before;
      var left := endpoints[path].Keys;
      while left != {}
        invariant left <= endpoints[path].Keys
        invariant forall p, k :: Listed(eps, p, k) <==> Listed(before, p, k) || (p == path && k in endpoints[path] && k !in left)
        invariant AllStored(endpoints, eps)
        invariant DistinctKeys(eps)
        decreases |left|
      {
        var k :| k in left;
        left := left - {k};
        var ep := endpoints[path][k];
        assert Has(endpoints, path, k) && At(endpoints, path, k) == ep;
        assert !Listed(eps, path, k);
        ListedNext(eps, ep);
        eps := eps + [ep];
      }
    }
  }

  datatype Registration = Registered | Conflict | Crash

  class LocalRegistry {
    const store: LocalEndpointStore

    constructor ()
      ensures fresh(store) && store.endpoints == map[]
    {
      store := new LocalEndpointStore();
    }

    ghost predicate Valid()
      reads this, store
    {
      NoEmptyInner(store.endpoints) && OwnKeys(store.endpoints)
    }

    /** RegisterEndpoints: nothing is stored unless the whole batch passes the plugin check;
        an empty batch indexes past the end and crashes. */
    method RegisterEndpoints(rs: seq<Request>, service: string, ids: seq<string>, now: int) returns (out: Registration)
      requires Valid() && |ids| == |rs|
      modifies store
      ensures out.Conflict? <==> old(PluginConflict(store.endpoints, rs))
      ensures out.Crash? ==> rs == []
      ensures out.Registered? ==> rs != []
      ensures store.endpoints == if out.Registered? then RegisterIn(old(store.endpoints), rs, service, ids, now)
                                 else old(store.endpoints)
    {
      var conflict := CheckPlugins(rs);
      if conflict {
        return Conflict;
      }
      for i := 0 to |rs|
        invariant store.endpoints == RegisterIn(old(store.endpoints), rs[..i], service, ids[..i], now)
      {
        assert rs[..i + 1][..i] == rs[..i] && ids[..i + 1][..i] == ids[..i];
        var limit := Balancer.Wrap32(rs[i].maxConcurrent);
        if limit < 1 {
          limit := 1;
        }
        store.Set(rs[i].nodePath, LocalEndpoint(service, ids[i], rs[i].servicePath, rs[i].nodePath, true, now, 0, 0, limit, rs[i].plugin));
      }
      assert rs[..|rs|] == rs && ids[..|ids|] == ids;
      if |rs| == 0 {
        return Crash;
      }
      return Registered;
    }

    method CheckPlugins(rs: seq<Request>) returns (conflict: bool)
      requires Valid()
      ensures conflict <==> PluginConflict(store.endpoints, rs)
    {
      for i := 0 to |rs|
        invariant !PluginConflict(store.endpoints, rs[..i])
      {
        var eps := store.List();
        for j := 0 to |eps|
          invariant forall n :: 0 <= n < j ==> !(rs[i].plugin && eps[n].plugin && eps[n].nodePath == rs[i].nodePath)
        {
          if eps[j].nodePath == rs[i].nodePath && rs[i].plugin && eps[j].plugin {
            assert Has(store.endpoints, eps[j].nodePath, eps[j].epID);
            return true;
          }
        }
        NoConflictNext(store.endpoints, rs, i, eps);
      }
      assert rs[..|rs|] == rs;
      return false;
    }

    static lemma NoConflictNext(s: Endpoints, rs: seq<Request>, i: nat, eps: seq<LocalEndpoint>)
      requires i < |rs| && Lists(s, eps) && OwnKeys(s) && !PluginConflict(s, rs[..i])
      requires forall n :: 0 <= n < |eps| ==> !(rs[i].plugin && eps[n].plugin && eps[n].nodePath == rs[i].nodePath)
      ensures !PluginConflict(s, rs[..i + 1])
    {
      forall p, k | Has(s, p, k) && At(s, p, k).plugin && rs[i].plugin ensures At(s, p, k).nodePath != rs[i].nodePath {
        assert Listed(eps, p, k);
      }
      assert forall m :: 0 <= m < i ==> rs[..i + 1][m] == rs[..i][m];
    }

    /** UpdateHeartbeat. */
    method UpdateHeartbeat(service: string, healthy: bool, now: int) returns (ok: bool)
      requires Valid()
      modifies store
      ensures ok <==> service != ""
      ensures store.endpoints == if ok then Update(old(store.endpoints), Beat(service, healthy, now)) else old(store.endpoints)
    {
      if service == "" {
        return false;
      }
      ghost var s, c := store.endpoints, Beat(service, healthy, now);
      var eps := store.List();
      ProgressStart(s, c);
      for i := 0 to |eps|
        invariant Progress(s, store.endpoints, c, eps[..i])
      {
        NotYetListed(eps, i);
        assert eps[..i + 1] == eps[..i] + [eps[i]];
        if eps[i].serviceID == service {
          var ep := eps[i].(healthy := healthy, lastHeartbeat := now);
          ghost var cur := store.endpoints;
          store.Set(ep.nodePath, ep);
          ProgressNext(s, cur, c, eps[..i], eps[i], store.endpoints);
        } else {
          ProgressSkip(s, store.endpoints, c, eps[..i], eps[i]);
        }
      }
      assert eps[..|eps|] == eps;
      ProgressEnd(s, store.endpoints, c, eps);
      return true;
    }

    /** UpdateEndpointMetricsByEpID. */
    method UpdateMetrics(path: string, epID: string, active: int, queueLen: int)
      requires Valid()
      modifies store
      ensures store.endpoints == Update(old(store.endpoints), Load(path, epID, active, queueLen))
    {
      ghost var s, c := store.endpoints, Load(path, epID, active, queueLen);
      var found := store.GetByEpID(path, epID);
      if found.Some? {
        var ep := found.value.(active := active, queueLen := queueLen);
        store.Set(path, ep);
        HasPut(s, path, epID, ep);
      }
      HasUpdate(s, c);
      Extensional(store.endpoints, Update(s, c));
    }

    /** CheckStaleEndpoints: the removed endpoints are returned. */
    method CheckStaleEndpoints(now: int, timeout: int) returns (deleted: seq<LocalEndpoint>)
      requires Valid()
      modifies store
      ensures store.endpoints == Update(old(store.endpoints), Age(now, timeout))
      ensures forall p, k :: Listed(deleted, p, k) <==>
                old(Has(store.endpoints, p, k)) && Changed(Age(now, timeout), old(At(store.endpoints, p, k))).None?
    {
      ghost var s, c := store.endpoints, Age(now, timeout);
      var eps := store.List();
      deleted := [];
      ProgressStart(s, c);
      for i := 0 to |eps|
        invariant Progress(s, store.endpoints, c, eps[..i])
        invariant forall p, k :: Listed(deleted, p, k) <==> Listed(eps[..i], p, k) && Changed(c, At(s, p, k)).None?
      {
        var ep := eps[i];
        ghost var cur := store.endpoints;
        NotYetListed(eps, i);
        ListedNext(eps[..i], ep);
        ListedNext(deleted, ep);
        assert eps[..i + 1] == eps[..i] + [ep];
        if now - ep.lastHeartbeat > timeout {
          if ep.healthy {
            store.Set(ep.nodePath, ep.(healthy := false));
            ProgressNext(s, cur, c, eps[..i], ep, store.endpoints);
          } else if now - ep.lastHeartbeat > timeout * 2 {
            store.DeleteByEpID(ep.nodePath, ep.epID);
            deleted := deleted + [ep];
            ProgressNext(s, cur, c, eps[..i], ep, store.endpoints);
          } else {
            ProgressSkip(s, cur, c, eps[..i], ep);
          }
        } else {
          ProgressSkip(s, cur, c, eps[..i], ep);
        }
      }
      assert eps[..|eps|] == eps;
      ProgressEnd(s, store.endpoints, c, eps);
    }

    /** RemoveByServiceIDAndPath. */
    method RemoveByServiceAndPath(service: string, path: string) returns (removed: nat)
      requires Valid()
      modifies store
      ensures store.endpoints == Update(old(store.endpoints), Forget(service, Some(path)))
      ensures removed == 0 <==> store.endpoints == old(store.endpoints)
    {
      var found := store.GetByServiceID(path, service);
      HasUpdate(store.endpoints, Forget(service, Some(path)));
      if found.None? {
        Extensional(store.endpoints, Update(store.endpoints, Forget(service, Some(path))));
        return 0;
      }
      store.DeleteByServiceID(path, service);
      return 1;
    }

    /** RemoveByServiceID: for every listed endpoint of the service, all its endpoints under
        that path go. */
    method RemoveByServiceID(service: string) returns (removed: nat)
      requires Valid()
      modifies store
      ensures store.endpoints == Update(old(store.endpoints), Forget(service, None))
    {
      ghost var s := store.endpoints;
      var eps := store.List();
      PathsForgottenStart(s, service);
      removed := 0;
      for i := 0 to |eps|
        invariant PathsForgotten(s, store.endpoints, service, eps[..i])
      {
        PathsForgottenNext(s, store.endpoints, service, eps[..i], eps[i]);
        assert eps[..i + 1] == eps[..i] + [eps[i]];
        if eps[i].serviceID == service {
          store.DeleteByServiceID(eps[i].nodePath, service);
          removed := removed + 1;
        }
      }
      assert eps[..|eps|] == eps;
      AllPathsForgotten(s, store.endpoints, service, eps);
    }
  }

  /** A listed endpoint of the service has this path. */
  ghost predicate Touched(done: seq<LocalEndpoint>, service: string, p: string) {
    exists i :: 0 <= i < |done| && done[i].serviceID == service && done[i].nodePath == p
  }

  lemma TouchedNext(done: seq<LocalEndpoint>, ep: LocalEndpoint, service: string)
    ensures forall p :: Touched(done + [ep], service, p) <==> Touched(done, service, p) || (ep.serviceID == service && ep.nodePath == p)
  {
    forall p ensures Touched(done + [ep], service, p) <==> Touched(done, service, p) || (ep.serviceID == service && ep.nodePath == p) {
      if i :| 0 <= i < |done| && done[i].serviceID == service && done[i].nodePath == p {
        assert (done + [ep])[i] == done[i];
      }
      if ep.serviceID == service && ep.nodePath == p {
        assert (done + [ep])[|done|] == ep;
      }
    }
  }

  /** `cur` is `s` without the service's endpoints under the touched paths. */
  ghost predicate PathsForgotten(s: Endpoints, cur: Endpoints, service: string, done: seq<LocalEndpoint>) {
    && NoEmptyInner(cur) && OwnKeys(cur)
    && (forall p, k :: Has(cur, p, k) <==> Has(s, p, k) && !(At(s, p, k).serviceID == service && Touched(done, service, p)))
    && (forall p, k :: Has(cur, p, k) ==> At(cur, p, k) == At(s, p, k))
  }

  lemma PathsForgottenStart(s: Endpoints, service: string)
    requires NoEmptyInner(s) && OwnKeys(s)
    ensures PathsForgotten(s, s, service, [])
  {
  }

  lemma PathsForgottenNext(s: Endpoints, cur: Endpoints, service: string, done: seq<LocalEndpoint>, ep: LocalEndpoint)
    requires PathsForgotten(s, cur, service, done)
    ensures PathsForgotten(s, if ep.serviceID == service then Update(cur, Forget(service, Some(ep.nodePath))) else cur,
                           service, done + [ep])
  {
    TouchedNext(done, ep, service);
    HasUpdate(cur, Forget(service, Some(ep.nodePath)));
  }

  lemma AllPathsForgotten(s: Endpoints, cur: Endpoints, service: string, eps: seq<LocalEndpoint>)
    requires Lists(s, eps) && PathsForgotten(s, cur, service, eps)
    ensures cur == Update(s, Forget(service, None))
  {
    HasUpdate(s, Forget(service, None));
    forall p, k | Has(s, p, k) && At(s, p, k).serviceID == service ensures Touched(eps, service, p) {
      assert Listed(eps, p, k);
      var i :| 0 <= i < |eps| && eps[i].nodePath == p && eps[i].epID == k;
      assert StoredIn(s, eps[i]);
    }
    Extensional(cur, Update(s, Forget(service, None)));
  }
}
