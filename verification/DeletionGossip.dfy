/** Admin and gossip together: what the other nodes believe about a node after it has deleted
    endpoints and told them so in two messages (handleDeleteEndpoints in
    internal/admin/handlers.go, BroadcastSync and BroadcastDeletedPaths in
    internal/gossip/sync/sync.go). */
module DeletionGossip {
  import opened Models
  import opened NestedMaps
  import opened AdminModel
  import opened AdminGuarantees
  import opened Aggregation
  import LocalRegistryObjects
  import Gossip
  import GossipHistory

  // ---------- The first message: what is served ----------

  function InfoOf(path: string, t: PathTotal): Gossip.PathInfo {
    Gossip.PathInfo(path, t.active, t.queueLen, t.healthy, t.maxConcurrent, t.plugin)
  }

  /** BroadcastSync: one announcement for each path served, with its totals. */
  method SyncInfos(eps: seq<LocalEndpoint>) returns (infos: seq<Gossip.PathInfo>)
    ensures forall p :: p in Gossip.InfoMap(infos) <==> Serves(eps, p)
    ensures forall p :: p in Gossip.InfoMap(infos) ==>
              var info, total := Gossip.InfoMap(infos)[p], TotalAt(p, eps);
              && info.nodePath == p && info.active == total.active && info.queueLen == total.queueLen
              && info.healthy == total.healthy && info.maxConcurrent == total.maxConcurrent && info.plugin == total.plugin
  {
    var totals := AggregateLocalPathInfos(eps);
    infos := [];
    var left := totals.Keys;
    while left != {}
      invariant left <= totals.Keys
      invariant forall p :: p in Gossip.InfoMap(infos) <==> p in totals && p !in left
      invariant forall p :: p in Gossip.InfoMap(infos) ==> Gossip.InfoMap(infos)[p] == InfoOf(p, totals[p])
      decreases |left|
    {
      var p :| p in left;
      left := left - {p};
      assert (infos + [InfoOf(p, totals[p])])[..|infos|] == infos;
      infos := infos + [InfoOf(p, totals[p])];
    }
  }

  /** The paths of a listing are those of the table. */
  lemma ServedPaths(s: Endpoints, eps: seq<LocalEndpoint>, p: string)
    requires NoEmptyInner(s) && LocalRegistryObjects.Lists(s, eps)
    ensures Serves(eps, p) <==> p in s
  {
    if p in s {
      NonEmptyHas(s, p);
      var k :| Has(s, p, k);
      assert LocalRegistryObjects.Listed(eps, p, k);
    }
    if i :| 0 <= i < |eps| && eps[i].nodePath == p {
      assert LocalRegistryObjects.Listed(eps, p, eps[i].epID);
    }
  }

  /** The message announces exactly the paths of the table. */
  ghost predicate Announces(e: Gossip.Event, self: string, eps: Endpoints) {
    && e.Sync? && e.msg.nodeID == self && e.msg.deletedPaths == [] && !e.msg.deletedNode
    && forall p :: p in Gossip.InfoMap(e.msg.pathInfos) <==> p in eps
  }

  // ---------- The second message: what was deleted ----------

  /** The delete request is well-formed: both values decode. */
  predicate Decodes(service: string, path: string) {
    service != "" && QueryUnescape(service).Some? && (path != "" ==> QueryUnescape(path).Some?)
  }

  /** The rule that selects the pools to remove. */
  function Selection(service: string, path: string): Change
    requires Decodes(service, path)
  {
    Forget(QueryUnescape(service).value, if path == "" then None else Some(path))
  }

  /** Some removed pool belongs to the path, so it is broadcast as deleted. */
  ghost predicate Withdrawn(sys: System, service: string, path: string, p: string)
    requires Decodes(service, path)
  {
    exists k :: (p, k) in KeysOf(sys.eps, Selection(service, path))
  }

  ghost predicate Withdraws(e: Gossip.Event, self: string, sys: System, service: string, path: string)
    requires Decodes(service, path)
  {
    && e.Sync? && e.msg.nodeID == self && e.msg.pathInfos == [] && !e.msg.deletedNode
    && forall p :: p in e.msg.deletedPaths <==> Withdrawn(sys, service, path, p)
  }

  // ---------- What a peer makes of them ----------

  /** By its history a peer lists exactly these paths for the node. */
  ghost predicate Mirrors(cfg: Gossip.Config, g: seq<Gossip.Event>, self: string, eps: Endpoints) {
    forall p :: GossipHistory.InView(cfg, g, self, p) <==> p in eps
  }

  lemma AfterAnnouncement(cfg: Gossip.Config, g: seq<Gossip.Event>, e: Gossip.Event, self: string, eps: Endpoints, p: string)
    requires self != "" && Announces(e, self, eps)
    ensures GossipHistory.InView(cfg, g + [e], self, p) <==> p in eps || GossipHistory.InView(cfg, g, self, p)
  {
    GossipHistory.InViewNext(cfg, g, e, self, p);
  }

  lemma AfterWithdrawal(cfg: Gossip.Config, g: seq<Gossip.Event>, e: Gossip.Event, self: string, sys: System,
                        service: string, path: string, p: string)
    requires self != "" && Decodes(service, path) && Withdraws(e, self, sys, service, path)
    ensures GossipHistory.InView(cfg, g + [e], self, p) <==> GossipHistory.InView(cfg, g, self, p) && !Withdrawn(sys, service, path, p)
  {
    GossipHistory.InViewNext(cfg, g, e, self, p);
  }

  /** Whatever a peer believed before: after both messages, in the order they were sent, it lists
      exactly the served paths if and only if no path broadcast as deleted is still served and
      every path it listed that is not served any more was broadcast. */
  lemma MirrorsIff(cfg: Gossip.Config, g: seq<Gossip.Event>, sync: Gossip.Event, gone: Gossip.Event, self: string,
                   sys: System, service: string, path: string)
    requires self != "" && Decodes(service, path)
    requires Announces(sync, self, DeleteIn(sys, service, path).eps) && Withdraws(gone, self, sys, service, path)
    ensures var eps := DeleteIn(sys, service, path).eps;
            Mirrors(cfg, g + [sync] + [gone], self, eps) <==>
              && (forall p :: Withdrawn(sys, service, path, p) ==> p !in eps)
              && (forall p :: GossipHistory.InView(cfg, g, self, p) && p !in eps ==> Withdrawn(sys, service, path, p))
  {
    var eps := DeleteIn(sys, service, path).eps;
    forall p
      ensures GossipHistory.InView(cfg, g + [sync] + [gone], self, p) <==>
                (p in eps || GossipHistory.InView(cfg, g, self, p)) && !Withdrawn(sys, service, path, p)
    {
      AfterAnnouncement(cfg, g, sync, self, eps, p);
      AfterWithdrawal(cfg, g + [sync], gone, self, sys, service, path, p);
    }
  }

  /** An endpoint of another service under the path. */
  ghost predicate ServedByAnother(eps: Endpoints, p: string, service: string) {
    exists k :: Has(eps, p, k) && At(eps, p, k).serviceID != service
  }

  lemma WithdrawnIff(sys: System, service: string, path: string, p: string)
    requires WellFormed(sys) && Decodes(service, path)
    ensures Withdrawn(sys, service, path, p) <==>
              && (path == "" || p == path)
              && exists k :: Has(sys.eps, p, k) && At(sys.eps, p, k).serviceID == QueryUnescape(service).value
  {
    KeysOfMeans(sys, Selection(service, path));
    if k :| Has(sys.eps, p, k) && At(sys.eps, p, k).serviceID == QueryUnescape(service).value && (path == "" || p == path) {
      assert Removed(sys.eps, Selection(service, path), p, k);
    }
  }

  /** A plain deletion removes exactly what it selects. */
  lemma PlainDeletion(sys: System, service: string, path: string)
    requires Decodes(service, path) && PlainDelete(Delete(service, path))
    ensures DeleteIn(sys, service, path).eps == Update(sys.eps, Selection(service, path))
  {
    SecondDecodingHarmlessIff(path);
  }

  lemma StillServedIff(sys: System, service: string, path: string, p: string)
    requires WellFormed(sys) && Decodes(service, path) && PlainDelete(Delete(service, path))
    ensures var eps := DeleteIn(sys, service, path).eps;
            && (p in eps ==> p in sys.eps)
            && (p in sys.eps && p !in eps ==> Withdrawn(sys, service, path, p))
            && (Withdrawn(sys, service, path, p) ==>
                  (p in eps <==> ServedByAnother(sys.eps, p, QueryUnescape(service).value)))
  {
    var eps, c := DeleteIn(sys, service, path).eps, Selection(service, path);
    PlainDeletion(sys, service, path);
    WithdrawnIff(sys, service, path, p);
    HasUpdate(sys.eps, c);
    if p in eps {
      NonEmptyHas(eps, p);
    }
    if p in sys.eps {
      NonEmptyHas(sys.eps, p);
      var k :| Has(sys.eps, p, k);
      assert p !in eps ==> !Has(eps, p, k);
    }
    if k :| Has(sys.eps, p, k) && At(sys.eps, p, k).serviceID != QueryUnescape(service).value {
      assert Has(eps, p, k);
    }
  }

  /** A peer that listed the served paths before a plain deletion lists them after its two
      messages if and only if no path of the deleted endpoints has an endpoint of another
      service. When the messages overtake each other, it always does. */
  lemma PeersFollowDeletionIff(cfg: Gossip.Config, g: seq<Gossip.Event>, sync: Gossip.Event, gone: Gossip.Event, self: string,
                               sys: System, service: string, path: string)
    requires self != "" && WellFormed(sys) && Decodes(service, path) && PlainDelete(Delete(service, path))
    requires Announces(sync, self, DeleteIn(sys, service, path).eps) && Withdraws(gone, self, sys, service, path)
    requires Mirrors(cfg, g, self, sys.eps)
    ensures Mirrors(cfg, g + [sync] + [gone], self, DeleteIn(sys, service, path).eps) <==>
              forall p :: Withdrawn(sys, service, path, p) ==> !ServedByAnother(sys.eps, p, QueryUnescape(service).value)
    ensures Mirrors(cfg, g + [gone] + [sync], self, DeleteIn(sys, service, path).eps)
  {
    var eps := DeleteIn(sys, service, path).eps;
    forall p
      ensures p in eps ==> p in sys.eps
      ensures p in sys.eps && p !in eps ==> Withdrawn(sys, service, path, p)
      ensures Withdrawn(sys, service, path, p) ==> (p in eps <==> ServedByAnother(sys.eps, p, QueryUnescape(service).value))
    {
      StillServedIff(sys, service, path, p);
    }
    MirrorsIff(cfg, g, sync, gone, self, sys, service, path);
    forall p ensures GossipHistory.InView(cfg, g + [gone] + [sync], self, p) <==> p in eps {
      AfterWithdrawal(cfg, g, gone, self, sys, service, path, p);
      AfterAnnouncement(cfg, g + [gone], sync, self, eps, p);
    }
  }

  /** Two services under "/p", one of which is deleted: every peer forgets the path, which is
      still served. */
  lemma StillServedIsForgotten(cfg: Gossip.Config, g: seq<Gossip.Event>, sync: Gossip.Event, gone: Gossip.Event, self: string)
    requires self != "" && Runs(EMPTY_SYSTEM, TWO_SERVICES) && Decodes("s", "")
    requires var sys := After(EMPTY_SYSTEM, TWO_SERVICES);
             Announces(sync, self, DeleteIn(sys, "s", "").eps) && Withdraws(gone, self, sys, "s", "")
    ensures "/p" in DeleteIn(After(EMPTY_SYSTEM, TWO_SERVICES), "s", "").eps
    ensures !GossipHistory.InView(cfg, g + [sync] + [gone], self, "/p")
  {
    var sys := After(EMPTY_SYSTEM, TWO_SERVICES);
    TwoServices();
    SecondDecodingHarmlessIff("s");
    WithdrawnIff(sys, "s", "", "/p");
    assert ServedByAnother(sys.eps, "/p", "s") by {
      assert Has(sys.eps, "/p", "y");
    }
    assert Has(sys.eps, "/p", "x");
    StillServedIff(sys, "s", "", "/p");
    AfterWithdrawal(cfg, g + [sync], gone, self, sys, "s", "", "/p");
  }
}
