/** Gossip and routing together: which remote nodes a request may be sent to, read off the
    history of gossip events. */
module ClusterRouting {
  import opened Counting
  import opened Models
  import opened RemoteStore
  import RemoteCounters
  import opened Gossip
  import opened GossipHistory
  import opened Routing

  /** The router's list of remote nodes is the store's content, in some order. */
  ghost predicate ListsNodes(ns: seq<RemoteNode>, nodes: Nodes) {
    && (forall n :: n in ns ==> n.nodeID in nodes && nodes[n.nodeID] == n)
    && (forall id :: id in nodes ==> nodes[id] in ns && nodes[id].nodeID == id)
  }

  ghost predicate Offers(cs: seq<RemoteNode>, id: string) {
    exists c :: c in cs && c.nodeID == id
  }

  lemma {:induction false} OfferedIff(v: NodeView, ns: seq<RemoteNode>, best: string, seen: set<string>, id: string)
    ensures (Offers(RemoteCandidates(v, ns, best, seen, true), id) || Offers(RemoteCandidates(v, ns, best, seen, false), id))
       <==> best != "" && id !in seen && exists n :: n in ns && n.nodeID == id && best in n.states && n.states[best].healthy
  {
    if ns != [] {
      var init, last := ns[..|ns| - 1], ns[|ns| - 1];
      OfferedIff(v, init, best, seen, id);
      OffersAppend(RemoteCandidates(v, init, best, seen, true), Contribution(v, last, best, seen, true), id);
      OffersAppend(RemoteCandidates(v, init, best, seen, false), Contribution(v, last, best, seen, false), id);
      ContributionOffers(v, last, best, seen, id);
      assert ns == init + [last];
      assert forall n :: n in ns <==> n in init || n == last;
    }
  }

  lemma OffersAppend(a: seq<RemoteNode>, b: seq<RemoteNode>, id: string)
    ensures Offers(a + b, id) <==> Offers(a, id) || Offers(b, id)
  {
    assert forall c :: c in a + b <==> c in a || c in b;
  }

  lemma ContributionOffers(v: NodeView, n: RemoteNode, best: string, seen: set<string>, id: string)
    ensures (Offers(Contribution(v, n, best, seen, true), id) || Offers(Contribution(v, n, best, seen, false), id))
       <==> best != "" && id !in seen && n.nodeID == id && best in n.states && n.states[best].healthy
  {
    if best != "" && n.nodeID !in seen && best in n.states && n.states[best].healthy {
      var c := ForwardCandidate(v, n, best);
      assert Contribution(v, n, best, seen, IsPluginAt(n, best)) == [c];
      assert c in [c];
    }
  }

  /** After any gossip history, the remote nodes offered for a request are exactly those not
      yet seen whose view holds the longest remote match: announced while known, and neither
      deleted, removed, nor timed out since. The health they announced plays no part. */
  lemma OffersFollowHistory(cfg: Config, h: seq<Event>, v: NodeView, path: string, seen: set<string>, id: string)
    requires ListsNodes(v.remote, Run(cfg, h).nodes)
    ensures var best := Longest(path, RemotePaths(v.remote));
            (Offers(RemoteCandidates(v, v.remote, best, seen, true), id) || Offers(RemoteCandidates(v, v.remote, best, seen, false), id))
            <==> best != "" && id !in seen && InView(cfg, h, id, best)
  {
    var best := Longest(path, RemotePaths(v.remote));
    OfferedIff(v, v.remote, best, seen, id);
    ViewFollowsHistory(cfg, h, id, best);
  }

  /** And the longest remote match is the longest over all paths in any node's view. */
  lemma RemotePathsFollowHistory(cfg: Config, h: seq<Event>, remote: seq<RemoteNode>, path: string)
    requires ListsNodes(remote, Run(cfg, h).nodes)
    ensures path in RemotePaths(remote) <==> exists id :: InView(cfg, h, id, path)
  {
    if path in RemotePaths(remote) {
      var n :| n in remote && path in n.states;
      ViewFollowsHistory(cfg, h, n.nodeID, path);
    }
    if id :| InView(cfg, h, id, path) {
      ViewFollowsHistory(cfg, h, id, path);
      assert Run(cfg, h).nodes[id] in remote;
    }
  }

  // ---------- The load a remote node is judged by ----------

  /** Every remote candidate is made from a listed node. */
  lemma {:induction false} MadeFromListed(v: NodeView, ns: seq<RemoteNode>, best: string, seen: set<string>, plugin: bool, c: RemoteNode)
    returns (n: RemoteNode)
    requires c in RemoteCandidates(v, ns, best, seen, plugin)
    ensures n in ns && best in n.states && c == ForwardCandidate(v, n, best) && IsPluginAt(n, best) == plugin
  {
    var init, last := ns[..|ns| - 1], ns[|ns| - 1];
    if c in RemoteCandidates(v, init, best, seen, plugin) {
      n := MadeFromListed(v, init, best, seen, plugin, c);
    } else {
      n := last;
    }
  }

  /** Node ids without the separator of the counter keys. */
  ghost predicate PlainIds(flying: seq<RemoteCounters.Forward>) {
    forall i :: 0 <= i < |flying| ==> '|' !in flying[i].nodeID
  }

  /** How many forwards to a node and path have begun and not ended. */
  function FlyingTo(flying: seq<RemoteCounters.Forward>, id: string, path: string): nat {
    Count(flying, f => RemoteCounters.Is(f, id, path))
  }

  lemma ReadsInFlight(h: seq<RemoteCounters.Event>, v: NodeView, id: string, path: string)
    requires RemoteCounters.Runs(RemoteCounters.IDLE, h)
    requires var c := RemoteCounters.After(RemoteCounters.IDLE, h); v.inFlight == c.values && PlainIds(c.flying)
    requires '|' !in id
    ensures InFlight(v, id, path) == FlyingTo(RemoteCounters.After(RemoteCounters.IDLE, h).flying, id, path)
  {
    RemoteCounters.CounterIsInFlight(h, id, path);
  }

  /** After any gossip history g and any run h of forwards, a remote candidate is judged by
      the active requests its node last announced plus this node's own forwards to it that
      have begun and not ended, and by queue, limit and kind as last announced. */
  lemma OfferedLoadFollowsHistory(cfg: Config, g: seq<Event>, h: seq<RemoteCounters.Event>, v: NodeView,
                                  path: string, seen: set<string>, plugin: bool, c: RemoteNode)
    requires ListsNodes(v.remote, Run(cfg, g).nodes)
    requires RemoteCounters.Runs(RemoteCounters.IDLE, h)
    requires var k := RemoteCounters.After(RemoteCounters.IDLE, h); v.inFlight == k.values && PlainIds(k.flying)
    requires c in RemoteCandidates(v, v.remote, Longest(path, RemotePaths(v.remote)), seen, plugin)
    requires '|' !in c.nodeID
    ensures LastAnnouncement(g, c.nodeID, c.nodePath).Some?
    ensures var a := LastAnnouncement(g, c.nodeID, c.nodePath).value.info;
            var load := a.active + FlyingTo(RemoteCounters.After(RemoteCounters.IDLE, h).flying, c.nodeID, c.nodePath);
            && plugin == a.plugin
            && c.states == map[c.nodePath := EndpointState(if load < 0 then 0 else load, a.queueLen, true,
                                                           a.maxConcurrent, a.plugin, 0, 0)]
  {
    var n := MadeFromListed(v, v.remote, Longest(path, RemotePaths(v.remote)), seen, plugin, c);
    ViewFollowsHistory(cfg, g, n.nodeID, c.nodePath);
    ReadsInFlight(h, v, c.nodeID, c.nodePath);
  }

  /** And it is sent where the greeting of its node said, or, once the node was dropped for its
      silence and announced itself again, to the peer's address with this node's own port. */
  lemma OfferedAddressFollowsHistory(cfg: Config, g: seq<Event>, v: NodeView, path: string, seen: set<string>, plugin: bool, c: RemoteNode)
    requires ListsNodes(v.remote, Run(cfg, g).nodes)
    requires c in RemoteCandidates(v, v.remote, Longest(path, RemotePaths(v.remote)), seen, plugin)
    ensures exists i: nat :: MetAt(cfg, g, c.nodeID, i) && (c.address, c.servicePort) == SentTo(cfg, g, c.nodeID, i)
  {
    var n := MadeFromListed(v, v.remote, Longest(path, RemotePaths(v.remote)), seen, plugin, c);
    AddressFollowsHistory(cfg, g, n.nodeID);
  }
}
