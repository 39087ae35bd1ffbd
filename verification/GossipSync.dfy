/** The sync service object (internal/gossip/sync/sync.go, internal/gossip/gossip.go): the
    peer table together with the store of remote nodes. Every handler performs exactly
    one event of module Gossip, so the object always holds what its history says. */
module GossipSync {
  import opened Models
  import opened RemoteStore
  import opened Gossip
  import opened GossipHistory

  /** The loop of HandleStateMessage that turns announcements into two maps. */
  method BuildMaps(infos: seq<PathInfo>) returns (states: map<string, EndpointState>, metas: map<string, EndpointMetadata>)
    ensures states == StatesOf(infos)
    ensures metas == MetasOf(infos)
  {
    states, metas := map[], map[];
    for i := 0 to |infos|
      invariant forall p :: p in states <==> p in InfoMap(infos[..i])
      invariant forall p :: p in metas <==> p in InfoMap(infos[..i])
      invariant forall p :: p in states ==> states[p] == StateFrom(InfoMap(infos[..i])[p])
      invariant forall p :: p in metas ==> metas[p] == MetaFrom(InfoMap(infos[..i])[p])
    {
      assert infos[..i + 1][..i] == infos[..i];
      var pi := infos[i];
      states := states[pi.nodePath := EndpointState(pi.active, pi.queueLen, pi.healthy, pi.maxConcurrent, pi.plugin, 0, 0)];
      metas := metas[pi.nodePath := EndpointMetadata(pi.nodePath, pi.maxConcurrent, pi.plugin)];
    }
    assert infos[..|infos|] == infos;
  }

  class SyncService {
    const cfg: Config
    const registry: RemoteNodeStore
    var peers: map<string, Peer>
    ghost var history: seq<Event>

    ghost function Value(): Cluster
      reads this, registry
    {
      Cluster(peers, registry.nodes)
    }

    ghost predicate Valid()
      reads this, registry
    {
      Value() == Run(cfg, history)
    }

    constructor (config: Config)
      ensures Valid() && history == [] && cfg == config && fresh(registry)
    {
      cfg := config;
      registry := new RemoteNodeStore();
      peers := map[];
      history := [];
    }

    ghost method Record(e: Event)
      requires Value() == Step(cfg, Run(cfg, history), e)
      modifies this`history
      ensures Valid() && history == old(history) + [e]
    {
      history := history + [e];
      assert history[..|history| - 1] == old(history);
    }

    /** addPeerLocked, as the step behind a sync message or a join. */
    method AddPeerLocked(id: string, o: Origin, now: Instant) returns (isNew: bool)
      modifies this`peers, registry
      ensures Value() == AddPeerIn(old(Value()), id, o, now)
      ensures isNew <==> id !in old(peers)
    {
      if id !in peers {
        peers := peers[id := Peer(o.address, now)];
        registry.Upsert(id, o.host, o.port, now);
        return true;
      }
      peers := peers[id := peers[id].(lastSeen := now)];
      registry.TouchLastSeen(id, now);
      return false;
    }

    method JoinPeer(id: string, o: Origin, now: Instant)
      requires Valid()
      modifies this, registry
      ensures Valid() && history == old(history) + [Join(id, o, now)]
    {
      var isNew := AddPeerLocked(id, o, now);
      Record(Join(id, o, now));
    }

    method RemovePeer(id: string)
      requires Valid()
      modifies this, registry
      ensures Valid() && history == old(history) + [Remove(id)]
    {
      peers := peers - {id};
      registry.DeleteNode(id);
      Record(Remove(id));
    }

    /** The first part of HandleStateMessage: make sure the node exists, then store what it
        announces, states before descriptions. */
    method StoreAnnouncements(msg: Message, now: Instant)
      modifies registry
      ensures Value() == AnnounceIn(cfg, old(Value()), msg, now)
    {
      if |msg.pathInfos| > 0 {
        if msg.nodeID !in registry.nodes {
          if msg.nodeID in peers {
            registry.Upsert(msg.nodeID, peers[msg.nodeID].address, cfg.listenPort, now);
          }
        }
        var states, metas := BuildMaps(msg.pathInfos);
        registry.UpdateStates(msg.nodeID, states, now);
        registry.UpdateDescriptions(msg.nodeID, metas, now);
      }
    }

    method HandleStateMessage(msg: Message, now: Instant)
      modifies this`peers, registry
      ensures Value() == HandleIn(cfg, old(Value()), msg, now)
    {
      StoreAnnouncements(msg, now);
      ghost var announced := registry.nodes;
      for i := 0 to |msg.deletedPaths|
        invariant peers == old(peers)
        invariant registry.nodes == DropPathsIn(announced, msg.nodeID, msg.deletedPaths[..i])
      {
        assert msg.deletedPaths[..i + 1][..i] == msg.deletedPaths[..i];
        registry.RemovePath(msg.nodeID, msg.deletedPaths[i]);
      }
      assert msg.deletedPaths[..|msg.deletedPaths|] == msg.deletedPaths;
      if msg.deletedNode {
        registry.DeleteNode(msg.nodeID);
        peers := peers - {msg.nodeID};
      }
    }

    /** handleGossipState with POST. */
    method HandleGossipState(msg: Message, now: Instant)
      requires Valid()
      modifies this, registry
      ensures Valid() && history == old(history) + [State(msg, now)]
    {
      HandleStateMessage(msg, now);
      Record(State(msg, now));
    }

    /** handleGossipSync: greet the sender, then apply its message. */
    method HandleGossipSync(msg: Message, o: Origin, now: Instant)
      requires Valid()
      modifies this, registry
      ensures Valid() && history == old(history) + [Sync(msg, o, now)]
    {
      if msg.nodeID != "" {
        var isNew := AddPeerLocked(msg.nodeID, o, now);
        if |msg.pathInfos| > 0 || |msg.deletedPaths| > 0 || msg.deletedNode {
          HandleStateMessage(msg, now);
        }
      }
      Record(Sync(msg, o, now));
    }

    method CleanupStalePeers(now: Instant)
      requires Valid()
      modifies this, registry
      ensures Valid() && history == old(history) + [CleanPeers(now)]
    {
      ghost var peers0, nodes0 := peers, registry.nodes;
      var left := peers.Keys;
      while left != {}
        invariant left <= peers0.Keys && history == old(history)
        invariant forall id :: id in peers <==> id in peers0 && (id in left || !(now - peers0[id].lastSeen > cfg.peerTimeout))
        invariant forall id :: id in peers ==> peers[id] == peers0[id]
        invariant forall id :: id in registry.nodes <==> id in nodes0 && (id in peers0 ==> id in peers)
        invariant forall id :: id in registry.nodes ==> registry.nodes[id] == nodes0[id]
        decreases |left|
      {
        var id :| id in left;
        left := left - {id};
        if now - peers[id].lastSeen > cfg.peerTimeout {
          peers := peers - {id};
          registry.DeleteNode(id);
        }
      }
      assert peers == peers0 - StalePeers(peers0, now, cfg.peerTimeout);
      assert registry.nodes == nodes0 - StalePeers(peers0, now, cfg.peerTimeout);
      Record(CleanPeers(now));
    }

    /** The admin ticker's cleaning of the remote store. */
    method CleanStaleRemoteNodes(now: Instant)
      requires Valid()
      modifies this, registry
      ensures Valid() && history == old(history) + [CleanNodes(now)]
    {
      registry.CleanStale(now, cfg.nodeTimeout, cfg.endpointTimeout);
      Record(CleanNodes(now));
    }

    /** Reading the view answers by the history alone. */
    method HasPath(id: string, path: string) returns (present: bool)
      requires Valid()
      ensures present <==> InView(cfg, history, id, path)
    {
      ViewFollowsHistory(cfg, history, id, path);
      present := id in registry.nodes && path in registry.nodes[id].states;
    }
  }
}
