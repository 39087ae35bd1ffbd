/** What a node believes about the others: the peer table and the remote nodes, changed by
    gossip messages, joins, removals and timed cleanings (internal/gossip). Each event
    carries one time; no order of the times is assumed. */
module Gossip {
  import opened Models
  import opened RemoteStore

  /** A time other than Go's zero time. */
  type Instant = t: int | 0 < t witness 1

  datatype PathInfo = PathInfo(nodePath: string, active: int, queueLen: int, healthy: bool, maxConcurrent: int, plugin: bool)

  datatype Message = Message(nodeID: string, pathInfos: seq<PathInfo>, deletedPaths: seq<string>, deletedNode: bool)

  datatype Peer = Peer(address: string, lastSeen: int)

  /** Where an announcement came from: the address as given, and host and port read from it. */
  datatype Origin = Origin(address: string, host: string, port: int)

  datatype Config = Config(peerTimeout: int, nodeTimeout: int, endpointTimeout: int, listenPort: int)

  datatype Event =
    | Sync(msg: Message, origin: Origin, now: Instant)   // POST /v1/gossip/sync and /peer
    | State(msg: Message, now: Instant)                  // POST /v1/gossip/state
    | Join(id: string, origin: Origin, now: Instant)     // join request, discovery
    | Remove(id: string)                                 // failed health check
    | CleanPeers(now: Instant)
    | CleanNodes(now: Instant)

  datatype Cluster = Cluster(peers: map<string, Peer>, nodes: Nodes)

  const NOBODY := Cluster(map[], map[])

  // ---------- Reading a message ----------

  /** The announcement per path; a later entry for a path replaces an earlier one. */
  function InfoMap(infos: seq<PathInfo>): map<string, PathInfo> {
    if infos == [] then map[]
    else InfoMap(infos[..|infos| - 1])[infos[|infos| - 1].nodePath := infos[|infos| - 1]]
  }

  /** The last announcement for a path is the one that counts. */
  lemma {:induction false} InfoMapIsLast(infos: seq<PathInfo>, path: string)
    ensures path in InfoMap(infos) <==> exists i :: 0 <= i < |infos| && infos[i].nodePath == path
    ensures forall i :: 0 <= i < |infos| && infos[i].nodePath == path && (forall j :: i < j < |infos| ==> infos[j].nodePath != path) ==>
              path in InfoMap(infos) && InfoMap(infos)[path] == infos[i]
  {
    if infos != [] {
      var init := infos[..|infos| - 1];
      InfoMapIsLast(init, path);
      assert forall i :: 0 <= i < |init| ==> init[i] == infos[i];
      if infos[|infos| - 1].nodePath != path {
        if i :| 0 <= i < |infos| && infos[i].nodePath == path {
          assert init[i].nodePath == path;
        }
      }
    }
  }

  function StateFrom(i: PathInfo): EndpointState {
    EndpointState(i.active, i.queueLen, i.healthy, i.maxConcurrent, i.plugin, 0, 0)
  }

  function MetaFrom(i: PathInfo): EndpointMetadata {
    EndpointMetadata(i.nodePath, i.maxConcurrent, i.plugin)
  }

  function StatesOf(infos: seq<PathInfo>): map<string, EndpointState> {
    var m := InfoMap(infos);
    map p | p in m :: StateFrom(m[p])
  }

  function MetasOf(infos: seq<PathInfo>): map<string, EndpointMetadata> {
    var m := InfoMap(infos);
    map p | p in m :: MetaFrom(m[p])
  }

  // ---------- One event on the two tables, as the handlers perform it ----------

  /** addPeerLocked. */
  function AddPeerIn(c: Cluster, id: string, o: Origin, now: Instant): Cluster {
    if id !in c.peers then
      Cluster(c.peers[id := Peer(o.address, now)], UpsertIn(c.nodes, id, o.host, o.port, now))
    else
      Cluster(c.peers[id := c.peers[id].(lastSeen := now)], TouchIn(c.nodes, id, now))
  }

  function DropPathsIn(s: Nodes, id: string, paths: seq<string>): Nodes {
    if paths == [] then s else DropPathIn(DropPathsIn(s, id, paths[..|paths| - 1]), id, paths[|paths| - 1])
  }

  /** HandleStateMessage: announcements, then deletions, then the leave. */
  function AnnounceIn(cfg: Config, c: Cluster, msg: Message, now: Instant): Cluster {
    if msg.pathInfos == [] then c
    else
      var id := msg.nodeID;
      var known := if id !in c.nodes && id in c.peers
                   then UpsertIn(c.nodes, id, c.peers[id].address, cfg.listenPort, now) else c.nodes;
      c.(nodes := PutDescriptionsIn(PutStatesIn(known, id, StatesOf(msg.pathInfos), now), id, MetasOf(msg.pathInfos), now))
  }

  function HandleIn(cfg: Config, c: Cluster, msg: Message, now: Instant): Cluster {
    var announced := AnnounceIn(cfg, c, msg, now);
    var pruned := announced.(nodes := DropPathsIn(announced.nodes, msg.nodeID, msg.deletedPaths));
    if msg.deletedNode then Cluster(pruned.peers - {msg.nodeID}, pruned.nodes - {msg.nodeID}) else pruned
  }

  function StalePeers(peers: map<string, Peer>, now: int, timeout: int): set<string> {
    set id | id in peers && now - peers[id].lastSeen > timeout
  }

  function Step(cfg: Config, c: Cluster, e: Event): Cluster {
    match e
    case Sync(msg, o, now) => if msg.nodeID == "" then c else HandleIn(cfg, AddPeerIn(c, msg.nodeID, o, now), msg, now)
    case State(msg, now) => HandleIn(cfg, c, msg, now)
    case Join(id, o, now) => AddPeerIn(c, id, o, now)
    case Remove(id) => Cluster(c.peers - {id}, c.nodes - {id})
    case CleanPeers(now) =>
      var stale := StalePeers(c.peers, now, cfg.peerTimeout);
      Cluster(c.peers - stale, c.nodes - stale)
    case CleanNodes(now) => c.(nodes := CleanIn(c.nodes, now, cfg.nodeTimeout, cfg.endpointTimeout))
  }

  function Run(cfg: Config, h: seq<Event>): Cluster {
    if h == [] then NOBODY else Step(cfg, Run(cfg, h[..|h| - 1]), h[|h| - 1])
  }

  // ---------- One node's share of the tables ----------

  datatype Slot = Slot(peer: Option<Peer>, node: Option<RemoteNode>)

  const EMPTY := Slot(None, None)

  function SlotOf(c: Cluster, id: string): Slot {
    Slot(if id in c.peers then Some(c.peers[id]) else None, if id in c.nodes then Some(c.nodes[id]) else None)
  }

  predicate About(e: Event, id: string) {
    match e
    case Sync(msg, _, _) => msg.nodeID == id && id != ""
    case State(msg, _) => msg.nodeID == id
    case Join(other, _, _) => other == id
    case Remove(other) => other == id
    case CleanPeers(_) => false
    case CleanNodes(_) => false
  }

  predicate Cleaning(e: Event) { e.CleanPeers? || e.CleanNodes? }

  function Hello(s: Slot, id: string, o: Origin, now: Instant): Slot {
    if s.peer.None? then
      Slot(Some(Peer(o.address, now)),
           Some(if s.node.Some? then s.node.value.(address := o.host, servicePort := o.port, lastSeen := now)
                else NewNode(id, o.host, o.port, now)))
    else
      Slot(Some(s.peer.value.(lastSeen := now)),
           if s.node.Some? then Some(s.node.value.(lastSeen := now)) else None)
  }

  function Announce(n: RemoteNode, infos: seq<PathInfo>, now: Instant): RemoteNode {
    PutDescriptions(PutStates(n, StatesOf(infos), now), MetasOf(infos), now)
  }

  function Heard(cfg: Config, s: Slot, msg: Message, now: Instant): Slot {
    if msg.pathInfos == [] || s == EMPTY then s
    else
      var n := if s.node.Some? then s.node.value else NewNode(msg.nodeID, s.peer.value.address, cfg.listenPort, now);
      s.(node := Some(Announce(n, msg.pathInfos, now)))
  }

  function DropPaths(n: RemoteNode, paths: seq<string>): RemoteNode {
    if paths == [] then n else DropPath(DropPaths(n, paths[..|paths| - 1]), paths[|paths| - 1])
  }

  function Handle(cfg: Config, s: Slot, msg: Message, now: Instant): Slot {
    if msg.deletedNode then EMPTY
    else
      var heard := Heard(cfg, s, msg, now);
      if heard.node.Some? then heard.(node := Some(DropPaths(heard.node.value, msg.deletedPaths))) else heard
  }

  /** What an event does to the share of one node: nothing, unless it is about that node
      or a cleaning. */
  function React(cfg: Config, id: string, s: Slot, e: Event): Slot {
    if !About(e, id) && !Cleaning(e) then s
    else
      match e
      case Sync(msg, o, now) => Handle(cfg, Hello(s, id, o, now), msg, now)
      case State(msg, now) => Handle(cfg, s, msg, now)
      case Join(_, o, now) => Hello(s, id, o, now)
      case Remove(_) => EMPTY
      case CleanPeers(now) => if s.peer.Some? && now - s.peer.value.lastSeen > cfg.peerTimeout then EMPTY else s
      case CleanNodes(now) =>
        if s.node.None? then s
        else if now - s.node.value.lastSeen > cfg.nodeTimeout then s.(node := None)
        else s.(node := Some(DropStale(s.node.value, now, cfg.endpointTimeout)))
  }

  function RunSlot(cfg: Config, id: string, h: seq<Event>): Slot {
    if h == [] then EMPTY else React(cfg, id, RunSlot(cfg, id, h[..|h| - 1]), h[|h| - 1])
  }

  /** Every remote node is also a known peer. */
  ghost predicate NodesArePeers(c: Cluster) {
    c.nodes.Keys <= c.peers.Keys
  }

  lemma {:induction false} DropPathsSlot(s: Nodes, id: string, paths: seq<string>)
    ensures DropPathsIn(s, id, paths).Keys == s.Keys
    ensures forall other :: other in s ==>
              DropPathsIn(s, id, paths)[other] == if other == id then DropPaths(s[other], paths) else s[other]
  {
    if paths != [] {
      DropPathsSlot(s, id, paths[..|paths| - 1]);
    }
  }

  lemma AddPeerSlot(c: Cluster, id: string, o: Origin, now: Instant, other: string)
    ensures SlotOf(AddPeerIn(c, id, o, now), other) == if other == id then Hello(SlotOf(c, id), id, o, now) else SlotOf(c, other)
    ensures NodesArePeers(c) ==> NodesArePeers(AddPeerIn(c, id, o, now))
  {
  }

  lemma AnnounceSlot(cfg: Config, c: Cluster, msg: Message, now: Instant, other: string)
    requires NodesArePeers(c)
    ensures SlotOf(AnnounceIn(cfg, c, msg, now), other)
         == if other == msg.nodeID then Heard(cfg, SlotOf(c, other), msg, now) else SlotOf(c, other)
    ensures NodesArePeers(AnnounceIn(cfg, c, msg, now))
  {
  }

  lemma HandleSlot(cfg: Config, c: Cluster, msg: Message, now: Instant, other: string)
    requires NodesArePeers(c)
    ensures SlotOf(HandleIn(cfg, c, msg, now), other)
         == if other == msg.nodeID then Handle(cfg, SlotOf(c, other), msg, now) else SlotOf(c, other)
    ensures NodesArePeers(HandleIn(cfg, c, msg, now))
  {
    AnnounceSlot(cfg, c, msg, now, other);
    DropPathsSlot(AnnounceIn(cfg, c, msg, now).nodes, msg.nodeID, msg.deletedPaths);
  }

  /** One event on the tables is one reaction on every node's share of them. */
  lemma StepSlot(cfg: Config, c: Cluster, e: Event, id: string)
    requires NodesArePeers(c)
    ensures SlotOf(Step(cfg, c, e), id) == React(cfg, id, SlotOf(c, id), e)
    ensures NodesArePeers(Step(cfg, c, e))
  {
    match e {
      case Sync(msg, o, now) =>
        AddPeerSlot(c, msg.nodeID, o, now, id);
        if msg.nodeID != "" {
          HandleSlot(cfg, AddPeerIn(c, msg.nodeID, o, now), msg, now, id);
        }
      case State(msg, now) => HandleSlot(cfg, c, msg, now, id);
      case Join(other, o, now) => AddPeerSlot(c, other, o, now, id);
      case Remove(_) =>
      case CleanPeers(_) =>
      case CleanNodes(_) =>
    }
  }

  /** In every reachable state each remote node is a known peer, and the share of a node
      is what the events about it and the cleanings alone make of it. */
  lemma {:induction false} RunIsSlotwise(cfg: Config, h: seq<Event>, id: string)
    ensures SlotOf(Run(cfg, h), id) == RunSlot(cfg, id, h)
    ensures NodesArePeers(Run(cfg, h))
  {
    if h != [] {
      RunIsSlotwise(cfg, h[..|h| - 1], id);
      StepSlot(cfg, Run(cfg, h[..|h| - 1]), h[|h| - 1], id);
    }
  }

  // ---------- Senders do not interfere ----------

  /** The events that can matter to a node. */
  function Relevant(h: seq<Event>, id: string): seq<Event> {
    if h == [] then []
    else
      var rest := Relevant(h[..|h| - 1], id);
      if About(h[|h| - 1], id) || Cleaning(h[|h| - 1]) then rest + [h[|h| - 1]] else rest
  }

  lemma {:induction false} OnlyRelevantMatters(cfg: Config, h: seq<Event>, id: string)
    ensures RunSlot(cfg, id, h) == RunSlot(cfg, id, Relevant(h, id))
  {
    if h != [] {
      var init, last := h[..|h| - 1], h[|h| - 1];
      OnlyRelevantMatters(cfg, init, id);
      if About(last, id) || Cleaning(last) {
        assert (Relevant(init, id) + [last])[..|Relevant(init, id)|] == Relevant(init, id);
      }
    }
  }

  lemma SameSlotsSameCluster(a: Cluster, b: Cluster)
    requires forall id :: SlotOf(a, id) == SlotOf(b, id)
    ensures a == b
  {
    forall id ensures (id in a.peers <==> id in b.peers) && (id in a.nodes <==> id in b.nodes)
      ensures id in a.peers && id in b.peers ==> a.peers[id] == b.peers[id]
      ensures id in a.nodes && id in b.nodes ==> a.nodes[id] == b.nodes[id]
    {
      assert SlotOf(a, id) == SlotOf(b, id);
    }
    assert a.peers == b.peers;
    assert a.nodes == b.nodes;
  }

  /** Two runs in which every node sees the same events in the same order, however they
      are interleaved with events about others, end in the same state. */
  lemma InterleavingDoesNotMatter(cfg: Config, h: seq<Event>, g: seq<Event>)
    requires forall id :: Relevant(h, id) == Relevant(g, id)
    ensures Run(cfg, h) == Run(cfg, g)
  {
    forall id ensures SlotOf(Run(cfg, h), id) == SlotOf(Run(cfg, g), id) {
      RunIsSlotwise(cfg, h, id);
      RunIsSlotwise(cfg, g, id);
      OnlyRelevantMatters(cfg, h, id);
      OnlyRelevantMatters(cfg, g, id);
      assert Relevant(h, id) == Relevant(g, id);
    }
    SameSlotsSameCluster(Run(cfg, h), Run(cfg, g));
  }

  /** Events about different nodes commute. */
  lemma DifferentSendersCommute(cfg: Config, h: seq<Event>, d: Event, e: Event)
    requires !Cleaning(d) && !Cleaning(e) && forall id :: !(About(d, id) && About(e, id))
    ensures Run(cfg, h + [d, e]) == Run(cfg, h + [e, d])
  {
    forall id ensures SlotOf(Run(cfg, h + [d, e]), id) == SlotOf(Run(cfg, h + [e, d]), id) {
      RunTwo(cfg, h, d, e, id);
      RunTwo(cfg, h, e, d, id);
      assert !(About(d, id) && About(e, id));
    }
    SameSlotsSameCluster(Run(cfg, h + [d, e]), Run(cfg, h + [e, d]));
  }

  lemma RunTwo(cfg: Config, h: seq<Event>, d: Event, e: Event, id: string)
    ensures SlotOf(Run(cfg, h + [d, e]), id) == React(cfg, id, React(cfg, id, RunSlot(cfg, id, h), d), e)
  {
    RunIsSlotwise(cfg, h + [d, e], id);
    assert (h + [d, e])[..|h| + 1] == h + [d];
    assert (h + [d])[..|h|] == h;
  }
}
