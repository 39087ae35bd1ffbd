/** The gossip view read off the event history: who is known, which paths are in a node's
    view, and what is stored for them, without running the tables. */
module GossipHistory {
  import opened Models
  import opened RemoteStore
  import opened Gossip

  // ---------- What a history says ----------

  /** Sync messages and joins, which greet the receiver as a peer. */
  predicate Greets(e: Event, id: string) { About(e, id) && (e.Sync? || e.Join?) }

  /** A message of the node itself, over either endpoint. */
  predicate Speaks(e: Event, id: string) { About(e, id) && (e.Sync? || e.State?) }

  predicate Announces(e: Event, id: string, path: string) {
    Speaks(e, id) && path in InfoMap(e.msg.pathInfos)
  }

  /** Events that refresh the node's last contact. */
  predicate Contacts(e: Event, id: string) {
    Greets(e, id) || (Speaks(e, id) && e.msg.pathInfos != [])
  }

  function LastGreeting(h: seq<Event>, id: string): Option<int> {
    if h == [] then None
    else if Greets(h[|h| - 1], id) then Some(h[|h| - 1].now)
    else LastGreeting(h[..|h| - 1], id)
  }

  function LastContact(h: seq<Event>, id: string): Option<int> {
    if h == [] then None
    else if Contacts(h[|h| - 1], id) then Some(h[|h| - 1].now)
    else LastContact(h[..|h| - 1], id)
  }

  datatype Announcement = Announcement(info: PathInfo, now: Instant)

  function LastAnnouncement(h: seq<Event>, id: string, path: string): Option<Announcement> {
    if h == [] then None
    else
      var e := h[|h| - 1];
      if Announces(e, id, path) then Some(Announcement(InfoMap(e.msg.pathInfos)[path], e.now))
      else LastAnnouncement(h[..|h| - 1], id, path)
  }

  predicate SilentFor(last: Option<int>, now: int, timeout: int) {
    last.Some? && now - last.value > timeout
  }

  /** After the history `before`, event e makes the receiver forget the peer. */
  predicate LosesPeer(cfg: Config, before: seq<Event>, e: Event, id: string) {
    || (Speaks(e, id) && e.msg.deletedNode)
    || (e.Remove? && e.id == id)
    || (e.CleanPeers? && SilentFor(LastGreeting(before, id), e.now, cfg.peerTimeout))
  }

  /** Event e takes a path out of the node's view: a deletion naming it, the loss of the
      peer, or a cleaning at which the node's last contact or the path's last announcement
      was too long ago. */
  predicate LosesPath(cfg: Config, before: seq<Event>, e: Event, id: string, path: string) {
    || (Speaks(e, id) && path in e.msg.deletedPaths)
    || LosesPeer(cfg, before, e, id)
    || (e.CleanNodes? && (SilentFor(LastContact(before, id), e.now, cfg.nodeTimeout)
                          || var a := LastAnnouncement(before, id, path);
                             a.Some? && e.now - a.value.now > cfg.endpointTimeout))
  }

  /** The peer greeted at position i and was not lost then or since. */
  ghost predicate KnownSince(cfg: Config, h: seq<Event>, id: string, i: nat) {
    && i < |h| && Greets(h[i], id) && !LosesPeer(cfg, h[..i], h[i], id)
    && forall j :: i < j < |h| ==> !LosesPeer(cfg, h[..j], h[j], id)
  }

  ghost predicate Known(cfg: Config, h: seq<Event>, id: string) {
    exists i :: KnownSince(cfg, h, id, i)
  }

  /** The path was announced at position i by a node known then, and not lost then or since. */
  ghost predicate InViewSince(cfg: Config, h: seq<Event>, id: string, path: string, i: nat) {
    && i < |h| && Announces(h[i], id, path) && (h[i].Sync? || Known(cfg, h[..i], id))
    && !LosesPath(cfg, h[..i], h[i], id, path)
    && forall j :: i < j < |h| ==> !LosesPath(cfg, h[..j], h[j], id, path)
  }

  ghost predicate InView(cfg: Config, h: seq<Event>, id: string, path: string) {
    exists i :: InViewSince(cfg, h, id, path, i)
  }

  // ---------- One event longer ----------

  lemma KnownNext(cfg: Config, h: seq<Event>, e: Event, id: string)
    ensures Known(cfg, h + [e], id) <==>
              !LosesPeer(cfg, h, e, id) && (Greets(e, id) || Known(cfg, h, id))
  {
    var g := h + [e];
    assert forall j :: 0 <= j <= |h| ==> g[..j] == h[..j];
    assert g[..|h|] == h;
    if i: nat :| KnownSince(cfg, g, id, i) {
      if i < |h| {
        assert KnownSince(cfg, h, id, i) by {
          assert forall j :: i < j < |h| ==> g[j] == h[j];
        }
        assert !LosesPeer(cfg, g[..|h|], g[|h|], id);
      }
    }
    if !LosesPeer(cfg, h, e, id) {
      if Greets(e, id) {
        assert KnownSince(cfg, g, id, |h|);
      } else if i: nat :| KnownSince(cfg, h, id, i) {
        assert KnownSince(cfg, g, id, i);
      }
    }
  }

  lemma InViewNext(cfg: Config, h: seq<Event>, e: Event, id: string, path: string)
    ensures InView(cfg, h + [e], id, path) <==>
              && !LosesPath(cfg, h, e, id, path)
              && ((Announces(e, id, path) && (e.Sync? || Known(cfg, h, id))) || InView(cfg, h, id, path))
  {
    var g := h + [e];
    assert forall j :: 0 <= j <= |h| ==> g[..j] == h[..j];
    assert g[..|h|] == h;
    if i: nat :| InViewSince(cfg, g, id, path, i) {
      if i < |h| {
        assert InViewSince(cfg, h, id, path, i) by {
          assert forall j :: i < j < |h| ==> g[j] == h[j];
        }
        assert !LosesPath(cfg, g[..|h|], g[|h|], id, path);
      }
    }
    if !LosesPath(cfg, h, e, id, path) {
      if Announces(e, id, path) && (e.Sync? || Known(cfg, h, id)) {
        assert InViewSince(cfg, g, id, path, |h|);
      } else if i: nat :| InViewSince(cfg, h, id, path, i) {
        assert InViewSince(cfg, g, id, path, i);
      }
    }
  }

  // ---------- What the tables hold ----------

  /** The state stored for an announcement: health is forced to true, whatever was said. */
  function Stored(a: Announcement): EndpointState {
    EndpointState(a.info.active, a.info.queueLen, true, a.info.maxConcurrent, a.info.plugin, 0, a.now)
  }

  /** The paths of a node record agree with the history. */
  ghost predicate Remembers(h: seq<Event>, id: string, n: RemoteNode) {
    && n.nodeID == id
    && n.descriptions.Keys == n.states.Keys
    && forall p :: p in n.states ==>
         && LastAnnouncement(h, id, p).Some?
         && n.states[p] == Stored(LastAnnouncement(h, id, p).value)
         && n.descriptions[p] == MetaFrom(LastAnnouncement(h, id, p).value.info)
  }

  ghost predicate SlotRecorded(h: seq<Event>, id: string, s: Slot) {
    && (s.node.Some? ==> s.peer.Some? && Remembers(h, id, s.node.value) && LastContact(h, id) == Some(s.node.value.lastSeen))
    && (s.peer.Some? ==> LastGreeting(h, id) == Some(s.peer.value.lastSeen))
  }

  lemma PutStatesEffect(n: RemoteNode, states: map<string, EndpointState>, now: int)
    ensures var m := PutStates(n, states, now);
            && m.states.Keys == n.states.Keys + states.Keys
            && forall p :: p in m.states ==> m.states[p] == if p in states then states[p].(lastSeen := now) else n.states[p]
  {
  }

  lemma PutDescriptionsEffect(n: RemoteNode, ds: map<string, EndpointMetadata>, now: int)
    ensures var m := PutDescriptions(n, ds, now);
            && m.states.Keys == n.states.Keys + ds.Keys
            && m.descriptions.Keys == n.descriptions.Keys + ds.Keys
            && (forall p :: p in m.states ==> m.states[p] == if p in ds then DescribedState(n.states, p, ds[p], now) else n.states[p])
            && (forall p :: p in m.descriptions ==> m.descriptions[p] == if p in ds then ds[p] else n.descriptions[p])
  {
  }

  /** The record of a node after it announced `infos`. */
  ghost predicate Announced(n: RemoteNode, infos: map<string, PathInfo>, now: Instant, m: RemoteNode) {
    && m.nodeID == n.nodeID && m.lastSeen == now
    && m.states.Keys == n.states.Keys + infos.Keys
    && m.descriptions.Keys == n.descriptions.Keys + infos.Keys
    && (forall p :: p in m.states ==>
          m.states[p] == if p in infos then Stored(Announcement(infos[p], now)) else n.states[p])
    && (forall p :: p in m.descriptions ==>
          m.descriptions[p] == if p in infos then MetaFrom(infos[p]) else n.descriptions[p])
  }

  lemma AnnounceEffect(n: RemoteNode, infos: seq<PathInfo>, now: Instant)
    ensures Announced(n, InfoMap(infos), now, Announce(n, infos, now))
  {
    AnnounceMapEffect(n, InfoMap(infos), StatesOf(infos), MetasOf(infos), now);
  }

  lemma AnnounceMapEffect(n: RemoteNode, infos: map<string, PathInfo>, states: map<string, EndpointState>,
                          ds: map<string, EndpointMetadata>, now: Instant)
    requires states.Keys == ds.Keys == infos.Keys
    requires forall p :: p in infos ==> states[p] == StateFrom(infos[p]) && ds[p] == MetaFrom(infos[p])
    ensures Announced(n, infos, now, PutDescriptions(PutStates(n, states, now), ds, now))
  {
    var k := PutStates(n, states, now);
    var m := PutDescriptions(k, ds, now);
    PutStatesEffect(n, states, now);
    PutDescriptionsEffect(k, ds, now);
    forall p | p in m.states
      ensures m.states[p] == if p in infos then Stored(Announcement(infos[p], now)) else n.states[p]
    {
      assert p in infos ==> m.states[p] == DescribedState(k.states, p, ds[p], now);
    }
  }

  lemma {:induction false} DropPathsEffect(n: RemoteNode, paths: seq<string>)
    ensures var m := DropPaths(n, paths);
            && m == n.(states := m.states, descriptions := m.descriptions)
            && m.states == n.states - (set p | p in paths)
            && m.descriptions == n.descriptions - (set p | p in paths)
  {
    if paths != [] {
      var init, last := paths[..|paths| - 1], paths[|paths| - 1];
      DropPathsEffect(n, init);
      assert (set p | p in paths) == (set p | p in init) + {last};
    }
  }

  lemma DropRemembers(h: seq<Event>, id: string, n: RemoteNode, paths: seq<string>)
    requires Remembers(h, id, n)
    ensures Remembers(h, id, DropPaths(n, paths)) && DropPaths(n, paths).lastSeen == n.lastSeen
  {
    DropPathsEffect(n, paths);
  }

  lemma AnnounceRemembers(h: seq<Event>, e: Event, id: string, n: RemoteNode)
    requires Speaks(e, id) && Remembers(h, id, n)
    ensures Remembers(h + [e], id, Announce(n, e.msg.pathInfos, e.now))
    ensures Announce(n, e.msg.pathInfos, e.now).lastSeen == e.now
  {
    AnnounceEffect(n, e.msg.pathInfos, e.now);
    var m := Announce(n, e.msg.pathInfos, e.now);
    assert m.descriptions.Keys == m.states.Keys;
    forall p | p in m.states
      ensures LastAnnouncement(h + [e], id, p).Some?
      ensures m.states[p] == Stored(LastAnnouncement(h + [e], id, p).value)
      ensures m.descriptions[p] == MetaFrom(LastAnnouncement(h + [e], id, p).value.info)
    {
      LastAnnouncementNext(h, e, id, p);
      assert p in m.descriptions;
    }
  }

  lemma LastAnnouncementNext(h: seq<Event>, e: Event, id: string, p: string)
    ensures LastAnnouncement(h + [e], id, p)
         == if Announces(e, id, p) then Some(Announcement(InfoMap(e.msg.pathInfos)[p], e.now)) else LastAnnouncement(h, id, p)
  {
    assert (h + [e])[..|h|] == h;
  }

  /** An event that announces nothing for this node leaves what is remembered. */
  lemma QuietRemembers(h: seq<Event>, e: Event, id: string, n: RemoteNode)
    requires Remembers(h, id, n) && forall p :: !Announces(e, id, p)
    ensures Remembers(h + [e], id, n)
  {
    assert (h + [e])[..|h|] == h;
  }

  /** Hearing a message of a node whose record agreed with the history before it. */
  lemma HandleRecorded(cfg: Config, h: seq<Event>, e: Event, id: string, s: Slot)
    requires Speaks(e, id)
    requires s.node.Some? ==> s.peer.Some? && Remembers(h, id, s.node.value)
    requires s.node.Some? ==> if e.Sync? then s.node.value.lastSeen == e.now else LastContact(h, id) == Some(s.node.value.lastSeen)
    ensures var t := Handle(cfg, s, e.msg, e.now);
            && (t.peer.Some? ==> t.peer == s.peer)
            && (t.node.Some? ==> t.peer.Some? && Remembers(h + [e], id, t.node.value)
                                 && LastContact(h + [e], id) == Some(t.node.value.lastSeen))
  {
    assert (h + [e])[..|h|] == h;
    var heard := Heard(cfg, s, e.msg, e.now);
    if s != EMPTY && e.msg.pathInfos != [] {
      AnnounceRemembers(h, e, id, if s.node.Some? then s.node.value
                                  else NewNode(id, s.peer.value.address, cfg.listenPort, e.now));
    } else if s.node.Some? {
      QuietRemembers(h, e, id, s.node.value);
    }
    if heard.node.Some? {
      DropRemembers(h + [e], id, heard.node.value, e.msg.deletedPaths);
    }
  }

  lemma GreetRecorded(h: seq<Event>, e: Event, id: string, s: Slot)
    requires Greets(e, id) && SlotRecorded(h, id, s)
    ensures var t := Hello(s, id, e.origin, e.now);
            && t.peer.Some? && t.peer.value.lastSeen == e.now
            && (t.node.Some? ==> Remembers(h, id, t.node.value) && t.node.value.lastSeen == e.now)
  {
  }

  lemma CleanRecorded(cfg: Config, h: seq<Event>, e: Event, id: string, s: Slot)
    requires SlotRecorded(h, id, s) && !About(e, id)
    ensures SlotRecorded(h + [e], id, React(cfg, id, s, e))
  {
    assert (h + [e])[..|h|] == h;
    if s.node.Some? {
      QuietRemembers(h, e, id, s.node.value);
    }
  }

  lemma SlotRecordedStep(cfg: Config, h: seq<Event>, e: Event, id: string, s: Slot)
    requires SlotRecorded(h, id, s)
    ensures SlotRecorded(h + [e], id, React(cfg, id, s, e))
  {
    assert (h + [e])[..|h|] == h;
    if !About(e, id) {
      CleanRecorded(cfg, h, e, id, s);
    } else if e.Sync? {
      GreetRecorded(h, e, id, s);
      HandleRecorded(cfg, h, e, id, Hello(s, id, e.origin, e.now));
    } else if e.State? {
      HandleRecorded(cfg, h, e, id, s);
    } else if e.Join? {
      GreetRecorded(h, e, id, s);
      var t := Hello(s, id, e.origin, e.now);
      if t.node.Some? {
        QuietRemembers(h, e, id, t.node.value);
      }
    }
  }

  lemma {:induction false} AlwaysRecorded(cfg: Config, h: seq<Event>, id: string)
    ensures SlotRecorded(h, id, RunSlot(cfg, id, h))
  {
    if h != [] {
      AlwaysRecorded(cfg, h[..|h| - 1], id);
      SlotRecordedStep(cfg, h[..|h| - 1], h[|h| - 1], id, RunSlot(cfg, id, h[..|h| - 1]));
      assert h[..|h| - 1] + [h[|h| - 1]] == h;
    }
  }

  // ---------- The view is what the history says ----------

  predicate Shows(s: Slot, path: string) {
    s.node.Some? && path in s.node.value.states
  }

  lemma HandleShows(cfg: Config, s: Slot, msg: Message, now: Instant, path: string)
    requires s.node.Some? ==> s.peer.Some?
    ensures Handle(cfg, s, msg, now).peer.Some? <==> s.peer.Some? && !msg.deletedNode
    ensures Shows(Handle(cfg, s, msg, now), path) <==>
              && !msg.deletedNode && path !in msg.deletedPaths
              && ((s.peer.Some? && path in InfoMap(msg.pathInfos)) || Shows(s, path))
  {
    var heard := Heard(cfg, s, msg, now);
    if s != EMPTY && msg.pathInfos != [] {
      AnnounceEffect(if s.node.Some? then s.node.value else NewNode(msg.nodeID, s.peer.value.address, cfg.listenPort, now),
                     msg.pathInfos, now);
    }
    if heard.node.Some? {
      DropPathsEffect(heard.node.value, msg.deletedPaths);
    }
  }

  lemma ReactShows(cfg: Config, h: seq<Event>, e: Event, id: string, s: Slot, path: string)
    requires SlotRecorded(h, id, s)
    ensures React(cfg, id, s, e).peer.Some? <==> !LosesPeer(cfg, h, e, id) && (Greets(e, id) || s.peer.Some?)
    ensures Shows(React(cfg, id, s, e), path) <==>
              && !LosesPath(cfg, h, e, id, path)
              && ((Announces(e, id, path) && (e.Sync? || s.peer.Some?)) || Shows(s, path))
  {
    match e {
      case Sync(msg, o, now) =>
        if About(e, id) {
          HandleShows(cfg, Hello(s, id, o, now), msg, now, path);
        }
      case State(msg, now) =>
        if About(e, id) {
          HandleShows(cfg, s, msg, now, path);
        }
      case Join(_, _, _) =>
      case Remove(_) =>
      case CleanPeers(_) =>
      case CleanNodes(_) =>
    }
  }

  lemma {:induction false} SlotShows(cfg: Config, h: seq<Event>, id: string, path: string)
    ensures RunSlot(cfg, id, h).peer.Some? <==> Known(cfg, h, id)
    ensures Shows(RunSlot(cfg, id, h), path) <==> InView(cfg, h, id, path)
  {
    if h != [] {
      var init, last := h[..|h| - 1], h[|h| - 1];
      assert init + [last] == h;
      SlotShows(cfg, init, id, path);
      AlwaysRecorded(cfg, init, id);
      ReactShows(cfg, init, last, id, RunSlot(cfg, id, init), path);
      KnownNext(cfg, init, last, id);
      InViewNext(cfg, init, last, id, path);
    }
  }

  /** After any run, a path is in the view of a node exactly when that node announced it
      while known and nothing later removed it; a node is a peer exactly when it greeted
      and nothing later removed it; and what is stored for the path is its last
      announcement, with the health flag forced to true. */
  lemma ViewFollowsHistory(cfg: Config, h: seq<Event>, id: string, path: string)
    ensures var c := Run(cfg, h);
            && (id in c.peers <==> Known(cfg, h, id))
            && (id in c.nodes && path in c.nodes[id].states <==> InView(cfg, h, id, path))
            && (id in c.nodes && path in c.nodes[id].states ==>
                  && LastAnnouncement(h, id, path).Some?
                  && c.nodes[id].states[path] == Stored(LastAnnouncement(h, id, path).value)
                  && path in c.nodes[id].descriptions
                  && c.nodes[id].descriptions[path] == MetaFrom(LastAnnouncement(h, id, path).value.info))
  {
    RunIsSlotwise(cfg, h, id);
    SlotShows(cfg, h, id, path);
    AlwaysRecorded(cfg, h, id);
    assert SlotOf(Run(cfg, h), id) == RunSlot(cfg, id, h);
  }

  /** The peer became known at position i and has not been lost since. */
  ghost predicate MetAt(cfg: Config, h: seq<Event>, id: string, i: nat) {
    KnownSince(cfg, h, id, i) && !Known(cfg, h[..i], id)
  }

  /** A peer's address is that of the greeting that first made it known; later greetings
      refresh its time only. */
  lemma PeerAddressIsFirst(cfg: Config, h: seq<Event>, id: string)
    requires id in Run(cfg, h).peers
    ensures exists i: nat :: MetAt(cfg, h, id, i) && Run(cfg, h).peers[id].address == h[i].origin.address
  {
    RunIsSlotwise(cfg, h, id);
    assert SlotOf(Run(cfg, h), id).peer.Some?;
    var i := SlotAddressIsFirst(cfg, h, id);
  }

  lemma {:induction false} SlotAddressIsFirst(cfg: Config, h: seq<Event>, id: string) returns (i: nat)
    requires RunSlot(cfg, id, h).peer.Some?
    ensures MetAt(cfg, h, id, i) && RunSlot(cfg, id, h).peer.value.address == h[i].origin.address
  {
    var init, last := h[..|h| - 1], h[|h| - 1];
    assert init + [last] == h;
    SlotShows(cfg, init, id, "");
    AlwaysRecorded(cfg, init, id);
    ReactShows(cfg, init, last, id, RunSlot(cfg, id, init), "");
    ReactAddress(cfg, init, last, id, RunSlot(cfg, id, init));
    if RunSlot(cfg, id, init).peer.Some? {
      i := SlotAddressIsFirst(cfg, init, id);
      MetStays(cfg, init, last, id, i);
    } else {
      i := |init|;
      MetNow(cfg, init, last, id);
    }
  }

  lemma MetStays(cfg: Config, h: seq<Event>, e: Event, id: string, i: nat)
    requires MetAt(cfg, h, id, i) && !LosesPeer(cfg, h, e, id)
    ensures MetAt(cfg, h + [e], id, i)
  {
    var g := h + [e];
    assert forall j :: 0 <= j <= |h| ==> g[..j] == h[..j];
    assert g[..|h|] == h;
  }

  lemma MetNow(cfg: Config, h: seq<Event>, e: Event, id: string)
    requires !Known(cfg, h, id) && Greets(e, id) && !LosesPeer(cfg, h, e, id)
    ensures MetAt(cfg, h + [e], id, |h|)
  {
    assert (h + [e])[..|h|] == h;
  }

  lemma ReactAddress(cfg: Config, h: seq<Event>, e: Event, id: string, s: Slot)
    requires SlotRecorded(h, id, s) && React(cfg, id, s, e).peer.Some?
    ensures s.peer.Some? ==> React(cfg, id, s, e).peer.value.address == s.peer.value.address
    ensures s.peer.None? ==> Greets(e, id) && React(cfg, id, s, e).peer.value.address == e.origin.address
  {
    if e.Sync? && About(e, id) {
      HandleShows(cfg, Hello(s, id, e.origin, e.now), e.msg, e.now, "");
    }
  }

  // ---------- Where a node's requests are sent ----------

  /** After the history `before`, event e drops the node for its silence and keeps the peer. */
  predicate DropsNode(cfg: Config, before: seq<Event>, e: Event, id: string) {
    e.CleanNodes? && SilentFor(LastContact(before, id), e.now, cfg.nodeTimeout)
  }

  ghost predicate DroppedSince(cfg: Config, h: seq<Event>, id: string, i: nat) {
    exists j :: i < j < |h| && DropsNode(cfg, h[..j], h[j], id)
  }

  /** Host and port of the greeting that made the peer known; once the node has been dropped
      and announced itself again, the peer's address as given and this node's own port. */
  ghost function SentTo(cfg: Config, h: seq<Event>, id: string, i: nat): (string, int)
    requires i < |h| && Greets(h[i], id)
  {
    if DroppedSince(cfg, h, id, i) then (h[i].origin.address, cfg.listenPort) else (h[i].origin.host, h[i].origin.port)
  }

  ghost predicate Located(cfg: Config, h: seq<Event>, id: string, s: Slot, i: nat) {
    && MetAt(cfg, h, id, i) && s.peer.Some? && s.peer.value.address == h[i].origin.address
    && (s.node.None? ==> DroppedSince(cfg, h, id, i))
    && (s.node.Some? ==> (s.node.value.address, s.node.value.servicePort) == SentTo(cfg, h, id, i))
  }

  lemma DroppedNext(cfg: Config, h: seq<Event>, e: Event, id: string, i: nat)
    ensures DroppedSince(cfg, h + [e], id, i) <==> i < |h| && (DroppedSince(cfg, h, id, i) || DropsNode(cfg, h, e, id))
  {
    var g := h + [e];
    assert g[..|h|] == h && g[|h|] == e;
    if j :| i < j < |g| && DropsNode(cfg, g[..j], g[j], id) {
      if j < |h| {
        assert g[..j] == h[..j] && g[j] == h[j];
      }
    }
    if j :| i < j < |h| && DropsNode(cfg, h[..j], h[j], id) {
      assert g[..j] == h[..j] && g[j] == h[j];
    }
    if i < |h| && DropsNode(cfg, h, e, id) {
      assert DropsNode(cfg, g[..|h|], g[|h|], id);
    }
  }

  lemma {:induction false} DropPathsKeepAddress(n: RemoteNode, paths: seq<string>)
    ensures DropPaths(n, paths).address == n.address && DropPaths(n, paths).servicePort == n.servicePort
  {
    if paths != [] {
      DropPathsKeepAddress(n, paths[..|paths| - 1]);
    }
  }

  /** What one event does to the address of a node. */
  lemma ReactNode(cfg: Config, h: seq<Event>, e: Event, id: string, s: Slot)
    requires SlotRecorded(h, id, s) && React(cfg, id, s, e).peer.Some?
    ensures var t := React(cfg, id, s, e);
            && (s.peer.None? ==> Greets(e, id) && t.node.Some?
                                 && t.node.value.address == e.origin.host && t.node.value.servicePort == e.origin.port)
            && (s.peer.Some? && s.node.Some? ==>
                  && (t.node.None? <==> DropsNode(cfg, h, e, id))
                  && (t.node.Some? ==> t.node.value.address == s.node.value.address
                                       && t.node.value.servicePort == s.node.value.servicePort))
            && (s.peer.Some? && s.node.None? && t.node.Some? ==>
                  t.node.value.address == s.peer.value.address && t.node.value.servicePort == cfg.listenPort)
  {
    ReactAddress(cfg, h, e, id, s);
    if About(e, id) && (e.Sync? || e.State?) {
      var hello := if e.Sync? then Hello(s, id, e.origin, e.now) else s;
      var heard := Heard(cfg, hello, e.msg, e.now);
      if heard.node.Some? {
        DropPathsKeepAddress(heard.node.value, e.msg.deletedPaths);
      }
    }
  }

  lemma {:induction false} SlotLocated(cfg: Config, h: seq<Event>, id: string) returns (i: nat)
    requires RunSlot(cfg, id, h).peer.Some?
    ensures Located(cfg, h, id, RunSlot(cfg, id, h), i)
  {
    var init, last := h[..|h| - 1], h[|h| - 1];
    var s := RunSlot(cfg, id, init);
    assert init + [last] == h;
    SlotShows(cfg, init, id, "");
    AlwaysRecorded(cfg, init, id);
    ReactShows(cfg, init, last, id, s, "");
    ReactAddress(cfg, init, last, id, s);
    ReactNode(cfg, init, last, id, s);
    if s.peer.Some? {
      i := SlotLocated(cfg, init, id);
      MetStays(cfg, init, last, id, i);
    } else {
      i := |init|;
      MetNow(cfg, init, last, id);
    }
    DroppedNext(cfg, init, last, id, i);
  }

  /** The address and port that requests for a node are sent to are those of the greeting that
      first made it known, unless the node was dropped for its silence since: then they are
      the peer's address as given and the port this node listens on itself. */
  lemma AddressFollowsHistory(cfg: Config, h: seq<Event>, id: string)
    requires id in Run(cfg, h).nodes
    ensures exists i: nat :: MetAt(cfg, h, id, i)
                             && (Run(cfg, h).nodes[id].address, Run(cfg, h).nodes[id].servicePort) == SentTo(cfg, h, id, i)
  {
    RunIsSlotwise(cfg, h, id);
    AlwaysRecorded(cfg, h, id);
    assert SlotOf(Run(cfg, h), id).node.Some?;
    var i := SlotLocated(cfg, h, id);
  }
}
