/** A request travelling through the cluster. Its whole memory is the comma-joined
    X-Forwarded-By header: the router reads it as a set, the forwarder as a text. */
module Forwarding {
  import opened GoStrings
  import opened Models
  import opened Routing
  import opened Router
  import opened PathRewrite

  datatype Where =
    | At(node: string, header: string, path: string)
    | ServedAt(node: string, nodePath: string, path: string)
    | LoopDetected(node: string)
    | NotFoundAt(node: string)
    | BadTarget(node: string)

  /** How a forwarder extends the header. */
  function AppendHop(header: string, id: string): string {
    if header != "" then header + "," + id else id
  }

  /** What happens once a candidate is chosen: local service, or the forwarder's loop
      check and the next hop. A forward to a node id arrives at the node of that id. */
  function Dispatch(self: string, header: string, path: string, c: RemoteNode): Where {
    if c.nodeID == self && c.address == "127.0.0.1" then ServedAt(self, c.nodePath, path)
    else if Contains(header, self) then LoopDetected(self)
    else
      match HopPath(TargetPath(path, c))
      case None => BadTarget(self)
      case Some(p) => At(c.nodeID, AppendHop(header, self), p)
  }

  /** The candidates the balancer chooses from: the plugins if there are any. */
  ghost function Choices(v: NodeView, path: string, header: string): seq<RemoteNode> {
    var plugins := Candidates(v, path, Seen(header), true);
    if plugins != [] then plugins else Candidates(v, path, Seen(header), false)
  }

  /** One node handles the request, with whatever its registry holds at that moment and
      whichever candidate the balancer picks. */
  ghost predicate Handles(v: NodeView, s: Where, t: Where) {
    && s.At? && s.node == v.self
    && var cs := Choices(v, s.path, s.header);
       if cs == [] then t == NotFoundAt(v.self)
       else exists c :: c in cs && t == Dispatch(v.self, s.header, s.path, c)
  }

  /** All that most proofs need to know of it: the request was not found, or some node that
      qualifies as a candidate was picked. */
  ghost predicate Step(v: NodeView, s: Where, t: Where) {
    && s.At? && s.node == v.self
    && (t == NotFoundAt(v.self)
        || exists c :: IsCandidate(v, s.path, Seen(s.header), c) && t == Dispatch(v.self, s.header, s.path, c))
  }

  lemma HandlesIsStep(v: NodeView, s: Where, t: Where)
    requires Handles(v, s, t)
    ensures Step(v, s, t)
  {
    if Choices(v, s.path, s.header) != [] {
      var c := PickedChoice(v, s, t);
    }
  }

  /** The candidate behind the handling of a request that was found. */
  lemma PickedChoice(v: NodeView, s: Where, t: Where) returns (c: RemoteNode)
    requires Handles(v, s, t) && Choices(v, s.path, s.header) != []
    ensures c in Choices(v, s.path, s.header) && IsCandidate(v, s.path, Seen(s.header), c)
    ensures t == Dispatch(v.self, s.header, s.path, c)
  {
    c :| c in Choices(v, s.path, s.header) && t == Dispatch(v.self, s.header, s.path, c);
    CandidatesSound(v, s.path, Seen(s.header), Candidates(v, s.path, Seen(s.header), true) != [], c);
  }

  /** The candidate is the node itself. */
  predicate Local(v: NodeView, c: RemoteNode) {
    c.nodeID == v.self && c.address == "127.0.0.1"
  }

  ghost predicate HasLocal(v: NodeView, cs: seq<RemoteNode>) {
    exists c :: c in cs && Local(v, c)
  }

  ghost predicate HasRemote(v: NodeView, cs: seq<RemoteNode>) {
    exists c :: c in cs && !Local(v, c)
  }

  /** What each answer of a node says about the candidates, the header and the path. */
  ghost predicate Explained(v: NodeView, header: string, path: string, t: Where) {
    var cs := Choices(v, path, header);
    match t
    case NotFoundAt(n) => n == v.self && cs == []
    case ServedAt(n, nodePath, p) => n == v.self && p == path && exists c :: c in cs && Local(v, c) && c.nodePath == nodePath
    case LoopDetected(n) => n == v.self && HasRemote(v, cs) && Contains(header, v.self)
    case BadTarget(n) => n == v.self && HasRemote(v, cs) && !Contains(header, v.self) && HopPath(path).None?
    case At(n, next, p) =>
      && (exists c :: c in cs && !Local(v, c) && c.nodeID == n)
      && !Contains(header, v.self) && HopPath(path) == Some(p)
      && next == if header == "" then v.self else header + "," + v.self
  }

  lemma HandlesExplained(v: NodeView, s: Where, t: Where)
    requires Handles(v, s, t)
    ensures Explained(v, s.header, s.path, t)
  {
    if Choices(v, s.path, s.header) != [] {
      var c := PickedChoice(v, s, t);
      DispatchExplained(v, s.header, s.path, c);
    }
  }

  lemma DispatchExplained(v: NodeView, header: string, path: string, c: RemoteNode)
    requires c in Choices(v, path, header) && c.servicePath == ""
    ensures Explained(v, header, path, Dispatch(v.self, header, path, c))
  {
  }

  /** A node all of whose candidates are itself serves the request, whatever its header says;
      one that has none of its own never does. */
  lemma ServesIff(v: NodeView, header: string, path: string, t: Where)
    requires Explained(v, header, path, t)
    ensures HasLocal(v, Choices(v, path, header)) && !HasRemote(v, Choices(v, path, header)) ==> t.ServedAt?
    ensures !HasLocal(v, Choices(v, path, header)) ==> !t.ServedAt?
    ensures HasRemote(v, Choices(v, path, header)) && !HasLocal(v, Choices(v, path, header)) ==>
              && (t.LoopDetected? <==> Contains(header, v.self))
              && (t.BadTarget? <==> !Contains(header, v.self) && HopPath(path).None?)
              && (t.At? <==> !Contains(header, v.self) && HopPath(path).Some?)
    ensures t.BadTarget? ==> !PlainPath(path)
  {
    HopKeepsPathIff(path);
  }

  /** Where no remote node passes for the node itself, the path served under is the longest
      healthy local match. */
  lemma ServedUnderLongest(v: NodeView, header: string, path: string, t: Where)
    requires Explained(v, header, path, t) && t.ServedAt? && forall n :: n in v.remote ==> !Local(v, n)
    ensures t == ServedAt(v.self, Longest(path, HealthyLocalPaths(v.representatives)), path)
  {
    var c :| c in Choices(v, path, header) && Local(v, c) && c.nodePath == t.nodePath;
    CandidatesSound(v, path, Seen(header), Candidates(v, path, Seen(header), true) != [], c);
  }

  /** handleRequest of the business server: route, then serve locally or forward. Every
      outcome is a step, so all that is proved of traces holds of the code's runs. A crash
      of the selection ends the request. */
  method HandleAndForward(v: NodeView, header: string, path: string) returns (t: Option<Where>)
    ensures t.Some? ==> Handles(v, At(v.self, header, path), t.value) && Step(v, At(v.self, header, path), t.value)
    ensures t.Some? ==> Explained(v, header, path, t.value)
    ensures t == Some(NotFoundAt(v.self)) <==>
              Candidates(v, path, Seen(header), true) == [] && Candidates(v, path, Seen(header), false) == []
    ensures Represented(v) && LocallyServed(v, path) && v.self !in Seen(header) ==> t != Some(NotFoundAt(v.self))
    ensures t.Some? && HasLocal(v, Choices(v, path, header)) && !HasRemote(v, Choices(v, path, header)) ==> t.value.ServedAt?
    ensures Loadable(Choices(v, path, header)) || |Choices(v, path, header)| == 1 ==> t.Some?
  {
    var d := HandleRequest(v, path, header);
    match d {
      case NotFound => t := Some(NotFoundAt(v.self));
      case NoHealthyNode => t := None;
      case Crashed => t := None;
      case Chosen(c, plugin) =>
        if c.nodeID == v.self && c.address == "127.0.0.1" {
          t := Some(ServedAt(v.self, c.nodePath, path));
        } else {
          var u := Forward(v.self, header, path, c);
          t := Some(u);
        }
        assert c in Choices(v, path, header) && t.value == Dispatch(v.self, header, path, c);
    }
    if t.Some? {
      HandlesIsStep(v, At(v.self, header, path), t.value);
      HandlesExplained(v, At(v.self, header, path), t.value);
      ServesIff(v, header, path, t.value);
    }
  }

  /** HandleForwardedRequestWithError, as far as it decides where the request goes. */
  method Forward(self: string, header: string, path: string, c: RemoteNode) returns (t: Where)
    requires !(c.nodeID == self && c.address == "127.0.0.1")
    ensures t == Dispatch(self, header, path, c)
    ensures !t.ServedAt? && !t.NotFoundAt?
  {
    if Contains(header, self) {
      return LoopDetected(self);
    }
    var target := path;
    if c.servicePath != "" {
      target := TrimPrefix(path, c.nodePath);
      if !HasSuffix(c.nodePath, "/") && target == "" {
        target := "/";
      }
    }
    match HopPath(target) {
      case None => t := BadTarget(self);
      case Some(p) =>
        if header != "" {
          t := At(c.nodeID, header + "," + self, p);
        } else {
          t := At(c.nodeID, self, p);
        }
    }
  }

  ghost predicate Trace(views: seq<NodeView>, states: seq<Where>) {
    && |states| == |views| + 1
    && forall i :: 0 <= i < |views| ==> StepAt(views, states, i)
  }

  /** A trace in which every node does exactly what it does with its candidates. */
  ghost predicate ExactTrace(views: seq<NodeView>, states: seq<Where>) {
    && |states| == |views| + 1
    && forall i :: 0 <= i < |views| ==> HandlesAt(views, states, i)
  }

  ghost predicate HandlesAt(views: seq<NodeView>, states: seq<Where>, i: int)
    requires 0 <= i < |views| && |states| == |views| + 1
  {
    Handles(views[i], states[i], states[i + 1])
  }

  lemma ExactIsTrace(views: seq<NodeView>, states: seq<Where>)
    requires ExactTrace(views, states)
    ensures Trace(views, states)
  {
    forall i | 0 <= i < |views| ensures StepAt(views, states, i) {
      assert HandlesAt(views, states, i);
      HandlesIsStep(views[i], states[i], states[i + 1]);
    }
  }

  ghost predicate StepAt(views: seq<NodeView>, states: seq<Where>, i: int)
    requires 0 <= i < |views| && |states| == |views| + 1
  {
    Step(views[i], states[i], states[i + 1])
  }

  lemma TraceStep(views: seq<NodeView>, states: seq<Where>, i: nat)
    requires Trace(views, states) && i < |views|
    ensures Step(views[i], states[i], states[i + 1])
  {
    assert StepAt(views, states, i);
  }

  // ---------- At most one forward per node ----------

  /** The request went from s to t: the loop check passed and the header grew. */
  predicate Hop(s: Where, t: Where) {
    s.At? && t.At? && !Contains(s.header, s.node) && t.header == AppendHop(s.header, s.node)
  }

  /** The first k steps of a trace all forward the request. */
  predicate Hops(states: seq<Where>, k: nat) {
    k < |states| && states[0].At? && forall i :: 0 <= i < k ==> Hop(states[i], states[i + 1])
  }

  lemma StepIsHop(v: NodeView, s: Where, t: Where)
    requires Step(v, s, t)
    ensures s.At? && (t.At? ==> Hop(s, t))
  {
  }

  lemma HopAt(views: seq<NodeView>, states: seq<Where>, i: nat)
    requires Trace(views, states) && i < |views|
    ensures states[i].At? && (states[i + 1].At? ==> Hop(states[i], states[i + 1]))
  {
    TraceStep(views, states, i);
    StepIsHop(views[i], states[i], states[i + 1]);
  }

  /** In a trace, every step that leaves the request under way is a hop. */
  lemma TraceHops(views: seq<NodeView>, states: seq<Where>, k: nat)
    requires Trace(views, states) && k < |states| && states[k].At?
    ensures Hops(states, k)
  {
    forall i | 0 <= i < k ensures states[i].At? {
      HopAt(views, states, i);
    }
    forall i | 0 <= i < k ensures Hop(states[i], states[i + 1]) {
      HopAt(views, states, i);
    }
  }

  lemma AppendHopContains(header: string, id: string, t: string)
    requires Contains(header, t) || t == id
    ensures Contains(AppendHop(header, id), t)
  {
    if header == "" {
      if t != id {
        ContainsAppend(header, id, t);
        assert header + id == id;
      } else {
        ContainsSelf(id);
      }
    } else if t == id {
      ContainsSelf(id);
      ContainsPrepend(header + ",", id, t);
    } else {
      ContainsAppend(header, "," + id, t);
      assert header + ("," + id) == header + "," + id;
    }
  }

  /** Every text in a header stays in it. */
  lemma {:induction false} HeaderKeeps(states: seq<Where>, i: nat, k: nat, t: string)
    requires Hops(states, k) && i <= k && states[i].At? && Contains(states[i].header, t)
    ensures states[k].At? && Contains(states[k].header, t)
    decreases k
  {
    if i < k {
      assert Hop(states[k - 1], states[k]);
      HeaderKeeps(states, i, k - 1, t);
      AppendHopContains(states[k - 1].header, states[k - 1].node, t);
    }
  }

  /** No node forwards the same request twice, whatever header it entered with. */
  lemma NoNodeForwardsTwice(states: seq<Where>, i: nat, j: nat, k: nat)
    requires Hops(states, k) && i < j < k
    ensures states[i].At? && states[j].At? && states[i].node != states[j].node
  {
    assert Hop(states[i], states[i + 1]);
    assert Hop(states[j], states[j + 1]);
    AppendHopContains(states[i].header, states[i].node, states[i].node);
    HeaderKeeps(states, i + 1, j, states[i].node);
  }

  /** The nodes that forwarded, as a list. */
  function Visited(states: seq<Where>, k: nat): (ids: seq<string>)
    requires Hops(states, k)
    ensures |ids| == k && forall i :: 0 <= i < k ==> states[i].At? && ids[i] == states[i].node
  {
    if k == 0 then []
    else
      assert Hop(states[k - 1], states[k]);
      Visited(states, k - 1) + [states[k - 1].node]
  }

  lemma {:induction false} DistinctSize(ids: seq<string>)
    requires forall i, j :: 0 <= i < j < |ids| ==> ids[i] != ids[j]
    ensures |set id | id in ids| == |ids|
  {
    if ids != [] {
      var init, last := ids[..|ids| - 1], ids[|ids| - 1];
      DistinctSize(init);
      assert (set id | id in ids) == (set id | id in init) + {last};
    }
  }

  /** In a cluster, a request is forwarded at most once per node id that its first header
      does not already contain, whatever the registries hold and however they change. */
  lemma ForwardsAreBounded(views: seq<NodeView>, states: seq<Where>, k: nat, cluster: set<string>)
    requires Trace(views, states) && k < |states| && states[k].At?
    requires forall i :: 0 <= i < k && states[i].At? ==> states[i].node in cluster
    ensures states[0].At? && k <= |set n | n in cluster && !Contains(states[0].header, n)| <= |cluster|
  {
    TraceHops(views, states, k);
    var free := set n | n in cluster && !Contains(states[0].header, n);
    var ids := Visited(states, k);
    forall i, j | 0 <= i < j < k ensures ids[i] != ids[j] {
      NoNodeForwardsTwice(states, i, j, k);
    }
    DistinctSize(ids);
    forall i | 0 <= i < k ensures ids[i] in free {
      NotInFirstHeader(states, i, k);
    }
    SubsetSize((set id | id in ids), free);
    SubsetSize(free, cluster);
  }

  lemma NotInFirstHeader(states: seq<Where>, i: nat, k: nat)
    requires Hops(states, k) && i < k
    ensures states[i].At? && !Contains(states[0].header, states[i].node)
  {
    assert Hop(states[i], states[i + 1]);
    if Contains(states[0].header, states[i].node) {
      HeaderKeeps(states, 0, i, states[i].node);
    }
  }

  lemma SubsetSize<T>(a: set<T>, b: set<T>)
    requires a <= b
    ensures |a| <= |b|
  {
    assert b == a + (b - a);
  }

  // ---------- The header is the list of visited nodes ----------

  /** Ids that survive the round trip through the header. */
  predicate WellFormedID(id: string) {
    id != "" && ',' !in id && TrimSpace(id) == id
  }

  lemma {:induction false} HeaderOfHops(hops: seq<string>, id: string)
    requires forall h :: h in hops ==> h != ""
    ensures AppendHop(Join(hops, ','), id) == Join(hops + [id], ',')
  {
    if hops != [] {
      JoinAppend(hops, id, ',');
      assert hops[0] in hops;
    }
  }

  /** Splitting the joined header gives back exactly the set of forwarders. */
  lemma SeenIsHops(hops: seq<string>)
    requires forall h :: h in hops ==> WellFormedID(h)
    ensures Seen(Join(hops, ',')) == set h | h in hops
  {
    if hops != [] {
      assert WellFormedID(hops[0]);
      SplitJoin(hops, ',');
    }
  }

  /** No registry lists its own node as a remote one. */
  ghost predicate NoSelfListing(views: seq<NodeView>) {
    forall i, n :: 0 <= i < |views| && n in views[i].remote ==> n.nodeID != views[i].self
  }

  ghost predicate CleanIDs(states: seq<Where>) {
    forall i :: 0 <= i < |states| && states[i].At? ==> WellFormedID(states[i].node)
  }

  lemma NextIsNew(v: NodeView, s: Where, t: Where)
    requires Step(v, s, t) && t.At?
    requires forall n :: n in v.remote ==> n.nodeID != v.self
    ensures t.node !in Seen(s.header) && t.node != s.node
  {
    var c := ChosenCandidate(v, s, t);
    GoesElsewhere(v, s.header, s.path, c);
  }

  lemma GoesElsewhere(v: NodeView, header: string, path: string, c: RemoteNode)
    requires IsCandidate(v, path, Seen(header), c) && Dispatch(v.self, header, path, c).At?
    requires forall n :: n in v.remote ==> n.nodeID != v.self
    ensures Dispatch(v.self, header, path, c).node !in Seen(header) && Dispatch(v.self, header, path, c).node != v.self
  {
  }

  /** The candidate behind a step. */
  lemma ChosenCandidate(v: NodeView, s: Where, t: Where) returns (c: RemoteNode)
    requires Step(v, s, t) && !t.NotFoundAt?
    ensures IsCandidate(v, s.path, Seen(s.header), c)
    ensures t == Dispatch(v.self, s.header, s.path, c)
  {
    c :| IsCandidate(v, s.path, Seen(s.header), c) && t == Dispatch(v.self, s.header, s.path, c);
  }

  ghost predicate OrderlyTrace(views: seq<NodeView>, states: seq<Where>) {
    Trace(views, states) && states[0].At? && states[0].header == "" && CleanIDs(states) && NoSelfListing(views)
  }

  /** A hop to a node the header does not name yet, other than the forwarder itself. */
  predicate NewHop(s: Where, t: Where) {
    Hop(s, t) && t.node !in Seen(s.header) && t.node != s.node
  }

  predicate NewHops(states: seq<Where>, k: nat) {
    k < |states| && states[0].At? && forall i :: 0 <= i < k ==> NewHop(states[i], states[i + 1])
  }

  lemma OrderlyHops(views: seq<NodeView>, states: seq<Where>, k: nat)
    requires OrderlyTrace(views, states) && k < |states| && states[k].At?
    ensures NewHops(states, k) && Hops(states, k)
  {
    TraceHops(views, states, k);
    forall i | 0 <= i < k ensures NewHop(states[i], states[i + 1]) {
      assert Hop(states[i], states[i + 1]);
      TraceStep(views, states, i);
      NextIsNew(views[i], states[i], states[i + 1]);
    }
  }

  lemma {:induction false} ItineraryOf(states: seq<Where>, k: nat)
    requires NewHops(states, k) && Hops(states, k) && CleanIDs(states) && states[0].header == ""
    ensures states[k].At? && states[k].header == Join(Visited(states, k), ',') && states[k].node !in Visited(states, k)
    decreases k
  {
    if k > 0 {
      assert NewHop(states[k - 1], states[k]);
      ItineraryOf(states, k - 1);
      VisitedWellFormed(states, k - 1);
      NextOnItinerary(states[k - 1], states[k], Visited(states, k - 1));
    }
  }

  /** A request that entered without a header carries exactly the nodes that forwarded
      it, in order, and never comes to a node again. */
  lemma HeaderIsItinerary(views: seq<NodeView>, states: seq<Where>, k: nat)
    requires OrderlyTrace(views, states) && k < |states| && states[k].At?
    ensures Hops(states, k)
    ensures states[k].header == Join(Visited(states, k), ',')
    ensures states[k].node !in Visited(states, k)
  {
    OrderlyHops(views, states, k);
    ItineraryOf(states, k);
  }

  lemma VisitedWellFormed(states: seq<Where>, k: nat)
    requires Hops(states, k) && CleanIDs(states)
    ensures forall h :: h in Visited(states, k) ==> WellFormedID(h)
  {
    forall h | h in Visited(states, k) ensures WellFormedID(h) {
      var i :| 0 <= i < k && Visited(states, k)[i] == h;
      assert states[i].At?;
    }
  }

  lemma NextOnItinerary(s: Where, t: Where, hops: seq<string>)
    requires NewHop(s, t)
    requires s.header == Join(hops, ',') && forall h :: h in hops ==> WellFormedID(h)
    ensures t.header == Join(hops + [s.node], ',') && t.node !in hops + [s.node]
  {
    HeaderOfHops(hops, s.node);
    SeenIsHops(hops);
  }

  /** For such a request the forwarder's loop check fires at a node exactly when that
      node's id is part of the id of an earlier, different node: then no loop exists. */
  lemma LoopCheckFiresIff(views: seq<NodeView>, states: seq<Where>, k: nat)
    requires OrderlyTrace(views, states) && k < |states| && states[k].At?
    ensures Contains(states[k].header, states[k].node)
       <==> exists i :: 0 <= i < k && states[i].At? && states[i].node != states[k].node
                        && Contains(states[i].node, states[k].node)
  {
    HeaderIsItinerary(views, states, k);
    var hops := Visited(states, k);
    assert WellFormedID(states[k].node);
    ContainsJoin(hops, ',', states[k].node);
    if i :| 0 <= i < |hops| && Contains(hops[i], states[k].node) {
      assert hops[i] in hops;
      assert states[i].At?;
    }
    if i :| 0 <= i < k && states[i].At? && states[i].node != states[k].node && Contains(states[i].node, states[k].node) {
      assert Contains(hops[i], states[k].node);
    }
  }

  lemma LoopMeansContains(v: NodeView, s: Where, t: Where)
    requires Step(v, s, t)
    ensures s.At? && (t.LoopDetected? ==> Contains(s.header, s.node))
  {
  }

  /** No id of the cluster is part of another. */
  ghost predicate Antichain(ids: set<string>) {
    forall a, b :: a in ids && b in ids && Contains(a, b) ==> a == b
  }

  /** If also no id is part of another, "Loop detected" is never answered. */
  lemma NoFalseLoops(views: seq<NodeView>, states: seq<Where>, cluster: set<string>)
    requires OrderlyTrace(views, states) && Antichain(cluster)
    requires forall i :: 0 <= i < |states| && states[i].At? ==> states[i].node in cluster
    ensures forall i :: 0 <= i < |states| ==> !states[i].LoopDetected?
  {
    forall i | 0 <= i < |states| ensures !states[i].LoopDetected? {
      if i > 0 {
        TraceStep(views, states, i - 1);
        LoopMeansContains(views[i - 1], states[i - 1], states[i]);
        LoopCheckFiresIff(views, states, i - 1);
      }
    }
  }

  /** A remote node that serves the path p. */
  function Serving(id: string, p: string): RemoteNode {
    RemoteNode(id, "10.0.0.1", 8080, "", "", map[p := EndpointState(0, 0, true, 10, false, 0, 1)], map[], 1)
  }

  /** A node without endpoints of its own that knows one other node. */
  function Knowing(self: string, id: string, p: string): NodeView {
    NodeView(self, map[], map[], map[], [Serving(id, p)], map[])
  }

  /** The candidate it has for a request for p. */
  function Only(self: string, id: string, p: string): RemoteNode {
    ForwardCandidate(Knowing(self, id, p), Serving(id, p), p)
  }

  /** What such a node does with the request. */
  lemma DispatchOn(self: string, id: string, header: string, p: string)
    requires id != self && PlainPath(p)
    ensures Dispatch(self, header, p, Only(self, id, p))
         == if Contains(header, self) then LoopDetected(self) else At(id, AppendHop(header, self), p)
  {
    HopKeepsPathIff(p);
  }

  lemma TakesOnlyChoice(self: string, id: string, header: string, p: string)
    requires id !in Seen(header) && p != ""
    ensures Handles(Knowing(self, id, p), At(self, header, p), Dispatch(self, header, p, Only(self, id, p)))
  {
    OnlyCandidate(self, id, header, p);
    OneChoice(Knowing(self, id, p), At(self, header, p), Only(self, id, p));
  }

  lemma OneChoice(v: NodeView, s: Where, c: RemoteNode)
    requires s.At? && s.node == v.self && Choices(v, s.path, s.header) == [c]
    ensures Handles(v, s, Dispatch(v.self, s.header, s.path, c))
  {
    assert c in [c];
  }

  lemma OnlyCandidate(self: string, id: string, header: string, p: string)
    requires id !in Seen(header) && p != ""
    ensures Choices(Knowing(self, id, p), p, header) == [Only(self, id, p)]
  {
    var v, n := Knowing(self, id, p), Serving(id, p);
    assert n in v.remote && p in n.states;
    assert RemotePaths(v.remote) == {p};
    LongestIsUnique(p, {p}, p, Longest(p, {p}));
    assert HealthyLocalPaths(v.representatives) == {};
    OneListed(v, n, p, Seen(header));
  }

  lemma OneListed(v: NodeView, n: RemoteNode, best: string, seen: set<string>)
    requires best != "" && n.nodeID !in seen && best in n.states && n.states[best].healthy && !IsPluginAt(n, best)
    ensures RemoteCandidates(v, [n], best, seen, true) == []
    ensures RemoteCandidates(v, [n], best, seen, false) == [ForwardCandidate(v, n, best)]
  {
    assert [n][..0] == [];
  }

  /** The views and states of a request that a forwards to b, and b would forward to c. */
  function Route(a: string, b: string, c: string, p: string): seq<NodeView> {
    [Knowing(a, b, p), Knowing(b, c, p)]
  }

  function Refused(a: string, b: string, p: string): seq<Where> {
    [At(a, "", p), At(b, a, p), LoopDetected(b)]
  }

  lemma RefusedStates(a: string, b: string, c: string, p: string)
    requires a != "" && a != b && b != c && Contains(a, b) && PlainPath(p)
    ensures Dispatch(a, "", p, Only(a, b, p)) == At(b, a, p)
    ensures Dispatch(b, a, p, Only(b, c, p)) == LoopDetected(b)
  {
    assert !Contains("", a);
    DispatchOn(a, b, "", p);
    DispatchOn(b, c, a, p);
  }

  lemma SeenAlone(a: string)
    requires WellFormedID(a)
    ensures Seen(a) == {a}
  {
    SeenIsHops([a]);
    assert Join([a], ',') == a;
  }

  lemma RefusedIsTrace(a: string, b: string, c: string, p: string)
    requires WellFormedID(a) && a != b && b != c && a != c && Contains(a, b) && PlainPath(p) && p != ""
    ensures ExactTrace(Route(a, b, c, p), Refused(a, b, p))
  {
    FirstForwards(a, b, c, p);
    SecondRefuses(a, b, c, p);
  }

  lemma FirstForwards(a: string, b: string, c: string, p: string)
    requires a != "" && a != b && b != c && Contains(a, b) && PlainPath(p) && p != ""
    ensures HandlesAt(Route(a, b, c, p), Refused(a, b, p), 0)
  {
    RefusedStates(a, b, c, p);
    TakesOnlyChoice(a, b, "", p);
  }

  lemma SecondRefuses(a: string, b: string, c: string, p: string)
    requires WellFormedID(a) && a != b && b != c && a != c && Contains(a, b) && PlainPath(p) && p != ""
    ensures HandlesAt(Route(a, b, c, p), Refused(a, b, p), 1)
  {
    SeenAlone(a);
    RefusedStates(a, b, c, p);
    TakesOnlyChoice(b, c, a, p);
  }

  /** Whenever one id is part of another, the check misfires: a forwards a request to b, which
      refuses to forward it to c although no node was visited twice. */
  lemma PartOfAnotherMisfires(a: string, b: string, c: string, p: string)
    requires WellFormedID(a) && WellFormedID(b) && a != b && b != c && a != c && Contains(a, b) && PlainPath(p) && p != ""
    ensures ExactTrace(Route(a, b, c, p), Refused(a, b, p)) && OrderlyTrace(Route(a, b, c, p), Refused(a, b, p))
  {
    RefusedIsTrace(a, b, c, p);
    ExactIsTrace(Route(a, b, c, p), Refused(a, b, p));
  }

  /** Such as node-10 and node-1. */
  lemma PrefixedIdsMisfire()
    ensures OrderlyTrace(Route("node-10", "node-1", "node-2", "/x"), Refused("node-10", "node-1", "/x"))
  {
    assert TrimLeft("node-10") == "node-10" && TrimRight("node-10") == "node-10";
    assert TrimLeft("node-1") == "node-1" && TrimRight("node-1") == "node-1";
    assert |"node-1"| != |"node-10"| && |"node-2"| != |"node-10"| && "node-1"[5] != "node-2"[5];
    assert "node-10"[0..6] == "node-1";
    assert OccursAt("node-10", "node-1", 0);
    PartOfAnotherMisfires("node-10", "node-1", "node-2", "/x");
  }

  // ---------- Service ----------

  /** The candidate behind a request that was served. */
  lemma ServedFrom(views: seq<NodeView>, states: seq<Where>, k: nat) returns (c: RemoteNode)
    requires Trace(views, states) && 0 < k < |states| && states[k].ServedAt?
    ensures states[k - 1].At? && states[k].path == states[k - 1].path && states[k].nodePath == c.nodePath
    ensures Local(views[k - 1], c) && IsCandidate(views[k - 1], states[k - 1].path, Seen(states[k - 1].header), c)
  {
    assert StepAt(views, states, k - 1);
    var v, s, t := views[k - 1], states[k - 1], states[k];
    c :| IsCandidate(v, s.path, Seen(s.header), c) && t == Dispatch(v.self, s.header, s.path, c);
    LocalDispatch(v, s.header, s.path, c);
  }

  lemma LocalDispatch(v: NodeView, header: string, path: string, c: RemoteNode)
    requires Dispatch(v.self, header, path, c).ServedAt?
    ensures Local(v, c) && Dispatch(v.self, header, path, c) == ServedAt(v.self, c.nodePath, path)
  {
  }

  /** A request that comes to a node all of whose candidates are the node itself is served
      there next, however many nodes it has passed. */
  lemma ArrivesAndIsServed(views: seq<NodeView>, states: seq<Where>, k: nat)
    requires ExactTrace(views, states) && k < |views|
    requires states[k].At?
    requires var cs := Choices(views[k], states[k].path, states[k].header); HasLocal(views[k], cs) && !HasRemote(views[k], cs)
    requires forall n :: n in views[k].remote ==> !Local(views[k], n)
    ensures states[k + 1] == ServedAt(states[k].node, Longest(states[k].path, HealthyLocalPaths(views[k].representatives)), states[k].path)
  {
    var v, s, t := views[k], states[k], states[k + 1];
    assert HandlesAt(views, states, k);
    HandlesExplained(v, s, t);
    ServesIff(v, s.header, s.path, t);
    ServedUnderLongest(v, s.header, s.path, t);
  }

  /** A node that serves the request, has not forwarded it, and knows no remote node for it has
      itself as its only candidate. */
  lemma OnlyItself(v: NodeView, path: string, header: string)
    requires Represented(v) && LocallyServed(v, path) && v.self !in Seen(header)
    requires forall n, p :: n in v.remote && p in n.states ==> n.nodeID in Seen(header) || !Under(path, p)
    ensures HasLocal(v, Choices(v, path, header)) && !HasRemote(v, Choices(v, path, header))
  {
    var seen, cs := Seen(header), Choices(v, path, header);
    LocallyServedIsFound(v, path, seen);
    forall c | c in cs ensures Local(v, c) {
      NotRemote(v, path, seen, Candidates(v, path, seen, true) != [], c);
    }
    assert cs[0] in cs;
  }

  lemma NotRemote(v: NodeView, path: string, seen: set<string>, plugin: bool, c: RemoteNode)
    requires c in Candidates(v, path, seen, plugin)
    requires forall n, p :: n in v.remote && p in n.states ==> n.nodeID in seen || !Under(path, p)
    ensures Local(v, c)
  {
    CandidatesSound(v, path, seen, plugin, c);
    MatchesIff(path, c.nodePath);
    assert Under(path, c.nodePath);
    assert forall n :: n in v.remote && c.nodePath in n.states ==> n.nodeID in seen;
  }

  // ---------- The path ----------

  /** A plain path is the same at every node, and the node that serves the request does so
      under a registered path that the original path matches, so that the worker replaces
      exactly the matched prefix. */
  lemma {:induction false} PathSurvives(views: seq<NodeView>, states: seq<Where>, k: nat)
    requires Trace(views, states) && k < |states| && states[0].At? && PlainPath(states[0].path)
    ensures states[k].At? ==> states[k].path == states[0].path
    ensures states[k].ServedAt? ==> ServedAsRegistered(states[0].path, states[k])
    decreases k
  {
    if k > 0 {
      TraceStep(views, states, k - 1);
      PathSurvives(views, states, k - 1);
      PathStep(views[k - 1], states[k - 1], states[k]);
    }
  }

  predicate ServedAsRegistered(path: string, t: Where)
    requires t.ServedAt?
  {
    t.path == path && Matches(path, t.nodePath) && CompletedBy(path, t.nodePath, SubPath(path, t.nodePath))
  }

  lemma PathStep(v: NodeView, s: Where, t: Where)
    requires Step(v, s, t) && PlainPath(s.path)
    ensures t.At? ==> t.path == s.path
    ensures t.ServedAt? ==> ServedAsRegistered(s.path, t)
  {
    if !t.NotFoundAt? {
      var c := ChosenCandidate(v, s, t);
      DispatchPath(v.self, s.header, s.path, c);
    }
  }

  lemma DispatchPath(self: string, header: string, path: string, c: RemoteNode)
    requires PlainPath(path) && c.servicePath == "" && Matches(path, c.nodePath)
    ensures var t := Dispatch(self, header, path, c);
            && (t.At? ==> t.path == path)
            && (t.ServedAt? ==> ServedAsRegistered(path, t))
  {
    HopKeepsPathIff(path);
    SubPathCompletes(path, c.nodePath);
  }
}
