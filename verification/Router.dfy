/** HandleRequest of internal/business/router/router.go: reading the X-Forwarded-By
    header, collecting candidates, and deciding on one of them. */
module Router {
  import opened GoStrings
  import opened Models
  import opened Routing
  import opened Balancer

  const MAX_RETRIES := 2

  /** The ids a forwarding header names: split at commas, trimmed, as a set. */
  function Seen(header: string): set<string> {
    if header == "" then {} else set part | part in Split(header, ',') :: TrimSpace(part)
  }

  /** Whatever white space surrounds the ids of a header, the set is that of the ids. */
  lemma SeenMeans(parts: seq<string>)
    requires parts != [] && parts != [""] && forall p :: p in parts ==> ',' !in p
    ensures Seen(Join(parts, ',')) == set p | p in parts :: TrimSpace(p)
  {
    SplitJoin(parts, ',');
    assert Split("", ',') == [""];
  }

  method ParseForwardedBy(header: string) returns (seen: set<string>)
    ensures seen == Seen(header)
  {
    seen := {};
    if header != "" {
      var parts := Split(header, ',');
      for i := 0 to |parts|
        invariant seen == set part | part in parts[..i] :: TrimSpace(part)
      {
        assert parts[..i + 1] == parts[..i] + [parts[i]];
        seen := seen + {TrimSpace(parts[i])};
      }
      assert parts[..|parts|] == parts;
    }
  }

  datatype Decision = NotFound | NoHealthyNode | Crashed | Chosen(node: RemoteNode, plugin: bool)

  /** The list a choice is made from: plugin candidates go before all others. */
  function Preferred(plugins: seq<RemoteNode>, regulars: seq<RemoteNode>): seq<RemoteNode> {
    if plugins != [] then plugins else regulars
  }

  ghost predicate CloseToBest(c: RemoteNode, nodes: seq<RemoteNode>) {
    forall n :: n in nodes ==> 0.95 * RawScore(StateOf(c)) <= 1.1025 * RawScore(StateOf(n)) + 0.001
  }

  ghost predicate Loadable(nodes: seq<RemoteNode>) {
    forall n :: n in nodes ==> NonNegativeLoad(StateOf(n))
  }

  method DrawJitter(n: nat) returns (jitter: seq<real>)
    ensures |jitter| == n && Jittered(jitter)
  {
    jitter := [];
    for i := 0 to n
      invariant |jitter| == i && Jittered(jitter)
    {
      assert InJitter(1.0);
      var f :| InJitter(f);
      jitter := jitter + [f];
    }
  }

  /** One balanced choice from a list, with fresh randomness. */
  method ChooseFrom(nodes: seq<RemoteNode>, plugin: bool) returns (d: Decision)
    requires nodes != [] && forall i :: 0 <= i < |nodes| ==> OneState(nodes[i])
    ensures d.Crashed? || (d.Chosen? && d.plugin == plugin && d.node in nodes)
    ensures Loadable(nodes) ==> d.Chosen? && CloseToBest(d.node, nodes)
    ensures |nodes| == 1 ==> d.Chosen?
  {
    var jitter := DrawJitter(|nodes|);
    var draw: nat :| true;
    var c := SelectNode(nodes, jitter, draw);
    if |nodes| > 1 {
      PanicsIff(Scores(nodes, jitter), Weights(nodes), draw);
    }
    if Loadable(nodes) {
      ChosenIsClose(nodes, jitter, draw);
    }
    var first := nodes[0];
    match c {
      case Nobody => d := Chosen(first, plugin);
      case Selected(i) => d := Chosen(nodes[i], plugin);
      case Panics => d := Crashed;
    }
  }

  lemma ChosenIsClose(nodes: seq<RemoteNode>, jitter: seq<real>, draw: nat)
    requires |nodes| == |jitter| && Jittered(jitter) && nodes != [] && Loadable(nodes)
    ensures var c := Select(Scores(nodes, jitter), Weights(nodes), draw);
            c.Selected? && c.index < |nodes| && CloseToBest(nodes[c.index], nodes)
  {
    JitterIsSmall(nodes, jitter);
    forall m | 0 <= m < |nodes|
      ensures var c := Select(Scores(nodes, jitter), Weights(nodes), draw);
              c.Selected? && c.index < |nodes|
              && 0.95 * RawScores(nodes)[c.index] <= 1.1025 * RawScores(nodes)[m] + 0.001
    {
      NearOptimal(RawScores(nodes), Scores(nodes, jitter), Weights(nodes), draw, m);
    }
  }

  /** selectNodeWithFallback. */
  method SelectWithFallback(self: string, plugins: seq<RemoteNode>, regulars: seq<RemoteNode>, attempt: nat)
    returns (d: Decision)
    requires forall n :: n in plugins || n in regulars ==> OneState(n)
    ensures plugins == [] && regulars == [] <==> d.NoHealthyNode?
    ensures !d.NotFound?
    ensures d.Chosen? ==> d.plugin == (plugins != []) && d.node in (if plugins != [] then plugins else regulars)
    ensures attempt == 0 && |Preferred(plugins, regulars)| == 1 ==> d.Chosen?
    ensures attempt > 0 && d.Chosen? && (exists n :: n in Preferred(plugins, regulars) && n.nodeID != self) ==> d.node.nodeID != self
    ensures attempt == 0 && Preferred(plugins, regulars) != [] && Loadable(Preferred(plugins, regulars)) ==>
              d.Chosen? && CloseToBest(d.node, Preferred(plugins, regulars))
  {
    var candidates := Preferred(plugins, regulars);
    if candidates == [] {
      return NoHealthyNode;
    }
    if attempt > 0 && |candidates| > 1 {
      var filtered := [];
      for i := 0 to |candidates|
        invariant forall n :: n in filtered ==> n in candidates && n.nodeID != self
        invariant forall k :: 0 <= k < i && candidates[k].nodeID != self ==> candidates[k] in filtered
      {
        if candidates[i].nodeID != self {
          filtered := filtered + [candidates[i]];
        }
      }
      if |filtered| > 0 {
        d := ChooseFrom(filtered, plugins != []);
        return;
      }
    }
    d := ChooseFrom(candidates, plugins != []);
  }

  /** HandleRequest: "not found" exactly when there is no candidate; otherwise the first
      attempt decides, from the plugin candidates if there are any, and the "no healthy
      node" answer after the retries is never given. */
  method HandleRequest(v: NodeView, path: string, header: string) returns (d: Decision)
    ensures Represented(v) && LocallyServed(v, path) && v.self !in Seen(header) ==> !d.NotFound?
    ensures RemotelyServed(v, path, Seen(header)) ==> !d.NotFound?
    ensures d.NotFound? <==> Candidates(v, path, Seen(header), true) == [] && Candidates(v, path, Seen(header), false) == []
    ensures !d.NoHealthyNode?
    ensures d.Chosen? ==>
              && d.plugin == (Candidates(v, path, Seen(header), true) != [])
              && d.node in Candidates(v, path, Seen(header), d.plugin)
    ensures |Preferred(Candidates(v, path, Seen(header), true), Candidates(v, path, Seen(header), false))| == 1 ==> d.Chosen?
    ensures var nodes := Preferred(Candidates(v, path, Seen(header), true), Candidates(v, path, Seen(header), false));
            nodes != [] && Loadable(nodes) ==> d.Chosen? && CloseToBest(d.node, nodes)
  {
    var seen := ParseForwardedBy(header);
    var plugins, regulars := GetNodesForPath(v, path, seen);
    if Represented(v) && LocallyServed(v, path) && v.self !in seen {
      LocallyServedIsFound(v, path, seen);
    }
    if RemotelyServed(v, path, seen) {
      RemotelyServedIsFound(v, path, seen);
    }
    if plugins == [] && regulars == [] {
      return NotFound;
    }
    forall n | n in plugins || n in regulars ensures OneState(n) {
      CandidatesSound(v, path, seen, n in plugins, n);
    }
    for attempt := 0 to MAX_RETRIES + 1
      invariant attempt == 0
    {
      d := SelectWithFallback(v.self, plugins, regulars, attempt);
      if !d.NoHealthyNode? {
        return;
      }
    }
    return NoHealthyNode;
  }
}
