/** The store of remote nodes (internal/models/node.go): what each of its calls does to
    the node map, and what every sequence of calls keeps. */
module RemoteStore {
  import opened Models

  type Nodes = map<string, RemoteNode>

  // ---------- One node ----------

  function NewNode(id: string, address: string, port: int, now: int): RemoteNode {
    RemoteNode(id, address, port, "", "", map[], map[], now)
  }

  /** UpdateState on an existing node: every given state is stored with the current time. */
  function PutStates(n: RemoteNode, states: map<string, EndpointState>, now: int): RemoteNode {
    n.(states := n.states + (map p | p in states :: states[p].(lastSeen := now)), lastSeen := now)
  }

  /** The state of a described path: an existing one is refreshed and forced healthy. */
  function DescribedState(states: map<string, EndpointState>, path: string, d: EndpointMetadata, now: int): EndpointState {
    if path in states
    then states[path].(healthy := true, maxConcurrent := d.maxConcurrent, lastSeen := now)
    else EndpointState(0, 0, true, d.maxConcurrent, false, 0, now)
  }

  /** UpdateMetadata on an existing node. */
  function PutDescriptions(n: RemoteNode, ds: map<string, EndpointMetadata>, now: int): RemoteNode {
    n.(descriptions := n.descriptions + ds,
       states := n.states + (map p | p in ds :: DescribedState(n.states, p, ds[p], now)))
  }

  function DropPath(n: RemoteNode, path: string): RemoteNode {
    n.(states := n.states - {path}, descriptions := n.descriptions - {path})
  }

  predicate StalePath(s: EndpointState, now: int, endpointTimeout: int) {
    s.lastSeen != 0 && now - s.lastSeen > endpointTimeout
  }

  function DropStale(n: RemoteNode, now: int, endpointTimeout: int): RemoteNode {
    var stale := set p | p in n.states && StalePath(n.states[p], now, endpointTimeout);
    n.(states := n.states - stale, descriptions := n.descriptions - stale)
  }

  // ---------- The whole store ----------

  function UpsertIn(s: Nodes, id: string, address: string, port: int, now: int): Nodes {
    s[id := if id in s then s[id].(address := address, servicePort := port, lastSeen := now)
            else NewNode(id, address, port, now)]
  }

  function TouchIn(s: Nodes, id: string, now: int): Nodes {
    if id in s then s[id := s[id].(lastSeen := now)] else s
  }

  function PutStatesIn(s: Nodes, id: string, states: map<string, EndpointState>, now: int): Nodes {
    if id in s then s[id := PutStates(s[id], states, now)] else s
  }

  function PutDescriptionsIn(s: Nodes, id: string, ds: map<string, EndpointMetadata>, now: int): Nodes {
    if id in s then s[id := PutDescriptions(s[id], ds, now)] else s
  }

  function DropPathIn(s: Nodes, id: string, path: string): Nodes {
    if id in s then s[id := DropPath(s[id], path)] else s
  }

  function CleanIn(s: Nodes, now: int, nodeTimeout: int, endpointTimeout: int): Nodes {
    map id | id in s && now - s[id].lastSeen <= nodeTimeout :: DropStale(s[id], now, endpointTimeout)
  }

  // ---------- What every call sequence keeps ----------

  datatype Call =
    | Upsert(id: string, address: string, port: int, now: int)
    | Touch(id: string, now: int)
    | UpdateState(id: string, states: map<string, EndpointState>, now: int)
    | UpdateMetadata(id: string, descriptions: map<string, EndpointMetadata>, now: int)
    | RemoveEndpoint(id: string, path: string)
    | Delete(id: string)
    | Clean(now: int, nodeTimeout: int, endpointTimeout: int)

  function Perform(s: Nodes, c: Call): Nodes {
    match c
    case Upsert(id, address, port, now) => UpsertIn(s, id, address, port, now)
    case Touch(id, now) => TouchIn(s, id, now)
    case UpdateState(id, states, now) => PutStatesIn(s, id, states, now)
    case UpdateMetadata(id, ds, now) => PutDescriptionsIn(s, id, ds, now)
    case RemoveEndpoint(id, path) => DropPathIn(s, id, path)
    case Delete(id) => s - {id}
    case Clean(now, nodeTimeout, endpointTimeout) => CleanIn(s, now, nodeTimeout, endpointTimeout)
  }

  function PerformAll(calls: seq<Call>): Nodes {
    if calls == [] then map[] else Perform(PerformAll(calls[..|calls| - 1]), calls[|calls| - 1])
  }

  /** Each described path has a state, and each node is filed under its own id. */
  ghost predicate Described(s: Nodes) {
    forall id :: id in s ==> s[id].nodeID == id && s[id].descriptions.Keys <= s[id].states.Keys
  }

  /** Between any two calls of the store, by any number of goroutines in any order, every
      described path also has a state. */
  lemma {:induction false} AlwaysDescribed(calls: seq<Call>)
    ensures Described(PerformAll(calls))
  {
    if calls != [] {
      AlwaysDescribed(calls[..|calls| - 1]);
      CallKeepsDescribed(PerformAll(calls[..|calls| - 1]), calls[|calls| - 1]);
    }
  }

  lemma CallKeepsDescribed(s: Nodes, c: Call)
    requires Described(s)
    ensures Described(Perform(s, c))
  {
  }

  lemma UnionPointwise<V>(a: map<string, V>, b: map<string, V>, m: map<string, V>)
    requires forall p :: p in m <==> p in a || p in b
    requires forall p :: p in m ==> m[p] == if p in b then b[p] else a[p]
    ensures m == a + b
  {
  }

  // ---------- The object ----------

  class RemoteNodeStore {
    var nodes: Nodes

    constructor ()
      ensures nodes == map[]
    {
      nodes := map[];
    }

    method Upsert(id: string, address: string, port: int, now: int)
      modifies this
      ensures nodes == UpsertIn(old(nodes), id, address, port, now)
      ensures id in nodes && nodes[id].address == address && nodes[id].servicePort == port && nodes[id].lastSeen == now
      ensures id in old(nodes) ==> nodes[id].states == old(nodes)[id].states && nodes[id].descriptions == old(nodes)[id].descriptions
      ensures id !in old(nodes) ==> nodes[id].nodeID == id && nodes[id].states == map[] && nodes[id].descriptions == map[]
    {
      if id in nodes {
        nodes := nodes[id := nodes[id].(address := address, servicePort := port, lastSeen := now)];
      } else {
        nodes := nodes[id := RemoteNode(id, address, port, "", "", map[], map[], now)];
      }
    }

    method TouchLastSeen(id: string, now: int)
      modifies this
      ensures nodes == TouchIn(old(nodes), id, now)
    {
      if id in nodes {
        nodes := nodes[id := nodes[id].(lastSeen := now)];
      }
    }

    method DeleteNode(id: string)
      modifies this
      ensures nodes == old(nodes) - {id}
    {
      nodes := nodes - {id};
    }

    method UpdateStates(id: string, states: map<string, EndpointState>, now: int)
      modifies this
      ensures nodes == PutStatesIn(old(nodes), id, states, now)
    {
      if id in nodes {
        var merged := MergeStates(nodes[id].states, states, now);
        UnionPointwise(nodes[id].states, (map p | p in states :: states[p].(lastSeen := now)), merged);
        nodes := nodes[id := nodes[id].(states := merged, lastSeen := now)];
      }
    }

    /** The loop of UpdateState. */
    static method MergeStates(was: map<string, EndpointState>, states: map<string, EndpointState>, now: int)
      returns (m: map<string, EndpointState>)
      ensures forall p :: p in m <==> p in was || p in states
      ensures forall p :: p in m ==> m[p] == if p in states then states[p].(lastSeen := now) else was[p]
    {
      m := was;
      var left := states.Keys;
      while left != {}
        invariant left <= states.Keys
        invariant forall p :: p in m <==> p in was || (p in states && p !in left)
        invariant forall p :: p in m ==> m[p] == if p in states && p !in left then states[p].(lastSeen := now) else was[p]
        decreases |left|
      {
        var path :| path in left;
        left := left - {path};
        m := m[path := states[path].(lastSeen := now)];
      }
    }

    method UpdateDescriptions(id: string, ds: map<string, EndpointMetadata>, now: int)
      modifies this
      ensures nodes == PutDescriptionsIn(old(nodes), id, ds, now)
    {
      if id in nodes {
        var node := nodes[id];
        var states := RefreshStates(node.states, ds, now);
        UnionPointwise(node.states, (map p | p in ds :: DescribedState(node.states, p, ds[p], now)), states);
        nodes := nodes[id := node.(descriptions := node.descriptions + ds, states := states)];
      }
    }

    /** The loop of UpdateMetadata over the states. */
    static method RefreshStates(was: map<string, EndpointState>, ds: map<string, EndpointMetadata>, now: int)
      returns (m: map<string, EndpointState>)
      ensures forall p :: p in m <==> p in was || p in ds
      ensures forall p :: p in m ==> m[p] == if p in ds then DescribedState(was, p, ds[p], now) else was[p]
    {
      m := was;
      var left := ds.Keys;
      while left != {}
        invariant left <= ds.Keys
        invariant forall p :: p in m <==> p in was || (p in ds && p !in left)
        invariant forall p :: p in m ==> m[p] == if p in ds && p !in left then DescribedState(was, p, ds[p], now) else was[p]
        decreases |left|
      {
        var path :| path in left;
        var state := EndpointState(0, 0, true, ds[path].maxConcurrent, false, 0, now);
        if path in m {
          state := m[path].(healthy := true, maxConcurrent := ds[path].maxConcurrent, lastSeen := now);
        }
        assert state == DescribedState(was, path, ds[path], now);
        left := left - {path};
        m := m[path := state];
      }
    }

    method RemovePath(id: string, path: string)
      modifies this
      ensures nodes == DropPathIn(old(nodes), id, path)
    {
      if id in nodes {
        var node := nodes[id];
        nodes := nodes[id := node.(states := node.states - {path}, descriptions := node.descriptions - {path})];
      }
    }

    /** CleanStale: silent nodes go; of the others, silent paths go. */
    method CleanStale(now: int, nodeTimeout: int, endpointTimeout: int)
      modifies this
      ensures nodes == CleanIn(old(nodes), now, nodeTimeout, endpointTimeout)
    {
      var left := nodes.Keys;
      while left != {}
        invariant left <= old(nodes).Keys
        invariant nodes == map id | id in old(nodes) && (id in left || now - old(nodes)[id].lastSeen <= nodeTimeout) ::
                             if id in left then old(nodes)[id] else DropStale(old(nodes)[id], now, endpointTimeout)
        decreases |left|
      {
        var id :| id in left;
        left := left - {id};
        if now - nodes[id].lastSeen > nodeTimeout {
          nodes := nodes - {id};
        } else {
          var node := CleanPaths(nodes[id], now, endpointTimeout);
          nodes := nodes[id := node];
        }
      }
    }

    static method CleanPaths(n: RemoteNode, now: int, endpointTimeout: int) returns (node: RemoteNode)
      ensures node == DropStale(n, now, endpointTimeout)
    {
      var states, described := n.states, n.descriptions;
      var left := n.states.Keys;
      ghost var gone: set<string> := {};
      while left != {}
        invariant left <= n.states.Keys
        invariant forall p :: p in gone <==> p in n.states && p !in left && StalePath(n.states[p], now, endpointTimeout)
        invariant states == n.states - gone && described == n.descriptions - gone
        decreases |left|
      {
        var path :| path in left;
        left := left - {path};
        var state := n.states[path];
        if state.lastSeen != 0 && now - state.lastSeen > endpointTimeout {
          states, described := states - {path}, described - {path};
          gone := gone + {path};
        }
      }
      node := n.(states := states, descriptions := described);
      assert gone == set p | p in n.states && StalePath(n.states[p], now, endpointTimeout);
    }
  }
}
