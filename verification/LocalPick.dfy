/** Which local candidate a request finds depends on the one endpoint per path that
    LocalEndpointStore.GetAll happens to return. When it does not. */
module LocalPick {
  import opened Models
  import opened NestedMaps
  import opened Routing
  import opened AdminModel

  /** The view lists the endpoints of each path, in any order. */
  ghost predicate Lists(v: NodeView, eps: Endpoints) {
    && v.endpoints.Keys == eps.Keys
    && forall p, ep :: p in eps ==> (ep in v.endpoints[p] <==> exists k :: Has(eps, p, k) && At(eps, p, k) == ep)
  }

  /** The paths with a healthy endpoint. */
  ghost function LivePaths(eps: Endpoints): set<string> {
    set p, k | p in eps && k in eps[p] && eps[p][k].healthy :: p
  }

  ghost predicate AllHealthy(eps: Endpoints, p: string) {
    forall k :: Has(eps, p, k) ==> At(eps, p, k).healthy
  }

  /** The local candidates of the view when GetAll returned `reps`. */
  ghost function Found(v: NodeView, reps: map<string, LocalEndpoint>, path: string, seen: set<string>, plugin: bool): seq<RemoteNode> {
    LocalCandidates(v.(representatives := reps), Longest(path, HealthyLocalPaths(reps)), seen, plugin)
  }

  ghost predicate PickIndependent(v: NodeView, eps: Endpoints, path: string, seen: set<string>) {
    forall r, s, plugin :: IsPick(eps, r) && IsPick(eps, s) ==> Found(v, r, path, seen, plugin) == Found(v, s, path, seen, plugin)
  }

  // ---------- Which path a pick leads to ----------

  lemma PickedAreLive(sys: System, reps: map<string, LocalEndpoint>)
    requires WellFormed(sys) && IsPick(sys.eps, reps)
    ensures HealthyLocalPaths(reps) <= LivePaths(sys.eps)
    ensures forall p :: p in HealthyLocalPaths(reps) <==> p in reps && reps[p].healthy
  {
    forall p | p in reps ensures reps[p].nodePath == p && (reps[p].healthy ==> p in LivePaths(sys.eps)) {
      var k :| Has(sys.eps, p, k) && reps[p] == At(sys.eps, p, k);
      assert p in sys.eps && k in sys.eps[p];
    }
  }

  /** A pick that shows the longest live match as healthy leads to it; one that shows it as
      unhealthy leads elsewhere. */
  lemma PickLeadsTo(sys: System, reps: map<string, LocalEndpoint>, path: string)
    requires WellFormed(sys) && IsPick(sys.eps, reps)
    ensures var best := Longest(path, LivePaths(sys.eps));
            Longest(path, HealthyLocalPaths(reps)) == best <==> best == "" || (best in reps && reps[best].healthy)
  {
    var best, picked := Longest(path, LivePaths(sys.eps)), HealthyLocalPaths(reps);
    PickedAreLive(sys, reps);
    if best == "" || (best in reps && reps[best].healthy) {
      assert IsLongest(path, picked, best);
      LongestIsUnique(path, picked, best, Longest(path, picked));
    }
  }

  lemma {:induction false} TotalsIgnorePick(v: NodeView, reps: map<string, LocalEndpoint>, best: string, eps: seq<LocalEndpoint>)
    ensures LocalTotals(v.(representatives := reps), best, eps) == LocalTotals(v, best, eps)
  {
    if eps != [] {
      TotalsIgnorePick(v, reps, best, eps[..|eps| - 1]);
    }
  }

  lemma FoundAt(v: NodeView, reps: map<string, LocalEndpoint>, path: string, seen: set<string>, plugin: bool)
    ensures Found(v, reps, path, seen, plugin) == LocalCandidates(v, Longest(path, HealthyLocalPaths(reps)), seen, plugin)
  {
    var best := Longest(path, HealthyLocalPaths(reps));
    TotalsIgnorePick(v, reps, best, if best in v.endpoints then v.endpoints[best] else []);
  }

  /** A live path is offered as a candidate, of one kind or the other. */
  lemma LiveIsOffered(sys: System, v: NodeView, best: string, seen: set<string>) returns (plugin: bool)
    requires WellFormed(sys) && Lists(v, sys.eps) && best in LivePaths(sys.eps) && best != "" && v.self !in seen
    ensures LocalCandidates(v, best, seen, plugin) != []
  {
    var listed := v.endpoints[best];
    forall ep | ep in listed ensures ep.maxConcurrent >= 1 {
      var k :| Has(sys.eps, best, k) && At(sys.eps, best, k) == ep;
    }
    var k :| k in sys.eps[best] && sys.eps[best][k].healthy;
    assert Has(sys.eps, best, k);
    assert At(sys.eps, best, k) in listed;
    HealthyTotalPositive(v, best, listed);
    var t := LocalTotals(v, best, listed);
    plugin := t.hasPlugin && !t.hasRegular;
  }

  lemma OfferedUnder(v: NodeView, best: string, seen: set<string>, plugin: bool)
    ensures forall c :: c in LocalCandidates(v, best, seen, plugin) ==> c.nodePath == best
  {
  }

  // ---------- A live path is found ----------

  /** A request at or below a live path that ends in a slash finds a local candidate, unless it
      has passed the node before, for every pick under which the longest live match counts as
      healthy: all of its endpoints are, for instance. */
  lemma LiveRequestIsFound(sys: System, v: NodeView, p: string, rest: string, seen: set<string>)
    requires WellFormed(sys) && Lists(v, sys.eps) && IsPick(sys.eps, v.representatives) && v.self !in seen
    requires p in LivePaths(sys.eps) && p != "" && p[|p| - 1] == '/'
    requires AllHealthy(sys.eps, Longest(p + rest, LivePaths(sys.eps)))
    ensures var best := Longest(p + rest, LivePaths(sys.eps));
            && |best| >= |p| && Longest(p + rest, HealthyLocalPaths(v.representatives)) == best
            && (LocalCandidates(v, best, seen, true) != [] || LocalCandidates(v, best, seen, false) != [])
  {
    var best := Longest(p + rest, LivePaths(sys.eps));
    MatchesIff(p + rest, p);
    assert (p + rest) + "/" == p + (rest + "/");
    AllHealthyLeads(sys, v.representatives, p + rest);
    var plugin := LiveIsOffered(sys, v, best, seen);
    if !plugin {
      assert LocalCandidates(v, best, seen, false) != [];
    }
  }

  /** The same for a live path without trailing slash and a request that adds at most one. */
  lemma ExactRequestIsFound(sys: System, v: NodeView, p: string, request: string, seen: set<string>)
    requires WellFormed(sys) && Lists(v, sys.eps) && IsPick(sys.eps, v.representatives) && v.self !in seen
    requires p in LivePaths(sys.eps) && p != "" && p[|p| - 1] != '/' && p <= request <= p + "/"
    requires AllHealthy(sys.eps, Longest(request, LivePaths(sys.eps)))
    ensures var best := Longest(request, LivePaths(sys.eps));
            && |best| >= |p| && Longest(request, HealthyLocalPaths(v.representatives)) == best
            && (LocalCandidates(v, best, seen, true) != [] || LocalCandidates(v, best, seen, false) != [])
  {
    MatchesIff(request, p);
    AllHealthyLeads(sys, v.representatives, request);
    var plugin := LiveIsOffered(sys, v, Longest(request, LivePaths(sys.eps)), seen);
    if !plugin {
      assert LocalCandidates(v, Longest(request, LivePaths(sys.eps)), seen, false) != [];
    }
  }

  /** Some pick. */
  ghost function SomePick(eps: Endpoints): (reps: map<string, LocalEndpoint>)
    requires NoEmptyInner(eps)
    ensures IsPick(eps, reps)
  {
    map p | p in eps :: Representative(eps, p)
  }

  ghost function Representative(eps: Endpoints, p: string): (ep: LocalEndpoint)
    requires NoEmptyInner(eps) && p in eps
    ensures EntryOf(eps, p, ep)
  {
    NonEmptyHas(eps, p);
    var k :| Has(eps, p, k);
    At(eps, p, k)
  }

  lemma PickWith(eps: Endpoints, reps: map<string, LocalEndpoint>, p: string, k: string)
    requires IsPick(eps, reps) && Has(eps, p, k)
    ensures IsPick(eps, reps[p := At(eps, p, k)])
  {
  }

  /** Two picks that show the path differently find different candidates. */
  lemma MixedHealthDepends(sys: System, v: NodeView, path: string, seen: set<string>, k: string)
    requires WellFormed(sys) && Lists(v, sys.eps) && v.self !in seen
    requires var best := Longest(path, LivePaths(sys.eps));
             best != "" && Has(sys.eps, best, k) && !At(sys.eps, best, k).healthy
    ensures !PickIndependent(v, sys.eps, path, seen)
  {
    var best := Longest(path, LivePaths(sys.eps));
    var j :| j in sys.eps[best] && sys.eps[best][j].healthy;
    assert Has(sys.eps, best, j);
    var r := SomePick(sys.eps)[best := At(sys.eps, best, j)];
    var s := SomePick(sys.eps)[best := At(sys.eps, best, k)];
    PickWith(sys.eps, SomePick(sys.eps), best, j);
    PickWith(sys.eps, SomePick(sys.eps), best, k);
    PickLeadsTo(sys, r, path);
    PickLeadsTo(sys, s, path);
    var plugin := LiveIsOffered(sys, v, best, seen);
    FoundAt(v, r, path, seen, plugin);
    FoundAt(v, s, path, seen, plugin);
    OfferedUnder(v, best, seen, plugin);
    OfferedUnder(v, Longest(path, HealthyLocalPaths(s)), seen, plugin);
    assert Found(v, r, path, seen, plugin)[0] !in Found(v, s, path, seen, plugin);
  }

  /** What a request finds locally does not depend on the pick if and only if it has passed the
      node before, no path with a healthy endpoint matches, or all endpoints of the longest one
      that does are healthy. */
  lemma PickIndependentIff(sys: System, v: NodeView, path: string, seen: set<string>)
    requires WellFormed(sys) && Lists(v, sys.eps)
    ensures var best := Longest(path, LivePaths(sys.eps));
            PickIndependent(v, sys.eps, path, seen) <==> v.self in seen || best == "" || AllHealthy(sys.eps, best)
  {
    var best := Longest(path, LivePaths(sys.eps));
    if v.self in seen {
      assert forall reps, plugin :: Found(v, reps, path, seen, plugin) == [];
    } else if best == "" || AllHealthy(sys.eps, best) {
      forall r, s, plugin | IsPick(sys.eps, r) && IsPick(sys.eps, s)
        ensures Found(v, r, path, seen, plugin) == Found(v, s, path, seen, plugin)
      {
        AllHealthyLeads(sys, r, path);
        AllHealthyLeads(sys, s, path);
        FoundAt(v, r, path, seen, plugin);
        FoundAt(v, s, path, seen, plugin);
      }
    } else {
      var k :| Has(sys.eps, best, k) && !At(sys.eps, best, k).healthy;
      MixedHealthDepends(sys, v, path, seen, k);
    }
  }

  lemma AllHealthyLeads(sys: System, reps: map<string, LocalEndpoint>, path: string)
    requires WellFormed(sys) && IsPick(sys.eps, reps)
    requires var best := Longest(path, LivePaths(sys.eps)); best == "" || AllHealthy(sys.eps, best)
    ensures Longest(path, HealthyLocalPaths(reps)) == Longest(path, LivePaths(sys.eps))
  {
    var best := Longest(path, LivePaths(sys.eps));
    PickLeadsTo(sys, reps, path);
    if best != "" {
      assert best in reps;
    }
  }
}
