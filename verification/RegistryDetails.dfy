/** What is stored with a registered endpoint, read off the history: the service path, the kind
    and the limit it was registered with, and the load its pool last reported. */
module RegistryDetails {
  import opened Models
  import opened NestedMaps
  import opened AdminModel
  import opened AdminLiveness
  import opened RegistryHistory
  import Balancer

  /** The load last reported for the endpoint after position i; none is reported at first. */
  function LoadSince(h: seq<Event>, i: nat, p: string, k: string): (int, int) {
    if |h| <= i + 1 then (0, 0)
    else
      match h[|h| - 1]
      case Metrics(path, epID, active, queueLen) =>
        if path == p && epID == k then (active, queueLen) else LoadSince(h[..|h| - 1], i, p, k)
      case _ => LoadSince(h[..|h| - 1], i, p, k)
  }

  /** The endpoint is what the request asked for; a limit below one is raised to one. */
  predicate AsAsked(r: Request, ep: LocalEndpoint) {
    && ep.servicePath == r.servicePath && ep.plugin == r.plugin
    && (1 <= r.maxConcurrent <= 0x7fff_ffff ==> ep.maxConcurrent == r.maxConcurrent)
    && (-0x8000_0000 <= r.maxConcurrent < 1 ==> ep.maxConcurrent == 1)
  }

  /** The registered limit: int32, and at least one. */
  lemma LimitMeans(asked: int, k: int)
    ensures 1 <= Limit(asked) <= 0x7fff_ffff
    ensures 1 <= asked <= 0x7fff_ffff ==> Limit(asked) == asked
    ensures -0x8000_0000 <= asked < 1 ==> Limit(asked) == 1
    ensures Limit(asked + k * 0x1_0000_0000) == Limit(asked)
  {
    Balancer.Wrap32Means(asked, k);
  }

  lemma BuiltAsAsked(r: Request, service: string, id: string, now: int)
    ensures AsAsked(r, Built(r, service, id, now))
  {
    LimitMeans(r.maxConcurrent, 0);
  }

  /** The endpoint stems from the registration at position i. */
  ghost predicate StemsFrom(h: seq<Event>, i: nat, p: string, k: string, ep: LocalEndpoint) {
    && i < |h| && (ep.active, ep.queueLen) == LoadSince(h, i, p, k)
    && forall n: nat :: Brings(h[i], p, k, n) ==> AsAsked(h[i].requests[n], ep)
  }

  /** The details survive, except that a report replaces the load of the endpoint it names. */
  predicate Keeps(e: Event, p: string, k: string, a: LocalEndpoint, b: LocalEndpoint) {
    && b.servicePath == a.servicePath && b.plugin == a.plugin && b.maxConcurrent == a.maxConcurrent
    && (b.active, b.queueLen) == if e.Metrics? && e.path == p && e.epID == k then (e.active, e.queueLen) else (a.active, a.queueLen)
  }

  lemma KeptByChange(sys: System, e: Event, c: Change, p: string, k: string)
    requires WellFormed(sys) && Has(sys.eps, p, k) && Has(Update(sys.eps, c), p, k)
    requires if c.Load? then e == Metrics(c.path, c.epID, c.active, c.queueLen) else !e.Metrics?
    ensures Keeps(e, p, k, At(sys.eps, p, k), At(Update(sys.eps, c), p, k))
  {
    UpdateAt(sys.eps, c, p, k);
  }

  /** What one operation leaves of the details of an endpoint it keeps. */
  lemma KeptDetails(sys: System, e: Event, p: string, k: string)
    requires WellFormed(sys) && FreshIds(sys, e) && Has(sys.eps, p, k) && Has(Step(sys, e).eps, p, k)
    ensures Keeps(e, p, k, At(sys.eps, p, k), At(Step(sys, e).eps, p, k))
  {
    match e {
      case Post(_, _, _, _) =>
        if Accepted(sys, e) {
          PostAt(sys, e, p, k);
        }
      case Delete(_, _) => KeptByDelete(sys, e, p, k);
      case Heartbeat(service, healthy, now) =>
        if service != "" {
          KeptByChange(sys, e, Beat(service, healthy, now), p, k);
        }
      case Metrics(path, epID, active, queueLen) => KeptByChange(sys, e, Load(path, epID, active, queueLen), p, k);
      case Sweep(now, timeout) => KeptByChange(sys, e, Age(now, timeout), p, k);
    }
  }

  lemma KeptByDelete(sys: System, e: Event, p: string, k: string)
    requires WellFormed(sys) && e.Delete? && Has(sys.eps, p, k) && Has(DeleteIn(sys, e.service, e.path).eps, p, k)
    ensures Keeps(e, p, k, At(sys.eps, p, k), At(DeleteIn(sys, e.service, e.path).eps, p, k))
  {
    if e.service != "" && QueryUnescape(e.service).Some? {
      var sid := QueryUnescape(e.service).value;
      if e.path == "" {
        KeptByChange(sys, e, Forget(sid, None), p, k);
      } else if QueryUnescape(e.path).Some? {
        KeptByChange(sys, e, Forget(sid, QueryUnescape(e.path)), p, k);
      }
    }
  }

  lemma NewDetails(sys: System, e: Event, p: string, k: string, n: nat)
    requires WellFormed(sys) && FreshIds(sys, e) && e.Post? && Accepted(sys, e) && Brings(e, p, k, n)
    ensures var t := Step(sys, e).eps;
            Has(t, p, k) && AsAsked(e.requests[n], At(t, p, k)) && At(t, p, k).active == 0 && At(t, p, k).queueLen == 0
  {
    RegisterHas(sys.eps, e.requests, e.service, e.ids, e.now);
    BuiltAsAsked(e.requests[n], e.service, e.ids[n], e.now);
  }

  lemma {:induction false} DetailsFollow(h: seq<Event>, p: string, k: string, i: nat)
    requires Valid(h) && PresentSince(h, p, k, i)
    ensures Has(State(h).eps, p, k) && StemsFrom(h, i, p, k, At(State(h).eps, p, k))
  {
    var init, last := h[..|h| - 1], h[|h| - 1];
    assert init + [last] == h;
    StateWellFormed(init);
    AlwaysTracked(h, p, k);
    if i < |init| {
      PresentNext(init, last, p, k, i);
      DetailsFollow(init, p, k, i);
      KeptDetails(State(init), last, p, k);
    } else {
      assert h[..i] == init;
      AcceptanceFollowsHistory(init, last);
      forall n: nat | Brings(last, p, k, n)
        ensures AsAsked(last.requests[n], At(State(h).eps, p, k))
        ensures At(State(h).eps, p, k).active == 0 && At(State(h).eps, p, k).queueLen == 0
      {
        NewDetails(State(init), last, p, k, n);
      }
    }
  }

  /** After any history, a registered endpoint has the service path, the kind and the limit of a
      registration that brought it and has not been undone, and the load that its pool
      reported last since then. */
  lemma DetailsFollowHistory(h: seq<Event>, p: string, k: string)
    requires Valid(h) && Has(State(h).eps, p, k)
    ensures exists i: nat :: PresentSince(h, p, k, i) && StemsFrom(h, i, p, k, At(State(h).eps, p, k))
  {
    AlwaysTracked(h, p, k);
    var i: nat :| PresentSince(h, p, k, i);
    DetailsFollow(h, p, k, i);
  }
}
