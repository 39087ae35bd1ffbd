/** The local registry read off the history of admin operations: which endpoints are
    registered, and which of them are healthy, without running the tables. */
module RegistryHistory {
  import opened Models
  import opened NestedMaps
  import opened AdminModel
  import opened AdminGuarantees
  import opened AdminLiveness

  // ---------- Health ----------

  predicate SaysHealthy(e: Event) { e.Post? || (e.Heartbeat? && e.healthy) }

  /** The service last spoke at position i, declared itself healthy, and no sweep since found
      it silent for longer than the timeout. */
  ghost predicate HealthySince(h: seq<Event>, service: string, i: nat) {
    && i < |h| && Heard(h[i], service) && SaysHealthy(h[i])
    && forall j :: i < j < |h| ==> !Heard(h[j], service) && !(h[j].Sweep? && h[j].now - h[i].now > h[j].timeout)
  }

  ghost predicate HealthyBy(h: seq<Event>, service: string) {
    exists i: nat :: HealthySince(h, service, i)
  }

  lemma {:induction false} LastHeardAt(h: seq<Event>, service: string, i: nat)
    requires i < |h| && Heard(h[i], service) && forall j :: i < j < |h| ==> !Heard(h[j], service)
    ensures LastHeard(h, service) == Some(h[i].now)
  {
    if i < |h| - 1 {
      LastHeardAt(h[..|h| - 1], service, i);
    }
  }

  lemma HealthyNext(h: seq<Event>, e: Event, service: string)
    ensures HealthyBy(h + [e], service) <==>
              if Heard(e, service) then SaysHealthy(e)
              else HealthyBy(h, service) && !(e.Sweep? && LastHeard(h, service).Some? && e.now - LastHeard(h, service).value > e.timeout)
  {
    var g := h + [e];
    if i: nat :| HealthySince(g, service, i) {
      if i < |h| {
        assert !Heard(g[|h|], service);
        assert forall j :: i < j < |h| ==> g[j] == h[j];
        assert HealthySince(h, service, i);
        LastHeardAt(h, service, i);
      }
    }
    if Heard(e, service) && SaysHealthy(e) {
      assert HealthySince(g, service, |h|);
    }
    if !Heard(e, service) {
      if i: nat :| HealthySince(h, service, i) {
        LastHeardAt(h, service, i);
        assert !(e.Sweep? && e.now - h[i].now > e.timeout) ==> HealthySince(g, service, i);
      }
    }
  }

  // ---------- Presence ----------

  /** The event, after `before`, removes the service's endpoints under the path: a deletion
      that selects them, or a sweep that finds the service unhealthy already and silent for
      more than twice the timeout. */
  ghost predicate Removes(before: seq<Event>, e: Event, p: string, service: string) {
    || (e.Delete? && e.service != "" && QueryUnescape(e.service) == Some(service)
        && (e.path == "" || QueryUnescape(e.path) == Some(p)))
    || (e.Sweep? && !HealthyBy(before, service) && LastHeard(before, service).Some?
        && var silent := e.now - LastHeard(before, service).value;
           silent > e.timeout && silent > e.timeout * 2)
  }

  /** The n-th request of a registration asks for this path and gets this id. */
  predicate Brings(e: Event, p: string, k: string, n: nat) {
    e.Post? && n < |e.requests| && n < |e.ids| && e.requests[n].nodePath == p && e.ids[n] == k
  }

  predicate BringsPlugin(e: Event, p: string) {
    e.Post? && exists n :: 0 <= n < |e.requests| && e.requests[n].plugin && e.requests[n].nodePath == p
  }

  /** After `before` the registration is accepted: it is not empty, all its requests are
      valid, and no path it wants a plugin for has one. */
  ghost predicate AcceptedBy(before: seq<Event>, e: Event)
    decreases |before|, 2
  {
    && e.Post? && e.requests != []
    && (forall n :: 0 <= n < |e.requests| ==> ValidRequest(e.requests[n]))
    && (forall n :: 0 <= n < |e.requests| && e.requests[n].plugin ==> !PluginAt(before, e.requests[n].nodePath))
  }

  /** The registration at position i was accepted, brought a plugin for the path, and nothing
      removed it since. */
  ghost predicate PluginSince(h: seq<Event>, p: string, i: nat)
    decreases |h|, 0
  {
    && i < |h| && BringsPlugin(h[i], p) && AcceptedBy(h[..i], h[i])
    && forall j :: i < j < |h| ==> !Removes(h[..j], h[j], p, h[i].service)
  }

  ghost predicate PluginAt(h: seq<Event>, p: string)
    decreases |h|, 1
  {
    exists i: nat :: PluginSince(h, p, i)
  }

  /** The event, accepted after `before`, registers this path and id. */
  ghost predicate Registers(before: seq<Event>, e: Event, p: string, k: string) {
    AcceptedBy(before, e) && exists n: nat :: Brings(e, p, k, n)
  }

  /** Registered at position i and not removed since. */
  ghost predicate PresentSince(h: seq<Event>, p: string, k: string, i: nat) {
    && i < |h| && Registers(h[..i], h[i], p, k)
    && forall j :: i < j < |h| ==> !Removes(h[..j], h[j], p, h[i].service)
  }

  ghost predicate Present(h: seq<Event>, p: string, k: string) {
    exists i: nat :: PresentSince(h, p, k, i)
  }

  // ---------- The registry follows its history ----------

  /** An endpoint record agrees with the history. */
  ghost predicate HealthRecorded(h: seq<Event>, s: Endpoints) {
    forall p, k :: Has(s, p, k) ==> (At(s, p, k).healthy <==> HealthyBy(h, At(s, p, k).serviceID))
  }

  lemma ChangeHealth(h: seq<Event>, e: Event, ep: LocalEndpoint, c: Change)
    requires ep.healthy <==> HealthyBy(h, ep.serviceID)
    requires LastHeard(h, ep.serviceID) == Some(ep.lastHeartbeat)
    requires Changed(c, ep).Some?
    requires match c
             case Beat(service, healthy, now) => e == Heartbeat(service, healthy, now) && service != ""
             case Age(now, timeout) => e == Sweep(now, timeout)
             case Forget(_, _) => e.Delete?
             case Load(_, _, _, _) => e.Metrics?
    ensures Changed(c, ep).value.healthy <==> HealthyBy(h + [e], ep.serviceID)
  {
    HealthyNext(h, e, ep.serviceID);
  }

  lemma UpdateHealth(h: seq<Event>, e: Event, s: Endpoints, c: Change)
    requires HealthRecorded(h, s) && TimesRecorded(h, s)
    requires match c
             case Beat(service, healthy, now) => e == Heartbeat(service, healthy, now) && service != ""
             case Age(now, timeout) => e == Sweep(now, timeout)
             case Forget(_, _) => e.Delete?
             case Load(_, _, _, _) => e.Metrics?
    ensures HealthRecorded(h + [e], Update(s, c))
  {
    HasUpdate(s, c);
    forall p, k | Has(Update(s, c), p, k)
      ensures At(Update(s, c), p, k).healthy <==> HealthyBy(h + [e], At(Update(s, c), p, k).serviceID)
    {
      ChangeHealth(h, e, At(s, p, k), c);
      ChangeKeepsIdentity(c, At(s, p, k));
    }
  }

  lemma QuietHealth(h: seq<Event>, e: Event, s: Endpoints)
    requires HealthRecorded(h, s) && !e.Sweep?
    requires forall p, k :: Has(s, p, k) ==> !Heard(e, At(s, p, k).serviceID)
    ensures HealthRecorded(h + [e], s)
  {
    forall p, k | Has(s, p, k) ensures At(s, p, k).healthy <==> HealthyBy(h + [e], At(s, p, k).serviceID) {
      HealthyNext(h, e, At(s, p, k).serviceID);
    }
  }

  lemma PostHealth(h: seq<Event>, sys: System, e: Event)
    requires HealthRecorded(h, sys.eps) && WellFormed(sys) && e.Post? && FreshIds(sys, e) && NewService(sys, e)
    ensures HealthRecorded(h + [e], Step(sys, e).eps)
  {
    QuietHealth(h, e, sys.eps);
    if Accepted(sys, e) {
      HealthyNext(h, e, e.service);
      var t := Step(sys, e).eps;
      forall p, k | Has(t, p, k) ensures At(t, p, k).healthy <==> HealthyBy(h + [e], At(t, p, k).serviceID) {
        PostAt(sys, e, p, k);
      }
    }
  }

  /** One place of the registry after an accepted registration. */
  lemma PostAt(sys: System, e: Event, p: string, k: string)
    requires WellFormed(sys) && e.Post? && FreshIds(sys, e) && Accepted(sys, e)
    ensures var t := Step(sys, e).eps;
            var added := exists n: nat :: Brings(e, p, k, n);
            && (Has(t, p, k) <==> Has(sys.eps, p, k) || added)
            && (Has(sys.eps, p, k) ==> !added && At(t, p, k) == At(sys.eps, p, k))
            && (Has(t, p, k) && !Has(sys.eps, p, k) ==> At(t, p, k).serviceID == e.service && At(t, p, k).healthy)
            && (forall n: nat :: Brings(e, p, k, n) ==> Has(t, p, k) && At(t, p, k).plugin == e.requests[n].plugin)
  {
    RegisterHas(sys.eps, e.requests, e.service, e.ids, e.now);
    if Has(sys.eps, p, k) {
      assert k in sys.issued && k !in e.ids;
    } else if Has(Step(sys, e).eps, p, k) {
      RegisterWhere(sys.eps, e.requests, e.service, e.ids, e.now, p, k);
      var n :| 0 <= n < |e.requests| && e.requests[n].nodePath == p && e.ids[n] == k;
      assert Brings(e, p, k, n);
    }
  }

  lemma StepHealth(h: seq<Event>, sys: System, e: Event)
    requires HealthRecorded(h, sys.eps) && TimesRecorded(h, sys.eps) && WellFormed(sys) && FreshIds(sys, e) && NewService(sys, e)
    ensures HealthRecorded(h + [e], Step(sys, e).eps)
  {
    match e {
      case Post(_, _, _, _) => PostHealth(h, sys, e);
      case Delete(service, path) =>
        QuietHealth(h, e, sys.eps);
        if service != "" && QueryUnescape(service).Some? {
          UpdateHealth(h, e, sys.eps, Forget(QueryUnescape(service).value, None));
          if QueryUnescape(path).Some? {
            UpdateHealth(h, e, sys.eps, Forget(QueryUnescape(service).value, QueryUnescape(path)));
          }
        }
      case Heartbeat(service, healthy, now) =>
        if service != "" {
          UpdateHealth(h, e, sys.eps, Beat(service, healthy, now));
        } else {
          QuietHealth(h, e, sys.eps);
        }
      case Metrics(path, epID, active, queueLen) => UpdateHealth(h, e, sys.eps, Load(path, epID, active, queueLen));
      case Sweep(now, timeout) => UpdateHealth(h, e, sys.eps, Age(now, timeout));
    }
  }

  lemma {:induction false} HealthAlwaysRecorded(h: seq<Event>)
    requires Valid(h)
    ensures HealthRecorded(h, State(h).eps)
  {
    if h != [] {
      var init, last := h[..|h| - 1], h[|h| - 1];
      HealthAlwaysRecorded(init);
      TimesAlwaysRecorded(init);
      StateWellFormed(init);
      StepHealth(init, State(init), last);
      assert init + [last] == h;
    }
  }

  /** What one operation does to one place of the registry. */
  lemma StepAt(h: seq<Event>, e: Event, p: string, k: string)
    requires Valid(h) && FreshIds(State(h), e) && NewService(State(h), e)
    ensures var s, t := State(h).eps, Step(State(h), e).eps;
            && (Has(t, p, k) <==> Registers(h, e, p, k) || (Has(s, p, k) && !Removes(h, e, p, At(s, p, k).serviceID)))
            && (Has(s, p, k) && Has(t, p, k) ==>
                  At(t, p, k).serviceID == At(s, p, k).serviceID && At(t, p, k).plugin == At(s, p, k).plugin)
            && (Registers(h, e, p, k) ==> !Has(s, p, k) && At(t, p, k).serviceID == e.service)
            && (Registers(h, e, p, k) ==> forall n: nat :: Brings(e, p, k, n) ==> At(t, p, k).plugin == e.requests[n].plugin)
    decreases |h|, 3
  {
    var sys := State(h);
    StateWellFormed(h);
    match e {
      case Post(_, _, _, _) =>
        AcceptanceFollowsHistory(h, e);
        if Accepted(sys, e) {
          PostAt(sys, e, p, k);
        }
      case Delete(_, _) => DeleteAt(h, e, p, k);
      case Heartbeat(service, healthy, now) => UpdateAt(sys.eps, Beat(service, healthy, now), p, k);
      case Metrics(path, epID, active, queueLen) => UpdateAt(sys.eps, Load(path, epID, active, queueLen), p, k);
      case Sweep(now, timeout) =>
        TimesAlwaysRecorded(h);
        HealthAlwaysRecorded(h);
        UpdateAt(sys.eps, Age(now, timeout), p, k);
    }
  }

  lemma DeleteAt(h: seq<Event>, e: Event, p: string, k: string)
    requires Valid(h) && WellFormed(State(h)) && e.Delete?
    ensures var s, t := State(h).eps, DeleteIn(State(h), e.service, e.path).eps;
            && (Has(t, p, k) <==> Has(s, p, k) && !Removes(h, e, p, At(s, p, k).serviceID))
            && (Has(t, p, k) ==> At(t, p, k) == At(s, p, k))
  {
    if e.service != "" && QueryUnescape(e.service).Some? {
      UpdateAt(State(h).eps, Forget(QueryUnescape(e.service).value, None), p, k);
      if QueryUnescape(e.path).Some? {
        UpdateAt(State(h).eps, Forget(QueryUnescape(e.service).value, QueryUnescape(e.path)), p, k);
      }
    }
  }

  /** The registered endpoints are those present by the history, each with the service and
      the kind of the registration that brought it. */
  ghost predicate Tracked(h: seq<Event>, s: Endpoints, p: string, k: string) {
    && (Has(s, p, k) ==> exists i: nat :: PresentSince(h, p, k, i))
    && (forall i: nat :: PresentSince(h, p, k, i) ==> Has(s, p, k) && Resembles(h[i], p, k, At(s, p, k)))
  }

  ghost predicate Resembles(e: Event, p: string, k: string, ep: LocalEndpoint)
    requires e.Post?
  {
    ep.serviceID == e.service && forall n: nat :: Brings(e, p, k, n) ==> ep.plugin == e.requests[n].plugin
  }

  lemma TrackedNext(h: seq<Event>, e: Event, p: string, k: string)
    requires Valid(h) && FreshIds(State(h), e) && NewService(State(h), e) && Tracked(h, State(h).eps, p, k)
    ensures Tracked(h + [e], Step(State(h), e).eps, p, k)
    decreases |h|, 4
  {
    var g, s, t := h + [e], State(h).eps, Step(State(h), e).eps;
    StepAt(h, e, p, k);
    if Has(t, p, k) {
      if Registers(h, e, p, k) {
        assert g[..|h|] == h;
        assert PresentSince(g, p, k, |h|);
      } else {
        var i: nat :| PresentSince(h, p, k, i);
        PresentNext(h, e, p, k, i);
      }
    }
    forall i: nat | PresentSince(g, p, k, i) ensures Has(t, p, k) && Resembles(g[i], p, k, At(t, p, k)) {
      if i < |h| {
        PresentNext(h, e, p, k, i);
      } else {
        assert g[..|h|] == h;
      }
    }
  }

  lemma PresentNext(h: seq<Event>, e: Event, p: string, k: string, i: nat)
    requires i < |h|
    ensures PresentSince(h + [e], p, k, i) <==> PresentSince(h, p, k, i) && !Removes(h, e, p, h[i].service)
  {
    var g := h + [e];
    assert g[..|h|] == h && g[|h|] == e;
    assert forall j :: 0 <= j <= |h| ==> g[..j] == h[..j];
    assert forall j :: 0 <= j < |h| ==> g[j] == h[j];
    if PresentSince(g, p, k, i) {
      assert !Removes(g[..|h|], g[|h|], p, g[i].service);
    }
  }

  lemma {:induction false} AlwaysTracked(h: seq<Event>, p: string, k: string)
    requires Valid(h)
    ensures Tracked(h, State(h).eps, p, k)
    decreases |h|, 0
  {
    if h != [] {
      var init, last := h[..|h| - 1], h[|h| - 1];
      AlwaysTracked(init, p, k);
      TrackedNext(init, last, p, k);
      assert init + [last] == h;
    }
  }

  /** The registration that put an endpoint in its place had an id for every request. */
  lemma {:induction false} IdsAt(h: seq<Event>, i: nat)
    requires Valid(h) && i < |h| && h[i].Post?
    ensures |h[i].ids| == |h[i].requests|
  {
    if i < |h| - 1 {
      IdsAt(h[..|h| - 1], i);
    }
  }

  ghost predicate HoldsPlugin(s: Endpoints, p: string) {
    exists k :: Has(s, p, k) && At(s, p, k).plugin
  }

  lemma PluginIsHeld(h: seq<Event>, p: string, i: nat)
    requires Valid(h) && PluginSince(h, p, i) && forall k :: Tracked(h, State(h).eps, p, k)
    ensures HoldsPlugin(State(h).eps, p)
  {
    var n: nat :| n < |h[i].requests| && h[i].requests[n].plugin && h[i].requests[n].nodePath == p;
    IdsAt(h, i);
    var k := h[i].ids[n];
    assert Brings(h[i], p, k, n);
    assert PresentSince(h, p, k, i);
    assert Tracked(h, State(h).eps, p, k);
  }

  lemma HeldIsPlugin(h: seq<Event>, p: string, k: string)
    requires Valid(h) && Tracked(h, State(h).eps, p, k) && Has(State(h).eps, p, k) && At(State(h).eps, p, k).plugin
    ensures PluginAt(h, p)
  {
    var i: nat :| PresentSince(h, p, k, i);
    var n: nat :| Brings(h[i], p, k, n);
    assert h[i].requests[n].plugin;
    assert PluginSince(h, p, i);
  }

  /** The registry holds a plugin for a path exactly when the history says so. */
  lemma PluginFollowsHistory(h: seq<Event>, p: string)
    requires Valid(h)
    ensures PluginAt(h, p) <==> HoldsPlugin(State(h).eps, p)
    decreases |h|, 1
  {
    forall k ensures Tracked(h, State(h).eps, p, k) {
      AlwaysTracked(h, p, k);
    }
    if i: nat :| PluginSince(h, p, i) {
      PluginIsHeld(h, p, i);
    }
    if k :| Has(State(h).eps, p, k) && At(State(h).eps, p, k).plugin {
      HeldIsPlugin(h, p, k);
    }
  }

  lemma ConflictIff(sys: System, rs: seq<Request>)
    requires WellFormed(sys)
    ensures PluginConflict(sys.eps, rs) <==> exists n :: 0 <= n < |rs| && rs[n].plugin && HoldsPlugin(sys.eps, rs[n].nodePath)
  {
    var s := sys.eps;
    if PluginConflict(s, rs) {
      var n, p, k :| 0 <= n < |rs| && rs[n].plugin && Has(s, p, k) && At(s, p, k).plugin && At(s, p, k).nodePath == rs[n].nodePath;
      assert HoldsPlugin(s, rs[n].nodePath);
    }
    if n :| 0 <= n < |rs| && rs[n].plugin && HoldsPlugin(s, rs[n].nodePath) {
      var k :| Has(s, rs[n].nodePath, k) && At(s, rs[n].nodePath, k).plugin;
    }
  }

  /** Whether a registration is accepted can be read off the history. */
  lemma AcceptanceFollowsHistory(h: seq<Event>, e: Event)
    requires Valid(h) && e.Post?
    ensures AcceptedBy(h, e) <==> Accepted(State(h), e)
    decreases |h|, 2
  {
    var s, rs := State(h).eps, e.requests;
    StateWellFormed(h);
    ConflictIff(State(h), rs);
    forall n | 0 <= n < |rs| ensures PluginAt(h, rs[n].nodePath) <==> HoldsPlugin(s, rs[n].nodePath) {
      PluginFollowsHistory(h, rs[n].nodePath);
    }
  }

  /** After any history an endpoint is registered exactly when an accepted registration
      brought it and nothing later removed it; it is healthy exactly when its service last
      said so and no sweep since found it silent; and its heartbeat time is when the service
      was last heard from. */
  lemma RegistryFollowsHistory(h: seq<Event>, p: string, k: string)
    requires Valid(h)
    ensures Has(State(h).eps, p, k) <==> Present(h, p, k)
    ensures Has(State(h).eps, p, k) ==>
              && (At(State(h).eps, p, k).healthy <==> HealthyBy(h, At(State(h).eps, p, k).serviceID))
              && LastHeard(h, At(State(h).eps, p, k).serviceID) == Some(At(State(h).eps, p, k).lastHeartbeat)
  {
    AlwaysTracked(h, p, k);
    HealthAlwaysRecorded(h);
    TimesAlwaysRecorded(h);
  }
}
