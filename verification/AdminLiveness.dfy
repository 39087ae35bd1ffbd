/** Heartbeats and sweeps over time: who is marked, who is removed, and when. */
module AdminLiveness {
  import opened Models
  import opened NestedMaps
  import opened AdminModel
  import opened AdminGuarantees

  // ---------- Histories ----------

  /** Service ids are generated anew for every registration. */
  ghost predicate NewService(sys: System, e: Event) {
    e.Post? ==> forall p, k :: Has(sys.eps, p, k) ==> At(sys.eps, p, k).serviceID != e.service
  }

  /** A history from the empty system in which all generated ids are new. */
  ghost predicate Valid(h: seq<Event>)
    decreases |h|, 0
  {
    h == [] || (Valid(h[..|h| - 1]) && FreshIds(State(h[..|h| - 1]), h[|h| - 1]) && NewService(State(h[..|h| - 1]), h[|h| - 1]))
  }

  ghost function State(h: seq<Event>): System
    requires Valid(h)
    decreases |h|, 1
  {
    if h == [] then EMPTY_SYSTEM else Step(State(h[..|h| - 1]), h[|h| - 1])
  }

  lemma {:induction false} StateWellFormed(h: seq<Event>)
    requires Valid(h)
    ensures WellFormed(State(h))
  {
    if h != [] {
      StateWellFormed(h[..|h| - 1]);
      StepKeepsWellFormed(State(h[..|h| - 1]), h[|h| - 1]);
    }
  }

  /** A registration or heartbeat of the service. */
  predicate Heard(e: Event, service: string) {
    (e.Post? && e.service == service) || (e.Heartbeat? && e.service == service && service != "")
  }

  /** The time a service was last heard from. */
  function LastHeard(h: seq<Event>, service: string): Option<int> {
    if h == [] then None
    else if Heard(h[|h| - 1], service) then Some(h[|h| - 1].now)
    else LastHeard(h[..|h| - 1], service)
  }

  /** Every stored heartbeat time is the time its service was last heard from. */
  ghost predicate TimesRecorded(past: seq<Event>, s: Endpoints) {
    forall p, k :: Has(s, p, k) ==> LastHeard(past, At(s, p, k).serviceID) == Some(At(s, p, k).lastHeartbeat)
  }

  lemma UpdateRecorded(past: seq<Event>, e: Event, s: Endpoints, c: Change)
    requires TimesRecorded(past, s)
    requires !e.Post?
    requires if c.Beat? then e == Heartbeat(c.service, c.healthy, c.now) && c.service != "" else !e.Heartbeat?
    ensures TimesRecorded(past + [e], Update(s, c))
  {
    HasUpdate(s, c);
    assert (past + [e])[..|past|] == past;
  }

  lemma StepRecorded(past: seq<Event>, sys: System, e: Event)
    requires TimesRecorded(past, sys.eps) && WellFormed(sys) && FreshIds(sys, e) && NewService(sys, e)
    ensures TimesRecorded(past + [e], Step(sys, e).eps)
  {
    assert (past + [e])[..|past|] == past;
    match e {
      case Post(rs, service, ids, now) =>
        if Accepted(sys, e) {
          RegisterHas(sys.eps, rs, service, ids, now);
          forall p, k | Has(Step(sys, e).eps, p, k)
            ensures LastHeard(past + [e], At(Step(sys, e).eps, p, k).serviceID) == Some(At(Step(sys, e).eps, p, k).lastHeartbeat)
          {
            if !Has(sys.eps, p, k) {
              RegisterWhere(sys.eps, rs, service, ids, now, p, k);
            } else {
              assert k in sys.issued && k !in ids;
            }
          }
        }
      case Delete(service, path) =>
        DeleteRecorded(past, sys, e);
      case Heartbeat(service, healthy, now) =>
        if service != "" {
          UpdateRecorded(past, e, sys.eps, Beat(service, healthy, now));
        }
      case Metrics(path, epID, active, queueLen) => UpdateRecorded(past, e, sys.eps, Load(path, epID, active, queueLen));
      case Sweep(now, timeout) => UpdateRecorded(past, e, sys.eps, Age(now, timeout));
    }
  }

  lemma DeleteRecorded(past: seq<Event>, sys: System, e: Event)
    requires TimesRecorded(past, sys.eps) && e.Delete?
    ensures TimesRecorded(past + [e], DeleteIn(sys, e.service, e.path).eps)
  {
    assert (past + [e])[..|past|] == past;
    if e.service != "" && QueryUnescape(e.service).Some? {
      var sid := QueryUnescape(e.service).value;
      UpdateRecorded(past, e, sys.eps, Forget(sid, None));
      if QueryUnescape(e.path).Some? {
        UpdateRecorded(past, e, sys.eps, Forget(sid, QueryUnescape(e.path)));
      }
    }
  }

  /** In every reachable registry, an endpoint's heartbeat time is the time its service was
      last heard from. */
  lemma {:induction false} TimesAlwaysRecorded(h: seq<Event>)
    requires Valid(h)
    ensures TimesRecorded(h, State(h).eps)
  {
    if h != [] {
      var init, last := h[..|h| - 1], h[|h| - 1];
      TimesAlwaysRecorded(init);
      StateWellFormed(init);
      StepRecorded(init, State(init), last);
      assert init + [last] == h;
    }
  }

  /** A sweep after any history leaves alone every endpoint whose service was heard from
      within the timeout, marks one only when it was silent for longer, and removes one
      only when it was unhealthy already and silent for more than twice the timeout. */
  lemma SweepIsFair(h: seq<Event>, now: int, timeout: int, p: string, k: string)
    requires Valid(h) && Has(State(h).eps, p, k) && timeout >= 0
    ensures var before := State(h);
            var heard := LastHeard(h, At(before.eps, p, k).serviceID);
            heard.Some? && FairlySwept(before.eps, Step(before, Sweep(now, timeout)).eps, p, k, now - heard.value, timeout)
  {
    TimesAlwaysRecorded(h);
    SweepEffect(State(h).eps, now, timeout, p, k);
  }

  /** What a sweep may do to an endpoint that has been silent for so long. */
  ghost predicate FairlySwept(s: Endpoints, t: Endpoints, p: string, k: string, silent: int, timeout: int)
    requires Has(s, p, k)
  {
    var ep := At(s, p, k);
    && (silent <= timeout ==> Has(t, p, k) && At(t, p, k) == ep)
    && (!Has(t, p, k) <==> !ep.healthy && silent > 2 * timeout)
    && (Has(t, p, k) ==> At(t, p, k) == ep.(healthy := ep.healthy && silent <= timeout))
  }

  lemma SweepEffect(s: Endpoints, now: int, timeout: int, p: string, k: string)
    requires Has(s, p, k) && timeout >= 0
    ensures FairlySwept(s, Update(s, Age(now, timeout)), p, k, now - At(s, p, k).lastHeartbeat, timeout)
  {
    UpdateAt(s, Age(now, timeout), p, k);
  }

  // ---------- Silence ends in removal ----------

  /** A sweep that finds `since` more than twice the timeout ago. */
  predicate LateSweep(e: Event, since: int) {
    e.Sweep? && e.timeout >= 0 && e.now - since > 2 * e.timeout
  }

  function LateSweeps(h: seq<Event>, since: int): nat {
    if h == [] then 0 else (if LateSweep(h[0], since) then 1 else 0) + LateSweeps(h[1..], since)
  }

  /** How many late sweeps an endpoint silent since `since` survives. */
  ghost function Lives(s: Endpoints, p: string, k: string): nat {
    if !Has(s, p, k) then 0 else if At(s, p, k).healthy then 2 else 1
  }

  /** The endpoint (p, k) of this service is gone, or was last heard from at `since`. */
  ghost predicate SilentSince(sys: System, p: string, k: string, service: string, since: int) {
    k in sys.issued && (Has(sys.eps, p, k) ==> At(sys.eps, p, k).lastHeartbeat == since && At(sys.eps, p, k).serviceID == service)
  }

  lemma SilentUpdate(s: Endpoints, c: Change, p: string, k: string, service: string, since: int)
    requires Has(s, p, k) ==> At(s, p, k).lastHeartbeat == since && At(s, p, k).serviceID == service
    requires !(c.Beat? && c.service == service)
    ensures var t := Update(s, c);
            && (Has(t, p, k) ==> At(t, p, k).lastHeartbeat == since && At(t, p, k).serviceID == service)
            && Lives(t, p, k) <= Lives(s, p, k)
            && (c.Age? && c.timeout >= 0 && c.now - since > 2 * c.timeout && Has(s, p, k) ==> Lives(t, p, k) < Lives(s, p, k))
  {
    UpdateAt(s, c, p, k);
  }

  lemma SilentStep(sys: System, e: Event, p: string, k: string, service: string, since: int)
    requires SilentSince(sys, p, k, service, since) && FreshIds(sys, e) && WellFormed(sys)
    requires !(e.Heartbeat? && e.service == service)
    ensures SilentSince(Step(sys, e), p, k, service, since)
    ensures Lives(Step(sys, e).eps, p, k) <= Lives(sys.eps, p, k)
    ensures LateSweep(e, since) && Has(sys.eps, p, k) ==> Lives(Step(sys, e).eps, p, k) < Lives(sys.eps, p, k)
  {
    match e {
      case Post(rs, s, ids, now) =>
        if Accepted(sys, e) {
          RegisterHas(sys.eps, rs, s, ids, now);
        }
      case Delete(s, path) =>
        if s != "" && QueryUnescape(s).Some? {
          SilentUpdate(sys.eps, Forget(QueryUnescape(s).value, None), p, k, service, since);
          if QueryUnescape(path).Some? {
            SilentUpdate(sys.eps, Forget(QueryUnescape(s).value, QueryUnescape(path)), p, k, service, since);
          }
        }
      case Heartbeat(s, healthy, now) => SilentUpdate(sys.eps, Beat(s, healthy, now), p, k, service, since);
      case Metrics(path, epID, active, queueLen) =>
        SilentUpdate(sys.eps, Load(path, epID, active, queueLen), p, k, service, since);
      case Sweep(now, timeout) => SilentUpdate(sys.eps, Age(now, timeout), p, k, service, since);
    }
  }

  lemma {:induction false} LivesRunOut(sys: System, h: seq<Event>, p: string, k: string, service: string, since: int)
    requires Runs(sys, h) && WellFormed(sys)
    requires forall i :: 0 <= i < |h| ==> !(h[i].Heartbeat? && h[i].service == service)
    requires SilentSince(sys, p, k, service, since)
    ensures var n := Lives(sys.eps, p, k);
            Lives(After(sys, h).eps, p, k) <= if LateSweeps(h, since) >= n then 0 else n - LateSweeps(h, since)
    decreases |h|
  {
    if h != [] {
      SilentStep(sys, h[0], p, k, service, since);
      StepKeepsWellFormed(sys, h[0]);
      LivesRunOut(Step(sys, h[0]), h[1..], p, k, service, since);
    }
  }

  /** An endpoint that stays silent is gone after two sweeps more than twice the timeout
      later, whatever else happens in between, and does not come back. */
  lemma SilentIsSwept(sys: System, h: seq<Event>, p: string, k: string)
    requires Runs(sys, h) && WellFormed(sys) && Has(sys.eps, p, k)
    requires forall i :: 0 <= i < |h| ==> !(h[i].Heartbeat? && h[i].service == At(sys.eps, p, k).serviceID)
    requires LateSweeps(h, At(sys.eps, p, k).lastHeartbeat) >= 2
    ensures !Has(After(sys, h).eps, p, k)
  {
    var ep := At(sys.eps, p, k);
    LivesRunOut(sys, h, p, k, ep.serviceID, ep.lastHeartbeat);
  }
}
