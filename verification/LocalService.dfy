/** A request served at its own node: the choice of a pool, the endpoint behind it, the call on
    the pool, and the address the worker calls (internal/business/forwarder/forwarder.go and
    processRequest of internal/pool/pool.go), put together with the route that brought the
    request there. */
module LocalService {
  import opened Models
  import opened NestedMaps
  import opened Routing
  import opened PathRewrite
  import opened AdminModel
  import opened AdminGuarantees
  import opened PoolVisits
  import opened PoolChoice
  import opened RequestPoolObject
  import Balancer
  import PoolProtocol
  import LocalPick
  import Router
  import Forwarding

  datatype Answer =
    | Unavailable                       // 503
    | Panicked
    | BadRequest                        // 400
    | BadGateway                        // 502
    | Relayed(port: int, path: string)  // the backend's response, and the call it received
    | Nothing                           // nothing is written

  // ---------- Pools point at their endpoints ----------

  /** The pool an endpoint should have. */
  function PoolOf(ep: LocalEndpoint): PoolInfo
    requires HasPort(ep.servicePath)
  {
    PoolInfo(Atoi(ServicePort(ep.servicePath)).value, ServiceBase(ep.servicePath), ep.maxConcurrent)
  }

  /** A pool has the port, base path and limit of the endpoint it stands beside. */
  ghost predicate TargetAt(sys: System, p: string, k: string) {
    Pooled(sys.eps, p, k) && Has(sys.pools, p, k) ==>
      var pool, ep := At(sys.pools, p, k), At(sys.eps, p, k);
      Atoi(ServicePort(ep.servicePath)) == Some(pool.port) && pool.base == ServiceBase(ep.servicePath) && pool.limit == ep.maxConcurrent
  }

  ghost predicate Targeted(sys: System) {
    forall p, k :: TargetAt(sys, p, k)
  }

  /** Creating the pools of a batch leaves the others alone. */
  lemma {:induction false} CreateElsewhere(pools: Pools, rs: seq<Request>, ids: seq<string>, p: string, k: string)
    requires |ids| == |rs| && k !in ids
    ensures var t := CreateIn(pools, rs, ids);
            (Has(t, p, k) <==> Has(pools, p, k)) && (Has(t, p, k) ==> At(t, p, k) == At(pools, p, k))
  {
    if rs != [] {
      var n := |rs| - 1;
      assert ids[n] in ids;
      CreateElsewhere(pools, rs[..n], ids[..n], p, k);
      if HasPort(rs[n].servicePath) {
        HasPut(CreateIn(pools, rs[..n], ids[..n]), rs[n].nodePath, ids[n], PoolFor(rs[n]));
      }
    }
  }

  lemma {:induction false} CreateHas(pools: Pools, rs: seq<Request>, ids: seq<string>, i: nat)
    requires |ids| == |rs| && Distinct(ids) && i < |rs| && HasPort(rs[i].servicePath)
    ensures var t := CreateIn(pools, rs, ids);
            Has(t, rs[i].nodePath, ids[i]) && At(t, rs[i].nodePath, ids[i]) == PoolFor(rs[i])
    decreases |rs|
  {
    var n := |rs| - 1;
    if i < n {
      CreateHas(pools, rs[..n], ids[..n], i);
    }
    if HasPort(rs[n].servicePath) {
      HasPut(CreateIn(pools, rs[..n], ids[..n]), rs[n].nodePath, ids[n], PoolFor(rs[n]));
    }
  }

  lemma PostTargets(sys: System, e: Event, p: string, k: string)
    requires WellFormed(sys) && e.Post? && FreshIds(sys, e) && Accepted(sys, e) && TargetAt(sys, p, k)
    ensures TargetAt(Step(sys, e), p, k)
  {
    RegisterHas(sys.eps, e.requests, e.service, e.ids, e.now);
    if Has(sys.eps, p, k) {
      assert k in sys.issued && k !in e.ids;
      CreateElsewhere(sys.pools, e.requests, e.ids, p, k);
    } else if Pooled(Step(sys, e).eps, p, k) {
      RegisterWhere(sys.eps, e.requests, e.service, e.ids, e.now, p, k);
      var n :| 0 <= n < |e.requests| && e.requests[n].nodePath == p && e.ids[n] == k;
      CreateHas(sys.pools, e.requests, e.ids, n);
    }
  }

  lemma ChangeTargets(sys: System, c: Change, keys: set<(string, string)>, p: string, k: string)
    requires TargetAt(sys, p, k)
    ensures TargetAt(sys.(eps := Update(sys.eps, c)), p, k)
    ensures TargetAt(sys.(eps := Update(sys.eps, c), pools := Without(sys.pools, keys)), p, k)
  {
    UpdateAt(sys.eps, c, p, k);
    HasWithout(sys.pools, keys);
    if Has(Update(sys.eps, c), p, k) {
      ChangeKeepsIdentity(c, At(sys.eps, p, k));
    }
  }

  lemma StepTargets(sys: System, e: Event, p: string, k: string)
    requires WellFormed(sys) && FreshIds(sys, e) && TargetAt(sys, p, k)
    ensures TargetAt(Step(sys, e), p, k)
  {
    match e {
      case Post(_, _, _, _) =>
        if Accepted(sys, e) {
          PostTargets(sys, e, p, k);
        }
      case Delete(service, path) =>
        if service != "" && QueryUnescape(service).Some? {
          var sid := QueryUnescape(service).value;
          ChangeTargets(sys, Forget(sid, None), KeysOf(sys.eps, Forget(sid, None)), p, k);
          if QueryUnescape(path).Some? {
            ChangeTargets(sys, Forget(sid, QueryUnescape(path)), KeysOf(sys.eps, Forget(sid, Some(path))), p, k);
          }
        }
      case Heartbeat(service, healthy, now) => ChangeTargets(sys, Beat(service, healthy, now), {}, p, k);
      case Metrics(path, epID, active, queueLen) => ChangeTargets(sys, Load(path, epID, active, queueLen), {}, p, k);
      case Sweep(now, timeout) => ChangeTargets(sys, Age(now, timeout), KeysOf(sys.eps, Age(now, timeout)), p, k);
    }
  }

  /** Over every run, whatever is deleted how, each pool of a registered endpoint calls the
      port and base path that its endpoint was registered with, under its limit. */
  lemma {:induction false} PoolsTargetEndpoints(sys: System, h: seq<Event>)
    requires Runs(sys, h) && WellFormed(sys) && Targeted(sys)
    ensures Targeted(After(sys, h))
    decreases |h|
  {
    if h != [] {
      forall p, k ensures TargetAt(Step(sys, h[0]), p, k) {
        StepTargets(sys, h[0], p, k);
      }
      StepKeepsWellFormed(sys, h[0]);
      PoolsTargetEndpoints(Step(sys, h[0]), h[1..]);
    }
  }

  // ---------- The worker ----------

  /** What the worker cannot know beforehand: whether the request body can be read, whether the
      backend answers, and whether the context has ended when something fails. That context
      ends with the client's request and with the Shutdown of the pool. */
  datatype Fate = Fate(readable: bool, answered: bool, ended: bool)

  /** The path of the target, a text that the HTTP client parses again. */
  function Target(pool: PoolInfo, nodePath: string, path: string): Option<string> {
    HopPath(pool.base + SubPath(path, nodePath))
  }

  /** processRequest: an unreadable body, a URL that does not parse, a failed exchange (a port
      above 65535 cannot be dialled), or the backend's response. */
  function Respond(pool: PoolInfo, nodePath: string, path: string, fate: Fate): Answer {
    if !fate.readable then BadRequest
    else if pool.port < 0 || Target(pool, nodePath, path).None? then (if fate.ended then Nothing else BadGateway)
    else if pool.port > 65535 || !fate.answered then (if fate.ended then Nothing else BadGateway)
    else Relayed(pool.port, Target(pool, nodePath, path).value)
  }

  // ---------- The node ----------

  /** How a request that is served locally gets along: no pool under the path, a panic of the
      choice, a pool whose endpoint is gone, or a call on the chosen pool that has ended. */
  datatype Way =
    | NoPool
    | ChoicePanics
    | NoEndpoint(epID: string)
    | Through(epID: string, visit: Visit, outcome: Outcome)

  ghost predicate Takes(sys: System, load: Loads, nodePath: string, way: Way) {
    match way
    case NoPool => nodePath !in sys.pools
    case ChoicePanics => CanFail(sys, load, nodePath)
    case NoEndpoint(k) => LeastLoaded(sys, load, nodePath, k) && !Has(sys.eps, nodePath, k)
    case Through(k, visit, outcome) => LeastLoaded(sys, load, nodePath, k) && Has(sys.eps, nodePath, k) && Ends(visit, outcome)
  }

  /** The answer at the end of each way. */
  function AnswerAt(pools: Pools, nodePath: string, path: string, way: Way, fate: Fate): Answer
    requires way.Through? ==> Has(pools, nodePath, way.epID)
  {
    match way
    case NoPool => Unavailable
    case ChoicePanics => Panicked
    case NoEndpoint(_) => Unavailable
    case Through(k, _, outcome) =>
      match outcome
      case Nil => Respond(At(pools, nodePath, k), nodePath, path, fate)
      case QueueFull => Unavailable
      case ContextEnded => Nothing
      case Crashed => Panicked
  }

  /** The metrics of the live pools. */
  function Measured(running: map<(string, string), RequestPool>): Loads
    reads running.Values
  {
    map key | key in running :: (running[key].activeCount, |running[key].queue|)
  }

  /** The live pool k has no more requests, active and queued, per unit of its limit than the
      live pool j, up to a thousandth. */
  ghost predicate LiveNotAbove(sys: System, running: map<(string, string), RequestPool>, path: string, k: string, j: string)
    requires (path, k) in running && (path, j) in running && Has(sys.pools, path, k) && Has(sys.pools, path, j)
    reads running.Values
  {
    var here, there, mine, other := running[(path, k)], running[(path, j)], At(sys.pools, path, k).limit, At(sys.pools, path, j).limit;
    mine >= 1 && other >= 1 ==>
      WithinThousandth(here.activeCount + |here.queue|, mine, there.activeCount + |there.queue|, other)
  }

  /** The choice, with the metrics read from the live pools. */
  method SelectLive(sys: System, running: map<(string, string), RequestPool>, path: string, draw: nat)
    returns (c: Balancer.Choice, epID: string)
    requires NoEmptyInner(sys.pools) && forall p, k :: Has(sys.pools, p, k) ==> (p, k) in running
    ensures c.Nobody? <==> path !in sys.pools
    ensures c.Panics? ==> CanFail(sys, Measured(running), path)
    ensures c.Selected? ==> LeastLoaded(sys, Measured(running), path, epID)
    ensures c.Selected? ==> forall j :: Has(sys.pools, path, j) ==> LiveNotAbove(sys, running, path, epID, j)
  {
    var load := Measured(running);
    c, epID := SelectPool(sys, load, path, draw);
    if c.Selected? {
      forall j | Has(sys.pools, path, j) ensures LiveNotAbove(sys, running, path, epID, j) {
        assert NotAbove(sys, load, path, epID, j);
      }
    }
  }

  /** HandleLocalRequestByPath on the live pools, down to the answer. The pool it goes through
      had no more requests, active and queued, per unit of its limit than any other pool of
      the path, up to a thousandth. */
  method HandleLocalRequestByPath(sys: System, running: map<(string, string), RequestPool>, nodePath: string, path: string,
                                  draw: nat, fate: Fate)
    returns (ans: Answer, ghost way: Way)
    requires WellFormed(sys) && forall p, k :: Has(sys.pools, p, k) ==> (p, k) in running
    requires forall key :: key in running ==> running[key].Valid()
    modifies running.Values
    ensures Takes(sys, old(Measured(running)), nodePath, way)
    ensures ans == AnswerAt(sys.pools, nodePath, path, way, fate)
    ensures way.Through? ==>
              var pool, visit := running[(nodePath, way.epID)], way.visit;
              && visit == Visit(pool.limit, pool.capacity, pool.run, visit.call)
              && old(pool.run) <= pool.run && |old(pool.calls)| <= visit.call
    ensures way.Through? ==> forall j :: Has(sys.pools, nodePath, j) ==> old(LiveNotAbove(sys, running, nodePath, way.epID, j))
  {
    var c, epID := SelectLive(sys, running, nodePath, draw);
    match c {
      case Nobody => ans, way := Unavailable, NoPool;
      case Panics => ans, way := Panicked, ChoicePanics;
      case Selected(_) =>
        if !Has(sys.eps, nodePath, epID) {
          ans, way := Unavailable, NoEndpoint(epID);
        } else {
          var ep := At(sys.eps, nodePath, epID);
          var pool := running[(ep.nodePath, ep.epID)];
          var call, outcome := Serve(pool);
          way := Through(epID, Visit(pool.limit, pool.capacity, pool.run, call), outcome);
          match outcome {
            case Nil => ans := Respond(At(sys.pools, nodePath, epID), nodePath, path, fate);
            case QueueFull => ans := Unavailable;
            case ContextEnded => ans := Nothing;
            case Crashed => ans := Panicked;
          }
        }
    }
  }

  /** The call on the chosen pool; others may be first. */
  method Serve(pool: RequestPool) returns (call: nat, outcome: Outcome)
    requires pool.Valid()
    modifies pool
    ensures old(pool.run) <= pool.run && |old(pool.calls)| <= call
    ensures Ends(Visit(pool.limit, pool.capacity, pool.run, call), outcome)
  {
    pool.Interfere(Onlooker, pool.run);
    call, outcome := pool.ServeWithHeaders();
  }

  // ---------- What the answers mean ----------

  /** No endpoint registered under the path has a port that parses. */
  ghost predicate NoPort(eps: Endpoints, path: string) {
    forall k :: !Pooled(eps, path, k)
  }

  lemma NoPortIff(sys: System, nodePath: string)
    requires WellFormed(sys) && Agree(sys.eps, sys.pools)
    ensures NoPort(sys.eps, nodePath) <==> nodePath !in sys.pools
  {
    if nodePath in sys.pools {
      NonEmptyHas(sys.pools, nodePath);
      var k :| Has(sys.pools, nodePath, k);
      assert Pooled(sys.eps, nodePath, k);
    } else {
      forall k ensures !Pooled(sys.eps, nodePath, k) {
        assert !Has(sys.pools, nodePath, k);
      }
    }
  }

  /** The call at the end of a way found the buffer of the chosen pool full. */
  ghost predicate MetFullQueue(way: Way) { way.Through? && FoundFull(way.visit) }

  ghost predicate MetClosedQueue(way: Way) { way.Through? && FoundClosed(way.visit) }

  /** A worker has taken the request and closed its Done. */
  predicate Worked(way: Way) { way.Through? && way.outcome.Nil? }

  /** Agreeing tables answer 503 exactly when no endpoint of the path has a port or the buffer of
      the chosen pool was full at the send, and panic exactly when the choice does or the queue
      was closed at the send. Every other answer but silence is a worker's: the request was
      started, and its pool has the port and base path of an endpoint of the path. */
  lemma AnswersMean(sys: System, load: Loads, nodePath: string, path: string, way: Way, fate: Fate)
    requires WellFormed(sys) && Agree(sys.eps, sys.pools) && Targeted(sys) && Takes(sys, load, nodePath, way)
    ensures var ans := AnswerAt(sys.pools, nodePath, path, way, fate);
            && (ans.Unavailable? <==> NoPort(sys.eps, nodePath) || MetFullQueue(way))
            && (ans.Panicked? <==> way.ChoicePanics? || MetClosedQueue(way))
            && (ans.BadRequest? || ans.BadGateway? || ans.Relayed? ==> Worked(way))
            && (Worked(way) ==> Started(way.visit) && Pooled(sys.eps, nodePath, way.epID)
                                && ans == Respond(PoolOf(At(sys.eps, nodePath, way.epID)), nodePath, path, fate))
  {
    NoPortIff(sys, nodePath);
    match way {
      case NoPool =>
      case ChoicePanics => FailsWithPools(sys, load, nodePath);
      case NoEndpoint(_) =>
      case Through(k, visit, outcome) =>
        OutcomeExplained(visit, outcome);
        assert TargetAt(sys, nodePath, k);
    }
  }

  lemma FailsWithPools(sys: System, load: Loads, path: string)
    requires NoEmptyInner(sys.pools) && CanFail(sys, load, path)
    ensures path in sys.pools
  {
    var ps, draw: nat :| Listing(sys, load, path, ps) && Choose(ps, draw).Panics?;
    EmptyListing(sys, load, path, ps);
  }

  /** The address made from an endpoint and a request path cannot be called: the port is not
      one, or the path does not parse. */
  predicate Misaddressed(ep: LocalEndpoint, path: string)
    requires HasPort(ep.servicePath)
  {
    !(0 <= PoolOf(ep).port <= 65535) || Target(PoolOf(ep), ep.nodePath, path).None?
  }

  /** The request path was exchanged for the service path: what completes the registered path
      to the request path completes the registered base to the path the backend sees. */
  predicate Exchanged(path: string, ep: LocalEndpoint, ans: Answer) {
    var sub := SubPath(path, ep.nodePath);
    && ans.Relayed? && CompletedBy(path, ep.nodePath, sub)
    && Atoi(ServicePort(ep.servicePath)) == Some(ans.port) && 0 <= ans.port <= 65535
    && HopPath(ServiceBase(ep.servicePath) + sub) == Some(ans.path)
    && (PlainPath(ep.servicePath) ==> ans.path == ServiceBase(ep.servicePath) + sub)
  }

  /** The worker's answer: 400 exactly for an unreadable body; 502 exactly for a readable one
      whose call could not be made or was not answered, while somebody was still waiting;
      otherwise the call goes where it should. For a plain service path it cannot be made
      exactly when the port is out of range. */
  lemma ResponseMeans(ep: LocalEndpoint, path: string, fate: Fate)
    requires HasPort(ep.servicePath) && Matches(path, ep.nodePath) && PlainPath(path)
    ensures var ans := Respond(PoolOf(ep), ep.nodePath, path, fate);
            && (ans.BadRequest? <==> !fate.readable)
            && (ans.BadGateway? <==> fate.readable && !fate.ended && (!fate.answered || Misaddressed(ep, path)))
            && (ans.Relayed? <==> fate.readable && fate.answered && !Misaddressed(ep, path))
            && (ans.Relayed? ==> Exchanged(path, ep, ans))
    ensures PlainPath(ep.servicePath) ==> (Misaddressed(ep, path) <==> !(0 <= PoolOf(ep).port <= 65535))
  {
    ResponseCases(ep, path, fate);
    if Respond(PoolOf(ep), ep.nodePath, path, fate).Relayed? {
      RelayedIsExchanged(ep, path, fate);
    }
    if PlainPath(ep.servicePath) {
      PlainTargetKept(ep, path);
    }
  }

  lemma ResponseCases(ep: LocalEndpoint, path: string, fate: Fate)
    requires HasPort(ep.servicePath)
    ensures var ans := Respond(PoolOf(ep), ep.nodePath, path, fate);
            && (ans.BadRequest? <==> !fate.readable)
            && (ans.BadGateway? <==> fate.readable && !fate.ended && (!fate.answered || Misaddressed(ep, path)))
            && (ans.Relayed? <==> fate.readable && fate.answered && !Misaddressed(ep, path))
  {
  }

  lemma RelayedIsExchanged(ep: LocalEndpoint, path: string, fate: Fate)
    requires HasPort(ep.servicePath) && Matches(path, ep.nodePath) && PlainPath(path)
    requires Respond(PoolOf(ep), ep.nodePath, path, fate).Relayed?
    ensures Exchanged(path, ep, Respond(PoolOf(ep), ep.nodePath, path, fate))
  {
    SubPathCompletes(path, ep.nodePath);
    if PlainPath(ep.servicePath) {
      PlainTargetKept(ep, path);
    }
  }

  lemma PlainTargetKept(ep: LocalEndpoint, path: string)
    requires HasPort(ep.servicePath) && Matches(path, ep.nodePath) && PlainPath(path) && PlainPath(ep.servicePath)
    ensures Target(PoolOf(ep), ep.nodePath, path) == Some(ServiceBase(ep.servicePath) + SubPath(path, ep.nodePath))
  {
    SubPathCompletes(path, ep.nodePath);
    PlainTarget(ep.servicePath, path, ep.nodePath);
    HopKeepsPathIff(ServiceBase(ep.servicePath) + SubPath(path, ep.nodePath));
  }

  lemma PlainTarget(servicePath: string, path: string, nodePath: string)
    requires PlainPath(servicePath) && PlainPath(path) && CompletedBy(path, nodePath, SubPath(path, nodePath))
    ensures PlainPath(ServiceBase(servicePath) + SubPath(path, nodePath))
  {
    var base, sub := ServiceBase(servicePath), SubPath(path, nodePath);
    forall c | c in base + sub ensures !IsControl(c) && c != '#' && c != '?' && c != '%' {
      if c in base {
        if '/' in servicePath {
          AfterPortIsSuffix(servicePath);
          assert c in servicePath;
        }
      } else {
        assert c in nodePath + sub;
      }
    }
  }

  // ---------- From the first node to the backend ----------

  /** The view a node served a request from was read from these tables, and no remote node
      passes for the node itself. */
  ghost predicate ReadFrom(v: NodeView, eps: Endpoints) {
    && IsPick(eps, v.representatives)
    && forall n :: n in v.remote ==> !(n.nodeID == v.self && n.address == "127.0.0.1")
  }

  lemma LocalIsLive(sys: System, v: NodeView, path: string, seen: set<string>, c: RemoteNode)
    requires WellFormed(sys) && ReadFrom(v, sys.eps) && Forwarding.Local(v, c) && IsCandidate(v, path, seen, c)
    ensures c.nodePath in LocalPick.LivePaths(sys.eps)
  {
    LocalPick.PickedAreLive(sys, v.representatives);
  }

  /** A path a node serves under is one of its own with a healthy endpoint. */
  lemma ServedIsLive(sys: System, views: seq<NodeView>, states: seq<Forwarding.Where>, k: nat)
    requires WellFormed(sys) && Forwarding.Trace(views, states) && 0 < k < |states| && states[k].ServedAt?
    requires ReadFrom(views[k - 1], sys.eps)
    ensures states[k].nodePath in LocalPick.LivePaths(sys.eps)
  {
    var c := Forwarding.ServedFrom(views, states, k);
    LocalIsLive(sys, views[k - 1], states[k - 1].path, Router.Seen(states[k - 1].header), c);
  }

  /** However a plain request path travelled, the node that serves it does so under a live path
      of its own. It answers 503 exactly when no endpoint of that path has a port or the chosen
      pool's buffer was full, panics exactly when the choice does or the chosen queue was
      closed, and gives every other answer through a worker that took the request: a call goes
      to an endpoint of the path with the matched prefix of the original path exchanged for
      that endpoint's base path, and 502 means a readable request whose call could not be made
      or was not answered while somebody was still waiting. */
  lemma ServedEndToEnd(views: seq<NodeView>, states: seq<Forwarding.Where>, k: nat, h: seq<Event>,
                       load: Loads, way: Way, fate: Fate)
    requires Forwarding.Trace(views, states) && 0 < k < |states| && states[k].ServedAt?
    requires states[0].At? && PlainPath(states[0].path)
    requires Runs(EMPTY_SYSTEM, h) && forall i :: 0 <= i < |h| ==> PlainDelete(h[i])
    requires ReadFrom(views[k - 1], After(EMPTY_SYSTEM, h).eps)
    requires Takes(After(EMPTY_SYSTEM, h), load, states[k].nodePath, way)
    ensures var sys, path, nodePath := After(EMPTY_SYSTEM, h), states[0].path, states[k].nodePath;
            var ans := AnswerAt(sys.pools, nodePath, states[k].path, way, fate);
            && nodePath in LocalPick.LivePaths(sys.eps)
            && (ans.Unavailable? <==> NoPort(sys.eps, nodePath) || MetFullQueue(way))
            && (ans.Panicked? <==> way.ChoicePanics? || MetClosedQueue(way))
            && (Worked(way) ==> Started(way.visit) && Pooled(sys.eps, nodePath, way.epID))
            && (ans.Relayed? ==> Worked(way) && Exchanged(path, At(sys.eps, nodePath, way.epID), ans))
            && (ans.BadRequest? <==> Worked(way) && !fate.readable)
            && (ans.BadGateway? <==> Worked(way) && fate.readable && !fate.ended
                                     && (!fate.answered || Misaddressed(At(sys.eps, nodePath, way.epID), path)))
  {
    PoolsFollowEndpoints(EMPTY_SYSTEM, h);
    PoolsTargetEndpoints(EMPTY_SYSTEM, h);
    ArrivesLive(After(EMPTY_SYSTEM, h), views, states, k);
    AnswersForPlain(After(EMPTY_SYSTEM, h), load, states[k].nodePath, states[0].path, way, fate);
  }

  /** The route: the path is the original one, matches the path served under, and that is live. */
  lemma ArrivesLive(sys: System, views: seq<NodeView>, states: seq<Forwarding.Where>, k: nat)
    requires WellFormed(sys) && Forwarding.Trace(views, states) && 0 < k < |states| && states[k].ServedAt?
    requires states[0].At? && PlainPath(states[0].path) && ReadFrom(views[k - 1], sys.eps)
    ensures states[k].path == states[0].path && Matches(states[0].path, states[k].nodePath)
    ensures states[k].nodePath in LocalPick.LivePaths(sys.eps)
  {
    Forwarding.PathSurvives(views, states, k);
    ServedIsLive(sys, views, states, k);
  }

  /** The answer to a plain path that matches the path served under. */
  lemma AnswersForPlain(sys: System, load: Loads, nodePath: string, path: string, way: Way, fate: Fate)
    requires WellFormed(sys) && Agree(sys.eps, sys.pools) && Targeted(sys) && Takes(sys, load, nodePath, way)
    requires PlainPath(path) && Matches(path, nodePath)
    ensures var ans := AnswerAt(sys.pools, nodePath, path, way, fate);
            && (ans.Unavailable? <==> NoPort(sys.eps, nodePath) || MetFullQueue(way))
            && (ans.Panicked? <==> way.ChoicePanics? || MetClosedQueue(way))
            && (Worked(way) ==> Started(way.visit) && Pooled(sys.eps, nodePath, way.epID))
            && (ans.Relayed? ==> Worked(way) && Exchanged(path, At(sys.eps, nodePath, way.epID), ans))
            && (ans.BadRequest? <==> Worked(way) && !fate.readable)
            && (ans.BadGateway? <==> Worked(way) && fate.readable && !fate.ended
                                     && (!fate.answered || Misaddressed(At(sys.eps, nodePath, way.epID), path)))
  {
    AnswersMean(sys, load, nodePath, path, way, fate);
    if Worked(way) {
      var ep := At(sys.eps, nodePath, way.epID);
      assert ep.nodePath == nodePath;
      ResponseMeans(ep, path, fate);
    }
  }

  // ---------- Inputs ----------

  /** Every request that is served under the path is answered 503. */
  ghost predicate Always503(sys: System, nodePath: string) {
    forall load, way, fate, path :: Takes(sys, load, nodePath, way) ==> AnswerAt(sys.pools, nodePath, path, way, fate).Unavailable?
  }

  lemma NoPoolsAlways503(sys: System, nodePath: string)
    requires sys.pools == map[]
    ensures Always503(sys, nodePath)
  {
    forall load, way | Takes(sys, load, nodePath, way) ensures way.NoPool? {
      if way.ChoicePanics? {
        FailsWithPools(sys, load, nodePath);
      }
    }
  }

  /** One endpoint without a port that parses, registered in an empty registry. */
  lemma PortlessRegistration(e: Event) returns (v: NodeView)
    requires Single(e) && !HasPort(e.requests[0].servicePath)
    ensures FreshIds(EMPTY_SYSTEM, e)
    ensures var sys, r, id := Step(EMPTY_SYSTEM, e), e.requests[0], e.ids[0];
            && Has(sys.eps, r.nodePath, id) && v.endpoints == map[r.nodePath := [At(sys.eps, r.nodePath, id)]]
            && Candidates(v, r.nodePath, {}, false) != [] && Always503(sys, r.nodePath)
  {
    var sys, r, id := Step(EMPTY_SYSTEM, e), e.requests[0], e.ids[0];
    RegisterOne(EMPTY_SYSTEM, e);
    assert e.requests[..0] == [] && e.ids[..0] == [];
    assert CreateIn(EMPTY_SYSTEM.pools, e.requests, e.ids) == CreateIn(EMPTY_SYSTEM.pools, [], []);
    var ep := At(sys.eps, r.nodePath, id);
    NoPoolsAlways503(sys, r.nodePath);
    v := NodeView("n", map[r.nodePath := ep], map[r.nodePath := [ep]], map[], [], map[]);
    MatchesIff(r.nodePath, r.nodePath);
    OfferedAlone(v, ep, r.nodePath);
  }

  /** A service path written ":18011/v1": the router offers the endpoint, and every request for
      it is answered 503. */
  lemma OfferedYetUnavailable() returns (e: Event, v: NodeView)
    ensures e == Post([Request(":18011/v1", "/p", 1, false)], "s", ["e"], 1) && FreshIds(EMPTY_SYSTEM, e)
    ensures var sys := Step(EMPTY_SYSTEM, e);
            && Has(sys.eps, "/p", "e") && v.endpoints == map["/p" := [At(sys.eps, "/p", "e")]]
            && Candidates(v, "/p", {}, false) != [] && Always503(sys, "/p")
  {
    e := Post([Request(":18011/v1", "/p", 1, false)], "s", ["e"], 1);
    ColonPortHasNoPool(":18011/v1");
    v := PortlessRegistration(e);
  }

  /** A pool of one worker with a buffer of one, whose worker has not yet received: the second
      call finds the buffer full. */
  const SECOND_CALL := Visit(1, 1, [PoolProtocol.Arrive, PoolProtocol.Enqueue(0), PoolProtocol.Arrive,
                                    PoolProtocol.FindFull(1), PoolProtocol.Uncount(1)], 1)

  lemma SecondCallFindsFull()
    ensures Ends(SECOND_CALL, QueueFull)
  {
    var start, acts := PoolProtocol.Init(1, 1), SECOND_CALL.run;
    assert acts[1..] == [acts[1], acts[2], acts[3], acts[4]];
    assert acts[1..][1..] == [acts[2], acts[3], acts[4]];
    assert acts[1..][1..][1..] == [acts[3], acts[4]];
    assert acts[1..][1..][1..][1..] == [acts[4]];
    assert acts[1..][1..][1..][1..][1..] == [];
  }

  /** So a request can be answered 503 under any path that has a pool, at any load. */
  lemma FullQueueIsUnavailable(sys: System, load: Loads, nodePath: string, path: string, k: string, fate: Fate)
    requires LeastLoaded(sys, load, nodePath, k) && Pooled(sys.eps, nodePath, k)
    ensures var way := Through(k, SECOND_CALL, QueueFull);
            && !NoPort(sys.eps, nodePath) && Takes(sys, load, nodePath, way)
            && AnswerAt(sys.pools, nodePath, path, way, fate).Unavailable?
  {
    SecondCallFindsFull();
  }

  lemma OfferedAlone(v: NodeView, ep: LocalEndpoint, p: string)
    requires p != "" && Matches(p, p) && ep.nodePath == p && ep.healthy && ep.maxConcurrent > 0 && !ep.plugin
    requires v.representatives == map[p := ep] && v.endpoints == map[p := [ep]]
    ensures Candidates(v, p, {}, false) != []
  {
    var paths := HealthyLocalPaths(v.representatives);
    assert p in v.representatives && v.representatives[p] == ep;
    assert ep.nodePath in paths;
    assert forall q :: q in paths ==> q == p;
    LongestIsUnique(p, paths, p, Longest(p, paths));
    assert [ep][..0] == [];
    assert LocalTotals(v, p, [ep]).maxConcurrent > 0;
  }
}
