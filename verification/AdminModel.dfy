/** Registration, deletion, heartbeats and the liveness sweep as events on two tables: the
    registered endpoints and the request pools (internal/admin, internal/registry/local,
    internal/models/endpoint.go, PoolManager). Each admin operation is one event. */
module AdminModel {
  import opened Models
  import opened NestedMaps
  import opened GoStrings
  import opened PathRewrite
  import Balancer

  type Endpoints = Nested<LocalEndpoint>

  /** A pool: the backend port and base path it forwards to, and its limit. */
  datatype PoolInfo = PoolInfo(port: int, base: string, limit: int)

  type Pools = Nested<PoolInfo>

  /** The tables, and every endpoint id ever handed out. */
  datatype System = System(eps: Endpoints, pools: Pools, issued: set<string>)

  const EMPTY_SYSTEM := System(map[], map[], {})

  // ---------- Endpoints changed one by one ----------

  /** What an operation other than registration does to each endpoint. */
  datatype Change =
    | Beat(service: string, healthy: bool, now: int)
    | Age(now: int, timeout: int)
    | Forget(service: string, only: Option<string>)
    | Load(path: string, epID: string, active: int, queueLen: int)

  predicate Expired(ep: LocalEndpoint, now: int, timeout: int) {
    now - ep.lastHeartbeat > timeout && !ep.healthy && now - ep.lastHeartbeat > timeout * 2
  }

  /** The endpoint after a change, or None when it is removed. */
  function Changed(c: Change, ep: LocalEndpoint): Option<LocalEndpoint> {
    match c
    case Beat(service, healthy, now) =>
      Some(if ep.serviceID == service then ep.(healthy := healthy, lastHeartbeat := now) else ep)
    case Age(now, timeout) =>
      if Expired(ep, now, timeout) then None
      else if now - ep.lastHeartbeat > timeout then Some(ep.(healthy := false))
      else Some(ep)
    case Forget(service, only) =>
      if ep.serviceID == service && (only.None? || ep.nodePath == only.value) then None else Some(ep)
    case Load(path, epID, active, queueLen) =>
      Some(if ep.nodePath == path && ep.epID == epID then ep.(active := active, queueLen := queueLen) else ep)
  }

  function UpdateInner(inner: map<string, LocalEndpoint>, c: Change): map<string, LocalEndpoint> {
    map id | id in inner && Changed(c, inner[id]).Some? :: Changed(c, inner[id]).value
  }

  function Update(s: Endpoints, c: Change): Endpoints {
    map path | path in s && UpdateInner(s[path], c) != map[] :: UpdateInner(s[path], c)
  }

  lemma HasUpdate(s: Endpoints, c: Change)
    ensures forall p, k :: Has(Update(s, c), p, k) <==> Has(s, p, k) && Changed(c, At(s, p, k)).Some?
    ensures forall p, k :: Has(Update(s, c), p, k) ==> At(Update(s, c), p, k) == Changed(c, At(s, p, k)).value
    ensures NoEmptyInner(Update(s, c))
  {
    forall p, k ensures Has(Update(s, c), p, k) <==> Has(s, p, k) && Changed(c, At(s, p, k)).Some? {
      if Has(s, p, k) && Changed(c, At(s, p, k)).Some? {
        assert k in UpdateInner(s[p], c);
      }
    }
  }

  /** The same at one place. */
  lemma UpdateAt(s: Endpoints, c: Change, p: string, k: string)
    ensures Has(Update(s, c), p, k) <==> Has(s, p, k) && Changed(c, At(s, p, k)).Some?
    ensures Has(Update(s, c), p, k) ==> At(Update(s, c), p, k) == Changed(c, At(s, p, k)).value
  {
    HasUpdate(s, c);
  }

  function Without<V>(s: Nested<V>, keys: set<(string, string)>): Nested<V> {
    map path | path in s && (exists id :: id in s[path] && (path, id) !in keys) ::
      (map id | id in s[path] && (path, id) !in keys :: s[path][id])
  }

  lemma HasWithout<V>(s: Nested<V>, keys: set<(string, string)>)
    ensures forall p, k :: Has(Without(s, keys), p, k) <==> Has(s, p, k) && (p, k) !in keys
    ensures forall p, k :: Has(Without(s, keys), p, k) ==> At(Without(s, keys), p, k) == At(s, p, k)
    ensures NoEmptyInner(Without(s, keys))
  {
    var w := Without(s, keys);
    forall p | p in w ensures w[p] != map[] {
      var id :| id in s[p] && (p, id) !in keys;
      assert id in w[p];
    }
  }

  // ---------- Registration ----------

  datatype Request = Request(servicePath: string, nodePath: string, maxConcurrent: int, plugin: bool)

  predicate ValidRequest(r: Request) {
    r.servicePath != "" && r.nodePath != "" && HasSuffix(r.servicePath, "/") == HasSuffix(r.nodePath, "/")
  }

  /** The limit actually registered: int32, and at least one. */
  function Limit(asked: int): int {
    if Balancer.Wrap32(asked) < 1 then 1 else Balancer.Wrap32(asked)
  }

  function Built(r: Request, service: string, id: string, now: int): LocalEndpoint {
    LocalEndpoint(service, id, r.servicePath, r.nodePath, true, now, 0, 0, Limit(r.maxConcurrent), r.plugin)
  }

  /** The text before the first slash of a service path. */
  function ServicePort(servicePath: string): string {
    Before(servicePath, '/')
  }

  function Digits(s: string): Option<nat> {
    if s == "" then Some(0)
    else
      var c := s[|s| - 1];
      if !('0' <= c <= '9') then None
      else
        match Digits(s[..|s| - 1])
        case None => None
        case Some(n) => Some(10 * n + (c as int - '0' as int))
  }

  /** strconv.Atoi: an optional sign, at least one digit, a value of 64 bits. */
  function Atoi(s: string): Option<int> {
    var signed := s != "" && (s[0] == '+' || s[0] == '-');
    var digits := if signed then s[1..] else s;
    match Digits(digits)
    case None => None
    case Some(n) =>
      if digits == "" then None
      else
        var v: int := if signed && s[0] == '-' then 0 - (n as int) else n as int;
        if -0x8000_0000_0000_0000 <= v < 0x8000_0000_0000_0000 then Some(v) else None
  }

  /** A registration request is refused when a path is missing or only one of the two ends in
      a slash. */
  lemma ValidRequestIff(r: Request)
    ensures ValidRequest(r) <==>
              && r.servicePath != "" && r.nodePath != ""
              && (r.servicePath[|r.servicePath| - 1] == '/' <==> r.nodePath[|r.nodePath| - 1] == '/')
  {
  }

  /** Nothing of a service path is lost: port text and base path make it up again. */
  lemma {:induction false} ServicePathSplits(s: string)
    ensures ServicePort(s) + AfterPort(s) == s
    ensures '/' !in ServicePort(s)
    ensures '/' in s ==> ServicePort(s) + ServiceBase(s) == s
  {
    if s != "" && s[0] != '/' {
      ServicePathSplits(s[1..]);
      assert s == [s[0]] + s[1..];
      assert ServicePort(s) + AfterPort(s) == [s[0]] + (ServicePort(s[1..]) + AfterPort(s[1..]));
    }
  }

  /** A bare port has the base path "/". */
  lemma BarePort(s: string)
    requires '/' !in s
    ensures ServicePort(s) == s && ServiceBase(s) == "/"
  {
    BeforeAbsent(s, '/');
  }

  /** A number as %d prints it. */
  function Decimal(n: nat): string {
    if n < 10 then [(n + '0' as int) as char] else Decimal(n / 10) + [(n % 10 + '0' as int) as char]
  }

  /** Reading back a printed port gives the port. */
  lemma {:induction false} AtoiDecimal(n: nat)
    requires n < 0x8000_0000_0000_0000
    ensures Atoi(Decimal(n)) == Some(n)
  {
    DigitsDecimal(n);
  }

  /** With a sign too, and what does not fit 64 bits does not parse. */
  lemma AtoiSigned(n: nat)
    ensures Atoi("+" + Decimal(n)) == if n < 0x8000_0000_0000_0000 then Some(n) else None
    ensures Atoi("-" + Decimal(n)) == if n <= 0x8000_0000_0000_0000 then Some(0 - (n as int)) else None
    ensures Atoi(Decimal(n)).Some? <==> n < 0x8000_0000_0000_0000
  {
    DigitsDecimal(n);
    assert ("+" + Decimal(n))[1..] == Decimal(n) && ("-" + Decimal(n))[1..] == Decimal(n);
  }

  lemma {:induction false} DigitsDecimal(n: nat)
    ensures Digits(Decimal(n)) == Some(n)
    ensures Decimal(n) != "" && '0' <= Decimal(n)[0] <= '9'
  {
    if n >= 10 {
      DigitsDecimal(n / 10);
      assert Decimal(n)[..|Decimal(n)| - 1] == Decimal(n / 10);
    } else {
      assert Decimal(n)[..0] == "";
    }
  }

  predicate HasPort(servicePath: string) {
    Atoi(ServicePort(servicePath)).Some?
  }

  function PoolFor(r: Request): PoolInfo
    requires HasPort(r.servicePath)
  {
    PoolInfo(Atoi(ServicePort(r.servicePath)).value, ServiceBase(r.servicePath), Limit(r.maxConcurrent))
  }

  /** The plugin check of RegisterEndpoints against what is already registered. */
  ghost predicate PluginConflict(s: Endpoints, rs: seq<Request>) {
    exists i, p, k :: 0 <= i < |rs| && rs[i].plugin && Has(s, p, k) && At(s, p, k).plugin && At(s, p, k).nodePath == rs[i].nodePath
  }

  function RegisterIn(s: Endpoints, rs: seq<Request>, service: string, ids: seq<string>, now: int): Endpoints
    requires |ids| == |rs|
  {
    if rs == [] then s
    else
      var n := |rs| - 1;
      Put(RegisterIn(s, rs[..n], service, ids[..n], now), rs[n].nodePath, ids[n], Built(rs[n], service, ids[n], now))
  }

  function CreateIn(pools: Pools, rs: seq<Request>, ids: seq<string>): Pools
    requires |ids| == |rs|
  {
    if rs == [] then pools
    else
      var n := |rs| - 1;
      var before := CreateIn(pools, rs[..n], ids[..n]);
      if HasPort(rs[n].servicePath) then Put(before, rs[n].nodePath, ids[n], PoolFor(rs[n])) else before
  }

  // ---------- Events ----------

  datatype Event =
    | Post(requests: seq<Request>, service: string, ids: seq<string>, now: int)
    | Delete(service: string, path: string)       // the two query values, "" when absent
    | Heartbeat(service: string, healthy: bool, now: int)
    | Metrics(path: string, epID: string, active: int, queueLen: int)
    | Sweep(now: int, timeout: int)

  predicate Distinct(ids: seq<string>) {
    forall i, j :: 0 <= i < j < |ids| ==> ids[i] != ids[j]
  }

  /** Generated ids are new: never handed out before, in this batch or earlier. */
  predicate FreshIds(sys: System, e: Event) {
    e.Post? ==> |e.ids| == |e.requests| && Distinct(e.ids) && forall i :: 0 <= i < |e.ids| ==> e.ids[i] !in sys.issued
  }

  ghost predicate Accepted(sys: System, e: Event)
    requires e.Post?
  {
    && e.requests != []
    && (forall i :: 0 <= i < |e.requests| ==> ValidRequest(e.requests[i]))
    && !PluginConflict(sys.eps, e.requests)
  }

  /** url.QueryUnescape. */
  function QueryUnescape(s: string): Option<string> {
    Unescape(PlusToSpace(s))
  }

  function PlusToSpace(s: string): string {
    if s == "" then "" else [if s[0] == '+' then ' ' else s[0]] + PlusToSpace(s[1..])
  }

  /** The keys of the endpoints that an operation removes, as the handlers collect them. */
  ghost function KeysOf(s: Endpoints, c: Change): set<(string, string)> {
    set p, k | p in s && k in s[p] && Changed(c, s[p][k]).None? :: (s[p][k].nodePath, s[p][k].epID)
  }

  /** handleDeleteEndpoints. The pools are chosen by the path as received, the endpoints by
      the path after a second decoding. */
  ghost function DeleteIn(sys: System, service: string, path: string): System {
    if service == "" || QueryUnescape(service).None? then sys
    else
      var sid := QueryUnescape(service).value;
      if path == "" then
        sys.(eps := Update(sys.eps, Forget(sid, None)), pools := Without(sys.pools, KeysOf(sys.eps, Forget(sid, None))))
      else if QueryUnescape(path).None? then sys
      else
        sys.(eps := Update(sys.eps, Forget(sid, QueryUnescape(path))),
             pools := Without(sys.pools, KeysOf(sys.eps, Forget(sid, Some(path)))))
  }

  ghost function Step(sys: System, e: Event): System
    requires FreshIds(sys, e)
  {
    match e
    case Post(rs, service, ids, now) =>
      if Accepted(sys, e) then
        System(RegisterIn(sys.eps, rs, service, ids, now), CreateIn(sys.pools, rs, ids), sys.issued + (set id | id in ids))
      else sys.(issued := sys.issued + (set id | id in ids))
    case Delete(service, path) => DeleteIn(sys, service, path)
    case Heartbeat(service, healthy, now) =>
      if service == "" then sys else sys.(eps := Update(sys.eps, Beat(service, healthy, now)))
    case Metrics(path, epID, active, queueLen) => sys.(eps := Update(sys.eps, Load(path, epID, active, queueLen)))
    case Sweep(now, timeout) =>
      sys.(eps := Update(sys.eps, Age(now, timeout)), pools := Without(sys.pools, KeysOf(sys.eps, Age(now, timeout))))
  }

  /** Runs from any state, with fresh ids at every registration. */
  ghost predicate Runs(sys: System, h: seq<Event>)
    decreases |h|
  {
    h == [] || (FreshIds(sys, h[0]) && Runs(Step(sys, h[0]), h[1..]))
  }

  ghost function After(sys: System, h: seq<Event>): System
    requires Runs(sys, h)
    decreases |h|
  {
    if h == [] then sys else After(Step(sys, h[0]), h[1..])
  }

  // ---------- The shape of the registry ----------

  /** No empty inner map; every endpoint is stored under its own path and id, has a limit of
      at least one, and its id was handed out. */
  ghost predicate WellFormed(sys: System) {
    && NoEmptyInner(sys.eps) && NoEmptyInner(sys.pools)
    && forall p, k :: Has(sys.eps, p, k) ==>
         At(sys.eps, p, k).nodePath == p && At(sys.eps, p, k).epID == k && At(sys.eps, p, k).maxConcurrent >= 1
         && k in sys.issued
  }

  /** The pools are exactly those of the registered endpoints whose service port parses. */
  ghost predicate Agree(eps: Endpoints, pools: Pools) {
    forall p, k :: Has(pools, p, k) <==> Has(eps, p, k) && HasPort(At(eps, p, k).servicePath)
  }

  lemma {:induction false} RegisterHas(s: Endpoints, rs: seq<Request>, service: string, ids: seq<string>, now: int)
    requires |ids| == |rs| && Distinct(ids)
    ensures var t := RegisterIn(s, rs, service, ids, now);
            && (forall p, k :: Has(s, p, k) ==> Has(t, p, k))
            && (forall p, k :: Has(t, p, k) && k !in ids ==> Has(s, p, k) && At(t, p, k) == At(s, p, k))
            && (forall i :: 0 <= i < |rs| ==> Has(t, rs[i].nodePath, ids[i])
                                              && At(t, rs[i].nodePath, ids[i]) == Built(rs[i], service, ids[i], now))
            && (NoEmptyInner(s) ==> NoEmptyInner(t))
  {
    if rs != [] {
      var n := |rs| - 1;
      RegisterHas(s, rs[..n], service, ids[..n], now);
      HasPut(RegisterIn(s, rs[..n], service, ids[..n], now), rs[n].nodePath, ids[n], Built(rs[n], service, ids[n], now));
      assert ids == ids[..n] + [ids[n]];
    }
  }

  /** A new id appears only under the path it was registered for. */
  lemma {:induction false} RegisterWhere(s: Endpoints, rs: seq<Request>, service: string, ids: seq<string>, now: int, p: string, k: string)
    requires |ids| == |rs| && Has(RegisterIn(s, rs, service, ids, now), p, k) && !Has(s, p, k)
    ensures exists i :: 0 <= i < |rs| && rs[i].nodePath == p && ids[i] == k
  {
    if rs != [] {
      var n := |rs| - 1;
      HasPut(RegisterIn(s, rs[..n], service, ids[..n], now), rs[n].nodePath, ids[n], Built(rs[n], service, ids[n], now));
      if !(p == rs[n].nodePath && k == ids[n]) {
        RegisterWhere(s, rs[..n], service, ids[..n], now, p, k);
        var i :| 0 <= i < n && rs[..n][i].nodePath == p && ids[..n][i] == k;
        assert rs[i].nodePath == p && ids[i] == k;
      }
    }
  }

  lemma {:induction false} RegisterAgrees(s: Endpoints, pools: Pools, rs: seq<Request>, service: string, ids: seq<string>, now: int)
    requires |ids| == |rs| && Distinct(ids) && Agree(s, pools)
    requires forall p, k :: Has(s, p, k) ==> k !in ids
    ensures Agree(RegisterIn(s, rs, service, ids, now), CreateIn(pools, rs, ids))
  {
    if rs != [] {
      var n := |rs| - 1;
      var t, q := RegisterIn(s, rs[..n], service, ids[..n], now), CreateIn(pools, rs[..n], ids[..n]);
      RegisterAgrees(s, pools, rs[..n], service, ids[..n], now);
      assert ids[n] in ids && ids[n] !in ids[..n];
      OthersStayOut(s, rs[..n], service, ids[..n], now, ids[n]);
      AgreesAfterPut(t, q, Built(rs[n], service, ids[n], now), if HasPort(rs[n].servicePath) then Some(PoolFor(rs[n])) else None);
    }
  }

  lemma {:induction false} OthersStayOut(s: Endpoints, rs: seq<Request>, service: string, ids: seq<string>, now: int, id: string)
    requires |ids| == |rs| && id !in ids && forall p :: !Has(s, p, id)
    ensures forall p :: !Has(RegisterIn(s, rs, service, ids, now), p, id)
  {
    if rs != [] {
      var n := |rs| - 1;
      OthersStayOut(s, rs[..n], service, ids[..n], now, id);
      HasPut(RegisterIn(s, rs[..n], service, ids[..n], now), rs[n].nodePath, ids[n], Built(rs[n], service, ids[n], now));
      assert ids[n] in ids;
    }
  }

  lemma AgreesAfterPut(t: Endpoints, q: Pools, ep: LocalEndpoint, pool: Option<PoolInfo>)
    requires Agree(t, q) && !Has(t, ep.nodePath, ep.epID)
    requires pool.Some? <==> HasPort(ep.servicePath)
    ensures Agree(Put(t, ep.nodePath, ep.epID, ep), if pool.Some? then Put(q, ep.nodePath, ep.epID, pool.value) else q)
  {
    HasPut(t, ep.nodePath, ep.epID, ep);
    if pool.Some? {
      HasPut(q, ep.nodePath, ep.epID, pool.value);
    }
  }
}
