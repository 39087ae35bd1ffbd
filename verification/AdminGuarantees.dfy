/** What every run of admin operations keeps. */
module AdminGuarantees {
  import opened Models
  import opened NestedMaps
  import opened PathRewrite
  import opened AdminModel

  // ---------- Well-formedness ----------

  lemma ChangeKeepsIdentity(c: Change, ep: LocalEndpoint)
    requires Changed(c, ep).Some?
    ensures var t := Changed(c, ep).value;
            && t.nodePath == ep.nodePath && t.epID == ep.epID && t.serviceID == ep.serviceID
            && t.servicePath == ep.servicePath && t.maxConcurrent == ep.maxConcurrent && t.plugin == ep.plugin
  {
  }

  lemma UpdateKeepsWellFormed(sys: System, c: Change)
    requires WellFormed(sys)
    ensures WellFormed(sys.(eps := Update(sys.eps, c)))
  {
    HasUpdate(sys.eps, c);
    forall p, k | Has(Update(sys.eps, c), p, k)
      ensures At(Update(sys.eps, c), p, k).nodePath == p && At(Update(sys.eps, c), p, k).epID == k
              && At(Update(sys.eps, c), p, k).maxConcurrent >= 1 && k in sys.issued
    {
      ChangeKeepsIdentity(c, At(sys.eps, p, k));
    }
  }

  lemma {:induction false} CreateNoEmpty(pools: Pools, rs: seq<Request>, ids: seq<string>)
    requires |ids| == |rs| && NoEmptyInner(pools)
    ensures NoEmptyInner(CreateIn(pools, rs, ids))
  {
    if rs != [] {
      var n := |rs| - 1;
      CreateNoEmpty(pools, rs[..n], ids[..n]);
      if HasPort(rs[n].servicePath) {
        HasPut(CreateIn(pools, rs[..n], ids[..n]), rs[n].nodePath, ids[n], PoolFor(rs[n]));
      }
    }
  }

  lemma PostKeepsWellFormed(sys: System, e: Event)
    requires WellFormed(sys) && e.Post? && FreshIds(sys, e)
    ensures WellFormed(Step(sys, e))
  {
    if Accepted(sys, e) {
      var t := RegisterIn(sys.eps, e.requests, e.service, e.ids, e.now);
      RegisterHas(sys.eps, e.requests, e.service, e.ids, e.now);
      CreateNoEmpty(sys.pools, e.requests, e.ids);
      forall p, k | Has(t, p, k)
        ensures At(t, p, k).nodePath == p && At(t, p, k).epID == k && At(t, p, k).maxConcurrent >= 1
                && k in sys.issued + (set id | id in e.ids)
      {
        if !Has(sys.eps, p, k) {
          RegisterWhere(sys.eps, e.requests, e.service, e.ids, e.now, p, k);
        } else {
          assert k in sys.issued && k !in e.ids;
        }
      }
    }
  }

  /** Every operation keeps the registry well formed, whatever was deleted how. */
  lemma StepKeepsWellFormed(sys: System, e: Event)
    requires WellFormed(sys) && FreshIds(sys, e)
    ensures WellFormed(Step(sys, e))
  {
    match e {
      case Post(_, _, _, _) => PostKeepsWellFormed(sys, e);
      case Delete(service, path) => DeleteKeepsWellFormed(sys, service, path);
      case Heartbeat(service, healthy, now) => UpdateKeepsWellFormed(sys, Beat(service, healthy, now));
      case Metrics(path, epID, active, queueLen) => UpdateKeepsWellFormed(sys, Load(path, epID, active, queueLen));
      case Sweep(now, timeout) =>
        UpdateKeepsWellFormed(sys, Age(now, timeout));
        HasWithout(sys.pools, KeysOf(sys.eps, Age(now, timeout)));
    }
  }

  lemma DeleteKeepsWellFormed(sys: System, service: string, path: string)
    requires WellFormed(sys)
    ensures WellFormed(DeleteIn(sys, service, path))
  {
    if service != "" && QueryUnescape(service).Some? {
      var sid := QueryUnescape(service).value;
      if path == "" {
        UpdateKeepsWellFormed(sys, Forget(sid, None));
        HasWithout(sys.pools, KeysOf(sys.eps, Forget(sid, None)));
      } else if QueryUnescape(path).Some? {
        UpdateKeepsWellFormed(sys, Forget(sid, QueryUnescape(path)));
        HasWithout(sys.pools, KeysOf(sys.eps, Forget(sid, Some(path))));
      }
    }
  }

  /** In every reachable registry no inner map is empty, each endpoint is stored under its
      own path and id, and its limit is at least one. */
  lemma {:induction false} AlwaysWellFormed(sys: System, h: seq<Event>)
    requires Runs(sys, h) && WellFormed(sys)
    ensures WellFormed(After(sys, h))
    decreases |h|
  {
    if h != [] {
      StepKeepsWellFormed(sys, h[0]);
      AlwaysWellFormed(Step(sys, h[0]), h[1..]);
    }
  }

  lemma PostAgrees(sys: System, e: Event)
    requires WellFormed(sys) && Agree(sys.eps, sys.pools) && e.Post? && FreshIds(sys, e)
    ensures Agree(Step(sys, e).eps, Step(sys, e).pools)
  {
    if Accepted(sys, e) {
      assert forall p, k :: Has(sys.eps, p, k) ==> k !in e.ids;
      RegisterAgrees(sys.eps, sys.pools, e.requests, e.service, e.ids, e.now);
    }
  }

  /** The endpoints an operation removes, by place. */
  ghost predicate Removed(s: Endpoints, c: Change, p: string, k: string) {
    Has(s, p, k) && Changed(c, At(s, p, k)).None?
  }

  lemma KeysOfMeans(sys: System, c: Change)
    requires WellFormed(sys)
    ensures forall p, k :: (p, k) in KeysOf(sys.eps, c) <==> Removed(sys.eps, c, p, k)
  {
    forall p, k ensures (p, k) in KeysOf(sys.eps, c) <==> Removed(sys.eps, c, p, k) {
      if Removed(sys.eps, c, p, k) {
        assert p in sys.eps && k in sys.eps[p];
      }
      if (p, k) in KeysOf(sys.eps, c) {
        var q, j :| q in sys.eps && j in sys.eps[q] && Changed(c, sys.eps[q][j]).None?
                    && (sys.eps[q][j].nodePath, sys.eps[q][j].epID) == (p, k);
        assert Has(sys.eps, q, j);
      }
    }
  }

  /** A pooled endpoint: one that has a pool as long as the tables agree. */
  ghost predicate Pooled(s: Endpoints, p: string, k: string) {
    Has(s, p, k) && HasPort(At(s, p, k).servicePath)
  }

  /** Removing endpoints by one rule and pools by another keeps the tables in agreement
      exactly when the two rules pick the same pooled endpoints. */
  lemma RemovalAgreesIff(sys: System, c: Change, d: Change)
    requires WellFormed(sys) && Agree(sys.eps, sys.pools)
    ensures Agree(Update(sys.eps, c), Without(sys.pools, KeysOf(sys.eps, d))) <==>
              forall p, k :: Pooled(sys.eps, p, k) ==> (Removed(sys.eps, c, p, k) <==> Removed(sys.eps, d, p, k))
    ensures NoEmptyInner(Without(sys.pools, KeysOf(sys.eps, d)))
  {
    var eps, pools := Update(sys.eps, c), Without(sys.pools, KeysOf(sys.eps, d));
    HasUpdate(sys.eps, c);
    HasWithout(sys.pools, KeysOf(sys.eps, d));
    KeysOfMeans(sys, d);
    forall p, k
      ensures (Has(pools, p, k) <==> Has(eps, p, k) && HasPort(At(eps, p, k).servicePath)) <==>
              (Pooled(sys.eps, p, k) ==> (Removed(sys.eps, c, p, k) <==> Removed(sys.eps, d, p, k)))
    {
      if Has(eps, p, k) {
        ChangeKeepsIdentity(c, At(sys.eps, p, k));
      }
    }
  }

  // ---------- Deletion ----------

  lemma {:induction false} PlusToSpaceFacts(s: string)
    ensures |PlusToSpace(s)| == |s|
    ensures '%' in s <==> '%' in PlusToSpace(s)
    ensures '+' !in s ==> PlusToSpace(s) == s
    ensures '+' in s ==> PlusToSpace(s) != s
    ensures '+' !in PlusToSpace(s)
  {
    if s != "" {
      PlusToSpaceFacts(s[1..]);
      assert s == [s[0]] + s[1..];
      assert PlusToSpace(s)[1..] == PlusToSpace(s[1..]);
    }
  }

  /** A text as url.QueryEscape may write it: '+' for a space, percent escapes for the rest. */
  function QueryEscaped(s: string): string
    requires Bytes(s)
  {
    if s == "" then "" else (if s[0] == ' ' then "+" else Escaped([s[0]])) + QueryEscaped(s[1..])
  }

  /** Decoding a query value undoes its encoding. */
  lemma {:induction false} DecodesQuery(s: string)
    requires Bytes(s)
    ensures QueryUnescape(QueryEscaped(s)) == Some(s)
  {
    if s != "" {
      DecodesQuery(s[1..]);
      var rest := QueryEscaped(s[1..]);
      assert s == [s[0]] + s[1..];
      if s[0] == ' ' {
        assert ("+" + rest)[1..] == rest;
        assert PlusToSpace("+" + rest) == " " + PlusToSpace(rest);
        assert (" " + PlusToSpace(rest))[1..] == PlusToSpace(rest);
      } else {
        EscapedByte(s[0], rest);
      }
    }
  }

  lemma EscapedByte(c: char, rest: string)
    requires c as int < 256
    ensures QueryUnescape(Escaped([c]) + rest) ==
              match QueryUnescape(rest) case None => None case Some(t) => Some([c] + t)
  {
    var x, y := HexDigit(c as int / 16), HexDigit(c as int % 16);
    var s := Escaped([c]) + rest;
    assert [c][0] == c && [c][1..] == "" && Escaped("") == "";
    assert Escaped([c]) == ['%', x, y] + Escaped([c][1..]);
    assert s == ['%', x, y] + rest;
    assert s[1..] == [x, y] + rest && ([x, y] + rest)[1..] == [y] + rest && ([y] + rest)[1..] == rest;
    assert PlusToSpace([y] + rest) == [y] + PlusToSpace(rest);
    assert PlusToSpace([x, y] + rest) == [x] + PlusToSpace([y] + rest);
    assert PlusToSpace(s) == ['%'] + PlusToSpace([x, y] + rest);
    assert PlusToSpace(s) == ['%', x, y] + PlusToSpace(rest);
    assert (['%', x, y] + PlusToSpace(rest))[3..] == PlusToSpace(rest);
  }

  /** A second decoding leaves a path alone exactly when it has no escape characters. */
  lemma SecondDecodingHarmlessIff(path: string)
    ensures QueryUnescape(path) == Some(path) <==> '%' !in path && '+' !in path
  {
    PlusToSpaceFacts(path);
    UnescapeShrinks(PlusToSpace(path));
    if '%' !in path {
      UnescapePlain(PlusToSpace(path));
    }
  }

  /** Whether a delete request gets as far as changing the tables for one given path. */
  predicate ReachesPath(service: string, path: string) {
    service != "" && QueryUnescape(service).Some? && path != "" && QueryUnescape(path).Some?
  }

  /** Deleting keeps endpoints and pools in agreement exactly when the path survives its
      second decoding, or the service has no pooled endpoint under either reading. */
  lemma DeleteAgreesIff(sys: System, service: string, path: string)
    requires WellFormed(sys) && Agree(sys.eps, sys.pools)
    ensures Agree(DeleteIn(sys, service, path).eps, DeleteIn(sys, service, path).pools) <==>
              (ReachesPath(service, path) && QueryUnescape(path).value != path ==>
                 forall p, k :: Pooled(sys.eps, p, k) && At(sys.eps, p, k).serviceID == QueryUnescape(service).value ==>
                   p != path && p != QueryUnescape(path).value)
  {
    if service != "" && QueryUnescape(service).Some? {
      var sid := QueryUnescape(service).value;
      if path == "" {
        RemovalAgreesIff(sys, Forget(sid, None), Forget(sid, None));
      } else if QueryUnescape(path).Some? {
        RemovalAgreesIff(sys, Forget(sid, QueryUnescape(path)), Forget(sid, Some(path)));
        ForgetTwoPaths(sys, sid, QueryUnescape(path).value, path);
      }
    }
  }

  lemma ForgetTwoPaths(sys: System, sid: string, a: string, b: string)
    requires WellFormed(sys)
    ensures (forall p, k :: Pooled(sys.eps, p, k) ==>
               (Removed(sys.eps, Forget(sid, Some(a)), p, k) <==> Removed(sys.eps, Forget(sid, Some(b)), p, k)))
       <==> (a != b ==> forall p, k :: Pooled(sys.eps, p, k) && At(sys.eps, p, k).serviceID == sid ==> p != a && p != b)
  {
    forall p, k | Pooled(sys.eps, p, k)
      ensures Removed(sys.eps, Forget(sid, Some(a)), p, k) <==> At(sys.eps, p, k).serviceID == sid && p == a
      ensures Removed(sys.eps, Forget(sid, Some(b)), p, k) <==> At(sys.eps, p, k).serviceID == sid && p == b
    {
    }
  }

  /** The registered path "/a+b": its deletion removes the pool and leaves the endpoint. */
  lemma PlusInPathBreaksAgreement(sys: System, service: string, k: string)
    requires WellFormed(sys) && Agree(sys.eps, sys.pools)
    requires service != "" && QueryUnescape(service) == Some(service)
    requires Pooled(sys.eps, "/a+b", k) && At(sys.eps, "/a+b", k).serviceID == service
    ensures !Agree(DeleteIn(sys, service, "/a+b").eps, DeleteIn(sys, service, "/a+b").pools)
  {
    PlusToSpaceFacts("/a+b");
    UnescapePlain(PlusToSpace("/a+b"));
    DeleteAgreesIff(sys, service, "/a+b");
  }

  /** Such as one registration of "/a+b" in an empty registry. */
  lemma PlusInPathInput() returns (e: Event)
    ensures e == Post([Request("80/x", "/a+b", 1, false)], "s", ["e"], 1) && FreshIds(EMPTY_SYSTEM, e)
    ensures var sys := Step(EMPTY_SYSTEM, e);
            Agree(sys.eps, sys.pools) && !Agree(DeleteIn(sys, "s", "/a+b").eps, DeleteIn(sys, "s", "/a+b").pools)
  {
    var r := Request("80/x", "/a+b", 1, false);
    e := Post([r], "s", ["e"], 1);
    RegisterOne(EMPTY_SYSTEM, e);
    var sys := Step(EMPTY_SYSTEM, e);
    PortEighty("x");
    assert "80/" + "x" == "80/x";
    SecondDecodingHarmlessIff("s");
    PlusInPathBreaksAgreement(sys, "s", "e");
  }

  lemma {:induction false} ServicePortIs(port: string, rest: string)
    requires '/' !in port
    ensures ServicePort(port + "/" + rest) == port
  {
    var s := port + "/" + rest;
    if port == "" {
      assert s[0] == '/';
    } else {
      assert s[0] == port[0] && s[1..] == port[1..] + "/" + rest;
      ServicePortIs(port[1..], rest);
    }
  }

  lemma PortEighty(rest: string)
    ensures HasPort("80/" + rest) && HasPort("81/" + rest)
  {
    assert "80/" + rest == "80" + "/" + rest && "81/" + rest == "81" + "/" + rest;
    ServicePortIs("80", rest);
    ServicePortIs("81", rest);
    assert "80"[..1] == "8" && "81"[..1] == "8" && "8"[..0] == "";
    assert Digits("8") == Some(8);
    assert Digits("80") == Some(80) && Digits("81") == Some(81);
  }

  /** Two services register the path "/p". */
  const TWO_SERVICES := [
    Post([Request("80/a", "/p", 1, false)], "s", ["x"], 1),
    Post([Request("81/a", "/p", 1, false)], "t", ["y"], 1)]

  lemma {:induction false} RunsSnoc(sys: System, h: seq<Event>, e: Event)
    requires Runs(sys, h) && FreshIds(After(sys, h), e)
    ensures Runs(sys, h + [e]) && After(sys, h + [e]) == Step(After(sys, h), e)
    decreases |h|
  {
    if h == [] {
      assert (h + [e])[1..] == [];
    } else {
      assert (h + [e])[1..] == h[1..] + [e];
      RunsSnoc(Step(sys, h[0]), h[1..], e);
    }
  }

  /** One registration of one endpoint. */
  lemma RegisterOne(sys: System, e: Event)
    requires WellFormed(sys) && e.Post? && FreshIds(sys, e) && |e.requests| == 1
    requires ValidRequest(e.requests[0]) && !e.requests[0].plugin
    ensures WellFormed(Step(sys, e))
    ensures var t, r, id := Step(sys, e), e.requests[0], e.ids[0];
            && t.issued == sys.issued + {id}
            && Has(t.eps, r.nodePath, id) && At(t.eps, r.nodePath, id) == Built(r, e.service, id, e.now)
            && (forall p, k :: k != id ==> (Has(t.eps, p, k) <==> Has(sys.eps, p, k)))
            && (forall p, k :: k != id && Has(sys.eps, p, k) ==> At(t.eps, p, k) == At(sys.eps, p, k))
            && (forall p :: Has(t.eps, p, id) ==> p == r.nodePath)
            && (Agree(sys.eps, sys.pools) ==> Agree(t.eps, t.pools))
  {
    var t, id := Step(sys, e), e.ids[0];
    assert Accepted(sys, e);
    PostKeepsWellFormed(sys, e);
    RegisterHas(sys.eps, e.requests, e.service, e.ids, e.now);
    assert e.ids == [id];
    forall p, k | Has(sys.eps, p, k) ensures k != id {
      assert k in sys.issued;
    }
    forall p | Has(t.eps, p, id) ensures p == e.requests[0].nodePath {
      RegisterWhere(sys.eps, e.requests, e.service, e.ids, e.now, p, id);
    }
    if Agree(sys.eps, sys.pools) {
      PostAgrees(sys, e);
    }
  }

  /** A registration of one regular endpoint. */
  predicate Single(e: Event) {
    e.Post? && |e.requests| == |e.ids| == 1 && ValidRequest(e.requests[0]) && !e.requests[0].plugin
  }

  lemma TwoRegistrations(a: Event, b: Event)
    requires Single(a) && Single(b) && a.requests[0].nodePath == b.requests[0].nodePath && a.ids[0] != b.ids[0]
    ensures Runs(EMPTY_SYSTEM, [a, b])
    ensures var sys, p := After(EMPTY_SYSTEM, [a, b]), a.requests[0].nodePath;
            && WellFormed(sys) && Agree(sys.eps, sys.pools) && sys.issued == {a.ids[0], b.ids[0]}
            && (forall q, k :: Has(sys.eps, q, k) <==> q == p && (k == a.ids[0] || k == b.ids[0]))
            && At(sys.eps, p, a.ids[0]) == Built(a.requests[0], a.service, a.ids[0], a.now)
            && At(sys.eps, p, b.ids[0]) == Built(b.requests[0], b.service, b.ids[0], b.now)
            && (HasPort(a.requests[0].servicePath) ==> Has(sys.pools, p, a.ids[0]))
            && (HasPort(b.requests[0].servicePath) ==> Has(sys.pools, p, b.ids[0]))
  {
    RegisterOne(EMPTY_SYSTEM, a);
    RunsSnoc(EMPTY_SYSTEM, [], a);
    assert [] + [a] == [a] && [a] + [b] == [a, b];
    RunsSnoc(EMPTY_SYSTEM, [a], b);
    RegisterOne(Step(EMPTY_SYSTEM, a), b);
  }

  lemma TwoServices()
    ensures Runs(EMPTY_SYSTEM, TWO_SERVICES)
    ensures var sys := After(EMPTY_SYSTEM, TWO_SERVICES);
            && WellFormed(sys) && Agree(sys.eps, sys.pools) && sys.issued == {"x", "y"}
            && (forall p, k :: Has(sys.eps, p, k) <==> p == "/p" && (k == "x" || k == "y"))
            && At(sys.eps, "/p", "x") == Built(Request("80/a", "/p", 1, false), "s", "x", 1)
            && At(sys.eps, "/p", "y") == Built(Request("81/a", "/p", 1, false), "t", "y", 1)
            && Has(sys.pools, "/p", "x") && Has(sys.pools, "/p", "y")
  {
    var first, second := TWO_SERVICES[0], TWO_SERVICES[1];
    TwoSingles();
    TwoRegistrations(first, second);
    assert [first, second] == TWO_SERVICES;
  }

  lemma TwoSingles()
    ensures Single(TWO_SERVICES[0]) && Single(TWO_SERVICES[1])
    ensures HasPort("80/a") && HasPort("81/a")
  {
    PortEighty("a");
    assert "80/" + "a" == "80/a" && "81/" + "a" == "81/a";
  }

  // ---------- Every run ----------

  /** Deletes whose path is free of escape characters. */
  predicate PlainDelete(e: Event) {
    e.Delete? ==> '%' !in e.path && '+' !in e.path
  }

  lemma StepKeepsAgreement(sys: System, e: Event)
    requires WellFormed(sys) && Agree(sys.eps, sys.pools) && FreshIds(sys, e) && PlainDelete(e)
    ensures Agree(Step(sys, e).eps, Step(sys, e).pools)
  {
    match e {
      case Post(_, _, _, _) => PostAgrees(sys, e);
      case Delete(service, path) =>
        SecondDecodingHarmlessIff(path);
        DeleteAgreesIff(sys, service, path);
      case Heartbeat(service, healthy, now) => UpdateAgrees(sys, Beat(service, healthy, now));
      case Metrics(path, epID, active, queueLen) => UpdateAgrees(sys, Load(path, epID, active, queueLen));
      case Sweep(now, timeout) => RemovalAgreesIff(sys, Age(now, timeout), Age(now, timeout));
    }
  }

  lemma UpdateAgrees(sys: System, c: Change)
    requires Agree(sys.eps, sys.pools) && (c.Beat? || c.Load?)
    ensures Agree(Update(sys.eps, c), sys.pools)
  {
    HasUpdate(sys.eps, c);
    forall p, k | Has(sys.eps, p, k) ensures At(Update(sys.eps, c), p, k).servicePath == At(sys.eps, p, k).servicePath {
      ChangeKeepsIdentity(c, At(sys.eps, p, k));
    }
  }

  /** After any run of registrations, plain deletions, heartbeats, metrics and sweeps, the
      pools are exactly those of the registered endpoints whose service port parses. */
  lemma {:induction false} PoolsFollowEndpoints(sys: System, h: seq<Event>)
    requires Runs(sys, h) && WellFormed(sys) && Agree(sys.eps, sys.pools)
    requires forall i :: 0 <= i < |h| ==> PlainDelete(h[i])
    ensures WellFormed(After(sys, h)) && Agree(After(sys, h).eps, After(sys, h).pools)
    decreases |h|
  {
    if h != [] {
      StepKeepsAgreement(sys, h[0]);
      StepKeepsWellFormed(sys, h[0]);
      PoolsFollowEndpoints(Step(sys, h[0]), h[1..]);
    }
  }

  /** So the endpoint lookup that follows the choice of a pool never fails, and every pool
      belongs to an endpoint with a port. */
  lemma LookupAfterPoolSucceeds(h: seq<Event>, path: string, epID: string)
    requires Runs(EMPTY_SYSTEM, h) && forall i :: 0 <= i < |h| ==> PlainDelete(h[i])
    requires Has(After(EMPTY_SYSTEM, h).pools, path, epID)
    ensures Has(After(EMPTY_SYSTEM, h).eps, path, epID)
    ensures At(After(EMPTY_SYSTEM, h).eps, path, epID).epID == epID
    ensures At(After(EMPTY_SYSTEM, h).eps, path, epID).nodePath == path
  {
    PoolsFollowEndpoints(EMPTY_SYSTEM, h);
  }

  /** A service path written ":18011/v1/...", as in the plugin example of the repository's
      README, has no port that parses: its endpoint is registered without a pool. */
  lemma ColonPortHasNoPool(servicePath: string)
    requires servicePath != "" && servicePath[0] == ':'
    ensures !HasPort(servicePath)
  {
    var port := ServicePort(servicePath);
    assert port[0] == ':';
    DigitsNeedDigits(port, 0);
  }

  lemma {:induction false} DigitsNeedDigits(s: string, i: nat)
    requires i < |s| && !('0' <= s[i] <= '9')
    ensures Digits(s).None?
  {
    if i < |s| - 1 {
      DigitsNeedDigits(s[..|s| - 1], i);
    }
  }

  // ---------- One plugin per path ----------

  ghost predicate OnePluginPerPath(s: Endpoints) {
    forall p, j, k :: Has(s, p, j) && Has(s, p, k) && At(s, p, j).plugin && At(s, p, k).plugin ==> j == k
  }

  predicate BatchOnePlugin(rs: seq<Request>) {
    forall i, j :: 0 <= i < j < |rs| && rs[i].plugin && rs[j].plugin ==> rs[i].nodePath != rs[j].nodePath
  }

  /** Registration is all or nothing, and an accepted batch keeps at most one plugin per
      path exactly when it holds at most one itself: the check looks only at endpoints
      registered before. */
  lemma OnePluginKeptIff(sys: System, e: Event)
    requires WellFormed(sys) && OnePluginPerPath(sys.eps) && e.Post? && FreshIds(sys, e)
    ensures !Accepted(sys, e) ==> Step(sys, e).eps == sys.eps && Step(sys, e).pools == sys.pools
    ensures Accepted(sys, e) ==> forall i :: 0 <= i < |e.requests| ==> Has(Step(sys, e).eps, e.requests[i].nodePath, e.ids[i])
    ensures Accepted(sys, e) ==> (OnePluginPerPath(Step(sys, e).eps) <==> BatchOnePlugin(e.requests))
  {
    if Accepted(sys, e) {
      assert forall p, k :: Has(sys.eps, p, k) ==> k !in e.ids;
      RegisterHas(sys.eps, e.requests, e.service, e.ids, e.now);
      if BatchOnePlugin(e.requests) {
        BatchKeepsOnePlugin(sys, e);
      } else {
        var i, j :| 0 <= i < j < |e.requests| && e.requests[i].plugin && e.requests[j].plugin
                    && e.requests[i].nodePath == e.requests[j].nodePath;
        assert e.ids[i] != e.ids[j];
      }
    }
  }

  /** One batch of two plugins for "/p", sent to an empty registry, is accepted. */
  lemma TwoPluginsInOneBatch() returns (e: Event)
    ensures e == Post([Request("80/a", "/p", 1, true), Request("81/b", "/p", 1, true)], "s", ["x", "y"], 1)
    ensures FreshIds(EMPTY_SYSTEM, e) && Accepted(EMPTY_SYSTEM, e) && !OnePluginPerPath(Step(EMPTY_SYSTEM, e).eps)
  {
    var a, b := Request("80/a", "/p", 1, true), Request("81/b", "/p", 1, true);
    e := Post([a, b], "s", ["x", "y"], 1);
    assert e.requests[0] == a && e.requests[1] == b;
    assert "80/a"[3..] == "a" && "81/b"[3..] == "b" && "/p"[1..] == "p";
    OnePluginKeptIff(EMPTY_SYSTEM, e);
  }

  /** Where an endpoint of the new registry comes from. */
  lemma Origin(sys: System, e: Event, p: string, k: string)
    requires WellFormed(sys) && e.Post? && FreshIds(sys, e) && Accepted(sys, e)
    requires Has(Step(sys, e).eps, p, k)
    ensures (Has(sys.eps, p, k) && At(Step(sys, e).eps, p, k) == At(sys.eps, p, k))
         || exists i :: 0 <= i < |e.requests| && e.requests[i].nodePath == p && e.ids[i] == k
                        && At(Step(sys, e).eps, p, k).plugin == e.requests[i].plugin
  {
    RegisterHas(sys.eps, e.requests, e.service, e.ids, e.now);
    if !Has(sys.eps, p, k) {
      RegisterWhere(sys.eps, e.requests, e.service, e.ids, e.now, p, k);
    } else {
      assert k in sys.issued && k !in e.ids;
    }
  }

  lemma BatchKeepsOnePlugin(sys: System, e: Event)
    requires WellFormed(sys) && OnePluginPerPath(sys.eps) && e.Post? && FreshIds(sys, e) && Accepted(sys, e)
    requires BatchOnePlugin(e.requests)
    ensures OnePluginPerPath(Step(sys, e).eps)
  {
    var t := Step(sys, e).eps;
    forall p, j, k | Has(t, p, j) && Has(t, p, k) && At(t, p, j).plugin && At(t, p, k).plugin ensures j == k {
      Origin(sys, e, p, j);
      Origin(sys, e, p, k);
    }
  }

  lemma UpdateKeepsOnePlugin(s: Endpoints, c: Change)
    requires OnePluginPerPath(s)
    ensures OnePluginPerPath(Update(s, c))
  {
    HasUpdate(s, c);
    forall p, k | Has(Update(s, c), p, k) ensures Has(s, p, k) && At(Update(s, c), p, k).plugin == At(s, p, k).plugin {
      ChangeKeepsIdentity(c, At(s, p, k));
    }
  }

  /** If each batch has at most one plugin per path, every reachable registry has. */
  lemma {:induction false} AlwaysOnePlugin(sys: System, h: seq<Event>)
    requires Runs(sys, h) && WellFormed(sys) && OnePluginPerPath(sys.eps)
    requires forall i :: 0 <= i < |h| && h[i].Post? ==> BatchOnePlugin(h[i].requests)
    ensures OnePluginPerPath(After(sys, h).eps)
    decreases |h|
  {
    if h != [] {
      StepKeepsWellFormed(sys, h[0]);
      assert OnePluginPerPath(Step(sys, h[0]).eps) by {
        match h[0] {
          case Post(_, _, _, _) => OnePluginKeptIff(sys, h[0]);
          case Delete(service, path) =>
            if service != "" && QueryUnescape(service).Some? {
              UpdateKeepsOnePlugin(sys.eps, Forget(QueryUnescape(service).value, None));
              if QueryUnescape(path).Some? {
                UpdateKeepsOnePlugin(sys.eps, Forget(QueryUnescape(service).value, QueryUnescape(path)));
              }
            }
          case Heartbeat(service, healthy, now) => UpdateKeepsOnePlugin(sys.eps, Beat(service, healthy, now));
          case Metrics(path, epID, active, queueLen) => UpdateKeepsOnePlugin(sys.eps, Load(path, epID, active, queueLen));
          case Sweep(now, timeout) => UpdateKeepsOnePlugin(sys.eps, Age(now, timeout));
        }
      }
      AlwaysOnePlugin(Step(sys, h[0]), h[1..]);
    }
  }
}
