/** The in-flight counters per remote node and path (internal/pool/pool.go): raised when a
    forward starts, lowered when it ends, by any number of concurrent forwards. */
module RemoteCounters {
  import opened Counting
  import opened Routing

  datatype Forward = Forward(nodeID: string, path: string)

  function Key(f: Forward): string { RemoteKey(f.nodeID, f.path) }

  /** A forward starts, or the i-th of those in flight ends. */
  datatype Event = Begin(f: Forward) | End(i: nat)

  datatype Counters = Counters(values: map<string, int>, flying: seq<Forward>)

  const IDLE := Counters(map[], [])

  function Read(c: Counters, key: string): int {
    if key in c.values then c.values[key] else 0
  }

  predicate Enabled(c: Counters, e: Event) {
    e.End? ==> e.i < |c.flying|
  }

  /** IncRemoteActive, and the deferred DecRemoteActive. */
  function Step(c: Counters, e: Event): Counters
    requires Enabled(c, e)
  {
    match e
    case Begin(f) => Counters(c.values[Key(f) := Read(c, Key(f)) + 1], c.flying + [f])
    case End(i) =>
      var key := Key(c.flying[i]);
      Counters(if key in c.values then c.values[key := c.values[key] - 1] else c.values, c.flying[..i] + c.flying[i + 1..])
  }

  predicate Runs(c: Counters, h: seq<Event>)
    decreases |h|
  {
    h == [] || (Enabled(c, h[0]) && Runs(Step(c, h[0]), h[1..]))
  }

  function After(c: Counters, h: seq<Event>): Counters
    requires Runs(c, h)
    decreases |h|
  {
    if h == [] then c else After(Step(c, h[0]), h[1..])
  }

  predicate Keyed(f: Forward, key: string) { Key(f) == key }

  function FlyingWith(c: Counters, key: string): nat {
    Count(c.flying, f => Keyed(f, key))
  }

  /** Every counter is the number of forwards in flight under its key. */
  ghost predicate Exact(c: Counters) {
    && (forall key :: Read(c, key) == FlyingWith(c, key))
    && (forall i :: 0 <= i < |c.flying| ==> Key(c.flying[i]) in c.values)
  }

  lemma StepKeepsExact(c: Counters, e: Event)
    requires Exact(c) && Enabled(c, e)
    ensures Exact(Step(c, e))
  {
    var d := Step(c, e);
    forall key ensures Read(d, key) == FlyingWith(d, key) {
      assert Read(c, key) == FlyingWith(c, key);
      if e.Begin? {
        CountAppend(c.flying, [e.f], f => Keyed(f, key));
      } else {
        CountWithout(c.flying, e.i, f => Keyed(f, key));
      }
    }
  }

  lemma {:induction false} RunKeepsExact(c: Counters, h: seq<Event>)
    requires Runs(c, h) && Exact(c)
    ensures Exact(After(c, h))
    decreases |h|
  {
    if h != [] {
      StepKeepsExact(c, h[0]);
      RunKeepsExact(Step(c, h[0]), h[1..]);
    }
  }

  /** Ids without '|' are not confused by the joined key. */
  lemma {:induction false} KeyInjective(a: string, b: string, c: string, d: string)
    requires '|' !in a && '|' !in c && RemoteKey(a, b) == RemoteKey(c, d)
    ensures a == c && b == d
  {
    var left, right := RemoteKey(a, b), RemoteKey(c, d);
    assert left[0] == (if a == "" then '|' else a[0]);
    assert right[0] == (if c == "" then '|' else c[0]);
    if a != "" && c != "" {
      assert left[1..] == RemoteKey(a[1..], b) && right[1..] == RemoteKey(c[1..], d);
      KeyInjective(a[1..], b, c[1..], d);
      assert a == [a[0]] + a[1..] && c == [c[0]] + c[1..];
    } else {
      assert left[1..] == b && right[1..] == d;
    }
  }

  /** Over every interleaving of starts and ends, the value read for a node and path is
      never negative and, for ids without '|', is exactly the number of forwards to that
      node and path that have started and not ended. */
  lemma CounterIsInFlight(h: seq<Event>, nodeID: string, path: string)
    requires Runs(IDLE, h)
    requires '|' !in nodeID && forall i :: 0 <= i < |After(IDLE, h).flying| ==> '|' !in After(IDLE, h).flying[i].nodeID
    ensures var c := After(IDLE, h);
            Read(c, RemoteKey(nodeID, path)) == Count(c.flying, f => Is(f, nodeID, path)) >= 0
  {
    var c := After(IDLE, h);
    RunKeepsExact(IDLE, h);
    SameCounts(c.flying, nodeID, path);
  }

  predicate Is(f: Forward, nodeID: string, path: string) { f == Forward(nodeID, path) }

  lemma {:induction false} SameCounts(fs: seq<Forward>, nodeID: string, path: string)
    requires '|' !in nodeID && forall i :: 0 <= i < |fs| ==> '|' !in fs[i].nodeID
    ensures Count(fs, f => Keyed(f, RemoteKey(nodeID, path))) == Count(fs, f => Is(f, nodeID, path))
  {
    if fs != [] {
      SameCounts(fs[1..], nodeID, path);
      if Keyed(fs[0], RemoteKey(nodeID, path)) {
        KeyInjective(fs[0].nodeID, fs[0].path, nodeID, path);
      }
    }
  }

  /** The counter map as the pool manager keeps it. */
  class CounterTable {
    var values: map<string, int>
    ghost var flying: seq<Forward>

    ghost predicate Valid()
      reads this
    {
      Exact(Counters(values, flying))
    }

    constructor ()
      ensures Valid() && flying == []
    {
      values, flying := map[], [];
    }

    method IncRemoteActive(nodeID: string, path: string)
      requires Valid()
      modifies this
      ensures Valid() && flying == old(flying) + [Forward(nodeID, path)]
    {
      ghost var next := Step(Counters(values, flying), Begin(Forward(nodeID, path)));
      StepKeepsExact(Counters(values, flying), Begin(Forward(nodeID, path)));
      var key := nodeID + "|" + path;
      if key !in values {
        values := values[key := 0];
      }
      values := values[key := values[key] + 1];
      flying := flying + [Forward(nodeID, path)];
      assert Counters(values, flying) == next;
    }

    method DecRemoteActive(nodeID: string, path: string, ghost i: nat)
      requires Valid() && i < |flying| && flying[i] == Forward(nodeID, path)
      modifies this
      ensures Valid() && flying == old(flying)[..i] + old(flying)[i + 1..]
    {
      StepKeepsExact(Counters(values, flying), End(i));
      var key := nodeID + "|" + path;
      if key in values {
        values := values[key := values[key] - 1];
      }
      flying := flying[..i] + flying[i + 1..];
    }

    method GetRemoteActive(nodeID: string, path: string) returns (n: int)
      requires Valid()
      ensures n == FlyingWith(Counters(values, flying), RemoteKey(nodeID, path))
    {
      var key := nodeID + "|" + path;
      assert Read(Counters(values, flying), key) == FlyingWith(Counters(values, flying), key);
      if key !in values {
        return 0;
      }
      return values[key];
    }
  }
}
