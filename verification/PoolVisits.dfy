/** One call on a request pool, seen in the whole run of the pool: what it returned, what its
    send met, and whether a worker took its request. */
module PoolVisits {
  import opened Models
  import opened PoolProtocol
  import opened PoolGuarantees

  /** What ServeWithHeaders returns. */
  datatype Outcome = Nil | QueueFull | ContextEnded | Crashed

  /** The number of a call, and the run of its pool until the call has returned. */
  datatype Visit = Visit(limit: int, capacity: nat, run: seq<Action>, call: nat)

  /** How a call that is over ended; None while it is under way. */
  function Ending(pc: CallerPc): Option<Outcome> {
    match pc
    case Served => Some(Nil)
    case Rejected => Some(QueueFull)
    case Abandoned => Some(ContextEnded)
    case Panicked => Some(Crashed)
    case _ => None
  }

  ghost predicate Ends(v: Visit, outcome: Outcome) {
    var start := Init(v.limit, v.capacity);
    && Runs(start, v.run) && v.call < |After(start, v.run).callers|
    && Ending(After(start, v.run).callers[v.call]) == Some(outcome)
  }

  /** The send at position j found the buffer of the open queue full. */
  ghost predicate MetFull(start: Pool, run: seq<Action>, c: nat, j: nat) {
    && j < |run| && run[j] == FindFull(c) && Runs(start, run[..j])
    && var p := After(start, run[..j]); QueueOpen(p) && |p.queue| == p.capacity
  }

  /** The send at position j found the queue closed. */
  ghost predicate MetClosed(start: Pool, run: seq<Action>, c: nat, j: nat) {
    && j < |run| && run[j] == SendOnClosed(c) && Runs(start, run[..j])
    && !QueueOpen(After(start, run[..j]))
  }

  ghost predicate FoundFull(v: Visit) {
    exists j: nat :: MetFull(Init(v.limit, v.capacity), v.run, v.call, j)
  }

  ghost predicate FoundClosed(v: Visit) {
    exists j: nat :: MetClosed(Init(v.limit, v.capacity), v.run, v.call, j)
  }

  /** A worker has taken the request of the call. */
  ghost predicate Started(v: Visit)
    requires Runs(Init(v.limit, v.capacity), v.run)
  {
    v.call in After(Init(v.limit, v.capacity), v.run).started
  }

  predicate TurnedBack(p: Pool, c: nat) {
    CallerAt(p, c, Rejecting) || CallerAt(p, c, Rejected)
  }

  /** A call is turned back by finding the buffer full and by nothing else, for good. */
  lemma {:induction false} TurnedBackIff(p: Pool, acts: seq<Action>, c: nat)
    requires Runs(p, acts)
    ensures TurnedBack(After(p, acts), c) <==> TurnedBack(p, c) || FindFull(c) in acts
    decreases |acts|
  {
    if acts != [] {
      TurnedBackIff(Apply(p, acts[0]), acts[1..], c);
      assert acts == [acts[0]] + acts[1..];
    }
  }

  lemma {:induction false} PanickedIff(p: Pool, acts: seq<Action>, c: nat)
    requires Runs(p, acts)
    ensures CallerAt(After(p, acts), c, Panicked) <==> CallerAt(p, c, Panicked) || SendOnClosed(c) in acts
    decreases |acts|
  {
    if acts != [] {
      PanickedIff(Apply(p, acts[0]), acts[1..], c);
      assert acts == [acts[0]] + acts[1..];
    }
  }

  lemma SendMetIff(start: Pool, run: seq<Action>, c: nat)
    requires Runs(start, run)
    ensures FindFull(c) in run <==> exists j: nat :: MetFull(start, run, c, j)
    ensures SendOnClosed(c) in run <==> exists j: nat :: MetClosed(start, run, c, j)
  {
    if FindFull(c) in run {
      var j: nat :| j < |run| && run[j] == FindFull(c);
      RunsPrefix(start, run, j);
      assert MetFull(start, run, c, j);
    }
    if SendOnClosed(c) in run {
      var j: nat :| j < |run| && run[j] == SendOnClosed(c);
      RunsPrefix(start, run, j);
      assert MetClosed(start, run, c, j);
    }
  }

  /** What a call returns tells what its send met: "queue full" a full buffer, the panic a
      closed queue; otherwise the request entered the pool. Nil means a worker took it. */
  lemma OutcomeExplained(v: Visit, outcome: Outcome)
    requires Ends(v, outcome)
    ensures outcome.QueueFull? <==> FoundFull(v)
    ensures outcome.Crashed? <==> FoundClosed(v)
    ensures outcome.Nil? ==> Started(v)
    ensures outcome.QueueFull? || outcome.Crashed? ==> !Started(v)
  {
    var start := Init(v.limit, v.capacity);
    var p := After(start, v.run);
    TurnedBackIff(start, v.run, v.call);
    PanickedIff(start, v.run, v.call);
    SendMetIff(start, v.run, v.call);
    StartedIff(v);
  }

  lemma StartedIff(v: Visit)
    requires Runs(Init(v.limit, v.capacity), v.run)
    requires v.call < |After(Init(v.limit, v.capacity), v.run).callers|
    ensures var pc := After(Init(v.limit, v.capacity), v.run).callers[v.call];
            && (pc.Served? ==> Started(v))
            && (TurnedAway(pc) ==> !Started(v))
  {
    var p := After(Init(v.limit, v.capacity), v.run);
    ReachableInv(v.limit, v.capacity, v.run);
    ExactlyOnePlace(v.limit, v.capacity, v.run, v.call);
    assert v.call in multiset(p.started) <==> v.call in p.started;
    assert Times(p.started, v.call) == Times(p.finished, v.call) + Holders(p.workers, v.call);
    if TurnedAway(p.callers[v.call]) {
      RejectedNeverRuns(v.limit, v.capacity, v.run, [], v.call);
    }
  }
}
