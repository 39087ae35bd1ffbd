/** What every interleaving of callers, workers and Shutdown guarantees. */
module PoolGuarantees {
  import opened Counting
  import opened PoolProtocol

  lemma ReachableInv(maxConcur: int, capacity: nat, acts: seq<Action>)
    requires Runs(Init(maxConcur, capacity), acts)
    ensures Inv(After(Init(maxConcur, capacity), acts))
    ensures |After(Init(maxConcur, capacity), acts).workers| == WorkerCount(maxConcur)
  {
    InitInv(maxConcur, capacity);
    RunKeepsInv(Init(maxConcur, capacity), acts);
  }

  /** waitingCount is the queue, plus the callers counted but neither queued nor
      un-counted, plus the workers that dequeued but have not lowered it;
      activeCount is the workers between raise and lowering, never more than there
      are workers, however often the limit of the live pool is changed. */
  lemma CountersExplained(maxConcur: int, capacity: nat, acts: seq<Action>)
    requires Runs(Init(maxConcur, capacity), acts)
    ensures var p := After(Init(maxConcur, capacity), acts);
            && p.waiting == |p.queue| + Count(p.callers, CountedOutside) + Count(p.workers, StillWaiting)
            && p.active == Count(p.workers, IsActive)
            && 0 <= p.active <= WorkerCount(maxConcur)
            && 0 <= |p.queue| <= p.waiting
            && |p.queue| <= capacity
  {
    ReachableInv(maxConcur, capacity, acts);
    var p := After(Init(maxConcur, capacity), acts);
    CountAtMostLength(p.workers, IsActive);
    CapacityFixed(Init(maxConcur, capacity), acts);
  }

  lemma {:induction false} CapacityFixed(p: Pool, acts: seq<Action>)
    requires Runs(p, acts)
    ensures After(p, acts).capacity == p.capacity
    decreases |acts|
  {
    if acts != [] {
      CapacityFixed(Apply(p, acts[0]), acts[1..]);
    }
  }

  /** The limit a pool reports is the one it was last resized to; resizing starts no worker. */
  function LastLimit(acts: seq<Action>, first: int): int {
    if acts == [] then first
    else if acts[|acts| - 1].Resize? then acts[|acts| - 1].limit
    else LastLimit(acts[..|acts| - 1], first)
  }

  lemma {:induction false} LimitIsLast(p: Pool, acts: seq<Action>)
    requires Runs(p, acts)
    ensures After(p, acts).limit == LastLimit(acts, p.limit)
    ensures |After(p, acts).workers| == |p.workers|
  {
    if acts != [] {
      var init, last := acts[..|acts| - 1], acts[|acts| - 1];
      assert init + [last] == acts;
      RunsPrefix(p, acts, |acts| - 1);
      LimitIsLast(p, init);
      RunsAppend(p, init, [last]);
      assert After(After(p, init), [last]) == Apply(After(p, init), last);
    }
  }

  lemma {:induction false} RunsPrefix(p: Pool, acts: seq<Action>, j: nat)
    requires Runs(p, acts) && j < |acts|
    ensures Runs(p, acts[..j]) && Enabled(After(p, acts[..j]), acts[j])
    decreases |acts|
  {
    if j > 0 {
      RunsPrefix(Apply(p, acts[0]), acts[1..], j - 1);
      assert acts[..j][1..] == acts[1..][..j - 1];
    }
  }

  // ---------- How much can run at once ----------

  /** The first n workers each hold a request of the first n calls, the others are idle. */
  ghost predicate Occupied(p: Pool, n: nat) {
    && p.phase.Up? && p.queue == [] && p.active == n && |p.callers| == n && n <= |p.workers|
    && forall w :: n <= w < |p.workers| ==> p.workers[w].Selecting?
  }

  /** One more call arrives, is handed to an idle worker, and is counted as active. */
  lemma OneMoreActive(p: Pool, n: nat)
    requires Occupied(p, n) && n < |p.workers|
    ensures Runs(p, [Arrive, Handoff(n, n), Raise(n)]) && Occupied(After(p, [Arrive, Handoff(n, n), Raise(n)]), n + 1)
    ensures |After(p, [Arrive, Handoff(n, n), Raise(n)]).workers| == |p.workers|
  {
    var a := Apply(p, Arrive);
    var b := Apply(a, Handoff(n, n));
    var c := Apply(b, Raise(n));
    assert [Arrive, Handoff(n, n), Raise(n)][1..] == [Handoff(n, n), Raise(n)];
    assert [Handoff(n, n), Raise(n)][1..] == [Raise(n)];
    assert After(b, [Raise(n)]) == c;
    assert After(a, [Handoff(n, n), Raise(n)]) == c;
  }

  lemma {:induction false} Occupy(maxConcur: int, capacity: nat, n: nat) returns (acts: seq<Action>)
    requires n <= |Init(maxConcur, capacity).workers|
    ensures Runs(Init(maxConcur, capacity), acts) && Occupied(After(Init(maxConcur, capacity), acts), n)
    ensures |After(Init(maxConcur, capacity), acts).workers| == |Init(maxConcur, capacity).workers|
  {
    acts := [];
    if n > 0 {
      var before := Occupy(maxConcur, capacity, n - 1);
      var p := After(Init(maxConcur, capacity), before);
      var next := [Arrive, Handoff(n - 1, n - 1), Raise(n - 1)];
      OneMoreActive(p, n - 1);
      RunsAppend(Init(maxConcur, capacity), before, next);
      acts := before + next;
    }
  }

  ghost predicate CanBeActive(maxConcur: int, capacity: nat, n: int) {
    exists acts :: Runs(Init(maxConcur, capacity), acts) && After(Init(maxConcur, capacity), acts).active == n
  }

  /** A pool asked for m workers has m, and at least one: exactly the numbers up to that many
      requests can be active at once, whatever the capacity of the queue. */
  lemma ActiveUpToLimit(maxConcur: int, capacity: nat, n: int)
    ensures maxConcur >= 1 ==> (CanBeActive(maxConcur, capacity, n) <==> 0 <= n <= maxConcur)
    ensures maxConcur < 1 ==> (CanBeActive(maxConcur, capacity, n) <==> 0 <= n <= 1)
  {
    if CanBeActive(maxConcur, capacity, n) {
      var acts :| Runs(Init(maxConcur, capacity), acts) && After(Init(maxConcur, capacity), acts).active == n;
      CountersExplained(maxConcur, capacity, acts);
    }
    if 0 <= n <= |Init(maxConcur, capacity).workers| {
      var acts := Occupy(maxConcur, capacity, n);
    }
  }

  // ---------- What is accepted can be finished ----------

  /** A worker step that is possible while something is queued or held. */
  function BusyStep(p: Pool, w: nat): (a: Action)
    requires w < |p.workers| && !p.workers[w].Exited? && !(p.workers[w].Selecting? && p.queue == [])
    ensures Enabled(p, a) && WorkerAction(a) && !a.Exit?
  {
    match p.workers[w]
    case Selecting => Receive(w)
    case Took(_) => Raise(w)
    case Raised(_) => Lower(w)
    case Serving(_) => CloseDone(w)
    case Closing(_) => Finish(w)
  }

  predicate Idle(p: Pool) {
    p.queue == [] && forall w :: 0 <= w < |p.workers| ==> p.workers[w].Selecting?
  }

  lemma WorkerStepDrains(p: Pool, a: Action)
    requires Enabled(p, a) && WorkerAction(a)
    ensures DrainBound(Apply(p, a)) == DrainBound(p) - 1
  {
    RanksUpdate(p.workers, a.w, Apply(p, a).workers[a.w]);
  }

  lemma {:induction false} WorkersCanFinish(p: Pool) returns (acts: seq<Action>)
    requires Inv(p) && p.phase.Up? && p.workers != []
    ensures Runs(p, acts) && Idle(After(p, acts)) && After(p, acts).accepted == p.accepted
    ensures forall a :: a in acts ==> WorkerAction(a)
    decreases DrainBound(p)
  {
    acts := [];
    if !Idle(p) {
      var w: nat := 0;
      if p.queue == [] {
        w :| w < |p.workers| && !p.workers[w].Selecting?;
      }
      var a := BusyStep(p, w);
      WorkerStepDrains(p, a);
      StepKeepsInv(p, a);
      var rest := WorkersCanFinish(Apply(p, a));
      acts := [a] + rest;
      assert acts[1..] == rest;
    }
  }

  /** From every reachable state of a pool that is not shut down, the workers alone can come to
      a state in which every accepted request is finished, and none is left anywhere else. */
  lemma NothingIsStranded(maxConcur: int, capacity: nat, acts: seq<Action>) returns (more: seq<Action>)
    requires Runs(Init(maxConcur, capacity), acts) && After(Init(maxConcur, capacity), acts).phase.Up?
    ensures forall a :: a in more ==> WorkerAction(a)
    ensures var p := After(Init(maxConcur, capacity), acts);
            && Runs(p, more) && After(p, more).accepted == p.accepted
            && After(p, more).active == 0
            && forall r: nat :: r in p.accepted ==> Times(After(p, more).finished, r) == 1
  {
    var p := After(Init(maxConcur, capacity), acts);
    ReachableInv(maxConcur, capacity, acts);
    more := WorkersCanFinish(p);
    RunsAppend(Init(maxConcur, capacity), acts, more);
    var q := After(p, more);
    RunKeepsInv(p, more);
    CountNone(q.workers, IsActive);
    forall r: nat | r in p.accepted ensures Times(q.finished, r) == 1 {
      ExactlyOnePlace(maxConcur, capacity, acts + more, r);
      CountNone(q.workers, w => Holds(w, r));
    }
  }

  /** Accepted requests whose Done is still open. */
  function Unfinished(p: Pool): int {
    |p.accepted| - |p.finished|
  }

  /** Held by a worker that raised one counter and has not yet lowered the other. */
  predicate CountedTwice(w: WorkerPc) { w.Raised? }

  predicate DoneButActive(w: WorkerPc) { w.Closing? }

  /** active + waiting never under-counts the accepted unfinished requests, and
      the excess is exactly the requests in transit between two counter updates. */
  lemma LoadNeverUndercounts(maxConcur: int, capacity: nat, acts: seq<Action>)
    requires Runs(Init(maxConcur, capacity), acts)
    ensures var p := After(Init(maxConcur, capacity), acts);
            && p.active + p.waiting >= Unfinished(p)
            && p.active + p.waiting - Unfinished(p)
               == Count(p.callers, CountedOutside)
                + Count(p.workers, CountedTwice) + Count(p.workers, DoneButActive)
  {
    ReachableInv(maxConcur, capacity, acts);
    SplitByPc(After(Init(maxConcur, capacity), acts).workers);
  }

  lemma {:induction false} SplitByPc(ws: seq<WorkerPc>)
    ensures Count(ws, StillWaiting) + Count(ws, IsActive)
         == Count(ws, Busy) + Count(ws, CountedTwice) + Count(ws, DoneButActive)
  {
    if ws != [] {
      SplitByPc(ws[1..]);
    }
  }

  /** Every accepted request is in exactly one place: queued, held open by exactly
      one worker, or finished with Done closed exactly once, whether or not its
      caller has left. Every other request is nowhere. */
  lemma ExactlyOnePlace(maxConcur: int, capacity: nat, acts: seq<Action>, r: nat)
    requires Runs(Init(maxConcur, capacity), acts)
    ensures var p := After(Init(maxConcur, capacity), acts);
            && Times(p.queue, r) + Holders(p.workers, r) + Times(p.finished, r)
               == Bit(r < |p.callers| && Admitted(p.callers[r]))
            && (r in p.accepted <==> r < |p.callers| && Admitted(p.callers[r]))
            && (CallerAt(p, r, Served) ==> Times(p.finished, r) == 1)
  {
    ReachableInv(maxConcur, capacity, acts);
    var p := After(Init(maxConcur, capacity), acts);
    assert multiset(p.accepted) == multiset(p.started) + multiset(p.queue);
    assert Times(p.accepted, r) == Times(p.started, r) + Times(p.queue, r);
    assert r in multiset(p.accepted) <==> r in p.accepted;
    assert r in multiset(p.finished) <==> r in p.finished;
  }

  /** Requests leave the queue in the order in which they entered it. */
  lemma DequeuedInOrder(maxConcur: int, capacity: nat, acts: seq<Action>)
    requires Runs(Init(maxConcur, capacity), acts)
    ensures var p := After(Init(maxConcur, capacity), acts);
            p.started <= p.accepted && p.queue == p.accepted[|p.started|..]
  {
    ReachableInv(maxConcur, capacity, acts);
  }

  /** The histories only grow, and a caller that was turned away stays turned away. */
  lemma {:induction false} HistoryGrows(p: Pool, acts: seq<Action>)
    requires Runs(p, acts)
    ensures var q := After(p, acts);
            && p.accepted <= q.accepted && p.started <= q.started && p.finished <= q.finished
            && |p.callers| <= |q.callers|
            && (forall c :: 0 <= c < |p.callers| && TurnedAway(p.callers[c]) ==> TurnedAway(q.callers[c]))
    decreases |acts|
  {
    if acts != [] {
      HistoryGrows(Apply(p, acts[0]), acts[1..]);
    }
  }

  predicate TurnedAway(c: CallerPc) { c.Rejecting? || c.Rejected? || c.Panicked? }

  /** A rejected request never runs: not before, not after, not during Shutdown. */
  lemma RejectedNeverRuns(maxConcur: int, capacity: nat, acts: seq<Action>, more: seq<Action>, r: nat)
    requires Runs(Init(maxConcur, capacity), acts)
    requires Runs(After(Init(maxConcur, capacity), acts), more)
    requires var p := After(Init(maxConcur, capacity), acts);
             r < |p.callers| && TurnedAway(p.callers[r])
    ensures var q := After(After(Init(maxConcur, capacity), acts), more);
            r !in q.accepted && r !in q.started && Holders(q.workers, r) == 0 && r !in q.finished
  {
    var p := After(Init(maxConcur, capacity), acts);
    ReachableInv(maxConcur, capacity, acts);
    RunKeepsInv(p, more);
    HistoryGrows(p, more);
    var q := After(p, more);
    assert Times(q.accepted, r) == 0;
    assert multiset(q.accepted) == multiset(q.started) + multiset(q.queue);
    assert Times(q.started, r) == 0;
    assert Times(q.finished, r) == 0;
  }

  /** Once Shutdown has returned, no request is active, and every accepted request
      is finished or was left in the queue, never both. */
  lemma ShutdownLeavesNothingActive(maxConcur: int, capacity: nat, acts: seq<Action>)
    requires Runs(Init(maxConcur, capacity), acts)
    requires After(Init(maxConcur, capacity), acts).phase.Down?
    ensures var p := After(Init(maxConcur, capacity), acts);
            && p.active == 0
            && p.waiting == |p.queue| + Count(p.callers, CountedOutside)
            && (forall r :: r in p.accepted ==> (r in p.finished) != (r in p.queue))
  {
    ReachableInv(maxConcur, capacity, acts);
    var p := After(Init(maxConcur, capacity), acts);
    CountNone(p.workers, IsActive);
    CountNone(p.workers, StillWaiting);
    forall r | r in p.accepted ensures (r in p.finished) != (r in p.queue) {
      CountNone(p.workers, w => Holds(w, r));
      ExactlyOnePlace(maxConcur, capacity, acts, r);
      assert r in multiset(p.finished) <==> r in p.finished;
      assert r in multiset(p.queue) <==> r in p.queue;
    }
  }

  // ---------- Shutdown comes to an end ----------

  /** Worker actions that may still follow from a program counter. */
  function Rank(w: WorkerPc): nat {
    match w
    case Exited => 0
    case Selecting => 1
    case Closing(_) => 2
    case Serving(_) => 3
    case Raised(_) => 4
    case Took(_) => 5
  }

  function Ranks(ws: seq<WorkerPc>): nat {
    if ws == [] then 0 else Rank(ws[0]) + Ranks(ws[1..])
  }

  function DrainBound(p: Pool): nat {
    5 * |p.queue| + Ranks(p.workers)
  }

  lemma {:induction false} RanksUpdate(ws: seq<WorkerPc>, i: nat, x: WorkerPc)
    requires i < |ws|
    ensures Ranks(ws[i := x]) == Ranks(ws) - Rank(ws[i]) + Rank(x)
  {
    if i == 0 {
      assert ws[i := x][1..] == ws[1..];
    } else {
      RanksUpdate(ws[1..], i - 1, x);
      assert ws[i := x][1..] == ws[1..][i - 1 := x];
    }
  }

  lemma DrainStep(p: Pool, a: Action)
    requires Enabled(p, a) && !QueueOpen(p)
    ensures !QueueOpen(Apply(p, a))
    ensures DrainBound(Apply(p, a)) + Bit(WorkerAction(a)) == DrainBound(p)
  {
    if WorkerAction(a) {
      RanksUpdate(p.workers, a.w, Apply(p, a).workers[a.w]);
    }
  }

  /** After the queue is closed the workers take at most DrainBound steps in all. */
  lemma {:induction false} DrainsInBoundedSteps(p: Pool, acts: seq<Action>)
    requires Runs(p, acts) && !QueueOpen(p)
    ensures Count(acts, WorkerAction) + DrainBound(After(p, acts)) == DrainBound(p)
    decreases |acts|
  {
    if acts != [] {
      DrainStep(p, acts[0]);
      DrainsInBoundedSteps(Apply(p, acts[0]), acts[1..]);
    }
  }

  /** While a worker has not exited, a worker action is enabled; when all have,
      Shutdown can return. So with terminating backends Shutdown never hangs. */
  lemma DrainNeverStuck(p: Pool)
    requires p.phase.QueueClosed?
    ensures Enabled(p, WaitWorkers) || exists a :: WorkerAction(a) && Enabled(p, a)
    ensures DrainBound(p) == 0 ==> Enabled(p, WaitWorkers)
  {
    if !AllExited(p) {
      var w: nat :| w < |p.workers| && !p.workers[w].Exited?;
      var a := match p.workers[w]
        case Selecting => Exit(w)
        case Took(_) => Raise(w)
        case Raised(_) => Lower(w)
        case Serving(_) => CloseDone(w)
        case Closing(_) => Finish(w)
        case Exited => Cancel;
      assert WorkerAction(a) && Enabled(p, a);
      RanksUpdate(p.workers, w, Exited);
      assert Ranks(p.workers) > 0;
    }
  }
}
