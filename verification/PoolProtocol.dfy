/** The request pool as an interleaved transition system: one action per atomic
    addition or channel operation of a caller, a worker, or the shutdown.

    The counters change at other moments than the queue, so their meaning is
    only visible through the program counters of all callers and workers. */
module PoolProtocol {
  import opened Counting

  /** Where a worker stands in its loop. */
  datatype WorkerPc =
    | Selecting            // blocked in the select
    | Took(req: nat)       // received a request; activeCount not yet raised
    | Raised(req: nat)     // activeCount raised; waitingCount not yet lowered
    | Serving(req: nat)    // in processRequest; Done still open
    | Closing(req: nat)    // Done closed; activeCount not yet lowered
    | Exited

  /** Where a ServeWithHeaders call stands. Call number c owns request number c. */
  datatype CallerPc =
    | Counted     // waitingCount raised; not yet at the send
    | Rejecting   // the queue was full; waitingCount not yet lowered
    | Rejected    // returned "queue full"
    | Awaiting    // request is in the pool; waiting for Done or its context
    | Served      // returned because Done was closed
    | Abandoned   // returned because its own context ended
    | Panicked    // sent on the closed queue

  /** Progress of Shutdown. */
  datatype Phase = Up | Cancelled | QueueClosed | Down

  /** `accepted`, `started` and `finished` record, in order, the requests that
      entered the queue, were taken by a worker, and had Done closed. */
  datatype Pool = Pool(
    capacity: nat,
    limit: int,
    queue: seq<nat>,
    active: int,
    waiting: int,
    workers: seq<WorkerPc>,
    callers: seq<CallerPc>,
    phase: Phase,
    accepted: seq<nat>,
    started: seq<nat>,
    finished: seq<nat>)

  datatype Action =
    | Arrive
    | Enqueue(c: nat)
    | Handoff(c: nat, w: nat)
    | FindFull(c: nat)
    | Uncount(c: nat)
    | SendOnClosed(c: nat)
    | LeaveServed(c: nat)
    | LeaveEarly(c: nat)
    | Receive(w: nat)
    | Raise(w: nat)
    | Lower(w: nat)
    | CloseDone(w: nat)
    | Finish(w: nat)
    | Exit(w: nat)
    | Cancel
    | CloseQueue
    | WaitWorkers
    | Resize(limit: int)

  /** NewRequestPool: at least one worker, whatever limit is asked for. */
  function WorkerCount(maxConcur: int): nat {
    if maxConcur < 1 then 1 else maxConcur
  }

  function Init(maxConcur: int, capacity: nat): Pool {
    Pool(capacity, WorkerCount(maxConcur), [], 0, 0,
         seq(WorkerCount(maxConcur), _ => Selecting), [], Up, [], [], [])
  }

  predicate CallerAt(p: Pool, c: nat, pc: CallerPc) {
    c < |p.callers| && p.callers[c] == pc
  }

  predicate QueueOpen(p: Pool) {
    p.phase.Up? || p.phase.Cancelled?
  }

  predicate Enabled(p: Pool, a: Action) {
    match a
    case Arrive => true
    case Enqueue(c) => CallerAt(p, c, Counted) && QueueOpen(p) && |p.queue| < p.capacity
    case Handoff(c, w) =>
      // a send that meets a receiver already waiting on the empty channel
      CallerAt(p, c, Counted) && QueueOpen(p) && p.queue == []
      && w < |p.workers| && p.workers[w].Selecting?
    case FindFull(c) => CallerAt(p, c, Counted) && QueueOpen(p) && |p.queue| == p.capacity
    case Uncount(c) => CallerAt(p, c, Rejecting)
    case SendOnClosed(c) => CallerAt(p, c, Counted) && !QueueOpen(p)
    case LeaveServed(c) => CallerAt(p, c, Awaiting) && c in p.finished
    case LeaveEarly(c) => CallerAt(p, c, Awaiting)
    case Receive(w) => w < |p.workers| && p.workers[w].Selecting? && p.queue != []
    case Raise(w) => w < |p.workers| && p.workers[w].Took?
    case Lower(w) => w < |p.workers| && p.workers[w].Raised?
    case CloseDone(w) => w < |p.workers| && p.workers[w].Serving?
    case Finish(w) => w < |p.workers| && p.workers[w].Closing?
    case Exit(w) => w < |p.workers| && p.workers[w].Selecting? && !p.phase.Up?
    case Cancel => p.phase.Up?
    case CloseQueue => p.phase.Cancelled?
    case WaitWorkers => p.phase.QueueClosed? && AllExited(p)
    case Resize(_) => true
  }

  predicate AllExited(p: Pool) {
    forall w :: 0 <= w < |p.workers| ==> p.workers[w].Exited?
  }

  function Apply(p: Pool, a: Action): Pool
    requires Enabled(p, a)
  {
    match a
    case Arrive => p.(waiting := p.waiting + 1, callers := p.callers + [Counted])
    case Enqueue(c) =>
      p.(queue := p.queue + [c], accepted := p.accepted + [c], callers := p.callers[c := Awaiting])
    case Handoff(c, w) =>
      p.(accepted := p.accepted + [c], started := p.started + [c],
         callers := p.callers[c := Awaiting], workers := p.workers[w := Took(c)])
    case FindFull(c) => p.(callers := p.callers[c := Rejecting])
    case Uncount(c) => p.(waiting := p.waiting - 1, callers := p.callers[c := Rejected])
    case SendOnClosed(c) => p.(callers := p.callers[c := Panicked])
    case LeaveServed(c) => p.(callers := p.callers[c := Served])
    case LeaveEarly(c) => p.(callers := p.callers[c := Abandoned])
    case Receive(w) =>
      p.(queue := p.queue[1..], started := p.started + [p.queue[0]],
         workers := p.workers[w := Took(p.queue[0])])
    case Raise(w) => p.(active := p.active + 1, workers := p.workers[w := Raised(p.workers[w].req)])
    case Lower(w) => p.(waiting := p.waiting - 1, workers := p.workers[w := Serving(p.workers[w].req)])
    case CloseDone(w) =>
      p.(finished := p.finished + [p.workers[w].req], workers := p.workers[w := Closing(p.workers[w].req)])
    case Finish(w) => p.(active := p.active - 1, workers := p.workers[w := Selecting])
    case Exit(w) => p.(workers := p.workers[w := Exited])
    case Cancel => p.(phase := Cancelled)
    case CloseQueue => p.(phase := QueueClosed)
    case WaitWorkers => p.(phase := Down)
    case Resize(n) => p.(limit := n)
  }

  predicate WorkerAction(a: Action) {
    a.Receive? || a.Raise? || a.Lower? || a.CloseDone? || a.Finish? || a.Exit?
  }

  /** Actions of one caller other than its arrival and a hand-over to a worker. */
  predicate CallerAction(a: Action) {
    a.Enqueue? || a.FindFull? || a.Uncount? || a.SendOnClosed? || a.LeaveServed? || a.LeaveEarly?
  }

  /** A run: every action enabled where it happens. */
  predicate Runs(p: Pool, acts: seq<Action>)
    decreases |acts|
  {
    acts == [] || (Enabled(p, acts[0]) && Runs(Apply(p, acts[0]), acts[1..]))
  }

  function After(p: Pool, acts: seq<Action>): Pool
    requires Runs(p, acts)
    decreases |acts|
  {
    if acts == [] then p else After(Apply(p, acts[0]), acts[1..])
  }

  /** A run followed by a run is a run. */
  lemma {:induction false} RunsAppend(p: Pool, acts: seq<Action>, more: seq<Action>)
    requires Runs(p, acts) && Runs(After(p, acts), more)
    ensures Runs(p, acts + more) && After(p, acts + more) == After(After(p, acts), more)
    decreases |acts|
  {
    if acts == [] {
      assert acts + more == more;
    } else {
      assert (acts + more)[1..] == acts[1..] + more;
      RunsAppend(Apply(p, acts[0]), acts[1..], more);
    }
  }

  // ---------- What the counters mean ----------

  /** Callers whose raise of waitingCount is not matched by a queue entry. */
  predicate CountedOutside(c: CallerPc) { c.Counted? || c.Rejecting? || c.Panicked? }

  /** Workers that hold a request still included in waitingCount. */
  predicate StillWaiting(w: WorkerPc) { w.Took? || w.Raised? }

  /** Workers between their raise and their lowering of activeCount. */
  predicate IsActive(w: WorkerPc) { w.Raised? || w.Serving? || w.Closing? }

  /** Workers holding a request whose Done is still open. */
  predicate Busy(w: WorkerPc) { w.Took? || w.Raised? || w.Serving? }

  predicate Admitted(c: CallerPc) { c.Awaiting? || c.Served? || c.Abandoned? }

  predicate Holds(w: WorkerPc, r: nat) { Busy(w) && w.req == r }

  /** How many workers hold request r open. */
  function Holders(ws: seq<WorkerPc>, r: nat): nat {
    Count(ws, w => Holds(w, r))
  }

  /** How often r occurs in s. */
  function Times(s: seq<nat>, r: nat): nat {
    multiset(s)[r]
  }

  ghost predicate CountersMean(p: Pool) {
    && p.waiting == |p.queue| + Count(p.callers, CountedOutside) + Count(p.workers, StillWaiting)
    && p.active == Count(p.workers, IsActive)
    && |p.started| == |p.finished| + Count(p.workers, Busy)
  }

  /** Conservation: what entered is finished, held, or queued, in order and once. */
  ghost predicate RequestsConserved(p: Pool) {
    && p.accepted == p.started + p.queue
    && (forall r: nat :: Times(p.started, r) == Times(p.finished, r) + Holders(p.workers, r))
    && (forall r: nat :: Times(p.accepted, r) == Bit(r < |p.callers| && Admitted(p.callers[r])))
    && (forall r: nat :: CallerAt(p, r, Served) ==> r in p.finished)
  }

  ghost predicate PhaseAgrees(p: Pool) {
    && |p.queue| <= p.capacity
    && (p.phase.Down? ==> AllExited(p))
    && (p.phase.Up? ==> forall w :: 0 <= w < |p.workers| ==> !p.workers[w].Exited?)
  }

  ghost predicate Inv(p: Pool) {
    CountersMean(p) && RequestsConserved(p) && PhaseAgrees(p)
  }

  lemma {:induction false} InitInv(maxConcur: int, capacity: nat)
    ensures Inv(Init(maxConcur, capacity))
  {
    var p := Init(maxConcur, capacity);
    CountNone(p.workers, StillWaiting);
    CountNone(p.workers, IsActive);
    CountNone(p.workers, Busy);
    forall r: nat ensures Holders(p.workers, r) == 0 {
      CountNone(p.workers, w => Holds(w, r));
    }
  }

  lemma StepKeepsCounters(p: Pool, a: Action)
    requires Enabled(p, a) && CountersMean(p)
    ensures CountersMean(Apply(p, a))
  {
    if WorkerAction(a) {
      WorkerStepKeepsCounters(p, a);
    } else if CallerAction(a) {
      CountUpdate(p.callers, a.c, Apply(p, a).callers[a.c], CountedOutside);
    } else if a.Handoff? {
      CountUpdate(p.callers, a.c, Awaiting, CountedOutside);
      WorkerCounts(p, a.w, Took(a.c));
    } else if a.Arrive? {
      CountAppend(p.callers, [Counted], CountedOutside);
    }
  }

  lemma WorkerStepKeepsCounters(p: Pool, a: Action)
    requires Enabled(p, a) && CountersMean(p) && WorkerAction(a)
    ensures CountersMean(Apply(p, a))
  {
    WorkerCounts(p, a.w, Apply(p, a).workers[a.w]);
  }

  lemma WorkerCounts(p: Pool, w: nat, pc: WorkerPc)
    requires w < |p.workers|
    ensures Count(p.workers[w := pc], StillWaiting)
         == Count(p.workers, StillWaiting) - Bit(StillWaiting(p.workers[w])) + Bit(StillWaiting(pc))
    ensures Count(p.workers[w := pc], IsActive)
         == Count(p.workers, IsActive) - Bit(IsActive(p.workers[w])) + Bit(IsActive(pc))
    ensures Count(p.workers[w := pc], Busy)
         == Count(p.workers, Busy) - Bit(Busy(p.workers[w])) + Bit(Busy(pc))
  {
    CountUpdate(p.workers, w, pc, Busy);
    CountUpdate(p.workers, w, pc, StillWaiting);
    CountUpdate(p.workers, w, pc, IsActive);
  }

  lemma HoldersAfter(ws: seq<WorkerPc>, w: nat, pc: WorkerPc)
    requires w < |ws|
    ensures forall r: nat :: Holders(ws[w := pc], r) == Holders(ws, r) - Bit(Holds(ws[w], r)) + Bit(Holds(pc, r))
  {
    forall r: nat
      ensures Holders(ws[w := pc], r) == Holders(ws, r) - Bit(Holds(ws[w], r)) + Bit(Holds(pc, r))
    {
      CountUpdate(ws, w, pc, x => Holds(x, r));
    }
  }

  lemma TimesAppend(s: seq<nat>, x: nat)
    ensures forall r: nat :: Times(s + [x], r) == Times(s, r) + Bit(r == x)
  {
  }

  lemma CallerStepKeepsRequests(p: Pool, a: Action)
    requires Enabled(p, a) && RequestsConserved(p)
    requires a.Arrive? || (CallerAction(a) && !a.Enqueue?)
    ensures RequestsConserved(Apply(p, a))
  {
    var q := Apply(p, a);
    assert forall r: nat :: (r < |q.callers| && Admitted(q.callers[r])) == (r < |p.callers| && Admitted(p.callers[r]));
  }

  lemma EnqueueKeepsRequests(p: Pool, c: nat)
    requires Enabled(p, Enqueue(c)) && RequestsConserved(p)
    ensures RequestsConserved(Apply(p, Enqueue(c)))
  {
    var q := Apply(p, Enqueue(c));
    TimesAppend(p.accepted, c);
    assert p.started + (p.queue + [c]) == p.accepted + [c];
    assert forall r: nat :: r < |q.callers| ==> q.callers[r] == if r == c then Awaiting else p.callers[r];
  }

  lemma WorkerStepKeepsRequests(p: Pool, a: Action)
    requires Enabled(p, a) && RequestsConserved(p)
    requires WorkerAction(a) && !a.Receive?
    ensures RequestsConserved(Apply(p, a))
  {
    HoldersAfter(p.workers, a.w, Apply(p, a).workers[a.w]);
    if a.CloseDone? {
      TimesAppend(p.finished, p.workers[a.w].req);
    }
  }

  lemma ReceiveKeepsRequests(p: Pool, w: nat)
    requires Enabled(p, Receive(w)) && RequestsConserved(p)
    ensures RequestsConserved(Apply(p, Receive(w)))
  {
    var head := p.queue[0];
    HoldersAfter(p.workers, w, Took(head));
    TimesAppend(p.started, head);
    assert (p.started + [head]) + p.queue[1..] == p.started + p.queue;
  }

  lemma HandoffKeepsRequests(p: Pool, c: nat, w: nat)
    requires Enabled(p, Handoff(c, w)) && RequestsConserved(p)
    ensures RequestsConserved(Apply(p, Handoff(c, w)))
  {
    var q := Apply(p, Handoff(c, w));
    HoldersAfter(p.workers, w, Took(c));
    TimesAppend(p.started, c);
    assert p.accepted == p.started;
    assert q.accepted == q.started + q.queue;
    assert forall r: nat :: r < |q.callers| ==> q.callers[r] == if r == c then Awaiting else p.callers[r];
  }

  lemma StepKeepsInv(p: Pool, a: Action)
    requires Enabled(p, a) && Inv(p)
    ensures Inv(Apply(p, a))
  {
    StepKeepsCounters(p, a);
    StepKeepsPhase(p, a);
    if a.Receive? {
      ReceiveKeepsRequests(p, a.w);
    } else if WorkerAction(a) {
      WorkerStepKeepsRequests(p, a);
    } else if a.Handoff? {
      HandoffKeepsRequests(p, a.c, a.w);
    } else if a.Enqueue? {
      EnqueueKeepsRequests(p, a.c);
    } else if CallerAction(a) || a.Arrive? {
      CallerStepKeepsRequests(p, a);
    }
  }

  lemma StepKeepsPhase(p: Pool, a: Action)
    requires Enabled(p, a) && PhaseAgrees(p)
    ensures PhaseAgrees(Apply(p, a))
  {
  }

  lemma {:induction false} RunKeepsInv(p: Pool, acts: seq<Action>)
    requires Runs(p, acts) && Inv(p)
    ensures Inv(After(p, acts))
    ensures |After(p, acts).workers| == |p.workers|
    decreases |acts|
  {
    if acts != [] {
      StepKeepsInv(p, acts[0]);
      RunKeepsInv(Apply(p, acts[0]), acts[1..]);
    }
  }

  /** A request held open by a worker has not been finished by anyone. */
  lemma HeldIsOpen(p: Pool, w: nat)
    requires RequestsConserved(p) && w < |p.workers| && Busy(p.workers[w])
    ensures p.workers[w].req !in p.finished
  {
    var r := p.workers[w].req;
    CountUpdate(p.workers, w, Exited, x => Holds(x, r));
    assert Holders(p.workers, r) >= 1;
    assert multiset(p.accepted) == multiset(p.started) + multiset(p.queue);
    assert Times(p.accepted, r) == Times(p.started, r) + Times(p.queue, r);
    assert r in p.finished <==> r in multiset(p.finished);
  }
}
