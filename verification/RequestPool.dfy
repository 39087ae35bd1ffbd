/** The pool object of internal/pool/pool.go with whole calls of its callers, of a worker and
    of Shutdown as methods. Between two atomic steps of a method the others may take any
    steps that are enabled, and the object records every step in `run`: whatever
    PoolGuarantees proves of every run holds of this object at every moment.

    A method describes the calls that return. One that blocks for ever is a run in which the
    step it waits for never comes. */
module RequestPoolObject {
  import opened Models
  import opened PoolProtocol
  import opened PoolGuarantees
  import opened PoolVisits

  /** Who executes a method: a call, a worker, Shutdown, or somebody who only looks on. */
  datatype Party = TheCaller(c: nat) | TheWorker(w: nat) | TheCloser | Onlooker

  /** The steps that only this party takes; a hand-over is a step of both sides. */
  predicate ActsFor(a: Action, who: Party) {
    match who
    case TheCaller(c) => (CallerAction(a) || a.Handoff?) && a.c == c
    case TheWorker(w) => (WorkerAction(a) || a.Handoff?) && a.w == w
    case TheCloser => a.Cancel? || a.CloseQueue? || a.WaitWorkers?
    case Onlooker => false
  }

  /** How far Shutdown has come. */
  function Progress(phase: Phase): nat {
    match phase case Up => 0 case Cancelled => 1 case QueueClosed => 2 case Down => 3
  }

  /** What a party may rely on while the others take steps. */
  ghost predicate Relied(p: Pool, q: Pool, who: Party) {
    && (forall r :: r in p.finished ==> r in q.finished)
    && |p.callers| <= |q.callers| && |p.workers| == |q.workers|
    && Progress(p.phase) <= Progress(q.phase)
    && (!QueueOpen(p) ==> !QueueOpen(q) && DrainBound(q) <= DrainBound(p))
    && match who
       case TheCaller(c) => c < |p.callers| ==> q.callers[c] == p.callers[c]
       case TheWorker(w) => w < |p.workers| ==> q.workers[w] == p.workers[w]
       case TheCloser => q.phase == p.phase
       case Onlooker => true
  }

  lemma OthersStep(p: Pool, a: Action, who: Party)
    requires Enabled(p, a) && !ActsFor(a, who)
    ensures Relied(p, Apply(p, a), who)
  {
    if !QueueOpen(p) {
      DrainStep(p, a);
    }
  }

  lemma ReliedTransitive(p: Pool, q: Pool, r: Pool, who: Party)
    requires Relied(p, q, who) && Relied(q, r, who)
    ensures Relied(p, r, who)
  {
  }

  /** The request is taken by no worker and finished by none, now or ever. */
  ghost predicate NeverRuns(p: Pool, r: nat) {
    forall more :: Runs(p, more) ==> r !in After(p, more).started && r !in After(p, more).finished
  }

  /** Done of the request was closed, once, and nothing of it is left in the pool. */
  ghost predicate DoneOnce(p: Pool, r: nat) {
    Times(p.finished, r) == 1 && Times(p.queue, r) == 0 && Holders(p.workers, r) == 0
  }

  /** The request is queued, held by one worker, or done. */
  ghost predicate InPool(p: Pool, r: nat) {
    Times(p.queue, r) + Holders(p.workers, r) + Times(p.finished, r) == 1
  }

  /** What one turn of a worker's loop comes to. */
  datatype Turn = Processed(req: nat) | Left | StillWaits

  class RequestPool {
    const capacity: nat
    var maxConcur: int
    var queue: seq<nat>
    var activeCount: int
    var waitingCount: int
    var workers: seq<WorkerPc>
    var calls: seq<CallerPc>
    var phase: Phase
    var accepted: seq<nat>
    var started: seq<nat>
    var finished: seq<nat>      // the requests whose Done is closed
    ghost const limit: int
    ghost var run: seq<Action>

    function State(): Pool
      reads this
    {
      Pool(capacity, maxConcur, queue, activeCount, waitingCount, workers, calls, phase, accepted, started, finished)
    }

    ghost predicate Valid()
      reads this
    {
      Runs(Init(limit, capacity), run) && State() == After(Init(limit, capacity), run)
    }

    /** NewRequestPool: raises a limit below one to one and starts that many workers. */
    constructor (maxConcurrent: int, queueCapacity: nat)
      ensures Valid() && run == [] && limit == maxConcurrent && capacity == queueCapacity
      ensures maxConcurrent >= 1 ==> |workers| == maxConcur == maxConcurrent
      ensures maxConcurrent < 1 ==> |workers| == maxConcur == 1
    {
      capacity, limit := queueCapacity, maxConcurrent;
      maxConcur := if maxConcurrent < 1 then 1 else maxConcurrent;
      queue, activeCount, waitingCount := [], 0, 0;
      calls, phase := [], Up;
      accepted, started, finished := [], [], [];
      workers, run := [], [];
      new;
      for i := 0 to maxConcur
        invariant workers == seq(i, _ => Selecting)
        invariant State() == Init(limit, capacity).(workers := workers) && run == []
      {
        workers := workers + [Selecting];
      }
    }

    /** Enters into `run` the step that the fields have just made. */
    ghost method Record(base: seq<Action>, before: Pool, a: Action)
      requires base <= run && Runs(Init(limit, capacity), run) && before == After(Init(limit, capacity), run)
      requires Enabled(before, a) && State() == Apply(before, a)
      modifies this`run
      ensures Valid() && base <= run
    {
      RunsAppend(Init(limit, capacity), run, [a]);
      run := run + [a];
    }

    lemma Reached()
      requires Valid()
      ensures Inv(State())
    {
      ReachableInv(limit, capacity, run);
    }

    /** One step of somebody else: of another call, another worker, or of the pool manager
        when it resizes a live pool. */
    method Perform(a: Action, ghost base: seq<Action>)
      requires Valid() && base <= run && Enabled(State(), a)
      modifies this
      ensures Valid() && base <= run
      ensures State() == old(Apply(State(), a))
    {
      ghost var before := State();
      var p := Apply(State(), a);
      maxConcur, queue, activeCount, waitingCount := p.limit, p.queue, p.active, p.waiting;
      workers, calls, phase := p.workers, p.callers, p.phase;
      accepted, started, finished := p.accepted, p.started, p.finished;
      Record(base, before, a);
    }

    /** Any number of steps of the others, in any order. */
    method Interfere(who: Party, ghost base: seq<Action>)
      requires Valid() && base <= run
      modifies this
      ensures Valid() && base <= run
      ensures Relied(old(State()), State(), who)
    {
      var schedule: seq<Action> := *;
      for i := 0 to |schedule|
        invariant Valid() && base <= run
        invariant Relied(old(State()), State(), who)
      {
        var a := schedule[i];
        if Enabled(State(), a) && !ActsFor(a, who) {
          OthersStep(State(), a, who);
          ReliedTransitive(old(State()), State(), Apply(State(), a), who);
          Perform(a, base);
        }
      }
    }

    // ---------- A call ----------

    /** ServeWithHeaders. The call counts itself, tries to send, and waits for Done or for
        its context. Nil means that the request was processed, exactly once; "queue full"
        and the panic on a closed queue mean that no worker ever takes it; after an ended
        context it is still queued, held or done. Only the panic leaves the call counted as
        waiting for good. */
    method ServeWithHeaders() returns (c: nat, outcome: Outcome)
      requires Valid()
      modifies this
      ensures Valid() && old(run) <= run
      ensures c == |old(calls)| < |calls| && Ends(Visit(limit, capacity, run, c), outcome)
      ensures outcome.Nil? ==> DoneOnce(State(), c)
      ensures outcome.QueueFull? || outcome.Crashed? ==> c !in accepted && NeverRuns(State(), c)
      ensures outcome.Crashed? ==> !QueueOpen(State())
      ensures outcome.ContextEnded? ==> c in accepted && InPool(State(), c)
      ensures CountedOutside(calls[c]) <==> outcome.Crashed?
    {
      ghost var base, before := run, State();
      c := |calls|;
      waitingCount := waitingCount + 1;
      calls := calls + [Counted];
      Record(base, before, Arrive);
      Interfere(TheCaller(c), base);
      var pc := TrySend(c, base);
      Interfere(TheCaller(c), base);
      outcome := Await(c, base);
    }

    /** What follows the send: the panic, the count taken back, or the wait. */
    method Await(c: nat, ghost base: seq<Action>) returns (outcome: Outcome)
      requires Valid() && base <= run && c < |calls| && (calls[c].Panicked? || calls[c].Rejecting? || calls[c].Awaiting?)
      requires calls[c].Panicked? ==> !QueueOpen(State())
      modifies this
      ensures Valid() && base <= run && |calls| == |old(calls)|
      ensures Ending(calls[c]) == Some(outcome)
      ensures outcome.Nil? ==> DoneOnce(State(), c)
      ensures outcome.QueueFull? || outcome.Crashed? ==> c !in accepted && NeverRuns(State(), c)
      ensures outcome.Crashed? ==> !QueueOpen(State())
      ensures outcome.ContextEnded? ==> c in accepted && InPool(State(), c)
      ensures CountedOutside(calls[c]) <==> outcome.Crashed?
    {
      if calls[c].Panicked? {
        NoRun(c);
        return Crashed;
      }
      ghost var before := State();
      if calls[c].Rejecting? {
        waitingCount := waitingCount - 1;
        calls := calls[c := Rejected];
        Record(base, before, Uncount(c));
        NoRun(c);
        return QueueFull;
      }
      outcome := AwaitDone(c, base);
    }

    /** The last select: Done or the context, whichever is picked when both are ready. */
    method AwaitDone(c: nat, ghost base: seq<Action>) returns (outcome: Outcome)
      requires Valid() && base <= run && CallerAt(State(), c, Awaiting)
      modifies this
      ensures Valid() && base <= run && |calls| == |old(calls)|
      ensures Ending(calls[c]) == Some(outcome) && (outcome.Nil? || outcome.ContextEnded?)
      ensures outcome.Nil? ==> DoneOnce(State(), c)
      ensures outcome.ContextEnded? ==> c in accepted && InPool(State(), c)
    {
      ghost var before := State();
      var doneFirst: bool := *;
      if c in finished && doneFirst {
        calls := calls[c := Served];
        Record(base, before, LeaveServed(c));
        outcome := Nil;
      } else {
        calls := calls[c := Abandoned];
        Record(base, before, LeaveEarly(c));
        outcome := ContextEnded;
      }
      ExactlyOnePlace(limit, capacity, run, c);
    }

    /** The send with a default branch: to a worker already waiting on the empty channel, into
        the buffer, or not at all; a panic once Shutdown has closed the queue. */
    method TrySend(c: nat, ghost base: seq<Action>) returns (pc: CallerPc)
      requires Valid() && base <= run && CallerAt(State(), c, Counted)
      modifies this
      ensures Valid() && base <= run
      ensures CallerAt(State(), c, pc) && |calls| == |old(calls)|
      ensures pc.Panicked? <==> !old(QueueOpen(State()))
      ensures pc.Rejecting? ==> old(|queue| == capacity)
      ensures pc.Panicked? || pc.Rejecting? || (pc.Awaiting? && accepted == old(accepted) + [c])
      ensures QueueOpen(State()) == old(QueueOpen(State()))
    {
      BufferBounded();
      ghost var before := State();
      var direct: bool := *;
      var receiver: int := *;
      if phase.QueueClosed? || phase.Down? {
        pc := Panicked;
        calls := calls[c := pc];
        Record(base, before, SendOnClosed(c));
      } else if direct && queue == [] && 0 <= receiver < |workers| && workers[receiver].Selecting? {
        pc := Awaiting;
        HandOver(c, receiver, base);
      } else if |queue| < capacity {
        pc := Awaiting;
        calls := calls[c := pc];
        queue, accepted := queue + [c], accepted + [c];
        Record(base, before, Enqueue(c));
      } else {
        pc := Rejecting;
        calls := calls[c := pc];
        Record(base, before, FindFull(c));
      }
    }

    /** The send meets a receiver that is already waiting. */
    method HandOver(c: nat, w: nat, ghost base: seq<Action>)
      requires Valid() && base <= run && Enabled(State(), Handoff(c, w))
      modifies this
      ensures Valid() && base <= run && phase == old(phase)
      ensures calls == old(calls)[c := Awaiting] && workers == old(workers)[w := Took(c)]
      ensures accepted == old(accepted) + [c] && finished == old(finished)
    {
      ghost var before := State();
      calls := calls[c := Awaiting];
      workers := workers[w := Took(c)];
      accepted, started := accepted + [c], started + [c];
      Record(base, before, Handoff(c, w));
    }

    lemma BufferBounded()
      requires Valid()
      ensures |queue| <= capacity
    {
      CountersExplained(limit, capacity, run);
    }

    lemma NoRun(c: nat)
      requires Valid() && c < |calls| && TurnedAway(calls[c])
      ensures c !in accepted && NeverRuns(State(), c)
    {
      forall more | Runs(State(), more) ensures c !in After(State(), more).started && c !in After(State(), more).finished {
        RejectedNeverRuns(limit, capacity, run, more, c);
      }
      RejectedNeverRuns(limit, capacity, run, [], c);
    }

    // ---------- A worker ----------

    /** One turn of worker.run. A request the worker takes is one that nobody has finished,
        and when the turn is over its Done has been closed exactly once. The worker leaves
        only after the shutdown has begun, and waits only while there is nothing to do. */
    method ServeOne(w: nat) returns (turn: Turn)
      requires Valid() && w < |workers| && workers[w].Selecting?
      modifies this
      ensures Valid() && old(run) <= run && |workers| == |old(workers)|
      ensures turn.Processed? ==> turn.req in accepted && turn.req !in old(finished) && DoneOnce(State(), turn.req)
      ensures turn.Processed? || turn.StillWaits? ==> workers[w].Selecting?
      ensures turn.Left? ==> workers[w].Exited? && !phase.Up?
      ensures turn.StillWaits? ==> phase.Up? && queue == []
    {
      ghost var base := run;
      Interfere(TheWorker(w), base);
      turn := Select(w, base);
      if turn.Processed? {
        Process(w, turn.req, base);
      }
    }

    /** The select of worker.run: leave, or receive the oldest request, or be handed one. */
    method Select(w: nat, ghost base: seq<Action>) returns (turn: Turn)
      requires Valid() && base <= run && w < |workers| && workers[w].Selecting?
      modifies this
      ensures Valid() && base <= run && |workers| == |old(workers)| && phase == old(phase) && finished == old(finished)
      ensures turn.Processed? ==> workers[w] == Took(turn.req) && (old(queue) != [] ==> turn.req == old(queue)[0])
      ensures turn.Left? ==> workers[w].Exited? && !phase.Up?
      ensures turn.StillWaits? ==> workers[w].Selecting? && phase.Up? && queue == []
    {
      ghost var before := State();
      var leaves: bool := *;
      var sender: int := *;
      if !phase.Up? && (leaves || queue == []) {
        workers := workers[w := WorkerPc.Exited];
        Record(base, before, Exit(w));
        turn := Left;
      } else if queue != [] {
        turn := Processed(queue[0]);
        workers := workers[w := Took(queue[0])];
        queue, started := queue[1..], started + [queue[0]];
        Record(base, before, Receive(w));
      } else if 0 <= sender < |calls| && calls[sender].Counted? {
        turn := Processed(sender);
        HandOver(sender, w, base);
      } else {
        turn := StillWaits;
      }
    }

    /** From the receive to the next select. */
    method Process(w: nat, req: nat, ghost base: seq<Action>)
      requires Valid() && base <= run && w < |workers| && workers[w] == Took(req)
      modifies this
      ensures Valid() && base <= run && |workers| == |old(workers)|
      ensures workers[w].Selecting?
      ensures req in accepted && req !in old(finished) && DoneOnce(State(), req)
    {
      Start(w, req, base);
      Interfere(TheWorker(w), base);
      Complete(w, req, base);
      Interfere(TheWorker(w), base);
      ghost var before := State();
      activeCount := activeCount - 1;
      workers := workers[w := Selecting];
      Record(base, before, Finish(w));
      FinishedOnce(req);
    }

    /** activeCount goes up before waitingCount goes down. */
    method Start(w: nat, req: nat, ghost base: seq<Action>)
      requires Valid() && base <= run && w < |workers| && workers[w] == Took(req)
      modifies this
      ensures Valid() && base <= run && |workers| == |old(workers)|
      ensures workers[w] == Serving(req) && forall r :: r in old(finished) ==> r in finished
    {
      Interfere(TheWorker(w), base);
      ghost var before := State();
      activeCount := activeCount + 1;
      workers := workers[w := Raised(req)];
      Record(base, before, Raise(w));
      Interfere(TheWorker(w), base);
      before := State();
      waitingCount := waitingCount - 1;
      workers := workers[w := Serving(req)];
      Record(base, before, Lower(w));
    }

    /** The end of processRequest: closing Done a second time would panic, and the request is
        not among those already finished. */
    method Complete(w: nat, req: nat, ghost base: seq<Action>)
      requires Valid() && base <= run && w < |workers| && workers[w] == Serving(req)
      modifies this
      ensures Valid() && base <= run && |workers| == |old(workers)|
      ensures workers[w] == Closing(req)
      ensures req !in old(finished) && finished == old(finished) + [req]
    {
      Reached();
      HeldIsOpen(State(), w);
      ghost var before := State();
      finished := finished + [req];
      workers := workers[w := Closing(req)];
      Record(base, before, CloseDone(w));
    }

    lemma FinishedOnce(r: nat)
      requires Valid() && r in finished
      ensures r in accepted && DoneOnce(State(), r)
    {
      ExactlyOnePlace(limit, capacity, run, r);
      assert r in multiset(finished);
    }

    // ---------- Shutdown ----------

    /** Shutdown: cancels, closes the queue and waits for the workers, which take at most
        DrainBound steps from then on. A later call waits until the first one is done. When a
        call returns nothing is active and every accepted request is done or still in the
        queue, never both. */
    method Shutdown()
      requires Valid()
      modifies this
      ensures Valid() && old(run) <= run
      ensures phase.Down? && AllExited(State())
      ensures activeCount == 0 && forall r :: r in accepted ==> (r in finished) != (r in queue)
    {
      ghost var base := run;
      if phase.Up? {
        CloseDown(base);
        Wait(base);
        ghost var before := State();
        phase := Down;
        Record(base, before, WaitWorkers);
      } else {
        AwaitFirst(base);
      }
      Reached();
      ShutdownLeavesNothingActive(limit, capacity, run);
    }

    /** sync.Once makes a second call wait for the first, whose steps are steps of others. */
    method AwaitFirst(ghost base: seq<Action>)
      requires Valid() && base <= run && !phase.Up?
      modifies this
      ensures Valid() && base <= run && phase.Down?
    {
      Interfere(Onlooker, base);
      if phase.Cancelled? {
        Perform(CloseQueue, base);
      }
      while !phase.Down?
        invariant Valid() && base <= run && (phase.QueueClosed? || phase.Down?)
        decreases DrainBound(State()), 3 - Progress(phase)
      {
        var next := NextOfShutdown(State());
        DrainStep(State(), next);
        Perform(next, base);
        Interfere(Onlooker, base);
      }
    }

    /** The context is cancelled before the queue is closed. Closing the workers' own channels
        in between enables nothing that the cancellation has not enabled. */
    method CloseDown(ghost base: seq<Action>)
      requires Valid() && base <= run && phase.Up?
      modifies this
      ensures Valid() && base <= run && phase.QueueClosed?
    {
      ghost var before := State();
      phase := Cancelled;
      Record(base, before, Cancel);
      Interfere(TheCloser, base);
      before := State();
      phase := QueueClosed;
      Record(base, before, CloseQueue);
    }

    /** workerWG.Wait(): as long as some worker has not exited, one of those takes its next
        step, among any steps of the others. */
    method Wait(ghost base: seq<Action>)
      requires Valid() && base <= run && phase.QueueClosed?
      modifies this
      ensures Valid() && base <= run
      ensures phase.QueueClosed? && AllExited(State())
    {
      Interfere(TheCloser, base);
      while !AllExited(State())
        invariant Valid() && base <= run && phase.QueueClosed?
        decreases DrainBound(State())
      {
        var next := NextOfShutdown(State());
        DrainStep(State(), next);
        Perform(next, base);
        Interfere(TheCloser, base);
      }
    }
  }

  /** The next step of a closed pool: of a worker that has not exited, or the end of the wait. */
  function NextOfShutdown(p: Pool): (a: Action)
    requires p.phase.QueueClosed?
    ensures Enabled(p, a) && (WorkerAction(a) || a.WaitWorkers?)
  {
    if AllExited(p) then WaitWorkers else NextStep(p, FirstRunning(p.workers))
  }

  function FirstRunning(ws: seq<WorkerPc>): (w: nat)
    requires exists i :: 0 <= i < |ws| && !ws[i].Exited?
    ensures w < |ws| && !ws[w].Exited?
  {
    if !ws[0].Exited? then 0 else 1 + FirstRunning(ws[1..])
  }

  /** The step a worker takes next after the shutdown has begun, when it does not find
      another request in the closed queue first. */
  function NextStep(p: Pool, w: nat): (a: Action)
    requires w < |p.workers| && !p.workers[w].Exited? && !p.phase.Up?
    ensures Enabled(p, a) && WorkerAction(a)
  {
    match p.workers[w]
    case Selecting => Exit(w)
    case Took(_) => Raise(w)
    case Raised(_) => Lower(w)
    case Serving(_) => CloseDone(w)
    case Closing(_) => Finish(w)
  }
}
