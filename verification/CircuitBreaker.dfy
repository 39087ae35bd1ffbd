/** The circuit breaker of internal/business/circuitbreaker/circuitbreaker.go, and what
    its state says about the history of calls. */
module CircuitBreakers {
  import opened Models

  const FAILURE_THRESHOLD := 5
  const SUCCESS_THRESHOLD := 2
  const HALF_OPEN_MAX_REQS := 1
  /** Thirty seconds, in nanoseconds. */
  const TIMEOUT := 30_000_000_000

  datatype Mode = Closed | Open | HalfOpen

  datatype Breaker = Breaker(mode: Mode, failures: int, successes: int, lastFailure: int, activeHalfOpen: int)

  datatype Event = AllowAt(now: int) | Success | Failure(now: int) | Reset

  const FRESH := Breaker(Closed, 0, 0, 0, 0)

  /** The state a call of Allow at `now` leaves behind. */
  function AfterAllow(b: Breaker, now: int): Breaker {
    if b.mode.Open? && now - b.lastFailure >= TIMEOUT then b.(mode := HalfOpen, successes := 0, failures := 0) else b
  }

  /** The answer of that call. */
  predicate Admits(b: Breaker, now: int) {
    match AfterAllow(b, now).mode
    case Closed => true
    case Open => false
    case HalfOpen => b.activeHalfOpen < HALF_OPEN_MAX_REQS
  }

  function Apply(b: Breaker, e: Event): Breaker {
    match e
    case AllowAt(now) => AfterAllow(b, now)
    case Success =>
      if b.mode.HalfOpen? then
        var c := b.(activeHalfOpen := b.activeHalfOpen - 1, successes := b.successes + 1);
        if c.successes >= SUCCESS_THRESHOLD then c.(mode := Closed, failures := 0) else c
      else if b.mode.Closed? then b.(failures := 0)
      else b
    case Failure(now) =>
      if b.mode.HalfOpen? then b.(lastFailure := now, activeHalfOpen := b.activeHalfOpen - 1, mode := Open)
      else b.(lastFailure := now, failures := b.failures + 1,
              mode := if b.failures + 1 >= FAILURE_THRESHOLD then Open else b.mode)
    case Reset => b.(mode := Closed, failures := 0, successes := 0, activeHalfOpen := 0)
  }

  function Run(h: seq<Event>): Breaker {
    if h == [] then FRESH else Apply(Run(h[..|h| - 1]), h[|h| - 1])
  }

  // ---------- Reading a history without the breaker ----------

  function LastFailure(h: seq<Event>): Option<int> {
    if h == [] then None
    else if h[|h| - 1].Failure? then Some(h[|h| - 1].now)
    else LastFailure(h[..|h| - 1])
  }

  /** Failures since the last success or reset. */
  function Streak(h: seq<Event>): nat {
    if h == [] then 0
    else
      match h[|h| - 1]
      case AllowAt(_) => Streak(h[..|h| - 1])
      case Failure(_) => Streak(h[..|h| - 1]) + 1
      case Success => 0
      case Reset => 0
  }

  /** Successes from position k on. */
  function SuccessesSince(h: seq<Event>, k: nat): nat
    requires k <= |h|
  {
    if |h| == k then 0
    else SuccessesSince(h[..|h| - 1], k) + (if h[|h| - 1].Success? then 1 else 0)
  }

  /** A request at `now` comes at least TIMEOUT after the last failure. */
  predicate TimedOut(h: seq<Event>, now: int) {
    LastFailure(h).Some? && now - LastFailure(h).value >= TIMEOUT
  }

  /** Open since position k: the failure there was at least the fifth in a row or fell into a
      trial, and since then there was no reset and no request after the timeout. */
  ghost predicate OpenSince(h: seq<Event>, k: nat)
    decreases |h|, 0
  {
    && k < |h| && h[k].Failure? && (TrialBy(h[..k]) || Streak(h[..k]) >= FAILURE_THRESHOLD - 1)
    && forall i :: k < i < |h| ==> !h[i].Reset? && !(h[i].AllowAt? && TimedOut(h[..i], h[i].now))
  }

  ghost predicate OpenBy(h: seq<Event>)
    decreases |h|, 1
  {
    exists k: nat :: OpenSince(h, k)
  }

  /** A trial since position k: a request there came after the timeout of an open breaker,
      and nothing has failed or been reset since. */
  ghost predicate TrialSince(h: seq<Event>, k: nat)
    decreases |h|, 0
  {
    && k < |h| && h[k].AllowAt? && OpenBy(h[..k]) && TimedOut(h[..k], h[k].now)
    && forall i :: k < i < |h| ==> !h[i].Failure? && !h[i].Reset?
  }

  /** A trial is under way: it has not seen its second success. */
  ghost predicate TrialBy(h: seq<Event>)
    decreases |h|, 1
  {
    exists k: nat :: TrialSince(h, k) && SuccessesSince(h, k) < SUCCESS_THRESHOLD
  }

  // ---------- One event longer ----------

  lemma Prefixes(h: seq<Event>, e: Event)
    ensures (h + [e])[..|h|] == h
    ensures forall i :: 0 <= i <= |h| ==> (h + [e])[..i] == h[..i]
  {
  }

  lemma OpenNext(h: seq<Event>, e: Event)
    ensures OpenBy(h + [e]) <==>
              || (e.Failure? && (TrialBy(h) || Streak(h) >= FAILURE_THRESHOLD - 1))
              || (OpenBy(h) && !e.Reset? && !(e.AllowAt? && TimedOut(h, e.now)))
  {
    var g := h + [e];
    Prefixes(h, e);
    if k: nat :| OpenSince(g, k) {
      if k < |h| {
        assert OpenSince(h, k);
        assert !g[|h|].Reset? && !(g[|h|].AllowAt? && TimedOut(g[..|h|], g[|h|].now));
      }
    }
    if e.Failure? && (TrialBy(h) || Streak(h) >= FAILURE_THRESHOLD - 1) {
      assert OpenSince(g, |h|);
    }
    if k: nat :| OpenSince(h, k) {
      assert !e.Reset? && !(e.AllowAt? && TimedOut(h, e.now)) ==> OpenSince(g, k);
    }
  }

  lemma TrialGoesOn(h: seq<Event>, e: Event, k: nat)
    requires k < |h|
    ensures TrialSince(h + [e], k) <==> TrialSince(h, k) && !e.Failure? && !e.Reset?
    ensures SuccessesSince(h + [e], k) == SuccessesSince(h, k) + if e.Success? then 1 else 0
  {
    var g := h + [e];
    Prefixes(h, e);
    assert g[|h|] == e && forall i :: 0 <= i < |h| ==> g[i] == h[i];
  }

  lemma TrialBegins(h: seq<Event>, e: Event)
    ensures TrialSince(h + [e], |h|) <==> e.AllowAt? && OpenBy(h) && TimedOut(h, e.now)
    ensures SuccessesSince(h + [e], |h|) == if e.Success? then 1 else 0
  {
    Prefixes(h, e);
  }

  lemma TrialNext(h: seq<Event>, e: Event)
    ensures TrialBy(h + [e]) <==>
              || (e.AllowAt? && OpenBy(h) && TimedOut(h, e.now))
              || (!e.Failure? && !e.Reset?
                  && exists k: nat :: TrialSince(h, k) && SuccessesSince(h, k) + (if e.Success? then 1 else 0) < SUCCESS_THRESHOLD)
  {
    var g := h + [e];
    TrialBegins(h, e);
    if k: nat :| TrialSince(g, k) && SuccessesSince(g, k) < SUCCESS_THRESHOLD {
      if k < |h| {
        TrialGoesOn(h, e, k);
      }
    }
    if k: nat :| TrialSince(h, k) && SuccessesSince(h, k) + (if e.Success? then 1 else 0) < SUCCESS_THRESHOLD {
      TrialGoesOn(h, e, k);
    }
  }

  /** Two trials cannot overlap: the request that began the first took the breaker out of the
      open state, and only a failure would bring it back. */
  lemma TrialIsUnique(h: seq<Event>, j: nat, k: nat)
    requires TrialSince(h, j) && TrialSince(h, k)
    ensures j == k
  {
    if j < k {
      NotOpenDuringTrial(h, j, k);
    } else if k < j {
      NotOpenDuringTrial(h, k, j);
    }
  }

  lemma NotOpenDuringTrial(h: seq<Event>, j: nat, k: nat)
    requires TrialSince(h, j) && j < k < |h|
    ensures !OpenBy(h[..k])
  {
    var g := h[..k];
    forall m: nat ensures !OpenSince(g, m) {
      assert g[j] == h[j] && g[..j] == h[..j];
      assert m < k ==> g[m] == h[m];
    }
  }

  // ---------- The breaker follows its history ----------

  /** What the breaker says about the history. */
  ghost predicate Explained(h: seq<Event>) {
    var b := Run(h);
    && b.activeHalfOpen <= 0
    && (LastFailure(h).Some? ==> b.lastFailure == LastFailure(h).value)
    && (b.mode.Open? <==> OpenBy(h))
    && (b.mode.HalfOpen? <==> TrialBy(h))
    && match b.mode
       case Closed => b.failures == Streak(h) < FAILURE_THRESHOLD
       case Open => LastFailure(h).Some?
       case HalfOpen => b.failures == 0 && exists k: nat :: TrialSince(h, k) && SuccessesSince(h, k) == b.successes < SUCCESS_THRESHOLD
  }

  lemma HalfOpenStep(h: seq<Event>, e: Event, k: nat)
    requires Explained(h) && TrialSince(h, k) && SuccessesSince(h, k) == Run(h).successes < SUCCESS_THRESHOLD
    ensures Explained(h + [e])
  {
    Prefixes(h, e);
    OpenNext(h, e);
    TrialNext(h, e);
    TrialGoesOn(h, e, k);
    assert Run(h).mode.HalfOpen? by {
      assert TrialBy(h);
    }
    forall j: nat | TrialSince(h, j) ensures j == k {
      TrialIsUnique(h, j, k);
    }
  }

  lemma ExplainedStep(h: seq<Event>, e: Event)
    requires Explained(h)
    ensures Explained(h + [e])
  {
    if Run(h).mode.HalfOpen? {
      var k: nat :| TrialSince(h, k) && SuccessesSince(h, k) == Run(h).successes < SUCCESS_THRESHOLD;
      HalfOpenStep(h, e, k);
    } else {
      Prefixes(h, e);
      OpenNext(h, e);
      TrialNext(h, e);
      TrialBegins(h, e);
    }
  }

  /** Every reachable state is explained by its history. */
  lemma {:induction false} EveryRunExplained(h: seq<Event>)
    ensures Explained(h)
  {
    if h != [] {
      EveryRunExplained(h[..|h| - 1]);
      ExplainedStep(h[..|h| - 1], h[|h| - 1]);
      assert h[..|h| - 1] + [h[|h| - 1]] == h;
    }
  }

  /** After any history a request is refused exactly when the events have opened the breaker
      and less than TIMEOUT has passed since the last recorded failure. */
  lemma RefusesIff(h: seq<Event>, now: int)
    ensures !Admits(Run(h), now) <==> OpenBy(h) && !TimedOut(h, now)
    ensures TimedOut(h, now) <==> LastFailure(h).Some? && now - LastFailure(h).value >= 30 * 1_000_000_000
  {
    EveryRunExplained(h);
  }

  /** The breaker opens exactly on a failure: the fifth in a row while closed, or any
      while a trial is under way. */
  lemma OpensIff(h: seq<Event>, e: Event)
    requires !Run(h).mode.Open?
    ensures Run(h + [e]).mode.Open? <==>
              e.Failure? && (Run(h).mode.HalfOpen? || Streak(h) == 4)
  {
    EveryRunExplained(h);
    assert (h + [e])[..|h|] == h;
  }

  /** A half-open breaker closes exactly on a reset, or on the second success of a trial without
      a failure. */
  lemma ClosesIff(h: seq<Event>, e: Event)
    requires Run(h).mode.HalfOpen?
    ensures Run(h + [e]).mode.Closed? <==>
              e.Reset? || (e.Success? && exists k: nat :: TrialSince(h, k) && SuccessesSince(h, k) == 1)
  {
    EveryRunExplained(h);
    Prefixes(h, e);
    assert Run(h + [e]) == Apply(Run(h), e);
    var k: nat :| TrialSince(h, k) && SuccessesSince(h, k) == Run(h).successes < SUCCESS_THRESHOLD;
    if j: nat :| TrialSince(h, j) && SuccessesSince(h, j) + 1 == SUCCESS_THRESHOLD {
      TrialIsUnique(h, j, k);
    }
    if e.Success? && Run(h + [e]).mode.Closed? {
      assert TrialSince(h, k) && SuccessesSince(h, k) + 1 == SUCCESS_THRESHOLD;
    }
  }

  /** The breaker object. */
  class CircuitBreaker {
    var state: Mode
    var failureCount: int
    var successCount: int
    var lastFailureTime: int
    var activeHalfOpen: int
    ghost var history: seq<Event>

    ghost function Value(): Breaker
      reads this
    {
      Breaker(state, failureCount, successCount, lastFailureTime, activeHalfOpen)
    }

    /** The fields are what the recorded history makes them. */
    ghost predicate Valid()
      reads this
    {
      Value() == Run(history)
    }

    constructor ()
      ensures Valid() && history == []
    {
      state, failureCount, successCount, lastFailureTime, activeHalfOpen := Closed, 0, 0, 0, 0;
      history := [];
    }

    ghost method Record(e: Event)
      requires Value() == Apply(Run(history), e)
      modifies this`history
      ensures Valid() && history == old(history) + [e]
    {
      history := history + [e];
      assert history[..|history| - 1] == old(history);
    }

    method Allow(now: int) returns (ok: bool)
      requires Valid()
      modifies this
      ensures Valid() && history == old(history) + [AllowAt(now)]
      ensures ok <==> old(Admits(Value(), now))
      ensures !ok <==> OpenBy(old(history)) && !TimedOut(old(history), now)
    {
      RefusesIff(history, now);
      match state {
        case Closed => ok := true;
        case Open =>
          if now - lastFailureTime >= TIMEOUT {
            state, successCount, failureCount := HalfOpen, 0, 0;
            ok := activeHalfOpen < HALF_OPEN_MAX_REQS;
          } else {
            ok := false;
          }
        case HalfOpen => ok := activeHalfOpen < HALF_OPEN_MAX_REQS;
      }
      Record(AllowAt(now));
    }

    method RecordSuccess()
      requires Valid()
      modifies this
      ensures Valid() && history == old(history) + [Success]
    {
      if state == HalfOpen {
        activeHalfOpen := activeHalfOpen - 1;
        successCount := successCount + 1;
        if successCount >= SUCCESS_THRESHOLD {
          state, failureCount := Closed, 0;
        }
      } else if state == Closed {
        failureCount := 0;
      }
      Record(Success);
    }

    method RecordFailure(now: int)
      requires Valid()
      modifies this
      ensures Valid() && history == old(history) + [Failure(now)]
    {
      lastFailureTime := now;
      if state == HalfOpen {
        activeHalfOpen := activeHalfOpen - 1;
        state := Open;
      } else {
        failureCount := failureCount + 1;
        if failureCount >= FAILURE_THRESHOLD {
          state := Open;
        }
      }
      Record(Failure(now));
    }

    method ResetAll()
      requires Valid()
      modifies this
      ensures Valid() && history == old(history) + [Reset]
    {
      state, failureCount, successCount, activeHalfOpen := Closed, 0, 0, 0;
      Record(Reset);
    }
  }
}
