/** Weighted choice and score-based selection (internal/business/balancer/balancer.go and
    selectPoolByLoad in internal/business/forwarder/forwarder.go). Scores are reals; every
    random draw is a parameter that ranges over all its outcomes. */
module Balancer {
  import opened Models

  const DEFAULT_MAX_CONCURRENT := 10
  const MAX_INT32 := 0x7fff_ffff

  /** The value of x after int32 wrap-around. */
  function Wrap32(x: int): int {
    (x + 0x8000_0000) % 0x1_0000_0000 - 0x8000_0000
  }

  /** It is x itself on the int32 range, and repeats every 2^32. */
  lemma Wrap32Means(x: int, k: int)
    ensures -0x8000_0000 <= Wrap32(x) <= 0x7fff_ffff
    ensures -0x8000_0000 <= x <= 0x7fff_ffff ==> Wrap32(x) == x
    ensures Wrap32(x + k * 0x1_0000_0000) == Wrap32(x)
  {
  }

  // ---------- Weighted choice ----------

  function Sum(ws: seq<int>): int {
    if ws == [] then 0 else ws[0] + Sum(ws[1..])
  }

  predicate Positive(ws: seq<int>) {
    forall i :: 0 <= i < |ws| ==> ws[i] > 0
  }

  /** The index at which subtracting the weights in turn first makes r negative. */
  function Pick(ws: seq<int>, r: int): nat {
    if ws == [] || r < ws[0] then 0 else 1 + Pick(ws[1..], r - ws[0])
  }

  /** Pick, with the fall-through to the last index. */
  function Choose(ws: seq<int>, r: int): nat
    requires ws != []
  {
    if Pick(ws, r) < |ws| then Pick(ws, r) else |ws| - 1
  }

  /** A number below n from the random source, which is given as one number: draw modulo n. */
  function Below(draw: nat, n: int): (r: nat)
    requires n > 0
    ensures r < n && (draw < n ==> r == draw)
  {
    if draw < n then draw else Below(draw - n, n)
  }

  /** weightedRandomIndex, where `draw` stands for the random source. */
  function WeightedIndex(ws: seq<int>, draw: nat): nat
    requires ws != []
  {
    var total := Wrap32(Sum(ws));
    if total <= 0 then Below(draw, |ws|) else Choose(ws, Below(draw, total))
  }

  lemma {:induction false} SumNext(ws: seq<int>, i: nat)
    requires i < |ws|
    ensures Sum(ws[..i + 1]) == Sum(ws[..i]) + ws[i]
  {
    if i > 0 {
      SumNext(ws[1..], i - 1);
      assert ws[..i + 1][1..] == ws[1..][..i];
      assert ws[..i][1..] == ws[1..][..i - 1];
    }
  }

  lemma {:induction false} SumMonotone(ws: seq<int>, i: nat, j: nat)
    requires Positive(ws) && i <= j <= |ws|
    ensures Sum(ws[..i]) + (j - i) <= Sum(ws[..j])
    decreases j
  {
    if i < j {
      SumNext(ws, j - 1);
      SumMonotone(ws, i, j - 1);
    }
  }

  /** The two loops of weightedRandomIndex. */
  method WeightedRandomIndex(ws: seq<int>, draw: nat) returns (index: nat)
    requires ws != []
    ensures index == WeightedIndex(ws, draw)
  {
    var total := 0;
    for i := 0 to |ws|
      invariant total == Wrap32(Sum(ws[..i]))
    {
      SumNext(ws, i);
      total := Wrap32(total + ws[i]);
    }
    assert ws[..|ws|] == ws;
    if total <= 0 {
      return Below(draw, |ws|);
    }
    index := SubtractInTurn(ws, Below(draw, total));
  }

  method SubtractInTurn(ws: seq<int>, start: int) returns (index: nat)
    requires ws != []
    ensures index == Choose(ws, start)
  {
    var r := start;
    for i := 0 to |ws|
      invariant Pick(ws, start) == i + Pick(ws[i..], r)
    {
      r := r - ws[i];
      if r < 0 {
        return i;
      }
      assert ws[i..][1..] == ws[i + 1..];
    }
    return |ws| - 1;
  }

  lemma {:induction false} PickInterval(ws: seq<int>, r: int, i: nat)
    requires Positive(ws) && 0 <= r && i < |ws|
    ensures Pick(ws, r) == i <==> Sum(ws[..i]) <= r < Sum(ws[..i + 1])
  {
    if i == 0 {
      SumNext(ws, 0);
    } else {
      assert ws[..i][1..] == ws[1..][..i - 1];
      assert ws[..i + 1][1..] == ws[1..][..i];
      if r < ws[0] {
        SumMonotone(ws, 1, i);
        SumNext(ws, 0);
      } else {
        PickInterval(ws[1..], r - ws[0], i - 1);
      }
    }
  }

  lemma {:induction false} PickInRange(ws: seq<int>, r: int)
    requires Positive(ws) && 0 <= r
    ensures Pick(ws, r) < |ws| <==> r < Sum(ws)
    ensures Pick(ws, r) <= |ws|
  {
    if ws != [] {
      if r >= ws[0] {
        PickInRange(ws[1..], r - ws[0]);
      } else {
        SumMonotone(ws[1..], 0, |ws| - 1);
        assert ws[1..][..|ws| - 1] == ws[1..];
      }
    }
  }

  function Interval(a: int, b: int): (s: set<int>)
    ensures forall r :: r in s <==> a <= r < b
    decreases b - a
  {
    if a < b then Interval(a, b - 1) + {b - 1} else {}
  }

  lemma {:induction false} IntervalSize(a: int, b: int)
    requires a <= b
    ensures |Interval(a, b)| == b - a
    decreases b - a
  {
    if a < b {
      IntervalSize(a, b - 1);
    }
  }

  /** The draws below `total` that choose index i. */
  function Share(ws: seq<int>, total: int, i: nat): set<int>
    requires ws != []
  {
    set r: int | 0 <= r < total && Choose(ws, r) == i
  }

  /** When the weights do not overflow, index i is chosen by exactly ws[i] of the Sum(ws)
      draws, and the fall-through return is never reached. */
  lemma ShareIsWeight(ws: seq<int>, i: nat)
    requires Positive(ws) && i < |ws|
    ensures |Share(ws, Sum(ws), i)| == ws[i]
    ensures forall r :: 0 <= r < Sum(ws) ==> Pick(ws, r) < |ws|
  {
    var lo, hi := Sum(ws[..i]), Sum(ws[..i + 1]);
    SumNext(ws, i);
    SumMonotone(ws, 0, i);
    SumMonotone(ws, i + 1, |ws|);
    assert ws[..|ws|] == ws;
    forall r | 0 <= r
      ensures Pick(ws, r) < |ws| <==> r < Sum(ws)
      ensures Pick(ws, r) == i <==> lo <= r < hi
    {
      PickInRange(ws, r);
      PickInterval(ws, r, i);
    }
    assert Share(ws, Sum(ws), i) == Interval(lo, hi);
    IntervalSize(lo, hi);
  }

  /** How many equally likely outcomes the random source has: Int31n(total), or Intn(n) when
      the wrapped total is not positive. */
  function DrawSpace(ws: seq<int>): (n: int)
    requires ws != []
    ensures n > 0
  {
    if Wrap32(Sum(ws)) > 0 then Wrap32(Sum(ws)) else |ws|
  }

  /** The outcomes on which weightedRandomIndex answers i. */
  function Wins(ws: seq<int>, i: nat): set<int>
    requires ws != []
  {
    set r: int | 0 <= r < DrawSpace(ws) && WeightedIndex(ws, r) == i
  }

  /** Every index wins in proportion to its weight. */
  predicate Proportional(ws: seq<int>)
    requires ws != []
  {
    forall i :: 0 <= i < |ws| ==> |Wins(ws, i)| * Sum(ws) == ws[i] * DrawSpace(ws)
  }

  predicate AllEqual(ws: seq<int>) {
    forall i, j :: 0 <= i < |ws| && 0 <= j < |ws| ==> ws[i] == ws[j]
  }

  /** With a positive wrapped total the outcomes are the draws below it. */
  lemma WinsAreShare(ws: seq<int>, i: nat)
    requires ws != [] && Wrap32(Sum(ws)) > 0
    ensures Wins(ws, i) == Share(ws, Wrap32(Sum(ws)), i)
  {
    assert forall r: nat :: r < Wrap32(Sum(ws)) ==> WeightedIndex(ws, r) == Choose(ws, r);
  }

  /** Without overflow the choice is proportional. */
  lemma ProportionalWithinInt32(ws: seq<int>)
    requires ws != [] && Positive(ws) && Sum(ws) <= MAX_INT32
    ensures Proportional(ws)
  {
    TotalPositive(ws);
    forall i | 0 <= i < |ws| ensures |Wins(ws, i)| == ws[i] {
      WinsAreShare(ws, i);
      ShareIsWeight(ws, i);
    }
  }

  lemma ScaledDiffer(a: int, x: int, y: int)
    requires a > 0 && x < y
    ensures a * x < a * y
  {
  }

  /** A positive total below the true sum gives the first index more than its share. */
  lemma WrappedTotalDistorts(ws: seq<int>)
    requires ws != [] && Positive(ws) && 0 < Wrap32(Sum(ws)) < Sum(ws) && ws[0] < Sum(ws)
    ensures !Proportional(ws)
  {
    var total := Wrap32(Sum(ws));
    var won := if ws[0] <= total then ws[0] else total;
    assert Wins(ws, 0) == Interval(0, won) by {
      WinsAreShare(ws, 0);
      forall r | 0 <= r < total ensures Choose(ws, r) == 0 <==> r < won {
        PickInRange(ws, r);
        PickFirst(ws, r);
      }
    }
    IntervalSize(0, won);
    if ws[0] <= total {
      ScaledDiffer(ws[0], total, Sum(ws));
    } else {
      ScaledDiffer(total, ws[0], Sum(ws));
    }
  }

  lemma PickFirst(ws: seq<int>, r: int)
    requires ws != [] && 0 <= r
    requires ws[0] < Sum(ws)
    ensures Choose(ws, r) == 0 <==> r < ws[0]
  {
    assert Sum(ws[1..]) > 0;
    assert ws[1..] != [];
  }

  lemma {:induction false} SumOfEqual(ws: seq<int>, w: int)
    requires forall i :: 0 <= i < |ws| ==> ws[i] == w
    ensures Sum(ws) == w * |ws|
  {
    if ws != [] {
      SumOfEqual(ws[1..], w);
    }
  }

  lemma FallbackWins(ws: seq<int>, i: nat)
    requires i < |ws| && Wrap32(Sum(ws)) <= 0
    ensures |Wins(ws, i)| == 1
  {
    assert forall r: nat :: r < |ws| ==> WeightedIndex(ws, r) == r;
    assert Wins(ws, i) == {i};
  }

  /** The fallback gives every index one outcome, which is fair for equal weights only. */
  lemma FallbackProportionalIff(ws: seq<int>)
    requires ws != [] && Wrap32(Sum(ws)) <= 0
    ensures Proportional(ws) <==> AllEqual(ws)
  {
    forall i | 0 <= i < |ws| ensures |Wins(ws, i)| == 1 {
      FallbackWins(ws, i);
    }
    if AllEqual(ws) {
      SumOfEqual(ws, ws[0]);
    }
    if Proportional(ws) {
      forall i, j | 0 <= i < |ws| && 0 <= j < |ws| ensures ws[i] == ws[j] {
        assert |Wins(ws, i)| == 1 && |Wins(ws, j)| == 1;
        if ws[i] < ws[j] {
          ScaledDiffer(|ws|, ws[i], ws[j]);
        } else if ws[j] < ws[i] {
          ScaledDiffer(|ws|, ws[j], ws[i]);
        }
      }
    }
  }

  /** The choice is proportional to the weights if and only if their sum fits int32, or it
      wraps to a non-positive total and the weights are all equal. */
  lemma ProportionalIff(ws: seq<int>)
    requires ws != [] && forall i :: 0 <= i < |ws| ==> 0 < ws[i] <= MAX_INT32
    ensures Proportional(ws) <==> Sum(ws) <= MAX_INT32 || (Wrap32(Sum(ws)) <= 0 && AllEqual(ws))
  {
    SumMonotone(ws, 0, |ws|);
    assert ws[..|ws|] == ws;
    if Sum(ws) <= MAX_INT32 {
      ProportionalWithinInt32(ws);
    } else if Wrap32(Sum(ws)) > 0 {
      WrappedTotalDistorts(ws);
    } else {
      FallbackProportionalIff(ws);
    }
  }

  lemma SumOfThree(a: int, b: int, c: int)
    ensures Sum([a, b]) == a + b && Sum([a, b, c]) == a + b + c
  {
    assert [a, b][1..] == [b] && [a, b, c][1..] == [b, c] && [b, c][1..] == [c];
    assert Sum([b]) == b && Sum([c]) == c;
    assert Sum([b, c]) == b + c;
  }

  /** The three ways to overflow: a wrapped total of one, which the first weight always wins,
      a negative total that treats unequal weights alike, and one that harms nobody. */
  lemma OverflowWitnesses()
    ensures Wins([MAX_INT32, MAX_INT32, 3], 0) == {0} && !Proportional([MAX_INT32, MAX_INT32, 3])
    ensures !Proportional([MAX_INT32, 1])
    ensures Proportional([0x4000_0000, 0x4000_0000])
  {
    SumOfThree(MAX_INT32, MAX_INT32, 3);
    SumOfThree(MAX_INT32, 1, 0);
    SumOfThree(0x4000_0000, 0x4000_0000, 0);
    ProportionalIff([MAX_INT32, MAX_INT32, 3]);
    var unequal := [MAX_INT32, 1];
    ProportionalIff(unequal);
    assert unequal[0] != unequal[1];
    ProportionalIff([0x4000_0000, 0x4000_0000]);
  }

  // ---------- Minimum and near-minimum ----------

  function MinOf(xs: seq<real>): real
    requires xs != []
  {
    if |xs| == 1 then xs[0]
    else
      var m := MinOf(xs[..|xs| - 1]);
      if xs[|xs| - 1] < m then xs[|xs| - 1] else m
  }

  lemma {:induction false} MinOfIsMin(xs: seq<real>)
    requires xs != []
    ensures MinOf(xs) in xs
    ensures forall i :: 0 <= i < |xs| ==> MinOf(xs) <= xs[i]
  {
    if |xs| > 1 {
      MinOfIsMin(xs[..|xs| - 1]);
    }
  }

  method Minimum(xs: seq<real>) returns (best: real)
    requires xs != []
    ensures best == MinOf(xs)
  {
    best := xs[0];
    for i := 1 to |xs|
      invariant best == MinOf(xs[..i])
    {
      assert xs[..i + 1][..i] == xs[..i];
      if xs[i] < best {
        best := xs[i];
      }
    }
    assert xs[..|xs|] == xs;
  }

  /** The indices of the values not above `cut`, in order. */
  function Near(xs: seq<real>, cut: real): (ids: seq<nat>)
    ensures forall k :: 0 <= k < |ids| ==> ids[k] < |xs| && xs[ids[k]] <= cut
  {
    if xs == [] then []
    else Near(xs[..|xs| - 1], cut) + (if xs[|xs| - 1] <= cut then [|xs| - 1] else [])
  }

  lemma {:induction false} NearComplete(xs: seq<real>, cut: real, i: nat)
    requires i < |xs| && xs[i] <= cut
    ensures i in Near(xs, cut)
  {
    if i < |xs| - 1 {
      NearComplete(xs[..|xs| - 1], cut, i);
    }
  }

  lemma {:induction false} NearNone(xs: seq<real>, cut: real)
    requires forall i :: 0 <= i < |xs| ==> cut < xs[i]
    ensures Near(xs, cut) == []
  {
    if xs != [] {
      NearNone(xs[..|xs| - 1], cut);
    }
  }

  method Collect(xs: seq<real>, cut: real) returns (ids: seq<nat>)
    ensures ids == Near(xs, cut)
  {
    ids := [];
    for i := 0 to |xs|
      invariant ids == Near(xs[..i], cut)
    {
      assert xs[..i + 1][..i] == xs[..i];
      if xs[i] <= cut {
        ids := ids + [i];
      }
    }
    assert xs[..|xs|] == xs;
  }

  // ---------- SelectNode ----------

  datatype Choice = Nobody | Selected(index: nat) | Panics

  /** The entries of ws at the given indices. */
  function Gather(ws: seq<int>, ids: seq<nat>): (g: seq<int>)
    requires forall k :: 0 <= k < |ids| ==> ids[k] < |ws|
    ensures |g| == |ids|
    ensures Positive(ws) ==> Positive(g)
  {
    if ids == [] then []
    else Gather(ws, ids[..|ids| - 1]) + [ws[ids[|ids| - 1]]]
  }

  function Cut(best: real): real { best * 1.05 + 0.001 }

  /** SelectNode on the jittered scores and the weights of the nodes. */
  function Select(scores: seq<real>, ws: seq<int>, draw: nat): Choice
    requires |scores| == |ws|
  {
    if scores == [] then Nobody
    else if |scores| == 1 then Selected(0)
    else SelectAmong(Near(scores, Cut(MinOf(scores))), ws, draw)
  }

  /** The weighted choice among the near nodes. */
  function SelectAmong(near: seq<nat>, ws: seq<int>, draw: nat): Choice
    requires forall k :: 0 <= k < |near| ==> near[k] < |ws|
  {
    if near == [] then Panics
    else if |near| == 1 then Selected(near[0])
    else
      var k := WeightedIndex(Gather(ws, near), draw);
      if k < |near| then Selected(near[k]) else Panics
  }

  lemma WeightedIndexInRange(ws: seq<int>, draw: nat)
    requires ws != []
    ensures WeightedIndex(ws, draw) < |ws|
  {
  }

  /** With several nodes a candidate is found unless the best score is below -0.02; then,
      and only then, the selection panics. */
  lemma PanicsIff(scores: seq<real>, ws: seq<int>, draw: nat)
    requires |scores| == |ws| && |scores| > 1
    ensures var c := Select(scores, ws, draw);
            && (c.Panics? <==> MinOf(scores) < -0.02)
            && (c.Selected? ==> c.index < |scores| && scores[c.index] <= Cut(MinOf(scores)))
            && !c.Nobody?
  {
    var near := Near(scores, Cut(MinOf(scores)));
    NobodyNearIff(scores);
    if near != [] {
      WeightedIndexInRange(Gather(ws, near), draw);
    }
  }

  lemma NobodyNearIff(scores: seq<real>)
    requires scores != []
    ensures Near(scores, Cut(MinOf(scores))) == [] <==> MinOf(scores) < -0.02
  {
    var best := MinOf(scores);
    MinOfIsMin(scores);
    if best >= -0.02 {
      var m: nat :| m < |scores| && scores[m] == best;
      NearComplete(scores, Cut(best), m);
    } else {
      NearNone(scores, Cut(best));
    }
  }

  /** Each score lies within five percent of its raw score. */
  ghost predicate WithinJitter(raw: seq<real>, scores: seq<real>) {
    |raw| == |scores| && forall i :: 0 <= i < |raw| ==> 0.95 * raw[i] <= scores[i] <= 1.05 * raw[i]
  }

  /** When no raw score is negative a node is always selected, and whatever the jitter and
      the draw, 0.95 times its score is at most 1.1025 times any other score plus 0.001. */
  lemma NearOptimal(raw: seq<real>, scores: seq<real>, ws: seq<int>, draw: nat, m: nat)
    requires WithinJitter(raw, scores) && |ws| == |raw| && m < |raw|
    requires forall i :: 0 <= i < |raw| ==> raw[i] >= 0.0
    ensures var c := Select(scores, ws, draw);
            c.Selected? && c.index < |raw| && 0.95 * raw[c.index] <= 1.1025 * raw[m] + 0.001
  {
    if |raw| > 1 {
      MinOfIsMin(scores);
      var low: nat :| low < |scores| && scores[low] == MinOf(scores);
      assert scores[low] >= 0.95 * raw[low];
      PanicsIff(scores, ws, draw);
    }
  }

  function Jitter(x: real, f: real): real { x * f }

  lemma JitterBounds(x: real, f: real)
    requires x >= 0.0 && InJitter(f)
    ensures 0.95 * x <= Jitter(x, f) <= 1.05 * x
  {
    ProductNonNegative(x, f - 0.95);
    ProductNonNegative(x, 1.05 - f);
    TimesDifference(x, f, 0.95);
    TimesDifference(x, 1.05, f);
  }

  lemma ProductNonNegative(a: real, b: real)
    requires a >= 0.0 && b >= 0.0
    ensures a * b >= 0.0
  {
  }

  /** A candidate carries one state, under its own path, or none. */
  predicate OneState(n: RemoteNode) {
    n.states.Keys <= {n.nodePath}
  }

  function StateOf(n: RemoteNode): EndpointState {
    if n.nodePath in n.states then n.states[n.nodePath]
    else EndpointState(0, 0, false, DEFAULT_MAX_CONCURRENT, false, 0, 0)
  }

  function RawScore(s: EndpointState): real {
    var limit := if s.maxConcurrent == 0 then DEFAULT_MAX_CONCURRENT as real else s.maxConcurrent as real;
    var slowness := if s.responseTime > 0
                    then (if s.responseTime as real / 100.0 > 1.0 then 1.0 else s.responseTime as real / 100.0)
                    else 0.0;
    (s.active as real + s.queueLen as real) / limit * 0.6 + slowness * 0.4
  }

  /** The score times 100 times the limit, where a limit of zero counts as ten: sixty for each
      active or queued request, and for each of the first hundred milliseconds of the response
      time four tenths of the limit. */
  lemma RawScoreMeans(s: EndpointState)
    ensures var limit := if s.maxConcurrent == 0 then 10 else s.maxConcurrent;
            var slow := if s.responseTime <= 0 then 0 else if s.responseTime >= 100 then 100 else s.responseTime;
            RawScore(s) * 100.0 * limit as real == 60.0 * (s.active + s.queueLen) as real + 0.4 * slow as real * limit as real
  {
    var limit := if s.maxConcurrent == 0 then 10 else s.maxConcurrent;
    var load := s.active as real + s.queueLen as real;
    QuotientTimes(load, limit as real);
  }

  lemma QuotientTimes(a: real, b: real)
    requires b != 0.0
    ensures a / b * b == a
  {
  }

  function Score(n: RemoteNode, jitter: real): real {
    Jitter(RawScore(StateOf(n)), jitter)
  }

  function RawScores(nodes: seq<RemoteNode>): (raw: seq<real>)
    ensures |raw| == |nodes|
    ensures forall i :: 0 <= i < |nodes| ==> raw[i] == RawScore(StateOf(nodes[i]))
  {
    if nodes == [] then [] else RawScores(nodes[..|nodes| - 1]) + [RawScore(StateOf(nodes[|nodes| - 1]))]
  }

  function Scores(nodes: seq<RemoteNode>, jitter: seq<real>): (scores: seq<real>)
    requires |nodes| == |jitter|
    ensures |scores| == |nodes|
    ensures forall i :: 0 <= i < |nodes| ==> scores[i] == Score(nodes[i], jitter[i])
  {
    if nodes == [] then []
    else Scores(nodes[..|nodes| - 1], jitter[..|nodes| - 1]) + [Score(nodes[|nodes| - 1], jitter[|nodes| - 1])]
  }

  predicate InJitter(f: real) { 0.95 <= f < 1.05 }

  predicate Jittered(jitter: seq<real>) {
    forall i :: 0 <= i < |jitter| ==> InJitter(jitter[i])
  }

  function Weight(s: EndpointState): int {
    if s.maxConcurrent > 0 then s.maxConcurrent else DEFAULT_MAX_CONCURRENT
  }

  function Weights(nodes: seq<RemoteNode>): (ws: seq<int>)
    ensures |ws| == |nodes| && Positive(ws)
    ensures forall i :: 0 <= i < |nodes| ==> ws[i] == Weight(StateOf(nodes[i]))
  {
    if nodes == [] then [] else Weights(nodes[..|nodes| - 1]) + [Weight(StateOf(nodes[|nodes| - 1]))]
  }

  predicate NonNegativeLoad(s: EndpointState) {
    s.active + s.queueLen >= 0 && s.maxConcurrent >= 0
  }

  lemma QuotientNonNegative(a: real, b: real)
    requires a >= 0.0 && b > 0.0
    ensures a / b >= 0.0
  {
  }

  lemma RawScoreNonNegative(s: EndpointState)
    requires NonNegativeLoad(s)
    ensures RawScore(s) >= 0.0
  {
    var limit := if s.maxConcurrent == 0 then DEFAULT_MAX_CONCURRENT as real else s.maxConcurrent as real;
    QuotientNonNegative(s.active as real + s.queueLen as real, limit);
  }

  // ---------- How often each candidate is chosen ----------

  /** The sum of the weights of the candidates not above `cut`. */
  function WeightNear(xs: seq<real>, ws: seq<int>, cut: real): int
    requires |xs| == |ws|
  {
    if xs == [] then 0
    else WeightNear(xs[..|xs| - 1], ws[..|xs| - 1], cut) + (if xs[|xs| - 1] <= cut then ws[|xs| - 1] else 0)
  }

  lemma {:induction false} SumAppend(a: seq<int>, x: int)
    ensures Sum(a + [x]) == Sum(a) + x
  {
    SumNext(a + [x], |a|);
    assert (a + [x])[..|a|] == a && (a + [x])[..|a| + 1] == a + [x];
  }

  lemma {:induction false} GatherPrefix(ws: seq<int>, n: nat, ids: seq<nat>)
    requires n <= |ws| && forall k :: 0 <= k < |ids| ==> ids[k] < n
    ensures Gather(ws, ids) == Gather(ws[..n], ids)
  {
    if ids != [] {
      GatherPrefix(ws, n, ids[..|ids| - 1]);
    }
  }

  /** The near indices are listed in order, and their weights add up to WeightNear. */
  lemma {:induction false} NearWeights(xs: seq<real>, ws: seq<int>, cut: real)
    requires |xs| == |ws|
    ensures Sum(Gather(ws, Near(xs, cut))) == WeightNear(xs, ws, cut)
    ensures forall j, k :: 0 <= j < k < |Near(xs, cut)| ==> Near(xs, cut)[j] < Near(xs, cut)[k]
  {
    if xs != [] {
      var n := |xs| - 1;
      var before := Near(xs[..n], cut);
      NearWeights(xs[..n], ws[..n], cut);
      GatherPrefix(ws, n, before);
      if xs[n] <= cut {
        assert Near(xs, cut) == before + [n] && (before + [n])[..|before|] == before;
        assert Gather(ws, before + [n]) == Gather(ws, before) + [ws[n]];
        SumAppend(Gather(ws, before), ws[n]);
      } else {
        assert Near(xs, cut) == before;
      }
    }
  }

  lemma {:induction false} GatherAt(ws: seq<int>, ids: seq<nat>, k: nat)
    requires k < |ids| && forall j :: 0 <= j < |ids| ==> ids[j] < |ws|
    ensures Gather(ws, ids)[k] == ws[ids[k]]
  {
    if k < |ids| - 1 {
      GatherAt(ws, ids[..|ids| - 1], k);
    }
  }

  /** The draws below the total weight that pick candidate i among the near ones. */
  function NearWins(xs: seq<real>, ws: seq<int>, cut: real, i: nat): set<int>
    requires |xs| == |ws| && Near(xs, cut) != []
  {
    set r: int | 0 <= r < WeightNear(xs, ws, cut) && Near(xs, cut)[Choose(Gather(ws, Near(xs, cut)), r)] == i
  }

  /** Each near candidate is picked by exactly its weight of the draws, the others by none. */
  lemma NearShare(xs: seq<real>, ws: seq<int>, cut: real, i: nat)
    requires |xs| == |ws| && Positive(ws) && i < |xs| && Near(xs, cut) != []
    ensures |NearWins(xs, ws, cut, i)| == if xs[i] <= cut then ws[i] else 0
  {
    var near := Near(xs, cut);
    var g := Gather(ws, near);
    NearWeights(xs, ws, cut);
    if xs[i] <= cut {
      NearComplete(xs, cut, i);
      var k: nat :| k < |near| && near[k] == i;
      GatherAt(ws, near, k);
      ShareIsWeight(g, k);
      forall r ensures r in NearWins(xs, ws, cut, i) <==> r in Share(g, Sum(g), k) {
        ChooseInRange(g, r);
      }
      assert NearWins(xs, ws, cut, i) == Share(g, Sum(g), k);
    } else {
      forall r ensures r !in NearWins(xs, ws, cut, i) {
        ChooseInRange(g, r);
      }
      assert NearWins(xs, ws, cut, i) == {};
    }
  }

  lemma ChooseInRange(ws: seq<int>, r: int)
    requires ws != []
    ensures Choose(ws, r) < |ws|
  {
  }

  lemma OnlyIndex(xs: seq<real>, ws: seq<int>, cut: real, r: int)
    requires |xs| == |ws| && |Near(xs, cut)| == 1
    ensures Near(xs, cut)[Choose(Gather(ws, Near(xs, cut)), r)] == Near(xs, cut)[0]
  {
    ChooseInRange(Gather(ws, Near(xs, cut)), r);
  }

  /** The draws on which SelectNode answers node i, out of as many as the candidates weigh. */
  function NodeWins(scores: seq<real>, ws: seq<int>, i: nat): set<int>
    requires |scores| == |ws| && scores != []
  {
    set r: int | 0 <= r < WeightNear(scores, ws, Cut(MinOf(scores))) && Select(scores, ws, r) == Selected(i)
  }

  lemma SelectDraw(scores: seq<real>, ws: seq<int>, r: nat)
    requires |scores| == |ws| && |scores| > 1 && Near(scores, Cut(MinOf(scores))) != []
    requires var g := Gather(ws, Near(scores, Cut(MinOf(scores)))); r < Sum(g) && Wrap32(Sum(g)) == Sum(g)
    ensures var near := Near(scores, Cut(MinOf(scores)));
            Select(scores, ws, r) == Selected(near[Choose(Gather(ws, near), r)])
  {
    var near := Near(scores, Cut(MinOf(scores)));
    ChooseInRange(Gather(ws, near), r);
    if |near| == 1 {
      OnlyIndex(scores, ws, Cut(MinOf(scores)), r);
    }
  }

  /** With several nodes, a node whose score is within five percent and 0.001 of the best is
      selected by exactly its weight of the draws, as long as the weights fit int32; any other
      by none. */
  lemma SelectShare(scores: seq<real>, ws: seq<int>, i: nat)
    requires |scores| == |ws| && |scores| > 1 && Positive(ws) && i < |scores| && MinOf(scores) >= -0.02
    requires WeightNear(scores, ws, Cut(MinOf(scores))) <= MAX_INT32
    ensures |NodeWins(scores, ws, i)| == if scores[i] <= MinOf(scores) * 1.05 + 0.001 then ws[i] else 0
  {
    var cut := Cut(MinOf(scores));
    var near := Near(scores, cut);
    var g := Gather(ws, near);
    NobodyNearIff(scores);
    NearWeights(scores, ws, cut);
    TotalPositive(g);
    NearShare(scores, ws, cut, i);
    forall r | 0 <= r < Sum(g) ensures Select(scores, ws, r) == Selected(near[Choose(g, r)]) {
      SelectDraw(scores, ws, r);
    }
    assert NodeWins(scores, ws, i) == NearWins(scores, ws, cut, i);
  }

  /** So SelectNode answers each near node by exactly its limit of the draws, where a limit
      that is not positive counts as ten. */
  lemma SelectNodeShare(nodes: seq<RemoteNode>, jitter: seq<real>, i: nat)
    requires |nodes| == |jitter| && |nodes| > 1 && i < |nodes| && MinOf(Scores(nodes, jitter)) >= -0.02
    requires WeightNear(Scores(nodes, jitter), Weights(nodes), Cut(MinOf(Scores(nodes, jitter)))) <= MAX_INT32
    ensures var scores, limit := Scores(nodes, jitter), StateOf(nodes[i]).maxConcurrent;
            |NodeWins(scores, Weights(nodes), i)|
            == if scores[i] > MinOf(scores) * 1.05 + 0.001 then 0 else if limit >= 1 then limit else 10
  {
    SelectShare(Scores(nodes, jitter), Weights(nodes), i);
  }

  // ---------- When SelectNode panics ----------

  /** What SelectNode answers for given random factors. */
  function Answer(nodes: seq<RemoteNode>, jitter: seq<real>, draw: nat): Choice
    requires |nodes| == |jitter|
  {
    Select(Scores(nodes, jitter), Weights(nodes), draw)
  }

  ghost predicate CanPanic(nodes: seq<RemoteNode>, draw: nat) {
    exists jitter :: |jitter| == |nodes| && Jittered(jitter) && Answer(nodes, jitter, draw).Panics?
  }

  ghost predicate AlwaysPanics(nodes: seq<RemoteNode>, draw: nat) {
    forall jitter :: |jitter| == |nodes| && Jittered(jitter) ==> Answer(nodes, jitter, draw).Panics?
  }

  /** Some node's score, multiplied by `factor`, is below the threshold. */
  predicate SomeBelow(nodes: seq<RemoteNode>, factor: real) {
    exists i :: 0 <= i < |nodes| && factor * RawScore(StateOf(nodes[i])) < -0.02
  }

  lemma PanicsAt(nodes: seq<RemoteNode>, jitter: seq<real>, draw: nat)
    requires |nodes| == |jitter| && |nodes| > 1
    ensures Answer(nodes, jitter, draw).Panics? <==> exists i :: 0 <= i < |nodes| && Score(nodes[i], jitter[i]) < -0.02
  {
    var scores := Scores(nodes, jitter);
    PanicsIff(scores, Weights(nodes), draw);
    MinOfIsMin(scores);
    if MinOf(scores) < -0.02 {
      var i :| 0 <= i < |scores| && scores[i] == MinOf(scores);
      assert Score(nodes[i], jitter[i]) < -0.02;
    }
  }

  /** A negative score grows with every factor; no factor takes it below 1.05 of itself. */
  lemma JitterOfNegative(x: real, f: real)
    requires InJitter(f)
    ensures 0.95 * x < -0.02 ==> Jitter(x, f) < -0.02
    ensures 1.05 * x >= -0.02 ==> Jitter(x, f) >= -0.02
  {
    if x < 0.0 {
      ProductNonNegative(-x, f - 0.95);
      ProductNonNegative(-x, 1.05 - f);
      TimesDifference(-x, f, 0.95);
      TimesDifference(-x, 1.05, f);
      NegativeTimes(x, f);
    } else {
      ProductNonNegative(x, f);
    }
  }

  lemma TimesDifference(a: real, b: real, c: real)
    ensures a * (b - c) == a * b - a * c
  {
  }

  lemma NegativeTimes(a: real, b: real)
    ensures (-a) * b == -(a * b)
  {
  }

  /** A factor below 1.05 that takes a score below the threshold. */
  lemma JitterBelow(x: real) returns (f: real)
    requires 1.05 * x < -0.02
    ensures InJitter(f) && Jitter(x, f) < -0.02
  {
    var needed := 0.02 / -x;
    assert needed * -x == 0.02;
    assert needed < 1.05 by {
      if needed >= 1.05 {
        ProductNonNegative(needed - 1.05, -x);
      }
    }
    f := if needed < 0.95 then 0.95 else (needed + 1.05) / 2.0;
    ProductPositive(f - needed, -x);
  }

  lemma ProductPositive(a: real, b: real)
    requires a > 0.0 && b > 0.0
    ensures a * b > 0.0
  {
  }

  /** With several nodes some random factors make SelectNode panic if and only if some node
      scores below -0.02/1.05, and all of them do if and only if one scores below -0.02/0.95. */
  lemma SelectNodePanicsIff(nodes: seq<RemoteNode>, draw: nat)
    requires |nodes| > 1
    ensures CanPanic(nodes, draw) <==> SomeBelow(nodes, 1.05)
    ensures AlwaysPanics(nodes, draw) <==> SomeBelow(nodes, 0.95)
  {
    if SomeBelow(nodes, 1.05) {
      SomeFactorsPanic(nodes, draw);
    } else {
      NoFactorsPanic(nodes, draw);
    }
    LowestFactorsPanicIff(nodes, draw);
    if SomeBelow(nodes, 0.95) {
      AllFactorsPanic(nodes, draw);
    }
  }

  lemma SomeFactorsPanic(nodes: seq<RemoteNode>, draw: nat)
    requires |nodes| > 1 && SomeBelow(nodes, 1.05)
    ensures CanPanic(nodes, draw)
  {
    var i :| 0 <= i < |nodes| && 1.05 * RawScore(StateOf(nodes[i])) < -0.02;
    var f := JitterBelow(RawScore(StateOf(nodes[i])));
    SameFactorPanics(nodes, i, f, draw);
  }

  lemma SameFactorPanics(nodes: seq<RemoteNode>, i: nat, f: real, draw: nat)
    requires i < |nodes| && |nodes| > 1 && InJitter(f) && Score(nodes[i], f) < -0.02
    ensures CanPanic(nodes, draw)
  {
    var jitter := Uniform(|nodes|, f);
    PanicsAt(nodes, jitter, draw);
    assert Score(nodes[i], jitter[i]) < -0.02;
  }

  /** The same factor for every node. */
  function Uniform(n: nat, f: real): (jitter: seq<real>)
    ensures |jitter| == n && forall i :: 0 <= i < n ==> jitter[i] == f
  {
    if n == 0 then [] else Uniform(n - 1, f) + [f]
  }

  lemma NoFactorsPanic(nodes: seq<RemoteNode>, draw: nat)
    requires |nodes| > 1 && !SomeBelow(nodes, 1.05)
    ensures !CanPanic(nodes, draw)
  {
    forall jitter | |jitter| == |nodes| && Jittered(jitter) ensures !Answer(nodes, jitter, draw).Panics? {
      PanicsAt(nodes, jitter, draw);
      forall i | 0 <= i < |nodes| ensures Score(nodes[i], jitter[i]) >= -0.02 {
        assert 1.05 * RawScore(StateOf(nodes[i])) >= -0.02;
        JitterOfNegative(RawScore(StateOf(nodes[i])), jitter[i]);
      }
    }
  }

  lemma AllFactorsPanic(nodes: seq<RemoteNode>, draw: nat)
    requires |nodes| > 1 && SomeBelow(nodes, 0.95)
    ensures AlwaysPanics(nodes, draw)
  {
    var i :| 0 <= i < |nodes| && 0.95 * RawScore(StateOf(nodes[i])) < -0.02;
    forall jitter | |jitter| == |nodes| && Jittered(jitter) ensures Answer(nodes, jitter, draw).Panics? {
      JitterOfNegative(RawScore(StateOf(nodes[i])), jitter[i]);
      PanicsAt(nodes, jitter, draw);
    }
  }

  lemma LowestFactorsPanicIff(nodes: seq<RemoteNode>, draw: nat)
    requires |nodes| > 1
    ensures AlwaysPanics(nodes, draw) ==> SomeBelow(nodes, 0.95)
  {
    if AlwaysPanics(nodes, draw) {
      var jitter := Uniform(|nodes|, 0.95);
      assert Jittered(jitter) && Answer(nodes, jitter, draw).Panics?;
      PanicsAt(nodes, jitter, draw);
      var i :| 0 <= i < |nodes| && Score(nodes[i], jitter[i]) < -0.02;
      LowestFactor(RawScore(StateOf(nodes[i])));
    }
  }

  lemma LowestFactor(x: real)
    ensures Jitter(x, 0.95) == 0.95 * x
  {
  }

  /** A node announcing one state under one path. */
  function Announcing(id: string, s: EndpointState): RemoteNode {
    RemoteNode(id, "", 0, "", "/p", map["/p" := s], map[], 0)
  }

  /** A negative announced limit is enough, and so is a negative announced queue under an
      ordinary limit: SelectNode then panics whatever the random factors are. */
  lemma NegativeAnnouncementsPanic(draw: nat)
    ensures var limited := EndpointState(1, 0, true, -1, false, 0, 0);
            AlwaysPanics([Announcing("a", limited), Announcing("b", limited)], draw)
    ensures var queued := EndpointState(0, -10, true, 10, false, 0, 0);
            var idle := EndpointState(0, 0, true, 10, false, 0, 0);
            AlwaysPanics([Announcing("a", queued), Announcing("b", idle)], draw)
  {
    var limited := EndpointState(1, 0, true, -1, false, 0, 0);
    var both := [Announcing("a", limited), Announcing("b", limited)];
    assert StateOf(both[0]) == limited && RawScore(limited) == -0.6;
    SelectNodePanicsIff(both, draw);
    var queued := EndpointState(0, -10, true, 10, false, 0, 0);
    var one := [Announcing("a", queued), Announcing("b", EndpointState(0, 0, true, 10, false, 0, 0))];
    assert StateOf(one[0]) == queued && RawScore(queued) == -0.6;
    SelectNodePanicsIff(one, draw);
  }

  // ---------- SelectNode, step by step ----------

  /** Reading "the" state of a candidate from its map, whichever entry comes first. */
  method ReadState(n: RemoteNode) returns (s: EndpointState)
    requires OneState(n)
    ensures s == StateOf(n)
  {
    s := EndpointState(0, 0, false, DEFAULT_MAX_CONCURRENT, false, 0, 0);
    if n.states.Keys != {} {
      var p :| p in n.states;
      s := n.states[p];
    }
  }

  /** Random factors in [0.95, 1.05) move no score of a non-negative load by more than
      five percent. */
  lemma JitterIsSmall(nodes: seq<RemoteNode>, jitter: seq<real>)
    requires |nodes| == |jitter| && Jittered(jitter)
    requires forall i :: 0 <= i < |nodes| ==> NonNegativeLoad(StateOf(nodes[i]))
    ensures WithinJitter(RawScores(nodes), Scores(nodes, jitter))
    ensures forall i :: 0 <= i < |nodes| ==> RawScores(nodes)[i] >= 0.0
  {
    forall i | 0 <= i < |nodes|
      ensures RawScores(nodes)[i] >= 0.0
      ensures 0.95 * RawScores(nodes)[i] <= Scores(nodes, jitter)[i] <= 1.05 * RawScores(nodes)[i]
    {
      JitterOne(nodes[i], jitter[i]);
    }
  }

  lemma JitterOne(n: RemoteNode, f: real)
    requires NonNegativeLoad(StateOf(n)) && InJitter(f)
    ensures 0.0 <= RawScore(StateOf(n))
    ensures 0.95 * RawScore(StateOf(n)) <= Score(n, f) <= 1.05 * RawScore(StateOf(n))
  {
    RawScoreNonNegative(StateOf(n));
    JitterBounds(RawScore(StateOf(n)), f);
  }

  method ScoreNode(n: RemoteNode, jitter: real) returns (score: real)
    requires OneState(n)
    ensures score == Score(n, jitter)
  {
    var state := ReadState(n);
    var maxConcurrent := state.maxConcurrent as real;
    if maxConcurrent == 0.0 {
      maxConcurrent := DEFAULT_MAX_CONCURRENT as real;
    }
    var loadRatio := (state.active as real + state.queueLen as real) / maxConcurrent;
    var responseTimeFactor := 0.0;
    if state.responseTime > 0 {
      responseTimeFactor := state.responseTime as real / 100.0;
      if responseTimeFactor > 1.0 {
        responseTimeFactor := 1.0;
      }
    }
    score := Jitter(loadRatio * 0.6 + responseTimeFactor * 0.4, jitter);
  }

  method ComputeScores(nodes: seq<RemoteNode>, jitter: seq<real>) returns (scores: seq<real>)
    requires |nodes| == |jitter|
    requires forall i :: 0 <= i < |nodes| ==> OneState(nodes[i])
    ensures scores == Scores(nodes, jitter)
  {
    scores := [];
    for i := 0 to |nodes|
      invariant |scores| == i && forall k :: 0 <= k < i ==> scores[k] == Score(nodes[k], jitter[k])
    {
      var score := ScoreNode(nodes[i], jitter[i]);
      scores := scores + [score];
    }
  }

  method CandidateWeights(nodes: seq<RemoteNode>, near: seq<nat>) returns (ws: seq<int>)
    requires forall i :: 0 <= i < |nodes| ==> OneState(nodes[i])
    requires forall k :: 0 <= k < |near| ==> near[k] < |nodes|
    ensures ws == Gather(Weights(nodes), near)
  {
    ws := [];
    for k := 0 to |near|
      invariant ws == Gather(Weights(nodes), near[..k])
    {
      var state := ReadState(nodes[near[k]]);
      assert near[..k + 1][..k] == near[..k];
      ws := ws + [if state.maxConcurrent > 0 then state.maxConcurrent else DEFAULT_MAX_CONCURRENT];
    }
    assert near[..|near|] == near;
  }

  /** SelectNode. With no candidate left Go's rand.Intn(0) panics. */
  method SelectNode(nodes: seq<RemoteNode>, jitter: seq<real>, draw: nat) returns (c: Choice)
    requires |nodes| == |jitter|
    requires forall i :: 0 <= i < |nodes| ==> OneState(nodes[i])
    ensures c == Select(Scores(nodes, jitter), Weights(nodes), draw)
  {
    if |nodes| == 0 {
      return Nobody;
    }
    if |nodes| == 1 {
      return Selected(0);
    }
    var scores := ComputeScores(nodes, jitter);
    var best := Minimum(scores);
    var near := Collect(scores, Cut(best));
    c := PickNode(nodes, near, draw);
  }

  method PickNode(nodes: seq<RemoteNode>, near: seq<nat>, draw: nat) returns (c: Choice)
    requires forall i :: 0 <= i < |nodes| ==> OneState(nodes[i])
    requires forall k :: 0 <= k < |near| ==> near[k] < |nodes|
    ensures c == SelectAmong(near, Weights(nodes), draw)
  {
    if near == [] {
      return Panics;
    }
    if |near| == 1 {
      return Selected(near[0]);
    }
    var weights := CandidateWeights(nodes, near);
    var k := WeightedRandomIndex(weights, draw);
    WeightedIndexInRange(weights, draw);
    c := Selected(near[k]);
  }

  // ---------- selectPoolByLoad ----------

  datatype PoolLoad = PoolLoad(epID: string, active: int, queueLen: int, maxConcurrent: int)

  function Limit(p: PoolLoad): int {
    if p.maxConcurrent <= 0 then 1 else p.maxConcurrent
  }

  function Load(p: PoolLoad): real {
    (p.active + p.queueLen) as real / Limit(p) as real
  }

  function Loads(pools: seq<PoolLoad>): (xs: seq<real>)
    ensures |xs| == |pools|
    ensures forall i :: 0 <= i < |pools| ==> xs[i] == Load(pools[i])
  {
    if pools == [] then [] else Loads(pools[..|pools| - 1]) + [Load(pools[|pools| - 1])]
  }

  function Limits(pools: seq<PoolLoad>): (ws: seq<int>)
    ensures |ws| == |pools| && Positive(ws)
    ensures forall i :: 0 <= i < |pools| ==> ws[i] == Limit(pools[i])
  {
    if pools == [] then [] else Limits(pools[..|pools| - 1]) + [Limit(pools[|pools| - 1])]
  }

  function PoolCut(best: real): real { best + 0.001 }

  /** selectPoolByLoad on the loads and limits of the pools; unlike weightedRandomIndex it
      does not guard the total, and rand.Int31n panics when that is not positive. */
  function SelectPool(loads: seq<real>, limits: seq<int>, draw: nat): Choice
    requires |loads| == |limits|
  {
    if loads == [] then Nobody
    else if |loads| == 1 then Selected(0)
    else PickAmong(Near(loads, PoolCut(MinOf(loads))), limits, draw)
  }

  /** The weighted choice among the near pools. */
  function PickAmong(near: seq<nat>, limits: seq<int>, draw: nat): Choice
    requires forall k :: 0 <= k < |near| ==> near[k] < |limits|
  {
    if |near| == 1 then Selected(near[0])
    else
      var ws := Gather(limits, near);
      var total := Wrap32(Sum(ws));
      if total <= 0 || near == [] then Panics else Selected(near[Choose(ws, Below(draw, total))])
  }

  method ReadLimit(p: PoolLoad) returns (w: int)
    ensures w == Limit(p)
  {
    w := p.maxConcurrent;
    if w <= 0 {
      w := 1;
    }
  }

  method MeasureLoad(p: PoolLoad) returns (load: real)
    ensures load == Load(p)
  {
    var maxConcur := p.maxConcurrent as real;
    if maxConcur <= 0.0 {
      maxConcur := 1.0;
    }
    load := (p.active + p.queueLen) as real / maxConcur;
  }

  method SelectPoolByLoad(pools: seq<PoolLoad>, draw: nat) returns (c: Choice)
    ensures c == SelectPool(Loads(pools), Limits(pools), draw)
  {
    if |pools| == 0 {
      return Nobody;
    }
    if |pools| == 1 {
      return Selected(0);
    }
    var items: seq<real> := [];
    for i := 0 to |pools|
      invariant |items| == i && forall k :: 0 <= k < i ==> items[k] == Loads(pools)[k]
    {
      var load := MeasureLoad(pools[i]);
      items := items + [load];
    }
    assert items == Loads(pools);
    var best := Minimum(items);
    var near := Collect(items, PoolCut(best));
    c := PickPool(pools, near, draw);
  }

  method PickPool(pools: seq<PoolLoad>, near: seq<nat>, draw: nat) returns (c: Choice)
    requires forall k :: 0 <= k < |near| ==> near[k] < |pools|
    ensures c == PickAmong(near, Limits(pools), draw)
  {
    if |near| == 1 {
      return Selected(near[0]);
    }
    var ws, total := SumLimits(pools, near);
    if total <= 0 || near == [] {
      return Panics;
    }
    var k := SubtractInTurn(ws, Below(draw, total));
    c := Selected(near[k]);
  }

  method SumLimits(pools: seq<PoolLoad>, near: seq<nat>) returns (ws: seq<int>, total: int)
    requires forall k :: 0 <= k < |near| ==> near[k] < |pools|
    ensures ws == Gather(Limits(pools), near) && total == Wrap32(Sum(ws))
  {
    ws, total := [], 0;
    for k := 0 to |near|
      invariant ws == Gather(Limits(pools), near[..k]) && total == Wrap32(Sum(ws))
    {
      var w := ReadLimit(pools[near[k]]);
      assert near[..k + 1][..k] == near[..k];
      SumNext(ws + [w], k);
      assert (ws + [w])[..k + 1] == ws + [w] && (ws + [w])[..k] == ws;
      ws := ws + [w];
      total := Wrap32(total + w);
    }
    assert near[..|near|] == near;
  }

  lemma SomeoneNear(loads: seq<real>)
    requires loads != []
    ensures Near(loads, PoolCut(MinOf(loads))) != []
  {
    MinOfIsMin(loads);
    var m: nat :| m < |loads| && loads[m] == MinOf(loads);
    NearComplete(loads, PoolCut(MinOf(loads)), m);
  }

  lemma NearIsClose(loads: seq<real>, i: nat, m: nat)
    requires loads != [] && i in Near(loads, PoolCut(MinOf(loads))) && m < |loads|
    ensures i < |loads| && loads[i] <= loads[m] + 0.001
  {
    MinOfIsMin(loads);
  }

  lemma TotalPositive(ws: seq<int>)
    requires ws != [] && Positive(ws) && Sum(ws) <= MAX_INT32
    ensures Wrap32(Sum(ws)) == Sum(ws) > 0
  {
    SumMonotone(ws, 0, |ws|);
    assert ws[..|ws|] == ws;
  }

  lemma PickAmongMeans(near: seq<nat>, limits: seq<int>, draw: nat)
    requires forall k :: 0 <= k < |near| ==> near[k] < |limits|
    ensures var c := PickAmong(near, limits, draw);
            && !c.Nobody?
            && (c.Selected? ==> c.index in near)
            && (c.Panics? <==> |near| != 1 && (near == [] || Wrap32(Sum(Gather(limits, near))) <= 0))
  {
    if |near| == 1 {
      assert near[0] in near;
    } else if near != [] && Wrap32(Sum(Gather(limits, near))) > 0 {
      ChooseInRange(Gather(limits, near), Below(draw, Wrap32(Sum(Gather(limits, near)))));
    }
  }

  /** The selected pool is within 0.001 of the least loaded one; the selection panics exactly
      when several pools are that close and their limits wrap to a total that is not positive. */
  lemma SelectPoolLeastLoaded(loads: seq<real>, limits: seq<int>, draw: nat)
    requires loads != [] && |loads| == |limits|
    ensures var c := SelectPool(loads, limits, draw);
            var near := Near(loads, PoolCut(MinOf(loads)));
            && !c.Nobody?
            && (c.Selected? ==> c.index < |loads| && forall m :: 0 <= m < |loads| ==> loads[c.index] <= loads[m] + 0.001)
            && (c.Panics? <==> |loads| > 1 && |near| > 1 && Wrap32(Sum(Gather(limits, near))) <= 0)
  {
    if |loads| > 1 {
      var near := Near(loads, PoolCut(MinOf(loads)));
      var c := PickAmong(near, limits, draw);
      SomeoneNear(loads);
      PickAmongMeans(near, limits, draw);
      if c.Selected? {
        forall m | 0 <= m < |loads| ensures c.index < |loads| && loads[c.index] <= loads[m] + 0.001 {
          NearIsClose(loads, c.index, m);
        }
        NearIsClose(loads, c.index, 0);
      }
    }
  }

  /** The draws on which selectPoolByLoad answers pool i. */
  function PoolWins(loads: seq<real>, limits: seq<int>, i: nat): set<int>
    requires |loads| == |limits| && loads != []
  {
    set r: int | 0 <= r < WeightNear(loads, limits, PoolCut(MinOf(loads))) && SelectPool(loads, limits, r) == Selected(i)
  }

  lemma PoolDraw(loads: seq<real>, limits: seq<int>, r: nat)
    requires |loads| == |limits| && |loads| > 1 && Near(loads, PoolCut(MinOf(loads))) != []
    requires var g := Gather(limits, Near(loads, PoolCut(MinOf(loads)))); r < Sum(g) && Wrap32(Sum(g)) == Sum(g)
    ensures var near := Near(loads, PoolCut(MinOf(loads)));
            SelectPool(loads, limits, r) == Selected(near[Choose(Gather(limits, near), r)])
  {
    var near := Near(loads, PoolCut(MinOf(loads)));
    ChooseInRange(Gather(limits, near), r);
    if |near| == 1 {
      OnlyIndex(loads, limits, PoolCut(MinOf(loads)), r);
    }
  }

  /** Among the pools within 0.001 of the least load, each is selected by exactly its limit of
      the draws as long as those limits fit int32; any other pool by none. */
  lemma PoolShare(loads: seq<real>, limits: seq<int>, i: nat)
    requires |loads| == |limits| && |loads| > 1 && Positive(limits) && i < |loads|
    requires WeightNear(loads, limits, PoolCut(MinOf(loads))) <= MAX_INT32
    ensures |PoolWins(loads, limits, i)| == if loads[i] <= MinOf(loads) + 0.001 then limits[i] else 0
  {
    var cut := PoolCut(MinOf(loads));
    var near := Near(loads, cut);
    var g := Gather(limits, near);
    SomeoneNear(loads);
    NearWeights(loads, limits, cut);
    TotalPositive(g);
    NearShare(loads, limits, cut, i);
    forall r | 0 <= r < Sum(g) ensures SelectPool(loads, limits, r) == Selected(near[Choose(g, r)]) {
      PoolDraw(loads, limits, r);
    }
    assert PoolWins(loads, limits, i) == NearWins(loads, limits, cut, i);
  }

  /** Comparing two loads is comparing the requests, active and queued, each side multiplied by
      the other's limit. */
  lemma LoadsCompared(p: PoolLoad, q: PoolLoad)
    requires p.maxConcurrent >= 1 && q.maxConcurrent >= 1
    ensures Load(p) <= Load(q) + 0.001 <==>
              1000 * (p.active + p.queueLen) * q.maxConcurrent
              <= 1000 * (q.active + q.queueLen) * p.maxConcurrent + p.maxConcurrent * q.maxConcurrent
  {
    CrossMultiply(p.active + p.queueLen, p.maxConcurrent, q.active + q.queueLen, q.maxConcurrent);
  }

  lemma CrossMultiply(a: int, b: int, c: int, d: int)
    requires b >= 1 && d >= 1
    ensures a as real / b as real <= c as real / d as real + 0.001 <==> 1000 * a * d <= 1000 * c * b + b * d
  {
    var x, y := a as real / b as real, c as real / d as real;
    QuotientTimes(a as real, b as real);
    QuotientTimes(c as real, d as real);
    var bd := b as real * d as real;
    ProductPositive(b as real, d as real);
    assert x * bd == a as real * d as real;
    assert y * bd == c as real * b as real;
    ScaleCompare(x, y + 0.001, bd);
    assert (y + 0.001) * bd == c as real * b as real + 0.001 * bd;
    assert (a * d) as real == a as real * d as real && (c * b) as real == c as real * b as real && (b * d) as real == bd;
  }

  lemma ScaleCompare(x: real, y: real, m: real)
    requires m > 0.0
    ensures x <= y <==> x * m <= y * m
  {
    if x < y {
      ProductPositive(y - x, m);
    } else if y < x {
      ProductPositive(x - y, m);
    }
  }
}
