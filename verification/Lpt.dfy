/**
 Longest-processing-time scheduling: weights in non-increasing order, each placed on the
 shard with the smallest load (lowest index on a tie). An assignment is the sequence of
 shard numbers, one per weight. `Greedy` is the assignment the planner's loop computes.
 */
module Lpt {

  ghost predicate Assignment(a: seq<nat>, n: nat, m: nat) {
    |a| == n && forall i :: 0 <= i < n ==> a[i] < m
  }

  ghost predicate NonIncreasing(w: seq<nat>) {
    forall i, j :: 0 <= i <= j < |w| ==> w[i] >= w[j]
  }

  function Sum(w: seq<nat>): nat {
    if w == [] then 0 else Sum(w[..|w| - 1]) + w[|w| - 1]
  }

  /** The total weight an assignment puts on shard q. */
  function Load(w: seq<nat>, a: seq<nat>, q: nat): nat
    requires |a| == |w|
  {
    if w == [] then 0
    else
      var n := |w| - 1;
      Load(w[..n], a[..n], q) + if a[n] == q then w[n] else 0
  }

  function Loads(w: seq<nat>, a: seq<nat>, m: nat): (r: seq<nat>)
    requires |a| == |w|
    ensures |r| == m && forall q: nat :: q < m ==> r[q] == Load(w, a, q)
  {
    seq(m, q requires 0 <= q < m => Load(w, a, q))
  }

  /** The heaviest of the first m shards. */
  function MaxLoad(w: seq<nat>, a: seq<nat>, m: nat): (r: nat)
    requires |a| == |w|
    ensures forall q: nat :: q < m ==> Load(w, a, q) <= r
    ensures m >= 1 ==> exists q: nat :: q < m && Load(w, a, q) == r
  {
    if m == 0 then 0
    else
      var rest := MaxLoad(w, a, m - 1);
      if Load(w, a, m - 1) >= rest then Load(w, a, m - 1) else rest
  }

  function LeastLoadedBelow(loads: seq<nat>, n: nat): (k: nat)
    requires 1 <= n <= |loads|
    ensures k < n
    ensures forall j :: 0 <= j < n ==> loads[k] <= loads[j]
    ensures forall j :: 0 <= j < k ==> loads[k] < loads[j]
  {
    if n == 1 then 0
    else
      var k := LeastLoadedBelow(loads, n - 1);
      if loads[n - 1] < loads[k] then n - 1 else k
  }

  function LeastLoaded(loads: seq<nat>): (k: nat)
    requires loads != []
    ensures k < |loads|
    ensures forall j :: 0 <= j < |loads| ==> loads[k] <= loads[j]
    ensures forall j :: 0 <= j < k ==> loads[k] < loads[j]
  {
    LeastLoadedBelow(loads, |loads|)
  }

  function Greedy(w: seq<nat>, m: nat): (a: seq<nat>)
    requires m >= 1
    ensures Assignment(a, |w|, m)
  {
    if w == [] then []
    else
      var rest := w[..|w| - 1];
      var a := Greedy(rest, m);
      a + [LeastLoaded(Loads(rest, a, m))]
  }

  // ----- conservation

  function SumOfLoads(w: seq<nat>, a: seq<nat>, m: nat): nat
    requires |a| == |w|
  {
    if m == 0 then 0 else SumOfLoads(w, a, m - 1) + Load(w, a, m - 1)
  }

  lemma {:induction false} SumOfLoadsStep(w: seq<nat>, a: seq<nat>, m: nat)
    requires |a| == |w| >= 1
    ensures var n := |w| - 1;
      SumOfLoads(w, a, m) == SumOfLoads(w[..n], a[..n], m) + if a[n] < m then w[n] else 0
  {
    if m > 0 {
      SumOfLoadsStep(w, a, m - 1);
    }
  }

  /** No weight is lost or counted twice, whatever the assignment. */
  lemma {:induction false} LoadsConserveWeight(w: seq<nat>, a: seq<nat>, m: nat)
    requires Assignment(a, |w|, m)
    ensures SumOfLoads(w, a, m) == Sum(w)
  {
    if w == [] {
      NoLoads(a, m);
    } else {
      var n := |w| - 1;
      SumOfLoadsStep(w, a, m);
      LoadsConserveWeight(w[..n], a[..n], m);
    }
  }

  lemma {:induction false} NoLoads(a: seq<nat>, m: nat)
    requires a == []
    ensures SumOfLoads([], a, m) == 0
  {
    if m > 0 {
      NoLoads(a, m - 1);
    }
  }

  lemma {:induction false} LoadsAtLeast(w: seq<nat>, a: seq<nat>, m: nat, bound: nat)
    requires |a| == |w|
    requires forall q: nat :: q < m ==> Load(w, a, q) >= bound
    ensures SumOfLoads(w, a, m) >= m * bound
  {
    if m > 0 {
      LoadsAtLeast(w, a, m - 1, bound);
      assert m * bound == (m - 1) * bound + bound;
    }
  }

  lemma {:induction false} LoadsAtMost(w: seq<nat>, a: seq<nat>, m: nat, bound: nat)
    requires |a| == |w|
    requires forall q: nat :: q < m ==> Load(w, a, q) <= bound
    ensures SumOfLoads(w, a, m) <= m * bound
  {
    if m > 0 {
      LoadsAtMost(w, a, m - 1, bound);
      assert m * bound == (m - 1) * bound + bound;
    }
  }

  // ----- prefixes

  lemma {:induction false} LoadGrows(w: seq<nat>, a: seq<nat>, k: nat, q: nat)
    requires |a| == |w| && k <= |w|
    ensures Load(w[..k], a[..k], q) <= Load(w, a, q)
    decreases |w|
  {
    if k == |w| {
      assert w[..k] == w && a[..k] == a;
    } else {
      var n := |w| - 1;
      assert w[..n][..k] == w[..k] && a[..n][..k] == a[..k];
      LoadGrows(w[..n], a[..n], k, q);
    }
  }

  lemma {:induction false} GreedyPrefix(w: seq<nat>, m: nat, k: nat)
    requires m >= 1 && k <= |w|
    ensures Greedy(w, m)[..k] == Greedy(w[..k], m)
    decreases |w|
  {
    if k == |w| {
      assert w[..k] == w;
    } else {
      var n := |w| - 1;
      assert w[..n][..k] == w[..k];
      GreedyPrefix(w[..n], m, k);
      assert Greedy(w, m)[..k] == Greedy(w[..n], m)[..k];
    }
  }

  /** Weight i went to the first least loaded shard of what was placed before. */
  lemma GreedyTook(w: seq<nat>, m: nat, i: nat)
    requires m >= 1 && i < |w|
    ensures var a := Greedy(w, m);
      a[i] == LeastLoaded(Loads(w[..i], a[..i], m))
  {
    GreedyAtPrefix(w, m, i);
  }

  /** So no other shard was lighter. */
  lemma GreedyChoice(w: seq<nat>, m: nat, i: nat, r: nat)
    requires m >= 1 && i < |w| && r < m
    ensures var a := Greedy(w, m);
      Load(w[..i], a[..i], a[i]) <= Load(w[..i], a[..i], r)
  {
    GreedyTook(w, m, i);
  }

  /** The last weight on a loaded shard. */
  lemma {:induction false} LastOnShard(w: seq<nat>, a: seq<nat>, q: nat) returns (j: nat)
    requires |a| == |w|
    requires exists i :: 0 <= i < |a| && a[i] == q
    ensures j < |w| && a[j] == q
    ensures forall i :: j < i < |a| ==> a[i] != q
    ensures Load(w, a, q) == Load(w[..j], a[..j], q) + w[j]
  {
    var n := |w| - 1;
    if a[n] == q {
      j := n;
    } else {
      assert exists i :: 0 <= i < n && a[..n][i] == q;
      j := LastOnShard(w[..n], a[..n], q);
      assert w[..n][..j] == w[..j] && a[..n][..j] == a[..j];
    }
  }

  /** A shard that carries weight was given something. */
  lemma {:induction false} LoadedShardIsOccupied(w: seq<nat>, a: seq<nat>, q: nat)
    requires |a| == |w| && Load(w, a, q) > 0
    ensures exists i :: 0 <= i < |a| && a[i] == q
  {
    var n := |w| - 1;
    if a[n] != q {
      LoadedShardIsOccupied(w[..n], a[..n], q);
      var i :| 0 <= i < n && a[..n][i] == q;
      assert a[i] == q;
    }
  }

  // ----- equilibrium

  /**
   In the finished plan, taking any one weight off its shard leaves that shard no heavier
   than any other one.
   */
  lemma {:induction false} Equilibrium(w: seq<nat>, m: nat, i: nat, r: nat)
    requires m >= 1 && NonIncreasing(w) && i < |w| && r < m
    ensures var a := Greedy(w, m);
      Load(w, a, a[i]) <= Load(w, a, r) + w[i]
  {
    var a := Greedy(w, m);
    var j := LastOnShard(w, a, a[i]);
    assert i <= j;
    GreedyChoice(w, m, j, r);
    LoadGrows(w, a, j, r);
  }

  /** m times the heaviest shard is at most the total plus m-1 times the heaviest group. */
  lemma GreedyNearAverage(w: seq<nat>, m: nat)
    requires m >= 1 && NonIncreasing(w) && w != []
    ensures m * MaxLoad(w, Greedy(w, m), m) <= Sum(w) + (m - 1) * w[0]
  {
    if MaxLoad(w, Greedy(w, m), m) > 0 {
      var before, x, placed := TopShard(w, m);
      NearAverageArithmetic(m, before, x, placed, Sum(w), w[0]);
    } else {
      NearAverageArithmetic(m, 0, 0, 0, Sum(w), w[0]);
    }
  }

  /** The heaviest shard, taken apart at its critical weight. */
  lemma TopShard(w: seq<nat>, m: nat) returns (before: nat, x: nat, placed: nat)
    requires m >= 1 && NonIncreasing(w) && MaxLoad(w, Greedy(w, m), m) > 0
    ensures MaxLoad(w, Greedy(w, m), m) == before + x && w != [] && x <= w[0]
    ensures m * before <= placed && placed + x <= Sum(w)
  {
    var a := Greedy(w, m);
    var j := CriticalWeight(w, m);
    before, x, placed := Load(w[..j], a[..j], a[j]), w[j], Sum(w[..j]);
    MinLoadBelowAverage(w, m, j);
    SumPrefix(w, j);
  }

  lemma NearAverageArithmetic(m: nat, before: nat, x: nat, placed: nat, total: nat, heaviest: nat)
    requires m >= 1 && m * before <= placed && placed + x <= total && x <= heaviest
    ensures m * (before + x) <= total + (m - 1) * heaviest
  {
    assert m * (before + x) == m * before + (m - 1) * x + x;
    assert (m - 1) * x <= (m - 1) * heaviest;
  }

  /** The weight whose placement made the heaviest shard as heavy as it ends up. */
  lemma CriticalWeight(w: seq<nat>, m: nat) returns (j: nat)
    requires m >= 1 && MaxLoad(w, Greedy(w, m), m) > 0
    ensures j < |w|
    ensures var a := Greedy(w, m);
      MaxLoad(w, a, m) == Load(w[..j], a[..j], a[j]) + w[j]
  {
    var a := Greedy(w, m);
    var q: nat :| q < m && Load(w, a, q) == MaxLoad(w, a, m);
    LoadedShardIsOccupied(w, a, q);
    j := LastOnShard(w, a, q);
  }

  /** The shard chosen for weight j holds at most an m-th of what was placed before. */
  lemma MinLoadBelowAverage(w: seq<nat>, m: nat, j: nat)
    requires m >= 1 && j < |w|
    ensures var a := Greedy(w, m); m * Load(w[..j], a[..j], a[j]) <= Sum(w[..j])
  {
    var a := Greedy(w, m);
    var least := Load(w[..j], a[..j], a[j]);
    forall r: nat | r < m ensures Load(w[..j], a[..j], r) >= least {
      GreedyChoice(w, m, j, r);
    }
    LoadsAtLeast(w[..j], a[..j], m, least);
    LoadsConserveWeight(w[..j], a[..j], m);
  }

  lemma {:induction false} SumPrefix(w: seq<nat>, j: nat)
    requires j < |w|
    ensures Sum(w[..j]) + w[j] <= Sum(w)
    decreases |w|
  {
    var n := |w| - 1;
    if j < n {
      assert w[..n][..j] == w[..j];
      SumPrefix(w[..n], j);
    }
  }

  // ----- the quality bound

  /** The score of weight i beside a smallest weight s: 2 when the pair overflows cap. */
  function Score(x: nat, s: nat, cap: nat): nat {
    if x + s > cap then 2 else 1
  }

  function Scores(w: seq<nat>, s: nat, cap: nat): (v: seq<nat>)
    ensures |v| == |w|
  {
    seq(|w|, i requires 0 <= i < |w| => Score(w[i], s, cap))
  }

  /**
   When every weight is at least s and s exceeds a third of cap, the score collected by a
   shard tells its load apart: at most 1 leaves room for s, at least 3 overflows cap.
   */
  lemma {:induction false} ScoreMeasuresLoad(w: seq<nat>, a: seq<nat>, q: nat, s: nat, cap: nat)
    requires |a| == |w|
    requires forall i :: 0 <= i < |w| ==> w[i] >= s
    requires s <= cap < 3 * s
    ensures var v := Load(Scores(w, s, cap), a, q);
      && (v == 0 ==> Load(w, a, q) == 0)
      && (v == 1 ==> s <= Load(w, a, q) <= cap - s)
      && (v == 2 ==> Load(w, a, q) + s > cap)
      && (v >= 3 ==> Load(w, a, q) > cap)
  {
    if w != [] {
      var n := |w| - 1;
      assert Scores(w, s, cap)[..n] == Scores(w[..n], s, cap);
      ScoreMeasuresLoad(w[..n], a[..n], q, s, cap);
    }
  }

  /**
   The hard case. If some assignment b of the first j+1 weights keeps every shard within
   cap and the last of them exceeds a third of cap, then greedy places it within cap.
   Otherwise every greedy shard would score 2, while no shard of b scores more.
   */
  lemma LargeWeightFits(w: seq<nat>, m: nat, b: seq<nat>, cap: nat)
    requires m >= 1 && w != [] && NonIncreasing(w)
    requires Assignment(b, |w|, m)
    requires forall q: nat :: q < m ==> Load(w, b, q) <= cap
    requires 3 * w[|w| - 1] > cap
    ensures var n := |w| - 1; var a := Greedy(w, m);
      Load(w[..n], a[..n], a[n]) + w[n] <= cap
  {
    var n := |w| - 1;
    var s := w[n];
    var a := Greedy(w, m);
    assert a[..n] == Greedy(w[..n], m);
    assert Load(w, b, b[n]) >= s;
    var v := Scores(w, s, cap);
    assert Sum(v) == Sum(v[..n]) + v[n];
    if Load(w[..n], a[..n], a[n]) + s > cap {
      assert v[..n] == Scores(w[..n], s, cap);
      forall q: nat | q < m ensures Load(v, b, q) <= 2 {
        ScoreMeasuresLoad(w, b, q, s, cap);
      }
      LoadsAtMost(v, b, m, 2);
      LoadsConserveWeight(v, b, m);
      forall q: nat | q < m ensures Load(v[..n], a[..n], q) >= 2 {
        GreedyChoice(w, m, n, q);
        ScoreMeasuresLoad(w[..n], a[..n], q, s, cap);
      }
      LoadsAtLeast(v[..n], a[..n], m, 2);
      LoadsConserveWeight(v[..n], a[..n], m);
      assert false;
    }
  }

  /** greedyTop / top <= 4/3 - 1/(3m), without division. */
  ghost predicate WithinGraham(m: nat, greedyTop: nat, top: nat) {
    3 * m * greedyTop <= (4 * m - 1) * top
  }

  /** The small case: the critical weight is at most a third of the other schedule's top. */
  lemma SmallWeightBound(m: nat, before: nat, x: nat, total: nat, top: nat)
    requires m >= 1 && m * before <= total && total + x <= m * top && 3 * x <= top
    ensures WithinGraham(m, before + x, top)
  {
    assert m * (before + x) == m * before + m * x;
    assert m * x == (m - 1) * x + x;
    assert m * (before + x) <= m * top + (m - 1) * x;
    assert 3 * ((m - 1) * x) == (m - 1) * (3 * x) <= (m - 1) * top;
    assert 3 * m * (before + x) == 3 * (m * (before + x));
    assert (4 * m - 1) * top == 3 * (m * top) + (m - 1) * top;
  }

  /**
   Graham's bound: against any assignment b of the same weights to the same number of
   shards, the greedy plan's heaviest shard is at most 4/3 - 1/(3m) of b's heaviest.
   */
  lemma {:induction false} LptBound(w: seq<nat>, m: nat, b: seq<nat>)
    requires m >= 1 && NonIncreasing(w)
    requires Assignment(b, |w|, m)
    ensures WithinGraham(m, MaxLoad(w, Greedy(w, m), m), MaxLoad(w, b, m))
  {
    var greedyTop, top := MaxLoad(w, Greedy(w, m), m), MaxLoad(w, b, m);
    var before, x, placed := 0, 0, 0;
    if greedyTop > top {
      before, x, placed := OverflowIsSmall(w, m, b);
    }
    EitherWayWithin(m, greedyTop, top, before, x, placed);
  }

  lemma EitherWayWithin(m: nat, greedyTop: nat, top: nat, before: nat, x: nat, placed: nat)
    requires m >= 1
    requires greedyTop > top ==>
      greedyTop == before + x && m * before <= placed && placed + x <= m * top && 3 * x <= top
    ensures WithinGraham(m, greedyTop, top)
  {
    if greedyTop <= top {
      LargeArithmetic(m, greedyTop, top);
    } else {
      SmallWeightBound(m, before, x, placed, top);
    }
  }

  /** If greedy is beaten at all, its critical weight is at most a third of b's heaviest. */
  lemma OverflowIsSmall(w: seq<nat>, m: nat, b: seq<nat>) returns (before: nat, x: nat, placed: nat)
    requires m >= 1 && NonIncreasing(w)
    requires Assignment(b, |w|, m)
    requires MaxLoad(w, Greedy(w, m), m) > MaxLoad(w, b, m)
    ensures MaxLoad(w, Greedy(w, m), m) == before + x
    ensures m * before <= placed && placed + x <= m * MaxLoad(w, b, m)
    ensures 3 * x <= MaxLoad(w, b, m)
  {
    var a, top := Greedy(w, m), MaxLoad(w, b, m);
    var j := CriticalWeight(w, m);
    before, x, placed := Load(w[..j], a[..j], a[j]), w[j], Sum(w[..j]);
    OverflowingWeightIsSmall(w, m, b, j, top);
    MinLoadBelowAverage(w, m, j);
    PrefixTotalWithin(w, b, m, j, top);
  }

  /** A weight that greedy places above top, while b stays within it, is at most top / 3. */
  lemma OverflowingWeightIsSmall(w: seq<nat>, m: nat, b: seq<nat>, j: nat, top: nat)
    requires m >= 1 && NonIncreasing(w) && Assignment(b, |w|, m) && j < |w|
    requires forall q: nat :: q < m ==> Load(w, b, q) <= top
    requires var a := Greedy(w, m); Load(w[..j], a[..j], a[j]) + w[j] > top
    ensures 3 * w[j] <= top
  {
    if 3 * w[j] > top {
      PrefixWithin(w, b, m, j + 1, top);
      LargeWeightFits(w[..j + 1], m, b[..j + 1], top);
      GreedyAtPrefix(w, m, j);
    }
  }

  /** Greedy places weight j among the first j + 1 as it does among all. */
  lemma GreedyAtPrefix(w: seq<nat>, m: nat, j: nat)
    requires m >= 1 && j < |w|
    ensures var a, p := Greedy(w, m), w[..j + 1];
      && p[..j] == w[..j]
      && Greedy(p, m)[..j] == a[..j] && Greedy(p, m)[j] == a[j]
  {
    GreedyPrefix(w, m, j + 1);
    assert w[..j + 1][..j] == w[..j];
    assert Greedy(w, m)[..j + 1][..j] == Greedy(w, m)[..j];
  }

  lemma PrefixTotalWithin(w: seq<nat>, b: seq<nat>, m: nat, j: nat, top: nat)
    requires Assignment(b, |w|, m) && j < |w|
    requires forall q: nat :: q < m ==> Load(w, b, q) <= top
    ensures Sum(w[..j]) + w[j] <= m * top
  {
    PrefixWithin(w, b, m, j + 1, top);
    LoadsAtMost(w[..j + 1], b[..j + 1], m, top);
    LoadsConserveWeight(w[..j + 1], b[..j + 1], m);
    assert w[..j + 1][..j] == w[..j];
  }

  lemma LargeArithmetic(m: nat, greedyTop: nat, top: nat)
    requires m >= 1 && greedyTop <= top
    ensures WithinGraham(m, greedyTop, top)
  {
    assert 3 * m * greedyTop <= 3 * m * top;
    assert (4 * m - 1) * top == 3 * m * top + (m - 1) * top;
  }

  lemma PrefixWithin(w: seq<nat>, b: seq<nat>, m: nat, k: nat, top: nat)
    requires |b| == |w| && k <= |w|
    requires forall q: nat :: q < m ==> Load(w, b, q) <= top
    ensures forall q: nat :: q < m ==> Load(w[..k], b[..k], q) <= top
  {
    forall q: nat | q < m ensures Load(w[..k], b[..k], q) <= top {
      LoadGrows(w, b, k, q);
    }
  }

  /** The constant cannot be improved: five weights on two shards attain it. */
  lemma LptBoundIsAttained()
    ensures exists w: seq<nat>, b: seq<nat> ::
      && NonIncreasing(w) && Assignment(b, |w|, 2) && MaxLoad(w, b, 2) > 0
      && 3 * 2 * MaxLoad(w, Greedy(w, 2), 2) == (4 * 2 - 1) * MaxLoad(w, b, 2)
  {
    GreedyOnFive();
    OptimumOnFive();
    var w: seq<nat> := [3, 3, 2, 2, 2];
    assert NonIncreasing(w) && Assignment([0, 0, 1, 1, 1], |w|, 2);
  }

  lemma GreedyOnTwo()
    ensures Greedy([3, 3], 2) == [0, 1]
    ensures Load([3, 3], [0, 1], 0) == 3 && Load([3, 3], [0, 1], 1) == 3
  {
    PlaceNext([], [], 3);
    assert [] + [3] == [3] && [] + [0] == [0];
    PlaceNext([3], [0], 3);
    assert [3] + [3] == [3, 3] && [0] + [1] == [0, 1];
  }

  lemma GreedyOnThree()
    ensures Greedy([3, 3, 2], 2) == [0, 1, 0]
    ensures Load([3, 3, 2], [0, 1, 0], 0) == 5 && Load([3, 3, 2], [0, 1, 0], 1) == 3
  {
    GreedyOnTwo();
    PlaceNext([3, 3], [0, 1], 2);
    assert [3, 3] + [2] == [3, 3, 2] && [0, 1] + [0] == [0, 1, 0];
  }

  lemma GreedyOnFive()
    ensures MaxLoad([3, 3, 2, 2, 2], Greedy([3, 3, 2, 2, 2], 2), 2) == 7
  {
    GreedyOnThree();
    PlaceNext([3, 3, 2], [0, 1, 0], 2);
    assert [3, 3, 2] + [2] == [3, 3, 2, 2] && [0, 1, 0] + [1] == [0, 1, 0, 1];
    PlaceNext([3, 3, 2, 2], [0, 1, 0, 1], 2);
    assert [3, 3, 2, 2] + [2] == [3, 3, 2, 2, 2];
  }

  lemma OptimumOnThree()
    ensures Load([3, 3, 2], [0, 0, 1], 0) == 6 && Load([3, 3, 2], [0, 0, 1], 1) == 2
  {
    AddOne([], [], 3, 0);
    assert [] + [3] == [3] && [] + [0] == [0];
    AddOne([3], [0], 3, 0);
    assert [3] + [3] == [3, 3] && [0] + [0] == [0, 0];
    AddOne([3, 3], [0, 0], 2, 1);
    assert [3, 3] + [2] == [3, 3, 2] && [0, 0] + [1] == [0, 0, 1];
  }

  lemma OptimumOnFive()
    ensures MaxLoad([3, 3, 2, 2, 2], [0, 0, 1, 1, 1], 2) == 6
  {
    OptimumOnThree();
    AddOne([3, 3, 2], [0, 0, 1], 2, 1);
    assert [3, 3, 2] + [2] == [3, 3, 2, 2] && [0, 0, 1] + [1] == [0, 0, 1, 1];
    AddOne([3, 3, 2, 2], [0, 0, 1, 1], 2, 1);
    assert [3, 3, 2, 2] + [2] == [3, 3, 2, 2, 2] && [0, 0, 1, 1] + [1] == [0, 0, 1, 1, 1];
  }

  /** One more weight: the loads of the two shards. */
  ghost predicate OneMore(w: seq<nat>, a: seq<nat>, x: nat, k: nat)
    requires |a| == |w|
  {
    && Load(w + [x], a + [k], 0) == Load(w, a, 0) + (if k == 0 then x else 0)
    && Load(w + [x], a + [k], 1) == Load(w, a, 1) + (if k == 1 then x else 0)
  }

  lemma AddOne(w: seq<nat>, a: seq<nat>, x: nat, k: nat)
    requires |a| == |w|
    ensures OneMore(w, a, x, k)
  {
    assert (w + [x])[..|w|] == w && (a + [k])[..|w|] == a;
  }

  lemma PlaceNext(w: seq<nat>, a: seq<nat>, x: nat)
    requires Greedy(w, 2) == a
    ensures var k := if Load(w, a, 1) < Load(w, a, 0) then 1 else 0;
      Greedy(w + [x], 2) == a + [k] && OneMore(w, a, x, k)
  {
    assert (w + [x])[..|w|] == w;
    var k := LeastLoaded(Loads(w, a, 2));
    AddOne(w, a, x, k);
  }

  // ----- no shard stays empty

  /** With positive weights the first m of them open the m shards in index order. */
  lemma {:induction false} FirstWeightsSpread(w: seq<nat>, m: nat, i: nat)
    requires m >= 1 && i < |w| && i < m
    requires forall k :: 0 <= k < |w| ==> w[k] >= 1
    ensures Greedy(w, m)[i] == i
    decreases i
  {
    var a := Greedy(w, m);
    var before := a[..i];
    forall k: nat | k < i ensures before[k] == k {
      FirstWeightsSpread(w, m, k);
    }
    GreedyTook(w, m, i);
    NextIsFresh(w[..i], before, m);
  }

  lemma NextIsFresh(w: seq<nat>, before: seq<nat>, m: nat)
    requires |before| == |w| < m
    requires forall k: nat :: k < |w| ==> before[k] == k && w[k] >= 1
    ensures LeastLoaded(Loads(w, before, m)) == |w|
  {
    UntouchedShard(w, before, |w|);
    forall k: nat | k < |w| ensures Load(w, before, k) >= 1 {
      TouchedShard(w, before, k);
    }
    assert Loads(w, before, m)[|w|] == 0;
  }

  lemma {:induction false} UntouchedShard(w: seq<nat>, a: seq<nat>, q: nat)
    requires |a| == |w|
    requires forall i :: 0 <= i < |a| ==> a[i] != q
    ensures Load(w, a, q) == 0
  {
    if w != [] {
      UntouchedShard(w[..|w| - 1], a[..|w| - 1], q);
    }
  }

  lemma {:induction false} TouchedShard(w: seq<nat>, a: seq<nat>, k: nat)
    requires |a| == |w| && k < |a| && w[k] >= 1
    ensures Load(w, a, a[k]) >= 1
  {
    var n := |w| - 1;
    if k < n {
      assert a[..n][k] == a[k];
      TouchedShard(w[..n], a[..n], k);
    }
  }
}
