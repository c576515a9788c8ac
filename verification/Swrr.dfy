/** Smooth weighted round robin (`WeightedRoundRobinLB::select` in `skynet/src/proxy/load_balancer.cpp`). */
module Swrr {
  import opened Bytes

  datatype Upstream = Upstream(weight: int, healthy: bool)

  // ---- One selection ----

  /** Total weight of the healthy upstreams among the first `n`. */
  function Total(ups: seq<Upstream>, n: nat): int
    requires n <= |ups|
  {
    if n == 0 then 0 else Total(ups, n - 1) + if ups[n - 1].healthy then ups[n - 1].weight else 0
  }

  /** Healthy upstreams gain their weight. */
  function Raised(cur: seq<int>, ups: seq<Upstream>): (r: seq<int>)
    requires |cur| == |ups|
    ensures |r| == |cur|
    ensures forall i :: 0 <= i < |cur| ==> r[i] == if ups[i].healthy then cur[i] + ups[i].weight else cur[i]
  {
    seq(|cur|, i requires 0 <= i < |cur| => if ups[i].healthy then cur[i] + ups[i].weight else cur[i])
  }

  /** The first index of a greatest value above -1 among the healthy of the first `n`, or -1. */
  function Best(v: seq<int>, ups: seq<Upstream>, n: nat): (b: int)
    requires |v| == |ups| && n <= |ups|
    ensures -1 <= b < n
    ensures b >= 0 ==> ups[b].healthy && v[b] > -1
    ensures b >= 0 ==> forall i :: 0 <= i < n && ups[i].healthy ==> v[i] <= v[b]
    ensures b >= 0 ==> forall i :: 0 <= i < b && ups[i].healthy ==> v[i] < v[b]
    ensures b < 0 ==> forall i :: 0 <= i < n && ups[i].healthy ==> v[i] <= -1
  {
    if n == 0 then -1
    else
      var b := Best(v, ups, n - 1);
      if ups[n - 1].healthy && v[n - 1] > (if b < 0 then -1 else v[b]) then n - 1 else b
  }

  /** Weights after a selection, and the selected upstream if any. */
  function Selected(cur: seq<int>, ups: seq<Upstream>): (r: (seq<int>, Option<nat>))
    requires |cur| == |ups|
    ensures |r.0| == |cur|
    ensures r.1.Some? ==> r.1.value < |ups| && ups[r.1.value].healthy
  {
    var v := Raised(cur, ups);
    var b := Best(v, ups, |ups|);
    if b < 0 then (v, None) else (v[b := v[b] - Total(ups, |ups|)], Some(b))
  }

  class WeightedRoundRobin {
    var current: array<int>

    constructor (n: nat)
      ensures current.Length == n && fresh(current)
      ensures forall i :: 0 <= i < n ==> current[i] == 0
    {
      current := new int[n](_ => 0);
    }

    /** `resize`: keeps what fits, pads with zeros. */
    static function Resized(cur: seq<int>, n: nat): (r: seq<int>)
      ensures |r| == n
    {
      seq(n, i requires 0 <= i < n => if i < |cur| then cur[i] else 0)
    }

    method Resize(n: nat)
      modifies this
      ensures fresh(current) && current[..] == Resized(old(current[..]), n)
    {
      var old' := current[..];
      current := new int[n](i => if 0 <= i < |old'| then old'[i] else 0);
    }

    /** The loop of `select`: raises the healthy weights in place and tracks the best. */
    static method RaiseAll(a: array<int>, ups: seq<Upstream>) returns (totalWeight: int, bestIdx: int)
      requires a.Length == |ups|
      modifies a
      ensures a[..] == Raised(old(a[..]), ups) && totalWeight == Total(ups, |ups|)
      ensures bestIdx == Best(Raised(old(a[..]), ups), ups, |ups|)
    {
      ghost var start := a[..];
      var bestWeight := -1;
      totalWeight, bestIdx := 0, -1;
      for i := 0 to |ups|
        invariant totalWeight == Total(ups, i)
        invariant forall j :: 0 <= j < i ==> a[j] == Raised(start, ups)[j]
        invariant forall j :: i <= j < |ups| ==> a[j] == start[j]
        invariant bestIdx == Best(Raised(start, ups), ups, i)
        invariant bestWeight == if bestIdx < 0 then -1 else a[bestIdx]
      {
        if !ups[i].healthy { continue; }
        a[i] := a[i] + ups[i].weight;
        totalWeight := totalWeight + ups[i].weight;
        if a[i] > bestWeight {
          bestWeight := a[i];
          bestIdx := i;
        }
      }
      assert a[..] == Raised(start, ups);
    }

    method Select(ups: seq<Upstream>) returns (pick: Option<nat>)
      modifies this, current
      ensures ups == [] ==> pick == None && current == old(current) && current[..] == old(current[..])
      ensures ups != [] ==>
        current.Length == |ups| && (current[..], pick) == Selected(Resized(old(current[..]), |ups|), ups)
    {
      hide Best, Raised, Total;
      if |ups| == 0 { return None; }
      assert current.Length == |ups| ==> current[..] == Resized(current[..], |ups|);
      if current.Length != |ups| { Resize(|ups|); }
      var totalWeight, bestIdx := RaiseAll(current, ups);
      if bestIdx < 0 { return None; }
      current[bestIdx] := current[bestIdx] - totalWeight;
      return Some(bestIdx);
    }
  }

  // ---- Long runs over a fixed set of upstreams ----

  /** At least one healthy upstream, positive weights. */
  ghost predicate Balanced(ups: seq<Upstream>) {
    && (exists i :: 0 <= i < |ups| && ups[i].healthy)
    && (forall i :: 0 <= i < |ups| && ups[i].healthy ==> ups[i].weight > 0)
  }

  function Zeros(n: nat): (z: seq<int>)
    ensures |z| == n && forall i :: 0 <= i < n ==> z[i] == 0
  {
    seq(n, _ => 0)
  }

  /** Weights and picks after `n` selections from the zero state. */
  function Run(ups: seq<Upstream>, n: nat): (r: (seq<int>, seq<Option<nat>>))
    ensures |r.0| == |ups| && |r.1| == n
    decreases n
  {
    if n == 0 then (Zeros(|ups|), [])
    else
      var (cur, picks) := Run(ups, n - 1);
      var (cur', pick) := Selected(cur, ups);
      (cur', picks + [pick])
  }

  function Sum(v: seq<int>, n: nat): int
    requires n <= |v|
  {
    if n == 0 then 0 else Sum(v, n - 1) + v[n - 1]
  }

  function Count(picks: seq<Option<nat>>, i: nat): nat {
    if |picks| == 0 then 0
    else Count(picks[..|picks| - 1], i) + if picks[|picks| - 1] == Some(i) then 1 else 0
  }

  lemma CountSnoc(picks: seq<Option<nat>>, p: Option<nat>, i: nat)
    ensures Count(picks + [p], i) == Count(picks, i) + if p == Some(i) then 1 else 0
  {
    assert (picks + [p])[..|picks|] == picks;
  }

  lemma {:induction false} RaisedSum(cur: seq<int>, ups: seq<Upstream>, n: nat)
    requires |cur| == |ups| && n <= |ups|
    ensures Sum(Raised(cur, ups), n) == Sum(cur, n) + Total(ups, n)
  {
    hide Raised;
    if n > 0 { RaisedSum(cur, ups, n - 1); }
  }

  lemma {:induction false} SumUpdate(v: seq<int>, b: nat, x: int, n: nat)
    requires b < |v| && n <= |v|
    ensures Sum(v[b := x], n) == Sum(v, n) + if b < n then x - v[b] else 0
  {
    if n > 0 { SumUpdate(v, b, x, n - 1); }
  }

  lemma {:induction false} SumOfNonPositive(v: seq<int>, n: nat)
    requires n <= |v| && forall i :: 0 <= i < n ==> v[i] <= 0
    ensures Sum(v, n) <= 0
  {
    if n > 0 { SumOfNonPositive(v, n - 1); }
  }

  lemma {:induction false} TotalPositive(ups: seq<Upstream>, n: nat)
    requires n <= |ups| && forall i :: 0 <= i < |ups| && ups[i].healthy ==> ups[i].weight > 0
    ensures Total(ups, n) >= 0
    ensures (exists i :: 0 <= i < n && ups[i].healthy) ==> Total(ups, n) > 0
  {
    if n > 0 {
      TotalPositive(ups, n - 1);
      if exists i :: 0 <= i < n && ups[i].healthy {
        var i :| 0 <= i < n && ups[i].healthy;
        if i < n - 1 { assert 0 <= i < n - 1 && ups[i].healthy; }
      }
    }
  }

  /** What every state of a run satisfies: exact bookkeeping, weights summing to zero and above -W. */
  ghost predicate Fair(ups: seq<Upstream>, n: nat, cur: seq<int>, picks: seq<Option<nat>>)
    requires |cur| == |ups|
  {
    var w := Total(ups, |ups|);
    && Sum(cur, |cur|) == 0
    && (forall i :: 0 <= i < |ups| && ups[i].healthy ==> cur[i] > -w)
    && (forall i :: 0 <= i < |ups| ==> Booked(ups, n, w, cur[i], Count(picks, i), i))
    && |picks| == n
  }

  /** The credit of an upstream is its fair share so far minus what it was given. */
  predicate Booked(ups: seq<Upstream>, n: nat, w: int, credit: int, count: nat, i: nat)
    requires i < |ups|
  {
    if ups[i].healthy then credit == n * ups[i].weight - w * count else credit == 0 && count == 0
  }

  /** Some raised weight is positive, so a healthy upstream is always selected. */
  lemma PickExists(ups: seq<Upstream>, cur: seq<int>)
    requires Balanced(ups) && |cur| == |ups| && Sum(cur, |cur|) == 0
    requires forall i :: 0 <= i < |ups| && !ups[i].healthy ==> cur[i] == 0
    ensures var b := Best(Raised(cur, ups), ups, |ups|); b >= 0 && Raised(cur, ups)[b] > 0
  {
    hide Best, Sum, Total;
    var v := Raised(cur, ups);
    RaisedSum(cur, ups, |ups|);
    TotalPositive(ups, |ups|);
    var b := Best(v, ups, |ups|);
    if b < 0 || v[b] <= 0 { SumOfNonPositive(v, |ups|); }
  }

  lemma BookedStep(ups: seq<Upstream>, n: nat, w: int, credit: int, count: nat, i: nat, picked: bool)
    requires i < |ups| && Booked(ups, n, w, credit, count, i) && (picked ==> ups[i].healthy)
    ensures var raised := if ups[i].healthy then credit + ups[i].weight else credit;
            Booked(ups, n + 1, w, if picked then raised - w else raised, count + if picked then 1 else 0, i)
  {
    assert (n + 1) * ups[i].weight == n * ups[i].weight + ups[i].weight;
    assert w * (count + 1) == w * count + w;
  }

  lemma FairStep(ups: seq<Upstream>, n: nat, cur: seq<int>, picks: seq<Option<nat>>)
    requires Balanced(ups) && |cur| == |ups| && Fair(ups, n, cur, picks)
    ensures var (cur', pick) := Selected(cur, ups);
            pick.Some? && Fair(ups, n + 1, cur', picks + [pick])
  {
    hide Best, Sum, Total, Count, Booked, Balanced;
    var w, v := Total(ups, |ups|), Raised(cur, ups);
    UnhealthyAtZero(ups, n, cur, picks);
    PickExists(ups, cur);
    RaisedSum(cur, ups, |ups|);
    var b := Best(v, ups, |ups|);
    SumUpdate(v, b, v[b] - w, |v|);
    var cur', picks' := v[b := v[b] - w], picks + [Some(b)];
    forall i | 0 <= i < |ups|
      ensures Booked(ups, n + 1, w, cur'[i], Count(picks', i), i)
      ensures ups[i].healthy ==> cur'[i] > -w
    {
      BookedStep(ups, n, w, cur[i], Count(picks, i), i, i == b);
      CountSnoc(picks, Some(b), i);
      WeightPositive(ups, i);
    }
  }

  lemma WeightPositive(ups: seq<Upstream>, i: nat)
    requires Balanced(ups) && i < |ups|
    ensures ups[i].healthy ==> ups[i].weight > 0
  {
  }

  lemma UnhealthyAtZero(ups: seq<Upstream>, n: nat, cur: seq<int>, picks: seq<Option<nat>>)
    requires |cur| == |ups| && Fair(ups, n, cur, picks)
    ensures forall i :: 0 <= i < |ups| && !ups[i].healthy ==> cur[i] == 0
  {
    hide Sum, Total, Count;
    forall i | 0 <= i < |ups| && !ups[i].healthy
      ensures cur[i] == 0
    {
      assert Booked(ups, n, Total(ups, |ups|), cur[i], Count(picks, i), i);
    }
  }

  /** Every state of every run from zero is fair. */
  lemma {:induction false} RunIsFair(ups: seq<Upstream>, n: nat)
    requires Balanced(ups)
    ensures Fair(ups, n, Run(ups, n).0, Run(ups, n).1)
    ensures forall j :: 0 <= j < n ==> Run(ups, n).1[j].Some?
    decreases n
  {
    hide Balanced, Sum, Total, Count, Booked, Selected;
    if n == 0 {
      SumOfZeros(|ups|);
      StartIsFair(ups);
    } else {
      RunIsFair(ups, n - 1);
      FairStep(ups, n - 1, Run(ups, n - 1).0, Run(ups, n - 1).1);
    }
  }

  lemma {:induction false} SumOfZeros(n: nat)
    ensures Sum(Zeros(n), n) == 0
  {
    ZeroSum(Zeros(n), n);
  }

  lemma {:induction false} ZeroSum(v: seq<int>, n: nat)
    requires n <= |v| && forall i :: 0 <= i < n ==> v[i] == 0
    ensures Sum(v, n) == 0
  {
    if n > 0 { ZeroSum(v, n - 1); }
  }

  lemma StartIsFair(ups: seq<Upstream>)
    requires Balanced(ups)
    ensures Fair(ups, 0, Zeros(|ups|), [])
  {
    hide Sum;
    SumOfZeros(|ups|);
    TotalPositive(ups, |ups|);
  }

  /** No upstream is ever a full pick ahead of its share, and unhealthy ones are never picked. */
  lemma NeverAFullPickAhead(ups: seq<Upstream>, n: nat, i: nat)
    requires Balanced(ups) && i < |ups|
    ensures var w, c := Total(ups, |ups|), Count(Run(ups, n).1, i);
            if ups[i].healthy then w * c < n * ups[i].weight + w else c == 0
  {
    hide Balanced, Sum, Total, Count;
    RunIsFair(ups, n);
    assert Booked(ups, n, Total(ups, |ups|), Run(ups, n).0[i], Count(Run(ups, n).1, i), i);
  }

  /** The picks counted over the first `m` upstreams. */
  function Counted(picks: seq<Option<nat>>, m: nat): nat {
    if m == 0 then 0 else Counted(picks, m - 1) + Count(picks, m - 1)
  }

  lemma {:induction false} CountedSnoc(picks: seq<Option<nat>>, p: nat, m: nat)
    ensures Counted(picks + [Some(p)], m) == Counted(picks, m) + if p < m then 1 else 0
  {
    hide Count;
    if m > 0 {
      CountedSnoc(picks, p, m - 1);
      CountSnoc(picks, Some(p), m - 1);
    }
  }

  lemma {:induction false} CountedAll(picks: seq<Option<nat>>, m: nat)
    requires forall j :: 0 <= j < |picks| ==> picks[j].Some? && picks[j].value < m
    ensures Counted(picks, m) == |picks|
  {
    hide Count;
    if |picks| > 0 {
      var n := |picks| - 1;
      CountedAll(picks[..n], m);
      CountedSnoc(picks[..n], picks[n].value, m);
      assert picks == picks[..n] + [Some(picks[n].value)];
    } else {
      CountedNone(picks, m);
    }
  }

  lemma {:induction false} CountedNone(picks: seq<Option<nat>>, m: nat)
    requires |picks| == 0
    ensures Counted(picks, m) == 0
  {
    if m > 0 { CountedNone(picks, m - 1); }
  }

  /** If nobody exceeds `m` times its weight and the totals agree, everybody has exactly that. */
  lemma {:induction false} NobodyShort(ups: seq<Upstream>, picks: seq<Option<nat>>, m: nat, n: nat)
    requires n <= |ups|
    requires forall i :: 0 <= i < |ups| ==> Count(picks, i) <= Share(ups, m, i)
    ensures Counted(picks, n) <= m * Total(ups, n)
    ensures Counted(picks, n) == m * Total(ups, n) ==> forall i :: 0 <= i < n ==> Count(picks, i) == Share(ups, m, i)
  {
    hide Count;
    if n > 0 {
      NobodyShort(ups, picks, m, n - 1);
      var x := if ups[n - 1].healthy then ups[n - 1].weight else 0;
      assert m * (Total(ups, n - 1) + x) == m * Total(ups, n - 1) + m * x;
    }
  }

  function Share(ups: seq<Upstream>, m: nat, i: nat): int
    requires i < |ups|
  {
    if ups[i].healthy then m * ups[i].weight else 0
  }

  lemma AtMostShare(w: int, m: nat, weight: int, count: nat)
    requires w > 0 && w * count < (m * w) * weight + w
    ensures count <= m * weight
  {
    assert (m * w) * weight == w * (m * weight);
    assert w * (m * weight + 1) == w * (m * weight) + w;
    if count >= m * weight + 1 { MulMonotone(w, m * weight + 1, count); }
  }

  lemma MulMonotone(w: int, a: int, b: int)
    requires w > 0 && a <= b
    ensures w * a <= w * b
  {
  }

  lemma {:induction false} RunPicksInRange(ups: seq<Upstream>, n: nat)
    ensures forall j :: 0 <= j < n && Run(ups, n).1[j].Some? ==> Run(ups, n).1[j].value < |ups|
    decreases n
  {
    hide Selected;
    if n > 0 { RunPicksInRange(ups, n - 1); }
  }

  /** After every W picks each upstream was chosen exactly its weight times per round, and the state is zero again. */
  lemma EveryRoundIsExact(ups: seq<Upstream>, m: nat, i: nat)
    requires Balanced(ups) && i < |ups|
    ensures var w := Total(ups, |ups|);
            w > 0 && m * w >= 0 && Run(ups, m * w).0[i] == 0 && Count(Run(ups, m * w).1, i) == Share(ups, m, i)
  {
    hide Sum, Total, Count, Run, Balanced, Share;
    BalancedTotal(ups);
    var w: nat := Total(ups, |ups|);
    var n := m * w;
    var (cur, picks) := Run(ups, n);
    RunIsFair(ups, n);
    RunPicksInRange(ups, n);
    CountedAll(picks, |ups|);
    forall j | 0 <= j < |ups|
      ensures Count(picks, j) <= Share(ups, m, j)
    {
      NeverAFullPickAhead(ups, n, j);
      ShareBound(ups, m, w, j, Count(picks, j));
    }
    NobodyShort(ups, picks, m, |ups|);
    assert Booked(ups, n, w, cur[i], Count(picks, i), i);
    ExactShare(ups, m, w, i, cur[i], Count(picks, i));
  }

  lemma BalancedTotal(ups: seq<Upstream>)
    requires Balanced(ups)
    ensures Total(ups, |ups|) > 0
  {
    hide Total;
    TotalPositive(ups, |ups|);
  }

  lemma ShareBound(ups: seq<Upstream>, m: nat, w: int, i: nat, count: nat)
    requires i < |ups| && w > 0
    requires if ups[i].healthy then w * count < (m * w) * ups[i].weight + w else count == 0
    ensures count <= Share(ups, m, i)
  {
    if ups[i].healthy { AtMostShare(w, m, ups[i].weight, count); }
  }

  lemma ExactShare(ups: seq<Upstream>, m: nat, w: nat, i: nat, credit: int, count: nat)
    requires i < |ups| && Booked(ups, m * w, w, credit, count, i) && count == Share(ups, m, i)
    ensures credit == 0
  {
    assert (m * w) * ups[i].weight == w * (m * ups[i].weight);
  }

  // ---- Range of the weights ----

  lemma {:induction false} OthersBound(v: seq<int>, lo: int, i: nat, n: nat)
    requires n <= |v| && forall j :: 0 <= j < n ==> v[j] >= lo
    ensures Sum(v, n) >= n * lo
    ensures i < n ==> Sum(v, n) >= v[i] + (n - 1) * lo
  {
    if n > 0 {
      OthersBound(v, lo, i, n - 1);
      assert n * lo == (n - 1) * lo + lo;
      assert (n - 1) * lo == (n - 2) * lo + lo;
    }
  }

  /** Credits stay within (-W, upstreams * W), so `int` arithmetic is exact while that product fits. */
  lemma CreditsStayBounded(ups: seq<Upstream>, n: nat, i: nat)
    requires Balanced(ups) && i < |ups|
    ensures var w, credit := Total(ups, |ups|), Run(ups, n).0[i];
            -w < credit <= (|ups| - 1) * (w - 1)
  {
    hide Sum, Total, Count, Run, Balanced, Booked;
    var w, cur := Total(ups, |ups|), Run(ups, n).0;
    RunIsFair(ups, n);
    UnhealthyAtZero(ups, n, cur, Run(ups, n).1);
    BalancedTotal(ups);
    OthersBound(cur, 1 - w, i, |cur|);
    assert (|ups| - 1) * (1 - w) == -((|ups| - 1) * (w - 1));
  }

  /** Nothing is selected exactly when every healthy upstream's credit stays negative after its raise. */
  lemma NothingSelectedIff(cur: seq<int>, ups: seq<Upstream>)
    requires |cur| == |ups|
    ensures Selected(cur, ups).1 == None <==>
            forall i :: 0 <= i < |ups| && ups[i].healthy ==> cur[i] + ups[i].weight < 0
  {
    hide Best;
    var b := Best(Raised(cur, ups), ups, |ups|);
    if b >= 0 { assert ups[b].healthy && cur[b] + ups[b].weight >= 0; }
  }

  /** Two upstreams of weights one and three; the second may have fallen ill. */
  function Pair(healthy: bool): seq<Upstream> {
    [Upstream(1, true), Upstream(3, healthy)]
  }

  lemma PairTotal()
    ensures Total(Pair(true), 2) == 4
  {
    assert Total(Pair(true), 1) == 1;
  }

  lemma PairPicks()
    ensures Selected([0, 0], Pair(true)).0 == [1, -1]
    ensures Selected([1, -1], Pair(true)).0 == [-2, 2]
  {
    hide Best, Total;
    PairTotal();
    assert Pair(true)[0].healthy && Pair(true)[1].healthy;
    var v := [1, 3];
    assert Raised([0, 0], Pair(true)) == v && v[0] == 1 && v[1] == 3;
    assert Best(v, Pair(true), 2) == 1;
    var w := [2, 2];
    assert Raised([1, -1], Pair(true)) == w && w[0] == 2 && w[1] == 2;
    assert Best(w, Pair(true), 2) == 0;
  }

  /** Fairness needs a fixed healthy set: after a health change `select` may return nothing though one is healthy. */
  lemma HealthChangeCanStarve() returns (ups: seq<Upstream>, after: seq<Upstream>)
    ensures Balanced(ups) && |after| == |ups| && after[0].healthy
    ensures Selected(Run(ups, 2).0, after).1 == None
  {
    hide Selected, Best;
    ups, after := Pair(true), Pair(false);
    assert ups[0].healthy;
    PairPicks();
    assert Run(ups, 0).0 == [0, 0];
    assert Run(ups, 1).0 == [1, -1];
    assert Run(ups, 2).0 == [-2, 2];
    NothingSelectedIff([-2, 2], after);
  }
}
