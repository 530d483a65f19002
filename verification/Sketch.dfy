/**
 * The sketch itself: the logarithmic mapping from points to bins, the counter
 * for points too small to index, and the accuracy of ranks read from the bins.
 */
module Sketch {
  import opened Wrappers
  import opened SketchStore

  // ---------- The logarithmic mapping ----------

  /**
   * Bin `i` covers the points from `bound(i)` up to but not including
   * `bound(i + 1)`; consecutive bounds differ by the factor `gamma`.
   * Logarithms and exponentials are exact here.
   */
  datatype LogMapping = LogMapping(gamma: real, bound: int -> real, index: real -> int, minIndexable: real) {
    /** The bound above bin `i` is `gamma` times the bound below it. */
    ghost predicate Scales(i: int) { bound(i + 1) == gamma * bound(i) }

    ghost predicate Valid() {
      && 1.0 < gamma
      && 0.0 < minIndexable
      && (forall i :: 0.0 < bound(i))
      && (forall i :: Scales(i))
      && (forall p | minIndexable <= p :: bound(index(p)) <= p < bound(index(p) + 1))
    }

    function RelativeAccuracy(): real
      requires 1.0 < gamma
    {
      1.0 - 2.0 / (1.0 + gamma)
    }

    /** The value that stands for every point of bin `i`. */
    function Value(i: int): real
      requires 1.0 < gamma
    {
      bound(i) * (1.0 + RelativeAccuracy())
    }
  }

  lemma AccuracyBalance(gamma: real, alpha: real)
    requires 1.0 < gamma && alpha == 1.0 - 2.0 / (1.0 + gamma)
    ensures 0.0 < alpha < 1.0
    ensures (1.0 + alpha) == gamma * (1.0 - alpha)
  {
    var r := 2.0 / (1.0 + gamma);
    assert r * (1.0 + gamma) == 2.0;
  }

  lemma ScaleMonotone(a: real, x: real, y: real)
    requires 0.0 <= a && x <= y
    ensures a * x <= a * y
  {
    assert a * y - a * x == a * (y - x);
  }

  lemma Within(gamma: real, alpha: real, b: real, p: real)
    requires 0.0 < alpha < 1.0 && 1.0 + alpha == gamma * (1.0 - alpha) && b <= p <= gamma * b
    ensures (1.0 - alpha) * p <= b * (1.0 + alpha) <= (1.0 + alpha) * p
  {
    ScaleMonotone(1.0 + alpha, b, p);
    ScaleMonotone(1.0 - alpha, p, gamma * b);
    assert (1.0 - alpha) * (gamma * b) == (gamma * (1.0 - alpha)) * b;
  }

  /** A mapping has the accuracy `a` exactly when its `gamma` is (1 + a) / (1 - a). */
  lemma AccuracyIff(m: LogMapping, a: real)
    requires 1.0 < m.gamma
    ensures m.RelativeAccuracy() == a <==> m.gamma * (1.0 - a) == 1.0 + a
    ensures m.RelativeAccuracy() == a <==> a * (m.gamma + 1.0) == m.gamma - 1.0
  {
    var r := 2.0 / (1.0 + m.gamma);
    assert r * (1.0 + m.gamma) == 2.0;
    CancelScale(1.0 + m.gamma, r, 1.0 - a);
  }

  lemma CancelScale(a: real, x: real, y: real)
    requires 0.0 < a
    ensures x * a == y * a <==> x == y
    ensures x * a <= y * a <==> x <= y
  {
    assert y * a - x * a == (y - x) * a;
  }

  /** The error of a reported value is at most (gamma - 1) / (gamma + 1) of the point. */
  ghost predicate IsAccurate(m: LogMapping, reported: real, v: real) {
    && (m.gamma + 1.0) * (reported - v) <= (m.gamma - 1.0) * v
    && (m.gamma + 1.0) * (v - reported) <= (m.gamma - 1.0) * v
  }

  /** That bound is what the mapping calls its relative accuracy. */
  lemma AccurateMeans(m: LogMapping, reported: real, v: real)
    requires 1.0 < m.gamma
    ensures IsAccurate(m, reported, v) <==>
            (1.0 - m.RelativeAccuracy()) * v <= reported <= (1.0 + m.RelativeAccuracy()) * v
  {
    var a, g := m.RelativeAccuracy(), m.gamma + 1.0;
    AccuracyIff(m, a);
    hide LogMapping.RelativeAccuracy;
    assert (a * v) * g == (a * g) * v == (m.gamma - 1.0) * v;
    CancelScale(g, reported - v, a * v);
    CancelScale(g, v - reported, a * v);
  }

  /** The value of the bin of a point is within the relative accuracy of the point. */
  lemma ValueIsAccurate(m: LogMapping, p: real)
    requires m.Valid() && m.minIndexable <= p
    ensures IsAccurate(m, m.Value(m.index(p)), p)
    ensures (1.0 - m.RelativeAccuracy()) * p <= m.Value(m.index(p)) <= (1.0 + m.RelativeAccuracy()) * p
  {
    var i := m.index(p);
    AccuracyBalance(m.gamma, m.RelativeAccuracy());
    AccurateMeans(m, m.Value(i), p);
    hide LogMapping.RelativeAccuracy, IsAccurate;
    assert m.Scales(i);
    Within(m.gamma, m.RelativeAccuracy(), m.bound(i), p);
  }

  /** No other value would do: only this one is accurate at both ends of the bin. */
  lemma OnlyValueIsAccurate(m: LogMapping, i: int, reported: real)
    requires m.Valid()
    ensures IsAccurate(m, reported, m.bound(i)) && IsAccurate(m, reported, m.bound(i + 1)) <==> reported == m.Value(i)
  {
    var a := m.RelativeAccuracy();
    AccuracyBalance(m.gamma, a);
    AccurateMeans(m, reported, m.bound(i));
    AccurateMeans(m, reported, m.bound(i + 1));
    hide LogMapping.RelativeAccuracy, IsAccurate;
    assert m.Scales(i);
    BinEnds(m.gamma, a, m.bound(i));
  }

  lemma BinEnds(gamma: real, a: real, b: real)
    requires 1.0 < gamma && 0.0 < a < 1.0 && 0.0 < b && 1.0 + a == gamma * (1.0 - a)
    ensures (1.0 - a) * (gamma * b) == b * (1.0 + a)
    ensures (1.0 - a) * b <= b * (1.0 + a) <= (1.0 + a) * (gamma * b)
  {
    assert (1.0 - a) * (gamma * b) == (gamma * (1.0 - a)) * b;
    ScaleMonotone(b, 1.0 - a, 1.0 + a);
    Grows(gamma, b, gamma * b);
    ScaleMonotone(1.0 + a, b, gamma * b);
  }

  lemma Grows(gamma: real, b: real, c: real)
    requires 1.0 < gamma && 0.0 < b && c == gamma * b
    ensures b < c
  {
    assert gamma * b - b == (gamma - 1.0) * b;
  }

  lemma BoundIncreases(m: LogMapping, i: int, j: int)
    requires m.Valid() && j == i + 1
    ensures m.bound(i) < m.bound(j)
  {
    assert m.Scales(i);
    Grows(m.gamma, m.bound(i), m.bound(j));
  }

  lemma {:induction false} BoundsIncrease(m: LogMapping, i: int, j: int)
    requires m.Valid() && i <= j
    ensures m.bound(i) <= m.bound(j)
    decreases j - i
  {
    if i < j {
      BoundsIncrease(m, i, j - 1);
      BoundIncreases(m, j - 1, j);
    }
  }

  /** The mapping is monotone: a larger point never has a lower bin. */
  lemma IndexMonotone(m: LogMapping, p: real, q: real)
    requires m.Valid() && m.minIndexable <= p <= q
    ensures m.index(p) <= m.index(q)
  {
    if m.index(q) < m.index(p) {
      BoundsIncrease(m, m.index(q) + 1, m.index(p));
      assert false;
    }
  }

  // ---------- What was added ----------

  /** A point that was accepted, with its count. */
  datatype Point = Point(value: real, count: real)

  /** The additions that reach the store: those of the points large enough to index. */
  function AddsOf(m: LogMapping, points: seq<Point>): seq<Add> {
    if points == [] then []
    else
      var k := |points| - 1;
      var p := points[k];
      var rest := AddsOf(m, points[..k]);
      if p.value < m.minIndexable then rest else rest + [Add(m.index(p.value), p.count)]
  }

  /** The weight of the points too small to index. */
  function ZeroWeight(m: LogMapping, points: seq<Point>): real {
    if points == [] then 0.0
    else
      var k := |points| - 1;
      ZeroWeight(m, points[..k]) + if points[k].value < m.minIndexable then points[k].count else 0.0
  }

  function TotalCount(points: seq<Point>): real {
    if points == [] then 0.0 else TotalCount(points[..|points| - 1]) + points[|points| - 1].count
  }

  lemma {:induction false} CountsAddUp(m: LogMapping, points: seq<Point>)
    ensures ZeroWeight(m, points) + Total(AddsOf(m, points)) == TotalCount(points)
  {
    if points != [] {
      var k := |points| - 1;
      var rest := AddsOf(m, points[..k]);
      CountsAddUp(m, points[..k]);
      assert AddsOf(m, points)[..|rest|] == rest;
    }
  }

  // ---------- Ranks ----------

  /** The weight of the points above a value. */
  function WeightAbove(points: seq<Point>, v: real): real {
    if points == [] then 0.0
    else
      var last := points[|points| - 1];
      WeightAbove(points[..|points| - 1], v) + if v < last.value then last.count else 0.0
  }

  /** The weight of the points at or above a value. */
  function WeightAtLeast(points: seq<Point>, v: real): real {
    if points == [] then 0.0
    else
      var last := points[|points| - 1];
      WeightAtLeast(points[..|points| - 1], v) + if v <= last.value then last.count else 0.0
  }

  lemma WeightOfLast(points: seq<Point>, v: real)
    requires points != []
    ensures
      var rest, p := points[..|points| - 1], points[|points| - 1];
      && WeightAbove(points, v) == WeightAbove(rest, v) + (if v < p.value then p.count else 0.0)
      && WeightAtLeast(points, v) == WeightAtLeast(rest, v) + (if v <= p.value then p.count else 0.0)
      && TotalCount(points) == TotalCount(rest) + p.count
  {
  }

  /**
   * `v` is the point at rank `k` from the top: when the points are listed in
   * descending order, each as long as its count, `v` covers position `k`.
   */
  predicate IsKthLargest(points: seq<Point>, v: real, k: real) {
    (exists p :: p in points && p.value == v) && WeightAbove(points, v) <= k < WeightAtLeast(points, v)
  }

  /** No point counts negatively. */
  predicate AreCounts(points: seq<Point>) {
    forall p | p in points :: 0.0 <= p.count
  }

  /** How many points are above a value, and how many at or above it. */
  function CountAbove(points: seq<Point>, v: real): nat {
    if points == [] then 0
    else CountAbove(points[..|points| - 1], v) + if v < points[|points| - 1].value then 1 else 0
  }

  function CountAtLeast(points: seq<Point>, v: real): nat {
    if points == [] then 0
    else CountAtLeast(points[..|points| - 1], v) + if v <= points[|points| - 1].value then 1 else 0
  }

  /** For points that each count once, ranks are positions in the descending list of points. */
  lemma {:induction false} UnitRanks(points: seq<Point>, v: real)
    requires forall p | p in points :: p.count == 1.0
    ensures WeightAbove(points, v) == CountAbove(points, v) as real
    ensures WeightAtLeast(points, v) == CountAtLeast(points, v) as real
    ensures TotalCount(points) == |points| as real
  {
    if points != [] {
      assert points[|points| - 1] in points;
      UnitRanks(points[..|points| - 1], v);
    }
  }

  /** The points in bins above `i` include every point at or above one whose bin is above `i`. */
  lemma {:induction false} AtLeastInBinsAbove(m: LogMapping, points: seq<Point>, v: real, i: int)
    requires m.Valid() && AreCounts(points) && m.minIndexable <= v && i < m.index(v)
    ensures WeightAtLeast(points, v) <= Total(AddsOf(m, points)) - WeightUpTo(AddsOf(m, points), i)
  {
    if points != [] {
      hide Total, WeightAt, WeightUpTo, Highest, Lowest, WeightAtLeast;
      var k := |points| - 1;
      var p, rest := points[k].value, AddsOf(m, points[..k]);
      assert points[k] in points;
      AtLeastInBinsAbove(m, points[..k], v, i);
      WeightOfLast(points, v);
      if m.minIndexable <= p {
        Extended(rest, Add(m.index(p), points[k].count));
        TotalExtended(rest, Add(m.index(p), points[k].count));
        if v <= p { IndexMonotone(m, v, p); }
      }
    }
  }

  /** The points in bins above `i` are all above any point whose bin is not, or that has no bin. */
  lemma {:induction false} BinsAboveAreAbove(m: LogMapping, points: seq<Point>, v: real, i: int)
    requires m.Valid() && AreCounts(points) && (v < m.minIndexable || m.index(v) <= i)
    ensures Total(AddsOf(m, points)) - WeightUpTo(AddsOf(m, points), i) <= WeightAbove(points, v)
  {
    if points != [] {
      hide Total, WeightAt, WeightUpTo, Highest, Lowest, WeightAbove;
      var k := |points| - 1;
      var p, rest := points[k].value, AddsOf(m, points[..k]);
      assert points[k] in points;
      BinsAboveAreAbove(m, points[..k], v, i);
      WeightOfLast(points, v);
      if m.minIndexable <= p {
        Extended(rest, Add(m.index(p), points[k].count));
        TotalExtended(rest, Add(m.index(p), points[k].count));
        if m.minIndexable <= v && p <= v { IndexMonotone(m, p, v); }
      }
    }
  }

  // ---------- Reading the sketch ----------

  /** `(value, weight)` for the zero bin and every bin of the store, in ascending order of value. */
  function OrderedBins(m: LogMapping, zeroCount: real, offset: int, bins: seq<real>): (r: seq<(real, real)>)
    requires 1.0 < m.gamma
    ensures |r| == |bins| + 1
  {
    [(0.0, zeroCount)] + seq(|bins|, k requires 0 <= k < |bins| => (m.Value(offset + k), bins[k]))
  }

  function Weights(entries: seq<(real, real)>): real {
    if entries == [] then 0.0 else Weights(entries[..|entries| - 1]) + entries[|entries| - 1].1
  }

  /** Entry `e` is the one that holds rank `k`, counting weights from the top. */
  predicate HoldsRank(entries: seq<(real, real)>, e: nat, k: real)
    requires e < |entries|
  {
    Weights(entries[e + 1..]) <= k < Weights(entries[e..])
  }

  lemma {:induction false} WeightsOfSuffix(entries: seq<(real, real)>, e: nat)
    requires e <= |entries|
    ensures Weights(entries[e..]) == Weights(entries) - Weights(entries[..e])
  {
    var n := |entries|;
    if e == n {
      assert entries[..e] == entries;
    } else {
      WeightsOfSuffix(entries[..n - 1], e);
      assert entries[e..][..n - 1 - e] == entries[..n - 1][e..];
      assert entries[..n - 1][..e] == entries[..e];
    }
  }

  lemma {:induction false} WeightsOfPrefix(m: LogMapping, zeroCount: real, offset: int, bins: seq<real>, j: nat)
    requires 1.0 < m.gamma && j <= |bins|
    ensures Weights(OrderedBins(m, zeroCount, offset, bins)[..j + 1]) == zeroCount + Sum(bins[..j])
  {
    var entries := OrderedBins(m, zeroCount, offset, bins);
    assert entries[..j + 1][..j] == entries[..j];
    if j == 0 {
      assert Weights(entries[..0]) == 0.0;
    } else {
      WeightsOfPrefix(m, zeroCount, offset, bins, j - 1);
      assert bins[..j][..j - 1] == bins[..j - 1];
    }
  }

  /** The weight the sketch reports from entry `j + 1` up is the weight of the bins from `offset + j` up. */
  lemma {:induction false} WeightFromBin(m: LogMapping, zeroCount: real, adds: seq<Add>, maxSize: nat, offset: int, bins: seq<real>, j: nat)
    requires 1.0 < m.gamma && adds != [] && Agrees(adds, maxSize, offset, bins) && j <= |bins|
    ensures var w := Weights(OrderedBins(m, zeroCount, offset, bins)[j + 1..]);
            w == if j == 0 then Total(adds) else Total(adds) - WeightUpTo(adds, offset + j - 1)
  {
    var entries := OrderedBins(m, zeroCount, offset, bins);
    WeightsOfSuffix(entries, j + 1);
    WeightsOfPrefix(m, zeroCount, offset, bins, j);
    WeightsOfPrefix(m, zeroCount, offset, bins, |bins|);
    assert entries[..|bins| + 1] == entries && bins[..|bins|] == bins;
    NothingLost(adds, maxSize, offset, bins);
    if j > 0 {
      SumIsUpTo(adds, maxSize, offset, bins, j);
    }
  }

  lemma TooLarge(alpha: real, v: real, b: real)
    requires 0.0 < alpha && v < b
    ensures (1.0 + alpha) * v < b * (1.0 + alpha)
  {
    assert b * (1.0 + alpha) - (1.0 + alpha) * v == (b - v) * (1.0 + alpha);
  }

  /** The value of a bin above the bin of a point is too large for the point. */
  lemma HigherBinIsInaccurate(m: LogMapping, v: real, i: int)
    requires m.Valid() && m.minIndexable <= v && m.index(v) < i
    ensures v < m.bound(i) && !IsAccurate(m, m.Value(i), v)
  {
    BoundsIncrease(m, m.index(v) + 1, i);
    AccuracyBalance(m.gamma, m.RelativeAccuracy());
    AccurateMeans(m, m.Value(i), v);
    hide LogMapping.RelativeAccuracy, IsAccurate;
    TooLarge(m.RelativeAccuracy(), v, m.bound(i));
  }

  /**
   * Entry `j + 1` of the sketch holds rank `k` from the top,
   * and `v` is the true k-th largest point. Then `v` is in that very bin, or
   * the bin is the lowest one and `v` was collapsed into it from below.
   */
  lemma {:induction false} RankFindsBin(
    m: LogMapping, points: seq<Point>, maxSize: nat, offset: int, bins: seq<real>, j: nat, k: real, v: real)
    requires m.Valid() && AreCounts(points) && IsKthLargest(points, v, k)
    requires Agrees(AddsOf(m, points), maxSize, offset, bins) && j < |bins|
    requires HoldsRank(OrderedBins(m, ZeroWeight(m, points), offset, bins), j + 1, k)
    ensures m.minIndexable <= v
    ensures m.index(v) == offset + j || (j == 0 && m.index(v) < offset)
  {
    var adds := AddsOf(m, points);
    WeightFromBin(m, ZeroWeight(m, points), adds, maxSize, offset, bins, j);
    WeightFromBin(m, ZeroWeight(m, points), adds, maxSize, offset, bins, j + 1);
    if v < m.minIndexable {
      NoBinIsAbove(m, points, v);
      assert false;
    }
    if j > 0 && m.index(v) < offset + j {
      BinsAboveAreAbove(m, points, v, offset + j - 1);
      assert false;
    }
    if offset + j < m.index(v) {
      AtLeastInBinsAbove(m, points, v, offset + j);
      assert false;
    }
  }

  /** The entry that holds a rank is accurate for the true point exactly when the point is not below the window. */
  lemma {:induction false} RankAccurateIff(
    m: LogMapping, points: seq<Point>, maxSize: nat, offset: int, bins: seq<real>, j: nat, k: real, v: real)
    requires m.Valid() && AreCounts(points) && IsKthLargest(points, v, k)
    requires Agrees(AddsOf(m, points), maxSize, offset, bins) && j < |bins|
    requires HoldsRank(OrderedBins(m, ZeroWeight(m, points), offset, bins), j + 1, k)
    ensures IsAccurate(m, OrderedBins(m, ZeroWeight(m, points), offset, bins)[j + 1].0, v) <==> m.bound(offset) <= v
  {
    hide HoldsRank, Agrees;
    RankFindsBin(m, points, maxSize, offset, bins, j, k, v);
    if m.index(v) == offset + j {
      ValueIsAccurate(m, v);
      BoundsIncrease(m, offset, offset + j);
    } else {
      HigherBinIsInaccurate(m, v, offset);
    }
  }

  /** Every rank is accurate above the lowest bin, and in the lowest bin too when nothing was collapsed. */
  lemma {:induction false} RanksAreAccurate(
    m: LogMapping, points: seq<Point>, maxSize: nat, offset: int, bins: seq<real>, j: nat, k: real, v: real)
    requires m.Valid() && AreCounts(points) && IsKthLargest(points, v, k)
    requires Agrees(AddsOf(m, points), maxSize, offset, bins) && j < |bins|
    requires HoldsRank(OrderedBins(m, ZeroWeight(m, points), offset, bins), j + 1, k)
    requires j > 0 || offset == Lowest(AddsOf(m, points))
    ensures IsAccurate(m, OrderedBins(m, ZeroWeight(m, points), offset, bins)[j + 1].0, v)
  {
    hide HoldsRank, Agrees;
    RankFindsBin(m, points, maxSize, offset, bins, j, k, v);
    KnownPointHasBin(m, points, v);
    ValueIsAccurate(m, v);
  }

  /** A point without a bin is below every point that has one. */
  lemma {:induction false} NoBinIsAbove(m: LogMapping, points: seq<Point>, v: real)
    requires m.Valid() && AreCounts(points) && v < m.minIndexable
    ensures Total(AddsOf(m, points)) <= WeightAbove(points, v)
    ensures forall i :: Total(AddsOf(m, points)) - WeightUpTo(AddsOf(m, points), i) <= WeightAbove(points, v)
  {
    forall i ensures Total(AddsOf(m, points)) - WeightUpTo(AddsOf(m, points), i) <= WeightAbove(points, v) {
      BinsAboveAreAbove(m, points, v, i);
    }
    WeightsFall(points, v, v);
    if AddsOf(m, points) != [] {
      NoWeightBelow(AddsOf(m, points), Lowest(AddsOf(m, points)) - 1);
    }
  }

  lemma {:induction false} KnownPointHasBin(m: LogMapping, points: seq<Point>, v: real)
    requires (exists p :: p in points && p.value == v) && m.minIndexable <= v
    ensures AddsOf(m, points) != [] && Lowest(AddsOf(m, points)) <= m.index(v)
  {
    var k := |points| - 1;
    var rest := AddsOf(m, points[..k]);
    assert points == points[..k] + [points[k]];
    if points[k].value == v {
      Extended(rest, Add(m.index(v), points[k].count));
    } else {
      KnownPointHasBin(m, points[..k], v);
      if m.minIndexable <= points[k].value {
        Extended(rest, Add(m.index(points[k].value), points[k].count));
      }
    }
  }

  /** When the zero bin holds the rank, the true k-th largest point is too small to index. */
  lemma {:induction false} ZeroBinRanks(m: LogMapping, points: seq<Point>, maxSize: nat, offset: int, bins: seq<real>, k: real, v: real)
    requires m.Valid() && AreCounts(points) && IsKthLargest(points, v, k)
    requires Agrees(AddsOf(m, points), maxSize, offset, bins)
    requires HoldsRank(OrderedBins(m, ZeroWeight(m, points), offset, bins), 0, k)
    ensures v < m.minIndexable
  {
    var adds := AddsOf(m, points);
    if m.minIndexable <= v {
      KnownPointHasBin(m, points, v);
      WeightFromBin(m, ZeroWeight(m, points), adds, maxSize, offset, bins, 0);
      NoWeightBelow(adds, Lowest(adds) - 1);
      AtLeastInBinsAbove(m, points, v, Lowest(adds) - 1);
      assert false;
    }
  }

  // ---------- A rank that is not accurate ----------

  lemma ScaledAbove(gamma: real, b: real, c: real, v: real, w: real)
    requires 1.0 < gamma && 0.0 < b <= v && c == gamma * b && w == gamma * v
    ensures c <= w && v < w
  {
    ScaleMonotone(gamma, b, v);
    Grows(gamma, v, w);
  }

  lemma NextPointHasHigherBin(m: LogMapping, v: real, w: real)
    requires m.Valid() && m.minIndexable <= v && w == m.gamma * v
    ensures v < w && m.index(v) < m.index(w)
  {
    var i := m.index(v);
    assert m.Scales(i);
    ScaledAbove(m.gamma, m.bound(i), m.bound(i + 1), v, w);
    hide LogMapping.Scales;
    if m.index(w) <= i {
      BoundsIncrease(m, m.index(w) + 1, i + 1);
      assert false;
    }
  }

  /**
   * Collapsing costs accuracy: with every mapping, the points `v` and
   * `gamma * v` in a store of one bin make the rank of `v` inaccurate.
   */
  lemma {:induction false} CollapsedRankIsInaccurate(m: LogMapping, v: real) returns (points: seq<Point>, offset: int, bins: seq<real>)
    requires m.Valid() && m.minIndexable <= v
    ensures points == [Point(v, 1.0), Point(m.gamma * v, 1.0)]
    ensures AreCounts(points) && IsKthLargest(points, v, 1.0) && Agrees(AddsOf(m, points), 1, offset, bins) && |bins| == 1
    ensures HoldsRank(OrderedBins(m, ZeroWeight(m, points), offset, bins), 1, 1.0)
    ensures !IsAccurate(m, OrderedBins(m, ZeroWeight(m, points), offset, bins)[1].0, v)
  {
    var w := m.gamma * v;
    NextPointHasHigherBin(m, v, w);
    points, offset, bins := [Point(v, 1.0), Point(w, 1.0)], m.index(w), [2.0];
    TwoPoints(m, v, w);
    var entries := OrderedBins(m, 0.0, offset, bins);
    assert entries[1..] == [entries[1]] && entries[2..] == [] && [entries[1]][..0] == [];
    HigherBinIsInaccurate(m, v, offset);
  }

  /** Two points in different bins, the lower one first. */
  lemma TwoPoints(m: LogMapping, v: real, w: real)
    requires m.Valid() && m.minIndexable <= v < w && m.index(v) < m.index(w)
    ensures
      var points := [Point(v, 1.0), Point(w, 1.0)];
      && AreCounts(points) && IsKthLargest(points, v, 1.0) && ZeroWeight(m, points) == 0.0
      && Agrees(AddsOf(m, points), 1, m.index(w), [2.0])
  {
    var p, q := Point(v, 1.0), Point(w, 1.0);
    var a, b := Add(m.index(v), 1.0), Add(m.index(w), 1.0);
    assert [p, q][..1] == [p] && [p][..0] == [];
    assert p in [p, q];
    assert AddsOf(m, [p]) == AddsOf(m, []) + [a] && AddsOf(m, [p, q]) == AddsOf(m, [p]) + [b];
    assert ZeroWeight(m, [p]) == ZeroWeight(m, []) && ZeroWeight(m, [p, q]) == ZeroWeight(m, [p]);
    Extended([], a);
    Extended([a], b);
    WeightOfLast([p], v);
    WeightOfLast([p, q], v);
  }

  // ---------- Every rank is held, once ----------

  lemma {:induction false} WeightsAreNotNegative(m: LogMapping, points: seq<Point>, i: int)
    requires AreCounts(points)
    ensures 0.0 <= ZeroWeight(m, points)
    ensures 0.0 <= WeightAt(AddsOf(m, points), i) && 0.0 <= WeightUpTo(AddsOf(m, points), i)
  {
    if points != [] {
      var k := |points| - 1;
      var rest := AddsOf(m, points[..k]);
      assert points[k] in points;
      WeightsAreNotNegative(m, points[..k], i);
      if m.minIndexable <= points[k].value {
        Extended(rest, Add(m.index(points[k].value), points[k].count));
      }
    }
  }

  lemma {:induction false} EntriesAreNotNegative(m: LogMapping, points: seq<Point>, maxSize: nat, offset: int, bins: seq<real>, e: nat)
    requires 1.0 < m.gamma && AreCounts(points) && Agrees(AddsOf(m, points), maxSize, offset, bins) && e <= |bins|
    ensures 0.0 <= OrderedBins(m, ZeroWeight(m, points), offset, bins)[e].1
  {
    if e > 0 {
      WeightsAreNotNegative(m, points, offset + e - 1);
    } else {
      WeightsAreNotNegative(m, points, 0);
    }
  }

  lemma {:induction false} SuffixWeightsFall(entries: seq<(real, real)>, e: nat, f: nat)
    requires e <= f <= |entries| && forall i | 0 <= i < |entries| :: 0.0 <= entries[i].1
    ensures Weights(entries[f..]) <= Weights(entries[e..])
    decreases f - e
  {
    if e < f {
      SuffixWeightsFall(entries, e, f - 1);
      WeightsOfSuffix(entries, f - 1);
      WeightsOfSuffix(entries, f);
      assert entries[..f][..f - 1] == entries[..f - 1];
    }
  }

  lemma {:induction false} FindRank(entries: seq<(real, real)>, k: real, e: nat) returns (f: nat)
    requires e < |entries| && 0.0 <= k < Weights(entries[e..])
    ensures f < |entries| && HoldsRank(entries, f, k)
    decreases |entries| - e
  {
    f := e;
    if e + 1 == |entries| {
      assert entries[e + 1..] == [];
    } else if k < Weights(entries[e + 1..]) {
      f := FindRank(entries, k, e + 1);
    }
  }

  /** Every rank below the total count is held by exactly one entry. */
  lemma {:induction false} RankIsHeldOnce(m: LogMapping, points: seq<Point>, maxSize: nat, offset: int, bins: seq<real>, k: real)
    returns (e: nat)
    requires 1.0 < m.gamma && AreCounts(points) && Agrees(AddsOf(m, points), maxSize, offset, bins)
    requires 0.0 <= k < TotalCount(points)
    ensures
      var entries := OrderedBins(m, ZeroWeight(m, points), offset, bins);
      && e < |entries| && HoldsRank(entries, e, k)
      && forall f | 0 <= f < |entries| && HoldsRank(entries, f, k) :: f == e
  {
    var entries := OrderedBins(m, ZeroWeight(m, points), offset, bins);
    EntriesWeighAll(m, points, maxSize, offset, bins);
    assert entries[0..] == entries;
    e := FindRank(entries, k, 0);
    forall i | 0 <= i < |entries| ensures 0.0 <= entries[i].1 {
      EntriesAreNotNegative(m, points, maxSize, offset, bins, i);
    }
    forall f | 0 <= f < |entries| && HoldsRank(entries, f, k) ensures f == e {
      if f < e {
        SuffixWeightsFall(entries, f + 1, e);
      } else if e < f {
        SuffixWeightsFall(entries, e + 1, f);
      }
    }
  }

  lemma {:induction false} EntriesWeighAll(m: LogMapping, points: seq<Point>, maxSize: nat, offset: int, bins: seq<real>)
    requires 1.0 < m.gamma && Agrees(AddsOf(m, points), maxSize, offset, bins)
    ensures Weights(OrderedBins(m, ZeroWeight(m, points), offset, bins)) == TotalCount(points)
  {
    var entries := OrderedBins(m, ZeroWeight(m, points), offset, bins);
    WeightsOfPrefix(m, ZeroWeight(m, points), offset, bins, |bins|);
    assert entries[..|bins| + 1] == entries && bins[..|bins|] == bins;
    NothingLost(AddsOf(m, points), maxSize, offset, bins);
    CountsAddUp(m, points);
  }

  lemma {:induction false} WeightsFall(points: seq<Point>, v: real, w: real)
    requires AreCounts(points) && v <= w
    ensures 0.0 <= WeightAbove(points, w) <= WeightAbove(points, v) <= WeightAtLeast(points, v) <= TotalCount(points)
    ensures WeightAtLeast(points, w) <= WeightAtLeast(points, v)
  {
    if points != [] {
      assert points[|points| - 1] in points;
      WeightsFall(points[..|points| - 1], v, w);
    }
  }

  /** `v` covers position `k` by the weights above it and at it. */
  predicate AtRank(points: seq<Point>, v: real, k: real) {
    WeightAbove(points, v) <= k < WeightAtLeast(points, v)
  }

  lemma {:induction false} AtRankIsPoint(points: seq<Point>, v: real, k: real)
    requires AtRank(points, v, k)
    ensures IsKthLargest(points, v, k)
  {
    if forall p | p in points :: p.value != v {
      NothingAt(points, v);
    }
  }

  lemma {:induction false} NothingAt(points: seq<Point>, v: real)
    requires forall p | p in points :: p.value != v
    ensures WeightAbove(points, v) == WeightAtLeast(points, v)
  {
    if points != [] {
      assert points[|points| - 1] in points;
      NothingAt(points[..|points| - 1], v);
    }
  }

  /** Every rank below the total count has a true point. */
  lemma {:induction false} KthLargestExists(points: seq<Point>, k: real) returns (v: real)
    requires AreCounts(points) && 0.0 <= k < TotalCount(points)
    ensures IsKthLargest(points, v, k)
  {
    v := FindAtRank(points, k);
    AtRankIsPoint(points, v, k);
  }

  lemma {:induction false} FindAtRank(points: seq<Point>, k: real) returns (v: real)
    requires AreCounts(points) && 0.0 <= k < TotalCount(points)
    ensures AtRank(points, v, k)
    decreases |points|
  {
    assert points != [];
    hide WeightAbove, WeightAtLeast, TotalCount;
    var n := |points| - 1;
    var rest, p, c := points[..n], points[n].value, points[n].count;
    assert points[n] in points;
    WeightOfLast(points, p);
    var above := p;
    if c <= k {
      above := FindAtRank(rest, k - c);
      WeightsFall(rest, Lesser(p, above), above);
      WeightOfLast(points, above);
    }
    var below := p;
    if k < TotalCount(rest) {
      below := FindAtRank(rest, k);
      WeightsFall(rest, below, Greater(below, p));
      WeightOfLast(points, below);
    }
    WeightsFall(rest, p, p);
    if AtRank(points, above, k) {
      v := above;
    } else if AtRank(points, below, k) {
      v := below;
    } else {
      v := p;
    }
  }

  function Lesser(a: real, b: real): real { if a < b then a else b }

  function Greater(a: real, b: real): real { if a < b then b else a }

  /**
   * For every run of additions that count nothing negatively, and every rank
   * below their total: one entry holds the rank, a true point has it, and the
   * entry is the zero bin of a point too small to index, or accurate exactly
   * when the point is not below the window.
   */
  lemma {:induction false} EveryRankIsRead(m: LogMapping, points: seq<Point>, maxSize: nat, offset: int, bins: seq<real>, k: real)
    returns (e: nat, v: real)
    requires m.Valid() && AreCounts(points) && Agrees(AddsOf(m, points), maxSize, offset, bins)
    requires 0.0 <= k < TotalCount(points)
    ensures
      var entries := OrderedBins(m, ZeroWeight(m, points), offset, bins);
      && e < |entries| && HoldsRank(entries, e, k)
      && (forall f | 0 <= f < |entries| && HoldsRank(entries, f, k) :: f == e)
      && IsKthLargest(points, v, k)
      && (if e == 0 then v < m.minIndexable else IsAccurate(m, entries[e].0, v) <==> m.bound(offset) <= v)
  {
    hide HoldsRank, Agrees, IsKthLargest;
    e := RankIsHeldOnce(m, points, maxSize, offset, bins, k);
    v := KthLargestExists(points, k);
    if e == 0 {
      ZeroBinRanks(m, points, maxSize, offset, bins, k, v);
    } else {
      RankAccurateIff(m, points, maxSize, offset, bins, e - 1, k, v);
    }
  }

  lemma ValuesIncrease(m: LogMapping, i: int, j: int)
    requires m.Valid() && i < j
    ensures 0.0 < m.Value(i) < m.Value(j)
  {
    BoundIncreases(m, i, i + 1);
    BoundsIncrease(m, i + 1, j);
    AccuracyBalance(m.gamma, m.RelativeAccuracy());
    ScaleUp(1.0 + m.RelativeAccuracy(), m.bound(i), m.bound(j));
  }

  lemma ScaleUp(a: real, x: real, y: real)
    requires 0.0 < a && 0.0 < x < y
    ensures 0.0 < x * a < y * a
  {
    assert y * a - x * a == (y - x) * a;
  }

  /** The bins come out sorted, so sorting them changes nothing. */
  lemma OrderedBinsSorted(m: LogMapping, zeroCount: real, offset: int, bins: seq<real>, i: nat, j: nat)
    requires m.Valid() && i < j <= |bins|
    ensures OrderedBins(m, zeroCount, offset, bins)[i].0 < OrderedBins(m, zeroCount, offset, bins)[j].0
  {
    ValuesIncrease(m, offset + j - 1, offset + j);
    if i > 0 {
      ValuesIncrease(m, offset + i - 1, offset + j - 1);
    }
  }

  // ---------- The sketch as an object ----------

  /** A floating-point input: only the finite ones are numbers. */
  datatype F64 = Finite(r: real) | Infinite(negative: bool) | NaN

  datatype AddError = InvalidCount | InvalidPoint

  class DDSketch {
    const store: LowCollapsingDenseStore
    const mapping: LogMapping
    var zeroCount: real
    /** Every point accepted so far. */
    ghost var points: seq<Point>

    ghost predicate Valid()
      reads this, store
    {
      && mapping.Valid()
      && store.Valid()
      && store.adds == AddsOf(mapping, points)
      && zeroCount == ZeroWeight(mapping, points)
    }

    constructor (maxSize: nat, mapping: LogMapping)
      requires mapping.Valid()
      ensures Valid() <==> 0 < maxSize
      ensures points == [] && fresh(store) && this.mapping == mapping && store.maxSize == maxSize
    {
      this.mapping := mapping;
      store := new LowCollapsingDenseStore(maxSize);
      zeroCount, points := 0.0, [];
    }

    /** Adds a point, or rejects it and changes nothing. */
    method AddWithCount(point: F64, count: F64) returns (r: Result<(), AddError>)
      requires Valid()
      modifies this, store
      ensures Valid()
      ensures r.Ok? <==> count.Finite? && point.Finite? && 0.0 <= point.r
      ensures r.Ok? ==> points == old(points) + [Point(point.r, count.r)]
      ensures r.Err? ==>
                && points == old(points) && zeroCount == old(zeroCount)
                && store.bins == old(store.bins) && store.offset == old(store.offset)
                && r.error == if !count.Finite? then InvalidCount else InvalidPoint
    {
      if count.NaN? || count.Infinite? {
        return Err(InvalidCount);
      }
      if point.NaN? || point.Infinite? || point.r < 0.0 {
        return Err(InvalidPoint);
      }
      ghost var more := points + [Point(point.r, count.r)];
      assert more[..|points|] == points;
      if point.r < mapping.minIndexable {
        zeroCount := zeroCount + count.r;
      } else {
        store.AddTo(mapping.index(point.r), count.r);
      }
      points := more;
      r := Ok(());
    }

    /** The weight of everything accepted: collapsing loses none of it. */
    method Count() returns (c: real)
      requires Valid()
      ensures c == TotalCount(points)
    {
      NothingLost(store.adds, store.maxSize, store.offset, store.bins);
      CountsAddUp(mapping, points);
      var sum := 0.0;
      for i := 0 to |store.bins|
        invariant sum == Sum(store.bins[..i])
      {
        sum := sum + store.bins[i];
        assert store.bins[..i + 1][..i] == store.bins[..i];
      }
      assert store.bins[..|store.bins|] == store.bins;
      c := zeroCount + sum;
    }

    /** The bins in ascending order of value; every rank read from them obeys `EveryRankIsRead`. */
    method GetOrderedBins() returns (entries: seq<(real, real)>)
      requires Valid()
      ensures entries == OrderedBins(mapping, ZeroWeight(mapping, points), store.offset, store.bins)
      ensures forall i, j | 0 <= i < j < |entries| :: entries[i].0 < entries[j].0
      ensures Weights(entries) == TotalCount(points)
    {
      entries := [(0.0, zeroCount)];
      for k := 0 to |store.bins|
        invariant entries == OrderedBins(mapping, zeroCount, store.offset, store.bins[..k])
      {
        entries := entries + [(mapping.Value(k + store.offset), store.bins[k])];
      }
      assert store.bins[..|store.bins|] == store.bins;
      forall i, j | 0 <= i < j < |entries| ensures entries[i].0 < entries[j].0 {
        OrderedBinsSorted(mapping, zeroCount, store.offset, store.bins, i, j);
      }
      EntriesWeighAll(mapping, points, store.maxSize, store.offset, store.bins);
    }
  }
}
