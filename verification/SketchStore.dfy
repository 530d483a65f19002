/**
 * The bounded bin store of the sketch (ddsketch/src/lib.rs): a dense window of
 * bins that collapses its lowest bins when it would grow beyond `maxSize`.
 * Its partner is the full histogram of everything that was added.
 */
module SketchStore {
  import opened Arith

  /** One addition of a weight to a bin of the unbounded histogram. */
  datatype Add = Add(index: int, weight: real)

  // ---------- The full histogram ----------

  function WeightAt(adds: seq<Add>, i: int): real {
    if adds == [] then 0.0
    else
      var k := |adds| - 1;
      WeightAt(adds[..k], i) + if adds[k].index == i then adds[k].weight else 0.0
  }

  function WeightUpTo(adds: seq<Add>, i: int): real {
    if adds == [] then 0.0
    else
      var k := |adds| - 1;
      WeightUpTo(adds[..k], i) + if adds[k].index <= i then adds[k].weight else 0.0
  }

  function Highest(adds: seq<Add>): int
    requires adds != []
  {
    var k := |adds| - 1;
    if k == 0 then adds[0].index else Max(Highest(adds[..k]), adds[k].index)
  }

  function Lowest(adds: seq<Add>): int
    requires adds != []
  {
    var k := |adds| - 1;
    if k == 0 then adds[0].index else Min(Lowest(adds[..k]), adds[k].index)
  }

  lemma {:induction false} NoWeightBelow(adds: seq<Add>, i: int)
    requires adds == [] || i < Lowest(adds)
    ensures WeightAt(adds, i) == 0.0 && WeightUpTo(adds, i) == 0.0
  {
    if adds != [] {
      NoWeightBelow(adds[..|adds| - 1], i);
    }
  }

  lemma {:induction false} NoWeightAbove(adds: seq<Add>, i: int)
    requires adds == [] || Highest(adds) < i
    ensures WeightAt(adds, i) == 0.0
  {
    if adds != [] {
      NoWeightAbove(adds[..|adds| - 1], i);
    }
  }

  lemma {:induction false} UpToNext(adds: seq<Add>, i: int)
    ensures WeightUpTo(adds, i + 1) == WeightUpTo(adds, i) + WeightAt(adds, i + 1)
  {
    if adds != [] {
      UpToNext(adds[..|adds| - 1], i);
    }
  }

  lemma {:induction false} UpToBeyond(adds: seq<Add>, i: int, j: int)
    requires adds == [] || Highest(adds) <= i <= j
    ensures WeightUpTo(adds, i) == WeightUpTo(adds, j)
  {
    if adds != [] {
      UpToBeyond(adds[..|adds| - 1], i, j);
    }
  }

  // ---------- The closed form of the store ----------

  /** The lowest bin the store keeps apart: the lowest index seen, unless the window is too short for it. */
  function Offset(adds: seq<Add>, maxSize: nat): int
    requires adds != []
  {
    Max(Lowest(adds), Highest(adds) - maxSize + 1)
  }

  /**
   * The store is determined by the histogram: it ends at the highest index,
   * starts at `Offset`, holds everything at or below its start in bin 0 and
   * every other bin exactly.
   */
  ghost predicate Agrees(adds: seq<Add>, maxSize: nat, offset: int, bins: seq<real>) {
    if adds == [] then bins == []
    else
      && offset == Offset(adds, maxSize)
      && |bins| == Highest(adds) - offset + 1
      && Reads(adds, offset, bins)
  }

  /** No room is wasted: bins are collapsed exactly when the indices seen span more than the store may hold. */
  lemma CollapsesIff(adds: seq<Add>, maxSize: nat, offset: int, bins: seq<real>)
    requires adds != [] && Agrees(adds, maxSize, offset, bins)
    ensures |bins| == Min(maxSize, Highest(adds) - Lowest(adds) + 1)
    ensures offset == Lowest(adds) <==> Highest(adds) - Lowest(adds) + 1 <= maxSize
    ensures Lowest(adds) <= offset && offset + |bins| - 1 == Highest(adds)
  {
    hide Reads;
    LowestHighest(adds);
  }

  /** The weights of the histogram from `o` on, everything at or below `o` in the first place. */
  ghost predicate Reads(adds: seq<Add>, o: int, b: seq<real>) {
    b != [] && b[0] == WeightUpTo(adds, o) && forall k | 0 < k < |b| :: b[k] == WeightAt(adds, o + k)
  }

  function Sum(bins: seq<real>): real {
    if bins == [] then 0.0 else Sum(bins[..|bins| - 1]) + bins[|bins| - 1]
  }

  function Zeros(n: nat): (z: seq<real>)
    ensures |z| == n && forall k | 0 <= k < n :: z[k] == 0.0
  {
    seq(n, k => 0.0)
  }

  /** The lowest `n` bins folded into the next one, which is created when there is none. */
  function Collapsed(bins: seq<real>, n: nat): (b: seq<real>)
    ensures |b| == if n < |bins| then |bins| - n else 1
  {
    if n < |bins| then [Sum(bins[..n]) + bins[n]] + bins[n + 1..] else [Sum(bins)]
  }

  datatype Window = Window(bins: seq<real>, offset: int, pos: nat)

  /** The window once bin `i` has a place in it, and that place. */
  function Widened(bins: seq<real>, offset: int, maxSize: nat, i: int): (w: Window)
    requires 0 < maxSize && |bins| <= maxSize
    ensures w.pos < |w.bins| <= maxSize
    ensures bins != [] && offset + |bins| <= i ==>
              w.offset == Max(offset, i - maxSize + 1) && w.offset + w.pos == i && |w.bins| == w.pos + 1
  {
    if bins == [] then Window([0.0], i, 0)
    else if i < offset then
      var more := Min(offset - i, maxSize - |bins|);
      Window(Zeros(more) + bins, offset - more, 0)
    else if offset + |bins| <= i then
      var excess := i - offset + 1 - maxSize;
      var b := if excess > 0 then Collapsed(bins, excess) else bins;
      var o := if excess > 0 then offset + excess else offset;
      Window(b + Zeros(i - o - |b| + 1), o, i - o)
    else Window(bins, offset, i - offset)
  }

  lemma {:induction false} SumIsUpTo(adds: seq<Add>, maxSize: nat, offset: int, bins: seq<real>, n: nat)
    requires adds != [] && Agrees(adds, maxSize, offset, bins) && 0 < n <= |bins|
    ensures Sum(bins[..n]) == WeightUpTo(adds, offset + n - 1)
  {
    assert bins[..n][..n - 1] == bins[..n - 1];
    if n == 1 {
      assert Sum(bins[..0]) == 0.0;
    } else {
      SumIsUpTo(adds, maxSize, offset, bins, n - 1);
      UpToNext(adds, offset + n - 2);
    }
  }

  /** Collapsing moves the start of the window up and loses no weight. */
  lemma {:induction false} CollapseKeepsWeights(adds: seq<Add>, maxSize: nat, offset: int, bins: seq<real>, n: nat)
    requires adds != [] && Agrees(adds, maxSize, offset, bins) && 0 < n
    ensures Reads(adds, offset + n, Collapsed(bins, n))
  {
    hide WeightAt, WeightUpTo, Highest, Lowest, Sum;
    if n < |bins| {
      SumIsUpTo(adds, maxSize, offset, bins, n);
      UpToNext(adds, offset + n - 1);
      forall k | 0 < k < |bins| - n ensures Collapsed(bins, n)[k] == WeightAt(adds, offset + n + k) {
        assert Collapsed(bins, n)[k] == bins[n + k];
      }
    } else {
      assert bins[..|bins|] == bins;
      SumIsUpTo(adds, maxSize, offset, bins, |bins|);
      UpToBeyond(adds, offset + |bins| - 1, offset + n);
    }
  }

  lemma {:induction false} Extended(adds: seq<Add>, a: Add)
    ensures forall i :: WeightAt(adds + [a], i) == WeightAt(adds, i) + if a.index == i then a.weight else 0.0
    ensures forall i :: WeightUpTo(adds + [a], i) == WeightUpTo(adds, i) + if a.index <= i then a.weight else 0.0
    ensures Highest(adds + [a]) == if adds == [] then a.index else Max(Highest(adds), a.index)
    ensures Lowest(adds + [a]) == if adds == [] then a.index else Min(Lowest(adds), a.index)
    ensures adds != [] ==> Lowest(adds) <= Highest(adds)
  {
    assert (adds + [a])[..|adds|] == adds;
    if adds != [] {
      LowestHighest(adds);
    }
  }

  lemma {:induction false} LowestHighest(adds: seq<Add>)
    requires adds != []
    ensures Lowest(adds) <= Highest(adds)
  {
    if |adds| > 1 {
      LowestHighest(adds[..|adds| - 1]);
    }
  }

  /** Adding through the window agrees with adding to the histogram. */
  lemma {:induction false} AddAgrees(adds: seq<Add>, maxSize: nat, offset: int, bins: seq<real>, a: Add)
    requires 0 < maxSize && Agrees(adds, maxSize, offset, bins) && |bins| <= maxSize
    ensures var w := Widened(bins, offset, maxSize, a.index);
            Agrees(adds + [a], maxSize, w.offset, w.bins[w.pos := w.bins[w.pos] + a.weight])
  {
    Extended(adds, a);
    if adds == [] {
    } else if a.index < offset {
      AddBelow(adds, maxSize, offset, bins, a);
    } else if offset + |bins| <= a.index {
      AddAbove(adds, maxSize, offset, bins, a);
    }
  }

  lemma {:induction false} AddBelow(adds: seq<Add>, maxSize: nat, offset: int, bins: seq<real>, a: Add)
    requires adds != [] && 0 < maxSize && Agrees(adds, maxSize, offset, bins) && |bins| <= maxSize && a.index < offset
    ensures var w := Widened(bins, offset, maxSize, a.index);
            Agrees(adds + [a], maxSize, w.offset, w.bins[w.pos := w.bins[w.pos] + a.weight])
  {
    Extended(adds, a);
    var w := Widened(bins, offset, maxSize, a.index);
    var more := offset - w.offset;
    if more > 0 {
      // There was room, so nothing had been collapsed and the old start was the lowest index.
      forall j | j < Lowest(adds) ensures WeightAt(adds, j) == 0.0 && WeightUpTo(adds, j) == 0.0 {
        NoWeightBelow(adds, j);
      }
      UpToNext(adds, offset - 1);
      forall k | 0 < k < |w.bins| ensures w.bins[k] == WeightAt(adds + [a], w.offset + k) {
        assert w.bins[k] == if k < more then 0.0 else bins[k - more];
      }
    }
  }

  lemma {:induction false} PadAbove(adds: seq<Add>, o: int, b: seq<real>, n: nat)
    requires adds != [] && Reads(adds, o, b) && Highest(adds) < o + |b|
    ensures Reads(adds, o, b + Zeros(n))
  {
    hide WeightAt, WeightUpTo, Highest;
    forall k | |b| <= k < |b| + n ensures (b + Zeros(n))[k] == WeightAt(adds, o + k) {
      NoWeightAbove(adds, o + k);
    }
  }

  /** Making room above keeps every weight where the histogram has it. */
  lemma {:induction false} WidenAbove(adds: seq<Add>, maxSize: nat, offset: int, bins: seq<real>, i: int)
    requires adds != [] && 0 < maxSize && Agrees(adds, maxSize, offset, bins) && |bins| <= maxSize
    requires offset + |bins| <= i
    ensures Reads(adds, Widened(bins, offset, maxSize, i).offset, Widened(bins, offset, maxSize, i).bins)
  {
    assert bins != [];
    hide WeightAt, WeightUpTo, Highest, Lowest, Sum, Reads, Collapsed;
    var excess := i - offset + 1 - maxSize;
    if excess > 0 {
      CollapseKeepsWeights(adds, maxSize, offset, bins, excess);
      var b, o := Collapsed(bins, excess), offset + excess;
      PadAbove(adds, o, b, i - o - |b| + 1);
      assert Widened(bins, offset, maxSize, i) == Window(b + Zeros(i - o - |b| + 1), o, i - o);
    } else {
      PadAbove(adds, offset, bins, i - offset - |bins| + 1);
      assert Widened(bins, offset, maxSize, i) == Window(bins + Zeros(i - offset - |bins| + 1), offset, i - offset);
    }
  }

  lemma {:induction false} AddAbove(adds: seq<Add>, maxSize: nat, offset: int, bins: seq<real>, a: Add)
    requires adds != [] && 0 < maxSize && Agrees(adds, maxSize, offset, bins) && |bins| <= maxSize
    requires offset + |bins| <= a.index
    ensures var w := Widened(bins, offset, maxSize, a.index);
            Agrees(adds + [a], maxSize, w.offset, w.bins[w.pos := w.bins[w.pos] + a.weight])
  {
    hide Widened;
    Extended(adds, a);
    WidenAbove(adds, maxSize, offset, bins, a.index);
  }

  // ---------- Order of insertion ----------

  lemma {:induction false} Removed(adds: seq<Add>, j: nat, i: int)
    requires j < |adds|
    ensures var rest := adds[..j] + adds[j + 1..];
            && WeightAt(adds, i) == WeightAt(rest, i) + (if adds[j].index == i then adds[j].weight else 0.0)
            && WeightUpTo(adds, i) == WeightUpTo(rest, i) + (if adds[j].index <= i then adds[j].weight else 0.0)
  {
    hide WeightAt, WeightUpTo, Highest, Lowest;
    var k := |adds| - 1;
    var front, last := adds[..k], adds[k];
    assert adds == front + [last];
    Extended(front, last);
    if j == k {
      assert adds[..j] + adds[j + 1..] == front;
    } else {
      Removed(front, j, i);
      var rest := front[..j] + front[j + 1..];
      Extended(rest, last);
      assert adds[..j] + adds[j + 1..] == rest + [last];
    }
  }

  lemma Cancel(p: multiset<Add>, q: multiset<Add>, x: Add)
    requires p + multiset{x} == q + multiset{x}
    ensures p == q
  {
    assert p == p + multiset{x} - multiset{x} && q == q + multiset{x} - multiset{x};
  }

  lemma {:induction false} SameWeights(a: seq<Add>, b: seq<Add>, i: int)
    requires multiset(a) == multiset(b)
    ensures WeightAt(a, i) == WeightAt(b, i) && WeightUpTo(a, i) == WeightUpTo(b, i)
  {
    if a == [] {
      assert |multiset(b)| == 0;
    } else {
      var k := |a| - 1;
      assert a[k] in multiset(b);
      var j :| 0 <= j < |b| && b[j] == a[k];
      var rest := b[..j] + b[j + 1..];
      assert multiset(a) == multiset(a[..k]) + multiset{a[k]} by { assert a == a[..k] + [a[k]]; }
      assert multiset(b) == multiset(rest) + multiset{b[j]} by { assert b == b[..j] + [b[j]] + b[j + 1..]; }
      Cancel(multiset(a[..k]), multiset(rest), a[k]);
      Removed(b, j, i);
      SameWeights(a[..k], rest, i);
    }
  }

  lemma {:induction false} Extremes(adds: seq<Add>)
    requires adds != []
    ensures exists a :: a in adds && a.index == Highest(adds)
    ensures exists a :: a in adds && a.index == Lowest(adds)
    ensures forall a | a in adds :: Lowest(adds) <= a.index <= Highest(adds)
  {
    hide WeightAt, WeightUpTo, Highest, Lowest;
    var k := |adds| - 1;
    var front, last := adds[..k], adds[k];
    assert adds == front + [last] && last in adds;
    Extended(front, last);
    if k > 0 {
      Extremes(front);
      var hi :| hi in front && hi.index == Highest(front);
      var lo :| lo in front && lo.index == Lowest(front);
      assert hi in adds && lo in adds;
    }
  }

  /** The state of the store does not depend on the order of the additions. */
  lemma {:induction false} OrderIndependent(
    a: seq<Add>, b: seq<Add>, maxSize: nat, offset: int, offset': int, bins: seq<real>, bins': seq<real>)
    requires multiset(a) == multiset(b) && a != []
    requires Agrees(a, maxSize, offset, bins) && Agrees(b, maxSize, offset', bins')
    ensures offset == offset' && bins == bins'
  {
    assert forall x :: x in a <==> x in multiset(b);
    assert |multiset(a)| > 0 && b != [];
    Extremes(a);
    Extremes(b);
    SameWeights(a, b, offset);
    forall k | 0 < k < |bins| ensures bins[k] == bins'[k] {
      SameWeights(a, b, offset + k);
    }
  }

  /** Summing the store gives back every weight that was added. */
  lemma {:induction false} NothingLost(adds: seq<Add>, maxSize: nat, offset: int, bins: seq<real>)
    requires Agrees(adds, maxSize, offset, bins)
    ensures Sum(bins) == Total(adds)
  {
    if adds != [] {
      assert bins[..|bins|] == bins;
      SumIsUpTo(adds, maxSize, offset, bins, |bins|);
      UpToHighest(adds, Highest(adds));
    }
  }

  function Total(adds: seq<Add>): real {
    if adds == [] then 0.0 else Total(adds[..|adds| - 1]) + adds[|adds| - 1].weight
  }

  lemma TotalExtended(adds: seq<Add>, a: Add)
    ensures Total(adds + [a]) == Total(adds) + a.weight
  {
    assert (adds + [a])[..|adds|] == adds;
  }

  lemma {:induction false} UpToHighest(adds: seq<Add>, i: int)
    requires adds == [] || Highest(adds) <= i
    ensures WeightUpTo(adds, i) == Total(adds)
  {
    if adds != [] {
      UpToHighest(adds[..|adds| - 1], i);
    }
  }

  // ---------- The store as an object ----------

  class LowCollapsingDenseStore {
    var bins: seq<real>
    var offset: int
    const maxSize: nat
    /** Everything added so far. */
    ghost var adds: seq<Add>

    ghost predicate Valid()
      reads this
    {
      0 < maxSize && |bins| <= maxSize && Agrees(adds, maxSize, offset, bins)
    }

    constructor (maxSize: nat)
      ensures Valid() <==> 0 < maxSize
      ensures bins == [] && adds == [] && this.maxSize == maxSize
    {
      this.maxSize := maxSize;
      bins, offset, adds := [], 0, [];
    }

    /** Pops the lowest `n` bins, or as many as there are, and folds them into the new lowest bin. */
    method CollapseLowBins(n: nat)
      modifies this`bins, this`offset
      ensures bins == Collapsed(old(bins), n) && offset == old(offset) + n
    {
      var count := 0.0;
      for i := 0 to n
        invariant offset == old(offset)
        invariant bins == if i < |old(bins)| then old(bins)[i..] else []
        invariant count == Sum(if i < |old(bins)| then old(bins)[..i] else old(bins))
      {
        if bins != [] {
          count := count + bins[0];
          bins := bins[1..];
          assert old(bins)[..i + 1][..i] == old(bins)[..i] && old(bins)[..|old(bins)|] == old(bins);
        }
      }
      if bins != [] {
        bins := bins[0 := bins[0] + count];
        assert bins == [count + old(bins)[n]] + old(bins)[n + 1..];
      } else {
        bins := [count];
      }
      offset := offset + n;
    }

    /** Pushes `n` empty bins in front. */
    method PushFront(n: nat)
      modifies `bins
      ensures bins == Zeros(n) + old(bins)
    {
      for i := 0 to n
        invariant bins == Zeros(i) + old(bins)
      {
        bins := [0.0] + bins;
        assert [0.0] + Zeros(i) == Zeros(i + 1);
      }
    }

    /** Pushes `n` empty bins at the back. */
    method PushBack(n: nat)
      modifies `bins
      ensures bins == old(bins) + Zeros(n)
    {
      for i := 0 to n
        invariant bins == old(bins) + Zeros(i)
      {
        bins := bins + [0.0];
        assert Zeros(i) + [0.0] == Zeros(i + 1);
      }
    }

    /** Makes room for a bin and returns its place. */
    method BinIdxToStoreIdx(binIndex: int) returns (pos: nat)
      requires 0 < maxSize && |bins| <= maxSize
      modifies this`bins, this`offset
      ensures Window(bins, offset, pos) == Widened(old(bins), old(offset), maxSize, binIndex)
    {
      hide Collapsed;
      if bins == [] {
        offset := binIndex;
        bins := bins + [0.0];
        return 0;
      }
      if binIndex < offset {
        var more := Min(offset - binIndex, maxSize - |bins|);
        PushFront(more);
        offset := offset - more;
        pos := 0;
      } else if offset + |bins| <= binIndex {
        var range := binIndex - offset + 1;
        if range > maxSize {
          CollapseLowBins(range - maxSize);
        }
        pos := binIndex - offset;
        PushBack(pos - |bins| + 1);
      } else {
        pos := binIndex - offset;
      }
    }

    /** Adds a weight to a bin: the store keeps agreeing with the histogram of all additions. */
    method AddTo(binIndex: int, weight: real)
      requires Valid()
      modifies this
      ensures Valid() && adds == old(adds) + [Add(binIndex, weight)]
    {
      var pos := BinIdxToStoreIdx(binIndex);
      bins := bins[pos := bins[pos] + weight];
      AddAgrees(adds, maxSize, old(offset), old(bins), Add(binIndex, weight));
      adds := adds + [Add(binIndex, weight)];
    }
  }
}
