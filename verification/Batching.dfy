/**
 * How the aggregator cuts metrics into payloads (dogstatsd/src/aggregator.rs):
 * a greedy partition under a limit on entries and a limit on bytes.
 */
module Batching {

  datatype Limits = Limits(entries: nat, bytes: nat)

  /** A thing to ship and its serialized size. */
  datatype Item<+T> = Item(value: T, size: nat)

  function Bytes<T>(batch: seq<Item<T>>): nat {
    if batch == [] then 0 else Bytes(batch[..|batch| - 1]) + batch[|batch| - 1].size
  }

  predicate Positive<T>(items: seq<Item<T>>) {
    forall i | 0 <= i < |items| :: 0 < items[i].size
  }

  /** A payload may be shipped: it is a single item, or within both limits. */
  predicate Fits<T>(limits: Limits, batch: seq<Item<T>>) {
    |batch| == 1 || (0 < |batch| <= limits.entries && Bytes(batch) < limits.bytes)
  }

  /** The open batch is shipped before the next item is added. */
  predicate MustFlush<T>(limits: Limits, open: seq<Item<T>>, next: Item<T>) {
    (|open| >= limits.entries || Bytes(open) + next.size >= limits.bytes) && Bytes(open) != 0
  }

  /** The batches the loop produces from an open batch and the items still to come. */
  function Greedy<T>(limits: Limits, open: seq<Item<T>>, rest: seq<Item<T>>): seq<seq<Item<T>>>
    decreases |rest|
  {
    if rest == [] then (if open == [] then [] else [open])
    else if MustFlush(limits, open, rest[0]) then [open] + Greedy(limits, [rest[0]], rest[1..])
    else Greedy(limits, open + [rest[0]], rest[1..])
  }

  function Concat<T>(batches: seq<seq<T>>): seq<T> {
    if batches == [] then [] else batches[0] + Concat(batches[1..])
  }

  /** A contiguous partition of the items into payloads that may be shipped. */
  ghost predicate IsPartition<T>(limits: Limits, batches: seq<seq<Item<T>>>, items: seq<Item<T>>) {
    Concat(batches) == items && forall i | 0 <= i < |batches| :: Fits(limits, batches[i])
  }

  /** A partition no other partition beats. */
  ghost predicate IsLeastPartition<T(!new)>(limits: Limits, batches: seq<seq<Item<T>>>, items: seq<Item<T>>) {
    && IsPartition(limits, batches, items)
    && forall other | IsPartition(limits, other, items) :: |batches| <= |other|
  }

  lemma LeastIsPartition<T(!new)>(limits: Limits, batches: seq<seq<Item<T>>>, items: seq<Item<T>>)
    requires IsLeastPartition(limits, batches, items)
    ensures Concat(batches) == items
  {
  }

  // ---------- The loops ----------

  /** One round of the greedy loop, seen from the front of the remaining items. */
  lemma GreedyStep<T>(limits: Limits, open: seq<Item<T>>, next: Item<T>, rest: seq<Item<T>>)
    ensures Greedy(limits, open, [next] + rest) ==
            if MustFlush(limits, open, next) then [open] + Greedy(limits, [next], rest)
            else Greedy(limits, open + [next], rest)
    ensures Bytes(open + [next]) == Bytes(open) + next.size && Bytes([next]) == next.size
  {
    assert ([next] + rest)[1..] == rest && (open + [next])[..|open|] == open;
  }

  lemma GreedyEnds<T>(limits: Limits, open: seq<Item<T>>)
    ensures Greedy(limits, open, []) == if open == [] then [] else [open]
  {
  }

  /** The loop of consume_distributions. */
  method Batch<T(!new)>(limits: Limits, items: seq<Item<T>>) returns (batches: seq<seq<Item<T>>>)
    ensures Concat(batches) == items
    ensures Positive(items) ==> IsLeastPartition(limits, batches, items)
  {
    hide Greedy, Concat, IsLeastPartition;
    batches := [];
    var open, openBytes := [], 0;
    assert items[0..] == items;
    for i := 0 to |items|
      invariant openBytes == Bytes(open)
      invariant Greedy(limits, [], items) == batches + Greedy(limits, open, items[i..])
    {
      hide Bytes;
      var next := items[i];
      assert items[i..] == [next] + items[i + 1..];
      GreedyStep(limits, open, next, items[i + 1..]);
      if (|open| >= limits.entries || openBytes + next.size >= limits.bytes) && openBytes != 0 {
        batches := batches + [open];
        open, openBytes := [next], next.size;
      } else {
        open, openBytes := open + [next], openBytes + next.size;
      }
    }
    assert items[|items|..] == [];
    GreedyEnds(limits, open);
    if open != [] {
      batches := batches + [open];
    }
    assert batches == Greedy(limits, [], items) && [] + items == items;
    GreedyConcat(limits, [], items);
    if Positive(items) {
      GreedyIsLeast(limits, items);
    }
  }

  /** The items that serialize; a failed serialization reads as size 0. */
  function Serialized<T>(items: seq<Item<T>>): (r: seq<Item<T>>)
    ensures Positive(r)
    ensures Positive(items) ==> r == items
  {
    if items == [] then []
    else (if items[0].size > 0 then [items[0]] else []) + Serialized(items[1..])
  }

  /** Exactly the items of positive size are kept, each as often as it occurs. */
  lemma {:induction false} SerializedKeeps<T>(items: seq<Item<T>>, x: Item<T>)
    ensures multiset(Serialized(items))[x] == if x.size > 0 then multiset(items)[x] else 0
  {
    if items != [] {
      SerializedKeeps(items[1..], x);
      var first := if items[0].size > 0 then [items[0]] else [];
      assert items == [items[0]] + items[1..];
      assert multiset(Serialized(items)) == multiset(first) + multiset(Serialized(items[1..]));
    }
  }

  lemma NoneSerialized<T>()
    ensures Serialized<T>([]) == []
  {
  }

  lemma SerializedStep<T>(items: seq<Item<T>>, i: nat)
    requires i < |items|
    ensures Serialized(items[i..]) ==
            if items[i].size > 0 then [items[i]] + Serialized(items[i + 1..]) else Serialized(items[i + 1..])
  {
    assert items[i..][1..] == items[i + 1..];
  }

  /** The loop of consume_metrics, which leaves out what did not serialize. */
  method BatchSerialized<T(!new)>(limits: Limits, items: seq<Item<T>>) returns (batches: seq<seq<Item<T>>>)
    ensures IsLeastPartition(limits, batches, Serialized(items))
  {
    hide Greedy, IsLeastPartition;
    batches := [];
    var open, openBytes := [], 0;
    assert items[0..] == items;
    for i := 0 to |items|
      invariant openBytes == Bytes(open)
      invariant Greedy(limits, [], Serialized(items)) == batches + Greedy(limits, open, Serialized(items[i..]))
    {
      hide Serialized, Bytes;
      var next := items[i];
      SerializedStep(items, i);
      if next.size > 0 {
        GreedyStep(limits, open, next, Serialized(items[i + 1..]));
        if (|open| >= limits.entries || openBytes + next.size >= limits.bytes) && openBytes != 0 {
          batches := batches + [open];
          open, openBytes := [next], next.size;
        } else {
          open, openBytes := open + [next], openBytes + next.size;
        }
      }
    }
    assert items[|items|..] == [];
    GreedyEnds(limits, open);
    if open != [] {
      batches := batches + [open];
    }
    assert batches == Greedy(limits, [], Serialized(items));
    GreedyIsLeast(limits, Serialized(items));
  }

  // ---------- Order, content and limits ----------

  lemma {:induction false} GreedyConcat<T>(limits: Limits, open: seq<Item<T>>, rest: seq<Item<T>>)
    ensures Concat(Greedy(limits, open, rest)) == open + rest
    decreases |rest|
  {
    if rest == [] {
      assert open != [] ==> Concat([open]) == open + Concat([open][1..]);
    } else if MustFlush(limits, open, rest[0]) {
      var tail := Greedy(limits, [rest[0]], rest[1..]);
      GreedyConcat(limits, [rest[0]], rest[1..]);
      assert ([open] + tail)[1..] == tail;
    } else {
      GreedyConcat(limits, open + [rest[0]], rest[1..]);
      assert open + [rest[0]] + rest[1..] == open + rest;
    }
  }

  lemma {:induction false} BytesPositive<T>(items: seq<Item<T>>)
    requires Positive(items)
    ensures Bytes(items) == 0 <==> items == []
  {
    if items != [] {
      assert items[..|items| - 1] <= items;
    }
  }

  lemma {:induction false} GreedyFits<T>(limits: Limits, open: seq<Item<T>>, rest: seq<Item<T>>)
    requires Positive(open) && Positive(rest) && (open == [] || Fits(limits, open))
    ensures forall i | 0 <= i < |Greedy(limits, open, rest)| :: Fits(limits, Greedy(limits, open, rest)[i])
    decreases |rest|
  {
    if rest != [] {
      BytesPositive(open);
      assert (open + [rest[0]])[..|open|] == open;
      if MustFlush(limits, open, rest[0]) {
        GreedyFits(limits, [rest[0]], rest[1..]);
      } else {
        GreedyFits(limits, open + [rest[0]], rest[1..]);
      }
    }
  }

  // ---------- Minimality ----------

  lemma {:induction false} BytesOfParts<T>(a: seq<Item<T>>, b: seq<Item<T>>)
    ensures Bytes(a + b) == Bytes(a) + Bytes(b)
  {
    if b == [] {
      assert a + b == a;
    } else {
      var k := |b| - 1;
      BytesOfParts(a, b[..k]);
      assert (a + b)[..|a| + k] == a + b[..k];
    }
  }

  /** A non-empty piece of a payload that may be shipped may be shipped. */
  lemma PieceFits<T>(limits: Limits, a: seq<Item<T>>, b: seq<Item<T>>, c: seq<Item<T>>)
    requires Fits(limits, a + b + c) && b != []
    ensures Fits(limits, b)
  {
    BytesOfParts(a + b, c);
    BytesOfParts(a, b);
  }

  /** The loop keeps adding to the open batch as long as the result may be shipped. */
  lemma {:induction false} GreedyTakes<T>(limits: Limits, open: seq<Item<T>>, more: seq<Item<T>>, rest: seq<Item<T>>)
    requires more != [] ==> Fits(limits, open + more)
    ensures Greedy(limits, open, more + rest) == Greedy(limits, open + more, rest)
    decreases |more|
  {
    if more == [] {
      assert open + more == open && more + rest == rest;
    } else {
      var x, tail := more[0], more[1..];
      assert open + more == [] + (open + [x]) + tail;
      PieceFits(limits, [], open + [x], tail);
      assert (open + [x])[..|open|] == open;
      assert (more + rest)[1..] == tail + rest && open + [x] + tail == open + more;
      GreedyTakes(limits, open + [x], tail, rest);
    }
  }

  /** Once something is open, the loop ships one batch and starts over somewhere in the rest. */
  lemma {:induction false} GreedyRestarts<T>(limits: Limits, open: seq<Item<T>>, rest: seq<Item<T>>) returns (m: nat)
    requires open != []
    ensures m <= |rest| && |Greedy(limits, open, rest)| == 1 + |Greedy(limits, [], rest[m..])|
    decreases |rest|
  {
    if rest == [] {
      m := 0;
    } else if MustFlush(limits, open, rest[0]) {
      m := 0;
      assert rest[0..] == rest && [] + [rest[0]] == [rest[0]];
    } else {
      m := GreedyRestarts(limits, open + [rest[0]], rest[1..]);
      assert rest[1..][m..] == rest[m + 1..];
      m := m + 1;
    }
  }

  /** A batch that may be shipped, then the rest: the loop ships at least that batch before it starts over. */
  lemma GreedyCovers<T>(limits: Limits, batch: seq<Item<T>>, rest: seq<Item<T>>) returns (m: nat)
    requires Fits(limits, batch)
    ensures m <= |rest| && |Greedy(limits, [], batch + rest)| == 1 + |Greedy(limits, [], rest[m..])|
  {
    hide Greedy;
    assert [] + batch == batch;
    GreedyTakes(limits, [], batch, rest);
    m := GreedyRestarts(limits, batch, rest);
  }

  /** No partition of a longer stretch of items is shorter than the greedy one of its end. */
  lemma {:induction false} GreedyStaysAhead<T>(limits: Limits, batches: seq<seq<Item<T>>>, skip: nat)
    requires forall i | 0 <= i < |batches| :: Fits(limits, batches[i])
    requires skip <= |Concat(batches)|
    ensures |Greedy(limits, [], Concat(batches)[skip..])| <= |batches|
    decreases |batches|
  {
    if batches == [] {
      GreedyEnds<T>(limits, []);
    } else {
      hide Greedy, Fits;
      var first, rest := batches[0], Concat(batches[1..]);
      assert Concat(batches) == first + rest;
      if |first| <= skip {
        GreedyStaysAhead(limits, batches[1..], skip - |first|);
        assert (first + rest)[skip..] == rest[skip - |first|..];
      } else {
        var piece := first[skip..];
        assert first == first[..skip] + piece + [];
        PieceFits(limits, first[..skip], piece, []);
        assert (first + rest)[skip..] == piece + rest;
        var m := GreedyCovers(limits, piece, rest);
        GreedyStaysAhead(limits, batches[1..], m);
      }
    }
  }

  /**
   * With positive sizes the batches keep the items in order and lose none,
   * every batch may be shipped, and no other such partition is shorter.
   */
  lemma GreedyIsLeast<T(!new)>(limits: Limits, items: seq<Item<T>>)
    requires Positive(items)
    ensures IsLeastPartition(limits, Greedy(limits, [], items), items)
  {
    GreedyConcat(limits, [], items);
    assert [] + items == items;
    GreedyFits(limits, [], items);
    forall other | IsPartition(limits, other, items) ensures |Greedy(limits, [], items)| <= |other| {
      assert Concat(other)[0..] == items;
      GreedyStaysAhead(limits, other, 0);
    }
  }
}
