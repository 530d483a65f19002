/** The limiter pool and its handles as objects, one whole operation at a time. */
module PoolMemory {
  import opened Wrappers
  import opened PoolSteps
  import opened PoolRuns
  import opened PoolInvariant
  import opened PoolOps
  import opened PoolTheorems

  class ShmLimiterMemory {
    const layout: SlotLayout
    var firstFree: nat
    var nextFree: map<nat, nat>
    var rc: map<nat, int>
    var size: nat
    var lastSize: nat
    /** The abstract state: one entry per handle that exists. */
    ghost var live: multiset<nat>
    ghost var owners: Ghosts

    ghost function View(): Pool
      reads this
    {
      Pool(firstFree, nextFree, rc, size, live, Idle, map[])
    }

    ghost predicate Valid()
      reads this
    {
      layout.Valid() && Settled(layout, View(), owners) && lastSize <= size
    }

    /** The slots on the free list, the frontier first and the next one to be handed out last. */
    ghost function FreeSlots(): seq<nat>
      reads this
    {
      owners.chain
    }

    constructor Create(layout: SlotLayout)
      requires layout.Valid()
      ensures Valid() <==> Fits(layout)
      ensures this.layout == layout && live == multiset{} && FreeSlots() == [layout.align]
    {
      this.layout := layout;
      firstFree, nextFree, rc, size, lastSize := layout.align, map[], map[], INITIAL_SIZE, INITIAL_SIZE;
      live, owners := multiset{}, Ghosts([layout.align], map[layout.align := Free(0)]);
      new;
      if Fits(layout) {
        CreateInv(layout);
      }
    }

    function NextFreeOf(idx: nat): nat
      reads this
    {
      if idx in nextFree then nextFree[idx] else 0
    }

    function RcOf(idx: nat): int
      reads this
    {
      if idx in rc then rc[idx] else 0
    }

    method CompareExchangeFirstFree(expected: nat, desired: nat) returns (ok: bool, found: nat)
      modifies this`firstFree
      ensures found == old(firstFree) && (ok <==> found == expected)
      ensures firstFree == if ok then desired else found
    {
      ok, found := firstFree == expected, firstFree;
      if ok {
        firstFree := desired;
      }
    }

    method CompareExchangeRc(idx: nat, expected: int, desired: int) returns (ok: bool, found: int)
      modifies this`rc
      ensures found == old(RcOf(idx)) && (ok <==> found == expected)
      ensures rc == if ok then old(rc)[idx := desired] else old(rc)
    {
      found := RcOf(idx);
      ok := found == expected;
      if ok {
        rc := rc[idx := desired];
      }
    }

    method FetchSubRc(idx: nat) returns (before: int)
      modifies this`rc
      ensures before == old(RcOf(idx)) && rc == old(rc)[idx := before - 1]
    {
      before := RcOf(idx);
      rc := rc[idx := before - 1];
    }

    /**
     * Pops the head of the free list, reading the slot through a temporary
     * handle that is dropped again. `grown` is the size `ensure_space` leaves.
     */
    method NextFree(grown: nat) returns (idx: nat)
      requires Valid() && size <= grown && firstFree + 2 * layout.size <= grown
      modifies this`firstFree, this`rc, this`size
      ensures idx == old(firstFree)
      ensures firstFree == Successor(layout, old(View()))
      ensures rc == old(rc)[idx := old(RcOf(idx)) - 1]
      ensures size == if old(NextFreeOf(idx)) == 0 then grown else old(size)
    {
      hide Settled;
      TopInBounds(layout, View(), owners);
      var taken := false;
      idx := firstFree;
      while !taken
        invariant idx == old(firstFree)
        invariant !taken ==> firstFree == old(firstFree) && rc == old(rc) && size == old(size)
        invariant taken ==>
                    && firstFree == Successor(layout, old(View()))
                    && rc == old(rc)[idx := old(RcOf(idx)) - 1]
                    && size == if old(NextFreeOf(idx)) == 0 then grown else old(size)
        decreases !taken
      {
        var target := NextFreeOf(idx);
        var before := FetchSubRc(idx);
        if before == 1 {
          assert false;
        }
        if target == 0 {
          target := idx + layout.size;
          size := grown;
        }
        var found;
        taken, found := CompareExchangeFirstFree(idx, target);
        if !taken {
          idx := found;
        }
      }
    }

    /** Hands out the top of the free list, or the frontier when the list is empty. */
    method Alloc(grown: nat) returns (handle: ShmLimiter)
      requires Valid() && size <= grown && firstFree + 2 * layout.size <= grown
      modifies this
      ensures Valid() && fresh(handle) && handle.memory == this
      ensures handle.idx == old(FreeSlots())[|old(FreeSlots())| - 1] && handle.idx !in old(live)
      ensures IsSlot(layout, handle.idx) && handle.idx + layout.size <= size
      ensures live == old(live) + multiset{handle.idx}
      ensures FreeSlots() ==
              if |old(FreeSlots())| == 1 then [handle.idx + layout.size]
              else old(FreeSlots())[..|old(FreeSlots())| - 1]
      ensures Reaches(layout, old(View()), AllocRun(size), View())
    {
      hide Settled, Reaches;
      ghost var before, g := View(), owners;
      TopInBounds(layout, before, g);
      var idx := NextFree(grown);
      rc := rc[idx := 1];
      live, owners := live + multiset{idx}, AfterAlloc(layout, g, idx);
      assert before.rc[idx := before.Rc(idx) - 1][idx := 1] == before.rc[idx := 1];
      AllocSettles(layout, before, g, size);
      handle := new ShmLimiter(idx, this);
    }

    /** `grown` is the size the mapping has once `ensure_space` has tried to reach the slot's end. */
    method EnsureIndex(idx: nat, grown: nat) returns (ok: bool)
      requires Valid() && size <= grown
      modifies this`size, this`lastSize
      ensures Valid() && live == old(live) && owners == old(owners)
      ensures old(size) <= size && (ok <==> idx + layout.size <= size)
      ensures !ok ==> grown < idx + layout.size
    {
      var end := idx + layout.size;
      ok := true;
      if end > lastSize {
        if size < end {
          size := grown;
          GrowthSettles(layout, old(View()), View(), owners);
          if size < end {
            return false;
          }
        }
        lastSize := size;
      }
    }

    /**
     * A further handle when the count is positive, none when it is zero. Giving
     * up lowers the count below zero, and a slot with a negative count is handed
     * out although it is free: the answer is right exactly when the count was
     * not negative.
     */
    method Get(idx: nat, grown: nat) returns (handle: Option<ShmLimiter>)
      requires Valid() && size <= grown
      requires idx % layout.size == layout.align
      modifies this
      ensures handle.Some? ==> fresh(handle.value) && handle.value.idx == idx && handle.value.memory == this
      ensures live == if handle.Some? then old(live) + multiset{idx} else old(live)
      ensures 0 <= old(RcOf(idx)) ==>
                && Valid() && FreeSlots() == old(FreeSlots())
                && (handle.Some? <==> idx in old(live))
                && (handle.Some? ==> RcOf(idx) == live[idx])
      ensures old(RcOf(idx)) < 0 ==> idx !in old(live)
      ensures idx + layout.size <= size ==> (handle.Some? <==> old(RcOf(idx)) != 0)
      ensures idx + layout.size <= size && handle.None? ==> RcOf(idx) == -1
      ensures idx + layout.size <= size && 0 <= old(RcOf(idx)) ==>
                Reaches(layout, old(View()).(mapped := size),
                        if handle.Some? then GetRun(0, idx) else GetFailRun(0, idx), View())
    {
      hide Settled, Reaches;
      CongruentIsSlot(layout, idx);
      SettledCount(layout, View(), owners, idx);
      var ok := EnsureIndex(idx, grown);
      if !ok {
        return None;
      }
      ghost var before := View();
      var reference := new ShmLimiter(idx, this);
      var seen, taken := RcOf(idx), false;
      while !taken
        invariant seen == before.Rc(idx)
        invariant rc == if taken then before.rc[idx := seen + 1] else before.rc
        invariant taken ==> seen != 0
        invariant View() == before.(rc := rc)
        modifies this`rc
        decreases !taken
      {
        if seen == 0 {
          var dropped := FetchSubRc(idx);
          if dropped == 1 {
            assert false;
          }
          GetFailSettles(layout, before, owners, idx, View());
          return None;
        }
        var found;
        taken, found := CompareExchangeRc(idx, seen, seen + 1);
        if !taken {
          seen := found;
        }
      }
      live := live + multiset{idx};
      if 0 < seen {
        GetSettles(layout, before, owners, idx, View());
      }
      handle := Some(reference);
    }

    /** Pushes a slot: its `next_free` takes the old head, and the head becomes the slot. */
    method ActualFree(idx: nat)
      modifies this`firstFree, this`nextFree
      ensures firstFree == idx && nextFree == old(nextFree)[idx := old(firstFree)]
    {
      var next, done := firstFree, false;
      while !done
        invariant next == old(firstFree)
        invariant !done ==> firstFree == old(firstFree) && nextFree == old(nextFree)
        invariant done ==> firstFree == idx && nextFree == old(nextFree)[idx := old(firstFree)]
        decreases !done
      {
        nextFree := nextFree[idx := next];
        var found;
        done, found := CompareExchangeFirstFree(next, idx);
        if !done {
          next := found;
        }
      }
    }
  }

  class ShmLimiter {
    var idx: nat
    const memory: ShmLimiterMemory

    constructor (idx: nat, memory: ShmLimiterMemory)
      ensures this.idx == idx && this.memory == memory
    {
      this.idx, this.memory := idx, memory;
    }

    /** One handle goes away; the last one, and only it, puts the slot on top of the free list. */
    method Drop()
      requires memory.Valid() && (idx == 0 || idx in memory.live)
      modifies memory
      ensures memory.Valid()
      ensures idx == 0 ==> memory.View() == old(memory.View()) && memory.owners == old(memory.owners)
      ensures idx != 0 ==> memory.live == old(memory.live) - multiset{idx}
      ensures memory.FreeSlots() ==
              if idx != 0 && old(memory.live)[idx] == 1 then old(memory.FreeSlots()) + [idx]
              else old(memory.FreeSlots())
      ensures idx != 0 ==>
                Reaches(memory.layout, old(memory.View()),
                        if old(memory.live)[idx] == 1 then LastDropRun(0, idx) else [Step.Drop(0, idx)], memory.View())
    {
      hide Settled, Reaches;
      if idx == 0 {
        return;
      }
      ghost var s, g := memory.View(), memory.owners;
      LiveIsHeld(memory.layout, s, g, idx);
      var before := memory.FetchSubRc(idx);
      memory.live := memory.live - multiset{idx};
      if before == 1 {
        memory.ActualFree(idx);
        memory.owners := Ghosts(g.chain + [idx], g.own[idx := Free(|g.chain|)]);
        LastDropSettles(memory.layout, s, g, idx, memory.View());
      } else {
        DropSettles(memory.layout, s, g, idx, memory.View());
      }
    }

    /** Drops only the last handle; on success the handle is spent and its later `Drop` does nothing. */
    method DropIfRc1() returns (dropped: bool)
      requires memory.Valid() && idx in memory.live
      modifies this, memory
      ensures memory.Valid()
      ensures dropped <==> old(memory.live)[old(idx)] == 1
      ensures dropped ==>
                && idx == 0
                && memory.live == old(memory.live) - multiset{old(idx)}
                && memory.FreeSlots() == old(memory.FreeSlots()) + [old(idx)]
      ensures !dropped ==> idx == old(idx) && memory.View() == old(memory.View()) && memory.owners == old(memory.owners)
      ensures dropped ==> Reaches(memory.layout, old(memory.View()), LastDropIfRc1Run(0, old(idx)), memory.View())
    {
      hide Settled, Reaches;
      ghost var s, g := memory.View(), memory.owners;
      LiveIsHeld(memory.layout, s, g, idx);
      var found;
      dropped, found := memory.CompareExchangeRc(idx, 1, 0);
      if dropped {
        memory.live := memory.live - multiset{idx};
        memory.ActualFree(idx);
        memory.owners := Ghosts(g.chain + [idx], g.own[idx := Free(|g.chain|)]);
        LastDropSettles(memory.layout, s, g, idx, memory.View());
        idx := 0;
      }
    }

    /** A conditional drop followed by the ordinary one frees the slot at most once. */
    method DropIfRc1ThenDrop()
      requires memory.Valid() && idx in memory.live && idx != 0
      modifies this, memory
      ensures memory.Valid()
      ensures memory.live == old(memory.live) - multiset{old(idx)}
      ensures memory.FreeSlots() ==
              if old(memory.live)[old(idx)] == 1 then old(memory.FreeSlots()) + [old(idx)]
              else old(memory.FreeSlots())
    {
      hide Settled;
      var _ := DropIfRc1();
      Drop();
    }
  }
}
