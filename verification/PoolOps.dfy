/**
 * The limiter pool at the granularity of whole operations, with nothing
 * running in between: it refines a multiset of live handles.
 */
module PoolOps {
  import opened Arith
  import opened PoolSteps
  import opened PoolRuns
  import opened PoolInvariant
  import opened PoolTheorems

  /** No operation is under way. */
  ghost predicate Settled(l: SlotLayout, s: Pool, g: Ghosts)
    requires l.Valid()
  {
    && Inv(l, s, g)
    && s.alloc.Idle?
    && s.threads == map[]
  }

  /** The steps, with nothing in between, lead from `s` to `s'` once idle threads are forgotten. */
  ghost predicate Reaches(l: SlotLayout, s: Pool, steps: seq<Step>, s': Pool) {
    var r := RunFrom(l, s, steps);
    && r.Some?
    && CarefulFrom(l, s, steps)
    && (forall t :: r.value.Pc(t).Running?)
    && s' == r.value.(threads := map[])
  }

  /** A slot is live exactly when its count is positive, and then the count is that of its handles. */
  lemma {:induction false} SettledCount(l: SlotLayout, s: Pool, g: Ghosts, x: nat)
    requires l.Valid() && Settled(l, s, g)
    ensures x in s.held <==> 0 < s.Rc(x)
    ensures x in s.held ==> s.Rc(x) == s.held[x] && x in g.own && g.own[x].Held? && x + l.size <= s.mapped
  {
    if x in g.own {
      assert SlotOk(l, s, g, x);
    }
  }

  /** Allocation with nothing in between is six steps; the chain loses its top, or the frontier moves up. */
  ghost function AfterAlloc(l: SlotLayout, g: Ghosts, x: nat): Ghosts
    requires g.chain != []
  {
    if |g.chain| == 1
    then Ghosts([x + l.size], g.own[x := Held][x + l.size := Free(0)])
    else Ghosts(g.chain[..|g.chain| - 1], g.own[x := Held])
  }

  lemma {:induction false} AllocReads(l: SlotLayout, s: Pool, g: Ghosts, mapped: nat)
    requires l.Valid() && Settled(l, s, g) && GrowsTo(l, s, mapped)
    ensures Inv(l, ReadyToPop(l, s, mapped), g)
  {
    hide Inv;
    TopIsFree(l, s, g);
    var x := s.firstFree;
    StepKeeps(l, s, ALoad, g);
    var s1 := s.(alloc := Loaded(x));
    StepKeeps(l, s1, APeek, g);
    var s2 := s.(alloc := Peeked(x, s.Next(x)));
    StepKeeps(l, s2, ADropTemp, g);
    var s3 := s.(rc := s.rc[x := s.Rc(x) - 1], alloc := TempDropped(x, s.Next(x)));
    StepKeeps(l, s3, AReady(mapped), g);
  }

  lemma {:induction false} TopIsFree(l: SlotLayout, s: Pool, g: Ghosts)
    requires l.Valid() && Inv(l, s, g)
    ensures g.chain != [] && s.firstFree == g.chain[|g.chain| - 1]
    ensures s.firstFree in g.own && g.own[s.firstFree].Free? && s.Rc(s.firstFree) <= 0
  {
    assert g.own[g.chain[|g.chain| - 1]].Free?;
    assert SlotOk(l, s, g, s.firstFree);
  }

  lemma {:induction false} AllocPops(l: SlotLayout, s: Pool, g: Ghosts)
    requires l.Valid() && Inv(l, s, g) && s.alloc.Ready? && s.alloc.ff == s.firstFree
    ensures Inv(l, Apply(l, Apply(l, s, ACas), AInit), AfterAlloc(l, g, s.firstFree))
  {
    hide Inv;
    TopIsFree(l, s, g);
    StepKeeps(l, s, ACas, g);
    var s', g' := Apply(l, s, ACas), Track(l, s, ACas, g);
    StepKeeps(l, s', AInit, g');
    assert Track(l, s', AInit, g').own == AfterAlloc(l, g, s.firstFree).own;
  }

  /** The six steps of an allocation lead from a settled pool to a settled pool, the top of the chain handed out. */
  lemma {:induction false} AllocSettles(l: SlotLayout, s: Pool, g: Ghosts, mapped: nat)
    requires l.Valid() && Settled(l, s, g) && GrowsTo(l, s, mapped)
    ensures g.chain != [] && s.firstFree == g.chain[|g.chain| - 1]
    ensures Reaches(l, s, AllocRun(mapped), Allocated(l, s, mapped))
    ensures Settled(l, Allocated(l, s, mapped), AfterAlloc(l, g, s.firstFree))
  {
    hide Inv, RunFrom, CarefulFrom;
    TopIsFree(l, s, g);
    AllocSteps(l, s, mapped);
    var ready := ReadyToPop(l, s, mapped);
    AllocReads(l, s, g, mapped);
    AllocPops(l, ready, g);
    assert ready.rc[s.firstFree := 1] == Allocated(l, s, mapped).rc;
    assert Allocated(l, s, mapped) == Apply(l, Apply(l, ready, ACas), AInit);
  }

  /** The slot of a last handle while its dropper still has to push it. */
  lemma {:induction false} LastDropPushes(l: SlotLayout, s: Pool, g: Ghosts, x: nat)
    requires l.Valid() && Inv(l, s, g) && g.chain != [] && s.Pc(0) == PushLoad(x)
    ensures
      Inv(l, s.(firstFree := x, next := s.next[x := s.firstFree], threads := s.threads[0 := Running]),
          Ghosts(g.chain + [x], g.own[x := Free(|g.chain|)]))
  {
    hide Inv;
    StepKeeps(l, s, PLoad(0), g);
    var s1 := Apply(l, s, PLoad(0));
    assert s1 == s.(threads := s.threads[0 := PushStore(x, s.firstFree)]);
    StepKeeps(l, s1, PStore(0), g);
    var s2 := Apply(l, s1, PStore(0));
    assert s2 == s.(next := s.next[x := s.firstFree], threads := s.threads[0 := PushCas(x, s.firstFree)]);
    StepKeeps(l, s2, PCas(0), g);
    assert s2.threads[0 := Running] == s.threads[0 := Running];
  }

  /** The four steps of a last drop, conditional or not, settle with the slot on top of the chain. */
  lemma {:induction false} LastDropSettles(l: SlotLayout, s: Pool, g: Ghosts, x: nat, s': Pool)
    requires l.Valid() && Settled(l, s, g) && g.chain != [] && x in s.held && s.Rc(x) == 1
    requires s' == Freed(s, 0, x).(threads := map[])
    ensures Reaches(l, s, LastDropRun(0, x), s') && Reaches(l, s, LastDropIfRc1Run(0, x), s')
    ensures Settled(l, s', Ghosts(g.chain + [x], g.own[x := Free(|g.chain|)]))
  {
    hide Inv, RunFrom, CarefulFrom;
    LastDropSteps(l, s, 0, x);
    var g' := Ghosts(g.chain + [x], g.own[x := Free(|g.chain|)]);
    StepKeeps(l, s, Drop(0, x), g);
    var s1, g1 := Apply(l, s, Drop(0, x)), Track(l, s, Drop(0, x), g);
    LastDropPushes(l, s1, g1, x);
    assert g1.own[x := Free(|g.chain|)] == g'.own;
    ForgetThreads(l, s'.(threads := s1.threads[0 := Running]), s', g');
  }

  /** Threads that run no operation can be left out of the state. */
  lemma {:induction false} ForgetThreads(l: SlotLayout, s: Pool, s': Pool, g: Ghosts)
    requires l.Valid() && Inv(l, s, g) && s' == s.(threads := map[]) && forall t :: s.Pc(t).Running?
    ensures Inv(l, s', g)
  {
    assert AllocOk(l, s', g);
    OnlyPcMoves(l, s, s', g);
  }

  /** The two steps of a `get` of a live slot settle with one more handle and one more count. */
  lemma {:induction false} GetSettles(l: SlotLayout, s: Pool, g: Ghosts, x: nat, s': Pool)
    requires l.Valid() && Settled(l, s, g) && IsSlot(l, x) && x + l.size <= s.mapped && 0 < s.Rc(x)
    requires s' == Got(s, 0, x).(threads := map[])
    ensures Reaches(l, s, GetRun(0, x), s') && Settled(l, s', g)
  {
    hide Inv, RunFrom, CarefulFrom, IsSlot;
    GetSteps(l, s, 0, x);
    StepKeeps(l, s, GetLoad(0, x), g);
    var s1 := Apply(l, s, GetLoad(0, x));
    assert s1 == s.(threads := map[0 := Getting(x, s.Rc(x))]);
    StepKeeps(l, s1, GetCas(0), g);
    ForgetThreads(l, Apply(l, s1, GetCas(0)), s', g);
  }

  /** The two steps of a `get` that finds zero settle with the slot still free, and its count at -1. */
  lemma {:induction false} GetFailSettles(l: SlotLayout, s: Pool, g: Ghosts, x: nat, s': Pool)
    requires l.Valid() && Settled(l, s, g) && IsSlot(l, x) && x + l.size <= s.mapped && s.Rc(x) == 0
    requires s' == GaveUp(s, 0, x).(threads := map[])
    ensures Reaches(l, s, GetFailRun(0, x), s') && Settled(l, s', g)
  {
    SettledCount(l, s, g, x);
    hide Inv, RunFrom, CarefulFrom, IsSlot;
    GetFailSteps(l, s, 0, x);
    StepKeeps(l, s, GetLoad(0, x), g);
    var s1 := Apply(l, s, GetLoad(0, x));
    assert s1 == s.(threads := map[0 := GetFailed(x)]);
    StepKeeps(l, s1, GetFail(0), g);
    ForgetThreads(l, Apply(l, s1, GetFail(0)), s', g);
  }

  /** The one step of dropping a handle that is not the last one settles. */
  lemma {:induction false} DropSettles(l: SlotLayout, s: Pool, g: Ghosts, x: nat, s': Pool)
    requires l.Valid() && Settled(l, s, g) && x in s.held && s.Rc(x) != 1
    requires s' == s.(rc := s.rc[x := s.Rc(x) - 1], held := s.held - multiset{x})
    ensures Reaches(l, s, [Drop(0, x)], s') && Settled(l, s', g)
  {
    hide Inv, RunFrom, CarefulFrom;
    assert g.chain != [] by { TopIsFree(l, s, g); }
    NoSteps(l, s);
    RunExtend(l, s, [], s, Drop(0, x));
    assert [] + [Drop(0, x)] == [Drop(0, x)];
    StepKeeps(l, s, Drop(0, x), g);
  }

  /** Mapping more memory moves no slot. */
  lemma {:induction false} GrowthSettles(l: SlotLayout, s: Pool, s': Pool, g: Ghosts)
    requires l.Valid() && Settled(l, s, g) && s.mapped <= s'.mapped && s' == s.(mapped := s'.mapped)
    ensures Settled(l, s', g)
  {
    hide Inv;
    StepKeeps(l, s, Grow(s'.mapped), g);
  }

  lemma {:induction false} TopInBounds(l: SlotLayout, s: Pool, g: Ghosts)
    requires l.Valid() && Settled(l, s, g)
    ensures g.chain != [] && s.firstFree == g.chain[|g.chain| - 1]
    ensures IsSlot(l, s.firstFree) && s.firstFree + l.size <= s.mapped && s.firstFree !in s.held
    ensures s.Rc(s.firstFree) <= 0
  {
    TopIsFree(l, s, g);
    assert SlotOk(l, s, g, s.firstFree);
  }

  lemma {:induction false} LiveIsHeld(l: SlotLayout, s: Pool, g: Ghosts, x: nat)
    requires l.Valid() && Settled(l, s, g) && x in s.held
    ensures g.chain != [] && x in g.own && g.own[x].Held? && x != 0 && s.Rc(x) == s.held[x]
  {
    assert SlotOk(l, s, g, x);
  }

  lemma CongruentIsSlot(l: SlotLayout, x: nat)
    requires l.Valid() && x % l.size == l.align
    ensures IsSlot(l, x)
  {
    var q := x / l.size;
    assert x == q * l.size + l.align;
    MulNonNegative(q, l.size);
    DivModUnique(x - l.align, q, 0, l.size);
    SlotIffCongruent(l, x);
  }

  // ---------- Counting ----------

  ghost function SlotsUpTo(l: SlotLayout, x: nat): set<nat>
    requires l.Valid() && IsSlot(l, x)
  {
    if x == l.align then {x} else SlotsUpTo(l, x - l.size) + {x}
  }

  /** How many slots lie below the slot at offset `x`. */
  ghost function SlotNumber(l: SlotLayout, x: nat): nat
    requires l.Valid() && IsSlot(l, x)
  {
    if x == l.align then 0 else SlotNumber(l, x - l.size) + 1
  }

  lemma {:induction false} SlotNumberOffset(l: SlotLayout, x: nat)
    requires l.Valid() && IsSlot(l, x)
    ensures x == l.align + SlotNumber(l, x) * l.size
  {
    if x != l.align {
      SlotNumberOffset(l, x - l.size);
    }
  }

  lemma {:induction false} SlotsUpToMember(l: SlotLayout, x: nat, y: nat)
    requires l.Valid() && IsSlot(l, x)
    ensures y in SlotsUpTo(l, x) <==> IsSlot(l, y) && y <= x
  {
    if x != l.align {
      SlotsUpToMember(l, x - l.size, y);
      if IsSlot(l, y) && x - l.size < y {
        SlotsDisjoint(l, x - l.size, y);
      }
    }
  }

  lemma {:induction false} SlotsUpToCount(l: SlotLayout, x: nat)
    requires l.Valid() && IsSlot(l, x)
    ensures |SlotsUpTo(l, x)| == SlotNumber(l, x) + 1
  {
    if x != l.align {
      SlotsUpToCount(l, x - l.size);
      SlotsUpToMember(l, x - l.size, x);
    }
  }

  ghost function LiveSlots(s: Pool): set<nat> { set x | x in s.held }

  ghost function Elements(chain: seq<nat>): set<nat> { set x | x in chain }

  lemma {:induction false} DistinctCount(chain: seq<nat>)
    requires forall p, q | 0 <= p < q < |chain| :: chain[p] != chain[q]
    ensures |Elements(chain)| == |chain|
  {
    if chain != [] {
      var k := |chain| - 1;
      DistinctCount(chain[..k]);
      assert Elements(chain) == Elements(chain[..k]) + {chain[k]};
    }
  }

  lemma {:induction false} SettledSlot(l: SlotLayout, s: Pool, g: Ghosts, x: nat)
    requires l.Valid() && Settled(l, s, g)
    ensures g.chain != [] && IsSlot(l, g.chain[0])
    ensures IsSlot(l, x) && x <= g.chain[0] <==> x in g.chain || x in s.held
    ensures !(x in g.chain && x in s.held)
  {
    assert SlotOk(l, s, g, g.chain[0]);
    if x in g.own {
      assert SlotOk(l, s, g, x);
      OwnerExcludes(l, s, g, x);
    }
  }

  /** Between operations, live slots and free slots together are all the slots below the frontier. */
  lemma {:induction false} LivePlusFree(l: SlotLayout, s: Pool, g: Ghosts)
    requires l.Valid() && Settled(l, s, g)
    ensures g.chain != [] && IsSlot(l, g.chain[0])
    ensures |LiveSlots(s)| + (|g.chain| - 1) == SlotNumber(l, g.chain[0])
  {
    hide Settled;
    SettledSlot(l, s, g, 0);
    ChainCount(l, s, g);
    SlotsUpToCount(l, g.chain[0]);
    var live := LiveSlots(s);
    forall x ensures x in SlotsUpTo(l, g.chain[0]) <==> x in Elements(g.chain) || x in live
             ensures !(x in Elements(g.chain) && x in live)
    {
      SlotsUpToMember(l, g.chain[0], x);
      SettledSlot(l, s, g, x);
    }
    UnionCount(SlotsUpTo(l, g.chain[0]), Elements(g.chain), live);
  }

  lemma {:induction false} ChainCount(l: SlotLayout, s: Pool, g: Ghosts)
    requires l.Valid() && Settled(l, s, g)
    ensures |Elements(g.chain)| == |g.chain|
  {
    InvIsFreeChain(l, s, g);
    DistinctCount(g.chain);
  }

  lemma UnionCount(all: set<nat>, a: set<nat>, b: set<nat>)
    requires forall x :: (x in all <==> x in a || x in b) && !(x in a && x in b)
    ensures |all| == |a| + |b|
  {
    assert all == a + b && a !! b;
  }
}
