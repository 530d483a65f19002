/**
 * Whole operations of the limiter pool as runs of atomic steps with nothing
 * in between: the steps each operation takes, and the state they lead to.
 */
module PoolRuns {
  import opened Wrappers
  import opened PoolSteps

  /** A run goes on from where another one ends. */
  lemma {:induction false} RunConcat(l: SlotLayout, s0: Pool, a: seq<Step>, s: Pool, b: seq<Step>)
    requires RunFrom(l, s0, a) == Some(s) && RunFrom(l, s, b).Some?
    ensures RunFrom(l, s0, a + b) == RunFrom(l, s, b)
    ensures CarefulFrom(l, s0, a + b) <==> CarefulFrom(l, s0, a) && CarefulFrom(l, s, b)
  {
    hide Apply, Enabled, Careful;
    if b == [] {
      assert a + b == a;
    } else {
      var k := |b| - 1;
      RunConcat(l, s0, a, s, b[..k]);
      assert (a + b)[..|a| + k] == a + b[..k];
    }
  }

  /** One more step at the end of a run. */
  lemma Take(l: SlotLayout, s0: Pool, steps: seq<Step>, s: Pool, step: Step) returns (s': Pool, steps': seq<Step>)
    requires RunFrom(l, s0, steps) == Some(s) && Enabled(l, s, step)
    ensures s' == Apply(l, s, step) && steps' == steps + [step] && RunFrom(l, s0, steps') == Some(s')
    ensures CarefulFrom(l, s0, steps') <==> CarefulFrom(l, s0, steps) && Careful(s, step)
  {
    RunExtend(l, s0, steps, s, step);
    s', steps' := Apply(l, s, step), steps + [step];
  }

  // ---------- Allocation ----------

  /** The target `next_free` computes for the head slot. */
  function Successor(l: SlotLayout, s: Pool): nat {
    if s.Next(s.firstFree) == 0 then s.firstFree + l.size else s.Next(s.firstFree)
  }

  /** What `ensure_space` may leave behind: untouched unless the head slot is the frontier. */
  ghost predicate GrowsTo(l: SlotLayout, s: Pool, mapped: nat) {
    && s.mapped <= mapped
    && (if s.Next(s.firstFree) == 0 then s.firstFree + 2 * l.size <= mapped else mapped == s.mapped)
  }

  function AllocRun(mapped: nat): seq<Step> { [ALoad, APeek, ADropTemp, AReady(mapped), ACas, AInit] }

  /** The head slot is handed out with one handle, and its successor is the new head. */
  ghost function Allocated(l: SlotLayout, s: Pool, mapped: nat): Pool {
    var x := s.firstFree;
    s.(firstFree := Successor(l, s), rc := s.rc[x := 1], mapped := mapped, held := s.held + multiset{x})
  }

  /** Up to its compare-and-swap the allocator only looks, and lowers the count of the head slot. */
  ghost function ReadyToPop(l: SlotLayout, s: Pool, mapped: nat): Pool {
    var x := s.firstFree;
    s.(rc := s.rc[x := s.Rc(x) - 1], mapped := mapped, alloc := Ready(x, Successor(l, s)))
  }

  lemma AllocLooks(l: SlotLayout, s: Pool, mapped: nat)
    requires s.alloc.Idle? && s.Rc(s.firstFree) != 1 && GrowsTo(l, s, mapped)
    ensures var steps := [ALoad, APeek, ADropTemp, AReady(mapped)];
            RunFrom(l, s, steps) == Some(ReadyToPop(l, s, mapped)) && CarefulFrom(l, s, steps)
  {
    hide IsSlot, RunFrom, CarefulFrom;
    NoSteps(l, s);
    var s1, steps := Take(l, s, [], s, ALoad);
    s1, steps := Take(l, s, steps, s1, APeek);
    s1, steps := Take(l, s, steps, s1, ADropTemp);
    s1, steps := Take(l, s, steps, s1, AReady(mapped));
    assert steps == [ALoad, APeek, ADropTemp, AReady(mapped)];
  }

  lemma NoSteps(l: SlotLayout, s: Pool)
    ensures RunFrom(l, s, []) == Some(s) && CarefulFrom(l, s, [])
  {
  }

  /** The six steps of an allocation lead to the allocated state. */
  lemma AllocSteps(l: SlotLayout, s: Pool, mapped: nat)
    requires s.alloc.Idle? && s.Rc(s.firstFree) != 1 && GrowsTo(l, s, mapped)
    ensures RunFrom(l, s, AllocRun(mapped)) == Some(Allocated(l, s, mapped)) && CarefulFrom(l, s, AllocRun(mapped))
  {
    hide IsSlot, RunFrom, CarefulFrom;
    AllocLooks(l, s, mapped);
    var s1, steps := Take(l, s, [ALoad, APeek, ADropTemp, AReady(mapped)], ReadyToPop(l, s, mapped), ACas);
    s1, steps := Take(l, s, steps, s1, AInit);
    assert steps == AllocRun(mapped);
    assert s1.rc == Allocated(l, s, mapped).rc;
  }

  // ---------- Giving a slot back ----------

  function PushRun(t: nat): seq<Step> { [PLoad(t), PStore(t), PCas(t)] }

  /** The slot links to the old head and is the new head; its pusher is done. */
  ghost function Pushed(s: Pool, t: nat, x: nat): Pool {
    s.(firstFree := x, next := s.next[x := s.firstFree], threads := s.threads[t := Running])
  }

  lemma PushSteps(l: SlotLayout, s: Pool, t: nat, x: nat)
    requires s.Pc(t) == PushLoad(x)
    ensures RunFrom(l, s, PushRun(t)) == Some(Pushed(s, t, x)) && CarefulFrom(l, s, PushRun(t))
  {
    hide IsSlot, RunFrom, CarefulFrom;
    NoSteps(l, s);
    var s1, steps := Take(l, s, [], s, PLoad(t));
    assert s1 == s.(threads := s.threads[t := PushStore(x, s.firstFree)]);
    s1, steps := Take(l, s, steps, s1, PStore(t));
    assert s1 == s.(next := s.next[x := s.firstFree], threads := s.threads[t := PushCas(x, s.firstFree)]);
    s1, steps := Take(l, s, steps, s1, PCas(t));
    assert s1.threads == s.threads[t := Running] && steps == PushRun(t);
  }

  /** A drop and, when the handle was the last one, the push that follows it. */
  function LastDropRun(t: nat, x: nat): seq<Step> { [Drop(t, x)] + PushRun(t) }

  function LastDropIfRc1Run(t: nat, x: nat): seq<Step> { [DropIfRc1(t, x)] + PushRun(t) }

  ghost function Freed(s: Pool, t: nat, x: nat): Pool {
    s.(firstFree := x, next := s.next[x := s.firstFree], rc := s.rc[x := 0], held := s.held - multiset{x},
       threads := s.threads[t := Running])
  }

  /** Both drops of a last handle lead to the same freed state. */
  lemma LastDropSteps(l: SlotLayout, s: Pool, t: nat, x: nat)
    requires s.Pc(t).Running? && x in s.held && s.Rc(x) == 1
    ensures RunFrom(l, s, LastDropRun(t, x)) == Some(Freed(s, t, x)) && CarefulFrom(l, s, LastDropRun(t, x))
    ensures RunFrom(l, s, LastDropIfRc1Run(t, x)) == Some(Freed(s, t, x)) && CarefulFrom(l, s, LastDropIfRc1Run(t, x))
  {
    hide IsSlot, RunFrom, CarefulFrom;
    NoSteps(l, s);
    var s1, first := Take(l, s, [], s, Drop(t, x));
    var s2, second := Take(l, s, [], s, DropIfRc1(t, x));
    assert s1 == s2;
    PushSteps(l, s1, t, x);
    RunConcat(l, s, first, s1, PushRun(t));
    RunConcat(l, s, second, s1, PushRun(t));
    assert Pushed(s1, t, x).threads == s.threads[t := Running];
    assert first == [Drop(t, x)] && second == [DropIfRc1(t, x)];
  }

  // ---------- Looking a slot up ----------

  function GetRun(t: nat, x: nat): seq<Step> { [GetLoad(t, x), GetCas(t)] }

  ghost function Got(s: Pool, t: nat, x: nat): Pool {
    s.(rc := s.rc[x := s.Rc(x) + 1], held := s.held + multiset{x}, threads := s.threads[t := Running])
  }

  /** A `get` that finds a count other than zero raises it; it is careful when the count is positive. */
  lemma GetSteps(l: SlotLayout, s: Pool, t: nat, x: nat)
    requires l.Valid() && IsSlot(l, x) && x + l.size <= s.mapped && s.Pc(t).Running? && s.Rc(x) != 0
    ensures RunFrom(l, s, GetRun(t, x)) == Some(Got(s, t, x)) && (CarefulFrom(l, s, GetRun(t, x)) <==> 0 < s.Rc(x))
  {
    hide IsSlot, RunFrom, CarefulFrom;
    NoSteps(l, s);
    var s1, steps := Take(l, s, [], s, GetLoad(t, x));
    s1, steps := Take(l, s, steps, s1, GetCas(t));
    assert s1.threads == s.threads[t := Running] && steps == GetRun(t, x);
  }

  function GetFailRun(t: nat, x: nat): seq<Step> { [GetLoad(t, x), GetFail(t)] }

  ghost function GaveUp(s: Pool, t: nat, x: nat): Pool {
    s.(rc := s.rc[x := -1], threads := s.threads[t := Running])
  }

  /** A `get` that finds zero gives up and leaves -1; it is careful when nobody holds the slot. */
  lemma GetFailSteps(l: SlotLayout, s: Pool, t: nat, x: nat)
    requires l.Valid() && IsSlot(l, x) && x + l.size <= s.mapped && s.Pc(t).Running? && s.Rc(x) == 0
    ensures RunFrom(l, s, GetFailRun(t, x)) == Some(GaveUp(s, t, x))
    ensures CarefulFrom(l, s, GetFailRun(t, x)) <==> x !in s.held
  {
    hide IsSlot, RunFrom, CarefulFrom;
    NoSteps(l, s);
    var s1, steps := Take(l, s, [], s, GetLoad(t, x));
    s1, steps := Take(l, s, steps, s1, GetFail(t));
    assert s1.threads == s.threads[t := Running] && steps == GetFailRun(t, x);
  }

  // ---------- How operations end, whoever else is running ----------

  /** A step of `get` raised the count of the slot and took a handle. */
  ghost predicate GotHandle(s: Pool, s': Pool, x: nat) {
    s'.held == s.held + multiset{x} && s'.Rc(x) == s.Rc(x) + 1
  }

  /** The count a `get` has just read makes it give up or go on with that count. */
  ghost predicate WentOn(s: Pool, s': Pool, t: nat, x: nat) {
    s'.held == s.held && s'.Pc(t) == if s.Rc(x) == 0 then GetFailed(x) else Getting(x, s.Rc(x))
  }

  /**
   * A `get` that has read a count ends with a handle when the count is still
   * the same, and else goes on with the count it finds now, giving up on zero.
   */
  lemma GetEnds(l: SlotLayout, s: Pool, step: Step, t: nat)
    requires Enabled(l, s, step) && s.Pc(t).Getting?
    ensures
      var s', x := Apply(l, s, step), s.Pc(t).slot;
      if step != GetCas(t) then s'.Pc(t) == s.Pc(t)
      else if s.Rc(x) == s.Pc(t).rc then s'.Pc(t).Running? && GotHandle(s, s', x)
      else WentOn(s, s', t, x)
  {
    hide IsSlot, Pool.Next;
  }

  /** A `get` starts with the count it reads. */
  lemma GetStarts(l: SlotLayout, s: Pool, t: nat, x: nat)
    requires Enabled(l, s, GetLoad(t, x))
    ensures WentOn(s, Apply(l, s, GetLoad(t, x)), t, x)
  {
    hide IsSlot, Pool.Next;
  }

  /** The allocator ends only by handing out the slot it has popped, with one handle and a count of one. */
  lemma AllocEnds(l: SlotLayout, s: Pool, step: Step)
    requires Enabled(l, s, step) && !s.alloc.Idle? && Apply(l, s, step).alloc.Idle?
    ensures
      var s' := Apply(l, s, step);
      s.alloc.Popped? && s'.held == s.held + multiset{s.alloc.ff} && s'.Rc(s.alloc.ff) == 1
  {
    hide IsSlot, Pool.Next, Pool.Pc;
  }

  /** A push ends only when its slot has become the head. */
  lemma PushEnds(l: SlotLayout, s: Pool, step: Step, t: nat, x: nat)
    requires Enabled(l, s, step) && s.Pc(t).Pushes(x) && !Apply(l, s, step).Pc(t).Pushes(x)
    ensures step == PCas(t) && Apply(l, s, step).firstFree == x && Apply(l, s, step).Pc(t).Running?
  {
    hide IsSlot, Pool.Next, Pool.Rc;
  }

  /** A drop takes away its one handle; a conditional drop does so exactly on a count of one, and else does nothing. */
  lemma DropsEnd(l: SlotLayout, s: Pool, t: nat, x: nat)
    requires Enabled(l, s, Drop(t, x)) && Enabled(l, s, DropIfRc1(t, x))
    ensures
      var dropped, tried := Apply(l, s, Drop(t, x)), Apply(l, s, DropIfRc1(t, x));
      && dropped.held == s.held - multiset{x} && dropped.Rc(x) == s.Rc(x) - 1
      && tried == if s.Rc(x) == 1 then dropped else s
  {
    assert s.Rc(x) == 1 ==> s.rc[x := s.Rc(x) - 1] == s.rc[x := 0];
  }
}
