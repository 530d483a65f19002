/**
 * What every atomic step of the limiter pool keeps, and what follows for
 * every interleaving.
 *
 * The free list is a stack of slots whose bottom is the frontier: the lowest
 * slot that was never used, recognisable by its zero `next_free`.
 */
module PoolInvariant {
  import opened PoolSteps

  /** Who has a slot. */
  datatype Owner =
    | Free(depth: nat) // on the free list, `depth` links above the frontier
    | Held             // handed out, one or more handles
    | Taken            // popped by the allocator, not yet initialised
    | Pushed(t: nat)   // thread `t` is putting it back

  /** The free list read from the frontier up, and the owner of every slot up to the frontier. */
  datatype Ghosts = Ghosts(chain: seq<nat>, own: map<nat, Owner>)

  ghost predicate SlotOk(l: SlotLayout, s: Pool, g: Ghosts, x: nat)
    requires l.Valid() && x in g.own && g.chain != []
  {
    && IsSlot(l, x)
    && x <= g.chain[0]
    && match g.own[x]
       case Free(p) =>
         && p < |g.chain|
         && g.chain[p] == x
         && s.Rc(x) <= 0
         && x !in s.held
         && s.Next(x) == (if p == 0 then 0 else g.chain[p - 1])
       case Held => x < g.chain[0] && x in s.held && s.Rc(x) == s.held[x]
       case Taken => x < g.chain[0] && x !in s.held && s.Rc(x) <= 0 && s.alloc == Popped(x)
       case Pushed(t) =>
         && x < g.chain[0]
         && x !in s.held
         && s.Rc(x) <= 0
         && s.Pc(t).Pushes(x)
         && (s.Pc(t).PushCas? ==> s.Next(x) == s.Pc(t).seen)
  }

  /** The head of the list is the top of the chain, and the chain agrees with the owners. */
  ghost predicate ChainOk(s: Pool, g: Ghosts)
  {
    && g.chain != []
    && g.chain[|g.chain| - 1] == s.firstFree
    && forall p | 0 <= p < |g.chain| :: g.chain[p] in g.own && g.own[g.chain[p]] == Free(p)
  }

  /** Above the frontier there are no links, and nothing without an owner has a positive count. */
  ghost predicate FreshOk(l: SlotLayout, s: Pool, g: Ghosts)
    requires l.Valid() && g.chain != []
  {
    && (forall x: nat | IsSlot(l, x) :: if x <= g.chain[0] then x in g.own else s.Next(x) == 0)
    && (forall x: nat | x !in g.own :: s.Rc(x) <= 0)
  }

  /** Handles and pushes only concern slots that are theirs. */
  ghost predicate OwnersOk(s: Pool, g: Ghosts)
  {
    && (forall x | x in s.held :: x in g.own && g.own[x] == Held)
    && (forall t, x | s.Pc(t).Pushes(x) :: x in g.own && g.own[x] == Pushed(t))
  }

  /** What the allocator has read still holds: nobody else can pop. */
  ghost predicate AllocOk(l: SlotLayout, s: Pool, g: Ghosts)
    requires g.chain != []
  {
    && g.chain[0] + l.size <= s.mapped
    && match s.alloc
       case Idle => true
       case Loaded(ff) => ff in g.own && g.own[ff].Free?
       case Peeked(ff, nf) => ff in g.own && g.own[ff].Free? && s.Next(ff) == nf
       case TempDropped(ff, nf) => ff in g.own && g.own[ff].Free? && s.Next(ff) == nf
       case Ready(ff, target) =>
         && ff in g.own
         && g.own[ff].Free?
         && target == (if s.Next(ff) == 0 then ff + l.size else s.Next(ff))
         && (s.Next(ff) == 0 ==> target + l.size <= s.mapped)
       case Popped(ff) => ff in g.own && g.own[ff] == Taken
       case Misfreeing(ff) => false
  }

  ghost predicate Inv(l: SlotLayout, s: Pool, g: Ghosts)
    requires l.Valid()
  {
    && ChainOk(s, g)
    && (forall x | x in g.own :: SlotOk(l, s, g, x))
    && FreshOk(l, s, g)
    && OwnersOk(s, g)
    && AllocOk(l, s, g)
  }

  /** How ownership moves. Only the two compare-and-swaps on the list head move the chain. */
  ghost function Track(l: SlotLayout, s: Pool, step: Step, g: Ghosts): Ghosts
    requires g.chain != [] && Enabled(l, s, step)
  {
    match step
    case ACas =>
      if s.firstFree != s.alloc.ff then g
      else if |g.chain| == 1 then
        var x := g.chain[0];
        Ghosts([x + l.size], g.own[x := Taken][x + l.size := Free(0)])
      else
        Ghosts(g.chain[..|g.chain| - 1], g.own[s.firstFree := Taken])
    case AInit => g.(own := g.own[s.alloc.ff := Held])
    case Drop(t, x) => if s.Rc(x) == 1 then g.(own := g.own[x := Pushed(t)]) else g
    case DropIfRc1(t, x) => if s.Rc(x) == 1 then g.(own := g.own[x := Pushed(t)]) else g
    case PCas(t) =>
      if s.firstFree == s.Pc(t).seen
      then Ghosts(g.chain + [s.Pc(t).slot], g.own[s.Pc(t).slot := Free(|g.chain|)])
      else g
    case _ => g
  }

  /** A slot whose own fields, handles and pusher a step leaves alone stays as it is. */
  lemma {:induction false} SlotStays(l: SlotLayout, s: Pool, s': Pool, g: Ghosts, g': Ghosts, x: nat)
    requires l.Valid() && g.chain != [] && x in g.own && SlotOk(l, s, g, x)
    requires g.chain <= g'.chain && x in g'.own && g'.own[x] == g.own[x]
    requires s'.Rc(x) == s.Rc(x) && s'.Next(x) == s.Next(x) && s'.held[x] == s.held[x]
    requires g.own[x] == Taken ==> s'.alloc == s.alloc
    requires g.own[x].Pushed? ==> s'.Pc(g.own[x].t) == s.Pc(g.own[x].t)
    ensures SlotOk(l, s', g', x)
  {
    hide IsSlot, Pool.Rc, Pool.Next, Pool.Pc;
  }

  // ---------- Steps of the allocator ----------

  /** Two states that differ only in the allocator's program counter, the size of the mapping and idle threads. */
  ghost predicate SameMemory(s: Pool, s': Pool) {
    && s' == s.(alloc := s'.alloc, mapped := s'.mapped, threads := s'.threads)
    && (s'.alloc == s.alloc || !s.alloc.Popped?)
    && (forall t :: s'.Pc(t) == s.Pc(t))
  }

  lemma {:induction false} SameMemoryKeepsRest(l: SlotLayout, s: Pool, s': Pool, g: Ghosts)
    requires l.Valid() && SameMemory(s, s') && ChainOk(s, g) && FreshOk(l, s, g) && OwnersOk(s, g)
    ensures ChainOk(s', g) && FreshOk(l, s', g) && OwnersOk(s', g)
  {
    hide Pool.Pc;
    assert forall x: nat :: s'.Next(x) == s.Next(x) && s'.Rc(x) == s.Rc(x);
  }

  lemma TakenIsPopped(l: SlotLayout, s: Pool, g: Ghosts, x: nat)
    requires l.Valid() && g.chain != [] && x in g.own && SlotOk(l, s, g, x)
    ensures g.own[x] == Taken ==> s.alloc.Popped?
  {
  }

  lemma {:induction false} OnlyPcMoves(l: SlotLayout, s: Pool, s': Pool, g: Ghosts)
    requires l.Valid() && Inv(l, s, g) && SameMemory(s, s') && AllocOk(l, s', g)
    ensures Inv(l, s', g)
  {
    hide FreshOk, OwnersOk, AllocOk, SlotOk, Pool.Pc;
    SameMemoryKeepsRest(l, s, s', g);
    forall x | x in g.own ensures SlotOk(l, s', g, x) {
      TakenIsPopped(l, s, g, x);
      SlotStays(l, s, s', g, g, x);
    }
  }

  lemma {:induction false} DropTempKeepsSlot(l: SlotLayout, s: Pool, g: Ghosts, x: nat)
    requires l.Valid() && ChainOk(s, g) && AllocOk(l, s, g) && s.alloc.Peeked?
    requires x in g.own && SlotOk(l, s, g, x)
    ensures SlotOk(l, Apply(l, s, ADropTemp), g, x)
  {
    hide IsSlot;
    assert forall t :: Apply(l, s, ADropTemp).Pc(t) == s.Pc(t);
  }

  lemma {:induction false} DropTempKeepsRest(l: SlotLayout, s: Pool, g: Ghosts)
    requires l.Valid() && s.alloc.Peeked?
    requires ChainOk(s, g) && FreshOk(l, s, g) && OwnersOk(s, g) && AllocOk(l, s, g)
    requires SlotOk(l, s, g, s.alloc.ff)
    ensures FreshOk(l, Apply(l, s, ADropTemp), g)
    ensures OwnersOk(Apply(l, s, ADropTemp), g)
    ensures AllocOk(l, Apply(l, s, ADropTemp), g)
  {
    assert forall t :: Apply(l, s, ADropTemp).Pc(t) == s.Pc(t);
  }

  /** The temporary handle decrements the count of a free slot, which stays at or below zero. */
  lemma {:induction false} DropTempKeeps(l: SlotLayout, s: Pool, g: Ghosts)
    requires l.Valid() && Inv(l, s, g) && s.alloc.Peeked?
    ensures Inv(l, Apply(l, s, ADropTemp), g)
  {
    assert s.alloc.ff in g.own;
    hide SlotOk, FreshOk, OwnersOk, AllocOk;
    DropTempKeepsRest(l, s, g);
    forall x | x in g.own ensures SlotOk(l, Apply(l, s, ADropTemp), g, x) {
      DropTempKeepsSlot(l, s, g, x);
    }
  }

  /** The allocator's compare-and-swap is about to succeed. */
  ghost predicate Popping(l: SlotLayout, s: Pool, g: Ghosts)
    requires l.Valid()
  {
    && ChainOk(s, g)
    && AllocOk(l, s, g)
    && s.alloc.Ready?
    && s.firstFree == s.alloc.ff
    && g.own[s.firstFree] == Free(|g.chain| - 1)
    && SlotOk(l, s, g, s.firstFree)
    && (1 < |g.chain| ==> g.chain[|g.chain| - 2] != 0)
  }

  lemma {:induction false} PopKeepsChain(l: SlotLayout, s: Pool, g: Ghosts)
    requires l.Valid() && Popping(l, s, g)
    ensures ChainOk(Apply(l, s, ACas), Track(l, s, ACas, g))
  {
    forall p | 0 <= p < |g.chain| - 1 ensures g.chain[p] != s.firstFree {
      assert g.own[g.chain[p]] == Free(p);
    }
  }

  lemma {:induction false} PopKeepsSlot(l: SlotLayout, s: Pool, g: Ghosts, x: nat)
    requires l.Valid() && Popping(l, s, g) && x in g.own && SlotOk(l, s, g, x)
    ensures SlotOk(l, Apply(l, s, ACas), Track(l, s, ACas, g), x)
  {
    assert forall t :: Apply(l, s, ACas).Pc(t) == s.Pc(t);
  }

  lemma {:induction false} PopKeepsFresh(l: SlotLayout, s: Pool, g: Ghosts)
    requires l.Valid() && Popping(l, s, g) && FreshOk(l, s, g)
    ensures FreshOk(l, Apply(l, s, ACas), Track(l, s, ACas, g))
  {
    var s', g' := Apply(l, s, ACas), Track(l, s, ACas, g);
    forall x: nat | IsSlot(l, x)
      ensures if x <= g'.chain[0] then x in g'.own else s'.Next(x) == 0
    {
      if g.chain[0] < x <= g'.chain[0] {
        SlotsDisjoint(l, g.chain[0], x);
      }
    }
  }

  lemma {:induction false} PopKeepsOwners(l: SlotLayout, s: Pool, g: Ghosts)
    requires l.Valid() && Popping(l, s, g) && OwnersOk(s, g) && g.chain[0] + l.size !in g.own
    ensures OwnersOk(Apply(l, s, ACas), Track(l, s, ACas, g))
  {
    var s' := Apply(l, s, ACas);
    assert forall t :: s'.Pc(t) == s.Pc(t);
  }

  /** Popping the frontier makes the slot above it the new frontier. */
  lemma {:induction false} PopMovesFrontier(l: SlotLayout, s: Pool, g: Ghosts)
    requires l.Valid() && Popping(l, s, g) && FreshOk(l, s, g) && SlotOk(l, s, g, g.chain[0])
    requires OwnersOk(s, g) && forall x | x in g.own :: x <= g.chain[0]
    ensures g.chain[0] + l.size !in g.own
    ensures AllocOk(l, Apply(l, s, ACas), Track(l, s, ACas, g))
    ensures |g.chain| == 1 ==> SlotOk(l, Apply(l, s, ACas), Track(l, s, ACas, g), g.chain[0] + l.size)
  {
    assert IsSlot(l, g.chain[0] + l.size);
  }

  lemma {:induction false} PopSucceeds(l: SlotLayout, s: Pool, g: Ghosts)
    requires l.Valid() && Inv(l, s, g) && Popping(l, s, g)
    ensures Inv(l, Apply(l, s, ACas), Track(l, s, ACas, g))
  {
    hide IsSlot, Apply, Pool.Rc, Pool.Next, Pool.Pc;
    var s', g' := Apply(l, s, ACas), Track(l, s, ACas, g);
    assert forall x | x in g.own :: x <= g.chain[0];
    assert SlotOk(l, s, g, g.chain[0]);
    hide SlotOk, FreshOk, OwnersOk, AllocOk, ChainOk;
    PopKeepsChain(l, s, g);
    PopKeepsFresh(l, s, g);
    PopMovesFrontier(l, s, g);
    PopKeepsOwners(l, s, g);
    forall x | x in g'.own ensures SlotOk(l, s', g', x) {
      if x in g.own { PopKeepsSlot(l, s, g, x); }
    }
  }

  /**
   * The compare-and-swap of `next_free`. When the head still equals the slot
   * that was read, the target is exactly the successor of that slot: there is
   * no ABA, because a slot on the chain cannot leave it and come back.
   */
  lemma {:induction false} PopKeeps(l: SlotLayout, s: Pool, g: Ghosts)
    requires l.Valid() && Inv(l, s, g) && s.alloc.Ready?
    ensures Inv(l, Apply(l, s, ACas), Track(l, s, ACas, g))
  {
    assert g.chain[|g.chain| - 1] in g.own;
    if s.firstFree == s.alloc.ff {
      assert 1 < |g.chain| ==> SlotOk(l, s, g, g.chain[|g.chain| - 2]);
      PopSucceeds(l, s, g);
    } else {
      OnlyPcMoves(l, s, Apply(l, s, ACas), g);
    }
  }

  lemma {:induction false} InitKeepsSlot(l: SlotLayout, s: Pool, g: Ghosts, x: nat)
    requires l.Valid() && ChainOk(s, g) && AllocOk(l, s, g) && s.alloc.Popped? && SlotOk(l, s, g, s.alloc.ff)
    requires x in g.own && SlotOk(l, s, g, x)
    ensures SlotOk(l, Apply(l, s, AInit), Track(l, s, AInit, g), x)
  {
    hide IsSlot;
    assert forall t :: Apply(l, s, AInit).Pc(t) == s.Pc(t);
  }

  lemma {:induction false} InitKeepsOwners(l: SlotLayout, s: Pool, g: Ghosts)
    requires l.Valid() && g.chain != [] && s.alloc.Popped? && OwnersOk(s, g)
    requires s.alloc.ff in g.own && g.own[s.alloc.ff] == Taken && s.alloc.ff !in s.held
    ensures OwnersOk(Apply(l, s, AInit), Track(l, s, AInit, g))
  {
    assert forall t :: Apply(l, s, AInit).Pc(t) == s.Pc(t);
  }

  lemma {:induction false} InitKeepsRest(l: SlotLayout, s: Pool, g: Ghosts)
    requires l.Valid() && s.alloc.Popped? && ChainOk(s, g) && FreshOk(l, s, g) && AllocOk(l, s, g)
    ensures ChainOk(Apply(l, s, AInit), Track(l, s, AInit, g))
    ensures FreshOk(l, Apply(l, s, AInit), Track(l, s, AInit, g))
    ensures AllocOk(l, Apply(l, s, AInit), Track(l, s, AInit, g))
  {
  }

  /** Initialising the popped slot: its count is stored, not incremented, and equals its one handle. */
  lemma {:induction false} InitKeeps(l: SlotLayout, s: Pool, g: Ghosts)
    requires l.Valid() && Inv(l, s, g) && s.alloc.Popped?
    ensures Inv(l, Apply(l, s, AInit), Track(l, s, AInit, g))
  {
    var s', g' := Apply(l, s, AInit), Track(l, s, AInit, g);
    assert SlotOk(l, s, g, s.alloc.ff);
    InitKeepsOwners(l, s, g);
    InitKeepsRest(l, s, g);
    hide SlotOk, FreshOk, OwnersOk, AllocOk;
    forall x | x in g'.own ensures SlotOk(l, s', g', x) {
      InitKeepsSlot(l, s, g, x);
    }
  }

  // ---------- Steps of the other threads ----------

  /** Handles and pushes stay with their owners when only thread `t` and slot `y` move. */
  lemma {:induction false} OwnersMove(s: Pool, s': Pool, g: Ghosts, g': Ghosts, t: nat, y: nat)
    requires OwnersOk(s, g)
    requires forall x | x != y :: (x in s'.held ==> x in s.held) && (x in g.own ==> x in g'.own && g'.own[x] == g.own[x])
    requires forall u | u != t :: s'.Pc(u) == s.Pc(u)
    requires forall x | x != y && s'.Pc(t).Pushes(x) :: s.Pc(t).Pushes(x)
    requires y in s'.held ==> y in g'.own && g'.own[y] == Held
    requires forall u | s'.Pc(u).Pushes(y) :: y in g'.own && g'.own[y] == Pushed(u)
    ensures OwnersOk(s', g')
  {
    hide Pool.Pc;
    forall u, x | s'.Pc(u).Pushes(x) ensures x in g'.own && g'.own[x] == Pushed(u) {
      if x != y {
        assert s.Pc(u).Pushes(x);
      }
    }
  }

  predicate IsGet(step: Step) { step.GetLoad? || step.GetCas? || step.GetFail? }

  /** The slot a step of `get` looks at. */
  ghost function Target(l: SlotLayout, s: Pool, step: Step): nat
    requires IsGet(step) && Enabled(l, s, step)
  {
    if step.GetLoad? then step.x else s.Pc(step.t).slot
  }

  lemma {:induction false} GetKeepsSlot(l: SlotLayout, s: Pool, step: Step, g: Ghosts, x: nat)
    requires l.Valid() && ChainOk(s, g) && IsGet(step) && Enabled(l, s, step) && Careful(s, step)
    requires x in g.own && SlotOk(l, s, g, x)
    ensures SlotOk(l, Apply(l, s, step), g, x)
  {
    hide IsSlot;
    if x != Target(l, s, step) {
      assert g.own[x].Pushed? ==> g.own[x].t != step.t;
      hide SlotOk;
      SlotStays(l, s, Apply(l, s, step), g, g, x);
    }
  }

  lemma {:induction false} GetKeepsOwners(l: SlotLayout, s: Pool, step: Step, g: Ghosts)
    requires l.Valid() && IsGet(step) && Enabled(l, s, step) && Careful(s, step) && OwnersOk(s, g)
    requires var y := Target(l, s, step); 0 < s.Rc(y) ==> y in s.held && y in g.own && g.own[y] == Held
    ensures OwnersOk(Apply(l, s, step), g)
  {
    hide IsSlot;
    var s', t := Apply(l, s, step), step.t;
    assert !s'.Pc(t).PushLoad? && !s'.Pc(t).PushStore? && !s'.Pc(t).PushCas?;
    assert forall u | u != t :: s'.Pc(u) == s.Pc(u);
    OwnersMove(s, s', g, g, t, Target(l, s, step));
  }

  lemma {:induction false} GetKeepsRest(l: SlotLayout, s: Pool, step: Step, g: Ghosts)
    requires l.Valid() && IsGet(step) && Enabled(l, s, step) && Careful(s, step)
    requires ChainOk(s, g) && FreshOk(l, s, g) && AllocOk(l, s, g)
    ensures FreshOk(l, Apply(l, s, step), g)
    ensures AllocOk(l, Apply(l, s, step), g)
  {
  }

  /** A careful `get` raises the count of a live slot together with its handles, or lowers that of a dead one. */
  lemma {:induction false} GetKeeps(l: SlotLayout, s: Pool, step: Step, g: Ghosts)
    requires l.Valid() && Inv(l, s, g) && IsGet(step) && Enabled(l, s, step) && Careful(s, step)
    ensures Inv(l, Apply(l, s, step), g)
  {
    var y := Target(l, s, step);
    assert y in g.own ==> SlotOk(l, s, g, y);
    assert 0 < s.Rc(y) ==> y in s.held && y in g.own && g.own[y] == Held;
    hide SlotOk, FreshOk, OwnersOk, AllocOk;
    GetKeepsOwners(l, s, step, g);
    GetKeepsRest(l, s, step, g);
    forall x | x in g.own ensures SlotOk(l, Apply(l, s, step), g, x) {
      GetKeepsSlot(l, s, step, g, x);
    }
  }

  lemma {:induction false} DropKeepsSlot(l: SlotLayout, s: Pool, step: Step, g: Ghosts, x: nat)
    requires l.Valid() && ChainOk(s, g) && (step.Drop? || step.DropIfRc1?) && Enabled(l, s, step)
    requires step.x in g.own && g.own[step.x] == Held && SlotOk(l, s, g, step.x)
    requires x in g.own && SlotOk(l, s, g, x)
    ensures SlotOk(l, Apply(l, s, step), Track(l, s, step, g), x)
  {
    hide IsSlot;
    var s' := Apply(l, s, step);
    if x != step.x {
      assert g.own[x].Pushed? ==> g.own[x].t != step.t;
      hide SlotOk;
      SlotStays(l, s, s', g, Track(l, s, step, g), x);
    }
  }

  lemma {:induction false} DropKeepsOwners(l: SlotLayout, s: Pool, step: Step, g: Ghosts)
    requires l.Valid() && OwnersOk(s, g) && (step.Drop? || step.DropIfRc1?) && Enabled(l, s, step)
    requires g.chain != [] && s.Rc(step.x) == s.held[step.x]
    ensures OwnersOk(Apply(l, s, step), Track(l, s, step, g))
  {
    var s', t, y := Apply(l, s, step), step.t, step.x;
    assert s'.Pc(t) == if s.Rc(y) == 1 then PushLoad(y) else Running;
    assert forall u | u != t :: s'.Pc(u) == s.Pc(u);
    assert g.own[y] == Held;
    OwnersMove(s, s', g, Track(l, s, step, g), t, y);
  }

  lemma {:induction false} DropKeepsRest(l: SlotLayout, s: Pool, step: Step, g: Ghosts)
    requires l.Valid() && (step.Drop? || step.DropIfRc1?) && Enabled(l, s, step)
    requires ChainOk(s, g) && FreshOk(l, s, g) && AllocOk(l, s, g)
    requires step.x in g.own && g.own[step.x] == Held && SlotOk(l, s, g, step.x)
    ensures ChainOk(Apply(l, s, step), Track(l, s, step, g))
    ensures FreshOk(l, Apply(l, s, step), Track(l, s, step, g))
    ensures AllocOk(l, Apply(l, s, step), Track(l, s, step, g))
  {
    hide IsSlot;
  }

  /** Dropping a handle: the thread that takes the count to zero, and only it, starts a push. */
  lemma {:induction false} DropKeeps(l: SlotLayout, s: Pool, step: Step, g: Ghosts)
    requires l.Valid() && Inv(l, s, g) && (step.Drop? || step.DropIfRc1?) && Enabled(l, s, step)
    ensures Inv(l, Apply(l, s, step), Track(l, s, step, g))
  {
    var s', g' := Apply(l, s, step), Track(l, s, step, g);
    assert SlotOk(l, s, g, step.x);
    DropKeepsRest(l, s, step, g);
    DropKeepsOwners(l, s, step, g);
    forall x | x in g'.own ensures SlotOk(l, s', g', x) {
      DropKeepsSlot(l, s, step, g, x);
    }
  }

  lemma {:induction false} LinkKeepsSlot(l: SlotLayout, s: Pool, step: Step, g: Ghosts, x: nat)
    requires l.Valid() && ChainOk(s, g) && (step.PLoad? || step.PStore?) && Enabled(l, s, step)
    requires s.Pc(step.t).slot in g.own && g.own[s.Pc(step.t).slot] == Pushed(step.t)
    requires x in g.own && SlotOk(l, s, g, x)
    ensures SlotOk(l, Apply(l, s, step), g, x)
  {
    hide IsSlot;
    assert forall u | u != step.t :: Apply(l, s, step).Pc(u) == s.Pc(u);
  }

  lemma {:induction false} LinkKeepsOwners(l: SlotLayout, s: Pool, step: Step, g: Ghosts)
    requires l.Valid() && (step.PLoad? || step.PStore?) && Enabled(l, s, step) && OwnersOk(s, g)
    ensures OwnersOk(Apply(l, s, step), g)
  {
    hide Pool.Rc, Pool.Next;
    var s', t := Apply(l, s, step), step.t;
    assert forall u | u != t :: s'.Pc(u) == s.Pc(u);
    assert s'.Pc(t).Pushes(s.Pc(t).slot) && s.Pc(t).Pushes(s.Pc(t).slot);
    OwnersMove(s, s', g, g, t, s.Pc(t).slot);
  }

  lemma {:induction false} LinkKeepsRest(l: SlotLayout, s: Pool, step: Step, g: Ghosts)
    requires l.Valid() && (step.PLoad? || step.PStore?) && Enabled(l, s, step)
    requires ChainOk(s, g) && FreshOk(l, s, g) && AllocOk(l, s, g)
    requires s.Pc(step.t).slot in g.own && SlotOk(l, s, g, s.Pc(step.t).slot)
    requires g.own[s.Pc(step.t).slot] == Pushed(step.t)
    ensures FreshOk(l, Apply(l, s, step), g)
    ensures AllocOk(l, Apply(l, s, step), g)
  {
  }

  /** A pusher writes `next_free` only in the slot it is pushing. */
  lemma {:induction false} LinkKeeps(l: SlotLayout, s: Pool, step: Step, g: Ghosts)
    requires l.Valid() && Inv(l, s, g) && (step.PLoad? || step.PStore?) && Enabled(l, s, step)
    ensures Inv(l, Apply(l, s, step), g)
  {
    var y := s.Pc(step.t).slot;
    assert s.Pc(step.t).Pushes(y);
    assert y in g.own && g.own[y] == Pushed(step.t);
    hide SlotOk, FreshOk, OwnersOk, AllocOk;
    LinkKeepsOwners(l, s, step, g);
    LinkKeepsRest(l, s, step, g);
    forall x | x in g.own ensures SlotOk(l, Apply(l, s, step), g, x) {
      LinkKeepsSlot(l, s, step, g, x);
    }
  }

  lemma {:induction false} PushKeepsSlot(l: SlotLayout, s: Pool, t: nat, g: Ghosts, x: nat)
    requires l.Valid() && ChainOk(s, g) && Enabled(l, s, PCas(t))
    requires s.Pc(t).slot in g.own && g.own[s.Pc(t).slot] == Pushed(t) && SlotOk(l, s, g, s.Pc(t).slot)
    requires x in g.own && SlotOk(l, s, g, x)
    ensures SlotOk(l, Apply(l, s, PCas(t)), Track(l, s, PCas(t), g), x)
  {
    hide IsSlot;
    assert forall u | u != t :: Apply(l, s, PCas(t)).Pc(u) == s.Pc(u);
  }

  lemma {:induction false} PushKeepsRest(l: SlotLayout, s: Pool, t: nat, g: Ghosts)
    requires l.Valid() && ChainOk(s, g) && Enabled(l, s, PCas(t)) && FreshOk(l, s, g) && AllocOk(l, s, g)
    requires s.Pc(t).slot in g.own && g.own[s.Pc(t).slot] == Pushed(t)
    ensures ChainOk(Apply(l, s, PCas(t)), Track(l, s, PCas(t), g))
    ensures FreshOk(l, Apply(l, s, PCas(t)), Track(l, s, PCas(t), g))
    ensures AllocOk(l, Apply(l, s, PCas(t)), Track(l, s, PCas(t), g))
  {
    hide IsSlot;
  }

  lemma {:induction false} PushKeepsOwners(l: SlotLayout, s: Pool, t: nat, g: Ghosts)
    requires l.Valid() && g.chain != [] && Enabled(l, s, PCas(t)) && OwnersOk(s, g)
    requires s.Pc(t).slot in g.own && g.own[s.Pc(t).slot] == Pushed(t)
    ensures OwnersOk(Apply(l, s, PCas(t)), Track(l, s, PCas(t), g))
  {
    var s', y := Apply(l, s, PCas(t)), s.Pc(t).slot;
    assert y !in s.held;
    assert forall u | u != t :: s'.Pc(u) == s.Pc(u) && !s.Pc(u).Pushes(y);
    OwnersMove(s, s', g, Track(l, s, PCas(t), g), t, y);
  }

  /** The compare-and-swap of `actual_free`: on success the slot becomes the new top of the chain. */
  lemma {:induction false} PushKeeps(l: SlotLayout, s: Pool, t: nat, g: Ghosts)
    requires l.Valid() && Inv(l, s, g) && Enabled(l, s, PCas(t))
    ensures Inv(l, Apply(l, s, PCas(t)), Track(l, s, PCas(t), g))
  {
    var s', g', y := Apply(l, s, PCas(t)), Track(l, s, PCas(t), g), s.Pc(t).slot;
    assert s.Pc(t).Pushes(y);
    assert SlotOk(l, s, g, y);
    PushKeepsRest(l, s, t, g);
    PushKeepsOwners(l, s, t, g);
    forall x | x in g'.own ensures SlotOk(l, s', g', x) {
      PushKeepsSlot(l, s, t, g, x);
    }
  }

  /** Every careful atomic step of every thread keeps the invariant. */
  lemma {:induction false} StepKeeps(l: SlotLayout, s: Pool, step: Step, g: Ghosts)
    requires l.Valid() && Inv(l, s, g) && Enabled(l, s, step) && Careful(s, step)
    ensures Inv(l, Apply(l, s, step), Track(l, s, step, g))
  {
    hide SlotOk, FreshOk, OwnersOk;
    match step
    case ALoad =>
      assert g.chain[|g.chain| - 1] in g.own;
      OnlyPcMoves(l, s, Apply(l, s, step), g);
    case APeek => OnlyPcMoves(l, s, Apply(l, s, step), g);
    case ADropTemp => DropTempKeeps(l, s, g);
    case AReady(grown) => OnlyPcMoves(l, s, Apply(l, s, step), g);
    case ACas => PopKeeps(l, s, g);
    case AInit => InitKeeps(l, s, g);
    case GetLoad(_, _) => GetKeeps(l, s, step, g);
    case GetCas(_) => GetKeeps(l, s, step, g);
    case GetFail(_) => GetKeeps(l, s, step, g);
    case Grow(grown) => OnlyPcMoves(l, s, Apply(l, s, step), g);
    case Drop(_, _) => DropKeeps(l, s, step, g);
    case DropIfRc1(_, _) => DropKeeps(l, s, step, g);
    case PLoad(_) => LinkKeeps(l, s, step, g);
    case PStore(_) => LinkKeeps(l, s, step, g);
    case PCas(t) => PushKeeps(l, s, t, g);
  }
}
