/** What holds in every interleaving of the limiter pool, from its creation on. */
module PoolTheorems {
  import opened Wrappers
  import opened PoolSteps
  import opened PoolRuns
  import opened PoolInvariant

  /** The first slot fits the memory mapped at creation. */
  predicate Fits(l: SlotLayout) { l.Valid() && l.align + l.size <= INITIAL_SIZE }

  lemma CreateInv(l: SlotLayout)
    requires Fits(l)
    ensures Inv(l, Create(l), Ghosts([l.align], map[l.align := Free(0)]))
  {
    var s, g := Create(l), Ghosts([l.align], map[l.align := Free(0)]);
    assert SlotOk(l, s, g, l.align);
    forall x: nat | IsSlot(l, x) && x <= l.align ensures x in g.own {
    }
  }

  /** A run from the creation of a pool whose first slot fits, with no careless `get`. */
  ghost predicate Safe(l: SlotLayout, steps: seq<Step>) {
    Fits(l) && Exec(l, steps).Some? && CarefulRun(l, steps)
  }

  /** Every state of such a run has a consistent free chain and a single owner for every slot. */
  lemma {:induction false} RunInv(l: SlotLayout, steps: seq<Step>) returns (g: Ghosts)
    requires Safe(l, steps)
    ensures Inv(l, Exec(l, steps).value, g)
  {
    if steps == [] {
      CreateInv(l);
      g := Ghosts([l.align], map[l.align := Free(0)]);
    } else {
      var k := |steps| - 1;
      var g' := RunInv(l, steps[..k]);
      var s := Exec(l, steps[..k]).value;
      StepKeeps(l, s, steps[k], g');
      g := Track(l, s, steps[k], g');
    }
  }

  // ---------- No slot is lost, none has two owners ----------

  /** Walking `next_free` from the list head visits `chain` from its end down to the frontier. */
  ghost predicate IsFreeChain(s: Pool, chain: seq<nat>) {
    && chain != []
    && chain[|chain| - 1] == s.firstFree
    && s.Next(chain[0]) == 0
    && (forall p {:trigger s.Next(chain[p])} | 0 < p < |chain| :: s.Next(chain[p]) == chain[p - 1])
    && (forall p, q | 0 <= p < q < |chain| :: chain[p] != chain[q])
  }

  ghost predicate IsLive(s: Pool, x: nat) { x in s.held && s.Rc(x) == s.held[x] }

  ghost predicate IsBeingInitialised(s: Pool, x: nat) { s.alloc == Popped(x) }

  ghost predicate IsBeingPushed(s: Pool, x: nat) { exists t :: s.Pc(t).Pushes(x) }

  ghost predicate HasOnePusher(s: Pool, x: nat) {
    exists t :: s.Pc(t).Pushes(x) && forall u | s.Pc(u).Pushes(x) :: u == t
  }

  ghost predicate ExactlyOne(a: bool, b: bool, c: bool, d: bool) {
    || (a && !b && !c && !d)
    || (!a && b && !c && !d)
    || (!a && !b && c && !d)
    || (!a && !b && !c && d)
  }

  ghost predicate Accounted(l: SlotLayout, s: Pool, chain: seq<nat>)
    requires l.Valid()
  {
    && IsFreeChain(s, chain)
    && (forall x: nat | IsSlot(l, x) && x < chain[0] ::
          && ExactlyOne(x in chain, x in s.held, IsBeingInitialised(s, x), IsBeingPushed(s, x))
          && (x in s.held ==> IsLive(s, x))
          && (IsBeingPushed(s, x) ==> HasOnePusher(s, x)))
    && (forall x | x in s.held :: IsSlot(l, x) && x < chain[0])
  }

  lemma {:induction false} PusherIsOwner(l: SlotLayout, s: Pool, g: Ghosts, x: nat)
    requires l.Valid() && g.chain != [] && OwnersOk(s, g) && x in g.own && SlotOk(l, s, g, x)
    ensures IsBeingPushed(s, x) <==> g.own[x].Pushed?
    ensures g.own[x].Pushed? ==> HasOnePusher(s, x)
  {
    hide IsSlot, Pool.Rc, Pool.Next;
    if g.own[x].Pushed? {
      var t := g.own[x].t;
      assert s.Pc(t).Pushes(x);
      forall u | s.Pc(u).Pushes(x) ensures u == t {
        assert g.own[x] == Pushed(u);
      }
    }
  }

  lemma {:induction false} OwnerExcludes(l: SlotLayout, s: Pool, g: Ghosts, x: nat)
    requires l.Valid() && ChainOk(s, g) && OwnersOk(s, g) && AllocOk(l, s, g) && x in g.own && SlotOk(l, s, g, x)
    ensures x in g.chain <==> g.own[x].Free?
    ensures x in s.held <==> g.own[x].Held?
    ensures IsBeingInitialised(s, x) <==> g.own[x].Taken?
    ensures IsBeingPushed(s, x) <==> g.own[x].Pushed?
    ensures g.own[x].Pushed? ==> HasOnePusher(s, x)
  {
    PusherIsOwner(l, s, g, x);
  }

  lemma {:induction false} InvAccounts(l: SlotLayout, s: Pool, g: Ghosts)
    requires l.Valid() && Inv(l, s, g)
    ensures Accounted(l, s, g.chain)
  {
    InvIsFreeChain(l, s, g);
    hide IsFreeChain;
    forall x: nat | IsSlot(l, x) && x < g.chain[0]
      ensures ExactlyOne(x in g.chain, x in s.held, IsBeingInitialised(s, x), IsBeingPushed(s, x))
      ensures x in s.held ==> IsLive(s, x)
      ensures IsBeingPushed(s, x) ==> HasOnePusher(s, x)
    {
      assert SlotOk(l, s, g, x);
      OwnerExcludes(l, s, g, x);
    }
    forall x | x in s.held ensures IsSlot(l, x) && x < g.chain[0] {
      assert SlotOk(l, s, g, x);
    }
  }

  /**
   * In every interleaving of one allocator with any number of threads looking
   * up and dropping handles, each slot below the frontier is in exactly one
   * place: on the acyclic free chain, held with a count equal to its handles,
   * popped and being initialised, or being pushed by exactly one thread.
   */
  lemma {:induction false} EverySlotAccountedFor(l: SlotLayout, steps: seq<Step>) returns (chain: seq<nat>)
    requires Safe(l, steps)
    ensures Accounted(l, Exec(l, steps).value, chain)
  {
    var g := RunInv(l, steps);
    InvAccounts(l, Exec(l, steps).value, g);
    chain := g.chain;
  }

  lemma ChainIsDistinct(s: Pool, g: Ghosts)
    requires ChainOk(s, g)
    ensures forall p, q | 0 <= p < q < |g.chain| :: g.chain[p] != g.chain[q]
  {
    forall p, q | 0 <= p < q < |g.chain| ensures g.chain[p] != g.chain[q] {
      assert g.own[g.chain[p]] == Free(p) && g.own[g.chain[q]] == Free(q);
    }
  }

  lemma ChainIsLinked(l: SlotLayout, s: Pool, g: Ghosts, p: nat)
    requires l.Valid() && ChainOk(s, g) && p < |g.chain| && SlotOk(l, s, g, g.chain[p])
    ensures s.Next(g.chain[p]) == (if p == 0 then 0 else g.chain[p - 1])
  {
    assert g.own[g.chain[p]] == Free(p);
  }

  lemma InvIsFreeChain(l: SlotLayout, s: Pool, g: Ghosts)
    requires l.Valid() && Inv(l, s, g)
    ensures IsFreeChain(s, g.chain)
  {
    hide SlotOk, OwnersOk, AllocOk, FreshOk, Pool.Next;
    ChainIsDistinct(s, g);
    ChainIsLinked(l, s, g, 0);
    forall p | 0 <= p < |g.chain| ensures s.Next(g.chain[p]) == (if p == 0 then 0 else g.chain[p - 1]) {
      ChainIsLinked(l, s, g, p);
    }
  }

  /** A slot about to be handed out has no handle, and nobody is pushing it: none is handed out twice. */
  lemma {:induction false} NeverHandedOutTwice(l: SlotLayout, steps: seq<Step>, x: nat)
    requires Safe(l, steps) && Exec(l, steps).value.alloc == Popped(x)
    ensures
      var s := Exec(l, steps).value;
      var s' := Apply(l, s, AInit);
      && IsSlot(l, x)
      && x !in s.held
      && (forall t :: !s.Pc(t).Pushes(x))
      && s'.held[x] == 1
      && s'.Rc(x) == 1
  {
    var s := Exec(l, steps).value;
    var g := RunInv(l, steps);
    assert SlotOk(l, s, g, x);
    OwnerExcludes(l, s, g, x);
  }

  /** The temporary handle inside `next_free` never finds a count of one, so it never frees a slot. */
  lemma {:induction false} TemporaryNeverFrees(l: SlotLayout, steps: seq<Step>)
    requires Safe(l, steps)
    ensures !Exec(l, steps).value.alloc.Misfreeing?
    ensures Exec(l, steps).value.alloc.Peeked? ==> Exec(l, steps).value.Rc(Exec(l, steps).value.alloc.ff) <= 0
  {
    var s := Exec(l, steps).value;
    var g := RunInv(l, steps);
    if s.alloc.Peeked? {
      assert SlotOk(l, s, g, s.alloc.ff);
    }
  }

  // ---------- Exactly when the accounts stay right ----------

  ghost predicate IsAccounted(l: SlotLayout, s: Pool)
    requires l.Valid()
  {
    exists chain :: Accounted(l, s, chain)
  }

  /** A careless step leaves a slot whose count is not the number of its handles. */
  lemma {:induction false} CarelessMiscounts(l: SlotLayout, s: Pool, g: Ghosts, step: Step, chain: seq<nat>)
    requires l.Valid() && Inv(l, s, g) && Enabled(l, s, step) && !Careful(s, step)
    ensures !Accounted(l, Apply(l, s, step), chain)
  {
    hide IsFreeChain;
    var s', x := Apply(l, s, step), s.Pc(step.t).slot;
    if x in s.held {
      assert SlotOk(l, s, g, x);
    }
    assert x in s'.held && s'.Rc(x) != s'.held[x];
  }

  lemma {:induction false} StepAccountedIff(l: SlotLayout, s: Pool, g: Ghosts, step: Step)
    requires l.Valid() && Inv(l, s, g) && Enabled(l, s, step)
    ensures IsAccounted(l, Apply(l, s, step)) <==> Careful(s, step)
  {
    assert g.chain != [];
    hide Inv, Accounted;
    if Careful(s, step) {
      StepKeeps(l, s, step, g);
      InvAccounts(l, Apply(l, s, step), Track(l, s, step, g));
    } else {
      forall chain ensures !Accounted(l, Apply(l, s, step), chain) {
        CarelessMiscounts(l, s, g, step, chain);
      }
    }
  }

  ghost predicate AlwaysAccounted(l: SlotLayout, steps: seq<Step>)
    requires l.Valid() && Exec(l, steps).Some?
  {
    IsAccounted(l, Exec(l, steps).value) && (steps == [] || AlwaysAccounted(l, steps[..|steps| - 1]))
  }

  /** Every slot stays accounted for along a run exactly when no `get` of the run is careless. */
  lemma {:induction false} AccountedIffCareful(l: SlotLayout, steps: seq<Step>)
    requires Fits(l) && Exec(l, steps).Some?
    ensures AlwaysAccounted(l, steps) <==> CarefulRun(l, steps)
  {
    hide Accounted, Inv;
    if steps == [] {
      CreateInv(l);
      InvAccounts(l, Create(l), Ghosts([l.align], map[l.align := Free(0)]));
    } else {
      var k := |steps| - 1;
      AccountedIffCareful(l, steps[..k]);
      if CarefulRun(l, steps[..k]) {
        var g := RunInv(l, steps[..k]);
        StepAccountedIff(l, Exec(l, steps[..k]).value, g, steps[k]);
      }
    }
  }

  /** The slot a `get` looks at has a handle at each of its steps. */
  ghost predicate FindsHeld(s: Pool, step: Step) {
    match step
    case GetLoad(_, x) => x in s.held
    case GetCas(t) => s.Pc(t).Getting? ==> s.Pc(t).slot in s.held
    case _ => true
  }

  ghost predicate HeldRun(l: SlotLayout, steps: seq<Step>)
    requires Exec(l, steps).Some?
  {
    steps == [] ||
    var k := |steps| - 1;
    HeldRun(l, steps[..k]) && FindsHeld(Exec(l, steps[..k]).value, steps[k])
  }

  /** Every `get` of the run goes on with its slot or has ended with a handle to it. */
  ghost predicate GetsSucceed(l: SlotLayout, steps: seq<Step>)
    requires Exec(l, steps).Some?
  {
    steps == [] ||
    var k := |steps| - 1;
    GetsSucceed(l, steps[..k]) && forall t :: GetGoesOn(Exec(l, steps[..k]).value, Exec(l, steps).value, steps[k], t)
  }

  ghost predicate GetGoesOn(s: Pool, s': Pool, step: Step, t: nat) {
    && (forall x | step == GetLoad(t, x) :: s'.Pc(t).Getting? && s'.Pc(t).slot == x)
    && (s.Pc(t).Getting? ==>
          || (s'.Pc(t).Getting? && s'.Pc(t).slot == s.Pc(t).slot)
          || (s'.Pc(t).Running? && GotHandle(s, s', s.Pc(t).slot)))
  }

  /** A caller whose slot somebody holds throughout is careful, and its `get` never gives up: it ends with a handle. */
  lemma {:induction false} HeldIsCareful(l: SlotLayout, steps: seq<Step>)
    requires Fits(l) && Exec(l, steps).Some? && HeldRun(l, steps)
    ensures CarefulRun(l, steps) && GetsSucceed(l, steps)
    ensures forall t :: !Exec(l, steps).value.Pc(t).GetFailed?
  {
    if steps != [] {
      var k := |steps| - 1;
      HeldIsCareful(l, steps[..k]);
      HeldStep(l, steps[..k], steps[k]);
    }
  }

  lemma {:induction false} HeldStep(l: SlotLayout, steps: seq<Step>, step: Step)
    requires Safe(l, steps) && Enabled(l, Exec(l, steps).value, step) && FindsHeld(Exec(l, steps).value, step)
    requires forall t :: !Exec(l, steps).value.Pc(t).GetFailed?
    ensures Careful(Exec(l, steps).value, step)
    ensures forall t :: !Apply(l, Exec(l, steps).value, step).Pc(t).GetFailed?
    ensures forall t :: GetGoesOn(Exec(l, steps).value, Apply(l, Exec(l, steps).value, step), step, t)
  {
    var s := Exec(l, steps).value;
    var g := RunInv(l, steps);
    forall x | x in s.held ensures 0 < s.Rc(x) {
      assert SlotOk(l, s, g, x);
    }
    hide Inv, Exec, Apply;
    forall t ensures !Apply(l, s, step).Pc(t).GetFailed? && GetGoesOn(s, Apply(l, s, step), step, t) {
      HeldNeverFails(l, s, step, t);
      HeldGoesOn(l, s, step, t);
    }
  }

  lemma HeldGoesOn(l: SlotLayout, s: Pool, step: Step, t: nat)
    requires Enabled(l, s, step) && !Apply(l, s, step).Pc(t).GetFailed?
    ensures GetGoesOn(s, Apply(l, s, step), step, t)
  {
    hide Apply;
    if step.GetLoad? && step.t == t {
      GetStarts(l, s, t, step.x);
    }
    if s.Pc(t).Getting? {
      GetEnds(l, s, step, t);
    }
  }

  lemma HeldNeverFails(l: SlotLayout, s: Pool, step: Step, t: nat)
    requires Enabled(l, s, step) && !s.Pc(t).GetFailed? && (IsGet(step) ==> s.Rc(Target(l, s, step)) != 0)
    ensures !Apply(l, s, step).Pc(t).GetFailed?
  {
    hide IsSlot;
  }

  // ---------- What `get` may conclude from the count ----------

  /**
   * `get` takes a non-zero count for a live slot. In every reachable state
   * that is right for a slot exactly when its count is not negative.
   */
  lemma {:induction false} GetTestRightIffNotNegative(l: SlotLayout, steps: seq<Step>, x: nat)
    requires Safe(l, steps) && IsSlot(l, x)
    ensures
      var s := Exec(l, steps).value;
      && (x in s.held <==> 0 < s.Rc(x))
      && ((s.Rc(x) != 0 <==> x in s.held) <==> 0 <= s.Rc(x))
  {
    var s := Exec(l, steps).value;
    var g := RunInv(l, steps);
    if x in g.own {
      assert SlotOk(l, s, g, x);
      OwnerExcludes(l, s, g, x);
    }
  }

  /** The step lowers the count of `x` without taking a handle away. */
  ghost predicate Lowers(s: Pool, step: Step, x: nat) {
    || (step.ADropTemp? && s.alloc.Peeked? && s.alloc.ff == x)
    || (step.GetFail? && s.Pc(step.t).GetFailed? && s.Pc(step.t).slot == x)
  }

  ghost predicate HandsOut(s: Pool, step: Step, x: nat) {
    step.AInit? && s.alloc == Popped(x)
  }

  /**
   * How often a temporary handle of the allocator or a `get` that gave up has
   * lowered the count of `x` since `x` was last handed out.
   */
  ghost function Lowered(l: SlotLayout, steps: seq<Step>, x: nat): nat
    requires Exec(l, steps).Some?
  {
    if steps == [] then 0
    else
      var k := |steps| - 1;
      var s, before := Exec(l, steps[..k]).value, Lowered(l, steps[..k], x);
      if HandsOut(s, steps[k], x) then 0 else if Lowers(s, steps[k], x) then before + 1 else before
  }

  /** The steps of the allocator that write a count, and those of the other threads. */
  predicate AllocCounts(step: Step) { step.ADropTemp? || step.AInit? }

  predicate ThreadCounts(step: Step) { step.GetCas? || step.GetFail? || step.Drop? || step.DropIfRc1? }

  lemma OtherStepsDoNotCount(l: SlotLayout, s: Pool, step: Step)
    requires Enabled(l, s, step) && !AllocCounts(step) && !ThreadCounts(step)
    ensures Apply(l, s, step).rc == s.rc && Apply(l, s, step).held == s.held
  {
    hide IsSlot, Pool.Next, Pool.Rc;
  }

  /** How many more handles than counts `x` has. */
  ghost function Excess(s: Pool, x: nat): int { s.held[x] - s.Rc(x) }

  lemma AllocStepCounts(l: SlotLayout, s: Pool, step: Step, x: nat)
    requires Enabled(l, s, step) && AllocCounts(step) && (HandsOut(s, step, x) ==> x !in s.held)
    ensures Excess(Apply(l, s, step), x) ==
            if HandsOut(s, step, x) then 0 else Excess(s, x) + if Lowers(s, step, x) then 1 else 0
  {
    hide IsSlot, Pool.Next, Pool.Pc;
  }

  lemma ThreadStepCounts(l: SlotLayout, s: Pool, step: Step, x: nat)
    requires Enabled(l, s, step) && ThreadCounts(step)
    ensures Excess(Apply(l, s, step), x) == Excess(s, x) + if Lowers(s, step, x) then 1 else 0
  {
    hide IsSlot, Pool.Next;
  }

  lemma LoweredStep(l: SlotLayout, s: Pool, step: Step, x: nat)
    requires Enabled(l, s, step) && (HandsOut(s, step, x) ==> x !in s.held)
    ensures Excess(Apply(l, s, step), x) ==
            if HandsOut(s, step, x) then 0 else Excess(s, x) + if Lowers(s, step, x) then 1 else 0
  {
    hide Enabled, Apply;
    if AllocCounts(step) {
      AllocStepCounts(l, s, step, x);
    } else if ThreadCounts(step) {
      ThreadStepCounts(l, s, step, x);
    } else {
      OtherStepsDoNotCount(l, s, step);
    }
  }

  /** In every careful run a count is the number of handles less the times it was lowered without one. */
  lemma {:induction false} CountIsHandlesLessLowered(l: SlotLayout, steps: seq<Step>, x: nat)
    requires Safe(l, steps)
    ensures var s := Exec(l, steps).value; s.Rc(x) == s.held[x] - Lowered(l, steps, x)
  {
    if steps != [] {
      var k := |steps| - 1;
      CountIsHandlesLessLowered(l, steps[..k], x);
      var s := Exec(l, steps[..k]).value;
      if HandsOut(s, steps[k], x) {
        NeverHandedOutTwice(l, steps[..k], x);
      }
      hide Enabled, Apply;
      LoweredStep(l, s, steps[k], x);
    }
  }

  /**
   * `get` takes a non-zero count for a live slot. That is right for a slot, in
   * every careful run, exactly when nothing has lowered its count without a
   * handle since it was last handed out.
   */
  lemma {:induction false} GetTestRightIffNotLowered(l: SlotLayout, steps: seq<Step>, x: nat)
    requires Safe(l, steps) && IsSlot(l, x)
    ensures var s := Exec(l, steps).value;
            (s.Rc(x) != 0 <==> x in s.held) <==> Lowered(l, steps, x) == 0
  {
    hide Exec, Lowered;
    CountIsHandlesLessLowered(l, steps, x);
    GetTestRightIffNotNegative(l, steps, x);
    if x in Exec(l, steps).value.held {
      HeldIsNotLowered(l, steps, x);
    }
  }

  /** The count of a slot that somebody holds has not been lowered that way. */
  lemma {:induction false} HeldIsNotLowered(l: SlotLayout, steps: seq<Step>, x: nat)
    requires Safe(l, steps) && x in Exec(l, steps).value.held
    ensures Lowered(l, steps, x) == 0
  {
    var g := RunInv(l, steps);
    assert SlotOk(l, Exec(l, steps).value, g, x);
    CountIsHandlesLessLowered(l, steps, x);
  }

  /**
   * The count of a free slot can be negative: when another thread pushes a
   * slot between the temporary handle's decrement and the allocator's
   * compare-and-swap, the slot that was read stays free with count -1, and
   * `get` would take it for a live one.
   */
  lemma {:induction false} FreeSlotWithNegativeCount() returns (l: SlotLayout, steps: seq<Step>, x: nat)
    ensures Safe(l, steps) && IsSlot(l, x)
    ensures var s := Exec(l, steps).value; x !in s.held && s.Rc(x) == -1
  {
    hide RunFrom, CarefulFrom;
    l, x := SlotLayout(8, 40), 48;
    var s;
    s, steps := FirstAllocated(l);
    s, steps := Take(l, Create(l), steps, s, ALoad);
    s, steps := Take(l, Create(l), steps, s, APeek);
    s, steps := Take(l, Create(l), steps, s, ADropTemp);
    LastDropSteps(l, s, 0, 8);
    RunConcat(l, Create(l), steps, s, LastDropRun(0, 8));
    s, steps := Freed(s, 0, 8), steps + LastDropRun(0, 8);
    s, steps := Take(l, Create(l), steps, s, AReady(INITIAL_SIZE));
    s, steps := Take(l, Create(l), steps, s, ACas);
    assert IsSlot(l, 8);
  }

  /**
   * A `get` that gives up lowers the count too, so a second `get` of the same
   * free slot takes it for a live one and hands it out while it heads the free list.
   */
  lemma {:induction false} SecondGetRevives() returns (l: SlotLayout, steps: seq<Step>, x: nat)
    ensures Fits(l) && Exec(l, steps).Some? && IsSlot(l, x)
    ensures var s := Exec(l, steps).value; x in s.held && s.firstFree == x
  {
    hide RunFrom, CarefulFrom;
    l, x := SlotLayout(8, 40), 8;
    var s;
    s, steps := FirstFreed(l);
    GetFailSteps(l, s, 0, 8);
    RunConcat(l, Create(l), steps, s, GetFailRun(0, 8));
    s, steps := GaveUp(s, 0, 8), steps + GetFailRun(0, 8);
    GetSteps(l, s, 0, 8);
    RunConcat(l, Create(l), steps, s, GetRun(0, 8));
    steps := steps + GetRun(0, 8);
  }

  /**
   * A `get` that has seen a free slot still lowers its count after the slot was
   * allocated again, and then puts the live slot on the free list.
   */
  lemma {:induction false} FailedGetFreesLive() returns (l: SlotLayout, steps: seq<Step>, x: nat)
    ensures Fits(l) && Exec(l, steps).Some? && IsSlot(l, x)
    ensures var s := Exec(l, steps).value; x in s.held && s.Pc(0) == PushLoad(x)
  {
    hide RunFrom, CarefulFrom;
    l, x := SlotLayout(8, 40), 8;
    var s;
    s, steps := FirstFreed(l);
    s, steps := Take(l, Create(l), steps, s, GetLoad(0, 8));
    AllocSteps(l, s, INITIAL_SIZE);
    RunConcat(l, Create(l), steps, s, AllocRun(INITIAL_SIZE));
    s, steps := Allocated(l, s, INITIAL_SIZE), steps + AllocRun(INITIAL_SIZE);
    s, steps := Take(l, Create(l), steps, s, GetFail(0));
  }

  /** A first slot that was handed out and given back again, by thread 0. */
  lemma FirstFreed(l: SlotLayout) returns (s: Pool, steps: seq<Step>)
    requires l == SlotLayout(8, 40)
    ensures Exec(l, steps) == Some(s) && CarefulRun(l, steps)
    ensures s == Pool(8, map[8 := 48], map[8 := 0], INITIAL_SIZE, multiset{}, Idle, map[0 := Running])
  {
    hide RunFrom, CarefulFrom;
    s, steps := FirstAllocated(l);
    LastDropSteps(l, s, 0, 8);
    RunConcat(l, Create(l), steps, s, LastDropRun(0, 8));
    steps := steps + LastDropRun(0, 8);
    s := Freed(s, 0, 8);
    assert s.rc == map[8 := 0];
  }

  lemma FirstAllocated(l: SlotLayout) returns (s: Pool, steps: seq<Step>)
    requires l == SlotLayout(8, 40)
    ensures Exec(l, steps) == Some(s) && CarefulRun(l, steps)
    ensures s == Pool(48, map[], map[8 := 1], INITIAL_SIZE, multiset{8}, Idle, map[])
  {
    hide RunFrom, CarefulFrom;
    AllocSteps(l, Create(l), INITIAL_SIZE);
    s, steps := Allocated(l, Create(l), INITIAL_SIZE), AllocRun(INITIAL_SIZE);
  }

  // ---------- Addresses ----------

  /** The slot whose fields a step reads or writes, if any. */
  function Touches(s: Pool, step: Step): Option<nat> {
    match step
    case APeek => if s.alloc.Loaded? then Some(s.alloc.ff) else None
    case ADropTemp => if s.alloc.Peeked? then Some(s.alloc.ff) else None
    case AInit => if s.alloc.Popped? then Some(s.alloc.ff) else None
    case GetLoad(_, x) => Some(x)
    case GetCas(t) => if s.Pc(t).Getting? then Some(s.Pc(t).slot) else None
    case GetFail(t) => if s.Pc(t).GetFailed? then Some(s.Pc(t).slot) else None
    case Drop(_, x) => Some(x)
    case DropIfRc1(_, x) => Some(x)
    case PStore(t) => if s.Pc(t).PushStore? then Some(s.Pc(t).slot) else None
    case _ => None
  }

  /** Every access of every run is to a whole slot inside mapped memory, the frontier slot included. */
  lemma {:induction false} AccessesInBounds(l: SlotLayout, steps: seq<Step>, step: Step)
    requires Safe(l, steps) && Enabled(l, Exec(l, steps).value, step)
    ensures
      var s := Exec(l, steps).value;
      Touches(s, step).Some? ==> IsSlot(l, Touches(s, step).value) && Touches(s, step).value + l.size <= s.mapped
  {
    var s := Exec(l, steps).value;
    var g := RunInv(l, steps);
    if IsGet(step) {
      GettersInBounds(l, steps, step.t);
    } else if Touches(s, step).Some? {
      TouchedIsOwned(l, s, step, g);
      assert SlotOk(l, s, g, Touches(s, step).value);
    }
  }

  lemma {:induction false} GettersInBounds(l: SlotLayout, steps: seq<Step>, t: nat)
    requires l.Valid() && Exec(l, steps).Some?
    ensures
      var s := Exec(l, steps).value;
      var pc := s.Pc(t);
      pc.Getting? || pc.GetFailed? ==> IsSlot(l, pc.slot) && pc.slot + l.size <= s.mapped
  {
    if steps != [] {
      var k := |steps| - 1;
      GettersInBounds(l, steps[..k], t);
      GetterStep(l, Exec(l, steps[..k]).value, steps[k], t);
    }
  }

  lemma GetterStep(l: SlotLayout, s: Pool, step: Step, t: nat)
    requires l.Valid() && Enabled(l, s, step)
    ensures
      var s' := Apply(l, s, step);
      && s.mapped <= s'.mapped
      && (s'.Pc(t).Getting? || s'.Pc(t).GetFailed? ==>
            || ((s.Pc(t).Getting? || s.Pc(t).GetFailed?) && s.Pc(t).slot == s'.Pc(t).slot)
            || (IsSlot(l, s'.Pc(t).slot) && s'.Pc(t).slot + l.size <= s.mapped))
  {
    hide IsSlot, Pool.Rc;
    if !IsGet(step) {
      OtherStep(l, s, step, t);
    }
  }

  /** Only `get` puts a thread inside `get`. */
  lemma OtherStep(l: SlotLayout, s: Pool, step: Step, t: nat)
    requires Enabled(l, s, step) && !IsGet(step)
    ensures var s' := Apply(l, s, step);
            s.mapped <= s'.mapped && (s'.Pc(t).Getting? || s'.Pc(t).GetFailed? ==> s'.Pc(t) == s.Pc(t))
  {
    hide Pool.Rc, Pool.Next;
  }

  lemma {:induction false} TouchedIsOwned(l: SlotLayout, s: Pool, step: Step, g: Ghosts)
    requires g.chain != [] && OwnersOk(s, g) && AllocOk(l, s, g) && Enabled(l, s, step)
    requires !IsGet(step) && Touches(s, step).Some?
    ensures Touches(s, step).value in g.own
  {
    if step.PStore? {
      assert s.Pc(step.t).Pushes(Touches(s, step).value);
    }
  }
}
