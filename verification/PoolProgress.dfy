/**
 * Nothing gets stuck: from every state of a careful run, an operation that is
 * under way ends as soon as it is left alone, whatever the others have done to
 * the list head and the counts in the meantime.
 */
module PoolProgress {
  import opened Wrappers
  import opened PoolSteps
  import opened PoolRuns
  import opened PoolInvariant
  import opened PoolTheorems

  // ---------- The allocator ----------

  /** What the allocator does next; it grows the file by no more than it needs. */
  ghost function AllocNext(l: SlotLayout, s: Pool): Step
    requires !s.alloc.Misfreeing?
  {
    match s.alloc
    case Idle => ALoad
    case Loaded(_) => APeek
    case Peeked(_, _) => ADropTemp
    case TempDropped(ff, nf) =>
      AReady(if nf == 0 && s.mapped < ff + 2 * l.size then ff + 2 * l.size else s.mapped)
    case Ready(_, _) => ACas
    case Popped(_) => AInit
  }

  /** How many steps the allocator has left; the head it has read may be stale. */
  ghost function AllocRank(s: Pool): nat {
    match s.alloc
    case Idle => 0
    case Popped(_) => 1
    case Ready(ff, _) => if ff == s.firstFree then 2 else 7
    case TempDropped(ff, _) => if ff == s.firstFree then 3 else 8
    case Peeked(ff, _) => if ff == s.firstFree then 4 else 9
    case Loaded(ff) => if ff == s.firstFree then 5 else 10
    case Misfreeing(_) => 0
  }

  lemma AllocAdvances(l: SlotLayout, s: Pool)
    requires !s.alloc.Misfreeing? && !s.alloc.Idle?
    requires s.alloc.Peeked? ==> s.Rc(s.alloc.ff) != 1
    ensures Enabled(l, s, AllocNext(l, s)) && Careful(s, AllocNext(l, s))
    ensures
      var s' := Apply(l, s, AllocNext(l, s));
      && AllocRank(s') < AllocRank(s)
      && s'.threads == s.threads
      && (if s.alloc.Popped? then s'.alloc.Idle? else !s'.alloc.Idle? && s'.held == s.held)
  {
  }

  lemma AllocTemporaryIsFree(l: SlotLayout, s: Pool, g: Ghosts)
    requires l.Valid() && Inv(l, s, g) && s.alloc.Peeked?
    ensures s.Rc(s.alloc.ff) <= 0
  {
    assert SlotOk(l, s, g, s.alloc.ff);
  }

  /** Left alone, the allocator hands out a slot after at most ten steps. */
  lemma {:induction false} AllocFinishes(l: SlotLayout, s: Pool, g: Ghosts)
    returns (steps: seq<Step>, s': Pool, x: nat)
    requires l.Valid() && Inv(l, s, g) && !s.alloc.Idle?
    ensures RunFrom(l, s, steps) == Some(s') && |steps| <= AllocRank(s) <= 10
    ensures s'.alloc.Idle? && s'.held == s.held + multiset{x} && s'.Rc(x) == 1 && s'.threads == s.threads
    decreases AllocRank(s)
  {
    hide SlotOk, FreshOk, OwnersOk, RunFrom, CarefulFrom, IsSlot, Track, Apply, Enabled;
    if s.alloc.Peeked? {
      AllocTemporaryIsFree(l, s, g);
    }
    AllocAdvances(l, s);
    var step := AllocNext(l, s);
    NoSteps(l, s);
    var s1, one := Take(l, s, [], s, step);
    if s.alloc.Popped? {
      AllocEnds(l, s, step);
      steps, s', x := one, s1, s.alloc.ff;
    } else {
      StepKeeps(l, s, step, g);
      var rest;
      rest, s', x := AllocFinishes(l, s1, Track(l, s, step, g));
      RunConcat(l, s, one, s1, rest);
      steps := one + rest;
    }
  }

  /** From every state of a careful run the allocator, left alone, ends with a slot and its first handle. */
  lemma {:induction false} AllocFinishesAlone(l: SlotLayout, before: seq<Step>)
    returns (steps: seq<Step>, s': Pool, x: nat)
    requires Safe(l, before) && !Exec(l, before).value.alloc.Idle?
    ensures |steps| <= 10 && Exec(l, before + steps) == Some(s') && s'.alloc.Idle?
    ensures s'.held == Exec(l, before).value.held + multiset{x} && s'.Rc(x) == 1
  {
    hide Inv, RunFrom, CarefulFrom;
    var s := Exec(l, before).value;
    var g := RunInv(l, before);
    steps, s', x := AllocFinishes(l, s, g);
    RunConcat(l, Create(l), before, s, steps);
  }

  // ---------- A thread in `get` or in a push ----------

  /** Left alone, a `get` that has found a count ends with a handle, or gives up on a count of zero. */
  lemma {:induction false} GetFinishesAlone(l: SlotLayout, before: seq<Step>, t: nat)
    returns (steps: seq<Step>, s': Pool)
    requires Exec(l, before).Some? && Exec(l, before).value.Pc(t).Getting?
    ensures |steps| <= 2 && Exec(l, before + steps) == Some(s')
    ensures
      var s := Exec(l, before).value;
      var x := s.Pc(t).slot;
      if s.Rc(x) == 0 && s.Pc(t).rc != 0 then s'.Pc(t) == GetFailed(x) && s'.held == s.held
      else s'.Pc(t).Running? && GotHandle(s, s', x)
  {
    hide IsSlot, RunFrom, CarefulFrom, Pool.Next;
    var s := Exec(l, before).value;
    NoSteps(l, s);
    GetEnds(l, s, GetCas(t), t);
    s', steps := Take(l, s, [], s, GetCas(t));
    if s'.Pc(t).Getting? {
      GetEnds(l, s', GetCas(t), t);
      s', steps := Take(l, s, steps, s', GetCas(t));
    }
    RunConcat(l, Create(l), before, s, steps);
  }

  /** A pusher that is about to try has linked its slot to the head it has seen. */
  lemma {:induction false} PusherIsLinked(l: SlotLayout, before: seq<Step>, t: nat, x: nat)
    requires Safe(l, before) && Exec(l, before).value.Pc(t).Pushes(x)
    ensures
      var s := Exec(l, before).value;
      s.Pc(t).PushCas? ==> s.Next(x) == s.Pc(t).seen
  {
    hide RunFrom, CarefulFrom, FreshOk, AllocOk;
    var g := RunInv(l, before);
    assert SlotOk(l, Exec(l, before).value, g, x);
  }

  /** Left alone, a push ends with its slot as the head of the list and linked to the old head. */
  lemma {:induction false} PushFinishesAlone(l: SlotLayout, before: seq<Step>, t: nat, x: nat)
    returns (steps: seq<Step>, s': Pool)
    requires Safe(l, before) && Exec(l, before).value.Pc(t).Pushes(x)
    ensures |steps| <= 4 && Exec(l, before + steps) == Some(s') && s'.Pc(t).Running?
    ensures
      var s := Exec(l, before).value;
      s'.firstFree == x && s'.Next(x) == s.firstFree && s'.rc == s.rc && s'.held == s.held
  {
    hide IsSlot, RunFrom, CarefulFrom, Inv, Pool.Rc;
    PusherIsLinked(l, before, t, x);
    var s := Exec(l, before).value;
    NoSteps(l, s);
    steps, s' := [], s;
    if s.Pc(t).PushLoad? {
      s', steps := Take(l, s, steps, s', PLoad(t));
    }
    if s'.Pc(t).PushStore? {
      s', steps := Take(l, s, steps, s', PStore(t));
    }
    s', steps := Take(l, s, steps, s', PCas(t));
    if s'.Pc(t).PushStore? {
      s', steps := Take(l, s, steps, s', PStore(t));
      s', steps := Take(l, s, steps, s', PCas(t));
    }
    RunConcat(l, Create(l), before, s, steps);
  }
}
