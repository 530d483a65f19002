/**
 * The shared-memory limiter pool (ipc/src/rate_limiter.rs) as a transition system.
 *
 * One step is one atomic load, store, read-modify-write or compare-and-swap.
 * There is one allocator (`next_free` and `alloc` take `&mut self`) and any
 * number of threads that look up, drop or conditionally drop handles.
 */
module PoolSteps {
  import opened Arith
  import opened Wrappers

  /** Alignment and size of one slot, as the compiler lays it out. */
  datatype SlotLayout = SlotLayout(align: nat, size: nat) {
    // A slot holds 32-bit atomics, so its alignment is at least 4.
    predicate Valid() { 4 <= align && 0 < size }
  }

  /** Bytes mapped when a pool is created. */
  const INITIAL_SIZE: nat := 0x1000

  /** Where the allocating thread stands inside `next_free` and `alloc`. */
  datatype AllocPc =
    | Idle
    | Loaded(ff: nat)               // first_free read
    | Peeked(ff: nat, nf: nat)      // next_free of that slot read, temporary handle still alive
    | TempDropped(ff: nat, nf: nat) // the temporary handle has decremented rc
    | Ready(ff: nat, target: nat)   // target computed, memory grown
    | Popped(ff: nat)               // compare-and-swap won, rc not yet stored
    | Misfreeing(ff: nat)           // the temporary handle saw rc == 1 and entered actual_free

  type NonZero = i: int | i != 0 witness 1

  /** Where any other thread stands inside `get`, `drop` or `drop_if_rc_1`. */
  datatype ThreadPc =
    | Running
    | Getting(slot: nat, rc: NonZero) // about to compare-and-swap the count it has read
    | GetFailed(slot: nat)            // about to return None, which drops the handle it has built
    | PushLoad(slot: nat)
    | PushStore(slot: nat, seen: nat)
    | PushCas(slot: nat, seen: nat)
  {
    predicate Pushes(x: nat) {
      (PushLoad? || PushStore? || PushCas?) && slot == x
    }
  }

  /**
   * Shared memory plus the position of every thread. Memory that was never
   * written reads as zero. `held` counts the handles each slot has.
   */
  datatype Pool = Pool(
    firstFree: nat,
    next: map<nat, nat>,
    rc: map<nat, int>,
    mapped: nat,
    held: multiset<nat>,
    alloc: AllocPc,
    threads: map<nat, ThreadPc>)
  {
    function Next(x: nat): nat { if x in next then next[x] else 0 }
    function Rc(x: nat): int { if x in rc then rc[x] else 0 }
    function Pc(t: nat): ThreadPc { if t in threads then threads[t] else Running }
  }

  function Create(l: SlotLayout): Pool {
    Pool(l.align, map[], map[], INITIAL_SIZE, multiset{}, Idle, map[])
  }

  datatype Step =
    | ALoad                       // first_free.load
    | APeek                       // next_free.load through a temporary handle
    | ADropTemp                   // drop of the temporary handle: rc.fetch_sub
    | AReady(grown: nat)          // pick the target; grow to `grown` bytes when the slot is fresh
    | ACas                        // first_free.compare_exchange
    | AInit                       // rc.store(1), handle returned
    | GetLoad(t: nat, x: nat)     // rc.load
    | GetCas(t: nat)              // rc.compare_exchange(rc, rc + 1)
    | GetFail(t: nat)             // drop of the handle `get` does not return: rc.fetch_sub
    | Grow(grown: nat)            // ensure_space from `ensure_index`
    | Drop(t: nat, x: nat)        // rc.fetch_sub
    | DropIfRc1(t: nat, x: nat)   // rc.compare_exchange(1, 0)
    | PLoad(t: nat)               // first_free.load
    | PStore(t: nat)              // next_free.store
    | PCas(t: nat)                // first_free.compare_exchange

  /**
   * When a step can be taken. A thread drops only handles that exist; `get`
   * may be asked for any slot, live or not, whose bytes are mapped.
   */
  ghost predicate Enabled(l: SlotLayout, s: Pool, step: Step) {
    match step
    case ALoad => s.alloc.Idle?
    case APeek => s.alloc.Loaded?
    case ADropTemp => s.alloc.Peeked?
    case AReady(grown) =>
      && s.alloc.TempDropped?
      && s.mapped <= grown
      && (if s.alloc.nf == 0 then s.alloc.ff + 2 * l.size <= grown else grown == s.mapped)
    case ACas => s.alloc.Ready?
    case AInit => s.alloc.Popped?
    case GetLoad(t, x) => s.Pc(t).Running? && l.Valid() && IsSlot(l, x) && x + l.size <= s.mapped
    case GetCas(t) => s.Pc(t).Getting?
    case GetFail(t) => s.Pc(t).GetFailed?
    case Grow(grown) => s.mapped <= grown
    case Drop(t, x) => s.Pc(t).Running? && x in s.held
    case DropIfRc1(t, x) => s.Pc(t).Running? && x in s.held
    case PLoad(t) => s.Pc(t).PushLoad?
    case PStore(t) => s.Pc(t).PushStore?
    case PCas(t) => s.Pc(t).PushCas?
  }

  /** What `get` does next, given the count it has just read. */
  function Looked(x: nat, rc: int): ThreadPc {
    if rc == 0 then GetFailed(x) else Getting(x, rc)
  }

  ghost function Apply(l: SlotLayout, s: Pool, step: Step): Pool
    requires Enabled(l, s, step)
  {
    match step
    case ALoad => s.(alloc := Loaded(s.firstFree))
    case APeek => s.(alloc := Peeked(s.alloc.ff, s.Next(s.alloc.ff)))
    case ADropTemp =>
      var ff, nf := s.alloc.ff, s.alloc.nf;
      s.(rc := s.rc[ff := s.Rc(ff) - 1],
         alloc := if s.Rc(ff) == 1 then Misfreeing(ff) else TempDropped(ff, nf))
    case AReady(grown) =>
      var ff, nf := s.alloc.ff, s.alloc.nf;
      s.(mapped := grown, alloc := Ready(ff, if nf == 0 then ff + l.size else nf))
    case ACas =>
      if s.firstFree == s.alloc.ff
      then s.(firstFree := s.alloc.target, alloc := Popped(s.alloc.ff))
      else s.(alloc := Loaded(s.firstFree))
    case AInit =>
      var x := s.alloc.ff;
      s.(rc := s.rc[x := 1], held := s.held + multiset{x}, alloc := Idle)
    case GetLoad(t, x) => s.(threads := s.threads[t := Looked(x, s.Rc(x))])
    case GetCas(t) =>
      var x, seen := s.Pc(t).slot, s.Pc(t).rc;
      if s.Rc(x) == seen
      then s.(rc := s.rc[x := seen + 1], held := s.held + multiset{x}, threads := s.threads[t := Running])
      else s.(threads := s.threads[t := Looked(x, s.Rc(x))])
    case GetFail(t) =>
      var x := s.Pc(t).slot;
      s.(rc := s.rc[x := s.Rc(x) - 1], threads := s.threads[t := if s.Rc(x) == 1 then PushLoad(x) else Running])
    case Grow(grown) => s.(mapped := grown)
    case Drop(t, x) =>
      var after := s.(rc := s.rc[x := s.Rc(x) - 1], held := s.held - multiset{x});
      if s.Rc(x) == 1 then after.(threads := s.threads[t := PushLoad(x)]) else after
    case DropIfRc1(t, x) =>
      if s.Rc(x) == 1
      then s.(rc := s.rc[x := 0], held := s.held - multiset{x}, threads := s.threads[t := PushLoad(x)])
      else s
    case PLoad(t) => s.(threads := s.threads[t := PushStore(s.Pc(t).slot, s.firstFree)])
    case PStore(t) =>
      var x, seen := s.Pc(t).slot, s.Pc(t).seen;
      s.(next := s.next[x := seen], threads := s.threads[t := PushCas(x, seen)])
    case PCas(t) =>
      var x, seen := s.Pc(t).slot, s.Pc(t).seen;
      if s.firstFree == seen
      then s.(firstFree := x, threads := s.threads[t := Running])
      else s.(threads := s.threads[t := PushStore(x, s.firstFree)])
  }

  /** The state after a run from `s0`, or None when some step of it cannot be taken. */
  ghost function RunFrom(l: SlotLayout, s0: Pool, steps: seq<Step>): Option<Pool> {
    if steps == [] then Some(s0)
    else
      var k := |steps| - 1;
      match RunFrom(l, s0, steps[..k])
      case Some(s) => if Enabled(l, s, steps[k]) then Some(Apply(l, s, steps[k])) else None
      case None => None
  }

  /** The state after a run from the pool's creation. */
  ghost function Exec(l: SlotLayout, steps: seq<Step>): Option<Pool> {
    RunFrom(l, Create(l), steps)
  }

  /**
   * What `get` has to find for its compare-and-swap and its decrement to be
   * those of a handle: a count it raises was positive, and a slot whose count
   * it lowers on giving up has no handle.
   */
  ghost predicate Careful(s: Pool, step: Step) {
    match step
    case GetCas(t) => s.Pc(t).Getting? && s.Rc(s.Pc(t).slot) == s.Pc(t).rc ==> 0 < s.Pc(t).rc
    case GetFail(t) => s.Pc(t).GetFailed? ==> s.Pc(t).slot !in s.held
    case _ => true
  }

  ghost predicate CarefulFrom(l: SlotLayout, s0: Pool, steps: seq<Step>)
    requires RunFrom(l, s0, steps).Some?
  {
    steps == [] ||
    var k := |steps| - 1;
    CarefulFrom(l, s0, steps[..k]) && Careful(RunFrom(l, s0, steps[..k]).value, steps[k])
  }

  ghost predicate CarefulRun(l: SlotLayout, steps: seq<Step>)
    requires Exec(l, steps).Some?
  {
    CarefulFrom(l, Create(l), steps)
  }

  lemma RunExtend(l: SlotLayout, s0: Pool, steps: seq<Step>, s: Pool, step: Step)
    requires RunFrom(l, s0, steps) == Some(s) && Enabled(l, s, step)
    ensures RunFrom(l, s0, steps + [step]) == Some(Apply(l, s, step))
    ensures CarefulFrom(l, s0, steps + [step]) <==> CarefulFrom(l, s0, steps) && Careful(s, step)
  {
    assert (steps + [step])[..|steps|] == steps;
  }

  // ---------- Slots ----------

  /** `x` is the byte offset of a slot: a whole number of slots above the first one. */
  ghost predicate IsSlot(l: SlotLayout, x: nat)
    requires l.Valid()
  {
    x == l.align || (l.align + l.size <= x && IsSlot(l, x - l.size))
  }

  /** Slots are the offsets congruent to the start offset modulo the slot size. */
  lemma {:induction false} SlotIffCongruent(l: SlotLayout, x: nat)
    requires l.Valid()
    ensures IsSlot(l, x) <==> l.align <= x && (x - l.align) % l.size == 0
  {
    if l.align + l.size <= x {
      SlotIffCongruent(l, x - l.size);
      var d := x - l.size - l.align;
      DivModUnique(d + l.size, d / l.size + 1, d % l.size, l.size);
    } else if l.align <= x {
      DivModUnique(x - l.align, 0, x - l.align, l.size);
    }
  }

  /** Distinct slots do not overlap, and none overlaps the four-byte list head. */
  lemma {:induction false} SlotsDisjoint(l: SlotLayout, x: nat, y: nat)
    requires l.Valid() && IsSlot(l, x) && IsSlot(l, y) && x < y
    ensures 4 <= x && x + l.size <= y
    decreases x
  {
    if x != l.align {
      SlotsDisjoint(l, x - l.size, y - l.size);
    }
  }

  /** The assertion at the start of `get` accepts slot offsets exactly when alignment is below size. */
  lemma GetAssertion(l: SlotLayout, x: nat)
    requires l.Valid() && IsSlot(l, x)
    ensures x % l.size == l.align <==> l.align < l.size
  {
    SlotIffCongruent(l, x);
    if l.align < l.size {
      DivModUnique(x, (x - l.align) / l.size, l.align, l.size);
    }
  }
}
