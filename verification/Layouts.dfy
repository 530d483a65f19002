/** Machine sizes, memory layouts and blocks of memory, shared by the arena allocators. */
module Layouts {
  import opened Arith
  import opened Wrappers

  const ISIZE_MAX: nat := 0x7FFF_FFFF_FFFF_FFFF

  function CheckedAdd(a: nat, b: nat): Option<nat> {
    if a + b <= USIZE_MAX then Some(a + b) else None
  }

  predicate IsPow2(n: nat) {
    n == 1 || (n > 1 && n % 2 == 0 && IsPow2(n / 2))
  }

  predicate IsAligned(addr: nat, align: nat)
    requires 0 < align
  {
    addr % align == 0
  }

  /** How far `addr` is below the next multiple of `align`. */
  function AlignOffset(addr: nat, align: nat): (r: nat)
    requires 0 < align
    ensures r < align && IsAligned(addr + r, align)
    ensures IsAligned(addr, align) ==> r == 0
  {
    var rem := addr % align;
    if rem == 0 then 0
    else
      assert addr + (align - rem) == (addr / align + 1) * align;
      DivModUnique(addr + (align - rem), addr / align + 1, 0, align);
      align - rem
  }

  ghost predicate IsLeastMultiple(r: nat, m: nat, p: nat)
    requires 0 < p
  {
    && m <= r && IsAligned(r, p)
    && forall x: nat | m <= x && IsAligned(x, p) :: r <= x
  }

  lemma NextMultipleIsLeast(m: nat, p: nat)
    requires 0 < p
    ensures IsLeastMultiple(m + AlignOffset(m, p), m, p)
  {
    var r := m + AlignOffset(m, p);
    forall x: nat | m <= x && IsAligned(x, p) ensures r <= x {
      var i, j := r / p, x / p;
      assert r == i * p && x == j * p;
      if j < i {
        MulMonotone(j, i - 1, p);
        assert false;
      }
      MulMonotone(i, j, p);
    }
  }

  /** A size and an alignment; the size rounded up to the alignment stays within the signed range. */
  datatype Layout = Layout(size: nat, align: nat) {
    predicate Valid() {
      0 < align && IsPow2(align) && size + (align - 1) <= ISIZE_MAX
    }

    /** The layout with its size rounded up to its alignment. */
    function PadToAlign(): (l: Layout)
      requires 0 < align
      ensures size <= l.size < size + align && IsAligned(l.size, align) && l.align == align
    {
      Layout(size + AlignOffset(size, align), align)
    }
  }

  function FromSizeAlign(size: nat, align: nat): Option<Layout> {
    if Layout(size, align).Valid() then Some(Layout(size, align)) else None
  }

  /** `len` bytes starting at `addr`. */
  datatype Block = Block(addr: nat, len: nat) {
    predicate Inside(from: nat, to: nat) { from <= addr && addr + len <= to }
  }

  predicate Disjoint(a: Block, b: Block) {
    a.addr + a.len <= b.addr || b.addr + b.len <= a.addr
  }
}
