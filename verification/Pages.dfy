/** Page rounding and the virtual-memory allocator of alloc/src/virtual_alloc.rs. */
module Pages {
  import opened Arith
  import opened Wrappers
  import opened Layouts
  import opened Linear
  import opened Chain

  /** Bitwise conjunction, bit by bit. */
  function BitAnd(a: nat, b: nat): nat {
    if a == 0 || b == 0 then 0
    else (if a % 2 == 1 && b % 2 == 1 then 1 else 0) + 2 * BitAnd(a / 2, b / 2)
  }

  /** Masking with a power of two less one is the remainder. */
  lemma {:induction false} MaskIsRemainder(n: nat, p: nat)
    requires IsPow2(p)
    ensures BitAnd(n, p - 1) == n % p
    decreases p
  {
    if p == 1 {
      DivModUnique(n, n, 0, 1);
    } else if n == 0 {
      DivModUnique(0, 0, 0, p);
    } else {
      var q := p / 2;
      assert p == 2 * q && (p - 1) % 2 == 1 && (p - 1) / 2 == q - 1;
      MaskIsRemainder(n / 2, q);
      SplitRemainder(n, q);
      assert q == 1 ==> BitAnd(n / 2, 0) == 0;
    }
  }

  lemma SplitRemainder(n: nat, q: nat)
    requires 0 < q
    ensures n % (2 * q) == n % 2 + 2 * ((n / 2) % q)
  {
    var h := n / 2;
    var a, b := h / q, h % q;
    assert h == a * q + b;
    assert n == 2 * h + n % 2;
    assert 2 * (a * q) == a * (2 * q);
    DivModUnique(n, a, n % 2 + 2 * b, 2 * q);
  }

  /** The page rounding as the source computes it, with the bit mask. */
  function PadToPow2(num: nat, pow2: nat): (r: Option<nat>)
    requires IsPow2(pow2)
    ensures r.Some? ==> num <= r.value && pow2 <= r.value
  {
    var bytes := Max(num, pow2);
    var remainder := BitAnd(bytes, pow2 - 1);
    if remainder == 0 then Some(bytes)
    else
      assert remainder < pow2 by { MaskIsRemainder(bytes, pow2); }
      CheckedAdd(bytes, pow2 - remainder)
  }

  /**
   * Rounding yields the least multiple of the power of two that is at least
   * the number and not zero; it fails exactly when that is not representable.
   */
  lemma PadIsLeastMultiple(num: nat, pow2: nat) returns (least: nat)
    requires IsPow2(pow2) && num <= USIZE_MAX && pow2 <= USIZE_MAX
    ensures IsLeastMultiple(least, Max(num, pow2), pow2)
    ensures PadToPow2(num, pow2) == if least <= USIZE_MAX then Some(least) else None
  {
    var bytes := Max(num, pow2);
    MaskIsRemainder(bytes, pow2);
    NextMultipleIsLeast(bytes, pow2);
    least := bytes + AlignOffset(bytes, pow2);
  }

  /** A rounded number is a fixed point of the rounding. */
  lemma PadIsIdempotent(num: nat, pow2: nat)
    requires IsPow2(pow2) && PadToPow2(num, pow2).Some?
    ensures PadToPow2(PadToPow2(num, pow2).value, pow2) == PadToPow2(num, pow2)
  {
    var bytes := Max(num, pow2);
    var r := PadToPow2(num, pow2).value;
    MaskIsRemainder(bytes, pow2);
    assert r == bytes + AlignOffset(bytes, pow2) && IsAligned(r, pow2);
    MaskIsRemainder(r, pow2);
  }

  /** The bytes of whole pages for a layout; None when the layout cannot be served. */
  function LayoutToPageSize(layout: Layout, pageSize: Option<nat>): Option<nat>
    requires pageSize.Some? ==> IsPow2(pageSize.value)
  {
    if layout.size == 0 then None
    else if pageSize.None? then None
    else if layout.align > pageSize.value then None
    else PadToPow2(layout.size, pageSize.value)
  }

  /** A layout is served exactly when it has a size, an alignment of at most a page, and whole pages that hold it. */
  lemma PageSizeIff(layout: Layout, pageSize: nat)
    requires layout.Valid() && IsPow2(pageSize) && pageSize <= USIZE_MAX
    ensures
      var pages := LayoutToPageSize(layout, Some(pageSize));
      && (pages.Some? <==> layout.size != 0 && layout.align <= pageSize && FitsInPages(layout.size, pageSize))
      && (pages.Some? ==> IsLeastMultiple(pages.value, layout.size, pageSize))
  {
    var least := PadIsLeastMultiple(layout.size, pageSize);
    hide PadToPow2, IsPow2;
    PositiveMultiples(pageSize);
  }

  /** Some representable number of whole pages holds so many bytes. */
  ghost predicate FitsInPages(bytes: nat, pageSize: nat)
    requires 0 < pageSize
  {
    exists n: nat :: bytes <= n <= USIZE_MAX && IsAligned(n, pageSize)
  }

  lemma PositiveMultiples(p: nat)
    requires 0 < p
    ensures forall n: nat | 0 < n && IsAligned(n, p) :: p <= n
  {
    forall n: nat | 0 < n && IsAligned(n, p) ensures p <= n {
      if n < p {
        DivModUnique(n, 0, n, p);
        assert false;
      }
    }
  }

  /** Mapping: `address` is where the system puts the pages, if it has room. */
  function Map(layout: Layout, pageSize: Option<nat>, address: Option<nat>): Option<Chunk>
    requires pageSize.Some? ==> IsPow2(pageSize.value)
  {
    match (LayoutToPageSize(layout, pageSize), address)
    case (Some(len), Some(addr)) => Some(Chunk(addr, len, layout.align))
    case _ => None
  }

  /**
   * The length unmapped equals the length mapped, whether the memory is given
   * back with the layout it was asked for or with the one the bump allocator
   * records: the actual length and the requested alignment.
   */
  lemma UnmapsWhatWasMapped(layout: Layout, pageSize: nat, address: nat)
    requires IsPow2(pageSize) && Map(layout, Some(pageSize), Some(address)).Some?
    ensures
      var chunk := Map(layout, Some(pageSize), Some(address)).value;
      && LayoutToPageSize(layout, Some(pageSize)) == Some(chunk.len)
      && LayoutToPageSize(Layout(chunk.len, chunk.align), Some(pageSize)) == Some(chunk.len)
  {
    PadIsIdempotent(layout.size, pageSize);
  }

  lemma {:induction false} Pow2Divides(a: nat, b: nat)
    requires IsPow2(a) && IsPow2(b) && a <= b
    ensures IsAligned(b, a)
    decreases b
  {
    if a == 1 {
      DivModUnique(b, b, 0, 1);
    } else {
      var p, q := a / 2, b / 2;
      Pow2Divides(p, q);
      var k := q / p;
      assert q == k * p;
      assert b == k * a;
      DivModUnique(b, k, 0, a);
    }
  }

  lemma AlignedToDivisor(x: nat, a: nat, b: nat)
    requires 0 < a && 0 < b && IsAligned(x, b) && IsAligned(b, a)
    ensures IsAligned(x, a)
  {
    var i, j := x / b, b / a;
    assert x == i * b && b == j * a;
    assert x == (i * j) * a;
    DivModUnique(x, i * j, 0, a);
  }

  /** Page-aligned fresh memory makes the virtual allocator a fair backing allocator for the arenas. */
  lemma VirtualAllocatorIsFair(live: set<Chunk>, layout: Layout, pageSize: nat, address: Option<nat>)
    requires layout.Valid() && IsPow2(pageSize)
    requires
      var answer := Map(layout, Some(pageSize), address);
      answer.Some? ==>
        && 0 < address.value && IsAligned(address.value, pageSize)
        && address.value + answer.value.len <= USIZE_MAX + 1
        && forall c | c in live :: Apart(c, answer.value)
    ensures FairAnswer(live, layout, Map(layout, Some(pageSize), address))
  {
    hide PadToPow2, IsPow2, IsAligned;
    if Map(layout, Some(pageSize), address).Some? {
      Pow2Divides(layout.align, pageSize);
      AlignedToDivisor(address.value, layout.align, pageSize);
    }
  }
}
