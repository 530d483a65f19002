/** The bump allocator of alloc/src/linear.rs. */
module Linear {
  import opened Arith
  import opened Wrappers
  import opened Layouts

  /** A piece of memory from the backing allocator, with the alignment it was requested with. */
  datatype Chunk = Chunk(addr: nat, len: nat, align: nat) {
    predicate Valid() { 0 < addr && 0 < align && IsAligned(addr, align) && addr + len <= USIZE_MAX + 1 }

    function AsBlock(): Block { Block(addr, len) }
  }

  class LinearAllocator {
    const chunk: Chunk
    var used: nat
    /** Every block handed out, in order. */
    ghost var blocks: seq<Block>

    ghost predicate Valid()
      reads this
    {
      && chunk.Valid()
      && used <= chunk.len
      && (forall i | 0 <= i < |blocks| :: blocks[i].Inside(chunk.addr, chunk.addr + used))
      && (forall i, j | 0 <= i < j < |blocks| :: Disjoint(blocks[i], blocks[j]))
    }

    constructor (chunk: Chunk)
      requires chunk.Valid()
      ensures Valid() && this.chunk == chunk && used == 0 && blocks == []
    {
      this.chunk := chunk;
      used, blocks := 0, [];
    }

    function RemainingCapacity(): nat
      requires used <= chunk.len
      reads this
    {
      chunk.len - used
    }

    /** The bytes a layout takes next: padding up to its alignment, then its size. */
    function Needed(layout: Layout): (n: nat)
      requires 0 < layout.align
      reads this
      ensures layout.size <= n < layout.size + layout.align
      ensures IsAligned(chunk.addr + used + n - layout.size, layout.align)
    {
      AlignOffset(chunk.addr + used, layout.align) + layout.size
    }

    predicate HasCapacityFor(layout: Layout)
      requires 0 < layout.align && used <= chunk.len
      reads this
    {
      match CheckedAdd(AlignOffset(chunk.addr + used, layout.align), layout.size)
      case Some(needed) => RemainingCapacity() >= needed
      case None => false
    }

    /** There is room exactly when some aligned address has the whole block between the used part and the end. */
    lemma CapacityIff(layout: Layout)
      requires Valid() && 0 < layout.align
      ensures HasCapacityFor(layout) <==>
              exists addr: nat ::
                && IsAligned(addr, layout.align)
                && chunk.addr + used <= addr && addr + layout.size <= chunk.addr + chunk.len
    {
      var from := chunk.addr + used;
      NextMultipleIsLeast(from, layout.align);
      hide AlignOffset;
      assert IsAligned(from + AlignOffset(from, layout.align), layout.align);
    }

    /**
     * A block of the size asked for, aligned as asked for, inside the chunk
     * and apart from every block handed out before; or nothing, exactly when
     * the size is zero or the capacity query says no.
     */
    method Allocate(layout: Layout) returns (r: Option<Block>)
      requires Valid() && 0 < layout.align
      modifies this
      ensures Valid()
      ensures r.Some? <==> layout.size != 0 && old(HasCapacityFor(layout))
      ensures r.Some? ==>
                && r.value.len == layout.size
                && IsAligned(r.value.addr, layout.align)
                && r.value.Inside(chunk.addr + old(used), chunk.addr + used)
                && IsLeastMultiple(r.value.addr, chunk.addr + old(used), layout.align)
                && used == r.value.addr + r.value.len - chunk.addr
                && used == old(used) + old(Needed(layout))
                && blocks == old(blocks) + [r.value]
      ensures r.None? ==> used == old(used) && blocks == old(blocks)
    {
      if layout.size == 0 {
        return None;
      }
      var offset := AlignOffset(chunk.addr + used, layout.align);
      match CheckedAdd(offset, layout.size)
      case None =>
        return None;
      case Some(needed) =>
        if needed > chunk.len - used {
          return None;
        }
        NextMultipleIsLeast(chunk.addr + used, layout.align);
        var block := Block(chunk.addr + used + offset, layout.size);
        used := used + needed;
        blocks := blocks + [block];
        return Some(block);
    }
  }
}
