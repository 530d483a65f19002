/**
 * The chain of bump allocators of alloc/src/chain.rs. Each chunk starts with
 * a header that links it to the previous chunk; the last chunk is the one
 * allocations are made from.
 */
module Chain {
  import opened Arith
  import opened Wrappers
  import opened Layouts
  import opened Linear

  predicate Holds(chunk: Chunk, block: Block) { block.Inside(chunk.addr, chunk.addr + chunk.len) }

  predicate Apart(a: Chunk, b: Chunk) { Disjoint(a.AsBlock(), b.AsBlock()) }

  /** What the backing allocator may answer to a request: nothing, or fresh, aligned, large enough memory. */
  ghost predicate FairAnswer(live: set<Chunk>, layout: Layout, answer: Option<Chunk>) {
    answer.Some? ==>
      && answer.value.Valid()
      && answer.value.align == layout.align
      && layout.size <= answer.value.len
      && (forall c | c in live :: Apart(c, answer.value))
  }

  lemma FairIsNew(live: set<Chunk>, layout: Layout, chunk: Chunk)
    requires FairAnswer(live, layout, Some(chunk)) && 0 < layout.size
    ensures chunk !in live
  {
    assert !Apart(chunk, chunk);
  }

  /** Answers to a run of requests: the number of the request, what is lent out, and the layout. */
  type Answers = (nat, set<Chunk>, Layout) -> Option<Chunk>

  ghost predicate IsFair(answers: Answers) {
    forall i, live, layout :: FairAnswer(live, layout, answers(i, live, layout))
  }

  /** The backing allocator: the chunks it has lent out. */
  class Backing {
    var live: set<Chunk>

    constructor ()
      ensures live == {}
    {
      live := {};
    }

    /** `answer` is what the operating system came back with. */
    method Allocate(layout: Layout, answer: Option<Chunk>) returns (r: Option<Chunk>)
      requires FairAnswer(live, layout, answer)
      modifies this
      ensures r == answer
      ensures live == if r.Some? then old(live) + {r.value} else old(live)
    {
      if answer.Some? {
        live := live + {answer.value};
      }
      r := answer;
    }

    /** Memory goes back exactly as it was lent; giving it back twice is not allowed. */
    method Deallocate(chunk: Chunk)
      requires chunk in live
      modifies this
      ensures live == old(live) - {chunk}
    {
      live := live - {chunk};
    }
  }

  class ChainNode {
    const prev: ChainNode?
    const linear: LinearAllocator

    constructor (prev: ChainNode?, linear: LinearAllocator)
      ensures this.prev == prev && this.linear == linear
    {
      this.prev, this.linear := prev, linear;
    }
  }

  /** The sum of the chunk lengths. */
  ghost function Reserved(nodes: seq<ChainNode>): nat {
    if nodes == [] then 0 else Reserved(nodes[..|nodes| - 1]) + nodes[|nodes| - 1].linear.chunk.len
  }

  ghost function Chunks(nodes: seq<ChainNode>): set<Chunk> {
    set n | n in nodes :: n.linear.chunk
  }

  ghost predicate AllApart(nodes: seq<ChainNode>) {
    && (forall i, j | 0 <= i < j < |nodes| :: Apart(nodes[i].linear.chunk, nodes[j].linear.chunk))
    && (forall i | 0 <= i < |nodes| :: 0 < nodes[i].linear.chunk.len)
  }

  /** A chunk differs from every chunk above it. */
  lemma ChunkIsNew(nodes: seq<ChainNode>, i: nat)
    requires i < |nodes| && AllApart(nodes)
    ensures nodes[i].linear.chunk !in Chunks(nodes[i + 1..])
  {
    forall n | n in nodes[i + 1..] ensures n.linear.chunk != nodes[i].linear.chunk {
      var j :| i < j < |nodes| && nodes[j] == n;
      assert Apart(nodes[i].linear.chunk, nodes[j].linear.chunk);
    }
  }

  lemma ChunksFrom(nodes: seq<ChainNode>, i: nat)
    requires i < |nodes|
    ensures Chunks(nodes[i..]) == Chunks(nodes[i + 1..]) + {nodes[i].linear.chunk}
  {
    assert nodes[i..] == [nodes[i]] + nodes[i + 1..];
    assert nodes[i] in nodes[i..];
  }

  /** The chain grew from `before` to `after`, and exactly the chunks it grew by were lent out, each anew. */
  ghost predicate Borrows(before: seq<ChainNode>, lent: set<Chunk>, after: seq<ChainNode>, live: set<Chunk>) {
    && before <= after
    && live == lent + Chunks(after[|before|..])
    && Chunks(after[|before|..]) !! lent
  }

  lemma BorrowsNothing(nodes: seq<ChainNode>, live: set<Chunk>)
    ensures Borrows(nodes, live, nodes, live)
  {
    assert nodes[|nodes|..] == [];
  }

  lemma BorrowsOne(nodes: seq<ChainNode>, live: set<Chunk>, node: ChainNode)
    requires node.linear.chunk !in live
    ensures Borrows(nodes, live, nodes + [node], live + {node.linear.chunk})
  {
    assert (nodes + [node])[|nodes|..] == [node];
    assert node in [node] && Chunks([node]) == {node.linear.chunk};
  }

  lemma BorrowsMore(a: seq<ChainNode>, x: set<Chunk>, b: seq<ChainNode>, y: set<Chunk>, c: seq<ChainNode>, z: set<Chunk>)
    requires Borrows(a, x, b, y) && Borrows(b, y, c, z)
    ensures Borrows(a, x, c, z)
  {
    assert c[|a|..] == b[|a|..] + c[|b|..];
    assert Chunks(c[|a|..]) == Chunks(b[|a|..]) + Chunks(c[|b|..]);
  }

  /** A bump allocator over a chunk, with the header as its first block. */
  method NewChunk(header: Layout, chunk: Chunk) returns (linear: LinearAllocator)
    requires chunk.Valid() && 0 < header.size <= chunk.len && header.size <= ISIZE_MAX && chunk.align == header.align
    ensures fresh(linear) && linear.Valid() && linear.chunk == chunk
    ensures linear.blocks == [Block(chunk.addr, header.size)] && linear.used == header.size
  {
    linear := new LinearAllocator(chunk);
    var place := linear.Allocate(header);
    assert linear.blocks[0].Inside(chunk.addr, chunk.addr + header.size);
  }

  /** A chunk of the size `allocate` asks for has room for the block, however it is aligned. */
  lemma FreshHasRoom(linear: LinearAllocator, header: Layout, layout: Layout)
    requires linear.used == header.size && 0 < layout.align
    requires layout.size + header.size + (layout.align - 1) <= linear.chunk.len <= USIZE_MAX
    ensures linear.HasCapacityFor(layout)
  {
  }

  /** A block handed out, and the place of its chunk in the chain. */
  datatype Handed = Handed(block: Block, home: nat)

  ghost predicate AllDisjoint(handed: seq<Handed>) {
    forall i, j | 0 <= i < j < |handed| :: Disjoint(handed[i].block, handed[j].block)
  }

  /** The blocks of a run are, in order, what was handed out since `from`. */
  ghost predicate AreHanded(blocks: seq<Option<Block>>, from: seq<Handed>, handed: seq<Handed>) {
    if blocks == [] then handed == from
    else
      var k := |blocks| - 1;
      if blocks[k].None? then AreHanded(blocks[..k], from, handed)
      else
        && handed != []
        && handed[|handed| - 1].block == blocks[k].value
        && AreHanded(blocks[..k], from, handed[..|handed| - 1])
  }

  lemma NoneHanded(from: seq<Handed>)
    ensures AreHanded([], from, from)
  {
  }

  lemma OneHanded(blocks: seq<Option<Block>>, from: seq<Handed>, handed: seq<Handed>, more: Handed)
    requires AreHanded(blocks, from, handed)
    ensures AreHanded(blocks + [Some(more.block)], from, handed + [more])
  {
    assert (blocks + [Some(more.block)])[..|blocks|] == blocks && (handed + [more])[..|handed|] == handed;
  }

  lemma NotHanded(blocks: seq<Option<Block>>, from: seq<Handed>, handed: seq<Handed>)
    requires AreHanded(blocks, from, handed)
    ensures AreHanded(blocks + [None], from, handed)
  {
    assert (blocks + [None])[..|blocks|] == blocks;
  }

  lemma {:induction false} HandedAreApart(blocks: seq<Option<Block>>, from: seq<Handed>, handed: seq<Handed>)
    requires AreHanded(blocks, from, handed)
    requires AllDisjoint(handed)
    ensures from <= handed
    ensures forall i | 0 <= i < |blocks| && blocks[i].Some? :: exists k :: 0 <= k < |handed| && handed[k].block == blocks[i].value
    ensures forall i, k | 0 <= i < |blocks| && blocks[i].Some? && 0 <= k < |from| ::
              Disjoint(from[k].block, blocks[i].value)
    ensures forall i, j | 0 <= i < j < |blocks| && blocks[i].Some? && blocks[j].Some? ::
              Disjoint(blocks[i].value, blocks[j].value)
  {
    hide Disjoint;
    if blocks != [] {
      var k := |blocks| - 1;
      var earlier := if blocks[k].None? then handed else handed[..|handed| - 1];
      HandedAreApart(blocks[..k], from, earlier);
      forall i | 0 <= i < k && blocks[i].Some?
        ensures exists n :: 0 <= n < |earlier| && earlier[n].block == blocks[i].value
      {
        assert blocks[..k][i] == blocks[i];
      }
    }
  }

  class ChainAllocator {
    var top: ChainNode?
    const nodeSize: nat
    /** The layout of a chunk header. */
    const header: Layout
    const backing: Backing
    /** The chain, oldest chunk first. */
    ghost var nodes: seq<ChainNode>
    ghost var handed: seq<Handed>

    static ghost function Linears(nodes: seq<ChainNode>): set<LinearAllocator> { set n | n in nodes :: n.linear }

    /** Following `prev` from the top visits the nodes backwards. */
    ghost predicate Linked()
      reads `top, `nodes
    {
      && top == (if nodes == [] then null else nodes[|nodes| - 1])
      && (nodes != [] ==> nodes[0].prev == null)
      && forall i {:trigger nodes[i].prev} | 0 < i < |nodes| :: nodes[i].prev == nodes[i - 1]
    }

    /** The chunks are lent by the backing allocator and do not overlap. */
    ghost predicate Owned()
      reads `nodes, backing
    {
      && (forall i | 0 <= i < |nodes| :: nodes[i].linear.chunk in backing.live)
      && (forall i, j | 0 <= i < j < |nodes| :: nodes[i].linear != nodes[j].linear)
      && AllApart(nodes)
    }

    /** Every chunk has its header at its start. */
    ghost predicate Headed()
      reads `nodes, Linears(nodes)
    {
      forall i | 0 <= i < |nodes| ::
        var l := nodes[i].linear;
        && l.Valid()
        && l.blocks != []
        && l.blocks[0] == Block(l.chunk.addr, header.size)
        && header.size <= l.used
    }

    /** Every block handed out lies in the used part of its chunk, after the header. */
    ghost predicate Placed()
      reads `nodes, `handed, Linears(nodes)
    {
      forall k | 0 <= k < |handed| ::
        && handed[k].home < |nodes|
        && var l := nodes[handed[k].home].linear;
           handed[k].block.Inside(l.chunk.addr + header.size, l.chunk.addr + l.used)
    }

    /** The header is a padded layout, and a chunk has room for four of them. */
    ghost predicate Sized() {
      header.Valid() && 0 < header.size && IsAligned(header.size, header.align) && 4 * header.size <= nodeSize
    }

    ghost predicate Valid()
      reads this, backing, Linears(nodes)
    {
      Sized() && Linked() && Owned() && Headed() && Placed() && AllDisjoint(handed)
    }

    constructor (chunkSizeHint: nat, header: Layout, backing: Backing)
      requires header.Valid() && 0 < header.size && IsAligned(header.size, header.align)
      ensures Valid() && nodes == [] && handed == [] && this.header == header && this.backing == backing
      ensures nodeSize == Max(chunkSizeHint, 4 * header.size)
    {
      top := null;
      nodeSize := if chunkSizeHint < 4 * header.size then 4 * header.size else chunkSizeHint;
      this.header, this.backing := header, backing;
      nodes, handed := [], [];
    }

    /** What `grow` asks of the backing allocator for at least `minSize` bytes. */
    function GrowLayout(minSize: nat): (r: Option<Layout>)
      ensures r.Some? ==> minSize <= r.value.size && r.value.align == header.align
    {
      match FromSizeAlign(Max(minSize, nodeSize), header.align)
      case Some(l) => if 0 < l.align then Some(l.PadToAlign()) else None
      case None => None
    }

    /** Puts a bump allocator with its header on top of the chain. */
    method Push(linear: LinearAllocator)
      requires Valid() && linear.Valid() && linear.chunk in backing.live && 0 < linear.chunk.len
      requires linear.blocks == [Block(linear.chunk.addr, header.size)] && linear.used == header.size
      requires forall i | 0 <= i < |nodes| :: nodes[i].linear != linear && Apart(nodes[i].linear.chunk, linear.chunk)
      modifies this`top, this`nodes
      ensures Valid()
      ensures top != null && fresh(top) && top.linear == linear && nodes == old(nodes) + [top]
    {
      hide IsPow2, IsAligned, Disjoint, Apart, LinearAllocator.Valid, Chunk.Valid;
      var node := new ChainNode(top, linear);
      top := node;
      nodes := nodes + [node];
    }

    /** Sets up a chunk of the backing allocator and puts it on top of the chain. */
    method Attach(chunk: Chunk)
      requires Valid() && chunk.Valid() && chunk in backing.live && header.size <= chunk.len && chunk.align == header.align
      requires forall i | 0 <= i < |nodes| :: Apart(nodes[i].linear.chunk, chunk)
      modifies this`top, this`nodes
      ensures Valid()
      ensures top != null && fresh(top) && fresh(top.linear) && nodes == old(nodes) + [top]
      ensures top.linear.chunk == chunk && top.linear.used == header.size
    {
      hide IsPow2, IsAligned, Disjoint, Apart, LinearAllocator.Valid, Chunk.Valid;
      var linear := NewChunk(header, chunk);
      Push(linear);
    }

    /** Asks the backing allocator for a chunk; what it lends is apart from the chunks of the chain. */
    method Borrow(layout: Layout, answer: Option<Chunk>) returns (chunk: Option<Chunk>)
      requires Valid() && FairAnswer(backing.live, layout, answer)
      modifies backing
      ensures Valid() && chunk == answer
      ensures backing.live == if chunk.Some? then old(backing.live) + {chunk.value} else old(backing.live)
      ensures chunk.Some? ==> forall i | 0 <= i < |nodes| :: Apart(nodes[i].linear.chunk, chunk.value)
    {
      hide IsPow2, IsAligned, Disjoint, LinearAllocator.Valid;
      chunk := backing.Allocate(layout, answer);
    }

    lemma HeaderFits()
      requires Valid()
      ensures Sized() && IsPow2(header.align) && 0 < header.size <= ISIZE_MAX && 4 * header.size <= nodeSize
    {
    }

    /** Adds a chunk whose header is already in place. `answer` is the backing allocator's. */
    method Grow(minSize: nat, answer: Option<Chunk>) returns (ok: bool)
      requires Valid()
      requires GrowLayout(minSize).Some? ==> FairAnswer(backing.live, GrowLayout(minSize).value, answer)
      modifies this, backing
      ensures Valid() && handed == old(handed)
      ensures ok <==> Max(minSize, nodeSize) + header.align - 1 <= ISIZE_MAX && answer.Some?
      ensures ok ==>
                && top != null && fresh(top) && fresh(top.linear)
                && nodes == old(nodes) + [top]
                && top.linear.chunk == answer.value
                && top.linear.used == header.size
      ensures !ok ==> top == old(top) && nodes == old(nodes)
      ensures backing.live == if ok then old(backing.live) + {answer.value} else old(backing.live)
      ensures Borrows(old(nodes), old(backing.live), nodes, backing.live)
      ensures fresh(Linears(nodes) - old(Linears(nodes)))
    {
      hide Valid, IsPow2, IsAligned, Borrows;
      HeaderFits();
      BorrowsNothing(nodes, backing.live);
      match FromSizeAlign(Max(minSize, nodeSize), header.align)
      case None =>
        return false;
      case Some(l) =>
        var chunk := Borrow(l.PadToAlign(), answer);
        if chunk.None? {
          return false;
        }
        FairIsNew(old(backing.live), l.PadToAlign(), chunk.value);
        Attach(chunk.value);
        BorrowsOne(old(nodes), old(backing.live), top);
        return true;
    }

    predicate HasCapacityFor(layout: Layout)
      requires 0 < layout.align && (top != null ==> top.linear.used <= top.linear.chunk.len)
      reads this, if top != null then {top.linear} else {}
    {
      top != null && top.linear.HasCapacityFor(layout)
    }

    /** The bytes a new chunk needs for a layout: header, worst-case padding and the block itself. */
    function MinSize(layout: Layout): Option<nat>
      requires 0 < layout.align
    {
      match CheckedAdd(layout.size, header.size)
      case Some(n) => CheckedAdd(n, layout.align - 1)
      case None => None
    }

    /** What is asked of the backing allocator for a layout that does not fit, unless a size overflows. */
    function Request(layout: Layout): Option<Layout>
      requires 0 < layout.align
    {
      match MinSize(layout.PadToAlign())
      case Some(n) => GrowLayout(n)
      case None => None
    }

    /** The bytes a chunk for a layout must have: as many as any chunk, and enough for header, padding and block. */
    function ChunkBytes(layout: Layout): nat
      requires 0 < layout.align
    {
      Max(layout.PadToAlign().size + header.size + layout.align - 1, nodeSize)
    }

    /** No chunk can be asked for: rounded up, its size would leave the signed range. */
    predicate IsTooLarge(layout: Layout)
      requires 0 < layout.align
    {
      ChunkBytes(layout) + header.align - 1 > ISIZE_MAX
    }

    /** The least padded chunk that suffices is asked for, unless the layout is too large. */
    lemma RequestIff(layout: Layout)
      requires Sized() && layout.Valid()
      ensures Request(layout).None? <==> IsTooLarge(layout)
      ensures Request(layout).Some? ==>
                && ChunkBytes(layout) <= Request(layout).value.size < ChunkBytes(layout) + header.align
                && IsAligned(Request(layout).value.size, header.align)
                && Request(layout).value.align == header.align
    {
      hide AlignOffset, IsAligned;
    }

    /** Room in the top chunk for the padded layout. */
    ghost predicate Roomy(layout: Layout)
      requires Valid() && 0 < layout.align
      reads this, backing, Linears(nodes)
    {
      HasCapacityFor(layout.PadToAlign())
    }

    /** There is room exactly when the newest chunk has an aligned address for the padded block past what is used. */
    lemma RoomyIff(layout: Layout)
      requires Valid() && 0 < layout.align
      ensures Roomy(layout) <==>
              && nodes != []
              && var l := nodes[|nodes| - 1].linear;
                 exists addr: nat ::
                   && IsAligned(addr, layout.align)
                   && l.chunk.addr + l.used <= addr && addr + layout.PadToAlign().size <= l.chunk.addr + l.chunk.len
    {
      TopFits();
      if top != null {
        assert top.linear.Valid();
        hide LinearAllocator.Valid, LinearAllocator.HasCapacityFor, Layout.PadToAlign, IsAligned;
        top.linear.CapacityIff(layout.PadToAlign());
      }
    }

    /** Makes room for a layout, growing if needed; the size asked for always suffices. */
    method MakeRoom(layout: Layout, answer: Option<Chunk>) returns (ok: bool)
      requires Valid() && layout.Valid()
      requires Request(layout).Some? ==> FairAnswer(backing.live, Request(layout).value, answer)
      modifies this, backing
      ensures Valid() && handed == old(handed) && old(nodes) <= nodes && Used() >= old(Used())
      ensures ok <==> old(Roomy(layout)) || (!IsTooLarge(layout) && answer.Some?)
      ensures backing.live ==
              if ok && !old(Roomy(layout)) then old(backing.live) + {answer.value} else old(backing.live)
      ensures ok ==> Roomy(layout) && top != null && (fresh(top.linear) || top.linear in Linears(old(nodes)))
      ensures Borrows(old(nodes), old(backing.live), nodes, backing.live)
      ensures fresh(Linears(nodes) - old(Linears(nodes)))
    {
      hide Valid, IsPow2, IsAligned, Linears, Borrows, GrowLayout, AlignOffset, LinearAllocator.HasCapacityFor, Layout.PadToAlign;
      BorrowsNothing(nodes, backing.live);
      HeaderFits();
      RequestIff(layout);
      TopFits();
      var padded := layout.PadToAlign();
      if HasCapacityFor(padded) {
        return true;
      }
      match MinSize(padded)
      case None =>
        return false;
      case Some(n) =>
        assert Request(layout) == GrowLayout(n);
        ok := Grow(n, answer);
        TopFits();
        if ok {
          FreshHasRoom(top.linear, header, padded);
          assert nodes[..|nodes| - 1] == old(nodes);
        }
    }

    lemma TopFits()
      requires Valid()
      ensures top != null <==> nodes != []
      ensures top != null ==>
                && top == nodes[|nodes| - 1]
                && top.linear.used <= top.linear.chunk.len <= USIZE_MAX
                && top.linear in Linears(nodes)
                && Used() <= Reserved(nodes)
    {
      if top != null {
        assert top in nodes;
      }
    }

    /** Bytes in use: the used part of the top chunk, and all of the chunks below it. */
    ghost function Used(): nat
      reads `nodes, Linears(nodes)
    {
      if nodes == [] then 0 else nodes[|nodes| - 1].linear.used + Reserved(nodes[..|nodes| - 1])
    }

    /** Takes a block from the bump allocator of the top chunk, which has room for it. */
    method BumpTop(layout: Layout) returns (block: Block)
      requires Linked() && Owned() && Headed() && Placed()
      requires top != null && 0 < layout.align && layout.size != 0 && top.linear.used <= top.linear.chunk.len
      requires top.linear.HasCapacityFor(layout)
      modifies top.linear
      ensures Linked() && Owned() && Headed() && Placed() && Used() >= old(Used())
      ensures block.len == layout.size && IsAligned(block.addr, layout.align)
      ensures block.Inside(top.linear.chunk.addr + old(top.linear.used), top.linear.chunk.addr + top.linear.used)
    {
      hide IsPow2, IsAligned, Disjoint, LinearAllocator.Valid;
      assert nodes[|nodes| - 1].linear == top.linear;
      assert forall i | 0 <= i < |nodes| - 1 :: nodes[i].linear != top.linear;
      hide Linked, Owned, AllApart;
      var r := top.linear.Allocate(layout);
      return r.value;
    }

    /** Records a block taken from the top chunk after everything handed out from it before. */
    ghost method Record(block: Block, used: nat)
      requires Sized() && Linked() && Owned() && Headed() && Placed() && AllDisjoint(handed)
      requires nodes != [] && header.size <= used
      requires var l := nodes[|nodes| - 1].linear; block.Inside(l.chunk.addr + used, l.chunk.addr + l.used)
      requires forall k | 0 <= k < |handed| && handed[k].home == |nodes| - 1 ::
                 handed[k].block.addr + handed[k].block.len <= nodes[|nodes| - 1].linear.chunk.addr + used
      modifies `handed
      ensures Valid() && handed == old(handed) + [Handed(block, |nodes| - 1)]
    {
      hide Sized, Linked, Owned, AllApart, AllDisjoint, LinearAllocator.Valid;
      NewBlockIsApartFromAll(block, used);
      handed := handed + [Handed(block, |nodes| - 1)];
    }

    lemma TopIsAfterAll()
      requires Placed() && Linked() && Headed() && top != null
      ensures header.size <= top.linear.used
      ensures forall k | 0 <= k < |handed| && handed[k].home == |nodes| - 1 ::
                handed[k].block.addr + handed[k].block.len <= top.linear.chunk.addr + top.linear.used
    {
      assert nodes[|nodes| - 1].linear == top.linear;
    }

    /** Takes a block from the top chunk and records it. */
    method Bump(layout: Layout) returns (block: Block)
      requires Valid() && 0 < layout.align && layout.size != 0 && HasCapacityFor(layout)
      modifies this`handed, top.linear
      ensures Valid()
      ensures block.len == layout.size && IsAligned(block.addr, layout.align)
      ensures handed == old(handed) + [Handed(block, |nodes| - 1)]
      ensures Used() >= old(Used())
    {
      TopFits();
      hide Linked, Owned, Headed, Placed, AllDisjoint, Sized, IsAligned, LinearAllocator.HasCapacityFor;
      TopIsAfterAll();
      ghost var used := top.linear.used;
      block := BumpTop(layout);
      Record(block, used);
    }

    lemma NewBlockIsApartFromAll(block: Block, used: nat)
      requires Owned() && Headed() && Placed() && AllDisjoint(handed) && nodes != []
      requires var l := nodes[|nodes| - 1].linear; block.Inside(l.chunk.addr + used, l.chunk.addr + l.used)
      requires forall k | 0 <= k < |handed| && handed[k].home == |nodes| - 1 ::
                 handed[k].block.addr + handed[k].block.len <= nodes[|nodes| - 1].linear.chunk.addr + used
      ensures AllDisjoint(handed + [Handed(block, |nodes| - 1)])
    {
      hide Owned, Headed, Placed, Disjoint;
      forall k | 0 <= k < |handed| ensures Disjoint(handed[k].block, block) {
        NewBlockIsApart(k, block, used);
      }
    }

    lemma NewBlockIsApart(k: nat, block: Block, usedBefore: nat)
      requires Owned() && Headed() && Placed() && nodes != [] && k < |handed|
      requires var last := nodes[|nodes| - 1].linear;
               && block.Inside(last.chunk.addr + usedBefore, last.chunk.addr + last.used)
               && (handed[k].home == |nodes| - 1 ==>
                     handed[k].block.addr + handed[k].block.len <= last.chunk.addr + usedBefore)
      ensures Disjoint(handed[k].block, block)
    {
      var home := handed[k].home;
      if home != |nodes| - 1 {
        assert Apart(nodes[home].linear.chunk, nodes[|nodes| - 1].linear.chunk);
        assert nodes[home].linear.Valid() && nodes[|nodes| - 1].linear.Valid();
      }
    }

    /**
     * A block of at least the size asked for, aligned as asked for, apart from
     * every block handed out before and from every header. It fails only for a
     * zero size, a size that overflows, or when the backing allocator fails.
     */
    method Allocate(layout: Layout, answer: Option<Chunk>) returns (r: Option<Block>)
      requires Valid() && layout.Valid()
      requires Request(layout).Some? ==> FairAnswer(backing.live, Request(layout).value, answer)
      modifies this, backing, Linears(nodes)
      ensures Valid() && old(nodes) <= nodes && Used() >= old(Used())
      ensures r.Some? <==>
              layout.size != 0 && (old(Roomy(layout)) || (!IsTooLarge(layout) && answer.Some?))
      ensures r.Some? ==>
                && nodes != []
                && layout.size <= r.value.len
                && IsAligned(r.value.addr, layout.align)
                && handed == old(handed) + [Handed(r.value, |nodes| - 1)]
      ensures r.None? ==> handed == old(handed)
      ensures backing.live ==
              if r.Some? && !old(Roomy(layout)) then old(backing.live) + {answer.value} else old(backing.live)
      ensures Borrows(old(nodes), old(backing.live), nodes, backing.live)
      ensures fresh(Linears(nodes) - old(Linears(nodes)))
    {
      hide Valid, IsPow2, IsAligned, Borrows, Request, AlignOffset, LinearAllocator.HasCapacityFor, Layout.PadToAlign;
      BorrowsNothing(nodes, backing.live);
      if layout.size == 0 {
        return None;
      }
      var ok := MakeRoom(layout, answer);
      if !ok {
        return None;
      }
      TopFits();
      var block := Bump(layout.PadToAlign());
      return Some(block);
    }

    // ---------- Runs ----------

    /** The block lies inside a chunk of the chain and apart from every header. */
    ghost predicate IsPlaced(block: Block)
      reads this, Linears(nodes)
    {
      && (exists i :: 0 <= i < |nodes| && Holds(nodes[i].linear.chunk, block))
      && (forall i | 0 <= i < |nodes| :: Disjoint(block, Block(nodes[i].linear.chunk.addr, header.size)))
    }

    /**
     * A whole run: every request is served in turn, `answers` being what the
     * backing allocator says to the i-th of them, and `lent` what it has lent
     * out from before the first to after the last. All blocks of the run and
     * those handed out before it are pairwise disjoint, inside a chunk and clear
     * of every header. A request goes unserved only for a zero size, an
     * overflowing size or a failing answer, and the backing allocator lends the
     * chunks the chain has grown by and no other.
     */
    method AllocateAll(layouts: seq<Layout>, answers: Answers)
      returns (blocks: seq<Option<Block>>, ghost lent: seq<set<Chunk>>)
      requires Valid() && IsFair(answers) && forall i | 0 <= i < |layouts| :: layouts[i].Valid()
      modifies this, backing, Linears(nodes)
      ensures Valid() && Borrows(old(nodes), old(backing.live), nodes, backing.live) && Used() >= old(Used())
      ensures fresh(Linears(nodes) - old(Linears(nodes)))
      ensures |blocks| == |layouts| == |lent| - 1
      ensures lent[0] == old(backing.live) && lent[|layouts|] == backing.live
      ensures forall i | 0 <= i < |blocks| :: IsServed(layouts[i], blocks[i], answers, i, lent[i], lent[i + 1])
      ensures forall i | 0 <= i < |blocks| && blocks[i].Some? :: IsPlaced(blocks[i].value)
      ensures forall i, k | 0 <= i < |blocks| && blocks[i].Some? && 0 <= k < |old(handed)| ::
                Disjoint(old(handed)[k].block, blocks[i].value)
      ensures forall i, j | 0 <= i < j < |blocks| && blocks[i].Some? && blocks[j].Some? ::
                Disjoint(blocks[i].value, blocks[j].value)
    {
      hide Valid, IsPow2, IsAligned, Disjoint, Used, Request, IsTooLarge, Sized, AreHanded, Borrows;
      blocks, lent := [], [backing.live];
      NoneHanded(handed);
      BorrowsNothing(nodes, backing.live);
      ghost var from := handed;
      for i := 0 to |layouts|
        invariant Valid() && Borrows(old(nodes), old(backing.live), nodes, backing.live) && Used() >= old(Used())
        invariant fresh(Linears(nodes) - old(Linears(nodes)))
        invariant |blocks| == |lent| - 1 == i && AreHanded(blocks, from, handed)
        invariant lent[0] == old(backing.live) && lent[i] == backing.live
        invariant forall j | 0 <= j < i :: IsServed(layouts[j], blocks[j], answers, j, lent[j], lent[j + 1])
      {
        label L:
        HeaderFits();
        RequestIff(layouts[i]);
        var request := Request(layouts[i]);
        var answer := if request.Some? then answers(i, backing.live, request.value) else None;
        var block := Allocate(layouts[i], answer);
        BorrowsMore(old(nodes), old(backing.live), old@L(nodes), old@L(backing.live), nodes, backing.live);
        if block.Some? {
          OneHanded(blocks, from, old@L(handed), handed[|handed| - 1]);
        } else {
          NotHanded(blocks, from, handed);
        }
        blocks, lent := blocks + [block], lent + [backing.live];
      }
      RunIsApart(blocks, from);
    }

    /** What one request of a run got, with what was lent out before and after it. */
    ghost predicate IsServed(layout: Layout, block: Option<Block>, answers: Answers, i: nat, lent: set<Chunk>, after: set<Chunk>)
      requires layout.Valid()
    {
      var answer := if Request(layout).Some? then answers(i, lent, Request(layout).value) else None;
      && (after == lent || (answer.Some? && after == lent + {answer.value}))
      && if block.Some? then
           layout.size <= block.value.len && IsAligned(block.value.addr, layout.align)
         else
           after == lent && (layout.size == 0 || IsTooLarge(layout) || (Request(layout).Some? && answer.None?))
    }

    lemma RunIsApart(blocks: seq<Option<Block>>, from: seq<Handed>)
      requires Valid() && AreHanded(blocks, from, handed)
      ensures forall i | 0 <= i < |blocks| && blocks[i].Some? :: IsPlaced(blocks[i].value)
      ensures forall i, k | 0 <= i < |blocks| && blocks[i].Some? && 0 <= k < |from| ::
                Disjoint(from[k].block, blocks[i].value)
      ensures forall i, j | 0 <= i < j < |blocks| && blocks[i].Some? && blocks[j].Some? ::
                Disjoint(blocks[i].value, blocks[j].value)
    {
      assert AllDisjoint(handed);
      hide Valid, AllDisjoint, Disjoint, IsPlaced, AreHanded;
      HandedAreApart(blocks, from, handed);
      forall i | 0 <= i < |blocks| && blocks[i].Some? ensures IsPlaced(blocks[i].value) {
        var k :| 0 <= k < |handed| && handed[k].block == blocks[i].value;
        HandedIsPlaced(k);
      }
    }

    lemma HandedIsPlaced(k: nat)
      requires Valid() && k < |handed|
      ensures IsPlaced(handed[k].block)
    {
      var home := handed[k].home;
      assert nodes[home].linear.Valid();
      assert Holds(nodes[home].linear.chunk, handed[k].block);
      forall i | 0 <= i < |nodes| ensures Disjoint(handed[k].block, Block(nodes[i].linear.chunk.addr, header.size)) {
        BlocksAvoidHeaders(k, i);
      }
    }

    // ---------- Walking the chain ----------

    /** The node that has `k` nodes from itself down to the oldest. */
    ghost function At(k: nat): ChainNode?
      requires k <= |nodes|
      reads this
    {
      if k == 0 then null else nodes[k - 1]
    }

    lemma PrevAt(k: nat)
      requires Linked() && 0 < k <= |nodes|
      ensures At(k) != null && At(k).prev == At(k - 1)
    {
      if k > 1 {
        assert nodes[k - 1].prev == nodes[k - 2];
      }
    }

    /** Adds up the chunk lengths from a node down. */
    method CapacityHelper(from: ChainNode?, ghost k: nat) returns (capacity: nat)
      requires Linked() && k <= |nodes| && from == At(k)
      ensures capacity == Reserved(nodes[..k])
    {
      var ptr := from;
      capacity := 0;
      ghost var left := k;
      while ptr != null
        invariant 0 <= left <= k && ptr == At(left)
        invariant capacity + Reserved(nodes[..left]) == Reserved(nodes[..k])
        decreases left
      {
        PrevAt(left);
        assert nodes[..left][..left - 1] == nodes[..left - 1];
        capacity := capacity + ptr.linear.chunk.len;
        ptr := ptr.prev;
        left := left - 1;
      }
    }

    method ReservedBytes() returns (n: nat)
      requires Valid()
      ensures n == Reserved(nodes)
    {
      assert nodes[..|nodes|] == nodes;
      n := CapacityHelper(top, |nodes|);
    }

    /** Never more than the bytes reserved, and with every allocation at least as many as before. */
    method UsedBytes() returns (n: nat)
      requires Valid()
      ensures n == Used() <= Reserved(nodes)
    {
      TopFits();
      if top == null {
        return 0;
      }
      PrevAt(|nodes|);
      var below := CapacityHelper(top.prev, |nodes| - 1);
      return top.linear.used + below;
    }

    /** Gives every chunk back to the backing allocator exactly once, as it was lent. */
    method Drop()
      requires Valid()
      modifies backing
      ensures backing.live == old(backing.live) - Chunks(nodes)
    {
      hide Headed, Placed, AllDisjoint, Sized, Disjoint;
      var ptr := top;
      ghost var left := |nodes|;
      assert Chunks(nodes[|nodes|..]) == {};
      while ptr != null
        invariant 0 <= left <= |nodes| && ptr == At(left)
        invariant backing.live == old(backing.live) - Chunks(nodes[left..])
        decreases left
      {
        PrevAt(left);
        ChunkIsNew(nodes, left - 1);
        ChunksFrom(nodes, left - 1);
        var linear := ptr.linear;
        ptr := ptr.prev;
        backing.Deallocate(linear.chunk);
        left := left - 1;
      }
      assert nodes[0..] == nodes;
    }

    /** The life of a chain: whatever is allocated, dropping it leaves the backing allocator as it was before. */
    static method Lifetime(chunkSizeHint: nat, header: Layout, backing: Backing, layouts: seq<Layout>, answers: Answers)
      requires header.Valid() && 0 < header.size && IsAligned(header.size, header.align)
      requires IsFair(answers) && forall i | 0 <= i < |layouts| :: layouts[i].Valid()
      modifies backing
      ensures backing.live == old(backing.live)
    {
      hide ChainAllocator.Valid, IsPow2, IsAligned;
      var chain := new ChainAllocator(chunkSizeHint, header, backing);
      var _, _ := chain.AllocateAll(layouts, answers);
      assert chain.nodes[0..] == chain.nodes;
      chain.Drop();
    }

    /** No block handed out touches a chunk header, its own or another's. */
    lemma BlocksAvoidHeaders(k: nat, i: nat)
      requires Valid() && k < |handed| && i < |nodes|
      ensures Disjoint(handed[k].block, Block(nodes[i].linear.chunk.addr, header.size))
    {
      var home := handed[k].home;
      assert nodes[home].linear.Valid() && nodes[i].linear.Valid() && header.size <= nodes[i].linear.used;
      if home < i {
        assert Apart(nodes[home].linear.chunk, nodes[i].linear.chunk);
      } else if i < home {
        assert Apart(nodes[i].linear.chunk, nodes[home].linear.chunk);
      }
    }
  }
}
