/** Whole runs of the allocator (lj_alloc.c): for a program that calls lj_alloc_f and writes its
    bytes, memory is a store of separate blocks. */
module AllocRun {
  import opened ByteStrings
  import opened AllocSizes
  import opened AllocTiles
  import opened AllocSpace
  import opened AllocKeep
  import opened AllocSteps
  import opened AllocGrow
  import opened AllocFacts
  import opened AllocMspace

  /** A block of the ideal store. */
  datatype Block = Nothing | Bytes(bytes: seq<Byte>)

  /** The program has its pointers in slots. It asks for a block of another size, where 0 gives the
      block back, or writes a byte. */
  datatype Op = Resize(slot: nat, size: nat) | Write(slot: nat, i: nat, v: Byte)

  /** `c` has the first bytes of `b`, as many as there are in both. */
  predicate SamePrefix(b: seq<Byte>, c: seq<Byte>) {
    forall i :: 0 <= i < |b| && i < |c| ==> c[i] == b[i]
  }

  /** What an operation does to the ideal store. A request for memory may be declined. */
  predicate Step(op: Op, b: seq<Block>, b1: seq<Block>) {
    |b1| == |b| &&
    match op
    case Resize(k, n) =>
      (forall j :: 0 <= j < |b| && j != k ==> b1[j] == b[j]) &&
      (k < |b| ==>
         if n == 0 then b1[k] == Nothing
         else b1[k] == b[k] || (b1[k].Bytes? && |b1[k].bytes| == n && (b[k].Bytes? ==> SamePrefix(b[k].bytes, b1[k].bytes))))
    case Write(k, i, v) =>
      b1 == if k < |b| && b[k].Bytes? && i < |b[k].bytes| then b[k := Bytes(b[k].bytes[i := v])] else b
  }

  // ------------------------------------------------------------ the store and the memory

  predicate ByteIs(m: Memory, a: nat, b: seq<Byte>, i: nat)
    requires i < |b|
  {
    m(a + i) == b[i]
  }

  /** A pointer to a live chunk with the block's size and contents, or null. */
  ghost predicate BlockAt(s: Space, m: Memory, a: nat, b: Block) {
    if b.Nothing? then a == 0
    else a >= 8 && a - 8 in s.live && s.live[a - 8] == |b.bytes| && forall i: nat {:trigger ByteIs(m, a, b.bytes, i)} :: i < |b.bytes| ==> ByteIs(m, a, b.bytes, i)
  }

  /** No two slots have the same pointer. */
  predicate OwnSlots(slots: seq<nat>) {
    forall j, k {:trigger slots[j], slots[k]} :: 0 <= j < |slots| && 0 <= k < |slots| && j != k && slots[j] != 0 ==> slots[j] != slots[k]
  }

  /** Every live chunk is in some slot. */
  predicate NoLeak(live: map<nat, nat>, slots: seq<nat>) {
    forall p {:trigger p in live} :: p in live ==> p + 8 in slots
  }

  ghost predicate Blocks(s: Space, m: Memory, slots: seq<nat>, b: seq<Block>) {
    |slots| == |b| && forall k: nat {:trigger BlockAt(s, m, slots[k], b[k])} :: k < |b| ==> BlockAt(s, m, slots[k], b[k])
  }

  /** The pointers are those of the blocks. */
  ghost predicate Mirror(s: Space, m: Memory, slots: seq<nat>, b: seq<Block>) {
    Blocks(s, m, slots, b) && OwnSlots(slots) && NoLeak(s.live, slots)
  }

  lemma MirrorAt(s: Space, m: Memory, slots: seq<nat>, b: seq<Block>, k: nat)
    requires Mirror(s, m, slots, b) && k < |b|
    ensures |slots| == |b| && BlockAt(s, m, slots[k], b[k])
  {
  }

  lemma MirrorPair(s: Space, m: Memory, slots: seq<nat>, b: seq<Block>, j: nat, k: nat)
    requires Mirror(s, m, slots, b) && j < |b| && k < |b| && j != k
    ensures |slots| == |b| && (slots[j] != 0 ==> slots[j] != slots[k])
  {
  }

  /** The blocks are aligned and have no byte in common. */
  lemma BlocksApart(s: Space, m: Memory, slots: seq<nat>, b: seq<Block>, j: nat, k: nat, x: nat, y: nat)
    requires Ok(s, {}) && Mirror(s, m, slots, b) && j < |b| && k < |b| && j != k
    requires b[j].Bytes? && x < |b[j].bytes| && b[k].Bytes? && y < |b[k].bytes|
    ensures |slots| == |b| && slots[j] % 8 == 0 && slots[j] + x != slots[k] + y
  {
    hide Ok;
    MirrorAt(s, m, slots, b, j);
    MirrorAt(s, m, slots, b, k);
    MirrorPair(s, m, slots, b, j, k);
    PayloadFits(s, {}, slots[j] - 8, x);
    PayloadFits(s, {}, slots[k] - 8, y);
    if slots[j] + x == slots[k] + y { PayloadsApart(s, {}, slots[j] - 8, slots[k] - 8, slots[j] + x); }
  }

  /** A block that is not touched. */
  lemma BlockKept(s: Space, m: Memory, s1: Space, m1: Memory, skip: nat, a: nat, b: Block)
    requires Ok(s, {}) && BlockAt(s, m, a, b) && Keeps(s, m, s1, m1, skip) && (a >= 8 ==> a - 8 != skip)
    ensures BlockAt(s1, m1, a, b)
  {
    if b.Bytes? {
      assert SameChunk(s, s1, a - 8);
      hide Ok, Keeps;
      forall i: nat | i < |b.bytes|
        ensures ByteIs(m1, a, b.bytes, i)
      {
        assert ByteIs(m, a, b.bytes, i);
        PayloadFits(s, {}, a - 8, i);
        KeptAt(s, m, s1, m1, skip, a - 8, a + i);
      }
    }
  }

  /** What there is in `n` bytes from `a` on. */
  ghost function Contents(m: Memory, a: nat, n: nat): (b: seq<Byte>)
    ensures |b| == n && forall i: nat {:trigger ByteIs(m, a, b, i)} :: i < n ==> ByteIs(m, a, b, i)
  {
    seq(n, i requires 0 <= i => m(a + i))
  }

  /** The block of one slot after a call of the allocator. */
  ghost function BlockAfter(m1: Memory, b: Block, nsize: nat, r: nat): Block {
    if nsize == 0 then Nothing else if r == 0 then b else Bytes(Contents(m1, r, nsize))
  }

  function SlotAfter(ptr: nat, nsize: nat, r: nat): nat { if nsize != 0 && r == 0 then ptr else r }

  /** Which chunk a call of the allocator gives up. */
  function GivenUp(ptr: nat, nsize: nat, r: nat): nat { if ptr >= 8 && (nsize == 0 || r != 0) then ptr - 8 else 0 }

  lemma ServedKeeps(s: Space, m: Memory, s1: Space, m1: Memory, ptr: nat, nsize: nat, r: nat)
    requires Served(s, m, s1, m1, ptr, nsize, r)
    ensures Keeps(s, m, s1, m1, GivenUp(ptr, nsize, r))
    ensures nsize != 0 && r != 0 ==> r >= 8 && r - 8 in s1.live && s1.live[r - 8] == nsize && (r == ptr || r - 8 !in s.live)
    ensures forall p {:trigger p in s1.live} :: p in s1.live && p + 8 != r ==> p in s.live && p + 8 != (if nsize == 0 || r != 0 then ptr else 0)
  {
    hide Keeps;
  }

  /** The slot of the call. */
  lemma ServedBlock(s: Space, m: Memory, s1: Space, m1: Memory, ptr: nat, nsize: nat, r: nat, b: Block)
    requires Ok(s, {}) && BlockAt(s, m, ptr, b) && Served(s, m, s1, m1, ptr, nsize, r)
    ensures BlockAt(s1, m1, SlotAfter(ptr, nsize, r), BlockAfter(m1, b, nsize, r))
  {
    ServedKeeps(s, m, s1, m1, ptr, nsize, r);
    if nsize != 0 && r == 0 {
      NullNotLive(s, {});
      BlockKept(s, m, s1, m1, 0, ptr, b);
    }
  }

  lemma ServedPrefix(s: Space, m: Memory, s1: Space, m1: Memory, ptr: nat, nsize: nat, r: nat, b: Block)
    requires Ok(s, {}) && BlockAt(s, m, ptr, b) && b.Bytes? && Served(s, m, s1, m1, ptr, nsize, r) && nsize != 0 && r != 0
    ensures r >= 8 && SamePrefix(b.bytes, Contents(m1, r, nsize))
  {
    hide Ok, Keeps;
    NullNotLive(s, {});
    var c := Contents(m1, r, nsize);
    forall i: nat | i < |b.bytes| && i < |c|
      ensures c[i] == b.bytes[i]
    {
      assert ByteIs(m, ptr, b.bytes, i) && ByteIs(m1, r, c, i);
      assert SameByte(m, ptr - 8, m1, r - 8, i);
    }
  }

  /** The other slots. */
  lemma ServedBlocks(s: Space, m: Memory, s1: Space, m1: Memory, slots: seq<nat>, b: seq<Block>, k: nat, nsize: nat, r: nat)
    requires Ok(s, {}) && Mirror(s, m, slots, b) && k < |b| == |slots| && Served(s, m, s1, m1, slots[k], nsize, r)
    ensures Blocks(s1, m1, slots[k := SlotAfter(slots[k], nsize, r)], b[k := BlockAfter(m1, b[k], nsize, r)])
  {
    var ptr := slots[k];
    var slots1, b1 := slots[k := SlotAfter(ptr, nsize, r)], b[k := BlockAfter(m1, b[k], nsize, r)];
    MirrorAt(s, m, slots, b, k);
    ServedKeeps(s, m, s1, m1, ptr, nsize, r);
    ServedBlock(s, m, s1, m1, ptr, nsize, r, b[k]);
    NullNotLive(s, {});
    hide Ok, Keeps, Served, BlockAfter;
    forall j: nat | j < |b1|
      ensures BlockAt(s1, m1, slots1[j], b1[j])
    {
      if j != k {
        MirrorAt(s, m, slots, b, j);
        MirrorPair(s, m, slots, b, j, k);
        BlockKept(s, m, s1, m1, GivenUp(ptr, nsize, r), slots[j], b[j]);
      }
    }
  }

  lemma SlotsStayOwn(s: Space, m: Memory, slots: seq<nat>, b: seq<Block>, k: nat, a: nat)
    requires Mirror(s, m, slots, b) && k < |slots| && (a == slots[k] || a == 0 || (a >= 8 && a - 8 !in s.live))
    ensures OwnSlots(slots[k := a])
  {
    forall j: nat | j < |slots| && slots[j] != 0
      ensures slots[j] >= 8 && slots[j] - 8 in s.live
    {
      MirrorAt(s, m, slots, b, j);
    }
  }

  lemma NoneLeaks(live: map<nat, nat>, live1: map<nat, nat>, slots: seq<nat>, k: nat, a: nat)
    requires NoLeak(live, slots) && k < |slots|
    requires forall p {:trigger p in live1} :: p in live1 ==> p + 8 == a || (p in live && p + 8 != slots[k])
    ensures NoLeak(live1, slots[k := a])
  {
    var slots1 := slots[k := a];
    forall p | p in live1
      ensures p + 8 in slots1
    {
      if p + 8 == a {
        assert slots1[k] == p + 8;
      } else {
        var i :| 0 <= i < |slots| && slots[i] == p + 8;
        assert slots1[i] == p + 8;
      }
    }
  }

  /** A call of the allocator for slot `k` is a step of the store. */
  lemma ServedMirror(s: Space, m: Memory, s1: Space, m1: Memory, slots: seq<nat>, b: seq<Block>, k: nat, nsize: nat, r: nat)
    requires Ok(s, {}) && Mirror(s, m, slots, b) && k < |b| == |slots| && Served(s, m, s1, m1, slots[k], nsize, r)
    ensures Mirror(s1, m1, slots[k := SlotAfter(slots[k], nsize, r)], b[k := BlockAfter(m1, b[k], nsize, r)])
    ensures Step(Resize(k, nsize), b, b[k := BlockAfter(m1, b[k], nsize, r)])
  {
    var ptr := slots[k];
    ServedBlocks(s, m, s1, m1, slots, b, k, nsize, r);
    ServedKeeps(s, m, s1, m1, ptr, nsize, r);
    MirrorAt(s, m, slots, b, k);
    if b[k].Bytes? && nsize != 0 && r != 0 { ServedPrefix(s, m, s1, m1, ptr, nsize, r, b[k]); }
    hide Ok, Keeps;
    SlotsStayOwn(s, m, slots, b, k, SlotAfter(ptr, nsize, r));
    NoneLeaks(s.live, s1.live, slots, k, SlotAfter(ptr, nsize, r));
  }

  // -------------------------------------------------------------- what is kept all along

  /** Every address of a segment below its limit is in exactly one chunk. */
  lemma TiledOnce(m: Mspace, i: nat, x: nat) returns (p: nat)
    requires m.Inv({}) && i < |m.segs| && i < |m.limits| && m.segs[i].base <= x < m.limits[i]
    ensures p in m.tiles && p <= x < End(m.tiles, p)
    ensures forall q {:trigger q in m.tiles} :: q in m.tiles && q <= x < End(m.tiles, q) ==> q == p
  {
    p := Covered(m.tiles, m.segs, m.limits, i, x);
    hide Geo, Tags, Lone, Binned, Owned, Directs;
    forall q | q in m.tiles && q <= x < End(m.tiles, q) ensures q == p { CoveredOnce(m.tiles, m.segs, m.limits, p, q, x); }
  }

  /** A free chunk is the top chunk, the designated victim, or in the bin of its size; it has its
      tags, and both its neighbours are in use. */
  lemma FreeOnce(m: Mspace, p: nat)
    requires m.Inv({}) && p in m.tiles && !m.tiles[p].used
    ensures p in m.bins.free <==> p != m.top && p != m.dv
    ensures p in m.bins.free ==> m.bins.free[p] == m.tiles[p].size
    ensures m.top != m.dv
    ensures p in m.heads && m.heads[p] == Head(m.tiles[p].size, false, true)
    ensures p != m.top ==> End(m.tiles, p) in m.foots && m.foots[End(m.tiles, p)] == m.tiles[p].size
    ensures End(m.tiles, p) in m.tiles ==> m.tiles[End(m.tiles, p)].used
    ensures forall q {:trigger q in m.tiles} :: q in m.tiles && End(m.tiles, q) == p ==> m.tiles[q].used
  {
    var s := m.View();
    BinnedIs(s.free, s.tiles, s.top, s.dv, {}, p);
    DvIs(s, {});
    TopEnd(s, {});
    FreePin(s.tiles, s.segs, s.limits, s.heads, s.foots, s.top, p);
    TagAt(s.heads, s.foots, s.tiles, s.top, p);
    LoneIs(s.tiles, p);
    NoNull2(s);
    hide Ok;
    forall q | q in m.tiles && End(m.tiles, q) == p ensures m.tiles[q].used { UsedBefore(s, q); }
  }

  lemma UsedBefore(s: Space, q: nat)
    requires Ok(s, {}) && q in s.tiles && End(s.tiles, q) in s.tiles
    ensures !s.tiles[q].used ==> s.tiles[End(s.tiles, q)].used
  {
    LoneIs(s.tiles, q);
  }

  // ------------------------------------------------------------------------ writing

  lemma WrittenMirror(s: Space, m: Memory, m1: Memory, slots: seq<nat>, b: seq<Block>, k: nat, i: nat, v: Byte)
    requires Ok(s, {}) && Mirror(s, m, slots, b) && k < |b| == |slots| && b[k].Bytes? && i < |b[k].bytes|
    requires m1(slots[k] + i) == v && forall x: nat {:trigger m1(x)} :: x != slots[k] + i ==> m1(x) == m(x)
    ensures Mirror(s, m1, slots, b[k := Bytes(b[k].bytes[i := v])])
  {
    var b1 := b[k := Bytes(b[k].bytes[i := v])];
    MirrorAt(s, m, slots, b, k);
    forall j: nat | j < |b1|
      ensures BlockAt(s, m1, slots[j], b1[j])
    {
      MirrorAt(s, m, slots, b, j);
      if b[j].Bytes? {
        forall y: nat | y < |b[j].bytes|
          ensures ByteIs(m1, slots[j], b1[j].bytes, y)
        {
          assert ByteIs(m, slots[j], b[j].bytes, y);
          if j != k { BlocksApart(s, m, slots, b, j, k, y, i); }
        }
      }
    }
  }

  /** For every run there are blocks that the operations change as in the ideal store: after it,
      each slot has the pointer to a chunk with its block's size and contents. */
  method Run(tbase: nat, n: nat, ops: seq<Op>, sys: System) returns (m: Mspace, slots: seq<nat>, ghost trace: seq<seq<Block>>)
    requires tbase > 0 && tbase % PAGE == 0 && tbase + UNIT <= WORD
    requires forall k :: 0 <= k < |ops| && ops[k].Resize? ==> ops[k].size < WORD
    ensures m.Inv({}) && |trace| == |ops| + 1 && trace[0] == seq(n, _ => Nothing) && Mirror(m.View(), m.mem, slots, trace[|ops|])
    ensures forall k {:trigger ops[k]} :: 0 <= k < |ops| ==> Step(ops[k], trace[k], trace[k + 1])
  {
    hide Ok, Served, Mirror, Step;
    m := new Mspace(tbase, sys);
    slots := seq(n, _ => 0);
    trace := [seq(n, _ => Nothing)];
    NoBlocks(m.View(), m.mem, slots, trace[0]);
    for j := 0 to |ops|
      invariant fresh(m) && fresh(m.bins) && fresh(m.bins.treebins) && m.Inv({}) && |trace| == j + 1 && trace[0] == seq(n, _ => Nothing)
      invariant Mirror(m.View(), m.mem, slots, trace[j]) && |slots| == n
      invariant forall k {:trigger ops[k]} :: 0 <= k < j ==> Step(ops[k], trace[k], trace[k + 1])
    {
      ghost var b1: seq<Block>;
      slots, b1 := Perform(m, slots, ops[j], trace[j]);
      trace := trace + [b1];
    }
  }

  lemma NoBlocks(s: Space, m: Memory, slots: seq<nat>, b: seq<Block>)
    requires s.live == map[] && |slots| == |b| && (forall k :: 0 <= k < |b| ==> slots[k] == 0 && b[k] == Nothing)
    ensures Mirror(s, m, slots, b)
  {
  }

  lemma SlotIs(s: Space, m: Memory, slots: seq<nat>, b: seq<Block>, k: nat)
    requires Mirror(s, m, slots, b) && k < |slots|
    ensures |slots| == |b| && (slots[k] != 0 ==> slots[k] >= 8 && slots[k] - 8 in s.live && b[k].Bytes? && s.live[slots[k] - 8] == |b[k].bytes|)
    ensures slots[k] == 0 ==> b[k] == Nothing
  {
    MirrorAt(s, m, slots, b, k);
  }

  lemma SameSize(s: Space, m: Memory, slots: seq<nat>, b: seq<Block>)
    requires Mirror(s, m, slots, b)
    ensures |slots| == |b|
  {
  }

  lemma NoStep(op: Op, b: seq<Block>)
    requires op.slot >= |b| || (op.Write? && !(b[op.slot].Bytes? && op.i < |b[op.slot].bytes|))
    ensures Step(op, b, b)
  {
  }

  /** One operation of the program. What it has no block for, it leaves undone. */
  method Perform(m: Mspace, slots: seq<nat>, op: Op, ghost b: seq<Block>) returns (slots1: seq<nat>, ghost b1: seq<Block>)
    requires m.Inv({}) && Mirror(m.View(), m.mem, slots, b) && (op.Resize? ==> op.size < WORD)
    modifies m, m.bins, m.bins.treebins
    ensures m.Inv({}) && Mirror(m.View(), m.mem, slots1, b1) && Step(op, b, b1) && |slots1| == |slots|
  {
    hide Ok, Served, Mirror, Step, BlockAfter;
    ghost var s0, m0 := m.View(), m.mem;
    SameSize(s0, m0, slots, b);
    slots1, b1 := slots, b;
    var k := op.slot;
    if k >= |slots| {
      NoStep(op, b);
    } else {
      SlotIs(s0, m0, slots, b, k);
      match op {
        case Resize(_, nsize) =>
          var r := m.Alloc(slots[k], nsize);
          slots1, b1 := slots[k := SlotAfter(slots[k], nsize, r)], b[k := BlockAfter(m.mem, b[k], nsize, r)];
          ServedMirror(s0, m0, m.View(), m.mem, slots, b, k, nsize, r);
        case Write(_, i, v) =>
          if slots[k] != 0 && i < |b[k].bytes| {
            m.Store(slots[k] - 8, i, v);
            b1 := b[k := Bytes(b[k].bytes[i := v])];
            WrittenMirror(s0, m0, m.mem, slots, b, k, i, v);
            Written(op, b);
          } else {
            NoStep(op, b);
          }
      }
    }
  }

  lemma Written(op: Op, b: seq<Block>)
    requires op.Write? && op.slot < |b| && b[op.slot].Bytes? && op.i < |b[op.slot].bytes|
    ensures Step(op, b, b[op.slot := Bytes(b[op.slot].bytes[op.i := op.v])])
  {
  }
}
