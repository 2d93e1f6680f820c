/** The allocator (lj_alloc.c): an object that changes tags, bins, designated victim and top chunk
    step by step. */
module AllocMspace {
  import opened ByteStrings
  import opened AllocSizes
  import opened AllocTiles
  import opened AllocSpace
  import opened AllocKeep
  import opened AllocBins
  import opened AllocBinOps
  import opened AllocFit
  import opened AllocSteps
  import opened AllocSystem
  import opened AllocSegments
  import opened AllocGrow
  import opened AllocFacts

  class Mspace {
    const bins: Bins
    var heads: Heads
    var foots: Foots
    var segs: seq<Seg>
    var top: nat
    var topsize: nat
    var dv: nat
    var dvsize: nat
    /** The chunks that are mapped on their own: what the system knows of them. */
    var direct: map<nat, nat>
    /** Where the list of segments has its nodes. */
    var recs: seq<nat>
    var trimCheck: nat
    var releaseChecks: nat
    /** What the system will answer. */
    var sys: System
    ghost var tiles: Tiles
    ghost var limits: seq<nat>
    ghost var live: map<nat, nat>
    ghost var internal: set<nat>
    /** All bytes of memory; words and links are kept apart, but writing them changes the bytes. */
    ghost var mem: Memory

    ghost function View(): Space
      reads this, bins
    {
      Space(heads, foots, tiles, segs, limits, top, topsize, dv, dvsize, direct, live, internal, bins.free)
    }

    /** The chunks in `loose` are free but not accounted for. */
    ghost predicate Inv(loose: set<nat>)
      reads this, bins, bins.treebins
    {
      bins.Valid() && Ok(View(), loose) && Listed(segs, recs)
    }

    /** lj_alloc_create, for memory that the system has mapped at `tbase`. */
    constructor (tbase: nat, sys: System)
      requires tbase > 0 && tbase % PAGE == 0 && tbase + UNIT <= WORD
      ensures Inv({}) && fresh(bins) && fresh(bins.treebins) && live == map[] && this.sys == sys
    {
      var s := Created(tbase);
      CreatedOk(tbase);
      bins := new Bins();
      heads, foots, segs, top, topsize, dv, dvsize, direct := s.heads, s.foots, s.segs, s.top, s.topsize, 0, 0, map[];
      recs, trimCheck, releaseChecks := [tbase + 8 + 424], TRIM_THRESHOLD, RELEASE_RATE;
      tiles, limits, live, internal := s.tiles, s.limits, s.live, s.internal;
      mem := *;
      this.sys := sys;
      new;
      assert View() == s;
    }

    // -------------------------------------------------------------- words in memory

    /** p->head = h */
    method SetHead(p: nat, h: Head)
      modifies this`heads, this`mem
      ensures HeadSet(old(heads), heads, p, h) && forall x: nat {:trigger mem(x)} :: !(p + 4 <= x < p + 8) ==> mem(x) == old(mem)(x)
    {
      heads := heads[p := h];
      ghost var f: Memory, g := *, mem;
      mem := (x: nat) => if p + 4 <= x < p + 8 then f(x) else g(x);
    }

    /** p->prev_foot = v */
    method SetFoot(p: nat, v: nat)
      modifies this`foots, this`mem
      ensures FootSet(old(foots), foots, p, v) && forall x: nat {:trigger mem(x)} :: !(p <= x < p + 4) ==> mem(x) == old(mem)(x)
    {
      foots := foots[p := v];
      ghost var f: Memory, g := *, mem;
      mem := (x: nat) => if p <= x < p + 4 then f(x) else g(x);
    }

    /** Links are written in the free chunks. */
    ghost method SetLinks(free: map<nat, nat>, p: nat, s: nat)
      modifies this`mem
      ensures LinksOnly(free, p, s, old(mem), mem)
    {
      var f: Memory, g := *, mem;
      mem := (x: nat) => if exists q: nat :: LinkByte(free, p, s, x, q) then f(x) else g(x);
    }

    // ------------------------------------------------------------------------- bins

    /** unlink_chunk */
    method Unlink(p: nat, s: nat)
      requires bins.Valid() && p in bins.free && bins.free[p] == s
      modifies this`mem, bins, bins.treebins
      ensures bins.Valid() && bins.free == old(bins.free) - {p} && LinksOnly(old(bins.free), p, s, old(mem), mem)
    {
      hide LinksOnly;
      ghost var free := bins.free;
      if IsSmall(s) {
        bins.UnlinkSmall(p, s);
      } else {
        bins.UnlinkLarge(p);
      }
      SetLinks(free, p, s);
    }

    /** The same on a state in order. */
    method UnlinkChunk(p: nat, s: nat, ghost loose: set<nat>)
      requires Inv(loose) && p in bins.free && bins.free[p] == s
      modifies this`mem, bins, bins.treebins
      ensures Inv(loose + {p}) && View() == old(View()).(free := old(bins.free) - {p})
      ensures Keeps(old(View()), old(mem), View(), mem, 0)
    {
      hide Ok, Listed, Keeps, LinksOnly, MemKept;
      ghost var s0 := View();
      TakeOut(s0, loose, p);
      Unlink(p, s);
      KeptLinks(s0, loose, p, old(mem), mem, 0);
      KeepsSelf(s0, loose, View(), old(mem), mem);
    }

    /** unlink_first_small_chunk */
    method UnlinkFirst(i: nat) returns (p: nat)
      requires Inv({}) && i < BINS && bins.smallmap[i]
      modifies this`mem, bins, bins.treebins
      ensures Inv({p}) && p in old(bins.free) && old(bins.free)[p] == 8 * i && View() == old(View()).(free := old(bins.free) - {p})
      ensures Keeps(old(View()), old(mem), View(), mem, 0)
    {
      hide Ok, Listed, Keeps, LinksOnly, MemKept;
      ghost var s0 := View();
      p := bins.UnlinkFirst(i);
      TakeOut(s0, {}, p);
      assert {} + {p} == {p};
      SetLinks(s0.free, p, 8 * i);
      KeptLinks(s0, {}, p, old(mem), mem, 0);
      KeepsSelf(s0, {}, View(), old(mem), mem);
    }

    /** insert_chunk */
    method InsertChunk(p: nat, s: nat, ghost loose: set<nat>)
      requires Inv(loose) && p in loose && p in tiles && tiles[p].size == s
      modifies this`mem, bins, bins.treebins
      ensures Inv(loose - {p}) && View() == old(View()).(free := old(bins.free)[p := s])
      ensures Keeps(old(View()), old(mem), View(), mem, 0)
    {
      hide Ok, Listed, Keeps, LinksOnly, MemKept;
      ghost var s0 := View();
      PutInto(s0, loose, p);
      LooseChunk(s0, loose, p);
      if IsSmall(s) {
        bins.InsertSmall(p, s);
      } else {
        bins.InsertLarge(p, s);
      }
      SetLinks(s0.free, p, s);
      KeptLinks(s0, loose, p, old(mem), mem, 0);
      KeepsSelf(s0, loose, View(), old(mem), mem);
    }

    // ------------------------------------------------------------- taking free chunks

    /** The program gets a chunk from `p` to `r`; from there to `b` there is another one, if any. */
    ghost method Hand(p: nat, r: nat, b: nat, u: bool, n: nat)
      requires p < r <= b
      modifies this`tiles, this`live
      ensures Retiles(old(tiles), tiles, p, r, b, true, u) && LiveSet(old(live), live, p, n)
    {
      RetilesIs(tiles, p, r, b, true, u);
      LiveSetIs(live, p, n);
      tiles, live := Retile(tiles, p, r, b, true, u), live[p := n];
    }

    /** set_inuse_and_pinuse for a free chunk that is in no bin: all of it is used. */
    method UseAll(p: nat, s: nat, ghost n: nat)
      requires Inv({p}) && p in tiles && tiles[p] == Tile(s, false) && n + 4 <= s
      modifies this`heads, this`mem, this`tiles, this`live
      ensures Inv({}) && p !in old(live) && LiveSet(old(live), live, p, n) && p in tiles && tiles[p] == Tile(s, true)
      ensures Keeps(old(View()), old(mem), View(), mem, 0)
    {
      hide Ok, Listed, Keeps, WritesWithin, Retile, Retiles, AllOk, NoSlots, HeadSet, LiveSet;
      ghost var s0 := View();
      HeadsAt(s0, {p}, p);
      SetHead(p, Head(s, true, true));
      ghost var h := heads;
      HeadStays(s0.heads, h, p, Head(s, true, true), p + s);
      SetHead(p + s, heads[p + s].(pin := true));
      Within2(old(mem), mem, p, p + s);
      Hand(p, p + s, p + s, true, n);
      TakenStep(s0, View(), h, old(mem), mem, p, s, n);
    }

    /** set_size_and_pinuse_of_inuse_chunk and set_size_and_pinuse_of_free_chunk: the front of a
        free chunk is used, the rest is in `loose`. */
    method SplitChunk(p: nat, s: nat, nb: nat, ghost n: nat)
      requires Inv({p}) && p in tiles && tiles[p] == Tile(s, false) && Fits(nb, n) && nb + MIN_CHUNK <= s
      modifies this`heads, this`foots, this`mem, this`tiles, this`live
      ensures Inv({p + nb}) && p !in old(live) && LiveSet(old(live), live, p, n) && p in tiles && tiles[p] == Tile(nb, true)
      ensures p + nb in tiles && tiles[p + nb] == Tile(s - nb, false)
      ensures Keeps(old(View()), old(mem), View(), mem, 0)
    {
      hide Ok, Listed, Keeps, WritesWithin, Retile, Retiles, AllOk, NoSlots, HeadSet, FootSet, LiveSet;
      ghost var s0 := View();
      SetHead(p, Head(nb, true, true));
      ghost var h := heads;
      var r := p + nb;
      SetHead(r, Head(s - nb, false, true));
      SetFoot(p + s, s - nb);
      Within3(old(mem), mem, p, r, p + s);
      Hand(p, r, p + s, false, n);
      SplitStep(s0, View(), h, old(mem), mem, p, s, nb, n);
    }

    /** replace_dv: the old designated victim, which is small, goes into a bin. */
    method ReplaceDv(p: nat, s: nat)
      requires Inv({p}) && p in tiles && tiles[p].size == s && IsSmall(dvsize)
      modifies this`dv, this`dvsize, this`mem, bins, bins.treebins
      ensures Inv({}) && Keeps(old(View()), old(mem), View(), mem, 0) && dv == p && dvsize == s
    {
      SwapDv(View(), p);
      KeepsSelf2(View(), {p}, View().(dv := 0, dvsize := 0), mem);
      KeepsSelf2(View(), {p}, View().(dv := p, dvsize := s), mem);
      if dvsize != 0 {
        BinDv(p, s);
      } else {
        dvsize := s;
        dv := p;
      }
    }

    method BinDv(p: nat, s: nat)
      requires Inv({p}) && p in tiles && tiles[p].size == s && dvsize != 0
      modifies this`dv, this`dvsize, this`mem, bins, bins.treebins
      ensures Inv({}) && Keeps(old(View()), old(mem), View(), mem, 0) && dv == p && dvsize == s
    {
      hide Ok, Listed, Keeps, MemKept;
      ghost var s0 := View();
      SwapDv(s0, p);
      KeepsSelf2(s0, {p}, s0.(dv := 0, dvsize := 0), mem);
      ghost var s1, m1 := s0.(dv := 0, dvsize := 0), mem;
      var victim, dvs := dv, dvsize;
      dvsize := 0;
      dv := 0;
      InsertChunk(victim, dvs, {p, victim});
      assert {p, victim} - {victim} == {p};
      KeepsThen(s0, old(mem), s1, m1, View(), mem, 0);
      ghost var s2, m2 := View(), mem;
      SwapDv(s2, p);
      KeepsSelf2(s2, {p}, s2.(dv := p, dvsize := s), mem);
      dvsize := s;
      dv := p;
      KeepsThen(s0, old(mem), s2, m2, View(), mem, 0);
    }

    /** The designated victim is used: split if the rest is a chunk, else as a whole. */
    method UseDv(nb: nat, ghost n: nat) returns (p: nat)
      requires Inv({}) && Fits(nb, n) && nb <= dvsize
      modifies this`heads, this`foots, this`mem, this`tiles, this`live, this`dv, this`dvsize
      ensures Inv({}) && p !in old(live) && LiveSet(old(live), live, p, n) && p in tiles && tiles[p].used && Keeps(old(View()), old(mem), View(), mem, 0)
    {
      hide Ok, Listed, Keeps;
      var rsize := dvsize - nb;
      p := dv;
      if rsize >= MIN_CHUNK {
        CarveDv(nb, n);
      } else {
        ghost var s0 := View();
        var dvs := dvsize;
        DvIs(s0, {});
        LeaveDv(s0, {});
        dvsize := 0;
        dv := 0;
        assert {} + {p} == {p};
        KeepsSelf2(s0, {}, View(), mem);
        ghost var s1, m1 := View(), mem;
        UseAll(p, dvs, n);
        KeepsThen(s0, old(mem), s1, m1, View(), mem, 0);
      }
    }

    /** The words of a chunk in use and of a free one behind it. */
    method PartWords(p: nat, nb: nat, r: nat, rsize: nat) returns (ghost h: Heads)
      requires r == p + nb && nb >= 8 && rsize >= 8
      modifies this`heads, this`foots, this`mem
      ensures HeadSet(old(heads), h, r, Head(rsize, false, true)) && HeadSet(h, heads, p, Head(nb, true, true)) && FootSet(old(foots), foots, r + rsize, rsize)
      ensures WritesWithin(old(mem), mem, p, r + rsize)
    {
      hide HeadSet, FootSet;
      SetHead(r, Head(rsize, false, true));
      h := heads;
      SetFoot(r + rsize, rsize);
      SetHead(p, Head(nb, true, true));
      Within3(old(mem), mem, p, r, r + rsize);
    }

    method CarveDv(nb: nat, ghost n: nat)
      requires Inv({}) && Fits(nb, n) && nb + MIN_CHUNK <= dvsize
      modifies this`heads, this`foots, this`mem, this`tiles, this`live, this`dv, this`dvsize
      ensures Inv({}) && old(dv) !in old(live) && LiveSet(old(live), live, old(dv), n) && old(dv) in tiles && tiles[old(dv)].used
      ensures Keeps(old(View()), old(mem), View(), mem, 0)
    {
      hide Ok, Listed, Keeps, WritesWithin, Retile, Retiles, AllOk, NoSlots, HeadSet, FootSet, LiveSet;
      ghost var s0 := View();
      DvIs(s0, {});
      var p, rsize, r := dv, dvsize - nb, dv + nb;
      ghost var b := p + dvsize;
      dv := r;
      dvsize := rsize;
      assert r + rsize == b;
      ghost var h := PartWords(p, nb, r, rsize);
      Hand(p, r, b, false, n);
      DvStep(s0, View(), h, old(mem), mem, nb, n);
    }

    /** The top chunk is split. */
    method UseTop(nb: nat, ghost n: nat) returns (p: nat)
      requires Inv({}) && Fits(nb, n) && nb < topsize
      modifies this`heads, this`mem, this`tiles, this`live, this`top, this`topsize
      ensures Inv({}) && p !in old(live) && LiveSet(old(live), live, p, n) && p in tiles && tiles[p].used && Keeps(old(View()), old(mem), View(), mem, 0)
    {
      hide Ok, Listed, Keeps, WritesWithin, Retile, Retiles, AllOk, NoSlots, HeadSet, LiveSet;
      ghost var s0 := View();
      ghost var b := top + topsize;
      TopAligned(s0, {});
      var rsize := topsize - nb;
      topsize := rsize;
      p := top;
      var r := p + nb;
      top := r;
      SetHead(r, Head(rsize, false, true));
      ghost var h := heads;
      SetHead(p, Head(nb, true, true));
      Within3(old(mem), mem, p, r, b);
      Hand(p, r, b, false, n);
      TopStep(s0, View(), h, old(mem), mem, nb, n);
    }

    // ---------------------------------------------------------------- from the tries

    /** tmalloc_large: the best fitting chunk of the tries, unless there is none or the designated
        victim fits as well. */
    method TmallocLarge(nb: nat, ghost n: nat) returns (p: nat)
      requires Inv({}) && Fits(nb, n) && nb < WORD && !IsSmall(nb)
      modifies this`heads, this`foots, this`mem, this`tiles, this`live, bins, bins.treebins
      ensures Inv({}) && Keeps(old(View()), old(mem), View(), mem, 0)
      ensures p != 0 ==> p !in old(live) && LiveSet(old(live), live, p, n) && p in tiles && tiles[p].used
      ensures p != 0 ==> Best(old(bins.free), p, nb) && (dvsize < nb || old(bins.free)[p] < dvsize)
      ensures p == 0 ==> View() == old(View()) && forall a :: a in bins.free && !IsSmall(bins.free[a]) && bins.free[a] >= nb ==> nb <= dvsize <= bins.free[a]
    {
      hide Ok, Listed, Keeps, AllOk, NoSlots, Best;
      var v, rsize := bins.FitLarge(nb);
      BestIs(bins, v, rsize, nb);
      DvBound(View(), {});
      if v != 0 && rsize < Remainder(dvsize, nb) {
        p := v;
        TakeLarge(v, rsize, nb, n);
      } else {
        p := 0;
        KeepsSelf2(View(), {}, View(), mem);
      }
    }

    /** The chunk is unlinked, and used as a whole or split. */
    method TakeLarge(v: nat, rsize: nat, nb: nat, ghost n: nat)
      requires Inv({}) && Fits(nb, n) && v in bins.free && bins.free[v] == nb + rsize
      modifies this`heads, this`foots, this`mem, this`tiles, this`live, bins, bins.treebins
      ensures Inv({}) && Keeps(old(View()), old(mem), View(), mem, 0)
      ensures v !in old(live) && LiveSet(old(live), live, v, n) && v in tiles && tiles[v].used
    {
      hide Ok, Listed, Keeps, AllOk, NoSlots;
      ghost var s0 := View();
      TakeOut(s0, {}, v);
      UnlinkChunk(v, nb + rsize, {});
      assert {} + {v} == {v};
      ghost var s1, m1 := View(), mem;
      if rsize < MIN_CHUNK {
        UseAll(v, rsize + nb, n);
        KeepsThen(s0, old(mem), s1, m1, View(), mem, 0);
      } else {
        SplitToBin(v, nb + rsize, nb, n);
        KeepsThen(s0, old(mem), s1, m1, View(), mem, 0);
      }
    }

    /** A chunk is split, and the rest goes into a bin. */
    method SplitToBin(p: nat, s: nat, nb: nat, ghost n: nat)
      requires Inv({p}) && p in tiles && tiles[p] == Tile(s, false) && Fits(nb, n) && nb + MIN_CHUNK <= s
      modifies this`heads, this`foots, this`mem, this`tiles, this`live, bins, bins.treebins
      ensures Inv({}) && p !in old(live) && LiveSet(old(live), live, p, n) && p in tiles && tiles[p] == Tile(nb, true)
      ensures Keeps(old(View()), old(mem), View(), mem, 0)
    {
      hide Ok, Listed, Keeps, AllOk, NoSlots;
      ghost var s0 := View();
      SplitChunk(p, s, nb, n);
      ghost var s1, m1 := View(), mem;
      InsertChunk(p + nb, s - nb, {p + nb});
      assert {p + nb} - {p + nb} == {};
      KeepsThen(s0, old(mem), s1, m1, View(), mem, 0);
    }

    /** tmalloc_small: the smallest chunk of the tries, of which there is one. */
    method TmallocSmall(nb: nat, ghost n: nat) returns (p: nat)
      requires Inv({}) && Fits(nb, n) && IsSmall(nb) && IsSmall(dvsize) && exists i :: 0 <= i < |bins.treemap| && bins.treemap[i]
      modifies this`heads, this`foots, this`mem, this`tiles, this`live, this`dv, this`dvsize, bins, bins.treebins
      ensures Inv({}) && Keeps(old(View()), old(mem), View(), mem, 0)
      ensures p != 0 && p !in old(live) && LiveSet(old(live), live, p, n) && p in tiles && tiles[p].used && Best(old(bins.free), p, nb)
    {
      hide Ok, Listed, Keeps, AllOk, NoSlots, Best;
      bins.FirstIs();
      var v, rsize := bins.FitSmall(nb);
      BestIs(bins, v, rsize, nb);
      p := v;
      ghost var s0 := View();
      TakeOut(s0, {}, v);
      UnlinkChunk(v, nb + rsize, {});
      assert {} + {v} == {v};
      ghost var s1, m1 := View(), mem;
      if rsize < MIN_CHUNK {
        UseAll(v, rsize + nb, n);
        KeepsThen(s0, old(mem), s1, m1, View(), mem, 0);
      } else {
        SplitToDv(v, nb + rsize, nb, n);
        KeepsThen(s0, old(mem), s1, m1, View(), mem, 0);
      }
    }

    /** A chunk is split, and the rest becomes the designated victim. */
    method SplitToDv(p: nat, s: nat, nb: nat, ghost n: nat)
      requires Inv({p}) && p in tiles && tiles[p] == Tile(s, false) && Fits(nb, n) && nb + MIN_CHUNK <= s && IsSmall(dvsize)
      modifies this`heads, this`foots, this`mem, this`tiles, this`live, this`dv, this`dvsize, bins, bins.treebins
      ensures Inv({}) && p !in old(live) && LiveSet(old(live), live, p, n) && p in tiles && tiles[p] == Tile(nb, true)
      ensures Keeps(old(View()), old(mem), View(), mem, 0)
    {
      hide Ok, Listed, Keeps, AllOk, NoSlots;
      ghost var s0 := View();
      SplitChunk(p, s, nb, n);
      ghost var s1, m1 := View(), mem;
      ReplaceDv(p + nb, s - nb);
      KeepsThen(s0, old(mem), s1, m1, View(), mem, 0);
    }

    // --------------------------------------------------------------------- giving back

    /** From `a` to `b` there is one free chunk now, and `p` is not live any more. */
    ghost method Give(p: nat, a: nat, b: nat)
      requires a < b
      modifies this`tiles, this`live
      ensures Retiles(old(tiles), tiles, a, b, b, false, false) && LiveGone(old(live), live, p)
    {
      RetilesIs(tiles, a, b, b, false, false);
      LiveGoneIs(live, p);
      tiles, live := Retile(tiles, a, b, b, false, false), live - {p};
    }

    /** set_size_and_pinuse_of_free_chunk; a designated victim that starts there grows. */
    method FreeWords(a: nat, size: nat)
      requires size >= 8
      modifies this`heads, this`foots, this`mem, this`dvsize
      ensures HeadSet(old(heads), heads, a, Head(size, false, true)) && FootSet(old(foots), foots, a + size, size) && WritesWithin(old(mem), mem, a, a + size)
      ensures dvsize == if a == dv then size else old(dvsize)
    {
      hide HeadSet, FootSet;
      SetHead(a, Head(size, false, true));
      SetFoot(a + size, size);
      Within2b(old(mem), mem, a, a + size);
      if a == dv {
        dvsize := size;
      }
    }

    /** set_free_with_pinuse */
    method FreePinWords(a: nat, q: nat) returns (ghost h: Heads)
      requires a + 8 <= q && q in heads
      modifies this`heads, this`foots, this`mem, this`dvsize
      ensures HeadSet(old(heads), h, q, old(heads)[q].(pin := false)) && HeadSet(h, heads, a, Head(q - a, false, true)) && FootSet(old(foots), foots, q, q - a)
      ensures WritesWithin(old(mem), mem, a, q) && dvsize == if a == dv then q - a else old(dvsize)
    {
      hide HeadSet, FootSet;
      SetHead(q, heads[q].(pin := false));
      h := heads;
      ghost var m := mem;
      FreeWords(a, q - a);
      assert a + (q - a) == q;
    }

    /** The chunk behind is in use; a designated victim before grows. */
    method FreeHere(ghost s0: Space, p: nat, a: nat, q: nat)
      requires bins.Valid() && Listed(segs, recs) && Seems(View(), s0, a) && Ok(s0, TakenOut(s0, p, a, q, q)) && Merging(s0, p, a, q, q)
      modifies this`heads, this`foots, this`mem, this`tiles, this`live, this`dvsize
      ensures Inv(FreedLoose(s0, p, a, q, q)) && Keeps(s0, old(mem), View(), mem, p) && LiveGone(old(live), live, p)
      ensures q > a && a in tiles && tiles[a] == Tile(q - a, false)
    {
      hide Ok, Listed, Keeps, WritesWithin, Retile, Retiles, AllOk, NoSlots, HeadSet, FootSet, TakenOut, FreedLoose, LiveGone, Merging;
      ghost var s := View();
      MergeBounds(s0, TakenOut(s0, p, a, q, q), p, a, q, q);
      SeemsHas(s, s0, a, q);
      ghost var h := FreePinWords(a, q);
      ghost var g := SeemsPin(s, s0, a, q, h, heads, Head(q - a, false, true));
      Give(p, a, q);
      FreedHere(s0, View(), g, old(mem), mem, p, a, q);
    }

    /** The chunk behind, which was in a bin, is merged too. */
    method FreeNext(ghost s0: Space, p: nat, a: nat, q: nat, b: nat)
      requires bins.Valid() && Listed(segs, recs) && Seems(View(), s0, a) && Ok(s0, TakenOut(s0, p, a, q, b)) && Merging(s0, p, a, q, b)
      requires b != q && q != top && q != dv
      modifies this`heads, this`foots, this`mem, this`tiles, this`live, this`dvsize
      ensures Inv(FreedLoose(s0, p, a, q, b)) && Keeps(s0, old(mem), View(), mem, p) && LiveGone(old(live), live, p)
      ensures b > a && a in tiles && tiles[a] == Tile(b - a, false)
    {
      hide Ok, Listed, Keeps, WritesWithin, Retile, Retiles, AllOk, NoSlots, HeadSet, FootSet, TakenOut, FreedLoose, LiveGone, Merging;
      ghost var s := View();
      MergeBounds(s0, TakenOut(s0, p, a, q, b), p, a, q, b);
      FreeWords(a, b - a);
      SeemsSet(s, s0, a, heads, Head(b - a, false, true));
      assert a + (b - a) == b;
      Give(p, a, b);
      FreedNext(s0, View(), old(mem), mem, p, a, q, b);
    }

    /** The chunk behind is the designated victim, which grows. */
    method FreeNextDv(ghost s0: Space, p: nat, a: nat, q: nat)
      requires bins.Valid() && Listed(segs, recs) && Seems(View(), s0, a) && q == dv && dvsize > 0
      requires Ok(s0, TakenOut(s0, p, a, q, q + dvsize)) && Merging(s0, p, a, q, q + dvsize)
      modifies this`heads, this`foots, this`mem, this`tiles, this`live, this`dv, this`dvsize
      ensures Inv({}) && Keeps(s0, old(mem), View(), mem, p) && LiveGone(old(live), live, p)
    {
      hide Ok, Listed, Keeps, WritesWithin, Retile, Retiles, AllOk, NoSlots, HeadSet, FootSet, TakenOut, LiveGone, Merging;
      ghost var s, b := View(), q + dvsize;
      MergeBounds(s0, TakenOut(s0, p, a, q, b), p, a, q, b);
      var dsize := q + dvsize - a;
      assert a + dsize == b;
      dv := a;
      FreeWords(a, dsize);
      SeemsSet(s, s0, a, heads, Head(dsize, false, true));
      Give(p, a, b);
      FreedNextDv(s0, View(), old(mem), mem, p, a, q);
    }

    method TopWords(a: nat, tsize: nat)
      requires tsize >= 8
      modifies this`heads, this`mem, this`dv, this`dvsize, this`top, this`topsize
      ensures HeadSet(old(heads), heads, a, Head(tsize, false, true)) && WritesWithin(old(mem), mem, a, a + tsize) && top == a && topsize == tsize
      ensures dv == (if a == old(dv) then 0 else old(dv)) && dvsize == if a == old(dv) then 0 else old(dvsize)
    {
      hide HeadSet;
      topsize := tsize;
      top := a;
      SetHead(a, Head(tsize, false, true));
      Within2b(old(mem), mem, a, a + tsize);
      if a == dv {
        dv := 0;
        dvsize := 0;
      }
    }

    /** The chunk behind is the top chunk, which grows; a designated victim before is gone. */
    method FreeNextTop(ghost s0: Space, p: nat, a: nat, q: nat)
      requires bins.Valid() && Listed(segs, recs) && Seems(View(), s0, a) && q == top && topsize > 0
      requires Ok(s0, TakenOut(s0, p, a, q, q + topsize)) && Merging(s0, p, a, q, q + topsize)
      modifies this`heads, this`mem, this`tiles, this`live, this`dv, this`dvsize, this`top, this`topsize
      ensures Inv({}) && Keeps(s0, old(mem), View(), mem, p) && LiveGone(old(live), live, p)
      ensures topsize == q + old(topsize) - a
    {
      hide Ok, Listed, Keeps, WritesWithin, Retile, Retiles, AllOk, NoSlots, HeadSet, FootSet, TakenOut, LiveGone, Merging;
      ghost var s, b := View(), q + topsize;
      MergeBounds(s0, TakenOut(s0, p, a, q, b), p, a, q, b);
      var tsize := q + topsize - a;
      assert a + tsize == b;
      TopWords(a, tsize);
      SeemsSet(s, s0, a, heads, Head(tsize, false, true));
      Give(p, a, b);
      FreedNextTop(s0, View(), old(mem), mem, p, a, q);
    }

    // ------------------------------------------------------------ back to the system

    /** A free chunk that is not the top chunk leaves its place for a while. */
    method TakeFree(p: nat, s: nat)
      requires Inv({}) && p in tiles && tiles[p] == Tile(s, false) && p != top && !IsSmall(s)
      modifies this`dv, this`dvsize, this`mem, bins, bins.treebins
      ensures Inv({p}) && Keeps(old(View()), old(mem), View(), mem, 0)
    {
      hide Ok, Listed, Keeps, AllOk, NoSlots;
      ghost var s0 := View();
      assert {} + {p} == {p};
      if p == dv {
        DvIs(s0, {});
        NoNull3(s0, {});
        LeaveDv(s0, {});
        dv := 0;
        dvsize := 0;
        KeepsSelf2(s0, {}, View(), mem);
      } else {
        InBins(s0, p);
        UnlinkChunk(p, s, {});
      }
    }

    /** Segment `k` is not in the list any more. */
    method DropSegment(k: nat)
      requires 0 < k < |segs| && Inv({segs[k].base}) && Unused(View(), k)
      modifies this`segs, this`limits, this`recs, this`tiles, this`internal
      ensures Inv({}) && Keeps(old(View()), old(mem), View(), mem, 0) && |segs| == |old(segs)| - 1
      ensures Total(old(segs)) == Total(segs) + old(segs[k].size) && SegmentGone(old(View()), View(), k)
    {
      hide Ok, Keeps, AllOk, NoSlots;
      ghost var s0 := View();
      TotalWithout(segs, k);
      UnusedIs(s0, {segs[k].base}, k);
      ListedWithout(segs, recs, k);
      ghost var p := segs[k].base;
      ghost var r := End(tiles, p);
      tiles, internal, limits := tiles - {p, r}, internal - {r}, limits[..k] + limits[k + 1..];
      segs, recs := segs[..k] + segs[k + 1..], recs[..k] + recs[k + 1..];
      SegsAre(s0, {p});
      DroppedOk(s0, View(), k, mem);
    }

    /** The test and the rest of the loop's body of release_unused_segments. */
    method ReleaseSegment(k: nat) returns (n: nat)
      requires 0 < k < |segs| && Inv({})
      modifies this`segs, this`limits, this`recs, this`tiles, this`internal, this`dv, this`dvsize, this`mem, this`sys, bins, bins.treebins
      ensures Inv({}) && Keeps(old(View()), old(mem), View(), mem, 0) && |segs| == |old(segs)| - if n == 0 then 0 else 1
      ensures Total(old(segs)) == Total(segs) + n
      ensures n != 0 <==> Unused(old(View()), k) && Takes(old(sys.unmaps), 0)
      ensures sys == if Unused(old(View()), k) then old(sys).(unmaps := Later(old(sys.unmaps))) else old(sys)
      ensures if n == 0 then tiles == old(tiles) && segs == old(segs) else SegmentGone(old(View()), View(), k)
    {
      hide Ok, Keeps, AllOk, NoSlots, Listed, Unused, SegmentGone, Takes, Total;
      ghost var s0 := View();
      BaseIs(s0, {}, k);
      HeadsAt(s0, {}, segs[k].base);
      UnusedTest(s0, k);
      var p, size, psize := segs[k].base, segs[k].size, heads[segs[k].base].size;
      n := 0;
      KeepsSelf2(s0, {}, s0, mem);
      if !heads[p].cin && p + psize + 32 >= p + size {
        UnusedLarge(s0, recs, k);
        TakeFree(p, psize);
        ghost var s1, m1 := View(), mem;
        UnusedSame(s0, s1, k);
        var unmapped := Munmap();
        if unmapped {
          DropSegment(k);
          GoneFrom(s0, s1, View(), k);
          n := size;
        } else {
          InsertChunk(p, psize, {p});
          assert {p} - {p} == {};
        }
        KeepsThen(s0, old(mem), s1, m1, View(), mem, 0);
      }
    }

    /** release_unused_segments: the result is the size of what has gone. */
    method ReleaseUnused() returns (released: nat)
      requires Inv({})
      modifies this`segs, this`limits, this`recs, this`tiles, this`internal, this`dv, this`dvsize, this`mem, this`releaseChecks, this`sys, bins, bins.treebins
      ensures Inv({}) && Keeps(old(View()), old(mem), View(), mem, 0) && Total(old(segs)) == Total(segs) + released
      ensures AllTaken(old(sys.unmaps), |old(segs)|) ==> AllUsed(View(), |segs|)
    {
      hide Ok, Keeps, AllOk, NoSlots, Listed, Unused, SegmentGone, Takes, AllTaken, AllUsed, Total, Later;
      released := 0;
      var nsegs, k := 0, 1;
      KeepsSelf2(View(), {}, View(), mem);
      SegsAre(View(), {});
      UsedEnds(View(), 1);
      while k < |segs|
        invariant k >= 1 && Inv({}) && Keeps(old(View()), old(mem), View(), mem, 0)
        invariant Total(old(segs)) == Total(segs) + released
        invariant AllTaken(old(sys.unmaps), |old(segs)|) ==> AllUsed(View(), k) && k <= |segs| + 1 && AllTaken(sys.unmaps, |segs| + 1 - k)
        decreases |segs| - k
      {
        ghost var s1, m1, sys1 := View(), mem, sys;
        nsegs := nsegs + 1;
        var n := ReleaseSegment(k);
        KeepsThen(old(View()), old(mem), s1, m1, View(), mem, 0);
        ReleasedUsed(s1, View(), k, n, sys1, sys, old(sys.unmaps), |old(segs)|);
        if n == 0 {
          k := k + 1;
        } else {
          released := released + n;
        }
      }
      UsedEnds(View(), k);
      releaseChecks := if nsegs > RELEASE_RATE then nsegs else RELEASE_RATE;
    }

    /** init_top */
    method InitTop(p: nat, psize: nat) returns (ghost h: Heads)
      requires p % 8 == 0
      modifies this`top, this`topsize, this`heads, this`mem, this`trimCheck
      ensures top == p && topsize == psize && HeadSet(old(heads), h, p, Head(psize, false, true)) && HeadSet(h, heads, p + psize, Head(32, false, false))
      ensures forall x: nat {:trigger mem(x)} :: !(p + 4 <= x < p + 8) && !(p + psize + 4 <= x < p + psize + 8) ==> mem(x) == old(mem)(x)
    {
      hide HeadSet;
      top := p;
      topsize := psize;
      SetHead(p, Head(psize, false, true));
      h := heads;
      SetHead(p + psize, Head(32, false, false));
      trimCheck := TRIM_THRESHOLD;
    }

    /** The segment of the top chunk, and with it the top chunk, gets another size. */
    method ResizeTop(size: nat, segsize: nat)
      requires Inv({}) && 0 < size && size % 8 == 0 && segsize % UNIT == 0 && segsize <= WORD
      requires |segs| > 0 && top + size + 32 == segs[0].base + segsize <= WORD && Apart(View(), segs[0].base, segsize, 0)
      modifies this`segs, this`limits, this`tiles, this`top, this`topsize, this`heads, this`mem, this`trimCheck
      ensures Inv({}) && Keeps(old(View()), old(mem), View(), mem, 0) && topsize == size
      ensures Total(segs) + old(segs[0].size) == Total(old(segs)) + segsize && |segs| == |old(segs)|
    {
      hide Ok, Keeps, AllOk, NoSlots, HeadSet, Apart, Retile;
      ghost var s0 := View();
      SegsAre(s0, {});
      TopAligned(s0, {});
      TotalSet(segs, Seg(segs[0].base, segsize));
      segs := segs[0 := Seg(segs[0].base, segsize)];
      ghost var h := InitTop(top, size);
      limits, tiles := limits[0 := top + size], tiles[top := Tile(size, false)];
      TopResizedOk(s0, View(), h, size, segsize);
      TopResizedKeeps(s0, View(), h, size, segsize, old(mem), mem);
    }

    /** segment_holding */
    method SegmentHolding(a: nat) returns (i: nat)
      ensures i <= |segs| && (i < |segs| ==> Holds(segs[i], a)) && forall j :: 0 <= j < i ==> !Holds(segs[j], a)
    {
      i := 0;
      while i < |segs| && !Holds(segs[i], a)
        invariant i <= |segs| && forall j :: 0 <= j < i ==> !Holds(segs[j], a)
      {
        i := i + 1;
      }
    }

    /** has_segment_link */
    method HasSegmentLink(k: nat) returns (found: bool)
      requires k < |segs|
      ensures found <==> exists j :: 0 <= j < |recs| && Holds(segs[k], recs[j])
    {
      var i := 0;
      while i < |recs| && !Holds(segs[k], recs[i])
        invariant i <= |recs| && forall j :: 0 <= j < i ==> !Holds(segs[k], recs[j])
      {
        i := i + 1;
      }
      found := i < |recs|;
    }

    /** Pages at the end of the top chunk go back to the system, but for `pad` bytes and what closes
        the segment. */
    method TrimTop(pad: nat) returns (released: nat)
      requires Inv({}) && pad < MAX_REQUEST && topsize > pad + 32
      modifies this`segs, this`limits, this`tiles, this`top, this`topsize, this`heads, this`mem, this`trimCheck, this`sys
      ensures Inv({}) && Keeps(old(View()), old(mem), View(), mem, 0) && Total(old(segs)) == Total(segs) + released
      ensures topsize > pad + 32 && |segs| == |old(segs)|
      ensures KeptSmall(old(segs), recs, old(sys), pad, topsize) && (sys.unmaps == old(sys.unmaps) || sys.unmaps == Later(old(sys.unmaps)))
    {
      hide Ok, Keeps, AllOk, NoSlots, Listed, Total, KeptSmall, AllTaken, Later;
      released := 0;
      KeepsSelf2(View(), {}, View(), mem);
      TrimBounds(View(), recs, pad + 32);
      assert topsize - (pad + 32) + (UNIT - 1) < WORD;
      var extra := ((topsize - (pad + 32) + (UNIT - 1)) / UNIT - 1) * UNIT;
      var sp := SegmentHolding(top);
      assert sp == 0;
      var pinned := HasSegmentLink(sp);
      if segs[sp].size >= extra && !pinned {
        var unmapped := Munmap();
        if unmapped {
          released := extra;
        }
      }
      if released != 0 {
        ResizeTop(topsize - released, segs[sp].size - released);
      }
      SmallTrimmed(old(segs), recs, old(sys), pad, topsize);
    }

    /** alloc_trim: the result says whether memory was given back; the top chunk keeps `pad` bytes. */
    method Trim(pad: nat) returns (done: bool)
      requires Inv({})
      modifies this`segs, this`limits, this`recs, this`tiles, this`internal, this`top, this`topsize, this`heads, this`dv, this`dvsize
      modifies this`mem, this`trimCheck, this`releaseChecks, this`sys, bins, bins.treebins
      ensures Inv({}) && Keeps(old(View()), old(mem), View(), mem, 0)
      ensures Total(segs) <= Total(old(segs)) && (done <==> Total(segs) < Total(old(segs)))
      ensures topsize == old(topsize) || topsize > pad + 32
      ensures pad < MAX_REQUEST && AllTaken(old(sys.unmaps), |old(segs)| + 1) ==> AllUsed(View(), |segs|)
      ensures pad < MAX_REQUEST ==> KeptSmall(old(segs), old(recs), old(sys), pad, topsize)
    {
      hide Ok, Keeps, AllOk, NoSlots, Listed, Total, AllTaken, AllUsed, Pinned, Later, KeptSmall;
      var released := 0;
      KeepsSelf2(View(), {}, View(), mem);
      if pad < MAX_REQUEST {
        if topsize > pad + 32 {
          released := TrimTop(pad);
        } else {
          SmallNow(segs, recs, sys, pad, topsize);
        }
        FewerTaken(old(sys.unmaps), sys.unmaps, |segs|);
        ghost var s1, m1 := View(), mem;
        var n := ReleaseUnused();
        released := released + n;
        if released == 0 && topsize > trimCheck {
          trimCheck := WORD - 1;
        }
        KeepsThen(old(View()), old(mem), s1, m1, View(), mem, 0);
      }
      done := released != 0;
    }

    // -------------------------------------------------------------------------- free

    /** A chunk that was mapped on its own goes back to the system, which may decline. */
    method FreeDirect(p: nat)
      requires Inv({}) && DirectWords(View(), p)
      modifies this`direct, this`live, this`sys
      ensures Inv({}) && Keeps(old(View()), old(mem), View(), mem, p) && LiveGone(old(live), live, p)
      ensures direct == if Takes(old(sys.unmaps), 0) then old(direct) - {p} else old(direct)
    {
      hide Ok, Keeps, AllOk, NoSlots;
      ghost var s0 := View();
      var unmapped := Munmap();
      if unmapped {
        direct := direct - {p};
      }
      live := live - {p};
      DirectGoneOk(s0, View(), p, unmapped, mem);
    }

    /** The merged chunk goes into its bin, and now and then unused segments to the system. */
    method PutFree(a: nat, psize: nat)
      requires Inv({a}) && a in tiles && tiles[a].size == psize
      modifies this`segs, this`limits, this`recs, this`tiles, this`internal, this`dv, this`dvsize, this`mem, this`releaseChecks, this`sys, bins, bins.treebins
      ensures Inv({}) && Keeps(old(View()), old(mem), View(), mem, 0)
    {
      hide Ok, Keeps, AllOk, NoSlots, Listed;
      InsertChunk(a, psize, {a});
      assert {a} - {a} == {};
      if !IsSmall(psize) {
        releaseChecks := (releaseChecks + WORD - 1) % WORD;
        if releaseChecks == 0 {
          ghost var s1, m1 := View(), mem;
          var released := ReleaseUnused();
          KeepsThen(old(View()), old(mem), s1, m1, View(), mem, 0);
        }
      }
    }

    /** The chunk behind is free and in a bin. */
    method FreeBoth(p: nat, a: nat, next: nat, nsize: nat)
      requires Inv(Before(p, a, dv)) && BackMerged(View(), p, a, next) && tiles[next] == Tile(nsize, false) && next != top && next != dv
      modifies this, bins, bins.treebins
      ensures Inv({}) && Keeps(old(View()), old(mem), View(), mem, p) && LiveGone(old(live), live, p)
    {
      hide Ok, Keeps, AllOk, NoSlots, Listed, Merging, TakenOut, FreedLoose, LiveGone, Seems, BackMerged, Before;
      ghost var s0 := View();
      BackWords(s0, Before(p, a, dv), p, a, next);
      var b := next + nsize;
      UnlinkChunk(next, nsize, Before(p, a, dv));
      ghost var s1, m1 := View(), mem;
      BackBoth(s0, s1, p, a, next, b);
      SeemsSelf(s1, a);
      FreeNext(s1, p, a, next, b);
      KeepsSkip(s0, old(mem), s1, m1, Before(p, a, dv), p);
      KeepsThen(s0, old(mem), s1, m1, View(), mem, p);
      FreedPlace(s1, p, a, next, b);
      PutMerged(a, b - a, p, s0, old(mem));
    }

    /** The merged chunk goes into a bin, if it is not the designated victim. */
    method PutMerged(a: nat, psize: nat, ghost p: nat, ghost s0: Space, ghost m0: Memory)
      requires Inv(if a == dv then {} else {a}) && a in tiles && tiles[a].size == psize && Keeps(s0, m0, View(), mem, p)
      modifies this`segs, this`limits, this`recs, this`tiles, this`internal, this`dv, this`dvsize, this`mem, this`releaseChecks, this`sys, bins, bins.treebins
      ensures Inv({}) && Keeps(s0, m0, View(), mem, p)
    {
      hide Ok, Keeps, AllOk, NoSlots, Listed;
      if a != dv {
        ghost var s1, m1 := View(), mem;
        PutFree(a, psize);
        KeepsSkip(s1, m1, View(), mem, {a}, p);
        KeepsThen(s0, m0, s1, m1, View(), mem, p);
      }
    }

    /** The chunk behind is the top chunk. When that is too large now, memory goes back. */
    method FreeTop(p: nat, a: nat)
      requires Inv(Before(p, a, dv)) && BackMerged(View(), p, a, top)
      modifies this, bins, bins.treebins
      ensures Inv({}) && Keeps(old(View()), old(mem), View(), mem, p) && LiveGone(old(live), live, p)
      ensures old(top) + old(topsize) > a + old(trimCheck) ==> KeptSmall(old(segs), old(recs), old(sys), 0, topsize)
    {
      hide Ok, Keeps, AllOk, NoSlots, Listed, Merging, TakenOut, LiveGone, Seems, BackMerged, Before, KeptSmall, AllTaken, AllUsed, Total;
      ghost var s0 := View();
      BackWords(s0, Before(p, a, dv), p, a, top);
      BackEdge(s0, p, a, top, top + topsize);
      SeemsSelf(s0, a);
      FreeNextTop(s0, p, a, top);
      TrimLarge(p, s0, old(mem));
    }

    /** A top chunk that is too large gives memory back. */
    method TrimLarge(ghost p: nat, ghost s0: Space, ghost m0: Memory)
      requires Inv({}) && Keeps(s0, m0, View(), mem, p)
      modifies this, bins, bins.treebins
      ensures Inv({}) && Keeps(s0, m0, View(), mem, p) && live == old(live)
      ensures old(topsize) > old(trimCheck) ==> KeptSmall(old(segs), old(recs), old(sys), 0, topsize)
    {
      hide Ok, Keeps, AllOk, NoSlots, Listed, KeptSmall, AllTaken, AllUsed, Total;
      if topsize > trimCheck {
        ghost var s1, m1 := View(), mem;
        var trimmed := Trim(0);
        KeepsSkip(s1, m1, View(), mem, {}, p);
        KeepsThen(s0, m0, s1, m1, View(), mem, p);
      }
    }

    /** Consolidation forward: `a` is the chunk itself, or the free one before it, which has been
        taken out of its bin. */
    method FreeForward(p: nat, a: nat, next: nat)
      requires Inv(Before(p, a, dv)) && BackMerged(View(), p, a, next)
      modifies this, bins, bins.treebins
      ensures Inv({}) && Keeps(old(View()), old(mem), View(), mem, p) && LiveGone(old(live), live, p)
    {
      hide Ok, Keeps, AllOk, NoSlots, Listed, Merging, TakenOut, FreedLoose, LiveGone, Seems, BackMerged, Before;
      ghost var s0 := View();
      BackWords(s0, Before(p, a, dv), p, a, next);
      SeemsSelf(s0, a);
      if !heads[next].cin {
        if next == top {
          FreeTop(p, a);
        } else if next == dv {
          BackEdge(s0, p, a, next, next + dvsize);
          FreeNextDv(s0, p, a, next);
        } else {
          FreeBoth(p, a, next, heads[next].size);
        }
      } else {
        BackEdge(s0, p, a, next, next);
        FreeHere(s0, p, a, next);
        FreedPlace(s0, p, a, next, next);
        PutMerged(a, next - a, p, s0, old(mem));
      }
    }

    /** Consolidation backward. */
    method FreeBack(p: nat, a: nat, prevsize: nat, next: nat)
      requires Inv({}) && BackMerged(View(), p, a, next) && a != p && a in tiles && tiles[a].size == prevsize && a != top
      modifies this, bins, bins.treebins
      ensures Inv({}) && Keeps(old(View()), old(mem), View(), mem, p) && LiveGone(old(live), live, p)
    {
      hide Ok, Keeps, AllOk, NoSlots, Listed, Merging, TakenOut, FreedLoose, LiveGone, Seems, BackMerged;
      ghost var s0 := View();
      BackWords(s0, {}, p, a, next);
      if a != dv {
        BackFree(s0, p, a, next);
        UnlinkChunk(a, prevsize, {});
        assert {} + {a} == {a};
        ghost var s1, m1 := View(), mem;
        BackSame(s0, s1, p, a, next);
        KeepsSkip(s0, old(mem), s1, m1, {}, p);
        FreeForward(p, a, next);
        KeepsThen(s0, old(mem), s1, m1, View(), mem, p);
      } else if heads[next].cin && heads[next].pin {
        SeemsSelf(s0, a);
        BackEdge(s0, p, a, next, next);
        FreeHere(s0, p, a, next);
        FreedPlace(s0, p, a, next, next);
      } else {
        FreeForward(p, a, next);
      }
    }

    /** lj_alloc_free of a chunk */
    method FreeChunk(p: nat)
      requires Inv({}) && p in live
      modifies this, bins, bins.treebins
      ensures Inv({}) && Keeps(old(View()), old(mem), View(), mem, p) && LiveGone(old(live), live, p)
    {
      hide Ok, Keeps, AllOk, NoSlots, Listed, LiveGone;
      LiveWords(View(), p);
      BackStart(View(), p);
      var next := p + heads[p].size;
      if !heads[p].pin {
        var prevsize := foots[p];
        if prevsize % 2 != 0 {
          FreeDirect(p);
        } else {
          FreeBack(p, p - prevsize, prevsize, next);
        }
      } else {
        FreeForward(p, p, next);
      }
    }

    // ------------------------------------------------------------- from the system

    /** The system maps memory, if it can: pages that are apart from all others. */
    method Mmap(size: nat) returns (base: nat, ok: bool)
      modifies this`sys
      ensures sys == old(sys).(maps := Later(old(sys.maps))) && base == Answer(old(sys.maps), 0) && (ok <==> Grants(segs, direct, size, base))
      ensures ok ==> base > 0 && base % PAGE == 0 && base + size < WORD && Apart(View(), base, size, |segs|)
    {
      base := Answer(sys.maps, 0);
      sys := sys.(maps := Later(sys.maps));
      ok := Grants(segs, direct, size, base);
      UnmappedIs(View(), base, size);
    }

    /** The system takes memory back, or declines. */
    method Munmap() returns (ok: bool)
      modifies this`sys
      ensures sys == old(sys).(unmaps := Later(old(sys.unmaps))) && (ok <==> Takes(old(sys.unmaps), 0))
    {
      ok := Takes(sys.unmaps, 0);
      sys := sys.(unmaps := Later(sys.unmaps));
    }

    /** The words of a chunk with its own memory, and of the fake chunk behind it. */
    method DirectHeads(p: nat, psize: nat)
      requires psize >= MIN_CHUNK
      modifies this`heads, this`mem
      ensures p in heads && heads[p] == Head(psize, true, false) && HeadsBut(old(heads), heads, p, p + psize + 16)
      ensures forall x: nat {:trigger mem(x)} :: !(p + 4 <= x < p + 8) && !(p + psize <= x < p + psize + 16) ==> mem(x) == old(mem)(x)
    {
      SetHead(p, Head(psize, true, false));
      SetHead(p + psize, Head(4, true, true));
      SetHead(p + psize + 4, Head(0, false, false));
    }

    /** The system's and the program's view of a chunk with its own memory. */
    method Grant(p: nat, psize: nat, ghost n: nat)
      modifies this`direct, this`live
      ensures LiveSet(old(direct), direct, p, psize) && LiveSet(old(live), live, p, n)
    {
      LiveSetIs(live, p, n);
      LiveSetIs(direct, p, psize);
      direct, live := direct[p := psize], live[p := n];
    }

    /** A program's chunk gets its own memory. */
    method DirectPlace(p: nat, psize: nat, ghost n: nat)
      requires Inv({}) && p % 8 == 0 && p > 0 && psize % 8 == 0 && psize >= MIN_CHUNK && p + psize + 16 <= WORD
      requires Apart(View(), p, psize + 16, |segs|) && n + 8 <= psize
      modifies this`heads, this`foots, this`mem, this`direct, this`live
      ensures Inv({}) && Keeps(old(View()), old(mem), View(), mem, 0) && p !in old(live) && LiveSet(old(live), live, p, n)
    {
      hide Ok, Keeps, AllOk, NoSlots, Listed, Apart, HeadsBut, FootSet, LiveSet, DirectAdded, WordsWithin;
      ghost var s0 := View();
      SetFoot(p, 1);
      DirectHeads(p, psize);
      Grant(p, psize, n);
      DirectWithin(s0, View(), p, psize + 16);
      DirectBy(s0, View(), p, psize, n);
      DirectAddedOk(s0, View(), p, psize, n, old(mem), mem);
    }

    /** direct_alloc */
    method DirectAlloc(nb: nat, ghost n: nat) returns (p: nat)
      requires Inv({}) && nb < WORD && (Fits(nb, n) || nb == WORD - 1)
      modifies this`heads, this`foots, this`mem, this`direct, this`live, this`sys
      ensures Inv({}) && Keeps(old(View()), old(mem), View(), mem, 0)
      ensures if p == 0 then View() == old(View()) else p !in old(live) && LiveSet(old(live), live, p, n)
      ensures p != 0 <==> DirectServes(old(View()), nb, Answer(old(sys.maps), 0))
      ensures p == 0 ==> sys.maps == if PageUp(nb + 31) < WORD then Later(old(sys.maps)) else old(sys.maps)
    {
      hide Ok, Keeps, AllOk, NoSlots, Listed, Apart, PageAlign, LiveSet, Grants, PageUp;
      KeepsSelf2(View(), {}, View(), mem);
      p := 0;
      var mmsize := PageAlign(nb + 24 + 7);
      AlignPage(nb, 24 + 7);
      if mmsize > nb {
        var mm, ok := Mmap(mmsize);
        if ok {
          PageEight(mm);
          PageEight(mmsize);
          p := mm;
          DirectPlace(p, mmsize - 16, n);
        }
      }
    }

    /** The search for a segment that ends or starts at an address. */
    method SegmentAt(a: nat, end: bool) returns (i: nat)
      ensures i <= |segs| && (i < |segs| ==> if end then segs[i].base + segs[i].size == a else segs[i].base == a)
    {
      i := 0;
      while i < |segs| && a != if end then segs[i].base + segs[i].size else segs[i].base
        invariant i <= |segs|
      {
        i := i + 1;
      }
    }

    /** Fenceposts from `p0` to `end`. */
    method Fenceposts(p0: nat, end: nat)
      requires p0 % 4 == 0 && end % 4 == 0 && p0 + 16 <= end
      modifies this`heads, this`mem
      ensures p0 in heads && heads[p0] == Head(4, true, true) && HeadsBut(old(heads), heads, p0, end) && MemBut(old(mem), mem, p0 + 4, end)
    {
      var p := p0;
      SetHead(p, Head(4, true, true));
      while p + 4 + 4 < end
        invariant p0 <= p && p + 8 <= end && p % 4 == 0 && p0 in heads && heads[p0] == Head(4, true, true)
        invariant HeadsBut(old(heads), heads, p0, end) && MemBut(old(mem), mem, p0 + 4, end)
      {
        p := p + 4;
        SetHead(p, Head(4, true, true));
      }
    }

    /** The record of a segment is written in its chunk. */
    method PushRecord(csp: nat, seg: Seg)
      requires |recs| > 0
      modifies this`segs, this`recs, this`mem
      ensures segs == [seg] + old(segs) && recs == [old(recs)[0], csp + 8] + old(recs)[1..]
      ensures MemBut(old(mem), mem, csp + 8, csp + 20)
    {
      ghost var f: Memory, g := *, mem;
      mem := (x: nat) => if csp + 8 <= x < csp + 20 then f(x) else g(x);
      segs, recs := [seg] + segs, [recs[0], csp + 8] + recs[1..];
    }

    /** The rest of the old top chunk becomes an ordinary free chunk. */
    method OldTopWords(q: nat, tn: nat)
      requires q + 16 <= tn && tn in heads
      modifies this`heads, this`foots, this`mem
      ensures q in heads && heads[q] == Head(tn - q, false, true) && tn in heads && heads[tn] == old(heads)[tn].(pin := false) && tn in foots && foots[tn] == tn - q
      ensures HeadsBut(old(heads), heads, q, tn + 1) && FootsBut(old(foots), foots, tn, tn + 1) && MemBut(old(mem), mem, q + 4, tn + 8)
      ensures tn + 16 in old(heads) ==> tn + 16 in heads && heads[tn + 16] == old(heads)[tn + 16]
    {
      SetHead(tn, heads[tn].(pin := false));
      SetHead(q, Head(tn - q, false, true));
      SetFoot(tn, tn - q);
    }

    /** The record's chunk, and the fenceposts behind it. */
    method RecordChunk(csp: nat, oldEnd: nat, seg: Seg)
      requires csp % 8 == 0 && oldEnd % 8 == 0 && csp + 32 <= oldEnd && |recs| > 0
      modifies this`segs, this`recs, this`heads, this`mem
      ensures segs == [seg] + old(segs) && recs == [old(recs)[0], csp + 8] + old(recs)[1..]
      ensures csp in heads && heads[csp] == Head(16, true, true) && csp + 16 in heads && heads[csp + 16] == Head(4, true, true)
      ensures HeadsBut(old(heads), heads, csp, oldEnd) && MemBut(old(mem), mem, csp + 4, oldEnd)
    {
      hide HeadsBut, HeadSet, MemBut;
      Fours(csp + 16);
      Fours(oldEnd);
      SetHead(csp, Head(16, true, true));
      ghost var h, m := heads, mem;
      PushRecord(csp, seg);
      ghost var m1 := mem;
      Fenceposts(csp + 16, oldEnd);
      MemThree(old(mem), m, m1, mem, csp, oldEnd);
      SetThenBut(old(heads), h, heads, csp, Head(16, true, true), csp, csp + 16, oldEnd);
    }

    /** The words that add_segment writes at the end of the old segment. */
    method RecordWords(csp: nat, oldTop: nat, oldEnd: nat, seg: Seg)
      requires csp % 8 == 0 && oldEnd % 8 == 0 && csp + 32 <= oldEnd && oldTop <= csp && (csp != oldTop ==> oldTop + 16 <= csp) && |recs| > 0
      modifies this`segs, this`recs, this`heads, this`foots, this`mem
      ensures segs == [seg] + old(segs) && recs == [old(recs)[0], csp + 8] + old(recs)[1..]
      ensures RecordTags(heads, foots, csp, oldTop)
      ensures HeadsBut(old(heads), heads, oldTop, oldEnd) && FootsBut(old(foots), foots, oldTop + 1, oldEnd) && MemBut(old(mem), mem, oldTop + 4, oldEnd)
    {
      RecordChunk(csp, oldEnd, seg);
      if csp != oldTop {
        OldTopWords(oldTop, csp);
      }
    }

    /** A segment more: its chunk, and the record of the one before. */
    ghost method Adopt(csp: nat, tbase: nat, tsize: nat)
      requires tsize >= 32 && |limits| > 0
      modifies this`tiles, this`limits, this`internal
      ensures Adopted(old(tiles), tiles, old(limits), limits, old(internal), internal, csp, tbase, tsize)
    {
      limits, tiles := [tbase + tsize - 32] + limits[0 := csp + 16], tiles[csp := Tile(16, true)][tbase := Tile(tsize - 32, false)];
      internal := internal + {csp};
    }

    /** The words of add_segment. */
    method SegmentWords(tbase: nat, tsize: nat, oldTop: nat, oldEnd: nat) returns (csp: nat, ghost h: Heads, ghost h1: Heads)
      requires oldTop == top && oldTop % 8 == 0 && oldEnd >= 39 && oldEnd % 8 == 0 && oldTop + 32 <= oldEnd && tbase % 8 == 0 && tsize >= 48 && |recs| > 0
      modifies this`segs, this`recs, this`top, this`topsize, this`heads, this`foots, this`mem, this`trimCheck
      ensures csp == RecordPlace(oldTop, oldEnd)
      ensures top == tbase && topsize == tsize - 32 && segs == [Seg(tbase, tsize)] + old(segs) && recs == [old(recs)[0], csp + 8] + old(recs)[1..]
      ensures HeadSet(old(heads), h, tbase, Head(tsize - 32, false, true)) && HeadSet(h, h1, tbase + (tsize - 32), Head(32, false, false))
      ensures RecordTags(heads, foots, csp, oldTop)
      ensures HeadsBut(h1, heads, oldTop, oldEnd) && FootsBut(old(foots), foots, oldTop + 1, oldEnd)
      ensures forall x: nat {:trigger mem(x)} :: !(oldTop + 4 <= x < oldEnd) && !(tbase <= x < tbase + tsize) ==> mem(x) == old(mem)(x)
    {
      hide HeadsBut, FootsBut, HeadSet, RecordTags;
      var rawsp := oldEnd - (16 + 16 + 7);
      var asp := rawsp + (8 - (rawsp + 8) % 8) % 8;
      csp := if asp < oldTop + MIN_CHUNK then oldTop else asp;
      h := InitTop(tbase, tsize - 32);
      h1 := heads;
      RecordWords(csp, oldTop, oldEnd, Seg(tbase, tsize));
    }

    /** add_segment, but for the old top chunk's bin. */
    method NewSegment(tbase: nat, tsize: nat) returns (csp: nat)
      requires Inv({}) && tbase > 0 && tbase % 8 == 0 && tsize > 0 && tsize % UNIT == 0 && tbase + tsize <= WORD && Apart(View(), tbase, tsize, |segs|)
      modifies this`segs, this`limits, this`recs, this`tiles, this`internal, this`top, this`topsize, this`heads, this`foots, this`mem, this`trimCheck
      ensures Inv(OldTop(old(View()))) && Keeps(old(View()), old(mem), View(), mem, 0) && topsize == tsize - 32 && csp == RecordAt(old(View()))
      ensures csp != old(top) ==> old(top) in tiles && tiles[old(top)].size == csp - old(top) && OldTop(old(View())) == {old(top)}
      ensures csp == old(top) ==> OldTop(old(View())) == {}
    {
      hide Ok, Keeps, AllOk, NoSlots, Apart, HeadSet, Listed, HeadsBut, FootsBut, Adopted, OldTop, RecordPlace, RecordAt, RecordTags;
      ghost var s0 := View();
      SegsAre(s0, {});
      ListedSame(segs, recs);
      UnitEight(tsize);
      ListedMore(segs, recs, Seg(tbase, tsize), [Seg(tbase, tsize)] + segs, [recs[0], RecordAt(s0) + 8] + recs[1..]);
      RecordEndIs(s0);
      var oldsp := SegmentHolding(top);
      ghost var h: Heads, h1: Heads;
      csp, h, h1 := SegmentWords(tbase, tsize, top, segs[oldsp].base + segs[oldsp].size);
      Adopt(csp, tbase, tsize);
      NewSegmentOk(s0, View(), tbase, tsize, h, h1, old(mem), mem);
    }

    /** add_segment */
    method AddSegment(tbase: nat, tsize: nat)
      requires Inv({}) && tbase > 0 && tbase % 8 == 0 && tsize > 0 && tsize % UNIT == 0 && tbase + tsize <= WORD && Apart(View(), tbase, tsize, |segs|)
      modifies this`segs, this`limits, this`recs, this`tiles, this`internal, this`top, this`topsize, this`heads, this`foots, this`mem, this`trimCheck, bins, bins.treebins
      ensures Inv({}) && Keeps(old(View()), old(mem), View(), mem, 0) && topsize == tsize - 32
    {
      hide Ok, Keeps, AllOk, NoSlots, Apart, Listed;
      ghost var s0 := View();
      var oldTop := top;
      var csp := NewSegment(tbase, tsize);
      if csp != oldTop {
        ghost var s1, m1 := View(), mem;
        InsertChunk(oldTop, csp - oldTop, {oldTop});
        assert {oldTop} - {oldTop} == {};
        KeepsThen(s0, old(mem), s1, m1, View(), mem, 0);
      }
    }

    /** unlink_chunk for the first chunk behind the new memory, and clear_pinuse behind that. */
    method UnlinkBehind(ghost s0: Space, q: nat, o: nat, nsize: nat) returns (ghost s1: Space)
      requires bins.Valid() && Seems(View(), s0, q) && Ok(s0, {}) && q < o < o + nsize && Merging(s0, q, q, o, o + nsize) && o != top && o != dv
      modifies this`heads, this`mem, bins, bins.treebins
      ensures bins.Valid() && Ok(s1, {o}) && Seems(View(), s1, q) && Merging(s1, q, q, o, o + nsize) && TakenOut(s1, q, q, o, o + nsize) == {o} && q != s1.dv
      ensures Keeps(s0, old(mem), s1, mem, 0) && s1.dv == dv && s1.top == top
    {
      hide Ok, Keeps, AllOk, NoSlots, Merging, TakenOut, Seems, LinksOnly, MemKept, HeadSet;
      var b := o + nsize;
      ghost var s := View();
      PrependBin(s, s0, q, o, b);
      Unlink(o, nsize);
      ghost var s2, m1 := View(), mem;
      s1 := s0.(free := bins.free);
      PrependTaken(s, s0, s2, s1, q, o, b);
      KeptLinks(s0, {}, o, old(mem), m1, 0);
      KeepsSelf(s0, {}, s1, old(mem), m1);
      SetHead(b, heads[b].(pin := false));
      PrependPin(s1, q, o, b, m1, mem);
      SameHeads(s2.heads, heads, b);
      KeepsThen(s0, old(mem), s1, m1, s1, mem, 0);
    }

    /** insert_chunk for the rest of the new memory */
    method PutBehind(q: nat, size: nat, ghost s0: Space, ghost m0: Memory)
      requires Inv({q}) && q in tiles && tiles[q].size == size && Keeps(s0, m0, View(), mem, q)
      modifies this`mem, bins, bins.treebins
      ensures Inv({}) && Keeps(s0, m0, View(), mem, q)
    {
      hide Ok, Keeps, AllOk, NoSlots, Listed;
      ghost var s1, m1 := View(), mem;
      InsertChunk(q, size, {q});
      assert {q} - {q} == {};
      KeepsSkip(s1, m1, View(), mem, {q}, q);
      KeepsThen(s0, m0, s1, m1, View(), mem, q);
    }

    /** The first chunk behind the new memory was in a bin: the rest is merged with it. */
    method PrependFree(ghost s0: Space, q: nat, o: nat, nsize: nat)
      requires bins.Valid() && Listed(segs, recs) && Seems(View(), s0, q) && Ok(s0, {}) && q < o < o + nsize && Merging(s0, q, q, o, o + nsize) && o != top && o != dv
      modifies this`heads, this`foots, this`mem, this`tiles, this`live, this`dvsize, bins, bins.treebins
      ensures Inv({}) && Keeps(s0, old(mem), View(), mem, q) && LiveGone(old(live), live, q)
    {
      hide Ok, Keeps, AllOk, NoSlots, Listed, Merging, TakenOut, FreedLoose, LiveGone, Seems;
      ghost var s1 := UnlinkBehind(s0, q, o, nsize);
      ghost var m1 := mem;
      FreeNext(s1, q, q, o, o + nsize);
      FreedPlace(s1, q, q, o, o + nsize);
      KeepsSkip(s0, old(mem), s1, m1, {}, q);
      KeepsThen(s0, old(mem), s1, m1, View(), mem, q);
      PutBehind(q, o + nsize - q, s0, old(mem));
    }

    /** The rest of the new memory is merged with the first chunk behind it, or stays one. */
    method PrependRest(ghost s0: Space, q: nat, o: nat)
      requires bins.Valid() && Listed(segs, recs) && Seems(View(), s0, q) && Ok(s0, {}) && BackMerged(s0, q, q, o) && q < o
      modifies this`heads, this`foots, this`mem, this`tiles, this`live, this`top, this`topsize, this`dv, this`dvsize, bins, bins.treebins
      ensures Inv({}) && Keeps(s0, old(mem), View(), mem, q) && LiveGone(old(live), live, q)
    {
      hide Ok, Keeps, AllOk, NoSlots, Listed, Merging, TakenOut, FreedLoose, LiveGone, Seems, BackMerged;
      ghost var s := View();
      BackWords(s0, {}, q, q, o);
      SeemsHas(s, s0, q, o);
      SeemsSame(s, s0, q);
      if o == top {
        BackEdge(s0, q, q, o, o + topsize);
        FreeNextTop(s0, q, q, o);
      } else if o == dv {
        BackEdge(s0, q, q, o, o + dvsize);
        FreeNextDv(s0, q, q, o);
      } else if !heads[o].cin {
        var nsize := heads[o].size;
        BackBehind(s0, q, o, o + nsize);
        PrependFree(s0, q, o, nsize);
      } else {
        BackEdge(s0, q, q, o, o);
        FreeHere(s0, q, q, o);
        FreedPlace(s0, q, q, o, o);
        PutBehind(q, o - q, s0, old(mem));
      }
    }

    /** The segment and the program's chunk at its new start. */
    method GrowDown(k: nat, tbase: nat, tsize: nat, nb: nat, ghost n: nat) returns (ghost s0: Space)
      requires Inv({}) && Beneath(View(), k, tbase, tsize) && Fits(nb, n) && nb + MIN_CHUNK <= tsize && tsize % UNIT == 0
      modifies this`segs, this`heads, this`mem, this`tiles, this`live
      ensures bins.Valid() && Listed(segs, recs) && Seems(View(), s0, tbase + nb) && Ok(s0, {}) && BackMerged(s0, tbase + nb, tbase + nb, tbase + tsize)
      ensures Keeps(old(View()), old(mem), s0, mem, 0) && tbase !in old(live) && tbase + nb !in old(live)
      ensures LiveTwo(old(live), live, tbase, n, tbase + nb)
    {
      hide Ok, Keeps, AllOk, NoSlots, Listed, Retile, Seems, BackMerged, Apart, WritesWithin, HeadSet;
      ghost var v := View();
      ListedDown(segs, recs, k, tbase, tsize);
      segs := segs[k := Seg(tbase, segs[k].size + tsize)];
      SetHead(tbase, Head(nb, true, true));
      s0 := Half(v, k, tbase, tsize, nb, n);
      Within2b(old(mem), mem, tbase, tbase + tsize);
      HalfOk(v, k, tbase, tsize, nb, n, old(mem), mem);
      tiles, live := s0.tiles, s0.live;
      HalfSeems(v, View(), k, tbase, tsize, nb, n);
    }

    /** prepend_alloc, and the change of the segment before it */
    method PrependAlloc(k: nat, tbase: nat, tsize: nat, nb: nat, ghost n: nat)
      requires Inv({}) && Beneath(View(), k, tbase, tsize) && Fits(nb, n) && nb + MIN_CHUNK <= tsize && tsize % UNIT == 0
      modifies this`segs, this`heads, this`foots, this`mem, this`tiles, this`live, this`top, this`topsize, this`dv, this`dvsize, bins, bins.treebins
      ensures Inv({}) && Keeps(old(View()), old(mem), View(), mem, 0) && tbase !in old(live) && LiveSet(old(live), live, tbase, n)
    {
      hide Ok, Keeps, AllOk, NoSlots, Listed, LiveGone, LiveTwo, LiveSet, Seems, BackMerged, Apart;
      ghost var v := View();
      var q := tbase + nb;
      ghost var s0 := GrowDown(k, tbase, tsize, nb, n);
      ghost var m0, l0 := mem, live;
      PrependRest(s0, q, tbase + tsize);
      HalfLive(v.live, l0, live, tbase, q, n);
      KeepsSkip(v, old(mem), s0, m0, {}, q);
      KeepsThen(v, old(mem), s0, m0, View(), mem, q);
      KeepsNew(v, {}, old(mem), View(), mem, q);
    }

    /** The top chunk's segment grows. */
    method Append(tbase: nat, tsize: nat)
      requires Inv({}) && tsize > 0 && tsize % UNIT == 0 && tbase + tsize <= WORD && Apart(View(), tbase, tsize, |segs|)
      requires |segs| > 0 && tbase == segs[0].base + segs[0].size
      modifies this`segs, this`limits, this`tiles, this`top, this`topsize, this`heads, this`mem, this`trimCheck
      ensures Inv({}) && Keeps(old(View()), old(mem), View(), mem, 0) && topsize == old(topsize) + tsize
    {
      hide Ok, Keeps, AllOk, NoSlots, Listed, Apart;
      AppendBounds(View(), recs, tbase, tsize);
      ResizeTop(topsize + tsize, segs[0].size + tsize);
    }

    /** alloc_sys with memory from the system: a segment grows upwards or downwards, or there is a
        new one. */
    method Extend(tbase: nat, tsize: nat, nb: nat, ghost n: nat) returns (p: nat)
      requires Inv({}) && Fits(nb, n) && nb + 33 <= tsize && tsize % UNIT == 0 && tbase > 0 && tbase % 8 == 0 && tbase + tsize <= WORD
      requires Apart(View(), tbase, tsize, |segs|)
      modifies this, bins, bins.treebins
      ensures Inv({}) && Keeps(old(View()), old(mem), View(), mem, 0) && p !in old(live) && LiveSet(old(live), live, p, n)
    {
      hide Ok, Keeps, AllOk, NoSlots, Listed, Apart, LiveSet;
      UnitEight(tsize);
      TopHeld(View());
      var sp := SegmentAt(tbase, true);
      if sp < |segs| && Holds(segs[sp], top) {
        HeldOnce(View(), sp);
        Append(tbase, tsize);
      } else {
        sp := SegmentAt(tbase + tsize, false);
        if sp < |segs| {
          PrependAlloc(sp, tbase, tsize, nb, n);
          p := tbase;
          return;
        }
        AddSegment(tbase, tsize);
      }
      ghost var s1, m1 := View(), mem;
      p := UseTop(nb, n);
      KeepsThen(old(View()), old(mem), s1, m1, View(), mem, 0);
    }

    /** The memory for a segment comes from the system. */
    method AllocSegment(nb: nat, ghost n: nat) returns (p: nat)
      requires Inv({}) && nb < WORD && (Fits(nb, n) || nb == WORD - 1)
      modifies this, bins, bins.treebins
      ensures Inv({}) && Keeps(old(View()), old(mem), View(), mem, 0)
      ensures if p == 0 then View() == old(View()) else p !in old(live) && LiveSet(old(live), live, p, n)
      ensures p != 0 <==> SegServes(old(View()), nb, Answer(old(sys.maps), 0))
    {
      hide Ok, Keeps, AllOk, NoSlots, Listed, Apart, UnitAlign, LiveSet;
      KeepsSelf2(View(), {}, View(), mem);
      p := 0;
      var rsize := UnitAlign(nb + 32 + 1);
      AlignUnit(nb, 32 + 1);
      if rsize > nb {
        var tbase, ok := Mmap(rsize);
        if ok {
          PageEight(tbase);
          p := Extend(tbase, rsize, nb, n);
          NotNull(View(), old(live), p, n);
        }
      }
    }

    /** alloc_sys: null only if the system was asked in all ways and declined. */
    method AllocSys(nb: nat, ghost n: nat) returns (p: nat)
      requires Inv({}) && nb < WORD && (Fits(nb, n) || nb == WORD - 1)
      modifies this, bins, bins.treebins
      ensures Inv({}) && Keeps(old(View()), old(mem), View(), mem, 0)
      ensures if p == 0 then View() == old(View()) else p !in old(live) && LiveSet(old(live), live, p, n)
      ensures p != 0 <==> SysServes(old(View()), nb, old(sys.maps))
    {
      hide Ok, Keeps, AllOk, NoSlots, Listed, LiveSet;
      KeepsSelf2(View(), {}, View(), mem);
      p := 0;
      if nb >= MMAP_THRESHOLD {
        p := DirectAlloc(nb, n);
      }
      if p == 0 {
        ghost var s1, m1 := View(), mem;
        p := AllocSegment(nb, n);
        KeepsThen(old(View()), old(mem), s1, m1, View(), mem, 0);
      }
    }

    // ------------------------------------------------------------------------ malloc

    /** A fit without a rest in a small bin. */
    method TakeExact(i: nat, ghost n: nat) returns (p: nat)
      requires Inv({}) && i < BINS && bins.smallmap[i] && n + 4 <= 8 * i
      modifies this`heads, this`mem, this`tiles, this`live, bins, bins.treebins
      ensures Inv({}) && Keeps(old(View()), old(mem), View(), mem, 0) && p !in old(live) && LiveSet(old(live), live, p, n)
    {
      hide Ok, Keeps, AllOk, NoSlots, Listed, LiveSet;
      ghost var s0 := View();
      p := UnlinkFirst(i);
      ghost var s1, m1 := View(), mem;
      TakenTile(s0, p);
      UseAll(p, 8 * i, n);
      KeepsThen(s0, old(mem), s1, m1, View(), mem, 0);
    }

    /** The next small bin that has a chunk; the rest becomes the designated victim. */
    method TakeNext(i: nat, nb: nat, ghost n: nat) returns (p: nat)
      requires Inv({}) && i < BINS && bins.smallmap[i] && Fits(nb, n) && nb + MIN_CHUNK <= 8 * i && IsSmall(dvsize)
      modifies this`heads, this`foots, this`mem, this`tiles, this`live, this`dv, this`dvsize, bins, bins.treebins
      ensures Inv({}) && Keeps(old(View()), old(mem), View(), mem, 0) && p !in old(live) && LiveSet(old(live), live, p, n)
    {
      hide Ok, Keeps, AllOk, NoSlots, Listed, LiveSet;
      ghost var s0 := View();
      p := UnlinkFirst(i);
      ghost var s1, m1 := View(), mem;
      TakenTile(s0, p);
      SplitToDv(p, 8 * i, nb, n);
      KeepsThen(s0, old(mem), s1, m1, View(), mem, 0);
    }

    /** What a small request may get from the bins; 0 if the designated victim, the top chunk or
        the system is to serve it. */
    method SmallRequest(nb: nat, ghost n: nat) returns (p: nat)
      requires Inv({}) && Fits(nb, n) && IsSmall(nb)
      modifies this`heads, this`foots, this`mem, this`tiles, this`live, this`dv, this`dvsize, bins, bins.treebins
      ensures Inv({}) && Keeps(old(View()), old(mem), View(), mem, 0)
      ensures if p == 0 then View() == old(View()) else p !in old(live) && LiveSet(old(live), live, p, n)
      ensures p == 0 && nb > dvsize ==> BinsFull(bins.free, nb)
    {
      hide Ok, Keeps, AllOk, NoSlots, Listed, LiveSet, Best;
      KeepsSelf2(View(), {}, View(), mem);
      bins.FirstIs();
      p := 0;
      var idx := nb / 8;
      if bins.smallmap[idx] || (idx + 1 < BINS && bins.smallmap[idx + 1]) {
        idx := if bins.smallmap[idx] then idx else idx + 1;
        p := TakeExact(idx, n);
        NotNull(View(), old(live), p, n);
      } else if nb > dvsize {
        var i := FirstSet(bins.smallmap, idx + 1);
        if i < BINS {
          p := TakeNext(i, nb, n);
          NotNull(View(), old(live), p, n);
        } else if FirstSet(bins.treemap, 0) < BINS {
          p := TmallocSmall(nb, n);
        } else {
          UnmarkedBins(bins, nb, idx);
        }
      }
    }

    /** The designated victim, the top chunk or the system serves a request. */
    method OtherRequest(nb: nat, ghost n: nat) returns (p: nat)
      requires Inv({}) && nb < WORD && (Fits(nb, n) || nb == WORD - 1)
      modifies this, bins, bins.treebins
      ensures Inv({}) && Keeps(old(View()), old(mem), View(), mem, 0)
      ensures if p == 0 then View() == old(View()) else p !in old(live) && LiveSet(old(live), live, p, n)
      ensures p == 0 ==> dvsize < nb && topsize <= nb && !SysServes(old(View()), nb, old(sys.maps))
    {
      hide Ok, Keeps, AllOk, NoSlots, Listed, LiveSet;
      NoHuge(View());
      if nb <= dvsize {
        p := UseDv(nb, n);
        NotNull(View(), old(live), p, n);
      } else if nb < topsize {
        p := UseTop(nb, n);
        NotNull(View(), old(live), p, n);
      } else {
        p := AllocSys(nb, n);
      }
    }

    /** What a large request may get from the tries. */
    method LargeRequest(nb: nat, ghost n: nat) returns (p: nat)
      requires Inv({}) && Fits(nb, n) && nb < WORD && !IsSmall(nb)
      modifies this`heads, this`foots, this`mem, this`tiles, this`live, bins, bins.treebins
      ensures Inv({}) && Keeps(old(View()), old(mem), View(), mem, 0)
      ensures if p == 0 then View() == old(View()) else p !in old(live) && LiveSet(old(live), live, p, n)
      ensures p == 0 && nb > dvsize ==> BinsFull(bins.free, nb)
    {
      hide Ok, Keeps, AllOk, NoSlots, Listed, LiveSet, Best;
      KeepsSelf2(View(), {}, View(), mem);
      bins.FirstIs();
      p := 0;
      if FirstSet(bins.treemap, 0) < BINS {
        p := TmallocLarge(nb, n);
      } else {
        UnmarkedTrees(bins);
      }
      if p == 0 && nb > dvsize { SmallTooSmall(bins.free, nb); }
    }

    /** lj_alloc_malloc, up to the address of the chunk */
    method MallocChunk(nsize: nat) returns (p: nat)
      requires Inv({}) && nsize < WORD
      modifies this, bins, bins.treebins
      ensures Inv({}) && Keeps(old(View()), old(mem), View(), mem, 0)
      ensures if p == 0 then View() == old(View()) && Refused(View(), RequestOf(nsize), old(sys)) else p !in old(live) && LiveSet(old(live), live, p, nsize)
    {
      hide Ok, Keeps, AllOk, NoSlots, Listed, LiveSet, Best, SysServes, Full;
      KeepsSelf2(View(), {}, View(), mem);
      p := 0;
      var nb := WORD - 1;
      if nsize <= MAX_SMALL_REQUEST {
        nb := RequestSize(nsize);
        p := SmallRequest(nb, nsize);
      } else if nsize < MAX_REQUEST {
        nb := PadRequest(nsize);
        p := LargeRequest(nb, nsize);
      }
      if p == 0 {
        ghost var s1, m1 := View(), mem;
        p := OtherRequest(nb, nsize);
        KeepsThen(old(View()), old(mem), s1, m1, View(), mem, 0);
        if p == 0 {
          if nsize < MAX_REQUEST { FullIs(View(), nb); } else { NeverRoom(View()); }
        }
      }
    }

    /** lj_alloc_malloc: the address of memory for `nsize` bytes that was no one's; or null, but
        only if no free chunk has room and the system declined. */
    method Malloc(nsize: nat) returns (r: nat)
      requires Inv({}) && nsize < WORD
      modifies this, bins, bins.treebins
      ensures Inv({}) && Keeps(old(View()), old(mem), View(), mem, 0)
      ensures if r == 0 then View() == old(View()) && Refused(View(), RequestOf(nsize), old(sys)) else r >= 8 && r % 8 == 0 && r - 8 !in old(live) && LiveSet(old(live), live, r - 8, nsize)
    {
      hide Ok, Keeps, AllOk, NoSlots, Listed, LiveSet;
      var p := MallocChunk(nsize);
      if p == 0 {
        r := 0;
      } else {
        r := p + 8;
        LiveAligned(View(), old(live), p, nsize);
      }
    }

    /** lj_alloc_free */
    method Free(ptr: nat)
      requires Inv({}) && (ptr != 0 ==> ptr >= 8 && ptr - 8 in live)
      modifies this, bins, bins.treebins
      ensures Inv({}) && if ptr == 0 then live == old(live) && Keeps(old(View()), old(mem), View(), mem, 0)
        else LiveGone(old(live), live, ptr - 8) && Keeps(old(View()), old(mem), View(), mem, ptr - 8)
    {
      hide Ok, Keeps, AllOk, NoSlots, Listed, LiveGone;
      KeepsSelf2(View(), {}, View(), mem);
      if ptr != 0 {
        FreeChunk(ptr - 8);
      }
    }

    // ----------------------------------------------------------------------- realloc

    /** The bytes of pages, as many as there are in both places; what the others are is not said. */
    ghost method MoveBytes(p: nat, size: nat, cp: nat, newsize: nat)
      modifies this`mem
      ensures PagesMoved(old(mem), mem, p, size, cp, newsize)
    {
      var f: Memory, g := *, mem;
      mem := (x: nat) => MovedByte(g, f, p, size, cp, newsize, x);
    }

    /** mremap: the region at `p` has a new place, or none. Its words and bytes move along. */
    method Mremap(p: nat, size: nat, newsize: nat) returns (cp: nat, ok: bool)
      requires p in direct && p in heads && p in foots
      modifies this`heads, this`foots, this`mem, this`sys
      ensures sys == old(sys).(moves := Later(old(sys.moves))) && cp == Answer(old(sys.moves), 0)
      ensures ok <==> newsize > 0 && Grants(segs, direct - {p}, newsize, cp)
      ensures !ok ==> heads == old(heads) && foots == old(foots) && mem == old(mem)
      ensures ok ==> cp > 0 && cp % PAGE == 0 && newsize > 0 && cp + newsize < WORD && Apart(old(View()).(direct := direct - {p}), cp, newsize, |segs|)
      ensures ok ==> RegionMoved(old(View()), View(), old(mem), mem, p, size, cp, newsize)
    {
      hide PagesMoved, Unmapped, Apart;
      cp := Answer(sys.moves, 0);
      sys := sys.(moves := Later(sys.moves));
      ok := newsize > 0 && Grants(segs, direct - {p}, newsize, cp);
      UnmappedIs(View().(direct := direct - {p}), cp, newsize);
      if ok {
        heads, foots := heads[cp := heads[p]], foots[cp := foots[p]];
        MoveBytes(p, size, cp, newsize);
      }
    }

    /** The program's chunk has its memory elsewhere now. */
    method DirectMove(p: nat, newp: nat, psize: nat, ghost n: nat, ghost s0: Space, ghost m0: Memory)
      requires Ok(s0, {}) && DirectWords(s0, p) && bins.Valid() && Listed(segs, recs) && DirectFits(s0, p, newp, psize, n)
      requires RegionMoved(s0, View(), m0, mem, p, s0.direct[p] + 16, newp, psize + 16)
      modifies this`heads, this`mem, this`direct, this`live
      ensures Inv({}) && Moved(s0, m0, View(), mem, p, newp, n)
    {
      hide Ok, Keeps, AllOk, NoSlots, Listed, HeadsBut, HeadSet, FootSet, DirectFits, LiveMoved, Moved, DirectWords, RegionMoved, BytesMoved;
      RegionIs(s0, View(), m0, mem, p, newp, psize);
      ghost var h, m := heads, mem;
      DirectPsize(s0, p, newp, psize, n);
      RemapStart(s0, p);
      DirectHeads(newp, psize);
      BytesStay(m0, m, mem, p, newp, s0.direct[p], psize);
      LiveMovedIs(direct, p, newp, psize);
      LiveMovedIs(live, p, newp, n);
      direct, live := (direct - {p})[newp := psize], (live - {p})[newp := n];
      DirectMovedOk(s0, h, View(), p, newp, psize, n, m0, mem);
    }

    /** direct_resize */
    method DirectResize(p: nat, nb: nat, ghost n: nat) returns (newp: nat)
      requires Inv({}) && DirectWords(View(), p) && Fits(nb, n) && nb + 56 <= WORD
      modifies this`heads, this`foots, this`mem, this`direct, this`live, this`sys
      ensures Inv({}) && if newp == 0 then View() == old(View()) && Keeps(old(View()), old(mem), View(), mem, 0)
        else Moved(old(View()), old(mem), View(), mem, p, newp, n)
      ensures sys.maps == old(sys.maps)
      ensures newp != 0 <==> InPlace(old(View()), p, nb, old(sys.moves))
    {
      hide Ok, Keeps, AllOk, NoSlots, Listed, Apart, PageAlign, Moved, Remappable;
      KeepsSelf2(View(), {}, View(), mem);
      var oldsize := heads[p].size;
      newp := 0;
      if !IsSmall(nb) {
        if oldsize >= nb + 4 && oldsize - nb <= UNIT / 2 {
          newp := p;
          Resize(p, n);
        } else {
          newp := Remap(p, nb, n);
        }
      }
    }

    /** The system gives the region another size, and maybe another place. */
    method Remap(p: nat, nb: nat, ghost n: nat) returns (newp: nat)
      requires Inv({}) && DirectWords(View(), p) && Fits(nb, n) && nb + 56 <= WORD
      modifies this`heads, this`foots, this`mem, this`direct, this`live, this`sys
      ensures Inv({}) && if newp == 0 then View() == old(View()) && mem == old(mem)
        else Moved(old(View()), old(mem), View(), mem, p, newp, n)
      ensures sys.maps == old(sys.maps)
      ensures newp != 0 <==> Remappable(old(View()), p, nb, Answer(old(sys.moves), 0))
    {
      hide Ok, Keeps, AllOk, NoSlots, Listed, Apart, PageAlign, PageUp, Moved, Grants, Remappable, RegionMoved, DirectFits, DirectWords;
      RemapStart(View(), p);
      ghost var s0 := View();
      newp := 0;
      var newmmsize := PageAlign(nb + 24 + 7);
      RemappableIs(s0, p, nb, Answer(sys.moves, 0));
      var cp, ok := Mremap(p, heads[p].size + 16, newmmsize);
      if ok {
        newp := cp;
        RemapFits(s0, p, nb, n, cp);
        DirectMove(p, newp, newmmsize - 16, n, s0, old(mem));
      }
    }

    /** The chunk stays what it is for another size of the program's. */
    ghost method Resize(p: nat, n: nat)
      requires Inv({}) && p in live && if p in tiles then n + 4 <= tiles[p].size else p in direct && n + 8 <= direct[p]
      modifies this`live
      ensures Inv({}) && Moved(old(View()), mem, View(), mem, p, p, n)
    {
      hide Ok, Keeps, AllOk, NoSlots, Listed;
      var s0 := View();
      live := live[p := n];
      LiveResized(s0, View(), p, n, mem);
      assert live == (s0.live - {p})[p := n];
    }

    /** set_inuse; what the head behind was before may be anything. */
    method SetInuse(p: nat, s: nat) returns (ghost h: Heads, ghost v: Head)
      requires p in heads && s > 0
      modifies this`heads, this`mem
      ensures HeadSet(old(heads), h, p, Head(s, true, old(heads)[p].pin)) && HeadSet(h, heads, p + s, v) && v.pin
      ensures p + s in old(heads) ==> v == old(heads)[p + s].(pin := true)
      ensures forall x: nat {:trigger mem(x)} :: !(p + 4 <= x < p + 8) && !(p + s + 4 <= x < p + s + 8) ==> mem(x) == old(mem)(x)
    {
      SetHead(p, Head(s, true, heads[p].pin));
      h := heads;
      var g: Head := *;
      if p + s in heads {
        g := heads[p + s];
      }
      SetHead(p + s, g.(pin := true));
      v := g.(pin := true);
    }

    /** set_inuse twice */
    method CutWords(p: nat, size: nat, nb: nat) returns (ghost h: Heads, ghost h2: Heads, ghost h3: Heads)
      requires p in heads && p + size in heads && 8 <= nb && nb + 8 <= size
      modifies this`heads, this`mem
      ensures CutHeads(old(heads), h, h2, h3, heads, p, size, nb) && WritesWithin(old(mem), mem, p, p + size)
      ensures forall x: nat :: p + 8 <= x < p + nb + 4 ==> mem(x) == old(mem)(x)
    {
      hide HeadSet;
      ghost var v: Head, w: Head;
      h, v := SetInuse(p, nb);
      h2 := heads;
      CutMore(old(heads), h, h2, p, size, nb, v);
      h3, w := SetInuse(p + nb, size - nb);
      Within3(old(mem), mem, p, p + nb, p + size);
    }

    /** A chunk in use is cut in two. */
    method Cut(p: nat, size: nat, nb: nat, ghost n: nat)
      requires Inv({}) && p in live && p in tiles && tiles[p].size == size && Fits(nb, n) && nb + MIN_CHUNK <= size
      modifies this`heads, this`mem, this`tiles, this`live
      ensures Inv({}) && Keeps(old(View()), old(mem), View(), mem, p) && p + nb !in old(live) && LiveTwo(old(live), live, p, n, p + nb)
      ensures p in tiles && tiles[p] == Tile(nb, true) && forall x: nat :: p + 8 <= x < p + nb + 4 ==> mem(x) == old(mem)(x)
    {
      hide Ok, Keeps, AllOk, NoSlots, Listed, WritesWithin, Retile, Retiles, HeadSet, Shrunk, CutHeads, LiveTwo;
      ghost var s0 := View();
      CutHead(s0, p);
      ghost var h, h2, h3 := CutWords(p, size, nb);
      RetilesIs(tiles, p, p + nb, p + size, true, true);
      LiveTwoIs(live, p, n, p + nb);
      tiles, live := Retile(tiles, p, p + nb, p + size, true, true), live[p := n][p + nb := 0];
      CutShrunk(s0, View(), h, h2, h3, p, size, nb, n);
      ShrunkStep(s0, View(), h, h2, h3, old(mem), mem, p, size, nb, n);
    }

    /** Shrinking in place: the rest is given back if it is a chunk. */
    method Shrink(p: nat, size: nat, nb: nat, ghost n: nat)
      requires Inv({}) && p in live && p in tiles && tiles[p].size == size && Fits(nb, n) && nb <= size
      modifies this, bins, bins.treebins
      ensures Inv({}) && Moved(old(View()), old(mem), View(), mem, p, p, n)
    {
      hide Ok, Keeps, AllOk, NoSlots, Listed, Moved, LiveGone, LiveTwo;
      ghost var s0 := View();
      var rsize := size - nb;
      if rsize >= MIN_CHUNK {
        Cut(p, size, nb, n);
        ghost var s1, m1 := View(), mem;
        CutLive(s0.live, live, p, n, p + nb);
        FreeChunk(p + nb);
        CutMoved(s0, old(mem), s1, m1, View(), mem, p, nb, n);
      } else {
        Resize(p, n);
      }
    }

    method ExpandWords(p: nat, nb: nat, newtopsize: nat) returns (ghost h: Heads)
      requires p in heads && nb >= 8 && newtopsize > 0
      modifies this`heads, this`mem, this`top, this`topsize
      ensures HeadSet(old(heads), h, p, Head(nb, true, old(heads)[p].pin)) && HeadSet(h, heads, p + nb, Head(newtopsize, false, true))
      ensures top == p + nb && topsize == newtopsize && WritesWithin(old(mem), mem, p, p + nb)
      ensures forall x: nat :: p + 8 <= x < p + nb + 4 ==> mem(x) == old(mem)(x)
    {
      hide HeadSet;
      ghost var v: Head;
      h, v := SetInuse(p, nb);
      ghost var h1 := heads;
      var newtop := p + nb;
      SetHead(newtop, Head(newtopsize, false, true));
      HeadTwice(h, h1, heads, p + nb, v, Head(newtopsize, false, true));
      top := newtop;
      topsize := newtopsize;
      Within2b(old(mem), mem, p, p + nb);
    }

    /** Growing into the top chunk. */
    method Expand(p: nat, size: nat, nb: nat, ghost n: nat)
      requires Inv({}) && p in live && p in tiles && tiles[p].size == size && Fits(nb, n) && p + size == top && size + topsize > nb
      modifies this`heads, this`mem, this`top, this`topsize, this`tiles, this`live
      ensures Inv({}) && Moved(old(View()), old(mem), View(), mem, p, p, n)
    {
      hide Ok, Keeps, AllOk, NoSlots, Listed, WritesWithin, Retile, Retiles, HeadSet, LiveSet, Moved;
      ghost var s0 := View();
      CutHead(s0, p);
      var newsize := size + topsize;
      ghost var b := top + topsize;
      ghost var h := ExpandWords(p, nb, newsize - nb);
      Hand(p, p + nb, b, false, n);
      WithinMore(old(mem), mem, p, p + nb, b);
      ExpandedStep(s0, View(), h, old(mem), mem, p, size, nb, n);
      MovedHere(s0, old(mem), View(), mem, p, n);
    }

    /** memcpy */
    ghost method Copy(dst: nat, src: nat, len: nat)
      modifies this`mem
      ensures IsCopy(old(mem), mem, dst, src, len)
    {
      var g := mem;
      mem := (x: nat) => if dst <= x < dst + len then g(src + (x - dst)) else g(x);
    }

    /** overhead_for */
    method Overhead(p: nat) returns (o: nat)
      requires p in heads && (!heads[p].pin ==> p in foots)
      ensures o == if !heads[p].pin && foots[p] % 2 != 0 then 8 else 4
    {
      o := if !heads[p].pin && foots[p] % 2 != 0 then 8 else 4;
    }

    /** memcpy from the old chunk to the new one */
    method CopyTo(p: nat, q: nat, oldsize: nat, nsize: nat, ghost s0: Space, ghost m0: Memory)
      requires Inv({}) && Ok(s0, {}) && p in s0.live && p in s0.heads && s0.heads[p].size == oldsize && Keeps(s0, m0, View(), mem, 0)
      requires q !in s0.live && LiveSet(s0.live, live, q, nsize)
      modifies this`mem
      ensures Inv({}) && Keeps(s0, m0, View(), mem, 0) && SameBytes(m0, p, mem, q, if s0.live[p] < nsize then s0.live[p] else nsize) && p in live
    {
      hide Ok, Keeps, AllOk, NoSlots, Listed, LiveSet, SameBytes, IsCopy;
      ghost var m1 := mem;
      StillLive(s0, m0, View(), m1, p, q, nsize);
      var overhead := Overhead(p);
      var oc := oldsize - overhead;
      Copy(q + 8, p + 8, if oc < nsize then oc else nsize);
      CopiedBytes(s0, m0, View(), m1, mem, p, q, if oc < nsize then oc else nsize);
      CopiedKeeps(s0, m0, View(), m1, mem, p, q, nsize, if oc < nsize then oc else nsize);
      FewerBytes(m0, p, mem, q, if oc < nsize then oc else nsize, s0.live[p], nsize);
    }

    /** malloc, memcpy and free */
    method Relocate(p: nat, oldsize: nat, nsize: nat) returns (q: nat)
      requires Inv({}) && p in live && p in heads && heads[p].size == oldsize && nsize < WORD
      modifies this, bins, bins.treebins
      ensures Inv({}) && if q == 0 then View() == old(View()) && Refused(View(), RequestOf(nsize), old(sys)) && Keeps(old(View()), old(mem), View(), mem, 0)
        else Moved(old(View()), old(mem), View(), mem, p, q, nsize)
    {
      hide Ok, Keeps, AllOk, NoSlots, Listed, LiveSet, LiveGone, Moved, SameBytes;
      ghost var s0, m0 := View(), mem;
      q := MallocChunk(nsize);
      if q != 0 {
        CopyTo(p, q, oldsize, nsize, s0, m0);
        ghost var s1, m1 := View(), mem;
        FreeChunk(p);
        CopyMoved(s0, m0, s1, m1, View(), mem, p, q, nsize);
      }
    }

    /** The ways to keep the chunk where it is, or its memory as a whole; null if there is none. */
    method ReallocChunk(oldp: nat, oldsize: nat, nb: nat, ghost n: nat) returns (newp: nat)
      requires Inv({}) && oldp in live && oldp in heads && heads[oldp].size == oldsize && Fits(nb, n) && nb + 56 <= WORD
      modifies this, bins, bins.treebins
      ensures Inv({}) && if newp == 0 then View() == old(View()) && Keeps(old(View()), old(mem), View(), mem, 0)
        else Moved(old(View()), old(mem), View(), mem, oldp, newp, n)
      ensures newp != 0 <==> InPlace(old(View()), oldp, nb, old(sys.moves))
      ensures newp == 0 ==> sys.maps == old(sys.maps)
    {
      hide Ok, Keeps, AllOk, NoSlots, Listed, Moved, TileWords, DirectWords;
      KeepsSelf2(View(), {}, View(), mem);
      LiveWords(View(), oldp);
      LiveHeads(View(), oldp);
      var next := oldp + oldsize;
      newp := 0;
      if !heads[oldp].pin && foots[oldp] % 2 != 0 {
        newp := DirectResize(oldp, nb, n);
      } else if oldsize >= nb {
        newp := oldp;
        Shrink(oldp, oldsize, nb, n);
      } else if next == top && oldsize + topsize > nb {
        newp := oldp;
        Expand(oldp, oldsize, nb, n);
      }
    }

    /** lj_alloc_realloc: null only if the chunk cannot stay, no free chunk has room, and the system
        declined. */
    method Realloc(ptr: nat, nsize: nat) returns (r: nat)
      requires Inv({}) && ptr >= 8 && ptr - 8 in live && nsize < WORD
      modifies this, bins, bins.treebins
      ensures Inv({}) && if r == 0 then View() == old(View()) && Refused(View(), RequestOf(nsize), old(sys)) && Keeps(old(View()), old(mem), View(), mem, 0)
        else r >= 8 && r % 8 == 0 && Moved(old(View()), old(mem), View(), mem, ptr - 8, r - 8, nsize)
      ensures r == 0 && nsize < MAX_REQUEST ==> !InPlace(old(View()), ptr - 8, RequestOf(nsize), old(sys.moves))
    {
      hide Ok, Keeps, AllOk, NoSlots, Listed, Moved;
      KeepsSelf2(View(), {}, View(), mem);
      NeverRoom(View());
      r := 0;
      if nsize < MAX_REQUEST {
        ghost var s0, m0 := View(), mem;
        var oldp := ptr - 8;
        LiveSize(View(), oldp);
        var oldsize := heads[oldp].size;
        var newp := ReallocChunk(oldp, oldsize, RequestSize(nsize), nsize);
        ghost var s1, m1 := View(), mem;
        if newp == 0 {
          Unmoved(s0, m0, s1, m1, oldp);
          newp := Relocate(oldp, oldsize, nsize);
          MovedLater(s0, m0, s1, m1, View(), mem, oldp, newp, nsize);
        }
        MovedAligned(View(), s0, m0, mem, oldp, newp, nsize);
        r := if newp == 0 then 0 else newp + 8;
      }
    }

    /** lj_alloc_f: one function that frees, allocates and reallocates. */
    method Alloc(ptr: nat, nsize: nat) returns (r: nat)
      requires Inv({}) && (ptr != 0 ==> ptr >= 8 && ptr - 8 in live) && nsize < WORD
      modifies this, bins, bins.treebins
      ensures Inv({}) && Served(old(View()), old(mem), View(), mem, ptr, nsize, r)
      ensures nsize != 0 && r == 0 ==> View() == old(View()) && Refused(View(), RequestOf(nsize), old(sys))
    {
      hide Ok, Keeps, AllOk, NoSlots, Listed, Moved, LiveSet, LiveGone;
      NotNullLive(View());
      if nsize == 0 {
        Free(ptr);
        r := 0;
      } else if ptr == 0 {
        r := Malloc(nsize);
      } else {
        r := Realloc(ptr, nsize);
      }
    }

    /** The program writes a byte of its own. */
    ghost method Store(p: nat, i: nat, v: Byte)
      requires Inv({}) && p in live && i < live[p]
      modifies this`mem
      ensures Inv({}) && mem(p + 8 + i) == v && forall x: nat {:trigger mem(x)} :: x != p + 8 + i ==> mem(x) == old(mem)(x)
    {
      var g := mem;
      mem := (x: nat) => if x == p + 8 + i then v else g(x);
    }
  }
}
