/** How the allocator (lj_alloc.c) starts, how a segment grows downwards, and how live chunks are
    resized where they are, on its state as a value. */
module AllocGrow {
  import opened AllocSizes
  import opened AllocTiles
  import opened AllocSpace
  import opened AllocKeep
  import opened AllocSteps
  import opened AllocSystem
  import opened AllocSegments

  const UNIT: nat := 0x2_0000

  /** The size of the allocator's own state, padded. */
  const STATE: nat := 440

  // ---------------------------------------------------------------------------- start

  /** lj_alloc_create: the first segment holds the allocator's state and the top chunk. */
  function Created(tbase: nat): Space {
    Space(map[tbase := Head(STATE, true, true), tbase + STATE := Head(UNIT - STATE - 32, false, true), tbase + UNIT - 32 := Head(32, false, false)],
          map[], map[tbase := Tile(STATE, true), tbase + STATE := Tile(UNIT - STATE - 32, false)], [Seg(tbase, UNIT)], [tbase + UNIT - 32],
          tbase + STATE, UNIT - STATE - 32, 0, 0, map[], map[], {tbase}, map[])
  }

  lemma CreatedOk(tbase: nat)
    requires tbase > 0 && tbase % 8 == 0 && tbase + UNIT <= WORD
    ensures Ok(Created(tbase), {})
  {
    var s := Created(tbase);
    assert SegOk(s.segs[0], s.limits[0]);
    assert Within(s.segs, s.limits, tbase, tbase + STATE, 0) && Within(s.segs, s.limits, tbase + STATE, tbase + UNIT - 32, 0);
    assert s.limits[0] == tbase + UNIT - 32;
  }

  // ------------------------------------------------------------------ growing downwards

  /** Segment `k` has grown down by `tsize` bytes: there is a chunk for the program, and the rest
      counts as another one until it is given back. */
  function Half(s: Space, k: nat, tbase: nat, tsize: nat, nb: nat, n: nat): Space
    requires k < |s.segs| && 0 < nb < tsize
  {
    s.(segs := s.segs[k := Seg(tbase, s.segs[k].size + tsize)],
       heads := s.heads[tbase := Head(nb, true, true)][tbase + nb := Head(tsize - nb, true, true)],
       tiles := Retile(s.tiles[tbase := Tile(tsize, true)], tbase, tbase + nb, tbase + tsize, true, true),
       live := s.live[tbase := n][tbase + nb := 0])
  }

  /** What is needed of the memory below segment `k`. */
  ghost predicate Beneath(s: Space, k: nat, tbase: nat, tsize: nat) {
    && k < |s.segs| && tbase % 8 == 0 && tbase > 0 && tsize % 8 == 0 && tsize >= MIN_CHUNK && tbase + tsize == s.segs[k].base && Apart(s, tbase, tsize, |s.segs|)
  }

  lemma HalfHeads(s: Space, k: nat, tbase: nat, tsize: nat, nb: nat)
    requires Ok(s, {}) && Beneath(s, k, tbase, tsize) && 0 < nb < tsize
    ensures var o := tbase + tsize; o in s.heads && var h := s.heads[tbase := Head(nb, true, true)][tbase + nb := Head(tsize - nb, true, true)];
      h == h[o := s.heads[o].(pin := true)]
  {
    hide Ok;
    BaseIs(s, {}, k);
  }

  lemma HalfOk(s: Space, k: nat, tbase: nat, tsize: nat, nb: nat, n: nat, m: Memory, m1: Memory)
    requires Ok(s, {}) && Beneath(s, k, tbase, tsize) && Fits(nb, n) && nb + MIN_CHUNK <= tsize && WritesWithin(m, m1, tbase, tbase + tsize)
    ensures Ok(Half(s, k, tbase, tsize, nb, n), {}) && Keeps(s, m, Half(s, k, tbase, tsize, nb, n), m1, 0) && tbase !in s.live && tbase + nb !in s.live
  {
    var a := s.(segs := s.segs[k := Seg(tbase, s.segs[k].size + tsize)], heads := s.heads[tbase := Head(tsize, true, true)],
                tiles := s.tiles[tbase := Tile(tsize, true)], live := s.live[tbase := 0]);
    var s1 := Half(s, k, tbase, tsize, nb, n);
    BaseIs(s, {}, k);
    HalfHeads(s, k, tbase, tsize, nb);
    hide Ok, Keeps, Retile, WritesWithin, Apart;
    AdjoinedOk(s, a, k, tbase, tsize, m);
    var h := a.heads[tbase := Head(nb, true, true)];
    var h2 := h[tbase + nb := Head(tsize - nb, true, true)];
    HalfWords(s, a, s1, k, tbase, tsize, nb, n, h, h2);
    ShrunkStep(a, s1, h, h2, h2, m, m1, tbase, tsize, nb, n);
    KeepsSkip(s, m, a, m, {}, tbase);
    KeepsThen(s, m, a, m, s1, m1, tbase);
    KeepsNew(s, {}, m, s1, m1, tbase);
  }

  lemma HalfWords(s: Space, a: Space, s1: Space, k: nat, tbase: nat, tsize: nat, nb: nat, n: nat, h: Heads, h2: Heads)
    requires k < |s.segs| && 0 < nb < tsize && tbase + tsize in s.heads
    requires a == s.(segs := s.segs[k := Seg(tbase, s.segs[k].size + tsize)], heads := s.heads[tbase := Head(tsize, true, true)],
                     tiles := s.tiles[tbase := Tile(tsize, true)], live := s.live[tbase := 0])
    requires s1 == Half(s, k, tbase, tsize, nb, n) && h == a.heads[tbase := Head(nb, true, true)] && h2 == h[tbase + nb := Head(tsize - nb, true, true)]
    requires s1.heads == s1.heads[tbase + tsize := s.heads[tbase + tsize].(pin := true)]
    ensures Shrunk(a, s1, h, h2, h2, tbase, tsize, nb, n)
  {
    hide Retile;
    assert h == s.heads[tbase := Head(nb, true, true)];
    assert h2 == s1.heads;
    assert h2 == h2[tbase + nb := Head(tsize - nb, true, true)];
  }

  /** What is behind the rest. */
  lemma HalfMerging(s: Space, k: nat, tbase: nat, tsize: nat, nb: nat, n: nat, b: nat)
    requires Ok(s, {}) && Beneath(s, k, tbase, tsize) && 0 < nb < tsize
    requires var o := tbase + tsize; o in s.tiles && if s.tiles[o].used then b == o else b == End(s.tiles, o)
    ensures b > tbase + nb && Merging(Half(s, k, tbase, tsize, nb, n), tbase + nb, tbase + nb, tbase + tsize, b)
  {
    hide Retile;
    var t := s.tiles[tbase := Tile(tsize, true)];
    RetileAt(t, tbase, tbase + nb, tbase + tsize, true, true, tbase + nb);
    RetileAt(t, tbase, tbase + nb, tbase + tsize, true, true, tbase + tsize);
    GeoAt(s.tiles, s.segs, s.limits, tbase + tsize);
  }

  // ---------------------------------------------------------------------- live chunks

  /** The program asks for another size that the chunk has room for. */
  lemma LiveResized(s: Space, s1: Space, p: nat, n: nat, m: Memory)
    requires Ok(s, {}) && p in s.live && s1 == s.(live := s.live[p := n])
    requires if p in s.tiles then n + 4 <= s.tiles[p].size else p in s.direct && n + 8 <= s.direct[p]
    ensures Ok(s1, {}) && Keeps(s, m, s1, m, p)
  {
    hide Geo, Tags, Lone, Binned, BasePins, TopOk, DvOk, LooseOk, BigEnough, Directs;
    forall q | q in s1.live ensures LiveAt(s1.live, s1.tiles, s1.direct, s1.internal, q) { LiveIs(s, {}, q); }
    forall q | q in s1.tiles ensures OwnedAt(s1.live, s1.tiles, s1.limits, s1.top, s1.internal, q) { OwnedIs(s, {}, q); }
    forall q | q in s.live && q != p ensures SameChunk(s, s1, q) { LiveIs(s, {}, q); }
  }

  /** A live chunk by its words, one in a segment and one that was mapped on its own. */
  ghost predicate TileWords(s: Space, p: nat) {
    && p in s.live && p in s.tiles && p in s.heads && p > 0 && s.heads[p] == Head(s.tiles[p].size, true, s.heads[p].pin) && s.tiles[p].used
    && s.live[p] + 4 <= s.tiles[p].size && (!s.heads[p].pin ==> p in s.foots && s.foots[p] % 2 == 0) && End(s.tiles, p) in s.tiles && End(s.tiles, p) in s.heads
    && s.heads[End(s.tiles, p)] == Head(s.tiles[End(s.tiles, p)].size, s.tiles[End(s.tiles, p)].used, true)
  }

  ghost predicate DirectWords(s: Space, p: nat) {
    && p in s.live && p !in s.tiles && p in s.direct && p in s.heads && p > 0 && p in s.foots && s.heads[p] == Head(s.direct[p], true, false) && s.foots[p] == 1
    && s.live[p] + 8 <= s.direct[p]
  }

  lemma LiveWords(s: Space, p: nat)
    requires Ok(s, {}) && p in s.live
    ensures if p in s.tiles then TileWords(s, p) else DirectWords(s, p)
  {
    hide Ok;
    if p in s.tiles {
      LiveTags(s, p);
      if !s.heads[p].pin { FootIs(s, p); Even(s.foots[p]); }
    } else {
      LiveIs(s, {}, p);
      DirectIs(s, {}, p);
      NullNotLive(s, {});
    }
  }

  lemma {:induction false} Even(x: nat)
    requires x % 8 == 0
    ensures x % 2 == 0
  {
    if x >= 8 { Even(x - 8); }
  }

  lemma FootIs(s: Space, p: nat)
    requires Ok(s, {}) && p in s.live && p in s.tiles && p in s.heads && !s.heads[p].pin
    ensures p in s.foots && s.foots[p] % 8 == 0 && s.foots[p] <= p
    ensures var a := p - s.foots[p]; a in s.tiles && End(s.tiles, a) == p && !s.tiles[a].used && a != s.top && a != p
  {
    hide Binned, DvOk, LooseOk, Directs, Lone, Owned, BigEnough;
    TopEnd(s, {});
    var q := PrevFree(s.tiles, s.segs, s.limits, s.heads, s.foots, s.top, p);
    GeoAt(s.tiles, s.segs, s.limits, q);
  }

  // -------------------------------------------------------------------- words to come

  /** `s` is `s0`, but for the head of chunk `a`, which is about to be written. */
  ghost predicate Seems(s: Space, s0: Space, a: nat) {
    a in s0.heads && s == s0.(heads := s.heads) && HeadSet(s.heads, s0.heads, a, s0.heads[a])
  }

  lemma SeemsSelf(s: Space, a: nat)
    requires a in s.heads
    ensures Seems(s, s, a)
  {
    assert s.heads == s.heads[a := s.heads[a]];
  }

  lemma SeemsSet(s: Space, s0: Space, a: nat, h1: Heads, v: Head)
    requires Seems(s, s0, a) && HeadSet(s.heads, h1, a, v)
    ensures HeadSet(s0.heads, h1, a, v)
  {
  }

  lemma SeemsHas(s: Space, s0: Space, a: nat, q: nat)
    requires Seems(s, s0, a) && q in s0.heads && q != a
    ensures q in s.heads && s.heads[q] == s0.heads[q]
  {
  }

  lemma SeemsPin(s: Space, s0: Space, a: nat, q: nat, h: Heads, h1: Heads, v: Head) returns (g: Heads)
    requires Seems(s, s0, a) && q != a && q in s0.heads && q in s.heads && HeadSet(s.heads, h, q, s.heads[q].(pin := false)) && HeadSet(h, h1, a, v)
    ensures HeadSet(s0.heads, g, q, s0.heads[q].(pin := false)) && HeadSet(g, h1, a, v)
  {
    g := s0.heads[q := s0.heads[q].(pin := false)];
  }

  /** A word is written twice. */
  lemma HeadTwice(h: Heads, h1: Heads, h2: Heads, q: nat, w: Head, v: Head)
    requires HeadSet(h, h1, q, w) && HeadSet(h1, h2, q, v)
    ensures HeadSet(h, h2, q, v)
  {
  }
}
