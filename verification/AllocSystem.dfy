/** Steps of the allocator (lj_alloc.c) that change the segments, on its state as a value. */
module AllocSystem {
  import opened AllocSizes
  import opened AllocTiles
  import opened AllocSpace
  import opened AllocKeep
  import opened AllocSteps

  /** Memory from `base` on, `size` bytes, is apart from everything mapped but segment `skip`. */
  ghost predicate Apart(s: Space, base: nat, size: nat, skip: nat) {
    && (forall i: nat {:trigger s.segs[i]} :: i < |s.segs| && i != skip ==> SegApart(Seg(base, size), s.segs[i]))
    && forall p {:trigger p in s.direct} :: p in s.direct ==> SegApart(Seg(p, s.direct[p] + 16), Seg(base, size))
  }

  // ------------------------------------------------------------ the top chunk is resized

  /** init_top with the old top chunk: its segment has another size. */
  ghost predicate TopResized(s: Space, s1: Space, h: Heads, size: nat, segsize: nat) {
    && |s.segs| > 0 && |s.limits| > 0
    && s1.segs == s.segs[0 := Seg(s.segs[0].base, segsize)] && s1.limits == s.limits[0 := s.top + size] && s1.tiles == s.tiles[s.top := Tile(size, false)]
    && HeadSet(s.heads, h, s.top, Head(size, false, true)) && HeadSet(h, s1.heads, s.top + size, Head(32, false, false)) && s1.foots == s.foots
    && s1.top == s.top && s1.topsize == size && s1.dv == s.dv && s1.dvsize == s.dvsize
    && s1.direct == s.direct && s1.live == s.live && s1.internal == s.internal && s1.free == s.free
    && size > 0 && size % 8 == 0 && s.top + size + 32 == s.segs[0].base + segsize <= WORD && Apart(s, s.segs[0].base, segsize, 0)
  }

  /** Chunks other than the top chunk end before it, or are in other segments. */
  lemma BelowTop(s: Space, loose: set<nat>, p: nat)
    requires Ok(s, loose) && p in s.tiles && p != s.top
    ensures |s.segs| > 0 && |s.limits| == |s.segs| && (exists i: nat :: i < |s.segs| && Within(s.segs, s.limits, p, End(s.tiles, p), i) && (i == 0 ==> End(s.tiles, p) <= s.top))
    ensures End(s.tiles, p) != s.limits[0]
  {
    hide Tags, Lone, Binned, BasePins, DvOk, LooseOk, BigEnough, Owned, Directs;
    GeoAt(s.tiles, s.segs, s.limits, p);
    GeoAt(s.tiles, s.segs, s.limits, s.top);
    GeoPair(s.tiles, s.segs, s.limits, p, s.top);
    GeoPair(s.tiles, s.segs, s.limits, s.top, p);
    var i: nat :| i < |s.segs| && Within(s.segs, s.limits, p, End(s.tiles, p), i);
  }

  lemma ResizedSegs(s: Space, s1: Space, h: Heads, size: nat, segsize: nat)
    requires Ok(s, {}) && TopResized(s, s1, h, size, segsize)
    ensures SegsOk(s1.segs, s1.limits)
  {
    hide Tags, Lone, Binned, BasePins, DvOk, LooseOk, BigEnough, Owned, Directs, HeadSet;
    TopEnd(s, {});
    GeoAt(s.tiles, s.segs, s.limits, s.top);
    assert SegOk(s.segs[0], s.limits[0]);
    TopBase(s);
    forall i | 0 <= i < |s1.segs|
      ensures SegOk(s1.segs[i], s1.limits[i])
    {
      assert SegOk(s.segs[i], s.limits[i]);
    }
    forall i, j | 0 <= i < |s1.segs| && 0 <= j < |s1.segs| && i != j
      ensures SegApart(s1.segs[i], s1.segs[j])
    {
      assert SegApart(s.segs[i], s.segs[j]);
    }
  }

  lemma TopBase(s: Space)
    requires Geo(s.tiles, s.segs, s.limits) && TopOk(s.tiles, s.limits, s.top, s.topsize)
    ensures |s.segs| > 0 && s.segs[0].base <= s.top && s.top % 8 == 0 && s.top > 0
  {
    GeoAt(s.tiles, s.segs, s.limits, s.top);
    var i: nat :| i < |s.segs| && Within(s.segs, s.limits, s.top, End(s.tiles, s.top), i);
    var l := s.limits[0];
    assert SegOk(s.segs[0], s.limits[0]);
    assert Within(s.segs, s.limits, l, l, 0);
    SameSeg(s.segs, s.limits, s.top, l, i, l, l, 0);
  }

  lemma ResizedTile(s: Space, s1: Space, h: Heads, size: nat, segsize: nat, p: nat)
    requires Ok(s, {}) && TopResized(s, s1, h, size, segsize) && p in s1.tiles
    ensures TileOk(s1.tiles, s1.segs, s1.limits, p) && TagOk(s1.heads, s1.foots, s1.tiles, s1.top, p) && LoneAt(s1.tiles, p)
    ensures OwnedAt(s1.live, s1.tiles, s1.limits, s1.top, s1.internal, p)
  {
    hide Binned, BasePins, DvOk, LooseOk, BigEnough, Directs, Tags, Lone, Apart;
    TopEnd(s, {});
    TopBase(s);
    GeoAt(s.tiles, s.segs, s.limits, p);
    TagAt(s.heads, s.foots, s.tiles, s.top, p);
    OwnedIs(s, {}, p);
    LoneIs(s.tiles, p);
    if p == s.top {
      assert s1.limits[0] == s.top + size;
      assert Within(s1.segs, s1.limits, p, End(s1.tiles, p), 0);
      FreePin(s.tiles, s.segs, s.limits, s.heads, s.foots, s.top, p);
      NotTile(s, s1, h, size, segsize);
    } else {
      BelowTop(s, {}, p);
      var i: nat :| i < |s.segs| && Within(s.segs, s.limits, p, End(s.tiles, p), i) && (i == 0 ==> End(s.tiles, p) <= s.top);
      assert Within(s1.segs, s1.limits, p, End(s1.tiles, p), i);
      if End(s.tiles, p) in s.limits {
        var j := LimitIn(s.segs, s.limits, End(s.tiles, p));
        assert s1.limits[j] == End(s.tiles, p);
      }
      GeoPair(s.tiles, s.segs, s.limits, p, s.top);
      NewLimitAway(s, s1, h, size, segsize, p, i);
      if End(s.tiles, p) == s.top { FreePin(s.tiles, s.segs, s.limits, s.heads, s.foots, s.top, s.top); }
      InLimits(s.limits, s1.limits, s.top + size, End(s.tiles, p));
    }
  }

  lemma InLimits(l: seq<nat>, l1: seq<nat>, x: nat, e: nat)
    requires |l| > 0 && l1 == l[0 := x]
    ensures e in l1 ==> e in l || e == x
  {
  }

  /** No other chunk starts or ends at the new end of the top chunk. */
  lemma NewLimitAway(s: Space, s1: Space, h: Heads, size: nat, segsize: nat, p: nat, i: nat)
    requires Ok(s, {}) && TopResized(s, s1, h, size, segsize) && p in s.tiles && p != s.top
    requires i < |s.segs| && Within(s.segs, s.limits, p, End(s.tiles, p), i) && (i == 0 ==> End(s.tiles, p) <= s.top)
    ensures p != s.top + size && End(s.tiles, p) != s.top + size
  {
    hide Binned, BasePins, DvOk, LooseOk, BigEnough, Directs, Tags, Lone, Owned, HeadSet;
    GeoAt(s.tiles, s.segs, s.limits, p);
    TopBase(s);
    assert SegOk(s.segs[i], s.limits[i]);
    if i != 0 { assert SegApart(Seg(s.segs[0].base, segsize), s.segs[i]); }
  }

  lemma NotTile(s: Space, s1: Space, h: Heads, size: nat, segsize: nat)
    requires Ok(s, {}) && TopResized(s, s1, h, size, segsize)
    ensures s.top + size !in s.tiles
  {
    hide Binned, BasePins, DvOk, LooseOk, BigEnough, Directs, Tags, Lone, Owned, HeadSet, Apart, Geo;
    if s.top + size in s.tiles {
      BelowTop(s, {}, s.top + size);
      var i: nat :| i < |s.segs| && Within(s.segs, s.limits, s.top + size, End(s.tiles, s.top + size), i) && (i == 0 ==> End(s.tiles, s.top + size) <= s.top);
      NewLimitAway(s, s1, h, size, segsize, s.top + size, i);
    }
  }

  lemma ResizedPair(s: Space, s1: Space, h: Heads, size: nat, segsize: nat, p: nat, q: nat)
    requires Ok(s, {}) && TopResized(s, s1, h, size, segsize) && p in s1.tiles && q in s1.tiles
    ensures InOrder(s1.tiles, p, q)
  {
    hide Binned, BasePins, DvOk, LooseOk, BigEnough, Directs, Tags, Lone, Owned, HeadSet;
    GeoPair(s.tiles, s.segs, s.limits, p, q);
    TopBase(s);
    if p == s.top && q != s.top && p < q {
      BelowTop(s, {}, q);
      GeoAt(s.tiles, s.segs, s.limits, q);
      var i: nat :| i < |s.segs| && Within(s.segs, s.limits, q, End(s.tiles, q), i) && (i == 0 ==> End(s.tiles, q) <= s.top);
      assert SegOk(s.segs[i], s.limits[i]);
      assert i != 0 ==> SegApart(Seg(s.segs[0].base, segsize), s.segs[i]);
    }
  }

  lemma ResizedGeo(s: Space, s1: Space, h: Heads, size: nat, segsize: nat)
    requires Ok(s, {}) && TopResized(s, s1, h, size, segsize)
    ensures Geo(s1.tiles, s1.segs, s1.limits)
  {
    ResizedSegs(s, s1, h, size, segsize);
    TopEnd(s, {});
    hide TileOk, InOrder, SegsOk;
    forall p | p in s1.tiles ensures TileOk(s1.tiles, s1.segs, s1.limits, p) { ResizedTile(s, s1, h, size, segsize, p); }
    forall p, q | p in s1.tiles && q in s1.tiles ensures InOrder(s1.tiles, p, q) { ResizedPair(s, s1, h, size, segsize, p, q); }
    forall i: nat | i < |s1.segs| ensures BaseOk(s1.tiles, s1.segs, i) { BaseIs(s, {}, i); }
  }

  lemma BaseIs(s: Space, loose: set<nat>, i: nat)
    requires Ok(s, loose) && i < |s.segs|
    ensures s.segs[i].base in s.tiles && s.segs[i].base in s.heads && s.heads[s.segs[i].base].pin
  {
    assert BaseOk(s.tiles, s.segs, i) && PinAt(s.heads, s.segs, i);
  }

  lemma ResizedTags(s: Space, s1: Space, h: Heads, size: nat, segsize: nat)
    requires Ok(s, {}) && TopResized(s, s1, h, size, segsize)
    ensures Tags(s1.heads, s1.foots, s1.tiles, s1.top) && Lone(s1.tiles) && Owned(s1.live, s1.tiles, s1.limits, s1.top, s1.direct, s1.internal)
  {
    TopEnd(s, {});
    hide TagOk, LoneAt, OwnedAt;
    forall p | p in s1.tiles
      ensures TagOk(s1.heads, s1.foots, s1.tiles, s1.top, p) && LoneAt(s1.tiles, p) && OwnedAt(s1.live, s1.tiles, s1.limits, s1.top, s1.internal, p)
    {
      ResizedTile(s, s1, h, size, segsize, p);
    }
    forall p | p in s1.live ensures LiveAt(s1.live, s1.tiles, s1.direct, s1.internal, p) { LiveIs(s, {}, p); }
    forall p | p in s1.internal ensures p in s1.tiles && s1.tiles[p].used { InternalIs(s, {}, p); }
  }

  lemma InternalIs(s: Space, loose: set<nat>, p: nat)
    requires Ok(s, loose) && p in s.internal
    ensures p in s.tiles && s.tiles[p].used
  {
  }

  /** The state is in order when the top chunk and its segment have another size. */
  lemma TopResizedOk(s: Space, s1: Space, h: Heads, size: nat, segsize: nat)
    requires Ok(s, {}) && TopResized(s, s1, h, size, segsize)
    ensures Ok(s1, {})
  {
    TopEnd(s, {});
    ResizedGeo(s, s1, h, size, segsize);
    ResizedTags(s, s1, h, size, segsize);
    ResizedRest(s, s1, h, size, segsize);
    hide HeadSet, Apart, BasePins, Directs, Binned, Geo, Tags, Lone, Owned;
  }

  lemma ResizedRest(s: Space, s1: Space, h: Heads, size: nat, segsize: nat)
    requires Ok(s, {}) && TopResized(s, s1, h, size, segsize)
    ensures BasePins(s1.heads, s1.segs) && Binned(s1.free, s1.tiles, s1.top, s1.dv, {}) && Directs(s1.direct, s1.segs, s1.heads, s1.foots)
  {
    hide Lone, Owned, LooseOk, BigEnough, Tags;
    TopEnd(s, {});
    TopBase(s);
    FreePin(s.tiles, s.segs, s.limits, s.heads, s.foots, s.top, s.top);
    forall i: nat | i < |s1.segs|
      ensures PinAt(s1.heads, s1.segs, i)
    {
      assert PinAt(s.heads, s.segs, i) && BaseOk(s.tiles, s.segs, i);
      NotTile(s, s1, h, size, segsize);
    }
    forall p: nat
      ensures BinnedAt(s1.free, s1.tiles, s1.top, s1.dv, {}, p)
    {
      BinnedIs(s.free, s.tiles, s.top, s.dv, {}, p);
    }
    BinnedBy(s1.free, s1.tiles, s1.top, s1.dv, {});
    hide Binned, BasePins, Geo;
    forall p | p in s1.direct
      ensures DirectAt(s1.direct, s1.segs, s1.heads, s1.foots, p)
    {
      assert DirectAt(s.direct, s.segs, s.heads, s.foots, p);
      assert SegApart(Seg(p, s.direct[p] + 16), Seg(s.segs[0].base, segsize));
      forall i: nat | i < |s1.segs|
        ensures SegApart(Seg(p, s1.direct[p] + 16), s1.segs[i])
      {
        DirectSeg(s.direct, s.segs, s.heads, s.foots, p, i);
      }
    }
  }

  lemma DirectSeg(direct: map<nat, nat>, segs: seq<Seg>, heads: Heads, foots: Foots, p: nat, i: nat)
    requires p in direct && DirectAt(direct, segs, heads, foots, p) && i < |segs|
    ensures SegApart(Seg(p, direct[p] + 16), segs[i])
  {
  }

  /** The heads of the top chunk and of the fake chunk behind it hold no payload. */
  lemma TopResizedKeeps(s: Space, s1: Space, h: Heads, size: nat, segsize: nat, m: Memory, m1: Memory)
    requires Ok(s, {}) && TopResized(s, s1, h, size, segsize)
    requires forall x: nat {:trigger m1(x)} :: !(s.top + 4 <= x < s.top + 8) && !(s.top + size + 4 <= x < s.top + size + 8) ==> m1(x) == m(x)
    ensures Keeps(s, m, s1, m1, 0)
  {
    hide HeadSet, Tags, Lone, Binned, BasePins, DvOk, LooseOk, BigEnough, Owned;
    TopEnd(s, {});
    forall p: nat, x: nat | Payload(s, p, x)
      ensures m1(x) == m(x)
    {
      PayloadTop(s, p, x);
      LiveIs(s, {}, p);
      TopBase(s);
      if p in s.tiles {
        BelowTop(s, {}, p);
        var i: nat :| i < |s.segs| && Within(s.segs, s.limits, p, End(s.tiles, p), i) && (i == 0 ==> End(s.tiles, p) <= s.top);
        assert SegOk(s.segs[i], s.limits[i]);
        assert i != 0 ==> SegApart(Seg(s.segs[0].base, segsize), s.segs[i]);
      } else {
        assert SegApart(Seg(p, s.direct[p] + 16), Seg(s.segs[0].base, segsize));
      }
    }
    forall p | p in s.live
      ensures SameChunk(s, s1, p)
    {
      LiveIs(s, {}, p);
    }
  }

  /** A live chunk is not the top chunk, and its payload is not at the top chunk's head. */
  lemma PayloadTop(s: Space, p: nat, x: nat)
    requires Ok(s, {}) && Payload(s, p, x)
    ensures p != s.top && !(s.top + 4 <= x < s.top + 8)
  {
    hide Tags, Lone, Binned, BasePins, DvOk, LooseOk, BigEnough, Geo;
    TopEnd(s, {});
    LiveIs(s, {}, p);
    TopBase(s);
    HeadsAt(s, {}, s.top);
    NullNotLive(s, {});
    ClearFree(s, {}, s.top);
  }
}
