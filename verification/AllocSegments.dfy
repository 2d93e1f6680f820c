/** Segments come and go (lj_alloc.c), on the allocator's state as a value. */
module AllocSegments {
  import opened AllocSizes
  import opened AllocTiles
  import opened AllocSpace
  import opened AllocKeep
  import opened AllocSteps
  import opened AllocSystem

  // ------------------------------------------------------------------ a new segment

  /** Where the record of the old segment goes: behind the old top chunk, or in its place. */
  function RecordAt(s: Space): nat { if s.topsize >= MIN_CHUNK then s.top + s.topsize else s.top }

  /** The old top chunk, if it is not replaced by the record. */
  function OldTop(s: Space): set<nat> { if RecordAt(s) != s.top then {s.top} else {} }

  /** The words that add_segment writes. */
  ghost predicate AddedWords(s: Space, s1: Space, tbase: nat, tsize: nat) {
    var csp, limit := RecordAt(s), tbase + tsize - 32;
    && |s.segs| > 0 && tsize >= 48
    && tbase in s1.heads && s1.heads[tbase] == Head(tsize - 32, false, true) && limit in s1.heads && s1.heads[limit] == Head(32, false, false)
    && csp in s1.heads && s1.heads[csp] == Head(16, true, csp == s.top) && csp + 16 in s1.heads && s1.heads[csp + 16] == Head(4, true, true)
    && (csp != s.top ==> s.top in s1.heads && s1.heads[s.top] == Head(s.topsize, false, true) && csp in s1.foots && s1.foots[csp] == s.topsize)
    && (forall q {:trigger q in s1.heads} {:trigger q in s.heads} ::
          q in s.heads && !(s.top <= q < s.segs[0].base + s.segs[0].size) && !(tbase <= q < tbase + tsize) ==> q in s1.heads && s1.heads[q] == s.heads[q])
    && (forall q {:trigger q in s1.foots} {:trigger q in s.foots} ::
          q in s.foots && !(s.top < q < s.segs[0].base + s.segs[0].size) ==> q in s1.foots && s1.foots[q] == s.foots[q])
  }

  ghost predicate Added(s: Space, s1: Space, tbase: nat, tsize: nat) {
    && |s.segs| == |s.limits| > 0
    && tbase % 8 == 0 && tbase > 0 && tsize % 8 == 0 && tsize >= 48 && tbase + tsize <= WORD && Apart(s, tbase, tsize, |s.segs|)
    && s1.segs == [Seg(tbase, tsize)] + s.segs && s1.limits == [tbase + tsize - 32] + s.limits[0 := RecordAt(s) + 16]
    && s1.tiles == s.tiles[RecordAt(s) := Tile(16, true)][tbase := Tile(tsize - 32, false)]
    && s1.top == tbase && s1.topsize == tsize - 32 && s1.dv == s.dv && s1.dvsize == s.dvsize
    && s1.direct == s.direct && s1.live == s.live && s1.free == s.free && s1.internal == s.internal + {RecordAt(s)}
    && AddedWords(s, s1, tbase, tsize)
  }

  lemma RecordIs(s: Space)
    requires Ok(s, {})
    ensures RecordAt(s) % 8 == 0 && s.top <= RecordAt(s) && RecordAt(s) + 32 <= s.segs[0].base + s.segs[0].size && s.segs[0].base <= s.top
    ensures s.segs[0].base + s.segs[0].size <= WORD && s.topsize % 8 == 0 && s.topsize > 0 && s.top > 0 && s.top % 8 == 0
    ensures |s.segs| == |s.limits| > 0 && RecordAt(s) != s.top ==> RecordAt(s) == s.limits[0]
  {
    hide Tags, Lone, Binned, BasePins, DvOk, LooseOk, BigEnough, Owned, Directs;
    TopEnd(s, {});
    TopBase(s);
    HeadsAt(s, {}, s.top);
    assert SegOk(s.segs[0], s.limits[0]);
  }

  /** A chunk but the top chunk, seen from the top chunk and the new segment. */
  lemma OtherTile(s: Space, tbase: nat, tsize: nat, p: nat) returns (i: nat)
    requires Ok(s, {}) && p in s.tiles && p != s.top && tsize > 0 && Apart(s, tbase, tsize, |s.segs|)
    ensures i < |s.segs| == |s.limits| && Within(s.segs, s.limits, p, End(s.tiles, p), i) && End(s.tiles, p) != s.limits[0]
    ensures if i == 0 then End(s.tiles, p) <= s.top else End(s.tiles, p) + 16 <= s.segs[0].base || s.segs[0].base + s.segs[0].size <= p
    ensures End(s.tiles, p) + 16 <= tbase || tbase + tsize <= p
    ensures p < End(s.tiles, p)
  {
    hide Tags, Lone, Binned, BasePins, DvOk, LooseOk, BigEnough, Owned, Directs;
    BelowTop(s, {}, p);
    GeoAt(s.tiles, s.segs, s.limits, p);
    i :| i < |s.segs| && Within(s.segs, s.limits, p, End(s.tiles, p), i) && (i == 0 ==> End(s.tiles, p) <= s.top);
    assert SegOk(s.segs[i], s.limits[i]);
    assert SegApart(Seg(tbase, tsize), s.segs[i]);
    assert i != 0 ==> SegApart(s.segs[0], s.segs[i]);
  }

  lemma AddedSegs(s: Space, s1: Space, tbase: nat, tsize: nat)
    requires Ok(s, {}) && Added(s, s1, tbase, tsize)
    ensures SegsOk(s1.segs, s1.limits) && FootOk(s1.segs, s1.limits)
  {
    hide Tags, Lone, Binned, BasePins, DvOk, LooseOk, BigEnough, Owned, Directs, AddedWords;
    RecordIs(s);
    forall i | 0 <= i < |s1.segs|
      ensures SegOk(s1.segs[i], s1.limits[i])
    {
      if i > 0 { assert SegOk(s.segs[i - 1], s.limits[i - 1]); }
    }
    forall i, j | 0 <= i < |s1.segs| && 0 <= j < |s1.segs| && i != j
      ensures SegApart(s1.segs[i], s1.segs[j])
    {
      if i == 0 {
        assert SegApart(Seg(tbase, tsize), s.segs[j - 1]);
      } else if j == 0 {
        assert SegApart(Seg(tbase, tsize), s.segs[i - 1]);
      } else {
        assert SegApart(s.segs[i - 1], s.segs[j - 1]);
      }
    }
  }

  lemma AddedLimit(s: Space, s1: Space, tbase: nat, tsize: nat, e: nat)
    requires Added(s, s1, tbase, tsize)
    ensures e in s.limits && e != s.limits[0] ==> e in s1.limits
    ensures e in s1.limits ==> (e in s.limits && e != s.limits[0]) || e == RecordAt(s) + 16 || e == tbase + tsize - 32 || e in s.limits[1..]
    ensures e in s.limits[1..] ==> e in s.limits
  {
    hide AddedWords;
    var l1 := s.limits[0 := RecordAt(s) + 16];
    if e in s.limits && e != s.limits[0] {
      var j :| 0 <= j < |s.limits| && s.limits[j] == e;
      assert s1.limits[j + 1] == e;
    }
    if e in s1.limits {
      var j :| 0 <= j < |s1.limits| && s1.limits[j] == e;
      if j > 1 { assert s.limits[1..][j - 2] == e; }
    }
  }

  lemma AddedTile(s: Space, s1: Space, tbase: nat, tsize: nat, p: nat)
    requires Ok(s, {}) && Added(s, s1, tbase, tsize) && p in s1.tiles
    ensures TileOk(s1.tiles, s1.segs, s1.limits, p)
  {
    hide Tags, Lone, Binned, BasePins, DvOk, LooseOk, BigEnough, Owned, Directs, AddedWords, Apart;
    RecordIs(s);
    TopEnd(s, {});
    var csp := RecordAt(s);
    assert s1.limits[0] == tbase + tsize - 32 && s1.limits[1] == csp + 16;
    if p == tbase {
      assert Within(s1.segs, s1.limits, p, End(s1.tiles, p), 0);
    } else if p == csp {
      assert Within(s1.segs, s1.limits, p, End(s1.tiles, p), 1);
    } else if p == s.top {
      assert Within(s1.segs, s1.limits, p, End(s1.tiles, p), 1);
    } else {
      GeoAt(s.tiles, s.segs, s.limits, p);
      var i := OtherTile(s, tbase, tsize, p);
      assert Within(s1.segs, s1.limits, p, End(s1.tiles, p), i + 1);
      AddedLimit(s, s1, tbase, tsize, End(s.tiles, p));
    }
  }

  lemma AddedPair(s: Space, s1: Space, tbase: nat, tsize: nat, p: nat, q: nat)
    requires Ok(s, {}) && Added(s, s1, tbase, tsize) && p in s1.tiles && q in s1.tiles
    ensures InOrder(s1.tiles, p, q)
  {
    hide Tags, Lone, Binned, BasePins, DvOk, LooseOk, BigEnough, Owned, Directs, AddedWords;
    RecordIs(s);
    TopEnd(s, {});
    assert SegApart(Seg(tbase, tsize), s.segs[0]);
    if p in s.tiles && p != s.top { var i := OtherTile(s, tbase, tsize, p); }
    if q in s.tiles && q != s.top { var j := OtherTile(s, tbase, tsize, q); }
    if p in s.tiles && q in s.tiles { GeoPair(s.tiles, s.segs, s.limits, p, q); }
  }

  lemma AddedGeo(s: Space, s1: Space, tbase: nat, tsize: nat)
    requires Ok(s, {}) && Added(s, s1, tbase, tsize)
    ensures Geo(s1.tiles, s1.segs, s1.limits)
  {
    AddedSegs(s, s1, tbase, tsize);
    hide TileOk, InOrder, SegsOk, AddedWords, Apart;
    forall p | p in s1.tiles ensures TileOk(s1.tiles, s1.segs, s1.limits, p) { AddedTile(s, s1, tbase, tsize, p); }
    forall p, q | p in s1.tiles && q in s1.tiles ensures InOrder(s1.tiles, p, q) { AddedPair(s, s1, tbase, tsize, p, q); }
    forall i: nat | i < |s1.segs|
      ensures BaseOk(s1.tiles, s1.segs, i)
    {
      if i > 0 { BaseIs(s, {}, i - 1); }
    }
  }

  lemma AddedTag(s: Space, s1: Space, tbase: nat, tsize: nat, p: nat)
    requires Ok(s, {}) && Added(s, s1, tbase, tsize) && p in s1.tiles
    ensures TagOk(s1.heads, s1.foots, s1.tiles, s1.top, p) && LoneAt(s1.tiles, p)
  {
    hide Binned, BasePins, DvOk, LooseOk, BigEnough, Owned, Directs, Tags, Lone, Geo;
    RecordIs(s);
    TopEnd(s, {});
    SegApartTop(s, tbase, tsize);
    if p == tbase {
      NotNext(s, s1, tbase, tsize, tbase + tsize - 32);
    } else if p == RecordAt(s) {
    } else if p == s.top {
    } else {
      var i := OtherTile(s, tbase, tsize, p);
      TagAt(s.heads, s.foots, s.tiles, s.top, p);
      LoneIs(s.tiles, p);
      if End(s.tiles, p) == s.top { TopPin(s); }
    }
  }

  lemma TopPin(s: Space)
    requires Ok(s, {})
    ensures s.top in s.heads && s.heads[s.top].pin
  {
    hide Binned, DvOk, LooseOk, BigEnough, Owned, Directs, BasePins;
    TopEnd(s, {});
    FreePin(s.tiles, s.segs, s.limits, s.heads, s.foots, s.top, s.top);
  }

  lemma SegApartTop(s: Space, tbase: nat, tsize: nat)
    requires Ok(s, {}) && Apart(s, tbase, tsize, |s.segs|)
    ensures |s.segs| > 0 && SegApart(Seg(tbase, tsize), s.segs[0])
  {
  }

  /** No chunk starts behind the new top chunk. */
  lemma NotNext(s: Space, s1: Space, tbase: nat, tsize: nat, q: nat)
    requires Ok(s, {}) && Added(s, s1, tbase, tsize) && tbase < q < tbase + tsize
    ensures q !in s1.tiles
  {
    hide Binned, BasePins, DvOk, LooseOk, BigEnough, Owned, Directs, Tags, Lone, Geo, AddedWords;
    RecordIs(s);
    SegApartTop(s, tbase, tsize);
    if q in s.tiles && q != s.top { var i := OtherTile(s, tbase, tsize, q); }
  }

  lemma AddedTags(s: Space, s1: Space, tbase: nat, tsize: nat)
    requires Ok(s, {}) && Added(s, s1, tbase, tsize)
    ensures Tags(s1.heads, s1.foots, s1.tiles, s1.top) && Lone(s1.tiles) && BasePins(s1.heads, s1.segs)
  {
    hide TagOk, LoneAt;
    forall p | p in s1.tiles ensures TagOk(s1.heads, s1.foots, s1.tiles, s1.top, p) && LoneAt(s1.tiles, p) { AddedTag(s, s1, tbase, tsize, p); }
    forall i: nat | i < |s1.segs|
      ensures PinAt(s1.heads, s1.segs, i)
    {
      if i > 0 { AddedPin(s, s1, tbase, tsize, i - 1); }
    }
  }

  lemma AddedPin(s: Space, s1: Space, tbase: nat, tsize: nat, i: nat)
    requires Ok(s, {}) && Added(s, s1, tbase, tsize) && i < |s.segs|
    ensures s.segs[i].base in s1.heads && s1.heads[s.segs[i].base].pin
  {
    hide Binned, DvOk, LooseOk, BigEnough, Owned, Directs, Tags, Lone, Geo;
    BaseIs(s, {}, i);
    RecordIs(s);
    SegApartTop(s, tbase, tsize);
    var b := s.segs[i].base;
    if b != s.top { var j := OtherTile(s, tbase, tsize, b); }
  }

  lemma AddedOwned(s: Space, s1: Space, tbase: nat, tsize: nat)
    requires Ok(s, {}) && Added(s, s1, tbase, tsize)
    ensures Owned(s1.live, s1.tiles, s1.limits, s1.top, s1.direct, s1.internal)
  {
    hide Binned, DvOk, LooseOk, BigEnough, Directs, Tags, Lone, Geo, BasePins, AddedWords;
    RecordIs(s);
    TopEnd(s, {});
    SegApartTop(s, tbase, tsize);
    forall p | p in s1.tiles
      ensures OwnedAt(s1.live, s1.tiles, s1.limits, s1.top, s1.internal, p)
    {
      if p in s.tiles && p != s.top && p != tbase && p != RecordAt(s) {
        var i := OtherTile(s, tbase, tsize, p);
        OwnedIs(s, {}, p);
        AddedLimit(s, s1, tbase, tsize, End(s.tiles, p));
      } else if p == s.top && p != RecordAt(s) {
        AddedTopEnd(s, s1, tbase, tsize);
      }
    }
    forall p | p in s1.live
      ensures LiveAt(s1.live, s1.tiles, s1.direct, s1.internal, p)
    {
      LiveIs(s, {}, p);
      LiveNotNew(s, tbase, tsize, p);
    }
    forall p | p in s1.internal
      ensures p in s1.tiles && s1.tiles[p].used
    {
      if p in s.internal {
        InternalIs(s, {}, p);
        var i := OtherTile(s, tbase, tsize, p);
      }
    }
  }

  /** Where the old top chunk ends no segment ends any more. */
  lemma AddedTopEnd(s: Space, s1: Space, tbase: nat, tsize: nat)
    requires Ok(s, {}) && Added(s, s1, tbase, tsize) && RecordAt(s) != s.top
    ensures RecordAt(s) !in s1.limits
  {
    AddedSegs(s, s1, tbase, tsize);
    RecordIs(s);
    AddedGeo(s, s1, tbase, tsize);
    NotAtLimit(s1.tiles, s1.segs, s1.limits, RecordAt(s));
  }

  /** A live chunk is neither the record nor in the new segment. */
  lemma LiveNotNew(s: Space, tbase: nat, tsize: nat, p: nat)
    requires Ok(s, {}) && tsize > 0 && Apart(s, tbase, tsize, |s.segs|) && p in s.live
    ensures p != tbase && p != RecordAt(s)
  {
    hide Binned, DvOk, LooseOk, BigEnough, Tags, Lone, BasePins;
    LiveIs(s, {}, p);
    RecordIs(s);
    TopEnd(s, {});
    if p in s.tiles {
      var i := OtherTile(s, tbase, tsize, p);
    } else {
      DirectIs(s, {}, p);
      DirectSeg(s.direct, s.segs, s.heads, s.foots, p, 0);
    }
  }

  lemma AddedRest(s: Space, s1: Space, tbase: nat, tsize: nat)
    requires Ok(s, {}) && Added(s, s1, tbase, tsize)
    ensures Binned(s1.free, s1.tiles, s1.top, s1.dv, OldTop(s)) && DvOk(s1.tiles, s1.top, s1.dv, s1.dvsize, OldTop(s))
    ensures LooseOk(s1.tiles, s1.top, OldTop(s)) && BigEnough(s1.tiles, s1.top) && TopOk(s1.tiles, s1.limits, s1.top, s1.topsize)
  {
    hide Tags, Lone, Geo, BasePins, AddedWords, Directs, Owned;
    RecordIs(s);
    TopEnd(s, {});
    SegApartTop(s, tbase, tsize);
    NotTileNow(s, tbase, tsize, tbase);
    RecordNew(s);
    forall p: nat
      ensures BinnedAt(s1.free, s1.tiles, s1.top, s1.dv, OldTop(s), p)
    {
      BinnedIs(s.free, s.tiles, s.top, s.dv, {}, p);
    }
    BinnedBy(s1.free, s1.tiles, s1.top, s1.dv, OldTop(s));
  }

  lemma RecordNew(s: Space)
    requires Ok(s, {})
    ensures RecordAt(s) in s.tiles ==> RecordAt(s) == s.top
  {
    hide Tags, Lone, BasePins, Directs, Owned, Binned, DvOk, LooseOk, BigEnough;
    RecordIs(s);
    if RecordAt(s) in s.tiles && RecordAt(s) != s.top { NotAtLimit(s.tiles, s.segs, s.limits, RecordAt(s)); }
  }

  lemma NotTileNow(s: Space, tbase: nat, tsize: nat, q: nat)
    requires Ok(s, {}) && tsize > 0 && Apart(s, tbase, tsize, |s.segs|) && tbase <= q < tbase + tsize
    ensures q !in s.tiles
  {
    hide Tags, Lone, Geo, BasePins, Directs, Owned, Binned, DvOk, LooseOk, BigEnough;
    RecordIs(s);
    SegApartTop(s, tbase, tsize);
    if q in s.tiles && q != s.top { var i := OtherTile(s, tbase, tsize, q); }
  }

  lemma AddedDirects(s: Space, s1: Space, tbase: nat, tsize: nat)
    requires Ok(s, {}) && Added(s, s1, tbase, tsize)
    ensures Directs(s1.direct, s1.segs, s1.heads, s1.foots)
  {
    hide Tags, Lone, Geo, BasePins, Owned, Binned, DvOk, LooseOk, BigEnough;
    RecordIs(s);
    forall p | p in s1.direct
      ensures DirectAt(s1.direct, s1.segs, s1.heads, s1.foots, p)
    {
      DirectIs(s, {}, p);
      DirectSeg(s.direct, s.segs, s.heads, s.foots, p, 0);
      assert SegApart(Seg(p, s.direct[p] + 16), Seg(tbase, tsize));
      forall i: nat | i < |s1.segs|
        ensures SegApart(Seg(p, s1.direct[p] + 16), s1.segs[i])
      {
        if i > 0 { DirectSeg(s.direct, s.segs, s.heads, s.foots, p, i - 1); }
      }
    }
  }

  /** The state is in order with a new segment. */
  lemma AddedOk(s: Space, s1: Space, tbase: nat, tsize: nat)
    requires Ok(s, {}) && Added(s, s1, tbase, tsize)
    ensures Ok(s1, OldTop(s))
  {
    AddedGeo(s, s1, tbase, tsize);
    AddedSegs(s, s1, tbase, tsize);
    AddedTags(s, s1, tbase, tsize);
    AddedOwned(s, s1, tbase, tsize);
    AddedRest(s, s1, tbase, tsize);
    AddedDirects(s, s1, tbase, tsize);
    hide Geo, Tags, Lone, BasePins, Owned, Binned, DvOk, LooseOk, BigEnough, Directs, TopOk, Added, FootOk;
  }

  /** No payload is in the new segment or behind the old top chunk. */
  lemma AddedKeeps(s: Space, s1: Space, tbase: nat, tsize: nat, m: Memory, m1: Memory)
    requires Ok(s, {}) && Added(s, s1, tbase, tsize)
    requires forall x: nat {:trigger m1(x)} :: !(s.top + 4 <= x < s.segs[0].base + s.segs[0].size) && !(tbase <= x < tbase + tsize) ==> m1(x) == m(x)
    ensures Keeps(s, m, s1, m1, 0)
  {
    hide Tags, Lone, Geo, BasePins, Owned, Binned, DvOk, LooseOk, BigEnough, AddedWords;
    RecordIs(s);
    forall p: nat, x: nat | Payload(s, p, x)
      ensures m1(x) == m(x)
    {
      PayloadTop(s, p, x);
      LiveIs(s, {}, p);
      if p in s.tiles {
        var i := OtherTile(s, tbase, tsize, p);
      } else {
        DirectIs(s, {}, p);
        DirectSeg(s.direct, s.segs, s.heads, s.foots, p, 0);
        assert SegApart(Seg(p, s.direct[p] + 16), Seg(tbase, tsize));
      }
    }
    forall p | p in s.live
      ensures SameChunk(s, s1, p)
    {
      LiveIs(s, {}, p);
      LiveNotNew(s, tbase, tsize, p);
    }
  }

  // ------------------------------------------------------------------ a segment grows down

  /** Segment `k` gets the memory before it, as one chunk in use. */
  ghost predicate Adjoined(s: Space, s1: Space, k: nat, tbase: nat, tsize: nat) {
    && k < |s.segs| && tbase % 8 == 0 && tbase > 0 && tsize % 8 == 0 && tsize >= MIN_CHUNK && tbase + tsize == s.segs[k].base && Apart(s, tbase, tsize, |s.segs|)
    && s1.segs == s.segs[k := Seg(tbase, s.segs[k].size + tsize)] && s1.limits == s.limits && s1.tiles == s.tiles[tbase := Tile(tsize, true)]
    && s1.live == s.live[tbase := 0] && HeadSet(s.heads, s1.heads, tbase, Head(tsize, true, true)) && s1.foots == s.foots
    && s1.top == s.top && s1.topsize == s.topsize && s1.dv == s.dv && s1.dvsize == s.dvsize && s1.direct == s.direct && s1.internal == s.internal && s1.free == s.free
  }

  /** Chunks are not in memory that is apart from the segments. */
  lemma TileApart(s: Space, loose: set<nat>, base: nat, size: nat, p: nat)
    requires Ok(s, loose) && p in s.tiles && size > 0 && Apart(s, base, size, |s.segs|)
    ensures p < End(s.tiles, p) && (End(s.tiles, p) + 16 <= base || base + size <= p)
  {
    hide Tags, Lone, Binned, BasePins, DvOk, LooseOk, BigEnough, Owned, Directs;
    GeoAt(s.tiles, s.segs, s.limits, p);
    var i: nat :| i < |s.segs| && Within(s.segs, s.limits, p, End(s.tiles, p), i);
    assert SegOk(s.segs[i], s.limits[i]);
    assert SegApart(Seg(base, size), s.segs[i]);
  }

  lemma AdjoinedSegs(s: Space, s1: Space, k: nat, tbase: nat, tsize: nat)
    requires Ok(s, {}) && Adjoined(s, s1, k, tbase, tsize)
    ensures SegsOk(s1.segs, s1.limits) && FootOk(s1.segs, s1.limits)
  {
    hide Tags, Lone, Binned, BasePins, DvOk, LooseOk, BigEnough, Owned, Directs, HeadSet, TopOk;
    assert SegOk(s.segs[k], s.limits[k]);
    forall i | 0 <= i < |s1.segs| ensures SegOk(s1.segs[i], s1.limits[i]) { assert SegOk(s.segs[i], s.limits[i]); }
    forall i, j | 0 <= i < |s1.segs| && 0 <= j < |s1.segs| && i != j
      ensures SegApart(s1.segs[i], s1.segs[j])
    {
      assert SegApart(s.segs[i], s.segs[j]);
      assert SegApart(Seg(tbase, tsize), s.segs[i]) && SegApart(Seg(tbase, tsize), s.segs[j]);
    }
  }

  lemma AdjoinedTile(s: Space, s1: Space, k: nat, tbase: nat, tsize: nat, p: nat)
    requires Ok(s, {}) && Adjoined(s, s1, k, tbase, tsize) && p in s1.tiles
    ensures TileOk(s1.tiles, s1.segs, s1.limits, p)
  {
    hide Tags, Lone, Binned, BasePins, DvOk, LooseOk, BigEnough, Owned, Directs, HeadSet, TopOk;
    assert SegOk(s.segs[k], s.limits[k]);
    if p == tbase {
      BaseIs(s, {}, k);
      assert Within(s1.segs, s1.limits, p, End(s1.tiles, p), k);
    } else {
      GeoAt(s.tiles, s.segs, s.limits, p);
      TileApart(s, {}, tbase, tsize, p);
      var i: nat :| i < |s.segs| && Within(s.segs, s.limits, p, End(s.tiles, p), i);
      assert Within(s1.segs, s1.limits, p, End(s1.tiles, p), i);
    }
  }

  lemma AdjoinedGeo(s: Space, s1: Space, k: nat, tbase: nat, tsize: nat)
    requires Ok(s, {}) && Adjoined(s, s1, k, tbase, tsize)
    ensures Geo(s1.tiles, s1.segs, s1.limits) && FootOk(s1.segs, s1.limits)
  {
    AdjoinedSegs(s, s1, k, tbase, tsize);
    hide TileOk, SegsOk, HeadSet, Apart;
    forall p | p in s1.tiles ensures TileOk(s1.tiles, s1.segs, s1.limits, p) { AdjoinedTile(s, s1, k, tbase, tsize, p); }
    forall p, q | p in s1.tiles && q in s1.tiles
      ensures InOrder(s1.tiles, p, q)
    {
      if p in s.tiles { TileApart(s, {}, tbase, tsize, p); }
      if q in s.tiles { TileApart(s, {}, tbase, tsize, q); }
      if p in s.tiles && q in s.tiles { GeoPair(s.tiles, s.segs, s.limits, p, q); }
    }
    forall i: nat | i < |s1.segs| ensures BaseOk(s1.tiles, s1.segs, i) { BaseIs(s, {}, i); }
  }

  lemma AdjoinedTags(s: Space, s1: Space, k: nat, tbase: nat, tsize: nat)
    requires Ok(s, {}) && Adjoined(s, s1, k, tbase, tsize)
    ensures Tags(s1.heads, s1.foots, s1.tiles, s1.top) && Lone(s1.tiles) && BasePins(s1.heads, s1.segs)
  {
    hide Geo, Binned, DvOk, LooseOk, BigEnough, Owned, Directs, BasePins, TopOk;
    BaseIs(s, {}, k);
    forall p | p in s1.tiles
      ensures TagOk(s1.heads, s1.foots, s1.tiles, s1.top, p) && LoneAt(s1.tiles, p)
    {
      if p == tbase {
        TileApart(s, {}, tbase, tsize, tbase + tsize);
      } else {
        TileApart(s, {}, tbase, tsize, p);
        TagAt(s.heads, s.foots, s.tiles, s.top, p);
        LoneIs(s.tiles, p);
      }
    }
    forall i: nat | i < |s1.segs|
      ensures PinAt(s1.heads, s1.segs, i)
    {
      BaseIs(s, {}, i);
      TileApart(s, {}, tbase, tsize, s.segs[i].base);
    }
    AdjoinedPins(s1);
  }

  lemma AdjoinedPins(s1: Space)
    requires forall i: nat {:trigger PinAt(s1.heads, s1.segs, i)} :: i < |s1.segs| ==> PinAt(s1.heads, s1.segs, i)
    ensures BasePins(s1.heads, s1.segs)
  {
  }

  lemma AdjoinedOk(s: Space, s1: Space, k: nat, tbase: nat, tsize: nat, m: Memory)
    requires Ok(s, {}) && Adjoined(s, s1, k, tbase, tsize)
    ensures Ok(s1, {}) && Keeps(s, m, s1, m, 0) && tbase !in s.live
  {
    AdjoinedGeo(s, s1, k, tbase, tsize);
    AdjoinedTags(s, s1, k, tbase, tsize);
    NewNotLive(s, tbase, tsize);
    AdjoinedRest(s, s1, k, tbase, tsize);
    hide Geo, Tags, Lone, BasePins, HeadSet, Binned, DvOk, Directs, Apart, Owned, BigEnough, LooseOk, TopOk;
    forall p | p in s.live
      ensures SameChunk(s, s1, p)
    {
      LiveIs(s, {}, p);
    }
  }

  lemma NewNotLive(s: Space, base: nat, size: nat)
    requires Ok(s, {}) && size > 0 && Apart(s, base, size, |s.segs|)
    ensures base !in s.live && base !in s.tiles && base !in s.direct
  {
    hide Geo, Tags, Lone, BasePins, Binned, DvOk, LooseOk, BigEnough;
    if base in s.tiles { TileApart(s, {}, base, size, base); }
    DirectIs(s, {}, base);
    ApartDirect(s, base, size, |s.segs|, base);
    if base in s.live { LiveIs(s, {}, base); }
  }

  lemma ApartDirect(s: Space, base: nat, size: nat, skip: nat, p: nat)
    requires Apart(s, base, size, skip)
    ensures p in s.direct ==> SegApart(Seg(p, s.direct[p] + 16), Seg(base, size))
  {
  }

  lemma AdjoinedRest(s: Space, s1: Space, k: nat, tbase: nat, tsize: nat)
    requires Ok(s, {}) && Adjoined(s, s1, k, tbase, tsize)
    ensures Binned(s1.free, s1.tiles, s1.top, s1.dv, {}) && DvOk(s1.tiles, s1.top, s1.dv, s1.dvsize, {}) && TopOk(s1.tiles, s1.limits, s1.top, s1.topsize)
    ensures LooseOk(s1.tiles, s1.top, {}) && BigEnough(s1.tiles, s1.top) && Owned(s1.live, s1.tiles, s1.limits, s1.top, s1.direct, s1.internal)
    ensures Directs(s1.direct, s1.segs, s1.heads, s1.foots)
  {
    hide Geo, Tags, Lone, BasePins;
    NewNotLive(s, tbase, tsize);
    forall p: nat
      ensures BinnedAt(s1.free, s1.tiles, s1.top, s1.dv, {}, p)
    {
      BinnedIs(s.free, s.tiles, s.top, s.dv, {}, p);
    }
    BinnedBy(s1.free, s1.tiles, s1.top, s1.dv, {});
    AdjoinedEnd(s, k);
    hide Binned;
    forall p | p in s1.tiles
      ensures OwnedAt(s1.live, s1.tiles, s1.limits, s1.top, s1.internal, p)
    {
      if p != tbase { OwnedIs(s, {}, p); }
    }
    forall p | p in s1.live
      ensures LiveAt(s1.live, s1.tiles, s1.direct, s1.internal, p)
    {
      if p == tbase { if p in s.internal { InternalIs(s, {}, p); } } else { LiveIs(s, {}, p); }
    }
    AdjoinedDirects(s, s1, k, tbase, tsize);
  }

  lemma AdjoinedEnd(s: Space, k: nat)
    requires Ok(s, {}) && k < |s.segs|
    ensures s.segs[k].base !in s.limits
  {
    hide Tags, Lone, BasePins, Binned, DvOk, LooseOk, BigEnough, Owned, Directs;
    BaseIs(s, {}, k);
    NotAtLimit(s.tiles, s.segs, s.limits, s.segs[k].base);
  }

  lemma AdjoinedDirects(s: Space, s1: Space, k: nat, tbase: nat, tsize: nat)
    requires Ok(s, {}) && Adjoined(s, s1, k, tbase, tsize)
    ensures Directs(s1.direct, s1.segs, s1.heads, s1.foots)
  {
    hide Geo, Tags, Lone, BasePins, Binned, DvOk, LooseOk, BigEnough, Owned;
    NewNotLive(s, tbase, tsize);
    forall p | p in s1.direct
      ensures DirectAt(s1.direct, s1.segs, s1.heads, s1.foots, p)
    {
      DirectIs(s, {}, p);
      assert SegApart(Seg(p, s.direct[p] + 16), Seg(tbase, tsize));
      forall i: nat | i < |s1.segs|
        ensures SegApart(Seg(p, s1.direct[p] + 16), s1.segs[i])
      {
        DirectSeg(s.direct, s.segs, s.heads, s.foots, p, i);
      }
    }
  }

  // ------------------------------------------------------------------ a segment goes

  /** Segment `k` goes: it has one free chunk, and behind it the segment's record. */
  ghost predicate Dropped(s: Space, s1: Space, k: nat) {
    && 0 < k < |s.segs| == |s.limits| && s.segs[k].base in s.tiles
    && s1.segs == s.segs[..k] + s.segs[k + 1..] && s1.limits == s.limits[..k] + s.limits[k + 1..]
    && s1.tiles == s.tiles - {s.segs[k].base, End(s.tiles, s.segs[k].base)} && s1.internal == s.internal - {End(s.tiles, s.segs[k].base)}
    && s1.heads == s.heads && s1.foots == s.foots && s1.top == s.top && s1.topsize == s.topsize && s1.dv == s.dv && s1.dvsize == s.dvsize
    && s1.direct == s.direct && s1.live == s.live && s1.free == s.free
  }

  /** The test of release_unused_segments. */
  predicate Unused(s: Space, k: nat) {
    k < |s.segs| && s.segs[k].base in s.tiles && !s.tiles[s.segs[k].base].used && End(s.tiles, s.segs[k].base) + 32 >= s.segs[k].base + s.segs[k].size
  }

  /** What is in a segment that passes the test. */
  lemma UnusedIs(s: Space, loose: set<nat>, k: nat)
    requires Ok(s, loose) && 0 < k < |s.segs| && Unused(s, k)
    ensures k < |s.limits| && s.segs[k].base != s.top && End(s.tiles, s.segs[k].base) in s.tiles
    ensures var r := End(s.tiles, s.segs[k].base); s.tiles[r].used && r in s.internal && End(s.tiles, r) == s.limits[k] && r + 32 == s.segs[k].base + s.segs[k].size
    ensures forall x {:trigger x in s.tiles} :: x in s.tiles && s.segs[k].base <= x < s.limits[k] ==> x == s.segs[k].base || x == End(s.tiles, s.segs[k].base)
  {
    hide Tags, Binned, BasePins, DvOk, LooseOk, Directs;
    var p := s.segs[k].base;
    assert SegOk(s.segs[k], s.limits[k]);
    GeoAt(s.tiles, s.segs, s.limits, p);
    TopEnd(s, loose);
    TopBase(s);
    assert SegOk(s.segs[0], s.limits[0]) && SegApart(s.segs[0], s.segs[k]);
    OwnedIs(s, loose, p);
    LoneIs(s.tiles, p);
    TileWithin(s.tiles, s.segs, s.limits, p, k, p);
    var r := End(s.tiles, p);
    GeoAt(s.tiles, s.segs, s.limits, r);
    NotAtLimit(s.tiles, s.segs, s.limits, r);
    RecordEnd(s, loose, k, r);
    OwnedIs(s, loose, r);
    forall x | x in s.tiles && p <= x < s.limits[k]
      ensures x == p || x == r
    {
      GeoPair(s.tiles, s.segs, s.limits, p, x);
      GeoPair(s.tiles, s.segs, s.limits, r, x);
    }
  }

  lemma RecordEnd(s: Space, loose: set<nat>, k: nat, r: nat)
    requires Ok(s, loose) && 0 < k < |s.segs| && r in s.tiles && r != s.top && s.segs[k].base <= r && r + 32 >= s.segs[k].base + s.segs[k].size
    requires |s.limits| == |s.segs| && r <= s.limits[k]
    ensures End(s.tiles, r) == s.limits[k] && r + 32 == s.segs[k].base + s.segs[k].size
    ensures End(s.tiles, r) in s.limits
  {
    hide Tags, Binned, BasePins, DvOk, LooseOk, Directs, Owned, Lone;
    assert SegOk(s.segs[k], s.limits[k]);
    GeoAt(s.tiles, s.segs, s.limits, r);
    TileWithin(s.tiles, s.segs, s.limits, r, k, r);
  }

  lemma DroppedIndex(s: Space, s1: Space, k: nat, i: nat) returns (j: nat)
    requires Dropped(s, s1, k) && i < |s1.segs|
    ensures j < |s.segs| && j != k && s1.segs[i] == s.segs[j] && |s1.limits| == |s1.segs| && s1.limits[i] == s.limits[j] && (j == if i < k then i else i + 1)
  {
    j := if i < k then i else i + 1;
  }

  lemma DroppedFrom(s: Space, s1: Space, k: nat, j: nat) returns (i: nat)
    requires Dropped(s, s1, k) && j < |s.segs| && j != k
    ensures i < |s1.segs| == |s1.limits| && s1.segs[i] == s.segs[j] && s1.limits[i] == s.limits[j]
  {
    i := if j < k then j else j - 1;
  }

  lemma DroppedTile(s: Space, s1: Space, loose: set<nat>, k: nat, p: nat)
    requires Ok(s, loose) && Unused(s, k) && Dropped(s, s1, k) && p in s1.tiles
    ensures TileOk(s1.tiles, s1.segs, s1.limits, p) && TagOk(s1.heads, s1.foots, s1.tiles, s1.top, p) && LoneAt(s1.tiles, p)
    ensures OwnedAt(s1.live, s1.tiles, s1.limits, s1.top, s1.internal, p)
  {
    hide Tags, Binned, BasePins, DvOk, LooseOk, Directs, Owned, Lone;
    UnusedIs(s, loose, k);
    TagAt(s.heads, s.foots, s.tiles, s.top, p);
    LoneIs(s.tiles, p);
    OwnedIs(s, loose, p);
    GeoAt(s.tiles, s.segs, s.limits, p);
    var j: nat :| j < |s.segs| && Within(s.segs, s.limits, p, End(s.tiles, p), j);
    assert j != k;
    var i := DroppedFrom(s, s1, k, j);
    assert Within(s1.segs, s1.limits, p, End(s1.tiles, p), i);
    assert SegOk(s.segs[j], s.limits[j]) && SegOk(s.segs[k], s.limits[k]) && SegApart(s.segs[j], s.segs[k]);
    if End(s.tiles, p) in s.limits {
      var l := LimitIn(s.segs, s.limits, End(s.tiles, p));
      var l1 := DroppedFrom(s, s1, k, l);
    }
    if End(s1.tiles, p) in s1.limits {
      var l :| 0 <= l < |s1.limits| && s1.limits[l] == End(s1.tiles, p);
      var l0 := DroppedIndex(s, s1, k, l);
    }
  }

  lemma DroppedSegs(s: Space, s1: Space, loose: set<nat>, k: nat)
    requires Ok(s, loose) && Dropped(s, s1, k)
    ensures SegsOk(s1.segs, s1.limits) && FootOk(s1.segs, s1.limits)
  {
    hide Tags, Binned, BasePins, DvOk, LooseOk, Directs, Owned, Lone;
    forall i | 0 <= i < |s1.segs|
      ensures SegOk(s1.segs[i], s1.limits[i])
    {
      var j := DroppedIndex(s, s1, k, i);
      assert SegOk(s.segs[j], s.limits[j]);
    }
    forall i, j | 0 <= i < |s1.segs| && 0 <= j < |s1.segs| && i != j
      ensures SegApart(s1.segs[i], s1.segs[j])
    {
      var a := DroppedIndex(s, s1, k, i);
      var b := DroppedIndex(s, s1, k, j);
      assert SegApart(s.segs[a], s.segs[b]);
    }
  }

  lemma DroppedGeo(s: Space, s1: Space, loose: set<nat>, k: nat)
    requires Ok(s, loose) && Unused(s, k) && Dropped(s, s1, k)
    ensures Geo(s1.tiles, s1.segs, s1.limits) && Tags(s1.heads, s1.foots, s1.tiles, s1.top) && Lone(s1.tiles) && BasePins(s1.heads, s1.segs)
  {
    DroppedSegs(s, s1, loose, k);
    hide TileOk, TagOk, LoneAt, SegsOk, OwnedAt;
    forall p | p in s1.tiles
      ensures TileOk(s1.tiles, s1.segs, s1.limits, p) && TagOk(s1.heads, s1.foots, s1.tiles, s1.top, p) && LoneAt(s1.tiles, p)
    {
      DroppedTile(s, s1, loose, k, p);
    }
    forall p, q | p in s1.tiles && q in s1.tiles ensures InOrder(s1.tiles, p, q) { GeoPair(s.tiles, s.segs, s.limits, p, q); }
    forall i: nat | i < |s1.segs|
      ensures BaseOk(s1.tiles, s1.segs, i) && PinAt(s1.heads, s1.segs, i)
    {
      var j := DroppedIndex(s, s1, k, i);
      BaseIs(s, loose, j);
      BaseApart(s, loose, k, j);
    }
  }

  lemma BaseApart(s: Space, loose: set<nat>, k: nat, j: nat)
    requires Ok(s, loose) && 0 < k < |s.segs| && Unused(s, k) && j < |s.segs| && j != k
    ensures s.segs[j].base != s.segs[k].base && s.segs[j].base != End(s.tiles, s.segs[k].base)
  {
    UnusedIs(s, loose, k);
    assert SegOk(s.segs[j], s.limits[j]) && SegOk(s.segs[k], s.limits[k]) && SegApart(s.segs[j], s.segs[k]);
  }

  lemma DroppedRest(s: Space, s1: Space, loose: set<nat>, k: nat)
    requires Ok(s, loose) && Unused(s, k) && Dropped(s, s1, k) && loose == {s.segs[k].base}
    ensures Owned(s1.live, s1.tiles, s1.limits, s1.top, s1.direct, s1.internal) && TopOk(s1.tiles, s1.limits, s1.top, s1.topsize)
    ensures Binned(s1.free, s1.tiles, s1.top, s1.dv, {}) && DvOk(s1.tiles, s1.top, s1.dv, s1.dvsize, {}) && LooseOk(s1.tiles, s1.top, {}) && BigEnough(s1.tiles, s1.top)
  {
    hide Geo, Tags, BasePins, Directs, Lone;
    UnusedIs(s, loose, k);
    TopEnd(s, loose);
    forall p | p in s1.tiles ensures OwnedAt(s1.live, s1.tiles, s1.limits, s1.top, s1.internal, p) { DroppedTile(s, s1, loose, k, p); }
    hide Dropped, OwnedAt;
    forall p | p in s1.live
      ensures LiveAt(s1.live, s1.tiles, s1.direct, s1.internal, p)
    {
      DroppedLive(s, s1, loose, k, p);
    }
    forall p | p in s1.internal ensures p in s1.tiles && s1.tiles[p].used { DroppedInternal(s, s1, loose, k, p); }
    forall p: nat
      ensures BinnedAt(s1.free, s1.tiles, s1.top, s1.dv, {}, p)
    {
      DroppedBin(s, s1, loose, k, p);
    }
    BinnedBy(s1.free, s1.tiles, s1.top, s1.dv, {});
    DroppedSpecial(s, s1, loose, k);
  }

  lemma DroppedLive(s: Space, s1: Space, loose: set<nat>, k: nat, p: nat)
    requires Ok(s, loose) && Unused(s, k) && Dropped(s, s1, k) && p in s.live
    ensures p in s1.live && LiveAt(s1.live, s1.tiles, s1.direct, s1.internal, p) && SameChunk(s, s1, p)
  {
    hide Geo, Tags, BasePins, Directs, Lone;
    UnusedIs(s, loose, k);
    LiveIs(s, loose, p);
  }

  lemma DroppedInternal(s: Space, s1: Space, loose: set<nat>, k: nat, p: nat)
    requires Ok(s, loose) && Unused(s, k) && Dropped(s, s1, k) && p in s1.internal
    ensures p in s1.tiles && s1.tiles[p].used
  {
    InternalIs(s, loose, p);
  }

  lemma DroppedBin(s: Space, s1: Space, loose: set<nat>, k: nat, p: nat)
    requires Ok(s, loose) && Unused(s, k) && Dropped(s, s1, k) && loose == {s.segs[k].base}
    ensures BinnedAt(s1.free, s1.tiles, s1.top, s1.dv, {}, p)
  {
    hide Geo, Tags, BasePins, Directs, Lone;
    UnusedIs(s, loose, k);
    BinnedIs(s.free, s.tiles, s.top, s.dv, loose, p);
  }

  lemma DroppedSpecial(s: Space, s1: Space, loose: set<nat>, k: nat)
    requires Ok(s, loose) && Unused(s, k) && Dropped(s, s1, k) && loose == {s.segs[k].base}
    ensures TopOk(s1.tiles, s1.limits, s1.top, s1.topsize) && DvOk(s1.tiles, s1.top, s1.dv, s1.dvsize, {}) && BigEnough(s1.tiles, s1.top)
  {
    hide Geo, Tags, BasePins, Directs, Lone;
    UnusedIs(s, loose, k);
  }

  /** The state is in order without the segment, and no program's chunk was in it. */
  lemma DroppedOk(s: Space, s1: Space, k: nat, m: Memory)
    requires 0 < k < |s.segs| && Ok(s, {s.segs[k].base}) && Unused(s, k) && Dropped(s, s1, k)
    ensures Ok(s1, {}) && Keeps(s, m, s1, m, 0)
  {
    var loose := {s.segs[k].base};
    DroppedGeo(s, s1, loose, k);
    DroppedSegs(s, s1, loose, k);
    DroppedRest(s, s1, loose, k);
    DroppedDirects(s, s1, loose, k);
    hide Geo, Tags, Lone, BasePins, Binned, DvOk, Directs, Owned, BigEnough, LooseOk, TopOk, Dropped;
    forall p | p in s.live
      ensures SameChunk(s, s1, p)
    {
      DroppedLive(s, s1, loose, k, p);
    }
  }

  lemma DroppedDirects(s: Space, s1: Space, loose: set<nat>, k: nat)
    requires Ok(s, loose) && Dropped(s, s1, k)
    ensures Directs(s1.direct, s1.segs, s1.heads, s1.foots)
  {
    hide Geo, Tags, BasePins, Lone, Owned, Binned;
    forall p | p in s1.direct
      ensures DirectAt(s1.direct, s1.segs, s1.heads, s1.foots, p)
    {
      DirectIs(s, loose, p);
      forall i: nat | i < |s1.segs|
        ensures SegApart(Seg(p, s1.direct[p] + 16), s1.segs[i])
      {
        var j := DroppedIndex(s, s1, k, i);
        DirectSeg(s.direct, s.segs, s.heads, s.foots, p, j);
      }
    }
  }

  // ----------------------------------------------------- chunks mapped on their own

  /** Only words between `lo` and `hi` are written. */
  ghost predicate WordsWithin(s: Space, s1: Space, lo: nat, hi: nat) {
    && (forall q {:trigger q in s1.heads} {:trigger q in s.heads} :: q in s.heads && !(lo <= q < hi) ==> q in s1.heads && s1.heads[q] == s.heads[q])
    && forall q {:trigger q in s1.foots} {:trigger q in s.foots} :: q in s.foots && !(lo <= q < hi) ==> q in s1.foots && s1.foots[q] == s.foots[q]
  }

  /** direct_alloc: chunk `p` has its own memory, for a program's chunk of `n` bytes. */
  ghost predicate DirectAdded(s: Space, s1: Space, p: nat, psize: nat, n: nat) {
    && p % 8 == 0 && p > 0 && psize % 8 == 0 && psize >= MIN_CHUNK && p + psize + 16 <= WORD && Apart(s, p, psize + 16, |s.segs|) && n + 8 <= psize
    && s1.direct == s.direct[p := psize] && s1.live == s.live[p := n] && WordsWithin(s, s1, p, p + psize + 16)
    && p in s1.heads && s1.heads[p] == Head(psize, true, false) && p in s1.foots && s1.foots[p] == 1
    && s1.segs == s.segs && s1.limits == s.limits && s1.tiles == s.tiles && s1.internal == s.internal && s1.free == s.free
    && s1.top == s.top && s1.topsize == s.topsize && s1.dv == s.dv && s1.dvsize == s.dvsize
  }

  lemma DirectTags(s: Space, s1: Space, p: nat, psize: nat, n: nat)
    requires Ok(s, {}) && DirectAdded(s, s1, p, psize, n)
    ensures Tags(s1.heads, s1.foots, s1.tiles, s1.top) && BasePins(s1.heads, s1.segs)
  {
    hide Geo, Binned, DvOk, LooseOk, BigEnough, Owned, Directs, TopOk, Lone, Apart;
    forall q | q in s1.tiles
      ensures TagOk(s1.heads, s1.foots, s1.tiles, s1.top, q)
    {
      TileApart(s, {}, p, psize + 16, q);
      TagAt(s.heads, s.foots, s.tiles, s.top, q);
    }
    forall i: nat | i < |s1.segs|
      ensures PinAt(s1.heads, s1.segs, i)
    {
      BaseIs(s, {}, i);
      TileApart(s, {}, p, psize + 16, s.segs[i].base);
    }
  }

  lemma DirectDirects(s: Space, s1: Space, p: nat, psize: nat, n: nat)
    requires Ok(s, {}) && DirectAdded(s, s1, p, psize, n)
    ensures Directs(s1.direct, s1.segs, s1.heads, s1.foots)
  {
    hide Geo, Binned, DvOk, LooseOk, BigEnough, Owned, TopOk, Lone, Tags, BasePins;
    NewNotLive(s, p, psize + 16);
    forall q | q in s1.direct
      ensures DirectAt(s1.direct, s1.segs, s1.heads, s1.foots, q)
    {
      DirectIs(s, {}, q);
      ApartDirect(s, p, psize + 16, |s.segs|, q);
      forall i: nat | i < |s1.segs|
        ensures SegApart(Seg(q, s1.direct[q] + 16), s1.segs[i])
      {
        if q == p { assert SegApart(Seg(p, psize + 16), s.segs[i]); } else { DirectSeg(s.direct, s.segs, s.heads, s.foots, q, i); }
      }
    }
    forall q, r | q in s1.direct && r in s1.direct && q != r
      ensures SegApart(Seg(q, s1.direct[q] + 16), Seg(r, s1.direct[r] + 16))
    {
      ApartDirect(s, p, psize + 16, |s.segs|, q);
      ApartDirect(s, p, psize + 16, |s.segs|, r);
      if q != p && r != p { DirectPair(s, {}, q, r); }
    }
    DirectsBy(s1);
  }

  lemma DirectsBy(s: Space)
    requires forall p {:trigger DirectAt(s.direct, s.segs, s.heads, s.foots, p)} :: p in s.direct ==> DirectAt(s.direct, s.segs, s.heads, s.foots, p)
    requires forall q, r {:trigger SegApart(Seg(q, s.direct[q] + 16), Seg(r, s.direct[r] + 16))} ::
      q in s.direct && r in s.direct && q != r ==> SegApart(Seg(q, s.direct[q] + 16), Seg(r, s.direct[r] + 16))
    ensures Directs(s.direct, s.segs, s.heads, s.foots)
  {
  }

  lemma DirectAddedOk(s: Space, s1: Space, p: nat, psize: nat, n: nat, m: Memory, m1: Memory)
    requires Ok(s, {}) && DirectAdded(s, s1, p, psize, n)
    requires forall x: nat {:trigger m1(x)} :: !(p <= x < p + psize + 16) ==> m1(x) == m(x)
    ensures Ok(s1, {}) && Keeps(s, m, s1, m1, 0) && p !in s.live && p !in s1.tiles && p in s1.direct
  {
    NewNotLive(s, p, psize + 16);
    DirectTags(s, s1, p, psize, n);
    DirectDirects(s, s1, p, psize, n);
    DirectOwned(s, s1, p, psize, n);
    hide Geo, Binned, DvOk, LooseOk, BigEnough, Owned, TopOk, Lone, Tags, BasePins, WordsWithin, Directs;
    forall q: nat, x: nat | Payload(s, q, x)
      ensures m1(x) == m(x)
    {
      LiveIs(s, {}, q);
      ApartDirect(s, p, psize + 16, |s.segs|, q);
      if q in s.tiles { TileApart(s, {}, p, psize + 16, q); }
    }
    forall q | q in s.live ensures SameChunk(s, s1, q) { LiveIs(s, {}, q); }
  }

  lemma DirectOwned(s: Space, s1: Space, p: nat, psize: nat, n: nat)
    requires Ok(s, {}) && DirectAdded(s, s1, p, psize, n)
    ensures Owned(s1.live, s1.tiles, s1.limits, s1.top, s1.direct, s1.internal)
  {
    hide Geo, Binned, DvOk, LooseOk, BigEnough, TopOk, Lone, Tags, BasePins, WordsWithin, Directs;
    NewNotLive(s, p, psize + 16);
    forall q | q in s1.live
      ensures LiveAt(s1.live, s1.tiles, s1.direct, s1.internal, q)
    {
      if q == p { if p in s.internal { InternalIs(s, {}, p); } } else { LiveIs(s, {}, q); }
    }
    forall q | q in s1.tiles ensures OwnedAt(s1.live, s1.tiles, s1.limits, s1.top, s1.internal, q) { OwnedIs(s, {}, q); }
  }

  /** A chunk with its own memory is given back; `unmapped` says whether the system took it. */
  ghost predicate DirectGone(s: Space, s1: Space, p: nat, unmapped: bool) {
    && p in s.live && p !in s.tiles && p in s.direct && s1.live == s.live - {p} && s1.direct == (if unmapped then s.direct - {p} else s.direct)
    && s1.heads == s.heads && s1.foots == s.foots && s1.segs == s.segs && s1.limits == s.limits && s1.tiles == s.tiles && s1.internal == s.internal
    && s1.free == s.free && s1.top == s.top && s1.topsize == s.topsize && s1.dv == s.dv && s1.dvsize == s.dvsize
  }

  lemma DirectGoneOk(s: Space, s1: Space, p: nat, unmapped: bool, m: Memory)
    requires Ok(s, {}) && DirectGone(s, s1, p, unmapped)
    ensures Ok(s1, {}) && Keeps(s, m, s1, m, p)
  {
    hide Geo, Binned, DvOk, LooseOk, BigEnough, TopOk, Lone, Tags, BasePins;
    DirectGoneDirects(s, s1, p, unmapped);
    hide Directs;
    forall q | q in s1.live ensures LiveAt(s1.live, s1.tiles, s1.direct, s1.internal, q) { LiveIs(s, {}, q); }
    forall q | q in s1.tiles ensures OwnedAt(s1.live, s1.tiles, s1.limits, s1.top, s1.internal, q) { OwnedIs(s, {}, q); }
    forall q | q in s.live && q != p ensures SameChunk(s, s1, q) { LiveIs(s, {}, q); }
  }

  lemma DirectGoneDirects(s: Space, s1: Space, p: nat, unmapped: bool)
    requires Ok(s, {}) && DirectGone(s, s1, p, unmapped)
    ensures Directs(s1.direct, s1.segs, s1.heads, s1.foots)
  {
    hide Geo, Binned, DvOk, LooseOk, BigEnough, TopOk, Lone, Tags, BasePins, Owned;
    forall q | q in s1.direct
      ensures DirectAt(s1.direct, s1.segs, s1.heads, s1.foots, q)
    {
      DirectIs(s, {}, q);
      forall i: nat | i < |s1.segs|
        ensures SegApart(Seg(q, s1.direct[q] + 16), s1.segs[i])
      {
        DirectSeg(s.direct, s.segs, s.heads, s.foots, q, i);
      }
    }
    forall q, r | q in s1.direct && r in s1.direct && q != r
      ensures SegApart(Seg(q, s1.direct[q] + 16), Seg(r, s1.direct[r] + 16))
    {
      DirectPair(s, {}, q, r);
    }
    DirectsBy(s1);
  }
}
