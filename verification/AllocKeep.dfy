/** What the program has in its chunks is not touched (lj_alloc.c): where the payloads are, and
    that no word the allocator writes is in one of another chunk. */
module AllocKeep {
  import opened AllocSizes
  import opened AllocTiles
  import opened AllocSpace
  import opened ByteStrings

  type Memory = nat -> Byte

  /** Address `x` belongs to the program's chunk `p`: behind the head, and up to the head of the
      next chunk, or the fake head behind a chunk that was mapped on its own. */
  predicate Payload(s: Space, p: nat, x: nat) {
    p in s.live && if p in s.tiles then p + 8 <= x < End(s.tiles, p) + 4 else p in s.direct && p + 8 <= x < p + s.direct[p]
  }

  /** No payload but that of `skip` is between `lo` and `hi`. */
  ghost predicate Clear(s: Space, skip: nat, lo: nat, hi: nat) {
    forall p: nat, x: nat {:trigger Payload(s, p, x)} :: Payload(s, p, x) && p != skip ==> !(lo <= x < hi)
  }

  /** The payloads have not changed, but for that of `skip`. */
  ghost predicate MemKept(s: Space, m: Memory, m1: Memory, skip: nat) {
    forall p: nat, x: nat {:trigger Payload(s, p, x)} :: Payload(s, p, x) && p != skip ==> m1(x) == m(x)
  }

  /** The same chunks are live, but for `skip`. */
  predicate SameChunk(s: Space, s1: Space, p: nat)
  {
    && p in s.live && p in s1.live && s1.live[p] == s.live[p] && (p in s.tiles <==> p in s1.tiles)
    && (p in s.tiles ==> s1.tiles[p] == s.tiles[p])
    && (p !in s.tiles ==> p in s.direct && p in s1.direct && s1.direct[p] == s.direct[p])
  }

  ghost predicate Keeps(s: Space, m: Memory, s1: Space, m1: Memory, skip: nat) {
    MemKept(s, m, m1, skip) && forall p {:trigger SameChunk(s, s1, p)} :: p in s.live && p != skip ==> SameChunk(s, s1, p)
  }

  lemma KeepsThen(s: Space, m: Memory, s1: Space, m1: Memory, s2: Space, m2: Memory, skip: nat)
    requires Keeps(s, m, s1, m1, skip) && Keeps(s1, m1, s2, m2, skip)
    ensures Keeps(s, m, s2, m2, skip)
  {
    forall p | p in s.live && p != skip
      ensures SameChunk(s, s2, p)
    {
      assert SameChunk(s, s1, p);
      assert SameChunk(s1, s2, p);
    }
    forall p: nat, x: nat | Payload(s, p, x) && p != skip
      ensures m2(x) == m(x)
    {
      assert SameChunk(s, s1, p);
      assert Payload(s1, p, x);
    }
  }

  /** The heads of the first chunk of a span and of the one behind it, and all between, hold no
      payload but of the chunks that are given up. */
  lemma ClearSpan(s: Space, loose: set<nat>, skip: nat, a: nat, b: nat)
    requires Ok(s, loose) && Span(s.tiles, s.segs, s.limits, a, b)
    requires forall q {:trigger q in s.live} :: q in s.live && a <= q < b ==> q == skip
    ensures Clear(s, skip, a + 4, b + 8)
  {
    hide Tags, Lone, Binned, BasePins, TopOk, DvOk, LooseOk, BigEnough;
    forall p: nat, x: nat | Payload(s, p, x) && p != skip
      ensures !(a + 4 <= x < b + 8)
    {
      if p in s.tiles {
        OutsideSpan(s.tiles, s.segs, s.limits, a, b, p);
      } else {
        DirectAway(s, loose, p, a, b, x);
      }
    }
  }

  lemma DirectAway(s: Space, loose: set<nat>, p: nat, a: nat, b: nat, x: nat)
    requires Ok(s, loose) && p in s.direct && Inside(s.segs, s.limits, a, b) && a <= b && p + 8 <= x < p + s.direct[p]
    ensures !(a + 4 <= x < b + 8)
  {
    hide Tags, Lone, Binned, BasePins, TopOk, DvOk, LooseOk, BigEnough, Owned;
    assert DirectAt(s.direct, s.segs, s.heads, s.foots, p);
    var i: nat :| i < |s.segs| && Within(s.segs, s.limits, a, b, i);
    assert SegOk(s.segs[i], s.limits[i]);
    assert SegApart(Seg(p, s.direct[p] + 16), s.segs[i]);
  }

  /** Free chunks hold no payload. */
  lemma ClearFree(s: Space, loose: set<nat>, p: nat)
    requires Ok(s, loose) && p in s.tiles && !s.tiles[p].used
    ensures Clear(s, 0, p + 4, End(s.tiles, p))
  {
    hide Tags, Lone, Binned, BasePins, TopOk, DvOk, LooseOk, BigEnough, Directs;
    GeoAt(s.tiles, s.segs, s.limits, p);
    forall q: nat, x: nat | Payload(s, q, x)
      ensures !(p + 4 <= x < End(s.tiles, p))
    {
      assert LiveAt(s.live, s.tiles, s.direct, s.internal, q);
      if q in s.tiles {
        GeoPair(s.tiles, s.segs, s.limits, p, q);
        GeoPair(s.tiles, s.segs, s.limits, q, p);
      } else {
        DirectAway(s, loose, q, p, End(s.tiles, p), x);
      }
    }
  }

  /** A byte of the link fields of a free chunk in a bin, or of chunk `p`. */
  predicate LinkByte(free: map<nat, nat>, p: nat, s: nat, x: nat, q: nat) {
    (q in free && q + 8 <= x < q + free[q]) || (q == p && p + 8 <= x < p + s)
  }

  /** Only link fields of free chunks are written. */
  ghost predicate LinksOnly(free: map<nat, nat>, p: nat, s: nat, m: Memory, m1: Memory) {
    forall x: nat {:trigger m1(x)} :: (forall q :: !LinkByte(free, p, s, x, q)) ==> m1(x) == m(x)
  }

  lemma KeptLinks(s: Space, loose: set<nat>, p: nat, m: Memory, m1: Memory, skip: nat)
    requires Ok(s, loose) && p in s.tiles && !s.tiles[p].used && LinksOnly(s.free, p, s.tiles[p].size, m, m1)
    ensures MemKept(s, m, m1, skip)
  {
    NullNotLive(s, loose);
    hide Geo, Tags, Lone, BasePins, TopOk, DvOk, LooseOk, BigEnough, Directs, Owned;
    forall r: nat, x: nat | Payload(s, r, x)
      ensures m1(x) == m(x)
    {
      forall q
        ensures !LinkByte(s.free, p, s.tiles[p].size, x, q)
      {
        BinnedIs(s.free, s.tiles, s.top, s.dv, loose, q);
        if q in s.free { ClearFree(s, loose, q); }
        if q == p { ClearFree(s, loose, p); }
        assert Payload(s, r, x);
      }
    }
  }

  /** The null pointer is no live chunk. */
  lemma NullNotLive(s: Space, loose: set<nat>)
    requires Ok(s, loose)
    ensures 0 !in s.live
  {
    hide Tags, Lone, Binned, BasePins, TopOk, DvOk, LooseOk, BigEnough;
    if 0 in s.live {
      LiveIs(s, loose, 0);
      NoNull2(s);
      DirectIs(s, loose, 0);
    }
  }

  lemma LiveIs(s: Space, loose: set<nat>, p: nat)
    requires Ok(s, loose) && p in s.live
    ensures LiveAt(s.live, s.tiles, s.direct, s.internal, p)
  {
    hide Tags, Lone, Binned, BasePins, TopOk, DvOk, LooseOk, BigEnough, Geo, Directs;
  }

  lemma DirectIs(s: Space, loose: set<nat>, p: nat)
    requires Ok(s, loose)
    ensures p in s.direct ==> DirectAt(s.direct, s.segs, s.heads, s.foots, p)
  {
    hide Tags, Lone, Binned, BasePins, TopOk, DvOk, LooseOk, BigEnough, Geo, Owned;
  }

  /** A change of the bookkeeping only. */
  lemma KeepsSelf(s: Space, loose: set<nat>, s1: Space, m: Memory, m1: Memory)
    requires Ok(s, loose) && s1.live == s.live && s1.tiles == s.tiles && s1.direct == s.direct && MemKept(s, m, m1, 0)
    ensures Keeps(s, m, s1, m1, 0)
  {
    hide Ok;
    forall p | p in s.live ensures SameChunk(s, s1, p) { LiveIs(s, loose, p); }
  }

  lemma DirectPair(s: Space, loose: set<nat>, p: nat, q: nat)
    requires Ok(s, loose) && p in s.direct && q in s.direct
    ensures p != q ==> SegApart(Seg(p, s.direct[p] + 16), Seg(q, s.direct[q] + 16))
  {
    hide Tags, Lone, Binned, BasePins, TopOk, DvOk, LooseOk, BigEnough, Owned, Geo;
  }

  /** Two payloads have no address in common. */
  lemma PayloadsApart(s: Space, loose: set<nat>, p: nat, q: nat, x: nat)
    requires Ok(s, loose) && Payload(s, p, x) && Payload(s, q, x)
    ensures p == q
  {
    hide Tags, Lone, Binned, BasePins, TopOk, DvOk, LooseOk, BigEnough;
    assert LiveAt(s.live, s.tiles, s.direct, s.internal, p);
    assert LiveAt(s.live, s.tiles, s.direct, s.internal, q);
    if p in s.tiles && q in s.tiles {
      GeoPair(s.tiles, s.segs, s.limits, p, q);
      GeoPair(s.tiles, s.segs, s.limits, q, p);
    } else if p in s.tiles {
      GeoAt(s.tiles, s.segs, s.limits, p);
      DirectAway(s, loose, q, p, End(s.tiles, p), x);
    } else if q in s.tiles {
      GeoAt(s.tiles, s.segs, s.limits, q);
      DirectAway(s, loose, p, q, End(s.tiles, q), x);
    } else {
      DirectPair(s, loose, p, q);
    }
  }

  /** A payload is aligned, and has room for what was asked for. */
  lemma PayloadFits(s: Space, loose: set<nat>, p: nat, i: nat)
    requires Ok(s, loose) && p in s.live && i < s.live[p]
    ensures (p + 8) % 8 == 0 && Payload(s, p, p + 8 + i)
  {
    hide Tags, Lone, Binned, BasePins, TopOk, DvOk, LooseOk, BigEnough;
    assert LiveAt(s.live, s.tiles, s.direct, s.internal, p);
    if p in s.tiles { GeoAt(s.tiles, s.segs, s.limits, p); } else { assert DirectAt(s.direct, s.segs, s.heads, s.foots, p); }
  }
}
