/** Single steps of the allocator (lj_alloc.c) on its state as a value: a free chunk is taken or
    split, a chunk in use is given back. */
module AllocSteps {
  import opened AllocSizes
  import opened AllocTiles
  import opened AllocSpace
  import opened AllocKeep

  /** Nothing outside a span and its bordering heads is written. */
  ghost predicate WritesWithin(m: Memory, m1: Memory, a: nat, b: nat) {
    forall x: nat {:trigger m1(x)} :: !(a + 4 <= x < b + 8) ==> m1(x) == m(x)
  }

  /** A span is retiled: the state stays in order, and the other chunks keep their contents. */
  lemma Stepped(s: Space, m: Memory, s1: Space, m1: Memory, loose: set<nat>, loose1: set<nat>, a: nat, mid: nat, b: nat, u1: bool, u2: bool, skip: nat)
    requires Ok(s, loose) && Retiled(s, s1, loose, loose1, a, mid, b, u1, u2) && WritesWithin(m, m1, a, b)
    requires forall q {:trigger q in s.live} :: q in s.live && a <= q < b ==> q == skip
    ensures Ok(s1, loose1) && Keeps(s, m, s1, m1, skip)
  {
    RetileOk(s, s1, loose, loose1, a, mid, b, u1, u2);
    ClearSpan(s, loose, skip, a, b);
    hide Ok, Retile, Places, Rewritten, Specials;
    forall p | p in s.live && p != skip
      ensures SameChunk(s, s1, p)
    {
      LiveIs(s, loose, p);
      RetileAt(s.tiles, a, mid, b, u1, u2, p);
    }
  }

  /** The span of one chunk. */
  lemma OneSpan(s: Space, loose: set<nat>, p: nat)
    requires Ok(s, loose) && p in s.tiles
    ensures Span(s.tiles, s.segs, s.limits, p, End(s.tiles, p)) && p % 8 == 0 && End(s.tiles, p) % 8 == 0 && p > 0
    ensures forall q :: q in s.tiles && p <= q < End(s.tiles, p) ==> q == p
  {
    hide Tags, Lone, Binned, BasePins, TopOk, DvOk, LooseOk, BigEnough, Owned, Directs;
    GeoAt(s.tiles, s.segs, s.limits, p);
    forall q | q in s.tiles && p <= q < End(s.tiles, p)
      ensures q == p
    {
      GeoPair(s.tiles, s.segs, s.limits, p, q);
    }
  }

  /** No live chunk starts in a span of chunks that are not. */
  lemma NoLive(s: Space, loose: set<nat>, a: nat, b: nat, q: nat)
    requires Ok(s, loose) && Span(s.tiles, s.segs, s.limits, a, b) && q in s.live && a <= q < b
    ensures q in s.tiles && s.tiles[q].used
  {
    hide Tags, Lone, Binned, BasePins, TopOk, DvOk, LooseOk, BigEnough;
    LiveIs(s, loose, q);
    if q !in s.tiles { DirectOutside(s.segs, s.limits, s.direct, s.heads, s.foots, q, a, b); }
  }

  /** A chunk that is not in use: no live chunk, none of the bins' if it is elsewhere. */
  lemma FreeSpan(s: Space, loose: set<nat>, p: nat)
    requires Ok(s, loose) && p in s.tiles && !s.tiles[p].used && (p in loose || p == s.dv || p == s.top)
    ensures forall q {:trigger q in s.live} :: q in s.live ==> !(p <= q < End(s.tiles, p))
    ensures forall q {:trigger q in s.free} :: q in s.free ==> !(p <= q < End(s.tiles, p))
    ensures forall q {:trigger q in s.internal} :: q in s.internal ==> !(p <= q < End(s.tiles, p))
    ensures p in s.heads && s.heads[p].pin && s.heads[p].size == s.tiles[p].size && !s.heads[p].cin
    ensures End(s.tiles, p) in s.heads && !s.heads[End(s.tiles, p)].pin
    ensures End(s.tiles, p) in s.tiles ==> s.tiles[End(s.tiles, p)].used
    ensures End(s.tiles, p) in s.limits <==> p == s.top
    ensures p == s.top ==> s.limits[0] == End(s.tiles, p)
  {
    hide BigEnough, DvOk, LooseOk, Directs, Lone, Tags, Binned, BasePins, Geo;
    OneSpan(s, loose, p);
    TopEnd(s, loose);
    FreePin(s.tiles, s.segs, s.limits, s.heads, s.foots, s.top, p);
    TagAt(s.heads, s.foots, s.tiles, s.top, p);
    LoneIs(s.tiles, p);
    OwnedIs(s, loose, p);
    forall q: nat
      ensures q in s.live ==> !(p <= q < End(s.tiles, p))
      ensures q in s.free ==> !(p <= q < End(s.tiles, p))
      ensures q in s.internal ==> !(p <= q < End(s.tiles, p))
    {
      if q in s.live && p <= q < End(s.tiles, p) { NoLive(s, loose, p, End(s.tiles, p), q); }
      BinnedIs(s.free, s.tiles, s.top, s.dv, loose, q);
    }
  }

  lemma TopEnd(s: Space, loose: set<nat>)
    requires Ok(s, loose)
    ensures |s.limits| > 0 && s.top in s.tiles && s.tiles[s.top] == Tile(s.topsize, false) && End(s.tiles, s.top) == s.limits[0]
    ensures End(s.tiles, s.top) in s.limits
  {
  }

  lemma OwnedIs(s: Space, loose: set<nat>, p: nat)
    requires Ok(s, loose) && p in s.tiles
    ensures s.tiles[p].used ==> p in s.live || p in s.internal
    ensures End(s.tiles, p) in s.limits ==> p == s.top || p in s.internal
    ensures p in s.internal ==> s.tiles[p].used
  {
    assert OwnedAt(s.live, s.tiles, s.limits, s.top, s.internal, p);
  }

  /** A free chunk is taken as a whole. */
  ghost predicate Taken(s: Space, s1: Space, h: Heads, p: nat, size: nat, n: nat) {
    && Rest(s, s1) && s1.top == s.top && s1.topsize == s.topsize && s1.dv == s.dv && s1.dvsize == s.dvsize && s1.foots == s.foots
    && p + size in h && HeadSet(s.heads, h, p, Head(size, true, true)) && HeadSet(h, s1.heads, p + size, h[p + size].(pin := true))
    && Retiles(s.tiles, s1.tiles, p, p + size, p + size, true, true) && LiveSet(s.live, s1.live, p, n)
  }

  lemma TakenRetiled(s: Space, s1: Space, h: Heads, p: nat, size: nat, n: nat)
    requires Ok(s, {p}) && p in s.tiles && s.tiles[p] == Tile(size, false) && n + 4 <= size && Taken(s, s1, h, p, size, n)
    ensures Retiled(s, s1, {p}, {}, p, p + size, p + size, true, true)
  {
    OneSpan(s, {p}, p);
    FreeSpan(s, {p}, p);
    LooseNot(s, {p}, p);
    hide Ok, Retile, Span;
  }

  lemma LooseNot(s: Space, loose: set<nat>, p: nat)
    requires Ok(s, loose) && p in loose
    ensures p != s.top && p != s.dv && p in s.tiles && !s.tiles[p].used && s.tiles[p].size >= MIN_CHUNK
    ensures s.dv != 0 ==> s.dv in s.tiles && s.tiles[s.dv] == Tile(s.dvsize, false)
    ensures s.dv == 0 <==> s.dvsize == 0
  {
    NoNull2(s);
  }

  predicate Fits(nb: nat, n: nat) { n + 4 <= nb && nb % 8 == 0 && MIN_CHUNK <= nb }

  /** A free chunk is split: the front is in use, the rest is free. */
  ghost predicate Split(s: Space, s1: Space, h: Heads, p: nat, size: nat, nb: nat, n: nat) {
    && nb < size && Rest(s, s1) && s1.top == s.top && s1.topsize == s.topsize && s1.dv == s.dv && s1.dvsize == s.dvsize
    && HeadSet(s.heads, h, p, Head(nb, true, true)) && HeadSet(h, s1.heads, p + nb, Head(size - nb, false, true)) && FootSet(s.foots, s1.foots, p + size, size - nb)
    && Retiles(s.tiles, s1.tiles, p, p + nb, p + size, true, false) && LiveSet(s.live, s1.live, p, n)
  }

  lemma SplitWords(s: Space, s1: Space, h: Heads, p: nat, size: nat, nb: nat, n: nat)
    requires Ok(s, {p}) && p in s.tiles && s.tiles[p] == Tile(size, false) && Fits(nb, n) && nb + MIN_CHUNK <= size && Split(s, s1, h, p, size, nb, n)
    ensures Rewritten(s.heads, s.foots, s1.heads, s1.foots, p, p + nb, p + size, true, false, s1.top)
  {
    FreeSpan(s, {p}, p);
    hide Ok, Retile, Span, LiveSet;
  }

  lemma SplitRetiled(s: Space, s1: Space, h: Heads, p: nat, size: nat, nb: nat, n: nat)
    requires Ok(s, {p}) && p in s.tiles && s.tiles[p] == Tile(size, false) && Fits(nb, n) && nb + MIN_CHUNK <= size && Split(s, s1, h, p, size, nb, n)
    ensures Retiled(s, s1, {p}, {p + nb}, p, p + nb, p + size, true, false)
  {
    OneSpan(s, {p}, p);
    FreeSpan(s, {p}, p);
    LooseNot(s, {p}, p);
    TopElsewhere(s, {p}, p);
    SplitWords(s, s1, h, p, size, nb, n);
    hide Ok, Retile, Span, Rewritten, HeadSet, FootSet;
  }

  /** Top chunk and designated victim start no other chunk's middle. */
  lemma TopElsewhere(s: Space, loose: set<nat>, p: nat)
    requires Ok(s, loose) && p in s.tiles
    ensures p <= s.top < End(s.tiles, p) <==> p == s.top
    ensures s.dv != 0 ==> (p <= s.dv < End(s.tiles, p) <==> p == s.dv)
  {
    OneSpan(s, loose, p);
    GeoAt(s.tiles, s.segs, s.limits, p);
  }

  /** The designated victim is split. */
  ghost predicate DvSplit(s: Space, s1: Space, h: Heads, nb: nat, n: nat) {
    && nb < s.dvsize && Rest(s, s1) && s1.top == s.top && s1.topsize == s.topsize && s1.dv == s.dv + nb && s1.dvsize == s.dvsize - nb
    && HeadSet(s.heads, h, s.dv + nb, Head(s.dvsize - nb, false, true)) && HeadSet(h, s1.heads, s.dv, Head(nb, true, true))
    && FootSet(s.foots, s1.foots, s.dv + s.dvsize, s.dvsize - nb)
    && Retiles(s.tiles, s1.tiles, s.dv, s.dv + nb, s.dv + s.dvsize, true, false) && LiveSet(s.live, s1.live, s.dv, n)
  }

  lemma DvWords(s: Space, s1: Space, h: Heads, nb: nat, n: nat)
    requires Ok(s, {}) && s.dv != 0 && Fits(nb, n) && nb + MIN_CHUNK <= s.dvsize && DvSplit(s, s1, h, nb, n)
    ensures Rewritten(s.heads, s.foots, s1.heads, s1.foots, s.dv, s.dv + nb, s.dv + s.dvsize, true, false, s1.top)
  {
    DvIs(s, {});
    FreeSpan(s, {}, s.dv);
    hide Ok, Retile, Span, LiveSet;
  }

  lemma DvRetiled(s: Space, s1: Space, h: Heads, nb: nat, n: nat)
    requires Ok(s, {}) && s.dv != 0 && Fits(nb, n) && nb + MIN_CHUNK <= s.dvsize && DvSplit(s, s1, h, nb, n)
    ensures Retiled(s, s1, {}, {}, s.dv, s.dv + nb, s.dv + s.dvsize, true, false)
  {
    DvIs(s, {});
    OneSpan(s, {}, s.dv);
    FreeSpan(s, {}, s.dv);
    TopElsewhere(s, {}, s.dv);
    DvWords(s, s1, h, nb, n);
    hide Ok, Retile, Span, Rewritten, HeadSet, FootSet;
  }

  lemma DvIs(s: Space, loose: set<nat>)
    requires Ok(s, loose)
    ensures s.dv != 0 ==> s.dv in s.tiles && s.tiles[s.dv] == Tile(s.dvsize, false) && s.dv != s.top && s.dvsize >= MIN_CHUNK
    ensures s.dv == 0 <==> s.dvsize == 0
  {
  }

  /** The top chunk is split. */
  ghost predicate TopSplit(s: Space, s1: Space, h: Heads, nb: nat, n: nat) {
    && nb < s.topsize && Rest(s, s1) && s1.top == s.top + nb && s1.topsize == s.topsize - nb && s1.dv == s.dv && s1.dvsize == s.dvsize && s1.foots == s.foots
    && HeadSet(s.heads, h, s.top + nb, Head(s.topsize - nb, false, true)) && HeadSet(h, s1.heads, s.top, Head(nb, true, true))
    && Retiles(s.tiles, s1.tiles, s.top, s.top + nb, s.top + s.topsize, true, false) && LiveSet(s.live, s1.live, s.top, n)
  }

  lemma TopWords(s: Space, s1: Space, h: Heads, nb: nat, n: nat)
    requires Ok(s, {}) && Fits(nb, n) && nb < s.topsize && TopSplit(s, s1, h, nb, n)
    ensures Rewritten(s.heads, s.foots, s1.heads, s1.foots, s.top, s.top + nb, s.top + s.topsize, true, false, s1.top)
  {
    TopEnd(s, {});
    FreeSpan(s, {}, s.top);
    hide Ok, Retile, Span, LiveSet;
  }

  lemma TopRetiled(s: Space, s1: Space, h: Heads, nb: nat, n: nat)
    requires Ok(s, {}) && Fits(nb, n) && nb < s.topsize && TopSplit(s, s1, h, nb, n)
    ensures Retiled(s, s1, {}, {}, s.top, s.top + nb, s.top + s.topsize, true, false)
  {
    TopEnd(s, {});
    OneSpan(s, {}, s.top);
    FreeSpan(s, {}, s.top);
    TopElsewhere(s, {}, s.top);
    DvIs(s, {});
    TopWords(s, s1, h, nb, n);
    hide Ok, Retile, Span, Rewritten, HeadSet, FootSet;
  }

  // ------------------------------------------------------------------------ giving back

  /** Two neighbours are in one segment. */
  lemma JoinInside(s: Space, loose: set<nat>, a: nat, b: nat, p: nat)
    requires Ok(s, loose) && p in s.tiles && Inside(s.segs, s.limits, a, p) && a <= p && b == End(s.tiles, p)
    ensures Inside(s.segs, s.limits, a, b)
  {
    hide Tags, Lone, Binned, BasePins, TopOk, DvOk, LooseOk, BigEnough, Owned, Directs;
    GeoAt(s.tiles, s.segs, s.limits, p);
    var i: nat :| i < |s.segs| && Within(s.segs, s.limits, a, p, i);
    var j: nat :| j < |s.segs| && Within(s.segs, s.limits, p, b, j);
    SameSeg(s.segs, s.limits, a, p, i, p, b, j);
    assert Within(s.segs, s.limits, a, b, i);
  }

  /** The chunk `p`, with the chunk before it from `a` if that is free, and with the one behind it
      at `q` up to `b` if that is. */
  ghost predicate Merging(s: Space, p: nat, a: nat, q: nat, b: nat) {
    && p in s.live && p in s.tiles && p in s.heads && q == End(s.tiles, p) && q in s.tiles
    && (if a == p then s.heads[p].pin else a in s.tiles && End(s.tiles, a) == p && !s.tiles[a].used)
    && (if b == q then s.tiles[q].used else !s.tiles[q].used && b == End(s.tiles, q))
  }

  /** Those of the neighbours that were taken out of their bins. */
  function TakenOut(s: Space, p: nat, a: nat, q: nat, b: nat): set<nat> {
    (if a != p && a != s.dv then {a} else {}) + (if b != q && q != s.top && q != s.dv then {q} else {})
  }

  lemma MergeSpan(s: Space, loose: set<nat>, p: nat, a: nat, q: nat, b: nat)
    requires Ok(s, loose) && Merging(s, p, a, q, b)
    ensures Span(s.tiles, s.segs, s.limits, a, b) && a <= p < q <= b && a % 8 == 0 && b % 8 == 0 && a > 0
    ensures forall x :: x in s.tiles && a <= x < b ==> x == a || x == p || (x == q && b != q)
  {
    hide Tags, Lone, Binned, BasePins, TopOk, DvOk, LooseOk, BigEnough, Owned, Directs, Inside, Geo;
    GeoAt(s.tiles, s.segs, s.limits, p);
    GeoAt(s.tiles, s.segs, s.limits, q);
    if a != p {
      GeoAt(s.tiles, s.segs, s.limits, a);
      JoinInside(s, loose, a, q, p);
    }
    if b != q { JoinInside(s, loose, a, b, q); }
    forall x | x in s.tiles && a <= x < b
      ensures x == a || x == p || (x == q && b != q)
    {
      GeoPair(s.tiles, s.segs, s.limits, a, x);
      GeoPair(s.tiles, s.segs, s.limits, p, x);
      GeoPair(s.tiles, s.segs, s.limits, q, x);
    }
  }

  lemma MergeBounds(s: Space, loose: set<nat>, p: nat, a: nat, q: nat, b: nat)
    requires Ok(s, loose) && Merging(s, p, a, q, b)
    ensures a <= p < q <= b && a % 8 == 0 && b % 8 == 0 && a + 8 <= q && q in s.heads
  {
    MergeSpan(s, loose, p, a, q, b);
    HeadsAt(s, loose, q);
  }

  /** What the tags say around the chunks that are merged. */
  lemma MergeTags(s: Space, loose: set<nat>, p: nat, a: nat, q: nat, b: nat)
    requires Ok(s, loose) && Merging(s, p, a, q, b)
    ensures a in s.heads && s.heads[a].pin && b in s.heads && s.heads[b].pin == (b == q) && s.tiles[p].used && s.tiles[p].size >= MIN_CHUNK
    ensures b in s.tiles ==> s.tiles[b].used
    ensures b in s.limits <==> b != q && q == s.top
    ensures b != q && q == s.top ==> b == s.limits[0]
  {
    hide Binned, DvOk, LooseOk, Directs, Geo, Tags, BasePins, Lone;
    LiveIs(s, loose, p);
    TopEnd(s, loose);
    TagAt(s.heads, s.foots, s.tiles, s.top, p);
    TagAt(s.heads, s.foots, s.tiles, s.top, q);
    LoneIs(s.tiles, q);
    if a != p { FreePin(s.tiles, s.segs, s.limits, s.heads, s.foots, s.top, a); }
    OwnedIs(s, loose, q);
    if b == q { NotAtLimit(s.tiles, s.segs, s.limits, q); }
  }

  /** No bin, and no live chunk but `p`, is among the chunks that are merged. */
  lemma MergeNone(s: Space, p: nat, a: nat, q: nat, b: nat)
    requires Ok(s, TakenOut(s, p, a, q, b)) && Merging(s, p, a, q, b)
    ensures forall x {:trigger x in s.free} :: x in s.free ==> !(a <= x < b)
    ensures forall x {:trigger x in s.live} :: x in s.live && a <= x < b ==> x == p
    ensures forall x {:trigger x in s.internal} :: x in s.internal ==> !(a <= x < b)
    ensures a <= s.top < b <==> b != q && s.top == q
    ensures a <= s.dv < b <==> (a != p && s.dv == a) || (b != q && s.dv == q)
  {
    var loose := TakenOut(s, p, a, q, b);
    MergeSpan(s, loose, p, a, q, b);
    MergeTags(s, loose, p, a, q, b);
    TopEnd(s, loose);
    DvIs(s, loose);
    LiveIs(s, loose, p);
    NoNull2(s);
    hide Geo, Tags, Lone, BasePins, Directs, DvOk, LooseOk, BigEnough, TopOk, Binned;
    forall x: nat
      ensures x in s.free ==> !(a <= x < b)
      ensures x in s.live && a <= x < b ==> x == p
      ensures x in s.internal ==> !(a <= x < b)
    {
      BinnedIs(s.free, s.tiles, s.top, s.dv, loose, x);
      if x in s.live && a <= x < b { NoLive(s, loose, a, b, x); }
    }
  }

  /** The state when a chunk has been given back, merged with its free neighbours. */
  ghost predicate FreedSpace(s: Space, s1: Space, h: Heads, p: nat, a: nat, q: nat, b: nat) {
    var intoTop := b != q && q == s.top;
    var intoDv := !intoTop && ((b != q && q == s.dv) || (a != p && a == s.dv));
    && a < b && Rest(s, s1)
    && (if b == q then q in s.heads && HeadSet(s.heads, h, q, s.heads[q].(pin := false)) else h == s.heads)
    && HeadSet(h, s1.heads, a, Head(b - a, false, true))
    && (if intoTop then s1.foots == s.foots else FootSet(s.foots, s1.foots, b, b - a))
    && Retiles(s.tiles, s1.tiles, a, b, b, false, false) && LiveGone(s.live, s1.live, p)
    && s1.top == (if intoTop then a else s.top) && s1.topsize == (if intoTop then b - a else s.topsize)
    && s1.dv == (if intoDv then a else if intoTop && a != p && a == s.dv then 0 else s.dv)
    && s1.dvsize == (if intoDv then b - a else if intoTop && a != p && a == s.dv then 0 else s.dvsize)
  }

  /** Where the merged chunk goes. */
  function FreedLoose(s: Space, p: nat, a: nat, q: nat, b: nat): set<nat> {
    if (b != q && (q == s.top || q == s.dv)) || (a != p && a == s.dv) then {} else {a}
  }

  lemma FreedWords(s: Space, s1: Space, h: Heads, p: nat, a: nat, q: nat, b: nat)
    requires Ok(s, TakenOut(s, p, a, q, b)) && Merging(s, p, a, q, b) && FreedSpace(s, s1, h, p, a, q, b)
    ensures Rewritten(s.heads, s.foots, s1.heads, s1.foots, a, b, b, false, false, s1.top)
  {
    MergeSpan(s, TakenOut(s, p, a, q, b), p, a, q, b);
    MergeTags(s, TakenOut(s, p, a, q, b), p, a, q, b);
    hide Ok, Retile, Span, Merging, TakenOut;
  }

  lemma FreedPlaces(s: Space, s1: Space, h: Heads, p: nat, a: nat, q: nat, b: nat)
    requires Ok(s, TakenOut(s, p, a, q, b)) && Merging(s, p, a, q, b) && FreedSpace(s, s1, h, p, a, q, b)
    ensures Places(s, s1, TakenOut(s, p, a, q, b), FreedLoose(s, p, a, q, b), a, b, b, false, false)
  {
    MergeSpan(s, TakenOut(s, p, a, q, b), p, a, q, b);
    MergeNone(s, p, a, q, b);
    hide Ok, Retile, Span, Merging;
  }

  lemma FreedSpecials(s: Space, s1: Space, h: Heads, p: nat, a: nat, q: nat, b: nat)
    requires Ok(s, TakenOut(s, p, a, q, b)) && Merging(s, p, a, q, b) && FreedSpace(s, s1, h, p, a, q, b)
    ensures Specials(s, s1, FreedLoose(s, p, a, q, b), a, b, b, false, false)
  {
    var loose := TakenOut(s, p, a, q, b);
    MergeSpan(s, loose, p, a, q, b);
    MergeTags(s, loose, p, a, q, b);
    MergeNone(s, p, a, q, b);
    TopEnd(s, loose);
    DvIs(s, loose);
    hide Ok, Retile, Span, Merging, TakenOut;
  }

  lemma FreedLives(s: Space, s1: Space, h: Heads, p: nat, a: nat, q: nat, b: nat)
    requires Ok(s, TakenOut(s, p, a, q, b)) && Merging(s, p, a, q, b) && FreedSpace(s, s1, h, p, a, q, b)
    ensures Lives(s, s1, a, b, b, false, false)
  {
    MergeSpan(s, TakenOut(s, p, a, q, b), p, a, q, b);
    MergeNone(s, p, a, q, b);
    hide Ok, Retile, Span, Merging, TakenOut;
  }

  lemma Freed(s: Space, s1: Space, h: Heads, p: nat, a: nat, q: nat, b: nat)
    requires Ok(s, TakenOut(s, p, a, q, b)) && Merging(s, p, a, q, b) && FreedSpace(s, s1, h, p, a, q, b)
    ensures Retiled(s, s1, TakenOut(s, p, a, q, b), FreedLoose(s, p, a, q, b), a, b, b, false, false)
  {
    var loose := TakenOut(s, p, a, q, b);
    MergeSpan(s, loose, p, a, q, b);
    MergeTags(s, loose, p, a, q, b);
    FreedWords(s, s1, h, p, a, q, b);
    FreedPlaces(s, s1, h, p, a, q, b);
    FreedSpecials(s, s1, h, p, a, q, b);
    FreedLives(s, s1, h, p, a, q, b);
    hide Ok, Retile, Span, TakenOut, FreedLoose, Rewritten, Specials, Lives, Places;
  }

  // --------------------------------------------------------- the steps with their effect

  lemma HeadsAt(s: Space, loose: set<nat>, p: nat)
    requires Ok(s, loose) && p in s.tiles
    ensures p in s.heads && End(s.tiles, p) in s.heads && s.heads[p] == Head(s.tiles[p].size, s.tiles[p].used, s.heads[p].pin)
    ensures p % 8 == 0 && p > 0 && s.tiles[p].size % 8 == 0 && s.tiles[p].size > 0
  {
    hide Geo, Tags, Lone, Binned, BasePins, TopOk, DvOk, LooseOk, BigEnough, Owned, Directs;
    TagAt(s.heads, s.foots, s.tiles, s.top, p);
    GeoAt(s.tiles, s.segs, s.limits, p);
  }

  lemma TakenStep(s: Space, s1: Space, h: Heads, m: Memory, m1: Memory, p: nat, size: nat, n: nat)
    requires Ok(s, {p}) && p in s.tiles && s.tiles[p] == Tile(size, false) && n + 4 <= size && Taken(s, s1, h, p, size, n) && WritesWithin(m, m1, p, p + size)
    ensures Ok(s1, {}) && Keeps(s, m, s1, m1, 0) && p in s1.tiles && s1.tiles[p] == Tile(size, true) && p !in s.live
  {
    hide Ok, Retiled, Keeps, WritesWithin, Retile;
    FreeSpan(s, {p}, p);
    LooseNot(s, {p}, p);
    TakenRetiled(s, s1, h, p, size, n);
    Stepped(s, m, s1, m1, {p}, {}, p, p + size, p + size, true, true, 0);
    RetileAt(s.tiles, p, p + size, p + size, true, true, p);
  }

  lemma SplitStep(s: Space, s1: Space, h: Heads, m: Memory, m1: Memory, p: nat, size: nat, nb: nat, n: nat)
    requires Ok(s, {p}) && p in s.tiles && s.tiles[p] == Tile(size, false) && Fits(nb, n) && nb + MIN_CHUNK <= size
    requires Split(s, s1, h, p, size, nb, n) && WritesWithin(m, m1, p, p + size)
    ensures Ok(s1, {p + nb}) && Keeps(s, m, s1, m1, 0) && p !in s.live
    ensures p in s1.tiles && s1.tiles[p] == Tile(nb, true) && p + nb in s1.tiles && s1.tiles[p + nb] == Tile(size - nb, false)
  {
    hide Ok, Retiled, Keeps, WritesWithin, Retile;
    FreeSpan(s, {p}, p);
    SplitRetiled(s, s1, h, p, size, nb, n);
    Stepped(s, m, s1, m1, {p}, {p + nb}, p, p + nb, p + size, true, false, 0);
    RetileAt(s.tiles, p, p + nb, p + size, true, false, p);
    RetileAt(s.tiles, p, p + nb, p + size, true, false, p + nb);
  }

  lemma DvStep(s: Space, s1: Space, h: Heads, m: Memory, m1: Memory, nb: nat, n: nat)
    requires Ok(s, {}) && s.dv != 0 && Fits(nb, n) && nb + MIN_CHUNK <= s.dvsize && DvSplit(s, s1, h, nb, n) && WritesWithin(m, m1, s.dv, s.dv + s.dvsize)
    ensures Ok(s1, {}) && Keeps(s, m, s1, m1, 0) && s.dv !in s.live && s.dv in s1.tiles && s1.tiles[s.dv] == Tile(nb, true)
  {
    hide Ok, Retiled, Keeps, WritesWithin, Retile;
    DvIs(s, {});
    FreeSpan(s, {}, s.dv);
    DvRetiled(s, s1, h, nb, n);
    Stepped(s, m, s1, m1, {}, {}, s.dv, s.dv + nb, s.dv + s.dvsize, true, false, 0);
    RetileAt(s.tiles, s.dv, s.dv + nb, s.dv + s.dvsize, true, false, s.dv);
  }

  lemma TopStep(s: Space, s1: Space, h: Heads, m: Memory, m1: Memory, nb: nat, n: nat)
    requires Ok(s, {}) && Fits(nb, n) && nb < s.topsize && TopSplit(s, s1, h, nb, n) && WritesWithin(m, m1, s.top, s.top + s.topsize)
    ensures Ok(s1, {}) && Keeps(s, m, s1, m1, 0) && s.top !in s.live && s.top in s1.tiles && s1.tiles[s.top] == Tile(nb, true)
  {
    hide Ok, Retiled, Keeps, WritesWithin, Retile;
    TopEnd(s, {});
    FreeSpan(s, {}, s.top);
    TopRetiled(s, s1, h, nb, n);
    Stepped(s, m, s1, m1, {}, {}, s.top, s.top + nb, s.top + s.topsize, true, false, 0);
    RetileAt(s.tiles, s.top, s.top + nb, s.top + s.topsize, true, false, s.top);
  }

  /** The designated victim, if any, gives way to a loose chunk and becomes loose itself. */
  lemma SwapDv(s: Space, p: nat)
    requires Ok(s, {p})
    ensures p in s.tiles && s.dv != p && p != 0
    ensures s.dv != 0 ==> Ok(s.(dv := 0, dvsize := 0), {p, s.dv}) && s.dv in s.tiles && s.tiles[s.dv] == Tile(s.dvsize, false)
    ensures s.dv == 0 <==> s.dvsize == 0
    ensures s.dv == 0 ==> Ok(s.(dv := p, dvsize := s.tiles[p].size), {})
  {
    LooseNot(s, {p}, p);
    DvIs(s, {p});
    NoNull2(s);
    assert {p} + {s.dv} == {p, s.dv};
    if s.dv != 0 {
      LeaveDv(s, {p});
    } else {
      BecomeDv(s, {p}, p);
      assert {p} - {p} == {};
    }
  }

  /** A chunk given back: the state stays in order, and the other chunks keep their contents. */
  lemma FreedStep(s: Space, s1: Space, h: Heads, m: Memory, m1: Memory, p: nat, a: nat, q: nat, b: nat)
    requires Ok(s, TakenOut(s, p, a, q, b)) && Merging(s, p, a, q, b) && FreedSpace(s, s1, h, p, a, q, b) && WritesWithin(m, m1, a, b)
    ensures Ok(s1, FreedLoose(s, p, a, q, b)) && Keeps(s, m, s1, m1, p) && a in s1.tiles && s1.tiles[a] == Tile(b - a, false)
  {
    hide Ok, Retiled, Keeps, WritesWithin, Retile, Merging;
    MergeSpan(s, TakenOut(s, p, a, q, b), p, a, q, b);
    MergeNone(s, p, a, q, b);
    Freed(s, s1, h, p, a, q, b);
    hide TakenOut, FreedLoose;
    Stepped(s, m, s1, m1, TakenOut(s, p, a, q, b), FreedLoose(s, p, a, q, b), a, b, b, false, false, p);
    RetileAt(s.tiles, a, b, b, false, false, a);
  }

  /** A chunk in use is not the designated victim. */
  lemma NotDv(s: Space, loose: set<nat>, p: nat, a: nat, q: nat, b: nat)
    requires Ok(s, loose) && Merging(s, p, a, q, b)
    ensures p != s.dv && (s.tiles[q].used ==> q != s.dv && q != s.top)
  {
    LiveIs(s, loose, p);
    DvIs(s, loose);
    NoNull2(s);
    TopEnd(s, loose);
  }

  /** What the four ways of giving back have in common. */
  ghost predicate FreedRest(s: Space, s1: Space, p: nat, a: nat, b: nat) {
    a < b && Rest(s, s1) && Retiles(s.tiles, s1.tiles, a, b, b, false, false) && LiveGone(s.live, s1.live, p)
  }

  /** The chunk behind is in use. */
  lemma FreedHere(s: Space, s1: Space, h: Heads, m: Memory, m1: Memory, p: nat, a: nat, q: nat)
    requires Ok(s, TakenOut(s, p, a, q, q)) && Merging(s, p, a, q, q) && FreedRest(s, s1, p, a, q) && WritesWithin(m, m1, a, q)
    requires q in s.heads && HeadSet(s.heads, h, q, s.heads[q].(pin := false)) && HeadSet(h, s1.heads, a, Head(q - a, false, true)) && FootSet(s.foots, s1.foots, q, q - a)
    requires s1.top == s.top && s1.topsize == s.topsize && s1.dv == s.dv && s1.dvsize == if a == s.dv then q - a else s.dvsize
    ensures Ok(s1, FreedLoose(s, p, a, q, q)) && Keeps(s, m, s1, m1, p) && a in s1.tiles && s1.tiles[a] == Tile(q - a, false)
  {
    NotDv(s, TakenOut(s, p, a, q, q), p, a, q, q);
    hide Ok, Keeps, WritesWithin, Merging, HeadSet, FootSet, TakenOut, FreedLoose, Retiles, LiveGone, Rest;
    FreedStep(s, s1, h, m, m1, p, a, q, q);
  }

  /** The chunk behind was in a bin. */
  lemma FreedNext(s: Space, s1: Space, m: Memory, m1: Memory, p: nat, a: nat, q: nat, b: nat)
    requires Ok(s, TakenOut(s, p, a, q, b)) && Merging(s, p, a, q, b) && b != q && q != s.top && q != s.dv && FreedRest(s, s1, p, a, b) && WritesWithin(m, m1, a, b)
    requires HeadSet(s.heads, s1.heads, a, Head(b - a, false, true)) && FootSet(s.foots, s1.foots, b, b - a)
    requires s1.top == s.top && s1.topsize == s.topsize && s1.dv == s.dv && s1.dvsize == if a == s.dv then b - a else s.dvsize
    ensures Ok(s1, FreedLoose(s, p, a, q, b)) && Keeps(s, m, s1, m1, p) && a in s1.tiles && s1.tiles[a] == Tile(b - a, false)
  {
    NotDv(s, TakenOut(s, p, a, q, b), p, a, q, b);
    InHeads(s, TakenOut(s, p, a, q, b), q);
    hide Ok, Keeps, WritesWithin, Merging, HeadSet, FootSet, TakenOut, FreedLoose, Retiles, LiveGone, Rest;
    FreedStep(s, s1, s.heads, m, m1, p, a, q, b);
  }

  lemma InHeads(s: Space, loose: set<nat>, q: nat)
    requires Ok(s, loose) && q in s.tiles
    ensures q in s.heads
  {
    HeadsAt(s, loose, q);
  }

  /** The chunk behind is the designated victim. */
  lemma FreedNextDv(s: Space, s1: Space, m: Memory, m1: Memory, p: nat, a: nat, q: nat)
    requires q == s.dv && s.dvsize > 0
    requires var b := q + s.dvsize; Ok(s, TakenOut(s, p, a, q, b)) && Merging(s, p, a, q, b) && FreedRest(s, s1, p, a, b) && WritesWithin(m, m1, a, b)
    requires var b := q + s.dvsize; HeadSet(s.heads, s1.heads, a, Head(b - a, false, true)) && FootSet(s.foots, s1.foots, b, b - a)
    requires s1.top == s.top && s1.topsize == s.topsize && s1.dv == a && s1.dvsize == q + s.dvsize - a
    ensures Ok(s1, {}) && Keeps(s, m, s1, m1, p)
  {
    hide Ok, Keeps, WritesWithin, Merging, HeadSet, FootSet, TakenOut, FreedLoose, FreedSpace;
    var b := q + s.dvsize;
    DvIs(s, TakenOut(s, p, a, q, b));
    DvFreed(s, s1, p, a, q);
    FreedStep(s, s1, s.heads, m, m1, p, a, q, b);
  }

  lemma DvFreed(s: Space, s1: Space, p: nat, a: nat, q: nat)
    requires q == s.dv && s.dvsize > 0 && FreedRest(s, s1, p, a, q + s.dvsize) && q != s.top
    requires HeadSet(s.heads, s1.heads, a, Head(q + s.dvsize - a, false, true)) && FootSet(s.foots, s1.foots, q + s.dvsize, q + s.dvsize - a)
    requires s1.top == s.top && s1.topsize == s.topsize && s1.dv == a && s1.dvsize == q + s.dvsize - a
    ensures FreedSpace(s, s1, s.heads, p, a, q, q + s.dvsize) && FreedLoose(s, p, a, q, q + s.dvsize) == {}
  {
    hide HeadSet, FootSet, Retiles, LiveGone, Rest;
  }

  /** The chunk behind is the top chunk. */
  lemma FreedNextTop(s: Space, s1: Space, m: Memory, m1: Memory, p: nat, a: nat, q: nat)
    requires q == s.top && s.topsize > 0
    requires var b := q + s.topsize; Ok(s, TakenOut(s, p, a, q, b)) && Merging(s, p, a, q, b) && FreedRest(s, s1, p, a, b) && WritesWithin(m, m1, a, b)
    requires HeadSet(s.heads, s1.heads, a, Head(q + s.topsize - a, false, true)) && s1.foots == s.foots
    requires s1.top == a && s1.topsize == q + s.topsize - a && s1.dv == (if a == s.dv then 0 else s.dv) && s1.dvsize == if a == s.dv then 0 else s.dvsize
    ensures Ok(s1, {}) && Keeps(s, m, s1, m1, p)
  {
    hide Ok, Keeps, WritesWithin, Merging, HeadSet, FootSet, TakenOut, FreedLoose, FreedSpace;
    var b := q + s.topsize;
    NotDv(s, TakenOut(s, p, a, q, b), p, a, q, b);
    TopFreed(s, s1, p, a, q);
    FreedStep(s, s1, s.heads, m, m1, p, a, q, b);
  }

  lemma TopFreed(s: Space, s1: Space, p: nat, a: nat, q: nat)
    requires q == s.top && s.topsize > 0 && FreedRest(s, s1, p, a, q + s.topsize) && p != s.dv
    requires HeadSet(s.heads, s1.heads, a, Head(q + s.topsize - a, false, true)) && s1.foots == s.foots
    requires s1.top == a && s1.topsize == q + s.topsize - a && s1.dv == (if a == s.dv then 0 else s.dv) && s1.dvsize == if a == s.dv then 0 else s.dvsize
    ensures FreedSpace(s, s1, s.heads, p, a, q, q + s.topsize) && FreedLoose(s, p, a, q, q + s.topsize) == {}
  {
    hide HeadSet, FootSet, Retiles, LiveGone, Rest;
  }

  // ----------------------------------------------------------------------- reallocation

  /** A live chunk, by its tags. */
  lemma LiveTags(s: Space, p: nat)
    requires Ok(s, {}) && p in s.live && p in s.tiles
    ensures p in s.heads && s.heads[p] == Head(s.tiles[p].size, true, s.heads[p].pin) && s.tiles[p].used && s.live[p] + 4 <= s.tiles[p].size
    ensures End(s.tiles, p) in s.tiles && End(s.tiles, p) in s.heads && s.heads[End(s.tiles, p)] == Head(s.tiles[End(s.tiles, p)].size, s.tiles[End(s.tiles, p)].used, true)
    ensures !s.heads[p].pin ==> p in s.foots && s.foots[p] % 8 == 0
    ensures s.tiles[p].size >= MIN_CHUNK && s.tiles[p].size % 8 == 0 && p % 8 == 0 && p > 0 && p != s.top
  {
    hide Binned, DvOk, LooseOk, Directs, Lone;
    LiveIs(s, {}, p);
    HeadsAt(s, {}, p);
    TagAt(s.heads, s.foots, s.tiles, s.top, p);
    GeoAt(s.tiles, s.segs, s.limits, p);
    OwnedIs(s, {}, p);
    TagAt(s.heads, s.foots, s.tiles, s.top, End(s.tiles, p));
    TopEnd(s, {});
    if !s.heads[p].pin {
      var q := PrevFree(s.tiles, s.segs, s.limits, s.heads, s.foots, s.top, p);
      GeoAt(s.tiles, s.segs, s.limits, q);
    }
  }

  /** A live chunk is split in two that are both in use. */
  ghost predicate Shrunk(s: Space, s1: Space, h: Heads, h2: Heads, h3: Heads, p: nat, size: nat, nb: nat, n: nat) {
    && nb < size && Rest(s, s1) && s1.top == s.top && s1.topsize == s.topsize && s1.dv == s.dv && s1.dvsize == s.dvsize && s1.foots == s.foots
    && p in s.heads && p + size in s.heads
    && HeadSet(s.heads, h, p, Head(nb, true, s.heads[p].pin)) && p + nb in h2 && HeadSet(h, h2, p + nb, h2[p + nb])
    && HeadSet(h2, h3, p + nb, Head(size - nb, true, true)) && HeadSet(h3, s1.heads, p + size, s.heads[p + size].(pin := true))
    && Retiles(s.tiles, s1.tiles, p, p + nb, p + size, true, true) && s1.live == s.live[p := n][p + nb := 0]
  }

  lemma OneLive(s: Space, p: nat)
    requires Ok(s, {}) && p in s.live && p in s.tiles
    ensures forall q {:trigger q in s.live} :: q in s.live && p <= q < End(s.tiles, p) ==> q == p
    ensures forall q {:trigger q in s.free} :: q in s.free ==> !(p <= q < End(s.tiles, p))
    ensures forall q {:trigger q in s.internal} :: q in s.internal ==> !(p <= q < End(s.tiles, p))
    ensures !(p <= s.top < End(s.tiles, p)) && (s.dv != 0 ==> !(p <= s.dv < End(s.tiles, p))) && End(s.tiles, p) !in s.limits
  {
    hide BigEnough, LooseOk, Directs, Lone, Tags, Binned, BasePins, Geo, DvOk;
    LiveIs(s, {}, p);
    OneSpan(s, {}, p);
    TopEnd(s, {});
    DvIs(s, {});
    TopElsewhere(s, {}, p);
    OwnedIs(s, {}, p);
    forall q: nat
      ensures q in s.live && p <= q < End(s.tiles, p) ==> q == p
      ensures q in s.free ==> !(p <= q < End(s.tiles, p))
      ensures q in s.internal ==> !(p <= q < End(s.tiles, p))
    {
      if q in s.live && p <= q < End(s.tiles, p) { NoLive(s, {}, p, End(s.tiles, p), q); }
      BinnedIs(s.free, s.tiles, s.top, s.dv, {}, q);
    }
  }

  lemma ShrunkWords(s: Space, s1: Space, h: Heads, h2: Heads, h3: Heads, p: nat, size: nat, nb: nat, n: nat)
    requires Ok(s, {}) && p in s.live && p in s.tiles && s.tiles[p].size == size && Fits(nb, n) && nb + MIN_CHUNK <= size && Shrunk(s, s1, h, h2, h3, p, size, nb, n)
    ensures Rewritten(s.heads, s.foots, s1.heads, s1.foots, p, p + nb, p + size, true, true, s1.top)
  {
    LiveTags(s, p);
    hide Ok, Retile, Span;
  }

  lemma ShrunkStep(s: Space, s1: Space, h: Heads, h2: Heads, h3: Heads, m: Memory, m1: Memory, p: nat, size: nat, nb: nat, n: nat)
    requires Ok(s, {}) && p in s.live && p in s.tiles && s.tiles[p].size == size && Fits(nb, n) && nb + MIN_CHUNK <= size && Shrunk(s, s1, h, h2, h3, p, size, nb, n)
    requires WritesWithin(m, m1, p, p + size)
    ensures Ok(s1, {}) && Keeps(s, m, s1, m1, p) && p in s1.tiles && p + nb in s1.tiles && s1.tiles[p] == Tile(nb, true) && s1.tiles[p + nb] == Tile(size - nb, true)
    ensures p + nb !in s.live
  {
    hide Keeps, WritesWithin, Retile, Shrunk, Retiled, Ok;
    ShrunkRetiled(s, s1, h, h2, h3, p, size, nb, n);
    OneLive(s, p);
    Stepped(s, m, s1, m1, {}, {}, p, p + nb, p + size, true, true, p);
    ShrunkTiles(s, s1, h, h2, h3, p, size, nb, n);
    NotLiveInside(s, p, p + nb);
  }

  lemma NotLiveInside(s: Space, p: nat, q: nat)
    requires Ok(s, {}) && p in s.live && p in s.tiles && p < q < End(s.tiles, p)
    ensures q !in s.live
  {
    OneLive(s, p);
  }

  lemma ShrunkTiles(s: Space, s1: Space, h: Heads, h2: Heads, h3: Heads, p: nat, size: nat, nb: nat, n: nat)
    requires Shrunk(s, s1, h, h2, h3, p, size, nb, n)
    ensures p in s1.tiles && p + nb in s1.tiles && s1.tiles[p] == Tile(nb, true) && s1.tiles[p + nb] == Tile(size - nb, true)
  {
    hide Retile, HeadSet;
    RetileAt(s.tiles, p, p + nb, p + size, true, true, p);
    RetileAt(s.tiles, p, p + nb, p + size, true, true, p + nb);
  }

  lemma ShrunkRetiled(s: Space, s1: Space, h: Heads, h2: Heads, h3: Heads, p: nat, size: nat, nb: nat, n: nat)
    requires Ok(s, {}) && p in s.live && p in s.tiles && s.tiles[p].size == size && Fits(nb, n) && nb + MIN_CHUNK <= size && Shrunk(s, s1, h, h2, h3, p, size, nb, n)
    ensures Retiled(s, s1, {}, {}, p, p + nb, p + size, true, true)
  {
    hide Retile;
    ShrunkWords(s, s1, h, h2, h3, p, size, nb, n);
    LiveTags(s, p);
    OneSpan(s, {}, p);
    OneLive(s, p);
    DvIs(s, {});
    hide Ok, Span, Rewritten, HeadSet;
  }

  /** A live chunk grows into the top chunk behind it. */
  ghost predicate Expanded(s: Space, s1: Space, h: Heads, p: nat, size: nat, nb: nat, n: nat) {
    && nb < size + s.topsize && Rest(s, s1) && s1.top == p + nb && s1.topsize == size + s.topsize - nb && s1.dv == s.dv && s1.dvsize == s.dvsize && s1.foots == s.foots
    && p in s.heads && HeadSet(s.heads, h, p, Head(nb, true, s.heads[p].pin)) && HeadSet(h, s1.heads, p + nb, Head(size + s.topsize - nb, false, true))
    && Retiles(s.tiles, s1.tiles, p, p + nb, s.top + s.topsize, true, false) && LiveSet(s.live, s1.live, p, n)
  }

  lemma ExpandedSpan(s: Space, p: nat, size: nat)
    requires Ok(s, {}) && p in s.live && p in s.tiles && s.tiles[p].size == size && p + size == s.top
    ensures Span(s.tiles, s.segs, s.limits, p, s.top + s.topsize) && |s.limits| > 0 && s.top + s.topsize == s.limits[0] && s.top + s.topsize in s.heads
    ensures !s.heads[s.top + s.topsize].pin && s.top + s.topsize !in s.tiles
    ensures forall q {:trigger q in s.tiles} :: q in s.tiles && p <= q < s.top + s.topsize ==> q == p || q == s.top
  {
    hide BigEnough, LooseOk, Directs, Lone, Binned, BasePins, DvOk, Owned;
    TopEnd(s, {});
    LiveTags(s, p);
    GeoAt(s.tiles, s.segs, s.limits, p);
    JoinInside(s, {}, p, s.top + s.topsize, s.top);
    TagAt(s.heads, s.foots, s.tiles, s.top, s.top);
    if s.top + s.topsize in s.tiles { NotAtLimit(s.tiles, s.segs, s.limits, s.top + s.topsize); }
    forall q | q in s.tiles && p <= q < s.top + s.topsize
      ensures q == p || q == s.top
    {
      GeoPair(s.tiles, s.segs, s.limits, p, q);
      GeoPair(s.tiles, s.segs, s.limits, s.top, q);
    }
  }

  lemma ExpandedNone(s: Space, p: nat, size: nat)
    requires Ok(s, {}) && p in s.live && p in s.tiles && s.tiles[p].size == size && p + size == s.top
    ensures forall q {:trigger q in s.live} :: q in s.live && p <= q < s.top + s.topsize ==> q == p
    ensures forall q {:trigger q in s.free} :: q in s.free ==> !(p <= q < s.top + s.topsize)
    ensures forall q {:trigger q in s.internal} :: q in s.internal ==> !(p <= q < s.top + s.topsize)
    ensures s.dv != 0 ==> !(p <= s.dv < s.top + s.topsize)
  {
    hide BigEnough, LooseOk, Directs, Lone, Tags, Binned, BasePins, Geo, DvOk;
    ExpandedSpan(s, p, size);
    LiveIs(s, {}, p);
    TopEnd(s, {});
    DvIs(s, {});
    forall q: nat
      ensures q in s.live && p <= q < s.top + s.topsize ==> q == p
      ensures q in s.free ==> !(p <= q < s.top + s.topsize)
      ensures q in s.internal ==> !(p <= q < s.top + s.topsize)
    {
      if q in s.live && p <= q < s.top + s.topsize { NoLive(s, {}, p, s.top + s.topsize, q); }
      BinnedIs(s.free, s.tiles, s.top, s.dv, {}, q);
    }
  }

  lemma ExpandedStep(s: Space, s1: Space, h: Heads, m: Memory, m1: Memory, p: nat, size: nat, nb: nat, n: nat)
    requires Ok(s, {}) && p in s.live && p in s.tiles && s.tiles[p].size == size && p + size == s.top && Fits(nb, n) && Expanded(s, s1, h, p, size, nb, n)
    requires WritesWithin(m, m1, p, s.top + s.topsize)
    ensures Ok(s1, {}) && Keeps(s, m, s1, m1, p) && p in s1.tiles && s1.tiles[p] == Tile(nb, true)
  {
    hide Keeps, WritesWithin, Retile, Expanded, Retiled, Ok;
    ExpandedNone(s, p, size);
    ExpandedRetiled(s, s1, h, p, size, nb, n);
    Stepped(s, m, s1, m1, {}, {}, p, p + nb, s.top + s.topsize, true, false, p);
    ExpandedTile(s, s1, h, p, size, nb, n);
  }

  lemma ExpandedTile(s: Space, s1: Space, h: Heads, p: nat, size: nat, nb: nat, n: nat)
    requires Expanded(s, s1, h, p, size, nb, n)
    ensures p in s1.tiles && s1.tiles[p] == Tile(nb, true)
  {
    hide Retile, HeadSet;
    RetileAt(s.tiles, p, p + nb, s.top + s.topsize, true, false, p);
  }

  lemma ExpandedRetiled(s: Space, s1: Space, h: Heads, p: nat, size: nat, nb: nat, n: nat)
    requires Ok(s, {}) && p in s.live && p in s.tiles && s.tiles[p].size == size && p + size == s.top && Fits(nb, n) && Expanded(s, s1, h, p, size, nb, n)
    ensures Retiled(s, s1, {}, {}, p, p + nb, s.top + s.topsize, true, false)
  {
    hide Retile;
    LiveTags(s, p);
    ExpandedSpan(s, p, size);
    ExpandedNone(s, p, size);
    DvIs(s, {});
    hide Ok, Span;
  }

  /** What is kept but for a chunk that was not live is kept. */
  lemma KeepsNew(s: Space, loose: set<nat>, m: Memory, s1: Space, m1: Memory, k: nat)
    requires Ok(s, loose) && Keeps(s, m, s1, m1, k) && k !in s.live
    ensures Keeps(s, m, s1, m1, 0)
  {
    NullNotLive(s, loose);
    hide Ok;
    forall p: nat, x: nat | Payload(s, p, x) ensures m1(x) == m(x) { }
  }

  lemma KeepsSkip(s: Space, m: Memory, s1: Space, m1: Memory, loose: set<nat>, k: nat)
    requires Ok(s, loose) && Keeps(s, m, s1, m1, 0)
    ensures Keeps(s, m, s1, m1, k)
  {
    NullNotLive(s, loose);
  }
}
