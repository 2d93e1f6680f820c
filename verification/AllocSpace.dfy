/** The state of the allocator (lj_alloc.c) as a value: what the tags in memory, the bins, the
    designated victim and the top chunk say about the chunks. */
module AllocSpace {
  import opened AllocSizes
  import opened AllocTiles

  /** The word at the head of a chunk: its size, whether it is in use, and whether the chunk
      before it is. */
  datatype Head = Head(size: nat, cin: bool, pin: bool)

  type Heads = map<nat, Head>

  /** `foots[p]` is the word before the head of `p`: the size of the chunk before, if free. */
  type Foots = map<nat, nat>

  /** `tiles` are the chunks; `limits[i]` is where those of segment `i` end. `direct` has the
      chunks that were mapped on their own, `live` those of the program with the sizes it asked
      for, `internal` those that hold the allocator's own records; `free` is what the bins hold. */
  datatype Space = Space(heads: Heads, foots: Foots, tiles: Tiles, segs: seq<Seg>, limits: seq<nat>, top: nat, topsize: nat, dv: nat, dvsize: nat,
                         direct: map<nat, nat>, live: map<nat, nat>, internal: set<nat>, free: map<nat, nat>)

  /** One word is written. */
  predicate HeadSet(h: Heads, h1: Heads, p: nat, v: Head) { h1 == h[p := v] }

  predicate FootSet(f: Foots, f1: Foots, p: nat, v: nat) { f1 == f[p := v] }

  /** One chunk becomes live. */
  predicate LiveSet(l: map<nat, nat>, l1: map<nat, nat>, p: nat, n: nat) { l1 == l[p := n] }

  /** One chunk is not live any more. */
  predicate LiveGone(l: map<nat, nat>, l1: map<nat, nat>, p: nat) { l1 == l - {p} }

  lemma LiveGoneIs(l: map<nat, nat>, p: nat)
    ensures LiveGone(l, l - {p}, p)
  {
  }

  /** A span is retiled. */
  predicate Retiles(t: Tiles, t1: Tiles, a: nat, m: nat, b: nat, u1: bool, u2: bool) { a < m <= b && t1 == Retile(t, a, m, b, u1, u2) }

  lemma RetilesIs(t: Tiles, a: nat, m: nat, b: nat, u1: bool, u2: bool)
    requires a < m <= b
    ensures Retiles(t, Retile(t, a, m, b, u1, u2), a, m, b, u1, u2)
  {
  }

  lemma LiveSetIs(l: map<nat, nat>, p: nat, n: nat)
    ensures LiveSet(l, l[p := n], p, n)
  {
  }

  /** What most steps leave alone. */
  predicate Rest(s: Space, s1: Space) {
    s1.segs == s.segs && s1.limits == s.limits && s1.direct == s.direct && s1.internal == s.internal && s1.free == s.free
  }

  // ------------------------------------------------------------------------------- tags

  /** The tags of chunk `p`: its head, and at its end whether it is in use, and its size if it is
      not. The top chunk has no size at its end. */
  predicate TagOk(heads: Heads, foots: Foots, t: Tiles, top: nat, p: nat)
    requires p in t
  {
    && p in heads && heads[p].size == t[p].size && heads[p].cin == t[p].used
    && End(t, p) in heads && heads[End(t, p)].pin == t[p].used
    && (!t[p].used && p != top ==> End(t, p) in foots && foots[End(t, p)] == t[p].size)
  }

  predicate Tags(heads: Heads, foots: Foots, t: Tiles, top: nat) {
    forall p {:trigger TagOk(heads, foots, t, top, p)} :: p in t ==> TagOk(heads, foots, t, top, p)
  }

  lemma TagAt(heads: Heads, foots: Foots, t: Tiles, top: nat, p: nat)
    requires Tags(heads, foots, t, top) && p in t
    ensures p in heads && heads[p].size == t[p].size && heads[p].cin == t[p].used
    ensures End(t, p) in heads && heads[End(t, p)].pin == t[p].used
    ensures !t[p].used && p != top ==> End(t, p) in foots && foots[End(t, p)] == t[p].size
  {
    assert TagOk(heads, foots, t, top, p);
  }

  /** There is nothing before the first chunk of a segment. */
  predicate PinAt(heads: Heads, segs: seq<Seg>, i: nat)
    requires i < |segs|
  {
    segs[i].base in heads && heads[segs[i].base].pin
  }

  predicate BasePins(heads: Heads, segs: seq<Seg>) {
    forall i: nat {:trigger PinAt(heads, segs, i)} :: i < |segs| ==> PinAt(heads, segs, i)
  }

  /** No two neighbours are free. */
  predicate LoneAt(t: Tiles, p: nat)
    requires p in t
  {
    !t[p].used && End(t, p) in t ==> t[End(t, p)].used
  }

  predicate Lone(t: Tiles) {
    forall p {:trigger LoneAt(t, p)} :: p in t ==> LoneAt(t, p)
  }

  /** The words written for a span that is retiled. */
  ghost predicate Rewritten(heads: Heads, foots: Foots, heads1: Heads, foots1: Foots, a: nat, m: nat, b: nat, u1: bool, u2: bool, top1: nat) {
    && a in heads && a in heads1 && b in heads && b in heads1 && a < m <= b
    && heads1[a] == Head(m - a, u1, heads[a].pin)
    && (m < b ==> m in heads1 && heads1[m] == Head(b - m, u2, u1))
    && heads1[b] == heads[b].(pin := if m < b then u2 else u1)
    && (!u1 && a != top1 ==> m in foots1 && foots1[m] == m - a)
    && (m < b && !u2 && m != top1 ==> b in foots1 && foots1[b] == b - m)
    && (forall q {:trigger q in heads1} {:trigger q in heads} :: q in heads && !(a <= q <= b) ==> q in heads1 && heads1[q] == heads[q])
    && (forall q {:trigger q in foots1} {:trigger q in foots} :: q in foots && !(a < q <= b) ==> q in foots1 && foots1[q] == foots[q])
  }

  lemma RewrittenAt(heads: Heads, foots: Foots, heads1: Heads, foots1: Foots, a: nat, m: nat, b: nat, u1: bool, u2: bool, top1: nat, q: nat)
    requires Rewritten(heads, foots, heads1, foots1, a, m, b, u1, u2, top1)
    ensures q in heads && !(a <= q <= b) ==> q in heads1 && heads1[q] == heads[q]
    ensures q in foots && !(a < q <= b) ==> q in foots1 && foots1[q] == foots[q]
  {
  }

  lemma RetileTag(t: Tiles, segs: seq<Seg>, limits: seq<nat>, a: nat, m: nat, b: nat, u1: bool, u2: bool,
      heads: Heads, foots: Foots, heads1: Heads, foots1: Foots, top: nat, top1: nat, p: nat)
    requires Geo(t, segs, limits) && Span(t, segs, limits, a, b) && a < m <= b && Tags(heads, foots, t, top)
    requires Rewritten(heads, foots, heads1, foots1, a, m, b, u1, u2, top1) && (top1 == top || (a <= top < b && a <= top1 < b))
    requires p in Retile(t, a, m, b, u1, u2)
    ensures TagOk(heads1, foots1, Retile(t, a, m, b, u1, u2), top1, p)
  {
    hide Retile, Inside, Geo, Tags, Span;
    RetileAt(t, a, m, b, u1, u2, p);
    if p in t && !(a <= p < b) {
      OutsideSpan(t, segs, limits, a, b, p);
      GeoAt(t, segs, limits, p);
      TagAt(heads, foots, t, top, p);
      RewrittenAt(heads, foots, heads1, foots1, a, m, b, u1, u2, top1, p);
      RewrittenAt(heads, foots, heads1, foots1, a, m, b, u1, u2, top1, End(t, p));
    }
  }

  lemma RetileTags(t: Tiles, segs: seq<Seg>, limits: seq<nat>, a: nat, m: nat, b: nat, u1: bool, u2: bool,
      heads: Heads, foots: Foots, heads1: Heads, foots1: Foots, top: nat, top1: nat)
    requires Geo(t, segs, limits) && Span(t, segs, limits, a, b) && a < m <= b && Tags(heads, foots, t, top) && BasePins(heads, segs)
    requires Rewritten(heads, foots, heads1, foots1, a, m, b, u1, u2, top1) && (top1 == top || (a <= top < b && a <= top1 < b))
    ensures Tags(heads1, foots1, Retile(t, a, m, b, u1, u2), top1) && BasePins(heads1, segs)
  {
    hide Retile, Geo, TagOk;
    forall p | p in Retile(t, a, m, b, u1, u2)
      ensures TagOk(heads1, foots1, Retile(t, a, m, b, u1, u2), top1, p)
    {
      RetileTag(t, segs, limits, a, m, b, u1, u2, heads, foots, heads1, foots1, top, top1, p);
    }
    hide Span, Tags, Rewritten;
    forall i: nat | i < |segs|
      ensures PinAt(heads1, segs, i)
    {
      assert PinAt(heads, segs, i);
      BaseSpan(t, segs, limits, a, b, i);
      RewrittenAt(heads, foots, heads1, foots1, a, m, b, u1, u2, top1, segs[i].base);
      RewrittenFirst(heads, foots, heads1, foots1, a, m, b, u1, u2, top1);
    }
  }

  lemma RewrittenFirst(heads: Heads, foots: Foots, heads1: Heads, foots1: Foots, a: nat, m: nat, b: nat, u1: bool, u2: bool, top1: nat)
    requires Rewritten(heads, foots, heads1, foots1, a, m, b, u1, u2, top1)
    ensures a in heads && a in heads1 && heads1[a].pin == heads[a].pin
  {
  }

  lemma RetileLone(t: Tiles, segs: seq<Seg>, limits: seq<nat>, a: nat, m: nat, b: nat, u1: bool, u2: bool, heads: Heads, foots: Foots, top: nat)
    requires Geo(t, segs, limits) && Span(t, segs, limits, a, b) && a < m <= b && Lone(t) && Tags(heads, foots, t, top)
    requires (!u1 ==> a in heads && heads[a].pin) && (u1 || m == b || u2)
    requires !(if m < b then u2 else u1) && b in t ==> t[b].used
    ensures Lone(Retile(t, a, m, b, u1, u2))
  {
    hide Retile, Geo, Tags;
    var t1 := Retile(t, a, m, b, u1, u2);
    forall p | p in t1
      ensures LoneAt(t1, p)
    {
      RetileAt(t, a, m, b, u1, u2, p);
      RetileAt(t, a, m, b, u1, u2, End(t1, p));
      if p in t && !(a <= p < b) {
        assert LoneAt(t, p);
        OutsideSpan(t, segs, limits, a, b, p);
        GeoAt(t, segs, limits, p);
        TagAt(heads, foots, t, top, p);
      }
    }
  }

  /** The chunk before a chunk is in use or free as its head says, and where it starts. */
  lemma PrevFree(t: Tiles, segs: seq<Seg>, limits: seq<nat>, heads: Heads, foots: Foots, top: nat, p: nat) returns (q: nat)
    requires Geo(t, segs, limits) && Tags(heads, foots, t, top) && BasePins(heads, segs) && p in t && p in heads && !heads[p].pin
    requires top in t ==> End(t, top) in limits
    ensures q in t && End(t, q) == p && !t[q].used && p in foots && foots[p] == t[q].size && q + foots[p] == p && q != top
  {
    hide Geo, Tags;
    forall i: nat | i < |segs|
      ensures segs[i].base != p
    {
      assert PinAt(heads, segs, i);
    }
    q := PrevTile(t, segs, limits, p);
    TagAt(heads, foots, t, top, q);
    NotAtLimit(t, segs, limits, p);
  }

  /** A free chunk has a chunk in use before it. */
  lemma FreePin(t: Tiles, segs: seq<Seg>, limits: seq<nat>, heads: Heads, foots: Foots, top: nat, p: nat)
    requires Geo(t, segs, limits) && Tags(heads, foots, t, top) && BasePins(heads, segs) && Lone(t) && p in t && !t[p].used
    requires top in t ==> End(t, top) in limits
    ensures p in heads && heads[p].pin
  {
    hide Geo, Tags, BasePins;
    TagAt(heads, foots, t, top, p);
    if !heads[p].pin {
      var q := PrevFree(t, segs, limits, heads, foots, top, p);
      LoneIs(t, q);
    }
  }

  lemma LoneIs(t: Tiles, p: nat)
    requires Lone(t) && p in t
    ensures !t[p].used && End(t, p) in t ==> t[End(t, p)].used
  {
    assert LoneAt(t, p);
  }

  // ---------------------------------------------------------------- the free chunks

  /** A free chunk is the top chunk, the designated victim, in a bin, or in `loose` while it is
      between two of these places. */
  predicate BinnedAt(free: map<nat, nat>, t: Tiles, top: nat, dv: nat, loose: set<nat>, p: nat) {
    && (p in free <==> p in t && !t[p].used && p != top && p != dv && p !in loose)
    && (p in free ==> p in t && free[p] == t[p].size)
  }

  ghost predicate Binned(free: map<nat, nat>, t: Tiles, top: nat, dv: nat, loose: set<nat>) {
    forall p {:trigger BinnedAt(free, t, top, dv, loose, p)} :: BinnedAt(free, t, top, dv, loose, p)
  }

  predicate TopOk(t: Tiles, limits: seq<nat>, top: nat, topsize: nat) {
    |limits| > 0 && top in t && t[top] == Tile(topsize, false) && End(t, top) == limits[0]
  }

  /** Behind the top chunk there is room for what closes a segment. */
  predicate FootOk(segs: seq<Seg>, limits: seq<nat>) {
    |segs| > 0 && |limits| > 0 && limits[0] + 32 == segs[0].base + segs[0].size
  }

  predicate DvOk(t: Tiles, top: nat, dv: nat, dvsize: nat, loose: set<nat>) {
    (dv == 0 <==> dvsize == 0) && (dv != 0 ==> dv in t && t[dv] == Tile(dvsize, false) && dv != top && dv !in loose)
  }

  predicate LooseOk(t: Tiles, top: nat, loose: set<nat>) {
    forall p :: p in loose ==> p in t && !t[p].used && p != top
  }

  /** All chunks but the top chunk have at least the minimal size. */
  predicate BigEnough(t: Tiles, top: nat) {
    forall p {:trigger p in t} :: p in t && p != top ==> t[p].size >= MIN_CHUNK
  }

  // -------------------------------------------------------------- the chunks in use

  /** A live chunk is in use and has room for what was asked for; one that was mapped on its own
      has one more word of overhead. */
  predicate LiveAt(live: map<nat, nat>, t: Tiles, direct: map<nat, nat>, internal: set<nat>, p: nat)
    requires p in live
  {
    p !in internal && if p in t then t[p].used && live[p] + 4 <= t[p].size else p in direct && live[p] + 8 <= direct[p]
  }

  /** Every chunk in use belongs to the program or to the allocator. */
  predicate OwnedAt(live: map<nat, nat>, t: Tiles, limits: seq<nat>, top: nat, internal: set<nat>, p: nat)
    requires p in t
  {
    (t[p].used ==> p in live || p in internal) && (End(t, p) in limits ==> p == top || p in internal)
  }

  predicate Owned(live: map<nat, nat>, t: Tiles, limits: seq<nat>, top: nat, direct: map<nat, nat>, internal: set<nat>) {
    && (forall p {:trigger LiveAt(live, t, direct, internal, p)} :: p in live ==> LiveAt(live, t, direct, internal, p))
    && (forall p {:trigger OwnedAt(live, t, limits, top, internal, p)} :: p in t ==> OwnedAt(live, t, limits, top, internal, p))
    && (forall p {:trigger p in internal} :: p in internal ==> p in t && t[p].used)
  }

  /** A chunk that was mapped on its own: its region, with a foot of 16 bytes, is apart from all
      segments and other such regions. */
  predicate DirectAt(direct: map<nat, nat>, segs: seq<Seg>, heads: Heads, foots: Foots, p: nat)
    requires p in direct
  {
    && p % 8 == 0 && p > 0 && direct[p] % 8 == 0 && direct[p] >= MIN_CHUNK && p + direct[p] + 16 <= WORD
    && p in heads && heads[p] == Head(direct[p], true, false) && p in foots && foots[p] == 1
    && forall i: nat {:trigger SegApart(Seg(p, direct[p] + 16), segs[i])} :: i < |segs| ==> SegApart(Seg(p, direct[p] + 16), segs[i])
  }

  ghost predicate Directs(direct: map<nat, nat>, segs: seq<Seg>, heads: Heads, foots: Foots) {
    && (forall p {:trigger DirectAt(direct, segs, heads, foots, p)} :: p in direct ==> DirectAt(direct, segs, heads, foots, p))
    && forall p, q {:trigger SegApart(Seg(p, direct[p] + 16), Seg(q, direct[q] + 16))} ::
         p in direct && q in direct && p != q ==> SegApart(Seg(p, direct[p] + 16), Seg(q, direct[q] + 16))
  }

  // ------------------------------------------------------------------------ all of it

  ghost predicate Ok(s: Space, loose: set<nat>) {
    && Geo(s.tiles, s.segs, s.limits) && Tags(s.heads, s.foots, s.tiles, s.top) && BasePins(s.heads, s.segs) && Lone(s.tiles)
    && Binned(s.free, s.tiles, s.top, s.dv, loose) && TopOk(s.tiles, s.limits, s.top, s.topsize) && DvOk(s.tiles, s.top, s.dv, s.dvsize, loose)
    && LooseOk(s.tiles, s.top, loose) && BigEnough(s.tiles, s.top) && FootOk(s.segs, s.limits)
    && Owned(s.live, s.tiles, s.limits, s.top, s.direct, s.internal) && Directs(s.direct, s.segs, s.heads, s.foots)
  }

  /** A place for a free chunk, of those that a span gets. */
  predicate Placed(top1: nat, dv1: nat, loose1: set<nat>, p: nat) { p == top1 || p == dv1 || p in loose1 }

  /** The free chunks of a span are in no bin, and its new ones are put elsewhere. */
  lemma RetileBinned(t: Tiles, a: nat, m: nat, b: nat, u1: bool, u2: bool, free: map<nat, nat>, top: nat, top1: nat, dv: nat, dv1: nat, loose: set<nat>, loose1: set<nat>)
    requires a < m <= b && Binned(free, t, top, dv, loose)
    requires forall q :: q in free ==> !(a <= q < b)
    requires top1 == top || (a <= top < b && a <= top1 < b)
    requires dv1 == dv || ((dv == 0 || a <= dv < b) && (dv1 == 0 || a <= dv1 < b))
    requires forall q :: q in loose ==> a <= q < b
    requires forall q :: q in loose1 ==> a <= q < b
    requires (u1 || Placed(top1, dv1, loose1, a)) && (m == b || u2 || Placed(top1, dv1, loose1, m)) && 0 !in t && a > 0
    ensures Binned(free, Retile(t, a, m, b, u1, u2), top1, dv1, loose1)
  {
    hide Retile, Binned;
    var t1 := Retile(t, a, m, b, u1, u2);
    forall p
      ensures BinnedAt(free, t1, top1, dv1, loose1, p)
    {
      RetileAt(t, a, m, b, u1, u2, p);
      BinnedIs(free, t, top, dv, loose, p);
    }
    assert Binned(free, t1, top1, dv1, loose1) by { BinnedBy(free, t1, top1, dv1, loose1); }
  }

  lemma BinnedIs(free: map<nat, nat>, t: Tiles, top: nat, dv: nat, loose: set<nat>, p: nat)
    requires Binned(free, t, top, dv, loose)
    ensures BinnedAt(free, t, top, dv, loose, p)
  {
  }

  lemma BinnedBy(free: map<nat, nat>, t: Tiles, top: nat, dv: nat, loose: set<nat>)
    requires forall p :: BinnedAt(free, t, top, dv, loose, p)
    ensures Binned(free, t, top, dv, loose)
  {
  }

  // --------------------------------------------------------------- one span is retiled

  /** The chunks that start in `[a, b)` are gone, and `u1`, `u2` are in use or accounted for. */
  ghost predicate Places(s: Space, s1: Space, loose: set<nat>, loose1: set<nat>, a: nat, m: nat, b: nat, u1: bool, u2: bool) {
    && a < m <= b && m % 8 == 0 && (forall q :: q in s.free ==> !(a <= q < b))
    && (s1.top == s.top || (a <= s.top < b && a <= s1.top < b))
    && (s1.dv == s.dv || ((s.dv == 0 || a <= s.dv < b) && (s1.dv == 0 || a <= s1.dv < b)))
    && (forall q :: q in loose ==> a <= q < b) && (forall q :: q in loose1 ==> (q == a && !u1) || (q == m && m < b && !u2))
    && (u1 || Placed(s1.top, s1.dv, loose1, a)) && (m == b || u2 || Placed(s1.top, s1.dv, loose1, m))
  }

  /** Top chunk and designated victim afterwards. */
  ghost predicate Specials(s: Space, s1: Space, loose1: set<nat>, a: nat, m: nat, b: nat, u1: bool, u2: bool) {
    && a < m <= b && |s.limits| > 0
    && (if a <= s.top < b then b == s.limits[0] && s1.top == (if m < b then m else a) && !(if m < b then u2 else u1) && s1.topsize == b - s1.top
        else s1.top == s.top && s1.topsize == s.topsize)
    && s1.top !in loose1 && (b in s.limits ==> a <= s.top < b)
    && (s1.dv == 0 <==> s1.dvsize == 0) && s1.dv !in loose1
    && (if s1.dv == 0 || !(a <= s1.dv < b) then s1.dv == 0 || (s1.dv == s.dv && s1.dvsize == s.dvsize)
        else if s1.dv == a then !u1 && s1.dvsize == m - a && s1.top != a else s1.dv == m && m < b && !u2 && s1.dvsize == b - m && s1.top != m)
  }

  /** The program's chunks afterwards. */
  ghost predicate Lives(s: Space, s1: Space, a: nat, m: nat, b: nat, u1: bool, u2: bool) {
    && a < m <= b && s1.internal == s.internal && s1.direct == s.direct
    && (forall q {:trigger q in s.internal} :: q in s.internal ==> !(a <= q < b))
    && (forall q {:trigger q in s1.live} {:trigger q in s.live} :: !(a <= q < b) ==> (q in s.live <==> q in s1.live) && (q in s.live ==> s1.live[q] == s.live[q]))
    && (forall q {:trigger q in s1.live} :: q in s1.live && a <= q < b ==> (q == a && u1) || (q == m && m < b && u2))
    && (u1 ==> a in s1.live && s1.live[a] + 4 <= m - a) && (m < b && u2 ==> m in s1.live && s1.live[m] + 4 <= b - m)
  }

  ghost predicate Retiled(s: Space, s1: Space, loose: set<nat>, loose1: set<nat>, a: nat, m: nat, b: nat, u1: bool, u2: bool) {
    && s1.segs == s.segs && s1.limits == s.limits && s1.free == s.free && Span(s.tiles, s.segs, s.limits, a, b)
    && Places(s, s1, loose, loose1, a, m, b, u1, u2)
    && s1.tiles == Retile(s.tiles, a, m, b, u1, u2)
    && Rewritten(s.heads, s.foots, s1.heads, s1.foots, a, m, b, u1, u2, s1.top)
    && (!u1 ==> a in s.heads && s.heads[a].pin) && (u1 || m == b || u2) && (!(if m < b then u2 else u1) && b in s.tiles ==> s.tiles[b].used)
    && Specials(s, s1, loose1, a, m, b, u1, u2) && Lives(s, s1, a, m, b, u1, u2)
    && (m - a >= MIN_CHUNK || a == s1.top) && (m == b || b - m >= MIN_CHUNK || m == s1.top)
  }

  lemma SpecialsNow(s: Space, s1: Space, loose: set<nat>, loose1: set<nat>, a: nat, m: nat, b: nat, u1: bool, u2: bool)
    requires Ok(s, loose) && Retiled(s, s1, loose, loose1, a, m, b, u1, u2)
    ensures TopOk(s1.tiles, s1.limits, s1.top, s1.topsize) && DvOk(s1.tiles, s1.top, s1.dv, s1.dvsize, loose1)
    ensures LooseOk(s1.tiles, s1.top, loose1) && BigEnough(s1.tiles, s1.top)
  {
    hide Retile, Geo, Tags, Lone, Binned, Owned, Directs, Rewritten, Lives, Span, BasePins;
    RetileAt(s.tiles, a, m, b, u1, u2, s1.top);
    RetileAt(s.tiles, a, m, b, u1, u2, s1.dv);
    forall p: nat
      ensures p in loose1 ==> p in s1.tiles && !s1.tiles[p].used && p != s1.top
      ensures p in s1.tiles && p != s1.top ==> s1.tiles[p].size >= MIN_CHUNK
    {
      RetileAt(s.tiles, a, m, b, u1, u2, p);
    }
  }

  lemma OwnedNow(s: Space, s1: Space, loose: set<nat>, loose1: set<nat>, a: nat, m: nat, b: nat, u1: bool, u2: bool)
    requires Ok(s, loose) && Retiled(s, s1, loose, loose1, a, m, b, u1, u2)
    ensures Owned(s1.live, s1.tiles, s1.limits, s1.top, s1.direct, s1.internal)
  {
    hide Retile, Tags, Lone, Binned, Directs, Rewritten, Span, BasePins, Geo, TopOk, DvOk, LooseOk, BigEnough, Places;
    forall p | p in s1.live
      ensures LiveAt(s1.live, s1.tiles, s1.direct, s1.internal, p)
    {
      RetileAt(s.tiles, a, m, b, u1, u2, p);
      if !(a <= p < b) { assert LiveAt(s.live, s.tiles, s.direct, s.internal, p); }
    }
    NotLimits(s, a, m, b);
    forall p | p in s1.tiles
      ensures OwnedAt(s1.live, s1.tiles, s1.limits, s1.top, s1.internal, p)
    {
      RetileAt(s.tiles, a, m, b, u1, u2, p);
      if p in s.tiles && !(a <= p < b) { assert OwnedAt(s.live, s.tiles, s.limits, s.top, s.internal, p); }
    }
    forall p | p in s1.internal
      ensures p in s1.tiles && s1.tiles[p].used
    {
      RetileAt(s.tiles, a, m, b, u1, u2, p);
    }
  }

  /** Segments' limits are not inside a span. */
  lemma NotLimits(s: Space, a: nat, m: nat, b: nat)
    requires Geo(s.tiles, s.segs, s.limits) && Span(s.tiles, s.segs, s.limits, a, b) && a < m <= b
    ensures m < b ==> m !in s.limits
  {
    if m < b && m in s.limits {
      var j := LimitIn(s.segs, s.limits, m);
      var i: nat :| i < |s.segs| && Within(s.segs, s.limits, a, b, i);
      SameSeg(s.segs, s.limits, a, b, i, m, m, j);
    }
  }

  /** A chunk mapped on its own is not in a span. */
  lemma DirectOutside(segs: seq<Seg>, limits: seq<nat>, direct: map<nat, nat>, heads: Heads, foots: Foots, p: nat, a: nat, b: nat)
    requires SegsOk(segs, limits) && Directs(direct, segs, heads, foots) && p in direct && Inside(segs, limits, a, b) && a <= b
    ensures !(a <= p <= b) && !(a <= p + direct[p] + 8 <= b)
  {
    assert DirectAt(direct, segs, heads, foots, p);
    var i: nat :| i < |segs| && Within(segs, limits, a, b, i);
    assert SegOk(segs[i], limits[i]);
    assert SegApart(Seg(p, direct[p] + 16), segs[i]);
  }

  lemma DirectsNow(s: Space, s1: Space, loose: set<nat>, loose1: set<nat>, a: nat, m: nat, b: nat, u1: bool, u2: bool)
    requires Ok(s, loose) && Retiled(s, s1, loose, loose1, a, m, b, u1, u2)
    ensures Directs(s1.direct, s1.segs, s1.heads, s1.foots)
  {
    hide Retile, Tags, Lone, Binned, Owned, BasePins, TopOk, DvOk, LooseOk, BigEnough, Places, Specials, Rewritten;
    forall p | p in s1.direct
      ensures DirectAt(s1.direct, s1.segs, s1.heads, s1.foots, p)
    {
      assert DirectAt(s.direct, s.segs, s.heads, s.foots, p);
      DirectOutside(s.segs, s.limits, s.direct, s.heads, s.foots, p, a, b);
      RewrittenAt(s.heads, s.foots, s1.heads, s1.foots, a, m, b, u1, u2, s1.top, p);
    }
  }

  /** Retiling a span keeps the whole state in order. */
  lemma RetileOk(s: Space, s1: Space, loose: set<nat>, loose1: set<nat>, a: nat, m: nat, b: nat, u1: bool, u2: bool)
    requires Ok(s, loose) && Retiled(s, s1, loose, loose1, a, m, b, u1, u2)
    ensures Ok(s1, loose1)
  {
    SpecialsNow(s, s1, loose, loose1, a, m, b, u1, u2);
    OwnedNow(s, s1, loose, loose1, a, m, b, u1, u2);
    DirectsNow(s, s1, loose, loose1, a, m, b, u1, u2);
    hide Retile, Owned, BasePins, TopOk, DvOk, LooseOk, BigEnough, Rewritten, Lives, Directs, Tags, Binned, Lone, Geo, Span;
    RetileGeo(s.tiles, s.segs, s.limits, a, m, b, u1, u2);
    RetileTags(s.tiles, s.segs, s.limits, a, m, b, u1, u2, s.heads, s.foots, s1.heads, s1.foots, s.top, s1.top);
    RetileLone(s.tiles, s.segs, s.limits, a, m, b, u1, u2, s.heads, s.foots, s.top);
    NoNull(s, a, b);
    LooseIn(loose1, a, m, b, u1, u2);
    RetileBinned(s.tiles, a, m, b, u1, u2, s.free, s.top, s1.top, s.dv, s1.dv, loose, loose1);
  }

  lemma LooseIn(loose1: set<nat>, a: nat, m: nat, b: nat, u1: bool, u2: bool)
    requires a < m <= b && forall q :: q in loose1 ==> (q == a && !u1) || (q == m && m < b && !u2)
    ensures forall q :: q in loose1 ==> a <= q < b
  {
  }

  lemma NoNull(s: Space, a: nat, b: nat)
    requires Geo(s.tiles, s.segs, s.limits) && Span(s.tiles, s.segs, s.limits, a, b)
    ensures 0 !in s.tiles && a > 0
  {
    GeoAt(s.tiles, s.segs, s.limits, a);
    if 0 in s.tiles { GeoAt(s.tiles, s.segs, s.limits, 0); }
  }

  // --------------------------------------------------------------------- between bins

  /** A free chunk leaves its bin. */
  lemma TakeOut(s: Space, loose: set<nat>, p: nat)
    requires Ok(s, loose) && p in s.free
    ensures Ok(s.(free := s.free - {p}), loose + {p})
    ensures p in s.tiles && !s.tiles[p].used && s.tiles[p].size == s.free[p] && p != s.top && p != s.dv
  {
    hide Tags, Lone, Owned, Directs, Geo, BasePins, BigEnough;
    BinnedIs(s.free, s.tiles, s.top, s.dv, loose, p);
    forall q
      ensures BinnedAt(s.free - {p}, s.tiles, s.top, s.dv, loose + {p}, q)
    {
      BinnedIs(s.free, s.tiles, s.top, s.dv, loose, q);
    }
    BinnedBy(s.free - {p}, s.tiles, s.top, s.dv, loose + {p});
  }

  /** A free chunk is put into a bin. */
  lemma PutInto(s: Space, loose: set<nat>, p: nat)
    requires Ok(s, loose) && p in loose
    ensures p in s.tiles && p !in s.free && p != s.dv && p != s.top && Ok(s.(free := s.free[p := s.tiles[p].size]), loose - {p})
  {
    hide Tags, Lone, Owned, Directs, BasePins, BigEnough;
    NoNull2(s);
    BinnedIs(s.free, s.tiles, s.top, s.dv, loose, p);
    var free1 := s.free[p := s.tiles[p].size];
    forall q
      ensures BinnedAt(free1, s.tiles, s.top, s.dv, loose - {p}, q)
    {
      BinnedIs(s.free, s.tiles, s.top, s.dv, loose, q);
    }
    BinnedBy(free1, s.tiles, s.top, s.dv, loose - {p});
  }

  /** A free chunk becomes the designated victim, which there is none of. */
  lemma BecomeDv(s: Space, loose: set<nat>, p: nat)
    requires Ok(s, loose) && p in loose && s.dv == 0
    ensures p in s.tiles && Ok(s.(dv := p, dvsize := s.tiles[p].size), loose - {p})
  {
    hide Tags, Lone, Owned, Directs, BasePins, BigEnough;
    GeoAt(s.tiles, s.segs, s.limits, p);
    NoNull2(s);
    forall q
      ensures BinnedAt(s.free, s.tiles, s.top, p, loose - {p}, q)
    {
      BinnedIs(s.free, s.tiles, s.top, s.dv, loose, q);
    }
    BinnedBy(s.free, s.tiles, s.top, p, loose - {p});
  }

  lemma NoNull2(s: Space)
    requires Geo(s.tiles, s.segs, s.limits)
    ensures 0 !in s.tiles
  {
    if 0 in s.tiles { GeoAt(s.tiles, s.segs, s.limits, 0); }
  }

  /** The designated victim gives up its place. */
  lemma LeaveDv(s: Space, loose: set<nat>)
    requires Ok(s, loose) && s.dv != 0
    ensures s.dv in s.tiles && s.tiles[s.dv] == Tile(s.dvsize, false) && Ok(s.(dv := 0, dvsize := 0), loose + {s.dv})
  {
    hide Tags, Lone, Owned, Directs, BasePins, BigEnough;
    NoNull2(s);
    forall q
      ensures BinnedAt(s.free, s.tiles, s.top, 0, loose + {s.dv}, q)
    {
      BinnedIs(s.free, s.tiles, s.top, s.dv, loose, q);
    }
    BinnedBy(s.free, s.tiles, s.top, 0, loose + {s.dv});
  }
}
