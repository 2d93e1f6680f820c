/** How the chunks tile the segments (lj_alloc.c). */
module AllocTiles {
  import opened AllocSizes

  /** A chunk, by the address where it starts: its size, and whether it is in use. */
  datatype Tile = Tile(size: nat, used: bool)

  type Tiles = map<nat, Tile>

  datatype Seg = Seg(base: nat, size: nat)

  function End(t: Tiles, p: nat): nat
    requires p in t
  {
    p + t[p].size
  }

  // -------------------------------------------------------------------------- segments

  /** Segment `s`, whose chunks end at `limit`: behind that there is room for a foot. */
  predicate SegOk(s: Seg, limit: nat) {
    s.base % 8 == 0 && s.base > 0 && limit % 8 == 0 && s.base < limit && limit + 16 <= s.base + s.size <= WORD
  }

  predicate SegApart(s: Seg, u: Seg) { s.base + s.size <= u.base || u.base + u.size <= s.base }

  predicate SegsOk(segs: seq<Seg>, limits: seq<nat>) {
    && |segs| == |limits| && |segs| > 0
    && (forall i {:trigger SegOk(segs[i], limits[i])} :: 0 <= i < |segs| ==> SegOk(segs[i], limits[i]))
    && forall i, j {:trigger SegApart(segs[i], segs[j])} :: 0 <= i < |segs| && 0 <= j < |segs| && i != j ==> SegApart(segs[i], segs[j])
  }

  /** From `a` to `b` in segment `i`, or in some segment. */
  predicate Within(segs: seq<Seg>, limits: seq<nat>, a: nat, b: nat, i: nat) {
    i < |segs| && i < |limits| && segs[i].base <= a && b <= limits[i]
  }

  predicate Inside(segs: seq<Seg>, limits: seq<nat>, a: nat, b: nat) {
    exists i: nat :: i < |segs| && Within(segs, limits, a, b, i)
  }

  /** Two places with one of them in a segment: the segment is the same. */
  lemma SameSeg(segs: seq<Seg>, limits: seq<nat>, a: nat, b: nat, i: nat, c: nat, d: nat, j: nat)
    requires SegsOk(segs, limits) && Within(segs, limits, a, b, i) && Within(segs, limits, c, d, j)
    requires a <= b && c <= d && (a <= c <= b || c <= a <= d)
    ensures i == j
  {
    assert SegOk(segs[i], limits[i]) && SegOk(segs[j], limits[j]);
    assert i != j ==> SegApart(segs[i], segs[j]);
  }

  lemma LimitIn(segs: seq<Seg>, limits: seq<nat>, l: nat) returns (j: nat)
    requires SegsOk(segs, limits) && l in limits
    ensures j < |segs| && limits[j] == l && Within(segs, limits, l, l, j) && l % 8 == 0
  {
    j :| 0 <= j < |limits| && limits[j] == l;
    assert SegOk(segs[j], limits[j]);
  }

  lemma SubInside(segs: seq<Seg>, limits: seq<nat>, a: nat, b: nat, c: nat, d: nat)
    requires Inside(segs, limits, a, b) && a <= c && d <= b
    ensures Inside(segs, limits, c, d)
  {
    var i: nat :| i < |segs| && Within(segs, limits, a, b, i);
    assert Within(segs, limits, c, d, i);
  }

  // -------------------------------------------------------------------------- geometry

  /** A chunk lies in a segment, and ends where the next one starts or where the segment's chunks
      end. */
  ghost predicate TileOk(t: Tiles, segs: seq<Seg>, limits: seq<nat>, p: nat)
    requires p in t
  {
    && p % 8 == 0 && t[p].size % 8 == 0 && t[p].size > 0 && p > 0
    && Inside(segs, limits, p, End(t, p)) && (End(t, p) in t || End(t, p) in limits)
  }

  predicate InOrder(t: Tiles, p: nat, q: nat)
    requires p in t && q in t
  {
    p < q ==> End(t, p) <= q
  }

  predicate BaseOk(t: Tiles, segs: seq<Seg>, i: nat)
    requires i < |segs|
  {
    segs[i].base in t
  }

  /** The chunks tile the segments. */
  ghost predicate Geo(t: Tiles, segs: seq<Seg>, limits: seq<nat>) {
    && SegsOk(segs, limits)
    && (forall i: nat {:trigger BaseOk(t, segs, i)} :: i < |segs| ==> BaseOk(t, segs, i))
    && (forall p {:trigger TileOk(t, segs, limits, p)} :: p in t ==> TileOk(t, segs, limits, p))
    && forall p, q {:trigger InOrder(t, p, q)} :: p in t && q in t ==> InOrder(t, p, q)
  }

  lemma GeoAt(t: Tiles, segs: seq<Seg>, limits: seq<nat>, p: nat)
    requires Geo(t, segs, limits) && p in t
    ensures p % 8 == 0 && t[p].size % 8 == 0 && t[p].size > 0 && p > 0
    ensures Inside(segs, limits, p, End(t, p)) && (End(t, p) in t || End(t, p) in limits)
  {
    assert TileOk(t, segs, limits, p);
  }

  lemma GeoPair(t: Tiles, segs: seq<Seg>, limits: seq<nat>, p: nat, q: nat)
    requires Geo(t, segs, limits) && p in t && q in t
    ensures p < q ==> End(t, p) <= q
  {
    assert InOrder(t, p, q);
  }

  /** No chunk starts where a segment's chunks end. */
  lemma NotAtLimit(t: Tiles, segs: seq<Seg>, limits: seq<nat>, p: nat)
    requires Geo(t, segs, limits) && p in t
    ensures p !in limits
  {
    GeoAt(t, segs, limits, p);
    if p in limits {
      var j := LimitIn(segs, limits, p);
      var i: nat :| i < |segs| && Within(segs, limits, p, End(t, p), i);
      SameSeg(segs, limits, p, End(t, p), i, p, p, j);
    }
  }

  /** A chunk that has an address of a segment lies in that segment. */
  lemma TileWithin(t: Tiles, segs: seq<Seg>, limits: seq<nat>, p: nat, i: nat, x: nat)
    requires Geo(t, segs, limits) && p in t && i < |segs| && segs[i].base <= x <= limits[i] && p <= x < End(t, p)
    ensures Within(segs, limits, p, End(t, p), i)
  {
    GeoAt(t, segs, limits, p);
    var k: nat :| k < |segs| && Within(segs, limits, p, End(t, p), k);
    assert Within(segs, limits, x, x, i);
    SameSeg(segs, limits, p, End(t, p), k, x, x, i);
  }

  /** Every address of a segment below its limit is in a chunk. */
  lemma {:induction false} Covered(t: Tiles, segs: seq<Seg>, limits: seq<nat>, i: nat, x: nat) returns (p: nat)
    requires Geo(t, segs, limits) && i < |segs| && segs[i].base <= x < limits[i]
    ensures p in t && segs[i].base <= p <= x < End(t, p) <= limits[i]
    decreases x
  {
    hide Inside;
    if x == segs[i].base {
      assert BaseOk(t, segs, i);
      p := x;
      GeoAt(t, segs, limits, p);
    } else {
      p := Covered(t, segs, limits, i, x - 1);
      GeoAt(t, segs, limits, p);
      if x == End(t, p) {
        if x in limits {
          var j := LimitIn(segs, limits, x);
          SameSeg(segs, limits, x, x, i, x, x, j);
        }
        p := x;
        GeoAt(t, segs, limits, p);
      }
    }
    TileWithin(t, segs, limits, p, i, x);
  }

  /** And in one only. */
  lemma CoveredOnce(t: Tiles, segs: seq<Seg>, limits: seq<nat>, p: nat, q: nat, x: nat)
    requires Geo(t, segs, limits) && p in t && q in t && p <= x < End(t, p) && q <= x < End(t, q)
    ensures p == q
  {
    GeoPair(t, segs, limits, p, q);
    GeoPair(t, segs, limits, q, p);
  }

  /** A chunk that is not the first of its segment has one before it. */
  lemma PrevTile(t: Tiles, segs: seq<Seg>, limits: seq<nat>, p: nat) returns (q: nat)
    requires Geo(t, segs, limits) && p in t && forall i: nat :: i < |segs| ==> segs[i].base != p
    ensures q in t && End(t, q) == p
  {
    GeoAt(t, segs, limits, p);
    var i: nat :| i < |segs| && Within(segs, limits, p, End(t, p), i);
    q := Covered(t, segs, limits, i, p - 1);
    GeoPair(t, segs, limits, q, p);
  }

  // ------------------------------------------------------------------------- retiling

  /** From `a` to `b` there is one chunk up to `m`, and another one if that is not `b`. */
  function Retile(t: Tiles, a: nat, m: nat, b: nat, u1: bool, u2: bool): Tiles
    requires a < m <= b
  {
    var outside := map q | q in t && !(a <= q < b) :: t[q];
    var first := outside[a := Tile(m - a, u1)];
    if m < b then first[m := Tile(b - m, u2)] else first
  }

  /** `a` is where a chunk starts, `b` where one ends, in one segment. */
  predicate Span(t: Tiles, segs: seq<Seg>, limits: seq<nat>, a: nat, b: nat) {
    a in t && a < b && (b in t || b in limits) && Inside(segs, limits, a, b)
  }

  lemma RetileAt(t: Tiles, a: nat, m: nat, b: nat, u1: bool, u2: bool, q: nat)
    requires a < m <= b
    ensures q in Retile(t, a, m, b, u1, u2) <==> q == a || (q == m && m < b) || (q in t && !(a <= q < b))
    ensures q in Retile(t, a, m, b, u1, u2) ==>
      Retile(t, a, m, b, u1, u2)[q] == if q == a then Tile(m - a, u1) else if q == m && m < b then Tile(b - m, u2) else t[q]
  {
  }

  /** Chunks outside a span end before it or start behind it. */
  lemma OutsideSpan(t: Tiles, segs: seq<Seg>, limits: seq<nat>, a: nat, b: nat, q: nat)
    requires Geo(t, segs, limits) && Span(t, segs, limits, a, b) && q in t && !(a <= q < b)
    ensures if q < a then End(t, q) <= a else b <= q
  {
    GeoPair(t, segs, limits, q, a);
  }

  /** The first chunk of a segment is not in the middle of a span. */
  lemma BaseSpan(t: Tiles, segs: seq<Seg>, limits: seq<nat>, a: nat, b: nat, k: nat)
    requires Geo(t, segs, limits) && Span(t, segs, limits, a, b) && k < |segs|
    ensures segs[k].base <= a || b < segs[k].base
  {
    var i: nat :| i < |segs| && Within(segs, limits, a, b, i);
    assert SegOk(segs[k], limits[k]);
    var c := segs[k].base;
    if a < c <= b {
      assert Within(segs, limits, c, c, k);
      SameSeg(segs, limits, a, b, i, c, c, k);
    }
  }

  lemma SpanAligned(t: Tiles, segs: seq<Seg>, limits: seq<nat>, a: nat, b: nat)
    requires Geo(t, segs, limits) && Span(t, segs, limits, a, b)
    ensures a % 8 == 0 && b % 8 == 0 && a > 0
  {
    GeoAt(t, segs, limits, a);
    if b in limits {
      var j := LimitIn(segs, limits, b);
    } else {
      GeoAt(t, segs, limits, b);
    }
  }

  lemma RetileTile(t: Tiles, segs: seq<Seg>, limits: seq<nat>, a: nat, m: nat, b: nat, u1: bool, u2: bool, p: nat)
    requires Geo(t, segs, limits) && Span(t, segs, limits, a, b) && a < m <= b && m % 8 == 0 && p in Retile(t, a, m, b, u1, u2)
    ensures TileOk(Retile(t, a, m, b, u1, u2), segs, limits, p)
  {
    hide Retile, Inside, Geo;
    SpanAligned(t, segs, limits, a, b);
    RetileAt(t, a, m, b, u1, u2, p);
    RetileAt(t, a, m, b, u1, u2, m);
    RetileAt(t, a, m, b, u1, u2, b);
    SubInside(segs, limits, a, b, a, m);
    SubInside(segs, limits, a, b, m, b);
    if p in t && !(a <= p < b) {
      GeoAt(t, segs, limits, p);
      OutsideSpan(t, segs, limits, a, b, p);
      RetileAt(t, a, m, b, u1, u2, End(t, p));
    }
  }

  lemma RetilePair(t: Tiles, segs: seq<Seg>, limits: seq<nat>, a: nat, m: nat, b: nat, u1: bool, u2: bool, p: nat, q: nat)
    requires Geo(t, segs, limits) && Span(t, segs, limits, a, b) && a < m <= b && p in Retile(t, a, m, b, u1, u2) && q in Retile(t, a, m, b, u1, u2)
    ensures InOrder(Retile(t, a, m, b, u1, u2), p, q)
  {
    hide Retile, Inside, Geo;
    RetileAt(t, a, m, b, u1, u2, p);
    RetileAt(t, a, m, b, u1, u2, q);
    if p in t && !(a <= p < b) {
      OutsideSpan(t, segs, limits, a, b, p);
      if q in t { GeoPair(t, segs, limits, p, q); }
    }
    if q in t && !(a <= q < b) { OutsideSpan(t, segs, limits, a, b, q); }
  }

  lemma RetileGeo(t: Tiles, segs: seq<Seg>, limits: seq<nat>, a: nat, m: nat, b: nat, u1: bool, u2: bool)
    requires Geo(t, segs, limits) && Span(t, segs, limits, a, b) && a < m <= b && m % 8 == 0
    ensures Geo(Retile(t, a, m, b, u1, u2), segs, limits)
  {
    hide Retile, Inside, TileOk, InOrder;
    var t1 := Retile(t, a, m, b, u1, u2);
    forall p | p in t1
      ensures TileOk(t1, segs, limits, p)
    {
      RetileTile(t, segs, limits, a, m, b, u1, u2, p);
    }
    forall p, q | p in t1 && q in t1
      ensures InOrder(t1, p, q)
    {
      RetilePair(t, segs, limits, a, m, b, u1, u2, p, q);
    }
    forall k: nat | k < |segs|
      ensures BaseOk(t1, segs, k)
    {
      assert BaseOk(t, segs, k);
      BaseSpan(t, segs, limits, a, b, k);
      RetileAt(t, a, m, b, u1, u2, segs[k].base);
    }
  }
}
