/** The bins of free chunks (lj_alloc.c): 32 small bins and 32 tries with their bitmaps, as linked
    structures in memory. */
module AllocBins {
  import opened AllocSizes
  import opened AllocTree
  import opened AllocLinks
  import opened AllocRepair
  import opened AllocUnlink

  datatype Bin = SmallBin(i: nat) | TreeBin(i: nat)

  /** Where a chunk of a size belongs. */
  function BinOf(s: nat): Bin { if IsSmall(s) then SmallBin(s / 8) else TreeBin(TreeIndex(s)) }

  predicate InBin(free: map<nat, nat>, a: nat, b: Bin) { a in free && BinOf(free[a]) == b }

  /** The addresses of bin headers; those of chunks are multiples of 8. */
  function SmallHead(i: nat): nat { 2 * i + 1 }

  function TreeSlot(i: nat): nat { 2 * i + 101 }

  predicate ChunkOk(a: nat, s: nat) { a % 8 == 0 && a > 0 && s % 8 == 0 && MIN_CHUNK <= s < WORD }

  predicate FreeOk(free: map<nat, nat>) {
    forall a :: a in free ==> ChunkOk(a, free[a])
  }

  /** Trie `t` of bin `i` lies in memory, holds exactly the chunks that belong there, and the
      bitmap says whether there are any. */
  ghost predicate TreeOk(m: Links, root: nat, marked: bool, i: nat, t: Tree, free: map<nat, nat>) {
    && Rep(m, root, TreeSlot(i), t) && Apart(t) && Trie(t, Height(i), Prefix(i)) && (marked <==> t.Node?)
    && (forall a :: Has(t, a) <==> InBin(free, a, TreeBin(i)))
    && forall a :: Has(t, a) ==> a in free && free[a] == SizeOf(t, a)
  }

  /** Likewise small bin `i`, a ring with its header. */
  ghost predicate SmallOk(m: Links, marked: bool, i: nat, s: seq<nat>, free: map<nat, nat>) {
    && SmallHead(i) in m && (marked <==> s != []) && (s != [] ==> Linked(m, [SmallHead(i)] + s)) && Distinct(s)
    && forall a :: a in s <==> InBin(free, a, SmallBin(i))
  }

  ghost predicate AllOk(m: Links, roots: seq<nat>, treemap: seq<bool>, trees: seq<Tree>, smallmap: seq<bool>, small: seq<seq<nat>>, free: map<nat, nat>) {
    && |roots| == BINS && |treemap| == BINS && |trees| == BINS && |smallmap| == BINS && |small| == BINS && FreeOk(free)
    && (forall i :: 0 <= i < BINS ==> TreeOk(m, roots[i], treemap[i], i, trees[i], free))
    && forall i :: 0 <= i < BINS ==> SmallOk(m, smallmap[i], i, small[i], free)
  }

  // ------------------------------------------------------------------ one bin changes

  predicate Kept(m: Links, m1: Links, a: nat) { (a in m <==> a in m1) && (a in m ==> m1[a] == m[a]) }

  /** Only chunk `p`, chunks of bin `b` and its header are written. */
  ghost predicate OnlyBin(m: Links, m1: Links, free: map<nat, nat>, p: nat, b: Bin) {
    forall a :: a != p && !InBin(free, a, b) && !(b.SmallBin? && a == SmallHead(b.i)) ==> Kept(m, m1, a)
  }

  /** Only chunk `p` of bin `b` comes or goes. */
  ghost predicate OnlyChunk(free: map<nat, nat>, free1: map<nat, nat>, p: nat, b: Bin) {
    && (forall a :: a != p ==> (a in free <==> a in free1) && (a in free ==> free1[a] == free[a]))
    && (p in free ==> BinOf(free[p]) == b) && (p in free1 ==> BinOf(free1[p]) == b)
  }

  lemma OtherBin(free: map<nat, nat>, free1: map<nat, nat>, p: nat, b: Bin, c: Bin, a: nat)
    requires OnlyChunk(free, free1, p, b) && b != c
    ensures InBin(free, a, c) <==> InBin(free1, a, c)
    ensures InBin(free, a, c) ==> a != p && !InBin(free, a, b) && free1[a] == free[a]
  {
  }

  lemma OtherTree(m: Links, m1: Links, root: nat, marked: bool, j: nat, t: Tree, free: map<nat, nat>, free1: map<nat, nat>, p: nat, b: Bin)
    requires TreeOk(m, root, marked, j, t, free) && FreeOk(free) && OnlyBin(m, m1, free, p, b) && OnlyChunk(free, free1, p, b) && b != TreeBin(j)
    ensures TreeOk(m1, root, marked, j, t, free1)
  {
    hide Has, SizeOf, Trie, Apart, Rep, BinOf, OnlyChunk, TreeIndex, InBin;
    forall a
      ensures InBin(free, a, TreeBin(j)) <==> InBin(free1, a, TreeBin(j))
    {
      OtherBin(free, free1, p, b, TreeBin(j), a);
    }
    forall a | Has(t, a)
      ensures a in m && a in m1 && m1[a] == m[a] && a in free1 && free1[a] == SizeOf(t, a)
    {
      RepHas(m, root, TreeSlot(j), t, a);
      OtherBin(free, free1, p, b, TreeBin(j), a);
      InFree(free, free1, a, TreeBin(j));
      assert Kept(m, m1, a);
    }
    RepFrame(m, m1, root, TreeSlot(j), t);
  }

  lemma InFree(free: map<nat, nat>, free1: map<nat, nat>, a: nat, b: Bin)
    ensures InBin(free, a, b) ==> a in free
    ensures InBin(free1, a, b) ==> a in free1
    ensures InBin(free, a, b) && FreeOk(free) ==> a % 8 == 0
  {
  }

  lemma OtherSmall(m: Links, m1: Links, marked: bool, j: nat, s: seq<nat>, free: map<nat, nat>, free1: map<nat, nat>, p: nat, b: Bin)
    requires SmallOk(m, marked, j, s, free) && FreeOk(free) && OnlyBin(m, m1, free, p, b) && OnlyChunk(free, free1, p, b) && b != SmallBin(j)
    requires p % 8 == 0
    ensures SmallOk(m1, marked, j, s, free1)
  {
    hide BinOf, OnlyChunk, TreeIndex, InBin, Linked, FreeOk;
    forall a
      ensures InBin(free, a, SmallBin(j)) <==> InBin(free1, a, SmallBin(j))
    {
      OtherBin(free, free1, p, b, SmallBin(j), a);
    }
    InFree(free, free1, SmallHead(j), b);
    assert Kept(m, m1, SmallHead(j));
    if s != [] {
      var r := [SmallHead(j)] + s;
      forall k | 0 <= k < |r|
        ensures LinkedHere(m1, r, k)
      {
        LinkedAt(m, r, k);
        if k > 0 {
          assert r[k] == s[k - 1] && s[k - 1] in s;
          OtherBin(free, free1, p, b, SmallBin(j), r[k]);
          InFree(free, free1, r[k], SmallBin(j));
          assert Kept(m, m1, r[k]);
        }
      }
      assert Linked(m1, r) by { LinkedBy(m1, r); }
    }
  }

  lemma LinkedBy(m: Links, r: seq<nat>)
    requires forall k :: 0 <= k < |r| ==> LinkedHere(m, r, k)
    ensures Linked(m, r)
  {
  }

  /** A change of small bin `i`. */
  lemma SmallChanged(m: Links, m1: Links, roots: seq<nat>, treemap: seq<bool>, trees: seq<Tree>, smallmap: seq<bool>, small: seq<seq<nat>>,
      free: map<nat, nat>, free1: map<nat, nat>, p: nat, i: nat, marked: bool, s: seq<nat>)
    requires AllOk(m, roots, treemap, trees, smallmap, small, free) && i < BINS && p % 8 == 0 && FreeOk(free1)
    requires OnlyBin(m, m1, free, p, SmallBin(i)) && OnlyChunk(free, free1, p, SmallBin(i))
    requires SmallOk(m1, marked, i, s, free1)
    ensures AllOk(m1, roots, treemap, trees, smallmap[i := marked], small[i := s], free1)
  {
    hide TreeOk, SmallOk, OnlyBin, OnlyChunk;
    forall j | 0 <= j < BINS
      ensures TreeOk(m1, roots[j], treemap[j], j, trees[j], free1)
      ensures j != i ==> SmallOk(m1, smallmap[j], j, small[j], free1)
    {
      OtherTree(m, m1, roots[j], treemap[j], j, trees[j], free, free1, p, SmallBin(i));
      if j != i { OtherSmall(m, m1, smallmap[j], j, small[j], free, free1, p, SmallBin(i)); }
    }
  }

  /** A change of trie `i`. */
  lemma TreeChanged(m: Links, m1: Links, roots: seq<nat>, treemap: seq<bool>, trees: seq<Tree>, smallmap: seq<bool>, small: seq<seq<nat>>,
      free: map<nat, nat>, free1: map<nat, nat>, p: nat, i: nat, root: nat, marked: bool, t: Tree)
    requires AllOk(m, roots, treemap, trees, smallmap, small, free) && i < BINS && p % 8 == 0 && FreeOk(free1)
    requires OnlyBin(m, m1, free, p, TreeBin(i)) && OnlyChunk(free, free1, p, TreeBin(i))
    requires TreeOk(m1, root, marked, i, t, free1)
    ensures AllOk(m1, roots[i := root], treemap[i := marked], trees[i := t], smallmap, small, free1)
  {
    hide TreeOk, SmallOk, OnlyBin, OnlyChunk;
    forall j | 0 <= j < BINS
      ensures SmallOk(m1, smallmap[j], j, small[j], free1)
      ensures j != i ==> TreeOk(m1, roots[j], treemap[j], j, trees[j], free1)
    {
      OtherSmall(m, m1, smallmap[j], j, small[j], free, free1, p, TreeBin(i));
      if j != i { OtherTree(m, m1, roots[j], treemap[j], j, trees[j], free, free1, p, TreeBin(i)); }
    }
  }

  lemma FreeWith(free: map<nat, nat>, p: nat, s: nat)
    requires FreeOk(free) && ChunkOk(p, s) && p !in free
    ensures FreeOk(free[p := s]) && OnlyChunk(free, free[p := s], p, BinOf(s))
  {
  }

  lemma FreeWithout(free: map<nat, nat>, p: nat)
    requires FreeOk(free) && p in free
    ensures FreeOk(free - {p}) && OnlyChunk(free, free - {p}, p, BinOf(free[p]))
  {
  }

  // ---------------------------------------------------------------------- small bins

  /** The assignments of insert_small_chunk. */
  function SmallPut(m: Links, b: nat, f: nat, p: nat, s: nat): Links
    requires b in m && f in m
  {
    var m1 := m[b := m[b].(fd := p)];
    var m2 := m1[f := m1[f].(bk := p)];
    m2[p := Link(s, f, b, 0, 0, 0)]
  }

  lemma SmallHeader(m: Links, marked: bool, i: nat, s: seq<nat>, free: map<nat, nat>)
    requires SmallOk(m, marked, i, s, free)
    ensures SmallHead(i) in m && (marked <==> s != [])
    ensures s != [] ==> m[SmallHead(i)].fd == s[0] && s[0] in m
  {
    if s != [] {
      LinkedAt(m, [SmallHead(i)] + s, 0);
      LinkedAt(m, [SmallHead(i)] + s, 1);
    }
  }

  lemma SmallInserted(m: Links, marked: bool, i: nat, l: seq<nat>, free: map<nat, nat>, p: nat, s: nat)
    requires SmallOk(m, marked, i, l, free) && FreeOk(free) && ChunkOk(p, s) && p !in free && BinOf(s) == SmallBin(i)
    ensures SmallHead(i) in m && (marked ==> m[SmallHead(i)].fd in m)
    ensures var b := SmallHead(i); var m1 := SmallPut(m, b, if marked then m[b].fd else b, p, s);
      SmallOk(m1, true, i, [p] + l, free[p := s]) && OnlyBin(m, m1, free, p, SmallBin(i))
  {
    var b := SmallHead(i);
    SmallHeader(m, marked, i, l, free);
    var f := if marked then m[b].fd else b;
    var m1 := SmallPut(m, b, f, p, s);
    var r := [b] + l;
    hide BinOf;
    assert p in l <==> InBin(free, p, SmallBin(i));
    HeadOdd(i, l, free, p);
    if marked {
      InsertLinked(m, r, p, Link(s, 0, 0, 0, 0, 0));
      assert RingWith(r, p) == [b] + ([p] + l);
      assert m1 == InsertBehind(m, b, p, Link(s, 0, 0, 0, 0, 0));
    } else {
      var r1 := [b] + ([p] + l);
      assert r1 == [b, p];
      assert LinkedHere(m1, r1, 0) && LinkedHere(m1, r1, 1);
    }
    forall a
      ensures a in [p] + l <==> InBin(free[p := s], a, SmallBin(i))
      ensures a != p && a !in l && a != b ==> Kept(m, m1, a)
    {
    }
  }

  lemma HeadOdd(i: nat, l: seq<nat>, free: map<nat, nat>, p: nat)
    requires (forall a :: a in l <==> InBin(free, a, SmallBin(i))) && FreeOk(free) && p % 8 == 0 && Distinct(l)
    ensures p != SmallHead(i) && SmallHead(i) !in l && Distinct([SmallHead(i)] + l)
  {
    assert SmallHead(i) in l <==> InBin(free, SmallHead(i), SmallBin(i));
    var r := [SmallHead(i)] + l;
    forall x, y | 0 <= x < y < |r|
      ensures r[x] != r[y]
    {
      assert r[y] == l[y - 1] && l[y - 1] in l;
    }
  }

  /** A list without one of its elements. */
  function Without(l: seq<nat>, p: nat): seq<nat> {
    if p in l then l[..IndexOf(l, p)] + l[IndexOf(l, p) + 1..] else l
  }

  /** A binned chunk and its neighbours in the ring. */
  lemma SmallNeighbours(m: Links, marked: bool, i: nat, l: seq<nat>, free: map<nat, nat>, p: nat)
    requires SmallOk(m, marked, i, l, free) && FreeOk(free) && InBin(free, p, SmallBin(i))
    ensures marked && p in l && p in m && m[p].fd in m && m[p].bk in m && SmallHead(i) in m
    ensures m[p].fd == m[p].bk <==> |l| == 1
    ensures m[p].bk == SmallHead(i) <==> p == l[0]
    ensures (m[p].fd == SmallHead(i) || m[p].fd in l) && (m[p].bk == SmallHead(i) || m[p].bk in l)
    ensures Distinct([SmallHead(i)] + l)
  {
    hide Linked, Distinct, InBin, FreeOk;
    assert p in l;
    HeadOdd(i, l, free, 0);
    var r := [SmallHead(i)] + l;
    var k := IndexOf(l, p) + 1;
    assert r[k] == p;
    LinkedAt(m, r, k);
    LinkedAt(m, r, Succ(k, |r|));
    LinkedAt(m, r, Pred(k, |r|));
    RingNeighbours(r, k);
    if k > 1 { DistinctAt(r, k, 1); }
  }

  lemma SmallRemovedLast(m: Links, marked: bool, i: nat, l: seq<nat>, free: map<nat, nat>, p: nat)
    requires SmallOk(m, marked, i, l, free) && FreeOk(free) && InBin(free, p, SmallBin(i)) && |l| == 1
    ensures SmallOk(m, false, i, [], free - {p})
  {
    hide BinOf, Linked, FreeOk;
    assert p in l;
    assert l == [p];
    forall a ensures !InBin(free - {p}, a, SmallBin(i)) { assert a in l <==> InBin(free, a, SmallBin(i)); }
  }

  lemma SmallRemoved(m: Links, marked: bool, i: nat, l: seq<nat>, free: map<nat, nat>, p: nat)
    requires SmallOk(m, marked, i, l, free) && FreeOk(free) && InBin(free, p, SmallBin(i)) && |l| > 1
    ensures p in m && m[p].fd in m && m[p].bk in m
    ensures SmallOk(CutRing(m, p), true, i, Without(l, p), free - {p}) && OnlyBin(m, CutRing(m, p), free, p, SmallBin(i))
  {
    SmallNeighbours(m, marked, i, l, free, p);
    SmallCutOnly(m, marked, i, l, free, p);
    SmallWithout(l, free, p, i);
    hide BinOf, InBin, Linked, FreeOk, CutRing, OnlyBin, Distinct, RingWithout;
    var r := [SmallHead(i)] + l;
    CutWithout(SmallHead(i), l, p);
    CutLinked(m, r, IndexOf(l, p) + 1);
    CutRingAt(m, p, SmallHead(i));
  }

  lemma CutWithout(b: nat, l: seq<nat>, p: nat)
    requires p in l && |l| > 1
    ensures var r, k := [b] + l, IndexOf(l, p) + 1; r[k] == p && RingWithout(r, k) == [b] + Without(l, p)
    ensures Without(l, p) != []
  {
    CutWithoutAt(b, l, IndexOf(l, p));
  }

  lemma CutWithoutAt(b: nat, l: seq<nat>, k: nat)
    requires k < |l| && |l| > 1
    ensures ([b] + l)[k + 1] == l[k] && RingWithout([b] + l, k + 1) == [b] + (l[..k] + l[k + 1..]) && l[..k] + l[k + 1..] != []
  {
    var r := [b] + l;
    assert r[..k + 1] == [b] + l[..k];
    assert r[k + 2..] == l[k + 1..];
  }

  lemma SmallWithout(l: seq<nat>, free: map<nat, nat>, p: nat, i: nat)
    requires (forall a :: a in l <==> InBin(free, a, SmallBin(i))) && p in l && Distinct(l)
    ensures Distinct(Without(l, p)) && forall a :: a in Without(l, p) <==> InBin(free - {p}, a, SmallBin(i))
  {
    hide Distinct, BinOf;
    WithoutHas(l, IndexOf(l, p));
    forall a ensures a in Without(l, p) <==> InBin(free - {p}, a, SmallBin(i)) { assert a in l <==> InBin(free, a, SmallBin(i)); }
  }

  lemma SmallCutOnly(m: Links, marked: bool, i: nat, l: seq<nat>, free: map<nat, nat>, p: nat)
    requires SmallOk(m, marked, i, l, free) && FreeOk(free) && InBin(free, p, SmallBin(i))
    ensures p in m && m[p].fd in m && m[p].bk in m && OnlyBin(m, CutRing(m, p), free, p, SmallBin(i))
  {
    hide InBin, BinOf, Linked, FreeOk, CutRing, Distinct;
    SmallNeighbours(m, marked, i, l, free, p);
    forall a | a != p && !InBin(free, a, SmallBin(i)) && a != SmallHead(i)
      ensures Kept(m, CutRing(m, p), a)
    {
      CutRingAt(m, p, a);
      assert a !in l;
    }
  }

  lemma WithoutHas(l: seq<nat>, k: nat)
    requires k < |l| && Distinct(l)
    ensures var l1 := l[..k] + l[k + 1..]; Distinct(l1) && forall a :: a in l1 <==> a in l && a != l[k]
  {
    var l1 := l[..k] + l[k + 1..];
    forall a
      ensures a in l1 <==> a in l && a != l[k]
    {
      if a in l && a != l[k] {
        var j := IndexOf(l, a);
        assert a == l1[if j < k then j else j - 1];
      }
      if a in l1 {
        var j := IndexOf(l1, a);
        assert a == l[if j < k then j else j + 1];
      }
    }
  }

  lemma RingNeighbours(r: seq<nat>, k: nat)
    requires 0 < k < |r| && Distinct(r)
    ensures r[Succ(k, |r|)] == r[Pred(k, |r|)] <==> |r| == 2
    ensures r[Pred(k, |r|)] == r[0] <==> k == 1
  {
    if |r| > 2 { DistinctAt(r, Succ(k, |r|), Pred(k, |r|)); }
    if k > 1 { DistinctAt(r, Pred(k, |r|), 0); }
  }

  // --------------------------------------------------------------------------- tries

  lemma TreeParts(m: Links, root: nat, marked: bool, i: nat, t: Tree, free: map<nat, nat>)
    requires TreeOk(m, root, marked, i, t, free)
    ensures Rep(m, root, TreeSlot(i), t) && Apart(t) && Trie(t, Height(i), Prefix(i)) && (marked <==> t.Node?) && (root == 0 <==> t.Leaf?)
    ensures forall a :: Has(t, a) <==> InBin(free, a, TreeBin(i))
    ensures forall a :: Has(t, a) ==> a in free && free[a] == SizeOf(t, a)
  {
    hide Rep, Has, SizeOf, Apart, Trie;
    RepNull(m, root, TreeSlot(i), t);
  }

  /** A chunk of a size belongs below the prefix of its bin. */
  lemma SizeFits(s: nat, i: nat)
    requires s < WORD && BinOf(s) == TreeBin(i)
    ensures i < BINS && s >= MIN_LARGE && Shr(s, Height(i)) == Prefix(i)
  {
    SharedPrefix(s);
  }

  lemma TreeInserted(m: Links, m1: Links, root: nat, root1: nat, marked: bool, i: nat, t: Tree, free: map<nat, nat>, p: nat, s: nat)
    requires TreeOk(m, root, marked, i, t, free) && ChunkOk(p, s) && p !in free && BinOf(s) == TreeBin(i)
    requires Rep(m1, root1, TreeSlot(i), Insert(t, p, s, Height(i)))
    ensures TreeOk(m1, root1, true, i, Insert(t, p, s, Height(i)), free[p := s])
  {
    hide Rep, Has, SizeOf, Apart, Trie, BinOf, Shr;
    SizeFits(s, i);
    var h, pf := Height(i), Prefix(i);
    assert Has(t, p) <==> InBin(free, p, TreeBin(i));
    InsertTrie(t, p, s, h, pf);
    InsertApart(t, p, s, h, pf);
    forall a
      ensures Has(Insert(t, p, s, h), a) <==> InBin(free[p := s], a, TreeBin(i))
      ensures Has(Insert(t, p, s, h), a) ==> free[p := s][a] == SizeOf(Insert(t, p, s, h), a)
    {
      InsertHas(t, p, s, h, pf, a);
      assert Has(t, a) <==> InBin(free, a, TreeBin(i));
    }
    InsertNode(t, p, s, h);
  }

  lemma InsertNode(t: Tree, p: nat, s: nat, h: nat)
    ensures Insert(t, p, s, h).Node?
  {
  }

  lemma TreeRemoved(m: Links, m1: Links, root: nat, root1: nat, marked: bool, i: nat, t: Tree, free: map<nat, nat>, p: nat)
    requires TreeOk(m, root, marked, i, t, free) && InBin(free, p, TreeBin(i))
    requires Rep(m1, root1, TreeSlot(i), Remove(t, p))
    ensures TreeOk(m1, root1, root1 != 0, i, Remove(t, p), free - {p})
  {
    hide Rep, Has, SizeOf, Apart, Trie, BinOf;
    assert Has(t, p);
    RepNull(m1, root1, TreeSlot(i), Remove(t, p));
    RemoveTrie(t, p, Height(i), Prefix(i));
    RemoveApart(t, p, Height(i), Prefix(i));
    forall a
      ensures Has(Remove(t, p), a) <==> InBin(free - {p}, a, TreeBin(i))
      ensures Has(Remove(t, p), a) ==> (free - {p})[a] == SizeOf(Remove(t, p), a)
    {
      RemoveHas(t, p, a);
      assert Has(t, a) <==> InBin(free, a, TreeBin(i));
    }
  }
}
