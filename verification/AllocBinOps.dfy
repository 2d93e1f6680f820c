/** The bins as an object: insertion, unlinking, and which chunks they hold. */
module AllocBinOps {
  import opened AllocSizes
  import opened AllocTree
  import opened AllocLinks
  import opened AllocRepair
  import opened AllocUnlink
  import opened AllocBins
  import opened AllocFit

  // -------------------------------------------------------------- unlinking, on values

  lemma FixMoveUp(m: Links, x: nat, r: nat, q: nat, xp: nat, v: Link, a: nat)
    requires x in m && r in m && (m[x].c0 != 0 ==> m[x].c0 in m) && (m[x].c1 != 0 ==> m[x].c1 in m)
    requires xp in m && xp != x && xp != r && xp != m[x].c0 && xp != m[x].c1
    ensures var m1, m2 := MoveUp(m[xp := v], x, r, q), MoveUp(m, x, r, q);
      (a in m1 <==> a in m2) && (a in m1 ==> m1[a] == if a == xp then v else m2[a])
  {
  }

  /** All assignments of unlink_large_chunk to chunks. */
  function Unlinked(m: Links, n: Tree, x: nat, root: nat): Links
    requires n.Node? && x in m && m[x].fd in m && m[x].bk in m
  {
    var (m1, r) := CutOut(m, n, x);
    var xp := m[x].parent;
    if xp == 0 then m1
    else
      var m2 := if x != root && xp in m1 then m1[xp := FixChild(m1[xp], x, r)] else m1;
      if r != 0 && x in m2 && r in m2 && (m2[x].c0 != 0 ==> m2[x].c0 in m2) && (m2[x].c1 != 0 ==> m2[x].c1 in m2) then MoveUp(m2, x, r, xp) else m2
  }

  /** The parent of a node below the root is outside the node. */
  lemma {:induction false} ParentOutside(m: Links, p: nat, par: nat, t: Tree, x: nat)
    requires Rep(m, p, par, t) && Apart(t) && Has(t, x) && NodeOf(t, x) != t
    ensures NodeOf(t, x).ring != [] && NodeOf(t, x).ring[0] in m && !Has(NodeOf(t, x), m[NodeOf(t, x).ring[0]].parent)
    decreases t
  {
    hide Has, Rep, RingRep;
    HasParts(t, x);
    RepParts(m, p, par, t);
    HasParts(t, p);
    var right := !Has(t.left, x);
    var c, cp := if right then t.right else t.left, if right then m[p].c1 else m[p].c0;
    NodeOfRep(m, cp, p, c, x);
    if NodeOf(c, x) != c {
      ParentOutside(m, cp, p, c, x);
    } else {
      HasParts(c, p);
      HasParts(c, cp);
      RepParts(m, cp, p, c);
    }
  }

  /** Outside the node only the pointer from above is written. */
  lemma UnlinkedAt(m: Links, p: nat, par: nat, n: Tree, x: nat, root: nat, a: nat)
    requires n.Node? && Rep(m, p, par, n) && Apart(n) && x in n.ring && par != 0 && (x == p && x != root ==> par in m && !Has(n, par)) && a != 0
    ensures x in m && m[x].fd in m && m[x].bk in m
    ensures var m1, r := Unlinked(m, n, x, root), CutOut(m, n, x).1;
      !Has(n, a) ==> (a in m1 <==> a in m) && (a in m ==> m1[a] == if x == p && x != root && a == par then FixChild(m[a], x, r) else m[a])
    ensures var m1 := Unlinked(m, n, x, root);
      Has(n, a) ==> (a in m1 <==> a in Placed(m, n, x)) && (a in m1 ==> m1[a] == Placed(m, n, x)[a])
  {
    hide Has, Rep, RingRep, MoveUp, CutRing, Apart, Distinct;
    NodeApart(n);
    RingMember(m, p, par, n, x);
    CutOutIs(m, p, par, n, x);
    if !Has(n, a) { PlacedSame(m, p, par, n, x, a); }
    if x == p && x != root {
      PlacedSame(m, p, par, n, x, par);
      CutOutKeeps(m, p, par, n, x, par);
      CutOutChildren(m, p, par, n, x);
      ChildrenHas(m, p, par, n);
      HasParts(n, x);
      var (m1, r) := CutOut(m, n, x);
      if r != 0 {
        FixMoveUp(m1, x, r, par, par, FixChild(m1[par], x, r), a);
      }
    }
  }

  lemma NodeApart(n: Tree)
    requires Apart(n) && n.Node?
    ensures Distinct(n.ring)
  {
  }

  lemma CutOutKeeps(m: Links, p: nat, par: nat, n: Tree, x: nat, a: nat)
    requires n.Node? && Rep(m, p, par, n) && Apart(n) && x in n.ring && x == p && !Has(n, a) && a in m
    ensures x in m && m[x].fd in m && m[x].bk in m && a in CutOut(m, n, x).0 && CutOut(m, n, x).0[a] == m[a]
  {
    hide Has, Rep, RingRep, CutRing, Apart, Distinct;
    NodeApart(n);
    RingMember(m, p, par, n, x);
    HasParts(n, m[x].fd);
    HasParts(n, m[x].bk);
    CutRingAt(m, x, a);
    LastAt(m, p, par, n);
  }

  /** After the assignments the trie is without the chunk, and no other bin is touched. */
  lemma UnlinkedRep(m: Links, root: nat, slot: nat, t: Tree, x: nat)
    requires Rep(m, root, slot, t) && Apart(t) && Has(t, x) && slot != 0 && slot !in m
    ensures x in m && m[x].fd in m && m[x].bk in m
    ensures var n := NodeOf(t, x); var (_, r) := CutOut(m, n, x);
      Rep(Unlinked(m, n, x, root), if x == root then r else root, slot, Remove(t, x))
    ensures forall a :: !Has(t, a) && a != 0 ==> Kept(m, Unlinked(m, NodeOf(t, x), x, root), a)
  {
    hide Has, Rep, RingRep, CutOut, Placed, Unlinked, Remove, Apart;
    var n := NodeOf(t, x);
    NodeOfRep(m, root, slot, t, x);
    var q := n.ring[0];
    var par := m[q].parent;
    NodeApart(n);
    RingMember(m, q, par, n, x);
    NodeParent(m, root, slot, t, x);
    CutOutIs(m, q, par, n, x);
    HasParts(n, x);
    var m1 := Unlinked(m, n, x, root);
    var r := CutOut(m, n, x).1;
    forall a | a != 0
      ensures !Has(n, a) ==> (a in m1 <==> a in m) && (a in m ==> m1[a] == if x == q && x != root && a == par then FixChild(m[a], x, r) else m[a])
      ensures Has(n, a) ==> (a in m1 <==> a in Placed(m, n, x)) && (a in m1 ==> m1[a] == Placed(m, n, x)[a])
    {
      UnlinkedAt(m, q, par, n, x, root, a);
    }
    var q1 := if x == q then r else q;
    forall a | Has(Remove(n, x), a)
      ensures a in Placed(m, n, x) && a in m1 && m1[a] == Placed(m, n, x)[a]
    {
      RepHas(Placed(m, n, x), q1, par, Remove(n, x), a);
      RemoveHas(n, x, a);
    }
    RepFrame(Placed(m, n, x), m1, q1, par, Remove(n, x));
    forall a | Has(t, a) && !Has(n, a)
      ensures a in m && a in m1 && m1[a] == if x == q && a == m[x].parent then FixChild(m[a], x, r) else m[a]
    {
      RepHas(m, root, slot, t, a);
    }
    assert Repaired(m, m1, t, x, r);
    RepairedRep(m, m1, root, slot, t, x, r);
    forall a | !Has(t, a) && a != 0
      ensures Kept(m, m1, a)
    {
      NodeOfHas(t, x, a);
    }
  }

  lemma NodeParent(m: Links, root: nat, slot: nat, t: Tree, x: nat)
    requires Rep(m, root, slot, t) && Apart(t) && Has(t, x) && slot != 0
    ensures var n := NodeOf(t, x); n.ring != [] && n.ring[0] in m && m[n.ring[0]].parent != 0
    ensures var n := NodeOf(t, x); var par := m[n.ring[0]].parent;
      if n.ring[0] == root then par == slot && n == t else par in m && Has(t, par) && !Has(n, par)
  {
    hide Has, Rep, Apart;
    NodeOfRep(m, root, slot, t, x);
    var n := NodeOf(t, x);
    if n.ring[0] != root {
      RepHas(m, root, slot, t, m[n.ring[0]].parent);
      NodeOther(m, root, slot, t, x);
      ParentOutside(m, root, slot, t, x);
    }
  }

  lemma NodeOther(m: Links, root: nat, slot: nat, t: Tree, x: nat)
    requires Rep(m, root, slot, t) && Has(t, x) && NodeOf(t, x).ring != [] && NodeOf(t, x).ring[0] != root
    ensures NodeOf(t, x) != t
  {
  }

  // ----------------------------------------------------------------------- the object

  /** The headers of tries are no chunks, and neither is the null pointer. */
  predicate NoSlots(m: Links) {
    0 !in m && forall i :: 0 <= i < BINS ==> TreeSlot(i) !in m
  }

  lemma SmallPutIs(m: Links, b: nat, f: nat, p: nat, s: nat)
    requires b in m && f in m
    ensures var m1 := m[b := m[b].(fd := p)]; SmallPut(m, b, f, p, s) == m1[f := m1[f].(bk := p)][p := Link(s, f, b, 0, 0, 0)]
  {
  }

  class Bins {
    /** The link fields of free chunks and of the small bins' headers. */
    var links: Links
    const treebins: array<nat>
    var treemap: seq<bool>
    var smallmap: seq<bool>
    ghost var trees: seq<Tree>
    ghost var small: seq<seq<nat>>
    /** All chunks in the bins, and their sizes. */
    ghost var free: map<nat, nat>

    ghost predicate Valid()
      reads this, treebins
    {
      treebins.Length == BINS && AllOk(links, treebins[..], treemap, trees, smallmap, small, free) && NoSlots(links)
    }

    /** init_bins */
    constructor ()
      ensures Valid() && fresh(treebins) && free == map[]
    {
      links := map i: nat | 1 <= i < 2 * BINS :: Link(0, i, i, 0, 0, 0);
      treebins := new nat[BINS](_ => 0);
      treemap, smallmap := seq(BINS, _ => false), seq(BINS, _ => false);
      trees, small, free := seq(BINS, _ => Leaf), seq(BINS, _ => []), map[];
    }

    /** insert_small_chunk */
    method InsertSmall(p: nat, s: nat)
      requires Valid() && p !in free && ChunkOk(p, s) && IsSmall(s)
      modifies this
      ensures Valid() && free == old(free)[p := s]
    {
      hide OnlyBin, OnlyChunk, SmallOk, FreeOk, SmallPut;
      var i := s / 8;
      var b := SmallHead(i);
      SmallHeader(links, smallmap[i], i, small[i], free);
      SmallInserted(links, smallmap[i], i, small[i], free, p, s);
      FreeWith(free, p, s);
      ghost var m := links;
      SmallChanged(m, SmallPut(m, b, if smallmap[i] then m[b].fd else b, p, s), treebins[..], treemap, trees, smallmap, small, free, free[p := s], p, i, true, [p] + small[i]);
      var f := b;
      if !smallmap[i] {
        smallmap := smallmap[i := true];
      } else {
        f := links[b].fd;
      }
      hide AllOk;
      SmallPutIs(links, b, f, p, s);
      assert smallmap == old(smallmap)[i := true];
      links := links[b := links[b].(fd := p)];
      links := links[f := links[f].(bk := p)];
      links := links[p := Link(s, f, b, 0, 0, 0)];
      small, free := small[i := [p] + small[i]], free[p := s];
    }

    /** unlink_small_chunk */
    method UnlinkSmall(p: nat, s: nat)
      requires Valid() && p in free && free[p] == s && IsSmall(s)
      modifies this
      ensures Valid() && free == old(free) - {p}
    {
      hide OnlyBin, OnlyChunk, FreeOk, CutRing, InBin, BinOf, SmallOk, AllOk;
      var i := s / 8;
      FirstIs();
      SmallIndex(free, p);
      InBinSmall(free, p, i);
      FreeWithout(free, p);
      SmallNeighbours(links, smallmap[i], i, small[i], free, p);
      ghost var m := links;
      var f, b := links[p].fd, links[p].bk;
      if f == b {
        SmallRemovedLast(m, smallmap[i], i, small[i], free, p);
        NothingWritten(m, free, p, SmallBin(i));
        SmallChanged(m, m, treebins[..], treemap, trees, smallmap, small, free, free - {p}, p, i, false, []);
        smallmap, small := smallmap[i := false], small[i := []];
      } else {
        SmallRemoved(m, smallmap[i], i, small[i], free, p);
        SmallChanged(m, CutRing(m, p), treebins[..], treemap, trees, smallmap, small, free, free - {p}, p, i, true, Without(small[i], p));
        CutRingIs(m, p);
        assert smallmap == smallmap[i := true];
        links := links[f := links[f].(bk := b)];
        links := links[b := links[b].(fd := f)];
        small := small[i := Without(small[i], p)];
      }
      free := free - {p};
    }

    /** unlink_first_small_chunk */
    method UnlinkFirst(i: nat) returns (p: nat)
      requires Valid() && i < BINS && smallmap[i]
      modifies this
      ensures Valid() && p in old(free) && IsSmall(old(free)[p]) && old(free)[p] == 8 * i && free == old(free) - {p}
    {
      hide OnlyBin, OnlyChunk, FreeOk, CutRing, InBin, SmallOk, AllOk;
      var b := SmallHead(i);
      FirstIs();
      SmallHeader(links, smallmap[i], i, small[i], free);
      p := links[b].fd;
      FirstInBin(links, smallmap[i], i, small[i], free);
      InBinSmall(free, p, i);
      FreeWithout(free, p);
      SmallNeighbours(links, smallmap[i], i, small[i], free, p);
      ghost var m := links;
      var f := links[p].fd;
      if b == f {
        SmallRemovedLast(m, smallmap[i], i, small[i], free, p);
        NothingWritten(m, free, p, SmallBin(i));
        SmallChanged(m, m, treebins[..], treemap, trees, smallmap, small, free, free - {p}, p, i, false, []);
        smallmap, small := smallmap[i := false], small[i := []];
      } else {
        SmallRemoved(m, smallmap[i], i, small[i], free, p);
        SmallChanged(m, CutRing(m, p), treebins[..], treemap, trees, smallmap, small, free, free - {p}, p, i, true, Without(small[i], p));
        CutRingIs(m, p);
        CutRingOrder(m, b, f, p);
        assert smallmap == smallmap[i := true];
        links := links[b := links[b].(fd := f)];
        links := links[f := links[f].(bk := b)];
        small := small[i := Without(small[i], p)];
      }
      free := free - {p};
    }

    // ------------------------------------------------------------------------ tries

    /** insert_large_chunk */
    method InsertLarge(x: nat, s: nat)
      requires Valid() && x !in free && ChunkOk(x, s) && !IsSmall(s)
      modifies this, treebins
      ensures Valid() && free == old(free)[x := s]
    {
      hide OnlyBin, OnlyChunk, SmallOk, TreeOk, FreeOk, AllOk, BinOf;
      var i := TreeIndex(s);
      LargeIndex(s);
      FirstIs();
      FreeWith(free, x, s);
      TreeParts(links, treebins[i], treemap[i], i, trees[i], free);
      NotIn(free, x, TreeBin(i));
      ghost var m, root := links, treebins[i];
      if !treemap[i] {
        treemap := treemap[i := true];
        treebins[i] := x;
        links := links[x := Link(s, x, x, 0, 0, TreeSlot(i))];
        NewRoot(m, x, s, i, Height(i));
      } else {
        PutIn(i, x, s);
      }
      TreeInserted(m, links, root, treebins[i], old(treemap[i]), i, trees[i], free, x, s);
      PutOnly(m, links, root, i, trees[i], free, x);
      TreeChanged(m, links, old(treebins[..]), old(treemap), trees, smallmap, small, free, free[x := s], x, i, treebins[i], true, Insert(trees[i], x, s, Height(i)));
      assert treebins[..] == old(treebins[..])[i := treebins[i]];
      assert treemap == old(treemap)[i := true];
      trees, free := trees[i := Insert(trees[i], x, s, Height(i))], free[x := s];
    }

    /** The search for a place in a trie, and the assignments there. */
    method PutIn(i: nat, x: nat, s: nat)
      requires treebins.Length == BINS == |trees| && i < BINS && s < WORD && Shr(s, Height(i)) == Prefix(i)
      requires Rep(links, treebins[i], TreeSlot(i), trees[i]) && Apart(trees[i]) && Trie(trees[i], Height(i), Prefix(i)) && trees[i].Node?
      requires !Has(trees[i], x) && x != 0
      modifies this`links
      ensures Rep(links, treebins[i], TreeSlot(i), Insert(trees[i], x, s, Height(i)))
      ensures forall a :: a != x && !Has(trees[i], a) ==> Kept(old(links), links, a)
      ensures forall a :: a in links <==> a == x || a in old(links)
    {
      hide Rep, Has, Apart, Trie, Bit, Shr, Shl, InsertBehind, RingWith;
      ghost var m, sub := links, trees[i];
      ghost var par: nat, h: nat, pf: nat := TreeSlot(i), Height(i), Prefix(i);
      var t: nat := treebins[i];
      var k: nat := Shl(s, LeftShift(i));
      PutRep(m, t, par, sub, x, s, h, pf);
      ghost var stop := StopAt(sub, s, h);
      forall a | a in stop.0.ring
        ensures Has(trees[i], a)
      {
        HasParts(stop.0, a);
        StopHas(trees[i], s, Height(i), a);
      }
      StopRep(m, t, par, sub, s, h);
      while true
        invariant links == m && sub.Node? && Rep(m, t, par, sub) && Trie(sub, h, pf) && Shr(s, h) == pf
        invariant h <= 32 && k == Shl(s, 32 - h) && StopAt(sub, s, h) == stop
        decreases sub
      {
        RepParts(m, t, par, sub);
        RingOf(m, t, par, sub);
        if links[t].size != s {
          InsertDown(s, h, pf);
          SizeDiffers(sub, s, h, pf);
          SignBit(s, 32 - h);
          ShlNext(s, 32 - h);
          BitIs(s, h);
          var right := k / 0x8000_0000 == 1;
          var c := if right then links[t].c1 else links[t].c0;
          k := 2 * k % WORD;
          ghost var next := if right then sub.right else sub.left;
          RepNull(m, c, t, next);
          TrieDown(sub, h, pf);
          if c != 0 {
            par, t, sub, h, pf := t, c, next, h - 1, if right then 2 * pf + 1 else 2 * pf;
          } else {
            links := links[t := SetChild(links[t], right, x)];
            links := links[x := Link(s, x, x, 0, 0, t)];
            assert links == PutLinks(m, t, x, s, right);
            break;
          }
        } else {
          var f := links[t].fd;
          InsertBehindIs(m, t, x, s);
          links := links[t := links[t].(fd := x)];
          links := links[f := links[f].(bk := x)];
          links := links[x := Link(s, f, t, 0, 0, 0)];
          assert links == PutLinks(m, t, x, s, h > 0 && Bit(s, h) != 0);
          break;
        }
      }
      hide PutLinks;
      forall a
        ensures a != x && !Has(trees[i], a) ==> Kept(m, links, a)
        ensures a in links <==> a == x || a in m
      {
        PutDomain(m, stop.0.ring[0], x, s, stop.1 > 0 && Bit(s, stop.1) != 0, a);
        if a != x && !Has(trees[i], a) { PutSame(m, stop.0.ring[0], x, s, stop.1 > 0 && Bit(s, stop.1) != 0, a); }
      }
    }

    /** unlink_large_chunk */
    method UnlinkLarge(x: nat)
      requires Valid() && x in free && !IsSmall(free[x])
      modifies this, treebins
      ensures Valid() && free == old(free) - {x}
    {
      hide OnlyBin, OnlyChunk, SmallOk, TreeOk, FreeOk, AllOk, BinOf, Rep, Has, Apart, Trie, CutOut, MoveUp, Kept, Unlinked;
      FirstIs();
      ghost var b := TreeIndex(free[x]);
      LargeIndexOf(free, x);
      TreeParts(links, treebins[b], treemap[b], b, trees[b], free);
      ghost var m, root, t := links, treebins[b], trees[b];
      ghost var n := NodeOf(t, x);
      UnlinkedRep(m, root, TreeSlot(b), t, x);
      UnlinkPlan(m, root, TreeSlot(b), t, x);
      var xp := links[x].parent;
      var i := TreeIndex(links[x].size);
      var r := FirstHalf(x, n);
      if xp != 0 {
        if x == treebins[i] {
          treebins[i] := r;
          if r == 0 {
            treemap := treemap[i := false];
          }
        } else {
          links := links[xp := FixChild(links[xp], x, r)];
        }
        if r != 0 {
          SecondHalf(x, r, xp);
        }
      }
      UnlinkedIs(m, n, x, root, links);
      LargeRemoved(m, links, old(treebins[..]), old(treemap), trees, smallmap, small, free, x, treebins[b]);
      assert treebins[..] == old(treebins[..])[b := treebins[b]];
      assert treemap == old(treemap)[b := treebins[b] != 0];
      trees, free := trees[b := Remove(t, x)], free - {x};
    }

    /** The chunk is cut out of its ring, or the last node below is taken out of the tree. */
    method FirstHalf(x: nat, ghost n: Tree) returns (r: nat)
      requires n.Node? && x in n.ring && Apart(n) && n.ring != [] && n.ring[0] in links && Rep(links, n.ring[0], links[n.ring[0]].parent, n)
      modifies this`links
      ensures x in old(links) && old(links)[x].fd in old(links) && old(links)[x].bk in old(links)
      ensures (links, r) == CutOut(old(links), n, x)
      ensures forall a :: a in links <==> a in old(links)
    {
      hide Rep, Has, Apart, Last, RingRep;
      NodeApart(n);
      RingMember(links, n.ring[0], links[n.ring[0]].parent, n, x);
      if links[x].bk != x {
        CutRingIs(links, x);
        var f := links[x].fd;
        r := links[x].bk;
        links := links[f := links[f].(bk := r)];
        links := links[r := links[r].(fd := f)];
      } else {
        assert n.ring == [x];
        ghost var par := links[x].parent;
        RepParts(links, x, par, n);
        RepNull(links, links[x].c0, x, n.left);
        RepNull(links, links[x].c1, x, n.right);
        LastAt(links, x, par, n);
        if links[x].c1 != 0 || links[x].c0 != 0 {
          r := TakeLast(x, n);
        } else {
          r := 0;
        }
      }
    }

    /** The last node below `x` is taken out: right where possible, else left. */
    method TakeLast(x: nat, ghost n: Tree) returns (r: nat)
      requires n.Node? && n.ring == [x] && Apart(n) && x in links && Rep(links, x, links[x].parent, n) && (n.left.Node? || n.right.Node?)
      modifies this`links
      ensures Last(n).ring != [] && r == Last(n).ring[0] && r in old(links) && old(links)[r].parent in old(links)
      ensures var o := old(links)[r].parent; links == old(links)[o := FixChild(old(links)[o], r, 0)]
    {
      hide Rep, Has, Apart, RingRep;
      ghost var m := links;
      ghost var par := m[x].parent;
      LastAt(m, x, par, n);
      RepParts(m, x, par, n);
      RepNull(m, m[x].c0, x, n.left);
      RepNull(m, m[x].c1, x, n.right);
      ApartParts(n);
      var owner: nat, right := x, links[x].c1 != 0;
      OtherChild(m, x, par, n, right);
      r := if right then links[x].c1 else links[x].c0;
      ghost var u := if right then n.right else n.left;
      RepParts(m, r, owner, u);
      while links[r].c1 != 0 || links[r].c0 != 0
        invariant links == m && u.Node? && Rep(m, r, owner, u) && Apart(u) && Last(u) == Last(n) && owner in m && r in m
        invariant if right then m[owner].c1 == r && m[owner].c0 != r else m[owner].c0 == r
        decreases u
      {
        RepParts(m, r, owner, u);
        RepNull(m, m[r].c0, r, u.left);
        RepNull(m, m[r].c1, r, u.right);
        ApartParts(u);
        var c := links[r].c1 != 0;
        OtherChild(m, r, owner, u, c);
        right := c;
        owner, r, u := r, if c then links[r].c1 else links[r].c0, if c then u.right else u.left;
        RepParts(m, r, owner, u);
      }
      RepParts(m, r, owner, u);
      RepNull(m, m[r].c0, r, u.left);
      RepNull(m, m[r].c1, r, u.right);
      assert Last(u) == u;
      links := links[owner := SetChild(links[owner], right, 0)];
    }

    /** R takes the place of X. */
    method SecondHalf(x: nat, r: nat, xp: nat)
      requires x in links && r in links && (links[x].c0 != 0 ==> links[x].c0 in links) && (links[x].c1 != 0 ==> links[x].c1 in links) && r != x
      requires links[x].c0 != x && links[x].c0 != r
      modifies this`links
      ensures links == MoveUp(old(links), x, r, xp) && forall a :: a in links <==> a in old(links)
    {
      MoveUpSteps(links, x, r, xp);
      hide MoveUp;
      links := links[r := links[r].(parent := xp)];
      var c0 := links[x].c0;
      if c0 != 0 {
        links := links[r := links[r].(c0 := c0)];
        links := links[c0 := links[c0].(parent := r)];
      }
      var c1 := links[x].c1;
      if c1 != 0 {
        links := links[r := links[r].(c1 := c1)];
        links := links[c1 := links[c1].(parent := r)];
      }
    }

    // -------------------------------------------------------------------- best fit

    /** What is known of the best chunk so far: none, or one that leaves `rsize`. */
    ghost predicate Candidate(v: nat, rsize: nat, nb: nat)
      reads this`free
      requires nb < WORD
    {
      if v == 0 then rsize == WORD - nb else v in free && !IsSmall(free[v]) && free[v] >= nb && rsize == free[v] - nb
    }

    /** A chunk of trie `i`, in memory. */
    lemma NodeChunk(i: nat, t: nat, par: nat, u: Tree)
      requires Valid() && i < BINS && u.Node? && Rep(links, t, par, u) && Apart(u) && forall a :: Has(u, a) ==> Has(trees[i], a) && SizeOf(trees[i], a) == SizeOf(u, a)
      ensures t in links && t != 0 && links[t].size == u.size && t in free && free[t] == u.size && !IsSmall(u.size) && u.size < WORD
    {
      hide AllOk, Has, Rep, SizeOf;
      FirstIs();
      TreeParts(links, treebins[i], treemap[i], i, trees[i], free);
      NodeSome(u);
      RepParts(links, t, par, u);
      SubSize(u, t);
    }

    /** Smallest chunk of a tree or subtree in which all fit: down the leftmost children. */
    method WalkDown(ghost i: nat, t0: nat, v0: nat, rsize0: nat, nb: nat, ghost u0: Tree, ghost par0: nat, ghost h0: nat, ghost p0: nat)
      returns (v: nat, rsize: nat)
      requires Valid() && i < BINS && 0 < nb < WORD && Candidate(v0, rsize0, nb)
      requires Rep(links, t0, par0, u0) && Apart(u0) && Trie(u0, h0, p0) && (AllFit(u0, nb) || rsize0 == 0)
      requires forall a :: Has(u0, a) ==> Has(trees[i], a) && SizeOf(trees[i], a) == SizeOf(u0, a)
      ensures Candidate(v, rsize, nb) && rsize <= rsize0 && NoBetter(u0, nb, rsize) && (v == v0 || Has(u0, v)) && (u0.Node? ==> v != 0)
    {
      hide AllOk, Has, Rep, SizeOf, Apart, Trie, AllFit, LeftIn, Remainder;
      v, rsize := v0, rsize0;
      var t: nat := t0;
      ghost var u := u0;
      ghost var par: nat, h: nat, p: nat := par0, h0, p0;
      SearchStart(u0, nb, rsize);
      RepNull(links, t0, par0, u0);
      while t != 0
        invariant Rep(links, t, par, u) && Apart(u) && Trie(u, h, p) && (AllFit(u, nb) || rsize0 == 0)
        invariant forall a :: Has(u, a) ==> Has(u0, a) && SizeOf(u0, a) == SizeOf(u, a)
        invariant Candidate(v, rsize, nb) && rsize <= rsize0 && LeftIn(u0, nb, rsize, u, Leaf) && (v == v0 || Has(u0, v))
        invariant (t == 0 <==> u.Leaf?) && (v != 0 || u == u0)
        decreases u
      {
        NodeChunk(i, t, par, u);
        if rsize0 != 0 { SidesFit(u, nb); }
        var trem := Remainder(links[t].size, nb);
        ghost var r := rsize;
        if trem < rsize {
          rsize := trem;
          v := t;
          NodeSome(u);
          RepParts(links, t, par, u);
        }
        RemainderIs(links[t].size, nb);
        if rsize0 != 0 { LeftmostLeft(u0, u, h, p, nb, r, rsize); } else { ExactLeft(u0, nb, Leftmost(u), Leaf); }
        RepParts(links, t, par, u);
        RepNull(links, links[t].c0, t, u.left);
        RepNull(links, links[t].c1, t, u.right);
        ApartParts(u);
        LeftmostTrie(u, h, p);
        forall a | Has(Leftmost(u), a) ensures Has(u, a) && SizeOf(u, a) == SizeOf(Leftmost(u), a) { SubSize(u, a); }
        t, par, u, h, p := if links[t].c0 != 0 then links[t].c0 else links[t].c1, t, Leftmost(u), if h > 0 then h - 1 else 0, if u.left.Node? then 2 * p else 2 * p + 1;
      }
      SearchDone(u0, nb, rsize);
    }

    /** The first part of tmalloc_large: along the bits of the size, remembering the deepest
        untaken right subtree `rst`, in which the search goes on. */
    method WalkBits(i: nat, nb: nat) returns (v: nat, rsize: nat, t: nat, ghost rst: Tree, ghost par: nat, ghost h: nat, ghost p: nat)
      requires Valid() && 0 < nb < WORD && !IsSmall(nb) && i == TreeIndex(nb) < BINS && treebins[i] != 0
      ensures Candidate(v, rsize, nb) && (v == 0 || Has(trees[i], v))
      ensures Rep(links, t, par, rst) && Apart(rst) && Trie(rst, h, p) && (AllFit(rst, nb) || rsize == 0)
      ensures forall a :: Has(rst, a) ==> Has(trees[i], a) && SizeOf(trees[i], a) == SizeOf(rst, a)
      ensures LeftIn(trees[i], nb, rsize, rst, Leaf)
    {
      hide AllOk, Has, Rep, SizeOf, Apart, Trie, AllFit, LeftIn, Remainder, Below, Bit, Shr, Shl, NoBetter;
      FirstIs();
      TreeParts(links, treebins[i], treemap[i], i, trees[i], free);
      LargeIndex(nb);
      v, rsize, t := 0, WORD - nb, treebins[i];
      var sizebits: nat := Shl(nb, LeftShift(i));
      var rstp: nat := 0;
      rst := Leaf;
      ghost var whole, u, hu: nat, pu: nat, paru: nat := trees[i], trees[i], Height(i), Prefix(i), TreeSlot(i);
      par, h, p := 0, 0, 0;
      SearchStart(whole, nb, rsize);
      LeafParts(links, nb);
      while true
        invariant u.Node? && Rep(links, t, paru, u) && Apart(u) && Trie(u, hu, pu) && Shr(nb, hu) == pu
        invariant hu <= 32 && sizebits == Shl(nb, 32 - hu)
        invariant forall a :: Has(u, a) ==> Has(whole, a) && SizeOf(whole, a) == SizeOf(u, a)
        invariant Rep(links, rstp, par, rst) && Apart(rst) && Trie(rst, h, p) && AllFit(rst, nb) && Below(u, rst)
        invariant forall a :: Has(rst, a) ==> Has(whole, a) && SizeOf(whole, a) == SizeOf(rst, a)
        invariant Candidate(v, rsize, nb) && rsize > 0 && (v == 0 || Has(whole, v)) && LeftIn(whole, nb, rsize, u, rst)
        decreases u
      {
        NodeChunk(i, t, paru, u);
        RepParts(links, t, paru, u);
        NodeSome(u);
        var trem := Remainder(links[t].size, nb);
        ghost var r := rsize;
        RemainderIs(links[t].size, nb);
        if trem < rsize {
          v := t;
          rsize := trem;
          if rsize == 0 {
            ExactLeft(whole, nb, u, Leaf);
            rst, par, h, p := u, paru, hu, pu;
            return;
          }
        }
        SizeNotHere(u, hu, pu, nb);
        SignBit(nb, 32 - hu);
        ShlNext(nb, 32 - hu);
        BitIs(nb, hu);
        InsertDown(nb, hu, pu);
        SearchStep(whole, u, rst, hu, pu, nb, r, rsize);
        TrieDown(u, hu, pu);
        ApartParts(u);
        var right := sizebits / 0x8000_0000 == 1;
        var rt := links[t].c1;
        RepNull(links, links[t].c0, t, u.left);
        RepNull(links, links[t].c1, t, u.right);
        forall a
          ensures Has(u.left, a) ==> Has(u, a) && SizeOf(u, a) == SizeOf(u.left, a)
          ensures Has(u.right, a) ==> Has(u, a) && SizeOf(u, a) == SizeOf(u.right, a)
        {
          SubSize(u, a);
        }
        SameChild(links, t, paru, u);
        var next := if right then links[t].c1 else links[t].c0;
        ghost var node := t;
        if rt != 0 && rt != next {
          rstp := rt;
          rst, par, h, p := u.right, node, hu - 1, 2 * pu + 1;
        }
        t := next;
        if t == 0 {
          t := rstp;
          SearchOther(whole, rst, nb, rsize);
          return;
        }
        sizebits := 2 * sizebits % WORD;
        u, paru, hu, pu := if right then u.right else u.left, node, hu - 1, if right then 2 * pu + 1 else 2 * pu;
      }
    }

    /** `v` is a large chunk of the smallest size that fits, or there is none. */
    ghost predicate IsBest(v: nat, nb: nat)
      reads this`free
    {
      && (v != 0 ==> v in free && !IsSmall(free[v]) && free[v] >= nb)
      && forall a :: a in free && !IsSmall(free[a]) && free[a] >= nb ==> v != 0 && free[v] <= free[a]
    }

    /** The best chunk of one trie is the best of all, if no lower trie has one that fits and the
        higher ones are only needed when it has none. */
    lemma BestHere(nb: nat, v: nat, rsize: nat, b: nat)
      requires Valid() && 0 < nb < WORD && b < BINS && Candidate(v, rsize, nb) && NoBetter(trees[b], nb, rsize) && (v != 0 ==> Has(trees[b], v))
      requires forall k, a :: 0 <= k < b && Has(trees[k], a) ==> SizeOf(trees[k], a) < nb
      requires v == 0 ==> forall k :: b < k < BINS ==> trees[k].Leaf?
      ensures IsBest(v, nb)
    {
      hide AllOk, Has, SizeOf, TreeOk, SmallOk;
      FirstIs();
      forall a | a in free && !IsSmall(free[a]) && free[a] >= nb
        ensures v != 0 && free[v] <= free[a]
      {
        LargeIndexOf(free, a);
        var k := TreeIndex(free[a]);
        TreeParts(links, treebins[k], treemap[k], k, trees[k], free);
        TreeParts(links, treebins[b], treemap[b], b, trees[b], free);
        assert Has(trees[k], a);
        if k > b {
          NodeHas(trees[k], a);
          InBinIndex(free, v, b);
          TreeIndexOrder(free[v], free[a]);
        }
      }
    }

    /** Chunks of lower tries are too small. */
    lemma LowerTooSmall(nb: nat, k: nat, a: nat)
      requires Valid() && 0 < nb < WORD && !IsSmall(nb) && k < TreeIndex(nb) < BINS && Has(trees[k], a)
      ensures SizeOf(trees[k], a) < nb
    {
      hide AllOk, Has, SizeOf, TreeOk, SmallOk;
      FirstIs();
      TreeParts(links, treebins[k], treemap[k], k, trees[k], free);
      InBinIndex(free, a, k);
      TreeIndexOrder(free[a], nb);
    }

    /** The search of tmalloc_large: the best fitting chunk of all tries, and what it leaves. */
    method FitLarge(nb: nat) returns (v: nat, rsize: nat)
      requires Valid() && 0 < nb < WORD && !IsSmall(nb)
      ensures Candidate(v, rsize, nb) && IsBest(v, nb)
    {
      hide AllOk, Has, SizeOf, Rep, Apart, Trie, IsBest, LeftIn, NoBetter, AllFit, Candidate;
      FirstIs();
      LargeIndex(nb);
      var idx := TreeIndex(nb);
      TreeParts(links, treebins[idx], treemap[idx], idx, trees[idx], free);
      NoCandidate(nb);
      var t: nat;
      v, rsize, t := 0, WORD - nb, 0;
      ghost var u, par: nat, h: nat, p: nat := Leaf, 0, 0, 0;
      LeafParts(links, nb);
      ghost var b := idx;
      forall k, a | 0 <= k < idx && Has(trees[k], a) ensures SizeOf(trees[k], a) < nb { LowerTooSmall(nb, k, a); }
      if treebins[idx] != 0 {
        v, rsize, t, u, par, h, p := WalkBits(idx, nb);
      } else {
        SearchStart(trees[idx], nb, rsize);
      }
      RepNull(links, t, par, u);
      if t == 0 && v == 0 {
        SearchDone(trees[idx], nb, rsize);
        NoneFits(nb, rsize, idx);
        var j := FirstSet(treemap, idx + 1);
        if j < BINS {
          t := treebins[j];
          b := j;
          u, par, h, p := trees[j], TreeSlot(j), Height(j), Prefix(j);
          TreeParts(links, treebins[j], treemap[j], j, trees[j], free);
          HigherFit(nb, j);
          forall k: nat, a | k < j
            ensures Has(trees[k], a) ==> SizeOf(trees[k], a) < nb
          {
            if k > idx { UnmarkedNone(k, a, nb); }
          }
        } else {
          forall k | idx < k < BINS ensures trees[k].Leaf? { TreeParts(links, treebins[k], treemap[k], k, trees[k], free); }
        }
      }
      ghost var r := rsize;
      ghost var v0 := v;
      v, rsize := WalkDown(b, t, v, rsize, nb, u, par, h, p);
      BestOfWalk(b, nb, r, rsize, u);
      HasInside(b, u, v);
      BestHere(nb, v, rsize, b);
    }

    lemma NoCandidate(nb: nat)
      requires 0 < nb < WORD
      ensures Candidate(0, WORD - nb, nb)
    {
    }

    lemma NoneFits(nb: nat, rsize: nat, i: nat)
      requires Valid() && 0 < nb < WORD && i < BINS && Candidate(0, rsize, nb) && NoBetter(trees[i], nb, rsize)
      ensures forall a :: Has(trees[i], a) ==> SizeOf(trees[i], a) < nb
    {
      hide AllOk, Has, SizeOf;
      FirstIs();
      TreeParts(links, treebins[i], treemap[i], i, trees[i], free);
    }

    lemma UnmarkedNone(k: nat, a: nat, nb: nat)
      requires Valid() && k < BINS && |treemap| == BINS && !treemap[k]
      ensures Has(trees[k], a) ==> SizeOf(trees[k], a) < nb
    {
      hide AllOk;
      FirstIs();
      TreeParts(links, treebins[k], treemap[k], k, trees[k], free);
    }

    lemma HigherFit(nb: nat, j: nat)
      requires Valid() && 0 < nb < WORD && j < BINS && (IsSmall(nb) || TreeIndex(nb) < j)
      ensures AllFit(trees[j], nb)
    {
      hide AllOk, Has, SizeOf;
      FirstIs();
      TreeParts(links, treebins[j], treemap[j], j, trees[j], free);
      forall a | Has(trees[j], a)
        ensures SizeOf(trees[j], a) >= nb
      {
        InBinIndex(free, a, j);
        if !IsSmall(nb) { TreeIndexOrder(nb, free[a]); }
      }
    }

    lemma BestOfWalk(b: nat, nb: nat, r: nat, rsize: nat, u: Tree)
      requires Valid() && b < BINS && rsize <= r && NoBetter(u, nb, rsize) && (LeftIn(trees[b], nb, r, u, Leaf) || u == trees[b])
      ensures NoBetter(trees[b], nb, rsize)
    {
      hide NoBetter, AllOk;
      LeafNoBetter(nb, rsize);
    }

    lemma HasInside(b: nat, u: Tree, v: nat)
      requires Valid() && b < BINS && forall a :: Has(u, a) ==> Has(trees[b], a)
      ensures Has(u, v) ==> Has(trees[b], v)
    {
    }

    /** The search of tmalloc_small: the smallest chunk of all tries. */
    method FitSmall(nb: nat) returns (v: nat, rsize: nat)
      requires Valid() && 0 < nb && IsSmall(nb) && exists i :: 0 <= i < BINS && treemap[i]
      ensures v != 0 && Candidate(v, rsize, nb) && IsBest(v, nb)
    {
      hide AllOk, Has, SizeOf, Rep, Apart, Trie, IsBest, LeftIn, NoBetter, AllFit, Candidate;
      FirstIs();
      var i := FirstSet(treemap, 0);
      TreeParts(links, treebins[i], treemap[i], i, trees[i], free);
      HigherFit(nb, i);
      NoCandidate(nb);
      v, rsize := WalkDown(i, treebins[i], 0, WORD - nb, nb, trees[i], TreeSlot(i), Height(i), Prefix(i));
      forall k: nat, a | k < i ensures Has(trees[k], a) ==> SizeOf(trees[k], a) < nb { UnmarkedNone(k, a, nb); }
      BestHere(nb, v, rsize, i);
    }

    lemma FirstIs()
      requires Valid()
      ensures FreeOk(free) && |treemap| == BINS && |smallmap| == BINS && |trees| == BINS && |small| == BINS
      ensures forall i :: 0 <= i < BINS ==> SmallOk(links, smallmap[i], i, small[i], free)
      ensures forall i :: 0 <= i < BINS ==> TreeOk(links, treebins[i], treemap[i], i, trees[i], free)
    {
      hide SmallOk, TreeOk;
      assert forall i :: 0 <= i < BINS ==> treebins[..][i] == treebins[i];
    }
  }

  lemma SmallIndex(free: map<nat, nat>, p: nat)
    requires p in free && IsSmall(free[p])
    ensures free[p] / 8 < BINS && InBin(free, p, SmallBin(free[p] / 8)) && BinOf(free[p]) == SmallBin(free[p] / 8)
  {
  }

  lemma NothingWritten(m: Links, free: map<nat, nat>, p: nat, b: Bin)
    ensures OnlyBin(m, m, free, p, b)
  {
  }

  lemma CutRingIs(m: Links, p: nat)
    requires p in m && m[p].fd in m && m[p].bk in m
    ensures var f, b := m[p].fd, m[p].bk; var m1 := m[f := m[f].(bk := b)]; CutRing(m, p) == m1[b := m1[b].(fd := f)]
  {
  }

  lemma CutRingOrder(m: Links, b: nat, f: nat, p: nat)
    requires b in m && f in m && b != f
    ensures m[f := m[f].(bk := b)][b := m[f := m[f].(bk := b)][b].(fd := f)] == m[b := m[b].(fd := f)][f := m[b := m[b].(fd := f)][f].(bk := b)]
  {
  }

  lemma FirstInBin(m: Links, marked: bool, i: nat, s: seq<nat>, free: map<nat, nat>)
    requires SmallOk(m, marked, i, s, free) && marked
    ensures s != [] && InBin(free, s[0], SmallBin(i))
  {
    hide InBin;
    assert s[0] in s;
  }

  lemma InBinSmall(free: map<nat, nat>, p: nat, i: nat)
    requires InBin(free, p, SmallBin(i)) && FreeOk(free)
    ensures p in free && IsSmall(free[p]) && free[p] == 8 * i && BinOf(free[p]) == SmallBin(i) && p % 8 == 0
  {
  }

  lemma LargeIndex(s: nat)
    requires s < WORD && !IsSmall(s)
    ensures TreeIndex(s) < BINS && BinOf(s) == TreeBin(TreeIndex(s)) && Shr(s, Height(TreeIndex(s))) == Prefix(TreeIndex(s))
  {
    SharedPrefix(s);
  }

  lemma NotIn(free: map<nat, nat>, x: nat, b: Bin)
    requires x !in free
    ensures !InBin(free, x, b)
  {
  }

  lemma NewRoot(m: Links, x: nat, s: nat, i: nat, h: nat)
    requires x != 0
    ensures Rep(m[x := Link(s, x, x, 0, 0, TreeSlot(i))], x, TreeSlot(i), Insert(Leaf, x, s, h))
  {
    var m1 := m[x := Link(s, x, x, 0, 0, TreeSlot(i))];
    assert LinkedHere(m1, [x], 0) && RingHere(m1, [x], s, 0);
  }

  lemma PutOnly(m: Links, m1: Links, root: nat, i: nat, t: Tree, free: map<nat, nat>, x: nat)
    requires forall a :: a != x && !Has(t, a) ==> Kept(m, m1, a)
    requires forall a :: Has(t, a) <==> InBin(free, a, TreeBin(i))
    ensures OnlyBin(m, m1, free, x, TreeBin(i))
  {
  }

  lemma SizeDiffers(t: Tree, s: nat, h: nat, pf: nat)
    requires t.Node? && Trie(t, h, pf) && Shr(s, h) == pf && t.size != s
    ensures h > 0
  {
  }

  lemma TrieDown(t: Tree, h: nat, pf: nat)
    requires t.Node? && Trie(t, h, pf) && h > 0
    ensures Trie(t.left, h - 1, 2 * pf) && Trie(t.right, h - 1, 2 * pf + 1)
  {
  }

  lemma BitIs(s: nat, h: nat)
    requires 0 < h <= 32
    ensures Bit(s, h) == Shr(s, 31 - (32 - h)) % 2
  {
  }

  lemma InsertBehindIs(m: Links, t: nat, x: nat, s: nat)
    requires t in m && m[t].fd in m
    ensures var f := m[t].fd; var m1 := m[t := m[t].(fd := x)]; var m2 := m1[f := m1[f].(bk := x)];
      InsertBehind(m, t, x, Link(s, 0, 0, 0, 0, 0)) == m2[x := Link(s, f, t, 0, 0, 0)]
  {
  }

  lemma PutDomain(m: Links, t: nat, x: nat, s: nat, right: bool, a: nat)
    requires t in m && m[t].fd in m
    ensures a in PutLinks(m, t, x, s, right) <==> a == x || a in m
  {
  }

  lemma LargeIndexOf(free: map<nat, nat>, x: nat)
    requires x in free && !IsSmall(free[x]) && FreeOk(free)
    ensures TreeIndex(free[x]) < BINS && BinOf(free[x]) == TreeBin(TreeIndex(free[x])) && InBin(free, x, TreeBin(TreeIndex(free[x]))) && x % 8 == 0
  {
    SharedPrefix(free[x]);
  }

  lemma ApartParts(t: Tree)
    requires Apart(t) && t.Node?
    ensures Distinct(t.ring) && Apart(t.left) && Apart(t.right)
  {
  }

  /** What is where when a chunk is unlinked. */
  lemma UnlinkPlan(m: Links, root: nat, slot: nat, t: Tree, x: nat)
    requires Rep(m, root, slot, t) && Apart(t) && Has(t, x) && slot != 0 && slot !in m
    ensures var n := NodeOf(t, x); n.ring != [] && n.ring[0] in m && Apart(n) && Rep(m, n.ring[0], m[n.ring[0]].parent, n)
    ensures x in m && m[x].fd in m && m[x].bk in m && m[x].size == SizeOf(t, x) && (x == root ==> m[x].parent != 0)
    ensures var (m1, r) := CutOut(m, NodeOf(t, x), x);
      m[x].parent != 0 ==>
        && x in m1 && (x != root ==> m[x].parent in m1 && m[x].parent != x)
        && (r != 0 ==> r in m1 && r != x && (m1[x].c0 != 0 ==> m1[x].c0 in m1) && (m1[x].c1 != 0 ==> m1[x].c1 in m1))
        && (r != 0 ==> m1[x].c0 != x && m1[x].c0 != r)
  {
    hide Rep, Has, Apart, RingRep, CutOut, SizeOf;
    var n := NodeOf(t, x);
    NodeOfRep(m, root, slot, t, x);
    NodeParent(m, root, slot, t, x);
    RepHas(m, root, slot, t, x);
    NodeApart(n);
    HasParts(n, x);
    var q := n.ring[0];
    var par := m[q].parent;
    RingMember(m, q, par, n, x);
    RootNode(m, root, slot, t, x);
    if x == q {
      CutOutIs(m, q, par, n, x);
      if x != root { CutOutKeeps(m, q, par, n, x, par); }
      CutOutApart(m, q, par, n);
    }
  }

  lemma RootNode(m: Links, root: nat, slot: nat, t: Tree, x: nat)
    requires Rep(m, root, slot, t) && Has(t, x)
    ensures x == root ==> NodeOf(t, x) == t && t.ring != [] && t.ring[0] == x
  {
  }

  /** What takes the place is another chunk, and not a child any more. */
  lemma CutOutApart(m: Links, p: nat, par: nat, n: Tree)
    requires n.Node? && Rep(m, p, par, n) && Apart(n) && par != 0
    ensures p in n.ring && p in m && m[p].fd in m && m[p].bk in m && p in CutOut(m, n, p).0
    ensures var (m1, r) := CutOut(m, n, p); r != 0 ==> r != p && m1[p].c0 != p && m1[p].c0 != r
  {
    hide Rep, Has, Apart, RingRep, Last, WithoutLast;
    NodeApart(n);
    RepParts(m, p, par, n);
    RingMember(m, p, par, n, p);
    ChildrenApart(m, p, par, n);
    CutRingAt(m, p, p);
    RepNull(m, m[p].c0, p, n.left);
    RepNull(m, m[p].c1, p, n.right);
    if |n.ring| == 1 && (n.left.Node? || n.right.Node?) {
      LastAt(m, p, par, n);
      LastNotRoot(m, p, par, n);
    }
  }

  lemma ChildrenApart(m: Links, p: nat, par: nat, n: Tree)
    requires n.Node? && Rep(m, p, par, n) && Apart(n)
    ensures p in m && m[p].c0 != p && m[p].c0 !in n.ring
  {
    RepParts(m, p, par, n);
    RepNull(m, m[p].c0, p, n.left);
    if n.left.Node? {
      RepParts(m, m[p].c0, p, n.left);
      assert Has(n.left, m[p].c0);
    } else {
      forall a | a in n.ring ensures a != 0 { assert RingHere(m, n.ring, n.size, IndexOf(n.ring, a)); }
    }
  }

  /** The last node is not the root, and if it is the left child, its pointer there is cleared. */
  lemma LastNotRoot(m: Links, p: nat, par: nat, n: Tree)
    requires n.Node? && Rep(m, p, par, n) && Apart(n) && (n.left.Node? || n.right.Node?)
    ensures Last(n).ring != [] && Last(n).ring[0] in m && p in m && Last(n).ring[0] != p
    ensures m[p].c0 == Last(n).ring[0] ==> m[Last(n).ring[0]].parent == p
  {
    hide Rep, Has, RingRep, Last, WithoutLast;
    LastAt(m, p, par, n);
    LastParent(m, p, par, n);
    RepParts(m, p, par, n);
    LastIn(n);
    var r := Last(n).ring[0];
    HasParts(n, p);
    var c := if n.right.Node? then n.right else n.left;
    LastAt(m, if n.right.Node? then m[p].c1 else m[p].c0, p, c);
    RepNull(m, m[p].c0, p, n.left);
    if n.left.Node? { RepParts(m, m[p].c0, p, n.left); HasParts(n.left, m[p].c0); }
  }

  lemma LastIn(n: Tree)
    requires n.Node? && (n.left.Node? || n.right.Node?)
    ensures Last(n) == Last(if n.right.Node? then n.right else n.left)
  {
  }

  lemma MoveUpSteps(m: Links, x: nat, r: nat, xp: nat)
    requires x in m && r in m && (m[x].c0 != 0 ==> m[x].c0 in m) && (m[x].c1 != 0 ==> m[x].c1 in m) && r != x && m[x].c0 != x && m[x].c0 != r
    ensures var m1 := m[r := m[r].(parent := xp)];
      var c0, c1 := m[x].c0, m[x].c1;
      var m2 := if c0 != 0 then m1[r := m1[r].(c0 := c0)][c0 := m1[c0].(parent := r)] else m1;
      var m3 := if c1 != 0 then m2[r := m2[r].(c1 := c1)] else m2;
      MoveUp(m, x, r, xp) == if c1 != 0 then m3[c1 := m3[c1].(parent := r)] else m3
  {
    var m1 := m[r := m[r].(parent := xp)];
    var c0, c1 := m[x].c0, m[x].c1;
    var m2 := if c0 != 0 then m1[r := m1[r].(c0 := c0)][c0 := m1[c0].(parent := r)] else m1;
    var m3 := if c1 != 0 then m2[r := m2[r].(c1 := c1)] else m2;
    var m4 := if c1 != 0 then m3[c1 := m3[c1].(parent := r)] else m3;
    var n := MoveUp(m, x, r, xp);
    forall a
      ensures a in n <==> a in m4
      ensures a in n ==> n[a] == m4[a]
    {
    }
    assert n == m4;
  }

  lemma UnlinkedIs(m: Links, n: Tree, x: nat, root: nat, m3: Links)
    requires n.Node? && x in m && m[x].fd in m && m[x].bk in m
    requires var (m1, r) := CutOut(m, n, x); var xp := m[x].parent;
      if xp == 0 then m3 == m1
      else
        && (x != root ==> xp in m1)
        && var m2 := if x != root then m1[xp := FixChild(m1[xp], x, r)] else m1;
          if r == 0 then m3 == m2
          else x in m2 && r in m2 && (m2[x].c0 != 0 ==> m2[x].c0 in m2) && (m2[x].c1 != 0 ==> m2[x].c1 in m2) && m3 == MoveUp(m2, x, r, xp)
    ensures m3 == Unlinked(m, n, x, root)
  {
    hide CutOut, MoveUp;
  }

  /** All bins, when a large chunk was unlinked. */
  lemma LargeRemoved(m: Links, m1: Links, roots: seq<nat>, treemap: seq<bool>, trees: seq<Tree>, smallmap: seq<bool>, small: seq<seq<nat>>,
      free: map<nat, nat>, x: nat, root1: nat)
    requires AllOk(m, roots, treemap, trees, smallmap, small, free) && x in free && !IsSmall(free[x]) && NoSlots(m) && 0 !in m1
    requires var b := TreeIndex(free[x]); b < BINS && Rep(m1, root1, TreeSlot(b), Remove(trees[b], x))
    requires forall a :: !Has(trees[TreeIndex(free[x])], a) && a != 0 ==> Kept(m, m1, a)
    ensures var b := TreeIndex(free[x]);
      AllOk(m1, roots[b := root1], treemap[b := root1 != 0], trees[b := Remove(trees[b], x)], smallmap, small, free - {x})
  {
    hide Has, Rep, Trie, Apart, SmallOk, TreeOk, FreeOk, BinOf;
    var b := TreeIndex(free[x]);
    var t := trees[b];
    LargeIndexOf(free, x);
    FreeWithout(free, x);
    assert TreeOk(m, roots[b], treemap[b], b, t, free);
    TreeParts(m, roots[b], treemap[b], b, t, free);
    TreeRemoved(m, m1, roots[b], root1, treemap[b], b, t, free, x);
    assert OnlyBin(m, m1, free, x, TreeBin(b)) by {
      forall a | a != x && !InBin(free, a, TreeBin(b))
        ensures Kept(m, m1, a)
      {
        if a != 0 { assert !Has(t, a); }
      }
    }
    TreeChanged(m, m1, roots, treemap, trees, smallmap, small, free, free - {x}, x, b, root1, root1 != 0, Remove(t, x));
  }

  lemma RemainderIs(size: nat, nb: nat)
    requires size < WORD && 0 < nb < WORD
    ensures size >= nb ==> Remainder(size, nb) == size - nb
    ensures Remainder(size, nb) < WORD - nb <==> size >= nb
  {
  }

  lemma LeftmostTrie(t: Tree, h: nat, p: nat)
    requires t.Node? && Trie(t, h, p)
    ensures Trie(Leftmost(t), if h > 0 then h - 1 else 0, if t.left.Node? then 2 * p else 2 * p + 1)
  {
  }

  lemma LeafParts(m: Links, nb: nat)
    ensures Rep(m, 0, 0, Leaf) && Trie(Leaf, 0, 0) && Apart(Leaf) && AllFit(Leaf, nb) && forall a :: !Has(Leaf, a)
  {
  }

  lemma ExactLeft(t: Tree, nb: nat, u: Tree, w: Tree)
    ensures LeftIn(t, nb, 0, u, w)
  {
    forall q | 0 <= q <= 0 ensures NoBetter(t, nb, q) { ExactBest(t, nb); }
  }

  lemma SizeNotHere(t: Tree, h: nat, p: nat, nb: nat)
    requires t.Node? && Trie(t, h, p) && Shr(nb, h) == p
    ensures h > 0 || t.size == nb
  {
  }

  /** The children of a node are different, unless there are none. */
  lemma SameChild(m: Links, p: nat, par: nat, t: Tree)
    requires t.Node? && Rep(m, p, par, t) && Apart(t)
    ensures p in m && (m[p].c0 == m[p].c1 ==> m[p].c0 == 0)
  {
    hide Has, Rep;
    RepParts(m, p, par, t);
    RepNull(m, m[p].c0, p, t.left);
    RepNull(m, m[p].c1, p, t.right);
    if t.right.Node? { OtherChild(m, p, par, t, true); }
  }

  lemma NodeHas(t: Tree, a: nat)
    requires Has(t, a)
    ensures t.Node?
  {
  }

  lemma InBinIndex(free: map<nat, nat>, a: nat, i: nat)
    requires FreeOk(free)
    ensures InBin(free, a, TreeBin(i)) ==> a in free && 256 <= free[a] < WORD && TreeIndex(free[a]) == i
  {
  }

  /** lj_ffs of the bits from `i` on. */
  function FirstSet(bits: seq<bool>, i: nat): (j: nat)
    requires i <= |bits|
    ensures i <= j <= |bits| && (j < |bits| ==> bits[j]) && forall k :: i <= k < j ==> !bits[k]
    decreases |bits| - i
  {
    if i == |bits| || bits[i] then i else FirstSet(bits, i + 1)
  }

  // -------------------------------------------------- what the bitmaps say

  /** No chunk of a bin has room. */
  predicate BinsFull(free: map<nat, nat>, nb: nat) {
    forall a {:trigger a in free} :: a in free ==> free[a] < nb
  }

  /** Small chunks have no room for large requests. */
  lemma SmallTooSmall(free: map<nat, nat>, nb: nat)
    requires !IsSmall(nb) && forall a :: a in free && !IsSmall(free[a]) ==> free[a] < nb
    ensures BinsFull(free, nb)
  {
  }

  lemma UnmarkedTrees(bins: Bins)
    requires bins.Valid() && forall k :: 0 <= k < BINS && k < |bins.treemap| ==> !bins.treemap[k]
    ensures forall a :: a in bins.free ==> IsSmall(bins.free[a])
  {
    hide AllOk;
    bins.FirstIs();
    forall a | a in bins.free
      ensures IsSmall(bins.free[a])
    {
      if !IsSmall(bins.free[a]) { LargeMarked(bins, a); }
    }
  }

  lemma LargeMarked(bins: Bins, a: nat)
    requires bins.Valid() && a in bins.free && !IsSmall(bins.free[a])
    ensures TreeIndex(bins.free[a]) < BINS == |bins.treemap| && bins.treemap[TreeIndex(bins.free[a])]
  {
    hide AllOk, TreeOk;
    bins.FirstIs();
    var i := TreeIndex(bins.free[a]);
    LargeIndexOf(bins.free, a);
    assert TreeOk(bins.links, bins.treebins[i], bins.treemap[i], i, bins.trees[i], bins.free);
    TreeParts(bins.links, bins.treebins[i], bins.treemap[i], i, bins.trees[i], bins.free);
  }

  lemma SmallMarked(bins: Bins, a: nat)
    requires bins.Valid() && a in bins.free && IsSmall(bins.free[a])
    ensures bins.free[a] / 8 < BINS == |bins.smallmap| && bins.smallmap[bins.free[a] / 8] && bins.free[a] % 8 == 0
  {
    hide AllOk, SmallOk;
    bins.FirstIs();
    var i := bins.free[a] / 8;
    SmallIndex(bins.free, a);
    assert SmallOk(bins.links, bins.smallmap[i], i, bins.small[i], bins.free);
    SmallBinHas(bins.links, bins.smallmap[i], i, bins.small[i], bins.free, a);
  }

  lemma SmallBinHas(m: Links, marked: bool, i: nat, s: seq<nat>, free: map<nat, nat>, a: nat)
    requires SmallOk(m, marked, i, s, free) && InBin(free, a, SmallBin(i))
    ensures marked
  {
  }

  /** What the bitmaps say when no bin has room for a small request. */
  lemma UnmarkedBins(bins: Bins, nb: nat, idx: nat)
    requires bins.Valid() && nb == 8 * idx && forall k :: 0 <= k < BINS && k < |bins.treemap| ==> !bins.treemap[k]
    requires forall k :: idx <= k < BINS && k < |bins.smallmap| ==> !bins.smallmap[k]
    ensures BinsFull(bins.free, nb)
  {
    hide AllOk;
    UnmarkedTrees(bins);
    forall a | a in bins.free
      ensures bins.free[a] < nb
    {
      SmallMarked(bins, a);
    }
  }
}
