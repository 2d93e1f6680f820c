/** What the pointer assignments of insert_large_chunk and unlink_large_chunk (lj_alloc.c) do to
    the trie that lies in memory. */
module AllocRepair {
  import opened AllocSizes
  import opened AllocTree
  import opened AllocLinks

  /** A node whose ring stays and whose subtrees were rebuilt. */
  lemma Rebuild(m: Links, m1: Links, p: nat, par: nat, t: Tree, l: Tree, r: Tree)
    requires t.Node? && Rep(m, p, par, t) && Distinct(t.ring) && p in m1 && m1[p] == m[p].(c0 := m1[p].c0, c1 := m1[p].c1)
    requires forall a :: a in t.ring && a != p ==> a in m && a in m1 && m1[a] == m[a]
    requires Rep(m1, m1[p].c0, p, l) && Rep(m1, m1[p].c1, p, r)
    ensures Rep(m1, p, par, Node(t.ring, t.size, l, r))
  {
    forall i | 0 <= i < |t.ring|
      ensures LinkedHere(m1, t.ring, i) && RingHere(m1, t.ring, t.size, i)
    {
      assert LinkedHere(m, t.ring, i) && RingHere(m, t.ring, t.size, i);
      if i > 0 { DistinctAt(t.ring, i, 0); }
    }
  }

  lemma RepParts(m: Links, p: nat, par: nat, t: Tree)
    requires t.Node? && Rep(m, p, par, t)
    ensures p == t.ring[0] && p in t.ring && p in m && p != 0 && m[p].size == t.size && m[p].parent == par && RingRep(m, t.ring, t.size)
    ensures Rep(m, m[p].c0, p, t.left) && Rep(m, m[p].c1, p, t.right)
  {
    assert RingHere(m, t.ring, t.size, 0);
  }

  lemma {:induction false} RepNull(m: Links, p: nat, par: nat, t: Tree)
    requires Rep(m, p, par, t)
    ensures p == 0 <==> t.Leaf?
  {
    if t.Node? { RepParts(m, p, par, t); }
  }

  // ------------------------------------------------------------------------- inserting

  /** Where the search for a place stops, and how many bits are left there. */
  function StopAt(t: Tree, s: nat, h: nat): (r: (Tree, nat))
    requires t.Node?
    ensures r.0.Node?
    decreases t
  {
    if t.size == s || h == 0 then (t, h)
    else
      var c := if Bit(s, h) == 0 then t.left else t.right;
      if c.Leaf? then (t, h) else StopAt(c, s, h - 1)
  }

  function SetChild(l: Link, right: bool, c: nat): Link {
    if right then l.(c1 := c) else l.(c0 := c)
  }

  /** The assignments: behind a chunk of the same size, or as a child. */
  function PutLinks(m: Links, t: nat, x: nat, s: nat, right: bool): Links
    requires t in m && m[t].fd in m
  {
    if m[t].size == s then InsertBehind(m, t, x, Link(s, 0, 0, 0, 0, 0))
    else m[t := SetChild(m[t], right, x)][x := Link(s, x, x, 0, 0, t)]
  }

  lemma RingOf(m: Links, p: nat, par: nat, t: Tree)
    requires t.Node? && Rep(m, p, par, t)
    ensures p in m && m[p].fd in t.ring && m[p].fd in m
  {
    LinkedAt(m, t.ring, 0);
    LinkedAt(m, t.ring, Succ(0, |t.ring|));
  }

  /** Into the ring of the root. */
  lemma PutRing(m: Links, p: nat, par: nat, t: Tree, x: nat)
    requires t.Node? && Rep(m, p, par, t) && Apart(t) && !Has(t, x) && x != 0
    ensures p in m && m[p].fd in m
    ensures Rep(InsertBehind(m, p, x, Link(t.size, 0, 0, 0, 0, 0)), p, par, t.(ring := RingWith(t.ring, x)))
  {
    hide InsertBehind, Has;
    RepParts(m, p, par, t);
    RingOf(m, p, par, t);
    HasParts(t, x);
    var lx := Link(t.size, 0, 0, 0, 0, 0);
    var m1 := InsertBehind(m, p, x, lx);
    InsertLinked(m, t.ring, x, lx);
    forall a
      ensures (a in m1 <==> a == x || a in m) && (a in m && a != x && a != p && a != m[p].fd ==> m1[a] == m[a])
      ensures a in m && a != x ==> m1[a] == m[a].(fd := m1[a].fd, bk := m1[a].bk)
    {
      InsertBehindAt(m, p, x, lx, a);
    }
    InsertBehindAt(m, p, x, lx, p);
    var r := RingWith(t.ring, x);
    forall i | 0 <= i < |r|
      ensures RingHere(m1, r, t.size, i)
    {
      if i != 1 {
        assert r[i] == t.ring[if i == 0 then 0 else i - 1];
        assert RingHere(m, t.ring, t.size, if i == 0 then 0 else i - 1);
      }
    }
    assert Same(m, m1, t.left) by { forall a | Has(t.left, a) ensures a in m && a in m1 && m1[a] == m[a] { HasParts(t, a); RepHas(m, m[p].c0, p, t.left, a); } }
    assert Same(m, m1, t.right) by { forall a | Has(t.right, a) ensures a in m && a in m1 && m1[a] == m[a] { HasParts(t, a); RepHas(m, m[p].c1, p, t.right, a); } }
    RepFrame(m, m1, m[p].c0, p, t.left);
    RepFrame(m, m1, m[p].c1, p, t.right);
  }

  /** As a child of the root. */
  lemma PutChild(m: Links, p: nat, par: nat, t: Tree, x: nat, s: nat, right: bool)
    requires t.Node? && Rep(m, p, par, t) && Apart(t) && !Has(t, x) && x != 0
    requires if right then t.right.Leaf? else t.left.Leaf?
    ensures p in m
    ensures var m1, n := m[p := SetChild(m[p], right, x)][x := Link(s, x, x, 0, 0, p)], Node([x], s, Leaf, Leaf);
      Rep(m1, p, par, if right then t.(right := n) else t.(left := n))
  {
    hide Has;
    RepParts(m, p, par, t);
    HasParts(t, x);
    var m1 := m[p := SetChild(m[p], right, x)][x := Link(s, x, x, 0, 0, p)];
    var n := Node([x], s, Leaf, Leaf);
    assert LinkedHere(m1, [x], 0) && RingHere(m1, [x], s, 0);
    assert Rep(m1, x, p, n);
    forall a | Has(t.left, a) || Has(t.right, a) || a in t.ring
      ensures a in m && a != x && (a !in t.ring ==> a != p)
    {
      HasParts(t, a);
      RepHas(m, p, par, t, a);
    }
    if right {
      assert Same(m, m1, t.left);
      RepFrame(m, m1, m[p].c0, p, t.left);
      Rebuild(m, m1, p, par, t, t.left, n);
    } else {
      assert Same(m, m1, t.right);
      RepFrame(m, m1, m[p].c1, p, t.right);
      Rebuild(m, m1, p, par, t, n, t.right);
    }
  }

  /** Only the chunk, the node it is put at and its neighbour are written. */
  lemma PutSame(m: Links, t: nat, x: nat, s: nat, right: bool, a: nat)
    requires t in m && m[t].fd in m && x != t && x != m[t].fd && a != x && a != t && a != m[t].fd
    ensures var m1 := PutLinks(m, t, x, s, right); (a in m1 <==> a in m) && (a in m ==> m1[a] == m[a])
  {
    InsertBehindAt(m, t, x, Link(s, 0, 0, 0, 0, 0), a);
  }

  lemma {:induction false} StopHas(t: Tree, s: nat, h: nat, a: nat)
    requires t.Node?
    ensures Has(StopAt(t, s, h).0, a) ==> Has(t, a)
    decreases t
  {
    hide Bit;
    if t.size != s && h > 0 {
      var c := if Bit(s, h) == 0 then t.left else t.right;
      if c.Node? { StopHas(c, s, h - 1, a); }
    }
  }

  lemma {:induction false} StopRep(m: Links, p: nat, par: nat, t: Tree, s: nat, h: nat)
    requires t.Node? && Rep(m, p, par, t)
    ensures var (n, _) := StopAt(t, s, h);
      n.ring != [] && n.ring[0] in m && m[n.ring[0]].fd in m && m[n.ring[0]].fd in n.ring && m[n.ring[0]].size == n.size
    decreases t
  {
    hide Bit;
    RepParts(m, p, par, t);
    RingOf(m, p, par, t);
    if t.size != s && h > 0 {
      if Bit(s, h) == 0 {
        if t.left.Node? { StopRep(m, m[p].c0, p, t.left, s, h - 1); }
      } else {
        if t.right.Node? { StopRep(m, m[p].c1, p, t.right, s, h - 1); }
      }
    }
  }

  /** The assignments at the place where the search stops insert the chunk into the trie. */
  lemma {:induction false} PutRep(m: Links, p: nat, par: nat, t: Tree, x: nat, s: nat, h: nat, pf: nat)
    requires t.Node? && Rep(m, p, par, t) && Apart(t) && Trie(t, h, pf) && Shr(s, h) == pf && !Has(t, x) && x != 0
    ensures var (n, hn) := StopAt(t, s, h);
      && n.ring != [] && n.ring[0] in m && m[n.ring[0]].fd in m
      && Rep(PutLinks(m, n.ring[0], x, s, hn > 0 && Bit(s, hn) != 0), p, par, Insert(t, x, s, h))
    decreases t
  {
    hide Shr, Bit, Has, SizeOf, NoSize, InsertBehind, Rep, RingWith, PutLinks;
    RepParts(m, p, par, t);
    RingOf(m, p, par, t);
    StopRep(m, p, par, t, s, h);
    if t.size == s {
      PutRing(m, p, par, t, x);
      PutIs(m, p, x, s, h > 0 && Bit(s, h) != 0);
    } else {
      InsertDown(s, h, pf);
      InsertDown(t.size, h, pf);
      var right := Bit(s, h) != 0;
      var c := if right then t.right else t.left;
      if c.Leaf? {
        PutChild(m, p, par, t, x, s, right);
        PutIs(m, p, x, s, right);
        assert Insert(c, x, s, h - 1) == Node([x], s, Leaf, Leaf);
      } else {
        HasParts(t, x);
        PutRep(m, if right then m[p].c1 else m[p].c0, p, c, x, s, h - 1, if right then 2 * pf + 1 else 2 * pf);
        PutBelow(m, p, par, t, x, s, h, right);
      }
    }
  }

  lemma PutIs(m: Links, t: nat, x: nat, s: nat, right: bool)
    requires t in m && m[t].fd in m
    ensures m[t].size == s ==> PutLinks(m, t, x, s, right) == InsertBehind(m, t, x, Link(s, 0, 0, 0, 0, 0))
    ensures m[t].size != s ==> PutLinks(m, t, x, s, right) == m[t := SetChild(m[t], right, x)][x := Link(s, x, x, 0, 0, t)]
  {
  }

  /** Nothing changes outside the subtree into which the chunk is put. */
  lemma PutBelow(m: Links, p: nat, par: nat, t: Tree, x: nat, s: nat, h: nat, right: bool)
    requires t.Node? && Rep(m, p, par, t) && Apart(t) && !Has(t, x) && h > 0 && t.size != s && right == (Bit(s, h) != 0)
    requires var c := if right then t.right else t.left; c.Node?
    requires var c := if right then t.right else t.left; var (n, hn) := StopAt(c, s, h - 1);
      && n.ring != [] && n.ring[0] in m && m[n.ring[0]].fd in m && m[n.ring[0]].fd in n.ring && p in m
      && Rep(PutLinks(m, n.ring[0], x, s, hn > 0 && Bit(s, hn) != 0), if right then m[p].c1 else m[p].c0, p, Insert(c, x, s, h - 1))
    ensures var (n, hn) := StopAt(t, s, h);
      && n.ring != [] && n.ring[0] in m && m[n.ring[0]].fd in m
      && Rep(PutLinks(m, n.ring[0], x, s, hn > 0 && Bit(s, hn) != 0), p, par, Insert(t, x, s, h))
  {
    hide Bit, Has, SizeOf, NoSize, PutLinks, Rep;
    var c, o := if right then t.right else t.left, if right then t.left else t.right;
    var (n, hn) := StopAt(c, s, h - 1);
    var m1 := PutLinks(m, n.ring[0], x, s, hn > 0 && Bit(s, hn) != 0);
    RepParts(m, p, par, t);
    HasParts(t, x);
    forall a | a in n.ring ensures Has(c, a) { HasParts(n, a); StopHas(c, s, h - 1, a); }
    forall a | a in t.ring || Has(o, a)
      ensures a in m && a in m1 && m1[a] == m[a]
    {
      HasParts(t, a);
      HasParts(t, n.ring[0]);
      HasParts(t, m[n.ring[0]].fd);
      RepHas(m, p, par, t, a);
      PutSame(m, n.ring[0], x, s, hn > 0 && Bit(s, hn) != 0, a);
    }
    assert Same(m, m1, o);
    if right {
      RepFrame(m, m1, m[p].c0, p, t.left);
      Rebuild(m, m1, p, par, t, t.left, Insert(t.right, x, s, h - 1));
    } else {
      RepFrame(m, m1, m[p].c1, p, t.right);
      Rebuild(m, m1, p, par, t, Insert(t.left, x, s, h - 1), t.right);
    }
  }
}
