/** What the pointer assignments of unlink_large_chunk (lj_alloc.c) do to the trie that lies in
    memory. */
module AllocUnlink {
  import opened AllocSizes
  import opened AllocTree
  import opened AllocLinks
  import opened AllocRepair

  /** A child pointer that was `x` becomes `r`. */
  function FixChild(l: Link, x: nat, r: nat): Link { if l.c0 == x then l.(c0 := r) else l.(c1 := r) }

  // ---------------------------------------------------------- taking out the last node

  /** The last node has a parent in the tree, and no children. */
  lemma {:induction false} LastAt(m: Links, p: nat, par: nat, t: Tree)
    requires t.Node? && Rep(m, p, par, t) && Apart(t)
    ensures Last(t).ring != [] && RingRep(m, Last(t).ring, Last(t).size) && Distinct(Last(t).ring)
    ensures var r := Last(t).ring[0]; r in m && r != 0 && m[r].c0 == 0 && m[r].c1 == 0 && Has(t, r)
    ensures var r := Last(t).ring[0]; if t.left.Leaf? && t.right.Leaf? then r == p && m[r].parent == par else m[r].parent in m && Has(t, m[r].parent)
    decreases t
  {
    hide Has, RingRep;
    RepParts(m, p, par, t);
    RepNull(m, m[p].c0, p, t.left);
    RepNull(m, m[p].c1, p, t.right);
    HasParts(t, p);
    if t.right.Node? {
      LastAt(m, m[p].c1, p, t.right);
      HasParts(t, Last(t).ring[0]);
      HasParts(t, m[Last(t).ring[0]].parent);
    } else if t.left.Node? {
      LastAt(m, m[p].c0, p, t.left);
      HasParts(t, Last(t).ring[0]);
      HasParts(t, m[Last(t).ring[0]].parent);
    }
  }

  /** Clearing the pointer to the last node takes it out. */
  lemma {:induction false} CutLast(m: Links, p: nat, par: nat, t: Tree)
    requires t.Node? && Rep(m, p, par, t) && Apart(t) && (t.left.Node? || t.right.Node?)
    ensures var r := Last(t).ring; r != [] && r[0] in m && m[r[0]].parent in m
    ensures var r := Last(t).ring[0]; var o := m[r].parent; Has(t, o) && Rep(m[o := FixChild(m[o], r, 0)], p, par, WithoutLast(t))
    decreases t
  {
    hide Has, RingRep, Rep;
    LastAt(m, p, par, t);
    RepParts(m, p, par, t);
    var right := t.right.Node?;
    var c := if right then t.right else t.left;
    var cp := if right then m[p].c1 else m[p].c0;
    LastAt(m, cp, p, c);
    RepParts(m, cp, p, c);
    RepNull(m, m[p].c0, p, t.left);
    RepNull(m, m[p].c1, p, t.right);
    var r := Last(t).ring[0];
    var o := m[r].parent;
    var m1 := m[o := FixChild(m[o], r, 0)];
    HasParts(c, cp);
    if c.left.Leaf? && c.right.Leaf? {
      OtherChild(m, p, par, t, right);
      CutSame(m, p, par, t, right, o, m1);
      LeafRep(m1, p);
      CutChild(m, p, par, t, right, Leaf, m1);
    } else {
      CutLast(m, cp, p, c);
      NotRoot(m, p, par, t, right, o);
      CutSame(m, p, par, t, right, o, m1);
      CutChild(m, p, par, t, right, WithoutLast(c), m1);
    }
  }

  lemma LeafRep(m: Links, par: nat)
    ensures Rep(m, 0, par, Leaf)
  {
  }

  lemma CutSame(m: Links, p: nat, par: nat, t: Tree, right: bool, o: nat, m1: Links)
    requires t.Node? && Rep(m, p, par, t) && Apart(t) && o in m && o in m1 && m1 == m[o := m1[o]]
    requires o == p || Has(if right then t.right else t.left, o)
    ensures forall a :: a in t.ring && a != p ==> a in m && a in m1 && m1[a] == m[a]
    ensures Same(m, m1, if right then t.left else t.right)
  {
    hide Has;
    RepParts(m, p, par, t);
    var other := if right then t.left else t.right;
    forall a | a in t.ring || Has(other, a)
      ensures a in m && (a == o ==> a == p && a in t.ring)
    {
      HasParts(t, a);
      RepHas(m, p, par, t, a);
    }
  }

  lemma NotRoot(m: Links, p: nat, par: nat, t: Tree, right: bool, o: nat)
    requires t.Node? && Rep(m, p, par, t) && Apart(t) && Has(if right then t.right else t.left, o)
    ensures o !in t.ring && !Has(if right then t.left else t.right, o)
  {
    hide Has;
  }

  /** The two children of a node are different. */
  lemma OtherChild(m: Links, p: nat, par: nat, t: Tree, right: bool)
    requires t.Node? && Rep(m, p, par, t) && Apart(t) && (if right then t.right.Node? else t.left.Node?)
    ensures p in m && m[p].c0 != m[p].c1
    ensures p != m[p].c0 && p != m[p].c1
  {
    hide Has;
    RepParts(m, p, par, t);
    RepNull(m, m[p].c0, p, t.left);
    RepNull(m, m[p].c1, p, t.right);
    if t.left.Node? { RepParts(m, m[p].c0, p, t.left); HasParts(t.left, m[p].c0); }
    if t.right.Node? { RepParts(m, m[p].c1, p, t.right); HasParts(t.right, m[p].c1); }
  }

  /** A subtree is replaced, and only the root's pointer to it and the subtree are written. */
  lemma CutChild(m: Links, p: nat, par: nat, t: Tree, right: bool, u: Tree, m1: Links)
    requires t.Node? && Rep(m, p, par, t) && Apart(t) && p in m1
    requires m1[p] == SetChild(m[p], right, if right then m1[p].c1 else m1[p].c0)
    requires forall a :: a in t.ring && a != p ==> a in m && a in m1 && m1[a] == m[a]
    requires Same(m, m1, if right then t.left else t.right)
    requires Rep(m1, if right then m1[p].c1 else m1[p].c0, p, u)
    ensures Rep(m1, p, par, if right then t.(right := u) else t.(left := u))
  {
    hide Has, RingRep, Same;
    RepParts(m, p, par, t);
    if right {
      RepFrame(m, m1, m[p].c0, p, t.left);
      Rebuild(m, m1, p, par, t, t.left, u);
    } else {
      RepFrame(m, m1, m[p].c1, p, t.right);
      Rebuild(m, m1, p, par, t, u, t.right);
    }
  }

  // ------------------------------------------------------------------- taking a place

  /** R takes the place of X: parent and children. */
  function MoveUp(m: Links, x: nat, r: nat, xp: nat): Links
    requires x in m && r in m && (m[x].c0 != 0 ==> m[x].c0 in m) && (m[x].c1 != 0 ==> m[x].c1 in m)
  {
    var c0, c1 := m[x].c0, m[x].c1;
    var m1 := m[r := m[r].(parent := xp, c0 := if c0 != 0 then c0 else m[r].c0, c1 := if c1 != 0 then c1 else m[r].c1)];
    var m2 := if c0 != 0 then m1[c0 := m1[c0].(parent := r)] else m1;
    if c1 != 0 then m2[c1 := m2[c1].(parent := r)] else m2
  }

  lemma MoveUpSame(m: Links, x: nat, r: nat, xp: nat, a: nat)
    requires x in m && r in m && (m[x].c0 != 0 ==> m[x].c0 in m) && (m[x].c1 != 0 ==> m[x].c1 in m)
    requires a != r && a != m[x].c0 && a != m[x].c1 && a != 0
    ensures var m1 := MoveUp(m, x, r, xp); (a in m1 <==> a in m) && (a in m ==> m1[a] == m[a])
  {
  }

  /** A root with another parent. */
  lemma Reparent(m: Links, p: nat, par: nat, q: nat, t: Tree)
    requires Rep(m, p, par, t) && Apart(t) && (t.Node? ==> p in m)
    ensures t.Node? ==> Rep(m[p := m[p].(parent := q)], p, q, t)
  {
    if t.Node? {
      hide Has;
      RepParts(m, p, par, t);
      var m1 := m[p := m[p].(parent := q)];
      ReparentSame(m, p, par, t, m1);
      RepFrame(m, m1, m[p].c0, p, t.left);
      RepFrame(m, m1, m[p].c1, p, t.right);
      forall i | 0 <= i < |t.ring|
        ensures LinkedHere(m1, t.ring, i) && RingHere(m1, t.ring, t.size, i)
      {
        assert LinkedHere(m, t.ring, i) && RingHere(m, t.ring, t.size, i);
        if i > 0 { DistinctAt(t.ring, i, 0); }
      }
    }
  }

  lemma ReparentSame(m: Links, p: nat, par: nat, t: Tree, m1: Links)
    requires t.Node? && Rep(m, p, par, t) && Apart(t) && p in m && p in m1 && m1 == m[p := m1[p]]
    ensures Same(m, m1, t.left) && Same(m, m1, t.right)
  {
    hide Has;
    RepParts(m, p, par, t);
    forall a | Has(t.left, a) || Has(t.right, a)
      ensures a in m && a != p
    {
      HasParts(t, a);
      RepHas(m, p, par, t, a);
    }
  }

  /** A subtree keeps its place in memory when something outside it is written. */
  lemma RepOutside(m: Links, m1: Links, p: nat, par: nat, t: Tree, o: nat)
    requires Rep(m, p, par, t) && o in m1 && m1 == m[o := m1[o]] && !Has(t, o)
    ensures Rep(m1, p, par, t)
  {
    forall a | Has(t, a) ensures a in m { RepHas(m, p, par, t, a); }
    RepFrame(m, m1, p, par, t);
  }

  /** Two subtrees and a ring, each apart from the others. */
  ghost predicate ThreeApart(ring: seq<nat>, l: Tree, r: Tree) {
    ring != [] && Distinct(ring) && RingApart(ring, l) && RingApart(ring, r) && Disjoint(l, r) && Apart(l) && Apart(r)
  }

  lemma MoveUpRep(m: Links, x: nat, xp: nat, ring: seq<nat>, size: nat, l: Tree, r: Tree)
    requires x in m && ThreeApart(ring, l, r) && RingRep(m, ring, size) && Rep(m, m[x].c0, x, l) && Rep(m, m[x].c1, x, r)
    requires ring[0] in m && m[ring[0]].c0 == 0 && m[ring[0]].c1 == 0
    ensures (m[x].c0 != 0 ==> m[x].c0 in m) && (m[x].c1 != 0 ==> m[x].c1 in m)
    ensures Rep(MoveUp(m, x, ring[0], xp), ring[0], xp, Node(ring, size, l, r))
  {
    hide Has, Rep, RingRep, Distinct;
    var c0, c1, y := m[x].c0, m[x].c1, ring[0];
    RepNull(m, c0, x, l);
    RepNull(m, c1, x, r);
    if l.Node? { RepParts(m, c0, x, l); HasParts(l, c0); }
    if r.Node? { RepParts(m, c1, x, r); HasParts(r, c1); }
    assert y in ring;
    var m1 := m[y := m[y].(parent := xp, c0 := c0, c1 := c1)];
    RepOutside(m, m1, c0, x, l, y);
    RepOutside(m, m1, c1, x, r, y);
    Reparent(m1, c0, x, y, l);
    var m2 := if c0 != 0 then m1[c0 := m1[c0].(parent := y)] else m1;
    if c0 != 0 { RepOutside(m1, m2, c1, x, r, c0); } else { LeafAny(m2, y); }
    Reparent(m2, c1, x, y, r);
    var m3 := if c1 != 0 then m2[c1 := m2[c1].(parent := y)] else m2;
    if c1 != 0 { RepOutside(m2, m3, c0, y, l, c1); } else { LeafAny(m3, y); }
    assert m3 == MoveUp(m, x, y, xp);
    forall a | a in ring && a != y
      ensures a in m && a in m3 && m3[a] == m[a]
    {
      RingIn(m, ring, size, a);
    }
    RingMoved(m, m3, ring, size);
    NodeRep(m3, y, xp, ring, size, l, r);
  }

  lemma LeafAny(m: Links, par: nat)
    ensures Rep(m, 0, par, Leaf)
  {
  }

  lemma NodeRep(m: Links, y: nat, xp: nat, ring: seq<nat>, size: nat, l: Tree, r: Tree)
    requires ring != [] && y == ring[0] && y in m && RingRep(m, ring, size) && m[y].parent == xp && Rep(m, m[y].c0, y, l) && Rep(m, m[y].c1, y, r)
    ensures Rep(m, y, xp, Node(ring, size, l, r))
  {
  }

  /** Parent and children of the first chunk may change. */
  lemma RingMoved(m: Links, m1: Links, ring: seq<nat>, size: nat)
    requires ring != [] && Distinct(ring) && RingRep(m, ring, size)
    requires ring[0] in m && ring[0] in m1 && m1[ring[0]] == m[ring[0]].(parent := m1[ring[0]].parent, c0 := m1[ring[0]].c0, c1 := m1[ring[0]].c1)
    requires forall a :: a in ring && a != ring[0] ==> a in m && a in m1 && m1[a] == m[a]
    ensures RingRep(m1, ring, size)
  {
    forall i | 0 <= i < |ring|
      ensures LinkedHere(m1, ring, i) && RingHere(m1, ring, size, i)
    {
      assert LinkedHere(m, ring, i) && RingHere(m, ring, size, i);
      if i > 0 { DistinctAt(ring, i, 0); }
    }
  }

  // ---------------------------------------------------------------- out of a larger ring

  /** Cutting a chunk out of its node's ring writes only fd and bk of the ring. */
  lemma CutSmaller(m: Links, p: nat, par: nat, t: Tree, x: nat)
    requires t.Node? && Rep(m, p, par, t) && Apart(t) && x in t.ring && |t.ring| > 1
    ensures x in m && m[x].fd in m && m[x].bk in m && p in m
    ensures var m1, ring := CutRing(m, x), RingWithout(t.ring, IndexOf(t.ring, x));
      RingRep(m1, ring, t.size) && Rep(m1, m[p].c0, p, t.left) && Rep(m1, m[p].c1, p, t.right)
    ensures forall a :: a in m ==> a in CutRing(m, x) && CutRing(m, x)[a] == m[a].(fd := CutRing(m, x)[a].fd, bk := CutRing(m, x)[a].bk)
    ensures forall a :: a in m && a !in t.ring ==> CutRing(m, x)[a] == m[a]
    ensures if x == p then m[x].bk == RingWithout(t.ring, IndexOf(t.ring, x))[0] && m[x].bk != p else p == RingWithout(t.ring, IndexOf(t.ring, x))[0]
  {
    hide Has, CutRing, RingWithout, Linked;
    var i := IndexOf(t.ring, x);
    RepParts(m, p, par, t);
    LinkedAt(m, t.ring, i);
    LinkedAt(m, t.ring, Succ(i, |t.ring|));
    LinkedAt(m, t.ring, Pred(i, |t.ring|));
    CutLinked(m, t.ring, i);
    var m1 := CutRing(m, x);
    forall a
      ensures a in m ==> a in m1 && m1[a] == m[a].(fd := m1[a].fd, bk := m1[a].bk)
      ensures a in m && a !in t.ring ==> m1[a] == m[a]
    {
      CutRingAt(m, x, a);
    }
    CutRingHere(m, t, x, m1);
    assert Same(m, m1, t.left) by { forall a | Has(t.left, a) ensures a in m && a !in t.ring { RepHas(m, m[p].c0, p, t.left, a); } }
    assert Same(m, m1, t.right) by { forall a | Has(t.right, a) ensures a in m && a !in t.ring { RepHas(m, m[p].c1, p, t.right, a); } }
    RepFrame(m, m1, m[p].c0, p, t.left);
    RepFrame(m, m1, m[p].c1, p, t.right);
    RingWithoutAt(t.ring, i, 0);
    if i > 0 { DistinctAt(t.ring, i, 0); } else { DistinctAt(t.ring, |t.ring| - 1, 0); }
  }

  lemma CutRingHere(m: Links, t: Tree, x: nat, m1: Links)
    requires t.Node? && RingRep(m, t.ring, t.size) && Distinct(t.ring) && x in t.ring && |t.ring| > 1
    requires forall a :: a in m ==> a in m1 && m1[a] == m[a].(fd := m1[a].fd, bk := m1[a].bk)
    ensures var ring := RingWithout(t.ring, IndexOf(t.ring, x)); forall k :: 0 <= k < |ring| ==> RingHere(m1, ring, t.size, k)
  {
    hide RingWithout, Linked;
    var i := IndexOf(t.ring, x);
    var ring := RingWithout(t.ring, i);
    forall k | 0 <= k < |ring|
      ensures RingHere(m1, ring, t.size, k)
    {
      RingWithoutAt(t.ring, i, k);
      assert RingHere(m, t.ring, t.size, OldIndex(|t.ring|, i, k));
    }
  }

  /** Out of a ring that has other chunks: the first chunk's place goes to the last. */
  lemma UnlinkRing(m: Links, p: nat, par: nat, t: Tree, x: nat)
    requires t.Node? && Rep(m, p, par, t) && Apart(t) && x in t.ring && |t.ring| > 1
    ensures x in m && m[x].fd in m && m[x].bk in m && p in m
    ensures x != p ==> Rep(CutRing(m, x), p, par, Remove(t, x))
    ensures x == p ==> var m1 := CutRing(m, x);
      && (m1[x].c0 != 0 ==> m1[x].c0 in m1) && (m1[x].c1 != 0 ==> m1[x].c1 in m1) && Rep(MoveUp(m1, x, m[x].bk, par), m[x].bk, par, Remove(t, x))
  {
    hide Has, CutRing, RingWithout, MoveUp, Rep, RingRep;
    RepParts(m, p, par, t);
    CutSmaller(m, p, par, t, x);
    var m1 := CutRing(m, x);
    var ring := RingWithout(t.ring, IndexOf(t.ring, x));
    if x == p {
      RingSmaller(t, x);
      assert m[x].bk in t.ring by { LinkedLast(m, t, x); }
      LastNoChild(m, t, x);
      MoveUpRep(m1, x, par, ring, t.size, t.left, t.right);
    } else {
      NodeRep(m1, p, par, ring, t.size, t.left, t.right);
    }
  }

  lemma LinkedLast(m: Links, t: Tree, x: nat)
    requires t.Node? && RingRep(m, t.ring, t.size) && x in t.ring && x in m
    ensures m[x].bk in t.ring
  {
    LinkedAt(m, t.ring, IndexOf(t.ring, x));
  }

  lemma LastNoChild(m: Links, t: Tree, x: nat)
    requires t.Node? && RingRep(m, t.ring, t.size) && Distinct(t.ring) && |t.ring| > 1 && x == t.ring[0] && x in m
    ensures m[x].bk in m && m[m[x].bk].c0 == 0 && m[m[x].bk].c1 == 0
  {
    LinkedAt(m, t.ring, 0);
    assert RingHere(m, t.ring, t.size, |t.ring| - 1);
  }

  lemma RingSmaller(t: Tree, x: nat)
    requires t.Node? && Apart(t) && x in t.ring && |t.ring| > 1
    ensures ThreeApart(RingWithout(t.ring, IndexOf(t.ring, x)), t.left, t.right)
  {
    hide Has, RingWithout;
    var i := IndexOf(t.ring, x);
    RingWithoutDistinct(t.ring, i);
    forall a ensures a in RingWithout(t.ring, i) ==> a in t.ring { RingWithoutHas(t.ring, i, a); }
  }

  // ------------------------------------------------------------- a node of a single chunk

  /** A node without children just goes. */
  lemma UnlinkLeaf(m: Links, p: nat, par: nat, t: Tree)
    requires t.Node? && Rep(m, p, par, t) && Apart(t) && |t.ring| == 1 && t.left.Leaf? && t.right.Leaf?
    ensures Remove(t, p) == Leaf
  {
    RepParts(m, p, par, t);
  }

  /** The last node below takes the place of a node of a single chunk. */
  lemma UnlinkSingle(m: Links, p: nat, par: nat, t: Tree)
    requires t.Node? && Rep(m, p, par, t) && Apart(t) && |t.ring| == 1 && (t.left.Node? || t.right.Node?)
    ensures var r := Last(t).ring; r != [] && r[0] in m && m[r[0]].parent in m
    ensures var r := Last(t).ring[0]; var o := m[r].parent; var m1 := m[o := FixChild(m[o], r, 0)];
      p in m1 && (m1[p].c0 != 0 ==> m1[p].c0 in m1) && (m1[p].c1 != 0 ==> m1[p].c1 in m1) && Rep(MoveUp(m1, p, r, par), r, par, Remove(t, p))
  {
    hide Has, MoveUp, Rep, RingRep, Distinct, RingApart, Disjoint;
    RepParts(m, p, par, t);
    LastAt(m, p, par, t);
    CutLast(m, p, par, t);
    var n := Last(t);
    var r := n.ring[0];
    var o := m[r].parent;
    var m1 := m[o := FixChild(m[o], r, 0)];
    var u := WithoutLast(t);
    RepParts(m1, p, par, u);
    LastThree(t);
    assert r in n.ring;
    CutKeepsLast(m, p, par, t, o, m1);
    MoveUpRep(m1, p, par, n.ring, n.size, u.left, u.right);
    JoinIs(t);
  }

  lemma JoinIs(t: Tree)
    requires t.Node? && |t.ring| == 1 && (t.left.Node? || t.right.Node?)
    ensures WithoutLast(t).Node? && Remove(t, t.ring[0]) == Node(Last(t).ring, Last(t).size, WithoutLast(t).left, WithoutLast(t).right)
  {
  }

  lemma LastThree(t: Tree)
    requires t.Node? && Apart(t) && (t.left.Node? || t.right.Node?)
    requires Last(t).ring != [] && Distinct(Last(t).ring)
    ensures WithoutLast(t).Node? && ThreeApart(Last(t).ring, WithoutLast(t).left, WithoutLast(t).right)
  {
    hide Has, Distinct;
    LastApart(t);
    forall a | a in Last(t).ring
      ensures !Has(WithoutLast(t).left, a) && !Has(WithoutLast(t).right, a)
    {
      LastHas(t, a);
      HasParts(WithoutLast(t), a);
    }
  }

  /** The last node's parent is not in its ring. */
  lemma CutKeepsLast(m: Links, p: nat, par: nat, t: Tree, o: nat, m1: Links)
    requires t.Node? && Rep(m, p, par, t) && Apart(t) && (t.left.Node? || t.right.Node?)
    requires Last(t).ring != [] && RingRep(m, Last(t).ring, Last(t).size) && Distinct(Last(t).ring)
    requires o in m1 && m1 == m[o := m1[o]] && o == (if Last(t).ring[0] in m then m[Last(t).ring[0]].parent else 0)
    requires o in m && WithoutLast(t).Node? && Rep(m1, p, par, WithoutLast(t))
    ensures var r := Last(t).ring[0]; RingRep(m1, Last(t).ring, Last(t).size) && r in m && r in m1 && m1[r] == m[r]
  {
    hide Has, RingRep;
    var ring := Last(t).ring;
    LastParent(m, p, par, t);
    LastHas(t, o);
    assert o !in ring;
    forall a | a in ring ensures a in m && a in m1 && m1[a] == m[a] { RingIn(m, ring, Last(t).size, a); }
    assert ring[0] in ring;
    RingMoved(m, m1, ring, Last(t).size);
  }

  lemma RingIn(m: Links, ring: seq<nat>, size: nat, a: nat)
    requires RingRep(m, ring, size) && a in ring
    ensures a in m
  {
    assert RingHere(m, ring, size, IndexOf(ring, a));
  }

  lemma {:induction false} LastParent(m: Links, p: nat, par: nat, t: Tree)
    requires t.Node? && Rep(m, p, par, t) && Apart(t) && (t.left.Node? || t.right.Node?)
    ensures Last(t).ring != [] && Last(t).ring[0] in m && Has(WithoutLast(t), m[Last(t).ring[0]].parent)
    decreases t
  {
    hide Has, RingRep;
    LastAt(m, p, par, t);
    RepParts(m, p, par, t);
    var right := t.right.Node?;
    var c := if right then t.right else t.left;
    HasParts(WithoutLast(t), p);
    LastAt(m, if right then m[p].c1 else m[p].c0, p, c);
    HasParts(WithoutLast(t), m[Last(t).ring[0]].parent);
    if c.left.Node? || c.right.Node? { LastParent(m, if right then m[p].c1 else m[p].c0, p, c); }
  }

  // ---------------------------------------------------------------- seen from the root

  /** The node that holds a chunk. */
  function NodeOf(t: Tree, x: nat): (n: Tree)
    requires Has(t, x)
    ensures n.Node? && x in n.ring
    decreases t
  {
    if x in t.ring then t else if Has(t.left, x) then NodeOf(t.left, x) else NodeOf(t.right, x)
  }

  lemma {:induction false} NodeOfHas(t: Tree, x: nat, a: nat)
    requires Has(t, x)
    ensures Has(NodeOf(t, x), a) ==> Has(t, a)
    decreases t
  {
    if x !in t.ring { if Has(t.left, x) { NodeOfHas(t.left, x, a); } else { NodeOfHas(t.right, x, a); } }
  }

  /** The node lies in memory, below the parent of its first chunk. */
  lemma {:induction false} NodeOfRep(m: Links, p: nat, par: nat, t: Tree, x: nat)
    requires Rep(m, p, par, t) && Has(t, x) && Apart(t)
    ensures Apart(NodeOf(t, x))
    ensures var q := NodeOf(t, x).ring[0]; q in m && Rep(m, q, m[q].parent, NodeOf(t, x)) && Has(t, q)
    ensures var q := NodeOf(t, x).ring[0]; if q == p then m[q].parent == par && NodeOf(t, x) == t else Has(t, m[q].parent) && m[q].parent in m
    decreases t
  {
    hide Has, Rep, RingRep;
    HasParts(t, x);
    RepParts(m, p, par, t);
    HasParts(t, p);
    if x !in t.ring {
      var right := !Has(t.left, x);
      NodeOfRep(m, if right then m[p].c1 else m[p].c0, p, if right then t.right else t.left, x);
      HasParts(t, NodeOf(t, x).ring[0]);
      HasParts(t, m[NodeOf(t, x).ring[0]].parent);
    }
  }

  /** Memory `m1` is `m` with the node of `x` rebuilt, and the pointer from above set to `r` if
      `x` was its first chunk. */
  ghost predicate Repaired(m: Links, m1: Links, t: Tree, x: nat, r: nat)
    requires Has(t, x)
  {
    var n := NodeOf(t, x);
    && n.ring != [] && n.ring[0] in m && x in m
    && Rep(m1, if x == n.ring[0] then r else n.ring[0], m[n.ring[0]].parent, Remove(n, x))
    && forall a :: Has(t, a) && !Has(n, a) ==>
      a in m && a in m1 && m1[a] == if x == n.ring[0] && a == m[x].parent then FixChild(m[a], x, r) else m[a]
  }

  /** Then the chunk is unlinked from the whole trie. */
  lemma {:induction false} RepairedRep(m: Links, m1: Links, p: nat, par: nat, t: Tree, x: nat, r: nat)
    requires Rep(m, p, par, t) && Apart(t) && Has(t, x) && Repaired(m, m1, t, x, r)
    ensures Rep(m1, if x == p then r else p, par, Remove(t, x))
    decreases t
  {
    hide Has, Rep, RingRep, Remove;
    HasParts(t, x);
    RepParts(m, p, par, t);
    NodeOfRep(m, p, par, t, x);
    if x !in t.ring {
      var right := !Has(t.left, x);
      var c, cp := if right then t.right else t.left, if right then m[p].c1 else m[p].c0;
      NodeOfRep(m, cp, p, c, x);
      RepairedBelow(m, m1, p, par, t, x, r);
      RepairedRep(m, m1, cp, p, c, x, r);
      RepairedRoot(m, m1, p, par, t, x, r);
      CutChild(m, p, par, t, right, Remove(c, x), m1);
      RemoveBelow(t, x);
    }
  }

  lemma RemoveBelow(t: Tree, x: nat)
    requires t.Node? && x !in t.ring
    ensures Remove(t, x) == if Has(t.left, x) then t.(left := Remove(t.left, x)) else t.(right := Remove(t.right, x))
  {
  }

  lemma RepairedBelow(m: Links, m1: Links, p: nat, par: nat, t: Tree, x: nat, r: nat)
    requires t.Node? && Rep(m, p, par, t) && Apart(t) && Has(t, x) && x !in t.ring && Repaired(m, m1, t, x, r)
    ensures Repaired(m, m1, if Has(t.left, x) then t.left else t.right, x, r)
  {
    hide Rep, Remove;
    var c := if Has(t.left, x) then t.left else t.right;
    hide Has;
    assert NodeOf(t, x) == NodeOf(c, x);
    forall a | Has(c, a) ensures Has(t, a) { HasParts(t, a); }
  }

  /** Of what is above only the pointer is written. */
  lemma RepairedRoot(m: Links, m1: Links, p: nat, par: nat, t: Tree, x: nat, r: nat)
    requires t.Node? && Rep(m, p, par, t) && Apart(t) && Has(t, x) && x !in t.ring && Repaired(m, m1, t, x, r)
    ensures var right := !Has(t.left, x); var cp := if p !in m then 0 else if right then m[p].c1 else m[p].c0;
      && p in m && p in m1 && m1[p] == SetChild(m[p], right, if x == cp then r else cp)
      && (forall a :: a in t.ring && a != p ==> a in m && a in m1 && m1[a] == m[a])
      && Same(m, m1, if right then t.left else t.right)
  {
    hide Rep, RingRep, Remove;
    var right := !Has(t.left, x);
    var c, o := if right then t.right else t.left, if right then t.left else t.right;
    RepParts(m, p, par, t);
    var cp := if right then m[p].c1 else m[p].c0;
    NodeOfRep(m, cp, p, c, x);
    OtherChild(m, p, par, t, right) by { if right { } }
    var n := NodeOf(t, x);
    assert n == NodeOf(c, x);
    hide Has, NodeOf;
    RepHasParent(m, p, par, t, x);
    forall a | a in t.ring || Has(o, a)
      ensures Has(t, a) && !Has(n, a) && (a != p && x == n.ring[0] ==> a != m[x].parent)
    {
      HasParts(t, a);
      HasParts(t, m[x].parent);
      NodeOfHas(c, x, a);
    }
  }

  /** The parent of a chunk below the root is the root or below it on the same side. */
  lemma RepHasParent(m: Links, p: nat, par: nat, t: Tree, x: nat)
    requires t.Node? && Rep(m, p, par, t) && Apart(t) && Has(t, x) && x !in t.ring && p in m
    ensures var right := !Has(t.left, x); var c, cp := if right then t.right else t.left, if right then m[p].c1 else m[p].c0;
      x in m && (x == NodeOf(c, x).ring[0] ==> if x == cp then m[x].parent == p else Has(c, m[x].parent))
      && Has(c, x) && x != p
  {
    hide Rep, RingRep;
    RepParts(m, p, par, t);
    var right := !Has(t.left, x);
    var c, cp := if right then t.right else t.left, if right then m[p].c1 else m[p].c0;
    NodeOfRep(m, cp, p, c, x);
    RepHas(m, p, par, t, x);
  }

  // -------------------------------------------------------------- all of the assignments

  /** The first half: the chunk is cut out of its ring, or the last node below is taken out. The
      second result takes the chunk's place, 0 if nothing does. */
  function CutOut(m: Links, n: Tree, x: nat): (Links, nat)
    requires n.Node? && x in m && m[x].fd in m && m[x].bk in m
  {
    if |n.ring| > 1 then (CutRing(m, x), m[x].bk)
    else if n.left.Leaf? && n.right.Leaf? then (m, 0)
    else
      var r := if Last(n).ring == [] then 0 else Last(n).ring[0];
      if r in m && m[r].parent in m then (m[m[r].parent := FixChild(m[m[r].parent], r, 0)], r) else (m, 0)
  }

  /** The second half, within the node. */
  function Placed(m: Links, n: Tree, x: nat): Links
    requires n.Node? && x in m && m[x].fd in m && m[x].bk in m
  {
    var (m1, r) := CutOut(m, n, x);
    if r != 0 && m[x].parent != 0 && x in m1 && r in m1 && (m1[x].c0 != 0 ==> m1[x].c0 in m1) && (m1[x].c1 != 0 ==> m1[x].c1 in m1)
    then MoveUp(m1, x, r, m[x].parent) else m1
  }

  lemma RingMember(m: Links, p: nat, par: nat, n: Tree, x: nat)
    requires n.Node? && Rep(m, p, par, n) && Distinct(n.ring) && x in n.ring
    ensures x in m && x != 0 && m[x].fd in n.ring && m[x].bk in n.ring && m[x].fd in m && m[x].bk in m && m[x].size == n.size
    ensures |n.ring| > 1 <==> m[x].bk != x
    ensures m[x].parent == if x == p then par else 0
  {
    var i := IndexOf(n.ring, x);
    LinkedAt(m, n.ring, i);
    LinkedAt(m, n.ring, Succ(i, |n.ring|));
    LinkedAt(m, n.ring, Pred(i, |n.ring|));
    assert RingHere(m, n.ring, n.size, i);
    if |n.ring| > 1 { DistinctAt(n.ring, i, Pred(i, |n.ring|)); }
    if i > 0 { DistinctAt(n.ring, i, 0); }
  }

  /** What takes the chunk's place. */
  lemma CutOutIs(m: Links, p: nat, par: nat, n: Tree, x: nat)
    requires n.Node? && Rep(m, p, par, n) && Apart(n) && x in n.ring && par != 0
    ensures x in m && m[x].fd in m && m[x].bk in m
    ensures var (m1, r) := CutOut(m, n, x);
      && x in m1 && (r != 0 && x == p ==> r in m1 && (m1[x].c0 != 0 ==> m1[x].c0 in m1) && (m1[x].c1 != 0 ==> m1[x].c1 in m1))
      && (r == 0 <==> |n.ring| == 1 && n.left.Leaf? && n.right.Leaf?)
      && Rep(Placed(m, n, x), if x == p then r else p, par, Remove(n, x))
  {
    hide Has, CutRing, MoveUp, Rep, RingRep, Remove, Distinct, RingApart, Disjoint;
    RepParts(m, p, par, n);
    RingMember(m, p, par, n, x);
    if |n.ring| > 1 {
      UnlinkRing(m, p, par, n, x);
      CutRingAt(m, x, x);
      CutRingAt(m, x, m[x].bk);
      BackNotNull(m, p, par, n, x);
    } else {
      assert n.ring == [x];
      if n.left.Leaf? && n.right.Leaf? {
        UnlinkLeaf(m, p, par, n);
        LeafAny(m, par);
      } else {
        LastAt(m, p, par, n);
        UnlinkSingle(m, p, par, n);
      }
    }
  }

  lemma BackNotNull(m: Links, p: nat, par: nat, n: Tree, x: nat)
    requires n.Node? && Rep(m, p, par, n) && Distinct(n.ring) && x in n.ring && x in m
    ensures m[x].bk != 0
  {
    RingMember(m, p, par, n, x);
    RingMember(m, p, par, n, m[x].bk);
  }

  /** Nothing outside the node is written by that. */
  lemma PlacedSame(m: Links, p: nat, par: nat, n: Tree, x: nat, a: nat)
    requires n.Node? && Rep(m, p, par, n) && Apart(n) && x in n.ring && !Has(n, a) && a != 0
    ensures x in m && m[x].fd in m && m[x].bk in m
    ensures var m2 := Placed(m, n, x); (a in m2 <==> a in m) && (a in m ==> m2[a] == m[a])
  {
    hide Has, CutRing, MoveUp, Rep, RingRep, Distinct, RingApart, Disjoint;
    RepParts(m, p, par, n);
    RingMember(m, p, par, n, x);
    HasParts(n, m[x].fd);
    HasParts(n, m[x].bk);
    HasParts(n, x);
    var (m1, r) := CutOut(m, n, x);
    ChildrenHas(m, p, par, n);
    CutRingAt(m, x, a);
    CutRingAt(m, x, x);
    LastAt(m, p, par, n);
    if |n.ring| == 1 { assert n.ring == [x]; }
    if x == p {
      CutOutChildren(m, p, par, n, x);
      if r in m1 && (m1[x].c0 != 0 ==> m1[x].c0 in m1) && (m1[x].c1 != 0 ==> m1[x].c1 in m1) {
        MoveUpSame(m1, x, r, m[x].parent, a);
      }
    }
  }

  lemma ChildrenHas(m: Links, p: nat, par: nat, n: Tree)
    requires n.Node? && Rep(m, p, par, n)
    ensures p in m && (m[p].c0 == 0 || Has(n, m[p].c0)) && (m[p].c1 == 0 || Has(n, m[p].c1))
  {
    RepParts(m, p, par, n);
    RepNull(m, m[p].c0, p, n.left);
    RepNull(m, m[p].c1, p, n.right);
    if n.left.Node? { RepParts(m, m[p].c0, p, n.left); }
    if n.right.Node? { RepParts(m, m[p].c1, p, n.right); }
  }

  lemma CutOutChildren(m: Links, p: nat, par: nat, n: Tree, x: nat)
    requires n.Node? && Rep(m, p, par, n) && Apart(n) && x in n.ring && x in m && m[x].fd in m && m[x].bk in m && x == p
    ensures var (m1, r) := CutOut(m, n, x); x in m1 && (m1[x].c0 == 0 || m1[x].c0 == m[x].c0) && (m1[x].c1 == 0 || m1[x].c1 == m[x].c1)
    ensures var (m1, r) := CutOut(m, n, x); r == 0 || Has(n, r)
  {
    hide Has, CutRing, Rep, RingRep, Distinct, RingApart, Disjoint;
    CutRingAt(m, x, x);
    RepParts(m, p, par, n);
    RingMember(m, p, par, n, x);
    HasParts(n, m[x].bk);
    LastAt(m, p, par, n);
  }
}
