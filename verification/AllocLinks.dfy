/** How rings and tries of free chunks lie in memory (lj_alloc.c): link fields inside the chunks. */
module AllocLinks {
  import opened AllocSizes
  import opened AllocTree

  /** A free chunk's size and link fields; 0 is the null pointer. */
  datatype Link = Link(size: nat, fd: nat, bk: nat, c0: nat, c1: nat, parent: nat)

  type Links = map<nat, Link>

  // ------------------------------------------------------------------------------ rings

  function Succ(i: nat, n: nat): nat { if i + 1 == n then 0 else i + 1 }

  function Pred(i: nat, n: nat): int { if i == 0 then n - 1 else i - 1 }

  /** A circular doubly-linked list. */
  predicate Linked(m: Links, s: seq<nat>) {
    forall i :: 0 <= i < |s| ==> LinkedHere(m, s, i)
  }

  predicate LinkedHere(m: Links, s: seq<nat>, i: nat)
    requires i < |s|
  {
    s[i] in m && m[s[i]].fd == s[Succ(i, |s|)] && m[s[i]].bk == s[Pred(i, |s|)]
  }

  /** T->fd = F->bk = X, where F was T->fd. */
  function InsertBehind(m: Links, t: nat, x: nat, lx: Link): Links
    requires t in m && m[t].fd in m
  {
    var f := m[t].fd;
    var m1 := m[t := m[t].(fd := x)];
    var m2 := m1[f := m1[f].(bk := x)];
    m2[x := lx.(fd := f, bk := t)]
  }

  lemma LinkedAt(m: Links, s: seq<nat>, i: nat)
    requires Linked(m, s) && i < |s|
    ensures s[i] in m && m[s[i]].fd == s[Succ(i, |s|)] && m[s[i]].bk == s[Pred(i, |s|)]
  {
    assert LinkedHere(m, s, i);
  }

  lemma InsertBehindAt(m: Links, t: nat, x: nat, lx: Link, a: nat)
    requires t in m && m[t].fd in m && x != t && x != m[t].fd
    ensures var f, m1 := m[t].fd, InsertBehind(m, t, x, lx);
      && (a in m1 <==> a == x || a in m)
      && m1[x] == lx.(fd := f, bk := t)
      && (a in m && a != x ==> m1[a] == m[a].(fd := if a == t then x else m[a].fd, bk := if a == f then x else m[a].bk))
  {
  }

  lemma DistinctAt(s: seq<nat>, i: nat, j: nat)
    requires Distinct(s) && i < |s| && j < |s| && i != j
    ensures s[i] != s[j]
  {
  }

  lemma InsertLinkedAt(m: Links, s: seq<nat>, x: nat, lx: Link, k: nat)
    requires s != [] && Linked(m, s) && Distinct(s) && x !in s && k <= |s|
    ensures s[0] in m && m[s[0]].fd in m
    ensures |RingWith(s, x)| == |s| + 1 && LinkedHere(InsertBehind(m, s[0], x, lx), RingWith(s, x), k)
  {
    var n := |s|;
    LinkedAt(m, s, 0);
    LinkedAt(m, s, Succ(0, n));
    var r := RingWith(s, x);
    assert |r| == n + 1 && r[0] == s[0] && r[1] == x;
    var i := if k == 0 then 0 else k - 1;
    assert k != 1 ==> r[k] == s[i];
    assert 1 <= k < n ==> r[k + 1] == s[k];
    assert k > 2 ==> r[k - 1] == s[k - 2];
    assert n > 1 ==> r[n] == s[n - 1];
    LinkedAt(m, s, i);
    if i != 0 { DistinctAt(s, i, 0); }
    if i != Succ(0, n) { DistinctAt(s, i, Succ(0, n)); }
    hide Linked, Distinct, RingWith, InsertBehind;
    InsertBehindAt(m, s[0], x, lx, s[i]);
  }

  lemma InsertLinked(m: Links, s: seq<nat>, x: nat, lx: Link)
    requires s != [] && Linked(m, s) && Distinct(s) && x !in s
    ensures s[0] in m && m[s[0]].fd in m && Linked(InsertBehind(m, s[0], x, lx), RingWith(s, x))
  {
    hide InsertBehind, RingWith;
    LinkedAt(m, s, 0);
    LinkedAt(m, s, Succ(0, |s|));
    InsertLinkedAt(m, s, x, lx, 0);
    forall k | 0 <= k < |RingWith(s, x)|
      ensures LinkedHere(InsertBehind(m, s[0], x, lx), RingWith(s, x), k)
    {
      InsertLinkedAt(m, s, x, lx, k);
    }
  }

  /** F->bk = B and B->fd = F around X. */
  function CutRing(m: Links, x: nat): Links
    requires x in m && m[x].fd in m && m[x].bk in m
  {
    var f, b := m[x].fd, m[x].bk;
    var m1 := m[f := m[f].(bk := b)];
    m1[b := m1[b].(fd := f)]
  }

  lemma CutRingAt(m: Links, x: nat, a: nat)
    requires x in m && m[x].fd in m && m[x].bk in m
    ensures var f, b, m1 := m[x].fd, m[x].bk, CutRing(m, x);
      && (a in m1 <==> a in m)
      && (a in m ==> m1[a] == m[a].(bk := if a == f then b else m[a].bk, fd := if a == b then f else m[a].fd))
  {
  }

  /** The neighbours of a chunk that stays, after the cut. */
  lemma CutAt(m: Links, s: seq<nat>, i: nat, o: nat)
    requires i < |s| && |s| > 1 && o < |s| && o != i && Linked(m, s) && Distinct(s)
    ensures s[i] in m && m[s[i]].fd in m && m[s[i]].bk in m && s[o] in CutRing(m, s[i])
    ensures CutRing(m, s[i])[s[o]].fd == (if o == Pred(i, |s|) then s[Succ(i, |s|)] else s[Succ(o, |s|)])
    ensures CutRing(m, s[i])[s[o]].bk == (if o == Succ(i, |s|) then s[Pred(i, |s|)] else s[Pred(o, |s|)])
  {
    hide Linked, CutRing, Distinct;
    var n := |s|;
    LinkedAt(m, s, i);
    LinkedAt(m, s, Succ(i, n));
    LinkedAt(m, s, Pred(i, n));
    LinkedAt(m, s, o);
    if o != Succ(i, n) { DistinctAt(s, o, Succ(i, n)); }
    if o != Pred(i, n) { DistinctAt(s, o, Pred(i, n)); }
    CutRingAt(m, s[i], s[o]);
  }

  lemma CutLinkedAt(m: Links, s: seq<nat>, i: nat, k: nat)
    requires i < |s| && |s| > 1 && Linked(m, s) && Distinct(s) && k < |s| - 1
    ensures s[i] in m && m[s[i]].fd in m && m[s[i]].bk in m
    ensures LinkedHere(CutRing(m, s[i]), RingWithout(s, i), k)
  {
    hide Linked, Distinct, RingWithout, CutRing, OldIndex;
    var n := |s|;
    RingWithoutAt(s, i, k);
    RingWithoutAt(s, i, Succ(k, n - 1));
    RingWithoutAt(s, i, Pred(k, n - 1));
    OldNeighbours(n, i, k);
    CutAt(m, s, i, OldIndex(n, i, k));
  }

  /** Neighbours in the smaller ring are neighbours in the old one, but for the gap. */
  lemma OldNeighbours(n: nat, i: nat, k: nat)
    requires i < n && n > 1 && k < n - 1
    ensures var o := OldIndex(n, i, k);
      && OldIndex(n, i, Succ(k, n - 1)) == (if Succ(o, n) == i then Succ(i, n) else Succ(o, n))
      && OldIndex(n, i, Pred(k, n - 1)) == (if Pred(o, n) == i then Pred(i, n) else Pred(o, n))
      && (o == Succ(i, n) <==> Pred(o, n) == i) && (o == Pred(i, n) <==> Succ(o, n) == i)
  {
  }

  lemma CutLinked(m: Links, s: seq<nat>, i: nat)
    requires i < |s| && |s| > 1 && Linked(m, s) && Distinct(s)
    ensures s[i] in m && m[s[i]].fd in m && m[s[i]].bk in m
    ensures Linked(CutRing(m, s[i]), RingWithout(s, i))
  {
    hide RingWithout, CutRing;
    LinkedAt(m, s, i);
    LinkedAt(m, s, Succ(i, |s|));
    LinkedAt(m, s, Pred(i, |s|));
    forall k | 0 <= k < |RingWithout(s, i)|
      ensures LinkedHere(CutRing(m, s[i]), RingWithout(s, i), k)
    {
      CutLinkedAt(m, s, i, k);
    }
  }

  // ------------------------------------------------------------------------------ tries

  /** The ring of a trie node: only its first chunk is linked into the tree. */
  predicate RingRep(m: Links, ring: seq<nat>, size: nat) {
    Linked(m, ring) && forall i :: 0 <= i < |ring| ==> RingHere(m, ring, size, i)
  }

  predicate RingHere(m: Links, ring: seq<nat>, size: nat, i: nat)
    requires i < |ring|
  {
    var a := ring[i];
    a != 0 && a in m && m[a].size == size && (i > 0 ==> m[a].parent == 0 && m[a].c0 == 0 && m[a].c1 == 0)
  }

  /** Pointer `p` is the root of trie `t`, with parent pointer `par`. */
  predicate Rep(m: Links, p: nat, par: nat, t: Tree)
    decreases t
  {
    match t
    case Leaf => p == 0
    case Node(ring, size, l, r) =>
      ring != [] && p == ring[0] && p in m && RingRep(m, ring, size) && m[p].parent == par && Rep(m, m[p].c0, p, l) && Rep(m, m[p].c1, p, r)
  }

  /** The chunks of `t` lie in `m1` as in `m`. */
  ghost predicate Same(m: Links, m1: Links, t: Tree) {
    forall a :: Has(t, a) ==> a in m && a in m1 && m1[a] == m[a]
  }

  lemma {:induction false} RepFrame(m: Links, m1: Links, p: nat, par: nat, t: Tree)
    requires Rep(m, p, par, t) && Same(m, m1, t)
    ensures Rep(m1, p, par, t)
    decreases t
  {
    if t.Node? {
      RingFrame(m, m1, t);
      assert Has(t, p);
      assert Same(m, m1, t.left) by { forall a | Has(t.left, a) ensures Has(t, a) { HasParts(t, a); } }
      assert Same(m, m1, t.right) by { forall a | Has(t.right, a) ensures Has(t, a) { HasParts(t, a); } }
      RepFrame(m, m1, m[p].c0, p, t.left);
      RepFrame(m, m1, m[p].c1, p, t.right);
    }
  }

  lemma RingFrame(m: Links, m1: Links, t: Tree)
    requires t.Node? && RingRep(m, t.ring, t.size) && Same(m, m1, t)
    ensures RingRep(m1, t.ring, t.size)
  {
    forall i | 0 <= i < |t.ring|
      ensures LinkedHere(m1, t.ring, i) && RingHere(m1, t.ring, t.size, i)
    {
      HasParts(t, t.ring[i]);
      assert LinkedHere(m, t.ring, i) && RingHere(m, t.ring, t.size, i);
    }
  }

  lemma {:induction false} RepHas(m: Links, p: nat, par: nat, t: Tree, a: nat)
    requires Rep(m, p, par, t) && Has(t, a)
    ensures a in m && m[a].size == SizeOf(t, a) && a != 0
    decreases t
  {
    if a in t.ring {
      var i :| 0 <= i < |t.ring| && t.ring[i] == a;
      assert RingHere(m, t.ring, t.size, i);
    } else if Has(t.left, a) {
      RepHas(m, m[p].c0, p, t.left, a);
    } else {
      RepHas(m, m[p].c1, p, t.right, a);
    }
  }
}
