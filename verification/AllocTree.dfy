/** The tries of free chunks (lj_alloc.c) as values: what inserting and unlinking mean. */
module AllocTree {
  import opened AllocSizes

  /** A trie node is a ring of chunks of one size; the first is linked into the tree. */
  datatype Tree = Leaf | Node(ring: seq<nat>, size: nat, left: Tree, right: Tree)

  predicate Distinct(s: seq<nat>) {
    forall i, j :: 0 <= i < j < |s| ==> s[i] != s[j]
  }

  /** A chunk of the tree. */
  predicate Has(t: Tree, a: nat) {
    t.Node? && (a in t.ring || Has(t.left, a) || Has(t.right, a))
  }

  function SizeOf(t: Tree, a: nat): nat {
    if t.Leaf? then 0 else if a in t.ring then t.size else if Has(t.left, a) then SizeOf(t.left, a) else SizeOf(t.right, a)
  }

  /** No node has this size. */
  predicate NoSize(t: Tree, s: nat) {
    t.Node? ==> t.size != s && NoSize(t.left, s) && NoSize(t.right, s)
  }

  predicate RingApart(ring: seq<nat>, t: Tree) {
    forall a :: a in ring ==> !Has(t, a)
  }

  ghost predicate Disjoint(t: Tree, u: Tree) {
    forall a :: Has(t, a) ==> !Has(u, a)
  }

  /** Every chunk is in the tree once, and every size in one node only. */
  ghost predicate Apart(t: Tree) {
    t.Node? ==>
      && t.ring != [] && Distinct(t.ring) && RingApart(t.ring, t.left) && RingApart(t.ring, t.right) && Disjoint(t.left, t.right)
      && NoSize(t.left, t.size) && NoSize(t.right, t.size) && Apart(t.left) && Apart(t.right)
  }

  /** All sizes have prefix `p` above their lowest `h` bits, and the next bit of those in the
      subtrees is 0 on the left and 1 on the right. */
  predicate Trie(t: Tree, h: nat, p: nat)
    decreases t
  {
    t.Node? ==>
      && Shr(t.size, h) == p
      && (h == 0 ==> t.left.Leaf? && t.right.Leaf?)
      && (h > 0 ==> Trie(t.left, h - 1, 2 * p) && Trie(t.right, h - 1, 2 * p + 1))
  }

  lemma {:induction false} TrieHas(t: Tree, h: nat, p: nat, a: nat)
    requires Trie(t, h, p) && Has(t, a)
    ensures Shr(SizeOf(t, a), h) == p
    decreases t
  {
    hide Shr;
    if a !in t.ring {
      ShrNext(SizeOf(t, a), h - 1);
      if Has(t.left, a) { TrieHas(t.left, h - 1, 2 * p, a); } else { TrieHas(t.right, h - 1, 2 * p + 1, a); }
    }
  }

  /** What is on the left is smaller than what is on the right. */
  lemma LeftBelowRight(t: Tree, h: nat, p: nat, a: nat, b: nat)
    requires Trie(t, h, p) && t.Node? && Has(t.left, a) && Has(t.right, b)
    ensures SizeOf(t.left, a) < SizeOf(t.right, b)
  {
    hide Shr;
    TrieHas(t.left, h - 1, 2 * p, a);
    TrieHas(t.right, h - 1, 2 * p + 1, b);
    ShrOrder(SizeOf(t.left, a), SizeOf(t.right, b), h - 1);
  }

  /** A size with another prefix is not in the tree. */
  lemma {:induction false} OtherPrefix(t: Tree, h: nat, p: nat, s: nat)
    requires Trie(t, h, p) && Shr(s, h) != p
    ensures NoSize(t, s)
    decreases t
  {
    hide Shr;
    if t.Node? && h > 0 {
      ShrNext(s, h - 1);
      OtherPrefix(t.left, h - 1, 2 * p, s);
      OtherPrefix(t.right, h - 1, 2 * p + 1, s);
    }
  }

  // ------------------------------------------------------------------------- inserting

  /** The bit that decides below a node with `h` bits left. */
  function Bit(s: nat, h: nat): nat
    requires h > 0
  {
    Shr(s, h - 1) % 2
  }

  function RingWith(ring: seq<nat>, x: nat): seq<nat> {
    if ring == [] then [x] else [ring[0], x] + ring[1..]
  }

  /** insert_large_chunk: behind the chunk of the same size, or below. */
  function Insert(t: Tree, x: nat, s: nat, h: nat): Tree
    decreases t
  {
    if t.Leaf? then Node([x], s, Leaf, Leaf)
    else if t.size == s then t.(ring := RingWith(t.ring, x))
    else if h == 0 then t
    else if Bit(s, h) == 0 then t.(left := Insert(t.left, x, s, h - 1))
    else t.(right := Insert(t.right, x, s, h - 1))
  }

  lemma RingWithHas(ring: seq<nat>, x: nat, a: nat)
    ensures a in RingWith(ring, x) <==> a == x || a in ring
  {
    if ring != [] { assert ring == [ring[0]] + ring[1..]; }
  }

  lemma RingWithDistinct(ring: seq<nat>, x: nat)
    requires Distinct(ring) && x !in ring
    ensures Distinct(RingWith(ring, x))
  {
    var r := RingWith(ring, x);
    forall i, j | 0 <= i < j < |r|
      ensures r[i] != r[j]
    {
      assert r[j] == if j == 1 then x else ring[j - 1];
      assert r[i] == if i == 0 && ring != [] then ring[0] else if i <= 1 then x else ring[i - 1];
    }
  }

  lemma {:induction false} InsertHas(t: Tree, x: nat, s: nat, h: nat, p: nat, a: nat)
    requires Trie(t, h, p) && Apart(t) && !Has(t, x) && Shr(s, h) == p
    ensures Has(Insert(t, x, s, h), a) <==> a == x || Has(t, a)
    ensures Has(t, a) ==> SizeOf(Insert(t, x, s, h), a) == SizeOf(t, a)
    ensures Has(Insert(t, x, s, h), x) && SizeOf(Insert(t, x, s, h), x) == s
    decreases t
  {
    hide Shr, Bit, NoSize, Distinct, RingWith;
    if t.Leaf? {
    } else if t.size == s {
      RingWithHas(t.ring, x, a);
      RingWithHas(t.ring, x, x);
    } else {
      InsertDown(s, h, p);
      InsertDown(t.size, h, p);
      if Bit(s, h) == 0 {
        InsertHas(t.left, x, s, h - 1, 2 * p, a);
      } else {
        InsertHas(t.right, x, s, h - 1, 2 * p + 1, a);
      }
    }
  }

  /** Below a node of another size the prefix goes on. */
  lemma InsertDown(s: nat, h: nat, p: nat)
    requires Shr(s, h) == p
    ensures h == 0 ==> s == p
    ensures h > 0 ==> Shr(s, h - 1) == if Bit(s, h) == 0 then 2 * p else 2 * p + 1
  {
    if h > 0 { ShrNext(s, h - 1); }
  }

  lemma {:induction false} InsertTrie(t: Tree, x: nat, s: nat, h: nat, p: nat)
    requires Trie(t, h, p) && Shr(s, h) == p
    ensures Trie(Insert(t, x, s, h), h, p)
    decreases t
  {
    hide Shr, Bit, RingWith;
    if t.Node? && t.size != s && h > 0 {
      InsertDown(s, h, p);
      InsertDown(t.size, h, p);
      if Bit(s, h) == 0 {
        InsertTrie(t.left, x, s, h - 1, 2 * p);
      } else {
        InsertTrie(t.right, x, s, h - 1, 2 * p + 1);
      }
    }
  }

  lemma {:induction false} InsertNoSize(t: Tree, x: nat, s: nat, h: nat, u: nat)
    requires NoSize(t, u) && s != u
    ensures NoSize(Insert(t, x, s, h), u)
    decreases t
  {
    hide Bit, RingWith;
    if t.Node? && h > 0 {
      InsertNoSize(t.left, x, s, h - 1, u);
      InsertNoSize(t.right, x, s, h - 1, u);
    }
  }

  lemma {:induction false} InsertApart(t: Tree, x: nat, s: nat, h: nat, p: nat)
    requires Trie(t, h, p) && Apart(t) && !Has(t, x) && Shr(s, h) == p
    ensures Apart(Insert(t, x, s, h))
    decreases t
  {
    hide Shr, Bit, RingWith, Has, NoSize, SizeOf;
    if t.Leaf? {
      LeafApart(x);
      LeafNoSize(s);
    } else if t.size == s {
      HasParts(t, x);
      RingWithDistinct(t.ring, x);
      forall a ensures a in RingWith(t.ring, x) <==> a == x || a in t.ring { RingWithHas(t.ring, x, a); }
    } else {
      HasParts(t, x);
      InsertDown(s, h, p);
      InsertDown(t.size, h, p);
      if Bit(s, h) == 0 {
        forall a ensures Has(Insert(t.left, x, s, h - 1), a) <==> a == x || Has(t.left, a) { InsertHas(t.left, x, s, h - 1, 2 * p, a); }
        InsertNoSize(t.left, x, s, h - 1, t.size);
        InsertApart(t.left, x, s, h - 1, 2 * p);
      } else {
        forall a ensures Has(Insert(t.right, x, s, h - 1), a) <==> a == x || Has(t.right, a) { InsertHas(t.right, x, s, h - 1, 2 * p + 1, a); }
        InsertNoSize(t.right, x, s, h - 1, t.size);
        InsertApart(t.right, x, s, h - 1, 2 * p + 1);
      }
    }
  }

  lemma HasParts(t: Tree, a: nat)
    ensures Has(t, a) <==> t.Node? && (a in t.ring || Has(t.left, a) || Has(t.right, a))
  {
  }

  lemma LeafApart(x: nat)
    ensures forall a :: !Has(Leaf, a)
    ensures Distinct([x])
  {
  }

  lemma LeafNoSize(s: nat)
    ensures NoSize(Leaf, s)
  {
  }

  // ------------------------------------------------------------------------- unlinking

  /** The node that replaces an unlinked one: the last on the way that goes right where it can
      and else left. */
  function Last(t: Tree): (n: Tree)
    requires t.Node?
    ensures n.Node?
  {
    if t.right.Node? then Last(t.right) else if t.left.Node? then Last(t.left) else t
  }

  /** What is left without it. */
  function WithoutLast(t: Tree): Tree
    requires t.Node?
  {
    if t.right.Node? then t.(right := WithoutLast(t.right)) else if t.left.Node? then t.(left := WithoutLast(t.left)) else Leaf
  }

  /** The subtrees of a removed node, with a node of theirs in its place. */
  function Join(l: Tree, r: Tree): Tree {
    if r.Node? then Node(Last(r).ring, Last(r).size, l, WithoutLast(r))
    else if l.Node? then Node(Last(l).ring, Last(l).size, WithoutLast(l), r)
    else Leaf
  }

  /** A ring without its chunk `i`; if that was the first, the last becomes the first. */
  function RingWithout(ring: seq<nat>, i: nat): (r: seq<nat>)
    requires i < |ring| && |ring| > 1
    ensures |r| == |ring| - 1
  {
    if i == 0 then [ring[|ring| - 1]] + ring[1..|ring| - 1] else ring[..i] + ring[i + 1..]
  }

  function IndexOf(ring: seq<nat>, x: nat): (i: nat)
    requires x in ring
    ensures i < |ring| && ring[i] == x
  {
    if ring[0] == x then 0 else 1 + IndexOf(ring[1..], x)
  }

  /** unlink_large_chunk */
  function Remove(t: Tree, x: nat): Tree
    decreases t
  {
    if t.Leaf? then t
    else if x in t.ring then
      if |t.ring| > 1 then t.(ring := RingWithout(t.ring, IndexOf(t.ring, x))) else Join(t.left, t.right)
    else if Has(t.left, x) then t.(left := Remove(t.left, x))
    else t.(right := Remove(t.right, x))
  }

  /** Where chunk `k` of the smaller ring was. */
  function OldIndex(n: nat, i: nat, k: nat): nat
    requires n > 0
  {
    if i == 0 then if k == 0 then n - 1 else k else if k < i then k else k + 1
  }

  lemma RingWithoutAt(ring: seq<nat>, i: nat, k: nat)
    requires i < |ring| && |ring| > 1 && k < |ring| - 1
    ensures OldIndex(|ring|, i, k) < |ring| && RingWithout(ring, i)[k] == ring[OldIndex(|ring|, i, k)] && OldIndex(|ring|, i, k) != i
  {
  }

  lemma RingWithoutHas(ring: seq<nat>, i: nat, a: nat)
    requires i < |ring| && |ring| > 1 && Distinct(ring)
    ensures a in RingWithout(ring, i) <==> a in ring && a != ring[i]
  {
    hide RingWithout;
    var r := RingWithout(ring, i);
    if a in r {
      var k :| 0 <= k < |r| && r[k] == a;
      RingWithoutAt(ring, i, k);
    }
    if a in ring && a != ring[i] {
      var k :| 0 <= k < |ring| && ring[k] == a;
      RingWithoutAt(ring, i, if i == 0 then if k == |ring| - 1 then 0 else k else if k < i then k else k - 1);
    }
  }

  lemma RingWithoutDistinct(ring: seq<nat>, i: nat)
    requires i < |ring| && |ring| > 1 && Distinct(ring)
    ensures Distinct(RingWithout(ring, i))
  {
    hide RingWithout;
    var r := RingWithout(ring, i);
    forall k, l | 0 <= k < l < |r|
      ensures r[k] != r[l]
    {
      RingWithoutAt(ring, i, k);
      RingWithoutAt(ring, i, l);
    }
  }

  lemma {:induction false} LastHas(t: Tree, a: nat)
    requires t.Node? && Apart(t)
    ensures Has(t, a) <==> a in Last(t).ring || Has(WithoutLast(t), a)
    ensures a in Last(t).ring ==> SizeOf(t, a) == Last(t).size && !Has(WithoutLast(t), a)
    ensures Has(WithoutLast(t), a) ==> SizeOf(WithoutLast(t), a) == SizeOf(t, a)
    decreases t
  {
    hide NoSize, Distinct;
    if t.right.Node? { LastHas(t.right, a); } else if t.left.Node? { LastHas(t.left, a); }
  }

  lemma {:induction false} LastTrie(t: Tree, h: nat, p: nat)
    requires t.Node? && Trie(t, h, p)
    ensures Trie(WithoutLast(t), h, p) && Shr(Last(t).size, h) == p
    decreases t
  {
    hide Shr;
    if t.right.Node? {
      LastTrie(t.right, h - 1, 2 * p + 1);
      ShrNext(Last(t).size, h - 1);
    } else if t.left.Node? {
      LastTrie(t.left, h - 1, 2 * p);
      ShrNext(Last(t).size, h - 1);
    }
  }

  lemma {:induction false} LastNoSize(t: Tree, s: nat)
    requires t.Node? && NoSize(t, s)
    ensures NoSize(WithoutLast(t), s) && Last(t).size != s
    decreases t
  {
    if t.right.Node? { LastNoSize(t.right, s); } else if t.left.Node? { LastNoSize(t.left, s); }
  }

  /** The last node's size is nowhere else. */
  lemma {:induction false} LastOnly(t: Tree, h: nat, p: nat)
    requires t.Node? && Apart(t) && Trie(t, h, p)
    ensures NoSize(WithoutLast(t), Last(t).size) && Last(t).ring != [] && Distinct(Last(t).ring)
    decreases t
  {
    hide Shr, Has, Distinct;
    if t.right.Node? {
      LastOnly(t.right, h - 1, 2 * p + 1);
      LastTrie(t.right, h - 1, 2 * p + 1);
      OtherPrefix(t.left, h - 1, 2 * p, Last(t).size);
      LastNoSize(t.right, t.size);
    } else if t.left.Node? {
      LastOnly(t.left, h - 1, 2 * p);
      LastNoSize(t.left, t.size);
    }
  }

  lemma {:induction false} LastApart(t: Tree)
    requires t.Node? && Apart(t)
    ensures Apart(WithoutLast(t))
    decreases t
  {
    hide Has, Distinct, NoSize, SizeOf;
    if t.right.Node? {
      LastApart(t.right);
      LastNoSize(t.right, t.size);
      forall a ensures Has(WithoutLast(t.right), a) ==> Has(t.right, a) { LastHas(t.right, a); }
    } else if t.left.Node? {
      LastApart(t.left);
      LastNoSize(t.left, t.size);
      forall a ensures Has(WithoutLast(t.left), a) ==> Has(t.left, a) { LastHas(t.left, a); }
    }
  }

  lemma JoinHas(t: Tree, a: nat)
    requires t.Node? && Apart(t)
    ensures Has(Join(t.left, t.right), a) <==> Has(t.left, a) || Has(t.right, a)
    ensures Has(Join(t.left, t.right), a) ==> SizeOf(Join(t.left, t.right), a) == SizeOf(t, a)
  {
    hide Last, WithoutLast, NoSize, Distinct;
    if t.right.Node? { LastHas(t.right, a); } else if t.left.Node? { LastHas(t.left, a); }
  }

  lemma JoinTrie(t: Tree, h: nat, p: nat)
    requires t.Node? && Trie(t, h, p)
    ensures Trie(Join(t.left, t.right), h, p)
  {
    hide Last, WithoutLast, Shr;
    if t.right.Node? {
      LastTrie(t.right, h - 1, 2 * p + 1);
      ShrNext(Last(t.right).size, h - 1);
    } else if t.left.Node? {
      LastTrie(t.left, h - 1, 2 * p);
      ShrNext(Last(t.left).size, h - 1);
    }
  }

  lemma JoinApart(t: Tree, h: nat, p: nat)
    requires t.Node? && Apart(t) && Trie(t, h, p)
    ensures Apart(Join(t.left, t.right))
  {
    hide Last, WithoutLast, Shr, Has, SizeOf, NoSize, Distinct;
    if t.right.Node? {
      forall a
        ensures a in Last(t.right).ring ==> Has(t.right, a) && !Has(WithoutLast(t.right), a)
        ensures Has(WithoutLast(t.right), a) ==> Has(t.right, a)
      {
        LastHas(t.right, a);
      }
      LastOnly(t.right, h - 1, 2 * p + 1);
      LastApart(t.right);
      LastTrie(t.right, h - 1, 2 * p + 1);
      OtherPrefix(t.left, h - 1, 2 * p, Last(t.right).size);
    } else if t.left.Node? {
      forall a
        ensures a in Last(t.left).ring ==> !Has(WithoutLast(t.left), a)
        ensures !Has(t.right, a)
      {
        LastHas(t.left, a);
        LeafApart(0);
      }
      LastOnly(t.left, h - 1, 2 * p);
      LastApart(t.left);
      LeafNoSize(Last(t.left).size);
    }
  }

  lemma {:induction false} RemoveHas(t: Tree, x: nat, a: nat)
    requires Apart(t) && Has(t, x)
    ensures Has(Remove(t, x), a) <==> Has(t, a) && a != x
    ensures Has(Remove(t, x), a) ==> SizeOf(Remove(t, x), a) == SizeOf(t, a)
    decreases t
  {
    hide Distinct, NoSize, Join, RingWithout;
    if x in t.ring {
      if |t.ring| > 1 {
        RingWithoutHas(t.ring, IndexOf(t.ring, x), a);
      } else {
        assert t.ring == [x];
        JoinHas(t, a);
      }
    } else if Has(t.left, x) {
      RemoveHas(t.left, x, a);
    } else {
      RemoveHas(t.right, x, a);
    }
  }

  lemma {:induction false} RemoveTrie(t: Tree, x: nat, h: nat, p: nat)
    requires Trie(t, h, p) && Has(t, x)
    ensures Trie(Remove(t, x), h, p)
    decreases t
  {
    hide Shr, Join, RingWithout;
    if x in t.ring {
      if |t.ring| <= 1 { JoinTrie(t, h, p); }
    } else if Has(t.left, x) {
      RemoveTrie(t.left, x, h - 1, 2 * p);
    } else {
      RemoveTrie(t.right, x, h - 1, 2 * p + 1);
    }
  }

  lemma {:induction false} RemoveNoSize(t: Tree, x: nat, s: nat)
    requires NoSize(t, s)
    ensures NoSize(Remove(t, x), s)
    decreases t
  {
    hide RingWithout;
    if t.Node? {
      if x in t.ring {
        if |t.ring| <= 1 {
          if t.right.Node? { LastNoSize(t.right, s); } else if t.left.Node? { LastNoSize(t.left, s); }
        }
      } else {
        RemoveNoSize(t.left, x, s);
        RemoveNoSize(t.right, x, s);
      }
    }
  }

  lemma {:induction false} RemoveApart(t: Tree, x: nat, h: nat, p: nat)
    requires Trie(t, h, p) && Apart(t) && Has(t, x)
    ensures Apart(Remove(t, x))
    decreases t
  {
    hide Shr, Has, SizeOf, NoSize, Join, RingWithout, Distinct;
    HasParts(t, x);
    if x in t.ring {
      if |t.ring| > 1 {
        RingWithoutDistinct(t.ring, IndexOf(t.ring, x));
        forall a ensures a in RingWithout(t.ring, IndexOf(t.ring, x)) ==> a in t.ring { RingWithoutHas(t.ring, IndexOf(t.ring, x), a); }
      } else {
        JoinApart(t, h, p);
      }
    } else if Has(t.left, x) {
      RemoveApart(t.left, x, h - 1, 2 * p);
      RemoveNoSize(t.left, x, t.size);
      forall a ensures Has(Remove(t.left, x), a) ==> Has(t.left, a) { RemoveHas(t.left, x, a); }
    } else {
      RemoveApart(t.right, x, h - 1, 2 * p + 1);
      RemoveNoSize(t.right, x, t.size);
      forall a ensures Has(Remove(t.right, x), a) ==> Has(t.right, a) { RemoveHas(t.right, x, a); }
    }
  }
}
