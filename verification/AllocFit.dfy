/** Searching the tries for the best fit (tmalloc_large and tmalloc_small of lj_alloc.c), on
    values: what each step of the search leaves to be searched. */
module AllocFit {
  import opened AllocSizes
  import opened AllocTree

  /** `size - nb` in a word: a chunk that is too small leaves more than any that fits. */
  function Remainder(size: nat, nb: nat): (r: nat)
    requires size < WORD && 0 < nb < WORD
    ensures r < WORD - nb <==> size >= nb
    ensures size >= nb ==> r == size - nb
  {
    (size + WORD - nb) % WORD
  }

  /** No chunk of the tree fits `nb` leaving less than `r`. */
  ghost predicate NoBetter(t: Tree, nb: nat, r: nat) {
    forall a :: Has(t, a) ==> SizeOf(t, a) >= nb ==> r <= SizeOf(t, a) - nb
  }

  ghost predicate AllFit(t: Tree, nb: nat) {
    forall a :: Has(t, a) ==> SizeOf(t, a) >= nb
  }

  /** Everything in `t` is smaller than everything in `u`. */
  ghost predicate Below(t: Tree, u: Tree) {
    forall a, b :: Has(t, a) && Has(u, b) ==> SizeOf(t, a) < SizeOf(u, b)
  }

  /** What better fits than `r` there are in `t` are in `u` or `w`. */
  ghost predicate LeftIn(t: Tree, nb: nat, r: nat, u: Tree, w: Tree) {
    forall q :: 0 <= q <= r && NoBetter(u, nb, q) && NoBetter(w, nb, q) ==> NoBetter(t, nb, q)
  }

  lemma SubSize(t: Tree, a: nat)
    requires t.Node? && Apart(t)
    ensures Has(t.left, a) ==> Has(t, a) && SizeOf(t, a) == SizeOf(t.left, a)
    ensures Has(t.right, a) ==> Has(t, a) && SizeOf(t, a) == SizeOf(t.right, a)
    ensures Has(t, a) <==> a in t.ring || Has(t.left, a) || Has(t.right, a)
    ensures a in t.ring ==> SizeOf(t, a) == t.size
  {
  }

  lemma NodeSome(t: Tree)
    requires t.Node? && Apart(t)
    ensures t.ring != [] && Has(t, t.ring[0])
  {
  }

  /** Once the root is no better, the rest of a tree is as good as its subtrees. */
  lemma BothSides(t: Tree, nb: nat, r: nat)
    requires t.Node? && Apart(t) && (t.size >= nb ==> r <= t.size - nb) && NoBetter(t.left, nb, r) && NoBetter(t.right, nb, r)
    ensures NoBetter(t, nb, r)
  {
    hide Has, SizeOf;
    forall a | Has(t, a)
      ensures SizeOf(t, a) >= nb ==> r <= SizeOf(t, a) - nb
    {
      SubSize(t, a);
    }
  }

  lemma SidesFit(t: Tree, nb: nat)
    requires t.Node? && Apart(t) && AllFit(t, nb)
    ensures AllFit(t.left, nb) && AllFit(t.right, nb) && t.size >= nb
  {
    hide Has, SizeOf;
    NodeSome(t);
    SubSize(t, t.ring[0]);
    assert t.ring[0] in t.ring;
    forall a
      ensures Has(t.left, a) ==> SizeOf(t.left, a) >= nb
      ensures Has(t.right, a) ==> SizeOf(t.right, a) >= nb
    {
      SubSize(t, a);
    }
  }

  /** What is larger than something is no better. */
  lemma AboveNoBetter(t: Tree, u: Tree, nb: nat, r: nat)
    requires Below(t, u) && t.Node? && Apart(t) && AllFit(t, nb) && NoBetter(t, nb, r)
    ensures NoBetter(u, nb, r)
  {
    hide Has, SizeOf;
    NodeSome(t);
    var a := t.ring[0];
    forall b | Has(u, b)
      ensures SizeOf(u, b) >= nb ==> r <= SizeOf(u, b) - nb
    {
      assert SizeOf(t, a) < SizeOf(u, b);
    }
  }

  lemma LeftBelow(t: Tree, h: nat, p: nat)
    requires Trie(t, h, p) && t.Node?
    ensures Below(t.left, t.right)
  {
    hide Has, SizeOf, Shr;
    forall a, b | Has(t.left, a) && Has(t.right, b)
      ensures SizeOf(t.left, a) < SizeOf(t.right, b)
    {
      LeftBelowRight(t, h, p, a, b);
    }
  }

  /** leftmost_child */
  function Leftmost(t: Tree): Tree
    requires t.Node?
  {
    if t.left.Node? then t.left else t.right
  }

  /** In a tree in which all fit, the leftmost child is left to search. */
  lemma LeftmostLeft(whole: Tree, t: Tree, h: nat, p: nat, nb: nat, r: nat, r1: nat)
    requires t.Node? && Trie(t, h, p) && Apart(t) && AllFit(t, nb) && LeftIn(whole, nb, r, t, Leaf) && r1 <= r && r1 <= t.size - nb && t.size >= nb
    ensures LeftIn(whole, nb, r1, Leftmost(t), Leaf)
  {
    hide Has, SizeOf, Shr, NoBetter, Below;
    SidesFit(t, nb);
    LeftBelow(t, h, p);
    forall q | 0 <= q <= r1 && NoBetter(Leftmost(t), nb, q) && NoBetter(Leaf, nb, q)
      ensures NoBetter(whole, nb, q)
    {
      if t.left.Node? { AboveNoBetter(t.left, t.right, nb, q); }
      BothSides(t, nb, q);
    }
  }

  /** Nothing with a smaller prefix fits. */
  lemma PrefixTooSmall(t: Tree, h: nat, p: nat, nb: nat, r: nat)
    requires Trie(t, h, p) && p < Shr(nb, h)
    ensures NoBetter(t, nb, r)
  {
    hide Has, SizeOf, Shr;
    forall a | Has(t, a)
      ensures SizeOf(t, a) < nb
    {
      TrieHas(t, h, p, a);
      ShrOrder(SizeOf(t, a), nb, h);
    }
  }

  lemma PrefixFits(t: Tree, h: nat, p: nat, nb: nat)
    requires Trie(t, h, p) && p > Shr(nb, h)
    ensures AllFit(t, nb)
  {
    hide Has, SizeOf, Shr;
    forall a | Has(t, a)
      ensures SizeOf(t, a) >= nb
    {
      TrieHas(t, h, p, a);
      ShrOrder(nb, SizeOf(t, a), h);
    }
  }

  lemma LeafNoBetter(nb: nat, r: nat)
    ensures NoBetter(Leaf, nb, r) && AllFit(Leaf, nb)
  {
  }

  lemma SideBelow(t: Tree, u: Tree)
    requires t.Node? && Apart(t) && Below(t, u)
    ensures Below(t.left, u) && Below(t.right, u)
  {
    hide Has, SizeOf;
    forall a, b
      ensures Has(t.left, a) && Has(u, b) ==> SizeOf(t.left, a) < SizeOf(u, b)
      ensures Has(t.right, a) && Has(u, b) ==> SizeOf(t.right, a) < SizeOf(u, b)
    {
      SubSize(t, a);
    }
  }

  /** One step down along the bits of `nb`: where the bit is 0, an untaken right subtree is now
      the best alternative. */
  lemma SearchStep(whole: Tree, t: Tree, rst: Tree, h: nat, p: nat, nb: nat, r: nat, r1: nat)
    requires t.Node? && Trie(t, h, p) && Apart(t) && Shr(nb, h) == p && h > 0
    requires AllFit(rst, nb) && Below(t, rst) && Apart(rst) && LeftIn(whole, nb, r, t, rst) && r1 <= r && (t.size >= nb ==> r1 <= t.size - nb)
    ensures var next := if Bit(nb, h) == 0 then t.left else t.right;
      var rst1 := if Bit(nb, h) == 0 && t.right.Node? then t.right else rst;
      LeftIn(whole, nb, r1, next, rst1) && AllFit(rst1, nb) && Below(next, rst1) && Apart(rst1)
  {
    hide Has, SizeOf, Shr, NoBetter, Below, Bit, AllFit;
    InsertDown(nb, h, p);
    SideBelow(t, rst);
    LeftBelow(t, h, p);
    var zero := Bit(nb, h) == 0;
    var next := if zero then t.left else t.right;
    var rst1 := if zero && t.right.Node? then t.right else rst;
    if zero { PrefixFits(t.right, h - 1, 2 * p + 1, nb); }
    forall q | 0 <= q <= r1 && NoBetter(next, nb, q) && NoBetter(rst1, nb, q)
      ensures NoBetter(whole, nb, q)
    {
      if zero {
        if t.right.Node? { AboveNoBetter(t.right, rst, nb, q); } else { LeafNoBetter(nb, q); }
      } else {
        PrefixTooSmall(t.left, h - 1, 2 * p, nb, q);
      }
      BothSides(t, nb, q);
    }
  }

  lemma SearchStart(t: Tree, nb: nat, r: nat)
    ensures LeftIn(t, nb, r, t, Leaf) && AllFit(Leaf, nb) && Below(t, Leaf) && Apart(Leaf)
  {
  }

  /** The search in one tree goes on in the other alone. */
  lemma SearchOther(whole: Tree, rst: Tree, nb: nat, r: nat)
    requires LeftIn(whole, nb, r, Leaf, rst)
    ensures LeftIn(whole, nb, r, rst, Leaf)
  {
    hide NoBetter;
    LeafNoBetter(nb, 0);
    forall q | 0 <= q <= r && NoBetter(rst, nb, q) && NoBetter(Leaf, nb, q)
      ensures NoBetter(whole, nb, q)
    {
      LeafNoBetter(nb, q);
    }
  }

  lemma SearchDone(whole: Tree, nb: nat, r: nat)
    requires LeftIn(whole, nb, r, Leaf, Leaf)
    ensures NoBetter(whole, nb, r)
  {
    hide NoBetter;
    LeafNoBetter(nb, r);
  }

  /** An exact fit cannot be bettered. */
  lemma ExactBest(t: Tree, nb: nat)
    ensures NoBetter(t, nb, 0)
  {
  }
}
