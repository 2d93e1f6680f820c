/** table.sort (lib_table.c): in-place quicksort with median of three, recursing only into the
    smaller part, for comparison functions that may answer anything. */
module TableSort {
  import opened Wrappers

  /** Raised when the comparison function contradicts itself. */
  datatype InvalidOrder = InvalidOrder

  /** A comparison function: its answer may depend on how often it was called before. */
  type Order<!T> = (T, T, nat) -> bool

  /** A strict weak order, always answered alike: asymmetric, and not-less is transitive. */
  ghost predicate StrictWeak<T(!new)>(lt: Order<T>) {
    (forall x, y, t :: lt(x, y, t) == lt(x, y, 0))
    && (forall x, y :: lt(x, y, 0) ==> !lt(y, x, 0))
    && (forall x, y, z :: !lt(x, y, 0) && !lt(y, z, 0) ==> !lt(x, z, 0))
  }

  /** `x` may stand before `y`. */
  predicate Le<T>(lt: Order<T>, x: T, y: T) { !lt(y, x, 0) }

  ghost predicate Sorted<T>(lt: Order<T>, s: seq<T>, l: int, u: int) {
    forall i, j :: 0 <= l <= i < j <= u < |s| ==> Le(lt, s[i], s[j])
  }

  /** `t` is `s` with the elements from `l` to `u` permuted. */
  ghost predicate Permuted<T>(s: seq<T>, t: seq<T>, l: int, u: int) {
    |s| == |t| && multiset(s) == multiset(t) && forall k :: 0 <= k < |s| && !(l <= k <= u) ==> t[k] == s[k]
  }

  lemma PermutedWider<T>(s: seq<T>, t: seq<T>, l: int, u: int, l1: int, u1: int)
    requires Permuted(s, t, l, u) && l1 <= l && u <= u1
    ensures Permuted(s, t, l1, u1)
  {
  }

  lemma PermutedTrans<T>(s: seq<T>, t: seq<T>, v: seq<T>, l: int, u: int)
    requires Permuted(s, t, l, u) && Permuted(t, v, l, u)
    ensures Permuted(s, v, l, u)
  {
  }

  function Swapped<T>(s: seq<T>, i: nat, j: nat): seq<T>
    requires i < |s| && j < |s|
  {
    s[i := s[j]][j := s[i]]
  }

  lemma SwappedPermuted<T>(s: seq<T>, i: nat, j: nat, l: int, u: int)
    requires l <= i <= u && l <= j <= u && i < |s| && j < |s|
    ensures Permuted(s, Swapped(s, i, j), l, u)
  {
    var t := Swapped(s, i, j);
    UpdateElements(s, i, s[j]);
    UpdateElements(s[i := s[j]], j, s[i]);
    assert multiset(t) == multiset(s);
  }

  lemma UpdateElements<T>(s: seq<T>, i: nat, x: T)
    requires i < |s|
    ensures multiset(s[i := x]) == multiset(s) - multiset{s[i]} + multiset{x}
  {
  }

  lemma Cancel<T>(a: multiset<T>, b: multiset<T>, b': multiset<T>, c: multiset<T>)
    requires a + b + c == a + b' + c
    ensures b == b'
  {
    forall x ensures b[x] == b'[x] {
      assert (a + b + c)[x] == a[x] + b[x] + c[x];
      assert (a + b' + c)[x] == a[x] + b'[x] + c[x];
    }
  }

  lemma ThreeParts<T>(s: seq<T>, l: nat, u: nat)
    requires l <= u < |s|
    ensures multiset(s) == multiset(s[..l]) + multiset(s[l..u + 1]) + multiset(s[u + 1..])
  {
    assert s == s[..l] + s[l..u + 1] + s[u + 1..];
  }

  /** What the elements of a stretch have in common survives permuting the stretch. */
  lemma {:induction false} StretchKeeps<T>(s: seq<T>, t: seq<T>, l: nat, u: int, k: nat) returns (m: nat)
    requires Permuted(s, t, l, u) && l <= k <= u < |s|
    ensures l <= m <= u && s[m] == t[k]
  {
    var s1, t1 := s[l..u + 1], t[l..u + 1];
    ThreeParts(s, l, u);
    ThreeParts(t, l, u);
    assert s[..l] == t[..l] && s[u + 1..] == t[u + 1..];
    Cancel(multiset(s[..l]), multiset(s1), multiset(t1), multiset(s[u + 1..]));
    assert t1[k - l] in multiset(t1);
    var m1 :| 0 <= m1 < |s1| && s1[m1] == t1[k - l];
    m := m1 + l;
  }

  // ----------------------------------------------------------------- bounds of parts

  ghost predicate Below<T>(lt: Order<T>, s: seq<T>, l: int, u: int, p: T) {
    forall k :: 0 <= l <= k <= u < |s| ==> Le(lt, s[k], p)
  }

  ghost predicate Above<T>(lt: Order<T>, s: seq<T>, l: int, u: int, p: T) {
    forall k :: 0 <= l <= k <= u < |s| ==> Le(lt, p, s[k])
  }

  /** The part from `l` to `u` is between what is before it and what is behind it, and those
      are in order already: the whole is sorted once the part is. */
  ghost predicate Framed<T>(lt: Order<T>, s: seq<T>, l0: int, u0: int, l: int, u: int) {
    0 <= l0 && u0 < |s| && l0 <= l && u <= u0
    && (forall i, j :: l0 <= i < l && i < j <= u0 ==> Le(lt, s[i], s[j]))
    && (forall i, j :: l0 <= i < j <= u0 && u < j ==> Le(lt, s[i], s[j]))
  }

  lemma FramedKeeps<T>(lt: Order<T>, s: seq<T>, t: seq<T>, l0: int, u0: int, l: nat, u: int)
    requires Permuted(s, t, l, u)
    ensures Framed(lt, s, l0, u0, l, u) ==> Framed(lt, t, l0, u0, l, u)
  {
    if Framed(lt, s, l0, u0, l, u) { FramedPermuted(lt, s, t, l0, u0, l, u); }
  }

  lemma FramedPermuted<T>(lt: Order<T>, s: seq<T>, t: seq<T>, l0: int, u0: int, l: nat, u: int)
    requires Framed(lt, s, l0, u0, l, u) && Permuted(s, t, l, u)
    ensures Framed(lt, t, l0, u0, l, u)
  {
    forall i, j | l0 <= i < l && i < j <= u0 ensures Le(lt, t[i], t[j]) {
      if l <= j <= u { var m := StretchKeeps(s, t, l, u, j); }
    }
    forall i, j | l0 <= i < j <= u0 && u < j ensures Le(lt, t[i], t[j]) {
      if l <= i <= u { var m := StretchKeeps(s, t, l, u, i); }
    }
  }

  lemma BelowKeeps<T>(lt: Order<T>, s: seq<T>, t: seq<T>, l: nat, u: int, p: T)
    requires Permuted(s, t, l, u) && u < |s|
    ensures Below(lt, s, l, u, p) ==> Below(lt, t, l, u, p)
    ensures Above(lt, s, l, u, p) ==> Above(lt, t, l, u, p)
  {
    forall k | l <= k <= u ensures exists m :: l <= m <= u && s[m] == t[k] {
      var m := StretchKeeps(s, t, l, u, k);
    }
  }

  /** A part split at pivot position `i`, the left half sorted: the right half is framed. */
  lemma LeftDone<T(!new)>(lt: Order<T>, s: seq<T>, l0: int, u0: int, l: nat, u: int, i: int)
    requires StrictWeak(lt) && Framed(lt, s, l0, u0, l, u) && l <= i <= u
    requires Below(lt, s, l, i - 1, s[i]) && Above(lt, s, i + 1, u, s[i]) && Sorted(lt, s, l, i - 1)
    ensures Framed(lt, s, l0, u0, i + 1, u)
  {
    forall x, y | l0 <= x < i + 1 && x < y <= u0 ensures Le(lt, s[x], s[y]) {
      if l <= x && y <= u && x < i && i < y {
        assert Le(lt, s[x], s[i]) && Le(lt, s[i], s[y]);
      }
    }
  }

  lemma RightDone<T(!new)>(lt: Order<T>, s: seq<T>, l0: int, u0: int, l: nat, u: int, i: int)
    requires StrictWeak(lt) && Framed(lt, s, l0, u0, l, u) && l <= i <= u
    requires Below(lt, s, l, i - 1, s[i]) && Above(lt, s, i + 1, u, s[i]) && Sorted(lt, s, i + 1, u)
    ensures Framed(lt, s, l0, u0, l, i - 1)
  {
    forall x, y | l0 <= x < y <= u0 && i - 1 < y ensures Le(lt, s[x], s[y]) {
      if l <= x && y <= u && x < i && i < y {
        assert Le(lt, s[x], s[i]) && Le(lt, s[i], s[y]);
      }
    }
  }

  /** Sorting a half, as a step of the whole. */
  lemma LeftSorted<T(!new)>(lt: Order<T>, s: seq<T>, t: seq<T>, l0: int, u0: int, l: nat, u: int, i: nat)
    requires l <= i <= u < |s| && Permuted(s, t, l, i - 1)
    ensures (StrictWeak(lt) && Framed(lt, s, l0, u0, l, u)
             && Below(lt, s, l, i - 1, s[i]) && Above(lt, s, i + 1, u, s[i]) && Sorted(lt, t, l, i - 1))
            ==> Framed(lt, t, l0, u0, i + 1, u)
  {
    PermutedWider(s, t, l, i - 1, l, u);
    FramedKeeps(lt, s, t, l0, u0, l, u);
    BelowKeeps(lt, s, t, l, i - 1, s[i]);
    if StrictWeak(lt) && Framed(lt, t, l0, u0, l, u) && Below(lt, t, l, i - 1, t[i]) && Above(lt, t, i + 1, u, t[i]) && Sorted(lt, t, l, i - 1) {
      LeftDone(lt, t, l0, u0, l, u, i);
    }
  }

  lemma RightSorted<T(!new)>(lt: Order<T>, s: seq<T>, t: seq<T>, l0: int, u0: int, l: nat, u: int, i: nat)
    requires l <= i <= u < |s| && Permuted(s, t, i + 1, u)
    ensures (StrictWeak(lt) && Framed(lt, s, l0, u0, l, u)
             && Below(lt, s, l, i - 1, s[i]) && Above(lt, s, i + 1, u, s[i]) && Sorted(lt, t, i + 1, u))
            ==> Framed(lt, t, l0, u0, l, i - 1)
  {
    PermutedWider(s, t, i + 1, u, l, u);
    FramedKeeps(lt, s, t, l0, u0, l, u);
    BelowKeeps(lt, s, t, i + 1, u, s[i]);
    if StrictWeak(lt) && Framed(lt, t, l0, u0, l, u) && Below(lt, t, l, i - 1, t[i]) && Above(lt, t, i + 1, u, t[i]) && Sorted(lt, t, i + 1, u) {
      RightDone(lt, t, l0, u0, l, u, i);
    }
  }

  /** The half that is not sorted yet is framed. */
  lemma HalfSorted<T(!new)>(lt: Order<T>, s: seq<T>, t: seq<T>, l0: int, u0: int, l: nat, u: int, i: nat, left: bool)
    requires l <= i <= u < |s| && if left then Permuted(s, t, l, i - 1) else Permuted(s, t, i + 1, u)
    ensures (StrictWeak(lt) && Framed(lt, s, l0, u0, l, u) && Below(lt, s, l, i - 1, s[i]) && Above(lt, s, i + 1, u, s[i])
             && (if left then Sorted(lt, t, l, i - 1) else Sorted(lt, t, i + 1, u)))
            ==> if left then Framed(lt, t, l0, u0, i + 1, u) else Framed(lt, t, l0, u0, l, i - 1)
  {
    hide StrictWeak, Framed, Below, Above, Sorted, Permuted;
    if left { LeftSorted(lt, s, t, l0, u0, l, u, i); } else { RightSorted(lt, s, t, l0, u0, l, u, i); }
  }

  lemma FramedAll<T>(lt: Order<T>, s: seq<T>, l: int, u: int)
    requires 0 <= l && u < |s|
    ensures Framed(lt, s, l, u, l, u)
  {
  }

  lemma PartSorted<T>(lt: Order<T>, s: seq<T>, l0: int, u0: int, l: nat, u: int)
    ensures Framed(lt, s, l0, u0, l, u) && (l < u ==> Sorted(lt, s, l, u)) ==> Sorted(lt, s, l0, u0)
  {
  }

  // --------------------------------------------------------------------------- depth

  /** The largest `d` with 2^d <= n. */
  function Log2(n: nat): nat { if n < 2 then 0 else 1 + Log2(n / 2) }

  lemma {:induction false} Log2Monotone(m: nat, n: nat)
    requires m <= n
    ensures Log2(m) <= Log2(n)
    decreases n
  {
    if m >= 2 { Log2Monotone(m / 2, n / 2); }
  }

  /** One level more, for less than half as many elements. */
  lemma HalfDeeper(m: nat, n: nat)
    requires 2 * m < n && n >= 2
    ensures 1 + Log2(m) <= Log2(n)
  {
    Log2Monotone(m, n / 2);
  }

  // ----------------------------------------------------------------------- the sorter

  /** A call of the comparison function: what the array was, and which elements it was given. */
  datatype Comparison<T> = Comparison(s: seq<T>, i: int, j: int, p: T, q: T)

  /** The function sees current elements of positions between `l` and `u`, of a permutation of
      the original array. */
  ghost predicate Fair<T>(c: Comparison<T>, s0: seq<T>, l: int, u: int) {
    l <= c.i <= u && l <= c.j <= u && 0 <= c.i < |c.s| && 0 <= c.j < |c.s| && c.p == c.s[c.i] && c.q == c.s[c.j]
    && Permuted(s0, c.s, l, u)
  }

  ghost predicate AllFair<T>(log: seq<Comparison<T>>, s0: seq<T>, l: int, u: int) {
    forall k :: 0 <= k < |log| ==> Fair(log[k], s0, l, u)
  }

  lemma FairConcat<T>(a: seq<Comparison<T>>, b: seq<Comparison<T>>, s0: seq<T>, s1: seq<T>, l0: int, u0: int, l: int, u: int)
    requires AllFair(a, s0, l0, u0) && Permuted(s0, s1, l0, u0) && AllFair(b, s1, l, u) && l0 <= l && u <= u0
    ensures AllFair(a + b, s0, l0, u0)
  {
    forall k | 0 <= k < |a + b| ensures Fair((a + b)[k], s0, l0, u0) {
      if k >= |a| { assert Fair(b[k - |a|], s1, l, u); } else { assert Fair(a[k], s0, l0, u0); }
    }
  }

  /** Since the array was `s0` and the log `log0`, elements between `l` and `u` were permuted, and
      all comparisons were fair. */
  ghost predicate Tracked<T>(s0: seq<T>, log0: seq<Comparison<T>>, s: seq<T>, log: seq<Comparison<T>>, l: int, u: int) {
    Permuted(s0, s, l, u) && log0 <= log && AllFair(log[|log0|..], s0, l, u)
  }

  lemma TrackedNone<T>(s: seq<T>, log: seq<Comparison<T>>, l: int, u: int)
    ensures Tracked(s, log, s, log, l, u)
  {
    assert log[|log|..] == [];
  }

  /** Work on a part is work on the whole. */
  lemma TrackedTrans<T>(s0: seq<T>, log0: seq<Comparison<T>>, s1: seq<T>, log1: seq<Comparison<T>>, s2: seq<T>,
                        log2: seq<Comparison<T>>, l0: int, u0: int, l: int, u: int)
    requires Tracked(s0, log0, s1, log1, l0, u0) && Tracked(s1, log1, s2, log2, l, u) && l0 <= l && u <= u0
    ensures Tracked(s0, log0, s2, log2, l0, u0) && Permuted(s1, s2, l, u)
  {
    assert log2[|log0|..] == log1[|log0|..] + log2[|log1|..];
    FairConcat(log1[|log0|..], log2[|log1|..], s0, s1, l0, u0, l, u);
  }

  /** The pivot stands before the last element, which is not less. */
  lemma PartStart<T(!new)>(lt: Order<T>, s: seq<T>, l: nat, u: nat, m: nat)
    requires StrictWeak(lt) && l < m < u - 1 && u < |s| && Le(lt, s[l], s[m]) && Le(lt, s[m], s[u])
    ensures var t := Swapped(s, m, u - 1); Below(lt, t, l, l, s[m]) && Above(lt, t, u - 1, u, s[m]) && t[u - 1] == s[m]
  {
  }

  /** A round of the partition: the two elements that stopped the scans are exchanged. */
  lemma PartStep<T>(lt: Order<T>, s: seq<T>, l: nat, u: nat, i0: nat, j0: nat, i: nat, j: nat, p: T)
    requires l <= i0 < i <= j < j0 <= u < |s| && Below(lt, s, l, i0, p) && Above(lt, s, j0, u, p)
    requires Le(lt, p, s[i]) && Le(lt, s[j], p)
    requires (forall k :: i0 < k < i ==> Le(lt, s[k], p)) && (forall k :: j < k < j0 ==> Le(lt, p, s[k]))
    ensures Below(lt, Swapped(s, i, j), l, i, p) && Above(lt, Swapped(s, i, j), j, u, p)
  {
  }

  /** The scans have crossed: the pivot goes between the parts. */
  lemma PartEnd<T(!new)>(lt: Order<T>, s: seq<T>, l: nat, u: nat, i0: nat, j0: nat, i: nat, j: nat, p: T)
    requires StrictWeak(lt) && l <= i0 < i < u < |s| && l <= j < i && j < j0 <= u && s[u - 1] == p
    requires Below(lt, s, l, i0, p) && Above(lt, s, j0, u, p) && Le(lt, p, s[i])
    requires (forall k :: i0 < k < i ==> Le(lt, s[k], p)) && (forall k :: j < k < j0 ==> Le(lt, p, s[k]))
    ensures var t := Swapped(s, u - 1, i); t[i] == p && Below(lt, t, l, i - 1, p) && Above(lt, t, i + 1, u, p)
  {
    var t := Swapped(s, u - 1, i);
    forall k | i + 1 <= k <= u ensures Le(lt, p, t[k]) {
      assert Le(lt, p, s[k]);
    }
  }

  class Sorter<T(!new,==)> {
    const a: array<T>
    const lt: Order<T>
    var calls: nat
    ghost var log: seq<Comparison<T>>

    constructor (a: array<T>, lt: Order<T>)
      ensures this.a == a && this.lt == lt && log == []
    {
      this.a, this.lt, calls, log := a, lt, 0, [];
    }

    /** sort_comp, for the elements at `i` and `j`, which are `p` and `q`. */
    method Less(p: T, q: T, ghost i: nat, ghost j: nat) returns (r: bool)
      requires i < a.Length && j < a.Length && a[i] == p && a[j] == q
      modifies this`calls, this`log
      ensures r == lt(p, q, old(calls)) && log == old(log) + [Comparison(a[..], i, j, p, q)]
    {
      r := lt(p, q, calls);
      calls := calls + 1;
      log := log + [Comparison(a[..], i, j, p, q)];
    }

    /** set2: the two elements were read before. */
    method Swap(i: nat, j: nat)
      requires i < a.Length && j < a.Length
      modifies a
      ensures a[..] == Swapped(old(a[..]), i, j)
    {
      a[i], a[j] := a[j], a[i];
    }

    ghost predicate Track(s0: seq<T>, log0: seq<Comparison<T>>, l: int, u: int)
      reads this, a
    {
      Tracked(s0, log0, a[..], log, l, u)
    }

    /** Compare the elements at `i` and `j`. */
    method LessAt(p: T, q: T, i: nat, j: nat, ghost s0: seq<T>, ghost log0: seq<Comparison<T>>, ghost l: nat, ghost u: nat)
      returns (r: bool)
      requires l <= i <= u < a.Length && l <= j <= u && a[i] == p && a[j] == q && Track(s0, log0, l, u)
      modifies this`calls, this`log
      ensures r == lt(p, q, old(calls)) && Track(s0, log0, l, u)
    {
      ghost var c := Comparison(a[..], i, j, p, q);
      r := Less(p, q, i, j);
      assert log[|log0|..] == old(log)[|log0|..] + [c];
    }

    method SwapAt(i: nat, j: nat, ghost s0: seq<T>, ghost log0: seq<Comparison<T>>, ghost l: nat, ghost u: nat)
      requires l <= i <= u < a.Length && l <= j <= u && Track(s0, log0, l, u)
      modifies a
      ensures a[..] == Swapped(old(a[..]), i, j) && Track(s0, log0, l, u)
    {
      SwappedPermuted(a[..], i, j, l, u);
      PermutedTrans(s0, a[..], Swapped(a[..], i, j), l, u);
      Swap(i, j);
    }

    /** Arrange the first, middle and last element. The result says whether that is all. */
    method Median(l: nat, u: nat, ghost s0: seq<T>, ghost log0: seq<Comparison<T>>) returns (done: bool)
      requires l < u < a.Length && Track(s0, log0, l, u)
      modifies a, this`calls, this`log
      ensures Track(s0, log0, l, u) && done == (u - l <= 2)
      ensures StrictWeak(lt) ==> if done then Sorted(lt, a[..], l, u)
        else Le(lt, a[l], a[(l + u) / 2]) && Le(lt, a[(l + u) / 2], a[u])
    {
      hide Tracked;
      var less := LessAt(a[u], a[l], u, l, s0, log0, l, u);
      if less {
        SwapAt(l, u, s0, log0, l, u);
      }
      if u - l == 1 {
        return true;
      }
      var i := (l + u) / 2;
      less := LessAt(a[i], a[l], i, l, s0, log0, l, u);
      if less {
        SwapAt(i, l, s0, log0, l, u);
      } else {
        less := LessAt(a[u], a[i], u, i, s0, log0, l, u);
        if less {
          SwapAt(i, u, s0, log0, l, u);
        }
      }
      done := u - l == 2;
    }

    /** The next position behind `i0` whose element is not less than the pivot. The element at
        `stop` is one, if the order is a strict weak one. */
    method ScanUp(i0: nat, pivot: T, l: nat, u: nat, ghost stop: nat, ghost s0: seq<T>, ghost log0: seq<Comparison<T>>)
      returns (res: Result<nat, InvalidOrder>)
      requires l <= i0 < u < a.Length && l < u && a[u - 1] == pivot && Track(s0, log0, l, u)
      requires i0 < stop <= u && (StrictWeak(lt) ==> Le(lt, pivot, a[stop]))
      modifies this`calls, this`log
      ensures Track(s0, log0, l, u) && (res.Ok? ==> i0 < res.value <= u) && (StrictWeak(lt) ==> res.Ok?)
      ensures StrictWeak(lt) && res.Ok? ==>
        res.value <= stop && Le(lt, pivot, a[res.value]) && forall k :: i0 < k < res.value ==> Le(lt, a[k], pivot)
    {
      hide Tracked;
      var i := i0 + 1;
      while true
        invariant i0 < i <= u && Track(s0, log0, l, u)
        invariant StrictWeak(lt) ==> i <= stop && forall k :: i0 < k < i ==> Le(lt, a[k], pivot)
        decreases u - i
      {
        var less := LessAt(a[i], pivot, i, u - 1, s0, log0, l, u);
        if !less {
          return Ok(i);
        }
        if i >= u {
          return Err(InvalidOrder);
        }
        i := i + 1;
      }
    }

    method ScanDown(j0: nat, pivot: T, l: nat, u: nat, ghost stop: nat, ghost s0: seq<T>, ghost log0: seq<Comparison<T>>)
      returns (res: Result<nat, InvalidOrder>)
      requires l < j0 <= u < a.Length && a[u - 1] == pivot && Track(s0, log0, l, u)
      requires l <= stop < j0 && (StrictWeak(lt) ==> Le(lt, a[stop], pivot))
      modifies this`calls, this`log
      ensures Track(s0, log0, l, u) && (res.Ok? ==> l <= res.value < j0) && (StrictWeak(lt) ==> res.Ok?)
      ensures StrictWeak(lt) && res.Ok? ==>
        stop <= res.value && Le(lt, a[res.value], pivot) && forall k :: res.value < k < j0 ==> Le(lt, pivot, a[k])
    {
      hide Tracked;
      var j := j0 - 1;
      while true
        invariant l <= j < j0 && Track(s0, log0, l, u)
        invariant StrictWeak(lt) ==> stop <= j && forall k :: j < k < j0 ==> Le(lt, pivot, a[k])
        decreases j
      {
        var less := LessAt(pivot, a[j], u - 1, j, s0, log0, l, u);
        if !less {
          return Ok(j);
        }
        if j <= l {
          return Err(InvalidOrder);
        }
        j := j - 1;
      }
    }

    /** Both scans, and the exchange of the elements they stop at, if they have not crossed. */
    method Round(i0: nat, j0: nat, pivot: T, l: nat, u: nat, ghost s0: seq<T>, ghost log0: seq<Comparison<T>>)
      returns (res: Result<(nat, nat), InvalidOrder>)
      requires l <= i0 <= j0 < u < a.Length && l < j0 && (j0 < u - 1 || i0 < j0) && Track(s0, log0, l, u) && a[u - 1] == pivot
      requires StrictWeak(lt) ==> Below(lt, a[..], l, i0, pivot) && Above(lt, a[..], j0, u, pivot)
      modifies a, this`calls, this`log
      ensures Track(s0, log0, l, u) && (StrictWeak(lt) ==> res.Ok?)
      ensures res.Ok? ==> i0 < res.value.0 <= u && l <= res.value.1 < j0
      ensures res.Ok? && res.value.1 < res.value.0 && StrictWeak(lt) ==> res.value.0 < u && var t := Swapped(a[..], u - 1, res.value.0);
        t[res.value.0] == pivot && Below(lt, t, l, res.value.0 - 1, pivot) && Above(lt, t, res.value.0 + 1, u, pivot)
      ensures res.Ok? && res.value.0 <= res.value.1 ==> a[u - 1] == pivot
      ensures res.Ok? && res.value.0 <= res.value.1 && StrictWeak(lt) ==> Below(lt, a[..], l, res.value.0, pivot) && Above(lt, a[..], res.value.1, u, pivot)
    {
      hide Tracked, StrictWeak;
      ghost var up, down := if i0 < j0 then j0 else i0 + 1, if i0 < j0 then i0 else j0 - 1;
      var i :- ScanUp(i0, pivot, l, u, up, s0, log0);
      var j :- ScanDown(j0, pivot, l, u, down, s0, log0);
      if j < i {
        if StrictWeak(lt) { PartEnd(lt, a[..], l, u, i0, j0, i, j, pivot); }
      } else {
        if StrictWeak(lt) { PartStep(lt, a[..], l, u, i0, j0, i, j, pivot); }
        SwapAt(i, j, s0, log0, l, u);
      }
      return Ok((i, j));
    }

    /** Split the part at a pivot: what is not greater before it, what is not less behind it. */
    method Partition(l: nat, u: nat, ghost s0: seq<T>, ghost log0: seq<Comparison<T>>) returns (res: Result<nat, InvalidOrder>)
      requires l + 3 <= u < a.Length && Track(s0, log0, l, u)
      requires StrictWeak(lt) ==> Le(lt, a[l], a[(l + u) / 2]) && Le(lt, a[(l + u) / 2], a[u])
      modifies a, this`calls, this`log
      ensures Track(s0, log0, l, u) && (res.Ok? ==> l < res.value <= u) && (StrictWeak(lt) ==> res.Ok?)
      ensures StrictWeak(lt) && res.Ok? ==>
        Below(lt, a[..], l, res.value - 1, a[res.value]) && Above(lt, a[..], res.value + 1, u, a[res.value])
    {
      hide Tracked, StrictWeak, Below, Above;
      var i := (l + u) / 2;
      var pivot := a[i];
      if StrictWeak(lt) { PartStart(lt, a[..], l, u, i); }
      SwapAt(i, u - 1, s0, log0, l, u);
      var j := u - 1;
      i := l;
      while true
        invariant l <= i <= j < u && l < j && (j < u - 1 || i < j) && Track(s0, log0, l, u) && a[u - 1] == pivot
        invariant StrictWeak(lt) ==> Below(lt, a[..], l, i, pivot) && Above(lt, a[..], j, u, pivot)
        decreases j - i
      {
        var next :- Round(i, j, pivot, l, u, s0, log0);
        i, j := next.0, next.1;
        if j < i {
          break;
        }
      }
      SwapAt(u - 1, i, s0, log0, l, u);
      return Ok(i);
    }

    /** Arrange three elements and split the part, unless that is all of it. */
    method Split(l: nat, u: nat) returns (res: Result<Option<nat>, InvalidOrder>)
      requires l < u < a.Length
      modifies a, this`calls, this`log
      ensures Track(old(a[..]), old(log), l, u) && (StrictWeak(lt) ==> res.Ok?)
      ensures StrictWeak(lt) && res == Ok(None) ==> Sorted(lt, a[..], l, u)
      ensures res.Ok? && res.value.Some? ==> l < res.value.value <= u && u - l > 2
      ensures StrictWeak(lt) && res.Ok? && res.value.Some? ==>
        Below(lt, a[..], l, res.value.value - 1, a[res.value.value]) && Above(lt, a[..], res.value.value + 1, u, a[res.value.value])
    {
      hide StrictWeak, Tracked, Sorted, Below, Above;
      ghost var s1, log1 := a[..], log;
      TrackedNone(s1, log1, l, u);
      var done := Median(l, u, s1, log1);
      if done {
        return Ok(None);
      }
      var i :- Partition(l, u, s1, log1);
      return Ok(Some(i));
    }

    /** auxsort. Whatever the comparison function answers, the array stays a permutation at
        every comparison and only elements of the part are looked at or moved; the recursion is
        no deeper than the logarithm of the size. With a strict weak order there is no error and
        the part ends up sorted. The result is the depth of the recursion. */
    method AuxSort(l0: int, u0: int) returns (res: Result<nat, InvalidOrder>)
      requires 0 <= l0 <= u0 + 1 && u0 < a.Length
      modifies a, this`calls, this`log
      ensures Track(old(a[..]), old(log), l0, u0)
      ensures res.Ok? ==> res.value <= Log2(u0 - l0 + 1)
      ensures StrictWeak(lt) ==> res.Ok? && Sorted(lt, a[..], l0, u0)
      decreases u0 - l0 + 1
    {
      hide StrictWeak, Tracked, Framed, Sorted, Below, Above, Permuted, Log2;
      var l, u := l0, u0;
      var depth: nat := 0;
      ghost var s0, log0 := a[..], log;
      TrackedNone(s0, log0, l0, u0);
      FramedAll(lt, s0, l0, u0);
      while l < u
        invariant l0 <= l <= u + 1 && u <= u0 && Track(s0, log0, l0, u0) && depth <= Log2(u0 - l0 + 1)
        invariant StrictWeak(lt) ==> Framed(lt, a[..], l0, u0, l, u)
        decreases u - l
      {
        ghost var s1, log1 := a[..], log;
        var half := Split(l, u);
        ghost var s3, log3 := a[..], log;
        TrackedTrans(s0, log0, s1, log1, s3, log3, l0, u0, l, u);
        if half.Err? {
          return Err(half.error);
        }
        FramedKeeps(lt, s1, s3, l0, u0, l, u);
        if half.value.None? {
          PartSorted(lt, s3, l0, u0, l, u);
          return Ok(depth);
        }
        var i := half.value.value;
        var left := i - l < u - i;
        var lo, hi := if left then l else i + 1, if left then i - 1 else u;
        var r := AuxSort(lo, hi);
        HalfDeeper(hi - lo + 1, u0 - l0 + 1);
        TrackedTrans(s0, log0, s3, log3, a[..], log, l0, u0, lo, hi);
        HalfSorted(lt, s3, a[..], l0, u0, l, u, i, left);
        if left {
          l := i + 1;
        } else {
          u := i - 1;
        }
        if r.Err? {
          return r;
        }
        depth := if depth > 1 + r.value then depth else 1 + r.value;
      }
      PartSorted(lt, a[..], l0, u0, l, u);
      return Ok(depth);
    }

    /** table.sort on the whole array. */
    method Sort() returns (res: Result<nat, InvalidOrder>)
      modifies a, this`calls, this`log
      ensures multiset(a[..]) == multiset(old(a[..])) && old(log) <= log
      ensures AllFair(log[|old(log)|..], old(a[..]), 0, a.Length - 1)
      ensures res.Ok? ==> res.value <= Log2(a.Length)
      ensures StrictWeak(lt) ==> res.Ok? && Sorted(lt, a[..], 0, a.Length - 1)
    {
      res := AuxSort(0, a.Length - 1);
    }
  }
}
