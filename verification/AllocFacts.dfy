/** What the methods of the allocator (lj_alloc.c) need about its state: sizes in a word, which
    words are written, and what a program's chunk has after a step. */
module AllocFacts {
  import opened ByteStrings
  import opened AllocSizes
  import opened AllocTiles
  import opened AllocSpace
  import opened AllocKeep
  import opened AllocBins
  import opened AllocBinOps
  import opened AllocFit
  import opened AllocSteps
  import opened AllocSystem
  import opened AllocSegments
  import opened AllocGrow

  const PAGE: nat := 4096
  const TRIM_THRESHOLD: nat := 0x20_0000
  const RELEASE_RATE: nat := 255
  const MMAP_THRESHOLD: nat := 0x2_0000

  /** Segments come in units of 128K, and the list has a node for each. */
  predicate Listed(segs: seq<Seg>, recs: seq<nat>) {
    |recs| == |segs| && forall i {:trigger segs[i]} :: 0 <= i < |segs| ==> segs[i].size % UNIT == 0
  }

  /** The size of all segments. */
  function Total(segs: seq<Seg>): nat {
    if segs == [] then 0 else Total(segs[..|segs| - 1]) + segs[|segs| - 1].size
  }

  lemma {:induction false} TotalWithout(segs: seq<Seg>, k: nat)
    requires k < |segs|
    ensures Total(segs) == Total(segs[..k] + segs[k + 1..]) + segs[k].size
  {
    var front := segs[..|segs| - 1];
    if k < |segs| - 1 {
      TotalWithout(front, k);
      var rest := segs[..k] + segs[k + 1..];
      assert rest[..|rest| - 1] == front[..k] + front[k + 1..];
    } else {
      assert segs[..k] + segs[k + 1..] == front;
    }
  }

  lemma {:induction false} TotalSet(segs: seq<Seg>, seg: Seg)
    requires segs != []
    ensures Total(segs[0 := seg]) + segs[0].size == Total(segs) + seg.size
  {
    var segs1 := segs[0 := seg];
    if |segs| > 1 {
      TotalSet(segs[..|segs| - 1], seg);
      assert segs1[..|segs| - 1] == segs[..|segs| - 1][0 := seg];
    }
  }

  /** No page from `base` on is mapped yet. */
  predicate Unmapped(segs: seq<Seg>, direct: map<nat, nat>, base: nat, size: nat) {
    && (forall i :: 0 <= i < |segs| ==> SegApart(Seg(base, size), segs[i]))
    && forall p :: p in direct ==> SegApart(Seg(p, direct[p] + 16), Seg(base, size))
  }

  /** What the system will say, in order: the places where it maps memory and moves regions, and
      whether it takes memory back. A place that it cannot mean is a refusal. */
  datatype System = System(maps: seq<nat>, moves: seq<nat>, unmaps: seq<bool>)

  function Answer(answers: seq<nat>, i: nat): nat { if i < |answers| then answers[i] else 0 }

  function Later<T>(answers: seq<T>): seq<T> { if answers == [] then [] else answers[1..] }

  function Takes(answers: seq<bool>, i: nat): bool { i < |answers| && answers[i] }

  /** `base` is a place for `size` bytes: pages that are apart from all others. */
  predicate Grants(segs: seq<Seg>, direct: map<nat, nat>, size: nat, base: nat) {
    base > 0 && base % PAGE == 0 && base + size < WORD && Unmapped(segs, direct, base, size)
  }

  /** Whole pages and whole units, not in a word. */
  function PageUp(s: nat): (r: nat)
    ensures r % PAGE == 0 && s <= r < s + PAGE
  {
    (s + PAGE - 1) / PAGE * PAGE
  }

  function UnitUp(s: nat): (r: nat)
    ensures r % UNIT == 0 && s <= r < s + UNIT
  {
    (s + UNIT - 1) / UNIT * UNIT
  }

  /** A segment for a chunk of `nb` bytes, with what closes it, can be and is mapped at `base`. */
  predicate SegServes(s: Space, nb: nat, base: nat) {
    UnitUp(nb + 33) < WORD && Grants(s.segs, s.direct, UnitUp(nb + 33), base)
  }

  predicate DirectServes(s: Space, nb: nat, base: nat) {
    PageUp(nb + 31) < WORD && Grants(s.segs, s.direct, PageUp(nb + 31), base)
  }

  /** The system serves a request for a chunk: a large one, on its own, if it can be asked for that
      and agrees; otherwise in a segment. */
  predicate SysServes(s: Space, nb: nat, answers: seq<nat>) {
    if nb >= MMAP_THRESHOLD && PageUp(nb + 31) < WORD then DirectServes(s, nb, Answer(answers, 0)) || SegServes(s, nb, Answer(answers, 1))
    else SegServes(s, nb, Answer(answers, 0))
  }

  predicate AllTaken(answers: seq<bool>, n: nat) {
    forall i {:trigger Takes(answers, i)} :: 0 <= i < n ==> Takes(answers, i)
  }

  /** Segment `k` is not there any more; the others and their chunks are. */
  ghost predicate SegmentGone(s: Space, s1: Space, k: nat) {
    && k < |s.segs| && s1.segs == s.segs[..k] + s.segs[k + 1..]
    && forall p {:trigger p in s1.tiles} :: p in s1.tiles ==> p in s.tiles && s1.tiles[p] == s.tiles[p]
  }

  lemma LaterTaken(answers: seq<bool>, n: nat)
    requires AllTaken(answers, n) && n > 0
    ensures Takes(answers, 0) && AllTaken(Later(answers), n - 1) && AllTaken(answers, n - 1)
  {
    assert Takes(answers, 0);
    forall i | 0 <= i < n - 1 ensures Takes(Later(answers), i) { assert Takes(answers, i + 1); }
  }

  /** None of the first `k` segments, but for that of the top chunk, is without a chunk in use. */
  ghost predicate AllUsed(s: Space, k: nat) {
    forall i: nat {:trigger Unused(s, i)} :: 0 < i < k && i < |s.segs| ==> !Unused(s, i)
  }

  lemma UsedEnds(s: Space, k: nat)
    ensures AllUsed(s, 1) && (AllUsed(s, k) && k >= |s.segs| ==> AllUsed(s, |s.segs|))
  {
  }

  lemma UsedNext(s: Space, s1: Space, k: nat)
    requires AllUsed(s, k) && s1.segs == s.segs && s1.tiles == s.tiles && !Unused(s, k)
    ensures AllUsed(s1, k + 1)
  {
    forall i: nat | 0 < i < k + 1 && i < |s1.segs| && Unused(s1, i) ensures false { assert Unused(s, i); }
  }

  lemma UsedGone(s: Space, s1: Space, k: nat)
    requires AllUsed(s, k) && SegmentGone(s, s1, k)
    ensures AllUsed(s1, k) && |s1.segs| == |s.segs| - 1
  {
    forall i: nat | 0 < i < k && i < |s1.segs| && Unused(s1, i) ensures false { UnusedBefore(s, s1, k, i); }
  }

  /** One step of the release. */
  lemma ReleasedUsed(s: Space, s1: Space, k: nat, n: nat, sys: System, sys1: System, answers: seq<bool>, m: nat)
    requires 0 < k < |s.segs| && (n != 0 <==> Unused(s, k) && Takes(sys.unmaps, 0))
    requires sys1 == if Unused(s, k) then sys.(unmaps := Later(sys.unmaps)) else sys
    requires if n == 0 then s1.tiles == s.tiles && s1.segs == s.segs else SegmentGone(s, s1, k)
    requires AllTaken(answers, m) ==> AllUsed(s, k) && AllTaken(sys.unmaps, |s.segs| + 1 - k)
    ensures var k1 := if n == 0 then k + 1 else k; AllTaken(answers, m) ==> AllUsed(s1, k1) && k1 <= |s1.segs| + 1 && AllTaken(sys1.unmaps, |s1.segs| + 1 - k1)
  {
    hide AllTaken, AllUsed, Unused, SegmentGone, Takes, Later;
    if AllTaken(answers, m) {
      LaterTaken(sys.unmaps, |s.segs| + 1 - k);
      if n == 0 { UsedNext(s, s1, k); } else { UsedGone(s, s1, k); }
    }
  }

  /** The list of segments has a node in the segment. */
  predicate Pinned(seg: Seg, recs: seq<nat>) { exists j :: 0 <= j < |recs| && Holds(seg, recs[j]) }

  /** If the system agrees, and nothing is in the way, the top chunk has less than a unit to spare. */
  predicate KeptSmall(segs: seq<Seg>, recs: seq<nat>, sys: System, pad: nat, topsize: nat) {
    AllTaken(sys.unmaps, |segs| + 1) && |segs| > 0 && !Pinned(segs[0], recs) ==> topsize <= pad + 32 + UNIT
  }

  lemma SmallNow(segs: seq<Seg>, recs: seq<nat>, sys: System, pad: nat, topsize: nat)
    requires topsize <= pad + 32
    ensures KeptSmall(segs, recs, sys, pad, topsize)
  {
  }

  lemma SmallTrimmed(segs: seq<Seg>, recs: seq<nat>, sys: System, pad: nat, topsize: nat)
    requires |segs| > 0 && (Takes(sys.unmaps, 0) && !Pinned(segs[0], recs) ==> topsize <= pad + 32 + UNIT)
    ensures KeptSmall(segs, recs, sys, pad, topsize)
  {
    if AllTaken(sys.unmaps, |segs| + 1) { LaterTaken(sys.unmaps, |segs| + 1); }
  }

  /** One answer less, or none. */
  lemma FewerTaken(answers: seq<bool>, answers1: seq<bool>, n: nat)
    requires answers1 == answers || answers1 == Later(answers)
    ensures AllTaken(answers, n + 1) ==> AllTaken(answers1, n)
  {
    if AllTaken(answers, n + 1) { LaterTaken(answers, n + 1); }
  }

  /** A chunk with its own memory, for `nb` bytes, can be moved to `base`. */
  predicate Remappable(s: Space, p: nat, nb: nat, base: nat) {
    PageUp(nb + 31) < WORD && Grants(s.segs, s.direct - {p}, PageUp(nb + 31), base)
  }

  /** A live chunk can get `nb` bytes where it is, or where the system moves it. */
  predicate InPlace(s: Space, p: nat, nb: nat, moves: seq<nat>) {
    if p in s.tiles then s.tiles[p].size >= nb || (End(s.tiles, p) == s.top && s.tiles[p].size + s.topsize > nb)
    else
      && p in s.direct && !IsSmall(nb)
      && ((s.direct[p] >= nb + 4 && s.direct[p] - nb <= UNIT / 2)
          || Remappable(s, p, nb, Answer(moves, 0)))
  }

  lemma UnmappedIs(s: Space, base: nat, size: nat)
    ensures Unmapped(s.segs, s.direct, base, size) ==> Apart(s, base, size, |s.segs|)
  {
  }

  /** Memory of `size` bytes at `p` is at `cp` now, with `newsize` bytes. */
  ghost predicate PagesMoved(m: Memory, m1: Memory, p: nat, size: nat, cp: nat, newsize: nat) {
    forall x: nat {:trigger m1(x)} :: if cp <= x < cp + newsize then x - cp < size ==> m1(x) == m(p + (x - cp)) else m1(x) == m(x)
  }

  function MovedByte(m: Memory, f: Memory, p: nat, size: nat, cp: nat, newsize: nat, x: nat): Byte {
    if !(cp <= x < cp + newsize) then m(x) else if x - cp < size then m(p + (x - cp)) else f(x)
  }

  /** segment_holds */
  predicate Holds(s: Seg, a: nat) { s.base <= a < s.base + s.size }

  lemma HeadStays(h: Heads, h1: Heads, p: nat, v: Head, q: nat)
    requires HeadSet(h, h1, p, v) && q in h
    ensures q in h1 && (q != p ==> h1[q] == h[q])
  {
  }

  lemma TopAligned(s: Space, loose: set<nat>)
    requires Ok(s, loose)
    ensures s.topsize % 8 == 0 && s.topsize > 0 && s.top % 8 == 0
  {
    TopEnd(s, loose);
    HeadsAt(s, loose, s.top);
  }

  lemma LooseChunk(s: Space, loose: set<nat>, p: nat)
    requires Ok(s, loose) && p in loose
    ensures p in s.tiles && !s.tiles[p].used && ChunkOk(p, s.tiles[p].size)
  {
    hide Tags, Lone, Binned, BasePins, TopOk, DvOk, Owned, Directs;
    GeoAt(s.tiles, s.segs, s.limits, p);
    var i: nat :| i < |s.segs| && Within(s.segs, s.limits, p, End(s.tiles, p), i);
    assert SegOk(s.segs[i], s.limits[i]);
  }

  /** Writes of heads and feet of a span are within it. */
  lemma Within2(m: Memory, m1: Memory, a: nat, b: nat)
    requires a < b && forall x: nat {:trigger m1(x)} :: !(a + 4 <= x < a + 8) && !(b + 4 <= x < b + 8) ==> m1(x) == m(x)
    ensures WritesWithin(m, m1, a, b)
  {
  }

  lemma Within3(m: Memory, m1: Memory, a: nat, r: nat, b: nat)
    requires a < r < b
    requires forall x: nat {:trigger m1(x)} :: !(a + 4 <= x < a + 8) && !(r <= x < r + 8) && !(b <= x < b + 8) ==> m1(x) == m(x)
    requires a + 8 <= r && a + 8 <= b
    ensures WritesWithin(m, m1, a, b)
  {
  }

  /** Nothing is written. */
  lemma KeepsSelf2(s: Space, loose: set<nat>, s1: Space, m: Memory)
    requires Ok(s, loose) && s1.live == s.live && s1.tiles == s.tiles && s1.direct == s.direct
    ensures Keeps(s, m, s1, m, 0)
  {
    hide Ok;
    forall p | p in s.live ensures SameChunk(s, s1, p) { LiveIs(s, loose, p); }
  }

  /** Chunk `v` is a large one of the smallest size that fits. */
  ghost predicate Best(free: map<nat, nat>, v: nat, nb: nat) {
    v in free && free[v] >= nb && forall a :: a in free && !IsSmall(free[a]) && free[a] >= nb ==> free[v] <= free[a]
  }

  lemma BestIs(bins: Bins, v: nat, rsize: nat, nb: nat)
    requires bins.Valid() && 0 < nb < WORD && bins.Candidate(v, rsize, nb) && bins.IsBest(v, nb)
    ensures v != 0 ==> Best(bins.free, v, nb) && bins.free[v] == nb + rsize && bins.free[v] < WORD && !IsSmall(bins.free[v])
    ensures v == 0 ==> forall a :: a in bins.free && !IsSmall(bins.free[a]) ==> bins.free[a] < nb
  {
    hide AllOk;
    bins.FirstIs();
  }

  lemma DvBound(s: Space, loose: set<nat>)
    requires Ok(s, loose)
    ensures s.dvsize < WORD
  {
    hide Tags, Lone, Binned, BasePins, BigEnough, Owned, Directs, TopOk, LooseOk;
    if s.dv != 0 {
      GeoAt(s.tiles, s.segs, s.limits, s.dv);
      var i: nat :| i < |s.segs| && Within(s.segs, s.limits, s.dv, End(s.tiles, s.dv), i);
      assert SegOk(s.segs[i], s.limits[i]);
    }
  }

  lemma Within2b(m: Memory, m1: Memory, a: nat, b: nat)
    requires a + 8 <= b && forall x: nat {:trigger m1(x)} :: !(a + 4 <= x < a + 8) && !(b <= x < b + 8) ==> m1(x) == m(x)
    ensures WritesWithin(m, m1, a, b)
  {
  }

  lemma NoNull3(s: Space, loose: set<nat>)
    requires Ok(s, loose)
    ensures 0 !in s.tiles
  {
    NoNull2(s);
  }

  /** A free chunk with no other place is in a bin. */
  lemma InBins(s: Space, p: nat)
    requires Ok(s, {}) && p in s.tiles && !s.tiles[p].used && p != s.top && p != s.dv
    ensures p in s.free && s.free[p] == s.tiles[p].size
  {
    BinnedIs(s.free, s.tiles, s.top, s.dv, {}, p);
  }

  lemma ListedWithout(segs: seq<Seg>, recs: seq<nat>, k: nat)
    requires Listed(segs, recs) && k < |segs|
    ensures Listed(segs[..k] + segs[k + 1..], recs[..k] + recs[k + 1..])
  {
    var l := segs[..k] + segs[k + 1..];
    forall i | 0 <= i < |l| ensures l[i].size % UNIT == 0 { assert l[i] == segs[if i < k then i else i + 1]; }
  }

  lemma SegsAre(s: Space, loose: set<nat>)
    requires Ok(s, loose)
    ensures |s.segs| == |s.limits| > 0
  {
  }

  /** What passes the test for release is no small chunk. */
  lemma UnusedLarge(s: Space, recs: seq<nat>, k: nat)
    requires Ok(s, {}) && Listed(s.segs, recs) && 0 < k < |s.segs| && s.segs[k].base in s.heads
    requires var b := s.segs[k].base; !s.heads[b].cin && b + s.heads[b].size + 32 >= b + s.segs[k].size
    ensures var b := s.segs[k].base; Unused(s, k) && b in s.tiles && s.tiles[b] == Tile(s.heads[b].size, false) && b != s.top && !IsSmall(s.heads[b].size)
    ensures s.segs[k].size > 0
  {
    BaseIs(s, {}, k);
    HeadsAt(s, {}, s.segs[k].base);
    UnusedIs(s, {}, k);
    SegsAre(s, {});
    assert SegOk(s.segs[k], s.limits[k]);
  }

  /** The test on the first chunk of a segment. */
  lemma UnusedTest(s: Space, k: nat)
    requires Ok(s, {}) && 0 < k < |s.segs| && s.segs[k].base in s.heads
    ensures var b := s.segs[k].base; Unused(s, k) <==> !s.heads[b].cin && b + s.heads[b].size + 32 >= b + s.segs[k].size
  {
    BaseIs(s, {}, k);
    HeadsAt(s, {}, s.segs[k].base);
  }

  lemma GoneFrom(s: Space, s1: Space, s2: Space, k: nat)
    requires SegmentGone(s1, s2, k) && s1.segs == s.segs && s1.tiles == s.tiles
    ensures SegmentGone(s, s2, k)
  {
  }

  /** What is left when a segment has gone was there before. */
  lemma UnusedBefore(s: Space, s1: Space, k: nat, i: nat)
    requires SegmentGone(s, s1, k) && i < |s1.segs| && Unused(s1, i)
    ensures Unused(s, if i < k then i else i + 1)
  {
  }

  lemma UnusedSame(s: Space, s1: Space, k: nat)
    requires Unused(s, k) && s1.segs == s.segs && s1.tiles == s.tiles
    ensures Unused(s1, k)
  {
  }

  /** What is cut off the top chunk leaves a top chunk and a segment in units. */
  lemma TrimBounds(s: Space, recs: seq<nat>, pad: nat)
    requires Ok(s, {}) && Listed(s.segs, recs) && s.topsize > pad >= 32
    ensures |s.segs| > 0 && Holds(s.segs[0], s.top) && s.topsize - pad + (UNIT - 1) < WORD
    ensures var extra := ((s.topsize - pad + (UNIT - 1)) / UNIT - 1) * UNIT;
      0 <= extra < s.topsize <= s.segs[0].size && (s.topsize - extra) % 8 == 0 && (s.segs[0].size - extra) % UNIT == 0
      && s.top + (s.topsize - extra) + 32 == s.segs[0].base + (s.segs[0].size - extra) <= WORD && Apart(s, s.segs[0].base, s.segs[0].size - extra, 0)
  {
    TopEnd(s, {});
    TopBase(s);
    TopAligned(s, {});
    assert SegOk(s.segs[0], s.limits[0]);
    var x := s.topsize - pad + (UNIT - 1);
    var extra := (x / UNIT - 1) * UNIT;
    Units(s.segs[0].size, x / UNIT - 1);
    forall i: nat | i < |s.segs| && i != 0
      ensures SegApart(Seg(s.segs[0].base, s.segs[0].size - extra), s.segs[i])
    {
      assert SegApart(s.segs[0], s.segs[i]);
    }
    forall p | p in s.direct
      ensures SegApart(Seg(p, s.direct[p] + 16), Seg(s.segs[0].base, s.segs[0].size - extra))
    {
      DirectIs(s, {}, p);
      DirectSeg(s.direct, s.segs, s.heads, s.foots, p, 0);
    }
  }

  lemma UnitEight(x: nat)
    requires x % UNIT == 0
    ensures x % 8 == 0 && (x > 0 ==> x >= UNIT)
  {
    var q := x / UNIT;
    assert x == q * 0x4000 * 8;
  }

  lemma PageEight(x: nat)
    requires x % PAGE == 0
    ensures x % 8 == 0 && (x > 0 ==> x >= PAGE)
  {
    var q := x / PAGE;
    assert x == q * 512 * 8;
  }

  lemma Units(size: nat, n: nat)
    requires size % UNIT == 0
    ensures (size - n * UNIT) % UNIT == 0 && n * UNIT % 8 == 0
  {
    var q := size / UNIT;
    assert size - n * UNIT == (q - n) * UNIT;
    assert n * UNIT == n * 0x4000 * 8;
  }

  /** What was taken out of its bin before the chunk that is given back. */
  function Before(p: nat, a: nat, dv: nat): set<nat> { if a != p && a != dv then {a} else {} }

  /** Chunk `p` up to `q`, with the free chunk before it from `a` if `a` is not `p`. */
  ghost predicate BackMerged(s: Space, p: nat, a: nat, q: nat) {
    && p in s.live && p in s.tiles && p in s.heads && q == End(s.tiles, p) && q in s.tiles
    && if a == p then s.heads[p].pin else a in s.tiles && End(s.tiles, a) == p && !s.tiles[a].used
  }

  lemma BackWords(s: Space, loose: set<nat>, p: nat, a: nat, q: nat)
    requires Ok(s, loose) && BackMerged(s, p, a, q) && (loose == {} || loose == Before(p, a, s.dv))
    ensures a in s.heads && q in s.heads && q in s.tiles && s.heads[q].cin == s.tiles[q].used && s.heads[q].size == s.tiles[q].size && p != s.dv && q > a && q != 0
    ensures s.topsize > 0 && s.tiles[q].size > 0 && (q == s.top ==> s.tiles[q] == Tile(s.topsize, false)) && (q == s.dv ==> s.dvsize > 0 && s.tiles[q] == Tile(s.dvsize, false))
    ensures !s.tiles[q].used && q != s.top && q != s.dv ==> q in s.free && s.free[q] == s.tiles[q].size
  {
    hide Ok, Lone;
    HeadsAt(s, loose, q);
    HeadsAt(s, loose, p);
    LiveIs(s, loose, p);
    DvIs(s, loose);
    TopAligned(s, loose);
    TopEnd(s, loose);
    if a != p { HeadsAt(s, loose, a); }
    BackBin(s, loose, q);
  }

  lemma BackBin(s: Space, loose: set<nat>, q: nat)
    requires Ok(s, loose) && q in s.tiles
    ensures !s.tiles[q].used && q != s.top && q != s.dv && q !in loose ==> q in s.free && s.free[q] == s.tiles[q].size
    ensures 0 !in s.tiles
  {
    BinnedIs(s.free, s.tiles, s.top, s.dv, loose, q);
    NoNull2(s);
  }

  /** Nothing behind was taken out of a bin. */
  lemma BackEdge(s: Space, p: nat, a: nat, q: nat, b: nat)
    requires BackMerged(s, p, a, q) && (if b == q then s.tiles[q].used else !s.tiles[q].used && b == End(s.tiles, q) && (q == s.top || q == s.dv))
    ensures Merging(s, p, a, q, b) && TakenOut(s, p, a, q, b) == Before(p, a, s.dv)
  {
  }

  /** The chunk behind was taken out of its bin. */
  lemma BackBoth(s: Space, s1: Space, p: nat, a: nat, q: nat, b: nat)
    requires BackMerged(s, p, a, q) && !s.tiles[q].used && b == End(s.tiles, q) && s.tiles[q].size > 0 && q != s.top && q != s.dv && s1 == s.(free := s1.free)
    ensures Merging(s1, p, a, q, b) && TakenOut(s1, p, a, q, b) == Before(p, a, s.dv) + {q}
  {
  }

  lemma BackSame(s: Space, s1: Space, p: nat, a: nat, q: nat)
    requires BackMerged(s, p, a, q) && s1 == s.(free := s1.free)
    ensures BackMerged(s1, p, a, q)
  {
  }

  lemma BackFree(s: Space, p: nat, a: nat, q: nat)
    requires Ok(s, {}) && BackMerged(s, p, a, q) && a != p && a != s.dv && a != s.top
    ensures a in s.free && s.free[a] == s.tiles[a].size
  {
    InBins(s, a);
  }

  lemma FreedPlace(s: Space, p: nat, a: nat, q: nat, b: nat)
    requires p != s.dv && (b == q || (q != s.top && q != s.dv))
    ensures FreedLoose(s, p, a, q, b) == if a == s.dv then {} else {a}
  {
  }

  lemma BackStart(s: Space, p: nat)
    requires Ok(s, {}) && p in s.live && p in s.heads
    ensures p in s.tiles && s.heads[p].pin ==> BackMerged(s, p, p, p + s.heads[p].size)
    ensures p in s.tiles && !s.heads[p].pin ==> p in s.foots && s.foots[p] <= p && var a := p - s.foots[p];
      BackMerged(s, p, a, p + s.heads[p].size) && a != p && a in s.tiles && s.tiles[a].size == s.foots[p] && a != s.top
    ensures p !in s.tiles ==> !s.heads[p].pin
  {
    hide Ok;
    LiveWords(s, p);
    if p in s.tiles && !s.heads[p].pin { FootIs(s, p); }
  }

  /** page_align, in a word */
  function PageAlign(s: nat): nat { (s + PAGE - 1) % WORD / PAGE * PAGE }

  /** granularity_align, in a word */
  function UnitAlign(s: nat): nat { (s + UNIT - 1) % WORD / UNIT * UNIT }

  /** The tests for a wrap-around are enough. */
  lemma AlignPage(nb: nat, d: nat)
    requires nb < WORD && d <= 64
    ensures PageAlign(nb + d) > nb ==> nb + d <= PageAlign(nb + d) < WORD && PageAlign(nb + d) % PAGE == 0 && nb + d < WORD
    ensures d > 0 ==> if PageUp(nb + d) < WORD then PageAlign(nb + d) == PageUp(nb + d) > nb else PageAlign(nb + d) <= nb
  {
    var x := nb + d + PAGE - 1;
    assert x % WORD == if x < WORD then x else x - WORD;
  }

  lemma AlignUnit(nb: nat, d: nat)
    requires nb < WORD && d <= 64
    ensures UnitAlign(nb + d) > nb ==> nb + d <= UnitAlign(nb + d) < WORD && UnitAlign(nb + d) % UNIT == 0 && nb + d < WORD
    ensures d > 0 ==> if UnitUp(nb + d) < WORD then UnitAlign(nb + d) == UnitUp(nb + d) > nb else UnitAlign(nb + d) <= nb
  {
    var x := nb + d + UNIT - 1;
    assert x % WORD == if x < WORD then x else x - WORD;
  }

  // --------------------------------------------------------- what is written, and where

  /** Nothing but what is from `lo` up to `hi` is written. */
  ghost predicate HeadsBut(h: Heads, h1: Heads, lo: nat, hi: nat) {
    forall q {:trigger q in h1} {:trigger q in h} :: q in h && !(lo <= q < hi) ==> q in h1 && h1[q] == h[q]
  }

  ghost predicate FootsBut(f: Foots, f1: Foots, lo: nat, hi: nat) {
    forall q {:trigger q in f1} {:trigger q in f} :: q in f && !(lo <= q < hi) ==> q in f1 && f1[q] == f[q]
  }

  ghost predicate MemBut(m: Memory, m1: Memory, lo: nat, hi: nat) {
    forall x: nat {:trigger m1(x)} :: !(lo <= x < hi) ==> m1(x) == m(x)
  }

  lemma {:induction false} Fours(x: nat)
    requires x % 8 == 0
    ensures x % 4 == 0
  {
    if x >= 8 { Fours(x - 8); }
  }

  lemma MemThree(m: Memory, m1: Memory, m2: Memory, m3: Memory, a: nat, end: nat)
    requires forall x: nat {:trigger m1(x)} :: !(a + 4 <= x < a + 8) ==> m1(x) == m(x)
    requires MemBut(m1, m2, a + 8, a + 20) && MemBut(m2, m3, a + 16 + 4, end) && a + 20 <= end
    ensures MemBut(m, m3, a + 4, end)
  {
  }

  lemma SetThenBut(h: Heads, h1: Heads, h2: Heads, p: nat, v: Head, lo: nat, lo1: nat, hi: nat)
    requires HeadSet(h, h1, p, v) && HeadsBut(h1, h2, lo1, hi) && lo <= p < lo1 <= hi
    ensures HeadsBut(h, h2, lo, hi) && p in h2 && h2[p] == v
  {
    assert p in h1;
  }

  lemma ListedSame(segs: seq<Seg>, recs: seq<nat>)
    requires Listed(segs, recs)
    ensures |recs| == |segs|
  {
  }

  lemma ListedMore(segs: seq<Seg>, recs: seq<nat>, seg: Seg, segs1: seq<Seg>, recs1: seq<nat>)
    requires Listed(segs, recs) && seg.size % UNIT == 0 && segs1 == [seg] + segs && |recs1| == |recs| + 1
    ensures Listed(segs1, recs1)
  {
    forall i | 0 <= i < |segs1| ensures segs1[i].size % UNIT == 0 { assert segs1[i] == if i == 0 then seg else segs[i - 1]; }
  }

  /** Where add_segment puts the record. */
  function RecordPlace(oldTop: nat, oldEnd: nat): nat
    requires oldEnd >= 39
  {
    var raw := oldEnd - 39;
    var asp := raw + (8 - (raw + 8) % 8) % 8;
    if asp < oldTop + MIN_CHUNK then oldTop else asp
  }

  lemma RecordEndIs(s: Space)
    requires Ok(s, {})
    ensures |s.segs| > 0 && Holds(s.segs[0], s.top)
    ensures var end := s.segs[0].base + s.segs[0].size; end >= 39 && end % 8 == 0 && end == s.top + s.topsize + 32
    ensures s.segs[0].base + s.segs[0].size >= 39 && RecordAt(s) == RecordPlace(s.top, s.segs[0].base + s.segs[0].size) && s.top % 8 == 0
  {
    TopEnd(s, {});
    TopBase(s);
    TopAligned(s, {});
  }

  /** The tags of a record's chunk at `c`, of the fencepost behind it, and of the rest of the old
      top chunk before it. */
  predicate RecordTags(heads: Heads, foots: Foots, c: nat, oldTop: nat) {
    && oldTop <= c && c in heads && heads[c] == Head(16, true, c == oldTop) && c + 16 in heads && heads[c + 16] == Head(4, true, true)
    && (c != oldTop ==> oldTop in heads && heads[oldTop] == Head(c - oldTop, false, true) && c in foots && foots[c] == c - oldTop)
  }

  lemma NewWords(s: Space, s1: Space, tbase: nat, tsize: nat, h: Heads, h1: Heads)
    requires Ok(s, {}) && tsize >= 48 && Apart(s, tbase, tsize, |s.segs|) && HeadSet(s.heads, h, tbase, Head(tsize - 32, false, true))
    requires HeadSet(h, h1, tbase + (tsize - 32), Head(32, false, false)) && |s.segs| > 0
    requires HeadsBut(h1, s1.heads, s.top, s.segs[0].base + s.segs[0].size) && FootsBut(s.foots, s1.foots, s.top + 1, s.segs[0].base + s.segs[0].size)
    requires RecordTags(s1.heads, s1.foots, RecordAt(s), s.top)
    ensures AddedWords(s, s1, tbase, tsize)
  {
    RecordIs(s);
    SegApartTop(s, tbase, tsize);
    hide Ok, Apart;
    var end := s.segs[0].base + s.segs[0].size;
    assert tbase in h1 && tbase + (tsize - 32) in h1;
    assert !(s.top <= tbase < end) && !(s.top <= tbase + (tsize - 32) < end);
    assert tbase in s1.heads && s1.heads[tbase] == Head(tsize - 32, false, true);
    assert tbase + (tsize - 32) in s1.heads && s1.heads[tbase + (tsize - 32)] == Head(32, false, false);
    assert RecordAt(s) != s.top ==> s.top in s1.heads && s1.heads[s.top] == Head(s.topsize, false, true);
    forall q | q in s.heads && !(s.top <= q < end) && !(tbase <= q < tbase + tsize) ensures q in s1.heads && s1.heads[q] == s.heads[q] { assert q in h1; }
    forall q | q in s.foots && !(s.top < q < end) ensures q in s1.foots && s1.foots[q] == s.foots[q] { }
    assert RecordAt(s) != s.top ==> RecordAt(s) in s1.foots && s1.foots[RecordAt(s)] == s.topsize;
    var csp, limit := RecordAt(s), tbase + tsize - 32;
    assert csp in s1.heads && s1.heads[csp] == Head(16, true, csp == s.top) && csp + 16 in s1.heads && s1.heads[csp + 16] == Head(4, true, true);
    assert limit == tbase + (tsize - 32);
  }

  lemma NewSegmentOk(s: Space, s1: Space, tbase: nat, tsize: nat, h: Heads, h1: Heads, m: Memory, m1: Memory)
    requires Ok(s, {}) && tbase % 8 == 0 && tbase > 0 && tsize > 0 && tsize % UNIT == 0 && tbase + tsize <= WORD && Apart(s, tbase, tsize, |s.segs|)
    requires |s.segs| == |s.limits| > 0 && HeadSet(s.heads, h, tbase, Head(tsize - 32, false, true)) && HeadSet(h, h1, tbase + (tsize - 32), Head(32, false, false))
    requires HeadsBut(h1, s1.heads, s.top, s.segs[0].base + s.segs[0].size) && FootsBut(s.foots, s1.foots, s.top + 1, s.segs[0].base + s.segs[0].size)
    requires RecordTags(s1.heads, s1.foots, RecordAt(s), s.top)
    requires s1.segs == [Seg(tbase, tsize)] + s.segs && Adopted(s.tiles, s1.tiles, s.limits, s1.limits, s.internal, s1.internal, RecordAt(s), tbase, tsize)
    requires s1.top == tbase && s1.topsize == tsize - 32 && s1.dv == s.dv && s1.dvsize == s.dvsize && s1.direct == s.direct && s1.live == s.live && s1.free == s.free
    requires forall x: nat {:trigger m1(x)} :: !(s.top + 4 <= x < s.segs[0].base + s.segs[0].size) && !(tbase <= x < tbase + tsize) ==> m1(x) == m(x)
    ensures Ok(s1, OldTop(s)) && Keeps(s, m, s1, m1, 0)
    ensures RecordAt(s) != s.top ==> s.top in s1.tiles && s1.tiles[s.top].size == RecordAt(s) - s.top && OldTop(s) == {s.top}
    ensures RecordAt(s) == s.top ==> OldTop(s) == {}
  {
    hide Ok, Keeps, Apart, HeadSet, AddedWords, HeadsBut, FootsBut, Added, Adopted, OldTop, RecordTags;
    UnitEight(tsize);
    NewWords(s, s1, tbase, tsize, h, h1);
    AddedBy(s, s1, tbase, tsize);
    AddedOk(s, s1, tbase, tsize);
    AddedKeeps(s, s1, tbase, tsize, m, m1);
    OldTopIs(s, s1, tbase, tsize);
  }

  lemma DirectBy(s: Space, s1: Space, p: nat, psize: nat, n: nat)
    requires p % 8 == 0 && p > 0 && psize % 8 == 0 && psize >= MIN_CHUNK && p + psize + 16 <= WORD && Apart(s, p, psize + 16, |s.segs|) && n + 8 <= psize
    requires LiveSet(s.direct, s1.direct, p, psize) && LiveSet(s.live, s1.live, p, n) && WordsWithin(s, s1, p, p + psize + 16)
    requires p in s1.heads && s1.heads[p] == Head(psize, true, false) && p in s1.foots && s1.foots[p] == 1
    requires s1.segs == s.segs && s1.limits == s.limits && s1.tiles == s.tiles && s1.internal == s.internal && s1.free == s.free
    requires s1.top == s.top && s1.topsize == s.topsize && s1.dv == s.dv && s1.dvsize == s.dvsize
    ensures DirectAdded(s, s1, p, psize, n)
  {
    hide WordsWithin, Apart;
  }

  lemma DirectWithin(s: Space, s1: Space, p: nat, size: nat)
    requires FootSet(s.foots, s1.foots, p, 1) && HeadsBut(s.heads, s1.heads, p, p + size) && size > 0
    ensures WordsWithin(s, s1, p, p + size) && p in s1.foots && s1.foots[p] == 1
  {
  }

  predicate Adopted(t: Tiles, t1: Tiles, l: seq<nat>, l1: seq<nat>, i: set<nat>, i1: set<nat>, csp: nat, tbase: nat, tsize: nat) {
    && tsize >= 32 && |l| > 0 && t1 == t[csp := Tile(16, true)][tbase := Tile(tsize - 32, false)]
    && l1 == [tbase + tsize - 32] + l[0 := csp + 16] && i1 == i + {csp}
  }

  lemma AddedBy(s: Space, s1: Space, tbase: nat, tsize: nat)
    requires |s.segs| == |s.limits| > 0 && tbase % 8 == 0 && tbase > 0 && tsize > 0 && tsize % UNIT == 0 && tbase + tsize <= WORD && Apart(s, tbase, tsize, |s.segs|)
    requires s1.segs == [Seg(tbase, tsize)] + s.segs && Adopted(s.tiles, s1.tiles, s.limits, s1.limits, s.internal, s1.internal, RecordAt(s), tbase, tsize)
    requires s1.top == tbase && s1.topsize == tsize - 32 && s1.dv == s.dv && s1.dvsize == s.dvsize && s1.direct == s.direct && s1.live == s.live && s1.free == s.free
    requires AddedWords(s, s1, tbase, tsize)
    ensures Added(s, s1, tbase, tsize)
  {
    hide AddedWords, Apart;
    UnitEight(tsize);
  }

  lemma OldTopIs(s: Space, s1: Space, tbase: nat, tsize: nat)
    requires Ok(s, {}) && Added(s, s1, tbase, tsize)
    ensures RecordAt(s) != s.top ==> s.top in s1.tiles && s1.tiles[s.top].size == RecordAt(s) - s.top && OldTop(s) == {s.top}
    ensures RecordAt(s) == s.top ==> OldTop(s) == {}
  {
    TopEnd(s, {});
    SegApartTop(s, tbase, tsize);
    RecordIs(s);
    hide Ok, Apart, AddedWords;
  }

  // ------------------------------------------------------------------ growing downwards

  lemma SeemsSame(s: Space, s0: Space, a: nat)
    requires Seems(s, s0, a)
    ensures s.top == s0.top && s.topsize == s0.topsize && s.dv == s0.dv && s.dvsize == s0.dvsize && s.tiles == s0.tiles && s.live == s0.live && s.free == s0.free
  {
  }

  lemma BackBehind(s: Space, q: nat, o: nat, b: nat)
    requires BackMerged(s, q, q, o) && !s.tiles[o].used && b == End(s.tiles, o) && b > o
    ensures Merging(s, q, q, o, b)
  {
  }

  lemma PrependBin(s: Space, s0: Space, q: nat, o: nat, b: nat)
    requires Seems(s, s0, q) && Ok(s0, {}) && q < o < b && Merging(s0, q, q, o, b) && o != s.top && o != s.dv
    ensures o in s.free && s.free[o] == b - o && o in s0.tiles && s0.tiles[o] == Tile(b - o, false) && b in s.heads && !s.heads[b].pin && b in s0.heads && s.heads[b] == s0.heads[b]
    ensures s.free == s0.free && s.top == s0.top && s.dv == s0.dv
  {
    InBins(s0, o);
    HeadsAt(s0, {}, o);
    EndPin(s0, {}, o);
  }

  lemma EndPin(s: Space, loose: set<nat>, p: nat)
    requires Ok(s, loose) && p in s.tiles
    ensures End(s.tiles, p) in s.heads && s.heads[End(s.tiles, p)].pin == s.tiles[p].used
  {
    TagAt(s.heads, s.foots, s.tiles, s.top, p);
  }

  lemma PrependTaken(s: Space, s0: Space, s2: Space, s1: Space, q: nat, o: nat, b: nat)
    requires Seems(s, s0, q) && Ok(s0, {}) && q < o < b && Merging(s0, q, q, o, b) && o != s.top && o != s.dv && o in s0.free
    requires s2 == s.(free := s2.free) && s1 == s0.(free := s2.free) && s2.free == s0.free - {o}
    ensures Ok(s1, {o}) && Seems(s2, s1, q) && Merging(s1, q, q, o, b) && TakenOut(s1, q, q, o, b) == {o} && q != s1.dv
  {
    TakeOut(s0, {}, o);
    assert {} + {o} == {o};
    NotDv(s0, {}, q, q, o, b);
    hide Ok;
  }

  /** The head behind a free chunk says so already; writing it again changes nothing. */
  lemma PrependPin(s1: Space, q: nat, o: nat, b: nat, m: Memory, m1: Memory)
    requires Ok(s1, {o}) && o in s1.tiles && !s1.tiles[o].used && End(s1.tiles, o) == b
    requires forall x: nat {:trigger m1(x)} :: !(b + 4 <= x < b + 8) ==> m1(x) == m(x)
    ensures Keeps(s1, m, s1, m1, 0)
  {
    OneSpan(s1, {o}, o);
    FreeSpan(s1, {o}, o);
    ClearSpan(s1, {o}, 0, o, b);
    KeepsSelf(s1, {o}, s1, m, m1);
  }

  lemma ListedDown(segs: seq<Seg>, recs: seq<nat>, k: nat, tbase: nat, tsize: nat)
    requires Listed(segs, recs) && k < |segs| && tsize % UNIT == 0
    ensures Listed(segs[k := Seg(tbase, segs[k].size + tsize)], recs)
  {
  }

  lemma HalfSeems(v: Space, s: Space, k: nat, tbase: nat, tsize: nat, nb: nat, n: nat)
    requires Ok(v, {}) && Beneath(v, k, tbase, tsize) && 0 < nb < tsize
    requires HeadSet(v.heads, s.heads, tbase, Head(nb, true, true)) && s == Half(v, k, tbase, tsize, nb, n).(heads := s.heads)
    ensures Seems(s, Half(v, k, tbase, tsize, nb, n), tbase + nb) && BackMerged(Half(v, k, tbase, tsize, nb, n), tbase + nb, tbase + nb, tbase + tsize)
  {
    BaseIs(v, {}, k);
    hide Ok, Retile;
    var o := tbase + tsize;
    HalfMerging(v, k, tbase, tsize, nb, n, if v.tiles[o].used then o else End(v.tiles, o));
  }

  predicate LiveTwo(l: map<nat, nat>, l1: map<nat, nat>, p: nat, n: nat, q: nat) { l1 == l[p := n][q := 0] }

  lemma HalfLive(l: map<nat, nat>, l0: map<nat, nat>, l1: map<nat, nat>, p: nat, q: nat, n: nat)
    requires LiveTwo(l, l0, p, n, q) && LiveGone(l0, l1, q) && p != q && q !in l
    ensures LiveSet(l, l1, p, n)
  {
  }

  lemma SameHeads(h: Heads, h1: Heads, b: nat)
    requires b in h && !h[b].pin && HeadSet(h, h1, b, h[b].(pin := false))
    ensures h1 == h
  {
    assert h[b].(pin := false) == h[b];
  }

  // ------------------------------------------------------------------- growing upwards

  lemma AppendBounds(s: Space, recs: seq<nat>, tbase: nat, tsize: nat)
    requires Ok(s, {}) && Listed(s.segs, recs) && tsize > 0 && tsize % UNIT == 0 && tbase + tsize <= WORD && Apart(s, tbase, tsize, |s.segs|)
    requires |s.segs| > 0 && tbase == s.segs[0].base + s.segs[0].size
    ensures var size := s.topsize + tsize; var segsize := s.segs[0].size + tsize;
      size % 8 == 0 && segsize % UNIT == 0 && s.top + size + 32 == s.segs[0].base + segsize && Apart(s, s.segs[0].base, segsize, 0)
  {
    hide Ok, Apart;
    RecordEndIs(s);
    TopAligned(s, {});
    UnitEight(tsize);
    Eights(s.topsize, tsize);
    Multiples(s.segs[0].size, tsize);
    AppendApart(s, tbase, tsize);
  }

  lemma AppendApart(s: Space, tbase: nat, tsize: nat)
    requires Ok(s, {}) && tsize > 0 && Apart(s, tbase, tsize, |s.segs|) && |s.segs| > 0 && tbase == s.segs[0].base + s.segs[0].size
    ensures Apart(s, s.segs[0].base, s.segs[0].size + tsize, 0)
  {
    SegsAre(s, {});
    assert SegOk(s.segs[0], s.limits[0]);
    forall i: nat | i < |s.segs| && i != 0
      ensures SegApart(Seg(s.segs[0].base, s.segs[0].size + tsize), s.segs[i])
    {
      SegPair(s, tbase, tsize, i);
    }
    forall p | p in s.direct
      ensures SegApart(Seg(p, s.direct[p] + 16), Seg(s.segs[0].base, s.segs[0].size + tsize))
    {
      DirectIs(s, {}, p);
      DirectSeg(s.direct, s.segs, s.heads, s.foots, p, 0);
      ApartDirect(s, tbase, tsize, |s.segs|, p);
    }
  }

  lemma SegPair(s: Space, base: nat, size: nat, i: nat)
    requires Ok(s, {}) && Apart(s, base, size, |s.segs|) && 0 < i < |s.segs|
    ensures SegApart(s.segs[0], s.segs[i]) && SegApart(Seg(base, size), s.segs[i]) && s.segs[i].size > 0
  {
    SegsAre(s, {});
    assert SegOk(s.segs[i], s.limits[i]);
    assert SegApart(s.segs[0], s.segs[i]);
  }

  lemma Multiples(a: nat, b: nat)
    requires a % UNIT == 0 && b % UNIT == 0
    ensures (a + b) % UNIT == 0
  {
    var q, r := a / UNIT, b / UNIT;
    assert a + b == (q + r) * UNIT;
  }

  lemma Eights(a: nat, b: nat)
    requires a % 8 == 0 && b % 8 == 0
    ensures (a + b) % 8 == 0
  {
    var q, r := a / 8, b / 8;
    assert a + b == (q + r) * 8;
  }

  lemma TopHeld(s: Space)
    requires Ok(s, {})
    ensures |s.segs| > 0 && Holds(s.segs[0], s.top)
  {
    RecordEndIs(s);
  }

  /** Only the first segment holds the top chunk. */
  lemma HeldOnce(s: Space, i: nat)
    requires Ok(s, {}) && i < |s.segs| && Holds(s.segs[i], s.top)
    ensures i == 0
  {
    TopHeld(s);
    assert i != 0 ==> SegApart(s.segs[0], s.segs[i]);
  }

  lemma NotNull(s: Space, l: map<nat, nat>, p: nat, n: nat)
    requires Ok(s, {}) && LiveSet(l, s.live, p, n)
    ensures p != 0
  {
    NullNotLive(s, {});
  }

  lemma TakenTile(s: Space, p: nat)
    requires Ok(s, {}) && p in s.free
    ensures p in s.tiles && s.tiles[p] == Tile(s.free[p], false)
  {
    BinnedIs(s.free, s.tiles, s.top, s.dv, {}, p);
  }

  /** Nothing serves the request that cannot be met. */
  lemma NoHuge(s: Space)
    requires Ok(s, {})
    ensures s.dvsize < WORD - 1 && s.topsize < WORD && (s.dvsize == 0 <==> s.dv == 0)
  {
    DvBound(s, {});
    DvIs(s, {});
    TopEnd(s, {});
    TopBase(s);
    SegsAre(s, {});
    assert SegOk(s.segs[0], s.limits[0]);
    if s.dv != 0 { HeadsAt(s, {}, s.dv); }
  }

  // -------------------------------------------------------------- requests declined

  /** The size of the chunk that a request is for; too large a request can never be met. */
  function RequestOf(n: nat): nat { if n < MAX_REQUEST then RequestSize(n) else WORD - 1 }

  /** No free chunk has room for `nb` bytes; the top chunk must have some to spare. */
  ghost predicate Full(s: Space, nb: nat) {
    forall p {:trigger p in s.tiles} :: p in s.tiles && !s.tiles[p].used ==> s.tiles[p].size < nb || (p == s.top && s.tiles[p].size == nb)
  }

  /** Neither a free chunk nor the system can serve a request for a chunk of `nb` bytes. */
  ghost predicate Refused(s: Space, nb: nat, sys: System) { Full(s, nb) && !SysServes(s, nb, sys.maps) }

  lemma FullIs(s: Space, nb: nat)
    requires Ok(s, {}) && s.dvsize < nb && s.topsize <= nb && BinsFull(s.free, nb)
    ensures Full(s, nb)
  {
    DvIs(s, {});
    TopEnd(s, {});
    NoNull2(s);
    forall p | p in s.tiles && !s.tiles[p].used
      ensures s.tiles[p].size < nb || (p == s.top && s.tiles[p].size == nb)
    {
      BinnedIs(s.free, s.tiles, s.top, s.dv, {}, p);
    }
  }

  /** No chunk is as large as memory. */
  lemma NeverRoom(s: Space)
    requires Ok(s, {})
    ensures Full(s, WORD - 1)
  {
    hide Tags, Lone, Binned, BasePins, BigEnough, Owned, Directs, TopOk, LooseOk, DvOk;
    forall p | p in s.tiles && !s.tiles[p].used
      ensures s.tiles[p].size < WORD - 1
    {
      GeoAt(s.tiles, s.segs, s.limits, p);
      var i: nat :| i < |s.segs| && Within(s.segs, s.limits, p, End(s.tiles, p), i);
      assert SegOk(s.segs[i], s.limits[i]);
    }
  }

  lemma LiveAligned(s: Space, l: map<nat, nat>, p: nat, n: nat)
    requires Ok(s, {}) && LiveSet(l, s.live, p, n)
    ensures p % 8 == 0
  {
    LiveIs(s, {}, p);
    if p in s.tiles { GeoAt(s.tiles, s.segs, s.limits, p); } else { DirectIs(s, {}, p); }
  }

  // ---------------------------------------------------------------------- reallocation

  predicate LiveMoved(l: map<nat, nat>, l1: map<nat, nat>, p: nat, q: nat, n: nat) { l1 == (l - {p})[q := n] }

  predicate SameByte(m: Memory, p: nat, m1: Memory, q: nat, i: nat) { m1(q + 8 + i) == m(p + 8 + i) }

  /** The first `n` bytes of two chunks. */
  ghost predicate SameBytes(m: Memory, p: nat, m1: Memory, q: nat, n: nat) {
    forall i: nat {:trigger SameByte(m, p, m1, q, i)} :: i < n ==> SameByte(m, p, m1, q, i)
  }

  /** Chunk `p` is chunk `q` of `n` bytes now, with what was in it as far as it fits; nothing else
      has changed. */
  ghost predicate Moved(s: Space, m: Memory, s1: Space, m1: Memory, p: nat, q: nat, n: nat) {
    && p in s.live && LiveMoved(s.live, s1.live, p, q, n) && (q != p ==> q !in s.live) && Keeps(s, m, s1, m1, p)
    && SameBytes(m, p, m1, q, if s.live[p] < n then s.live[p] else n)
  }

  lemma AlignRemap(nb: nat)
    requires nb + 56 <= WORD
    ensures PageAlign(nb + 24 + 7) > 0 ==> nb + 31 <= PageAlign(nb + 24 + 7) < WORD && PageAlign(nb + 24 + 7) % PAGE == 0
    ensures if PageUp(nb + 31) < WORD then PageAlign(nb + 24 + 7) == PageUp(nb + 31) > 0 else PageAlign(nb + 24 + 7) == 0
  {
    var x := nb + 31 + PAGE - 1;
    assert x % WORD == if x < WORD then x else x - WORD;
  }

  lemma RemappableIs(s: Space, p: nat, nb: nat, base: nat)
    requires nb + 56 <= WORD
    ensures Remappable(s, p, nb, base) <==> PageAlign(nb + 24 + 7) > 0 && Grants(s.segs, s.direct - {p}, PageAlign(nb + 24 + 7), base)
  {
    AlignRemap(nb);
  }

  lemma LiveMovedIs(l: map<nat, nat>, p: nat, q: nat, n: nat)
    ensures LiveMoved(l, (l - {p})[q := n], p, q, n)
  {
  }

  lemma LiveTwoIs(l: map<nat, nat>, p: nat, n: nat, q: nat)
    ensures LiveTwo(l, l[p := n][q := 0], p, n, q)
  {
  }

  /** There is memory at `q` for the chunk at `p`. */
  ghost predicate DirectFits(s: Space, p: nat, q: nat, psize: nat, n: nat) {
    && q % 8 == 0 && q > 0 && psize % 8 == 0 && psize >= MIN_CHUNK && q + psize + 16 <= WORD && n + 8 <= psize
    && Apart(s.(direct := s.direct - {p}), q, psize + 16, |s.segs|)
  }

  lemma DirectPsize(s: Space, p: nat, q: nat, psize: nat, n: nat)
    requires DirectFits(s, p, q, psize, n)
    ensures psize >= MIN_CHUNK
  {
  }

  /** The first `d` bytes from `p` on are those from `q` on, where there is room for `psize`. */
  ghost predicate BytesMoved(m: Memory, m1: Memory, p: nat, q: nat, d: nat, psize: nat) {
    forall x: nat {:trigger m1(x)} :: if q + 8 <= x < q + psize then x - q < d ==> m1(x) == m(p + (x - q)) else !(q <= x < q + psize + 16) ==> m1(x) == m(x)
  }

  lemma PagesBytes(m: Memory, m1: Memory, p: nat, q: nat, d: nat, psize: nat)
    requires PagesMoved(m, m1, p, d + 16, q, psize + 16)
    ensures BytesMoved(m, m1, p, q, d, psize)
  {
  }

  /** The region of `p`, with its words and bytes, is at `cp` now. */
  ghost predicate RegionMoved(s: Space, s1: Space, m: Memory, m1: Memory, p: nat, size: nat, cp: nat, newsize: nat) {
    && p in s.heads && p in s.foots && PagesMoved(m, m1, p, size, cp, newsize)
    && s1 == s.(heads := s.heads[cp := s.heads[p]], foots := s.foots[cp := s.foots[p]])
  }

  lemma RegionIs(s: Space, s1: Space, m: Memory, m1: Memory, p: nat, cp: nat, psize: nat)
    requires DirectWords(s, p) && RegionMoved(s, s1, m, m1, p, s.direct[p] + 16, cp, psize + 16)
    ensures HeadSet(s.heads, s1.heads, cp, s.heads[p]) && FootSet(s.foots, s1.foots, cp, 1) && s1 == s.(heads := s1.heads, foots := s1.foots)
    ensures BytesMoved(m, m1, p, cp, s.direct[p], psize)
  {
    PagesBytes(m, m1, p, cp, s.direct[p], psize);
  }

  lemma BytesStay(m: Memory, m1: Memory, m2: Memory, p: nat, q: nat, d: nat, psize: nat)
    requires BytesMoved(m, m1, p, q, d, psize)
    requires forall x: nat {:trigger m2(x)} :: !(q + 4 <= x < q + 8) && !(q + psize <= x < q + psize + 16) ==> m2(x) == m1(x)
    ensures BytesMoved(m, m2, p, q, d, psize)
  {
  }

  lemma RemapStart(s: Space, p: nat)
    requires DirectWords(s, p)
    ensures p in s.direct && p in s.heads && p in s.foots && s.heads[p].size == s.direct[p]
  {
  }

  /** The pages that the system gives are enough. */
  lemma RemapFits(s: Space, p: nat, nb: nat, n: nat, cp: nat)
    requires Fits(nb, n) && nb + 56 <= WORD && PageAlign(nb + 24 + 7) > 0 && cp > 0 && cp % PAGE == 0 && cp + PageAlign(nb + 24 + 7) < WORD
    requires Apart(s.(direct := s.direct - {p}), cp, PageAlign(nb + 24 + 7), |s.segs|)
    ensures PageAlign(nb + 24 + 7) >= 16 && DirectFits(s, p, cp, PageAlign(nb + 24 + 7) - 16, n)
  {
    hide Apart, PageAlign;
    AlignRemap(nb);
    PageEight(cp);
    PageEight(PageAlign(nb + 24 + 7));
  }

  lemma ApartSame(s: Space, s1: Space, base: nat, size: nat)
    requires Apart(s, base, size, |s.segs|) && s1.segs == s.segs && s1.direct == s.direct
    ensures Apart(s1, base, size, |s1.segs|)
  {
  }

  lemma DirectMovedOk(s: Space, h: Heads, s2: Space, p: nat, q: nat, psize: nat, n: nat, m: Memory, m2: Memory)
    requires Ok(s, {}) && DirectWords(s, p) && DirectFits(s, p, q, psize, n) && BytesMoved(m, m2, p, q, s.direct[p], psize)
    requires HeadSet(s.heads, h, q, s.heads[p]) && HeadsBut(h, s2.heads, q, q + psize + 16) && FootSet(s.foots, s2.foots, q, 1)
    requires q in s2.heads && s2.heads[q] == Head(psize, true, false) && LiveMoved(s.direct, s2.direct, p, q, psize) && LiveMoved(s.live, s2.live, p, q, n)
    requires s2.segs == s.segs && s2.limits == s.limits && s2.tiles == s.tiles && s2.internal == s.internal && s2.free == s.free
    requires s2.top == s.top && s2.topsize == s.topsize && s2.dv == s.dv && s2.dvsize == s.dvsize
    ensures Ok(s2, {}) && Moved(s, m, s2, m2, p, q, n)
  {
    hide Ok, Keeps, Apart, WordsWithin, DirectAdded;
    var s1 := s.(direct := s.direct - {p}, live := s.live - {p});
    DirectGoneOk(s, s1, p, true, m);
    ApartSame(s.(direct := s.direct - {p}), s1, q, psize + 16);
    DirectMoved(s, s1, h, s2, p, q, psize);
    DirectBy(s1, s2, q, psize, n);
    DirectAddedOk(s1, s2, q, psize, n, m, m2);
    KeepsSkip(s1, m, s2, m2, {}, p);
    KeepsThen(s, m, s1, m, s2, m2, p);
  }

  lemma DirectMoved(s: Space, s1: Space, h: Heads, s2: Space, p: nat, q: nat, psize: nat)
    requires DirectWords(s, p) && s1 == s.(direct := s.direct - {p}, live := s.live - {p}) && psize >= MIN_CHUNK
    requires HeadSet(s.heads, h, q, s.heads[p]) && HeadsBut(h, s2.heads, q, q + psize + 16) && FootSet(s.foots, s2.foots, q, 1)
    ensures WordsWithin(s1, s2, q, q + psize + 16) && q in s2.foots && s2.foots[q] == 1
  {
  }

  /** The head behind the front of a chunk is inside the chunk, and the one behind the chunk is
      another. */
  lemma CutHead(s: Space, p: nat)
    requires Ok(s, {}) && p in s.live && p in s.tiles
    ensures p in s.heads && End(s.tiles, p) in s.heads
  {
    LiveTags(s, p);
  }

  lemma CutMore(h0: Heads, h: Heads, h2: Heads, p: nat, size: nat, nb: nat, v: Head)
    requires p in h0 && p + size in h0 && 0 < nb < size && v.pin && HeadSet(h0, h, p, Head(nb, true, h0[p].pin)) && HeadSet(h, h2, p + nb, v)
    ensures p + nb in h2 && h2[p + nb] == v && HeadSet(h, h2, p + nb, h2[p + nb]) && p + size in h2 && h2[p + size] == h0[p + size]
  {
  }

  /** The heads that are written when a chunk is cut in two. */
  predicate CutHeads(h0: Heads, h: Heads, h2: Heads, h3: Heads, h4: Heads, p: nat, size: nat, nb: nat) {
    && nb < size && p in h0 && p + size in h0 && HeadSet(h0, h, p, Head(nb, true, h0[p].pin)) && p + nb in h2 && HeadSet(h, h2, p + nb, h2[p + nb])
    && HeadSet(h2, h3, p + nb, Head(size - nb, true, true)) && HeadSet(h3, h4, p + size, h0[p + size].(pin := true))
  }

  lemma CutShrunk(s: Space, s1: Space, h: Heads, h2: Heads, h3: Heads, p: nat, size: nat, nb: nat, n: nat)
    requires CutHeads(s.heads, h, h2, h3, s1.heads, p, size, nb) && Rest(s, s1) && s1.foots == s.foots
    requires s1.top == s.top && s1.topsize == s.topsize && s1.dv == s.dv && s1.dvsize == s.dvsize
    requires Retiles(s.tiles, s1.tiles, p, p + nb, p + size, true, true) && LiveTwo(s.live, s1.live, p, n, p + nb)
    ensures Shrunk(s, s1, h, h2, h3, p, size, nb, n)
  {
    hide HeadSet, Retiles;
  }

  lemma CutLive(l: map<nat, nat>, l1: map<nat, nat>, p: nat, n: nat, q: nat)
    requires LiveTwo(l, l1, p, n, q)
    ensures q in l1
  {
  }

  /** Bytes of a live chunk that is not given up. */
  lemma KeptAt(s: Space, m: Memory, s1: Space, m1: Memory, skip: nat, p: nat, x: nat)
    requires Keeps(s, m, s1, m1, skip) && Payload(s, p, x) && p != skip
    ensures m1(x) == m(x)
  {
  }

  lemma CutMoved(s: Space, m: Memory, s1: Space, m1: Memory, s2: Space, m2: Memory, p: nat, nb: nat, n: nat)
    requires p in s.live && p + nb !in s.live && nb > 0 && n + 4 <= nb && LiveTwo(s.live, s1.live, p, n, p + nb) && LiveGone(s1.live, s2.live, p + nb)
    requires Keeps(s, m, s1, m1, p) && Keeps(s1, m1, s2, m2, p + nb) && p in s1.tiles && s1.tiles[p].size == nb
    requires forall x: nat :: p + 8 <= x < p + nb + 4 ==> m1(x) == m(x)
    ensures Moved(s, m, s2, m2, p, p, n)
  {
    assert s2.live == (s.live - {p})[p := n];
    KeepsOther(s, m, s1, m1, s2, m2, p, p + nb);
    forall i: nat | i < n
      ensures SameByte(m, p, m2, p, i)
    {
      KeptAt(s1, m1, s2, m2, p + nb, p, p + 8 + i);
    }
  }

  /** A chunk that was not live before is given up. */
  lemma KeepsOther(s: Space, m: Memory, s1: Space, m1: Memory, s2: Space, m2: Memory, p: nat, q: nat)
    requires Keeps(s, m, s1, m1, p) && Keeps(s1, m1, s2, m2, q) && q !in s.live
    ensures Keeps(s, m, s2, m2, p)
  {
    forall r | r in s.live && r != p
      ensures SameChunk(s, s2, r)
    {
      assert SameChunk(s, s1, r);
      assert SameChunk(s1, s2, r);
    }
    forall r: nat, x: nat | Payload(s, r, x) && r != p
      ensures m2(x) == m(x)
    {
      assert SameChunk(s, s1, r);
      assert Payload(s1, r, x);
    }
  }

  lemma WithinMore(m: Memory, m1: Memory, a: nat, b: nat, c: nat)
    requires WritesWithin(m, m1, a, b) && b <= c
    ensures WritesWithin(m, m1, a, c)
  {
  }

  lemma MovedHere(s: Space, m: Memory, s1: Space, m1: Memory, p: nat, n: nat)
    requires p in s.live && LiveSet(s.live, s1.live, p, n) && Keeps(s, m, s1, m1, p) && forall x: nat :: p + 8 <= x < p + 8 + n ==> m1(x) == m(x)
    ensures Moved(s, m, s1, m1, p, p, n)
  {
    assert s1.live == (s.live - {p})[p := n];
  }

  /** A live chunk while another one is taken. */
  lemma StillLive(s: Space, m: Memory, s1: Space, m1: Memory, p: nat, q: nat, n: nat)
    requires Ok(s, {}) && Ok(s1, {}) && p in s.live && Keeps(s, m, s1, m1, 0) && q !in s.live && LiveSet(s.live, s1.live, q, n)
    ensures p in s1.live && p != q && q in s1.live && p in s.heads && p in s1.heads && s1.heads[p].size == s.heads[p].size && s1.live[p] == s.live[p]
    ensures !s1.heads[p].pin ==> p in s1.foots
    ensures var o := if !s1.heads[p].pin && s1.foots[p] % 2 != 0 then 8 else 4; s.heads[p].size >= o && s.live[p] <= s.heads[p].size - o
  {
    NullNotLive(s, {});
    assert SameChunk(s, s1, p);
    LiveWords(s, p);
    LiveWords(s1, p);
    hide Ok, Keeps;
  }

  ghost predicate IsCopy(m: Memory, m1: Memory, dst: nat, src: nat, len: nat) {
    forall x: nat {:trigger m1(x)} :: m1(x) == if dst <= x < dst + len then m(src + (x - dst)) else m(x)
  }

  /** The new chunk has the old one's bytes. */
  lemma CopiedBytes(s: Space, m: Memory, s1: Space, m1: Memory, m2: Memory, p: nat, q: nat, len: nat)
    requires Ok(s, {}) && p in s.live && Keeps(s, m, s1, m1, 0)
    requires IsCopy(m1, m2, q + 8, p + 8, len)
    ensures SameBytes(m, p, m2, q, if s.live[p] < len then s.live[p] else len)
  {
    NullNotLive(s, {});
    hide Ok;
    forall i: nat | i < len && i < s.live[p]
      ensures SameByte(m, p, m2, q, i)
    {
      PayloadFits(s, {}, p, i);
      KeptAt(s, m, s1, m1, 0, p, p + 8 + i);
    }
  }

  /** No other chunk has lost a byte. */
  lemma CopiedKeeps(s: Space, m: Memory, s1: Space, m1: Memory, m2: Memory, p: nat, q: nat, n: nat, len: nat)
    requires Ok(s, {}) && Ok(s1, {}) && Keeps(s, m, s1, m1, 0) && q !in s.live && LiveSet(s.live, s1.live, q, n) && len <= n
    requires IsCopy(m1, m2, q + 8, p + 8, len)
    ensures Keeps(s, m, s1, m2, 0)
  {
    NullNotLive(s, {});
    hide Ok;
    forall r: nat, x: nat | Payload(s, r, x) && r != 0
      ensures m2(x) == m(x)
    {
      assert SameChunk(s, s1, r);
      KeptAt(s, m, s1, m1, 0, r, x);
      if q + 8 <= x < q + 8 + len {
        PayloadFits(s1, {}, q, x - (q + 8));
        PayloadsApart(s1, {}, q, r, x);
      }
    }
  }

  lemma CopyMoved(s: Space, m: Memory, s1: Space, m1: Memory, s2: Space, m2: Memory, p: nat, q: nat, n: nat)
    requires Ok(s, {}) && Ok(s1, {}) && p in s.live && q !in s.live && LiveSet(s.live, s1.live, q, n) && LiveGone(s1.live, s2.live, p)
    requires Keeps(s, m, s1, m1, 0) && Keeps(s1, m1, s2, m2, p) && SameBytes(m, p, m1, q, if s.live[p] < n then s.live[p] else n)
    ensures Moved(s, m, s2, m2, p, q, n)
  {
    assert s2.live == (s.live - {p})[q := n];
    KeepsSkip(s, m, s1, m1, {}, p);
    KeepsThen(s, m, s1, m1, s2, m2, p);
    hide Ok, Keeps;
    forall i: nat | i < s.live[p] && i < n
      ensures SameByte(m, p, m2, q, i)
    {
      assert SameByte(m, p, m1, q, i);
      PayloadFits(s1, {}, q, i);
      KeptAt(s1, m1, s2, m2, p, q, q + 8 + i);
    }
  }

  lemma FewerBytes(m: Memory, p: nat, m1: Memory, q: nat, len: nat, l: nat, n: nat)
    requires SameBytes(m, p, m1, q, if l < len then l else len) && (len == n || l <= len)
    ensures SameBytes(m, p, m1, q, if l < n then l else n)
  {
  }

  lemma LiveHeads(s: Space, p: nat)
    requires p in s.live && if p in s.tiles then TileWords(s, p) else DirectWords(s, p)
    ensures p in s.heads && p > 0 && (!s.heads[p].pin ==> p in s.foots)
    ensures p in s.tiles ==> s.tiles[p].size == s.heads[p].size
    ensures p in s.tiles <==> s.heads[p].pin || s.foots[p] % 2 == 0
  {
  }

  /** Nothing was done. */
  lemma Unmoved(s: Space, m: Memory, s1: Space, m1: Memory, p: nat)
    requires Ok(s, {}) && Ok(s1, {}) && p in s.live && s1.live == s.live && Keeps(s, m, s1, m1, 0) && p in s.heads
    ensures p in s1.heads && s1.heads[p].size == s.heads[p].size
  {
    NullNotLive(s, {});
    assert SameChunk(s, s1, p);
    LiveWords(s, p);
    LiveWords(s1, p);
  }

  lemma LiveSize(s: Space, p: nat)
    requires Ok(s, {}) && p in s.live
    ensures p in s.heads
  {
    LiveWords(s, p);
  }

  lemma MovedLater(s: Space, m: Memory, s1: Space, m1: Memory, s2: Space, m2: Memory, p: nat, q: nat, n: nat)
    requires Ok(s, {}) && s1.live == s.live && Keeps(s, m, s1, m1, 0)
    requires if q == 0 then s2.live == s1.live && Keeps(s1, m1, s2, m2, 0) else Moved(s1, m1, s2, m2, p, q, n)
    ensures if q == 0 then s2.live == s.live && Keeps(s, m, s2, m2, 0) else Moved(s, m, s2, m2, p, q, n)
  {
    NullNotLive(s, {});
    if q == 0 {
      KeepsThen(s, m, s1, m1, s2, m2, 0);
    } else {
      KeepsSkip(s, m, s1, m1, {}, p);
      KeepsThen(s, m, s1, m1, s2, m2, p);
      hide Ok, Keeps;
      forall i: nat | i < s.live[p] && i < n
        ensures SameByte(m, p, m2, q, i)
      {
        assert SameByte(m1, p, m2, q, i);
        PayloadFits(s, {}, p, i);
        KeptAt(s, m, s1, m1, 0, p, p + 8 + i);
      }
    }
  }

  lemma MovedAligned(s1: Space, s: Space, m: Memory, m1: Memory, p: nat, q: nat, n: nat)
    requires Ok(s1, {}) && (q != 0 ==> Moved(s, m, s1, m1, p, q, n))
    ensures q != 0 ==> q % 8 == 0
  {
    if q != 0 {
      LiveIs(s1, {}, q);
      if q in s1.tiles { GeoAt(s1.tiles, s1.segs, s1.limits, q); } else { DirectIs(s1, {}, q); }
    }
  }

  lemma NotNullLive(s: Space)
    requires Ok(s, {})
    ensures 0 !in s.live
  {
    NullNotLive(s, {});
  }

  /** What a call of the allocator does for a pointer and a size: it frees, allocates or
      reallocates, or declines and changes nothing of the program's. */
  ghost predicate Served(s: Space, m: Memory, s1: Space, m1: Memory, ptr: nat, nsize: nat, r: nat) {
    if r == 0 && (nsize != 0 || ptr == 0) then s1.live == s.live && Keeps(s, m, s1, m1, 0)
    else if nsize == 0 then r == 0 && ptr >= 8 && LiveGone(s.live, s1.live, ptr - 8) && Keeps(s, m, s1, m1, ptr - 8)
    else r % 8 == 0 && r >= 8 && Provided(s, m, s1, m1, ptr, nsize, r)
  }

  ghost predicate Provided(s: Space, m: Memory, s1: Space, m1: Memory, ptr: nat, nsize: nat, r: nat)
    requires r >= 8
  {
    if ptr == 0 then r - 8 !in s.live && LiveSet(s.live, s1.live, r - 8, nsize) && Keeps(s, m, s1, m1, 0)
    else ptr >= 8 && Moved(s, m, s1, m1, ptr - 8, r - 8, nsize)
  }
}
