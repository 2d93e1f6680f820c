/** The head of a side trace (asm_head_side in lj_asm.c): code that takes every value the
    trace inherits from where its parent left it to where the trace expects it. The part
    between registers is a parallel move, made sequential by moving into registers nobody
    waits for, and by renaming to a temporary when only cycles are left. */
module SideHead {
  import opened Wrappers
  import opened TraceIr
  import opened AllocState
  import opened RegAlloc

  /** No register is left to coalesce with (LJ_TRERR_NYICOAL). */
  datatype NyiCoalesce = NyiCoalesce

  /** Where the parent keeps an inherited ref. Slots are numbered from the stack pointer the
      side trace will use, that is, with the frame size difference added. */
  datatype Home = PReg(reg: Reg) | PSlot(slot: int)

  /** The refs `nk <= j < stop` are inherited; `home[j - nk]` is where ref `j` comes from. */
  datatype Inherited = Inherited(c: Ctx, s: seq<int>, stop: nat, home: seq<Home>) {
    ghost predicate Valid() {
      c.Valid() && Shaped() && Sized() && |home| == stop - c.nk
      && (forall j, k :: 0 <= j < k < |s| && s[j] != 0 && s[k] != 0 ==> Apart(c, s, j, k))
    }

    ghost predicate Sized() { stop <= |c.ir| == |s| == |c.vals| }

    /** The parent keeps different refs in different registers. */
    ghost predicate Shaped() {
      stop <= |c.ir|
      && (forall j :: c.nk <= j < stop && From(j).PReg? ==> From(j).reg in c.t.All())
      && (forall j, k :: c.nk <= j < k < stop && From(j).PReg? ==> From(j) != From(k))
    }

    /** Each in one of its class. */
    ghost predicate Typed() {
      forall j :: c.nk <= j < stop && From(j).PReg? ==> MayHold(c, From(j).reg, j)
    }

    function From(j: Ref): Home {
      if 0 <= j - c.nk < |home| then home[j - c.nk] else PSlot(0)
    }

    /** The machine state the parent hands over. */
    ghost predicate AtEntry(m: Machine) {
      stop <= |c.ir| == |c.vals|
      && forall j :: c.nk <= j < stop ==>
           match From(j)
           case PReg(x) => m.Get(x) == c.vals[j]
           case PSlot(slot) => m.SlotHolds(slot, c.ir[j].is64, c.vals[j])
    }
  }

  /** What the code emitted so far needs at its start: registers holding given refs, refs in
      their own spill slots (`own`), and refs still in their parent's slots (`par`). */
  datatype Demand = Demand(regs: map<Reg, int>, own: set<nat>, par: set<nat>)

  ghost predicate Sat(h: Inherited, d: Demand, m: Machine) {
    h.Sized()
    && (forall x :: x in d.regs && 0 <= d.regs[x] < h.stop ==> m.Get(x) == h.c.vals[d.regs[x]])
    && (forall j :: j in d.own && j < h.stop ==> m.SlotHolds(h.s[j], h.c.ir[j].is64, h.c.vals[j]))
    && (forall j :: j in d.par && h.c.nk <= j < h.stop && h.From(j).PSlot? ==>
          m.SlotHolds(h.From(j).slot, h.c.ir[j].is64, h.c.vals[j]))
  }

  /** The code can be executed, and is right when its demands are met. */
  ghost predicate Serves(h: Inherited, d: Demand, code: seq<MIns>) {
    h.Sized() && (h.Typed() ==> Legal(h.c, code, h.stop))
    && forall m :: Sat(h, d, m) ==> Run(h.c.sem, code, m).out == m.out + Events(h.c.ir, h.c.vals, h.stop)
  }

  lemma ServesFront(h: Inherited, d0: Demand, code: seq<MIns>, i: MIns, d1: Demand)
    requires Serves(h, d0, code) && Quiet(i) && (h.Typed() ==> Transfers(h.c, i))
    requires forall m :: Sat(h, d1, m) ==> Sat(h, d0, Step(h.c.sem, i, m))
    ensures Serves(h, d1, [i] + code)
  {
    if h.Typed() { LegalFront(h.c, i, code, h.stop, h.stop); }
    hide Legal;
    forall m | Sat(h, d1, m)
      ensures Run(h.c.sem, [i] + code, m).out == m.out + Events(h.c.ir, h.c.vals, h.stop)
    {
      RunFront(h.c.sem, i, code, m);
    }
  }

  /** A store meets the demand for a spill slot. No parent slot may be wanted any more, since
      the new frame overlaps the parent's. */
  lemma ServesStore(h: Inherited, d: Demand, code: seq<MIns>, j: nat, x: Reg)
    requires h.Valid() && Serves(h, d, code) && d.par == {}
    requires j < h.stop && x in d.regs && d.regs[x] == j && h.s[j] != 0 && MayHold(h.c, x, j)
    requires forall k :: k in d.own ==> k < h.stop && h.s[k] != 0
    ensures Serves(h, d.(own := d.own - {j}), [SpStore(x, h.s[j], h.c.ir[j].is64)] + code)
  {
    var st := SpStore(x, h.s[j], h.c.ir[j].is64);
    var d1 := d.(own := d.own - {j});
    forall m | Sat(h, d1, m) ensures Sat(h, d, Step(h.c.sem, st, m)) {
      var m1 := Step(h.c.sem, st, m);
      forall k | k in d.own && k < h.stop ensures m1.SlotHolds(h.s[k], h.c.ir[k].is64, h.c.vals[k]) {
        if k < j { assert Apart(h.c, h.s, k, j); }
        if j < k { assert Apart(h.c, h.s, j, k); }
      }
    }
    ServesFront(h, d, code, st, d1);
  }

  /** A load from the parent's slot meets the demand for a register. */
  lemma ServesLoad(h: Inherited, d: Demand, code: seq<MIns>, j: nat, x: Reg)
    requires Serves(h, d, code)
    requires h.c.nk <= j < h.stop && x in d.regs && d.regs[x] == j && h.From(j).PSlot? && MayHold(h.c, x, j)
    ensures Serves(h, d.(regs := d.regs - {x}, par := d.par + {j}),
                   [SpLoad(x, h.From(j).slot, h.c.ir[j].is64)] + code)
  {
    var ld := SpLoad(x, h.From(j).slot, h.c.ir[j].is64);
    var d1 := d.(regs := d.regs - {x}, par := d.par + {j});
    forall m | Sat(h, d1, m) ensures Sat(h, d, Step(h.c.sem, ld, m)) {
      assert j in d1.par;
      forall z | z in d.regs && 0 <= d.regs[z] < h.stop ensures Step(h.c.sem, ld, m).Get(z) == h.c.vals[d.regs[z]] {
        assert z == x || z in d1.regs;
      }
    }
    ServesFront(h, d, code, ld, d1);
  }

  /** A move meets the demand for one register by demanding another, unused one. */
  lemma ServesMove(h: Inherited, d: Demand, code: seq<MIns>, x: Reg, y: Reg)
    requires Serves(h, d, code) && x in d.regs && y !in d.regs && (h.Typed() ==> SameClass(h.c.t, x, y))
    ensures Serves(h, d.(regs := (d.regs - {x})[y := d.regs[x]]), [MovRR(x, y)] + code)
  {
    var d1 := d.(regs := (d.regs - {x})[y := d.regs[x]]);
    forall m | Sat(h, d1, m) ensures Sat(h, d, Step(h.c.sem, MovRR(x, y), m)) {
      assert y in d1.regs;
      forall z | z in d.regs && 0 <= d.regs[z] < h.stop
        ensures Step(h.c.sem, MovRR(x, y), m).Get(z) == h.c.vals[d.regs[z]]
      {
        assert z == x || z in d1.regs;
      }
    }
    ServesFront(h, d, code, MovRR(x, y), d1);
  }

  /** Demanding more does no harm. */
  lemma ServesMore(h: Inherited, d: Demand, code: seq<MIns>, x: Reg, j: int, d1: Demand)
    requires Serves(h, d, code) && x !in d.regs && d1 == d.(regs := d.regs[x := j])
    ensures Serves(h, d1, code)
  {
    forall m | Sat(h, d1, m) ensures Sat(h, d, m) {
      assert forall z :: z in d.regs ==> z in d1.regs && d1.regs[z] == d.regs[z];
    }
  }

  // ------------------------------------------------------------ the shuffle

  /** A register the code demands is either already where the parent put its ref (and free
      again), or taken by the ref it is demanded for. */
  ghost predicate Tracks(h: Inherited, d: Demand, a: Alloc) {
    h.Shaped() && |a.r| == |h.c.ir| && a.free <= h.c.t.All() <= a.cost.Keys
    && (forall x :: x in d.regs ==> x in h.c.t.All() && h.c.nk <= d.regs[x] < h.stop)
    && (forall x :: x in d.regs && x in a.free ==> h.From(d.regs[x]) == PReg(x))
    && (forall x :: x in h.c.t.All() && x !in a.free ==>
          x in d.regs && a.cost[x] == d.regs[x] && a.r[d.regs[x]] == Has(x) && x in h.c.t.ClassOf(h.c.ir[d.regs[x]]))
  }

  /** `y` is a parent register whose ref still has to be moved to the register it took. */
  ghost predicate Source(h: Inherited, d: Demand, a: Alloc, src: map<Reg, int>, y: Reg) {
    y in src && h.c.nk <= src[y] < h.stop <= |a.r| && h.From(src[y]) == PReg(y)
    && a.r[src[y]].Has? && a.r[src[y]].reg in h.c.t.All() - a.free && a.r[src[y]].reg in a.cost
    && a.cost[a.r[src[y]].reg] == src[y]
    && (y in a.free ==> y !in d.regs)
  }

  /** `x` is a taken register whose ref is still in one of the registers `live`. */
  ghost predicate Target(h: Inherited, a: Alloc, live: set<Reg>, src: map<Reg, int>, x: Reg) {
    x in a.cost && h.c.nk <= a.cost[x] < h.stop
    && h.From(a.cost[x]).PReg?
    && h.From(a.cost[x]).reg in live && h.From(a.cost[x]).reg in src
    && src[h.From(a.cost[x]).reg] == a.cost[x]
  }

  /** Between two steps of the shuffle: the pending moves go from the registers in `live` to
      the registers that are taken, one to one, and no register that already has its final
      content may serve as a temporary. */
  ghost predicate Shuffling(h: Inherited, d: Demand, a: Alloc, live: set<Reg>, src: map<Reg, int>, allow: set<Reg>) {
    Tracks(h, d, a) && live <= h.c.t.All()
    && (forall y :: y in live ==> Source(h, d, a, src, y))
    && (forall x :: x in h.c.t.All() && x !in a.free ==> Target(h, a, live, src, x))
    && (forall x :: x in d.regs && x in a.free ==> x !in allow)
  }

  lemma InjectionSize(s: set<Reg>, f: Reg -> Reg, into: set<Reg>)
    requires forall x :: x in s ==> f(x) in into
    requires forall x, y :: x in s && y in s && x != y ==> f(x) != f(y)
    ensures |s| <= |into|
    decreases |s|
  {
    if x :| x in s {
      InjectionSize(s - {x}, f, into - {f(x)});
    }
  }

  lemma SubsetOfSameSize(s: set<Reg>, t: set<Reg>)
    requires s <= t && |t| <= |s|
    ensures s == t
  {
    if x :| x in t && x !in s {
      SubsetIsSmaller(s, t - {x});
    }
  }

  lemma SubsetIsSmaller(s: set<Reg>, t: set<Reg>)
    requires s <= t
    ensures |s| <= |t|
  {
    if x :| x in s {
      SubsetIsSmaller(s - {x}, t - {x});
    }
  }

  /** The parent register whose content taken register `x` is waiting for. */
  ghost function SourceOf(h: Inherited, a: Alloc, live: set<Reg>, src: map<Reg, int>, x: Reg): Reg {
    if Target(h, a, live, src, x) then h.From(a.cost[x]).reg else x
  }

  lemma SourcesDiffer(h: Inherited, d: Demand, a: Alloc, live: set<Reg>, src: map<Reg, int>, allow: set<Reg>,
                      x: Reg, y: Reg)
    requires Shuffling(h, d, a, live, src, allow)
    requires x in h.c.t.All() - a.free && y in h.c.t.All() - a.free && x != y
    ensures SourceOf(h, a, live, src, x) in live
    ensures SourceOf(h, a, live, src, x) != SourceOf(h, a, live, src, y)
  {
    assert Target(h, a, live, src, x) && Target(h, a, live, src, y);
    assert a.r[a.cost[x]] == Has(x) && a.r[a.cost[y]] == Has(y);
  }

  lemma SourceLive(h: Inherited, d: Demand, a: Alloc, live: set<Reg>, src: map<Reg, int>, allow: set<Reg>, x: Reg)
    requires Shuffling(h, d, a, live, src, allow) && x in h.c.t.All() - a.free
    ensures SourceOf(h, a, live, src, x) in live
  {
    assert Target(h, a, live, src, x);
  }

  /** A temporary is used only to break a cycle: when no pending source is free, the pending
      targets are exactly the pending sources, so the remaining moves permute them. */
  lemma OnlyCyclesLeft(h: Inherited, d: Demand, a: Alloc, live: set<Reg>, src: map<Reg, int>, allow: set<Reg>)
    requires Shuffling(h, d, a, live, src, allow) && a.free * live == {}
    ensures live == h.c.t.All() - a.free
  {
    var taken := h.c.t.All() - a.free;
    var f := x => SourceOf(h, a, live, src, x);
    forall x | x in taken ensures f(x) in live { SourceLive(h, d, a, live, src, allow, x); }
    forall x, y | x in taken && y in taken && x != y ensures f(x) != f(y) {
      SourcesDiffer(h, d, a, live, src, allow, x, y);
    }
    InjectionSize(taken, f, live);
    SubsetOfSameSize(live, taken);
  }

  /** One coalescing move: the ref in free register `y` goes to the register it took, which
      thereby becomes free; `y` keeps its content and is never touched again. */
  lemma MoveKeeps(h: Inherited, d: Demand, a: Alloc, live: set<Reg>, src: map<Reg, int>, allow: set<Reg>, y: Reg,
                  x: Reg, d1: Demand, a1: Alloc)
    requires Shuffling(h, d, a, live, src, allow) && y in live && y in a.free && Source(h, d, a, src, y)
    requires x == a.r[src[y]].reg && a1 == a.(free := a.free + {x})
    requires d1 == d.(regs := (d.regs - {x})[y := src[y]])
    ensures Shuffling(h, d1, a1, live - {y}, src, allow - {y})
  {
    forall y1 | y1 in live - {y} ensures Source(h, d1, a1, src, y1) {
      assert Source(h, d, a, src, y1);
    }
    forall z | z in h.c.t.All() && z !in a1.free ensures Target(h, a1, live - {y}, src, z) {
      assert Target(h, a, live, src, z);
    }
  }

  /** One renaming: the ref waiting for `down` waits for `up` instead. */
  lemma RenameTracks(h: Inherited, d: Demand, a: Alloc, down: Reg, up: Reg, d1: Demand, a1: Alloc)
    requires Tracks(h, d, a) && down !in a.free && down in d.regs && up in a.free && up !in d.regs
    requires (down in h.c.t.gpr <==> up in h.c.t.gpr) && up in h.c.t.All() && h.c.t.gpr !! h.c.t.fpr
    requires d1 == d.(regs := (d.regs - {down})[up := d.regs[down]])
    requires a1 == a.(free := a.free + {down} - {up}, cost := a.cost[up := d.regs[down]][down := 0],
                      r := a.r[d.regs[down] := Has(up)])
    ensures Tracks(h, d1, a1)
  {
    forall z | z in h.c.t.All() && z !in a1.free && z != up ensures a1.r[d1.regs[z]] == Has(z) {
      assert a.r[d.regs[z]] == Has(z);
    }
  }

  lemma RenameKeeps(h: Inherited, d: Demand, a: Alloc, live: set<Reg>, src: map<Reg, int>, allow: set<Reg>,
                    down: Reg, up: Reg, d1: Demand, a1: Alloc)
    requires Shuffling(h, d, a, live, src, allow) && down in live && down !in a.free && down in d.regs
    requires up in a.free && up !in live && up in allow && up in h.c.t.All()
    requires Tracks(h, d1, a1)
    requires d1 == d.(regs := (d.regs - {down})[up := d.regs[down]])
    requires a1 == a.(free := a.free + {down} - {up}, cost := a.cost[up := d.regs[down]][down := 0],
                      r := a.r[d.regs[down] := Has(up)])
    ensures Shuffling(h, d1, a1, live, src, allow)
  {
    assert Target(h, a, live, src, down);
    forall y | y in live ensures Source(h, d1, a1, src, y) {
      assert Source(h, d, a, src, y);
    }
    forall z | z in h.c.t.All() && z !in a1.free ensures Target(h, a1, live, src, z) {
      if z != up { assert Target(h, a, live, src, z); }
    }
  }

  // ------------------------------------- collecting dependencies, before the shuffle

  /** Ref `j` is in a register. */
  ghost predicate InReg(h: Inherited, a: Alloc, j: int) {
    0 <= j < |a.r| && a.r[j].Has? && a.r[j].reg in h.c.t.All() - a.free && a.r[j].reg in a.cost
    && a.cost[a.r[j].reg] == j
  }

  /** `y` is a parent register; its ref has taken a register, or waits for one in `marked`. */
  ghost predicate LiveOk(h: Inherited, a: Alloc, src: map<Reg, int>, marked: set<nat>, i: nat, y: Reg) {
    y in src && i <= src[y] < h.stop <= |a.r| && h.From(src[y]) == PReg(y)
    && (if a.r[src[y]].Has? then InReg(h, a, src[y]) else src[y] in marked)
  }

  /** What ref `j` waits for: a live parent register, or a parent slot. */
  ghost predicate WaitOk(h: Inherited, live: set<Reg>, pass3: bool, j: int) {
    h.c.nk <= j < h.stop && if h.From(j).PReg? then h.From(j).reg in live else pass3
  }

  /** The register side, once the refs from `i` on have been looked at. */
  ghost predicate Scanned(h: Inherited, d: Demand, a: Alloc, live: set<Reg>, src: map<Reg, int>, allow: set<Reg>,
                          marked: set<nat>, pass3: bool, i: nat) {
    Tracks(h, d, a) && live + allow <= h.c.t.All() && h.c.nk <= i <= h.stop
    && (forall y :: y in live ==> LiveOk(h, a, src, marked, i, y))
    && (forall x :: x in h.c.t.All() && x !in a.free && i <= a.cost[x] ==>
          WaitOk(h, live, pass3, a.cost[x]) && x !in allow)
    && (forall k :: k in marked ==> i <= k < h.stop && !a.r[k].Has? && (h.From(k).PReg? ==> h.From(k).reg in live))
    && (forall x :: x in d.regs && x in a.free ==> a.r[d.regs[x]] == Has(x) && x !in allow)
    && (forall j :: h.c.nk <= j < i && a.r[j].Has? ==> InReg(h, a, j))
  }

  /** The slot side: a spilled ref whose slot is not filled yet is still to be looked at or
      given a register, or its slot is the one it has in the parent's frame. */
  ghost predicate SlotsLeft(h: Inherited, own: set<nat>, marked: set<nat>, i: nat) {
    h.stop <= |h.s|
    && (forall k :: k in own ==>
          h.c.nk <= k < h.stop && h.s[k] != 0 && (k < i || k in marked || h.From(k) == PSlot(h.s[k])))
    && (forall k :: k in marked ==> k in own)
    && (forall k: nat :: h.c.nk <= k < i && k < h.stop && h.s[k] != 0 ==> k in own)
  }

  /** Ref `j` is already in the register the parent has it in: nothing is to be done. */
  lemma ScanHome(h: Inherited, d: Demand, a: Alloc, live: set<Reg>, src: map<Reg, int>, allow: set<Reg>,
                 marked: set<nat>, pass3: bool, j: nat, x: Reg, own: set<nat>)
    requires Scanned(h, d, a, live, src, allow, marked, pass3, j + 1) && h.c.nk <= j && a.r[j] == Has(x)
    requires h.From(j) == PReg(x)
    ensures Scanned(h, d.(own := own), a.(free := a.free + {x}), live, src, allow - {x}, marked, pass3, j)
  {
    assert InReg(h, a, j) && x in d.regs && d.regs[x] == j;
    var a1 := a.(free := a.free + {x});
    forall y | y in live ensures LiveOk(h, a1, src, marked, j, y) { assert LiveOk(h, a, src, marked, j + 1, y); }
    forall i | h.c.nk <= i < j && a.r[i].Has? ensures InReg(h, a1, i) { assert InReg(h, a, i); }
  }

  /** Ref `j` took register `x` but comes from parent register `y`, or from a slot. */
  lemma ScanMove(h: Inherited, d: Demand, a: Alloc, live: set<Reg>, src: map<Reg, int>, allow: set<Reg>,
                 marked: set<nat>, pass3: bool, j: nat, x: Reg, own: set<nat>,
                 live1: set<Reg>, src1: map<Reg, int>, pass31: bool)
    requires Scanned(h, d, a, live, src, allow, marked, pass3, j + 1) && h.c.nk <= j && a.r[j] == Has(x)
    requires h.From(j) != PReg(x)
    requires match h.From(j)
      case PReg(y) => live1 == live + {y} && src1 == src[y := j] && pass31 == pass3
      case PSlot(_) => live1 == live && src1 == src && pass31
    ensures Scanned(h, d.(own := own), a, live1, src1, allow - {x}, marked, pass31, j)
  {
    hide Scanned;
    match h.From(j) {
      case PReg(y) => ScanFromReg(h, d, a, live, src, allow, marked, pass3, j, x, own, y);
      case PSlot(_) => ScanFromSlot(h, d, a, live, src, allow, marked, pass3, j, x, own);
    }
  }

  lemma ScanFromReg(h: Inherited, d: Demand, a: Alloc, live: set<Reg>, src: map<Reg, int>, allow: set<Reg>,
                    marked: set<nat>, pass3: bool, j: nat, x: Reg, own: set<nat>, y: Reg)
    requires Scanned(h, d, a, live, src, allow, marked, pass3, j + 1) && h.c.nk <= j && a.r[j] == Has(x) && h.From(j) == PReg(y) && x != y
    ensures Scanned(h, d.(own := own), a, live + {y}, src[y := j], allow - {x}, marked, pass3, j)
  {
    assert InReg(h, a, j);
    forall z | z in live + {y} ensures LiveOk(h, a, src[y := j], marked, j, z) {
      if z in live { assert LiveOk(h, a, src, marked, j + 1, z); }
    }
  }

  lemma ScanFromSlot(h: Inherited, d: Demand, a: Alloc, live: set<Reg>, src: map<Reg, int>, allow: set<Reg>,
                     marked: set<nat>, pass3: bool, j: nat, x: Reg, own: set<nat>)
    requires Scanned(h, d, a, live, src, allow, marked, pass3, j + 1) && h.c.nk <= j && a.r[j] == Has(x) && h.From(j).PSlot?
    ensures Scanned(h, d.(own := own), a, live, src, allow - {x}, marked, true, j)
  {
    assert InReg(h, a, j);
    forall z | z in live ensures LiveOk(h, a, src, marked, j, z) { assert LiveOk(h, a, src, marked, j + 1, z); }
  }


  /** Ref `j` is spilled and has no register. */
  lemma ScanSpilled(h: Inherited, d: Demand, a: Alloc, live: set<Reg>, src: map<Reg, int>, allow: set<Reg>,
                    marked: set<nat>, pass3: bool, j: nat, live1: set<Reg>, src1: map<Reg, int>)
    requires Scanned(h, d, a, live, src, allow, marked, pass3, j + 1) && h.c.nk <= j && !a.r[j].Has?
    requires match h.From(j)
      case PReg(y) => live1 == live + {y} && src1 == src[y := j]
      case PSlot(_) => live1 == live && src1 == src
    ensures Scanned(h, d, a, live1, src1, allow, marked + {j}, pass3, j)
  {
    forall z | z in live1 ensures LiveOk(h, a, src1, marked + {j}, j, z) {
      if z in live { assert LiveOk(h, a, src, marked, j + 1, z); }
    }
  }

  /** Nothing needs ref `j`. */
  lemma ScanUnused(h: Inherited, d: Demand, a: Alloc, live: set<Reg>, src: map<Reg, int>, allow: set<Reg>,
                   marked: set<nat>, pass3: bool, j: nat)
    requires Scanned(h, d, a, live, src, allow, marked, pass3, j + 1) && h.c.nk <= j && !a.r[j].Has?
    ensures Scanned(h, d, a, live, src, allow, marked, pass3, j)
  {
    forall z | z in live ensures LiveOk(h, a, src, marked, j, z) { assert LiveOk(h, a, src, marked, j + 1, z); }
  }

  /** A spilled ref is given a free register; if that is its home, the register stays free. */
  lemma ReloadTracks(h: Inherited, d: Demand, a: Alloc, k: nat, x: Reg, own: set<nat>, a1: Alloc)
    requires Tracks(h, d, a) && x in a.free && x !in d.regs && h.c.nk <= k < h.stop && !a.r[k].Has?
    requires x in h.c.t.ClassOf(h.c.ir[k])
    requires a1 == Taken(a, k, x) || (h.From(k) == PReg(x) && a1 == a.(r := a.r[k := Has(x)], cost := a.cost[x := k]))
    ensures Tracks(h, d.(own := own, regs := d.regs[x := k]), a1)
  {
  }

  lemma LiveHome(h: Inherited, a: Alloc, src: map<Reg, int>, marked: set<nat>, k: nat, x: Reg, a1: Alloc, y: Reg)
    requires LiveOk(h, a, src, marked, h.c.nk, y) && y != x && h.From(k) == PReg(x) && k < |a.r| && x in a.free
    requires a1 == a.(r := a.r[k := Has(x)], cost := a.cost[x := k])
    ensures LiveOk(h, a1, src, marked - {k}, h.c.nk, y)
  {
  }

  lemma TracksSizes(h: Inherited, d: Demand, a: Alloc)
    requires Tracks(h, d, a)
    ensures h.Shaped() && h.stop <= |a.r| == |h.c.ir| && a.free <= h.c.t.All() <= a.cost.Keys
    ensures forall x :: x in d.regs ==> x in h.c.t.All() && h.c.nk <= d.regs[x] < h.stop
    ensures forall x :: x in h.c.t.All() && x !in a.free ==> 0 <= a.cost[x] < |a.r| && a.r[a.cost[x]] == Has(x)
  {
  }

  lemma OtherHome(h: Inherited, k: nat, x: Reg, j: int)
    requires h.Shaped() && h.c.nk <= k < h.stop && h.c.nk <= j < h.stop && h.From(k) == PReg(x) && j != k
    ensures h.From(j) != PReg(x)
  {
    assert j < k ==> h.From(j) != h.From(k);
    assert k < j ==> h.From(k) != h.From(j);
  }

  lemma WaitHome(h: Inherited, live: set<Reg>, pass3: bool, k: nat, x: Reg, j: int)
    requires h.Shaped() && WaitOk(h, live, pass3, j) && h.c.nk <= k < h.stop && h.From(k) == PReg(x) && j != k
    ensures WaitOk(h, live - {x}, pass3, j)
  {
    if h.From(j).PReg? { OtherHome(h, k, x, j); }
  }

  /** It has reached its home. */
  lemma ReloadHome(h: Inherited, d: Demand, a: Alloc, live: set<Reg>, src: map<Reg, int>, allow: set<Reg>,
                   marked: set<nat>, pass3: bool, k: nat, x: Reg, d1: Demand, a1: Alloc)
    requires Scanned(h, d, a, live, src, allow, marked, pass3, h.c.nk) && k in marked && x in allow && x in a.free
    requires Tracks(h, d1, a1) && d1.regs == d.regs[x := k]
    requires h.From(k) == PReg(x) && a1 == a.(r := a.r[k := Has(x)], cost := a.cost[x := k])
    ensures Scanned(h, d1, a1, live - {x}, src, allow - {x}, marked - {k}, pass3, h.c.nk)
  {
    hide LiveOk, WaitOk, Tracks, Inherited.Shaped;
    TracksSizes(h, d, a);
    forall y | y in live - {x} ensures LiveOk(h, a1, src, marked - {k}, h.c.nk, y) {
      LiveHome(h, a, src, marked, k, x, a1, y);
    }
    forall y | y in h.c.t.All() && y !in a1.free && h.c.nk <= a1.cost[y] ensures WaitOk(h, live - {x}, pass3, a1.cost[y]) {
      WaitHome(h, live, pass3, k, x, a.cost[y]);
    }
    forall j | j in marked - {k} && h.From(j).PReg? ensures h.From(j).reg in live - {x} {
      OtherHome(h, k, x, j);
    }
  }

  /** It waits for a parent register or slot like the others. */
  lemma ReloadAway(h: Inherited, d: Demand, a: Alloc, live: set<Reg>, src: map<Reg, int>, allow: set<Reg>,
                   marked: set<nat>, pass3: bool, k: nat, x: Reg, d1: Demand, a1: Alloc)
    requires Scanned(h, d, a, live, src, allow, marked, pass3, h.c.nk) && k in marked && x in allow && x in a.free
    requires Tracks(h, d1, a1) && d1.regs == d.regs[x := k]
    requires h.From(k) != PReg(x) && a1 == Taken(a, k, x)
    ensures Scanned(h, d1, a1, live, src, allow - {x}, marked - {k}, pass3 || h.From(k).PSlot?, h.c.nk)
  {
    forall y | y in live ensures LiveOk(h, a1, src, marked - {k}, h.c.nk, y) {
      assert LiveOk(h, a, src, marked, h.c.nk, y);
    }
  }

  lemma Reloaded(h: Inherited, d: Demand, a: Alloc, live: set<Reg>, src: map<Reg, int>, allow: set<Reg>,
                 marked: set<nat>, pass3: bool, k: nat, x: Reg, d1: Demand, a1: Alloc, live1: set<Reg>)
    requires Scanned(h, d, a, live, src, allow, marked, pass3, h.c.nk) && k in marked && x in allow
    requires x in a.free && x !in d.regs && x in h.c.t.ClassOf(h.c.ir[k]) && d1 == d.(own := d1.own, regs := d.regs[x := k])
    requires if h.From(k) == PReg(x) then a1 == a.(r := a.r[k := Has(x)], cost := a.cost[x := k]) && live1 == live - {x}
      else a1 == Taken(a, k, x) && live1 == live
    ensures Scanned(h, d1, a1, live1, src, allow - {x}, marked - {k}, pass3 || h.From(k).PSlot?, h.c.nk)
  {
    ReloadTracks(h, d, a, k, x, d1.own, a1);
    if h.From(k) == PReg(x) {
      ReloadHome(h, d, a, live, src, allow, marked, pass3, k, x, d1, a1);
    } else {
      ReloadAway(h, d, a, live, src, allow, marked, pass3, k, x, d1, a1);
    }
  }

  /** Taken register `x` is loaded from the parent's slot and becomes free. */
  lemma LoadKeeps(h: Inherited, d: Demand, a: Alloc, live: set<Reg>, src: map<Reg, int>, allow: set<Reg>,
                  pass3: bool, x: Reg, par: set<nat>)
    requires Scanned(h, d, a, live, src, allow, {}, pass3, h.c.nk) && x in h.c.t.All() - a.free
    requires h.From(a.cost[x]).PSlot?
    ensures Scanned(h, d.(regs := d.regs - {x}, par := par), a.(free := a.free + {x}), live, src, allow, {}, pass3, h.c.nk)
  {
    var a1 := a.(free := a.free + {x});
    forall y | y in live ensures LiveOk(h, a1, src, {}, h.c.nk, y) { assert LiveOk(h, a, src, {}, h.c.nk, y); }
  }

  /** When all that is left waits for parent registers, the shuffle can start. */
  lemma ReadyToShuffle(h: Inherited, d: Demand, a: Alloc, live: set<Reg>, src: map<Reg, int>, allow: set<Reg>, pass3: bool)
    requires Scanned(h, d, a, live, src, allow, {}, pass3, h.c.nk)
    requires forall x :: x in h.c.t.All() && x !in a.free ==> h.From(a.cost[x]).PReg?
    ensures Shuffling(h, d, a, live, src, allow)
  {
    forall y | y in live ensures Source(h, d, a, src, y) {
      assert LiveOk(h, a, src, {}, h.c.nk, y);
      assert InReg(h, a, src[y]);
    }
    forall x | x in h.c.t.All() && x !in a.free ensures Target(h, a, live, src, x) {
      assert WaitOk(h, live, pass3, a.cost[x]);
      var y := h.From(a.cost[x]).reg;
      assert LiveOk(h, a, src, {}, h.c.nk, y);
    }
  }

  /** At the end every demand is met by the state the parent hands over. */
  lemma EntrySuffices(h: Inherited, d: Demand, a: Alloc, m: Machine)
    requires h.Valid() && Tracks(h, d, a) && a.free == h.c.t.All() && SlotsLeft(h, d.own, {}, h.c.nk) && h.AtEntry(m)
    ensures Sat(h, d, m)
  {
  }

  // ------------------------------------------------------------ the code

  /** The emitted code `code` is right, and the shuffle is under way. */
  ghost predicate InShuffle(h: Inherited, d: Demand, a: Alloc, code: seq<MIns>, live: set<Reg>, src: map<Reg, int>,
                            allow: set<Reg>, own: set<nat>)
  {
    h.s == a.s && Serves(h, d, code) && Shuffling(h, d, a, live, src, allow) && d.own == own
  }

  /** ra_rename: the ref in `down` moves to `up`. Backwards, that emits the inverse move. */
  method Rename(st: ASMState, down: Reg, up: Reg, ghost h: Inherited, ghost d: Demand,
                ghost live: set<Reg>, ghost src: map<Reg, int>, ghost allow: set<Reg>) returns (ghost d1: Demand)
    requires h.Valid() && h.c == st.C() && InShuffle(h, d, st.A(), st.mcp, live, src, allow, d.own)
    requires down in live && down !in st.freeset && up in st.freeset && up !in live && up in allow && up in st.t.All()
    requires down in st.t.gpr <==> up in st.t.gpr
    modifies st
    ensures InShuffle(h, d1, st.A(), st.mcp, live, src, allow, d.own)
    ensures st.freeset == old(st.freeset) + {down} - {up} && SameIn(st.t.All() - (if down in st.t.gpr then st.t.gpr else st.t.fpr), old(st.r), st.r)
  {
    assert down in d.regs && up !in d.regs;
    var ref := st.cost[down];
    d1 := d.(regs := (d.regs - {down})[up := d.regs[down]]);
    ghost var a0 := st.A();
    st.cost := st.cost[up := ref][down := 0];
    st.r := st.r[ref := Has(up)];
    st.freeset := st.freeset + {down} - {up};
    ServesMove(h, d, st.mcp, down, up);
    st.mcp := [MovRR(down, up)] + st.mcp;
    RenameTracks(h, d, a0, down, up, d1, st.A());
    RenameKeeps(h, d, a0, live, src, allow, down, up, d1, st.A());
  }

  /** Move the ref in free parent register `rp` to the register it has taken. */
  method MoveOne(st: ASMState, rp: Reg, src: map<Reg, int>, ghost h: Inherited, ghost d: Demand,
                 ghost live: set<Reg>, ghost allow: set<Reg>) returns (ghost d1: Demand)
    requires h.Valid() && h.c == st.C() && InShuffle(h, d, st.A(), st.mcp, live, src, allow, d.own) && rp in live && rp in st.freeset
    modifies st
    ensures InShuffle(h, d1, st.A(), st.mcp, live - {rp}, src, allow - {rp}, d.own)
    ensures st.r == old(st.r) && StepsOver(h, old(st.A()), st.A(), src, rp)
  {
    assert Source(h, d, st.A(), src, rp);
    var target := st.r[src[rp]].reg;
    ghost var a0 := st.A();
    st.freeset := st.freeset + {target};
    ServesMove(h, d, st.mcp, target, rp);
    st.mcp := [MovRR(target, rp)] + st.mcp;
    d1 := d.(regs := (d.regs - {target})[rp := src[rp]]);
    MoveKeeps(h, d, a0, live, src, allow, rp, target, d1, st.A());
  }

  /** The inner loop of the shuffle: move every ref whose parent register nobody is waiting
      to fill, until no such register is left. What waits in cycles stays. */
  method Coalesce(st: ASMState, live0: set<Reg>, src: map<Reg, int>, allow0: set<Reg>, ghost h: Inherited, ghost d0: Demand)
    returns (live: set<Reg>, allow: set<Reg>, ghost d: Demand)
    requires h.Valid() && h.c == st.C() && InShuffle(h, d0, st.A(), st.mcp, live0, src, allow0, d0.own)
    modifies st
    ensures InShuffle(h, d, st.A(), st.mcp, live, src, allow, d0.own) && st.freeset * live == {} && st.r == old(st.r)
    ensures live <= live0 && (live == live0 ==> old(st.freeset) * live0 == {}) && allow - live == allow0 - live0
    ensures Stay(st.r, live0, src, live)
  {
    hide InShuffle, StepsOver, StayTaken;
    live, allow, d := live0, allow0, d0;
    NoneMoved(h, d, st.A(), st.mcp, live, src, allow, d0.own);
    while st.freeset * live != {}
      invariant InShuffle(h, d, st.A(), st.mcp, live, src, allow, d0.own) && st.r == old(st.r)
      invariant live <= live0 && (live == live0 ==> st.freeset == old(st.freeset)) && allow - live == allow0 - live0
      invariant StayTaken(st.r, live0, src, live, st.freeset)
      decreases |live|
    {
      var rp := PickBot(st.freeset * live);
      OwnIs(h, d, st.A(), st.mcp, live, src, allow, d0.own);
      ghost var a1, code1, d1 := st.A(), st.mcp, d;
      d := MoveOne(st, rp, src, h, d, live, allow);
      MovedOut(h, d1, a1, st.A(), live0, src, allow, live, rp, code1, d0.own);
      LessByOne(allow, live, rp);
      live := live - {rp};
      allow := allow - {rp};
    }
    TakenStay(st.r, live0, src, live, st.freeset);
  }

  /** Break cycles among the registers of one class by renaming one target to a temporary
      that is neither waited for nor final. It fails exactly if there is none. */
  method BreakCycle(st: ASMState, class_: set<Reg>, live: set<Reg>, src: map<Reg, int>, allow: set<Reg>,
                    ghost h: Inherited, ghost d: Demand) returns (res: Result<(), NyiCoalesce>, ghost d1: Demand)
    requires h.Valid() && h.c == st.C() && InShuffle(h, d, st.A(), st.mcp, live, src, allow, d.own)
    requires class_ == st.t.gpr || class_ == st.t.fpr
    requires st.freeset * (live * class_) == {}
    modifies st
    ensures res.Ok? ==> InShuffle(h, d1, st.A(), st.mcp, live, src, allow, d.own)
    ensures res.Ok? ==> old(st.freeset) * live <= st.freeset * live && st.freeset - class_ == old(st.freeset) - class_
    ensures res.Ok? && live * class_ != {} ==> st.freeset * live != {}
    ensures res.Err? <==> live * class_ != {} && (old(st.freeset) - live) * allow * class_ == {}
    ensures SameIn(st.t.All() - class_, old(st.r), st.r) && (res.Err? ==> st.r == old(st.r))
  {
    d1 := d;
    res := Ok(());
    if live * class_ != {} {
      var tmpset := (st.freeset - live) * allow * class_;
      if tmpset == {} {
        return Err(NyiCoalesce), d;
      }
      var down, up := PickBot(live * class_), PickBot(tmpset);
      NotInBoth(st.freeset, live * class_, down);
      RenamedFree(st.freeset, live, class_, down, up);
      d1 := Rename(st, down, up, h, d, live, src, allow);
    }
  }

  /** The shuffle. It terminates; a temporary is used only when the remaining moves are a
      permutation of the registers still waited for; and afterwards every register is free,
      all demands being met by what the parent leaves in its registers. It fails exactly if
      some moves go around in a cycle in a class that has no spare register. */
  method Shuffle(st: ASMState, live0: set<Reg>, src: map<Reg, int>, allow0: set<Reg>, ghost h: Inherited, ghost d0: Demand)
    returns (res: Result<(), NyiCoalesce>, ghost d: Demand)
    requires h.Valid() && h.c == st.C() && InShuffle(h, d0, st.A(), st.mcp, live0, src, allow0, d0.own)
    modifies st
    ensures res.Ok? ==> InShuffle(h, d, st.A(), st.mcp, {}, src, {}, d0.own) && st.freeset == st.t.All()
    ensures res.Err? <==> Stuck(old(st.r), live0, src, allow0, st.t.gpr) || Stuck(old(st.r), live0, src, allow0, st.t.fpr)
    ensures res.Err? ==> (NoSpare(live0, allow0, st.t.gpr) && st.r == old(st.r)) || (NoSpare(live0, allow0, st.t.fpr) && SameIn(st.t.fpr, old(st.r), st.r))
  {
    hide InShuffle, Stuck, Stay, NoTemp, NoSpare, Round, SameIn;
    var live, allow := live0, allow0;
    d := d0;
    ghost var first := true;
    RoundStart(st.r, live0, allow0, src, st.t);
    while true
      invariant InShuffle(h, d, st.A(), st.mcp, live, src, allow, d0.own)
      invariant Round(first, old(st.r), st.r, live0, allow0, live, allow, src, st.t)
      decreases |live|, if st.freeset * live == {} then 1 else 0
    {
      ghost var live1, allow1 := live, allow;
      OwnIs(h, d, st.A(), st.mcp, live, src, allow, d0.own);
      live, allow, d := Coalesce(st, live, src, allow, h, d);
      if live != live1 { Shrinks(live, live1); }
      OwnIs(h, d, st.A(), st.mcp, live, src, allow, d0.own);
      FirstRound(h, d, st.A(), st.mcp, live1, live, src, allow, d0.own);
      AfterMoves(first, old(st.r), st.r, live0, allow0, live1, allow1, live, allow, src, st.t);
      if live == {} {
        AllFree(h, d, st.A(), st.mcp, src, allow, d0.own);
        return Ok(()), d;
      }
      ghost var r1 := st.r;
      res, d := BreakCycles(st, live, src, allow, h, d);
      if res.Err? {
        StuckNow(first, old(st.r), r1, st.r, live0, allow0, live1, allow1, live, allow, src, st.t);
        return;
      }
      first := false;
    }
  }

  /** One target of each class that still has any is renamed. At this point only cycles are
      left: the pending targets are exactly the pending sources. */
  method BreakCycles(st: ASMState, live: set<Reg>, src: map<Reg, int>, allow: set<Reg>,
                     ghost h: Inherited, ghost d: Demand) returns (res: Result<(), NyiCoalesce>, ghost d1: Demand)
    requires h.Valid() && h.c == st.C() && InShuffle(h, d, st.A(), st.mcp, live, src, allow, d.own)
    requires st.freeset * live == {} && live != {}
    modifies st
    ensures res.Ok? ==> InShuffle(h, d1, st.A(), st.mcp, live, src, allow, d.own) && st.freeset * live != {}
    ensures live == st.t.All() - old(st.freeset)
    ensures res.Err? <==> NoTemp(live, allow - live, st.t.gpr) || NoTemp(live, allow - live, st.t.fpr)
    ensures res.Err? ==> (NoTemp(live, allow - live, st.t.gpr) && st.r == old(st.r)) || (NoTemp(live, allow - live, st.t.fpr) && SameIn(st.t.fpr, old(st.r), st.r))
  {
    OnlyCyclesLeft(h, d, st.A(), live, src, allow);
    assert live * st.t.gpr != {} || live * st.t.fpr != {} by {
      var y :| y in live;
      assert y in live * st.t.gpr || y in live * st.t.fpr;
    }
    hide InShuffle;
    ghost var before, r0 := st.freeset, st.r;
    TempsAre(before, st.t.All(), live, allow, st.t.gpr);
    TempsAre(before, st.t.All(), live, allow, st.t.fpr);
    res, d1 := BreakCycle(st, st.t.gpr, live, src, allow, h, d);
    if res.Ok? {
      ghost var r1 := st.r;
      OtherClass(st.t, before, st.freeset, live, allow);
      res, d1 := BreakCycle(st, st.t.fpr, live, src, allow, h, d1);
      SameBoth(st.t, r0, r1);
    }
  }

  // ------------------------------------------------------- when the shuffle can fail

  /** The fields that name a register of a set are the same. */
  predicate SameIn(regs: set<Reg>, r: seq<RegField>, r1: seq<RegField>) {
    |r1| == |r| && forall j :: 0 <= j < |r| && r[j].Has? && r[j].reg in regs ==> r1[j] == r[j]
  }

  /** The value in `z` is to be moved to `y`. */
  predicate MovesTo(r: seq<RegField>, src: map<Reg, int>, z: Reg, y: Reg) {
    z in src && 0 <= src[z] < |r| && r[src[z]] == Has(y)
  }

  /** The moves among these registers go around in cycles: each is the target of one of them. */
  ghost predicate IsCycle(r: seq<RegField>, live: set<Reg>, src: map<Reg, int>, cyc: set<Reg>) {
    cyc != {} && cyc <= live && forall y {:trigger FedBy(r, src, cyc, y)} :: y in cyc ==> FedBy(r, src, cyc, y)
  }

  ghost predicate FedBy(r: seq<RegField>, src: map<Reg, int>, cyc: set<Reg>, y: Reg) {
    exists z {:trigger MovesTo(r, src, z, y)} :: z in cyc && MovesTo(r, src, z, y)
  }

  /** No register of the class is allowed and not waited for. */
  predicate NoSpare(live: set<Reg>, allow: set<Reg>, class_: set<Reg>) { (allow - live) * class_ == {} }

  /** A register of the class is in the cycle. */
  ghost predicate CycleIn(r: seq<RegField>, live: set<Reg>, src: map<Reg, int>, class_: set<Reg>, cyc: set<Reg>) {
    IsCycle(r, live, src, cyc) && cyc * class_ != {}
  }

  /** A register of a class without a spare one is in a cycle. */
  ghost predicate Stuck(r: seq<RegField>, live: set<Reg>, src: map<Reg, int>, allow: set<Reg>, class_: set<Reg>) {
    NoSpare(live, allow, class_) && exists cyc :: CycleIn(r, live, src, class_, cyc)
  }

  predicate NoTemp(live: set<Reg>, spare: set<Reg>, class_: set<Reg>) { live * class_ != {} && spare * class_ == {} }

  /** Cycles stay among the registers that are waited for. */
  ghost predicate Stay(r: seq<RegField>, live0: set<Reg>, src: map<Reg, int>, live: set<Reg>) {
    forall cyc :: IsCycle(r, live0, src, cyc) ==> cyc <= live
  }

  ghost predicate StayTaken(r: seq<RegField>, live0: set<Reg>, src: map<Reg, int>, live: set<Reg>, free: set<Reg>) {
    forall cyc :: IsCycle(r, live0, src, cyc) ==> cyc <= live && cyc !! free
  }

  lemma LessByOne(allow: set<Reg>, live: set<Reg>, rp: Reg)
    requires rp in live
    ensures (allow - {rp}) - (live - {rp}) == allow - live && |live - {rp}| < |live|
  {
  }

  lemma TakenStay(r: seq<RegField>, live0: set<Reg>, src: map<Reg, int>, live: set<Reg>, free: set<Reg>)
    requires StayTaken(r, live0, src, live, free)
    ensures Stay(r, live0, src, live)
  {
  }

  /** What a move changes: the target of the value in `rp` becomes free. */
  ghost predicate StepsOver(h: Inherited, a: Alloc, a1: Alloc, src: map<Reg, int>, rp: Reg) {
    rp in src && 0 <= src[rp] < |a.r| && a.r[src[rp]].Has? && a1.r == a.r && a1.free == a.free + {a.r[src[rp]].reg}
  }

  lemma NoneMoved(h: Inherited, d: Demand, a: Alloc, code: seq<MIns>, live: set<Reg>, src: map<Reg, int>, allow: set<Reg>, own: set<nat>)
    requires InShuffle(h, d, a, code, live, src, allow, own)
    ensures StayTaken(a.r, live, src, live, a.free)
  {
    forall cyc | IsCycle(a.r, live, src, cyc)
      ensures cyc <= live && cyc !! a.free
    {
      forall y | y in cyc
        ensures y !in a.free
      {
        var z := ComesFrom(a.r, live, src, cyc, y);
        assert Source(h, d, a, src, z);
      }
    }
  }

  /** Of two values that wait for registers, only one is moved to a register. */
  lemma OneMover(h: Inherited, d: Demand, a: Alloc, src: map<Reg, int>, z: Reg, y: Reg)
    requires Source(h, d, a, src, z) && Source(h, d, a, src, y) && a.r[src[z]] == a.r[src[y]]
    ensures z == y
  {
  }

  lemma SourceIs(h: Inherited, d: Demand, a: Alloc, live: set<Reg>, src: map<Reg, int>, allow: set<Reg>, y: Reg)
    requires Shuffling(h, d, a, live, src, allow) && y in live
    ensures Source(h, d, a, src, y)
  {
  }

  lemma ComesFrom(r: seq<RegField>, live: set<Reg>, src: map<Reg, int>, cyc: set<Reg>, y: Reg) returns (z: Reg)
    requires IsCycle(r, live, src, cyc) && y in cyc
    ensures z in cyc && MovesTo(r, src, z, y)
  {
    assert FedBy(r, src, cyc, y);
    z :| z in cyc && MovesTo(r, src, z, y);
  }

  lemma MovedOne(h: Inherited, d: Demand, a: Alloc, a1: Alloc, live0: set<Reg>, src: map<Reg, int>, allow: set<Reg>, live: set<Reg>, rp: Reg, cyc: set<Reg>)
    requires Shuffling(h, d, a, live, src, allow) && rp in live && rp in a.free && StepsOver(h, a, a1, src, rp)
    requires IsCycle(a.r, live0, src, cyc) && cyc <= live && cyc !! a.free
    ensures cyc <= live - {rp} && cyc !! a1.free
  {
    hide Shuffling, IsCycle;
    SourceIs(h, d, a, live, src, allow, rp);
    var x := a.r[src[rp]].reg;
    if x in cyc {
      var z := ComesFrom(a.r, live0, src, cyc, x);
      SourceIs(h, d, a, live, src, allow, z);
      OneMover(h, d, a, src, z, rp);
    }
  }

  /** A value in a free register is in no cycle, and neither is its target. */
  lemma MovedOut(h: Inherited, d: Demand, a: Alloc, a1: Alloc, live0: set<Reg>, src: map<Reg, int>, allow: set<Reg>, live: set<Reg>, rp: Reg, code: seq<MIns>, own: set<nat>)
    requires InShuffle(h, d, a, code, live, src, allow, own) && rp in live && rp in a.free && StepsOver(h, a, a1, src, rp)
    requires StayTaken(a.r, live0, src, live, a.free)
    ensures StayTaken(a1.r, live0, src, live - {rp}, a1.free)
  {
    hide IsCycle, Shuffling, Serves;
    forall cyc | IsCycle(a.r, live0, src, cyc)
      ensures cyc <= live - {rp} && cyc !! a1.free
    {
      MovedOne(h, d, a, a1, live0, src, allow, live, rp, cyc);
    }
  }

  lemma OwnIs(h: Inherited, d: Demand, a: Alloc, code: seq<MIns>, live: set<Reg>, src: map<Reg, int>, allow: set<Reg>, own: set<nat>)
    requires InShuffle(h, d, a, code, live, src, allow, own)
    ensures d.own == own
  {
  }

  /** When only cycles are left, they are a cycle of the first moves. */
  lemma FirstRound(h: Inherited, d: Demand, a: Alloc, code: seq<MIns>, live0: set<Reg>, live: set<Reg>, src: map<Reg, int>, allow: set<Reg>, own: set<nat>)
    requires InShuffle(h, d, a, code, live, src, allow, own) && a.free * live == {} && live <= live0
    ensures live != {} ==> IsCycle(a.r, live0, src, live)
  {
    OnlyCyclesLeft(h, d, a, live, src, allow);
    forall y | y in live
      ensures FedBy(a.r, src, live, y)
    {
      assert Target(h, a, live, src, y);
      var z := h.From(a.cost[y]).reg;
      assert z in live && MovesTo(a.r, src, z, y);
    }
  }

  lemma StuckIs(r: seq<RegField>, live0: set<Reg>, src: map<Reg, int>, allow0: set<Reg>, class_: set<Reg>, live: set<Reg>, allow: set<Reg>)
    requires Stay(r, live0, src, live) && (live != {} ==> IsCycle(r, live0, src, live)) && allow - live == allow0 - live0
    ensures Stuck(r, live0, src, allow0, class_) <==> NoTemp(live, allow0 - live0, class_)
  {
    hide IsCycle;
    if NoTemp(live, allow0 - live0, class_) {
      assert live != {};
      assert CycleIn(r, live0, src, class_, live);
    }
    if Stuck(r, live0, src, allow0, class_) {
      var cyc :| CycleIn(r, live0, src, class_, cyc);
      StayPart(live, cyc, class_);
    }
  }

  /** Before a round: nothing has been done yet, or no cycle has kept it from going on. */
  ghost predicate Round(first: bool, r0: seq<RegField>, r: seq<RegField>, live0: set<Reg>, allow0: set<Reg>, live: set<Reg>, allow: set<Reg>, src: map<Reg, int>, t: Target) {
    && allow - live == allow0 - live0
    && if first then live == live0 && r == r0
       else !Stuck(r0, live0, src, allow0, t.gpr) && !Stuck(r0, live0, src, allow0, t.fpr) && !NoTemp(live, allow - live, t.gpr) && !NoTemp(live, allow - live, t.fpr)
  }

  lemma RoundStart(r: seq<RegField>, live: set<Reg>, allow: set<Reg>, src: map<Reg, int>, t: Target)
    ensures Round(true, r, r, live, allow, live, allow, src, t)
  {
  }

  lemma FewerTemps(live: set<Reg>, live1: set<Reg>, spare: set<Reg>, class_: set<Reg>)
    requires live <= live1
    ensures NoTemp(live, spare, class_) ==> NoTemp(live1, spare, class_)
  {
    if NoTemp(live, spare, class_) { StayPart(live1, live, class_); }
  }

  /** With only cycles left, a class without a temporary is one that was stuck from the start. */
  lemma AfterMoves(first: bool, r0: seq<RegField>, r: seq<RegField>, live0: set<Reg>, allow0: set<Reg>, live1: set<Reg>, allow1: set<Reg>, live: set<Reg>, allow: set<Reg>,
                   src: map<Reg, int>, t: Target)
    requires Round(first, r0, r, live0, allow0, live1, allow1, src, t) && live <= live1 && allow - live == allow1 - live1
    requires Stay(r, live1, src, live) && (live != {} ==> IsCycle(r, live1, src, live))
    ensures Stuck(r0, live0, src, allow0, t.gpr) <==> NoTemp(live, allow - live, t.gpr)
    ensures Stuck(r0, live0, src, allow0, t.fpr) <==> NoTemp(live, allow - live, t.fpr)
    ensures live == {} ==> !NoTemp(live, allow - live, t.gpr) && !NoTemp(live, allow - live, t.fpr)
    ensures !NoTemp(live, allow - live, t.gpr) && !NoTemp(live, allow - live, t.fpr) ==> forall r1 :: Round(false, r0, r1, live0, allow0, live, allow, src, t)
  {
    hide Stuck, Stay, IsCycle;
    if first {
      StuckIs(r, live0, src, allow0, t.gpr, live, allow);
      StuckIs(r, live0, src, allow0, t.fpr, live, allow);
    } else {
      FewerTemps(live, live1, allow - live, t.gpr);
      FewerTemps(live, live1, allow - live, t.fpr);
    }
  }

  /** A stop is in the first round. */
  lemma StuckNow(first: bool, r0: seq<RegField>, r: seq<RegField>, r1: seq<RegField>, live0: set<Reg>, allow0: set<Reg>, live1: set<Reg>, allow1: set<Reg>,
                 live: set<Reg>, allow: set<Reg>, src: map<Reg, int>, t: Target)
    requires Round(first, r0, r, live0, allow0, live1, allow1, src, t) && live <= live1 && allow - live == allow1 - live1
    requires (NoTemp(live, allow - live, t.gpr) && r1 == r) || (NoTemp(live, allow - live, t.fpr) && SameIn(t.fpr, r, r1))
    ensures (NoSpare(live0, allow0, t.gpr) && r1 == r0) || (NoSpare(live0, allow0, t.fpr) && SameIn(t.fpr, r0, r1))
  {
    hide Stuck;
    FewerTemps(live, live1, allow - live, t.gpr);
    FewerTemps(live, live1, allow - live, t.fpr);
  }

  lemma StayPart(live: set<Reg>, cyc: set<Reg>, class_: set<Reg>)
    requires cyc <= live && cyc * class_ != {}
    ensures live * class_ != {}
  {
    var y :| y in cyc * class_;
    assert y in live * class_;
  }

  /** With only cycles left, the temporaries are the spare registers. */
  lemma TempsAre(free: set<Reg>, all: set<Reg>, live: set<Reg>, allow: set<Reg>, class_: set<Reg>)
    requires live == all - free && class_ <= all && free <= all
    ensures (free - live) * allow * class_ == (allow - live) * class_
  {
  }

  lemma SameBoth(t: Target, r: seq<RegField>, r1: seq<RegField>)
    requires SameIn(t.All() - t.gpr, r, r1) && t.gpr !! t.fpr
    ensures SameIn(t.fpr, r, r1)
  {
  }

  lemma RenamedFree(free: set<Reg>, live: set<Reg>, class_: set<Reg>, down: Reg, up: Reg)
    requires down in live * class_ && up in class_ - live
    ensures var after := free + {down} - {up};
      free * live <= after * live && after - class_ == free - class_ && after * live != {}
  {
    assert down in (free + {down} - {up}) * live;
  }

  lemma NotInBoth(s: set<Reg>, t: set<Reg>, x: Reg)
    requires s * t == {} && x in t
    ensures x !in s
  {
    assert x in s <==> x in s * t;
  }

  /** Renaming within one class frees or takes no register of the other. */
  lemma OtherClass(t: Target, before: set<Reg>, after: set<Reg>, live: set<Reg>, allow: set<Reg>)
    requires t.gpr !! t.fpr && after - t.gpr == before - t.gpr
    ensures after * (live * t.fpr) <= before * live
    ensures (after - live) * allow * t.fpr == (before - live) * allow * t.fpr
  {
    forall x | x in t.fpr ensures x in after <==> x in before { assert x in after - t.gpr <==> x in after; assert x in before - t.gpr <==> x in before; }
  }

  lemma AllFree(h: Inherited, d: Demand, a: Alloc, code: seq<MIns>, src: map<Reg, int>, allow: set<Reg>, own: set<nat>)
    requires InShuffle(h, d, a, code, {}, src, allow, own)
    ensures a.free == h.c.t.All() && InShuffle(h, d, a, code, {}, src, {}, own)
  {
    assert forall x :: x in h.c.t.All() && x !in a.free ==> Target(h, a, {}, src, x);
  }

  lemma Shrinks(s: set<Reg>, t: set<Reg>)
    requires s < t
    ensures |s| < |t|
  {
    var x :| x in t && x !in s;
    SubsetIsSmaller(s, t - {x});
  }

  // ------------------------------------------------ when there is no register left

  /** Inherited ref `j` has, or comes from, register `x`. */
  predicate HeldBy(h: Inherited, r: seq<RegField>, x: Reg, j: Ref) { h.c.nk <= j < h.stop && j < |r| && r[j] == Has(x) }

  predicate UsedBy(h: Inherited, r: seq<RegField>, x: Reg, j: Ref) { HeldBy(h, r, x, j) || (h.c.nk <= j < h.stop && h.From(j) == PReg(x)) }

  /** A register that is not allowed any more is that of an inherited ref. */
  ghost predicate Held(h: Inherited, r: seq<RegField>, allow: set<Reg>) {
    forall x {:trigger HeldOne(h, r, x)} :: x in h.c.t.All() && x !in allow ==> HeldOne(h, r, x)
  }

  ghost predicate HeldOne(h: Inherited, r: seq<RegField>, x: Reg) { exists j: Ref :: HeldBy(h, r, x, j) }

  ghost predicate UsedOne(h: Inherited, r: seq<RegField>, x: Reg) { exists j: Ref :: UsedBy(h, r, x, j) }

  /** Every register of the class has, or had in the parent, an inherited ref. */
  ghost predicate Crowded(h: Inherited, r: seq<RegField>, class_: set<Reg>) {
    forall x {:trigger UsedOne(h, r, x)} :: x in class_ ==> UsedOne(h, r, x)
  }

  lemma HeldMore(h: Inherited, r: seq<RegField>, allow: set<Reg>, j: Ref, x: Reg)
    requires Held(h, r, allow) && h.c.nk <= j < h.stop && j < |r| && r[j] == Has(x)
    ensures Held(h, r, allow - {x})
  {
    assert HeldBy(h, r, x, j);
  }

  /** A ref without a register takes one. */
  lemma HeldTaken(h: Inherited, r: seq<RegField>, r1: seq<RegField>, allow: set<Reg>, k: Ref, x: Reg)
    requires Held(h, r, allow) && h.c.nk <= k < h.stop && k < |r| && !r[k].Has? && r1 == r[k := Has(x)]
    ensures Held(h, r1, allow - {x})
  {
    assert HeldBy(h, r1, x, k);
    forall y | y in h.c.t.All() && y !in allow
      ensures HeldOne(h, r1, y)
    {
      assert HeldOne(h, r, y);
      var j :| HeldBy(h, r, y, j);
      assert HeldBy(h, r1, y, j);
    }
  }

  /** No register of the class is allowed: all are those of inherited refs. */
  lemma NoneAllowed(h: Inherited, r: seq<RegField>, allow: set<Reg>, class_: set<Reg>)
    requires Held(h, r, allow) && class_ <= h.c.t.All() && class_ * allow == {}
    ensures Crowded(h, r, class_)
  {
    forall x | x in class_
      ensures UsedOne(h, r, x)
    {
      NotInBoth(class_ * allow, class_ * allow + {x}, x);
      assert HeldOne(h, r, x);
      var j :| HeldBy(h, r, x, j);
      assert UsedBy(h, r, x, j);
    }
  }

  /** No register of the class is spare: those still allowed are homes. */
  lemma NoneSpare(h: Inherited, d: Demand, a: Alloc, code: seq<MIns>, live: set<Reg>, src: map<Reg, int>, allow: set<Reg>, own: set<nat>, class_: set<Reg>, r1: seq<RegField>)
    requires InShuffle(h, d, a, code, live, src, allow, own) && Held(h, a.r, allow) && class_ <= h.c.t.All() && NoSpare(live, allow, class_) && SameIn(class_, a.r, r1)
    ensures Crowded(h, r1, class_)
  {
    forall x | x in class_
      ensures UsedOne(h, r1, x)
    {
      if x in allow {
        assert x in (allow - live) * class_ || x in live;
        SourceIs(h, d, a, live, src, allow, x);
        assert UsedBy(h, r1, x, src[x]);
      } else {
        assert HeldOne(h, a.r, x);
        var j :| HeldBy(h, a.r, x, j);
        assert UsedBy(h, r1, x, j);
      }
    }
  }

  lemma NoneLeft(h: Inherited, d: Demand, a: Alloc, code: seq<MIns>, live: set<Reg>, src: map<Reg, int>, allow: set<Reg>, r1: seq<RegField>)
    requires InShuffle(h, d, a, code, live, src, allow, d.own) && Held(h, a.r, allow)
    requires (NoSpare(live, allow, h.c.t.gpr) && r1 == a.r) || (NoSpare(live, allow, h.c.t.fpr) && SameIn(h.c.t.fpr, a.r, r1))
    ensures Crowded(h, r1, h.c.t.gpr) || Crowded(h, r1, h.c.t.fpr)
  {
    hide InShuffle, Held, Crowded, NoSpare;
    if NoSpare(live, allow, h.c.t.gpr) && r1 == a.r {
      NoneSpare(h, d, a, code, live, src, allow, d.own, h.c.t.gpr, r1);
    } else {
      NoneSpare(h, d, a, code, live, src, allow, d.own, h.c.t.fpr, r1);
    }
  }

  /** Spill slots do not matter. */
  lemma CrowdedSame(h: Inherited, r: seq<RegField>, class_: set<Reg>)
    ensures Crowded(h, r, class_) ==> Crowded(h.(s := []), r, class_)
  {
    var h1 := h.(s := []);
    if Crowded(h, r, class_) {
      forall x | x in class_
        ensures UsedOne(h1, r, x)
      {
        assert UsedOne(h, r, x);
        var j :| UsedBy(h, r, x, j);
        assert h1.From(j) == h.From(j);
        assert UsedBy(h1, r, x, j);
      }
    }
  }

  /** An inherited ref uses two registers at most. */
  lemma {:induction false} CrowdedSize(h: Inherited, r: seq<RegField>, class_: set<Reg>, n: nat)
    requires h.c.nk <= n <= h.stop && forall x {:trigger x in class_} :: x in class_ ==> exists j: Ref :: j < n && UsedBy(h, r, x, j)
    ensures |class_| <= 2 * (n - h.c.nk)
    decreases n
  {
    if n == h.c.nk {
      forall x: Reg
        ensures x !in class_
      {
        NoUser(h, r, x);
      }
      assert class_ == {};
    } else {
      var k: nat := n - 1;
      var held: set<Reg> := if k < |r| && r[k].Has? then {r[k].reg} else {};
      var home: set<Reg> := if h.From(k).PReg? then {h.From(k).reg} else {};
      var rest := class_ - held - home;
      forall x | x in rest
        ensures exists j: Ref :: j < k && UsedBy(h, r, x, j)
      {
        var j: Ref :| j < n && UsedBy(h, r, x, j);
        assert j != k;
      }
      CrowdedSize(h, r, rest, k);
      TwoFewer(class_, held, home);
    }
  }

  lemma NoUser(h: Inherited, r: seq<RegField>, x: Reg)
    ensures !exists j: Ref :: j < h.c.nk && UsedBy(h, r, x, j)
  {
  }

  lemma TwoFewer(s: set<Reg>, a: set<Reg>, b: set<Reg>)
    requires |a| <= 1 && |b| <= 1
    ensures |s| <= |s - a - b| + 2
  {
    SubsetIsSmaller(s, (s - a - b) + (a + b));
    assert |(s - a - b) + (a + b)| <= |s - a - b| + |a + b|;
  }

  /** With fewer inherited values than half the registers of a class, the class is not crowded. */
  lemma FewNotCrowded(h: Inherited, r: seq<RegField>, class_: set<Reg>)
    requires h.c.nk <= h.stop && Crowded(h, r, class_)
    ensures |class_| <= 2 * (h.stop - h.c.nk)
  {
    forall x | x in class_
      ensures exists j: Ref :: j < h.stop && UsedBy(h, r, x, j)
    {
      assert UsedOne(h, r, x);
      var j :| UsedBy(h, r, x, j);
      assert j < h.stop && UsedBy(h, r, x, j);
    }
    CrowdedSize(h, r, class_, h.stop);
  }

  // --------------------------------------------- the passes before the shuffle

  /** Between two steps of the first two passes. */
  ghost predicate InScan(h: Inherited, d: Demand, a: Alloc, code: seq<MIns>, live: set<Reg>, src: map<Reg, int>,
                         allow: set<Reg>, marked: set<nat>, pass3: bool, i: nat)
  {
    h.s == a.s && Serves(h, d, code) && d.par == {} && SlotsLeft(h, d.own, marked, i)
    && Scanned(h, d, a, live, src, allow, marked, pass3, i)
  }

  /** What the trace body leaves is demanded at the start: taken registers and used slots. */
  lemma DemandsOfBody(h: Inherited, a: Alloc, code: seq<MIns>, d: Demand)
    requires h.Valid() && h.s == a.s && Inv(h.c, a, h.stop) && Correct(h.c, a, code, h.stop, map[], h.stop) && h.Shaped()
    requires forall x :: x in h.c.t.All() && x !in a.free ==> h.c.nk <= a.cost[x] < h.stop
    requires d.regs == (map x | x in h.c.t.All() - a.free :: a.cost[x])
    requires d.own == (set j: nat | h.c.nk <= j < h.stop && h.s[j] != 0) && d.par == {}
    ensures Serves(h, d, code) && SlotsLeft(h, d.own, {}, h.stop)
    ensures Scanned(h, d, a, {}, map[], h.c.t.All(), {}, false, h.stop)
  {
    forall m | Sat(h, d, m)
      ensures Run(h.c.sem, code, m).out == m.out + Events(h.c.ir, h.c.vals, h.stop)
    {
      forall j | 0 <= j < h.stop && a.s[j] != 0 ensures m.SlotHolds(a.s[j], h.c.ir[j].is64, h.c.vals[j]) {
        assert j in d.own;
      }
      assert Holds(h.c, a, h.stop, map[], m);
    }
    forall j | h.c.nk <= j < h.stop && a.r[j].Has? ensures InReg(h, a, j) {}
  }

  /** Store a ref from its register if it has a spill slot. */
  method Save(st: ASMState, j: nat, x: Reg, ghost h: Inherited, ghost d: Demand)
    requires h.Valid() && h.c == st.C() && h.s == st.s && Serves(h, d, st.mcp) && d.par == {}
    requires j < h.stop && x in d.regs && d.regs[x] == j && MayHold(h.c, x, j)
    requires forall k :: k in d.own ==> k < h.stop && h.s[k] != 0
    modifies st`mcp
    ensures Serves(h, d.(own := d.own - {j}), st.mcp)
  {
    if st.s[j] != 0 {
      ServesStore(h, d, st.mcp, j, x);
      st.mcp := [SpStore(x, st.s[j], st.ir[j].is64)] + st.mcp;
    } else {
      assert d.(own := d.own - {j}) == d;
    }
  }

  /** What the bookkeeping says about the ref and the registers about to be looked at. */
  lemma ScanFacts(h: Inherited, d: Demand, a: Alloc, live: set<Reg>, src: map<Reg, int>, allow: set<Reg>,
                  marked: set<nat>, pass3: bool, i: nat)
    requires Scanned(h, d, a, live, src, allow, marked, pass3, i)
    ensures h.c.nk <= i <= h.stop <= |a.r| && forall k :: k in marked ==> i <= k
    ensures h.c.nk < i && a.r[i - 1].Has? ==> a.r[i - 1].reg in d.regs && d.regs[a.r[i - 1].reg] == i - 1 && MayHold(h.c, a.r[i - 1].reg, i - 1)
    ensures forall x :: x in h.c.t.All() && x !in a.free ==>
      x in a.cost && x in d.regs && d.regs[x] == a.cost[x] && h.c.nk <= a.cost[x] < h.stop
  {
    if h.c.nk < i && a.r[i - 1].Has? { assert InReg(h, a, i - 1); }
  }

  /** One step of the first pass for a ref in a register: save it if it is spilled too. */
  method ScanRegister(st: ASMState, i: nat, rs: Home, live0: set<Reg>, src0: map<Reg, int>, allow0: set<Reg>,
                      ghost marked: set<nat>, pass30: bool, ghost h: Inherited, ghost d0: Demand)
    returns (live: set<Reg>, src: map<Reg, int>, allow: set<Reg>, pass3: bool, ghost d: Demand)
    requires h.Valid() && h.c == st.C() && InScan(h, d0, st.A(), st.mcp, live0, src0, allow0, marked, pass30, i)
    requires h.c.nk < i && rs == h.From(i - 1) && st.r[i - 1].Has? && Held(h, st.r, allow0)
    modifies st
    ensures InScan(h, d, st.A(), st.mcp, live, src, allow, marked, pass3, i - 1) && Held(h, st.r, allow)
  {
    hide Serves, Scanned, Held;
    ScanFacts(h, d0, st.A(), live0, src0, allow0, marked, pass30, i);
    live, src, pass3 := live0, src0, pass30;
    var j: nat := i - 1;
    var x := st.r[j].reg;
    allow := allow0 - {x};
    HeldMore(h, st.r, allow0, j, x);
    d := d0.(own := d0.own - {j});
    Save(st, j, x, h, d0);
    if rs == PReg(x) {
      ScanHome(h, d0, st.A(), live0, src0, allow0, marked, pass30, j, x, d.own);
      st.freeset := st.freeset + {x};
    } else {
      if rs.PSlot? {
        pass3 := true;
      } else {
        src := src[rs.reg := j];
        live := live + {rs.reg};
      }
      ScanMove(h, d0, st.A(), live0, src0, allow0, marked, pass30, j, x, d.own, live, src, pass3);
    }
  }

  /** One step of the first pass for a ref that has no register: mark it if it is spilled. */
  method ScanOther(st: ASMState, i: nat, rs: Home, live0: set<Reg>, src0: map<Reg, int>, ghost allow: set<Reg>,
                   marked0: set<nat>, ghost pass3: bool, ghost h: Inherited, ghost d: Demand)
    returns (live: set<Reg>, src: map<Reg, int>, marked: set<nat>)
    requires h.Valid() && h.c == st.C() && InScan(h, d, st.A(), st.mcp, live0, src0, allow, marked0, pass3, i)
    requires h.c.nk < i && rs == h.From(i - 1) && !st.r[i - 1].Has?
    ensures InScan(h, d, st.A(), st.mcp, live, src, allow, marked, pass3, i - 1)
  {
    hide Serves, Scanned;
    ScanFacts(h, d, st.A(), live0, src0, allow, marked0, pass3, i);
    live, src, marked := live0, src0, marked0;
    var j: nat := i - 1;
    if st.s[j] != 0 {
      marked := marked + {j};
      if rs.PReg? {
        src := src[rs.reg := j];
        live := live + {rs.reg};
      }
      ScanSpilled(h, d, st.A(), live0, src0, allow, marked0, pass3, j, live, src);
    } else {
      ScanUnused(h, d, st.A(), live, src, allow, marked, pass3, j);
    }
  }

  /** The first pass: save refs that are both in a register and spilled, and find out where
      each inherited ref comes from. */
  method ScanInherited(st: ASMState, stop: nat, home: seq<Home>, ghost h: Inherited, ghost d0: Demand)
    returns (live: set<Reg>, src: map<Reg, int>, allow: set<Reg>, marked: set<nat>, pass3: bool, ghost d: Demand)
    requires st.nk <= stop && |home| == stop - st.nk && h.home == home && h.stop == stop
    requires h.Valid() && h.c == st.C() && InScan(h, d0, st.A(), st.mcp, {}, map[], st.t.All(), {}, false, stop)
    modifies st
    ensures InScan(h, d, st.A(), st.mcp, live, src, allow, marked, pass3, st.nk) && Held(h, st.r, allow)
  {
    hide Scanned, Serves, SlotsLeft;
    live, src, allow, marked, pass3 := {}, map[], st.t.All(), {}, false;
    d := d0;
    var i: nat := stop;
    while i > st.nk
      invariant st.nk <= i <= stop && InScan(h, d, st.A(), st.mcp, live, src, allow, marked, pass3, i) && Held(h, st.r, allow)
    {
      ScanFacts(h, d, st.A(), live, src, allow, marked, pass3, i);
      var rs := home[i - 1 - st.nk];
      if st.r[i - 1].Has? {
        live, src, allow, pass3, d := ScanRegister(st, i, rs, live, src, allow, marked, pass3, h, d);
      } else {
        live, src, marked := ScanOther(st, i, rs, live, src, allow, marked, pass3, h, d);
      }
      i := i - 1;
    }
  }

  /** A marked ref whose slot is the one it has in the parent's frame needs nothing. */
  lemma SkipKeeps(h: Inherited, d: Demand, a: Alloc, live: set<Reg>, src: map<Reg, int>, allow: set<Reg>,
                  marked: set<nat>, pass3: bool, k: nat)
    requires Scanned(h, d, a, live, src, allow, marked, pass3, h.c.nk) && k in marked && h.From(k).PSlot?
    ensures Scanned(h, d, a, live, src, allow, marked - {k}, pass3, h.c.nk)
  {
    forall y | y in live ensures LiveOk(h, a, src, marked - {k}, h.c.nk, y) {
      assert LiveOk(h, a, src, marked, h.c.nk, y);
    }
  }

  /** Marked ref `k` takes free register `x`, and its slot is filled from there. */
  method GiveRegister(st: ASMState, k: nat, x: Reg, rs: Home, live0: set<Reg>, ghost src: map<Reg, int>, ghost allow0: set<Reg>,
                      ghost marked: set<nat>, ghost pass3: bool, ghost h: Inherited, ghost d0: Demand)
    returns (live: set<Reg>, ghost d: Demand)
    requires h.Valid() && h.c == st.C() && InScan(h, d0, st.A(), st.mcp, live0, src, allow0, marked, pass3, h.c.nk)
    requires k in marked && rs == h.From(k) && x in allow0 && x in st.t.ClassOf(st.ir[k])
    modifies st
    ensures InScan(h, d, st.A(), st.mcp, live, src, allow0 - {x}, marked - {k}, pass3 || rs.PSlot?, h.c.nk)
    ensures h.c.nk <= k < h.stop && k < |old(st.r)| && !old(st.r)[k].Has? && st.r == old(st.r)[k := Has(x)]
  {
    FreeInAllow(h, d0, st.A(), live0, src, allow0, marked, pass3, x);
    ghost var a0 := st.A();
    st.r := st.r[k := Has(x)];
    st.cost := st.cost[x := k];
    ghost var d1 := d0.(regs := d0.regs[x := k]);
    ServesMore(h, d0, st.mcp, x, k, d1);
    Save(st, k, x, h, d1);
    d := d1.(own := d1.own - {k});
    live := live0;
    if rs == PReg(x) {
      live := live - {x};
    } else {
      st.freeset := st.freeset - {x};
    }
    Reloaded(h, d0, a0, live0, src, allow0, marked, pass3, k, x, d, st.A(), live);
  }

  /** One step of the second pass: marked ref `k` gets a free register, from which its slot
      is filled, unless its slot is the parent's. */
  method ReloadOne(st: ASMState, k: nat, rs: Home, live0: set<Reg>, ghost src: map<Reg, int>, allow0: set<Reg>,
                   ghost marked: set<nat>, pass30: bool, ghost h: Inherited, ghost d0: Demand)
    returns (res: Result<(), NyiCoalesce>, live: set<Reg>, allow: set<Reg>, pass3: bool, ghost d: Demand)
    requires h.Valid() && h.c == st.C() && InScan(h, d0, st.A(), st.mcp, live0, src, allow0, marked, pass30, h.c.nk)
    requires k in marked && rs == h.From(k) && Held(h, st.r, allow0)
    modifies st
    ensures res.Ok? ==> InScan(h, d, st.A(), st.mcp, live, src, allow, marked - {k}, pass3, h.c.nk) && Held(h, st.r, allow)
    ensures res.Err? <==> rs != PSlot(old(st.s)[k]) && st.t.ClassOf(st.ir[k]) * allow0 == {}
    ensures res.Err? ==> Crowded(h, st.r, st.t.ClassOf(st.ir[k]))
  {
    hide Held, Crowded;
    res, live, allow, pass3, d := Ok(()), live0, allow0, pass30, d0;
    if rs == PSlot(st.s[k]) {
      SkipKeeps(h, d, st.A(), live, src, allow, marked, pass3, k);
      return;
    }
    var mask := st.t.ClassOf(st.ir[k]) * allow;
    if mask == {} {
      NoneAllowed(h, st.r, allow, st.t.ClassOf(st.ir[k]));
      res := Err(NyiCoalesce);
      return;
    }
    var x := FreePick(st.t, if rs.PReg? then Hint(rs.reg) else st.r[k], mask);
    ghost var r0 := st.r;
    live, d := GiveRegister(st, k, x, rs, live, src, allow, marked, pass3, h, d);
    HeldTaken(h, r0, st.r, allow, k, x);
    allow := allow - {x};
    pass3 := pass3 || rs.PSlot?;
  }

  /** A register still allowed is free and wanted by nobody. */
  lemma FreeInAllow(h: Inherited, d: Demand, a: Alloc, live: set<Reg>, src: map<Reg, int>, allow: set<Reg>,
                    marked: set<nat>, pass3: bool, x: Reg)
    requires Scanned(h, d, a, live, src, allow, marked, pass3, h.c.nk) && x in allow
    ensures x in a.free && x !in d.regs
  {
  }

  lemma ScanMarked(h: Inherited, d: Demand, a: Alloc, code: seq<MIns>, live: set<Reg>, src: map<Reg, int>, allow: set<Reg>, marked: set<nat>, pass3: bool)
    requires InScan(h, d, a, code, live, src, allow, marked, pass3, h.c.nk)
    ensures h.s == a.s && forall k :: k in marked ==> h.c.nk <= k < h.stop
  {
  }

  /** The second pass: reload spilled refs that are in no register. */
  method ReloadSpilled(st: ASMState, stop: nat, home: seq<Home>, live0: set<Reg>, ghost src: map<Reg, int>, allow0: set<Reg>,
                       marked0: set<nat>, pass30: bool, ghost h: Inherited, ghost d0: Demand)
    returns (res: Result<(), NyiCoalesce>, live: set<Reg>, allow: set<Reg>, pass3: bool, ghost d: Demand)
    requires st.nk <= stop && |home| == stop - st.nk && h.home == home && h.stop == stop
    requires h.Valid() && h.c == st.C() && InScan(h, d0, st.A(), st.mcp, live0, src, allow0, marked0, pass30, h.c.nk) && Held(h, st.r, allow0)
    modifies st
    ensures res.Ok? ==> InScan(h, d, st.A(), st.mcp, live, src, allow, {}, pass3, h.c.nk) && Held(h, st.r, allow)
    ensures res.Err? ==> Crowded(h, st.r, st.t.gpr) || Crowded(h, st.r, st.t.fpr)
  {
    hide Serves, SlotsLeft, Held, Crowded, InScan, Inherited.Valid;
    res, live, allow, pass3, d := Ok(()), live0, allow0, pass30, d0;
    var marked: set<nat> := marked0;
    var i: nat := stop;
    ScanMarked(h, d, st.A(), st.mcp, live, src, allow, marked, pass3);
    while i > st.nk
      invariant st.nk <= i <= stop && InScan(h, d, st.A(), st.mcp, live, src, allow, marked, pass3, h.c.nk) && Held(h, st.r, allow)
      invariant res.Ok? && forall k :: k in marked ==> k < i
    {
      var k: nat := i - 1;
      if k in marked {
        res, live, allow, pass3, d := ReloadOne(st, k, home[k - st.nk], live, src, allow, marked, pass3, h, d);
        if res.Err? {
          return;
        }
        marked := marked - {k};
      }
      i := k;
    }
    ScanMarked(h, d, st.A(), st.mcp, live, src, allow, marked, pass3);
    assert marked == {};
  }

  /** One step of the third pass: taken register `x` is loaded from its ref's parent slot. */
  method LoadOne(st: ASMState, x: Reg, slot: int, ghost live: set<Reg>, ghost src: map<Reg, int>, ghost allow: set<Reg>,
                 ghost h: Inherited, ghost d0: Demand)
    returns (ghost d: Demand)
    requires x in st.t.All() - st.freeset && x in st.cost && h.From(st.cost[x]) == PSlot(slot)
    requires h.Valid() && h.c == st.C() && h.s == st.s && Serves(h, d0, st.mcp)
    requires Scanned(h, d0, st.A(), live, src, allow, {}, true, h.c.nk)
    modifies st`mcp, st`freeset
    ensures Serves(h, d, st.mcp) && d.own == d0.own && Scanned(h, d, st.A(), live, src, allow, {}, true, h.c.nk)
    ensures st.freeset == old(st.freeset) + {x}
  {
    assert x in d0.regs && d0.regs[x] == st.cost[x];
    var ref: nat := st.cost[x];
    ServesLoad(h, d0, st.mcp, ref, x);
    d := d0.(regs := d0.regs - {x}, par := d0.par + {ref});
    LoadKeeps(h, d0, st.A(), live, src, allow, true, x, d.par);
    st.mcp := [SpLoad(x, slot, st.ir[ref].is64)] + st.mcp;
    st.freeset := st.freeset + {x};
  }

  /** The third pass: load registers that come from a parent slot. */
  method RestoreFromParent(st: ASMState, home: seq<Home>, ghost live: set<Reg>, ghost src: map<Reg, int>, ghost allow: set<Reg>,
                           ghost h: Inherited, ghost d0: Demand)
    returns (ghost d: Demand)
    requires |home| == h.stop - st.nk && h.home == home
    requires h.Valid() && h.c == st.C() && h.s == st.s && Serves(h, d0, st.mcp)
    requires Scanned(h, d0, st.A(), live, src, allow, {}, true, h.c.nk)
    modifies st`mcp, st`freeset
    ensures InShuffle(h, d, st.A(), st.mcp, live, src, allow, d0.own)
  {
    hide Serves, Scanned;
    d := d0;
    ScanFacts(h, d, st.A(), live, src, allow, {}, true, h.c.nk);
    var work := st.t.All() - st.freeset;
    while work != {}
      invariant Serves(h, d, st.mcp) && Scanned(h, d, st.A(), live, src, allow, {}, true, h.c.nk)
      invariant d.own == d0.own && forall y :: y in work ==> y in st.t.All() && y !in st.freeset
      invariant forall x :: x in st.t.All() && x !in st.freeset && x !in work ==> x in st.cost && h.From(st.cost[x]).PReg?
      decreases work
    {
      var x := PickBot(work);
      work := work - {x};
      ScanFacts(h, d, st.A(), live, src, allow, {}, true, h.c.nk);
      var rs := home[st.cost[x] - st.nk];
      if rs.PSlot? {
        d := LoadOne(st, x, rs.slot, live, src, allow, h, d);
      }
    }
    ReadyToShuffle(h, d, st.A(), live, src, allow, true);
  }

  /** The three passes before the shuffle. */
  method Passes(st: ASMState, stop: nat, home: seq<Home>, ghost h: Inherited)
    returns (res: Result<(), NyiCoalesce>, live: set<Reg>, src: map<Reg, int>, allow: set<Reg>, ghost d: Demand)
    requires h.Valid() && h.c == st.C() && h.s == st.s && h.stop == stop && h.home == home
    requires st.Good(stop, map[], stop)
    requires forall x :: x in st.t.All() && x !in st.freeset ==> st.nk <= st.cost[x] < stop
    modifies st
    ensures res.Ok? ==> InShuffle(h, d, st.A(), st.mcp, live, src, allow, d.own) && SlotsLeft(h, d.own, {}, h.c.nk) && Held(h, st.r, allow)
    ensures res.Err? ==> Crowded(h, st.r, st.t.gpr) || Crowded(h, st.r, st.t.fpr)
  {
    hide Held, Crowded, SlotsLeft, Scanned, Serves, InScan, InShuffle;
    d := StartScan(h, st.A(), st.mcp);
    var marked, pass3;
    live, src, allow, marked, pass3, d := ScanInherited(st, stop, home, h, d);
    res, live, allow, pass3, d := ReloadSpilled(st, stop, home, live, src, allow, marked, pass3, h, d);
    if res.Ok? {
      d := LastPass(st, home, live, src, allow, pass3, h, d);
    }
  }

  /** What the trace body demands. */
  lemma StartScan(h: Inherited, a: Alloc, code: seq<MIns>) returns (d: Demand)
    requires h.Valid() && h.s == a.s && Inv(h.c, a, h.stop) && Correct(h.c, a, code, h.stop, map[], h.stop)
    requires forall x :: x in h.c.t.All() && x !in a.free ==> h.c.nk <= a.cost[x] < h.stop
    ensures InScan(h, d, a, code, {}, map[], h.c.t.All(), {}, false, h.stop) && Held(h, a.r, h.c.t.All())
  {
    var regs: map<Reg, int> := map x | x in h.c.t.All() - a.free :: a.cost[x];
    d := Demand(regs, set j: nat | h.c.nk <= j < h.stop && h.s[j] != 0, {});
    DemandsOfBody(h, a, code, d);
  }

  /** The third pass, if there is anything to do for it. */
  method LastPass(st: ASMState, home: seq<Home>, ghost live: set<Reg>, ghost src: map<Reg, int>, ghost allow: set<Reg>, pass3: bool,
                  ghost h: Inherited, ghost d0: Demand)
    returns (ghost d: Demand)
    requires |home| == h.stop - st.nk && h.home == home && h.Valid() && h.c == st.C()
    requires InScan(h, d0, st.A(), st.mcp, live, src, allow, {}, pass3, h.c.nk)
    modifies st`mcp, st`freeset
    ensures InShuffle(h, d, st.A(), st.mcp, live, src, allow, d.own) && SlotsLeft(h, d.own, {}, h.c.nk)
  {
    hide SlotsLeft, Scanned, Serves, Shuffling;
    d := d0;
    if pass3 {
      d := RestoreFromParent(st, home, live, src, allow, h, d0);
    } else {
      NoneFromSlots(h, d0, st.A(), live, src, allow);
    }
  }

  lemma NoneFromSlots(h: Inherited, d: Demand, a: Alloc, live: set<Reg>, src: map<Reg, int>, allow: set<Reg>)
    requires Scanned(h, d, a, live, src, allow, {}, false, h.c.nk)
    ensures Shuffling(h, d, a, live, src, allow)
  {
    hide Shuffling;
    ReadyToShuffle(h, d, a, live, src, allow, false);
  }

  /** asm_head_side. When it succeeds, the code runs correctly from whatever state the parent
      hands over, whichever registers and slots the refs are in on either side. */
  method AsmHeadSide(st: ASMState, stop: nat, home: seq<Home>, ghost h: Inherited) returns (res: Result<(), NyiCoalesce>)
    requires h.Valid() && h.c == st.C() && h.s == st.s && h.stop == stop && h.home == home
    requires st.Good(stop, map[], stop)
    requires forall x :: x in st.t.All() && x !in st.freeset ==> st.nk <= st.cost[x] < stop
    modifies st
    ensures res.Ok? ==> st.freeset == st.t.All()
    ensures res.Ok? ==> forall m :: h.AtEntry(m) ==> Run(st.sem, st.mcp, m).out == m.out + Events(st.ir, st.vals, stop)
    ensures res.Ok? && h.Typed() ==> Legal(st.C(), st.mcp, stop)
    ensures res.Err? ==> Crowded(h, st.r, st.t.gpr) || Crowded(h, st.r, st.t.fpr)
  {
    hide Held, Crowded;
    var live, src, allow;
    ghost var d;
    res, live, src, allow, d := Passes(st, stop, home, h);
    if res.Ok? {
      ghost var d0, a0, code0 := d, st.A(), st.mcp;
      res, d := Shuffle(st, live, src, allow, h, d);
      if res.Err? { NoneLeft(h, d0, a0, code0, live, src, allow, st.r); }
    }
    if res.Ok? {
      forall m | h.AtEntry(m) ensures Run(st.sem, st.mcp, m).out == m.out + Events(st.ir, st.vals, stop) {
        EntrySuffices(h, d, st.A(), m);
      }
    }
  }

  datatype SideError = SpillOv | NyiCoal

  /** Set the register hints of inherited refs to their parent registers, as asm_setup_regsp
      does. */
  method HintInherited(st: ASMState, home: seq<Home>)
    requires st.Good(|st.ir|, map[], |st.ir|) && st.nk + |home| <= |st.ir| && st.freeset == st.t.All()
    modifies st`r
    ensures st.Good(|st.ir|, map[], |st.ir|)
  {
    for k := 0 to |home|
      invariant st.Good(|st.ir|, map[], |st.ir|)
    {
      if home[k].PReg? {
        ghost var a0 := st.A();
        st.r := st.r[st.nk + k := Hint(home[k].reg)];
        Strengthen(st.C(), a0, st.mcp, |st.ir|, map[], |st.ir|, st.A(), |st.ir|, map[]);
      }
    }
  }

  /** lj_asm_trace for a side trace. `home` says where the parent keeps the refs `nk` to
      `nk + |home|`. From any machine state in which they are there, the code computes exactly
      the events of the trace; every register is free at the end. If the parent's registers
      are of the right classes, so are all that the code uses. */
  method AssembleSide(st: ASMState, home: seq<Home>, dce: bool) returns (res: Result<(), SideError>)
    requires st.Good(|st.ir|, map[], |st.ir|) && Supported(st.t, st.ir) && st.freeset == st.t.All() && (dce ==> !st.every)
    requires st.nk + |home| <= |st.ir| && Inherited(st.C(), st.s, st.nk + |home|, home).Shaped()
    modifies st
    ensures res.Ok? ==> st.freeset == st.t.All()
    ensures res.Ok? ==> forall m :: Inherited(st.C(), st.s, st.nk + |home|, home).AtEntry(m) ==>
      Run(st.sem, st.mcp, m).out == m.out + Events(st.ir, st.vals, st.nk + |home|)
    ensures res.Ok? && Inherited(st.C(), st.s, st.nk + |home|, home).Typed() ==> Legal(st.C(), st.mcp, st.nk + |home|)
    ensures res == Err(SpillOv) ==> Overflow(st.C(), st.s)
    ensures res == Err(NyiCoal) ==> Crowded(Inherited(st.C(), [], st.nk + |home|, home), st.r, st.t.gpr) || Crowded(Inherited(st.C(), [], st.nk + |home|, home), st.r, st.t.fpr)
    ensures 2 * |home| < |st.t.gpr| && 2 * |home| < |st.t.fpr| ==> res != Err(NyiCoal)
  {
    hide Overflow, Crowded;
    var stop := st.nk + |home|;
    ghost var h0 := Inherited(st.C(), st.s, stop, home);
    HintInherited(st, home);
    var body := st.AssembleFrom(stop, dce);
    if body.Err? {
      return Err(SpillOv);
    }
    ghost var h := Inherited(st.C(), st.s, stop, home);
    SameHomes(h0, h);
    var head := AsmHeadSide(st, stop, home, h);
    if head.Err? {
      if Crowded(h, st.r, st.t.gpr) { FewNotCrowded(h, st.r, st.t.gpr); } else { FewNotCrowded(h, st.r, st.t.fpr); }
      CrowdedSame(h, st.r, st.t.gpr);
      CrowdedSame(h, st.r, st.t.fpr);
      return Err(NyiCoal);
    }
    SameTyped(Inherited(st.C(), st.s, stop, home), h);
    forall m | Inherited(st.C(), st.s, stop, home).AtEntry(m) ensures h.AtEntry(m) {
      SameEntry(Inherited(st.C(), st.s, stop, home), h, m);
    }
    return Ok(());
  }

  /** Where the parent keeps things does not depend on the spill slots of the trace. */
  lemma SameHomes(h0: Inherited, h1: Inherited)
    requires h0.Shaped() && h1 == h0.(s := h1.s)
    ensures h1.Shaped()
  {
    assert forall j: int :: h1.From(j) == h0.From(j);
  }

  lemma SameTyped(h0: Inherited, h1: Inherited)
    requires h1 == h0.(s := h1.s)
    ensures h0.Typed() ==> h1.Typed()
  {
    assert forall j: int :: h1.From(j) == h0.From(j);
  }

  lemma SameEntry(h0: Inherited, h1: Inherited, m: Machine)
    requires h0.AtEntry(m) && h1 == h0.(s := h1.s)
    ensures h1.AtEntry(m)
  {
    forall j | h1.c.nk <= j < h1.stop
      ensures match h1.From(j)
        case PReg(x) => m.Get(x) == h1.c.vals[j]
        case PSlot(slot) => m.SlotHolds(slot, h1.c.ir[j].is64, h1.c.vals[j])
    {
      assert h1.From(j) == h0.From(j);
    }
  }
}
