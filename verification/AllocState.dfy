/** What the backward register allocator knows, and what that knowledge means for the
    machine that will run the code emitted so far. */
module AllocState {
  import opened TraceIr

  /** Register classes and calling convention of a target. Spill slots start at `spsFirst`. */
  datatype Target = Target(gpr: set<Reg>, fpr: set<Reg>, scratch: set<Reg>, ridMax: Reg,
                           gprArgs: seq<Reg>, fprArgs: seq<Reg>, ret: Reg, fpret: Reg, spsFirst: nat)
  {
    function All(): set<Reg> { gpr + fpr }

    function ClassOf(ins: Ins): set<Reg> { if ins.fp then fpr else gpr }

    function RetOf(ins: Ins): Reg { if ins.fp then fpret else ret }

    /** Every class has room for two operands; argument and result registers are
        distinct scratch registers of their class. */
    ghost predicate Valid() {
      gpr !! fpr
      && scratch <= All()
      && (forall r :: r in All() ==> 0 <= r < ridMax)
      && (exists a, b :: a in gpr && b in gpr && a != b)
      && (exists a, b :: a in fpr && b in fpr && a != b)
      && (forall k :: 0 <= k < |gprArgs| ==> gprArgs[k] in gpr * scratch)
      && (forall k :: 0 <= k < |fprArgs| ==> fprArgs[k] in fpr * scratch)
      && (forall k, l :: 0 <= k < l < |gprArgs| ==> gprArgs[k] != gprArgs[l])
      && (forall k, l :: 0 <= k < l < |fprArgs| ==> fprArgs[k] != fprArgs[l])
      && ret in gpr * scratch && fpret in fpr * scratch
      && 1 <= spsFirst
    }
  }

  /** The `r` field of an instruction: a register, a hint for one, or neither. */
  datatype RegField = Has(reg: Reg) | Hint(reg: Reg) | Init

  /** The fixed input of one assembly: target, program, and the meaning given to both.
      `vals` are the SSA values of the program. If `every` is set, no instruction may be left
      out, even if nothing needs it. */
  datatype Ctx = Ctx(sem: Semantics, t: Target, ir: seq<Ins>, nk: nat, vals: seq<int>, every: bool) {
    ghost predicate Valid() {
      t.Valid() && WellFormed(ir, nk) && |vals| == |ir|
      && forall i {:trigger SolvedAt(i)} :: 0 <= i < |ir| ==> SolvedAt(i)
    }

    /** The SSA equation of ref `i`. */
    ghost predicate SolvedAt(i: Ref)
      requires 0 <= i < |ir| == |vals|
    {
      vals[i] == Eval(sem, ir[i], vals)
    }

    function Width(j: Ref): nat
      requires 0 <= j < |ir|
    {
      if ir[j].is64 then 2 else 1
    }
  }

  /** A snapshot of the fields of ASMState. */
  datatype Alloc = Alloc(free: set<Reg>, cost: map<Reg, Ref>, r: seq<RegField>, s: seq<int>,
                         even: int, odd: int)

  // ------------------------------------------------------------ bookkeeping

  /** Registers and refs name each other: with the definitions of refs below `n` still
      to come, exactly the non-free registers hold one of them, each of its own class. */
  ghost predicate RegsOk(c: Ctx, a: Alloc, n: nat) {
    |a.r| == |c.ir| == |c.vals| && n <= |c.ir|
    && a.free <= c.t.All() <= a.cost.Keys
    && (forall x :: x in c.t.All() && x !in a.free ==> 0 <= a.cost[x] < n && a.r[a.cost[x]] == Has(x))
    && (forall j :: 0 <= j < n && a.r[j].Has? ==>
          a.r[j].reg in c.t.ClassOf(c.ir[j]) && !c.ir[j].kind.Effect? && a.r[j].reg !in a.free && a.cost[a.r[j].reg] == j)
  }

  /** Spill slots of different refs do not overlap, 64-bit slots are even, the spare odd
      cell is unused, and constants are never spilled. */
  ghost predicate SlotsOk(c: Ctx, s: seq<int>, even: int, odd: int) {
    |s| == |c.ir|
    && even % 2 == 0 && c.t.spsFirst <= even
    && (odd == 0 || (c.t.spsFirst <= odd < even && odd % 2 == 1))
    && (forall j :: 0 <= j < |s| && s[j] != 0 ==> SlotInside(c, s[j], j, even, odd))
    && (forall j, k :: 0 <= j < k < |s| && s[j] != 0 && s[k] != 0 ==> Apart(c, s, j, k))
    && Packed(c, s, even, odd)
  }

  /** How many cells the values with slots take. */
  function Used(ir: seq<Ins>, s: seq<int>): nat
    requires |s| <= |ir|
  {
    if s == [] then 0 else Used(ir, s[..|s| - 1]) + if s[|s| - 1] == 0 then 0 else if ir[|s| - 1].is64 then 2 else 1
  }

  /** No cell is wasted: all but the spare one are in use. */
  ghost predicate Packed(c: Ctx, s: seq<int>, even: int, odd: int)
    requires |s| == |c.ir|
  {
    c.t.spsFirst + Used(c.ir, s) + (if odd != 0 then 1 else 0) == even
  }

  /** A value that gets a slot takes its cells. */
  lemma {:induction false} UsedMore(ir: seq<Ins>, s: seq<int>, ref: Ref, slot: int)
    requires |s| <= |ir| && 0 <= ref < |s| && s[ref] == 0 && slot != 0
    ensures Used(ir, s[ref := slot]) == Used(ir, s) + if ir[ref].is64 then 2 else 1
    decreases |s|
  {
    var t := s[ref := slot];
    if ref < |s| - 1 {
      UsedMore(ir, s[..|s| - 1], ref, slot);
      assert t[..|s| - 1] == s[..|s| - 1][ref := slot];
    } else {
      assert t[..|s| - 1] == s[..|s| - 1];
    }
  }

  lemma {:induction false} UsedNone(ir: seq<Ins>, n: nat)
    requires n <= |ir|
    ensures Used(ir, seq(n, _ => 0)) == 0
  {
    if n > 0 {
      UsedNone(ir, n - 1);
      assert seq(n, _ => 0)[..n - 1] == seq(n - 1, _ => 0);
    }
  }

  /** The values with slots, and one more that is to be spilled, need more than 256 cells. */
  ghost predicate Overflow(c: Ctx, s: seq<int>) {
    |s| == |c.ir| && exists ref: Ref :: 0 <= ref < |s| && TooMuch(c, s, ref)
  }

  ghost predicate TooMuch(c: Ctx, s: seq<int>, ref: Ref)
    requires 0 <= ref < |s| == |c.ir|
  {
    s[ref] == 0 && c.t.spsFirst + Used(c.ir, s) + c.Width(ref) > 256
  }

  /** When the cells after a spill are more than 256, so are those that are needed. */
  lemma OverflowIs(c: Ctx, s: seq<int>, ref: Ref, slot: int, even: int, odd: int)
    requires 0 <= ref < |s| == |c.ir| && s[ref] == 0 && slot != 0 && SlotsOk(c, s[ref := slot], even, odd) && even > 256
    ensures Overflow(c, s)
  {
    UsedMore(c.ir, s, ref, slot);
    assert TooMuch(c, s, ref);
  }

  /** Where a new slot goes. */
  lemma NewSlotOk(c: Ctx, s: seq<int>, even: int, odd: int, ref: Ref)
    requires c.Valid() && c.nk <= ref < |c.ir| && !c.ir[ref].kind.Effect? && SlotsOk(c, s, even, odd) && s[ref] == 0
    ensures even > 0
    ensures c.ir[ref].is64 ==> SlotsOk(c, s[ref := even], even + 2, odd)
    ensures !c.ir[ref].is64 && odd != 0 ==> SlotsOk(c, s[ref := odd], even, 0)
    ensures !c.ir[ref].is64 && odd == 0 ==> SlotsOk(c, s[ref := even], even + 2, even + 1)
  {
    if c.ir[ref].is64 {
      SlotAdded(c, s, even, odd, ref, even, even + 2, odd);
    } else if odd != 0 {
      SlotAdded(c, s, even, odd, ref, odd, even, 0);
    } else {
      SlotAdded(c, s, even, odd, ref, even, even + 2, even + 1);
    }
  }

  /** A slot that no one has. */
  lemma SlotAdded(c: Ctx, s: seq<int>, even: int, odd: int, ref: Ref, slot: int, even1: int, odd1: int)
    requires c.nk <= ref < |c.ir| && !c.ir[ref].kind.Effect? && SlotsOk(c, s, even, odd) && s[ref] == 0 && slot > 0
    requires even1 % 2 == 0 && even <= even1 && (odd1 == odd || odd1 == 0 || odd1 == even + 1) && odd1 < even1 && odd1 % 2 == (if odd1 == 0 then 0 else 1)
    requires SlotInside(c, slot, ref, even1, odd1) && (slot >= even || slot == odd)
    requires even1 - even == c.Width(ref) + (if odd1 != 0 then 1 else 0) - (if odd != 0 then 1 else 0)
    ensures SlotsOk(c, s[ref := slot], even1, odd1)
  {
    UsedMore(c.ir, s, ref, slot);
    var t := s[ref := slot];
    forall j | 0 <= j < |t| && t[j] != 0 ensures SlotInside(c, t[j], j, even1, odd1) { assert j != ref ==> SlotInside(c, s[j], j, even, odd); }
    forall j, k | 0 <= j < k < |t| && t[j] != 0 && t[k] != 0
      ensures Apart(c, t, j, k)
    {
      assert j != ref ==> SlotInside(c, s[j], j, even, odd);
      assert k != ref ==> SlotInside(c, s[k], k, even, odd);
      assert j != ref && k != ref ==> Apart(c, s, j, k);
    }
  }

  ghost predicate SlotInside(c: Ctx, slot: int, j: Ref, even: int, odd: int)
    requires 0 <= j < |c.ir|
  {
    c.nk <= j && !c.ir[j].kind.Effect? && c.t.spsFirst <= slot && slot + c.Width(j) <= even
    && (c.ir[j].is64 ==> slot % 2 == 0)
    && (odd != 0 ==> odd < slot || slot + c.Width(j) <= odd)
  }

  ghost predicate Apart(c: Ctx, s: seq<int>, j: Ref, k: Ref)
    requires |s| == |c.ir| && 0 <= j < |s| && 0 <= k < |s|
  {
    s[j] + c.Width(j) <= s[k] || s[k] + c.Width(k) <= s[j]
  }

  ghost predicate Inv(c: Ctx, a: Alloc, n: nat) { RegsOk(c, a, n) && SlotsOk(c, a.s, a.even, a.odd) }

  ghost predicate Shape(c: Ctx, a: Alloc, n: nat) {
    n <= |c.ir| == |a.s| == |c.vals| && c.t.All() <= a.cost.Keys
    && forall x :: x in c.t.All() && x !in a.free ==> 0 <= a.cost[x] < |c.ir|
  }

  // ----------------------------------------------------- what it means at run time

  /** Registers that must hold a particular ref whatever the bookkeeping says. */
  type Pending = map<Reg, int>

  /** The machine state the code emitted so far may rely on: every non-free register
      holds its ref, except that a register in `pend` holds the ref named there, and
      every spilled ref defined by now (below `n`) is in its slot. */
  ghost predicate Holds(c: Ctx, a: Alloc, n: nat, pend: Pending, m: Machine) {
    Shape(c, a, n)
    && (forall x :: x in pend && 0 <= pend[x] < |c.ir| ==> m.Get(x) == c.vals[pend[x]])
    && (forall x :: x in c.t.All() && x !in a.free && x !in pend ==> m.Get(x) == c.vals[a.cost[x]])
    && (forall j :: 0 <= j < n && a.s[j] != 0 ==> m.SlotHolds(a.s[j], c.ir[j].is64, c.vals[j]))
  }

  // ------------------------------------------------------ what the target can execute

  predicate SameClass(t: Target, x: Reg, y: Reg) { (x in t.gpr && y in t.gpr) || (x in t.fpr && y in t.fpr) }

  /** `x` can hold ref `j`. */
  predicate MayHold(c: Ctx, x: Reg, j: Ref) { 0 <= j < |c.ir| && x in c.t.ClassOf(c.ir[j]) }

  /** How many of the first `k` arguments of a call are of the class `fp`. */
  function CountClass(ir: seq<Ins>, args: seq<Ref>, fp: bool, k: nat): nat
    requires k <= |args|
  {
    if k == 0 then 0
    else CountClass(ir, args, fp, k - 1) + if 0 <= args[k - 1] < |ir| && ir[args[k - 1]].fp == fp then 1 else 0
  }

  /** The calling convention: argument `k` is in the argument register of its class that is as
      many from the first as there are arguments of the class before it. */
  predicate ArgAt(t: Target, ir: seq<Ins>, args: seq<Ref>, k: nat, x: Reg)
    requires k < |args|
  {
    && 0 <= args[k] < |ir|
    && var regs, n := if ir[args[k]].fp then t.fprArgs else t.gprArgs, CountClass(ir, args, ir[args[k]].fp, k);
    n < |regs| && x == regs[n]
  }

  /** A load, store or move stays within the class of a value of the trace, and has its width. */
  ghost predicate Transfers(c: Ctx, ins: MIns) {
    match ins
    case LoadI(d, k) => exists j: Ref :: MayHold(c, d, j) && j < c.nk && c.ir[j].kind == Constant(k)
    case SpLoad(d, _, is64) => exists j: Ref :: MayHold(c, d, j) && c.ir[j].is64 == is64
    case SpStore(x, _, is64) => exists j: Ref :: MayHold(c, x, j) && c.ir[j].is64 == is64
    case MovRR(d, x) => SameClass(c.t, d, x)
    case _ => false
  }

  ghost predicate SourcesFit(c: Ctx, args: seq<Ref>, srcs: seq<Reg>) {
    |srcs| == |args| && forall k :: 0 <= k < |args| ==> MayHold(c, srcs[k], args[k])
  }

  /** The instruction does what instruction `i` of the trace says, on registers of the right classes;
      a call follows the calling convention. */
  ghost predicate StandsFor(c: Ctx, ins: MIns, i: Ref)
    requires 0 <= i < |c.ir|
  {
    match ins
    case AluRR(op, d, srcs) => c.ir[i].kind == Alu(op) && MayHold(c, d, i) && SourcesFit(c, c.ir[i].args, srcs)
    case EffectR(op, srcs) => c.ir[i].kind == Effect(op) && SourcesFit(c, c.ir[i].args, srcs)
    case CallR(op, ret, srcs, clobber) =>
      && c.ir[i].kind == Call(op) && ret == c.t.RetOf(c.ir[i]) && clobber == c.t.scratch && |srcs| == |c.ir[i].args|
      && forall k :: 0 <= k < |srcs| ==> ArgAt(c.t, c.ir, c.ir[i].args, k, srcs[k])
    case _ => false
  }

  predicate Quiet(ins: MIns) { !ins.AluRR? && !ins.EffectR? && !ins.CallR? }

  /** The code can be executed: besides loads, stores and moves it has instructions that stand for
      those of the trace from `lo` on, in order and no one twice, and for all of them if none may
      be left out. */
  ghost predicate Legal(c: Ctx, code: seq<MIns>, lo: nat)
    decreases |code|
  {
    if code == [] then c.every ==> lo == |c.ir|
    else if Quiet(code[0]) then Transfers(c, code[0]) && Legal(c, code[1..], lo)
    else exists i: nat :: lo <= i < |c.ir| && (c.every ==> i == lo) && StandsFor(c, code[0], i) && Legal(c, code[1..], i + 1)
  }

  lemma {:induction false} LegalLower(c: Ctx, code: seq<MIns>, lo: nat, lo1: nat)
    requires Legal(c, code, lo) && lo1 <= lo && !c.every
    ensures Legal(c, code, lo1)
    decreases |code|
  {
    if code != [] && Quiet(code[0]) { LegalLower(c, code[1..], lo, lo1); }
  }

  /** What may be put in front of code for the instructions from `lo0` on. */
  ghost predicate Emittable(c: Ctx, ins: MIns, lo0: nat, lo1: nat) {
    if Quiet(ins) then lo1 == lo0 && Transfers(c, ins) else lo0 == lo1 + 1 && lo1 < |c.ir| && StandsFor(c, ins, lo1)
  }

  lemma LegalFront(c: Ctx, ins: MIns, code: seq<MIns>, lo0: nat, lo1: nat)
    requires Legal(c, code, lo0) && Emittable(c, ins, lo0, lo1)
    ensures Legal(c, [ins] + code, lo1)
  {
    assert ([ins] + code)[1..] == code;
  }

  /** The emitted code is right: it can be executed, and from every machine state it may be
      entered in, it produces exactly the events of the instructions from `lo` on. */
  ghost predicate Correct(c: Ctx, a: Alloc, code: seq<MIns>, n: nat, pend: Pending, lo: nat) {
    lo <= |c.ir| && Legal(c, code, lo)
    && forall m :: Holds(c, a, n, pend, m) ==> Run(c.sem, code, m).out == m.out + Events(c.ir, c.vals, lo)
  }

  /** The proof rule for emission: instruction `i` put in front of correct code is
      correct when it takes the new entry condition to the old one, adding the events
      that separate them. */
  lemma EmitCorrect(c: Ctx, a0: Alloc, code: seq<MIns>, n0: nat, p0: Pending, lo0: nat,
                    i: MIns, a1: Alloc, n1: nat, p1: Pending, lo1: nat)
    requires Correct(c, a0, code, n0, p0, lo0) && Emittable(c, i, lo0, lo1)
    requires forall m :: Holds(c, a1, n1, p1, m) ==>
      Holds(c, a0, n0, p0, Step(c.sem, i, m))
      && Step(c.sem, i, m).out + Events(c.ir, c.vals, lo0) == m.out + Events(c.ir, c.vals, lo1)
    ensures Correct(c, a1, [i] + code, n1, p1, lo1)
  {
    LegalFront(c, i, code, lo0, lo1);
    hide Legal, Emittable;
    forall m | Holds(c, a1, n1, p1, m)
      ensures Run(c.sem, [i] + code, m).out == m.out + Events(c.ir, c.vals, lo1)
    {
      RunFront(c.sem, i, code, m);
    }
  }

  /** The same for an instruction without side effects. */
  lemma EmitQuiet(c: Ctx, a0: Alloc, code: seq<MIns>, n0: nat, p0: Pending, lo: nat,
                  i: MIns, a1: Alloc, n1: nat, p1: Pending)
    requires Correct(c, a0, code, n0, p0, lo) && Quiet(i) && Transfers(c, i)
    requires forall m :: Holds(c, a1, n1, p1, m) ==> Holds(c, a0, n0, p0, Step(c.sem, i, m))
    ensures Correct(c, a1, [i] + code, n1, p1, lo)
  {
    EmitCorrect(c, a0, code, n0, p0, lo, i, a1, n1, p1, lo);
  }

  /** Code that produces the events after `i` also produces those from `i` on, when `i`
      has none. */
  lemma NoEvent(c: Ctx, a: Alloc, code: seq<MIns>, n: nat, p: Pending, i: Ref)
    requires 0 <= i < |c.ir| && !c.ir[i].SideEffect() && !c.every && Correct(c, a, code, n, p, i + 1)
    ensures Correct(c, a, code, n, p, i)
  {
    assert Events(c.ir, c.vals, i) == Events(c.ir, c.vals, i + 1);
    LegalLower(c, code, i + 1, i);
  }

  /** A stronger entry condition keeps code correct. */
  lemma Strengthen(c: Ctx, a0: Alloc, code: seq<MIns>, n0: nat, p0: Pending, lo: nat,
                   a1: Alloc, n1: nat, p1: Pending)
    requires Correct(c, a0, code, n0, p0, lo)
    requires forall m :: Holds(c, a1, n1, p1, m) ==> Holds(c, a0, n0, p0, m)
    ensures Correct(c, a1, code, n1, p1, lo)
  {
  }
}
