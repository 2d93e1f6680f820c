/** The backward register allocator of the trace assembler (lj_asm.c). Code is emitted
    from the last instruction to the first, at the front of `mcp`, so an eviction emits
    the reload that will run later and a spill slot is assigned before its store. */
module RegAlloc {
  import opened Wrappers
  import opened TraceIr
  import opened AllocState

  /** More than 256 spill cells are needed (LJ_TRERR_SPILLOV). */
  datatype SpillOverflow = SpillOverflow

  // ------------------------------------------------------------ register sets

  predicate IsTop(s: set<Reg>, top: Reg) { top in s && forall x :: x in s ==> x <= top }

  predicate IsBot(s: set<Reg>, bot: Reg) { bot in s && forall x :: x in s ==> bot <= x }

  lemma {:induction false} HasEnds(s: set<Reg>) returns (bot: Reg, top: Reg)
    requires s != {}
    ensures IsBot(s, bot) && IsTop(s, top)
  {
    var x :| x in s;
    var rest := s - {x};
    bot, top := x, x;
    if rest != {} {
      var b, t := HasEnds(rest);
      bot, top := if b < x then b else x, if x < t then t else x;
    }
    forall z | z in s ensures bot <= z <= top { assert z == x || z in rest; }
  }

  /** The highest register of a set. */
  function PickTop(s: set<Reg>): (r: Reg)
    requires s != {}
    ensures r in s && forall x :: x in s ==> x <= r
  {
    assert exists r :: IsTop(s, r) by { var _, t := HasEnds(s); }
    var r :| IsTop(s, r);
    r
  }

  /** The lowest register of a set. */
  function PickBot(s: set<Reg>): (r: Reg)
    requires s != {}
    ensures r in s && forall x :: x in s ==> r <= x
  {
    assert exists r :: IsBot(s, r) by { var b, _ := HasEnds(s); }
    var r :| IsBot(s, r);
    r
  }

  /** The choice among free registers: the hinted one, else the highest, callee-saved if the
      machine has plenty. */
  function FreePick(t: Target, field: RegField, pick: set<Reg>): (x: Reg)
    requires pick != {}
    ensures x in pick
    ensures field.Hint? && field.reg in pick ==> x == field.reg
  {
    if field.Hint? && field.reg in pick then field.reg
    else if |t.gpr| > 8 && pick - t.scratch != {} then PickTop(pick - t.scratch)
    else PickTop(pick)
  }

  // ----------------------------------------------- one lemma per kind of emission

  /** `a1` is `a0` after the register of `ref` was given up. */
  ghost predicate GaveUp(a0: Alloc, a1: Alloc, ref: Ref) {
    0 <= ref < |a0.r| && a0.r[ref].Has? &&
    a1.free == a0.free + {a0.r[ref].reg} && a1.cost == a0.cost
    && |a1.r| == |a0.r| && !a1.r[ref].Has?
    && (forall j :: 0 <= j < |a0.r| && j != ref ==> a1.r[j] == a0.r[j])
    && |a1.s| == |a0.s| && (forall j :: 0 <= j < |a0.s| && j != ref ==> a1.s[j] == a0.s[j])
  }

  lemma GaveUpRegsOk(c: Ctx, a0: Alloc, a1: Alloc, n: nat, ref: Ref)
    requires RegsOk(c, a0, n) && 0 <= ref < n && GaveUp(a0, a1, ref)
    ensures RegsOk(c, a1, n)
  {
  }

  /** Restoring from a spill slot: the reload makes the register's old content available
      again, so before it the register may hold anything. */
  lemma RestoreCorrect(c: Ctx, a0: Alloc, code: seq<MIns>, n: nat, pend: Pending, lo: nat,
                       ref: Ref, a1: Alloc)
    requires Inv(c, a0, n) && Correct(c, a0, code, n, pend, lo)
    requires 0 <= ref < n && GaveUp(a0, a1, ref) && a0.r[ref].reg !in pend
    requires SlotsOk(c, a1.s, a1.even, a1.odd) && a1.s[ref] != 0 && (a0.s[ref] == 0 || a0.s[ref] == a1.s[ref])
    ensures Inv(c, a1, n)
    ensures Correct(c, a1, [SpLoad(a0.r[ref].reg, a1.s[ref], c.ir[ref].is64)] + code, n, pend, lo)
  {
    GaveUpRegsOk(c, a0, a1, n, ref);
    assert MayHold(c, a0.r[ref].reg, ref);
    EmitQuiet(c, a0, code, n, pend, lo, SpLoad(a0.r[ref].reg, a1.s[ref], c.ir[ref].is64), a1, n, pend);
  }

  /** Rematerialising a constant needs no slot. */
  lemma RematCorrect(c: Ctx, a0: Alloc, code: seq<MIns>, n: nat, pend: Pending, lo: nat, ref: Ref, a1: Alloc)
    requires c.Valid() && Inv(c, a0, n) && Correct(c, a0, code, n, pend, lo)
    requires 0 <= ref < n && ref < c.nk && GaveUp(a0, a1, ref) && a0.r[ref].reg !in pend
    requires a1.s == a0.s && a1.even == a0.even && a1.odd == a0.odd
    ensures Inv(c, a1, n)
    ensures Correct(c, a1, [LoadI(a0.r[ref].reg, c.ir[ref].kind.k)] + code, n, pend, lo)
  {
    GaveUpRegsOk(c, a0, a1, n, ref);
    assert MayHold(c, a0.r[ref].reg, ref);
    assert c.SolvedAt(ref);
    EmitQuiet(c, a0, code, n, pend, lo, LoadI(a0.r[ref].reg, c.ir[ref].kind.k), a1, n, pend);
  }

  /** Storing a result to its slot right after it is computed. */
  lemma SaveCorrect(c: Ctx, a: Alloc, code: seq<MIns>, i: Ref, x: Reg, lo: nat)
    requires 0 <= i < |c.ir| && Inv(c, a, i) && a.s[i] != 0 && x in a.free && MayHold(c, x, i)
    requires Correct(c, a, code, i + 1, map[x := i], lo)
    ensures Correct(c, a, [SpStore(x, a.s[i], c.ir[i].is64)] + code, i, map[x := i], lo)
  {
    var st := SpStore(x, a.s[i], c.ir[i].is64);
    forall m | Holds(c, a, i, map[x := i], m)
      ensures Holds(c, a, i + 1, map[x := i], Step(c.sem, st, m))
    {
      var m1 := Step(c.sem, st, m);
      forall j | 0 <= j < i + 1 && a.s[j] != 0
        ensures m1.SlotHolds(a.s[j], c.ir[j].is64, c.vals[j])
      {
        if j < i { assert Apart(c, a.s, j, i); }
      }
    }
    EmitQuiet(c, a, code, i + 1, map[x := i], lo, st, a, i, map[x := i]);
  }

  /** Taking a free register for a ref only adds to what the code may rely on. */
  lemma TakeCorrect(c: Ctx, a: Alloc, code: seq<MIns>, n: nat, pend: Pending, lo: nat, ref: Ref, x: Reg)
    requires Inv(c, a, n) && Correct(c, a, code, n, pend, lo)
    requires 0 <= ref < n && !a.r[ref].Has? && !c.ir[ref].kind.Effect? && x in a.free && x in c.t.ClassOf(c.ir[ref])
    ensures Inv(c, Taken(a, ref, x), n) && Correct(c, Taken(a, ref, x), code, n, pend, lo)
  {
    var a1 := Taken(a, ref, x);
    forall m | Holds(c, a1, n, pend, m) ensures Holds(c, a, n, pend, m) {
      forall y | y in c.t.All() && y !in a.free && y !in pend ensures m.Get(y) == c.vals[a.cost[y]] {
        assert y !in a1.free;
      }
    }
  }

  /** Reaching the definition of `i`: its register is free from here on, and its value is
      what the register must hold. */
  lemma DestCorrect(c: Ctx, a0: Alloc, code: seq<MIns>, i: Ref, x: Reg, lo: nat, a1: Alloc)
    requires 0 <= i < |c.ir| && Inv(c, a0, i + 1) && Correct(c, a0, code, i + 1, map[], lo) && x in c.t.All()
    requires (a0.r[i] == Has(x) && a1 == a0.(free := a0.free + {x}))
      || (!a0.r[i].Has? && x in a0.free && a1 == a0.(r := a0.r[i := Has(x)]))
    ensures Inv(c, a1, i) && Correct(c, a1, code, i + 1, map[x := i], lo)
  {
    Strengthen(c, a0, code, i + 1, map[], lo, a1, i + 1, map[x := i]);
  }

  /** A move discharges the demand that `dest` hold a ref, when `src` holds it. */
  lemma MoveCorrect(c: Ctx, a: Alloc, code: seq<MIns>, n: nat, p0: Pending, dest: Reg, src: Reg,
                    p1: Pending, lo: nat)
    requires Inv(c, a, n) && Correct(c, a, code, n, p0, lo)
    requires dest in p0 && dest in a.free && 0 <= p0[dest] < |c.ir| && src != dest && SameClass(c.t, dest, src)
    requires dest !in p1 && forall x :: x in p0 && x != dest ==> x in p1 && p1[x] == p0[x]
    requires forall x :: x in p1 ==> x in p0 || (x == src && src in a.free)
    requires if src in p1 then p1[src] == p0[dest] else src in c.t.All() && src !in a.free && a.cost[src] == p0[dest]
    ensures Correct(c, a, [MovRR(dest, src)] + code, n, p1, lo)
  {
    EmitQuiet(c, a, code, n, p0, lo, MovRR(dest, src), a, n, p1);
  }

  /** The registers `srcs` are those allocated to `args`. */
  ghost predicate Located(a: Alloc, args: seq<Ref>, srcs: seq<Reg>) {
    |srcs| == |args|
    && forall k :: 0 <= k < |args| ==> 0 <= args[k] < |a.r| && a.r[args[k]] == Has(srcs[k])
  }

  /** Reading the operand registers gives the operand values. */
  lemma LocatedOperands(c: Ctx, a: Alloc, n: nat, args: seq<Ref>, srcs: seq<Reg>, m: Machine)
    requires Inv(c, a, n) && Holds(c, a, n, map[], m) && Located(a, args, srcs)
    requires forall k :: 0 <= k < |args| ==> 0 <= args[k] < n
    ensures ReadAll(m, srcs) == Operands(args, c.vals)
  {
    forall k | 0 <= k < |args| ensures ReadAll(m, srcs)[k] == Operands(args, c.vals)[k] {
      assert a.r[args[k]] == Has(srcs[k]);
    }
  }

  /** Operands are in registers of their classes. */
  lemma LocatedFit(c: Ctx, a: Alloc, i: Ref, srcs: seq<Reg>)
    requires c.Valid() && 0 <= i < |c.ir| && Inv(c, a, i) && Located(a, c.ir[i].args, srcs)
    ensures SourcesFit(c, c.ir[i].args, srcs)
  {
    var args := c.ir[i].args;
    forall k | 0 <= k < |args| ensures MayHold(c, srcs[k], args[k]) { assert a.r[args[k]] == Has(srcs[k]); }
  }

  /** Running the instruction turns operand values into the result, and leaves every
      other register alone. */
  lemma AluStep(c: Ctx, a: Alloc, i: Ref, dest: Reg, srcs: seq<Reg>, m: Machine)
    requires c.Valid() && 0 <= i < |c.ir| && c.ir[i].kind.Alu? && Inv(c, a, i) && Located(a, c.ir[i].args, srcs)
    requires Holds(c, a, i, map[], m)
    ensures Holds(c, a, i, map[dest := i], Step(c.sem, AluRR(c.ir[i].kind.op, dest, srcs), m))
  {
    assert c.SolvedAt(i);
    LocatedOperands(c, a, i, c.ir[i].args, srcs, m);
    var m1 := Step(c.sem, AluRR(c.ir[i].kind.op, dest, srcs), m);
    assert m1.Get(dest) == c.vals[i];
  }

  lemma AluCorrect(c: Ctx, a: Alloc, code: seq<MIns>, i: Ref, dest: Reg, srcs: seq<Reg>)
    requires c.Valid() && 0 <= i < |c.ir| && c.ir[i].kind.Alu?
    requires Inv(c, a, i) && Correct(c, a, code, i, map[dest := i], i + 1) && Located(a, c.ir[i].args, srcs) && MayHold(c, dest, i)
    ensures Correct(c, a, [AluRR(c.ir[i].kind.op, dest, srcs)] + code, i, map[], i)
  {
    LocatedFit(c, a, i, srcs);
    assert Events(c.ir, c.vals, i) == Events(c.ir, c.vals, i + 1);
    hide Legal, Events, Located, SourcesFit, Inv;
    var ins := AluRR(c.ir[i].kind.op, dest, srcs);
    forall m | Holds(c, a, i, map[], m)
      ensures Holds(c, a, i, map[dest := i], Step(c.sem, ins, m))
    {
      AluStep(c, a, i, dest, srcs, m);
    }
    EmitCorrect(c, a, code, i, map[dest := i], i + 1, ins, a, i, map[], i);
  }

  lemma EffectStep(c: Ctx, a: Alloc, i: Ref, srcs: seq<Reg>, m: Machine)
    requires c.Valid() && 0 <= i < |c.ir| && c.ir[i].kind.Effect? && Inv(c, a, i) && Located(a, c.ir[i].args, srcs)
    requires Holds(c, a, i, map[], m)
    ensures var m1 := Step(c.sem, EffectR(c.ir[i].kind.op, srcs), m);
      Holds(c, a, i, map[], m1) && m1.out + Events(c.ir, c.vals, i + 1) == m.out + Events(c.ir, c.vals, i)
  {
    LocatedOperands(c, a, i, c.ir[i].args, srcs, m);
    EventSplits(c, i, m.out);
  }

  lemma EffectCorrect(c: Ctx, a: Alloc, code: seq<MIns>, i: Ref, srcs: seq<Reg>)
    requires c.Valid() && 0 <= i < |c.ir| && c.ir[i].kind.Effect?
    requires Inv(c, a, i) && Correct(c, a, code, i, map[], i + 1) && Located(a, c.ir[i].args, srcs)
    ensures Correct(c, a, [EffectR(c.ir[i].kind.op, srcs)] + code, i, map[], i)
  {
    LocatedFit(c, a, i, srcs);
    hide RegsOk, SlotsOk, Holds, Events, Step, Correct, Inv, Located, Ctx.Valid, SourcesFit;
    var ins := EffectR(c.ir[i].kind.op, srcs);
    forall m | Holds(c, a, i, map[], m)
      ensures Holds(c, a, i, map[], Step(c.sem, ins, m))
        && Step(c.sem, ins, m).out + Events(c.ir, c.vals, i + 1) == m.out + Events(c.ir, c.vals, i)
    {
      EffectStep(c, a, i, srcs, m);
    }
    EmitCorrect(c, a, code, i, map[], i + 1, ins, a, i, map[], i);
  }

  lemma EventSplits(c: Ctx, i: Ref, out: seq<Event>)
    requires 0 <= i < |c.ir|
    ensures (out + EventOf(c.ir[i], c.vals)) + Events(c.ir, c.vals, i + 1) == out + Events(c.ir, c.vals, i)
  {
  }

  function Taken(a: Alloc, ref: Ref, x: Reg): Alloc
    requires 0 <= ref < |a.r|
  {
    a.(r := a.r[ref := Has(x)], free := a.free - {x}, cost := a.cost[x := ref])
  }

  /** The call passes all its arguments in registers, `g` and `f` of which are in use. */
  ghost predicate ArgsFit(t: Target, ir: seq<Ins>, args: seq<Ref>, g: nat, f: nat) {
    args != [] ==>
      0 <= args[0] < |ir|
      && (if ir[args[0]].fp then f < |t.fprArgs| && ArgsFit(t, ir, args[1..], g, f + 1)
          else g < |t.gprArgs| && ArgsFit(t, ir, args[1..], g + 1, f))
  }

  /** The argument registers: the next one of the argument's class, left to right. */
  function ArgRegs(t: Target, ir: seq<Ins>, args: seq<Ref>, g: nat, f: nat): (regs: seq<Reg>)
    requires ArgsFit(t, ir, args, g, f)
    ensures |regs| == |args|
  {
    if args == [] then []
    else if ir[args[0]].fp then [t.fprArgs[f]] + ArgRegs(t, ir, args[1..], g, f + 1)
    else [t.gprArgs[g]] + ArgRegs(t, ir, args[1..], g + 1, f)
  }

  /** No two arguments share a register, and every one gets a scratch register of its class. */
  lemma {:induction false} ArgRegsApart(t: Target, ir: seq<Ins>, args: seq<Ref>, g: nat, f: nat)
    requires t.Valid() && ArgsFit(t, ir, args, g, f)
    ensures var regs := ArgRegs(t, ir, args, g, f);
      (forall j, k :: 0 <= j < k < |regs| ==> regs[j] != regs[k])
      && (forall k :: 0 <= k < |regs| ==> 0 <= args[k] < |ir| && regs[k] in t.ClassOf(ir[args[k]]) * t.scratch)
      && (forall k, l :: 0 <= k < |regs| && 0 <= l < g && l < |t.gprArgs| ==> regs[k] != t.gprArgs[l])
      && (forall k, l :: 0 <= k < |regs| && 0 <= l < f && l < |t.fprArgs| ==> regs[k] != t.fprArgs[l])
  {
    if args != [] {
      var regs := ArgRegs(t, ir, args, g, f);
      if ir[args[0]].fp {
        ArgRegsApart(t, ir, args[1..], g, f + 1);
      } else {
        ArgRegsApart(t, ir, args[1..], g + 1, f);
      }
      assert forall k :: 1 <= k < |regs| ==> regs[k] == regs[1..][k - 1] && args[k] == args[1..][k - 1];
    }
  }

  lemma {:induction false} CountFirst(ir: seq<Ins>, args: seq<Ref>, fp: bool, k: nat)
    requires 0 < k <= |args| && 0 <= args[0] < |ir|
    ensures CountClass(ir, args, fp, k) == (if ir[args[0]].fp == fp then 1 else 0) + CountClass(ir, args[1..], fp, k - 1)
  {
    if k > 1 {
      CountFirst(ir, args, fp, k - 1);
      assert args[1..][k - 2] == args[k - 1];
    } else {
      assert CountClass(ir, args, fp, 0) == 0;
    }
  }

  /** They follow the calling convention. */
  lemma {:induction false} ArgRegsAt(t: Target, ir: seq<Ins>, args: seq<Ref>, g: nat, f: nat, k: nat)
    requires ArgsFit(t, ir, args, g, f) && k < |args|
    ensures 0 <= args[k] < |ir|
    ensures var fp := ir[args[k]].fp;
      var regs, n := if fp then t.fprArgs else t.gprArgs, (if fp then f else g) + CountClass(ir, args, fp, k);
      n < |regs| && ArgRegs(t, ir, args, g, f)[k] == regs[n]
  {
    if k > 0 {
      var g1, f1 := if ir[args[0]].fp then g else g + 1, if ir[args[0]].fp then f + 1 else f;
      ArgRegsAt(t, ir, args[1..], g1, f1, k - 1);
      CountFirst(ir, args, ir[args[k]].fp, k);
    }
  }

  /** What a call demands: each argument in its register. */
  ghost function ArgPend(regs: seq<Reg>, args: seq<Ref>): (p: Pending)
    requires |regs| == |args|
    requires forall i, j :: 0 <= i < j < |regs| ==> regs[i] != regs[j]
    ensures DemandsFrom(p, regs, args, 0)
  {
    if args == [] then map[] else assert regs == [regs[0]] + regs[1..]; ArgPend(regs[1..], args[1..])[regs[0] := args[0]]
  }

  /** `p` demands each argument in its register, and nothing of other registers. */
  ghost predicate Demands(p: Pending, regs: seq<Reg>, args: seq<Ref>, scratch: set<Reg>) {
    |regs| == |args| && p.Keys <= scratch
    && forall k :: 0 <= k < |args| ==> regs[k] in p && p[regs[k]] == args[k]
  }

  /** The demands of the arguments from `k` on, and nothing else. */
  ghost predicate DemandsFrom(p: Pending, regs: seq<Reg>, args: seq<Ref>, k: nat) {
    k <= |regs| == |args|
    && (forall x :: x in p ==> x in regs[k..])
    && (forall j :: k <= j < |args| ==> regs[j] in p && p[regs[j]] == args[j])
  }

  /** Every argument has a free register of its class, and no two the same. */
  predicate ArgsReady(t: Target, ir: seq<Ins>, args: seq<Ref>, regs: seq<Reg>, i: Ref, free: set<Reg>) {
    && |regs| == |args| && i <= |ir|
    && (forall k :: 0 <= k < |args| ==> 0 <= args[k] < i && !ir[args[k]].kind.Effect? && regs[k] in t.ClassOf(ir[args[k]]) * free)
    && (forall j, k :: 0 <= j < k < |args| ==> regs[j] != regs[k])
  }

  /** What a call demands of the state before it. */
  lemma ArgsPending(c: Ctx, i: Ref, free: set<Reg>) returns (p: Pending)
    requires c.Valid() && c.nk <= i < |c.ir| && c.ir[i].kind.Call? && ArgsFit(c.t, c.ir, c.ir[i].args, 0, 0) && c.t.scratch <= free
    ensures var args := c.ir[i].args; var regs := ArgRegs(c.t, c.ir, args, 0, 0);
      ArgsReady(c.t, c.ir, args, regs, i, free) && Demands(p, regs, args, c.t.scratch) && DemandsFrom(p, regs, args, 0)
  {
    var args := c.ir[i].args;
    var regs := ArgRegs(c.t, c.ir, args, 0, 0);
    ArgRegsApart(c.t, c.ir, args, 0, 0);
    p := ArgPend(regs, args);
  }

  lemma DropDemand(p: Pending, regs: seq<Reg>, args: seq<Ref>, k: nat)
    requires DemandsFrom(p, regs, args, k) && k < |args|
    requires forall i, j :: 0 <= i < j < |regs| ==> regs[i] != regs[j]
    ensures DemandsFrom(p - {regs[k]}, regs, args, k + 1)
    ensures k + 1 == |args| ==> p - {regs[k]} == map[]
    ensures forall x :: x in p ==> exists j :: k <= j < |regs| && x == regs[j]
  {
    forall x | x in p && x != regs[k] ensures x in regs[k + 1..] {
      var j :| 0 <= j < |regs[k..]| && regs[k..][j] == x;
      assert regs[k + 1..][j - 1] == x;
    }
  }

  lemma DemandedOperands(c: Ctx, a: Alloc, i: Ref, p: Pending, regs: seq<Reg>, args: seq<Ref>, m: Machine)
    requires 0 <= i && Holds(c, a, i, p, m) && Demands(p, regs, args, c.t.scratch)
    requires forall k :: 0 <= k < |args| ==> 0 <= args[k] < |c.ir|
    ensures ReadAll(m, regs) == Operands(args, c.vals)
  {
    forall k | 0 <= k < |args| ensures ReadAll(m, regs)[k] == Operands(args, c.vals)[k] {
      assert regs[k] in p;
    }
  }

  /** The call computes its result from its argument registers and destroys only scratch
      registers, none of which the code after it relies on. */
  lemma CallStep(c: Ctx, a: Alloc, i: Ref, pend: Pending, p: Pending, regs: seq<Reg>, m: Machine)
    requires c.Valid() && 0 <= i < |c.ir| && c.ir[i].kind.Call? && Inv(c, a, i)
    requires Demands(p, regs, c.ir[i].args, c.t.scratch) && c.t.scratch <= a.free
    requires pend == map[] || pend == map[c.t.RetOf(c.ir[i]) := i]
    requires Holds(c, a, i, p, m) && ReadAll(m, regs) == Operands(c.ir[i].args, c.vals)
    ensures Holds(c, a, i, pend, Step(c.sem, CallR(c.ir[i].kind.op, c.t.RetOf(c.ir[i]), regs, c.t.scratch), m))
  {
    assert c.SolvedAt(i);
    var ret := c.t.RetOf(c.ir[i]);
    var m1 := Step(c.sem, CallR(c.ir[i].kind.op, ret, regs, c.t.scratch), m);
    assert m1.Get(ret) == c.vals[i];
    forall x | x !in c.t.scratch ensures m1.Get(x) == m.Get(x) { assert x != ret; }
  }

  /** Both halves of what a call does, from the demands on its arguments. */
  lemma CallRuns(c: Ctx, a: Alloc, i: Ref, pend: Pending, p: Pending, regs: seq<Reg>, ins: MIns, m: Machine)
    requires c.Valid() && 0 <= i < |c.ir| && c.ir[i].kind.Call? && Inv(c, a, i)
    requires Demands(p, regs, c.ir[i].args, c.t.scratch) && c.t.scratch <= a.free
    requires pend == map[] || pend == map[c.t.RetOf(c.ir[i]) := i]
    requires ins == CallR(c.ir[i].kind.op, c.t.RetOf(c.ir[i]), regs, c.t.scratch)
    requires Holds(c, a, i, p, m)
    ensures Holds(c, a, i, pend, Step(c.sem, ins, m))
    ensures Step(c.sem, ins, m).out + Events(c.ir, c.vals, i + 1) == m.out + Events(c.ir, c.vals, i)
  {
    assert forall k :: 0 <= k < |c.ir[i].args| ==> 0 <= c.ir[i].args[k] < |c.ir|;
    DemandedOperands(c, a, i, p, regs, c.ir[i].args, m);
    CallStep(c, a, i, pend, p, regs, m);
    EventSplits(c, i, m.out);
  }

  lemma CallCorrect(c: Ctx, a: Alloc, code: seq<MIns>, i: Ref, pend: Pending, p: Pending, regs: seq<Reg>, ins: MIns)
    requires c.Valid() && 0 <= i < |c.ir| && c.ir[i].kind.Call? && Inv(c, a, i)
    requires Demands(p, regs, c.ir[i].args, c.t.scratch) && c.t.scratch <= a.free
    requires pend == map[] || pend == map[c.t.RetOf(c.ir[i]) := i]
    requires ins == CallR(c.ir[i].kind.op, c.t.RetOf(c.ir[i]), regs, c.t.scratch)
    requires Correct(c, a, code, i, pend, i + 1) && StandsFor(c, ins, i)
    ensures Correct(c, a, [ins] + code, i, p, i)
  {
    hide Legal, StandsFor;
    forall m | Holds(c, a, i, p, m)
      ensures Holds(c, a, i, pend, Step(c.sem, ins, m))
      ensures Step(c.sem, ins, m).out + Events(c.ir, c.vals, i + 1) == m.out + Events(c.ir, c.vals, i)
    {
      CallRuns(c, a, i, pend, p, regs, ins, m);
    }
    EmitCorrect(c, a, code, i, pend, i + 1, ins, a, i, p, i);
  }

  lemma ArgsStand(c: Ctx, i: Ref)
    requires 0 <= i < |c.ir| && c.ir[i].kind.Call? && ArgsFit(c.t, c.ir, c.ir[i].args, 0, 0)
    ensures StandsFor(c, CallR(c.ir[i].kind.op, c.t.RetOf(c.ir[i]), ArgRegs(c.t, c.ir, c.ir[i].args, 0, 0), c.t.scratch), i)
  {
    var args := c.ir[i].args;
    forall k | 0 <= k < |args| ensures ArgAt(c.t, c.ir, args, k, ArgRegs(c.t, c.ir, args, 0, 0)[k]) {
      ArgRegsAt(c.t, c.ir, args, 0, 0, k);
    }
  }

  /** At most two operands, except for calls, whose arguments all fit in registers. */
  ghost predicate Supported(t: Target, ir: seq<Ins>) {
    forall i :: 0 <= i < |ir| ==>
      if ir[i].kind.Call? then ArgsFit(t, ir, ir[i].args, 0, 0) else |ir[i].args| <= 2
  }

  // ------------------------------------------------------------- the allocator

  /** An unused instruction without side effects needs no code. */
  lemma SkipDead(c: Ctx, a: Alloc, code: seq<MIns>, i: nat)
    requires i < |c.ir| && Inv(c, a, i + 1) && Correct(c, a, code, i + 1, map[], i + 1)
    requires !a.r[i].Has? && a.s[i] == 0 && !c.ir[i].SideEffect() && !c.every
    ensures Inv(c, a, i) && Correct(c, a, code, i, map[], i)
  {
    NoEvent(c, a, code, i + 1, map[], i);
    Strengthen(c, a, code, i + 1, map[], i, a, i, map[]);
  }

  lemma InvSizes(c: Ctx, a: Alloc, n: nat)
    requires Inv(c, a, n)
    ensures n <= |a.r| == |c.ir|
  {
  }

  lemma SlotsLong(c: Ctx, a: Alloc, n: nat)
    requires Inv(c, a, n)
    ensures |a.s| == |c.ir|
  {
  }

  /** A result without a slot. */
  lemma NoSave(c: Ctx, a: Alloc, code: seq<MIns>, i: Ref, dest: Reg, lo: nat)
    requires 0 <= i < |c.ir| == |a.s| && Correct(c, a, code, i + 1, map[dest := i], lo) && a.s[i] == 0
    ensures Correct(c, a, code, i, map[dest := i], lo)
  {
    Strengthen(c, a, code, i + 1, map[dest := i], lo, a, i, map[dest := i]);
  }

  lemma NoResult(c: Ctx, a: Alloc, i: Ref)
    requires 0 <= i < |c.ir| && Inv(c, a, i + 1) && c.ir[i].kind.Effect?
    ensures |a.s| == |a.r| == |c.ir| && !a.r[i].Has? && a.s[i] == 0
  {
  }

  /** A result that nothing needs. */
  lemma NoDest(c: Ctx, a: Alloc, code: seq<MIns>, i: Ref)
    requires 0 <= i < |c.ir| && Inv(c, a, i + 1) && Correct(c, a, code, i + 1, map[], i + 1) && !a.r[i].Has? && a.s[i] == 0
    ensures Inv(c, a, i) && Correct(c, a, code, i, map[], i + 1)
  {
    hide Correct, SlotsOk;
    Strengthen(c, a, code, i + 1, map[], i + 1, a, i, map[]);
  }

  class ASMState {
    const t: Target
    const ir: seq<Ins>
    const nk: nat
    ghost const sem: Semantics
    /** No instruction may be left out. */
    ghost const every: bool

    var mcp: seq<MIns>
    var freeset: set<Reg>
    var cost: map<Reg, Ref>
    var r: seq<RegField>
    var s: seq<int>
    var evenspill: int
    var oddspill: int

    ghost const vals: seq<int>

    ghost function C(): Ctx { Ctx(sem, t, ir, nk, vals, every) }

    ghost function A(): Alloc reads this { Alloc(freeset, cost, r, s, evenspill, oddspill) }

    /** The invariant of every emission point: the bookkeeping is consistent and the code
        emitted so far is correct under it. */
    ghost predicate Good(n: nat, pend: Pending, lo: nat)
      reads this
    {
      C().Valid() && Inv(C(), A(), n) && Correct(C(), A(), mcp, n, pend, lo)
    }

    /** ra_setup, with the register fields reset as asm_setup_regsp does. */
    constructor (t: Target, ir: seq<Ins>, nk: nat, ghost sem: Semantics, ghost every: bool)
      requires t.Valid() && WellFormed(ir, nk)
      ensures this.t == t && this.ir == ir && this.nk == nk && this.sem == sem && this.every == every && vals == Values(sem, ir)
      ensures Good(|ir|, map[], |ir|) && mcp == []
      ensures freeset == t.All() && s == seq(|ir|, _ => 0)
    {
      this.t, this.ir, this.nk, this.sem, this.every, vals := t, ir, nk, sem, every, Values(sem, ir);
      mcp := [];
      freeset := t.All();
      cost := map x | x in t.All() :: 0;
      r := seq(|ir|, _ => Init);
      s := seq(|ir|, _ => 0);
      evenspill, oddspill := t.spsFirst + t.spsFirst % 2, if t.spsFirst % 2 == 1 then t.spsFirst else 0;
      new;
      UsedNone(ir, |ir|);
      forall i | 0 <= i < |ir| ensures C().SolvedAt(i) { ValuesSolveSsa(sem, ir, nk, i); }
    }

    /** ra_rematk: give up a constant's register; the constant is loaded again later. */
    method Rematk(ref: Ref, ghost n: nat, ghost pend: Pending, ghost lo: nat) returns (x: Reg)
      requires Good(n, pend, lo) && 0 <= ref < n && ref < nk && r[ref].Has? && r[ref].reg !in pend
      modifies this
      ensures Good(n, pend, lo) && x == old(r[ref].reg)
      ensures GaveUp(old(A()), A(), ref) && s == old(s)
      ensures mcp == [LoadI(x, ir[ref].kind.k)] + old(mcp)
    {
      ghost var a0 := A();
      x := r[ref].reg;
      freeset := freeset + {x};
      r := r[ref := Init];
      mcp := [LoadI(x, ir[ref].kind.k)] + mcp;
      RematCorrect(C(), a0, old(mcp), n, pend, lo, ref, A());
    }

    /** A new spill slot. 64-bit slots come in even/odd pairs; the odd half of a pair opened
        for a 32-bit value is kept for the next one. */
    method NewSlot(ref: Ref) returns (slot: int)
      requires C().Valid() && nk <= ref < |ir| && !ir[ref].kind.Effect? && SlotsOk(C(), s, evenspill, oddspill) && s[ref] == 0
      modifies this`evenspill, this`oddspill
      ensures slot != 0 && SlotsOk(C(), s[ref := slot], evenspill, oddspill)
    {
      NewSlotOk(C(), s, evenspill, oddspill, ref);
      hide SlotsOk;
      if ir[ref].is64 {
        slot := evenspill;
        evenspill := evenspill + 2;
      } else if oddspill != 0 {
        slot := oddspill;
        oddspill := 0;
      } else {
        slot := evenspill;
        oddspill := slot + 1;
        evenspill := evenspill + 2;
      }
    }

    /** ra_spill: the spill slot of a ref, allocated on first use. */
    method Spill(ref: Ref) returns (res: Result<int, SpillOverflow>)
      requires C().Valid() && nk <= ref < |ir| && !ir[ref].kind.Effect? && SlotsOk(C(), s, evenspill, oddspill)
      modifies this`s, this`evenspill, this`oddspill
      ensures res.Ok? ==> SlotsOk(C(), s, evenspill, oddspill) && s == old(s)[ref := res.value] && res.value != 0
      ensures old(s[ref]) != 0 ==> res == Ok(old(s[ref])) && A() == old(A())
      ensures res.Err? ==> Overflow(C(), s)
    {
      hide Overflow;
      var slot := s[ref];
      if slot == 0 {
        slot := NewSlot(ref);
        if evenspill > 256 {
          OverflowIs(C(), s, ref, slot, evenspill, oddspill);
          return Err(SpillOverflow);
        }
        s := s[ref := slot];
      }
      return Ok(slot);
    }

    /** ra_restore: give up the register of a ref, reloading or rematerialising it later. */
    method Restore(ref: Ref, ghost n: nat, ghost pend: Pending, ghost lo: nat)
      returns (res: Result<Reg, SpillOverflow>)
      requires Good(n, pend, lo) && 0 <= ref < n && r[ref].Has? && r[ref].reg !in pend
      modifies this
      ensures res.Err? ==> Overflow(C(), s)
      ensures res.Ok? ==> Good(n, pend, lo) && res.value == old(r[ref].reg) && GaveUp(old(A()), A(), ref)
    {
      hide Overflow;
      if ref < nk {
        var x := Rematk(ref, n, pend, lo);
        return Ok(x);
      }
      ghost var a0 := A();
      var slot :- Spill(ref);
      var x := r[ref].reg;
      r := r[ref := Hint(x)];
      freeset := freeset + {x};
      mcp := [SpLoad(x, slot, ir[ref].is64)] + mcp;
      RestoreCorrect(C(), a0, old(mcp), n, pend, lo, ref, A());
      return Ok(x);
    }

    /** ra_evict: of the registers allowed, all taken, give up the one with the lowest
        cost, that is, the one whose live interval starts first. */
    method Evict(allow: set<Reg>, ghost n: nat, ghost pend: Pending, ghost lo: nat)
      returns (res: Result<Reg, SpillOverflow>)
      requires Good(n, pend, lo) && allow != {} && allow <= t.All() && allow !! freeset && allow !! pend.Keys
      modifies this
      ensures res.Err? ==> Overflow(C(), s)
      ensures res.Ok? ==> Good(n, pend, lo) && res.value in allow
      ensures res.Ok? ==> forall y :: y in allow ==> old(cost[res.value]) <= old(cost[y])
      ensures res.Ok? ==>
        res.value !in old(freeset)
        && old(r[cost[res.value]]) == Has(res.value) && GaveUp(old(A()), A(), old(cost[res.value]))
    {
      hide Correct, SlotsOk, Overflow;
      var best: Option<Ref> := None;
      ghost var at: Reg := 0;
      for x := 0 to t.ridMax
        invariant best.None? ==> forall y :: y in allow ==> x <= y
        invariant best.Some? ==> at in allow && cost[at] == best.value
        invariant best.Some? ==> forall y :: y in allow && y < x ==> best.value <= cost[y]
      {
        if x in allow && (best.None? || cost[x] < best.value) {
          best := Some(cost[x]);
          at := x;
        }
      }
      assert best.Some? by {
        var y :| y in allow;
        assert y in t.All();
      }
      res := Restore(best.value, n, pend, lo);
    }

    /** ra_pick: the highest free register allowed, or an evicted one. */
    method Pick(allow: set<Reg>, ghost n: nat, ghost pend: Pending, ghost lo: nat)
      returns (res: Result<Reg, SpillOverflow>)
      requires Good(n, pend, lo) && allow != {} && allow <= t.All()
      requires forall x :: x in allow && x in pend ==> x in freeset
      modifies this
      ensures res.Err? ==> Overflow(C(), s)
      ensures res.Ok? ==> Good(n, pend, lo) && res.value in allow && res.value in freeset
      ensures res.Ok? && old(freeset) * allow != {} ==> A() == old(A()) && mcp == old(mcp)
      ensures res.Ok? && old(freeset) * allow == {} ==>
        res.value !in old(freeset)
        && old(r[cost[res.value]]) == Has(res.value) && GaveUp(old(A()), A(), old(cost[res.value]))
    {
      hide Correct, SlotsOk, Overflow;
      var pick := freeset * allow;
      if pick == {} {
        assert forall x :: x in allow && x in freeset ==> x in pick;
        assert allow !! freeset && allow !! pend.Keys;
        res := Evict(allow, n, pend, lo);
      } else {
        res := Ok(PickTop(pick));
      }
    }

    /** ra_evictset: free every register of a set, floating-point registers first. */
    method EvictSet(drop: set<Reg>, ghost n: nat, ghost pend: Pending, ghost lo: nat)
      returns (res: Result<(), SpillOverflow>)
      requires Good(n, pend, lo) && drop <= t.All() && drop !! pend.Keys
      modifies this
      ensures res.Err? ==> Overflow(C(), s)
      ensures res.Ok? ==> Good(n, pend, lo) && Outside(old(A()), A(), drop) && drop <= freeset
    {
      hide Correct, SlotsOk, Overflow;
      var _ :- RestoreAll((drop - freeset) * t.fpr, n, pend, lo);
      var _ :- RestoreAll(drop - freeset, n, pend, lo);
      return Ok(());
    }

    /** The inner loop of ra_evictset. */
    method RestoreAll(regs: set<Reg>, ghost n: nat, ghost pend: Pending, ghost lo: nat)
      returns (res: Result<(), SpillOverflow>)
      requires Good(n, pend, lo) && regs <= t.All() && regs !! freeset && regs !! pend.Keys
      modifies this
      ensures res.Err? ==> Overflow(C(), s)
      ensures res.Ok? ==> Good(n, pend, lo) && Outside(old(A()), A(), regs) && freeset == old(freeset) + regs
    {
      hide Correct, SlotsOk, Overflow;
      var work := regs;
      while work != {}
        invariant Good(n, pend, lo) && work <= regs && freeset == old(freeset) + (regs - work)
        invariant Outside(old(A()), A(), regs)
        decreases work
      {
        var x := PickBot(work);
        var y :- Restore(cost[x], n, pend, lo);
        work := work - {x};
      }
      return Ok(());
    }

    /** ra_evictk: rematerialise every register that holds a constant. */
    method EvictK(ghost n: nat, ghost lo: nat)
      requires Good(n, map[], lo)
      modifies this
      ensures Good(n, map[], lo) && freeset >= old(freeset)
      ensures forall x :: x in t.All() && x !in freeset ==> nk <= cost[x]
    {
      EvictKIn(t.fpr, n, lo);
      EvictKIn(t.gpr, n, lo);
    }

    method EvictKIn(regs: set<Reg>, ghost n: nat, ghost lo: nat)
      requires Good(n, map[], lo) && regs <= t.All()
      modifies this
      ensures Good(n, map[], lo) && freeset >= old(freeset) && cost == old(cost)
      ensures forall x :: x in regs && x !in freeset ==> nk <= cost[x]
    {
      var work := regs - freeset;
      while work != {}
        invariant Good(n, map[], lo) && work <= regs && work !! freeset
        invariant freeset >= old(freeset) && cost == old(cost)
        invariant forall x :: x in regs && x !in freeset && x !in work ==> nk <= cost[x]
        decreases work
      {
        var x := PickBot(work);
        var ref := cost[x];
        if ref < nk {
          var y := Rematk(ref, n, map[], lo);
        }
        work := work - {x};
      }
    }

    /** The choice made by ra_allocref. A hinted register is used if it is free, or holds a
        constant; otherwise any free register is better than an eviction, and callee-saved
        ones are preferred when there are many. */
    method Choose(ref: Ref, allow: set<Reg>, ghost n: nat, ghost pend: Pending, ghost lo: nat)
      returns (res: Result<Reg, SpillOverflow>)
      requires Good(n, pend, lo) && 0 <= ref < n && !r[ref].Has? && allow != {} && allow <= t.ClassOf(ir[ref]) && !ir[ref].kind.Effect?
      requires forall x :: x in allow && x in pend ==> x in freeset
      modifies this
      ensures res.Err? ==> Overflow(C(), s)
      ensures res.Ok? ==> Good(n, pend, lo) && res.value in freeset * allow && !r[ref].Has?
      ensures res.Ok? ==> Outside(old(A()), A(), allow)
      ensures res.Ok? && old(r[ref].Hint?) && old(r[ref].reg) in old(freeset) * allow ==>
        res.value == old(r[ref].reg) && A() == old(A())
    {
      hide Correct, SlotsOk, Overflow, Outside, GaveUp;
      var pick := freeset * allow;
      if pick == {} {
        assert forall x :: x in allow && x in freeset ==> x in pick;
        assert allow !! freeset && allow !! pend.Keys;
        ghost var a0 := A();
        res := Evict(allow, n, pend, lo);
        if res.Ok? { GaveUpOutside(a0, A(), a0.cost[res.value], res.value, allow, ref); }
        return;
      }
      if r[ref].Hint? {
        var x := r[ref].reg;
        if x in allow && x !in pick && cost[x] < nk {
          ghost var a0 := A();
          var y := Rematk(cost[x], n, pend, lo);
          GaveUpOutside(a0, A(), a0.cost[x], x, allow, ref);
          return Ok(x);
        }
      }
      OutsideSelf(A(), allow);
      return Ok(FreePick(t, r[ref], pick));
    }

    /** ra_allocref: choose a register for a ref that has none and mark it taken. */
    method AllocRef(ref: Ref, allow: set<Reg>, ghost n: nat, ghost pend: Pending, ghost lo: nat)
      returns (res: Result<Reg, SpillOverflow>)
      requires Good(n, pend, lo) && 0 <= ref < n && !r[ref].Has? && allow != {} && allow <= t.ClassOf(ir[ref]) && !ir[ref].kind.Effect?
      requires forall x :: x in allow && x in pend ==> x in freeset
      modifies this
      ensures res.Err? ==> Overflow(C(), s)
      ensures res.Ok? ==> Good(n, pend, lo) && res.value in allow && r[ref] == Has(res.value)
      ensures res.Ok? ==> OutsideBut(old(A()), A(), allow, ref) && old(freeset) - {res.value} <= freeset
      ensures res.Ok? && old(r[ref].Hint?) && old(r[ref].reg) in old(freeset) * allow ==>
        res.value == old(r[ref].reg) && freeset == old(freeset) - {res.value}
    {
      hide Correct, SlotsOk, Overflow, Outside, OutsideBut;
      var x :- Choose(ref, allow, n, pend, lo);
      ghost var a1 := A();
      TakeCorrect(C(), a1, mcp, n, pend, lo, ref, x);
      r := r[ref := Has(x)];
      freeset := freeset - {x};
      cost := cost[x := ref];
      TakenOutside(old(A()), a1, A(), allow, ref, x);
      return Ok(x);
    }

    /** ra_alloc1 */
    method Alloc1(ref: Ref, allow: set<Reg>, ghost n: nat, ghost pend: Pending, ghost lo: nat)
      returns (res: Result<Reg, SpillOverflow>)
      requires Good(n, pend, lo) && 0 <= ref < n && allow != {} && allow <= t.ClassOf(ir[ref]) && !ir[ref].kind.Effect?
      requires forall x :: x in allow && x in pend ==> x in freeset
      modifies this
      ensures res.Err? ==> Overflow(C(), s)
      ensures res.Ok? ==> Good(n, pend, lo) && r[ref] == Has(res.value)
      ensures res.Ok? ==> OutsideBut(old(A()), A(), allow, ref) && (old(r[ref].Has?) ==> A() == old(A()))
      ensures res.Ok? ==> old(freeset) - {res.value} <= freeset
    {
      hide Correct, SlotsOk, Overflow;
      if r[ref].Has? {
        return Ok(r[ref].reg);
      }
      res := AllocRef(ref, allow, n, pend, lo);
    }

    /** ra_alloc2: two operand registers of the same class, the second never evicting the
        first. */
    method Alloc2(op1: Ref, op2: Ref, allow: set<Reg>, ghost n: nat, ghost pend: Pending, ghost lo: nat)
      returns (res: Result<(Reg, Reg), SpillOverflow>)
      requires Good(n, pend, lo) && 0 <= op1 < n && 0 <= op2 < n && allow <= t.ClassOf(ir[op1]) * t.ClassOf(ir[op2])
      requires !ir[op1].kind.Effect? && !ir[op2].kind.Effect?
      requires exists a, b :: a in allow && b in allow && a != b
      requires forall x :: x in allow && x in pend ==> x in freeset
      modifies this
      ensures res.Err? ==> Overflow(C(), s)
      ensures res.Ok? ==> Good(n, pend, lo) && r[op1] == Has(res.value.0) && r[op2] == Has(res.value.1)
    {
      hide Correct, SlotsOk, Overflow, Inv;
      InvSizes(C(), A(), n);
      if r[op1].Has? {
        var right :- AllocBeside(op1, op2, allow, n, pend, lo);
        InvSizes(C(), A(), n);
        return Ok((r[op1].reg, right));
      } else if r[op2].Has? {
        var left :- AllocBeside(op2, op1, allow, n, pend, lo);
        InvSizes(C(), A(), n);
        return Ok((left, r[op2].reg));
      } else if r[op2].Hint? {
        var right :- AllocRef(op2, allow, n, pend, lo);
        var left :- AllocBeside(op2, op1, allow, n, pend, lo);
        return Ok((left, right));
      } else {
        var left :- AllocRef(op1, allow, n, pend, lo);
        var right :- AllocBeside(op1, op2, allow, n, pend, lo);
        return Ok((left, right));
      }
    }

    /** A register for `ref` other than that of `other`. */
    method AllocBeside(other: Ref, ref: Ref, allow: set<Reg>, ghost n: nat, ghost pend: Pending, ghost lo: nat)
      returns (res: Result<Reg, SpillOverflow>)
      requires Good(n, pend, lo) && 0 <= other < n && 0 <= ref < n && r[other].Has? && allow <= t.ClassOf(ir[ref]) && !ir[ref].kind.Effect?
      requires exists a, b :: a in allow && b in allow && a != b
      requires forall x :: x in allow && x in pend && r[other] != Has(x) ==> x in freeset
      modifies this
      ensures res.Err? ==> Overflow(C(), s)
      ensures res.Ok? ==> Good(n, pend, lo) && r[ref] == Has(res.value) && r[other] == old(r[other])
    {
      hide Correct, SlotsOk, Overflow;
      var a, b :| a in allow && b in allow && a != b;
      var taken := r[other].reg;
      assert (if a == taken then b else a) in allow - {taken};
      res := Alloc1(ref, allow - {taken}, n, pend, lo);
    }

    /** The first half of ra_dest: the register of the result, marked free again since
        nothing before the definition needs it. */
    method PickDest(i: Ref, allow: set<Reg>, ghost lo: nat) returns (res: Result<Reg, SpillOverflow>)
      requires nk <= i < |ir| && Good(i + 1, map[], lo) && allow != {} && allow <= t.ClassOf(ir[i])
      modifies this
      ensures res.Err? ==> Overflow(C(), s)
      ensures res.Ok? ==> C().Valid() && Inv(C(), A(), i) && Correct(C(), A(), mcp, i + 1, map[res.value := i], lo)
      ensures res.Ok? ==> res.value in freeset && res.value in t.ClassOf(ir[i])
      ensures res.Ok? && old(r[i].Has?) ==> res.value == old(r[i].reg) && freeset == old(freeset) + {res.value}
      ensures res.Ok? && !old(r[i].Has?) ==> res.value in allow && (allow <= old(freeset) ==> freeset == old(freeset))
    {
      hide Correct, SlotsOk, Overflow;
      if r[i].Has? {
        var dest := r[i].reg;
        DestCorrect(C(), A(), mcp, i, dest, lo, A().(free := freeset + {dest}));
        freeset := freeset + {dest};
        return Ok(dest);
      }
      var dest: Reg;
      if r[i].Hint? && r[i].reg in freeset * allow {
        dest := r[i].reg;
      } else {
        dest :- Pick(allow, i + 1, map[], lo);
      }
      DestCorrect(C(), A(), mcp, i, dest, lo, A().(r := r[i := Has(dest)]));
      r := r[i := Has(dest)];
      return Ok(dest);
    }

    /** ra_dest: pick the result register. A spilled result is stored right away, so from
        here on the slots of refs below `i` are all the emitted code relies on. */
    method Dest(i: Ref, allow: set<Reg>, ghost lo: nat) returns (res: Result<Reg, SpillOverflow>)
      requires nk <= i < |ir| && Good(i + 1, map[], lo) && allow != {} && allow <= t.ClassOf(ir[i])
      modifies this
      ensures res.Err? ==> Overflow(C(), s)
      ensures res.Ok? ==> Good(i, map[res.value := i], lo) && res.value in freeset && res.value in t.ClassOf(ir[i])
      ensures res.Ok? && old(r[i].Has?) ==> res.value == old(r[i].reg) && freeset == old(freeset) + {res.value}
      ensures res.Ok? && !old(r[i].Has?) ==> res.value in allow && (allow <= old(freeset) ==> freeset == old(freeset))
    {
      hide Correct, Overflow, SlotsOk, RegsOk;
      var dest :- PickDest(i, allow, lo);
      SlotsLong(C(), A(), i);
      if s[i] != 0 {
        SaveCorrect(C(), A(), mcp, i, dest, lo);
        mcp := [SpStore(dest, s[i], ir[i].is64)] + mcp;
      } else {
        NoSave(C(), A(), mcp, i, dest, lo);
      }
      return Ok(dest);
    }

    /** ra_destreg: the result is computed into register `x`, and moved if it lives elsewhere. */
    method DestReg(i: Ref, x: Reg, ghost lo: nat) returns (res: Result<(), SpillOverflow>)
      requires nk <= i < |ir| && Good(i + 1, map[], lo) && x in t.ClassOf(ir[i])
      requires x in freeset || r[i] == Has(x)
      modifies this
      ensures res.Err? ==> Overflow(C(), s)
      ensures res.Ok? ==> Good(i, map[x := i], lo) && old(freeset) <= freeset
      ensures res.Ok? ==> freeset == old(freeset) + (if old(r[i].Has?) then {old(r[i].reg)} else {})
    {
      hide Correct, SlotsOk, Overflow;
      var dest :- Dest(i, {x}, lo);
      if dest != x {
        MoveCorrect(C(), A(), mcp, i, map[dest := i], dest, x, map[x := i], lo);
        mcp := [MovRR(dest, x)] + mcp;
      }
      return Ok(());
    }

    /** ra_leftov: operand `ref` goes to register `dest`, either by living there or by a move. */
    method LeftOv(dest: Reg, ref: Ref, ghost n: nat, ghost pend: Pending, ghost lo: nat)
      returns (res: Result<(), SpillOverflow>)
      requires dest in pend && pend[dest] == ref && Good(n, pend, lo) && 0 <= ref < n && !ir[ref].kind.Effect?
      requires dest in t.ClassOf(ir[ref]) && forall x :: x in pend ==> x in freeset
      modifies this
      ensures res.Err? ==> Overflow(C(), s)
      ensures res.Ok? ==> Good(n, pend - {dest}, lo) && old(freeset) - {dest} <= freeset
    {
      hide Correct, SlotsOk, Overflow;
      if r[ref].Has? {
        var left := r[ref].reg;
        MoveCorrect(C(), A(), mcp, n, pend, dest, left, pend - {dest}, lo);
        mcp := [MovRR(dest, left)] + mcp;
      } else {
        ghost var a0 := A();
        r := r[ref := Hint(dest)];
        assert Inv(C(), A(), n);
        Strengthen(C(), a0, mcp, n, pend, lo, A(), n, pend);
        var left :- AllocRef(ref, t.ClassOf(ir[ref]), n, pend, lo);
        Strengthen(C(), A(), mcp, n, pend, lo, A(), n, pend - {dest});
      }
      return Ok(());
    }

    /** An operation without a result, or whose operands go in any register of their class. */
    method AllocOperands(args: seq<Ref>, ghost n: nat, ghost pend: Pending, ghost lo: nat)
      returns (res: Result<seq<Reg>, SpillOverflow>)
      requires Good(n, pend, lo) && |args| <= 2
      requires forall k :: 0 <= k < |args| ==> 0 <= args[k] < n && !ir[args[k]].kind.Effect?
      requires forall x :: x in pend ==> x in freeset
      modifies this
      ensures res.Err? ==> Overflow(C(), s)
      ensures res.Ok? ==> Good(n, pend, lo) && Located(A(), args, res.value)
    {
      hide Correct, SlotsOk, Overflow;
      if |args| == 0 {
        return Ok([]);
      }
      var allow := t.ClassOf(ir[args[0]]);
      if |args| == 1 {
        var x :- Alloc1(args[0], allow, n, pend, lo);
        return Ok([x]);
      }
      if ir[args[0]].fp == ir[args[1]].fp {
        var p :- Alloc2(args[0], args[1], allow, n, pend, lo);
        return Ok([p.0, p.1]);
      }
      var q :- AllocMixed(args[0], args[1], n, pend, lo);
      return Ok([q.0, q.1]);
    }

    /** Two operands of different classes. */
    method AllocMixed(op1: Ref, op2: Ref, ghost n: nat, ghost pend: Pending, ghost lo: nat)
      returns (res: Result<(Reg, Reg), SpillOverflow>)
      requires Good(n, pend, lo) && 0 <= op1 < n && 0 <= op2 < n && ir[op1].fp != ir[op2].fp
      requires !ir[op1].kind.Effect? && !ir[op2].kind.Effect? && forall x :: x in pend ==> x in freeset
      modifies this
      ensures res.Err? ==> Overflow(C(), s)
      ensures res.Ok? ==> Good(n, pend, lo) && r[op1] == Has(res.value.0) && r[op2] == Has(res.value.1)
    {
      hide Correct, SlotsOk, Overflow;
      var x :- Alloc1(op1, t.ClassOf(ir[op1]), n, pend, lo);
      var y :- Alloc1(op2, t.ClassOf(ir[op2]), n, pend, lo);
      return Ok((x, y));
    }

    /** asm_ir for an arithmetic instruction: its result register first, then its operands
        (which may share that register), then the instruction itself. */
    method AsmAlu(i: Ref) returns (res: Result<(), SpillOverflow>)
      requires nk <= i < |ir| && Good(i + 1, map[], i + 1) && ir[i].kind.Alu? && |ir[i].args| <= 2
      modifies this
      ensures res.Err? ==> Overflow(C(), s)
      ensures res.Ok? ==> Good(i, map[], i)
    {
      hide Correct, SlotsOk, Overflow;
      var dest :- Dest(i, t.ClassOf(ir[i]), i + 1);
      var srcs :- AllocOperands(ir[i].args, i, map[dest := i], i + 1);
      AluCorrect(C(), A(), mcp, i, dest, srcs);
      mcp := [AluRR(ir[i].kind.op, dest, srcs)] + mcp;
      return Ok(());
    }

    /** asm_ir for a store or guard: operands only. */
    method AsmEffect(i: Ref) returns (res: Result<(), SpillOverflow>)
      requires nk <= i < |ir| && Good(i + 1, map[], i + 1) && ir[i].kind.Effect? && |ir[i].args| <= 2
      modifies this
      ensures res.Err? ==> Overflow(C(), s)
      ensures res.Ok? ==> Good(i, map[], i)
    {
      hide Overflow, Correct, SlotsOk;
      NoResult(C(), A(), i);
      NoDest(C(), A(), mcp, i);
      var srcs :- AllocOperands(ir[i].args, i, map[], i + 1);
      EffectCorrect(C(), A(), mcp, i, srcs);
      mcp := [EffectR(ir[i].kind.op, srcs)] + mcp;
      return Ok(());
    }

    /** asm_setupresult: all scratch registers are evicted first, except the one the result
        is in; then the result is taken from the return register if it is used. */
    method SetupResult(i: Ref) returns (res: Result<(), SpillOverflow>, ghost pend: Pending)
      requires nk <= i < |ir| && Good(i + 1, map[], i + 1)
      modifies this
      ensures res.Err? ==> Overflow(C(), s)
      ensures res.Ok? ==> Good(i, pend, i + 1) && (pend == map[] || pend == map[t.RetOf(ir[i]) := i])
      ensures res.Ok? ==> t.scratch <= freeset
    {
      hide Overflow, Correct;
      pend := map[];
      res := EvictScratch(i);
      if res.Err? {
        return;
      }
      if r[i].Has? || s[i] != 0 {
        res := DestReg(i, t.RetOf(ir[i]), i + 1);
        pend := map[t.RetOf(ir[i]) := i];
      } else {
        NoDest(C(), A(), mcp, i);
      }
    }

    method EvictScratch(i: Ref) returns (res: Result<(), SpillOverflow>)
      requires nk <= i < |ir| && Good(i + 1, map[], i + 1)
      modifies this
      ensures res.Err? ==> Overflow(C(), s)
      ensures res.Ok? ==> Good(i + 1, map[], i + 1)
      ensures res.Ok? ==> forall x :: x in t.scratch && x !in freeset ==> r[i] == Has(x)
    {
      hide Correct, SlotsOk, Overflow;
      res := EvictSet(if r[i].Has? then t.scratch - {r[i].reg} else t.scratch, i + 1, map[], i + 1);
    }

    /** asm_gencall with register arguments: the call, then its arguments put into their
        registers, first to last in emission order. */
    method GenCall(i: Ref, ghost pend: Pending) returns (res: Result<(), SpillOverflow>)
      requires nk <= i < |ir| && ir[i].kind.Call? && ArgsFit(t, ir, ir[i].args, 0, 0)
      requires Good(i, pend, i + 1) && (pend == map[] || pend == map[t.RetOf(ir[i]) := i]) && t.scratch <= freeset
      modifies this
      ensures res.Err? ==> Overflow(C(), s)
      ensures res.Ok? ==> Good(i, map[], i)
    {
      hide Correct, SlotsOk, RegsOk, Overflow, Demands, DemandsFrom, ArgsReady, ArgRegs, ArgsFit;
      var args := ir[i].args;
      var regs := ArgRegs(t, ir, args, 0, 0);
      ghost var p := ArgsPending(C(), i, freeset);
      EmitCall(i, regs, pend, p);
      res := SetupArgs(i, args, regs, p);
    }

    /** The call itself, which demands its arguments. */
    method EmitCall(i: Ref, regs: seq<Reg>, ghost pend: Pending, ghost p: Pending)
      requires nk <= i < |ir| && ir[i].kind.Call? && Good(i, pend, i + 1) && t.scratch <= freeset
      requires (pend == map[] || pend == map[t.RetOf(ir[i]) := i]) && Demands(p, regs, ir[i].args, t.scratch)
      requires ArgsFit(t, ir, ir[i].args, 0, 0) && regs == ArgRegs(t, ir, ir[i].args, 0, 0)
      modifies this`mcp
      ensures Good(i, p, i)
    {
      hide Correct, SlotsOk, RegsOk, Demands, StandsFor, ArgsFit, ArgRegs;
      ArgsStand(C(), i);
      var ins := CallR(ir[i].kind.op, t.RetOf(ir[i]), regs, t.scratch);
      CallCorrect(C(), A(), mcp, i, pend, p, regs, ins);
      mcp := [ins] + mcp;
    }

    /** The argument loop of asm_gencall. */
    method SetupArgs(i: Ref, args: seq<Ref>, regs: seq<Reg>, ghost pend: Pending) returns (res: Result<(), SpillOverflow>)
      requires nk <= i < |ir| && Good(i, pend, i) && ArgsReady(t, ir, args, regs, i, freeset) && DemandsFrom(pend, regs, args, 0)
      modifies this
      ensures res.Err? ==> Overflow(C(), s)
      ensures res.Ok? ==> Good(i, map[], i)
    {
      hide Correct, SlotsOk, Overflow, Inv;
      ghost var p := pend;
      for k := 0 to |args|
        invariant Good(i, p, i)
        invariant DemandsFrom(p, regs, args, k)
        invariant forall j :: k <= j < |args| ==> regs[j] in freeset
      {
        DropDemand(p, regs, args, k);
        var _ :- LeftOv(regs[k], args[k], i, p, i);
        p := p - {regs[k]};
      }
      return Ok(());
    }

    /** The loop of lj_asm_trace: all instructions down to ref `stop`, in reverse, skipping
        those whose result nothing needs when dead-code elimination is on. Afterwards no
        register holds a constant. */
    method AssembleFrom(stop: nat, dce: bool) returns (res: Result<(), SpillOverflow>)
      requires Good(|ir|, map[], |ir|) && nk <= stop <= |ir| && Supported(t, ir) && (dce ==> !every)
      modifies this
      ensures res.Err? ==> Overflow(C(), s)
      ensures res.Ok? ==> Good(stop, map[], stop)
      ensures res.Ok? ==> forall x :: x in t.All() && x !in freeset ==> nk <= cost[x] < stop
    {
      hide Correct, Overflow;
      var curins := |ir|;
      while curins > stop
        invariant stop <= curins <= |ir| && Good(curins, map[], curins)
      {
        curins := curins - 1;
        if !r[curins].Has? && s[curins] == 0 && !ir[curins].SideEffect() && dce {
          SkipDead(C(), A(), mcp, curins);
        } else {
          var _ :- AsmIr(curins);
        }
      }
      EvictK(stop, stop);
      return Ok(());
    }

    /** asm_ir: dispatch on the instruction. */
    method AsmIr(i: Ref) returns (res: Result<(), SpillOverflow>)
      requires nk <= i < |ir| && Good(i + 1, map[], i + 1) && Supported(t, ir)
      modifies this
      ensures res.Err? ==> Overflow(C(), s)
      ensures res.Ok? ==> Good(i, map[], i)
    {
      hide Correct, SlotsOk, Overflow;
      match ir[i].kind
      case Alu(_) => res := AsmAlu(i);
      case Effect(_) => res := AsmEffect(i);
      case Call(_) =>
        ghost var pend: Pending;
        res, pend := SetupResult(i);
        if res.Ok? {
          res := GenCall(i, pend);
        }
    }

    /** lj_asm_trace for a root trace. The machine code can be executed and computes exactly the
        events of the program, whatever is in the registers and spill cells at entry; without
        dead-code elimination it has every instruction. The result is the
        outcome of the final check that every register has become free again, which
        cannot fail. */
    method AssembleRoot(dce: bool) returns (res: Result<bool, SpillOverflow>)
      requires Good(|ir|, map[], |ir|) && Supported(t, ir) && (dce ==> !every)
      modifies this
      ensures res.Err? ==> Overflow(C(), s)
      ensures res.Ok? ==> res.value && forall m :: Run(sem, mcp, m).out == m.out + Events(ir, vals, nk)
      ensures res.Ok? ==> SlotsOk(C(), s, evenspill, oddspill) && Legal(C(), mcp, nk)
    {
      hide Overflow;
      var _ :- AssembleFrom(nk, dce);
      forall m ensures Run(sem, mcp, m).out == m.out + Events(ir, vals, nk) {
        assert Holds(C(), A(), nk, map[], m);
      }
      return Ok(freeset == t.All());
    }
  }

  /** Only registers inside `set` were given up between two snapshots; nothing was taken. */
  ghost predicate Outside(a0: Alloc, a1: Alloc, inside: set<Reg>) {
    a1.cost == a0.cost && a0.free <= a1.free <= a0.free + inside && |a1.r| == |a0.r|
    && (forall j :: 0 <= j < |a0.r| && a0.r[j].Has? && a0.r[j].reg !in inside ==> a1.r[j] == a0.r[j])
    && (forall j :: 0 <= j < |a0.r| && !a0.r[j].Has? ==> a1.r[j] == a0.r[j])
    && |a1.s| == |a0.s| && (forall j :: 0 <= j < |a0.r| && j < |a0.s| && !a0.r[j].Has? ==> a1.s[j] == a0.s[j])
  }

  lemma OutsideSelf(a: Alloc, inside: set<Reg>)
    ensures Outside(a, a, inside)
  {
  }

  /** One register is given up. */
  lemma GaveUpOutside(a0: Alloc, a1: Alloc, ref: Ref, x: Reg, inside: set<Reg>, k: Ref)
    requires GaveUp(a0, a1, ref) && a0.r[ref] == Has(x) && x in inside
    ensures Outside(a0, a1, inside) && x in a1.free && (0 <= k < |a0.r| && !a0.r[k].Has? ==> !a1.r[k].Has?)
  {
  }

  lemma TakenOutside(a0: Alloc, a1: Alloc, a2: Alloc, inside: set<Reg>, ref: Ref, x: Reg)
    requires Outside(a0, a1, inside) && 0 <= ref < |a1.r| && x in inside && a2 == a1.(r := a1.r[ref := Has(x)], free := a1.free - {x}, cost := a2.cost)
    ensures OutsideBut(a0, a2, inside, ref) && a0.free - {x} <= a2.free
  {
  }

  /** Only `ref` and registers of `inside` are affected. */
  ghost predicate OutsideBut(a0: Alloc, a1: Alloc, inside: set<Reg>, ref: Ref) {
    |a1.r| == |a0.r|
    && (forall x :: x !in inside ==> (x in a1.free <==> x in a0.free))
    && (forall j :: 0 <= j < |a0.r| && j != ref && a0.r[j].Has? && a0.r[j].reg !in inside ==> a1.r[j] == a0.r[j])
    && (forall j :: 0 <= j < |a0.r| && j != ref && !a0.r[j].Has? ==> a1.r[j] == a0.r[j])
  }
}