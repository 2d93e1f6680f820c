/** The two languages the trace assembler translates between: straight-line SSA
    instructions, and machine instructions over registers and 32-bit spill cells.
    `Values` and `Run` give each of them a meaning. */
module TraceIr {

  type Ref = int
  newtype Reg = x: int | 0 <= x

  // ---------------------------------------------------------------- SSA side

  /** What an instruction does. `Alu` has a result and no side effect, `Effect` the
      reverse, and `Call` has a side effect and a result that may be unused. */
  datatype Kind = Constant(k: int) | Alu(op: nat) | Effect(op: nat) | Call(op: nat)

  datatype Ins = Ins(kind: Kind, args: seq<Ref>, is64: bool, fp: bool) {
    predicate SideEffect() { kind.Effect? || kind.Call? }
  }

  /** The observable side effect of one instruction: the operation and its operands. */
  datatype Event = Event(op: nat, operands: seq<int>)

  /** Everything the target leaves open: what an operation computes, and what a call
      leaves behind in a register it clobbers. */
  datatype Semantics = Semantics(f: (nat, seq<int>) -> int, junk: (Machine, Reg) -> int)

  /** Operands are earlier refs with a result; constants fill exactly the first `nk` refs. */
  ghost predicate WellFormed(ir: seq<Ins>, nk: nat)
  {
    nk <= |ir|
    && (forall i :: 0 <= i < |ir| ==> (ir[i].kind.Constant? <==> i < nk))
    && (forall i, k :: 0 <= i < |ir| && 0 <= k < |ir[i].args| ==>
          0 <= ir[i].args[k] < i && !ir[ir[i].args[k]].kind.Effect?)
  }

  function Operands(args: seq<Ref>, vals: seq<int>): (v: seq<int>)
    ensures |v| == |args|
  {
    seq(|args|, k requires 0 <= k < |args| => if 0 <= args[k] < |vals| then vals[args[k]] else 0)
  }

  function Eval(sem: Semantics, ins: Ins, vals: seq<int>): int {
    match ins.kind
    case Constant(k) => k
    case Alu(op) => sem.f(op, Operands(ins.args, vals))
    case Effect(op) => 0
    case Call(op) => sem.f(op, Operands(ins.args, vals))
  }

  /** The values of all refs, computed first to last. */
  ghost function Values(sem: Semantics, ir: seq<Ins>): (vals: seq<int>)
    ensures |vals| == |ir|
  {
    if ir == [] then [] else
      var before := Values(sem, ir[..|ir| - 1]);
      before + [Eval(sem, ir[|ir| - 1], before)]
  }

  /** The events of the instructions from `lo` on, in program order. */
  ghost function Events(ir: seq<Ins>, vals: seq<int>, lo: nat): seq<Event>
    requires lo <= |ir|
    decreases |ir| - lo
  {
    if lo == |ir| then []
    else EventOf(ir[lo], vals) + Events(ir, vals, lo + 1)
  }

  ghost function EventOf(ins: Ins, vals: seq<int>): seq<Event> {
    if ins.SideEffect() then [Event(ins.kind.op, Operands(ins.args, vals))] else []
  }

  /** Values is the solution of the SSA equations: each ref's value is its own
      operation applied to the values its operands have in the whole program. */
  lemma {:induction false} ValuesSolveSsa(sem: Semantics, ir: seq<Ins>, nk: nat, i: Ref)
    requires WellFormed(ir, nk) && 0 <= i < |ir|
    ensures Values(sem, ir)[i] == Eval(sem, ir[i], Values(sem, ir))
  {
    var n := |ir| - 1;
    var before := Values(sem, ir[..n]);
    assert Operands(ir[i].args, before[..i]) == Operands(ir[i].args, Values(sem, ir));
    if i == n {
      assert before[..i] == before;
    } else {
      assert WellFormed(ir[..n], if nk <= n then nk else n) by {
        assert forall j :: 0 <= j < n ==> ir[..n][j] == ir[j];
      }
      ValuesSolveSsa(sem, ir[..n], if nk <= n then nk else n, i);
      assert ir[..n][i] == ir[i];
      assert Operands(ir[i].args, before) == Operands(ir[i].args, Values(sem, ir));
    }
  }

  // ------------------------------------------------------------ machine side

  /** A 32-bit spill cell: a 32-bit value, or one half of a 64-bit value. */
  datatype Cell = Word(v: int) | Lo(v: int) | Hi(v: int)

  datatype Machine = Machine(regs: map<Reg, int>, stack: map<int, Cell>, out: seq<Event>) {
    function Get(r: Reg): int { if r in regs then regs[r] else 0 }

    /** Cell `slot` holds `v` (with its upper half in the next cell when 64 bits wide). */
    predicate SlotHolds(slot: int, is64: bool, v: int) {
      if is64 then slot in stack && stack[slot] == Lo(v) && slot + 1 in stack && stack[slot + 1] == Hi(v)
      else slot in stack && stack[slot] == Word(v)
    }

    function Load(slot: int, is64: bool): int {
      if is64 then
        if slot in stack && stack[slot].Lo? && slot + 1 in stack && stack[slot + 1] == Hi(stack[slot].v)
        then stack[slot].v else 0
      else if slot in stack && stack[slot].Word? then stack[slot].v else 0
    }

    function Set(r: Reg, v: int): Machine { this.(regs := regs[r := v]) }

    function Store(slot: int, is64: bool, v: int): Machine {
      this.(stack := if is64 then stack[slot := Lo(v)][slot + 1 := Hi(v)] else stack[slot := Word(v)])
    }
  }

  /** Machine instructions, named after the emit_* calls that produce them. */
  datatype MIns =
    | LoadI(dest: Reg, k: int)
    | SpLoad(dest: Reg, slot: int, is64: bool)
    | SpStore(src: Reg, slot: int, is64: bool)
    | MovRR(dest: Reg, src: Reg)
    | AluRR(op: nat, dest: Reg, srcs: seq<Reg>)
    | EffectR(op: nat, srcs: seq<Reg>)
    | CallR(op: nat, ret: Reg, srcs: seq<Reg>, clobber: set<Reg>)

  function ReadAll(m: Machine, srcs: seq<Reg>): (v: seq<int>)
    ensures |v| == |srcs|
  {
    seq(|srcs|, k requires 0 <= k < |srcs| => m.Get(srcs[k]))
  }

  function Step(sem: Semantics, ins: MIns, m: Machine): Machine {
    match ins
    case LoadI(d, k) => m.Set(d, k)
    case SpLoad(d, slot, is64) => m.Set(d, m.Load(slot, is64))
    case SpStore(s, slot, is64) => m.Store(slot, is64, m.Get(s))
    case MovRR(d, s) => m.Set(d, m.Get(s))
    case AluRR(op, d, srcs) => m.Set(d, sem.f(op, ReadAll(m, srcs)))
    case EffectR(op, srcs) => m.(out := m.out + [Event(op, ReadAll(m, srcs))])
    case CallR(op, ret, srcs, clobber) =>
      var after := map r | r in m.regs.Keys + clobber :: if r in clobber then sem.junk(m, r) else m.regs[r];
      Machine(after[ret := sem.f(op, ReadAll(m, srcs))], m.stack, m.out + [Event(op, ReadAll(m, srcs))])
  }

  function Run(sem: Semantics, code: seq<MIns>, m: Machine): Machine {
    if code == [] then m else Run(sem, code[1..], Step(sem, code[0], m))
  }

  /** Emitting in front of existing code makes the new instruction run first. */
  lemma RunFront(sem: Semantics, ins: MIns, code: seq<MIns>, m: Machine)
    ensures Run(sem, [ins] + code, m) == Run(sem, code, Step(sem, ins, m))
  {
    assert ([ins] + code)[1..] == code;
  }
}
