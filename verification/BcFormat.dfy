/** The bytecode dump format (lj_bcdump.h): prototypes, their constants, and their encoding. */
module BcFormat {
  import opened Wrappers
  import opened ByteStrings
  import opened Leb128

  // ---------------------------------------------------------------------- prototypes

  /** A constant: a primitive, an integer (its 32 bits), a number (its two words), a string. */
  datatype Tv = Nil | False | True | IntV(k: nat) | NumV(lo: nat, hi: nat) | Str(s: Bytes)

  datatype Node = Node(key: Tv, val: Tv)

  /** A template table: array part and hash nodes; nodes with a nil value are unused. */
  datatype Table = Table(arr: seq<Tv>, nodes: seq<Node>)

  datatype Gc = Child(pt: Proto) | Tab(t: Table) | KStr(s: Bytes)

  /** An instruction: opcode and three operand bytes, as they lie in memory. */
  datatype Ins = Ins(op: Byte, a: Byte, c: Byte, b: Byte)

  datatype Debug = Debug(firstline: nat, numline: nat, block: Bytes)

  /** `bc` is without the function header, which the reader makes up; `trace` says that a trace
      starts at the function. */
  datatype Proto = Proto(flags: Byte, numparams: Byte, framesize: Byte, uv: Bytes, bc: seq<Ins>, kgc: seq<Gc>, knum: seq<Tv>,
                         debug: Option<Debug>, trace: bool)

  /** The runtime: whether integers are a type of their own; if not, which numbers are integers
      and what an integer is as a number. `startins` gives the instruction a trace replaced. */
  datatype Config = Config(dual: bool, asInt: (nat, nat) -> Option<nat>, fromInt: nat -> (nat, nat), startins: int -> Ins, strip: bool)

  ghost predicate ConfigOk(cfg: Config) {
    forall lo: nat, hi: nat :: cfg.asInt(lo, hi).Some? ==>
      cfg.asInt(lo, hi).value < WORD && cfg.fromInt(cfg.asInt(lo, hi).value) == (lo, hi)
  }

  /** The largest buffer. */
  const MAX_BUF := 0x7fff_ff00

  const PROTO_CHILD := 1
  const PROTO_ILOOP := 16

  predicate HasFlag(flags: Byte, f: int)
    requires f > 0
  {
    flags as int / f % 2 == 1
  }

  predicate ValidTv(cfg: Config, v: Tv) {
    match v
    case IntV(k) => cfg.dual && k < WORD
    case NumV(lo, hi) => lo < WORD && hi < WORD
    case Str(s) => |s| + 5 < WORD
    case _ => true
  }

  predicate IsNumber(v: Tv) { v.IntV? || v.NumV? }

  predicate ValidTable(cfg: Config, t: Table) {
    |t.arr| < WORD && |t.nodes| < WORD && ValidTvs(cfg, t.arr) && ValidNodes(cfg, t.nodes)
  }

  predicate ValidGc(cfg: Config, g: Gc) {
    match g
    case Child(_) => true
    case Tab(t) => ValidTable(cfg, t)
    case KStr(s) => |s| + 5 < WORD
  }

  predicate ValidGcs(cfg: Config, gs: seq<Gc>) {
    forall i :: 0 <= i < |gs| ==> ValidGc(cfg, gs[i])
  }

  predicate ValidNums(cfg: Config, vs: seq<Tv>) {
    forall i :: 0 <= i < |vs| ==> ValidTv(cfg, vs[i]) && IsNumber(vs[i])
  }

  predicate ValidTvs(cfg: Config, vs: seq<Tv>) {
    forall i :: 0 <= i < |vs| ==> ValidTv(cfg, vs[i])
  }

  predicate ValidNodes(cfg: Config, ns: seq<Node>) {
    forall i :: 0 <= i < |ns| ==> ValidTv(cfg, ns[i].key) && ValidTv(cfg, ns[i].val)
  }

  predicate ValidDebug(p: Proto) {
    p.debug.Some? ==> 0 < |p.debug.value.block| < WORD && p.debug.value.firstline < WORD && p.debug.value.numline < WORD
  }

  /** A prototype with children has the flag that says so. */
  predicate ChildrenFlagged(p: Proto) {
    !HasFlag(p.flags, PROTO_CHILD) ==> forall i :: 0 <= i < |p.kgc| ==> !p.kgc[i].Child?
  }

  /** One prototype, apart from its children. */
  predicate ValidHere(cfg: Config, p: Proto) {
    |p.uv| % 2 == 0 && |p.uv| < 512 && |p.bc| < WORD && |p.kgc| < WORD && |p.knum| < WORD
    && ValidGcs(cfg, p.kgc) && ChildrenFlagged(p) && ValidNums(cfg, p.knum) && ValidDebug(p)
    && |EncProto(cfg, p)| <= MAX_BUF
  }

  predicate Valid(cfg: Config, p: Proto) {
    ValidHere(cfg, p) && forall i :: 0 <= i < |p.kgc| && p.kgc[i].Child? ==> Valid(cfg, p.kgc[i].pt)
  }

  // ------------------------------------------------------------------------ constants

  /** A key or value of a template table; values are narrowed to integers where possible. */
  function EncTv(cfg: Config, v: Tv, narrow: bool): Bytes {
    match v
    case Nil => [0]
    case False => [1]
    case True => [2]
    case IntV(k) => [3] + Uleb(k)
    case NumV(lo, hi) =>
      if !cfg.dual && narrow && cfg.asInt(lo, hi).Some? then [3] + Uleb(cfg.asInt(lo, hi).value)
      else [4] + Uleb(lo) + Uleb(hi)
    case Str(s) => Uleb(5 + |s|) + s
  }

  function EncTvs(cfg: Config, vs: seq<Tv>, i: nat): Bytes
    decreases |vs| - i
  {
    if i >= |vs| then [] else EncTv(cfg, vs[i], true) + EncTvs(cfg, vs, i + 1)
  }

  function EncNode(cfg: Config, n: Node): Bytes { EncTv(cfg, n.key, false) + EncTv(cfg, n.val, true) }

  function EncNodes(cfg: Config, ns: seq<Node>, i: nat): Bytes
    decreases |ns| - i
  {
    if i >= |ns| then [] else EncNode(cfg, ns[i]) + EncNodes(cfg, ns, i + 1)
  }

  /** The array part up to the last slot that is not nil. */
  function Trimmed(arr: seq<Tv>): (r: seq<Tv>)
    ensures r <= arr
  {
    if arr == [] then [] else if arr[|arr| - 1] == Nil then Trimmed(arr[..|arr| - 1]) else arr
  }

  /** The used nodes, the last first. */
  function Used(nodes: seq<Node>): (r: seq<Node>)
    ensures |r| <= |nodes|
  {
    if nodes == [] then []
    else (if nodes[|nodes| - 1].val == Nil then [] else [nodes[|nodes| - 1]]) + Used(nodes[..|nodes| - 1])
  }

  function EncTable(cfg: Config, t: Table): Bytes {
    Uleb(|Trimmed(t.arr)|) + (Uleb(|Used(t.nodes)|) + (EncTvs(cfg, Trimmed(t.arr), 0) + EncNodes(cfg, Used(t.nodes), 0)))
  }

  /** Children are only marked; they come before. */
  function EncGc(cfg: Config, g: Gc): Bytes {
    match g
    case Child(_) => Uleb(0)
    case Tab(t) => Uleb(1) + EncTable(cfg, t)
    case KStr(s) => Uleb(5 + |s|) + s
  }

  function EncGcs(cfg: Config, gs: seq<Gc>, i: nat): Bytes
    decreases |gs| - i
  {
    if i >= |gs| then [] else EncGc(cfg, gs[i]) + EncGcs(cfg, gs, i + 1)
  }

  /** A number constant: an integer in 33 bits with tag 0, or the low word with tag 1 and the
      high word. */
  function EncNum(cfg: Config, v: Tv): Bytes {
    match v
    case IntV(k) => Uleb(2 * k)
    case NumV(lo, hi) =>
      if !cfg.dual && cfg.asInt(lo, hi).Some? then Uleb(2 * cfg.asInt(lo, hi).value) else Uleb(2 * lo + 1) + Uleb(hi)
    case _ => []
  }

  function EncNums(cfg: Config, vs: seq<Tv>, i: nat): Bytes
    decreases |vs| - i
  {
    if i >= |vs| then [] else EncNum(cfg, vs[i]) + EncNums(cfg, vs, i + 1)
  }

  /** The types of constants as they are written (BCDUMP_KTAB_* and BCDUMP_KGC_*). */
  lemma TypeLaw(cfg: Config, v: Tv, g: Gc)
    ensures var e := EncTv(cfg, v, false);
      e[0] == match v case Nil => 0 case False => 1 case True => 2 case IntV(_) => 3 case NumV(_, _) => 4 case Str(s) => Uleb(5 + |s|)[0]
    ensures EncGc(cfg, g)[0] == match g case Child(_) => 0 case Tab(_) => 1 case KStr(s) => Uleb(5 + |s|)[0]
    ensures v.Str? ==> EncTv(cfg, v, false)[|Uleb(5 + |v.s|)|..] == v.s
  {
  }

  // ------------------------------------------------------------------------- bytecode

  const FORI := 77
  const JFORI := 78
  const FORL := 79
  const IFORL := 80
  const JFORL := 81
  const ITERL := 82
  const IITERL := 83
  const JITERL := 84
  const LOOP := 85
  const ILOOP := 86
  const JLOOP := 87

  /** Undo the patching of loop instructions: a disabled loop gets its plain opcode back, and a
      loop replaced by a trace gets the instruction the trace started with. */
  function Unpatch(cfg: Config, i: Ins): Ins {
    var op := i.op as int;
    if op == IFORL || op == IITERL || op == ILOOP || op == JFORI then i.(op := (op - IFORL + FORL) as Byte)
    else if op == JFORL || op == JITERL || op == JLOOP then
      var start := cfg.startins(i.c as int + i.b as int * 256);
      i.(op := (op - JFORL + FORL) as Byte, c := start.c, b := start.b)
    else i
  }

  /** `j` is how the virtual machine may have patched loop instruction `i`. */
  predicate PatchOf(cfg: Config, i: Ins, j: Ins) {
    var op := i.op as int;
    || (op in {FORI, FORL, ITERL, LOOP} && j == i.(op := (op + 1) as Byte))
    || (op in {FORL, ITERL, LOOP} && j.op as int == op + 2 && j.a == i.a && cfg.startins(j.c as int + j.b as int * 256) == i)
    || (j == i && op !in {JFORI, IFORL, JFORL, IITERL, JITERL, ILOOP, JLOOP})
  }

  /** Unpatching gives the original instruction, however it was patched. */
  lemma UnpatchRestores(cfg: Config, i: Ins, j: Ins)
    requires PatchOf(cfg, i, j)
    ensures Unpatch(cfg, j) == i
  {
  }

  function EncIns(i: Ins): Bytes { [i.op, i.a, i.c, i.b] }

  function EncBc(bc: seq<Ins>, i: nat): (e: Bytes)
    ensures i <= |bc| ==> |e| == 4 * (|bc| - i)
    decreases |bc| - i
  {
    if i >= |bc| then [] else EncIns(bc[i]) + EncBc(bc, i + 1)
  }

  /** The bytecode as it is written. */
  function WrittenBc(cfg: Config, p: Proto): (bc: seq<Ins>)
    ensures |bc| == |p.bc|
  {
    if HasFlag(p.flags, PROTO_ILOOP) || p.trace then seq(|p.bc|, i requires 0 <= i < |p.bc| => Unpatch(cfg, p.bc[i])) else p.bc
  }

  // ----------------------------------------------------------------------- prototypes

  function DebugSize(p: Proto): nat { if p.debug.Some? then |p.debug.value.block| else 0 }

  function EncDebugHead(cfg: Config, p: Proto): Bytes {
    if cfg.strip then []
    else Uleb(DebugSize(p)) + if DebugSize(p) > 0 then Uleb(p.debug.value.firstline) + Uleb(p.debug.value.numline) else []
  }

  function EncDebug(cfg: Config, p: Proto): Bytes {
    if !cfg.strip && p.debug.Some? then p.debug.value.block else []
  }

  /** The flags that are written: child, vararg and FFI. */
  function KeptFlags(flags: Byte): Byte { (flags as int % 8) as Byte }

  function EncSizes(cfg: Config, p: Proto): Bytes {
    [KeptFlags(p.flags), p.numparams, p.framesize, (|p.uv| / 2 % 256) as Byte]
  }

  function EncProto(cfg: Config, p: Proto): Bytes {
    EncSizes(cfg, p) + (Uleb(|p.kgc|) + (Uleb(|p.knum|) + (Uleb(|p.bc|) + (EncDebugHead(cfg, p) +
    (EncBc(WrittenBc(cfg, p), 0) + (p.uv + (EncGcs(cfg, p.kgc, 0) + (EncNums(cfg, p.knum, 0) + EncDebug(cfg, p)))))))))
  }

  /** A prototype with its length. */
  function Framed(cfg: Config, p: Proto): Bytes { Uleb(|EncProto(cfg, p)|) + EncProto(cfg, p) }

  // ----------------------------------------------------------------------- the tree

  /** The prototypes of a tree in the order they are written: the children of a prototype before
      it, the last child first. */
  function Order(p: Proto): seq<Proto> { OrderFrom(p, 0) + [p] }

  /** Those below the constants from `i` on. */
  function OrderFrom(p: Proto, i: nat): seq<Proto>
    decreases p, |p.kgc| - i
  {
    if i >= |p.kgc| then []
    else OrderFrom(p, i + 1) + if p.kgc[i].Child? then Order(p.kgc[i].pt) else []
  }

  function FramedAll(cfg: Config, ps: seq<Proto>): Bytes {
    if ps == [] then [] else FramedAll(cfg, ps[..|ps| - 1]) + Framed(cfg, ps[|ps| - 1])
  }

  lemma {:induction false} FramedConcat(cfg: Config, ps: seq<Proto>, qs: seq<Proto>)
    ensures FramedAll(cfg, ps + qs) == FramedAll(cfg, ps) + FramedAll(cfg, qs)
    decreases |qs|
  {
    hide Framed;
    if qs == [] {
      assert ps + qs == ps;
      assert FramedAll(cfg, ps) + [] == FramedAll(cfg, ps);
    } else {
      var front, last := qs[..|qs| - 1], Framed(cfg, qs[|qs| - 1]);
      assert (ps + qs)[..|ps + qs| - 1] == ps + front;
      FramedConcat(cfg, ps, front);
      assert (FramedAll(cfg, ps) + FramedAll(cfg, front)) + last == FramedAll(cfg, ps) + (FramedAll(cfg, front) + last);
    }
  }
}
