/** Pass 3 of the DynASM x86 encoder (dasm_encode): what it must emit, and the loops that
    emit it. */
module DasmEncode {
  import opened Wrappers
  import opened DasmChains
  import opened DasmLabels
  import opened DasmPut
  import opened DasmLink
  import opened DasmShrink

  // ------------------------------------------------------------------- machine code

  const WORD := 0x1_0000_0000

  /** The low `k` bytes of a number, least significant first. */
  function Le(n: int, k: nat): (r: seq<int>)
    ensures |r| == k
    decreases k
  {
    if k == 0 then [] else [n % 256] + Le(n / 256, k - 1)
  }

  function Signed8(x: int): int { if x < 128 then x else x - 256 }

  function Word(s: seq<int>, i: nat): int
    requires i + 4 <= |s|
  {
    s[i] + 256 * s[i + 1] + 65536 * s[i + 2] + 16777216 * s[i + 3]
  }

  lemma WordOfLe(n: int, s: seq<int>, i: nat)
    requires i + 4 <= |s| && s[i..i + 4] == Le(n, 4)
    ensures Word(s, i) == n % WORD
  {
    var t := s[i..i + 4];
    var n1, n2, n3 := n / 256, n / 256 / 256, n / 256 / 256 / 256;
    assert t[1..] == Le(n1, 3);
    assert t[2..] == t[1..][1..] == Le(n2, 2);
    assert t[3..] == t[2..][1..] == Le(n3, 1);
    assert s[i] == t[0] && s[i + 1] == t[1] == t[1..][0] && s[i + 2] == t[2] == t[2..][0] && s[i + 3] == t[3] == t[3..][0];
    Digits(n, n1, n2, n3, n3 / 256);
  }

  lemma Digits(n: int, n1: int, n2: int, n3: int, q: int)
    requires n1 == n / 256 && n2 == n1 / 256 && n3 == n2 / 256 && q == n3 / 256
    ensures n % 256 + 256 * (n1 % 256) + 65536 * (n2 % 256) + 16777216 * (n3 % 256) == n % WORD
  {
    ModOffset(q, WORD, n % 256 + 256 * (n1 % 256) + 65536 * (n2 % 256) + 16777216 * (n3 % 256));
  }

  /** A decoded branch: which one, its length, and its displacement from its end. */
  datatype Decoded = Decoded(br: Branch, len: int, disp: int)

  /** The JMP, Jcc and CALL forms with relative displacements, as the processor reads them.
      A 32-bit displacement counts modulo 2^32. */
  function Decode(code: seq<int>): Option<Decoded> {
    if |code| >= 2 && code[0] == 0xeb then Some(Decoded(Jmp, 2, Signed8(code[1])))
    else if |code| >= 2 && 0x70 <= code[0] <= 0x7f then Some(Decoded(Jcc(code[0] - 0x70), 2, Signed8(code[1])))
    else if |code| >= 5 && code[0] == 0xe9 then Some(Decoded(Jmp, 5, Word(code, 1)))
    else if |code| >= 5 && code[0] == 0xe8 then Some(Decoded(Call, 5, Word(code, 1)))
    else if |code| >= 6 && code[0] == 0x0f && 0x80 <= code[1] <= 0x8f then Some(Decoded(Jcc(code[1] - 0x80), 6, Word(code, 2)))
    else None
  }

  // ------------------------------------------------------------ what has to be emitted

  /** A linked program: its items, targets, addresses and links, and where it is loaded. */
  datatype Plan = Plan(al: seq<Action>, ofs: seq<int>, items: seq<Item>, tg: seq<int>, f: seq<int>, links: seq<int>, base: int)

  ghost predicate PlanOk(pl: Plan) {
    Program(pl.al, pl.ofs, pl.items) && Layout(pl.al, pl.ofs, pl.items, pl.tg, pl.f) && |pl.f| == |pl.items| + 1
    && |pl.links| == |pl.items|
    && forall i :: 0 <= i < |pl.items| && ActionOf(pl.al, pl.items[i]).Rel? ==>
         if pl.links[i] < 0 then pl.tg[i] == -1 else LabelItem(pl.al, pl.items, pl.links[i], pl.tg[i])
  }

  ghost function ActionAt(pl: Plan, i: nat): Action
    requires i < |pl.items|
  {
    ActionOf(pl.al, pl.items[i])
  }

  function Opcode(br: Branch): seq<int> {
    match br case Jmp => [0xe9] case Jcc(cc) => [0x0f, 0x80 + cc] case Call => [0xe8]
  }

  /** Address `n` of the array of globals, which has a bias of 10. */
  function GlobalOf(gl: seq<int>, n: int): int {
    if 10 <= n < |gl| + 10 then gl[n - 10] else 0
  }

  /** The code of an action: `arg` is its stored argument, `pad` the space it fills, `saved` and
      `disp` are for branches. */
  function ActionCode(a: Action, arg: int, saved: int, disp: int, pad: int): seq<int> {
    match a
    case Byte(v) => [v % 256]
    case Imm(k) => ImmCode(k, arg)
    case Space(fill) => Times(arg, fill % 256)
    case Rel(br, _) => BranchCode(br, saved, disp)
    case Align(mask) => Times(pad, 0x90)
    case _ => []
  }

  /** The code of an item; `gl` are the global addresses at that point. */
  ghost function ItemCode(pl: Plan, gl: seq<int>, i: nat): seq<int>
    requires PlanOk(pl) && i < |pl.items|
  {
    ActionCode(ActionAt(pl, i), pl.items[i].e.arg, Saved(pl.al, pl.ofs, pl.items, pl.tg, pl.f, i), BranchDisp(pl, gl, i),
               pl.f[i + 1] - pl.f[i])
  }

  function ImmCode(k: ImmKind, n: int): seq<int> {
    match k case ImmW => Le(n, 2) case ImmD => Le(n, 4) case _ => [n % 256]
  }

  function Times(n: int, v: int): seq<int> {
    seq(if n > 0 then n else 0, _ => v)
  }

  /** The displacement: to the label's final address, or to the outside global. */
  ghost function BranchDisp(pl: Plan, gl: seq<int>, i: nat): int
    requires PlanOk(pl) && i < |pl.items|
  {
    (if pl.tg[i] >= 0 then pl.f[pl.tg[i]] else GlobalOf(gl, -pl.links[i]) - pl.base) - pl.f[i + 1]
  }

  function BranchCode(br: Branch, saved: int, disp: int): seq<int> {
    if saved == 0 then Opcode(br) + Le(disp, 4)
    else [if br.Jcc? then 0x70 + br.cc else 0xeb, disp % 256]
  }

  /** The globals after the first `i` items: defined ones hold their label's address. */
  ghost function GlobalsAt(pl: Plan, gl: seq<int>, i: nat): (r: seq<int>)
    requires i <= |pl.items| && i < |pl.f|
    ensures |r| == |gl|
  {
    if i == 0 then gl
    else WithGlobal(GlobalsAt(pl, gl, i - 1), ActionAt(pl, i - 1), pl.base + pl.f[i - 1])
  }

  function WithGlobal(gl: seq<int>, a: Action, addr: int): (r: seq<int>)
    ensures |r| == |gl|
  {
    if a.Label? && a.name.LgNum? && 10 <= a.name.n < |gl| + 10 then gl[a.name.n - 10 := addr] else gl
  }

  /** All code up to item `i`. */
  ghost function CodeTo(pl: Plan, gl: seq<int>, i: nat): seq<int>
    requires PlanOk(pl) && i <= |pl.items|
  {
    if i == 0 then [] else CodeTo(pl, gl, i - 1) + ItemCode(pl, GlobalsAt(pl, gl, i - 1), i - 1)
  }

  /** Every item takes the space it was given. */
  lemma ItemCodeSize(pl: Plan, gl: seq<int>, i: nat)
    requires PlanOk(pl) && i < |pl.items|
    ensures |ItemCode(pl, gl, i)| == pl.f[i + 1] - pl.f[i]
  {
    assert LaidOut(pl.al, pl.ofs, pl.items, pl.tg, pl.f, i);
    assert ItemOk(pl.al, pl.items[i]);
    SizeBounds(pl.al, pl.ofs, pl.items, pl.tg, pl.f, i);
  }

  lemma {:induction false} CodeSize(pl: Plan, gl: seq<int>, i: nat)
    requires PlanOk(pl) && i <= |pl.items|
    ensures |CodeTo(pl, gl, i)| == pl.f[i]
    decreases i
  {
    if i > 0 {
      CodeSize(pl, gl, i - 1);
      ItemCodeSize(pl, GlobalsAt(pl, gl, i - 1), i - 1);
    }
  }

  /** Each item's code is found at its address. */
  lemma {:induction false} CodeAt(pl: Plan, gl: seq<int>, i: nat, n: nat)
    requires PlanOk(pl) && i < n <= |pl.items|
    ensures 0 <= pl.f[i] <= pl.f[i + 1] <= |CodeTo(pl, gl, n)|
    ensures CodeTo(pl, gl, n)[pl.f[i]..pl.f[i + 1]] == ItemCode(pl, GlobalsAt(pl, gl, i), i)
    decreases n
  {
    hide ItemCode, GlobalsAt;
    CodeSize(pl, gl, i);
    CodeSize(pl, gl, n - 1);
    ItemCodeSize(pl, GlobalsAt(pl, gl, n - 1), n - 1);
    var a, c := CodeTo(pl, gl, n - 1), ItemCode(pl, GlobalsAt(pl, gl, n - 1), n - 1);
    if i < n - 1 {
      CodeAt(pl, gl, i, n - 1);
      SliceBefore(a, c, pl.f[i], pl.f[i + 1]);
    } else {
      SliceBehind(a, c);
    }
  }

  lemma SliceBefore(a: seq<int>, c: seq<int>, i: int, j: int)
    requires 0 <= i <= j <= |a|
    ensures (a + c)[i..j] == a[i..j]
  {
  }

  lemma SliceBehind(a: seq<int>, c: seq<int>)
    ensures (a + c)[|a|..|a| + |c|] == c
  {
  }

  /** Every branch in the code is the branch that was put down, and it lands exactly on its
      label's final address: in one byte if it was shrunk, modulo 2^32 otherwise. */
  lemma BranchLands(pl: Plan, gl: seq<int>, i: nat)
    requires PlanOk(pl) && i < |pl.items| && ActionAt(pl, i).Rel?
    ensures 0 <= pl.f[i] <= pl.f[i + 1] <= |CodeTo(pl, gl, |pl.items|)|
    ensures var d := Decode(CodeTo(pl, gl, |pl.items|)[pl.f[i]..pl.f[i + 1]]);
      d.Some? && d.value.br == ActionAt(pl, i).br && d.value.len == pl.f[i + 1] - pl.f[i]
      && (d.value.disp - BranchDisp(pl, GlobalsAt(pl, gl, i), i)) % WORD == 0
      && (d.value.len == 2 ==> d.value.disp == BranchDisp(pl, GlobalsAt(pl, gl, i), i))
  {
    hide CodeTo, Decode, ItemCode, GlobalsAt, BranchDisp;
    CodeAt(pl, gl, i, |pl.items|);
    ItemCodeSize(pl, GlobalsAt(pl, gl, i), i);
    BranchIs(pl, GlobalsAt(pl, gl, i), i);
  }

  /** An alignment ends on its boundary, and is filled with one-byte NOPs. */
  ghost predicate Padded(pl: Plan, code: seq<int>, i: nat) {
    && i < |pl.items| && i + 1 < |pl.f| && ActionAt(pl, i).Align? && 0 <= pl.f[i] <= pl.f[i + 1] <= |code|
    && ActionAt(pl, i).mask >= 0 && pl.f[i + 1] % (ActionAt(pl, i).mask + 1) == 0 && pl.f[i + 1] - pl.f[i] <= ActionAt(pl, i).mask
    && forall k :: pl.f[i] <= k < pl.f[i + 1] ==> code[k] == 0x90
  }

  lemma AlignPads(pl: Plan, gl: seq<int>, i: nat)
    requires PlanOk(pl) && i < |pl.items| && ActionAt(pl, i).Align?
    ensures Padded(pl, CodeTo(pl, gl, |pl.items|), i)
  {
    hide CodeTo, GlobalsAt;
    var code := CodeTo(pl, gl, |pl.items|);
    CodeAt(pl, gl, i, |pl.items|);
    assert ItemOk(pl.al, pl.items[i]);
    AlignLands(pl.al, pl.ofs, pl.items, pl.tg, pl.f, i);
    var part := code[pl.f[i]..pl.f[i + 1]];
    forall k | pl.f[i] <= k < pl.f[i + 1] ensures code[k] == 0x90 { assert code[k] == part[k - pl.f[i]]; }
  }

  lemma BranchIs(pl: Plan, gl: seq<int>, i: nat)
    requires PlanOk(pl) && i < |pl.items| && ActionAt(pl, i).Rel?
    ensures var d := Decode(ItemCode(pl, gl, i));
      d.Some? && d.value.br == ActionAt(pl, i).br && d.value.len == |ItemCode(pl, gl, i)|
      && (d.value.disp - BranchDisp(pl, gl, i)) % WORD == 0 && (d.value.len == 2 ==> d.value.disp == BranchDisp(pl, gl, i))
  {
    assert ItemOk(pl.al, pl.items[i]);
    var saved := Saved(pl.al, pl.ofs, pl.items, pl.tg, pl.f, i);
    if saved > 0 { ShrunkFits(pl.al, pl.ofs, pl.items, pl.tg, pl.f, i); }
    DecodeBranchCode(ActionAt(pl, i).br, saved, BranchDisp(pl, gl, i));
  }

  lemma DecodeBranchCode(br: Branch, saved: int, disp: int)
    requires br.Jcc? ==> 0 <= br.cc < 16
    requires saved == 0 || (saved == br.Saving() && -128 <= disp <= 127)
    ensures var d := Decode(BranchCode(br, saved, disp));
      d.Some? && d.value.br == br && d.value.len == |BranchCode(br, saved, disp)|
      && (d.value.disp - disp) % WORD == 0 && (d.value.len == 2 ==> d.value.disp == disp)
  {
    var c := BranchCode(br, saved, disp);
    if saved == 0 {
      var n := |Opcode(br)|;
      assert c[n..n + 4] == Le(disp, 4);
      WordOfLe(disp, c, n);
      ModDifference(disp);
    }
  }

  lemma ModDifference(n: int)
    ensures (n % WORD - n) % WORD == 0
  {
    MultipleMod(-(n / WORD), WORD);
  }

  // ------------------------------------------------------- what the other actions leave

  /** The number that bytes stand for, least significant first. */
  function Value(s: seq<int>): int {
    if s == [] then 0 else s[0] + 256 * Value(s[1..])
  }

  predicate AllBytes(s: seq<int>) { forall k :: 0 <= k < |s| ==> 0 <= s[k] < 256 }

  function ImmSize(k: ImmKind): int { match k case ImmW => 2 case ImmD => 4 case _ => 1 }

  function Modulus(size: int): int { if size == 1 then 256 else if size == 2 then 65536 else WORD }

  /** A byte is itself, an immediate stands for its argument, and space is filled. */
  ghost predicate Laid(pl: Plan, code: seq<int>, i: nat) {
    && i < |pl.items| && i + 1 < |pl.f| && 0 <= pl.f[i] <= pl.f[i + 1] <= |code|
    && var part, arg := code[pl.f[i]..pl.f[i + 1]], pl.items[i].e.arg;
    && AllBytes(part)
    && match ActionAt(pl, i)
       case Byte(v) => |part| == 1 && (part[0] - v) % 256 == 0
       case Imm(k) => |part| == ImmSize(k) && (Value(part) - arg) % Modulus(ImmSize(k)) == 0
       case Space(fill) => |part| == arg && forall k :: 0 <= k < |part| ==> (part[k] - fill) % 256 == 0
       case _ => true
  }

  lemma LeValue(n: int, k: nat)
    requires k == 1 || k == 2 || k == 4
    ensures AllBytes(Le(n, k)) && (Value(Le(n, k)) - n) % Modulus(k) == 0
  {
    LeBytes(n, k);
    var n1, n2, n3 := n / 256, n / 256 / 256, n / 256 / 256 / 256;
    assert Value([]) == 0;
    if k == 1 {
      assert Value(Le(n, 1)) == n % 256 + 256 * Value(Le(n1, 0));
      MultipleMod(-n1, 256);
    } else if k == 2 {
      assert Value(Le(n, 2)) == n % 256 + 256 * Value(Le(n1, 1)) && Value(Le(n1, 1)) == n1 % 256 + 256 * Value(Le(n2, 0));
      MultipleMod(-n2, 65536);
    } else {
      assert Value(Le(n, 4)) == n % 256 + 256 * Value(Le(n1, 3)) && Value(Le(n1, 3)) == n1 % 256 + 256 * Value(Le(n2, 2));
      assert Value(Le(n2, 2)) == n2 % 256 + 256 * Value(Le(n3, 1)) && Value(Le(n3, 1)) == n3 % 256 + 256 * Value(Le(n3 / 256, 0));
      Digits(n, n1, n2, n3, n3 / 256);
      ModDifference(n);
    }
  }

  lemma {:induction false} LeBytes(n: int, k: nat)
    ensures AllBytes(Le(n, k))
    decreases k
  {
    if k > 0 { LeBytes(n / 256, k - 1); }
  }

  lemma ByteMod(v: int)
    ensures 0 <= v % 256 < 256 && (v % 256 - v) % 256 == 0
  {
    MultipleMod(-(v / 256), 256);
  }

  ghost predicate PlainAt(pl: Plan, i: nat) {
    i < |pl.items| && (ActionAt(pl, i).Byte? || ActionAt(pl, i).Imm? || ActionAt(pl, i).Space?)
  }

  lemma ItemLaid(pl: Plan, gl: seq<int>, i: nat)
    requires PlanOk(pl) && i < |pl.items|
    requires PlainAt(pl, i)
    ensures Laid(pl, CodeTo(pl, gl, |pl.items|), i)
  {
    hide CodeTo, GlobalsAt;
    CodeAt(pl, gl, i, |pl.items|);
    var g := GlobalsAt(pl, gl, i);
    PartLaid(ActionAt(pl, i), pl.items[i].e.arg, Saved(pl.al, pl.ofs, pl.items, pl.tg, pl.f, i), BranchDisp(pl, g, i), pl.f[i + 1] - pl.f[i]);
    SpaceArg(pl, i);
  }

  lemma SpaceArg(pl: Plan, i: nat)
    requires PlanOk(pl) && i < |pl.items|
    ensures ActionAt(pl, i).Space? ==> pl.items[i].e.arg >= 0
  {
    assert ItemOk(pl.al, pl.items[i]);
  }

  lemma PartLaid(a: Action, arg: int, saved: int, disp: int, pad: int)
    requires a.Byte? || a.Imm? || a.Space?
    ensures var part := ActionCode(a, arg, saved, disp, pad);
      AllBytes(part) &&
      match a
      case Byte(v) => |part| == 1 && (part[0] - v) % 256 == 0
      case Imm(k) => |part| == ImmSize(k) && (Value(part) - arg) % Modulus(ImmSize(k)) == 0
      case Space(fill) => (arg >= 0 ==> |part| == arg) && forall k :: 0 <= k < |part| ==> (part[k] - fill) % 256 == 0
      case _ => true
  {
    match a
    case Byte(v) => ByteMod(v);
    case Imm(k) =>
      LeValue(arg, k.Size());
      assert Le(arg, 1) == [arg % 256];
    case Space(fill) => ByteMod(fill);
  }

  /** The item is a definition of global label `n`. */
  ghost predicate IsGlobal(pl: Plan, i: nat, n: nat) {
    i < |pl.items| && ActionAt(pl, i) == Label(LgNum(n))
  }

  /** A global has the address of its last definition, or what it had before if there is none. */
  ghost predicate GlobalIs(pl: Plan, gl: seq<int>, gl1: seq<int>, k: nat, n: nat) {
    && 10 <= n < |gl| + 10 && |gl1| == |gl| && k <= |pl.items| && k < |pl.f|
    && (forall i: nat {:trigger IsGlobal(pl, i, n)} :: i < k && IsGlobal(pl, i, n) && (forall j: nat :: i < j < k ==> !IsGlobal(pl, j, n)) ==>
          gl1[n - 10] == pl.base + pl.f[i])
    && ((forall i: nat :: i < k ==> !IsGlobal(pl, i, n)) ==> gl1[n - 10] == gl[n - 10])
  }

  lemma {:induction false} GlobalsLast(pl: Plan, gl: seq<int>, k: nat, n: nat)
    requires k <= |pl.items| && k < |pl.f| && 10 <= n < |gl| + 10
    ensures GlobalIs(pl, gl, GlobalsAt(pl, gl, k), k, n)
    decreases k
  {
    hide GlobalIs;
    if k > 0 {
      GlobalsLast(pl, gl, k - 1, n);
      GlobalNext(pl, gl, GlobalsAt(pl, gl, k - 1), GlobalsAt(pl, gl, k), k, n);
    } else {
      NoGlobals(pl, gl, n);
    }
  }

  lemma NoGlobals(pl: Plan, gl: seq<int>, n: nat)
    requires 10 <= n < |gl| + 10 && 0 < |pl.f|
    ensures GlobalIs(pl, gl, gl, 0, n)
  {
  }

  lemma GlobalNext(pl: Plan, gl: seq<int>, gl1: seq<int>, gl2: seq<int>, k: nat, n: nat)
    requires 0 < k <= |pl.items| && k < |pl.f| && GlobalIs(pl, gl, gl1, k - 1, n) && |gl2| == |gl1|
    requires gl2[n - 10] == if IsGlobal(pl, k - 1, n) then pl.base + pl.f[k - 1] else gl1[n - 10]
    ensures GlobalIs(pl, gl, gl2, k, n)
  {
    hide IsGlobal;
    forall i: nat | i < k && IsGlobal(pl, i, n) && (forall j: nat :: i < j < k ==> !IsGlobal(pl, j, n)) ensures gl2[n - 10] == pl.base + pl.f[i] {
      if IsGlobal(pl, k - 1, n) { assert i == k - 1; }
    }
    if forall i: nat :: i < k ==> !IsGlobal(pl, i, n) { assert !IsGlobal(pl, k - 1, n); }
  }
}
