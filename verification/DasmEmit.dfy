/** The loops of pass 3 (dasm_encode), proved to emit what pass 2 laid out. */
module DasmEmit {
  import opened Wrappers
  import opened DasmChains
  import opened DasmLabels
  import opened DasmPut
  import opened DasmLink
  import opened DasmShrink
  import opened DasmEncode

  /** Buffers after pass 2, and the layout they hold. */
  ghost predicate Encodable(pl: Plan, b: Buffers, ks: seq<seq<SlotKind>>, log: seq<seq<Entry>>) {
    |b| == |ks| == |log| == |pl.ofs| && Lists(log, pl.items) && PlanOk(pl)
    && (forall s :: 0 <= s < |b| ==> |b[s]| <= SEC && Walks(pl.al, b[s], ks[s], log[s], pl.ofs[s]))
    && (forall i :: 0 <= i < |pl.items| && ActionAt(pl, i).Rel? ==> pl.links[i] == LinkOf(pl.al, b, pl.items[i]))
    && Patched(pl.al, b, pl.ofs, pl.items, pl.tg, pl.f)
  }

  /** A branch whose link is `link`: opcode and displacement, in the short form if shrunk. */
  method EncodeBranch(b: Buffers, s: nat, idx: nat, br: Branch, out: seq<int>, gl: seq<int>, base: int, ghost saved: int)
    returns (out': seq<int>)
    requires s < |b| && idx + 1 < |b[s]| && b[s][idx + 1] == saved
    requires b[s][idx] < 0 ==> saved == 0
    requires saved == 0 || saved == br.Saving()
    ensures var to := if b[s][idx] < 0 then GlobalOf(gl, -b[s][idx]) - base else Read(b, b[s][idx]);
      out' == out + BranchCode(br, saved, to - (|out| + br.OpLen() + 4 - saved))
  {
    hide Le;
    out' := out + Opcode(br);
    var n := b[s][idx];
    if n < 0 {
      n := GlobalOf(gl, -n) - (base + |out'| + 4);
      return out' + Le(n, 4);
    }
    var shrink := b[s][idx + 1];
    n := Read(b, n) - (|out'| + 4 - shrink);
    if shrink == 0 {
      return out' + Le(n, 4);
    }
    if shrink == 4 {
      out' := out'[..|out'| - 2] + [out'[|out'| - 1] - 0x10];
    } else {
      out' := out'[..|out'| - 1] + [0xeb];
    }
    out' := out' + [n % 256];
  }

  /** Fill up to a boundary with nops. */
  method EncodeAlign(mask: int, out: seq<int>) returns (out': seq<int>)
    requires 0 <= mask
    ensures out' == out + Times((-|out|) % (mask + 1), 0x90)
  {
    out' := out;
    ghost var pad := (-|out|) % (mask + 1);
    RoundUp(|out|, mask + 1);
    while |out'| % (mask + 1) != 0
      invariant |out| <= |out'| <= |out| + pad && out' == out + Times(|out'| - |out|, 0x90)
      decreases |out| + pad - |out'|
    {
      if |out'| == |out| + pad {
        assert false;
      }
      out' := out' + [0x90];
    }
    PadExact(|out|, |out'|, mask + 1);
  }

  /** The first multiple at or behind `x` is the rounded-up `x`. */
  lemma PadExact(x: int, y: int, m: int)
    requires m > 0 && x <= y <= x + (-x) % m && y % m == 0
    ensures y == x + (-x) % m
  {
    RoundUp(x, m);
    var d := x + (-x) % m - y;
    assert x + (-x) % m == ((x + (-x) % m) / m) * m && y == (y / m) * m;
    assert d == ((x + (-x) % m) / m - y / m) * m;
    SmallMultiple((x + (-x) % m) / m - y / m, m);
  }

  method EncodeSpace(n: int, fill: int, out: seq<int>) returns (out': seq<int>)
    requires 0 <= n
    ensures out' == out + Times(n, fill % 256)
  {
    out' := out;
    var i := 0;
    while i < n
      invariant 0 <= i <= n && out' == out + Times(i, fill % 256)
    {
      out' := out' + [fill % 256];
      i := i + 1;
    }
  }

  /** The slots of action `a` at `idx`: its argument, the bytes saved and where a branch goes. */
  ghost predicate Ready(a: Action, b: Buffers, s: nat, idx: nat, base: int, gl: seq<int>, arg: int, saved: int, to: int) {
    s < |b| && idx + a.Slots() <= |b[s]| && ActionOk(a)
    && match a
       case Imm(_) => b[s][idx] == arg
       case Space(_) => b[s][idx] == arg && 0 <= arg
       case Rel(br, _) =>
         b[s][idx + 1] == saved && (saved == 0 || (saved == br.Saving() && b[s][idx] >= 0))
         && to == if b[s][idx] < 0 then GlobalOf(gl, -b[s][idx]) - base else Read(b, b[s][idx])
       case _ => true
  }

  /** One action of pass 3. */
  method EncodeAction(a: Action, b: Buffers, s: nat, idx: nat, base: int, out: seq<int>, gl: seq<int>,
                      ghost arg: int, ghost saved: int, ghost to: int)
    returns (out': seq<int>, gl': seq<int>)
    requires Ready(a, b, s, idx, base, gl, arg, saved, to)
    ensures out' == out + ActionCode(a, arg, saved, if a.Rel? then to - (|out| + a.br.OpLen() + 4 - saved) else 0,
                                     if a.Align? then (-|out|) % (a.mask + 1) else 0)
    ensures gl' == WithGlobal(gl, a, base + |out|)
  {
    out', gl' := out, gl;
    match a {
      case Byte(v) => out' := out + [v % 256];
      case Imm(kind) => out' := out + ImmCode(kind, b[s][idx]);
      case Space(fill) => out' := EncodeSpace(b[s][idx], fill, out);
      case Rel(br, _) => out' := EncodeBranch(b, s, idx, br, out, gl, base, saved);
      case Label(_) => gl' := WithGlobal(gl, a, base + |out|);
      case Align(mask) => out' := EncodeAlign(mask, out);
      case _ =>
    }
  }

  /** What a branch at item `i` goes to, relative to the start of the code. */
  ghost function Goal(pl: Plan, gl: seq<int>, i: nat): int
    requires PlanOk(pl) && i < |pl.items|
  {
    BranchDisp(pl, gl, i) + pl.f[i + 1]
  }

  /** The buffers have what the code of item `i` needs, and its code is that item's. */
  lemma ItemReady(pl: Plan, b: Buffers, ks: seq<seq<SlotKind>>, log: seq<seq<Entry>>, gl: seq<int>, s: nat, k: nat, i: nat)
    requires Encodable(pl, b, ks, log) && ListedAt(log, pl.items, s, k) && i == Before(log, s) + k
    ensures 0 <= log[s][k].p < |pl.al| && ActionAt(pl, i) == pl.al[log[s][k].p] && 0 <= log[s][k].idx
    ensures Ready(ActionAt(pl, i), b, s, log[s][k].idx, pl.base, gl, log[s][k].arg,
                  Saved(pl.al, pl.ofs, pl.items, pl.tg, pl.f, i), Goal(pl, gl, i))
  {
    assert Walks(pl.al, b[s], ks[s], log[s], pl.ofs[s]) && ItemOk(pl.al, pl.items[i]);
    WalksAt(pl.al, b[s], ks[s], log[s], pl.ofs[s], k);
    if ActionAt(pl, i).Rel? {
      BranchReady(pl, b, ks, log, i);
    }
  }

  lemma BranchReady(pl: Plan, b: Buffers, ks: seq<seq<SlotKind>>, log: seq<seq<Entry>>, i: nat)
    requires Encodable(pl, b, ks, log) && i < |pl.items| && ActionAt(pl, i).Rel?
    ensures EstIs(pl.al, b, pl.items[i], Saved(pl.al, pl.ofs, pl.items, pl.tg, pl.f, i))
    ensures pl.links[i] == LinkOf(pl.al, b, pl.items[i])
    ensures pl.links[i] >= 0 ==> pl.tg[i] >= 0 && Read(b, pl.links[i]) == pl.f[pl.tg[i]]
    ensures pl.links[i] < 0 ==> pl.tg[i] == -1
  {
    assert PatchedAt(pl.al, b, pl.ofs, pl.items, pl.tg, pl.f, i);
    if pl.links[i] >= 0 { LabelValue(pl.al, b, pl.ofs, pl.items, pl.tg, pl.f, pl.links[i], pl.tg[i]); }
  }

  lemma CodeIsItem(pl: Plan, gl: seq<int>, i: nat)
    requires PlanOk(pl) && i < |pl.items|
    ensures var a, saved := ActionAt(pl, i), Saved(pl.al, pl.ofs, pl.items, pl.tg, pl.f, i);
      ItemCode(pl, gl, i) == ActionCode(a, pl.items[i].e.arg, saved,
        if a.Rel? then Goal(pl, gl, i) - (pl.f[i] + a.br.OpLen() + 4 - saved) else 0,
        if a.Align? && a.mask >= 0 then (-pl.f[i]) % (a.mask + 1) else 0)
  {
    assert LaidOut(pl.al, pl.ofs, pl.items, pl.tg, pl.f, i) && ItemOk(pl.al, pl.items[i]);
  }

  /** The code and the globals before each item, written out as lists. */
  datatype Script = Script(code: seq<seq<int>>, globals: seq<seq<int>>)

  ghost predicate ScriptStep(pl: Plan, sc: Script, i: nat) {
    PlanOk(pl) && i < |pl.items| && |sc.code| == |sc.globals| == |pl.items| + 1 && |sc.code[i]| == pl.f[i]
    && sc.code[i + 1] == sc.code[i] + ItemCode(pl, sc.globals[i], i)
    && sc.globals[i + 1] == WithGlobal(sc.globals[i], ActionAt(pl, i), pl.base + pl.f[i])
  }

  ghost predicate Scripted(pl: Plan, sc: Script) {
    |sc.code| == |sc.globals| == |pl.items| + 1 && forall i :: 0 <= i < |pl.items| ==> ScriptStep(pl, sc, i)
  }

  lemma MakeScript(pl: Plan, gl: seq<int>) returns (sc: Script)
    requires PlanOk(pl)
    ensures Scripted(pl, sc) && sc.code[0] == [] && sc.globals[0] == gl
    ensures sc.code[|pl.items|] == CodeTo(pl, gl, |pl.items|) && sc.globals[|pl.items|] == GlobalsAt(pl, gl, |pl.items|)
  {
    sc := Script(seq(|pl.items| + 1, i requires 0 <= i <= |pl.items| => CodeTo(pl, gl, i)),
                 seq(|pl.items| + 1, i requires 0 <= i <= |pl.items| => GlobalsAt(pl, gl, i)));
    forall i | 0 <= i < |pl.items| ensures ScriptStep(pl, sc, i) {
      CodeSize(pl, gl, i);
    }
  }

  /** The first `i` items are emitted. */
  ghost predicate Emitted(sc: Script, i: nat, out: seq<int>, gl: seq<int>) {
    i < |sc.code| && i < |sc.globals| && out == sc.code[i] && gl == sc.globals[i]
  }

  /** The next item is emitted. */
  method EncodeNext(al: seq<Action>, b: Buffers, s: nat, p: nat, idx: nat, base: int, out: seq<int>, gl: seq<int>,
                    ghost pl: Plan, ghost ks: seq<seq<SlotKind>>, ghost log: seq<seq<Entry>>, ghost sc: Script, ghost k: nat, ghost i: nat)
    returns (out': seq<int>, gl': seq<int>)
    requires Encodable(pl, b, ks, log) && Scripted(pl, sc) && pl.al == al && pl.base == base && s < |log| && k < |log[s]|
    requires p == log[s][k].p < |al| && idx == log[s][k].idx && i == Before(log, s) + k && Emitted(sc, i, out, gl)
    ensures Emitted(sc, i + 1, out', gl')
  {
    hide Le, ActionCode, Decode;
    assert ListedAt(log, pl.items, s, k);
    assert ScriptStep(pl, sc, i);
    ItemReady(pl, b, ks, log, gl, s, k, i);
    CodeIsItem(pl, gl, i);
    out', gl' := EncodeAction(al[p], b, s, idx, base, out, gl, log[s][k].arg,
                              Saved(pl.al, pl.ofs, pl.items, pl.tg, pl.f, i), Goal(pl, gl, i));
  }

  method EncodePut(al: seq<Action>, b: Buffers, s: nat, start: nat, idx0: nat, base: int, out: seq<int>, gl: seq<int>,
                   ghost pl: Plan, ghost ks: seq<seq<SlotKind>>, ghost log: seq<seq<Entry>>, ghost sc: Script, ghost k0: nat, ghost i0: nat)
    returns (out': seq<int>, gl': seq<int>, idx: nat, ghost k: nat, ghost i: nat)
    requires Encodable(pl, b, ks, log) && Scripted(pl, sc) && pl.al == al && pl.base == base && s < |log| && k0 < |log[s]|
    requires i0 == Before(log, s) + k0 && Emitted(sc, i0, out, gl)
    requires start == log[s][k0].p && idx0 == log[s][k0].idx
    ensures k0 < k <= |log[s]| && i == Before(log, s) + k && Emitted(sc, i, out', gl')
    ensures 0 <= log[s][k - 1].p < |al| && al[log[s][k - 1].p].Terminal() && idx == log[s][k - 1].idx
  {
    out', gl', idx, k, i := out, gl, idx0, k0, i0;
    var p := start;
    assert Walks(al, b[s], ks[s], log[s], pl.ofs[s]);
    WalksAt(al, b[s], ks[s], log[s], pl.ofs[s], k);
    while !al[p].Terminal()
      invariant k0 <= k < |log[s]| && i == Before(log, s) + k && Emitted(sc, i, out', gl')
      invariant p == log[s][k].p < |al| && idx == log[s][k].idx
      decreases |al| - p
    {
      PutContinues(al, b[s], ks[s], log[s], pl.ofs[s], k);
      out', gl' := EncodeNext(al, b, s, p, idx, base, out', gl', pl, ks, log, sc, k, i);
      idx, p, k, i := idx + al[p].Slots(), p + 1, k + 1, i + 1;
    }
    EncodeTerminal(pl, log, sc, s, k, i, out', gl');
    k, i := k + 1, i + 1;
  }

  lemma EncodeTerminal(pl: Plan, log: seq<seq<Entry>>, sc: Script, s: nat, k: nat, i: nat, out: seq<int>, gl: seq<int>)
    requires Lists(log, pl.items) && Scripted(pl, sc) && s < |log| && k < |log[s]| && i == Before(log, s) + k && Emitted(sc, i, out, gl)
    requires 0 <= log[s][k].p < |pl.al| && pl.al[log[s][k].p].Terminal()
    ensures Emitted(sc, i + 1, out, gl)
  {
    assert ListedAt(log, pl.items, s, k);
    assert ScriptStep(pl, sc, i);
  }

  method EncodeSection(al: seq<Action>, b: Buffers, s: nat, base: int, out: seq<int>, gl: seq<int>,
                       ghost pl: Plan, ghost ks: seq<seq<SlotKind>>, ghost log: seq<seq<Entry>>, ghost sc: Script, ghost i0: nat)
    returns (out': seq<int>, gl': seq<int>, ghost i: nat)
    requires Encodable(pl, b, ks, log) && Scripted(pl, sc) && pl.al == al && pl.base == base && s < |log|
    requires i0 == Before(log, s) && Emitted(sc, i0, out, gl)
    ensures i == Before(log, s + 1) && Emitted(sc, i, out', gl')
  {
    out', gl', i := out, gl, i0;
    var idx := 0;
    ghost var k := 0;
    assert Walks(al, b[s], ks[s], log[s], pl.ofs[s]);
    while idx != |b[s]|
      invariant k <= |log[s]| && i == Before(log, s) + k && Emitted(sc, i, out', gl')
      invariant idx == CursorIdx(log[s], k) && (k > 0 ==> 0 <= log[s][k - 1].p < |al| && al[log[s][k - 1].p].Terminal())
      decreases |log[s]| - k
    {
      PutStarts(al, b[s], ks[s], log[s], pl.ofs[s], k);
      out', gl', idx, k, i := EncodePut(al, b, s, b[s][idx], idx + 1, base, out', gl', pl, ks, log, sc, k, i);
    }
    PutStarts(al, b[s], ks[s], log[s], pl.ofs[s], k);
  }

  /** All sections, one behind the other. */
  method EncodeSections(al: seq<Action>, b: Buffers, base: int, gl: seq<int>,
                        ghost pl: Plan, ghost ks: seq<seq<SlotKind>>, ghost log: seq<seq<Entry>>)
    returns (out: seq<int>, gl': seq<int>)
    requires Encodable(pl, b, ks, log) && pl.al == al && pl.base == base
    ensures out == CodeTo(pl, gl, |pl.items|) && gl' == GlobalsAt(pl, gl, |pl.items|)
  {
    out, gl' := [], gl;
    ghost var sc := MakeScript(pl, gl);
    ghost var i := 0;
    for s := 0 to |b|
      invariant i == Before(log, s) && Emitted(sc, i, out, gl')
    {
      out, gl', i := EncodeSection(al, b, s, base, out, gl', pl, ks, log, sc, i);
    }
  }
}
