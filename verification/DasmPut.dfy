/** Pass 1 of the DynASM x86 encoder (dasm_put): store actions and their arguments, link
    branches to labels, and estimate offsets from above. */
module DasmPut {
  import opened Wrappers
  import opened DasmChains
  import opened DasmLabels

  // ---------------------------------------------------------------- actions

  /** Branch opcodes: jmp rel32 (e9), jcc rel32 (0f 80+cc), call rel32 (e8). */
  datatype Branch = Jmp | Jcc(cc: int) | Call {
    function OpLen(): int { if Jcc? then 2 else 1 }
    /** Bytes saved by the short form: opcode and displacement together. */
    function Saving(): int { match this case Jmp => 3 case Jcc(_) => 4 case Call => 0 }
  }

  datatype ImmKind = ImmS | ImmB | ImmW | ImmD {
    function Size(): int { match this case ImmS => 1 case ImmB => 1 case ImmW => 2 case ImmD => 4 }
    predicate InRange(n: int) {
      match this
      case ImmS => -128 <= n <= 127
      case ImmB => 0 <= n <= 255
      case ImmW => 0 <= n <= 65535
      case ImmD => true
    }
  }

  /** Label numbers above 246 in a reference mean the local label 246 less, forward. */
  datatype LabelArg = LgNum(n: nat) | PcArg

  datatype Action =
    | Byte(v: int)
    | Imm(kind: ImmKind)
    | Space(fill: int)
    | Rel(br: Branch, target: LabelArg)
    | Label(name: LabelArg)
    | Align(mask: int)
    | Section(sec: nat)
    | Stop
  {
    predicate Terminal() { Section? || Stop? }

    /** Buffer slots used by the action. */
    function Slots(): nat {
      match this
      case Byte(_) => 0 case Imm(_) => 1 case Space(_) => 1 case Rel(_, _) => 2
      case Label(_) => 1 case Align(_) => 1 case Section(_) => 0 case Stop => 0
    }

    /** Arguments taken by the action. */
    function Args(): nat {
      match this
      case Imm(_) => 1 case Space(_) => 1
      case Rel(_, t) => if t.PcArg? then 1 else 0
      case Label(t) => if t.PcArg? then 1 else 0
      case _ => 0
    }

    /** The most code the action can become, `n` being its stored argument. */
    function MaxSize(n: int): int {
      match this
      case Byte(_) => 1
      case Imm(k) => k.Size()
      case Space(_) => n
      case Rel(br, _) => br.OpLen() + 4
      case Label(_) => 0
      case Align(mask) => mask
      case Section(_) => 0
      case Stop => 0
    }
  }

  /** An action list the preprocessor can produce: terminated, with alignments of the form
      2^n-1, local labels in range, and condition codes. */
  ghost predicate ValidActions(al: seq<Action>) {
    |al| > 0 && al[|al| - 1] == Stop && forall i :: 0 <= i < |al| ==> ActionOk(al[i])
  }

  predicate ActionOk(a: Action) {
    match a
    case Align(mask) => mask in {1, 3, 7, 15, 31, 63, 127, 255}
    case Label(LgNum(n)) => 1 <= n <= 246
    case Rel(br, t) => (br.Jcc? ==> 0 <= br.cc < 16) && (t.LgNum? ==> 1 <= t.n <= 255)
    case _ => true
  }

  // ------------------------------------------------- what the buffers contain

  /** What a slot is for: an action list index, an argument, a label link, or an offset. */
  datatype SlotKind = KStart | KArg | KLink | KEst

  /** One executed action: where it is in the action list, where its slots are in the section
      buffer, the estimated offset of its code, and its stored argument, if any. */
  datatype Entry = Entry(p: int, idx: int, est: int, arg: int)

  /** Proof state of pass 1: slot kinds, label history and chains, and executed actions. */
  datatype Trace = Trace(kinds: seq<seq<SlotKind>>, hist: History, chains: Chains, log: seq<seq<Entry>>)

  /** The slots of an executed action hold what they should. */
  ghost predicate EntryOk(al: seq<Action>, b: seq<int>, ks: seq<SlotKind>, e: Entry) {
    |ks| == |b| && 0 <= e.p < |al| && 1 <= e.idx && e.idx + al[e.p].Slots() <= |b| && 0 <= e.est
    && match al[e.p]
       case Imm(k) => ks[e.idx] == KArg && b[e.idx] == e.arg && k.InRange(e.arg)
       case Space(_) => ks[e.idx] == KArg && b[e.idx] == e.arg && 0 <= e.arg
       case Rel(br, _) => ks[e.idx] == KLink && ks[e.idx + 1] == KEst && b[e.idx + 1] == e.est + br.OpLen() + 4
       case Label(_) => ks[e.idx] == KEst && b[e.idx] == e.est
       case Align(mask) => ks[e.idx] == KEst && b[e.idx] == e.est + mask
       case _ => true
  }

  /** `f` is what is executed after `e`: the next action, or the start of the next put. */
  ghost predicate Follows(al: seq<Action>, b: seq<int>, ks: seq<SlotKind>, e: Entry, f: Entry) {
    EntryOk(al, b, ks, e) && f.est == e.est + al[e.p].MaxSize(e.arg)
    && if al[e.p].Terminal() then e.idx < |b| && ks[e.idx] == KStart && f.p == b[e.idx] && f.idx == e.idx + 1
       else f.p == e.p + 1 && f.idx == e.idx + al[e.p].Slots()
  }

  /** The executed actions, followed by the cursor, are what walking the buffer finds. */
  ghost predicate Walk(al: seq<Action>, b: seq<int>, ks: seq<SlotKind>, es: seq<Entry>) {
    |es| > 0 && |ks| == |b| > 0 && ks[0] == KStart && es[0] == Entry(b[0], 1, 0, es[0].arg)
    && forall k :: 0 <= k < |es| - 1 ==> Follows(al, b, ks, es[k], es[k + 1])
  }

  /** A section between two puts. */
  ghost predicate Closed(al: seq<Action>, b: seq<int>, ks: seq<SlotKind>, es: seq<Entry>, ofs: int) {
    if es == [] then b == [] && ks == [] && ofs == 0
    else var e := es[|es| - 1];
      Walk(al, b, ks, es) && EntryOk(al, b, ks, e) && al[e.p].Terminal() && e.idx == |b| && ofs == e.est
  }

  /** A section inside a put, about to execute action `p` at offset `est`. */
  ghost predicate Open(al: seq<Action>, b: seq<int>, ks: seq<SlotKind>, es: seq<Entry>, p: int, est: int) {
    Walk(al, b, ks, es + [Entry(p, |b|, est, 0)]) && 0 <= est && 0 <= p
  }

  /** Two versions of a section that differ at most in label links. */
  ghost predicate SameButLinks(b: seq<int>, b': seq<int>, ks: seq<SlotKind>) {
    |b| == |b'| == |ks| && forall i :: 0 <= i < |b| && ks[i] != KLink ==> b'[i] == b[i]
  }

  lemma WalkSame(al: seq<Action>, b: seq<int>, b': seq<int>, ks: seq<SlotKind>, es: seq<Entry>)
    requires Walk(al, b, ks, es) && SameButLinks(b, b', ks)
    ensures Walk(al, b', ks, es)
  {
    forall k | 0 <= k < |es| - 1 ensures Follows(al, b', ks, es[k], es[k + 1]) {
      assert Follows(al, b, ks, es[k], es[k + 1]);
    }
  }

  lemma WalkAppend(al: seq<Action>, b: seq<int>, ks: seq<SlotKind>, es: seq<Entry>, b1: seq<int>, ks1: seq<SlotKind>)
    requires Walk(al, b, ks, es) && b <= b1 && ks <= ks1 && |b1| == |ks1|
    ensures Walk(al, b1, ks1, es)
  {
    forall k | 0 <= k < |es| - 1 ensures Follows(al, b1, ks1, es[k], es[k + 1]) {
      assert Follows(al, b, ks, es[k], es[k + 1]);
    }
  }

  /** Starting a put in a section. */
  lemma OpenStart(al: seq<Action>, b: seq<int>, ks: seq<SlotKind>, es: seq<Entry>, ofs: int, start: int)
    requires Closed(al, b, ks, es, ofs) && 0 <= start
    ensures Open(al, b + [start], ks + [KStart], es, start, ofs)
  {
    var b1, ks1, es1 := b + [start], ks + [KStart], es + [Entry(start, |b| + 1, ofs, 0)];
    if es != [] {
      WalkAppend(al, b, ks, es, b1, ks1);
      forall k | 0 <= k < |es1| - 1 ensures Follows(al, b1, ks1, es1[k], es1[k + 1]) {
        if k < |es| - 1 { assert Follows(al, b1, ks1, es[k], es[k + 1]); }
      }
    }
  }

  /** The cursor's argument is irrelevant until its action is executed. */
  lemma WalkCursor(al: seq<Action>, b: seq<int>, ks: seq<SlotKind>, es: seq<Entry>, e: Entry, arg: int)
    requires Walk(al, b, ks, es + [e])
    ensures Walk(al, b, ks, es + [e.(arg := arg)])
  {
    var es0, es1 := es + [e], es + [e.(arg := arg)];
    forall k | 0 <= k < |es1| - 1 ensures Follows(al, b, ks, es1[k], es1[k + 1]) {
      assert Follows(al, b, ks, es0[k], es0[k + 1]);
    }
  }

  /** Executing one action: its slots are appended and the cursor moves on. */
  lemma OpenStep(al: seq<Action>, b: seq<int>, ks: seq<SlotKind>, es: seq<Entry>, e: Entry,
                 b1: seq<int>, ks1: seq<SlotKind>)
    requires Open(al, b, ks, es, e.p, e.est) && e.idx == |b| && b <= b1 && ks <= ks1
    requires EntryOk(al, b1, ks1, e) && ActionOk(al[e.p]) && !al[e.p].Terminal() && |b1| == |b| + al[e.p].Slots()
    ensures Open(al, b1, ks1, es + [e], e.p + 1, e.est + al[e.p].MaxSize(e.arg))
  {
    var es0 := es + [e];
    var f := Entry(e.p + 1, |b1|, e.est + al[e.p].MaxSize(e.arg), 0);
    WalkCursor(al, b, ks, es, e.(arg := 0), e.arg);
    WalkAppend(al, b, ks, es0, b1, ks1);
    forall k | 0 <= k < |es0 + [f]| - 1 ensures Follows(al, b1, ks1, (es0 + [f])[k], (es0 + [f])[k + 1]) {
      if k < |es0| - 1 { assert Follows(al, b1, ks1, es0[k], es0[k + 1]); }
    }
    assert (es0 + [f])[0] == es0[0];
  }

  /** The last action of a put closes the section. */
  lemma OpenStop(al: seq<Action>, b: seq<int>, ks: seq<SlotKind>, es: seq<Entry>, p: int, est: int)
    requires Open(al, b, ks, es, p, est) && p < |al| && al[p].Terminal()
    ensures Closed(al, b, ks, es + [Entry(p, |b|, est, 0)], est)
  {
    assert 1 <= |b|;
  }

  // ---------------------------------------------------- the state during pass 1

  ghost predicate SameShape(b: Buffers, ks: seq<seq<SlotKind>>) {
    |ks| == |b| && forall s :: 0 <= s < |b| ==> |ks[s]| == |b[s]|
  }

  ghost predicate IsLink(b: Buffers, ks: seq<seq<SlotKind>>, pos: int) {
    SameShape(b, ks) && ValidPos(b, pos) && ks[SecOf(pos)][IdxOf(pos)] == KLink
  }

  /** `pos` is the slot of an executed label. */
  ghost predicate LabelAt(al: seq<Action>, log: seq<seq<Entry>>, pos: int) {
    exists s, k :: 0 <= s < |log| && 0 <= k < |log[s]| && IsLabel(al, log[s][k]) && pos == s * SEC + log[s][k].idx
  }

  ghost predicate IsLabel(al: seq<Action>, e: Entry) { 0 <= e.p < |al| && al[e.p].Label? }

  ghost predicate HasRef(h: History, slot: int) {
    exists t :: 0 <= t < |h| && h[t].Ref? && h[t].slot == slot
  }

  /** Links are consistent, and they are the links of the executed branches and labels. */
  ghost predicate Linked(al: seq<Action>, b: Buffers, l: Labels, g: Trace) {
    LinksOk(b, l, g.hist, g.chains) && SameShape(b, g.kinds) && |g.log| == |b|
    && (forall t :: 0 <= t < |g.hist| && g.hist[t].Ref? ==> IsLink(b, g.kinds, g.hist[t].slot))
    && (forall t :: 0 <= t < |g.hist| && g.hist[t].Def? ==> LabelAt(al, g.log, g.hist[t].pos))
    && (forall s, k :: 0 <= s < |g.log| && 0 <= k < |g.log[s]| && 0 <= g.log[s][k].p < |al| && al[g.log[s][k].p].Rel? ==>
          HasRef(g.hist, s * SEC + g.log[s][k].idx))
  }

  /** Between two puts. */
  ghost predicate Pass1(al: seq<Action>, b: Buffers, l: Labels, g: Trace, ofs: seq<int>) {
    Linked(al, b, l, g) && |ofs| == |b|
    && forall s :: 0 <= s < |b| ==> Closed(al, b[s], g.kinds[s], g.log[s], ofs[s])
  }

  /** Inside a put to section `sec`. */
  ghost predicate InPut(al: seq<Action>, b: Buffers, l: Labels, g: Trace, ofs: seq<int>, sec: nat, p: int, est: int) {
    Linked(al, b, l, g) && |ofs| == |b| && sec < |b|
    && (forall s :: 0 <= s < |b| && s != sec ==> Closed(al, b[s], g.kinds[s], g.log[s], ofs[s]))
    && Open(al, b[sec], g.kinds[sec], g.log[sec], p, est)
  }

  function Logged(g: Trace, sec: nat, e: Entry): Trace
    requires sec < |g.log|
  {
    g.(log := g.log[sec := g.log[sec] + [e]])
  }

  function Kinded(g: Trace, sec: nat, k: seq<SlotKind>): Trace
    requires sec < |g.kinds|
  {
    g.(kinds := g.kinds[sec := g.kinds[sec] + k])
  }

  /** What is a label slot or a link stays one. */
  lemma LabelAtLogged(al: seq<Action>, log: seq<seq<Entry>>, sec: nat, e: Entry, pos: int)
    requires sec < |log| && LabelAt(al, log, pos)
    ensures LabelAt(al, log[sec := log[sec] + [e]], pos)
  {
    var s, k :| 0 <= s < |log| && 0 <= k < |log[s]| && IsLabel(al, log[s][k]) && pos == s * SEC + log[s][k].idx;
    var log1 := log[sec := log[sec] + [e]];
    assert log1[s][k] == log[s][k];
  }

  lemma IsLinkAppend(b: Buffers, ks: seq<seq<SlotKind>>, sec: nat, v: int, k: SlotKind, pos: int)
    requires sec < |b| && |b[sec]| < SEC && IsLink(b, ks, pos)
    ensures IsLink(Append(b, sec, v), ks[sec := ks[sec] + [k]], pos)
  {
    ReadAppend(b, sec, v, pos);
  }

  /** Storing a slot that is not a link. */
  lemma StoreKeeps(al: seq<Action>, b: Buffers, l: Labels, g: Trace, sec: nat, v: int, k: SlotKind)
    requires Linked(al, b, l, g) && sec < |b| && |b[sec]| < SEC
    ensures Linked(al, Append(b, sec, v), l, Kinded(g, sec, [k]))
  {
    PlainKeeps(b, l, g.hist, g.chains, sec, v);
    forall t | 0 <= t < |g.hist| && g.hist[t].Ref? ensures IsLink(Append(b, sec, v), Kinded(g, sec, [k]).kinds, g.hist[t].slot) {
      IsLinkAppend(b, g.kinds, sec, v, k, g.hist[t].slot);
    }
  }

  /** Logging an executed action that is neither a branch nor a label. */
  lemma LogKeeps(al: seq<Action>, b: Buffers, l: Labels, g: Trace, sec: nat, e: Entry)
    requires Linked(al, b, l, g) && sec < |b|
    requires 0 <= e.p < |al| && (al[e.p].Rel? ==> HasRef(g.hist, sec * SEC + e.idx))
    ensures Linked(al, b, l, Logged(g, sec, e))
  {
    var g1 := Logged(g, sec, e);
    forall t | 0 <= t < |g.hist| && g.hist[t].Def? ensures LabelAt(al, g1.log, g.hist[t].pos) {
      LabelAtLogged(al, g.log, sec, e, g.hist[t].pos);
    }
    forall s, k | 0 <= s < |g1.log| && 0 <= k < |g1.log[s]| && 0 <= g1.log[s][k].p < |al| && al[g1.log[s][k].p].Rel?
      ensures HasRef(g1.hist, s * SEC + g1.log[s][k].idx)
    {
      if s != sec || k < |g.log[sec]| { assert g1.log[s][k] == g.log[s][k]; }
    }
  }

  /** A new reference in the history, whose slot is the one just stored. */
  lemma RefKeeps(al: seq<Action>, b: Buffers, l: Labels, g: Trace, sec: nat, n: int, e: Event, l1: Labels, cs1: Chains)
    requires Linked(al, b, l, g) && sec < |b| && 0 < |b[sec]| < SEC
    requires e.Ref? && e.slot == Pos(sec, |b[sec]|) && LinksOk(Append(b, sec, n), l1, g.hist + [e], cs1)
    ensures Linked(al, Append(b, sec, n), l1, Kinded(g, sec, [KLink]).(hist := g.hist + [e], chains := cs1))
    ensures HasRef(g.hist + [e], sec * SEC + |b[sec]|)
  {
    var g1 := Kinded(g, sec, [KLink]).(hist := g.hist + [e], chains := cs1);
    var b1 := Append(b, sec, n);
    forall t | 0 <= t < |g1.hist| && g1.hist[t].Ref? ensures IsLink(b1, g1.kinds, g1.hist[t].slot) {
      if t < |g.hist| {
        IsLinkAppend(b, g.kinds, sec, n, KLink, g.hist[t].slot);
      } else {
        ReadAppend(b, sec, n, e.slot);
        PosParts(sec, |b[sec]|);
      }
    }
    assert g1.hist[|g.hist|] == e;
    forall s, k | 0 <= s < |g1.log| && 0 <= k < |g1.log[s]| && 0 <= g1.log[s][k].p < |al| && al[g1.log[s][k].p].Rel?
      ensures HasRef(g1.hist, s * SEC + g1.log[s][k].idx)
    {
      HasRefAppend(g.hist, e, s * SEC + g.log[s][k].idx);
    }
  }

  lemma HasRefAppend(h: History, e: Event, slot: int)
    requires HasRef(h, slot)
    ensures HasRef(h + [e], slot)
  {
    var t :| 0 <= t < |h| && h[t].Ref? && h[t].slot == slot;
    assert (h + [e])[t] == h[t];
  }

  /** Chains run through link slots only, so filling one changes nothing else. */
  lemma FillSame(al: seq<Action>, b: Buffers, l: Labels, g: Trace, k: Key, v: int, s: nat)
    requires Linked(al, b, l, g) && s < |b| && |b[s]| <= SEC
    ensures var b1 := Filled(b, Chain(g.chains, k), v);
      |b1| == |b| && SameButLinks(b[s], b1[s], g.kinds[s])
  {
    var c := Chain(g.chains, k);
    var b1 := Filled(b, c, v);
    FilledSizes(b, c, v);
    assert CellOk(b, l, g.hist, g.chains, k);
    forall i | 0 <= i < |c| ensures ValidPos(b, c[i]) { ChainValid(b, l.Cell(k), c, i); }
    forall i | 0 <= i < |b[s]| && g.kinds[s][i] != KLink ensures b1[s][i] == b[s][i] {
      FillSameAt(al, b, l, g, k, v, s, i);
    }
  }

  lemma FillSameAt(al: seq<Action>, b: Buffers, l: Labels, g: Trace, k: Key, v: int, s: nat, i: nat)
    requires Linked(al, b, l, g) && s < |b| && i < |b[s]| <= SEC && g.kinds[s][i] != KLink
    requires forall j :: 0 <= j < |Chain(g.chains, k)| ==> ValidPos(b, Chain(g.chains, k)[j])
    ensures var b1 := Filled(b, Chain(g.chains, k), v); s < |b1| && i < |b1[s]| && b1[s][i] == b[s][i]
  {
    var c := Chain(g.chains, k);
    FilledSizes(b, c, v);
    PosParts(s, i);
    var q := Pos(s, i);
    if q > 0 {
      FilledReads(b, c, v, q);
      if q in c {
        assert Waiting(g.hist, k, q);
        assert HasLink(b, g, q);
        assert false;
      }
    } else {
      FillAtZero(b, c, v);
    }
  }

  ghost predicate HasLink(b: Buffers, g: Trace, q: int) { IsLink(b, g.kinds, q) }

  /** Slot 0 of section 0, a start slot, has position 0 and is in no chain. */
  lemma {:induction false} FillAtZero(b: Buffers, c: seq<int>, v: int)
    requires |b| > 0 && |b[0]| > 0 && forall j :: 0 <= j < |c| ==> ValidPos(b, c[j])
    ensures |Filled(b, c, v)| > 0 && |Filled(b, c, v)[0]| > 0 && Filled(b, c, v)[0][0] == b[0][0]
    decreases |c|
  {
    if c != [] {
      var b1 := Write(b, c[0], v);
      forall j | 0 <= j < |c[1..]| ensures ValidPos(b1, c[1..][j]) {
        assert c[1..][j] == c[j + 1];
        ReadWrite(b, c[0], v, c[j + 1]);
      }
      FillAtZero(b1, c[1..], v);
    }
  }

  /** Defining label `k` at the slot about to be stored. */
  lemma LabelKeeps(al: seq<Action>, b: Buffers, l: Labels, g: Trace, sec: nat, k: Key, e: Entry)
    requires Linked(al, b, l, g) && sec < |b| && 0 < |b[sec]| < SEC && l.Has(k)
    requires IsLabel(al, e) && e.idx == |b[sec]|
    ensures var pos := Pos(sec, |b[sec]|);
      var b1 := Filled(b, Chain(g.chains, k), pos);
      var g1 := g.(hist := g.hist + [Def(pos, k)], chains := g.chains[k := []]);
      |b1| == |b| && |b1[sec]| == |b[sec]|
      && Linked(al, Append(b1, sec, e.est), l.Set(k, -pos), Logged(Kinded(g1, sec, [KEst]), sec, e))
  {
    var pos, c := Pos(sec, |b[sec]|), Chain(g.chains, k);
    var b1, l1 := Filled(b, c, pos), l.Set(k, -pos);
    var g1 := g.(hist := g.hist + [Def(pos, k)], chains := g.chains[k := []], log := Logged(g, sec, e).log);
    DefKeeps(b, l, g.hist, g.chains, k, pos);
    FilledSizes(b, c, pos);
    FilledLinks(b, l, g, k, pos);
    forall t | 0 <= t < |g1.hist| && g1.hist[t].Def? ensures LabelAt(al, g1.log, g1.hist[t].pos) {
      if t < |g.hist| {
        LabelAtLogged(al, g.log, sec, e, g.hist[t].pos);
      } else {
        assert g1.log[sec][|g.log[sec]|] == e;
      }
    }
    forall s, i | 0 <= s < |g1.log| && 0 <= i < |g1.log[s]| && 0 <= g1.log[s][i].p < |al| && al[g1.log[s][i].p].Rel?
      ensures HasRef(g1.hist, s * SEC + g1.log[s][i].idx)
    {
      assert s != sec || i < |g.log[sec]|;
      assert g1.log[s][i] == g.log[s][i];
      HasRefAppend(g.hist, Def(pos, k), s * SEC + g.log[s][i].idx);
    }
    assert Linked(al, b1, l1, g1);
    StoreKeeps(al, b1, l1, g1, sec, e.est, KEst);
    assert Logged(Kinded(g1.(log := g.log), sec, [KEst]), sec, e) == Kinded(g1, sec, [KEst]);
  }

  lemma FilledLinks(b: Buffers, l: Labels, g: Trace, k: Key, v: int)
    requires LinksOk(b, l, g.hist, g.chains) && SameShape(b, g.kinds)
    requires forall t :: 0 <= t < |g.hist| && g.hist[t].Ref? ==> IsLink(b, g.kinds, g.hist[t].slot)
    ensures var b1 := Filled(b, Chain(g.chains, k), v);
      SameShape(b1, g.kinds) && forall t :: 0 <= t < |g.hist| && g.hist[t].Ref? ==> IsLink(b1, g.kinds, g.hist[t].slot)
  {
    var c := Chain(g.chains, k);
    FilledSizes(b, c, v);
    assert CellOk(b, l, g.hist, g.chains, k);
    forall i | 0 <= i < |c| ensures ValidPos(b, c[i]) { ChainValid(b, l.Cell(k), c, i); }
    forall t | 0 <= t < |g.hist| && g.hist[t].Ref? ensures IsLink(Filled(b, c, v), g.kinds, g.hist[t].slot) {
      FilledReads(b, c, v, g.hist[t].slot);
    }
  }

  // -------------------------------------------- one lemma per kind of action in a put

  /** Slots were appended and links are consistent: log the action. */
  lemma PlainStep(al: seq<Action>, b: Buffers, l: Labels, g: Trace, ofs: seq<int>, sec: nat, e: Entry,
                  b1: Buffers, l1: Labels, g1: Trace)
    requires InPut(al, b, l, g, ofs, sec, e.p, e.est) && e.p < |al| && ActionOk(al[e.p]) && !al[e.p].Terminal()
    requires e.idx == |b[sec]| && |b[sec]| + 2 <= SEC && Linked(al, b1, l1, g1)
    requires al[e.p].Rel? ==> HasRef(g1.hist, sec * SEC + e.idx)
    requires g1.log == g.log && |b1| == |b| && b[sec] <= b1[sec] && |b1[sec]| == |b[sec]| + al[e.p].Slots()
    requires g.kinds[sec] <= g1.kinds[sec] && forall s :: 0 <= s < |b| && s != sec ==> b1[s] == b[s] && g1.kinds[s] == g.kinds[s]
    requires EntryOk(al, b1[sec], g1.kinds[sec], e)
    ensures InPut(al, b1, l1, Logged(g1, sec, e), ofs, sec, e.p + 1, e.est + al[e.p].MaxSize(e.arg))
  {
    LogKeeps(al, b1, l1, g1, sec, e);
    OpenStep(al, b[sec], g.kinds[sec], g.log[sec], e, b1[sec], g1.kinds[sec]);
  }

  lemma InPutSizes(al: seq<Action>, b: Buffers, l: Labels, g: Trace, ofs: seq<int>, sec: nat, p: int, est: int)
    requires InPut(al, b, l, g, ofs, sec, p, est)
    ensures sec < |b| == |g.kinds| == |g.log| == |ofs| && forall s :: 0 <= s < |b| ==> |g.kinds[s]| == |b[s]|
    ensures LinksOk(b, l, g.hist, g.chains) && SameShape(b, g.kinds) && 0 <= p && 0 <= est
  {
  }

  /** A branch: its link, and the estimated offset behind it. */
  lemma RelStep(al: seq<Action>, b: Buffers, l: Labels, g: Trace, ofs: seq<int>, sec: nat, p: int, est: int,
                n: int, e: Event, l1: Labels, cs1: Chains)
    requires InPut(al, b, l, g, ofs, sec, p, est) && p < |al| && ActionOk(al[p]) && al[p].Rel?
    requires 0 < |b[sec]| && |b[sec]| + 2 <= SEC
    requires e.Ref? && e.slot == Pos(sec, |b[sec]|) && LinksOk(Append(b, sec, n), l1, g.hist + [e], cs1)
    ensures var est1 := est + al[p].br.OpLen() + 4;
      var b1 := Append(Append(b, sec, n), sec, est1);
      var g1 := Kinded(Kinded(g, sec, [KLink]), sec, [KEst]).(hist := g.hist + [e], chains := cs1);
      InPut(al, b1, l1, Logged(g1, sec, Entry(p, |b[sec]|, est, 0)), ofs, sec, p + 1, est1)
  {
    hide LinksOk, Linked, Closed, Open, Walk;
    InPutSizes(al, b, l, g, ofs, sec, p, est);
    var est1 := est + al[p].br.OpLen() + 4;
    var g0 := Kinded(g, sec, [KLink]).(hist := g.hist + [e], chains := cs1);
    var b1 := Append(Append(b, sec, n), sec, est1);
    RefKeeps(al, b, l, g, sec, n, e, l1, cs1);
    StoreKeeps(al, Append(b, sec, n), l1, g0, sec, est1, KEst);
    var g1 := Kinded(g0, sec, [KEst]);
    assert g1 == Kinded(Kinded(g, sec, [KLink]), sec, [KEst]).(hist := g.hist + [e], chains := cs1);
    assert g1.hist[|g.hist|] == e;
    assert HasRef(g1.hist, sec * SEC + |b[sec]|);
    PlainStep(al, b, l, g, ofs, sec, Entry(p, |b[sec]|, est, 0), b1, l1, g1);
  }

  lemma ClosedSame(al: seq<Action>, b: seq<int>, b': seq<int>, ks: seq<SlotKind>, es: seq<Entry>, ofs: int)
    requires Closed(al, b, ks, es, ofs) && SameButLinks(b, b', ks)
    ensures Closed(al, b', ks, es, ofs)
  {
    if es != [] { WalkSame(al, b, b', ks, es); }
  }

  lemma OpenSame(al: seq<Action>, b: seq<int>, b': seq<int>, ks: seq<SlotKind>, es: seq<Entry>, p: int, est: int)
    requires Open(al, b, ks, es, p, est) && SameButLinks(b, b', ks)
    ensures Open(al, b', ks, es, p, est)
  {
    WalkSame(al, b, b', ks, es + [Entry(p, |b|, est, 0)]);
  }

  /** A label: its chain is filled, and the estimated offset stored. */
  lemma LabelStep(al: seq<Action>, b: Buffers, l: Labels, g: Trace, ofs: seq<int>, sec: nat, p: int, est: int, k: Key)
    requires InPut(al, b, l, g, ofs, sec, p, est) && p < |al| && ActionOk(al[p]) && al[p].Label? && l.Has(k)
    requires 0 < |b[sec]| && forall s :: 0 <= s < |b| ==> |b[s]| + 2 <= SEC
    ensures var pos := Pos(sec, |b[sec]|);
      var b1 := Filled(b, Chain(g.chains, k), pos);
      var g1 := g.(hist := g.hist + [Def(pos, k)], chains := g.chains[k := []]);
      |b1| == |b| && |b1[sec]| == |b[sec]|
      && InPut(al, Append(b1, sec, est), l.Set(k, -pos), Logged(Kinded(g1, sec, [KEst]), sec, Entry(p, |b[sec]|, est, 0)),
               ofs, sec, p + 1, est)
  {
    hide LinksOk, Linked, Closed, Open, Walk, SameButLinks;
    InPutSizes(al, b, l, g, ofs, sec, p, est);
    var e, c, pos := Entry(p, |b[sec]|, est, 0), Chain(g.chains, k), Pos(sec, |b[sec]|);
    var b1 := Filled(b, c, pos);
    LabelKeeps(al, b, l, g, sec, k, e);
    FilledSizes(b, c, pos);
    forall s | 0 <= s < |b| ensures SameButLinks(b[s], b1[s], g.kinds[s]) {
      FillSame(al, b, l, g, k, pos, s);
    }
    forall s | 0 <= s < |b| && s != sec ensures Closed(al, b1[s], g.kinds[s], g.log[s], ofs[s]) {
      ClosedSame(al, b[s], b1[s], g.kinds[s], g.log[s], ofs[s]);
    }
    OpenSame(al, b[sec], b1[sec], g.kinds[sec], g.log[sec], p, est);
    OpenStep(al, b1[sec], g.kinds[sec], g.log[sec], e, b1[sec] + [est], g.kinds[sec] + [KEst]);
  }
}
