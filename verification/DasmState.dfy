/** The DynASM encoder state and its first pass as a method. */
module DasmState {
  import opened Wrappers
  import opened DasmChains
  import opened DasmLabels
  import opened DasmPut
  import opened DasmLink
  import opened DasmShrink
  import opened DasmGlobals
  import opened DasmEncode
  import opened DasmEmit

  /** DASM_S_*: the encoder works with DASM_CHECKS. */
  datatype Status = Okay | RangeI | RangeSec | RangeLg | RangePc | UndefL(n: int) | UndefPc(n: int) | MatchSec(n: int) | Phase

  // ------------------------------------------------ what a put does, as functions

  /** The label an argument names, and how a reference to it is bound. */
  function KeyOf(a: LabelArg, args: seq<int>): Key {
    match a
    case LgNum(n) => if n > 246 then Lg(n - 246) else Lg(n)
    case PcArg => if |args| > 0 && args[0] >= 0 then Pc(args[0]) else Pc(0)
  }

  function DirOf(a: LabelArg): Dir {
    match a
    case LgNum(n) => if n > 246 then Fwd else if n < 10 then Bwd else Any
    case PcArg => Any
  }

  /** A backward reference needs a remembered definition, and no forward reference to the
      label may be waiting. */
  ghost predicate BackwardOk(h: History, k: Key) {
    LastDef(h, k).Some? && forall t :: 0 <= t < |h| && h[t].Ref? && h[t].key == k ==> Binding(h, t).Some?
  }

  /** The arguments a put from action `p` takes are there, and no space is negative. */
  ghost predicate ArgsOk(al: seq<Action>, p: nat, args: seq<int>)
    decreases |al| - p
  {
    p < |al| && (if al[p].Terminal() then true else
      al[p].Args() <= |args| && (al[p].Space? ==> args[0] >= 0) && ArgsOk(al, p + 1, args[al[p].Args()..]))
  }

  /** The event of one action. */
  ghost function ActionEvents(a: Action, args: seq<int>, sec: nat, idx: nat): History {
    match a
    case Rel(_, t) => [Ref(sec * SEC + idx, KeyOf(t, args), DirOf(t))]
    case Label(t) => [Def(sec * SEC + idx, KeyOf(t, args))]
    case _ => []
  }

  /** What a put leaves behind: its status, the label history, and the executed actions of
      its section. */
  datatype Outcome = Outcome(status: Status, hist: History, es: seq<Entry>)

  /** A put from action `p`, with the next slot at `idx` and the estimated offset `est`: each
      action is executed in order, until a check fails or the put ends. */
  ghost function PutRun(al: seq<Action>, p: nat, args: seq<int>, sec: nat, idx: nat, est: int, h: History, es: seq<Entry>,
                        lgsize: nat, pcsize: nat, maxsec: nat): Outcome
    decreases |al| - p
  {
    if p >= |al| || al[p].Args() > |args| then Outcome(Okay, h, es)
    else if al[p].Terminal() then
      Outcome(if al[p].Section? && al[p].sec >= maxsec then RangeSec else Okay, h, es + [Entry(p, idx, est, 0)])
    else if ActionStatus(al[p], args, h, lgsize, pcsize) != Okay then
      Outcome(ActionStatus(al[p], args, h, lgsize, pcsize), h, es)
    else
      PutRun(al, p + 1, args[al[p].Args()..], sec, idx + al[p].Slots(), est + al[p].MaxSize(StoredArg(al[p], args)),
             h + ActionEvents(al[p], args, sec, idx), es + [Entry(p, idx, est, StoredArg(al[p], args))],
             lgsize, pcsize, maxsec)
  }

  /** The action that ends a put. */
  function EndAt(al: seq<Action>, p: nat): (e: nat)
    ensures p <= e && (e < |al| ==> al[e].Terminal())
    decreases |al| - p
  {
    if p >= |al| || al[p].Terminal() then p else EndAt(al, p + 1)
  }

  /** How many arguments the `k` actions from `p` on take. */
  function ArgCount(al: seq<Action>, p: nat, k: nat): nat
    requires p + k <= |al|
  {
    if k == 0 then 0 else ArgCount(al, p, k - 1) + al[p + k - 1].Args()
  }

  lemma {:induction false} CountFirst(al: seq<Action>, p: nat, k: nat)
    requires 0 < k && p + k <= |al|
    ensures ArgCount(al, p, k) == al[p].Args() + ArgCount(al, p + 1, k - 1)
  {
    if k > 1 { CountFirst(al, p, k - 1); } else { assert ArgCount(al, p, 0) == 0; }
  }

  /** Entry `j` of those from `n` on: its action is as many after the first, and an immediate or a
      space has the argument whose turn it is. */
  predicate InTurn(al: seq<Action>, p: nat, args: seq<int>, es: seq<Entry>, n: nat, j: nat) {
    && n <= j < |es| && es[j].p == p + (j - n) < |al|
    && (al[es[j].p].Imm? || al[es[j].p].Space? ==> ArgCount(al, p, j - n) < |args| && es[j].arg == args[ArgCount(al, p, j - n)])
  }

  /** A put without a failing check executes all actions up to the one that ends it. */
  lemma {:induction false} PutExecutes(al: seq<Action>, p: nat, args: seq<int>, sec: nat, idx: nat, est: int, h: History, es: seq<Entry>,
                                       lgsize: nat, pcsize: nat, maxsec: nat)
    requires ArgsOk(al, p, args) && PutRun(al, p, args, sec, idx, est, h, es, lgsize, pcsize, maxsec).status == Okay
    ensures var es1 := PutRun(al, p, args, sec, idx, est, h, es, lgsize, pcsize, maxsec).es;
      es <= es1 && |es1| == |es| + (EndAt(al, p) - p) + 1 && EndAt(al, p) < |al|
      && forall j: nat {:trigger InTurn(al, p, args, es1, |es|, j)} :: |es| <= j < |es1| ==> InTurn(al, p, args, es1, |es|, j)
    decreases |al| - p
  {
    var es1, n := PutRun(al, p, args, sec, idx, est, h, es, lgsize, pcsize, maxsec).es, |es|;
    if !al[p].Terminal() {
      var rest, e := args[al[p].Args()..], Entry(p, idx, est, StoredArg(al[p], args));
      var idx1, est1, h1 := idx + al[p].Slots(), est + al[p].MaxSize(StoredArg(al[p], args)), h + ActionEvents(al[p], args, sec, idx);
      PutExecutes(al, p + 1, rest, sec, idx1, est1, h1, es + [e], lgsize, pcsize, maxsec);
      assert es1 == PutRun(al, p + 1, rest, sec, idx1, est1, h1, es + [e], lgsize, pcsize, maxsec).es;
      assert es1[n] == (es + [e])[n];
      forall j: nat | n <= j < |es1| ensures InTurn(al, p, args, es1, n, j) {
        if j > n { assert InTurn(al, p + 1, rest, es1, |es + [e]|, j); }
        TurnNext(al, p, args, es1, n, j);
      }
    } else {
      assert ArgCount(al, p, 0) == 0;
    }
  }

  lemma TurnNext(al: seq<Action>, p: nat, args: seq<int>, es: seq<Entry>, n: nat, j: nat)
    requires p < |al| && n <= j < |es| && es[n].p == p && es[n].arg == StoredArg(al[p], args) && al[p].Args() <= |args|
    requires j > n ==> InTurn(al, p + 1, args[al[p].Args()..], es, n + 1, j)
    ensures InTurn(al, p, args, es, n, j)
  {
    if j > n { CountFirst(al, p, j - n); } else { assert ArgCount(al, p, 0) == 0; }
  }

  function StoredArg(a: Action, args: seq<int>): int {
    if (a.Imm? || a.Space?) && |args| > 0 then args[0] else 0
  }

  ghost function ActionStatus(a: Action, args: seq<int>, h: History, lgsize: nat, pcsize: nat): Status {
    match a
    case Imm(k) => if |args| > 0 && k.InRange(args[0]) then Okay else RangeI
    case Rel(_, t) => RefStatus(t, args, h, lgsize, pcsize)
    case Label(t) => LabelStatus(t, args, lgsize, pcsize)
    case _ => Okay
  }

  ghost function RefStatus(t: LabelArg, args: seq<int>, h: History, lgsize: nat, pcsize: nat): Status {
    match t
    case LgNum(n) =>
      if n > 246 then Okay
      else if n < 10 && !BackwardOk(h, Lg(n)) then RangeLg
      else if n >= lgsize then RangeLg else Okay
    case PcArg => if |args| > 0 && 0 <= args[0] < pcsize then Okay else RangePc
  }

  ghost function LabelStatus(t: LabelArg, args: seq<int>, lgsize: nat, pcsize: nat): Status {
    match t
    case LgNum(n) => if n < lgsize then Okay else RangeLg
    case PcArg => if |args| > 0 && 0 <= args[0] < pcsize then Okay else RangePc
  }

  /** The cell of a local label is negative exactly when a backward reference is in order. */
  lemma BackwardCell(b: Buffers, l: Labels, h: History, cs: Chains, k: Key)
    requires LinksOk(b, l, h, cs) && k.Local()
    ensures l.Cell(k) < 0 <==> BackwardOk(h, k)
  {
    BackwardAccepted(b, l, h, cs, k);
    if l.Cell(k) < 0 {
      forall t | 0 <= t < |h| && h[t].Ref? && h[t].key == k ensures Binding(h, t).Some? {
        assert RefOk(b, l, h, cs, t);
      }
    } else if Chain(cs, k) != [] {
      assert Waiting(h, k, Chain(cs, k)[0]);
      assert !BackwardOk(h, k);
    }
  }

  /** A local label is defined and referred to backward by its number, and forward by its number
      above 246; other numbers are globals, which are referred to either way. */
  lemma LocalForms(n: nat, args: seq<int>)
    requires n < 247
    ensures KeyOf(LgNum(n), args) == Lg(n) && KeyOf(LgNum(246 + n), args) == if n == 0 then Lg(246) else Lg(n)
    ensures DirOf(LgNum(n)) == if n < 10 then Bwd else Any
    ensures n > 0 ==> DirOf(LgNum(246 + n)) == Fwd
  {
  }

  /** What one successful action changes, apart from the links: its slots, the label history
      and the executed actions. */
  ghost predicate Stepped(al: seq<Action>, p: nat, args: seq<int>, sec: nat, est: int, b0: Buffers, g0: Trace, b: Buffers, g: Trace) {
    p < |al| && sec < |b0| == |b| && sec < |g0.log|
    && |b[sec]| == |b0[sec]| + al[p].Slots()
    && (forall s :: 0 <= s < |b| && s != sec ==> |b[s]| == |b0[s]|)
    && g.hist == g0.hist + ActionEvents(al[p], args, sec, |b0[sec]|)
    && g.log == Logged(g0, sec, Entry(p, |b0[sec]|, est, StoredArg(al[p], args))).log
  }

  lemma RunStep(al: seq<Action>, p: nat, args: seq<int>, sec: nat, est: int, b0: Buffers, g0: Trace, b: Buffers, g: Trace,
                lgsize: nat, pcsize: nat, maxsec: nat)
    requires Stepped(al, p, args, sec, est, b0, g0, b, g) && !al[p].Terminal() && ArgsOk(al, p, args)
    requires ActionStatus(al[p], args, g0.hist, lgsize, pcsize) == Okay
    ensures |g.log| == |g0.log| && g.log == g0.log[sec := g.log[sec]] && ArgsOk(al, p + 1, args[al[p].Args()..])
    ensures PutRun(al, p, args, sec, |b0[sec]|, est, g0.hist, g0.log[sec], lgsize, pcsize, maxsec) ==
      PutRun(al, p + 1, args[al[p].Args()..], sec, |b[sec]|, est + al[p].MaxSize(StoredArg(al[p], args)), g.hist, g.log[sec],
             lgsize, pcsize, maxsec)
  {
  }

  lemma InPutLinks(al: seq<Action>, b: Buffers, l: Labels, g: Trace, ofs: seq<int>, sec: nat, p: int, est: int)
    requires InPut(al, b, l, g, ofs, sec, p, est)
    ensures LinksOk(b, l, g.hist, g.chains) && sec < |b| == |g.kinds| == |g.log|
  {
  }

  /** The history knows every label that was executed, and only local labels are referred to
      forward. */
  ghost predicate Recorded(al: seq<Action>, h: History, log: seq<seq<Entry>>) {
    (forall t :: 0 <= t < |h| ==> RefKeyOk(h[t]))
    && forall s :: 0 <= s < |log| ==> LabelsRecorded(al, h, log[s])
  }

  ghost predicate RefKeyOk(e: Event) {
    e.Ref? ==> e.key != Lg(0) && (e.dir == Fwd ==> e.key.Local())
  }

  ghost predicate LabelsRecorded(al: seq<Action>, h: History, es: seq<Entry>) {
    forall k :: 0 <= k < |es| ==> LabelRecorded(al, h, es[k])
  }

  ghost predicate LabelRecorded(al: seq<Action>, h: History, e: Entry) {
    0 <= e.p < |al| && al[e.p].Label? && al[e.p].name.LgNum? ==> HasDef(h, Lg(al[e.p].name.n))
  }

  ghost predicate HasDef(h: History, k: Key) {
    exists t :: 0 <= t < |h| && h[t].Def? && h[t].key == k
  }

  lemma RecordedLonger(al: seq<Action>, h: History, h': History, es: seq<Entry>)
    requires LabelsRecorded(al, h, es) && h <= h'
    ensures LabelsRecorded(al, h', es)
  {
    forall k | 0 <= k < |es| ensures LabelRecorded(al, h', es[k]) {
      assert LabelRecorded(al, h, es[k]);
      if 0 <= es[k].p < |al| && al[es[k].p].Label? && al[es[k].p].name.LgNum? {
        var t :| 0 <= t < |h| && h[t].Def? && h[t].key == Lg(al[es[k].p].name.n);
        assert h'[t] == h[t];
      }
    }
  }

  /** A put keeps the record, whatever it executes. */
  lemma {:induction false} RunRecords(al: seq<Action>, p: nat, args: seq<int>, sec: nat, idx: nat, est: int, h: History,
                                      es: seq<Entry>, lgsize: nat, pcsize: nat, maxsec: nat)
    requires ValidActions(al) && (forall t :: 0 <= t < |h| ==> RefKeyOk(h[t])) && LabelsRecorded(al, h, es)
    ensures var run := PutRun(al, p, args, sec, idx, est, h, es, lgsize, pcsize, maxsec);
      h <= run.hist && (forall t :: 0 <= t < |run.hist| ==> RefKeyOk(run.hist[t])) && LabelsRecorded(al, run.hist, run.es)
    decreases |al| - p
  {
    if p < |al| && al[p].Args() <= |args| && !al[p].Terminal() && ActionStatus(al[p], args, h, lgsize, pcsize) == Okay {
      var h1, es1 := h + ActionEvents(al[p], args, sec, idx), es + [Entry(p, idx, est, StoredArg(al[p], args))];
      RecordedLonger(al, h, h1, es);
      assert ActionOk(al[p]);
      if al[p].Label? { assert h1[|h|].Def?; }
      RunRecords(al, p + 1, args[al[p].Args()..], sec, idx + al[p].Slots(), est + al[p].MaxSize(StoredArg(al[p], args)),
                 h1, es1, lgsize, pcsize, maxsec);
    }
  }

  /** Label 0 does not exist, so nothing waits for it. */
  lemma NoLabelZero(b: Buffers, l: Labels, h: History, cs: Chains)
    requires LinksOk(b, l, h, cs) && forall t :: 0 <= t < |h| ==> RefKeyOk(h[t])
    ensures l.Cell(Lg(0)) <= 0
  {
    assert CellOk(b, l, h, cs, Lg(0));
    var c := Chain(cs, Lg(0));
    var q := if c == [] then 0 else c[0];
    assert c != [] ==> q in c;
    NeverWaits(h, q);
  }

  lemma NeverWaits(h: History, q: int)
    requires forall t :: 0 <= t < |h| ==> RefKeyOk(h[t])
    ensures !Waiting(h, Lg(0), q)
  {
  }

  /** A branch to a global outside the program: nothing in the program overwrites its address. */
  lemma {:induction false} GlobalKept(pl: Plan, gl: seq<int>, n: int, i: nat)
    requires PlanOk(pl) && i <= |pl.items| && 10 <= n < |gl| + 10
    requires forall j :: 0 <= j < |pl.items| ==> ActionAt(pl, j) != Label(LgNum(n))
    ensures GlobalsAt(pl, gl, i)[n - 10] == gl[n - 10]
    decreases i
  {
    if i > 0 { GlobalKept(pl, gl, n, i - 1); }
  }

  /** A label that is defined somewhere in the history binds every reference that may look
      both ways. */
  lemma {:induction false} LastFound(h: History, k: Key)
    requires HasDef(h, k) && !k.Local()
    ensures LastDef(h, k).Some?
    decreases |h|
  {
    var t :| 0 <= t < |h| && h[t].Def? && h[t].key == k;
    if t < |h| - 1 && !(h[|h| - 1].Def? && h[|h| - 1].key == k) {
      assert h[..|h| - 1][t] == h[t];
      LastFound(h[..|h| - 1], k);
    }
  }

  lemma {:induction false} NextFound(h: History, t: nat, u: nat)
    requires t <= u < |h| && h[u].Def?
    ensures NextDef(h, t, h[u].key).Some?
    decreases u - t
  {
    if t < u { NextFound(h, t + 1, u); }
  }

  lemma UnboundUndefined(h: History, t: nat)
    requires t < |h| && h[t].Ref? && h[t].dir == Any && !h[t].key.Local() && Binding(h, t).None?
    ensures !HasDef(h, h[t].key)
  {
    var k := h[t].key;
    forall u | 0 <= u < |h| && h[u].Def? && h[u].key == k ensures false {
      if u < t {
        assert h[..t][u] == h[u];
        LastFound(h[..t], k);
      } else {
        NextFound(h, t + 1, u);
      }
      assert false;
    }
  }

  /** The smallest refusal: the label is defined, but a forward reference to it is waiting. */
  lemma BackwardRefused()
    ensures var h := [Def(1, Lg(1)), Ref(2, Lg(1), Fwd)];
      LastDef(h, Lg(1)) == Some(1) && !BackwardOk(h, Lg(1))
  {
    var h := [Def(1, Lg(1)), Ref(2, Lg(1), Fwd)];
    assert h[..1] == [Def(1, Lg(1))];
    assert LastDef(h[..1], Lg(1)) == Some(1);
    assert h[1].Ref? && Binding(h, 1).None?;
  }

  // ---------------------------------------------------------------- a linked program

  /** The program laid out at load address `base`. */
  ghost function PlanOf(al: seq<Action>, ofs: seq<int>, log: seq<seq<Entry>>, tg: seq<int>, f: seq<int>, links: seq<int>, base: int): Plan {
    Plan(al, ofs, Flat(log, |log|), tg, f, links, base)
  }

  /** Every branch of the program has its target by the history. */
  ghost predicate AllBound(pl: Plan, h: History) {
    |pl.links| == |pl.items| == |pl.tg|
    && forall i :: 0 <= i < |pl.items| && ActionAt(pl, i).Rel? ==> Bound(pl.al, pl.links, h, pl.items, pl.tg, i)
  }

  /** After pass 2 the buffers are ready for pass 3. */
  lemma LinkedEncodable(pl: Plan, b0: Buffers, b: Buffers, ks: seq<seq<SlotKind>>, log: seq<seq<Entry>>)
    requires Linking(pl.al, b0, b, ks, log, pl.ofs, pl.items, pl.tg, pl.f) && |pl.f| == |pl.items| + 1
    requires pl.links == LinksOf(pl.al, b0, pl.items)
    ensures Encodable(pl, b, ks, log)
  {
    forall s | 0 <= s < |b| ensures |b[s]| <= SEC && Walks(pl.al, b[s], ks[s], log[s], pl.ofs[s]) {
      LinkingWalks(pl.al, b0, b, ks, log, pl.ofs, pl.items, pl.tg, pl.f, s);
    }
    forall i | 0 <= i < |pl.items| && ActionAt(pl, i).Rel? ensures pl.links[i] == LinkOf(pl.al, b, pl.items[i]) {
      SameLink(pl, b0, b, ks, log, i);
    }
    PlanIsOk(pl, b0);
  }

  lemma SameLink(pl: Plan, b0: Buffers, b: Buffers, ks: seq<seq<SlotKind>>, log: seq<seq<Entry>>, i: nat)
    requires Linking(pl.al, b0, b, ks, log, pl.ofs, pl.items, pl.tg, pl.f) && i < |pl.items| && ActionAt(pl, i).Rel?
    ensures LinkOf(pl.al, b, pl.items[i]) == LinkOf(pl.al, b0, pl.items[i])
  {
    var s, k := ItemFind(log, pl.items, i);
    assert SameButEst(b0[s], b[s], ks[s]) && Walks(pl.al, b0[s], ks[s], log[s], pl.ofs[s]);
    WalksAt(pl.al, b0[s], ks[s], log[s], pl.ofs[s], k);
  }

  lemma PlanIsOk(pl: Plan, b0: Buffers)
    requires Program(pl.al, pl.ofs, pl.items) && Layout(pl.al, pl.ofs, pl.items, pl.tg, pl.f) && |pl.f| == |pl.items| + 1
    requires LinksFound(pl.al, b0, pl.items, pl.tg) && pl.links == LinksOf(pl.al, b0, pl.items)
    ensures PlanOk(pl)
  {
    forall i | 0 <= i < |pl.items| && ActionOf(pl.al, pl.items[i]).Rel?
      ensures if pl.links[i] < 0 then pl.tg[i] == -1 else LabelItem(pl.al, pl.items, pl.links[i], pl.tg[i])
    {
      if pl.links[i] < 0 {
        NoLabelBelowZero(pl.al, pl.ofs, pl.items, pl.links[i]);
      } else {
        TargetIs(pl.al, pl.items, pl.links[i]);
      }
    }
  }

  /** Where the branch at item `i` lands when the code runs: at the final address of the label
      its reference is bound to by the history, or at the address of the outside global. */
  ghost predicate Lands(pl: Plan, code: seq<int>, gl: seq<int>, h: History, i: nat, t: nat) {
    PlanOk(pl) && i < |pl.items| && ActionAt(pl, i).Rel? && 0 <= pl.f[i] <= pl.f[i + 1] <= |code|
    && t < |h| && h[t].Ref? && h[t].slot == ItemPos(pl.items[i])
    && var d := Decode(code[pl.f[i]..pl.f[i + 1]]);
       d.Some? && d.value.br == ActionAt(pl, i).br && d.value.len == pl.f[i + 1] - pl.f[i]
       && match Binding(h, t)
          case Some(p) => LabelItem(pl.al, pl.items, p, pl.tg[i]) && AddressIs(d.value, pl.f[i + 1] + d.value.disp, pl.f[pl.tg[i]])
          case None => h[t].key.Lg? && 10 <= h[t].key.n < |gl| + 10
                       && AddressIs(d.value, pl.base + pl.f[i + 1] + d.value.disp, gl[h[t].key.n - 10])
  }

  /** Addresses are compared modulo 2^32, and exactly for the short forms. */
  predicate AddressIs(d: Decoded, a: int, target: int) {
    (a - target) % WORD == 0 && (d.len == 2 ==> a == target)
  }

  /** In a linked program every branch lands. */
  lemma AllLand(pl: Plan, b: Buffers, ks: seq<seq<SlotKind>>, log: seq<seq<Entry>>, gl: seq<int>, h: History, i: nat) returns (t: nat)
    requires Encodable(pl, b, ks, log) && AllBound(pl, h) && Recorded(pl.al, h, log)
    requires i < |pl.items| && ActionAt(pl, i).Rel?
    requires forall u :: 0 <= u < |h| && h[u].Ref? && h[u].key.Lg? ==> h[u].key.n < |gl| + 10
    ensures Lands(pl, CodeTo(pl, gl, |pl.items|), gl, h, i, t)
  {
    hide Decode, CodeTo, GlobalsAt;
    BranchLands(pl, gl, i);
    assert Bound(pl.al, pl.links, h, pl.items, pl.tg, i);
    t :| BoundBy(pl.al, pl.links, h, pl.items, pl.tg, i, t);
    if Binding(h, t).None? {
      OutsideGlobal(pl, log, gl, h, i, t);
    }
  }

  lemma OutsideGlobal(pl: Plan, log: seq<seq<Entry>>, gl: seq<int>, h: History, i: nat, t: nat)
    requires PlanOk(pl) && Lists(log, pl.items) && Recorded(pl.al, h, log) && BoundBy(pl.al, pl.links, h, pl.items, pl.tg, i, t)
    requires Binding(h, t).None? && h[t].key.n < |gl| + 10
    ensures BranchDisp(pl, GlobalsAt(pl, gl, i), i) == gl[h[t].key.n - 10] - pl.base - pl.f[i + 1]
  {
    hide Recorded, Lists, Layout, Program, GlobalsAt;
    RefKeyIs(pl.al, h, log, t);
    UnboundUndefined(h, t);
    NotALabel(pl, log, h, h[t].key.n);
    GlobalKept(pl, gl, h[t].key.n, i);
  }

  lemma RefKeyIs(al: seq<Action>, h: History, log: seq<seq<Entry>>, t: nat)
    requires Recorded(al, h, log) && t < |h|
    ensures RefKeyOk(h[t])
  {
  }

  lemma NotALabel(pl: Plan, log: seq<seq<Entry>>, h: History, n: nat)
    requires Lists(log, pl.items) && Recorded(pl.al, h, log) && !HasDef(h, Lg(n))
    ensures forall j :: 0 <= j < |pl.items| ==> ActionAt(pl, j) != Label(LgNum(n))
  {
    forall j | 0 <= j < |pl.items| ensures ActionAt(pl, j) != Label(LgNum(n)) {
      var s, k := ItemFind(log, pl.items, j);
      assert LabelsRecorded(pl.al, h, log[s]) && LabelRecorded(pl.al, h, log[s][k]);
    }
  }

  ghost predicate KeysIn(h: History, lgsize: nat) {
    forall u :: 0 <= u < |h| && h[u].Ref? && h[u].key.Lg? ==> h[u].key.n < lgsize
  }

  lemma LinkKeys(b: Buffers, l: Labels, h: History, cs: Chains)
    requires LinksOk(b, l, h, cs)
    ensures KeysIn(h, |l.lg|)
  {
    forall u | 0 <= u < |h| && h[u].Ref? && h[u].key.Lg? ensures h[u].key.n < |l.lg| {
      assert RefOk(b, l, h, cs, u);
    }
  }

  /** A check step keeps what is known between puts. */
  lemma StepPass1(al: seq<Action>, b: Buffers, l: Labels, g: Trace, ofs: seq<int>)
    requires Pass1(al, b, l, g, ofs) && forall n :: 1 <= n <= 9 && n < |l.lg| ==> l.lg[n] <= 0
    ensures Pass1(al, b, Cleared(l), g.(hist := g.hist + [Step]), ofs)
  {
    StepKeeps(b, l, g.hist, g.chains);
    forall s, k | 0 <= s < |g.log| && 0 <= k < |g.log[s]| && 0 <= g.log[s][k].p < |al| && al[g.log[s][k].p].Rel?
      ensures HasRef(g.hist + [Step], s * SEC + g.log[s][k].idx)
    {
      HasRefAppend(g.hist, Step, s * SEC + g.log[s][k].idx);
    }
  }

  lemma RecordStep(al: seq<Action>, h: History, log: seq<seq<Entry>>)
    requires Recorded(al, h, log)
    ensures Recorded(al, h + [Step], log)
  {
    forall s | 0 <= s < |log| ensures LabelsRecorded(al, h + [Step], log[s]) {
      RecordedLonger(al, h, h + [Step], log[s]);
    }
  }

  lemma ReadyBound(al: seq<Action>, b: Buffers, l: Labels, g: Trace, ofs: seq<int>, b1: Buffers, items: seq<Item>)
    requires Pass1(al, b, l, g, ofs) && NonePending(l) && b1 == Marked(b, g.chains, |l.lg|)
    requires forall s :: 0 <= s < |b| ==> |b[s]| <= SEC
    requires Lists(g.log, items) && Program(al, ofs, items)
    ensures forall i :: 0 <= i < |items| && ActionOf(al, items[i]).Rel? ==>
      Bound(al, LinksOf(al, b1, items), g.hist, items, Targets(al, b1, items), i)
  {
    forall i | 0 <= i < |items| && ActionOf(al, items[i]).Rel?
      ensures Bound(al, LinksOf(al, b1, items), g.hist, items, Targets(al, b1, items), i)
    {
      BranchBound(al, b, l, g, ofs, b1, items, i);
    }
  }

  /** What pass 2 establishes for the program, at any load address. */
  ghost predicate ReadyPlan(pl: Plan, b: Buffers, g: Trace) {
    Encodable(pl, b, g.kinds, g.log) && AllBound(pl, g.hist)
  }

  /** The first PC label with references waiting, if any. */
  method UndefinedPc(pclabels: seq<int>) returns (pc: nat)
    ensures pc <= |pclabels| && (forall n :: 0 <= n < pc ==> pclabels[n] <= 0) && (pc < |pclabels| ==> pclabels[pc] > 0)
  {
    pc := 0;
    while pc < |pclabels| && pclabels[pc] <= 0
      invariant pc <= |pclabels| && forall n :: 0 <= n < pc ==> pclabels[n] <= 0
    {
      pc := pc + 1;
    }
  }

  /** Pass 2, from the state between puts. */
  method LinkAll(al: seq<Action>, b0: Buffers, ofs: seq<int>, lg: seq<int>, ghost l: Labels, ghost g: Trace)
    returns (b: Buffers, size: int, ghost tg: seq<int>, ghost links: seq<int>, ghost f: seq<int>)
    requires ValidActions(al) && Pass1(al, b0, l, g, ofs) && Recorded(al, g.hist, g.log) && l.lg == lg && |lg| >= 10
    requires (forall n :: 1 <= n <= 9 ==> lg[n] <= 0) && (forall n :: 0 <= n < |l.pc| ==> l.pc[n] <= 0)
    requires forall s :: 0 <= s < |b0| ==> |b0[s]| <= SEC
    ensures |f| > 0 && size == f[|f| - 1]
    ensures forall base :: ReadyPlan(PlanOf(al, ofs, g.log, tg, f, links, base), b, g)
  {
    NoLabelZero(b0, l, g.hist, g.chains);
    var b1 := MarkGlobals(b0, lg, l, g.hist, g.chains);
    ghost var items := Flat(g.log, |g.log|);
    tg, links := Targets(al, b1, items), LinksOf(al, b1, items);
    ReadyToLink(al, b0, l, g, ofs, b1, items);
    ReadyBound(al, b0, l, g, ofs, b1, items);
    b, size, f := LinkSections(al, b1, ofs, g.kinds, g.log, items, tg);
    forall base ensures ReadyPlan(PlanOf(al, ofs, g.log, tg, f, links, base), b, g) {
      LinkedEncodable(PlanOf(al, ofs, g.log, tg, f, links, base), b1, b, g.kinds, g.log);
    }
  }

  // -------------------------------------------------------------- the encoder

  class DasmState {
    const al: seq<Action>
    const maxsection: nat
    var bufs: Buffers
    var ofs: seq<int>
    var lglabels: seq<int>
    var pclabels: seq<int>
    var section: nat
    var status: Status
    var codesize: int
    ghost var g: Trace
    ghost var targets: seq<int>
    ghost var links: seq<int>
    ghost var addrs: seq<int>

    function L(): Labels reads this { Labels(lglabels, pclabels) }

    /** The state between puts, as long as no check has failed. */
    ghost predicate Valid()
      reads this
    {
      Pass1Ok() && Recorded(al, g.hist, g.log)
    }

    ghost predicate Pass1Ok()
      reads this
    {
      ValidActions(al) && |bufs| == maxsection && section < maxsection && |lglabels| >= 10
      && Pass1(al, bufs, L(), g, ofs) && forall s :: 0 <= s < |bufs| ==> |bufs[s]| <= SEC
    }

    /** dasm_init, dasm_setupglobal, dasm_growpc and dasm_setup */
    constructor (al: seq<Action>, maxsection: nat, maxgl: nat, maxpc: nat)
      requires ValidActions(al) && 0 < maxsection
      ensures Valid() && status == Okay && this.al == al && this.maxsection == maxsection
      ensures |lglabels| == 10 + maxgl && |pclabels| == maxpc && section == 0
      ensures g.hist == [] && forall s :: 0 <= s < maxsection ==> bufs[s] == [] && g.log[s] == []
    {
      this.al, this.maxsection := al, maxsection;
      bufs := seq(maxsection, _ => []);
      ofs := seq(maxsection, _ => 0);
      lglabels := seq(10 + maxgl, _ => 0);
      pclabels := seq(maxpc, _ => 0);
      section := 0;
      status := Okay;
      codesize := 0;
      targets, links, addrs := [], [], [];
      g := Trace(seq(maxsection, _ => []), [], map[], seq(maxsection, _ => []));
      new;
      forall k ensures CellOk(bufs, L(), g.hist, g.chains, k) {}
    }

    /** Positions fit in 24 bits whatever a put adds. */
    ghost predicate Room()
      reads this
    {
      forall s :: 0 <= s < |bufs| ==> |bufs[s]| + 2 * |al| + 3 <= SEC
    }

    /** putrel/linkrel: store a link to label `k` and the estimated offset behind the branch.
        `n` is the label's cell, or 0 to start a new chain. */
    method PutLink(sec: nat, ghost p: nat, k: Key, dir: Dir, n: int, est: int, est1: int, ghost ofs0: seq<int>)
      requires ValidActions(al) && InPut(al, bufs, L(), g, ofs0, sec, p, est) && p < |al| && al[p].Rel?
      requires 0 < |bufs[sec]| && |bufs[sec]| + 2 <= SEC && est1 == est + al[p].br.OpLen() + 4 && L().Has(k)
      requires if dir == Fwd then k.Local() && n == (if L().Cell(k) < 0 then 0 else L().Cell(k))
        else n == L().Cell(k) && (n < 0 || (dir == Any && !k.Local()))
      modifies this`bufs, this`lglabels, this`pclabels, this`g
      ensures InPut(al, bufs, L(), g, ofs0, sec, p + 1, est1)
      ensures |bufs| == old(|bufs|) && |bufs[sec]| == old(|bufs[sec]|) + 2
      ensures forall s :: 0 <= s < |bufs| && s != sec ==> |bufs[s]| == old(|bufs[s]|)
      ensures |lglabels| == old(|lglabels|) && |pclabels| == old(|pclabels|)
      ensures g.hist == old(g.hist) + [Ref(Pos(sec, old(|bufs[sec]|)), k, dir)]
      ensures g.log == Logged(old(g), sec, Entry(p, old(|bufs[sec]|), est, 0)).log
    {
      hide InPut;
      InPutLinks(al, bufs, L(), g, ofs0, sec, p, est);
      ghost var g0, b0, l0 := g, bufs, L();
      var pos := Pos(sec, |bufs[sec]|);
      ghost var e := Ref(pos, k, dir);
      if n < 0 {
        BoundKeeps(bufs, L(), g.hist, g.chains, sec, k, dir);
        bufs := Append(bufs, sec, -n);
        g := g.(hist := g.hist + [e]);
        RelStep(al, b0, l0, g0, ofs0, sec, p, est, -n, e, l0, g0.chains);
      } else {
        LinkedKeeps(bufs, L(), g.hist, g.chains, sec, k, dir);
        bufs := Append(bufs, sec, n);
        SetCell(k, pos);
        g := g.(hist := g.hist + [e], chains := g.chains[k := [pos] + Chain(g.chains, k)]);
        RelStep(al, b0, l0, g0, ofs0, sec, p, est, n, e, L(), g.chains);
      }
      bufs := Append(bufs, sec, est1);
      g := Logged(Kinded(Kinded(g, sec, [KLink]), sec, [KEst]), sec, Entry(p, |b0[sec]|, est, 0));
    }

    method SetCell(k: Key, v: int)
      modifies this`lglabels, this`pclabels
      ensures L() == old(L()).Set(k, v)
    {
      match k
      case Lg(n) => if n < |lglabels| { lglabels := lglabels[n := v]; }
      case Pc(n) => if n < |pclabels| { pclabels := pclabels[n := v]; }
    }

    /** putlabel: collapse the chain of label `k` and remember its position. */
    method PutLabel(sec: nat, ghost p: nat, k: Key, est: int, ghost ofs0: seq<int>)
      requires ValidActions(al) && InPut(al, bufs, L(), g, ofs0, sec, p, est) && p < |al| && al[p].Label? && L().Has(k)
      requires 0 < |bufs[sec]| && forall s :: 0 <= s < |bufs| ==> |bufs[s]| + 2 <= SEC
      modifies this`bufs, this`lglabels, this`pclabels, this`g
      ensures InPut(al, bufs, L(), g, ofs0, sec, p + 1, est)
      ensures |bufs| == old(|bufs|) && |bufs[sec]| == old(|bufs[sec]|) + 1
      ensures forall s :: 0 <= s < |bufs| && s != sec ==> |bufs[s]| == old(|bufs[s]|)
      ensures |lglabels| == old(|lglabels|) && |pclabels| == old(|pclabels|)
      ensures g.hist == old(g.hist) + [Def(Pos(sec, old(|bufs[sec]|)), k)]
      ensures g.log == Logged(old(g), sec, Entry(p, old(|bufs[sec]|), est, 0)).log
    {
      hide InPut;
      InPutLinks(al, bufs, L(), g, ofs0, sec, p, est);
      ghost var g0 := g;
      var pos := Pos(sec, |bufs[sec]|);
      LabelStep(al, bufs, L(), g, ofs0, sec, p, est, k);
      assert CellOk(bufs, L(), g.hist, g.chains, k);
      FilledSizes(bufs, Chain(g.chains, k), pos);
      ghost var idx := |bufs[sec]|;
      bufs := Collapse(bufs, L().Cell(k), pos, Chain(g.chains, k));
      SetCell(k, -pos);
      bufs := Append(bufs, sec, est);
      g := g.(hist := g.hist + [Def(pos, k)], chains := g.chains[k := []]);
      g := Logged(Kinded(g, sec, [KEst]), sec, Entry(p, idx, est, 0));
    }

    /** What a put from action `p` does in the current state. */
    ghost function Run(sec: nat, p: nat, args: seq<int>, est: int): Outcome
      requires sec < |bufs| && sec < |g.log|
      reads this
    {
      PutRun(al, p, args, sec, |bufs[sec]|, est, g.hist, g.log[sec], |lglabels|, |pclabels|, maxsection)
    }

    /** dasm_put. The actions from `start` on are executed for the active section, up to a
        section switch or stop. The status says which check failed first, if any; if none
        did, the buffers, links and offsets are those the executed actions call for, and the
        section is the one switched to. */
    method Put(start: nat, args: seq<int>)
      requires Valid() && status == Okay && Room() && ArgsOk(al, start, args)
      modifies this`bufs, this`ofs, this`lglabels, this`pclabels, this`section, this`status, this`g
      ensures |lglabels| == old(|lglabels|) && |pclabels| == old(|pclabels|)
      ensures var run := PutRun(al, start, args, old(section), old(|bufs[section]|) + 1, old(ofs[section]), old(g.hist),
                                old(g.log[section]), |lglabels|, |pclabels|, maxsection);
        status == run.status
        && (status == Okay ==> Valid() && g.hist == run.hist && g.log == old(g.log)[old(section) := run.es])
      ensures status == Okay ==> EndAt(al, start) < |al| && section == if al[EndAt(al, start)].Section? then al[EndAt(al, start)].sec else old(section)
    {
      ghost var g0, s0 := g, section;
      ghost var run := PutRun(al, start, args, s0, |bufs[s0]| + 1, ofs[s0], g.hist, g.log[s0], |lglabels|, |pclabels|, maxsection);
      RunRecords(al, start, args, s0, |bufs[s0]| + 1, ofs[s0], g.hist, g.log[s0], |lglabels|, |pclabels|, maxsection);
      StartKeeps(start);
      PutActions(start, args);
      if status == Okay {
        forall s | 0 <= s < |g.log| ensures LabelsRecorded(al, g.hist, g.log[s]) {
          if s != s0 { RecordedLonger(al, g0.hist, g.hist, g0.log[s]); }
        }
      }
    }

    /** The loop of a put. */
    method PutActions(start: nat, args: seq<int>)
      requires section < |ofs| && InLoop(section, start, args, ofs[section])
      modifies this`bufs, this`ofs, this`lglabels, this`pclabels, this`section, this`status, this`g
      ensures |lglabels| == old(|lglabels|) && |pclabels| == old(|pclabels|)
      ensures var run := old(Run(section, start, args, ofs[section]));
        status == run.status
        && (status == Okay ==> Pass1Ok() && g.hist == run.hist && g.log == old(g.log)[old(section) := run.es])
      ensures status == Okay ==> EndAt(al, start) < |al| && section == if al[EndAt(al, start)].Section? then al[EndAt(al, start)].sec else old(section)
    {
      hide LinksOk, Closed, Open;
      var sec, p, rest, est := section, start, args, ofs[section];
      ghost var log0, run := g.log, Run(sec, p, rest, est);
      while !al[p].Terminal()
        invariant InLoop(sec, p, rest, est) && section == sec && Run(sec, p, rest, est) == run
        invariant EndAt(al, p) == EndAt(al, start)
        invariant |lglabels| == old(|lglabels|) && |pclabels| == old(|pclabels|)
        invariant |g.log| == |log0| && g.log == log0[sec := g.log[sec]]
        decreases |al| - p
      {
        var ok := Advance(sec, p, rest, est);
        if !ok {
          return;
        }
        est := est + al[p].MaxSize(StoredArg(al[p], rest));
        rest := rest[al[p].Args()..];
        p := p + 1;
      }
      Finish(sec, p, est);
    }

    /** The loop invariant of a put: action `p` is next, with the remaining arguments. */
    ghost predicate InLoop(sec: nat, p: nat, args: seq<int>, est: int)
      reads this
    {
      ValidActions(al) && sec < |bufs| == maxsection && InPut(al, bufs, L(), g, ofs, sec, p, est)
      && ArgsOk(al, p, args) && status == Okay && |lglabels| >= 10
      && 0 < |bufs[sec]| && |bufs[sec]| + 2 * (|al| - p) + 2 <= SEC
      && forall s :: 0 <= s < |bufs| && s != sec ==> |bufs[s]| + 2 <= SEC
    }

    /** One iteration of a put. */
    method Advance(sec: nat, p: nat, args: seq<int>, est: int) returns (ok: bool)
      requires InLoop(sec, p, args, est) && !al[p].Terminal()
      modifies this`bufs, this`g, this`status, this`lglabels, this`pclabels
      ensures |lglabels| == old(|lglabels|) && |pclabels| == old(|pclabels|)
      ensures !ok ==> status == old(Run(sec, p, args, est)).status != Okay
      ensures ok ==>
        p < |al| && al[p].Args() <= |args|
        && InLoop(sec, p + 1, args[al[p].Args()..], est + al[p].MaxSize(StoredArg(al[p], args)))
      ensures ok ==>
        |g.log| == old(|g.log|) && g.log == old(g.log)[sec := g.log[sec]]
        && Run(sec, p + 1, args[al[p].Args()..], est + al[p].MaxSize(StoredArg(al[p], args))) == old(Run(sec, p, args, est))
    {
      ghost var b0, g0 := bufs, g;
      ok := Execute(sec, p, args, est);
      if ok {
        RunStep(al, p, args, sec, est, b0, g0, bufs, g, |lglabels|, |pclabels|, maxsection);
      }
    }

    /** The action that ends a put: a section switch, or stop. */
    method Finish(sec: nat, p: nat, est: int)
      requires ValidActions(al) && InPut(al, bufs, L(), g, ofs, sec, p, est) && p < |al| && al[p].Terminal() && status == Okay
      requires |bufs| == maxsection && section == sec
      modifies this`ofs, this`g, this`section, this`status
      ensures status == if al[p].Section? && al[p].sec >= maxsection then RangeSec else Okay
      ensures status == Okay ==> section == if al[p].Section? then al[p].sec else old(section)
      ensures status == Okay ==> section < maxsection && Pass1(al, bufs, L(), g, ofs) && g.hist == old(g.hist)
      ensures status == Okay ==> g.log == old(g.log)[sec := old(g.log[sec]) + [Entry(p, |bufs[sec]|, est, 0)]]
    {
      if al[p].Section? {
        if al[p].sec >= maxsection {
          status := RangeSec;
          return;
        }
        section := al[p].sec;
      }
      FinishKeeps(sec, p, est);
    }

    /** A put begins by storing where its actions start. */
    method StartKeeps(start: nat)
      requires Valid() && Room()
      modifies this`bufs, this`g
      ensures InPut(al, bufs, L(), g, ofs, section, start, ofs[section]) && |bufs| == old(|bufs|)
      ensures |bufs[section]| == old(|bufs[section]|) + 1 && g.hist == old(g.hist) && g.log == old(g.log)
      ensures forall s :: 0 <= s < |bufs| && s != section ==> bufs[s] == old(bufs[s])
    {
      StoreKeeps(al, bufs, L(), g, section, start, KStart);
      OpenStart(al, bufs[section], g.kinds[section], g.log[section], ofs[section], start);
      bufs := Append(bufs, section, start);
      g := Kinded(g, section, [KStart]);
    }

    /** A put ends by saving the position and offset of its section. */
    method FinishKeeps(sec: nat, ghost p: nat, est: int)
      requires ValidActions(al) && InPut(al, bufs, L(), g, ofs, sec, p, est) && p < |al| && al[p].Terminal()
      modifies this`ofs, this`g
      ensures Pass1(al, bufs, L(), g, ofs) && g.hist == old(g.hist)
      ensures g.log == old(g.log)[sec := old(g.log[sec]) + [Entry(p, |bufs[sec]|, est, 0)]]
    {
      LogKeeps(al, bufs, L(), g, sec, Entry(p, |bufs[sec]|, est, 0));
      OpenStop(al, bufs[sec], g.kinds[sec], g.log[sec], p, est);
      g := Logged(g, sec, Entry(p, |bufs[sec]|, est, 0));
      ofs := ofs[sec := est];
    }

    /** An action without a label: its argument or offset, if any, is stored. */
    method PutPlain(sec: nat, ghost p: nat, est: int, vals: seq<int>, ghost kind: SlotKind, ghost arg: int)
      requires ValidActions(al) && InPut(al, bufs, L(), g, ofs, sec, p, est) && p < |al| && !al[p].Terminal()
      requires !al[p].Rel? && !al[p].Label? && |bufs[sec]| + 2 <= SEC && |vals| == al[p].Slots() && |vals| <= 1
      requires EntryOk(al, bufs[sec] + vals, g.kinds[sec] + (if |vals| == 1 then [kind] else []), Entry(p, |bufs[sec]|, est, arg))
      modifies this`bufs, this`g
      ensures InPut(al, bufs, L(), g, ofs, sec, p + 1, est + al[p].MaxSize(arg))
      ensures |bufs| == old(|bufs|) && |bufs[sec]| == old(|bufs[sec]|) + |vals|
      ensures forall s :: 0 <= s < |bufs| && s != sec ==> |bufs[s]| == old(|bufs[s]|)
      ensures g.hist == old(g.hist) && g.log == Logged(old(g), sec, Entry(p, old(|bufs[sec]|), est, arg)).log
    {
      ghost var b0, g0, e := bufs, g, Entry(p, |bufs[sec]|, est, arg);
      if |vals| == 1 {
        StoreKeeps(al, bufs, L(), g, sec, vals[0], kind);
        bufs := Append(bufs, sec, vals[0]);
        g := Kinded(g, sec, [kind]);
        assert bufs[sec] == b0[sec] + vals;
      } else {
        assert bufs[sec] + vals == bufs[sec] && g.kinds[sec] + [] == g.kinds[sec];
      }
      PlainStep(al, b0, L(), g0, ofs, sec, e, bufs, L(), g);
      g := Logged(g, sec, e);
    }

    /** An action without a label. */
    method ExecutePlain(sec: nat, p: nat, args: seq<int>, est: int) returns (ok: bool)
      requires ValidActions(al) && InPut(al, bufs, L(), g, ofs, sec, p, est) && p < |al| && !al[p].Terminal()
      requires !al[p].Rel? && !al[p].Label? && ArgsOk(al, p, args) && status == Okay && |bufs[sec]| + 2 <= SEC
      modifies this`bufs, this`g, this`status
      ensures ok == (status == Okay) && status == ActionStatus(al[p], args, old(g.hist), |lglabels|, |pclabels|)
      ensures ok ==> InPut(al, bufs, L(), g, ofs, sec, p + 1, est + al[p].MaxSize(StoredArg(al[p], args)))
      ensures ok ==> Stepped(al, p, args, sec, est, old(bufs), old(g), bufs, g)
    {
      var a := al[p];
      if a.Imm? && !a.kind.InRange(args[0]) {
        status := RangeI;
        return false;
      }
      var vals := match a case Byte(_) => [] case Align(mask) => [est + mask] case _ => [args[0]];
      PutPlain(sec, p, est, vals, if a.Align? then KEst else KArg, StoredArg(a, args));
      return true;
    }

    /** One action of a put. The result says whether its checks passed. */
    method Execute(sec: nat, p: nat, args: seq<int>, est: int) returns (ok: bool)
      requires ValidActions(al) && InPut(al, bufs, L(), g, ofs, sec, p, est) && p < |al| && !al[p].Terminal()
      requires ArgsOk(al, p, args) && status == Okay && |lglabels| >= 10
      requires 0 < |bufs[sec]| && forall s :: 0 <= s < |bufs| ==> |bufs[s]| + 2 <= SEC
      modifies this`bufs, this`g, this`status, this`lglabels, this`pclabels
      ensures ok == (status == Okay) && status == ActionStatus(al[p], args, old(g.hist), |lglabels|, |pclabels|)
      ensures |lglabels| == old(|lglabels|) && |pclabels| == old(|pclabels|)
      ensures ok ==> InPut(al, bufs, L(), g, ofs, sec, p + 1, est + al[p].MaxSize(StoredArg(al[p], args)))
      ensures ok ==> Stepped(al, p, args, sec, est, old(bufs), old(g), bufs, g)
    {
      if al[p].Rel? {
        ok := PutRel(sec, p, args, est);
      } else if al[p].Label? {
        ok := PutName(sec, p, args, est);
      } else {
        ok := ExecutePlain(sec, p, args, est);
      }
    }

    method PutRel(sec: nat, p: nat, args: seq<int>, est: int) returns (ok: bool)
      requires ValidActions(al) && InPut(al, bufs, L(), g, ofs, sec, p, est) && p < |al| && al[p].Rel?
      requires al[p].Args() <= |args| && status == Okay && |lglabels| >= 10
      requires 0 < |bufs[sec]| && |bufs[sec]| + 2 <= SEC
      modifies this`bufs, this`g, this`status, this`lglabels, this`pclabels
      ensures ok == (status == Okay)
      ensures |lglabels| == old(|lglabels|) && |pclabels| == old(|pclabels|)
      ensures status == RefStatus(al[p].target, args, old(g.hist), |lglabels|, |pclabels|)
      ensures ok ==> InPut(al, bufs, L(), g, ofs, sec, p + 1, est + al[p].MaxSize(0))
      ensures ok ==> Stepped(al, p, args, sec, est, old(bufs), old(g), bufs, g)
    {
      var k, dir := KeyOf(al[p].target, args), DirOf(al[p].target);
      if k.Local() {
        BackwardCell(bufs, L(), g.hist, g.chains, k);
      }
      match al[p].target {
        case LgNum(n) =>
          if n <= 246 && ((n < 10 && lglabels[n] >= 0) || n >= |lglabels|) {
            status := RangeLg;
            return false;
          }
        case PcArg =>
          if args[0] < 0 || args[0] >= |pclabels| {
            status := RangePc;
            return false;
          }
      }
      var n := L().Cell(k);
      if dir == Fwd && n < 0 {
        n := 0;
      }
      PutLink(sec, p, k, dir, n, est, est + al[p].br.OpLen() + 4, ofs);
      return true;
    }

    method PutName(sec: nat, p: nat, args: seq<int>, est: int) returns (ok: bool)
      requires ValidActions(al) && InPut(al, bufs, L(), g, ofs, sec, p, est) && p < |al| && al[p].Label?
      requires al[p].Args() <= |args| && status == Okay
      requires 0 < |bufs[sec]| && forall s :: 0 <= s < |bufs| ==> |bufs[s]| + 2 <= SEC
      modifies this`bufs, this`g, this`status, this`lglabels, this`pclabels
      ensures ok == (status == Okay)
      ensures |lglabels| == old(|lglabels|) && |pclabels| == old(|pclabels|)
      ensures status == LabelStatus(al[p].name, args, |lglabels|, |pclabels|)
      ensures ok ==> InPut(al, bufs, L(), g, ofs, sec, p + 1, est)
      ensures ok ==> Stepped(al, p, args, sec, est, old(bufs), old(g), bufs, g)
    {
      match al[p].name {
        case LgNum(n) =>
          if n >= |lglabels| {
            status := RangeLg;
            return false;
          }
        case PcArg =>
          if args[0] < 0 || args[0] >= |pclabels| {
            status := RangePc;
            return false;
          }
      }
      PutLabel(sec, p, KeyOf(al[p].name, args), est, ofs);
      return true;
    }

    // ------------------------------------------------------------------ check step

    /** No local label has a reference waiting. */
    ghost predicate NoneWaiting()
      reads this
    {
      forall n :: 1 <= n <= 9 && n < |lglabels| ==> lglabels[n] <= 0
    }

    /** dasm_checkstep: an undefined local label is an error; otherwise all local labels are
        forgotten. `secmatch` is the section that should be active, or -1. */
    method CheckStep(secmatch: int)
      requires status == Okay ==> Valid()
      modifies this`lglabels, this`status, this`g
      ensures old(status) != Okay ==> unchanged(this)
      ensures old(status) == Okay && !old(NoneWaiting()) ==>
        status.UndefL? && 1 <= status.n <= 9 && old(lglabels)[status.n] > 0 && forall n :: 1 <= n < status.n ==> old(lglabels)[n] <= 0
      ensures old(status) == Okay && old(NoneWaiting()) ==>
        Valid() && NoneWaiting() && L() == Cleared(old(L())) && g == old(g).(hist := old(g.hist) + [Step])
        && status == if secmatch >= 0 && section != secmatch then MatchSec(section) else Okay
    {
      if status != Okay {
        return;
      }
      ghost var l0 := L();
      var i := 1;
      while i <= 9
        invariant 1 <= i <= 10 && |lglabels| == |l0.lg| >= 10 && status == Okay && pclabels == l0.pc && g == old(g)
        invariant forall n :: 1 <= n < i ==> l0.lg[n] <= 0
        invariant forall n :: 0 <= n < |lglabels| ==> lglabels[n] == if 1 <= n < i then 0 else l0.lg[n]
      {
        if lglabels[i] > 0 {
          status := UndefL(i);
          return;
        }
        lglabels := lglabels[i := 0];
        i := i + 1;
      }
      assert lglabels == Cleared(l0).lg;
      StepPass1(al, bufs, l0, g, ofs);
      RecordStep(al, g.hist, g.log);
      g := g.(hist := g.hist + [Step]);
      if secmatch >= 0 && section != secmatch {
        status := MatchSec(section);
      }
    }

    // ---------------------------------------------------------------------- pass 2

    /** The linked program, loaded at `base`. */
    ghost function Linked(base: int): Plan
      reads this
    {
      PlanOf(al, ofs, g.log, targets, addrs, links, base)
    }

    /** Pass 2 has been done. */
    ghost predicate IsLinked(base: int)
      reads this
    {
      ReadyPlan(Linked(base), bufs, g) && Recorded(al, g.hist, g.log)
      && |addrs| > 0 && codesize == addrs[|addrs| - 1] && KeysIn(g.hist, |lglabels|)
    }

    /** dasm_link, after a check step. Unless a check fails, all sections are laid out one
        behind the other, and the result is the size of the code. */
    method Link() returns (st: Status, size: int)
      requires status == Okay ==> Valid() && NoneWaiting()
      modifies this`bufs, this`codesize, this`targets, this`links, this`addrs
      ensures st == Okay <==> status == Okay && forall n :: 0 <= n < |pclabels| ==> pclabels[n] <= 0
      ensures status != Okay ==> st == status
      ensures status == Okay && st != Okay ==> st.UndefPc? && 0 <= st.n < |pclabels| && pclabels[st.n] > 0
      ensures st != Okay ==> unchanged(this) && size == 0
      ensures st == Okay ==> size == codesize && forall base :: IsLinked(base)
    {
      if status != Okay {
        return status, 0;
      }
      var pc := UndefinedPc(pclabels);
      if pc < |pclabels| {
        return UndefPc(pc), 0;
      }
      LinkNow();
      return Okay, codesize;
    }

    method LinkNow()
      requires Valid() && NoneWaiting() && forall n :: 0 <= n < |pclabels| ==> pclabels[n] <= 0
      modifies this`bufs, this`codesize, this`targets, this`links, this`addrs
      ensures forall base :: IsLinked(base)
    {
      LinkKeys(bufs, L(), g.hist, g.chains);
      bufs, codesize, targets, links, addrs := LinkAll(al, bufs, ofs, lglabels, L(), g);
      forall base ensures IsLinked(base) {
        assert ReadyPlan(PlanOf(al, ofs, g.log, targets, addrs, links, base), bufs, g);
      }
    }

    // ---------------------------------------------------------------------- pass 3

    /** dasm_encode, to address `base`. It emits exactly the code that was linked, of exactly
        the size that was announced; every branch lands, every alignment ends on its boundary,
        and every immediate stands for its argument. `globals` has the addresses of the global
        labels, with a bias of 10; those defined get the address of their last definition. */
    method Encode(base: int, globals: seq<int>) returns (code: seq<int>, globals': seq<int>, st: Status)
      requires IsLinked(base) && |globals| + 10 == |lglabels|
      ensures st == Okay && |code| == codesize
      ensures code == CodeTo(Linked(base), globals, |Linked(base).items|)
      ensures globals' == GlobalsAt(Linked(base), globals, |Linked(base).items|)
      ensures forall i :: 0 <= i < |Linked(base).items| && ActionAt(Linked(base), i).Rel? ==>
        exists t :: Lands(Linked(base), code, globals, g.hist, i, t)
      ensures forall i {:trigger Padded(Linked(base), code, i)} :: 0 <= i < |Linked(base).items| && ActionAt(Linked(base), i).Align? ==> Padded(Linked(base), code, i)
      ensures forall i {:trigger Laid(Linked(base), code, i)} :: 0 <= i < |Linked(base).items| && PlainAt(Linked(base), i) ==> Laid(Linked(base), code, i)
      ensures forall n {:trigger GlobalIs(Linked(base), globals, globals', |Linked(base).items|, n)} :: 10 <= n < |globals| + 10 ==> GlobalIs(Linked(base), globals, globals', |Linked(base).items|, n)
    {
      ghost var pl := Linked(base);
      code, globals' := EncodeSections(al, bufs, base, globals, pl, g.kinds, g.log);
      CodeSize(pl, globals, |pl.items|);
      forall i | 0 <= i < |pl.items| && ActionAt(pl, i).Rel? ensures exists t :: Lands(pl, code, globals, g.hist, i, t) {
        var t := AllLand(pl, bufs, g.kinds, g.log, globals, g.hist, i);
      }
      forall i | 0 <= i < |pl.items| && ActionAt(pl, i).Align? ensures Padded(pl, code, i) { AlignPads(pl, globals, i); }
      forall i | 0 <= i < |pl.items| && PlainAt(pl, i) ensures Laid(pl, code, i) { ItemLaid(pl, globals, i); }
      forall n | 10 <= n < |globals| + 10 ensures GlobalIs(pl, globals, globals', |pl.items|, n) { GlobalsLast(pl, globals, |pl.items|, n); }
      st := if |code| == codesize then Okay else Phase;
    }
  }
}
