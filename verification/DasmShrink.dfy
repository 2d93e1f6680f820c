/** The loops of pass 2 (dasm_link), proved to compute the layout. */
module DasmShrink {
  import opened Wrappers
  import opened DasmChains
  import opened DasmLabels
  import opened DasmPut
  import opened DasmLink

  predicate HasEst(a: Action) { a.Rel? || a.Label? || a.Align? }

  /** The slot that pass 1 stored an offset in. */
  function EstIdx(al: seq<Action>, it: Item): int {
    it.e.idx + if ActionOf(al, it).Rel? then 1 else 0
  }

  ghost predicate EstIs(al: seq<Action>, b: Buffers, it: Item, v: int) {
    it.sec < |b| && 0 <= EstIdx(al, it) < |b[it.sec]| && b[it.sec][EstIdx(al, it)] == v
  }

  /** What pass 2 leaves in that slot: the bytes saved, or the label's address. */
  ghost function Fixed(al: seq<Action>, ofs: seq<int>, items: seq<Item>, tg: seq<int>, f: seq<int>, j: nat): int
    requires j < |items| == |tg| && j < |f| && tg[j] < |items|
  {
    match ActionOf(al, items[j])
    case Rel(_, _) => Saved(al, ofs, items, tg, f, j)
    case Label(_) => f[j]
    case _ => items[j].e.est + MaxOf(al, items[j])
  }

  /** The offset slots once the first `|f| - 1` items are laid out. */
  ghost predicate Patched(al: seq<Action>, b: Buffers, ofs: seq<int>, items: seq<Item>, tg: seq<int>, f: seq<int>) {
    TargetsIn(items, tg) && 0 < |f|
    && forall j :: 0 <= j < |items| && HasEst(ActionOf(al, items[j])) ==> PatchedAt(al, b, ofs, items, tg, f, j)
  }

  ghost predicate PatchedAt(al: seq<Action>, b: Buffers, ofs: seq<int>, items: seq<Item>, tg: seq<int>, f: seq<int>, j: nat) {
    TargetsIn(items, tg) && j < |items|
    && EstIs(al, b, items[j], if j < |f| - 1 then Fixed(al, ofs, items, tg, f, j) else items[j].e.est + MaxOf(al, items[j]))
  }

  /** Every branch links to a label of the program, or to an outside global. */
  ghost predicate LinksFound(al: seq<Action>, b: Buffers, items: seq<Item>, tg: seq<int>) {
    tg == Targets(al, b, items)
    && forall i :: 0 <= i < |items| && ActionOf(al, items[i]).Rel? ==> LinkOf(al, b, items[i]) < 0 || tg[i] >= 0
  }

  /** The buffers before pass 2. */
  ghost predicate Linkable(al: seq<Action>, b0: Buffers, ks: seq<seq<SlotKind>>, log: seq<seq<Entry>>, ofs: seq<int>,
                           items: seq<Item>, tg: seq<int>) {
    ValidActions(al) && |b0| == |ks| == |log| == |ofs|
    && (forall s :: 0 <= s < |b0| ==> |b0[s]| <= SEC && Walks(al, b0[s], ks[s], log[s], ofs[s]))
    && Lists(log, items) && Program(al, ofs, items) && LinksFound(al, b0, items, tg)
  }

  /** During pass 2: `f` has the addresses found so far. */
  ghost predicate Linking(al: seq<Action>, b0: Buffers, b: Buffers, ks: seq<seq<SlotKind>>, log: seq<seq<Entry>>, ofs: seq<int>,
                          items: seq<Item>, tg: seq<int>, f: seq<int>) {
    Linkable(al, b0, ks, log, ofs, items, tg) && |b| == |b0|
    && (forall s :: 0 <= s < |b| ==> SameButEst(b0[s], b[s], ks[s]))
    && Layout(al, ofs, items, tg, f) && Patched(al, b, ofs, items, tg, f)
  }

  lemma LinkingWalks(al: seq<Action>, b0: Buffers, b: Buffers, ks: seq<seq<SlotKind>>, log: seq<seq<Entry>>, ofs: seq<int>,
                     items: seq<Item>, tg: seq<int>, f: seq<int>, s: nat)
    requires Linking(al, b0, b, ks, log, ofs, items, tg, f) && s < |b|
    ensures Walks(al, b[s], ks[s], log[s], ofs[s]) && |b[s]| <= SEC
  {
    WalksSame(al, b0[s], b[s], ks[s], log[s], ofs[s]);
  }

  /** The next item of section `s` is entry `k`, at list index `|f| - 1`. */
  ghost predicate Cursor(log: seq<seq<Entry>>, items: seq<Item>, f: seq<int>, s: nat, k: nat) {
    s < |log| && k < |log[s]| && |f| - 1 == Before(log, s) + k < |items| && items[|f| - 1] == Item(s, log[s][k])
  }

  lemma CursorAt(log: seq<seq<Entry>>, items: seq<Item>, f: seq<int>, s: nat, k: nat)
    requires Lists(log, items) && s < |log| && k < |log[s]| && |f| - 1 == Before(log, s) + k
    ensures Cursor(log, items, f, s, k)
  {
    assert ListedAt(log, items, s, k);
  }

  // ------------------------------------------------------------------------- branches

  /** The label offsets ahead are section-relative: add the sections in between. */
  method SectionsBetween(ofs: seq<int>, s: nat, t: nat) returns (d: int)
    requires s <= t <= |ofs|
    ensures d == Base(ofs, t) - Base(ofs, s)
  {
    d := 0;
    for i := s to t
      invariant d == Base(ofs, i) - Base(ofs, s)
    {
      d := d + ofs[i];
    }
  }

  /** What the label slot holds while item `|f| - 1` is being laid out. */
  lemma LabelValue(al: seq<Action>, b: Buffers, ofs: seq<int>, items: seq<Item>, tg: seq<int>, f: seq<int>, pos: int, j: int)
    requires Patched(al, b, ofs, items, tg, f) && LabelItem(al, items, pos, j)
    requires forall s :: 0 <= s < |b| ==> |b[s]| <= SEC
    requires Program(al, ofs, items)
    ensures ValidPos(b, pos) && Read(b, pos) == if j < |f| - 1 then f[j] else items[j].e.est
    ensures SecOf(pos) == items[j].sec && items[j].e.idx < SEC
  {
    assert PatchedAt(al, b, ofs, items, tg, f, j);
    assert ItemOk(al, items[j]);
    PosParts(items[j].sec, items[j].e.idx);
  }

  /** Whether the label is ahead shows in its position. */
  lemma AheadByPos(al: seq<Action>, b: Buffers, ofs: seq<int>, items: seq<Item>, i: nat, j: nat)
    requires Program(al, ofs, items) && i < |items| && j < |items| && i != j
    requires items[i].e.idx < SEC && items[j].e.idx < SEC
    requires ActionOf(al, items[i]).Rel? && ActionOf(al, items[j]).Label?
    ensures ItemPos(items[j]) > ItemPos(items[i]) <==> j > i
    ensures j > i ==> items[j].sec >= items[i].sec
  {
    assert ItemOk(al, items[i]) && ItemOk(al, items[j]);
    if i < j { ItemsApart(al, ofs, items, i, j); } else { ItemsApart(al, ofs, items, j, i); }
    PosOrder(items[i].sec, items[i].e.idx, items[j].sec, items[j].e.idx);
  }

  /** What the buffers say about the branch at slot `idx` of section `s`: whether its label is in
      the program and, if so, how far it has to reach. `run` is the correction so far. */
  ghost predicate Reckons(b: Buffers, ofs: seq<int>, s: nat, idx: nat, run: int, inside: bool, reach: int) {
    |b| == |ofs| && s < |b| && idx + 1 < |b[s]|
    && var lpos := b[s][idx];
       var lofs := Read(b, lpos) - b[s][idx + 1];
       if lpos < 0 then !inside
       else if lpos > s * SEC + idx then inside && s <= SecOf(lpos) <= |ofs| && reach == lofs + Base(ofs, SecOf(lpos)) - Base(ofs, s)
       else inside && reach == lofs - run
  }

  /** How much a branch is shrunk by. */
  method Shrinkage(b: Buffers, ofs: seq<int>, s: nat, br: Branch, idx: nat, run: int, ghost inside: bool, ghost reach: int)
    returns (shrink: int)
    requires Reckons(b, ofs, s, idx, run, inside, reach)
    ensures shrink == if inside && -128 - br.Saving() <= reach <= 127 then br.Saving() else 0
  {
    shrink := br.Saving();
    if shrink == 0 {
      return;
    }
    var lpos := b[s][idx];
    if lpos < 0 {
      return 0;
    }
    var lofs := Read(b, lpos);
    if lpos > s * SEC + idx {
      var between := SectionsBetween(ofs, s, SecOf(lpos));
      lofs := lofs + between;
    } else {
      lofs := lofs - run;
    }
    lofs := lofs - b[s][idx + 1];
    if !(-128 - shrink <= lofs <= 127) {
      shrink := 0;
    }
  }

  /** The slots of the branch being laid out. */
  lemma BranchSlots(al: seq<Action>, b: Buffers, ofs: seq<int>, s: nat, b0: Buffers, ks: seq<seq<SlotKind>>,
                    log: seq<seq<Entry>>, items: seq<Item>, tg: seq<int>, f: seq<int>, k: nat)
    requires Linking(al, b0, b, ks, log, ofs, items, tg, f) && Cursor(log, items, f, s, k) && ActionOf(al, Item(s, log[s][k])).Rel?
    ensures s < |b| && 1 <= log[s][k].idx && log[s][k].idx + 1 < |b[s]| <= SEC
    ensures var link := b[s][log[s][k].idx];
      tg[|f| - 1] == TargetOf(al, items, link) && (link < 0 || tg[|f| - 1] >= 0)
    ensures b[s][log[s][k].idx + 1] == log[s][k].est + MaxOf(al, Item(s, log[s][k]))
  {
    var i := |f| - 1;
    assert SameButEst(b0[s], b[s], ks[s]) && Walks(al, b0[s], ks[s], log[s], ofs[s]);
    WalksAt(al, b0[s], ks[s], log[s], ofs[s], k);
    PendingEst(al, b, ofs, items, tg, f);
    LinkTarget(al, b0, items, tg, i);
    assert b[s][log[s][k].idx] == b0[s][log[s][k].idx];
  }

  lemma PendingEst(al: seq<Action>, b: Buffers, ofs: seq<int>, items: seq<Item>, tg: seq<int>, f: seq<int>)
    requires Patched(al, b, ofs, items, tg, f) && |f| <= |items| && HasEst(ActionOf(al, items[|f| - 1]))
    ensures EstIs(al, b, items[|f| - 1], items[|f| - 1].e.est + MaxOf(al, items[|f| - 1]))
  {
    assert PatchedAt(al, b, ofs, items, tg, f, |f| - 1);
  }

  lemma LinkTarget(al: seq<Action>, b: Buffers, items: seq<Item>, tg: seq<int>, i: nat)
    requires LinksFound(al, b, items, tg) && i < |items| && ActionOf(al, items[i]).Rel?
    requires items[i].sec < |b| && 0 <= items[i].e.idx < |b[items[i].sec]|
    ensures var link := b[items[i].sec][items[i].e.idx]; tg[i] == TargetOf(al, items, link) && (link < 0 || tg[i] >= 0)
  {
    assert LinkOf(al, b, items[i]) == b[items[i].sec][items[i].e.idx];
  }

  /** The offsets the code compares give the reach of the branch. */
  lemma BranchReach(al: seq<Action>, b: Buffers, ofs: seq<int>, s: nat, b0: Buffers, ks: seq<seq<SlotKind>>,
                    log: seq<seq<Entry>>, items: seq<Item>, tg: seq<int>, f: seq<int>, k: nat)
    requires Linking(al, b0, b, ks, log, ofs, items, tg, f) && Cursor(log, items, f, s, k)
    requires ActionOf(al, Item(s, log[s][k])).Rel?
    ensures 1 <= log[s][k].idx && tg[|f| - 1] < |items|
    ensures Reckons(b, ofs, s, log[s][k].idx, f[|f| - 1] - log[s][k].est, tg[|f| - 1] >= 0, Reach(al, ofs, items, tg, f, |f| - 1))
  {
    BranchSlots(al, b, ofs, s, b0, ks, log, items, tg, f, k);
    forall s1 | 0 <= s1 < |b| ensures |b[s1]| <= SEC { assert SameButEst(b0[s1], b[s1], ks[s1]); }
    var i, lpos := |f| - 1, b[s][log[s][k].idx];
    if lpos < 0 {
      NoLabelBelowZero(al, ofs, items, lpos);
    } else {
      TargetIs(al, items, lpos);
      TargetReach(al, b, ofs, items, tg, f, lpos);
    }
  }

  lemma TargetReach(al: seq<Action>, b: Buffers, ofs: seq<int>, items: seq<Item>, tg: seq<int>, f: seq<int>, lpos: int)
    requires Program(al, ofs, items) && Patched(al, b, ofs, items, tg, f) && |f| <= |items| && |b| == |ofs|
    requires forall s :: 0 <= s < |b| ==> |b[s]| <= SEC
    requires var it := items[|f| - 1]; ActionOf(al, it).Rel? && it.sec < |b| && it.e.idx < SEC
    requires LabelItem(al, items, lpos, tg[|f| - 1])
    ensures var it := items[|f| - 1];
      var lofs := Read(b, lpos) - (it.e.est + MaxOf(al, it));
      if lpos > ItemPos(it) then it.sec <= SecOf(lpos) <= |ofs|
        && Reach(al, ofs, items, tg, f, |f| - 1) == lofs + Base(ofs, SecOf(lpos)) - Base(ofs, it.sec)
      else Reach(al, ofs, items, tg, f, |f| - 1) == lofs - (f[|f| - 1] - it.e.est)
  {
    var i := |f| - 1;
    LabelValue(al, b, ofs, items, tg, f, lpos, tg[i]);
    AheadByPos(al, b, ofs, items, i, tg[i]);
  }

  lemma NoLabelBelowZero(al: seq<Action>, ofs: seq<int>, items: seq<Item>, link: int)
    requires Program(al, ofs, items) && link < 0
    ensures TargetOf(al, items, link) == -1
  {
    forall j ensures !LabelItem(al, items, link, j) {
      if 0 <= j < |items| { assert ItemOk(al, items[j]); }
    }
  }

  // --------------------------------------------------------------------- one action

  /** The next address. */
  ghost function NextAddr(al: seq<Action>, ofs: seq<int>, items: seq<Item>, tg: seq<int>, f: seq<int>): int
    requires 0 < |f| <= |items| && TargetsIn(items, tg)
  {
    f[|f| - 1] + SizeAt(al, ofs, items, tg, f, |f| - 1)
  }

  lemma SavedPrefix(al: seq<Action>, ofs: seq<int>, items: seq<Item>, tg: seq<int>, f: seq<int>, a: int, j: nat)
    requires TargetsIn(items, tg) && j < |f| && j < |items|
    ensures Fixed(al, ofs, items, tg, f + [a], j) == Fixed(al, ofs, items, tg, f, j)
  {
    assert (f + [a])[j] == f[j];
  }

  /** Writing the offset slot of the item that is laid out, if it has one, makes it final. */
  lemma PatchStep(al: seq<Action>, b: Buffers, b': Buffers, ofs: seq<int>, items: seq<Item>, tg: seq<int>, f: seq<int>, a: int)
    requires Program(al, ofs, items) && Patched(al, b, ofs, items, tg, f) && |f| <= |items|
    requires var it := items[|f| - 1];
      if HasEst(ActionOf(al, it))
      then EstIs(al, b', it, Fixed(al, ofs, items, tg, f, |f| - 1)) && OnlyAt(b, b', it.sec, EstIdx(al, it))
      else b' == b
    ensures Patched(al, b', ofs, items, tg, f + [a])
  {
    var i, f1 := |f| - 1, f + [a];
    forall j | 0 <= j < |items| && HasEst(ActionOf(al, items[j])) ensures PatchedAt(al, b', ofs, items, tg, f1, j) {
      if j <= i { SavedPrefix(al, ofs, items, tg, f, a, j); }
      if j != i {
        assert PatchedAt(al, b, ofs, items, tg, f, j);
        EstApart(al, ofs, items, i, j);
        assert HasEst(ActionOf(al, items[i])) ==> SameAt(b, b', items[j].sec, EstIdx(al, items[j]));
      }
    }
  }

  ghost predicate OnlyAt(b: Buffers, b': Buffers, s: nat, x: int) {
    |b'| == |b| && forall s1, x1 :: 0 <= s1 < |b| && (s1 != s || x1 != x) ==> SameAt(b, b', s1, x1)
  }

  ghost predicate SameAt(b: Buffers, b': Buffers, s: int, x: int) {
    0 <= s < |b| == |b'| && |b'[s]| == |b[s]| && (0 <= x < |b[s]| ==> b'[s][x] == b[s][x])
  }

  lemma EstApart(al: seq<Action>, ofs: seq<int>, items: seq<Item>, i: nat, j: nat)
    requires Program(al, ofs, items) && i < |items| && j < |items| && i != j
    requires HasEst(ActionOf(al, items[i])) || HasEst(ActionOf(al, items[j]))
    ensures HasEst(ActionOf(al, items[i])) && HasEst(ActionOf(al, items[j])) ==>
      items[i].sec != items[j].sec || EstIdx(al, items[i]) != EstIdx(al, items[j])
  {
    if i < j { ItemsApart(al, ofs, items, i, j); } else { ItemsApart(al, ofs, items, j, i); }
  }

  lemma LinkingStep(al: seq<Action>, b0: Buffers, b: Buffers, b': Buffers, ks: seq<seq<SlotKind>>, log: seq<seq<Entry>>, ofs: seq<int>,
                    items: seq<Item>, tg: seq<int>, f: seq<int>)
    requires Linking(al, b0, b, ks, log, ofs, items, tg, f) && |f| <= |items|
    requires var it := items[|f| - 1];
      if HasEst(ActionOf(al, it))
      then EstIs(al, b', it, Fixed(al, ofs, items, tg, f, |f| - 1)) && OnlyAt(b, b', it.sec, EstIdx(al, it))
           && ks[it.sec][EstIdx(al, it)] == KEst
      else b' == b
    ensures Linking(al, b0, b', ks, log, ofs, items, tg, f + [NextAddr(al, ofs, items, tg, f)])
  {
    var a, it := NextAddr(al, ofs, items, tg, f), items[|f| - 1];
    LayoutStep(al, ofs, items, tg, f, a);
    PatchStep(al, b, b', ofs, items, tg, f, a);
    forall s | 0 <= s < |b'| ensures SameButEst(b0[s], b'[s], ks[s]) {
      assert SameButEst(b0[s], b[s], ks[s]);
      if HasEst(ActionOf(al, it)) {
        EstChanged(b0, b, b', ks, it.sec, EstIdx(al, it), s);
      }
    }
  }

  lemma EstChanged(b0: Buffers, b: Buffers, b': Buffers, ks: seq<seq<SlotKind>>, s: nat, x: int, s1: nat)
    requires OnlyAt(b, b', s, x) && |b0| == |b| == |ks| && s < |b| && s1 < |b| && 0 <= x < |b[s]| == |ks[s]| && ks[s][x] == KEst
    requires SameButEst(b0[s1], b[s1], ks[s1])
    ensures SameButEst(b0[s1], b'[s1], ks[s1])
  {
    assert SameAt(b, b', s1, x + 1);
    forall y | 0 <= y < |b[s1]| && ks[s1][y] != KEst ensures b'[s1][y] == b0[s1][y] {
      assert SameAt(b, b', s1, y);
    }
  }

  lemma OnlyAtUpdate(b: Buffers, s: nat, x: nat, v: int)
    requires s < |b| && x < |b[s]|
    ensures OnlyAt(b, b[s := b[s][x := v]], s, x)
  {
  }

  /** What the slots of the item about to be laid out are. */
  lemma ItemSlots(al: seq<Action>, b0: Buffers, b: Buffers, ks: seq<seq<SlotKind>>, log: seq<seq<Entry>>, ofs: seq<int>,
                  items: seq<Item>, tg: seq<int>, f: seq<int>, s: nat, k: nat)
    requires Linking(al, b0, b, ks, log, ofs, items, tg, f) && Cursor(log, items, f, s, k)
    ensures var e, it := log[s][k], items[|f| - 1];
      0 <= e.p < |al| && s < |b| == |ks| && 1 <= e.idx && ItemOk(al, it)
      && (HasEst(al[e.p]) ==> EstIs(al, b, it, e.est + MaxOf(al, it)) && EstIdx(al, it) < |ks[s]| && ks[s][EstIdx(al, it)] == KEst)
  {
    assert Walks(al, b0[s], ks[s], log[s], ofs[s]);
    WalksAt(al, b0[s], ks[s], log[s], ofs[s], k);
    if HasEst(al[log[s][k].p]) { PendingEst(al, b, ofs, items, tg, f); }
  }

  /** How the correction changes: by what the item stays below its estimate. */
  lemma NextRun(al: seq<Action>, ofs: seq<int>, items: seq<Item>, tg: seq<int>, f: seq<int>)
    requires 0 < |f| <= |items| && TargetsIn(items, tg) && ItemOk(al, items[|f| - 1])
    ensures var it, x := items[|f| - 1], f[|f| - 1];
      NextAddr(al, ofs, items, tg, f) == x + MaxOf(al, it) -
        match ActionOf(al, it)
        case Rel(_, _) => Fixed(al, ofs, items, tg, f, |f| - 1)
        case Align(mask) => (x + mask) % (mask + 1)
        case _ => 0
  {
    if ActionOf(al, items[|f| - 1]).Align? { RoundUp(f[|f| - 1], ActionOf(al, items[|f| - 1]).mask + 1); }
  }

  /** A branch: find out by how much it shrinks. */
  method LinkBranch(al: seq<Action>, b: Buffers, ofs: seq<int>, s: nat, p: nat, idx: nat, run: int,
                    ghost b0: Buffers, ghost ks: seq<seq<SlotKind>>, ghost log: seq<seq<Entry>>, ghost items: seq<Item>,
                    ghost tg: seq<int>, ghost f: seq<int>, ghost k: nat) returns (b': Buffers, shrink: int)
    requires Linking(al, b0, b, ks, log, ofs, items, tg, f) && Cursor(log, items, f, s, k)
    requires p == log[s][k].p && idx == log[s][k].idx && run == f[|f| - 1] - log[s][k].est
    requires p < |al| && al[p].Rel?
    ensures Linking(al, b0, b', ks, log, ofs, items, tg, f + [NextAddr(al, ofs, items, tg, f)])
    ensures shrink == Fixed(al, ofs, items, tg, f, |f| - 1)
  {
    ItemSlots(al, b0, b, ks, log, ofs, items, tg, f, s, k);
    BranchReach(al, b, ofs, s, b0, ks, log, items, tg, f, k);
    shrink := Shrinkage(b, ofs, s, al[p].br, idx, run, tg[|f| - 1] >= 0, Reach(al, ofs, items, tg, f, |f| - 1));
    OnlyAtUpdate(b, s, idx + 1, shrink);
    b' := b[s := b[s][idx + 1 := shrink]];
    LinkingStep(al, b0, b, b', ks, log, ofs, items, tg, f);
  }

  /** One action of pass 2: branches and alignments lower the running correction, and labels
      get their address. */
  method LinkAction(al: seq<Action>, b: Buffers, ofs: seq<int>, s: nat, p: nat, idx: nat, run: int,
                    ghost b0: Buffers, ghost ks: seq<seq<SlotKind>>, ghost log: seq<seq<Entry>>, ghost items: seq<Item>,
                    ghost tg: seq<int>, ghost f: seq<int>, ghost k: nat) returns (b': Buffers, run': int)
    requires Linking(al, b0, b, ks, log, ofs, items, tg, f) && Cursor(log, items, f, s, k)
    requires p == log[s][k].p && idx == log[s][k].idx && run == f[|f| - 1] - log[s][k].est
    ensures Linking(al, b0, b', ks, log, ofs, items, tg, f + [NextAddr(al, ofs, items, tg, f)])
    ensures run' == NextAddr(al, ofs, items, tg, f) - (log[s][k].est + MaxOf(al, Item(s, log[s][k])))
  {
    ItemSlots(al, b0, b, ks, log, ofs, items, tg, f, s, k);
    NextRun(al, ofs, items, tg, f);
    b', run' := b, run;
    match al[p] {
      case Rel(_, _) =>
        var shrink;
        b', shrink := LinkBranch(al, b, ofs, s, p, idx, run, b0, ks, log, items, tg, f, k);
        run' := run - shrink;
        return;
      case Label(_) =>
        OnlyAtUpdate(b, s, idx, b[s][idx] + run);
        b' := b[s := b[s][idx := b[s][idx] + run]];
      case Align(mask) =>
        run' := run - (b[s][idx] + run) % (mask + 1);
        assert OnlyAt(b, b, s, idx);
      case _ =>
    }
    LinkingStep(al, b0, b, b', ks, log, ofs, items, tg, f);
  }

  // ------------------------------------------------------------------- the two loops

  /** The buffer index from which a section is read on, `k` actions having been executed. */
  ghost function CursorIdx(es: seq<Entry>, k: nat): int
    requires k <= |es|
  {
    if k == 0 then 0 else es[k - 1].idx
  }

  ghost function CursorEst(es: seq<Entry>, ofs: int, k: nat): int
    requires k <= |es|
  {
    if k < |es| then es[k].est else ofs
  }

  /** Between two puts, the buffer holds the start of the next one. */
  lemma PutStarts(al: seq<Action>, b: seq<int>, ks: seq<SlotKind>, es: seq<Entry>, ofs: int, k: nat)
    requires Walks(al, b, ks, es, ofs) && k <= |es| && (k > 0 ==> 0 <= es[k - 1].p < |al| && al[es[k - 1].p].Terminal())
    ensures 0 <= CursorIdx(es, k) <= |b| && (CursorIdx(es, k) == |b| <==> k == |es|)
    ensures k < |es| ==> es[k].p == b[CursorIdx(es, k)] && es[k].idx == CursorIdx(es, k) + 1 && 0 <= es[k].p < |al|
  {
    if k < |es| { WalksAt(al, b, ks, es, ofs, k); }
    if 0 < k < |es| { assert Steps(al, b, ks, es[k - 1], es[k]); }
  }

  /** Inside a put, the next action is the next in the list. */
  lemma PutContinues(al: seq<Action>, b: seq<int>, ks: seq<SlotKind>, es: seq<Entry>, ofs: int, k: nat)
    requires Walks(al, b, ks, es, ofs) && k < |es| && 0 <= es[k].p < |al|
    ensures !al[es[k].p].Terminal() ==>
      k + 1 < |es| && es[k + 1].p == es[k].p + 1 && es[k + 1].idx == es[k].idx + al[es[k].p].Slots() && es[k + 1].p < |al|
    ensures k + 1 < |es| ==> es[k + 1].est == es[k].est + al[es[k].p].MaxSize(es[k].arg)
    ensures k + 1 == |es| ==> es[k].est == ofs
  {
    if k + 1 < |es| {
      assert Steps(al, b, ks, es[k], es[k + 1]);
      WalksAt(al, b, ks, es, ofs, k + 1);
    }
  }

  /** The cursor of pass 2: `k` actions of section `s` are laid out. */
  ghost predicate Here(log: seq<seq<Entry>>, ofs: seq<int>, f: seq<int>, s: nat, k: nat, run: int) {
    s < |log| == |ofs| && k <= |log[s]| && |f| - 1 == Before(log, s) + k && run == f[|f| - 1] - CursorEst(log[s], ofs[s], k)
  }

  /** The actions of one put, from the first on, up to its terminal action. */
  method LinkPut(al: seq<Action>, b: Buffers, ofs: seq<int>, s: nat, start: nat, idx0: nat, run: int,
                 ghost b0: Buffers, ghost ks: seq<seq<SlotKind>>, ghost log: seq<seq<Entry>>, ghost items: seq<Item>,
                 ghost tg: seq<int>, ghost f: seq<int>, ghost k0: nat)
    returns (b': Buffers, idx: nat, run': int, ghost f': seq<int>, ghost k: nat)
    requires Linking(al, b0, b, ks, log, ofs, items, tg, f) && Here(log, ofs, f, s, k0, run) && k0 < |log[s]|
    requires start == log[s][k0].p && idx0 == log[s][k0].idx
    ensures Linking(al, b0, b', ks, log, ofs, items, tg, f') && Here(log, ofs, f', s, k, run') && k0 < k
    ensures 0 <= log[s][k - 1].p < |al| && al[log[s][k - 1].p].Terminal() && idx == log[s][k - 1].idx
  {
    b', idx, run', f', k := b, idx0, run, f, k0;
    var p := start;
    LinkingWalks(al, b0, b', ks, log, ofs, items, tg, f', s);
    WalksAt(al, b'[s], ks[s], log[s], ofs[s], k);
    while !al[p].Terminal()
      invariant Linking(al, b0, b', ks, log, ofs, items, tg, f') && Here(log, ofs, f', s, k, run') && k0 <= k < |log[s]|
      invariant p == log[s][k].p < |al| && idx == log[s][k].idx
      decreases |al| - p
    {
      LinkingWalks(al, b0, b', ks, log, ofs, items, tg, f', s);
      CursorAt(log, items, f', s, k);
      PutContinues(al, b'[s], ks[s], log[s], ofs[s], k);
      ghost var next := NextAddr(al, ofs, items, tg, f');
      b', run' := LinkAction(al, b', ofs, s, p, idx, run', b0, ks, log, items, tg, f', k);
      f' := f' + [next];
      idx, p, k := idx + al[p].Slots(), p + 1, k + 1;
    }
    LinkTerminal(al, b0, b', ks, log, ofs, items, tg, f', s, k, run');
    f', k := f' + [NextAddr(al, ofs, items, tg, f')], k + 1;
  }

  /** The terminal action of a put has neither slots nor code. */
  lemma LinkTerminal(al: seq<Action>, b0: Buffers, b: Buffers, ks: seq<seq<SlotKind>>, log: seq<seq<Entry>>, ofs: seq<int>,
                     items: seq<Item>, tg: seq<int>, f: seq<int>, s: nat, k: nat, run: int)
    requires Linking(al, b0, b, ks, log, ofs, items, tg, f) && Here(log, ofs, f, s, k, run) && k < |log[s]|
    requires 0 <= log[s][k].p < |al| && al[log[s][k].p].Terminal()
    ensures |f| <= |items| && Linking(al, b0, b, ks, log, ofs, items, tg, f + [NextAddr(al, ofs, items, tg, f)])
    ensures Here(log, ofs, f + [NextAddr(al, ofs, items, tg, f)], s, k + 1, run)
  {
    LinkingWalks(al, b0, b, ks, log, ofs, items, tg, f, s);
    CursorAt(log, items, f, s, k);
    PutContinues(al, b[s], ks[s], log[s], ofs[s], k);
    LinkingStep(al, b0, b, b, ks, log, ofs, items, tg, f);
  }

  method LinkSection(al: seq<Action>, b: Buffers, ofs: seq<int>, s: nat, run: int,
                     ghost b0: Buffers, ghost ks: seq<seq<SlotKind>>, ghost log: seq<seq<Entry>>, ghost items: seq<Item>,
                     ghost tg: seq<int>, ghost f: seq<int>) returns (b': Buffers, run': int, ghost f': seq<int>)
    requires Linking(al, b0, b, ks, log, ofs, items, tg, f) && s < |b|
    requires |f| - 1 == Before(log, s) && run == f[|f| - 1]
    ensures Linking(al, b0, b', ks, log, ofs, items, tg, f')
    ensures |f'| - 1 == Before(log, s + 1) && run' == f'[|f'| - 1]
  {
    b', run', f' := b, run, f;
    var idx := 0;
    ghost var k := 0;
    LinkingWalks(al, b0, b', ks, log, ofs, items, tg, f', s);
    while idx != |b'[s]|
      invariant Linking(al, b0, b', ks, log, ofs, items, tg, f') && Here(log, ofs, f', s, k, run')
      invariant idx == CursorIdx(log[s], k) && (k > 0 ==> 0 <= log[s][k - 1].p < |al| && al[log[s][k - 1].p].Terminal())
      decreases |log[s]| - k
    {
      LinkingWalks(al, b0, b', ks, log, ofs, items, tg, f', s);
      PutStarts(al, b'[s], ks[s], log[s], ofs[s], k);
      b', idx, run', f', k := LinkPut(al, b', ofs, s, b'[s][idx], idx + 1, run', b0, ks, log, items, tg, f', k);
    }
    LinkingWalks(al, b0, b', ks, log, ofs, items, tg, f', s);
    PutStarts(al, b'[s], ks[s], log[s], ofs[s], k);
    run' := run' + ofs[s];
  }

  /** The sections, one right behind the other. The result is the code size. */
  method LinkSections(al: seq<Action>, b: Buffers, ofs: seq<int>, ghost ks: seq<seq<SlotKind>>, ghost log: seq<seq<Entry>>,
                      ghost items: seq<Item>, ghost tg: seq<int>) returns (b': Buffers, size: int, ghost f: seq<int>)
    requires Linkable(al, b, ks, log, ofs, items, tg)
    requires forall j :: 0 <= j < |items| && HasEst(ActionOf(al, items[j])) ==> EstIs(al, b, items[j], items[j].e.est + MaxOf(al, items[j]))
    ensures Linking(al, b, b', ks, log, ofs, items, tg, f) && |f| == |items| + 1 && size == f[|items|]
  {
    b', size, f := b, 0, [0];
    LinkingStart(al, b, ks, log, ofs, items, tg);
    for s := 0 to |b|
      invariant Linking(al, b, b', ks, log, ofs, items, tg, f) && |f| - 1 == Before(log, s) && size == f[|f| - 1]
    {
      b', size, f := LinkSection(al, b', ofs, s, size, b, ks, log, items, tg, f);
    }
  }

  lemma LinkingStart(al: seq<Action>, b: Buffers, ks: seq<seq<SlotKind>>, log: seq<seq<Entry>>, ofs: seq<int>,
                     items: seq<Item>, tg: seq<int>)
    requires Linkable(al, b, ks, log, ofs, items, tg)
    requires forall j :: 0 <= j < |items| && HasEst(ActionOf(al, items[j])) ==> EstIs(al, b, items[j], items[j].e.est + MaxOf(al, items[j]))
    ensures Linking(al, b, b, ks, log, ofs, items, tg, [0])
  {
    forall s | 0 <= s < |b| ensures SameButEst(b[s], b[s], ks[s]) {
      assert Walks(al, b[s], ks[s], log[s], ofs[s]);
    }
    forall j | 0 <= j < |items| && HasEst(ActionOf(al, items[j])) ensures PatchedAt(al, b, ofs, items, tg, [0], j) {}
  }
}
