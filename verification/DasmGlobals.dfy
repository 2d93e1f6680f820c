/** Before pass 2: references to globals the program does not define are marked, and every
    other reference leads to a label of the program. */
module DasmGlobals {
  import opened Wrappers
  import opened DasmChains
  import opened DasmLabels
  import opened DasmPut
  import opened DasmLink
  import opened DasmShrink

  /** The chains of globals 10 to `n - 1` collapsed, each to its own marker. */
  ghost function Marked(b: Buffers, cs: Chains, n: nat): Buffers {
    if n <= 10 then b else Filled(Marked(b, cs, n - 1), Chain(cs, Lg(n - 1)), -(n - 1))
  }

  lemma {:induction false} MarkedSizes(b: Buffers, cs: Chains, n: nat)
    ensures |Marked(b, cs, n)| == |b| && forall s :: 0 <= s < |b| ==> |Marked(b, cs, n)[s]| == |b[s]|
    decreases n
  {
    if n > 10 {
      MarkedSizes(b, cs, n - 1);
      FilledSizes(Marked(b, cs, n - 1), Chain(cs, Lg(n - 1)), -(n - 1));
    }
  }

  lemma ChainSlots(b: Buffers, l: Labels, h: History, cs: Chains, k: Key, i: nat)
    requires LinksOk(b, l, h, cs) && i < |Chain(cs, k)|
    ensures ValidPos(b, Chain(cs, k)[i])
  {
    assert CellOk(b, l, h, cs, k);
    ChainValid(b, l.Cell(k), Chain(cs, k), i);
  }

  /** Marking changes the slots of those chains, and no others. */
  lemma {:induction false} MarkedReads(b: Buffers, l: Labels, h: History, cs: Chains, n: nat, pos: int)
    requires LinksOk(b, l, h, cs)
    ensures ValidPos(Marked(b, cs, n), pos) == ValidPos(b, pos)
    ensures forall m :: 10 <= m < n && pos in Chain(cs, Lg(m)) ==> Read(Marked(b, cs, n), pos) == -m
    ensures (forall m :: 10 <= m < n ==> pos !in Chain(cs, Lg(m))) ==> Read(Marked(b, cs, n), pos) == Read(b, pos)
    decreases n
  {
    if n > 10 {
      MarkedReads(b, l, h, cs, n - 1, pos);
      var b1, c := Marked(b, cs, n - 1), Chain(cs, Lg(n - 1));
      forall i | 0 <= i < |c| ensures ValidPos(b1, c[i]) {
        ChainSlots(b, l, h, cs, Lg(n - 1), i);
        MarkedReads(b, l, h, cs, n - 1, c[i]);
      }
      FilledReads(b1, c, -(n - 1), pos);
      forall m | 10 <= m < n && pos in Chain(cs, Lg(m)) ensures pos in c ==> m == n - 1 {
        if pos in c {
          assert Waiting(h, Lg(m), pos) && Waiting(h, Lg(n - 1), pos);
          WaitingOnce(h, Lg(m), Lg(n - 1), pos);
        }
      }
    }
  }

  /** The chain of a global that is still to be marked is intact. */
  lemma MarkedChain(b: Buffers, l: Labels, h: History, cs: Chains, n: nat)
    requires LinksOk(b, l, h, cs) && 10 <= n
    ensures var v := l.Cell(Lg(n));
      if v > 0 then IsChain(Marked(b, cs, n), v, Chain(cs, Lg(n))) && Distinct(Chain(cs, Lg(n))) else Chain(cs, Lg(n)) == []
  {
    var c := Chain(cs, Lg(n));
    assert CellOk(b, l, h, cs, Lg(n));
    if l.Cell(Lg(n)) > 0 {
      forall i | 0 <= i < |c|
        ensures ValidPos(Marked(b, cs, n), c[i]) && Read(Marked(b, cs, n), c[i]) == Read(b, c[i])
      {
        ChainSlots(b, l, h, cs, Lg(n), i);
        forall m | 10 <= m < n ensures c[i] !in Chain(cs, Lg(m)) {
          if c[i] in Chain(cs, Lg(m)) {
            assert Waiting(h, Lg(m), c[i]) && Waiting(h, Lg(n), c[i]);
            WaitingOnce(h, Lg(m), Lg(n), c[i]);
          }
        }
        MarkedReads(b, l, h, cs, n, c[i]);
      }
      ChainFrame(b, Marked(b, cs, n), l.Cell(Lg(n)), c);
    }
  }

  /** Collapse the chains of the globals that were not defined. */
  method MarkGlobals(b: Buffers, lg: seq<int>, ghost l: Labels, ghost h: History, ghost cs: Chains) returns (b': Buffers)
    requires LinksOk(b, l, h, cs) && l.lg == lg && |lg| >= 10
    ensures b' == Marked(b, cs, |lg|)
  {
    b' := b;
    for idx := 10 to |lg|
      invariant b' == Marked(b, cs, idx)
    {
      MarkedChain(b, l, h, cs, idx);
      b' := Collapse(b', lg[idx], -idx, Chain(cs, Lg(idx)));
    }
  }

  // -------------------------------------------------------- every reference is resolved

  /** No local label and no PC label has references waiting. */
  ghost predicate NonePending(l: Labels) {
    (forall n :: 1 <= n <= 9 && n < |l.lg| ==> l.lg[n] <= 0) && (forall n :: 0 <= n < |l.pc| ==> l.pc[n] <= 0)
    && (|l.lg| > 0 ==> l.lg[0] <= 0)
  }

  /** A resolved reference: it leads to its definition, or is marked as an outside global. */
  ghost predicate Resolved(b: Buffers, h: History, t: nat) {
    t < |h| && h[t].Ref? && ValidPos(b, h[t].slot)
    && match Binding(h, t)
       case Some(p) => Read(b, h[t].slot) == p && p > 0
       case None => h[t].dir != Bwd && h[t].key.Lg? && h[t].key.n >= 10 && Read(b, h[t].slot) + h[t].key.n == 0
  }

  lemma BoundNotWaiting(h: History, t: nat, k: Key)
    requires SlotsDiffer(h) && t < |h| && h[t].Ref? && Binding(h, t).Some?
    ensures !Waiting(h, k, h[t].slot)
  {
  }

  lemma OtherNotWaiting(b: Buffers, g: Trace, k: Key, pos: int)
    requires forall t :: 0 <= t < |g.hist| && g.hist[t].Ref? ==> IsLink(b, g.kinds, g.hist[t].slot)
    requires !IsLink(b, g.kinds, pos)
    ensures !Waiting(g.hist, k, pos)
  {
  }

  lemma AllResolved(b: Buffers, l: Labels, h: History, cs: Chains, t: nat)
    requires LinksOk(b, l, h, cs) && NonePending(l) && t < |h| && h[t].Ref?
    ensures Resolved(Marked(b, cs, |l.lg|), h, t)
  {
    var q, k := h[t].slot, h[t].key;
    assert RefOk(b, l, h, cs, t);
    assert CellOk(b, l, h, cs, k);
    MarkedReads(b, l, h, cs, |l.lg|, q);
    if Binding(h, t).Some? {
      forall m | 10 <= m < |l.lg| ensures q !in Chain(cs, Lg(m)) {
        BoundNotWaiting(h, t, Lg(m));
      }
    } else {
      assert l.Cell(k) > 0;
    }
  }

  lemma {:induction false} MarkedElsewhere(al: seq<Action>, b: Buffers, l: Labels, g: Trace, n: nat, s: nat, i: nat)
    requires Linked(al, b, l, g) && s < |b| && i < |b[s]| <= SEC && g.kinds[s][i] != KLink
    ensures var b1 := Marked(b, g.chains, n); s < |b1| && i < |b1[s]| && b1[s][i] == b[s][i]
    decreases n
  {
    MarkedSizes(b, g.chains, n);
    PosParts(s, i);
    if Pos(s, i) > 0 {
      forall m | 10 <= m < n ensures Pos(s, i) !in Chain(g.chains, Lg(m)) {
        OtherNotWaiting(b, g, Lg(m), Pos(s, i));
      }
      MarkedReads(b, l, g.hist, g.chains, n, Pos(s, i));
    } else if n > 10 {
      MarkedElsewhere(al, b, l, g, n - 1, s, i);
      var b1, c := Marked(b, g.chains, n - 1), Chain(g.chains, Lg(n - 1));
      forall j | 0 <= j < |c| ensures ValidPos(b1, c[j]) {
        ChainSlots(b, l, g.hist, g.chains, Lg(n - 1), j);
        MarkedReads(b, l, g.hist, g.chains, n - 1, c[j]);
      }
      FillAtZero(b1, c, -(n - 1));
    }
  }

  lemma MarkedSame(al: seq<Action>, b: Buffers, l: Labels, g: Trace, n: nat, s: nat)
    requires Linked(al, b, l, g) && s < |b| && |b[s]| <= SEC
    ensures |Marked(b, g.chains, n)| == |b| && SameButLinks(b[s], Marked(b, g.chains, n)[s], g.kinds[s])
  {
    MarkedSizes(b, g.chains, n);
    forall i | 0 <= i < |b[s]| && g.kinds[s][i] != KLink ensures Marked(b, g.chains, n)[s][i] == b[s][i] {
      MarkedElsewhere(al, b, l, g, n, s, i);
    }
  }

  // --------------------------------------------------------------- ready for pass 2

  /** The links of the branches, as the buffers hold them. */
  ghost function LinksOf(al: seq<Action>, b: Buffers, items: seq<Item>): (ls: seq<int>)
    ensures |ls| == |items| && forall i :: 0 <= i < |items| ==> ls[i] == LinkOf(al, b, items[i])
  {
    seq(|items|, i requires 0 <= i < |items| => LinkOf(al, b, items[i]))
  }

  /** What the branch at item `i` is bound to, by the history of the program. */
  ghost predicate Bound(al: seq<Action>, links: seq<int>, h: History, items: seq<Item>, tg: seq<int>, i: nat) {
    exists t :: BoundBy(al, links, h, items, tg, i, t)
  }

  ghost predicate BoundBy(al: seq<Action>, links: seq<int>, h: History, items: seq<Item>, tg: seq<int>, i: nat, t: nat) {
    i < |items| == |tg| == |links| && t < |h| && h[t].Ref? && h[t].slot == ItemPos(items[i])
    && match Binding(h, t)
       case Some(p) => LabelItem(al, items, p, tg[i])
       case None => tg[i] == -1 && h[t].key.Lg? && h[t].key.n >= 10 && links[i] + h[t].key.n == 0 && h[t].dir != Bwd
  }

  /** The reference of the branch at item `i`. */
  lemma BranchRef(al: seq<Action>, b: Buffers, l: Labels, g: Trace, ofs: seq<int>, items: seq<Item>, i: nat) returns (t: nat)
    requires Pass1(al, b, l, g, ofs) && Lists(g.log, items) && i < |items| && ActionOf(al, items[i]).Rel?
    ensures t < |g.hist| && g.hist[t].Ref? && g.hist[t].slot == ItemPos(items[i])
    ensures items[i].sec < |b| && 0 <= items[i].e.idx < |b[items[i].sec]|
  {
    var s, k := ItemFind(g.log, items, i);
    assert Closed(al, b[s], g.kinds[s], g.log[s], ofs[s]);
    ClosedWalks(al, b[s], g.kinds[s], g.log[s], ofs[s]);
    WalksAt(al, b[s], g.kinds[s], g.log[s], ofs[s], k);
    assert al[g.log[s][k].p].Rel?;
    assert HasRef(g.hist, s * SEC + g.log[s][k].idx);
    t :| 0 <= t < |g.hist| && g.hist[t].Ref? && g.hist[t].slot == s * SEC + g.log[s][k].idx;
  }

  lemma LinkRead(al: seq<Action>, b: Buffers, it: Item)
    requires ActionOf(al, it).Rel? && it.sec < |b| && 0 <= it.e.idx < |b[it.sec]| <= SEC && 0 < ItemPos(it)
    ensures LinkOf(al, b, it) == Read(b, ItemPos(it))
  {
    PosParts(it.sec, it.e.idx);
  }

  lemma BranchBound(al: seq<Action>, b: Buffers, l: Labels, g: Trace, ofs: seq<int>, b1: Buffers, items: seq<Item>, i: nat)
    requires Pass1(al, b, l, g, ofs) && NonePending(l) && b1 == Marked(b, g.chains, |l.lg|)
    requires forall s :: 0 <= s < |b| ==> |b[s]| <= SEC
    requires Lists(g.log, items) && Program(al, ofs, items) && i < |items| && ActionOf(al, items[i]).Rel?
    ensures Bound(al, LinksOf(al, b1, items), g.hist, items, Targets(al, b1, items), i)
    ensures LinkOf(al, b1, items[i]) < 0 || Targets(al, b1, items)[i] >= 0
  {
    var t := BranchRef(al, b, l, g, ofs, items, i);
    AllResolved(b, l, g.hist, g.chains, t);
    MarkedSizes(b, g.chains, |l.lg|);
    LinkRead(al, b1, items[i]);
    LinkTargets(al, g, ofs, b1, items, i, t);
    assert BoundBy(al, LinksOf(al, b1, items), g.hist, items, Targets(al, b1, items), i, t);
  }

  lemma LinkTargets(al: seq<Action>, g: Trace, ofs: seq<int>, b1: Buffers, items: seq<Item>, i: nat, t: nat)
    requires Lists(g.log, items) && Program(al, ofs, items) && i < |items|
    requires Resolved(b1, g.hist, t) && LinkOf(al, b1, items[i]) == Read(b1, g.hist[t].slot)
    requires forall u :: 0 <= u < |g.hist| && g.hist[u].Def? ==> LabelAt(al, g.log, g.hist[u].pos)
    ensures var tg := Targets(al, b1, items);
      match Binding(g.hist, t) case Some(p) => LabelItem(al, items, p, tg[i]) case None => tg[i] == -1
  {
    match Binding(g.hist, t)
    case Some(p) =>
      BindingIsDef(g.hist, t, p);
      var u :| 0 <= u < |g.hist| && g.hist[u].Def? && g.hist[u].pos == p;
      assert LabelAt(al, g.log, p);
      LabelIsItem(al, g.log, items, p);
      TargetIs(al, items, p);
    case None =>
      NoLabelBelowZero(al, ofs, items, LinkOf(al, b1, items[i]));
  }

  lemma LabelIsItem(al: seq<Action>, log: seq<seq<Entry>>, items: seq<Item>, pos: int)
    requires Lists(log, items) && LabelAt(al, log, pos)
    ensures exists j :: LabelItem(al, items, pos, j)
  {
    var s, k :| 0 <= s < |log| && 0 <= k < |log[s]| && IsLabel(al, log[s][k]) && pos == s * SEC + log[s][k].idx;
    assert ListedAt(log, items, s, k);
    assert LabelItem(al, items, pos, Before(log, s) + k);
  }

  /** A reference is bound to a definition of its label. */
  lemma BindingIsDef(h: History, t: nat, p: int)
    requires t < |h| && h[t].Ref? && Binding(h, t) == Some(p)
    ensures exists u :: 0 <= u < |h| && h[u].Def? && h[u].pos == p
    ensures exists u :: 0 <= u < |h| && h[u] == Def(p, h[t].key)
  {
    if LastDef(h[..t], h[t].key) == Some(p) {
      LastIsDef(h[..t], h[t].key, p);
      var u :| 0 <= u < t && h[..t][u] == Def(p, h[t].key);
      assert h[u] == Def(p, h[t].key);
    } else {
      NextIsDef(h, t + 1, h[t].key, p);
    }
  }

  lemma {:induction false} LastIsDef(h: History, k: Key, p: int)
    requires LastDef(h, k) == Some(p)
    ensures exists u :: 0 <= u < |h| && h[u] == Def(p, k)
    decreases |h|
  {
    if h[|h| - 1] != Def(p, k) {
      LastIsDef(h[..|h| - 1], k, p);
      var u :| 0 <= u < |h| - 1 && h[..|h| - 1][u] == Def(p, k);
      assert h[u] == Def(p, k);
    }
  }

  lemma {:induction false} NextIsDef(h: History, t: nat, k: Key, p: int)
    requires NextDef(h, t, k) == Some(p)
    ensures exists u :: t <= u < |h| && h[u] == Def(p, k)
    decreases |h| - t
  {
    if !(h[t].Def? && h[t].key == k) { NextIsDef(h, t + 1, k, p); }
  }

  /** The state between puts, with the globals marked, is ready for pass 2. */
  lemma ReadyToLink(al: seq<Action>, b: Buffers, l: Labels, g: Trace, ofs: seq<int>, b1: Buffers, items: seq<Item>)
    requires ValidActions(al) && Pass1(al, b, l, g, ofs) && NonePending(l) && b1 == Marked(b, g.chains, |l.lg|)
    requires forall s :: 0 <= s < |b| ==> |b[s]| <= SEC
    requires items == Flat(g.log, |g.log|)
    ensures Linkable(al, b1, g.kinds, g.log, ofs, items, Targets(al, b1, items))
    ensures forall j :: 0 <= j < |items| && HasEst(ActionOf(al, items[j])) ==> EstIs(al, b1, items[j], items[j].e.est + MaxOf(al, items[j]))
  {
    MarkedSizes(b, g.chains, |l.lg|);
    forall s | 0 <= s < |b| ensures Closed(al, b1[s], g.kinds[s], g.log[s], ofs[s]) && Walks(al, b1[s], g.kinds[s], g.log[s], ofs[s]) {
      assert Closed(al, b[s], g.kinds[s], g.log[s], ofs[s]);
      MarkedSame(al, b, l, g, |l.lg|, s);
      ClosedSame(al, b[s], b1[s], g.kinds[s], g.log[s], ofs[s]);
      ClosedWalks(al, b1[s], g.kinds[s], g.log[s], ofs[s]);
    }
    FlatProgram(al, b1, g.kinds, g.log, ofs, |b1|);
    FlatLists(g.log);
    forall i | 0 <= i < |items| && ActionOf(al, items[i]).Rel?
      ensures LinkOf(al, b1, items[i]) < 0 || Targets(al, b1, items)[i] >= 0
    {
      BranchBound(al, b, l, g, ofs, b1, items, i);
    }
    InitialEst(al, b1, g, ofs, items);
  }

  lemma InitialEst(al: seq<Action>, b: Buffers, g: Trace, ofs: seq<int>, items: seq<Item>)
    requires |b| == |g.kinds| == |g.log| == |ofs| && Lists(g.log, items)
    requires forall s :: 0 <= s < |b| ==> Closed(al, b[s], g.kinds[s], g.log[s], ofs[s])
    ensures forall j :: 0 <= j < |items| && HasEst(ActionOf(al, items[j])) ==> EstIs(al, b, items[j], items[j].e.est + MaxOf(al, items[j]))
  {
    forall j | 0 <= j < |items| && HasEst(ActionOf(al, items[j]))
      ensures EstIs(al, b, items[j], items[j].e.est + MaxOf(al, items[j]))
    {
      var s, k := ItemFind(g.log, items, j);
      ClosedWalks(al, b[s], g.kinds[s], g.log[s], ofs[s]);
      assert EntryOk(al, b[s], g.kinds[s], g.log[s][k]);
    }
  }
}
