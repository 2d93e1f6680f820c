/** What label references mean in DynASM, and why the chains compute it. The meaning is given
    by the history of references and definitions, in the order they were put down; the state
    of the encoder is just the label cells and the section buffers. */
module DasmLabels {
  import opened Wrappers
  import opened DasmChains

  /** A label: local or global (`Lg`, of which 1 to 9 are local), or a PC label. */
  datatype Key = Lg(n: nat) | Pc(n: nat) {
    predicate Local() { Lg? && 1 <= n <= 9 }
  }

  /** How a reference picks its definition: the next one, the latest one, or, for labels that
      are defined once, whichever there is. */
  datatype Dir = Fwd | Bwd | Any

  /** What has been put down: a reference in buffer slot `slot`, a definition whose slot is
      `pos`, or a check step that forgets the local labels. */
  datatype Event = Ref(slot: int, key: Key, dir: Dir) | Def(pos: int, key: Key) | Step

  type History = seq<Event>

  /** The latest definition of a label that is still remembered. */
  ghost function LastDef(h: History, k: Key): Option<int> {
    if h == [] then None
    else match h[|h| - 1]
      case Def(p, k1) => if k1 == k then Some(p) else LastDef(h[..|h| - 1], k)
      case Step => if k.Local() then None else LastDef(h[..|h| - 1], k)
      case Ref(_, _, _) => LastDef(h[..|h| - 1], k)
  }

  /** The first definition at or after time `t`. */
  ghost function NextDef(h: History, t: nat, k: Key): Option<int>
    decreases |h| - t
  {
    if t >= |h| then None
    else if h[t].Def? && h[t].key == k then Some(h[t].pos)
    else NextDef(h, t + 1, k)
  }

  /** The definition the reference at time `t` stands for, if there is one yet. */
  ghost function Binding(h: History, t: nat): Option<int>
    requires t < |h| && h[t].Ref?
  {
    match h[t].dir
    case Fwd => NextDef(h, t + 1, h[t].key)
    case Bwd => LastDef(h[..t], h[t].key)
    case Any => var before := LastDef(h[..t], h[t].key);
                if before.Some? then before else NextDef(h, t + 1, h[t].key)
  }

  lemma {:induction false} NextDefAppend(h: History, e: Event, t: nat, k: Key)
    requires t <= |h|
    ensures NextDef(h + [e], t, k) ==
      if NextDef(h, t, k).Some? then NextDef(h, t, k)
      else if e.Def? && e.key == k then Some(e.pos) else None
    decreases |h| - t
  {
    if t < |h| { NextDefAppend(h, e, t + 1, k); }
  }

  lemma BindingAppend(h: History, e: Event, t: nat)
    requires t < |h| && h[t].Ref?
    ensures Binding(h, t).Some? ==> Binding(h + [e], t) == Binding(h, t)
    ensures Binding(h, t).None? ==>
      Binding(h + [e], t) == if h[t].dir != Bwd && e.Def? && e.key == h[t].key then Some(e.pos) else None
  {
    assert (h + [e])[..t] == h[..t];
    NextDefAppend(h, e, t + 1, h[t].key);
  }

  lemma BindingNew(h: History, e: Event)
    requires e.Ref?
    ensures Binding(h + [e], |h|) == if e.dir == Fwd then None else LastDef(h, e.key)
  {
    assert (h + [e])[..|h|] == h;
  }

  lemma LastDefAppend(h: History, e: Event, k: Key)
    ensures LastDef(h + [e], k) ==
      match e
      case Def(p, k1) => if k1 == k then Some(p) else LastDef(h, k)
      case Step => if k.Local() then None else LastDef(h, k)
      case Ref(_, _, _) => LastDef(h, k)
  {
    assert (h + [e])[..|h|] == h;
  }

  // ------------------------------------------------------------ encoder state

  /** The label cells: positive while references wait for a definition, negative once there
      is one, 0 when the label is unknown. */
  datatype Labels = Labels(lg: seq<int>, pc: seq<int>) {
    predicate Has(k: Key) {
      match k case Lg(n) => n < |lg| case Pc(n) => n < |pc|
    }

    function Cell(k: Key): int {
      match k
      case Lg(n) => if n < |lg| then lg[n] else 0
      case Pc(n) => if n < |pc| then pc[n] else 0
    }

    function Set(k: Key, v: int): Labels {
      match k
      case Lg(n) => if n < |lg| then this.(lg := lg[n := v]) else this
      case Pc(n) => if n < |pc| then this.(pc := pc[n := v]) else this
    }
  }

  type Chains = map<Key, seq<int>>

  ghost function Chain(cs: Chains, k: Key): seq<int> {
    if k in cs then cs[k] else []
  }

  /** The cell of `k` anchors its chain, or knows its latest definition. */
  ghost predicate CellOk(b: Buffers, l: Labels, h: History, cs: Chains, k: Key) {
    var v, c := l.Cell(k), Chain(cs, k);
    (if v > 0 then IsChain(b, v, c) && Distinct(c) && (k.Local() || LastDef(h, k).None?)
     else c == [] && LastDef(h, k) == if v < 0 then Some(-v) else None)
  }

  /** The reference at time `t` already points to its definition, or waits in its chain. */
  ghost predicate RefOk(b: Buffers, l: Labels, h: History, cs: Chains, t: nat) {
    t < |h| && h[t].Ref? && ValidPos(b, h[t].slot) && l.Has(h[t].key)
    && match Binding(h, t)
       case Some(p) => Read(b, h[t].slot) == p && p > 0
       case None => h[t].dir != Bwd && h[t].slot in Chain(cs, h[t].key)
  }

  /** Every slot in a chain is that of a reference to the label that is still unbound. */
  ghost predicate Waiting(h: History, k: Key, slot: int) {
    exists t :: 0 <= t < |h| && h[t].Ref? && h[t].slot == slot && h[t].key == k && Binding(h, t).None?
  }

  ghost predicate SlotsDiffer(h: History) {
    forall t, u :: 0 <= t < u < |h| && h[t].Ref? && h[u].Ref? ==> h[t].slot != h[u].slot
  }

  /** The chains are exactly the unbound references, label by label, and everything else is
      resolved according to the history. */
  ghost predicate LinksOk(b: Buffers, l: Labels, h: History, cs: Chains) {
    SlotsDiffer(h)
    && (forall k :: CellOk(b, l, h, cs, k))
    && (forall t :: 0 <= t < |h| && h[t].Ref? ==> RefOk(b, l, h, cs, t))
    && (forall k, q :: q in Chain(cs, k) ==> Waiting(h, k, q))
  }

  /** A slot waits in at most one chain, and no bound reference uses it. */
  lemma WaitingOnce(h: History, k1: Key, k2: Key, q: int)
    requires SlotsDiffer(h) && Waiting(h, k1, q) && Waiting(h, k2, q)
    ensures k1 == k2
  {
  }

  lemma WaitingAppend(h: History, e: Event, k: Key, q: int)
    requires Waiting(h, k, q) && !(e.Def? && e.key == k)
    ensures Waiting(h + [e], k, q)
  {
    var t :| 0 <= t < |h| && h[t].Ref? && h[t].slot == q && h[t].key == k && Binding(h, t).None?;
    BindingAppend(h, e, t);
    assert (h + [e])[t] == h[t];
  }

  /** Putting down something that is not a label or a reference. */
  lemma PlainKeeps(b: Buffers, l: Labels, h: History, cs: Chains, sec: nat, v: int)
    requires LinksOk(b, l, h, cs) && sec < |b| && |b[sec]| < SEC
    ensures LinksOk(Append(b, sec, v), l, h, cs)
  {
    var b1 := Append(b, sec, v);
    forall k ensures CellOk(b1, l, h, cs, k) {
      assert CellOk(b, l, h, cs, k);
      if l.Cell(k) > 0 { ChainAppend(b, sec, v, l.Cell(k), Chain(cs, k)); }
    }
    forall t | 0 <= t < |h| && h[t].Ref? ensures RefOk(b1, l, h, cs, t) {
      assert RefOk(b, l, h, cs, t);
      ReadAppend(b, sec, v, h[t].slot);
    }
  }

  lemma ChainAppend(b: Buffers, sec: nat, v: int, n: int, c: seq<int>)
    requires IsChain(b, n, c) && sec < |b| && |b[sec]| < SEC
    ensures IsChain(Append(b, sec, v), n, c)
  {
    forall i | 0 <= i < |c|
      ensures ValidPos(Append(b, sec, v), c[i]) && Read(Append(b, sec, v), c[i]) == Read(b, c[i])
    {
      ChainValid(b, n, c, i);
      ReadAppend(b, sec, v, c[i]);
    }
    ChainFrame(b, Append(b, sec, v), n, c);
  }

  /** A reference to a label that is defined: it points there at once. */
  lemma BoundKeeps(b: Buffers, l: Labels, h: History, cs: Chains, sec: nat, k: Key, dir: Dir)
    requires LinksOk(b, l, h, cs) && sec < |b| && 0 < |b[sec]| < SEC
    requires dir != Fwd && l.Has(k) && l.Cell(k) < 0
    ensures LinksOk(Append(b, sec, -l.Cell(k)), l, h + [Ref(Pos(sec, |b[sec]|), k, dir)], cs)
  {
    var v, q := -l.Cell(k), Pos(sec, |b[sec]|);
    var b1, e := Append(b, sec, v), Ref(q, k, dir);
    PlainKeeps(b, l, h, cs, sec, v);
    assert CellOk(b, l, h, cs, k);
    BindingNew(h, e);
    NewRef(b, l, h, cs, sec, v, e);
    forall k1 ensures CellOk(b1, l, h + [e], cs, k1) {
      assert CellOk(b1, l, h, cs, k1);
      LastDefAppend(h, e, k1);
    }
    forall t | 0 <= t < |h + [e]| && (h + [e])[t].Ref? ensures RefOk(b1, l, h + [e], cs, t) {
      if t < |h| {
        assert RefOk(b1, l, h, cs, t);
        BindingAppend(h, e, t);
      } else {
        ReadAppend(b, sec, v, q);
      }
    }
    forall k1, q1 | q1 in Chain(cs, k1) ensures Waiting(h + [e], k1, q1) {
      WaitingAppend(h, e, k1, q1);
    }
  }

  /** The slot of a new reference is not that of an old one. */
  lemma NewRef(b: Buffers, l: Labels, h: History, cs: Chains, sec: nat, v: int, e: Event)
    requires LinksOk(b, l, h, cs) && sec < |b| && |b[sec]| < SEC
    requires e.Ref? && e.slot == Pos(sec, |b[sec]|)
    ensures SlotsDiffer(h + [e])
  {
    ReadAppend(b, sec, v, e.slot);
    forall t | 0 <= t < |h| && h[t].Ref? ensures h[t].slot != e.slot {
      assert RefOk(b, l, h, cs, t);
    }
  }

  /** A reference to a label that is not defined, or a forward reference: its slot becomes the
      new head of the chain. */
  lemma LinkedKeeps(b: Buffers, l: Labels, h: History, cs: Chains, sec: nat, k: Key, dir: Dir)
    requires LinksOk(b, l, h, cs) && sec < |b| && 0 < |b[sec]| < SEC && l.Has(k)
    requires if dir == Fwd then k.Local() else dir == Any && !k.Local() && l.Cell(k) >= 0
    ensures var q, n := Pos(sec, |b[sec]|), if l.Cell(k) > 0 then l.Cell(k) else 0;
      LinksOk(Append(b, sec, n), l.Set(k, q), h + [Ref(q, k, dir)], cs[k := [q] + Chain(cs, k)])
  {
    var q, n := Pos(sec, |b[sec]|), if l.Cell(k) > 0 then l.Cell(k) else 0;
    var b1, l1, e, cs1 := Append(b, sec, n), l.Set(k, q), Ref(q, k, dir), cs[k := [q] + Chain(cs, k)];
    assert CellOk(b, l, h, cs, k);
    PlainKeeps(b, l, h, cs, sec, n);
    BindingNew(h, e);
    NewRef(b, l, h, cs, sec, n, e);
    ReadAppend(b, sec, n, q);
    forall k1 ensures CellOk(b1, l1, h + [e], cs1, k1) {
      assert CellOk(b1, l, h, cs, k1);
      LastDefAppend(h, e, k1);
      if k1 == k { NewHead(b, sec, n, Chain(cs, k)); }
    }
    forall t | 0 <= t < |h + [e]| && (h + [e])[t].Ref? ensures RefOk(b1, l1, h + [e], cs1, t) {
      if t < |h| {
        assert RefOk(b1, l, h, cs, t);
        BindingAppend(h, e, t);
      }
    }
    forall k1, q1 | q1 in Chain(cs1, k1) ensures Waiting(h + [e], k1, q1) {
      if q1 in Chain(cs, k1) {
        WaitingAppend(h, e, k1, q1);
      } else {
        assert (h + [e])[|h|] == e;
      }
    }
  }

  lemma NewHead(b: Buffers, sec: nat, n: int, c: seq<int>)
    requires IsChain(b, n, c) && Distinct(c) && sec < |b| && 0 < |b[sec]| < SEC
    ensures var q := Pos(sec, |b[sec]|); IsChain(Append(b, sec, n), q, [q] + c) && Distinct([q] + c)
  {
    var q := Pos(sec, |b[sec]|);
    ReadAppend(b, sec, n, q);
    ChainAppend(b, sec, n, n, c);
    assert ([q] + c)[1..] == c;
    forall i | 0 <= i < |c| ensures c[i] != q { ChainValid(b, n, c, i); }
  }

  /** Defining a label: its chain is filled with the position, and nothing else changes. */
  lemma DefKeeps(b: Buffers, l: Labels, h: History, cs: Chains, k: Key, p: int)
    requires LinksOk(b, l, h, cs) && l.Has(k) && p > 0
    ensures LinksOk(Filled(b, Chain(cs, k), p), l.Set(k, -p), h + [Def(p, k)], cs[k := []])
  {
    var c := Chain(cs, k);
    var b1, l1, e, cs1 := Filled(b, c, p), l.Set(k, -p), Def(p, k), cs[k := []];
    assert CellOk(b, l, h, cs, k);
    forall i | 0 <= i < |c| ensures ValidPos(b, c[i]) { ChainValid(b, l.Cell(k), c, i); }
    forall k1 ensures CellOk(b1, l1, h + [e], cs1, k1) {
      assert CellOk(b, l, h, cs, k1);
      LastDefAppend(h, e, k1);
      if k1 != k && l.Cell(k1) > 0 { OtherChain(b, l, h, cs, k, p, k1); }
    }
    forall t | 0 <= t < |h + [e]| && (h + [e])[t].Ref? ensures RefOk(b1, l1, h + [e], cs1, t) {
      DefResolves(b, l, h, cs, k, p, t);
    }
    forall k1, q1 | q1 in Chain(cs1, k1) ensures Waiting(h + [e], k1, q1) {
      WaitingAppend(h, e, k1, q1);
    }
    assert SlotsDiffer(h + [e]);
  }

  /** The references that waited for the label are the ones now resolved. */
  lemma DefResolves(b: Buffers, l: Labels, h: History, cs: Chains, k: Key, p: int, t: nat)
    requires LinksOk(b, l, h, cs) && p > 0 && t < |h| && h[t].Ref?
    requires forall i :: 0 <= i < |Chain(cs, k)| ==> ValidPos(b, Chain(cs, k)[i])
    ensures RefOk(Filled(b, Chain(cs, k), p), l.Set(k, -p), h + [Def(p, k)], cs[k := []], t)
  {
    assert RefOk(b, l, h, cs, t);
    BindingAppend(h, Def(p, k), t);
    FilledReads(b, Chain(cs, k), p, h[t].slot);
    if h[t].slot in Chain(cs, k) { assert Waiting(h, k, h[t].slot); }
  }

  /** Filling the chain of `k` leaves the chain of `k1` alone. */
  lemma OtherChain(b: Buffers, l: Labels, h: History, cs: Chains, k: Key, p: int, k1: Key)
    requires LinksOk(b, l, h, cs) && k1 != k && l.Cell(k1) > 0
    requires forall i :: 0 <= i < |Chain(cs, k)| ==> ValidPos(b, Chain(cs, k)[i])
    ensures IsChain(Filled(b, Chain(cs, k), p), l.Cell(k1), Chain(cs, k1))
  {
    var c, c1 := Chain(cs, k), Chain(cs, k1);
    assert CellOk(b, l, h, cs, k1);
    forall i | 0 <= i < |c1|
      ensures ValidPos(Filled(b, c, p), c1[i]) && Read(Filled(b, c, p), c1[i]) == Read(b, c1[i])
    {
      ChainValid(b, l.Cell(k1), c1, i);
      FilledReads(b, c, p, c1[i]);
      assert Waiting(h, k1, c1[i]);
      if c1[i] in c {
        assert Waiting(h, k, c1[i]);
        WaitingOnce(h, k, k1, c1[i]);
      }
    }
    ChainFrame(b, Filled(b, c, p), l.Cell(k1), c1);
  }

  /** The labels after dasm_checkstep has cleared the local ones. */
  function Cleared(l: Labels): Labels {
    l.(lg := seq(|l.lg|, n requires 0 <= n < |l.lg| => if 1 <= n <= 9 then 0 else l.lg[n]))
  }

  /** A check step with no local reference left waiting. */
  lemma StepKeeps(b: Buffers, l: Labels, h: History, cs: Chains)
    requires LinksOk(b, l, h, cs) && forall n :: 1 <= n <= 9 && n < |l.lg| ==> l.lg[n] <= 0
    ensures LinksOk(b, Cleared(l), h + [Step], cs)
  {
    var l1 := Cleared(l);
    forall k ensures CellOk(b, l1, h + [Step], cs, k) {
      assert CellOk(b, l, h, cs, k);
      LastDefAppend(h, Step, k);
      assert l1.Cell(k) == if k.Local() then 0 else l.Cell(k);
    }
    forall t | 0 <= t < |h + [Step]| && (h + [Step])[t].Ref? ensures RefOk(b, l1, h + [Step], cs, t) {
      assert RefOk(b, l, h, cs, t);
      BindingAppend(h, Step, t);
    }
    forall k1, q1 | q1 in Chain(cs, k1) ensures Waiting(h + [Step], k1, q1) {
      WaitingAppend(h, Step, k1, q1);
    }
    assert SlotsDiffer(h + [Step]);
  }

  /** A backward reference is accepted exactly when the label's last event since the last
      check step was its definition: not when the label is unknown, and not when a forward
      reference to it is still waiting, although an older definition may exist. */
  lemma BackwardAccepted(b: Buffers, l: Labels, h: History, cs: Chains, k: Key)
    requires LinksOk(b, l, h, cs) && k.Local()
    ensures l.Cell(k) < 0 <==> LastDef(h, k).Some? && Chain(cs, k) == []
    ensures l.Cell(k) < 0 ==> LastDef(h, k) == Some(-l.Cell(k))
  {
    assert CellOk(b, l, h, cs, k);
  }
}
