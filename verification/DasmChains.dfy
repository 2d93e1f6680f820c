/** Label chains of the DynASM encoder (dasm_x86.h). While code is being put down, the slots
    that refer to a label not yet defined form a linked list inside the section buffers,
    anchored at the label; defining the label walks the list and fills the slots in. */
module DasmChains {

  // --------------------------------------------------- positions: section and index

  const SEC := 0x1000000

  function Pos(sec: nat, idx: nat): (pos: int)
    requires idx < SEC
  {
    sec * SEC + idx
  }

  /** DASM_POS2SEC and DASM_POS2IDX */
  function SecOf(pos: int): int { pos / SEC }
  function IdxOf(pos: int): int { pos % SEC }

  lemma PosParts(sec: nat, idx: nat)
    requires idx < SEC
    ensures SecOf(Pos(sec, idx)) == sec && IdxOf(Pos(sec, idx)) == idx
  {
  }

  /** Positions are ordered by section first. */
  lemma PosOrder(s: nat, i: nat, t: nat, j: nat)
    requires i < SEC && j < SEC
    ensures Pos(s, i) < Pos(t, j) <==> s < t || (s == t && i < j)
    ensures Pos(s, i) == Pos(t, j) ==> s == t && i == j
  {
    PosParts(s, i);
    PosParts(t, j);
  }

  /** The section buffers. */
  type Buffers = seq<seq<int>>

  predicate ValidPos(b: Buffers, pos: int) {
    0 < pos && SecOf(pos) < |b| && IdxOf(pos) < |b[SecOf(pos)]|
  }

  function Read(b: Buffers, pos: int): int {
    if ValidPos(b, pos) then b[SecOf(pos)][IdxOf(pos)] else 0
  }

  function Write(b: Buffers, pos: int, v: int): (b': Buffers)
    ensures |b'| == |b| && forall s :: 0 <= s < |b| ==> |b'[s]| == |b[s]|
  {
    if ValidPos(b, pos) then b[SecOf(pos) := b[SecOf(pos)][IdxOf(pos) := v]] else b
  }

  function Append(b: Buffers, sec: nat, v: int): (b': Buffers)
    requires sec < |b|
    ensures |b'| == |b| && forall s :: 0 <= s < |b| ==> b[s] <= b'[s]
  {
    b[sec := b[sec] + [v]]
  }

  lemma ReadWrite(b: Buffers, pos: int, v: int, other: int)
    requires ValidPos(b, pos)
    ensures Read(Write(b, pos, v), other) == if other == pos then v else Read(b, other)
    ensures ValidPos(Write(b, pos, v), other) == ValidPos(b, other)
  {
    if ValidPos(b, other) && SecOf(pos) == SecOf(other) && IdxOf(pos) == IdxOf(other) {
      assert pos == other;
    }
  }

  lemma ReadAppend(b: Buffers, sec: nat, v: int, other: int)
    requires sec < |b| && |b[sec]| < SEC
    ensures ValidPos(b, other) ==> ValidPos(Append(b, sec, v), other) && Read(Append(b, sec, v), other) == Read(b, other)
    ensures 0 < Pos(sec, |b[sec]|) ==> ValidPos(Append(b, sec, v), Pos(sec, |b[sec]|)) && Read(Append(b, sec, v), Pos(sec, |b[sec]|)) == v
    ensures !ValidPos(b, Pos(sec, |b[sec]|))
  {
    PosParts(sec, |b[sec]|);
  }

  // ----------------------------------------------------------------- chains

  /** The list of slots reached from `n` by following buffer contents until 0. */
  ghost predicate IsChain(b: Buffers, n: int, cs: seq<int>)
    decreases |cs|
  {
    if cs == [] then n == 0
    else n == cs[0] && ValidPos(b, n) && IsChain(b, Read(b, n), cs[1..])
  }

  ghost predicate Distinct(cs: seq<int>) {
    forall i, j :: 0 <= i < j < |cs| ==> cs[i] != cs[j]
  }

  /** A chain does not notice writes outside it, nor appends. */
  lemma {:induction false} ChainFrame(b: Buffers, b': Buffers, n: int, cs: seq<int>)
    requires IsChain(b, n, cs)
    requires forall i :: 0 <= i < |cs| ==> ValidPos(b', cs[i]) && Read(b', cs[i]) == Read(b, cs[i])
    ensures IsChain(b', n, cs)
    decreases |cs|
  {
    if cs != [] {
      assert forall i :: 0 <= i < |cs[1..]| ==> cs[1..][i] == cs[i + 1];
      ChainFrame(b, b', Read(b, n), cs[1..]);
    }
  }

  lemma {:induction false} ChainValid(b: Buffers, n: int, cs: seq<int>, i: nat)
    requires IsChain(b, n, cs) && i < |cs|
    ensures ValidPos(b, cs[i])
    decreases |cs|
  {
    if i > 0 {
      ChainValid(b, Read(b, n), cs[1..], i - 1);
      assert cs[1..][i - 1] == cs[i];
    }
  }

  /** The buffers with `v` in every slot of `cs`. */
  function Filled(b: Buffers, cs: seq<int>, v: int): (b': Buffers)
    decreases |cs|
  {
    if cs == [] then b else Filled(Write(b, cs[0], v), cs[1..], v)
  }

  lemma {:induction false} FilledReads(b: Buffers, cs: seq<int>, v: int, pos: int)
    requires forall i :: 0 <= i < |cs| ==> ValidPos(b, cs[i])
    ensures ValidPos(Filled(b, cs, v), pos) == ValidPos(b, pos)
    ensures Read(Filled(b, cs, v), pos) == if pos in cs then v else Read(b, pos)
    decreases |cs|
  {
    if cs != [] {
      var b1 := Write(b, cs[0], v);
      ReadWrite(b, cs[0], v, pos);
      forall i | 0 <= i < |cs[1..]| ensures ValidPos(b1, cs[1..][i]) {
        assert cs[1..][i] == cs[i + 1];
        ReadWrite(b, cs[0], v, cs[i + 1]);
      }
      FilledReads(b1, cs[1..], v, pos);
      assert pos in cs <==> pos == cs[0] || pos in cs[1..];
    }
  }

  lemma {:induction false} FilledSizes(b: Buffers, cs: seq<int>, v: int)
    ensures |Filled(b, cs, v)| == |b| && forall s :: 0 <= s < |b| ==> |Filled(b, cs, v)[s]| == |b[s]|
    decreases |cs|
  {
    if cs != [] { FilledSizes(Write(b, cs[0], v), cs[1..], v); }
  }

  /** The loop that collapses a chain: walk it from `n`, overwriting each link with `v`.
      It ends, having filled exactly the slots of the chain. */
  method Collapse(b0: Buffers, n0: int, v: int, ghost cs: seq<int>) returns (b: Buffers)
    requires n0 > 0 ==> IsChain(b0, n0, cs) && Distinct(cs)
    requires n0 <= 0 ==> cs == []
    ensures b == Filled(b0, cs, v)
  {
    b := b0;
    var n := n0;
    ghost var rest := cs;
    while n > 0
      invariant n > 0 ==> IsChain(b, n, rest) && Distinct(rest)
      invariant n <= 0 ==> rest == []
      invariant Filled(b, rest, v) == Filled(b0, cs, v)
      decreases |rest|
    {
      var pos := n;
      n := Read(b, pos);
      CollapseStep(b, pos, v, rest);
      b := Write(b, pos, v);
      rest := rest[1..];
    }
  }

  lemma CollapseStep(b: Buffers, n: int, v: int, cs: seq<int>)
    requires n > 0 && IsChain(b, n, cs) && Distinct(cs)
    ensures cs != [] && IsChain(Write(b, n, v), Read(b, n), cs[1..]) && Distinct(cs[1..])
    ensures Filled(Write(b, n, v), cs[1..], v) == Filled(b, cs, v)
    ensures Read(b, n) <= 0 ==> cs[1..] == []
  {
    forall i | 0 <= i < |cs[1..]|
      ensures ValidPos(Write(b, n, v), cs[1..][i]) && Read(Write(b, n, v), cs[1..][i]) == Read(b, cs[1..][i])
    {
      ChainValid(b, Read(b, n), cs[1..], i);
      assert cs[1..][i] == cs[i + 1];
      ReadWrite(b, n, v, cs[i + 1]);
    }
    ChainFrame(b, Write(b, n, v), Read(b, n), cs[1..]);
  }
}
