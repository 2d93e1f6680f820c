/** Dumping a function and loading it again: the loaded function is the one that was compiled,
    whatever the virtual machine patched in it since and into whatever pieces the reader function
    cuts the dump. */
module BcReload {
  import opened Wrappers
  import opened ByteStrings
  import opened BcFormat
  import opened BcRead
  import opened BcDump

  // ------------------------------------------------------------- what is kept of a function

  /** The slot of an array part; those behind its end are nil. */
  function Slot(arr: seq<Tv>, i: nat): Tv { if i < |arr| then arr[i] else Nil }

  ghost predicate SameArray(a: seq<Tv>, b: seq<Tv>) {
    forall i: nat :: Slot(a, i) == Slot(b, i)
  }

  /** `r` is the same table as `t`: if no key of `t` is there twice, this is so for `r`, and every
      key has the same value. */
  ghost predicate SameTable(t: Table, r: Table) {
    SameArray(t.arr, r.arr) && (DistinctKeys(t.nodes) ==> DistinctKeys(r.nodes) && Contents(r.nodes) == Contents(t.nodes))
  }

  ghost predicate PatchedBc(cfg: Config, from: seq<Ins>, to: seq<Ins>) {
    |to| == |from| && forall k :: 0 <= k < |from| ==> PatchOf(cfg, from[k], to[k])
  }

  /** The flags for children, a variable number of arguments and the use of the FFI are the same. */
  predicate SameFlags(f: Byte, g: Byte) {
    (HasFlag(f, 1) <==> HasFlag(g, 1)) && (HasFlag(f, 2) <==> HasFlag(g, 2)) && (HasFlag(f, 4) <==> HasFlag(g, 4))
  }

  lemma KeptSame(f: Byte, g: Byte)
    requires SameFlags(f, g)
    ensures SameFlags(f, KeptFlags(g)) && KeptFlags(g) as int < 8
  {
  }

  /** `p` is what the virtual machine may have made of the compiled function `o`: it may have
      patched loop instructions, which leaves a mark, also in the children. */
  ghost predicate RunsAs(cfg: Config, o: Proto, p: Proto)
    decreases o
  {
    && p == o.(flags := p.flags, bc := p.bc, kgc := p.kgc, trace := p.trace) && SameFlags(o.flags, p.flags)
    && (if HasFlag(p.flags, PROTO_ILOOP) || p.trace then PatchedBc(cfg, o.bc, p.bc) else p.bc == o.bc)
    && |p.kgc| == |o.kgc|
    && forall i :: 0 <= i < |o.kgc| ==>
      if o.kgc[i].Child? then p.kgc[i].Child? && RunsAs(cfg, o.kgc[i].pt, p.kgc[i].pt) else p.kgc[i] == o.kgc[i]
  }

  /** `q` is the compiled function `o` again: the same instructions and the same constants, without
      debug information if it was stripped. */
  ghost predicate Restores(cfg: Config, o: Proto, q: Proto)
    decreases o
  {
    && q.bc == o.bc && SameFlags(o.flags, q.flags) && q.flags as int < 8 && !q.trace && q.numparams == o.numparams && q.framesize == o.framesize
    && q.uv == o.uv && q.knum == o.knum && q.debug == (if cfg.strip then None else o.debug)
    && |q.kgc| == |o.kgc|
    && forall i :: 0 <= i < |o.kgc| ==>
      match o.kgc[i]
      case Child(c) => q.kgc[i].Child? && Restores(cfg, c, q.kgc[i].pt)
      case Tab(t) => q.kgc[i].Tab? && SameTable(t, q.kgc[i].t)
      case KStr(s) => q.kgc[i] == KStr(s)
  }

  // ------------------------------------------------------------------------------- tables

  lemma {:induction false} UsedDistinct(nodes: seq<Node>)
    requires DistinctKeys(nodes)
    ensures DistinctKeys(Used(nodes))
    decreases |nodes|
  {
    if nodes != [] {
      var front, n, used := nodes[..|nodes| - 1], nodes[|nodes| - 1], Used(nodes);
      assert DistinctKeys(front);
      UsedDistinct(front);
      forall i, j | 0 <= i < j < |used| && used[i].val != Nil && used[j].val != Nil ensures used[i].key != used[j].key {
        UsedAre(front, used[j]);
        if n.val != Nil && i == 0 {
          var k :| 0 <= k < |front| && front[k] == used[j];
          assert nodes[k] == used[j] && nodes[|nodes| - 1] == used[0];
        }
      }
    }
  }

  ghost predicate Maps(m: map<Tv, Tv>, k: Tv, v: Tv) { k in m && m[k] == v }

  /** A key is in the contents with its value if and only if a used node says so. */
  lemma HasNode(nodes: seq<Node>, k: Tv, v: Tv)
    requires DistinctKeys(nodes)
    ensures Maps(Contents(nodes), k, v) <==> v != Nil && Node(k, v) in nodes
  {
    ContentsAre(nodes, k);
    if k in Contents(nodes) {
      var i :| 0 <= i < |nodes| && nodes[i].val != Nil && nodes[i].key == k;
      assert nodes[i] == Node(k, nodes[i].val);
    }
    if v != Nil && Node(k, v) in nodes {
      var i :| 0 <= i < |nodes| && nodes[i] == Node(k, v);
    }
  }

  /** Writing only the used nodes, in whatever order, keeps the contents. */
  lemma UsedContents(nodes: seq<Node>)
    requires DistinctKeys(nodes)
    ensures Contents(Used(nodes)) == Contents(nodes)
  {
    var a, b := Contents(Used(nodes)), Contents(nodes);
    UsedDistinct(nodes);
    forall k: Tv, v: Tv ensures Maps(a, k, v) <==> Maps(b, k, v) {
      HasNode(nodes, k, v);
      HasNode(Used(nodes), k, v);
      UsedAre(nodes, Node(k, v));
    }
    forall k | k in a ensures k in b && a[k] == b[k] { assert Maps(a, k, a[k]); }
    forall k | k in b ensures k in a { assert Maps(b, k, b[k]); }
  }

  /** The table that comes back is the same. */
  lemma TableRestored(t: Table)
    ensures SameTable(t, Table(Trimmed(t.arr), Used(t.nodes)))
  {
    forall i: nat ensures Slot(t.arr, i) == Slot(Trimmed(t.arr), i) {
      if i < |t.arr| { TrimmedSame(t.arr, i); }
    }
    if DistinctKeys(t.nodes) {
      UsedDistinct(t.nodes);
      UsedContents(t.nodes);
    }
  }

  // --------------------------------------------------------------------------- prototypes

  lemma BcRestored(cfg: Config, o: Proto, p: Proto)
    requires RunsAs(cfg, o, p)
    ensures WrittenBc(cfg, p) == o.bc
  {
    if HasFlag(p.flags, PROTO_ILOOP) || p.trace {
      forall k | 0 <= k < |o.bc| ensures WrittenBc(cfg, p)[k] == o.bc[k] { UnpatchRestores(cfg, o.bc[k], p.bc[k]); }
    }
  }

  lemma {:induction false} GcsAre(cfg: Config, p: Proto, i: nat)
    requires i <= |p.kgc|
    ensures |NormalGcs(cfg, p, i)| == |p.kgc| - i
    ensures forall k :: i <= k < |p.kgc| ==> NormalGcs(cfg, p, i)[k - i] == match p.kgc[k]
      case Child(c) => Child(Normal(cfg, c))
      case Tab(t) => Tab(Table(Trimmed(t.arr), Used(t.nodes)))
      case KStr(s) => KStr(s)
    decreases |p.kgc| - i
  {
    hide Normal, Trimmed, Used;
    if i < |p.kgc| { GcsAre(cfg, p, i + 1); }
  }

  /** What a dump gives back is the function as it was compiled, whatever became of it. */
  lemma {:induction false} NormalRestores(cfg: Config, o: Proto, p: Proto)
    requires RunsAs(cfg, o, p)
    ensures Restores(cfg, o, Normal(cfg, p))
    decreases o
  {
    hide Trimmed, Used, SameTable, NormalGcs, WrittenBc, SameFlags, KeptFlags;
    var q := Normal(cfg, p);
    BcRestored(cfg, o, p);
    KeptSame(o.flags, p.flags);
    GcsAre(cfg, p, 0);
    forall i | 0 <= i < |o.kgc|
      ensures match o.kgc[i]
        case Child(c) => q.kgc[i].Child? && Restores(cfg, c, q.kgc[i].pt)
        case Tab(t) => q.kgc[i].Tab? && SameTable(t, q.kgc[i].t)
        case KStr(s) => q.kgc[i] == KStr(s)
    {
      match o.kgc[i]
      case Child(c) => NormalRestores(cfg, c, p.kgc[i].pt);
      case Tab(t) => TableRestored(t);
      case KStr(_) =>
    }
  }

  // --------------------------------------------------------------------------- the reader

  function PieceSize(b: Bytes, sizes: seq<nat>): (n: nat)
    requires b != []
    ensures 0 < n <= |b|
  {
    if sizes == [] || sizes[0] >= |b| then |b| else if sizes[0] == 0 then 1 else sizes[0]
  }

  /** The pieces in which a reader function hands out `b`: none is empty, `sizes` says how long
      they are. */
  function Pieces(b: Bytes, sizes: seq<nat>): seq<Bytes>
    decreases |b|
  {
    if b == [] then []
    else [b[..PieceSize(b, sizes)]] + Pieces(b[PieceSize(b, sizes)..], if sizes == [] then [] else sizes[1..])
  }

  lemma {:induction false} PiecesStream(b: Bytes, sizes: seq<nat>)
    ensures Stream(Pieces(b, sizes)) == b
    decreases |b|
  {
    hide PieceSize;
    if b != [] {
      var n, rest := PieceSize(b, sizes), if sizes == [] then [] else sizes[1..];
      PiecesStream(b[n..], rest);
      assert Pieces(b, sizes)[1..] == Pieces(b[n..], rest);
      assert b[..n] + b[n..] == b;
    }
  }

  /** lj_lex_setup: the first byte tells a dump from source text. */
  method FirstByte(input: Input, ghost b: Byte, ghost tail: Bytes) returns (c: Byte)
    requires !input.eof && input.avail == [] && input.Rest() == [b] + tail
    modifies input
    ensures c == b && input.Rest() == tail && !input.eof
  {
    hide Stream;
    var ok := input.Need(1);
    assert input.Rest() == [b] + tail && input.Rest()[0] == b && input.Rest()[1..] == tail;
    c := input.avail[0];
    input.Advance(1);
  }

  /** string.dump, then loading its result: the function is the compiled one, `o`. */
  method Reload(runtime: Config, strip: bool, fr2: bool, p: Proto, name: Bytes, sizes: seq<nat>, ghost o: Proto)
    returns (res: Result<Proto, Error>)
    requires ConfigOk(runtime) && Valid(runtime.(strip := strip), p) && |name| <= MAX_BUF
    requires RunsAs(runtime.(strip := strip), o, p)
    ensures res.Ok? && Restores(runtime.(strip := strip), o, res.value)
  {
    hide Valid, RunsAs, Restores, Stream, Dump, Pieces;
    var cfg := runtime.(strip := strip);
    NormalRestores(cfg, o, p);
    var e := WriteDump(cfg, fr2, p, name);
    PiecesStream(e, sizes);
    var input := new Input(Pieces(e, sizes));
    assert [] + e == e;
    var c := FirstByte(input, ESC, Dump(cfg, fr2, p, name));
    if c != ESC {
      return Err(BadFormat);
    }
    res := Load(input, fr2, runtime, strip, p, name);
  }
}
