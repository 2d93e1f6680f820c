/** The bytecode dump writer (lj_bcwrite.c). Bytes are put behind each other in a buffer. */
module BcWrite {
  import opened Wrappers
  import opened ByteStrings
  import opened Leb128
  import opened BcFormat

  /** bcwrite_ktabk */
  method WriteTv(cfg: Config, v: Tv, narrow: bool) returns (e: Bytes)
    ensures e == EncTv(cfg, v, narrow)
  {
    hide Uleb;
    match v
    case Str(s) =>
      e := WriteUleb(5 + |s|);
      e := e + s;
    case IntV(k) =>
      e := WriteUleb(k);
      e := [3] + e;
    case NumV(lo, hi) =>
      if !cfg.dual && narrow {
        var k := cfg.asInt(lo, hi);
        if k.Some? {
          e := WriteUleb(k.value);
          return [3] + e;
        }
      }
      e := WriteUleb(lo);
      var e2 := WriteUleb(hi);
      e := [4] + e + e2;
    case Nil => e := [0];
    case False => e := [1];
    case True => e := [2];
  }

  /** bcwrite_ktab: the array part without the nils at its end, and the used hash nodes from
      the last to the first. */
  method WriteTable(cfg: Config, t: Table) returns (e: Bytes)
    ensures e == EncTable(cfg, t)
  {
    hide EncTv, Uleb, EncNodes, EncTvs;
    var narray: nat := |t.arr|;
    assert t.arr[..narray] == t.arr;
    while narray > 0 && t.arr[narray - 1] == Nil
      invariant narray <= |t.arr| && Trimmed(t.arr[..narray]) == Trimmed(t.arr)
    {
      assert t.arr[..narray][..narray - 1] == t.arr[..narray - 1];
      narray := narray - 1;
    }
    assert t.arr[..narray] == Trimmed(t.arr);
    var nhash := CountUsed(t.nodes);
    var e0 := WriteUleb(narray);
    var e1 := WriteUleb(nhash);
    var e2 := WriteArray(cfg, t.arr, narray);
    var e3 := WriteHash(cfg, t.nodes, nhash);
    e := e0 + (e1 + (e2 + e3));
  }

  method CountUsed(nodes: seq<Node>) returns (n: nat)
    ensures n == |Used(nodes)|
  {
    n := 0;
    for i := 0 to |nodes|
      invariant n == |Used(nodes[..i])|
    {
      assert nodes[..i + 1][..i] == nodes[..i];
      n := n + if nodes[i].val == Nil then 0 else 1;
    }
    assert nodes[..|nodes|] == nodes;
  }

  method WriteArray(cfg: Config, arr: seq<Tv>, narray: nat) returns (e: Bytes)
    requires narray <= |arr|
    ensures e == EncTvs(cfg, arr[..narray], 0)
  {
    hide EncTv;
    e := [];
    ghost var vs := arr[..narray];
    for i := 0 to narray
      invariant e + EncTvs(cfg, vs, i) == EncTvs(cfg, vs, 0)
    {
      var x := WriteTv(cfg, arr[i], true);
      assert e + EncTvs(cfg, vs, i) == (e + x) + EncTvs(cfg, vs, i + 1);
      e := e + x;
    }
  }

  /** From the last node on, until as many as were counted are written. */
  method WriteHash(cfg: Config, nodes: seq<Node>, nhash: nat) returns (e: Bytes)
    requires nhash == |Used(nodes)|
    ensures e == EncNodes(cfg, Used(nodes), 0)
  {
    hide EncTv, Used;
    e := [];
    ghost var us := Used(nodes);
    var left: nat, i: nat := nhash, |nodes|;
    assert us[0..] == us && nodes[..i] == nodes;
    while left > 0
      invariant i <= |nodes| && left <= |us| && us[|us| - left..] == Used(nodes[..i])
      invariant e + EncNodes(cfg, us, |us| - left) == EncNodes(cfg, us, 0)
      decreases i
    {
      UsedStep(nodes, i);
      i := i - 1;
      if nodes[i].val != Nil {
        ghost var rest := us[|us| - left..];
        assert rest[0] == nodes[i] && us[|us| - left + 1..] == rest[1..] == Used(nodes[..i]);
        var k := WriteTv(cfg, nodes[i].key, false);
        var v := WriteTv(cfg, nodes[i].val, true);
        assert e + EncNodes(cfg, us, |us| - left) == (e + k + v) + EncNodes(cfg, us, |us| - left + 1);
        e := e + k + v;
        left := left - 1;
      }
    }
  }

  lemma UsedStep(nodes: seq<Node>, i: nat)
    requires i <= |nodes|
    ensures i > 0 ==> Used(nodes[..i]) == (if nodes[i - 1].val == Nil then [] else [nodes[i - 1]]) + Used(nodes[..i - 1])
    ensures i == 0 ==> Used(nodes[..i]) == []
  {
    if i > 0 { assert nodes[..i][..i - 1] == nodes[..i - 1]; }
  }

  /** bcwrite_kgc */
  method WriteGcs(cfg: Config, gs: seq<Gc>) returns (e: Bytes)
    ensures e == EncGcs(cfg, gs, 0)
  {
    hide EncGc;
    e := [];
    for i := 0 to |gs|
      invariant e + EncGcs(cfg, gs, i) == EncGcs(cfg, gs, 0)
    {
      var x := WriteGc(cfg, gs[i]);
      assert e + EncGcs(cfg, gs, i) == (e + x) + EncGcs(cfg, gs, i + 1);
      e := e + x;
    }
  }

  /** One constant. */
  method WriteGc(cfg: Config, g: Gc) returns (e: Bytes)
    ensures e == EncGc(cfg, g)
  {
    hide EncTable, Uleb;
    match g {
      case KStr(s) =>
        e := WriteUleb(5 + |s|);
        e := e + s;
      case Child(_) => e := WriteUleb(0);
      case Tab(t) =>
        e := WriteUleb(1);
        var y := WriteTable(cfg, t);
        e := e + y;
    }
  }

  /** bcwrite_knum */
  method WriteNums(cfg: Config, vs: seq<Tv>) returns (e: Bytes)
    requires ConfigOk(cfg) && ValidNums(cfg, vs)
    ensures e == EncNums(cfg, vs, 0)
  {
    hide Uleb;
    e := [];
    for i := 0 to |vs|
      invariant e + EncNums(cfg, vs, i) == EncNums(cfg, vs, 0)
    {
      var x := WriteNum(cfg, vs[i]);
      assert e + EncNums(cfg, vs, i) == (e + x) + EncNums(cfg, vs, i + 1);
      e := e + x;
    }
  }

  method WriteNum(cfg: Config, v: Tv) returns (e: Bytes)
    requires ConfigOk(cfg) && ValidTv(cfg, v) && IsNumber(v)
    ensures e == EncNum(cfg, v)
  {
    hide Uleb;
    if v.IntV? {
      e := WriteUleb33(v.k, 0);
      return;
    }
    if !cfg.dual {
      var k := cfg.asInt(v.lo, v.hi);
      if k.Some? {
        e := WriteUleb33(k.value, 0);
        return;
      }
    }
    e := WriteUleb33(v.lo, 1);
    var hi := WriteUleb(v.hi);
    e := e + hi;
  }

  /** bcwrite_bytecode: the instructions are copied, and patched ones are changed back in the
      copy. */
  method WriteBytecode(cfg: Config, p: Proto) returns (e: Bytes)
    ensures e == EncBc(WrittenBc(cfg, p), 0)
  {
    hide Unpatch;
    var bc := p.bc;
    if HasFlag(p.flags, PROTO_ILOOP) || p.trace {
      for i := 0 to |bc|
        invariant |bc| == |p.bc| && forall k :: 0 <= k < |bc| ==> bc[k] == if k < i then Unpatch(cfg, p.bc[k]) else p.bc[k]
      {
        bc := bc[i := Unpatch(cfg, bc[i])];
      }
    }
    assert bc == WrittenBc(cfg, p);
    e := WriteIns(bc);
  }

  method WriteIns(bc: seq<Ins>) returns (e: Bytes)
    ensures e == EncBc(bc, 0)
  {
    e := [];
    for i := 0 to |bc|
      invariant e + EncBc(bc, i) == EncBc(bc, 0)
    {
      assert e + EncBc(bc, i) == (e + EncIns(bc[i])) + EncBc(bc, i + 1);
      e := e + EncIns(bc[i]);
    }
  }

  /** The buffer of one prototype, behind the room left for its length. */
  method WriteBody(cfg: Config, p: Proto) returns (e: Bytes)
    requires ConfigOk(cfg) && ValidHere(cfg, p)
    ensures e == EncProto(cfg, p)
  {
    hide Uleb, EncTv, EncGcs, EncNums, EncBc, WrittenBc, KeptFlags;
    var n0 := WriteUleb(|p.kgc|);
    var n1 := WriteUleb(|p.knum|);
    var n2 := WriteUleb(|p.bc|);
    var dbg := WriteDebugHead(cfg, p);
    var bc := WriteBytecode(cfg, p);
    var gs := WriteGcs(cfg, p.kgc);
    var ns := WriteNums(cfg, p.knum);
    e := EncSizes(cfg, p) + (n0 + (n1 + (n2 + (dbg + (bc + (p.uv + (gs + (ns + EncDebug(cfg, p)))))))));
  }

  method WriteDebugHead(cfg: Config, p: Proto) returns (e: Bytes)
    ensures e == EncDebugHead(cfg, p)
  {
    hide Uleb;
    if cfg.strip {
      return [];
    }
    var sizedbg := DebugSize(p);
    e := WriteUleb(sizedbg);
    if sizedbg > 0 {
      var a := WriteUleb(p.debug.value.firstline);
      var c := WriteUleb(p.debug.value.numline);
      e := e + (a + c);
    }
  }

  /** The length is put in front, right before the body: it is written from where it is sure to
      end at the fifth byte. */
  method WriteFramed(cfg: Config, p: Proto) returns (e: Bytes)
    requires ConfigOk(cfg) && ValidHere(cfg, p)
    ensures e == Framed(cfg, p)
  {
    hide Uleb, EncGcs, EncNums, EncBc, WrittenBc, Fls;
    var body := WriteBody(cfg, p);
    var buf: Bytes := seq(5, _ => 0) + body;
    var n := |buf| - 5;
    BodyNotEmpty(cfg, p);
    PrefixLength(n);
    var nn := (Fls(n) + 8) * 9 / 64;
    var q := 5 - nn;
    var len := WriteUleb(n);
    buf := buf[..q] + len + buf[q + |len|..];
    assert buf[q..] == len + body;
    return buf[q..];
  }

  lemma BodyNotEmpty(cfg: Config, p: Proto)
    ensures |EncProto(cfg, p)| > 0
  {
    hide Uleb, EncGcs, EncNums, EncBc, WrittenBc, EncDebug, EncDebugHead;
    assert |EncSizes(cfg, p)| == 4;
  }

  /** bcwrite_proto: first the children, from the last constant to the first, then the
      prototype itself. */
  method WriteProto(cfg: Config, p: Proto) returns (e: Bytes)
    requires ConfigOk(cfg) && Valid(cfg, p)
    ensures e == FramedAll(cfg, Order(p))
    decreases p, 1
  {
    hide Framed, ValidHere;
    e := [];
    if HasFlag(p.flags, PROTO_CHILD) {
      e := WriteChildren(cfg, p);
    } else {
      ValidFlagged(cfg, p);
      NoChildren(p, 0);
    }
    var own := WriteFramed(cfg, p);
    assert Order(p)[..|Order(p)| - 1] == OrderFrom(p, 0);
    e := e + own;
  }

  method WriteChildren(cfg: Config, p: Proto) returns (e: Bytes)
    requires ConfigOk(cfg) && Valid(cfg, p)
    ensures e == FramedAll(cfg, OrderFrom(p, 0))
    decreases p, 0
  {
    hide Framed, ValidHere;
    e := [];
    var i := |p.kgc|;
    while i > 0
      invariant 0 <= i <= |p.kgc| && e == FramedAll(cfg, OrderFrom(p, i))
    {
      i := i - 1;
      if p.kgc[i].Child? {
        var x := WriteProto(cfg, p.kgc[i].pt);
        FramedConcat(cfg, OrderFrom(p, i + 1), Order(p.kgc[i].pt));
        e := e + x;
      } else {
        assert OrderFrom(p, i + 1) + [] == OrderFrom(p, i + 1);
      }
    }
  }

  lemma ValidFlagged(cfg: Config, p: Proto)
    requires ValidHere(cfg, p)
    ensures ChildrenFlagged(p)
  {
  }

  /** Without the flag there are no children. */
  lemma {:induction false} NoChildren(p: Proto, i: nat)
    requires ChildrenFlagged(p) && !HasFlag(p.flags, PROTO_CHILD)
    ensures OrderFrom(p, i) == []
    decreases |p.kgc| - i
  {
    hide Order;
    if i < |p.kgc| { NoChildren(p, i + 1); }
  }
}
