/** The bytecode dump reader (lj_bcread.c). What is read is given by the encoding: each method
    is given, for the proof only, the value whose encoding is in front of it. */
module BcRead {
  import opened Wrappers
  import opened ByteStrings
  import opened Leb128
  import opened BcFormat

  datatype Error = BadDump | BadFormat

  // ------------------------------------------------------------------------ constants

  /** What an integer becomes: a type of its own, or a number. */
  function IntTv(cfg: Config, k: nat): Tv {
    if cfg.dual then IntV(k) else NumV(cfg.fromInt(k).0, cfg.fromInt(k).1)
  }

  /** bcread_ktabk */
  method ReadTv(cfg: Config, b: Bytes, p0: nat, ghost v: Tv, ghost narrow: bool) returns (r: Tv, p: nat)
    requires ConfigOk(cfg) && ValidTv(cfg, v) && At(b, p0, EncTv(cfg, v, narrow))
    ensures r == v && p == p0 + |EncTv(cfg, v, narrow)|
  {
    ghost var tp0 := match v case Nil => 0 case False => 1 case True => 2 case IntV(_) => 3
      case NumV(lo, hi) => (if !cfg.dual && narrow && cfg.asInt(lo, hi).Some? then 3 else 4) case Str(s) => 5 + |s|;
    hide Uleb, At, EncTv;
    TvTag(cfg, b, p0, v, narrow);
    var tp;
    tp, p := ReadUleb(b, p0, tp0);
    if tp >= 5 {
      StrAt(b, p, v.s);
      r, p := Str(b[p..p + (tp - 5)]), p + (tp - 5);
    } else if tp == 3 {
      var k;
      k, p := ReadUleb(b, p, if v.IntV? then v.k else cfg.asInt(v.lo, v.hi).value);
      r := IntTv(cfg, k);
    } else if tp == 4 {
      var lo, hi;
      lo, p := ReadUleb(b, p, v.lo);
      hi, p := ReadUleb(b, p, v.hi);
      r := NumV(lo, hi);
    } else {
      r := if tp == 0 then Nil else if tp == 1 then False else True;
    }
  }

  lemma StrAt(b: Bytes, p: nat, s: Bytes)
    requires At(b, p, s)
    ensures p + |s| <= |b| && b[p..p + |s|] == s
  {
  }

  /** The parts of an encoded constant. */
  lemma TvTag(cfg: Config, b: Bytes, p: nat, v: Tv, narrow: bool)
    requires At(b, p, EncTv(cfg, v, narrow))
    ensures match v
      case Nil => At(b, p, Uleb(0)) && |EncTv(cfg, v, narrow)| == |Uleb(0)|
      case False => At(b, p, Uleb(1)) && |EncTv(cfg, v, narrow)| == |Uleb(1)|
      case True => At(b, p, Uleb(2)) && |EncTv(cfg, v, narrow)| == |Uleb(2)|
      case IntV(k) => At(b, p, Uleb(3)) && At(b, p + |Uleb(3)|, Uleb(k)) && |EncTv(cfg, v, narrow)| == |Uleb(3)| + |Uleb(k)|
      case NumV(lo, hi) =>
        if !cfg.dual && narrow && cfg.asInt(lo, hi).Some? then
          var k := cfg.asInt(lo, hi).value;
          At(b, p, Uleb(3)) && At(b, p + |Uleb(3)|, Uleb(k)) && |EncTv(cfg, v, narrow)| == |Uleb(3)| + |Uleb(k)|
        else
          At(b, p, Uleb(4)) && At(b, p + |Uleb(4)|, Uleb(lo)) && At(b, p + |Uleb(4)| + |Uleb(lo)|, Uleb(hi))
          && |EncTv(cfg, v, narrow)| == |Uleb(4)| + |Uleb(lo)| + |Uleb(hi)|
      case Str(s) =>
        At(b, p, Uleb(5 + |s|)) && At(b, p + |Uleb(5 + |s|)|, s) && |EncTv(cfg, v, narrow)| == |Uleb(5 + |s|)| + |s|
  {
    SmallTags();
    hide Uleb, At;
    match v
    case IntV(k) => AtParts(b, p, [3], Uleb(k));
    case NumV(lo, hi) =>
      if !cfg.dual && narrow && cfg.asInt(lo, hi).Some? {
        AtParts(b, p, [3], Uleb(cfg.asInt(lo, hi).value));
      } else {
        AtParts(b, p, [4] + Uleb(lo), Uleb(hi));
        AtParts(b, p, [4], Uleb(lo));
      }
    case Str(s) => AtParts(b, p, Uleb(5 + |s|), s);
    case _ =>
  }

  lemma SmallTags()
    ensures Uleb(0) == [0] && Uleb(1) == [1] && Uleb(2) == [2] && Uleb(3) == [3] && Uleb(4) == [4]
  {
  }

  /** bcread_ktab: the table comes back trimmed, with the used nodes in the order written. */
  method ReadTable(cfg: Config, b: Bytes, p0: nat, ghost t: Table) returns (r: Table, p: nat)
    requires ConfigOk(cfg) && ValidTable(cfg, t) && At(b, p0, EncTable(cfg, t))
    ensures r == Table(Trimmed(t.arr), Used(t.nodes)) && p == p0 + |EncTable(cfg, t)|
  {
    hide Uleb, At, EncTvs, EncNodes, Trimmed, Used, EncTable, ValidTv, ValidTvs, ValidNodes;
    ghost var arr, ns := Trimmed(t.arr), Used(t.nodes);
    UsedValid(cfg, t.nodes);
    TrimmedValid(cfg, t.arr);
    TableParts(cfg, b, p0, t);
    var narray, nhash, as_, hs;
    narray, p := ReadUleb(b, p0, |arr|);
    nhash, p := ReadUleb(b, p, |ns|);
    as_, p := ReadArray(cfg, b, p, narray, arr);
    hs, p := ReadHash(cfg, b, p, nhash, ns);
    r := Table(as_, hs);
  }

  lemma TableParts(cfg: Config, b: Bytes, p: nat, t: Table)
    requires At(b, p, EncTable(cfg, t))
    ensures var arr, ns := Trimmed(t.arr), Used(t.nodes);
      var p1 := p + |Uleb(|arr|)|;
      var p2 := p1 + |Uleb(|ns|)|;
      var p3 := p2 + |EncTvs(cfg, arr, 0)|;
      At(b, p, Uleb(|arr|)) && At(b, p1, Uleb(|ns|)) && At(b, p2, EncTvs(cfg, arr, 0)) && At(b, p3, EncNodes(cfg, ns, 0))
      && p + |EncTable(cfg, t)| == p3 + |EncNodes(cfg, ns, 0)|
  {
    hide Uleb, At, EncTvs, EncNodes, Trimmed, Used;
    var arr, ns := Trimmed(t.arr), Used(t.nodes);
    var e3 := EncTvs(cfg, arr, 0) + EncNodes(cfg, ns, 0);
    AtParts(b, p, Uleb(|arr|), Uleb(|ns|) + e3);
    AtParts(b, p + |Uleb(|arr|)|, Uleb(|ns|), e3);
    AtParts(b, p + |Uleb(|arr|)| + |Uleb(|ns|)|, EncTvs(cfg, arr, 0), EncNodes(cfg, ns, 0));
  }

  lemma TrimmedValid(cfg: Config, arr: seq<Tv>)
    requires ValidTvs(cfg, arr)
    ensures ValidTvs(cfg, Trimmed(arr))
  {
  }

  lemma {:induction false} UsedValid(cfg: Config, nodes: seq<Node>)
    requires ValidNodes(cfg, nodes)
    ensures ValidNodes(cfg, Used(nodes))
    decreases |nodes|
  {
    if nodes != [] { UsedValid(cfg, nodes[..|nodes| - 1]); }
  }

  method ReadArray(cfg: Config, b: Bytes, p0: nat, n: nat, ghost vs: seq<Tv>) returns (r: seq<Tv>, p: nat)
    requires ConfigOk(cfg) && n == |vs| && At(b, p0, EncTvs(cfg, vs, 0)) && ValidTvs(cfg, vs)
    ensures r == vs && p == p0 + |EncTvs(cfg, vs, 0)|
  {
    hide At, EncTv, ValidTv;
    r, p := [], p0;
    for i := 0 to n
      invariant r == vs[..i] && At(b, p, EncTvs(cfg, vs, i)) && p + |EncTvs(cfg, vs, i)| == p0 + |EncTvs(cfg, vs, 0)|
    {
      AtParts(b, p, EncTv(cfg, vs[i], true), EncTvs(cfg, vs, i + 1));
      var v;
      v, p := ReadTv(cfg, b, p, vs[i], true);
      r := r + [v];
    }
  }

  method ReadHash(cfg: Config, b: Bytes, p0: nat, n: nat, ghost ns: seq<Node>) returns (r: seq<Node>, p: nat)
    requires ConfigOk(cfg) && n == |ns| && At(b, p0, EncNodes(cfg, ns, 0)) && ValidNodes(cfg, ns)
    ensures r == ns && p == p0 + |EncNodes(cfg, ns, 0)|
  {
    hide At, EncTv, ValidTv;
    r, p := [], p0;
    for i := 0 to n
      invariant r == ns[..i] && At(b, p, EncNodes(cfg, ns, i)) && p + |EncNodes(cfg, ns, i)| == p0 + |EncNodes(cfg, ns, 0)|
    {
      AtParts(b, p, EncNode(cfg, ns[i]), EncNodes(cfg, ns, i + 1));
      AtParts(b, p, EncTv(cfg, ns[i].key, false), EncTv(cfg, ns[i].val, true));
      var k, v;
      k, p := ReadTv(cfg, b, p, ns[i].key, false);
      v, p := ReadTv(cfg, b, p, ns[i].val, true);
      r := r + [Node(k, v)];
    }
  }

  /** bcread_knum */
  method ReadNums(cfg: Config, b: Bytes, p0: nat, n: nat, ghost vs: seq<Tv>) returns (r: seq<Tv>, p: nat)
    requires ConfigOk(cfg) && n == |vs| && At(b, p0, EncNums(cfg, vs, 0)) && ValidNums(cfg, vs)
    ensures r == vs && p == p0 + |EncNums(cfg, vs, 0)|
  {
    hide At, EncNum, ValidTv, IsNumber;
    r, p := [], p0;
    for i := 0 to n
      invariant r == vs[..i] && At(b, p, EncNums(cfg, vs, i)) && p + |EncNums(cfg, vs, i)| == p0 + |EncNums(cfg, vs, 0)|
    {
      AtParts(b, p, EncNum(cfg, vs[i]), EncNums(cfg, vs, i + 1));
      var v;
      v, p := ReadNum(cfg, b, p, vs[i]);
      r := r + [v];
    }
  }

  lemma AtInside(b: Bytes, p: nat, v: nat)
    requires At(b, p, Uleb(v))
    ensures p < |b|
  {
    hide Uleb;
  }

  method ReadNum(cfg: Config, b: Bytes, p0: nat, ghost v: Tv) returns (r: Tv, p: nat)
    requires ConfigOk(cfg) && ValidTv(cfg, v) && IsNumber(v) && At(b, p0, EncNum(cfg, v))
    ensures r == v && p == p0 + |EncNum(cfg, v)|
  {
    ghost var whole := v.IntV? || (!cfg.dual && cfg.asInt(v.lo, v.hi).Some?);
    ghost var lo0 := if v.IntV? then v.k else if whole then cfg.asInt(v.lo, v.hi).value else v.lo;
    hide Uleb, At;
    if !whole { AtParts(b, p0, Uleb(2 * v.lo + 1), Uleb(v.hi)); }
    AtInside(b, p0, 2 * lo0 + if whole then 0 else 1);
    var isnum := b[p0] as int % 2 == 1;
    var lo;
    lo, p := ReadUleb33(b, p0, lo0, if whole then 0 else 1);
    if isnum {
      var hi;
      hi, p := ReadUleb(b, p, v.hi);
      r := NumV(lo, hi);
    } else {
      r := IntTv(cfg, lo);
    }
  }

  // ------------------------------------------------------- constants with children

  /** The constants with children taken from the stack, and the stack left: none if the stack
      runs out. */
  function LoadGcs(gs: seq<Gc>, i: nat, st: seq<Proto>): Option<(seq<Gc>, seq<Proto>)>
    decreases |gs| - i
  {
    if i >= |gs| then Some(([], st))
    else match gs[i]
      case Child(_) =>
        if st == [] then None
        else (match LoadGcs(gs, i + 1, st[..|st| - 1])
              case None => None
              case Some((r, st1)) => Some(([Child(st[|st| - 1])] + r, st1)))
      case Tab(t) =>
        (match LoadGcs(gs, i + 1, st)
         case None => None
         case Some((r, st1)) => Some(([Tab(Table(Trimmed(t.arr), Used(t.nodes)))] + r, st1)))
      case KStr(s) =>
        (match LoadGcs(gs, i + 1, st)
         case None => None
         case Some((r, st1)) => Some(([KStr(s)] + r, st1)))
  }

  /** What reading from constant `i` on adds to what was read. */
  ghost predicate LoadsOn(gs: seq<Gc>, i: nat, r: seq<Gc>, st: seq<Proto>, whole: Option<(seq<Gc>, seq<Proto>)>) {
    match LoadGcs(gs, i, st)
    case None => whole == None
    case Some((more, st1)) => whole == Some((r + more, st1))
  }

  /** bcread_kgc */
  method ReadGcs(cfg: Config, b: Bytes, p0: nat, n: nat, st0: seq<Proto>, ghost gs: seq<Gc>)
    returns (res: Result<(seq<Gc>, seq<Proto>), Error>, p: nat)
    requires ConfigOk(cfg) && n == |gs| && At(b, p0, EncGcs(cfg, gs, 0)) && ValidGcs(cfg, gs)
    ensures match LoadGcs(gs, 0, st0) case None => res == Err(BadDump) case Some(x) => res == Ok(x)
    ensures res.Ok? ==> p == p0 + |EncGcs(cfg, gs, 0)|
  {
    hide At, EncGc, ValidGc, LoadGcs;
    var r: seq<Gc>, st := [], st0;
    ghost var whole := LoadGcs(gs, 0, st0);
    LoadsStart(gs, st0);
    p := p0;
    for i := 0 to n
      invariant LoadsOn(gs, i, r, st, whole)
      invariant At(b, p, EncGcs(cfg, gs, i)) && p + |EncGcs(cfg, gs, i)| == p0 + |EncGcs(cfg, gs, 0)|
    {
      AtParts(b, p, EncGc(cfg, gs[i]), EncGcs(cfg, gs, i + 1));
      var g;
      g, p := ReadGc(cfg, b, p, gs[i]);
      LoadsStep(gs, i, r, st, whole);
      if g.None? {
        if st == [] {
          return Err(BadDump), p;
        }
        r, st := r + [Child(st[|st| - 1])], st[..|st| - 1];
      } else {
        r := r + [g.value];
      }
    }
    LoadsEnd(gs, r, st, whole);
    return Ok((r, st)), p;
  }

  lemma LoadsStart(gs: seq<Gc>, st: seq<Proto>)
    ensures LoadsOn(gs, 0, [], st, LoadGcs(gs, 0, st))
  {
    var whole := LoadGcs(gs, 0, st);
    if whole.Some? { assert [] + whole.value.0 == whole.value.0; }
  }

  lemma LoadsEnd(gs: seq<Gc>, r: seq<Gc>, st: seq<Proto>, whole: Option<(seq<Gc>, seq<Proto>)>)
    requires LoadsOn(gs, |gs|, r, st, whole)
    ensures whole == Some((r, st))
  {
    assert r + [] == r;
  }

  lemma LoadsStep(gs: seq<Gc>, i: nat, r: seq<Gc>, st: seq<Proto>, whole: Option<(seq<Gc>, seq<Proto>)>)
    requires i < |gs| && LoadsOn(gs, i, r, st, whole)
    ensures gs[i].Child? && st == [] ==> whole == None
    ensures gs[i].Child? && st != [] ==> LoadsOn(gs, i + 1, r + [Child(st[|st| - 1])], st[..|st| - 1], whole)
    ensures gs[i].Tab? ==> LoadsOn(gs, i + 1, r + [Tab(Table(Trimmed(gs[i].t.arr), Used(gs[i].t.nodes)))], st, whole)
    ensures gs[i].KStr? ==> LoadsOn(gs, i + 1, r + [gs[i]], st, whole)
  {
    hide Trimmed, Used;
    if gs[i].Child? && st == [] {
    } else {
      var g := match gs[i] case Child(_) => Child(st[|st| - 1]) case Tab(t) => Tab(Table(Trimmed(t.arr), Used(t.nodes))) case KStr(s) => KStr(s);
      var st1 := if gs[i].Child? then st[..|st| - 1] else st;
      var next := LoadGcs(gs, i + 1, st1);
      if next.Some? { assert (r + [g]) + next.value.0 == r + ([g] + next.value.0); }
    }
  }

  /** One constant; a child is to be taken from the stack. */
  method ReadGc(cfg: Config, b: Bytes, p0: nat, ghost g: Gc) returns (r: Option<Gc>, p: nat)
    requires ConfigOk(cfg) && ValidGc(cfg, g) && At(b, p0, EncGc(cfg, g))
    ensures p == p0 + |EncGc(cfg, g)|
    ensures r == match g case Child(_) => None case Tab(t) => Some(Tab(Table(Trimmed(t.arr), Used(t.nodes)))) case KStr(s) => Some(KStr(s))
  {
    hide At, Uleb, EncTable, ValidTable, Trimmed, Used;
    ghost var tp0 := match g case Child(_) => 0 case Tab(_) => 1 case KStr(s) => 5 + |s|;
    match g {
      case Child(_) =>
      case Tab(t) => AtParts(b, p0, Uleb(1), EncTable(cfg, t));
      case KStr(s) => AtParts(b, p0, Uleb(5 + |s|), s);
    }
    var tp;
    tp, p := ReadUleb(b, p0, tp0);
    if tp >= 5 {
      StrAt(b, p, g.s);
      r, p := Some(KStr(b[p..p + (tp - 5)])), p + (tp - 5);
    } else if tp == 1 {
      var t;
      t, p := ReadTable(cfg, b, p, g.t);
      r := Some(Tab(t));
    } else {
      r := None;
    }
  }

  // ----------------------------------------------------------------------- prototypes

  /** bcread_bytecode: the instructions, without the header. */
  method ReadBc(b: Bytes, p0: nat, n: nat, ghost bc: seq<Ins>) returns (r: seq<Ins>, p: nat)
    requires n == |bc| && At(b, p0, EncBc(bc, 0))
    ensures r == bc && p == p0 + |EncBc(bc, 0)|
  {
    hide At;
    r, p := [], p0;
    for i := 0 to n
      invariant r == bc[..i] && At(b, p, EncBc(bc, i)) && p + |EncBc(bc, i)| == p0 + |EncBc(bc, 0)|
    {
      AtParts(b, p, EncIns(bc[i]), EncBc(bc, i + 1));
      InsAt(b, p, bc[i]);
      r, p := r + [Ins(b[p], b[p + 1], b[p + 2], b[p + 3])], p + 4;
    }
  }

  lemma InsAt(b: Bytes, p: nat, i: Ins)
    requires At(b, p, EncIns(i))
    ensures p + 4 <= |b| && Ins(b[p], b[p + 1], b[p + 2], b[p + 3]) == i
  {
    AtByte(b, p, EncIns(i), 0);
    AtByte(b, p, EncIns(i), 1);
    AtByte(b, p, EncIns(i), 2);
    AtByte(b, p, EncIns(i), 3);
  }

  /** A prototype as it is read: with the kept flags, the bytecode as written, constants `gs`,
      and debug information only if it was not stripped. */
  function Loaded(cfg: Config, q: Proto, gs: seq<Gc>): Proto {
    Proto(KeptFlags(q.flags), q.numparams, q.framesize, q.uv, WrittenBc(cfg, q), gs, q.knum, if cfg.strip then None else q.debug, false)
  }

  /** Where the parts of an encoded prototype are. */
  datatype Parts = Parts(n0: nat, n1: nat, n2: nat, dbg: nat, bc: nat, uv: nat, gs: nat, ns: nat, block: nat, end: nat)

  function PartsOf(cfg: Config, p: nat, q: Proto): Parts {
    var n0 := p + |EncSizes(cfg, q)|;
    var n1 := n0 + |Uleb(|q.kgc|)|;
    var n2 := n1 + |Uleb(|q.knum|)|;
    var dbg := n2 + |Uleb(|q.bc|)|;
    var bc := dbg + |EncDebugHead(cfg, q)|;
    var uv := bc + |EncBc(WrittenBc(cfg, q), 0)|;
    var gs := uv + |q.uv|;
    var ns := gs + |EncGcs(cfg, q.kgc, 0)|;
    var block := ns + |EncNums(cfg, q.knum, 0)|;
    Parts(n0, n1, n2, dbg, bc, uv, gs, ns, block, block + |EncDebug(cfg, q)|)
  }

  lemma ProtoParts(cfg: Config, b: Bytes, p: nat, q: Proto)
    requires At(b, p, EncProto(cfg, q))
    ensures var x := PartsOf(cfg, p, q);
      At(b, p, EncSizes(cfg, q)) && At(b, x.n0, Uleb(|q.kgc|)) && At(b, x.n1, Uleb(|q.knum|)) && At(b, x.n2, Uleb(|q.bc|))
      && At(b, x.dbg, EncDebugHead(cfg, q)) && At(b, x.bc, EncBc(WrittenBc(cfg, q), 0)) && At(b, x.uv, q.uv)
      && At(b, x.gs, EncGcs(cfg, q.kgc, 0)) && At(b, x.ns, EncNums(cfg, q.knum, 0)) && At(b, x.block, EncDebug(cfg, q))
      && x.end == p + |EncProto(cfg, q)|
  {
    hide At, Uleb, EncSizes, EncDebugHead, EncBc, WrittenBc, EncGcs, EncNums, EncDebug;
    var x := PartsOf(cfg, p, q);
    var t9 := EncNums(cfg, q.knum, 0) + EncDebug(cfg, q);
    var t8 := EncGcs(cfg, q.kgc, 0) + t9;
    var t7 := q.uv + t8;
    var t6 := EncBc(WrittenBc(cfg, q), 0) + t7;
    var t5 := EncDebugHead(cfg, q) + t6;
    var t4 := Uleb(|q.bc|) + t5;
    var t3 := Uleb(|q.knum|) + t4;
    var t2 := Uleb(|q.kgc|) + t3;
    AtParts(b, p, EncSizes(cfg, q), t2);
    AtParts(b, x.n0, Uleb(|q.kgc|), t3);
    AtParts(b, x.n1, Uleb(|q.knum|), t4);
    AtParts(b, x.n2, Uleb(|q.bc|), t5);
    AtParts(b, x.dbg, EncDebugHead(cfg, q), t6);
    AtParts(b, x.bc, EncBc(WrittenBc(cfg, q), 0), t7);
    AtParts(b, x.uv, q.uv, t8);
    AtParts(b, x.gs, EncGcs(cfg, q.kgc, 0), t9);
    AtParts(b, x.ns, EncNums(cfg, q.knum, 0), EncDebug(cfg, q));
  }

  /** The debug part of the header: size, first line and number of lines. */
  method ReadDebugHead(cfg: Config, b: Bytes, p0: nat, ghost q: Proto) returns (size: nat, first: nat, lines: nat, p: nat)
    requires ValidHere(cfg, q) && At(b, p0, EncDebugHead(cfg, q))
    ensures p == p0 + |EncDebugHead(cfg, q)| && size == (if cfg.strip then 0 else DebugSize(q))
    ensures size > 0 ==> q.debug.Some? && first == q.debug.value.firstline && lines == q.debug.value.numline
  {
    hide Uleb, At, EncProto, ValidGcs, ValidNums;
    size, first, lines, p := 0, 0, 0, p0;
    if !cfg.strip {
      ghost var more := if DebugSize(q) > 0 then Uleb(q.debug.value.firstline) + Uleb(q.debug.value.numline) else [];
      AtParts(b, p, Uleb(DebugSize(q)), more);
      size, p := ReadUleb(b, p, DebugSize(q));
      if size > 0 {
        AtParts(b, p, Uleb(q.debug.value.firstline), Uleb(q.debug.value.numline));
        first, p := ReadUleb(b, p, q.debug.value.firstline);
        lines, p := ReadUleb(b, p, q.debug.value.numline);
      }
    }
  }

  lemma SizesAt(cfg: Config, b: Bytes, p: nat, q: Proto)
    requires At(b, p, EncSizes(cfg, q)) && |q.uv| % 2 == 0 && |q.uv| < 512
    ensures p + 4 <= |b| && |EncSizes(cfg, q)| == 4 && b[p] == KeptFlags(q.flags) && b[p + 1] == q.numparams
    ensures b[p + 2] == q.framesize && b[p + 3] as int * 2 == |q.uv|
  {
    AtByte(b, p, EncSizes(cfg, q), 0);
    AtByte(b, p, EncSizes(cfg, q), 1);
    AtByte(b, p, EncSizes(cfg, q), 2);
    AtByte(b, p, EncSizes(cfg, q), 3);
  }

  /** lj_bcread_proto: the children are taken from the stack. */
  method ReadProto(cfg: Config, b: Bytes, p0: nat, st: seq<Proto>, ghost q: Proto)
    returns (res: Result<(Proto, seq<Proto>), Error>, p: nat)
    requires ConfigOk(cfg) && ValidHere(cfg, q) && At(b, p0, EncProto(cfg, q))
    ensures match LoadGcs(q.kgc, 0, st)
      case None => res == Err(BadDump)
      case Some((gs, st1)) => res == Ok((Loaded(cfg, q, gs), st1)) && p == p0 + |EncProto(cfg, q)|
  {
    hide At, Uleb, EncProto, EncSizes, EncDebugHead, EncBc, WrittenBc, EncGcs, EncNums, ValidGcs, ValidNums, LoadGcs, KeptFlags, ChildrenFlagged;
    ghost var x := PartsOf(cfg, p0, q);
    ProtoParts(cfg, b, p0, q);
    SizesAt(cfg, b, p0, q);
    StrAt(b, x.uv, q.uv);
    StrAt(b, x.block, EncDebug(cfg, q));
    var flags, numparams, framesize, sizeuv := b[p0], b[p0 + 1], b[p0 + 2], b[p0 + 3] as nat * 2;
    p := p0 + 4;
    var sizekgc, sizekn, sizebc, sizedbg, first, lines, bc, gs, ns;
    sizekgc, p := ReadUleb(b, p, |q.kgc|);
    sizekn, p := ReadUleb(b, p, |q.knum|);
    sizebc, p := ReadUleb(b, p, |q.bc|);
    sizedbg, first, lines, p := ReadDebugHead(cfg, b, p, q);
    bc, p := ReadBc(b, p, sizebc, WrittenBc(cfg, q));
    var uv := b[p..p + sizeuv];
    p := p + sizeuv;
    gs, p := ReadGcs(cfg, b, p, sizekgc, st, q.kgc);
    if gs.Err? {
      return Err(gs.error), p;
    }
    ns, p := ReadNums(cfg, b, p, sizekn, q.knum);
    var debug := if sizedbg > 0 then Some(Debug(first, lines, b[p..p + sizedbg])) else None;
    p := p + sizedbg;
    return Ok((Proto(flags, numparams, framesize, uv, bc, gs.value.0, ns, debug, false), gs.value.1)), p;
  }
}
