/** Whole bytecode dumps: a tree of prototypes is written children first, and rebuilt with a
    stack from input that comes in any pieces. */
module BcDump {
  import opened Wrappers
  import opened ByteStrings
  import opened Leb128
  import opened BcFormat
  import opened BcWrite
  import opened BcRead

  // ------------------------------------------------------------------------ the tree

  /** The tree a dump gives back: flags reduced to those kept, loop instructions unpatched, and
      debug information gone if it was stripped. */
  function Normal(cfg: Config, p: Proto): Proto
    decreases p, |p.kgc| + 1
  {
    Loaded(cfg, p, NormalGcs(cfg, p, 0))
  }

  function NormalGcs(cfg: Config, p: Proto, i: nat): seq<Gc>
    decreases p, |p.kgc| - i
  {
    if i >= |p.kgc| then []
    else
      var g := match p.kgc[i]
        case Child(c) => Child(Normal(cfg, c))
        case Tab(t) => Tab(Table(Trimmed(t.arr), Used(t.nodes)))
        case KStr(s) => KStr(s);
      [g] + NormalGcs(cfg, p, i + 1)
  }

  /** What reading a prototype does to the stack. */
  function LoadOne(cfg: Config, q: Proto, st: seq<Proto>): Option<seq<Proto>> {
    match LoadGcs(q.kgc, 0, st)
    case None => None
    case Some((gs, st1)) => Some(st1 + [Loaded(cfg, q, gs)])
  }

  function LoadAll(cfg: Config, ps: seq<Proto>, st: seq<Proto>): Option<seq<Proto>> {
    if ps == [] then Some(st)
    else match LoadAll(cfg, ps[..|ps| - 1], st)
      case None => None
      case Some(st1) => LoadOne(cfg, ps[|ps| - 1], st1)
  }

  lemma {:induction false} LoadConcat(cfg: Config, ps: seq<Proto>, qs: seq<Proto>, st: seq<Proto>)
    ensures LoadAll(cfg, ps + qs, st) == match LoadAll(cfg, ps, st) case None => None case Some(st1) => LoadAll(cfg, qs, st1)
    decreases |qs|
  {
    hide LoadOne;
    if qs == [] {
      assert ps + qs == ps;
    } else {
      assert (ps + qs)[..|ps + qs| - 1] == ps + qs[..|qs| - 1];
      LoadConcat(cfg, ps, qs[..|qs| - 1], st);
    }
  }

  /** The children from constant `i` on, in the order they are read: the last first. */
  function Kids(cfg: Config, p: Proto, i: nat): seq<Proto>
    decreases |p.kgc| - i
  {
    if i >= |p.kgc| then [] else Kids(cfg, p, i + 1) + if p.kgc[i].Child? then [Normal(cfg, p.kgc[i].pt)] else []
  }

  /** The children lie on the stack so that the constants pop them in their own order. */
  lemma {:induction false} KidsPop(cfg: Config, p: Proto, i: nat, st: seq<Proto>)
    ensures LoadGcs(p.kgc, i, st + Kids(cfg, p, i)) == Some((NormalGcs(cfg, p, i), st))
    decreases |p.kgc| - i
  {
    hide Normal, Trimmed, Used;
    var all := st + Kids(cfg, p, i);
    if i >= |p.kgc| {
      assert st + [] == st;
    } else if p.kgc[i].Child? {
      assert all[|all| - 1] == Normal(cfg, p.kgc[i].pt);
      assert all[..|all| - 1] == st + Kids(cfg, p, i + 1);
      KidsPop(cfg, p, i + 1, st);
    } else {
      assert all == st + Kids(cfg, p, i + 1);
      KidsPop(cfg, p, i + 1, st);
    }
  }

  /** Reading the prototypes of a tree in the order they were written leaves exactly one more on
      the stack: the tree. */
  lemma {:induction false} TreeLoads(cfg: Config, p: Proto, st: seq<Proto>)
    ensures LoadAll(cfg, Order(p), st) == Some(st + [Normal(cfg, p)])
    decreases p, |p.kgc| + 1
  {
    KidsLoad(cfg, p, 0, st);
    KidsPop(cfg, p, 0, st);
    assert Order(p)[..|Order(p)| - 1] == OrderFrom(p, 0);
  }

  lemma {:induction false} KidsLoad(cfg: Config, p: Proto, i: nat, st: seq<Proto>)
    ensures LoadAll(cfg, OrderFrom(p, i), st) == Some(st + Kids(cfg, p, i))
    decreases p, |p.kgc| - i
  {
    hide Normal, Order, LoadOne;
    if i >= |p.kgc| {
      assert st + [] == st;
    } else {
      KidsLoad(cfg, p, i + 1, st);
      if p.kgc[i].Child? {
        var st1 := st + Kids(cfg, p, i + 1);
        TreeLoads(cfg, p.kgc[i].pt, st1);
        LoadConcat(cfg, OrderFrom(p, i + 1), Order(p.kgc[i].pt), st);
        assert st1 + [Normal(cfg, p.kgc[i].pt)] == st + Kids(cfg, p, i);
      } else {
        assert OrderFrom(p, i + 1) + [] == OrderFrom(p, i + 1);
        assert Kids(cfg, p, i + 1) + [] == Kids(cfg, p, i + 1);
      }
    }
  }

  /** What is lost of a template table is nothing: it has the same contents. */
  function Contents(nodes: seq<Node>): map<Tv, Tv> {
    if nodes == [] then map[]
    else
      var n := nodes[|nodes| - 1];
      if n.val == Nil then Contents(nodes[..|nodes| - 1]) else Contents(nodes[..|nodes| - 1])[n.key := n.val]
  }

  ghost predicate DistinctKeys(nodes: seq<Node>) {
    forall i, j :: 0 <= i < j < |nodes| && nodes[i].val != Nil && nodes[j].val != Nil ==> nodes[i].key != nodes[j].key
  }

  /** The contents are the used nodes. */
  lemma {:induction false} ContentsAre(nodes: seq<Node>, k: Tv)
    requires DistinctKeys(nodes)
    ensures k in Contents(nodes) <==> exists i :: 0 <= i < |nodes| && nodes[i].val != Nil && nodes[i].key == k
    ensures forall i :: 0 <= i < |nodes| && nodes[i].val != Nil && nodes[i].key == k ==> Contents(nodes)[k] == nodes[i].val
    decreases |nodes|
  {
    if nodes != [] {
      var front, n := nodes[..|nodes| - 1], nodes[|nodes| - 1];
      assert DistinctKeys(front);
      ContentsAre(front, k);
      if n.val != Nil && n.key == k { assert nodes[|nodes| - 1] == n; }
      if k in Contents(front) {
        var i :| 0 <= i < |front| && front[i].val != Nil && front[i].key == k;
        assert nodes[i] == front[i];
      }
    }
  }

  lemma {:induction false} UsedAre(nodes: seq<Node>, n: Node)
    ensures n in Used(nodes) <==> n in nodes && n.val != Nil
    decreases |nodes|
  {
    if nodes != [] {
      UsedAre(nodes[..|nodes| - 1], n);
      assert nodes == nodes[..|nodes| - 1] + [nodes[|nodes| - 1]];
    }
  }

  /** Trimming the array part removes nothing but nils at its end. */
  lemma {:induction false} TrimmedSame(arr: seq<Tv>, i: nat)
    requires i < |arr|
    ensures i < |Trimmed(arr)| ==> Trimmed(arr)[i] == arr[i]
    ensures i >= |Trimmed(arr)| ==> arr[i] == Nil
    decreases |arr|
  {
    if arr[|arr| - 1] == Nil && i < |arr| - 1 { TrimmedSame(arr[..|arr| - 1], i); }
  }

  // ------------------------------------------------------------------------ the input

  /** What the reader function still has to give, until it gives nothing. */
  function Stream(chunks: seq<Bytes>): Bytes {
    if chunks == [] || chunks[0] == [] then [] else chunks[0] + Stream(chunks[1..])
  }

  class Input {
    /** The bytes in the buffer that are not read yet. */
    var avail: Bytes
    /** What the reader function will return. */
    var chunks: seq<Bytes>
    var eof: bool

    constructor (chunks: seq<Bytes>)
      ensures avail == [] && this.chunks == chunks && !eof
    {
      avail, this.chunks, eof := [], chunks, false;
    }

    /** All that is still to be read. */
    function Rest(): Bytes
      reads this
    {
      avail + Stream(chunks)
    }

    /** bcread_fill: get more data until there are `len` bytes. */
    method Fill(len: nat, need: bool) returns (ok: bool)
      requires |avail| < len
      modifies this
      ensures Rest() == old(Rest()) && (eof ==> old(eof) || |Rest()| < len) && (old(eof) ==> eof)
      ensures ok && !eof ==> |avail| >= len
      ensures ok <==> len <= MAX_BUF && !old(eof) && (need ==> |Rest()| >= len)
      ensures ok && eof ==> Stream(chunks) == []
    {
      if len > MAX_BUF || eof {
        return false;
      }
      while true
        invariant Rest() == old(Rest()) && |avail| < len && !eof && !old(eof)
        decreases |chunks|
      {
        if chunks == [] || chunks[0] == [] {
          if need {
            return false;
          }
          eof := true;
          return true;
        }
        assert avail + Stream(chunks) == (avail + chunks[0]) + Stream(chunks[1..]);
        avail := avail + chunks[0];
        chunks := chunks[1..];
        if |avail| >= len {
          return true;
        }
      }
    }

    /** bcread_need */
    method Need(len: nat) returns (ok: bool)
      modifies this
      ensures Rest() == old(Rest()) && (ok ==> |avail| >= len)
      ensures ok <==> |old(avail)| >= len || (len <= MAX_BUF && !old(eof) && |Rest()| >= len)
      ensures ok ==> eof == old(eof)
    {
      ok := true;
      if |avail| < len {
        ok := Fill(len, true);
      }
    }

    /** bcread_want */
    method Want(len: nat) returns (ok: bool)
      modifies this
      ensures Rest() == old(Rest()) && (ok ==> |avail| >= len || avail == Rest())
      ensures ok <==> |old(avail)| >= len || (len <= MAX_BUF && !old(eof))
      ensures |Rest()| >= len ==> eof == old(eof)
    {
      ok := true;
      if |avail| < len {
        ok := Fill(len, false);
        if ok && eof { assert avail + [] == avail; }
      }
    }

    /** Bytes of the buffer have been read. */
    method Advance(n: nat)
      requires n <= |avail|
      modifies this`avail
      ensures avail == old(avail)[n..] && Rest() == old(Rest())[n..]
    {
      assert Rest()[n..] == avail[n..] + Stream(chunks);
      avail := avail[n..];
    }
  }

  /** What is first in the input is first in the buffer, if there is enough of it. */
  lemma FirstAvail(avail: Bytes, more: Bytes, e: Bytes, tail: Bytes)
    requires avail + more == e + tail && (|avail| >= |e| || more == [])
    ensures At(avail, 0, e) && (avail + more)[|e|..] == tail
  {
    assert (avail + more)[..|e|] == (e + tail)[..|e|] == e;
    assert |avail| >= |e|;
    assert avail[0..|e|] == (avail + more)[..|e|];
  }

  // ------------------------------------------------------------------------- the dump

  const F_STRIP := 2
  const F_FFI := 4
  const F_FR2 := 8

  function HeaderFlags(strip: bool, ffi: bool, fr2: bool): nat {
    (if strip then F_STRIP else 0) + (if ffi then F_FFI else 0) + if fr2 then F_FR2 else 0
  }

  const ESC: Byte := 0x1b
  const SIGNATURE: Bytes := [0x4c, 0x4a, 2]

  /** The header behind its first byte. */
  function Header(strip: bool, ffi: bool, fr2: bool, name: Bytes): Bytes {
    SIGNATURE + ([HeaderFlags(strip, ffi, fr2) as Byte] + if strip then [] else Uleb(|name|) + name)
  }

  /** The header: escape, "LJ", version 2, and the flags for stripped dumps, FFI and frames. */
  lemma HeaderLaw(strip: bool, ffi: bool, fr2: bool, name: Bytes)
    ensures var h := [ESC] + Header(strip, ffi, fr2, name);
      && h[..4] == [0x1b, 0x4c, 0x4a, 2] && h[5..] == (if strip then [] else Uleb(|name|) + name)
      && h[4] as int == (if strip then 0x02 else 0) + (if ffi then 0x04 else 0) + (if fr2 then 0x08 else 0)
  {
    hide Uleb, HeaderFlags;
    FlagSum(strip, ffi, fr2);
    FiveBytes(HeaderFlags(strip, ffi, fr2) as Byte, if strip then [] else Uleb(|name|) + name);
  }

  lemma FiveBytes(x: Byte, more: Bytes)
    ensures var h := [ESC] + (SIGNATURE + ([x] + more)); h[..4] == [0x1b, 0x4c, 0x4a, 2] && h[4] == x && h[5..] == more
  {
  }

  lemma FlagSum(strip: bool, ffi: bool, fr2: bool)
    ensures HeaderFlags(strip, ffi, fr2) == (if strip then 0x02 else 0) + (if ffi then 0x04 else 0) + (if fr2 then 0x08 else 0) < 16
  {
  }

  /** A dump behind its first byte. */
  function Dump(cfg: Config, fr2: bool, p: Proto, name: Bytes): Bytes {
    Header(cfg.strip, HasFlag(p.flags, 4), fr2, name) + (FramedAll(cfg, Order(p)) + [0])
  }

  /** lj_bcwrite */
  method WriteDump(cfg: Config, fr2: bool, p: Proto, name: Bytes) returns (e: Bytes)
    requires ConfigOk(cfg) && Valid(cfg, p)
    ensures e == [ESC] + Dump(cfg, fr2, p, name)
  {
    hide Uleb, FramedAll, Order, Valid;
    e := [ESC] + SIGNATURE + [HeaderFlags(cfg.strip, HasFlag(p.flags, 4), fr2) as Byte];
    if !cfg.strip {
      var n := WriteUleb(|name|);
      e := e + (n + name);
    }
    var protos := WriteProto(cfg, p);
    e := e + protos + [0];
    assert e == [ESC] + Dump(cfg, fr2, p, name);
  }

  /** The signature behind the first byte. */
  method ReadSignature(input: Input, ghost tail: Bytes) returns (ok: bool)
    requires |input.avail| >= 3 && input.Rest() == SIGNATURE + tail
    modifies input`avail
    ensures ok && input.avail == old(input.avail)[3..] && input.Rest() == tail
  {
    hide At, Stream;
    FirstAvail(input.avail, Stream(input.chunks), SIGNATURE, tail);
    SignatureAt(input.avail);
    ok := input.avail[0] == 0x4c && input.avail[1] == 0x4a && input.avail[2] == 2;
    input.Advance(3);
  }

  /** bcread_header, behind the first byte: the flags and the name, if the signature is right and
      the runtime is of the same kind. */
  method ReadHeader(input: Input, fr2: bool, ghost strip: bool, ghost ffi: bool, ghost name: Bytes, ghost tail: Bytes)
    returns (res: Result<(bool, Bytes), Error>)
    requires !input.eof && input.Rest() == Header(strip, ffi, fr2, name) + tail && |input.Rest()| >= 13 && |name| <= MAX_BUF
    modifies input
    ensures res == Ok((strip, if strip then [] else name)) && input.Rest() == tail && !input.eof
  {
    hide Uleb, At, Stream, HeaderFlags;
    FlagBits(strip, ffi, fr2);
    ghost var more, rest := HeaderParts(strip, ffi, fr2, name, tail);
    hide Header;
    var ok := input.Want(13);
    if !ok {
      return Err(BadDump);
    }
    ok := ReadSignature(input, rest);
    if !ok {
      return Err(BadFormat);
    }
    ghost var flags0 := HeaderFlags(strip, ffi, fr2);
    FirstAvail(input.avail, Stream(input.chunks), Uleb(flags0), more + tail);
    var flags, n := ReadUleb(input.avail, 0, flags0);
    input.Advance(n);
    if flags / 16 != 0 || (flags / F_FR2 % 2 == 1) != fr2 {
      return Err(BadFormat);
    }
    if flags / F_STRIP % 2 == 1 {
      return Ok((true, []));
    }
    var r := ReadName(input, name, tail);
    match r {
      case Err(e) => return Err(e);
      case Ok(chunkname) => return Ok((false, chunkname));
    }
  }

  /** The header, taken apart: behind the signature `rest`, behind the flags `more`. */
  lemma HeaderParts(strip: bool, ffi: bool, fr2: bool, name: Bytes, tail: Bytes) returns (more: Bytes, rest: Bytes)
    ensures Header(strip, ffi, fr2, name) + tail == SIGNATURE + rest && |rest| == |Header(strip, ffi, fr2, name) + tail| - 3
    ensures rest == Uleb(HeaderFlags(strip, ffi, fr2)) + (more + tail) && |Uleb(HeaderFlags(strip, ffi, fr2))| == 1
    ensures more + tail == if strip then tail else Uleb(|name|) + (name + tail)
  {
    hide Uleb;
    var flags := HeaderFlags(strip, ffi, fr2);
    SmallUleb(flags);
    more := if strip then [] else Uleb(|name|) + name;
    rest := [flags as Byte] + (more + tail);
    assert Header(strip, ffi, fr2, name) + tail == SIGNATURE + rest;
    assert [] + tail == tail;
    assert (Uleb(|name|) + name) + tail == Uleb(|name|) + (name + tail);
  }

  /** The chunk name: its length, then its bytes. */
  method ReadName(input: Input, ghost name: Bytes, ghost tail: Bytes) returns (res: Result<Bytes, Error>)
    requires !input.eof && input.Rest() == Uleb(|name|) + (name + tail) && |name| <= MAX_BUF
    requires |input.avail| >= 5 || Stream(input.chunks) == []
    modifies input
    ensures res == Ok(name) && input.Rest() == tail && !input.eof
  {
    hide Uleb, At, Stream;
    PrefixFits(|name|);
    FirstAvail(input.avail, Stream(input.chunks), Uleb(|name|), name + tail);
    var len, n := ReadUleb(input.avail, 0, |name|);
    input.Advance(n);
    var ok := input.Need(len);
    if !ok {
      return Err(BadDump);
    }
    FirstAvail(input.avail, Stream(input.chunks), name, tail);
    StrAt(input.avail, 0, name);
    var chunkname := input.avail[..len];
    input.Advance(len);
    return Ok(chunkname);
  }

  lemma SignatureAt(b: Bytes)
    requires At(b, 0, SIGNATURE)
    ensures |b| >= 3 && b[0] == 0x4c && b[1] == 0x4a && b[2] == 2
  {
    AtByte(b, 0, SIGNATURE, 0);
    AtByte(b, 0, SIGNATURE, 1);
    AtByte(b, 0, SIGNATURE, 2);
  }

  lemma SmallUleb(v: nat)
    requires v < 128
    ensures Uleb(v) == [v as Byte]
  {
  }

  lemma FlagBits(strip: bool, ffi: bool, fr2: bool)
    ensures var f := HeaderFlags(strip, ffi, fr2);
      f < 16 && f / 16 == 0 && (f / F_FR2 % 2 == 1 <==> fr2) && (f / F_STRIP % 2 == 1 <==> strip)
  {
  }

  lemma PrefixFits(n: nat)
    requires n < WORD
    ensures |Uleb(n)| <= 5
  {
    if n > 0 { PrefixLength(n); }
  }

  // --------------------------------------------------------------------------- loading

  /** The frames from one prototype on. */
  lemma FramesNext(cfg: Config, ps: seq<Proto>, i: nat, tail: Bytes)
    requires i < |ps|
    ensures FramedAll(cfg, ps[i..]) + tail == Framed(cfg, ps[i]) + (FramedAll(cfg, ps[i + 1..]) + tail)
  {
    hide Framed;
    assert ps[i..] == [ps[i]] + ps[i + 1..];
    FramedConcat(cfg, [ps[i]], ps[i + 1..]);
    assert [ps[i]][..0] == [];
    assert FramedAll(cfg, [ps[i]]) == [] + Framed(cfg, ps[i]) == Framed(cfg, ps[i]);
    assert (Framed(cfg, ps[i]) + FramedAll(cfg, ps[i + 1..])) + tail == Framed(cfg, ps[i]) + (FramedAll(cfg, ps[i + 1..]) + tail);
  }

  /** If all prototypes can be read, so can the next. */
  lemma LoadNext(cfg: Config, ps: seq<Proto>, i: nat, st: seq<Proto>)
    requires i < |ps| && LoadAll(cfg, ps, []).Some? && LoadAll(cfg, ps[..i], []) == Some(st)
    ensures LoadGcs(ps[i].kgc, 0, st).Some? && LoadOne(cfg, ps[i], st).Some?
    ensures LoadAll(cfg, ps[..i + 1], []) == LoadOne(cfg, ps[i], st)
  {
    hide LoadGcs;
    assert ps == ps[..i + 1] + ps[i + 1..];
    LoadConcat(cfg, ps[..i + 1], ps[i + 1..], []);
    assert ps[..i + 1][..i] == ps[..i];
  }

  /** All prototypes of a valid tree are valid. */
  lemma {:induction false} OrderValid(cfg: Config, p: Proto, i: nat)
    requires Valid(cfg, p)
    ensures forall k :: 0 <= k < |OrderFrom(p, i)| ==> ValidHere(cfg, OrderFrom(p, i)[k])
    ensures forall k :: 0 <= k < |Order(p)| && i == 0 ==> ValidHere(cfg, Order(p)[k])
    decreases p, |p.kgc| - i
  {
    hide ValidHere;
    if i < |p.kgc| {
      OrderValid(cfg, p, i + 1);
      if p.kgc[i].Child? { OrderValid(cfg, p.kgc[i].pt, 0); }
    }
  }

  /** A frame holds at least seven bytes besides its length. */
  lemma ProtoLong(cfg: Config, p: Proto)
    ensures |EncProto(cfg, p)| >= 7
  {
    hide Uleb, EncGcs, EncNums, EncBc, WrittenBc, EncDebug, EncDebugHead;
    UlebSome(|p.kgc|);
    UlebSome(|p.knum|);
    UlebSome(|p.bc|);
    assert |EncSizes(cfg, p)| == 4;
  }

  lemma UlebSome(v: nat)
    ensures |Uleb(v)| > 0
  {
  }

  /** No dump is shorter than what the reader wants first. */
  lemma DumpLong(cfg: Config, fr2: bool, p: Proto, name: Bytes)
    ensures |Dump(cfg, fr2, p, name)| >= 13
  {
    hide Uleb, EncProto;
    var order := Order(p);
    ProtoLong(cfg, p);
    UlebSome(|EncProto(cfg, p)|);
    assert order[|order| - 1] == p;
    assert |FramedAll(cfg, order)| >= |Framed(cfg, p)|;
  }

  lemma UlebFirst(v: nat)
    requires v > 0
    ensures Uleb(v)[0] != 0
  {
  }

  /** The length of the next frame, or 0 for the end of the dump. */
  method ReadLength(input: Input, ghost cfg: Config, ghost ps: seq<Proto>, ghost i: nat) returns (res: Result<nat, Error>)
    requires i <= |ps| && !input.eof && input.Rest() == FramedAll(cfg, ps[i..]) + [0]
    requires forall k :: 0 <= k < |ps| ==> ValidHere(cfg, ps[k])
    modifies input
    ensures i == |ps| ==> res == Ok(0) && input.Rest() == []
    ensures i < |ps| ==> res == Ok(|EncProto(cfg, ps[i])|) && |EncProto(cfg, ps[i])| > 0 && !input.eof
    ensures i < |ps| ==> input.Rest() == EncProto(cfg, ps[i]) + (FramedAll(cfg, ps[i + 1..]) + [0])
  {
    hide Uleb, At, Stream, FramedAll, EncProto, ValidHere, Framed;
    ghost var n := if i < |ps| then |EncProto(cfg, ps[i])| else 0;
    ghost var tail := if i < |ps| then EncProto(cfg, ps[i]) + (FramedAll(cfg, ps[i + 1..]) + [0]) else [];
    LengthFirst(cfg, ps, i);
    if input.avail != [] && input.avail[0] == 0 {
      ShortcutEnd(input.avail, Stream(input.chunks), n, tail);
      input.Advance(1);
      return Ok(0);
    }
    var ok := input.Want(5);
    if !ok {
      return Err(BadDump);
    }
    FirstAvail(input.avail, Stream(input.chunks), Uleb(n), tail);
    var len, k := ReadUleb(input.avail, 0, n);
    input.Advance(k);
    return Ok(len);
  }

  /** What is to come starts with a length, the last of which is 0. */
  lemma LengthFirst(cfg: Config, ps: seq<Proto>, i: nat)
    requires i <= |ps| && forall k :: 0 <= k < |ps| ==> ValidHere(cfg, ps[k])
    ensures var n := if i < |ps| then |EncProto(cfg, ps[i])| else 0;
      var tail := if i < |ps| then EncProto(cfg, ps[i]) + (FramedAll(cfg, ps[i + 1..]) + [0]) else [];
      FramedAll(cfg, ps[i..]) + [0] == Uleb(n) + tail && n < WORD && |Uleb(n)| <= 5 && (i < |ps| ==> n > 0 && |tail| >= 5)
  {
    hide FramedAll, EncProto, Uleb;
    if i < |ps| {
      var e := EncProto(cfg, ps[i]);
      FramesNext(cfg, ps, i, [0]);
      ProtoLong(cfg, ps[i]);
      PrefixFits(|e|);
      var more := FramedAll(cfg, ps[i + 1..]) + [0];
      assert (Uleb(|e|) + e) + more == Uleb(|e|) + (e + more);
    } else {
      assert ps[i..] == [];
      NoFrames(cfg);
      SmallUleb(0);
      var none: Bytes := [];
      assert none + [0] == Uleb(0) + none;
    }
  }

  lemma NoFrames(cfg: Config)
    ensures FramedAll(cfg, []) == []
  {
  }

  /** A first byte 0 is the end. */
  lemma ShortcutEnd(avail: Bytes, more: Bytes, n: nat, tail: Bytes)
    requires avail != [] && avail[0] == 0 && avail + more == Uleb(n) + tail
    ensures n == 0 && (avail + more)[1..] == tail
  {
    hide Uleb;
    UlebSome(n);
    assert (avail + more)[0] == Uleb(n)[0];
    if n > 0 { UlebFirst(n); }
    SmallUleb(0);
    assert (Uleb(0) + tail)[1..] == tail;
  }

  /** A prototype of the given length is read and put on the stack. */
  method ReadFrame(input: Input, cfg: Config, len: nat, st: seq<Proto>, ghost q: Proto, ghost tail: Bytes)
    returns (res: Result<seq<Proto>, Error>)
    requires ConfigOk(cfg) && ValidHere(cfg, q)
    requires !input.eof && len == |EncProto(cfg, q)| && input.Rest() == EncProto(cfg, q) + tail
    modifies input
    ensures res == match LoadOne(cfg, q, st) case None => Err(BadDump) case Some(st1) => Ok(st1)
    ensures res.Ok? ==> !input.eof && input.Rest() == tail
  {
    hide EncProto, Stream, At, LoadGcs;
    EncFits(cfg, q);
    hide ValidHere;
    var ok := input.Need(len);
    if !ok {
      return Err(BadDump);
    }
    FirstAvail(input.avail, Stream(input.chunks), EncProto(cfg, q), tail);
    var pt, p := ReadProto(cfg, input.avail, 0, st, q);
    match pt {
      case Err(e) => return Err(e);
      case Ok(x) =>
        if p != len {
          return Err(BadDump);
        }
        input.Advance(p);
        return Ok(x.1 + [x.0]);
    }
  }

  lemma EncFits(cfg: Config, q: Proto)
    requires ValidHere(cfg, q)
    ensures |EncProto(cfg, q)| <= MAX_BUF
  {
  }

  /** lj_bcread behind the first byte: a dump gives back its tree, into whatever pieces the
      reader function cuts it. */
  method Load(input: Input, fr2: bool, runtime: Config, ghost strip: bool, ghost p: Proto, ghost name: Bytes)
    returns (res: Result<Proto, Error>)
    requires ConfigOk(runtime) && Valid(runtime.(strip := strip), p) && |name| <= MAX_BUF
    requires !input.eof && input.Rest() == Dump(runtime.(strip := strip), fr2, p, name)
    modifies input
    ensures res == Ok(Normal(runtime.(strip := strip), p))
  {
    hide Uleb, FramedAll, Order, Valid, ValidHere, Normal, LoadAll, LoadOne, Stream, Header;
    ghost var ps := Order(p);
    ghost var cfg0 := runtime.(strip := strip);
    DumpLong(cfg0, fr2, p, name);
    OrderValid(cfg0, p, 0);
    TreeLoads(cfg0, p, []);
    var cfg := runtime;
    var header := ReadHeader(input, fr2, strip, HasFlag(p.flags, 4), name, FramedAll(cfg0, ps) + [0]);
    match header {
      case Err(e) => return Err(e);
      case Ok(h) => cfg := runtime.(strip := h.0);
    }
    var st: seq<Proto> := [];
    ghost var i := 0;
    assert ps[0..] == ps;
    LoadNone(cfg, ps);
    while true
      invariant 0 <= i <= |ps| && !input.eof
      invariant input.Rest() == FramedAll(cfg, ps[i..]) + [0]
      invariant LoadAll(cfg, ps[..i], []) == Some(st)
      decreases |ps| - i
    {
      var len := ReadLength(input, cfg, ps, i);
      match len {
        case Err(e) => return Err(e);
        case Ok(n) =>
          if n == 0 {
            break;
          }
          LoadNext(cfg, ps, i, st);
          var more := ReadFrame(input, cfg, n, st, ps[i], FramedAll(cfg, ps[i + 1..]) + [0]);
          match more {
            case Err(e) => return Err(e);
            case Ok(st1) => st := st1;
          }
          i := i + 1;
      }
    }
    assert ps[..|ps|] == ps;
    assert [] + [Normal(cfg, p)] == [Normal(cfg, p)];
    if input.avail != [] || |st| != 1 {
      return Err(BadDump);
    }
    return Ok(st[0]);
  }

  lemma LoadNone(cfg: Config, ps: seq<Proto>)
    ensures LoadAll(cfg, ps[..0], []) == Some([])
  {
  }
}
