/** The unpacker (mprbuf_* in lua_msgpack.new.c), on any input. */
module MsgReader {
  import opened Wrappers
  import opened ByteStrings
  import opened MsgFormat
  import opened MsgPacker
  import opened MsgRoundTrip

  /** mp_rcopy: the bytes of a double, the other way round. */
  method Rcopy(from: Bytes) returns (dest: Bytes)
    ensures dest == Reversed(from)
  {
    dest := [];
    var i := 0;
    while i < |from|
      invariant i <= |from| && dest == Reversed(from[..i])
    {
      assert from[..i + 1] == from[..i] + [from[i]];
      ReversedConcat(from[..i], [from[i]]);
      assert [from[i]][1..] == [];
      dest := [from[i]] + dest;
      i := i + 1;
    }
    assert from[..i] == from;
  }

  class ReadBuf {
    const data: Bytes
    var ofs: nat
    var err: bool

    /** mprbuf_init */
    constructor (data: Bytes)
      ensures this.data == data && ofs == 0 && !err
    {
      this.data, ofs, err := data, 0, false;
    }

    /** `v` is what there is at `ofs`, or there is an error. */
    ghost predicate Unpacked(v: Option<Value>, d: Decoded)
      reads this
    {
      ofs <= |data| && match d
        case None => err && v == None
        case Some((w, q)) => !err && v == Some(w) && ofs == q
    }

    /** The next bytes. */
    method Get(n: nat) returns (e: Option<Bytes>)
      requires ofs <= |data|
      modifies this
      ensures e == Take(data, old(ofs), n) && ofs <= |data| && err == (old(err) || e == None)
      ensures e.Some? ==> ofs == old(ofs) + n
    {
      if |data| - ofs < n {
        err := true;
        return None;
      }
      ofs := ofs + n;
      return Some(data[ofs - n..ofs]);
    }

    method Number(n: nat, half: nat) returns (v: Option<Value>)
      requires ofs <= |data| && !err
      modifies this
      ensures Unpacked(v, DecNum(data, old(ofs), n, half))
    {
      hide FromBe;
      var e := Get(n);
      if e.Some? {
        var m := FromBe(e.value);
        return Some(Int(if half == 0 then m else Signed(m, half)));
      }
      return None;
    }

    method Double(n: nat) returns (v: Option<Value>)
      requires ofs <= |data| && !err
      modifies this
      ensures Unpacked(v, DecFloat(data, old(ofs), n))
    {
      var e := Get(n);
      if e.Some? {
        var bits := Rcopy(e.value);
        return Some(Float(bits));
      }
      return None;
    }

    method String(n: nat) returns (v: Option<Value>)
      requires ofs <= |data| && !err
      modifies this
      ensures Unpacked(v, DecStr(data, old(ofs), n))
    {
      var s := Get(n);
      if s.Some? {
        return Some(Str(s.value));
      }
      return None;
    }

    method LongString(n: nat) returns (v: Option<Value>)
      requires ofs <= |data| && !err
      modifies this
      ensures Unpacked(v, DecLongStr(data, old(ofs), n))
    {
      hide FromBe;
      var e := Get(n);
      if e.Some? {
        v := String(FromBe(e.value));
      } else {
        v := None;
      }
    }

    /** A value without values inside. */
    method Leaf(t: Byte) returns (v: Option<Value>)
      requires ofs <= |data| && !err
      modifies this
      ensures Unpacked(v, DecLeaf(data, old(ofs), t))
    {
      hide DecNum, DecStr, DecFloat, DecLongStr, DecLeaf;
      LeafCases(data, ofs, t);
      var u := t as int;
      if u < 0x80 {
        return Some(Int(u));
      }
      if 0xa0 <= u <= 0xbf {
        v := String(u - 0xa0);
        return;
      }
      if u > 0xdf {
        return Some(Int(u - 256));
      }
      match u {
        case 0xc0 => v := Some(Nil);
        case 0xc2 => v := Some(Bool(false));
        case 0xc3 => v := Some(Bool(true));
        case 0xca => v := Double(4);
        case 0xcb => v := Double(8);
        case 0xcc => v := Number(1, 0);
        case 0xcd => v := Number(2, 0);
        case 0xce => v := Number(4, 0);
        case 0xcf => v := Number(8, 0);
        case 0xd0 => v := Number(1, 128);
        case 0xd1 => v := Number(2, 32768);
        case 0xd2 => v := Number(4, TWO31);
        case 0xd3 => v := Number(8, TWO63);
        case 0xda => v := LongString(2);
        case 0xdb => v := LongString(4);
        case _ =>
          err := true;
          v := None;
      }
    }

    /** mprbuf_unpack_array */
    method Array(n: nat) returns (vs: Option<seq<Value>>)
      requires ofs <= |data| && !err
      modifies this
      ensures ofs <= |data| && err == DecArray(data, old(ofs), n).None? == vs.None?
      ensures !err ==> DecArray(data, old(ofs), n) == Some((vs.value, ofs))
      decreases |data| - ofs, 1, n
    {
      hide Dec;
      var i := 0;
      var r: seq<Value> := [];
      ghost var whole := DecArray(data, ofs, n);
      BehindNone(whole);
      while i < n
        invariant 0 <= i <= n && old(ofs) <= ofs <= |data| && !err
        invariant whole == Behind(r, DecArray(data, ofs, n - i))
      {
        ghost var p := ofs;
        var v := Any();
        if err {
          return None;
        }
        match v {
          case Some(x) =>
            ArrayStep(r, x, DecArray(data, ofs, n - i - 1));
            r := r + [x];
          case None =>
        }
        i := i + 1;
      }
      assert r + [] == r;
      return Some(r);
    }

    /** mprbuf_unpack_map; a nil key is an error of the runtime. */
    method Map(n: nat) returns (ps: Option<seq<Pair>>)
      requires ofs <= |data| && !err
      modifies this
      ensures ofs <= |data| && err == DecMap(data, old(ofs), n, []).None? == ps.None?
      ensures !err ==> DecMap(data, old(ofs), n, []) == Some((ps.value, ofs))
      decreases |data| - ofs, 1, n
    {
      hide Dec, Without;
      var i := 0;
      var r: seq<Pair> := [];
      ghost var whole := DecMap(data, ofs, n, []);
      while i < n
        invariant 0 <= i <= n && old(ofs) <= ofs <= |data| && !err && whole == DecMap(data, ofs, n - i, r)
      {
        var k := Any();
        if err {
          return None;
        }
        var v := Any();
        if err {
          return None;
        }
        if k == Some(Nil) {
          err := true;
          return None;
        }
        r := if v == Some(Nil) then Without(r, k.value) else Without(r, k.value) + [Pair(k.value, v.value)];
        i := i + 1;
      }
      return Some(r);
    }

    method TableOf(n: nat, isMap: bool) returns (v: Option<Value>)
      requires ofs <= |data| && !err
      modifies this
      ensures Unpacked(v, DecTable(data, old(ofs), n, isMap))
      decreases |data| - ofs, 2, n
    {
      hide DecArray, DecMap;
      v := None;
      if isMap {
        var ps := Map(n);
        if !err { v := Some(Table([], ps.value)); }
      } else {
        var vs := Array(n);
        if !err { v := Some(Table(vs.value, [])); }
      }
    }

    /** mprbuf_unpack_anytype */
    method Any() returns (v: Option<Value>)
      requires ofs <= |data| && !err
      modifies this
      ensures Unpacked(v, Dec(data, old(ofs)))
      decreases |data| - ofs, 0, 0
    {
      hide DecLeaf, DecTable, FromBe;
      if |data| - ofs < 1 {
        err := true;
        return None;
      }
      var t := data[ofs];
      ofs := ofs + 1;
      if 0x80 <= t as nat <= 0x8f {
        v := TableOf(t as nat - 0x80, true);
      } else if 0x90 <= t as nat <= 0x9f {
        v := TableOf(t as nat - 0x90, false);
      } else {
        match LongTable(t) {
          case None =>
            v := Leaf(t);
          case Some(s) =>
            var e := Get(s.n);
            if e.Some? {
              v := TableOf(AsInt(FromBe(e.value)), s.isMap);
            } else {
              v := None;
            }
        }
      }
    }
  }

  /** The decoder, by type byte. */
  lemma LeafCases(b: Bytes, p: nat, t: Byte)
    ensures var u, d := t as nat, DecLeaf(b, p, t);
      && (u < 0x80 ==> d == Some((Int(u), p)))
      && (0xa0 <= u <= 0xbf ==> d == DecStr(b, p, u - 0xa0))
      && (u > 0xdf ==> d == Some((Int(u - 256), p)))
      && (u == 0xc0 ==> d == Some((Nil, p)))
      && (u == 0xc2 ==> d == Some((Bool(false), p)))
      && (u == 0xc3 ==> d == Some((Bool(true), p)))
      && (u == 0xca ==> d == DecFloat(b, p, 4))
      && (u == 0xcb ==> d == DecFloat(b, p, 8))
      && (u == 0xcc ==> d == DecNum(b, p, 1, 0))
      && (u == 0xcd ==> d == DecNum(b, p, 2, 0))
      && (u == 0xce ==> d == DecNum(b, p, 4, 0))
      && (u == 0xcf ==> d == DecNum(b, p, 8, 0))
      && (u == 0xd0 ==> d == DecNum(b, p, 1, 128))
      && (u == 0xd1 ==> d == DecNum(b, p, 2, 32768))
      && (u == 0xd2 ==> d == DecNum(b, p, 4, TWO31))
      && (u == 0xd3 ==> d == DecNum(b, p, 8, TWO63))
      && (u == 0xda ==> d == DecLongStr(b, p, 2))
      && (u == 0xdb ==> d == DecLongStr(b, p, 4))
      && (0x80 <= u < 0xe0 && u !in {0xc0, 0xc2, 0xc3} && !(0xa0 <= u <= 0xbf) && !(0xca <= u <= 0xd3) && !(0xda <= u <= 0xdb) ==> d == None)
  {
    hide DecNum, DecStr, DecFloat, DecLongStr;
  }

  /** Elements behind those that are read. */
  ghost function Behind(r: seq<Value>, d: Option<(seq<Value>, nat)>): Option<(seq<Value>, nat)> {
    match d
    case None => None
    case Some((vs, q)) => Some((r + vs, q))
  }

  lemma BehindNone(d: Option<(seq<Value>, nat)>)
    ensures Behind([], d) == d
  {
    if d.Some? { assert [] + d.value.0 == d.value.0; }
  }

  lemma ArrayStep(r: seq<Value>, x: Value, d: Option<(seq<Value>, nat)>)
    ensures Behind(r + [x], d) == Behind(r, Behind([x], d))
  {
    if d.Some? { assert (r + [x]) + d.value.0 == r + ([x] + d.value.0); }
  }

  /** msgpack.unpack: the value and the length of its encoding; nil without a length for the
      empty string and for an error. */
  method Unpack(s: Bytes) returns (v: Value, len: Option<nat>)
    ensures match Dec(s, 0)
      case None => v == Nil && len == None
      case Some((w, q)) => v == w && len == Some(q)
  {
    hide DecLeaf, DecTable;
    if |s| == 0 {
      return Nil, None;
    }
    var rb := new ReadBuf(s);
    var r := rb.Any();
    if rb.ofs > 0 && !rb.err {
      return r.value, Some(rb.ofs);
    }
    return Nil, None;
  }

  /** Packing and unpacking, whatever follows the packed bytes. */
  method PackUnpack(v: Value, suffix: Bytes) returns (w: Value, len: Option<nat>)
    requires Valid(v) && Packable(v) && |Enc(v)| <= CAPACITY
    ensures w == Normal(v) && len == Some(|Enc(v)|)
  {
    hide Valid, Packable, Enc, Dec, Normal;
    var e := Pack(v);
    var s := e.value + suffix;
    assert s[0..0 + |Enc(v)|] == Enc(v);
    RoundTrip(s, 0, v);
    w, len := Unpack(s);
  }
}
