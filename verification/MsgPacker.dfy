/** The packer (mpwbuf_* in lua_msgpack.new.c): a fixed buffer that remembers its first errors. */
module MsgPacker {
  import opened Wrappers
  import opened ByteStrings
  import opened MsgFormat

  const CAPACITY: nat := 1024 * 1024

  datatype ErrBit = BufNoLeft | StringLen | Type(t: OtherType)

  /** What was packed so far, and what went wrong. */
  datatype Packed = Packed(out: Bytes, err: set<ErrBit>)

  /** What is wrong with the value itself, and with all that is in it. */
  function Fault(v: Value): set<ErrBit> {
    match v
    case Str(s) => if |s| < MAX_STR then {} else {StringLen}
    case Other(t) => {Type(t)}
    case _ => {}
  }

  function Faults(v: Value): set<ErrBit>
    decreases v, NumKids(v) + 1
  {
    Fault(v) + FaultsKids(v, 0)
  }

  function FaultsKids(v: Value, i: nat): set<ErrBit>
    decreases v, NumKids(v) - i
  {
    if i >= NumKids(v) then {} else Faults(Kid(v, i)) + FaultsKids(v, i + 1)
  }

  /** How many bytes there are before the first fault. */
  function Before(v: Value): nat
    requires Valid(v)
    decreases v, NumKids(v) + 1
  {
    if Fault(v) != {} then 0 else |Head(v)| + BeforeKids(v, 0)
  }

  function BeforeKids(v: Value, i: nat): nat
    requires ValidKids(v, i)
    decreases v, NumKids(v) - i
  {
    if i >= NumKids(v) then 0 else if Faults(Kid(v, i)) == {} then |Enc(Kid(v, i))| + BeforeKids(v, i + 1) else Before(Kid(v, i))
  }

  lemma {:induction false} NoFaults(v: Value)
    ensures Faults(v) == {} <==> Packable(v)
    decreases v, NumKids(v) + 1
  {
    NoFaultsKids(v, 0);
  }

  lemma {:induction false} NoFaultsKids(v: Value, i: nat)
    ensures FaultsKids(v, i) == {} <==> PackableKids(v, i)
    decreases v, NumKids(v) - i
  {
    if i < NumKids(v) {
      NoFaults(Kid(v, i));
      NoFaultsKids(v, i + 1);
    }
  }

  /** `s1` is `s` after packing something whose encoding is `e`, with `faults` in it and `pre` bytes
      before the first: all of it is there, or the errors are its faults, and that there was no
      room if the bytes before did not fit. After an error only faults are noted. */
  ghost predicate Puts(s: Packed, s1: Packed, e: Bytes, faults: set<ErrBit>, pre: nat) {
    && s.out <= s1.out && (faults == {} ==> pre == |e|)
    && (s.err != {} ==> s1 == Packed(s.out, s.err + faults))
    && (s.err == {} && |s.out| + pre <= CAPACITY ==> s1.err == faults && (faults == {} ==> s1.out == s.out + e) && |s1.out| == |s.out| + pre)
    && (s.err == {} && |s.out| + pre > CAPACITY ==> s1.err == {BufNoLeft} + faults)
  }

  /** One after the other. */
  lemma PutsBoth(s: Packed, s1: Packed, s2: Packed, e: Bytes, f: Bytes, faults: set<ErrBit>, more: set<ErrBit>, pre: nat, pre1: nat)
    requires Puts(s, s1, e, faults, pre) && Puts(s1, s2, f, more, pre1)
    ensures Puts(s, s2, e + f, faults + more, if faults == {} then pre + pre1 else pre)
  {
    assert (s.out + e) + f == s.out + (e + f);
    assert {BufNoLeft} + faults + more == {BufNoLeft} + (faults + more);
    assert s.err + faults + more == s.err + (faults + more);
    if faults == {} { assert faults + more == more && {} + more == more; }
  }

  lemma PutsNothing(s: Packed)
    requires |s.out| <= CAPACITY
    ensures Puts(s, s, [], {}, 0)
  {
    assert s.out + [] == s.out && s.err + {} == s.err;
  }

  class WriteBuf {
    const data: array<Byte>
    var used: nat
    var err: set<ErrBit>

    /** mpwbuf_init */
    constructor ()
      ensures Valid() && fresh(data) && View() == Packed([], {})
    {
      data := new Byte[CAPACITY];
      used, err := 0, {};
    }

    predicate Valid()
      reads this
    {
      data.Length == CAPACITY && used <= CAPACITY
    }

    ghost function View(): Packed
      requires Valid()
      reads this, data
    {
      Packed(data[..used], err)
    }

    /** mpwbuf_append */
    method Append(toadd: Bytes) returns (n: nat)
      requires Valid()
      modifies this, data
      ensures Valid() && Puts(old(View()), View(), toadd, {}, |toadd|) && n == |View().out| - |old(View()).out|
    {
      if err != {} {
        return 0;
      }
      if CAPACITY - used < |toadd| {
        err := {BufNoLeft};
        return 0;
      }
      forall i | 0 <= i < |toadd| {
        data[used + i] := toadd[i];
      }
      assert data[..used + |toadd|] == old(data[..used]) + toadd;
      used := used + |toadd|;
      return |toadd|;
    }

    /** A type byte and a length behind it, in two parts. */
    method AppendSized(t: Byte, len: nat, width: nat) returns (n: nat)
      requires Valid()
      modifies this, data
      ensures Valid() && Puts(old(View()), View(), [t] + Be(len, width), {}, 1 + width) && n == |View().out| - |old(View()).out|
    {
      hide Puts;
      n := Append([t]);
      label Mid:
      var m := Append(Be(len, width));
      PutsBoth(old(View()), old@Mid(View()), View(), [t], Be(len, width), {}, {}, 1, width);
      n := n + m;
    }

    /** mpwbuf_pack_number, integral numbers */
    method PackInt(i: int) returns (n: nat)
      requires Valid() && -TWO63 <= i < TWO63
      modifies this, data
      ensures Valid() && Puts(old(View()), View(), IntHead(i), {}, |IntHead(i)|) && n == |View().out| - |old(View()).out|
    {
      hide Puts, Be;
      var buf: Bytes;
      if i >= 0 {
        if i < 128 {
          buf := [i as Byte];
        } else if i < 256 {
          buf := [0xcc] + Be(i, 1);
        } else if i < 65536 {
          buf := [0xcd] + Be(i, 2);
        } else if i < TWO32 {
          buf := [0xce] + Be(i, 4);
        } else {
          buf := [0xcf] + Be(i, 8);
        }
      } else if i >= -32 {
        buf := [(256 + i) as Byte];
      } else if i >= -128 {
        buf := [0xd0] + Be(256 + i, 1);
      } else if i >= -32768 {
        buf := [0xd1] + Be(65536 + i, 2);
      } else if i >= -TWO31 {
        buf := [0xd2] + Be(TWO32 + i, 4);
      } else {
        buf := [0xd3] + Be(TWO64 + i, 8);
      }
      n := Append(buf);
    }

    /** mpwbuf_pack_string */
    method PackString(s: Bytes) returns (n: nat)
      requires Valid()
      modifies this, data
      ensures Valid() && Puts(old(View()), View(), StrHead(|s|) + s, Fault(Str(s)), if |s| < MAX_STR then |StrHead(|s|)| + |s| else 0) && n == |View().out| - |old(View()).out|
    {
      if |s| < 32 {
        n := Append([(0xa0 + |s|) as Byte]);
      } else if |s| < 65536 {
        n := AppendSized(0xda, |s|, 2);
      } else if |s| < MAX_STR {
        n := AppendSized(0xdb, |s|, 4);
      } else {
        err := err + {StringLen};
        return 0;
      }
      hide Puts, Be;
      label Mid:
      var m := Append(s);
      PutsBoth(old(View()), old@Mid(View()), View(), StrHead(|s|), s, {}, {}, |StrHead(|s|)|, |s|);
      n := n + m;
    }

    /** The head of an array or a map. */
    method PackHead(len: nat, isMap: bool) returns (n: nat)
      requires Valid() && len < TWO31
      modifies this, data
      ensures Valid() && var head := if isMap then MapHead(len) else ArrayHead(len); Puts(old(View()), View(), head, {}, |head|)
      ensures n == |View().out| - |old(View()).out|
    {
      hide Puts, Be;
      if len < 16 {
        n := Append([((if isMap then 0x80 else 0x90) + len) as Byte]);
      } else if len < 65536 {
        n := AppendSized(if isMap then 0xde else 0xdc, len, 2);
      } else {
        n := AppendSized(if isMap then 0xdf else 0xdd, len, 4);
      }
    }

    /** mpwbuf_pack_table: an array if there is an array part, otherwise a map. */
    method PackTable(v: Value) returns (n: nat)
      requires Valid() && v.Table? && MsgFormat.Valid(v)
      modifies this, data
      ensures Valid() && Puts(old(View()), View(), Enc(v), Faults(v), Before(v)) && n == |View().out| - |old(View()).out|
      decreases v, 0
    {
      hide Puts, ArrayHead, MapHead, EncKids, FaultsKids, BeforeKids, ValidKids;
      if |v.arr| > 0 {
        n := PackHead(|v.arr|, false);
      } else {
        n := PackHead(|v.hash|, true);
      }
      label Headed:
      ghost var s0 := View();
      var m := PackKids(v);
      n := n + m;
      PutsBoth(old(View()), s0, View(), Head(v), EncKids(v, 0), {}, FaultsKids(v, 0), |Head(v)|, BeforeKids(v, 0));
    }

    /** The elements of an array, or key and value of every pair. */
    method PackKids(v: Value) returns (n: nat)
      requires Valid() && v.Table? && ValidKids(v, 0)
      modifies this, data
      ensures Valid() && Puts(old(View()), View(), EncKids(v, 0), FaultsKids(v, 0), BeforeKids(v, 0)) && n == |View().out| - |old(View()).out|
      decreases v, -1
    {
      hide Puts, EncKids, FaultsKids, BeforeKids, ValidKids, Enc, Faults, Before, MsgFormat.Valid, Kid;
      n := 0;
      var i := 0;
      ghost var e: Bytes, faults: set<ErrBit>, pre: nat := [], {}, 0;
      PutsNothing(View());
      assert [] + EncKids(v, 0) == EncKids(v, 0);
      while i < NumKids(v)
        invariant i <= NumKids(v) && Valid() && ValidKids(v, i)
        invariant Puts(old(View()), View(), e, faults, pre) && n == |View().out| - |old(View()).out|
        invariant e + EncKids(v, i) == EncKids(v, 0) && faults + FaultsKids(v, i) == FaultsKids(v, 0)
        invariant (if faults == {} then pre + BeforeKids(v, i) else pre) == BeforeKids(v, 0)
      {
        KidsNext(v, i);
        ghost var s := View();
        var m := PackAny(Kid(v, i));
        PutsBoth(old(View()), s, View(), e, Enc(Kid(v, i)), faults, Faults(Kid(v, i)), pre, Before(Kid(v, i)));
        assert (e + Enc(Kid(v, i))) + EncKids(v, i + 1) == e + (Enc(Kid(v, i)) + EncKids(v, i + 1));
        assert (faults + Faults(Kid(v, i))) + FaultsKids(v, i + 1) == faults + (Faults(Kid(v, i)) + FaultsKids(v, i + 1));
        pre := if faults == {} then pre + Before(Kid(v, i)) else pre;
        e, faults := e + Enc(Kid(v, i)), faults + Faults(Kid(v, i));
        n, i := n + m, i + 1;
      }
      KidsEnd(v);
      assert e + [] == e && faults + {} == faults;
    }

    /** mpwbuf_pack_anytype */
    method PackAny(v: Value) returns (n: nat)
      requires Valid() && MsgFormat.Valid(v)
      modifies this, data
      ensures Valid() && Puts(old(View()), View(), Enc(v), Faults(v), Before(v)) && n == |View().out| - |old(View()).out|
      decreases v, 1
    {
      LeafIs(v);
      hide MsgFormat.Valid, IntHead, StrHead, Faults, Before, Enc, Reversed;
      match v {
        case Nil =>
          n := Append([0xc0]);
        case Bool(b) =>
          n := Append([if b then 0xc3 else 0xc2]);
        case Int(i) =>
          n := PackInt(i);
        case Float(bits) =>
          n := Append([0xcb] + Reversed(bits));
        case Str(s) =>
          n := PackString(s);
        case Table(_, _) =>
          n := PackTable(v);
        case Other(t) =>
          err := err + {Type(t)};
          n := 0;
      }
    }
  }

  lemma KidsNext(v: Value, i: nat)
    requires i < NumKids(v) && ValidKids(v, i)
    ensures Valid(Kid(v, i)) && ValidKids(v, i + 1) && EncKids(v, i) == Enc(Kid(v, i)) + EncKids(v, i + 1)
    ensures FaultsKids(v, i) == Faults(Kid(v, i)) + FaultsKids(v, i + 1)
    ensures BeforeKids(v, i) == if Faults(Kid(v, i)) == {} then Before(Kid(v, i)) + BeforeKids(v, i + 1) else Before(Kid(v, i))
  {
    if Faults(Kid(v, i)) == {} { BeforeAll(Kid(v, i)); }
    hide Enc, Valid, Faults, Before;
  }

  lemma {:induction false} BeforeAll(v: Value)
    requires Valid(v) && Faults(v) == {}
    ensures Before(v) == |Enc(v)|
    decreases v, NumKids(v) + 1
  {
    BeforeAllKids(v, 0);
  }

  lemma {:induction false} BeforeAllKids(v: Value, i: nat)
    requires ValidKids(v, i) && FaultsKids(v, i) == {}
    ensures BeforeKids(v, i) == |EncKids(v, i)|
    decreases v, NumKids(v) - i
  {
    hide Enc, Valid;
    if i < NumKids(v) { BeforeAllKids(v, i + 1); }
  }

  lemma KidsEnd(v: Value)
    ensures EncKids(v, NumKids(v)) == [] && FaultsKids(v, NumKids(v)) == {} && BeforeKids(v, NumKids(v)) == 0
  {
  }

  lemma LeafIs(v: Value)
    requires Valid(v)
    ensures ValidHere(v) && (!v.Table? ==> Enc(v) == Head(v) && Faults(v) == Fault(v) && Before(v) == if Fault(v) == {} then |Head(v)| else 0)
  {
    if !v.Table? { assert Head(v) + [] == Head(v); }
  }

  lemma EncSome(v: Value)
    requires Valid(v) && Packable(v)
    ensures |Enc(v)| > 0
  {
    hide Be, EncKids;
  }

  /** The message for what went wrong. */
  function Message(err: set<ErrBit>): Option<ErrBit> {
    if BufNoLeft in err then Some(BufNoLeft)
    else if StringLen in err then Some(StringLen)
    else if Type(LightUserdata) in err then Some(Type(LightUserdata))
    else if Type(Function) in err then Some(Type(Function))
    else if Type(Userdata) in err then Some(Type(Userdata))
    else if Type(Thread) in err then Some(Type(Thread))
    else if Type(Unknown) in err then Some(Type(Unknown))
    else None
  }

  /** The order in which errors are looked for. */
  function Rank(e: ErrBit): nat {
    match e
    case BufNoLeft => 0
    case StringLen => 1
    case Type(LightUserdata) => 2
    case Type(Function) => 3
    case Type(Userdata) => 4
    case Type(Thread) => 5
    case Type(Unknown) => 6
  }

  /** The message is about the error that comes first in that order. */
  lemma MessageIs(err: set<ErrBit>)
    requires err != {}
    ensures Message(err).Some? && Message(err).value in err && forall e :: e in err ==> Rank(Message(err).value) <= Rank(e)
  {
    var e :| e in err;
    forall e | e in err ensures Message(err).Some? && Rank(Message(err).value) <= Rank(e) {
      RankIs(e);
    }
  }

  lemma RankIs(e: ErrBit)
    ensures e == BufNoLeft || e == StringLen || e == Type(LightUserdata) || e == Type(Function) || e == Type(Userdata) || e == Type(Thread)
      || e == Type(Unknown)
  {
    match e
    case BufNoLeft =>
    case StringLen =>
    case Type(t) =>
      match t
      case LightUserdata =>
      case Function =>
      case Userdata =>
      case Thread =>
      case Unknown =>
  }

  /** All that goes wrong: the faults, and that there is no room for what is before the first. */
  function Errors(v: Value): set<ErrBit>
    requires Valid(v)
  {
    Faults(v) + if Before(v) > CAPACITY then {BufNoLeft} else {}
  }

  /** msgpack.pack succeeds exactly if all of the value can be packed and the encoding fits, and
      then returns the encoding; otherwise the error is the first of all that goes wrong. */
  method Pack(v: Value) returns (res: Result<Bytes, Option<ErrBit>>)
    requires Valid(v)
    ensures res.Ok? <==> Packable(v) && |Enc(v)| <= CAPACITY
    ensures res.Ok? ==> res.value == Enc(v)
    ensures Packable(v) && |Enc(v)| > CAPACITY ==> res == Err(Some(BufNoLeft))
    ensures res.Err? ==> res == Err(Message(Errors(v))) && Errors(v) != {}
  {
    NoFaults(v);
    if Packable(v) {
      EncSome(v);
      BeforeAll(v);
    }
    hide Valid, Packable, Enc, Faults, Before;
    var b := new WriteBuf();
    var wlen := b.PackAny(v);
    if wlen > 0 && b.err == {} {
      assert [] + Enc(v) == Enc(v);
      return Ok(b.data[..b.used]);
    }
    assert Faults(v) + {BufNoLeft} == {BufNoLeft} + Faults(v) && Faults(v) + {} == Faults(v);
    return Err(Message(b.err));
  }
}
