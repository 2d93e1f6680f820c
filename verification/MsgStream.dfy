/** The streaming unpacker's state machine (unpacker_progress, unpacker_push and the type bytes of
    unpacker_feed in lua_msgpack.new.c) as a function, and its agreement with the encoding: it
    sees where every value ends. */
module MsgStream {
  import opened Wrappers
  import opened ByteStrings
  import opened MsgFormat
  import opened MsgRoundTrip

  // ---------------------------------------------------------------------- the machine

  datatype Kind = FixArray | FixMap | Array16 | Map16 | Array32 | Map32 | Raw16 | Raw32 | Raw
                | FloatData | DoubleData | UInt8 | UInt16 | UInt32 | UInt64 | Int8 | Int16 | Int32 | Int64

  function SizeSize(k: Kind): nat {
    match k
    case Array16 | Map16 | Raw16 => 2
    case Array32 | Map32 | Raw32 => 4
    case _ => 0
  }

  predicate IsContainer(k: Kind) { k in {FixArray, FixMap, Array16, Map16, Array32, Map32} }

  predicate IsMap(k: Kind) { k in {FixMap, Map16, Map32} }

  /** What is being read: the values or bytes expected and seen, and the bytes of its length. */
  datatype Entry = Entry(kind: Kind, want: nat, sofar: nat, size: Bytes)

  const MAX_DEPTH := 256

  function Fresh(k: Kind, want: nat): Entry { Entry(k, want, 0, []) }

  predicate SizeMissing(e: Entry) { |e.size| < SizeSize(e.kind) }

  /** One more byte of the length. */
  function WithSize(e: Entry, ch: Byte): Entry {
    var size := e.size + [ch];
    e.(size := size, want := if |size| == SizeSize(e.kind) then FromBe(size) * (if IsMap(e.kind) then 2 else 1) else e.want)
  }

  /** The stack, the innermost last, and the values complete so far. */
  datatype State = State(stack: seq<Entry>, num: nat)

  /** unpacker_progress */
  function Progress(stack: seq<Entry>, num: nat, ch: Byte): State
    decreases |stack|
  {
    if stack == [] then State([], num + 1)
    else
      var front, e := stack[..|stack| - 1], stack[|stack| - 1];
      if SizeMissing(e) then State(front + [WithSize(e, ch)], num)
      else if e.sofar + 1 < e.want then State(front + [e.(sofar := e.sofar + 1)], num)
      else Progress(front, num, ch)
  }

  /** unpacker_push */
  function Push(s: State, k: Kind, want: nat): Option<State> {
    if |s.stack| >= MAX_DEPTH then None
    else
      var stack := s.stack + [Fresh(k, want)];
      Some(if SizeSize(k) == 0 && want == 0 then Progress(stack, s.num, 0) else State(stack, s.num))
  }

  /** The innermost is not done with its own bytes. */
  predicate NeedsBytes(stack: seq<Entry>) {
    stack != [] && var e := stack[|stack| - 1]; SizeMissing(e) || (e.sofar < e.want && !IsContainer(e.kind))
  }

  datatype Action = Now | Begin(k: Kind, want: nat) | Reserved

  function ActionOf(ch: Byte): Action {
    var u := ch as int;
    if u <= 0x7f then Now
    else if u <= 0x8f then Begin(FixMap, 2 * (u - 0x80))
    else if u <= 0x9f then Begin(FixArray, u - 0x90)
    else if u <= 0xbf then Begin(Raw, u - 0xa0)
    else if u == 0xc0 then Now
    else if u == 0xc1 then Reserved
    else if u == 0xc2 then Now
    else if u == 0xc3 then Now
    else if u <= 0xc9 then Reserved
    else if u == 0xca then Begin(FloatData, 4)
    else if u == 0xcb then Begin(DoubleData, 8)
    else if u == 0xcc then Begin(UInt8, 1)
    else if u == 0xcd then Begin(UInt16, 2)
    else if u == 0xce then Begin(UInt32, 4)
    else if u == 0xcf then Begin(UInt64, 8)
    else if u == 0xd0 then Begin(Int8, 1)
    else if u == 0xd1 then Begin(Int16, 2)
    else if u == 0xd2 then Begin(Int32, 4)
    else if u == 0xd3 then Begin(Int64, 8)
    else if u <= 0xd9 then Reserved
    else if u == 0xda then Begin(Raw16, 0)
    else if u == 0xdb then Begin(Raw32, 0)
    else if u == 0xdc then Begin(Array16, 0)
    else if u == 0xdd then Begin(Array32, 0)
    else if u == 0xde then Begin(Map16, 0)
    else if u == 0xdf then Begin(Map32, 0)
    else Now
  }

  /** One byte. */
  function Step(s: State, ch: Byte): Option<State> {
    if NeedsBytes(s.stack) then
      Some(Progress(s.stack, s.num, if SizeMissing(s.stack[|s.stack| - 1]) then ch else 0))
    else match ActionOf(ch)
      case Now => Some(Progress(s.stack, s.num, ch))
      case Begin(k, want) => Push(s, k, want)
      case Reserved => None
  }

  function Run(s: State, b: Bytes): Option<State>
    decreases |b|
  {
    if b == [] then Some(s)
    else match Step(s, b[0])
      case None => None
      case Some(s1) => Run(s1, b[1..])
  }

  lemma {:induction false} RunConcat(s: State, a: Bytes, b: Bytes)
    ensures Run(s, a + b) == match Run(s, a) case None => None case Some(s1) => Run(s1, b)
    decreases |a|
  {
    hide Step;
    if a == [] {
      assert a + b == b;
    } else {
      assert (a + b)[1..] == a[1..] + b;
      match Step(s, a[0]) {
        case None =>
        case Some(s1) => RunConcat(s1, a[1..], b);
      }
    }
  }

  // ------------------------------------------------------------------ values it can follow

  /** How deep the stack becomes over a value. */
  function Depth(v: Value): nat
    decreases v, NumKids(v) + 1
  {
    match v
    case Nil => 0
    case Bool(_) => 0
    case Int(n) => if -32 <= n < 128 then 0 else 1
    case Float(_) => 1
    case Str(_) => 1
    case Table(_, _) => 1 + DepthKids(v, 0)
    case Other(_) => 0
  }

  function DepthKids(v: Value, i: nat): nat
    decreases v, NumKids(v) - i
  {
    if i >= NumKids(v) then 0
    else var d, e := Depth(Kid(v, i)), DepthKids(v, i + 1); if d > e then d else e
  }

  predicate Open(e: Entry) { IsContainer(e.kind) && !SizeMissing(e) && e.sofar < e.want }

  /** Everything on the stack is waiting for a value. */
  predicate Ready(stack: seq<Entry>) {
    forall i :: 0 <= i < |stack| ==> Open(stack[i])
  }

  /** A value more, when that is what is awaited. */
  lemma {:induction false} ProgressReady(stack: seq<Entry>, num: nat, ch: Byte)
    requires Ready(stack)
    ensures Progress(stack, num, ch) == Progress(stack, num, 0) && Ready(Progress(stack, num, 0).stack)
    decreases |stack|
  {
    if stack != [] {
      assert Open(stack[|stack| - 1]);
      ProgressReady(stack[..|stack| - 1], num, ch);
    }
  }

  lemma StepReady(s: State, ch: Byte)
    requires Ready(s.stack)
    ensures Step(s, ch) == match ActionOf(ch)
      case Now => Some(Progress(s.stack, s.num, 0))
      case Begin(k, want) => Push(s, k, want)
      case Reserved => None
  {
    ProgressReady(s.stack, s.num, ch);
  }

  lemma RunCons(s: State, ch: Byte, b: Bytes)
    ensures Run(s, [ch] + b) == match Step(s, ch) case None => None case Some(s1) => Run(s1, b)
  {
    assert ([ch] + b)[1..] == b;
  }

  /** The bytes of a number or a string. */
  lemma {:induction false} RunData(stack: seq<Entry>, e: Entry, num: nat, data: Bytes)
    requires !IsContainer(e.kind) && !SizeMissing(e) && |data| == e.want - e.sofar > 0
    ensures Run(State(stack + [e], num), data) == Some(Progress(stack, num, 0))
    decreases |data|
  {
    assert data == [data[0]] + data[1..];
    RunCons(State(stack + [e], num), data[0], data[1..]);
    var next := e.(sofar := e.sofar + 1);
    assert (stack + [e])[..|stack|] == stack;
    if |data| > 1 {
      assert Step(State(stack + [e], num), data[0]) == Some(State(stack + [next], num));
      RunData(stack, next, num, data[1..]);
    } else {
      assert data[1..] == [];
    }
  }

  /** Some of the bytes, without the last. */
  lemma {:induction false} RunSome(stack: seq<Entry>, e: Entry, num: nat, data: Bytes)
    requires !IsContainer(e.kind) && !SizeMissing(e) && |data| < e.want - e.sofar
    ensures Run(State(stack + [e], num), data) == Some(State(stack + [e.(sofar := e.sofar + |data|)], num))
    decreases |data|
  {
    if data != [] {
      assert data == [data[0]] + data[1..];
      RunCons(State(stack + [e], num), data[0], data[1..]);
      var next := e.(sofar := e.sofar + 1);
      assert (stack + [e])[..|stack|] == stack;
      assert Step(State(stack + [e], num), data[0]) == Some(State(stack + [next], num));
      RunSome(stack, next, num, data[1..]);
    }
  }

  /** The bytes of a length. */
  lemma {:induction false} RunSize(stack: seq<Entry>, e: Entry, num: nat, rest: Bytes)
    requires rest != [] && |e.size| + |rest| == SizeSize(e.kind)
    ensures Run(State(stack + [e], num), rest)
      == Some(State(stack + [e.(size := e.size + rest, want := FromBe(e.size + rest) * if IsMap(e.kind) then 2 else 1)], num))
    decreases |rest|
  {
    assert rest == [rest[0]] + rest[1..];
    RunCons(State(stack + [e], num), rest[0], rest[1..]);
    assert (stack + [e])[..|stack|] == stack;
    assert Step(State(stack + [e], num), rest[0]) == Some(State(stack + [WithSize(e, rest[0])], num));
    if |rest| > 1 {
      RunSize(stack, WithSize(e, rest[0]), num, rest[1..]);
      assert (e.size + [rest[0]]) + rest[1..] == e.size + rest;
    } else {
      assert rest == [rest[0]] && rest[1..] == [];
    }
  }

  // ------------------------------------------------------------------------ whole values

  /** What a complete value does, if there is room for `depth` entries. */
  ghost function Completed(s: State, depth: nat): Option<State> {
    if |s.stack| + depth <= MAX_DEPTH then Some(Progress(s.stack, s.num, 0)) else None
  }

  /** A type byte and the bytes it announces. */
  lemma RunBegin(s: State, t: Byte, k: Kind, data: Bytes)
    requires Ready(s.stack) && ActionOf(t) == Begin(k, |data|) && SizeSize(k) == 0 && !IsContainer(k)
    ensures Run(s, [t] + data) == Completed(s, 1)
  {
    hide ActionOf, Ready;
    StepReady(s, t);
    RunCons(s, t, data);
    var e := Fresh(k, |data|);
    assert (s.stack + [e])[..|s.stack|] == s.stack;
    if |s.stack| < MAX_DEPTH && data != [] { RunData(s.stack, e, s.num, data); }
  }

  /** A type byte and a length. */
  lemma RunSized(s: State, t: Byte, k: Kind, n: nat, width: nat)
    requires Ready(s.stack) && ActionOf(t) == Begin(k, 0) && SizeSize(k) == width > 0 && n < Pow256(width)
    ensures Run(s, [t] + Be(n, width)) == if |s.stack| >= MAX_DEPTH then None
      else Some(State(s.stack + [Entry(k, n * (if IsMap(k) then 2 else 1), 0, Be(n, width))], s.num))
  {
    hide ActionOf, Ready, FromBe, Be, Pow256;
    StepReady(s, t);
    RunCons(s, t, Be(n, width));
    BeRound(n, width);
    if |s.stack| < MAX_DEPTH {
      RunSize(s.stack, Fresh(k, 0), s.num, Be(n, width));
      assert [] + Be(n, width) == Be(n, width);
    }
  }

  lemma RunNow(s: State, t: Byte)
    requires Ready(s.stack) && ActionOf(t) == Now
    ensures Run(s, [t]) == Completed(s, 0) || |s.stack| > MAX_DEPTH
  {
    hide ActionOf, Ready;
    StepReady(s, t);
    RunCons(s, t, []);
    assert [t] + [] == [t];
  }

  lemma RunInt(s: State, n: int)
    requires Ready(s.stack) && |s.stack| <= MAX_DEPTH && -TWO63 <= n < TWO63
    ensures Run(s, IntHead(n)) == Completed(s, if -32 <= n < 128 then 0 else 1)
  {
    hide Run, Completed, Ready, Be;
    if n < -32 || n >= 128 {
      var t, w, m := IntParts(n);
      hide IntHead;
      RunBegin(s, t, ActionOf(t).k, Be(m, w));
    } else {
      RunNow(s, IntHead(n)[0]);
    }
  }

  lemma RunStr(s: State, str: Bytes)
    requires Ready(s.stack) && |str| < MAX_STR
    ensures Run(s, StrHead(|str|) + str) == Completed(s, 1)
  {
    hide Run, Ready, Be;
    var n := |str|;
    if n < 32 {
      RunBegin(s, (0xa0 + n) as Byte, Raw, str);
    } else {
      Widths();
      hide Pow256;
      var t: Byte, w, k := if n < 65536 then 0xda else 0xdb, if n < 65536 then 2 else 4, if n < 65536 then Raw16 else Raw32;
      RunSized(s, t, k, n, w);
      RunConcat(s, StrHead(n), str);
      if |s.stack| < MAX_DEPTH {
        RunData(s.stack, Entry(k, n, 0, Be(n, w)), s.num, str);
      }
    }
  }

  lemma RunLeaf(s: State, v: Value)
    requires Ready(s.stack) && |s.stack| <= MAX_DEPTH && ValidHere(v) && !v.Table? && !v.Other? && (v.Str? ==> |v.s| < MAX_STR)
    ensures Run(s, Head(v)) == Completed(s, Depth(v))
  {
    hide Run, Completed, Ready, IntHead, StrHead, Reversed;
    match v {
      case Nil => RunNow(s, 0xc0);
      case Bool(b) => RunNow(s, if b then 0xc3 else 0xc2);
      case Int(n) => RunInt(s, n);
      case Float(bits) => RunBegin(s, 0xcb, DoubleData, Reversed(bits));
      case Str(str) => RunStr(s, str);
    }
  }

  /** The kind of a table's entry. */
  function KindOf(v: Value): Kind
    requires v.Table?
  {
    if v.arr != [] then if |v.arr| < 16 then FixArray else if |v.arr| < 65536 then Array16 else Array32
    else if |v.hash| < 16 then FixMap else if |v.hash| < 65536 then Map16 else Map32
  }

  /** The entry of table `v`, of whose values `i` are complete. */
  ghost predicate EntryOf(v: Value, i: nat, e: Entry)
    requires v.Table?
  {
    e.kind == KindOf(v) && !SizeMissing(e) && e.want == NumKids(v) && e.sofar == i
  }

  /** The head of a table leaves an entry that expects its values. */
  lemma RunHead(s: State, v: Value) returns (e: Entry)
    requires Ready(s.stack) && ValidHere(v) && v.Table?
    ensures EntryOf(v, 0, e)
    ensures |s.stack| >= MAX_DEPTH ==> Run(s, Head(v)) == None
    ensures |s.stack| < MAX_DEPTH && NumKids(v) > 0 ==> Run(s, Head(v)) == Some(State(s.stack + [e], s.num))
    ensures |s.stack| < MAX_DEPTH && NumKids(v) == 0 ==> Run(s, Head(v)) == Some(Progress(s.stack, s.num, 0))
  {
    hide Ready, Be, Run;
    var isMap := v.arr == [];
    var n := if isMap then |v.hash| else |v.arr|;
    if n < 16 {
      e := Fresh(KindOf(v), NumKids(v));
      var t := Head(v)[0];
      RunFixed(s, t, KindOf(v), NumKids(v));
      assert Head(v) == [t];
    } else {
      Widths();
      hide Pow256;
      var w := if n < 65536 then 2 else 4;
      e := Entry(KindOf(v), NumKids(v), 0, Be(n, w));
      RunSized(s, Head(v)[0], KindOf(v), n, w);
      assert Head(v) == [Head(v)[0]] + Be(n, w);
    }
  }

  lemma RunFixed(s: State, t: Byte, k: Kind, n: nat)
    requires Ready(s.stack) && ActionOf(t) == Begin(k, n) && SizeSize(k) == 0
    ensures Run(s, [t]) == if |s.stack| >= MAX_DEPTH then None
      else if n == 0 then Some(Progress(s.stack, s.num, 0)) else Some(State(s.stack + [Fresh(k, n)], s.num))
  {
    hide ActionOf, Ready;
    StepReady(s, t);
    RunCons(s, t, []);
    assert [t] + [] == [t];
    assert (s.stack + [Fresh(k, n)])[..|s.stack|] == s.stack;
  }

  /** The machine takes the encoding of a value for one value: it completes it exactly with its
      last byte, if the stack has room for its depth, and refuses it if not. */
  lemma {:induction false} RunValue(s: State, v: Value)
    requires Ready(s.stack) && |s.stack| <= MAX_DEPTH && Valid(v) && Packable(v)
    ensures Run(s, Enc(v)) == Completed(s, Depth(v))
    decreases v, NumKids(v) + 1
  {
    hide Run, Ready, Head, EncKids, ValidHere, ValidKids, PackableKids, DepthKids, Progress;
    RunConcat(s, Head(v), EncKids(v, 0));
    if v.Table? {
      var e := RunHead(s, v);
      if |s.stack| < MAX_DEPTH {
        if NumKids(v) > 0 {
          RunKids(s, v, 0, e);
        } else {
          KidsNone(v, Progress(s.stack, s.num, 0));
        }
      }
    } else {
      RunLeaf(s, v);
      KidsNone(v, Progress(s.stack, s.num, 0));
    }
  }

  lemma KidsNone(v: Value, s: State)
    requires NumKids(v) == 0
    ensures ValidKids(v, 0) && Run(s, EncKids(v, 0)) == Some(s) && DepthKids(v, 0) == 0
  {
  }

  /** The values inside a table from the `i`th on complete the table. */
  lemma {:induction false} RunKids(s: State, v: Value, i: nat, e: Entry)
    requires Ready(s.stack) && |s.stack| < MAX_DEPTH && v.Table? && i < NumKids(v) && ValidKids(v, i) && PackableKids(v, i)
    requires EntryOf(v, i, e)
    ensures Run(State(s.stack + [e], s.num), EncKids(v, i)) == Completed(s, 1 + DepthKids(v, i))
    decreases v, NumKids(v) - i
  {
    hide Run, Ready, Enc, Valid, Packable, Kid, Depth, EntryOf;
    var here := State(s.stack + [e], s.num);
    ReadyMore(s.stack, v, i, e);
    RunValue(here, Kid(v, i));
    RunConcat(here, Enc(Kid(v, i)), EncKids(v, i + 1));
    var next := EntryNext(s, v, i, e);
    if i + 1 < NumKids(v) {
      RunKids(s, v, i + 1, next);
    } else {
      RunEnd(Progress(s.stack, s.num, 0));
    }
  }

  lemma RunEnd(s: State)
    ensures Run(s, []) == Some(s)
  {
  }

  lemma ReadyMore(stack: seq<Entry>, v: Value, i: nat, e: Entry)
    requires Ready(stack) && v.Table? && EntryOf(v, i, e) && i < NumKids(v)
    ensures Ready(stack + [e])
  {
  }

  /** One value more in a table. */
  lemma EntryNext(s: State, v: Value, i: nat, e: Entry) returns (next: Entry)
    requires v.Table? && EntryOf(v, i, e) && i < NumKids(v)
    ensures EntryOf(v, i + 1, next)
    ensures Progress(s.stack + [e], s.num, 0) == if i + 1 < NumKids(v) then State(s.stack + [next], s.num) else Progress(s.stack, s.num, 0)
  {
    assert (s.stack + [e])[..|s.stack|] == s.stack;
    next := e.(sofar := i + 1);
  }
}
