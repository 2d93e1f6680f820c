/** The MessagePack format as lua_msgpack.new.c writes and reads it: values, their encoding, the
    decoder as a function, and the round trip. */
module MsgFormat {
  import opened Wrappers
  import opened ByteStrings

  // --------------------------------------------------------------------------- values

  datatype OtherType = LightUserdata | Function | Userdata | Thread | Unknown

  /** A Lua value. `Float` is a number that is not integral, by the bytes of the double. A table
      has an array part, as long as the length operator says, and other pairs, in the order in
      which they are traversed. */
  datatype Value = Nil | Bool(b: bool) | Int(n: int) | Float(bits: Bytes) | Str(s: Bytes)
                 | Table(arr: seq<Value>, hash: seq<Pair>) | Other(t: OtherType)

  datatype Pair = Pair(key: Value, val: Value)

  const TWO31 := 0x8000_0000
  const TWO32 := 0x1_0000_0000
  const TWO63 := 0x8000_0000_0000_0000
  const TWO64 := 0x1_0000_0000_0000_0000
  const MAX_STR := TWO32 - 1

  /** The values that are packed inside a table. */
  function NumKids(v: Value): nat {
    if !v.Table? then 0 else if v.arr != [] then |v.arr| else 2 * |v.hash|
  }

  function Kid(v: Value, i: nat): (k: Value)
    requires i < NumKids(v)
    ensures k < v
  {
    if v.arr != [] then v.arr[i] else if i % 2 == 0 then v.hash[i / 2].key else v.hash[i / 2].val
  }

  /** Two keys of one table are the same; table keys are compared by identity, and each table
      read is a new one. */
  predicate SameKey(k: Value, l: Value) { k == l && !k.Table? }

  /** What a table can hold, and what numbers the packer takes. */
  predicate ValidHere(v: Value) {
    match v
    case Int(n) => -TWO63 <= n < TWO63
    case Float(bits) => |bits| == 8
    case Table(arr, hash) =>
      && |arr| < TWO31 && |hash| < TWO31
      && (forall i :: 0 <= i < |hash| ==> hash[i].key != Nil && hash[i].val != Nil)
      && forall i, j :: 0 <= i < j < |hash| ==> !SameKey(hash[i].key, hash[j].key)
    case _ => true
  }

  predicate Valid(v: Value)
    decreases v, NumKids(v) + 1
  {
    ValidHere(v) && ValidKids(v, 0)
  }

  predicate ValidKids(v: Value, i: nat)
    decreases v, NumKids(v) - i
  {
    i < NumKids(v) ==> Valid(Kid(v, i)) && ValidKids(v, i + 1)
  }

  /** Nothing in the value that the packer refuses. */
  predicate Packable(v: Value)
    decreases v, NumKids(v) + 1
  {
    !v.Other? && (v.Str? ==> |v.s| < MAX_STR) && PackableKids(v, 0)
  }

  predicate PackableKids(v: Value, i: nat)
    decreases v, NumKids(v) - i
  {
    i < NumKids(v) ==> Packable(Kid(v, i)) && PackableKids(v, i + 1)
  }

  // ------------------------------------------------------------------------- encoding

  /** `n` bytes, the highest first. */
  function Be(v: nat, n: nat): (e: Bytes)
    ensures |e| == n
  {
    if n == 0 then [] else Be(v / 256, n - 1) + [(v % 256) as Byte]
  }

  function FromBe(b: Bytes): nat {
    if b == [] then 0 else FromBe(b[..|b| - 1]) * 256 + b[|b| - 1] as nat
  }

  function Reversed(b: Bytes): (r: Bytes)
    ensures |r| == |b|
  {
    if b == [] then [] else Reversed(b[1..]) + [b[0]]
  }

  function IntHead(n: int): Bytes
    requires -TWO63 <= n < TWO63
  {
    if n >= 0 then
      if n < 128 then [n as Byte]
      else if n < 256 then [0xcc] + Be(n, 1)
      else if n < 65536 then [0xcd] + Be(n, 2)
      else if n < TWO32 then [0xce] + Be(n, 4)
      else [0xcf] + Be(n, 8)
    else if n >= -32 then [(256 + n) as Byte]
    else if n >= -128 then [0xd0] + Be(256 + n, 1)
    else if n >= -32768 then [0xd1] + Be(65536 + n, 2)
    else if n >= -TWO31 then [0xd2] + Be(TWO32 + n, 4)
    else [0xd3] + Be(TWO64 + n, 8)
  }

  /** Type and length of a string; one that is too long has none. */
  function StrHead(n: nat): Bytes {
    if n < 32 then [(0xa0 + n) as Byte]
    else if n < 65536 then [0xda] + Be(n, 2)
    else if n < MAX_STR then [0xdb] + Be(n, 4)
    else []
  }

  function ArrayHead(n: nat): Bytes
    requires n < TWO31
  {
    if n < 16 then [(0x90 + n) as Byte] else if n < 65536 then [0xdc] + Be(n, 2) else [0xdd] + Be(n, 4)
  }

  function MapHead(n: nat): Bytes
    requires n < TWO31
  {
    if n < 16 then [(0x80 + n) as Byte] else if n < 65536 then [0xde] + Be(n, 2) else [0xdf] + Be(n, 4)
  }

  /** All of the encoding of a value but the values inside. */
  function Head(v: Value): Bytes
    requires ValidHere(v)
  {
    match v
    case Nil => [0xc0]
    case Bool(b) => if b then [0xc3] else [0xc2]
    case Int(n) => IntHead(n)
    case Float(bits) => [0xcb] + Reversed(bits)
    case Str(s) => StrHead(|s|) + s
    case Table(arr, hash) => if arr != [] then ArrayHead(|arr|) else MapHead(|hash|)
    case Other(_) => []
  }

  function Enc(v: Value): Bytes
    requires Valid(v)
    decreases v, NumKids(v) + 1
  {
    Head(v) + EncKids(v, 0)
  }

  function EncKids(v: Value, i: nat): Bytes
    requires ValidKids(v, i)
    decreases v, NumKids(v) - i
  {
    if i >= NumKids(v) then [] else Enc(Kid(v, i)) + EncKids(v, i + 1)
  }

  // --------------------------------------------------------------- what a round trip gives

  /** The packer ignores the other pairs of a table that has an array part. */
  function Normal(v: Value): Value
    decreases v, NumKids(v) + 1
  {
    if !v.Table? then v
    else
      var kids := NormalKids(v, 0);
      if v.arr != [] then Table(kids, []) else Table([], Paired(kids))
  }

  function NormalKids(v: Value, i: nat): (ks: seq<Value>)
    ensures i <= NumKids(v) ==> |ks| == NumKids(v) - i
    decreases v, NumKids(v) - i
  {
    if i >= NumKids(v) then [] else [Normal(Kid(v, i))] + NormalKids(v, i + 1)
  }

  function Paired(vs: seq<Value>): seq<Pair> {
    if |vs| < 2 then [] else [Pair(vs[0], vs[1])] + Paired(vs[2..])
  }

  /** No table has both an array part and other pairs. */
  predicate Plain(v: Value)
    decreases v, NumKids(v) + 1
  {
    (v.Table? ==> v.arr == [] || v.hash == []) && PlainKids(v, 0)
  }

  predicate PlainKids(v: Value, i: nat)
    decreases v, NumKids(v) - i
  {
    i < NumKids(v) ==> Plain(Kid(v, i)) && PlainKids(v, i + 1)
  }

  // ------------------------------------------------------------------------- decoding

  /** lua_rawset: nothing for the key nil; the value nil removes. */
  function RawSet(ps: seq<Pair>, k: Value, v: Value): Option<seq<Pair>> {
    if k == Nil then None
    else Some(if v == Nil then Without(ps, k) else Without(ps, k) + [Pair(k, v)])
  }

  function Without(ps: seq<Pair>, k: Value): seq<Pair> {
    if ps == [] then [] else (if SameKey(ps[0].key, k) then [] else [ps[0]]) + Without(ps[1..], k)
  }

  /** A number as a signed one of the given width. */
  function Signed(n: nat, half: nat): int { if n < half then n else n - 2 * half }

  /** A length as the C code passes it on, as an int; a negative one gives an empty table. */
  function AsInt(n: nat): nat { if n < TWO31 then n else 0 }

  type Decoded = Option<(Value, nat)>

  /** `n` bytes from `p` on, if there are. */
  function Take(b: Bytes, p: nat, n: nat): Option<Bytes> {
    if p + n <= |b| then Some(b[p..p + n]) else None
  }

  function DecNum(b: Bytes, p: nat, n: nat, half: nat): Decoded {
    match Take(b, p, n)
    case None => None
    case Some(e) => Some((Int(if half == 0 then FromBe(e) else Signed(FromBe(e), half)), p + n))
  }

  function DecFloat(b: Bytes, p: nat, n: nat): Decoded {
    match Take(b, p, n)
    case None => None
    case Some(e) => Some((Float(Reversed(e)), p + n))
  }

  function DecStr(b: Bytes, p: nat, n: nat): Decoded {
    match Take(b, p, n)
    case None => None
    case Some(s) => Some((Str(s), p + n))
  }

  function DecLongStr(b: Bytes, p: nat, n: nat): Decoded {
    match Take(b, p, n)
    case None => None
    case Some(e) => DecStr(b, p + n, FromBe(e))
  }

  /** Which long array or map a type byte announces: how many bytes of length, and which. */
  datatype Sized = Sized(n: nat, isMap: bool)

  function LongTable(t: Byte): Option<Sized> {
    if t == 0xdc then Some(Sized(2, false)) else if t == 0xdd then Some(Sized(4, false))
    else if t == 0xde then Some(Sized(2, true)) else if t == 0xdf then Some(Sized(4, true)) else None
  }

  /** A value without values inside, of type byte `t`; `p` is behind it. */
  function DecLeaf(b: Bytes, p: nat, t: Byte): (r: Decoded)
    ensures p <= |b| && r.Some? ==> p <= r.value.1 <= |b|
  {
    var u := t as nat;
    if u < 0x80 then Some((Int(u), p))
    else if 0xa0 <= u <= 0xbf then DecStr(b, p, u - 0xa0)
    else if u > 0xdf then Some((Int(u - 256), p))
    else if u == 0xc0 then Some((Nil, p))
    else if u == 0xc2 then Some((Bool(false), p))
    else if u == 0xc3 then Some((Bool(true), p))
    else if u == 0xca then DecFloat(b, p, 4)
    else if u == 0xcb then DecFloat(b, p, 8)
    else if u == 0xcc then DecNum(b, p, 1, 0)
    else if u == 0xcd then DecNum(b, p, 2, 0)
    else if u == 0xce then DecNum(b, p, 4, 0)
    else if u == 0xcf then DecNum(b, p, 8, 0)
    else if u == 0xd0 then DecNum(b, p, 1, 128)
    else if u == 0xd1 then DecNum(b, p, 2, 32768)
    else if u == 0xd2 then DecNum(b, p, 4, TWO31)
    else if u == 0xd3 then DecNum(b, p, 8, TWO63)
    else if u == 0xda then DecLongStr(b, p, 2)
    else if u == 0xdb then DecLongStr(b, p, 4)
    else None
  }

  /** The value at `p` and the position behind it. */
  function Dec(b: Bytes, p: nat): (r: Decoded)
    ensures r.Some? ==> p < r.value.1 <= |b|
    decreases |b| - p, 0, 0
  {
    if p >= |b| then None
    else
      var t := b[p];
      if 0x80 <= t as nat <= 0x8f then DecTable(b, p + 1, t as nat - 0x80, true)
      else if 0x90 <= t as nat <= 0x9f then DecTable(b, p + 1, t as nat - 0x90, false)
      else match LongTable(t)
        case None => DecLeaf(b, p + 1, t)
        case Some(s) =>
          match Take(b, p + 1, s.n)
          case None => None
          case Some(e) => DecTable(b, p + 1 + s.n, AsInt(FromBe(e)), s.isMap)
  }

  function DecTable(b: Bytes, p: nat, n: nat, isMap: bool): (r: Decoded)
    requires p <= |b|
    ensures r.Some? ==> p <= r.value.1 <= |b|
    decreases |b| - p, 2, n
  {
    if isMap then
      match DecMap(b, p, n, [])
      case None => None
      case Some((ps, q)) => Some((Table([], ps), q))
    else
      match DecArray(b, p, n)
      case None => None
      case Some((vs, q)) => Some((Table(vs, []), q))
  }

  function DecArray(b: Bytes, p: nat, n: nat): (r: Option<(seq<Value>, nat)>)
    requires p <= |b|
    ensures r.Some? ==> p <= r.value.1 <= |b|
    decreases |b| - p, 1, n
  {
    if n == 0 then Some(([], p))
    else match Dec(b, p)
      case None => None
      case Some((v, q)) =>
        match DecArray(b, q, n - 1)
        case None => None
        case Some((vs, r)) => Some(([v] + vs, r))
  }

  /** Pairs are put into what is there. */
  function DecMap(b: Bytes, p: nat, n: nat, ps: seq<Pair>): (r: Option<(seq<Pair>, nat)>)
    requires p <= |b|
    ensures r.Some? ==> p <= r.value.1 <= |b|
    decreases |b| - p, 1, n
  {
    if n == 0 then Some((ps, p))
    else match Dec(b, p)
      case None => None
      case Some((k, q)) =>
        match Dec(b, q)
        case None => None
        case Some((v, r)) =>
          match RawSet(ps, k, v)
          case None => None
          case Some(ps1) => DecMap(b, r, n - 1, ps1)
  }
}
