/** The encodings against the tables of the MessagePack specification (section "Formats", without
    the newer string and binary types): the packer writes one of the formats for the value, and
    none is shorter. */
module MsgLaws {
  import opened Wrappers
  import opened ByteStrings
  import opened MsgFormat
  import opened MsgRoundTrip

  /** The number that bytes stand for, the highest first, with a sign if `signed`. */
  function Number(b: Bytes, signed: bool): int {
    if signed && b != [] && b[0] >= 128 then FromBe(b) - Pow256(|b|) else FromBe(b)
  }

  /** The formats of integers: positive and negative fixnum, and the unsigned and signed ones of one
      to eight bytes. */
  predicate IntFormat(e: Bytes, n: int) {
    e != [] &&
    match |e|
    case 1 => if e[0] < 0x80 then n == e[0] as int else e[0] >= 0xe0 && n == e[0] as int - 256
    case 2 => (e[0] == 0xcc && n == Number(e[1..], false)) || (e[0] == 0xd0 && n == Number(e[1..], true))
    case 3 => (e[0] == 0xcd && n == Number(e[1..], false)) || (e[0] == 0xd1 && n == Number(e[1..], true))
    case 5 => (e[0] == 0xce && n == Number(e[1..], false)) || (e[0] == 0xd2 && n == Number(e[1..], true))
    case 9 => (e[0] == 0xcf && n == Number(e[1..], false)) || (e[0] == 0xd3 && n == Number(e[1..], true))
    case _ => false
  }

  /** The formats of a type and a length: in the type byte, or in two or four bytes behind it. */
  predicate LengthFormat(e: Bytes, fix: nat, limit: nat, long: nat, n: nat) {
    e != [] &&
    match |e|
    case 1 => n < limit && e[0] as nat == fix + n
    case 3 => e[0] as nat == long && n == Number(e[1..], false)
    case 5 => e[0] as nat == long + 1 && n == Number(e[1..], false)
    case _ => false
  }

  lemma {:induction false} BeBound(b: Bytes)
    ensures FromBe(b) < Pow256(|b|)
    decreases |b|
  {
    if b != [] { BeBound(b[..|b| - 1]); }
  }

  lemma {:induction false} BeFirst(b: Bytes)
    requires b != []
    ensures FromBe(b) == b[0] as nat * Pow256(|b| - 1) + FromBe(b[1..])
    decreases |b|
  {
    if |b| > 1 {
      BeFirst(b[..|b| - 1]);
      assert b[..|b| - 1][1..] == b[1..][..|b| - 2];
      Distribute(b[0] as nat, Pow256(|b| - 2));
    } else {
      assert FromBe([]) == 0 && b[..0] == [] && b[1..] == [];
    }
  }

  lemma Distribute(x: nat, p: nat)
    ensures x * (256 * p) == x * p * 256
  {
  }

  lemma FirstBounds(x: nat, p: nat, r: nat)
    requires r < p
    ensures x * p + r >= 128 * p <==> x >= 128
  {
    if x >= 128 {
      assert (x - 128) * p >= 0;
    } else {
      assert (127 - x) * p >= 0;
    }
  }

  /** The first byte says whether a number is in the upper half, which is that of the negative ones. */
  lemma SignIs(b: Bytes)
    requires b != []
    ensures b[0] >= 128 <==> FromBe(b) >= 128 * Pow256(|b| - 1)
    ensures 0 <= Number(b, false) < Pow256(|b|) && -128 * Pow256(|b| - 1) <= Number(b, true) < 128 * Pow256(|b| - 1)
  {
    BeFirst(b);
    BeBound(b);
    BeBound(b[1..]);
    FirstBounds(b[0] as nat, Pow256(|b| - 1), FromBe(b[1..]));
  }

  lemma NegativeRound(n: int, k: nat)
    requires k > 0 && -128 * Pow256(k - 1) <= n < 0
    ensures Number(Be(Pow256(k) + n, k), true) == n
  {
    var v: nat := Pow256(k) + n;
    BeRound(v, k);
    SignIs(Be(v, k));
  }

  lemma NaturalRound(n: nat, k: nat)
    requires n < Pow256(k)
    ensures Number(Be(n, k), false) == n
  {
    BeRound(n, k);
  }

  lemma Halves()
    ensures Pow256(0) == 1 && 128 * Pow256(1) == 32768 && 128 * Pow256(3) == TWO31 && 128 * Pow256(7) == TWO63
  {
    Widths();
    assert Pow256(4) == 256 * Pow256(3) && Pow256(8) == 256 * Pow256(7);
  }

  /** An integer is written in one of its formats. */
  lemma IntLaw(n: int)
    requires -TWO63 <= n < TWO63
    ensures IntFormat(IntHead(n), n)
  {
    Widths();
    Halves();
    hide Be, Number, Pow256;
    var k := WidthOf(n);
    if k > 0 {
      assert IntHead(n)[1..] == Be(if n >= 0 then n else Pow256(k) + n, k);
      if n >= 0 { NaturalRound(n, k); } else { NegativeRound(n, k); }
    }
  }

  /** How many bytes an integer has behind its type. */
  function WidthOf(n: int): nat {
    if -32 <= n < 128 then 0
    else if -128 <= n < 256 then 1
    else if -32768 <= n < 65536 then 2
    else if -TWO31 <= n < TWO32 then 4
    else 8
  }

  /** No format of an integer is shorter. */
  lemma IntShortest(n: int, e: Bytes)
    requires -TWO63 <= n < TWO63 && IntFormat(e, n)
    ensures |IntHead(n)| <= |e|
  {
    Widths();
    Halves();
    if |e| > 1 { SignIs(e[1..]); }
    hide Be, Number, Pow256;
    assert |IntHead(n)| == 1 + WidthOf(n);
  }

  /** Strings, arrays and maps have one of the formats of their length, and none is shorter. */
  lemma LengthLaw(n: nat)
    requires n < TWO31
    ensures LengthFormat(StrHead(n), 0xa0, 32, 0xda, n) && LengthFormat(ArrayHead(n), 0x90, 16, 0xdc, n) && LengthFormat(MapHead(n), 0x80, 16, 0xde, n)
  {
    Widths();
    if n < 65536 { NaturalRound(n, 2); }
    NaturalRound(n, 4);
    hide Number, Pow256;
    assert n >= 32 ==> StrHead(n)[1..] == Be(n, if n < 65536 then 2 else 4);
    assert n >= 16 ==> ArrayHead(n)[1..] == Be(n, if n < 65536 then 2 else 4) && MapHead(n)[1..] == Be(n, if n < 65536 then 2 else 4);
  }

  lemma LengthShortest(n: nat, e: Bytes)
    requires n < TWO31
    ensures LengthFormat(e, 0xa0, 32, 0xda, n) ==> |StrHead(n)| <= |e|
    ensures LengthFormat(e, 0x90, 16, 0xdc, n) ==> |ArrayHead(n)| <= |e|
    ensures LengthFormat(e, 0x80, 16, 0xde, n) ==> |MapHead(n)| <= |e|
  {
    Widths();
    if |e| > 1 { SignIs(e[1..]); }
    hide Be, Number, Pow256;
  }

  /** The other formats: nil, false and true, a double with its bytes in network order, a string as
      it is, and the values of an array or a map one after the other. */
  lemma HeadLaw(v: Value)
    requires ValidHere(v)
    ensures v.Nil? ==> Head(v) == [0xc0]
    ensures v.Bool? ==> Head(v) == [if v.b then 0xc3 else 0xc2]
    ensures v.Float? ==> |Head(v)| == 9 && Head(v)[0] == 0xcb && forall i :: 0 <= i < 8 ==> Head(v)[8 - i] == v.bits[i]
    ensures v.Str? && |v.s| < TWO31 ==> Head(v) == StrHead(|v.s|) + v.s
    ensures v.Table? ==> Head(v) == if v.arr != [] then ArrayHead(|v.arr|) else MapHead(|v.hash|)
  {
    if v.Float? {
      forall i | 0 <= i < 8 ensures Head(v)[8 - i] == v.bits[i] { ReversedAt(v.bits, i); }
    }
  }

  lemma {:induction false} ReversedAt(b: Bytes, i: nat)
    requires i < |b|
    ensures Reversed(b)[|b| - 1 - i] == b[i]
    decreases |b|
  {
    if i > 0 { ReversedAt(b[1..], i - 1); }
  }

  // ------------------------------------------------------------------------- reading

  /** An integer in any of its formats, not only the shortest, is read. */
  lemma ReadInt(b: Bytes, p: nat, e: Bytes, n: int)
    requires IntFormat(e, n) && At(b, p, e)
    ensures Dec(b, p) == Some((Int(n), p + |e|))
  {
    assert e == [e[0]] + e[1..];
    TypeAt(b, p, e[0], e[1..]);
    TakeAt(b, p + 1, e[1..]);
    if |e| > 1 {
      SignIs(e[1..]);
      Widths();
      Halves();
      SignedIs(e[1..]);
    }
    hide At, Take, FromBe, Pow256;
  }

  lemma SignedIs(b: Bytes)
    requires b != []
    ensures Signed(FromBe(b), 128 * Pow256(|b| - 1)) == Number(b, true)
  {
    SignIs(b);
  }

  /** So is a string with its length in any format, and a single or double float. */
  lemma ReadStr(b: Bytes, p: nat, e: Bytes, s: Bytes)
    requires LengthFormat(e, 0xa0, 32, 0xda, |s|) && At(b, p, e + s)
    ensures Dec(b, p) == Some((Str(s), p + |e| + |s|))
  {
    AtParts(b, p, e, s);
    assert e == [e[0]] + e[1..];
    TypeAt(b, p, e[0], e[1..]);
    TakeAt(b, p + 1, e[1..]);
    TakeAt(b, p + |e|, s);
    hide At, Take, FromBe, Pow256;
  }

  lemma ReadFloat(b: Bytes, p: nat, bits: Bytes)
    requires (|bits| == 4 && At(b, p, [0xca] + Reversed(bits))) || (|bits| == 8 && At(b, p, [0xcb] + Reversed(bits)))
    ensures Dec(b, p) == Some((Float(bits), p + 1 + |bits|))
  {
    ReversedTwice(bits);
    TypeAt(b, p, if |bits| == 4 then 0xca else 0xcb, Reversed(bits));
    TakeAt(b, p + 1, Reversed(bits));
    hide At, Take, Reversed;
  }
}
