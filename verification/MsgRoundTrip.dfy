/** Decoding what was encoded gives the value back, whatever follows. */
module MsgRoundTrip {
  import opened Wrappers
  import opened ByteStrings
  import opened MsgFormat

  // -------------------------------------------------------------------------- numbers

  function Pow256(n: nat): nat { if n == 0 then 1 else 256 * Pow256(n - 1) }

  lemma Widths()
    ensures Pow256(1) == 256 && Pow256(2) == 65536 && Pow256(4) == TWO32 && Pow256(8) == TWO64
  {
    assert Pow256(3) == 256 * Pow256(2);
    assert Pow256(4) == 256 * Pow256(3);
    assert Pow256(5) == 256 * Pow256(4);
    assert Pow256(6) == 256 * Pow256(5);
    assert Pow256(7) == 256 * Pow256(6);
    assert Pow256(8) == 256 * Pow256(7);
  }

  /** Bytes in network order and back. */
  lemma {:induction false} BeRound(v: nat, n: nat)
    requires v < Pow256(n)
    ensures FromBe(Be(v, n)) == v
  {
    if n > 0 {
      assert v / 256 < Pow256(n - 1);
      BeRound(v / 256, n - 1);
      assert Be(v, n)[..n - 1] == Be(v / 256, n - 1);
    }
  }

  lemma {:induction false} ReversedConcat(a: Bytes, b: Bytes)
    ensures Reversed(a + b) == Reversed(b) + Reversed(a)
    decreases |a|
  {
    if a == [] {
      assert a + b == b;
    } else {
      assert (a + b)[1..] == a[1..] + b;
      ReversedConcat(a[1..], b);
    }
  }

  /** Reversing twice, once on each side, keeps the bytes of a double. */
  lemma {:induction false} ReversedTwice(b: Bytes)
    ensures Reversed(Reversed(b)) == b
    decreases |b|
  {
    if b != [] {
      ReversedConcat(Reversed(b[1..]), [b[0]]);
      ReversedTwice(b[1..]);
      assert [b[0]][1..] == [];
      assert Reversed([b[0]]) == [b[0]];
    }
  }

  lemma TakeAt(b: Bytes, p: nat, e: Bytes)
    requires At(b, p, e)
    ensures Take(b, p, |e|) == Some(e)
  {
  }

  /** A type byte and what is behind it. */
  lemma TypeAt(b: Bytes, p: nat, t: Byte, e: Bytes)
    requires At(b, p, [t] + e)
    ensures p < |b| && b[p] == t && At(b, p + 1, e)
  {
    AtParts(b, p, [t], e);
    AtByte(b, p, [t] + e, 0);
  }

  // --------------------------------------------------------------------------- leaves

  lemma IntRound(b: Bytes, p: nat, n: int)
    requires -TWO63 <= n < TWO63 && At(b, p, IntHead(n))
    ensures Dec(b, p) == Some((Int(n), p + |IntHead(n)|))
  {
    hide At, Take, FromBe, Be;
    Widths();
    if n < -32 || n >= 128 {
      var t, w, m := IntParts(n);
      BeRound(m, w);
      TypeAt(b, p, t, Be(m, w));
      TakeAt(b, p + 1, Be(m, w));
    } else {
      var none: Bytes := [];
      assert IntHead(n) + none == IntHead(n);
      TypeAt(b, p, IntHead(n)[0], []);
    }
  }

  /** Type byte, width and bytes of a long integer. */
  lemma IntParts(n: int) returns (t: Byte, w: nat, m: nat)
    requires -TWO63 <= n < TWO63 && (n < -32 || n >= 128)
    ensures IntHead(n) == [t] + Be(m, w) && m < Pow256(w)
    ensures n >= 128 ==> m == n && ((t == 0xcc && w == 1) || (t == 0xcd && w == 2) || (t == 0xce && w == 4) || (t == 0xcf && w == 8))
    ensures n < -32 ==> Signed(m, Pow256(w) / 2) == n
    ensures n < -32 ==> (t == 0xd0 && w == 1) || (t == 0xd1 && w == 2) || (t == 0xd2 && w == 4) || (t == 0xd3 && w == 8)
  {
    hide Be, Pow256;
    Widths();
    if n >= 128 {
      m := n;
      if n < 256 { t, w := 0xcc, 1; } else if n < 65536 { t, w := 0xcd, 2; } else if n < TWO32 { t, w := 0xce, 4; } else { t, w := 0xcf, 8; }
    } else if n >= -128 {
      t, w, m := 0xd0, 1, 256 + n;
    } else if n >= -32768 {
      t, w, m := 0xd1, 2, 65536 + n;
    } else if n >= -TWO31 {
      t, w, m := 0xd2, 4, TWO32 + n;
    } else {
      t, w, m := 0xd3, 8, TWO64 + n;
    }
  }

  lemma StrRound(b: Bytes, p: nat, s: Bytes)
    requires |s| < MAX_STR && At(b, p, StrHead(|s|) + s)
    ensures Dec(b, p) == Some((Str(s), p + |StrHead(|s|) + s|))
  {
    hide At, Take, FromBe, Be;
    Widths();
    var n := |s|;
    AtParts(b, p, StrHead(n), s);
    TakeAt(b, p + |StrHead(n)|, s);
    if n < 32 {
      var none: Bytes := [];
      assert StrHead(n) + none == StrHead(n);
      TypeAt(b, p, StrHead(n)[0], []);
    } else {
      var w := if n < 65536 then 2 else 4;
      BeRound(n, w);
      TypeAt(b, p, StrHead(n)[0], Be(n, w));
      TakeAt(b, p + 1, Be(n, w));
    }
  }

  lemma FloatRound(b: Bytes, p: nat, bits: Bytes)
    requires |bits| == 8 && At(b, p, [0xcb] + Reversed(bits))
    ensures Dec(b, p) == Some((Float(bits), p + 9))
  {
    hide At, Take, Reversed;
    ReversedTwice(bits);
    TypeAt(b, p, 0xcb, Reversed(bits));
    TakeAt(b, p + 1, Reversed(bits));
  }

  lemma LeafRound(b: Bytes, p: nat, v: Value)
    requires ValidHere(v) && !v.Table? && !v.Other? && (v.Str? ==> |v.s| < MAX_STR) && At(b, p, Head(v))
    ensures Dec(b, p) == Some((v, p + |Head(v)|))
  {
    hide IntHead, StrHead, Reversed, At, Dec;
    match v {
      case Int(n) => IntRound(b, p, n);
      case Float(bits) => FloatRound(b, p, bits);
      case Str(s) => StrRound(b, p, s);
      case _ => ConstRound(b, p, v);
    }
  }

  lemma ConstRound(b: Bytes, p: nat, v: Value)
    requires (v.Nil? || v.Bool?) && At(b, p, Head(v))
    ensures Dec(b, p) == Some((v, p + |Head(v)|))
  {
    hide At;
    var none: Bytes := [];
    assert Head(v) + none == Head(v);
    TypeAt(b, p, Head(v)[0], []);
  }

  // --------------------------------------------------------------------------- tables

  /** The head of a table announces how many values follow. */
  lemma TableHead(b: Bytes, p: nat, v: Value)
    requires ValidHere(v) && v.Table? && At(b, p, Head(v))
    ensures p + |Head(v)| <= |b|
    ensures Dec(b, p) == DecTable(b, p + |Head(v)|, if v.arr != [] then |v.arr| else |v.hash|, v.arr == [])
  {
    Inside(b, p, Head(v));
    hide At, Take, FromBe, Be, DecTable;
    Widths();
    var n := if v.arr != [] then |v.arr| else |v.hash|;
    if n < 16 {
      var none: Bytes := [];
      assert Head(v) + none == Head(v);
      TypeAt(b, p, Head(v)[0], []);
    } else {
      var w := if n < 65536 then 2 else 4;
      BeRound(n, w);
      assert Head(v) == [Head(v)[0]] + Be(n, w);
      TypeAt(b, p, Head(v)[0], Be(n, w));
      TakeAt(b, p + 1, Be(n, w));
    }
  }

  lemma Inside(b: Bytes, p: nat, e: Bytes)
    requires At(b, p, e)
    ensures p + |e| <= |b|
  {
  }

  /** Unpacking what was packed gives the value and takes exactly its bytes, whatever follows. */
  lemma {:induction false} RoundTrip(b: Bytes, p: nat, v: Value)
    requires Valid(v) && Packable(v) && At(b, p, Enc(v))
    ensures Dec(b, p) == Some((Normal(v), p + |Enc(v)|))
    decreases v, NumKids(v) + 1
  {
    hide Dec, DecTable, Head, At, EncKids, NormalKids, Paired, ValidHere, Normal, PackableKids, ValidKids, KeysNew;
    AtParts(b, p, Head(v), EncKids(v, 0));
    Inside(b, p, Enc(v));
    NormalIs(v);
    if v.Table? {
      TableHead(b, p, v);
      var q := p + |Head(v)|;
      if v.arr != [] {
        ArrayRound(b, q, v, 0);
        TableOf(b, q, |v.arr|, NormalKids(v, 0), [], q + |EncKids(v, 0)|, false);
      } else {
        NoneNew(v);
        MapRound(b, q, v, 0, []);
        assert [] + Paired(NormalKids(v, 0)) == Paired(NormalKids(v, 0));
        TableOf(b, q, |v.hash|, [], Paired(NormalKids(v, 0)), q + |EncKids(v, 0)|, true);
      }
    } else {
      LeafRound(b, p, v);
      NoKids(v);
    }
  }

  lemma NormalIs(v: Value)
    ensures !v.Table? ==> Normal(v) == v
    ensures v.Table? && v.arr != [] ==> Normal(v) == Table(NormalKids(v, 0), [])
    ensures v.Table? && v.arr == [] ==> Normal(v) == Table([], Paired(NormalKids(v, 0)))
  {
  }

  lemma NoneNew(v: Value)
    requires v.Table?
    ensures KeysNew(v, 0, [])
  {
  }

  lemma TableOf(b: Bytes, q: nat, n: nat, vs: seq<Value>, ps: seq<Pair>, r: nat, isMap: bool)
    requires q <= |b|
    ensures !isMap && DecArray(b, q, n) == Some((vs, r)) ==> DecTable(b, q, n, isMap) == Some((Table(vs, []), r))
    ensures isMap && DecMap(b, q, n, []) == Some((ps, r)) ==> DecTable(b, q, n, isMap) == Some((Table([], ps), r))
  {
    hide DecArray, DecMap;
  }

  lemma NoKids(v: Value)
    requires Valid(v) && NumKids(v) == 0
    ensures EncKids(v, 0) == []
  {
  }

  lemma {:induction false} ArrayRound(b: Bytes, p: nat, v: Value, i: nat)
    requires v.Table? && v.arr != [] && i <= NumKids(v) && ValidKids(v, i) && PackableKids(v, i) && At(b, p, EncKids(v, i))
    requires p <= |b|
    ensures DecArray(b, p, |v.arr| - i) == Some((NormalKids(v, i), p + |EncKids(v, i)|))
    decreases v, NumKids(v) - i
  {
    hide Dec, At, Enc, Normal;
    if i < NumKids(v) {
      AtParts(b, p, Enc(Kid(v, i)), EncKids(v, i + 1));
      RoundTrip(b, p, Kid(v, i));
      ArrayRound(b, p + |Enc(Kid(v, i))|, v, i + 1);
    }
  }

  /** No pair with this key. */
  predicate Absent(ps: seq<Pair>, k: Value) {
    forall i :: 0 <= i < |ps| ==> !SameKey(ps[i].key, k)
  }

  lemma {:induction false} AbsentWithout(ps: seq<Pair>, k: Value)
    requires Absent(ps, k)
    ensures Without(ps, k) == ps
    decreases |ps|
  {
    if ps != [] {
      assert ps == [ps[0]] + ps[1..];
      AbsentWithout(ps[1..], k);
    }
  }

  /** None of the keys still to come is there. */
  predicate KeysNew(v: Value, i: nat, ps: seq<Pair>)
    requires v.Table?
  {
    forall j :: i <= j < |v.hash| ==> Absent(ps, Normal(v.hash[j].key))
  }

  lemma KeysStayNew(v: Value, i: nat, ps: seq<Pair>, val: Value)
    requires ValidHere(v) && v.Table? && i < |v.hash| && KeysNew(v, i, ps)
    ensures KeysNew(v, i + 1, ps + [Pair(Normal(v.hash[i].key), val)])
  {
    hide NormalKids, Paired;
    forall j | i + 1 <= j < |v.hash|
      ensures Absent(ps + [Pair(Normal(v.hash[i].key), val)], Normal(v.hash[j].key))
    {
      assert Absent(ps, Normal(v.hash[j].key));
      assert !SameKey(v.hash[i].key, v.hash[j].key);
    }
  }

  lemma {:induction false} MapRound(b: Bytes, p: nat, v: Value, i: nat, ps: seq<Pair>)
    requires v.Table? && v.arr == [] && ValidHere(v) && i <= |v.hash| && KeysNew(v, i, ps) && p <= |b|
    requires ValidKids(v, 2 * i) && PackableKids(v, 2 * i) && At(b, p, EncKids(v, 2 * i))
    ensures DecMap(b, p, |v.hash| - i, ps) == Some((ps + Paired(NormalKids(v, 2 * i)), p + |EncKids(v, 2 * i)|))
    decreases v, NumKids(v) - 2 * i
  {
    hide Dec, At, Enc, Normal, DecMap, Without, KeysNew, NormalKids, Paired, EncKids, Kid, ValidHere, ValidKids, PackableKids, Valid, Packable;
    assert NumKids(v) == 2 * |v.hash|;
    if i < |v.hash| {
      var k, x := Kid(v, 2 * i), Kid(v, 2 * i + 1);
      TwoKids(v, i);
      var e := EncKids(v, 2 * i + 2);
      AtParts(b, p, Enc(k), Enc(x) + e);
      RoundTrip(b, p, k);
      var q := p + |Enc(k)|;
      AtParts(b, q, Enc(x), e);
      RoundTrip(b, q, x);
      var r := q + |Enc(x)|;
      PairNotNil(v, i);
      KeysNow(v, i, ps);
      AbsentWithout(ps, Normal(k));
      var ps1 := ps + [Pair(Normal(k), Normal(x))];
      KeysStayNew(v, i, ps, Normal(x));
      MapRound(b, r, v, i + 1, ps1);
      MapStep(b, p, |v.hash| - i, ps, Normal(k), q, Normal(x), r);
      assert ps1 + Paired(NormalKids(v, 2 * i + 2)) == ps + ([Pair(Normal(k), Normal(x))] + Paired(NormalKids(v, 2 * i + 2)));
    } else {
      MapEnd(b, p, ps);
      LastKid(v);
      assert ps + [] == ps;
    }
  }

  lemma KeysNow(v: Value, i: nat, ps: seq<Pair>)
    requires v.Table? && i < |v.hash| && KeysNew(v, i, ps)
    ensures Absent(ps, Normal(v.hash[i].key))
  {
  }

  lemma PairNotNil(v: Value, i: nat)
    requires ValidHere(v) && v.Table? && i < |v.hash|
    ensures Normal(v.hash[i].key) != Nil && Normal(v.hash[i].val) != Nil
  {
  }

  lemma LastKid(v: Value)
    requires ValidKids(v, NumKids(v))
    ensures EncKids(v, NumKids(v)) == [] && Paired(NormalKids(v, NumKids(v))) == []
  {
  }

  lemma MapEnd(b: Bytes, p: nat, ps: seq<Pair>)
    requires p <= |b|
    ensures DecMap(b, p, 0, ps) == Some((ps, p))
  {
  }

  lemma MapStep(b: Bytes, p: nat, n: nat, ps: seq<Pair>, k: Value, q: nat, x: Value, r: nat)
    requires n > 0 && p <= |b| && Dec(b, p) == Some((k, q)) && Dec(b, q) == Some((x, r))
    requires k != Nil && x != Nil && Without(ps, k) == ps
    ensures r <= |b| && DecMap(b, p, n, ps) == DecMap(b, r, n - 1, ps + [Pair(k, x)])
  {
    hide Dec;
  }

  /** A pair of a map: its key, then its value. */
  lemma TwoKids(v: Value, i: nat)
    requires v.Table? && v.arr == [] && i < |v.hash| && ValidKids(v, 2 * i) && PackableKids(v, 2 * i)
    ensures var k, x := Kid(v, 2 * i), Kid(v, 2 * i + 1);
      && k == v.hash[i].key && x == v.hash[i].val && Valid(k) && Packable(k) && Valid(x) && Packable(x)
      && ValidKids(v, 2 * i + 2) && PackableKids(v, 2 * i + 2)
      && EncKids(v, 2 * i) == Enc(k) + (Enc(x) + EncKids(v, 2 * i + 2))
      && Paired(NormalKids(v, 2 * i)) == [Pair(Normal(k), Normal(x))] + Paired(NormalKids(v, 2 * i + 2))
  {
    hide Enc, Normal, Valid, Packable, Kid, NormalKids, Paired, EncKids, ValidKids, PackableKids;
    KidPair(v, i);
    OneKid(v, 2 * i);
    OneKid(v, 2 * i + 1);
    PairedTwo(Normal(Kid(v, 2 * i)), Normal(Kid(v, 2 * i + 1)), NormalKids(v, 2 * i + 2));
  }

  lemma KidPair(v: Value, i: nat)
    requires v.Table? && v.arr == [] && i < |v.hash|
    ensures 2 * i + 2 <= NumKids(v) && Kid(v, 2 * i) == v.hash[i].key && Kid(v, 2 * i + 1) == v.hash[i].val
  {
    assert (2 * i + 1) / 2 == i;
  }

  lemma OneKid(v: Value, i: nat)
    requires i < NumKids(v) && ValidKids(v, i) && PackableKids(v, i)
    ensures Valid(Kid(v, i)) && ValidKids(v, i + 1) && Packable(Kid(v, i)) && PackableKids(v, i + 1)
    ensures EncKids(v, i) == Enc(Kid(v, i)) + EncKids(v, i + 1)
    ensures NormalKids(v, i) == [Normal(Kid(v, i))] + NormalKids(v, i + 1)
  {
    hide Enc, Normal, Valid, Packable;
  }

  lemma PairedTwo(k: Value, x: Value, rest: seq<Value>)
    ensures Paired([k] + ([x] + rest)) == [Pair(k, x)] + Paired(rest)
  {
    var ks := [k] + ([x] + rest);
    assert ks[2..] == rest;
  }

  // ---------------------------------------------------------------- nothing lost if plain

  /** Only the pairs beside an array part are lost. */
  lemma {:induction false} PlainNormal(v: Value)
    requires Plain(v)
    ensures Normal(v) == v
    decreases v, NumKids(v) + 1
  {
    if v.Table? {
      PlainKidsNormal(v, 0);
      if v.arr != [] {
        assert NormalKids(v, 0) == v.arr;
      } else {
        PairedKids(v, 0);
        assert v.hash[0..] == v.hash;
      }
    }
  }

  lemma {:induction false} PlainKidsNormal(v: Value, i: nat)
    requires PlainKids(v, i) && i <= NumKids(v)
    ensures forall k :: 0 <= k < NumKids(v) - i ==> NormalKids(v, i)[k] == Kid(v, i + k)
    decreases v, NumKids(v) - i
  {
    hide Normal, Plain;
    if i < NumKids(v) {
      PlainNormal(Kid(v, i));
      PlainKidsNormal(v, i + 1);
    }
  }

  lemma {:induction false} PairedKids(v: Value, i: nat)
    requires v.Table? && v.arr == [] && i <= |v.hash|
    requires forall k :: 0 <= k < NumKids(v) ==> NormalKids(v, 0)[k] == Kid(v, k)
    ensures Paired(NormalKids(v, 0)[2 * i..]) == v.hash[i..]
    decreases |v.hash| - i
  {
    hide NormalKids, Kid, Paired;
    var ks := NormalKids(v, 0);
    assert NumKids(v) == 2 * |v.hash| == |ks|;
    if i < |v.hash| {
      PairedKids(v, i + 1);
      KidPair(v, i);
      assert ks[2 * i..] == [ks[2 * i]] + ([ks[2 * i + 1]] + ks[2 * (i + 1)..]);
      PairedTwo(ks[2 * i], ks[2 * i + 1], ks[2 * (i + 1)..]);
      assert v.hash[i] == Pair(v.hash[i].key, v.hash[i].val);
      assert v.hash[i..] == [v.hash[i]] + v.hash[i + 1..];
    } else {
      PairedNone(ks[2 * i..]);
    }
  }

  lemma PairedNone(ks: seq<Value>)
    requires ks == []
    ensures Paired(ks) == []
  {
  }

  /** And they are lost: the value comes back unchanged only if there are none. */
  lemma {:induction false} OnlyPlainNormal(v: Value)
    requires Normal(v) == v
    ensures Plain(v)
    decreases v, NumKids(v) + 1
  {
    if v.Table? {
      forall k | 0 <= k < NumKids(v)
        ensures NormalKids(v, 0)[k] == Kid(v, k)
      {
        NormalKid(v, 0, k);
        if v.arr == [] { PairedIs(NormalKids(v, 0), k); }
      }
      OnlyPlainKids(v, 0);
    }
  }

  lemma {:induction false} NormalKid(v: Value, i: nat, k: nat)
    requires i + k < NumKids(v)
    ensures NormalKids(v, i)[k] == Normal(Kid(v, i + k))
    decreases NumKids(v) - i
  {
    hide Normal;
    if k > 0 { NormalKid(v, i + 1, k - 1); }
  }

  lemma {:induction false} PairedIs(ks: seq<Value>, k: nat)
    requires k < |ks| && |ks| % 2 == 0
    ensures |Paired(ks)| == |ks| / 2
    ensures ks[k] == if k % 2 == 0 then Paired(ks)[k / 2].key else Paired(ks)[k / 2].val
    decreases |ks|
  {
    if |ks| > 2 {
      if k >= 2 { PairedIs(ks[2..], k - 2); } else { PairedIs(ks[2..], 0); }
    }
  }

  lemma {:induction false} OnlyPlainKids(v: Value, i: nat)
    requires forall k :: 0 <= k < NumKids(v) ==> NormalKids(v, 0)[k] == Kid(v, k)
    ensures PlainKids(v, i)
    decreases v, NumKids(v) - i
  {
    hide Normal, Plain, NormalKids;
    if i < NumKids(v) {
      NormalKid(v, 0, i);
      OnlyPlainNormal(Kid(v, i));
      OnlyPlainKids(v, i + 1);
    }
  }
}
