/** Variable-length integers of the bytecode dump: ULEB128 (section 7.6 of DWARF Version 4) of
    32 bits (lj_strfmt_wuleb128, lj_buf_ruleb128), and of 33 bits with a hand-patched last byte
    (bcwrite_knum, bcread_uleb128_33). */
module Leb128 {
  import opened ByteStrings

  const WORD := 0x1_0000_0000

  /** The lowest seven bits, and the rest. */
  function Lo(v: nat): (r: nat)
    ensures r < 128
  {
    v % 128
  }

  function Hi(v: nat): (r: nat)
    ensures v >= 128 ==> 1 <= r < v
    ensures v < 128 ==> r == 0
    ensures v == Lo(v) + 128 * r
  {
    v / 128
  }

  /** Seven bits per byte, lowest first; all bytes but the last have the high bit set. */
  function Uleb(v: nat): (e: Bytes)
    ensures |e| >= 1
  {
    if v < 128 then [v as Byte] else [(Lo(v) + 128) as Byte] + Uleb(Hi(v))
  }

  /** The number that ULEB128 digits stand for. */
  function FromUleb(e: Bytes): nat {
    if e == [] then 0 else e[0] as nat % 128 + 128 * FromUleb(e[1..])
  }

  /** The digits stand for the number; the high bit says of each whether more follow. */
  lemma {:induction false} UlebIs(v: nat)
    ensures FromUleb(Uleb(v)) == v
    ensures forall i :: 0 <= i < |Uleb(v)| ==> (Uleb(v)[i] >= 128 <==> i < |Uleb(v)| - 1)
  {
    if v < 128 {
      assert Uleb(v)[1..] == [];
    } else {
      UlebIs(Hi(v));
      assert Uleb(v)[1..] == Uleb(Hi(v));
    }
  }

  /** lj_strfmt_wuleb128 */
  method WriteUleb(v0: nat) returns (e: Bytes)
    ensures e == Uleb(v0)
  {
    hide Lo, Hi;
    var v := v0;
    e := [];
    while v >= 0x80
      invariant e + Uleb(v) == Uleb(v0)
    {
      assert e + Uleb(v) == e + [(Lo(v) + 128) as Byte] + Uleb(Hi(v));
      e := e + [(Lo(v) + 128) as Byte];
      v := Hi(v);
    }
    e := e + [v as Byte];
  }

  /** A digit shifted to its place. */
  function Shifted(x: nat, pow: nat): nat { pow * x }

  /** lj_buf_ruleb128, in 32 bits. */
  method ReadUleb(b: Bytes, p0: nat, ghost v0: nat) returns (v: nat, p: nat)
    requires v0 < WORD && At(b, p0, Uleb(v0))
    ensures v == v0 && p == p0 + |Uleb(v0)|
  {
    UlebAt(b, p0, v0);
    FirstDigit(v0);
    hide Uleb, At, Shifted, Lo, Hi;
    v, p := b[p0] as nat, p0 + 1;
    if v >= 0x80 {
      v := Lo(v);
      var pow: nat, more := 128, true;
      ghost var rest: nat := Hi(v0);
      while more
        invariant v < WORD && pow >= 1
        invariant more ==> At(b, p, Uleb(rest)) && v0 == v + Shifted(rest, pow) && p + |Uleb(rest)| == p0 + |Uleb(v0)|
        invariant !more ==> v == v0 && p == p0 + |Uleb(v0)|
        decreases if more then 1 else 0, rest
      {
        ReadStep(b, p, v0, v, pow, rest);
        var x := b[p] as nat;
        v := Truncated(v + Shifted(Lo(x), pow));
        p, pow, more := p + 1, pow * 128, x >= 0x80;
        rest := Hi(rest);
      }
    }
  }

  /** What remains in 32 bits. */
  function Truncated(v: nat): (r: nat)
    ensures v < WORD ==> r == v
    ensures r < WORD
  {
    v % WORD
  }

  /** The first byte tells the low digit and whether there is more. */
  lemma UlebAt(b: Bytes, p: int, v: nat)
    requires At(b, p, Uleb(v))
    ensures b[p] as int == (if v >= 128 then Lo(v) + 128 else v) && Lo(b[p] as nat) == Lo(v)
    ensures v >= 128 ==> At(b, p + 1, Uleb(Hi(v))) && |Uleb(v)| == 1 + |Uleb(Hi(v))|
    ensures v < 128 ==> |Uleb(v)| == 1
  {
    AtByte(b, p, Uleb(v), 0);
    if v >= 128 { AtParts(b, p, [(Lo(v) + 128) as Byte], Uleb(Hi(v))); }
  }

  lemma FirstDigit(v: nat)
    ensures v == Lo(v) + Shifted(Hi(v), 128)
  {
  }

  /** Reading one more byte. */
  lemma ReadStep(b: Bytes, p: nat, v0: nat, v: nat, pow: nat, rest: nat)
    requires At(b, p, Uleb(rest)) && v0 == v + Shifted(rest, pow) && pow >= 1
    ensures p < |b| && v + Shifted(Lo(b[p] as nat), pow) <= v0
    ensures b[p] as int >= 128 ==> At(b, p + 1, Uleb(Hi(rest))) && |Uleb(rest)| == 1 + |Uleb(Hi(rest))| && Hi(rest) < rest
    ensures b[p] as int >= 128 ==> v0 == (v + Shifted(Lo(b[p] as nat), pow)) + Shifted(Hi(rest), pow * 128)
    ensures b[p] as int < 128 ==> v0 == v + Shifted(Lo(b[p] as nat), pow) && |Uleb(rest)| == 1
  {
    UlebAt(b, p, rest);
    hide Uleb, At;
    AddDigit(pow, rest);
  }

  lemma AddDigit(pow: nat, rest: nat)
    ensures Shifted(rest, pow) == Shifted(Lo(rest), pow) + Shifted(Hi(rest), pow * 128)
  {
    hide Lo, Hi;
    Distribute(pow, Lo(rest), Hi(rest));
  }

  lemma Distribute(pow: nat, x: nat, q: nat)
    ensures Shifted(x + 128 * q, pow) == Shifted(x, pow) + Shifted(q, pow * 128)
  {
    assert pow * (x + 128 * q) == pow * x + pow * (128 * q);
    assert pow * (128 * q) == pow * 128 * q;
  }

  // ---------------------------------------------------------------- 33-bit values

  /** `k` shifted left in 32 bits, with the top bit of `k` kept. */
  function Squeezed(k: nat): nat {
    if k >= 0x8000_0000 && 2 * k % WORD < 0x8000_0000 then 2 * k % WORD + 0x8000_0000 else 2 * k % WORD
  }

  /** The last byte with the top two bits of `k` put where the 33 bits end. */
  function Patched(last: Byte, k: nat): Byte
    requires k < WORD
  {
    (last as int % 8 + (k / 0x4000_0000) * 8) as Byte
  }

  /** The 33-bit writer: `k` shifted left by one, with the tag in the lowest bit. The plain
      writer only takes 32 bits, so the last byte is patched if the top bit of `k` is set. */
  method WriteUleb33(k: nat, tag: nat) returns (e: Bytes)
    requires k < WORD && tag <= 1
    ensures e == Uleb(2 * k + tag)
  {
    hide Uleb, Squeezed, Patched;
    e := WriteUleb(Squeezed(k) + tag);
    if k >= 0x8000_0000 {
      PatchedUleb(k, tag);
      e := e[|e| - 1 := Patched(e[|e| - 1], k)];
    } else {
      SmallSqueezed(k);
    }
  }

  lemma SmallSqueezed(k: nat)
    requires k < 0x8000_0000
    ensures Squeezed(k) == 2 * k
  {
  }

  /** The digits of a number with five of them. */
  lemma FiveDigits(v: nat, v1: nat, v2: nat, v3: nat, v4: nat)
    requires v1 == Hi(v) && v2 == Hi(v1) && v3 == Hi(v2) && v4 == Hi(v3) && 1 <= v4 < 128
    ensures Uleb(v) == [(Lo(v) + 128) as Byte, (Lo(v1) + 128) as Byte, (Lo(v2) + 128) as Byte, (Lo(v3) + 128) as Byte, v4 as Byte]
  {
    hide Lo, Hi;
    assert Uleb(v4) == [v4 as Byte];
    assert Uleb(v3) == [(Lo(v3) + 128) as Byte] + Uleb(v4);
    assert Uleb(v2) == [(Lo(v2) + 128) as Byte] + Uleb(v3);
    assert Uleb(v1) == [(Lo(v1) + 128) as Byte] + Uleb(v2);
  }

  lemma HiShifted(a: nat, m: nat, c: nat)
    requires c == a + 128 * m
    ensures Hi(c) == Hi(a) + m && Lo(c) == Lo(a)
  {
  }

  /** Squeezing loses a multiple of 2^31, which the patch puts back. */
  lemma SqueezedLoses(k: nat) returns (j: nat)
    requires 0x8000_0000 <= k < WORD
    ensures 2 * k == Squeezed(k) + j * 0x8000_0000 && k / 0x4000_0000 == j + 1 && 1 <= j <= 2
    ensures 0x8000_0000 <= Squeezed(k) < WORD - 1
  {
    j := if 2 * k % WORD < 0x8000_0000 then 1 else 2;
  }

  lemma PatchedUleb(k: nat, tag: nat)
    requires 0x8000_0000 <= k < WORD && tag <= 1
    ensures var e := Uleb(Squeezed(k) + tag);
      Uleb(2 * k + tag) == e[|e| - 1 := Patched(e[|e| - 1], k)]
  {
    var j := SqueezedLoses(k);
    hide Squeezed, Lo, Hi, Uleb;
    var a, c := Squeezed(k) + tag, 2 * k + tag;
    var a1, c1 := Hi(a), Hi(c);
    var a2, c2 := Hi(a1), Hi(c1);
    var a3, c3 := Hi(a2), Hi(c2);
    var a4, c4 := Hi(a3), Hi(c3);
    HiShifted(a, j * 0x100_0000, c);
    HiShifted(a1, j * 0x2_0000, c1);
    HiShifted(a2, j * 0x400, c2);
    HiShifted(a3, j * 8, c3);
    assert c4 == a4 + j * 8 && 8 <= a4 < 16;
    FiveDigits(a, a1, a2, a3, a4);
    FiveDigits(c, c1, c2, c3, c4);
    assert Patched(a4 as Byte, k) == c4 as Byte;
  }

  /** The first seven bits of a 33-bit value, without the tag. */
  function Top(x: nat): nat { x / 2 }

  /** bcread_uleb128_33: the top 32 of the 33 bits. The tag is the lowest bit of the first byte. */
  method ReadUleb33(b: Bytes, p0: nat, ghost k: nat, ghost tag: nat) returns (v: nat, p: nat)
    requires k < WORD && tag <= 1 && At(b, p0, Uleb(2 * k + tag))
    ensures v == k && p == p0 + |Uleb(2 * k + tag)| && p0 < |b| && b[p0] as int % 2 == tag
  {
    ghost var v0 := 2 * k + tag;
    UlebAt(b, p0, v0);
    First33(k, tag, b[p0] as nat);
    hide Uleb, At, Shifted, Lo, Hi, Top, Low6;
    v, p := Top(b[p0] as nat), p0 + 1;
    if v >= 0x40 {
      v := Low6(v);
      var sh: nat, more := 64, true;
      ghost var rest: nat := Hi(v0);
      while more
        invariant v < WORD && sh >= 1
        invariant more ==> At(b, p, Uleb(rest)) && v0 == (2 * v + tag) + Shifted(rest, 2 * sh) && p + |Uleb(rest)| == p0 + |Uleb(v0)|
        invariant !more ==> v == k && p == p0 + |Uleb(v0)|
        decreases if more then 1 else 0, rest
      {
        ReadStep(b, p, v0, 2 * v + tag, 2 * sh, rest);
        var x := b[p] as nat;
        Doubled(sh, Lo(x));
        assert 2 * sh * 128 == 2 * (sh * 128);
        v := Truncated(v + Shifted(Lo(x), sh));
        p, sh, more := p + 1, sh * 128, x >= 0x80;
        rest := Hi(rest);
      }
    }
  }

  function Low6(x: nat): nat { x % 64 }

  lemma Doubled(sh: nat, x: nat)
    ensures Shifted(x, 2 * sh) == 2 * Shifted(x, sh)
  {
  }

  lemma First33(k: nat, tag: nat, x: nat)
    requires tag <= 1 && x == if 2 * k + tag >= 128 then Lo(2 * k + tag) + 128 else 2 * k + tag
    ensures x % 2 == tag && (Top(x) >= 64 <==> 2 * k + tag >= 128)
    ensures if Top(x) >= 64 then 2 * k + tag == (2 * Low6(Top(x)) + tag) + Shifted(Hi(2 * k + tag), 2 * 64) else Top(x) == k
    ensures Low6(Top(x)) < WORD
  {
    var v0 := 2 * k + tag;
    var l, h := Lo(v0), Hi(v0);
    Halves(k, tag, l, h);
  }

  lemma Halves(k: nat, tag: nat, l: nat, h: nat)
    requires tag <= 1 && 2 * k + tag == l + 128 * h && l < 128
    ensures l == 2 * (l / 2) + tag && (l + 128) / 2 % 64 == l / 2 && (l + 128) % 2 == tag
  {
    var m := k - 64 * h;
    assert l == 2 * m + tag;
  }

  // ------------------------------------------------------------- the length prefix

  /** lj_fls: the position of the highest bit. */
  function Fls(n: nat): nat
    requires n > 0
  {
    if n == 1 then 0 else 1 + Fls(n / 2)
  }

  function Pow2(k: nat): (r: nat)
    ensures r >= 1
  {
    if k == 0 then 1 else 2 * Pow2(k - 1)
  }

  lemma {:induction false} FlsBounds(n: nat)
    requires n > 0
    ensures Pow2(Fls(n)) <= n < 2 * Pow2(Fls(n))
    decreases n
  {
    if n > 1 { FlsBounds(n / 2); }
  }

  /** Dividing by 128 takes seven bits away. */
  lemma FlsSeven(n: nat)
    requires n >= 128
    ensures Fls(n) == 7 + Fls(Hi(n))
  {
    assert n / 2 / 2 / 2 / 2 / 2 / 2 / 2 == n / 128;
    assert Fls(n) == 1 + Fls(n / 2);
    assert Fls(n / 2) == 1 + Fls(n / 2 / 2);
    assert Fls(n / 2 / 2) == 1 + Fls(n / 2 / 2 / 2);
    assert Fls(n / 2 / 2 / 2) == 1 + Fls(n / 2 / 2 / 2 / 2);
    assert Fls(n / 2 / 2 / 2 / 2) == 1 + Fls(n / 2 / 2 / 2 / 2 / 2);
    assert Fls(n / 2 / 2 / 2 / 2 / 2) == 1 + Fls(n / 2 / 2 / 2 / 2 / 2 / 2);
    assert Fls(n / 2 / 2 / 2 / 2 / 2 / 2) == 1 + Fls(n / 2 / 2 / 2 / 2 / 2 / 2 / 2);
  }

  lemma {:induction false} UlebLength(n: nat)
    requires n > 0
    ensures |Uleb(n)| == Fls(n) / 7 + 1
    decreases n
  {
    if n >= 128 {
      FlsSeven(n);
      UlebLength(Hi(n));
    } else {
      SmallFls(n);
    }
  }

  lemma SmallFls(n: nat)
    requires 0 < n < 128
    ensures Fls(n) < 7
  {
    FlsBounds(n);
    Pow2Values();
    if Fls(n) >= 7 { Pow2Grows(7, Fls(n)); }
  }

  lemma Pow2Values()
    ensures Pow2(7) == 128 && Pow2(32) == WORD
  {
    assert Pow2(4) == 16 && Pow2(8) == 256 && Pow2(12) == 4096 && Pow2(16) == 65536 && Pow2(20) == 0x10_0000;
    assert Pow2(24) == 0x100_0000 && Pow2(28) == 0x1000_0000;
  }

  lemma {:induction false} Pow2Grows(j: nat, k: nat)
    requires j <= k
    ensures Pow2(j) <= Pow2(k)
    decreases k
  {
    if j < k { Pow2Grows(j, k - 1); }
  }

  /** The prefix computed from the highest bit is as long as the ULEB128 of the length, so the
      prefix ends where the five bytes left for it end. */
  lemma PrefixLength(n: nat)
    requires 0 < n < WORD
    ensures (Fls(n) + 8) * 9 / 64 == |Uleb(n)| <= 5
  {
    UlebLength(n);
    FlsBounds(n);
    Pow2Values();
    if Fls(n) >= 32 { Pow2Grows(32, Fls(n)); }
  }
}
