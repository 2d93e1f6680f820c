/** Sizes of the allocator (lj_alloc.c) where size_t has 32 bits: how requests are padded, and in
    which bin a free chunk belongs. */
module AllocSizes {

  const WORD: nat := 0x1_0000_0000
  const MIN_CHUNK: nat := 16
  const MIN_LARGE: nat := 256
  const BINS: nat := 32

  // ----------------------------------------------------------------- powers and prefixes

  function Pow2(n: nat): nat { if n == 0 then 1 else 2 * Pow2(n - 1) }

  /** `s` without its lowest `n` bits. */
  function Shr(s: nat, n: nat): nat
    decreases n
  {
    if n == 0 then s else Shr(s / 2, n - 1)
  }

  /** One bit more. */
  lemma {:induction false} ShrNext(s: nat, n: nat)
    ensures Shr(s, n + 1) == Shr(s, n) / 2 && Shr(s, n) == 2 * Shr(s, n + 1) + Shr(s, n) % 2
    decreases n
  {
    if n > 0 { ShrNext(s / 2, n - 1); }
  }

  /** Prefixes are ordered like the numbers. */
  lemma {:induction false} ShrOrder(s: nat, u: nat, n: nat)
    ensures Shr(s, n) < Shr(u, n) ==> s < u
    ensures s <= u ==> Shr(s, n) <= Shr(u, n)
    decreases n
  {
    if n > 0 { ShrOrder(s / 2, u / 2, n - 1); }
  }

  lemma {:induction false} ShrDouble(s: nat, n: nat)
    ensures Shr(2 * s, n + 1) == Shr(s, n)
  {
    assert 2 * s / 2 == s;
  }

  /** A number is below `k` times a power exactly if its prefix is below `k`. */
  lemma {:induction false} ShrBelow(s: nat, n: nat, k: nat)
    ensures Shr(s, n) < k <==> s < k * Pow2(n)
    decreases n
  {
    if n > 0 {
      ShrBelow(s / 2, n - 1, k);
      assert k * Pow2(n) == 2 * (k * Pow2(n - 1)) by { Twice(k, Pow2(n - 1)); }
    }
  }

  lemma Twice(k: nat, p: nat)
    ensures k * (2 * p) == 2 * (k * p)
  {
  }

  // ------------------------------------------------------------------------------ bins

  predicate IsSmall(s: nat) { s / 8 < BINS }

  /** lj_fls: the index of the highest bit. */
  function Fls(x: nat): (k: nat)
    requires x > 0
    ensures Shr(x, k) == 1
    decreases x
  {
    if x == 1 then 0 else 1 + Fls(x / 2)
  }

  /** compute_tree_index */
  function TreeIndex(s: nat): nat {
    var x := s / 256;
    if x == 0 then 0
    else if x > 0xFFFF then BINS - 1
    else 2 * Fls(x) + Shr(s, Fls(x) + 7) % 2
  }

  /** How many low bits the sizes in a bin may differ in. */
  function Height(i: nat): nat { if i == BINS - 1 then 32 else i / 2 + 7 }

  /** The bits above, which they share. */
  function Prefix(i: nat): nat { if i == BINS - 1 then 0 else 2 + i % 2 }

  lemma {:induction false} ShrAdd(s: nat, m: nat, n: nat)
    ensures Shr(s, m + n) == Shr(Shr(s, m), n)
    decreases m
  {
    if m > 0 { ShrAdd(s / 2, m - 1, n); }
  }

  lemma Shr8(s: nat)
    ensures Shr(s, 8) == s / 256
  {
    var a := s / 2; var b := a / 2; var c := b / 2; var d := c / 2; var e := d / 2; var f := e / 2; var g := f / 2; var h := g / 2;
    assert Shr(s, 8) == Shr(a, 7) == Shr(b, 6) == Shr(c, 5) == Shr(d, 4) == Shr(e, 3) == Shr(f, 2) == Shr(g, 1) == Shr(h, 0) == h;
  }

  lemma {:induction false} FlsBound(x: nat, n: nat)
    requires 0 < x && Shr(x, n) == 0
    ensures Fls(x) < n
    decreases n
  {
    if n > 0 && x > 1 { FlsBound(x / 2, n - 1); }
  }

  lemma Shr16(x: nat)
    requires x <= 0xFFFF
    ensures Shr(x, 16) == 0
  {
    Shr8(x);
    Shr8(x / 256);
    ShrAdd(x, 8, 8);
  }

  /** The sizes of a bin share their prefix. */
  lemma SharedPrefix(s: nat)
    requires 256 <= s < WORD
    ensures TreeIndex(s) < BINS && Shr(s, Height(TreeIndex(s))) == Prefix(TreeIndex(s))
  {
    hide Shr, Fls;
    var x := s / 256;
    Shr8(s);
    if x > 0xFFFF {
      Shr32(s);
    } else {
      Shr16(x);
      FlsBound(x, 16);
      var k := Fls(x);
      ShrAdd(s, 8, k);
      ShrNext(s, k + 7);
      Shr32(s);
    }
  }

  lemma Shr32(s: nat)
    requires s < WORD
    ensures Shr(s, 32) == 0
  {
    ShrAdd(s, 16, 16);
    Shr8(s);
    ShrAdd(s, 8, 8);
    Shr8(s / 256);
    Shr16(s / 256 / 256);
  }

  lemma {:induction false} FlsOrder(x: nat, y: nat)
    requires 0 < x <= y
    ensures Fls(x) <= Fls(y)
    decreases x
  {
    if x > 1 { FlsOrder(x / 2, y / 2); }
  }

  /** A higher bin holds larger sizes. */
  lemma TreeIndexOrder(s: nat, u: nat)
    requires 256 <= s < WORD && 256 <= u < WORD && TreeIndex(s) < TreeIndex(u)
    ensures s < u
  {
    hide Shr, Fls;
    if u <= s {
      var x, y := u / 256, s / 256;
      assert 0 < x <= y;
      FlsOrder(x, y);
      SharedPrefix(s);
      SharedPrefix(u);
      if y <= 0xFFFF {
        var k := Fls(x);
        if Fls(y) == k {
          Shr8(s);
          Shr8(u);
          ShrAdd(s, 8, k);
          ShrAdd(u, 8, k);
          ShrNext(s, k + 7);
          ShrNext(u, k + 7);
          ShrOrder(u, s, k + 7);
        }
      }
    }
  }

  // ---------------------------------------------------------------------- left shifts

  /** `s << n` in a word. */
  function Shl(s: nat, n: nat): (r: nat)
    requires s < WORD
    ensures r < WORD
    decreases n
  {
    if n == 0 then s else Shl(2 * s % WORD, n - 1)
  }

  lemma {:induction false} ShlNext(s: nat, n: nat)
    requires s < WORD
    ensures 2 * Shl(s, n) % WORD == Shl(s, n + 1)
    decreases n
  {
    if n > 0 { ShlNext(2 * s % WORD, n - 1); }
  }

  /** leftshift_for_tree_index: the first bit in which sizes of a bin may differ becomes the sign
      bit. */
  function LeftShift(i: nat): nat
    requires i < BINS
  {
    if i == BINS - 1 then 0 else 31 - (i / 2 + 6)
  }

  lemma {:induction false} ShrPower(t: nat, a: nat, m: nat)
    requires m <= a
    ensures Shr(t + Pow2(a), m) == Shr(t, m) + Pow2(a - m)
    decreases m
  {
    if m > 0 {
      assert (t + Pow2(a)) / 2 == t / 2 + Pow2(a - 1);
      ShrPower(t / 2, a - 1, m - 1);
    }
  }

  lemma Pow32()
    ensures Pow2(32) == WORD
  {
    assert Pow2(8) == 256 by { assert Pow2(4) == 16; assert Pow2(5) == 32; assert Pow2(6) == 64; assert Pow2(7) == 128; }
    assert Pow2(12) == 4096 by { assert Pow2(9) == 512; assert Pow2(10) == 1024; assert Pow2(11) == 2048; }
    assert Pow2(16) == 65536 by { assert Pow2(13) == 8192; assert Pow2(14) == 16384; assert Pow2(15) == 32768; }
    assert Pow2(20) == 0x10_0000 by { assert Pow2(17) == 0x2_0000; assert Pow2(18) == 0x4_0000; assert Pow2(19) == 0x8_0000; }
    assert Pow2(24) == 0x100_0000 by { assert Pow2(21) == 0x20_0000; assert Pow2(22) == 0x40_0000; assert Pow2(23) == 0x80_0000; }
    assert Pow2(28) == 0x1000_0000 by { assert Pow2(25) == 0x200_0000; assert Pow2(26) == 0x400_0000; assert Pow2(27) == 0x800_0000; }
    assert Pow2(29) == 0x2000_0000;
    assert Pow2(30) == 0x4000_0000;
    assert Pow2(31) == 0x8000_0000;
  }

  lemma SignBitNow(s: nat)
    requires s < WORD
    ensures s / 0x8000_0000 == Shr(s, 31) % 2
  {
    hide Shr, Pow2;
    ShrNext(s, 31);
    Shr32(s);
    ShrBelow(s, 31, 1);
    Pow31();
  }

  lemma Pow31()
    ensures Pow2(31) == 0x8000_0000
  {
    Pow32();
    assert Pow2(32) == 2 * Pow2(31);
  }

  lemma ParityPower(u: nat, n: nat)
    requires 0 < n <= 31
    ensures Shr(u + WORD, 32 - n) % 2 == Shr(u, 32 - n) % 2
  {
    hide Shr;
    Pow32();
    ShrPower(u, 32, 32 - n);
    assert Pow2(n) == 2 * Pow2(n - 1);
  }

  /** A bit that falls out of the word does not matter. */
  lemma ShlParity(s: nat, n: nat)
    requires s < WORD && 0 < n <= 31
    ensures Shr(2 * s % WORD, 32 - n) % 2 == Shr(s, 31 - n) % 2
  {
    hide Shr;
    var u := 2 * s % WORD;
    ShrDouble(s, 31 - n);
    ParityPower(u, n);
    assert u == 2 * s || u + WORD == 2 * s;
  }

  /** The sign bit of a shifted size is the bit the trie asks for. */
  lemma {:induction false} SignBit(s: nat, n: nat)
    requires s < WORD && n <= 31
    ensures Shl(s, n) / 0x8000_0000 == Shr(s, 31 - n) % 2
    decreases n
  {
    hide Shr;
    if n == 0 {
      SignBitNow(s);
    } else {
      SignBit(2 * s % WORD, n - 1);
      ShlParity(s, n);
    }
  }

  // --------------------------------------------------------------------------- requests

  /** pad_request */
  function PadRequest(req: nat): nat { (req + 4 + 7) / 8 * 8 }

  /** request2size */
  function RequestSize(req: nat): (s: nat)
    ensures s % 8 == 0 && s >= MIN_CHUNK && s >= req + 4
  {
    if req < 11 then MIN_CHUNK else PadRequest(req)
  }

  const MAX_SMALL_REQUEST: nat := 244
  const MAX_REQUEST: nat := WORD - 4 * MIN_CHUNK
}
