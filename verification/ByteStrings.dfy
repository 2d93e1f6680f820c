/** Bytes and byte strings, shared by the models of binary formats. */
module ByteStrings {

  newtype Byte = x: int | 0 <= x < 256

  type Bytes = seq<Byte>

  /** The bytes `e` are in `b` from `p` on. */
  predicate At(b: Bytes, p: int, e: Bytes) {
    0 <= p && p + |e| <= |b| && b[p..p + |e|] == e
  }

  /** A part of what is there. */
  lemma AtParts(b: Bytes, p: int, e: Bytes, f: Bytes)
    requires At(b, p, e + f)
    ensures At(b, p, e) && At(b, p + |e|, f)
  {
    assert b[p..p + |e|] == (e + f)[..|e|] == e;
    assert b[p + |e|..p + |e| + |f|] == (e + f)[|e|..] == f;
  }

  lemma AtByte(b: Bytes, p: int, e: Bytes, i: nat)
    requires At(b, p, e) && i < |e|
    ensures b[p + i] == e[i]
  {
    assert b[p + i] == b[p..p + |e|][i];
  }
}
