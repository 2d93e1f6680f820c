/** Fragmentation of messages into UDP packets (lua_udp.cpp). */
module UdpPackets {
  import opened Wrappers
  import opened ByteStrings

  /** Largest body of a packet, and the lengths of the uuid and of the whole header. */
  const BODY := 1462
  const UUID := 5
  const HEADER := 10

  // --------------------------------------------------------------------- the checksum

  function XorBits(a: nat, b: nat): nat {
    if a == 0 && b == 0 then 0 else 2 * XorBits(a / 2, b / 2) + (a + b) % 2
  }

  lemma {:induction false} XorBound(a: nat, b: nat, k: nat)
    requires a < Pow2(k) && b < Pow2(k)
    ensures XorBits(a, b) < Pow2(k)
    decreases k
  {
    if k > 0 { XorBound(a / 2, b / 2, k - 1); }
  }

  function Pow2(k: nat): nat { if k == 0 then 1 else 2 * Pow2(k - 1) }

  function Xor(a: Byte, b: Byte): Byte {
    assert Pow2(8) == 256 by { assert Pow2(3) == 8 && Pow2(6) == 64; }
    XorBound(a as int, b as int, 8);
    XorBits(a as int, b as int) as Byte
  }

  lemma {:induction false} XorInjective(a: nat, b: nat, c: nat)
    requires XorBits(a, c) == XorBits(b, c)
    ensures a == b
    decreases a + b
  {
    if a != 0 || b != 0 {
      XorParity(a, b, c);
      XorInjective(a / 2, b / 2, c / 2);
    }
  }

  lemma XorParity(a: nat, b: nat, c: nat)
    requires XorBits(a, c) == XorBits(b, c)
    ensures a % 2 == b % 2 && XorBits(a / 2, c / 2) == XorBits(b / 2, c / 2)
  {
    hide XorBits;
    XorHalves(a, c);
    XorHalves(b, c);
    Parity(a, b, c);
  }

  lemma Parity(a: nat, b: nat, c: nat)
    requires (a + c) % 2 == (b + c) % 2
    ensures a % 2 == b % 2
  {
    assert a + c == (a + c) / 2 * 2 + (a + c) % 2 && b + c == (b + c) / 2 * 2 + (b + c) % 2;
  }

  lemma XorHalves(a: nat, c: nat)
    ensures XorBits(a, c) / 2 == XorBits(a / 2, c / 2) && XorBits(a, c) % 2 == (a + c) % 2
  {
  }

  lemma {:induction false} XorCommutes(a: nat, b: nat)
    ensures XorBits(a, b) == XorBits(b, a)
  {
    if a != 0 || b != 0 { XorCommutes(a / 2, b / 2); }
  }

  /** checksum_gen: the exclusive or of the bytes. */
  function Checksum(h: Bytes): Byte {
    if h == [] then 0 else Xor(Checksum(h[..|h| - 1]), h[|h| - 1])
  }

  method ChecksumGen(h: Bytes) returns (sum: Byte)
    requires |h| >= UUID + 4
    ensures sum == Checksum(h[..UUID + 4])
  {
    sum := 0;
    for i := 0 to UUID + 4
      invariant sum == Checksum(h[..i])
    {
      assert h[..i + 1][..i] == h[..i];
      sum := Xor(sum, h[i]);
    }
  }

  /** A header with one byte changed has another checksum. */
  lemma {:induction false} ChangeDetected(h: Bytes, i: nat, b: Byte)
    requires i < |h| && b != h[i]
    ensures Checksum(h[i := b]) != Checksum(h)
    decreases |h|
  {
    var h1, n := h[i := b], |h| - 1;
    if i < n {
      assert h1[..n] == h[..n][i := b];
      ChangeDetected(h[..n], i, b);
      if Checksum(h1) == Checksum(h) { XorInjective(Checksum(h1[..n]) as int, Checksum(h[..n]) as int, h[n] as int); }
    } else {
      assert h1[..n] == h[..n];
      XorCommutes(Checksum(h[..n]) as int, b as int);
      XorCommutes(Checksum(h[..n]) as int, h[n] as int);
      if Checksum(h1) == Checksum(h) { XorInjective(b as int, h[n] as int, Checksum(h[..n]) as int); }
    }
  }

  /** Bit `k` of a number, and how many of some bytes have it. */
  function Bit(x: nat, k: nat): nat { if k == 0 then x % 2 else Bit(x / 2, k - 1) }

  function CountBit(h: Bytes, k: nat): nat {
    if h == [] then 0 else CountBit(h[..|h| - 1], k) + Bit(h[|h| - 1] as nat, k)
  }

  lemma {:induction false} XorBit(a: nat, b: nat, k: nat)
    ensures Bit(XorBits(a, b), k) == (Bit(a, k) + Bit(b, k)) % 2
    decreases k
  {
    hide XorBits;
    XorHalves(a, b);
    if k > 0 { XorBit(a / 2, b / 2, k - 1); } else { Odd(a, b); }
  }

  lemma Odd(a: nat, b: nat)
    ensures (a + b) % 2 == (a % 2 + b % 2) % 2
  {
  }

  lemma {:induction false} ZeroBit(k: nat)
    ensures Bit(0, k) == 0
  {
    if k > 0 { ZeroBit(k - 1); }
  }

  /** A bit of the checksum is set exactly if an odd number of bytes have it. */
  lemma {:induction false} ChecksumBits(h: Bytes, k: nat)
    ensures Bit(Checksum(h) as nat, k) == CountBit(h, k) % 2
    decreases |h|
  {
    if h == [] {
      ZeroBit(k);
    } else {
      var front, last := h[..|h| - 1], h[|h| - 1];
      ChecksumBits(front, k);
      XorBit(Checksum(front) as nat, last as nat, k);
      XorMeans(Checksum(front), last);
      OddSum(CountBit(front, k), Bit(last as nat, k));
    }
  }

  lemma XorMeans(a: Byte, b: Byte)
    ensures Xor(a, b) as nat == XorBits(a as nat, b as nat)
  {
  }

  lemma OddSum(n: nat, b: nat)
    ensures (n % 2 + b) % 2 == (n + b) % 2
  {
  }

  // ----------------------------------------------------------------------- one packet

  /** The header fields, before the checksum. */
  function Fields(uuid: Bytes, order: int, number: int, size: int): (h: Bytes)
    requires |uuid| == UUID && 0 <= size < 65536
    ensures |h| == UUID + 4
  {
    uuid + [(order % 256) as Byte, (number % 256) as Byte, (size % 256) as Byte, (size / 256) as Byte]
  }

  function Packet(uuid: Bytes, order: int, number: int, body: Bytes): (p: Bytes)
    requires |uuid| == UUID && |body| <= BODY
    ensures |p| == HEADER + |body|
  {
    var h := Fields(uuid, order, number, |body|);
    h + [Checksum(h)] + body
  }

  /** Where the parts of a packet are: uuid, order, number, size with its low byte first, checksum,
      body. */
  lemma PacketLayout(uuid: Bytes, order: int, number: int, body: Bytes)
    requires |uuid| == UUID && |body| <= BODY
    ensures var p := Packet(uuid, order, number, body);
      && p[..5] == uuid && (p[5] as int - order) % 256 == 0 && (p[6] as int - number) % 256 == 0
      && p[7] as int + 256 * p[8] as int == |body| && p[9] == Checksum(p[..9]) && p[10..] == body
  {
    var p := Packet(uuid, order, number, body);
    assert p[..9] == Fields(uuid, order, number, |body|);
    ModSame(order);
    ModSame(number);
  }

  lemma ModSame(n: int)
    ensures (n % 256 - n) % 256 == 0
  {
    var q := n / 256;
    assert n == 256 * q + n % 256;
    assert (-q * 256) % 256 == 0;
  }

  /** What the receiver reads from a packet. */
  function UuidOf(p: Bytes): Bytes { if |p| >= UUID then p[..UUID] else [] }
  function OrderOf(p: Bytes): Byte { if |p| > UUID then p[UUID] else 0 }
  function NumberOf(p: Bytes): Byte { if |p| > UUID + 1 then p[UUID + 1] else 0 }
  function SizeOf(p: Bytes): int { if |p| > UUID + 3 then p[UUID + 3] as int * 256 + p[UUID + 2] as int else 0 }
  function BodyOf(p: Bytes): Bytes { if HEADER + SizeOf(p) <= |p| then p[HEADER..HEADER + SizeOf(p)] else [] }

  predicate ChecksumOk(p: Bytes) { |p| >= HEADER && p[UUID + 4] == Checksum(p[..UUID + 4]) }

  /** The receiver does not read beyond the packet. */
  predicate Readable(p: Bytes) { |p| >= HEADER && (ChecksumOk(p) ==> HEADER + SizeOf(p) <= |p|) }

  /** The receiver reads what the sender wrote. */
  lemma PacketRead(uuid: Bytes, order: int, number: int, body: Bytes)
    requires |uuid| == UUID && |body| <= BODY
    ensures var p := Packet(uuid, order, number, body);
      UuidOf(p) == uuid && OrderOf(p) as int == order % 256 && NumberOf(p) as int == number % 256
      && BodyOf(p) == body && ChecksumOk(p) && Readable(p)
  {
    var h := Fields(uuid, order, number, |body|);
    var p := Packet(uuid, order, number, body);
    assert p[..UUID + 4] == h;
    assert p[..UUID] == uuid;
    assert SizeOf(p) == |body|;
    assert p[HEADER..HEADER + |body|] == body;
  }

  // ----------------------------------------------------------------------- a message

  /** The number of packets of a message; it is kept in a byte. */
  function NumPackets(size: nat): nat {
    (size / BODY + if size % BODY > 0 then 1 else 0) % 256
  }

  /** The length of packet `i`: all but the last are full. */
  function PacketLen(size: nat, i: int): nat {
    if i < NumPackets(size) - 1 then BODY else size % BODY
  }

  /** The uuid of a message: the first five bytes, padded with zeros. */
  function PadUuid(uuid: Bytes): (r: Bytes)
    ensures |r| == UUID
  {
    if |uuid| >= UUID then uuid[..UUID] else uuid + seq(UUID - |uuid|, _ => 0)
  }

  lemma SlicesFit(size: nat, i: int)
    requires 0 <= i < NumPackets(size)
    ensures i * BODY + PacketLen(size, i) <= size
  {
    assert NumPackets(size) <= size / BODY + if size % BODY > 0 then 1 else 0;
  }

  function Body(data: Bytes, i: int): (b: Bytes)
    requires 0 <= i < NumPackets(|data|)
    ensures |b| <= BODY
  {
    SlicesFit(|data|, i);
    data[i * BODY..i * BODY + PacketLen(|data|, i)]
  }

  function Fragment(uuid: Bytes, data: Bytes, i: int): Bytes
    requires |uuid| == UUID && 0 <= i < NumPackets(|data|)
  {
    Packet(uuid, i, NumPackets(|data|), Body(data, i))
  }

  /** The packets of a message. */
  function Fragments(uuid: Bytes, data: Bytes): (fs: seq<Bytes>)
    requires |uuid| == UUID
    ensures |fs| == NumPackets(|data|) && forall i :: 0 <= i < |fs| ==> fs[i] == Fragment(uuid, data, i)
  {
    seq(NumPackets(|data|), i requires 0 <= i < NumPackets(|data|) => Fragment(uuid, data, i))
  }

  /** The packets built by lua_udp_send_all. */
  method SendAll(uuid0: Bytes, data: Bytes) returns (packets: seq<Bytes>)
    ensures packets == Fragments(PadUuid(uuid0), data)
  {
    var uuid := PadUuid(uuid0);
    var num := (|data| / BODY) % 256;
    var last := |data| % BODY;
    if last > 0 {
      num := (num + 1) % 256;
    }
    packets := [];
    var at := 0;
    for i := 0 to num
      invariant num == NumPackets(|data|) && at == i * BODY - (if i == num > 0 then BODY - last else 0)
      invariant |packets| == i && forall k :: 0 <= k < i ==> packets[k] == Fragment(uuid, data, k)
    {
      SlicesFit(|data|, i);
      var len := if i < num - 1 then BODY else last;
      var h := Fields(uuid, i, num, len);
      var sum := ChecksumGen(h);
      assert h[..UUID + 4] == h;
      packets := packets + [h + [sum] + data[at..at + len]];
      at := at + len;
    }
  }

  // ------------------------------------------------- when the fragments are the message

  function Concat(bs: seq<Bytes>): Bytes {
    if bs == [] then [] else Concat(bs[..|bs| - 1]) + bs[|bs| - 1]
  }

  function Bodies(data: Bytes, k: nat): (bs: seq<Bytes>)
    requires k <= NumPackets(|data|)
    ensures |bs| == k
  {
    seq(k, i requires 0 <= i < k => Body(data, i))
  }

  /** The bodies of all fragments, in order, are a prefix of the message. */
  lemma {:induction false} BodiesPrefix(data: Bytes, k: nat)
    requires k <= NumPackets(|data|)
    ensures var n := if k == 0 then 0 else (k - 1) * BODY + PacketLen(|data|, k - 1);
      n <= |data| && Concat(Bodies(data, k)) == data[..n]
    decreases k
  {
    if k > 0 {
      BodiesPrefix(data, k - 1);
      SlicesFit(|data|, k - 1);
      assert Bodies(data, k)[..k - 1] == Bodies(data, k - 1);
      var m := (k - 1) * BODY;
      assert data[..m] + data[m..m + PacketLen(|data|, k - 1)] == data[..m + PacketLen(|data|, k - 1)];
    }
  }

  /** Messages that arrive: not empty, not too long for 255 packets, and not a multiple of the
      packet size, whose last packet would be sent with length 0. */
  predicate Deliverable(size: nat) {
    size % BODY != 0 && size < 255 * BODY
  }

  /** The fragments carry the message exactly if it is deliverable. */
  lemma FragmentsCarry(data: Bytes)
    ensures NumPackets(|data|) > 0 && Concat(Bodies(data, NumPackets(|data|))) == data <==> Deliverable(|data|)
  {
    var n := NumPackets(|data|);
    BodiesPrefix(data, n);
    if n > 0 {
      SlicesFit(|data|, n - 1);
      assert data[..|data|] == data;
    }
  }

  /** The smallest message that is lost in transit: exactly one full packet. */
  lemma FullPacketLost(uuid: Bytes, data: Bytes)
    requires |uuid| == UUID && |data| == BODY
    ensures Fragments(uuid, data) == [Packet(uuid, 0, 1, [])]
  {
    assert Body(data, 0) == [];
  }
}
