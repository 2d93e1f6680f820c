/** The receiver of lua_udp.cpp: reassembling messages from packets that arrive in any order,
    repeated, and mixed with those of other messages. */
module UdpReceiver {
  import opened Wrappers
  import opened ByteStrings
  import opened UdpPackets

  const MAX_QUEUE := 12

  /** What is kept of incomplete messages: by uuid, the bodies by order number. */
  type Pending = map<Bytes, map<Byte, Bytes>>

  function BufferOf(p: Pending, u: Bytes): map<Byte, Bytes> {
    if u in p then p[u] else map[]
  }

  /** The bodies 0 to `n - 1`; a missing one counts as empty. */
  function Joined(buf: map<Byte, Bytes>, n: nat): Bytes
    requires n < 256
  {
    if n == 0 then [] else Joined(buf, n - 1) + if (n - 1) as Byte in buf then buf[(n - 1) as Byte] else []
  }

  predicate Has(keys: set<Byte>, i: int) { 0 <= i < 256 && i as Byte in keys }

  /** A body for an order number already there is ignored. */
  function Stored(buf: map<Byte, Bytes>, order: Byte, body: Bytes): map<Byte, Bytes> {
    if order in buf then buf else buf[order := body]
  }

  /** Whether the packet belongs to a message of several packets. */
  predicate IsPart(p: Bytes) { ChecksumOk(p) && NumberOf(p) != 1 }

  /** What a packet adds to the queue: a bad packet is passed on as it is, a single packet
      gives its body, and a part may complete a message. */
  function Emits(st: Pending, p: Bytes): seq<Bytes>
    requires |p| >= HEADER
  {
    if !ChecksumOk(p) then [p]
    else if NumberOf(p) == 1 then [BodyOf(p)]
    else
      var buf := Stored(BufferOf(st, UuidOf(p)), OrderOf(p), BodyOf(p));
      if |buf| == NumberOf(p) as int then [Joined(buf, NumberOf(p) as int)] else []
  }

  function Keeps(st: Pending, p: Bytes): Pending
    requires |p| >= HEADER
  {
    if !IsPart(p) then st
    else
      var buf := Stored(BufferOf(st, UuidOf(p)), OrderOf(p), BodyOf(p));
      st[UuidOf(p) := if |buf| == NumberOf(p) as int then map[] else buf]
  }

  class Receiver {
    var pending: Pending
    var queue: seq<Bytes>
    var raw: seq<Bytes>

    constructor ()
      ensures pending == map[] && queue == [] && raw == []
    {
      pending, queue, raw := map[], [], [];
    }

    /** packet_update: handle the packet in front of the raw queue. */
    method PacketUpdate()
      requires raw != [] && Readable(raw[0])
      modifies this`pending, this`queue
      ensures pending == Keeps(old(pending), raw[0]) && queue == old(queue) + Emits(old(pending), raw[0])
    {
      var p := raw[0];
      var uuid, order, number, size := UuidOf(p), OrderOf(p), NumberOf(p), SizeOf(p);
      var sum := ChecksumGen(p);
      if p[UUID + 4] != sum {
        queue := queue + [p];
        return;
      }
      if number == 1 {
        queue := queue + [p[HEADER..HEADER + size]];
        return;
      }
      if uuid !in pending {
        pending := pending[uuid := map[]];
      }
      var buf := pending[uuid];
      if order !in buf {
        buf := buf[order := p[HEADER..HEADER + size]];
      }
      if |buf| == number as int {
        var msg: Bytes := [];
        for i := 0 to number as int
          invariant msg == Joined(buf, i)
        {
          msg := msg + if i as Byte in buf then buf[i as Byte] else [];
        }
        queue := queue + [msg];
        buf := map[];
      }
      pending := pending[uuid := buf];
    }

    /** comm_update: handle the datagrams that have come in, and forget the oldest messages if
        there are too many. The result is the length of the queue. What is read of a datagram
        shorter than the header, or than the size it states, is undefined. */
    method CommUpdate(datagrams: seq<Bytes>) returns (n: nat)
      requires forall k :: 0 <= k < |raw + datagrams| ==> Readable((raw + datagrams)[k])
      modifies this
      ensures pending == RunKeeps(old(pending), old(raw) + datagrams) && raw == []
      ensures var all := old(queue) + RunEmits(old(pending), old(raw) + datagrams);
        queue == all[(if |all| > MAX_QUEUE then |all| - MAX_QUEUE else 0)..] && n == |queue| <= MAX_QUEUE
    {
      raw := raw + datagrams;
      HandleAll();
      ghost var full, left := queue, pending;
      while |queue| > MAX_QUEUE
        invariant pending == left && raw == []
        invariant |queue| <= |full| && queue == full[|full| - |queue|..]
        invariant |queue| >= (if |full| > MAX_QUEUE then MAX_QUEUE else |full|)
      {
        queue := queue[1..];
      }
      n := |queue|;
    }

    method HandleAll()
      requires forall k :: 0 <= k < |raw| ==> Readable(raw[k])
      modifies this
      ensures pending == RunKeeps(old(pending), old(raw)) && queue == old(queue) + RunEmits(old(pending), old(raw)) && raw == []
    {
      hide Emits, Keeps, ChecksumOk, SizeOf;
      ghost var all, done := raw, [];
      ghost var p0, q0 := pending, queue;
      while |raw| > 0
        invariant all == done + raw && forall k :: 0 <= k < |raw| ==> Readable(raw[k])
        invariant pending == RunKeeps(p0, done) && queue == q0 + RunEmits(p0, done)
        decreases |raw|
      {
        ghost var first := raw[0];
        PacketUpdate();
        RunStep(p0, done, first);
        done := done + [first];
        raw := raw[1..];
      }
      assert done == all;
    }
  }

  lemma RunStep(st: Pending, ps: seq<Bytes>, p: Bytes)
    requires |p| >= HEADER
    ensures RunKeeps(st, ps + [p]) == Keeps(RunKeeps(st, ps), p)
    ensures RunEmits(st, ps + [p]) == RunEmits(st, ps) + Emits(RunKeeps(st, ps), p)
  {
    hide Emits, Keeps;
    assert (ps + [p])[..|ps|] == ps;
  }

  // ----------------------------------------------------------------------------- runs

  /** The memory after a run of packets, and what the run adds to the queue. */
  function RunKeeps(st: Pending, ps: seq<Bytes>): Pending {
    if ps == [] then st
    else
      var before := RunKeeps(st, ps[..|ps| - 1]);
      if |ps[|ps| - 1]| >= HEADER then Keeps(before, ps[|ps| - 1]) else before
  }

  function RunEmits(st: Pending, ps: seq<Bytes>): seq<Bytes> {
    if ps == [] then []
    else
      var added := if |ps[|ps| - 1]| >= HEADER then Emits(RunKeeps(st, ps[..|ps| - 1]), ps[|ps| - 1]) else [];
      RunEmits(st, ps[..|ps| - 1]) + added
  }

  /** A packet of the message: a part that bears its uuid is one of its fragments. */
  ghost predicate PartOf(uuid: Bytes, data: Bytes, p: Bytes)
    requires |uuid| == UUID
  {
    IsPart(p) && UuidOf(p) == uuid ==> exists i :: IsFragment(uuid, data, p, i)
  }

  ghost predicate IsFragment(uuid: Bytes, data: Bytes, p: Bytes, i: int)
    requires |uuid| == UUID
  {
    0 <= i < NumPackets(|data|) && p == Fragment(uuid, data, i)
  }

  /** The fragments that occur in a run. */
  ghost predicate Seen(uuid: Bytes, data: Bytes, ps: seq<Bytes>, i: int)
    requires |uuid| == UUID
  {
    exists k :: 0 <= k < |ps| && IsFragment(uuid, data, ps[k], i)
  }

  /** The buffer of the message holds the bodies of the fragments seen so far. */
  ghost predicate Holds(uuid: Bytes, data: Bytes, ps: seq<Bytes>, buf: map<Byte, Bytes>)
    requires |uuid| == UUID
  {
    (forall b: Byte :: b in buf ==> (b as int) < NumPackets(|data|) && buf[b] == Body(data, b as int))
    && forall i :: 0 <= i < NumPackets(|data|) ==> (Has(buf.Keys, i) <==> Seen(uuid, data, ps, i))
  }

  /** Some fragment has not been seen. */
  ghost predicate Missing(uuid: Bytes, data: Bytes, ps: seq<Bytes>)
    requires |uuid| == UUID
  {
    exists i :: 0 <= i < NumPackets(|data|) && !Seen(uuid, data, ps, i)
  }

  lemma FragmentFields(uuid: Bytes, data: Bytes, i: int)
    requires |uuid| == UUID && 0 <= i < NumPackets(|data|)
    ensures var p := Fragment(uuid, data, i);
      UuidOf(p) == uuid && OrderOf(p) as int == i && NumberOf(p) as int == NumPackets(|data|) && BodyOf(p) == Body(data, i)
      && ChecksumOk(p) && |p| >= HEADER
  {
    PacketRead(uuid, i, NumPackets(|data|), Body(data, i));
  }

  /** A set of numbers below `n` has `n` elements exactly if it has all of them. */
  lemma {:induction false} FullSet(keys: set<Byte>, n: nat)
    requires n < 256 && forall b: Byte :: b in keys ==> (b as int) < n
    ensures |keys| <= n
    ensures |keys| == n <==> forall i :: 0 <= i < n ==> Has(keys, i)
    decreases n
  {
    if n == 0 {
      assert keys == {};
    } else {
      var last := (n - 1) as Byte;
      var rest := keys - {last};
      FullSet(rest, n - 1);
      if last in keys {
        assert keys == rest + {last};
        assert forall i :: 0 <= i < n - 1 ==> (Has(keys, i) <==> Has(rest, i));
      } else {
        assert keys == rest && !Has(keys, n - 1);
      }
    }
  }

  /** A full buffer gives the bodies in order. */
  lemma {:induction false} JoinedBodies(data: Bytes, buf: map<Byte, Bytes>, n: nat)
    requires n <= NumPackets(|data|)
    requires forall i :: 0 <= i < n ==> Has(buf.Keys, i) && buf[i as Byte] == Body(data, i)
    ensures Joined(buf, n) == Concat(Bodies(data, n))
    decreases n
  {
    if n > 0 {
      JoinedBodies(data, buf, n - 1);
      assert Bodies(data, n)[..n - 1] == Bodies(data, n - 1);
    }
  }

  lemma SeenMore(uuid: Bytes, data: Bytes, ps: seq<Bytes>, p: Bytes, i: int)
    requires |uuid| == UUID
    ensures Seen(uuid, data, ps + [p], i) <==> Seen(uuid, data, ps, i) || IsFragment(uuid, data, p, i)
  {
    var ps1 := ps + [p];
    if Seen(uuid, data, ps, i) {
      var k :| 0 <= k < |ps| && IsFragment(uuid, data, ps[k], i);
      assert ps1[k] == ps[k];
    }
    if IsFragment(uuid, data, p, i) { assert ps1[|ps|] == p; }
  }

  /** Fragments differ in their order numbers. */
  lemma FragmentsDiffer(uuid: Bytes, data: Bytes, p: Bytes, i: int, j: int)
    requires |uuid| == UUID && IsFragment(uuid, data, p, i) && IsFragment(uuid, data, p, j)
    ensures i == j
  {
    FragmentFields(uuid, data, i);
    FragmentFields(uuid, data, j);
  }

  /** Storing a fragment. */
  lemma StoreHolds(uuid: Bytes, data: Bytes, ps: seq<Bytes>, buf: map<Byte, Bytes>, p: Bytes, i: int)
    requires |uuid| == UUID && Holds(uuid, data, ps, buf) && IsFragment(uuid, data, p, i)
    ensures Holds(uuid, data, ps + [p], Stored(buf, OrderOf(p), BodyOf(p)))
  {
    FragmentFields(uuid, data, i);
    var buf1 := Stored(buf, OrderOf(p), BodyOf(p));
    forall j | 0 <= j < NumPackets(|data|) ensures Has(buf1.Keys, j) <==> Seen(uuid, data, ps + [p], j) {
      SeenMore(uuid, data, ps, p, j);
      if IsFragment(uuid, data, p, j) { FragmentsDiffer(uuid, data, p, i, j); }
    }
  }

  /** What a run leaves of the message and adds to the queue, packet by packet. As long as a
      fragment is missing, the buffer holds what was seen. */
  lemma {:induction false} RunHolds(st: Pending, uuid: Bytes, data: Bytes, ps: seq<Bytes>)
    requires |uuid| == UUID && BufferOf(st, uuid) == map[] && NumPackets(|data|) >= 2
    requires forall k :: 0 <= k < |ps| ==> |ps[k]| >= HEADER && PartOf(uuid, data, ps[k])
    requires Missing(uuid, data, ps)
    ensures Holds(uuid, data, ps, BufferOf(RunKeeps(st, ps), uuid))
    decreases |ps|
  {
    if ps == [] {
      assert forall i :: !Seen(uuid, data, [], i);
    } else {
      var ps1, p := ps[..|ps| - 1], ps[|ps| - 1];
      assert ps == ps1 + [p];
      var i :| 0 <= i < NumPackets(|data|) && !Seen(uuid, data, ps, i);
      SeenMore(uuid, data, ps1, p, i);
      assert Missing(uuid, data, ps1);
      RunHolds(st, uuid, data, ps1);
      PartKept(RunKeeps(st, ps1), uuid, data, ps1, p);
      assert Missing(uuid, data, ps1 + [p]);
    }
  }

  /** One packet of such a run: a fragment is stored and completes the message only if it is
      the last one missing; anything else leaves the message alone. */
  lemma PartKept(st: Pending, uuid: Bytes, data: Bytes, ps: seq<Bytes>, p: Bytes)
    requires |uuid| == UUID && |p| >= HEADER && PartOf(uuid, data, p) && NumPackets(|data|) >= 2
    requires Holds(uuid, data, ps, BufferOf(st, uuid))
    ensures Missing(uuid, data, ps + [p]) ==> Holds(uuid, data, ps + [p], BufferOf(Keeps(st, p), uuid))
    ensures Missing(uuid, data, ps + [p]) && IsPart(p) && UuidOf(p) == uuid ==> Emits(st, p) == []
    ensures Missing(uuid, data, ps) && !Missing(uuid, data, ps + [p]) ==>
      IsPart(p) && UuidOf(p) == uuid && BufferOf(Keeps(st, p), uuid) == map[]
      && Emits(st, p) == [Concat(Bodies(data, NumPackets(|data|)))]
  {
    if IsPart(p) && UuidOf(p) == uuid {
      var i :| IsFragment(uuid, data, p, i);
      FragmentKept(st, uuid, data, ps, p, i);
    } else {
      OtherPacket(uuid, data, ps, p);
    }
  }

  lemma FragmentKept(st: Pending, uuid: Bytes, data: Bytes, ps: seq<Bytes>, p: Bytes, i: int)
    requires |uuid| == UUID && IsFragment(uuid, data, p, i) && NumPackets(|data|) >= 2
    requires Holds(uuid, data, ps, BufferOf(st, uuid))
    ensures IsPart(p) && UuidOf(p) == uuid && |p| >= HEADER
    ensures if Missing(uuid, data, ps + [p])
      then Holds(uuid, data, ps + [p], BufferOf(Keeps(st, p), uuid)) && Emits(st, p) == []
      else BufferOf(Keeps(st, p), uuid) == map[] && Emits(st, p) == [Concat(Bodies(data, NumPackets(|data|)))]
  {
    hide Joined, Fragment, Concat, Bodies, Body, Fragments;
    FragmentFields(uuid, data, i);
    var n, buf := NumPackets(|data|), Stored(BufferOf(st, uuid), OrderOf(p), BodyOf(p));
    StoreHolds(uuid, data, ps, BufferOf(st, uuid), p, i);
    FullSet(buf.Keys, n);
    MissingKeys(uuid, data, ps + [p], buf);
    assert |buf| == |buf.Keys|;
    if !Missing(uuid, data, ps + [p]) { JoinedBodies(data, buf, n); }
  }

  lemma MissingKeys(uuid: Bytes, data: Bytes, ps: seq<Bytes>, buf: map<Byte, Bytes>)
    requires |uuid| == UUID && Holds(uuid, data, ps, buf)
    ensures Missing(uuid, data, ps) <==> !forall k :: 0 <= k < NumPackets(|data|) ==> Has(buf.Keys, k)
  {
    hide Fragment, Body;
    if Missing(uuid, data, ps) {
      var k :| 0 <= k < NumPackets(|data|) && !Seen(uuid, data, ps, k);
      assert !Has(buf.Keys, k);
    }
  }

  lemma OtherPacket(uuid: Bytes, data: Bytes, ps: seq<Bytes>, p: Bytes)
    requires |uuid| == UUID && !(IsPart(p) && UuidOf(p) == uuid) && NumPackets(|data|) >= 2
    ensures forall i :: Seen(uuid, data, ps + [p], i) == Seen(uuid, data, ps, i)
    ensures Missing(uuid, data, ps) ==> Missing(uuid, data, ps + [p])
  {
    forall i ensures Seen(uuid, data, ps + [p], i) == Seen(uuid, data, ps, i) {
      SeenMore(uuid, data, ps, p, i);
      if 0 <= i < NumPackets(|data|) { FragmentFields(uuid, data, i); }
    }
    if Missing(uuid, data, ps) {
      var i :| 0 <= i < NumPackets(|data|) && !Seen(uuid, data, ps, i);
      assert !Seen(uuid, data, ps + [p], i);
    }
  }

  /** The main result. The parts of a message arrive in any order, repeated, and mixed with any
      other packets the receiver can read, of other messages or with a wrong checksum (CommUpdate
      leaves out those that would be read beyond their end); nothing of it was there before. Until the last missing part
      arrives, its parts add nothing to the queue; that part adds exactly one message, which is
      the original exactly if its size is deliverable; and nothing is left in the buffer. */
  lemma Delivered(st: Pending, uuid: Bytes, data: Bytes, ps: seq<Bytes>, last: Bytes)
    requires |uuid| == UUID && BufferOf(st, uuid) == map[] && NumPackets(|data|) >= 2
    requires forall k :: 0 <= k < |ps| ==> |ps[k]| >= HEADER && PartOf(uuid, data, ps[k])
    requires |last| >= HEADER && PartOf(uuid, data, last)
    requires Missing(uuid, data, ps) && !Missing(uuid, data, ps + [last])
    ensures forall k :: 0 <= k < |ps| && IsPart(ps[k]) && UuidOf(ps[k]) == uuid ==> Emits(RunKeeps(st, ps[..k]), ps[k]) == []
    ensures |Emits(RunKeeps(st, ps), last)| == 1
    ensures Emits(RunKeeps(st, ps), last)[0] == data <==> Deliverable(|data|)
    ensures BufferOf(RunKeeps(st, ps + [last]), uuid) == map[]
  {
    forall k | 0 <= k < |ps| && IsPart(ps[k]) && UuidOf(ps[k]) == uuid ensures Emits(RunKeeps(st, ps[..k]), ps[k]) == [] {
      MissingBefore(uuid, data, ps, k);
      MissingBefore(uuid, data, ps, k + 1);
      RunHolds(st, uuid, data, ps[..k]);
      assert ps[..k + 1] == ps[..k] + [ps[k]];
      PartKept(RunKeeps(st, ps[..k]), uuid, data, ps[..k], ps[k]);
    }
    RunHolds(st, uuid, data, ps);
    PartKept(RunKeeps(st, ps), uuid, data, ps, last);
    FragmentsCarry(data);
    assert (ps + [last])[..|ps|] == ps;
  }

  lemma MissingBefore(uuid: Bytes, data: Bytes, ps: seq<Bytes>, k: nat)
    requires |uuid| == UUID && k <= |ps| && Missing(uuid, data, ps)
    ensures Missing(uuid, data, ps[..k])
  {
    var i :| 0 <= i < NumPackets(|data|) && !Seen(uuid, data, ps, i);
    if Seen(uuid, data, ps[..k], i) { SeenLater(uuid, data, ps, k, i); }
  }

  lemma SeenLater(uuid: Bytes, data: Bytes, ps: seq<Bytes>, k: nat, i: int)
    requires |uuid| == UUID && k <= |ps| && Seen(uuid, data, ps[..k], i)
    ensures Seen(uuid, data, ps, i)
  {
    var m :| 0 <= m < k && IsFragment(uuid, data, ps[..k][m], i);
    assert ps[m] == ps[..k][m];
  }

  /** A message of one packet is queued whenever its packet arrives. */
  lemma SingleDelivered(st: Pending, uuid: Bytes, data: Bytes)
    requires |uuid| == UUID && NumPackets(|data|) == 1
    ensures var p := Fragment(uuid, data, 0);
      Keeps(st, p) == st && |Emits(st, p)| == 1 && (Emits(st, p)[0] == data <==> Deliverable(|data|))
  {
    FragmentFields(uuid, data, 0);
    FragmentsCarry(data);
    assert Bodies(data, 1)[..0] == [];
    assert Concat(Bodies(data, 1)) == [] + Body(data, 0) == Body(data, 0);
  }
}
