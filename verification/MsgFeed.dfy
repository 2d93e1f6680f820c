/** The streaming unpacker (unpacker_t in lua_msgpack.new.c): bytes are fed in any pieces, and
    every complete value can be pulled. */
module MsgFeed {
  import opened Wrappers
  import opened ByteStrings
  import opened MsgFormat
  import opened MsgRoundTrip
  import opened MsgReader
  import opened MsgStream

  class Unpacker {
    const buf: array<Byte>
    const stack: array<Entry>
    var used: nat
    var nstacked: nat
    var resultnum: nat

    /** unpacker_init */
    constructor (maxsize: nat)
      ensures Valid() && fresh(buf) && fresh(stack) && buf.Length == maxsize
      ensures Contents() == [] && View() == State([], 0)
    {
      buf := new Byte[maxsize];
      stack := new Entry[MAX_DEPTH](_ => Fresh(Raw, 0));
      used, nstacked, resultnum := 0, 0, 0;
    }

    predicate Valid()
      reads this
    {
      used <= buf.Length && stack.Length == MAX_DEPTH && nstacked <= MAX_DEPTH
    }

    ghost function Contents(): Bytes
      requires Valid()
      reads this, buf
    {
      buf[..used]
    }

    ghost function View(): State
      requires Valid()
      reads this, stack
    {
      State(stack[..nstacked], resultnum)
    }

    /** What the caller sees. */
    ghost function Here(): Machine
      requires Valid()
      reads this, buf, stack
    {
      Machine(Contents(), buf.Length, View())
    }

    /** unpacker_progress */
    method MoveOn(ch: Byte)
      requires Valid()
      modifies this`nstacked, this`resultnum, stack
      ensures Valid() && View() == Progress(old(View()).stack, old(resultnum), ch)
    {
      hide WithSize;
      var i := nstacked;
      while i > 0
        invariant Valid() && i == nstacked && resultnum == old(resultnum)
        invariant Progress(stack[..nstacked], resultnum, ch) == Progress(old(stack[..nstacked]), old(resultnum), ch)
      {
        var e := stack[i - 1];
        assert stack[..i][..i - 1] == stack[..i - 1];
        if SizeMissing(e) {
          stack[i - 1] := WithSize(e, ch);
          assert stack[..i] == stack[..i - 1] + [WithSize(e, ch)];
          break;
        }
        stack[i - 1] := e.(sofar := e.sofar + 1);
        assert stack[..i] == stack[..i - 1] + [e.(sofar := e.sofar + 1)];
        if e.sofar + 1 < e.want {
          break;
        }
        i := i - 1;
        nstacked := i;
      }
      if nstacked == 0 {
        resultnum := resultnum + 1;
      }
    }

    /** unpacker_push */
    method Begin(k: Kind, want: nat) returns (ok: bool)
      requires Valid()
      modifies this`nstacked, this`resultnum, stack
      ensures Valid() && ok == Push(old(View()), k, want).Some?
      ensures ok ==> Push(old(View()), k, want) == Some(View())
    {
      if nstacked >= MAX_DEPTH {
        return false;
      }
      stack[nstacked] := Fresh(k, want);
      nstacked := nstacked + 1;
      assert stack[..nstacked] == old(stack[..nstacked]) + [Fresh(k, want)];
      if SizeSize(k) == 0 && want == 0 {
        MoveOn(0);
      }
      return true;
    }

    /** unpacker_container_needs_bytes: 0 for bytes of a length, else how many bytes of data. */
    method BytesNeeded() returns (need: Option<nat>)
      requires Valid()
      ensures need.Some? <==> NeedsBytes(View().stack)
      ensures need.Some? ==> var e := stack[nstacked - 1];
        if SizeMissing(e) then need.value == 0 else need.value == e.want - e.sofar > 0
    {
      if nstacked == 0 {
        return None;
      }
      var top := stack[nstacked - 1];
      if SizeMissing(top) {
        return Some(0);
      }
      if top.sofar < top.want && !IsContainer(top.kind) {
        return Some(top.want - top.sofar);
      }
      return None;
    }

    /** unpacker_progress_datasize: `progress` bytes of data. */
    method MoveData(progress: nat, ghost data: Bytes)
      requires Valid() && NeedsBytes(View().stack) && progress == |data| > 0
      requires var e := stack[nstacked - 1]; !SizeMissing(e) && progress <= e.want - e.sofar
      modifies this`nstacked, this`resultnum, stack
      ensures Valid() && Run(old(View()), data) == Some(View())
    {
      hide Run;
      ghost var front := stack[..nstacked - 1];
      var top := stack[nstacked - 1];
      assert stack[..nstacked] == front + [top];
      var sofar := top.sofar + progress;
      stack[nstacked - 1] := top.(sofar := sofar);
      assert stack[..nstacked] == front + [top.(sofar := sofar)];
      if sofar == top.want {
        stack[nstacked - 1] := top.(sofar := sofar - 1);
        assert stack[..nstacked] == front + [top.(sofar := sofar - 1)];
        RunData(front, top, resultnum, data);
        assert (front + [top.(sofar := sofar - 1)])[..|front|] == front;
        MoveOn(0);
      } else {
        RunSome(front, top, resultnum, data);
      }
    }

    /** unpacker_feed */
    method Feed(p: Bytes) returns (res: int)
      requires Valid()
      modifies this, buf, stack
      ensures Valid() && res in {-1, 0}
      ensures res == 0 <==> Call(old(Here()), FeedOp(p)).Some?
      ensures res == 0 ==> Call(old(Here()), FeedOp(p)) == Some((Here(), []))
      ensures old(used) + |p| > buf.Length ==> Here() == old(Here())
      ensures old(used) + |p| <= buf.Length ==> Contents() == old(Contents()) + p
    {
      res := -1;
      if used + |p| > buf.Length {
        return;
      }
      Copy(p);
      hide Run;
      var i := 0;
      assert p[0..] == p;
      while i < |p|
        invariant Valid() && 0 <= i <= |p| && Contents() == old(Contents()) + p
        invariant Run(View(), p[i..]) == Run(old(View()), p)
      {
        var ok;
        ok, i := Consume(p, i);
        if !ok {
          return;
        }
      }
      RunEnd(View());
      res := 0;
    }

    /** One byte of `p`, or as much data as is awaited. */
    method Consume(p: Bytes, i: nat) returns (ok: bool, n: nat)
      requires Valid() && i < |p|
      modifies this`nstacked, this`resultnum, stack
      ensures Valid() && (ok ==> i < n <= |p| && Run(View(), p[n..]) == Run(old(View()), p[i..]))
      ensures !ok ==> Run(old(View()), p[i..]) == None
    {
      hide Run, Step, NeedsBytes;
      RunFirst(View(), p, i);
      var need := BytesNeeded();
      if need.Some? && need.value > 0 {
        var progress := if |p| - i > need.value then need.value else |p| - i;
        assert p[i..] == p[i..i + progress] + p[i + progress..];
        RunConcat(View(), p[i..i + progress], p[i + progress..]);
        MoveData(progress, p[i..i + progress]);
        return true, i + progress;
      }
      ok := Byte(p[i]);
      n := i + 1;
    }

    /** The fed bytes go behind what is there. */
    method Copy(p: Bytes)
      requires Valid() && used + |p| <= buf.Length
      modifies this`used, buf
      ensures Valid() && Contents() == old(Contents()) + p
    {
      forall k | 0 <= k < |p| {
        buf[used + k] := p[k];
      }
      used := used + |p|;
      assert buf[..used] == old(buf[..used]) + p;
    }

    /** One byte that is not data. */
    method Byte(ch: Byte) returns (ok: bool)
      requires Valid() && (NeedsBytes(View().stack) ==> SizeMissing(stack[nstacked - 1]))
      modifies this`nstacked, this`resultnum, stack
      ensures Valid() && ok == Step(old(View()), ch).Some? && (ok ==> Step(old(View()), ch) == Some(View()))
    {
      hide Progress, Push;
      var need := BytesNeeded();
      ok := true;
      if need.Some? {
        MoveOn(ch);
        return;
      }
      match ActionOf(ch) {
        case Now => MoveOn(ch);
        case Begin(k, want) => ok := Begin(k, want);
        case Reserved => ok := false;
      }
    }

    /** unpacker_shift */
    method Shift(l: nat)
      requires Valid() && l <= used
      modifies this`used, buf
      ensures Valid() && Contents() == old(Contents())[l..]
    {
      forall i | 0 <= i < used - l {
        buf[i] := buf[i + l];
      }
      used := used - l;
    }

    /** Pull: the next value, if one is complete. */
    method Pull() returns (v: Option<Value>)
      requires Valid()
      modifies this`used, this`resultnum, buf
      ensures Valid() && (Call(old(Here()), PullOp) == None ==> v == None)
      ensures Call(old(Here()), PullOp).Some? ==> Call(old(Here()), PullOp).value == (Here(), if v.Some? then [v.value] else [])
    {
      hide Dec, Run;
      v := None;
      if resultnum == 0 {
        return;
      }
      var rb := new ReadBuf(buf[..used]);
      v := rb.Any();
      Shift(rb.ofs);
      resultnum := resultnum - 1;
    }
  }

  lemma RunFirst(s: State, p: Bytes, i: nat)
    requires i < |p|
    ensures Run(s, p[i..]) == match Step(s, p[i]) case None => None case Some(s1) => Run(s1, p[i + 1..])
  {
    assert p[i..] == [p[i]] + p[i + 1..];
    RunCons(s, p[i], p[i + 1..]);
  }

  // -------------------------------------------------------------------- a queue of values

  function EncAll(vs: seq<Value>): Bytes
    requires AllFit(vs)
  {
    if vs == [] then [] else Enc(vs[0]) + EncAll(vs[1..])
  }

  /** Values the packer can produce, none deeper than the stack. */
  predicate AllFit(vs: seq<Value>) {
    forall i :: 0 <= i < |vs| ==> Valid(vs[i]) && Packable(vs[i]) && Depth(vs[i]) <= MAX_DEPTH
  }

  /** How many of the values are complete in the first `len` bytes. */
  function Complete(vs: seq<Value>, len: nat): (n: nat)
    requires AllFit(vs)
    ensures n <= |vs|
  {
    if vs == [] || |Enc(vs[0])| > len then 0 else 1 + Complete(vs[1..], len - |Enc(vs[0])|)
  }

  /** A step completes a value exactly if it leaves the stack empty. */
  lemma {:induction false} ProgressCounts(stack: seq<Entry>, num: nat, ch: Byte)
    ensures var t := Progress(stack, num, ch); t.num == num + if t.stack == [] then 1 else 0
    decreases |stack|
  {
    if stack != [] { ProgressCounts(stack[..|stack| - 1], num, ch); }
  }

  lemma StepCounts(s: State, ch: Byte)
    ensures Step(s, ch).Some? ==> var t := Step(s, ch).value; t.num == s.num + if t.stack == [] then 1 else 0
  {
    hide Progress;
    match ActionOf(ch) {
      case Begin(k, want) => ProgressCounts(s.stack + [Fresh(k, want)], s.num, 0);
      case _ =>
    }
    ProgressCounts(s.stack, s.num, ch);
    ProgressCounts(s.stack, s.num, 0);
  }

  lemma {:induction false} RunCounts(s: State, b: Bytes)
    requires Run(s, b).Some?
    ensures Run(s, b).value.num >= s.num && (b != [] && Run(s, b).value.stack == [] ==> Run(s, b).value.num > s.num)
    decreases |b|
  {
    hide Step;
    if b != [] {
      StepCounts(s, b[0]);
      RunCounts(Step(s, b[0]).value, b[1..]);
    }
  }

  /** Before the last byte of a value nothing is complete and something is on the stack. */
  lemma PartOfValue(num: nat, a: Bytes, b: Bytes)
    requires a != [] && b != [] && Run(State([], num), a + b) == Some(State([], num + 1))
    ensures Run(State([], num), a).Some?
    ensures var s := Run(State([], num), a).value; s.num == num && s.stack != []
  {
    hide Run, Step;
    RunConcat(State([], num), a, b);
    var s := Run(State([], num), a).value;
    RunCounts(State([], num), a);
    var most, last := b[..|b| - 1], b[|b| - 1];
    assert b == most + [last];
    RunConcat(s, most, [last]);
    var t := Run(s, most).value;
    RunCounts(s, most);
    RunLast(t, last);
    StepCounts(t, last);
  }

  lemma RunLast(s: State, ch: Byte)
    ensures Run(s, [ch]) == Step(s, ch)
  {
    assert [ch][1..] == [];
  }

  /** The number of complete values is counted, and the stack is empty between values. */
  lemma {:induction false} Counted(vs: seq<Value>, num: nat, b: Bytes)
    requires AllFit(vs) && b <= EncAll(vs)
    ensures Run(State([], num), b).Some?
    ensures var s := Run(State([], num), b).value; s.num == num + Complete(vs, |b|)
    ensures Run(State([], num), b).value.stack == [] <==> b == EncAll(vs[..Complete(vs, |b|)])
    decreases |vs|
  {
    hide Run, Enc, Depth, Valid, Packable;
    RunEnd(State([], num));
    if b == [] {
      CompleteNone(vs);
    } else {
      var e := Enc(vs[0]);
      FirstValue(vs[0], num);
      if |e| > |b| {
        assert e == EncAll(vs)[..|e|] && e == b + e[|b|..];
        PartOfValue(num, b, e[|b|..]);
        assert vs[..0] == [];
      } else {
        var rest := b[|e|..];
        assert b == e + rest && rest <= EncAll(vs[1..]) by {
          assert e == EncAll(vs)[..|e|] == b[..|e|];
          assert EncAll(vs)[|e|..] == EncAll(vs[1..]);
        }
        RunConcat(State([], num), e, rest);
        Counted(vs[1..], num + 1, rest);
        var n := Complete(vs[1..], |rest|);
        assert vs[..n + 1][1..] == vs[1..][..n] && vs[..n + 1][0] == vs[0];
        assert b == e + EncAll(vs[1..][..n]) <==> rest == EncAll(vs[1..][..n]);
      }
    }
  }

  lemma CompleteNone(vs: seq<Value>)
    requires AllFit(vs)
    ensures Complete(vs, 0) == 0 && EncAll(vs[..0]) == []
  {
    if vs != [] { MsgPackerSome(vs[0]); }
  }

  lemma MsgPackerSome(v: Value)
    requires Valid(v) && Packable(v)
    ensures |Enc(v)| > 0
  {
    hide Be, EncKids;
  }

  lemma FirstValue(v: Value, num: nat)
    requires Valid(v) && Packable(v) && Depth(v) <= MAX_DEPTH
    ensures Run(State([], num), Enc(v)) == Some(State([], num + 1))
  {
    hide Run, Enc, Depth, Valid, Packable;
    RunValue(State([], num), v);
  }

  /** `buf` holds the beginning of the encoding of the values, and has been parsed. */
  ghost predicate Serves(buf: Bytes, s: State, vs: seq<Value>) {
    AllFit(vs) && buf <= EncAll(vs) && Run(State([], 0), buf) == Some(s)
  }

  /** The result count is the number of complete values that were not pulled. */
  lemma ResultNum(buf: Bytes, s: State, vs: seq<Value>)
    requires Serves(buf, s, vs)
    ensures s.num == Complete(vs, |buf|) && (s.stack == [] <==> buf == EncAll(vs[..s.num]))
  {
    Counted(vs, 0, buf);
  }

  /** More of the encoding is accepted, however it is cut. */
  lemma FeedServes(buf: Bytes, s: State, p: Bytes, vs: seq<Value>)
    requires Serves(buf, s, vs) && buf + p <= EncAll(vs)
    ensures Run(s, p).Some? && Serves(buf + p, Run(s, p).value, vs)
  {
    hide Run, Enc, Depth, Valid, Packable;
    RunConcat(State([], 0), buf, p);
    Counted(vs, 0, buf + p);
  }

  lemma {:induction false} RunShift(stack: seq<Entry>, num: nat, d: nat, b: Bytes)
    ensures Run(State(stack, num), b) == match Run(State(stack, num + d), b) case None => None case Some(t) => if t.num < d then None else Some(State(t.stack, t.num - d))
    decreases |b|
  {
    hide Step;
    if b != [] {
      StepShift(stack, num, d, b[0]);
      match Step(State(stack, num), b[0]) {
        case None =>
        case Some(t) =>
          RunShift(t.stack, t.num, d, b[1..]);
      }
    }
  }

  lemma {:induction false} ProgressShift(stack: seq<Entry>, num: nat, d: nat, ch: Byte)
    ensures Progress(stack, num + d, ch) == State(Progress(stack, num, ch).stack, Progress(stack, num, ch).num + d)
    decreases |stack|
  {
    if stack != [] { ProgressShift(stack[..|stack| - 1], num, d, ch); }
  }

  lemma StepShift(stack: seq<Entry>, num: nat, d: nat, ch: Byte)
    ensures Step(State(stack, num + d), ch) == match Step(State(stack, num), ch) case None => None case Some(t) => Some(State(t.stack, t.num + d))
  {
    hide Progress;
    match ActionOf(ch) {
      case Begin(k, want) => ProgressShift(stack + [Fresh(k, want)], num, d, 0);
      case _ =>
    }
    ProgressShift(stack, num, d, ch);
    ProgressShift(stack, num, d, 0);
  }

  /** A pull gives the next value and removes exactly its bytes. */
  lemma PullServes(buf: Bytes, s: State, vs: seq<Value>)
    requires Serves(buf, s, vs) && s.num > 0
    ensures vs != [] && |Enc(vs[0])| <= |buf| && Dec(buf, 0) == Some((Normal(vs[0]), |Enc(vs[0])|))
    ensures Serves(buf[|Enc(vs[0])|..], State(s.stack, s.num - 1), vs[1..])
  {
    hide Run, Enc, Depth, Valid, Packable, Dec, Normal, AllFit, EncAll, Complete;
    ResultNum(buf, s, vs);
    var rest := FirstOf(buf, vs);
    RoundTrip(buf, 0, vs[0]);
    FirstValue(vs[0], 0);
    RunBehind(Enc(vs[0]), rest, s);
  }

  /** Without the first value the parser counts one less. */
  lemma RunBehind(e: Bytes, rest: Bytes, s: State)
    requires Run(State([], 0), e) == Some(State([], 1)) && Run(State([], 0), e + rest) == Some(s) && s.num > 0
    ensures Run(State([], 0), rest) == Some(State(s.stack, s.num - 1))
  {
    hide Run;
    RunConcat(State([], 0), e, rest);
    RunShift([], 0, 1, rest);
    RunCounts(State([], 1), rest);
  }

  /** A complete value is first in the buffer. */
  lemma FirstOf(buf: Bytes, vs: seq<Value>) returns (rest: Bytes)
    requires AllFit(vs) && buf <= EncAll(vs) && Complete(vs, |buf|) > 0
    ensures vs != [] && Valid(vs[0]) && Packable(vs[0]) && Depth(vs[0]) <= MAX_DEPTH && |Enc(vs[0])| <= |buf|
    ensures rest == buf[|Enc(vs[0])|..] && buf == Enc(vs[0]) + rest && At(buf, 0, Enc(vs[0]))
    ensures AllFit(vs[1..]) && rest <= EncAll(vs[1..])
  {
    hide Enc, Depth, Valid, Packable;
    var e := Enc(vs[0]);
    rest := buf[|e|..];
    assert e == EncAll(vs)[..|e|] == buf[..|e|];
    assert EncAll(vs)[|e|..] == EncAll(vs[1..]);
  }

  // --------------------------------------------------------------------------- whole runs

  datatype Op = FeedOp(p: Bytes) | PullOp

  /** What the caller of feed and pull sees: the buffer, its size and the parser. */
  datatype Machine = Machine(buf: Bytes, size: nat, s: State)

  /** One call: the new state, and what a pull returns; none if the feed fails. */
  function Call(m: Machine, op: Op): Option<(Machine, seq<Value>)> {
    match op
    case FeedOp(p) =>
      if |m.buf| + |p| > m.size then None
      else
        (match Run(m.s, p)
         case None => None
         case Some(s) => Some((m.(buf := m.buf + p, s := s), [])))
    case PullOp =>
      if m.s.num == 0 then Some((m, []))
      else
        match Dec(m.buf, 0)
        case None => None
        case Some((v, q)) => Some((m.(buf := m.buf[q..], s := m.s.(num := m.s.num - 1)), [v]))
  }

  function Calls(m: Machine, ops: seq<Op>): Option<(Machine, seq<Value>)>
    decreases |ops|
  {
    if ops == [] then Some((m, []))
    else match Call(m, ops[0])
      case None => None
      case Some((m1, out)) =>
        match Calls(m1, ops[1..])
        case None => None
        case Some((m2, more)) => Some((m2, out + more))
  }

  /** All that is fed. */
  function Fed(ops: seq<Op>): Bytes {
    if ops == [] then [] else (match ops[0] case FeedOp(p) => p case PullOp => []) + Fed(ops[1..])
  }

  /** Every feed fits the buffer when it is made. */
  predicate FeedsFit(m: Machine, ops: seq<Op>)
    decreases |ops|
  {
    ops != [] ==>
      && (ops[0].FeedOp? ==> |m.buf| + |ops[0].p| <= m.size)
      && match Call(m, ops[0]) case None => true case Some((m1, _)) => FeedsFit(m1, ops[1..])
  }

  function NormalAll(vs: seq<Value>): seq<Value> {
    if vs == [] then [] else [Normal(vs[0])] + NormalAll(vs[1..])
  }

  /** Any run of feeds and pulls, as long as the feeds fit: no call fails, the pulls return the
      values in order, and at the end the result count is the number of values that are complete
      and not pulled. */
  lemma {:induction false} RunServes(m: Machine, ops: seq<Op>, vs: seq<Value>)
    requires Serves(m.buf, m.s, vs) && m.buf + Fed(ops) <= EncAll(vs) && FeedsFit(m, ops)
    ensures Calls(m, ops).Some?
    ensures var (m1, out) := Calls(m, ops).value;
      && |out| <= |vs| && out == NormalAll(vs[..|out|])
      && Serves(m1.buf, m1.s, vs[|out|..]) && m1.s.num == Complete(vs[|out|..], |m1.buf|)
    decreases |ops|
  {
    hide Run, Enc, Depth, Valid, Packable, Dec, Normal, Serves, EncAll, AllFit, FeedsFit;
    ServesFit(m, vs);
    if ops == [] {
      assert vs[0..] == vs && vs[..0] == [];
      ResultNum(m.buf, m.s, vs);
    } else {
      FitNow(m, ops);
      match ops[0] {
        case FeedOp(p) =>
          assert m.buf + Fed(ops) == (m.buf + p) + Fed(ops[1..]);
          FeedServes(m.buf, m.s, p, vs);
          RunServes(m.(buf := m.buf + p, s := Run(m.s, p).value), ops[1..], vs);
          var more := Calls(m.(buf := m.buf + p, s := Run(m.s, p).value), ops[1..]).value.1;
          assert [] + more == more;
        case PullOp =>
          assert [] + Fed(ops[1..]) == Fed(ops[1..]);
          if m.s.num == 0 {
            RunServes(m, ops[1..], vs);
            var more := Calls(m, ops[1..]).value.1;
            assert [] + more == more;
          } else {
            ResultNum(m.buf, m.s, vs);
            PullServes(m.buf, m.s, vs);
            var rest := FirstOf(m.buf, vs);
            var m1 := m.(buf := rest, s := m.s.(num := m.s.num - 1));
            Remaining(m.buf, Fed(ops[1..]), vs);
            RunServes(m1, ops[1..], vs[1..]);
            var more := Calls(m1, ops[1..]).value.1;
            assert vs[..|more| + 1][1..] == vs[1..][..|more|] && vs[..|more| + 1][0] == vs[0];
            assert vs[1..][|more|..] == vs[|more| + 1..];
          }
      }
    }
  }

  lemma ServesFit(m: Machine, vs: seq<Value>)
    requires Serves(m.buf, m.s, vs)
    ensures AllFit(vs) && m.buf <= EncAll(vs)
  {
  }

  lemma FitNow(m: Machine, ops: seq<Op>)
    requires FeedsFit(m, ops) && ops != []
    ensures ops[0].FeedOp? ==> |m.buf| + |ops[0].p| <= m.size
    ensures Call(m, ops[0]).Some? ==> FeedsFit(Call(m, ops[0]).value.0, ops[1..])
  {
  }

  lemma Remaining(buf: Bytes, fed: Bytes, vs: seq<Value>)
    requires AllFit(vs) && vs != [] && |Enc(vs[0])| <= |buf| && buf + fed <= EncAll(vs)
    ensures AllFit(vs[1..]) && buf[|Enc(vs[0])|..] + fed <= EncAll(vs[1..])
  {
    hide Enc, Depth, Valid, Packable;
    var n := |Enc(vs[0])|;
    assert EncAll(vs)[n..] == EncAll(vs[1..]);
    assert buf[n..] + fed == (buf + fed)[n..];
  }

  /** A value that is too deep is refused. */
  lemma TooDeep(v: Value)
    requires Valid(v) && Packable(v)
    ensures Run(State([], 0), Enc(v)).Some? <==> Depth(v) <= MAX_DEPTH
  {
    hide Run, Enc, Depth, Valid, Packable;
    RunValue(State([], 0), v);
  }
}
