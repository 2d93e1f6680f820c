/** Properties of the ways a Lua pattern can match, for all patterns and subjects. */
module LuaWays {
  import opened Wrappers
  import opened LuaPattern
  import opened LuaMatch

  // -------------------------------------------------------------- inside the subject

  /** Every way ends inside the subject, at or behind its start, with captures inside. */
  ghost predicate AllInside(outs: seq<Outcome>, src: string, s: nat) {
    forall k :: 0 <= k < |outs| ==> OutcomeInside(outs[k], src, s)
  }

  ghost predicate OutcomeInside(o: Outcome, src: string, s: nat) {
    o.Hit? ==> s <= o.end <= |src| && Inside(o.caps, o.end)
  }

  lemma InsideConcat(a: seq<Outcome>, b: seq<Outcome>, src: string, s: nat, t: nat)
    requires AllInside(a, src, t) && AllInside(b, src, s) && s <= t
    ensures AllInside(a + b, src, s)
  {
    forall k | 0 <= k < |a + b| ensures OutcomeInside((a + b)[k], src, s) {
      if k < |a| { assert OutcomeInside(a[k], src, t); } else { assert OutcomeInside(b[k - |a|], src, s); }
    }
  }

  lemma InsideLater(a: seq<Outcome>, src: string, s: nat, t: nat)
    requires AllInside(a, src, t) && s <= t
    ensures AllInside(a, src, s)
  {
    forall k | 0 <= k < |a| ensures OutcomeInside(a[k], src, s) { assert OutcomeInside(a[k], src, t); }
  }

  lemma InsideWith(caps: seq<Capture>, c: Capture, s: nat)
    requires Inside(caps, s) && CaptureInside(c, s)
    ensures Inside(caps + [c], s)
  {
    forall k | 0 <= k < |caps + [c]| ensures CaptureInside((caps + [c])[k], s) {
      if k < |caps| { assert CaptureInside(caps[k], s); }
    }
  }

  lemma InsideClosed(caps: seq<Capture>, l: nat, s: nat)
    requires Inside(caps, s) && l < |caps|
    ensures Inside(caps[l := Closed(caps[l].start, s - caps[l].start)], s)
  {
    var caps1 := caps[l := Closed(caps[l].start, s - caps[l].start)];
    assert CaptureInside(caps[l], s);
    forall k | 0 <= k < |caps1| ensures CaptureInside(caps1[k], s) { assert CaptureInside(caps[k], s); }
  }

  lemma {:induction false} WaysInside(isa: CharTable, src: string, items: seq<Item>, s: nat, caps: seq<Capture>, d: nat)
    requires s <= |src| && Inside(caps, s)
    ensures AllInside(Ways(isa, src, items, s, caps, d), src, s)
    decreases |items|, 0, |src| - s
  {
    if items != [] {
      var rest := items[1..];
      match items[0]
      case Single(cls, rep) => RepeatedInside(isa, src, cls, rep, rest, s, caps, d);
      case Open =>
        InsideWith(caps, Unfinished(s), s);
        NestedInside(isa, src, rest, s, caps + [Unfinished(s)], d);
      case OpenPosition =>
        InsideWith(caps, Position(s), s);
        NestedInside(isa, src, rest, s, caps + [Position(s)], d);
      case Close =>
        var l := LastUnfinished(caps);
        if l.Some? {
          InsideClosed(caps, l.value, s);
          NestedInside(isa, src, rest, s, caps[l.value := Closed(caps[l.value].start, s - caps[l.value].start)], d);
        }
      case BackRef(digit) =>
        var l := RefIndex(caps, digit);
        if l.Some? {
          var t := RefEnd(src, s, caps[l.value]);
          if t.Some? { WaysFrom(isa, src, rest, s, t.value, caps, d); }
        }
      case Balance(b, e) =>
        var t := BalanceEnd(src, s, b, e);
        if t.Some? {
          assert BalancedTo(src, s, b, e, t.value);
          WaysFrom(isa, src, rest, s, t.value, caps, d);
        }
      case Frontier(cls) => WaysInside(isa, src, rest, s, caps, d);
      case AtEnd =>
      case Malformed(err) =>
    }
  }

  lemma WaysFrom(isa: CharTable, src: string, items: seq<Item>, s: nat, t: nat, caps: seq<Capture>, d: nat)
    requires s <= t <= |src| && Inside(caps, s)
    ensures AllInside(Ways(isa, src, items, t, caps, d), src, s)
    decreases |items|, 1, 0
  {
    InsideFurther(caps, s, t);
    WaysInside(isa, src, items, t, caps, d);
    InsideLater(Ways(isa, src, items, t, caps, d), src, s, t);
  }

  lemma {:induction false} NestedInside(isa: CharTable, src: string, items: seq<Item>, s: nat, caps: seq<Capture>, d: nat)
    requires s <= |src| && Inside(caps, s)
    ensures AllInside(Nested(isa, src, items, s, caps, d), src, s)
    decreases |items|, 1, 0
  {
    if d + 1 <= MAX_DEPTH { WaysInside(isa, src, items, s, caps, d + 1); }
  }

  lemma NoneInside(src: string, s: nat)
    ensures AllInside([], src, s)
  {
  }

  lemma {:induction false} RepeatedInside(isa: CharTable, src: string, cls: Class, rep: Repeat, rest: seq<Item>, s: nat,
                                          caps: seq<Capture>, d: nat)
    requires s <= |src| && Inside(caps, s)
    ensures AllInside(Repeated(isa, src, cls, rep, rest, s, caps, d), src, s)
    decreases |rest|, 2, if rep == GreedyPlus then 1 else 0, |src| - s
  {
    hide Ways, Nested, AllInside;
    var m := MatchesOne(isa, src, s, cls);
    NestedInside(isa, src, rest, s, caps, d);
    WaysInside(isa, src, rest, s, caps, d);
    NoneInside(src, s);
    if !m {
      var ways, nested := Ways(isa, src, rest, s, caps, d), Nested(isa, src, rest, s, caps, d);
      assert [] + ways == ways && [] + nested == nested && nested + [] == nested;
    } else {
      InsideFurther(caps, s, s + 1);
      match rep
      case Once => WaysFrom(isa, src, rest, s, s + 1, caps, d);
      case Optional =>
        NestedInside(isa, src, rest, s + 1, caps, d);
        InsideConcat(Nested(isa, src, rest, s + 1, caps, d), Ways(isa, src, rest, s, caps, d), src, s, s + 1);
      case Greedy =>
        RepeatedInside(isa, src, cls, Greedy, rest, s + 1, caps, d);
        InsideConcat(Repeated(isa, src, cls, Greedy, rest, s + 1, caps, d), Nested(isa, src, rest, s, caps, d), src, s, s + 1);
      case GreedyPlus =>
        RepeatedInside(isa, src, cls, Greedy, rest, s + 1, caps, d);
        InsideLater(Repeated(isa, src, cls, Greedy, rest, s + 1, caps, d), src, s, s + 1);
      case Lazy =>
        RepeatedInside(isa, src, cls, Lazy, rest, s + 1, caps, d);
        InsideLater(Repeated(isa, src, cls, Lazy, rest, s + 1, caps, d), src, s, s + 1);
        InsideConcat(Nested(isa, src, rest, s, caps, d), Repeated(isa, src, cls, Lazy, rest, s + 1, caps, d), src, s, s);
    }
  }

  // --------------------------------------------------------------- well-formed patterns

  /** What is known of the captures without a subject: which are open, closed, or positions. */
  datatype Kind = IsOpen | IsClosed | IsPosition

  function KindOf(c: Capture): Kind {
    match c case Unfinished(_) => IsOpen case Position(_) => IsPosition case Closed(_, _) => IsClosed
  }

  function Kinds(caps: seq<Capture>): seq<Kind> {
    seq(|caps|, k requires 0 <= k < |caps| => KindOf(caps[k]))
  }

  function LastOpen(ks: seq<Kind>): (r: Option<nat>)
    ensures r.Some? ==> r.value < |ks|
  {
    if ks == [] then None
    else if ks[|ks| - 1] == IsOpen then Some(|ks| - 1)
    else LastOpen(ks[..|ks| - 1])
  }

  /** A pattern without errors: nothing malformed, captures paired, at most 32, and back
      references only to captures that are not open. Checked without a subject. */
  predicate WellFormed(items: seq<Item>, ks: seq<Kind>) {
    items == [] || (
      var rest := items[1..];
      match items[0]
      case Open => |ks| < MAX_CAPTURES && WellFormed(rest, ks + [IsOpen])
      case OpenPosition => |ks| < MAX_CAPTURES && WellFormed(rest, ks + [IsPosition])
      case Close => (match LastOpen(ks) case None => false case Some(l) => WellFormed(rest, ks[l := IsClosed]))
      case BackRef(digit) =>
        digit >= '1' && digit as int - '1' as int < |ks| && ks[digit as int - '1' as int] != IsOpen && WellFormed(rest, ks)
      case Malformed(_) => false
      case _ => WellFormed(rest, ks))
  }

  /** The items that make the matcher nest. */
  function Nestings(items: seq<Item>): nat {
    if items == [] then 0
    else Nestings(items[1..]) + match items[0]
      case Single(_, rep) => if rep == Once then 0 else 1
      case Open => 1
      case OpenPosition => 1
      case Close => 1
      case _ => 0
  }

  ghost predicate NoErrors(outs: seq<Outcome>) {
    forall k :: 0 <= k < |outs| ==> outs[k].Hit?
  }

  lemma {:induction false} LastOpenKinds(caps: seq<Capture>)
    ensures LastOpen(Kinds(caps)) == LastUnfinished(caps)
    decreases |caps|
  {
    if caps != [] {
      assert Kinds(caps)[..|caps| - 1] == Kinds(caps[..|caps| - 1]);
      LastOpenKinds(caps[..|caps| - 1]);
    }
  }

  /** A well-formed pattern within the depth limit never raises an error, whatever the subject:
      all its outcomes are matches. */
  lemma {:induction false} WellFormedWays(isa: CharTable, src: string, items: seq<Item>, s: nat, caps: seq<Capture>, d: nat)
    requires WellFormed(items, Kinds(caps)) && d + Nestings(items) <= MAX_DEPTH
    ensures NoErrors(Ways(isa, src, items, s, caps, d))
    decreases |items|, 0, |src| - s
  {
    if items != [] {
      var rest := items[1..];
      match items[0]
      case Single(cls, rep) => WellFormedRepeated(isa, src, cls, rep, rest, s, caps, d);
      case Open =>
        assert Kinds(caps + [Unfinished(s)]) == Kinds(caps) + [IsOpen];
        WellFormedWays(isa, src, rest, s, caps + [Unfinished(s)], d + 1);
      case OpenPosition =>
        assert Kinds(caps + [Position(s)]) == Kinds(caps) + [IsPosition];
        WellFormedWays(isa, src, rest, s, caps + [Position(s)], d + 1);
      case Close =>
        LastOpenKinds(caps);
        var l := LastUnfinished(caps).value;
        var caps1 := caps[l := Closed(caps[l].start, s - caps[l].start)];
        assert Kinds(caps1) == Kinds(caps)[l := IsClosed];
        WellFormedWays(isa, src, rest, s, caps1, d + 1);
      case BackRef(digit) =>
        var t := RefEnd(src, s, caps[RefIndex(caps, digit).value]);
        if t.Some? { WellFormedWays(isa, src, rest, t.value, caps, d); }
      case Balance(b, e) =>
        var t := BalanceEnd(src, s, b, e);
        if t.Some? { WellFormedWays(isa, src, rest, t.value, caps, d); }
      case Frontier(cls) => WellFormedWays(isa, src, rest, s, caps, d);
      case AtEnd =>
    }
  }

  lemma {:induction false} WellFormedRepeated(isa: CharTable, src: string, cls: Class, rep: Repeat, rest: seq<Item>, s: nat,
                                              caps: seq<Capture>, d: nat)
    requires WellFormed(rest, Kinds(caps)) && d + Nestings(rest) + (if rep == Once then 0 else 1) <= MAX_DEPTH
    ensures NoErrors(Repeated(isa, src, cls, rep, rest, s, caps, d))
    decreases |rest|, 2, if rep == GreedyPlus then 1 else 0, |src| - s
  {
    hide Ways;
    var m := MatchesOne(isa, src, s, cls);
    WellFormedWays(isa, src, rest, s, caps, d);
    if rep != Once { WellFormedWays(isa, src, rest, s, caps, d + 1); }
    if m {
      match rep
      case Once => WellFormedWays(isa, src, rest, s + 1, caps, d);
      case Optional => WellFormedWays(isa, src, rest, s + 1, caps, d + 1);
      case Greedy => WellFormedRepeated(isa, src, cls, Greedy, rest, s + 1, caps, d);
      case GreedyPlus => WellFormedRepeated(isa, src, cls, Greedy, rest, s + 1, caps, d);
      case Lazy => WellFormedRepeated(isa, src, cls, Lazy, rest, s + 1, caps, d);
    }
  }

  /** So for such a pattern the matcher answers with the best way, or with no match exactly
      when there is none. */
  lemma WellFormedAnswers(isa: CharTable, src: string, items: seq<Item>, s: nat, res: Result<Option<nat>, Error>, caps1: seq<Capture>)
    requires WellFormed(items, []) && 1 + Nestings(items) <= MAX_DEPTH
    requires Answers(res, Nested(isa, src, items, s, [], 0), [], caps1)
    ensures res.Ok?
    ensures res.value.None? <==> Ways(isa, src, items, s, [], 1) == []
    ensures res.value.Some? ==> Ways(isa, src, items, s, [], 1)[0] == Hit(res.value.value, caps1)
  {
    assert Kinds([]) == [];
    WellFormedWays(isa, src, items, s, [], 1);
  }

  // ------------------------------------------------------------------- greedy and lazy

  /** Lazy repetition, the shortest first. */
  ghost function Ascending(isa: CharTable, src: string, rest: seq<Item>, s: nat, n: nat, caps: seq<Capture>, d: nat): seq<Outcome>
    decreases n
  {
    Nested(isa, src, rest, s, caps, d) + if n == 0 then [] else Ascending(isa, src, rest, s + 1, n - 1, caps, d)
  }

  lemma {:induction false} LazyAscends(isa: CharTable, src: string, cls: Class, rest: seq<Item>, s: nat, n: nat, caps: seq<Capture>, d: nat)
    requires forall k :: s <= k < s + n ==> MatchesOne(isa, src, k, cls)
    requires !MatchesOne(isa, src, s + n, cls)
    ensures Repeated(isa, src, cls, Lazy, rest, s, caps, d) == Ascending(isa, src, rest, s, n, caps, d)
    decreases n
  {
    hide Nested;
    if n > 0 { LazyAscends(isa, src, cls, rest, s + 1, n - 1, caps, d); }
  }

  /** Greedy and lazy repetition try the same ways, in different orders. */
  lemma {:induction false} SameWays(isa: CharTable, src: string, rest: seq<Item>, s: nat, n: nat, caps: seq<Capture>, d: nat)
    ensures multiset(Ascending(isa, src, rest, s, n, caps, d)) == multiset(Descending(isa, src, rest, s, n, caps, d))
    decreases n
  {
    hide Nested, Descending;
    var first := Nested(isa, src, rest, s, caps, d);
    if n > 0 {
      SameWays(isa, src, rest, s + 1, n - 1, caps, d);
      DescendingFrom(isa, src, rest, s, n, caps, d);
      Swapped(first, Ascending(isa, src, rest, s + 1, n - 1, caps, d), Descending(isa, src, rest, s + 1, n - 1, caps, d));
    } else {
      DescendingNone(isa, src, rest, s, caps, d);
    }
  }

  lemma DescendingNone(isa: CharTable, src: string, rest: seq<Item>, s: nat, caps: seq<Capture>, d: nat)
    ensures Descending(isa, src, rest, s, 0, caps, d) == Nested(isa, src, rest, s, caps, d)
  {
    hide Nested;
  }

  lemma Swapped(a: seq<Outcome>, b: seq<Outcome>, c: seq<Outcome>)
    requires multiset(b) == multiset(c)
    ensures multiset(a + b) == multiset(c + a)
  {
  }
}
