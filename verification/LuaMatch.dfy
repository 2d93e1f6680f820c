/** The backtracking matcher of lib_string.c. */
module LuaMatch {
  import opened Wrappers
  import opened LuaPattern

  // -------------------------------------------------------------- facts about the meaning

  /** What a matcher may answer when `outs` are the ways to match: the first of them. A failed
      match leaves the captures as they were. */
  ghost predicate Answers(res: Result<Option<nat>, Error>, outs: seq<Outcome>, caps0: seq<Capture>, caps1: seq<Capture>) {
    match res
    case Err(e) => outs != [] && outs[0] == Bad(e)
    case Ok(None) => outs == [] && caps1 == caps0
    case Ok(Some(t)) => outs != [] && outs[0] == Hit(t, caps1)
  }

  /** Greedy repetition, the longest first: `n` more, then one less, down to none. */
  ghost function Descending(isa: CharTable, src: string, rest: seq<Item>, s: nat, n: nat, caps: seq<Capture>, d: nat): seq<Outcome>
    decreases n
  {
    Nested(isa, src, rest, s + n, caps, d) + if n == 0 then [] else Descending(isa, src, rest, s, n - 1, caps, d)
  }

  lemma {:induction false} DescendingFrom(isa: CharTable, src: string, rest: seq<Item>, s: nat, n: nat, caps: seq<Capture>, d: nat)
    requires n > 0
    ensures Descending(isa, src, rest, s, n, caps, d) ==
      Descending(isa, src, rest, s + 1, n - 1, caps, d) + Nested(isa, src, rest, s, caps, d)
    decreases n
  {
    hide Nested;
    if n > 1 { DescendingFrom(isa, src, rest, s, n - 1, caps, d); }
  }

  /** If the class matches exactly `n` characters in a row, a greedy repetition is those
      attempts. */
  lemma {:induction false} GreedyDescends(isa: CharTable, src: string, cls: Class, rest: seq<Item>, s: nat, n: nat, caps: seq<Capture>, d: nat)
    requires forall k :: s <= k < s + n ==> MatchesOne(isa, src, k, cls)
    requires !MatchesOne(isa, src, s + n, cls)
    ensures Repeated(isa, src, cls, Greedy, rest, s, caps, d) == Descending(isa, src, rest, s, n, caps, d)
    decreases n
  {
    hide Nested, MatchesOne;
    if n > 0 {
      GreedyDescends(isa, src, cls, rest, s + 1, n - 1, caps, d);
      DescendingFrom(isa, src, rest, s, n, caps, d);
    }
  }

  /** Captures that lie in the subject, before `s`. */
  ghost predicate Inside(caps: seq<Capture>, s: nat) {
    forall k :: 0 <= k < |caps| ==> CaptureInside(caps[k], s)
  }

  ghost predicate CaptureInside(c: Capture, s: nat) {
    c.start <= s && (c.Closed? ==> 0 <= c.len && c.start + c.len <= s)
  }

  // ------------------------------------------------------------------ sets and balance

  /** matchbracketclass: `p` is at the `[` (or behind it at the `^`), `ec` at the `]`. */
  method MatchBracketClass(isa: CharTable, c: char, pat: string, p0: nat, ec: nat) returns (r: bool)
    requires At(pat, p0) == '[' && p0 < ec <= |pat|
    ensures r == ClassAt(pat, p0, ec + 1).Has(isa, c)
  {
    var p, sig := p0, true;
    if At(pat, p + 1) == '^' {
      sig := false;
      p := p + 1;
    }
    p := p + 1;
    hide MatchClass, SomeHas;
    NoneHas(isa, c);
    ghost var found := SomeHas(isa, Elems(pat, p, ec), c);
    while p < ec
      invariant SomeHas(isa, Elems(pat, p, ec), c) == found
      decreases ec - p
    {
      FirstElem(isa, pat, p, ec, c);
      if At(pat, p) == '%' {
        p := p + 1;
        if MatchClass(isa, c, At(pat, p)) {
          return sig;
        }
      } else if At(pat, p + 1) == '-' && p + 2 < ec {
        p := p + 2;
        if At(pat, p - 2) <= c <= At(pat, p) {
          return sig;
        }
      } else if At(pat, p) == c {
        return sig;
      }
      p := p + 1;
    }
    return !sig;
  }

  lemma NoneHas(isa: CharTable, c: char)
    ensures !SomeHas(isa, [], c)
  {
  }

  lemma FirstElem(isa: CharTable, pat: string, p: nat, ec: nat, c: char)
    requires p < ec
    ensures SomeHas(isa, Elems(pat, p, ec), c) ==
      if At(pat, p) == '%' then MatchClass(isa, c, At(pat, p + 1)) || SomeHas(isa, Elems(pat, p + 2, ec), c)
      else if At(pat, p + 1) == '-' && p + 2 < ec then At(pat, p) <= c <= At(pat, p + 2) || SomeHas(isa, Elems(pat, p + 3, ec), c)
      else At(pat, p) == c || SomeHas(isa, Elems(pat, p + 1, ec), c)
  {
    hide MatchClass;
    var es := Elems(pat, p, ec);
    SomeFirst(isa, es[0], es[1..], c);
    assert es == [es[0]] + es[1..];
  }

  lemma SomeFirst(isa: CharTable, e: SetElem, es: seq<SetElem>, c: char)
    ensures SomeHas(isa, [e] + es, c) == (ElemHas(isa, e, c) || SomeHas(isa, es, c))
  {
    if ElemHas(isa, e, c) { assert ([e] + es)[0] == e; }
    if SomeHas(isa, es, c) {
      var k :| 0 <= k < |es| && ElemHas(isa, es[k], c);
      assert ([e] + es)[k + 1] == es[k];
    }
  }

  /** singlematch */
  method SingleMatch(isa: CharTable, c: char, pat: string, p: nat, ep: nat) returns (r: bool)
    requires At(pat, p) != '\0' && ClassEnd(pat, p) == Ok(ep)
    ensures r == ClassAt(pat, p, ep).Has(isa, c)
  {
    if pat[p] == '[' {
      r := MatchBracketClass(isa, c, pat, p, ep - 1);
    } else {
      r := match pat[p] case '.' => true case '%' => MatchClass(isa, c, At(pat, p + 1)) case x => x == c;
    }
  }

  /** classend */
  method FindClassEnd(pat: string, p0: nat) returns (r: Result<nat, Error>)
    requires At(pat, p0) != '\0'
    ensures r == ClassEnd(pat, p0)
  {
    var p := p0 + 1;
    match pat[p0]
    case '%' =>
      if At(pat, p) == '\0' {
        return Err(MalformedEsc);
      }
      return Ok(p + 1);
    case '[' =>
      if At(pat, p) == '^' {
        p := p + 1;
      }
      var first := true;
      while first || At(pat, p) != ']'
        invariant p <= |pat|
        invariant if !first && At(pat, p) == ']' then ClassEnd(pat, p0) == Ok(p + 1) else ClassEnd(pat, p0) == SetEnd(pat, p)
        decreases |pat| - p
      {
        first := false;
        if At(pat, p) == '\0' {
          return Err(MalformedSet);
        }
        p := p + if pat[p] == '%' && At(pat, p + 1) != '\0' then 2 else 1;
      }
      return Ok(p + 1);
    case _ => return Ok(p);
  }

  /** matchbalance, for the two characters at `p` of the pattern. */
  method MatchBalance(src: string, s0: nat, pat: string, p: nat) returns (r: Result<Option<nat>, Error>)
    requires s0 <= |src|
    ensures if At(pat, p) == '\0' || At(pat, p + 1) == '\0' then r == Err(Unbalanced)
      else r == Ok(BalanceEnd(src, s0, pat[p], pat[p + 1]))
  {
    if At(pat, p) == '\0' || At(pat, p + 1) == '\0' {
      return Err(Unbalanced);
    }
    var b, e := pat[p], pat[p + 1];
    if At(src, s0) != b {
      assert forall t :: !BalancedTo(src, s0, b, e, t);
      return Ok(None);
    }
    var cont := 1;
    var s := s0 + 1;
    while s < |src|
      invariant s0 < s <= |src| && cont == Pending(src, s0, s, b, e) && cont > 0
      invariant forall i :: s0 < i <= s ==> Pending(src, s0, i, b, e) > 0
    {
      if src[s] == e {
        cont := cont - 1;
        if cont == 0 {
          assert BalancedTo(src, s0, b, e, s + 1);
          BalanceUnique(src, s0, b, e, s + 1);
          return Ok(Some(s + 1));
        }
      } else if src[s] == b {
        cont := cont + 1;
      }
      s := s + 1;
    }
    assert forall t :: !BalancedTo(src, s0, b, e, t);
    return Ok(None);
  }

  lemma BalanceUnique(src: string, s: nat, b: char, e: char, t: nat)
    requires BalancedTo(src, s, b, e, t)
    ensures BalanceEnd(src, s, b, e) == Some(t)
  {
    var u := BalanceEnd(src, s, b, e).value;
    assert BalancedTo(src, s, b, e, u);
  }

  // ---------------------------------------------------------------------- the matcher

  /** What one round of the matcher leads to: another round further on in the pattern, the
      answer, or an error. */
  datatype Next = Goto(s: nat, p: nat) | Answer(end: Option<nat>) | Raise(err: Error)

  /** A round that starts with the ways `outs` may only lead to this. */
  ghost predicate Leads(next: Next, isa: CharTable, src: string, pat: string, p: nat, outs: seq<Outcome>,
                        caps0: seq<Capture>, caps1: seq<Capture>, s: nat, d: nat) {
    match next
    case Goto(s1, p1) => s <= s1 <= |src| && p < p1 <= |pat| && caps1 == caps0 && Ways(isa, src, Items(pat, p1), s1, caps0, d) == outs
    case Answer(o) => Answers(Ok(o), outs, caps0, caps1)
    case Raise(e) => Answers(Err(e), outs, caps0, caps1)
  }

  lemma InsideFurther(caps: seq<Capture>, s: nat, t: nat)
    requires Inside(caps, s) && s <= t
    ensures Inside(caps, t)
  {
    forall k | 0 <= k < |caps| ensures CaptureInside(caps[k], t) { assert CaptureInside(caps[k], s); }
  }

  lemma SingleWays(isa: CharTable, src: string, pat: string, p: nat, ep: nat, s: nat, caps: seq<Capture>, d: nat)
    requires At(pat, p) != '\0' && ItemAt(pat, p) == SingleAt(pat, p) && ClassEnd(pat, p) == Ok(ep)
    ensures var rep := RepeatOf(At(pat, ep));
      Ways(isa, src, Items(pat, p), s, caps, d) ==
      Repeated(isa, src, ClassAt(pat, p, ep), rep, Items(pat, if rep == Once then ep else ep + 1), s, caps, d)
  {
    var (item, next) := ItemAt(pat, p);
    assert Items(pat, p) == [item] + Items(pat, next);
    assert Items(pat, p)[1..] == Items(pat, next);
  }

  lemma ErrorWays(isa: CharTable, src: string, pat: string, p: nat, s: nat, caps: seq<Capture>, d: nat)
    requires At(pat, p) != '\0' && ItemAt(pat, p) == SingleAt(pat, p)
    ensures ClassEnd(pat, p).Err? ==> Ways(isa, src, Items(pat, p), s, caps, d) == [Bad(ClassEnd(pat, p).error)]
  {
  }

  /** A frontier that is not well-formed. */
  lemma FrontierError(isa: CharTable, src: string, pat: string, p: nat, s: nat, caps: seq<Capture>, d: nat)
    requires At(pat, p) == '%' && At(pat, p + 1) == 'f'
    ensures At(pat, p + 2) != '[' ==> Ways(isa, src, Items(pat, p), s, caps, d) == [Bad(MalformedFrontier)]
    ensures At(pat, p + 2) == '[' && ClassEnd(pat, p + 2).Err? ==> Ways(isa, src, Items(pat, p), s, caps, d) == [Bad(ClassEnd(pat, p + 2).error)]
  {
  }

  lemma FrontierWays(isa: CharTable, src: string, pat: string, p: nat, ep: nat, s: nat, caps: seq<Capture>, d: nat)
    requires At(pat, p) == '%' && At(pat, p + 1) == 'f' && At(pat, p + 2) == '[' && ClassEnd(pat, p + 2) == Ok(ep)
    ensures p + 3 < ep <= |pat|
    ensures Ways(isa, src, Items(pat, p), s, caps, d) == if FrontierAt(isa, src, s, ClassAt(pat, p + 2, ep)) then Ways(isa, src, Items(pat, ep), s, caps, d) else []
  {
    hide FrontierAt;
    var (item, next) := ItemAt(pat, p);
    assert Items(pat, p) == [item] + Items(pat, next);
    assert Items(pat, p)[1..] == Items(pat, next);
  }

  class MatchState {
    const isa: CharTable
    const src: string
    const pat: string
    var level: nat
    var depth: nat
    const capture: array<Capture>

    ghost predicate Valid()
      reads this
    {
      capture.Length == MAX_CAPTURES && level <= MAX_CAPTURES
    }

    /** The captures, finished or not. */
    function Caps(): seq<Capture>
      requires capture.Length == MAX_CAPTURES && level <= MAX_CAPTURES
      reads this, capture
    {
      capture[..level]
    }

    /** All ways to match from `p` on at `s`, at the current depth. */
    ghost function Now(s: nat, p: nat): seq<Outcome>
      requires Valid()
      reads this, capture
    {
      Ways(isa, src, Items(pat, p), s, Caps(), depth)
    }

    /** All ways to match, one level deeper. */
    ghost function Deeper(s: nat, p: nat): seq<Outcome>
      requires Valid()
      reads this, capture
    {
      Nested(isa, src, Items(pat, p), s, Caps(), depth)
    }

    constructor (isa: CharTable, src: string, pat: string)
      ensures Valid() && fresh(capture) && level == 0 && depth == 0
      ensures this.isa == isa && this.src == src && this.pat == pat
    {
      this.isa, this.src, this.pat := isa, src, pat;
      level, depth := 0, 0;
      capture := new Capture[MAX_CAPTURES](_ => Position(0));
    }

    /** start_capture: the pattern goes on at `p`. */
    method StartCapture(s: nat, p: nat, position: bool) returns (res: Result<Option<nat>, Error>)
      requires Valid() && s <= |src| && p <= |pat| && Inside(Caps(), s)
      modifies this`level, this`depth, capture
      ensures Valid() && (res.Ok? ==> depth == old(depth))
      ensures Answers(res, if old(level) >= MAX_CAPTURES then [Bad(TooManyCaptures)]
                           else Nested(isa, src, Items(pat, p), s, old(Caps()) + [if position then Position(s) else Unfinished(s)], old(depth)),
                      old(Caps()), Caps())
      decreases |pat| - p, 5
    {
      if level >= MAX_CAPTURES {
        return Err(TooManyCaptures);
      }
      ghost var caps := Caps();
      capture[level] := if position then Position(s) else Unfinished(s);
      level := level + 1;
      assert Caps() == caps + [if position then Position(s) else Unfinished(s)];
      res := Match(s, p);
      if res == Ok(None) {
        level := level - 1;
        assert Caps() == caps;
      }
    }

    /** end_capture */
    method EndCapture(s: nat, p: nat) returns (res: Result<Option<nat>, Error>)
      requires Valid() && s <= |src| && p <= |pat| && Inside(Caps(), s)
      modifies this`level, this`depth, capture
      ensures Valid() && (res.Ok? ==> depth == old(depth))
      ensures Answers(res, match LastUnfinished(old(Caps()))
                           case None => [Bad(BadPatternCapture)]
                           case Some(l) => Nested(isa, src, Items(pat, p), s,
                                                  old(Caps())[l := Closed(old(Caps())[l].start, s - old(Caps())[l].start)], old(depth)),
                      old(Caps()), Caps())
      decreases |pat| - p, 5
    {
      ghost var caps := Caps();
      var l := CaptureToClose();
      if l.None? {
        return Err(BadPatternCapture);
      }
      assert CaptureInside(caps[l.value], s);
      var start := capture[l.value].start;
      capture[l.value] := Closed(start, s - start);
      assert Caps() == caps[l.value := Closed(start, s - start)];
      res := Match(s, p);
      if res == Ok(None) {
        capture[l.value] := Unfinished(start);
        assert Caps() == caps;
      }
    }

    /** capture_to_close */
    method CaptureToClose() returns (l: Option<nat>)
      requires Valid()
      ensures l == LastUnfinished(Caps())
    {
      var i: nat := level;
      while i > 0
        invariant i <= level && LastUnfinished(Caps()[..i]) == LastUnfinished(Caps())
      {
        assert Caps()[..i][..i - 1] == Caps()[..i - 1];
        i := i - 1;
        if capture[i].Unfinished? {
          return Some(i);
        }
      }
      return None;
    }

    /** match_capture, with check_capture */
    method MatchCapture(s: nat, digit: char) returns (res: Result<Option<nat>, Error>)
      requires Valid() && s <= |src| && Inside(Caps(), s)
      ensures match RefIndex(Caps(), digit)
        case None => res == Err(BadCaptureIndex)
        case Some(l) => res == Ok(RefEnd(src, s, Caps()[l]))
    {
      var l := digit as int - '1' as int;
      if l < 0 || l >= level || capture[l].Unfinished? {
        return Err(BadCaptureIndex);
      }
      assert CaptureInside(Caps()[l], s);
      var cap := capture[l];
      if cap.Closed? && |src| - s >= cap.len && src[cap.start..cap.start + cap.len] == src[s..s + cap.len] {
        return Ok(Some(s + cap.len));
      }
      return Ok(None);
    }

    /** max_expand, for the class from `p` to `ep`. */
    method MaxExpand(s: nat, p: nat, ep: nat) returns (res: Result<Option<nat>, Error>)
      requires Valid() && s <= |src| && Inside(Caps(), s)
      requires p < ep < |pat| && At(pat, p) != '\0' && ClassEnd(pat, p) == Ok(ep)
      modifies this`level, this`depth, capture
      ensures Valid() && (res.Ok? ==> depth == old(depth))
      ensures Answers(res, Repeated(isa, src, ClassAt(pat, p, ep), Greedy, Items(pat, ep + 1), s, old(Caps()), old(depth)),
                      old(Caps()), Caps())
      decreases |pat| - p, 0
    {
      hide Repeated, Nested, Items, ClassEnd;
      ghost var caps, d, cls, rest := Caps(), depth, ClassAt(pat, p, ep), Items(pat, ep + 1);
      var i := 0;
      while s + i < |src|
        invariant s + i <= |src| && Valid() && depth == d && Caps() == caps
        invariant forall k :: s <= k < s + i ==> MatchesOne(isa, src, k, cls)
        decreases |src| - i
      {
        var one := SingleMatch(isa, src[s + i], pat, p, ep);
        if !one {
          break;
        }
        i := i + 1;
      }
      GreedyDescends(isa, src, cls, rest, s, i, caps, d);
      ghost var outs := Descending(isa, src, rest, s, i, caps, d);
      while i >= 0
        invariant -1 <= i && s + i <= |src| && Valid() && depth == d && Caps() == caps
        invariant outs == if i < 0 then [] else Descending(isa, src, rest, s, i, caps, d)
      {
        InsideFurther(caps, s, s + i);
        res := Match(s + i, ep + 1);
        if res != Ok(None) {
          return;
        }
        i := i - 1;
      }
      return Ok(None);
    }

    /** min_expand */
    method MinExpand(s0: nat, p: nat, ep: nat) returns (res: Result<Option<nat>, Error>)
      requires Valid() && s0 <= |src| && Inside(Caps(), s0)
      requires p < ep < |pat| && At(pat, p) != '\0' && ClassEnd(pat, p) == Ok(ep)
      modifies this`level, this`depth, capture
      ensures Valid() && (res.Ok? ==> depth == old(depth))
      ensures Answers(res, Repeated(isa, src, ClassAt(pat, p, ep), Lazy, Items(pat, ep + 1), s0, old(Caps()), old(depth)),
                      old(Caps()), Caps())
      decreases |pat| - p, 0
    {
      hide Nested, Items, ClassEnd;
      ghost var caps, d, cls, rest := Caps(), depth, ClassAt(pat, p, ep), Items(pat, ep + 1);
      ghost var outs := Repeated(isa, src, cls, Lazy, rest, s0, caps, d);
      var s := s0;
      while true
        invariant s0 <= s <= |src| && Valid() && depth == d && Caps() == caps
        invariant outs == Repeated(isa, src, cls, Lazy, rest, s, caps, d)
        decreases |src| - s
      {
        InsideFurther(caps, s0, s);
        res := Match(s, ep + 1);
        if res != Ok(None) {
          return;
        }
        if s >= |src| {
          return Ok(None);
        }
        var one := SingleMatch(isa, src[s], pat, p, ep);
        if !one {
          return Ok(None);
        }
        s := s + 1;
      }
    }

    /** The default case: a class, perhaps repeated. */
    method MatchSingle(s: nat, p: nat) returns (next: Next)
      requires Valid() && s <= |src| && Inside(Caps(), s) && p < |pat| && At(pat, p) != '\0' && ItemAt(pat, p) == SingleAt(pat, p)
      modifies this`level, this`depth, capture
      ensures Valid() && (!next.Raise? ==> depth == old(depth))
      ensures Leads(next, isa, src, pat, p, old(Now(s, p)), old(Caps()), Caps(), s, depth)
      decreases |pat| - p, 1
    {
      hide Ways, Items;
      ErrorWays(isa, src, pat, p, s, Caps(), depth);
      var ce := FindClassEnd(pat, p);
      if ce.Err? {
        return Raise(ce.error);
      }
      var ep := ce.value;
      var m := false;
      if s < |src| {
        m := SingleMatch(isa, src[s], pat, p, ep);
      }
      SingleWays(isa, src, pat, p, ep, s, Caps(), depth);
      var res;
      match At(pat, ep) {
        case '?' =>
          if m {
            InsideFurther(Caps(), s, s + 1);
            res := Match(s + 1, ep + 1);
            if res != Ok(None) {
              return ToNext(res);
            }
          }
          return Goto(s, ep + 1);
        case '*' => res := MaxExpand(s, p, ep);
        case '+' =>
          if !m {
            return Answer(None);
          }
          InsideFurther(Caps(), s, s + 1);
          res := MaxExpand(s + 1, p, ep);
        case '-' => res := MinExpand(s, p, ep);
        case _ =>
          if m {
            return Goto(s + 1, ep);
          }
          return Answer(None);
      }
      return ToNext(res);
    }

    function ToNext(res: Result<Option<nat>, Error>): Next {
      match res case Ok(o) => Answer(o) case Err(e) => Raise(e)
    }

    /** A frontier: the set does not have the character before, but the one here. */
    method MatchFrontier(s: nat, p: nat) returns (next: Next)
      requires Valid() && s <= |src| && At(pat, p) == '%' && At(pat, p + 1) == 'f'
      ensures Leads(next, isa, src, pat, p, Now(s, p), Caps(), Caps(), s, depth)
    {
      hide Ways, Items, ClassEnd, FrontierAt;
      FrontierError(isa, src, pat, p, s, Caps(), depth);
      if At(pat, p + 2) != '[' {
        return Raise(MalformedFrontier);
      }
      var ce := FindClassEnd(pat, p + 2);
      if ce.Err? {
        return Raise(ce.error);
      }
      FrontierWays(isa, src, pat, p, ce.value, s, Caps(), depth);
      var here := IsFrontier(s, p + 2, ce.value);
      if !here {
        return Answer(None);
      }
      return Goto(s, ce.value);
    }

    method IsFrontier(s: nat, p: nat, ep: nat) returns (r: bool)
      requires s <= |src| && At(pat, p) == '[' && p + 1 < ep <= |pat|
      ensures r == FrontierAt(isa, src, s, ClassAt(pat, p, ep))
    {
      hide Elems, MatchClass, SomeHas, Class.Has;
      var before := MatchBracketClass(isa, if s == 0 then '\0' else src[s - 1], pat, p, ep - 1);
      var here := MatchBracketClass(isa, At(src, s), pat, p, ep - 1);
      r := !before && here;
    }

    /** The items written with an escape: balanced strings, frontiers, back references. */
    method MatchEscape(s: nat, p: nat) returns (next: Next)
      requires Valid() && s <= |src| && Inside(Caps(), s) && At(pat, p) == '%'
      modifies this`level, this`depth, capture
      ensures Valid() && (!next.Raise? ==> depth == old(depth))
      ensures Leads(next, isa, src, pat, p, old(Now(s, p)), old(Caps()), Caps(), s, depth)
      decreases |pat| - p, 2
    {
      var c := At(pat, p + 1);
      if c == 'b' {
        var r := MatchBalance(src, s, pat, p + 2);
        match r
        case Err(e) => return Raise(e);
        case Ok(None) => return Answer(None);
        case Ok(Some(t)) => return Goto(t, p + 4);
      } else if c == 'f' {
        next := MatchFrontier(s, p);
      } else if IsDigit(c) {
        var r := MatchCapture(s, c);
        match r
        case Err(e) => return Raise(e);
        case Ok(None) => return Answer(None);
        case Ok(Some(t)) => return Goto(t, p + 2);
      } else {
        next := MatchSingle(s, p);
      }
    }

    /** One round: the item at `p`. */
    method MatchItem(s: nat, p: nat) returns (next: Next)
      requires Valid() && s <= |src| && Inside(Caps(), s) && At(pat, p) != '\0'
      modifies this`level, this`depth, capture
      ensures Valid() && (!next.Raise? ==> depth == old(depth))
      ensures Leads(next, isa, src, pat, p, old(Now(s, p)), old(Caps()), Caps(), s, depth)
      decreases |pat| - p, 3
    {
      match pat[p]
      case '(' =>
        var res;
        if At(pat, p + 1) == ')' {
          res := StartCapture(s, p + 2, true);
        } else {
          res := StartCapture(s, p + 1, false);
        }
        return ToNext(res);
      case ')' =>
        var res := EndCapture(s, p + 1);
        return ToNext(res);
      case '%' => next := MatchEscape(s, p);
      case '$' =>
        if At(pat, p + 1) == '\0' {
          return Answer(if s == |src| then Some(s) else None);
        }
        next := MatchSingle(s, p);
      case _ => next := MatchSingle(s, p);
    }

    /** match: the answer is the first of all ways to match, and a failed match leaves the
        captures and the depth as they were. */
    method Match(s0: nat, p0: nat) returns (res: Result<Option<nat>, Error>)
      requires Valid() && s0 <= |src| && p0 <= |pat| && Inside(Caps(), s0)
      modifies this`level, this`depth, capture
      ensures Valid() && (res.Ok? ==> depth == old(depth))
      ensures Answers(res, old(Deeper(s0, p0)), old(Caps()), Caps())
      decreases |pat| - p0, 4
    {
      depth := depth + 1;
      if depth > MAX_DEPTH {
        return Err(TooComplex);
      }
      ghost var caps, d, outs := Caps(), depth, Now(s0, p0);
      var s, p := s0, p0;
      while At(pat, p) != '\0'
        invariant s0 <= s <= |src| && p0 <= p <= |pat| && Valid() && depth == d && Caps() == caps
        invariant Now(s, p) == outs
        decreases |pat| - p
      {
        InsideFurther(caps, s0, s);
        var next := MatchItem(s, p);
        match next
        case Raise(e) => return Err(e);
        case Answer(o) =>
          depth := depth - 1;
          return Ok(o);
        case Goto(s1, p1) => s, p := s1, p1;
      }
      depth := depth - 1;
      return Ok(Some(s));
    }
  }
}
