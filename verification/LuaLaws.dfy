/** What the text of a pattern means for the characters of the subject (lib_string.c): for each
    character that is special in a pattern, what the matcher answers. A class is given by the place
    of its text in the pattern, from `p` up to `ep`. */
module LuaLaws {
  import opened Wrappers
  import opened LuaPattern
  import opened LuaMatch
  import opened LuaWays

  // ------------------------------------------------------------------------- classes

  /** The text of a class starts at `p` and ends before `ep`. */
  predicate ClassText(pat: string, p: nat, ep: nat) {
    At(pat, p) != '\0' && ItemAt(pat, p) == SingleAt(pat, p) && ClassEnd(pat, p) == Ok(ep)
  }

  /** Character `x` is of that class. */
  ghost predicate Fits(isa: CharTable, pat: string, p: nat, ep: nat, x: char) { ClassAt(pat, p, ep).Has(isa, x) }

  /** Exactly `n` characters of the class are at `s` in a row. */
  ghost predicate Stretch(isa: CharTable, src: string, pat: string, p: nat, ep: nat, s: nat, n: nat) {
    && s + n <= |src| && (forall k :: s <= k < s + n ==> Fits(isa, pat, p, ep, src[k]))
    && (s + n < |src| ==> !Fits(isa, pat, p, ep, src[s + n]))
  }

  /** A character that only stands for itself. */
  predicate Plain(c: char) { c !in "^$*+?.()[]%-" && c != '\0' }

  /** A plain character stands for itself, and `.` for every character. */
  lemma CharLaw(isa: CharTable, pat: string, p: nat, x: char)
    requires p < |pat|
    ensures Plain(pat[p]) ==> ClassText(pat, p, p + 1) && (Fits(isa, pat, p, p + 1, x) <==> x == pat[p])
    ensures pat[p] == '.' ==> ClassText(pat, p, p + 1) && Fits(isa, pat, p, p + 1, x)
  {
  }

  function Upper(l: char): char
    requires 'a' <= l <= 'z'
  {
    (l as int - 32) as char
  }

  /** `%` and a class letter stand for the characters of that class, `%` and the upper case letter
      for all others; `%z` and `%Z` are the zero character and the others; before a character that
      is no letter, `%` makes it stand for itself. */
  lemma EscapeLaw(isa: CharTable, pat: string, p: nat, x: char)
    requires p + 1 < |pat| && pat[p] == '%' && pat[p + 1] != '\0'
    ensures var l := pat[p + 1];
      && (ClassLetter(l) ==> (Fits(isa, pat, p, p + 2, x) <==> isa(x, l)))
      && (forall m: char :: ClassLetter(m) && l == Upper(m) ==> (Fits(isa, pat, p, p + 2, x) <==> !isa(x, m)))
      && (l == 'z' ==> (Fits(isa, pat, p, p + 2, x) <==> x == '\0')) && (l == 'Z' ==> (Fits(isa, pat, p, p + 2, x) <==> x != '\0'))
      && (!('a' <= l <= 'z' || 'A' <= l <= 'Z') ==> (Fits(isa, pat, p, p + 2, x) <==> x == l))
    ensures pat[p + 1] !in "bf" && !IsDigit(pat[p + 1]) ==> ClassText(pat, p, p + 2)
  {
    forall m: char | ClassLetter(m) && pat[p + 1] == Upper(m) ensures Lower(pat[p + 1]) == m && !ClassLetter(pat[p + 1]) {
    }
  }

  // ----------------------------------------------------------------------------- sets

  lemma {:induction false} PlainElems(isa: CharTable, pat: string, p: nat, ec: nat, x: char)
    requires p <= ec < |pat| && forall k :: p <= k < ec ==> pat[k] != '%' && pat[k] != '-'
    requires pat[ec] == ']'
    ensures SomeHas(isa, Elems(pat, p, ec), x) <==> x in pat[p..ec]
    decreases ec - p
  {
    NoneHas(isa, x);
    if p < ec {
      PlainElems(isa, pat, p + 1, ec, x);
      FirstElem(isa, pat, p, ec, x);
      assert pat[p..ec] == [pat[p]] + pat[p + 1..ec];
    }
  }

  /** A set of characters has exactly those. */
  lemma SetLaw(isa: CharTable, pat: string, p: nat, ep: nat, x: char)
    requires p + 2 < ep <= |pat| && pat[p] == '[' && pat[ep - 1] == ']' && pat[p + 1] != '^'
    requires forall k :: p < k < ep - 1 ==> pat[k] != '%' && pat[k] != '-'
    ensures Fits(isa, pat, p, ep, x) <==> x in pat[p + 1..ep - 1]
  {
    PlainElems(isa, pat, p + 1, ep - 1, x);
  }

  /** A range has the characters from its first to its last. */
  lemma RangeLaw(isa: CharTable, pat: string, p: nat, x: char)
    requires p + 5 <= |pat| && pat[p] == '[' && pat[p + 2] == '-' && pat[p + 4] == ']' && pat[p + 1] != '^' && pat[p + 1] != '%'
    ensures Fits(isa, pat, p, p + 5, x) <==> pat[p + 1] <= x <= pat[p + 3]
  {
    FirstElem(isa, pat, p + 1, p + 4, x);
    NoneHas(isa, x);
    assert Elems(pat, p + 4, p + 4) == [];
  }

  /** An escape in a set is the same class as outside. */
  lemma SetEscapeLaw(isa: CharTable, pat: string, p: nat, q: nat, x: char)
    requires p + 4 <= |pat| && pat[p] == '[' && pat[p + 1] == '%' && pat[p + 3] == ']'
    requires q + 2 <= |pat| && pat[q] == '%' && pat[q + 1] == pat[p + 2]
    ensures Fits(isa, pat, p, p + 4, x) <==> Fits(isa, pat, q, q + 2, x)
  {
    hide MatchClass;
    FirstElem(isa, pat, p + 1, p + 3, x);
    NoneHas(isa, x);
    assert Elems(pat, p + 3, p + 3) == [];
  }

  /** What is first in a set is added to what the rest has. */
  lemma UnionLaw(isa: CharTable, pat: string, p: nat, ep: nat, x: char)
    requires p + 3 < ep <= |pat| && pat[p] == '[' && pat[ep - 1] == ']' && pat[p + 1] != '^'
    requires pat[p + 1] != '%' && pat[p + 2] != '-'
    ensures Fits(isa, pat, p, ep, x) <==> x == pat[p + 1] || SomeHas(isa, Elems(pat, p + 2, ep - 1), x)
  {
    FirstElem(isa, pat, p + 1, ep - 1, x);
  }

  predicate SameAt(pat: string, p: nat, pat1: string, p1: nat, k: nat) { At(pat, p + k) == At(pat1, p1 + k) }

  predicate SameText(pat: string, p: nat, pat1: string, p1: nat, n: nat) {
    forall k: nat {:trigger SameAt(pat, p, pat1, p1, k)} :: k <= n ==> SameAt(pat, p, pat1, p1, k)
  }

  lemma TextFrom(pat: string, p: nat, pat1: string, p1: nat, n: nat, m: nat)
    requires SameText(pat, p, pat1, p1, n) && m <= n
    ensures SameText(pat, p + m, pat1, p1 + m, n - m) && At(pat, p + m) == At(pat1, p1 + m)
  {
    assert SameAt(pat, p, pat1, p1, m);
    var q, q1 := p + m, p1 + m;
    forall k: nat | k <= n - m ensures SameAt(pat, q, pat1, q1, k) {
      assert SameAt(pat, p, pat1, p1, m + k);
      assert p + (m + k) == q + k && p1 + (m + k) == q1 + k;
    }
  }

  lemma ElemsStep(pat: string, p: nat, pat1: string, p1: nat, n: nat)
    requires n > 0 && At(pat, p) == At(pat1, p1) && At(pat, p + 1) == At(pat1, p1 + 1) && (n >= 2 ==> At(pat, p + 2) == At(pat1, p1 + 2))
    requires Elems(pat, p + 1, p + n) == Elems(pat1, p1 + 1, p1 + n)
    requires n >= 2 ==> Elems(pat, p + 2, p + n) == Elems(pat1, p1 + 2, p1 + n)
    requires n >= 3 ==> Elems(pat, p + 3, p + n) == Elems(pat1, p1 + 3, p1 + n)
    ensures Elems(pat, p, p + n) == Elems(pat1, p1, p1 + n)
  {
    if n == 1 { assert Elems(pat, p + 2, p + n) == [] && Elems(pat1, p1 + 2, p1 + n) == []; }
  }

  lemma {:induction false} SameElems(pat: string, p: nat, pat1: string, p1: nat, n: nat)
    requires SameText(pat, p, pat1, p1, n)
    ensures Elems(pat, p, p + n) == Elems(pat1, p1, p1 + n)
    decreases n
  {
    hide SameText, Elems, At;
    if n > 0 {
      TextFrom(pat, p, pat1, p1, n, 0);
      TextFrom(pat, p, pat1, p1, n, 1);
      SameElems(pat, p + 1, pat1, p1 + 1, n - 1);
      if n >= 2 {
        TextFrom(pat, p, pat1, p1, n, 2);
        SameElems(pat, p + 2, pat1, p1 + 2, n - 2);
      }
      if n >= 3 {
        TextFrom(pat, p, pat1, p1, n, 3);
        SameElems(pat, p + 3, pat1, p1 + 3, n - 3);
      }
      ElemsStep(pat, p, pat1, p1, n);
    } else {
      NoElems(pat, p);
      NoElems(pat1, p1);
    }
  }

  lemma NoElems(pat: string, p: nat)
    ensures Elems(pat, p, p) == []
  {
  }

  lemma SetIs(isa: CharTable, pat: string, p: nat, n: nat, x: char)
    requires p + n + 2 <= |pat| && n > 0 && pat[p] == '['
    ensures pat[p + 1] != '^' ==> (Fits(isa, pat, p, p + n + 2, x) <==> SomeHas(isa, Elems(pat, p + 1, p + 1 + n), x))
    ensures pat[p + 1] == '^' ==> (Fits(isa, pat, p, p + n + 2, x) <==> !SomeHas(isa, Elems(pat, p + 2, p + 1 + n), x))
  {
    hide Elems, SomeHas;
  }

  /** `[^` makes the complement of what the same set has with `[`. */
  lemma ComplementLaw(isa: CharTable, pat: string, p: nat, pat1: string, p1: nat, n: nat, x: char)
    requires p + n + 2 <= |pat| && p1 + n + 3 <= |pat1| && n > 0
    requires pat[p] == '[' && pat1[p1] == '[' && pat1[p1 + 1] == '^' && pat[p + 1] != '^'
    requires SameText(pat, p + 1, pat1, p1 + 2, n)
    ensures Fits(isa, pat1, p1, p1 + n + 3, x) <==> !Fits(isa, pat, p, p + n + 2, x)
  {
    hide Fits, Elems, SomeHas, SameText;
    SameElems(pat, p + 1, pat1, p1 + 2, n);
    SetIs(isa, pat, p, n, x);
    SetIs(isa, pat1, p1, n + 1, x);
  }

  /** A set ends with the first `]` that is neither its first character nor escaped. */
  lemma {:induction false} SetEndLaw(pat: string, p: nat, e: nat)
    requires p < e < |pat| && pat[e] == ']' && forall k :: p <= k < e ==> pat[k] != '%' && pat[k] != '\0'
    requires forall k :: p < k < e ==> pat[k] != ']'
    ensures SetEnd(pat, p) == Ok(e + 1)
    decreases e - p
  {
    if p + 1 < e { SetEndLaw(pat, p + 1, e); }
  }

  // ---------------------------------------------------------------------- repetitions

  lemma NotBehind(isa: CharTable, src: string, pat: string, p: nat, ep: nat, s: nat, n: nat)
    requires Stretch(isa, src, pat, p, ep, s, n)
    ensures forall k :: s <= k < s + n ==> MatchesOne(isa, src, k, ClassAt(pat, p, ep))
    ensures !MatchesOne(isa, src, s + n, ClassAt(pat, p, ep))
    ensures n > 0 ==> Stretch(isa, src, pat, p, ep, s + 1, n - 1)
  {
    hide Class.Has, ClassAt;
  }

  /** `*`: any number of characters of the class, as many as possible first. */
  lemma StarLaw(isa: CharTable, src: string, pat: string, p: nat, ep: nat, s: nat, n: nat, caps: seq<Capture>, d: nat)
    requires ClassText(pat, p, ep) && Stretch(isa, src, pat, p, ep, s, n) && At(pat, ep) == '*'
    ensures Ways(isa, src, Items(pat, p), s, caps, d) == Descending(isa, src, Items(pat, ep + 1), s, n, caps, d)
  {
    SingleWays(isa, src, pat, p, ep, s, caps, d);
    NotBehind(isa, src, pat, p, ep, s, n);
    hide Ways, Items, Stretch, ClassText, Repeated;
    GreedyDescends(isa, src, ClassAt(pat, p, ep), Items(pat, ep + 1), s, n, caps, d);
  }

  /** `+`: the same, but at least one. */
  lemma PlusLaw(isa: CharTable, src: string, pat: string, p: nat, ep: nat, s: nat, n: nat, caps: seq<Capture>, d: nat)
    requires ClassText(pat, p, ep) && Stretch(isa, src, pat, p, ep, s, n) && At(pat, ep) == '+'
    ensures Ways(isa, src, Items(pat, p), s, caps, d) ==
      if n == 0 then [] else Descending(isa, src, Items(pat, ep + 1), s + 1, n - 1, caps, d)
  {
    SingleWays(isa, src, pat, p, ep, s, caps, d);
    NotBehind(isa, src, pat, p, ep, s, n);
    hide Ways, Items, Stretch, ClassText, MatchesOne, ClassAt, Descending;
    if n > 0 { GreedyDescends(isa, src, ClassAt(pat, p, ep), Items(pat, ep + 1), s + 1, n - 1, caps, d); }
  }

  /** `-`: any number, as few as possible first. */
  lemma MinusLaw(isa: CharTable, src: string, pat: string, p: nat, ep: nat, s: nat, n: nat, caps: seq<Capture>, d: nat)
    requires ClassText(pat, p, ep) && Stretch(isa, src, pat, p, ep, s, n) && At(pat, ep) == '-'
    ensures Ways(isa, src, Items(pat, p), s, caps, d) == Ascending(isa, src, Items(pat, ep + 1), s, n, caps, d)
  {
    SingleWays(isa, src, pat, p, ep, s, caps, d);
    NotBehind(isa, src, pat, p, ep, s, n);
    hide Ways, Items, Stretch, ClassText, Repeated;
    LazyAscends(isa, src, ClassAt(pat, p, ep), Items(pat, ep + 1), s, n, caps, d);
  }

  /** `?`: one if there is one, then none. */
  lemma OptionLaw(isa: CharTable, src: string, pat: string, p: nat, ep: nat, s: nat, n: nat, caps: seq<Capture>, d: nat)
    requires ClassText(pat, p, ep) && Stretch(isa, src, pat, p, ep, s, n) && At(pat, ep) == '?'
    ensures Ways(isa, src, Items(pat, p), s, caps, d) ==
      (if n > 0 then Nested(isa, src, Items(pat, ep + 1), s + 1, caps, d) else []) + Ways(isa, src, Items(pat, ep + 1), s, caps, d)
  {
    SingleWays(isa, src, pat, p, ep, s, caps, d);
    NotBehind(isa, src, pat, p, ep, s, n);
    hide Ways, Items, Stretch, ClassText, MatchesOne, ClassAt, Nested;
  }

  /** Nothing behind a class: exactly one. */
  lemma OnceLaw(isa: CharTable, src: string, pat: string, p: nat, ep: nat, s: nat, n: nat, caps: seq<Capture>, d: nat)
    requires ClassText(pat, p, ep) && Stretch(isa, src, pat, p, ep, s, n) && At(pat, ep) !in "*+-?"
    ensures Ways(isa, src, Items(pat, p), s, caps, d) == if n == 0 then [] else Ways(isa, src, Items(pat, ep), s + 1, caps, d)
  {
    SingleWays(isa, src, pat, p, ep, s, caps, d);
    NotBehind(isa, src, pat, p, ep, s, n);
    hide Ways, Items, Stretch, ClassText, MatchesOne, ClassAt, Nested;
  }

  lemma NothingLeft(isa: CharTable, src: string, s: nat, caps: seq<Capture>, d: nat)
    ensures Ways(isa, src, [], s, caps, d) == [Hit(s, caps)]
    ensures d + 1 <= MAX_DEPTH ==> Nested(isa, src, [], s, caps, d) == [Hit(s, caps)]
  {
  }

  lemma RepeatFirst(isa: CharTable, src: string, s: nat, n: nat, caps: seq<Capture>, d: nat)
    requires d + 1 <= MAX_DEPTH
    ensures var outs := Descending(isa, src, [], s, n, caps, d); outs != [] && outs[0] == Hit(s + n, caps)
    ensures var outs := Ascending(isa, src, [], s, n, caps, d); outs != [] && outs[0] == Hit(s, caps)
  {
    NothingLeft(isa, src, s + n, caps, d);
    NothingLeft(isa, src, s, caps, d);
    hide Nested;
  }

  /** Where a class repeated `n` times ends, by the character behind it. */
  function RepeatEnd(c: char, s: nat, n: nat): Option<nat> {
    match c
    case '*' => Some(s + n)
    case '+' => if n > 0 then Some(s + n) else None
    case '-' => Some(s)
    case '?' => Some(if n > 0 then s + 1 else s)
    case _ => if n > 0 then Some(s + 1) else None
  }

  lemma RepeatWay(isa: CharTable, src: string, pat: string, p: nat, ep: nat, s: nat, n: nat, caps: seq<Capture>, d: nat)
    requires ClassText(pat, p, ep) && Stretch(isa, src, pat, p, ep, s, n) && d + 1 <= MAX_DEPTH
    requires if At(pat, ep) in "*+-?" then At(pat, ep + 1) == '\0' else At(pat, ep) == '\0'
    ensures var outs := Ways(isa, src, Items(pat, p), s, caps, d);
      match RepeatEnd(At(pat, ep), s, n) case None => outs == [] case Some(t) => outs != [] && outs[0] == Hit(t, caps)
  {
    NothingLeft(isa, src, s, caps, d);
    NothingLeft(isa, src, s + 1, caps, d);
    assert Items(pat, if At(pat, ep) in "*+-?" then ep + 1 else ep) == [];
    hide Ways, Nested, Items, Descending, Ascending, ClassText, Stretch;
    match At(pat, ep) {
      case '*' =>
        StarLaw(isa, src, pat, p, ep, s, n, caps, d);
        RepeatFirst(isa, src, s, n, caps, d);
      case '+' =>
        PlusLaw(isa, src, pat, p, ep, s, n, caps, d);
        if n > 0 { RepeatFirst(isa, src, s + 1, n - 1, caps, d); }
      case '-' =>
        MinusLaw(isa, src, pat, p, ep, s, n, caps, d);
        RepeatFirst(isa, src, s, n, caps, d);
      case '?' => OptionLaw(isa, src, pat, p, ep, s, n, caps, d);
      case _ => OnceLaw(isa, src, pat, p, ep, s, n, caps, d);
    }
  }

  /** So a pattern that is one class repeated ends behind the last of `n` characters with `*`, and
      with `+` if there is one; where it starts with `-`; and behind one character, if there is
      one, with `?`. */
  lemma RepeatAnswers(isa: CharTable, src: string, pat: string, p: nat, ep: nat, s: nat, n: nat, caps: seq<Capture>, d: nat,
                      res: Result<Option<nat>, Error>, caps1: seq<Capture>)
    requires ClassText(pat, p, ep) && Stretch(isa, src, pat, p, ep, s, n) && d + 2 <= MAX_DEPTH
    requires if At(pat, ep) in "*+-?" then At(pat, ep + 1) == '\0' else At(pat, ep) == '\0'
    requires Answers(res, Nested(isa, src, Items(pat, p), s, caps, d), caps, caps1)
    ensures caps1 == caps && res == Ok(RepeatEnd(At(pat, ep), s, n))
  {
    RepeatWay(isa, src, pat, p, ep, s, n, caps, d + 1);
    hide Ways, Items, ClassText, Stretch, RepeatEnd;
  }

  /** `t` is in the subject at `s`. */
  predicate TextAt(src: string, s: nat, t: string) { s + |t| <= |src| && src[s..s + |t|] == t }

  lemma TextNext(src: string, s: nat, t: string)
    requires t != []
    ensures TextAt(src, s, t) <==> s < |src| && src[s] == t[0] && TextAt(src, s + 1, t[1..])
  {
    if s + |t| <= |src| {
      var u := src[s..s + |t|];
      assert u == [src[s]] + src[s + 1..s + |t|] && t == [t[0]] + t[1..];
      assert u[0] == src[s] && u[1..] == src[s + 1..s + |t|];
    }
  }

  /** A pattern of plain characters matches exactly its own text. */
  lemma {:induction false} TextLaw(isa: CharTable, src: string, pat: string, p: nat, s: nat, caps: seq<Capture>, d: nat)
    requires p <= |pat| && s <= |src| && forall k :: p <= k < |pat| ==> Plain(pat[k])
    ensures Ways(isa, src, Items(pat, p), s, caps, d) == if TextAt(src, s, pat[p..]) then [Hit(s + (|pat| - p), caps)] else []
    decreases |pat| - p
  {
    if p < |pat| {
      var n := if s < |src| && src[s] == pat[p] then 1 else 0;
      PlainStep(isa, src, pat, p, s, n, caps, d);
      TextNext(src, s, pat[p..]);
      assert pat[p..][1..] == pat[p + 1..];
      hide Ways, Items, TextAt, Plain;
      if n == 1 { TextLaw(isa, src, pat, p + 1, s + 1, caps, d); }
    } else {
      NoText(isa, src, pat, p, s, caps, d);
    }
  }

  lemma NoText(isa: CharTable, src: string, pat: string, p: nat, s: nat, caps: seq<Capture>, d: nat)
    requires p == |pat| && s <= |src|
    ensures Ways(isa, src, Items(pat, p), s, caps, d) == [Hit(s, caps)] && TextAt(src, s, pat[p..])
  {
    assert pat[p..] == [] && src[s..s] == [];
  }

  lemma PlainStep(isa: CharTable, src: string, pat: string, p: nat, s: nat, n: nat, caps: seq<Capture>, d: nat)
    requires p < |pat| && s <= |src| && Plain(pat[p]) && (p + 1 < |pat| ==> Plain(pat[p + 1]))
    requires n == if s < |src| && src[s] == pat[p] then 1 else 0
    ensures Ways(isa, src, Items(pat, p), s, caps, d) == if n == 1 then Ways(isa, src, Items(pat, p + 1), s + 1, caps, d) else []
  {
    SingleWays(isa, src, pat, p, p + 1, s, caps, d);
    CharLaw(isa, pat, p, if s < |src| then src[s] else '\0');
    hide Ways, Items;
  }

  // ---------------------------------------------------------------- captures and places

  /** A frontier: the character before is not in the set, and the one here is; before the subject
      and behind it there is a zero character. */
  lemma FrontierLaw(isa: CharTable, src: string, pat: string, p: nat, ep: nat, s: nat, caps: seq<Capture>, d: nat)
    requires At(pat, p) == '%' && At(pat, p + 1) == 'f' && At(pat, p + 2) == '[' && ClassEnd(pat, p + 2) == Ok(ep) && s <= |src|
    ensures var before, here := if s > 0 then src[s - 1] else '\0', if s < |src| then src[s] else '\0';
      Ways(isa, src, Items(pat, p), s, caps, d) ==
      if !Fits(isa, pat, p + 2, ep, before) && Fits(isa, pat, p + 2, ep, here) then Ways(isa, src, Items(pat, ep), s, caps, d) else []
  {
    FrontierWays(isa, src, pat, p, ep, s, caps, d);
    hide Ways, Items, ClassAt, Class.Has;
  }

  /** `$` at the end of the pattern: only at the end of the subject. */
  lemma EndLaw(isa: CharTable, src: string, pat: string, p: nat, s: nat, caps: seq<Capture>, d: nat)
    requires At(pat, p) == '$' && At(pat, p + 1) == '\0'
    ensures Ways(isa, src, Items(pat, p), s, caps, d) == if s == |src| then [Hit(s, caps)] else []
  {
  }

  /** `()` captures the position. */
  lemma PositionLaw(isa: CharTable, src: string, pat: string, p: nat, s: nat, caps: seq<Capture>, d: nat)
    requires At(pat, p) == '(' && At(pat, p + 1) == ')'
    ensures Ways(isa, src, Items(pat, p), s, caps, d) ==
      if |caps| < MAX_CAPTURES then Nested(isa, src, Items(pat, p + 2), s, caps + [Position(s)], d) else [Bad(TooManyCaptures)]
  {
    var items := Items(pat, p);
    assert items == [OpenPosition] + Items(pat, p + 2) && items[1..] == Items(pat, p + 2);
  }

  lemma OpenStep(isa: CharTable, src: string, pat: string, p: nat, s: nat, caps: seq<Capture>, d: nat)
    requires At(pat, p) == '(' && At(pat, p + 1) != ')' && |caps| < MAX_CAPTURES && d + 1 <= MAX_DEPTH
    ensures Ways(isa, src, Items(pat, p), s, caps, d) == Ways(isa, src, Items(pat, p + 1), s, caps + [Unfinished(s)], d + 1)
  {
    var items := Items(pat, p);
    assert items == [Open] + Items(pat, p + 1) && items[1..] == Items(pat, p + 1);
  }

  lemma CloseOnly(pat: string, p: nat)
    requires At(pat, p) == ')' && At(pat, p + 1) == '\0'
    ensures Items(pat, p) == [Close]
  {
    assert Items(pat, p + 1) == [];
  }

  lemma NotClose(pat: string, p: nat, ep: nat)
    requires ClassText(pat, p, ep)
    ensures At(pat, p) != ')'
  {
    assert ItemAt(pat, p).0 != Close;
  }

  /** A class repeated between parentheses captures the stretch matched. */
  lemma CaptureLaw(isa: CharTable, src: string, pat: string, p: nat, ep: nat, s: nat, n: nat, caps: seq<Capture>, d: nat)
    requires At(pat, p) == '(' && |caps| < MAX_CAPTURES && d + 3 <= MAX_DEPTH
    requires ClassText(pat, p + 1, ep) && Stretch(isa, src, pat, p + 1, ep, s, n)
    requires At(pat, ep) == '*' && At(pat, ep + 1) == ')' && At(pat, ep + 2) == '\0'
    ensures var outs := Ways(isa, src, Items(pat, p), s, caps, d); outs != [] && outs[0] == Hit(s + n, caps + [Closed(s, n)])
  {
    NotClose(pat, p + 1, ep);
    OpenStep(isa, src, pat, p, s, caps, d);
    CloseOnly(pat, ep + 1);
    StarLaw(isa, src, pat, p + 1, ep, s, n, caps + [Unfinished(s)], d + 1);
    CloseFirst(isa, src, s, s + n, caps, d + 1);
    hide Ways, Nested, Items, ClassText, Stretch;
  }

  lemma CloseFirst(isa: CharTable, src: string, s: nat, t: nat, caps: seq<Capture>, d: nat)
    requires d + 2 <= MAX_DEPTH
    ensures Nested(isa, src, [Close], t, caps + [Unfinished(s)], d) == [Hit(t, caps + [Closed(s, t - s)])]
  {
    var all := caps + [Unfinished(s)];
    assert LastUnfinished(all) == Some(|caps|);
    var done := all[|caps| := Closed(s, t - s)];
    assert done == caps + [Closed(s, t - s)];
    var rest := [Close][1..];
    assert rest == [];
    NothingLeft(isa, src, t, done, d + 1);
    assert Ways(isa, src, [Close], t, all, d + 1) == Nested(isa, src, rest, t, done, d + 1);
  }

  /** `%1` to `%9`: the text that the capture has, once more. */
  lemma ReferenceLaw(isa: CharTable, src: string, pat: string, p: nat, s: nat, caps: seq<Capture>, d: nat, k: nat)
    requires At(pat, p) == '%' && IsDigit(At(pat, p + 1)) && At(pat, p + 1) as int == '1' as int + k && s <= |src|
    requires k < |caps| && caps[k].Closed? && 0 <= caps[k].len && caps[k].start + caps[k].len <= |src|
    ensures var n := caps[k].len;
      Ways(isa, src, Items(pat, p), s, caps, d) ==
      if s + n <= |src| && src[s..s + n] == src[caps[k].start..caps[k].start + n] then Ways(isa, src, Items(pat, p + 2), s + n, caps, d) else []
  {
    var items := Items(pat, p);
    assert items == [BackRef(At(pat, p + 1))] + Items(pat, p + 2) && items[1..] == Items(pat, p + 2);
  }

  function Count(src: string, s: nat, t: nat, c: char): nat
    requires s <= t <= |src|
  {
    multiset(src[s..t])[c]
  }

  lemma {:induction false} PendingCounts(src: string, s: nat, t: nat, b: char, e: char)
    requires s < t <= |src| && src[s] == b && b != e
    ensures Pending(src, s, t, b, e) == Count(src, s, t, b) - Count(src, s, t, e)
    decreases t
  {
    if t == s + 1 {
      assert src[s..t] == [b];
    } else {
      PendingCounts(src, s, t - 1, b, e);
      assert src[s..t] == src[s..t - 1] + [src[t - 1]];
    }
  }

  predicate MoreOf(src: string, s: nat, t: nat, b: char, e: char) { s <= t <= |src| && Count(src, s, t, b) > Count(src, s, t, e) }

  /** `%b`: up to the first place where there are as many closing characters as opening ones. */
  lemma BalanceLaw(isa: CharTable, src: string, pat: string, p: nat, b: char, e: char, s: nat, t: nat, caps: seq<Capture>, d: nat)
    requires At(pat, p) == '%' && At(pat, p + 1) == 'b' && At(pat, p + 2) == b && At(pat, p + 3) == e && b != '\0' && e != '\0' && b != e
    requires s < t <= |src| && src[s] == b && Count(src, s, t, b) == Count(src, s, t, e)
    requires forall i :: s < i < t ==> MoreOf(src, s, i, b, e)
    ensures Ways(isa, src, Items(pat, p), s, caps, d) == Ways(isa, src, Items(pat, p + 4), t, caps, d)
  {
    forall i | s < i < t ensures Pending(src, s, i, b, e) > 0 {
      assert MoreOf(src, s, i, b, e);
      PendingCounts(src, s, i, b, e);
    }
    PendingCounts(src, s, t, b, e);
    assert BalancedTo(src, s, b, e, t);
    BalanceUnique(src, s, b, e, t);
    var items := Items(pat, p);
    assert items == [Balance(b, e)] + Items(pat, p + 4) && items[1..] == Items(pat, p + 4);
  }
}
