/** Lua patterns (lib_string.c) and what they mean: the list of all ways a pattern can match at
    a position, in the order in which they are preferred. Errors are part of that list, because
    the matcher only raises them when it gets to them. */
module LuaPattern {
  import opened Wrappers

  const MAX_CAPTURES := 32
  const MAX_DEPTH := 200

  datatype Error =
    | TooComplex            // nesting depth exceeded
    | TooManyCaptures
    | BadPatternCapture     // ')' without '('
    | BadCaptureIndex
    | UnfinishedCapture
    | MalformedEsc          // ends with '%'
    | MalformedSet          // missing ']'
    | MalformedFrontier     // missing '[' after '%f'
    | Unbalanced            // '%b' without two characters
    | BadReplacement

  // --------------------------------------------------------------- character classes

  /** The character table of the runtime: whether `c` is of the class named by letter `l`. */
  type CharTable = (char, char) -> bool

  predicate ClassLetter(c: char) {
    c in "acdglpsuwx"
  }

  function Lower(c: char): char {
    if 'A' <= c <= 'Z' then (c as int + 32) as char else c
  }

  /** match_class: upper case letters negate the class of the lower case one; `%z` is the zero
      byte; everything else stands for itself. */
  predicate MatchClass(isa: CharTable, c: char, cl: char) {
    if ClassLetter(cl) then isa(c, cl)
    else if 'A' <= cl <= 'Z' && ClassLetter(Lower(cl)) then !isa(c, Lower(cl))
    else if cl == 'z' then c == '\0'
    else if cl == 'Z' then c != '\0'
    else cl == c
  }

  datatype SetElem = EscElem(cl: char) | Range(lo: char, hi: char) | Just(c: char)

  predicate ElemHas(isa: CharTable, e: SetElem, c: char) {
    match e
    case EscElem(cl) => MatchClass(isa, c, cl)
    case Range(lo, hi) => lo <= c <= hi
    case Just(x) => x == c
  }

  ghost predicate SomeHas(isa: CharTable, elems: seq<SetElem>, c: char) {
    exists k :: 0 <= k < |elems| && ElemHas(isa, elems[k], c)
  }

  datatype Class = AnyChar | Esc(cl: char) | Set(negated: bool, elems: seq<SetElem>) | Lit(c: char) {
    ghost predicate Has(isa: CharTable, c: char) {
      match this
      case AnyChar => true
      case Esc(cl) => MatchClass(isa, c, cl)
      case Set(negated, elems) => negated != SomeHas(isa, elems, c)
      case Lit(x) => x == c
    }
  }

  // --------------------------------------------------------------------- pattern items

  datatype Repeat = Once | Optional | Greedy | GreedyPlus | Lazy

  datatype Item =
    | Single(cls: Class, rep: Repeat)
    | Open
    | OpenPosition
    | Close
    | BackRef(digit: char)
    | Balance(b: char, e: char)
    | Frontier(cls: Class)
    | AtEnd
    | Malformed(err: Error)

  /** Patterns end with a zero character. */
  function At(pat: string, p: int): char {
    if 0 <= p < |pat| then pat[p] else '\0'
  }

  predicate IsDigit(c: char) { '0' <= c <= '9' }

  /** Behind the set whose next character is at `p`: behind the first `]` that is neither the
      first character nor escaped. */
  function SetEnd(pat: string, p: nat): (r: Result<nat, Error>)
    ensures r.Ok? ==> p + 1 < r.value <= |pat| && At(pat, r.value - 1) == ']'
    decreases |pat| - p
  {
    if At(pat, p) == '\0' then Err(MalformedSet)
    else
      var q := if pat[p] == '%' && At(pat, p + 1) != '\0' then p + 2 else p + 1;
      if At(pat, q) == ']' then Ok(q + 1) else SetEnd(pat, q)
  }

  /** classend */
  function ClassEnd(pat: string, p: nat): (r: Result<nat, Error>)
    requires At(pat, p) != '\0'
    ensures r.Ok? ==> p < r.value <= |pat|
    ensures r.Ok? && pat[p] == '[' ==> p + 2 < r.value && At(pat, r.value - 1) == ']'
  {
    if pat[p] == '%' then
      if At(pat, p + 1) == '\0' then Err(MalformedEsc) else Ok(p + 2)
    else if pat[p] == '[' then
      SetEnd(pat, if At(pat, p + 1) == '^' then p + 2 else p + 1)
    else Ok(p + 1)
  }

  /** The elements of a set from `p` on, whose `]` is at `ec`. */
  function Elems(pat: string, p: nat, ec: nat): seq<SetElem>
    decreases ec - p
  {
    if p >= ec then []
    else if At(pat, p) == '%' then [EscElem(At(pat, p + 1))] + Elems(pat, p + 2, ec)
    else if At(pat, p + 1) == '-' && p + 2 < ec then [Range(At(pat, p), At(pat, p + 2))] + Elems(pat, p + 3, ec)
    else [Just(At(pat, p))] + Elems(pat, p + 1, ec)
  }

  /** The class from `p` up to `ep`. */
  function ClassAt(pat: string, p: nat, ep: nat): Class {
    match At(pat, p)
    case '.' => AnyChar
    case '%' => Esc(At(pat, p + 1))
    case '[' => if At(pat, p + 1) == '^' then Set(true, Elems(pat, p + 2, if ep > 0 then ep - 1 else 0))
                else Set(false, Elems(pat, p + 1, if ep > 0 then ep - 1 else 0))
    case c => Lit(c)
  }

  function RepeatOf(c: char): Repeat {
    match c case '?' => Optional case '*' => Greedy case '+' => GreedyPlus case '-' => Lazy case _ => Once
  }

  /** A class with its repetition, and where the pattern goes on. */
  function SingleAt(pat: string, p: nat): (r: (Item, nat))
    requires At(pat, p) != '\0'
    ensures p < r.1 <= |pat|
  {
    match ClassEnd(pat, p)
    case Err(e) => (Malformed(e), |pat|)
    case Ok(ep) =>
      var rep := RepeatOf(At(pat, ep));
      (Single(ClassAt(pat, p, ep), rep), if rep == Once then ep else ep + 1)
  }

  /** The item at `p`, and where the pattern goes on. */
  function ItemAt(pat: string, p: nat): (r: (Item, nat))
    requires At(pat, p) != '\0'
    ensures p < r.1 <= |pat|
  {
    match pat[p]
    case '(' => if At(pat, p + 1) == ')' then (OpenPosition, p + 2) else (Open, p + 1)
    case ')' => (Close, p + 1)
    case '%' =>
      var c := At(pat, p + 1);
      if c == 'b' then
        if At(pat, p + 2) == '\0' || At(pat, p + 3) == '\0' then (Malformed(Unbalanced), |pat|)
        else (Balance(pat[p + 2], pat[p + 3]), p + 4)
      else if c == 'f' then
        if At(pat, p + 2) != '[' then (Malformed(MalformedFrontier), |pat|)
        else (match ClassEnd(pat, p + 2)
              case Err(e) => (Malformed(e), |pat|)
              case Ok(ep) => (Frontier(ClassAt(pat, p + 2, ep)), ep))
      else if IsDigit(c) then (BackRef(c), p + 2)
      else SingleAt(pat, p)
    case '$' => if At(pat, p + 1) == '\0' then (AtEnd, p + 1) else SingleAt(pat, p)
    case _ => SingleAt(pat, p)
  }

  /** The pattern from `p` on. */
  function Items(pat: string, p: nat): seq<Item>
    decreases |pat| - p
  {
    if At(pat, p) == '\0' then []
    else
      var (item, next) := ItemAt(pat, p);
      if item.Malformed? then [item] else [item] + Items(pat, next)
  }

  // ------------------------------------------------------------------------- meaning

  /** A capture: started, a position, or a stretch of the subject. */
  datatype Capture = Unfinished(start: nat) | Position(start: nat) | Closed(start: nat, len: int)

  /** One way to go on: a match up to `end` with these captures, or an error. */
  datatype Outcome = Hit(end: nat, caps: seq<Capture>) | Bad(err: Error)

  /** The capture a `)` closes: the last one that is unfinished. */
  function LastUnfinished(caps: seq<Capture>): (r: Option<nat>)
    ensures r.Some? ==> r.value < |caps| && caps[r.value].Unfinished? && forall k :: r.value < k < |caps| ==> !caps[k].Unfinished?
    ensures r.None? ==> forall k :: 0 <= k < |caps| ==> !caps[k].Unfinished?
  {
    if caps == [] then None
    else if caps[|caps| - 1].Unfinished? then Some(|caps| - 1)
    else LastUnfinished(caps[..|caps| - 1])
  }

  /** Opening characters less closing ones after `s`, plus one for the one at `s`; a character
      that is both closes. */
  function Pending(src: string, s: nat, i: nat, b: char, e: char): int
    requires i <= |src|
    decreases i
  {
    if i <= s + 1 then 1
    else Pending(src, s, i - 1, b, e) + if src[i - 1] == e then -1 else if src[i - 1] == b then 1 else 0
  }

  /** `t` is right behind the first place where the string opened at `s` is balanced. */
  ghost predicate BalancedTo(src: string, s: nat, b: char, e: char, t: nat) {
    s < t <= |src| && src[s] == b && Pending(src, s, t, b, e) == 0
    && forall i :: s < i < t ==> Pending(src, s, i, b, e) > 0
  }

  ghost function BalanceEnd(src: string, s: nat, b: char, e: char): Option<nat> {
    if exists t :: BalancedTo(src, s, b, e, t) then
      var t :| BalancedTo(src, s, b, e, t); Some(t)
    else None
  }

  /** The digit of a back reference as a capture, if it is one that can be referred to. */
  function RefIndex(caps: seq<Capture>, digit: char): Option<nat> {
    if digit >= '1' && digit as int - '1' as int < |caps| && !caps[digit as int - '1' as int].Unfinished?
    then Some(digit as int - '1' as int) else None
  }

  /** Behind a repetition of what a capture matched. */
  function RefEnd(src: string, s: nat, cap: Capture): Option<nat> {
    if cap.Closed? && cap.len >= 0 && s + cap.len <= |src| && cap.start + cap.len <= |src|
       && src[cap.start..cap.start + cap.len] == src[s..s + cap.len]
    then Some(s + cap.len) else None
  }

  ghost predicate MatchesOne(isa: CharTable, src: string, s: nat, cls: Class) {
    s < |src| && cls.Has(isa, src[s])
  }

  ghost predicate FrontierAt(isa: CharTable, src: string, s: nat, cls: Class) {
    !cls.Has(isa, if 0 < s <= |src| then src[s - 1] else '\0') && cls.Has(isa, At(src, s))
  }

  /** All ways to match `items` at `s`, best first. `d` is the nesting depth at which the
      matcher works: repetitions, optional items and captures nest. */
  ghost function Ways(isa: CharTable, src: string, items: seq<Item>, s: nat, caps: seq<Capture>, d: nat): seq<Outcome>
    decreases |items|, 0, |src| - s
  {
    if items == [] then [Hit(s, caps)]
    else var rest := items[1..];
      match items[0]
      case Single(cls, rep) => Repeated(isa, src, cls, rep, rest, s, caps, d)
      case Open =>
        if |caps| >= MAX_CAPTURES then [Bad(TooManyCaptures)] else Nested(isa, src, rest, s, caps + [Unfinished(s)], d)
      case OpenPosition =>
        if |caps| >= MAX_CAPTURES then [Bad(TooManyCaptures)] else Nested(isa, src, rest, s, caps + [Position(s)], d)
      case Close =>
        (match LastUnfinished(caps)
         case None => [Bad(BadPatternCapture)]
         case Some(l) => Nested(isa, src, rest, s, caps[l := Closed(caps[l].start, s - caps[l].start)], d))
      case BackRef(digit) =>
        (match RefIndex(caps, digit)
         case None => [Bad(BadCaptureIndex)]
         case Some(l) =>
           match RefEnd(src, s, caps[l])
           case None => []
           case Some(t) => Ways(isa, src, rest, t, caps, d))
      case Balance(b, e) =>
        (match BalanceEnd(src, s, b, e)
         case None => []
         case Some(t) => Ways(isa, src, rest, t, caps, d))
      case Frontier(cls) => if FrontierAt(isa, src, s, cls) then Ways(isa, src, rest, s, caps, d) else []
      case AtEnd => if s == |src| then [Hit(s, caps)] else []
      case Malformed(err) => [Bad(err)]
  }

  /** One level deeper. */
  ghost function Nested(isa: CharTable, src: string, items: seq<Item>, s: nat, caps: seq<Capture>, d: nat): seq<Outcome>
    decreases |items|, 1, 0
  {
    if d + 1 > MAX_DEPTH then [Bad(TooComplex)] else Ways(isa, src, items, s, caps, d + 1)
  }

  /** A class that may be repeated, followed by `rest`: greedy repetition prefers to go on,
      lazy repetition prefers to stop. */
  ghost function Repeated(isa: CharTable, src: string, cls: Class, rep: Repeat, rest: seq<Item>, s: nat, caps: seq<Capture>, d: nat)
    : seq<Outcome>
    decreases |rest|, 2, if rep == GreedyPlus then 1 else 0, |src| - s
  {
    var m := MatchesOne(isa, src, s, cls);
    match rep
    case Once => if m then Ways(isa, src, rest, s + 1, caps, d) else []
    case Optional => (if m then Nested(isa, src, rest, s + 1, caps, d) else []) + Ways(isa, src, rest, s, caps, d)
    case Greedy => (if m then Repeated(isa, src, cls, Greedy, rest, s + 1, caps, d) else []) + Nested(isa, src, rest, s, caps, d)
    case GreedyPlus => if m then Repeated(isa, src, cls, Greedy, rest, s + 1, caps, d) else []
    case Lazy => Nested(isa, src, rest, s, caps, d) + if m then Repeated(isa, src, cls, Lazy, rest, s + 1, caps, d) else []
  }
}
