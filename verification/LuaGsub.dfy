/** Searching and substituting with Lua patterns (str_find_aux and string_gsub). */
module LuaGsub {
  import opened Wrappers
  import opened LuaPattern
  import opened LuaMatch
  import opened LuaWays

  // ---------------------------------------------------------------------- replacements

  /** The value of a capture: a string, or a position. */
  datatype CapValue = Text(s: string) | Pos(n: nat)

  /** The third argument of gsub: a string with escapes, a function of the captures, or a table
      looked up with the first one. The latter two may decline. */
  datatype Repl = Template(news: string) | Call(f: seq<CapValue> -> Option<string>) | Table(g: CapValue -> Option<string>)

  function Decimal(n: nat): string {
    if n < 10 then [(n + '0' as int) as char] else Decimal(n / 10) + [(n % 10 + '0' as int) as char]
  }

  function ValueText(v: CapValue): string {
    match v case Text(s) => s case Pos(n) => Decimal(n)
  }

  function Slice(src: string, i: int, j: int): string {
    if 0 <= i <= j <= |src| then src[i..j] else []
  }

  /** push_onecapture, for the match from `s` to `e`. */
  function OneCapture(src: string, caps: seq<Capture>, i: int, s: nat, e: nat): Result<CapValue, Error> {
    if i == 0 && caps == [] then Ok(Text(Slice(src, s, e)))
    else if i < 0 || i >= |caps| then Err(BadCaptureIndex)
    else match caps[i]
      case Unfinished(_) => Err(UnfinishedCapture)
      case Position(start) => Ok(Pos(start + 1))
      case Closed(start, len) => Ok(Text(Slice(src, start, start + len)))
  }

  /** push_captures */
  function AllCaptures(src: string, caps: seq<Capture>, n: nat, s: nat, e: nat): Result<seq<CapValue>, Error> {
    if n == 0 then Ok([])
    else match AllCaptures(src, caps, n - 1, s, e)
      case Err(er) => Err(er)
      case Ok(vs) =>
        match OneCapture(src, caps, n - 1, s, e)
        case Err(er) => Err(er)
        case Ok(v) => Ok(vs + [v])
  }

  /** The template from `i` on: `%0` is the whole match, `%1` to `%9` are captures, and `%`
      before anything else stands for that character. */
  function Expand(news: string, i: nat, src: string, caps: seq<Capture>, s: nat, e: nat): Result<string, Error>
    decreases |news| - i
  {
    if i >= |news| then Ok([])
    else if news[i] != '%' then Prefixed([news[i]], Expand(news, i + 1, src, caps, s, e))
    else
      var c := At(news, i + 1);
      if !IsDigit(c) then Prefixed([c], Expand(news, i + 2, src, caps, s, e))
      else if c == '0' then Prefixed(Slice(src, s, e), Expand(news, i + 2, src, caps, s, e))
      else match OneCapture(src, caps, c as int - '1' as int, s, e)
        case Err(er) => Err(er)
        case Ok(v) => Prefixed(ValueText(v), Expand(news, i + 2, src, caps, s, e))
  }

  function Prefixed(a: string, r: Result<string, Error>): Result<string, Error> {
    match r case Ok(b) => Ok(a + b) case Err(er) => Err(er)
  }

  /** add_value: what a match is replaced by. */
  function Replacement(repl: Repl, src: string, caps: seq<Capture>, s: nat, e: nat): Result<string, Error> {
    match repl
    case Template(news) => Expand(news, 0, src, caps, s, e)
    case Call(f) =>
      (match AllCaptures(src, caps, if caps == [] then 1 else |caps|, s, e)
       case Err(er) => Err(er)
       case Ok(vs) => Ok(match f(vs) case Some(t) => t case None => Slice(src, s, e)))
    case Table(g) =>
      (match OneCapture(src, caps, 0, s, e)
       case Err(er) => Err(er)
       case Ok(v) => Ok(match g(v) case Some(t) => t case None => Slice(src, s, e)))
  }

  /** The number that a numeral stands for. */
  function Numeral(s: string): int {
    if s == [] then 0 else 10 * Numeral(s[..|s| - 1]) + (s[|s| - 1] as int - '0' as int)
  }

  lemma {:induction false} DecimalIs(n: nat)
    ensures Decimal(n) != [] && Numeral(Decimal(n)) == n && forall k :: 0 <= k < |Decimal(n)| ==> IsDigit(Decimal(n)[k])
    decreases n
  {
    assert Numeral([]) == 0;
    if n >= 10 {
      DecimalIs(n / 10);
      assert Decimal(n)[..|Decimal(n)| - 1] == Decimal(n / 10);
    } else {
      assert Decimal(n)[..0] == [];
    }
  }

  /** What an escape of the template gives: the whole match, the text or the place of a capture, or
      the character itself. */
  lemma ExpandLaw(news: string, i: nat, src: string, caps: seq<Capture>, s: nat, e: nat, k: nat)
    requires i + 1 < |news| && news[i] == '%' && s <= e <= |src|
    ensures var r, more := Expand(news, i, src, caps, s, e), Expand(news, i + 2, src, caps, s, e);
      && (!IsDigit(news[i + 1]) ==> r == Prefixed([news[i + 1]], more))
      && (news[i + 1] == '0' || (news[i + 1] == '1' && caps == []) ==> r == Prefixed(src[s..e], more))
      && (k < 9 && k < |caps| && news[i + 1] as int == '1' as int + k ==>
            match caps[k]
            case Closed(at, len) => 0 <= len && at + len <= |src| ==> r == Prefixed(src[at..at + len], more)
            case Position(at) => r == Prefixed(Decimal(at + 1), more)
            case Unfinished(_) => r == Err(UnfinishedCapture))
      && (k < 9 && k >= |caps| && caps != [] && news[i + 1] as int == '1' as int + k ==> r == Err(BadCaptureIndex))
  {
    hide Decimal;
  }

  /** A function gets the captures in their order, or the whole match if there are none. */
  lemma {:induction false} CapturesLaw(src: string, caps: seq<Capture>, n: nat, s: nat, e: nat)
    requires AllCaptures(src, caps, n, s, e).Ok?
    ensures var vs := AllCaptures(src, caps, n, s, e).value; |vs| == n && forall k :: 0 <= k < n ==> OneCapture(src, caps, k, s, e) == Ok(vs[k])
  {
    if n > 0 { CapturesLaw(src, caps, n - 1, s, e); }
  }

  // ------------------------------------------------------------------- what gsub means

  /** A stretch of the subject, kept or replaced. */
  datatype Segment = Kept(from: nat, to: nat) | Replaced(from: nat, to: nat, text: string)

  function Cons(seg: Segment, r: Result<seq<Segment>, Error>): Result<seq<Segment>, Error> {
    match r case Ok(segs) => Ok([seg] + segs) case Err(er) => Err(er)
  }

  /** The subject from `at` on, with at most `left` replacements. */
  ghost function Segments(isa: CharTable, src: string, items: seq<Item>, repl: Repl, anchor: bool, at: nat, left: int)
    : Result<seq<Segment>, Error>
    requires at <= |src|
    decreases |src| - at
  {
    if left <= 0 then Ok([Kept(at, |src|)])
    else
      var outs := Nested(isa, src, items, at, [], 0);
      if outs == [] then Onward(isa, src, items, repl, anchor, at, left)
      else match outs[0]
        case Bad(er) => Err(er)
        case Hit(e, caps) =>
          match Replacement(repl, src, caps, at, e)
          case Err(er) => Err(er)
          case Ok(text) =>
            Cons(Replaced(at, e, text),
                 if at < e <= |src| then (if anchor then Ok([Kept(e, |src|)]) else Segments(isa, src, items, repl, anchor, e, left - 1))
                 else Onward(isa, src, items, repl, anchor, at, left - 1))
  }

  /** Keep one character and go on behind it. */
  ghost function Onward(isa: CharTable, src: string, items: seq<Item>, repl: Repl, anchor: bool, at: nat, left: int)
    : Result<seq<Segment>, Error>
    requires at <= |src|
    decreases |src| - at, 0
  {
    if at == |src| then Ok([])
    else Cons(Kept(at, at + 1),
              if anchor then Ok([Kept(at + 1, |src|)]) else Segments(isa, src, items, repl, anchor, at + 1, left))
  }

  /** The result string, and the number of replacements. */
  function Render(src: string, segs: seq<Segment>): string {
    if segs == [] then []
    else (match segs[0] case Kept(from, to) => Slice(src, from, to) case Replaced(_, _, text) => text) + Render(src, segs[1..])
  }

  function Replacements(segs: seq<Segment>): nat {
    if segs == [] then 0 else (if segs[0].Replaced? then 1 else 0) + Replacements(segs[1..])
  }

  /** The segments cover the subject from `at` to its end without gap or overlap. */
  predicate Tiles(src: string, segs: seq<Segment>, at: nat) {
    if segs == [] then at == |src|
    else segs[0].from == at <= segs[0].to <= |src| && Tiles(src, segs[1..], segs[0].to)
  }

  /** Each replaced stretch is the best way to match there, and its text the replacement. */
  ghost predicate TrueTo(isa: CharTable, src: string, items: seq<Item>, repl: Repl, seg: Segment) {
    seg.Replaced? ==>
      var outs := Nested(isa, src, items, seg.from, [], 0);
      outs != [] && outs[0].Hit? && outs[0].end == seg.to && Replacement(repl, src, outs[0].caps, seg.from, seg.to) == Ok(seg.text)
  }

  lemma FirstInside(isa: CharTable, src: string, items: seq<Item>, at: nat)
    requires at <= |src|
    ensures var outs := Nested(isa, src, items, at, [], 0); outs != [] && outs[0].Hit? ==> at <= outs[0].end <= |src|
  {
    var outs := Nested(isa, src, items, at, [], 0);
    NestedInside(isa, src, items, at, [], 0);
    if outs != [] { assert OutcomeInside(outs[0], src, at); }
  }

  /** What gsub produces from `at` on: the subject cut into stretches, the matches replaced, no
      more than `left` of them. */
  ghost predicate Cut(isa: CharTable, src: string, items: seq<Item>, repl: Repl, r: Result<seq<Segment>, Error>, at: nat, left: int) {
    r.Ok? ==> Tiles(src, r.value, at) && Replacements(r.value) <= (if left > 0 then left else 0)
              && forall k :: 0 <= k < |r.value| ==> TrueTo(isa, src, items, repl, r.value[k])
  }

  lemma CutCons(isa: CharTable, src: string, items: seq<Item>, repl: Repl, seg: Segment, r: Result<seq<Segment>, Error>, left: int)
    requires Cut(isa, src, items, repl, r, seg.to, left) && TrueTo(isa, src, items, repl, seg) && seg.from <= seg.to <= |src|
    ensures seg.Kept? ==> Cut(isa, src, items, repl, Cons(seg, r), seg.from, left)
    ensures seg.Replaced? && left >= 0 ==> Cut(isa, src, items, repl, Cons(seg, r), seg.from, left + 1)
  {
    hide TrueTo;
    if r.Ok? { assert ([seg] + r.value)[1..] == r.value; }
  }

  lemma CutEnd(isa: CharTable, src: string, items: seq<Item>, repl: Repl, at: nat, left: int)
    requires at <= |src|
    ensures Cut(isa, src, items, repl, Ok([Kept(at, |src|)]), at, left) && Cut(isa, src, items, repl, Ok([]), |src|, left)
  {
    hide TrueTo, Tiles;
    var segs := [Kept(at, |src|)];
    EndTiles(src, at);
    RestEnds(src, at);
    forall k | 0 <= k < |segs| ensures TrueTo(isa, src, items, repl, segs[k]) {
      NothingReplaced(isa, src, items, repl, segs[k]);
    }
  }

  lemma EndTiles(src: string, at: nat)
    requires at <= |src|
    ensures Tiles(src, [Kept(at, |src|)], at) && Tiles(src, [], |src|)
  {
    assert [Kept(at, |src|)][1..] == [];
  }

  lemma NothingReplaced(isa: CharTable, src: string, items: seq<Item>, repl: Repl, seg: Segment)
    requires seg.Kept?
    ensures TrueTo(isa, src, items, repl, seg)
  {
  }

  lemma {:induction false} SegmentsTile(isa: CharTable, src: string, items: seq<Item>, repl: Repl, anchor: bool, at: nat, left: int)
    requires at <= |src|
    ensures Cut(isa, src, items, repl, Segments(isa, src, items, repl, anchor, at, left), at, left)
    decreases |src| - at, 1
  {
    hide Nested, Replacement, Cut;
    CutEnd(isa, src, items, repl, at, left);
    if left > 0 {
      FirstInside(isa, src, items, at);
      OnwardTiles(isa, src, items, repl, anchor, at, left);
      OnwardTiles(isa, src, items, repl, anchor, at, left - 1);
      var outs := Nested(isa, src, items, at, [], 0);
      if outs != [] && outs[0].Hit? {
        HitTiles(isa, src, items, repl, anchor, at, left, outs[0].end, outs[0].caps);
      } else if outs != [] {
        ErrorCut(isa, src, items, repl, outs[0].err, at, left);
      }
    }
  }

  lemma ErrorCut(isa: CharTable, src: string, items: seq<Item>, repl: Repl, er: Error, at: nat, left: int)
    ensures Cut(isa, src, items, repl, Err(er), at, left)
  {
  }

  lemma HitTiles(isa: CharTable, src: string, items: seq<Item>, repl: Repl, anchor: bool, at: nat, left: int, e: nat, caps: seq<Capture>)
    requires at <= e <= |src| && left > 0
    requires var outs := Nested(isa, src, items, at, [], 0); outs != [] && outs[0] == Hit(e, caps)
    requires Cut(isa, src, items, repl, Onward(isa, src, items, repl, anchor, at, left - 1), at, left - 1)
    ensures Cut(isa, src, items, repl, Segments(isa, src, items, repl, anchor, at, left), at, left)
    decreases |src| - at, 0
  {
    hide Nested, Replacement, Cut, Onward;
    match Replacement(repl, src, caps, at, e)
    case Err(er) => ErrorCut(isa, src, items, repl, er, at, left);
    case Ok(text) =>
      if at < e {
        CutEnd(isa, src, items, repl, e, left - 1);
        if !anchor { SegmentsTile(isa, src, items, repl, anchor, e, left - 1); }
        var r := if anchor then Ok([Kept(e, |src|)]) else Segments(isa, src, items, repl, anchor, e, left - 1);
        CutCons(isa, src, items, repl, Replaced(at, e, text), r, left - 1);
      } else {
        CutCons(isa, src, items, repl, Replaced(at, e, text), Onward(isa, src, items, repl, anchor, at, left - 1), left - 1);
      }
  }

  lemma {:induction false} OnwardTiles(isa: CharTable, src: string, items: seq<Item>, repl: Repl, anchor: bool, at: nat, left: int)
    requires at <= |src|
    ensures Cut(isa, src, items, repl, Onward(isa, src, items, repl, anchor, at, left), at, left)
    decreases |src| - at, 0
  {
    hide Nested, Replacement, Cut, Segments, TrueTo;
    CutEnd(isa, src, items, repl, at, left);
    if at < |src| {
      CutEnd(isa, src, items, repl, at + 1, left);
      if !anchor { SegmentsTile(isa, src, items, repl, anchor, at + 1, left); }
      var r := if anchor then Ok([Kept(at + 1, |src|)]) else Segments(isa, src, items, repl, anchor, at + 1, left);
      NothingReplaced(isa, src, items, repl, Kept(at, at + 1));
      CutCons(isa, src, items, repl, Kept(at, at + 1), r, left);
    }
  }

  /** What is kept has no match, unless no more may be replaced, or an empty match was replaced
      right there (`tried`). */
  ghost predicate Sought(isa: CharTable, src: string, items: seq<Item>, segs: seq<Segment>, left: int, tried: bool)
    decreases |segs|
  {
    if segs == [] then left <= 0 || tried || Nested(isa, src, items, |src|, [], 0) == []
    else match segs[0]
      case Replaced(from, to, _) => left > 0 && Sought(isa, src, items, segs[1..], left - 1, from == to)
      case Kept(from, to) =>
        && (left <= 0 || tried || (to == from + 1 && Nested(isa, src, items, from, [], 0) == []))
        && Sought(isa, src, items, segs[1..], left, false)
  }

  lemma SoughtCons(isa: CharTable, src: string, items: seq<Item>, seg: Segment, segs: seq<Segment>, left: int, tried: bool)
    requires seg.Replaced? ==> left > 0 && Sought(isa, src, items, segs, left - 1, seg.from == seg.to)
    requires seg.Kept? ==> Sought(isa, src, items, segs, left, false)
    requires seg.Kept? ==> left <= 0 || tried || (seg.to == seg.from + 1 && Nested(isa, src, items, seg.from, [], 0) == [])
    ensures Sought(isa, src, items, [seg] + segs, left, tried)
  {
    hide Nested;
    assert ([seg] + segs)[1..] == segs;
  }

  lemma SoughtEnd(isa: CharTable, src: string, items: seq<Item>, seg: Segment, left: int, tried: bool)
    requires seg.Kept? && left <= 0
    ensures Sought(isa, src, items, [seg], left, tried)
  {
    hide Nested;
    assert [seg][1..] == [];
  }

  /** No match is missed, when the pattern is not anchored. */
  lemma {:induction false} SegmentsSought(isa: CharTable, src: string, items: seq<Item>, repl: Repl, at: nat, left: int)
    requires at <= |src|
    ensures var r := Segments(isa, src, items, repl, false, at, left); r.Ok? ==> Sought(isa, src, items, r.value, left, false)
    decreases |src| - at, 1
  {
    hide Nested, Replacement, Sought, Onward;
    if left <= 0 {
      SoughtEnd(isa, src, items, Kept(at, |src|), left, false);
    } else {
      FirstInside(isa, src, items, at);
      var outs := Nested(isa, src, items, at, [], 0);
      if outs == [] {
        OnwardSought(isa, src, items, repl, at, left, false);
      } else if outs[0].Hit? {
        HitSought(isa, src, items, repl, at, left, outs[0].end, outs[0].caps);
      }
    }
  }

  lemma HitSought(isa: CharTable, src: string, items: seq<Item>, repl: Repl, at: nat, left: int, e: nat, caps: seq<Capture>)
    requires at <= e <= |src| && left > 0
    requires var outs := Nested(isa, src, items, at, [], 0); outs != [] && outs[0] == Hit(e, caps)
    ensures var r := Segments(isa, src, items, repl, false, at, left); r.Ok? ==> Sought(isa, src, items, r.value, left, false)
    decreases |src| - at, 0, 1
  {
    hide Nested, Replacement, Sought, Onward;
    if at < e { SegmentsSought(isa, src, items, repl, e, left - 1); } else { OnwardSought(isa, src, items, repl, at, left - 1, true); }
    match Replacement(repl, src, caps, at, e)
    case Err(_) =>
    case Ok(text) =>
      var r := if at < e then Segments(isa, src, items, repl, false, e, left - 1) else Onward(isa, src, items, repl, false, at, left - 1);
      if r.Ok? { SoughtCons(isa, src, items, Replaced(at, e, text), r.value, left, false); }
  }

  lemma {:induction false} OnwardSought(isa: CharTable, src: string, items: seq<Item>, repl: Repl, at: nat, left: int, tried: bool)
    requires at <= |src| && (tried || Nested(isa, src, items, at, [], 0) == [])
    ensures var r := Onward(isa, src, items, repl, false, at, left); r.Ok? ==> Sought(isa, src, items, r.value, left, tried)
    decreases |src| - at, 0, 0
  {
    hide Nested, Replacement, Segments;
    if at < |src| {
      SegmentsSought(isa, src, items, repl, at + 1, left);
      var r := Segments(isa, src, items, repl, false, at + 1, left);
      if r.Ok? { SoughtCons(isa, src, items, Kept(at, at + 1), r.value, left, tried); }
    }
  }

  /** An anchored pattern is tried at the start only. */
  lemma AnchorLaw(isa: CharTable, src: string, items: seq<Item>, repl: Repl, left: int)
    ensures var r := Segments(isa, src, items, repl, true, 0, left);
      r.Ok? ==> forall k :: 0 <= k < |r.value| && r.value[k].Replaced? ==> k == 0 && r.value[k].from == 0
  {
    hide Nested, Replacement;
  }

  /** If every match is replaced by itself, the subject comes out unchanged. */
  lemma {:induction false} IdentityRenders(src: string, segs: seq<Segment>, at: nat)
    requires Tiles(src, segs, at)
    requires forall k :: 0 <= k < |segs| && segs[k].Replaced? ==> segs[k].text == Slice(src, segs[k].from, segs[k].to)
    ensures at <= |src| && Render(src, segs) == src[at..]
    decreases |segs|
  {
    if segs != [] {
      forall k | 0 <= k < |segs[1..]| && segs[1..][k].Replaced?
        ensures segs[1..][k].text == Slice(src, segs[1..][k].from, segs[1..][k].to)
      {
        assert segs[1..][k] == segs[k + 1];
      }
      IdentityRenders(src, segs[1..], segs[0].to);
      assert src[at..] == src[at..segs[0].to] + src[segs[0].to..];
    }
  }

  /** A replacement that gives back the match, whatever the captures: `%0`, or a function or
      table that declines. */
  ghost predicate GivesBack(repl: Repl) {
    match repl
    case Template(news) => news == ['%', '0']
    case Call(f) => forall vs :: f(vs) == None
    case Table(g) => forall v :: g(v) == None
  }

  lemma GivenBack(repl: Repl, src: string, caps: seq<Capture>, s: nat, e: nat)
    requires GivesBack(repl)
    ensures Replacement(repl, src, caps, s, e).Ok? ==> Replacement(repl, src, caps, s, e).value == Slice(src, s, e)
  {
    if repl.Template? {
      assert Expand(repl.news, 2, src, caps, s, e) == Ok([]);
      assert Slice(src, s, e) + [] == Slice(src, s, e);
    }
  }

  /** gsub with such a replacement reproduces the subject. */
  lemma GsubIdentity(isa: CharTable, src: string, items: seq<Item>, repl: Repl, anchor: bool, left: int)
    requires GivesBack(repl)
    ensures var r := Segments(isa, src, items, repl, anchor, 0, left); r.Ok? ==> Render(src, r.value) == src
  {
    hide Nested, Replacement, Segments;
    var r := Segments(isa, src, items, repl, anchor, 0, left);
    SegmentsTile(isa, src, items, repl, anchor, 0, left);
    if r.Ok? {
      var segs := r.value;
      forall k | 0 <= k < |segs| && segs[k].Replaced? ensures segs[k].text == Slice(src, segs[k].from, segs[k].to) {
        assert TrueTo(isa, src, items, repl, segs[k]);
        GivenBack(repl, src, Nested(isa, src, items, segs[k].from, [], 0)[0].caps, segs[k].from, segs[k].to);
      }
      IdentityRenders(src, segs, 0);
      assert src[0..] == src;
    }
  }

  // ----------------------------------------------------------------------- the methods

  /** What is done so far and what remains make up the whole. */
  ghost predicate Remaining(src: string, b: string, n: nat, rest: Result<seq<Segment>, Error>, whole: Result<seq<Segment>, Error>) {
    match rest
    case Err(er) => whole == Err(er)
    case Ok(segs) => whole.Ok? && Render(src, whole.value) == b + Render(src, segs) && Replacements(whole.value) == n + Replacements(segs)
  }

  lemma RemainingCons(src: string, b: string, n: nat, seg: Segment, r: Result<seq<Segment>, Error>, whole: Result<seq<Segment>, Error>)
    requires Remaining(src, b, n, Cons(seg, r), whole)
    ensures Remaining(src, b + (match seg case Kept(from, to) => Slice(src, from, to) case Replaced(_, _, text) => text),
                      n + (if seg.Replaced? then 1 else 0), r, whole)
  {
    if r.Ok? { assert ([seg] + r.value)[1..] == r.value; }
  }

  /** One iteration of gsub, by the matcher's answer. */
  lemma SegmentsStep(isa: CharTable, src: string, items: seq<Item>, repl: Repl, anchor: bool, at: nat, left: int,
                     res: Result<Option<nat>, Error>, caps: seq<Capture>)
    requires at <= |src| && left > 0 && Answers(res, Nested(isa, src, items, at, [], 0), [], caps)
    ensures var segs := Segments(isa, src, items, repl, anchor, at, left);
      match res
      case Err(er) => segs == Err(er)
      case Ok(None) => segs == Onward(isa, src, items, repl, anchor, at, left)
      case Ok(Some(e)) =>
        at <= e <= |src|
        && match Replacement(repl, src, caps, at, e)
           case Err(er) => segs == Err(er)
           case Ok(text) => segs == Cons(Replaced(at, e, text), Behind(isa, src, items, repl, anchor, at, left - 1, e))
  {
    hide Nested, Replacement, Onward;
    FirstInside(isa, src, items, at);
  }

  /** What follows a replacement. */
  ghost function Behind(isa: CharTable, src: string, items: seq<Item>, repl: Repl, anchor: bool, at: nat, left: int, e: nat)
    : Result<seq<Segment>, Error>
    requires at <= e <= |src|
  {
    if at < e then Rest(isa, src, items, repl, anchor, e, left) else Onward(isa, src, items, repl, anchor, at, left)
  }

  /** The next iteration, unless the pattern is anchored. */
  ghost function Rest(isa: CharTable, src: string, items: seq<Item>, repl: Repl, anchor: bool, at: nat, left: int)
    : Result<seq<Segment>, Error>
    requires at <= |src|
  {
    if anchor then Ok([Kept(at, |src|)]) else Segments(isa, src, items, repl, anchor, at, left)
  }

  lemma OnwardIs(isa: CharTable, src: string, items: seq<Item>, repl: Repl, anchor: bool, at: nat, left: int)
    requires at <= |src|
    ensures Onward(isa, src, items, repl, anchor, at, left) ==
      if at == |src| then Ok([]) else Cons(Kept(at, at + 1), Rest(isa, src, items, repl, anchor, at + 1, left))
  {
    hide Segments;
  }

  lemma RestEnds(src: string, at: nat)
    requires at <= |src|
    ensures Render(src, [Kept(at, |src|)]) == src[at..] && Replacements([Kept(at, |src|)]) == 0
  {
    assert Slice(src, at, |src|) == src[at..];
    assert [Kept(at, |src|)][1..] == [];
  }

  /** The pattern behind an anchor. */
  function Start(pat: string): nat { if At(pat, 0) == '^' then 1 else 0 }

  /** One iteration of string_gsub: the next position, the text added, and whether a match was
      replaced; or the end of the subject. */
  method GsubStep(ms: MatchState, p: nat, repl: Repl, at: nat, b: string, n: nat, ghost anchor: bool, ghost left: int,
                  ghost whole: Result<seq<Segment>, Error>)
    returns (res: Result<(string, nat, Option<nat>), Error>)
    requires ms.Valid() && at <= |ms.src| && left > 0 && p <= |ms.pat|
    requires Remaining(ms.src, b, n, Segments(ms.isa, ms.src, Items(ms.pat, p), repl, anchor, at, left), whole)
    modifies ms, ms.capture
    ensures ms.Valid()
    ensures match res
      case Err(er) => whole == Err(er)
      case Ok((b1, n1, to)) =>
        n <= n1 && (to.Some? ==> at < to.value <= |ms.src|)
        && Remaining(ms.src, b1, n1,
                     if to.Some? then Rest(ms.isa, ms.src, Items(ms.pat, p), repl, anchor, to.value, left + n - n1) else Ok([]), whole)
  {
    hide Nested, Replacement, Segments, Onward, Rest, Render, Replacements;
    ghost var isa, src, items := ms.isa, ms.src, Items(ms.pat, p);
    ms.level, ms.depth := 0, 0;
    assert ms.Caps() == [];
    var r := ms.Match(at, p);
    SegmentsStep(isa, src, items, repl, anchor, at, left, r, ms.Caps());
    if r.Err? {
      return Err(r.error);
    }
    var e, text := r.value, "";
    if e.Some? {
      var t := Replacement(repl, ms.src, ms.Caps(), at, e.value);
      if t.Err? {
        return Err(t.error);
      }
      text := t.value;
    }
    var n1 := n + if e.Some? then 1 else 0;
    var to := if e.Some? && e.value > at then e else if at < |ms.src| then Some(at + 1) else None;
    var more := if (e.Some? && e.value > at) || at >= |ms.src| then "" else [ms.src[at]];
    StepRemains(isa, src, items, repl, anchor, at, left + n - n1, e, text, b, n,
                Segments(isa, src, items, repl, anchor, at, left), whole);
    return Ok((b + (text + more), n1, to));
  }

  lemma StepRemains(isa: CharTable, src: string, items: seq<Item>, repl: Repl, anchor: bool, at: nat, left1: int, e: Option<nat>, text: string,
                    b: string, n: nat, segs: Result<seq<Segment>, Error>, whole: Result<seq<Segment>, Error>)
    requires at <= |src| && (e.Some? ==> at <= e.value <= |src|) && (e.None? ==> text == [])
    requires segs == if e.Some? then Cons(Replaced(at, e.value, text), Behind(isa, src, items, repl, anchor, at, left1, e.value))
      else Onward(isa, src, items, repl, anchor, at, left1)
    requires Remaining(src, b, n, segs, whole)
    ensures var to := if e.Some? && e.value > at then e else if at < |src| then Some(at + 1) else None;
      var more := if (e.Some? && e.value > at) || at >= |src| then "" else [src[at]];
      Remaining(src, b + (text + more), n + (if e.Some? then 1 else 0),
                if to.Some? then Rest(isa, src, items, repl, anchor, to.value, left1) else Ok([]), whole)
  {
    hide Segments, Onward, Rest, Remaining;
    OnwardIs(isa, src, items, repl, anchor, at, left1);
    var b1, n1 := b + text, n + (if e.Some? then 1 else 0);
    if e.Some? {
      RemainingCons(src, b, n, Replaced(at, e.value, text), Behind(isa, src, items, repl, anchor, at, left1, e.value), whole);
    } else {
      assert b1 == b;
    }
    if (e.Some? && e.value > at) || at == |src| {
      assert b + (text + []) == b1;
    } else {
      RemainingCons(src, b1, n1, Kept(at, at + 1), Rest(isa, src, items, repl, anchor, at + 1, left1), whole);
      assert b + (text + [src[at]]) == b1 + Slice(src, at, at + 1);
    }
  }

  /** string_gsub, `maxS` being its fourth argument. */
  method Gsub(isa: CharTable, src: string, pat: string, repl: Repl, maxS: int) returns (res: Result<(string, nat), Error>)
    ensures match Segments(isa, src, Items(pat, Start(pat)), repl, At(pat, 0) == '^', 0, maxS)
      case Err(er) => res == Err(er)
      case Ok(segs) => res == Ok((Render(src, segs), Replacements(segs)))
    ensures res.Ok? ==> res.value.1 <= if maxS > 0 then maxS else 0
    ensures res.Ok? && GivesBack(repl) ==> res.value.0 == src
  {
    hide Nested, Segments, Items, Render, Replacements, Remaining, Rest, TrueTo, Tiles;
    var p, anchor := Start(pat), At(pat, 0) == '^';
    ghost var items := Items(pat, p);
    ghost var spec := Segments(isa, src, items, repl, anchor, 0, maxS);
    SegmentsTile(isa, src, items, repl, anchor, 0, maxS);
    if GivesBack(repl) { GsubIdentity(isa, src, items, repl, anchor, maxS); }
    var ms := new MatchState(isa, src, pat);
    var at, n, b := 0, 0, "";
    ghost var rest := spec;
    AllRemains(src, spec);
    while n < maxS
      invariant at <= |src| && 0 <= n && ms.Valid() && fresh(ms) && fresh(ms.capture)
      invariant ms.isa == isa && ms.src == src && ms.pat == pat && (!anchor || at == 0) && rest == Segments(isa, src, items, repl, anchor, at, maxS - n)
      invariant Remaining(src, b, n, rest, spec)
      decreases |src| - at
    {
      var r := GsubStep(ms, p, repl, at, b, n, anchor, maxS - n, spec);
      if r.Err? {
        return Err(r.error);
      }
      var (b1, n1, to) := r.value;
      b, n := b1, n1;
      if to.None? {
        NothingRemains(src, b, n, |src|, spec);
        return Ok((b, n));
      }
      at := to.value;
      rest := Rest(isa, src, items, repl, anchor, at, maxS - n);
      RestIs(isa, src, items, repl, anchor, at, maxS - n);
      if anchor {
        break;
      }
    }
    SegmentsNone(isa, src, items, repl, anchor, at, maxS - n);
    NothingRemains(src, b, n, at, spec);
    return Ok((b + src[at..], n));
  }

  lemma RestIs(isa: CharTable, src: string, items: seq<Item>, repl: Repl, anchor: bool, at: nat, left: int)
    requires at <= |src|
    ensures Rest(isa, src, items, repl, anchor, at, left) ==
      if anchor then Ok([Kept(at, |src|)]) else Segments(isa, src, items, repl, anchor, at, left)
  {
    hide Segments;
  }

  lemma AllRemains(src: string, whole: Result<seq<Segment>, Error>)
    ensures Remaining(src, [], 0, whole, whole)
  {
    if whole.Ok? { assert Render(src, whole.value) == [] + Render(src, whole.value); }
  }

  lemma NothingRemains(src: string, b: string, n: nat, at: nat, whole: Result<seq<Segment>, Error>)
    requires at <= |src|
    ensures Remaining(src, b, n, Ok([Kept(at, |src|)]), whole) ==>
      whole.Ok? && Render(src, whole.value) == b + src[at..] && Replacements(whole.value) == n
    ensures Remaining(src, b, n, Ok([]), whole) ==> whole.Ok? && Render(src, whole.value) == b && Replacements(whole.value) == n
  {
    RestEnds(src, at);
    assert b + [] == b;
  }

  lemma SegmentsNone(isa: CharTable, src: string, items: seq<Item>, repl: Repl, anchor: bool, at: nat, left: int)
    requires at <= |src|
    ensures left <= 0 ==> Segments(isa, src, items, repl, anchor, at, left) == Ok([Kept(at, |src|)])
  {
  }

  /** A found match: where it starts and ends, and its captures. */
  datatype Found = Found(start: nat, end: nat, caps: seq<Capture>)

  /** The last position that is tried. */
  function LastStart(src: string, pat: string, init: nat): nat { if At(pat, 0) == '^' then init else |src| }

  /** The search loop of string.find and string.match from `init` on: the first position with
      a match, and the best match there. An anchored pattern is tried at `init` only. */
  method Find(isa: CharTable, src: string, pat: string, init: nat) returns (res: Result<Option<Found>, Error>)
    requires init <= |src|
    ensures var items, last := Items(pat, Start(pat)), LastStart(src, pat, init);
      match res
      case Err(er) => FailsFirst(isa, src, items, init, last, er)
      case Ok(None) => forall k :: init <= k <= last ==> FirstWay(isa, src, items, k) == None
      case Ok(Some(f)) => f.start <= f.end <= |src| && FirstAt(isa, src, items, init, last, f.start, Hit(f.end, f.caps))
  {
    hide Nested, Items;
    var p, anchor := Start(pat), At(pat, 0) == '^';
    ghost var items := Items(pat, p);
    var ms := new MatchState(isa, src, pat);
    var s := init;
    while true
      invariant init <= s <= |src| && ms.Valid() && fresh(ms) && fresh(ms.capture) && (anchor ==> s == init)
      invariant ms.isa == isa && ms.src == src && ms.pat == pat
      invariant forall k :: init <= k < s ==> FirstWay(isa, src, items, k) == None
      decreases |src| - s
    {
      ms.level, ms.depth := 0, 0;
      assert ms.Caps() == [];
      var r := ms.Match(s, p);
      FirstInside(isa, src, items, s);
      match r
      case Err(er) =>
        assert FirstAt(isa, src, items, init, LastStart(src, pat, init), s, Bad(er));
        assert FailsFirst(isa, src, items, init, LastStart(src, pat, init), er);
        return Err(er);
      case Ok(Some(e)) => return Ok(Some(Found(s, e, ms.Caps())));
      case Ok(None) =>
        if s == |src| || anchor {
          return Ok(None);
        }
        s := s + 1;
    }
  }

  /** `s` is the first position between `init` and `last` with a way to match, `o` being the best. */
  ghost predicate FirstAt(isa: CharTable, src: string, items: seq<Item>, init: nat, last: nat, s: nat, o: Outcome) {
    init <= s <= last && FirstWay(isa, src, items, s) == Some(o)
    && forall k :: init <= k < s ==> FirstWay(isa, src, items, k) == None
  }

  /** The first position with a way to match is one where the best way is an error. */
  ghost predicate FailsFirst(isa: CharTable, src: string, items: seq<Item>, init: nat, last: nat, er: Error) {
    exists at: nat :: FirstAt(isa, src, items, init, last, at, Bad(er))
  }

  /** The best way to match at `s`, if there is one. */
  ghost function FirstWay(isa: CharTable, src: string, items: seq<Item>, s: nat): Option<Outcome> {
    var outs := Nested(isa, src, items, s, [], 0);
    if outs == [] then None else Some(outs[0])
  }
}
