/** Pass 2 of the DynASM x86 encoder (dasm_link): lay out the sections one after the other,
    shrinking branches and alignments with one running correction. */
module DasmLink {
  import opened Wrappers
  import opened DasmChains
  import opened DasmLabels
  import opened DasmPut

  // ------------------------------------------------ the program as one list of items

  /** An executed action and its section. */
  datatype Item = Item(sec: nat, e: Entry)

  function Tagged(s: nat, es: seq<Entry>): (r: seq<Item>)
    ensures |r| == |es| && forall k :: 0 <= k < |es| ==> r[k] == Item(s, es[k])
  {
    seq(|es|, k requires 0 <= k < |es| => Item(s, es[k]))
  }

  /** The items of the first `n` sections, in the order they are laid out. */
  function Flat(log: seq<seq<Entry>>, n: nat): seq<Item>
    requires n <= |log|
  {
    if n == 0 then [] else Flat(log, n - 1) + Tagged(n - 1, log[n - 1])
  }

  /** How many items the first `n` sections have. */
  function Before(log: seq<seq<Entry>>, n: nat): nat
    requires n <= |log|
  {
    if n == 0 then 0 else Before(log, n - 1) + |log[n - 1]|
  }

  /** `items` lists every executed action, section after section. */
  ghost predicate Lists(log: seq<seq<Entry>>, items: seq<Item>) {
    |items| == Before(log, |log|)
    && forall s, k :: 0 <= s < |log| && 0 <= k < |log[s]| ==> ListedAt(log, items, s, k)
  }

  ghost predicate ListedAt(log: seq<seq<Entry>>, items: seq<Item>, s: nat, k: nat) {
    s < |log| && k < |log[s]| && Before(log, s) + k < |items| && items[Before(log, s) + k] == Item(s, log[s][k])
  }

  lemma {:induction false} FlatAt(log: seq<seq<Entry>>, n: nat, s: nat, k: nat)
    requires s < n <= |log| && k < |log[s]|
    ensures |Flat(log, n)| == Before(log, n)
    ensures Before(log, s) + k < |Flat(log, n)| && Flat(log, n)[Before(log, s) + k] == Item(s, log[s][k])
    decreases n
  {
    FlatSize(log, n - 1);
    if s < n - 1 { FlatAt(log, n - 1, s, k); }
  }

  lemma {:induction false} FlatSize(log: seq<seq<Entry>>, n: nat)
    requires n <= |log|
    ensures |Flat(log, n)| == Before(log, n)
    decreases n
  {
    if n > 0 { FlatSize(log, n - 1); }
  }

  lemma FlatLists(log: seq<seq<Entry>>)
    ensures Lists(log, Flat(log, |log|))
  {
    FlatSize(log, |log|);
    forall s, k | 0 <= s < |log| && 0 <= k < |log[s]| ensures ListedAt(log, Flat(log, |log|), s, k) {
      FlatAt(log, |log|, s, k);
    }
  }

  /** Which section and entry an item is. */
  lemma ItemFind(log: seq<seq<Entry>>, items: seq<Item>, i: nat) returns (s: nat, k: nat)
    requires Lists(log, items) && i < |items|
    ensures s < |log| && k < |log[s]| && items[i] == Item(s, log[s][k])
  {
    s, k := FindBefore(log, |log|, i);
    assert ListedAt(log, items, s, k);
  }

  lemma {:induction false} FindBefore(log: seq<seq<Entry>>, n: nat, i: nat) returns (s: nat, k: nat)
    requires n <= |log| && i < Before(log, n)
    ensures s < n && k < |log[s]| && i == Before(log, s) + k
    decreases n
  {
    if i < Before(log, n - 1) {
      s, k := FindBefore(log, n - 1, i);
    } else {
      s, k := n - 1, i - Before(log, n - 1);
    }
  }

  lemma {:induction false} BeforeGrows(log: seq<seq<Entry>>, s: nat, n: nat)
    requires s <= n <= |log|
    ensures Before(log, s) <= Before(log, n)
    decreases n
  {
    if s < n { BeforeGrows(log, s, n - 1); }
  }

  /** Where section `s` would start if nothing shrank. */
  function Base(ofs: seq<int>, s: nat): int
    requires s <= |ofs|
  {
    if s == 0 then 0 else Base(ofs, s - 1) + ofs[s - 1]
  }

  function Est(ofs: seq<int>, it: Item): int {
    if it.sec <= |ofs| then Base(ofs, it.sec) + it.e.est else 0
  }

  function ItemPos(it: Item): int { it.sec * SEC + it.e.idx }

  // --------------------------------------------------------- sections as they are walked

  /** The slots of an executed action, apart from offsets: those pass 2 overwrites. */
  ghost predicate SlotsOk(al: seq<Action>, b: seq<int>, ks: seq<SlotKind>, e: Entry) {
    |ks| == |b| && 0 <= e.p < |al| && 1 <= e.idx && e.idx + al[e.p].Slots() <= |b| && 0 <= e.est
    && match al[e.p]
       case Imm(k) => ks[e.idx] == KArg && b[e.idx] == e.arg && k.InRange(e.arg)
       case Space(_) => ks[e.idx] == KArg && b[e.idx] == e.arg && 0 <= e.arg
       case Rel(_, _) => ks[e.idx] == KLink && ks[e.idx + 1] == KEst
       case Label(_) => ks[e.idx] == KEst
       case Align(_) => ks[e.idx] == KEst
       case _ => true
  }

  ghost predicate Steps(al: seq<Action>, b: seq<int>, ks: seq<SlotKind>, e: Entry, f: Entry) {
    SlotsOk(al, b, ks, e) && f.est == e.est + al[e.p].MaxSize(e.arg)
    && if al[e.p].Terminal() then e.idx < |b| && ks[e.idx] == KStart && f.p == b[e.idx] && f.idx == e.idx + 1
       else f.p == e.p + 1 && f.idx == e.idx + al[e.p].Slots()
  }

  /** Walking the section buffer visits exactly `es`, and ends behind offset `ofs`. */
  ghost predicate Walks(al: seq<Action>, b: seq<int>, ks: seq<SlotKind>, es: seq<Entry>, ofs: int) {
    if es == [] then b == [] && ks == [] && ofs == 0
    else WalkStarts(b, ks, es[0]) && WalkEnds(al, b, ks, es[|es| - 1], ofs)
         && forall k :: 0 <= k < |es| - 1 ==> Steps(al, b, ks, es[k], es[k + 1])
  }

  ghost predicate WalkStarts(b: seq<int>, ks: seq<SlotKind>, e: Entry) {
    |ks| == |b| > 0 && ks[0] == KStart && e.p == b[0] && e.idx == 1 && e.est == 0
  }

  ghost predicate WalkEnds(al: seq<Action>, b: seq<int>, ks: seq<SlotKind>, e: Entry, ofs: int) {
    SlotsOk(al, b, ks, e) && al[e.p].Terminal() && e.idx == |b| && e.est == ofs
  }

  lemma ClosedWalks(al: seq<Action>, b: seq<int>, ks: seq<SlotKind>, es: seq<Entry>, ofs: int)
    requires Closed(al, b, ks, es, ofs)
    ensures Walks(al, b, ks, es, ofs)
    ensures forall k :: 0 <= k < |es| ==> EntryOk(al, b, ks, es[k])
  {
    forall k | 0 <= k < |es| - 1 ensures Steps(al, b, ks, es[k], es[k + 1]) && EntryOk(al, b, ks, es[k]) {
      assert Follows(al, b, ks, es[k], es[k + 1]);
    }
  }

  lemma WalksAt(al: seq<Action>, b: seq<int>, ks: seq<SlotKind>, es: seq<Entry>, ofs: int, k: nat)
    requires Walks(al, b, ks, es, ofs) && k < |es|
    ensures SlotsOk(al, b, ks, es[k])
  {
    if k < |es| - 1 { assert Steps(al, b, ks, es[k], es[k + 1]); }
  }

  /** Later actions use later slots. */
  lemma {:induction false} SlotsApart(al: seq<Action>, b: seq<int>, ks: seq<SlotKind>, es: seq<Entry>, ofs: int, j: nat, k: nat)
    requires Walks(al, b, ks, es, ofs) && j < k < |es|
    ensures 0 <= es[j].p < |al| && es[j].idx + al[es[j].p].Slots() <= es[k].idx
    decreases k - j
  {
    assert Steps(al, b, ks, es[j], es[j + 1]);
    if j + 1 < k {
      SlotsApart(al, b, ks, es, ofs, j + 1, k);
    }
  }

  /** Sections that differ in offsets only are walked alike. */
  ghost predicate SameButEst(b: seq<int>, b': seq<int>, ks: seq<SlotKind>) {
    |b| == |b'| == |ks| && forall i :: 0 <= i < |b| && ks[i] != KEst ==> b'[i] == b[i]
  }

  lemma WalksSame(al: seq<Action>, b: seq<int>, b': seq<int>, ks: seq<SlotKind>, es: seq<Entry>, ofs: int)
    requires Walks(al, b, ks, es, ofs) && SameButEst(b, b', ks)
    ensures Walks(al, b', ks, es, ofs)
  {
    forall k | 0 <= k < |es| - 1 ensures Steps(al, b', ks, es[k], es[k + 1]) {
      assert Steps(al, b, ks, es[k], es[k + 1]);
    }
  }

  // ------------------------------------------------------------- facts about the list

  function ActionOf(al: seq<Action>, it: Item): Action {
    if 0 <= it.e.p < |al| then al[it.e.p] else Stop
  }

  function MaxOf(al: seq<Action>, it: Item): int { ActionOf(al, it).MaxSize(it.e.arg) }

  ghost predicate ItemOk(al: seq<Action>, it: Item) {
    0 <= it.e.p < |al| && 1 <= it.e.idx && 0 <= it.e.est
    && (al[it.e.p].Space? ==> 0 <= it.e.arg) && ActionOk(al[it.e.p])
  }

  /** Estimates and positions go up along the list. */
  ghost predicate Sequel(al: seq<Action>, ofs: seq<int>, a: Item, c: Item) {
    Est(ofs, c) == Est(ofs, a) + MaxOf(al, a)
    && (a.sec < c.sec || (a.sec == c.sec && a.e.idx + ActionOf(al, a).Slots() <= c.e.idx))
  }

  ghost predicate Program(al: seq<Action>, ofs: seq<int>, items: seq<Item>) {
    (forall i :: 0 <= i < |items| ==> ItemOk(al, items[i]))
    && (forall i :: 0 <= i < |items| - 1 ==> Sequel(al, ofs, items[i], items[i + 1]))
    && (|items| > 0 ==> Est(ofs, items[0]) == 0)
  }

  /** The list ends at the terminal action of a section, `end` being the estimate there. */
  ghost predicate ProgramEnds(al: seq<Action>, ofs: seq<int>, items: seq<Item>, n: nat, end: int) {
    if items == [] then end == 0
    else items[|items| - 1].sec < n && ActionOf(al, items[|items| - 1]).Terminal() && Est(ofs, items[|items| - 1]) == end
  }

  lemma SectionProgram(al: seq<Action>, b: seq<int>, ks: seq<SlotKind>, es: seq<Entry>, ofs: seq<int>, s: nat)
    requires ValidActions(al) && s < |ofs| && Walks(al, b, ks, es, ofs[s])
    ensures forall i :: 0 <= i < |es| ==> ItemOk(al, Item(s, es[i]))
    ensures forall i :: 0 <= i < |es| - 1 ==> Sequel(al, ofs, Item(s, es[i]), Item(s, es[i + 1]))
    ensures es != [] ==> es[0].est == 0 && ProgramEnds(al, ofs, [Item(s, es[|es| - 1])], s + 1, Base(ofs, s + 1))
    ensures es == [] ==> Base(ofs, s + 1) == Base(ofs, s)
  {
    forall i | 0 <= i < |es| ensures ItemOk(al, Item(s, es[i])) {
      WalksAt(al, b, ks, es, ofs[s], i);
    }
    forall i | 0 <= i < |es| - 1 ensures Sequel(al, ofs, Item(s, es[i]), Item(s, es[i + 1])) {
      assert Steps(al, b, ks, es[i], es[i + 1]);
    }
  }

  /** Between two puts all sections walk, so the list of items is a program. */
  lemma {:induction false} FlatProgram(al: seq<Action>, b: Buffers, ks: seq<seq<SlotKind>>, log: seq<seq<Entry>>, ofs: seq<int>, n: nat)
    requires ValidActions(al) && |b| == |ks| == |log| == |ofs| && n <= |b|
    requires forall s :: 0 <= s < |b| ==> Walks(al, b[s], ks[s], log[s], ofs[s])
    ensures Program(al, ofs, Flat(log, n)) && ProgramEnds(al, ofs, Flat(log, n), n, Base(ofs, n))
    decreases n
  {
    hide Program, ProgramEnds, Sequel, ItemOk, Walks;
    if n == 0 {
      NoProgram(al, ofs);
    } else {
      FlatProgram(al, b, ks, log, ofs, n - 1);
      assert Walks(al, b[n - 1], ks[n - 1], log[n - 1], ofs[n - 1]);
      SectionProgram(al, b[n - 1], ks[n - 1], log[n - 1], ofs, n - 1);
      JoinProgram(al, ofs, Flat(log, n - 1), log[n - 1], n - 1);
    }
  }

  lemma NoProgram(al: seq<Action>, ofs: seq<int>)
    ensures Program(al, ofs, []) && ProgramEnds(al, ofs, [], 0, 0)
  {
  }

  /** A section put behind the ones before it. */
  lemma JoinProgram(al: seq<Action>, ofs: seq<int>, head: seq<Item>, es: seq<Entry>, s: nat)
    requires s < |ofs| && Program(al, ofs, head) && ProgramEnds(al, ofs, head, s, Base(ofs, s))
    requires forall i :: 0 <= i < |es| ==> ItemOk(al, Item(s, es[i]))
    requires forall i :: 0 <= i < |es| - 1 ==> Sequel(al, ofs, Item(s, es[i]), Item(s, es[i + 1]))
    requires es != [] ==> es[0].est == 0 && ProgramEnds(al, ofs, [Item(s, es[|es| - 1])], s + 1, Base(ofs, s + 1))
    requires es == [] ==> Base(ofs, s + 1) == Base(ofs, s)
    ensures Program(al, ofs, head + Tagged(s, es)) && ProgramEnds(al, ofs, head + Tagged(s, es), s + 1, Base(ofs, s + 1))
  {
    var items := head + Tagged(s, es);
    forall i | 0 <= i < |items| - 1 ensures Sequel(al, ofs, items[i], items[i + 1]) {
      if i < |head| - 1 { assert Sequel(al, ofs, head[i], head[i + 1]); }
    }
    assert es == [] ==> items == head;
  }

  lemma {:induction false} ItemsApart(al: seq<Action>, ofs: seq<int>, items: seq<Item>, i: nat, j: nat)
    requires Program(al, ofs, items) && i < j < |items|
    ensures var a, c := items[i], items[j];
      a.sec < c.sec || (a.sec == c.sec && a.e.idx + ActionOf(al, a).Slots() <= c.e.idx)
    decreases j - i
  {
    assert Sequel(al, ofs, items[i], items[i + 1]);
    if i + 1 < j {
      ItemsApart(al, ofs, items, i + 1, j);
    }
  }

  // ------------------------------------------------------------------ the final layout

  /** Item `j` is the label at position `pos`. */
  ghost predicate LabelItem(al: seq<Action>, items: seq<Item>, pos: int, j: int) {
    0 <= j < |items| && ActionOf(al, items[j]).Label? && ItemPos(items[j]) == pos
  }

  /** The item a branch goes to, or -1 for a label outside the program. */
  ghost function TargetOf(al: seq<Action>, items: seq<Item>, link: int): int {
    if exists j :: LabelItem(al, items, link, j) then var j :| LabelItem(al, items, link, j); j else -1
  }

  lemma TargetIs(al: seq<Action>, items: seq<Item>, link: int)
    ensures TargetOf(al, items, link) == -1 || LabelItem(al, items, link, TargetOf(al, items, link))
  {
  }

  ghost function LinkOf(al: seq<Action>, b: Buffers, it: Item): int {
    if ActionOf(al, it).Rel? && it.sec < |b| && 0 <= it.e.idx < |b[it.sec]| then b[it.sec][it.e.idx] else -1
  }

  /** The target of every item, as the buffers say. */
  ghost function Targets(al: seq<Action>, b: Buffers, items: seq<Item>): (tg: seq<int>)
    ensures |tg| == |items|
    ensures forall i :: 0 <= i < |items| ==> tg[i] == TargetOf(al, items, LinkOf(al, b, items[i]))
  {
    seq(|items|, i requires 0 <= i < |items| => TargetOf(al, items, LinkOf(al, b, items[i])))
  }

  /** How far the branch has to reach, as pass 2 reckons it: for a label behind, between final
      addresses; for a label ahead, between estimates. */
  ghost function Reach(al: seq<Action>, ofs: seq<int>, items: seq<Item>, tg: seq<int>, f: seq<int>, i: nat): int
    requires i < |items| == |tg| && i < |f| && tg[i] < |items|
  {
    if tg[i] > i then Est(ofs, items[tg[i]]) - (Est(ofs, items[i]) + MaxOf(al, items[i]))
    else if tg[i] >= 0 then f[tg[i]] - (f[i] + MaxOf(al, items[i]))
    else 0
  }

  /** Bytes the branch is shrunk by. */
  ghost function Saved(al: seq<Action>, ofs: seq<int>, items: seq<Item>, tg: seq<int>, f: seq<int>, i: nat): int
    requires i < |items| == |tg| && i < |f| && tg[i] < |items|
  {
    var a := ActionOf(al, items[i]);
    if a.Rel? && tg[i] >= 0 && -128 - a.br.Saving() <= Reach(al, ofs, items, tg, f, i) <= 127 then a.br.Saving() else 0
  }

  /** The final size of an item at address `f[i]`. */
  ghost function SizeAt(al: seq<Action>, ofs: seq<int>, items: seq<Item>, tg: seq<int>, f: seq<int>, i: nat): int
    requires i < |items| == |tg| && i < |f| && tg[i] < |items|
  {
    match ActionOf(al, items[i])
    case Align(mask) => if mask >= 0 then (-f[i]) % (mask + 1) else 0
    case Rel(br, _) => br.OpLen() + 4 - Saved(al, ofs, items, tg, f, i)
    case _ => MaxOf(al, items[i])
  }

  ghost predicate TargetsIn(items: seq<Item>, tg: seq<int>) {
    |tg| == |items| && forall i :: 0 <= i < |tg| ==> tg[i] < |items|
  }

  ghost predicate LaidOut(al: seq<Action>, ofs: seq<int>, items: seq<Item>, tg: seq<int>, f: seq<int>, i: int) {
    TargetsIn(items, tg) && 0 <= i < |items| && i + 1 < |f| && f[i + 1] == f[i] + SizeAt(al, ofs, items, tg, f, i)
  }

  /** The addresses of the first items, each right behind the one before. */
  ghost predicate Layout(al: seq<Action>, ofs: seq<int>, items: seq<Item>, tg: seq<int>, f: seq<int>) {
    TargetsIn(items, tg) && 0 < |f| <= |items| + 1 && f[0] == 0
    && forall i :: 0 <= i < |f| - 1 ==> LaidOut(al, ofs, items, tg, f, i)
  }

  /** Extending a layout by the next address. */
  lemma LayoutStep(al: seq<Action>, ofs: seq<int>, items: seq<Item>, tg: seq<int>, f: seq<int>, a: int)
    requires Layout(al, ofs, items, tg, f) && |f| <= |items|
    requires a == f[|f| - 1] + SizeAt(al, ofs, items, tg, f, |f| - 1)
    ensures Layout(al, ofs, items, tg, f + [a])
  {
    forall i | 0 <= i < |f + [a]| - 1 ensures LaidOut(al, ofs, items, tg, f + [a], i) {
      if i < |f| - 1 { assert LaidOut(al, ofs, items, tg, f, i); }
      assert i < |f| && (f + [a])[i] == f[i];
    }
  }

  /** An item never takes more than its estimate. */
  lemma SizeBounds(al: seq<Action>, ofs: seq<int>, items: seq<Item>, tg: seq<int>, f: seq<int>, i: nat)
    requires TargetsIn(items, tg) && i < |items| && i < |f| && ItemOk(al, items[i])
    ensures 0 <= SizeAt(al, ofs, items, tg, f, i) <= MaxOf(al, items[i])
  {
  }

  /** Addresses only go up, and distances only shrink. */
  lemma {:induction false} DistancesShrink(al: seq<Action>, ofs: seq<int>, items: seq<Item>, tg: seq<int>, f: seq<int>, i: nat, j: nat)
    requires Program(al, ofs, items) && Layout(al, ofs, items, tg, f) && i <= j < |f| && j < |items|
    ensures 0 <= f[j] - f[i] <= Est(ofs, items[j]) - Est(ofs, items[i])
    decreases j - i
  {
    if i < j {
      DistancesShrink(al, ofs, items, tg, f, i, j - 1);
      assert LaidOut(al, ofs, items, tg, f, j - 1);
      assert Sequel(al, ofs, items[j - 1], items[j]);
      SizeBounds(al, ofs, items, tg, f, j - 1);
    }
  }

  /** Every branch that was shrunk fits: its final displacement is a signed byte. */
  lemma ShrunkFits(al: seq<Action>, ofs: seq<int>, items: seq<Item>, tg: seq<int>, f: seq<int>, i: nat)
    requires Program(al, ofs, items) && Layout(al, ofs, items, tg, f) && |f| == |items| + 1 && i < |items|
    requires ActionOf(al, items[i]).Rel? && Saved(al, ofs, items, tg, f, i) > 0
    ensures tg[i] >= 0 && -128 <= f[tg[i]] - f[i + 1] <= 127
  {
    assert LaidOut(al, ofs, items, tg, f, i);
    if tg[i] > i {
      assert Sequel(al, ofs, items[i], items[i + 1]);
      DistancesShrink(al, ofs, items, tg, f, i + 1, tg[i]);
    } else {
      DistancesShrink(al, ofs, items, tg, f, tg[i], i);
    }
  }

  /** Every alignment ends on its boundary. */
  lemma AlignLands(al: seq<Action>, ofs: seq<int>, items: seq<Item>, tg: seq<int>, f: seq<int>, i: nat)
    requires Program(al, ofs, items) && Layout(al, ofs, items, tg, f) && |f| == |items| + 1 && i < |items|
    requires ActionOf(al, items[i]).Align?
    ensures var mask := ActionOf(al, items[i]).mask;
      f[i + 1] % (mask + 1) == 0 && 0 <= f[i + 1] - f[i] <= mask
  {
    assert LaidOut(al, ofs, items, tg, f, i);
    assert ItemOk(al, items[i]);
    RoundUp(f[i], ActionOf(al, items[i]).mask + 1);
  }

  lemma RoundUp(x: int, m: int)
    requires m > 0
    ensures (x + (-x) % m) % m == 0
    ensures 0 <= (-x) % m < m
    ensures (-x) % m == m - 1 - (x + m - 1) % m
  {
    var q, r := (-x) / m, (-x) % m;
    assert x + r == -q * m;
    MultipleMod(-q, m);
    var y := (x + m - 1) % m;
    assert x + m - 1 == -q * m + (m - 1 - r);
    ModOffset(-q, m, m - 1 - r);
  }

  lemma MultipleMod(q: int, m: int)
    requires m > 0
    ensures (q * m) % m == 0
  {
    ModOffset(q, m, 0);
  }

  lemma ModOffset(q: int, m: int, r: int)
    requires 0 <= r < m
    ensures (q * m + r) % m == r
  {
    var q1, r1 := (q * m + r) / m, (q * m + r) % m;
    assert (q1 - q) * m == r - r1;
    SmallMultiple(q1 - q, m);
  }

  lemma SmallMultiple(d: int, m: int)
    requires m > 0 && -m < d * m < m
    ensures d == 0
  {
    if d >= 1 {
      MultipleGrows(d, m);
    } else if d <= -1 {
      MultipleGrows(-d, m);
    }
  }

  lemma MultipleGrows(d: int, m: int)
    requires m > 0 && d >= 1
    ensures d * m >= m
  {
  }
}
