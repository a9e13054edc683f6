/** Menus as indented outlines. */
module Outline {
  import opened Bytes

  datatype Menu = Menu(str: string, id: int, items: seq<Menu>)

  predicate IsSpace(c: char) {
    c == ' ' || '\t' <= c <= '\r'
  }

  // ---------- Lines of a text ----------

  /** The end of the line that p is on: its newline, or the end of the text. */
  function LineEnd(s: string, p: nat): (e: nat)
    requires p <= |s|
    ensures p <= e <= |s| && '\n' !in s[p..e] && (e < |s| ==> s[e] == '\n')
    decreases |s| - p
  {
    if p == |s| || s[p] == '\n' then p
    else
      var e := LineEnd(s, p + 1);
      assert s[p..e] == [s[p]] + s[p + 1..e];
      e
  }

  /** The start of the next line; the end of the text stands for no line. */
  function NextLine(s: string, p: nat): (q: nat)
    requires p < |s|
    ensures p < q <= |s|
  {
    var e := LineEnd(s, p);
    if e < |s| then e + 1 else e
  }

  /** How many white-space characters stand at p. A newline is one of them. */
  function Depth(s: string, p: nat): (d: nat)
    requires p <= |s|
    ensures p + d <= |s|
    decreases |s| - p
  {
    if p < |s| && IsSpace(s[p]) then 1 + Depth(s, p + 1) else 0
  }

  /** The first line from p on that is not deeper than top. */
  function SkipDeeper(s: string, p: nat, top: nat): (q: nat)
    requires p <= |s|
    ensures p <= q <= |s| && Depth(s, q) <= top
    decreases |s| - p
  {
    if Depth(s, p) > top then SkipDeeper(s, NextLine(s, p), top) else p
  }

  /** The text of the line at p from column top on. The white space counted may go on past the line, and
      then all that follows is taken. */
  function LabelAt(s: string, p: nat, top: nat): string
    requires p + top <= |s|
  {
    if p + top <= LineEnd(s, p) then s[p + top..LineEnd(s, p)] else s[p + top..]
  }

  // ---------- The parser ----------

  datatype Parsed = Parsed(menu: Menu, id: int, at: nat)

  function ReplaceLast(m: Menu, child: Menu): Menu
    requires m.items != []
  {
    m.(items := m.items[|m.items| - 1 := child])
  }

  /** The lines from p on that are at least top deep, as further items of parent: those at top are items,
      deeper ones go to the item before them. The first line, for an empty parent, is at top. */
  function Items(s: string, p: nat, top: nat, parent: Menu, id: int): (r: Parsed)
    requires p <= |s| && top <= |s| && (parent.items == [] ==> p < |s| ==> Depth(s, p) <= top)
    ensures p <= r.at <= |s|
    decreases |s| - p, |s| - top
  {
    if p == |s| || Depth(s, p) < top then Parsed(parent, id, p)
    else if Depth(s, p) > top then
      var sub := Items(s, p, Depth(s, p), parent.items[|parent.items| - 1], id);
      Items(s, SkipDeeper(s, p, top), top, ReplaceLast(parent, sub.menu), sub.id)
    else
      var item := Menu(LabelAt(s, p, top), id, []);
      Items(s, NextLine(s, p), top, parent.(items := parent.items + [item]), id + 1)
  }

  /** The whole text: its first line is the root, the rest its items. */
  function Parse(s: string, id: int): Parsed {
    var root := Menu(s[..LineEnd(s, 0)], id, []);
    if LineEnd(s, 0) == |s| then Parsed(root, id + 1, |s|)
    else
      var p := LineEnd(s, 0) + 1;
      Items(s, p, Depth(s, p), root, id + 1)
  }

  /** White space is the blank and the five control characters from the tab to the carriage return. */
  lemma SixSpaces(c: char)
    ensures IsSpace(c) <==> c as int in {32, 9, 10, 11, 12, 13}
  {
  }

  /** A text of one line without a newline is a menu without items. */
  lemma OneLineMenu(s: string, id: int)
    requires '\n' !in s && '\0' !in s
    ensures Parse(s, id) == Parsed(Menu(s, id, []), id + 1, |s|)
  {
    assert forall i :: 0 <= i < |s| ==> s[i] in s;
    assert s[..|s|] == s;
  }

  // ---------- The parser never runs past a shallower line ----------

  /** q is p or the start of a later line. */
  predicate Reaches(s: string, p: nat, q: nat)
    requires p <= |s|
    decreases |s| - p
  {
    p == q || (p < |s| && Reaches(s, NextLine(s, p), q))
  }

  lemma {:induction false} ReachesAfter(s: string, p: nat, q: nat)
    requires p <= |s| && Reaches(s, p, q)
    ensures p <= q <= |s|
    decreases |s| - p
  {
    if p != q {
      ReachesAfter(s, NextLine(s, p), q);
    }
  }

  lemma {:induction false} SkipReaches(s: string, p: nat, top: nat)
    requires p <= |s|
    ensures Reaches(s, p, SkipDeeper(s, p, top))
    decreases |s| - p
  {
    if Depth(s, p) > top {
      SkipReaches(s, NextLine(s, p), top);
    }
  }

  /** Skipping lines deeper than top stops at or before a line that is not. */
  lemma {:induction false} SkipBefore(s: string, p: nat, top: nat, q: nat)
    requires p <= |s| && Reaches(s, p, q) && q <= |s| && Depth(s, q) <= top
    ensures Reaches(s, SkipDeeper(s, p, top), q)
    decreases |s| - p
  {
    if Depth(s, p) > top {
      SkipBefore(s, NextLine(s, p), top, q);
    }
  }

  lemma {:induction false} ItemsStopBefore(s: string, p: nat, top: nat, parent: Menu, id: int, q: nat)
    requires p <= |s| && top <= |s| && (parent.items == [] ==> p < |s| ==> Depth(s, p) <= top)
    requires Reaches(s, p, q) && q <= |s| && (q == |s| || Depth(s, q) < top)
    ensures Items(s, p, top, parent, id).at <= q
    decreases |s| - p, |s| - top
  {
    ReachesAfter(s, p, q);
    if p == |s| || Depth(s, p) < top {
    } else if Depth(s, p) > top {
      var sub := Items(s, p, Depth(s, p), parent.items[|parent.items| - 1], id);
      SkipBefore(s, p, top, q);
      ItemsStopBefore(s, SkipDeeper(s, p, top), top, ReplaceLast(parent, sub.menu), sub.id, q);
    } else {
      var item := Menu(LabelAt(s, p, top), id, []);
      ItemsStopBefore(s, NextLine(s, p), top, parent.(items := parent.items + [item]), id + 1, q);
    }
  }

  // ---------- Outlines ----------

  function Blanks(n: nat): string {
    seq(n, _ => ' ')
  }

  predicate LabelOk(str: string) {
    str != [] && !IsSpace(str[0]) && '\n' !in str && '\0' !in str
  }

  predicate MenuOk(m: Menu)
    decreases m, 1
  {
    LabelOk(m.str) && MenusOk(m.items)
  }

  predicate MenusOk(ms: seq<Menu>)
    decreases ms, 0
  {
    forall i :: 0 <= i < |ms| ==> MenuOk(ms[i])
  }

  /** A line for every item, four columns further right for every level. */
  function Outlined(m: Menu, level: nat): string
    decreases m, 1
  {
    Blanks(4 * level) + m.str + "\n" + OutlinedAll(m.items, level + 1)
  }

  function OutlinedAll(ms: seq<Menu>, level: nat): string
    decreases ms, 0
  {
    if ms == [] then "" else Outlined(ms[0], level) + OutlinedAll(ms[1..], level)
  }

  function Size(m: Menu): nat
    decreases m, 1
  {
    1 + SizeAll(m.items)
  }

  function SizeAll(ms: seq<Menu>): nat
    decreases ms, 0
  {
    if ms == [] then 0 else Size(ms[0]) + SizeAll(ms[1..])
  }

  /** The menu with its ids counted from id on, an item before those under it. */
  function Numbered(m: Menu, id: int): Menu
    decreases m, 1
  {
    Menu(m.str, id, NumberedAll(m.items, id + 1))
  }

  function NumberedAll(ms: seq<Menu>, id: int): (r: seq<Menu>)
    ensures |r| == |ms|
    decreases ms, 0
  {
    if ms == [] then [] else [Numbered(ms[0], id)] + NumberedAll(ms[1..], id + Size(ms[0]))
  }

  // ---------- Outlining, then parsing ----------

  lemma {:induction false} DepthIs(s: string, p: nat, n: nat)
    requires p + n < |s| && (forall i :: p <= i < p + n ==> s[i] == ' ') && !IsSpace(s[p + n])
    ensures Depth(s, p) == n
    decreases n
  {
    if n > 0 {
      DepthIs(s, p + 1, n - 1);
    }
  }

  /** s has the line of an item at p. */
  predicate LineOf(s: string, p: nat, str: string, level: nat) {
    var n := 4 * level + |str| + 1;
    p + n <= |s| && s[p..p + n] == Blanks(4 * level) + str + "\n"
  }

  lemma LineIs(s: string, p: nat, str: string, level: nat)
    requires LabelOk(str) && LineOf(s, p, str, level)
    ensures Depth(s, p) == 4 * level && NextLine(s, p) == p + 4 * level + |str| + 1
    ensures LineEnd(s, p) == p + 4 * level + |str| && LabelAt(s, p, 4 * level) == str
  {
    var n := 4 * level;
    var l := Blanks(n) + str + "\n";
    assert forall i :: 0 <= i < |l| ==> s[p + i] == l[i];
    assert forall i :: p <= i < p + n ==> s[i] == l[i - p] == ' ';
    assert s[p + n] == l[n] == str[0];
    DepthIs(s, p, n);
    var e := p + n + |str|;
    assert s[e] == l[n + |str|] == '\n';
    assert forall i :: p <= i < e ==> s[i] == l[i - p] != '\n';
    assert LineEnd(s, p) == e;
    assert s[p + n..e] == str;
  }

  /** s has the outlines of ms from p up to q. */
  predicate OutlineAt(s: string, p: nat, q: nat, ms: seq<Menu>, level: nat) {
    p <= q <= |s| && s[p..q] == OutlinedAll(ms, level)
  }

  /** The parts of an outline: the first line, the items under it, the items after it. */
  lemma OutlineParts(s: string, p: nat, q: nat, ms: seq<Menu>, level: nat) returns (p1: nat, p2: nat)
    requires OutlineAt(s, p, q, ms, level) && ms != [] && MenusOk(ms)
    ensures LineOf(s, p, ms[0].str, level) && LabelOk(ms[0].str) && p < p1 <= p2 <= q
    ensures p1 == p + 4 * level + |ms[0].str| + 1 == NextLine(s, p)
    ensures OutlineAt(s, p1, p2, ms[0].items, level + 1) && OutlineAt(s, p2, q, ms[1..], level)
    ensures MenusOk(ms[0].items) && MenusOk(ms[1..])
  {
    hide LabelOk;
    var l := Blanks(4 * level) + ms[0].str + "\n";
    var k, r := OutlinedAll(ms[0].items, level + 1), OutlinedAll(ms[1..], level);
    assert MenuOk(ms[0]);
    assert Outlined(ms[0], level) == l + k;
    assert OutlinedAll(ms, level) == l + k + r;
    Pieces(s, p, q, l, k, r);
    p1 := p + |l|;
    p2 := p1 + |k|;
    LineIs(s, p, ms[0].str, level);
  }

  lemma Pieces(s: string, p: nat, q: nat, l: string, k: string, r: string)
    requires p <= q <= |s| && s[p..q] == l + k + r
    ensures q == p + |l| + |k| + |r|
    ensures s[p..p + |l|] == l && s[p + |l|..p + |l| + |k|] == k && s[p + |l| + |k|..q] == r
  {
    var t := s[p..q];
    assert |t| == |l + k + r|;
    assert s[p..p + |l|] == t[..|l|] == l;
    NestedSlice(s, p, q - p, |l|, |k|);
    assert s[p + |l|..p + |l| + |k|] == t[|l|..|l| + |k|] == k;
    assert s[p + |l| + |k|..q] == t[|l| + |k|..] == r;
  }

  lemma Smaller(ms: seq<Menu>)
    requires ms != []
    ensures SizeAll(ms[0].items) < SizeAll(ms) && SizeAll(ms[1..]) < SizeAll(ms)
    ensures SizeAll(ms) == Size(ms[0]) + SizeAll(ms[1..])
  {
  }

  lemma OutlineDepth(s: string, p: nat, q: nat, ms: seq<Menu>, level: nat, top: nat)
    requires OutlineAt(s, p, q, ms, level) && MenusOk(ms) && (ms == [] ==> Depth(s, q) <= top) && 4 * level <= top
    ensures Depth(s, p) <= top
  {
    if ms != [] {
      var _, _ := OutlineParts(s, p, q, ms, level);
      LineIs(s, p, ms[0].str, level);
    }
  }

  /** The lines of items further right are skipped. */
  lemma {:induction false} SkipOutline(s: string, p: nat, q: nat, ms: seq<Menu>, level: nat, top: nat)
    requires OutlineAt(s, p, q, ms, level) && MenusOk(ms) && top < 4 * level
    ensures SkipDeeper(s, p, top) == SkipDeeper(s, q, top)
    decreases SizeAll(ms)
  {
    hide OutlineAt, MenuOk, LabelOk, LineOf, OutlinedAll, SizeAll, Depth, NextLine;
    if ms == [] {
      NoOutline(s, p, q, level);
    } else {
      Smaller(ms);
      var p1, p2 := OutlineParts(s, p, q, ms, level);
      LineIs(s, p, ms[0].str, level);
      SkipOutline(s, p1, p2, ms[0].items, level + 1, top);
      SkipOutline(s, p2, q, ms[1..], level, top);
    }
  }

  lemma NoOutline(s: string, p: nat, q: nat, level: nat)
    requires OutlineAt(s, p, q, [], level)
    ensures p == q
  {
  }

  function Grown(m: Menu, more: seq<Menu>): Menu {
    m.(items := m.items + more)
  }

  /** One step of the parser at a line of its own level, and one at deeper lines. */
  lemma ItemsLine(s: string, p: nat, top: nat, parent: Menu, id: int)
    requires p < |s| && top <= |s| && Depth(s, p) == top
    ensures Items(s, p, top, parent, id) == Items(s, NextLine(s, p), top,
            Grown(parent, [Menu(LabelAt(s, p, top), id, [])]), id + 1)
  {
  }

  lemma ItemsDeeper(s: string, p: nat, q: nat, top: nat, parent: Menu, child: Menu, id: int)
    requires p < |s| && top < Depth(s, p) && q == SkipDeeper(s, p, top)
    ensures var sub := Items(s, p, Depth(s, p), child, id);
            Items(s, p, top, Grown(parent, [child]), id) == Items(s, q, top, Grown(parent, [sub.menu]), sub.id)
  {
    var sub := Items(s, p, Depth(s, p), child, id);
    assert ReplaceLast(Grown(parent, [child]), sub.menu) == Grown(parent, [sub.menu]);
  }

  lemma ItemsEnd(s: string, p: nat, top: nat, parent: Menu, id: int)
    requires p <= |s| && top <= |s| && (p == |s| || Depth(s, p) < top)
    ensures Items(s, p, top, parent, id) == Parsed(parent, id, p)
  {
  }

  lemma GrownTwice(m: Menu, a: seq<Menu>, b: seq<Menu>)
    ensures Grown(Grown(m, a), b) == Grown(m, a + b)
    ensures Grown(m, []) == m
  {
    assert m.items + a + b == m.items + (a + b);
    assert m.items + [] == m.items;
  }

  /** Parsing the outlines of ms adds them, numbered, to the parent. */
  lemma {:induction false} ItemsOutlined(s: string, p: nat, q: nat, ms: seq<Menu>, level: nat, parent: Menu, id: int)
    requires OutlineAt(s, p, q, ms, level) && MenusOk(ms) && 4 * level <= |s|
    requires Depth(s, q) <= 4 * level && Depth(s, p) <= 4 * level
    ensures Items(s, p, 4 * level, parent, id)
         == Items(s, q, 4 * level, Grown(parent, NumberedAll(ms, id)), id + SizeAll(ms))
    decreases SizeAll(ms), 0
  {
    hide OutlineAt, MenuOk, LabelOk, LineOf, Items, OutlinedAll, Depth, NextLine, LabelAt, Grown;
    if ms == [] {
      NoOutline(s, p, q, level);
      GrownTwice(parent, [], []);
    } else {
      hide SizeAll, Numbered;
      Smaller(ms);
      var p1, p2 := OutlineParts(s, p, q, ms, level);
      LineIs(s, p, ms[0].str, level);
      ItemsLine(s, p, 4 * level, parent, id);
      OutlineDepth(s, p2, q, ms[1..], level, 4 * level);
      OutlineDepth(s, p1, p2, ms[0].items, level + 1, 4 * level + 4);
      ItemUnder(s, p1, p2, ms[0], level, parent, id);
      ItemsOutlined(s, p2, q, ms[1..], level, Grown(parent, [Numbered(ms[0], id)]), id + Size(ms[0]));
      GrownTwice(parent, [Numbered(ms[0], id)], NumberedAll(ms[1..], id + Size(ms[0])));
    }
  }

  /** The items under one, read after its line. */
  lemma {:induction false} ItemUnder(s: string, p1: nat, p2: nat, m: Menu, level: nat, parent: Menu, id: int)
    requires OutlineAt(s, p1, p2, m.items, level + 1) && MenusOk(m.items)
    requires 4 * level <= |s| && Depth(s, p2) <= 4 * level
    requires Depth(s, p1) <= 4 * level + 4
    ensures Items(s, p1, 4 * level, Grown(parent, [Menu(m.str, id, [])]), id + 1)
         == Items(s, p2, 4 * level, Grown(parent, [Numbered(m, id)]), id + Size(m))
    decreases SizeAll(m.items), 1
  {
    hide OutlineAt, MenuOk, LabelOk, LineOf, Items, OutlinedAll, Depth, NextLine, LabelAt;
    var item := Menu(m.str, id, []);
    assert Size(m) == 1 + SizeAll(m.items);
    if m.items == [] {
      NoOutline(s, p1, p2, level + 1);
    } else {
      hide SizeAll, NumberedAll;
      var p, p' := OutlineParts(s, p1, p2, m.items, level + 1);
      LineIs(s, p1, m.items[0].str, level + 1);
      ItemsOutlined(s, p1, p2, m.items, level + 1, item, id + 1);
      assert [] + NumberedAll(m.items, id + 1) == NumberedAll(m.items, id + 1);
      assert Grown(item, NumberedAll(m.items, id + 1)) == Numbered(m, id);
      ItemsEnd(s, p2, 4 * (level + 1), Numbered(m, id), id + 1 + SizeAll(m.items));
      SkipOutline(s, p1, p2, m.items, level + 1, 4 * level);
      NotDeeper(s, p2, 4 * level);
      ItemsDeeper(s, p1, p2, 4 * level, parent, item, id + 1);
    }
  }

  lemma NotDeeper(s: string, p: nat, top: nat)
    requires p <= |s| && Depth(s, p) <= top
    ensures SkipDeeper(s, p, top) == p
  {
  }

  /** Parsing the outline of a menu gives back the menu, its items numbered in the order of the lines. */
  lemma OutlineThenParse(m: Menu, id: int)
    requires MenuOk(m)
    ensures Parse(Outlined(m, 0), id) == Parsed(Numbered(m, id), id + Size(m), |Outlined(m, 0)|)
  {
    hide MenuOk, LabelOk;
    var s := Outlined(m, 0);
    var q := |s|;
    assert OutlinedAll([m], 0) == s + "";
    assert s + "" == s && s[0..q] == s;
    assert MenusOk([m]);
    var p1, p2 := OutlineParts(s, 0, q, [m], 0);
    LineIs(s, 0, m.str, 0);
    assert OutlinedAll([m][1..], 0) == "";
    var root := Menu(m.str, id, []);
    assert s[..LineEnd(s, 0)] == s[0 + 4 * 0..LineEnd(s, 0)] == m.str;
    RootItems(s, p1, q, m, id);
  }

  lemma RootItems(s: string, p: nat, q: nat, m: Menu, id: int)
    requires OutlineAt(s, p, q, m.items, 1) && MenusOk(m.items) && q == |s|
    ensures Items(s, p, Depth(s, p), Menu(m.str, id, []), id + 1) == Parsed(Numbered(m, id), id + Size(m), |s|)
  {
    hide OutlineAt, MenuOk, LabelOk, LineOf;
    var root := Menu(m.str, id, []);
    if m.items == [] {
      NoOutline(s, p, q, 1);
    } else {
      var p1, p2 := OutlineParts(s, p, q, m.items, 1);
      LineIs(s, p, m.items[0].str, 1);
      ItemsOutlined(s, p, q, m.items, 1, root, id + 1);
      assert [] + NumberedAll(m.items, id + 1) == NumberedAll(m.items, id + 1);
    }
  }

  // ---------- Printing ----------

  function Digits(n: nat): string {
    if n < 10 then ["0123456789"[n]] else Digits(n / 10) + ["0123456789"[n % 10]]
  }

  /** %d */
  function Decimal(n: int): string {
    if n < 0 then "-" + Digits(-n) else Digits(n)
  }

  /** The menu with its ids as print_menu shows them, behind the labels. */
  function Tagged(m: Menu): Menu
    decreases m, 1
  {
    Menu(m.str + "\t" + Decimal(m.id), m.id, TaggedAll(m.items))
  }

  function TaggedAll(ms: seq<Menu>): (r: seq<Menu>)
    ensures |r| == |ms|
    decreases ms, 0
  {
    if ms == [] then [] else [Tagged(ms[0])] + TaggedAll(ms[1..])
  }

  lemma {:induction false} DigitsOk(n: nat)
    ensures '\n' !in Digits(n) && '\0' !in Digits(n)
  {
    if n >= 10 {
      DigitsOk(n / 10);
    }
  }

  lemma {:induction false} TaggedOk(ms: seq<Menu>)
    requires MenusOk(ms)
    ensures MenusOk(TaggedAll(ms))
    decreases SizeAll(ms)
  {
    hide LabelOk, Decimal;
    if ms != [] {
      Smaller(ms);
      assert MenuOk(ms[0]);
      TaggedOk(ms[0].items);
      TaggedOk(ms[1..]);
      TagOk(ms[0].str, ms[0].id);
    }
  }

  lemma TagOk(str: string, id: int)
    requires LabelOk(str)
    ensures LabelOk(str + "\t" + Decimal(id))
  {
    DigitsOk(if id < 0 then -id else id);
  }

  /** What print_menu writes, parsed again, is the menu with its old ids in the labels. */
  lemma PrintThenParse(m: Menu, id: int)
    requires MenuOk(m)
    ensures Parse(Outlined(Tagged(m), 0), id).menu == Numbered(Tagged(m), id)
  {
    hide LabelOk, Parse, Outlined, Numbered;
    TaggedOk(m.items);
    TagOk(m.str, m.id);
    OutlineThenParse(Tagged(m), id);
  }

  method PrintMenu(parent: Menu, level: nat) returns (text: string)
    ensures text == Outlined(Tagged(parent), level)
    decreases parent
  {
    hide Outlined, Decimal;
    var under := "";
    assert parent.items[0..] == parent.items;
    for i := 0 to |parent.items|
      invariant under + OutlinedAll(TaggedAll(parent.items[i..]), level + 1) ==
                OutlinedAll(TaggedAll(parent.items), level + 1)
    {
      var item := PrintMenu(parent.items[i], level + 1);
      assert parent.items[i..][1..] == parent.items[i + 1..];
      NextOutline(parent.items[i..], level + 1);
      under := under + item;
    }
    assert parent.items[|parent.items|..] == [];
    text := Blanks(level * 4) + parent.str + "\t" + Decimal(parent.id) + "\n" + under;
    OutlineIs(parent, level);
  }

  lemma NextOutline(ms: seq<Menu>, level: nat)
    requires ms != []
    ensures OutlinedAll(TaggedAll(ms), level) == Outlined(Tagged(ms[0]), level) + OutlinedAll(TaggedAll(ms[1..]), level)
  {
    assert TaggedAll(ms)[1..] == TaggedAll(ms[1..]);
  }

  lemma OutlineIs(m: Menu, level: nat)
    ensures Outlined(Tagged(m), level)
         == Blanks(level * 4) + m.str + "\t" + Decimal(m.id) + "\n" + OutlinedAll(TaggedAll(m.items), level + 1)
  {
    hide Decimal;
    var d := Decimal(m.id);
    assert Blanks(level * 4) + (m.str + "\t" + d) + "\n" == Blanks(level * 4) + m.str + "\t" + d + "\n";
  }

  /** An outline holds no terminator. */
  lemma {:induction false} OutlinedClean(ms: seq<Menu>, level: nat)
    requires MenusOk(ms)
    ensures '\0' !in OutlinedAll(ms, level)
    decreases SizeAll(ms)
  {
    if ms != [] {
      Smaller(ms);
      assert MenuOk(ms[0]);
      OutlinedClean(ms[0].items, level + 1);
      OutlinedClean(ms[1..], level);
    }
  }
}
