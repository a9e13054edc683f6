/** The values of a keyword. */
module KwdValues {
  import opened Wildcard

  predicate Delimiter(c: char) {
    c in "{}(),"
  }

  predicate Gap(c: char) {
    Delimiter(c) || c == ' ' || c == '\n'
  }

  /** s from its first character that is not a gap. */
  function ValueStart(s: string): (t: string)
    ensures |t| <= |s| && t == s[|s| - |t|..] && (t != [] ==> !Gap(t[0]))
  {
    if s != [] && Gap(s[0]) then ValueStart(s[1..]) else s
  }

  function DelimiterAt(t: string): (d: nat)
    ensures d <= |t| && (d < |t| ==> Delimiter(t[d])) && forall i :: 0 <= i < d ==> !Delimiter(t[i])
  {
    if t == [] || Delimiter(t[0]) then 0 else 1 + DelimiterAt(t[1..])
  }

  function QuoteAt(t: string): (d: nat)
    ensures d <= |t| && (d < |t| ==> t[d] == '"') && forall i :: 0 <= i < d ==> t[i] != '"'
  {
    if t == [] || t[0] == '"' then 0 else 1 + QuoteAt(t[1..])
  }

  /** n less the blanks before it, but at least one. */
  function Trimmed(t: string, n: nat): (m: nat)
    requires 1 <= n <= |t|
    ensures 1 <= m <= n
  {
    if n > 1 && t[n - 1] == ' ' then Trimmed(t, n - 1) else n
  }

  /** The quote that a value starts with is closed. */
  predicate Closed(t: string) {
    t != [] && t[0] == '"' ==> QuoteAt(t[1..]) < |t| - 1
  }

  /** The length of the value at the start of t. */
  function ValueLen(t: string): (n: nat)
    requires t != [] && !Gap(t[0]) && Closed(t)
    ensures 1 <= n <= |t|
  {
    if t[0] == '"' then QuoteAt(t[1..]) + 2
    else if DelimiterAt(t) < |t| then Trimmed(t, DelimiterAt(t))
    else |t|
  }

  /** No value in s has an open quote. The scanner runs past the end of the text at one that has. */
  predicate AllClosed(s: string)
    decreases |s|
  {
    var t := ValueStart(s);
    t == [] || (Closed(t) && AllClosed(t[ValueLen(t)..]))
  }

  /** The values in s in order. */
  function Values(s: string): seq<string>
    requires AllClosed(s)
    decreases |s|
  {
    var t := ValueStart(s);
    if t == [] then [] else [t[..ValueLen(t)]] + Values(t[ValueLen(t)..])
  }

  function UpTo(c: char, s: string): string {
    if s == [] || s[0] == c then "" else [s[0]] + UpTo(c, s[1..])
  }

  /** OdlDataType finds a set or a sequence: without its unit and leading blanks the value starts with a bracket. */
  predicate IsList(value: string) {
    var t := StripLeading(UpTo('<', value), ' ');
    t != [] && (t[0] == '{' || t[0] == '(')
  }

  /** All values of a keyword. */
  function AllValues(value: string): seq<string>
    requires IsList(value) ==> AllClosed(value)
  {
    if IsList(value) then Values(value) else [value]
  }

  method GetAllKwdValues(value: string) returns (list: seq<string>)
    requires IsList(value) ==> AllClosed(value)
    ensures list == AllValues(value)
  {
    hide IsList, ValueStart, ValueLen, Values, AllClosed, Closed;
    list := [];
    if !IsList(value) {
      return [value];
    }
    ghost var text := value;
    var start := ValueStart(value);
    NextValue(text);
    while start != []
      invariant AllClosed(text) && start == ValueStart(text) && list + Values(text) == Values(value)
      decreases |start|
    {
      NextValue(text);
      var n := ValueLen(start);
      list := list + [start[..n]];
      text := start[n..];
      start := ValueStart(start[n..]);
    }
    NextValue(text);
  }

  lemma NextValue(s: string)
    requires AllClosed(s)
    ensures var t := ValueStart(s);
            if t == [] then Values(s) == []
            else Closed(t) && AllClosed(t[ValueLen(t)..]) && Values(s) == [t[..ValueLen(t)]] + Values(t[ValueLen(t)..])
  {
  }

  // ---------- Nested values ----------

  datatype Val = Atom(text: string) | List(curly: bool, pad: string, items: seq<Item>)

  /** A value with the white space written around it. */
  datatype Item = Item(before: string, val: Val, after: string)

  predicate AllOf(s: string, cs: string) {
    forall i :: 0 <= i < |s| ==> s[i] in cs
  }

  /** Quoted without inner quotes, or free of delimiters and not starting like a gap or a quote. */
  predicate AtomOk(a: string) {
    || (|a| >= 2 && a[0] == a[|a| - 1] == '"' && '"' !in a[1..|a| - 1])
    || (a != [] && a[0] != '"' && !Gap(a[0]) && a[|a| - 1] != ' ' && forall i :: 0 <= i < |a| ==> !Delimiter(a[i]))
  }

  predicate ValOk(v: Val)
    decreases v, 1
  {
    match v
    case Atom(a) => AtomOk(a)
    case List(_, pad, items) => AllOf(pad, " \n") && ItemsOk(items)
  }

  predicate ItemsOk(items: seq<Item>)
    decreases items, 0
  {
    forall i :: 0 <= i < |items| ==> AllOf(items[i].before, " \n") && AllOf(items[i].after, " ") && ValOk(items[i].val)
  }

  function Text(v: Val): string
    decreases v, 1
  {
    match v
    case Atom(a) => a
    case List(curly, pad, items) =>
      (if curly then "{" else "(") + pad + TextAll(items) + (if curly then "}" else ")")
  }

  function TextAll(items: seq<Item>): string
    decreases items, 0
  {
    if items == [] then ""
    else
      items[0].before + Text(items[0].val) + items[0].after + (if |items| == 1 then "" else ",")
      + TextAll(items[1..])
  }

  /** The atoms in order, whatever they are nested in. */
  function Leaves(v: Val): seq<string>
    decreases v, 1
  {
    match v
    case Atom(a) => [a]
    case List(_, _, items) => LeavesAll(items)
  }

  function LeavesAll(items: seq<Item>): seq<string>
    decreases items, 0
  {
    if items == [] then [] else Leaves(items[0].val) + LeavesAll(items[1..])
  }

  lemma {:induction false} StartSkips(g: string, s: string)
    requires forall i :: 0 <= i < |g| ==> Gap(g[i])
    ensures ValueStart(g + s) == ValueStart(s)
  {
    if g == [] {
      assert g + s == s;
    } else {
      assert (g + s)[1..] == g[1..] + s;
      StartSkips(g[1..], s);
    }
  }

  /** Gaps do not matter. */
  lemma GapSkips(g: string, s: string)
    requires (forall i :: 0 <= i < |g| ==> Gap(g[i])) && AllClosed(s)
    ensures AllClosed(g + s) && Values(g + s) == Values(s)
  {
    StartSkips(g, s);
  }

  lemma QuoteIs(t: string, d: nat)
    requires d < |t| && t[d] == '"' && forall i :: 0 <= i < d ==> t[i] != '"'
    ensures QuoteAt(t) == d
  {
  }

  lemma DelimiterIs(t: string, d: nat)
    requires d < |t| && Delimiter(t[d]) && forall i :: 0 <= i < d ==> !Delimiter(t[i])
    ensures DelimiterAt(t) == d
  {
  }

  lemma {:induction false} TrimmedIs(t: string, n: nat, m: nat)
    requires 1 <= m <= n <= |t| && t[m - 1] != ' ' && forall i :: m <= i < n ==> t[i] == ' '
    ensures Trimmed(t, n) == m
    decreases n
  {
    if n > m {
      TrimmedIs(t, n - 1, m);
    }
  }

  /** A good atom is taken whole, from a text that goes on with blanks and a delimiter. */
  lemma AtomLen(a: string, after: string, rest: string)
    requires AtomOk(a) && AllOf(after, " ") && rest != [] && Delimiter(rest[0])
    ensures var t := a + after + rest;
            ValueStart(t) == t && Closed(t) && ValueLen(t) == |a|
  {
    var t := a + after + rest;
    assert t[0] == a[0] && !Gap(t[0]);
    if a[0] == '"' {
      assert |a| >= 2 && a[|a| - 1] == '"';
      var u := t[1..];
      assert forall i :: 0 <= i < |a| - 2 ==> u[i] == a[1..|a| - 1][i];
      assert u[|a| - 2] == '"';
      QuoteIs(u, |a| - 2);
    } else {
      var d := |a| + |after|;
      assert t[d] == rest[0];
      assert forall i :: |a| <= i < d ==> t[i] == after[i - |a|];
      assert forall i :: 0 <= i < |a| ==> t[i] == a[i];
      DelimiterIs(t, d);
      TrimmedIs(t, d, |a|);
    }
  }

  lemma FirstValue(t: string, a: string, rest: string)
    requires ValueStart(t) == t && t != [] && Closed(t) && t[..ValueLen(t)] == a
    requires t[ValueLen(t)..] == rest && AllClosed(rest)
    ensures AllClosed(t) && Values(t) == [a] + Values(rest)
  {
    hide Closed, ValueStart, ValueLen;
  }

  lemma AtomValues(a: string, after: string, rest: string)
    requires AtomOk(a) && AllOf(after, " ") && rest != [] && Delimiter(rest[0]) && AllClosed(rest)
    ensures AllClosed(a + after + rest) && Values(a + after + rest) == [a] + Values(rest)
  {
    hide AtomOk, Closed, ValueLen, AllClosed, Values, ValueStart, Delimiter;
    var t := a + after + rest;
    AtomLen(a, after, rest);
    assert t[..|a|] == a && t[|a|..] == after + rest;
    Spaces(after);
    GapSkips(after, rest);
    FirstValue(t, a, after + rest);
  }

  lemma Regroup(a: string, b: string, c: string, d: string, e: string)
    ensures a + b + c + d + e == a + b + (c + (d + e))
  {
  }

  lemma Spaces(s: string)
    requires AllOf(s, " ") || AllOf(s, " \n")
    ensures forall i :: 0 <= i < |s| ==> Gap(s[i])
  {
  }

  predicate Bracket(s: string) {
    |s| == 1 && Delimiter(s[0])
  }

  /** A bracket, white space and what follows. */
  lemma OpenSkips(open: string, pad: string, s: string)
    requires Bracket(open) && AllOf(pad, " \n") && AllClosed(s)
    ensures AllClosed(open + pad + s) && Values(open + pad + s) == Values(s)
  {
    hide AllClosed, Values;
    Spaces(pad);
    GapSkips(pad, s);
    GapSkips(open, pad + s);
    assert open + pad + s == open + (pad + s);
  }

  lemma CloseSkips(close: string, after: string, rest: string)
    requires Bracket(close) && AllOf(after, " ") && AllClosed(rest)
    ensures var t := close + (after + rest);
            t != [] && Delimiter(t[0]) && AllClosed(t) && Values(t) == Values(rest)
  {
    hide AllClosed, Values;
    Spaces(after);
    GapSkips(after, rest);
    GapSkips(close, after + rest);
  }

  /** Scanning the text of a value finds its atoms. */
  lemma {:induction false} ValueText(v: Val, after: string, rest: string)
    requires ValOk(v) && AllOf(after, " ") && rest != [] && Delimiter(rest[0]) && AllClosed(rest)
    ensures AllClosed(Text(v) + after + rest) && Values(Text(v) + after + rest) == Leaves(v) + Values(rest)
    decreases v, 1
  {
    hide AtomOk, AllClosed, Values, AllOf, TextAll, Delimiter;
    match v
    case Atom(a) =>
      AtomValues(a, after, rest);
    case List(curly, pad, items) =>
      var open, close := if curly then "{" else "(", if curly then "}" else ")";
      Brackets(curly);
      CloseSkips(close, after, rest);
      ItemsText(items, close + (after + rest));
      OpenSkips(open, pad, TextAll(items) + (close + (after + rest)));
      Regroup(open, pad, TextAll(items), close, after + rest);
      assert Text(v) + after + rest == Text(v) + (after + rest);
  }

  lemma Brackets(curly: bool)
    ensures Bracket(if curly then "{" else "(") && Bracket(if curly then "}" else ")")
  {
  }

  lemma {:induction false} ItemsText(items: seq<Item>, rest: string)
    requires ItemsOk(items) && rest != [] && Delimiter(rest[0]) && AllClosed(rest)
    ensures AllClosed(TextAll(items) + rest) && Values(TextAll(items) + rest) == LeavesAll(items) + Values(rest)
    decreases items, 0
  {
    hide AtomOk, AllClosed, Values, ValOk, AllOf, Text;
    if items == [] {
      assert TextAll(items) + rest == rest;
    } else {
      var i, more, comma := items[0], TextAll(items[1..]), if |items| == 1 then "" else ",";
      ItemsText(items[1..], rest);
      CommaSkips(comma, more, rest);
      ValueText(i.val, i.after, comma + (more + rest));
      Spaces(i.before);
      GapSkips(i.before, Text(i.val) + i.after + (comma + (more + rest)));
      Regrouped(i.before, Text(i.val), i.after, comma, more, rest);
      assert Leaves(i.val) + (LeavesAll(items[1..]) + Values(rest)) == LeavesAll(items) + Values(rest);
    }
  }

  lemma Regrouped(a: string, b: string, c: string, d: string, e: string, f: string)
    ensures a + b + c + d + e + f == a + (b + c + (d + (e + f)))
  {
  }

  lemma CommaSkips(comma: string, more: string, rest: string)
    requires comma == "," || (comma == "" && more == "")
    requires rest != [] && Delimiter(rest[0]) && AllClosed(more + rest)
    ensures var t := comma + (more + rest);
            t != [] && Delimiter(t[0]) && AllClosed(t) && Values(t) == Values(more + rest)
  {
    hide AllClosed, Values;
    GapSkips(comma, more + rest);
    assert more == "" ==> more + rest == rest;
    assert comma == "" ==> comma + (more + rest) == more + rest;
  }

  /** What is no list, by its first character after the blanks, is one value, whatever it holds. */
  lemma SingleValue(b: string, v: string)
    requires AllOf(b, " ") && (v == "" || (v[0] != ' ' && v[0] != '{' && v[0] != '('))
    ensures !IsList(b + v) && AllValues(b + v) == [b + v]
  {
    UpToBlanks(b, v);
    BlanksOff(b, UpTo('<', v));
  }

  lemma {:induction false} UpToBlanks(b: string, v: string)
    requires AllOf(b, " ")
    ensures UpTo('<', b + v) == b + UpTo('<', v)
  {
    if b == [] {
      assert b + v == v;
    } else {
      assert (b + v)[1..] == b[1..] + v;
      UpToBlanks(b[1..], v);
    }
  }

  lemma {:induction false} BlanksOff(b: string, v: string)
    requires AllOf(b, " ") && (v == "" || v[0] != ' ')
    ensures StripLeading(b + v, ' ') == v
  {
    if b == [] {
      assert b + v == v;
    } else {
      assert (b + v)[1..] == b[1..] + v;
      BlanksOff(b[1..], v);
    }
  }

  /** Flattening undoes nesting, however the value is spaced. */
  lemma FlattenText(v: Val)
    requires ValOk(v) && v.List?
    ensures IsList(Text(v)) && AllClosed(Text(v)) && AllValues(Text(v)) == Leaves(v)
  {
    hide AllClosed, Values, AllOf, TextAll;
    var open, close := if v.curly then "{" else "(", if v.curly then "}" else ")";
    Brackets(v.curly);
    NoValues();
    GapSkips(close, "");
    assert close + "" == close;
    ItemsText(v.items, close);
    OpenSkips(open, v.pad, TextAll(v.items) + close);
    Regroup(open, v.pad, TextAll(v.items), close, "");
    assert Text(v) + "" == Text(v);
    assert Leaves(v) + [] == Leaves(v);
    StartsList(Text(v));
  }

  lemma NoValues()
    ensures AllClosed("") && Values("") == []
  {
  }

  lemma StartsList(s: string)
    requires s != [] && (s[0] == '{' || s[0] == '(')
    ensures IsList(s)
  {
  }
}
