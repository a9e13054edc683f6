/** Labels as text: printing and parsing. */
module OdlLabel {
  import opened Labels
  import opened Wildcard
  import KwdValues

  datatype Node = Node(cls: string, kwds: seq<Keyword>, kids: seq<Node>)

  // ---------- Characters and words ----------

  const MAXLINE := 256

  predicate Printable(c: char) {
    ' ' <= c <= '~'
  }

  /** A word starts with one of these. */
  predicate Graphic(c: char) {
    ' ' < c <= '~'
  }

  /** Linefeeds and the like at the end of s go. */
  function StripUnprintables(s: string): string {
    if s != [] && !Printable(s[|s| - 1]) then StripUnprintables(s[..|s| - 1]) else s
  }

  function TabsToBlanks(s: string): string {
    seq(|s|, i requires 0 <= i < |s| => if s[i] == '\t' then ' ' else s[i])
  }

  /** s from its first graphic character on. */
  function FirstWord(s: string): string {
    if s != [] && !Graphic(s[0]) then FirstWord(s[1..]) else s
  }

  function IndexOf(c: char, s: string): (i: nat)
    ensures i <= |s| && c !in s[..i] && (i < |s| ==> s[i] == c)
  {
    if s == [] || s[0] == c then 0
    else
      var i := 1 + IndexOf(c, s[1..]);
      assert s[..i] == [s[0]] + s[1..][..i - 1];
      i
  }

  /** The first comment opener in s at or after i, or |s|. */
  function CommentAt(s: string, i: nat): (k: nat)
    requires i <= |s|
    ensures i <= k <= |s| && (k < |s| ==> k + 2 <= |s| && s[k] == '/' && s[k + 1] == '*')
    ensures forall j :: i <= j < k && j + 1 < |s| ==> !(s[j] == '/' && s[j + 1] == '*')
    decreases |s| - i
  {
    if i + 2 > |s| then |s|
    else if s[i] == '/' && s[i + 1] == '*' then i
    else CommentAt(s, i + 1)
  }

  function CountOf(c: char, s: string): nat {
    if s == [] then 0 else (if s[0] == c then 1 else 0) + CountOf(c, s[1..])
  }

  /** The text of a line without its comment: the first opener outside quotes ends it, and the blanks
      before it go. The search resumes at i with an odd number of quotes so far if odd. */
  function DropComment(s: string, i: nat, odd: bool): string
    requires i <= |s|
    decreases |s| - i
  {
    var k := CommentAt(s, i);
    if k == |s| then s
    else
      var odd' := odd != (CountOf('"', s[i..k]) % 2 == 1);
      if !odd' then s[..i] + StripTrailing(s[i..k], ' ')
      else DropComment(s, k + 1, odd')
  }

  // ---------- Balance ----------

  function Nesting(s: string, open: char, close: char): int {
    if s == [] then 0
    else (if s[0] == open then 1 else if s[0] == close then -1 else 0) + Nesting(s[1..], open, close)
  }

  /** CheckBalance on what follows the first '=': a list must nest evenly, a quoted text must close. */
  predicate Balanced(v: string) {
    var w := FirstWord(v);
    if w == [] then true
    else if w[0] == '(' || w[0] == '{' then Nesting(w, '{', '}') + Nesting(w, '(', ')') == 0
    else if w[0] == '"' then CountOf('"', w) % 2 == 0
    else true
  }

  // ---------- The parser ----------

  /** The open objects from the root down; each is still without the next one in its children. */
  type Frames = s: seq<Node> | s != [] witness [Node("ROOT", [], [])]

  function Close(fr: Frames): Frames {
    if |fr| == 1 then fr
    else
      var parent, child := fr[|fr| - 2], fr[|fr| - 1];
      fr[..|fr| - 2] + [parent.(kids := parent.kids + [child])]
  }

  function CloseAll(fr: Frames): Node
    decreases |fr|
  {
    if |fr| == 1 then fr[0] else CloseAll(Close(fr))
  }

  function AddKwd(fr: Frames, k: Keyword): Frames {
    fr[|fr| - 1 := fr[|fr| - 1].(kwds := fr[|fr| - 1].kwds + [k])]
  }

  datatype State = State(text: Option<string>, equalsFound: bool, valFound: bool, frames: Frames, lines: nat,
    ended: bool)

  predicate Starts(s: string, word: string) {
    s == word || word + " " <= s
  }

  /** One complete statement. */
  function Statement(st: State, text: string): State {
    var left := FirstWord(text);
    var e := IndexOf('=', left);
    var right := if e < |left| then FirstWord(left[e + 1..]) else "";
    var next := State(None, false, false, st.frames, st.lines, st.ended);
    if Starts(left, "OBJECT") then
      next.(frames := st.frames + [Node(StripUnprintables(StripTrailing(right, ' ')), [], [])])
    else if Starts(left, "END_OBJECT") then next.(frames := Close(st.frames))
    else if Starts(left, "END") then next.(ended := true)
    else
      var name := if left != [] && left[0] == '=' then "" else StripUnprintables(StripTrailing(left[..e], ' '));
      next.(frames := AddKwd(st.frames, Keyword(name, right)))
  }

  /** What is left of a raw line for the parser. */
  function Cleaned(raw: string): string {
    StripTrailing(TabsToBlanks(StripUnprintables(raw)), ' ')
  }

  function AfterEquals(text: string): string {
    var i := IndexOf('=', text);
    if i < |text| then text[i + 1..] else ""
  }

  /** The flags after a line has been appended to the statement, and whether it is complete. */
  function Extend(st: State, line: string): State {
    var text := (if st.text.Some? then st.text.value else "") + line;
    var c := FirstWord(text);
    if c == "END" then st.(ended := true, text := Some(text))
    else if c == "END_OBJECT" then Statement(st, text)
    else
      var eq := st.equalsFound || '=' in text;
      var val := st.valFound || (eq && text != [] && text[|text| - 1] != '=');
      if val && eq && Balanced(AfterEquals(text)) then Statement(st, text)
      else st.(text := Some(text + "\n"), equalsFound := eq, valFound := val)
  }

  function Step(st: State, raw: string): State {
    var st1 := st.(lines := st.lines + 1);
    var s := Cleaned(raw);
    if st1.lines == 1 && "CCSD" <= s then st1
    else
      var line := DropComment(s, 0, false);
      if st1.text.Some? || FirstWord(line) != [] then Extend(st1, line) else st1
  }

  /** fgets: up to 255 characters, through the first newline. */
  function LineEnd(file: string): (n: nat)
    ensures n <= |file| && (file != [] ==> n > 0)
  {
    var i := IndexOf('\n', file);
    if i + 1 < MAXLINE then (if i < |file| then i + 1 else i)
    else MAXLINE - 1
  }

  /** The parser on the rest of a file; it gives up at a line without a newline. */
  function Run(st: State, file: string): State
    decreases |file|
  {
    if st.ended || file == [] then st
    else
      var n := LineEnd(file);
      if '\n' !in file[..n] then st
      else Run(Step(st, file[..n]), file[n..])
  }

  const START := State(None, false, false, [Node("ROOT", [], [])], 0, false)

  /** The tree OdlParseFile builds; an empty file has none. */
  function Parse(file: string): Option<Node> {
    var st := Run(START, file);
    if st.lines == 0 then None else Some(CloseAll(st.frames))
  }

  // ---------- The printer ----------

  function Blanks(level: nat): string {
    if level == 0 then "" else "  " + Blanks(level - 1)
  }

  /** Standard-data-unit keywords are printed without their value. */
  predicate SfduOnly(name: string) {
    "NJPL" <= name || "CCSD" <= name
  }

  function KwdLine(k: Keyword, level: nat): string {
    Blanks(level) + k.name + (if SfduOnly(k.name) then "" else " = " + k.value)
  }

  function PrintKwds(ks: seq<Keyword>, level: nat): string {
    if ks == [] then "" else KwdLine(ks[0], level) + "\n" + PrintKwds(ks[1..], level)
  }

  function PrintNode(n: Node, level: nat): string
    requires level > 0
    decreases n, 1
  {
    Blanks(level - 1) + "OBJECT = " + n.cls + "\n"
    + PrintKwds(n.kwds, level) + PrintNodes(n.kids, level + 1)
    + Blanks(level - 1) + "END_OBJECT = " + n.cls + "\n"
  }

  function PrintNodes(ns: seq<Node>, level: nat): string
    requires level > 0
    decreases ns, 0
  {
    if ns == [] then "" else PrintNode(ns[0], level) + PrintNodes(ns[1..], level)
  }

  /** What OdlPrintLabel writes for a root. */
  function Print(root: Node): string {
    PrintKwds(root.kwds, 0) + PrintNodes(root.kids, 1) + "END\n"
  }

  // ---------- The labels that survive the trip ----------

  predicate IdentChar(c: char) {
    'a' <= c <= 'z' || 'A' <= c <= 'Z' || '0' <= c <= '9' || c == '_' || c == '^'
  }

  predicate Identifier(s: string) {
    s != [] && forall i :: 0 <= i < |s| ==> IdentChar(s[i])
  }

  /** A comment opens at k: the quotes before it on its line are closed. */
  predicate Opens(s: string, k: int) {
    0 <= k && k + 2 <= |s| && s[k] == '/' && s[k + 1] == '*' && CountOf('"', s[..k]) % 2 == 0
  }

  predicate NoComment(s: string) {
    forall k :: 0 <= k < |s| ==> !Opens(s, k)
  }

  predicate LineStarts(v: string, i: int)
    requires 0 <= i <= |v|
  {
    i == 0 || v[i - 1] == '\n'
  }

  predicate LineEnds(v: string, k: int)
    requires 0 <= k <= |v|
  {
    k == |v| || v[k] == '\n'
  }

  /** The lines of v up to k hold a value: one of the texts that ended at a line's end did not end in '='. */
  predicate Begun(v: string, k: int)
    requires 0 <= k <= |v|
  {
    exists j :: 0 < j <= k && LineEnds(v, j) && v[j - 1] != '='
  }

  /** The parser takes the lines of v up to k for the whole value. */
  predicate Settles(v: string, k: int)
    requires 0 <= k <= |v|
  {
    Begun(v, k) && Balanced(v[..k])
  }

  /** A value of one line or more. Its lines have no blanks at their ends and no comments, and its last line is
      the first at which it counts as whole. */
  predicate ValueOk(v: string) {
    && v != [] && Graphic(v[0]) && Graphic(v[|v| - 1])
    && (forall i :: 0 <= i < |v| ==> Printable(v[i]) || v[i] == '\n')
    && (forall i :: 0 <= i < |v| - 1 ==> !(v[i] == ' ' && v[i + 1] == '\n'))
    && (forall i, j :: 0 <= i <= j <= |v| && LineStarts(v, i) && '\n' !in v[i..j] ==> NoComment(v[i..j]))
    && (forall k :: 0 <= k <= |v| && LineEnds(v, k) ==> (Settles(v, k) <==> k == |v|))
  }

  /** The last condition is the parser's: it checks the values of a list one by one, and runs past the end
      of the text at an open quote. */
  predicate KwdOk(k: Keyword) {
    && Identifier(k.name) && !SfduOnly(k.name) && k.name !in ["OBJECT", "END_OBJECT", "END"]
    && ValueOk(k.value) && (k.value[0] in "{(" ==> KwdValues.AllClosed(k.value))
  }

  /** Every line fits fgets's buffer with its newline. */
  predicate LinesFit(s: string) {
    forall i, j :: 0 <= i <= j <= |s| && '\n' !in s[i..j] ==> j - i < MAXLINE - 1
  }

  predicate KwdsOk(ks: seq<Keyword>, level: nat) {
    forall i :: 0 <= i < |ks| ==> KwdOk(ks[i]) && LinesFit(KwdLine(ks[i], level))
  }

  predicate NodeOk(n: Node, level: nat)
    requires level > 0
    decreases n, 1
  {
    && Identifier(n.cls) && |Blanks(level - 1) + "END_OBJECT = " + n.cls| < MAXLINE - 1
    && KwdsOk(n.kwds, level) && NodesOk(n.kids, level + 1)
  }

  predicate NodesOk(ns: seq<Node>, level: nat)
    requires level > 0
    decreases ns, 0
  {
    forall i :: 0 <= i < |ns| ==> NodeOk(ns[i], level)
  }

  // ---------- One line ----------

  predicate AllBlank(b: string) {
    forall i :: 0 <= i < |b| ==> b[i] == ' '
  }

  lemma {:induction false} BlanksAre(level: nat)
    ensures |Blanks(level)| == 2 * level && AllBlank(Blanks(level))
  {
    if level > 0 {
      BlanksAre(level - 1);
    }
  }

  lemma {:induction false} FirstWordSkips(b: string, w: string)
    requires (forall i :: 0 <= i < |b| ==> !Graphic(b[i])) && (w != [] ==> Graphic(w[0]))
    ensures FirstWord(b + w) == w
  {
    if b == [] {
      assert b + w == w;
    } else {
      assert (b + w)[1..] == b[1..] + w;
      FirstWordSkips(b[1..], w);
    }
  }

  lemma {:induction false} IndexSkips(c: char, a: string, b: string)
    requires c !in a
    ensures IndexOf(c, a + [c] + b) == |a|
  {
    if a != [] {
      assert (a + [c] + b)[1..] == a[1..] + [c] + b;
      IndexSkips(c, a[1..], b);
    }
  }

  lemma {:induction false} CountAppend(c: char, a: string, b: string)
    ensures CountOf(c, a + b) == CountOf(c, a) + CountOf(c, b)
  {
    if a == [] {
      assert a + b == b;
    } else {
      assert (a + b)[1..] == a[1..] + b;
      CountAppend(c, a[1..], b);
    }
  }

  /** Trailing blanks of a text are those of its end, if that starts at a character that is none. */
  lemma {:induction false} StripEnd(s: string, i: nat)
    requires i <= |s| && (i == 0 || s[i - 1] != ' ')
    ensures s[..i] + StripTrailing(s[i..], ' ') == StripTrailing(s, ' ')
    decreases |s|
  {
    if i < |s| && s[|s| - 1] == ' ' {
      assert s[..|s| - 1][i..] == s[i..][..|s| - i - 1] && s[..|s| - 1][..i] == s[..i];
      StripEnd(s[..|s| - 1], i);
    } else {
      assert s[..i] + s[i..] == s;
    }
  }

  /** The search from i on, for k the first place from there at which a comment opens, if any. */
  lemma {:induction false} DropFrom(s: string, i: nat, odd: bool, k: nat)
    requires i <= k <= |s| && odd == Odd(s, i) && (i == 0 || s[i - 1] != ' ')
    requires (forall j :: i <= j < k ==> !Opens(s, j)) && (k == |s| || Opens(s, k))
    ensures DropComment(s, i, odd) == if k == |s| then s else StripTrailing(s[..k], ' ')
    decreases |s| - i
  {
    hide CountOf, StripTrailing, Odd;
    var c := CommentAt(s, i);
    OpensIf(s, k);
    if c < |s| {
      OpensIf(s, c);
      QuotesBetween(s, i, c);
      if c == k {
        StripEnd(s[..k], i);
        assert s[..k][i..] == s[i..k] && s[..k][..i] == s[..i];
      } else {
        QuotesAfter(s, c);
        DropFrom(s, c + 1, Odd(s, c), k);
      }
    }
  }

  predicate Odd(s: string, i: nat)
    requires i <= |s|
  {
    CountOf('"', s[..i]) % 2 == 1
  }

  lemma OpensIf(s: string, k: nat)
    ensures Opens(s, k) <==> k + 2 <= |s| && s[k] == '/' && s[k + 1] == '*' && !Odd(s, k)
  {
  }

  lemma QuotesBetween(s: string, i: nat, c: nat)
    requires i <= c <= |s|
    ensures Odd(s, c) == (Odd(s, i) != (CountOf('"', s[i..c]) % 2 == 1))
  {
    assert s[..c] == s[..i] + s[i..c];
    CountAppend('"', s[..i], s[i..c]);
  }

  lemma QuotesAfter(s: string, c: nat)
    requires c < |s| && s[c] != '"'
    ensures Odd(s, c + 1) == Odd(s, c)
  {
    assert s[..c + 1] == s[..c] + [s[c]];
    CountAppend('"', s[..c], [s[c]]);
    CountOther(s[c]);
  }

  lemma CountOther(c: char)
    requires c != '"'
    ensures CountOf('"', [c]) == 0
  {
  }

  /** A line is cut where its first comment opens, and loses the blanks before it; without one it is left alone. */
  lemma CommentDropped(s: string, k: nat)
    requires k <= |s| && (forall j :: 0 <= j < k ==> !Opens(s, j)) && (k == |s| || Opens(s, k))
    ensures DropComment(s, 0, false) == if k == |s| then s else StripTrailing(s[..k], ' ')
  {
    assert s[..0] == [];
    DropFrom(s, 0, false, k);
  }

  /** Only blanks go, and all of them. */
  lemma {:induction false} Stripped(s: string)
    ensures var r := StripTrailing(s, ' ');
            && r <= s && (r != [] ==> r[|r| - 1] != ' ') && AllBlank(s[|r|..])
  {
    if s != [] && s[|s| - 1] == ' ' {
      Stripped(s[..|s| - 1]);
    }
  }

  /** A printable line without a blank end is passed on whole. */
  lemma CleanLine(s: string)
    requires (s == [] || Graphic(s[|s| - 1])) && forall i :: 0 <= i < |s| ==> Printable(s[i])
    ensures Cleaned(s + "\n") == s
  {
    var raw := s + "\n";
    assert raw[..|raw| - 1] == s;
    assert StripUnprintables(s) == s && raw[|raw| - 1] == '\n' && !Printable('\n');
    assert StripUnprintables(raw) == s;
    assert TabsToBlanks(s) == s;
  }

  /** The parser between two statements. */
  function Idle(fr: Frames, lines: nat): State {
    State(None, false, false, fr, lines, false)
  }

  lemma RunLine(st: State, s: string, rest: string)
    requires !st.ended && '\n' !in s && |s| < MAXLINE - 1
    ensures Run(st, s + "\n" + rest) == Run(Step(st, s + "\n"), rest)
  {
    var file := s + "\n" + rest;
    IndexSkips('\n', s, rest);
    assert file[..|s| + 1] == s + "\n" && file[|s| + 1..] == rest;
    assert file[..|s| + 1][|s|] == '\n';
  }

  /** A clean line reaches the statement text unchanged. */
  lemma StepClean(st: State, s: string)
    requires (s == [] || Graphic(s[|s| - 1])) && (forall i :: 0 <= i < |s| ==> Printable(s[i])) && NoComment(s)
    requires (st.lines == 0 ==> !("CCSD" <= s)) && (st.text.Some? || FirstWord(s) != [])
    ensures Step(st, s + "\n") == Extend(st.(lines := st.lines + 1), s)
  {
    hide Extend, FirstWord, CommentAt, Cleaned, Balanced, Graphic, Printable, CountOf, StripTrailing, DropComment;
    CleanLine(s);
    CommentDropped(s, |s|);
  }

  // ---------- A statement ----------

  /** A name and an equals sign with blanks anywhere around them. */
  function Before(b: string, name: string, p: string, q: string): string {
    b + name + p + "=" + q
  }

  predicate Heads(b: string, name: string, p: string, q: string) {
    AllBlank(b) && Identifier(name) && AllBlank(p) && AllBlank(q)
  }

  /** The statement as far as the value's text u. */
  lemma HeadParts(b: string, name: string, p: string, q: string, u: string)
    requires Heads(b, name, p, q) && u != [] && Graphic(u[0])
    ensures var s := Before(b, name, p, q) + u;
            && FirstWord(s) == name + p + "=" + q + u && '=' in s && AfterEquals(s) == q + u
            && Balanced(q + u) == Balanced(u) && FirstWord(q + u) == u
  {
    hide AfterEquals, FirstWord;
    var s := Before(b, name, p, q) + u;
    assert s == b + (name + p + "=" + q + u);
    FirstWordSkips(b, name + p + "=" + q + u);
    FirstWordSkips(q, u);
    FirstWordSkips("", u);
    assert "" + u == u;
    SameBalance(q + u, u);
    assert s == (b + name + p) + ['='] + (q + u);
    EqualsFound(b + name + p, q + u);
  }

  lemma SameBalance(v: string, w: string)
    requires FirstWord(v) == FirstWord(w)
    ensures Balanced(v) == Balanced(w)
  {
  }

  lemma EqualsFound(a: string, c: string)
    requires '=' !in a
    ensures '=' in a + ['='] + c && AfterEquals(a + ['='] + c) == c
  {
    IndexSkips('=', a, c);
    assert (a + ['='] + c)[|a|] == '=' && (a + ['='] + c)[|a| + 1..] == c;
  }

  lemma StripIdentifier(name: string, b: string)
    requires Identifier(name) && AllBlank(b)
    ensures StripUnprintables(StripTrailing(name + b, ' ')) == name
    decreases |b|
  {
    if b != [] {
      assert (name + b)[..|name + b| - 1] == name + b[..|b| - 1];
      StripIdentifier(name, b[..|b| - 1]);
    } else {
      assert name + b == name;
    }
  }

  /** What a statement consists of. */
  lemma StatementParts(name: string, p: string, q: string, value: string)
    requires Heads("", name, p, q) && value != [] && Graphic(value[0])
    ensures var left := name + p + "=" + q + value;
            && left != [] && left[0] != '=' && IndexOf('=', left) == |name + p| && |name + p| < |left|
            && FirstWord(left[|name + p| + 1..]) == value && left[..|name + p|] == name + p
  {
    var left := name + p + "=" + q + value;
    assert left == (name + p) + ['='] + (q + value);
    IndexSkips('=', name + p, q + value);
    assert left[|name + p| + 1..] == q + value && left[0] == name[0];
    FirstWordSkips(q, value);
  }

  lemma NotReserved(name: string, p: string, tail: string, word: string)
    requires Identifier(name) && AllBlank(p) && Identifier(word) && name != word
    ensures !Starts(name + p + "=" + tail, word)
  {
    var left := name + p + "=" + tail;
    assert left[|name|] == ' ' || left[|name|] == '=';
    assert forall i :: 0 <= i < |name| ==> left[i] == name[i];
    assert forall i :: 0 <= i < |word| ==> IdentChar(word[i]) && (word + " ")[i] == word[i];
    assert (word + " ")[|word|] == ' ';
  }

  /** A whole statement about a keyword. */
  lemma KwdStatement(st: State, b: string, k: Keyword, p: string, q: string)
    requires Heads(b, k.name, p, q) && k.name !in ["OBJECT", "END_OBJECT", "END"]
    requires k.value != [] && Graphic(k.value[0]) && !st.ended
    ensures Statement(st, Before(b, k.name, p, q) + k.value) == Idle(AddKwd(st.frames, k), st.lines)
  {
    hide FirstWord, Balanced, IndexOf, Starts, StripTrailing, StripUnprintables, Close;
    HeadParts(b, k.name, p, q, k.value);
    StatementParts(k.name, p, q, k.value);
    StripIdentifier(k.name, p);
    assert k.name + p + "=" + q + k.value == k.name + p + "=" + (q + k.value);
    NotReserved(k.name, p, q + k.value, "OBJECT");
    NotReserved(k.name, p, q + k.value, "END_OBJECT");
    NotReserved(k.name, p, q + k.value, "END");
  }

  /** The parser with the lines of a value up to k, and more to come. */
  function Pending(fr: Frames, lines: nat, head: string, v: string, k: nat): State
    requires k <= |v|
  {
    State(Some(head + v[..k] + "\n"), true, Begun(v, k), fr, lines, false)
  }

  /** The statement with the value's lines up to k: whole at the last one and not before. */
  lemma ExtendValue(st: State, line: string, b: string, k: Keyword, p: string, q: string, i: nat)
    requires Heads(b, k.name, p, q) && KwdOk(k) && !st.ended
    requires 0 < i <= |k.value| && LineEnds(k.value, i) && (Begun(k.value, i) <==> st.valFound || k.value[i - 1] != '=')
    requires (if st.text.Some? then st.text.value else "") + line == Before(b, k.name, p, q) + k.value[..i]
    ensures Extend(st, line) == if i == |k.value| then Idle(AddKwd(st.frames, k), st.lines)
                                else Pending(st.frames, st.lines, Before(b, k.name, p, q), k.value, i)
  {
    hide Statement, FirstWord, Balanced, AfterEquals, Begun, Before;
    var v, head := k.value, Before(b, k.name, p, q);
    var text := head + v[..i];
    HeadParts(b, k.name, p, q, v[..i]);
    assert text[|text| - 1] == v[i - 1];
    NotEnd(k.name, p + "=" + q + v[..i]);
    assert k.name + p + "=" + q + v[..i] == k.name + (p + "=" + q + v[..i]);
    assert Settles(v, i) <==> i == |v|;
    if i == |v| {
      assert v[..i] == v;
      KwdStatement(st, b, k, p, q);
      KwdStatement(st.(equalsFound := true), b, k, p, q);
    }
  }

  lemma NotEnd(name: string, tail: string)
    requires '=' in tail
    ensures name + tail != "END" && name + tail != "END_OBJECT"
  {
    var i :| 0 <= i < |tail| && tail[i] == '=';
    assert (name + tail)[|name| + i] == '=';
  }

  /** A line of a value, up to its newline or the end. */
  lemma ValueLine(v: string, i: nat, j: nat)
    requires ValueOk(v) && i <= j <= |v| && LineStarts(v, i) && '\n' !in v[i..j] && LineEnds(v, j)
    ensures var line := v[i..j];
            && (line == [] || Graphic(line[|line| - 1])) && NoComment(line)
            && forall m :: 0 <= m < |line| ==> Printable(line[m])
  {
    hide NoComment, Begun, Balanced;
    var line := v[i..j];
    forall m | 0 <= m < |line|
      ensures Printable(line[m])
    {
      assert line[m] == v[i + m] && line[m] in line;
    }
  }

  /** The first line holds no comment and no data unit. */
  lemma HeadLine(b: string, name: string, p: string, q: string, u: string)
    requires Heads(b, name, p, q) && !SfduOnly(name) && NoComment(u) && u != [] && Graphic(u[|u| - 1])
    requires forall m :: 0 <= m < |u| ==> Printable(u[m])
    ensures var s := Before(b, name, p, q) + u;
            && s != [] && Graphic(s[|s| - 1]) && (forall i :: 0 <= i < |s| ==> Printable(s[i])) && NoComment(s)
            && !("CCSD" <= s)
  {
    hide CountOf;
    var h := Before(b, name, p, q);
    var s := h + u;
    HeadChars(b, name, p, q);
    NoQuotes(h);
    forall k | 0 <= k < |s|
      ensures !Opens(s, k)
    {
      if k < |h| {
        assert s[k] == h[k];
      } else {
        assert s[..k] == h + u[..k - |h|];
        CountAppend('"', h, u[..k - |h|]);
        assert !Opens(u, k - |h|);
      }
    }
    assert b != [] ==> s[0] == ' ';
    assert b == [] ==> (s[|name|] == ' ' || s[|name|] == '=') && forall i :: 0 <= i < |name| ==> s[i] == name[i];
  }

  lemma HeadChars(b: string, name: string, p: string, q: string)
    requires Heads(b, name, p, q)
    ensures forall c :: c in Before(b, name, p, q) ==> c == ' ' || c == '=' || IdentChar(c)
    ensures b == [] ==> forall i :: 0 <= i < |name| ==> Before(b, name, p, q)[i] == name[i]
    ensures b == [] ==> Before(b, name, p, q)[|name|] in {' ', '='}
  {
  }

  lemma {:induction false} NoQuotes(s: string)
    requires '"' !in s
    ensures CountOf('"', s) == 0
  {
    if s != [] {
      NoQuotes(s[1..]);
    }
  }

  /** The lines of s that start after its first newline. */
  lemma LinesFitMore(s: string, j: nat)
    requires j < |s| && s[j] == '\n' && '\n' !in s[..j]
    ensures LinesFit(s) <==> j < MAXLINE - 1 && LinesFit(s[j + 1..])
  {
    var more := s[j + 1..];
    assert s[0..j] == s[..j];
    assert forall a, c :: 0 <= a <= c <= |more| ==> more[a..c] == s[j + 1 + a..j + 1 + c];
    if j < MAXLINE - 1 && LinesFit(more) {
      forall a, c | 0 <= a <= c <= |s| && '\n' !in s[a..c]
        ensures c - a < MAXLINE - 1
      {
        NotInSlice(s, a, c);
        if a > j {
          assert s[a..c] == more[a - j - 1..c - j - 1];
        }
      }
    }
  }

  lemma NotInSlice(s: string, i: nat, j: nat)
    requires i <= j <= |s| && '\n' !in s[i..j]
    ensures forall m :: i <= m < j ==> s[m] != '\n'
  {
    forall m | i <= m < j
      ensures s[m] != '\n'
    {
      assert s[m] == s[i..j][m - i];
    }
  }

  lemma LinesFitOne(s: string)
    requires '\n' !in s
    ensures LinesFit(s) <==> |s| < MAXLINE - 1
  {
    assert s[0..|s|] == s;
  }

  /** The end of the line that starts at i, and what follows it. */
  lemma NextLine(v: string, i: nat, rest: string) returns (j: nat)
    requires i <= |v|
    ensures i <= j <= |v| && LineEnds(v, j) && '\n' !in v[i..j]
    ensures j == |v| ==> v[i..] == v[i..j] && CountOf('\n', v[i..]) == 0 && (LinesFit(v[i..]) <==> j - i < MAXLINE - 1)
    ensures j < |v| ==>
              && v[i..] + "\n" + rest == v[i..j] + "\n" + (v[j + 1..] + "\n" + rest)
              && CountOf('\n', v[i..]) == 1 + CountOf('\n', v[j + 1..])
              && (LinesFit(v[i..]) <==> j - i < MAXLINE - 1 && LinesFit(v[j + 1..]))
  {
    hide LinesFit, CountOf;
    var u := v[i..];
    var n := IndexOf('\n', u);
    j := i + n;
    assert u[..n] == v[i..j];
    if j == |v| {
      assert u[..n] == u;
      NoneCounted(u);
      LinesFitOne(u);
    } else {
      assert u[n + 1..] == v[j + 1..];
      LineSplit(u, n, v[j + 1..], rest);
    }
  }

  lemma LineSplit(u: string, n: nat, more: string, rest: string)
    requires n < |u| && u[n] == '\n' && '\n' !in u[..n] && more == u[n + 1..]
    ensures u + "\n" + rest == u[..n] + "\n" + (more + "\n" + rest)
    ensures CountOf('\n', u) == 1 + CountOf('\n', more)
    ensures LinesFit(u) <==> n < MAXLINE - 1 && LinesFit(more)
  {
    hide LinesFit, CountOf;
    assert u == u[..n] + (['\n'] + more);
    NoneCounted(u[..n]);
    CountAppend('\n', u[..n], ['\n'] + more);
    OneCounted(more);
    LinesFitMore(u, n);
  }

  lemma {:induction false} NoneCounted(s: string)
    requires '\n' !in s
    ensures CountOf('\n', s) == 0
  {
    if s != [] {
      NoneCounted(s[1..]);
    }
  }

  lemma OneCounted(s: string)
    ensures CountOf('\n', ['\n'] + s) == 1 + CountOf('\n', s)
  {
    assert (['\n'] + s)[1..] == s;
  }

  lemma BegunMore(v: string, i: nat, j: nat)
    requires i < j <= |v| && LineEnds(v, i) && LineEnds(v, j) && '\n' !in v[i + 1..j]
    ensures Begun(v, j) <==> Begun(v, i) || v[j - 1] != '='
  {
    NotInSlice(v, i + 1, j);
    if Begun(v, j) {
      var m :| 0 < m <= j && LineEnds(v, m) && v[m - 1] != '=';
      assert m <= i || m == j;
    }
    if Begun(v, i) {
      var m :| 0 < m <= i && LineEnds(v, m) && v[m - 1] != '=';
      assert 0 < m <= j;
    }
  }

  lemma BegunFirst(v: string, j: nat)
    requires 0 < j <= |v| && LineEnds(v, j) && '\n' !in v[..j]
    ensures Begun(v, j) <==> v[j - 1] != '='
  {
  }

  /** One more line of a value. */
  lemma StepValue(fr: Frames, lines: nat, b: string, k: Keyword, p: string, q: string, i: nat, j: nat)
    requires Heads(b, k.name, p, q) && KwdOk(k) && lines > 0 && i < j <= |k.value|
    requires k.value[i] == '\n' && LineEnds(k.value, j) && '\n' !in k.value[i + 1..j]
    ensures Step(Pending(fr, lines, Before(b, k.name, p, q), k.value, i), k.value[i + 1..j] + "\n")
         == if j == |k.value| then Idle(AddKwd(fr, k), lines + 1)
            else Pending(fr, lines + 1, Before(b, k.name, p, q), k.value, j)
  {
    hide Step, Extend, Begun, Before, NoComment, ValueOk, Balanced;
    var head, v := Before(b, k.name, p, q), k.value;
    ValueLine(v, i + 1, j);
    BegunMore(v, i, j);
    StepClean(Pending(fr, lines, head, v, i), v[i + 1..j]);
    assert v[..j] == v[..i] + "\n" + v[i + 1..j];
    assert head + v[..i] + "\n" + v[i + 1..j] == head + v[..j];
    ExtendValue(Pending(fr, lines + 1, head, v, i), v[i + 1..j], b, k, p, q, j);
  }

  lemma FirstGraphic(v: string, j: nat)
    requires ValueOk(v) && j <= |v| && LineEnds(v, j)
    ensures j > 0 && v[..j] != [] && Graphic(v[..j][0])
  {
  }

  lemma StepFirst(fr: Frames, lines: nat, b: string, k: Keyword, p: string, q: string, j: nat)
    requires Heads(b, k.name, p, q) && KwdOk(k)
    requires j <= |k.value| && LineEnds(k.value, j) && '\n' !in k.value[..j]
    ensures Step(Idle(fr, lines), Before(b, k.name, p, q) + k.value[..j] + "\n")
         == if j == |k.value| then Idle(AddKwd(fr, k), lines + 1)
            else Pending(fr, lines + 1, Before(b, k.name, p, q), k.value, j)
    ensures '\n' !in Before(b, k.name, p, q)
  {
    hide Step, Extend, Begun, Before, NoComment, Balanced, FirstWord, ValueOk, AllBlank, AfterEquals, Identifier,
      SfduOnly, Printable;
    var head, v := Before(b, k.name, p, q), k.value;
    assert v[0..j] == v[..j];
    ValueLine(v, 0, j);
    FirstGraphic(v, j);
    BegunFirst(v, j);
    HeadLine(b, k.name, p, q, v[..j]);
    HeadParts(b, k.name, p, q, v[..j]);
    HeadChars(b, k.name, p, q);
    StepClean(Idle(fr, lines), head + v[..j]);
    assert "" + (head + v[..j]) == head + v[..j];
    ExtendValue(Idle(fr, lines + 1), head + v[..j], b, k, p, q, j);
  }

  /** The rest of a value, from the line after i on, is read through its last line. */
  lemma {:induction false} RunValue(fr: Frames, lines: nat, b: string, k: Keyword, p: string, q: string, i: nat,
                                    rest: string)
    requires Heads(b, k.name, p, q) && KwdOk(k) && lines > 0
    requires i < |k.value| && k.value[i] == '\n' && LinesFit(k.value[i + 1..])
    ensures Run(Pending(fr, lines, Before(b, k.name, p, q), k.value, i), k.value[i + 1..] + "\n" + rest)
         == Run(Idle(AddKwd(fr, k), lines + 1 + CountOf('\n', k.value[i + 1..])), rest)
    decreases |k.value| - i
  {
    hide Run, Step, KwdOk, Before, LinesFit, CountOf, Heads, Begun;
    var head, v := Before(b, k.name, p, q), k.value;
    var j := NextLine(v, i + 1, rest);
    StepValue(fr, lines, b, k, p, q, i, j);
    if j == |v| {
      RunLine(Pending(fr, lines, head, v, i), v[i + 1..j], rest);
    } else {
      RunLine(Pending(fr, lines, head, v, i), v[i + 1..j], v[j + 1..] + "\n" + rest);
      RunValue(fr, lines + 1, b, k, p, q, j, rest);
    }
  }

  /** A keyword is read whatever the blanks before it and around its equals sign, and with a value of several
      lines joined by newlines. */
  lemma RunKwd(fr: Frames, lines: nat, b: string, k: Keyword, p: string, q: string, rest: string)
    requires Heads(b, k.name, p, q) && KwdOk(k) && LinesFit(Before(b, k.name, p, q) + k.value)
    ensures Run(Idle(fr, lines), Before(b, k.name, p, q) + k.value + "\n" + rest)
         == Run(Idle(AddKwd(fr, k), lines + 1 + CountOf('\n', k.value)), rest)
  {
    hide Run, Step, KwdOk, Before, LinesFit, CountOf, Heads, Begun;
    var head, v := Before(b, k.name, p, q), k.value;
    var n := NextLine(head + v, 0, rest);
    var j := NextLine(v, 0, rest);
    StepFirst(fr, lines, b, k, p, q, j);
    SameLine(head, v, n, j);
    if j == |v| {
      RunLine(Idle(fr, lines), head + v[..j], rest);
    } else {
      assert (head + v)[n + 1..] == v[j + 1..];
      RunLine(Idle(fr, lines), head + v[..j], v[j + 1..] + "\n" + rest);
      RunValue(fr, lines + 1, b, k, p, q, j, rest);
    }
  }

  lemma SameLine(head: string, v: string, n: nat, j: nat)
    requires n <= |head + v| && j <= |v| && '\n' !in head && '\n' !in (head + v)[0..n] && '\n' !in v[0..j]
    requires LineEnds(head + v, n) && LineEnds(v, j)
    ensures n == |head| + j && (head + v)[0..n] == head + v[..j] && '\n' !in head + v[..j] && v[0..j] == v[..j]
    ensures v[0..] == v && (head + v)[0..] == head + v
  {
    assert forall m :: 0 <= m < |head| ==> (head + v)[m] == head[m] && head[m] in head;
    assert forall m :: |head| <= m < |head + v| ==> (head + v)[m] == v[m - |head|];
    NotInSlice(v, 0, j);
    NotInSlice(head + v, 0, n);
    assert j < |v| ==> (head + v)[|head| + j] == v[j];
    assert |head| <= n < |head + v| ==> (head + v)[n] == v[n - |head|];
    assert (head + v)[0..|head| + j] == head + v[..j];
  }

  // ---------- Objects ----------

  /** An identifier is a value of one line. */
  lemma AssignedIdentifier(cls: string)
    requires Identifier(cls)
    ensures ValueOk(cls) && '\n' !in cls && Balanced(cls)
  {
    hide CountOf;
    assert forall i :: 0 <= i < |cls| ==> cls[i] != '/' && cls[i] != '\n' && cls[i] != ' ';
    forall i, j | 0 <= i <= j <= |cls|
      ensures NoComment(cls[i..j])
    {
      NoSlash(cls, i, j);
    }
    assert cls[..|cls|] == cls && FirstWord(cls) == cls;
    BegunFirst(cls, |cls|);
  }

  lemma NoSlash(s: string, i: nat, j: nat)
    requires i <= j <= |s| && forall m :: 0 <= m < |s| ==> s[m] != '/'
    ensures NoComment(s[i..j])
  {
  }

  /** A line that opens or closes an object is a whole statement. */
  lemma ObjectLine(fr: Frames, lines: nat, b: string, word: string, p: string, q: string, cls: string)
    requires Heads(b, word, p, q) && Identifier(cls) && word in ["OBJECT", "END_OBJECT"]
    ensures var s := Before(b, word, p, q) + cls;
            '\n' !in s && Step(Idle(fr, lines), s + "\n") == Statement(Idle(fr, lines + 1), s)
  {
    hide Step, Statement, Before, NoComment, Balanced, FirstWord, AfterEquals, Extend, ValueOk, Identifier, AllBlank;
    var s := Before(b, word, p, q) + cls;
    AssignedIdentifier(cls);
    assert cls[0..|cls|] == cls;
    ValueLine(cls, 0, |cls|);
    assert word[0] in {'O', 'E'} && "NJPL"[0] == 'N' && "CCSD"[0] == 'C';
    IdentifierEnds(cls);
    HeadLine(b, word, p, q, cls);
    HeadParts(b, word, p, q, cls);
    HeadChars(b, word, p, q);
    StepClean(Idle(fr, lines), s);
    assert word + p + "=" + q + cls == word + (p + "=" + q + cls);
    NotEnd(word, p + "=" + q + cls);
    assert cls[|cls| - 1] != '=' && s[|s| - 1] == cls[|cls| - 1];
    ExtendComplete(Idle(fr, lines + 1), s);
  }

  lemma IdentifierEnds(cls: string)
    requires Identifier(cls)
    ensures cls != [] && cls[|cls| - 1] != '=' && Graphic(cls[0]) && Graphic(cls[|cls| - 1])
  {
  }

  /** A first line with something after its '=', balanced, is a whole statement. */
  lemma ExtendComplete(st: State, s: string)
    requires st.text.None? && s != [] && s[|s| - 1] != '=' && '=' in s
    requires FirstWord(s) != "END" && FirstWord(s) != "END_OBJECT" && Balanced(AfterEquals(s))
    ensures Extend(st, s) == Statement(st, s)
  {
    hide Statement, FirstWord, Balanced, IndexOf, AfterEquals;
    assert "" + s == s;
  }

  lemma ObjectParts(b: string, word: string, p: string, q: string, cls: string)
    requires Heads(b, word, p, q) && p != "" && Identifier(cls)
    ensures var left := FirstWord(Before(b, word, p, q) + cls);
            Starts(left, word) && forall other :: Identifier(other) && other != word ==> !Starts(left, other)
  {
    hide FirstWord, Starts, Before;
    HeadParts(b, word, p, q, cls);
    assert word + p + "=" + q + cls == word + p + "=" + (q + cls);
    forall other | Identifier(other) && other != word
      ensures !Starts(word + p + "=" + (q + cls), other)
    {
      NotReserved(word, p, q + cls, other);
    }
    StartsReserved(word, p, "=" + (q + cls));
    assert word + p + ("=" + (q + cls)) == word + p + "=" + (q + cls);
  }

  lemma StartsReserved(word: string, p: string, tail: string)
    requires AllBlank(p) && p != ""
    ensures Starts(word + p + tail, word)
  {
    assert word + p + tail == (word + " ") + (p[1..] + tail);
  }

  /** "OBJECT = cls", with any blanks before and after the equals sign, opens an object. */
  lemma ObjStep(fr: Frames, lines: nat, b: string, p: string, q: string, cls: string)
    requires AllBlank(b) && AllBlank(p) && p != "" && AllBlank(q) && Identifier(cls)
    ensures var s := Before(b, "OBJECT", p, q) + cls;
            && '\n' !in s
            && Step(Idle(fr, lines), s + "\n") == Idle(fr + [Node(cls, [], [])], lines + 1)
  {
    hide Step, FirstWord, Before, IndexOf, Starts, StripTrailing, StripUnprintables, Close;
    var word := "OBJECT";
    ObjectLine(fr, lines, b, word, p, q, cls);
    ObjectParts(b, word, p, q, cls);
    HeadParts(b, word, p, q, cls);
    StatementParts(word, p, q, cls);
    StripIdentifier(cls, "");
    assert cls + "" == cls;
  }

  /** "END_OBJECT = cls" closes one. */
  lemma EndObjStep(fr: Frames, lines: nat, b: string, p: string, q: string, cls: string)
    requires AllBlank(b) && AllBlank(p) && p != "" && AllBlank(q) && Identifier(cls)
    ensures var s := Before(b, "END_OBJECT", p, q) + cls;
            && '\n' !in s
            && Step(Idle(fr, lines), s + "\n") == Idle(Close(fr), lines + 1)
  {
    hide Step, FirstWord, Before, IndexOf, Starts, StripTrailing, StripUnprintables, Close;
    var word := "END_OBJECT";
    ObjectLine(fr, lines, b, word, p, q, cls);
    ObjectParts(b, word, p, q, cls);
    assert Identifier("OBJECT");
  }

  /** "END" ends the label. */
  lemma EndStep(fr: Frames, lines: nat)
    ensures var st := Step(Idle(fr, lines), "END\n");
            st.ended && st.frames == fr && st.lines == lines + 1
  {
    hide Statement, Balanced, CommentAt, Close, Step, FirstWord;
    var s := "END";
    FirstWordSkips("", s);
    assert "" + s == s;
    StepClean(Idle(fr, lines), s);
    assert s + "\n" == "END\n";
  }

  /** The printed forms. */
  lemma PrintedHeads(level: nat, name: string, value: string)
    requires Identifier(name)
    ensures Heads(Blanks(level), name, " ", " ")
    ensures Blanks(level) + name + (" = " + value) == Before(Blanks(level), name, " ", " ") + value
  {
    BlanksAre(level);
  }

  // ---------- Whole labels ----------

  const NOKWDS: seq<Keyword> := []
  const NONODES: seq<Node> := []

  /** More keywords and children for the innermost open object. */
  function Added(fr: Frames, ks: seq<Keyword>, ns: seq<Node>): Frames {
    var top := fr[|fr| - 1];
    fr[|fr| - 1 := Node(top.cls, top.kwds + ks, top.kids + ns)]
  }

  function Lines(ns: seq<Node>): nat {
    if ns == [] then 0 else 2 + KwdLines(ns[0].kwds) + Lines(ns[0].kids) + Lines(ns[1..])
  }

  function KwdLines(ks: seq<Keyword>): nat {
    if ks == [] then 0 else 1 + CountOf('\n', ks[0].value) + KwdLines(ks[1..])
  }

  lemma AddedNothing(fr: Frames)
    ensures Added(fr, [], []) == fr
  {
    assert fr[|fr| - 1].kwds + [] == fr[|fr| - 1].kwds && fr[|fr| - 1].kids + [] == fr[|fr| - 1].kids;
  }

  lemma AddedTwice(fr: Frames, ks: seq<Keyword>, ns: seq<Node>, ks': seq<Keyword>, ns': seq<Node>)
    ensures Added(Added(fr, ks, ns), ks', ns') == Added(fr, ks + ks', ns + ns')
  {
    var top := fr[|fr| - 1];
    assert top.kwds + ks + ks' == top.kwds + (ks + ks') && top.kids + ns + ns' == top.kids + (ns + ns');
  }

  lemma {:induction false} RunKwds(fr: Frames, lines: nat, level: nat, ks: seq<Keyword>, rest: string)
    requires KwdsOk(ks, level)
    ensures Run(Idle(fr, lines), PrintKwds(ks, level) + rest)
         == Run(Idle(Added(fr, ks, []), lines + KwdLines(ks)), rest)
    decreases |ks|
  {
    hide Run, KwdOk, LinesFit, Step, Before, Heads, Blanks, KwdLine, CountOf, Added, AddKwd;
    if ks == [] {
      AddedNothing(fr);
      assert PrintKwds(ks, level) + rest == rest;
    } else {
      var k, more := ks[0], PrintKwds(ks[1..], level);
      assert PrintKwds(ks, level) + rest == KwdLine(k, level) + "\n" + (more + rest);
      Printed(k, level);
      RunKwd(fr, lines, Blanks(level), k, " ", " ", more + rest);
      KwdAdded(fr, k);
      AddedTwice(fr, [k], [], ks[1..], []);
      assert [k] + ks[1..] == ks && NONODES + NONODES == NONODES;
      RunKwds(AddKwd(fr, k), lines + 1 + CountOf('\n', k.value), level, ks[1..], rest);
    }
  }

  lemma Printed(k: Keyword, level: nat)
    requires KwdOk(k)
    ensures Heads(Blanks(level), k.name, " ", " ")
    ensures KwdLine(k, level) == Before(Blanks(level), k.name, " ", " ") + k.value
  {
    PrintedHeads(level, k.name, k.value);
  }

  lemma KwdAdded(fr: Frames, k: Keyword)
    ensures AddKwd(fr, k) == Added(fr, [k], [])
  {
    assert fr[|fr| - 1].kids + [] == fr[|fr| - 1].kids;
  }

  /** The end of an object whose keywords and children have been read. */
  lemma CloseAdded(fr: Frames, n: Node)
    ensures Close(Added(Added(fr + [Node(n.cls, [], [])], n.kwds, []), [], n.kids)) == Added(fr, [], [n])
  {
    AddedTwice(fr + [Node(n.cls, [], [])], n.kwds, [], [], n.kids);
    assert n.kwds + [] == n.kwds && [] + n.kids == n.kids;
    var all := Added(fr + [Node(n.cls, [], [])], n.kwds, n.kids);
    assert [] + n.kwds == n.kwds;
    assert all == fr + [n];
    assert all[..|all| - 2] == fr[..|fr| - 1];
    assert fr[|fr| - 1].kwds + [] == fr[|fr| - 1].kwds;
    assert Close(all) == Added(fr, [], [n]);
  }

  /** Reading back the text of one object adds it to the innermost open object. */
  lemma {:induction false} RunNode(fr: Frames, lines: nat, level: nat, n: Node, rest: string)
    requires level > 0 && NodeOk(n, level)
    ensures Run(Idle(fr, lines), PrintNode(n, level) + rest)
         == Run(Idle(Added(fr, [], [n]), lines + 2 + KwdLines(n.kwds) + Lines(n.kids)), rest)
    decreases n, 1
  {
    hide Run, Step, Close, KwdsOk, PrintKwds, PrintNodes, Identifier, Added, Blanks;
    var open, shut := Blanks(level - 1) + "OBJECT = " + n.cls, Blanks(level - 1) + "END_OBJECT = " + n.cls;
    var kwds, kids := PrintKwds(n.kwds, level), PrintNodes(n.kids, level + 1);
    var end := shut + "\n" + rest;
    assert PrintNode(n, level) + rest == open + "\n" + (kwds + (kids + end));
    var fr1: Frames := fr + [Node(n.cls, [], [])];
    var fr2 := Added(fr1, n.kwds, []);
    var fr3 := Added(fr2, [], n.kids);
    BlanksAre(level - 1);
    assert open == Before(Blanks(level - 1), "OBJECT", " ", " ") + n.cls;
    assert shut == Before(Blanks(level - 1), "END_OBJECT", " ", " ") + n.cls;
    ObjStep(fr, lines, Blanks(level - 1), " ", " ", n.cls);
    RunLine(Idle(fr, lines), open, kwds + (kids + end));
    RunKwds(fr1, lines + 1, level, n.kwds, kids + end);
    var read := lines + 1 + KwdLines(n.kwds);
    RunNodes(fr2, read, level + 1, n.kids, end);
    EndObjStep(fr3, read + Lines(n.kids), Blanks(level - 1), " ", " ", n.cls);
    RunLine(Idle(fr3, read + Lines(n.kids)), shut, rest);
    CloseAdded(fr, n);
  }

  lemma {:induction false} RunNodes(fr: Frames, lines: nat, level: nat, ns: seq<Node>, rest: string)
    requires level > 0 && NodesOk(ns, level)
    ensures Run(Idle(fr, lines), PrintNodes(ns, level) + rest)
         == Run(Idle(Added(fr, [], ns), lines + Lines(ns)), rest)
    decreases ns, 0
  {
    hide Run, Step, NodeOk, PrintNode;
    if ns == [] {
      AddedNothing(fr);
      assert PrintNodes(ns, level) + rest == rest;
    } else {
      assert PrintNodes(ns, level) + rest == PrintNode(ns[0], level) + (PrintNodes(ns[1..], level) + rest);
      RunNode(fr, lines, level, ns[0], PrintNodes(ns[1..], level) + rest);
      AddedTwice(fr, [], [ns[0]], [], ns[1..]);
      assert [ns[0]] + ns[1..] == ns && NOKWDS + NOKWDS == NOKWDS;
      RunNodes(Added(fr, [], [ns[0]]), lines + 2 + KwdLines(ns[0].kwds) + Lines(ns[0].kids), level, ns[1..], rest);
    }
  }

  /** A label that can be printed without loss. */
  predicate LabelOk(root: Node) {
    root.cls == "ROOT" && KwdsOk(root.kwds, 0) && NodesOk(root.kids, 1)
  }

  /** Parsing what was printed gives back the label. */
  lemma PrintThenParse(root: Node)
    requires LabelOk(root)
    ensures Parse(Print(root)) == Some(root)
  {
    hide Step, KwdsOk, NodesOk, PrintKwds, PrintNodes, Close, Run, Before, KwdLines, Lines;
    var fr: Frames := [Node("ROOT", [], [])];
    var end := "END\n";
    var lines := KwdLines(root.kwds) + Lines(root.kids);
    RunKwds(fr, 0, 0, root.kwds, PrintNodes(root.kids, 1) + end);
    RunNodes(Added(fr, root.kwds, []), KwdLines(root.kwds), 1, root.kids, end);
    AddedTwice(fr, root.kwds, [], [], root.kids);
    assert root.kwds + [] == root.kwds && [] + root.kids == root.kids;
    assert [] + root.kwds == root.kwds;
    assert Added(fr, root.kwds, root.kids) == [root];
    EndStep([root], lines);
    RunLine(Idle([root], lines), "END", "");
    assert "END" + "\n" == end && end + "" == end;
    RunEnded(Step(Idle([root], lines), end), "");
    var kids := PrintNodes(root.kids, 1);
    assert PrintKwds(root.kwds, 0) + (kids + end) == Print(root);
    assert Run(START, Print(root)) == Step(Idle([root], lines), end);
  }

  lemma RunEnded(st: State, file: string)
    requires st.ended
    ensures Run(st, file) == st
  {
  }

  // ---------- The loops ----------

  /** How many more braces and parentheses s opens than it closes. */
  method NestingLevel(s: string) returns (braces: int, parens: int)
    ensures braces == Nesting(s, '{', '}') && parens == Nesting(s, '(', ')')
  {
    braces, parens := 0, 0;
    for i := 0 to |s|
      invariant braces + Nesting(s[i..], '{', '}') == Nesting(s, '{', '}')
      invariant parens + Nesting(s[i..], '(', ')') == Nesting(s, '(', ')')
    {
      assert s[i..][1..] == s[i + 1..];
      if s[i] == '{' { braces := braces + 1; }
      if s[i] == '}' { braces := braces - 1; }
      if s[i] == '(' { parens := parens + 1; }
      if s[i] == ')' { parens := parens - 1; }
    }
  }

  /** Balance of the text after the first '=': the lists' braces and parentheses, or the quotes. */
  method CheckBalance(text: string) returns (balanced: bool)
    requires '=' in text
    ensures balanced <==> Balanced(AfterEquals(text))
  {
    hide Nesting, CountOf, FirstWord;
    var c := FirstWord(text[IndexOf('=', text) + 1..]);
    var braces, parens, quotes := 0, 0, false;
    if c != [] && (c[0] == '(' || c[0] == '{') {
      braces, parens := NestingLevel(c);
    } else if c != [] && c[0] == '"' {
      quotes := PassQuotes(c, false);
    }
    balanced := braces + parens == 0 && !quotes;
  }

  /** Whether an odd number of quotes has been seen after s, given whether it was odd before. */
  method PassQuotes(s: string, before: bool) returns (odd: bool)
    ensures odd == (before != (CountOf('"', s) % 2 == 1))
  {
    odd := before;
    for i := 0 to |s|
      invariant (odd != (CountOf('"', s[i..]) % 2 == 1)) == (before != (CountOf('"', s) % 2 == 1))
    {
      assert s[i..][1..] == s[i + 1..];
      if s[i] == '"' { odd := !odd; }
    }
  }

  /** Cut a line at the first comment opener that is not inside quotes. */
  method CutComment(line: string) returns (text: string)
    ensures text == DropComment(line, 0, false)
  {
    hide CountOf, StripTrailing, CommentAt;
    text := line;
    var from, odd := 0, false;
    var c := CommentAt(line, 0);
    while c < |line|
      invariant from <= |line| && c == CommentAt(line, from) && text == line
      invariant DropComment(line, 0, false) == DropComment(line, from, odd)
      decreases |line| - from
    {
      odd := PassQuotes(line[from..c], odd);
      if !odd {
        return line[..from] + StripTrailing(line[from..c], ' ');
      }
      from := c + 1;
      c := CommentAt(line, from);
    }
  }

  /** Once an '=' has been found, the statement text holds one. */
  predicate Coherent(st: State) {
    st.equalsFound ==> st.text.Some? && '=' in st.text.value
  }

  /** The statement grows by a line, and is carried out if that completes it. */
  method ExtendStatement(st: State, line: string) returns (next: State)
    requires Coherent(st)
    ensures next == Extend(st, line) && Coherent(next)
  {
    hide Balanced, FirstWord, AfterEquals, StripTrailing, StripUnprintables, Close, IndexOf, Starts;
    var text := (if st.text.Some? then st.text.value else "") + line;
    next := st;
    var c := FirstWord(text);
    if c == "END" {
      return st.(text := Some(text), ended := true);
    }
    var balanced := c == "END_OBJECT";
    if !balanced {
      var equalsFound, valFound := st.equalsFound, st.valFound;
      if !equalsFound { equalsFound := '=' in text; }
      if !valFound && equalsFound { valFound := text != [] && text[|text| - 1] != '='; }
      if valFound && equalsFound { balanced := CheckBalance(text); }
      next := st.(equalsFound := equalsFound, valFound := valFound);
    }
    next := if balanced then Statement(st, text) else next.(text := Some(text + "\n"));
  }

  /** One line of the label. */
  method ParseLine(st: State, raw: string) returns (next: State)
    requires Coherent(st)
    ensures next == Step(st, raw) && Coherent(next)
  {
    hide Cleaned, DropComment, FirstWord, Extend;
    next := st.(lines := st.lines + 1);
    var intext := Cleaned(raw);
    if next.lines == 1 && "CCSD" <= intext { return; }
    intext := CutComment(intext);
    if next.text.Some? || FirstWord(intext) != [] {
      next := ExtendStatement(next, intext);
    }
  }

  /** The parser: lines are read until the label ends, the file ends or a line does not fit. */
  method ParseFile(file: string) returns (root: Option<Node>)
    ensures root == Parse(file)
  {
    hide Step, LineEnd;
    var st := START;
    var rest := file;
    while !st.ended && rest != []
      invariant Coherent(st) && Run(st, rest) == Run(START, file)
      decreases |rest|
    {
      var intext := rest[..LineEnd(rest)];
      if '\n' !in intext { break; }
      rest := rest[|intext|..];
      st := ParseLine(st, intext);
    }
    root := if st.lines == 0 then None else Some(CloseAll(st.frames));
  }

  method PrintKeywords(ks: seq<Keyword>, level: nat) returns (text: string)
    ensures text == PrintKwds(ks, level)
  {
    hide KwdLine;
    text := "";
    assert ks[0..] == ks;
    for i := 0 to |ks|
      invariant text + PrintKwds(ks[i..], level) == PrintKwds(ks, level)
    {
      assert ks[i..][1..] == ks[i + 1..];
      text := text + KwdLine(ks[i], level) + "\n";
    }
  }

  /** What is printed of an object: down to the root level only the first of its children. */
  function FirstsOnly(n: Node, level: nat, rootLevel: nat): Node
    decreases n
  {
    if level >= rootLevel || n.kids == [] then n
    else n.(kids := [FirstsOnly(n.kids[0], level + 1, rootLevel)])
  }

  /** An object, its first child with the siblings after it, and then the object's own right siblings
      if it lies below the root level. */
  method PrintLabel(objs: seq<Node>, level: nat, rootLevel: nat) returns (text: string)
    ensures objs == [] ==> text == ""
    ensures objs != [] && level == 0 ==> text == Print(FirstsOnly(objs[0], 0, rootLevel))
    ensures objs != [] && 0 < level <= rootLevel ==> text == PrintNode(FirstsOnly(objs[0], level, rootLevel), level)
    ensures level > rootLevel ==> text == PrintNodes(objs, level)
    decreases objs
  {
    hide Print, PrintNode, PrintNodes, PrintKwds, FirstsOnly, Enclosed, Blanks;
    NothingPrinted(level);
    if objs == [] { return ""; }
    var obj := objs[0];
    var kwds := PrintKeywords(obj.kwds, level);
    var kids := PrintLabel(obj.kids, level + 1, rootLevel);
    FirstsPrinted(obj, level, rootLevel, kids);
    EnclosedIs(FirstsOnly(obj, level, rootLevel), level, kids);
    text := Enclosed(obj.cls, level, kwds + kids);
    if level > rootLevel {
      var right := PrintLabel(objs[1..], level, rootLevel);
      RightPrinted(objs, level, rootLevel);
      text := text + right;
    }
    if level == 0 { text := text + "END\n"; }
  }

  /** The lines of an object around its keywords and children; a root has none. */
  function Enclosed(cls: string, level: nat, inner: string): string {
    if level == 0 then inner
    else
      Blanks(level - 1) + "OBJECT = " + cls + "\n" + inner + Blanks(level - 1) + "END_OBJECT = " + cls + "\n"
  }

  lemma EnclosedIs(n: Node, level: nat, kids: string)
    requires kids == PrintNodes(n.kids, level + 1)
    ensures var text := Enclosed(n.cls, level, PrintKwds(n.kwds, level) + kids);
            if level == 0 then text + "END\n" == Print(n) else text == PrintNode(n, level)
  {
    hide PrintKwds, PrintNodes, Blanks;
    if level > 0 {
      var open := Blanks(level - 1) + "OBJECT = " + n.cls + "\n";
      var shut := Blanks(level - 1) + "END_OBJECT = " + n.cls + "\n";
      assert open + (PrintKwds(n.kwds, level) + kids) + shut == open + PrintKwds(n.kwds, level) + kids + shut;
    }
  }

  lemma NothingPrinted(level: nat)
    ensures level > 0 ==> PrintNodes([], level) == ""
  {
  }

  lemma RightPrinted(objs: seq<Node>, level: nat, rootLevel: nat)
    requires objs != [] && level > rootLevel
    ensures FirstsOnly(objs[0], level, rootLevel) == objs[0]
    ensures PrintNodes(objs, level) == PrintNode(objs[0], level) + PrintNodes(objs[1..], level)
  {
  }

  /** What has been printed for an object's children is their text in FirstsOnly. */
  lemma FirstsPrinted(n: Node, level: nat, rootLevel: nat, kids: string)
    requires n.kids == [] ==> kids == ""
    requires n.kids != [] && level + 1 <= rootLevel ==>
               kids == PrintNode(FirstsOnly(n.kids[0], level + 1, rootLevel), level + 1)
    requires level + 1 > rootLevel ==> kids == PrintNodes(n.kids, level + 1)
    ensures var m := FirstsOnly(n, level, rootLevel);
            m.cls == n.cls && m.kwds == n.kwds && kids == PrintNodes(m.kids, level + 1)
  {
    if level < rootLevel && n.kids != [] {
      var kid := FirstsOnly(n.kids[0], level + 1, rootLevel);
      assert PrintNodes([kid], level + 1) == PrintNode(kid, level + 1) + PrintNodes([kid][1..], level + 1);
    }
  }
}
