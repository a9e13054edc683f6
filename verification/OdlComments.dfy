/** Comments and tabs in a label. */
module OdlComments {
  import opened Labels
  import opened OdlLabel
  import opened Wildcard

  /** A line of printable characters and tabs, in which no comment opens and all quotes close. */
  predicate Plain(line: string) {
    && (forall i :: 0 <= i < |line| ==> Printable(line[i]) || line[i] == '\t')
    && NoComment(line) && CountOf('"', line) % 2 == 0
  }

  /** A comment opens at k, with nothing but blanks and tabs between the line and it. */
  predicate NotedAt(line: string, noted: string, k: int) {
    && |line| <= k && k + 2 <= |noted| && line <= noted
    && (forall i :: |line| <= i < k ==> noted[i] == ' ' || noted[i] == '\t')
    && noted[k] == '/' && noted[k + 1] == '*'
  }

  /** The same line, perhaps with a comment after it. */
  predicate Noted(line: string, noted: string) {
    line == noted || (Plain(line) && exists k :: |line| <= k < |noted| && NotedAt(line, noted, k))
  }

  /** What the parser makes of a plain line. */
  function Trim(line: string): string {
    StripTrailing(TabsToBlanks(line), ' ')
  }

  // ---------- One line ----------

  /** How much of a text is left without its unprintable end, or its blank one: up to a character that stays. */
  lemma {:induction false} UnprintablesOff(s: string, k: nat)
    requires k < |s| && Printable(s[k])
    ensures StripUnprintables(s) <= s && k < |StripUnprintables(s)|
    decreases |s|
  {
    if !Printable(s[|s| - 1]) {
      UnprintablesOff(s[..|s| - 1], k);
    }
  }

  lemma StripsPast(s: string, k: nat)
    requires k < |s| && s[k] != ' '
    ensures StripTrailing(s, ' ') <= s && k < |StripTrailing(s, ' ')|
  {
    hide StripTrailing;
    Stripped(s);
    var n := |StripTrailing(s, ' ')|;
    assert forall m :: n <= m < |s| ==> s[m] == s[n..][m - n];
  }

  /** Blanks put behind a text are stripped again. */
  lemma {:induction false} StripsBlanks(s: string, b: string)
    requires AllBlank(b)
    ensures StripTrailing(s + b, ' ') == StripTrailing(s, ' ')
    decreases |b|
  {
    if b == [] {
      assert s + b == s;
    } else {
      assert (s + b)[..|s + b| - 1] == s + b[..|b| - 1];
      StripsBlanks(s, b[..|b| - 1]);
    }
  }

  lemma {:induction false} TabsQuotes(s: string)
    ensures CountOf('"', TabsToBlanks(s)) == CountOf('"', s)
  {
    if s != [] {
      assert TabsToBlanks(s)[1..] == TabsToBlanks(s[1..]);
      TabsQuotes(s[1..]);
    }
  }

  lemma TabsOpens(s: string, k: nat)
    ensures Opens(TabsToBlanks(s), k) <==> Opens(s, k)
  {
    if k <= |s| {
      assert TabsToBlanks(s)[..k] == TabsToBlanks(s[..k]);
      TabsQuotes(s[..k]);
    }
  }

  /** A prefix that reaches past k has a comment at k exactly if the text has. */
  lemma PrefixOpens(r: string, s: string, k: nat)
    requires r <= s && k + 2 <= |r|
    ensures Opens(r, k) <==> Opens(s, k)
  {
    assert r[..k] == s[..k];
  }

  lemma {:induction false} CleanedPlain(line: string)
    requires forall i :: 0 <= i < |line| ==> Printable(line[i]) || line[i] == '\t'
    ensures StripTrailing(TabsToBlanks(StripUnprintables(line)), ' ') == Trim(line)
    decreases |line|
  {
    if line != [] && !Printable(line[|line| - 1]) {
      var r := line[..|line| - 1];
      CleanedPlain(r);
      assert TabsToBlanks(line) == TabsToBlanks(r) + " ";
      StripsBlanks(TabsToBlanks(r), " ");
    }
  }

  lemma NewlineOff(line: string)
    ensures StripUnprintables(line + "\n") == StripUnprintables(line)
  {
    assert (line + "\n")[..|line + "\n"| - 1] == line;
  }

  /** A plain line is passed on without its trailing blanks and tabs. */
  lemma PlainLine(line: string)
    requires Plain(line)
    ensures Cleaned(line + "\n") == Trim(line) && DropComment(Trim(line), 0, false) == Trim(line)
  {
    hide StripTrailing, StripUnprintables, DropComment, CountOf;
    NewlineOff(line);
    CleanedPlain(line);
    var s := Trim(line);
    Stripped(TabsToBlanks(line));
    forall k | 0 <= k < |s|
      ensures !Opens(s, k)
    {
      TabsOpens(line, k);
      if k + 2 <= |s| {
        PrefixOpens(s, TabsToBlanks(line), k);
      }
    }
    CommentDropped(s, |s|);
  }

  /** With a comment after it the same is left. */
  lemma NotedLine(line: string, noted: string, k: nat)
    requires Plain(line) && NotedAt(line, noted, k)
    ensures var s := Cleaned(noted + "\n");
            && DropComment(s, 0, false) == Trim(line) && |s| >= k + 2 && s[k] == '/'
            && (forall i :: 0 <= i < |line| ==> s[i] == TabsToBlanks(line)[i])
            && (forall i :: |line| <= i < k ==> s[i] == ' ')
  {
    hide StripTrailing, StripUnprintables, DropComment, CountOf;
    NewlineOff(noted);
    UnprintablesOff(noted, k + 1);
    var u := StripUnprintables(noted);
    StripsPast(TabsToBlanks(u), k + 1);
    var s := Cleaned(noted + "\n");
    assert s <= TabsToBlanks(u) && s[k] == '/' && s[k + 1] == '*';
    NoneBefore(line, noted, k, s);
    CommentDropped(s, k);
    assert s[..k] == TabsToBlanks(line) + s[|line|..k];
    StripsBlanks(TabsToBlanks(line), s[|line|..k]);
  }

  lemma NoneBefore(line: string, noted: string, k: nat, s: string)
    requires Plain(line) && NotedAt(line, noted, k) && k + 2 <= |s| <= |noted| && s == TabsToBlanks(noted)[..|s|]
    ensures (forall j :: 0 <= j < k ==> !Opens(s, j)) && Opens(s, k)
  {
    hide CountOf;
    var t := TabsToBlanks(line);
    assert t == s[..|line|] && s[..k] == t + s[|line|..k];
    CountAppend('"', t, s[|line|..k]);
    NoQuotes(s[|line|..k]);
    TabsQuotes(line);
    forall j | 0 <= j < k
      ensures !Opens(s, j)
    {
      TabsOpens(line, j);
      if j + 2 <= |line| {
        PrefixOpens(t, s, j);
      }
    }
  }

  /** A comment after a plain line changes nothing for the parser. */
  lemma StepNoted(st: State, line: string, noted: string)
    requires Noted(line, noted)
    ensures Step(st, line + "\n") == Step(st, noted + "\n")
  {
    hide Cleaned, DropComment, Extend, FirstWord, NoComment, CountOf, Printable;
    if line != noted {
      var k :| |line| <= k < |noted| && NotedAt(line, noted, k);
      PlainLine(line);
      NotedLine(line, noted, k);
      SameStart(line, Cleaned(noted + "\n"), k);
    }
  }

  lemma SameStart(line: string, s: string, k: nat)
    requires |line| <= k < |s| && s[k] == '/'
    requires forall i :: 0 <= i < |line| ==> s[i] == TabsToBlanks(line)[i]
    requires forall i :: |line| <= i < k ==> s[i] == ' '
    ensures "CCSD" <= Trim(line) <==> "CCSD" <= s
  {
    hide StripTrailing;
    var r := Trim(line);
    Stripped(TabsToBlanks(line));
    assert forall i :: |r| <= i < |line| ==> TabsToBlanks(line)[i] == TabsToBlanks(line)[|r|..][i - |r|] == ' ';
    assert "CCSD" <= s ==> s[0] == 'C' && s[1] == 'C' && s[2] == 'S' && s[3] == 'D';
    assert forall i :: 0 <= i < |r| ==> r[i] == s[i];
    assert |r| < 4 ==> s[|r|] == ' ' || s[|r|] == '/';
  }

  /** A carriage return before the newline goes with it. */
  lemma ReturnOff(st: State, line: string)
    ensures Step(st, line + "\r\n") == Step(st, line + "\n")
  {
    hide Extend, DropComment, FirstWord, StripTrailing, TabsToBlanks;
    NewlineOff(line);
    NewlineOff(line + "\r");
    assert line + "\r" + "\n" == line + "\r\n";
    assert (line + "\r")[..|line + "\r"| - 1] == line;
  }

  /** The end of an object needs no class. */
  lemma BareEnd(fr: Frames, lines: nat, b: string)
    requires AllBlank(b)
    ensures Step(Idle(fr, lines), b + "END_OBJECT\n") == Idle(Close(fr), lines + 1)
  {
    hide Step, Close, Balanced, FirstWord, IndexOf, AfterEquals, NoComment;
    var word := "END_OBJECT";
    var s := b + word;
    FirstWordSkips(b, word);
    assert forall i :: 0 <= i < |s| ==> s[i] != '/';
    NoSlash(s, 0, |s|);
    assert s[0..|s|] == s && s + "\n" == b + "END_OBJECT\n";
    assert !("CCSD" <= s) by {
      assert s[0] in {' ', 'E'};
    }
    StepClean(Idle(fr, lines), s);
    assert "" + s == s;
  }

  // ---------- Whole files ----------

  function Text(ls: seq<string>): string {
    if ls == [] then "" else ls[0] + "\n" + Text(ls[1..])
  }

  /** Line by line the same, but for comments; all lines fit the parser's buffer. */
  predicate AllNoted(ls: seq<string>, noted: seq<string>) {
    && |ls| == |noted|
    && forall i :: 0 <= i < |ls| ==> Noted(ls[i], noted[i]) && '\n' !in noted[i] && |noted[i]| < MAXLINE - 1
  }

  lemma {:induction false} RunNoted(st: State, ls: seq<string>, noted: seq<string>)
    requires AllNoted(ls, noted)
    ensures Run(st, Text(ls)) == Run(st, Text(noted))
    decreases |ls|
  {
    hide Run, Step, Noted;
    if ls != [] {
      if st.ended {
        RunEnded(st, Text(ls));
        RunEnded(st, Text(noted));
      } else {
        Shorter(ls[0], noted[0]);
        RunLine(st, ls[0], Text(ls[1..]));
        RunLine(st, noted[0], Text(noted[1..]));
        StepNoted(st, ls[0], noted[0]);
        assert AllNoted(ls[1..], noted[1..]) by {
          assert forall i :: 0 <= i < |ls[1..]| ==> ls[1..][i] == ls[i + 1] && noted[1..][i] == noted[i + 1];
        }
        RunNoted(Step(st, ls[0] + "\n"), ls[1..], noted[1..]);
      }
    }
  }

  lemma Shorter(line: string, noted: string)
    requires Noted(line, noted) && '\n' !in noted
    ensures |line| <= |noted| && '\n' !in line
  {
    hide Plain;
    assert line <= noted && forall c :: c in line ==> c in noted;
  }

  /** Comments behind plain lines do not change what is parsed. */
  lemma CommentsIgnored(ls: seq<string>, noted: seq<string>)
    requires AllNoted(ls, noted)
    ensures Parse(Text(noted)) == Parse(Text(ls))
  {
    RunNoted(START, ls, noted);
  }

  /** A printed label with comments put behind its plain lines is read back as it was. */
  lemma PrintThenParseNoted(root: Node, ls: seq<string>, noted: seq<string>)
    requires LabelOk(root) && Text(ls) == Print(root) && AllNoted(ls, noted)
    ensures Parse(Text(noted)) == Some(root)
  {
    hide Parse, Print, LabelOk, Text;
    CommentsIgnored(ls, noted);
    PrintThenParse(root);
  }

  /** A keyword's line is plain if its quotes close on it. */
  lemma KwdPlain(k: Keyword, level: nat)
    requires KwdOk(k) && '\n' !in k.value && CountOf('"', k.value) % 2 == 0
    ensures Plain(KwdLine(k, level))
  {
    hide CountOf, ValueOk, Before, NoComment;
    var v, h := k.value, Before(Blanks(level), k.name, " ", " ");
    Printed(k, level);
    assert v[0..|v|] == v && v[..|v|] == v;
    ValueLine(v, 0, |v|);
    FirstGraphic(v, |v|);
    assert Graphic(v[|v| - 1]);
    HeadLine(Blanks(level), k.name, " ", " ", v);
    CountAppend('"', h, v);
    HeadChars(Blanks(level), k.name, " ", " ");
    NoQuotes(h);
  }

  /** Between statements a line of blanks and a comment is passed over. */
  lemma NoteOnly(fr: Frames, lines: nat, noted: string, k: nat)
    requires NotedAt("", noted, k)
    ensures Step(Idle(fr, lines), noted + "\n") == Idle(fr, lines + 1)
  {
    hide Cleaned, DropComment, Extend;
    assert Plain("");
    NotedLine("", noted, k);
    SameStart("", Cleaned(noted + "\n"), k);
    assert Trim("") == "";
  }

  /** The comment of "A = 5" goes, and the keyword stays. */
  lemma NoteExample()
    ensures Parse("A = 5 /* note */\nEND\n") == Some(Node("ROOT", [Keyword("A", "5")], []))
  {
    hide Parse, Plain, LinesFit, KwdOk, Print, LabelOk;
    var k := Keyword("A", "5");
    var root, ls, noted := Node("ROOT", [k], []), ["A = 5", "END"], ["A = 5 /* note */", "END"];
    PrintedExample(k);
    assert NotedAt("A = 5", "A = 5 /* note */", 6);
    assert Noted("A = 5", "A = 5 /* note */") && Noted("END", "END");
    TwoLines("A = 5", "END");
    TwoLines("A = 5 /* note */", "END");
    assert "A = 5" + "\n" + "END" + "\n" == "A = 5\nEND\n";
    assert "A = 5 /* note */" + "\n" + "END" + "\n" == "A = 5 /* note */\nEND\n";
    PrintThenParseNoted(root, ls, noted);
  }

  lemma PrintedExample(k: Keyword)
    requires k == Keyword("A", "5")
    ensures var root := Node("ROOT", [k], []); LabelOk(root) && Print(root) == "A = 5\nEND\n" && Plain("A = 5")
  {
    hide LinesFit, Plain, ValueOk, NoComment;
    AssignedIdentifier("5");
    NotSfdu("A");
    assert KwdOk(k);
    assert KwdLine(k, 0) == "A = 5";
    LinesFitOne("A = 5");
    NoQuotes("5");
    KwdPlain(k, 0);
    assert [k][1..] == [];
    assert PrintKwds([k], 0) == "A = 5" + "\n" + "";
  }

  lemma NotSfdu(name: string)
    requires |name| < 4
    ensures !SfduOnly(name)
  {
  }

  lemma TwoLines(a: string, b: string)
    ensures Text([a, b]) == a + "\n" + b + "\n"
  {
    assert [a, b][1..] == [b] && [b][1..] == [];
    assert Text([b]) == b + "\n" + "";
    assert a + "\n" + (b + "\n") == a + "\n" + b + "\n";
  }

  /** Keywords as they are printed: standard-data-unit names alone, and two blanks a level. */
  lemma PrintExample(a: Keyword, b: Keyword)
    requires a == Keyword("CCSD3ZF", "X") && b == Keyword("A", "5")
    ensures PrintKwds([a, b], 0) == "CCSD3ZF\nA = 5\n" && PrintKwds([b], 2) == "    A = 5\n"
  {
    NotSfdu("A");
    OneKwd(b, 0);
    OneKwd(b, 2);
    assert [a, b][1..] == [b];
    assert "CCSD" <= "CCSD3ZF" && Blanks(0) == "";
    assert KwdLine(a, 0) == "CCSD3ZF" && KwdLine(b, 0) == "A = 5";
    BlanksAre(2);
    assert Blanks(2) == "    ";
    assert KwdLine(b, 2) == "    A = 5";
  }

  lemma OneKwd(k: Keyword, level: nat)
    ensures PrintKwds([k], level) == KwdLine(k, level) + "\n"
  {
    assert [k][1..] == [];
  }
}
