/** Labels with lines over the buffer. */
module OdlLongLines {
  import opened Labels
  import opened OdlLabel
  import opened Wildcard

  /** A line that is read whole, with its newline. */
  predicate Fits(line: string) {
    |line| < MAXLINE - 1
  }

  /** Names and values are of the kind that can be read back, whatever the length of the values. The
      printer builds the lines that open and end an object in a buffer of its own, which holds MAXLINE
      characters. */
  predicate NodeShaped(n: Node, level: nat)
    requires level > 0
    decreases n, 1
  {
    && Identifier(n.cls) && |Blanks(level - 1) + "END_OBJECT = " + n.cls| <= MAXLINE
    && KwdsShaped(n.kwds) && NodesShaped(n.kids, level + 1)
  }

  predicate NodesShaped(ns: seq<Node>, level: nat)
    requires level > 0
    decreases ns, 0
  {
    forall i :: 0 <= i < |ns| ==> NodeShaped(ns[i], level)
  }

  predicate KwdsShaped(ks: seq<Keyword>) {
    forall i :: 0 <= i < |ks| ==> KwdOk(ks[i])
  }

  predicate LabelShaped(root: Node) {
    root.cls == "ROOT" && KwdsShaped(root.kwds) && NodesShaped(root.kids, 1)
  }

  /** All lines of n fit, but perhaps the last ones, which only end objects. */
  predicate NodeReadable(n: Node, level: nat)
    requires level > 0
    decreases n, 1
  {
    KwdsOk(n.kwds, level) && NodesReadable(n.kids, level + 1)
  }

  predicate NodesReadable(ns: seq<Node>, level: nat)
    requires level > 0
    decreases ns, 0
  {
    ns == [] || if |ns| == 1 then NodeReadable(ns[0], level) else NodeOk(ns[0], level) && NodesReadable(ns[1..], level)
  }

  /** Every keyword line fits the parser's buffer, and so does every "END_OBJECT =" line that is not among
      the last ones of the label. */
  predicate Readable(root: Node) {
    KwdsOk(root.kwds, 0) && NodesReadable(root.kids, 1)
  }

  // ---------- How much has been read ----------

  /** The objects and keywords in n. */
  function Weight(n: Node): nat
    decreases n, 1
  {
    1 + |n.kwds| + Weights(n.kids)
  }

  function Weights(ns: seq<Node>): nat
    decreases ns, 0
  {
    if ns == [] then 0 else Weight(ns[0]) + Weights(ns[1..])
  }

  lemma {:induction false} WeightsAppend(a: seq<Node>, b: seq<Node>)
    ensures Weights(a + b) == Weights(a) + Weights(b)
    decreases |a|
  {
    if a == [] {
      assert a + b == b;
    } else {
      assert (a + b)[1..] == a[1..] + b;
      WeightsAppend(a[1..], b);
    }
  }

  lemma WeightsOne(n: Node)
    ensures Weights([n]) == Weight(n)
  {
    assert [n][1..] == [];
  }

  lemma WeightsAdded(fr: Frames, ks: seq<Keyword>, ns: seq<Node>)
    ensures Weights(Added(fr, ks, ns)) == Weights(fr) + |ks| + Weights(ns)
  {
    var top, below := fr[|fr| - 1], fr[..|fr| - 1];
    var n := Node(top.cls, top.kwds + ks, top.kids + ns);
    assert fr == below + [top] && Added(fr, ks, ns) == below + [n];
    WeightsAppend(below, [top]);
    WeightsAppend(below, [n]);
    WeightsOne(top);
    WeightsOne(n);
    WeightsAppend(top.kids, ns);
  }

  lemma WeightsClose(fr: Frames)
    ensures Weights(Close(fr)) == Weights(fr)
  {
    if |fr| > 1 {
      var parent, child, below := fr[|fr| - 2], fr[|fr| - 1], fr[..|fr| - 2];
      var grown := parent.(kids := parent.kids + [child]);
      assert fr == below + ([parent] + [child]);
      WeightsAppend(below, [parent] + [child]);
      WeightsAppend([parent], [child]);
      WeightsAppend(below, [grown]);
      WeightsAppend(parent.kids, [child]);
      WeightsOne(parent);
      WeightsOne(child);
      WeightsOne(grown);
    }
  }

  /** Closing the open objects loses nothing. */
  lemma {:induction false} WeightCloseAll(fr: Frames)
    ensures Weight(CloseAll(fr)) == Weights(fr)
    decreases |fr|
  {
    if |fr| == 1 {
      assert fr == [fr[0]];
      WeightsOne(fr[0]);
    } else {
      WeightsClose(fr);
      WeightCloseAll(Close(fr));
    }
  }

  // ---------- Where the parser gives up ----------

  lemma RunLong(st: State, s: string, rest: string)
    requires !st.ended && '\n' !in s && !Fits(s)
    ensures Run(st, s + "\n" + rest) == st
  {
    var file := s + "\n" + rest;
    IndexSkips('\n', s, rest);
    assert LineEnd(file) == MAXLINE - 1;
    assert file[..MAXLINE - 1] == s[..MAXLINE - 1];
  }

  /** In a value of several lines one of which is too long. */
  lemma {:induction false} StopInValue(fr: Frames, lines: nat, b: string, k: Keyword, p: string, q: string, i: nat,
                                       rest: string)
    requires Heads(b, k.name, p, q) && KwdOk(k) && lines > 0
    requires i < |k.value| && k.value[i] == '\n' && !LinesFit(k.value[i + 1..])
    ensures Run(Pending(fr, lines, Before(b, k.name, p, q), k.value, i), k.value[i + 1..] + "\n" + rest).frames == fr
    decreases |k.value| - i
  {
    hide Run, Step, KwdOk, Before, LinesFit, CountOf, Heads, Begun;
    var head, v := Before(b, k.name, p, q), k.value;
    var j := NextLine(v, i + 1, rest);
    if !Fits(v[i + 1..j]) {
      RunLong(Pending(fr, lines, head, v, i), v[i + 1..j], if j < |v| then v[j + 1..] + "\n" + rest else rest);
    } else {
      StepValue(fr, lines, b, k, p, q, i, j);
      RunLine(Pending(fr, lines, head, v, i), v[i + 1..j], v[j + 1..] + "\n" + rest);
      StopInValue(fr, lines + 1, b, k, p, q, j, rest);
    }
  }

  lemma StopInKwd(fr: Frames, lines: nat, b: string, k: Keyword, p: string, q: string, rest: string)
    requires Heads(b, k.name, p, q) && KwdOk(k) && !LinesFit(Before(b, k.name, p, q) + k.value)
    ensures Run(Idle(fr, lines), Before(b, k.name, p, q) + k.value + "\n" + rest).frames == fr
  {
    hide Run, Step, KwdOk, Before, LinesFit, CountOf, Heads, Begun;
    var head, v := Before(b, k.name, p, q), k.value;
    var n := NextLine(head + v, 0, rest);
    var j := NextLine(v, 0, rest);
    StepFirst(fr, lines, b, k, p, q, j);
    SameLine(head, v, n, j);
    if !Fits(head + v[..j]) {
      RunLong(Idle(fr, lines), head + v[..j], if j < |v| then (head + v)[n + 1..] + "\n" + rest else rest);
    } else {
      assert (head + v)[n + 1..] == v[j + 1..];
      RunLine(Idle(fr, lines), head + v[..j], v[j + 1..] + "\n" + rest);
      StopInValue(fr, lines + 1, b, k, p, q, j, rest);
    }
  }

  /** At the first keyword that has a line which is too long. */
  lemma {:induction false} StopInKwds(fr: Frames, lines: nat, level: nat, ks: seq<Keyword>,
                        rest: string) returns (j: nat)
    requires KwdsShaped(ks) && !KwdsOk(ks, level)
    ensures j < |ks| && Run(Idle(fr, lines), PrintKwds(ks, level) + rest).frames == Added(fr, ks[..j], [])
    decreases |ks|
  {
    hide Run, KwdOk, LinesFit, Step, Before, Heads, Blanks, KwdLine, CountOf, Added, AddKwd;
    var k, more := ks[0], PrintKwds(ks[1..], level);
    assert PrintKwds(ks, level) + rest == KwdLine(k, level) + "\n" + (more + rest);
    Printed(k, level);
    if LinesFit(KwdLine(k, level)) {
      RunKwd(fr, lines, Blanks(level), k, " ", " ", more + rest);
      KwdAdded(fr, k);
      j := StopInKwds(AddKwd(fr, k), lines + 1 + CountOf('\n', k.value), level, ks[1..], rest);
      AddedTwice(fr, [k], [], ks[1..][..j], []);
      assert [k] + ks[1..][..j] == ks[..j + 1] && NONODES + NONODES == NONODES;
      j := j + 1;
    } else {
      StopInKwd(fr, lines, Blanks(level), k, " ", " ", more + rest);
      AddedNothing(fr);
      j := 0;
      assert ks[..j] == [];
    }
  }

  /** What has been read when the parser gives up in a text for ns: in effect all of it, if only ends
      of objects are missing, and otherwise less. */
  predicate Stopped(r: State, fr: Frames, lines: nat, ns: seq<Node>, all: bool) {
    if all then CloseAll(r.frames) == CloseAll(Added(fr, [], ns)) && r.lines > lines
    else Weights(r.frames) < Weights(fr) + Weights(ns)
  }

  lemma {:induction false} StopInNode(fr: Frames, lines: nat, level: nat, n: Node, rest: string)
    requires level > 0 && NodeShaped(n, level) && !NodeOk(n, level)
    ensures Stopped(Run(Idle(fr, lines), PrintNode(n, level) + rest), fr, lines, [n], NodeReadable(n, level))
    decreases n, 1
  {
    hide Run, Step, Close, KwdsOk, KwdsShaped, PrintKwds, PrintNodes, Identifier, Added, NodesReadable, Weights, Blanks,
      NodesShaped;
    var open, shut := Blanks(level - 1) + "OBJECT = " + n.cls, Blanks(level - 1) + "END_OBJECT = " + n.cls;
    var kwds, kids := PrintKwds(n.kwds, level), PrintNodes(n.kids, level + 1);
    var end := shut + "\n" + rest;
    assert PrintNode(n, level) + rest == open + "\n" + (kwds + (kids + end));
    var fr1: Frames := fr + [Node(n.cls, [], [])];
    WeightsOne(n);
    NewWeight(fr, n.cls);
    BlanksAre(level - 1);
    assert open == Before(Blanks(level - 1), "OBJECT", " ", " ") + n.cls;
    assert shut == Before(Blanks(level - 1), "END_OBJECT", " ", " ") + n.cls;
    ObjStep(fr, lines, Blanks(level - 1), " ", " ", n.cls);
    assert Fits(open) by {
      assert |shut| == |open| + 4;
    }
    RunLine(Idle(fr, lines), open, kwds + (kids + end));
    if !KwdsOk(n.kwds, level) {
      var j := StopInKwds(fr1, lines + 1, level, n.kwds, kids + end);
      WeightsAdded(fr1, n.kwds[..j], []);
      NoWeight();
      return;
    }
    RunKwds(fr1, lines + 1, level, n.kwds, kids + end);
    var fr2 := Added(fr1, n.kwds, []);
    WeightsAdded(fr1, n.kwds, []);
    NoWeight();
    ClosedNode(fr, n);
    if !NodesOk(n.kids, level + 1) {
      StopInNodes(fr2, lines + 1 + KwdLines(n.kwds), level + 1, n.kids, end);
      return;
    }
    NodesOkReadable(n.kids, level + 1);
    var read := lines + 1 + KwdLines(n.kwds);
    RunNodes(fr2, read, level + 1, n.kids, end);
    var fr3 := Added(fr2, [], n.kids);
    EndObjStep(fr3, read + Lines(n.kids), Blanks(level - 1), " ", " ", n.cls);
    RunLong(Idle(fr3, read + Lines(n.kids)), shut, rest);
  }

  lemma NoWeight()
    ensures Weights([]) == 0
  {
  }

  lemma NewWeight(fr: Frames, cls: string)
    ensures Weights(fr + [Node(cls, [], [])]) == Weights(fr) + 1
  {
    WeightsAppend(fr, [Node(cls, [], [])]);
    WeightsOne(Node(cls, [], []));
  }

  /** An object that is still open is closed in the end. */
  lemma ClosedNode(fr: Frames, n: Node)
    ensures CloseAll(Added(Added(fr + [Node(n.cls, [], [])], n.kwds, []), [], n.kids)) == CloseAll(Added(fr, [], [n]))
  {
    CloseAdded(fr, n);
    hide Close;
  }

  lemma {:induction false} StopInNodes(fr: Frames, lines: nat, level: nat, ns: seq<Node>, rest: string)
    requires level > 0 && NodesShaped(ns, level) && !NodesOk(ns, level)
    ensures Stopped(Run(Idle(fr, lines), PrintNodes(ns, level) + rest), fr, lines, ns, NodesReadable(ns, level))
    decreases ns, 0
  {
    hide Run, Step, NodeOk, PrintNode, NodeShaped, NodeReadable, Added;
    var more := PrintNodes(ns[1..], level);
    assert PrintNodes(ns, level) + rest == PrintNode(ns[0], level) + (more + rest);
    if NodeOk(ns[0], level) {
      RunNode(fr, lines, level, ns[0], more + rest);
      var fr1 := Added(fr, [], [ns[0]]);
      StopInNodes(fr1, lines + 2 + KwdLines(ns[0].kwds) + Lines(ns[0].kids), level, ns[1..], rest);
      AddedTwice(fr, [], [ns[0]], [], ns[1..]);
      assert [ns[0]] + ns[1..] == ns && NOKWDS + NOKWDS == NOKWDS;
      WeightsAdded(fr, [], [ns[0]]);
      WeightsOne(ns[0]);
    } else {
      StopInNode(fr, lines, level, ns[0], more + rest);
      WeightsAdded(fr, [], [ns[0]]);
      WeightsOne(ns[0]);
      var r := Run(Idle(fr, lines), PrintNode(ns[0], level) + (more + rest));
      WeightCloseAll(r.frames);
      WeightCloseAll(Added(fr, [], [ns[0]]));
      if |ns| == 1 {
        assert ns == [ns[0]];
        assert NodesReadable(ns, level) == NodeReadable(ns[0], level);
      } else {
        assert Weights(ns) == Weight(ns[0]) + Weights(ns[1..]) && Weights(ns[1..]) > 0;
        assert Weights(r.frames) <= Weights(fr) + Weight(ns[0]);
      }
    }
  }

  lemma {:induction false} NodesOkReadable(ns: seq<Node>, level: nat)
    requires level > 0 && NodesOk(ns, level)
    ensures NodesReadable(ns, level)
    decreases ns, 0
  {
    if ns != [] {
      NodeOkReadable(ns[0], level);
      NodesOkReadable(ns[1..], level);
    }
  }

  lemma {:induction false} NodeOkReadable(n: Node, level: nat)
    requires level > 0 && NodeOk(n, level)
    ensures NodeReadable(n, level)
    decreases n, 1
  {
    NodesOkReadable(n.kids, level + 1);
  }

  /** A printed label is read back exactly if it is readable. */
  lemma PrintThenParseIff(root: Node)
    requires LabelShaped(root)
    ensures Parse(Print(root)) == Some(root) <==> Readable(root)
  {
    hide KwdsOk, NodesOk, KwdsShaped, NodesShaped, PrintKwds, PrintNodes, Run, NodesReadable, Weights;
    if LabelOk(root) {
      NodesOkReadable(root.kids, 1);
      PrintThenParse(root);
      return;
    }
    var fr: Frames := [Node("ROOT", [], [])];
    var kids, end := PrintNodes(root.kids, 1), "END\n";
    assert PrintKwds(root.kwds, 0) + (kids + end) == Print(root);
    var r := Run(START, Print(root));
    NoWeight();
    NewWeight(fr, "ROOT");
    RootWeight(fr, root);
    WeightCloseAll(r.frames);
    if !KwdsOk(root.kwds, 0) {
      var j := StopInKwds(fr, 0, 0, root.kwds, kids + end);
      WeightsAdded(fr, root.kwds[..j], []);
    } else {
      RunKwds(fr, 0, 0, root.kwds, kids + end);
      var fr1 := Added(fr, root.kwds, []);
      StopInNodes(fr1, KwdLines(root.kwds), 1, root.kids, end);
      WeightsAdded(fr, root.kwds, []);
    }
  }

  lemma RootWeight(fr: Frames, root: Node)
    requires fr == [Node("ROOT", [], [])] && root.cls == "ROOT"
    ensures Weights(fr) == 1 && Weight(root) == 1 + |root.kwds| + Weights(root.kids)
    ensures CloseAll(Added(Added(fr, root.kwds, []), [], root.kids)) == root
  {
    WeightsOne(fr[0]);
    AddedTwice(fr, root.kwds, [], [], root.kids);
    assert root.kwds + [] == root.kwds && [] + root.kids == root.kids && [] + root.kwds == root.kwds;
    assert Added(fr, root.kwds, root.kids) == [root];
  }

  /** A keyword of three hundred letters is printed but not read back. */
  lemma LongValueLost()
    ensures var root := Node("ROOT", [Keyword("A", seq(300, _ => 'b'))], []);
            LabelShaped(root) && Parse(Print(root)) != Some(root)
  {
    var v := seq(300, _ => 'b');
    var k := Keyword("A", v);
    var root := Node("ROOT", [k], []);
    assert |v| == 300 && v[0] == 'b';
    AssignedIdentifier(v);
    assert KwdOk(k);
    var line := KwdLine(k, 0);
    assert line == "A = " + v;
    LinesFitOne(line);
    assert root.kwds[0] == k;
    assert !KwdsOk(root.kwds, 0);
    PrintThenParseIff(root);
  }
}
