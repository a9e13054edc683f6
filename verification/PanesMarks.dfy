/** What marks that outlive a hold lead to in the Panes game. */
module PanesMarks {
  import opened Panes

  /** The cells of a jump from (i, j) in direction n. */
  function Over(i: int, j: int, n: nat): (int, int) {
    (i + DirX(n), j + DirY(n))
  }

  function Onto(i: int, j: int, n: nat): (int, int) {
    (i + 2 * DirX(n), j + 2 * DirY(n))
  }

  lemma JumpOnBoard(b: seq<int>, i: int, j: int, n: nat)
    requires IsBoard(b) && OnBoard(i, j) && CanJump(b, i, j, DirX(n), DirY(n))
    ensures OnBoard(Over(i, j, n).0, Over(i, j, n).1) && OnBoard(Onto(i, j, n).0, Onto(i, j, n).1)
    ensures Onto(i, j, n) != (i, j)
  {
  }

  /** Taking hold of a pane marks every cell it may jump onto, and counts it. */
  lemma {:induction false} TargetMarked(b: seq<int>, i: int, j: int, n: nat, m: nat)
    requires IsBoard(b) && OnBoard(i, j) && n < m <= 9 && CanJump(b, i, j, DirX(n), DirY(n))
    ensures OnBoard(Onto(i, j, n).0, Onto(i, j, n).1)
    ensures var (c, count) := Targets(b, i, j, m);
            count > 0 && c[Idx(Onto(i, j, n).0, Onto(i, j, n).1)] >= 7
    decreases m
  {
    hide CanJump, Idx, IsBoard, SetAt;
    JumpOnBoard(b, i, j, n);
    var c := Targets(b, i, j, m - 1).0;
    if n == m - 1 {
      TargetsKeepColours(b, i, j, m - 1);
      SameColoursSameJumps(b, c, i, j, DirX(n), DirY(n));
      MarkedOnce(c, Onto(i, j, n).0, Onto(i, j, n).1);
    } else {
      TargetMarked(b, i, j, n, m - 1);
      StaysMarked(c, Onto(i, j, m - 1).0, Onto(i, j, m - 1).1, Onto(i, j, n).0, Onto(i, j, n).1);
    }
  }

  lemma MarkedOnce(b: seq<int>, i: int, j: int)
    requires IsBoard(b) && OnBoard(i, j)
    ensures SetAt(b, i, j)[Idx(i, j)] >= 7
  {
  }

  lemma StaysMarked(b: seq<int>, x: int, y: int, i: int, j: int)
    requires IsBoard(b) && OnBoard(i, j) && b[Idx(i, j)] >= 7
    ensures SetAt(b, x, y)[Idx(i, j)] >= 7
  {
    if OnBoard(x, y) && (x != i || y != j) {
      IdxUnique(x, y, i, j);
    }
  }

  /** A cell that does not read as empty and may jump does so in two clicks. */
  lemma TwoClicks(g: Game, i: int, j: int, n: nat)
    requires Inv(g) && !g.pushed && OnBoard(i, j) && g.b[Idx(i, j)] != 0
    requires n < 9 && CanJump(g.b, i, j, DirX(n), DirY(n))
    ensures var h, to := Click(g, i, j), Onto(i, j, n);
            && Inv(h) && h.cx == i && h.cy == j && Colours(h.b) == Colours(g.b)
            && OnBoard(to.0, to.1) && Jumps(h, to.0, to.1)
  {
    hide SetAt, Targets, EntryOk, Idx, IsBoard, CanJump;
    var h, to := Pick(g, i, j), Onto(i, j, n);
    JumpOnBoard(g.b, i, j, n);
    TargetMarked(g.b, i, j, n, 9);
    PickKeeps(g, i, j);
    var c := Targets(g.b, i, j, 9).0;
    SetIs(c, i, j, to.0, to.1);
    SetIs(SetAt(c, i, j), i, j, to.0, to.1);
    SameColoursSameJumps(g.b, h.b, i, j, DirX(n), DirY(n));
    LandsBy(h, n);
  }

  lemma LandsBy(g: Game, n: nat)
    requires Inv(g) && n < 9 && CanJump(g.b, g.cx, g.cy, DirX(n), DirY(n))
    ensures var to := Onto(g.cx, g.cy, n);
            OnBoard(to.0, to.1) && (g.b[Idx(to.0, to.1)] >= 7 ==> Lands(g, to.0, to.1))
  {
    var x, y := DirX(n), DirY(n);
    JumpOnBoard(g.b, g.cx, g.cy, n);
    assert (2 * x) / 2 == x && (2 * y) / 2 == y;
    assert (g.cx + 2 * x + g.cx) % 2 == 0 && (g.cy + 2 * y + g.cy) % 2 == 0;
  }

  /** The colours after a jump. */
  function AfterJump(c: seq<int>, i: int, j: int, n: nat): seq<int>
    requires |c| == CELLS && OnBoard(i, j)
    requires OnBoard(Over(i, j, n).0, Over(i, j, n).1) && OnBoard(Onto(i, j, n).0, Onto(i, j, n).1)
  {
    var from, mid, to := Idx(i, j), Idx(Over(i, j, n).0, Over(i, j, n).1), Idx(Onto(i, j, n).0, Onto(i, j, n).1);
    c[to := LandColour(c[from], c[to])][mid := NextColour(c[from], c[mid])][from := 0]
  }

  lemma LandedColours(h: Game, n: nat, x: int, y: int)
    requires Inv(h) && (x, y) == Onto(h.cx, h.cy, n) && OnBoard(x, y) && Jumps(h, x, y)
    ensures OnBoard(h.cx, h.cy) && OnBoard(Over(h.cx, h.cy, n).0, Over(h.cx, h.cy, n).1)
    ensures var g := Click(h, x, y);
            Inv(g) && !g.pushed && Colours(g.b) == AfterJump(Colours(h.b), h.cx, h.cy, n)
  {
    BoardOf(h);
    var mid := Over(h.cx, h.cy, n);
    assert (x + h.cx) / 2 == mid.0 && (y + h.cy) / 2 == mid.1;
    hide Inv, CanJump, Lands, NextColour, LandColour, Idx, Next, Land, IsBoard, Colours;
    JumpCells(h, x, y);
    JumpKeeps(h, x, y);
    JumpedBoard(h, x, y);
    ReducedUpdates(h.b, Idx(x, y), Idx(mid.0, mid.1), Idx(h.cx, h.cy));
    hide Jumped, Unmarked;
  }

  lemma JumpedColours(g: Game, i: int, j: int, n: nat)
    requires Inv(g) && !g.pushed && OnBoard(i, j) && g.b[Idx(i, j)] != 0
    requires n < 9 && CanJump(g.b, i, j, DirX(n), DirY(n))
    ensures OnBoard(Over(i, j, n).0, Over(i, j, n).1) && OnBoard(Onto(i, j, n).0, Onto(i, j, n).1)
    ensures Inv(Click(g, i, j))
    ensures var h := Click(Click(g, i, j), Onto(i, j, n).0, Onto(i, j, n).1);
            Inv(h) && !h.pushed && Colours(h.b) == AfterJump(Colours(g.b), i, j, n)
  {
    BoardOf(g);
    hide Inv, CanJump, Jumps, Click, AfterJump, Idx, IsBoard, Colours;
    JumpOnBoard(g.b, i, j, n);
    TwoClicks(g, i, j, n);
    LandedColours(Click(g, i, j), n, Onto(i, j, n).0, Onto(i, j, n).1);
  }

  lemma ReducedUpdates(b: seq<int>, to: nat, mid: nat, from: nat)
    requires IsBoard(b) && to < CELLS && mid < CELLS && from < CELLS
    requires NextColour(b[from] % 7, b[mid] % 7) >= 0 && LandColour(b[from] % 7, b[to] % 7) >= 0
    ensures var c := Colours(b);
            Colours(b[to := LandColour(b[from] % 7, b[to] % 7)][mid := NextColour(b[from] % 7, b[mid] % 7)][from := 0])
            == c[to := LandColour(c[from], c[to])][mid := NextColour(c[from], c[mid])][from := 0]
  {
    JumpCosts(b[from] % 7, b[mid] % 7, b[to] % 7);
  }

  lemma JumpByColours(g: Game, i: int, j: int, n: nat)
    requires Inv(g) && OnBoard(i, j) && (DirX(n) != 0 || DirY(n) != 0)
    requires OnBoard(Over(i, j, n).0, Over(i, j, n).1) && OnBoard(Onto(i, j, n).0, Onto(i, j, n).1)
    requires var c := Colours(g.b);
             && NextColour(c[Idx(i, j)], c[Idx(Over(i, j, n).0, Over(i, j, n).1)]) != -1
             && LandColour(c[Idx(i, j)], c[Idx(Onto(i, j, n).0, Onto(i, j, n).1)]) != -1
    ensures IsBoard(g.b) && CanJump(g.b, i, j, DirX(n), DirY(n))
    ensures Colours(g.b)[Idx(i, j)] != 0 ==> g.b[Idx(i, j)] != 0
  {
    hide NextColour, LandColour, Idx;
    BoardOf(g);
  }

  lemma {:induction false} RunMore(g: Game, es: seq<Event>, e: Event)
    requires Inv(g) && AllLegal(es) && Legal(e)
    ensures AllLegal(es + [e]) && Run(g, es + [e]) == Step(Run(g, es), e)
    decreases |es|
  {
    hide Inv, Step;
    var more := es + [e];
    if es == [] {
      assert more[0] == e && more[1..] == [];
      StepKeeps(g, e);
      assert Run(Step(g, e), []) == Step(g, e);
    } else {
      assert more[0] == es[0] && more[1..] == es[1..] + [e];
      StepKeeps(g, es[0]);
      RunMore(Step(g, es[0]), es[1..], e);
    }
  }

  /** A jump played as two clicks. */
  lemma Played(g: Game, es: seq<Event>, i: int, j: int, n: nat) returns (fs: seq<Event>)
    requires Inv(g) && AllLegal(es) && OnBoard(i, j) && n < 9 && (DirX(n) != 0 || DirY(n) != 0)
    requires OnBoard(Over(i, j, n).0, Over(i, j, n).1) && OnBoard(Onto(i, j, n).0, Onto(i, j, n).1)
    requires !Run(g, es).pushed
    requires var c := Colours(Run(g, es).b);
             && c[Idx(i, j)] != 0
             && NextColour(c[Idx(i, j)], c[Idx(Over(i, j, n).0, Over(i, j, n).1)]) != -1
             && LandColour(c[Idx(i, j)], c[Idx(Onto(i, j, n).0, Onto(i, j, n).1)]) != -1
    ensures AllLegal(fs) && !Run(g, fs).pushed
    ensures Colours(Run(g, fs).b) == AfterJump(Colours(Run(g, es).b), i, j, n)
  {
    hide Inv, Run, Click, CanJump, NextColour, LandColour, AfterJump, Colours, Idx;
    var h := Run(g, es);
    JumpByColours(h, i, j, n);
    JumpedColours(h, i, j, n);
    RunMore(g, es, ClickAt(i, j));
    RunMore(g, es + [ClickAt(i, j)], ClickAt(Onto(i, j, n).0, Onto(i, j, n).1));
    fs := es + [ClickAt(i, j)] + [ClickAt(Onto(i, j, n).0, Onto(i, j, n).1)];
  }

  /** A jump played and taken back leaves the colours, and a mark where it landed. */
  lemma PlayedBack(g: Game, es: seq<Event>, i: int, j: int, n: nat) returns (fs: seq<Event>)
    requires Inv(g) && AllLegal(es) && OnBoard(i, j) && n < 9 && (DirX(n) != 0 || DirY(n) != 0)
    requires OnBoard(Over(i, j, n).0, Over(i, j, n).1) && OnBoard(Onto(i, j, n).0, Onto(i, j, n).1)
    requires !Run(g, es).pushed
    requires var c := Colours(Run(g, es).b);
             && c[Idx(i, j)] != 0
             && NextColour(c[Idx(i, j)], c[Idx(Over(i, j, n).0, Over(i, j, n).1)]) != -1
             && LandColour(c[Idx(i, j)], c[Idx(Onto(i, j, n).0, Onto(i, j, n).1)]) != -1
    ensures AllLegal(fs) && !Run(g, fs).pushed && Colours(Run(g, fs).b) == Colours(Run(g, es).b)
    ensures IsBoard(Run(g, fs).b) && Run(g, fs).b[Idx(Onto(i, j, n).0, Onto(i, j, n).1)] >= 7
  {
    var h, x, y := Run(g, es), Onto(i, j, n).0, Onto(i, j, n).1;
    BoardOf(h);
    hide Inv, Run, Click, CanJump, NextColour, LandColour, Colours, Idx, Jumps, Undo, Recoloured, Clean, IsBoard;
    JumpByColours(h, i, j, n);
    TwoClicks(h, i, j, n);
    var k := Click(h, i, j);
    UndoLeavesMarks(k, x, y);
    JumpTakenBack(k, x, y);
    UndoKeeps(Click(k, x, y));
    BoardOf(Undo(Click(k, x, y)));
    RunMore(g, es, ClickAt(i, j));
    RunMore(g, es + [ClickAt(i, j)], ClickAt(x, y));
    RunMore(g, es + [ClickAt(i, j)] + [ClickAt(x, y)], TakeBack);
    fs := es + [ClickAt(i, j)] + [ClickAt(x, y)] + [TakeBack];
  }

  /** Two jumps along a row of reds empty four cells. */
  lemma EmptiedRow(ones: seq<int>)
    requires |ones| == CELLS && forall k :: 0 <= k < CELLS ==> ones[k] == 1
    ensures ones[Idx(0, 0)] == ones[Idx(1, 0)] == ones[Idx(2, 0)] == 1
    ensures var c := AfterJump(ones, 0, 0, 7);
            && |c| == CELLS && c[Idx(2, 0)] == c[Idx(3, 0)] == c[Idx(4, 0)] == 1
            && var d := AfterJump(c, 2, 0, 7);
            && |d| == CELLS && d[Idx(0, 0)] == d[Idx(1, 0)] == d[Idx(2, 0)] == 0 && d[Idx(0, 1)] == d[Idx(0, 2)] == 1
  {
  }

  /** A marked cell that is empty, as are the two beside it, jumps at no cost. */
  lemma FreeClick(h: Game)
    requires Inv(h) && !h.pushed && IsBoard(h.b) && h.b[Idx(0, 0)] != 0
    requires Colours(h.b)[Idx(0, 0)] == Colours(h.b)[Idx(1, 0)] == Colours(h.b)[Idx(2, 0)] == 0
    ensures var k := Click(h, 0, 0);
            && Inv(k) && Jumps(k, 2, 0) && IsBoard(k.b) && k.cx == k.cy == 0 && k.b[Idx(0, 0)] % 7 == 0
            && Colours(Click(k, 2, 0).b) == Colours(k.b) && Click(k, 2, 0).moves == k.moves + 1
  {
    hide Inv, Click, CanJump, Jumps, Total, Idx;
    JumpByColours(h, 0, 0, 7);
    TwoClicks(h, 0, 0, 7);
    var k := Click(h, 0, 0);
    BoardOf(k);
    SameColour(h.b, k.b, 0, 0);
    JumpLowersTotal(k, 2, 0);
    ClickKeeps(k, 2, 0);
  }

  /** A new board of reds. */
  lemma Reds() returns (g: Game)
    ensures |g.b| == CELLS && (forall k :: 0 <= k < CELLS ==> g.b[k] == 1)
    ensures g == Game(g.b, 0, 0, false, 0, []) && Inv(g) && Run(g, []) == g && Colours(g.b) == g.b
  {
    var ones := seq(CELLS, _ => 1);
    g := Game(ones, 0, 0, false, 0, []);
    NewGame(ones);
  }

  /** Play on it until (0, 0), which is empty as are the two cells beside it, bears a mark. */
  lemma MarkedEmpty(g: Game) returns (es: seq<Event>)
    requires |g.b| == CELLS && (forall k :: 0 <= k < CELLS ==> g.b[k] == 1)
    requires !g.pushed && Inv(g) && Run(g, []) == g && Colours(g.b) == g.b
    ensures AllLegal(es)
    ensures var h := Run(g, es);
            && !h.pushed && IsBoard(h.b) && h.b[Idx(0, 0)] >= 7
            && Colours(h.b)[Idx(0, 0)] == Colours(h.b)[Idx(1, 0)] == Colours(h.b)[Idx(2, 0)] == 0
  {
    EmptiedRow(g.b);
    assert NextColour(1, 1) == 0 && LandColour(1, 1) == LandColour(1, 0) == 1;
    hide Inv, Run, AfterJump, Idx, Colours, NextColour, LandColour, IsBoard;
    var rowEmpty := Played(g, [], 0, 0, 7);
    var rowEmptier := Played(g, rowEmpty, 2, 0, 7);
    es := PlayedBack(g, rowEmptier, 0, 2, 3);
  }

  /** An emptied cell that bears a mark may jump, and its jump costs nothing: the colours stay and the
      moves grow. This happens in play from a new board, so undo does away with the bound of GameEnds. */
  lemma FreeJump() returns (g: Game, es: seq<Event>)
    ensures |g.b| == CELLS && (forall k :: 0 <= k < CELLS ==> g.b[k] == 1)
    ensures g == Game(g.b, 0, 0, false, 0, []) && Inv(g) && AllLegal(es)
    ensures var h := Run(g, es);
            && Jumps(h, 2, 0) && IsBoard(h.b) && h.cx == h.cy == 0 && h.b[Idx(0, 0)] % 7 == 0
            && Colours(Click(h, 2, 0).b) == Colours(h.b) && Click(h, 2, 0).moves == h.moves + 1
  {
    hide Inv, Run, Click, Jumps, Idx, Colours, IsBoard;
    g := Reds();
    var marked := MarkedEmpty(g);
    FreeClick(Run(g, marked));
    RunMore(g, marked, ClickAt(0, 0));
    es := marked + [ClickAt(0, 0)];
  }
}
