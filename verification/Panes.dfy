/** The rules of the Panes game. */
module Panes {
  const MAXX := 12
  const MAXY := 8
  const CELLS := 96
  const MAXSTATE := 21

  predicate OnBoard(i: int, j: int) {
    0 <= i < MAXX && 0 <= j < MAXY
  }

  function Idx(i: int, j: int): (k: nat)
    requires OnBoard(i, j)
    ensures k < CELLS
  {
    i * MAXY + j
  }

  lemma IdxUnique(i: int, j: int, i': int, j': int)
    requires OnBoard(i, j) && OnBoard(i', j') && (i != i' || j != j')
    ensures Idx(i, j) != Idx(i', j')
  {
  }

  /** The states of the cells: a colour, which is a sum of the primaries 1, 2 and 4, plus 7 for every mark. */
  predicate IsBoard(b: seq<int>) {
    |b| == CELLS && forall k :: 0 <= k < CELLS ==> 0 <= b[k] < MAXSTATE
  }

  function Colours(b: seq<int>): (c: seq<int>)
    ensures |c| == |b| && forall k :: 0 <= k < |b| ==> c[k] == b[k] % 7
  {
    seq(|b|, k requires 0 <= k < |b| => b[k] % 7)
  }

  // ---------- Colours ----------

  predicate Primary(c: int) {
    c == 1 || c == 2 || c == 4
  }

  predicate Secondary(c: int) {
    c == 3 || c == 5 || c == 6
  }

  /** The colour left of a pane that a current one jumps over; -1 if it cannot. */
  function NextColour(current: int, next: int): int {
    if next == current || (Primary(current) && Primary(next)) then 0
    else if Primary(current) && Secondary(next) && next / current % 2 == 1 then next - current
    else -1
  }

  /** The colour of a pane after a current one has landed on it; -1 if it cannot. */
  function LandColour(current: int, land: int): int {
    if land == 0 || current == land then current
    else if Primary(current) && Primary(land) then current + land
    else -1
  }

  /** How many primaries a colour is made of. */
  function Bits(c: int): nat {
    if Primary(c) then 1 else if Secondary(c) then 2 else 0
  }

  /** A jump uses up primaries, unless it is an empty cell that jumps; that changes nothing. */
  lemma JumpCosts(c: int, n: int, l: int)
    requires 0 <= c <= 6 && 0 <= n <= 6 && 0 <= l <= 6 && NextColour(c, n) >= 0 && LandColour(c, l) >= 0
    ensures 0 <= NextColour(c, n) <= 6 && 0 <= LandColour(c, l) <= 6
    ensures c != 0 ==> Bits(NextColour(c, n)) + Bits(LandColour(c, l)) < Bits(c) + Bits(n) + Bits(l)
    ensures c == 0 ==> NextColour(c, n) == n == 0 && LandColour(c, l) == l == 0
    ensures Bits(0) == 0
  {
  }

  /** Primaries on the board. */
  function Total(b: seq<int>): nat {
    if b == [] then 0 else Total(b[..|b| - 1]) + Bits(b[|b| - 1] % 7)
  }

  lemma {:induction false} TotalSet(b: seq<int>, k: nat, v: int)
    requires k < |b|
    ensures Total(b[k := v]) == Total(b) - Bits(b[k] % 7) + Bits(v % 7)
  {
    var c := b[k := v];
    if k == |b| - 1 {
      assert c[..|b| - 1] == b[..|b| - 1];
    } else {
      assert c[..|b| - 1] == b[..|b| - 1][k := v];
      TotalSet(b[..|b| - 1], k, v);
    }
  }

  lemma {:induction false} TotalColours(b: seq<int>, c: seq<int>)
    requires Colours(b) == Colours(c)
    ensures Total(b) == Total(c)
  {
    if b != [] {
      assert |b| == |c|;
      var n := |b| - 1;
      assert b[n] % 7 == Colours(b)[n] == Colours(c)[n] == c[n] % 7;
      assert forall k :: 0 <= k < n ==> b[k] % 7 == Colours(b)[k] == Colours(c)[k] == c[k] % 7;
      assert Colours(b[..n]) == Colours(c[..n]);
      TotalColours(b[..n], c[..n]);
    }
  }

  // ---------- Cells ----------

  function Next(b: seq<int>, cx: int, cy: int, i: int, j: int): int
    requires IsBoard(b) && OnBoard(cx, cy)
  {
    if (i == 0 && j == 0) || !OnBoard(cx + i, cy + j) then -1
    else NextColour(b[Idx(cx, cy)] % 7, b[Idx(cx + i, cy + j)] % 7)
  }

  function Land(b: seq<int>, cx: int, cy: int, i: int, j: int): int
    requires IsBoard(b) && OnBoard(cx, cy)
  {
    if (i == 0 && j == 0) || !OnBoard(cx + i, cy + j) then -1
    else LandColour(b[Idx(cx, cy)] % 7, b[Idx(cx + i, cy + j)] % 7)
  }

  /** A pane at (cx, cy) may jump in direction (x, y). */
  predicate CanJump(b: seq<int>, cx: int, cy: int, x: int, y: int)
    requires IsBoard(b) && OnBoard(cx, cy)
  {
    Next(b, cx, cy, x, y) != -1 && Land(b, cx, cy, 2 * x, 2 * y) != -1
  }

  function Update(b: seq<int>, k: nat, v: int): (c: seq<int>)
    requires IsBoard(b) && k < CELLS
    ensures IsBoard(c)
  {
    if 0 <= v < MAXSTATE then b[k := v] else b
  }

  function SetAt(b: seq<int>, i: int, j: int): (c: seq<int>)
    requires IsBoard(b)
    ensures IsBoard(c)
  {
    if OnBoard(i, j) then Update(b, Idx(i, j), b[Idx(i, j)] + 7) else b
  }

  function ClearAt(b: seq<int>, i: int, j: int): (c: seq<int>)
    requires IsBoard(b)
    ensures IsBoard(c)
  {
    if OnBoard(i, j) then Update(b, Idx(i, j), b[Idx(i, j)] % 7) else b
  }

  /** Marking and unmarking leave the colours alone. */
  lemma MarksKeepColours(b: seq<int>, i: int, j: int)
    requires IsBoard(b)
    ensures Colours(SetAt(b, i, j)) == Colours(b) && Colours(ClearAt(b, i, j)) == Colours(b)
  {
    if OnBoard(i, j) {
      var v := b[Idx(i, j)];
      assert (v + 7) % 7 == v % 7 && v % 7 % 7 == v % 7;
    }
  }

  /** The n-th of the nine directions. */
  function DirX(n: nat): int { n / 3 - 1 }

  function DirY(n: nat): int { n % 3 - 1 }

  /** Marks on the first n directions' targets, and how many there are. */
  function Targets(b: seq<int>, cx: int, cy: int, n: nat): (r: (seq<int>, nat))
    requires IsBoard(b) && OnBoard(cx, cy) && n <= 9
    ensures IsBoard(r.0)
  {
    if n == 0 then (b, 0)
    else
      var (c, count) := Targets(b, cx, cy, n - 1);
      var x, y := DirX(n - 1), DirY(n - 1);
      if CanJump(c, cx, cy, x, y) then (SetAt(c, cx + 2 * x, cy + 2 * y), count + 1) else (c, count)
  }

  function Unmarked(b: seq<int>, cx: int, cy: int, n: nat): (c: seq<int>)
    requires IsBoard(b) && n <= 9
    ensures IsBoard(c)
  {
    if n == 0 then b
    else ClearAt(Unmarked(b, cx, cy, n - 1), cx + 2 * DirX(n - 1), cy + 2 * DirY(n - 1))
  }

  lemma {:induction false} TargetsKeepColours(b: seq<int>, cx: int, cy: int, n: nat)
    requires IsBoard(b) && OnBoard(cx, cy) && n <= 9
    ensures Colours(Targets(b, cx, cy, n).0) == Colours(b)
  {
    hide CanJump, SetAt, ClearAt, IsBoard, Colours;
    if n > 0 {
      TargetsKeepColours(b, cx, cy, n - 1);
      MarksKeepColours(Targets(b, cx, cy, n - 1).0, cx + 2 * DirX(n - 1), cy + 2 * DirY(n - 1));
    }
  }

  lemma {:induction false} UnmarkedKeepsColours(b: seq<int>, cx: int, cy: int, n: nat)
    requires IsBoard(b) && n <= 9
    ensures Colours(Unmarked(b, cx, cy, n)) == Colours(b)
  {
    hide SetAt, ClearAt, IsBoard, Colours;
    if n > 0 {
      UnmarkedKeepsColours(b, cx, cy, n - 1);
      MarksKeepColours(Unmarked(b, cx, cy, n - 1), cx + 2 * DirX(n - 1), cy + 2 * DirY(n - 1));
    }
  }

  // ---------- The game ----------

  /** A jump that can be taken back: from (x1, y1) to (x2, y2), with the states before it. */
  datatype Entry = Entry(x1: int, y1: int, x2: int, y2: int, current: int, next: int, land: int)

  datatype Game = Game(b: seq<int>, cx: int, cy: int, pushed: bool, moves: int, stack: seq<Entry>)

  predicate IsState(v: int) {
    0 <= v < MAXSTATE
  }

  predicate EntryOk(e: Entry) {
    && OnBoard(e.x1, e.y1) && OnBoard(e.x2, e.y2) && (e.x1 != e.x2 || e.y1 != e.y2)
    && (e.x1 + e.x2) % 2 == 0 && (e.y1 + e.y2) % 2 == 0
    && IsState(e.current) && IsState(e.next) && IsState(e.land)
  }

  /** The moves are the jumps that can be taken back; a pane that is held can jump. */
  predicate Inv(g: Game) {
    && IsBoard(g.b) && OnBoard(g.cx, g.cy) && g.moves == |g.stack| &&
       (forall k :: 0 <= k < |g.stack| ==> EntryOk(g.stack[k]))
    && (g.pushed ==> g.b[Idx(g.cx, g.cy)] >= 7 && exists n: nat :: n < 9 && CanJump(g.b, g.cx, g.cy, DirX(n), DirY(n)))
  }

  function Pick(g: Game, i: int, j: int): Game
    requires Inv(g) && OnBoard(i, j)
  {
    if g.b[Idx(i, j)] == 0 then g
    else
      var (b, count) := Targets(g.b, i, j, 9);
      if count == 0 then g.(cx := i, cy := j)
      else g.(b := SetAt(SetAt(b, i, j), i, j), cx := i, cy := j, pushed := true)
  }

  /** The held pane may land on (i, j): an even distance away, marked, and both jumped over and landed on
      by the rules. */
  predicate Lands(g: Game, i: int, j: int)
    requires Inv(g) && OnBoard(i, j)
  {
    && (i + g.cx) % 2 == 0 && (j + g.cy) % 2 == 0 && g.b[Idx(i, j)] >= 7
    && Land(g.b, g.cx, g.cy, i - g.cx, j - g.cy) >= 0 && Next(g.b, g.cx, g.cy, (i - g.cx) / 2, (j - g.cy) / 2) >= 0
  }

  function Mid(e: Entry): nat
    requires EntryOk(e)
  {
    Idx((e.x1 + e.x2) / 2, (e.y1 + e.y2) / 2)
  }

  function Jumped(g: Game, i: int, j: int): Game
    requires Inv(g) && OnBoard(i, j) && Lands(g, i, j)
  {
    var land := Land(g.b, g.cx, g.cy, i - g.cx, j - g.cy);
    var next := Next(g.b, g.cx, g.cy, (i - g.cx) / 2, (j - g.cy) / 2);
    var mid := Idx((i + g.cx) / 2, (j + g.cy) / 2);
    var e := Entry(g.cx, g.cy, i, j, g.b[Idx(g.cx, g.cy)], g.b[mid], g.b[Idx(i, j)]);
    var b := Update(Update(Update(g.b, Idx(i, j), land), mid, next), Idx(g.cx, g.cy), 0);
    g.(b := b, moves := g.moves + 1, stack := [e] + g.stack)
  }

  function Released(g: Game): Game
    requires Inv(g)
  {
    g.(b := Unmarked(g.b, g.cx, g.cy, 9), pushed := false)
  }

  /** Whether a click at (i, j) completes a jump. */
  predicate Jumps(g: Game, i: int, j: int)
    requires Inv(g) && OnBoard(i, j)
  {
    g.pushed && (i != g.cx || j != g.cy) && Lands(g, i, j)
  }

  /** A click on (i, j): take hold of a pane, let go of it, or jump. */
  function Click(g: Game, i: int, j: int): Game
    requires Inv(g) && OnBoard(i, j)
  {
    if !g.pushed then Pick(g, i, j)
    else if i == g.cx && j == g.cy then Released(g)
    else if Lands(g, i, j) then
      var h := Jumped(g, i, j);
      h.(b := Unmarked(h.b, g.cx, g.cy, 9), pushed := false)
    else g
  }

  function Undone(b: seq<int>, e: Entry): (c: seq<int>)
    requires IsBoard(b) && EntryOk(e)
    ensures IsBoard(c)
  {
    Update(Update(Update(b, Idx(e.x1, e.y1), e.current), Idx(e.x2, e.y2), e.land), Mid(e), e.next)
  }

  function Undo(g: Game): Game
    requires Inv(g)
  {
    if g.stack == [] then g
    else
      var h := if g.pushed then Released(g) else g;
      h.(b := Undone(h.b, g.stack[0]), moves := g.moves - 1, stack := g.stack[1..])
  }

  // ---------- What every step keeps ----------

  lemma SameColoursSameJumps(b: seq<int>, c: seq<int>, cx: int, cy: int, x: int, y: int)
    requires IsBoard(b) && IsBoard(c) && OnBoard(cx, cy) && Colours(b) == Colours(c)
    ensures CanJump(b, cx, cy, x, y) == CanJump(c, cx, cy, x, y)
  {
    hide NextColour, LandColour;
    SameColour(b, c, cx, cy);
    if OnBoard(cx + x, cy + y) { SameColour(b, c, cx + x, cy + y); }
    if OnBoard(cx + 2 * x, cy + 2 * y) { SameColour(b, c, cx + 2 * x, cy + 2 * y); }
  }

  lemma SameColour(b: seq<int>, c: seq<int>, i: int, j: int)
    requires IsBoard(b) && IsBoard(c) && OnBoard(i, j) && Colours(b) == Colours(c)
    ensures b[Idx(i, j)] % 7 == c[Idx(i, j)] % 7
  {
    var k := Idx(i, j);
    assert b[k] % 7 == Colours(b)[k] == Colours(c)[k] == c[k] % 7;
  }

  /** A target is counted only in a direction in which there is a jump. */
  lemma {:induction false} CountedJumps(b: seq<int>, cx: int, cy: int, n: nat)
    requires IsBoard(b) && OnBoard(cx, cy) && n <= 9 && Targets(b, cx, cy, n).1 > 0
    ensures exists d: nat :: d < n && CanJump(b, cx, cy, DirX(d), DirY(d))
  {
    hide CanJump, SetAt;
    var c := Targets(b, cx, cy, n - 1).0;
    TargetsKeepColours(b, cx, cy, n - 1);
    SameColoursSameJumps(b, c, cx, cy, DirX(n - 1), DirY(n - 1));
    if CanJump(b, cx, cy, DirX(n - 1), DirY(n - 1)) {
      assert n - 1 < n;
    } else {
      CountedJumps(b, cx, cy, n - 1);
    }
  }

  lemma PickKeeps(g: Game, i: int, j: int)
    requires Inv(g) && !g.pushed && OnBoard(i, j)
    ensures Inv(Pick(g, i, j)) && Colours(Pick(g, i, j).b) == Colours(g.b)
  {
    hide CanJump, SetAt, Targets, EntryOk;
    var (b, count) := Targets(g.b, i, j, 9);
    TargetsKeepColours(g.b, i, j, 9);
    MarksKeepColours(b, i, j);
    MarksKeepColours(SetAt(b, i, j), i, j);
    if g.b[Idx(i, j)] != 0 && count > 0 {
      var c := SetAt(SetAt(b, i, j), i, j);
      CountedJumps(g.b, i, j, 9);
      var d: nat :| d < 9 && CanJump(g.b, i, j, DirX(d), DirY(d));
      SameColoursSameJumps(g.b, c, i, j, DirX(d), DirY(d));
      MarkedTwice(b, i, j);
    }
  }

  lemma MarkedTwice(b: seq<int>, i: int, j: int)
    requires IsBoard(b) && OnBoard(i, j)
    ensures SetAt(SetAt(b, i, j), i, j)[Idx(i, j)] >= 7
  {
  }

  lemma ReleaseKeeps(g: Game)
    requires Inv(g)
    ensures Inv(Released(g)) && Colours(Released(g).b) == Colours(g.b)
  {
    hide CanJump, EntryOk, Unmarked;
    UnmarkedKeepsColours(g.b, g.cx, g.cy, 9);
  }

  /** The cells of a jump, and their colours. */
  lemma JumpCells(g: Game, i: int, j: int)
    requires Inv(g) && OnBoard(i, j) && Lands(g, i, j)
    ensures (i != g.cx || j != g.cy) && OnBoard((i + g.cx) / 2, (j + g.cy) / 2)
    ensures var from, to, mid := Idx(g.cx, g.cy), Idx(i, j), Idx((i + g.cx) / 2, (j + g.cy) / 2);
            && from != to && mid != from && mid != to
            && NextColour(g.b[from] % 7, g.b[mid] % 7) >= 0 && LandColour(g.b[from] % 7, g.b[to] % 7) >= 0
            && Next(g.b, g.cx, g.cy, (i - g.cx) / 2, (j - g.cy) / 2) == NextColour(g.b[from] % 7, g.b[mid] % 7)
            && Land(g.b, g.cx, g.cy, i - g.cx, j - g.cy) == LandColour(g.b[from] % 7, g.b[to] % 7)
  {
    hide NextColour, LandColour;
    assert g.cx + (i - g.cx) / 2 == (i + g.cx) / 2 && g.cy + (j - g.cy) / 2 == (j + g.cy) / 2;
  }

  lemma JumpedBoard(g: Game, i: int, j: int)
    requires Inv(g) && OnBoard(i, j) && Lands(g, i, j)
    ensures OnBoard((i + g.cx) / 2, (j + g.cy) / 2)
    ensures var from, to, mid := Idx(g.cx, g.cy), Idx(i, j), Idx((i + g.cx) / 2, (j + g.cy) / 2);
            var c, n, l := g.b[from] % 7, g.b[mid] % 7, g.b[to] % 7;
            Jumped(g, i, j).b == g.b[to := LandColour(c, l)][mid := NextColour(c, n)][from := 0]
  {
    hide NextColour, LandColour, Lands, Idx, Update, CanJump, EntryOk, Next, Land;
    BoardOf(g);
    JumpCells(g, i, j);
    var from, to, mid := Idx(g.cx, g.cy), Idx(i, j), Idx((i + g.cx) / 2, (j + g.cy) / 2);
    var c, n, l := g.b[from] % 7, g.b[mid] % 7, g.b[to] % 7;
    JumpCosts(c, n, l);
    UpdatedThrice(g.b, to, LandColour(c, l), mid, NextColour(c, n), from, 0);
  }

  lemma UpdatedThrice(b: seq<int>, i: nat, u: int, j: nat, v: int, k: nat, w: int)
    requires IsBoard(b) && i < CELLS && j < CELLS && k < CELLS && IsState(u) && IsState(v) && IsState(w)
    ensures Update(Update(Update(b, i, u), j, v), k, w) == b[i := u][j := v][k := w]
  {
  }

  lemma JumpKeeps(g: Game, i: int, j: int)
    requires Inv(g) && g.pushed && OnBoard(i, j) && Lands(g, i, j)
    ensures Inv(Click(g, i, j)) && Colours(Click(g, i, j).b) == Colours(Jumped(g, i, j).b)
  {
    hide CanJump, Unmarked, NextColour, LandColour, Next, Land;
    JumpCells(g, i, j);
    var h := Jumped(g, i, j);
    UnmarkedKeepsColours(h.b, g.cx, g.cy, 9);
    assert EntryOk(h.stack[0]);
  }

  /** Every click keeps the books straight, and only a jump changes colours. */
  lemma ClickKeeps(g: Game, i: int, j: int)
    requires Inv(g) && OnBoard(i, j)
    ensures Inv(Click(g, i, j))
    ensures !Jumps(g, i, j) ==> Colours(Click(g, i, j).b) == Colours(g.b) && Click(g, i, j).stack == g.stack
    ensures Click(g, i, j).moves == g.moves + if Jumps(g, i, j) then 1 else 0
  {
    hide Inv, Lands, Pick, Released, Jumped, Unmarked;
    if !g.pushed {
      PickKeeps(g, i, j);
      PickStack(g, i, j);
    } else if i == g.cx && j == g.cy {
      ReleaseKeeps(g);
      LandsElsewhere(g);
      ReleaseStack(g);
    } else if Lands(g, i, j) {
      JumpKeeps(g, i, j);
      JumpedStack(g, i, j);
    }
  }

  lemma PickStack(g: Game, i: int, j: int)
    requires Inv(g) && OnBoard(i, j)
    ensures Pick(g, i, j).stack == g.stack && Pick(g, i, j).moves == g.moves
  {
  }

  lemma ReleaseStack(g: Game)
    requires Inv(g)
    ensures Released(g).stack == g.stack && Released(g).moves == g.moves
  {
  }

  lemma JumpedStack(g: Game, i: int, j: int)
    requires Inv(g) && OnBoard(i, j) && Lands(g, i, j)
    ensures Jumped(g, i, j).moves == g.moves + 1
  {
  }

  lemma LandsElsewhere(g: Game)
    requires Inv(g)
    ensures !Lands(g, g.cx, g.cy)
  {
  }

  /** A completed jump lowers the primaries on the board exactly if the pane that jumped had a colour; an
      empty cell's jump changes no colour at all. */
  lemma JumpLowersTotal(g: Game, i: int, j: int)
    requires Inv(g) && OnBoard(i, j) && Jumps(g, i, j)
    ensures var h := Click(g, i, j);
            && (Total(h.b) < Total(g.b) <==> g.b[Idx(g.cx, g.cy)] % 7 != 0)
            && (g.b[Idx(g.cx, g.cy)] % 7 == 0 ==> Colours(h.b) == Colours(g.b))
  {
    hide Lands, Unmarked, NextColour, LandColour, Bits, Inv, Click, Jumped, Idx, Total, Colours, IsBoard;
    BoardOf(g);
    JumpCells(g, i, j);
    JumpedBoard(g, i, j);
    JumpKeeps(g, i, j);
    var from, to, mid := Idx(g.cx, g.cy), Idx(i, j), Idx((i + g.cx) / 2, (j + g.cy) / 2);
    var c, n, l := g.b[from] % 7, g.b[mid] % 7, g.b[to] % 7;
    JumpCosts(c, n, l);
    ThreeSet(g.b, to, LandColour(c, l), mid, NextColour(c, n), from, 0);
    TotalColours(Click(g, i, j).b, Jumped(g, i, j).b);
  }

  lemma BoardOf(g: Game)
    requires Inv(g)
    ensures IsBoard(g.b) && OnBoard(g.cx, g.cy)
  {
  }

  lemma ThreeSet(b: seq<int>, i: nat, u: int, j: nat, v: int, k: nat, w: int)
    requires i < |b| && j < |b| && k < |b| && i != j && j != k && i != k
    requires 0 <= u <= 6 && 0 <= v <= 6 && 0 <= w <= 6
    ensures Total(b[i := u][j := v][k := w])
         == Total(b) - Bits(b[i] % 7) - Bits(b[j] % 7) - Bits(b[k] % 7) + Bits(u) + Bits(v) + Bits(w)
    ensures u == b[i] % 7 && v == b[j] % 7 && w == b[k] % 7 ==> Colours(b[i := u][j := v][k := w]) == Colours(b)
  {
    hide Bits, Total;
    TotalSet(b, i, u);
    TotalSet(b[i := u], j, v);
    TotalSet(b[i := u][j := v], k, w);
  }

  // ---------- Undoing ----------

  /** The colours after taking back jumps until only d are left. */
  function Rewound(c: seq<int>, stack: seq<Entry>, d: nat): (r: seq<int>)
    requires |c| == CELLS && (forall k :: 0 <= k < |stack| ==> EntryOk(stack[k]))
    ensures |r| == CELLS
    decreases |stack|
  {
    if |stack| <= d then c else Rewound(Recoloured(c, stack[0]), stack[1..], d)
  }

  function Recoloured(c: seq<int>, e: Entry): seq<int>
    requires |c| == CELLS && EntryOk(e)
  {
    c[Idx(e.x1, e.y1) := e.current % 7][Idx(e.x2, e.y2) := e.land % 7][Mid(e) := e.next % 7]
  }

  lemma UndoneColours(b: seq<int>, e: Entry)
    requires IsBoard(b) && EntryOk(e)
    ensures Colours(Undone(b, e)) == Recoloured(Colours(b), e)
  {
    UpdatedThrice(b, Idx(e.x1, e.y1), e.current, Idx(e.x2, e.y2), e.land, Mid(e), e.next);
  }

  lemma UndoKeeps(g: Game)
    requires Inv(g)
    ensures Inv(Undo(g))
    ensures g.stack != [] ==>
              Colours(Undo(g).b) == Recoloured(Colours(g.b), g.stack[0]) && Undo(g).stack == g.stack[1..]
  {
    hide CanJump, EntryOk, Unmarked, Undone;
    if g.stack != [] {
      UnmarkedKeepsColours(g.b, g.cx, g.cy, 9);
      assert EntryOk(g.stack[0]);
      var h := if g.pushed then Released(g) else g;
      UndoneColours(h.b, g.stack[0]);
    }
  }

  /** Taking back a jump gives its colours back. */
  lemma JumpTakenBack(g: Game, i: int, j: int)
    requires Inv(g) && OnBoard(i, j) && Jumps(g, i, j)
    ensures var h := Click(g, i, j);
            && |h.stack| == |g.stack| + 1 && h.stack[1..] == g.stack && EntryOk(h.stack[0])
            && Recoloured(Colours(h.b), h.stack[0]) == Colours(g.b)
  {
    hide Lands, Unmarked, NextColour, LandColour, Next, Land, Idx, Colours, Inv, Jumped, IsBoard, EntryOk;
    BoardOf(g);
    JumpCells(g, i, j);
    JumpedBoard(g, i, j);
    JumpKeeps(g, i, j);
    JumpedEntry(g, i, j);
    var from, to, mid := Idx(g.cx, g.cy), Idx(i, j), Idx((i + g.cx) / 2, (j + g.cy) / 2);
    RecolouredBack(g.b, Jumped(g, i, j).b, to, mid, from);
  }

  /** What a jump leaves to take it back. */
  lemma JumpedEntry(g: Game, i: int, j: int)
    requires Inv(g) && OnBoard(i, j) && Lands(g, i, j)
    ensures |g.b| == CELLS && OnBoard(g.cx, g.cy) && OnBoard((i + g.cx) / 2, (j + g.cy) / 2)
    ensures var h := Jumped(g, i, j);
            var mid := Idx((i + g.cx) / 2, (j + g.cy) / 2);
            var e := Entry(g.cx, g.cy, i, j, g.b[Idx(g.cx, g.cy)], g.b[mid], g.b[Idx(i, j)]);
            && h.stack == [e] + g.stack && h.stack[0] == e && h.stack[1..] == g.stack && EntryOk(e) && Mid(e) == mid
            && (g.pushed && (i != g.cx || j != g.cy) ==> Click(g, i, j).stack == h.stack)
  {
    hide Unmarked, NextColour, LandColour, Next, Land, CanJump;
    JumpCells(g, i, j);
  }

  lemma RecolouredBack(b: seq<int>, c: seq<int>, i: nat, j: nat, k: nat)
    requires |b| == |c| && i < |b| && j < |b| && k < |b| && i != j && j != k && i != k
    requires forall t :: 0 <= t < |b| && t != i && t != j && t != k ==> b[t] == c[t]
    ensures Colours(c)[k := b[k] % 7][i := b[i] % 7][j := b[j] % 7] == Colours(b)
  {
  }

  // ---------- Runs ----------

  datatype Event = ClickAt(i: int, j: int) | TakeBack

  predicate Legal(e: Event) {
    e.ClickAt? ==> OnBoard(e.i, e.j)
  }

  function Step(g: Game, e: Event): Game
    requires Inv(g) && Legal(e)
  {
    match e
    case ClickAt(i, j) => Click(g, i, j)
    case TakeBack => Undo(g)
  }

  lemma StepKeeps(g: Game, e: Event)
    requires Inv(g) && Legal(e)
    ensures Inv(Step(g, e))
  {
    match e
    case ClickAt(i, j) => ClickKeeps(g, i, j);
    case TakeBack => UndoKeeps(g);
  }

  predicate AllLegal(es: seq<Event>) {
    forall k :: 0 <= k < |es| ==> Legal(es[k])
  }

  function Run(g: Game, es: seq<Event>): (h: Game)
    requires Inv(g) && AllLegal(es)
    ensures Inv(h)
    decreases |es|
  {
    if es == [] then g
    else
      StepKeeps(g, es[0]);
      Run(Step(g, es[0]), es[1..])
  }

  /** The run never takes back more jumps than it has made beyond the first d. */
  predicate StaysAbove(g: Game, es: seq<Event>, d: nat)
    requires Inv(g) && AllLegal(es)
    decreases |es|
  {
    d <= |g.stack| && (es == [] || (StepKeeps(g, es[0]); StaysAbove(Step(g, es[0]), es[1..], d)))
  }

  lemma StepRewound(g: Game, e: Event, d: nat)
    requires Inv(g) && Legal(e) && d <= |g.stack|
    ensures Inv(Step(g, e))
    ensures d <= |Step(g, e).stack| ==>
              Rewound(Colours(Step(g, e).b), Step(g, e).stack, d) == Rewound(Colours(g.b), g.stack, d)
  {
    hide EntryOk, CanJump, Lands, Click, Undo, Recoloured;
    StepKeeps(g, e);
    match e
    case ClickAt(i, j) =>
      ClickKeeps(g, i, j);
      if Jumps(g, i, j) {
        JumpTakenBack(g, i, j);
      }
    case TakeBack =>
      UndoKeeps(g);
      if g.stack == [] {
        NothingToUndo(g);
      }
  }

  lemma NothingToUndo(g: Game)
    requires Inv(g) && g.stack == []
    ensures Undo(g) == g
  {
  }

  /** Taking back all jumps made since then restores the colours, whatever was clicked in between. */
  lemma {:induction false} RunRewound(g: Game, es: seq<Event>, d: nat)
    requires Inv(g) && AllLegal(es) && StaysAbove(g, es, d)
    ensures Rewound(Colours(Run(g, es).b), Run(g, es).stack, d) == Rewound(Colours(g.b), g.stack, d)
    decreases |es|
  {
    hide Inv, Legal, Step, Rewound;
    if es != [] {
      StepRewound(g, es[0], d);
      RunRewound(Step(g, es[0]), es[1..], d);
    }
  }

  function UndoTimes(g: Game, n: nat): (h: Game)
    requires Inv(g)
    ensures Inv(h)
    decreases n
  {
    if n == 0 then g
    else
      UndoKeeps(g);
      UndoTimes(Undo(g), n - 1)
  }

  lemma {:induction false} UndoTimesRewinds(g: Game, n: nat)
    requires Inv(g) && n <= |g.stack|
    ensures Colours(UndoTimes(g, n).b) == Rewound(Colours(g.b), g.stack, |g.stack| - n)
    decreases n
  {
    hide EntryOk, CanJump, Recoloured, Undo;
    UndoKeeps(g);
    if n > 0 {
      UndoTimesRewinds(Undo(g), n - 1);
    }
  }

  /** After any play that makes n jumps more than it takes back, n undos restore the colours it started with. */
  lemma UndoRestores(g: Game, es: seq<Event>, n: nat)
    requires Inv(g) && AllLegal(es) && StaysAbove(g, es, |g.stack|)
    requires Run(g, es).moves == g.moves + n
    ensures Colours(UndoTimes(Run(g, es), n).b) == Colours(g.b)
  {
    hide EntryOk, CanJump, Recoloured, Undo, StaysAbove, Run;
    RunRewound(g, es, |g.stack|);
    UndoTimesRewinds(Run(g, es), n);
  }

  // ---------- Play without undo ----------

  predicate Around(g: Game, i: int, j: int) {
    exists n: nat :: n < 9 && i == g.cx + 2 * DirX(n) && j == g.cy + 2 * DirY(n)
  }

  /** Only the held pane and cells two steps from it carry marks, and the held pane has a colour. */
  ghost predicate Clean(g: Game) {
    && IsBoard(g.b) && OnBoard(g.cx, g.cy)
    && (forall i, j :: OnBoard(i, j) && g.b[Idx(i, j)] >= 7 ==> g.pushed && Around(g, i, j))
    && (g.pushed ==> g.b[Idx(g.cx, g.cy)] % 7 != 0)
  }

  /** Unmarked cells stay unmarked, and those visited become so. */
  lemma {:induction false} UnmarkedIs(b: seq<int>, cx: int, cy: int, n: nat, i: int, j: int)
    requires IsBoard(b) && n <= 9 && OnBoard(i, j)
    ensures var c := Unmarked(b, cx, cy, n);
            && (b[Idx(i, j)] < 7 ==> c[Idx(i, j)] == b[Idx(i, j)])
            && ((exists d: nat :: d < n && i == cx + 2 * DirX(d) && j == cy + 2 * DirY(d)) ==> c[Idx(i, j)] < 7)
  {
    hide IsBoard, ClearAt, Idx, DirX, DirY;
    if n > 0 {
      UnmarkedIs(b, cx, cy, n - 1, i, j);
      var c := Unmarked(b, cx, cy, n - 1);
      ClearedAt(c, cx + 2 * DirX(n - 1), cy + 2 * DirY(n - 1), i, j);
    }
  }

  lemma ClearedAt(b: seq<int>, x: int, y: int, i: int, j: int)
    requires IsBoard(b) && OnBoard(i, j)
    ensures var c := ClearAt(b, x, y);
            && (x == i && y == j ==> c[Idx(i, j)] == b[Idx(i, j)] % 7)
            && (x != i || y != j ==> c[Idx(i, j)] == b[Idx(i, j)])
            && (b[Idx(i, j)] < 7 ==> c[Idx(i, j)] == b[Idx(i, j)])
  {
    if OnBoard(x, y) && (x != i || y != j) {
      IdxUnique(x, y, i, j);
    }
  }

  lemma SetIs(b: seq<int>, x: int, y: int, i: int, j: int)
    requires IsBoard(b) && OnBoard(i, j) && (x != i || y != j)
    ensures SetAt(b, x, y)[Idx(i, j)] == b[Idx(i, j)]
  {
    if OnBoard(x, y) {
      IdxUnique(x, y, i, j);
    }
  }

  /** Only targets are marked. */
  lemma {:induction false} TargetsAround(b: seq<int>, cx: int, cy: int, n: nat, i: int, j: int)
    requires IsBoard(b) && OnBoard(cx, cy) && n <= 9 && OnBoard(i, j)
    requires forall d: nat :: d < n ==> i != cx + 2 * DirX(d) || j != cy + 2 * DirY(d)
    ensures Targets(b, cx, cy, n).0[Idx(i, j)] == b[Idx(i, j)]
  {
    hide IsBoard, CanJump, SetAt, Idx;
    if n > 0 {
      TargetsAround(b, cx, cy, n - 1, i, j);
      assert i != cx + 2 * DirX(n - 1) || j != cy + 2 * DirY(n - 1);
      SetIs(Targets(b, cx, cy, n - 1).0, cx + 2 * DirX(n - 1), cy + 2 * DirY(n - 1), i, j);
    }
  }

  lemma PickClean(g: Game, i: int, j: int)
    requires Inv(g) && Clean(g) && !g.pushed && OnBoard(i, j)
    ensures Clean(Pick(g, i, j))
  {
    hide CanJump, SetAt, Targets, EntryOk, Idx;
    var h := Pick(g, i, j);
    PickKeeps(g, i, j);
    if h.pushed {
      SameColour(g.b, h.b, i, j);
      assert g.b[Idx(i, j)] < 7;
      forall i', j' | OnBoard(i', j') && h.b[Idx(i', j')] >= 7
        ensures Around(h, i', j')
      {
        if !Around(h, i', j') {
          NotMarked(g.b, i, j, i', j');
        }
      }
    }
  }

  lemma NotMarked(b: seq<int>, cx: int, cy: int, i: int, j: int)
    requires IsBoard(b) && OnBoard(cx, cy) && OnBoard(i, j)
    requires forall n: nat :: n < 9 ==> i != cx + 2 * DirX(n) || j != cy + 2 * DirY(n)
    ensures SetAt(SetAt(Targets(b, cx, cy, 9).0, cx, cy), cx, cy)[Idx(i, j)] == b[Idx(i, j)]
  {
    hide SetAt, Targets, Idx;
    var c := Targets(b, cx, cy, 9).0;
    assert DirX(4) == 0 && DirY(4) == 0;
    TargetsAround(b, cx, cy, 9, i, j);
    SetIs(c, cx, cy, i, j);
    SetIs(SetAt(c, cx, cy), cx, cy, i, j);
  }

  /** Letting go of a pane removes all marks. */
  lemma AllUnmarked(g: Game, b: seq<int>)
    requires OnBoard(g.cx, g.cy) && IsBoard(b)
    requires forall i, j :: OnBoard(i, j) && b[Idx(i, j)] >= 7 ==> Around(g, i, j)
    ensures forall i, j :: OnBoard(i, j) ==> Unmarked(b, g.cx, g.cy, 9)[Idx(i, j)] < 7
  {
    hide Unmarked, Idx;
    forall i, j | OnBoard(i, j)
      ensures Unmarked(b, g.cx, g.cy, 9)[Idx(i, j)] < 7
    {
      UnmarkedIs(b, g.cx, g.cy, 9, i, j);
    }
  }

  lemma ClickClean(g: Game, i: int, j: int)
    requires Inv(g) && Clean(g) && OnBoard(i, j)
    ensures Inv(Click(g, i, j)) && Clean(Click(g, i, j))
  {
    hide EntryOk, Unmarked, Lands, CanJump, Around, Pick, Jumped, Idx;
    ClickKeeps(g, i, j);
    if !g.pushed {
      PickClean(g, i, j);
    } else if i == g.cx && j == g.cy {
      AllUnmarked(g, g.b);
    } else if Lands(g, i, j) {
      JumpedMarks(g, i, j);
      AllUnmarked(g, Jumped(g, i, j).b);
    }
  }

  lemma JumpedMarks(g: Game, i: int, j: int)
    requires Inv(g) && OnBoard(i, j) && Lands(g, i, j)
    ensures var h := Jumped(g, i, j);
            && IsBoard(h.b) && h.cx == g.cx && h.cy == g.cy
            && forall i', j' :: OnBoard(i', j') && h.b[Idx(i', j')] >= 7 ==> g.b[Idx(i', j')] >= 7
  {
    hide Lands, NextColour, LandColour, Next, Land, CanJump, EntryOk, Idx;
    BoardOf(g);
    JumpCells(g, i, j);
    JumpedBoard(g, i, j);
    var from, to, mid := Idx(g.cx, g.cy), Idx(i, j), Idx((i + g.cx) / 2, (j + g.cy) / 2);
    JumpCosts(g.b[from] % 7, g.b[mid] % 7, g.b[to] % 7);
  }

  /** In play without undo a jump goes exactly two steps, and always uses up a primary. */
  lemma CleanJump(g: Game, i: int, j: int)
    requires Inv(g) && Clean(g) && OnBoard(i, j) && Jumps(g, i, j)
    ensures i - g.cx in {-2, 0, 2} && j - g.cy in {-2, 0, 2}
    ensures Total(Click(g, i, j).b) < Total(g.b)
  {
    hide Inv, Total, Click, Idx;
    JumpLowersTotal(g, i, j);
    CleanLanding(g, i, j);
  }

  lemma CleanLanding(g: Game, i: int, j: int)
    requires Inv(g) && Clean(g) && OnBoard(i, j) && Jumps(g, i, j)
    ensures i - g.cx in {-2, 0, 2} && j - g.cy in {-2, 0, 2}
  {
    hide Idx;
    assert Around(g, i, j);
  }

  /** Without undo every jump is paid for: jumps made and primaries left never exceed the primaries there
      were, so a game ends within that many jumps. */
  lemma {:induction false} GameEnds(g: Game, es: seq<Event>)
    requires Inv(g) && Clean(g) && AllLegal(es) && forall k :: 0 <= k < |es| ==> es[k].ClickAt?
    ensures Clean(Run(g, es)) && (Run(g, es).moves - g.moves) + Total(Run(g, es).b) <= Total(g.b)
    decreases |es|
  {
    hide Inv, Clean, Total, Click, Jumps;
    if es != [] {
      var i, j := es[0].i, es[0].j;
      ClickClean(g, i, j);
      ClickPays(g, i, j);
      StepKeeps(g, es[0]);
      GameEnds(Click(g, i, j), es[1..]);
    }
  }

  lemma ClickPays(g: Game, i: int, j: int)
    requires Inv(g) && Clean(g) && OnBoard(i, j)
    ensures Inv(Click(g, i, j)) && (Click(g, i, j).moves - g.moves) + Total(Click(g, i, j).b) <= Total(g.b)
  {
    hide Inv, Clean, Total, Click, Jumps;
    ClickKeeps(g, i, j);
    if Jumps(g, i, j) {
      CleanJump(g, i, j);
    } else {
      TotalColours(Click(g, i, j).b, g.b);
    }
  }

  /** A new board, every pane of some colour. */
  lemma NewGame(b: seq<int>)
    requires |b| == CELLS && forall k :: 0 <= k < CELLS ==> 1 <= b[k] <= 6
    ensures var g := Game(b, 0, 0, false, 0, []); Inv(g) && Clean(g)
  {
  }

  /** Why undo is different: it restores the marks too, though no pane is held. A marked empty cell is then
      not recognised as empty, and play is no longer clean. */
  lemma UndoLeavesMarks(g: Game, i: int, j: int)
    requires Inv(g) && OnBoard(i, j) && Jumps(g, i, j)
    ensures Inv(Click(g, i, j))
    ensures var h := Undo(Click(g, i, j));
            !h.pushed && h.b[Idx(i, j)] == g.b[Idx(i, j)] >= 7 && h.b[Idx(g.cx, g.cy)] == g.b[Idx(g.cx, g.cy)] >= 7 &&
              !Clean(h)
  {
    hide Unmarked, NextColour, LandColour, Next, Land, CanJump;
    JumpCells(g, i, j);
    JumpedEntry(g, i, j);
    JumpKeeps(g, i, j);
    var h := Undo(Click(g, i, j));
    assert h.b[Idx(i, j)] >= 7;
  }

  // ---------- More moves ----------

  /** Some cell that does not read as empty can jump. */
  ghost predicate MoreMoves(b: seq<int>)
    requires IsBoard(b)
  {
    exists i, j, n: nat :: OnBoard(i, j) && n < 9 && b[Idx(i, j)] != 0 && CanJump(b, i, j, DirX(n), DirY(n))
  }

  lemma HeldMoves(g: Game)
    requires Inv(g) && g.pushed
    ensures MoreMoves(g.b)
  {
    var n: nat :| n < 9 && CanJump(g.b, g.cx, g.cy, DirX(n), DirY(n));
    assert g.b[Idx(g.cx, g.cy)] != 0;
  }
}
