/** Colours as sets of primaries. */
module PanesColours {
  import opened Panes

  const PRIMARIES := {1, 2, 4}

  /** The colour of a pane made of the primaries in s; an empty cell has none. */
  function Mix(s: set<int>): int {
    (if 1 in s then 1 else 0) + (if 2 in s then 2 else 0) + (if 4 in s then 4 else 0)
  }

  /** Not all three primaries at once. */
  predicate Colour(s: set<int>) {
    s <= PRIMARIES && s != PRIMARIES
  }

  /** The primaries that make up a colour. */
  function Parts(c: int): (s: set<int>)
    requires 0 <= c <= 6
    ensures Colour(s) && Mix(s) == c
  {
    if c == 0 then {} else if c == 1 then {1} else if c == 2 then {2} else if c == 3 then {1, 2}
    else if c == 4 then {4} else if c == 5 then {1, 4} else {2, 4}
  }

  predicate One(s: set<int>) {
    s == {1} || s == {2} || s == {4}
  }

  /** Every set of primaries is one of seven. */
  lemma Seven(s: set<int>)
    requires Colour(s)
    ensures s == Parts(Mix(s)) && 0 <= Mix(s) <= 6 && (One(s) <==> |s| == 1) && (One(s) <==> Primary(Mix(s)))
    ensures (|s| == 2 <==> Secondary(Mix(s))) && (s == {} <==> Mix(s) == 0)
  {
    assert s == Parts(Mix(s));
  }

  /** What a pane of s can jump over: an equal pane and, if it is a primary, any primary, of both of which nothing
      is left; and a pane of two primaries one of which is its own, of which the other one is left. */
  predicate JumpsOver(s: set<int>, m: set<int>) {
    m == s || (|s| == 1 && |m| == 1) || (|s| == 1 && |m| == 2 && s < m)
  }

  function Left(s: set<int>, m: set<int>): set<int> {
    if |m| == 1 then {} else m - s
  }

  /** What it can land on: an empty cell, an equal pane, and a primary if it is one. */
  predicate LandsOn(s: set<int>, t: set<int>) {
    t == {} || t == s || (|s| == 1 && |t| == 1)
  }

  lemma NextBySets(s: set<int>, m: set<int>)
    requires Colour(s) && Colour(m)
    ensures NextColour(Mix(s), Mix(m)) == if JumpsOver(s, m) then Mix(Left(s, m)) else -1
  {
    Seven(s);
    Seven(m);
  }

  lemma LandBySets(s: set<int>, t: set<int>)
    requires Colour(s) && Colour(t)
    ensures LandColour(Mix(s), Mix(t)) == if LandsOn(s, t) then Mix(s + t) else -1
  {
    Seven(s);
    Seven(t);
  }

  function PartsAt(b: seq<int>, i: int, j: int): set<int>
    requires IsBoard(b) && OnBoard(i, j)
  {
    Parts(b[Idx(i, j)] % 7)
  }

  /** A held pane jumps to a marked cell an even distance away exactly if it may jump over the one half-way and
      land there. */
  lemma JumpsIff(g: Game, i: int, j: int)
    requires Inv(g) && g.pushed && OnBoard(i, j) && (i != g.cx || j != g.cy)
    ensures Jumps(g, i, j) <==>
            && (i + g.cx) % 2 == 0 && (j + g.cy) % 2 == 0 && g.b[Idx(i, j)] >= 7
            && var s := PartsAt(g.b, g.cx, g.cy);
            JumpsOver(s, PartsAt(g.b, (i + g.cx) / 2, (j + g.cy) / 2)) && LandsOn(s, PartsAt(g.b, i, j))
  {
    hide NextColour, LandColour, JumpsOver, LandsOn, Left, CanJump, Inv, Idx, Next, Land;
    BoardOf(g);
    if (i + g.cx) % 2 == 0 && (j + g.cy) % 2 == 0 {
      ReadAt(g.b, g.cx, g.cy, i, j);
      var s, m, t := PartsAt(g.b, g.cx, g.cy), PartsAt(g.b, (i + g.cx) / 2, (j + g.cy) / 2), PartsAt(g.b, i, j);
      NextBySets(s, m);
      LandBySets(s, t);
      MixedRange(s, m, t);
    }
  }

  lemma MixedRange(s: set<int>, m: set<int>, t: set<int>)
    requires Colour(s) && Colour(m)
    ensures Mix(Left(s, m)) >= 0 && Mix(s + t) >= 0
  {
  }

  lemma ReadAt(b: seq<int>, cx: int, cy: int, i: int, j: int)
    requires IsBoard(b) && OnBoard(cx, cy) && OnBoard(i, j) && (i != cx || j != cy)
    requires (i + cx) % 2 == 0 && (j + cy) % 2 == 0
    ensures OnBoard((i + cx) / 2, (j + cy) / 2)
    ensures Land(b, cx, cy, i - cx, j - cy) == LandColour(b[Idx(cx, cy)] % 7, b[Idx(i, j)] % 7)
    ensures Next(b, cx, cy, (i - cx) / 2, (j - cy) / 2)
         == NextColour(b[Idx(cx, cy)] % 7, b[Idx((i + cx) / 2, (j + cy) / 2)] % 7)
  {
    hide NextColour, LandColour, Idx;
    assert cx + (i - cx) / 2 == (i + cx) / 2 && cy + (j - cy) / 2 == (j + cy) / 2;
  }

  /** A completed jump empties the pane's cell, leaves Left on the one half-way, adds its primaries to the one
      it lands on, and changes no other colour. */
  lemma JumpColours(g: Game, i: int, j: int)
    requires Inv(g) && OnBoard(i, j) && Jumps(g, i, j)
    ensures OnBoard((i + g.cx) / 2, (j + g.cy) / 2)
    ensures var h := Click(g, i, j);
            var from, to, mid := Idx(g.cx, g.cy), Idx(i, j), Idx((i + g.cx) / 2, (j + g.cy) / 2);
            var s := PartsAt(g.b, g.cx, g.cy);
            && IsBoard(h.b) && from != mid && mid != to && to != from
            && h.b[from] % 7 == Mix({})
            && h.b[mid] % 7 == Mix(Left(s, PartsAt(g.b, (i + g.cx) / 2, (j + g.cy) / 2)))
            && h.b[to] % 7 == Mix(s + PartsAt(g.b, i, j))
            && forall k :: 0 <= k < CELLS && k != from && k != mid && k != to ==> h.b[k] % 7 == g.b[k] % 7
  {
    hide NextColour, LandColour, JumpsOver, LandsOn, Left, Lands, Unmarked, Click, Jumped, Idx, Inv, IsBoard;
    BoardOf(g);
    JumpsIff(g, i, j) by { JumpHolds(g, i, j); }
    JumpCells(g, i, j);
    JumpedBoard(g, i, j);
    JumpKeeps(g, i, j);
    BoardOf(Click(g, i, j));
    var h := Click(g, i, j);
    var from, to, mid := Idx(g.cx, g.cy), Idx(i, j), Idx((i + g.cx) / 2, (j + g.cy) / 2);
    var s, m, t := Parts(g.b[from] % 7), Parts(g.b[mid] % 7), Parts(g.b[to] % 7);
    NextBySets(s, m);
    LandBySets(s, t);
    InRange(s, m, t);
    var b := Jumped(g, i, j).b;
    assert forall k :: 0 <= k < CELLS ==> h.b[k] % 7 == Colours(h.b)[k] == Colours(b)[k] == b[k] % 7;
  }

  lemma JumpHolds(g: Game, i: int, j: int)
    requires Inv(g) && OnBoard(i, j) && Jumps(g, i, j)
    ensures g.pushed && (i != g.cx || j != g.cy)
  {
  }

  lemma InRange(s: set<int>, m: set<int>, t: set<int>)
    requires Colour(s) && Colour(m) && Colour(t) && LandsOn(s, t)
    ensures 0 <= Mix(Left(s, m)) <= 6 && 0 <= Mix(s + t) <= 6 && Mix({}) == 0
  {
    Seven(s);
    Seven(m);
    Seven(t);
  }

  /** Some cell that does not read as empty may jump over one of its eight neighbours. */
  lemma MoreMovesIff(b: seq<int>)
    requires IsBoard(b)
    ensures MoreMoves(b) <==>
            exists i, j, x, y :: OnBoard(i, j) && b[Idx(i, j)] != 0 && -1 <= x <= 1 && -1 <= y <= 1 &&
                                 CanJump(b, i, j, x, y)
  {
    hide CanJump, Idx;
    if i, j, x, y :| OnBoard(i, j) && b[Idx(i, j)] != 0 && -1 <= x <= 1 && -1 <= y <= 1 && CanJump(b, i, j, x, y) {
      var n: nat := 3 * (x + 1) + (y + 1);
      assert DirX(n) == x && DirY(n) == y;
    }
  }

  /** When a pane may jump in a direction. */
  lemma CanJumpIff(b: seq<int>, i: int, j: int, x: int, y: int)
    requires IsBoard(b) && OnBoard(i, j)
    ensures CanJump(b, i, j, x, y) <==>
            && (x != 0 || y != 0) && OnBoard(i + x, j + y) && OnBoard(i + 2 * x, j + 2 * y)
            && var s := PartsAt(b, i, j);
            JumpsOver(s, PartsAt(b, i + x, j + y)) && LandsOn(s, PartsAt(b, i + 2 * x, j + 2 * y))
  {
    hide NextColour, LandColour, JumpsOver, LandsOn, Left, Idx;
    if OnBoard(i + x, j + y) && OnBoard(i + 2 * x, j + 2 * y) {
      var s, m, t := PartsAt(b, i, j), PartsAt(b, i + x, j + y), PartsAt(b, i + 2 * x, j + 2 * y);
      NextBySets(s, m);
      LandBySets(s, t);
      MixedRange(s, m, t);
    }
  }
}
