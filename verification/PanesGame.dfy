/** The game of Panes in place: the cells, the held pane and the stack of jumps. Each operation does to
    them what the functions of Panes say. */
module PanesGame {
  import opened Panes

  /** What a click or an undo leaves: of no use when no pane is held is where the last one was. */
  predicate Alike(g: Game, h: Game) {
    && g.b == h.b && g.pushed == h.pushed && g.moves == h.moves && g.stack == h.stack
    && (g.pushed ==> g.cx == h.cx && g.cy == h.cy)
  }

  class PanesGame {
    const state: array<int>
    var cx: int
    var cy: int
    var pushed: bool
    var moves: int
    var head: seq<Entry>

    ghost function Abs(): Game
      reads this, state
    {
      Game(state[..], cx, cy, pushed, moves, head)
    }

    ghost predicate Valid()
      reads this, state
    {
      Inv(Abs())
    }

    constructor (colours: seq<int>)
      requires |colours| == CELLS && forall k :: 0 <= k < CELLS ==> 1 <= colours[k] <= 6
      ensures Valid() && Clean(Abs()) && state[..] == colours && fresh(state) && moves == 0
    {
      state := new int[CELLS](i requires 0 <= i < CELLS => colours[i]);
      cx, cy, pushed, moves, head := 0, 0, false, 0, [];
      new;
      assert state[..] == colours;
      NewGame(colours);
    }

    method UpdateCell(k: nat, v: int)
      requires IsBoard(state[..]) && k < CELLS
      modifies state
      ensures state[..] == Update(old(state[..]), k, v)
    {
      if 0 <= v < MAXSTATE {
        state[k] := v;
      }
    }

    method Set(i: int, j: int)
      requires IsBoard(state[..])
      modifies state
      ensures state[..] == SetAt(old(state[..]), i, j)
    {
      if OnBoard(i, j) {
        UpdateCell(Idx(i, j), state[Idx(i, j)] + 7);
      }
    }

    method Clear(i: int, j: int)
      requires IsBoard(state[..])
      modifies state
      ensures state[..] == ClearAt(old(state[..]), i, j)
    {
      if OnBoard(i, j) {
        UpdateCell(Idx(i, j), state[Idx(i, j)] % 7);
      }
    }

    /** Next and Land from the cell (cx, cy). */
    method Check(x: int, y: int) returns (can: bool)
      requires IsBoard(state[..]) && OnBoard(cx, cy)
      ensures can <==> CanJump(state[..], cx, cy, x, y)
    {
      can := Next(state[..], cx, cy, x, y) != -1 && Land(state[..], cx, cy, 2 * x, 2 * y) != -1;
    }

    method MarkTargets(i: int, j: int) returns (count: nat)
      requires IsBoard(state[..]) && OnBoard(cx, cy) && i == cx && j == cy
      modifies state
      ensures (state[..], count) == Targets(old(state[..]), cx, cy, 9)
    {
      hide CanJump, SetAt, Targets, IsBoard;
      count := 0;
      ghost var b := state[..];
      NoTargets(b, cx, cy);
      for x := -1 to 2
        invariant IsBoard(state[..]) && (state[..], count) == Targets(b, cx, cy, 3 * (x + 1))
      {
        for y := -1 to 2
          invariant IsBoard(state[..]) && (state[..], count) == Targets(b, cx, cy, 3 * (x + 1) + (y + 1))
        {
          TargetsStep(b, cx, cy, x, y);
          var can := Check(x, y);
          if can {
            Set(i + x * 2, j + y * 2);
            count := count + 1;
          }
        }
      }
    }

    method ClearAround()
      requires IsBoard(state[..])
      modifies state
      ensures state[..] == Unmarked(old(state[..]), cx, cy, 9)
    {
      hide ClearAt, Unmarked, IsBoard;
      ghost var b := state[..];
      NothingUnmarked(b, cx, cy);
      for x := -1 to 2
        invariant IsBoard(state[..]) && state[..] == Unmarked(b, cx, cy, 3 * (x + 1))
      {
        for y := -1 to 2
          invariant IsBoard(state[..]) && state[..] == Unmarked(b, cx, cy, 3 * (x + 1) + (y + 1))
        {
          UnmarkedStep(b, cx, cy, x, y);
          Clear(cx + x * 2, cy + y * 2);
        }
      }
    }

    method Take(i: int, j: int)
      requires Valid() && !pushed && OnBoard(i, j)
      modifies this, state
      ensures Valid() && Abs() == Pick(old(Abs()), i, j)
    {
      hide CanJump, SetAt, Targets, EntryOk;
      PickKeeps(Abs(), i, j);
      if state[Idx(i, j)] == 0 {
        return;
      }
      cx, cy := i, j;
      var count := MarkTargets(i, j);
      if count == 0 {
        NothingMarked(old(state[..]), i, j, 9);
        return;
      }
      pushed := true;
      Set(i, j);
      Set(i, j);
    }

    method Jump(i: int, j: int)
      requires Valid() && OnBoard(i, j) && Lands(Abs(), i, j)
      modifies this, state
      ensures Abs() == Jumped(old(Abs()), i, j)
    {
      hide Next, Land, Lands, EntryOk, Update, Idx, Inv, IsBoard;
      BoardOf(Abs());
      JumpCells(Abs(), i, j);
      var land, next := Land(state[..], cx, cy, i - cx, j - cy), Next(state[..], cx, cy, (i - cx) / 2, (j - cy) / 2);
      var from, to, mid := Idx(cx, cy), Idx(i, j), Idx((i + cx) / 2, (j + cy) / 2);
      Push(Entry(cx, cy, i, j, state[from], state[mid], state[to]));
      moves := moves + 1;
      UpdateCell(to, land);
      UpdateCell(mid, next);
      UpdateCell(from, 0);
    }

    method Push(e: Entry)
      modifies `head
      ensures head == [e] + old(head)
    {
      head := [e] + head;
    }

    /** A click on a cell; it is refused or it is carried out. The game is over when no pane can jump. */
    method Action(i: int, j: int) returns (accepted: bool, over: bool)
      requires Valid() && OnBoard(i, j)
      modifies this, state
      ensures Valid() && Alike(Abs(), Click(old(Abs()), i, j))
      ensures over <==> accepted && !MoreMoves(state[..])
      ensures !accepted ==> state[..] == old(state[..]) && pushed == old(pushed)
    {
      hide CanJump, EntryOk, Lands, Pick, Jumped, Unmarked, Inv, MoreMoves;
      ClickKeeps(Abs(), i, j);
      var refused := Act(i, j);
      accepted, over := !refused, false;
      if pushed { HeldMoves(Abs()); }
      if accepted {
        var more := LookForMoves();
        over := !more;
      }
    }

    method Act(i: int, j: int) returns (refused: bool)
      requires Valid() && OnBoard(i, j)
      modifies this, state
      ensures Valid() && Abs() == Click(old(Abs()), i, j)
      ensures refused ==> state[..] == old(state[..]) && pushed == old(pushed)
    {
      hide CanJump, EntryOk, Jumped, Unmarked, Targets, SetAt;
      ClickKeeps(Abs(), i, j);
      refused := false;
      if !pushed {
        Take(i, j);
        refused := !pushed;
      } else {
        if i != cx || j != cy {
          var lands := MayLand(i, j);
          if !lands {
            return true;
          }
          Jump(i, j);
          JumpKeeps(old(Abs()), i, j);
          JumpedMarks(old(Abs()), i, j);
        }
        ClearAround();
        pushed := false;
      }
    }

    method MayLand(i: int, j: int) returns (lands: bool)
      requires Valid() && OnBoard(i, j)
      ensures lands <==> Lands(Abs(), i, j)
    {
      lands := (i + cx) % 2 == 0 && (j + cy) % 2 == 0 && state[Idx(i, j)] >= 7
        && Land(state[..], cx, cy, i - cx, j - cy) >= 0 && Next(state[..], cx, cy, (i - cx) / 2, (j - cy) / 2) >= 0;
    }

    method Undo()
      requires Valid()
      modifies this, state
      ensures Valid() && Abs() == Panes.Undo(old(Abs()))
    {
      hide CanJump, EntryOk, Unmarked, Update, Undone;
      UndoKeeps(Abs());
      ghost var g := Abs();
      if head == [] {
        return;
      }
      var e := head[0];
      head := head[1..];
      moves := moves - 1;
      if pushed {
        ClearAround();
        pushed := false;
      }
      assert e == g.stack[0];
      UndoneIs(state[..], e);
      UpdateCell(Idx(e.x1, e.y1), e.current);
      UpdateCell(Idx(e.x2, e.y2), e.land);
      UpdateCell(Idx((e.x1 + e.x2) / 2, (e.y1 + e.y2) / 2), e.next);
    }

    /** Try all cells in turn. The search moves (cx, cy), and puts it back if it finds a jump. */
    method LookForMoves() returns (more: bool)
      requires Valid()
      modifies `cx, `cy
      ensures more <==> MoreMoves(state[..])
      ensures Valid() && (more ==> cx == old(cx) && cy == old(cy))
    {
      hide CanJump, EntryOk;
      ghost var g := Abs();
      var keptX, keptY := cx, cy;
      if pushed { HeldMoves(g); }
      for j := 0 to MAXY
        invariant OnBoard(cx, cy)
        invariant forall i', j', n: nat :: OnBoard(i', j') && j' < j && n < 9 && g.b[Idx(i', j')] != 0 ==>
                  !CanJump(g.b, i', j', DirX(n), DirY(n))
      {
        for i := 0 to MAXX
          invariant OnBoard(cx, cy)
          invariant forall i', n: nat :: OnBoard(i', j) && i' < i && n < 9 && g.b[Idx(i', j)] != 0 ==>
                    !CanJump(g.b, i', j, DirX(n), DirY(n))
        {
          if state[Idx(i, j)] != 0 {
            cx, cy := i, j;
            var some := SomeJump();
            if some {
              cx, cy := keptX, keptY;
              return true;
            }
          }
        }
      }
      more := false;
    }

    method SomeJump() returns (some: bool)
      requires IsBoard(state[..]) && OnBoard(cx, cy)
      ensures some <==> exists n: nat :: n < 9 && CanJump(state[..], cx, cy, DirX(n), DirY(n))
    {
      hide CanJump, IsBoard;
      for x := -1 to 2
        invariant forall n: nat :: n < 3 * (x + 1) ==> !CanJump(state[..], cx, cy, DirX(n), DirY(n))
      {
        for y := -1 to 2
          invariant forall n: nat :: n < 3 * (x + 1) + (y + 1) ==> !CanJump(state[..], cx, cy, DirX(n), DirY(n))
        {
          Direction(x, y);
          var can := Check(x, y);
          if can {
            return true;
          }
        }
      }
      some := false;
    }
  }

  lemma Direction(x: int, y: int)
    requires -1 <= x <= 1 && -1 <= y <= 1
    ensures DirX(3 * (x + 1) + (y + 1)) == x && DirY(3 * (x + 1) + (y + 1)) == y
  {
  }

  lemma TargetsStep(b: seq<int>, cx: int, cy: int, x: int, y: int)
    requires IsBoard(b) && OnBoard(cx, cy) && -1 <= x <= 1 && -1 <= y <= 1
    ensures var n := 3 * (x + 1) + (y + 1);
            var (c, count) := Targets(b, cx, cy, n);
            Targets(b, cx, cy, n + 1)
            == if CanJump(c, cx, cy, x, y) then (SetAt(c, cx + 2 * x, cy + 2 * y), count + 1) else (c, count)
  {
    hide CanJump, SetAt, Targets, IsBoard, DirX, DirY;
    Direction(x, y);
    TargetsNext(b, cx, cy, 3 * (x + 1) + (y + 1));
  }

  lemma TargetsNext(b: seq<int>, cx: int, cy: int, n: nat)
    requires IsBoard(b) && OnBoard(cx, cy) && n < 9
    ensures var (c, count) := Targets(b, cx, cy, n);
            Targets(b, cx, cy, n + 1)
            == if CanJump(c, cx, cy, DirX(n), DirY(n)) then (SetAt(c, cx + 2 * DirX(n), cy + 2 * DirY(n)), count + 1)
               else (c, count)
  {
    hide CanJump, SetAt, IsBoard, DirX, DirY;
  }

  lemma NoTargets(b: seq<int>, cx: int, cy: int)
    requires IsBoard(b) && OnBoard(cx, cy)
    ensures Targets(b, cx, cy, 0) == (b, 0)
  {
  }

  lemma {:induction false} NothingMarked(b: seq<int>, cx: int, cy: int, n: nat)
    requires IsBoard(b) && OnBoard(cx, cy) && n <= 9 && Targets(b, cx, cy, n).1 == 0
    ensures Targets(b, cx, cy, n).0 == b
  {
    hide CanJump;
    if n > 0 {
      NothingMarked(b, cx, cy, n - 1);
    }
  }

  lemma UnmarkedStep(b: seq<int>, cx: int, cy: int, x: int, y: int)
    requires IsBoard(b) && -1 <= x <= 1 && -1 <= y <= 1
    ensures var n := 3 * (x + 1) + (y + 1);
            Unmarked(b, cx, cy, n + 1) == ClearAt(Unmarked(b, cx, cy, n), cx + 2 * x, cy + 2 * y)
  {
    Direction(x, y);
  }

  lemma NothingUnmarked(b: seq<int>, cx: int, cy: int)
    requires IsBoard(b)
    ensures Unmarked(b, cx, cy, 0) == b
  {
  }

  lemma UndoneIs(b: seq<int>, e: Entry)
    requires IsBoard(b) && EntryOk(e)
    ensures OnBoard(e.x1, e.y1) && OnBoard(e.x2, e.y2) && OnBoard((e.x1 + e.x2) / 2, (e.y1 + e.y2) / 2)
    ensures Undone(b, e)
         == Update(Update(Update(b, Idx(e.x1, e.y1), e.current), Idx(e.x2, e.y2), e.land),
                   Idx((e.x1 + e.x2) / 2, (e.y1 + e.y2) / 2), e.next)
  {
  }
}
