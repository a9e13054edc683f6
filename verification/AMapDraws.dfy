/** What the gestures draw. */
module AMapDraws {
  import opened Curve
  import opened AMap

  /** The value at height y of the window, whose top is row 0; below the window it is the lowest. */
  function Level(h: int, y: int): int {
    if y >= h then 0 else h - 1 - y
  }

  /** Points that were set stay as they are, and only the window's ends may join them. */
  predicate Keeps(s: State, t: State, w: int) {
    && |t.p| == |s.p| && t.left == s.left
    && (forall k :: 0 <= k < |s.p| && s.p[k].flag ==> t.p[k] == s.p[k])
    && forall k :: 0 <= k < |s.p| && t.p[k].flag ==> s.p[k].flag || k == s.left || k == s.left + w - 1
  }

  /** The same, but for the point k, which is now q. */
  predicate KeepsBut(s: State, t: State, w: int, k: int, q: Point) {
    && |t.p| == |s.p| && t.left == s.left && 0 <= k < |s.p| && t.p[k] == q
    && (forall j :: 0 <= j < |s.p| && j != k && s.p[j].flag ==> t.p[j] == s.p[j])
    && forall j :: 0 <= j < |s.p| && j != k && t.p[j].flag ==> s.p[j].flag || j == s.left || j == s.left + w - 1
  }

  lemma EndKept(p: seq<Point>, k: int)
    requires Ends(p) && 0 <= k < |p|
    ensures forall j :: 0 <= j < |p| && p[j].flag ==> WithEnd(p, k)[j] == p[j]
  {
    hide Interpolated;
    forall j | 0 <= j < |p| && p[j].flag
      ensures WithEnd(p, k)[j] == p[j]
    {
      AtSet(p, j);
    }
  }

  lemma LeftKeeps(s: State, w: int)
    requires Fits(s, w) && Inner(w, s.cur)
    ensures Keeps(s, AnchoredLeft(s, w), w)
  {
    hide NearLeft, WithEnd, Ends;
    EndKept(s.p, s.left);
  }

  lemma RightKeeps(s: State, w: int)
    requires Fits(s, w) && Inner(w, s.cur)
    ensures Keeps(s, AnchoredRight(s, w), w)
  {
    hide NearRight, WithEnd, Ends;
    EndKept(s.p, s.left + w - 1);
  }

  lemma TakenKeeps(s: State, w: int, mode: int, x: int)
    requires Fits(s, w) && 0 <= x < w
    ensures var t := Taken(s, w, mode, x); Fits(t, w) && Keeps(s, t, w) && t.cur == Grip(s, w, mode, x)
  {
    hide AnchoredLeft, AnchoredRight, Ends, Grip;
    var a := s.(cur := Grip(s, w, mode, x));
    if ADD <= mode <= MOVE && Inner(w, a.cur) {
      LeftKeeps(a, w);
      RightKeeps(AnchoredLeft(a, w), w);
    }
  }

  /** Some point from a on is set, before b. */
  predicate SetIn(p: seq<Point>, a: int, b: int)
    requires 0 <= a && b <= |p|
  {
    exists k :: a <= k < b && p[k].flag
  }

  /** The ends of the window become set points, where the curve is, exactly if there is no set point between them
      and an inner grip. */
  lemma AnchorsSet(s: State, w: int)
    requires Fits(s, w) && Inner(w, s.cur)
    ensures var t := AnchoredLeft(s, w);
            if SetIn(s.p, s.left + 1, s.left + s.cur) then t.p == s.p
            else t.lo == 0 && t.p[s.left] == Point(ValueAt(s.p, s.left), true)
    ensures var t := AnchoredRight(s, w);
            if SetIn(s.p, s.left + s.cur + 1, s.left + w - 1) then t.p == s.p
            else t.hi == w - 1 && t.p[s.left + w - 1] == Point(ValueAt(s.p, s.left + w - 1), true)
  {
    hide ValueAt, Ends, NearLeft, NearRight, SetIn, Flagged;
    SetLeft(s, w);
    SetRight(s, w);
    EndIs(s.p, s.left);
    EndIs(s.p, s.left + w - 1);
  }

  lemma EndIs(p: seq<Point>, k: int)
    requires Ends(p) && 0 <= k < |p|
    ensures WithEnd(p, k)[k] == Point(ValueAt(p, k), true)
  {
  }

  lemma SetLeft(s: State, w: int)
    requires Fits(s, w) && Inner(w, s.cur)
    ensures NearLeft(s.p, s.left, s.cur - 1) > 0 <==> SetIn(s.p, s.left + 1, s.left + s.cur)
  {
    hide NearLeft;
    var l := NearLeft(s.p, s.left, s.cur - 1);
    if l > 0 {
      assert s.p[s.left + l].flag;
    }
  }

  lemma SetRight(s: State, w: int)
    requires Fits(s, w) && Inner(w, s.cur)
    ensures NearRight(s.p, s.left, w, s.cur + 1) < w - 1 <==> SetIn(s.p, s.left + s.cur + 1, s.left + w - 1)
  {
    hide NearRight;
    var r := NearRight(s.p, s.left, w, s.cur + 1);
    if r < w - 1 {
      assert s.p[s.left + r].flag;
    }
  }

  /** Letting go is a last drag, after which nothing is held: no range for the grip, no anchor for a slide. */
  lemma ReleaseDrags(s: State, w: int, h: int, mode: int, x: int, y: int)
    requires Draggable(s, w, mode, x) && mode != DEL && mode != NOACTION && s.down
    ensures var t, d := Released(s, w, h, mode, x, y), Dragged(s, w, h, mode, x, y);
            && t.p == d.p && t.left == d.left && t.cur == d.cur && !t.down
            && ((mode == ADD || mode == MOVE) && Inner(w, s.cur) ==> t.lo == -1 && t.hi == w + 1)
            && (mode == SLIDE ==> t.oldEdge == t.anchor == 0)
            && (mode != SLIDE ==> t.oldEdge == s.oldEdge && t.anchor == s.anchor)
  {
    hide Interpolated;
  }

  /** Adding sets a point in the pointer's column, at its height; on a set point nothing happens. */
  lemma PressAdds(s: State, w: int, h: int, x: int, y: int)
    requires Fits(s, w) && 0 <= x < w
    ensures s.p[s.left + x].flag ==> Pressed(s, w, h, ADD, x, y) == s
    ensures !s.p[s.left + x].flag ==>
              var t := Pressed(s, w, h, ADD, x, y);
              KeepsBut(s, t, w, s.left + x, Point(Level(h, y), true)) && t.cur == x && t.down
  {
    hide Taken, Ends, Lifted;
    TakenKeeps(s, w, ADD, x);
    TakenFits(s, w, ADD, x);
    NotLifted(Taken(s, w, ADD, x), w, ADD, x);
  }

  lemma NotLifted(s: State, w: int, mode: int, x: int)
    requires Fits(s, w) && (mode == ADD || !Inner(w, s.cur))
    ensures Lifted(s, w, mode, x) == s
  {
  }

  /** Deleting unsets the set point nearest to the pointer, if it is not an end of the window. */
  lemma PressDeletes(s: State, w: int, h: int, x: int, y: int)
    requires Fits(s, w) && 0 <= x < w
    ensures var t, c := Pressed(s, w, h, DEL, x, y), Grip(s, w, DEL, x);
            && t.down
            && if Inner(w, c) then 0 <= s.left + c < |s.p| && |t.p| == |s.p| && !t.p[s.left + c].flag &&
                                   KeepsBut(s, t, w, s.left + c, t.p[s.left + c]) && t.cur == x
               else Keeps(s, t, w)
  {
    hide Taken, Ends, Grip;
    TakenKeeps(s, w, DEL, x);
    TakenFits(s, w, DEL, x);
  }

  /** Moving takes the nearest set point to the pointer; an end of the window only changes its height. */
  lemma PressMoves(s: State, w: int, h: int, x: int, y: int)
    requires Fits(s, w) && 0 <= x < w
    ensures var t, c := Pressed(s, w, h, MOVE, x, y), Grip(s, w, MOVE, x);
            && t.down && |t.p| == |s.p| && 0 <= s.left + x < |s.p| && 0 <= s.left + c < |s.p| && t.left == s.left
            && if Inner(w, c) then
                 && t.p[s.left + x] == Point(Level(h, y), true) && (c != x ==> !t.p[s.left + c].flag) && t.cur == x
                 && forall j :: 0 <= j < |s.p| && j != s.left + x && j != s.left + c && s.p[j].flag ==> t.p[j] == s.p[j]
               else KeepsBut(s, t, w, s.left + c, Point(Level(h, y), true)) && t.cur == c
  {
    hide Taken, Ends, Grip;
    TakenKeeps(s, w, MOVE, x);
    TakenFits(s, w, MOVE, x);
  }

  /** The nearest set point, an end of the window counting as one, the right one of two equally near. */
  lemma NearestGrip(s: State, w: int, mode: int, x: int, k: int)
    requires Fits(s, w) && 0 <= x < w && (mode == MOVE || mode == DEL)
    requires 0 <= k < w && (s.p[s.left + k].flag || !Inner(w, k))
    ensures var c := Grip(s, w, mode, x);
            && (s.p[s.left + c].flag || !Inner(w, c)) && Gap(x, c) <= Gap(x, k) && (Gap(x, c) == Gap(x, k) ==> c >= k)
  {
    hide Ends;
  }

  function Gap(a: int, b: int): int {
    if a <= b then b - a else a - b
  }

  /** A drag takes an inner point along, between its neighbours, at the pointer's height; the other set points stay. */
  lemma DragMoves(s: State, w: int, h: int, mode: int, x: int, y: int)
    requires h >= 1 && Fits(s, w) && Grips(s, w) && s.down && (mode == ADD || mode == MOVE) && Inner(w, s.cur)
    ensures Draggable(s, w, mode, x)
    ensures var t, c := Dragged(s, w, h, mode, x, y), s.left + Target(s, x);
            && s.lo < Target(s, x) < s.hi && (s.lo < x < s.hi ==> Target(s, x) == x)
            && |t.p| == |s.p| && 0 <= c < |s.p| && t.p[c] == Point(Level(h, if y < 0 then 0 else y), true)
            && t.cur == Target(s, x) && t.left == s.left
            && (forall j :: 0 <= j < |s.p| && j != c && j != s.left + s.cur ==> t.p[j].flag == s.p[j].flag)
            && (forall j :: 0 <= j < |s.p| && j != c && j != s.left + s.cur && s.p[j].flag ==> t.p[j] == s.p[j])
            && (s.left + s.cur != c ==> !t.p[s.left + s.cur].flag)
  {
    hide Interpolated, Ends;
    GoodGrip(s, w, mode, x, true);
    var v := h - Clamp(0, y, h - 1) - 1;
    var q := Moved(s, x, v);
    MovedEnds(s, x, v);
    forall j | 0 <= j < |q| && q[j].flag
      ensures Interpolated(q)[j] == q[j]
    {
      AtSet(q, j);
    }
    FlagsKept(q);
  }

  lemma MovedEnds(s: State, x: int, v: int)
    requires Reaches(s, x) && Ends(Moved(s, x, 0))
    ensures Ends(Moved(s, x, v))
  {
  }

  lemma FlagsKept(q: seq<Point>)
    requires Ends(q)
    ensures forall j :: 0 <= j < |q| ==> Interpolated(q)[j].flag == q[j].flag
  {
  }

  /** An end of the window changes its height and nothing else. */
  lemma DragRaises(s: State, w: int, h: int, mode: int, x: int, y: int)
    requires h >= 1 && Fits(s, w) && s.down && (mode == ADD || mode == MOVE) && !Inner(w, s.cur)
    ensures Draggable(s, w, mode, x)
    ensures var c := s.left + s.cur;
            0 <= c < |s.p| &&
            Dragged(s, w, h, mode, x, y) == s.(p := s.p[c := s.p[c].(v := Level(h, if y < 0 then 0 else y))])
  {
  }

  /** Sliding moves the window against the pointer, as far as the map goes. */
  lemma DragSlides(s: State, w: int, h: int, x: int, y: int, x': int, y': int)
    requires Fits(s, w) && 0 <= x < w
    ensures var t := Pressed(s, w, h, SLIDE, x, y);
            var e := s.left + (x - x');
            && Draggable(t, w, SLIDE, x')
            && Dragged(t, w, h, SLIDE, x', y').p == s.p
            && Dragged(t, w, h, SLIDE, x', y').left == if e < 0 then 0 else if e > 2 * w - 1 then 2 * w - 1 else e
  {
  }

  // ---------- Setting the whole map ----------

  /** A cleared map is lowest up to the left end of the middle window, highest from its right end on, and in
      between it rises evenly, fractions dropped. */
  lemma ClearedCurve(s: State, w: int, h: int, k: int)
    requires w >= 2 && h >= 1 && |s.p| == 3 * w && 0 <= k < 3 * w
    ensures var t := Cleared(s, w, h);
            && t.left == w && |t.p| == 3 * w
            && (k <= w ==> t.p[k].v == 0) && (k >= 2 * w - 1 ==> t.p[k].v == h - 1)
            && (w < k < 2 * w - 1 ==>
                  t.p[k].v * (w - 1) <= (k - w) * (h - 1) < (t.p[k].v + 1) * (w - 1))
            && (t.p[k].flag <==> k == 0 || k == w || k == 2 * w - 1 || k == 3 * w - 1)
  {
    var q := ClearedPoints(s, w, h);
    hide Interpolated, Cleared;
    FlagsKept(q);
    if q[k].flag {
      AtSet(q, k);
    } else if k < w {
      FlatBetween(q, 0, k, w);
    } else if k < 2 * w - 1 {
      Ramp(q, w, h, k);
    } else {
      FlatBetween(q, 2 * w - 1, k, 3 * w - 1);
    }
  }

  lemma ClearedPoints(s: State, w: int, h: int) returns (q: seq<Point>)
    requires w >= 2 && |s.p| == 3 * w
    ensures |q| == 3 * w && Ends(q) && Cleared(s, w, h) == s.(p := Interpolated(q), left := w)
    ensures forall k :: 0 <= k < 3 * w ==> (q[k].flag <==> k == 0 || k == w || k == 2 * w - 1 || k == 3 * w - 1)
    ensures q[0].v == 0 && q[w].v == 0 && q[2 * w - 1].v == h - 1 && q[3 * w - 1].v == h - 1
  {
    hide Interpolated;
    q := Unset(s.p)[0 := Point(0, true)][w := Point(0, true)]
      [2 * w - 1 := Point(h - 1, true)][3 * w - 1 := Point(h - 1, true)];
  }

  lemma Ramp(q: seq<Point>, w: int, h: int, k: nat)
    requires w >= 2 && h >= 1 && |q| == 3 * w && Ends(q) && w < k < 2 * w - 1
    requires forall j :: 0 <= j < 3 * w ==> (q[j].flag <==> j == 0 || j == w || j == 2 * w - 1 || j == 3 * w - 1)
    requires q[w].v == 0 && q[2 * w - 1].v == h - 1
    ensures var v := Interpolated(q)[k].v; v * (w - 1) <= (k - w) * (h - 1) < (v + 1) * (w - 1)
  {
    hide Interpolated;
    WholeValue(q, w, k, 2 * w - 1);
    assert (k - w) * (h - 1) >= 0;
  }

  /** Between two set points of the same height the curve is flat. */
  lemma FlatBetween(q: seq<Point>, f: nat, k: nat, e: nat)
    requires Ends(q) && f < k < e < |q| && q[f].flag && q[e].flag && q[f].v == q[e].v
    requires forall j :: f < j < e ==> !q[j].flag
    ensures Interpolated(q)[k].v == q[f].v
  {
    hide Interpolated;
    BetweenNeighbours(q, k);
    NeighboursAre(q, k, f, e);
  }

  /** One value makes a flat curve, set at its ends and at those of the window. */
  lemma SpreadOne(s: State, w: int, v: int, k: int)
    requires Fits(s, w) && 0 <= k < 3 * w
    ensures var t := Spread(s, w, [v]);
            && t.left == w - 1 && |t.p| == 3 * w && t.p[k].v == v
            && (t.p[k].flag <==> k in {0, w - 1, 2 * w - 2, 3 * w - 1})
  {
    hide Interpolated;
    var q := FlatPoints(w, v);
    FlagsKept(q);
    BetweenNeighbours(q, k);
  }

  /** More values: outside the window the curve goes on flat from its ends. */
  lemma SpreadOutside(s: State, w: int, data: seq<int>, k: int)
    requires Fits(s, w) && 2 <= |data| <= w && 0 <= k < 3 * w && (k < w - 1 || k > 2 * w - 2)
    ensures var t := Spread(s, w, data);
            && t.left == w - 1 && |t.p| == 3 * w
            && (k == 0 ==> t.p[k] == Point(data[0], true))
            && (k > 2 * w - 2 ==> t.p[k].v == data[|data| - 1] && (t.p[k].flag <==> k == 3 * w - 1))
            && (0 < k < w - 1 ==> !t.p[k].flag)
  {
    hide Interpolated, SetPoints, Spacing;
    var n, off := |data|, Spacing(w, |data|);
    var q := SetPoints(s.p, w, data, off);
    OutsidePoints(s.p, w, data, off, q);
    FlagsKept(q);
    if q[k].flag {
      AtSet(q, k);
    } else if k > 2 * w - 2 {
      FlatBetween(q, 2 * w - 2, k, 3 * w - 1);
    }
  }

  lemma OutsidePoints(p: seq<Point>, w: int, data: seq<int>, off: int, q: seq<Point>)
    requires |p| == 3 * w && 2 <= |data| <= w && off >= 1 && off * |data| <= w && q == SetPoints(p, w, data, off)
    ensures q[0] == Point(data[0], true)
    ensures q[2 * w - 2] == q[3 * w - 1] == Point(data[|data| - 1], true)
    ensures forall k :: 0 < k < w - 1 || 2 * w - 2 < k < 3 * w - 1 ==> !q[k].flag
  {
    hide Unset, Columns;
    var n := |data|;
    var u := Unset(p)[w - 1 := Point(data[0], true)];
    Further(off, n - 1, n);
    forall k | 0 < k < w - 1 || 2 * w - 2 < k < 3 * w - 1
      ensures !q[k].flag
    {
      UnsetAt(p, k);
      ColumnsBefore(u, w - 1, off, data, n - 2, k);
    }
  }

  lemma UnsetAt(p: seq<Point>, k: int)
    requires 0 <= k < |p|
    ensures !Unset(p)[k].flag
  {
  }

  /** Columns stay within the window. */
  lemma {:induction false} ColumnsBefore(p: seq<Point>, left: int, off: int, data: seq<int>, i: int, k: int)
    requires 0 <= left && off >= 1 && 0 <= i < |data| && left + off * |data| <= |p|
    requires 0 <= k < |p| && (k < left || k >= left - 1 + off * (i + 1))
    ensures Columns(p, left, off, data, i)[k] == p[k]
  {
    if i > 0 {
      ColumnWithin(left, off, |data|, i);
      Further(off, i, i + 1);
      ColumnsBefore(p, left, off, data, i - 1, k);
    }
  }

  /** Two values are those at the ends of the window. */
  lemma SpreadTwo(s: State, w: int, data: seq<int>)
    requires Fits(s, w) && |data| == 2 <= w
    ensures var t := Spread(s, w, data);
            && t.left == w - 1 && t.p[t.left] == Point(data[0], true) && t.p[t.left + w - 1] == Point(data[1], true)
  {
    hide Interpolated, Unset;
    var q := SetPoints(s.p, w, data, Spacing(w, 2));
    AtSet(q, w - 1);
    AtSet(q, w - 1 + w - 1);
  }
}
