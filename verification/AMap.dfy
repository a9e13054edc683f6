/** The association map and its gestures. */
module AMap {
  import opened Curve

  const NOACTION := 0
  const ADD := 1
  const DEL := 2
  const MOVE := 3
  const SLIDE := 4

  /** The points, three windows wide, the window's left edge, and what a gesture keeps between events. */
  datatype State = State(p: seq<Point>, left: int, lo: int, hi: int, cur: int, anchor: int, oldEdge: int, down: bool)

  predicate Inner(w: int, x: int) {
    x != 0 && x != w - 1
  }

  /** Ends set, window and grip within the points. */
  predicate Fits(s: State, w: int) {
    w >= 1 && |s.p| == 3 * w && Ends(s.p) && 0 <= s.left <= 2 * w - 1 && 0 <= s.cur < w
  }

  /** The grip is a window end or has a range to move in. */
  predicate Grips(s: State, w: int) {
    !Inner(w, s.cur) || 0 <= s.lo < s.cur < s.hi <= w - 1
  }

  /** While the button counts as down the grip is good, unless a gesture in progress does not use it. */
  predicate Ok(s: State, w: int, mode: int, held: bool) {
    Fits(s, w) && (s.down ==> (held && !(NOACTION <= mode <= MOVE)) || Grips(s, w))
  }

  // ---------- Gestures ----------

  /** The nearest set point of the window at or left of x, or its left end. */
  function NearLeft(p: seq<Point>, left: int, x: int): (d: int)
    requires 0 <= left && 0 <= x && left + x < |p|
    ensures 0 <= d <= x && (d > 0 ==> p[left + d].flag) && forall k :: left + d < k <= left + x ==> !p[k].flag
    decreases x
  {
    if x == 0 || p[left + x].flag then x else NearLeft(p, left, x - 1)
  }

  function NearRight(p: seq<Point>, left: int, w: int, x: int): (d: int)
    requires 0 <= left && 0 <= x <= w - 1 && left + w <= |p|
    ensures x <= d <= w - 1 && (d < w - 1 ==> p[left + d].flag) && forall k :: left + x <= k < left + d ==> !p[k].flag
    decreases w - x
  {
    if x == w - 1 || p[left + x].flag then x else NearRight(p, left, w, x + 1)
  }

  function Flagged(p: seq<Point>, k: int, flag: bool): seq<Point>
    requires 0 <= k < |p|
  {
    p[k := p[k].(flag := flag)]
  }

  function Clamp(lo: int, x: int, hi: int): int {
    if x < lo then lo else if x > hi then hi else x
  }

  /** A window end becomes a set point where the curve is. */
  function WithEnd(p: seq<Point>, k: int): (q: seq<Point>)
    requires Ends(p) && 0 <= k < |p|
    ensures |q| == |p| && Ends(q) && q[k].flag && forall j :: 0 <= j < |p| && j != k ==> q[j].flag == p[j].flag
  {
    hide ValueAt;
    Flagged(Interpolated(p), k, true)
  }

  /** The set point left of an inner grip. The window's left end, if it serves as one, is interpolated and set. */
  function AnchoredLeft(s: State, w: int): (t: State)
    requires Fits(s, w) && Inner(w, s.cur)
    ensures Fits(t, w) && 0 <= t.lo < t.cur && t == s.(p := t.p, lo := t.lo)
    ensures forall k :: 0 <= k < |s.p| && k != s.left ==> t.p[k].flag == s.p[k].flag
    ensures forall k :: s.left + t.lo < k < s.left + s.cur ==> !s.p[k].flag
    ensures t.lo == NearLeft(s.p, s.left, s.cur - 1)
  {
    hide NearLeft, WithEnd, Ends;
    var lo := NearLeft(s.p, s.left, s.cur - 1);
    s.(p := if lo == 0 then WithEnd(s.p, s.left) else s.p, lo := lo)
  }

  function AnchoredRight(s: State, w: int): (t: State)
    requires Fits(s, w) && Inner(w, s.cur)
    ensures Fits(t, w) && t.cur < t.hi <= w - 1 && t == s.(p := t.p, hi := t.hi)
    ensures forall k :: 0 <= k < |s.p| && k != s.left + w - 1 ==> t.p[k].flag == s.p[k].flag
    ensures forall k :: s.left + s.cur < k < s.left + t.hi ==> !s.p[k].flag
    ensures t.hi == NearRight(s.p, s.left, w, s.cur + 1)
  {
    hide NearRight, WithEnd, Ends;
    var hi := NearRight(s.p, s.left, w, s.cur + 1);
    s.(p := if hi == w - 1 then WithEnd(s.p, s.left + hi) else s.p, hi := hi)
  }

  function Anchored(s: State, w: int): (t: State)
    requires Fits(s, w) && Inner(w, s.cur)
    ensures Fits(t, w) && 0 <= t.lo < t.cur < t.hi <= w - 1 && t == s.(p := t.p, lo := t.lo, hi := t.hi)
  {
    hide AnchoredLeft, AnchoredRight, Ends;
    AnchoredRight(AnchoredLeft(s, w), w)
  }

  /** What a press takes hold of: a new point, or the set point nearest to x. */
  function Grip(s: State, w: int, mode: int, x: int): (c: int)
    requires Fits(s, w) && 0 <= x < w
    ensures 0 <= c < w
  {
    hide NearLeft, NearRight, Ends;
    if mode == ADD then x
    else if mode == MOVE || mode == DEL then
      var l, r := NearLeft(s.p, s.left, x), NearRight(s.p, s.left, w, x);
      if x - l < r - x then l else r
    else s.cur
  }

  /** The grip with its neighbours set. */
  function Taken(s: State, w: int, mode: int, x: int): State
    requires Fits(s, w) && 0 <= x < w
  {
    hide Anchored, Ends, Grip;
    var a := s.(cur := Grip(s, w, mode, x));
    if ADD <= mode <= MOVE && Inner(w, a.cur) then Anchored(a, w) else a
  }

  /** A point that is deleted or moved is no longer set, unless it is a window end. */
  function Lifted(s: State, w: int, mode: int, x: int): State
    requires Fits(s, w)
  {
    if (mode == DEL || mode == MOVE) && Inner(w, s.cur) then s.(p := Flagged(s.p, s.left + s.cur, false), cur := x)
      else s
  }

  function Placed(s: State, w: int, mode: int, v: int): State
    requires Fits(s, w)
  {
    if mode != DEL then s.(p := s.p[s.left + s.cur := Point(v, true)]) else s
  }

  function Pressed(s: State, w: int, h: int, mode: int, x: int, y0: int): State
    requires Fits(s, w) && 0 <= x < w
  {
    if mode == NOACTION || (mode == ADD && s.p[s.left + x].flag) then s
    else if mode == SLIDE then s.(oldEdge := s.left, anchor := x, down := true)
    else
      var y := if y0 >= h then h - 1 else y0;
      TakenFits(s, w, mode, x);
      Placed(Lifted(Taken(s, w, mode, x), w, mode, x), w, mode, h - y - 1).(down := true)
  }

  /** Points other than the first and the last may be set or not. */
  lemma InnerEnds(p: seq<Point>, k: int)
    requires Ends(p) && 0 < k < |p| - 1
    ensures |Flagged(p, k, false)| == |p| && Ends(Flagged(p, k, false))
  {
  }

  lemma TakenFits(s: State, w: int, mode: int, x: int)
    requires Fits(s, w) && 0 <= x < w
    ensures var t := Taken(s, w, mode, x);
            && Fits(t, w) && Fits(Lifted(t, w, mode, x), w)
            && (ADD <= mode <= MOVE ==> Grips(Lifted(t, w, mode, x), w))
            && t.down == s.down && t.left == s.left
  {
    hide Ends, Grip, Anchored, Flagged;
    if mode == MOVE || mode == DEL {
      GripRange(s, w, mode, x);
    }
    var t := Taken(s, w, mode, x);
    if Inner(w, t.cur) {
      InnerEnds(t.p, t.left + t.cur);
    }
  }

  /** A window end changes its value only. */
  function EndDragged(s: State, w: int, v: int): State
    requires 0 <= s.left + s.cur < |s.p|
  {
    s.(p := s.p[s.left + s.cur := s.p[s.left + s.cur].(v := v)])
  }

  /** Where the pointer takes the grip. */
  function Target(s: State, x: int): int {
    Clamp(s.lo + 1, x, s.hi - 1)
  }

  /** The grip and its target are points of the map. */
  predicate Reaches(s: State, x: int) {
    0 <= s.left + s.cur < |s.p| && 0 <= s.left + Target(s, x) < |s.p|
  }

  /** The points just before they are interpolated again. */
  function Moved(s: State, x: int, v: int): (q: seq<Point>)
    requires Reaches(s, x)
    ensures |q| == |s.p|
  {
    Flagged(s.p, s.left + s.cur, false)[s.left + Target(s, x) := Point(v, true)]
  }

  /** A drag to x touches points of the map only and leaves the ends set. */
  predicate Draggable(s: State, w: int, mode: int, x: int) {
    s.down && (mode == ADD || mode == MOVE) ==>
      && 0 <= s.left + s.cur < |s.p|
      && (Inner(w, s.cur) ==> Reaches(s, x) && Ends(Moved(s, x, 0)))
  }

  /** An inner point follows the pointer between its neighbours. */
  function PointDragged(s: State, w: int, x: int, v: int): State
    requires Reaches(s, x) && Ends(Moved(s, x, 0))
  {
    hide Interpolated;
    s.(p := Interpolated(Moved(s, x, v)), cur := Target(s, x))
  }

  lemma GoodGrip(s: State, w: int, mode: int, x: int, held: bool)
    requires Ok(s, w, mode, held)
    ensures Draggable(s, w, mode, x)
  {
  }

  /** The window follows the pointer. */
  function Slid(s: State, w: int, x: int): State {
    s.(left := Clamp(0, s.oldEdge - (x - s.anchor), 2 * w - 1))
  }

  function Dragged(s: State, w: int, h: int, mode: int, x: int, y: int): State
    requires Draggable(s, w, mode, x)
  {
    if mode == DEL || mode == NOACTION || !s.down then s
    else if mode == ADD || mode == MOVE then
      var v := h - Clamp(0, y, h - 1) - 1;
      if !Inner(w, s.cur) then EndDragged(s, w, v) else PointDragged(s, w, x, v)
    else if mode == SLIDE then Slid(s, w, x)
    else s
  }

  function Released(s: State, w: int, h: int, mode: int, x: int, y: int): State
    requires Draggable(s, w, mode, x)
  {
    if mode == DEL || mode == NOACTION || !s.down then s
    else
      var t := Dragged(s, w, h, mode, x, y);
      var u := if (mode == ADD || mode == MOVE) && Inner(w, s.cur) then t.(lo := -1, hi := w + 1)
               else if mode == SLIDE then t.(oldEdge := 0, anchor := 0)
               else t;
      u.(down := false)
  }

  lemma PressedOk(s: State, w: int, h: int, mode: int, x: int, y: int)
    requires Ok(s, w, mode, true) && 0 <= x < w
    ensures Ok(Pressed(s, w, h, mode, x, y), w, mode, true)
  {
    hide Taken, Lifted;
    TakenFits(s, w, mode, x);
  }

  /** The neighbours of the set point nearest to x enclose x. */
  lemma GripRange(s: State, w: int, mode: int, x: int)
    requires Fits(s, w) && 0 <= x < w && (mode == MOVE || mode == DEL)
    ensures var c := Grip(s, w, mode, x);
            0 <= c < w && (Inner(w, c) ==> var t := Anchored(s.(cur := c), w); 0 <= t.lo < x < t.hi <= w - 1)
  {
    hide Ends, NearLeft, NearRight, Anchored;
    var l, r := NearLeft(s.p, s.left, x), NearRight(s.p, s.left, w, x);
    var c := if x - l < r - x then l else r;
    if Inner(w, c) {
      if x - l < r - x {
        GripLeft(s, w, c, x);
      } else {
        GripRight(s, w, c, x);
      }
    }
  }

  lemma GripLeft(s: State, w: int, c: int, x: int)
    requires Fits(s, w) && 0 <= c <= x < w - 1 && Inner(w, c)
    requires forall k :: s.left + c < k <= s.left + x ==> !s.p[k].flag
    ensures var t := Anchored(s.(cur := c), w); 0 <= t.lo < x < t.hi <= w - 1
  {
    hide Ends, NearLeft, NearRight, AnchoredLeft, AnchoredRight;
    var t := AnchoredLeft(s.(cur := c), w);
    if c < x {
      NearRightPast(t.p, s.left, w, c, x);
    }
  }

  lemma GripRight(s: State, w: int, c: int, x: int)
    requires Fits(s, w) && 0 < x <= c < w && Inner(w, c)
    requires forall k :: s.left + x <= k < s.left + c ==> !s.p[k].flag
    ensures var t := Anchored(s.(cur := c), w); 0 <= t.lo < x < t.hi <= w - 1
  {
    hide Ends, NearLeft, NearRight, AnchoredLeft, AnchoredRight;
    var t := AnchoredLeft(s.(cur := c), w);
    if x < c {
      NearLeftPast(s.p, s.left, c, x);
    }
  }

  lemma NearRightPast(p: seq<Point>, left: int, w: int, c: int, x: int)
    requires 0 <= left && 0 <= c < x < w - 1 && left + w <= |p|
    requires forall k :: left + c < k <= left + x ==> !p[k].flag
    ensures NearRight(p, left, w, c + 1) > x
  {
    hide NearRight;
  }

  lemma NearLeftPast(p: seq<Point>, left: int, c: int, x: int)
    requires 0 <= left && 0 < x < c && left + c <= |p|
    requires forall k :: left + x <= k < left + c ==> !p[k].flag
    ensures NearLeft(p, left, c - 1) < x
  {
    hide NearLeft;
  }

  lemma DraggedOk(s: State, w: int, h: int, mode: int, x: int, y: int, held: bool)
    requires Ok(s, w, mode, held)
    ensures Draggable(s, w, mode, x) && Ok(Dragged(s, w, h, mode, x, y), w, mode, held)
  {
    GoodGrip(s, w, mode, x, held);
  }

  lemma ReleasedOk(s: State, w: int, h: int, mode: int, x: int, y: int)
    requires Ok(s, w, mode, true)
    ensures Draggable(s, w, mode, x) && Ok(Released(s, w, h, mode, x, y), w, mode, false)
  {
    GoodGrip(s, w, mode, x, true);
  }

  // ---------- Setting the whole map ----------

  function Unset(p: seq<Point>): (q: seq<Point>)
    ensures |q| == |p| && forall k :: 0 <= k < |p| ==> q[k] == Point(p[k].v, false)
  {
    seq(|p|, k requires 0 <= k < |p| => Point(p[k].v, false))
  }

  /** A rising line over the middle window, flat on both sides. */
  function Cleared(s: State, w: int, h: int): State
    requires w >= 1 && |s.p| == 3 * w
  {
    var q := Unset(s.p)[0 := Point(0, true)][w := Point(0, true)]
      [2 * w - 1 := Point(h - 1, true)][3 * w - 1 := Point(h - 1, true)];
    s.(p := Interpolated(q), left := w)
  }

  /** The i-th inner value goes to column off * i - 1. */
  function Columns(p: seq<Point>, left: int, off: int, data: seq<int>, i: int): (q: seq<Point>)
    requires 0 <= left && off >= 1 && 0 <= i < |data| && left + off * |data| <= |p|
    ensures |q| == |p|
    ensures forall k :: 0 <= k < |p| && !(left <= k) ==> q[k] == p[k]
  {
    if i == 0 then p
    else
      ColumnWithin(left, off, |data|, i);
      Columns(p, left, off, data, i - 1)[left - 1 + off * i := Point(data[i], true)]
  }

  lemma ColumnWithin(left: int, off: int, n: int, i: int)
    requires 0 <= left && off >= 1 && 1 <= i < n
    ensures left <= left - 1 + off * i < left + off * n
  {
    Further(off, 0, i);
    Further(off, i, n);
  }

  function Spacing(w: int, n: int): (off: int)
    requires 1 <= n <= w
    ensures off >= 1 && off * n <= w
  {
    w / n
  }

  /** The set points for two values or more. */
  function SetPoints(p: seq<Point>, w: int, data: seq<int>, off: int): (q: seq<Point>)
    requires |p| == 3 * w && 2 <= |data| <= w && off >= 1 && off * |data| <= w
    ensures |q| == |p| && Ends(q)
  {
    hide Columns, Unset;
    var left, n := w - 1, |data|;
    var c := Columns(Unset(p)[left := Point(data[0], true)], left, off, data, n - 2);
    c[left + w - 1 := Point(data[n - 1], true)][0 := Point(data[0], true)][3 * w - 1 := Point(data[n - 1], true)]
  }

  /** One value everywhere. */
  function FlatPoints(w: int, v: int): (q: seq<Point>)
    requires w >= 1
    ensures |q| == 3 * w && Ends(q)
  {
    seq(3 * w, k => Point(v, k == w - 1 || k == 2 * w - 2 || k == 0 || k == 3 * w - 1))
  }

  /** The curve through the data, spread over the window. */
  function Spread(s: State, w: int, data: seq<int>): State
    requires Fits(s, w) && 1 <= |data| <= w
  {
    hide SetPoints, FlatPoints, Spacing;
    var left := w - 1;
    var q :=
      if |data| == 1 then
        FlatPoints(w, data[0])
      else
        SetPoints(s.p, w, data, Spacing(w, |data|));
    s.(p := Interpolated(q), left := left)
  }

  function Window(s: State, w: int): seq<Point>
    requires Fits(s, w)
  {
    s.p[s.left..s.left + w]
  }

  function EndsSet(d: seq<Point>): seq<Point>
    requires |d| >= 1
  {
    Flagged(Flagged(d, 0, true), |d| - 1, true)
  }

  /** Overwrite the middle window. */
  function WithWindow(s: State, w: int, data: seq<Point>): State
    requires w >= 1 && |s.p| == 3 * w && |data| == w
  {
    s.(p := s.p[..w] + data + s.p[2 * w..])
  }

  function Restored(s: State, w: int, h: int, data: seq<Point>): State
    requires Fits(s, w) && |data| == w
  {
    WithWindow(Cleared(s, w, h), w, data)
  }

  function Centered(s: State, w: int, h: int): State
    requires Fits(s, w)
  {
    if s.left == w then s else Restored(s, w, h, EndsSet(Window(s, w)))
  }

  function Photograph(s: State, w: int): seq<Point>
    requires Fits(s, w)
  {
    EndsSet(Window(s, w))
  }

  lemma ClearedFits(s: State, w: int, h: int)
    requires w >= 1 && |s.p| == 3 * w && 0 <= s.cur < w
    ensures Fits(Cleared(s, w, h), w)
  {
  }

  lemma SpreadFits(s: State, w: int, data: seq<int>)
    requires Fits(s, w) && 1 <= |data| <= w
    ensures Fits(Spread(s, w, data), w)
  {
  }

  /** Restoring a photograph brings back the window it was taken of, whatever was done in between. */
  lemma PhotographRestored(s: State, t: State, w: int, h: int)
    requires Fits(s, w) && Fits(t, w)
    ensures Fits(Restored(t, w, h, Photograph(s, w)), w)
    ensures Window(Restored(t, w, h, Photograph(s, w)), w) == Photograph(s, w)
  {
    ClearedFits(t, w, h);
  }

  /** Centering moves the data under the window to the middle; its ends become set points. */
  lemma CenteredWindow(s: State, w: int, h: int)
    requires Fits(s, w)
    ensures var t := Centered(s, w, h);
            Fits(t, w) && t.left == w && (s.left != w ==> Window(t, w) == EndsSet(Window(s, w)))
  {
    ClearedFits(s, w, h);
  }

  lemma {:induction false} ColumnsAt(p: seq<Point>, left: int, off: int, data: seq<int>, i: int, j: int)
    requires 0 <= left && off >= 1 && 1 <= j <= i < |data| && left + off * |data| <= |p|
    ensures left <= left - 1 + off * j < |p|
    ensures Columns(p, left, off, data, i)[left - 1 + off * j] == Point(data[j], true)
  {
    ColumnWithin(left, off, |data|, j);
    if j < i {
      ColumnsAt(p, left, off, data, i - 1, j);
      ColumnWithin(left, off, i + 1, j);
      ColumnWithin(left, off, |data|, i);
      Further(off, j, i);
    }
  }

  lemma Product(a: int, b: int)
    requires a >= 0 && b >= 0
    ensures a * b >= 0
  {
  }

  lemma Further(off: int, j: int, i: int)
    requires off >= 1 && j < i
    ensures off * j + off <= off * i
  {
    var d := i - j - 1;
    assert off * i == off * (j + 1 + d) == off * j + off + off * d;
    Product(off, d);
  }

  lemma {:induction false} ColumnsLeft(p: seq<Point>, left: int, off: int, data: seq<int>, i: int)
    requires 0 <= left < |p| && off >= 2 && 0 <= i < |data| && left + off * |data| <= |p|
    ensures Columns(p, left, off, data, i)[left] == p[left]
  {
    if i > 0 {
      ColumnWithin(left, off, |data|, i);
      ColumnsLeft(p, left, off, data, i - 1);
      Further(off, 0, i);
    }
  }

  /** Where the data go: the ends of the window and equally spaced columns in between. With a value for
      every column the second one takes the left end and the first is lost. */
  lemma SpreadPlaces(s: State, w: int, data: seq<int>, i: int)
    requires Fits(s, w) && 3 <= |data| <= w && 1 <= i <= |data| - 2
    ensures var t, off := Spread(s, w, data), Spacing(w, |data|);
            && t.left == w - 1 && 0 <= off * i - 1 < w - 1 && t.p[t.left + (off * i - 1)] == Point(data[i], true)
            && t.p[t.left] == Point(if off == 1 then data[1] else data[0], true)
            && t.p[t.left + w - 1] == Point(data[|data| - 1], true)
  {
    hide SetPoints, Spacing, Interpolated, ValueAt, Prev, Next, Ends;
    var off := Spacing(w, |data|);
    var k, q := off * i - 1, SetPoints(s.p, w, data, off);
    PointsAt(s.p, w, data, off, i, k);
    AtSet(q, w - 1 + k);
    AtSet(q, w - 1);
    AtSet(q, w - 1 + w - 1);
  }

  lemma PointsAt(p: seq<Point>, w: int, data: seq<int>, off: int, i: int, k: int)
    requires |p| == 3 * w && 3 <= |data| <= w && off >= 1
    requires off * |data| <= w && 1 <= i <= |data| - 2 && k == off * i - 1
    ensures 0 <= k < w - 1
    ensures var q := SetPoints(p, w, data, off);
            && q[w - 1 + k] == Point(data[i], true) && q[w - 1 + w - 1] == Point(data[|data| - 1], true)
            && q[w - 1] == Point(if off == 1 then data[1] else data[0], true)
  {
    hide Columns, Unset;
    var left, n := w - 1, |data|;
    Further(off, i, n);
    Further(off, 0, i);
    var u := Unset(p)[left := Point(data[0], true)];
    ColumnsAt(u, left, off, data, n - 2, i);
    if off == 1 {
      ColumnsAt(u, left, off, data, n - 2, 1);
    } else {
      ColumnsLeft(u, left, off, data, n - 2);
    }
  }

  // ---------- Runs ----------

  datatype Event =
    | SetMode(mode: int) | Press(x: int, y: int) | Motion(x: int, y: int) | Release(x: int, y: int)
    | SetData(data: seq<int>) | Clear | Center | Restore(points: seq<Point>)

  /** held: a button has been pressed, and none released since. */
  datatype Machine = Machine(s: State, mode: int, held: bool)

  /** A mode change while a button is held does no harm if it starts from a mode that leaves the grip with
      a range, or ends in one that does not use the grip; a narrow window has no inner column to grip. */
  predicate Harmless(w: int, from: int, to: int) {
    w <= 2 || NOACTION <= from <= MOVE || !(NOACTION <= to <= MOVE)
  }

  /** What a caller has to see to; presses are in the window, and may come while a button is held. */
  predicate Allowed(mode: int, held: bool, w: int, e: Event) {
    match e
    case SetMode(to) => held ==> Harmless(w, mode, to)
    case Press(x, _) => 0 <= x < w
    case SetData(data) => |data| >= 1
    case Restore(points) => |points| == w
    case _ => true
  }

  predicate Sound(m: Machine, w: int) {
    Ok(m.s, w, m.mode, m.held)
  }

  /** The event has what it needs: its points are points of the map, and interpolation will end. */
  predicate Possible(m: Machine, w: int, e: Event) {
    match e
    case SetMode(_) => true
    case Press(x, _) => Fits(m.s, w) && 0 <= x < w
    case Motion(x, _) => Draggable(m.s, w, m.mode, x)
    case Release(x, _) => Draggable(m.s, w, m.mode, x)
    case SetData(data) => Fits(m.s, w) && |data| >= 1
    case Restore(points) => Fits(m.s, w) && |points| == w
    case _ => Fits(m.s, w)
  }

  function Step(m: Machine, w: int, h: int, e: Event): Machine
    requires Possible(m, w, e)
  {
    match e
    case SetMode(mode) => m.(mode := mode)
    case Press(x, y) => m.(s := Pressed(m.s, w, h, m.mode, x, y), held := true)
    case Motion(x, y) => m.(s := Dragged(m.s, w, h, m.mode, x, y))
    case Release(x, y) => m.(s := Released(m.s, w, h, m.mode, x, y), held := false)
    case SetData(data) => if |data| > w then m else m.(s := Spread(m.s, w, data))
    case Clear => m.(s := Cleared(m.s, w, h))
    case Center => m.(s := Centered(m.s, w, h))
    case Restore(points) => m.(s := Restored(m.s, w, h, points))
  }

  /** Every allowed event is possible and keeps the ends set, the window and the grip within the points. */
  lemma StepSound(m: Machine, w: int, h: int, e: Event)
    requires Sound(m, w) && Allowed(m.mode, m.held, w, e)
    ensures Possible(m, w, e) && Sound(Step(m, w, h, e), w)
  {
    hide Pressed, Dragged, Released, Spread, Cleared, Ends, Draggable;
    match e
    case Press(x, y) => PressedOk(m.s, w, h, m.mode, x, y);
    case Motion(x, y) => DraggedOk(m.s, w, h, m.mode, x, y, m.held);
    case Release(x, y) =>
      GoodGrip(m.s, w, m.mode, x, m.held);
      ReleasedOk(m.s, w, h, m.mode, x, y);
    case SetData(data) => if |data| <= w { SpreadOk(m.s, w, data); }
    case Clear => ClearedOk(m.s, w, h);
    case Center => if m.s.left != w { RestoredOk(m.s, w, h, EndsSet(Window(m.s, w))); }
    case Restore(points) => RestoredOk(m.s, w, h, points);
    case SetMode(_) =>
  }

  lemma SpreadOk(s: State, w: int, data: seq<int>)
    requires Fits(s, w) && 1 <= |data| <= w
    ensures var t := Spread(s, w, data);
            Fits(t, w) && t == s.(p := t.p, left := t.left)
  {
    SpreadFits(s, w, data);
  }

  lemma ClearedOk(s: State, w: int, h: int)
    requires Fits(s, w)
    ensures var t := Cleared(s, w, h);
            Fits(t, w) && t == s.(p := t.p, left := t.left)
  {
    ClearedFits(s, w, h);
  }

  lemma RestoredOk(s: State, w: int, h: int, data: seq<Point>)
    requires Fits(s, w) && |data| == w
    ensures var t := Restored(s, w, h, data);
            Fits(t, w) && t == s.(p := t.p, left := t.left)
  {
    ClearedFits(s, w, h);
  }

  /** The mode and the button after an event. */
  function ModeAfter(mode: int, e: Event): int {
    if e.SetMode? then e.mode else mode
  }

  function HeldAfter(held: bool, e: Event): bool {
    if e.Press? then true else if e.Release? then false else held
  }

  predicate AllAllowed(mode: int, held: bool, w: int, es: seq<Event>)
    decreases |es|
  {
    es == [] ||
    (Allowed(mode, held, w, es[0]) && AllAllowed(ModeAfter(mode, es[0]), HeldAfter(held, es[0]), w, es[1..]))
  }

  predicate AllPossible(m: Machine, w: int, h: int, es: seq<Event>)
    decreases |es|
  {
    es == [] || (Possible(m, w, es[0]) && AllPossible(Step(m, w, h, es[0]), w, h, es[1..]))
  }

  function Run(m: Machine, w: int, h: int, es: seq<Event>): Machine
    requires AllPossible(m, w, h, es)
    decreases |es|
  {
    if es == [] then m else Run(Step(m, w, h, es[0]), w, h, es[1..])
  }

  /** In a run of allowed events interpolation always ends, no event touches a point that is not there, and
      the map stays sound. */
  lemma {:induction false} RunSound(m: Machine, w: int, h: int, es: seq<Event>)
    requires Sound(m, w) && AllAllowed(m.mode, m.held, w, es)
    ensures AllPossible(m, w, h, es) && Sound(Run(m, w, h, es), w)
    decreases |es|
  {
    hide Sound, Allowed, Pressed, Dragged, Released, Spread, Cleared;
    if es != [] {
      StepSound(m, w, h, es[0]);
      RunSound(Step(m, w, h, es[0]), w, h, es[1..]);
    }
  }

  /** A new map: its points are zero, none of them set, and the gesture variables are zero. */
  function Blank(w: int): (s: State)
    requires w >= 1
    ensures |s.p| == 3 * w
  {
    State(seq(3 * w, _ => Point(0, false)), 0, 0, 0, 0, 0, 0, false)
  }

  lemma FirstClear(w: int, h: int)
    requires w >= 1
    ensures forall mode :: Sound(Machine(Cleared(Blank(w), w, h), mode, false), w)
  {
    ClearedFits(Blank(w), w, h);
  }
}
