/** The association map's operations in place: each carries the points, the window and the gesture
    variables from one state to the next, as the functions of AMap say. */
module AMapWidget {
  import opened Curve
  import opened AMap

  class Widget {
    const width: int
    const height: int
    const points: array<Point>
    var left: int
    var mode: int
    var lo: int
    var hi: int
    var cur: int
    var anchor: int
    var oldEdge: int
    var down: bool

    ghost function Abs(): State
      reads this, points
    {
      State(points[..], left, lo, hi, cur, anchor, oldEdge, down)
    }

    /** A new map is cleared at once. */
    constructor (width: int, height: int)
      requires width >= 1
      ensures this.width == width && this.height == height && mode == NOACTION && fresh(points)
      ensures Abs() == Cleared(Blank(width), width, height) && Ok(Abs(), width, mode, false)
    {
      this.width, this.height := width, height;
      points := new Point[3 * width](_ => Point(0, false));
      left, lo, hi, cur, anchor, oldEdge, down, mode := 0, 0, 0, 0, 0, 0, false, NOACTION;
      new;
      hide Cleared, Ok;
      assert Abs() == Blank(width);
      Clear();
      FirstClear(width, height);
      assert Sound(Machine(Cleared(Blank(width), width, height), mode, false), width);
    }

    method UnsetAll()
      modifies points
      ensures points[..] == Unset(old(points[..]))
    {
      for i := 0 to points.Length
        invariant forall k :: 0 <= k < i ==> points[k] == Point(old(points[k]).v, false)
        invariant forall k :: i <= k < points.Length ==> points[k] == old(points[k])
      {
        points[i] := points[i].(flag := false);
      }
    }

    method SetPoint(k: int, pt: Point)
      requires 0 <= k < points.Length
      modifies points
      ensures points[..] == old(points[..])[k := pt]
    {
      points[k] := pt;
    }

    method Clear()
      requires width >= 1 && points.Length == 3 * width
      modifies points, `left
      ensures Abs() == Cleared(old(Abs()), width, height)
    {
      hide Interpolated, Unset, ValueAt;
      UnsetAll();
      SetPoint(0, Point(0, true));
      SetPoint(width, Point(0, true));
      SetPoint(2 * width - 1, Point(height - 1, true));
      SetPoint(3 * width - 1, Point(height - 1, true));
      left := width;
      Interpolate(points);
    }

    /** The curve through the data; refused if there are more values than columns. */
    method SetData(data: seq<int>) returns (ok: bool)
      requires Fits(Abs(), width) && |data| >= 1
      modifies points, `left
      ensures ok <==> |data| <= width
      ensures Abs() == if |data| <= width then Spread(old(Abs()), width, data) else old(Abs())
    {
      if |data| > width {
        return false;
      }
      hide Interpolated, Ends, AMap.SetPoints, FlatPoints, Spacing;
      left := 2 * width - 1 - width;
      if |data| == 1 {
        SetFlat(data[0]);
      } else {
        PlaceData(data);
      }
      Interpolate(points);
      ok := true;
    }

    /** One value everywhere. */
    method SetFlat(v: int)
      requires width >= 1 && points.Length == 3 * width && left == width - 1
      modifies points
      ensures points[..] == FlatPoints(width, v)
    {
      for i := 0 to 3 * width
        invariant forall k :: 0 <= k < i ==> points[k] == Point(v, false)
      {
        points[i] := Point(v, false);
      }
      points[left] := Point(v, true);
      points[left + width - 1] := Point(v, true);
      points[0] := Point(v, true);
      points[3 * width - 1] := Point(v, true);
    }

    method PlaceData(data: seq<int>)
      requires Fits(Abs(), width) && 2 <= |data| <= width && left == width - 1
      modifies points
      ensures points[..] == AMap.SetPoints(old(points[..]), width, data, Spacing(width, |data|)) && Ends(points[..])
    {
      hide Ends, Unset, Columns, Spacing;
      UnsetAll();
      var off, n := width / |data|, |data|;
      assert off == Spacing(width, n) by { SpacingIs(width, n); }
      SetPoint(left, Point(data[0], true));
      PlaceColumns(data, off);
      SetPoint(left + width - 1, Point(data[n - 1], true));
      SetPoint(0, Point(data[0], true));
      SetPoint(3 * width - 1, Point(data[n - 1], true));
    }

    method PlaceColumns(data: seq<int>, off: int)
      requires 0 <= left && off >= 1 && |data| >= 2 && left + off * |data| <= points.Length
      modifies points
      ensures points[..] == Columns(old(points[..]), left, off, data, |data| - 2)
    {
      var base := left - 1 + off;
      ghost var p := points[..];
      for i := 1 to |data| - 1
        invariant base == left - 1 + off * i && points[..] == Columns(p, left, off, data, i - 1)
      {
        ColumnWithin(left, off, |data|, i);
        SetPoint(base, Point(data[i], true));
        assert off * (i + 1) == off * i + off;
        base := base + off;
      }
    }

    /** Move the data under the window to the middle. */
    method Center()
      requires Fits(Abs(), width)
      modifies points, `left
      ensures Abs() == Centered(old(Abs()), width, height)
    {
      hide Cleared, EndsSet;
      if left == width {
        return;
      }
      var data := Photograph();
      Restore(data);
    }

    /** A copy of the window, its ends set. */
    method Photograph() returns (data: seq<Point>)
      requires Fits(Abs(), width)
      ensures data == AMap.Photograph(Abs(), width) && |data| == width
    {
      data := points[left..left + width];
      data := Flagged(data, 0, true);
      data := Flagged(data, width - 1, true);
    }

    method Restore(data: seq<Point>)
      requires Fits(Abs(), width) && |data| == width
      modifies points, `left
      ensures Abs() == Restored(old(Abs()), width, height, data)
    {
      hide Cleared, Ends;
      Clear();
      ClearedSize(old(Abs()), width, height);
      ghost var p := points[..];
      for i := 0 to width
        invariant left == width
        invariant forall k :: width <= k < width + i ==> points[k] == data[k - width]
        invariant forall k :: 0 <= k < points.Length && !(width <= k < width + i) ==> points[k] == p[k]
      {
        points[left + i] := data[i];
      }
      assert points[..] == p[..width] + data + p[2 * width..];
    }

    /** The values under the window. */
    method Value() returns (data: seq<int>)
      requires Fits(Abs(), width)
      modifies points
      ensures points[..] == Interpolated(old(points[..]))
      ensures |data| == width && forall i :: 0 <= i < width ==> data[i] == points[left + i].v
    {
      Interpolate(points);
      data := seq(width, i requires 0 <= i < width && 0 <= left && left + width <= points.Length
                           reads this, points => points[left + i].v);
    }

    method SetMode(mode: int)
      modifies `mode
      ensures this.mode == mode
    {
      this.mode := mode;
    }

    // ---------- Gestures ----------

    method FindLeft(x: int) returns (d: int)
      requires 0 <= left && 0 <= x && left + x < points.Length
      ensures d == NearLeft(points[..], left, x)
    {
      d := x;
      while d > 0 && !points[left + d].flag
        invariant 0 <= d <= x && NearLeft(points[..], left, d) == NearLeft(points[..], left, x)
      {
        d := d - 1;
      }
    }

    method FindRight(x: int) returns (d: int)
      requires 0 <= left && 0 <= x <= width - 1 && left + width <= points.Length
      ensures d == NearRight(points[..], left, width, x)
    {
      d := x;
      while d < width - 1 && !points[left + d].flag
        invariant x <= d <= width - 1 && NearRight(points[..], left, width, d) == NearRight(points[..], left, width, x)
      {
        d := d + 1;
      }
    }

    method SetFlag(k: int, flag: bool)
      requires 0 <= k < points.Length
      modifies points
      ensures points[..] == Flagged(old(points[..]), k, flag)
    {
      points[k] := points[k].(flag := flag);
    }

    method SetLeftAnchor()
      requires Fits(Abs(), width) && Inner(width, cur)
      modifies points, `lo
      ensures Abs() == AnchoredLeft(old(Abs()), width)
    {
      hide NearLeft, Ends, Interpolated, Flagged;
      lo := FindLeft(cur - 1);
      if lo == 0 {
        Interpolate(points);
        SetFlag(left, true);
      }
    }

    method SetRightAnchor()
      requires Fits(Abs(), width) && Inner(width, cur)
      modifies points, `hi
      ensures Abs() == AnchoredRight(old(Abs()), width)
    {
      hide NearRight, Ends, Interpolated, Flagged;
      hi := FindRight(cur + 1);
      if hi == width - 1 {
        Interpolate(points);
        SetFlag(left + hi, true);
      }
    }

    method SetAnchors()
      requires Fits(Abs(), width) && Inner(width, cur)
      modifies points, `lo, `hi
      ensures Abs() == Anchored(old(Abs()), width)
    {
      hide AnchoredLeft, AnchoredRight, Ends;
      SetLeftAnchor();
      SetRightAnchor();
    }

    /** A press, whether or not another button is held; a sound map stays sound. */
    method Press(x: int, y0: int)
      requires Fits(Abs(), width) && 0 <= x < width
      modifies points, `left, `lo, `hi, `cur, `anchor, `oldEdge, `down
      ensures Abs() == Pressed(old(Abs()), width, height, mode, x, y0)
      ensures old(Ok(Abs(), width, mode, true)) ==> Ok(Abs(), width, mode, true)
    {
      hide Ends, Taken, Lifted, Placed, Ok;
      if Ok(Abs(), width, mode, true) {
        PressedOk(Abs(), width, height, mode, x, y0);
      }
      TakenFits(Abs(), width, mode, x);
      if mode == NOACTION || (mode == ADD && points[left + x].flag) {
        return;
      }
      if mode == SLIDE {
        oldEdge, anchor, down := left, x, true;
        return;
      }
      var y := if y0 >= height then height - 1 else y0;
      Hold(x, height - y - 1);
    }

    /** Take hold of a point and put it where the pointer is. */
    method Hold(x: int, v: int)
      requires Fits(Abs(), width) && 0 <= x < width && mode != NOACTION && mode != SLIDE
      modifies points, `left, `lo, `hi, `cur, `anchor, `oldEdge, `down
      ensures Fits(Taken(old(Abs()), width, mode, x), width)
      ensures Fits(Lifted(Taken(old(Abs()), width, mode, x), width, mode, x), width)
      ensures Abs() == Placed(Lifted(Taken(old(Abs()), width, mode, x), width, mode, x), width, mode, v).(down := true)
    {
      hide Ends, Flagged, Taken, Lifted;
      TakenFits(Abs(), width, mode, x);
      Take(x);
      Lift(x);
      if mode != DEL {
        SetPoint(left + cur, Point(v, true));
      }
      down := true;
    }

    method Take(x: int)
      requires Fits(Abs(), width) && 0 <= x < width
      modifies points, `left, `lo, `hi, `cur, `anchor, `oldEdge, `down
      ensures Abs() == Taken(old(Abs()), width, mode, x)
    {
      hide Ends, NearLeft, NearRight, Anchored;
      if mode == ADD {
        cur := x;
      } else if mode == MOVE || mode == DEL {
        var dLeft := FindLeft(x);
        var dRight := FindRight(x);
        cur := if x - dLeft < dRight - x then dLeft else dRight;
      }
      assert Abs() == old(Abs()).(cur := Grip(old(Abs()), width, mode, x));
      if ADD <= mode <= MOVE && Inner(width, cur) {
        SetAnchors();
      }
    }

    method Lift(x: int)
      requires Fits(Abs(), width)
      modifies points, `left, `lo, `hi, `cur, `anchor, `oldEdge, `down
      ensures Abs() == Lifted(old(Abs()), width, mode, x)
    {
      if (mode == DEL || mode == MOVE) && Inner(width, cur) {
        SetFlag(left + cur, false);
        cur := x;
      }
    }

    /** A motion event; a sound map stays sound. */
    method Motion(x: int, y0: int)
      requires Draggable(Abs(), width, mode, x)
      modifies points, `left, `lo, `hi, `cur, `anchor, `oldEdge, `down
      ensures Abs() == Dragged(old(Abs()), width, height, mode, x, y0)
      ensures forall held :: old(Ok(Abs(), width, mode, held)) ==> Ok(Abs(), width, mode, held)
    {
      hide Ok;
      forall held | Ok(Abs(), width, mode, held)
        ensures Ok(Dragged(Abs(), width, height, mode, x, y0), width, mode, held)
      {
        DraggedOk(Abs(), width, height, mode, x, y0, held);
      }
      if mode == DEL || mode == NOACTION || !down {
        return;
      }
      Drag(x, y0);
    }

    /** The grip moves to x, but not past its neighbours. */
    method DragPoint(x0: int, v: int)
      requires Reaches(Abs(), x0) && Ends(Moved(Abs(), x0, 0))
      modifies points, `cur
      ensures Abs() == PointDragged(old(Abs()), width, x0, v)
    {
      hide Interpolated, Ends, Flagged;
      MovedEnds(Abs(), x0, v);
      var x := x0;
      if x <= lo { x := lo + 1; } else if x >= hi { x := hi - 1; }
      MovePoint(x, v);
    }

    method MovePoint(x: int, v: int)
      requires 0 <= left + cur < points.Length && 0 <= left + x < points.Length
      requires Ends(Flagged(points[..], left + cur, false)[left + x := Point(v, true)])
      modifies points, `cur
      ensures cur == x
      ensures points[..] == Interpolated(Flagged(old(points[..]), left + old(cur), false)[left + x := Point(v, true)])
    {
      hide Interpolated, Ends, Flagged;
      SetFlag(left + cur, false);
      SetPoint(left + x, Point(v, true));
      Interpolate(points);
      cur := x;
    }

    method DragEnd(v: int)
      requires 0 <= left + cur < points.Length
      modifies points
      ensures Abs() == EndDragged(old(Abs()), width, v)
    {
      SetPoint(left + cur, points[left + cur].(v := v));
    }

    method Drag(x0: int, y0: int)
      requires Draggable(Abs(), width, mode, x0) && mode != DEL && mode != NOACTION && down
      modifies points, `left, `lo, `hi, `cur, `anchor, `oldEdge, `down
      ensures Abs() == Dragged(old(Abs()), width, height, mode, x0, y0)
    {
      hide Ends, EndDragged, PointDragged, Moved, Reaches;
      var x, y := x0, y0;
      if y < 0 { y := 0; } else if y >= height { y := height - 1; }
      if mode == ADD || mode == MOVE {
        if !Inner(width, cur) {
          DragEnd(height - y - 1);
        } else {
          DragPoint(x, height - y - 1);
        }
      } else if mode == SLIDE {
        left := Clamp(0, oldEdge - (x - anchor), 2 * width - 1);
      }
    }

    /** A release; after it a sound map is sound with no button held. */
    method Release(x: int, y: int)
      requires Draggable(Abs(), width, mode, x)
      modifies points, `left, `lo, `hi, `cur, `anchor, `oldEdge, `down
      ensures Abs() == Released(old(Abs()), width, height, mode, x, y)
      ensures old(Ok(Abs(), width, mode, true)) ==> Ok(Abs(), width, mode, false)
    {
      hide Dragged, Ok, Draggable;
      if Ok(Abs(), width, mode, true) {
        ReleasedOk(Abs(), width, height, mode, x, y);
      }
      if mode == DEL || mode == NOACTION || !down {
        return;
      }
      var inner := Inner(width, cur);
      Drag(x, y);
      if (mode == ADD || mode == MOVE) && inner {
        lo, hi := -1, width + 1;
      } else if mode == SLIDE {
        oldEdge, anchor := 0, 0;
      }
      down := false;
    }
  }

  /** A call on the widget is the event it stands for. */
  method Perform(a: Widget, e: Event, ghost held: bool)
    requires Possible(Machine(a.Abs(), a.mode, held), a.width, e)
    modifies a, a.points
    ensures Machine(a.Abs(), a.mode, HeldAfter(held, e))
         == Step(old(Machine(a.Abs(), a.mode, held)), a.width, a.height, e)
  {
    hide Ok, Fits, Draggable, Pressed, Dragged, Released, Spread, Cleared, Centered, Restored;
    match e
    case SetMode(to) => a.SetMode(to);
    case Press(x, y) => a.Press(x, y);
    case Motion(x, y) => a.Motion(x, y);
    case Release(x, y) => a.Release(x, y);
    case SetData(data) => var _ := a.SetData(data);
    case Clear =>
      FitsWidth(a.Abs(), a.width);
      a.Clear();
    case Center => a.Center();
    case Restore(points) => a.Restore(points);
  }

  lemma FitsWidth(s: State, w: int)
    requires Fits(s, w)
    ensures w >= 1 && |s.p| == 3 * w
  {
  }

  /** A run of calls on a new widget, all of them allowed, is the run of their events: it goes through, and the
      map stays sound. */
  method PerformAll(a: Widget, es: seq<Event>, ghost held: bool)
    requires Sound(Machine(a.Abs(), a.mode, held), a.width) && AllAllowed(a.mode, held, a.width, es)
    modifies a, a.points
    ensures var m := old(Machine(a.Abs(), a.mode, held));
            && AllPossible(m, a.width, a.height, es) && a.Abs() == Run(m, a.width, a.height, es).s
            && a.mode == Run(m, a.width, a.height, es).mode
            && Sound(Run(m, a.width, a.height, es), a.width)
    decreases |es|
  {
    hide Sound, Possible, Allowed, Step;
    if es != [] {
      ghost var m := Machine(a.Abs(), a.mode, held);
      RunSound(m, a.width, a.height, es);
      StepSound(m, a.width, a.height, es[0]);
      StepModes(m, a.width, a.height, es[0]);
      Perform(a, es[0], held);
      PerformAll(a, es[1..], HeldAfter(held, es[0]));
    }
  }

  lemma StepModes(m: Machine, w: int, h: int, e: Event)
    requires Possible(m, w, e)
    ensures Step(m, w, h, e).mode == ModeAfter(m.mode, e) && Step(m, w, h, e).held == HeldAfter(m.held, e)
  {
  }

  lemma MovedEnds(s: State, x: int, v: int)
    requires Reaches(s, x) && Ends(Moved(s, x, 0))
    ensures Ends(Moved(s, x, v))
  {
  }

  lemma SpacingIs(w: int, n: int)
    requires 1 <= n <= w
    ensures w / n == Spacing(w, n)
  {
  }

  lemma ClearedSize(s: State, w: int, h: int)
    requires w >= 1 && |s.p| == 3 * w
    ensures |Cleared(s, w, h).p| == 3 * w && Cleared(s, w, h).left == w
  {
  }
}
