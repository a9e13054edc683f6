/** The interpolated curve. */
module Curve {
  /** flag: the point is set, not interpolated. */
  datatype Point = Point(v: int, flag: bool)

  /** The first and the last point are set. */
  predicate Ends(p: seq<Point>) {
    |p| >= 2 && p[0].flag && p[|p| - 1].flag
  }

  /** The last set point up to k, and the first one from k on. */
  function Prev(p: seq<Point>, k: nat): (f: nat)
    requires Ends(p) && k < |p|
    ensures f <= k && p[f].flag && forall j :: f < j <= k ==> !p[j].flag
  {
    if p[k].flag then k else Prev(p, k - 1)
  }

  function Next(p: seq<Point>, k: nat): (e: nat)
    requires Ends(p) && k < |p|
    ensures k <= e < |p| && p[e].flag && forall j :: k <= j < e ==> !p[j].flag
    decreases |p| - k
  {
    if p[k].flag then k else Next(p, k + 1)
  }

  /** Conversion to int drops the fraction. */
  function Trunc(r: real): int {
    if r >= 0.0 then r.Floor else -((-r).Floor)
  }

  /** The value i steps along the line from a to b, which are n steps apart. */
  function OnLine(a: int, b: int, i: nat, n: nat): int
    requires n > 0
  {
    Trunc(a as real + Along(i, Slope(a, b, n)))
  }

  function Slope(a: int, b: int, n: nat): real
    requires n > 0
  {
    (b - a) as real / n as real
  }

  function Along(i: nat, slope: real): real {
    i as real * slope
  }

  function ValueAt(p: seq<Point>, k: nat): int
    requires Ends(p) && k < |p|
  {
    if p[k].flag then p[k].v
    else
      var f, e := Prev(p, k), Next(p, k);
      OnLine(p[f].v, p[e].v, k - f, e - f)
  }

  function Interpolated(p: seq<Point>): (q: seq<Point>)
    requires Ends(p)
    ensures |q| == |p| && forall k :: 0 <= k < |p| ==> q[k] == Point(ValueAt(p, k), p[k].flag)
  {
    seq(|p|, k requires 0 <= k < |p| => Point(ValueAt(p, k), p[k].flag))
  }

  lemma TruncMonotone(a: real, b: real)
    requires a <= b
    ensures Trunc(a) <= Trunc(b)
  {
  }

  lemma TruncInt(a: int)
    ensures Trunc(a as real) == a
  {
  }

  lemma AlongMonotone(i: nat, j: nat, d: real)
    requires i <= j
    ensures d >= 0.0 ==> Along(i, d) <= Along(j, d)
    ensures d <= 0.0 ==> Along(i, d) >= Along(j, d)
  {
    assert Along(j, d) - Along(i, d) == (j - i) as real * d;
  }

  lemma SlopeSign(a: int, b: int, n: nat)
    requires n > 0
    ensures a <= b ==> Slope(a, b, n) >= 0.0
    ensures a >= b ==> Slope(a, b, n) <= 0.0
  {
  }

  /** Along a rising line values do not fall, along a falling one they do not rise. */
  lemma LineMonotone(a: int, b: int, i: nat, j: nat, n: nat)
    requires n > 0 && i <= j
    ensures a <= b ==> OnLine(a, b, i, n) <= OnLine(a, b, j, n)
    ensures a >= b ==> OnLine(a, b, i, n) >= OnLine(a, b, j, n)
  {
    hide Trunc, Slope, Along;
    var d := Slope(a, b, n);
    SlopeSign(a, b, n);
    AlongMonotone(i, j, d);
    if a <= b {
      TruncMonotone(a as real + Along(i, d), a as real + Along(j, d));
    }
    if a >= b {
      TruncMonotone(a as real + Along(j, d), a as real + Along(i, d));
    }
  }

  lemma LineEnds(a: int, b: int, n: nat)
    requires n > 0
    ensures OnLine(a, b, 0, n) == a && OnLine(a, b, n, n) == b
  {
    hide Trunc;
    assert Along(0, Slope(a, b, n)) == 0.0 && Along(n, Slope(a, b, n)) == (b - a) as real;
    TruncInt(a);
    TruncInt(b);
  }

  /** An interpolated value lies between those of the set points around it. */
  lemma BetweenNeighbours(p: seq<Point>, k: nat)
    requires Ends(p) && k < |p|
    ensures var a, b, v := p[Prev(p, k)].v, p[Next(p, k)].v, Interpolated(p)[k].v;
            (a <= v <= b || b <= v <= a) && (p[k].flag ==> v == p[k].v)
  {
    hide OnLine, Interpolated;
    if p[k].flag {
      AtSet(p, k);
    } else {
      var f, e := Prev(p, k), Next(p, k);
      LineEnds(p[f].v, p[e].v, e - f);
      LineMonotone(p[f].v, p[e].v, 0, k - f, e - f);
      LineMonotone(p[f].v, p[e].v, k - f, e - f, e - f);
    }
  }

  lemma AtSet(p: seq<Point>, k: nat)
    requires Ends(p) && k < |p| && p[k].flag
    ensures Prev(p, k) == k == Next(p, k) && Interpolated(p)[k] == p[k]
  {
  }

  /** The interpolated value in whole numbers: between set points f and e it is the line's value without
      its fraction, that is, rounded towards zero. */
  lemma WholeValue(p: seq<Point>, f: nat, k: nat, e: nat)
    requires Ends(p) && f < k < e < |p| && p[f].flag && p[e].flag && forall j :: f < j < e ==> !p[j].flag
    ensures var (n, a, b, v) := (e - f, p[f].v, p[e].v, Interpolated(p)[k].v);
            var t := a * n + (k - f) * (b - a);
            (t >= 0 ==> v * n <= t < (v + 1) * n) && (t <= 0 ==> (v - 1) * n < t <= v * n)
  {
    hide Interpolated, Prev, Next, Trunc, Along, Slope;
    Filled(p, f, e, k);
    LineWhole(p[f].v, p[e].v, k - f, e - f);
  }

  lemma LineWhole(a: int, b: int, i: nat, n: nat)
    requires n > 0
    ensures var v, t := OnLine(a, b, i, n), a * n + i * (b - a);
            (t >= 0 ==> v * n <= t < (v + 1) * n) && (t <= 0 ==> (v - 1) * n < t <= v * n)
  {
    hide Trunc, Along, Slope;
    var r, t := a as real + Along(i, Slope(a, b, n)), a * n + i * (b - a);
    TimesN(a, b, i, n);
    var v := Trunc(r);
    TruncBounds(r);
    SignOf(r, n, t);
    Scaled(v, r, n, t);
    Scaled(v + 1, r, n, t);
    Scaled(v - 1, r, n, t);
  }

  lemma TimesN(a: int, b: int, i: nat, n: nat)
    requires n > 0
    ensures (a as real + Along(i, Slope(a, b, n))) * n as real == (a * n + i * (b - a)) as real
  {
    var s := Slope(a, b, n);
    assert s * n as real == (b - a) as real;
    assert Along(i, s) * n as real == i as real * (s * n as real) == (i * (b - a)) as real;
  }

  lemma TruncBounds(r: real)
    ensures r >= 0.0 ==> Trunc(r) as real <= r < (Trunc(r) + 1) as real
    ensures r <= 0.0 ==> (Trunc(r) - 1) as real < r <= Trunc(r) as real
  {
  }

  lemma SignOf(r: real, n: nat, t: int)
    requires n > 0 && r * n as real == t as real
    ensures (t >= 0 <==> r >= 0.0) && (t <= 0 <==> r <= 0.0)
  {
  }

  lemma Scaled(v: int, r: real, n: nat, t: int)
    requires n > 0 && r * n as real == t as real
    ensures (v as real <= r <==> v * n <= t) && (r <= v as real <==> t <= v * n)
  {
    assert (v * n) as real == v as real * n as real;
    assert v as real <= r <==> v as real * n as real <= r * n as real;
  }

  predicate Rising(p: seq<Point>) {
    forall i, j :: 0 <= i < j < |p| ==> p[i].v <= p[j].v
  }

  predicate SetPointsRise(p: seq<Point>) {
    forall i, j :: 0 <= i < j < |p| && p[i].flag && p[j].flag ==> p[i].v <= p[j].v
  }

  /** Set points that do not fall give a curve that does not fall. */
  lemma RisingCurve(p: seq<Point>)
    requires Ends(p) && SetPointsRise(p)
    ensures Rising(Interpolated(p))
  {
    hide OnLine, Interpolated, Prev, Next;
    forall i, j | 0 <= i < j < |p|
      ensures Interpolated(p)[i].v <= Interpolated(p)[j].v
    {
      RisingPair(p, i, j);
    }
  }

  lemma RisingPair(p: seq<Point>, i: nat, j: nat)
    requires Ends(p) && SetPointsRise(p) && i < j < |p|
    ensures Interpolated(p)[i].v <= Interpolated(p)[j].v
  {
    hide OnLine, Interpolated, Prev, Next;
    var e, f := Next(p, i), Prev(p, j);
    BetweenNeighbours(p, i);
    BetweenNeighbours(p, j);
    if e <= f {
      assert p[Prev(p, i)].v <= p[e].v <= p[f].v <= p[Next(p, j)].v;
    } else {
      SameNeighbours(p, i, j);
      LineMonotone(p[f].v, p[e].v, i - f, j - f, e - f);
    }
  }

  lemma SameNeighbours(p: seq<Point>, i: nat, j: nat)
    requires Ends(p) && i < j < |p| && Prev(p, j) < Next(p, i)
    ensures !p[i].flag && !p[j].flag && Prev(p, i) == Prev(p, j) && Next(p, i) == Next(p, j)
  {
    hide Prev, Next;
  }

  /** Interpolating again changes nothing. */
  lemma InterpolatedTwice(p: seq<Point>)
    requires Ends(p)
    ensures Ends(Interpolated(p)) && Interpolated(Interpolated(p)) == Interpolated(p)
  {
    hide OnLine, Prev, Next;
    var q := Interpolated(p);
    forall k | 0 <= k < |p|
      ensures ValueAt(q, k) == ValueAt(p, k)
    {
      NeighboursAre(q, k, Prev(p, k), Next(p, k));
    }
  }

  /** The first set point from k on, or the number of points if there is none. */
  function Ahead(p: seq<Point>, k: nat): (e: nat)
    requires k <= |p|
    ensures k <= e <= |p| && (e < |p| ==> p[e].flag) && forall j :: k <= j < e ==> !p[j].flag
    decreases |p| - k
  {
    if k == |p| || p[k].flag then k else Ahead(p, k + 1)
  }

  /** Going from set point to set point, interpolation looks for one past the last point. */
  predicate Leaves(p: seq<Point>, front: nat)
    requires front < |p|
    decreases |p| - front
  {
    front != |p| - 1 && (var e := Ahead(p, front + 1); e == |p| || Leaves(p, e))
  }

  /** Interpolation stays within the points exactly if the last one is set. */
  lemma {:induction false} LeavesIff(p: seq<Point>, front: nat)
    requires front < |p| - 1
    ensures Leaves(p, front) <==> !p[|p| - 1].flag
    decreases |p| - front
  {
    var e := Ahead(p, front + 1);
    if e < |p| - 1 {
      LeavesIff(p, e);
    }
  }

  // ---------- The loops ----------

  /** Interpolate in place. */
  method Interpolate(points: array<Point>)
    requires Ends(points[..])
    modifies points
    ensures points[..] == Interpolated(old(points[..]))
  {
    ghost var p := points[..];
    var front, end := 0, 1;
    while front != points.Length - 1
      invariant 0 <= front < points.Length && end == front + 1 && p[front].flag
      invariant forall k :: 0 <= k <= front ==> points[k] == Interpolated(p)[k]
      invariant forall k :: front <= k < points.Length ==> points[k] == p[k]
      decreases points.Length - front
    {
      end := FirstSet(points, end);
      FillIn(points, front, end, p);
      front := end;
      end := end + 1;
    }
  }

  method FirstSet(points: array<Point>, from: nat) returns (end: nat)
    requires from < points.Length && points[points.Length - 1].flag
    ensures from <= end < points.Length && points[end].flag && forall k :: from <= k < end ==> !points[k].flag
  {
    end := from;
    while !points[end].flag
      invariant from <= end < points.Length && forall k :: from <= k < end ==> !points[k].flag
      decreases points.Length - end
    {
      end := end + 1;
    }
  }

  /** The points between two neighbouring set ones. */
  method FillIn(points: array<Point>, front: nat, end: nat, ghost p: seq<Point>)
    requires front < end < points.Length == |p| && Ends(p) && p[front].flag && p[end].flag
    requires forall k :: front < k < end ==> !p[k].flag
    requires forall k :: front <= k < points.Length ==> points[k] == p[k]
    modifies points
    ensures forall k :: 0 <= k <= front ==> points[k] == old(points[k])
    ensures forall k :: front < k <= end ==> points[k] == Interpolated(p)[k]
    ensures forall k :: end <= k < points.Length ==> points[k] == p[k]
  {
    hide OnLine, Interpolated, ValueAt, Ends, Trunc, Along, Slope;
    AtSet(p, end);
    var a, b, n := points[front].v, points[end].v, end - front;
    var delta := Slope(a, b, n);
    for i := 1 to end - front
      invariant forall k :: 0 <= k <= front ==> points[k] == old(points[k])
      invariant forall k :: front < k < front + i ==> points[k] == Interpolated(p)[k]
      invariant forall k :: front + i <= k < points.Length ==> points[k] == p[k]
    {
      Filled(p, front, end, front + i);
      LineValue(a, b, i, n);
      points[front + i] := points[front + i].(v := Trunc(a as real + Along(i, delta)));
    }
  }

  lemma LineValue(a: int, b: int, i: nat, n: nat)
    requires n > 0
    ensures Trunc(a as real + Along(i, Slope(a, b, n))) == OnLine(a, b, i, n)
  {
  }

  lemma Filled(p: seq<Point>, front: nat, end: nat, k: nat)
    requires front < k < end < |p| && Ends(p) && p[front].flag && p[end].flag
    requires forall k :: front < k < end ==> !p[k].flag
    ensures !p[k].flag && Interpolated(p)[k] == Point(OnLine(p[front].v, p[end].v, k - front, end - front), false)
  {
    hide OnLine, Prev, Next, Interpolated;
    NeighboursAre(p, k, front, end);
  }

  lemma NeighboursAre(p: seq<Point>, k: nat, f: nat, e: nat)
    requires Ends(p) && f <= k <= e < |p| && p[f].flag && p[e].flag
    requires (forall j :: f < j <= k ==> !p[j].flag) && forall j :: k <= j < e ==> !p[j].flag
    ensures Prev(p, k) == f && Next(p, k) == e
  {
    hide Prev, Next;
  }
}
