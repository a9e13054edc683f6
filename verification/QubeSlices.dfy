/** Slices in terms of the numbers in the header. */
module QubeSlices {
  import opened Bytes
  import opened Qube
  import opened QubeReader
  import opened QubeFile

  // ---------- One axis ----------

  /** All four numbers are given, and the slice lies in the cube. */
  predicate Plain(a: Axis) {
    1 <= a.lo <= a.hi <= a.size && a.skip >= 1
  }

  predicate PlainAll(ax: Triple<Axis>) {
    Plain(ax.x0) && Plain(ax.x1) && Plain(ax.x2)
  }

  /** Every skip-th coordinate from lo to hi, counted from 1. */
  lemma PlainAxis(a: Axis)
    requires Plain(a)
    ensures Slices(a) && Defaulted(a) == a && Steps(a) == (a.hi - a.lo) / a.skip + 1
    ensures forall i: nat :: Coord(a, i) == a.lo - 1 + i * a.skip && (i < Steps(a) <==> a.lo + i * a.skip <= a.hi)
  {
    forall i: nat
      ensures i < Steps(a) <==> a.lo + i * a.skip <= a.hi
    {
      StepWithin(a.hi - a.lo + 1, a.skip, i);
    }
  }

  /** The two read the same. */
  predicate SameRead(a: Axis, b: Axis) {
    Slices(a) == Slices(b) && Defaulted(a) == Defaulted(b)
  }

  /** What a 0 stands for, and a slice that goes on after the cube's end. */
  lemma Defaults(a: Axis)
    ensures a.size == 0 ==> SameRead(a, a.(size := 1))
    ensures a.lo == 0 ==> SameRead(a, a.(lo := 1))
    ensures a.size != 0 && (a.hi == 0 || a.hi > a.size) ==> SameRead(a, a.(hi := a.size))
    ensures a.skip == 0 ==> SameRead(a, a.(skip := 1))
  {
  }

  /** Every slice that can be read has plain numbers. */
  lemma PlainForm(a: Axis)
    requires Slices(a)
    ensures Plain(Defaulted(a)) && SameRead(a, Defaulted(a))
  {
  }

  // ---------- Items ----------

  /** How many coordinates are taken on each axis. */
  function Counts(ax: Triple<Axis>): Triple<nat>
    requires PlainAll(ax)
  {
    Triple((ax.x0.hi - ax.x0.lo) / ax.x0.skip + 1, (ax.x1.hi - ax.x1.lo) / ax.x1.skip + 1,
      (ax.x2.hi - ax.x2.lo) / ax.x2.skip + 1)
  }

  /** Item (i, j, k) of the slice in the file. */
  function Wanted(file: seq<Byte>, l: Layout, ax: Triple<Axis>, i: nat, j: nat, k: nat): seq<Byte>
    requires PlainAll(ax)
  {
    Item(file, Pos(l, ax.x0.size, ax.x1.size, ax.x0.lo - 1 + i * ax.x0.skip, ax.x1.lo - 1 + j * ax.x1.skip,
                   ax.x2.lo - 1 + k * ax.x2.skip), l.nb)
  }

  /** The file goes on to the end of the last wanted line of plane k of the slice. */
  predicate HoldsPlane(file: seq<Byte>, l: Layout, ax: Triple<Axis>, k: nat)
    requires PlainAll(ax)
  {
    l.dptr + (ax.x2.lo - 1 + k * ax.x2.skip) * PlaneLen(l, ax.x0.size, ax.x1.size)
    + ax.x1.hi * LineLen(l, ax.x0.size) <= |file|
  }

  lemma PlainAllAxes(ax: Triple<Axis>)
    requires PlainAll(ax)
    ensures SlicesAll(ax) && StepsAll(ax) == Counts(ax) && DefaultedAll(ax) == ax && Sizes(ax) ==
            Triple(ax.x0.size, ax.x1.size, ax.x2.size)
  {
    PlainAxis(ax.x0);
    PlainAxis(ax.x1);
    PlainAxis(ax.x2);
  }

  lemma FitsIff(file: seq<Byte>, l: Layout, ax: Triple<Axis>, k: nat)
    requires PlainAll(ax) && SlicesAll(ax)
    ensures PlaneFits(file, l, ax, k) <==> HoldsPlane(file, l, ax, k)
  {
    PlainAxis(ax.x2);
    PlainAllAxes(ax);
    var d := LineLen(l, ax.x0.size);
    assert (ax.x1.lo - 1) * d + d * (ax.x1.hi - ax.x1.lo + 1) == ax.x1.hi * d;
  }

  /** A plane that is there has all those before it. */
  lemma EarlierFits(file: seq<Byte>, l: Layout, ax: Triple<Axis>, k: nat, m: nat)
    requires PlainAll(ax) && k <= m && HoldsPlane(file, l, ax, m)
    ensures HoldsPlane(file, l, ax, k)
  {
    var p := PlaneLen(l, ax.x0.size, ax.x1.size);
    hide PlaneLen, LineLen;
    Ordered(k, m, ax.x2.skip);
    Ordered(ax.x2.lo - 1 + k * ax.x2.skip, ax.x2.lo - 1 + m * ax.x2.skip, p);
  }

  /** Exactly the planes that the file holds are read. */
  lemma {:induction false} PlanesReadIff(file: seq<Byte>, l: Layout, ax: Triple<Axis>, from: nat, k: nat)
    requires PlainAll(ax) && SlicesAll(ax) && from <= k < Steps(ax.x2)
    ensures k < PlanesFrom(file, l, ax, from) <==> HoldsPlane(file, l, ax, k)
    decreases Steps(ax.x2) - from
  {
    hide PlaneFits, HoldsPlane, Steps, Slices;
    FitsIff(file, l, ax, from);
    if HoldsPlane(file, l, ax, k) {
      EarlierFits(file, l, ax, from, k);
    }
    if PlaneFits(file, l, ax, from) && from < k {
      PlanesReadIff(file, l, ax, from + 1, k);
    }
  }

  /** A line that is there has all its wanted items. */
  lemma ItemThere(file: seq<Byte>, l: Layout, ax: Triple<Axis>, i: nat, j: nat, k: nat)
    requires PlainAll(ax) && HoldsPlane(file, l, ax, k)
    requires i < Counts(ax).x0 && j < Counts(ax).x1
    ensures SlicesAll(ax)
    ensures 0 <= GridOf(l, ax).At(i, j, k) && GridOf(l, ax).At(i, j, k) + l.nb <= |file|
    ensures Item(file, GridOf(l, ax).At(i, j, k), l.nb) == Wanted(file, l, ax, i, j, k)
  {
    PlainAllAxes(ax);
    GridPos(l, ax, i, j, k);
    PlainAxis(ax.x0);
    PlainAxis(ax.x1);
    PlainAxis(ax.x2);
    var x, y, z := Coord(ax.x0, i), Coord(ax.x1, j), Coord(ax.x2, k);
    var d := LineLen(l, ax.x0.size);
    Times(i, ax.x0.skip);
    Times(j, ax.x1.skip);
    Times(k, ax.x2.skip);
    hide PlaneLen;
    LineRoom(l, ax.x0.size, x, y, ax.x1.hi);
    Times(z, PlaneLen(l, ax.x0.size, ax.x1.size));
  }

  /** What a read of any file gives: item (i, j, k) of the result is the file's item at the coordinates that
      the header's numbers ask for, in every plane that the file holds. */
  lemma ReadItem(file: seq<Byte>, l: Layout, ax: Triple<Axis>, i: nat, j: nat, k: nat)
    requires PlainAll(ax) && i < Counts(ax).x0 && j < Counts(ax).x1 && k < Counts(ax).x2 && HoldsPlane(file, l, ax, k)
    ensures SlicesAll(ax)
    ensures var c := Cube(file, GridOf(l, ax), PlanesRead(file, l, ax));
            && Place(Counts(ax), i, j, k) * l.nb + l.nb <= |c|
            && Item(c, Place(Counts(ax), i, j, k) * l.nb, l.nb) == Wanted(file, l, ax, i, j, k)
  {
    PlainAllAxes(ax);
    PlanesReadIff(file, l, ax, 0, k);
    hide Place, Cube, HoldsPlane, Grid.At, Pos, Wanted, Counts, Steps;
    var m, g := PlanesRead(file, l, ax), GridOf(l, ax);
    var h := g.(n := g.n.(x2 := m));
    forall i: nat, j: nat, k: nat | i < h.n.x0 && j < h.n.x1 && k < h.n.x2
      ensures 0 <= h.At(i, j, k) && h.At(i, j, k) + h.nb <= |file|
    {
      PlanesReadIff(file, l, ax, 0, k);
      ItemThere(file, l, ax, i, j, k);
      SameAt(g, h, i, j, k);
    }
    CubeItem(file, h, m, i, j, k);
    SameCube(file, g, h, m);
    ItemThere(file, l, ax, i, j, k);
    SameAt(g, h, i, j, k);
    SamePlace(g.n, h.n, i, j, k);
    PlaceRoom(h.n, l.nb, i, j, k);
  }

  lemma SameAt(g: Grid, h: Grid, i: nat, j: nat, k: nat)
    requires h == g.(n := h.n)
    ensures h.At(i, j, k) == g.At(i, j, k)
  {
  }

  lemma SamePlace(n: Triple<nat>, m: Triple<nat>, i: nat, j: nat, k: nat)
    requires n.x0 == m.x0 && n.x1 == m.x1
    ensures Place(n, i, j, k) == Place(m, i, j, k)
  {
  }

  lemma PlaceRoom(n: Triple<nat>, nb: nat, i: nat, j: nat, k: nat)
    requires i < n.x0 && j < n.x1 && k < n.x2
    ensures Place(n, i, j, k) * nb + nb <= n.x2 * (n.x1 * (n.x0 * nb))
  {
    PlaceBelow(n, Triple(i, j, k));
    Below(Place(n, i, j, k), Total(n), nb);
    assert n.x0 * n.x1 * n.x2 * nb == n.x2 * (n.x1 * (n.x0 * nb));
  }

  lemma SameCube(file: seq<Byte>, g: Grid, h: Grid, m: nat)
    requires h == g.(n := h.n) && h.n.x0 == g.n.x0 && h.n.x1 == g.n.x1
    ensures Cube(file, g, m) == Cube(file, h, m)
  {
    forall k: nat | k < m
      ensures PlanesOf(file, g)(k) == PlanesOf(file, h)(k)
    {
      forall j: nat | j < g.n.x1
        ensures LinesOf(file, g, k)(j) == LinesOf(file, h, k)(j)
      {
      }
      GatherSame(g.n.x1, LinesOf(file, g, k), LinesOf(file, h, k));
    }
    GatherSame(m, PlanesOf(file, g), PlanesOf(file, h));
  }

  /** Reading a slice given by plain numbers. */
  method ReadPlain(h: IHeader, file: seq<Byte>) returns (data: array<Byte>)
    requires h.layout.nb > 0 && PlainAll(h.Axes())
    modifies h
    ensures h.Axes() == old(h.Axes())
    ensures var ax, l := old(h.Axes()), h.layout;
            && data.Length == Counts(ax).x0 * Counts(ax).x1 * Counts(ax).x2 * l.nb
            && forall i: nat, j: nat, k: nat ::
                 i < Counts(ax).x0 && j < Counts(ax).x1 && k < Counts(ax).x2 && HoldsPlane(file, l, ax, k) ==>
                   Item(data[..], Place(Counts(ax), i, j, k) * l.nb, l.nb) == Wanted(file, l, ax, i, j, k)
  {
    hide Place, Cube, HoldsPlane, Wanted, Counts, GridOf, PlanesRead, Slices, Steps, Defaulted, Plain, Count;
    ghost var ax, l := h.Axes(), h.layout;
    PlainAllAxes(ax);
    CountIs(ax);
    data := h.ReadQubeData(file);
    ghost var c := Cube(file, GridOf(l, ax), PlanesRead(file, l, ax));
    forall i: nat, j: nat, k: nat |
      i < Counts(ax).x0 && j < Counts(ax).x1 && k < Counts(ax).x2 && HoldsPlane(file, l, ax, k)
      ensures Item(data[..], Place(Counts(ax), i, j, k) * l.nb, l.nb) == Wanted(file, l, ax, i, j, k)
    {
      ReadItem(file, l, ax, i, j, k);
      SameItem(c, data[..], Place(Counts(ax), i, j, k) * l.nb, l.nb);
    }
  }

  lemma SameItem(c: seq<Byte>, data: seq<Byte>, at: int, nb: nat)
    requires c <= data && 0 <= at && at + nb <= |c|
    ensures Item(data, at, nb) == Item(c, at, nb)
  {
  }

  // ---------- Pixels of a cube ----------

  /** Item (band k of the pixel at sample i of line j) of a slice of a cube in pixel order is the cube's item at
      the coordinates that the slice's numbers ask for. */
  lemma PixelItem(cube: Cube3, ax: Triple<Axis>, nb: nat, i: nat, j: nat, k: nat)
    requires PlainAll(ax) && i < Counts(ax).x0 && j < Counts(ax).x1 && k < Counts(ax).x2
    requires ItemSized(cube, Triple(ax.x0.size, ax.x1.size, ax.x2.size), nb)
    ensures 0 <= i * ax.x0.skip && 0 <= j * ax.x1.skip && 0 <= k * ax.x2.skip
    ensures Item(CubePixels(cube, ax, Counts(ax)), ((j * Counts(ax).x0 + i) * Counts(ax).x2 + k) * nb, nb)
         == cube(ax.x0.lo - 1 + i * ax.x0.skip, ax.x1.lo - 1 + j * ax.x1.skip, ax.x2.lo - 1 + k * ax.x2.skip)
  {
    CubeItemAt(cube, ax, i, j, k);
    hide Counts, CubePixels, Gather, CubeRow, CubeRows, ItemSized, Plain, CubeAt, Item;
    var n := Counts(ax);
    var w, v, f := n.x2 * nb, n.x0 * (n.x2 * nb), CubeRows(cube, ax, n);
    PixelRowAt(cube, ax, nb, i, j, k);
    forall y: nat | y < n.x1
      ensures |f(y)| == v
    {
      PixelRowAt(cube, ax, nb, 0, y, 0);
    }
    InPixels(n.x1, f, v, j, i * w + k * nb, nb);
    PixelsAre(cube, ax, n);
    PixelPlace(n, nb, i, j, k);
  }

  lemma InPixels(n: nat, f: nat -> seq<Byte>, v: nat, j: nat, at: nat, nb: nat)
    requires (forall y: nat :: y < n ==> |f(y)| == v) && j < n && at + nb <= v
    ensures j * v >= 0 && Item(Gather(n, f), j * v + at, nb) == f(j)[at..at + nb]
  {
    hide Gather;
    GatherAt(n, f, v, j);
    NestedSlice(Gather(n, f), j * v, v, at, nb);
  }

  /** Item (i, j, k) of the slice in the cube. */
  lemma CubeItemAt(cube: Cube3, ax: Triple<Axis>, i: nat, j: nat, k: nat)
    requires PlainAll(ax)
    ensures 0 <= i * ax.x0.skip && 0 <= j * ax.x1.skip && 0 <= k * ax.x2.skip
    ensures CubeAt(cube, ax, i, j, k)
         == cube(ax.x0.lo - 1 + i * ax.x0.skip, ax.x1.lo - 1 + j * ax.x1.skip, ax.x2.lo - 1 + k * ax.x2.skip)
  {
    Times(i, ax.x0.skip);
    Times(j, ax.x1.skip);
    Times(k, ax.x2.skip);
  }

  lemma PixelsAre(cube: Cube3, ax: Triple<Axis>, n: Triple<nat>)
    ensures CubePixels(cube, ax, n) == Gather(n.x1, CubeRows(cube, ax, n))
  {
  }

  lemma PixelPlace(n: Triple<nat>, nb: nat, i: nat, j: nat, k: nat)
    ensures ((j * n.x0 + i) * n.x2 + k) * nb == j * (n.x0 * (n.x2 * nb)) + (i * (n.x2 * nb) + k * nb)
  {
    assert ((j * n.x0 + i) * n.x2 + k) * nb == (j * n.x0 + i) * (n.x2 * nb) + k * nb;
    assert (j * n.x0 + i) * (n.x2 * nb) == j * n.x0 * (n.x2 * nb) + i * (n.x2 * nb);
    assert j * n.x0 * (n.x2 * nb) == j * (n.x0 * (n.x2 * nb));
  }

  /** The same within a line. */
  lemma PixelRowAt(cube: Cube3, ax: Triple<Axis>, nb: nat, i: nat, j: nat, k: nat)
    requires PlainAll(ax) && i < Counts(ax).x0 && j < Counts(ax).x1 && k < Counts(ax).x2
    requires ItemSized(cube, Triple(ax.x0.size, ax.x1.size, ax.x2.size), nb)
    ensures var n := Counts(ax);
            var w, r := n.x2 * nb, CubeRows(cube, ax, n)(j);
            && |r| == n.x0 * w && 0 <= i * w + k * nb && i * w + k * nb + nb <= |r|
            && r[i * w + k * nb..i * w + k * nb + nb] == CubeAt(cube, ax, i, j, k)
  {
    var n := Counts(ax);
    var w := n.x2 * nb;
    PixelAt(cube, ax, nb, i, j, k);
    forall x: nat | x < n.x0
      ensures |CubeRow(cube, ax, n, j)(x)| == w
    {
      PixelAt(cube, ax, nb, x, j, 0);
    }
    hide Counts, Gather, CubePixel, ItemSized, Plain, CubeAt;
    var f := CubeRow(cube, ax, n, j);
    GatherLength(n.x0, f, w);
    GatherAt(n.x0, f, w, i);
    NestedSlice(Gather(n.x0, f), i * w, w, k * nb, nb);
  }

  /** And within a pixel. */
  lemma PixelAt(cube: Cube3, ax: Triple<Axis>, nb: nat, i: nat, j: nat, k: nat)
    requires PlainAll(ax) && i < Counts(ax).x0 && j < Counts(ax).x1 && k < Counts(ax).x2
    requires ItemSized(cube, Triple(ax.x0.size, ax.x1.size, ax.x2.size), nb)
    ensures var n := Counts(ax);
            var p := CubeRow(cube, ax, n, j)(i);
            && |p| == n.x2 * nb && 0 <= k * nb && k * nb + nb <= |p|
            && p[k * nb..k * nb + nb] == CubeAt(cube, ax, i, j, k)
  {
    var n := Counts(ax);
    var f := CubePixel(cube, ax, i, j);
    forall z: nat | z < n.x2
      ensures |f(z)| == nb
    {
      Sized(cube, ax, nb, i, j, z);
    }
    hide Counts, Gather, ItemSized, Plain, CubeAt;
    GatherLength(n.x2, f, nb);
    GatherAt(n.x2, f, nb, k);
  }

  lemma Sized(cube: Cube3, ax: Triple<Axis>, nb: nat, i: nat, j: nat, k: nat)
    requires PlainAll(ax) && i < Counts(ax).x0 && j < Counts(ax).x1 && k < Counts(ax).x2
    requires ItemSized(cube, Triple(ax.x0.size, ax.x1.size, ax.x2.size), nb)
    ensures |CubeAt(cube, ax, i, j, k)| == nb
  {
    PlainAxis(ax.x0);
    PlainAxis(ax.x1);
    PlainAxis(ax.x2);
    Times(i, ax.x0.skip);
    Times(j, ax.x1.skip);
    Times(k, ax.x2.skip);
    var x, y, z := Coord(ax.x0, i), Coord(ax.x1, j), Coord(ax.x2, k);
    assert 0 <= x < ax.x0.size && 0 <= y < ax.x1.size && 0 <= z < ax.x2.size;
  }

  /** With defaults filled in the pixels are the same. */
  lemma PixelsDefaulted(cube: Cube3, ax: Triple<Axis>)
    requires SlicesAll(ax)
    ensures PlainAll(DefaultedAll(ax)) && Counts(DefaultedAll(ax)) == StepsAll(ax)
    ensures CubePixels(cube, ax, StepsAll(ax)) == CubePixels(cube, DefaultedAll(ax), StepsAll(ax))
  {
    var r, n := DefaultedAll(ax), StepsAll(ax);
    PlainForm(ax.x0);
    PlainForm(ax.x1);
    PlainForm(ax.x2);
    PlainAllAxes(r);
    hide CubeAt, Steps, Slices, Counts, Plain, Defaulted, Gather;
    forall j: nat | j < n.x1
      ensures CubeRows(cube, ax, n)(j) == CubeRows(cube, r, n)(j)
    {
      forall i: nat | i < n.x0
        ensures CubeRow(cube, ax, n, j)(i) == CubeRow(cube, r, n, j)(i)
      {
        forall k: nat | k < n.x2
          ensures CubePixel(cube, ax, i, j)(k) == CubePixel(cube, r, i, j)(k)
        {
          SameCubeAt(cube, ax, i, j, k);
        }
        GatherSame(n.x2, CubePixel(cube, ax, i, j), CubePixel(cube, r, i, j));
      }
      GatherSame(n.x0, CubeRow(cube, ax, n, j), CubeRow(cube, r, n, j));
    }
    GatherSame(n.x1, CubeRows(cube, ax, n), CubeRows(cube, r, n));
  }

  lemma SameCubeAt(cube: Cube3, ax: Triple<Axis>, i: nat, j: nat, k: nat)
    requires SlicesAll(ax)
    ensures CubeAt(cube, ax, i, j, k) == CubeAt(cube, DefaultedAll(ax), i, j, k)
  {
  }

  /** A slice that a user states in full is the one that is read, whatever the header asked for before;
      numbers left at 0 stay as they were. */
  lemma Asked(a: Axis, s: Axis)
    ensures s.lo > 0 && s.hi > 0 && s.skip > 0 ==> Taken(a, s) == s.(size := a.size)
    ensures s.lo == 0 ==> Taken(a, s) == Taken(a, s.(lo := a.lo))
    ensures s.hi == 0 ==> Taken(a, s) == Taken(a, s.(hi := a.hi))
    ensures s.skip == 0 ==> Taken(a, s) == Taken(a, s.(skip := a.skip))
    ensures Taken(a, s.(lo := 0, hi := 0, skip := 0)) == a
  {
  }

  // ---------- The three organisations ----------

  /** The place of sample x of line y of band z in a file without prefixes, suffixes and labels: band after band,
      or line after line with all its bands, or line after line of whole pixels. */
  function PlainPlace(org: Org, samples: nat, lines: nat, bands: nat, x: nat, y: nat, z: nat): nat {
    match org
    case BSQ => (z * lines + y) * samples + x
    case BIL => (y * bands + z) * samples + x
    case BIP => (y * samples + x) * bands + z
  }

  /** What it means that such a file stores a cube. */
  lemma PlainFile(file: seq<Byte>, nb: nat, org: Org, samples: nat, lines: nat, bands: nat, cube: Cube3)
    ensures Stores(file, Layout(0, 0, 0, 0, 0, nb), org, Triple(samples, lines, bands), cube) <==>
            forall x: nat, y: nat, z: nat :: x < samples && y < lines && z < bands ==>
              Item(file, PlainPlace(org, samples, lines, bands, x, y, z) * nb, nb) == cube(x, y, z)
  {
    var l, size := Layout(0, 0, 0, 0, 0, nb), Triple(samples, lines, bands);
    hide Pos, PlainPlace, Item;
    forall x: nat, y: nat, z: nat
      ensures var n, a := InOrg(org, size), InOrg(org, Triple(x, y, z));
              Pos(l, n.x0, n.x1, a.x0, a.x1, a.x2) == PlainPlace(org, samples, lines, bands, x, y, z) * nb
    {
      PlainPos(nb, org, samples, lines, bands, x, y, z);
    }
  }

  lemma PlainPos(nb: nat, org: Org, samples: nat, lines: nat, bands: nat, x: nat, y: nat, z: nat)
    ensures var n, a := InOrg(org, Triple(samples, lines, bands)), InOrg(org, Triple(x, y, z));
            Pos(Layout(0, 0, 0, 0, 0, nb), n.x0, n.x1, a.x0, a.x1, a.x2) ==
              PlainPlace(org, samples, lines, bands, x, y, z) * nb
  {
    var n, a := InOrg(org, Triple(samples, lines, bands)), InOrg(org, Triple(x, y, z));
    PlaceBytes(n, nb, a.x0, a.x1, a.x2);
    assert n.x0 * nb * n.x1 == n.x1 * (n.x0 * nb);
  }
}
