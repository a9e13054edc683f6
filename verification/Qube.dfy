/** Strided slices and organisations of cubes. */
module Qube {
  import opened Bytes

  /** Three values, one an axis. */
  datatype Triple<T> = Triple(x0: T, x1: T, x2: T) {
    function Get(i: nat): T
      requires i < 3
    {
      if i == 0 then x0 else if i == 1 then x1 else x2
    }

    function Set(i: nat, v: T): Triple<T>
      requires i < 3
    {
      if i == 0 then this.(x0 := v) else if i == 1 then this.(x1 := v) else this.(x2 := v)
    }
  }

  // ---------- Slices ----------

  /** One axis of a header: the size in the file and the part of it to be read, counted from 1; 0 asks
      for the default. */
  datatype Axis = Axis(size: int, lo: int, hi: int, skip: int)

  function Defaulted(a: Axis): (r: Axis)
    ensures r.hi <= r.size
  {
    var size := if a.size == 0 then 1 else a.size;
    var hi := if a.hi == 0 || a.hi > size then size else a.hi;
    Axis(size, if a.lo == 0 then 1 else a.lo, hi, if a.skip == 0 then 1 else a.skip)
  }

  /** The slice is not empty and lies in the cube. */
  predicate Slices(a: Axis) {
    var r := Defaulted(a);
    1 <= r.lo <= r.hi && r.skip >= 1
  }

  /** How many coordinates a slice takes. */
  function Steps(a: Axis): (n: nat)
    requires Slices(a)
    ensures n >= 1
  {
    var r := Defaulted(a);
    (r.hi - r.lo) / r.skip + 1
  }

  lemma StepWithin(dim: nat, skip: nat, i: nat)
    requires dim >= 1 && skip >= 1
    ensures i * skip < dim <==> i < (dim - 1) / skip + 1
  {
    var q, r := (dim - 1) / skip, (dim - 1) % skip;
    assert dim - 1 == q * skip + r && r < skip;
    if i <= q {
      assert i * skip <= q * skip;
    } else {
      assert i * skip >= (q + 1) * skip == q * skip + skip;
    }
  }

  // ---------- Layout ----------

  /** How a file stores a cube: what stands before the first plane, around each line, after the lines of
      a plane (pad bytes an item of a line, and a corner), and the size of an item. */
  datatype Layout = Layout(dptr: nat, prefix: nat, suffix: nat, pad: nat, corner: nat, nb: nat)

  function LineLen(l: Layout, size0: nat): nat {
    size0 * l.nb + l.suffix + l.prefix
  }

  function PlaneLen(l: Layout, size0: nat, size1: nat): nat {
    LineLen(l, size0) * size1 + size0 * l.pad + l.corner
  }

  /** Items on a three-dimensional grid: n0 by n1 by n2 of them, the first at start. */
  datatype Grid = Grid(start: int, n: Triple<nat>, step: Triple<int>, nb: nat) {
    function At(i: int, j: int, k: int): int {
      start + i * step.x0 + j * step.x1 + k * step.x2
    }
  }

  function LineOf(src: seq<Byte>, g: Grid, j: int, k: int): seq<Byte> {
    Gather(g.n.x0, Items(src, g.At(0, j, k), g.step.x0, g.nb))
  }

  function LinesOf(src: seq<Byte>, g: Grid, k: int): nat -> seq<Byte> {
    j => LineOf(src, g, j, k)
  }

  function PlaneOf(src: seq<Byte>, g: Grid, k: int): seq<Byte> {
    Gather(g.n.x1, LinesOf(src, g, k))
  }

  function PlanesOf(src: seq<Byte>, g: Grid): nat -> seq<Byte> {
    k => PlaneOf(src, g, k)
  }

  /** The first m planes of the grid, the first axis running fastest. */
  function Cube(src: seq<Byte>, g: Grid, m: nat): seq<Byte> {
    Gather(m, PlanesOf(src, g))
  }

  /** Every item of the grid lies in the file. */
  ghost predicate Holds(src: seq<Byte>, g: Grid) {
    forall i: nat, j: nat, k: nat :: i < g.n.x0 && j < g.n.x1 && k < g.n.x2 ==>
      0 <= g.At(i, j, k) && g.At(i, j, k) + g.nb <= |src|
  }

  /** Item i of a line is the one at its place of the grid. */
  lemma ItemHeld(src: seq<Byte>, g: Grid, i: nat, j: nat, k: nat)
    requires Holds(src, g) && i < g.n.x0 && j < g.n.x1 && k < g.n.x2
    ensures 0 <= g.At(i, j, k) <= g.At(i, j, k) + g.nb <= |src|
    ensures Items(src, g.At(0, j, k), g.step.x0, g.nb)(i) == src[g.At(i, j, k)..g.At(i, j, k) + g.nb]
  {
    assert 0 <= g.At(i, j, k) && g.At(i, j, k) + g.nb <= |src|;
    hide Holds;
    assert g.At(i, j, k) == g.At(0, j, k) + i * g.step.x0;
  }

  lemma LineHeld(src: seq<Byte>, g: Grid, j: nat, k: nat)
    requires Holds(src, g) && j < g.n.x1 && k < g.n.x2
    ensures forall i: nat :: i < g.n.x0 ==> |Items(src, g.At(0, j, k), g.step.x0, g.nb)(i)| == g.nb
    ensures |LineOf(src, g, j, k)| == g.n.x0 * g.nb
  {
    hide Holds, Items, Gather;
    var f := Items(src, g.At(0, j, k), g.step.x0, g.nb);
    forall i: nat | i < g.n.x0
      ensures |f(i)| == g.nb
    {
      ItemHeld(src, g, i, j, k);
    }
    GatherLength(g.n.x0, f, g.nb);
  }

  lemma InLine(src: seq<Byte>, g: Grid, i: nat, j: nat, k: nat)
    requires Holds(src, g) && i < g.n.x0 && j < g.n.x1 && k < g.n.x2
    ensures var l := LineOf(src, g, j, k);
            && |l| == g.n.x0 * g.nb && 0 <= i * g.nb <= i * g.nb + g.nb <= |l|
            && 0 <= g.At(i, j, k) <= g.At(i, j, k) + g.nb <= |src|
            && l[i * g.nb..i * g.nb + g.nb] == src[g.At(i, j, k)..g.At(i, j, k) + g.nb]
  {
    hide Holds, Items, Gather;
    LineHeld(src, g, j, k);
    ItemHeld(src, g, i, j, k);
    GatherAt(g.n.x0, Items(src, g.At(0, j, k), g.step.x0, g.nb), g.nb, i);
  }

  lemma InPlane(src: seq<Byte>, g: Grid, j: nat, k: nat)
    requires Holds(src, g) && g.n.x0 > 0 && j < g.n.x1 && k < g.n.x2
    ensures var p, L := PlaneOf(src, g, k), g.n.x0 * g.nb;
            |p| == g.n.x1 * L && 0 <= j * L <= j * L + L <= |p| && p[j * L..j * L + L] == LineOf(src, g, j, k)
  {
    hide Holds, LineOf;
    var f, L := LinesOf(src, g, k), g.n.x0 * g.nb;
    forall j: nat | j < g.n.x1
      ensures |f(j)| == L
    {
      InLine(src, g, 0, j, k);
    }
    GatherLength(g.n.x1, f, L);
    GatherAt(g.n.x1, f, L, j);
  }

  lemma InCube(src: seq<Byte>, g: Grid, m: nat, k: nat)
    requires Holds(src, g) && g.n.x0 > 0 && g.n.x1 > 0 && k < m <= g.n.x2
    ensures var c, P := Cube(src, g, m), g.n.x1 * (g.n.x0 * g.nb);
            |c| == m * P && 0 <= k * P <= k * P + P <= |c| && c[k * P..k * P + P] == PlaneOf(src, g, k)
  {
    hide Holds, PlaneOf;
    var f, P := PlanesOf(src, g), g.n.x1 * (g.n.x0 * g.nb);
    forall k: nat | k < m
      ensures |f(k)| == P
    {
      InPlane(src, g, 0, k);
    }
    GatherLength(m, f, P);
    GatherAt(m, f, P, k);
  }

  /** Where item (i, j, k) of a cube of n items lands, counted in items. */
  function Place(n: Triple<nat>, i: nat, j: nat, k: nat): nat {
    (k * n.x1 + j) * n.x0 + i
  }

  /** Item (i, j, k) of what was read is the item at (i, j, k) of the grid. */
  lemma CubeItem(src: seq<Byte>, g: Grid, m: nat, i: nat, j: nat, k: nat)
    requires Holds(src, g) && m <= g.n.x2 && i < g.n.x0 && j < g.n.x1 && k < m
    ensures |Cube(src, g, m)| == m * (g.n.x1 * (g.n.x0 * g.nb))
    ensures 0 <= g.At(i, j, k) <= g.At(i, j, k) + g.nb <= |src|
    ensures Item(Cube(src, g, m), Place(g.n, i, j, k) * g.nb, g.nb) == src[g.At(i, j, k)..g.At(i, j, k) + g.nb]
  {
    hide Holds, Cube, PlaneOf, LineOf;
    var L := g.n.x0 * g.nb;
    var P := g.n.x1 * L;
    InCube(src, g, m, k);
    InPlane(src, g, j, k);
    InLine(src, g, i, j, k);
    var c := Cube(src, g, m);
    NestedSlice(c, k * P, P, j * L, L);
    NestedSlice(c, k * P + j * L, L, i * g.nb, g.nb);
    PlaceBytes(g.n, g.nb, i, j, k);
  }

  lemma PlaceBytes(n: Triple<nat>, nb: nat, i: nat, j: nat, k: nat)
    ensures Place(n, i, j, k) * nb == k * (n.x1 * (n.x0 * nb)) + j * (n.x0 * nb) + i * nb
  {
    assert (k * n.x1 + j) * n.x0 * nb == (k * n.x1 + j) * (n.x0 * nb);
    assert (k * n.x1 + j) * (n.x0 * nb) == k * n.x1 * (n.x0 * nb) + j * (n.x0 * nb);
    assert k * n.x1 * (n.x0 * nb) == k * (n.x1 * (n.x0 * nb));
  }

  // ---------- A slice of a file ----------

  predicate SlicesAll(ax: Triple<Axis>) {
    Slices(ax.x0) && Slices(ax.x1) && Slices(ax.x2)
  }

  function DefaultedAll(ax: Triple<Axis>): Triple<Axis> {
    Triple(Defaulted(ax.x0), Defaulted(ax.x1), Defaulted(ax.x2))
  }

  function Whole(a: Axis): Axis {
    Axis(a.size, 0, 0, 0)
  }

  function WholeAll(ax: Triple<Axis>): Triple<Axis> {
    Triple(Whole(ax.x0), Whole(ax.x1), Whole(ax.x2))
  }

  /** Where the file keeps item (x, y, z), counted from 0, of a cube with lines of size0 items and planes
      of size1 lines. */
  function Pos(l: Layout, size0: nat, size1: nat, x: int, y: int, z: int): int {
    l.dptr + z * PlaneLen(l, size0, size1) + y * LineLen(l, size0) + l.prefix + x * l.nb
  }

  /** The grid of the items that a slice takes. */
  function GridOf(l: Layout, ax: Triple<Axis>): Grid
    requires SlicesAll(ax)
  {
    var a := DefaultedAll(ax);
    Grid(Pos(l, a.x0.size, a.x1.size, a.x0.lo - 1, a.x1.lo - 1, a.x2.lo - 1),
         Triple(Steps(ax.x0), Steps(ax.x1), Steps(ax.x2)),
         Triple(a.x0.skip * l.nb, a.x1.skip * LineLen(l, a.x0.size), a.x2.skip * PlaneLen(l, a.x0.size, a.x1.size)),
         l.nb)
  }

  /** The coordinate in the file, counted from 0, of step i of a slice. */
  function Coord(a: Axis, i: nat): int {
    Defaulted(a).lo - 1 + i * Defaulted(a).skip
  }

  lemma CoordWithin(a: Axis, i: nat)
    requires Slices(a) && i < Steps(a)
    ensures 0 <= Defaulted(a).lo - 1 <= Coord(a, i) < Defaulted(a).hi <= Defaulted(a).size
  {
    var r := Defaulted(a);
    StepWithin(r.hi - r.lo + 1, r.skip, i);
    assert i * r.skip >= 0;
  }

  lemma GridPos(l: Layout, ax: Triple<Axis>, i: nat, j: nat, k: nat)
    requires SlicesAll(ax)
    ensures GridOf(l, ax).At(i, j, k)
         == Pos(l, Defaulted(ax.x0).size, Defaulted(ax.x1).size, Coord(ax.x0, i), Coord(ax.x1, j), Coord(ax.x2, k))
  {
    var a := DefaultedAll(ax);
    hide Defaulted;
    Spread(a.x0.lo - 1, i, a.x0.skip, l.nb);
    Spread(a.x1.lo - 1, j, a.x1.skip, LineLen(l, a.x0.size));
    Spread(a.x2.lo - 1, k, a.x2.skip, PlaneLen(l, a.x0.size, a.x1.size));
  }

  lemma Spread(lo: int, i: int, skip: int, unit: int)
    ensures (lo + i * skip) * unit == lo * unit + i * (skip * unit)
  {
  }

  /** An item lies within its line, the line within its plane, the plane within the cube. */
  lemma PosWithin(l: Layout, size0: nat, size1: nat, size2: nat, x: nat, y: nat, z: nat)
    requires x < size0 && y < size1 && z < size2
    ensures l.dptr <= Pos(l, size0, size1, x, y, z)
    ensures Pos(l, size0, size1, x, y, z) + l.nb <= l.dptr + size2 * PlaneLen(l, size0, size1)
  {
    var d, p := LineLen(l, size0), PlaneLen(l, size0, size1);
    Below(x, size0, l.nb);
    Below(y, size1, d);
    Below(z, size2, p);
    Times(x, l.nb);
    Times(y, d);
    Times(z, p);
    Times(size0, l.pad);
    assert p == size1 * d + size0 * l.pad + l.corner && d == size0 * l.nb + l.suffix + l.prefix;
  }

  lemma Times(a: nat, b: nat)
    ensures a * b >= 0
  {
  }

  lemma Below(x: nat, size: nat, unit: nat)
    requires x < size
    ensures x * unit + unit <= size * unit
  {
    var t := size - x - 1;
    Times(t, unit);
    assert size * unit == (x + 1 + t) * unit == x * unit + unit + t * unit;
  }

  /** The file holds all planes of the cube. */
  predicate LongEnough(file: seq<Byte>, l: Layout, ax: Triple<Axis>)
    requires SlicesAll(ax)
  {
    var a := DefaultedAll(ax);
    l.dptr + a.x2.size * PlaneLen(l, a.x0.size, a.x1.size) <= |file|
  }

  lemma GridHolds(file: seq<Byte>, l: Layout, ax: Triple<Axis>)
    requires SlicesAll(ax) && LongEnough(file, l, ax)
    ensures Holds(file, GridOf(l, ax))
  {
    var g, a := GridOf(l, ax), DefaultedAll(ax);
    forall i: nat, j: nat, k: nat | i < g.n.x0 && j < g.n.x1 && k < g.n.x2
      ensures 0 <= g.At(i, j, k) && g.At(i, j, k) + g.nb <= |file|
    {
      hide Pos, Defaulted, Grid.At;
      GridPos(l, ax, i, j, k);
      CoordWithin(ax.x0, i);
      CoordWithin(ax.x1, j);
      CoordWithin(ax.x2, k);
      PosWithin(l, a.x0.size, a.x1.size, a.x2.size, Coord(ax.x0, i), Coord(ax.x1, j), Coord(ax.x2, k));
    }
  }

  /** The bytes of a slice of a complete file. */
  function SliceOf(file: seq<Byte>, l: Layout, ax: Triple<Axis>): seq<Byte>
    requires SlicesAll(ax)
  {
    Cube(file, GridOf(l, ax), Steps(ax.x2))
  }

  /** A slice is what picking every skip-th item from lo on out of the whole cube gives. */
  lemma SliceOfWhole(file: seq<Byte>, l: Layout, ax: Triple<Axis>, i: nat, j: nat, k: nat)
    requires SlicesAll(ax) && LongEnough(file, l, ax)
    requires i < Steps(ax.x0) && j < Steps(ax.x1) && k < Steps(ax.x2)
    ensures SlicesAll(WholeAll(ax))
    ensures |SliceOf(file, l, ax)| == Steps(ax.x2) * (Steps(ax.x1) * (Steps(ax.x0) * l.nb))
    ensures var n, whole := GridOf(l, ax).n, GridOf(l, WholeAll(ax)).n;
            && Coord(ax.x0, i) < whole.x0 && Coord(ax.x1, j) < whole.x1 && Coord(ax.x2, k) < whole.x2
            && Item(SliceOf(file, l, ax), Place(n, i, j, k) * l.nb, l.nb)
            == Item(SliceOf(file, l, WholeAll(ax)),
               Place(whole, Coord(ax.x0, i), Coord(ax.x1, j), Coord(ax.x2, k)) * l.nb, l.nb)
  {
    hide Holds, Cube, Place, Pos, Grid.At;
    CoordWithin(ax.x0, i);
    CoordWithin(ax.x1, j);
    CoordWithin(ax.x2, k);
    var w := WholeAll(ax);
    var i', j', k' := Coord(ax.x0, i), Coord(ax.x1, j), Coord(ax.x2, k);
    GridHolds(file, l, ax);
    GridHolds(file, l, w);
    CubeItem(file, GridOf(l, ax), Steps(ax.x2), i, j, k);
    CubeItem(file, GridOf(l, w), Steps(w.x2), i', j', k');
    GridPos(l, ax, i, j, k);
    GridPos(l, w, i', j', k');
  }

  // ---------- Organisations ----------

  datatype Org = BSQ | BIL | BIP

  /** iom_orders: where samples, lines and bands end up. */
  function Order(org: Org): Triple<nat> {
    match org
    case BSQ => Triple(0, 1, 2)
    case BIL => Triple(0, 2, 1)
    case BIP => Triple(1, 2, 0)
  }

  /** Samples, lines and bands in the order of the organisation. */
  function InOrg<T>(org: Org, c: Triple<T>): Triple<T> {
    match org
    case BSQ => c
    case BIL => Triple(c.x0, c.x2, c.x1)
    case BIP => Triple(c.x2, c.x0, c.x1)
  }

  lemma InOrgFollowsOrder<T>(org: Org, c: Triple<T>, i: nat)
    requires i < 3
    ensures Order(org).Get(i) < 3 && InOrg(org, c).Get(Order(org).Get(i)) == c.Get(i)
  {
  }

  /** The index of the item at sample x, line y, band z in a cube of s samples, lines and bands. */
  function Offset(org: Org, s: Triple<nat>, x: nat, y: nat, z: nat): nat {
    match org
    case BSQ => z * (s.x1 * s.x0) + y * s.x0 + x
    case BIL => y * (s.x0 * s.x2) + z * s.x0 + x
    case BIP => y * (s.x0 * s.x2) + x * s.x2 + z
  }

  lemma OffsetIsPlace(org: Org, s: Triple<nat>, x: nat, y: nat, z: nat)
    ensures var a := InOrg(org, Triple(x, y, z));
            Offset(org, s, x, y, z) == Place(InOrg(org, s), a.x0, a.x1, a.x2)
  {
    match org
    case BSQ => Flat(z, s.x1, y, s.x0);
    case BIL => Flat(y, s.x2, z, s.x0);
    case BIP => Flat(y, s.x0, x, s.x2);
  }

  lemma Flat(k: nat, n1: nat, j: nat, n0: nat)
    ensures (k * n1 + j) * n0 == k * (n1 * n0) + j * n0 == k * (n0 * n1) + j * n0
  {
  }

  /** The cube pixel by pixel: all lines, all samples of a line, all bands of a sample. */
  function BipGrid(org: Org, s: Triple<nat>, nb: nat): Grid {
    var plane := s.x1 * s.x0;
    var step := match org
      case BSQ => Triple(plane * nb, nb, s.x0 * nb)
      case BIL => Triple(s.x0 * nb, nb, s.x0 * s.x2 * nb)
      case BIP => Triple(nb, s.x2 * nb, s.x0 * s.x2 * nb);
    Grid(0, Triple(s.x2, s.x0, s.x1), step, nb)
  }

  function Bip(data: seq<Byte>, org: Org, s: Triple<nat>, nb: nat): seq<Byte> {
    Cube(data, BipGrid(org, s, nb), s.x1)
  }

  lemma BipAt(org: Org, s: Triple<nat>, nb: nat, x: nat, y: nat, z: nat)
    ensures BipGrid(org, s, nb).At(z, x, y) == Offset(org, s, x, y, z) * nb
  {
    match org
    case BSQ => Weigh(z, s.x1 * s.x0, y, s.x0, x, nb);
    case BIL => Weigh(y, s.x0 * s.x2, z, s.x0, x, nb);
    case BIP => Weigh(y, s.x0 * s.x2, x, s.x2, z, nb);
  }

  lemma Weigh(a: nat, p: nat, b: nat, q: nat, c: nat, nb: nat)
    ensures (a * p + b * q + c) * nb == a * (p * nb) + b * (q * nb) + c * nb
  {
    assert (a * p + b * q + c) * nb == a * p * nb + b * q * nb + c * nb;
  }

  /** The same for a cube given by its items. */
  function CubePixel(cube: (nat, nat, nat) -> seq<Byte>, ax: Triple<Axis>, i: nat, j: nat): nat -> seq<Byte> {
    (k: nat) => CubeAt(cube, ax, i, j, k)
  }

  /** Item (i, j, k) of the slice of the cube. */
  function CubeAt(cube: (nat, nat, nat) -> seq<Byte>, ax: Triple<Axis>, i: nat, j: nat, k: nat): seq<Byte> {
    var x, y, z := Coord(ax.x0, i), Coord(ax.x1, j), Coord(ax.x2, k);
    if x >= 0 && y >= 0 && z >= 0 then cube(x, y, z) else []
  }

  function CubeRow(cube: (nat, nat, nat) -> seq<Byte>, ax: Triple<Axis>, n: Triple<nat>, j: nat): nat -> seq<Byte> {
    (i: nat) => Gather(n.x2, CubePixel(cube, ax, i, j))
  }

  function CubeRows(cube: (nat, nat, nat) -> seq<Byte>, ax: Triple<Axis>, n: Triple<nat>): nat -> seq<Byte> {
    (j: nat) => Gather(n.x0, CubeRow(cube, ax, n, j))
  }

  function CubePixels(cube: (nat, nat, nat) -> seq<Byte>, ax: Triple<Axis>, n: Triple<nat>): seq<Byte> {
    Gather(n.x1, CubeRows(cube, ax, n))
  }

  function StepsAll(ax: Triple<Axis>): Triple<nat>
    requires SlicesAll(ax)
  {
    Triple(Steps(ax.x0), Steps(ax.x1), Steps(ax.x2))
  }

  function Sizes(ax: Triple<Axis>): Triple<nat>
    requires SlicesAll(ax)
  {
    Triple(Defaulted(ax.x0).size, Defaulted(ax.x1).size, Defaulted(ax.x2).size)
  }

  /** The file keeps the cube in the given organisation. */
  ghost predicate Stores(file: seq<Byte>, l: Layout, org: Org, size: Triple<nat>, cube: (nat, nat, nat) -> seq<Byte>) {
    forall x: nat, y: nat, z: nat :: x < size.x0 && y < size.x1 && z < size.x2 ==>
      var n, a := InOrg(org, size), InOrg(org, Triple(x, y, z));
      Item(file, Pos(l, n.x0, n.x1, a.x0, a.x1, a.x2), l.nb) == cube(x, y, z)
  }

  /** What was read from the file, in pixel order, is the slice of the cube in pixel order: where the
      file put its axes, prefixes and corners makes no difference. */
  lemma OrganisationIndependent(file: seq<Byte>, l: Layout, org: Org, size: Triple<nat>, cube: (nat, nat,
                        nat) -> seq<Byte>, ax: Triple<Axis>)
    requires Stores(file, l, org, size, cube)
    requires SlicesAll(ax) && Sizes(ax) == size
    requires SlicesAll(InOrg(org, ax)) && LongEnough(file, l, InOrg(org, ax))
    ensures Bip(SliceOf(file, l, InOrg(org, ax)), org, StepsAll(ax), l.nb) == CubePixels(cube, ax, StepsAll(ax))
  {
    hide Stores, LongEnough, Offset, CubeAt;
    var data, n := SliceOf(file, l, InOrg(org, ax)), StepsAll(ax);
    var g := BipGrid(org, n, l.nb);
    forall y: nat | y < n.x1
      ensures PlanesOf(data, g)(y) == CubeRows(cube, ax, n)(y)
    {
      forall x: nat | x < n.x0
        ensures LinesOf(data, g, y)(x) == CubeRow(cube, ax, n, y)(x)
      {
        forall z: nat | z < n.x2
          ensures Items(data, g.At(0, x, y), g.step.x0, l.nb)(z) == CubePixel(cube, ax, x, y)(z)
        {
          BipAt(org, n, l.nb, x, y, z);
          assert g.At(0, x, y) + z * g.step.x0 == g.At(z, x, y);
          SliceItem(file, l, org, size, cube, ax, x, y, z);
        }
        GatherSame(n.x2, Items(data, g.At(0, x, y), g.step.x0, l.nb), CubePixel(cube, ax, x, y));
      }
      GatherSame(n.x0, LinesOf(data, g, y), CubeRow(cube, ax, n, y));
    }
    GatherSame(n.x1, PlanesOf(data, g), CubeRows(cube, ax, n));
  }

  lemma SliceItem(file: seq<Byte>, l: Layout, org: Org, size: Triple<nat>, cube: (nat, nat, nat) -> seq<Byte>,
                  ax: Triple<Axis>, x: nat, y: nat, z: nat)
    requires Stores(file, l, org, size, cube)
    requires SlicesAll(ax) && Sizes(ax) == size
    requires SlicesAll(InOrg(org, ax)) && LongEnough(file, l, InOrg(org, ax))
    requires x < Steps(ax.x0) && y < Steps(ax.x1) && z < Steps(ax.x2)
    ensures Item(SliceOf(file, l, InOrg(org, ax)), Offset(org, StepsAll(ax), x, y, z) * l.nb, l.nb) ==
            CubeAt(cube, ax, x, y, z)
  {
    hide Holds, Cube, Place, Pos, Grid.At, Coord, Offset, Defaulted, Stores, LongEnough, Slices;
    var o, a := InOrg(org, ax), InOrg(org, Triple(x, y, z));
    CoordWithin(ax.x0, x);
    CoordWithin(ax.x1, y);
    CoordWithin(ax.x2, z);
    OffsetIsPlace(org, StepsAll(ax), x, y, z);
    GridHolds(file, l, o);
    CubeItem(file, GridOf(l, o), Steps(o.x2), a.x0, a.x1, a.x2);
    GridPos(l, o, a.x0, a.x1, a.x2);
    StoredAt(file, l, org, size, cube, Coord(ax.x0, x), Coord(ax.x1, y), Coord(ax.x2, z));
  }

  lemma StoredAt(file: seq<Byte>, l: Layout, org: Org, size: Triple<nat>, cube: (nat, nat, nat) -> seq<Byte>, x: nat,
                 y: nat, z: nat)
    requires Stores(file, l, org, size, cube) && x < size.x0 && y < size.x1 && z < size.x2
    ensures var n, a := InOrg(org, size), InOrg(org, Triple(x, y, z));
            Item(file, Pos(l, n.x0, n.x1, a.x0, a.x1, a.x2), l.nb) == cube(x, y, z)
  {
    hide Pos, Item;
  }

  // ---------- The conversion is a bijection ----------

  function Total(n: Triple<nat>): nat {
    n.x0 * n.x1 * n.x2
  }

  predicate Inside(n: Triple<nat>, c: Triple<nat>) {
    c.x0 < n.x0 && c.x1 < n.x1 && c.x2 < n.x2
  }

  /** The coordinates of the p-th item. */
  function Unplaced(n: Triple<nat>, p: nat): Triple<nat>
    requires n.x0 > 0 && n.x1 > 0
  {
    Triple(p % n.x0, p / n.x0 % n.x1, p / n.x0 / n.x1)
  }

  lemma DivMod(a: nat, b: nat, n: nat)
    requires b < n
    ensures (a * n + b) / n == a && (a * n + b) % n == b
  {
    var q, r := (a * n + b) / n, (a * n + b) % n;
    assert a * n + b == q * n + r && 0 <= r < n;
    Ordered(a + 1, q, n);
    Ordered(q + 1, a, n);
  }

  lemma Ordered(a: int, b: int, n: nat)
    ensures a <= b ==> a * n <= b * n
    ensures (a + 1) * n == a * n + n && (b + 1) * n == b * n + n
  {
    if a <= b {
      assert (b - a) * n >= 0;
    }
  }

  lemma TotalInOrg(org: Org, s: Triple<nat>)
    ensures Total(InOrg(org, s)) == Total(s)
  {
    assert s.x0 * s.x1 * s.x2 == s.x0 * s.x2 * s.x1 == s.x2 * s.x0 * s.x1;
  }

  lemma TotalBytes(s: Triple<nat>, nb: nat)
    ensures s.x1 * (s.x0 * (s.x2 * nb)) == Total(s) * nb
  {
    assert s.x1 * (s.x0 * (s.x2 * nb)) == s.x0 * s.x1 * s.x2 * nb;
  }

  lemma UnplacedPlace(n: Triple<nat>, c: Triple<nat>)
    requires Inside(n, c)
    ensures Unplaced(n, Place(n, c.x0, c.x1, c.x2)) == c && Place(n, c.x0, c.x1, c.x2) < Total(n)
  {
    var row := c.x2 * n.x1 + c.x1;
    DivMod(row, c.x0, n.x0);
    DivMod(c.x2, c.x1, n.x1);
    PlaceBelow(n, c);
  }

  lemma PlaceBelow(n: Triple<nat>, c: Triple<nat>)
    requires Inside(n, c)
    ensures Place(n, c.x0, c.x1, c.x2) < Total(n)
  {
    var row := c.x2 * n.x1 + c.x1;
    Below(c.x2, n.x2, n.x1);
    Below(row, n.x2 * n.x1, n.x0);
    Commuted(n);
  }

  lemma Commuted(n: Triple<nat>)
    ensures n.x2 * n.x1 * n.x0 == Total(n)
  {
  }

  lemma PlaceUnplaced(n: Triple<nat>, p: nat)
    requires n.x0 > 0 && n.x1 > 0 && p < Total(n)
    ensures var c := Unplaced(n, p);
            Inside(n, c) && Place(n, c.x0, c.x1, c.x2) == p
  {
    var row := p / n.x0;
    assert p == row * n.x0 + p % n.x0;
    assert row == row / n.x1 * n.x1 + row % n.x1;
    var k := row / n.x1;
    Ordered(n.x2, k, n.x1);
    Ordered(n.x2 * n.x1, row, n.x0);
    Commuted(n);
  }

  /** Samples, lines and bands from the order of the organisation. */
  function FromOrg<T>(org: Org, a: Triple<T>): (c: Triple<T>)
    ensures InOrg(org, c) == a
  {
    match org
    case BSQ => a
    case BIL => Triple(a.x0, a.x2, a.x1)
    case BIP => Triple(a.x1, a.x2, a.x0)
  }

  /** The index in organisation there of the item with index p in organisation here. */
  function Moved(here: Org, there: Org, s: Triple<nat>, p: nat): nat
    requires s.x0 > 0 && s.x1 > 0 && s.x2 > 0
  {
    var c := FromOrg(here, Unplaced(InOrg(here, s), p));
    Offset(there, s, c.x0, c.x1, c.x2)
  }

  /** Moving there and back leaves every item where it was: the reorganisation is a bijection of the items. */
  lemma MovedBack(here: Org, there: Org, s: Triple<nat>, p: nat)
    requires p < Total(s) && s.x0 > 0 && s.x1 > 0 && s.x2 > 0
    ensures Moved(here, there, s, p) < Total(s) && Moved(there, here, s, Moved(here, there, s, p)) == p
  {
    hide Unplaced, Place, Offset, Total;
    var n, m := InOrg(here, s), InOrg(there, s);
    TotalInOrg(here, s);
    TotalInOrg(there, s);
    PlaceUnplaced(n, p);
    var c := FromOrg(here, Unplaced(n, p));
    OffsetIsPlace(here, s, c.x0, c.x1, c.x2);
    OffsetIsPlace(there, s, c.x0, c.x1, c.x2);
    UnplacedPlace(m, InOrg(there, c));
  }

  /** Item p of the pixel order is the item of the data that moves there. */
  lemma BipItem(data: seq<Byte>, org: Org, s: Triple<nat>, nb: nat, p: nat)
    requires Total(s) * nb <= |data| && p < Total(s) && s.x0 > 0 && s.x1 > 0 && s.x2 > 0
    ensures |Bip(data, org, s, nb)| == Total(s) * nb
    ensures Item(Bip(data, org, s, nb), p * nb, nb) == Item(data, Moved(BIP, org, s, p) * nb, nb)
  {
    hide Holds, Cube, Place, Offset, Unplaced, Grid.At, Total, Item;
    var g := BipGrid(org, s, nb);
    BipHolds(data, org, s, nb);
    TotalInOrg(BIP, s);
    PlaceUnplaced(InOrg(BIP, s), p);
    var c := FromOrg(BIP, Unplaced(InOrg(BIP, s), p));
    CubeItem(data, g, s.x1, c.x2, c.x0, c.x1);
    BipAt(org, s, nb, c.x0, c.x1, c.x2);
    TotalBytes(s, nb);
    ItemIs(data, g.At(c.x2, c.x0, c.x1), nb);
  }

  lemma ItemIs(data: seq<Byte>, at: int, nb: nat)
    requires 0 <= at <= at + nb <= |data|
    ensures Item(data, at, nb) == data[at..at + nb]
  {
  }

  lemma BipHolds(data: seq<Byte>, org: Org, s: Triple<nat>, nb: nat)
    requires Total(s) * nb <= |data|
    ensures Holds(data, BipGrid(org, s, nb))
  {
    var g := BipGrid(org, s, nb);
    forall z: nat, x: nat, y: nat | z < s.x2 && x < s.x0 && y < s.x1
      ensures 0 <= g.At(z, x, y) && g.At(z, x, y) + nb <= |data|
    {
      BipWithin(data, org, s, nb, x, y, z);
    }
  }

  lemma BipWithin(data: seq<Byte>, org: Org, s: Triple<nat>, nb: nat, x: nat, y: nat, z: nat)
    requires Total(s) * nb <= |data| && z < s.x2 && x < s.x0 && y < s.x1
    ensures var at := BipGrid(org, s, nb).At(z, x, y);
            0 <= at && at + nb <= |data|
  {
    hide Place, Offset, Grid.At, Total, BipGrid;
    BipAt(org, s, nb, x, y, z);
    OffsetIsPlace(org, s, x, y, z);
    PlaceBelow(InOrg(org, s), InOrg(org, Triple(x, y, z)));
    TotalInOrg(org, s);
    Below(Offset(org, s, x, y, z), Total(s), nb);
    Times(Offset(org, s, x, y, z), nb);
  }

  // ---------- Planes of a file ----------

  /** The bytes of a file from the first wanted line of a plane to its last one: where, and how many. */
  function PlaneStart(l: Layout, ax: Triple<Axis>, k: nat): int
    requires SlicesAll(ax)
  {
    var a := DefaultedAll(ax);
    l.dptr + Coord(ax.x2, k) * PlaneLen(l, a.x0.size, a.x1.size) + (a.x1.lo - 1) * LineLen(l, a.x0.size)
  }

  function PlaneBytes(l: Layout, ax: Triple<Axis>): nat
    requires SlicesAll(ax)
  {
    var a := DefaultedAll(ax);
    LineLen(l, a.x0.size) * (a.x1.hi - a.x1.lo + 1)
  }

  predicate PlaneFits(file: seq<Byte>, l: Layout, ax: Triple<Axis>, k: nat)
    requires SlicesAll(ax)
  {
    PlaneStart(l, ax, k) + PlaneBytes(l, ax) <= |file|
  }

  /** How many planes are read, from the k-th on, before the file ends. */
  function PlanesFrom(file: seq<Byte>, l: Layout, ax: Triple<Axis>, k: nat): (m: nat)
    requires SlicesAll(ax) && k <= Steps(ax.x2)
    ensures k <= m <= Steps(ax.x2)
    decreases Steps(ax.x2) - k
  {
    if k < Steps(ax.x2) && PlaneFits(file, l, ax, k) then PlanesFrom(file, l, ax, k + 1) else k
  }

  function PlanesRead(file: seq<Byte>, l: Layout, ax: Triple<Axis>): nat
    requires SlicesAll(ax)
  {
    PlanesFrom(file, l, ax, 0)
  }

  lemma {:induction false} AllPlanes(file: seq<Byte>, l: Layout, ax: Triple<Axis>, k: nat)
    requires SlicesAll(ax) && LongEnough(file, l, ax) && k <= Steps(ax.x2)
    ensures PlanesFrom(file, l, ax, k) == Steps(ax.x2)
    decreases Steps(ax.x2) - k
  {
    hide PlaneFits, LongEnough, Slices, Steps;
    if k < Steps(ax.x2) {
      LongFits(file, l, ax, k);
      AllPlanes(file, l, ax, k + 1);
    }
  }

  lemma LongFits(file: seq<Byte>, l: Layout, ax: Triple<Axis>, k: nat)
    requires SlicesAll(ax) && LongEnough(file, l, ax) && k < Steps(ax.x2)
    ensures PlaneFits(file, l, ax, k)
  {
    hide Coord, Steps;
    var a := DefaultedAll(ax);
    CoordWithin(ax.x2, k);
    CoordWithin(ax.x1, 0);
    hide Defaulted;
    var d, p, z := LineLen(l, a.x0.size), PlaneLen(l, a.x0.size, a.x1.size), Coord(ax.x2, k);
    Below(z, a.x2.size, p);
    Ordered(a.x1.hi, a.x1.size, d);
    Times(a.x0.size, l.pad);
    assert (a.x1.lo - 1) * d + d * (a.x1.hi - a.x1.lo + 1) == a.x1.hi * d;
    assert p == d * a.x1.size + a.x0.size * l.pad + l.corner;
  }

  /** The grid within the bytes read of a plane. */
  function LocalGrid(l: Layout, ax: Triple<Axis>): Grid
    requires SlicesAll(ax)
  {
    var g, a := GridOf(l, ax), DefaultedAll(ax);
    Grid(l.prefix + (a.x0.lo - 1) * l.nb, Triple(g.n.x0, g.n.x1, 1), Triple(g.step.x0, g.step.x1, 0), l.nb)
  }

  /** The lines wanted lie within the bytes read of a plane. */
  lemma LocalWithin(l: Layout, ax: Triple<Axis>, i: nat, j: nat)
    requires SlicesAll(ax) && i < Steps(ax.x0) && j < Steps(ax.x1)
    ensures 0 <= LocalGrid(l, ax).At(i, j, 0)
    ensures LocalGrid(l, ax).At(i, j, 0) + l.nb <= PlaneBytes(l, ax)
  {
    hide Steps;
    CoordWithin(ax.x0, i);
    CoordWithin(ax.x1, j);
    var a, d := DefaultedAll(ax), LineLen(l, DefaultedAll(ax).x0.size);
    hide Defaulted;
    var x, y := Coord(ax.x0, i), j * a.x1.skip;
    Spread(a.x0.lo - 1, i, a.x0.skip, l.nb);
    Spread(0, j, a.x1.skip, d);
    Times(j, a.x1.skip);
    assert LocalGrid(l, ax).At(i, j, 0) == l.prefix + x * l.nb + y * d;
    LineRoom(l, a.x0.size, x, y, a.x1.hi - a.x1.lo + 1);
  }

  lemma LineRoom(l: Layout, size0: nat, x: nat, y: nat, dim1: nat)
    requires x < size0 && y < dim1
    ensures 0 <= l.prefix + x * l.nb + y * LineLen(l, size0)
    ensures l.prefix + x * l.nb + y * LineLen(l, size0) + l.nb <= LineLen(l, size0) * dim1
  {
    var d := LineLen(l, size0);
    Below(x, size0, l.nb);
    Times(x, l.nb);
    Times(y, d);
    Below(y, dim1, d);
  }

  lemma PlaneShift(l: Layout, ax: Triple<Axis>, i: nat, j: nat, k: nat)
    requires SlicesAll(ax)
    ensures PlaneStart(l, ax, k) + LocalGrid(l, ax).At(i, j, 0) == GridOf(l, ax).At(i, j, k)
  {
    hide Steps;
    var a, d := DefaultedAll(ax), LineLen(l, DefaultedAll(ax).x0.size);
    var p := PlaneLen(l, a.x0.size, a.x1.size);
    hide Defaulted;
    Spread(a.x2.lo - 1, k, a.x2.skip, p);
  }

  /** Copying out of the bytes read of plane k gives plane k of the grid. */
  lemma PlaneCopied(file: seq<Byte>, p: seq<Byte>, l: Layout, ax: Triple<Axis>, k: nat)
    requires SlicesAll(ax) && PlaneFits(file, l, ax, k) && PlaneStart(l, ax, k) >= 0
    requires p == file[PlaneStart(l, ax, k)..PlaneStart(l, ax, k) + PlaneBytes(l, ax)]
    ensures PlaneOf(p, LocalGrid(l, ax), 0) == PlaneOf(file, GridOf(l, ax), k)
  {
    hide Grid.At, PlaneStart, PlaneBytes, Steps, Slices;
    var g, h := LocalGrid(l, ax), GridOf(l, ax);
    forall j: nat | j < g.n.x1
      ensures LinesOf(p, g, 0)(j) == LinesOf(file, h, k)(j)
    {
      var f, f' := Items(p, g.At(0, j, 0), g.step.x0, l.nb), Items(file, h.At(0, j, k), g.step.x0, l.nb);
      forall i: nat | i < g.n.x0
        ensures f(i) == f'(i)
      {
        LocalWithin(l, ax, i, j);
        PlaneShift(l, ax, i, j, k);
        AtStep(g, i, j, 0);
        AtStep(h, i, j, k);
        var at := g.At(i, j, 0);
        NestedSlice(file, PlaneStart(l, ax, k), |p|, at, l.nb);
      }
      GatherSame(g.n.x0, f, f');
    }
    GatherSame(g.n.x1, LinesOf(p, g, 0), LinesOf(file, h, k));
  }

  lemma AtStep(g: Grid, i: int, j: int, k: int)
    ensures g.At(i, j, k) == g.At(0, j, k) + i * g.step.x0
  {
  }

  // ---------- A second read, and user slices ----------

  /** Filling in the defaults changes nothing that a read depends on. */
  lemma ReadAgain(file: seq<Byte>, l: Layout, ax: Triple<Axis>)
    requires SlicesAll(ax)
    ensures SlicesAll(DefaultedAll(ax)) && DefaultedAll(DefaultedAll(ax)) == DefaultedAll(ax)
    ensures GridOf(l, DefaultedAll(ax)) == GridOf(l, ax) && StepsAll(DefaultedAll(ax)) == StepsAll(ax)
    ensures PlanesRead(file, l, DefaultedAll(ax)) == PlanesRead(file, l, ax)
  {
    PlanesAgain(file, l, ax, 0);
  }

  lemma {:induction false} PlanesAgain(file: seq<Byte>, l: Layout, ax: Triple<Axis>, k: nat)
    requires SlicesAll(ax) && SlicesAll(DefaultedAll(ax)) && k <= Steps(ax.x2) == Steps(DefaultedAll(ax).x2)
    ensures PlanesFrom(file, l, DefaultedAll(ax), k) == PlanesFrom(file, l, ax, k)
    decreases Steps(ax.x2) - k
  {
    if k < Steps(ax.x2) {
      PlanesAgain(file, l, ax, k + 1);
    }
  }

  /** An axis of a header with what a user asks for: only positive values are taken over. */
  function Taken(a: Axis, s: Axis): Axis {
    Axis(a.size, if s.lo > 0 then s.lo else a.lo, if s.hi > 0 then s.hi else a.hi,
         if s.skip > 0 then s.skip else a.skip)
  }

  function TakenAll(a: Triple<Axis>, s: Triple<Axis>): Triple<Axis> {
    Triple(Taken(a.x0, s.x0), Taken(a.x1, s.x1), Taken(a.x2, s.x2))
  }
}
