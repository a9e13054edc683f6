/** A file for every cube, in any layout. */
module QubeFile {
  import opened Bytes
  import opened Qube

  type Cube3 = (nat, nat, nat) -> seq<Byte>

  /** The cube with its axes in the order of an organisation. */
  function Reordered(org: Org, cube: Cube3): Cube3 {
    match org
    case BSQ => cube
    case BIL => (i: nat, j: nat, k: nat) => cube(i, k, j)
    case BIP => (i: nat, j: nat, k: nat) => cube(j, k, i)
  }

  function LineItems(cube: Cube3, j: nat, k: nat): nat -> seq<Byte> {
    (i: nat) => cube(i, j, k)
  }

  function LineBytes(l: Layout, n: Triple<nat>, cube: Cube3, k: nat): nat -> seq<Byte> {
    (j: nat) => Zeros(l.prefix) + Gather(n.x0, LineItems(cube, j, k)) + Zeros(l.suffix)
  }

  function PlaneOfCube(l: Layout, n: Triple<nat>, cube: Cube3): nat -> seq<Byte> {
    (k: nat) => Gather(n.x1, LineBytes(l, n, cube, k)) + Zeros(n.x0 * l.pad + l.corner)
  }

  /** The file: n counts samples, lines and bands in the order of the organisation, as the cube does. */
  function FileOf(l: Layout, n: Triple<nat>, cube: Cube3): seq<Byte> {
    Zeros(l.dptr) + Gather(n.x2, PlaneOfCube(l, n, cube))
  }

  predicate ItemSized(cube: Cube3, n: Triple<nat>, nb: nat) {
    forall i: nat, j: nat, k: nat :: i < n.x0 && j < n.x1 && k < n.x2 ==> |cube(i, j, k)| == nb
  }

  lemma LineAt(l: Layout, n: Triple<nat>, cube: Cube3, i: nat, j: nat, k: nat)
    requires (forall i: nat :: i < n.x0 ==> |cube(i, j, k)| == l.nb) && i < n.x0
    ensures var s := LineBytes(l, n, cube, k)(j);
            && |s| == LineLen(l, n.x0)
            && 0 <= i * l.nb && l.prefix + i * l.nb + l.nb <= |s|
            && s[l.prefix + i * l.nb..l.prefix + i * l.nb + l.nb] == cube(i, j, k)
  {
    GatherLength(n.x0, LineItems(cube, j, k), l.nb);
    GatherAt(n.x0, LineItems(cube, j, k), l.nb, i);
    Middle(Zeros(l.prefix), Gather(n.x0, LineItems(cube, j, k)), Zeros(l.suffix), i * l.nb, l.nb);
  }

  /** A stretch of the middle part. */
  lemma Middle(a: seq<Byte>, b: seq<Byte>, c: seq<Byte>, at: nat, m: nat)
    requires at + m <= |b|
    ensures (a + b + c)[|a| + at..|a| + at + m] == b[at..at + m]
  {
  }

  lemma LineLength(l: Layout, n: Triple<nat>, cube: Cube3, j: nat, k: nat)
    requires forall i: nat :: i < n.x0 ==> |cube(i, j, k)| == l.nb
    ensures |LineBytes(l, n, cube, k)(j)| == LineLen(l, n.x0)
  {
    GatherLength(n.x0, LineItems(cube, j, k), l.nb);
  }

  lemma PlaneLength(l: Layout, n: Triple<nat>, cube: Cube3, k: nat)
    requires forall i: nat, j: nat :: i < n.x0 && j < n.x1 ==> |cube(i, j, k)| == l.nb
    ensures |PlaneOfCube(l, n, cube)(k)| == PlaneLen(l, n.x0, n.x1)
    ensures forall j: nat :: j < n.x1 ==> |LineBytes(l, n, cube, k)(j)| == LineLen(l, n.x0)
  {
    forall j: nat | j < n.x1
      ensures |LineBytes(l, n, cube, k)(j)| == LineLen(l, n.x0)
    {
      LineLength(l, n, cube, j, k);
    }
    GatherLength(n.x1, LineBytes(l, n, cube, k), LineLen(l, n.x0));
    Commuted(n.x1, LineLen(l, n.x0));
  }

  lemma Commuted(a: nat, b: nat)
    ensures a * b == b * a
  {
  }

  /** A stretch of one of the pieces. */
  lemma InPiece(n: nat, f: nat -> seq<Byte>, m: nat, k: nat, at: nat, len: nat)
    requires (forall i: nat :: i < n ==> |f(i)| == m) && k < n && at + len <= m
    ensures |Gather(n, f)| == n * m && k * m >= 0 && k * m + at + len <= |Gather(n, f)|
    ensures Gather(n, f)[k * m + at..k * m + at + len] == f(k)[at..at + len]
  {
    GatherLength(n, f, m);
    GatherAt(n, f, m, k);
    NestedSlice(Gather(n, f), k * m, m, at, len);
  }

  lemma Behind(a: seq<Byte>, b: seq<Byte>, at: nat, m: nat)
    requires at + m <= |b|
    ensures (a + b)[|a| + at..|a| + at + m] == b[at..at + m]
  {
  }

  lemma Ahead(a: seq<Byte>, b: seq<Byte>, at: nat, m: nat)
    requires at + m <= |a|
    ensures (a + b)[at..at + m] == a[at..at + m]
  {
  }

  lemma PlaneAt(l: Layout, n: Triple<nat>, cube: Cube3, i: nat, j: nat, k: nat)
    requires (forall i: nat, j: nat :: i < n.x0 && j < n.x1 ==> |cube(i, j, k)| == l.nb) && i < n.x0 && j < n.x1
    ensures var s, at := PlaneOfCube(l, n, cube)(k), j * LineLen(l, n.x0) + (l.prefix + i * l.nb);
            0 <= at && at + l.nb <= |s| && s[at..at + l.nb] == cube(i, j, k)
  {
    PlaneLength(l, n, cube, k);
    LineAt(l, n, cube, i, j, k);
    hide LineLen, Gather;
    var L, lines, b := LineLen(l, n.x0), LineBytes(l, n, cube, k), l.prefix + i * l.nb;
    InPiece(n.x1, lines, L, j, b, l.nb);
    Ahead(Gather(n.x1, lines), Zeros(n.x0 * l.pad + l.corner), j * L + b, l.nb);
  }

  lemma FileAt(l: Layout, n: Triple<nat>, cube: Cube3, i: nat, j: nat, k: nat)
    requires ItemSized(cube, n, l.nb) && i < n.x0 && j < n.x1 && k < n.x2
    ensures |FileOf(l, n, cube)| == l.dptr + n.x2 * PlaneLen(l, n.x0, n.x1)
    ensures Item(FileOf(l, n, cube), Pos(l, n.x0, n.x1, i, j, k), l.nb) == cube(i, j, k)
  {
    hide PlaneOfCube, PlaneLen, LineLen, Gather;
    var P, planes := PlaneLen(l, n.x0, n.x1), PlaneOfCube(l, n, cube);
    forall k: nat | k < n.x2
      ensures |planes(k)| == P
    {
      PlaneLength(l, n, cube, k);
    }
    PlaneAt(l, n, cube, i, j, k);
    var b := j * LineLen(l, n.x0) + (l.prefix + i * l.nb);
    InPiece(n.x2, planes, P, k, b, l.nb);
    Behind(Zeros(l.dptr), Gather(n.x2, planes), k * P + b, l.nb);
  }

  lemma ReorderedAt(org: Org, cube: Cube3, x: nat, y: nat, z: nat)
    ensures var a := InOrg(org, Triple(x, y, z)); Reordered(org, cube)(a.x0, a.x1, a.x2) == cube(x, y, z)
  {
  }

  lemma ReorderedSized(org: Org, cube: Cube3, size: Triple<nat>, nb: nat)
    requires ItemSized(cube, size, nb)
    ensures ItemSized(Reordered(org, cube), InOrg(org, size), nb)
  {
    forall i: nat, j: nat, k: nat | i < InOrg(org, size).x0 && j < InOrg(org, size).x1 && k < InOrg(org, size).x2
      ensures |Reordered(org, cube)(i, j, k)| == nb
    {
      var c := FromOrg(org, Triple(i, j, k));
      assert c.x0 < size.x0 && c.x1 < size.x1 && c.x2 < size.x2 && |cube(c.x0, c.x1, c.x2)| == nb;
    }
  }

  /** Every cube has a file that stores it, whatever the organisation and the layout. */
  lemma EveryCubeStored(l: Layout, org: Org, size: Triple<nat>, cube: Cube3)
    requires ItemSized(cube, size, l.nb)
    ensures Stores(FileOf(l, InOrg(org, size), Reordered(org, cube)), l, org, size, cube)
  {
    hide FileOf, Pos, Reordered, ItemSized, Item;
    var n, c := InOrg(org, size), Reordered(org, cube);
    ReorderedSized(org, cube, size, l.nb);
    forall x: nat, y: nat, z: nat | x < size.x0 && y < size.x1 && z < size.x2
      ensures var a := InOrg(org, Triple(x, y, z));
              Item(FileOf(l, n, c), Pos(l, n.x0, n.x1, a.x0, a.x1, a.x2), l.nb) == cube(x, y, z)
    {
      var a := InOrg(org, Triple(x, y, z));
      ReorderedAt(org, cube, x, y, z);
      FileAt(l, n, c, a.x0, a.x1, a.x2);
    }
  }

  /** Storing a cube, reading any slice of it and putting that into pixel order gives the slice of the cube. */
  lemma StoreThenRead(l: Layout, org: Org, size: Triple<nat>, cube: Cube3, ax: Triple<Axis>)
    requires ItemSized(cube, size, l.nb) && SlicesAll(ax) && Sizes(ax) == size
    ensures SlicesAll(InOrg(org, ax))
    ensures var file := FileOf(l, InOrg(org, size), Reordered(org, cube));
            Bip(SliceOf(file, l, InOrg(org, ax)), org, StepsAll(ax), l.nb) == CubePixels(cube, ax, StepsAll(ax))
  {
    hide FileOf, Reordered, ItemSized, Stores, Pos, PlaneLen, Item, Bip, SliceOf, CubePixels, Defaulted;
    var file := FileOf(l, InOrg(org, size), Reordered(org, cube));
    ReorderedSized(org, cube, size, l.nb);
    EveryCubeStored(l, org, size, cube);
    InOrgSizes(org, ax);
    FileAt(l, InOrg(org, size), Reordered(org, cube), 0, 0, 0);
    OrganisationIndependent(file, l, org, size, cube, ax);
  }

  lemma InOrgSizes(org: Org, ax: Triple<Axis>)
    requires SlicesAll(ax)
    ensures SlicesAll(InOrg(org, ax)) && Sizes(InOrg(org, ax)) == InOrg(org, Sizes(ax))
    ensures Sizes(ax).x0 >= 1 && Sizes(ax).x1 >= 1 && Sizes(ax).x2 >= 1
  {
  }
}
