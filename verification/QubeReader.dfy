/** The loops of iomedley.c: reading a slice into memory, plane by plane and line by line, with the
    header's bounds counted from 0 meanwhile, and reordering what was read. */
module QubeReader {
  import opened Bytes
  import opened Qube

  const MAX_READ := 1073741824

  /** How many bytes a file has from pos on. */
  function Left(file: seq<Byte>, pos: nat): nat {
    if pos <= |file| then |file| - pos else 0
  }

  function Min(a: nat, b: nat): nat {
    if a <= b then a else b
  }

  /** The n bytes of a file at pos. */
  function Chunk(file: seq<Byte>, pos: nat, n: nat): seq<Byte>
    requires n <= Left(file, pos)
  {
    if n == 0 then [] else file[pos..pos + n]
  }

  /** read: as many bytes as there are, up to n. */
  method Read(file: seq<Byte>, pos: nat, buff: array<Byte>, at: nat, n: nat) returns (got: nat)
    requires at + n <= buff.Length
    modifies buff
    ensures got == Min(n, Left(file, pos))
    ensures buff[..at + got] == old(buff[..at]) + Chunk(file, pos, got)
  {
    got := Min(n, Left(file, pos));
    forall i | 0 <= i < got {
      buff[at + i] := file[pos + i];
    }
  }

  lemma NoChunk(file: seq<Byte>, pos: nat)
    ensures Left(file, pos) >= 0 && Chunk(file, pos, 0) == []
  {
  }

  lemma ChunkAppend(file: seq<Byte>, pos: nat, m: nat, n: nat)
    requires m <= Left(file, pos) && n <= Left(file, pos + m)
    ensures m + n <= Left(file, pos) && Chunk(file, pos, m) + Chunk(file, pos + m, n) == Chunk(file, pos, m + n)
  {
  }

  lemma LeftAfter(file: seq<Byte>, pos: nat, m: nat)
    requires m <= Left(file, pos)
    ensures Left(file, pos + m) == Left(file, pos) - m
  {
  }

  /** Reading in pieces of at most maxSingle bytes gets what a single read would. */
  method ReadFully(file: seq<Byte>, pos: nat, buff: array<Byte>, maxSingle: nat, count: nat) returns (nread: nat)
    requires maxSingle > 0 && count <= buff.Length
    modifies buff
    ensures nread == Min(count, Left(file, pos))
    ensures buff[..nread] == Chunk(file, pos, nread)
  {
    hide Chunk, Left;
    var nbytes: nat := count;
    nread := 0;
    NoChunk(file, pos);
    while nbytes > maxSingle
      invariant nread + nbytes == count && nread <= Left(file, pos)
      invariant buff[..nread] == Chunk(file, pos, nread)
      decreases nbytes
    {
      LeftAfter(file, pos, nread);
      var got := Read(file, pos + nread, buff, nread, maxSingle);
      ChunkAppend(file, pos, nread, got);
      nread := nread + got;
      if got != maxSingle {
        return;
      }
      nbytes := nbytes - maxSingle;
    }
    LeftAfter(file, pos, nread);
    if nbytes > 0 {
      var got := Read(file, pos + nread, buff, nread, nbytes);
      ChunkAppend(file, pos, nread, got);
      nread := nread + got;
    }
  }

  /** memcpy of nb bytes at from in src, to at in dst. */
  method Copy(dst: array<Byte>, at: nat, src: array<Byte>, from: nat, nb: nat)
    requires dst != src && at + nb <= dst.Length && from + nb <= src.Length
    modifies dst
    ensures dst[..at + nb] == old(dst[..at]) + src[from..from + nb]
  {
    forall i | 0 <= i < nb {
      dst[at + i] := src[from + i];
    }
  }

  /** Every skip-th item of a line of dim items that starts at base. */
  method CopyLine(data: array<Byte>, count0: nat, p: array<Byte>, base: nat, dim: nat, skip: nat, nb: nat, ghost n: nat)
    returns (count: nat)
    requires data != p && dim >= 1 && skip >= 1 && base + dim * nb <= p.Length && n == (dim - 1) / skip + 1
    requires count0 + n * nb <= data.Length
    modifies data
    ensures count == count0 + n * nb
    ensures data[..count] == old(data[..count0]) + Gather(n, Items(p[..], base, skip * nb, nb))
  {
    hide Gather, Items;
    if skip == 1 {
      LineWhole(p[..], base, dim, nb);
      Copy(data, count0, p, base, dim * nb);
      count := count0 + dim * nb;
    } else {
      count := CopyItems(data, count0, p, base, dim, skip, nb, n);
    }
  }

  method CopyItems(data: array<Byte>, count0: nat, p: array<Byte>, base: nat, dim: nat, skip: nat, nb: nat,
                   ghost n: nat)
    returns (count: nat)
    requires data != p && dim >= 1 && skip >= 1 && base + dim * nb <= p.Length && n == (dim - 1) / skip + 1
    requires count0 + n * nb <= data.Length
    modifies data
    ensures count == count0 + n * nb
    ensures data[..count] == old(data[..count0]) + Gather(n, Items(p[..], base, skip * nb, nb))
  {
    hide Gather, Items;
    ghost var src := p[..];
    count := count0;
    var x := 0;
    ghost var i := 0;
    GatherNone(Items(src, base, skip * nb, nb));
    while x < dim
      invariant i <= n && x == i * skip && count == count0 + i * nb && p[..] == src
      invariant data[..count] == old(data[..count0]) + Gather(i, Items(src, base, skip * nb, nb))
      decreases n - i
    {
      LineStep(src, base, dim, skip, nb, i);
      Below(i, n, nb);
      Copy(data, count, p, base + x * nb, nb);
      count := count + nb;
      i := i + 1;
      x := x + skip;
    }
    StepWithin(dim, skip, i);
  }

  /** One more item of a line. */
  lemma LineStep(p: seq<Byte>, base: nat, dim: nat, skip: nat, nb: nat, i: nat)
    requires dim >= 1 && skip >= 1 && base + dim * nb <= |p| && i * skip < dim
    ensures i < (dim - 1) / skip + 1 && (i + 1) * skip == i * skip + skip && (i + 1) * nb == i * nb + nb
    ensures 0 <= base + i * skip * nb <= base + i * skip * nb + nb <= |p|
    ensures Gather(i + 1, Items(p, base, skip * nb, nb))
         == Gather(i, Items(p, base, skip * nb, nb)) + p[base + i * skip * nb..base + i * skip * nb + nb]
  {
    StepWithin(dim, skip, i);
    Below(i * skip, dim, nb);
    Times(i * skip, nb);
    StepAt(base, i, skip, nb);
  }

  lemma LineWhole(p: seq<Byte>, base: nat, dim: nat, nb: nat)
    requires dim >= 1 && base + dim * nb <= |p|
    ensures Gather(dim, Items(p, base, 1 * nb, nb)) == p[base..base + dim * nb]
  {
    assert 1 * nb == nb;
    forall i: nat | i < dim
      ensures PieceAt(p, base, nb, i, Items(p, base, nb, nb)(i))
    {
      Below(i, dim, nb);
      Times(i, nb);
    }
    Stretch(p, base, dim, Items(p, base, nb, nb), nb);
  }

  lemma StepAt(base: nat, i: nat, skip: nat, nb: nat)
    ensures base + i * (skip * nb) == base + i * skip * nb
  {
  }

  lemma GatherNone(f: nat -> seq<Byte>)
    ensures Gather(0, f) == []
  {
  }

  /** Every skip-th line of a plane: y runs over the lines of p. */
  method CopyPlane(data: array<Byte>, count0: nat, p: array<Byte>, l: Layout, ghost ax: Triple<Axis>, a: Triple<Axis>,
                   ghost n: nat, ghost w: nat)
    returns (count: nat)
    requires data != p && SlicesAll(ax) && a == DefaultedAll(ax) && p.Length == PlaneBytes(l, ax)
    requires n == Steps(ax.x1) && w == Steps(ax.x0) * l.nb && count0 + n * w <= data.Length
    modifies data
    ensures count == count0 + n * w
    ensures data[..count] == old(data[..count0]) + PlaneOf(p[..], LocalGrid(l, ax), 0)
  {
    hide Gather, LineOf, LocalGrid, Steps, PlaneBytes, LineLen, Slices, Defaulted, Items;
    ghost var src, g := p[..], LocalGrid(l, ax);
    var dim0, dim1 := a.x0.hi - a.x0.lo + 1, a.x1.hi - a.x1.lo + 1;
    count := count0;
    var y := 0;
    ghost var j := 0;
    GatherNone(LinesOf(src, g, 0));
    while y < dim1
      invariant j <= n && y == j * a.x1.skip && count == count0 + j * w && p[..] == src
      invariant data[..count] == old(data[..count0]) + Gather(j, LinesOf(src, g, 0))
      decreases n - j
    {
      PlaneStep(src, l, ax, a, j, w);
      Below(j, n, w);
      var base := l.prefix + (a.x0.lo - 1) * l.nb + y * LineLen(l, a.x0.size);
      count := CopyLine(data, count, p, base, dim0, a.x0.skip, l.nb, Steps(ax.x0));
      j := j + 1;
      y := y + a.x1.skip;
    }
    PlaneDone(l, ax, a, j);
  }

  lemma PlaneDone(l: Layout, ax: Triple<Axis>, a: Triple<Axis>, j: nat)
    requires SlicesAll(ax) && a == DefaultedAll(ax) && j <= Steps(ax.x1) && j * a.x1.skip >= a.x1.hi - a.x1.lo + 1
    ensures j == Steps(ax.x1) && LocalGrid(l, ax).n.x1 == j
  {
    StepWithin(a.x1.hi - a.x1.lo + 1, a.x1.skip, j);
  }

  /** One more line of a plane. */
  lemma PlaneStep(p: seq<Byte>, l: Layout, ax: Triple<Axis>, a: Triple<Axis>, j: nat, w: nat)
    requires SlicesAll(ax) && a == DefaultedAll(ax) && |p| == PlaneBytes(l, ax) && w == Steps(ax.x0) * l.nb
    requires j * a.x1.skip < a.x1.hi - a.x1.lo + 1
    ensures var dim0, g := a.x0.hi - a.x0.lo + 1, LocalGrid(l, ax);
            var base := l.prefix + (a.x0.lo - 1) * l.nb + j * a.x1.skip * LineLen(l, a.x0.size);
            && 1 <= a.x0.lo <= a.x0.hi <= a.x0.size && a.x0.skip >= 1 && a.x1.skip >= 1
            && j < Steps(ax.x1) && (j + 1) * a.x1.skip == j * a.x1.skip + a.x1.skip && (j + 1) * w == j * w + w
            && Steps(ax.x0) == (dim0 - 1) / a.x0.skip + 1
            && 0 <= base && base + dim0 * l.nb <= |p|
            && Gather(j + 1, LinesOf(p, g, 0))
            == Gather(j, LinesOf(p, g, 0)) + Gather(Steps(ax.x0), Items(p, base, a.x0.skip * l.nb, l.nb))
  {
    hide Items, PlaneBytes, LineLen;
    StepWithin(a.x1.hi - a.x1.lo + 1, a.x1.skip, j);
    Spread(0, j, a.x1.skip, LineLen(l, a.x0.size));
    LineInPlane(l, a, j * a.x1.skip);
    assert PlaneBytes(l, ax) == LineLen(l, a.x0.size) * (a.x1.hi - a.x1.lo + 1) by { PlaneBytesAre(l, ax); }
  }

  lemma PlaneBytesAre(l: Layout, ax: Triple<Axis>)
    requires SlicesAll(ax)
    ensures PlaneBytes(l, ax) == LineLen(l, Defaulted(ax.x0).size) * (Defaulted(ax.x1).hi - Defaulted(ax.x1).lo + 1)
  {
  }

  lemma LineInPlane(l: Layout, a: Triple<Axis>, y: int)
    requires 0 <= y < a.x1.hi - a.x1.lo + 1 && 1 <= a.x0.lo <= a.x0.hi <= a.x0.size
    ensures var base := l.prefix + (a.x0.lo - 1) * l.nb + y * LineLen(l, a.x0.size);
            0 <= base && base + (a.x0.hi - a.x0.lo + 1) * l.nb <= LineLen(l, a.x0.size) * (a.x1.hi - a.x1.lo + 1)
  {
    var d := LineLen(l, a.x0.size);
    Below(y, a.x1.hi - a.x1.lo + 1, d);
    Times(y, d);
    Times(a.x0.lo - 1, l.nb);
    Ordered(a.x0.hi, a.x0.size, l.nb);
    assert (a.x0.lo - 1) * l.nb + (a.x0.hi - a.x0.lo + 1) * l.nb == a.x0.hi * l.nb;
  }

  /** An axis while its slice is being read: counted from 0. */
  function ZeroBased(a: Axis): Axis {
    var r := Defaulted(a);
    Axis(r.size, r.lo - 1, r.hi - 1, r.skip)
  }

  function Dim(a: Axis): int {
    Defaulted(a).hi - Defaulted(a).lo + 1
  }

  method FillIn(a: Axis) returns (r: Axis, steps: nat)
    requires Slices(a)
    ensures r == ZeroBased(a) && r.hi - r.lo + 1 == Dim(a) && steps == Steps(a)
  {
    r := a;
    if r.size == 0 { r := r.(size := 1); }
    if r.lo == 0 { r := r.(lo := 1); }
    if r.hi == 0 { r := r.(hi := r.size); }
    if r.hi > r.size { r := r.(hi := r.size); }
    if r.skip == 0 { r := r.(skip := 1); }
    r := r.(lo := r.lo - 1, hi := r.hi - 1);
    var dim := r.hi - r.lo + 1;
    steps := (dim - 1) / r.skip + 1;
  }

  function OneBased(ghost a: Axis, size: int, lo: int, hi: int, skip: int): (r: Axis)
    requires Axis(size, lo, hi, skip) == ZeroBased(a)
    ensures r == Defaulted(a)
  {
    Axis(size, lo + 1, hi + 1, skip)
  }

  function PlaneSize(l: Layout, ghost ax: Triple<Axis>, a: Triple<Axis>): (n: nat)
    requires SlicesAll(ax) && a == DefaultedAll(ax)
    ensures n == PlaneBytes(l, ax)
  {
    LineLen(l, a.x0.size) * (a.x1.hi - a.x1.lo + 1)
  }

  lemma SizeOf(ax: Triple<Axis>, nb: nat, n: nat, m: nat, w: nat)
    requires SlicesAll(ax) && n == Steps(ax.x1) && m == Steps(ax.x2) && w == Steps(ax.x0) * nb
    ensures Count(ax, 3) * nb == m * (n * w)
  {
    hide Steps, Slices;
    var x := Steps(ax.x0);
    assert Count(ax, 0) == 1;
    assert Count(ax, 1) == 1 * x;
    assert Count(ax, 2) == x * n;
    assert Count(ax, 3) == x * n * m;
    assert x * n * m * nb == m * (n * (x * nb));
  }

  /** How reading goes on after k planes. */
  lemma CubeSteps(file: seq<Byte>, l: Layout, ax: Triple<Axis>, k: nat)
    requires SlicesAll(ax) && k <= Steps(ax.x2)
    ensures var g := GridOf(l, ax);
            && Cube(file, g, 0) == []
            && Cube(file, g, k + 1) == Cube(file, g, k) + PlaneOf(file, g, k)
            && (if k < Steps(ax.x2) && PlaneFits(file, l, ax, k) then
                  PlanesFrom(file, l, ax, k) == PlanesFrom(file, l, ax, k + 1)
                else PlanesFrom(file, l, ax, k) == k)
  {
    hide Steps, PlaneFits, GridOf, Slices, PlaneOf;
  }

  lemma PlanesDone(ax: Triple<Axis>, a: Triple<Axis>, k: nat)
    requires SlicesAll(ax) && a == DefaultedAll(ax) && k <= Steps(ax.x2) && k * a.x2.skip >= a.x2.hi - a.x2.lo + 1
    ensures k == Steps(ax.x2)
  {
    StepWithin(a.x2.hi - a.x2.lo + 1, a.x2.skip, k);
  }

  lemma SomeBytes(l: Layout, ax: Triple<Axis>)
    requires SlicesAll(ax) && l.nb > 0
    ensures PlaneBytes(l, ax) > 0
  {
    var a := DefaultedAll(ax);
    Positive(a.x0.size, l.nb);
    Positive(LineLen(l, a.x0.size), a.x1.hi - a.x1.lo + 1);
  }

  lemma Positive(a: int, b: int)
    requires a > 0 && b > 0
    ensures a * b > 0
  {
  }

  /** The wanted lines of plane z of the slice, if the file goes on to their end. */
  method ReadPlane(file: seq<Byte>, p: array<Byte>, l: Layout, ghost ax: Triple<Axis>, a: Triple<Axis>, ghost k: nat,
                   z: int)
    returns (ok: bool)
    requires SlicesAll(ax) && a == DefaultedAll(ax) && p.Length == PlaneBytes(l, ax)
    requires z == k * a.x2.skip < a.x2.hi - a.x2.lo + 1 && l.nb > 0
    modifies p
    ensures ok <==> PlaneFits(file, l, ax, k)
    ensures ok ==> PlaneOf(p[..], LocalGrid(l, ax), 0) == PlaneOf(file, GridOf(l, ax), k)
  {
    hide PlaneOf, Slices, Defaulted, PlaneLen, LineLen, GridOf, LocalGrid, PlaneBytes, PlaneStart;
    PlaneNext(file, l, ax, a, k);
    SomeBytes(l, ax);
    var offset := l.dptr + (z + a.x2.lo - 1) * PlaneLen(l, a.x0.size, a.x1.size) +
      LineLen(l, a.x0.size) * (a.x1.lo - 1);
    assert offset == PlaneStart(l, ax, k);
    var got := ReadFully(file, offset, p, MAX_READ, p.Length);
    ok := got == p.Length;
    if ok {
      assert p[..got] == p[..];
      PlaneCopied(file, p[..], l, ax, k);
    }
  }

  /** One more plane of a slice: it is there exactly when the file goes on to its end. */
  lemma PlaneNext(file: seq<Byte>, l: Layout, ax: Triple<Axis>, a: Triple<Axis>, k: nat)
    requires SlicesAll(ax) && a == DefaultedAll(ax) && k * a.x2.skip < a.x2.hi - a.x2.lo + 1
    ensures a.x0.size >= 1 && a.x1.size >= 1 && a.x2.skip >= 1
    ensures k < Steps(ax.x2) && (k + 1) * a.x2.skip == k * a.x2.skip + a.x2.skip
    ensures 0 <= PlaneStart(l, ax, k)
         == l.dptr + (k * a.x2.skip + a.x2.lo - 1) * PlaneLen(l, a.x0.size, a.x1.size) +
            LineLen(l, a.x0.size) * (a.x1.lo - 1)
  {
    StepWithin(a.x2.hi - a.x2.lo + 1, a.x2.skip, k);
    Times(k, a.x2.skip);
    Times(k * a.x2.skip + a.x2.lo - 1, PlaneLen(l, a.x0.size, a.x1.size));
    Times(LineLen(l, a.x0.size), a.x1.lo - 1);
  }

  /** The number of items of the first i axes of a slice. */
  function Count(ax: Triple<Axis>, i: nat): nat
    requires SlicesAll(ax) && i <= 3
  {
    if i == 0 then 1 else Count(ax, i - 1) * Steps(ax.Get(i - 1))
  }

  class IHeader {
    const org: Org
    const layout: Layout
    var size: Triple<int>
    var lo: Triple<int>
    var hi: Triple<int>
    var skip: Triple<int>
    var dim: Triple<int>

    constructor (org: Org, layout: Layout, size: Triple<int>)
      ensures this.org == org && this.layout == layout
      ensures Axes() == Triple(Axis(size.x0, 0, 0, 0), Axis(size.x1, 0, 0, 0), Axis(size.x2, 0, 0, 0))
    {
      this.org, this.layout, this.size := org, layout, size;
      lo, hi, skip, dim := Triple(0, 0, 0), Triple(0, 0, 0), Triple(0, 0, 0), Triple(0, 0, 0);
    }

    /** The axes in the order of the organisation. */
    function Axes(): Triple<Axis>
      reads this
    {
      Triple(Axis(size.x0, lo.x0, hi.x0, skip.x0), Axis(size.x1, lo.x1, hi.x1, skip.x1),
        Axis(size.x2, lo.x2, hi.x2, skip.x2))
    }

    /** Fill in what the slice leaves open on one axis, and count from 0. */
    method PrepareAxis(i: nat) returns (steps: nat)
      requires i < 3 && Slices(Axes().Get(i))
      modifies this
      ensures Axes() == old(Axes()).Set(i, ZeroBased(old(Axes()).Get(i)))
      ensures dim == old(dim).Set(i, Dim(old(Axes()).Get(i)))
      ensures steps == Steps(old(Axes()).Get(i))
    {
      hide ZeroBased, Dim, Steps, Slices;
      var r;
      r, steps := FillIn(Axis(size.Get(i), lo.Get(i), hi.Get(i), skip.Get(i)));
      size, lo, hi, skip := size.Set(i, r.size), lo.Set(i, r.lo), hi.Set(i, r.hi), skip.Set(i, r.skip);
      dim := dim.Set(i, r.hi - r.lo + 1);
    }

    /** Fill in what the slice leaves open, count from 0 and size the result. */
    method Prepare() returns (dsize: nat)
      requires SlicesAll(Axes())
      modifies this
      ensures var ax := old(Axes());
              && Axes() == Triple(ZeroBased(ax.x0), ZeroBased(ax.x1), ZeroBased(ax.x2))
              && dim == Triple(Dim(ax.x0), Dim(ax.x1), Dim(ax.x2))
              && dsize == Count(ax, 3)
    {
      hide ZeroBased, Dim, Slices, Steps, Axes;
      ghost var ax, d := Axes(), dim;
      dsize := 1;
      for i := 0 to 3
        invariant Axes() == Triple(if i > 0 then ZeroBased(ax.x0) else ax.x0,
                                   if i > 1 then ZeroBased(ax.x1) else ax.x1,
                                   if i > 2 then ZeroBased(ax.x2) else ax.x2)
        invariant dim == Triple(if i > 0 then Dim(ax.x0) else d.x0, if i > 1 then Dim(ax.x1) else d.x1,
                                if i > 2 then Dim(ax.x2) else d.x2)
        invariant dsize == Count(ax, i)
      {
        var steps := PrepareAxis(i);
        dsize := dsize * steps;
      }
    }

    /** Count from 1 again. */
    method Restore()
      modifies this
      ensures size == old(size) && skip == old(skip) && dim == old(dim)
      ensures lo == Triple(old(lo).x0 + 1, old(lo).x1 + 1, old(lo).x2 + 1)
      ensures hi == Triple(old(hi).x0 + 1, old(hi).x1 + 1, old(hi).x2 + 1)
    {
      for i := 0 to 3
        invariant size == old(size) && skip == old(skip) && dim == old(dim)
        invariant forall t: nat :: t < 3 ==> lo.Get(t) == old(lo).Get(t) + (if t < i then 1 else 0)
        invariant forall t: nat :: t < 3 ==> hi.Get(t) == old(hi).Get(t) + (if t < i then 1 else 0)
      {
        lo := lo.Set(i, lo.Get(i) + 1);
        hi := hi.Set(i, hi.Get(i) + 1);
      }
      assert lo.Get(0) == old(lo).Get(0) + 1 && lo.Get(1) == old(lo).Get(1) + 1 && lo.Get(2) == old(lo).Get(2) + 1;
      assert hi.Get(0) == old(hi).Get(0) + 1 && hi.Get(1) == old(hi).Get(1) + 1 && hi.Get(2) == old(hi).Get(2) + 1;
    }

    /** A slice stated for samples, lines and bands is stored in the order of the organisation. */
    method SetSlice(s: IHeader?)
      requires s != this
      modifies this
      ensures size == old(size) && dim == old(dim)
      ensures s == null ==> Axes() == old(Axes())
      ensures s != null ==> FromOrg(org, Axes()) == TakenAll(FromOrg(org, old(Axes())), s.Axes())
    {
      hide Taken;
      if s != null {
        ghost var was, ask := FromOrg(org, Axes()), s.Axes();
        for i := 0 to 3
          invariant size == old(size) && dim == old(dim) && s.Axes() == ask
          invariant FromOrg(org, Axes()) == Triple(if i > 0 then Taken(was.x0, ask.x0) else was.x0,
                                                   if i > 1 then Taken(was.x1, ask.x1) else was.x1,
                                                   if i > 2 then Taken(was.x2, ask.x2) else was.x2)
        {
          SetAxis(i, s);
        }
      }
    }

    method SetAxis(i: nat, s: IHeader)
      requires i < 3 && s != this
      modifies this
      ensures size == old(size) && dim == old(dim)
      ensures FromOrg(org, Axes()) == old(FromOrg(org, Axes())).Set(i,
              Taken(old(FromOrg(org, Axes())).Get(i), s.Axes().Get(i)))
    {
      var j := Order(org).Get(i);
      if s.lo.Get(i) > 0 { lo := lo.Set(j, s.lo.Get(i)); }
      if s.hi.Get(i) > 0 { hi := hi.Set(j, s.hi.Get(i)); }
      if s.skip.Get(i) > 0 { skip := skip.Set(j, s.skip.Get(i)); }
    }

    /** The planes of the slice, until the file ends. */
    method ReadPlanes(file: seq<Byte>, data: array<Byte>, ghost ax: Triple<Axis>) returns (count: nat)
      requires layout.nb > 0 && SlicesAll(ax) && Axes() == Triple(ZeroBased(ax.x0), ZeroBased(ax.x1), ZeroBased(ax.x2))
      requires data.Length == Count(ax, 3) * layout.nb
      modifies data
      ensures count <= data.Length && data[..count] == Cube(file, GridOf(layout, ax), PlanesRead(file, layout, ax))
    {
      hide Cube, PlanesFrom, Steps, PlaneFits, PlaneBytes, GridOf, Slices, ZeroBased, LocalGrid, PlaneOf, Count;
      var l := layout;
      var a := Triple(OneBased(ax.x0, size.x0, lo.x0, hi.x0, skip.x0), OneBased(ax.x1, size.x1, lo.x1, hi.x1, skip.x1),
                      OneBased(ax.x2, size.x2, lo.x2, hi.x2, skip.x2));
      ghost var g, n, m, w := GridOf(l, ax), Steps(ax.x1), Steps(ax.x2), Steps(ax.x0) * l.nb;
      ghost var P := n * w;
      SizeOf(ax, l.nb, n, m, w);
      var p := new Byte[PlaneSize(l, ax, a)];
      count := 0;
      var z := 0;
      ghost var k := 0;
      CubeSteps(file, l, ax, 0);
      while z < a.x2.hi - a.x2.lo + 1
        invariant k <= m && z == k * a.x2.skip && count == k * P && count <= data.Length
        invariant data[..count] == Cube(file, g, k)
        invariant PlanesFrom(file, l, ax, k) == PlanesRead(file, l, ax)
        decreases m - k
      {
        PlaneNext(file, l, ax, a, k);
        CubeSteps(file, l, ax, k);
        Below(k, m, P);
        var ok := ReadPlane(file, p, l, ax, a, k, z);
        if !ok {
          return;
        }
        count := CopyPlane(data, count, p, l, ax, a, n, w);
        assert (k + 1) * P == k * P + P;
        k := k + 1;
        z := z + a.x2.skip;
      }
      PlanesDone(ax, a, k);
      CubeSteps(file, l, ax, k);
    }

    /** Read the slice. If the file is too short the planes before its end are there. The slice in the
        header has its defaults filled in afterwards, so that reading again gives the same. */
    method ReadQubeData(file: seq<Byte>) returns (data: array<Byte>)
      requires layout.nb > 0 && SlicesAll(Axes())
      modifies this
      ensures Axes() == DefaultedAll(old(Axes()))
      ensures var ax := old(Axes()); dim == Triple(Dim(ax.x0), Dim(ax.x1), Dim(ax.x2))
      ensures fresh(data) && data.Length == Count(old(Axes()), 3) * layout.nb
      ensures var ax := old(Axes());
              var c := Cube(file, GridOf(layout, ax), PlanesRead(file, layout, ax));
              |c| <= data.Length && data[..|c|] == c
    {
      ghost var ax := Axes();
      var dsize := Prepare();
      data := new Byte[dsize * layout.nb];
      var count := ReadPlanes(file, data, ax);
      Restore();
    }
  }

  /** Reading twice gives the same bytes: the first read leaves nothing in the header that changes the second. */
  method ReadTwice(h: IHeader, file: seq<Byte>) returns (first: array<Byte>, second: array<Byte>)
    requires h.layout.nb > 0 && SlicesAll(h.Axes())
    modifies h
    ensures var c := Cube(file, GridOf(h.layout, old(h.Axes())), PlanesRead(file, h.layout, old(h.Axes())));
            && |c| <= first.Length == second.Length && first[..|c|] == second[..|c|] == c
    ensures LongEnough(file, h.layout, old(h.Axes())) ==> first[..] == second[..]
  {
    ghost var ax := h.Axes();
    ReadAgain(file, h.layout, ax);
    first := h.ReadQubeData(file);
    second := h.ReadQubeData(file);
    CountAgain(ax);
    if LongEnough(file, h.layout, ax) {
      Filled(file, h.layout, ax);
      assert first[..] == first[..first.Length] && second[..] == second[..second.Length];
    }
  }

  lemma CountAgain(ax: Triple<Axis>)
    requires SlicesAll(ax) && SlicesAll(DefaultedAll(ax)) && StepsAll(DefaultedAll(ax)) == StepsAll(ax)
    ensures Count(DefaultedAll(ax), 3) == Count(ax, 3)
  {
    hide Steps, Slices, Defaulted;
    CountIs(ax);
    CountIs(DefaultedAll(ax));
  }

  lemma CountIs(ax: Triple<Axis>)
    requires SlicesAll(ax)
    ensures Count(ax, 3) == Steps(ax.x0) * Steps(ax.x1) * Steps(ax.x2)
  {
    hide Steps, Slices;
    assert Count(ax, 1) == 1 * Steps(ax.x0);
    assert Count(ax, 2) == Steps(ax.x0) * Steps(ax.x1);
  }

  /** A file that holds the whole cube fills the result exactly. */
  lemma Filled(file: seq<Byte>, l: Layout, ax: Triple<Axis>)
    requires SlicesAll(ax) && LongEnough(file, l, ax)
    ensures PlanesRead(file, l, ax) == Steps(ax.x2)
    ensures |SliceOf(file, l, ax)| == Count(ax, 3) * l.nb
  {
    hide Steps, Slices, LongEnough, Cube, GridOf, Count;
    AllPlanes(file, l, ax, 0);
    CoversAll(file, l, ax);
    SizeOf(ax, l.nb, Steps(ax.x1), Steps(ax.x2), Steps(ax.x0) * l.nb);
  }

  lemma CoversAll(file: seq<Byte>, l: Layout, ax: Triple<Axis>)
    requires SlicesAll(ax) && LongEnough(file, l, ax)
    ensures |SliceOf(file, l, ax)| == Steps(ax.x2) * (Steps(ax.x1) * (Steps(ax.x0) * l.nb))
  {
    SliceOfWhole(file, l, ax, 0, 0, 0);
  }

  // ---------- Into pixel order ----------

  /** The bands of one pixel. */
  method BipPixel(out: array<Byte>, at: nat, data: array<Byte>, org: Org, s: Triple<nat>, nb: nat, x: nat, y: nat)
    requires out != data && Total(s) * nb <= data.Length && x < s.x0 && y < s.x1 && nb > 0
    requires at == Offset(BIP, s, x, y, 0) * nb && at + s.x2 * nb <= out.Length
    modifies out
    ensures out[..at + s.x2 * nb] == old(out[..at]) + LineOf(data[..], BipGrid(org, s, nb), x, y)
  {
    hide Gather, Items, Offset, BipGrid, Grid.At, Total;
    ghost var src, g := data[..], BipGrid(org, s, nb);
    ghost var f := Items(src, g.At(0, x, y), g.step.x0, nb);
    GatherNone(f);
    for z := 0 to s.x2
      invariant data[..] == src && at + z * nb <= out.Length
      invariant out[..at + z * nb] == old(out[..at]) + Gather(z, f)
    {
      BipStep(src, org, s, nb, x, y, z);
      var offset, offset2 := Offset(org, s, x, y, z), Offset(BIP, s, x, y, z);
      Copy(out, offset2 * nb, data, offset * nb, nb);
    }
    BipGridIs(org, s, nb);
  }

  lemma BipGridIs(org: Org, s: Triple<nat>, nb: nat)
    ensures BipGrid(org, s, nb).n == Triple(s.x2, s.x0, s.x1) && BipGrid(org, s, nb).nb == nb
  {
  }

  /** Where the next band comes from and goes to. */
  lemma BipStep(data: seq<Byte>, org: Org, s: Triple<nat>, nb: nat, x: nat, y: nat, z: nat)
    requires Total(s) * nb <= |data| && x < s.x0 && y < s.x1 && z < s.x2
    ensures var g := BipGrid(org, s, nb);
            var f := Items(data, g.At(0, x, y), g.step.x0, nb);
            var offset := Offset(org, s, x, y, z) * nb;
            && 0 <= offset <= offset + nb <= |data|
            && Gather(z + 1, f) == Gather(z, f) + data[offset..offset + nb]
            && Offset(BIP, s, x, y, z) * nb == Offset(BIP, s, x, y, 0) * nb + z * nb
            && (z + 1) * nb == z * nb + nb && z * nb + nb <= s.x2 * nb
  {
    hide Offset, BipGrid, Grid.At, Total;
    var g := BipGrid(org, s, nb);
    BipWithin(data, org, s, nb, x, y, z);
    BipAt(org, s, nb, x, y, z);
    AtStep(g, z, x, y);
    BipBands(s, x, y, z);
    Below(z, s.x2, nb);
    assert (Offset(BIP, s, x, y, 0) + z) * nb == Offset(BIP, s, x, y, 0) * nb + z * nb;
  }

  lemma BipBands(s: Triple<nat>, x: nat, y: nat, z: nat)
    ensures Offset(BIP, s, x, y, z) == Offset(BIP, s, x, y, 0) + z
  {
  }

  /** The pixels of one line. */
  method BipLine(out: array<Byte>, at: nat, data: array<Byte>, org: Org, s: Triple<nat>, nb: nat, y: nat)
    requires out != data && Total(s) * nb <= data.Length && y < s.x1 && nb > 0
    requires at == Offset(BIP, s, 0, y, 0) * nb && at + s.x0 * (s.x2 * nb) <= out.Length
    modifies out
    ensures out[..at + s.x0 * (s.x2 * nb)] == old(out[..at]) + PlaneOf(data[..], BipGrid(org, s, nb), y)
  {
    hide Gather, Offset, BipGrid, LineOf, Total;
    ghost var src, g, w := data[..], BipGrid(org, s, nb), s.x2 * nb;
    GatherNone(LinesOf(src, g, y));
    for x := 0 to s.x0
      invariant data[..] == src && at + x * w <= out.Length
      invariant out[..at + x * w] == old(out[..at]) + Gather(x, LinesOf(src, g, y))
    {
      PixelStep(src, org, s, nb, x, y, w);
      BipPixel(out, Offset(BIP, s, x, y, 0) * nb, data, org, s, nb, x, y);
    }
    BipGridIs(org, s, nb);
  }

  lemma PixelStep(data: seq<Byte>, org: Org, s: Triple<nat>, nb: nat, x: nat, y: nat, w: nat)
    requires x < s.x0 && w == s.x2 * nb
    ensures var f := LinesOf(data, BipGrid(org, s, nb), y);
            && Gather(x + 1, f) == Gather(x, f) + LineOf(data, BipGrid(org, s, nb), x, y)
            && Offset(BIP, s, x, y, 0) * nb == Offset(BIP, s, 0, y, 0) * nb + x * w
            && (x + 1) * w == x * w + w && x * w + w <= s.x0 * w
  {
    hide BipGrid, LineOf;
    var b := y * (s.x0 * s.x2);
    assert Offset(BIP, s, x, y, 0) == b + x * s.x2 && Offset(BIP, s, 0, y, 0) == b;
    assert (b + x * s.x2) * nb == b * nb + x * (s.x2 * nb);
    Below(x, s.x0, w);
  }

  lemma RowStep(data: seq<Byte>, org: Org, s: Triple<nat>, nb: nat, y: nat, w: nat)
    requires y < s.x1 && w == s.x0 * (s.x2 * nb)
    ensures var f := PlanesOf(data, BipGrid(org, s, nb));
            && Gather(y + 1, f) == Gather(y, f) + PlaneOf(data, BipGrid(org, s, nb), y)
            && Offset(BIP, s, 0, y, 0) * nb == y * w
            && (y + 1) * w == y * w + w && y * w + w <= s.x1 * w
  {
    hide BipGrid, PlaneOf;
    assert Offset(BIP, s, 0, y, 0) == y * (s.x0 * s.x2);
    assert y * (s.x0 * s.x2) * nb == y * (s.x0 * (s.x2 * nb));
    Below(y, s.x1, w);
  }

  /** All lines. */
  method BipLines(out: array<Byte>, data: array<Byte>, org: Org, s: Triple<nat>, nb: nat)
    requires out != data && Total(s) * nb <= data.Length && nb > 0
    requires out.Length == s.x1 * (s.x0 * (s.x2 * nb))
    modifies out
    ensures out[..] == Bip(data[..], org, s, nb)
  {
    hide Gather, Offset, BipGrid, PlaneOf, Total;
    ghost var src, g, w := data[..], BipGrid(org, s, nb), s.x0 * (s.x2 * nb);
    GatherNone(PlanesOf(src, g));
    for y := 0 to s.x1
      invariant data[..] == src && y * w <= out.Length
      invariant out[..y * w] == Gather(y, PlanesOf(src, g))
    {
      RowStep(src, org, s, nb, y, w);
      BipLine(out, Offset(BIP, s, 0, y, 0) * nb, data, org, s, nb, y);
    }
    assert out[..] == out[..s.x1 * w];
  }

  /** In pixel order already: the conversion is a copy. */
  lemma AlreadyBip(data: seq<Byte>, s: Triple<nat>, nb: nat)
    requires Total(s) * nb <= |data|
    ensures Bip(data, BIP, s, nb) == data[..Total(s) * nb]
  {
    hide Total, PlaneOf, BipGrid;
    var g, w := BipGrid(BIP, s, nb), s.x0 * (s.x2 * nb);
    TotalBytes(s, nb);
    BipGridIs(BIP, s, nb);
    forall y: nat | y < s.x1
      ensures PieceAt(data, 0, w, y, PlanesOf(data, g)(y))
    {
      BipRow(data, s, nb, y);
    }
    Stretch(data, 0, s.x1, PlanesOf(data, g), w);
  }

  lemma BipRow(data: seq<Byte>, s: Triple<nat>, nb: nat, y: nat)
    requires Total(s) * nb <= |data| && y < s.x1
    ensures PieceAt(data, 0, s.x0 * (s.x2 * nb), y, PlaneOf(data, BipGrid(BIP, s, nb), y))
  {
    hide Total, LineOf, BipGrid;
    var g, w, v := BipGrid(BIP, s, nb), s.x0 * (s.x2 * nb), s.x2 * nb;
    TotalBytes(s, nb);
    BipGridIs(BIP, s, nb);
    Below(y, s.x1, w);
    Times(y, w);
    forall x: nat | x < s.x0
      ensures PieceAt(data, y * w, v, x, LinesOf(data, g, y)(x))
    {
      BipBandsOf(data, s, nb, x, y);
    }
    Stretch(data, y * w, s.x0, LinesOf(data, g, y), v);
  }

  lemma BipBandsOf(data: seq<Byte>, s: Triple<nat>, nb: nat, x: nat, y: nat)
    requires Total(s) * nb <= |data| && x < s.x0 && y < s.x1
    ensures PieceAt(data, y * (s.x0 * (s.x2 * nb)), s.x2 * nb, x, LineOf(data, BipGrid(BIP, s, nb), x, y))
  {
    hide Total, BipGrid, Offset, LineOf;
    var w, v := s.x0 * (s.x2 * nb), s.x2 * nb;
    TotalBytes(s, nb);
    RowStep(data, BIP, s, nb, y, w);
    PixelStep(data, BIP, s, nb, x, y, v);
    Times(y, w);
    Times(x, v);
    BandsStretch(data, s, nb, x, y, y * w + x * v);
  }

  lemma BandsStretch(data: seq<Byte>, s: Triple<nat>, nb: nat, x: nat, y: nat, off: nat)
    requires Total(s) * nb <= |data| && x < s.x0 && y < s.x1 && off == Offset(BIP, s, x, y, 0) * nb
    requires off + s.x2 * nb <= |data|
    ensures LineOf(data, BipGrid(BIP, s, nb), x, y) == data[off..off + s.x2 * nb]
  {
    hide Total, BipGrid, Grid.At, Offset, Item;
    var g := BipGrid(BIP, s, nb);
    BipGridIs(BIP, s, nb);
    var f := Items(data, g.At(0, x, y), g.step.x0, nb);
    forall z: nat | z < s.x2
      ensures PieceAt(data, off, nb, z, f(z))
    {
      BandPiece(data, s, nb, x, y, z, off);
    }
    Stretch(data, off, s.x2, f, nb);
  }

  lemma BandPiece(data: seq<Byte>, s: Triple<nat>, nb: nat, x: nat, y: nat, z: nat, off: nat)
    requires Total(s) * nb <= |data| && x < s.x0 && y < s.x1 && z < s.x2 && off == Offset(BIP, s, x, y, 0) * nb
    ensures var g := BipGrid(BIP, s, nb);
            PieceAt(data, off, nb, z, Items(data, g.At(0, x, y), g.step.x0, nb)(z))
  {
    hide Total, BipGrid, Grid.At, Offset, Gather;
    BipWithin(data, BIP, s, nb, x, y, z);
    BipAt(BIP, s, nb, x, y, z);
    AtStep(BipGrid(BIP, s, nb), z, x, y);
    BipStep(data, BIP, s, nb, x, y, z);
    Times(z, nb);
  }

  /** The organisation with the given number, if there is one. */
  function OrgOf(code: int): Org
    requires 0 <= code <= 2
  {
    if code == 0 then BSQ else if code == 1 then BIL else BIP
  }

  /** A fresh copy of the cube in pixel order; none for an unknown organisation. */
  method ConvertToBIP(data: array<Byte>, code: int, size: Triple<nat>, nb: nat) returns (bip: array?<Byte>)
    requires nb > 0 && Total(size) * nb <= data.Length
    ensures bip == null <==> !(0 <= code <= 2)
    ensures bip != null ==>
      var s := FromOrg(OrgOf(code), size);
      fresh(bip) && bip.Length == Total(size) * nb && bip[..] == Bip(data[..], OrgOf(code), s, nb)
  {
    hide Total, PlaneOf, Offset, Bip;
    if !(0 <= code <= 2) {
      return null;
    }
    var org := OrgOf(code);
    var s := FromOrg(org, size);
    TotalInOrg(org, s);
    TotalBytes(s, nb);
    bip := new Byte[Total(size) * nb];
    if org == BIP {
      Copy(bip, 0, data, 0, Total(size) * nb);
      AlreadyBip(data[..], s, nb);
      return;
    }
    BipLines(bip, data, org, s, nb);
  }

  /** A user's slice of a stored cube, in pixel order. What comes out depends on the cube and the slice
      alone: not on how the file is organised, nor on its prefixes, suffixes and corners. */
  method SlicePixels(h: IHeader, s: IHeader?, file: seq<Byte>, ghost cube: (nat, nat, nat) -> seq<Byte>,
                     ghost ax: Triple<Axis>)
    returns (bip: array?<Byte>)
    requires s != h && h.layout.nb > 0
    requires ax == (if s == null then FromOrg(h.org, h.Axes()) else TakenAll(FromOrg(h.org, h.Axes()), s.Axes()))
    requires SlicesAll(ax) && SlicesAll(InOrg(h.org, ax)) && LongEnough(file, h.layout, InOrg(h.org, ax))
    requires Stores(file, h.layout, h.org, Sizes(ax), cube)
    modifies h
    ensures bip != null && bip[..] == CubePixels(cube, ax, StepsAll(ax))
  {
    hide Stores, LongEnough, Taken, Sizes, Slices, Cube, Bip, CubePixels, GridOf, Defaulted, Steps, Total;
    ghost var l, org := h.layout, h.org;
    var data, n := ReadSlice(h, s, file, ax);
    bip := ConvertToBIP(data, Code(h.org), n, h.layout.nb);
    OrganisationIndependent(file, l, org, Sizes(ax), cube, ax);
  }

  /** The slice and its size, in the order of the organisation. */
  method ReadSlice(h: IHeader, s: IHeader?, file: seq<Byte>, ghost ax: Triple<Axis>) returns (data: array<Byte>,
                   n: Triple<nat>)
    requires s != h && h.layout.nb > 0
    requires ax == (if s == null then FromOrg(h.org, h.Axes()) else TakenAll(FromOrg(h.org, h.Axes()), s.Axes()))
    requires SlicesAll(ax) && SlicesAll(InOrg(h.org, ax)) && LongEnough(file, h.layout, InOrg(h.org, ax))
    modifies h
    ensures fresh(data) && data[..] == SliceOf(file, h.layout, InOrg(h.org, ax))
    ensures FromOrg(h.org, n) == StepsAll(ax) && Total(n) * h.layout.nb == data.Length
  {
    hide LongEnough, Taken, Slices, Cube, GridOf, Defaulted, Dim, Count, Steps, Total;
    ghost var o := InOrg(h.org, ax);
    h.SetSlice(s);
    assert h.Axes() == o;
    data := h.ReadQubeData(file);
    Filled(file, h.layout, o);
    assert data[..] == data[..data.Length];
    n := Triple(StepsOf(o.x0, h.dim.x0, h.skip.x0), StepsOf(o.x1, h.dim.x1, h.skip.x1),
      StepsOf(o.x2, h.dim.x2, h.skip.x2));
    TotalSteps(o, n);
  }

  lemma TotalSteps(ax: Triple<Axis>, n: Triple<nat>)
    requires SlicesAll(ax) && n == StepsAll(ax)
    ensures Total(n) == Count(ax, 3)
  {
    CountIs(ax);
  }

  /** The number of items on an axis of the result. */
  function StepsOf(ghost a: Axis, dim: int, skip: int): (n: nat)
    requires Slices(a) && dim == Dim(a) && skip == Defaulted(a).skip
    ensures n == Steps(a)
  {
    (dim - 1) / skip + 1
  }

  function Code(org: Org): (code: int)
    ensures 0 <= code <= 2 && OrgOf(code) == org
  {
    match org
    case BSQ => 0
    case BIL => 1
    case BIP => 2
  }
}
