/** Paint orders of pixels. */
module PixelLayers {
  import opened Sequences

  datatype Pixel = Pixel(x: int, y: int)

  /** Scan order: by row, then by column. */
  predicate Before(p: Pixel, q: Pixel) {
    p.y < q.y || (p.y == q.y && p.x < q.x)
  }

  const NBLOCKS := 7

  /** Only covered pixels have an entry. */
  type Layers = map<Pixel, seq<int>>

  function At(m: Layers, p: Pixel): seq<int> {
    if p in m then m[p] else []
  }

  function Without(c: int, s: seq<int>): seq<int> {
    if s == [] then []
    else if s[0] == c then Without(c, s[1..])
    else [s[0]] + Without(c, s[1..])
  }

  function ToFront(c: int, s: seq<int>): seq<int> {
    [c] + Without(c, s)
  }

  function Paint(m: Layers, p: Pixel, c: int): Layers {
    m[p := ToFront(c, At(m, p))]
  }

  function Erase(m: Layers, p: Pixel, c: int): Layers {
    var rest := Without(c, At(m, p));
    if rest == [] then m - {p} else m[p := rest]
  }

  /** The pixels selected by block c. */
  ghost function Region(m: Layers, c: int): set<Pixel> {
    set p | p in m && c in m[p]
  }

  /** Every covered pixel has a paint order that is non-empty, duplicate-free and made of real blocks. */
  ghost predicate WellPainted(m: Layers) {
    forall p :: p in m ==> m[p] != [] && Distinct(m[p]) && forall c :: c in m[p] ==> 0 <= c < NBLOCKS
  }

  lemma DistinctAt(m: Layers, p: Pixel)
    requires WellPainted(m)
    ensures Distinct(At(m, p))
  {
  }

  lemma {:induction false} WithoutAbsent(c: int, s: seq<int>)
    requires c !in s
    ensures Without(c, s) == s
  {
    if s != [] {
      WithoutAbsent(c, s[1..]);
    }
  }

  lemma {:induction false} WithoutAt(c: int, s: seq<int>, k: nat)
    requires Distinct(s) && k < |s| && s[k] == c
    ensures Without(c, s) == s[..k] + s[k + 1..]
  {
    if k == 0 {
      WithoutAbsent(c, s[1..]);
    } else {
      WithoutAt(c, s[1..], k - 1);
      assert s[..k] == [s[0]] + s[1..][..k - 1];
    }
  }

  lemma {:induction false} WithoutMembers(c: int, s: seq<int>)
    ensures c !in Without(c, s)
    ensures forall d :: d != c ==> (d in Without(c, s) <==> d in s)
    ensures Distinct(s) ==> Distinct(Without(c, s))
  {
    if s != [] {
      WithoutMembers(c, s[1..]);
      if Distinct(s) {
        assert forall j :: 0 < j < |s| ==> s[j] == s[1..][j - 1];
        assert s[0] !in s[1..];
        if s[0] != c {
          assert s[0] !in Without(c, s[1..]);
        }
      }
    }
  }

  lemma WithoutTwice(c: int, s: seq<int>)
    ensures Without(c, Without(c, s)) == Without(c, s)
    ensures Without(c, ToFront(c, s)) == Without(c, s)
  {
    WithoutMembers(c, s);
    WithoutAbsent(c, Without(c, s));
    assert ToFront(c, s)[1..] == Without(c, s);
  }

  /** Removing two colours commutes: this is what keeps the other blocks' paint order fixed. */
  lemma {:induction false} WithoutCommutes(c: int, d: int, s: seq<int>)
    ensures Without(c, Without(d, s)) == Without(d, Without(c, s))
  {
    if s != [] {
      WithoutCommutes(c, d, s[1..]);
      assert ([s[0]] + Without(c, s[1..]))[1..] == Without(c, s[1..]);
      assert ([s[0]] + Without(d, s[1..]))[1..] == Without(d, s[1..]);
    }
  }

  /** Painting puts c on top at p, adds p to c's region, and leaves every other block's region and
      the relative order of the other blocks at every pixel alone. */
  lemma PaintMeaning(m: Layers, p: Pixel, c: int)
    requires WellPainted(m) && 0 <= c < NBLOCKS
    ensures WellPainted(Paint(m, p, c))
    ensures p in Paint(m, p, c) && Paint(m, p, c)[p][0] == c
    ensures Region(Paint(m, p, c), c) == Region(m, c) + {p}
    ensures forall d :: d != c ==> Region(Paint(m, p, c), d) == Region(m, d)
    ensures forall q :: Without(c, At(Paint(m, p, c), q)) == Without(c, At(m, q))
  {
    WithoutMembers(c, At(m, p));
    WithoutTwice(c, At(m, p));
    assert forall d :: d in ToFront(c, At(m, p)) <==> d == c || d in At(m, p);
    forall d | d != c
      ensures Region(Paint(m, p, c), d) == Region(m, d)
    {
      forall q
        ensures q in Region(Paint(m, p, c), d) <==> q in Region(m, d)
      {
      }
    }
  }

  /** Erasing removes p from c's region; a pixel no block covers any more loses its entry. */
  lemma EraseMeaning(m: Layers, p: Pixel, c: int)
    requires WellPainted(m)
    ensures WellPainted(Erase(m, p, c))
    ensures Region(Erase(m, p, c), c) == Region(m, c) - {p}
    ensures forall d :: d != c ==> Region(Erase(m, p, c), d) == Region(m, d)
    ensures forall q :: Without(c, At(Erase(m, p, c), q)) == Without(c, At(m, q))
    ensures p !in Region(m, c) ==> Erase(m, p, c) == m
  {
    var s := At(m, p);
    WithoutMembers(c, s);
    WithoutTwice(c, s);
    if c !in s {
      WithoutAbsent(c, s);
    }
    forall d | d != c
      ensures Region(Erase(m, p, c), d) == Region(m, d)
    {
      forall q
        ensures q in Region(Erase(m, p, c), d) <==> q in Region(m, d)
      {
        if q == p {
          assert d in s <==> d in Without(c, s);
        }
      }
    }
  }

  /** DeletePoint's walk never compares the only node of a one-point block when that point sorts
      before p, and then reports a deletion that did not happen (pw/block.c:390). */
  ghost predicate Overshoots(m: Layers, p: Pixel, c: int) {
    exists q :: Region(m, c) == {q} && Before(q, p)
  }

  /** What DeletePoint reports. */
  ghost predicate ReportsDeleted(m: Layers, p: Pixel, c: int) {
    p in Region(m, c) || Overshoots(m, p, c)
  }

  /** What TogglePoint does to the index. */
  ghost function Toggle(m: Layers, p: Pixel, c: int): Layers {
    if ReportsDeleted(m, p, c) then Erase(m, p, c) else Paint(m, p, c)
  }

  /** Toggling flips p's membership in block c exactly when the deletion report is honest. */
  lemma ToggleFlips(m: Layers, p: Pixel, c: int)
    requires WellPainted(m) && 0 <= c < NBLOCKS
    ensures (p in Region(Toggle(m, p, c), c) <==> p !in Region(m, c)) <==> !Overshoots(m, p, c)
  {
    PaintMeaning(m, p, c);
    EraseMeaning(m, p, c);
  }

  /** The failing family is not empty: toggling (1,0) into a block that holds just (0,0) does nothing. */
  lemma ToggleCanBeLost()
    ensures var m: Layers := map[Pixel(0, 0) := [3]];
            WellPainted(m) && Toggle(m, Pixel(1, 0), 3) == m
  {
    var m: Layers := map[Pixel(0, 0) := [3]];
    assert Region(m, 3) == {Pixel(0, 0)};
    assert Before(Pixel(0, 0), Pixel(1, 0));
    EraseMeaning(m, Pixel(1, 0), 3);
  }

  predicate InBox(q: Pixel, x0: int, y0: int, x1: int, y1: int) {
    x0 <= q.x <= x1 && y0 <= q.y <= y1
  }

  /** q lies in the rectangle with opposite corners (ax,ay) and (x,y), borders included. */
  predicate InRectangle(q: Pixel, ax: int, ay: int, x: int, y: int) {
    (ax <= q.x <= x || x <= q.x <= ax) && (ay <= q.y <= y || y <= q.y <= ay)
  }

  function Distance(a: int, b: int): int {
    if a <= b then b - a else a - b
  }

  /** The rectangle reaches from the anchor to the pointer, both included: going through a pixel of it is no detour
      on either axis. */
  lemma RectangleSides(q: Pixel, ax: int, ay: int, x: int, y: int)
    ensures InRectangle(q, ax, ay, x, y) <==>
            && Distance(ax, q.x) + Distance(q.x, x) == Distance(ax, x)
            && Distance(ay, q.y) + Distance(q.y, y) == Distance(ay, y)
  {
  }

  /** m' is m with c painted on the part of the box that AddBlock visits before column i of row j:
      it scans rows and columns downwards. */
  ghost predicate PaintedDownTo(m: Layers, m': Layers, c: int, x0: int, y0: int, x1: int, y1: int, j: int, i: int) {
    forall q :: At(m', q) == (
      if (q.y > j || (q.y == j && q.x > i)) && InBox(q, x0, y0, x1, y1) then ToFront(c, At(m, q)) else At(m, q))
  }

  lemma PaintStep(m: Layers, m': Layers, c: int, x0: int, y0: int, x1: int, y1: int, j: int, i: int)
    requires PaintedDownTo(m, m', c, x0, y0, x1, y1, j, i) && InBox(Pixel(i, j), x0, y0, x1, y1)
    ensures PaintedDownTo(m, Paint(m', Pixel(i, j), c), c, x0, y0, x1, y1, j, i - 1)
  {
  }

  lemma PaintRow(m: Layers, m': Layers, c: int, x0: int, y0: int, x1: int, y1: int, j: int)
    requires PaintedDownTo(m, m', c, x0, y0, x1, y1, j, x0 - 1)
    ensures PaintedDownTo(m, m', c, x0, y0, x1, y1, j - 1, x1)
  {
  }

  /** m' is m with c erased on the part of the box that DeleteBlock visits before column i of row j:
      it scans rows and columns upwards. */
  ghost predicate ErasedUpTo(m: Layers, m': Layers, c: int, x0: int, y0: int, x1: int, y1: int, j: int, i: int) {
    forall q :: At(m', q) == (
      if (q.y < j || (q.y == j && q.x < i)) && InBox(q, x0, y0, x1, y1) then Without(c, At(m, q)) else At(m, q))
  }

  lemma EraseStep(m: Layers, m': Layers, c: int, x0: int, y0: int, x1: int, y1: int, j: int, i: int)
    requires ErasedUpTo(m, m', c, x0, y0, x1, y1, j, i) && InBox(Pixel(i, j), x0, y0, x1, y1)
    ensures ErasedUpTo(m, Erase(m', Pixel(i, j), c), c, x0, y0, x1, y1, j, i + 1)
  {
  }

  lemma EraseRow(m: Layers, m': Layers, c: int, x0: int, y0: int, x1: int, y1: int, j: int)
    requires ErasedUpTo(m, m', c, x0, y0, x1, y1, j, x1 + 1)
    ensures ErasedUpTo(m, m', c, x0, y0, x1, y1, j + 1, x0)
  {
  }

  /** The paint order of q after block c was given a rectangle. */
  function AddedAt(m: Layers, q: Pixel, c: int, ax: int, ay: int, x: int, y: int, replace: bool): seq<int> {
    if InRectangle(q, ax, ay, x, y) then ToFront(c, At(m, q))
    else if replace then Without(c, At(m, q))
    else At(m, q)
  }

  /** The paint order of q after block c lost a rectangle. */
  function DeletedAt(m: Layers, q: Pixel, c: int, ax: int, ay: int, x: int, y: int): seq<int> {
    if InRectangle(q, ax, ay, x, y) then Without(c, At(m, q)) else At(m, q)
  }

  lemma PaintStart(m: Layers, c: int, x0: int, y0: int, x1: int, y1: int)
    ensures PaintedDownTo(m, m, c, x0, y0, x1, y1, y1, x1)
  {
  }

  lemma PaintEnd(m: Layers, base: Layers, m': Layers, c: int, ax: int, ay: int, x: int, y: int, replace: bool,
                 x0: int, y0: int, x1: int, y1: int)
    requires forall q :: InBox(q, x0, y0, x1, y1) <==> InRectangle(q, ax, ay, x, y)
    requires if replace then forall q :: At(base, q) == Without(c, At(m, q)) else base == m
    requires PaintedDownTo(base, m', c, x0, y0, x1, y1, y0 - 1, x1)
    ensures forall q :: At(m', q) == AddedAt(m, q, c, ax, ay, x, y, replace)
  {
    forall q
      ensures At(m', q) == AddedAt(m, q, c, ax, ay, x, y, replace)
    {
      WithoutTwice(c, At(m, q));
      assert InBox(q, x0, y0, x1, y1) <==> InRectangle(q, ax, ay, x, y);
    }
  }

  lemma EraseStart(m: Layers, c: int, x0: int, y0: int, x1: int, y1: int)
    ensures ErasedUpTo(m, m, c, x0, y0, x1, y1, y0, x0)
  {
  }

  lemma EraseEnd(m: Layers, m': Layers, c: int, ax: int, ay: int, x: int, y: int, x0: int, y0: int, x1: int, y1: int)
    requires forall q :: InBox(q, x0, y0, x1, y1) <==> InRectangle(q, ax, ay, x, y)
    requires ErasedUpTo(m, m', c, x0, y0, x1, y1, y1 + 1, x0)
    ensures forall q :: At(m', q) == DeletedAt(m, q, c, ax, ay, x, y)
  {
    forall q
      ensures At(m', q) == DeletedAt(m, q, c, ax, ay, x, y)
    {
      assert InBox(q, x0, y0, x1, y1) <==> InRectangle(q, ax, ay, x, y);
    }
  }

  /** AddBlock as sets: the block's region becomes the union with the rectangle, or in replace mode the
      rectangle alone, the block is on top all over the rectangle, and the other blocks keep their
      regions and their order among each other. */
  lemma AddedMeaning(m: Layers, m': Layers, c: int, ax: int, ay: int, x: int, y: int, replace: bool)
    requires WellPainted(m) && WellPainted(m')
    requires forall q :: At(m', q) == AddedAt(m, q, c, ax, ay, x, y, replace)
    ensures forall q :: q in Region(m', c) <==> InRectangle(q, ax, ay, x, y) || (!replace && q in Region(m, c))
    ensures forall q :: InRectangle(q, ax, ay, x, y) ==> q in m' && m'[q][0] == c
    ensures forall d :: d != c ==> Region(m', d) == Region(m, d)
    ensures forall q :: Without(c, At(m', q)) == Without(c, At(m, q))
  {
    forall q
      ensures c in At(m', q) <==> InRectangle(q, ax, ay, x, y) || (!replace && c in At(m, q))
      ensures Without(c, At(m', q)) == Without(c, At(m, q))
      ensures forall d :: d != c ==> (d in At(m', q) <==> d in At(m, q))
      ensures InRectangle(q, ax, ay, x, y) ==> q in m' && m'[q][0] == c
    {
      assert At(m', q) == AddedAt(m, q, c, ax, ay, x, y, replace);
      WithoutMembers(c, At(m, q));
      WithoutTwice(c, At(m, q));
    }
    RegionByAt(m, m', c);
  }

  /** DeleteBlock as sets: the block's region loses exactly the rectangle, the others keep theirs. */
  lemma DeletedMeaning(m: Layers, m': Layers, c: int, ax: int, ay: int, x: int, y: int)
    requires WellPainted(m) && WellPainted(m')
    requires forall q :: At(m', q) == DeletedAt(m, q, c, ax, ay, x, y)
    ensures forall q :: q in Region(m', c) <==> q in Region(m, c) && !InRectangle(q, ax, ay, x, y)
    ensures forall d :: d != c ==> Region(m', d) == Region(m, d)
    ensures forall q :: Without(c, At(m', q)) == Without(c, At(m, q))
  {
    forall q: Pixel
      ensures q in Region(m', c) <==> q in Region(m, c) && !InRectangle(q, ax, ay, x, y)
      ensures Without(c, At(m', q)) == Without(c, At(m, q))
      ensures forall d :: d != c ==> (d in At(m', q) <==> d in At(m, q))
    {
      assert At(m', q) == DeletedAt(m, q, c, ax, ay, x, y);
      WithoutMembers(c, At(m, q));
      WithoutTwice(c, At(m, q));
    }
    RegionByAt(m, m', c);
  }

  lemma RegionByAt(m: Layers, m': Layers, c: int)
    requires forall q, d :: d != c ==> (d in At(m', q) <==> d in At(m, q))
    ensures forall d :: d != c ==> Region(m', d) == Region(m, d)
  {
    forall d | d != c
      ensures Region(m', d) == Region(m, d)
    {
      forall q
        ensures q in Region(m', d) <==> q in Region(m, d)
      {
        assert d in At(m', q) <==> d in At(m, q);
      }
    }
  }

  /** One user action on the index. */
  datatype Step = Select(c: int) | Add(p: Pixel) | Delete(p: Pixel) | Flip(p: Pixel)

  ghost predicate Legal(steps: seq<Step>) {
    forall i :: 0 <= i < |steps| && steps[i].Select? ==> 0 <= steps[i].c < NBLOCKS
  }

  ghost function Apply(m: Layers, c: int, step: Step): Layers {
    match step
    case Select(_) => m
    case Add(p) => Paint(m, p, c)
    case Delete(p) => Erase(m, p, c)
    case Flip(p) => Toggle(m, p, c)
  }

  function Selected(c: int, step: Step): int {
    if step.Select? then step.c else c
  }

  /** The index after a whole run of steps that starts with block c current. */
  ghost function Replay(m: Layers, c: int, steps: seq<Step>): Layers
    decreases |steps|
  {
    if steps == [] then m else Replay(Apply(m, c, steps[0]), Selected(c, steps[0]), steps[1..])
  }

  function SelectedAfter(c: int, steps: seq<Step>): int
    decreases |steps|
  {
    if steps == [] then c else SelectedAfter(Selected(c, steps[0]), steps[1..])
  }

  lemma {:induction false} ReplayMore(m: Layers, c: int, steps: seq<Step>, step: Step)
    ensures Replay(m, c, steps + [step]) == Apply(Replay(m, c, steps), SelectedAfter(c, steps), step)
    ensures SelectedAfter(c, steps + [step]) == Selected(SelectedAfter(c, steps), step)
    decreases |steps|
  {
    var more := steps + [step];
    if steps == [] {
      assert more[1..] == [];
      assert Replay(Apply(m, c, step), Selected(c, step), []) == Apply(m, c, step);
    } else {
      ReplayMore(Apply(m, c, steps[0]), Selected(c, steps[0]), steps[1..], step);
      assert more[1..] == steps[1..] + [step];
    }
  }

  /** The colours of s that lie in ds, in order. */
  function Keep(ds: set<int>, s: seq<int>): seq<int> {
    if s == [] then []
    else if s[0] in ds then [s[0]] + Keep(ds, s[1..])
    else Keep(ds, s[1..])
  }

  lemma {:induction false} KeepWithout(ds: set<int>, c: int, s: seq<int>)
    requires c !in ds
    ensures Keep(ds, Without(c, s)) == Keep(ds, s) && Keep(ds, ToFront(c, s)) == Keep(ds, s)
  {
    if s != [] {
      KeepWithout(ds, c, s[1..]);
      if s[0] != c {
        assert ([s[0]] + Without(c, s[1..]))[1..] == Without(c, s[1..]);
      }
    }
    assert ToFront(c, s)[1..] == Without(c, s);
  }

  /** Over a whole run, the blocks that are never current keep their pixels and, at every pixel, their
      order among each other. */
  lemma {:induction false} UnselectedKept(m: Layers, c: int, steps: seq<Step>, ds: set<int>)
    requires c !in ds && forall i :: 0 <= i < |steps| && steps[i].Select? ==> steps[i].c !in ds
    ensures forall q :: Keep(ds, At(Replay(m, c, steps), q)) == Keep(ds, At(m, q))
    decreases |steps|
  {
    if steps != [] {
      var m', c' := Apply(m, c, steps[0]), Selected(c, steps[0]);
      UnselectedKept(m', c', steps[1..], ds);
      forall q
        ensures Keep(ds, At(m', q)) == Keep(ds, At(m, q))
      {
        KeepWithout(ds, c, At(m, q));
      }
    }
  }
}
