/** Toggling a rectangle. */
module PixelToggles {
  import opened PixelLayers

  /** The rectangle between two corners. */
  datatype Box = Box(ax: int, ay: int, x: int, y: int) {
    predicate Has(q: Pixel) {
      InRectangle(q, ax, ay, x, y)
    }
  }

  /** Once the pixels of the box after it have been toggled, q is alone in its block: the other pixels of
      the block r all lie in the box, after every pixel after q that is toggled on. */
  ghost predicate LeftAlone(r: set<Pixel>, box: Box, q: Pixel) {
    && q in r
    && forall p, s :: box.Has(p) && p !in r && Before(q, p) && s in r && s != q ==> box.Has(s) && Before(p, s)
  }

  /** The toggle of p is lost, because the deletion walk overshoots a lone pixel. */
  ghost predicate Lost(r: set<Pixel>, box: Box, p: Pixel) {
    box.Has(p) && p !in r && exists q :: LeftAlone(r, box, q) && Before(q, p)
  }

  /** The paint order of q after the box was toggled in block c. */
  ghost function ToggledAt(m: Layers, q: Pixel, c: int, box: Box): seq<int> {
    if !box.Has(q) || Lost(Region(m, c), box, q) then At(m, q)
    else if c in At(m, q) then Without(c, At(m, q))
    else ToFront(c, At(m, q))
  }

  /** m' is m with the part of the box toggled that ToggleBlock visits before column i of row j. */
  ghost predicate ToggledDownTo(m: Layers, m': Layers, c: int, box: Box, j: int, i: int) {
    forall q :: At(m', q) == if Before(Pixel(i, j), q) then ToggledAt(m, q, c, box) else At(m, q)
  }

  /** r1 is the block r with the box toggled after p. */
  ghost predicate ToggledAfter(r: set<Pixel>, r1: set<Pixel>, box: Box, p: Pixel) {
    forall q :: q in r1 <==> if box.Has(q) && Before(p, q) then q !in r && !Lost(r, box, q) else q in r
  }

  /** When it is p's turn the walk overshoots if and only if p's toggle is one of the lost. */
  lemma OvershootsOnLost(r: set<Pixel>, r1: set<Pixel>, box: Box, p: Pixel)
    requires box.Has(p) && p !in r && ToggledAfter(r, r1, box, p)
    ensures (exists q :: r1 == {q} && Before(q, p)) <==> Lost(r, box, p)
  {
    if q :| r1 == {q} && Before(q, p) {
      AloneThen(r, r1, box, p, q);
    }
    if Lost(r, box, p) {
      var q :| LeftAlone(r, box, q) && Before(q, p);
      AloneNow(r, r1, box, p, q);
    }
  }

  lemma AloneThen(r: set<Pixel>, r1: set<Pixel>, box: Box, p: Pixel, q: Pixel)
    requires box.Has(p) && p !in r && ToggledAfter(r, r1, box, p) && r1 == {q} && Before(q, p)
    ensures LeftAlone(r, box, q)
  {
    assert q in r;
    forall p', s | box.Has(p') && p' !in r && Before(q, p') && s in r && s != q
      ensures box.Has(s) && Before(p', s)
    {
      assert s !in r1;
      if Before(p, p') {
        assert p' !in r1 && Lost(r, box, p');
        var q' :| LeftAlone(r, box, q') && Before(q', p');
      }
    }
  }

  lemma AloneNow(r: set<Pixel>, r1: set<Pixel>, box: Box, p: Pixel, q: Pixel)
    requires box.Has(p) && p !in r && ToggledAfter(r, r1, box, p) && LeftAlone(r, box, q) && Before(q, p)
    ensures r1 == {q}
  {
    forall s
      ensures s in r1 <==> s == q
    {
      if box.Has(s) && Before(p, s) && s !in r {
        assert Lost(r, box, s);
      }
    }
  }

  lemma RegionToggled(m: Layers, m': Layers, c: int, box: Box, j: int, i: int)
    requires ToggledDownTo(m, m', c, box, j, i)
    ensures ToggledAfter(Region(m, c), Region(m', c), box, Pixel(i, j))
  {
    hide LeftAlone;
    forall q
      ensures q in Region(m', c) <==>
              if box.Has(q) && Before(Pixel(i, j), q) then q !in Region(m, c) && !Lost(Region(m, c), box, q)
              else q in Region(m, c)
    {
      WithoutMembers(c, At(m, q));
      assert At(m', q) == if Before(Pixel(i, j), q) then ToggledAt(m, q, c, box) else At(m, q);
    }
  }

  lemma ToggleStep(m: Layers, m': Layers, c: int, box: Box, j: int, i: int)
    requires ToggledDownTo(m, m', c, box, j, i) && box.Has(Pixel(i, j))
    ensures ToggledDownTo(m, Toggle(m', Pixel(i, j), c), c, box, j, i - 1)
  {
    var p := Pixel(i, j);
    RegionToggled(m, m', c, box, j, i);
    assert At(m', p) == At(m, p);
    if p !in Region(m, c) {
      OvershootsOnLost(Region(m, c), Region(m', c), box, p);
      WithoutAbsent(c, At(m, p));
    }
    hide LeftAlone;
    forall q
      ensures At(Toggle(m', p, c), q) == if Before(Pixel(i - 1, j), q) then ToggledAt(m, q, c, box) else At(m, q)
    {
      assert q != p ==> (Before(Pixel(i - 1, j), q) <==> Before(p, q));
    }
  }

  lemma ToggleStart(m: Layers, c: int, box: Box, j: int, i: int)
    requires forall q :: box.Has(q) ==> q.x <= i && q.y <= j
    ensures ToggledDownTo(m, m, c, box, j, i)
  {
  }

  lemma ToggleEnd(m: Layers, m': Layers, c: int, box: Box, j: int, i: int)
    requires ToggledDownTo(m, m', c, box, j, i) && forall q :: box.Has(q) ==> q.y > j
    ensures forall q :: At(m', q) == ToggledAt(m, q, c, box)
  {
  }

  lemma ToggleRow(m: Layers, m': Layers, c: int, box: Box, x0: int, x1: int, j: int)
    requires ToggledDownTo(m, m', c, box, j, x0 - 1) && forall q :: box.Has(q) ==> x0 <= q.x <= x1
    ensures ToggledDownTo(m, m', c, box, j - 1, x1)
  {
  }

  /** ToggleBlock as sets: the block's region becomes the symmetric difference with the rectangle but for
      the lost toggles; the other blocks keep their regions and their order among each other. */
  lemma ToggledMeaning(m: Layers, m': Layers, c: int, box: Box)
    requires WellPainted(m) && WellPainted(m') && forall q :: At(m', q) == ToggledAt(m, q, c, box)
    ensures forall q :: q in Region(m', c) <==>
                          ((q in Region(m, c)) != box.Has(q)) && !Lost(Region(m, c), box, q)
    ensures forall d :: d != c ==> Region(m', d) == Region(m, d)
    ensures forall q :: Without(c, At(m', q)) == Without(c, At(m, q))
  {
    hide LeftAlone;
    forall q: Pixel
      ensures q in Region(m', c) <==> ((q in Region(m, c)) != box.Has(q)) && !Lost(Region(m, c), box, q)
      ensures Without(c, At(m', q)) == Without(c, At(m, q))
      ensures forall d :: d != c ==> (d in At(m', q) <==> d in At(m, q))
    {
      assert At(m', q) == ToggledAt(m, q, c, box);
      WithoutMembers(c, At(m, q));
      WithoutTwice(c, At(m, q));
    }
    RegionByAt(m, m', c);
  }

  /** It is the symmetric difference if and only if no pixel of the block is left alone before a pixel
      that is toggled on. */
  lemma SymmetricIff(m: Layers, m': Layers, c: int, box: Box)
    requires WellPainted(m) && WellPainted(m') && forall q :: At(m', q) == ToggledAt(m, q, c, box)
    ensures (forall q :: q in Region(m', c) <==> ((q in Region(m, c)) != box.Has(q))) <==>
            !exists q, p :: LeftAlone(Region(m, c), box, q) && box.Has(p) && p !in Region(m, c) && Before(q, p)
  {
    ToggledMeaning(m, m', c, box);
    if q, p :| LeftAlone(Region(m, c), box, q) && box.Has(p) && p !in Region(m, c) && Before(q, p) {
      assert Lost(Region(m, c), box, p);
      assert p !in Region(m', c);
    }
  }

  /** In a block of one point all toggles after the point are lost. */
  lemma OnePointLosesAll(box: Box, q: Pixel)
    ensures forall p :: Lost({q}, box, p) <==> box.Has(p) && Before(q, p)
  {
    forall p
      ensures Lost({q}, box, p) <==> box.Has(p) && Before(q, p)
    {
      assert LeftAlone({q}, box, q);
    }
  }
}
