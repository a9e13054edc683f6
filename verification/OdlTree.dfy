/** The linked tree of label objects (iomedley/io_lablib3.c): parent, sibling and child
    pointers, nesting levels, cut and paste, and the walks that search the tree. */
module OdlTree {
  import opened Labels
  import opened OdlShape

  class ObjDesc {
    const objClass: string
    var level: nat
    var parent: ObjDesc?
    var leftSibling: ObjDesc?
    var rightSibling: ObjDesc?
    var firstChild: ObjDesc?
    var lastChild: ObjDesc?
    var keywords: seq<Keyword>

    constructor (objClass: string)
      ensures this.objClass == objClass && level == 0 && keywords == []
      ensures parent == leftSibling == rightSibling == firstChild == lastChild == null
    {
      this.objClass := objClass;
      level, keywords := 0, [];
      parent, leftSibling, rightSibling, firstChild, lastChild := null, null, null, null, null;
    }
  }

  /** Where an object's pointers point. */
  datatype Family = Family(parent: ObjDesc?, first: ObjDesc?, last: ObjDesc?, left: ObjDesc?, right: ObjDesc?)

  ghost function Ptr(m: Maybe<ObjDesc>): ObjDesc? {
    if m.Some? then m.value else null
  }

  lemma PtrIs(m: Maybe<ObjDesc>, o: ObjDesc)
    ensures (Ptr(m) == o <==> m == Some(o)) && (Ptr(m) == null <==> m.None?) && (m.Some? ==> Ptr(m) == m.value)
  {
  }

  ghost function FamilyOf(o: ObjDesc): Family
    reads o`parent, o`leftSibling, o`rightSibling, o`firstChild, o`lastChild
  {
    Family(o.parent, o.firstChild, o.lastChild, o.leftSibling, o.rightSibling)
  }

  ghost function Families(os: set<ObjDesc>): (fam: map<ObjDesc, Family>)
    reads os`parent, os`leftSibling, os`rightSibling, os`firstChild, os`lastChild
    ensures fam.Keys == os
  {
    map o | o in os :: FamilyOf(o)
  }

  /** The pointers that the shape asks for. */
  ghost function ShapeFamily(f: Forest<ObjDesc>, o: ObjDesc): Family
    requires o in f.kids && o in f.up && o in f.pos
  {
    Family(Ptr(f.up[o]), Ptr(First(f, o)), Ptr(Last(f, o)), Ptr(Left(f, o)), Ptr(Right(f, o)))
  }

  /** The families are those of the shape. */
  ghost predicate Shaped(f: Forest<ObjDesc>, fam: map<ObjDesc, Family>) {
    && SameKeys(f) && WellFormed(f) && fam.Keys == f.kids.Keys
    && forall o :: o in fam.Keys ==> fam[o] == ShapeFamily(f, o)
  }

  /** o's pointers when every pointer past obj goes round it, and obj has no family but its children. */
  ghost function UnhookedFamily(fm: Family, o: ObjDesc, obj: ObjDesc, was: Family): Family {
    Family(if o == obj then null else fm.parent,
           if o == was.parent && was.left == null then was.right else fm.first,
           if o == was.parent && was.right == null then was.left else fm.last,
           if o == obj then null else if o == was.right then was.left else fm.left,
           if o == obj then null else if o == was.left then was.right else fm.right)
  }

  /** o's pointers when obj hangs below p, between the siblings l and r. */
  ghost function HookedFamily(fm: Family, o: ObjDesc, obj: ObjDesc, p: ObjDesc, l: ObjDesc?, r: ObjDesc?): Family {
    Family(if o == obj then p else fm.parent,
           if o == p && l == null then obj else fm.first,
           if o == p && r == null then obj else fm.last,
           if o == obj then l else if o == r then obj else fm.left,
           if o == obj then r else if o == l then obj else fm.right)
  }

  /** A hook changes the shape's pointers as a graft does. */
  lemma HookShape(f: Forest<ObjDesc>, obj: ObjDesc, p: ObjDesc, k: nat, before: Maybe<ObjDesc>, after: Maybe<ObjDesc>,
                  o: ObjDesc)
    requires SameKeys(f) && WellFormed(f) && obj in f.kids && p in f.kids && k <= |f.kids[p]|
    requires f.up[obj].None? && !Under(f, p, obj) && o in f.kids
    requires before == At(f.kids[p], k - 1) && after == At(f.kids[p], k)
    ensures var g := Graft(f, obj, p, k);
            && g.kids.Keys == f.kids.Keys && SameKeys(g)
            && ShapeFamily(g, o) == HookedFamily(ShapeFamily(f, o), o, obj, p, Ptr(before), Ptr(after))
  {
    GraftShape(f, obj, p, k, o, before, after);
    PtrIs(Some(p), o);
    PtrIs(Some(obj), o);
    PtrIs(before, o);
    PtrIs(after, o);
    hide WellFormed, Under, Graft, First, Last, Left, Right, At, Ptr;
  }

  /** An unhook changes them as a cut does. */
  lemma UnhookShape(f: Forest<ObjDesc>, obj: ObjDesc, o: ObjDesc)
    requires SameKeys(f) && WellFormed(f) && obj in f.kids && f.up[obj].Some? && Placed(f, obj) && o in f.kids
    ensures var g := CutOff(f, obj);
            && g.kids.Keys == f.kids.Keys && SameKeys(g)
            && ShapeFamily(g, o) == UnhookedFamily(ShapeFamily(f, o), o, obj, ShapeFamily(f, obj))
  {
    CutWellFormed(f, obj);
    CutEnds(f, obj, o);
    CutRight(f, obj, o);
    CutLeft(f, obj, o);
    PtrIs(f.up[obj], o);
    PtrIs(Left(f, obj), o);
    PtrIs(Right(f, obj), o);
    hide WellFormed, First, Last, Left, Right, At, Ptr, Placed;
  }

  lemma PlantedFamily(f: Forest<ObjDesc>, o: ObjDesc, q: ObjDesc)
    requires SameKeys(f) && WellFormed(f) && o !in f.kids && (q in f.kids || q == o)
    ensures var g := Planted(f, o);
            && SameKeys(g) && g.kids.Keys == f.kids.Keys + {o}
            && ShapeFamily(g, q) == if q == o then Family(null, null, null, null, null) else ShapeFamily(f, q)
  {
    if q != o {
      PlantedPlaced(f, o, q);
    }
    hide WellFormed, Placed, Left, Right;
  }

  /** A set of label objects with the shape their pointers have. */
  class Label {
    ghost var f: Forest<ObjDesc>

    /** The pointers of o are those of the shape. */
    ghost predicate Mirrors(o: ObjDesc)
      reads `f, o`parent, o`leftSibling, o`rightSibling, o`firstChild, o`lastChild
    {
      o in f.kids && o in f.up && o in f.pos && FamilyOf(o) == ShapeFamily(f, o)
    }

    ghost predicate Linked()
      reads `f, f.kids.Keys`parent, f.kids.Keys`leftSibling, f.kids.Keys`rightSibling
      reads f.kids.Keys`firstChild, f.kids.Keys`lastChild
    {
      WellFormed(f) && forall o :: o in f.kids ==> Mirrors(o)
    }

    ghost function Levels(): (lev: map<ObjDesc, int>)
      reads `f, f.kids.Keys`level
      ensures lev.Keys == f.kids.Keys
    {
      map o | o in f.kids :: o.level
    }

    ghost predicate Valid()
      reads `f, f.kids.Keys
    {
      Linked() && Leveled(f, Levels())
    }

    constructor ()
      ensures Valid() && f.kids == map[]
    {
      f := Forest(map[], map[], map[], map[], 0);
    }

    /** OdlNewObjDesc: an object of level 0 that belongs to no other yet. */
    method NewObjDesc(objClass: string) returns (o: ObjDesc)
      requires Valid()
      modifies `f
      ensures Valid() && fresh(o) && o.objClass == objClass && o.level == 0 && o.keywords == []
      ensures f == Planted(old(f), o) && Levels() == old(Levels())[o := 0]
    {
      hide Planted, WellFormed, Linked, Leveled;
      o := new ObjDesc(objClass);
      Plant(o);
    }

    method Plant(o: ObjDesc)
      requires Valid() && o !in f.kids && FamilyOf(o) == Family(null, null, null, null, null) && o.level == 0
      modifies `f
      ensures Valid() && f == Planted(old(f), o) && Levels() == old(Levels())[o := 0]
    {
      hide Linked, Leveled, WellFormed, Planted, Shaped, SameKeys, ShapeFamily;
      LinkedFamilies();
      WellLinked();
      ghost var f0, lev0 := f, Levels();
      PlantedLeveled(f0, lev0, o);
      f := Planted(f, o);
      PlantedMirrors(f0, o);
      assert Levels() == lev0[o := 0];
    }

    /** A new object has no family; the other pointers are still right. */
    lemma PlantedMirrors(f0: Forest<ObjDesc>, o: ObjDesc)
      requires Shaped(f0, Families(f0.kids.Keys)) && o !in f0.kids && f == Planted(f0, o)
      requires FamilyOf(o) == Family(null, null, null, null, null)
      ensures Linked() && f.kids.Keys == f0.kids.Keys + {o}
    {
      hide WellFormed, Planted, ShapeFamily;
      PlantedWellFormed(f0, o);
      PlantedFamily(f0, o, o);
      forall q | q in f.kids
        ensures Mirrors(q)
      {
        PlantedFamily(f0, o, q);
        assert q != o ==> Families(f0.kids.Keys)[q] == ShapeFamily(f0, q);
      }
    }

    ghost predicate Unhooked(obj: ObjDesc, fam: map<ObjDesc, Family>)
      requires obj in fam
      reads fam.Keys`parent, fam.Keys`leftSibling, fam.Keys`rightSibling, fam.Keys`firstChild, fam.Keys`lastChild
    {
      forall o :: o in fam.Keys ==> FamilyOf(o) == UnhookedFamily(fam[o], o, obj, fam[obj])
    }

    /** The pointer surgery of OdlCutObjDesc. */
    method Unhook(obj: ObjDesc)
      requires Linked() && obj in f.kids && obj.parent != null
      modifies f.kids.Keys`parent, f.kids.Keys`leftSibling, f.kids.Keys`rightSibling
      modifies f.kids.Keys`firstChild, f.kids.Keys`lastChild
      ensures forall o :: o in f.kids ==> FamilyOf(o) == UnhookedFamily(old(FamilyOf(o)), o, obj, old(FamilyOf(obj)))
    {
      hide Linked;
      Neighbours(obj);
      if obj.rightSibling == null {
        obj.parent.lastChild := obj.leftSibling;
      } else {
        obj.rightSibling.leftSibling := obj.leftSibling;
      }
      if obj.leftSibling == null {
        obj.parent.firstChild := obj.rightSibling;
      } else {
        obj.leftSibling.rightSibling := obj.rightSibling;
      }
      obj.parent, obj.leftSibling, obj.rightSibling := null, null, null;
    }

    lemma Neighbours(obj: ObjDesc)
      requires Linked() && obj in f.kids
      ensures obj.parent != null ==> obj.parent in f.kids
      ensures obj.leftSibling != null ==> obj.leftSibling in f.kids && obj.leftSibling != obj
      ensures obj.rightSibling != null ==> obj.rightSibling in f.kids && obj.rightSibling != obj
    {
      assert Mirrors(obj);
      PlacedAt(f, obj);
      if Right(f, obj).Some? {
        ChildAt(f, f.up[obj].value, f.pos[obj] + 1);
      }
      if Left(f, obj).Some? {
        ChildAt(f, f.up[obj].value, f.pos[obj] - 1);
      }
    }

    /** The families of a linked set are those of its shape. */
    lemma LinkedFamilies()
      requires Linked()
      ensures SameKeys(f) && Shaped(f, Families(f.kids.Keys))
    {
      WellKeyed(f);
      hide ShapeFamily, WellFormed;
      forall o | o in f.kids.Keys
        ensures Families(f.kids.Keys)[o] == ShapeFamily(f, o)
      {
        assert Mirrors(o);
      }
    }

    /** After the surgery the pointers are those of the cut shape. */
    lemma CutMirrors(f0: Forest<ObjDesc>, fam: map<ObjDesc, Family>, obj: ObjDesc)
      requires Shaped(f0, fam) && obj in f0.kids && f0.up[obj].Some? && Placed(f0, obj)
      requires f == CutOff(f0, obj) && Unhooked(obj, fam)
      ensures Linked()
    {
      CutWellFormed(f0, obj);
      hide WellFormed, CutOff, ShapeFamily, UnhookedFamily, Placed;
      forall o | o in f0.kids
        ensures Mirrors(o)
      {
        UnhookShape(f0, obj, o);
      }
      UnhookShape(f0, obj, obj);
    }

    method Detach(obj: ObjDesc)
      requires Linked() && obj in f.kids && f.up[obj].Some? && SameKeys(f) && Placed(f, obj)
      modifies `f, f.kids.Keys`parent, f.kids.Keys`leftSibling, f.kids.Keys`rightSibling
      modifies f.kids.Keys`firstChild, f.kids.Keys`lastChild
      ensures Linked() && f == CutOff(old(f), obj)
    {
      hide Linked, UnhookedFamily, FamilyOf, Placed, ShapeFamily, Shaped, WellFormed;
      LinkedFamilies();
      ParentSet(obj);
      ghost var f0, fam := f, Families(f.kids.Keys);
      Unhook(obj);
      f := CutOff(f, obj);
      CutMirrors(f0, fam, obj);
    }

    method CutObject(obj: ObjDesc)
      requires Valid() && obj in f.kids && f.up[obj].Some?
      modifies `f, f.kids.Keys`parent, f.kids.Keys`leftSibling, f.kids.Keys`rightSibling
      modifies f.kids.Keys`firstChild, f.kids.Keys`lastChild
      ensures Valid() && Placed(old(f), obj) && f == CutOff(old(f), obj) && Levels() == old(Levels())
    {
      hide Linked, Leveled, WellFormed, CutOff, Placed, SameKeys;
      ParentSet(obj);
      ghost var lev := Levels();
      CutShape(f, lev, obj);
      Detach(obj);
      assert Levels() == lev;
    }

    /** OdlCutObjDesc: the object's subtree is detached from its tree; nothing else moves. */
    method Cut(obj: ObjDesc?) returns (r: ObjDesc?)
      requires Valid() && (obj != null ==> obj in f.kids && f.up[obj].Some?)
      modifies `f, f.kids.Keys`parent, f.kids.Keys`leftSibling, f.kids.Keys`rightSibling
      modifies f.kids.Keys`firstChild, f.kids.Keys`lastChild
      ensures Valid() && r == obj && Levels() == old(Levels())
      ensures if obj == null then f == old(f) else Placed(old(f), obj) && f == CutOff(old(f), obj)
    {
      hide Valid, CutOff, Placed, Levels;
      r := obj;
      if obj != null {
        CutObject(obj);
      }
    }

    lemma ParentSet(obj: ObjDesc)
      requires Linked() && obj in f.kids && f.up[obj].Some?
      ensures obj.parent == f.up[obj].value && WellFormed(f) && SameKeys(f) && Placed(f, obj)
    {
      assert Mirrors(obj);
      PlacedAt(f, obj);
    }

    /** Where obj's climb through its parents leads. */
    ghost function Climb(obj: ObjDesc?, rootLevel: int): Maybe<ObjDesc>
      requires WellFormed(f) && (obj != null ==> obj in f.kids)
      reads `f, f.kids.Keys`level
    {
      if obj == null || obj.level <= rootLevel then None else Exit(f, Levels(), rootLevel, obj)
    }

    lemma ClimbStep(obj: ObjDesc, rootLevel: int)
      requires Linked() && obj in f.kids
      ensures obj.parent != null ==> obj.parent in f.kids && f.rank[obj] < f.rank[obj.parent] <= f.top
      ensures obj.rightSibling != null ==> obj.rightSibling in f.kids
      ensures obj.firstChild != null ==> obj.firstChild in f.kids
      ensures Exit(f, Levels(), rootLevel, obj) ==
              if obj.rightSibling != null then Some(obj.rightSibling) else Climb(obj.parent, rootLevel)
      ensures obj.firstChild == Ptr(First(f, obj)) && (obj.firstChild == null <==> f.kids[obj] == [])
    {
      assert Mirrors(obj);
      PlacedAt(f, obj);
      if f.up[obj].Some? {
        PlacedAt(f, f.up[obj].value);
      }
      Neighbours(obj);
      if f.kids[obj] != [] {
        ChildAt(f, obj, 0);
      }
    }

    /** OdlTraverseTree: the next object of the walk, as the shape and the levels in force say. */
    method TraverseTree(curr: ObjDesc?, rootLevel: nat) returns (next: ObjDesc?)
      requires Linked() && (curr != null ==> curr in f.kids)
      ensures next != null ==> next in f.kids
      ensures next == if curr == null then null else Ptr(Next(f, Levels(), rootLevel, curr))
    {
      hide Exit, Levels, First;
      next := null;
      if curr != null {
        assert WellFormed(f);
        hide Linked;
        ClimbStep(curr, rootLevel);
        if curr.firstChild != null {
          next := curr.firstChild;
        } else if curr.rightSibling != null {
          next := curr.rightSibling;
        } else {
          var obj := curr.parent;
          while obj != null
            invariant obj != null ==> obj in f.kids && f.rank[obj] <= f.top
            invariant next == null
            invariant Exit(f, Levels(), rootLevel, curr) == Climb(obj, rootLevel)
            decreases if obj == null then -1 else f.top - f.rank[obj]
          {
            ClimbStep(obj, rootLevel);
            if obj.level <= rootLevel {
              break;
            } else if obj.rightSibling != null {
              next := obj.rightSibling;
              break;
            }
            obj := obj.parent;
          }
        }
      }
    }

    /** OdlNextObjDesc: one step of a search; a search of the children turns into one of siblings. */
    method NextObjDesc(obj: ObjDesc?, rootLevel: nat, scope: nat) returns (next: ObjDesc?, scope': nat)
      requires Linked() && (obj != null ==> obj in f.kids)
      ensures scope' == if obj != null && scope == CHILDREN_ONLY then SIBLINGS_ONLY else scope
      ensures next != null ==> next in f.kids
      ensures next == if obj == null then null else Ptr(Stepped(f, Levels(), rootLevel, scope, obj))
    {
      next, scope' := null, scope;
      if obj != null {
        ClimbStep(obj, rootLevel);
        assert Mirrors(obj);
        hide Linked, Exit, Levels;
        match scope
        case 4 => next := null;
        case 2 => next, scope' := obj.firstChild, SIBLINGS_ONLY;
        case 3 => next := obj.rightSibling;
        case 0 => next := TraverseTree(obj, rootLevel);
        case _ => next := TraverseTree(obj, 0);
      }
    }

    /** OdlAdjustObjDescLevel: the subtree of obj moves to the level its place asks for, although the
        walk that visits it steers by the levels it is still repairing. */
    method AdjustLevels(obj: ObjDesc)
      requires Linked() && obj in f.kids && LeveledBut(f, Levels(), obj)
      modifies f.kids.Keys`level
      ensures Valid() && Levels() == Settled(f, old(Levels()), obj)
    {
      hide Linked, Partly, LeveledBut, Leveled, Settled, Levels, WellFormed, Scope, Next;
      WellLinked();
      ghost var lev0, w := Levels(), Scope(f, obj);
      PartlyStart(f, lev0, obj);
      ScopeHead(f, obj);
      ghost var i := 0;
      var o: ObjDesc?, scope := obj, RECURSIVE_DOWN;
      while o != null
        invariant i <= |w| && o == Ptr(At(w, i)) && scope == RECURSIVE_DOWN
        invariant Linked() && Partly(f, lev0, Levels(), obj, i)
        decreases |w| - i
      {
        PartlyStep(f, lev0, Levels(), obj, i);
        SetLevel(o);
        PartlyNext(f, lev0, Levels(), obj, i);
        LevelOf(obj);
        o, scope := NextObjDesc(o, obj.level, scope);
        i := i + 1;
      }
      PartlyEnd(f, lev0, Levels(), obj);
      SettledLeveled(f, lev0, obj);
    }

    method SetLevel(o: ObjDesc)
      requires Linked() && o in f.kids
      modifies o`level
      ensures Linked() && Placed(f, o)
      ensures Levels() == old(Levels())[o := if f.up[o].None? then 0 else old(Levels())[f.up[o].value] + 1]
    {
      hide Linked;
      ParentOf(o);
      o.level := if o.parent == null then 0 else 1 + o.parent.level;
    }

    lemma LevelOf(o: ObjDesc)
      requires o in f.kids
      ensures Levels()[o] == o.level
    {
    }

    lemma WellLinked()
      requires Linked()
      ensures WellFormed(f)
    {
    }

    lemma ParentOf(o: ObjDesc)
      requires Linked() && o in f.kids
      ensures o in f.up && Placed(f, o) && o.parent == Ptr(f.up[o]) &&
              (o.parent != null ==> o.parent in f.kids && o.parent != o)
    {
      assert Mirrors(o);
      PlacedAt(f, o);
    }

    /** obj hangs below p, between the siblings l and r. */
    ghost predicate Hooked(obj: ObjDesc, p: ObjDesc, l: ObjDesc?, r: ObjDesc?, fam: map<ObjDesc, Family>)
      reads fam.Keys`parent, fam.Keys`leftSibling, fam.Keys`rightSibling, fam.Keys`firstChild, fam.Keys`lastChild
    {
      forall o :: o in fam.Keys ==> FamilyOf(o) == HookedFamily(fam[o], o, obj, p, l, r)
    }

    /** After the surgery the pointers are those of the grafted shape. */
    lemma GraftMirrors(f0: Forest<ObjDesc>, fam: map<ObjDesc, Family>, obj: ObjDesc, p: ObjDesc, k: nat,
                       before: Maybe<ObjDesc>, after: Maybe<ObjDesc>)
      requires Shaped(f0, fam) && obj in f0.kids && p in f0.kids && k <= |f0.kids[p]|
      requires f0.up[obj].None? && !Under(f0, p, obj) && before == At(f0.kids[p], k - 1) && after == At(f0.kids[p], k)
      requires f == Graft(f0, obj, p, k) && Hooked(obj, p, Ptr(before), Ptr(after), fam)
      ensures Linked() && f.kids.Keys == f0.kids.Keys
    {
      GraftWellFormed(f0, obj, p, k);
      hide WellFormed, Under, Graft, ShapeFamily, HookedFamily, At, Ptr;
      forall o | o in f0.kids
        ensures Mirrors(o)
      {
        HookShape(f0, obj, p, k, before, after, o);
      }
      HookShape(f0, obj, p, k, before, after, obj);
    }

    /** The detached object may become a child of p, as number k. */
    ghost predicate CanPaste(obj: ObjDesc, p: ObjDesc, k: nat)
      reads `f
    {
      && WellFormed(f) && SameKeys(f) && obj in f.kids && p in f.kids
      && f.up[obj].None? && !Under(f, p, obj) && k <= |f.kids[p]|
    }

    /** The pointer surgery of OdlPasteObjDesc. */
    method HookLast(obj: ObjDesc, p: ObjDesc, ghost os: set<ObjDesc>, ghost g: Forest<ObjDesc>)
      requires obj in os && p in os && obj != p && (p.firstChild == null <==> p.lastChild == null)
      requires p.lastChild != null ==> p.lastChild in os && p.lastChild != obj
      modifies `f, os`parent, os`leftSibling, os`rightSibling, os`firstChild, os`lastChild
      ensures f == g && forall o :: o in os ==>
              FamilyOf(o) == HookedFamily(old(FamilyOf(o)), o, obj, p, old(p.lastChild), null)
    {
      obj.leftSibling, obj.rightSibling, obj.parent := p.lastChild, null, p;
      if p.firstChild == null {
        p.firstChild := obj;
      }
      if p.lastChild != null {
        p.lastChild.rightSibling := obj;
      }
      p.lastChild := obj;
      f := g;
    }

    /** The pointer surgery of OdlPasteObjDescBefore. */
    method HookBefore(obj: ObjDesc, sib: ObjDesc, ghost os: set<ObjDesc>, ghost g: Forest<ObjDesc>)
      requires obj in os && sib in os && obj != sib && sib.parent != null && sib.parent in os && sib.parent != obj
      requires sib.leftSibling != null ==> sib.leftSibling in os && sib.leftSibling != obj && sib.leftSibling != sib
      modifies `f, os`parent, os`leftSibling, os`rightSibling, os`firstChild, os`lastChild
      ensures f == g && forall o :: o in os ==>
              FamilyOf(o) == HookedFamily(old(FamilyOf(o)), o, obj, old(sib.parent), old(sib.leftSibling), sib)
    {
      obj.leftSibling, obj.rightSibling, obj.parent := sib.leftSibling, sib, sib.parent;
      if sib.leftSibling == null {
        sib.parent.firstChild := obj;
      } else {
        sib.leftSibling.rightSibling := obj;
      }
      sib.leftSibling := obj;
      f := g;
    }

    /** The pointer surgery of OdlPasteObjDescAfter. */
    method HookAfter(obj: ObjDesc, sib: ObjDesc, ghost os: set<ObjDesc>, ghost g: Forest<ObjDesc>)
      requires obj in os && sib in os && obj != sib && sib.parent != null && sib.parent in os && sib.parent != obj
      requires sib.rightSibling != null ==> sib.rightSibling in os && sib.rightSibling != obj && sib.rightSibling != sib
      modifies `f, os`parent, os`leftSibling, os`rightSibling, os`firstChild, os`lastChild
      ensures f == g && forall o :: o in os ==>
              FamilyOf(o) == HookedFamily(old(FamilyOf(o)), o, obj, old(sib.parent), sib, old(sib.rightSibling))
    {
      obj.rightSibling, obj.leftSibling, obj.parent := sib.rightSibling, sib, sib.parent;
      if sib.rightSibling == null {
        sib.parent.lastChild := obj;
      } else {
        sib.rightSibling.leftSibling := obj;
      }
      sib.rightSibling := obj;
      f := g;
    }

    /** What a hook needs to know about p's children around position k. */
    lemma Apart(obj: ObjDesc, p: ObjDesc, k: nat)
      requires Linked() && CanPaste(obj, p, k)
      ensures obj != p && p.parent != obj && (p.firstChild == null <==> p.lastChild == null)
      ensures p.lastChild == Ptr(At(f.kids[p], |f.kids[p]| - 1))
      ensures k > 0 ==> At(f.kids[p], k - 1).Some? && At(f.kids[p], k - 1).value in f.kids - {obj}
      ensures k < |f.kids[p]| ==> At(f.kids[p], k).Some? && At(f.kids[p], k).value in f.kids - {obj}
    {
      hide WellFormed;
      assert Mirrors(p) && Under(f, obj, obj);
      hide Linked, Under;
      PlacedAt(f, p);
      if k > 0 {
        ChildAt(f, p, k - 1);
      }
      if k < |f.kids[p]| {
        ChildAt(f, p, k);
      }
      if f.kids[p] != [] {
        ChildAt(f, p, |f.kids[p]| - 1);
      }
    }

    /** OdlPasteObjDesc: the detached object becomes p's last child. */
    method Paste(obj: ObjDesc?, p: ObjDesc?) returns (r: ObjDesc?)
      requires Valid() && (obj != null && p != null ==> p in f.kids && CanPaste(obj, p, |f.kids[p]|))
      modifies `f, f.kids.Keys`parent, f.kids.Keys`leftSibling, f.kids.Keys`rightSibling
      modifies f.kids.Keys`firstChild, f.kids.Keys`lastChild, f.kids.Keys`level
      ensures Valid() && r == obj
      ensures if obj == null || p == null then f == old(f) && Levels() == old(Levels())
              else Pasted(old(f), old(Levels()), obj, p, |old(f).kids[p]|)
    {
      r := obj;
      if obj != null && p != null {
        PasteLast(obj, p);
      }
    }

    ghost predicate Pasted(f0: Forest<ObjDesc>, lev0: map<ObjDesc, int>, obj: ObjDesc, p: ObjDesc, k: nat)
      reads `f, f.kids.Keys`level
    {
      && WellFormed(f0) && obj in f0.kids && p in f0.kids && k <= |f0.kids[p]|
      && f == Graft(f0, obj, p, k) && lev0.Keys == f.kids.Keys
      && WellFormed(f) && Levels() == Settled(f, lev0, obj)
    }

    /** The shape after a paste, before the levels are settled. */
    ghost predicate Grafted(f0: Forest<ObjDesc>, lev0: map<ObjDesc, int>, obj: ObjDesc, p: ObjDesc, k: nat)
      reads `f, f.kids.Keys
    {
      && WellFormed(f0) && obj in f0.kids && p in f0.kids && k <= |f0.kids[p]|
      && f == Graft(f0, obj, p, k) && f.kids.Keys == f0.kids.Keys
      && Linked() && Levels() == lev0 && LeveledBut(f, lev0, obj)
    }

    /** The pointers hooked and the shape grafted make up a paste but for the levels. */
    lemma IsGrafted(f0: Forest<ObjDesc>, lev0: map<ObjDesc, int>, fam: map<ObjDesc, Family>, obj: ObjDesc, p: ObjDesc,
                    k: nat)
      requires Shaped(f0, fam) && Leveled(f0, lev0) && obj in f0.kids && p in f0.kids && k <= |f0.kids[p]|
      requires f0.up[obj].None? && !Under(f0, p, obj) && f == Graft(f0, obj, p, k) && Levels() == lev0
      requires Hooked(obj, p, Ptr(At(f0.kids[p], k - 1)), Ptr(At(f0.kids[p], k)), fam)
      ensures Grafted(f0, lev0, obj, p, k)
    {
      hide WellFormed, Leveled, LeveledBut, Under, Graft, Hooked, At, Ptr, Linked, Levels;
      GraftMirrors(f0, fam, obj, p, k, At(f0.kids[p], k - 1), At(f0.kids[p], k));
      GraftLeveled(f0, lev0, obj, p, k);
    }

    method LinkLast(obj: ObjDesc, p: ObjDesc)
      requires Valid() && p in f.kids && CanPaste(obj, p, |f.kids[p]|)
      modifies `f, f.kids.Keys`parent, f.kids.Keys`leftSibling, f.kids.Keys`rightSibling
      modifies f.kids.Keys`firstChild, f.kids.Keys`lastChild
      ensures Grafted(old(f), old(Levels()), obj, p, |old(f).kids[p]|)
    {
      hide Linked, Leveled, WellFormed, Under, HookedFamily, FamilyOf, Grafted, Graft, Shaped;
      LinkedFamilies();
      ghost var f0, lev0, fam := f, Levels(), Families(f.kids.Keys);
      ghost var k := |f.kids[p]|;
      Apart(obj, p, k);
      HookLast(obj, p, f.kids.Keys, Graft(f, obj, p, k));
      GraftLeveled(f0, lev0, obj, p, k);
      assert Levels() == lev0;
      IsGrafted(f0, lev0, fam, obj, p, k);
    }

    method PasteLast(obj: ObjDesc, p: ObjDesc)
      requires Valid() && p in f.kids && CanPaste(obj, p, |f.kids[p]|)
      modifies `f, f.kids.Keys`parent, f.kids.Keys`leftSibling, f.kids.Keys`rightSibling
      modifies f.kids.Keys`firstChild, f.kids.Keys`lastChild, f.kids.Keys`level
      ensures Valid() && Pasted(old(f), old(Levels()), obj, p, |old(f).kids[p]|)
    {
      hide Linked, Leveled, Under, LeveledBut, Levels, Settled, Graft;
      LinkLast(obj, p);
      AdjustLevels(obj);
      WellLinked();
    }

    /** sib has a parent, and the detached object may become a child of it right before sib. */
    ghost predicate BeforeOk(obj: ObjDesc, sib: ObjDesc)
      reads `f
    {
      && WellFormed(f) && sib in f.up && f.up[sib].Some? && Placed(f, sib)
      && CanPaste(obj, f.up[sib].value, f.pos[sib])
    }

    ghost predicate AfterOk(obj: ObjDesc, sib: ObjDesc)
      reads `f
    {
      && WellFormed(f) && sib in f.up && f.up[sib].Some? && Placed(f, sib)
      && CanPaste(obj, f.up[sib].value, f.pos[sib] + 1)
    }

    lemma Siblings(obj: ObjDesc, sib: ObjDesc)
      requires Linked() && (BeforeOk(obj, sib) || AfterOk(obj, sib))
      ensures var p := f.up[sib].value;
              && sib in f.kids && obj != sib && sib.parent == p && p in f.kids
              && 0 <= f.pos[sib] && At(f.kids[p], f.pos[sib]) == Some(sib)
              && sib.leftSibling == Ptr(At(f.kids[p], f.pos[sib] - 1))
              && sib.rightSibling == Ptr(At(f.kids[p], f.pos[sib] + 1))
              && sib.leftSibling != sib && sib.rightSibling != sib
    {
      hide WellFormed;
      assert Mirrors(sib);
      Neighbours(sib);
    }

    method LinkBefore(obj: ObjDesc, sib: ObjDesc)
      requires Valid() && BeforeOk(obj, sib)
      modifies `f, f.kids.Keys`parent, f.kids.Keys`leftSibling, f.kids.Keys`rightSibling
      modifies f.kids.Keys`firstChild, f.kids.Keys`lastChild
      ensures Grafted(old(f), old(Levels()), obj, old(f).up[sib].value, old(f).pos[sib])
    {
      hide Linked, Leveled, WellFormed, Under, HookedFamily, FamilyOf, Grafted, Graft, Shaped;
      LinkedFamilies();
      ghost var f0, lev0, fam := f, Levels(), Families(f.kids.Keys);
      ghost var p, k := f.up[sib].value, f.pos[sib];
      Siblings(obj, sib);
      Apart(obj, p, k);
      HookBefore(obj, sib, f.kids.Keys, Graft(f, obj, p, k));
      GraftLeveled(f0, lev0, obj, p, k);
      assert Levels() == lev0;
      IsGrafted(f0, lev0, fam, obj, p, k);
    }

    /** OdlPasteObjDescBefore: the detached object becomes sib's left sibling. */
    method PasteBefore(obj: ObjDesc?, sib: ObjDesc?) returns (r: ObjDesc?)
      requires Valid() && (obj != null && sib != null ==> BeforeOk(obj, sib))
      modifies `f, f.kids.Keys`parent, f.kids.Keys`leftSibling, f.kids.Keys`rightSibling
      modifies f.kids.Keys`firstChild, f.kids.Keys`lastChild, f.kids.Keys`level
      ensures Valid() && r == obj
      ensures if obj == null || sib == null then f == old(f) && Levels() == old(Levels())
              else Pasted(old(f), old(Levels()), obj, old(f).up[sib].value, old(f).pos[sib])
    {
      hide Linked, Leveled, Under, LeveledBut, Levels, Settled, Graft;
      r := obj;
      if obj != null && sib != null {
        LinkBefore(obj, sib);
        AdjustLevels(obj);
        WellLinked();
      }
    }

    method LinkAfter(obj: ObjDesc, sib: ObjDesc)
      requires Valid() && AfterOk(obj, sib)
      modifies `f, f.kids.Keys`parent, f.kids.Keys`leftSibling, f.kids.Keys`rightSibling
      modifies f.kids.Keys`firstChild, f.kids.Keys`lastChild
      ensures Grafted(old(f), old(Levels()), obj, old(f).up[sib].value, old(f).pos[sib] + 1)
    {
      hide Linked, Leveled, WellFormed, Under, HookedFamily, FamilyOf, Grafted, Graft, Shaped, BeforeOk;
      LinkedFamilies();
      ghost var f0, lev0, fam := f, Levels(), Families(f.kids.Keys);
      ghost var p, k := f.up[sib].value, f.pos[sib] + 1;
      assert At(f.kids[p], k - 1) == At(f.kids[p], f.pos[sib]);
      Siblings(obj, sib);
      Apart(obj, p, k);
      HookAfter(obj, sib, f.kids.Keys, Graft(f, obj, p, k));
      GraftLeveled(f0, lev0, obj, p, k);
      assert Levels() == lev0;
      IsGrafted(f0, lev0, fam, obj, p, k);
    }

    /** OdlPasteObjDescAfter: the detached object becomes sib's right sibling. */
    method PasteAfter(obj: ObjDesc?, sib: ObjDesc?) returns (r: ObjDesc?)
      requires Valid() && (obj != null && sib != null ==> AfterOk(obj, sib))
      modifies `f, f.kids.Keys`parent, f.kids.Keys`leftSibling, f.kids.Keys`rightSibling
      modifies f.kids.Keys`firstChild, f.kids.Keys`lastChild, f.kids.Keys`level
      ensures Valid() && r == obj
      ensures if obj == null || sib == null then f == old(f) && Levels() == old(Levels())
              else Pasted(old(f), old(Levels()), obj, old(f).up[sib].value, old(f).pos[sib] + 1)
    {
      hide Linked, Leveled, Under, LeveledBut, Levels, Settled, Graft;
      r := obj;
      if obj != null && sib != null {
        LinkAfter(obj, sib);
        AdjustLevels(obj);
        WellLinked();
      }
    }
  }

  const RECURSIVE_DOWN := 0
  const TO_END := 1
  const CHILDREN_ONLY := 2
  const SIBLINGS_ONLY := 3
  const THIS_OBJECT := 4

  /** The object one step of a search leads to. */
  ghost function Stepped(f: Forest<ObjDesc>, lev: map<ObjDesc, int>, rootLevel: int, scope: nat,
                        o: ObjDesc): Maybe<ObjDesc>
    requires WellFormed(f) && o in f.kids && lev.Keys == f.kids.Keys
  {
    if scope == THIS_OBJECT then None
    else if scope == CHILDREN_ONLY then First(f, o)
    else if scope == SIBLINGS_ONLY then Right(f, o)
    else Next(f, lev, if scope == RECURSIVE_DOWN then rootLevel else 0, o)
  }
}
