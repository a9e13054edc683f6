/** Whole runs of changes to a label tree. */
module OdlEdits {
  import opened OdlShape
  import opened OdlTree
  import opened Sequences

  /** PasteAt stands for all three pastes; they differ in the position they choose. */
  datatype Edit<T> = NewObject(c: T) | CutOut(c: T) | PasteAt(c: T, o: T, k: nat)

  /** The shape of the trees and the levels of their objects. */
  datatype State<!T(==)> = State(f: Forest<T>, lev: map<T, int>)

  ghost predicate Sound<T>(s: State<T>) {
    WellFormed(s.f) && Leveled(s.f, s.lev)
  }

  /** Only a new object can be made, only a child can be cut off, only a root can be pasted, and not below itself. */
  ghost predicate Possible<T>(s: State<T>, e: Edit<T>)
    requires Sound(s)
  {
    match e
    case NewObject(c) => c !in s.f.kids
    case CutOut(c) => c in s.f.kids && s.f.up[c].Some?
    case PasteAt(c, o, k) =>
      c in s.f.kids && o in s.f.kids && s.f.up[c].None? && !Under(s.f, o, c) && k <= |s.f.kids[o]|
  }

  ghost function Edited<T>(s: State<T>, e: Edit<T>): (t: State<T>)
    requires Sound(s) && Possible(s, e)
    ensures Sound(t) && s.f.kids.Keys <= t.f.kids.Keys
  {
    match e
    case NewObject(c) =>
      PlantedLeveled(s.f, s.lev, c);
      State(Planted(s.f, c), s.lev[c := 0])
    case CutOut(c) =>
      CutWellFormed(s.f, c);
      WellKeyed(s.f);
      CutShape(s.f, s.lev, c);
      State(CutOff(s.f, c), s.lev)
    case PasteAt(c, o, k) =>
      GraftLeveled(s.f, s.lev, c, o, k);
      var g := Graft(s.f, c, o, k);
      SettledLeveled(g, s.lev, c);
      State(g, Settled(g, s.lev, c))
  }

  ghost predicate AllPossible<T>(s: State<T>, es: seq<Edit<T>>)
    requires Sound(s)
    decreases |es|
  {
    es == [] || (Possible(s, es[0]) && AllPossible(Edited(s, es[0]), es[1..]))
  }

  ghost function Run<T>(s: State<T>, es: seq<Edit<T>>): (t: State<T>)
    requires Sound(s) && AllPossible(s, es)
    ensures Sound(t) && s.f.kids.Keys <= t.f.kids.Keys
    decreases |es|
  {
    if es == [] then s else Run(Edited(s, es[0]), es[1..])
  }

  /** A root at level 0. */
  ghost predicate IsRoot<T>(s: State<T>, r: T)
    requires Sound(s)
  {
    r in s.f.kids && s.f.up[r].None? && s.lev[r] == 0
  }

  lemma RootApart<T>(f: Forest<T>, r: T, c: T)
    requires WellFormed(f) && r in f.kids && r in f.up && f.up[r].None? && r != c
    ensures !Under(f, r, c)
  {
  }

  /** Edits elsewhere leave a root what it is. */
  lemma RootStays<T>(s: State<T>, e: Edit<T>, r: T)
    requires Sound(s) && Possible(s, e) && IsRoot(s, r) && (e.PasteAt? ==> e.c != r)
    ensures IsRoot(Edited(s, e), r)
  {
    PlacedAt(s.f, r);
    if e.PasteAt? {
      var g := Graft(s.f, e.c, e.o, e.k);
      GraftWellFormed(s.f, e.c, e.o, e.k);
      RootApart(g, r, e.c);
    }
    hide WellFormed, Leveled, Graft, Planted, CutOff;
  }

  lemma {:induction false} RootStaysInRun<T>(s: State<T>, es: seq<Edit<T>>, r: T)
    requires Sound(s) && AllPossible(s, es) && IsRoot(s, r)
    requires forall i :: 0 <= i < |es| && es[i].PasteAt? ==> es[i].c != r
    ensures IsRoot(Run(s, es), r)
    decreases |es|
  {
    hide Sound, Possible;
    if es != [] {
      RootStays(s, es[0], r);
      RootStaysInRun(Edited(s, es[0]), es[1..], r);
    }
  }

  /** After any run of edits no object is lost, each is in the preorder of exactly one root and there
      exactly once, and every object of the label, whose root is never pasted, has its depth as level. */
  lemma RunSound<T>(s: State<T>, es: seq<Edit<T>>, r: T)
    requires Sound(s) && AllPossible(s, es) && IsRoot(s, r)
    requires forall i :: 0 <= i < |es| && es[i].PasteAt? ==> es[i].c != r
    ensures var t := Run(s, es);
            && s.f.kids.Keys <= t.f.kids.Keys && r in t.f.kids && WellKept(t.f)
            && forall o :: o in t.f.kids && Under(t.f, o, r) ==> t.lev[o] == Distance(t.f, o, r)
  {
    hide WellFormed, Leveled, AllPossible, Run;
    var t := Run(s, es);
    RootStaysInRun(s, es, r);
    EachKept(t.f);
    DepthsKept(t, r);
  }

  /** o is in r's tree, r being a root. */
  ghost predicate InTreeOf<T>(f: Forest<T>, o: T, r: T)
    requires WellFormed(f) && r in f.kids
  {
    r in f.up && f.up[r].None? && o in Preorder(f, r)
  }

  /** Each object is in one tree, and only once. */
  ghost predicate WellKept<T>(f: Forest<T>)
    requires WellFormed(f)
  {
    forall o :: o in f.kids ==>
      Distinct(Preorder(f, o)) && InOne(f, o)
  }

  ghost predicate InOne<T>(f: Forest<T>, o: T)
    requires WellFormed(f)
  {
    exists r :: r in f.kids && InTreeOf(f, o, r) && forall q :: q in f.kids && InTreeOf(f, o, q) ==> q == r
  }

  lemma KeptAt<T>(f: Forest<T>, o: T)
    requires WellFormed(f) && o in f.kids
    ensures Distinct(Preorder(f, o)) && InOne(f, o)
  {
    WellKeyed(f);
    PreorderExact(f, o);
    hide WellFormed, Preorder, Distinct;
    var r := InOneTree(f, o);
    assert InTreeOf(f, o, r);
  }

  lemma EachKept<T>(f: Forest<T>)
    requires WellFormed(f)
    ensures WellKept(f)
  {
    hide WellFormed, Preorder, Distinct, InOne, SameKeys;
    forall o | o in f.kids
      ensures Distinct(Preorder(f, o)) && InOne(f, o)
    {
      KeptAt(f, o);
    }
  }

  lemma DepthsKept<T>(s: State<T>, r: T)
    requires Sound(s) && IsRoot(s, r)
    ensures forall o :: o in s.f.kids && Under(s.f, o, r) ==> s.lev[o] == Distance(s.f, o, r)
  {
    hide WellFormed, Under;
    forall o | o in s.f.kids && Under(s.f, o, r)
      ensures s.lev[o] == Distance(s.f, o, r)
    {
      LevelIsDepth(s.f, s.lev, o, r);
    }
  }

  // ---------- Calls on the linked tree ----------

  /** The calls a program makes; New stands for OdlNewObjDesc, whose object the caller keeps until then. */
  datatype Call =
    | New(o: ObjDesc)
    | Cut(obj: ObjDesc)
    | Paste(obj: ObjDesc, p: ObjDesc)
    | PasteBefore(obj: ObjDesc, sib: ObjDesc)
    | PasteAfter(obj: ObjDesc, sib: ObjDesc)

  /** The call is one the routines are made for. */
  ghost predicate Allowed(s: State<ObjDesc>, c: Call)
    requires Sound(s)
  {
    match c
    case New(o) => o !in s.f.kids
    case Cut(obj) => obj in s.f.kids && s.f.up[obj].Some?
    case Paste(obj, p) => p in s.f.kids && Possible(s, PasteAt(obj, p, |s.f.kids[p]|))
    case PasteBefore(obj, sib) => HasParent(s, sib) && Possible(s, PasteAt(obj, s.f.up[sib].value, s.f.pos[sib]))
    case PasteAfter(obj, sib) => HasParent(s, sib) && Possible(s, PasteAt(obj, s.f.up[sib].value, s.f.pos[sib] + 1))
  }

  ghost predicate HasParent(s: State<ObjDesc>, o: ObjDesc) {
    o in s.f.up && o in s.f.pos && s.f.up[o].Some? && s.f.pos[o] >= 0
  }

  /** The edit that a call comes to. */
  ghost function EditOf(s: State<ObjDesc>, c: Call): (e: Edit<ObjDesc>)
    requires Sound(s) && Allowed(s, c)
    ensures Possible(s, e)
  {
    match c
    case New(o) => NewObject(o)
    case Cut(obj) => CutOut(obj)
    case Paste(obj, p) => PasteAt(obj, p, |s.f.kids[p]|)
    case PasteBefore(obj, sib) => PasteAt(obj, s.f.up[sib].value, s.f.pos[sib])
    case PasteAfter(obj, sib) => PasteAt(obj, s.f.up[sib].value, s.f.pos[sib] + 1)
  }

  ghost predicate AllAllowed(s: State<ObjDesc>, cs: seq<Call>)
    requires Sound(s)
    decreases |cs|
  {
    cs == [] || (Allowed(s, cs[0]) && AllAllowed(Edited(s, EditOf(s, cs[0])), cs[1..]))
  }

  ghost function Edits(s: State<ObjDesc>, cs: seq<Call>): (es: seq<Edit<ObjDesc>>)
    requires Sound(s) && AllAllowed(s, cs)
    ensures AllPossible(s, es)
    decreases |cs|
  {
    if cs == [] then []
    else
      var e := EditOf(s, cs[0]);
      [e] + Edits(Edited(s, e), cs[1..])
  }

  /** Objects that a run makes are not there before. */
  lemma {:induction false} NewOnesOutside(s: State<ObjDesc>, cs: seq<Call>, i: nat)
    requires Sound(s) && AllAllowed(s, cs) && i < |cs| && cs[i].New?
    ensures cs[i].o !in s.f.kids
    decreases |cs|
  {
    hide Sound, EditOf;
    if i > 0 {
      var t := Edited(s, EditOf(s, cs[0]));
      NewOnesOutside(t, cs[1..], i - 1);
      assert cs[i] == cs[1..][i - 1] && s.f.kids.Keys <= t.f.kids.Keys;
    }
  }

  /** An object as OdlNewObjDesc leaves it. */
  predicate Blank(o: ObjDesc)
    reads o
  {
    o.parent == o.firstChild == null && o.lastChild == o.leftSibling == o.rightSibling == null && o.level == 0
  }

  ghost function NewOnes(cs: seq<Call>): set<ObjDesc> {
    set c | c in cs && c.New? :: c.o
  }

  ghost function StateOf(tree: Label): State<ObjDesc>
    reads tree, tree.f.kids.Keys`level
  {
    State(tree.f, tree.Levels())
  }

  /** Every call is an edit. The objects keep their classes and keywords. */
  method Perform(tree: Label, c: Call)
    requires tree.Valid() && Sound(StateOf(tree)) && Allowed(StateOf(tree), c) && (c.New? ==> Blank(c.o))
    modifies tree, tree.f.kids.Keys`parent, tree.f.kids.Keys`leftSibling, tree.f.kids.Keys`rightSibling
    modifies tree.f.kids.Keys`firstChild, tree.f.kids.Keys`lastChild, tree.f.kids.Keys`level
    ensures tree.Valid()
    ensures StateOf(tree) == Edited(old(StateOf(tree)), EditOf(old(StateOf(tree)), c))
  {
    hide tree.Linked, WellFormed, Leveled, Graft, Settled, CutOff, Planted, Under;
    tree.WellLinked();
    WellKeyed(tree.f);
    match c
    case New(o) => tree.Plant(o);
    case Cut(obj) => var r := tree.Cut(obj);
    case Paste(obj, p) => var r := tree.Paste(obj, p);
    case PasteBefore(obj, sib) => var r := tree.PasteBefore(obj, sib);
    case PasteAfter(obj, sib) => var r := tree.PasteAfter(obj, sib);
  }

  /** A call adds no object but the one it makes. */
  lemma Made(s: State<ObjDesc>, cs: seq<Call>)
    requires Sound(s) && cs != [] && Allowed(s, cs[0])
    ensures Edited(s, EditOf(s, cs[0])).f.kids.Keys + NewOnes(cs[1..]) <= s.f.kids.Keys + NewOnes(cs)
  {
    hide Sound, Edited, Allowed, Possible;
    KeysOfEdited(s, EditOf(s, cs[0]));
    assert forall c :: c in cs[1..] ==> c in cs;
    assert cs[0] in cs;
  }

  lemma KeysOfEdited<T>(s: State<T>, e: Edit<T>)
    requires Sound(s) && Possible(s, e)
    ensures Edited(s, e).f.kids.Keys == s.f.kids.Keys + if e.NewObject? then {e.c} else {}
  {
    match e
    case NewObject(_) =>
    case CutOut(c) =>
      CutWellFormed(s.f, c);
      WellKeyed(s.f);
      CutShape(s.f, s.lev, c);
    case PasteAt(c, o, k) =>
      GraftLeveled(s.f, s.lev, c, o, k);
  }

  /** A whole run of calls is the run of their edits. */
  method PerformAll(tree: Label, cs: seq<Call>)
    requires tree.Valid() && Sound(StateOf(tree)) && AllAllowed(StateOf(tree), cs)
    requires forall i :: 0 <= i < |cs| && cs[i].New? ==> Blank(cs[i].o)
    modifies tree, (tree.f.kids.Keys + NewOnes(cs))`parent, (tree.f.kids.Keys + NewOnes(cs))`leftSibling
    modifies (tree.f.kids.Keys + NewOnes(cs))`rightSibling, (tree.f.kids.Keys + NewOnes(cs))`firstChild
    modifies (tree.f.kids.Keys + NewOnes(cs))`lastChild, (tree.f.kids.Keys + NewOnes(cs))`level
    ensures tree.Valid()
    ensures StateOf(tree) == Run(old(StateOf(tree)), Edits(old(StateOf(tree)), cs))
    decreases |cs|
  {
    hide tree.Valid, Sound, Allowed, EditOf, Edited, Possible, tree.Levels, Blank;
    if cs != [] {
      ghost var s := StateOf(tree);
      var rest := cs[1..];
      forall i | 0 <= i < |rest| && rest[i].New?
        ensures rest[i].o !in tree.f.kids && Blank(rest[i].o)
      {
        assert cs[i + 1] == rest[i];
        NewOnesOutside(s, cs, i + 1);
      }
      Made(s, cs);
      Perform(tree, cs[0]);
      PerformAll(tree, rest);
    }
  }
}
