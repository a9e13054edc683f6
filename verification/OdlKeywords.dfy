/** The keyword lists of label objects, as linked lists and free of pointers. */
module OdlKeywords {
  import opened OdlShape
  import opened Labels

  class Kwd {
    const name: string
    const value: string
    var parent: Holder?
    var leftSibling: Kwd?
    var rightSibling: Kwd?

    constructor (name: string, value: string)
      ensures this.name == name && this.value == value && parent == null && leftSibling == rightSibling == null
    {
      this.name, this.value := name, value;
      parent, leftSibling, rightSibling := null, null, null;
    }
  }

  /** What a label object knows of its keywords. */
  class Holder {
    var firstKeyword: Kwd?
    var lastKeyword: Kwd?

    constructor ()
      ensures firstKeyword == lastKeyword == null
    {
      firstKeyword, lastKeyword := null, null;
    }
  }

  // ---------- The lists, free of pointers ----------

  datatype Spot = Spot(o: Holder, i: int)

  /** The lists, and the one place of each keyword in them, if it is not loose. */
  datatype Places = Places(lists: map<Holder, seq<Kwd>>, place: map<Kwd, Maybe<Spot>>)

  function Nth(v: Places, o: Holder, i: int): Kwd?
    requires o in v.lists
  {
    if 0 <= i < |v.lists[o]| then v.lists[o][i] else null
  }

  ghost predicate HasPlace(v: Places, k: Kwd) {
    && k in v.place
    && (v.place[k].Some? ==> v.place[k].value.o in v.lists && Nth(v, v.place[k].value.o, v.place[k].value.i) == k)
  }

  ghost predicate PlaceIs(v: Places, k: Kwd, o: Holder, i: int) {
    k in v.place && v.place[k] == Some(Spot(o, i))
  }

  ghost predicate Consistent(v: Places) {
    && (forall o, i :: o in v.lists && 0 <= i < |v.lists[o]| ==> PlaceIs(v, v.lists[o][i], o, i))
    && (forall k :: k in v.place ==> HasPlace(v, k))
  }

  function Shifted(p: Maybe<Spot>, o: Holder, start: int, d: int): Maybe<Spot> {
    if p.Some? && p.value.o == o && p.value.i >= start then Some(Spot(o, p.value.i + d)) else p
  }

  /** Keyword k taken out. */
  ghost function Cut(v: Places, k: Kwd): Places
    requires k in v.place && v.place[k].Some? && HasPlace(v, k)
  {
    var (o, i) := (v.place[k].value.o, v.place[k].value.i);
    Places(v.lists[o := Delete(v.lists[o], i)],
           map q | q in v.place :: if q == k then None else Shifted(v.place[q], o, i, -1))
  }

  /** The loose keyword k put in as number i of o. */
  ghost function Put(v: Places, k: Kwd, o: Holder, i: nat): Places
    requires k in v.place && o in v.lists && i <= |v.lists[o]|
  {
    Places(v.lists[o := Splice(v.lists[o], i, k)],
           map q | q in v.place :: if q == k then Some(Spot(o, i)) else Shifted(v.place[q], o, i, 1))
  }

  /** A keyword stands at a position exactly if that is its place. */
  lemma StandsAt(v: Places, o: Holder, i: int, q: Kwd)
    requires Consistent(v) && o in v.lists && q in v.place
    ensures Nth(v, o, i) == q <==> v.place[q] == Some(Spot(o, i))
    ensures Nth(v, o, i) != null ==> Nth(v, o, i) in v.place
  {
    assert HasPlace(v, q);
    if 0 <= i < |v.lists[o]| {
      assert PlaceIs(v, v.lists[o][i], o, i);
    }
  }

  lemma NthAfterCut(v: Places, k: Kwd, p: Holder, i: int)
    requires HasPlace(v, k) && v.place[k].Some? && p in v.lists
    ensures Nth(Cut(v, k), p, i) == Nth(v, p, if p == v.place[k].value.o && i >= v.place[k].value.i then i + 1 else i)
  {
  }

  lemma NthAfterPut(v: Places, k: Kwd, o: Holder, i: nat, p: Holder, j: int)
    requires k in v.place && o in v.lists && i <= |v.lists[o]| && p in v.lists
    ensures Nth(Put(v, k, o, i), p, j) ==
            if p != o || j < i then Nth(v, p, j) else if j == i then k else Nth(v, p, j - 1)
  {
  }

  lemma ConsistentAt(v: Places, o: Holder, i: int)
    requires Consistent(v) && o in v.lists && 0 <= i < |v.lists[o]|
    ensures v.lists[o][i] == Nth(v, o, i) && PlaceIs(v, v.lists[o][i], o, i)
  {
  }

  /** After a cut every keyword still has one place, or none. */
  lemma CutConsistent(v: Places, k: Kwd)
    requires Consistent(v) && k in v.place && v.place[k].Some?
    ensures HasPlace(v, k) && Consistent(Cut(v, k))
  {
    assert HasPlace(v, k);
    var w, o, i := Cut(v, k), v.place[k].value.o, v.place[k].value.i;
    forall p, j | p in w.lists && 0 <= j < |w.lists[p]|
      ensures PlaceIs(w, w.lists[p][j], p, j)
    {
      var j0 := if p == o && j >= i then j + 1 else j;
      ConsistentAt(v, p, j0);
      NthAfterCut(v, k, p, j);
    }
    forall q | q in w.place
      ensures HasPlace(w, q)
    {
      assert HasPlace(v, q);
      if w.place[q].Some? {
        NthAfterCut(v, k, w.place[q].value.o, w.place[q].value.i);
      }
    }
  }

  lemma PutConsistent(v: Places, k: Kwd, o: Holder, i: nat)
    requires Consistent(v) && k in v.place && v.place[k].None? && o in v.lists && i <= |v.lists[o]|
    ensures Consistent(Put(v, k, o, i))
  {
    var w := Put(v, k, o, i);
    forall p, j | p in w.lists && 0 <= j < |w.lists[p]|
      ensures PlaceIs(w, w.lists[p][j], p, j)
    {
      NthAfterPut(v, k, o, i, p, j);
      if p != o || j != i {
        ConsistentAt(v, p, if p == o && j > i then j - 1 else j);
      }
    }
    forall q | q in w.place
      ensures HasPlace(w, q)
    {
      assert HasPlace(v, q);
      if w.place[q].Some? {
        NthAfterPut(v, k, o, i, w.place[q].value.o, w.place[q].value.i);
      }
    }
  }

  /** Putting a keyword back where it was cut restores all lists. */
  lemma PutUndoesCut(v: Places, k: Kwd)
    requires Consistent(v) && k in v.place && v.place[k].Some?
    ensures HasPlace(v, k) && Put(Cut(v, k), k, v.place[k].value.o, v.place[k].value.i) == v
  {
    assert HasPlace(v, k);
    var o, i := v.place[k].value.o, v.place[k].value.i;
    SpliceDelete(v.lists[o], i);
    forall q | q in v.place
      ensures Put(Cut(v, k), k, o, i).place[q] == v.place[q]
    {
      StandsAt(v, o, i, q);
    }
  }

  // ---------- Pointers ----------

  /** Where a keyword's pointers, and an object's, point. */
  datatype Links = Links(parent: Holder?, left: Kwd?, right: Kwd?)

  datatype Ends = Ends(first: Kwd?, last: Kwd?)

  /** The pointers that k's place asks for. */
  ghost function PlaceLinks(v: Places, k: Kwd): Links
    requires HasPlace(v, k)
  {
    if v.place[k].None? then Links(null, null, null)
    else
      var s := v.place[k].value;
      Links(s.o, Nth(v, s.o, s.i - 1), Nth(v, s.o, s.i + 1))
  }

  ghost function ListEnds(v: Places, o: Holder): Ends
    requires o in v.lists
  {
    Ends(Nth(v, o, 0), Nth(v, o, |v.lists[o]| - 1))
  }

  /** q's pointers when those past k go round it. */
  ghost function RoundLinks(m: Links, q: Kwd, k: Kwd, was: Links): Links {
    if q == k then Links(null, null, null)
    else Links(m.parent, if q == was.right then was.left else m.left, if q == was.left then was.right else m.right)
  }

  ghost function RoundEnds(e: Ends, o: Holder, was: Links): Ends {
    if o != was.parent then e
    else Ends(if was.left == null then was.right else e.first, if was.right == null then was.left else e.last)
  }

  /** q's pointers when k stands in o's list between l and r. */
  ghost function ThroughLinks(m: Links, q: Kwd, k: Kwd, o: Holder, l: Kwd?, r: Kwd?): Links {
    if q == k then Links(o, l, r)
    else Links(m.parent, if q == r then k else m.left, if q == l then k else m.right)
  }

  ghost function ThroughEnds(e: Ends, p: Holder, k: Kwd, o: Holder, l: Kwd?, r: Kwd?): Ends {
    if p != o then e
    else Ends(if l == null then k else e.first, if r == null then k else e.last)
  }

  /** A cut changes the pointers of the lists as going round the keyword does. */
  lemma LinksAfterCut(v: Places, k: Kwd, q: Kwd)
    requires Consistent(v) && HasPlace(v, k) && v.place[k].Some? && HasPlace(v, q) && HasPlace(Cut(v, k), q)
    ensures PlaceLinks(Cut(v, k), q) == RoundLinks(PlaceLinks(v, q), q, k, PlaceLinks(v, k))
  {
    var o, i := v.place[k].value.o, v.place[k].value.i;
    StandsAt(v, o, i - 1, q);
    StandsAt(v, o, i, q);
    StandsAt(v, o, i + 1, q);
    if q != k && v.place[q].Some? {
      var s := Cut(v, k).place[q].value;
      NthAfterCut(v, k, s.o, s.i - 1);
      NthAfterCut(v, k, s.o, s.i + 1);
    }
    hide Consistent, HasPlace, Cut, Nth;
  }

  lemma EndsAfterCut(v: Places, k: Kwd, p: Holder)
    requires HasPlace(v, k) && v.place[k].Some? && p in v.lists
    ensures ListEnds(Cut(v, k), p) == RoundEnds(ListEnds(v, p), p, PlaceLinks(v, k))
  {
    NthAfterCut(v, k, p, 0);
    NthAfterCut(v, k, p, |Cut(v, k).lists[p]| - 1);
  }

  lemma LinksAfterPut(v: Places, k: Kwd, o: Holder, i: nat, q: Kwd)
    requires Consistent(v) && k in v.place && v.place[k].None? && o in v.lists && i <= |v.lists[o]|
    requires HasPlace(v, q) && HasPlace(Put(v, k, o, i), q)
    ensures PlaceLinks(Put(v, k, o, i), q) ==
            ThroughLinks(PlaceLinks(v, q), q, k, o, Nth(v, o, i - 1), Nth(v, o, i))
  {
    StandsAt(v, o, i - 1, q);
    StandsAt(v, o, i, q);
    if Put(v, k, o, i).place[q].Some? {
      var s := Put(v, k, o, i).place[q].value;
      NthAfterPut(v, k, o, i, s.o, s.i - 1);
      NthAfterPut(v, k, o, i, s.o, s.i + 1);
    }
  }

  lemma EndsAfterPut(v: Places, k: Kwd, o: Holder, i: nat, p: Holder)
    requires k in v.place && o in v.lists && i <= |v.lists[o]| && p in v.lists
    ensures ListEnds(Put(v, k, o, i), p) ==
            ThroughEnds(ListEnds(v, p), p, k, o, Nth(v, o, i - 1), Nth(v, o, i))
  {
    NthAfterPut(v, k, o, i, p, 0);
    NthAfterPut(v, k, o, i, p, |Put(v, k, o, i).lists[p]| - 1);
  }

  ghost function LinksOf(k: Kwd): Links
    reads k`parent, k`leftSibling, k`rightSibling
  {
    Links(k.parent, k.leftSibling, k.rightSibling)
  }

  ghost function EndsOf(o: Holder): Ends
    reads o`firstKeyword, o`lastKeyword
  {
    Ends(o.firstKeyword, o.lastKeyword)
  }

  // ---------- Cut and paste ----------

  /** All keywords and objects of a label. */
  class KeywordLists {
    ghost var v: Places

    ghost predicate Mirrors(k: Kwd)
      reads `v, k`parent, k`leftSibling, k`rightSibling
    {
      HasPlace(v, k) && LinksOf(k) == PlaceLinks(v, k)
    }

    ghost predicate Holds(o: Holder)
      reads `v, o`firstKeyword, o`lastKeyword
    {
      o in v.lists && EndsOf(o) == ListEnds(v, o)
    }

    /** All pointers are those of the lists. */
    ghost predicate Valid()
      reads `v, v.place.Keys`parent, v.place.Keys`leftSibling, v.place.Keys`rightSibling
      reads v.lists.Keys`firstKeyword, v.lists.Keys`lastKeyword
    {
      Consistent(v) && (forall k :: k in v.place ==> Mirrors(k)) && (forall o :: o in v.lists ==> Holds(o))
    }

    constructor ()
      ensures Valid() && v == Places(map[], map[])
    {
      v := Places(map[], map[]);
    }

    /** OdlNewKwd: a keyword that belongs to no object yet. */
    method NewKwd(name: string, value: string) returns (k: Kwd)
      requires Valid()
      modifies `v
      ensures Valid() && fresh(k) && k.name == name && k.value == value
      ensures v.lists == old(v).lists && v.place == old(v).place[k := None]
    {
      hide Consistent, HasPlace;
      k := new Kwd(name, value);
      ghost var v0 := v;
      v := v.(place := v.place[k := None]);
      NewPlace(v0, k);
      forall q | q in v.place
        ensures Mirrors(q)
      {
        if q != k {
          assert old(Mirrors(q));
          PlaceKept(v, q);
        }
      }
      assert forall o :: o in v.lists ==> old(Holds(o));
    }

    /** An object without keywords, as OdlNewObjDesc makes it. */
    method NewHolder() returns (o: Holder)
      requires Valid()
      modifies `v
      ensures Valid() && fresh(o)
      ensures v.lists == old(v).lists[o := []] && v.place == old(v).place
    {
      hide Consistent, HasPlace;
      o := new Holder();
      ghost var v0 := v;
      v := v.(lists := v.lists[o := []]);
      NewList(v0, o);
      forall q | q in v.place
        ensures Mirrors(q)
      {
        assert old(Mirrors(q));
        PlaceKept(v0, q);
        PlaceKept(v, q);
        SamePlace(v0, o, q);
      }
      forall p | p in v.lists
        ensures Holds(p)
      {
        assert p != o ==> old(Holds(p));
      }
    }

    /** What a keyword's pointers say about its list. */
    lemma Around(k: Kwd)
      requires Valid() && k in v.place
      ensures Mirrors(k)
      ensures k.parent != null <==> v.place[k].Some?
      ensures k.leftSibling != null ==> k.leftSibling in v.place && k.leftSibling != k
      ensures k.rightSibling != null ==> k.rightSibling in v.place && k.rightSibling != k
      ensures k.parent != null ==>
                && k.parent in v.lists && Holds(k.parent)
                && (k.parent.firstKeyword == k <==> k.leftSibling == null)
                && (k.parent.lastKeyword == k <==> k.rightSibling == null)
    {
      assert Mirrors(k);
      if v.place[k].Some? {
        var o, i := v.place[k].value.o, v.place[k].value.i;
        assert Holds(o);
        StandsAt(v, o, i - 1, k);
        StandsAt(v, o, i + 1, k);
        StandsAt(v, o, 0, k);
        StandsAt(v, o, |v.lists[o]| - 1, k);
        hide Consistent, HasPlace;
      }
    }

    lemma AtEnds(o: Holder)
      requires Valid() && o in v.lists
      ensures Holds(o) && (o.firstKeyword == null <==> o.lastKeyword == null)
      ensures o.lastKeyword != null ==> o.lastKeyword in v.place
    {
      assert Holds(o);
      if v.lists[o] != [] {
        ConsistentAt(v, o, |v.lists[o]| - 1);
      }
    }

    /** The pointer surgery of OdlCutKwd. */
    method Unlink(k: Kwd)
      requires Valid() && k in v.place && v.place[k].Some?
      modifies v.place.Keys`parent, v.place.Keys`leftSibling, v.place.Keys`rightSibling
      modifies v.lists.Keys`firstKeyword, v.lists.Keys`lastKeyword
      ensures forall q :: q in v.place ==> LinksOf(q) == RoundLinks(old(LinksOf(q)), q, k, old(LinksOf(k)))
      ensures forall p :: p in v.lists ==> EndsOf(p) == RoundEnds(old(EndsOf(p)), p, old(LinksOf(k)))
    {
      hide Valid, Consistent, HasPlace, Mirrors, Holds;
      Around(k);
      if k.leftSibling != null {
        k.leftSibling.rightSibling := k.rightSibling;
      }
      if k.rightSibling != null {
        k.rightSibling.leftSibling := k.leftSibling;
      }
      if k.parent.firstKeyword == k {
        k.parent.firstKeyword := k.rightSibling;
      }
      if k.parent.lastKeyword == k {
        k.parent.lastKeyword := k.leftSibling;
      }
      k.parent, k.leftSibling, k.rightSibling := null, null, null;
    }

    /** OdlCutKwd: the keyword leaves its list; nothing else moves. */
    method CutKwd(k: Kwd?) returns (r: Kwd?)
      requires Valid() && (k != null ==> k in v.place && v.place[k].Some?)
      modifies `v, v.place.Keys`parent, v.place.Keys`leftSibling, v.place.Keys`rightSibling
      modifies v.lists.Keys`firstKeyword, v.lists.Keys`lastKeyword
      ensures Valid() && r == k
      ensures if k == null then v == old(v) else HasPlace(old(v), k) && v == Cut(old(v), k)
    {
      hide Consistent, HasPlace, RoundLinks, RoundEnds, LinksOf, EndsOf, PlaceLinks, ListEnds;
      r := k;
      if k == null {
        return;
      }
      ghost var v0 := v;
      assert Mirrors(k);
      CutConsistent(v, k);
      Unlink(k);
      v := Cut(v, k);
      forall q | q in v.place
        ensures Mirrors(q)
      {
        assert old(Mirrors(q));
        PlaceKept(v, q);
        LinksAfterCut(v0, k, q);
      }
      forall p | p in v.lists
        ensures Holds(p)
      {
        assert old(Holds(p));
        EndsAfterCut(v0, k, p);
      }
    }

    /** The pointers are what they were, but that k stands in o's list between l and r. */
    ghost predicate Hooked(k: Kwd, o: Holder, l: Kwd?, r: Kwd?, links: map<Kwd, Links>, ends: map<Holder, Ends>)
      reads links.Keys`parent, links.Keys`leftSibling, links.Keys`rightSibling
      reads ends.Keys`firstKeyword, ends.Keys`lastKeyword
    {
      && (forall q :: q in links.Keys ==> LinksOf(q) == ThroughLinks(links[q], q, k, o, l, r))
      && (forall p :: p in ends.Keys ==> EndsOf(p) == ThroughEnds(ends[p], p, k, o, l, r))
    }

    /** Hooking a loose keyword in makes the pointers those of the longer list. */
    lemma PutMirrors(v0: Places, links: map<Kwd, Links>, ends: map<Holder, Ends>, k: Kwd, o: Holder, i: nat)
      requires Consistent(v0) && k in v0.place && v0.place[k].None? && o in v0.lists && i <= |v0.lists[o]|
      requires links.Keys == v0.place.Keys && ends.Keys == v0.lists.Keys
      requires forall q :: q in v0.place ==> HasPlace(v0, q) && links[q] == PlaceLinks(v0, q)
      requires forall p :: p in v0.lists ==> ends[p] == ListEnds(v0, p)
      requires v == Put(v0, k, o, i)
      requires Hooked(k, o, Nth(v0, o, i - 1), Nth(v0, o, i), links, ends)
      ensures Valid()
    {
      hide Consistent, HasPlace, ThroughLinks, ThroughEnds, LinksOf, EndsOf, PlaceLinks, ListEnds;
      PutConsistent(v0, k, o, i);
      forall q | q in v.place
        ensures Mirrors(q)
      {
        PlaceKept(v, q);
        LinksAfterPut(v0, k, o, i, q);
      }
      forall p | p in v.lists
        ensures Holds(p)
      {
        EndsAfterPut(v0, k, o, i, p);
      }
    }

    ghost function AllLinks(): (m: map<Kwd, Links>)
      reads `v, v.place.Keys`parent, v.place.Keys`leftSibling, v.place.Keys`rightSibling
      ensures m.Keys == v.place.Keys
    {
      map q | q in v.place :: LinksOf(q)
    }

    ghost function AllEnds(): (m: map<Holder, Ends>)
      reads `v, v.lists.Keys`firstKeyword, v.lists.Keys`lastKeyword
      ensures m.Keys == v.lists.Keys
    {
      map p | p in v.lists :: EndsOf(p)
    }

    lemma AllMirrored()
      requires Valid()
      ensures Consistent(v)
      ensures forall q :: q in v.place ==> HasPlace(v, q) && AllLinks()[q] == PlaceLinks(v, q)
      ensures forall p :: p in v.lists ==> AllEnds()[p] == ListEnds(v, p)
    {
      hide Consistent, HasPlace, LinksOf, EndsOf, PlaceLinks, ListEnds;
    }

    /** Who stands on either side of a gap in o's list, seen from a loose keyword k. */
    lemma Beside(k: Kwd, o: Holder, i: nat)
      requires Valid() && k in v.place && v.place[k].None? && o in v.lists && i <= |v.lists[o]|
      ensures var l, r := Nth(v, o, i - 1), Nth(v, o, i);
              && (l != null ==> l in v.place && l != k && l != r)
              && (r != null ==> r in v.place && r != k)
              && (r == null ==> o.lastKeyword == l) && (i == |v.lists[o]| ==> r == null)
              && (l == null && r == null <==> o.firstKeyword == null)
    {
      assert Holds(o);
      if i > 0 {
        StandsAt(v, o, i - 1, k);
        StandsAt(v, o, i - 1, v.lists[o][i - 1]);
        StandsAt(v, o, i, v.lists[o][i - 1]);
      }
      StandsAt(v, o, i, k);
    }

    lemma BesideSibling(sib: Kwd)
      requires Valid() && sib in v.place && v.place[sib].Some?
      ensures HasPlace(v, sib)
      ensures var o, i := v.place[sib].value.o, v.place[sib].value.i;
              && o in v.lists && 0 <= i < |v.lists[o]| && sib.parent == o
              && sib.leftSibling == Nth(v, o, i - 1) && Nth(v, o, i) == sib && sib.rightSibling == Nth(v, o, i + 1)
    {
      hide Valid, Consistent;
      MirrorsAt(sib);
    }

    lemma MirrorsAt(k: Kwd)
      requires Valid() && k in v.place
      ensures Mirrors(k)
    {
    }

    /** The pointer surgery of OdlPasteKwd. */
    method HookLast(k: Kwd, o: Holder)
      requires k in v.place && o in v.lists
      requires o.lastKeyword != null ==> o.lastKeyword in v.place && o.lastKeyword != k
      requires o.firstKeyword == null <==> o.lastKeyword == null
      modifies v.place.Keys`parent, v.place.Keys`leftSibling, v.place.Keys`rightSibling
      modifies v.lists.Keys`firstKeyword, v.lists.Keys`lastKeyword
      ensures forall q :: q in v.place ==>
                LinksOf(q) == ThroughLinks(old(LinksOf(q)), q, k, o, old(o.lastKeyword), null)
      ensures forall p :: p in v.lists ==> EndsOf(p) == ThroughEnds(old(EndsOf(p)), p, k, o, old(o.lastKeyword), null)
    {
      k.parent, k.leftSibling, k.rightSibling := o, o.lastKeyword, null;
      if o.firstKeyword == null {
        o.firstKeyword := k;
      }
      if o.lastKeyword != null {
        o.lastKeyword.rightSibling := k;
      }
      o.lastKeyword := k;
    }

    /** The pointer surgery of OdlPasteKwdBefore. */
    method HookBefore(k: Kwd, sib: Kwd, ghost o: Holder)
      requires k in v.place && sib in v.place && k != sib
      requires sib.parent == o && o in v.lists
      requires var l := sib.leftSibling; l != null ==> l in v.place && l != k && l != sib
      modifies v.place.Keys`parent, v.place.Keys`leftSibling, v.place.Keys`rightSibling
      modifies v.lists.Keys`firstKeyword, v.lists.Keys`lastKeyword
      ensures forall q :: q in v.place ==>
                LinksOf(q) == ThroughLinks(old(LinksOf(q)), q, k, o, old(sib.leftSibling), sib)
      ensures forall p :: p in v.lists ==> EndsOf(p) == ThroughEnds(old(EndsOf(p)), p, k, o, old(sib.leftSibling), sib)
    {
      k.parent, k.leftSibling, k.rightSibling := sib.parent, sib.leftSibling, sib;
      if sib.leftSibling == null {
        sib.parent.firstKeyword := k;
      } else {
        sib.leftSibling.rightSibling := k;
      }
      sib.leftSibling := k;
    }

    /** The pointer surgery of OdlPasteKwdAfter. */
    method HookAfter(k: Kwd, sib: Kwd, ghost o: Holder)
      requires k in v.place && sib in v.place && k != sib
      requires sib.parent == o && o in v.lists
      requires var r := sib.rightSibling; r != null ==> r in v.place && r != k && r != sib
      modifies v.place.Keys`parent, v.place.Keys`leftSibling, v.place.Keys`rightSibling
      modifies v.lists.Keys`firstKeyword, v.lists.Keys`lastKeyword
      ensures forall q :: q in v.place ==>
                LinksOf(q) == ThroughLinks(old(LinksOf(q)), q, k, o, sib, old(sib.rightSibling))
      ensures forall p :: p in v.lists ==> EndsOf(p) == ThroughEnds(old(EndsOf(p)), p, k, o, sib, old(sib.rightSibling))
    {
      k.parent, k.rightSibling, k.leftSibling := sib.parent, sib.rightSibling, sib;
      if sib.rightSibling == null {
        sib.parent.lastKeyword := k;
      } else {
        sib.rightSibling.leftSibling := k;
      }
      sib.rightSibling := k;
    }

    /** OdlPasteKwd: the loose keyword becomes o's last. */
    method PasteKwd(k: Kwd?, o: Holder?) returns (r: Kwd?)
      requires Valid()
      requires k != null && o != null ==> k in v.place && v.place[k].None? && o in v.lists
      modifies `v, v.place.Keys`parent, v.place.Keys`leftSibling, v.place.Keys`rightSibling
      modifies v.lists.Keys`firstKeyword, v.lists.Keys`lastKeyword
      ensures Valid() && r == k
      ensures if k == null || o == null then v == old(v) else v == Put(old(v), k, o, |old(v).lists[o]|)
    {
      hide Valid, Put, Consistent, HasPlace, Nth, Holds, Mirrors, PlaceLinks, ListEnds, ThroughLinks, ThroughEnds,
        LinksOf;
      r := k;
      if k != null && o != null {
        AllMirrored();
        ghost var v0, links, ends := v, AllLinks(), AllEnds();
        AtEnds(o);
        Beside(k, o, |v.lists[o]|);
        HookLast(k, o);
        v := Put(v, k, o, |v.lists[o]|);
        PutMirrors(v0, links, ends, k, o, |v0.lists[o]|);
      }
    }

    /** OdlPasteKwdBefore: the loose keyword becomes sib's left sibling. */
    method PasteKwdBefore(k: Kwd?, sib: Kwd?) returns (r: Kwd?)
      requires Valid()
      requires k != null && sib != null ==> k in v.place && v.place[k].None? && sib in v.place && v.place[sib].Some?
      modifies `v, v.place.Keys`parent, v.place.Keys`leftSibling, v.place.Keys`rightSibling
      modifies v.lists.Keys`firstKeyword, v.lists.Keys`lastKeyword
      ensures Valid() && r == k
      ensures if k == null || sib == null then v == old(v)
              else HasPlace(old(v), sib) && v == Put(old(v), k, old(v).place[sib].value.o, old(v).place[sib].value.i)
    {
      hide Valid, Put, Consistent, HasPlace, Nth, Holds, Mirrors, PlaceLinks, ListEnds, ThroughLinks, ThroughEnds,
        LinksOf;
      r := k;
      if k != null && sib != null {
        AllMirrored();
        BesideSibling(sib);
        ghost var v0, links, ends, o, i := v, AllLinks(), AllEnds(), v.place[sib].value.o, v.place[sib].value.i;
        Beside(k, o, i);
        HookBefore(k, sib, o);
        v := Put(v, k, o, i);
        PutMirrors(v0, links, ends, k, o, i);
      }
    }

    /** OdlPasteKwdAfter: the loose keyword becomes sib's right sibling. */
    method PasteKwdAfter(k: Kwd?, sib: Kwd?) returns (r: Kwd?)
      requires Valid()
      requires k != null && sib != null ==> k in v.place && v.place[k].None? && sib in v.place && v.place[sib].Some?
      modifies `v, v.place.Keys`parent, v.place.Keys`leftSibling, v.place.Keys`rightSibling
      modifies v.lists.Keys`firstKeyword, v.lists.Keys`lastKeyword
      ensures Valid() && r == k
      ensures if k == null || sib == null then v == old(v)
              else
                && HasPlace(old(v), sib)
                && v == Put(old(v), k, old(v).place[sib].value.o, old(v).place[sib].value.i + 1)
    {
      hide Valid, Put, Consistent, HasPlace, Nth, Holds, Mirrors, PlaceLinks, ListEnds, ThroughLinks, ThroughEnds,
        LinksOf;
      r := k;
      if k != null && sib != null {
        AllMirrored();
        BesideSibling(sib);
        ghost var v0, links, ends, o, i := v, AllLinks(), AllEnds(), v.place[sib].value.o, v.place[sib].value.i;
        Beside(k, o, i + 1);
        HookAfter(k, sib, o);
        v := Put(v, k, o, i + 1);
        PutMirrors(v0, links, ends, k, o, i + 1);
      }
    }

    /** A new keyword at the end of o's list. */
    method Append(o: Holder, statement: Keyword)
      requires Valid() && o in v.lists
      modifies `v, v.place.Keys`parent, v.place.Keys`leftSibling, v.place.Keys`rightSibling
      modifies v.lists.Keys`firstKeyword, v.lists.Keys`lastKeyword
      ensures Valid() && o in v.lists && Texts(v.lists[o]) == Texts(old(v).lists[o]) + [statement]
      ensures fresh(v.place.Keys - old(v.place.Keys)) && v.lists.Keys == old(v.lists.Keys)
      ensures Elsewhere(old(v), v, o)
    {
      hide Valid, Put, Texts;
      var k := NewKwd(statement.name, statement.value);
      PutLast(v, k, o);
      var _ := PasteKwd(k, o);
    }

    /** What the parser does for an object and its statements: the keywords become the object's, in order. */
    method Collect(statements: seq<Keyword>) returns (o: Holder)
      requires Valid()
      modifies `v, v.place.Keys`parent, v.place.Keys`leftSibling, v.place.Keys`rightSibling
      modifies v.lists.Keys`firstKeyword, v.lists.Keys`lastKeyword
      ensures Valid() && fresh(o) && o in v.lists && Texts(v.lists[o]) == statements
      ensures Elsewhere(old(v), v, o)
    {
      hide Valid, Elsewhere;
      o := NewHolder();
      Unchanged(old(v), o);
      for i := 0 to |statements|
        invariant Valid() && o in v.lists && Texts(v.lists[o]) == statements[..i]
        invariant fresh(v.place.Keys - old(v.place.Keys)) && fresh(v.lists.Keys - old(v.lists.Keys))
        invariant Elsewhere(old(v), v, o)
      {
        ghost var v0 := v;
        Append(o, statements[i]);
        StillElsewhere(old(v), v0, v, o);
      }
    }
  }

  function Texts(ks: seq<Kwd>): seq<Keyword> {
    seq(|ks|, i requires 0 <= i < |ks| => Keyword(ks[i].name, ks[i].value))
  }

  /** The lists of other objects, and the places in them, are the same. */
  ghost predicate Elsewhere(v: Places, w: Places, o: Holder) {
    && (forall p :: p in v.lists && p != o ==> p in w.lists && w.lists[p] == v.lists[p])
    && (forall q :: q in v.place && (v.place[q].Some? ==> v.place[q].value.o != o) ==>
          q in w.place && w.place[q] == v.place[q])
  }

  lemma Unchanged(v: Places, o: Holder)
    requires o !in v.lists
    ensures Elsewhere(v, v.(lists := v.lists[o := []]), o)
  {
  }

  lemma StillElsewhere(u: Places, v: Places, w: Places, o: Holder)
    requires Elsewhere(u, v, o) && Elsewhere(v, w, o)
    ensures Elsewhere(u, w, o)
  {
  }

  lemma PutLast(v: Places, k: Kwd, o: Holder)
    requires k in v.place && v.place[k].None? && o in v.lists
    ensures var w := Put(v, k, o, |v.lists[o]|);
            && o in w.lists && Texts(w.lists[o]) == Texts(v.lists[o]) + [Keyword(k.name, k.value)]
            && w.lists.Keys == v.lists.Keys && w.place.Keys == v.place.Keys
            && (forall p :: p in v.lists && p != o ==> w.lists[p] == v.lists[p])
            && forall q :: q in v.place && q != k && (v.place[q].Some? ==> v.place[q].value.o != o) ==>
                 w.place[q] == v.place[q]
  {
    assert Splice(v.lists[o], |v.lists[o]|, k) == v.lists[o] + [k];
  }

  lemma NewPlace(v: Places, k: Kwd)
    requires Consistent(v) && k !in v.place
    ensures Consistent(v.(place := v.place[k := None]))
    ensures forall q :: q in v.place ==> HasPlace(v, q) && HasPlace(v.(place := v.place[k := None]), q)
    ensures HasPlace(v.(place := v.place[k := None]), k)
  {
    var w := v.(place := v.place[k := None]);
    forall o, i | o in w.lists && 0 <= i < |w.lists[o]|
      ensures PlaceIs(w, w.lists[o][i], o, i)
    {
      assert PlaceIs(v, v.lists[o][i], o, i);
    }
  }

  lemma NewList(v: Places, o: Holder)
    requires Consistent(v) && o !in v.lists
    ensures Consistent(v.(lists := v.lists[o := []]))
  {
    var w := v.(lists := v.lists[o := []]);
    forall p, i | p in w.lists && 0 <= i < |w.lists[p]|
      ensures PlaceIs(w, w.lists[p][i], p, i)
    {
      assert PlaceIs(v, v.lists[p][i], p, i);
    }
  }

  lemma SamePlace(v: Places, o: Holder, q: Kwd)
    requires o !in v.lists && HasPlace(v, q) && HasPlace(v.(lists := v.lists[o := []]), q)
    ensures PlaceLinks(v.(lists := v.lists[o := []]), q) == PlaceLinks(v, q)
  {
  }

  lemma PlaceKept(v: Places, q: Kwd)
    requires Consistent(v) && q in v.place
    ensures HasPlace(v, q)
  {
  }
}
