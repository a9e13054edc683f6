/** Searching the label tree. */
module OdlFind {
  import opened Labels
  import opened OdlShape
  import opened OdlTree
  import W = Wildcard
  import opened Sequences

  type Pattern = W.Option<string>

  /** The objects a search visits, in order. */
  ghost function Visits<T>(f: Forest<T>, o: T, scope: nat): seq<T>
    requires WellFormed(f) && o in f.kids
  {
    if scope == THIS_OBJECT then [o]
    else if scope == CHILDREN_ONLY then [o] + f.kids[o]
    else if scope == SIBLINGS_ONLY then SiblingsFrom(f, o)
    else if scope == RECURSIVE_DOWN then Scope(f, o)
    else Preorder(f, o) + Rest(f, o)
  }

  ghost function SiblingsFrom<T>(f: Forest<T>, o: T): seq<T>
    requires WellFormed(f) && o in f.kids
  {
    PlacedAt(f, o);
    if f.up[o].None? then [o] else f.kids[f.up[o].value][f.pos[o]..]
  }

  /** The scope a search has switched to by its i-th step. */
  function ScopeAt(scope: nat, i: nat): nat {
    if i > 0 && scope == CHILDREN_ONLY then SIBLINGS_ONLY else scope
  }

  /** Step by step, a search visits exactly Visits. */
  lemma VisitsStep(f: Forest<ObjDesc>, lev: map<ObjDesc, int>, o: ObjDesc, scope: nat, i: nat)
    requires WellFormed(f) && o in f.kids && Leveled(f, lev) && forall q :: q in lev ==> lev[q] >= 0
    requires i < |Visits(f, o, scope)|
    ensures Visits(f, o, scope)[0] == o && Visits(f, o, scope)[i] in f.kids
    ensures Stepped(f, lev, lev[o], ScopeAt(scope, i), Visits(f, o, scope)[i]) == At(Visits(f, o, scope), i + 1)
  {
    PlacedAt(f, o);
    var w := Visits(f, o, scope);
    if scope == RECURSIVE_DOWN {
      ScopeHead(f, o);
      ScopeWalk(f, lev, o);
      assert Next(f, lev, lev[o], w[i]) == After(w, i, None);
    } else if scope == CHILDREN_ONLY {
      if i > 0 {
        ChildUnder(f, o, i - 1);
      }
    } else if scope == SIBLINGS_ONLY {
      if f.up[o].Some? {
        ChildUnder(f, f.up[o].value, f.pos[o] + i);
      }
    } else if scope != THIS_OBJECT {
      WalkToEnd(f, lev, o);
      assert Next(f, lev, 0, w[i]) == After(w, i, None);
    }
  }

  // ---------- What a search looks for ----------

  ghost predicate Fits(p: Pattern, text: string) {
    p.Some? ==> W.Accepts(W.Unquote(p.value), W.Unquote(text))
  }

  ghost predicate KwdFits(k: Keyword, name: Pattern, value: Pattern) {
    Fits(name, k.name) && Fits(value, k.value)
  }

  /** A text without stars and outer quotes. */
  predicate Literal(s: string) {
    '*' !in s && (s == "" || (s[0] != '\'' && s[0] != '"'))
  }

  /** Searching for a name finds the keywords of that name, searching for a value those of that value, and
      searching for both those that have both; nothing to search for fits every keyword. */
  lemma LiteralFits(k: Keyword, name: string, value: string)
    requires Literal(name) && Literal(value) && Literal(k.name) && Literal(k.value)
    ensures KwdFits(k, W.Some(name), W.None) <==> k.name == name
    ensures KwdFits(k, W.None, W.Some(value)) <==> k.value == value
    ensures KwdFits(k, W.Some(name), W.Some(value)) <==> k.name == name && k.value == value
    ensures KwdFits(k, W.None, W.None)
  {
  }

  /** The positions of the keywords that fit, in order. */
  ghost function FittingKwds(ks: seq<Keyword>, name: Pattern, value: Pattern): seq<nat> {
    FittingBefore(ks, |ks|, name, value)
  }

  ghost function FittingBefore(ks: seq<Keyword>, n: nat, name: Pattern, value: Pattern): seq<nat>
    requires n <= |ks|
  {
    if n == 0 then []
    else FittingBefore(ks, n - 1, name, value) + (if KwdFits(ks[n - 1], name, value) then [n - 1] else [])
  }

  /** Exactly the positions of fitting keywords, in increasing order. */
  lemma {:induction false} FittingExact(ks: seq<Keyword>, n: nat, name: Pattern, value: Pattern)
    requires n <= |ks|
    ensures var w := FittingBefore(ks, n, name, value);
            && (forall i, j :: 0 <= i < j < |w| ==> w[i] < w[j])
            && forall p: nat :: p in w <==> p < n && KwdFits(ks[p], name, value)
  {
    hide KwdFits;
    if n > 0 {
      FittingExact(ks, n - 1, name, value);
      var u := FittingBefore(ks, n - 1, name, value);
      assert forall i :: 0 <= i < |u| ==> u[i] in u;
    }
  }

  /** An object fits when its class does, it has a keyword of the wanted name, and the first such keyword
      has the wanted value; a wanted value without a wanted name fits nothing. */
  ghost predicate ObjFits(o: ObjDesc, cls: Pattern, name: Pattern, value: Pattern)
    reads o`keywords
  {
    && Fits(cls, o.objClass)
    && (name.Some? ==> FittingKwds(o.keywords, name, W.None) != [])
    && (value.Some? ==>
          && name.Some?
          && var i := FittingKwds(o.keywords, name, W.None)[0];
          && i < |o.keywords| && Fits(value, o.keywords[i].value))
  }

  /** The members of w that lie in m, in order. */
  ghost function Matching<T>(w: seq<T>, m: set<T>): seq<T> {
    if w == [] then [] else Matching(w[..|w| - 1], m) + (if w[|w| - 1] in m then [w[|w| - 1]] else [])
  }

  /** Exactly the members of w that lie in m, in the order of w. */
  lemma {:induction false} MatchingExact<T>(w: seq<T>, m: set<T>)
    requires Distinct(w)
    ensures var r := Matching(w, m);
            && (forall x :: x in r <==> x in w && x in m)
            && forall i, j, a, b :: 0 <= i < j < |r| && 0 <= a < |w| && 0 <= b < |w| && w[a] == r[i] && w[b] == r[j] ==>
                 a < b
  {
    if w != [] {
      var u, x := w[..|w| - 1], w[|w| - 1];
      assert w == u + [x];
      MatchingExact(u, m);
    }
  }

  ghost function FittingObjs(os: set<ObjDesc>, cls: Pattern, name: Pattern, value: Pattern): set<ObjDesc>
    reads os`keywords
  {
    set o | o in os && ObjFits(o, cls, name, value)
  }

  /** The fitting keywords of the objects in w, in order, each with its owner. */
  ghost function KwdsOf(kw: map<ObjDesc, seq<Keyword>>, w: seq<ObjDesc>, name: Pattern, value: Pattern): seq<(ObjDesc,
                        nat)>
    requires forall i :: 0 <= i < |w| ==> w[i] in kw
  {
    if w == [] then []
    else var o := w[|w| - 1];
      KwdsOf(kw, w[..|w| - 1], name, value) + Owned(o, FittingKwds(kw[o], name, value))
  }

  ghost function Keywords(os: set<ObjDesc>): map<ObjDesc, seq<Keyword>>
    reads os`keywords
  {
    map o | o in os :: o.keywords
  }

  ghost function Owned(o: ObjDesc, ks: seq<nat>): seq<(ObjDesc, nat)> {
    seq(|ks|, i requires 0 <= i < |ks| => (o, ks[i]))
  }

  // ---------- The searches ----------

  method TextFits(p: Pattern, text: string) returns (b: bool)
    ensures b <==> Fits(p, text)
  {
    if p.None? {
      b := true;
    } else {
      b := W.WildCardCompare(p.value, text);
    }
  }

  /** The inner loop of OdlFindKwd: continues the count n of matches through one object's keywords. */
  method SearchKwds(ks: seq<Keyword>, name: Pattern, value: Pattern, position: nat, n: nat)
    returns (found: bool, i: nat, n': nat)
    requires n < Wanted(position)
    ensures var m := FittingKwds(ks, name, value);
            && (found <==> n + |m| >= Wanted(position))
            && (found ==> i < |ks| && m[Wanted(position) - 1 - n] == i)
            && (!found ==> n' == n + |m| < Wanted(position))
  {
    hide Fits;
    found, i, n' := false, 0, n;
    var j := 0;
    while j < |ks|
      invariant j <= |ks| && n' == n + |FittingBefore(ks, j, name, value)| < Wanted(position) && !found
    {
      var b := TextFits(name, ks[j].name);
      if b {
        b := TextFits(value, ks[j].value);
      }
      if b {
        n' := n' + 1;
        if position == 0 || n' == position {
          found, i := true, j;
          FittingGrows(ks, j + 1, name, value);
          return;
        }
      }
      j := j + 1;
    }
  }

  /** Position 0 asks for the first match, like position 1. */
  function Wanted(position: nat): (k: nat)
    ensures position <= k && 1 <= k && (k > 1 ==> k == position)
  {
    if position == 0 then 1 else position
  }

  lemma {:induction false} FittingGrows(ks: seq<Keyword>, n: nat, name: Pattern, value: Pattern)
    requires n <= |ks|
    ensures FittingBefore(ks, n, name, value) <= FittingKwds(ks, name, value)
    decreases |ks| - n
  {
    if n < |ks| {
      FittingGrows(ks, n + 1, name, value);
    }
  }

  lemma VisitsKnown(f: Forest<ObjDesc>, lev: map<ObjDesc, int>, o: ObjDesc, scope: nat)
    requires WellFormed(f) && o in f.kids && Leveled(f, lev) && forall q :: q in lev ==> lev[q] >= 0
    ensures |Visits(f, o, scope)| > 0 && Visits(f, o, scope)[0] == o
    ensures forall i :: 0 <= i < |Visits(f, o, scope)| ==> Visits(f, o, scope)[i] in f.kids
  {
    assert |Visits(f, o, scope)| > 0 by {
      PlacedAt(f, o);
      ScopeHead(f, o);
    }
    forall i | 0 <= i < |Visits(f, o, scope)|
      ensures Visits(f, o, scope)[0] == o && Visits(f, o, scope)[i] in f.kids
    {
      VisitsStep(f, lev, o, scope, i);
    }
  }

  lemma {:induction false} KwdsGrow(kw: map<ObjDesc, seq<Keyword>>, w: seq<ObjDesc>, n: nat, name: Pattern,
                        value: Pattern)
    requires n <= |w| && forall i :: 0 <= i < |w| ==> w[i] in kw
    ensures KwdsOf(kw, w[..n], name, value) <= KwdsOf(kw, w, name, value)
    decreases |w| - n
  {
    if n < |w| {
      assert w[..n + 1][..n] == w[..n];
      KwdsGrow(kw, w, n + 1, name, value);
    } else {
      assert w[..n] == w;
    }
  }

  lemma KwdsStep(kw: map<ObjDesc, seq<Keyword>>, w: seq<ObjDesc>, n: nat, name: Pattern, value: Pattern)
    requires n < |w| && forall i :: 0 <= i < |w| ==> w[i] in kw
    ensures KwdsOf(kw, w[..n + 1], name, value) ==
            KwdsOf(kw, w[..n], name, value) + Owned(w[n], FittingKwds(kw[w[n]], name, value))
  {
    assert w[..n + 1][..n] == w[..n];
  }

  /** The match that SearchKwds finds in the n-th object is the wanted one of all. */
  lemma KwdsFound(kw: map<ObjDesc, seq<Keyword>>, w: seq<ObjDesc>, n: nat, name: Pattern, value: Pattern, c: nat)
    requires n < |w| && forall i :: 0 <= i < |w| ==> w[i] in kw
    requires var before, m := |KwdsOf(kw, w[..n], name, value)|, FittingKwds(kw[w[n]], name, value);
             before <= c < before + |m|
    ensures At(KwdsOf(kw, w, name, value), c) ==
            Some((w[n], FittingKwds(kw[w[n]], name, value)[c - |KwdsOf(kw, w[..n], name, value)|]))
  {
    KwdsStep(kw, w, n, name, value);
    KwdsGrow(kw, w, n + 1, name, value);
  }

  /** One step of a search that stands at the i-th object of its visits. */
  method Advance(tree: Label, start: ObjDesc, o: ObjDesc, sc: nat, ghost scope: nat, ghost i: nat)
    returns (o': ObjDesc?, sc': nat)
    requires tree.Valid() && start in tree.f.kids
    requires i < |Visits(tree.f, start, scope)| && o == Visits(tree.f, start, scope)[i] && sc == ScopeAt(scope, i)
    ensures o' == Ptr(At(Visits(tree.f, start, scope), i + 1)) && sc' == ScopeAt(scope, i + 1)
  {
    hide Visits, Stepped;
    VisitsStep(tree.f, tree.Levels(), start, scope, i);
    o', sc' := tree.NextObjDesc(o, start.level, sc);
  }

  lemma SearchStart(tree: Label, start: ObjDesc, scope: nat, name: Pattern, value: Pattern)
    requires tree.Valid() && start in tree.f.kids
    ensures WellFormed(tree.f)
    ensures var w := Visits(tree.f, start, scope);
            && |w| > 0 && w[0] == start && (forall i :: 0 <= i < |w| ==> w[i] in tree.f.kids) && w[..0] == []
    ensures ScopeAt(scope, 0) == scope
    ensures KwdsOf(Keywords(tree.f.kids.Keys), [], name, value) == []
    ensures Keywords(tree.f.kids.Keys).Keys == tree.f.kids.Keys
  {
    VisitsKnown(tree.f, tree.Levels(), start, scope);
  }

  /** OdlFindKwd from an object: the wanted keyword in visiting order, with its owner, or none. */
  method FindKwdFrom(tree: Label, start: ObjDesc, name: Pattern, value: Pattern, position: nat, scope: nat)
    returns (r: Maybe<(ObjDesc, nat)>)
    requires tree.Valid() && start in tree.f.kids
    ensures var w := Visits(tree.f, start, scope);
            && (forall i :: 0 <= i < |w| ==> w[i] in tree.f.kids)
            && r == At(KwdsOf(Keywords(tree.f.kids.Keys), w, name, value), Wanted(position) - 1)
  {
    hide Visits, KwdsOf, FittingKwds, Owned, Label.Valid, ScopeAt, Keywords;
    SearchStart(tree, start, scope, name, value);
    ghost var kw, w := Keywords(tree.f.kids.Keys), Visits(tree.f, start, scope);
    ghost var i := 0;
    var o: ObjDesc?, sc, n := start, scope, 0;
    while o != null
      invariant i <= |w| && o == Ptr(At(w, i)) && sc == ScopeAt(scope, i)
      invariant n == |KwdsOf(kw, w[..i], name, value)| < Wanted(position)
      decreases |w| - i
    {
      KeywordsAt(tree.f.kids.Keys, o);
      KwdsStep(kw, w, i, name, value);
      OwnedSize(o, FittingKwds(kw[o], name, value));
      var found, k, n' := SearchKwds(o.keywords, name, value, position, n);
      if found {
        KwdsFound(kw, w, i, name, value, Wanted(position) - 1);
        return Some((o, k));
      }
      o, sc := Advance(tree, start, o, sc, scope, i);
      n, i := n', i + 1;
    }
    assert w[..i] == w;
    r := None;
  }

  method FindKwd(tree: Label, start: ObjDesc?, name: Pattern, value: Pattern, position: nat, scope: nat)
    returns (r: Maybe<(ObjDesc, nat)>)
    requires tree.Valid() && (start != null ==> start in tree.f.kids)
    ensures start == null ==> r == None
    ensures start != null ==>
      var w := Visits(tree.f, start, scope);
      && (forall i :: 0 <= i < |w| ==> w[i] in tree.f.kids)
      && r == At(KwdsOf(Keywords(tree.f.kids.Keys), w, name, value), Wanted(position) - 1)
  {
    hide Visits, KwdsOf;
    r := None;
    if start != null {
      r := FindKwdFrom(tree, start, name, value, position, scope);
    }
  }

  lemma KeywordsAt(os: set<ObjDesc>, o: ObjDesc)
    requires o in os
    ensures o in Keywords(os) && Keywords(os)[o] == o.keywords
  {
  }

  lemma OwnedSize(o: ObjDesc, ks: seq<nat>)
    ensures |Owned(o, ks)| == |ks|
  {
  }

  lemma KwdsOfOne(kw: map<ObjDesc, seq<Keyword>>, o: ObjDesc, name: Pattern)
    requires o in kw
    ensures At(KwdsOf(kw, [o], name, W.None), 0) ==
            var m := FittingKwds(kw[o], name, W.None);
            if m == [] then None else Some((o, m[0]))
  {
    KwdsStep(kw, [o], 0, name, W.None);
    assert [o][..1] == [o] && [o][..0] == [];
  }

  lemma FittingInRange(ks: seq<Keyword>, n: nat, name: Pattern, value: Pattern)
    requires n <= |ks|
    ensures forall i :: 0 <= i < |FittingBefore(ks, n, name, value)| ==> FittingBefore(ks, n, name, value)[i] < n
  {
  }

  /** The test OdlFindObjDesc applies to one object. */
  method Examine(tree: Label, o: ObjDesc, cls: Pattern, name: Pattern, value: Pattern) returns (b: bool)
    requires tree.Valid() && o in tree.f.kids
    ensures b <==> ObjFits(o, cls, name, value)
  {
    hide Label.Valid, Fits, FittingBefore, KwdsOf;
    b := TextFits(cls, o.objClass);
    var kwd: Maybe<(ObjDesc, nat)> := None;
    if b && name.Some? {
      kwd := FindKwd(tree, o, name, W.None, 1, THIS_OBJECT);
      KeywordsAt(tree.f.kids.Keys, o);
      KwdsOfOne(Keywords(tree.f.kids.Keys), o, name);
      FittingInRange(o.keywords, |o.keywords|, name, W.None);
      b := kwd.Some?;
    }
    if b && value.Some? {
      if kwd.None? {
        b := false;
      } else {
        b := TextFits(value, o.keywords[kwd.value.1].value);
      }
    }
  }

  lemma MatchingStep<T>(w: seq<T>, m: set<T>, n: nat)
    requires n < |w|
    ensures Matching(w[..n + 1], m) == Matching(w[..n], m) + (if w[n] in m then [w[n]] else [])
  {
    assert w[..n + 1][..n] == w[..n];
  }

  lemma {:induction false} MatchingGrows<T>(w: seq<T>, m: set<T>, n: nat)
    requires n <= |w|
    ensures Matching(w[..n], m) <= Matching(w, m)
    decreases |w| - n
  {
    if n < |w| {
      MatchingStep(w, m, n);
      MatchingGrows(w, m, n + 1);
    } else {
      assert w[..n] == w;
    }
  }

  /** OdlFindObjDesc from an object: the wanted match in visiting order, or none if there are too few. */
  method FindObjDescFrom(tree: Label, start: ObjDesc, cls: Pattern, name: Pattern, value: Pattern,
                         position: nat, scope: nat) returns (r: ObjDesc?)
    requires tree.Valid() && start in tree.f.kids
    ensures var m := FittingObjs(tree.f.kids.Keys, cls, name, value);
            r == Ptr(At(Matching(Visits(tree.f, start, scope), m), Wanted(position) - 1))
  {
    hide Visits, Matching, ObjFits, Label.Valid, ScopeAt, Keywords, KwdsOf;
    SearchStart(tree, start, scope, name, value);
    ghost var m, w := FittingObjs(tree.f.kids.Keys, cls, name, value), Visits(tree.f, start, scope);
    MatchingNone<ObjDesc>(m);
    ghost var i := 0;
    var o: ObjDesc?, sc, n := start, scope, 0;
    r := null;
    while o != null && r == null
      invariant i <= |w| && (r == null ==> o == Ptr(At(w, i)) && sc == ScopeAt(scope, i))
      invariant n == |Matching(w[..i], m)| && (r == null ==> n < Wanted(position))
      invariant r != null ==> n == Wanted(position) && r == Matching(w[..i], m)[n - 1]
      decreases |w| - i
    {
      MatchingStep(w, m, i);
      var b := Examine(tree, o, cls, name, value);
      if b {
        n := n + 1;
        if position == 0 || n == position {
          r := o;
        }
      }
      o, sc := Advance(tree, start, o, sc, scope, i);
      i := i + 1;
    }
    if r == null {
      assert w[..i] == w;
    }
    MatchingGrows(w, m, i);
  }

  lemma MatchingNone<T>(m: set<T>)
    ensures Matching([], m) == []
  {
  }

  method FindObjDesc(tree: Label, start: ObjDesc?, cls: Pattern, name: Pattern, value: Pattern,
                     position: nat, scope: nat) returns (r: ObjDesc?)
    requires tree.Valid() && (start != null ==> start in tree.f.kids)
    ensures start == null ==> r == null
    ensures start != null ==>
      var m := FittingObjs(tree.f.kids.Keys, cls, name, value);
      r == Ptr(At(Matching(Visits(tree.f, start, scope), m), Wanted(position) - 1))
  {
    hide Visits, Matching, FittingObjs;
    r := null;
    if start != null {
      r := FindObjDescFrom(tree, start, cls, name, value, position, scope);
    }
  }
}
