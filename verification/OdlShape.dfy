/** Label trees as forests, free of pointers. */
module OdlShape {
  import opened Sequences

  datatype Maybe<+T> = None | Some(value: T)

  /** kids lists each object's children; up and pos are its inverse; rank shrinks downwards. */
  datatype Forest<!T(==)> = Forest(
    kids: map<T, seq<T>>,
    up: map<T, Maybe<T>>,
    pos: map<T, int>,
    rank: map<T, nat>,
    top: nat)

  ghost predicate SameKeys<T>(f: Forest<T>) {
    f.kids.Keys == f.up.Keys == f.pos.Keys == f.rank.Keys
  }

  ghost predicate WellFormed<T>(f: Forest<T>) {
    && SameKeys(f)
    && (forall o, i :: o in f.kids && 0 <= i < |f.kids[o]| ==> IsChild(f, f.kids[o][i], o, i))
    && (forall c {:trigger Placed(f, c)} :: c in f.up ==> Placed(f, c))
  }

  lemma WellKeyed<T>(f: Forest<T>)
    requires WellFormed(f)
    ensures SameKeys(f)
  {
  }

  ghost predicate IsChild<T>(f: Forest<T>, c: T, o: T, i: int) {
    c in f.up && f.up[c] == Some(o) && c in f.pos && f.pos[c] == i
  }

  ghost predicate Placed<T>(f: Forest<T>, c: T)
    requires c in f.up
  {
    && c in f.rank && f.rank[c] <= f.top && c in f.pos
    && (f.up[c].Some? ==>
          var o := f.up[c].value;
          && o in f.kids && 0 <= f.pos[c] < |f.kids[o]| && f.kids[o][f.pos[c]] == c
          && o in f.rank && f.rank[c] < f.rank[o])
  }

  function At<T>(s: seq<T>, i: int): Maybe<T> {
    if 0 <= i < |s| then Some(s[i]) else None
  }

  function First<T>(f: Forest<T>, o: T): Maybe<T>
    requires o in f.kids
  {
    At(f.kids[o], 0)
  }

  function Last<T>(f: Forest<T>, o: T): Maybe<T>
    requires o in f.kids
  {
    At(f.kids[o], |f.kids[o]| - 1)
  }

  function Sibling<T>(f: Forest<T>, o: T, d: int): Maybe<T>
    requires o in f.up && o in f.pos
  {
    if f.up[o].Some? && f.up[o].value in f.kids then At(f.kids[f.up[o].value], f.pos[o] + d) else None
  }

  function Right<T>(f: Forest<T>, o: T): Maybe<T>
    requires o in f.up && o in f.pos
  {
    Sibling(f, o, 1)
  }

  function Left<T>(f: Forest<T>, o: T): Maybe<T>
    requires o in f.up && o in f.pos
  {
    Sibling(f, o, -1)
  }

  /** o is r or one of its descendants. */
  ghost predicate Under<T>(f: Forest<T>, o: T, r: T)
    requires WellFormed(f) && o in f.kids
    decreases f.top - f.rank[o]
  {
    assert Placed(f, o);
    o == r || (f.up[o].Some? && Under(f, f.up[o].value, r))
  }

  /** The objects of o's subtree in preorder. */
  ghost function Preorder<T>(f: Forest<T>, o: T): seq<T>
    requires WellFormed(f) && o in f.kids
    decreases f.rank[o], |f.kids[o]| + 1
  {
    [o] + PreorderFrom(f, o, 0)
  }

  /** The objects below o, from its child number k on, in preorder. */
  ghost function PreorderFrom<T>(f: Forest<T>, o: T, k: nat): seq<T>
    requires WellFormed(f) && o in f.kids && k <= |f.kids[o]|
    decreases f.rank[o], |f.kids[o]| - k
  {
    if k == |f.kids[o]| then [] else
      var c := f.kids[o][k];
      assert IsChild(f, c, o, k) && Placed(f, c);
      Preorder(f, c) + PreorderFrom(f, o, k + 1)
  }

  // ---------- The walk ----------

  /** Where OdlTraverseTree goes once o's subtree is done: o's right sibling, or the one of the nearest
      ancestor below the root level that has one. */
  ghost function Exit<T>(f: Forest<T>, lev: map<T, int>, rl: int, o: T): Maybe<T>
    requires WellFormed(f) && o in f.kids && lev.Keys == f.kids.Keys
    decreases f.top - f.rank[o]
  {
    assert Placed(f, o);
    if Right(f, o).Some? then Right(f, o)
    else if f.up[o].None? || lev[f.up[o].value] <= rl then None
    else Exit(f, lev, rl, f.up[o].value)
  }

  /** OdlTraverseTree: the first child, else the way out. */
  ghost function Next<T>(f: Forest<T>, lev: map<T, int>, rl: int, o: T): Maybe<T>
    requires WellFormed(f) && o in f.kids && lev.Keys == f.kids.Keys
  {
    if f.kids[o] != [] then First(f, o) else Exit(f, lev, rl, o)
  }

  /** Levels grow by one from parent to child. */
  ghost predicate Leveled<T>(f: Forest<T>, lev: map<T, int>)
    requires WellFormed(f)
  {
    && lev.Keys == f.kids.Keys
    && forall c :: c in f.up && f.up[c].Some? ==> Placed(f, c) && lev[c] == lev[f.up[c].value] + 1
  }

  function After<T>(w: seq<T>, i: nat, z: Maybe<T>): Maybe<T> {
    if i + 1 < |w| then Some(w[i + 1]) else z
  }

  /** Following Next through w, from its first object, meets the rest of w in order and then goes to z. */
  ghost predicate Follows<T>(f: Forest<T>, lev: map<T, int>, rl: int, w: seq<T>, z: Maybe<T>)
    requires WellFormed(f) && lev.Keys == f.kids.Keys
  {
    && (forall i :: 0 <= i < |w| ==> w[i] in f.kids)
    && (forall i :: 0 <= i < |w| ==> Next(f, lev, rl, w[i]) == After(w, i, z))
  }

  lemma FollowsConcat<T>(f: Forest<T>, lev: map<T, int>, rl: int, v: seq<T>, w: seq<T>, z: Maybe<T>)
    requires WellFormed(f) && lev.Keys == f.kids.Keys && w != []
    requires Follows(f, lev, rl, v, Some(w[0])) && Follows(f, lev, rl, w, z)
    ensures Follows(f, lev, rl, v + w, z)
  {
    var u := v + w;
    forall i | 0 <= i < |u|
      ensures u[i] in f.kids && Next(f, lev, rl, u[i]) == After(u, i, z)
    {
      if i < |v| {
        assert u[i] == v[i] && After(u, i, z) == After(v, i, Some(w[0]));
      } else {
        assert u[i] == w[i - |v|] && After(u, i, z) == After(w, i - |v|, z);
      }
    }
  }

  lemma FollowsOne<T>(f: Forest<T>, lev: map<T, int>, rl: int, o: T)
    requires WellFormed(f) && lev.Keys == f.kids.Keys && o in f.kids
    ensures Follows(f, lev, rl, [o], Next(f, lev, rl, o))
  {
  }

  lemma {:induction false} UnderTrans<T>(f: Forest<T>, o: T, p: T, r: T)
    requires WellFormed(f) && o in f.kids && p in f.kids && Under(f, o, p) && Under(f, p, r)
    ensures Under(f, o, r)
    decreases f.top - f.rank[o]
  {
    assert Placed(f, o);
    if o != p {
      UnderTrans(f, f.up[o].value, p, r);
    }
  }

  lemma ChildUnder<T>(f: Forest<T>, o: T, k: nat)
    requires WellFormed(f) && o in f.kids && k < |f.kids[o]|
    ensures f.kids[o][k] in f.kids && Under(f, f.kids[o][k], o)
    ensures f.up[f.kids[o][k]] == Some(o) && f.rank[f.kids[o][k]] < f.rank[o]
    ensures Right(f, f.kids[o][k]) == At(f.kids[o], k + 1) && Left(f, f.kids[o][k]) == At(f.kids[o], k - 1)
  {
    var c := f.kids[o][k];
    assert IsChild(f, c, o, k) && Placed(f, c);
    assert Under(f, o, o);
  }

  /** A subtree whose strict descendants lie below the root level is walked in preorder, and then left
      by its exit, or given up when o itself is at the root level. */
  lemma {:induction false} WalkSubtree<T>(f: Forest<T>, lev: map<T, int>, rl: int, o: T)
    requires WellFormed(f) && o in f.kids && lev.Keys == f.kids.Keys
    requires forall q :: q in f.kids && q != o && Under(f, q, o) ==> lev[q] > rl
    ensures Follows(f, lev, rl, Preorder(f, o),
                    if f.kids[o] == [] || lev[o] > rl then Exit(f, lev, rl, o) else None)
    decreases f.rank[o], |f.kids[o]| + 1
  {
    FollowsOne(f, lev, rl, o);
    if f.kids[o] == [] {
      assert Preorder(f, o) == [o];
    } else {
      ChildUnder(f, o, 0);
      WalkChildren(f, lev, rl, o, 0);
      FollowsConcat(f, lev, rl, [o], PreorderFrom(f, o, 0), if lev[o] > rl then Exit(f, lev, rl, o) else None);
    }
  }

  lemma {:induction false} WalkChildren<T>(f: Forest<T>, lev: map<T, int>, rl: int, o: T, k: nat)
    requires WellFormed(f) && o in f.kids && lev.Keys == f.kids.Keys && k < |f.kids[o]|
    requires forall q :: q in f.kids && q != o && Under(f, q, o) ==> lev[q] > rl
    ensures PreorderFrom(f, o, k) != [] && PreorderFrom(f, o, k)[0] == f.kids[o][k]
    ensures Follows(f, lev, rl, PreorderFrom(f, o, k), if lev[o] > rl then Exit(f, lev, rl, o) else None)
    decreases f.rank[o], |f.kids[o]| - k
  {
    var c := f.kids[o][k];
    ChildUnder(f, o, k);
    BelowChild(f, c, o);
    WalkSubtree(f, lev, rl, c);
    if k + 1 < |f.kids[o]| {
      WalkChildren(f, lev, rl, o, k + 1);
      FollowsConcat(f, lev, rl, Preorder(f, c), PreorderFrom(f, o, k + 1),
                    if lev[o] > rl then Exit(f, lev, rl, o) else None);
    } else {
      assert PreorderFrom(f, o, k + 1) == [];
      assert PreorderFrom(f, o, k) == Preorder(f, c);
    }
  }

  lemma BelowChild<T>(f: Forest<T>, c: T, o: T)
    requires WellFormed(f) && c in f.kids && f.up[c] == Some(o) && o in f.kids && Under(f, c, o)
    ensures c != o && forall q :: q in f.kids && Under(f, q, c) ==> q != o && Under(f, q, o)
  {
    assert Placed(f, c);
    forall q | q in f.kids && Under(f, q, c)
      ensures q != o && Under(f, q, o)
    {
      UnderTrans(f, q, c, o);
      UnderRank(f, q, c);
    }
  }

  lemma {:induction false} UnderRank<T>(f: Forest<T>, o: T, r: T)
    requires WellFormed(f) && o in f.kids && r in f.kids && Under(f, o, r)
    ensures f.rank[o] <= f.rank[r] && (o != r ==> f.rank[o] < f.rank[r])
    decreases f.top - f.rank[o]
  {
    assert Placed(f, o);
    if o != r {
      UnderRank(f, f.up[o].value, r);
    }
  }

  // ---------- What the walk visits ----------

  lemma {:induction false} UnderBoth<T>(f: Forest<T>, q: T, a: T, b: T)
    requires WellFormed(f) && q in f.kids && a in f.kids && b in f.kids && Under(f, q, a) && Under(f, q, b)
    ensures Under(f, a, b) || Under(f, b, a)
    decreases f.top - f.rank[q]
  {
    assert Placed(f, q);
    if q != a && q != b {
      UnderBoth(f, f.up[q].value, a, b);
    }
  }

  /** No object lies under two children of o. */
  lemma SiblingsApart<T>(f: Forest<T>, o: T, i: nat, j: nat, q: T)
    requires WellFormed(f) && o in f.kids && q in f.kids && i < |f.kids[o]| && j < |f.kids[o]|
    requires Under(f, q, f.kids[o][i]) && Under(f, q, f.kids[o][j])
    ensures i == j
  {
    var a, b := f.kids[o][i], f.kids[o][j];
    ChildUnder(f, o, i);
    ChildUnder(f, o, j);
    UnderBoth(f, q, a, b);
    assert IsChild(f, a, o, i) && IsChild(f, b, o, j);
    if a != b {
      if Under(f, a, b) {
        UnderRank(f, o, b);
      } else {
        UnderRank(f, o, a);
      }
    }
  }

  /** The preorder of o lists o's subtree, each object once. */
  lemma {:induction false} PreorderExact<T>(f: Forest<T>, o: T)
    requires WellFormed(f) && o in f.kids
    ensures forall q :: q in Preorder(f, o) <==> q in f.kids && Under(f, q, o)
    ensures Distinct(Preorder(f, o))
    decreases f.rank[o], |f.kids[o]| + 1
  {
    PreorderFromExact(f, o, 0);
    var w := PreorderFrom(f, o, 0);
    assert Preorder(f, o) == [o] + w;
    forall q
      ensures q in Preorder(f, o) <==> q in f.kids && Under(f, q, o)
    {
      if q in f.kids && Under(f, q, o) && q != o {
        var i := ChildAbove(f, q, o);
        assert UnderChild(f, q, o, i);
        assert q in w;
      }
      if q in w {
        assert BelowFrom(f, q, o, 0);
        var i :| 0 <= i < |f.kids[o]| && UnderChild(f, q, o, i);
        ChildUnder(f, o, i);
        UnderTrans(f, q, f.kids[o][i], o);
      }
    }
    if o in w {
      assert BelowFrom(f, o, o, 0);
      var i :| 0 <= i < |f.kids[o]| && UnderChild(f, o, o, i);
      ChildUnder(f, o, i);
      UnderRank(f, o, f.kids[o][i]);
      assert false;
    }
  }

  ghost predicate UnderChild<T>(f: Forest<T>, q: T, o: T, i: nat)
    requires WellFormed(f) && o in f.kids && i < |f.kids[o]|
  {
    q in f.kids && Under(f, q, f.kids[o][i])
  }

  ghost predicate BelowFrom<T>(f: Forest<T>, q: T, o: T, k: nat)
    requires WellFormed(f) && o in f.kids
  {
    exists i :: k <= i < |f.kids[o]| && UnderChild(f, q, o, i)
  }

  lemma {:induction false} ChildAbove<T>(f: Forest<T>, q: T, o: T) returns (i: nat)
    requires WellFormed(f) && o in f.kids && q in f.kids && Under(f, q, o) && q != o
    ensures i < |f.kids[o]| && UnderChild(f, q, o, i)
    decreases f.top - f.rank[q]
  {
    assert Placed(f, q);
    var p := f.up[q].value;
    if p == o {
      i := f.pos[q];
      assert Under(f, q, q);
    } else {
      i := ChildAbove(f, p, o);
      ChildUnder(f, o, i);
      assert Under(f, q, p) by {
        assert Under(f, p, p);
      }
      UnderTrans(f, q, p, f.kids[o][i]);
    }
  }

  lemma {:induction false} PreorderFromExact<T>(f: Forest<T>, o: T, k: nat)
    requires WellFormed(f) && o in f.kids && k <= |f.kids[o]|
    ensures forall q :: q in PreorderFrom(f, o, k) <==> BelowFrom(f, q, o, k)
    ensures Distinct(PreorderFrom(f, o, k))
    decreases f.rank[o], |f.kids[o]| - k
  {
    if k < |f.kids[o]| {
      var c := f.kids[o][k];
      ChildUnder(f, o, k);
      PreorderExact(f, c);
      PreorderFromExact(f, o, k + 1);
      var v, w := Preorder(f, c), PreorderFrom(f, o, k + 1);
      assert PreorderFrom(f, o, k) == v + w;
      forall q | q in v
        ensures q !in w
      {
        if q in w {
          assert BelowFrom(f, q, o, k + 1);
          var i :| k + 1 <= i < |f.kids[o]| && UnderChild(f, q, o, i);
          SiblingsApart(f, o, k, i, q);
          assert false;
        }
      }
      ConcatDistinct(v, w);
      forall q
        ensures q in v + w <==> BelowFrom(f, q, o, k)
      {
        if q in v {
          assert UnderChild(f, q, o, k);
        }
      }
    }
  }

  lemma ConcatDistinct<T>(v: seq<T>, w: seq<T>)
    requires Distinct(v) && Distinct(w) && forall q :: q in v ==> q !in w
    ensures Distinct(v + w)
  {
    forall i, j | 0 <= i < j < |v + w|
      ensures (v + w)[i] != (v + w)[j]
    {
      if i < |v| <= j {
        assert v[i] in v && w[j - |v|] in w;
      }
    }
  }

  /** What a walk restricted to o's subtree really visits: the subtree when o has a child, but a
      childless o is left through its right siblings, up to the first that has a child. */
  ghost function Scope<T>(f: Forest<T>, o: T): seq<T>
    requires WellFormed(f) && o in f.kids
    decreases if f.up[o].Some? && f.up[o].value in f.kids then |f.kids[f.up[o].value]| - f.pos[o] else 0
  {
    if f.kids[o] != [] then Preorder(f, o)
    else if Right(f, o).None? then [o]
    else
      assert Placed(f, o) && IsChild(f, Right(f, o).value, f.up[o].value, f.pos[o] + 1);
      [o] + Scope(f, Right(f, o).value)
  }

  lemma ScopeHead<T>(f: Forest<T>, o: T)
    requires WellFormed(f) && o in f.kids
    ensures Scope(f, o) != [] && Scope(f, o)[0] == o
  {
  }

  lemma LevelsBelow<T>(f: Forest<T>, lev: map<T, int>, o: T)
    requires WellFormed(f) && o in f.kids && Leveled(f, lev)
    ensures forall q :: q in f.kids && q != o && Under(f, q, o) ==> lev[q] > lev[o]
  {
    forall q | q in f.kids && q != o && Under(f, q, o)
      ensures lev[q] > lev[o]
    {
      LevelBelow(f, lev, q, o);
    }
  }

  lemma {:induction false} LevelBelow<T>(f: Forest<T>, lev: map<T, int>, q: T, o: T)
    requires WellFormed(f) && o in f.kids && q in f.kids && Leveled(f, lev) && Under(f, q, o)
    ensures lev[q] >= lev[o] && (q != o ==> lev[q] > lev[o])
    decreases f.top - f.rank[q]
  {
    assert Placed(f, q);
    if q != o {
      LevelBelow(f, lev, f.up[q].value, o);
    }
  }

  /** With levels in order, the walk from o with o's own level as root level visits exactly Scope(o). */
  lemma {:induction false} ScopeWalk<T>(f: Forest<T>, lev: map<T, int>, o: T)
    requires WellFormed(f) && o in f.kids && Leveled(f, lev)
    ensures Follows(f, lev, lev[o], Scope(f, o), None)
    decreases if f.up[o].Some? && f.up[o].value in f.kids then |f.kids[f.up[o].value]| - f.pos[o] else 0
  {
    hide Follows, PreorderFrom, Preorder;
    assert Placed(f, o);
    LevelsBelow(f, lev, o);
    if f.kids[o] != [] {
      WalkSubtree(f, lev, lev[o], o);
    } else {
      FollowsOne(f, lev, lev[o], o);
      if Right(f, o).Some? {
        var r := Right(f, o).value;
        assert IsChild(f, r, f.up[o].value, f.pos[o] + 1) && Placed(f, r);
        ScopeWalk(f, lev, r);
        ScopeHead(f, r);
        FollowsConcat(f, lev, lev[o], [o], Scope(f, r), None);
      }
    }
  }

  /** The restricted walk is right exactly when o has a child or no right sibling. */
  lemma ScopeIsSubtree<T>(f: Forest<T>, o: T)
    requires WellFormed(f) && o in f.kids
    ensures Scope(f, o) == Preorder(f, o) <==> f.kids[o] != [] || Right(f, o).None?
  {
    if f.kids[o] == [] {
      assert Preorder(f, o) == [o];
      if Right(f, o).Some? {
        assert Placed(f, o) && IsChild(f, Right(f, o).value, f.up[o].value, f.pos[o] + 1);
        ScopeHead(f, Right(f, o).value);
        assert |Scope(f, o)| > 1;
      }
    }
  }

  /** A root with two childless objects below it. */
  function TwoLeaves(): Forest<int> {
    Forest(map[0 := [1, 2], 1 := [], 2 := []], map[0 := None, 1 := Some(0), 2 := Some(0)],
           map[0 := 0, 1 := 0, 2 := 1], map[0 := 1, 1 := 0, 2 := 0], 1)
  }

  lemma TwoLeavesWellFormed()
    ensures WellFormed(TwoLeaves())
  {
    var f := TwoLeaves();
    assert Placed(f, 0) && Placed(f, 1) && Placed(f, 2);
  }

  /** There the walk restricted to the first one's subtree goes on to the second one. */
  lemma ScopeEscapes()
    ensures var f := TwoLeaves(); WellFormed(f) && Preorder(f, 1) == [1] && Scope(f, 1) == [1, 2]
  {
    hide WellFormed;
    TwoLeavesWellFormed();
    var f := TwoLeaves();
    assert Right(f, 1) == Some(2) && Right(f, 2) == None;
    assert Scope(f, 2) == [2];
  }

  /** What comes after o's subtree in the preorder of the whole tree. */
  ghost function Rest<T>(f: Forest<T>, o: T): seq<T>
    requires WellFormed(f) && o in f.kids
    decreases f.top - f.rank[o]
  {
    assert Placed(f, o);
    if f.up[o].None? then [] else PreorderFrom(f, f.up[o].value, f.pos[o] + 1) + Rest(f, f.up[o].value)
  }

  /** The walk to the end of the label: from o on, the rest of the tree in preorder. */
  lemma {:induction false} WalkToEnd<T>(f: Forest<T>, lev: map<T, int>, o: T)
    requires WellFormed(f) && o in f.kids && Leveled(f, lev) && forall q :: q in lev ==> lev[q] >= 0
    ensures Follows(f, lev, 0, Preorder(f, o) + Rest(f, o), None)
  {
    assert Placed(f, o);
    forall q | q in f.kids && q != o && Under(f, q, o)
      ensures lev[q] > 0
    {
      LevelBelow(f, lev, q, o);
    }
    WalkSubtree(f, lev, 0, o);
    RestWalk(f, lev, o);
    if Rest(f, o) == [] {
      assert Preorder(f, o) + Rest(f, o) == Preorder(f, o);
    } else {
      FollowsConcat(f, lev, 0, Preorder(f, o), Rest(f, o), None);
    }
  }

  lemma RestEmpty<T>(f: Forest<T>, lev: map<T, int>, o: T)
    requires WellFormed(f) && o in f.kids && Leveled(f, lev)
    ensures f.up[o].None? ==> Rest(f, o) == [] && Follows(f, lev, 0, Rest(f, o), None)
  {
  }

  lemma {:induction false} RestWalk<T>(f: Forest<T>, lev: map<T, int>, o: T)
    requires WellFormed(f) && o in f.kids && Leveled(f, lev) && forall q :: q in lev ==> lev[q] >= 0
    ensures Follows(f, lev, 0, Rest(f, o), None)
    ensures At(Rest(f, o), 0) == Exit(f, lev, 0, o)
    ensures f.up[o].Some? ==> lev[o] > 0
    decreases f.top - f.rank[o]
  {
    hide Follows, Preorder;
    RestEmpty(f, lev, o);
    assert Placed(f, o);
    if f.up[o].Some? {
      var p, k := f.up[o].value, f.pos[o] + 1;
      RestWalk(f, lev, p);
      assert Placed(f, p);
      if k < |f.kids[p]| {
        forall q | q in f.kids && q != p && Under(f, q, p)
          ensures lev[q] > 0
        {
          LevelBelow(f, lev, q, p);
        }
        WalkChildren(f, lev, 0, p, k);
        var w := PreorderFrom(f, p, k);
        if Rest(f, p) == [] {
          assert w + Rest(f, p) == w;
        } else {
          FollowsConcat(f, lev, 0, w, Rest(f, p), None);
        }
      } else {
        assert PreorderFrom(f, p, k) == [];
        assert Rest(f, o) == Rest(f, p);
      }
    }
  }

  // ---------- Cutting and pasting ----------

  function Delete<T>(s: seq<T>, k: nat): seq<T>
    requires k < |s|
  {
    s[..k] + s[k + 1..]
  }

  function Splice<T>(s: seq<T>, k: nat, x: T): seq<T>
    requires k <= |s|
  {
    s[..k] + [x] + s[k..]
  }

  /** The forest with c's subtree detached. */
  ghost function CutOff<T>(f: Forest<T>, c: T): Forest<T>
    requires SameKeys(f) && c in f.kids && f.up[c].Some? && Placed(f, c)
  {
    var o, k := f.up[c].value, f.pos[c];
    f.(kids := f.kids[o := Delete(f.kids[o], k)],
       up := f.up[c := None],
       pos := map q | q in f.pos :: if f.up[q] == Some(o) && f.pos[q] > k then f.pos[q] - 1 else f.pos[q])
  }

  /** The forest with the detached c as child number k of o. */
  ghost function Graft<T>(f: Forest<T>, c: T, o: T, k: nat): Forest<T>
    requires WellFormed(f) && c in f.kids && o in f.kids && k <= |f.kids[o]|
  {
    Forest(
      f.kids[o := Splice(f.kids[o], k, c)],
      f.up[c := Some(o)],
      map q | q in f.pos ::
        if q == c then k else if f.up[q] == Some(o) && f.pos[q] >= k then f.pos[q] + 1 else f.pos[q],
      map q | q in f.rank :: if Under(f, q, c) then f.rank[q] else f.rank[q] + f.rank[c] + 1,
      f.top + f.rank[c] + 1)
  }

  /** The forest with a new object that is a tree of its own. */
  ghost function Planted<T>(f: Forest<T>, c: T): Forest<T> {
    Forest(f.kids[c := []], f.up[c := None], f.pos[c := 0], f.rank[c := 0], f.top)
  }

  lemma PlantedChild<T>(f: Forest<T>, c: T, o: T, i: int)
    requires WellFormed(f) && c !in f.kids && o in f.kids && 0 <= i < |f.kids[o]|
    ensures f.kids[o][i] != c && IsChild(Planted(f, c), f.kids[o][i], o, i)
  {
    assert IsChild(f, f.kids[o][i], o, i);
  }

  lemma PlantedPlaced<T>(f: Forest<T>, c: T, q: T)
    requires WellFormed(f) && c !in f.kids && q in f.kids
    ensures q in f.up && Placed(Planted(f, c), q)
    ensures Left(Planted(f, c), q) == Left(f, q) && Right(Planted(f, c), q) == Right(f, q)
    ensures f.up[q].Some? ==> f.up[q].value in f.kids && f.up[q].value != c
  {
    assert Placed(f, q);
  }

  lemma PlantedLeveled<T>(f: Forest<T>, lev: map<T, int>, c: T)
    requires WellFormed(f) && c !in f.kids && Leveled(f, lev)
    ensures WellFormed(Planted(f, c)) && Leveled(Planted(f, c), lev[c := 0])
  {
    PlantedWellFormed(f, c);
    var g := Planted(f, c);
    forall q | q in g.up && g.up[q].Some?
      ensures Placed(g, q) && lev[c := 0][q] == lev[c := 0][g.up[q].value] + 1
    {
      PlantedPlaced(f, c, q);
    }
  }

  lemma PlantedWellFormed<T>(f: Forest<T>, c: T)
    requires WellFormed(f) && c !in f.kids
    ensures WellFormed(Planted(f, c))
  {
    var g := Planted(f, c);
    forall o, i | o in g.kids && 0 <= i < |g.kids[o]|
      ensures IsChild(g, g.kids[o][i], o, i)
    {
      PlantedChild(f, c, o, i);
    }
    forall q | q in g.up
      ensures Placed(g, q)
    {
      if q != c {
        PlantedPlaced(f, c, q);
      }
    }
  }

  lemma CutWellFormed<T>(f: Forest<T>, c: T)
    requires WellFormed(f) && c in f.kids && f.up[c].Some?
    ensures Placed(f, c) && WellFormed(CutOff(f, c))
  {
    hide Placed, IsChild, Delete;
    PlacedAt(f, c);
    CutChildren(f, c);
    CutPlaces(f, c);
  }

  lemma CutChildren<T>(f: Forest<T>, c: T)
    requires WellFormed(f) && c in f.kids && f.up[c].Some? && Placed(f, c)
    ensures forall p, i :: p in f.kids && 0 <= i < |CutOff(f, c).kids[p]| ==>
              IsChild(CutOff(f, c), CutOff(f, c).kids[p][i], p, i)
  {
    var g := CutOff(f, c);
    hide WellFormed, IsChild, Delete;
    forall p, i | p in f.kids && 0 <= i < |g.kids[p]|
      ensures IsChild(g, g.kids[p][i], p, i)
    {
      CutChild(f, c, p, i);
    }
  }

  lemma CutPlaces<T>(f: Forest<T>, c: T)
    requires WellFormed(f) && c in f.kids && f.up[c].Some? && Placed(f, c)
    ensures forall q :: q in f.up ==> Placed(CutOff(f, c), q)
  {
    var g := CutOff(f, c);
    hide WellFormed, IsChild, Delete;
    forall q | q in f.up
      ensures Placed(g, q)
    {
      CutPlaced(f, c, q);
    }
  }

  lemma CutChild<T>(f: Forest<T>, c: T, p: T, i: nat)
    requires SameKeys(f) && WellFormed(f) && c in f.kids && f.up[c].Some? && Placed(f, c)
    requires p in f.kids && i < |CutOff(f, c).kids[p]|
    ensures IsChild(CutOff(f, c), CutOff(f, c).kids[p][i], p, i)
  {
    hide WellFormed;
    var s, k := f.kids[f.up[c].value], f.pos[c];
    DeleteAt(s, k, i);
    hide Delete;
    var j := if p == f.up[c].value && i >= k then i + 1 else i;
    ChildAt(f, p, j);
  }

  lemma ChildAt<T>(f: Forest<T>, p: T, i: nat)
    requires WellFormed(f) && p in f.kids && i < |f.kids[p]|
    ensures IsChild(f, f.kids[p][i], p, i)
  {
  }

  lemma CutPlaced<T>(f: Forest<T>, c: T, q: T)
    requires SameKeys(f) && WellFormed(f) && c in f.kids && f.up[c].Some? && Placed(f, c) && q in f.up
    ensures Placed(CutOff(f, c), q)
  {
    hide WellFormed;
    PlacedAt(f, q);
    if q != c && f.up[q] == f.up[c] {
      PositionsDiffer(f, q, c);
    }
    var s, k, i := f.kids[f.up[c].value], f.pos[c], f.pos[q];
    DeleteAt(s, k, i);
    DeleteAt(s, k, i - 1);
    assert |Delete(s, k)| == |s| - 1;
    hide Delete;
  }

  lemma GraftWellFormed<T>(f: Forest<T>, c: T, o: T, k: nat)
    requires WellFormed(f) && c in f.kids && o in f.kids && k <= |f.kids[o]|
    requires f.up[c].None? && !Under(f, o, c)
    ensures WellFormed(Graft(f, c, o, k))
  {
    hide Placed, IsChild, Splice, Under;
    var g := Graft(f, c, o, k);
    forall p, i | p in g.kids && 0 <= i < |g.kids[p]|
      ensures IsChild(g, g.kids[p][i], p, i)
    {
      GraftChild(f, c, o, k, p, i);
    }
    forall q | q in g.up
      ensures Placed(g, q)
    {
      GraftPlaced(f, c, o, k, q);
    }
  }

  lemma GraftChild<T>(f: Forest<T>, c: T, o: T, k: nat, p: T, i: nat)
    requires SameKeys(f) && WellFormed(f) && c in f.kids && o in f.kids && k <= |f.kids[o]| && f.up[c].None?
    requires p in f.kids && i < |Graft(f, c, o, k).kids[p]|
    ensures IsChild(Graft(f, c, o, k), Graft(f, c, o, k).kids[p][i], p, i)
  {
    hide WellFormed, Under;
    SpliceAt(f.kids[o], k, c, i);
    assert |Splice(f.kids[o], k, c)| == |f.kids[o]| + 1;
    hide Splice;
    if !(p == o && i == k) {
      ChildAt(f, p, if p == o && i > k then i - 1 else i);
    }
  }

  lemma GraftPlaced<T>(f: Forest<T>, c: T, o: T, k: nat, q: T)
    requires SameKeys(f) && WellFormed(f) && c in f.kids && o in f.kids && k <= |f.kids[o]|
    requires f.up[c].None? && !Under(f, o, c) && q in f.kids
    ensures Placed(Graft(f, c, o, k), q)
  {
    assert Under(f, c, c) && Placed(f, q);
    if q != c && f.up[q].Some? {
      assert Under(f, q, c) <==> Under(f, f.up[q].value, c);
    }
    if Under(f, q, c) {
      UnderRank(f, q, c);
    }
    hide WellFormed, Under;
    PlacedAt(f, q);
    PlacedAt(f, c);
    SpliceAt(f.kids[o], k, c, f.pos[q]);
    SpliceAt(f.kids[o], k, c, f.pos[q] + 1);
    SpliceAt(f.kids[o], k, c, k);
    assert |Splice(f.kids[o], k, c)| == |f.kids[o]| + 1;
    hide Splice;
  }

  lemma SpliceDelete<T>(s: seq<T>, k: nat)
    requires k < |s|
    ensures Splice(Delete(s, k), k, s[k]) == s
  {
  }

  lemma RestoredPosition<T>(f: Forest<T>, c: T, q: T)
    requires WellFormed(f) && c in f.kids && f.up[c].Some? && Placed(f, c) && q in f.pos
    requires WellFormed(CutOff(f, c))
    ensures Graft(CutOff(f, c), c, f.up[c].value, f.pos[c]).pos[q] == f.pos[q]
  {
    PlacedAt(f, q);
    if q != c && f.up[q] == f.up[c] {
      PositionsDiffer(f, q, c);
    }
  }

  lemma Restored<T>(f: Forest<T>, c: T)
    requires SameKeys(f) && WellFormed(f) && c in f.kids && f.up[c].Some? && Placed(f, c)
    requires WellFormed(CutOff(f, c))
    ensures var g := Graft(CutOff(f, c), c, f.up[c].value, f.pos[c]);
            g.kids == f.kids && g.up == f.up && g.pos == f.pos
  {
    hide WellFormed, Under, Splice;
    SpliceDelete(f.kids[f.up[c].value], f.pos[c]);
    forall q | q in f.pos
      ensures Graft(CutOff(f, c), c, f.up[c].value, f.pos[c]).pos[q] == f.pos[q]
    {
      RestoredPosition(f, c, q);
    }
  }

  /** Pasting a cut object back where it was restores the whole tree. */
  lemma GraftUndoesCut<T>(f: Forest<T>, c: T)
    requires WellFormed(f) && c in f.kids && f.up[c].Some?
    ensures Placed(f, c) && WellFormed(CutOff(f, c))
    ensures var g := Graft(CutOff(f, c), c, f.up[c].value, f.pos[c]);
            g.kids == f.kids && g.up == f.up && g.pos == f.pos
  {
    hide Placed, IsChild, Under, Splice, Delete;
    CutWellFormed(f, c);
    Restored(f, c);
  }

  lemma PositionsDiffer<T>(f: Forest<T>, q: T, c: T)
    requires WellFormed(f) && q in f.up && c in f.up && q != c && f.up[q] == f.up[c] && f.up[c].Some?
    ensures f.pos[q] != f.pos[c]
  {
    assert Placed(f, q) && Placed(f, c);
  }

  lemma PlacedAt<T>(f: Forest<T>, q: T)
    requires WellFormed(f) && q in f.pos
    ensures q in f.up && Placed(f, q)
  {
  }

  lemma DeleteAt<T>(s: seq<T>, k: nat, i: int)
    requires k < |s|
    ensures At(Delete(s, k), i) == At(s, if i < k then i else i + 1)
  {
  }

  lemma SpliceAt<T>(s: seq<T>, k: nat, x: T, i: int)
    requires k <= |s|
    ensures At(Splice(s, k, x), i) == if i < k then At(s, i) else if i == k then Some(x) else At(s, i - 1)
  {
  }

  /** Where each link of an object o points once c is cut off. */
  lemma CutEnds<T>(f: Forest<T>, c: T, o: T)
    requires SameKeys(f) && WellFormed(f) && c in f.kids && f.up[c].Some? && o in f.kids && Placed(f, c)
    ensures var g := CutOff(f, c);
            && First(g, o) == (if f.up[c] == Some(o) && Left(f, c).None? then Right(f, c) else First(f, o))
            && Last(g, o) == (if f.up[c] == Some(o) && Right(f, c).None? then Left(f, c) else Last(f, o))
  {
    var s, k := f.kids[f.up[c].value], f.pos[c];
    assert |Delete(s, k)| == |s| - 1;
    hide WellFormed, Delete;
    DeleteAt(s, k, 0);
    DeleteAt(s, k, |s| - 2);
  }

  lemma CutRight<T>(f: Forest<T>, c: T, o: T)
    requires SameKeys(f) && WellFormed(f) && c in f.kids && f.up[c].Some? && o in f.kids && Placed(f, c)
    ensures Right(CutOff(f, c), o) == if o == c then None else if Left(f, c) == Some(o) then Right(f, c)
            else Right(f, o)
  {
    hide WellFormed, Delete;
    PlacedAt(f, o);
    SiblingIs(f, c, o);
    if o != c && f.up[o] == f.up[c] {
      PositionsDiffer(f, o, c);
    }
    var s, k, i := f.kids[f.up[c].value], f.pos[c], f.pos[o];
    DeleteAt(s, k, i);
    DeleteAt(s, k, i + 1);
  }

  lemma CutLeft<T>(f: Forest<T>, c: T, o: T)
    requires SameKeys(f) && WellFormed(f) && c in f.kids && f.up[c].Some? && o in f.kids && Placed(f, c)
    ensures Left(CutOff(f, c), o) == if o == c then None else if Right(f, c) == Some(o) then Left(f, c) else Left(f, o)
  {
    hide WellFormed, Delete;
    PlacedAt(f, o);
    SiblingIs(f, c, o);
    if o != c && f.up[o] == f.up[c] {
      PositionsDiffer(f, o, c);
    }
    var s, k, i := f.kids[f.up[c].value], f.pos[c], f.pos[o];
    DeleteAt(s, k, i - 2);
    DeleteAt(s, k, i - 1);
  }

  /** o is a neighbour of c exactly when it has the same parent and the neighbouring position. */
  lemma SiblingIs<T>(f: Forest<T>, c: T, o: T)
    requires WellFormed(f) && c in f.kids && o in f.kids
    ensures Right(f, c) == Some(o) <==> f.up[c].Some? && f.up[o] == f.up[c] && f.pos[o] == f.pos[c] + 1
    ensures Left(f, c) == Some(o) <==> f.up[c].Some? && f.up[o] == f.up[c] && f.pos[o] == f.pos[c] - 1
  {
    PlacedAt(f, o);
    PlacedAt(f, c);
    if Right(f, c).Some? {
      assert IsChild(f, Right(f, c).value, f.up[c].value, f.pos[c] + 1);
    }
    if Left(f, c).Some? {
      assert IsChild(f, Left(f, c).value, f.up[c].value, f.pos[c] - 1);
    }
  }

  /** How the links of q differ in the grafted shape. */
  lemma GraftShape<T>(f: Forest<T>, c: T, o: T, k: nat, q: T, before: Maybe<T>, after: Maybe<T>)
    requires SameKeys(f) && WellFormed(f) && c in f.kids && o in f.kids && k <= |f.kids[o]|
    requires f.up[c].None? && !Under(f, o, c) && q in f.kids
    requires before == At(f.kids[o], k - 1) && after == At(f.kids[o], k)
    ensures var g := Graft(f, c, o, k);
            && g.kids.Keys == f.kids.Keys && SameKeys(g)
            && g.up[q] == (if q == c then Some(o) else f.up[q])
            && First(g, q) == (if q == o && before.None? then Some(c) else First(f, q))
            && Last(g, q) == (if q == o && after.None? then Some(c) else Last(f, q))
            && Right(g, q) == (if q == c then after else if before == Some(q) then Some(c) else Right(f, q))
            && Left(g, q) == (if q == c then before else if after == Some(q) then Some(c) else Left(f, q))
  {
    hide WellFormed, Under, First, Last, Left, Right, At, Splice;
    GraftWellFormed(f, c, o, k);
    GraftEnds(f, c, o, k, q);
    GraftRight(f, c, o, k, q);
    GraftLeft(f, c, o, k, q);
  }

  /** The ends of q's children once c is pasted as child number k of o. */
  lemma GraftEnds<T>(f: Forest<T>, c: T, o: T, k: nat, q: T)
    requires SameKeys(f) && WellFormed(f) && c in f.kids && o in f.kids && k <= |f.kids[o]|
    requires f.up[c].None? && q in f.kids
    ensures var g := Graft(f, c, o, k);
            var before, after := At(f.kids[o], k - 1), At(f.kids[o], k);
            && First(g, q) == (if q == o && before.None? then Some(c) else First(f, q))
            && Last(g, q) == (if q == o && after.None? then Some(c) else Last(f, q))
  {
    var s := f.kids[o];
    assert |Splice(s, k, c)| == |s| + 1;
    hide WellFormed, Splice, Under;
    SpliceAt(s, k, c, 0);
    SpliceAt(s, k, c, |s|);
  }

  lemma GraftRight<T>(f: Forest<T>, c: T, o: T, k: nat, q: T)
    requires SameKeys(f) && WellFormed(f) && c in f.kids && o in f.kids && k <= |f.kids[o]|
    requires f.up[c].None? && q in f.kids
    ensures Right(Graft(f, c, o, k), q) ==
            if q == c then At(f.kids[o], k) else if At(f.kids[o], k - 1) == Some(q) then Some(c) else Right(f, q)
  {
    hide WellFormed, Splice, Under;
    PlacedAt(f, q);
    var s, i := f.kids[o], f.pos[q];
    if k > 0 {
      ChildAt(f, o, k - 1);
    }
    if k < |s| {
      ChildAt(f, o, k);
    }
    SpliceAt(s, k, c, k + 1);
    SpliceAt(s, k, c, i + 1);
    SpliceAt(s, k, c, i);
    SpliceAt(s, k, c, i + 2);
  }

  lemma GraftLeft<T>(f: Forest<T>, c: T, o: T, k: nat, q: T)
    requires SameKeys(f) && WellFormed(f) && c in f.kids && o in f.kids && k <= |f.kids[o]|
    requires f.up[c].None? && q in f.kids
    ensures Left(Graft(f, c, o, k), q) ==
            if q == c then At(f.kids[o], k - 1) else if At(f.kids[o], k) == Some(q) then Some(c) else Left(f, q)
  {
    hide WellFormed, Splice, Under;
    PlacedAt(f, q);
    var s, i := f.kids[o], f.pos[q];
    if k > 0 {
      ChildAt(f, o, k - 1);
    }
    if k < |s| {
      ChildAt(f, o, k);
    }
    SpliceAt(s, k, c, k - 1);
    SpliceAt(s, k, c, i - 1);
    SpliceAt(s, k, c, i);
    SpliceAt(s, k, c, i + 1);
  }

  // ---------- Levels ----------

  /** The levels once c's subtree has been moved to the level its place asks for. */
  ghost function Settled<T>(f: Forest<T>, lev: map<T, int>, c: T): map<T, int>
    requires WellFormed(f) && c in f.kids && lev.Keys == f.kids.Keys
  {
    assert Placed(f, c);
    var to := if f.up[c].None? then 0 else lev[f.up[c].value] + 1;
    map q | q in lev :: if Under(f, q, c) then lev[q] - lev[c] + to else lev[q]
  }

  lemma CutLeveled<T>(f: Forest<T>, lev: map<T, int>, c: T)
    requires WellFormed(f) && c in f.kids && f.up[c].Some? && Placed(f, c) && WellFormed(CutOff(f, c))
    requires Leveled(f, lev)
    ensures Leveled(CutOff(f, c), lev)
  {
    forall q | q in f.up
      ensures Placed(CutOff(f, c), q)
    {
      PlacedAt(CutOff(f, c), q);
    }
  }

  lemma CutShape<T>(f: Forest<T>, lev: map<T, int>, c: T)
    requires SameKeys(f) && WellFormed(f) && c in f.kids && f.up[c].Some? && Placed(f, c) && Leveled(f, lev)
    ensures WellFormed(CutOff(f, c)) && CutOff(f, c).kids.Keys == f.kids.Keys && Leveled(CutOff(f, c), lev)
  {
    hide Placed, IsChild, Delete;
    CutWellFormed(f, c);
    CutLeveled(f, lev, c);
  }

  lemma SettledLeveled<T>(f: Forest<T>, lev: map<T, int>, c: T)
    requires WellFormed(f) && c in f.kids && LeveledBut(f, lev, c)
    ensures Leveled(f, Settled(f, lev, c))
  {
    var lev' := Settled(f, lev, c);
    forall q | q in f.up && f.up[q].Some?
      ensures Placed(f, q) && lev'[q] == lev'[f.up[q].value] + 1
    {
      PlacedAt(f, q);
      var p := f.up[q].value;
      if q == c {
        if Under(f, p, c) {
          UnderRank(f, p, c);
        }
        assert Under(f, c, c);
      } else {
        assert Under(f, q, c) <==> Under(f, p, c);
      }
    }
  }

  /** Every ancestor inside the subtree comes before its descendants in the preorder. */
  lemma {:induction false} AncestorsFirst<T>(f: Forest<T>, o: T, i: nat, p: T)
    requires WellFormed(f) && o in f.kids && p in f.kids && i < |Preorder(f, o)|
    requires Preorder(f, o)[i] in f.kids && Under(f, Preorder(f, o)[i], p) && Under(f, p, o)
    ensures p in Preorder(f, o)[..i + 1]
    decreases f.rank[o], |f.kids[o]| + 1
  {
    var w := PreorderFrom(f, o, 0);
    assert Preorder(f, o) == [o] + w;
    assert Preorder(f, o)[0] == o;
    if p == o {
      assert Preorder(f, o)[..i + 1][0] == o;
    } else {
      if i == 0 {
        UnderRank(f, o, p);
        UnderRank(f, p, o);
        assert false;
      }
      AncestorsFirstFrom(f, o, 0, i - 1, p);
      assert Preorder(f, o)[..i + 1] == [o] + w[..i];
    }
  }

  lemma {:induction false} AncestorsFirstFrom<T>(f: Forest<T>, o: T, k: nat, i: nat, p: T)
    requires WellFormed(f) && o in f.kids && k <= |f.kids[o]| && p in f.kids && i < |PreorderFrom(f, o, k)|
    requires PreorderFrom(f, o, k)[i] in f.kids && Under(f, PreorderFrom(f, o, k)[i], p) && Under(f, p, o) && p != o
    ensures p in PreorderFrom(f, o, k)[..i + 1]
    decreases f.rank[o], |f.kids[o]| - k
  {
    var c := f.kids[o][k];
    ChildUnder(f, o, k);
    var v, w := Preorder(f, c), PreorderFrom(f, o, k + 1);
    var u := PreorderFrom(f, o, k);
    assert u == v + w;
    if i < |v| {
      assert u[..i + 1] == v[..i + 1] && u[i] == v[i];
      PreorderExact(f, c);
      assert Under(f, u[i], c);
      var j := ChildAbove(f, p, o);
      ChildUnder(f, o, j);
      UnderTrans(f, u[i], p, f.kids[o][j]);
      SiblingsApart(f, o, k, j, u[i]);
      AncestorsFirst(f, c, i, p);
    } else {
      AncestorsFirstFrom(f, o, k + 1, i - |v|, p);
      assert u[..i + 1] == v + w[..i - |v| + 1];
    }
  }

  lemma ScopeAncestors<T>(f: Forest<T>, o: T, i: nat, p: T)
    requires WellFormed(f) && o in f.kids && p in f.kids && i < |Scope(f, o)|
    requires Scope(f, o)[i] in f.kids && Under(f, Scope(f, o)[i], p) && Under(f, p, o)
    ensures p in Scope(f, o)[..i + 1]
  {
    if f.kids[o] != [] {
      AncestorsFirst(f, o, i, p);
    } else {
      if p != o {
        var j := ChildAbove(f, p, o);
      }
      ScopeHead(f, o);
      assert Scope(f, o)[..i + 1][0] == o;
    }
  }

  lemma ScopeCovers<T>(f: Forest<T>, o: T, q: T)
    requires WellFormed(f) && o in f.kids && q in f.kids && Under(f, q, o)
    ensures q in Scope(f, o)
  {
    if f.kids[o] != [] {
      PreorderExact(f, o);
    } else {
      if q != o {
        var j := ChildAbove(f, q, o);
      }
      ScopeHead(f, o);
    }
  }

  // ---------- Repairing levels during the walk that depends on them ----------

  /** The first i objects of the walk have their final levels, as has everything outside c's subtree. */
  ghost predicate Partly<T>(f: Forest<T>, lev0: map<T, int>, lev: map<T, int>, c: T, i: nat)
    requires WellFormed(f) && c in f.kids && lev0.Keys == f.kids.Keys && i <= |Scope(f, c)|
  {
    && lev.Keys == f.kids.Keys
    && forall q :: q in f.kids ==>
         lev[q] == if q in Scope(f, c)[..i] || !Under(f, q, c) then Settled(f, lev0, c)[q] else lev0[q]
  }

  /** Child levels are one more than parent levels, c's own place excepted. */
  ghost predicate LeveledBut<T>(f: Forest<T>, lev: map<T, int>, c: T)
    requires WellFormed(f)
  {
    && lev.Keys == f.kids.Keys
    && forall q :: q in f.up && q != c && f.up[q].Some? ==> Placed(f, q) && lev[q] == lev[f.up[q].value] + 1
  }

  lemma GraftLeveled<T>(f: Forest<T>, lev: map<T, int>, c: T, o: T, k: nat)
    requires WellFormed(f) && c in f.kids && o in f.kids && k <= |f.kids[o]| && f.up[c].None? && !Under(f, o, c)
    requires Leveled(f, lev)
    ensures WellFormed(Graft(f, c, o, k)) && LeveledBut(Graft(f, c, o, k), lev, c)
    ensures Graft(f, c, o, k).kids.Keys == f.kids.Keys
  {
    hide Placed, IsChild, Splice, Under;
    GraftWellFormed(f, c, o, k);
    var g := Graft(f, c, o, k);
    forall q | q in g.up
      ensures Placed(g, q)
    {
      PlacedAt(g, q);
    }
  }

  lemma PartlyStart<T>(f: Forest<T>, lev0: map<T, int>, c: T)
    requires WellFormed(f) && c in f.kids && lev0.Keys == f.kids.Keys
    ensures Partly(f, lev0, lev0, c, 0)
  {
  }

  lemma PartlyEnd<T>(f: Forest<T>, lev0: map<T, int>, lev: map<T, int>, c: T)
    requires WellFormed(f) && c in f.kids && lev0.Keys == f.kids.Keys
    requires Partly(f, lev0, lev, c, |Scope(f, c)|)
    ensures lev == Settled(f, lev0, c)
  {
    var w := Scope(f, c);
    assert w[..|w|] == w;
    forall q | q in f.kids
      ensures lev[q] == Settled(f, lev0, c)[q]
    {
      if Under(f, q, c) {
        ScopeCovers(f, c, q);
      }
    }
  }

  lemma {:induction false} ScopeParents<T>(f: Forest<T>, o: T)
    requires WellFormed(f) && o in f.kids
    ensures forall q :: q in Scope(f, o) ==> q in f.kids && (q != o ==> f.up[q].Some?)
    decreases if f.up[o].Some? && f.up[o].value in f.kids then |f.kids[f.up[o].value]| - f.pos[o] else 0
  {
    PlacedAt(f, o);
    if f.kids[o] != [] {
      PreorderExact(f, o);
      forall q | q in Preorder(f, o)
        ensures q in f.kids && (q != o ==> f.up[q].Some?)
      {
        assert Under(f, q, o);
      }
    } else if Right(f, o).Some? {
      var r := Right(f, o).value;
      ChildAt(f, f.up[o].value, f.pos[o] + 1);
      ScopeParents(f, r);
    }
  }

  lemma Prefixes<T>(w: seq<T>, i: nat)
    requires i < |w|
    ensures w[..i + 1] == w[..i] + [w[i]] && forall q :: q in w[..i + 1] <==> q in w[..i] || q == w[i]
  {
  }

  /** All proper ancestors of the object just visited have their final levels. */
  lemma AncestorsFinal<T>(f: Forest<T>, lev0: map<T, int>, lev: map<T, int>, c: T, i: nat, p: T)
    requires WellFormed(f) && c in f.kids && lev0.Keys == f.kids.Keys && i < |Scope(f, c)| && p in f.kids
    requires Partly(f, lev0, lev, c, i) && Scope(f, c)[i] in f.kids
    requires Under(f, Scope(f, c)[i], p) && p != Scope(f, c)[i]
    ensures lev[p] == Settled(f, lev0, c)[p]
  {
    hide WellFormed, Under, Settled, Scope;
    if Under(f, p, c) {
      ScopeAncestors(f, c, i, p);
      Prefixes(Scope(f, c), i);
    }
  }

  /** The level computed from the parent's is the final one. */
  lemma LevelFinal<T>(f: Forest<T>, lev0: map<T, int>, lev: map<T, int>, c: T, i: nat)
    requires WellFormed(f) && c in f.kids && LeveledBut(f, lev0, c) && i < |Scope(f, c)|
    requires Partly(f, lev0, lev, c, i)
    ensures var q := Scope(f, c)[i];
            && q in f.kids && (f.up[q].Some? ==> f.up[q].value in f.kids)
            && (if f.up[q].None? then 0 else lev[f.up[q].value] + 1) == Settled(f, lev0, c)[q]
  {
    var w := Scope(f, c);
    var q := w[i];
    ScopeParents(f, c);
    ScopeHead(f, c);
    PlacedAt(f, q);
    SettledLeveled(f, lev0, c);
    if f.up[q].Some? {
      var p := f.up[q].value;
      assert Under(f, p, p) && Under(f, q, p);
      AncestorsFinal(f, lev0, lev, c, i, p);
    } else {
      assert q == c && Under(f, c, c);
    }
  }

  /** One step. */
  lemma PartlyStep<T>(f: Forest<T>, lev0: map<T, int>, lev: map<T, int>, c: T, i: nat)
    requires WellFormed(f) && c in f.kids && LeveledBut(f, lev0, c) && i < |Scope(f, c)|
    requires Partly(f, lev0, lev, c, i)
    ensures var q := Scope(f, c)[i];
            && q in f.kids && (f.up[q].Some? ==> f.up[q].value in f.kids)
            && var l := if f.up[q].None? then 0 else lev[f.up[q].value] + 1;
            && Partly(f, lev0, lev[q := l], c, i + 1)
  {
    LevelFinal(f, lev0, lev, c, i);
    hide WellFormed, Under, Settled, Scope;
    Prefixes(Scope(f, c), i);
  }

  lemma {:induction false} ExitAgrees<T>(f: Forest<T>, lev: map<T, int>, lev': map<T, int>, rl: int, o: T)
    requires WellFormed(f) && o in f.kids && lev.Keys == lev'.Keys == f.kids.Keys
    requires forall p :: p in f.kids && p != o && Under(f, o, p) ==> lev[p] == lev'[p]
    ensures Exit(f, lev, rl, o) == Exit(f, lev', rl, o)
    decreases f.top - f.rank[o]
  {
    PlacedAt(f, o);
    if Right(f, o).None? && f.up[o].Some? {
      var p := f.up[o].value;
      assert Under(f, p, p) && Under(f, o, p);
      forall r | r in f.kids && r != p && Under(f, p, r)
        ensures lev[r] == lev'[r]
      {
        UnderRank(f, p, r);
        assert Under(f, o, r);
      }
      ExitAgrees(f, lev, lev', rl, p);
    }
  }

  /** The walk over the half-repaired tree goes where it would go with all levels final. */
  lemma PartlyNext<T>(f: Forest<T>, lev0: map<T, int>, lev: map<T, int>, c: T, i: nat)
    requires WellFormed(f) && c in f.kids && LeveledBut(f, lev0, c) && i < |Scope(f, c)|
    requires Partly(f, lev0, lev, c, i + 1)
    ensures Scope(f, c)[i] in f.kids && c in lev
    ensures Next(f, lev, lev[c], Scope(f, c)[i]) == At(Scope(f, c), i + 1)
  {
    var w := Scope(f, c);
    var q := w[i];
    var final := Settled(f, lev0, c);
    ScopeParents(f, c);
    ScopeHead(f, c);
    SettledLeveled(f, lev0, c);
    ScopeWalk(f, final, c);
    assert w[..i + 1][0] == c;
    assert lev[c] == final[c];
    forall p | p in f.kids && p != q && Under(f, q, p)
      ensures lev[p] == final[p]
    {
      if Under(f, p, c) {
        ScopeAncestors(f, c, i, p);
      }
    }
    ExitAgrees(f, lev, final, lev[c], q);
    assert Next(f, final, final[c], w[i]) == After(w, i, None);
  }

  // ---------- What follows from well-formedness and levels ----------

  /** How many steps up lead from o to r. */
  ghost function Distance<T>(f: Forest<T>, o: T, r: T): nat
    requires WellFormed(f) && o in f.kids && Under(f, o, r)
    decreases f.top - f.rank[o]
  {
    PlacedAt(f, o);
    if o == r then 0 else 1 + Distance(f, f.up[o].value, r)
  }

  /** Below an object of level 0, level and depth are the same. */
  lemma {:induction false} LevelIsDepth<T>(f: Forest<T>, lev: map<T, int>, o: T, r: T)
    requires WellFormed(f) && o in f.kids && r in f.kids && Leveled(f, lev) && Under(f, o, r)
    ensures lev[o] == lev[r] + Distance(f, o, r)
    decreases f.top - f.rank[o]
  {
    PlacedAt(f, o);
    if o != r {
      LevelIsDepth(f, lev, f.up[o].value, r);
    }
  }

  /** Every object is in the preorder of exactly one root. */
  lemma {:induction false} InOneTree<T>(f: Forest<T>, o: T) returns (r: T)
    requires WellFormed(f) && o in f.kids
    ensures r in f.kids && f.up[r].None? && o in Preorder(f, r)
    ensures forall q :: q in f.kids && f.up[q].None? && o in Preorder(f, q) ==> q == r
    decreases f.top - f.rank[o]
  {
    PlacedAt(f, o);
    if f.up[o].None? {
      r := o;
      assert Under(f, o, o);
    } else {
      r := InOneTree(f, f.up[o].value);
      PreorderExact(f, r);
      assert Under(f, o, r);
    }
    PreorderExact(f, r);
    forall q | q in f.kids && f.up[q].None? && o in Preorder(f, q)
      ensures q == r
    {
      PreorderExact(f, q);
      if f.up[o].Some? {
        assert f.up[o].value in Preorder(f, q);
      }
    }
  }
}
