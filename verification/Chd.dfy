/** Sorted directories and completion. */
module Chd {
  import opened Sequences

  // ---------- strcmp ----------

  /** a does not come after b. */
  predicate Leq(a: string, b: string) {
    a == [] || (b != [] && (a[0] < b[0] || (a[0] == b[0] && Leq(a[1..], b[1..]))))
  }

  lemma {:induction false} LeqRefl(a: string)
    ensures Leq(a, a)
  {
    if a != [] {
      LeqRefl(a[1..]);
    }
  }

  lemma {:induction false} LeqTrans(a: string, b: string, c: string)
    requires Leq(a, b) && Leq(b, c)
    ensures Leq(a, c)
  {
    if a != [] && a[0] == b[0] == c[0] {
      LeqTrans(a[1..], b[1..], c[1..]);
    }
  }

  lemma {:induction false} LeqTotal(a: string, b: string)
    ensures Leq(a, b) || Leq(b, a)
  {
    if a != [] && b != [] {
      LeqTotal(a[1..], b[1..]);
    }
  }

  lemma {:induction false} LeqAntisym(a: string, b: string)
    requires Leq(a, b) && Leq(b, a)
    ensures a == b
  {
    if a != [] {
      LeqAntisym(a[1..], b[1..]);
      assert a == [a[0]] + a[1..] && b == [b[0]] + b[1..];
    }
  }

  /** The order is that of the first characters in which the names differ, by their codes; a name comes
      before all that go on after it. */
  lemma {:induction false} LeqFirst(a: string, b: string, k: nat)
    requires k <= |a| && k <= |b| && a[..k] == b[..k]
    ensures k < |a| && k < |b| && a[k] != b[k] ==> (Leq(a, b) <==> a[k] < b[k])
    ensures k == |a| ==> Leq(a, b) && (k < |b| ==> !Leq(b, a))
    decreases k
  {
    if k > 0 {
      assert a[0] == a[..k][0] == b[..k][0] == b[0];
      assert a[1..][..k - 1] == a[..k][1..] && b[1..][..k - 1] == b[..k][1..];
      LeqFirst(a[1..], b[1..], k - 1);
    }
  }

  /** The first i characters, as far as there are any. */
  function Pre(a: string, i: nat): string {
    if i <= |a| then a[..i] else a
  }

  lemma {:induction false} PreLeq(a: string, b: string, i: nat)
    requires Leq(a, b)
    ensures Leq(Pre(a, i), Pre(b, i))
    decreases i
  {
    if a != [] && b != [] && i > 0 {
      assert Pre(a, i)[1..] == Pre(a[1..], i - 1) && Pre(b, i)[1..] == Pre(b[1..], i - 1);
      if a[0] == b[0] {
        PreLeq(a[1..], b[1..], i - 1);
      }
    }
  }

  // ---------- The sorted directory ----------

  predicate Sorted(s: seq<string>) {
    forall i, j :: 0 <= i < j < |s| ==> Leq(s[i], s[j])
  }

  /** Where the insertion loop stops: before the first name that x does not come after. */
  function Slot(s: seq<string>, x: string): (i: nat)
    ensures i <= |s| && (i < |s| ==> Leq(x, s[i])) && forall k :: 0 <= k < i ==> !Leq(x, s[k])
  {
    if s == [] || Leq(x, s[0]) then 0 else 1 + Slot(s[1..], x)
  }

  function Inserted(s: seq<string>, x: string): seq<string> {
    s[..Slot(s, x)] + [x] + s[Slot(s, x)..]
  }

  predicate Kept(name: string) {
    name != ".." && name != "."
  }

  function SortedDir(names: seq<string>): seq<string> {
    if names == [] then []
    else
      var s, x := SortedDir(names[..|names| - 1]), names[|names| - 1];
      if Kept(x) then Inserted(s, x) else s
  }

  lemma InsertedSorted(s: seq<string>, x: string)
    requires Sorted(s)
    ensures Sorted(Inserted(s, x)) && multiset(Inserted(s, x)) == multiset(s) + multiset{x}
  {
    hide Leq, Slot;
    var n, r := Slot(s, x), Inserted(s, x);
    forall i, j | 0 <= i < j < |r|
      ensures Leq(r[i], r[j])
    {
      if j == n {
        LeqTotal(x, s[i]);
      } else if i == n && j > n + 1 {
        LeqTrans(x, s[n], s[j - 1]);
      } else if i < n < j {
        assert Leq(s[i], s[j - 1]);
      }
    }
    assert s == s[..n] + s[n..];
  }

  function KeptOnly(names: seq<string>): seq<string> {
    if names == [] then []
    else KeptOnly(names[..|names| - 1]) + if Kept(names[|names| - 1]) then [names[|names| - 1]] else []
  }

  /** The directory is its entries without the two dots, sorted: each name as often as it is an entry. */
  lemma {:induction false} SortedDirIs(names: seq<string>)
    ensures Sorted(SortedDir(names)) && multiset(SortedDir(names)) == multiset(KeptOnly(names))
    ensures forall x :: multiset(SortedDir(names))[x] == if x == "." || x == ".." then 0 else multiset(names)[x]
  {
    if names == [] {
      assert multiset(names) == multiset{};
    } else {
      assert names == names[..|names| - 1] + [names[|names| - 1]];
    }
    if names != [] {
      var s, x := names[..|names| - 1], names[|names| - 1];
      SortedDirIs(s);
      InsertedSorted(SortedDir(s), x);
    }
  }

  /** Shift the names from i on up by one and put x there. The slot above the last one is overwritten too. */
  method InsertAt(dirs: array<string>, dn: nat, i: nat, x: string)
    requires i <= dn && dn + 2 <= dirs.Length
    modifies dirs
    ensures dirs[..dn + 1] == old(dirs[..i]) + [x] + old(dirs[i..dn])
  {
    var j := dn;
    while j >= i
      invariant i - 1 <= j <= dn
      invariant forall k :: 0 <= k <= j ==> dirs[k] == old(dirs[k])
      invariant forall k :: j + 1 < k <= dn + 1 ==> dirs[k] == old(dirs[k - 1])
    {
      dirs[j + 1] := dirs[j];
      j := j - 1;
    }
    dirs[i] := x;
  }

  method GetSortedDir(names: seq<string>) returns (dirs: array<string>, dn: nat)
    ensures dn <= dirs.Length && dirs[..dn] == SortedDir(names)
  {
    hide Inserted, Kept;
    var size: nat := 64;
    dirs := new string[size];
    dn := 0;
    for n := 0 to |names|
      invariant size == dirs.Length >= 64 && dn <= size - 2 && fresh(dirs)
      invariant dirs[..dn] == SortedDir(names[..n])
    {
      var name := names[n];
      assert names[..n + 1][..n] == names[..n];
      if Kept(name) {
        if dn >= size - 2 {
          dirs := Grown(dirs, dn, 2 * size);
          size := 2 * size;
        }
        Insert(dirs, dn, name);
        dn := dn + 1;
      }
    }
    assert names[..|names|] == names;
  }

  method Insert(dirs: array<string>, dn: nat, name: string)
    requires dn + 2 <= dirs.Length
    modifies dirs
    ensures dirs[..dn + 1] == Inserted(old(dirs[..dn]), name)
  {
    ghost var s := dirs[..dn];
    var i := FindSlot(dirs, dn, name);
    assert s[..i] == dirs[..i] && s[i..] == dirs[i..dn];
    InsertAt(dirs, dn, i, name);
  }

  /** realloc */
  method Grown(dirs: array<string>, dn: nat, size: nat) returns (more: array<string>)
    requires dn <= dirs.Length <= size
    ensures fresh(more) && more.Length == size && more[..dn] == dirs[..dn]
  {
    more := new string[size];
    forall k | 0 <= k < dirs.Length {
      more[k] := dirs[k];
    }
  }

  method FindSlot(dirs: array<string>, dn: nat, name: string) returns (i: nat)
    requires dn <= dirs.Length
    ensures i == Slot(dirs[..dn], name)
  {
    i := 0;
    while i < dn && !Leq(name, dirs[i])
      invariant i <= dn && forall k :: 0 <= k < i ==> !Leq(name, dirs[k])
    {
      i := i + 1;
    }
    SlotIs(dirs[..dn], name, i);
  }

  lemma SlotIs(s: seq<string>, x: string, i: nat)
    requires i <= |s| && (i < |s| ==> Leq(x, s[i])) && forall k :: 0 <= k < i ==> !Leq(x, s[k])
    ensures i == Slot(s, x)
  {
  }

  // ---------- Completion ----------

  const CHD_PATH_MAX := 256

  /** How many leading characters two names share. */
  function Agree(a: string, b: string): (n: nat)
    ensures n <= |a| && n <= |b| && a[..n] == b[..n]
    ensures n < |a| && n < |b| ==> a[n] != b[n]
  {
    if a != [] && b != [] && a[0] == b[0] then
      var n := 1 + Agree(a[1..], b[1..]);
      assert a[..n] == [a[0]] + a[1..][..n - 1] && b[..n] == [b[0]] + b[1..][..n - 1];
      n
    else 0
  }

  lemma AgreeAtLeast(a: string, b: string, i: nat)
    requires i <= |a|
    ensures Agree(a, b) >= i <==> a[..i] == Pre(b, i)
  {
    var n := Agree(a, b);
    if n >= i {
      assert a[..i] == a[..n][..i] == b[..n][..i] == b[..i];
    } else if i <= |b| {
      assert a[..i][n] == a[n] && b[..i][n] == b[n];
    }
  }

  /** The names from first to last are the ones that share the first i characters of dir. */
  predicate Exact(dir: string, dirs: seq<string>, first: nat, last: nat, i: nat) {
    first <= last < |dirs| && forall k :: 0 <= k < |dirs| ==> (Agree(dir, dirs[k]) >= i <==> first <= k <= last)
  }

  /** No name shares i characters, and none shares more than this one. */
  predicate Best(dir: string, dirs: seq<string>, first: nat, i: nat) {
    first < |dirs| && Agree(dir, dirs[first]) < i && forall k :: 0 <= k < |dirs| ==>
      Agree(dir, dirs[k]) <= Agree(dir, dirs[first])
  }

  predicate Narrowed(dir: string, dirs: seq<string>, first: nat, last: nat, i: nat) {
    Exact(dir, dirs, first, last, i) || (first == last && Best(dir, dirs, first, i))
  }

  /** Names between two that share what dir has, share it too. */
  lemma Between(dir: string, dirs: seq<string>, first: nat, last: nat, k: nat, i: nat)
    requires Sorted(dirs) && first <= k <= last < |dirs| && i <= |dir|
    requires Leq(dir[..i], Pre(dirs[first], i)) && Leq(Pre(dirs[last], i), dir[..i])
    ensures Agree(dir, dirs[k]) >= i
  {
    if first < k {
      PreLeq(dirs[first], dirs[k], i);
      LeqTrans(dir[..i], Pre(dirs[first], i), Pre(dirs[k], i));
    }
    if k < last {
      PreLeq(dirs[k], dirs[last], i);
      LeqTrans(Pre(dirs[k], i), Pre(dirs[last], i), dir[..i]);
    }
    LeqAntisym(dir[..i], Pre(dirs[k], i));
    AgreeAtLeast(dir, dirs[k], i);
  }

  lemma Apart(dir: string, name: string, i: nat)
    requires i <= |dir| && (!Leq(dir[..i], Pre(name, i)) || !Leq(Pre(name, i), dir[..i]))
    ensures Agree(dir, name) < i
  {
    AgreeAtLeast(dir, name, i);
    LeqRefl(dir[..i]);
  }

  /** One round of narrowing keeps exactly the names that share one character more, or a best one. */
  method Narrow(dir: string, dirs: seq<string>, first0: nat, last0: nat, i: nat) returns (first: nat, last: nat)
    requires Sorted(dirs) && 1 <= i <= |dir| && Narrowed(dir, dirs, first0, last0, i - 1)
    ensures Narrowed(dir, dirs, first, last, i)
  {
    hide Leq, Agree, Sorted;
    first, last := first0, last0;
    while first < last && !Leq(dir[..i], Pre(dirs[first], i))
      invariant first0 <= first <= last
      invariant forall k :: first0 <= k < first ==> Agree(dir, dirs[k]) < i
    {
      Apart(dir, dirs[first], i);
      first := first + 1;
    }
    while last > first && !Leq(Pre(dirs[last], i), dir[..i])
      invariant first <= last <= last0
      invariant forall k :: last < k <= last0 ==> Agree(dir, dirs[k]) < i
    {
      Apart(dir, dirs[last], i);
      last := last - 1;
    }
    if first < last {
      forall k | first <= k <= last
        ensures Agree(dir, dirs[k]) >= i
      {
        Between(dir, dirs, first, last, k, i);
      }
    }
  }

  /** The longest stretch of dir that some name begins with. */
  function Longest(dir: string, dirs: seq<string>): (n: nat)
    requires dirs != []
    ensures forall k :: 0 <= k < |dirs| ==> Agree(dir, dirs[k]) <= n
    ensures exists k :: 0 <= k < |dirs| && Agree(dir, dirs[k]) == n
  {
    var a := Agree(dir, dirs[0]);
    if |dirs| == 1 then a
    else
      var b := Longest(dir, dirs[1..]);
      assert forall k :: 0 < k < |dirs| ==> dirs[k] == dirs[1..][k - 1];
      assert exists k :: 0 <= k < |dirs| && Agree(dir, dirs[k]) == b by {
        var k :| 0 <= k < |dirs[1..]| && Agree(dir, dirs[1..][k]) == b;
        assert dirs[k + 1] == dirs[1..][k];
      }
      if a >= b then a else b
  }

  predicate NoMatch(dir: string, dirs: seq<string>) {
    forall k :: 0 <= k < |dirs| ==> !(dir <= dirs[k])
  }

  predicate OnlyMatch(dir: string, dirs: seq<string>, k: nat) {
    k < |dirs| && dir <= dirs[k] && forall j :: 0 <= j < |dirs| && dir <= dirs[j] ==> j == k
  }

  predicate Several(dir: string, dirs: seq<string>) {
    exists j, k :: 0 <= j < k < |dirs| && dir <= dirs[j] && dir <= dirs[k]
  }

  /** c is the longest text that all matches begin with. */
  ghost predicate LongestCommon(c: string, dir: string, dirs: seq<string>) {
    && (forall k :: 0 <= k < |dirs| && dir <= dirs[k] ==> c <= dirs[k])
    && forall d: string :: |d| > |c| ==> exists k :: 0 <= k < |dirs| && dir <= dirs[k] && !(d <= dirs[k])
  }

  /** The start of what follows the last '/'. */
  function NameStart(str: string): (n: nat)
    ensures n <= |str|
  {
    if str == [] then 0 else if str[|str| - 1] == '/' then |str| else NameStart(str[..|str| - 1])
  }

  /** strlcat into a buffer of CHD_PATH_MAX characters. */
  function StrLCat(s: string, t: string): string {
    if |s| >= CHD_PATH_MAX || |s + t| < CHD_PATH_MAX then if |s| >= CHD_PATH_MAX then s else s + t
    else (s + t)[..CHD_PATH_MAX - 1]
  }

  lemma Prefixes(dir: string, name: string)
    ensures Agree(dir, name) >= |dir| <==> dir <= name
  {
    AgreeAtLeast(dir, name, |dir|);
    assert dir[..|dir|] == dir;
  }

  /** The matches are the names from first to last. */
  predicate Range(dir: string, dirs: seq<string>, first: nat, last: nat) {
    first <= last < |dirs| && forall k :: 0 <= k < |dirs| ==> (dir <= dirs[k] <==> first <= k <= last)
  }

  /** Narrowing over all of dir leaves the matches, or one name that shares most with it. */
  method NarrowAll(dir: string, dirs: seq<string>) returns (first: nat, last: nat)
    requires dirs != [] && Sorted(dirs)
    ensures first <= last < |dirs|
    ensures Range(dir, dirs, first, last)
         || (first == last && NoMatch(dir, dirs) && Agree(dir, dirs[first]) == Longest(dir, dirs))
  {
    hide Sorted, Agree, Best, Longest;
    first, last := 0, |dirs| - 1;
    for i := 1 to |dir| + 1
      invariant Narrowed(dir, dirs, first, last, i - 1)
    {
      first, last := Narrow(dir, dirs, first, last, i);
    }
    forall k | 0 <= k < |dirs|
      ensures Agree(dir, dirs[k]) >= |dir| <==> dir <= dirs[k]
    {
      Prefixes(dir, dirs[k]);
    }
    if !Exact(dir, dirs, first, last, |dir|) {
      BestLongest(dir, dirs, first);
    }
  }

  lemma BestLongest(dir: string, dirs: seq<string>, k: nat)
    requires Best(dir, dirs, k, |dir|)
    ensures k < |dirs| && Agree(dir, dirs[k]) == Longest(dir, dirs)
    ensures forall j :: 0 <= j < |dirs| ==> Agree(dir, dirs[j]) < |dir|
  {
    var n := Longest(dir, dirs);
    var j :| 0 <= j < |dirs| && Agree(dir, dirs[j]) == n;
  }

  lemma Outcomes(dir: string, dirs: seq<string>, first: nat, last: nat)
    requires first <= last < |dirs|
    requires Range(dir, dirs, first, last) || (first == last && NoMatch(dir, dirs))
    ensures first < last ==> Range(dir, dirs, first, last) && Several(dir, dirs) && !NoMatch(dir, dirs)
    ensures first < last ==> forall k: nat :: !OnlyMatch(dir, dirs, k)
    ensures Range(dir, dirs, first, last) ==> !NoMatch(dir, dirs)
    ensures first == last ==> !Several(dir, dirs) && (NoMatch(dir, dirs) <==> !(dir <= dirs[first]))
    ensures first == last ==> forall k: nat :: OnlyMatch(dir, dirs, k) <==> k == first && dir <= dirs[first]
  {
    if Range(dir, dirs, first, last) {
      assert dir <= dirs[first] && dir <= dirs[last];
    }
  }

  method CompleteMatch(str: string, dirs: seq<string>) returns (r: int, completed: string)
    requires dirs != [] && Sorted(dirs) && Distinct(dirs)
    ensures var start := NameStart(str);
            var dir := str[start..];
            && (NoMatch(dir, dirs) ==> r == start + Longest(dir, dirs) && completed == str)
            && (forall k: nat :: OnlyMatch(dir, dirs, k) ==> r == -1 && completed == StrLCat(str, dirs[k][|dir|..]))
            && (Several(dir, dirs) ==>
                  && r == |completed| >= start && completed[..start] == str[..start]
                  && LongestCommon(completed[start..], dir, dirs))
  {
    hide Sorted, Distinct, LongestCommon, Longest, Agree, StrLCat, Range, Several, OnlyMatch, NoMatch;
    var start := NameStart(str);
    var dir := str[start..];
    var first, last := NarrowAll(dir, dirs);
    Outcomes(dir, dirs, first, last);
    if last == first {
      if dir <= dirs[last] {
        r, completed := -1, StrLCat(str, dirs[last][|dir|..]);
      } else {
        var i := AgreeUpTo(dir, dirs[first]);
        r, completed := start + i, str;
      }
    } else {
      var c := Common(dir, dirs, first, last);
      completed := str[..start] + c;
      assert completed[start..] == c && completed[..start] == str[..start];
      r := |completed|;
    }
  }

  method AgreeUpTo(dir: string, name: string) returns (i: nat)
    ensures i == Agree(dir, name)
  {
    i := 0;
    while i < |dir| && i < |name| && dir[i] == name[i]
      invariant i <= |dir| && i <= |name| && dir[..i] == name[..i]
    {
      i := i + 1;
    }
    AgreeIs(dir, name, i);
  }

  lemma AgreeIs(a: string, b: string, i: nat)
    requires i <= |a| && i <= |b| && a[..i] == b[..i] && (i < |a| && i < |b| ==> a[i] != b[i])
    ensures i == Agree(a, b)
  {
    var n := Agree(a, b);
    assert forall t :: 0 <= t < i ==> a[t] == a[..i][t] == b[..i][t] == b[t];
    assert forall t :: 0 <= t < n ==> a[t] == a[..n][t] == b[..n][t] == b[t];
  }

  /** What the first and the last match share. */
  method Common(dir: string, dirs: seq<string>, first: nat, last: nat) returns (c: string)
    requires Sorted(dirs) && Distinct(dirs) && first < last && Range(dir, dirs, first, last)
    ensures LongestCommon(c, dir, dirs)
  {
    hide Sorted, LongestCommon;
    var a, b := dirs[first], dirs[last];
    assert a != b && dir <= a && dir <= b;
    var i := |dir|;
    c := dir;
    while i < |a| && i < |b| && a[i] == b[i]
      invariant |dir| <= i <= |a| && i <= |b| && c == a[..i] == b[..i]
    {
      c := c + [a[i]];
      i := i + 1;
    }
    CommonIs(c, dir, dirs, first, last);
  }

  lemma CommonIs(c: string, dir: string, dirs: seq<string>, first: nat, last: nat)
    requires Sorted(dirs) && first < last && Range(dir, dirs, first, last) && c <= dirs[first] && c <= dirs[last]
    requires |c| == |dirs[first]| || |c| == |dirs[last]| || dirs[first][|c|] != dirs[last][|c|]
    ensures LongestCommon(c, dir, dirs)
  {
    hide Sorted;
    forall k | 0 <= k < |dirs| && dir <= dirs[k]
      ensures c <= dirs[k]
    {
      SharedBetween(c, dirs, first, last, k);
    }
    forall d: string | |d| > |c|
      ensures exists k :: 0 <= k < |dirs| && dir <= dirs[k] && !(d <= dirs[k])
    {
      NotBoth(c, d, dirs[first], dirs[last]);
      assert dir <= dirs[first] && dir <= dirs[last];
    }
  }

  lemma SharedBetween(c: string, dirs: seq<string>, first: nat, last: nat, k: nat)
    requires Sorted(dirs) && first <= k <= last < |dirs| && c <= dirs[first] && c <= dirs[last]
    ensures c <= dirs[k]
  {
    hide Sorted, Agree, Leq;
    LeqRefl(c);
    assert c[..|c|] == c && Pre(dirs[first], |c|) == c && Pre(dirs[last], |c|) == c;
    Between(c, dirs, first, last, k, |c|);
    Prefixes(c, dirs[k]);
  }

  lemma NotBoth(c: string, d: string, a: string, b: string)
    requires c <= a && c <= b && |d| > |c| && (|c| == |a| || |c| == |b| || a[|c|] != b[|c|])
    ensures !(d <= a) || !(d <= b)
  {
  }

  /** Of no match, one and several, exactly one is the case. */
  lemma OneOutcome(dir: string, dirs: seq<string>)
    ensures NoMatch(dir, dirs) || Several(dir, dirs) || exists k: nat :: OnlyMatch(dir, dirs, k)
    ensures !(NoMatch(dir, dirs) && Several(dir, dirs))
    ensures forall k: nat :: OnlyMatch(dir, dirs, k) ==> !NoMatch(dir, dirs) && !Several(dir, dirs)
  {
    if !NoMatch(dir, dirs) && !Several(dir, dirs) {
      var k: nat :| k < |dirs| && dir <= dirs[k];
      assert OnlyMatch(dir, dirs, k);
    }
  }

  /** A completed name that fits the buffer is the full name. */
  lemma FullName(path: string, dir: string, name: string)
    requires dir <= name && |path| + |name| < CHD_PATH_MAX
    ensures StrLCat(path + dir, name[|dir|..]) == path + name
  {
    Joined(path, dir, name[|dir|..], name);
  }

  /** One that does not fit is cut at the end of the buffer. */
  lemma CutName(s: string, t: string)
    requires |s| < CHD_PATH_MAX
    ensures var r := StrLCat(s, t);
            r <= s + t && |r| == if |s| + |t| < CHD_PATH_MAX then |s| + |t| else CHD_PATH_MAX - 1
  {
  }

  lemma Joined(path: string, dir: string, rest: string, name: string)
    requires dir <= name && rest == name[|dir|..]
    ensures path + dir + rest == path + name
  {
    assert name == dir + rest;
  }

  /** Different entries give different names. */
  lemma {:induction false} SortedDistinct(names: seq<string>)
    requires Distinct(names)
    ensures Distinct(SortedDir(names)) && forall x :: x in SortedDir(names) ==> x in names
  {
    if names != [] {
      var s, x := names[..|names| - 1], names[|names| - 1];
      SortedDistinct(s);
      assert names == s + [x] && x !in s;
      InsertedDistinct(SortedDir(s), x);
    }
  }

  lemma InsertedDistinct(s: seq<string>, x: string)
    requires Distinct(s) && x !in s
    ensures Distinct(Inserted(s, x)) && forall y :: y in Inserted(s, x) ==> y == x || y in s
  {
    hide Slot;
    var n, r := Slot(s, x), Inserted(s, x);
    forall i, j | 0 <= i < j < |r|
      ensures r[i] != r[j]
    {
      var a, b := if i < n then i else i - 1, if j < n then j else j - 1;
      assert i != n ==> r[i] == s[a];
      assert j != n ==> r[j] == s[b];
    }
  }
}
