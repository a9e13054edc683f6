/** The wildcard comparison of labels. */
module Wildcard {

  datatype Option<+T> = None | Some(value: T)

  // ---------- What a pattern means ----------

  /** The usual reading: each '*' of p stands for any text. */
  ghost predicate Glob(p: string, t: string)
    decreases |p| + |t|
  {
    if p == [] then t == []
    else if p[0] == '*' then Glob(p[1..], t) || (t != [] && Glob(p, t[1..]))
    else t != [] && t[0] == p[0] && Glob(p[1..], t[1..])
  }

  /** t is some text followed by a match of p. */
  ghost predicate GlobSuffix(p: string, t: string) {
    Glob("*" + p, t)
  }

  predicate StarFree(s: string) {
    '*' !in s
  }

  predicate OccursAt(c: string, t: string, i: nat) {
    i + |c| <= |t| && t[i..i + |c|] == c
  }

  lemma {:induction false} GlobStar(p: string, t: string)
    requires p != [] && p[0] == '*'
    ensures Glob(p, t) <==> exists i :: 0 <= i <= |t| && Glob(p[1..], t[i..])
    decreases |t|
  {
    assert t[0..] == t;
    if t != [] {
      GlobStar(p, t[1..]);
      if i :| 0 <= i <= |t[1..]| && Glob(p[1..], t[1..][i..]) {
        assert t[1..][i..] == t[i + 1..];
      }
      if i :| 0 <= i <= |t| && Glob(p[1..], t[i..]) {
        if i > 0 {
          assert t[1..][i - 1..] == t[i..];
        }
      }
    }
  }

  lemma {:induction false} GlobChunk(c: string, p: string, t: string)
    requires StarFree(c)
    ensures Glob(c + p, t) <==> OccursAt(c, t, 0) && Glob(p, t[|c|..])
  {
    if c == [] {
      assert c + p == p && t[0..] == t;
    } else {
      assert (c + p)[0] == c[0] && (c + p)[1..] == c[1..] + p;
      if t != [] {
        GlobChunk(c[1..], p, t[1..]);
        if t[0] == c[0] && |c| <= |t| {
          assert t[1..][|c[1..]|..] == t[|c|..];
          assert t[..|c|] == [t[0]] + t[1..][..|c| - 1];
          assert OccursAt(c, t, 0) <==> OccursAt(c[1..], t[1..], 0);
        }
      }
    }
  }

  /** A leading '*' absorbs another one. */
  lemma GlobTwoStars(p: string, t: string)
    requires p != [] && p[0] == '*'
    ensures GlobSuffix(p, t) <==> Glob(p, t)
    ensures GlobSuffix(p, t) <==> GlobSuffix(p[1..], t)
  {
    var q := "*" + p;
    assert q[1..] == p && "*" + p[1..] == p;
    GlobStar(q, t);
    GlobStar(p, t);
    if i :| 0 <= i <= |t| && Glob(p, t[i..]) {
      GlobStar(p, t[i..]);
      var j :| 0 <= j <= |t[i..]| && Glob(p[1..], t[i..][j..]);
      assert t[i..][j..] == t[i + j..];
    }
    assert t[0..] == t;
  }

  lemma ChunkAt(c: string, p: string, t: string, i: nat)
    requires StarFree(c) && i <= |t|
    ensures Glob(c + p, t[i..]) <==> OccursAt(c, t, i) && Glob(p, t[i + |c|..])
  {
    GlobChunk(c, p, t[i..]);
    if i + |c| <= |t| {
      assert t[i..][|c|..] == t[i + |c|..] && t[i..][..|c|] == t[i..i + |c|];
    }
  }

  /** t ends in a match of c followed by p exactly when some occurrence of c is followed by a match of p. */
  lemma ChunkSearch(c: string, p: string, t: string)
    requires StarFree(c)
    ensures GlobSuffix(c + p, t) <==> exists i :: 0 <= i <= |t| && OccursAt(c, t, i) && Glob(p, t[i + |c|..])
  {
    hide Glob;
    var q := "*" + (c + p);
    assert q[1..] == c + p;
    GlobStar(q, t);
    if GlobSuffix(c + p, t) {
      var i :| 0 <= i <= |t| && Glob(q[1..], t[i..]);
      ChunkAt(c, p, t, i);
    }
    if i :| 0 <= i <= |t| && OccursAt(c, t, i) && Glob(p, t[i + |c|..]) {
      ChunkAt(c, p, t, i);
      assert Glob(q[1..], t[i..]);
    }
  }

  /** The leftmost occurrence is enough when more wildcards follow: skipping text never loses a match. */
  lemma LeftmostSuffices(c: string, p: string, t: string, k: nat)
    requires StarFree(c) && p != [] && p[0] == '*'
    requires OccursAt(c, t, k) && forall i: nat :: i < k ==> !OccursAt(c, t, i)
    ensures GlobSuffix(c + p, t) <==> GlobSuffix(p, t[k + |c|..])
  {
    ChunkSearch(c, p, t);
    var u := t[k + |c|..];
    GlobTwoStars(p, u);
    if i :| 0 <= i <= |t| && OccursAt(c, t, i) && Glob(p, t[i + |c|..]) {
      assert t[i + |c|..] == u[i - k..];
      GlobStar("*" + p, u);
      assert ("*" + p)[1..] == p;
    }
  }

  // ---------- The comparison ----------

  function StripLeading(s: string, c: char): string {
    if s != [] && s[0] == c then StripLeading(s[1..], c) else s
  }

  function StripTrailing(s: string, c: char): string {
    if s != [] && s[|s| - 1] == c then StripTrailing(s[..|s| - 1], c) else s
  }

  /** A text that starts with a quote loses its quotes, and then its outer blanks. */
  function Unquote(s: string): string {
    if s != [] && (s[0] == '\'' || s[0] == '"') then
      StripTrailing(StripLeading(StripTrailing(StripLeading(s, s[0]), s[0]), ' '), ' ')
    else s
  }

  function Copies(c: char, n: nat): string {
    seq(n, _ => c)
  }

  predicate Bare(s: string, c: char) {
    s == [] || (s[0] != c && s[|s| - 1] != c)
  }

  lemma {:induction false} LeadingOff(c: char, n: nat, s: string)
    requires s == [] || s[0] != c
    ensures StripLeading(Copies(c, n) + s, c) == s
  {
    var t := Copies(c, n) + s;
    if n > 0 {
      assert t[1..] == Copies(c, n - 1) + s;
      LeadingOff(c, n - 1, s);
    } else {
      assert t == s;
    }
  }

  lemma {:induction false} TrailingOff(c: char, n: nat, s: string)
    requires s == [] || s[|s| - 1] != c
    ensures StripTrailing(s + Copies(c, n), c) == s
  {
    var t := s + Copies(c, n);
    if n > 0 {
      assert t[..|t| - 1] == s + Copies(c, n - 1);
      TrailingOff(c, n - 1, s);
    } else {
      assert t == s;
    }
  }

  lemma BothOff(c: char, m: nat, s: string, n: nat)
    requires Bare(s, c)
    ensures StripTrailing(StripLeading(Copies(c, m) + s + Copies(c, n), c), c) == s
  {
    var t := Copies(c, m) + (s + Copies(c, n));
    assert Copies(c, m) + s + Copies(c, n) == t;
    if s == [] {
      assert t == Copies(c, m + n) + [];
      LeadingOff(c, m + n, []);
    } else {
      LeadingOff(c, m, s + Copies(c, n));
      TrailingOff(c, n, s);
    }
  }

  /** A quoted text stands for what is between its quotes, without outer blanks, and any other text for itself. */
  lemma Unquoted(q: char, m: nat, a: nat, s: string, b: nat, n: nat)
    requires (q == '\'' || q == '"') && Bare(s, ' ') && Bare(Copies(' ', a) + s + Copies(' ', b), q)
    ensures m > 0 ==> Unquote(Copies(q, m) + (Copies(' ', a) + s + Copies(' ', b)) + Copies(q, n)) == s
    ensures s == [] || (s[0] != '\'' && s[0] != '"') ==> Unquote(s) == s
  {
    var inner := Copies(' ', a) + s + Copies(' ', b);
    if m > 0 {
      assert (Copies(q, m) + inner + Copies(q, n))[0] == q;
      BothOff(q, m, inner, n);
      BothOff(' ', a, s, b);
    }
  }

  /** strstr: the leftmost occurrence of c in t. */
  method Find(c: string, t: string) returns (k: Option<nat>)
    ensures k.Some? ==> OccursAt(c, t, k.value) && forall i: nat :: i < k.value ==> !OccursAt(c, t, i)
    ensures k.None? ==> forall i: nat :: !OccursAt(c, t, i)
  {
    var i := 0;
    while i + |c| <= |t|
      invariant forall j: nat :: j < i ==> !OccursAt(c, t, j)
      decreases |t| - i
    {
      if t[i..i + |c|] == c {
        return Some(i);
      }
      i := i + 1;
    }
    k := None;
  }

  /** What OdlWildCardCompare decides for an unquoted pattern and text. A pattern without '*' is compared
      literally. Otherwise the pattern may start anywhere in the text. A pattern that ends in '*' is
      matched exactly so; for any other the text must in addition be the shortest of its own prefixes
      that match, because the last chunk is only tried at its leftmost place. */
  ghost predicate Accepts(p: string, t: string) {
    if '*' !in p then t == p
    else if p[|p| - 1] == '*' then GlobSuffix(p, t)
    else GlobSuffix(p, t) && forall e :: 0 <= e < |t| ==> !GlobSuffix(p, t[..e])
  }

  /** Where the search stands: s is what is left of the pattern, to be found from a on. A prefix of the
      text matches the whole pattern exactly when what it has past a matches the rest. */
  ghost predicate Reduced(p: string, t: string, s: string, a: nat) {
    && a <= |t|
    && forall e :: 0 <= e <= |t| ==> (GlobSuffix(p, t[..e]) <==> e >= a && GlobSuffix(s, t[a..e]))
  }

  lemma ReducedStart(p: string, t: string)
    ensures Reduced(p, t, p, 0)
  {
    forall e | 0 <= e <= |t|
      ensures t[0..e] == t[..e]
    {
    }
  }

  lemma ReducedStar(p: string, t: string, s: string, a: nat)
    requires Reduced(p, t, s, a) && s != [] && s[0] == '*'
    ensures Reduced(p, t, s[1..], a)
  {
    forall e | a <= e <= |t|
      ensures GlobSuffix(s, t[a..e]) <==> GlobSuffix(s[1..], t[a..e])
    {
      GlobTwoStars(s, t[a..e]);
    }
  }

  lemma ReducedChunk(p: string, t: string, c: string, s: string, a: nat, k: nat)
    requires Reduced(p, t, c + s, a) && StarFree(c) && s != [] && s[0] == '*'
    requires OccursAt(c, t[a..], k) && forall i: nat :: i < k ==> !OccursAt(c, t[a..], i)
    ensures Reduced(p, t, s, a + k + |c|)
  {
    var a' := a + k + |c|;
    forall e | 0 <= e <= |t|
      ensures GlobSuffix(p, t[..e]) <==> e >= a' && GlobSuffix(s, t[a'..e])
    {
      if a <= e {
        var u := t[a..e];
        OccursWithin(c, t[a..], e - a);
        assert t[a..][..e - a] == u;
        if e >= a' {
          assert u[k + |c|..] == t[a'..e];
          LeftmostSuffices(c, s, u, k);
        } else {
          ChunkSearch(c, s, u);
        }
      }
    }
  }

  lemma OccursWithin(c: string, u: string, e: nat)
    requires e <= |u|
    ensures forall i: nat :: OccursAt(c, u[..e], i) <==> OccursAt(c, u, i) && i + |c| <= e
  {
    forall i: nat
      ensures OccursAt(c, u[..e], i) <==> OccursAt(c, u, i) && i + |c| <= e
    {
      if i + |c| <= e {
        assert u[..e][i..i + |c|] == u[i..i + |c|];
      }
    }
  }

  /** The last chunk: the prefixes that match are those that end with one of its occurrences. */
  lemma ReducedLast(p: string, t: string, c: string, a: nat, e: nat)
    requires Reduced(p, t, c, a) && StarFree(c) && e <= |t|
    ensures GlobSuffix(p, t[..e]) <==> e >= a + |c| && OccursAt(c, t[a..], e - a - |c|)
  {
    if e >= a {
      var u := t[a..e];
      assert c + [] == c;
      ChunkSearch(c, [], u);
      OccursWithin(c, t[a..], e - a);
      assert t[a..][..e - a] == u;
      if e >= a + |c| && OccursAt(c, u, |u| - |c|) {
        assert Glob([], u[|u| - |c| + |c|..]);
      }
    }
  }

  /** A pattern used up by its final stars accepts the text, whatever is left of it. */
  lemma EndsInStars(p: string, t: string, a: nat)
    requires Reduced(p, t, [], a) && '*' in p && p[|p| - 1] == '*'
    ensures Accepts(p, t)
  {
    var u := t[a..];
    GlobStar("*", u);
    assert "*" + [] == "*" && Glob([], u[|u|..]);
    assert t[..|t|] == t;
  }

  lemma NotFound(p: string, t: string, c: string, s: string, a: nat)
    requires Reduced(p, t, c + s, a) && StarFree(c) && '*' in p && (s != [] ==> s[0] == '*')
    requires forall i: nat :: !OccursAt(c, t[a..], i)
    ensures !Accepts(p, t)
  {
    assert t[..|t|] == t;
    ChunkSearch(c, s, t[a..]);
  }

  /** The last chunk is found leftmost: right exactly when that uses up the text. */
  lemma LastChunk(p: string, t: string, c: string, a: nat, k: nat)
    requires Reduced(p, t, c, a) && StarFree(c) && '*' in p && p[|p| - 1] != '*'
    requires OccursAt(c, t[a..], k) && forall i: nat :: i < k ==> !OccursAt(c, t[a..], i)
    ensures Accepts(p, t) <==> a + k + |c| == |t|
  {
    assert t[..|t|] == t;
    forall e | 0 <= e <= |t|
      ensures GlobSuffix(p, t[..e]) <==> e >= a + |c| && OccursAt(c, t[a..], e - a - |c|)
    {
      ReducedLast(p, t, c, a, e);
    }
    assert GlobSuffix(p, t[..a + k + |c|]);
  }

  method WildCardCompare(pattern: string, text: string) returns (r: bool)
    ensures r <==> Accepts(Unquote(pattern), Unquote(text))
  {
    hide Reduced, Accepts, Glob, OccursAt;
    var p, t := Unquote(pattern), Unquote(text);
    if '*' !in p {
      return Literal(p, t);
    }
    ReducedStart(p, t);
    var s, a := p, 0;
    while true
      invariant |s| <= |p| && p[|p| - |s|..] == s && 0 <= a <= |t|
      invariant if s == [] then Accepts(p, t) else Reduced(p, t, s, a)
      decreases |s|
    {
      while s != [] && s[0] == '*'
        invariant |s| <= |p| && p[|p| - |s|..] == s && 0 <= a <= |t|
        invariant if s == [] then Accepts(p, t) else Reduced(p, t, s, a)
        decreases |s|
      {
        ReducedStar(p, t, s, a);
        if |s| == 1 {
          assert p[|p| - 1] == s[0] && s[1..] == [];
          EndsInStars(p, t, a);
        }
        s := s[1..];
      }
      if s == [] {
        return true;
      }
      var n := 0;
      while n < |s| && s[n] != '*'
        invariant n <= |s| && StarFree(s[..n]) && (n == 0 ==> s[0] != '*')
      {
        n := n + 1;
      }
      var c, rest := s[..n], s[n..];
      assert s == c + rest;
      var k := Find(c, t[a..]);
      if k.None? {
        NotFound(p, t, c, rest, a);
        return false;
      }
      FoundWithin(c, t, a, k.value);
      if rest == [] {
        assert c == s && p[|p| - 1] == s[|s| - 1] == c[|c| - 1];
        LastChunk(p, t, c, a, k.value);
      } else {
        ReducedChunk(p, t, c, rest, a, k.value);
      }
      s := rest;
      a := a + k.value + |c|;
      if s == [] && a != |t| {
        return false;
      }
    }
  }

  lemma FoundWithin(c: string, t: string, a: nat, k: nat)
    requires a <= |t| && OccursAt(c, t[a..], k)
    ensures a + k + |c| <= |t|
  {
  }

  function Literal(p: string, t: string): (r: bool)
    requires '*' !in p
    ensures r <==> Accepts(p, t)
  {
    t == p
  }

  /** The shortest-prefix condition matters: "*a" glob-matches "aa", but its only chunk is tried at the
      first 'a' alone, so the comparison fails. */
  lemma LeftmostCanMiss()
    ensures Glob("*a", "aa") && !Accepts("*a", "aa")
  {
    var p, t := "*a", "aa";
    assert Glob("a", "a") && Glob("*a", "a") by {
      assert "a"[1..] == [];
    }
    assert p[1..] == "a" && t[1..] == "a" && t[..1] == "a";
    assert ("*" + p)[1..] == p;
    assert GlobSuffix(p, t[..1]);
  }
}
