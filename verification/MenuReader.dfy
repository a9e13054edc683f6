/** StringToMenu on its buffer: newlines are overwritten as lines are taken, ids are counted by a static,
    and the recursion starts again at the line it was called for. */
module MenuReader {
  import opened Outline

  class MenuReader {
    const text: array<char>
    var id: int

    constructor (text: array<char>, id: int)
      ensures this.text == text && this.id == id
    {
      this.text, this.id := text, id;
    }

    /** From p on the buffer still holds the text s and its terminator. */
    ghost predicate Holds(s: string, p: nat)
      reads text
    {
      '\0' !in s && p <= |s| < text.Length && text[|s|] == '\0' && text[p..|s|] == s[p..]
    }

    lemma HoldsFrom(s: string, p: nat, q: nat)
      requires Holds(s, p) && p <= q <= |s|
      ensures Holds(s, q) && (q < |s| ==> text[q] == s[q] != '\0')
    {
      assert text[q..|s|] == text[p..|s|][q - p..] == s[p..][q - p..] == s[q..];
      if q < |s| {
        assert text[q] == text[q..|s|][0] == s[q];
      }
    }

    lemma HoldsEach(s: string, p: nat)
      requires Holds(s, p)
      ensures forall k :: p <= k < |s| ==> text[k] == s[k] != '\0'
    {
      forall k | p <= k < |s|
        ensures text[k] == s[k] != '\0'
      {
        assert text[k] == text[p..|s|][k - p] == s[p..][k - p];
      }
    }

    /** strchr for a newline; the terminator if there is none. */
    method LineEndAt(p: nat, ghost s: string) returns (e: nat)
      requires Holds(s, p)
      ensures e == LineEnd(s, p)
    {
      e := p;
      HoldsFrom(s, p, e);
      while text[e] != '\0' && text[e] != '\n'
        invariant p <= e <= |s| && LineEnd(s, e) == LineEnd(s, p)
        invariant Holds(s, e) && (e < |s| ==> text[e] == s[e] != '\0')
        decreases |s| - e
      {
        HoldsFrom(s, e, e + 1);
        e := e + 1;
      }
    }

    method DepthAt(p: nat, ghost s: string) returns (d: nat)
      requires Holds(s, p)
      ensures d == Depth(s, p)
    {
      d := 0;
      HoldsFrom(s, p, p);
      while text[p + d] != '\0' && IsSpace(text[p + d])
        invariant p + d <= |s| && d + Depth(s, p + d) == Depth(s, p)
        invariant Holds(s, p + d) && (p + d < |s| ==> text[p + d] == s[p + d] != '\0')
        decreases |s| - p - d
      {
        HoldsFrom(s, p + d, p + d + 1);
        d := d + 1;
      }
    }

    /** The start of the next line. */
    method NextLineAt(p: nat, ghost s: string) returns (q: nat)
      requires Holds(s, p) && p < |s|
      ensures q == NextLine(s, p) && Holds(s, q)
    {
      var e := LineEndAt(p, s);
      HoldsFrom(s, p, e);
      q := if text[e] == '\n' then e + 1 else e;
      HoldsFrom(s, p, q);
    }

    /** The first line from p on that is not deeper than top. */
    method SkipDeeperAt(p: nat, top: nat, ghost s: string) returns (q: nat)
      requires Holds(s, p)
      ensures q == SkipDeeper(s, p, top)
    {
      hide Holds, Depth, NextLine;
      q := p;
      var d := DepthAt(q, s);
      while d > top
        invariant q <= |s| && Holds(s, q) && d == Depth(s, q) && SkipDeeper(s, q, top) == SkipDeeper(s, p, top)
        decreases |s| - q
      {
        q := NextLineAt(q, s);
        d := DepthAt(q, s);
      }
    }

    /** strdup: up to the next terminator. */
    method StrDup(p: nat, ghost end: nat) returns (str: string)
      requires p <= end < text.Length && text[end] == '\0' && forall k :: p <= k < end ==> text[k] != '\0'
      ensures str == text[p..end]
    {
      str := "";
      var i := p;
      while text[i] != '\0'
        invariant p <= i <= end && str == text[p..i]
        decreases end - i
      {
        str := str + [text[i]];
        i := i + 1;
      }
    }

    /** Overwrite the newline of the line at p, if it has one. */
    method CutLine(p: nat, ghost s: string) returns (e: nat, q: nat)
      requires Holds(s, p) && p < |s|
      modifies text
      ensures e == LineEnd(s, p) && q == NextLine(s, p) && Holds(s, q) && text[e] == '\0'
      ensures forall k :: p <= k < |s| && k != e ==> text[k] == s[k] != '\0'
    {
      e := LineEndAt(p, s);
      HoldsEach(s, p);
      q := e;
      if text[e] == '\n' {
        text[e] := '\0';
        q := e + 1;
      }
      assert text[q..|s|] == s[q..];
    }

    /** Cut off the line at p; its label, and the start of the next line. */
    method TakeLine(p: nat, top: nat, ghost s: string) returns (str: string, q: nat)
      requires Holds(s, p) && p < |s| && p + top <= |s|
      modifies text
      ensures str == LabelAt(s, p, top) && q == NextLine(s, p) && Holds(s, q)
    {
      hide LineEnd;
      var e;
      e, q := CutLine(p, s);
      ghost var end := if p + top <= e then e else |s|;
      str := StrDup(p + top, end);
      assert str == s[p + top..end];
    }

    /** The lines from p0 on that are at least top deep, as items of parent. The buffer after them, and the
        line that ends them, is untouched. */
    method Items(p0: nat, top: nat, parent0: Menu, ghost s: string) returns (parent: Menu, p: nat)
      requires Holds(s, p0) && top <= |s| && (parent0.items == [] ==> p0 < |s| ==> Depth(s, p0) <= top)
      modifies text, `id
      ensures Parsed(parent, id, p) == Outline.Items(s, p0, top, parent0, old(id))
      ensures Holds(s, p)
      decreases |s| - p0, |s| - top
    {
      hide Holds, LabelAt, NextLine, Depth;
      parent, p := parent0, p0;
      while true
        invariant p0 <= p <= |s| && Holds(s, p) && (parent.items == [] ==> p < |s| ==> Depth(s, p) <= top)
        invariant Outline.Items(s, p, top, parent, id) == Outline.Items(s, p0, top, parent0, old(id))
        decreases |s| - p
      {
        var end := AtEnd(p, s);
        if end { return; }
        var level := DepthAt(p, s);
        if level < top { return; }
        if level > top {
          var q := SkipDeeperAt(p, top, s);
          var last := parent.items[|parent.items| - 1];
          SubItems(s, p, q, top, last, id);
          var child, r := Items(p, level, last, s);
          HoldsFrom(s, r, q);
          parent := ReplaceLast(parent, child);
          p := q;
        } else {
          var i := id;
          var str, q := TakeLine(p, top, s);
          parent := parent.(items := parent.items + [Menu(str, i, [])]);
          id := id + 1;
          p := q;
        }
      }
    }

    method AtEnd(p: nat, ghost s: string) returns (end: bool)
      requires Holds(s, p)
      ensures end <==> p == |s|
    {
      HoldsFrom(s, p, p);
      end := text[p] == '\0';
    }

    lemma SubItems(s: string, p: nat, q: nat, top: nat, child: Menu, i: int)
      requires p < |s| && Depth(s, p) > top && q == SkipDeeper(s, p, top)
      ensures p < q && Outline.Items(s, p, Depth(s, p), child, i).at <= q
    {
      SkipReaches(s, p, top);
      ReachesAfter(s, NextLine(s, p), q);
      ItemsStopBefore(s, p, Depth(s, p), child, i, q);
    }

    /** The menu of a whole text. A nonzero idval starts the ids anew. */
    method StringToMenu(idval: int, ghost s: string) returns (root: Menu)
      requires Holds(s, 0)
      modifies text, `id
      ensures var first := if idval != 0 then idval else old(id);
              var r := Parse(s, first);
              root == r.menu && id == r.id && Holds(s, r.at)
    {
      hide LabelAt, Depth, Holds;
      if idval != 0 { id := idval; }
      var end := AtEnd(0, s);
      var str, q := "", 0;
      if !end {
        str, q := TakeLine(0, 0, s);
        RootLabel(s);
      }
      root := Menu(str, id, []);
      id := id + 1;
      end := AtEnd(q, s);
      if !end {
        var top := DepthAt(q, s);
        root, q := Items(q, top, root, s);
      }
    }
  }

  lemma RootLabel(s: string)
    ensures LabelAt(s, 0, 0) == s[..LineEnd(s, 0)]
  {
  }

  /** A text's outline, put into a buffer and read, is the menu again. */
  method Reread(m: Menu, idval: int) returns (root: Menu)
    requires MenuOk(m) && idval != 0
    ensures root == Numbered(m, idval)
  {
    hide Outlined, Numbered, Parse;
    ghost var s := Outlined(m, 0);
    OutlinedOne(m);
    var text := Buffer(m);
    var reader := new MenuReader(text, 0);
    assert text[0..|s|] == s[0..];
    root := reader.StringToMenu(idval, s);
    OutlineThenParse(m, idval);
  }

  lemma OutlinedOne(m: Menu)
    requires MenuOk(m)
    ensures '\0' !in Outlined(m, 0)
  {
    OutlinedClean([m], 0);
    assert OutlinedAll([m], 0) == Outlined(m, 0) + OutlinedAll([m][1..], 0);
  }

  method Buffer(m: Menu) returns (text: array<char>)
    ensures var s := Outlined(m, 0);
            fresh(text) && text.Length == |s| + 1 && text[..|s|] == s && text[|s|] == '\0'
  {
    var s := Outlined(m, 0);
    text := new char[|s| + 1](i => if 0 <= i < |s| then s[i] else '\0');
  }
}
