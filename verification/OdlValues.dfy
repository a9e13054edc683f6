/** Values of one line and of several. */
module OdlValues {
  import opened Labels
  import opened OdlLabel

  /** The characters of a value: printable lines without blanks at their ends and without comments. */
  predicate Lined(v: string) {
    && v != [] && Graphic(v[0]) && Graphic(v[|v| - 1])
    && (forall i :: 0 <= i < |v| ==> Printable(v[i]) || v[i] == '\n')
    && (forall i :: 0 <= i < |v| - 1 ==> !(v[i] == ' ' && v[i + 1] == '\n'))
    && (forall i, j :: 0 <= i <= j <= |v| && LineStarts(v, i) && '\n' !in v[i..j] ==> NoComment(v[i..j]))
  }

  /** A value of one line has to be balanced and must not end in '='. */
  lemma OneLine(v: string)
    requires Lined(v) && '\n' !in v
    ensures ValueOk(v) <==> v[|v| - 1] != '=' && Balanced(v)
  {
    hide Balanced, NoComment, Begun;
    assert v[..|v|] == v && forall k :: 0 <= k < |v| ==> v[k] != '\n';
    BegunFirst(v, |v|);
    assert Settles(v, |v|) <==> v[|v| - 1] != '=' && Balanced(v);
    assert LineEnds(v, |v|);
  }

  /** A quoted text may have any number of lines. */
  lemma Quoted(v: string)
    requires Lined(v) && |v| >= 2 && v[0] == '"' && v[|v| - 1] == '"' && '"' !in v[1..|v| - 1]
    ensures ValueOk(v)
  {
    hide Balanced, NoComment, Begun;
    assert v == v[..|v| - 1] + ['"'];
    CountAppend('"', v[..|v| - 1], ['"']);
    OpenQuote(v, |v| - 1);
    QuoteBalance(v);
    assert v[..|v|] == v && LineEnds(v, |v|);
    BegunAt(v, |v|);
    BegunNone(v);
    forall k | 0 <= k <= |v| && LineEnds(v, k)
      ensures Settles(v, k) <==> k == |v|
    {
      if 0 < k < |v| {
        OpenQuote(v, k);
        QuoteBalance(v[..k]);
      }
    }
  }

  lemma OpenQuote(v: string, k: nat)
    requires |v| >= 2 && 0 < k < |v| && v[0] == '"' && '"' !in v[1..|v| - 1]
    ensures CountOf('"', v[..k]) == 1
  {
    assert v[..k] == ['"'] + v[1..k];
    assert forall i :: 0 <= i < |v[1..k]| ==> v[1..k][i] == v[1..|v| - 1][i];
    NoQuotes(v[1..k]);
    CountAppend('"', ['"'], v[1..k]);
  }

  lemma QuoteBalance(w: string)
    requires w != [] && w[0] == '"'
    ensures Balanced(w) <==> CountOf('"', w) % 2 == 0
  {
  }

  lemma BegunAt(v: string, k: nat)
    requires 0 < k <= |v| && LineEnds(v, k) && v[k - 1] != '='
    ensures Begun(v, k)
  {
  }

  lemma BegunNone(v: string)
    ensures !Begun(v, 0)
  {
  }

  /** A list may go on over lines until its braces and parentheses close. */
  lemma Listed(v: string)
    requires Lined(v) && v[0] in "{(" && v[|v| - 1] in "})" && Depth(v) == 0
    requires forall k :: 0 < k < |v| && v[k] == '\n' ==> Depth(v[..k]) != 0
    ensures ValueOk(v)
  {
    hide NoComment, Begun, Nesting;
    forall k | 0 <= k <= |v| && LineEnds(v, k)
      ensures Settles(v, k) <==> k == |v|
    {
      assert v[..|v|] == v;
      if k > 0 {
        ListBalance(v[..k]);
      }
      if k == |v| {
        BegunAt(v, k);
      }
      BegunNone(v);
    }
  }

  function Depth(w: string): int {
    Nesting(w, '{', '}') + Nesting(w, '(', ')')
  }

  lemma ListBalance(w: string)
    requires w != [] && w[0] in "{("
    ensures Balanced(w) <==> Depth(w) == 0
  {
  }
}
