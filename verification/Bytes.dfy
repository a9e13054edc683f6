/** Bytes, and sequences put together from equal pieces. */
module Bytes {
  newtype Byte = x: int | 0 <= x < 256

  function Zeros(n: nat): (s: seq<Byte>)
    ensures |s| == n
  {
    seq(n, _ => 0)
  }

  /** The pieces f(0), ..., f(n - 1) one after another. */
  function Gather<T>(n: nat, f: nat -> seq<T>): seq<T> {
    if n == 0 then [] else Gather(n - 1, f) + f(n - 1)
  }

  lemma {:induction false} GatherLength<T>(n: nat, f: nat -> seq<T>, m: nat)
    requires forall i: nat :: i < n ==> |f(i)| == m
    ensures |Gather(n, f)| == n * m
  {
    if n > 0 {
      GatherLength(n - 1, f, m);
      assert n * m == (n - 1) * m + m;
    }
  }

  /** Piece i starts at i times the length of a piece. */
  lemma {:induction false} GatherAt<T>(n: nat, f: nat -> seq<T>, m: nat, i: nat)
    requires (forall i: nat :: i < n ==> |f(i)| == m) && i < n
    ensures 0 <= i * m <= i * m + m <= |Gather(n, f)| && Gather(n, f)[i * m..i * m + m] == f(i)
  {
    GatherLength(n - 1, f, m);
    if i < n - 1 {
      GatherAt(n - 1, f, m, i);
    }
  }

  lemma {:induction false} GatherSame<T>(n: nat, f: nat -> seq<T>, g: nat -> seq<T>)
    requires forall i: nat :: i < n ==> f(i) == g(i)
    ensures Gather(n, f) == Gather(n, g)
  {
    if n > 0 {
      GatherSame(n - 1, f, g);
    }
  }

  /** The nb bytes at off, or nothing if they are not all there. */
  function Item(src: seq<Byte>, off: int, nb: nat): (s: seq<Byte>)
    ensures |s| == nb || s == []
  {
    if 0 <= off && off + nb <= |src| then src[off..off + nb] else []
  }

  /** Items step bytes apart. */
  function Items(src: seq<Byte>, off: int, step: int, nb: nat): nat -> seq<Byte> {
    i => Item(src, off + i * step, nb)
  }

  lemma Adjoining<T>(c: seq<T>, a: nat, m: nat, n: nat)
    requires a + m + n <= |c|
    ensures c[a..a + m] + c[a + m..a + m + n] == c[a..a + m + n]
  {
  }

  /** Piece i of the stretch of src from off on. */
  ghost predicate PieceAt<T>(src: seq<T>, off: nat, m: nat, i: nat, piece: seq<T>) {
    0 <= off + i * m <= off + i * m + m <= |src| && piece == src[off + i * m..off + i * m + m]
  }

  /** Pieces that lie side by side in src make up one stretch of it. */
  lemma {:induction false} Stretch<T>(src: seq<T>, off: nat, n: nat, f: nat -> seq<T>, m: nat)
    requires off + n * m <= |src|
    requires forall i: nat :: i < n ==> PieceAt(src, off, m, i, f(i))
    ensures Gather(n, f) == src[off..off + n * m]
  {
    hide PieceAt;
    if n == 0 {
      assert n * m == 0;
    } else {
      var a := LastPiece(src, off, n, f(n - 1), m);
      Stretch(src, off, n - 1, f, m);
      Adjoining(src, off, a, m);
    }
  }

  lemma LastPiece<T>(src: seq<T>, off: nat, n: nat, piece: seq<T>, m: nat) returns (a: nat)
    requires n > 0 && off + n * m <= |src| && PieceAt(src, off, m, n - 1, piece)
    ensures a == (n - 1) * m && a + m == n * m && piece == src[off + a..off + a + m]
  {
    a := (n - 1) * m;
  }

  lemma NestedSlice<T>(c: seq<T>, a: nat, m: nat, b: nat, n: nat)
    requires a + m <= |c| && b + n <= m
    ensures c[a..a + m][b..b + n] == c[a + b..a + b + n]
  {
    var x, y := c[a..a + m][b..b + n], c[a + b..a + b + n];
    assert forall t :: 0 <= t < n ==> x[t] == y[t];
  }

  /** The pieces from the i-th on. */
  function GatherFrom<T>(i: nat, n: nat, f: nat -> seq<T>): seq<T>
    decreases n - i
  {
    if i >= n then [] else f(i) + GatherFrom(i + 1, n, f)
  }

  lemma {:induction false} GatherSplit<T>(i: nat, n: nat, f: nat -> seq<T>)
    requires i <= n
    ensures Gather(n, f) == Gather(i, f) + GatherFrom(i, n, f)
    decreases n - i
  {
    if i < n {
      GatherSplit(i + 1, n, f);
    }
  }
}
