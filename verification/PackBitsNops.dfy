/** A header -128 that goes unnoticed. */
module PackBitsNops {
  import opened Bytes
  import opened PackBits

  /** After the header -128 section 9 is 129 zeros behind. The lead is halved again and again, the blocks of
      the one decoder straddling those of the other, and then made up for. */
  function Unnoticed(): seq<Byte> {
    [128, 0, 0, 193, 0, 193, 0, 255, 193, 0, 255] + Halving(255, 32, Halving(254, 16, Halving(253, 8, CatchUp())))
  }

  function Halving(c: Byte, k: nat, t: seq<Byte>): seq<Byte>
    requires c >= 1 && 2 <= k <= 128
  {
    var n: Byte := (257 - k) as Byte;
    [n, 0, n, 0, c - 1, n, 0, c - 1] + t
  }

  function CatchUp(): seq<Byte> {
    [254, 0, 252, 0, 252, 254, 252, 252, 2, 2, 2, 2, 253, 2, 253, 253, 253, 1, 1, 1, 254, 1, 254, 254]
  }

  // ---------- Both decoders from place i on ----------

  predicate Whole(s: seq<Byte>, i: nat) {
    i <= |s| && Complete(s[i..])
  }

  function ByUnTiff(s: seq<Byte>, i: nat): seq<Byte> {
    if Whole(s, i) then Unpacked(s[i..]) else []
  }

  function BySection9(s: seq<Byte>, i: nat): seq<Byte> {
    if i <= |s| then Section9(s[i..]) else []
  }

  /** UnTiff is k zeros ahead and goes on with header c, section 9 with what comes after it. */
  predicate Meet(c: Byte, k: nat, t: seq<Byte>) {
    Whole([c] + t, 0) && Repeat(0, k) + ByUnTiff([c] + t, 0) == BySection9([c] + t, 1)
  }

  /** Both decoders may take the n bytes from i on for a block with the data r. */
  predicate Block(s: seq<Byte>, i: nat, n: nat, r: seq<Byte>) {
    && BySection9(s, i) == r + BySection9(s, i + n)
    && (Whole(s, i + n) ==> Whole(s, i) && ByUnTiff(s, i) == r + ByUnTiff(s, i + n))
  }

  lemma BlockAt(s: seq<Byte>, i: nat, n: nat)
    requires i < |s| && s[i] != 128 && n == BlockLen(s[i]) && i + n <= |s|
    ensures Block(s, i, n, BlockData(s[i..i + n]))
  {
    hide Section9, BlockData;
    assert s[i..][..n] == s[i..i + n] && s[i..][n..] == s[i + n..];
    Section9Block(s[i..], n);
  }

  lemma RunAt(s: seq<Byte>, i: nat)
    requires i + 2 <= |s| && s[i] >= 129
    ensures Block(s, i, 2, Repeat(s[i + 1], 257 - s[i] as int))
  {
    hide Section9, Unpacked, Complete;
    BlockAt(s, i, 2);
  }

  lemma LiteralAt(s: seq<Byte>, i: nat, n: nat, r: seq<Byte>)
    requires i < |s| && s[i] < 128 && n == s[i] as int + 2 && i + n <= |s| && r == s[i + 1..i + n]
    ensures Block(s, i, n, r)
  {
    hide Section9, Unpacked, Complete;
    BlockAt(s, i, n);
    assert s[i..i + n][1..] == r;
  }

  lemma OneAt(s: seq<Byte>, i: nat)
    requires i + 2 <= |s| && s[i] == 0
    ensures Block(s, i, 2, Repeat(s[i + 1], 1))
  {
    LiteralAt(s, i, 2, Repeat(s[i + 1], 1));
  }

  lemma NopFirst(s: seq<Byte>)
    requires |s| >= 2 && s[0] == 128 && Whole(s, 2)
    ensures Complete(s) && Unpacked(s) == Repeat(s[1], 129) + ByUnTiff(s, 2) && Section9(s) == BySection9(s, 1)
  {
    assert s[0..] == s;
  }

  lemma Joined(x: Byte, m: nat, n: nat, rest: seq<Byte>)
    ensures Repeat(x, m) + (Repeat(x, n) + rest) == Repeat(x, m + n) + rest
  {
  }

  // ---------- The parts of the stream ----------

  /** s goes on with t from place i on. */
  lemma Onward(s: seq<Byte>, i: nat, c: Byte, t: seq<Byte>)
    requires i < |s| && s[i..] == [c] + t
    ensures Whole(s, i) <==> Whole([c] + t, 0)
    ensures ByUnTiff(s, i) == ByUnTiff([c] + t, 0) && BySection9(s, i + 1) == BySection9([c] + t, 1)
  {
    assert ([c] + t)[0..] == [c] + t && ([c] + t)[1..] == s[i + 1..];
  }

  lemma Halved(c: Byte, k: nat, t: seq<Byte>)
    requires c >= 130 && 2 <= k <= 128 && Meet(c - 1, k, t)
    ensures Meet(c, 2 * k, Halving(c, k, t))
  {
    hide Whole, ByUnTiff, BySection9, Repeat;
    var n: Byte, d: Byte := (257 - k) as Byte, c - 1;
    var s := [c] + Halving(c, k, t);
    Onward(s, 8, d, t);
    RunAt(s, 6);
    OneAt(s, 4);
    OneAt(s, 2);
    RunAt(s, 0);
    OneAt(s, 7);
    RunAt(s, 5);
    RunAt(s, 3);
    RunAt(s, 1);
    var rest := Repeat(d, 1) + BySection9(s, 9);
    Joined(n, 257 - c as int, 1, rest);
    Joined(0, k, k, Repeat(n, 258 - c as int) + rest);
  }

  lemma Started(t: seq<Byte>)
    requires Meet(255, 64, t)
    ensures var s := [128, 0, 0, 193, 0, 193, 0, 255, 193, 0, 255] + t; Complete(s) && Unpacked(s) == Section9(s)
  {
    hide Section9, Unpacked, Complete, Whole, ByUnTiff, BySection9, Repeat;
    var s := [128, 0, 0, 193, 0, 193, 0, 255, 193, 0, 255] + t;
    Onward(s, 10, 255, t);
    RunAt(s, 8);
    OneAt(s, 6);
    OneAt(s, 4);
    OneAt(s, 2);
    OneAt(s, 9);
    RunAt(s, 7);
    RunAt(s, 5);
    RunAt(s, 3);
    OneAt(s, 1);
    var rest := Repeat(255, 1) + BySection9(s, 11);
    Joined(193, 1, 1, rest);
    Joined(0, 64, 64, Repeat(193, 2) + rest);
    Joined(0, 1, 128, Repeat(193, 2) + rest);
    NopFirst(s);
  }

  lemma CaughtUp()
    ensures Meet(252, 8, CatchUp())
  {
    hide Whole, ByUnTiff, BySection9, Repeat;
    var s := [252] + CatchUp();
    CaughtUpMiddle(s);
    RunAt(s, 6);
    OneAt(s, 4);
    OneAt(s, 2);
    RunAt(s, 0);
    RunAt(s, 7);
    RunAt(s, 5);
    RunAt(s, 3);
    RunAt(s, 1);
    var rest := BySection9(s, 9);
    Joined(252, 1, 3, rest);
    Joined(252, 1, 4, rest);
    Joined(0, 3, 5, Repeat(254, 5) + (Repeat(252, 5) + rest));
  }

  lemma CaughtUpMiddle(s: seq<Byte>)
    requires s == [252] + CatchUp()
    ensures Whole(s, 8) && ByUnTiff(s, 8) == BySection9(s, 9)
  {
    hide Whole, ByUnTiff, BySection9, Repeat;
    CaughtUpEnd(s);
    Literals(s);
    RunAt(s, 8);
    RunAt(s, 15);
    RunAt(s, 13);
    var rest := BySection9(s, 17);
    Joined(253, 1, 3, rest);
    Joined(2, 5, 2, Repeat(253, 4) + rest);
    Joined(2, 3, 4, Repeat(253, 4) + rest);
  }

  lemma Literals(s: seq<Byte>)
    requires s == [252] + CatchUp()
    ensures Block(s, 14, 4, Repeat(253, 3)) && Block(s, 9, 4, Repeat(2, 3))
    ensures Block(s, 10, 4, Repeat(2, 2) + Repeat(253, 1))
  {
    hide Block;
    LiteralAt(s, 14, 4, Repeat(253, 3));
    LiteralAt(s, 9, 4, Repeat(2, 3));
    LiteralAt(s, 10, 4, Repeat(2, 2) + Repeat(253, 1));
  }

  lemma CaughtUpEnd(s: seq<Byte>)
    requires s == [252] + CatchUp()
    ensures Whole(s, 18) && ByUnTiff(s, 18) == BySection9(s, 17)
  {
    hide Section9, Unpacked, Complete, Whole, ByUnTiff, BySection9;
    AtEnd(s);
    RunAt(s, 23);
    RunAt(s, 21);
    LiteralAt(s, 18, 3, [1, 1]);
    LiteralAt(s, 22, 3, [254, 254]);
    LiteralAt(s, 19, 3, [1, 254]);
    RunAt(s, 17);
    assert ByUnTiff(s, 18) == [1, 1, 1, 1, 1, 254, 254, 254] == BySection9(s, 17);
  }

  lemma AtEnd(s: seq<Byte>)
    ensures Whole(s, |s|) && ByUnTiff(s, |s|) == [] == BySection9(s, |s|)
  {
  }

  /** The decoders may agree on a stream with a header -128. */
  lemma NopUnnoticed()
    ensures var s := Unnoticed(); Complete(s) && s[0] == 128 && Unpacked(s) == Section9(s)
  {
    hide Meet;
    CaughtUp();
    var t := CatchUp();
    Halved(253, 8, t);
    Halved(254, 16, Halving(253, 8, t));
    Halved(255, 32, Halving(254, 16, Halving(253, 8, t)));
    Started(Halving(255, 32, Halving(254, 16, Halving(253, 8, t))));
  }
}
