/** PackBits, section 9 of TIFF Revision 6.0. */
module PackBits {
  import opened Bytes

  /** A byte read through a signed char. */
  function Signed(b: Byte): (h: int)
    ensures -128 <= h < 128 && (h - b as int) % 256 == 0
  {
    if b < 128 then b as int else b as int - 256
  }

  function Repeat(b: Byte, n: nat): seq<Byte> {
    seq(n, _ => b)
  }

  /** The length of a block with header b: a run has one byte of data, a literal n + 1. */
  function BlockLen(b: Byte): (n: nat)
    ensures n >= 2
  {
    if Signed(b) < 0 then 2 else Signed(b) + 2
  }

  /** Every header is followed by its bytes. */
  predicate Complete(s: seq<Byte>)
    decreases |s|
  {
    s == [] || (BlockLen(s[0]) <= |s| && Complete(s[BlockLen(s[0])..]))
  }

  /** No header is -128. */
  predicate NoNops(s: seq<Byte>)
    requires Complete(s)
    decreases |s|
  {
    s == [] || (s[0] != 128 && NoNops(s[BlockLen(s[0])..]))
  }

  /** The data a decoder should deliver by section 9: a header n >= 0 copies n + 1 bytes, -127..-1 repeats
      the next byte 1 - n times, and -128 does nothing. */
  function Section9(s: seq<Byte>): seq<Byte>
    decreases |s|
  {
    if s == [] then []
    else
      var h := Signed(s[0]);
      if h == -128 then Section9(s[1..])
      else if h < 0 then if |s| < 2 then [] else Repeat(s[1], 1 - h) + Section9(s[2..])
      else if |s| < h + 2 then s[1..]
      else s[1..h + 2] + Section9(s[h + 2..])
  }

  /** What UnTiff takes a block for: -128 is 129 copies of the next byte. */
  function BlockData(block: seq<Byte>): seq<Byte>
    requires block != [] && BlockLen(block[0]) == |block|
  {
    if Signed(block[0]) < 0 then Repeat(block[1], 1 - Signed(block[0])) else block[1..]
  }

  /** What UnTiff delivers. */
  function Unpacked(s: seq<Byte>): seq<Byte>
    requires Complete(s)
    decreases |s|
  {
    if s == [] then []
    else BlockData(s[..BlockLen(s[0])]) + Unpacked(s[BlockLen(s[0])..])
  }

  /** Without a header of -128 the decoder is the one of section 9. This is sufficient, not necessary. */
  lemma {:induction false} UnpacksBySection9(s: seq<Byte>)
    requires Complete(s) && NoNops(s)
    ensures Unpacked(s) == Section9(s)
    decreases |s|
  {
    if s != [] {
      var n := BlockLen(s[0]);
      UnpacksBySection9(s[n..]);
      assert s[..n][1..] == s[1..n];
    }
  }

  /** A block that is not a no-op. */
  lemma Section9Block(s: seq<Byte>, n: nat)
    requires s != [] && s[0] != 128 && n == BlockLen(s[0]) <= |s|
    ensures Section9(s) == BlockData(s[..n]) + Section9(s[n..])
  {
    hide Repeat, Section9;
    assert s[..n][0] == s[0] && s[..n][1] == s[1] && s[..n][1..] == s[1..n];
    Section9Unfolds(s);
    hide BlockLen;
  }

  lemma Section9Unfolds(s: seq<Byte>)
    ensures s == [] ==> Section9(s) == []
    ensures s != [] ==>
              var h := Signed(s[0]);
              && (-128 < h < 0 && |s| >= 2 ==> Section9(s) == Repeat(s[1], 1 - h) + Section9(s[2..]))
              && (h >= 0 && |s| >= h + 2 ==> Section9(s) == s[1..h + 2] + Section9(s[h + 2..]))
  {
    hide Repeat;
  }

  lemma {:induction false} Section9Append(a: seq<Byte>, b: seq<Byte>)
    requires Complete(a) && NoNops(a)
    ensures Section9(a + b) == Section9(a) + Section9(b)
    decreases |a|
  {
    hide Section9, BlockData, BlockLen;
    if a == [] {
      Section9Unfolds(a);
      assert a + b == b;
    } else {
      var n := BlockLen(a[0]);
      assert (a + b)[..n] == a[..n] && (a + b)[n..] == a[n..] + b;
      Section9Append(a[n..], b);
      Section9Block(a, n);
      Section9Block(a + b, n);
    }
  }

  /** What the two decoders make of the first header of -128: UnTiff 129 copies of the byte x after it,
      section 9 a block with header x. They agree on the stream exactly if they do from there on, which is a
      condition on all the rest. */
  lemma FirstNop(a: seq<Byte>, x: Byte, r: seq<Byte>)
    requires Complete(a) && NoNops(a) && Complete(r)
    ensures var s := a + ([128, x] + r);
            && Complete(s)
            && Unpacked(s) == Section9(a) + (Repeat(x, 129) + Unpacked(r))
            && Section9(s) == Section9(a) + Section9([x] + r)
            && (Unpacked(s) == Section9(s) <==> Repeat(x, 129) + Unpacked(r) == Section9([x] + r))
  {
    var b: seq<Byte> := [128, x] + r;
    assert b[2..] == r && b[..2] == [128, x] && b[1..] == [x] + r;
    hide Repeat;
    assert Signed(128) == -128;
    UnpackedAppend(a, b);
    UnpacksBySection9(a);
    Section9Append(a, b);
    SameAfter(Section9(a), Repeat(x, 129) + Unpacked(r), Section9([x] + r));
  }

  lemma SameAfter(a: seq<Byte>, b: seq<Byte>, c: seq<Byte>)
    ensures a + b == a + c <==> b == c
  {
    assert (a + b)[|a|..] == b && (a + c)[|a|..] == c;
  }

  /** With one it need not be: a no-op before the literal block 1, 0, 5 becomes 129 ones. */
  lemma NopUnpacked()
    ensures var s: seq<Byte> := [128, 1, 0, 5];
            Complete(s) && !NoNops(s) && Unpacked(s) == Repeat(1, 129) + [5] && Section9(s) == [0, 5]
  {
    var s: seq<Byte> := [128, 1, 0, 5];
    assert s[2..] == [0, 5] && s[2..][2..] == [] && s[2..][1..2] == [5];
    assert s[1..] == [1, 0, 5] && s[1..][3..] == [] && s[1..][1..3] == [0, 5];
    assert Unpacked(s[2..]) == [5] + [];
    assert Section9(s[1..]) == [0, 5] + [];
  }

  /** The decoders agree on every part of the stream that ends with a block exactly if no header is -128. */
  lemma {:induction false} PrefixesAgreeIff(s: seq<Byte>)
    requires Complete(s)
    ensures NoNops(s) <==> forall n :: 0 <= n <= |s| && Complete(s[..n]) ==> Unpacked(s[..n]) == Section9(s[..n])
    decreases |s|
  {
    hide Section9, Unpacked, BlockLen;
    if NoNops(s) {
      forall n | 0 <= n <= |s| && Complete(s[..n])
        ensures Unpacked(s[..n]) == Section9(s[..n])
      {
        PrefixNoNops(s, n);
        UnpacksBySection9(s[..n]);
      }
    } else {
      var n := DifferAt(s);
      assert Complete(s[..n]);
    }
  }

  lemma {:induction false} PrefixNoNops(s: seq<Byte>, n: nat)
    requires Complete(s) && NoNops(s) && n <= |s| && Complete(s[..n])
    ensures NoNops(s[..n])
    decreases |s|
  {
    hide BlockLen;
    if n > 0 {
      var b := BlockLen(s[0]);
      assert s[..n][b..] == s[b..][..n - b];
      PrefixNoNops(s[b..], n - b);
    }
  }

  /** Right after the first header -128 and its byte the decoders have delivered different data. */
  lemma {:induction false} DifferAt(s: seq<Byte>) returns (n: nat)
    requires Complete(s) && !NoNops(s)
    ensures n <= |s| && Complete(s[..n]) && Unpacked(s[..n]) != Section9(s[..n])
    decreases |s|
  {
    hide Section9, BlockData;
    if s[0] == 128 {
      n := 2;
      NopAlone(s[1]);
      assert s[..2] == [128, s[1]];
    } else {
      var b := BlockLen(s[0]);
      var n' := DifferAt(s[b..]);
      n := b + n';
      assert s[..n][b..] == s[b..][..n'] && s[..n][..b] == s[..b];
      Section9Block(s[..n], b);
      SameAfter(BlockData(s[..b]), Unpacked(s[b..][..n']), Section9(s[b..][..n']));
    }
  }

  lemma NopAlone(x: Byte)
    ensures var s := [128, x]; Complete(s) && Unpacked(s) != [] && Section9(s) == []
  {
    var s := [128, x];
    assert s[2..] == [] && s[1..] == [x] && s[..2] == s && [x][1..] == [];
    assert Section9([x]) == [];
    assert Unpacked(s) == Repeat(x, 129) + [];
  }

  lemma {:induction false} UnpackedAppend(a: seq<Byte>, b: seq<Byte>)
    requires Complete(a) && Complete(b)
    ensures Complete(a + b) && Unpacked(a + b) == Unpacked(a) + Unpacked(b)
    decreases |a|
  {
    hide BlockLen, BlockData;
    if a == [] {
      assert a + b == b;
    } else {
      var n := BlockLen(a[0]);
      assert (a + b)[n..] == a[n..] + b && (a + b)[..n] == a[..n];
      UnpackedAppend(a[n..], b);
    }
  }

  lemma {:induction false} NoNopsAppend(a: seq<Byte>, b: seq<Byte>)
    requires Complete(a) && Complete(b) && Complete(a + b) && NoNops(a) && NoNops(b)
    ensures NoNops(a + b)
    decreases |a|
  {
    hide BlockLen;
    if a == [] {
      assert a + b == b;
    } else {
      var n := BlockLen(a[0]);
      assert (a + b)[n..] == a[n..] + b;
      NoNopsAppend(a[n..], b);
    }
  }

  /** out is an encoding of data. */
  ghost predicate Packs(out: seq<Byte>, data: seq<Byte>) {
    Complete(out) && NoNops(out) && Unpacked(out) == data
  }

  /** One more block. */
  lemma PacksBlock(out: seq<Byte>, data: seq<Byte>, block: seq<Byte>)
    requires Packs(out, data) && block != [] && BlockLen(block[0]) == |block| && block[0] != 128
    ensures Packs(out + block, data + BlockData(block))
  {
    hide BlockData, BlockLen;
    var n := |block|;
    assert block[n..] == [] && block[..n] == block;
    assert Complete([]) && NoNops([]);
    assert Unpacked(block) == BlockData(block) + [];
    UnpackedAppend(out, block);
    NoNopsAppend(out, block);
  }

  lemma PacksLiteral(out: seq<Byte>, data: seq<Byte>, lit: seq<Byte>)
    requires Packs(out, data) && 1 <= |lit| <= 128
    ensures Packs(out + ([(|lit| - 1) as Byte] + lit), data + lit)
  {
    hide Packs;
    var block := [(|lit| - 1) as Byte] + lit;
    assert block[1..] == lit;
    PacksBlock(out, data, block);
  }

  /** A run of one, the remainder of a long run, has the header 0 of a literal. */
  lemma PacksRun(out: seq<Byte>, data: seq<Byte>, b: Byte, n: nat)
    requires Packs(out, data) && 1 <= n <= 128
    ensures Packs(out + [((1 - n) % 256) as Byte, b], data + Repeat(b, n))
  {
    hide Packs;
    var block := [((1 - n) % 256) as Byte, b];
    assert Signed(block[0]) == 1 - n;
    assert block[1..] == [b] == Repeat(b, 1);
    PacksBlock(out, data, block);
  }

  /** How many blocks of up to 128 take n bytes. */
  function Blocks(n: nat): nat {
    (n + 127) / 128
  }

  // ---------- What is packed ----------

  /** Literal blocks of up to 128 bytes. */
  function Literals(s: seq<Byte>): (out: seq<Byte>)
    ensures |out| == |s| + Blocks(|s|)
    decreases |s|
  {
    if s == [] then []
    else if |s| <= 128 then [(|s| - 1) as Byte] + s
    else [127] + s[..128] + Literals(s[128..])
  }

  /** Run blocks of up to 128 copies. */
  function Runs(b: Byte, n: nat): (out: seq<Byte>)
    ensures |out| == 2 * Blocks(n)
  {
    if n == 0 then []
    else if n <= 128 then [((1 - n) % 256) as Byte, b]
    else [129, b] + Runs(b, n - 128)
  }

  /** How many equal bytes s starts with. */
  function RunLen(s: seq<Byte>): (n: nat)
    requires s != []
    ensures 1 <= n <= |s|
  {
    if |s| > 1 && s[1] == s[0] then 1 + RunLen(s[1..]) else 1
  }

  /** With literals waiting: runs of three and more are packed, but for one at the very end, and all that stands
      between them goes into literals. */
  function PackedAfter(lit: seq<Byte>, rest: seq<Byte>): seq<Byte>
    decreases |rest|
  {
    if rest == [] then Literals(lit)
    else
      var n := RunLen(rest);
      if n == |rest| then Literals(lit + rest)
      else if n >= 3 then Literals(lit) + Runs(rest[0], n) + PackedAfter([], rest[n..])
      else PackedAfter(lit + rest[..n], rest[n..])
  }

  function Packed(data: seq<Byte>): seq<Byte> {
    PackedAfter([], data)
  }

  lemma {:induction false} RunLenIs(s: seq<Byte>, n: nat)
    requires 1 <= n <= |s| && (forall j :: 0 <= j < n ==> s[j] == s[0]) && (n < |s| ==> s[n] != s[0])
    ensures RunLen(s) == n
  {
    if n > 1 {
      RunLenIs(s[1..], n - 1);
    }
  }

  /** A run of three or more with something after it is packed into runs, and the rest on its own. */
  lemma RunPacked(b: Byte, n: nat, rest: seq<Byte>)
    requires n >= 3 && rest != [] && rest[0] != b
    ensures Packed(Repeat(b, n) + rest) == Runs(b, n) + Packed(rest)
  {
    hide Runs, Literals;
    var data := Repeat(b, n) + rest;
    RunLenIs(data, n);
    assert data[n..] == rest;
    NoLiterals();
    assert [] + Runs(b, n) == Runs(b, n);
  }

  lemma NoLiterals()
    ensures Literals([]) == []
  {
  }

  /** A run at the very end is not packed: bytes that are all equal come out longer than they were. */
  lemma LastRunNotPacked(b: Byte, n: nat)
    requires n >= 1
    ensures Packed(Repeat(b, n)) == Literals(Repeat(b, n)) && |Packed(Repeat(b, n))| == n + Blocks(n) > n
  {
    hide Literals;
    var data := Repeat(b, n);
    RunLenIs(data, n);
    assert [] + data == data;
  }

  /** Bytes no two neighbours of which are equal stay as they are, in literals. */
  lemma {:induction false} NothingToPack(lit: seq<Byte>, rest: seq<Byte>)
    requires forall j :: 0 <= j < |rest| - 1 ==> rest[j] != rest[j + 1]
    ensures PackedAfter(lit, rest) == Literals(lit + rest)
    decreases |rest|
  {
    hide Literals;
    if rest == [] {
      assert lit + rest == lit;
    } else {
      RunLenIs(rest, 1);
      assert rest[..1] + rest[1..] == rest;
      assert lit + rest[..1] + rest[1..] == lit + rest;
      NothingToPack(lit + rest[..1], rest[1..]);
    }
  }

  lemma LiteralsMore(s: seq<Byte>, base: nat, n: nat, end: nat)
    requires base < end <= |s| && n == (if 128 < end - base then 128 else end - base)
    ensures Literals(s[base..end]) == [(n - 1) as Byte] + s[base..base + n] + Literals(s[base + n..end])
  {
    var r := s[base..end];
    if n == 128 && 128 < end - base {
      assert r[..128] == s[base..base + 128] && r[128..] == s[base + 128..end];
    } else {
      assert s[base + n..end] == [] && r == s[base..base + n];
      NoLiterals();
    }
  }

  lemma RunsMore(b: Byte, count: nat, n: nat)
    requires count > 0 && n == if 128 < count then 128 else count
    ensures Runs(b, count) == [((1 - n) % 256) as Byte, b] + Runs(b, count - n)
  {
  }

  // ---------- The packer ----------

  /** Store one block of size + 1 literals. */
  method PutLiteral(s1: array<Byte>, s2: array<Byte>, base: nat, outp: nat, size: nat)
    requires s1 != s2 && base + size < s1.Length && outp + size + 1 < s2.Length && size < 128
    modifies s2
    ensures s2[..outp + size + 2] == old(s2[..outp]) + ([size as Byte] + s1[base..base + size + 1])
    ensures forall k :: outp + size + 2 <= k < s2.Length ==> s2[k] == old(s2[k])
  {
    ghost var block: seq<Byte> := [size as Byte] + s1[base..base + size + 1];
    ghost var want := s2[..outp] + block;
    s2[outp] := size as Byte;
    forall k | 0 <= k <= size {
      s2[outp + 1 + k] := s1[base + k];
    }
    assert forall k :: 0 <= k < outp ==> s2[k] == want[k];
    assert forall k :: outp < k < outp + size + 2 ==> s2[k] == s1[base + (k - outp - 1)] == want[k];
    assert s2[..outp + size + 2] == want;
  }

  /** Store s1[base..newbase] as literals. */
  method PutLiterals(s1: array<Byte>, s2: array<Byte>, base0: nat, newbase: nat, outp0: nat) returns (outp: nat)
    requires s1 != s2 && base0 <= newbase <= s1.Length
    requires outp0 + (newbase - base0) + Blocks(newbase - base0) <= s2.Length
    requires Packs(s2[..outp0], s1[..base0])
    modifies s2
    ensures outp == outp0 + (newbase - base0) + Blocks(newbase - base0)
    ensures Packs(s2[..outp], s1[..newbase]) && s2[..outp] == old(s2[..outp0]) + Literals(s1[base0..newbase])
    ensures forall k :: outp <= k < s2.Length ==> s2[k] == old(s2[k])
  {
    hide Packs, Literals, Blocks;
    var base := base0;
    outp := outp0;
    ghost var start, all := s2[..outp0], Literals(s1[base0..newbase]);
    BlocksStep();
    while newbase - base > 0
      invariant base0 <= base <= newbase && outp <= s2.Length
      invariant outp + (newbase - base) + Blocks(newbase - base) == outp0 + (newbase - base0) + Blocks(newbase - base0)
      invariant Packs(s2[..outp], s1[..base]) && s2[..outp] + Literals(s1[base..newbase]) == start + all
      invariant forall k :: outp <= k < s2.Length ==> s2[k] == old(s2[k])
      decreases newbase - base
    {
      var size := if 127 < newbase - base - 1 then 127 else newbase - base - 1;
      LiteralsMore(s1[..], base, size + 1, newbase);
      PacksLiteral(s2[..outp], s1[..base], s1[base..base + size + 1]);
      PutLiteral(s1, s2, base, outp, size);
      assert s1[..base] + s1[base..base + size + 1] == s1[..base + size + 1];
      outp := outp + 1 + (size + 1);
      base := base + size + 1;
    }
    assert s1[base..newbase] == [];
    NoLiterals();
  }

  lemma BlocksStep()
    ensures forall n: nat :: n > 128 ==> Blocks(n) == 1 + Blocks(n - 128)
    ensures forall n: nat :: 1 <= n <= 128 ==> Blocks(n) == 1
    ensures Blocks(0) == 0
  {
  }

  /** Store count copies of s1[newbase] as runs. */
  method PutRun(s1: array<Byte>, s2: array<Byte>, newbase: nat, count0: nat, outp0: nat) returns (outp: nat)
    requires s1 != s2 && newbase + count0 <= s1.Length && newbase < s1.Length
    requires forall k :: newbase <= k < newbase + count0 ==> s1[k] == s1[newbase]
    requires outp0 + 2 * Blocks(count0) <= s2.Length
    requires Packs(s2[..outp0], s1[..newbase])
    modifies s2
    ensures outp == outp0 + 2 * Blocks(count0)
    ensures Packs(s2[..outp], s1[..newbase + count0]) && s2[..outp] == old(s2[..outp0]) + Runs(s1[newbase], count0)
    ensures forall k :: outp <= k < s2.Length ==> s2[k] == old(s2[k])
  {
    hide Packs, Runs, Blocks;
    var count := count0;
    outp := outp0;
    ghost var start, all := s2[..outp0], Runs(s1[newbase], count0);
    BlocksStep();
    while count > 0
      invariant 0 <= count <= count0 && outp + 2 * Blocks(count) == outp0 + 2 * Blocks(count0)
      invariant Packs(s2[..outp], s1[..newbase + count0 - count])
      invariant s2[..outp] + Runs(s1[newbase], count) == start + all
      invariant forall k :: outp <= k < s2.Length ==> s2[k] == old(s2[k])
    {
      var size := if 128 < count then 128 else count;
      ghost var out, done := s2[..outp], newbase + count0 - count;
      PacksRun(out, s1[..done], s1[newbase], size);
      RunsMore(s1[newbase], count, size);
      s2[outp] := ((-(size - 1)) % 256) as Byte;
      s2[outp + 1] := s1[newbase];
      assert s2[..outp + 2] == out + [((1 - size) % 256) as Byte, s1[newbase]];
      outp := outp + 2;
      assert s1[..done] + Repeat(s1[newbase], size) == s1[..done + size];
      count := count - size;
    }
    assert Runs(s1[newbase], 0) == [] by { NoRunBlocks(s1[newbase]); }
  }

  lemma NoRunBlocks(b: Byte)
    ensures Runs(b, 0) == []
  {
  }

  /** A run of at least three never costs more than its share of block headers, whatever literals
      come before it. */
  lemma RunPays(base: nat, outp: nat, literals: nat, run: nat)
    requires 128 * outp <= 129 * base && run >= 3
    ensures 128 * (outp + literals + Blocks(literals) + 2 * Blocks(run)) <= 129 * (base + literals + run)
  {
  }

  lemma PacksNothing()
    ensures Packs([], [])
  {
  }

  lemma OneBlock()
    ensures Blocks(0) == 0 && Blocks(1) == 1
  {
  }

  lemma Fits(outp: nat, i: nat, len: nat)
    requires 128 * outp <= 129 * i && i <= len
    ensures outp <= len + Blocks(len)
  {
  }

  lemma RestFits(base: nat, outp: nat, newbase: nat)
    requires 128 * outp <= 129 * base && base <= newbase
    ensures outp + (newbase - base) + Blocks(newbase - base) <= newbase + Blocks(newbase)
  {
  }

  method PutLiteralsAndRun(s1: array<Byte>, s2: array<Byte>, base: nat, newbase: nat, count: nat, outp0: nat)
    returns (outp: nat)
    requires s1 != s2 && base <= newbase < newbase + count <= s1.Length
    requires forall k :: newbase <= k < newbase + count ==> s1[k] == s1[newbase]
    requires outp0 + (newbase - base) + Blocks(newbase - base) + 2 * Blocks(count) <= s2.Length
    requires Packs(s2[..outp0], s1[..base])
    modifies s2
    ensures outp == outp0 + (newbase - base) + Blocks(newbase - base) + 2 * Blocks(count)
    ensures Packs(s2[..outp], s1[..newbase + count])
    ensures s2[..outp] == old(s2[..outp0]) + Literals(s1[base..newbase]) + Runs(s1[newbase], count)
    ensures forall k :: outp <= k < s2.Length ==> s2[k] == old(s2[k])
  {
    hide Blocks, Packs, Literals, Runs;
    outp := PutLiterals(s1, s2, base, newbase, outp0);
    outp := PutRun(s1, s2, newbase, count, outp);
  }

  /** Pack the first len bytes of s1 into s2. The result decodes to them, has no header -128, and is at
      most one byte in 128 longer. (A len of 0 is packed as 1.) */
  method ToTiff(s1: array<Byte>, s2: array<Byte>, len: nat) returns (outp: nat)
    requires s1 != s2 && len <= s1.Length && 1 <= s1.Length
    requires len + Blocks(len) <= s2.Length && 2 <= s2.Length
    modifies s2
    ensures len >= 1 ==> outp <= len + Blocks(len) && Packs(s2[..outp], s1[..len]) && s2[..outp] == Packed(s1[..len])
    ensures len == 0 ==> outp == 2 && Packs(s2[..outp], s1[..1]) && s2[..outp] == Packed(s1[..1])
    ensures forall k :: outp <= k < s2.Length ==> s2[k] == old(s2[k])
  {
    hide Blocks, Packs, PackedAfter, Literals, Runs, Packed, Awaits;
    var count, base, newbase := 0, 0, 0;
    outp := 0;
    assert s2[..0] == [] && s1[..0] == [];
    PacksNothing();
    if len == 0 { OneBlock(); }
    ghost var data := s1[..if len == 0 then 1 else len];
    PackedStart(data);
    var i := 1;
    while i < len
      invariant 1 <= i && (i <= len || (len == 0 && i == 1))
      invariant base <= newbase < i && newbase + count + 1 == i
      invariant forall k :: newbase <= k < i ==> s1[k] == s1[newbase]
      invariant 128 * outp <= 129 * base && outp <= s2.Length
      invariant Packs(s2[..outp], s1[..base]) && Awaits(data, base, newbase, s2[..outp])
      invariant forall k :: outp <= k < s2.Length ==> s2[k] == old(s2[k])
    {
      if s1[newbase] == s1[i] {
        count := count + 1;
      } else {
        PackedStep(data, base, newbase, i, s2[..outp]);
        if count < 2 {
          newbase := i;
          count := 0;
        } else {
          RunPays(base, outp, newbase - base, count + 1);
          Fits(outp + (newbase - base) + Blocks(newbase - base) + 2 * Blocks(count + 1), i, len);
          assert data[base..newbase] == s1[base..newbase];
          outp := PutLiteralsAndRun(s1, s2, base, newbase, count + 1, outp);
          count := 0;
          base, newbase := i, i;
        }
      }
      i := i + 1;
    }
    PackedEnd(data, base, newbase, s2[..outp]);
    newbase := i;
    RestFits(base, outp, newbase);
    assert data[base..] == s1[base..newbase];
    outp := PutLiterals(s1, s2, base, newbase, outp);
  }

  /** out and what is packed of the data from base on, the bytes up to newbase waiting as literals, is all. */
  ghost predicate Awaits(data: seq<Byte>, base: nat, newbase: nat, out: seq<Byte>) {
    base <= newbase <= |data| && out + PackedAfter(data[base..newbase], data[newbase..]) == Packed(data)
  }

  lemma PackedStart(data: seq<Byte>)
    ensures Awaits(data, 0, 0, [])
  {
    assert data[0..0] == [] && data[0..] == data;
  }

  /** A run that ends at i. */
  lemma PackedStep(data: seq<Byte>, base: nat, newbase: nat, i: nat, out: seq<Byte>)
    requires Awaits(data, base, newbase, out) && newbase < i < |data| && data[i] != data[newbase]
    requires forall k :: newbase <= k < i ==> data[k] == data[newbase]
    ensures i - newbase < 3 ==> Awaits(data, base, i, out)
    ensures i - newbase >= 3 ==>
              Awaits(data, i, i, out + Literals(data[base..newbase]) + Runs(data[newbase], i - newbase))
  {
    hide Literals, Runs, Packed;
    var rest, n := data[newbase..], i - newbase;
    RunLenIs(rest, n);
    assert rest[n..] == data[i..] && data[base..newbase] + rest[..n] == data[base..i] && data[i..i] == [];
  }

  /** A run that ends with the data. */
  lemma PackedEnd(data: seq<Byte>, base: nat, newbase: nat, out: seq<Byte>)
    requires Awaits(data, base, newbase, out)
    requires newbase < |data| && forall k :: newbase <= k < |data| ==> data[k] == data[newbase]
    ensures out + Literals(data[base..]) == Packed(data)
  {
    hide Literals, Runs, Packed;
    RunLenIs(data[newbase..], |data| - newbase);
    assert data[base..newbase] + data[newbase..] == data[base..];
  }

  /** Copy the size + 1 bytes after i0. */
  method CopyLiteral(s1: array<Byte>, s2: array<Byte>, i0: nat, outp0: nat, size: nat) returns (i: nat, outp: nat)
    requires s1 != s2 && i0 + size + 1 < s1.Length && outp0 + size + 1 <= s2.Length
    modifies s2
    ensures i == i0 + size + 1 && outp == outp0 + size + 1
    ensures s2[..outp] == old(s2[..outp0]) + s1[i0 + 1..i + 1]
    ensures forall k :: outp <= k < s2.Length ==> s2[k] == old(s2[k])
  {
    i, outp := i0, outp0;
    for j := 0 to size + 1
      invariant i == i0 + j && outp == outp0 + j
      invariant s2[..outp] == old(s2[..outp0]) + s1[i0 + 1..i + 1]
      invariant forall k :: outp <= k < s2.Length ==> s2[k] == old(s2[k])
    {
      i := i + 1;
      s2[outp] := s1[i];
      outp := outp + 1;
    }
  }

  /** Unpack the block at i. */
  method UnpackBlock(s1: array<Byte>, s2: array<Byte>, i0: nat, outp0: nat) returns (i: nat, outp: nat)
    requires s1 != s2 && i0 < s1.Length && i0 + BlockLen(s1[i0]) <= s1.Length
    requires outp0 + |BlockData(s1[i0..i0 + BlockLen(s1[i0])])| <= s2.Length
    modifies s2
    ensures i == i0 + BlockLen(s1[i0]) && outp == outp0 + |BlockData(s1[i0..i])|
    ensures s2[..outp] == old(s2[..outp0]) + BlockData(s1[i0..i])
    ensures forall k :: outp <= k < s2.Length ==> s2[k] == old(s2[k])
  {
    i, outp := i0, outp0;
    var size := Signed(s1[i]);
    if size < 0 {
      size := -size;
      forall k | 0 <= k <= size {
        s2[outp + k] := s1[i + 1];
      }
      outp := outp + size + 1;
      i := i + 1;
    } else {
      i, outp := CopyLiteral(s1, s2, i, outp, size);
      assert s1[i0..i + 1][1..] == s1[i0 + 1..i + 1];
    }
    i := i + 1;
  }

  /** Unpack the first len bytes of s1 into s2. */
  method UnTiff(s1: array<Byte>, s2: array<Byte>, len: nat) returns (outp: nat)
    requires s1 != s2 && len <= s1.Length
    requires Complete(s1[..len]) && |Unpacked(s1[..len])| <= s2.Length
    modifies s2
    ensures outp == |Unpacked(s1[..len])| && s2[..outp] == Unpacked(s1[..len])
    ensures forall k :: outp <= k < s2.Length ==> s2[k] == old(s2[k])
  {
    hide Complete, Unpacked, BlockLen, BlockData;
    ghost var src := s1[..len];
    assert src[0..] == src;
    outp := 0;
    var i := 0;
    while i < len
      invariant i <= len && outp <= s2.Length && s1[..len] == src
      invariant Complete(src[i..]) && s2[..outp] + Unpacked(src[i..]) == Unpacked(src)
      invariant forall k :: outp <= k < s2.Length ==> s2[k] == old(s2[k])
    {
      NextBlock(src, i);
      ghost var n := BlockLen(src[i]);
      assert s1[..len] == src;
      assert s1[i..i + n] == s1[..len][i..i + n] == src[i..i + n];
      assert s1[i] == src[i];
      ghost var done := s2[..outp];
      i, outp := UnpackBlock(s1, s2, i, outp);
      assert s2[..outp] + Unpacked(src[i..]) == Unpacked(src);
    }
    NothingLeft(src);
  }

  lemma NextBlock(src: seq<Byte>, i: nat)
    requires i < |src| && Complete(src[i..])
    ensures var n := BlockLen(src[i]);
            && i + n <= |src| && Complete(src[i + n..])
            && Unpacked(src[i..]) == BlockData(src[i..i + n]) + Unpacked(src[i + n..])
  {
    hide BlockLen, BlockData;
    var n := BlockLen(src[i]);
    assert src[i..][n..] == src[i + n..] && src[i..][..n] == src[i..i + n];
  }

  lemma NothingLeft(src: seq<Byte>)
    ensures Complete(src[|src|..]) && Unpacked(src[|src|..]) == []
  {
  }

  /** Unpacking what was packed gives the bytes back, except that no bytes at all come back as one. */
  method PackAndUnpack(s1: array<Byte>, len: nat) returns (back: seq<Byte>)
    requires len <= s1.Length && 1 <= s1.Length
    ensures len >= 1 ==> back == s1[..len]
    ensures len == 0 ==> back == [s1[0]]
  {
    var packed := new Byte[len + Blocks(len) + 2];
    var n := ToTiff(s1, packed, len);
    if len == 0 {
      var two := packed[..2];
      assert two[2..] == [];
    }
    var unpacked := new Byte[|Unpacked(packed[..n])|];
    var m := UnTiff(packed, unpacked, n);
    back := unpacked[..m];
  }
}
