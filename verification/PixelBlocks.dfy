/** The linked structure of pw/block.c: one global list of covered pixels in scan
    order, each with its list of covering colours, and one list of nodes per colour
    block whose nodes point back into the global list. */
module PixelBlocks {
  import opened PixelLayers
  import opened PixelToggles
  import opened Sequences

  class ColorNode {
    const color: int
    var next: ColorNode?
    ghost const home: Pixel

    constructor (color: int, next: ColorNode?, ghost home: Pixel)
      ensures this.color == color && this.next == next && this.home == home
    {
      this.color := color;
      this.next := next;
      this.home := home;
    }
  }

  class StackNode {
    const x: int
    const y: int
    var colors: ColorNode?
    var next: StackNode?

    function Where(): Pixel {
      Pixel(x, y)
    }

    /** The colour list consists of the nodes o, made for this pixel, and reads hues from the top. */
    ghost predicate Carries(o: seq<ColorNode>, hues: seq<int>, pool: set<ColorNode>)
      reads `colors, pool`next
    {
      ColorChain(colors, o, pool) && Colored(o, hues) && forall i :: 0 <= i < |o| ==> o[i].home == Where()
    }

    constructor (x: int, y: int)
      ensures Where() == Pixel(x, y) && colors == null && next == null
    {
      this.x := x;
      this.y := y;
      colors := null;
      next := null;
    }

    /** The list's nodes are those of o, made for this pixel. */
    ghost predicate Strung(o: seq<ColorNode>, pool: set<ColorNode>)
      reads `colors, pool`next
    {
      ColorChain(colors, o, pool) && forall i :: 0 <= i < |o| ==> o[i].home == Where()
    }

    lemma CarriesIs(o: seq<ColorNode>, hues: seq<int>, pool: set<ColorNode>)
      ensures Carries(o, hues, pool) <==> Strung(o, pool) && Colored(o, hues)
    {
    }

    /** The node before colour c's, or the last one, when c's is not the first. */
    method SeekColor(c: int, ghost o: seq<ColorNode>, ghost hues: seq<int>, ghost pool: set<ColorNode>)
      returns (n: ColorNode, ghost k: nat)
      requires Strung(o, pool) && Colored(o, hues) && hues != [] && hues[0] != c
      ensures k < |o| && n == o[k] && (forall i :: 0 <= i <= k ==> hues[i] != c)
      ensures if k + 1 < |o| then n.next == o[k + 1] && hues[k + 1] == c else n.next == null
    {
      n, k := colors, 0;
      assert |o| > 1 ==> o[0].next == o[1];
      while n.next != null && n.next.color != c
        invariant k < |o| && n == o[k] && (n.next == if k + 1 < |o| then o[k + 1] else null)
        invariant forall i :: 0 <= i <= k ==> hues[i] != c
        decreases |o| - k
      {
        assert k + 2 < |o| ==> o[k + 1].next == o[k + 2];
        n := n.next;
        k := k + 1;
      }
    }

    /** Moves the node after n to the top. */
    method MoveUp(n: ColorNode, ghost k: nat, ghost o: seq<ColorNode>, ghost pool: set<ColorNode>)
      requires Strung(o, pool) && Distinct(o) && k + 1 < |o| && n == o[k] && n.next == o[k + 1]
      modifies `colors, pool`next
      ensures Strung([o[k + 1]] + o[..k + 1] + o[k + 2..], pool)
      ensures forall d :: d in pool && d.home != Where() ==> d.next == old(d.next)
    {
      assert k + 2 < |o| ==> o[k + 1].next == o[k + 2];
      ghost var q := [o[k + 1]] + o[..k + 1] + o[k + 2..];
      assert forall i :: 0 <= i < |q| ==> q[i] == o[if i == 0 then k + 1 else if i <= k + 1 then i - 1 else i];
      var d := n.next;
      n.next := d.next;
      d.next := colors;
      colors := d;
    }

    /** Takes the node after n out of the list. */
    method DropAfter(n: ColorNode, ghost k: nat, ghost o: seq<ColorNode>, ghost pool: set<ColorNode>)
      requires Strung(o, pool) && Distinct(o) && k + 1 < |o| && n == o[k] && n.next == o[k + 1]
      modifies `colors, pool`next
      ensures Strung(o[..k + 1] + o[k + 2..], pool)
      ensures forall d :: d in pool && d.home != Where() ==> d.next == old(d.next)
    {
      assert k + 2 < |o| ==> o[k + 1].next == o[k + 2];
      ghost var q := o[..k + 1] + o[k + 2..];
      assert forall i :: 0 <= i < |q| ==> q[i] == o[if i <= k then i else i + 1];
      n.next := n.next.next;
    }

    /** Takes out the first node. */
    method DropFirst(ghost o: seq<ColorNode>, ghost pool: set<ColorNode>)
      requires Strung(o, pool) && o != []
      modifies `colors
      ensures Strung(o[..0] + o[1..], pool)
    {
      assert |o| > 1 ==> o[0].next == o[1];
      colors := colors.next;
    }

    /** Moves colour c, which the list holds, to its top. */
    method Raise(c: int, ghost o: seq<ColorNode>, ghost hues: seq<int>, ghost pool: set<ColorNode>)
      returns (ghost o': seq<ColorNode>)
      requires Carries(o, hues, pool) && Distinct(hues) && c in hues
      modifies `colors, pool`next
      ensures Carries(o', ToFront(c, hues), pool)
      ensures forall d :: d in pool && d.home != Where() ==> d.next == old(d.next)
    {
      CarriesIs(o, hues, pool);
      FirstOf(o, hues, pool);
      DistinctNodes(o, hues);
      hide StackNode.Carries, StackNode.Strung, Colored, Distinct, ToFront;
      ghost var k := 0;
      if colors.color != c {
        var n;
        n, k := SeekColor(c, o, hues, pool);
        SomeLater(c, hues, k, |o|);
        MoveUp(n, k, o, pool);
        k := k + 1;
      } else {
        assert [o[0]] + o[..0] + o[1..] == o;
      }
      RaiseHue(o, hues, k);
      o' := [o[k]] + o[..k] + o[k + 1..];
      CarriesIs(o', ToFront(c, hues), pool);
    }

    lemma FirstOf(o: seq<ColorNode>, hues: seq<int>, pool: set<ColorNode>)
      requires Carries(o, hues, pool) && hues != []
      ensures |o| == |hues| && colors == o[0] && colors in pool && o[0].color == hues[0]
    {
    }

    /** Puts a new node for colour c on top. */
    method Cover(c: int, ghost o: seq<ColorNode>, ghost hues: seq<int>, ghost pool: set<ColorNode>)
      returns (n: ColorNode)
      requires Carries(o, hues, pool)
      modifies `colors
      ensures fresh(n) && Carries([n] + o, [c] + hues, pool + {n})
    {
      n := new ColorNode(c, colors, Where());
      colors := n;
    }

    /** Takes the node of colour c out of the list, if it has one. */
    method Uncover(c: int, ghost o: seq<ColorNode>, ghost hues: seq<int>, ghost pool: set<ColorNode>)
      returns (ghost o': seq<ColorNode>)
      requires Carries(o, hues, pool) && Distinct(hues) && hues != []
      modifies `colors, pool`next
      ensures Carries(o', Without(c, hues), pool)
      ensures forall d :: d in pool && d.home != Where() ==> d.next == old(d.next)
    {
      CarriesIs(o, hues, pool);
      FirstOf(o, hues, pool);
      DistinctNodes(o, hues);
      hide StackNode.Carries, StackNode.Strung, Colored, Distinct, Without;
      if colors.color == c {
        DropFirst(o, pool);
        DropHue(o, hues, 0);
        o' := o[..0] + o[1..];
      } else {
        var n;
        ghost var k;
        n, k := SeekColor(c, o, hues, pool);
        if n.next != null {
          DropAfter(n, k, o, pool);
          DropHue(o, hues, k + 1);
          o' := o[..k + 1] + o[k + 2..];
        } else {
          WithoutAbsent(c, hues);
          o' := o;
        }
      }
      CarriesIs(o', Without(c, hues), pool);
    }
  }

  lemma DistinctNodes(o: seq<ColorNode>, hues: seq<int>)
    requires Colored(o, hues) && Distinct(hues)
    ensures Distinct(o)
  {
  }

  lemma SortedDistinct(ss: seq<StackNode>)
    requires StackSorted(ss)
    ensures Distinct(ss)
  {
  }

  lemma RemoveSorted(ss: seq<StackNode>, k: nat)
    requires StackSorted(ss) && k < |ss|
    ensures StackSorted(ss[..k] + ss[k + 1..])
  {
  }

  /** The maps agree everywhere but at p. */
  ghost predicate SameBut<V>(m: map<Pixel, V>, m': map<Pixel, V>, p: Pixel) {
    forall q :: q != p && q in m ==> q in m' && m'[q] == m[q]
  }

  lemma SameButPut<V>(m: map<Pixel, V>, p: Pixel, v: V)
    ensures SameBut(m, m[p := v], p) && SameBut(m, m, p)
  {
  }

  /** A colour that is not among the first ones is the next one, if the search stopped there. */
  lemma SomeLater(c: int, hues: seq<int>, k: nat, n: nat)
    requires c in hues && |hues| == n && k < n && forall i :: 0 <= i <= k ==> hues[i] != c
    ensures k + 1 < n
  {
  }

  class BlockNode {
    const stack: StackNode
    var next: BlockNode?
    ghost const home: int

    constructor (stack: StackNode, ghost home: int)
      ensures this.stack == stack && this.home == home && next == null
    {
      this.stack := stack;
      this.home := home;
      next := null;
    }
  }

  class Block {
    var state: int
    var nblocks: int
    var block: BlockNode?
    ghost const home: int

    /** The list holds the nodes b, made for this block, in scan order, and the counter says how many. */
    ghost predicate Lists(b: seq<BlockNode>, pool: set<BlockNode>)
      reads this, pool`next
    {
      && BlockChain(block, b, pool) && BlockSorted(b) && nblocks == |b|
      && forall i :: 0 <= i < |b| ==> b[i].home == home
    }

    constructor (ghost home: int)
      ensures this.home == home && nblocks == 0 && block == null
    {
      this.home := home;
      state := 0;
      nblocks := 0;
      block := null;
    }

    /** Links node m at position k, behind n or at the head. */
    method Insert(n: BlockNode?, m: BlockNode, ghost k: nat, ghost b: seq<BlockNode>, ghost pool: set<BlockNode>)
      requires Lists(b, pool) && m !in pool && m.home == home
      requires k <= |b| && (if n == null then k == 0 else k > 0 && b[k - 1] == n)
      requires k > 0 ==> Before(b[k - 1].stack.Where(), m.stack.Where())
      requires k < |b| ==> Before(m.stack.Where(), b[k].stack.Where())
      modifies this, pool`next, m`next
      ensures Lists(b[..k] + [m] + b[k..], pool + {m})
      ensures forall d :: d in pool && d.home != home ==> d.next == old(d.next)
      ensures state == old(state)
    {
      ghost var b' := b[..k] + [m] + b[k..];
      InsertSortedBlock(b, m, k);
      hide BlockSorted;
      if n == null {
        m.next := block;
        block := m;
      } else {
        assert n.next == if k < |b| then b[k] else null;
        m.next := n.next;
        n.next := m;
      }
      nblocks := nblocks + 1;
      assert forall i :: 0 <= i < |b'| ==> b'[i] == if i < k then b[i] else if i == k then m else b[i - 1];
    }

    /** Unlinks the node at position k, which follows n or is the head. */
    method Remove(n: BlockNode?, m: BlockNode, ghost k: nat, ghost b: seq<BlockNode>, ghost pool: set<BlockNode>)
      requires Lists(b, pool) && k < |b| && b[k] == m
      requires if n == null then k == 0 else k > 0 && b[k - 1] == n
      modifies this, pool`next
      ensures Lists(b[..k] + b[k + 1..], pool)
      ensures forall d :: d in pool && d.home != home ==> d.next == old(d.next)
      ensures state == old(state)
    {
      ghost var b' := b[..k] + b[k + 1..];
      RemoveSortedBlock(b, k);
      hide BlockSorted;
      assert m.next == if k + 1 < |b| then b[k + 1] else null;
      if n == null {
        block := m.next;
      } else {
        n.next := m.next;
      }
      nblocks := nblocks - 1;
      assert forall i :: 0 <= i < |b'| ==> b'[i] == if i < k then b[i] else b[i + 1];
    }
  }

  ghost predicate ColorChain(head: ColorNode?, order: seq<ColorNode>, pool: set<ColorNode>)
    reads pool`next
  {
    && (forall i :: 0 <= i < |order| ==> order[i] in pool)
    && (order == [] ==> head == null)
    && (order != [] ==> head == order[0] && order[|order| - 1].next == null)
    && forall i, j {:trigger order[i].next, order[j]} :: 0 <= i < |order| - 1 && j == i + 1 ==>
       order[i].next == order[j]
  }

  ghost predicate StackChain(head: StackNode?, ss: seq<StackNode>, pool: set<StackNode>)
    reads pool`next
  {
    && (forall i :: 0 <= i < |ss| ==> ss[i] in pool)
    && (ss == [] ==> head == null)
    && (ss != [] ==> head == ss[0] && ss[|ss| - 1].next == null)
    && forall i, j {:trigger ss[i].next, ss[j]} :: 0 <= i < |ss| - 1 && j == i + 1 ==> ss[i].next == ss[j]
  }

  ghost predicate BlockChain(head: BlockNode?, bs: seq<BlockNode>, pool: set<BlockNode>)
    reads pool`next
  {
    && (forall i :: 0 <= i < |bs| ==> bs[i] in pool)
    && (bs == [] ==> head == null)
    && (bs != [] ==> head == bs[0] && bs[|bs| - 1].next == null)
    && forall i, j {:trigger bs[i].next, bs[j]} :: 0 <= i < |bs| - 1 && j == i + 1 ==> bs[i].next == bs[j]
  }

  ghost predicate StackSorted(ss: seq<StackNode>) {
    forall i, j :: 0 <= i < j < |ss| ==> Before(ss[i].Where(), ss[j].Where())
  }

  ghost predicate BlockSorted(bs: seq<BlockNode>) {
    forall i, j :: 0 <= i < j < |bs| ==> Before(bs[i].stack.Where(), bs[j].stack.Where())
  }

  ghost function Nodes(ss: seq<StackNode>): set<StackNode> {
    set s | s in ss
  }

  ghost function Marks(b: seq<BlockNode>): set<Pixel> {
    set n | n in b :: n.stack.Where()
  }

  /** Both views agree: block c has one node for each pixel that carries colour c, and the node
      points at that pixel's node in the global list. */
  ghost predicate Linked(bs: seq<seq<BlockNode>>, nodes: set<StackNode>, m: Layers) {
    && |bs| == NBLOCKS
    && forall c :: 0 <= c < NBLOCKS ==> Targets(bs[c]) <= nodes && Marks(bs[c]) == Region(m, c)
  }

  ghost function Targets(b: seq<BlockNode>): set<StackNode> {
    set n | n in b :: n.stack
  }

  /** Each covered pixel p has its node at[p] in the global list. */
  ghost predicate Locates(at: map<Pixel, StackNode>, ss: seq<StackNode>) {
    forall p :: p in at ==> at[p] in Nodes(ss) && at[p].Where() == p
  }

  lemma NodesMore(was: seq<StackNode>, ss: seq<StackNode>, t: StackNode, k: nat)
    requires k < |ss| && ss[k] == t && (ss == was || (k <= |was| && ss == was[..k] + [t] + was[k..]))
    ensures Nodes(was) + {t} <= Nodes(ss)
  {
    if ss != was {
      assert forall i :: 0 <= i < |was| ==> was[i] == ss[if i < k then i else i + 1];
    }
  }

  lemma LocatesMore(at: map<Pixel, StackNode>, ss: seq<StackNode>, ss': seq<StackNode>, t: StackNode)
    requires Locates(at, ss) && Nodes(ss) + {t} <= Nodes(ss')
    ensures Locates(at[t.Where() := t], ss')
  {
  }

  lemma LocatesFewer(at: map<Pixel, StackNode>, ss: seq<StackNode>, s: StackNode)
    requires Locates(at, ss)
    ensures forall ss' :: Nodes(ss') == Nodes(ss) - {s} ==> Locates(at - {s.Where()}, ss')
  {
  }

  lemma Unlocated(at: map<Pixel, StackNode>, ss: seq<StackNode>, p: Pixel)
    requires Locates(at, ss) && forall i :: 0 <= i < |ss| ==> ss[i].Where() != p
    ensures p !in at
  {
  }

  /** The nodes of a colour list carry these colours, in order. */
  ghost predicate Colored(order: seq<ColorNode>, hues: seq<int>) {
    |order| == |hues| && forall i :: 0 <= i < |order| ==> order[i].color == hues[i]
  }

  class Index {
    var stack: StackNode?
    const blocks: array<Block?>
    var currentBlock: int
    var anchorX: int
    var anchorY: int
    var replaceMode: bool

    // the nodes of the global list in order, and each covered pixel's node there
    ghost var ss: seq<StackNode>
    ghost var at: map<Pixel, StackNode>
    // each pixel's colour nodes and each block's nodes, in list order
    ghost var order: map<Pixel, seq<ColorNode>>
    ghost var bs: seq<seq<BlockNode>>
    // every stack node, colour node and block node ever made
    ghost var snodes: set<StackNode>
    ghost var cnodes: set<ColorNode>
    ghost var bnodes: set<BlockNode>
    // the abstract value
    ghost var layers: Layers

    ghost predicate ColorsOk(s: StackNode)
      reads `at, `order, `layers, `cnodes, s`colors, cnodes`next
    {
      var p := s.Where();
      && p in at && at[p] == s
      && p in order && p in layers
      && s.Carries(order[p], layers[p], cnodes)
    }

    /** The global list: linked and in scan order. */
    ghost predicate ListOk()
      reads `stack, `ss, `snodes, snodes`next
    {
      StackChain(stack, ss, snodes) && StackSorted(ss)
    }

    /** Every node of the global list carries its pixel's paint order. */
    ghost predicate PaintOk()
      reads `ss, `snodes, `at, `order, `layers, `cnodes, snodes`colors, cnodes`next
    {
      && layers.Keys == at.Keys
      && forall i :: 0 <= i < |ss| ==> ss[i] in snodes && ColorsOk(ss[i])
    }

    /** All but node t carry their pixel's paint order. */
    ghost predicate PaintOkBut(t: StackNode)
      reads `ss, `snodes, `at, `order, `layers, `cnodes, snodes`colors, cnodes`next
    {
      && layers.Keys == at.Keys
      && forall i :: 0 <= i < |ss| ==> ss[i] in snodes && (ss[i] == t || ColorsOk(ss[i]))
    }

    /** Block c's list: linked, in scan order, and as long as its counter says. */
    ghost predicate BlockOk(c: int)
      requires blocks.Length == NBLOCKS == |bs| && 0 <= c < NBLOCKS
      reads `bs, `bnodes, blocks, blocks[c], bnodes`next
    {
      if blocks[c] == null then bs[c] == [] else blocks[c].home == c && blocks[c].Lists(bs[c], bnodes)
    }

    ghost predicate BlocksOk()
      reads `bs, `bnodes, blocks, blocks[..], bnodes`next
    {
      && blocks.Length == NBLOCKS == |bs|
      && (forall c :: 0 <= c < NBLOCKS ==> BlockOk(c))
    }

    ghost predicate Valid()
      reads this, blocks, blocks[..], bnodes`next, snodes, cnodes`next
    {
      && ListOk() && PaintOk() && Locates(at, ss) && WellPainted(layers)
      && blocks.Length == NBLOCKS == |bs| && BlocksOk() && Linked(bs, Nodes(ss), layers)
    }

    /** What a step adds to the heap of the index is new. */
    twostate predicate FreshlyGrown()
      reads `snodes, `cnodes, `bnodes, blocks
    {
      && fresh(snodes - old(snodes)) && fresh(cnodes - old(cnodes)) && fresh(bnodes - old(bnodes))
      && forall c :: 0 <= c < blocks.Length ==> blocks[c] == old(blocks[c]) || fresh(blocks[c])
    }

    constructor ()
      ensures Valid() && layers == map[] && fresh(blocks)
      ensures ss == [] && snodes == {} && cnodes == {} && bnodes == {}
      ensures forall i :: 0 <= i < NBLOCKS ==> blocks[i] == null
    {
      stack := null;
      blocks := new Block?[NBLOCKS](_ => null);
      currentBlock, anchorX, anchorY, replaceMode := -1, -1, -1, false;
      ss, at, order, layers := [], map[], map[], map[];
      snodes, cnodes, bnodes := {}, {}, {};
      bs := seq(NBLOCKS, _ => []);
    }

    /** Work on pixel p's colours does not touch the colours of the other pixels' nodes. */
    twostate lemma ColorsKept(p: Pixel)
      requires forall q :: q != p && q in old(at) ==> q in at && at[q] == old(at)[q]
      requires forall q :: q != p && q in old(order) ==> q in order && order[q] == old(order)[q]
      requires forall q :: q != p && q in old(layers) ==> q in layers && layers[q] == old(layers)[q]
      requires forall s :: s in old(snodes) && s.Where() != p ==> s.colors == old(s.colors)
      requires old(cnodes) <= cnodes
      requires forall d :: d in old(cnodes) && d.home != p ==> d.next == old(d.next)
      ensures forall s :: s in old(snodes) && s.Where() != p && old(ColorsOk(s)) ==> ColorsOk(s)
    {
    }

    /** When node s, the only one whose colours changed, carries its pixel's paint order again, all nodes do. */
    twostate lemma PaintKept(s: StackNode)
      requires old(ListOk()) && old(PaintOkBut(s)) && s in ss && ss == old(ss)
      requires snodes == old(snodes) && layers.Keys == at.Keys
      requires SameBut(old(at), at, s.Where())
      requires SameBut(old(order), order, s.Where())
      requires SameBut(old(layers), layers, s.Where())
      requires forall t :: t in old(snodes) && t.Where() != s.Where() ==> t.colors == old(t.colors)
      requires old(cnodes) <= cnodes
      requires forall d :: d in old(cnodes) && d.home != s.Where() ==> d.next == old(d.next)
      requires ColorsOk(s)
      ensures PaintOk()
    {
      hide StackChain, StackNode.Carries;
      ColorsKept(s.Where());
    }

    lemma InPoolBut(t: StackNode)
      requires PaintOkBut(t)
      ensures layers.Keys == at.Keys && forall i :: 0 <= i < |ss| ==> ss[i] in snodes
    {
    }

    /** The parts of PaintOk that concern one node. */
    lemma PaintAt(s: StackNode)
      requires PaintOk() && s in ss
      ensures PaintOkBut(s) && ColorsOk(s) && s in snodes && layers.Keys == at.Keys
    {
    }

    lemma InPool()
      requires ListOk()
      ensures forall i :: 0 <= i < |ss| ==> ss[i] in snodes
    {
    }

    lemma TopColor(k: nat)
      requires PaintOk() && k < |ss|
      ensures ss[k].Where() in layers
      ensures ss[k].colors == null <==> layers[ss[k].Where()] == []
      ensures ss[k].colors != null ==> ss[k].colors.color == layers[ss[k].Where()][0]
    {
    }

    /** new_block's special case: the pixel is already in the current block, whose colour moves to the top. */
    method MoveToTop(s: StackNode, ghost k: nat)
      requires k < |ss| && ss[k] == s
      requires ListOk() && PaintOk()
      requires Distinct(At(layers, s.Where())) && currentBlock in At(layers, s.Where())
      modifies `order, `layers, s`colors, cnodes`next
      ensures PaintOk() && layers == Paint(old(layers), s.Where(), currentBlock)
    {
      hide SameBut, ListOk, PaintOk, PaintOkBut, ToFront, StackNode.Carries, Distinct, StackNode.Where, Without;
      PaintAt(s);
      ghost var p := s.Where();
      ghost var o' := s.Raise(currentBlock, order[p], layers[p], cnodes);
      SameButPut(at, p, s);
      SameButPut(order, p, o');
      order := order[p := o'];
      SameButPut(layers, p, ToFront(currentBlock, At(layers, p)));
      layers := Paint(layers, p, currentBlock);
      PaintKept(s);
    }

    /** The walk of new_block from a node s0 before p: it stops at the last node before p, with t
        on p's own node if the list has one. */
    method Seek(s0: StackNode, ghost j: nat, p: Pixel) returns (s: StackNode, t: StackNode, ghost k: nat)
      requires ListOk() && j < |ss| && ss[j] == s0 && Before(s0.Where(), p)
      ensures k < |ss| && ss[k] == s && Before(s.Where(), p)
      ensures k + 1 < |ss| ==> !Before(ss[k + 1].Where(), p)
      ensures t.Where() == p ==> k + 1 < |ss| && ss[k + 1] == t
      ensures t.Where() != p ==> k + 1 < |ss| ==> ss[k + 1].Where() != p
    {
      s, t, k := s0, s0, j;
      while s.next != null
        invariant k < |ss| && s == ss[k] && t == s && Before(s.Where(), p)
        decreases |ss| - k
      {
        assert k + 1 < |ss| && s.next == ss[k + 1];
        t := s.next;
        if t.y == p.y && t.x == p.x {
          break;
        }
        if t.y > p.y || (t.y == p.y && t.x > p.x) {
          break;
        }
        s := s.next;
        k := k + 1;
      }
    }

    method LinkFirst(p: Pixel) returns (t: StackNode)
      requires ListOk() && (ss != [] ==> Before(p, ss[0].Where()))
      modifies `stack, `ss, `snodes
      ensures ListOk() && fresh(t) && t.Where() == p && t.colors == null
      ensures ss == [t] + old(ss) && snodes == old(snodes) + {t}
    {
      t := new StackNode(p.x, p.y);
      t.next := stack;
      stack := t;
      assert forall i :: 0 <= i < |ss| ==> Before(p, ss[i].Where());
      ss := [t] + ss;
      snodes := snodes + {t};
    }

    method LinkAfter(s: StackNode, p: Pixel, ghost k: nat) returns (t: StackNode)
      requires ListOk() && 0 < k <= |ss| && ss[k - 1] == s && Before(s.Where(), p)
      requires k < |ss| ==> Before(p, ss[k].Where())
      modifies `ss, `snodes, snodes`next
      ensures ListOk() && fresh(t) && t.Where() == p && t.colors == null
      ensures ss == old(ss[..k] + [t] + ss[k..]) && snodes == old(snodes) + {t}
    {
      t := new StackNode(p.x, p.y);
      InsertSorted(ss, t, k);
      SortedDistinct(ss);
      hide StackSorted;
      Splice(s, t, k);
    }

    /** Links t in behind s. */
    method Splice(s: StackNode, t: StackNode, ghost k: nat)
      requires StackChain(stack, ss, snodes) && Distinct(ss) && 0 < k <= |ss| && ss[k - 1] == s && t !in snodes
      modifies `ss, `snodes, snodes`next, t`next
      ensures StackChain(stack, ss, snodes)
      ensures ss == old(ss[..k] + [t] + ss[k..]) && snodes == old(snodes) + {t}
    {
      ghost var was := ss;
      assert s.next == if k < |was| then was[k] else null;
      t.next := s.next;
      s.next := t;
      ghost var q := was[..k] + [t] + was[k..];
      forall i | 0 <= i < |q| - 1
        ensures q[i].next == q[i + 1]
      {
        if i < k - 1 {
          assert was[i] != s && was[i].next == was[i + 1];
        } else if i > k {
          assert was[i - 1] != s && was[i - 1].next == was[i];
        }
      }
      assert k < |was| ==> was[|was| - 1] != s;
      ss := q;
      snodes := snodes + {t};
    }

    /** The global list's node for p, inserted in scan order when the list has none.
        The walk starts at the head, or at the hint s0 when that sorts before the pixel. */
    method FindOrInsert(p: Pixel, s0: StackNode?, ghost j0: nat) returns (t: StackNode, ghost k: nat)
      requires ListOk()
      requires s0 != null ==> j0 < |ss| && ss[j0] == s0 && Before(s0.Where(), p)
      modifies `stack, `ss, `snodes, snodes`next
      ensures ListOk() && k < |ss| && ss[k] == t && t.Where() == p
      ensures snodes == old(snodes) + {t}
      ensures if t in old(snodes) then ss == old(ss)
              else fresh(t) && t.colors == null && k <= |old(ss)| && ss == old(ss)[..k] + [t] + old(ss)[k..]
      ensures t !in old(snodes) ==> forall i :: 0 <= i < |old(ss)| ==> old(ss)[i].Where() != p
    {
      var s := if s0 == null then stack else s0;
      if s == null || s.y > p.y || (s.y == p.y && s.x > p.x) {
        k := 0;
        t := LinkFirst(p);
      } else {
        t := s;
        k := if s0 == null then 0 else j0;
        if !(s.y == p.y && s.x == p.x) {
          s, t, k := Seek(s, k, p);
          k := k + 1;
          if !(t.y == p.y && t.x == p.x) {
            t := LinkAfter(s, p, k);
          }
        }
      }
    }

    /** Puts the current block on top at node t, whose pixel the current block did not cover. */
    method AddColor(t: StackNode, ghost k: nat, ghost o: seq<ColorNode>)
      requires k < |ss| && ss[k] == t && ListOk() && PaintOkBut(t)
      requires t.Carries(o, At(layers, t.Where()), cnodes)
      requires currentBlock !in At(layers, t.Where())
      modifies t`colors, `at, `order, `layers, `cnodes
      ensures PaintOk() && layers == Paint(old(layers), t.Where(), currentBlock)
      ensures at == old(at)[t.Where() := t] && fresh(cnodes - old(cnodes))
    {
      hide SameBut, ListOk, PaintOk, PaintOkBut, Without, StackNode.Carries, StackNode.Where, Distinct;
      InPoolBut(t);
      ghost var p := t.Where();
      var n := t.Cover(currentBlock, o, At(layers, p), cnodes);
      WithoutAbsent(currentBlock, At(layers, p));
      cnodes := cnodes + {n};
      order := order[p := [n] + o];
      SameButPut(old(at), p, t);
      SameButPut(old(order), p, [n] + o);
      SameButPut(old(layers), p, ToFront(currentBlock, At(old(layers), p)));
      at := at[p := t];
      layers := Paint(layers, p, currentBlock);
      PaintKept(t);
    }

    /** FindOrInsert as the colour lists see it: a new node carries no colours yet. */
    method Place(p: Pixel, s0: StackNode?, ghost j0: nat)
      returns (t: StackNode, ghost k: nat, ghost o: seq<ColorNode>)
      requires ListOk() && PaintOk() && Locates(at, ss)
      requires s0 != null ==> j0 < |ss| && ss[j0] == s0 && Before(s0.Where(), p)
      modifies `stack, `ss, `snodes, snodes`next
      ensures ListOk() && k < |ss| && ss[k] == t && t.Where() == p
      ensures snodes == old(snodes) + {t} && Nodes(old(ss)) + {t} <= Nodes(ss)
      ensures t in old(snodes) || fresh(t)
      ensures PaintOkBut(t) && t.Carries(o, At(layers, p), cnodes)
    {
      hide ListOk, ColorsOk, Locates, StackNode.Carries, Nodes;
      ghost var was := ss;
      t, k := FindOrInsert(p, s0, j0);
      if t in old(snodes) {
        OldPlace(t, k);
        o := order[p];
      } else {
        o := [];
        Unlocated(at, was, p);
        NewPlace(t, k, was);
      }
      NodesMore(was, ss, t, k);
    }

    /** A node that was there carries its pixel's colours. */
    lemma OldPlace(t: StackNode, k: nat)
      requires PaintOk() && k < |ss| && ss[k] == t
      ensures PaintOkBut(t) && t.Where() in order && t.Carries(order[t.Where()], At(layers, t.Where()), cnodes)
    {
    }

    /** A new one carries none, and the others are as they were. */
    lemma NewPlace(t: StackNode, k: nat, was: seq<StackNode>)
      requires layers.Keys == at.Keys && t in snodes && t.colors == null && t.Where() !in at
      requires forall i :: 0 <= i < |was| ==> was[i] in snodes && ColorsOk(was[i])
      requires k <= |was| && ss == was[..k] + [t] + was[k..]
      ensures PaintOkBut(t) && t.Carries([], At(layers, t.Where()), cnodes)
    {
      hide ColorsOk;
      assert forall i :: 0 <= i < |ss| ==> ss[i] == if i < k then was[i] else if i == k then t else was[i - 1];
    }

    /** Paints a pixel the current block does not cover yet. */
    method PaintNew(p: Pixel, s0: StackNode?, ghost j0: nat) returns (t: StackNode)
      requires ListOk() && PaintOk() && Locates(at, ss)
      requires s0 != null ==> j0 < |ss| && ss[j0] == s0 && Before(s0.Where(), p)
      requires currentBlock !in At(layers, p)
      modifies `stack, `ss, `snodes, `at, `order, `layers, `cnodes, snodes, cnodes`next
      ensures ListOk() && PaintOk() && Locates(at, ss) && layers == Paint(old(layers), p, currentBlock)
      ensures Nodes(old(ss)) + {t} <= Nodes(ss) && t.Where() == p
      ensures fresh(snodes - old(snodes)) && fresh(cnodes - old(cnodes))
    {
      hide ListOk, PaintOk, PaintOkBut, Locates, Nodes, StackNode.Carries, ToFront;
      ghost var k, o;
      t, k, o := Place(p, s0, j0);
      AddColor(t, k, o);
      LocatesMore(old(at), old(ss), ss, t);
    }

    /** new_block: paints p with the current block's colour. It makes a block node unless the hint is
        p's own node, which says that the pixel is in the block already. */
    method NewBlock(p: Pixel, s0: StackNode?, ghost j0: nat) returns (n: BlockNode?)
      requires ListOk() && PaintOk() && Locates(at, ss) && Distinct(At(layers, p))
      requires s0 != null ==> j0 < |ss| && ss[j0] == s0 && !Before(p, s0.Where())
      requires currentBlock in At(layers, p) <==> s0 != null && s0.Where() == p
      modifies `stack, `ss, `snodes, `at, `order, `layers, `cnodes, snodes, cnodes`next
      ensures ListOk() && PaintOk() && Locates(at, ss) && layers == Paint(old(layers), p, currentBlock)
      ensures Nodes(old(ss)) <= Nodes(ss)
      ensures fresh(snodes - old(snodes)) && fresh(cnodes - old(cnodes))
      ensures n == null <==> currentBlock in At(old(layers), p)
      ensures n != null ==> fresh(n) && n.next == null && n.home == currentBlock
                            && n.stack in Nodes(ss) && n.stack.Where() == p
    {
      hide ListOk, PaintOk, Locates, Nodes, ToFront;
      InPool();
      if s0 != null && s0.y == p.y && s0.x == p.x {
        MoveToTop(s0, j0);
        return null;
      }
      var t := PaintNew(p, s0, j0);
      n := new BlockNode(t, currentBlock);
    }

    /** The predecessor of s in the global list. */
    method Predecessor(s: StackNode, ghost k: nat) returns (t: StackNode)
      requires StackChain(stack, ss, snodes) && Distinct(ss) && 0 < k < |ss| && ss[k] == s
      ensures t == ss[k - 1]
    {
      ghost var j := 0;
      t := stack;
      while t.next != s
        invariant 0 <= j < k && t == ss[j]
        decreases k - j
      {
        assert ss[j].next == ss[j + 1];
        t := t.next;
        j := j + 1;
      }
      assert ss[j].next == ss[j + 1];
    }

    method Unlink(s: StackNode, ghost k: nat)
      requires ListOk() && k < |ss| && ss[k] == s
      modifies `stack, `ss, snodes`next
      ensures ListOk() && ss == old(ss[..k] + ss[k + 1..])
    {
      RemoveSorted(ss, k);
      SortedDistinct(ss);
      hide StackSorted;
      if stack == s {
        UnlinkFirst(k);
      } else {
        FirstNode(k);
        var t := Predecessor(s, k);
        UnlinkAfter(t, k);
      }
    }

    lemma FirstNode(k: nat)
      requires StackChain(stack, ss, snodes) && Distinct(ss) && k < |ss|
      ensures k == 0 <==> stack == ss[k]
    {
    }

    method UnlinkFirst(ghost k: nat)
      requires StackChain(stack, ss, snodes) && Distinct(ss) && k < |ss| && stack == ss[k]
      modifies `stack, `ss
      ensures StackChain(stack, ss, snodes) && ss == old(ss[..k] + ss[k + 1..])
    {
      FirstNode(k);
      assert |ss| > 1 ==> ss[0].next == ss[1];
      stack := stack.next;
      ss := ss[..k] + ss[k + 1..];
    }

    /** Takes the node after t out of the list. */
    method UnlinkAfter(t: StackNode, ghost k: nat)
      requires StackChain(stack, ss, snodes) && Distinct(ss) && 0 < k < |ss| && t == ss[k - 1]
      modifies `ss, snodes`next
      ensures StackChain(stack, ss, snodes) && ss == old(ss[..k] + ss[k + 1..])
    {
      assert ss[k - 1].next == ss[k] && (k + 1 < |ss| ==> ss[k].next == ss[k + 1]);
      ghost var was := ss;
      t.next := t.next.next;
      ss := was[..k] + was[k + 1..];
      assert forall i :: 0 <= i < |ss| ==> ss[i] == was[if i < k then i else i + 1];
    }

    /** Takes the current block's colour off node s's list. */
    method DropColor(s: StackNode, ghost k: nat)
      requires ListOk() && PaintOk() && k < |ss| && ss[k] == s
      requires Distinct(At(layers, s.Where())) && At(layers, s.Where()) != []
      modifies s`colors, `order, `layers, cnodes`next
      ensures PaintOk()
      ensures layers == old(layers)[s.Where() := Without(currentBlock, At(old(layers), s.Where()))]
    {
      hide SameBut, ListOk, PaintOk, PaintOkBut, Without, StackNode.Carries, Distinct, StackNode.Where;
      PaintAt(s);
      ghost var p := s.Where();
      ghost var o' := s.Uncover(currentBlock, order[p], layers[p], cnodes);
      SameButPut(at, p, s);
      SameButPut(order, p, o');
      SameButPut(layers, p, Without(currentBlock, layers[p]));
      order := order[p := o'];
      layers := layers[p := Without(currentBlock, layers[p])];
      PaintKept(s);
    }

    /** Takes out a node whose pixel has lost its last colour. */
    method DropNode(s: StackNode, ghost k: nat)
      requires ListOk() && PaintOk() && Locates(at, ss) && k < |ss| && ss[k] == s
      modifies `stack, `ss, `at, `layers, snodes`next
      ensures ListOk() && PaintOk() && Locates(at, ss)
      ensures layers == old(layers) - {s.Where()} && Nodes(ss) == Nodes(old(ss)) - {s}
    {
      hide StackChain, Locates, Nodes;
      ghost var p := s.Where();
      ghost var was := ss;
      NodesFewer(ss, k);
      LocatesFewer(at, ss, s);
      Unlink(s, k);
      at := at - {p};
      layers := layers - {p};
      assert forall i :: 0 <= i < |ss| ==> ss[i] == was[if i < k then i else i + 1];
    }

    /** delete_block on a block node at s; the result is the colour now on top, or -1. */
    method DeleteBlockNode(s: StackNode, ghost k: nat) returns (ret: int)
      requires ListOk() && PaintOk() && Locates(at, ss) && k < |ss| && ss[k] == s
      requires Distinct(At(layers, s.Where())) && At(layers, s.Where()) != []
      modifies `stack, `ss, `at, `order, `layers, snodes, cnodes`next
      ensures ListOk() && PaintOk() && Locates(at, ss)
      ensures layers == Erase(old(layers), s.Where(), currentBlock)
      ensures Nodes(ss) == if s.Where() in layers then Nodes(old(ss)) else Nodes(old(ss)) - {s}
      ensures ret == if s.Where() in layers then layers[s.Where()][0] else -1
    {
      hide ListOk, PaintOk, Locates, Nodes, Without, Distinct;
      InPool();
      DropColor(s, k);
      TopColor(k);
      if s.colors == null {
        DropNode(s, k);
        ret := -1;
      } else {
        ret := s.colors.color;
      }
    }

    method SetBlockState(c: int, state: int)
      requires BlocksOk() && 0 <= c < NBLOCKS
      modifies blocks, blocks[c]
      ensures BlocksOk() && blocks[c] != null && blocks[c].state == state
      ensures forall d :: 0 <= d < NBLOCKS && d != c ==> blocks[d] == old(blocks[d])
      ensures old(blocks[c]) == null ==> fresh(blocks[c])
      ensures old(blocks[c]) != null ==> blocks[c] == old(blocks[c])
    {
      if blocks[c] == null {
        blocks[c] := new Block(c);
      }
      blocks[c].state := state;
      forall d | 0 <= d < NBLOCKS
        ensures BlockOk(d)
      {
        assert old(BlockOk(d));
      }
    }

    /** Work on block c's list does not touch the other lists. */
    twostate lemma BlocksKept(c: int)
      requires old(BlocksOk()) && |bs| == NBLOCKS && 0 <= c < NBLOCKS && BlockOk(c)
      requires old(bnodes) <= bnodes
      requires forall d :: d in old(bnodes) && d.home != c ==> d.next == old(d.next)
      requires forall d :: 0 <= d < NBLOCKS && d != c ==> bs[d] == old(bs)[d] && blocks[d] == old(blocks[d])
      requires forall d :: 0 <= d < NBLOCKS && d != c && blocks[d] != null ==> unchanged(blocks[d])
      ensures BlocksOk()
    {
      forall d | 0 <= d < NBLOCKS && d != c
        ensures BlockOk(d)
      {
        assert old(BlockOk(d));
      }
    }

    /** Different blocks' lists are kept apart by the blocks' homes. */
    lemma HomesApart()
      requires BlocksOk()
      ensures forall d :: 0 <= d < NBLOCKS && blocks[d] != null ==> blocks[d].home == d
    {
      forall d | 0 <= d < NBLOCKS && blocks[d] != null
        ensures blocks[d].home == d
      {
        assert BlockOk(d);
      }
    }

    method LinkBlock(c: int, n: BlockNode?, m: BlockNode, ghost k: nat)
      requires BlocksOk() && 0 <= c < NBLOCKS && blocks[c] != null
      requires k <= |bs[c]| && (if n == null then k == 0 else k > 0 && bs[c][k - 1] == n)
      requires m !in bnodes && m.home == c
      requires k > 0 ==> Before(bs[c][k - 1].stack.Where(), m.stack.Where())
      requires k < |bs[c]| ==> Before(m.stack.Where(), bs[c][k].stack.Where())
      modifies `bs, `bnodes, blocks[c], bnodes`next, m`next
      ensures BlocksOk() && bnodes == old(bnodes) + {m}
      ensures bs == old(bs[c := bs[c][..k] + [m] + bs[c][k..]])
    {
      hide Block.Lists;
      assert BlockOk(c);
      HomesApart();
      blocks[c].Insert(n, m, k, bs[c], bnodes);
      bnodes := bnodes + {m};
      bs := bs[c := bs[c][..k] + [m] + bs[c][k..]];
      BlocksKept(c);
    }

    method UnlinkBlock(c: int, n: BlockNode?, m: BlockNode, ghost k: nat)
      requires BlocksOk() && 0 <= c < NBLOCKS && blocks[c] != null
      requires k < |bs[c]| && bs[c][k] == m && (if n == null then k == 0 else k > 0 && bs[c][k - 1] == n)
      modifies `bs, blocks[c], bnodes`next
      ensures BlocksOk() && bs == old(bs[c := bs[c][..k] + bs[c][k + 1..]])
    {
      hide Block.Lists;
      assert BlockOk(c);
      HomesApart();
      blocks[c].Remove(n, m, k, bs[c], bnodes);
      bs := bs[c := bs[c][..k] + bs[c][k + 1..]];
      BlocksKept(c);
    }

    /** The walk of AddPoint along block c's list from a head before p: it stops at the last node
        before p, or reports that the node behind it is p's own. */
    method WalkTo(c: int, p: Pixel) returns (n: BlockNode, hit: bool, ghost k: nat)
      requires BlocksOk() && 0 <= c < NBLOCKS && bs[c] != [] && Before(bs[c][0].stack.Where(), p)
      ensures k < |bs[c]| && bs[c][k] == n && Before(n.stack.Where(), p)
      ensures hit ==> k + 1 < |bs[c]| && n.next == bs[c][k + 1] && bs[c][k + 1].stack.Where() == p
      ensures !hit && k + 1 < |bs[c]| ==> Before(p, bs[c][k + 1].stack.Where())
    {
      assert BlockOk(c);
      ghost var b := bs[c];
      n, hit, k := blocks[c].block, false, 0;
      while n.next != null
        invariant k < |b| && n == b[k] && Before(n.stack.Where(), p)
        invariant n.next == if k + 1 < |b| then b[k + 1] else null
        decreases |b| - k
      {
        assert k + 2 < |b| ==> b[k + 1].next == b[k + 2];
        var s := n.next.stack;
        if s.y > p.y || (s.y == p.y && s.x > p.x) {
          return;
        } else if s.y == p.y && s.x == p.x {
          hit := true;
          return;
        }
        n := n.next;
        k := k + 1;
      }
    }

    /** Paints a pixel the current block has already: only the paint order changes. */
    method Repaint(n: BlockNode, ghost k: nat)
      requires Valid() && 0 <= currentBlock < NBLOCKS && k < |bs[currentBlock]| && bs[currentBlock][k] == n
      modifies `order, `layers, snodes, cnodes`next, `stack, `ss, `snodes, `at, `cnodes
      ensures Valid() && layers == Paint(old(layers), n.stack.Where(), currentBlock)
      ensures fresh(snodes - old(snodes)) && fresh(cnodes - old(cnodes))
    {
      hide ListOk, PaintOk, Locates, BlocksOk;
      var c, p := currentBlock, n.stack.Where();
      assert n.stack in Targets(bs[c]) && p in Marks(bs[c]);
      ghost var j :| 0 <= j < |ss| && ss[j] == n.stack;
      DistinctAt(layers, p);
      PaintLinks(bs, Nodes(ss), layers, p, c, bs[c], Nodes(ss));
      hide *;
      var _ := NewBlock(p, n.stack, j);
    }

    lemma NotYetIn(c: int, p: Pixel, k: nat)
      requires BlocksOk() && Linked(bs, Nodes(ss), layers) && 0 <= c < NBLOCKS && k <= |bs[c]|
      requires k > 0 ==> Before(bs[c][k - 1].stack.Where(), p)
      requires k < |bs[c]| ==> Before(p, bs[c][k].stack.Where())
      ensures c !in At(layers, p)
    {
      assert BlockOk(c);
      Unmarked(bs[c], p, k);
    }

    /** Paints a pixel new to the current block and makes its node, which belongs at position k. */
    method MakeNode(p: Pixel, n: BlockNode?, ghost k: nat) returns (m: BlockNode)
      requires Valid() && 0 <= currentBlock < NBLOCKS
      requires k <= |bs[currentBlock]| && (if n == null then k == 0 else k > 0 && bs[currentBlock][k - 1] == n)
      requires k > 0 ==> Before(bs[currentBlock][k - 1].stack.Where(), p)
      requires k < |bs[currentBlock]| ==> Before(p, bs[currentBlock][k].stack.Where())
      modifies `order, `layers, snodes, cnodes`next, `stack, `ss, `snodes, `at, `cnodes
      ensures ListOk() && PaintOk() && Locates(at, ss) && WellPainted(layers)
      ensures layers == Paint(old(layers), p, currentBlock)
      ensures fresh(m) && m.home == currentBlock && m.stack.Where() == p
      ensures var b := bs[currentBlock];
              Linked(bs[currentBlock := b[..k] + [m] + b[k..]], Nodes(ss), layers)
      ensures fresh(snodes - old(snodes)) && fresh(cnodes - old(cnodes))
    {
      hide ListOk, PaintOk, Locates, BlocksOk, Linked, WellPainted, Distinct, Nodes, ToFront, Paint;
      var c := currentBlock;
      ghost var b, nodes := bs[c], Nodes(ss);
      TargetsIn(bs, nodes, layers, c);
      NotYetIn(c, p, k);
      DistinctAt(layers, p);
      ghost var j := 0;
      if k > 0 {
        j := Located(bs, c, k - 1);
      }
      m := NewBlock(p, if n == null then null else n.stack, j);
      MarksMore(b, m, k);
      PaintLinks(bs, nodes, old(layers), p, c, b[..k] + [m] + b[k..], Nodes(ss));
    }

    /** Adds a pixel to the current block, behind its list's node n or at the head. */
    method AddNew(p: Pixel, n: BlockNode?, ghost k: nat)
      requires Valid() && 0 <= currentBlock < NBLOCKS && blocks[currentBlock] != null
      requires k <= |bs[currentBlock]| && (if n == null then k == 0 else k > 0 && bs[currentBlock][k - 1] == n)
      requires k > 0 ==> Before(bs[currentBlock][k - 1].stack.Where(), p)
      requires k < |bs[currentBlock]| ==> Before(p, bs[currentBlock][k].stack.Where())
      modifies `order, `layers, snodes, cnodes`next, `stack, `ss, `snodes, `at, `cnodes
      modifies `bs, `bnodes, bnodes`next, blocks[currentBlock]
      ensures Valid() && layers == Paint(old(layers), p, currentBlock)
      ensures fresh(snodes - old(snodes)) && fresh(cnodes - old(cnodes)) && fresh(bnodes - old(bnodes))
    {
      hide ListOk, PaintOk, Locates, BlocksOk, Linked, WellPainted, Nodes, Paint;
      var m := MakeNode(p, n, k);
      LinkBlock(currentBlock, n, m, k);
    }

    lemma Parts()
      requires Valid()
      ensures BlocksOk() && blocks.Length == NBLOCKS == |bs|
    {
    }

    lemma Head(c: int)
      requires BlocksOk() && 0 <= c < NBLOCKS
      ensures blocks[c] == null ==> bs[c] == []
      ensures blocks[c] != null ==> blocks[c].block == if bs[c] == [] then null else bs[c][0]
      ensures blocks[c] != null ==> blocks[c].nblocks == |bs[c]|
    {
      assert BlockOk(c);
    }

    /** AddPoint for a block that has its header. */
    method AddToBlock(p: Pixel)
      requires Valid() && 0 <= currentBlock < NBLOCKS && blocks[currentBlock] != null
      modifies `order, `layers, snodes, cnodes`next, `stack, `ss, `snodes, `at, `cnodes
      modifies `bs, `bnodes, bnodes`next, blocks[currentBlock]
      ensures Valid() && layers == Paint(old(layers), p, currentBlock)
      ensures fresh(snodes - old(snodes)) && fresh(cnodes - old(cnodes)) && fresh(bnodes - old(bnodes))
    {
      hide Valid, ListOk, PaintOk, Locates, Linked, WellPainted, BlocksOk, Nodes, Paint;
      Parts();
      Head(currentBlock);
      var n := blocks[currentBlock].block;
      if n == null || n.stack.y > p.y || (n.stack.y == p.y && n.stack.x > p.x) {
        AddNew(p, null, 0);
      } else if n.stack.y == p.y && n.stack.x == p.x {
        Repaint(n, 0);
      } else {
        AddBehind(p);
      }
    }

    /** AddPoint for a pixel after the block's first. */
    method AddBehind(p: Pixel)
      requires Valid() && 0 <= currentBlock < NBLOCKS && blocks[currentBlock] != null
      requires bs[currentBlock] != [] && Before(bs[currentBlock][0].stack.Where(), p)
      modifies `order, `layers, snodes, cnodes`next, `stack, `ss, `snodes, `at, `cnodes
      modifies `bs, `bnodes, bnodes`next, blocks[currentBlock]
      ensures Valid() && layers == Paint(old(layers), p, currentBlock)
      ensures fresh(snodes - old(snodes)) && fresh(cnodes - old(cnodes)) && fresh(bnodes - old(bnodes))
    {
      hide Valid, ListOk, PaintOk, Locates, Linked, WellPainted, BlocksOk, Nodes, Paint;
      Parts();
      var n, hit;
      ghost var k;
      n, hit, k := WalkTo(currentBlock, p);
      if hit {
        Repaint(n.next, k + 1);
      } else {
        AddNew(p, n, k + 1);
      }
    }

    /** AddPoint: the current block gets the pixel, on top of the pixel's paint order. */
    method AddPoint(x: int, y: int)
      requires Valid() && 0 <= currentBlock < NBLOCKS
      modifies `order, `layers, snodes, cnodes`next, `stack, `ss, `snodes, `at, `cnodes
      modifies `bs, `bnodes, bnodes`next, blocks, blocks[..]
      ensures Valid() && layers == Paint(old(layers), Pixel(x, y), currentBlock)
      ensures FreshlyGrown()
    {
      hide ListOk, PaintOk, Locates, Linked, WellPainted, BlocksOk, Nodes, Paint;
      if blocks[currentBlock] == null {
        SetBlockState(currentBlock, 1);
      }
      AddToBlock(Pixel(x, y));
    }

    lemma Located(bs: seq<seq<BlockNode>>, c: int, k: nat) returns (j: nat)
      requires Linked(bs, Nodes(ss), layers) && 0 <= c < NBLOCKS && k < |bs[c]|
      ensures j < |ss| && ss[j] == bs[c][k].stack
      ensures c in At(layers, bs[c][k].stack.Where())
    {
      assert bs[c][k].stack in Targets(bs[c]);
      assert bs[c][k].stack.Where() in Marks(bs[c]);
      j :| 0 <= j < |ss| && ss[j] == bs[c][k].stack;
    }

    /** Takes the colour off a node's pixel once the node at position k has left block c's list b. */
    method EraseNode(s: StackNode, ghost b: seq<BlockNode>, ghost k: nat) returns (ret: int)
      requires ListOk() && PaintOk() && Locates(at, ss) && WellPainted(layers)
      requires 0 <= currentBlock < NBLOCKS == |bs| && k < |b| && b[k].stack == s && BlockSorted(b)
      requires bs[currentBlock] == b[..k] + b[k + 1..]
      requires Linked(bs[currentBlock := b], Nodes(ss), layers)
      modifies `stack, `ss, `at, `order, `layers, snodes, cnodes`next
      ensures ListOk() && PaintOk() && Locates(at, ss) && WellPainted(layers) && Linked(bs, Nodes(ss), layers)
      ensures layers == Erase(old(layers), s.Where(), currentBlock)
      ensures ret == if s.Where() in layers then layers[s.Where()][0] else -1
    {
      hide ListOk, PaintOk, Locates, Linked, WellPainted, Nodes, BlockSorted, Erase, Distinct;
      ghost var c, nodes := currentBlock, Nodes(ss);
      ghost var was := bs[currentBlock := b];
      ghost var j := Located(was, c, k);
      MarksFewer(b, k);
      DistinctAt(layers, s.Where());
      ret := DeleteBlockNode(s, j);
      EraseLinks(was, nodes, old(layers), s, c, bs[c], Nodes(ss));
      assert was[c := bs[c]] == bs;
    }

    /** Takes node m, which follows n or is the head, and its pixel out of the current block. */
    method RemoveNode(n: BlockNode?, m: BlockNode, ghost k: nat) returns (uncolor: int)
      requires Valid() && 0 <= currentBlock < NBLOCKS && blocks[currentBlock] != null
      requires k < |bs[currentBlock]| && bs[currentBlock][k] == m
      requires if n == null then k == 0 else k > 0 && bs[currentBlock][k - 1] == n
      modifies `stack, `ss, `at, `order, `layers, snodes, cnodes`next, `bs, blocks[currentBlock], bnodes`next
      ensures Valid() && layers == Erase(old(layers), m.stack.Where(), currentBlock)
      ensures bs == old(bs[currentBlock := bs[currentBlock][..k] + bs[currentBlock][k + 1..]])
      ensures uncolor == if m.stack.Where() in layers then layers[m.stack.Where()][0] else -1
    {
      hide ListOk, PaintOk, Locates, Linked, WellPainted, BlocksOk, Nodes, Erase;
      ghost var b := bs[currentBlock];
      Sorted(currentBlock);
      UnlinkBlock(currentBlock, n, m, k);
      assert bs[currentBlock := b] == old(bs);
      uncolor := EraseNode(m.stack, b, k);
    }

    lemma Sorted(c: int)
      requires BlocksOk() && 0 <= c < NBLOCKS
      ensures BlockSorted(bs[c])
    {
      assert BlockOk(c);
    }

    /** DeletePoint's walk. It finds the pixel's node m behind n (or at the head), or ends at the
        first node past the pixel or at the end; overran says that the loop body never ran. */
    method FindNode(c: int, p: Pixel) returns (m: BlockNode?, n: BlockNode?, overran: bool, ghost k: nat)
      requires BlocksOk() && 0 <= c < NBLOCKS
      ensures m != null ==> k < |bs[c]| && bs[c][k] == m && m.stack.Where() == p
      ensures m != null ==> if n == null then k == 0 else k > 0 && bs[c][k - 1] == n
      ensures m == null <==> p !in Marks(bs[c])
      ensures overran <==> |bs[c]| == 1 && Before(bs[c][0].stack.Where(), p)
    {
      hide Marks;
      Head(c);
      assert BlockOk(c);
      ghost var b := bs[c];
      m, n, overran, k := null, null, false, 0;
      if blocks[c] == null || blocks[c].block == null {
        Unmarked(b, p, 0);
        return;
      }
      var t := blocks[c].block;
      if t.stack.y > p.y || (t.stack.y == p.y && t.stack.x > p.x) {
        Unmarked(b, p, 0);
        return;
      } else if t.stack.x == p.x && t.stack.y == p.y {
        m := t;
        MarkedAt(b, 0);
        return;
      }
      overran := t.next == null;
      while t.next != null
        invariant k < |b| && t == b[k] && Before(t.stack.Where(), p)
        invariant t.next == if k + 1 < |b| then b[k + 1] else null
        invariant m == null
        decreases |b| - k
      {
        assert k + 2 < |b| ==> b[k + 1].next == b[k + 2];
        var s := t.next.stack;
        if s.y > p.y || (s.y == p.y && s.x > p.x) {
          Unmarked(b, p, k + 1);
          return;
        }
        if s.y == p.y && s.x == p.x {
          m, n, k := t.next, t, k + 1;
          MarkedAt(b, k);
          return;
        }
        t := t.next;
        k := k + 1;
      }
      Unmarked(b, p, k + 1);
    }

    /** DeletePoint: the pixel leaves the current block. It reports 1 for a deletion, but also when the
        block's only node sorts before the pixel, so that the walk compares nothing. */
    method DeletePoint(x: int, y: int) returns (deleted: int)
      requires Valid() && 0 <= currentBlock < NBLOCKS
      modifies `stack, `ss, `at, `order, `layers, snodes, cnodes`next, `bs, blocks[..], bnodes`next
      ensures Valid() && layers == Erase(old(layers), Pixel(x, y), currentBlock)
      ensures deleted == if ReportsDeleted(old(layers), Pixel(x, y), currentBlock) then 1 else 0
    {
      hide ListOk, PaintOk, Locates, Linked, WellPainted, BlocksOk, Nodes, Erase, Overshoots, Region;
      var c, p := currentBlock, Pixel(x, y);
      MarksRegion(bs, Nodes(ss), layers, c);
      Sorted(c);
      OvershootsIff(bs[c], layers, p, c);
      EraseMeaning(layers, p, c);
      Head(c);
      ghost var k;
      var m, n, overran;
      m, n, overran, k := FindNode(c, p);
      if m != null {
        var _ := RemoveNode(n, m, k);
        deleted := 1;
      } else {
        deleted := if overran then 1 else 0;
      }
    }

    method TogglePoint(x: int, y: int)
      requires Valid() && 0 <= currentBlock < NBLOCKS
      modifies `order, `layers, snodes, cnodes`next, `stack, `ss, `snodes, `at, `cnodes
      modifies `bs, `bnodes, bnodes`next, blocks, blocks[..]
      ensures Valid() && layers == Toggle(old(layers), Pixel(x, y), currentBlock)
      ensures FreshlyGrown()
    {
      hide ListOk, PaintOk, Locates, Linked, WellPainted, BlocksOk, Nodes, Overshoots, Region;
      EraseMeaning(layers, Pixel(x, y), currentBlock);
      var deleted := DeletePoint(x, y);
      if deleted == 0 {
        AddPoint(x, y);
      }
    }

    /** The current block's colour leaves a pixel of another block i: the pixel keeps colour i. */
    method EraseForeign(s: StackNode, i: int, ghost b: seq<BlockNode>)
      requires ListOk() && PaintOk() && Locates(at, ss) && WellPainted(layers)
      requires i != currentBlock && b != [] && b[0].stack == s
      requires Targets(b) <= Nodes(ss) && Marks(b) <= Region(layers, i)
      modifies `stack, `ss, `at, `order, `layers, snodes, cnodes`next
      ensures ListOk() && PaintOk() && Locates(at, ss) && WellPainted(layers)
      ensures layers == Erase(old(layers), s.Where(), currentBlock) && Region(layers, i) == old(Region(layers, i))
      ensures Targets(b) <= Nodes(ss)
    {
      hide ListOk, PaintOk, Locates, WellPainted, Erase, Distinct, Nodes;
      ghost var j := FirstAt(ss, b);
      MarkedAt(b, 0);
      EraseMeaning(layers, s.Where(), currentBlock);
      DistinctAt(layers, s.Where());
      var _ := DeleteBlockNode(s, j);
    }

    /** One round of delete_all: block i's first node goes, and its pixel loses the colour of the
        current block, whatever i is. */
    method DeleteFirst(i: int)
      requires ListOk() && PaintOk() && Locates(at, ss) && WellPainted(layers)
      requires blocks.Length == NBLOCKS == |bs| && BlocksOk() && 0 <= i < NBLOCKS && bs[i] != []
      requires if i == currentBlock then Linked(bs, Nodes(ss), layers)
               else Targets(bs[i]) <= Nodes(ss) && Marks(bs[i]) <= Region(layers, i)
      modifies `stack, `ss, `at, `order, `layers, snodes, cnodes`next, `bs, blocks[i], bnodes`next
      ensures ListOk() && PaintOk() && Locates(at, ss) && WellPainted(layers)
      ensures BlocksOk() && bs == old(bs[i := bs[i][1..]])
      ensures layers == Erase(old(layers), old(bs[i][0].stack.Where()), currentBlock)
      ensures if i == currentBlock then Linked(bs, Nodes(ss), layers)
              else Targets(bs[i]) <= Nodes(ss) && Marks(bs[i]) <= Region(layers, i) == old(Region(layers, i))
    {
      hide ListOk, PaintOk, Locates, WellPainted, Linked, BlocksOk, Erase, Nodes, Targets, Marks, Region;
      Head(i);
      ghost var b := bs[i];
      assert b[..0] + b[1..] == b[1..];
      var n := blocks[i].block;
      if i == currentBlock {
        var _ := RemoveNode(null, n, 0);
      } else {
        MarksTail(b);
        UnlinkBlock(i, null, n, 0);
        EraseForeign(n.stack, i, b);
      }
    }

    /** delete_all's loop on block i. */
    method EmptyBlock(i: int)
      requires Valid() && 0 <= i < NBLOCKS
      modifies `stack, `ss, `at, `order, `layers, snodes, cnodes`next, `bs, blocks[..], bnodes`next
      ensures ListOk() && PaintOk() && Locates(at, ss) && WellPainted(layers)
      ensures blocks.Length == NBLOCKS == |bs| && BlocksOk() && bs[i] == []
      ensures i == currentBlock ==> Linked(bs, Nodes(ss), layers)
      ensures i == currentBlock ==> forall q :: Without(i, At(layers, q)) == Without(i, At(old(layers), q))
      ensures i != currentBlock ==> Region(layers, i) == old(Region(layers, i))
      ensures old(bs[i]) == [] ==> bs == old(bs) && layers == old(layers) && ss == old(ss)
    {
      hide ListOk, PaintOk, Locates, WellPainted, BlocksOk, Linked, Erase, Nodes, Without, Region, Marks, Targets;
      MarksRegion(bs, Nodes(ss), layers, i);
      TargetsIn(bs, Nodes(ss), layers, i);
      Head(i);
      while blocks[i] != null && blocks[i].block != null
        invariant ListOk() && PaintOk() && Locates(at, ss) && WellPainted(layers)
        invariant |bs| == NBLOCKS && BlocksOk() && |bs[i]| <= |old(bs[i])|
        invariant bs[i] == [] <==> blocks[i] == null || blocks[i].block == null
        invariant if i == currentBlock then Linked(bs, Nodes(ss), layers)
                  else Targets(bs[i]) <= Nodes(ss) && Marks(bs[i]) <= Region(layers, i) == old(Region(layers, i))
        invariant i == currentBlock ==> forall q :: Without(i, At(layers, q)) == Without(i, At(old(layers), q))
        invariant |bs[i]| == |old(bs[i])| ==> bs == old(bs) && layers == old(layers) && ss == old(ss)
        decreases |bs[i]|
      {
        EraseMeaning(layers, bs[i][0].stack.Where(), currentBlock);
        DeleteFirst(i);
        Head(i);
      }
    }

    /** delete_all. Emptying the current block takes its colour off every pixel. Emptying any other
        block that has pixels breaks the index: its list is gone but its colour stays on every pixel. */
    method DeleteAll(i: int)
      requires Valid() && -1 <= i < NBLOCKS
      modifies `stack, `ss, `at, `order, `layers, snodes, cnodes`next, `bs, blocks[..], bnodes`next
      ensures i != -1 && i == currentBlock ==> forall q :: At(layers, q) == Without(i, At(old(layers), q))
      ensures i != -1 && i != currentBlock ==> Region(layers, i) == old(Region(layers, i))
      ensures i != -1 ==> |bs| == NBLOCKS && bs[i] == []
      ensures Valid() <==> i == -1 || i == currentBlock || old(Region(layers, i)) == {}
    {
      hide ListOk, PaintOk, Locates, WellPainted, BlocksOk, Linked, Nodes, Without, Region;
      if i != -1 {
        EmptyRegion(bs, Nodes(ss), layers, i);
        EmptyBlock(i);
        EmptyRegion(bs, Nodes(ss), layers, i);
        if i == currentBlock {
          WithoutSelf(layers, i);
        }
      }
    }

    /** AddBlock: the rectangle between the anchor and (x,y) goes on top; in replace mode the current
        block loses everything else. */
    method AddBlock(x: int, y: int)
      requires Valid() && 0 <= currentBlock < NBLOCKS
      modifies `order, `layers, snodes, cnodes`next, `stack, `ss, `snodes, `at, `cnodes
      modifies `bs, `bnodes, bnodes`next, blocks, blocks[..]
      ensures Valid() && FreshlyGrown()
      ensures forall q :: At(layers, q) == AddedAt(old(layers), q, currentBlock, anchorX, anchorY, x, y, replaceMode)
    {
      var x0, x1 := if x < anchorX then x else anchorX, if x < anchorX then anchorX else x;
      var y0, y1 := if y < anchorY then y else anchorY, if y < anchorY then anchorY else y;
      hide Valid, Without, PaintedDownTo;
      if replaceMode {
        DeleteAll(currentBlock);
      }
      ghost var base := layers;
      PaintStart(base, currentBlock, x0, y0, x1, y1);
      var j := y1;
      while j >= y0
        invariant Valid() && FreshlyGrown() && j >= y0 - 1
        invariant PaintedDownTo(base, layers, currentBlock, x0, y0, x1, y1, j, x1)
      {
        AddRow(base, x0, y0, x1, y1, j);
        PaintRow(base, layers, currentBlock, x0, y0, x1, y1, j);
        j := j - 1;
      }
      PaintEnd(old(layers), base, layers, currentBlock, anchorX, anchorY, x, y, replaceMode, x0, y0, x1, y1);
    }

    /** One row of the rectangle, from right to left. */
    method AddRow(ghost base: Layers, x0: int, ghost y0: int, x1: int, ghost y1: int, j: int)
      requires Valid() && 0 <= currentBlock < NBLOCKS && x0 <= x1 && y0 <= j <= y1
      requires PaintedDownTo(base, layers, currentBlock, x0, y0, x1, y1, j, x1)
      modifies `order, `layers, snodes, cnodes`next, `stack, `ss, `snodes, `at, `cnodes
      modifies `bs, `bnodes, bnodes`next, blocks, blocks[..]
      ensures Valid() && FreshlyGrown()
      ensures PaintedDownTo(base, layers, currentBlock, x0, y0, x1, y1, j, x0 - 1)
    {
      hide Valid, PaintedDownTo;
      var i := x1;
      while i >= x0
        invariant Valid() && FreshlyGrown() && i >= x0 - 1
        invariant PaintedDownTo(base, layers, currentBlock, x0, y0, x1, y1, j, i)
      {
        PaintStep(base, layers, currentBlock, x0, y0, x1, y1, j, i);
        AddPoint(i, j);
        i := i - 1;
      }
    }

    /** ToggleBlock: the rectangle between the anchor and (x,y) is toggled, point by point. */
    method ToggleBlock(x: int, y: int)
      requires Valid() && 0 <= currentBlock < NBLOCKS
      modifies `order, `layers, snodes, cnodes`next, `stack, `ss, `snodes, `at, `cnodes
      modifies `bs, `bnodes, bnodes`next, blocks, blocks[..]
      ensures Valid() && FreshlyGrown()
      ensures forall q :: At(layers, q) == ToggledAt(old(layers), q, currentBlock, Box(anchorX, anchorY, x, y))
    {
      var x0, x1 := if x < anchorX then x else anchorX, if x < anchorX then anchorX else x;
      var y0, y1 := if y < anchorY then y else anchorY, if y < anchorY then anchorY else y;
      hide Valid, ToggledDownTo, ToggledAt;
      ghost var base, box := layers, Box(anchorX, anchorY, x, y);
      ToggleStart(base, currentBlock, box, y1, x1);
      var j := y1;
      while j >= y0
        invariant Valid() && FreshlyGrown() && j >= y0 - 1
        invariant ToggledDownTo(base, layers, currentBlock, box, j, x1)
      {
        ToggleRowOf(base, box, x0, x1, j);
        ToggleRow(base, layers, currentBlock, box, x0, x1, j);
        j := j - 1;
      }
      ToggleEnd(base, layers, currentBlock, box, j, x1);
    }

    /** One row of the rectangle, from right to left. */
    method ToggleRowOf(ghost base: Layers, ghost box: Box, x0: int, x1: int, j: int)
      requires Valid() && 0 <= currentBlock < NBLOCKS && x0 <= x1
      requires ToggledDownTo(base, layers, currentBlock, box, j, x1)
      requires forall i :: x0 <= i <= x1 ==> box.Has(Pixel(i, j))
      modifies `order, `layers, snodes, cnodes`next, `stack, `ss, `snodes, `at, `cnodes
      modifies `bs, `bnodes, bnodes`next, blocks, blocks[..]
      ensures Valid() && FreshlyGrown()
      ensures ToggledDownTo(base, layers, currentBlock, box, j, x0 - 1)
    {
      hide Valid, ToggledDownTo;
      var i := x1;
      while i >= x0
        invariant Valid() && FreshlyGrown() && i >= x0 - 1
        invariant ToggledDownTo(base, layers, currentBlock, box, j, i)
      {
        ToggleStep(base, layers, currentBlock, box, j, i);
        TogglePoint(i, j);
        i := i - 1;
      }
    }

    /** DeleteBlock: the current block loses the rectangle between the anchor and (x,y). */
    method DeleteBlock(x: int, y: int)
      requires Valid() && 0 <= currentBlock < NBLOCKS
      modifies `stack, `ss, `at, `order, `layers, snodes, cnodes`next, `bs, blocks[..], bnodes`next
      ensures Valid()
      ensures forall q :: At(layers, q) == DeletedAt(old(layers), q, currentBlock, anchorX, anchorY, x, y)
    {
      var x0, x1 := if x > anchorX then anchorX else x, if x > anchorX then x else anchorX;
      var y0, y1 := if y > anchorY then anchorY else y, if y > anchorY then y else anchorY;
      hide Valid, Without, ErasedUpTo, ReportsDeleted;
      ghost var base := layers;
      EraseStart(base, currentBlock, x0, y0, x1, y1);
      var j := y0;
      while j <= y1
        invariant Valid() && j <= y1 + 1
        invariant ErasedUpTo(base, layers, currentBlock, x0, y0, x1, y1, j, x0)
      {
        var i := x0;
        while i <= x1
          invariant Valid() && i <= x1 + 1
          invariant ErasedUpTo(base, layers, currentBlock, x0, y0, x1, y1, j, i)
        {
          EraseStep(base, layers, currentBlock, x0, y0, x1, y1, j, i);
          var _ := DeletePoint(i, j);
          i := i + 1;
        }
        EraseRow(base, layers, currentBlock, x0, y0, x1, y1, j);
        j := j + 1;
      }
      EraseEnd(base, layers, currentBlock, anchorX, anchorY, x, y, x0, y0, x1, y1);
    }

    /** Any run of user actions, with the current block changing in between, keeps both views of the
        index in agreement and leaves the paint orders the run calls for. */
    method Run(steps: seq<Step>)
      requires Valid() && 0 <= currentBlock < NBLOCKS && Legal(steps)
      modifies `order, `layers, snodes, cnodes`next, `stack, `ss, `snodes, `at, `cnodes
      modifies `bs, `bnodes, bnodes`next, blocks, blocks[..], `currentBlock
      ensures Valid() && FreshlyGrown()
      ensures layers == Replay(old(layers), old(currentBlock), steps)
      ensures currentBlock == SelectedAfter(old(currentBlock), steps)
    {
      hide Valid, Toggle, Paint, Erase;
      for k := 0 to |steps|
        invariant Valid() && FreshlyGrown() && 0 <= currentBlock < NBLOCKS
        invariant layers == Replay(old(layers), old(currentBlock), steps[..k])
        invariant currentBlock == SelectedAfter(old(currentBlock), steps[..k])
      {
        assert steps[..k + 1] == steps[..k] + [steps[k]];
        ReplayMore(old(layers), old(currentBlock), steps[..k], steps[k]);
        match steps[k]
        case Select(c) => SelectBlock(c);
        case Add(p) => AddPoint(p.x, p.y);
        case Delete(p) => var _ := DeletePoint(p.x, p.y);
        case Flip(p) => TogglePoint(p.x, p.y);
      }
      assert steps[..|steps|] == steps;
    }

    method SelectBlock(c: int)
      requires Valid()
      modifies `currentBlock
      ensures Valid() && currentBlock == c
    {
      currentBlock := c;
    }
  }

  /** With block 2 current block 3 is emptied: its list has no pixel left, and its colour stays on one. */
  method EmptiedForeignBlock() returns (index: Index)
    ensures |index.bs| == NBLOCKS && index.bs[3] == [] && Region(index.layers, 3) == {Pixel(0, 0)}
    ensures !index.Valid()
  {
    hide Index.Valid, Paint, Region;
    TwoPixels(2, 3);
    index := new Index();
    index.SelectBlock(3);
    index.AddPoint(0, 0);
    index.SelectBlock(2);
    index.AddPoint(1, 0);
    index.DeleteAll(3);
  }

  lemma TwoPixels(c: int, d: int)
    requires c != d
    ensures Region(Paint(Paint(map[], Pixel(0, 0), d), Pixel(1, 0), c), d) == {Pixel(0, 0)}
  {
    assert ToFront(c, []) == [c] && ToFront(d, []) == [d];
    assert Paint(map[], Pixel(0, 0), d) == map[Pixel(0, 0) := [d]];
  }

  lemma TargetsIn(bs: seq<seq<BlockNode>>, nodes: set<StackNode>, m: Layers, c: int)
    requires Linked(bs, nodes, m) && 0 <= c < NBLOCKS
    ensures Targets(bs[c]) <= nodes
  {
  }

  lemma MarksRegion(bs: seq<seq<BlockNode>>, nodes: set<StackNode>, m: Layers, c: int)
    requires Linked(bs, nodes, m) && 0 <= c < NBLOCKS
    ensures Marks(bs[c]) == Region(m, c)
  {
  }

  lemma MarkedAt(b: seq<BlockNode>, k: nat)
    requires k < |b|
    ensures b[k].stack.Where() in Marks(b)
  {
  }

  lemma EmptyRegion(bs: seq<seq<BlockNode>>, nodes: set<StackNode>, m: Layers, c: int)
    requires |bs| == NBLOCKS && 0 <= c < NBLOCKS
    ensures Linked(bs, nodes, m) ==> (bs[c] == [] <==> Region(m, c) == {})
  {
    if bs[c] != [] {
      MarkedAt(bs[c], 0);
    }
  }

  lemma MarksTail(b: seq<BlockNode>)
    requires b != []
    ensures Marks(b[1..]) <= Marks(b) && Targets(b[1..]) <= Targets(b)
  {
    assert forall n :: n in b[1..] ==> n in b;
  }

  lemma FirstAt(ss: seq<StackNode>, b: seq<BlockNode>) returns (j: nat)
    requires b != [] && Targets(b) <= Nodes(ss)
    ensures j < |ss| && ss[j] == b[0].stack
  {
    assert b[0].stack in Targets(b);
    j :| 0 <= j < |ss| && ss[j] == b[0].stack;
  }

  lemma WithoutSelf(m: Layers, c: int)
    requires Region(m, c) == {}
    ensures forall q :: Without(c, At(m, q)) == At(m, q)
  {
    forall q
      ensures Without(c, At(m, q)) == At(m, q)
    {
      assert q !in Region(m, c);
      WithoutAbsent(c, At(m, q));
    }
  }

  lemma OvershootsIff(b: seq<BlockNode>, m: Layers, p: Pixel, c: int)
    requires BlockSorted(b) && Marks(b) == Region(m, c)
    ensures Overshoots(m, p, c) <==> |b| == 1 && Before(b[0].stack.Where(), p)
  {
    if |b| == 1 {
      assert Marks(b) == {b[0].stack.Where()};
    }
    if Overshoots(m, p, c) {
      var q :| Region(m, c) == {q} && Before(q, p);
      assert q in Marks(b);
      if |b| > 1 {
        MarkedAt(b, 0);
        MarkedAt(b, 1);
        assert false;
      }
      MarkedAt(b, 0);
    }
  }

  lemma MarksMore(b: seq<BlockNode>, m: BlockNode, k: nat)
    requires k <= |b|
    ensures Marks(b[..k] + [m] + b[k..]) == Marks(b) + {m.stack.Where()}
    ensures Targets(b[..k] + [m] + b[k..]) == Targets(b) + {m.stack}
  {
    assert forall n :: n in b[..k] + [m] + b[k..] <==> n in b || n == m;
  }

  lemma MarksFewer(b: seq<BlockNode>, k: nat)
    requires BlockSorted(b) && k < |b|
    ensures Marks(b[..k] + b[k + 1..]) == Marks(b) - {b[k].stack.Where()}
    ensures Targets(b[..k] + b[k + 1..]) <= Targets(b)
  {
    var b' := b[..k] + b[k + 1..];
    assert forall i :: 0 <= i < |b'| ==> b'[i] == if i < k then b[i] else b[i + 1];
    assert forall i :: 0 <= i < |b| && i != k ==> b[i].stack.Where() != b[k].stack.Where();
    hide BlockSorted, Before;
    forall i | 0 <= i < |b| && i != k
      ensures b[i] in b'
    {
      assert b[i] == b'[if i < k then i else i - 1];
    }
  }

  lemma Unmarked(b: seq<BlockNode>, p: Pixel, k: nat)
    requires BlockSorted(b) && k <= |b|
    requires k > 0 ==> Before(b[k - 1].stack.Where(), p)
    requires k < |b| ==> Before(p, b[k].stack.Where())
    ensures p !in Marks(b)
  {
    assert forall i :: 0 <= i < k ==> Before(b[i].stack.Where(), p);
    assert forall i :: k <= i < |b| ==> Before(p, b[i].stack.Where());
  }

  lemma PaintLinks(bs: seq<seq<BlockNode>>, nodes: set<StackNode>, m: Layers, p: Pixel, c: int,
                   b': seq<BlockNode>, nodes': set<StackNode>)
    requires Linked(bs, nodes, m) && WellPainted(m) && 0 <= c < NBLOCKS
    requires nodes <= nodes' && Targets(b') <= nodes' && Marks(b') == Marks(bs[c]) + {p}
    ensures Linked(bs[c := b'], nodes', Paint(m, p, c)) && WellPainted(Paint(m, p, c))
  {
    PaintMeaning(m, p, c);
  }

  lemma EraseLinks(bs: seq<seq<BlockNode>>, nodes: set<StackNode>, m: Layers, s: StackNode, c: int,
                   b': seq<BlockNode>, nodes': set<StackNode>)
    requires Linked(bs, nodes, m) && WellPainted(m) && 0 <= c < NBLOCKS
    requires Targets(b') <= Targets(bs[c]) && Marks(b') == Marks(bs[c]) - {s.Where()}
    requires nodes' == if s.Where() in Erase(m, s.Where(), c) then nodes else nodes - {s}
    ensures Linked(bs[c := b'], nodes', Erase(m, s.Where(), c)) && WellPainted(Erase(m, s.Where(), c))
  {
    var p := s.Where();
    EraseMeaning(m, p, c);
    var bs' := bs[c := b'];
    forall d | 0 <= d < NBLOCKS
      ensures Targets(bs'[d]) <= nodes'
    {
      var b := bs'[d];
      if p !in Erase(m, p, c) {
        assert p !in Region(Erase(m, p, c), d);
        assert p !in Marks(b);
        assert forall n :: n in b ==> n.stack.Where() in Marks(b);
        assert s !in Targets(b);
      }
    }
  }

  lemma NodesFewer(ss: seq<StackNode>, k: nat)
    requires StackSorted(ss) && k < |ss|
    ensures Nodes(ss[..k] + ss[k + 1..]) == Nodes(ss) - {ss[k]}
  {
    var ss' := ss[..k] + ss[k + 1..];
    assert forall i :: 0 <= i < |ss'| ==> ss'[i] == if i < k then ss[i] else ss[i + 1];
    assert forall i :: 0 <= i < |ss| && i != k ==>
      ss[i] == ss'[if i < k then i else i - 1] && ss[i].Where() != ss[k].Where();
  }

  lemma InsertSorted(ss: seq<StackNode>, t: StackNode, k: nat)
    requires StackSorted(ss) && k <= |ss|
    requires k > 0 ==> Before(ss[k - 1].Where(), t.Where())
    requires k < |ss| ==> Before(t.Where(), ss[k].Where())
    ensures StackSorted(ss[..k] + [t] + ss[k..])
  {
    assert forall i :: 0 <= i < k ==> Before(ss[i].Where(), t.Where());
    assert forall i :: k <= i < |ss| ==> Before(t.Where(), ss[i].Where());
  }

  lemma RemoveSortedBlock(b: seq<BlockNode>, k: nat)
    requires BlockSorted(b) && k < |b|
    ensures BlockSorted(b[..k] + b[k + 1..])
    ensures forall i, j :: 0 <= i < j < |b| ==> b[i] != b[j]
  {
    var b' := b[..k] + b[k + 1..];
    assert forall i :: 0 <= i < |b'| ==> b'[i] == if i < k then b[i] else b[i + 1];
  }

  lemma InsertSortedBlock(b: seq<BlockNode>, m: BlockNode, k: nat)
    requires BlockSorted(b) && k <= |b|
    requires k > 0 ==> Before(b[k - 1].stack.Where(), m.stack.Where())
    requires k < |b| ==> Before(m.stack.Where(), b[k].stack.Where())
    ensures BlockSorted(b[..k] + [m] + b[k..])
  {
    assert forall i :: 0 <= i < k ==> Before(b[i].stack.Where(), m.stack.Where());
    assert forall i :: k <= i < |b| ==> Before(m.stack.Where(), b[i].stack.Where());
  }

  lemma RaiseHue(o: seq<ColorNode>, hues: seq<int>, k: nat)
    requires Colored(o, hues) && k < |o| && Distinct(hues)
    ensures Colored([o[k]] + o[..k] + o[k + 1..], ToFront(hues[k], hues))
  {
    WithoutAt(hues[k], hues, k);
  }

  lemma DropHue(o: seq<ColorNode>, hues: seq<int>, k: nat)
    requires Colored(o, hues) && k < |o| && Distinct(hues)
    ensures Colored(o[..k] + o[k + 1..], Without(hues[k], hues))
  {
    WithoutAt(hues[k], hues, k);
  }
}
