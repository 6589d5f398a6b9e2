/** The lanes of one captured frame: PFOR lanes become lane blocks, PivCo lanes become
    trees, node bits and blocks. */
module PivcoLanes {
  import opened Common
  import opened Words
  import opened Streams
  import opened PivcoTree
  import opened PivcoWalk
  import opened PivcoBlocks
  import opened PivcoParts
  import PforPlan

  // ---------------------------------------------------------------------------
  // A PivCo lane

  /** The Huffman tree of a lane and the symbol of each of its ranks. */
  datatype LaneTree = LaneTree(tree: Tree, symbols: SymbolTable)

  type SymbolTable = s: seq<Small> | |s| == MAX_SYMBOLS witness seq(MAX_SYMBOLS, i => 0)

  /** The nodes of s in pre-order, when its root has index at. */
  function Preorder(s: Shape, at: nat): (nodes: seq<TreeNode>)
    ensures |nodes| == Nodes(s)
  {
    match s
    case Leaf(first, depth, level) => [TreeNode(0, LeafWord(first, depth, level))]
    case Inner(first, level, _, left, right) =>
      [TreeNode(Links(at + 1, at + 1 + Nodes(left)), InnerWord(first, level))] + Preorder(left,
        at + 1) + Preorder(right, at + 1 + Nodes(left))
  }

  lemma CutThree<T>(s: seq<T>, lo: nat, mid: nat, hi: nat)
    requires lo < mid <= hi <= |s|
    ensures s[lo..hi] == [s[lo]] + s[lo + 1..mid] + s[mid..hi]
  {
  }

  /** A laid tree is its pre-order. */
  lemma {:induction false} LaidIsPreorder(nodes: seq<TreeNode>, both: seq<bool>, at: nat, s: Shape)
    requires Laid(nodes, both, at, s)
    ensures nodes[at..at + Nodes(s)] == Preorder(s, at)
    decreases s
  {
    hide LeafWord, InnerWord, Links;
    if s.Inner? {
      LaidIsPreorder(nodes, both, at + 1, s.left);
      LaidIsPreorder(nodes, both, at + 1 + Nodes(s.left), s.right);
      CutThree(nodes, at, at + 1 + Nodes(s.left), at + Nodes(s));
    }
  }

  function InnerCount(nodes: seq<TreeNode>): (n: nat)
    ensures n <= |nodes|
  {
    if |nodes| == 0 then 0 else InnerCount(nodes[..|nodes| - 1]) + (if IsLeaf(nodes[|nodes| - 1]) then 0 else 1)
  }

  /** What one block adds to a plan. */
  function BlockPart(s: Shape, nodes: seq<NodeBits>, out: nat, length: nat): Plan {
    Plan([], [], nodes, [PivcoBlock(0, 0, 0, out, length, Nodes(s))], [], [], InnerCount(Preorder(s, 0)), 0, 0, 0)
  }

  /** Blocks alone bring no symbols, trees or lanes. */
  predicate Bare(p: Plan) {
    |p.symbols| == 0 && |p.trees| == 0 && |p.laneBlocks| == 0 && |p.joins| == 0 && p.laneBytes == 0
      && p.pivcoLanes == 0 && p.pforLanes == 0
  }

  datatype Blocks = Blocks(bit: nat, part: Plan)

  /** A block's walk, by the bit it starts at, its length and its output. */
  type Walker = (nat, nat, nat) -> Option<Walked>

  ghost function WalkerOf(s: Shape, data: seq<Byte>, payload: nat): Walker {
    (bit: nat, length: nat, out: nat) => if bit <= 8 * |data| then Walk(s, data, bit, length, payload, out) else None
  }

  /** The blocks of nb symbols, one after another in the lane's bits. */
  ghost function LaneBlocks(s: Shape, walk: Walker, bit: nat, nb: nat, blockSize: nat, out: nat): (b: Option<Blocks>)
    requires blockSize > 0
    ensures b.Some? ==> Bare(b.value.part)
    decreases nb
  {
    if nb == 0 then Some(Blocks(bit, EMPTY))
    else
      var length := if nb < blockSize then nb else blockSize;
      var w := walk(bit, length, out);
      if w.None? then None
      else Prepend(BlockPart(s, w.value.nodes, out, length),
        LaneBlocks(s, walk, w.value.bit, nb - length, blockSize, out + length))
  }

  function Prepend(part: Plan, rest: Option<Blocks>): Option<Blocks> {
    if rest.None? then None else Some(Blocks(rest.value.bit, Join(part, rest.value.part)))
  }

  /** A whole lane with this tree; its bits must be used up. */
  ghost function TreeLane(t: LaneTree, data: seq<Byte>, nb: nat, blockSize: nat, payload: nat,
                          out: nat): (p: Option<Plan>)
    requires blockSize > 0
    ensures p.Some? ==> p.value.laneBytes == 0
  {
    var s := ShapeOf(t.tree, 0, 0, t.tree.numRanks);
    if s.None? || Nodes(s.value) > MAX_TREE_NODES then None
    else
      var b := LaneBlocks(s.value, WalkerOf(s.value, data, payload), 0, nb, blockSize, out);
      if b.None? || (b.value.bit + 7) / 8 != |data| then None
      else Some(b.value.part.(symbols := t.symbols, trees := Preorder(s.value, 0), pivcoLanes := 1))
  }

  // ---------------------------------------------------------------------------
  // A PFOR lane

  ghost function PforBlocks(f: Parser, w: seq<Byte>, nb: nat, at: nat, out: nat): (b: Option<seq<LaneBlock>>)
    requires Sound(f)
    decreases nb
  {
    if nb == 0 then
      if |w| == 0 then Some([]) else None
    else if f(w).None? || at > UINT32_MAX || out > UINT32_MAX then
      None
    else
      var size := f(w).value.0;
      var rest := PforBlocks(f, w[size..], if nb < BLOCK then 0 else nb - BLOCK, at + size, out + BLOCK);
      if rest.None? then None else Some([LaneBlock(at, out)] + rest.value)
  }

  ghost function PforLane(f: Parser, w: seq<Byte>, nb: nat, at: nat, out: nat): (p: Option<Plan>)
    requires Sound(f)
    ensures p.Some? ==> p.value.laneBytes == 0
  {
    var b := PforBlocks(f, w, nb, at, out);
    if b.None? then None else Some(EMPTY.(laneBlocks := b.value, pforLanes := 1))
  }

  /** A planned PFOR lane is a stream its decoder accepts. */
  lemma {:induction false} PforLaneDecodes(f: Parser, w: seq<Byte>, nb: nat, at: nat, out: nat)
    requires Sound(f) && PforBlocks(f, w, nb, at, out).Some?
    ensures Stream(f, w, nb).Some?
    decreases nb
  {
    if nb > 0 {
      PforLaneDecodes(f, w[f(w).value.0..], if nb < BLOCK then 0 else nb - BLOCK, at + f(w).value.0, out + BLOCK);
    }
  }

  // ---------------------------------------------------------------------------
  // Limits

  /** The bases the next block gets fit in 32 bits. */
  predicate BasesFit(at: Bases) {
    at.nodes <= UINT32_MAX && at.trees <= UINT32_MAX && at.symbols <= UINT32_MAX
  }

  predicate BlockFits(b: PivcoBlock) {
    b.nodeBase <= UINT32_MAX && b.treeBase <= UINT32_MAX && b.symbolBase <= UINT32_MAX
  }

  ghost predicate BlocksFit(p: Plan) {
    forall i :: 0 <= i < |p.blocks| ==> BlockFits(p.blocks[i])
  }

  lemma BlocksFitPrefix(a: Plan, b: Plan)
    requires BlocksFit(Join(a, b))
    ensures BlocksFit(a)
  {
    forall i | 0 <= i < |a.blocks| ensures BlockFits(a.blocks[i]) {
      assert Join(a, b).blocks[i] == a.blocks[i];
    }
  }

  lemma BlockPartFits(p: Plan, s: Shape, nodes: seq<NodeBits>, out: nat, length: nat)
    requires BlocksFit(p)
    ensures BlocksFit(Join(p, BlockPart(s, nodes, out, length))) <==> BasesFit(EndOf(p))
  {
    var q := Join(p, BlockPart(s, nodes, out, length));
    assert q.blocks[|p.blocks|] == MovedBlock(PivcoBlock(0, 0, 0, out, length, Nodes(s)), EndOf(p));
    if BasesFit(EndOf(p)) {
      forall i | 0 <= i < |q.blocks| ensures BlockFits(q.blocks[i]) {
        assert i < |p.blocks| ==> q.blocks[i] == p.blocks[i];
      }
    } else {
      assert !BlockFits(q.blocks[|p.blocks|]);
    }
  }

  // ---------------------------------------------------------------------------
  // The loop over the blocks of a lane

  /** What is left of a lane leads from plan to the same end as the whole lane from
      start. */
  ghost predicate BlocksLead(start: Plan, whole: Option<Blocks>, plan: Plan, rest: Option<Blocks>) {
    if rest.None? then whole.None?
    else
      && whole.Some? && whole.value.bit == rest.value.bit
      && Join(start, whole.value.part) == Join(plan, rest.value.part)
  }

  lemma BlocksLeadStep(start: Plan, whole: Option<Blocks>, plan: Plan, part: Plan, rest: Option<Blocks>)
    requires BlocksLead(start, whole, plan, Prepend(part, rest))
    ensures BlocksLead(start, whole, Join(plan, part), rest)
  {
    if rest.Some? {
      hide Join;
      JoinAssoc(plan, part, rest.value.part);
    }
  }

  /** A block that does not fit now means the lane does not fit. */
  lemma Overfull(start: Plan, whole: Option<Blocks>, plan: Plan, rest: Option<Blocks>)
    requires BlocksLead(start, whole, plan, rest) && !BlocksFit(plan)
    ensures whole.None? || !BlocksFit(Join(start, whole.value.part))
  {
    hide Join, BlocksFit;
    if rest.Some? && BlocksFit(Join(plan, rest.value.part)) {
      BlocksFitPrefix(plan, rest.value.part);
    }
  }

  method CountBitmaps(trees: seq<TreeNode>) returns (n: nat)
    ensures n == InnerCount(trees)
  {
    n := 0;
    for i := 0 to |trees|
      invariant n == InnerCount(trees[..i])
    {
      assert trees[..i + 1][..i] == trees[..i];
      if !IsLeaf(trees[i]) {
        n := n + 1;
      }
    }
    assert trees[..|trees|] == trees;
  }

  /** walk_block into room of its own; at is shift past the output the block is known by. */
  method WalkInto(trees: seq<TreeNode>, both: seq<bool>, cursor: BitCursor, payload: nat, at: nat, length: nat,
                  ghost s: Shape, ghost out: nat, ghost shift: nat)
    returns (ok: bool, nodes: seq<NodeBits>)
    requires cursor.Valid() && Laid(trees, both, 0, s) && |trees| == Nodes(s) <= MAX_TREE_NODES && at == out + shift
    modifies cursor
    ensures cursor.Valid() && |nodes| == |trees|
    ensures at + length <= UINT32_MAX ==>
      MovedWalk(Walk(s, cursor.data, old(cursor.bit), length, payload, out), ok, cursor.bit, nodes, shift)
  {
    var output := new NodeBits[|trees|](_ => NO_BITS);
    ok := WalkBlock(trees, both, 0, length, cursor, payload, at, output, 0, s);
    nodes := output[..];
    if at + length <= UINT32_MAX {
      WalkMoves(s, cursor.data, old(cursor.bit), length, payload, out, shift);
      hide Walk, Laid, MovedAll;
    }
  }

  ghost predicate MovedWalk(w: Option<Walked>, ok: bool, bit: nat, nodes: seq<NodeBits>, shift: nat) {
    && (ok <==> w.Some?)
    && (ok ==> bit == w.value.bit && nodes == MovedAll(w.value.nodes, shift))
  }

  lemma NothingMore<T>(s: seq<T>)
    ensures s + [] == s
  {
  }

  lemma MoveNothing(at: Bases)
    ensures MovedLanes([], at) == [] && MovedJoins([], at) == [] && MovedBlocks([], at) == []
      && MovedAll([], at.lane) == []
  {
  }

  lemma MoveOne(b: PivcoBlock, at: Bases)
    ensures MovedBlocks([b], at) == [MovedBlock(b, at)]
  {
  }

  lemma BlockAdded(p: Plan, s: Shape, nodes: seq<NodeBits>, out: nat, length: nat)
    ensures p.(bitmaps := p.bitmaps + InnerCount(Preorder(s, 0)), nodes := p.nodes + MovedAll(nodes, p.laneBytes),
               blocks := p.blocks
                 + [PivcoBlock(|p.nodes|, |p.trees|, |p.symbols|, p.laneBytes + out, length, Nodes(s))])
         == Join(p, BlockPart(s, nodes, out, length))
  {
    hide MovedBlocks, MovedLanes, MovedJoins, MovedAll, Preorder, Nodes, InnerCount;
    MoveNothing(EndOf(p));
    MoveOne(PivcoBlock(0, 0, 0, out, length, Nodes(s)), EndOf(p));
    NothingMore(p.symbols);
    NothingMore(p.trees);
    NothingMore(p.laneBlocks);
    NothingMore(p.joins);
  }

  /** The plan under construction. */
  class Planner {
    var plan: Plan

    constructor ()
      ensures plan == EMPTY
    {
      plan := EMPTY;
    }

    /** One turn of the loop: a block of length symbols at lane output at. */
    method AddBlock(trees: seq<TreeNode>, both: seq<bool>, cursor: BitCursor, payload: nat, at: nat, length: nat,
                    ghost s: Shape, ghost out: nat)
      returns (ok: bool)
      requires cursor.Valid() && Laid(trees, both, 0, s) && trees == Preorder(s, 0) && |trees| <= MAX_TREE_NODES
      requires at == out + plan.laneBytes && plan.bitmaps <= |plan.nodes|
      modifies this, cursor
      ensures cursor.Valid() && plan.bitmaps <= |plan.nodes| && plan.laneBytes == old(plan).laneBytes
      ensures at + length <= UINT32_MAX ==>
        BlockAddedTo(old(plan), s, Walk(s, cursor.data, old(cursor.bit), length, payload, out), ok, cursor.bit, plan,
          out, length)
    {
      var nodes;
      ok, nodes := WalkInto(trees, both, cursor, payload, at, length, s, out, plan.laneBytes);
      hide Walk, Laid, MovedAll, Preorder, Nodes, Join, BlockPart;
      if !ok {
        return;
      }
      var bitmaps := CountBitmaps(trees);
      if bitmaps > SIZE_MAX - plan.bitmaps {
        return false;
      }
      if |plan.nodes| > UINT32_MAX || |plan.trees| > UINT32_MAX || |plan.symbols| > UINT32_MAX || at > UINT32_MAX
        || length > UINT32_MAX || |trees| > UINT32_MAX {
        return false;
      }
      if at + length <= UINT32_MAX {
        BlockAdded(plan, s, Walk(s, cursor.data, old(cursor.bit), length, payload, out).value.nodes, out, length);
      }
      plan := plan.(bitmaps := plan.bitmaps + bitmaps, nodes := plan.nodes + nodes,
                    blocks := plan.blocks
                      + [PivcoBlock(|plan.nodes|, |plan.trees|, |plan.symbols|, at, length, |trees|)]);
    }

    /** One turn of the loop over the blocks, nb symbols before its end. */
    method BlockTurn(trees: seq<TreeNode>, both: seq<bool>, cursor: BitCursor, payload: nat, at: nat, nb: nat,
                     blockSize: nat, ghost s: Shape, ghost walk: Walker, ghost out: nat, ghost fits: bool,
                     ghost start: Plan, ghost whole: Option<Blocks>)
      returns (ok: bool, length: nat)
      requires cursor.Valid() && Laid(trees, both, 0, s) && trees == Preorder(s, 0) && |trees| <= MAX_TREE_NODES
      requires walk == WalkerOf(s, cursor.data, payload)
      requires at == out + start.laneBytes && blockSize > 0 && nb > 0 && (fits ==> at + nb <= UINT32_MAX)
      requires BlocksAt(fits, start, whole, plan, s, walk, cursor.bit, nb, blockSize, out)
      modifies this, cursor
      ensures cursor.Valid() && 0 < length <= nb
      ensures ok ==> BlocksAt(fits, start, whole, plan, s, walk, cursor.bit, nb - length, blockSize, out + length)
      ensures !ok ==> BlocksAddedTo(fits, start, whole, false, cursor.bit, plan)
    {
      hide BlockAddedTo, BlocksAddedTo, Walk, Laid, Preorder, LaneBlocks, BlocksLead, BlocksFit;
      ghost var before, bit := plan, cursor.bit;
      length := if nb < blockSize then nb else blockSize;
      ok := AddBlock(trees, both, cursor, payload, at, length, s, out);
      BlocksTurn(fits, start, whole, before, s, walk, bit, nb, blockSize, out, length, ok, cursor.bit, plan);
    }

    /** The blocks of a lane of nb symbols, whose output starts at at. */
    method AddBlocks(trees: seq<TreeNode>, both: seq<bool>, cursor: BitCursor, payload: nat, at: nat, nb: nat,
                     blockSize: nat, ghost s: Shape, ghost walk: Walker, ghost out: nat, ghost fits: bool,
                     ghost start: Plan, ghost whole: Option<Blocks>)
      returns (ok: bool)
      requires cursor.Valid() && Laid(trees, both, 0, s) && trees == Preorder(s, 0) && |trees| <= MAX_TREE_NODES
      requires walk == WalkerOf(s, cursor.data, payload)
      requires at == out + start.laneBytes && blockSize > 0 && (fits ==> at + nb <= UINT32_MAX)
      requires BlocksAt(fits, start, whole, plan, s, walk, cursor.bit, nb, blockSize, out)
      modifies this, cursor
      ensures BlocksAddedTo(fits, start, whole, ok, cursor.bit, plan)
    {
      hide BlocksAt, BlocksAddedTo, Laid, Preorder;
      var offset: nat := 0;
      ok := true;
      while offset < nb
        invariant offset <= nb && cursor.Valid()
        invariant BlocksAt(fits, start, whole, plan, s, walk, cursor.bit, nb - offset, blockSize, out + offset)
      {
        var length;
        ok, length :=
          BlockTurn(trees, both, cursor, payload, at + offset, nb - offset, blockSize, s, walk, out + offset, fits,
            start, whole);
        if !ok {
          return;
        }
        offset := offset + length;
      }
      ok := true;
      BlocksDone(fits, start, whole, plan, s, walk, cursor.bit, blockSize, out + offset);
    }

    /** A PivCo lane of nb symbols in data, which stands at payload. */
    method AddTreeLane(t: LaneTree, data: seq<Byte>, payload: nat, at: nat, nb: nat, blockSize: nat, ghost out: nat,
                       ghost fits: bool)
      returns (ok: bool)
      requires Ready(fits, plan) && at == out + plan.laneBytes && blockSize > 0 && (fits ==> at + nb <= UINT32_MAX)
      modifies this
      ensures PartAddedTo(fits, old(plan), TreeLane(t, data, nb, blockSize, payload, out), ok, plan)
    {
      var topology := new Topology();
      var root := topology.Build(t.tree, 0, 0, t.tree.numRanks);
      if root != 0 {
        return false;
      }
      ghost var s, start := ShapeOf(t.tree, 0, 0, t.tree.numRanks).value, plan;
      var trees, both := topology.nodes[..topology.count], topology.bothConstant[..topology.count];
      TopologyTrees(topology.nodes[..], topology.bothConstant[..], topology.count, s);
      hide ShapeOf, Laid, Preorder, Built, LaneBlocks, BlocksFit, TreeLane, BlocksAddedTo;
      var cursor := new BitCursor(data);
      ghost var walk := WalkerOf(s, data, payload);
      ghost var whole := LaneBlocks(s, walk, 0, nb, blockSize, out);
      BlocksStart(fits, start, s, walk, nb, blockSize, out);
      ok := AddBlocks(trees, both, cursor, payload, at, nb, blockSize, s, walk, out, fits, start, whole);
      ghost var walked, walkOk := plan, ok;
      ok := ok && (cursor.bit + 7) / 8 == |data|;
      if ok {
        plan := plan.(symbols := plan.symbols + t.symbols, trees := plan.trees + trees,
          pivcoLanes := plan.pivcoLanes + 1);
      }
      TreeLaneAdded(fits, start, t, s, data, nb, blockSize, payload, out, walkOk, cursor.bit, walked, ok, plan);
    }

    /** One turn of the loop over a PFOR lane. */
    method PforBlock(data: seq<Byte>, offset: nat, index: nat, payload: nat, at: nat, nb: nat, ghost f: Parser,
                     ghost x: PforPlan.Tally, ghost out: nat, ghost fits: bool, ghost start: Plan,
                     ghost whole: Option<seq<LaneBlock>>)
      returns (ok: bool, next: nat)
      requires Sound(f) && PforPlan.PlannerFor(f, x, 1) && BLOCK * index < nb
      requires at == out + start.laneBytes && (fits ==> at + nb <= UINT32_MAX)
      requires PforAt(fits, start, whole, plan, f, data, offset, nb, index, payload, out)
      modifies this
      ensures !ok ==> PforAddedTo(fits, start, whole, false, plan)
      ensures ok ==> PforAt(fits, start, whole, plan, f, data, next, nb, index + 1, payload, out)
    {
      hide PforBlocks, BlocksFit, Left, Leading;
      var info := PforPlan.NextBlock(data[offset..], 1, f, x);
      next := offset;
      if info.None? || payload + offset > UINT32_MAX || at + BLOCK * index > UINT32_MAX {
        PforRefused(fits, start, whole, plan, f, data, offset, nb, index, payload, out);
        return false, next;
      }
      ghost var before := plan;
      plan := plan.(laneBlocks := plan.laneBlocks + [LaneBlock(payload + offset, at + BLOCK * index)]);
      next := offset + info.value.bytes;
      ok := true;
      PforTurn(fits, start, whole, before, f, data, offset, nb, index, payload, out, at, plan);
    }

    /** A PFOR lane of nb elements in data, which stands at payload. */
    method AddPforLane(data: seq<Byte>, payload: nat, at: nat, nb: nat, ghost f: Parser, ghost x: PforPlan.Tally,
                       ghost out: nat, ghost fits: bool)
      returns (ok: bool)
      requires Sound(f) && PforPlan.PlannerFor(f, x, 1)
      requires Ready(fits, plan) && at == out + plan.laneBytes && (fits ==> at + nb <= UINT32_MAX)
      modifies this
      ensures PartAddedTo(fits, old(plan), PforLane(f, data, nb, payload, out), ok, plan)
    {
      ghost var start, whole := plan, PforBlocks(f, data, nb, payload, out);
      plan := plan.(pforLanes := plan.pforLanes + 1);
      var offset: nat, index: nat := 0, 0;
      ok := true;
      PforStart(fits, start, plan, f, data, nb, payload, out);
      hide PforBlocks, PforAt, BlocksFit, PartAddedTo, Ready, PforAddedTo;
      while ok && BLOCK * index < nb
        invariant !ok ==> PforAddedTo(fits, start, whole, false, plan)
        invariant ok ==> PforAt(fits, start, whole, plan, f, data, offset, nb, index, payload, out)
        decreases ok, nb - BLOCK * index
      {
        ok, offset := PforBlock(data, offset, index, payload, at, nb, f, x, out, fits, start, whole);
        index := index + 1;
      }
      if ok {
        ok := offset == |data|;
        PforEnd(fits, start, whole, plan, f, data, offset, nb, index, payload, out);
      }
      PforLaneAdded(fits, start, f, data, nb, payload, out, ok, plan);
    }
  }

  /** What AddBlock does: the plan grows by the block, unless a base does not fit. */
  ghost predicate BlockAddedTo(before: Plan, s: Shape, w: Option<Walked>, ok: bool, bit: nat, after: Plan, out: nat,
                               length: nat) {
    && (ok <==> BasesFit(EndOf(before)) && w.Some?)
    && (ok ==> bit == w.value.bit && after == Join(before, BlockPart(s, w.value.nodes, out, length)))
  }

  /** What AddBlocks does: the plan grows by the blocks, unless there are none or one of
      them does not fit. */
  ghost predicate BlocksAddedTo(fits: bool, before: Plan, b: Option<Blocks>, ok: bool, bit: nat, after: Plan) {
    && after.bitmaps <= |after.nodes| && after.laneBytes == before.laneBytes
    && (fits ==> (ok <==> b.Some? && BlocksFit(Join(before, b.value.part))))
    && (fits && ok ==> bit == b.value.bit && after == Join(before, b.value.part))
  }

  /** The state of the loop: nb symbols to go. */
  ghost predicate BlocksAt(fits: bool, start: Plan, whole: Option<Blocks>, plan: Plan, s: Shape, walk: Walker,
                           bit: nat, nb: nat, blockSize: nat, out: nat)
    requires blockSize > 0
  {
    && plan.bitmaps <= |plan.nodes| && plan.laneBytes == start.laneBytes
    && (fits ==> BlocksFit(plan) && BlocksLead(start, whole, plan, LaneBlocks(s, walk, bit, nb, blockSize, out)))
  }

  lemma BlocksTurn(fits: bool, start: Plan, whole: Option<Blocks>, plan: Plan, s: Shape, walk: Walker, bit: nat,
                   nb: nat, blockSize: nat, out: nat, length: nat, ok: bool, bit': nat, plan': Plan)
    requires blockSize > 0 && nb > 0 && length == if nb < blockSize then nb else blockSize
    requires BlocksAt(fits, start, whole, plan, s, walk, bit, nb, blockSize, out)
    requires plan'.bitmaps <= |plan'.nodes| && plan'.laneBytes == start.laneBytes
    requires fits ==> BlockAddedTo(plan, s, walk(bit, length, out), ok, bit', plan', out, length)
    ensures !ok ==> BlocksAddedTo(fits, start, whole, false, bit', plan')
    ensures ok ==> BlocksAt(fits, start, whole, plan', s, walk, bit', nb - length, blockSize, out + length)
  {
    var w := walk(bit, length, out);
    if !fits || w.None? {
      return;
    }
    var rest := LaneBlocks(s, walk, w.value.bit, nb - length, blockSize, out + length);
    var part := BlockPart(s, w.value.nodes, out, length);
    assert LaneBlocks(s, walk, bit, nb, blockSize, out) == Prepend(part, rest);
    hide BlocksLead, LaneBlocks, BlocksFit, Join, BlockPart, Prepend;
    BlocksLeadStep(start, whole, plan, part, rest);
    BlockPartFits(plan, s, w.value.nodes, out, length);
    if !ok {
      Overfull(start, whole, Join(plan, part), rest);
    }
  }

  lemma BlocksStart(fits: bool, start: Plan, s: Shape, walk: Walker, nb: nat, blockSize: nat, out: nat)
    requires blockSize > 0 && Ready(fits, start)
    ensures BlocksAt(fits, start, LaneBlocks(s, walk, 0, nb, blockSize, out), start, s, walk, 0, nb, blockSize, out)
  {
  }

  lemma BlocksDone(fits: bool, start: Plan, whole: Option<Blocks>, plan: Plan, s: Shape, walk: Walker, bit: nat,
                   blockSize: nat, out: nat)
    requires blockSize > 0 && BlocksAt(fits, start, whole, plan, s, walk, bit, 0, blockSize, out)
    ensures BlocksAddedTo(fits, start, whole, true, bit, plan)
  {
    JoinEmpty(plan);
  }

  /** The plan can take another part. */
  ghost predicate Ready(fits: bool, plan: Plan) {
    plan.bitmaps <= |plan.nodes| && (fits ==> BlocksFit(plan))
  }

  /** A part of a plan was added, unless it is malformed or one of its blocks does not
      fit; nothing is said when the frame as a whole does not fit. */
  ghost predicate PartAddedTo(fits: bool, before: Plan, part: Option<Plan>, ok: bool, after: Plan) {
    && after.bitmaps <= |after.nodes| && after.laneBytes == before.laneBytes
    && (fits ==> (ok <==> part.Some? && BlocksFit(Join(before, part.value))))
    && (fits && ok ==> after == Join(before, part.value))
  }

  lemma TopologyTrees(nodes: seq<TreeNode>, both: seq<bool>, count: nat, s: Shape)
    requires Laid(nodes, both, 0, s) && count == Nodes(s)
    ensures count <= |nodes| == |both| && Laid(nodes[..count], both[..count], 0, s) && nodes[..count] == Preorder(s, 0)
  {
    LaidFrame(nodes, both, nodes[..count], both[..count], 0, s);
    LaidIsPreorder(nodes, both, 0, s);
    assert nodes[0..0 + count] == nodes[..count];
  }

  lemma Planted(before: Plan, part: Plan, symbols: seq<Small>, trees: seq<TreeNode>)
    requires Bare(part)
    ensures var q := Join(before, part);
      && q.(symbols := q.symbols + symbols, trees := q.trees + trees, pivcoLanes := q.pivcoLanes + 1)
         == Join(before, part.(symbols := symbols, trees := trees, pivcoLanes := 1))
      && (BlocksFit(q) <==> BlocksFit(Join(before, part.(symbols := symbols, trees := trees, pivcoLanes := 1))))
  {
    var q, r := Join(before, part), Join(before, part.(symbols := symbols, trees := trees, pivcoLanes := 1));
    assert q.blocks == r.blocks;
  }

  lemma TreeLaneAdded(fits: bool, start: Plan, t: LaneTree, s: Shape, data: seq<Byte>, nb: nat, blockSize: nat,
                      payload: nat, out: nat, walkOk: bool, bit: nat, walked: Plan, ok: bool, plan: Plan)
    requires blockSize > 0 && ShapeOf(t.tree, 0, 0, t.tree.numRanks) == Some(s) && Nodes(s) <= MAX_TREE_NODES
    requires BlocksAddedTo(fits, start, LaneBlocks(s, WalkerOf(s, data, payload), 0, nb, blockSize, out), walkOk, bit,
      walked)
    requires ok == (walkOk && (bit + 7) / 8 == |data|)
    requires plan == if ok then
      walked.(symbols := walked.symbols + t.symbols, trees := walked.trees + Preorder(s, 0),
        pivcoLanes := walked.pivcoLanes + 1) else walked
    ensures PartAddedTo(fits, start, TreeLane(t, data, nb, blockSize, payload, out), ok, plan)
  {
    var b := LaneBlocks(s, WalkerOf(s, data, payload), 0, nb, blockSize, out);
    hide ShapeOf, Preorder, LaneBlocks, BlocksFit, Join;
    if b.Some? {
      Planted(start, b.value.part, t.symbols, Preorder(s, 0));
    }
  }

  // ---------------------------------------------------------------------------
  // The loop over the blocks of a PFOR lane

  function Left(nb: nat, index: nat): nat { if BLOCK * index < nb then nb - BLOCK * index else 0 }

  /** The plan has the lane blocks found so far, and rest are those still to come. */
  ghost predicate Leading(start: Plan, whole: Option<seq<LaneBlock>>, plan: Plan, rest: Option<seq<LaneBlock>>) {
    exists found: seq<LaneBlock> :: Extends(start, found, plan) && whole == Ahead(found, rest)
  }

  function Ahead(found: seq<LaneBlock>, rest: Option<seq<LaneBlock>>): Option<seq<LaneBlock>> {
    if rest.None? then None else Some(found + rest.value)
  }

  ghost predicate Extends(start: Plan, found: seq<LaneBlock>, plan: Plan) {
    plan == start.(laneBlocks := start.laneBlocks + MovedLanes(found, EndOf(start)), pforLanes := start.pforLanes + 1)
  }

  ghost predicate PforAt(fits: bool, start: Plan, whole: Option<seq<LaneBlock>>, plan: Plan, f: Parser,
                         data: seq<Byte>, offset: nat, nb: nat, index: nat, payload: nat, out: nat)
    requires Sound(f)
  {
    && offset <= |data| && plan.bitmaps <= |plan.nodes| && plan.laneBytes == start.laneBytes
    && (fits ==>
          && BlocksFit(start)
          && Leading(start, whole, plan,
                     PforBlocks(f, data[offset..], Left(nb, index), payload + offset, out + BLOCK * index)))
  }

  ghost predicate PforAddedTo(fits: bool, start: Plan, whole: Option<seq<LaneBlock>>, ok: bool, plan: Plan) {
    && plan.bitmaps <= |plan.nodes| && plan.laneBytes == start.laneBytes
    && (fits ==> BlocksFit(start) && (ok <==> whole.Some?))
    && (fits && ok ==> Extends(start, whole.value, plan))
  }

  lemma PforStart(fits: bool, start: Plan, plan: Plan, f: Parser, data: seq<Byte>, nb: nat, payload: nat, out: nat)
    requires Sound(f) && Ready(fits, start) && plan == start.(pforLanes := start.pforLanes + 1)
    ensures PforAt(fits, start, PforBlocks(f, data, nb, payload, out), plan, f, data, 0, nb, 0, payload, out)
  {
    assert data[0..] == data;
    var whole := PforBlocks(f, data, nb, payload, out);
    MoveNothing(EndOf(start));
    NothingMore(start.laneBlocks);
    assert Extends(start, [], plan);
    assert whole == Ahead([], whole) by {
      if whole.Some? {
        assert [] + whole.value == whole.value;
      }
    }
  }

  lemma PforRefused(fits: bool, start: Plan, whole: Option<seq<LaneBlock>>, plan: Plan, f: Parser, data: seq<Byte>,
                    offset: nat, nb: nat, index: nat, payload: nat, out: nat)
    requires Sound(f) && BLOCK * index < nb
      && PforAt(fits, start, whole, plan, f, data, offset, nb, index, payload, out)
    requires fits ==> f(data[offset..]).None? || payload + offset > UINT32_MAX
    ensures PforAddedTo(fits, start, whole, false, plan)
  {
  }

  /** One more lane block. */
  lemma LeadingStep(start: Plan, whole: Option<seq<LaneBlock>>, plan: Plan, next: LaneBlock,
                    rest: Option<seq<LaneBlock>>)
    requires Leading(start, whole, plan, Ahead([next], rest))
    ensures Leading(start, whole, plan.(laneBlocks := plan.laneBlocks + [MovedLane(next, EndOf(start))]), rest)
  {
    var found :| Extends(start, found, plan) && whole == Ahead(found, Ahead([next], rest));
    var plan' := plan.(laneBlocks := plan.laneBlocks + [MovedLane(next, EndOf(start))]);
    assert MovedLanes(found + [next], EndOf(start)) == MovedLanes(found,
      EndOf(start)) + [MovedLane(next, EndOf(start))];
    assert Extends(start, found + [next], plan');
    if rest.Some? {
      assert found + ([next] + rest.value) == (found + [next]) + rest.value;
    }
    assert whole == Ahead(found + [next], rest);
  }

  lemma PforTurn(fits: bool, start: Plan, whole: Option<seq<LaneBlock>>, plan: Plan, f: Parser, data: seq<Byte>,
                 offset: nat, nb: nat, index: nat, payload: nat, out: nat, at: nat, plan': Plan)
    requires Sound(f) && BLOCK * index < nb && offset <= |data| && at == out + start.laneBytes
    requires f(data[offset..]).Some? && payload + offset <= UINT32_MAX && (fits ==> at + nb <= UINT32_MAX)
    requires PforAt(fits, start, whole, plan, f, data, offset, nb, index, payload, out)
    requires plan' == plan.(laneBlocks := plan.laneBlocks + [LaneBlock(payload + offset, at + BLOCK * index)])
    ensures PforAt(fits, start, whole, plan', f, data, offset + f(data[offset..]).value.0, nb, index + 1, payload, out)
  {
    hide BlocksFit, Leading;
    var size := f(data[offset..]).value.0;
    if fits {
      var next := LaneBlock(payload + offset, out + BLOCK * index);
      assert data[offset..][size..] == data[offset + size..];
      var rest :=
        PforBlocks(f, data[offset + size..], Left(nb, index + 1), payload + offset + size, out + BLOCK * (index + 1));
      assert PforBlocks(f, data[offset..], Left(nb, index), payload + offset, out + BLOCK * index) == Ahead([next],
        rest);
      LeadingStep(start, whole, plan, next, rest);
    }
  }

  lemma PforEnd(fits: bool, start: Plan, whole: Option<seq<LaneBlock>>, plan: Plan, f: Parser, data: seq<Byte>,
                offset: nat, nb: nat, index: nat, payload: nat, out: nat)
    requires Sound(f) && BLOCK * index >= nb
      && PforAt(fits, start, whole, plan, f, data, offset, nb, index, payload, out)
    ensures PforAddedTo(fits, start, whole, offset == |data|, plan)
  {
    if fits && offset == |data| {
      var found :| Extends(start, found, plan) && whole == Ahead(found, Some([]));
      NothingMore(found);
    }
  }

  lemma PforLaneAdded(fits: bool, start: Plan, f: Parser, data: seq<Byte>, nb: nat, payload: nat, out: nat, ok: bool,
                      plan: Plan)
    requires Sound(f) && PforAddedTo(fits, start, PforBlocks(f, data, nb, payload, out), ok, plan)
    ensures PartAddedTo(fits, start, PforLane(f, data, nb, payload, out), ok, plan)
  {
    var b := PforBlocks(f, data, nb, payload, out);
    if fits && b.Some? {
      MoveNothing(EndOf(start));
      var part := EMPTY.(laneBlocks := b.value, pforLanes := 1);
      assert Join(start, part).blocks == start.blocks;
      assert BlocksFit(Join(start, part));
      if ok {
        NothingMore(start.nodes);
        NothingMore(start.joins);
        assert plan == Join(start, part);
      }
    }
  }
}
