/** PivCo plans as values: every part of a plan is relative to the start of the part, and
    parts join by relocating what follows. */
module PivcoParts {
  import opened Words
  import opened Streams
  import opened PivcoTree
  import opened PivcoWalk
  import opened PivcoBlocks

  const MAX_SYMBOLS: nat := 256

  datatype PivcoBlock = PivcoBlock(nodeBase: nat, treeBase: nat, symbolBase: nat, outBase: nat, length: nat,
                                   nodeCount: nat)

  datatype LaneBlock = LaneBlock(payloadOffset: nat, outputBase: nat)

  datatype JoinTask = JoinTask(laneBase: nat, laneStride: nat, count: nat, outputBase: nat, start: nat, transform: nat)

  datatype Plan = Plan(symbols: seq<Small>, trees: seq<TreeNode>, nodes: seq<NodeBits>, blocks: seq<PivcoBlock>,
                       laneBlocks: seq<LaneBlock>, joins: seq<JoinTask>, bitmaps: nat, laneBytes: nat, pivcoLanes: nat,
                         pforLanes: nat)

  const EMPTY := Plan([], [], [], [], [], [], 0, 0, 0, 0)

  // ---------------------------------------------------------------------------
  // Relocation

  /** Where the entries of a part end up. */
  datatype Bases = Bases(symbols: nat, trees: nat, nodes: nat, lane: nat)

  function EndOf(p: Plan): Bases {
    Bases(|p.symbols|, |p.trees|, |p.nodes|, p.laneBytes)
  }

  function Plus(a: Bases, b: Bases): Bases {
    Bases(a.symbols + b.symbols, a.trees + b.trees, a.nodes + b.nodes, a.lane + b.lane)
  }

  function MovedBlock(b: PivcoBlock, at: Bases): PivcoBlock {
    b.(nodeBase := b.nodeBase + at.nodes, treeBase := b.treeBase + at.trees, symbolBase := b.symbolBase + at.symbols,
      outBase := b.outBase + at.lane)
  }

  function MovedLane(b: LaneBlock, at: Bases): LaneBlock {
    b.(outputBase := b.outputBase + at.lane)
  }

  function MovedJoin(j: JoinTask, at: Bases): JoinTask {
    j.(laneBase := j.laneBase + at.lane)
  }

  function MovedBlocks(s: seq<PivcoBlock>, at: Bases): (m: seq<PivcoBlock>)
    ensures |m| == |s| && forall i :: 0 <= i < |s| ==> m[i] == MovedBlock(s[i], at)
  {
    seq(|s|, i requires 0 <= i < |s| => MovedBlock(s[i], at))
  }

  function MovedLanes(s: seq<LaneBlock>, at: Bases): (m: seq<LaneBlock>)
    ensures |m| == |s| && forall i :: 0 <= i < |s| ==> m[i] == MovedLane(s[i], at)
  {
    seq(|s|, i requires 0 <= i < |s| => MovedLane(s[i], at))
  }

  function MovedJoins(s: seq<JoinTask>, at: Bases): (m: seq<JoinTask>)
    ensures |m| == |s| && forall i :: 0 <= i < |s| ==> m[i] == MovedJoin(s[i], at)
  {
    seq(|s|, i requires 0 <= i < |s| => MovedJoin(s[i], at))
  }

  /** b behind a. */
  function Join(a: Plan, b: Plan): Plan {
    Plan(a.symbols + b.symbols, a.trees + b.trees,
         a.nodes + MovedAll(b.nodes, a.laneBytes),
         a.blocks + MovedBlocks(b.blocks, EndOf(a)),
         a.laneBlocks + MovedLanes(b.laneBlocks, EndOf(a)),
         a.joins + MovedJoins(b.joins, EndOf(a)),
         a.bitmaps + b.bitmaps, a.laneBytes + b.laneBytes, a.pivcoLanes + b.pivcoLanes, a.pforLanes + b.pforLanes)
  }

  lemma BlocksTwice(a: seq<PivcoBlock>, b: seq<PivcoBlock>, x: Bases, y: Bases)
    ensures MovedBlocks(a + MovedBlocks(b, y), x) == MovedBlocks(a, x) + MovedBlocks(b, Plus(x, y))
  {
  }

  lemma LanesTwice(a: seq<LaneBlock>, b: seq<LaneBlock>, x: Bases, y: Bases)
    ensures MovedLanes(a + MovedLanes(b, y), x) == MovedLanes(a, x) + MovedLanes(b, Plus(x, y))
  {
  }

  lemma JoinsTwice(a: seq<JoinTask>, b: seq<JoinTask>, x: Bases, y: Bases)
    ensures MovedJoins(a + MovedJoins(b, y), x) == MovedJoins(a, x) + MovedJoins(b, Plus(x, y))
  {
  }

  lemma NodesTwice(a: seq<NodeBits>, b: seq<NodeBits>, x: nat, y: nat)
    ensures MovedAll(a + MovedAll(b, y), x) == MovedAll(a, x) + MovedAll(b, x + y)
  {
  }

  lemma JoinAssoc(a: Plan, b: Plan, c: Plan)
    ensures Join(Join(a, b), c) == Join(a, Join(b, c))
  {
    hide MovedAll, MovedBlocks, MovedLanes, MovedJoins;
    NodesTwice(b.nodes, c.nodes, a.laneBytes, b.laneBytes);
    BlocksTwice(b.blocks, c.blocks, EndOf(a), EndOf(b));
    LanesTwice(b.laneBlocks, c.laneBlocks, EndOf(a), EndOf(b));
    JoinsTwice(b.joins, c.joins, EndOf(a), EndOf(b));
    assert EndOf(Join(a, b)) == Plus(EndOf(a), EndOf(b));
  }

  lemma JoinEmpty(a: Plan)
    ensures Join(a, EMPTY) == a
    ensures Join(EMPTY, a) == a
  {
    assert MovedAll(a.nodes, 0) == a.nodes;
    assert MovedBlocks(a.blocks, EndOf(EMPTY)) == a.blocks;
    assert MovedLanes(a.laneBlocks, EndOf(EMPTY)) == a.laneBlocks;
    assert MovedJoins(a.joins, EndOf(EMPTY)) == a.joins;
    assert MovedAll([], a.laneBytes) == [];
    assert MovedBlocks([], EndOf(a)) == [];
    assert MovedLanes([], EndOf(a)) == [];
    assert MovedJoins([], EndOf(a)) == [];
  }

  // ---------------------------------------------------------------------------
  // References inside a plan

  /** What a plan is made from: the payload its references point into, the parser of the
      PFOR blocks in it, and the bytes of an element. */
  datatype Source = Source(payload: seq<Byte>, f: Parser, elementBytes: nat)

  predicate BlockInside(b: PivcoBlock, symbols: nat, trees: nat, nodes: nat, laneBytes: nat) {
    && b.nodeBase + b.nodeCount <= nodes && b.nodeCount > 0
    && b.treeBase + b.nodeCount <= trees
    && b.symbolBase + MAX_SYMBOLS <= symbols
    && b.outBase + b.length <= laneBytes
  }

  /** Node i of a block that writes length bytes at out: its output lies inside the
      block's, its bits inside a payload of so many bytes, and the two children of an
      inner node split its symbols and its output between them. */
  predicate NodeSane(trees: seq<TreeNode>, nodes: seq<NodeBits>, i: nat, out: nat, length: nat, bytes: nat)
    requires i < |nodes| == |trees|
  {
    var tree, node := trees[i], nodes[i];
    && out <= node.output && node.output + node.count <= out + length
    && if IsLeaf(tree) then
         DepthOf(tree) != 0 ==> 8 * node.offset + LeafBits(node.count, DepthOf(tree)) <= 8 * bytes
       else
         var left, right := LeftOf(tree), RightOf(tree);
         && 8 * node.offset + node.count <= 8 * bytes
         && i < left < right < |nodes|
         && nodes[left].count + nodes[right].count == node.count
         && nodes[left].output == node.output && nodes[right].output == node.output + nodes[left].count
  }

  ghost predicate NodesSane(trees: seq<TreeNode>, nodes: seq<NodeBits>, out: nat, length: nat, bytes: nat) {
    && |trees| == |nodes| > 0 && nodes[0].count == length && nodes[0].output == out
    && forall i :: 0 <= i < |nodes| ==> NodeSane(trees, nodes, i, out, length, bytes)
  }

  /** A block inside its arrays, whose nodes are sane. */
  ghost predicate BlockSane(b: PivcoBlock, symbols: nat, trees: seq<TreeNode>, nodes: seq<NodeBits>, bytes: nat,
                            end: nat) {
    && BlockInside(b, symbols, |trees|, |nodes|, end)
    && NodesSane(trees[b.treeBase..b.treeBase + b.nodeCount], nodes[b.nodeBase..b.nodeBase + b.nodeCount],
                 b.outBase, b.length, bytes)
  }

  /** A lane block reads a PFOR block of the payload. */
  ghost predicate ReadsBlock(b: LaneBlock, src: Source) {
    b.payloadOffset < |src.payload| && src.f(src.payload[b.payloadOffset..]).Some?
  }

  /** A join reads the byte lanes of its frame, each a stride after the one before. */
  predicate JoinInside(j: JoinTask, elementBytes: nat, end: nat) {
    j.start < j.count <= j.laneStride && j.laneBase + elementBytes * j.laneStride <= end
  }

  /** Every reference of a part stays inside its arrays, its payload and below lane byte
      end. */
  ghost predicate ClosedTo(p: Plan, src: Source, end: nat) {
    && (forall i :: 0 <= i < |p.nodes| ==> p.nodes[i].output + p.nodes[i].count <= end)
    && (forall i :: 0 <= i < |p.blocks| ==>
          BlockSane(p.blocks[i], |p.symbols|, p.trees, p.nodes, |src.payload|, end))
    && (forall i :: 0 <= i < |p.laneBlocks| ==>
          p.laneBlocks[i].outputBase + 256 <= end && ReadsBlock(p.laneBlocks[i], src))
    && (forall i :: 0 <= i < |p.joins| ==> JoinInside(p.joins[i], src.elementBytes, end))
    && p.bitmaps <= |p.nodes|
  }

  /** Every reference of a plan stays inside its arrays, its payload and its lane
      buffer. */
  ghost predicate Closed(p: Plan) {
    exists src :: ClosedTo(p, src, p.laneBytes)
  }

  /** More symbols, trees and nodes behind a block leave it sane. */
  lemma SaneBefore(b: PivcoBlock, symbols: nat, trees: seq<TreeNode>, nodes: seq<NodeBits>, bytes: nat, end: nat,
                   moreSymbols: nat, moreTrees: seq<TreeNode>, moreNodes: seq<NodeBits>, end': nat)
    requires BlockSane(b, symbols, trees, nodes, bytes, end) && end <= end'
    ensures BlockSane(b, symbols + moreSymbols, trees + moreTrees, nodes + moreNodes, bytes, end')
  {
    hide NodesSane;
    assert (trees + moreTrees)[b.treeBase..b.treeBase + b.nodeCount] == trees[b.treeBase..b.treeBase + b.nodeCount];
    assert (nodes + moreNodes)[b.nodeBase..b.nodeBase + b.nodeCount] == nodes[b.nodeBase..b.nodeBase + b.nodeCount];
  }

  lemma NodesSaneMoved(trees: seq<TreeNode>, nodes: seq<NodeBits>, out: nat, length: nat, bytes: nat, shift: nat)
    requires NodesSane(trees, nodes, out, length, bytes)
    ensures NodesSane(trees, MovedAll(nodes, shift), out + shift, length, bytes)
  {
    hide LeafBits, IsLeaf, DepthOf, LeftOf, RightOf;
    var moved, out' := MovedAll(nodes, shift), out + shift;
    forall i | 0 <= i < |moved|
      ensures NodeSane(trees, moved, i, out', length, bytes)
    {
      assert NodeSane(trees, nodes, i, out, length, bytes);
    }
  }

  /** A moved block is sane behind other symbols, trees and nodes. */
  lemma SaneBehind(b: PivcoBlock, symbols: nat, trees: seq<TreeNode>, nodes: seq<NodeBits>, bytes: nat, end: nat,
                   moreSymbols: nat, moreTrees: seq<TreeNode>, moreNodes: seq<NodeBits>, lane: nat, end': nat)
    requires BlockSane(b, symbols, trees, nodes, bytes, end) && lane + end <= end'
    ensures var at := Bases(moreSymbols, |moreTrees|, |moreNodes|, lane);
      BlockSane(MovedBlock(b, at), moreSymbols + symbols, moreTrees + trees, moreNodes + MovedAll(nodes, lane),
                bytes, end')
  {
    hide NodesSane;
    var m := MovedBlock(b, Bases(moreSymbols, |moreTrees|, |moreNodes|, lane));
    var mine := nodes[b.nodeBase..b.nodeBase + b.nodeCount];
    NodesSaneMoved(trees[b.treeBase..b.treeBase + b.nodeCount], mine, b.outBase, b.length, bytes, lane);
    assert (moreTrees + trees)[m.treeBase..m.treeBase + m.nodeCount] == trees[b.treeBase..b.treeBase + b.nodeCount];
    assert (moreNodes + MovedAll(nodes, lane))[m.nodeBase..m.nodeBase + m.nodeCount] == MovedAll(mine, lane);
  }

  lemma JoinBlocksSane(a: Plan, endA: nat, b: Plan, endB: nat, src: Source, end: nat, i: nat)
    requires ClosedTo(a, src, endA) && ClosedTo(b, src, endB) && endA <= end && a.laneBytes + endB <= end
    requires i < |Join(a, b).blocks|
    ensures var p := Join(a, b); BlockSane(p.blocks[i], |p.symbols|, p.trees, p.nodes, |src.payload|, end)
  {
    hide BlockSane, MovedAll, ReadsBlock, JoinInside;
    if i < |a.blocks| {
      SaneBefore(a.blocks[i], |a.symbols|, a.trees, a.nodes, |src.payload|, endA,
                 |b.symbols|, b.trees, MovedAll(b.nodes, a.laneBytes), end);
    } else {
      SaneBehind(b.blocks[i - |a.blocks|], |b.symbols|, b.trees, b.nodes, |src.payload|, endB,
                 |a.symbols|, a.trees, a.nodes, a.laneBytes, end);
    }
  }

  lemma JoinClosed(a: Plan, endA: nat, b: Plan, endB: nat, src: Source, end: nat)
    requires ClosedTo(a, src, endA) && ClosedTo(b, src, endB) && endA <= end && a.laneBytes + endB <= end
    ensures ClosedTo(Join(a, b), src, end)
  {
    hide BlockSane, ReadsBlock;
    var p := Join(a, b);
    forall i | 0 <= i < |p.nodes| ensures p.nodes[i].output + p.nodes[i].count <= end {
      if i >= |a.nodes| {
        assert p.nodes[i] == Moved(b.nodes[i - |a.nodes|], a.laneBytes);
      }
    }
    forall i | 0 <= i < |p.blocks| ensures BlockSane(p.blocks[i], |p.symbols|, p.trees, p.nodes, |src.payload|, end) {
      JoinBlocksSane(a, endA, b, endB, src, end, i);
    }
    forall i | 0 <= i < |p.laneBlocks|
      ensures p.laneBlocks[i].outputBase + 256 <= end && ReadsBlock(p.laneBlocks[i], src)
    {
      if i >= |a.laneBlocks| {
        var mine := b.laneBlocks[i - |a.laneBlocks|];
        assert p.laneBlocks[i] == MovedLane(mine, EndOf(a));
        SameRead(p.laneBlocks[i], mine, src);
      }
    }
    forall i | 0 <= i < |p.joins| ensures JoinInside(p.joins[i], src.elementBytes, end) {
      if i < |a.joins| {
        assert p.joins[i] == a.joins[i] && JoinInside(a.joins[i], src.elementBytes, endA);
      } else {
        JoinMoves(b.joins[i - |a.joins|], EndOf(a), src.elementBytes, endB, end);
      }
    }
  }

  lemma SameRead(a: LaneBlock, b: LaneBlock, src: Source)
    requires a.payloadOffset == b.payloadOffset
    ensures ReadsBlock(a, src) <==> ReadsBlock(b, src)
  {
  }

  lemma JoinMoves(j: JoinTask, at: Bases, elementBytes: nat, end: nat, end': nat)
    requires JoinInside(j, elementBytes, end) && at.lane + end <= end'
    ensures JoinInside(MovedJoin(j, at), elementBytes, end')
  {
  }

  // ---------------------------------------------------------------------------
  // Lane padding

  function Padding(laneBlocks: seq<LaneBlock>): nat { (4 - |laneBlocks| % 4) % 4 }

  /** p with n more lane blocks, which repeat its first payload into a sink behind the
      lane buffer. */
  function PaddedBy(p: Plan, n: nat): Plan {
    if |p.laneBlocks| == 0 then p
    else p.(laneBlocks := p.laneBlocks + seq(n, i => LaneBlock(p.laneBlocks[0].payloadOffset, p.laneBytes)))
  }

  /** Lane blocks come in fours. */
  function PadLanes(p: Plan): Plan { PaddedBy(p, Padding(p.laneBlocks)) }

  /** trim_lane_padding, as a function: drop the lane blocks at the end that write
      behind the lane buffer. */
  function Trim(laneBlocks: seq<LaneBlock>, laneBytes: nat): seq<LaneBlock> {
    if |laneBlocks| != 0
      && laneBlocks[|laneBlocks| - 1].outputBase == laneBytes then Trim(laneBlocks[..|laneBlocks| - 1], laneBytes)
    else laneBlocks
  }

  lemma {:induction false} TrimTail(kept: seq<LaneBlock>, pad: seq<LaneBlock>, laneBytes: nat)
    requires |kept| > 0 ==> kept[|kept| - 1].outputBase != laneBytes
    requires forall i :: 0 <= i < |pad| ==> pad[i].outputBase == laneBytes
    ensures Trim(kept + pad, laneBytes) == kept
    decreases |pad|
  {
    if |pad| == 0 {
      assert kept + pad == kept;
    } else {
      assert (kept + pad)[..|kept + pad| - 1] == kept + pad[..|pad| - 1];
      TrimTail(kept, pad[..|pad| - 1], laneBytes);
    }
  }

  /** Trimming a padded plan removes the padding and nothing else. */
  lemma TrimPadded(p: Plan)
    requires Closed(p)
    ensures PadLanes(p).(laneBlocks := Trim(PadLanes(p).laneBlocks, p.laneBytes)) == p
  {
    var src :| ClosedTo(p, src, p.laneBytes);
    if |p.laneBlocks| > 0 {
      assert p.laneBlocks[|p.laneBlocks| - 1].outputBase + 256 <= p.laneBytes;
      TrimTail(p.laneBlocks, seq(Padding(p.laneBlocks), i => LaneBlock(p.laneBlocks[0].payloadOffset, p.laneBytes)),
        p.laneBytes);
    }
  }
}
