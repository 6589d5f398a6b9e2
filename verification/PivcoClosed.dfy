/** Every plan the PivCo planner builds is closed: no reference of a block, node, lane
    block or join leaves the plan's arrays, the payload or the lane buffer with the 256
    bytes behind it that padding lane blocks write, and every node's children split its
    symbols and its output. */
module PivcoClosed {
  import opened Common
  import opened Words
  import opened Streams
  import opened PivcoTree
  import opened PivcoWalk
  import opened PivcoBlocks
  import opened PivcoParts
  import opened PivcoLanes
  import opened PivcoFrames
  import opened PivcoBatch
  import PforFormat

  // ---------- the nodes of one block ----------

  /** The node with pre-order index k is the root of the subtree there. */
  lemma {:induction false} PreorderNode(s: Shape, at: nat, k: nat)
    requires k < Nodes(s)
    ensures Preorder(s, at)[k] == Preorder(Sub(s, k), at + k)[0]
    decreases s
  {
    hide Preorder, Sub;
    if k == 0 {
      SubRoot(s);
    } else {
      SubIs(s, k);
      PreorderBelow(s, at, k);
      if k <= Nodes(s.left) {
        PreorderNode(s.left, at + 1, k - 1);
      } else {
        PreorderNode(s.right, at + 1 + Nodes(s.left), k - 1 - Nodes(s.left));
      }
    }
  }

  lemma SubRoot(s: Shape)
    ensures Sub(s, 0) == s
  {
  }

  lemma PreorderBelow(s: Shape, at: nat, k: nat)
    requires s.Inner? && 0 < k < Nodes(s)
    ensures k <= Nodes(s.left) ==> Preorder(s, at)[k] == Preorder(s.left, at + 1)[k - 1]
    ensures k > Nodes(s.left) ==>
      Preorder(s, at)[k] == Preorder(s.right, at + 1 + Nodes(s.left))[k - 1 - Nodes(s.left)]
  {
    hide LeafWord, InnerWord, Links;
  }

  lemma TreeFields(s: Shape, k: nat)
    requires k < Nodes(s) <= MAX_TREE_NODES
    ensures var t, tree := Sub(s, k), Preorder(s, 0)[k];
      && (IsLeaf(tree) <==> t.Leaf?)
      && (t.Leaf? ==> DepthOf(tree) == t.depth)
      && (t.Inner? ==> LeftOf(tree) == k + 1 && RightOf(tree) == k + 1 + Nodes(t.left))
  {
    hide LeafWord, InnerWord, Links, IsLeaf, DepthOf, LeftOf, RightOf;
    PreorderNode(s, 0, k);
    SubFits(s, k);
    match Sub(s, k)
    case Leaf(first, depth, level) => LeafFields(first, depth, level);
    case Inner(first, level, _, left, right) => InnerFields(first, level, k + 1, k + 1 + Nodes(left));
  }

  lemma WalkedNodeSane(s: Shape, data: seq<Byte>, bit: nat, length: nat, payload: nat, out: nat, w: Walked, k: nat,
                       bytes: nat)
    requires Block(s, data, bit, length, payload, out, w) && k < Nodes(s) <= MAX_TREE_NODES && payload + |data| <= bytes
    ensures |w.nodes| == Nodes(s) && NodeSane(Preorder(s, 0), w.nodes, k, out, length, bytes)
  {
    hide Block, Preorder, Sub, IsLeaf, DepthOf, LeftOf, RightOf, LeafBits, NodeWalk;
    TreeFields(s, k);
    var _, _ := EveryNode(s, data, bit, length, payload, out, w, k);
    Root(s, data, bit, length, payload, out, w);
    if HasBits(Sub(s, k)) {
      BitsInLane(s, data, bit, length, payload, out, w, k);
    }
    if Sub(s, k).Inner? {
      ChildrenSplit(s, data, bit, length, payload, out, w, k);
    }
  }

  lemma WalkedSane(s: Shape, data: seq<Byte>, bit: nat, length: nat, payload: nat, out: nat, w: Walked, bytes: nat)
    requires Block(s, data, bit, length, payload, out, w) && Nodes(s) <= MAX_TREE_NODES && payload + |data| <= bytes
    ensures NodesSane(Preorder(s, 0), w.nodes, out, length, bytes)
  {
    hide Block, Preorder, NodeSane;
    Root(s, data, bit, length, payload, out, w);
    var trees := Preorder(s, 0);
    forall k | 0 <= k < |w.nodes|
      ensures NodeSane(trees, w.nodes, k, out, length, bytes)
    {
      WalkedNodeSane(s, data, bit, length, payload, out, w, k, bytes);
    }
  }

  // ---------- the blocks of a lane ----------

  /** The blocks of a lane before its tree is part of the plan: closed but for the tree
      and symbol bases, which are still 0. */
  ghost predicate HalfClosed(p: Plan, trees: seq<TreeNode>, bytes: nat, end: nat) {
    && Bare(p) && p.bitmaps <= |p.nodes|
    && (forall i :: 0 <= i < |p.nodes| ==> p.nodes[i].output + p.nodes[i].count <= end)
    && (forall i :: 0 <= i < |p.blocks| ==> BlockSane(p.blocks[i], MAX_SYMBOLS, trees, p.nodes, bytes, end))
  }

  lemma BlockHalfClosed(s: Shape, data: seq<Byte>, bit: nat, length: nat, payload: nat, out: nat, w: Walked,
                        bytes: nat, end: nat)
    requires Block(s, data, bit, length, payload, out, w) && out + length <= end
    requires Nodes(s) <= MAX_TREE_NODES && payload + |data| <= bytes
    ensures HalfClosed(BlockPart(s, w.nodes, out, length), Preorder(s, 0), bytes, end)
  {
    hide NodesSane, Block, Preorder, InnerCount;
    Root(s, data, bit, length, payload, out, w);
    forall i | 0 <= i < |w.nodes| ensures w.nodes[i].output + w.nodes[i].count <= end {
      var _, _ := EveryNode(s, data, bit, length, payload, out, w, i);
    }
    WalkedSane(s, data, bit, length, payload, out, w, bytes);
    assert w.nodes[0..0 + Nodes(s)] == w.nodes;
    assert Preorder(s, 0)[0..0 + Nodes(s)] == Preorder(s, 0);
  }

  lemma JoinHalfClosed(a: Plan, b: Plan, trees: seq<TreeNode>, bytes: nat, end: nat)
    requires HalfClosed(a, trees, bytes, end) && HalfClosed(b, trees, bytes, end)
    ensures HalfClosed(Join(a, b), trees, bytes, end)
  {
    hide BlockSane;
    var p := Join(a, b);
    forall i | 0 <= i < |p.nodes| ensures p.nodes[i].output + p.nodes[i].count <= end {
      if i >= |a.nodes| {
        assert p.nodes[i] == Moved(b.nodes[i - |a.nodes|], 0);
      }
    }
    forall i | 0 <= i < |p.blocks| ensures BlockSane(p.blocks[i], MAX_SYMBOLS, trees, p.nodes, bytes, end) {
      JoinBlocksHalf(a, b, trees, bytes, end, i);
    }
  }

  lemma JoinBlocksHalf(a: Plan, b: Plan, trees: seq<TreeNode>, bytes: nat, end: nat, i: nat)
    requires HalfClosed(a, trees, bytes, end) && HalfClosed(b, trees, bytes, end) && i < |Join(a, b).blocks|
    ensures BlockSane(Join(a, b).blocks[i], MAX_SYMBOLS, trees, Join(a, b).nodes, bytes, end)
  {
    hide BlockSane, MovedAll;
    if i < |a.blocks| {
      SaneBefore(a.blocks[i], MAX_SYMBOLS, trees, a.nodes, bytes, end, 0, [], MovedAll(b.nodes, 0), end);
      assert trees + [] == trees;
    } else {
      SaneBehind(b.blocks[i - |a.blocks|], MAX_SYMBOLS, trees, b.nodes, bytes, end, 0, [], a.nodes, 0, end);
      assert [] + trees == trees;
    }
  }

  ghost predicate BlocksHalfClosed(b: Option<Blocks>, trees: seq<TreeNode>, bytes: nat, end: nat) {
    b.Some? ==> HalfClosed(b.value.part, trees, bytes, end)
  }

  lemma PrependHalfClosed(part: Plan, rest: Option<Blocks>, trees: seq<TreeNode>, bytes: nat, end: nat)
    requires HalfClosed(part, trees, bytes, end) && BlocksHalfClosed(rest, trees, bytes, end)
    ensures BlocksHalfClosed(Prepend(part, rest), trees, bytes, end)
  {
    if rest.Some? {
      hide HalfClosed, Join;
      JoinHalfClosed(part, rest.value.part, trees, bytes, end);
    }
  }

  ghost predicate WalkHalfClosed(s: Shape, w: Option<Walked>, out: nat, length: nat, bytes: nat, end: nat) {
    w.Some? && out + length <= end ==>
      HalfClosed(BlockPart(s, w.value.nodes, out, length), Preorder(s, 0), bytes, end)
  }

  ghost predicate WalksHalfClosed(s: Shape, walk: Walker, bytes: nat, end: nat) {
    forall bit: nat, length: nat, out: nat :: WalkHalfClosed(s, walk(bit, length, out), out, length, bytes, end)
  }

  lemma {:induction false} LaneHalfClosed(s: Shape, walk: Walker, bit: nat, nb: nat, blockSize: nat, out: nat,
                                          bytes: nat, end: nat)
    requires blockSize > 0 && out + nb <= end && WalksHalfClosed(s, walk, bytes, end)
    ensures BlocksHalfClosed(LaneBlocks(s, walk, bit, nb, blockSize, out), Preorder(s, 0), bytes, end)
    decreases nb
  {
    hide *;
    var length := if nb < blockSize then nb else blockSize;
    var w := walk(bit, length, out);
    if nb == 0 || w.None? {
      LaneEnds(s, walk, bit, nb, blockSize, out, bytes, end);
    } else {
      var rest := LaneBlocks(s, walk, w.value.bit, nb - length, blockSize, out + length);
      LaneHalfClosed(s, walk, w.value.bit, nb - length, blockSize, out + length, bytes, end);
      OneHalfClosed(s, walk, bit, length, out, bytes, end);
      PrependHalfClosed(BlockPart(s, w.value.nodes, out, length), rest, Preorder(s, 0), bytes, end);
      FirstOfLane(s, walk, bit, nb, blockSize, out);
    }
  }

  lemma LaneEnds(s: Shape, walk: Walker, bit: nat, nb: nat, blockSize: nat, out: nat, bytes: nat, end: nat)
    requires blockSize > 0 && (nb == 0 || walk(bit, if nb < blockSize then nb else blockSize, out).None?)
    ensures BlocksHalfClosed(LaneBlocks(s, walk, bit, nb, blockSize, out), Preorder(s, 0), bytes, end)
  {
    hide HalfClosed, Preorder;
    NothingHalfClosed(Preorder(s, 0), bytes, end);
  }

  lemma OneHalfClosed(s: Shape, walk: Walker, bit: nat, length: nat, out: nat, bytes: nat, end: nat)
    requires WalksHalfClosed(s, walk, bytes, end) && walk(bit, length, out).Some? && out + length <= end
    ensures HalfClosed(BlockPart(s, walk(bit, length, out).value.nodes, out, length), Preorder(s, 0), bytes, end)
  {
    hide HalfClosed, BlockPart, Preorder;
    assert WalkHalfClosed(s, walk(bit, length, out), out, length, bytes, end);
  }

  lemma FirstOfLane(s: Shape, walk: Walker, bit: nat, nb: nat, blockSize: nat, out: nat)
    requires blockSize > 0 && nb > 0 && walk(bit, if nb < blockSize then nb else blockSize, out).Some?
    ensures var length := if nb < blockSize then nb else blockSize;
      var w := walk(bit, length, out).value;
      LaneBlocks(s, walk, bit, nb, blockSize, out)
      == Prepend(BlockPart(s, w.nodes, out, length), LaneBlocks(s, walk, w.bit, nb - length, blockSize, out + length))
  {
    hide BlockPart, Prepend;
  }

  lemma NothingHalfClosed(trees: seq<TreeNode>, bytes: nat, end: nat)
    ensures HalfClosed(EMPTY, trees, bytes, end)
  {
  }

  lemma WalkerHalfClosed(s: Shape, data: seq<Byte>, payload: nat, bytes: nat, end: nat)
    requires Nodes(s) <= MAX_TREE_NODES && payload + |data| <= bytes
    ensures WalksHalfClosed(s, WalkerOf(s, data, payload), bytes, end)
  {
    var walk := WalkerOf(s, data, payload);
    forall bit: nat, length: nat, out: nat
      ensures WalkHalfClosed(s, walk(bit, length, out), out, length, bytes, end)
    {
      hide Walk, BlockPart, HalfClosed, Nodes;
      if walk(bit, length, out).Some? && out + length <= end {
        BlockHalfClosed(s, data, bit, length, payload, out, walk(bit, length, out).value, bytes, end);
      }
    }
  }

  lemma Rooted(p: Plan, symbols: seq<Small>, trees: seq<TreeNode>, src: Source, end: nat)
    requires HalfClosed(p, trees, |src.payload|, end) && |symbols| == MAX_SYMBOLS
    ensures ClosedTo(p.(symbols := symbols, trees := trees, pivcoLanes := 1), src, end)
  {
    hide BlockSane;
  }

  lemma TreeLaneClosed(t: LaneTree, data: seq<Byte>, nb: nat, blockSize: nat, payload: nat, out: nat, src: Source,
                       end: nat)
    requires blockSize > 0 && out + nb <= end && TreeLane(t, data, nb, blockSize, payload, out).Some?
    requires payload + |data| <= |src.payload|
    ensures ClosedTo(TreeLane(t, data, nb, blockSize, payload, out).value, src, end)
  {
    hide HalfClosed, WalksHalfClosed, LaneBlocks, ClosedTo, Preorder, ShapeOf;
    var s := ShapeOf(t.tree, 0, 0, t.tree.numRanks).value;
    var walk := WalkerOf(s, data, payload);
    WalkerHalfClosed(s, data, payload, |src.payload|, end);
    LaneHalfClosed(s, walk, 0, nb, blockSize, out, |src.payload|, end);
    Rooted(LaneBlocks(s, walk, 0, nb, blockSize, out).value.part, t.symbols, Preorder(s, 0), src, end);
  }

  // ---------- the lane blocks of a PFOR lane ----------

  /** w stands in the payload at at. */
  predicate StandsAt(w: seq<Byte>, payload: seq<Byte>, at: nat) {
    at + |w| <= |payload| && payload[at..at + |w|] == w
  }

  lemma StandsBehind(w: seq<Byte>, payload: seq<Byte>, at: nat, n: nat)
    requires StandsAt(w, payload, at) && n <= |w|
    ensures StandsAt(w[n..], payload, at + n)
  {
    assert payload[at + n..at + |w|] == payload[at..at + |w|][n..];
  }

  lemma ReadsThere(w: seq<Byte>, src: Source, at: nat, out: nat)
    requires Sound(src.f) && Local(src.f) && StandsAt(w, src.payload, at) && src.f(w).Some?
    ensures ReadsBlock(LaneBlock(at, out), src)
  {
    SoundAt(src.f, w);
    assert src.payload[at..] == w + src.payload[at + |w|..];
    LocalAt(src.f, w, src.payload[at + |w|..]);
  }

  ghost predicate LaneBlocksClosed(b: seq<LaneBlock>, src: Source, end: nat) {
    forall i :: 0 <= i < |b| ==> b[i].outputBase + 256 <= end && ReadsBlock(b[i], src)
  }

  lemma {:induction false} PforBlocksClosed(w: seq<Byte>, nb: nat, at: nat, out: nat, src: Source, end: nat)
    requires Sound(src.f) && Local(src.f) && StandsAt(w, src.payload, at)
    requires PforBlocks(src.f, w, nb, at, out).Some? && out + Stride(nb) <= end
    ensures LaneBlocksClosed(PforBlocks(src.f, w, nb, at, out).value, src, end)
    decreases nb
  {
    hide ReadsBlock, StandsAt, Local;
    if nb > 0 {
      SoundAt(src.f, w);
      var n := src.f(w).value.0;
      StandsBehind(w, src.payload, at, n);
      PforBlocksClosed(w[n..], if nb < BLOCK then 0 else nb - BLOCK, at + n, out + BLOCK, src, end);
      ReadsThere(w, src, at, out);
    }
  }

  lemma PforLaneClosed(w: seq<Byte>, nb: nat, at: nat, out: nat, src: Source, end: nat)
    requires Sound(src.f) && Local(src.f) && StandsAt(w, src.payload, at)
    requires PforLane(src.f, w, nb, at, out).Some? && out + Stride(nb) <= end
    ensures ClosedTo(PforLane(src.f, w, nb, at, out).value, src, end)
  {
    hide ReadsBlock, StandsAt, Local, PforBlocks, Stride;
    PforBlocksClosed(w, nb, at, out, src, end);
  }

  // ---------- the lanes of a frame ----------

  ghost predicate ClosedMaybe(p: Option<Plan>, src: Source, end: nat) {
    p.Some? ==> ClosedTo(p.value, src, end) && p.value.laneBytes == 0
  }

  lemma JoinMaybeClosed(a: Option<Plan>, b: Option<Plan>, src: Source, end: nat)
    requires ClosedMaybe(a, src, end) && ClosedMaybe(b, src, end)
    ensures ClosedMaybe(JoinMaybe(a, b), src, end)
  {
    if a.Some? && b.Some? {
      JoinBytes(a.value, b.value);
      hide ClosedTo, Join;
      JoinClosed(a.value, end, b.value, end, src, end);
    }
  }

  lemma LaneClosed(t: Tables, src: Source, l: Layout, lane: nat, weightsAt: nat, bitsAt: nat, end: nat)
    requires Sound(src.f) && Local(src.f) && LayoutOk(l, src.payload) && lane < |l.lanes|
    requires Stride(l.nb) <= l.stride && LaneStart(|l.lanes|, l.stride) <= end
    ensures ClosedMaybe(LanePart(t, src.f, l, src.payload, lane, weightsAt, bitsAt), src, end)
  {
    hide ClosedTo, LaneStart, Stride, TreeLane, PforLane, Local, Sound;
    var h, out := l.lanes[lane], LaneStart(lane, l.stride);
    LaneRoom(lane, |l.lanes|, l.stride);
    if LanePart(t, src.f, l, src.payload, lane, weightsAt, bitsAt).Some? {
      var data := src.payload[bitsAt..bitsAt + h.bitsSize];
      if h.mode == LANE_PFOR {
        PforLaneClosed(data, l.nb, bitsAt, out, src, end);
      } else {
        var table := t(l.weights[weightsAt..weightsAt + h.weightsSize]).value;
        TreeLaneClosed(table, data, l.nb, l.blockSize, bitsAt, out, src, end);
      }
    }
  }

  ghost predicate AllClosed(part: LaneParts, src: Source, end: nat) {
    forall i, weightsAt, bitsAt :: ClosedMaybe(part(i, weightsAt, bitsAt), src, end)
  }

  lemma {:induction false} LanesClosed(part: LaneParts, l: Layout, lane: nat, weightsAt: nat, bitsAt: nat, src: Source,
                                       end: nat)
    requires NoBytes(part) && lane <= |l.lanes| && AllClosed(part, src, end)
    ensures ClosedMaybe(Lanes(part, l, lane, weightsAt, bitsAt), src, end)
    decreases |l.lanes| - lane
  {
    hide JoinMaybe, ClosedMaybe, NoBytes, AllClosed;
    if lane < |l.lanes| {
      var weights', bits' := weightsAt + l.lanes[lane].weightsSize, bitsAt + l.lanes[lane].bitsSize;
      LanesClosed(part, l, lane + 1, weights', bits', src, end);
      ClosedOne(part, lane, weightsAt, bitsAt, src, end);
      JoinMaybeClosed(part(lane, weightsAt, bitsAt), Lanes(part, l, lane + 1, weights', bits'), src, end);
    } else {
      NoLanesClosed(part, l, weightsAt, bitsAt, src, end);
    }
  }

  lemma ClosedOne(part: LaneParts, lane: nat, weightsAt: nat, bitsAt: nat, src: Source, end: nat)
    requires AllClosed(part, src, end)
    ensures ClosedMaybe(part(lane, weightsAt, bitsAt), src, end)
  {
  }

  lemma NoLanesClosed(part: LaneParts, l: Layout, weightsAt: nat, bitsAt: nat, src: Source, end: nat)
    requires NoBytes(part)
    ensures ClosedMaybe(Lanes(part, l, |l.lanes|, weightsAt, bitsAt), src, end)
  {
    EmptyClosed(src, end);
  }

  /** The join tasks of a frame read its lanes and nothing behind them. */
  lemma JoinsClosed(frame: Frame, src: Source, bytes: nat)
    requires (src.elementBytes == 1 || src.elementBytes == 2)
    requires bytes == LaneStart(src.elementBytes, Stride(Count(frame.captured)))
    ensures ClosedTo(EMPTY.(joins := Joins(frame, Groups(Count(frame.captured)))), src, bytes)
  {
    hide Count;
    var stride := Stride(Count(frame.captured));
    assert LaneStart(1, stride) == stride && LaneStart(2, stride) == LaneStart(1, stride) + stride;
  }

  lemma AssembledClosed(frame: Frame, lanes: Plan, src: Source, bytes: nat)
    requires (src.elementBytes == 1 || src.elementBytes == 2)
    requires ClosedTo(lanes, src, bytes) && bytes == LaneStart(src.elementBytes, Stride(Count(frame.captured)))
    ensures var p := Assemble(Joins(frame, Groups(Count(frame.captured))), Some(lanes), bytes).value;
      ClosedTo(p, src, p.laneBytes)
  {
    hide ClosedTo, Groups, Joins, LaneStart, Stride, Count, Join;
    var joins := EMPTY.(joins := Joins(frame, Groups(Count(frame.captured))));
    JoinsClosed(frame, src, bytes);
    JoinClosed(joins, bytes, lanes, bytes, src, bytes);
    SameClosed(Join(joins, lanes), src, bytes);
  }

  lemma SameClosed(p: Plan, src: Source, bytes: nat)
    requires ClosedTo(p, src, bytes)
    ensures ClosedTo(p.(laneBytes := bytes), src, bytes)
  {
    hide BlockSane, ReadsBlock, JoinInside;
  }

  lemma PartsClosed(t: Tables, src: Source, l: Layout, end: nat)
    requires Sound(src.f) && Local(src.f) && LayoutOk(l, src.payload)
    requires Stride(l.nb) <= l.stride && LaneStart(|l.lanes|, l.stride) <= end
    ensures AllClosed(PartsOf(t, src.f, l, src.payload), src, end)
  {
    var part := PartsOf(t, src.f, l, src.payload);
    forall i: nat, weightsAt: nat, bitsAt: nat ensures ClosedMaybe(part(i, weightsAt, bitsAt), src, end) {
      hide LanePart, LaneStart, Stride, ClosedTo;
      if i < |l.lanes| {
        LaneClosed(t, src, l, i, weightsAt, bitsAt, end);
      }
    }
  }

  lemma FrameClosed(t: Tables, src: Source, frame: Frame, elementBytes: ElementBytes)
    requires Sound(src.f) && Local(src.f) && src.elementBytes == elementBytes
    requires FramePart(t, src.f, frame, src.payload, elementBytes).Some?
    ensures var p := FramePart(t, src.f, frame, src.payload, elementBytes).value; ClosedTo(p, src, p.laneBytes)
  {
    hide Lanes, Assemble, ClosedTo, LoadLe, Groups, PartsOf, LaneStart, Stride, Local, Sound;
    var l := LayoutOf(frame.captured, elementBytes);
    var bytes := LaneStart(elementBytes, l.stride);
    FrameLanes(t, src.f, frame, src.payload, elementBytes);
    PartsClosed(t, src, l, bytes);
    var part := PartsOf(t, src.f, l, src.payload);
    LanesClosed(part, l, 0, 0, l.bitsAt, src, bytes);
    AssembledClosed(frame, Lanes(part, l, 0, 0, l.bitsAt).value, src, bytes);
  }

  lemma FrameLanes(t: Tables, f: Parser, frame: Frame, payload: seq<Byte>, elementBytes: ElementBytes)
    requires Sound(f) && FramePart(t, f, frame, payload, elementBytes).Some?
    ensures var l := LayoutOf(frame.captured, elementBytes);
      LayoutOk(l, payload) && Lanes(PartsOf(t, f, l, payload), l, 0, 0, l.bitsAt).Some?
  {
  }

  // ---------- batches ----------

  /** The frame plans g makes from this source are closed. */
  ghost predicate ClosedFrom(g: Parts, src: Source) {
    forall frame :: g(frame).Some? ==> ClosedTo(g(frame).value, src, g(frame).value.laneBytes)
  }

  ghost predicate ClosedParts(g: Parts) {
    exists src :: ClosedFrom(g, src)
  }

  lemma FramesClosedFrom(t: Tables, src: Source, elementBytes: ElementBytes)
    requires Sound(src.f) && Local(src.f) && src.elementBytes == elementBytes
    ensures ClosedFrom(FramePlanner(t, src.f, src.payload, elementBytes), src)
  {
    var g := FramePlanner(t, src.f, src.payload, elementBytes);
    forall frame | g(frame).Some? ensures ClosedTo(g(frame).value, src, g(frame).value.laneBytes) {
      hide FramePart, ClosedTo;
      FrameClosed(t, src, frame, elementBytes);
    }
  }

  lemma FramesClosed(t: Tables, f: Parser, payload: seq<Byte>, elementBytes: ElementBytes)
    requires Sound(f) && Local(f)
    ensures ClosedParts(FramePlanner(t, f, payload, elementBytes))
  {
    hide ClosedFrom;
    FramesClosedFrom(t, Source(payload, f, elementBytes), elementBytes);
  }

  /** A planned batch is closed. */
  lemma {:induction false} BatchClosedFrom(g: Parts, frames: seq<Frame>, src: Source)
    requires ClosedFrom(g, src) && Batch(g, frames).Some?
    ensures ClosedTo(Batch(g, frames).value, src, Batch(g, frames).value.laneBytes)
    decreases |frames|
  {
    hide Join, ClosedTo;
    if |frames| == 0 {
      EmptyClosed(src, 0);
    } else {
      var before, last := frames[..|frames| - 1], frames[|frames| - 1];
      BatchClosedFrom(g, before, src);
      var a, b := Batch(g, before).value, g(last).value;
      JoinBytes(a, b);
      JoinClosed(a, a.laneBytes, b, b.laneBytes, src, a.laneBytes + b.laneBytes);
    }
  }

  lemma BatchClosed(g: Parts, frames: seq<Frame>)
    requires ClosedParts(g) && Batch(g, frames).Some?
    ensures Closed(Batch(g, frames).value)
  {
    hide ClosedFrom, ClosedTo, Batch;
    var src :| ClosedFrom(g, src);
    BatchClosedFrom(g, frames, src);
  }

  lemma JoinBytes(a: Plan, b: Plan)
    ensures Join(a, b).laneBytes == a.laneBytes + b.laneBytes
  {
  }

  lemma EmptyClosed(src: Source, end: nat)
    ensures ClosedTo(EMPTY, src, end)
  {
  }

  // ---------- the plan that is returned ----------

  /** Padding lane blocks repeat a block that is there, into 256 bytes behind the lanes,
      which the lane buffer has room for; all else is closed. */
  ghost predicate PaddedClosed(p: Plan, src: Source) {
    && ClosedTo(p.(laneBlocks := []), src, p.laneBytes)
    && p.laneBytes + 256 <= UINT32_MAX && |p.laneBlocks| % 4 == 0
    && forall i :: 0 <= i < |p.laneBlocks| ==>
         && ReadsBlock(p.laneBlocks[i], src)
         && (p.laneBlocks[i].outputBase + 256 <= p.laneBytes || p.laneBlocks[i].outputBase == p.laneBytes)
  }

  lemma PadClosed(p: Plan, src: Source)
    requires ClosedTo(p, src, p.laneBytes) && p.laneBytes + 256 <= UINT32_MAX
    ensures PaddedClosed(PadLanes(p), src)
  {
    hide BlockSane, JoinInside, ReadsBlock;
    var q := PadLanes(p);
    forall i | 0 <= i < |q.laneBlocks|
      ensures ReadsBlock(q.laneBlocks[i], src)
      ensures q.laneBlocks[i].outputBase + 256 <= p.laneBytes || q.laneBlocks[i].outputBase == p.laneBytes
    {
      if i >= |p.laneBlocks| {
        SameRead(q.laneBlocks[i], p.laneBlocks[0], src);
      }
    }
  }

  /** Every plan the planner returns, for every batch it accepts: no reference leaves its
      array, the payload or the lane buffer, children split what their parent has, and
      every lane block is a PFOR block the decoder accepts. */
  lemma ReturnedClosed(t: Tables, frames: seq<Frame>, payload: seq<Byte>, elementBytes: nat)
    requires BatchPlan(t, frames, payload, elementBytes).Some?
    ensures PaddedClosed(BatchPlan(t, frames, payload, elementBytes).value,
                         Source(payload, PforFormat.BlockParser(1), elementBytes))
  {
    hide ClosedTo, PaddedClosed, FramePlanner, Batch, ClosedFrom, PadLanes;
    var f := PforFormat.BlockParser(1);
    var src, g := Source(payload, f, elementBytes), FramePlanner(t, f, payload, elementBytes);
    FramesClosedFrom(t, src, elementBytes);
    BatchClosedFrom(g, frames, src);
    PadClosed(Batch(g, frames).value, src);
  }
}
