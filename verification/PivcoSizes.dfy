/** How big PivCo plans get, and from that when the threaded build gives what the
    one-shot build gives: for trees of at most 256 nodes always. */
module PivcoSizes {
  import opened Common
  import opened Words
  import opened Streams
  import opened PivcoTree
  import opened PivcoWalk
  import opened PivcoParts
  import opened PivcoLanes
  import opened PivcoFrames
  import opened PivcoBatch
  import opened PivcoClosed
  import opened PivcoMerge
  import PforFormat

  // ---------- sizes of parts ----------

  const THIN_NODES: nat := 256

  /** Every tree the tables answer has at most 256 nodes. */
  ghost predicate ThinTables(t: Tables) {
    forall w :: t(w).Some? ==> ThinTree(t(w).value.tree)
  }

  ghost predicate ThinTree(tree: Tree) {
    var s := ShapeOf(tree, 0, 0, tree.numRanks);
    s.Some? ==> Nodes(s.value) <= THIN_NODES
  }

  /** What every part brings: no more trees, bitmaps or blocks than nodes, and no more of
      anything else than lane bytes; of nodes too, where trees are thin. */
  ghost predicate Sized(p: Plan, bytes: nat, thin: bool) {
    && (thin ==> |p.nodes| <= bytes)
    && |p.trees| <= |p.nodes| && p.bitmaps <= |p.nodes| && |p.blocks| <= |p.nodes|
    && |p.symbols| <= bytes && |p.laneBlocks| <= bytes && |p.joins| <= bytes
    && p.pivcoLanes <= bytes && p.pforLanes <= bytes
  }

  lemma JoinSized(a: Plan, x: nat, b: Plan, y: nat, thin: bool)
    requires Sized(a, x, thin) && Sized(b, y, thin)
    ensures Sized(Join(a, b), x + y, thin)
  {
  }

  // Blocks of a lane: at least so many nodes, and at most so many where blocks are long.
  ghost predicate BlocksSized(b: Option<Blocks>, least: nat, most: nat, thin: bool) {
    b.Some? ==>
      && Bare(b.value.part) && least <= |b.value.part.nodes| && (thin ==> |b.value.part.nodes| <= most)
      && b.value.part.bitmaps <= |b.value.part.nodes| && |b.value.part.blocks| <= |b.value.part.nodes|
  }

  ghost predicate Walks(s: Shape, walk: Walker) {
    forall bit: nat, length: nat, out: nat ::
      walk(bit, length, out).Some? ==> |walk(bit, length, out).value.nodes| == Nodes(s)
  }

  lemma WalkerWalks(s: Shape, data: seq<Byte>, payload: nat)
    ensures Walks(s, WalkerOf(s, data, payload))
  {
    hide Walk;
  }

  lemma PrependSized(part: Plan, rest: Option<Blocks>, most: nat, thin: bool)
    requires Bare(part) && part.bitmaps <= |part.nodes| && |part.blocks| <= |part.nodes|
    requires BlocksSized(rest, 0, most, thin)
    ensures BlocksSized(Prepend(part, rest), |part.nodes|, |part.nodes| + most, thin)
  {
  }

  // Thin trees in blocks of at least 256 symbols.
  predicate Long(s: Shape, nb: nat, blockSize: nat, thin: bool) {
    thin ==> Nodes(s) <= THIN_NODES && (THIN_NODES <= blockSize || nb <= blockSize)
  }

  lemma {:induction false} LaneSized(s: Shape, walk: Walker, bit: nat, nb: nat, blockSize: nat, out: nat, thin: bool)
    requires blockSize > 0 && Walks(s, walk) && Long(s, nb, blockSize, thin)
    ensures BlocksSized(LaneBlocks(s, walk, bit, nb, blockSize, out), if nb == 0 then 0 else Nodes(s), Stride(nb), thin)
    decreases nb
  {
    hide Prepend, BlocksSized, Stride, Nodes;
    var length := if nb < blockSize then nb else blockSize;
    var w := walk(bit, length, out);
    if nb == 0 || w.None? {
      LaneEndSized(s, walk, bit, nb, blockSize, out, thin);
    } else {
      LaneSized(s, walk, w.value.bit, nb - length, blockSize, out + length, thin);
      var rest := LaneBlocks(s, walk, w.value.bit, nb - length, blockSize, out + length);
      StrideStep(nb, length);
      RelaxSized(rest, if nb - length == 0 then 0 else Nodes(s), Stride(nb - length), 0, Stride(nb - length), thin);
      PrependSized(BlockPart(s, w.value.nodes, out, length), rest, Stride(nb - length), thin);
      RelaxSized(LaneBlocks(s, walk, bit, nb, blockSize, out), Nodes(s), Nodes(s) + Stride(nb - length), Nodes(s),
        Stride(nb), thin);
    }
  }

  lemma StrideStep(nb: nat, length: nat)
    requires 0 < length <= nb
    ensures length == nb || THIN_NODES <= length ==> THIN_NODES + Stride(nb - length) <= Stride(nb)
  {
  }

  lemma LaneEndSized(s: Shape, walk: Walker, bit: nat, nb: nat, blockSize: nat, out: nat, thin: bool)
    requires blockSize > 0 && (nb == 0 || walk(bit, if nb < blockSize then nb else blockSize, out).None?)
    ensures BlocksSized(LaneBlocks(s, walk, bit, nb, blockSize, out), if nb == 0 then 0 else Nodes(s), Stride(nb), thin)
  {
    hide Stride, Nodes;
  }

  lemma RelaxSized(b: Option<Blocks>, least: nat, most: nat, least': nat, most': nat, thin: bool)
    requires BlocksSized(b, least, most, thin) && least' <= least && (thin ==> most <= most')
    ensures BlocksSized(b, least', most', thin)
  {
  }

  // A part without joins that is sized.
  ghost predicate SizedMaybe(p: Option<Plan>, bytes: nat, thin: bool) {
    p.Some? ==> Sized(p.value, bytes, thin) && |p.value.joins| == 0
  }

  lemma TreeLaneSized(t: LaneTree, data: seq<Byte>, nb: nat, blockSize: nat, payload: nat, out: nat, bytes: nat,
                      thin: bool)
    requires blockSize > 0 && 0 < nb && 256 <= bytes && Stride(nb) <= bytes
    requires thin ==> ThinTree(t.tree) && (THIN_NODES <= blockSize || nb <= blockSize)
    ensures SizedMaybe(TreeLane(t, data, nb, blockSize, payload, out), bytes, thin)
  {
    hide LaneBlocks, ShapeOf, Stride;
    var s := ShapeOf(t.tree, 0, 0, t.tree.numRanks);
    if s.Some? {
      WalkerWalks(s.value, data, payload);
      LaneSized(s.value, WalkerOf(s.value, data, payload), 0, nb, blockSize, out, thin);
    }
  }

  lemma {:induction false} PforBlocksCount(f: Parser, w: seq<Byte>, nb: nat, at: nat, out: nat)
    requires Sound(f) && PforBlocks(f, w, nb, at, out).Some?
    ensures |PforBlocks(f, w, nb, at, out).value| <= nb
    decreases nb
  {
    if nb > 0 {
      PforBlocksCount(f, w[f(w).value.0..], if nb < BLOCK then 0 else nb - BLOCK, at + f(w).value.0, out + BLOCK);
    }
  }

  lemma PforLaneSized(f: Parser, w: seq<Byte>, nb: nat, at: nat, out: nat, bytes: nat, thin: bool)
    requires Sound(f) && 0 < nb <= bytes
    ensures SizedMaybe(PforLane(f, w, nb, at, out), bytes, thin)
  {
    hide PforBlocks, Sound;
    if PforBlocks(f, w, nb, at, out).Some? {
      PforBlocksCount(f, w, nb, at, out);
    }
  }

  ghost predicate LongLanes(t: Tables, l: Layout, thin: bool) {
    && 0 < l.nb && 256 <= l.stride && Stride(l.nb) <= l.stride
    && (thin ==> ThinTables(t) && (THIN_NODES <= l.blockSize || l.nb <= l.blockSize))
  }

  lemma LanePartSized(t: Tables, f: Parser, l: Layout, payload: seq<Byte>, lane: nat, weightsAt: nat, bitsAt: nat,
                      thin: bool)
    requires Sound(f) && LayoutOk(l, payload) && lane < |l.lanes| && LongLanes(t, l, thin)
    ensures SizedMaybe(LanePart(t, f, l, payload, lane, weightsAt, bitsAt), l.stride, thin)
  {
    hide TreeLane, PforLane, Sized, LaneStart, ThinTree, Stride;
    var h, out := l.lanes[lane], LaneStart(lane, l.stride);
    if LanePart(t, f, l, payload, lane, weightsAt, bitsAt).Some? {
      var data := payload[bitsAt..bitsAt + h.bitsSize];
      if h.mode == LANE_PFOR {
        PforLaneSized(f, data, l.nb, bitsAt, out, l.stride, thin);
      } else {
        var table := t(l.weights[weightsAt..weightsAt + h.weightsSize]).value;
        TreeLaneSized(table, data, l.nb, l.blockSize, bitsAt, out, l.stride, thin);
      }
    }
  }

  ghost predicate AllSized(part: LaneParts, bytes: nat, thin: bool) {
    forall i, weightsAt, bitsAt :: SizedMaybe(part(i, weightsAt, bitsAt), bytes, thin)
  }

  lemma PartsSized(t: Tables, f: Parser, l: Layout, payload: seq<Byte>, thin: bool)
    requires Sound(f) && LayoutOk(l, payload) && LongLanes(t, l, thin)
    ensures AllSized(PartsOf(t, f, l, payload), l.stride, thin)
  {
    var part := PartsOf(t, f, l, payload);
    forall i: nat, weightsAt: nat, bitsAt: nat ensures SizedMaybe(part(i, weightsAt, bitsAt), l.stride, thin) {
      hide LanePart, Sized, LongLanes;
      if i < |l.lanes| {
        LanePartSized(t, f, l, payload, i, weightsAt, bitsAt, thin);
      }
    }
  }

  lemma JoinMaybeSized(a: Option<Plan>, x: nat, b: Option<Plan>, y: nat, thin: bool)
    requires SizedMaybe(a, x, thin) && SizedMaybe(b, y, thin)
    ensures SizedMaybe(JoinMaybe(a, b), x + y, thin)
  {
    hide Sized;
    if a.Some? && b.Some? {
      JoinSized(a.value, x, b.value, y, thin);
    }
  }

  lemma {:induction false} LanesSized(part: LaneParts, l: Layout, lane: nat, weightsAt: nat, bitsAt: nat, thin: bool)
    requires NoBytes(part) && lane <= |l.lanes| && AllSized(part, l.stride, thin)
    ensures SizedMaybe(Lanes(part, l, lane, weightsAt, bitsAt), LaneStart(|l.lanes| - lane, l.stride), thin)
    decreases |l.lanes| - lane
  {
    hide JoinMaybe, SizedMaybe, NoBytes, AllSized;
    if lane < |l.lanes| {
      var weights', bits' := weightsAt + l.lanes[lane].weightsSize, bitsAt + l.lanes[lane].bitsSize;
      LanesSized(part, l, lane + 1, weights', bits', thin);
      OneSized(part, lane, weightsAt, bitsAt, l.stride, thin);
      JoinMaybeSized(part(lane, weightsAt, bitsAt), l.stride, Lanes(part, l, lane + 1, weights', bits'),
                     LaneStart(|l.lanes| - lane - 1, l.stride), thin);
    } else {
      NoLanesSized(part, l, weightsAt, bitsAt, thin);
    }
  }

  lemma OneSized(part: LaneParts, lane: nat, weightsAt: nat, bitsAt: nat, bytes: nat, thin: bool)
    requires AllSized(part, bytes, thin)
    ensures SizedMaybe(part(lane, weightsAt, bitsAt), bytes, thin)
  {
  }

  lemma NoLanesSized(part: LaneParts, l: Layout, weightsAt: nat, bitsAt: nat, thin: bool)
    requires NoBytes(part)
    ensures SizedMaybe(Lanes(part, l, |l.lanes|, weightsAt, bitsAt), 0, thin)
  {
  }

  lemma AssembledSized(joins: seq<JoinTask>, lanes: Plan, bytes: nat, thin: bool)
    requires Sized(lanes, bytes, thin) && |lanes.joins| == 0 && |joins| <= bytes
    ensures var p := Assemble(joins, Some(lanes), bytes).value; Sized(p, p.laneBytes, thin)
  {
  }

  lemma StrideBounds(count: nat)
    requires count > 0
    ensures 256 <= Stride(count) && count <= Stride(count) && Groups(count) <= Stride(count)
  {
  }

  lemma LaneStride(lanes: nat, stride: nat)
    requires lanes > 0
    ensures stride <= LaneStart(lanes, stride)
  {
  }

  lemma FrameSized(t: Tables, f: Parser, frame: Frame, payload: seq<Byte>, elementBytes: ElementBytes, thin: bool)
    requires (thin ==> ThinTables(t)) && Sound(f) && FramePart(t, f, frame, payload, elementBytes).Some?
    ensures var p := FramePart(t, f, frame, payload, elementBytes).value; Sized(p, p.laneBytes, thin)
  {
    hide Lanes, Assemble, Sized, LoadLe, Groups, PartsOf, Stride, LaneStart, ThinTables;
    var l := LayoutOf(frame.captured, elementBytes);
    FrameLanes(t, f, frame, payload, elementBytes);
    var part := PartsOf(t, f, l, payload);
    StrideBounds(Count(frame.captured));
    PartsSized(t, f, l, payload, thin);
    LanesSized(part, l, 0, 0, l.bitsAt, thin);
    LaneStride(elementBytes, l.stride);
    AssembledSized(Joins(frame, Groups(l.nb)), Lanes(part, l, 0, 0, l.bitsAt).value, LaneStart(elementBytes, l.stride),
                   thin);
  }

  // ---------- batches ----------

  ghost predicate SizedParts(g: Parts, thin: bool) {
    forall frame :: g(frame).Some? ==> Sized(g(frame).value, g(frame).value.laneBytes, thin)
  }

  lemma FramesSized(t: Tables, f: Parser, payload: seq<Byte>, elementBytes: ElementBytes, thin: bool)
    requires Sound(f) && (thin ==> ThinTables(t))
    ensures SizedParts(FramePlanner(t, f, payload, elementBytes), thin)
  {
    var g := FramePlanner(t, f, payload, elementBytes);
    forall frame | g(frame).Some? ensures Sized(g(frame).value, g(frame).value.laneBytes, thin) {
      hide FramePart, Sized, ThinTables;
      FrameSized(t, f, frame, payload, elementBytes, thin);
    }
  }

  lemma {:induction false} BatchSized(g: Parts, frames: seq<Frame>, thin: bool)
    requires SizedParts(g, thin) && Batch(g, frames).Some?
    ensures Sized(Batch(g, frames).value, Batch(g, frames).value.laneBytes, thin)
    decreases |frames|
  {
    hide Join, Sized;
    if |frames| == 0 {
      EmptySized(thin);
    } else {
      var a := Batch(g, frames[..|frames| - 1]).value;
      BatchSized(g, frames[..|frames| - 1], thin);
      var b := g(frames[|frames| - 1]).value;
      JoinSized(a, a.laneBytes, b, b.laneBytes, thin);
      JoinTotals(a, b);
    }
  }

  lemma EmptySized(thin: bool)
    ensures Sized(EMPTY, 0, thin)
  {
  }

  lemma SizedMergeable(p: Plan, thin: bool)
    requires Sized(p, p.laneBytes, thin) && Fits(p)
    ensures Mergeable(TotalsOf(p)) <==> |p.nodes| <= UINT32_MAX
    ensures thin ==> |p.nodes| <= UINT32_MAX
  {
    hide BlocksFit;
  }

  lemma FitsExactly(t: Tables, frames: seq<Frame>, payload: seq<Byte>, elementBytes: nat, thin: bool)
    requires thin ==> ThinTables(t)
    ensures var whole := BatchPlan(t, frames, payload, elementBytes);
      && (MergeFits(whole) <==> whole.Some? && |whole.value.nodes| <= UINT32_MAX)
      && (thin ==> MergeFits(whole) == whole.Some?)
  {
    hide FramePlanner, Batch, Sized, Fits, Mergeable, TotalsOf, Trim, ClosedParts, ThinTables;
    if BatchPlan(t, frames, payload, elementBytes).Some? {
      var g := FramePlanner(t, PforFormat.BlockParser(1), payload, elementBytes);
      var p := Batch(g, frames).value;
      FramesSized(t, PforFormat.BlockParser(1), payload, elementBytes, thin);
      BatchSized(g, frames, thin);
      SizedMergeable(p, thin);
      FramesClosed(t, PforFormat.BlockParser(1), payload, elementBytes);
      BatchClosed(g, frames);
      hide Closed;
      TrimPadded(p);
      PadKeeps(p);
      PadNodes(p);
    }
  }

  /** Whatever trees the tables answer, of all the limits of the merge one can bind on a
      batch the one-shot build plans: the 32-bit count of nodes. */
  lemma MergeFitsExactly(t: Tables, frames: seq<Frame>, payload: seq<Byte>, elementBytes: nat)
    ensures var whole := BatchPlan(t, frames, payload, elementBytes);
      MergeFits(whole) <==> whole.Some? && |whole.value.nodes| <= UINT32_MAX
  {
    hide MergeFits;
    FitsExactly(t, frames, payload, elementBytes, false);
  }

  /** For trees of at most 256 nodes no limit of the merge binds. */
  lemma ThinAlwaysFits(t: Tables, frames: seq<Frame>, payload: seq<Byte>, elementBytes: nat)
    requires ThinTables(t)
    ensures var whole := BatchPlan(t, frames, payload, elementBytes);
      MergeFits(whole) <==> whole.Some?
  {
    hide MergeFits, ThinTables;
    FitsExactly(t, frames, payload, elementBytes, true);
  }

  lemma PadNodes(p: Plan)
    ensures PadLanes(p).nodes == p.nodes
  {
  }
}
