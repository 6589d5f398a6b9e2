/** The threaded build of PivCo plans: ranges of frames planned apart, trimmed, and
    merged by relocation. */
module PivcoMerge {
  import opened Common
  import opened Words
  import opened Streams
  import opened Batches
  import opened PivcoWalk
  import opened PivcoBlocks
  import opened PivcoParts
  import opened PivcoLanes
  import opened PivcoFrames
  import opened PivcoBatch
  import opened PivcoClosed
  import PforPlan
  import PforFormat

  // ---------------------------------------------------------------------------
  // Workers

  /** trim_lane_padding */
  method TrimLanePadding(plan: Plan) returns (trimmed: Plan)
    ensures trimmed == plan.(laneBlocks := Trim(plan.laneBlocks, plan.laneBytes))
  {
    var laneBlocks := plan.laneBlocks;
    while |laneBlocks| != 0 && laneBlocks[|laneBlocks| - 1].outputBase == plan.laneBytes
      invariant Trim(laneBlocks, plan.laneBytes) == Trim(plan.laneBlocks, plan.laneBytes)
      decreases |laneBlocks|
    {
      laneBlocks := laneBlocks[..|laneBlocks| - 1];
    }
    trimmed := plan.(laneBlocks := laneBlocks);
  }

  /** What build_chunk leaves for its range: the plan without padding. */
  ghost function Chunk(g: Parts, frames: seq<Frame>): Option<Plan> {
    if Result(g, frames).None? then None else Batch(g, frames)
  }

  method BuildChunk(t: Tables, frames: seq<Frame>, payload: seq<Byte>, elementBytes: ElementBytes, ghost f: Parser,
                    ghost x: PforPlan.Tally, ghost g: Parts)
    returns (plan: Option<Plan>)
    requires Sound(f) && PforPlan.PlannerFor(f, x, 1) && g == FramePlanner(t, f, payload, elementBytes)
      && ClosedParts(g)
    ensures plan == Chunk(g, frames)
  {
    plan := BuildAll(t, frames, payload, elementBytes, f, x, g);
    if plan.Some? {
      BatchClosed(g, frames);
      hide Batch, Closed, Trim, FramePlanner;
      TrimPadded(Batch(g, frames).value);
      PadKeeps(Batch(g, frames).value);
      var trimmed := TrimLanePadding(plan.value);
      plan := Some(trimmed);
    }
  }

  lemma PadKeeps(p: Plan)
    ensures PadLanes(p).laneBytes == p.laneBytes
  {
  }

  ghost predicate Worked(g: Parts, frames: seq<Frame>, starts: seq<nat>, i: nat, plan: Option<Plan>)
    requires i + 1 < |starts|
  {
    starts[i] < starts[i + 1] <= |frames| && plan == Chunk(g, frames[starts[i]..starts[i + 1]])
  }

  ghost predicate AllWorked(g: Parts, frames: seq<Frame>, starts: seq<nat>, plans: seq<Option<Plan>>) {
    && |starts| == |plans| + 1 && starts[0] == 0
    && forall i :: 0 <= i < |plans| ==> Worked(g, frames, starts, i, plans[i])
  }

  lemma WorkedMore(g: Parts, frames: seq<Frame>, starts: seq<nat>, plans: seq<Option<Plan>>, next: nat,
                   plan: Option<Plan>)
    requires AllWorked(g, frames, starts, plans) && starts[|plans|] < next <= |frames|
    requires plan == Chunk(g, frames[starts[|plans|]..next])
    ensures AllWorked(g, frames, starts + [next], plans + [plan])
  {
    hide Chunk;
    forall i | 0 <= i < |plans| + 1 ensures Worked(g, frames, starts + [next], i, (plans + [plan])[i]) {
      if i < |plans| {
        assert Worked(g, frames, starts, i, plans[i]);
      }
    }
  }

  /** Ranges handed out so far, and enough frames left for every worker to come. */
  ghost predicate HandedOut(g: Parts, frames: seq<Frame>, threads: nat, starts: seq<nat>, plans: seq<Option<Plan>>,
                            first: nat) {
    && |plans| <= threads && AllWorked(g, frames, starts, plans) && starts[|plans|] == first
    && first <= |frames| && threads - |plans| <= |frames| - first
    && (|plans| == threads ==> first == |frames|)
  }

  lemma HandOutMore(g: Parts, frames: seq<Frame>, threads: nat, starts: seq<nat>, plans: seq<Option<Plan>>, first: nat,
                    count: nat, plan: Option<Plan>)
    requires HandedOut(g, frames, threads, starts, plans, first) && |plans| < threads
    requires count == Share(|frames| - first, threads - |plans|)
    ensures first + count <= |frames|
    ensures plan == Chunk(g, frames[first..first + count]) ==>
      HandedOut(g, frames, threads, starts + [first + count], plans + [plan], first + count)
  {
    FairShare(|frames| - first, threads - |plans|);
    if plan == Chunk(g, frames[first..first + count]) {
      WorkedMore(g, frames, starts, plans, first + count, plan);
    }
  }

  /** Worker after worker; they share nothing, so any interleaving gives these results. */
  method RunWorkers(t: Tables, frames: seq<Frame>, payload: seq<Byte>, elementBytes: ElementBytes, threads: nat,
                    ghost f: Parser, ghost x: PforPlan.Tally, ghost g: Parts)
    returns (plans: seq<Option<Plan>>, ghost starts: seq<nat>)
    requires Sound(f) && PforPlan.PlannerFor(f, x, 1) && g == FramePlanner(t, f, payload, elementBytes)
      && ClosedParts(g)
    requires 0 < threads <= |frames|
    ensures |plans| == threads && AllWorked(g, frames, starts, plans) && starts[threads] == |frames|
  {
    var first: nat := 0;
    plans, starts := [], [0];
    while |plans| < threads
      invariant |plans| <= threads && first <= |frames| && HandedOut(g, frames, threads, starts, plans, first)
    {
      hide HandedOut, AllWorked, Chunk, ClosedParts, Sound, FramePlanner, Share;
      var count := Share(|frames| - first, threads - |plans|);
      HandOutMore(g, frames, threads, starts, plans, first, count, None);
      var plan := BuildChunk(t, frames[first..first + count], payload, elementBytes, f, x, g);
      HandOutMore(g, frames, threads, starts, plans, first, count, plan);
      plans, starts, first := plans + [plan], starts + [first + count], first + count;
    }
  }

  /** Every worker has a plan, and together they cover the frames. */
  ghost predicate AllPlanned(g: Parts, frames: seq<Frame>, starts: seq<nat>, plans: seq<Plan>) {
    && |starts| == |plans| + 1 && starts[0] == 0 && starts[|plans|] == |frames|
    && forall i :: 0 <= i < |plans| ==> Worked(g, frames, starts, i, Some(plans[i]))
  }

  /** A failed worker means the one-shot build fails too. */
  method Collect(frames: seq<Frame>, results: seq<Option<Plan>>, ghost g: Parts, ghost starts: seq<nat>)
    returns (plans: Option<seq<Plan>>)
    requires AllWorked(g, frames, starts, results) && starts[|results|] == |frames|
    ensures plans.None? ==> Result(g, frames).None?
    ensures plans.Some? ==> |plans.value| == |results| && AllPlanned(g, frames, starts, plans.value)
  {
    var good: seq<Plan> := [];
    while |good| < |results|
      invariant |good| <= |results|
      invariant forall i :: 0 <= i < |good| ==> results[i] == Some(good[i])
    {
      if results[|good|].None? {
        assert Worked(g, frames, starts, |good|, None);
        hide Result, Batch;
        if Result(g, frames).Some? {
          ResultRange(g, frames, starts[|good|], starts[|good| + 1]);
        }
        return None;
      }
      good := good + [results[|good|].value];
    }
    hide Worked;
    assert forall i :: 0 <= i < |good| ==> Worked(g, frames, starts, i, results[i]);
    plans := Some(good);
  }

  // ---------------------------------------------------------------------------
  // Totals

  datatype Totals = Totals(symbols: nat, trees: nat, nodes: nat, bitmaps: nat, blocks: nat, laneBlocks: nat,
                           joins: nat, laneBytes: nat, pivcoLanes: nat, pforLanes: nat)

  function TotalsOf(p: Plan): Totals {
    Totals(|p.symbols|, |p.trees|, |p.nodes|, p.bitmaps, |p.blocks|, |p.laneBlocks|, |p.joins|, p.laneBytes,
      p.pivcoLanes, p.pforLanes)
  }

  function Sum(a: Totals, b: Totals): Totals {
    Totals(a.symbols + b.symbols, a.trees + b.trees, a.nodes + b.nodes, a.bitmaps + b.bitmaps, a.blocks + b.blocks,
           a.laneBlocks + b.laneBlocks, a.joins + b.joins, a.laneBytes + b.laneBytes, a.pivcoLanes + b.pivcoLanes,
             a.pforLanes + b.pforLanes)
  }

  predicate Below(a: Totals, limit: nat) {
    && a.symbols <= limit && a.trees <= limit && a.nodes <= limit && a.bitmaps <= limit && a.blocks <= limit
    && a.laneBlocks <= limit && a.joins <= limit && a.laneBytes <= limit && a.pivcoLanes <= limit
      && a.pforLanes <= limit
  }

  const BLOCK_BYTES: nat := 24
  const LANE_BLOCK_BYTES: nat := 8
  const JOIN_BYTES: nat := 24

  /** The merged arrays can be counted, addressed with 32 bits and allocated. */
  predicate Mergeable(a: Totals) {
    && Below(a, SIZE_MAX)
    && a.symbols <= UINT32_MAX && a.trees <= UINT32_MAX && a.nodes <= UINT32_MAX && a.laneBytes <= LANE_LIMIT
    && a.laneBlocks + 4 <= SIZE_MAX / LANE_BLOCK_BYTES && a.blocks <= SIZE_MAX / BLOCK_BYTES
      && a.joins <= SIZE_MAX / JOIN_BYTES
  }

  lemma JoinTotals(a: Plan, b: Plan)
    ensures TotalsOf(Join(a, b)) == Sum(TotalsOf(a), TotalsOf(b))
  {
  }

  /** What the threaded build returns: what the one-shot build returns, unless the
      merged arrays are too big. */
  ghost function Merged(g: Parts, frames: seq<Frame>): Option<Plan> {
    if Result(g, frames).None? || !Mergeable(TotalsOf(Batch(g, frames).value)) then None else Result(g, frames)
  }

  lemma MergeStep(g: Parts, frames: seq<Frame>, lo: nat, hi: nat, plan: Plan)
    requires lo < hi <= |frames| && Batch(g, frames[..lo]).Some? && Chunk(g, frames[lo..hi]) == Some(plan)
    ensures Batch(g, frames[..hi]) == Some(Join(Batch(g, frames[..lo]).value, plan))
  {
    hide Batch;
    BatchCut(g, frames, lo, hi);
  }

  /** The plans of the first n frames add up to total. */
  ghost predicate TotalsAt(g: Parts, frames: seq<Frame>, n: nat, total: Totals) {
    n <= |frames| && Batch(g, frames[..n]).Some? && TotalsOf(Batch(g, frames[..n]).value) == total
  }

  lemma TotalsStep(g: Parts, frames: seq<Frame>, lo: nat, hi: nat, total: Totals, plan: Plan)
    requires TotalsAt(g, frames, lo, total) && lo < hi <= |frames| && Chunk(g, frames[lo..hi]) == Some(plan)
    ensures TotalsAt(g, frames, hi, Sum(total, TotalsOf(plan)))
  {
    MergeStep(g, frames, lo, hi, plan);
    JoinTotals(Batch(g, frames[..lo]).value, plan);
  }

  /** Totals only grow. */
  lemma TooBig(g: Parts, frames: seq<Frame>, n: nat, total: Totals)
    requires TotalsAt(g, frames, n, total) && !Below(total, SIZE_MAX)
    ensures Merged(g, frames).None?
  {
    if Result(g, frames).Some? {
      hide Batch;
      BatchCut(g, frames, 0, n);
      assert frames[..n] == frames[0..n];
      JoinTotals(Batch(g, frames[..n]).value, Batch(g, frames[n..]).value);
    }
  }

  /** The first loop of merge_plans. */
  method AddTotals(frames: seq<Frame>, workers: seq<Plan>, ghost g: Parts, ghost starts: seq<nat>)
    returns (ok: bool, total: Totals)
    requires AllPlanned(g, frames, starts, workers)
    ensures !ok ==> Merged(g, frames).None?
    ensures ok ==> TotalsAt(g, frames, |frames|, total) && Below(total, SIZE_MAX)
  {
    ok, total := true, TotalsOf(EMPTY);
    var i: nat := 0;
    while i < |workers|
      invariant i <= |workers| && starts[i] <= |frames|
      invariant TotalsAt(g, frames, starts[i], total) && Below(total, SIZE_MAX)
    {
      hide TotalsAt, Below, TotalsOf, Sum, Chunk, Batch;
      assert Worked(g, frames, starts, i, Some(workers[i]));
      TotalsStep(g, frames, starts[i], starts[i + 1], total, workers[i]);
      total := Sum(total, TotalsOf(workers[i]));
      if !Below(total, SIZE_MAX) {
        TooBig(g, frames, starts[i + 1], total);
        return false, total;
      }
      i := i + 1;
    }
  }

  // ---------------------------------------------------------------------------
  // Relocation, entry by entry

  /** add_u32 */
  method AddU32(value: nat, offset: nat) returns (ok: bool, sum: nat)
    ensures ok <==> value + offset <= UINT32_MAX
    ensures ok ==> sum == value + offset
  {
    if value > UINT32_MAX || offset > UINT32_MAX - value {
      return false, value;
    }
    return true, value + offset;
  }

  method RelocateNodes(src: seq<NodeBits>, lane: nat) returns (ok: bool, moved: seq<NodeBits>)
    ensures ok <==> forall i :: 0 <= i < |src| ==> src[i].output + lane <= UINT32_MAX
    ensures ok ==> moved == MovedAll(src, lane)
  {
    moved := [];
    while |moved| < |src|
      invariant |moved| <= |src| && moved == MovedAll(src[..|moved|], lane)
      invariant forall i :: 0 <= i < |moved| ==> src[i].output + lane <= UINT32_MAX
    {
      var output;
      ok, output := AddU32(src[|moved|].output, lane);
      if !ok {
        return;
      }
      moved := moved + [src[|moved|].(output := output)];
    }
    ok := true;
    assert src[..|src|] == src;
  }

  method RelocateBlocks(src: seq<PivcoBlock>, at: Bases) returns (ok: bool, moved: seq<PivcoBlock>)
    ensures ok <==> forall i :: 0 <= i < |src| ==> Fits32(MovedBlock(src[i], at))
    ensures ok ==> moved == MovedBlocks(src, at)
  {
    moved := [];
    while |moved| < |src|
      invariant |moved| <= |src| && moved == MovedBlocks(src[..|moved|], at)
      invariant forall i :: 0 <= i < |moved| ==> Fits32(MovedBlock(src[i], at))
    {
      var b := src[|moved|];
      var ok1, nodeBase := AddU32(b.nodeBase, at.nodes);
      var ok2, treeBase := AddU32(b.treeBase, at.trees);
      var ok3, symbolBase := AddU32(b.symbolBase, at.symbols);
      var ok4, outBase := AddU32(b.outBase, at.lane);
      if !(ok1 && ok2 && ok3 && ok4) {
        assert !Fits32(MovedBlock(src[|moved|], at));
        return false, moved;
      }
      moved := moved + [b.(nodeBase := nodeBase, treeBase := treeBase, symbolBase := symbolBase, outBase := outBase)];
    }
    ok := true;
    assert src[..|src|] == src;
  }

  predicate Fits32(b: PivcoBlock) {
    b.nodeBase <= UINT32_MAX && b.treeBase <= UINT32_MAX && b.symbolBase <= UINT32_MAX && b.outBase <= UINT32_MAX
  }

  method RelocateLanes(src: seq<LaneBlock>, at: Bases) returns (ok: bool, moved: seq<LaneBlock>)
    ensures ok <==> forall i :: 0 <= i < |src| ==> src[i].outputBase + at.lane <= UINT32_MAX
    ensures ok ==> moved == MovedLanes(src, at)
  {
    moved := [];
    while |moved| < |src|
      invariant |moved| <= |src| && moved == MovedLanes(src[..|moved|], at)
      invariant forall i :: 0 <= i < |moved| ==> src[i].outputBase + at.lane <= UINT32_MAX
    {
      var outputBase;
      ok, outputBase := AddU32(src[|moved|].outputBase, at.lane);
      if !ok {
        return;
      }
      moved := moved + [src[|moved|].(outputBase := outputBase)];
    }
    ok := true;
    assert src[..|src|] == src;
  }

  method RelocateJoins(src: seq<JoinTask>, at: Bases) returns (ok: bool, moved: seq<JoinTask>)
    ensures ok <==> forall i :: 0 <= i < |src| ==> src[i].laneBase + at.lane <= UINT32_MAX
    ensures ok ==> moved == MovedJoins(src, at)
  {
    moved := [];
    while |moved| < |src|
      invariant |moved| <= |src| && moved == MovedJoins(src[..|moved|], at)
      invariant forall i :: 0 <= i < |moved| ==> src[i].laneBase + at.lane <= UINT32_MAX
    {
      var laneBase;
      ok, laneBase := AddU32(src[|moved|].laneBase, at.lane);
      if !ok {
        return;
      }
      moved := moved + [src[|moved|].(laneBase := laneBase)];
    }
    ok := true;
    assert src[..|src|] == src;
  }

  /** One turn of the copying loop of merge_plans. */
  method Relocate(plan: Plan, src: Plan) returns (ok: bool, merged: Plan)
    requires Closed(src) && Mergeable(Sum(TotalsOf(plan), TotalsOf(src)))
    ensures ok && merged == Join(plan, src)
  {
    var at := EndOf(plan);
    var ok1, nodes := RelocateNodes(src.nodes, at.lane);
    var ok2, blocks := RelocateBlocks(src.blocks, at);
    var ok3, laneBlocks := RelocateLanes(src.laneBlocks, at);
    var ok4, joins := RelocateJoins(src.joins, at);
    ok := ok1 && ok2 && ok3 && ok4;
    RoomFor(plan, src);
    merged := Plan(plan.symbols + src.symbols, plan.trees + src.trees, plan.nodes + nodes, plan.blocks + blocks,
                   plan.laneBlocks + laneBlocks, plan.joins + joins, plan.bitmaps + src.bitmaps,
                     plan.laneBytes + src.laneBytes,
                   plan.pivcoLanes + src.pivcoLanes, plan.pforLanes + src.pforLanes);
  }

  /** Nothing a closed plan refers to overflows where the merged totals do not. */
  lemma RoomFor(plan: Plan, src: Plan)
    requires Closed(src) && Mergeable(Sum(TotalsOf(plan), TotalsOf(src)))
    ensures forall i :: 0 <= i < |src.nodes| ==> src.nodes[i].output + plan.laneBytes <= UINT32_MAX
    ensures forall i :: 0 <= i < |src.blocks| ==> Fits32(MovedBlock(src.blocks[i], EndOf(plan)))
    ensures forall i :: 0 <= i < |src.laneBlocks| ==> src.laneBlocks[i].outputBase + plan.laneBytes <= UINT32_MAX
    ensures forall i :: 0 <= i < |src.joins| ==> src.joins[i].laneBase + plan.laneBytes <= UINT32_MAX
  {
    hide NodesSane, ReadsBlock;
    var from :| ClosedTo(src, from, src.laneBytes);
    forall i | 0 <= i < |src.joins| ensures src.joins[i].laneBase <= src.laneBytes {
      assert JoinInside(src.joins[i], from.elementBytes, src.laneBytes);
      JoinBase(src.joins[i], from.elementBytes, src.laneBytes);
    }
    forall i | 0 <= i < |src.blocks| ensures Fits32(MovedBlock(src.blocks[i], EndOf(plan))) {
      assert BlockSane(src.blocks[i], |src.symbols|, src.trees, src.nodes, |from.payload|, src.laneBytes);
      assert BlockInside(src.blocks[i], |src.symbols|, |src.trees|, |src.nodes|, src.laneBytes);
    }
  }

  lemma JoinBase(j: JoinTask, elementBytes: nat, end: nat)
    requires JoinInside(j, elementBytes, end)
    ensures j.laneBase <= end
  {
  }

  lemma PrefixMergeable(g: Parts, frames: seq<Frame>, n: nat)
    requires n <= |frames| && Batch(g, frames).Some? && Batch(g, frames[..n]).Some?
      && Mergeable(TotalsOf(Batch(g, frames).value))
    ensures Mergeable(TotalsOf(Batch(g, frames[..n]).value))
  {
    hide Batch;
    BatchCut(g, frames, 0, n);
    assert frames[..n] == frames[0..n];
    JoinTotals(Batch(g, frames[..n]).value, Batch(g, frames[n..]).value);
  }

  /** The copying loop of merge_plans. */
  method RelocateAll(frames: seq<Frame>, workers: seq<Plan>, ghost g: Parts, ghost starts: seq<nat>)
    returns (ok: bool, plan: Plan)
    requires ClosedParts(g) && AllPlanned(g, frames, starts, workers)
    requires Batch(g, frames).Some? && Mergeable(TotalsOf(Batch(g, frames).value))
    ensures ok && Batch(g, frames) == Some(plan)
  {
    plan, ok := EMPTY, true;
    var i: nat := 0;
    while i < |workers|
      invariant ok && i <= |workers| && starts[i] <= |frames| && Batch(g, frames[..starts[i]]) == Some(plan)
    {
      hide Batch, Chunk, Mergeable, Closed, Join, TotalsOf, Sum, ClosedParts;
      assert Worked(g, frames, starts, i, Some(workers[i]));
      WorkerClosed(g, frames[starts[i]..starts[i + 1]], workers[i]);
      MergeStep(g, frames, starts[i], starts[i + 1], workers[i]);
      PrefixMergeable(g, frames, starts[i + 1]);
      JoinTotals(plan, workers[i]);
      ok, plan := Relocate(plan, workers[i]);
      i := i + 1;
    }
    assert frames[..|frames|] == frames;
  }

  lemma WorkerClosed(g: Parts, frames: seq<Frame>, plan: Plan)
    requires ClosedParts(g) && Chunk(g, frames) == Some(plan)
    ensures Closed(plan)
  {
    hide Batch;
    BatchClosed(g, frames);
  }

  /** A batch whose totals are mergeable fits in 32 bits. */
  lemma MergeableFits(p: Plan)
    requires Closed(p) && Mergeable(TotalsOf(p))
    ensures Fits(p)
  {
    hide NodesSane, ReadsBlock;
    var from :| ClosedTo(p, from, p.laneBytes);
    forall i | 0 <= i < |p.blocks| ensures BlockFits(p.blocks[i]) {
      assert BlockSane(p.blocks[i], |p.symbols|, p.trees, p.nodes, |from.payload|, p.laneBytes);
      assert BlockInside(p.blocks[i], |p.symbols|, |p.trees|, |p.nodes|, p.laneBytes);
    }
  }

  method MergePlans(frames: seq<Frame>, workers: seq<Plan>, ghost g: Parts, ghost starts: seq<nat>)
    returns (merged: Option<Plan>)
    requires ClosedParts(g) && |frames| > 0 && AllPlanned(g, frames, starts, workers)
    ensures merged == Merged(g, frames)
  {
    var ok, total := AddTotals(frames, workers, g, starts);
    if !ok {
      return None;
    }
    assert frames[..|frames|] == frames;
    if !Mergeable(total) {
      return None;
    }
    BatchClosed(g, frames);
    MergeableFits(Batch(g, frames).value);
    hide Batch, AllPlanned, ClosedParts;
    var planner := new Planner();
    ok, planner.plan := RelocateAll(frames, workers, g, starts);
    PadLaneBlocks(planner);
    merged := Some(planner.plan);
  }

  // The merged arrays of a whole plan stay within the sizes the merge checks.
  ghost predicate MergeFits(plan: Option<Plan>) {
    plan.Some? && Mergeable(TotalsOf(Unpadded(plan.value)))
  }

  /** pivco_gpu_plan_build_parallel: the plan of the one-shot build, whatever the number
      of threads, exactly when the merged arrays are not too big, and else none. */
  method BuildParallel(t: Tables, frames: seq<Frame>, payload: seq<Byte>, elementBytes: nat, threadCount: nat)
    returns (plan: Option<Plan>)
    ensures var whole := BatchPlan(t, frames, payload, elementBytes);
      plan == if MergeFits(whole) then whole else None
  {
    hide AllWorked, AllPlanned, FramePlanner, Result, ClosedParts, Merged, MergeFits;
    if |frames| == 0 || (elementBytes != 1 && elementBytes != 2) {
      NothingToPlan(t, frames, payload, elementBytes);
      return None;
    }
    var threads := if threadCount > |frames| then |frames| else if threadCount == 0 then 1 else threadCount;
    ghost var f, x := PforFormat.BlockParser(1), PforPlan.ExceptionTally();
    ghost var g := FramePlanner(t, f, payload, elementBytes);
    FramesClosed(t, f, payload, elementBytes);
    MergedUnpadded(g, frames);
    var results, starts := RunWorkers(t, frames, payload, elementBytes, threads, f, x, g);
    var plans := Collect(frames, results, g, starts);
    if plans.None? {
      NothingFits();
      return None;
    }
    plan := MergePlans(frames, plans.value, g, starts);
  }

  lemma NothingFits()
    ensures !MergeFits(None)
  {
  }

  // Every part is the plan of its own frame.
  ghost predicate PartsPlanned(t: Tables, frames: seq<Frame>, parts: seq<Plan>, payload: seq<Byte>, elementBytes: nat) {
    |parts| == |frames| && forall i :: 0 <= i < |frames| ==>
      BatchPlan(t, frames[i..i + 1], payload, elementBytes) == Some(parts[i])
  }

  /** pivco_gpu_plan_merge: plans made frame by frame while the frames were captured
      merge to the plan of the one-shot build, on the same condition. */
  method MergeParts(t: Tables, frames: seq<Frame>, parts: seq<Plan>, payload: seq<Byte>, elementBytes: nat)
    returns (plan: Option<Plan>)
    requires 0 < |frames| && PartsPlanned(t, frames, parts, payload, elementBytes)
    ensures var whole := BatchPlan(t, frames, payload, elementBytes);
      plan == if MergeFits(whole) then whole else None
  {
    hide AllPlanned, FramePlanner, Result, ClosedParts, Merged, MergeFits, Worked, Trim, PartsPlanned, OnePlanned,
      BatchPlan;
    PartsAre(t, frames, parts, payload, elementBytes);
    ghost var f := PforFormat.BlockParser(1);
    ghost var g := FramePlanner(t, f, payload, elementBytes);
    FramesClosed(t, f, payload, elementBytes);
    MergedUnpadded(g, frames);
    var workers: seq<Plan> := [];
    var i: nat := 0;
    while i < |parts|
      invariant i <= |parts| && |workers| == i
      invariant forall k: nat :: k < i ==> OnePlanned(g, frames, k, workers[k])
    {
      var trimmed := TrimLanePadding(parts[i]);
      OneTrimmed(g, frames, i, parts[i]);
      workers := workers + [trimmed];
      i := i + 1;
    }
    ghost var starts := seq(|frames| + 1, k => k);
    EachPlanned(g, frames, starts, workers);
    plan := MergePlans(frames, workers, g, starts);
  }

  lemma PartsAre(t: Tables, frames: seq<Frame>, parts: seq<Plan>, payload: seq<Byte>, elementBytes: nat)
    requires 0 < |frames| && PartsPlanned(t, frames, parts, payload, elementBytes)
    ensures |parts| == |frames| && (elementBytes == 1 || elementBytes == 2)
    ensures var g := FramePlanner(t, PforFormat.BlockParser(1), payload, elementBytes);
      && BatchPlan(t, frames, payload, elementBytes) == Result(g, frames)
      && forall i: nat :: i < |frames| ==> Result(g, frames[i..i + 1]) == Some(parts[i])
  {
    hide Result, FramePlanner;
    assert BatchPlan(t, frames[0..1], payload, elementBytes) == Some(parts[0]);
  }

  ghost predicate OnePlanned(g: Parts, frames: seq<Frame>, k: nat, plan: Plan)
    requires k < |frames|
  {
    Chunk(g, frames[k..k + 1]) == Some(plan)
  }

  lemma OneTrimmed(g: Parts, frames: seq<Frame>, k: nat, part: Plan)
    requires ClosedParts(g) && k < |frames| && Result(g, frames[k..k + 1]) == Some(part)
    ensures OnePlanned(g, frames, k, part.(laneBlocks := Trim(part.laneBlocks, part.laneBytes)))
  {
    BatchClosed(g, frames[k..k + 1]);
    hide Batch, Closed, Trim;
    TrimPadded(Batch(g, frames[k..k + 1]).value);
    PadKeeps(Batch(g, frames[k..k + 1]).value);
  }

  lemma EachPlanned(g: Parts, frames: seq<Frame>, starts: seq<nat>, workers: seq<Plan>)
    requires starts == seq(|frames| + 1, k => k) && |workers| == |frames|
    requires forall k: nat :: k < |frames| ==> OnePlanned(g, frames, k, workers[k])
    ensures AllPlanned(g, frames, starts, workers)
  {
    hide Chunk;
    forall k | 0 <= k < |workers|
      ensures Worked(g, frames, starts, k, Some(workers[k]))
    {
      assert OnePlanned(g, frames, k, workers[k]);
      assert starts[k] == k && starts[k + 1] == k + 1;
    }
  }

  lemma NothingToPlan(t: Tables, frames: seq<Frame>, payload: seq<Byte>, elementBytes: nat)
    requires |frames| == 0 || (elementBytes != 1 && elementBytes != 2)
    ensures BatchPlan(t, frames, payload, elementBytes).None?
  {
  }

  /** A padded plan without its padding. */
  function Unpadded(p: Plan): Plan { p.(laneBlocks := Trim(p.laneBlocks, p.laneBytes)) }

  lemma MergedUnpadded(g: Parts, frames: seq<Frame>)
    requires ClosedParts(g)
    ensures Merged(g, frames) == if MergeFits(Result(g, frames)) then Result(g, frames) else None
  {
    if Result(g, frames).Some? {
      BatchClosed(g, frames);
      TrimPadded(Batch(g, frames).value);
    }
  }
}
