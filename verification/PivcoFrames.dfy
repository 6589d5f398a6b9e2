/** Captured PivCo frames: the header checks, the join tasks and the loop over lanes. */
module PivcoFrames {
  import opened Common
  import opened Words
  import opened Streams
  import opened PivcoParts
  import opened PivcoLanes
  import PforPlan

  const MAX_BLOCK_SIZE: nat := 0x1000_0000
  const MIN_BLOCK: nat := 1024
  const HEADER_BYTES: nat := 77
  const PLAIN_FIXED: nat := 13
  const PLANAR_FIXED: nat := 21
  const LANE_HEADER: nat := 7
  const LANE_PIVCO: nat := 0
  const LANE_PFOR: nat := 1

  type HeaderBytes = h: seq<Byte> | |h| == HEADER_BYTES witness seq(HEADER_BYTES, i => ZERO_BYTE)

  datatype Captured = Captured(header: HeaderBytes, headerSize: nat, kind: nat, weights: seq<Byte>, bitsOffset: nat,
                               bitsSize: nat)

  datatype FrameShape = FrameShape(outOff: nat, nbElts: nat, width: nat, planes: nat)

  datatype Frame = Frame(captured: Captured, shape: FrameShape)

  /** The decoder's tree for the weights of a lane, or None for weights it refuses. */
  type Tables = seq<Byte> -> Option<LaneTree>

  function LoadLe(b: seq<Byte>, at: nat, n: nat): nat
    requires at + n <= |b|
    decreases n
  {
    if n == 0 then 0 else FromByte(b[at]) + 256 * LoadLe(b, at + 1, n - 1)
  }

  // ---------------------------------------------------------------------------
  // The header

  function Count(c: Captured): nat { LoadLe(c.header, 0, 8) }

  predicate Planar(c: Captured) { c.kind == 2 }

  function Fixed(c: Captured): nat { if Planar(c) then PLANAR_FIXED else PLAIN_FIXED }

  function BlockSize(c: Captured): nat { LoadLe(c.header, if Planar(c) then 17 else 9, 4) }

  function Stride(count: nat): nat { (count + 255) / 256 * 256 }

  predicate FrameOk(frame: Frame, payloadBytes: nat, elementBytes: nat) {
    var c, shape := frame.captured, frame.shape;
    && Count(c) != 0
    && (c.kind == 1 || c.kind == 2)
    && c.headerSize == Fixed(c) + elementBytes * LANE_HEADER && FromByte(c.header[8]) == elementBytes
    && Count(c) == shape.nbElts
    && (Planar(c) ==> LoadLe(c.header, 9, 4) == shape.width && LoadLe(c.header, 13, 4) == shape.planes)
    && 0 < BlockSize(c) <= MAX_BLOCK_SIZE && !(BlockSize(c) < MIN_BLOCK && BlockSize(c) < Count(c))
    && c.bitsOffset + c.bitsSize <= payloadBytes
    && Count(c) <= SIZE_MAX - 255 && Stride(Count(c)) <= UINT32_MAX && Count(c) <= UINT32_MAX
      && shape.outOff <= UINT32_MAX
  }

  // ---------------------------------------------------------------------------
  // The lanes of a frame

  type ElementBytes = e: nat | e == 1 || e == 2 witness 1

  datatype LaneHeader = LaneHeader(mode: nat, weightsSize: nat, bitsSize: nat)

  /** What the header says about the lanes. */
  datatype Layout = Layout(lanes: seq<LaneHeader>, weights: seq<Byte>, bitsAt: nat, bitsEnd: nat, nb: nat,
                           blockSize: nat, stride: nat)

  function LaneOf(c: Captured, lane: nat): LaneHeader
    requires lane < 2
  {
    var at := Fixed(c) + lane * LANE_HEADER;
    LaneHeader(FromByte(c.header[at]), LoadLe(c.header, at + 1, 2), LoadLe(c.header, at + 3, 4))
  }

  function LayoutOf(c: Captured, elementBytes: ElementBytes): (l: Layout)
    ensures |l.lanes| == elementBytes
  {
    Layout(seq(elementBytes, i requires 0 <= i < elementBytes => LaneOf(c, i)), c.weights, c.bitsOffset,
      c.bitsOffset + c.bitsSize, Count(c), BlockSize(c), Stride(Count(c)))
  }

  ghost predicate LayoutOk(l: Layout, payload: seq<Byte>) {
    |l.lanes| <= 2 && l.bitsEnd <= |payload| && l.blockSize > 0 && l.nb <= l.stride
  }

  /** lane * stride */
  function LaneStart(lane: nat, stride: nat): nat {
    if lane == 0 then 0 else LaneStart(lane - 1, stride) + stride
  }

  ghost function LanePart(t: Tables, f: Parser, l: Layout, payload: seq<Byte>, lane: nat, weightsAt: nat,
                          bitsAt: nat): (p: Option<Plan>)
    requires Sound(f) && LayoutOk(l, payload) && lane < |l.lanes|
    ensures p.Some? ==> p.value.laneBytes == 0
  {
    var h, out := l.lanes[lane], LaneStart(lane, l.stride);
    if bitsAt + h.bitsSize > l.bitsEnd || weightsAt + h.weightsSize > |l.weights| then None
    else if h.mode == LANE_PFOR then
      if h.weightsSize != 0 then None else PforLane(f, payload[bitsAt..bitsAt + h.bitsSize], l.nb, bitsAt, out)
    else if h.mode == LANE_PIVCO then
      if h.weightsSize == 0 || t(l.weights[weightsAt..weightsAt + h.weightsSize]).None? then None
      else TreeLane(t(l.weights[weightsAt..weightsAt + h.weightsSize]).value, payload[bitsAt..bitsAt + h.bitsSize],
        l.nb, l.blockSize, bitsAt, out)
    else None
  }

  function JoinMaybe(a: Option<Plan>, b: Option<Plan>): Option<Plan> {
    if a.None? || b.None? then None else Some(Join(a.value, b.value))
  }

  /** What a lane adds, by its number and where its weights and bits start. */
  type LaneParts = (nat, nat, nat) -> Option<Plan>

  ghost predicate NoBytes(part: LaneParts) {
    forall i, weightsAt, bitsAt :: part(i, weightsAt, bitsAt).Some? ==> part(i, weightsAt, bitsAt).value.laneBytes == 0
  }

  ghost function PartsOf(t: Tables, f: Parser, l: Layout, payload: seq<Byte>): (part: LaneParts)
    requires Sound(f) && LayoutOk(l, payload)
    ensures NoBytes(part)
  {
    (i: nat, weightsAt: nat, bitsAt: nat) => if i < |l.lanes| then LanePart(t, f, l, payload, i, weightsAt, bitsAt)
      else None
  }

  /** The lanes from lane on; together they use up the weights and the bits. */
  ghost function Lanes(part: LaneParts, l: Layout, lane: nat, weightsAt: nat, bitsAt: nat): (p: Option<Plan>)
    requires NoBytes(part) && lane <= |l.lanes|
    ensures p.Some? ==> p.value.laneBytes == 0
    decreases |l.lanes| - lane
  {
    if lane == |l.lanes| then
      if weightsAt == |l.weights| && bitsAt == l.bitsEnd then Some(EMPTY) else None
    else
      JoinMaybe(part(lane, weightsAt, bitsAt),
        Lanes(part, l, lane + 1, weightsAt + l.lanes[lane].weightsSize, bitsAt + l.lanes[lane].bitsSize))
  }

  function Joins(frame: Frame, n: nat): (j: seq<JoinTask>)
    ensures |j| == n
  {
    var count := Count(frame.captured);
    seq(n, i requires 0 <= i < n =>
      JoinTask(0, Stride(count), count, frame.shape.outOff, 1024 * i, if Planar(frame.captured) then 1 else 0))
  }

  function Groups(count: nat): nat { (count + 1023) / 1024 }

  /** The plan of one frame, relative to its own start. */
  ghost function FramePart(t: Tables, f: Parser, frame: Frame, payload: seq<Byte>,
                           elementBytes: ElementBytes): Option<Plan>
    requires Sound(f)
  {
    if !FrameOk(frame, |payload|, elementBytes) then None
    else
      var l := LayoutOf(frame.captured, elementBytes);
      Assemble(Joins(frame, Groups(l.nb)), Lanes(PartsOf(t, f, l, payload), l, 0, 0, l.bitsAt),
        LaneStart(elementBytes, l.stride))
  }

  /** Join tasks, then lanes, in a run of lane bytes of its own. */
  function Assemble(joins: seq<JoinTask>, lanes: Option<Plan>, bytes: nat): Option<Plan> {
    if lanes.None? then None else Some(Join(EMPTY.(joins := joins), lanes.value).(laneBytes := bytes))
  }

  // ---------------------------------------------------------------------------
  // Planning one frame

  const LANE_LIMIT: nat := UINT32_MAX - 256

  /** A plan whose fields fit in 32 bits. */
  ghost predicate Fits(p: Plan) {
    p.laneBytes <= LANE_LIMIT && BlocksFit(p)
  }

  /** What adding a frame does. */
  ghost predicate FrameAddedTo(before: Plan, part: Option<Plan>, ok: bool, after: Plan) {
    && (ok <==> part.Some? && Fits(Join(before, part.value)))
    && (ok ==> after == Join(before, part.value))
  }

  /** What is left leads from plan to where whole leads from start. */
  ghost predicate Leads(start: Plan, whole: Option<Plan>, plan: Plan, rest: Option<Plan>) {
    JoinMaybe(Some(start), whole) == JoinMaybe(Some(plan), rest)
  }

  lemma LeadsStep(start: Plan, whole: Option<Plan>, plan: Plan, part: Option<Plan>, rest: Option<Plan>)
    requires Leads(start, whole, plan, JoinMaybe(part, rest))
    ensures part.Some? ==> Leads(start, whole, Join(plan, part.value), rest)
    ensures part.None? ==> whole.None?
  {
    if part.Some? && rest.Some? {
      JoinAssoc(plan, part.value, rest.value);
    }
  }

  /** A block that does not fit now means the frame does not fit. */
  lemma LeadsOverfull(start: Plan, whole: Option<Plan>, plan: Plan, rest: Option<Plan>)
    requires Leads(start, whole, plan, rest) && !BlocksFit(plan)
    ensures whole.None? || !BlocksFit(Join(start, whole.value))
  {
    hide Join, BlocksFit;
    if rest.Some? && BlocksFit(Join(plan, rest.value)) {
      BlocksFitPrefix(plan, rest.value);
    }
  }

  /** The loop over lanes, lane lanes done. */
  ghost predicate LanesAt(fits: bool, start: Plan, whole: Option<Plan>, plan: Plan, part: LaneParts, l: Layout,
                          lane: nat, weightsAt: nat, bitsAt: nat)
    requires NoBytes(part) && lane <= |l.lanes|
  {
    && Ready(fits, plan) && plan.laneBytes == start.laneBytes
    && (fits ==> Leads(start, whole, plan, Lanes(part, l, lane, weightsAt, bitsAt)))
  }

  ghost predicate LanesDone(fits: bool, start: Plan, whole: Option<Plan>, ok: bool, plan: Plan) {
    && (ok ==> plan.bitmaps <= |plan.nodes| && plan.laneBytes == start.laneBytes)
    && (fits ==> (ok <==> whole.Some? && BlocksFit(Join(start, whole.value))))
    && (fits && ok ==> plan == Join(start, whole.value))
  }

  lemma PartTurn(fits: bool, start: Plan, whole: Option<Plan>, plan: Plan, part: Option<Plan>, rest: Option<Plan>,
                 ok: bool, plan': Plan)
    requires fits ==> Leads(start, whole, plan, JoinMaybe(part, rest))
    requires plan.laneBytes == start.laneBytes && PartAddedTo(fits, plan, part, ok, plan')
    ensures !ok ==> LanesDone(fits, start, whole, false, plan')
    ensures plan'.laneBytes == start.laneBytes && (ok ==> Ready(fits, plan'))
    ensures ok && fits ==> Leads(start, whole, plan', rest)
  {
    if fits {
      LeadsStep(start, whole, plan, part, rest);
      hide BlocksFit, Join, Leads, JoinMaybe;
      if !ok && part.Some? {
        LeadsOverfull(start, whole, Join(plan, part.value), rest);
      }
    }
  }

  lemma LanesTurn(fits: bool, start: Plan, whole: Option<Plan>, plan: Plan, part: LaneParts, l: Layout, lane: nat,
                  weightsAt: nat, bitsAt: nat, ok: bool, plan': Plan)
    requires NoBytes(part) && lane < |l.lanes|
    requires LanesAt(fits, start, whole, plan, part, l, lane, weightsAt, bitsAt)
    requires PartAddedTo(fits, plan, part(lane, weightsAt, bitsAt), ok, plan')
    ensures !ok ==> LanesDone(fits, start, whole, false, plan')
    ensures ok ==>
      LanesAt(fits, start, whole, plan', part, l, lane + 1, weightsAt + l.lanes[lane].weightsSize,
        bitsAt + l.lanes[lane].bitsSize)
  {
    hide PartAddedTo, Leads, JoinMaybe, NoBytes;
    PartTurn(fits, start, whole, plan, part(lane, weightsAt, bitsAt),
             Lanes(part, l, lane + 1, weightsAt + l.lanes[lane].weightsSize, bitsAt + l.lanes[lane].bitsSize), ok,
               plan');
  }

  lemma LanesEnd(fits: bool, start: Plan, whole: Option<Plan>, plan: Plan, part: LaneParts, l: Layout, weightsAt: nat,
                 bitsAt: nat)
    requires NoBytes(part) && LanesAt(fits, start, whole, plan, part, l, |l.lanes|, weightsAt, bitsAt)
    ensures LanesDone(fits, start, whole, weightsAt == |l.weights| && bitsAt == l.bitsEnd, plan)
  {
    JoinEmpty(plan);
  }

  lemma {:induction false} LaneRoom(lane: nat, lanes: nat, stride: nat)
    requires lane < lanes
    ensures LaneStart(lane, stride) + stride <= LaneStart(lanes, stride)
  {
    if lane + 1 < lanes {
      LaneRoom(lane, lanes - 1, stride);
    }
  }

  method AddLane(planner: Planner, t: Tables, l: Layout, payload: seq<Byte>, lane: nat, weightsAt: nat, bitsAt: nat,
                 ghost f: Parser, ghost x: PforPlan.Tally, ghost fits: bool)
    returns (ok: bool)
    requires Sound(f) && PforPlan.PlannerFor(f, x, 1) && LayoutOk(l, payload) && lane < |l.lanes|
    requires Ready(fits, planner.plan)
      && (fits ==> planner.plan.laneBytes + LaneStart(|l.lanes|, l.stride) <= LANE_LIMIT)
    modifies planner
    ensures PartAddedTo(fits, old(planner.plan), LanePart(t, f, l, payload, lane, weightsAt, bitsAt), ok, planner.plan)
  {
    hide TreeLane, PforLane, BlocksFit, LaneStart;
    var h, out := l.lanes[lane], LaneStart(lane, l.stride);
    LaneRoom(lane, |l.lanes|, l.stride);
    if bitsAt > l.bitsEnd || h.bitsSize > l.bitsEnd - bitsAt || weightsAt > |l.weights|
      || h.weightsSize > |l.weights| - weightsAt {
      return false;
    }
    var at := planner.plan.laneBytes + out;
    if h.mode == LANE_PFOR {
      if h.weightsSize != 0 {
        return false;
      }
      ok := planner.AddPforLane(payload[bitsAt..bitsAt + h.bitsSize], bitsAt, at, l.nb, f, x, out, fits);
    } else if h.mode == LANE_PIVCO {
      if h.weightsSize == 0 {
        return false;
      }
      var tree := t(l.weights[weightsAt..weightsAt + h.weightsSize]);
      if tree.None? {
        return false;
      }
      ok := planner.AddTreeLane(tree.value, payload[bitsAt..bitsAt + h.bitsSize], bitsAt, at, l.nb, l.blockSize, out,
        fits);
    } else {
      ok := false;
    }
  }

  method LaneTurn(planner: Planner, t: Tables, l: Layout, payload: seq<Byte>, lane: nat, weightsAt: nat, bitsAt: nat,
                  ghost f: Parser, ghost x: PforPlan.Tally, ghost part: LaneParts, ghost fits: bool, ghost start: Plan,
                  ghost whole: Option<Plan>)
    returns (ok: bool)
    requires Sound(f) && PforPlan.PlannerFor(f, x, 1) && LayoutOk(l, payload) && lane < |l.lanes|
    requires fits ==> start.laneBytes + LaneStart(|l.lanes|, l.stride) <= LANE_LIMIT
    requires part == PartsOf(t, f, l, payload)
    requires LanesAt(fits, start, whole, planner.plan, part, l, lane, weightsAt, bitsAt)
    modifies planner
    ensures !ok ==> LanesDone(fits, start, whole, false, planner.plan)
    ensures ok ==>
      LanesAt(fits, start, whole, planner.plan, part, l, lane + 1, weightsAt + l.lanes[lane].weightsSize,
        bitsAt + l.lanes[lane].bitsSize)
  {
    hide Lanes, LanePart, Leads, LanesDone, PartAddedTo, LaneStart, Ready;
    ghost var before := planner.plan;
    ok := AddLane(planner, t, l, payload, lane, weightsAt, bitsAt, f, x, fits);
    LanesTurn(fits, start, whole, before, part, l, lane, weightsAt, bitsAt, ok, planner.plan);
  }

  /** The loop over the lanes of a frame. */
  method AddLanes(planner: Planner, t: Tables, l: Layout, payload: seq<Byte>, ghost f: Parser, ghost x: PforPlan.Tally,
                  ghost part: LaneParts, ghost fits: bool, ghost start: Plan, ghost whole: Option<Plan>)
    returns (ok: bool)
    requires Sound(f) && PforPlan.PlannerFor(f, x, 1) && LayoutOk(l, payload)
    requires fits ==> start.laneBytes + LaneStart(|l.lanes|, l.stride) <= LANE_LIMIT
    requires part == PartsOf(t, f, l, payload)
    requires LanesAt(fits, start, whole, planner.plan, part, l, 0, 0, l.bitsAt)
    modifies planner
    ensures LanesDone(fits, start, whole, ok, planner.plan)
  {
    hide LanesAt, LanesDone, LaneStart;
    var lane: nat, weightsAt: nat, bitsAt: nat := 0, 0, l.bitsAt;
    ok := true;
    while ok && lane < |l.lanes|
      invariant lane <= |l.lanes|
      invariant !ok ==> LanesDone(fits, start, whole, false, planner.plan)
      invariant ok ==> LanesAt(fits, start, whole, planner.plan, part, l, lane, weightsAt, bitsAt)
    {
      ok := LaneTurn(planner, t, l, payload, lane, weightsAt, bitsAt, f, x, part, fits, start, whole);
      lane, weightsAt, bitsAt := lane + 1, weightsAt + l.lanes[lane].weightsSize, bitsAt + l.lanes[lane].bitsSize;
    }
    if ok {
      ok := weightsAt == |l.weights| && bitsAt == l.bitsEnd;
      LanesEnd(fits, start, whole, planner.plan, part, l, weightsAt, bitsAt);
    }
  }

  // ---------------------------------------------------------------------------
  // The join tasks

  lemma JoinsAdded(start: Plan, frame: Frame, n: nat)
    ensures Join(start, EMPTY.(joins := Joins(frame, n)))
         == start.(joins := start.joins + MovedJoins(Joins(frame, n), EndOf(start)))
  {
    MoveNothing(EndOf(start));
    NothingMore(start.symbols);
    NothingMore(start.trees);
    NothingMore(start.nodes);
    NothingMore(start.blocks);
    NothingMore(start.laneBlocks);
  }

  method AddJoins(planner: Planner, frame: Frame, groups: nat)
    modifies planner
    ensures planner.plan == Join(old(planner.plan), EMPTY.(joins := Joins(frame, groups)))
  {
    hide Count, Stride, Join;
    var count := Count(frame.captured);
    ghost var start := planner.plan;
    JoinsAdded(start, frame, groups);
    var group: nat := 0;
    assert start.joins + MovedJoins(Joins(frame, 0), EndOf(start)) == start.joins;
    while group < groups
      invariant group <= groups
      invariant planner.plan == start.(joins := start.joins + MovedJoins(Joins(frame, group), EndOf(start)))
    {
      ghost var before := planner.plan;
      var task :=
        JoinTask(planner.plan.laneBytes, Stride(count), count, frame.shape.outOff, group * 1024,
          if Planar(frame.captured) then 1 else 0);
      planner.plan := planner.plan.(joins := planner.plan.joins + [task]);
      assert MovedJoins(Joins(frame, group + 1), EndOf(start)) == MovedJoins(Joins(frame, group),
        EndOf(start)) + [task];
      group := group + 1;
    }
  }

  // ---------------------------------------------------------------------------
  // A frame

  /** Joining a part with lane bytes of its own is joining it without and then adding
      them. */
  lemma WithBytes(start: Plan, part: Plan, bytes: nat)
    requires part.laneBytes == 0
    ensures Join(start, part.(laneBytes := bytes)) == Join(start, part).(laneBytes := start.laneBytes + bytes)
  {
  }

  lemma Assembled(start: Plan, joins: seq<JoinTask>, lanes: Option<Plan>, bytes: nat, walkOk: bool, walked: Plan,
                  ok: bool, plan: Plan)
    requires LanesDone(start.laneBytes + bytes <= LANE_LIMIT, Join(start, EMPTY.(joins := joins)), lanes, walkOk,
      walked)
    requires lanes.Some? ==> lanes.value.laneBytes == 0
    requires ok == (walkOk && walked.laneBytes + bytes <= LANE_LIMIT)
    requires ok ==> plan == walked.(laneBytes := walked.laneBytes + bytes)
    ensures FrameAddedTo(start, Assemble(joins, lanes, bytes), ok, plan)
    ensures ok ==> plan.bitmaps <= |plan.nodes|
  {
    var joined := EMPTY.(joins := joins);
    assert Join(start, joined).laneBytes == start.laneBytes;
    if lanes.Some? {
      var part := Join(joined, lanes.value);
      var whole := Join(start, part);
      assert whole == Join(Join(start, joined), lanes.value) by { JoinAssoc(start, joined, lanes.value); }
      assert part.laneBytes == 0 && whole.laneBytes == start.laneBytes;
      WithBytes(start, part, bytes);
      hide Join, BlocksFit;
      SameBlocks(whole, whole.(laneBytes := start.laneBytes + bytes));
    }
  }

  lemma SameBlocks(a: Plan, b: Plan)
    requires a.blocks == b.blocks
    ensures BlocksFit(a) <==> BlocksFit(b)
  {
  }

  method AddChecked(planner: Planner, t: Tables, frame: Frame, l: Layout, payload: seq<Byte>, ghost f: Parser,
                    ghost x: PforPlan.Tally)
    returns (ok: bool)
    requires Sound(f) && PforPlan.PlannerFor(f, x, 1) && LayoutOk(l, payload)
    requires Fits(planner.plan) && planner.plan.bitmaps <= |planner.plan.nodes|
    modifies planner
    ensures FrameAddedTo(old(planner.plan),
      Assemble(Joins(frame, Groups(l.nb)), Lanes(PartsOf(t, f, l, payload), l, 0, 0, l.bitsAt),
        LaneStart(|l.lanes|, l.stride)), ok, planner.plan)
    ensures ok ==> planner.plan.bitmaps <= |planner.plan.nodes|
  {
    ghost var part := PartsOf(t, f, l, payload);
    ghost var start, bytes, lanes := planner.plan, LaneStart(|l.lanes|, l.stride), Lanes(part, l, 0, 0, l.bitsAt);
    ghost var fits := start.laneBytes + bytes <= LANE_LIMIT;
    AddJoins(planner, frame, Groups(l.nb));
    LanesStart(fits, start, frame, Groups(l.nb), part, l);
    assert planner.plan.laneBytes == start.laneBytes;
    hide Lanes, LaneStart, Join, BlocksFit, Fits, LanesDone, Joins, Assemble, FrameAddedTo;
    ok := AddLanes(planner, t, l, payload, f, x, part, fits, planner.plan, lanes);
    ghost var walkOk, walked := ok, planner.plan;
    if ok {
      planner.plan := planner.plan.(laneBytes := planner.plan.laneBytes + LaneStart(|l.lanes|, l.stride));
      ok := planner.plan.laneBytes <= LANE_LIMIT;
    }
    Assembled(start, Joins(frame, Groups(l.nb)), lanes, bytes, walkOk, walked, ok, planner.plan);
  }

  /** Adding a frame to the plan under construction: the body of the loop of
      pivco_gpu_plan_build. */
  method AddFrame(planner: Planner, t: Tables, frame: Frame, payload: seq<Byte>, elementBytes: ElementBytes,
                  ghost f: Parser, ghost x: PforPlan.Tally)
    returns (ok: bool)
    requires Sound(f) && PforPlan.PlannerFor(f, x, 1)
    requires Fits(planner.plan) && planner.plan.bitmaps <= |planner.plan.nodes|
    modifies planner
    ensures FrameAddedTo(old(planner.plan), FramePart(t, f, frame, payload, elementBytes), ok, planner.plan)
    ensures ok ==> planner.plan.bitmaps <= |planner.plan.nodes|
  {
    hide Assemble, Lanes, Fits, Join, Joins, LoadLe;
    if !FrameOk(frame, |payload|, elementBytes) {
      return false;
    }
    ok := AddChecked(planner, t, frame, LayoutOf(frame.captured, elementBytes), payload, f, x);
  }

  lemma LanesStart(fits: bool, start: Plan, frame: Frame, groups: nat, part: LaneParts, l: Layout)
    requires NoBytes(part) && BlocksFit(start) && start.bitmaps <= |start.nodes|
    ensures var joined := Join(start, EMPTY.(joins := Joins(frame, groups)));
      LanesAt(fits, joined, Lanes(part, l, 0, 0, l.bitsAt), joined, part, l, 0, 0, l.bitsAt)
  {
    JoinsAdded(start, frame, groups);
    assert Join(start, EMPTY.(joins := Joins(frame, groups))).blocks == start.blocks;
  }
}
