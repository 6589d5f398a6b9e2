/** Plans of whole batches of PivCo frames: the one-shot build. The threaded build is in
    PivcoMerge. */
module PivcoBatch {
  import opened Common
  import opened Words
  import opened Streams
  import opened Batches
  import opened PivcoParts
  import opened PivcoLanes
  import opened PivcoFrames
  import PforPlan
  import PforFormat

  /** The part a frame adds, or None for a frame that is refused. */
  type Parts = Frame -> Option<Plan>

  /** Frame parts one after another, each relocated behind the ones before. */
  ghost function Batch(g: Parts, frames: seq<Frame>): Option<Plan> {
    Fold(g, Join, EMPTY, frames)
  }

  lemma PartsJoin()
    ensures Monoid(Join, EMPTY)
  {
    forall a: Plan, b: Plan, c: Plan ensures Join(Join(a, b), c) == Join(a, Join(b, c)) {
      JoinAssoc(a, b, c);
    }
    forall a: Plan ensures Join(a, EMPTY) == a && Join(EMPTY, a) == a {
      JoinEmpty(a);
    }
  }

  lemma BatchStep(g: Parts, frames: seq<Frame>, i: nat)
    requires i < |frames|
    ensures Batch(g, frames[..i + 1]) == JoinBoth(Join, Batch(g, frames[..i]), g(frames[i]))
  {
    FoldStep(g, Join, EMPTY, frames, i);
  }

  /** Ranges of frames can be planned apart. */
  lemma BatchCut(g: Parts, frames: seq<Frame>, lo: nat, hi: nat)
    requires lo <= hi <= |frames|
    ensures Batch(g, frames[..hi]) == JoinBoth(Join, Batch(g, frames[..lo]), Batch(g, frames[lo..hi]))
    ensures Batch(g, frames) == JoinBoth(Join, Batch(g, frames[..hi]), Batch(g, frames[hi..]))
  {
    hide Monoid, Fold;
    PartsJoin();
    FoldRange(g, Join, EMPTY, frames, lo, hi);
  }

  // ---------------------------------------------------------------------------
  // Limits

  lemma FitsPrefix(a: Plan, b: Plan)
    requires Fits(Join(a, b))
    ensures Fits(a)
  {
    BlocksFitPrefix(a, b);
  }

  /** What a part fits behind, it fits without. */
  lemma FitsSuffix(a: Plan, b: Plan)
    requires Fits(Join(a, b))
    ensures Fits(b)
  {
    forall i | 0 <= i < |b.blocks| ensures BlockFits(b.blocks[i]) {
      assert BlockFits(Join(a, b).blocks[|a.blocks| + i]);
      assert Join(a, b).blocks[|a.blocks| + i] == MovedBlock(b.blocks[i], EndOf(a));
    }
  }

  /** What the one-shot build returns. */
  ghost function Result(g: Parts, frames: seq<Frame>): Option<Plan> {
    if |frames| == 0 || Batch(g, frames).None? || !Fits(Batch(g, frames).value) then None
    else Some(PadLanes(Batch(g, frames).value))
  }

  /** A batch that has a result has one for every nonempty range of its frames. */
  lemma ResultRange(g: Parts, frames: seq<Frame>, lo: nat, hi: nat)
    requires lo < hi <= |frames| && Result(g, frames).Some?
    ensures Result(g, frames[lo..hi]).Some?
    ensures Batch(g, frames[..hi]).Some? && Fits(Batch(g, frames[..hi]).value)
  {
    hide Batch, Fits, Join;
    BatchCut(g, frames, lo, hi);
    FitsPrefix(Batch(g, frames[..hi]).value, Batch(g, frames[hi..]).value);
    FitsSuffix(Batch(g, frames[..lo]).value, Batch(g, frames[lo..hi]).value);
  }

  // ---------------------------------------------------------------------------
  // The one-shot build

  ghost function FramePlanner(t: Tables, f: Parser, payload: seq<Byte>, elementBytes: ElementBytes): Parts
    requires Sound(f)
  {
    frame => FramePart(t, f, frame, payload, elementBytes)
  }

  /** The frames before n are planned. */
  ghost predicate BuiltTo(g: Parts, frames: seq<Frame>, n: nat, plan: Plan) {
    n <= |frames| && Batch(g, frames[..n]) == Some(plan) && Fits(plan) && plan.bitmaps <= |plan.nodes|
  }

  lemma BuildTurn(g: Parts, frames: seq<Frame>, n: nat, plan: Plan, ok: bool, plan': Plan)
    requires n < |frames| && BuiltTo(g, frames, n, plan) && FrameAddedTo(plan, g(frames[n]), ok, plan')
    requires ok ==> plan'.bitmaps <= |plan'.nodes|
    ensures ok ==> BuiltTo(g, frames, n + 1, plan')
    ensures !ok ==> Result(g, frames).None?
  {
    BatchStep(g, frames, n);
    hide Batch, Fits, Join;
    if !ok && Result(g, frames).Some? {
      ResultRange(g, frames, n, n + 1);
    }
  }

  method PadLaneBlocks(planner: Planner)
    modifies planner
    ensures planner.plan == PadLanes(old(planner.plan))
  {
    ghost var start, n := planner.plan, 0;
    assert PaddedBy(start, 0) == start;
    while |planner.plan.laneBlocks| % 4 != 0
      invariant n <= Padding(start.laneBlocks) && planner.plan == PaddedBy(start, n)
      decreases Padding(start.laneBlocks) - n
    {
      planner.plan :=
        planner.plan.(laneBlocks := planner.plan.laneBlocks
          + [LaneBlock(planner.plan.laneBlocks[0].payloadOffset, planner.plan.laneBytes)]);
      n := n + 1;
      assert planner.plan.laneBlocks == PaddedBy(start, n).laneBlocks;
    }
  }

  method BuildFrame(planner: Planner, t: Tables, frames: seq<Frame>, i: nat, payload: seq<Byte>,
                    elementBytes: ElementBytes, ghost f: Parser, ghost x: PforPlan.Tally, ghost g: Parts)
    returns (ok: bool)
    requires Sound(f) && PforPlan.PlannerFor(f, x, 1) && g == FramePlanner(t, f, payload, elementBytes)
    requires i < |frames| && BuiltTo(g, frames, i, planner.plan)
    modifies planner
    ensures ok ==> BuiltTo(g, frames, i + 1, planner.plan)
    ensures !ok ==> Result(g, frames).None?
  {
    BuiltFits(g, frames, i, planner.plan);
    hide BuiltTo, Result, FrameAddedTo, Fits, Sound, FramePart;
    ghost var before := planner.plan;
    ok := AddFrame(planner, t, frames[i], payload, elementBytes, f, x);
    BuildTurn(g, frames, i, before, ok, planner.plan);
  }

  /** pivco_gpu_plan_build, once its input is known to be there. */
  method BuildAll(t: Tables, frames: seq<Frame>, payload: seq<Byte>, elementBytes: ElementBytes, ghost f: Parser,
                  ghost x: PforPlan.Tally, ghost g: Parts)
    returns (plan: Option<Plan>)
    requires Sound(f) && PforPlan.PlannerFor(f, x, 1) && g == FramePlanner(t, f, payload, elementBytes)
    ensures plan == Result(g, frames)
  {
    if |frames| == 0 {
      return None;
    }
    var planner := new Planner();
    var i: nat := 0;
    while i < |frames|
      invariant i <= |frames| && BuiltTo(g, frames, i, planner.plan)
    {
      hide BuiltTo, Result, Sound, FramePlanner;
      var ok := BuildFrame(planner, t, frames, i, payload, elementBytes, f, x, g);
      if !ok {
        return None;
      }
      i := i + 1;
    }
    assert frames[..|frames|] == frames;
    PadLaneBlocks(planner);
    plan := Some(planner.plan);
  }

  lemma BuiltFits(g: Parts, frames: seq<Frame>, n: nat, plan: Plan)
    requires BuiltTo(g, frames, n, plan)
    ensures Fits(plan) && plan.bitmaps <= |plan.nodes|
  {
  }

  /** The plan the format gives a batch. */
  ghost function BatchPlan(t: Tables, frames: seq<Frame>, payload: seq<Byte>, elementBytes: nat): Option<Plan> {
    if elementBytes != 1 && elementBytes != 2 then None
    else Result(FramePlanner(t, PforFormat.BlockParser(1), payload, elementBytes), frames)
  }

  method Build(t: Tables, frames: seq<Frame>, payload: seq<Byte>, elementBytes: nat) returns (plan: Option<Plan>)
    ensures plan == BatchPlan(t, frames, payload, elementBytes)
  {
    if elementBytes != 1 && elementBytes != 2 {
      return None;
    }
    ghost var f, x := PforFormat.BlockParser(1), PforPlan.ExceptionTally();
    plan := BuildAll(t, frames, payload, elementBytes, f, x, FramePlanner(t, f, payload, elementBytes));
  }
}
