/** Plans of whole batches of PFOR frames: the one-shot build, and the threaded build
    that plans ranges of frames apart and merges them. */
module PforBatch {
  import opened Common
  import opened Words
  import opened Streams
  import opened Batches
  import opened PforFormat
  import opened PforDecode
  import opened PforPlan
  import PforCodec

  datatype GpuPlan = GpuPlan(blocks: seq<Task>, realBlocks: nat, withExceptions: nat, exceptions: nat)

  const TASK_BYTES := 16

  predicate FrameOk(frame: Frame, payloadBytes: nat) {
    && frame.nbElts != 0 && frame.payloadSize != 0
    && (frame.transform == 0 || frame.transform == 1)
    && frame.payloadOffset + frame.payloadSize <= payloadBytes
    && frame.nbElts <= SIZE_MAX - (BLOCK - 1)
  }

  // ---------------------------------------------------------------------------
  // The plan of a batch

  /** The plan of one frame, or None for a frame that is refused. */
  type Planner = Frame -> Option<Plan>

  ghost predicate Fair(g: Planner, payloadBytes: nat) {
    forall frame {:trigger g(frame)} :: g(frame).Some? ==>
      && FrameOk(frame, payloadBytes)
      && |g(frame).value.tasks| == Blocks(frame.nbElts)
      && g(frame).value.withExceptions <= |g(frame).value.tasks|
  }

  /** Frame plans one after another. */
  ghost function Batch(g: Planner, frames: seq<Frame>): Option<Plan> {
    Fold(g, Join, EMPTY, frames)
  }

  lemma PlansJoin()
    ensures Monoid(Join, EMPTY)
  {
    forall a: Plan, b: Plan, c: Plan ensures Join(Join(a, b), c) == Join(a, Join(b, c)) {
      JoinAssoc(a, b, c);
    }
    forall a: Plan ensures Join(a, EMPTY) == a && Join(EMPTY, a) == a {
      JoinAssoc(a, EMPTY, EMPTY);
    }
  }

  function TotalBlocks(frames: seq<Frame>): nat {
    if |frames| == 0 then 0 else TotalBlocks(frames[..|frames| - 1]) + Blocks(frames[|frames| - 1].nbElts)
  }

  lemma BatchStep(g: Planner, frames: seq<Frame>, i: nat)
    requires i < |frames|
    ensures Batch(g, frames[..i + 1]) == JoinBoth(Join, Batch(g, frames[..i]), g(frames[i]))
    ensures TotalBlocks(frames[..i + 1]) == TotalBlocks(frames[..i]) + Blocks(frames[i].nbElts)
  {
    FoldStep(g, Join, EMPTY, frames, i);
    assert frames[..i + 1][..i] == frames[..i];
  }

  lemma {:induction false} TotalAppend(a: seq<Frame>, b: seq<Frame>)
    ensures TotalBlocks(a + b) == TotalBlocks(a) + TotalBlocks(b)
    decreases |b|
  {
    if |b| == 0 {
      assert a + b == a;
    } else {
      AppendFront(a, b);
      TotalAppend(a, b[..|b| - 1]);
    }
  }

  lemma {:induction false} BatchSize(g: Planner, payloadBytes: nat, frames: seq<Frame>)
    requires Fair(g, payloadBytes) && Batch(g, frames).Some?
    ensures |Batch(g, frames).value.tasks| == TotalBlocks(frames) >= |frames|
    ensures Batch(g, frames).value.withExceptions <= TotalBlocks(frames)
    decreases |frames|
  {
    if |frames| > 0 {
      BatchSize(g, payloadBytes, frames[..|frames| - 1]);
    }
  }

  /** Ranges of frames can be planned apart. */
  lemma BatchCut(g: Planner, frames: seq<Frame>, lo: nat, hi: nat)
    requires lo <= hi <= |frames|
    ensures Batch(g, frames[..hi]) == JoinBoth(Join, Batch(g, frames[..lo]), Batch(g, frames[lo..hi]))
    ensures Batch(g, frames) == JoinBoth(Join, Batch(g, frames[..hi]), Batch(g, frames[hi..]))
  {
    hide Monoid, Fold;
    PlansJoin();
    FoldRange(g, Join, EMPTY, frames, lo, hi);
  }

  /** What a planned batch says about any range of its frames. */
  lemma BatchRange(g: Planner, frames: seq<Frame>, lo: nat, hi: nat)
    requires lo <= hi <= |frames| && Batch(g, frames).Some?
    ensures Batch(g, frames[lo..hi]).Some?
    ensures Batch(g, frames[lo..hi]).value.exceptions <= Batch(g, frames).value.exceptions
    ensures Batch(g, frames[lo..hi]).value.withExceptions <= Batch(g, frames).value.withExceptions
  {
    BatchCut(g, frames, lo, hi);
  }

  lemma TotalRange(frames: seq<Frame>, lo: nat, hi: nat)
    requires lo <= hi <= |frames|
    ensures TotalBlocks(frames[lo..hi]) <= TotalBlocks(frames)
  {
    hide TotalBlocks;
    Cut(frames, lo, hi);
    TotalAppend(frames[..hi], frames[hi..]);
    TotalAppend(frames[..lo], frames[lo..hi]);
  }

  /** Frame i of a planned batch owns a run of tasks: its own plan. */
  lemma BatchSlice(g: Planner, payloadBytes: nat, frames: seq<Frame>, i: nat)
    requires Fair(g, payloadBytes) && i < |frames| && Batch(g, frames).Some?
    ensures g(frames[i]).Some?
    ensures TotalBlocks(frames[..i]) + Blocks(frames[i].nbElts) <= |Batch(g, frames).value.tasks|
    ensures var at := TotalBlocks(frames[..i]);
      Batch(g, frames).value.tasks[at..at + Blocks(frames[i].nbElts)] == g(frames[i]).value.tasks
  {
    BatchRange(g, frames, 0, i + 1);
    BatchRange(g, frames, i + 1, |frames|);
    assert frames[0..i + 1] == frames[..i + 1] && frames[i + 1..|frames|] == frames[i + 1..];
    BatchStep(g, frames, i);
    BatchSize(g, payloadBytes, frames[..i]);
    BatchCut(g, frames, 0, i + 1);
    Middle(Batch(g, frames[..i]).value.tasks, g(frames[i]).value.tasks, Batch(g, frames[i + 1..]).value.tasks);
  }

  lemma Middle<T>(a: seq<T>, b: seq<T>, c: seq<T>)
    ensures ((a + b) + c)[|a|..|a| + |b|] == b
  {
  }

  // ---------------------------------------------------------------------------
  // Limits and padding

  function Padded(n: nat): nat { (n + 3) / 4 * 4 }

  function PadTask(blocks: seq<Task>): Task {
    Task(if |blocks| > 0 then blocks[0].payloadOffset else 0, 0, 0, 0)
  }

  function Pad(blocks: seq<Task>): seq<Task> {
    blocks + seq(Padded(|blocks|) - |blocks|, i => PadTask(blocks))
  }

  predicate Fits(blocks: nat, exceptions: nat) {
    blocks <= SIZE_MAX - 3 && Padded(blocks) <= SIZE_MAX / TASK_BYTES && exceptions <= SIZE_MAX
  }

  function Finish(p: Plan): Option<GpuPlan> {
    if Fits(|p.tasks|, p.exceptions) then
      Some(GpuPlan(Pad(p.tasks), |p.tasks|, p.withExceptions, p.exceptions))
    else
      None
  }

  /** What both builds return. */
  ghost function Result(g: Planner, frames: seq<Frame>): Option<GpuPlan> {
    if |frames| == 0 || Batch(g, frames).None? then None else Finish(Batch(g, frames).value)
  }

  lemma FitsLess(blocks: nat, exceptions: nat, fewer: nat, less: nat)
    requires Fits(blocks, exceptions) && fewer <= blocks && less <= exceptions
    ensures Fits(fewer, less)
  {
  }

  /** A batch that has a result has one for every nonempty range of its frames. */
  lemma ResultRange(g: Planner, payloadBytes: nat, frames: seq<Frame>, lo: nat, hi: nat)
    requires Fair(g, payloadBytes) && lo < hi <= |frames| && Result(g, frames).Some?
    ensures Result(g, frames[lo..hi]).Some?
  {
    BatchRange(g, frames, lo, hi);
    BatchSize(g, payloadBytes, frames);
    BatchSize(g, payloadBytes, frames[lo..hi]);
    TotalRange(frames, lo, hi);
    hide Fits;
    FitsLess(TotalBlocks(frames), Batch(g, frames).value.exceptions, TotalBlocks(frames[lo..hi]),
      Batch(g, frames[lo..hi]).value.exceptions);
  }

  method PadBlocks(blocks: array<Task>, realBlocks: nat, ghost tasks: seq<Task>)
    requires realBlocks <= blocks.Length == Padded(realBlocks)
    requires realBlocks > 0 && blocks[..realBlocks] == tasks
    modifies blocks
    ensures blocks[..] == Pad(tasks)
  {
    var i := realBlocks;
    while i < blocks.Length
      invariant realBlocks <= i <= blocks.Length && blocks[..realBlocks] == tasks
      invariant forall k :: realBlocks <= k < i ==> blocks[k] == PadTask(tasks)
    {
      blocks[i] := Task(blocks[0].payloadOffset, 0, 0, 0);
      i := i + 1;
    }
    assert |Pad(tasks)| == blocks.Length;
  }

  // ---------------------------------------------------------------------------
  // The one-shot build

  /** The first pass of pfor_gpu_plan_build. */
  method CheckFrames(frames: seq<Frame>, payloadBytes: nat, ghost g: Planner) returns (ok: bool, realBlocks: nat)
    requires Fair(g, payloadBytes) && |frames| > 0
    ensures ok ==> realBlocks == TotalBlocks(frames) && Fits(realBlocks, 0)
    ensures ok ==> forall i :: 0 <= i < |frames| ==> FrameOk(frames[i], payloadBytes)
    ensures !ok ==> Result(g, frames).None?
  {
    realBlocks := 0;
    var i: nat := 0;
    while i < |frames|
      invariant i <= |frames| && realBlocks == TotalBlocks(frames[..i])
      invariant forall k :: 0 <= k < i ==> FrameOk(frames[k], payloadBytes)
    {
      if !FrameOk(frames[i], payloadBytes) {
        Refused(g, payloadBytes, frames, i);
        return false, 0;
      }
      BatchStep(g, frames, i);
      if Blocks(frames[i].nbElts) > SIZE_MAX - realBlocks {
        TooMany(g, payloadBytes, frames, i + 1);
        return false, 0;
      }
      realBlocks := realBlocks + Blocks(frames[i].nbElts);
      i := i + 1;
    }
    assert frames[..|frames|] == frames;
    ok := Fits(realBlocks, 0);
    if !ok {
      TooMany(g, payloadBytes, frames, |frames|);
    }
  }

  lemma Refused(g: Planner, payloadBytes: nat, frames: seq<Frame>, i: nat)
    requires Fair(g, payloadBytes) && i < |frames|
    requires g(frames[i]).None? || !FrameOk(frames[i], payloadBytes)
    ensures Batch(g, frames).None? && Result(g, frames).None?
  {
    if Batch(g, frames).Some? {
      BatchSlice(g, payloadBytes, frames, i);
    }
  }

  lemma TooMany(g: Planner, payloadBytes: nat, frames: seq<Frame>, i: nat)
    requires Fair(g, payloadBytes) && i <= |frames| && !Fits(TotalBlocks(frames[..i]), 0)
    ensures Result(g, frames).None?
  {
    if Batch(g, frames).Some? && |frames| > 0 {
      BatchSize(g, payloadBytes, frames);
      TotalRange(frames, 0, i);
      assert frames[0..i] == frames[..i];
    }
  }

  ghost function FramePlanner(f: Parser, x: Tally, payload: seq<Byte>): Planner
    requires Sound(f)
  {
    frame => if FrameOk(frame, |payload|) then PlanOf(f, x, frame, payload) else None
  }

  lemma {:induction false} FewWithExceptions(f: Parser, x: Tally, w: seq<Byte>, nb: nat, at: nat, out: nat,
                                             transform: nat)
    requires Sound(f) && FramePlan(f, x, w, nb, at, out, transform).Some?
    ensures FramePlan(f, x, w, nb, at, out, transform).value.withExceptions <= |FramePlan(f, x, w, nb, at, out,
      transform).value.tasks|
    decreases nb
  {
    if nb > 0 {
      var n := if nb < BLOCK then nb else BLOCK;
      FewWithExceptions(f, x, w[f(w).value.0..], nb - n, at + f(w).value.0, out + n, transform);
    }
  }

  lemma FramePlannerFair(f: Parser, x: Tally, payload: seq<Byte>)
    requires Sound(f)
    ensures Fair(FramePlanner(f, x, payload), |payload|)
  {
    var g := FramePlanner(f, x, payload);
    forall frame | g(frame).Some? ensures FrameOk(frame, |payload|) && |g(frame).value.tasks| == Blocks(frame.nbElts)
      && g(frame).value.withExceptions <= |g(frame).value.tasks| {
      var w := Window(frame, payload);
      TaskCount(f, x, w, frame.nbElts, frame.payloadOffset, frame.outOff, frame.transform, g(frame).value.tasks);
      FewWithExceptions(f, x, w, frame.nbElts, frame.payloadOffset, frame.outOff, frame.transform);
    }
  }

  /** Plans one frame after the tasks already in blocks[..slot]. */
  method PlanNextFrame(blocks: array<Task>, slot: nat, counted: (nat, nat), frame: Frame, payload: seq<Byte>,
                       E: EltBytes, ghost f: Parser, ghost x: Tally, ghost whole: Option<Plan>)
    returns (ok: bool, tally: (nat, nat))
    requires Sound(f) && PlannerFor(f, x, E) && FrameOk(frame, |payload|)
    requires slot + Blocks(frame.nbElts) <= blocks.Length && whole == PlanOf(f, x, frame, payload)
    modifies blocks
    ensures !ok ==> whole.None?
    ensures ok ==> tally.1 >= counted.1
    ensures ok ==>
      JoinBoth(Join, Some(Plan(old(blocks[..slot]), counted.0, counted.1)),
        whole) == Some(Plan(blocks[..slot + Blocks(frame.nbElts)], tally.0, tally.1))
  {
    ok, tally := PlanFrame(blocks, slot, frame, payload, E, f, x, whole);
    if ok {
      tally := (counted.0 + tally.0, counted.1 + tally.1);
      assert blocks[..slot + Blocks(frame.nbElts)] == old(blocks[..slot]) + blocks[slot..slot + Blocks(frame.nbElts)];
    }
  }

  lemma TooManyExceptions(g: Planner, payloadBytes: nat, frames: seq<Frame>, i: nat)
    requires Fair(g, payloadBytes) && i <= |frames|
    requires Batch(g, frames[..i]).Some? && Batch(g, frames[..i]).value.exceptions > SIZE_MAX
    ensures Result(g, frames).None?
  {
    if Batch(g, frames).Some? {
      BatchRange(g, frames, 0, i);
      assert frames[0..i] == frames[..i];
    }
  }

  /** The tasks of the first n frames are in blocks[..slot]. */
  ghost predicate PlannedTo(g: Planner, frames: seq<Frame>, n: nat, blocks: seq<Task>, slot: nat, tally: (nat, nat)) {
    && n <= |frames| && slot == TotalBlocks(frames[..n]) <= |blocks|
    && Batch(g, frames[..n]) == Some(Plan(blocks[..slot], tally.0, tally.1))
  }

  /** One turn of the second pass of pfor_gpu_plan_build. */
  method PlanTurn(blocks: array<Task>, slot: nat, counted: (nat, nat), frames: seq<Frame>, i: nat, payload: seq<Byte>,
                  E: EltBytes, ghost f: Parser, ghost x: Tally, ghost g: Planner)
    returns (ok: bool, tally: (nat, nat))
    requires Sound(f) && PlannerFor(f, x, E) && g == FramePlanner(f, x, payload) && Fair(g, |payload|)
    requires i < |frames| && FrameOk(frames[i], |payload|) && TotalBlocks(frames) <= blocks.Length
    requires counted.1 <= SIZE_MAX && PlannedTo(g, frames, i, blocks[..], slot, counted)
    modifies blocks
    ensures !ok ==> Result(g, frames).None?
    ensures ok ==>
      tally.1 <= SIZE_MAX && PlannedTo(g, frames, i + 1, blocks[..], slot + Blocks(frames[i].nbElts), tally)
  {
    hide Batch, TotalBlocks, Result, Fair, Sound, PlanOf, Blocks, JoinBoth;
    BatchStep(g, frames, i);
    TotalRange(frames, 0, i + 1);
    assert frames[0..i + 1] == frames[..i + 1];
    ok, tally := PlanNextFrame(blocks, slot, counted, frames[i], payload, E, f, x, g(frames[i]));
    if !ok {
      Refused(g, |payload|, frames, i);
    } else if tally.1 - counted.1 > SIZE_MAX - counted.1 {
      TooManyExceptions(g, |payload|, frames, i + 1);
      ok := false;
    }
  }

  /** The second pass. */
  method PlanFrames(blocks: array<Task>, frames: seq<Frame>, payload: seq<Byte>, E: EltBytes, ghost f: Parser,
                    ghost x: Tally, ghost g: Planner)
    returns (ok: bool, tally: (nat, nat))
    requires Sound(f) && PlannerFor(f, x, E) && g == FramePlanner(f, x, payload) && Fair(g, |payload|)
    requires TotalBlocks(frames) <= blocks.Length
    requires forall i :: 0 <= i < |frames| ==> FrameOk(frames[i], |payload|)
    modifies blocks
    ensures !ok ==> Result(g, frames).None?
    ensures ok ==>
      tally.1 <= SIZE_MAX && Batch(g, frames) == Some(Plan(blocks[..TotalBlocks(frames)], tally.0, tally.1))
  {
    ok, tally := true, (0, 0);
    var i: nat, slot: nat := 0, 0;
    while i < |frames|
      invariant i <= |frames| && tally.1 <= SIZE_MAX && PlannedTo(g, frames, i, blocks[..], slot, tally)
    {
      hide PlannedTo, TotalBlocks, Result, Fair, Sound;
      ok, tally := PlanTurn(blocks, slot, tally, frames, i, payload, E, f, x, g);
      if !ok {
        return;
      }
      slot, i := slot + Blocks(frames[i].nbElts), i + 1;
    }
    assert frames[..|frames|] == frames;
  }

  /** pfor_gpu_plan_build, once the element size is known to be supported. */
  method BuildAll(frames: seq<Frame>, payload: seq<Byte>, E: EltBytes, ghost f: Parser, ghost x: Tally,
                  ghost g: Planner) returns (plan: Option<GpuPlan>)
    requires Sound(f) && PlannerFor(f, x, E) && g == FramePlanner(f, x, payload) && Fair(g, |payload|)
    ensures plan == Result(g, frames)
  {
    if |frames| == 0 {
      return None;
    }
    hide Batch, TotalBlocks, Fair, Sound, JoinBoth;
    var checked, realBlocks := CheckFrames(frames, |payload|, g);
    if !checked {
      return None;
    }
    var blocks := new Task[Padded(realBlocks)](_ => Task(0, 0, 0, 0));
    var ok, tally := PlanFrames(blocks, frames, payload, E, f, x, g);
    if !ok {
      return None;
    }
    ghost var tasks := blocks[..realBlocks];
    NotEmpty(frames);
    PadBlocks(blocks, realBlocks, tasks);
    plan := Some(GpuPlan(blocks[..], realBlocks, tally.0, tally.1));
    assert |tasks| == realBlocks;
  }

  lemma NotEmpty(frames: seq<Frame>)
    requires |frames| > 0 && frames[|frames| - 1].nbElts != 0
    ensures TotalBlocks(frames) > 0
  {
  }

  /** The plan the format gives a batch. */
  ghost function BatchPlan(frames: seq<Frame>, payload: seq<Byte>, elementBytes: nat): Option<GpuPlan> {
    if elementBytes != 1 && elementBytes != 2 then None
    else Result(FramePlanner(BlockParser(elementBytes), ExceptionTally(), payload), frames)
  }

  method Build(frames: seq<Frame>, payload: seq<Byte>, elementBytes: nat) returns (plan: Option<GpuPlan>)
    ensures plan == BatchPlan(frames, payload, elementBytes)
  {
    if elementBytes != 1 && elementBytes != 2 {
      return None;
    }
    ghost var f, x := BlockParser(elementBytes), ExceptionTally();
    FramePlannerFair(f, x, payload);
    plan := BuildAll(frames, payload, elementBytes, f, x, FramePlanner(f, x, payload));
  }

  // ---------------------------------------------------------------------------
  // The threaded build

  /** Each worker's result is what its own range has. */
  ghost predicate Worked(g: Planner, frames: seq<Frame>, starts: seq<nat>, i: nat, plan: Option<GpuPlan>)
    requires i + 1 < |starts|
  {
    starts[i] < starts[i + 1] <= |frames| && plan == Result(g, frames[starts[i]..starts[i + 1]])
  }

  ghost predicate AllWorked(g: Planner, frames: seq<Frame>, starts: seq<nat>, plans: seq<Option<GpuPlan>>) {
    && |starts| == |plans| + 1 && starts[0] == 0
    && forall i :: 0 <= i < |plans| ==> Worked(g, frames, starts, i, plans[i])
  }

  lemma NoneWorked(g: Planner, frames: seq<Frame>)
    ensures AllWorked(g, frames, [0], [])
  {
  }

  lemma WorkedMore(g: Planner, frames: seq<Frame>, starts: seq<nat>, plans: seq<Option<GpuPlan>>, next: nat,
                   plan: Option<GpuPlan>)
    requires AllWorked(g, frames, starts, plans) && starts[|plans|] < next <= |frames|
    requires plan == Result(g, frames[starts[|plans|]..next])
    ensures AllWorked(g, frames, starts + [next], plans + [plan])
  {
    hide Result;
    forall i | 0 <= i < |plans| + 1 ensures Worked(g, frames, starts + [next], i, (plans + [plan])[i]) {
      if i < |plans| {
        assert Worked(g, frames, starts, i, plans[i]);
      }
    }
  }

  /** Worker after worker; they share nothing, so any interleaving gives these results. */
  method RunWorkers(frames: seq<Frame>, payload: seq<Byte>, E: EltBytes, threads: nat, ghost f: Parser, ghost x: Tally,
                    ghost g: Planner)
    returns (plans: seq<Option<GpuPlan>>, ghost starts: seq<nat>)
    requires Sound(f) && PlannerFor(f, x, E) && g == FramePlanner(f, x, payload) && Fair(g, |payload|)
    requires 0 < threads <= |frames|
    ensures |plans| == threads && AllWorked(g, frames, starts, plans) && starts[threads] == |frames|
  {
    hide AllWorked, Result, Fair, Sound, Share, PlannerFor, FramePlanner;
    var first: nat := 0;
    plans, starts := [], [0];
    NoneWorked(g, frames);
    while |plans| < threads
      invariant |plans| <= threads && AllWorked(g, frames, starts, plans)
      invariant |starts| == |plans| + 1 && starts[|plans|] == first
      invariant first <= |frames| && threads - |plans| <= |frames| - first
      invariant |plans| == threads ==> first == |frames|
    {
      FairShare(|frames| - first, threads - |plans|);
      var count := Share(|frames| - first, threads - |plans|);
      var plan := BuildAll(frames[first..first + count], payload, E, f, x, g);
      WorkedMore(g, frames, starts, plans, first + count, plan);
      plans, starts, first := plans + [plan], starts + [first + count], first + count;
    }
  }

  /** Every worker has a plan, and together they cover the frames. */
  ghost predicate AllPlanned(g: Planner, frames: seq<Frame>, starts: seq<nat>, plans: seq<GpuPlan>) {
    && |starts| == |plans| + 1 && starts[0] == 0 && starts[|plans|] == |frames|
    && forall i :: 0 <= i < |plans| ==> Worked(g, frames, starts, i, Some(plans[i]))
  }

  /** A failed worker means the one-shot build fails too. */
  method Collect(frames: seq<Frame>, results: seq<Option<GpuPlan>>, payloadBytes: nat, ghost g: Planner,
                 ghost starts: seq<nat>)
    returns (plans: Option<seq<GpuPlan>>)
    requires Fair(g, payloadBytes) && AllWorked(g, frames, starts, results) && starts[|results|] == |frames|
    ensures plans.None? ==> Result(g, frames).None?
    ensures plans.Some? ==> |plans.value| == |results| && AllPlanned(g, frames, starts, plans.value)
  {
    var good: seq<GpuPlan> := [];
    while |good| < |results|
      invariant |good| <= |results|
      invariant forall i :: 0 <= i < |good| ==> results[i] == Some(good[i])
    {
      hide Result;
      if results[|good|].None? {
        assert Worked(g, frames, starts, |good|, None);
        if Result(g, frames).Some? {
          ResultRange(g, payloadBytes, frames, starts[|good|], starts[|good| + 1]);
        }
        return None;
      }
      good := good + [results[|good|].value];
    }
    hide Worked;
    assert forall i :: 0 <= i < |good| ==> Worked(g, frames, starts, i, results[i]);
    plans := Some(good);
  }

  ghost predicate MergedTo(g: Planner, frames: seq<Frame>, n: nat, blocks: nat, withExceptions: nat, exceptions: nat) {
    && n <= |frames| && Batch(g, frames[..n]).Some?
    && |Batch(g, frames[..n]).value.tasks| == blocks
    && Batch(g, frames[..n]).value.withExceptions == withExceptions
    && Batch(g, frames[..n]).value.exceptions == exceptions
  }

  /** One more worker's plan. */
  lemma MergeStep(g: Planner, frames: seq<Frame>, lo: nat, hi: nat, plan: GpuPlan)
    requires lo < hi <= |frames| && Batch(g, frames[..lo]).Some? && Result(g, frames[lo..hi]) == Some(plan)
    ensures plan.realBlocks <= |plan.blocks|
    ensures Batch(g,
      frames[..hi])
        == Some(Join(Batch(g, frames[..lo]).value,
          Plan(plan.blocks[..plan.realBlocks], plan.withExceptions, plan.exceptions)))
  {
    BatchCut(g, frames, lo, hi);
    var p := Batch(g, frames[lo..hi]).value;
    assert Pad(p.tasks)[..|p.tasks|] == p.tasks;
  }

  lemma MergeLimits(g: Planner, payloadBytes: nat, frames: seq<Frame>, n: nat, blocks: nat, withExceptions: nat,
                    exceptions: nat)
    requires Fair(g, payloadBytes) && MergedTo(g, frames, n, blocks, withExceptions, exceptions)
    requires blocks > SIZE_MAX || withExceptions > SIZE_MAX || exceptions > SIZE_MAX
    ensures Result(g, frames).None?
  {
    BatchSize(g, payloadBytes, frames[..n]);
    if exceptions > SIZE_MAX {
      TooManyExceptions(g, payloadBytes, frames, n);
    } else {
      TooMany(g, payloadBytes, frames, n);
    }
  }

  /** The totals of merge_plans, with its overflow checks. */
  method MergeTotals(frames: seq<Frame>, workers: seq<GpuPlan>, payloadBytes: nat, ghost g: Planner,
                     ghost starts: seq<nat>)
    returns (ok: bool, blocks: nat, withExceptions: nat, exceptions: nat)
    requires Fair(g, payloadBytes) && AllPlanned(g, frames, starts, workers)
    ensures !ok ==> Result(g, frames).None?
    ensures ok ==> MergedTo(g, frames, |frames|, blocks, withExceptions, exceptions) && exceptions <= SIZE_MAX
  {
    ok, blocks, withExceptions, exceptions := true, 0, 0, 0;
    var i: nat := 0;
    while i < |workers|
      invariant i <= |workers| && starts[i] <= |frames|
      invariant MergedTo(g, frames, starts[i], blocks, withExceptions, exceptions) && exceptions <= SIZE_MAX
    {
      hide Result, Fair, Batch;
      var src := workers[i];
      assert Worked(g, frames, starts, i, Some(src));
      MergeStep(g, frames, starts[i], starts[i + 1], src);
      blocks, withExceptions, exceptions := blocks + src.realBlocks, withExceptions + src.withExceptions,
        exceptions + src.exceptions;
      assert MergedTo(g, frames, starts[i + 1], blocks, withExceptions, exceptions);
      if blocks > SIZE_MAX || withExceptions > SIZE_MAX || exceptions > SIZE_MAX {
        MergeLimits(g, payloadBytes, frames, starts[i + 1], blocks, withExceptions, exceptions);
        return false, 0, 0, 0;
      }
      i := i + 1;
    }
  }

  method CopyTasks(dst: array<Task>, at: nat, src: seq<Task>)
    requires at + |src| <= dst.Length
    modifies dst
    ensures dst[..at + |src|] == old(dst[..at]) + src
    ensures forall i :: at + |src| <= i < dst.Length ==> dst[i] == old(dst[i])
  {
    forall i | 0 <= i < |src| { dst[at + i] := src[i]; }
  }

  /** The copies of merge_plans. */
  method MergeCopies(dst: array<Task>, frames: seq<Frame>, workers: seq<GpuPlan>, payloadBytes: nat, ghost g: Planner,
                     ghost starts: seq<nat>)
    returns (at: nat)
    requires Fair(g, payloadBytes) && AllPlanned(g, frames, starts, workers)
    requires Batch(g, frames).Some? && |Batch(g, frames).value.tasks| <= dst.Length
    modifies dst
    ensures at <= dst.Length && dst[..at] == Batch(g, frames).value.tasks
    ensures forall i :: at <= i < dst.Length ==> dst[i] == old(dst[i])
  {
    at := 0;
    var i: nat := 0;
    while i < |workers|
      invariant i <= |workers| && starts[i] <= |frames| && at <= dst.Length
      invariant Batch(g, frames[..starts[i]]).Some? && dst[..at] == Batch(g, frames[..starts[i]]).value.tasks
      invariant forall k :: at <= k < dst.Length ==> dst[k] == old(dst[k])
    {
      hide Result, Fair, Batch, TotalBlocks;
      var src := workers[i];
      assert Worked(g, frames, starts, i, Some(src));
      MergeStep(g, frames, starts[i], starts[i + 1], src);
      PrefixFits(g, payloadBytes, frames, starts[i + 1]);
      CopyTasks(dst, at, src.blocks[..src.realBlocks]);
      at := at + src.realBlocks;
      i := i + 1;
    }
    assert frames[..|frames|] == frames;
  }

  lemma PrefixFits(g: Planner, payloadBytes: nat, frames: seq<Frame>, n: nat)
    requires Fair(g, payloadBytes) && n <= |frames| && Batch(g, frames).Some? && Batch(g, frames[..n]).Some?
    ensures |Batch(g, frames[..n]).value.tasks| <= |Batch(g, frames).value.tasks|
  {
    BatchSize(g, payloadBytes, frames);
    BatchSize(g, payloadBytes, frames[..n]);
    TotalRange(frames, 0, n);
    assert frames[0..n] == frames[..n];
  }

  /** The zeroed tail gets the first task's payload offset. */
  method PadZeroed(blocks: array<Task>, at: nat, ghost tasks: seq<Task>)
    requires 0 < at <= blocks.Length == Padded(at) && blocks[..at] == tasks
    requires forall i :: at <= i < blocks.Length ==> blocks[i] == Task(0, 0, 0, 0)
    modifies blocks
    ensures blocks[..] == Pad(tasks)
  {
    var i := at;
    while i < blocks.Length
      invariant at <= i <= blocks.Length && blocks[..at] == tasks
      invariant forall k :: at <= k < i ==> blocks[k] == PadTask(tasks)
      invariant forall k :: i <= k < blocks.Length ==> blocks[k] == Task(0, 0, 0, 0)
    {
      blocks[i] := blocks[i].(payloadOffset := blocks[0].payloadOffset);
      i := i + 1;
    }
    assert |Pad(tasks)| == blocks.Length;
  }

  method MergePlans(frames: seq<Frame>, workers: seq<GpuPlan>, payloadBytes: nat, ghost g: Planner,
                    ghost starts: seq<nat>)
    returns (plan: Option<GpuPlan>)
    requires Fair(g, payloadBytes) && |frames| > 0 && AllPlanned(g, frames, starts, workers)
    ensures plan == Result(g, frames)
  {
    var ok, realBlocks, withExceptions, exceptions := MergeTotals(frames, workers, payloadBytes, g, starts);
    if !ok {
      return None;
    }
    assert frames[..|frames|] == frames;
    if !Fits(realBlocks, 0) {
      return None;
    }
    BatchSize(g, payloadBytes, frames);
    hide Batch, Fair, AllPlanned, TotalBlocks;
    var blocks := new Task[Padded(realBlocks)](_ => Task(0, 0, 0, 0));
    var at := MergeCopies(blocks, frames, workers, payloadBytes, g, starts);
    ghost var tasks := blocks[..at];
    PadZeroed(blocks, at, tasks);
    plan := Some(GpuPlan(blocks[..], realBlocks, withExceptions, exceptions));
  }

  /** pfor_gpu_plan_build_parallel gives the plan of the one-shot build, whatever the
      number of threads. */
  method BuildParallel(frames: seq<Frame>, payload: seq<Byte>, elementBytes: nat, threadCount: nat)
    returns (plan: Option<GpuPlan>)
    ensures plan == BatchPlan(frames, payload, elementBytes)
  {
    if |frames| == 0 || (elementBytes != 1 && elementBytes != 2) {
      return None;
    }
    var threads := if threadCount > |frames| then |frames| else if threadCount == 0 then 1 else threadCount;
    ghost var f, x := BlockParser(elementBytes), ExceptionTally();
    ghost var g := FramePlanner(f, x, payload);
    FramePlannerFair(f, x, payload);
    hide Fair, AllWorked, AllPlanned, FramePlanner, Result;
    var results, starts := RunWorkers(frames, payload, elementBytes, threads, f, x, g);
    var plans := Collect(frames, results, |payload|, g, starts);
    if plans.None? {
      return None;
    }
    plan := MergePlans(frames, plans.value, |payload|, g, starts);
  }

  // ---------------------------------------------------------------------------
  // What a plan promises

  /** Frame i of the batch decodes, and tasks are its tasks: each reads one whole block
      and writes one run of the frame's output with the values the decoder gives. */
  ghost predicate FramePlanned(f: Parser, frame: Frame, payload: seq<Byte>, tasks: seq<Task>)
    requires Sound(f)
  {
    && FrameOk(frame, |payload|)
    && |tasks| == Blocks(frame.nbElts)
    && Stream(f, Window(frame, payload), frame.nbElts).Some?
    && var values := Stream(f, Window(frame, payload), frame.nbElts).value;
    forall k :: 0 <= k < |tasks| ==>
      TaskTiles(f, Window(frame, payload), frame.nbElts, frame.payloadOffset, frame.outOff, tasks, k, values)
  }

  lemma PlannedFrame(f: Parser, x: Tally, frame: Frame, payload: seq<Byte>)
    requires Sound(f) && FramePlanner(f, x, payload)(frame).Some?
    ensures FramePlanned(f, frame, payload, FramePlanner(f, x, payload)(frame).value.tasks)
  {
    var w, tasks := Window(frame, payload), FramePlanner(f, x, payload)(frame).value.tasks;
    PlannedDecodes(f, x, w, frame.nbElts, frame.payloadOffset, frame.outOff, frame.transform);
    TaskCount(f, x, w, frame.nbElts, frame.payloadOffset, frame.outOff, frame.transform, tasks);
    var values := Stream(f, w, frame.nbElts).value;
    forall k | 0 <= k < |tasks| ensures TaskTiles(f, w, frame.nbElts, frame.payloadOffset, frame.outOff, tasks, k,
      values) {
      hide TaskTiles, FramePlan, Stream;
      FrameTiles(f, x, w, frame.nbElts, frame.payloadOffset, frame.outOff, frame.transform, tasks, k, values);
    }
  }

  /** The tasks of frame i in a plan of frames. */
  function TasksOf(frames: seq<Frame>, plan: GpuPlan, i: nat): seq<Task>
    requires i < |frames|
  {
    var lo, hi := TotalBlocks(frames[..i]), TotalBlocks(frames[..i + 1]);
    if lo <= hi <= |plan.blocks| then plan.blocks[lo..hi] else []
  }

  lemma ResultTasks(g: Planner, payloadBytes: nat, frames: seq<Frame>, i: nat)
    requires Fair(g, payloadBytes) && Result(g, frames).Some? && i < |frames|
    ensures g(frames[i]).Some? && TasksOf(frames, Result(g, frames).value, i) == g(frames[i]).value.tasks
  {
    BatchSlice(g, payloadBytes, frames, i);
    BatchStep(g, frames, i);
    PadPrefix(Batch(g, frames).value.tasks, TotalBlocks(frames[..i]), TotalBlocks(frames[..i + 1]));
  }

  /** Every frame of a planned batch is planned, its tasks in one run of the plan. */
  lemma PlannedBatch(frames: seq<Frame>, payload: seq<Byte>, E: EltBytes, i: nat)
    requires BatchPlan(frames, payload, E).Some? && i < |frames|
    ensures FramePlanned(BlockParser(E), frames[i], payload, TasksOf(frames, BatchPlan(frames, payload, E).value, i))
  {
    var f, x := BlockParser(E), ExceptionTally();
    FramePlannerFair(f, x, payload);
    ResultTasks(FramePlanner(f, x, payload), |payload|, frames, i);
    PlannedFrame(f, x, frames[i], payload);
  }

  /** One frame, for every element size: what the planner's own parser accepts, the
      decoder's format accepts, and the tasks are the runs of its values. */
  lemma PlannedEveryWidth(E: EltBytes, frame: Frame, payload: seq<Byte>)
    ensures PlannerFor(BlockParser(E), ExceptionTally(), E)
    ensures var g := FramePlanner(BlockParser(E), ExceptionTally(), payload);
      g(frame).Some? ==> FramePlanned(BlockParser(E), frame, payload, g(frame).value.tasks)
  {
    hide FramePlanned, FramePlanner;
    if FramePlanner(BlockParser(E), ExceptionTally(), payload)(frame).Some? {
      PlannedFrame(BlockParser(E), ExceptionTally(), frame, payload);
    }
  }

  /** Task k of frame writes that run of dst. */
  ghost predicate TasksGive(E: EltBytes, frame: Frame, payload: seq<Byte>, tasks: seq<Task>, dst: seq<Bits>)
    requires FrameOk(frame, |payload|) && |dst| == frame.nbElts
  {
    && |tasks| == Blocks(frame.nbElts)
    && forall k :: 0 <= k < |tasks| ==>
         TaskTiles(BlockParser(E), Window(frame, payload), frame.nbElts, frame.payloadOffset, frame.outOff, tasks, k,
           dst)
  }

  /** pfor_decode on any frame of a planned batch: it succeeds on every platform, and
      the frame's tasks in the plan give exactly what it writes, run by run. */
  method DecodePlanned(platform: Platform, dst: array<Bits>, frames: seq<Frame>, payload: seq<Byte>, E: EltBytes,
                       i: nat)
    returns (rc: int)
    requires BatchPlan(frames, payload, E).Some? && i < |frames| && dst.Length == frames[i].nbElts
    modifies dst
    ensures rc == 0 && FrameOk(frames[i], |payload|)
    ensures TasksGive(E, frames[i], payload, TasksOf(frames, BatchPlan(frames, payload, E).value, i), dst[..])
  {
    hide BatchPlan, TaskTiles, TasksOf;
    PlannedBatch(frames, payload, E, i);
    rc := PforCodec.Decode(platform, dst, E, Window(frames[i], payload));
  }

  lemma PadPrefix(tasks: seq<Task>, lo: nat, hi: nat)
    requires lo <= hi <= |tasks|
    ensures hi <= |Pad(tasks)| && Pad(tasks)[lo..hi] == tasks[lo..hi]
  {
  }
}
