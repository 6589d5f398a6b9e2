/** The worker pass of the GPU decoder (core/src/gpu/decode.c): threads take
    frames from one atomic counter until the frames run out or a frame fails.
    A run is any interleaving of the workers' atomic actions, each with its own
    outcome: a frame may be invalid, and a worker's own allocation may fail. */
module GpuPass {

  // Where a worker stands in the loop of run_pass.
  datatype Worker = Idle | Taken(frame: nat) | Working(frame: nat) | Done

  // The shared fields, the workers, and what the pass has done so far: the
  // frames processed and the frames fail_frame was called for, in order.
  datatype Pass = Pass(next: nat, failed: bool, errorFrame: nat, workers: seq<Worker>, processed: seq<nat>,
                       failers: seq<nat>)

  // One atomic action: which worker acts and, if it is working on a frame,
  // whether the frame fails in its hands.
  datatype Act = Act(worker: nat, fails: bool)

  /** Whether a frame fails, where that depends on the frame alone. */
  type Verdict = nat -> bool

  function Start(threads: nat): Pass {
    Pass(0, false, 0, seq(threads, i => Idle), [], [])
  }

  // fail_frame, one action under the lock.
  function FailFrame(s: Pass, frame: nat): Pass {
    s.(errorFrame := if !s.failed || frame < s.errorFrame then frame else s.errorFrame,
       failed := true,
       failers := s.failers + [frame])
  }

  function Set(s: Pass, w: nat, worker: Worker): (t: Pass)
    requires w < |s.workers|
    ensures |t.workers| == |s.workers|
  {
    s.(workers := s.workers[w := worker])
  }

  /** The pass after an action; there may be no such worker. */
  function Step(s: Pass, a: Act, count: nat): (t: Pass)
    ensures |t.workers| == |s.workers|
  {
    if a.worker >= |s.workers| then s else
    match s.workers[a.worker]
    case Idle => Set(s.(next := s.next + 1), a.worker, Taken(s.next))
    case Taken(i) => Set(s, a.worker, if i >= count || s.failed then Done else Working(i))
    case Working(i) =>
      var t := s.(processed := s.processed + [i]);
      Set(if a.fails then FailFrame(t, i) else t, a.worker, Idle)
    case Done => s
  }

  /** The pass after a schedule: one action after the other. */
  function Run(s: Pass, schedule: seq<Act>, count: nat): (t: Pass)
    ensures |t.workers| == |s.workers|
    decreases |schedule|
  {
    if |schedule| == 0 then s
    else Step(Run(s, schedule[..|schedule| - 1], count), schedule[|schedule| - 1], count)
  }

  predicate ActObeys(s: Pass, a: Act, bad: Verdict) {
    a.worker < |s.workers| && s.workers[a.worker].Working? ==> a.fails == bad(s.workers[a.worker].frame)
  }

  /** Schedules in which exactly the bad frames fail. */
  predicate Obeys(s: Pass, schedule: seq<Act>, count: nat, bad: Verdict)
    decreases |schedule|
  {
    |schedule| == 0 ||
    (var before := schedule[..|schedule| - 1];
     Obeys(s, before, count, bad) && ActObeys(Run(s, before, count), schedule[|schedule| - 1], bad))
  }

  predicate Ended(s: Pass) {
    forall w :: 0 <= w < |s.workers| ==> s.workers[w] == Done
  }

  // ---------- what every action keeps ----------

  predicate Holds(worker: Worker, i: nat) {
    worker == Taken(i) || worker == Working(i)
  }

  predicate Held(s: Pass, i: nat) {
    exists w :: 0 <= w < |s.workers| && Holds(s.workers[w], i)
  }

  // A frame handed out is processed, or in some worker's hands, or was dropped
  // because the pass had failed by then; never both processed and in hand.
  ghost predicate Accounted(s: Pass, count: nat) {
    && (forall k :: 0 <= k < |s.processed| ==>
      s.processed[k] < s.next && s.processed[k] < count && !Held(s, s.processed[k]))
    && (forall j, k :: 0 <= j < k < |s.processed| ==> s.processed[j] != s.processed[k])
    && (forall v, w, i: nat :: 0 <= v < w < |s.workers| && Holds(s.workers[v], i) ==> !Holds(s.workers[w], i))
    && (forall w, i: nat :: 0 <= w < |s.workers| && Holds(s.workers[w], i) ==> i < s.next)
    && (forall w :: 0 <= w < |s.workers| && s.workers[w].Working? ==> s.workers[w].frame < count)
    && (!s.failed ==> forall i :: 0 <= i < s.next && i < count ==> i in s.processed || Held(s, i))
    && ((exists w :: 0 <= w < |s.workers| && s.workers[w] == Done) && !s.failed ==> count <= s.next)
  }

  // The report is the least of the frames that failed.
  ghost predicate Reports(s: Pass) {
    && (s.failed <==> s.failers != [])
    && (s.failed ==> s.errorFrame in s.failers)
    && (forall k :: 0 <= k < |s.failers| ==> s.errorFrame <= s.failers[k] && s.failers[k] in s.processed)
  }

  // Exactly the bad ones among the processed frames failed.
  ghost predicate Judged(s: Pass, bad: Verdict) {
    && (forall k :: 0 <= k < |s.failers| ==> bad(s.failers[k]))
    && (forall k :: 0 <= k < |s.processed| ==> bad(s.processed[k]) ==> s.processed[k] in s.failers)
  }

  lemma StartKept(threads: nat, count: nat, bad: Verdict)
    ensures Accounted(Start(threads), count) && Reports(Start(threads)) && Judged(Start(threads), bad)
  {
  }

  lemma HeldElsewhere(s: Pass, t: Pass, w: nat, i: nat)
    requires w < |s.workers| == |t.workers|
    requires forall v :: 0 <= v < |s.workers| && v != w ==> t.workers[v] == s.workers[v]
    requires !Holds(s.workers[w], i) && !Holds(t.workers[w], i)
    ensures Held(t, i) <==> Held(s, i)
  {
    if Held(s, i) {
      var v :| 0 <= v < |s.workers| && Holds(s.workers[v], i);
      assert Holds(t.workers[v], i);
    }
    if Held(t, i) {
      var v :| 0 <= v < |t.workers| && Holds(t.workers[v], i);
      assert Holds(s.workers[v], i);
    }
  }

  lemma {:induction false} FetchKeeps(s: Pass, a: Act, count: nat)
    requires a.worker < |s.workers| && s.workers[a.worker].Idle? && Accounted(s, count)
    ensures Accounted(Step(s, a, count), count)
  {
    hide Held;
    var w, t := a.worker, Step(s, a, count);
    forall i: nat | i != s.next
      ensures Held(t, i) <==> Held(s, i)
    {
      HeldElsewhere(s, t, w, i);
    }
    assert Held(t, s.next) by { HeldBy(t, w, s.next); }
  }

  lemma HeldBy(s: Pass, w: nat, i: nat)
    requires w < |s.workers| && Holds(s.workers[w], i)
    ensures Held(s, i)
  {
  }

  lemma {:induction false} CheckKeeps(s: Pass, a: Act, count: nat)
    requires a.worker < |s.workers| && s.workers[a.worker].Taken? && Accounted(s, count)
    ensures Accounted(Step(s, a, count), count)
  {
    hide Held;
    var w, t := a.worker, Step(s, a, count);
    var f := s.workers[w].frame;
    forall i: nat | i != f
      ensures Held(t, i) <==> Held(s, i)
    {
      HeldElsewhere(s, t, w, i);
    }
    HeldBy(s, w, f);
    if t.workers[w].Working? {
      HeldBy(t, w, f);
    }
  }

  lemma {:induction false} WorkKeeps(s: Pass, a: Act, count: nat)
    requires a.worker < |s.workers| && s.workers[a.worker].Working? && Accounted(s, count)
    ensures Accounted(Step(s, a, count), count)
  {
    hide Held;
    var w, t := a.worker, Step(s, a, count);
    var f := s.workers[w].frame;
    forall i: nat | i != f
      ensures Held(t, i) <==> Held(s, i)
    {
      HeldElsewhere(s, t, w, i);
    }
    HeldBy(s, w, f);
    NotHeld(s, t, w, f);
    assert t.processed == s.processed + [f];
  }

  lemma NotHeld(s: Pass, t: Pass, w: nat, f: nat)
    requires w < |s.workers| == |t.workers| && Holds(s.workers[w], f) && t.workers[w] == Idle
    requires forall v :: 0 <= v < |s.workers| && v != w ==> t.workers[v] == s.workers[v]
    requires forall v, u, i: nat :: 0 <= v < u < |s.workers| && Holds(s.workers[v], i) ==> !Holds(s.workers[u], i)
    ensures !Held(t, f)
  {
  }

  lemma StepReports(s: Pass, a: Act, count: nat)
    requires Reports(s)
    ensures Reports(Step(s, a, count))
  {
    var t := Step(s, a, count);
    if a.worker < |s.workers| && s.workers[a.worker].Working? {
      var f := s.workers[a.worker].frame;
      assert t.processed == s.processed + [f];
      assert a.fails ==> t.failers == s.failers + [f];
      assert forall x :: x in s.processed ==> x in t.processed;
    }
  }

  lemma StepJudged(s: Pass, a: Act, count: nat, bad: Verdict)
    requires Judged(s, bad) && ActObeys(s, a, bad)
    ensures Judged(Step(s, a, count), bad)
  {
    var t := Step(s, a, count);
    if a.worker < |s.workers| && s.workers[a.worker].Working? {
      var f := s.workers[a.worker].frame;
      assert t.processed == s.processed + [f];
      assert a.fails ==> t.failers == s.failers + [f];
      assert forall x :: x in s.failers ==> x in t.failers;
    }
  }

  lemma StepKeeps(s: Pass, a: Act, count: nat)
    requires Accounted(s, count)
    ensures Accounted(Step(s, a, count), count)
  {
    hide Accounted, Held, FailFrame;
    if a.worker < |s.workers| {
      match s.workers[a.worker]
      case Idle => FetchKeeps(s, a, count);
      case Taken(_) => CheckKeeps(s, a, count);
      case Working(_) => WorkKeeps(s, a, count);
      case Done =>
    }
  }

  /** Every interleaving, whatever fails: no frame is processed twice, none handed
      out before a failure is lost, and the report is the least of the frames that
      failed. */
  lemma {:induction false} EveryInterleaving(threads: nat, schedule: seq<Act>, count: nat)
    ensures Accounted(Run(Start(threads), schedule, count), count)
    ensures Reports(Run(Start(threads), schedule, count))
    decreases |schedule|
  {
    hide Accounted, Reports, Step, Held;
    if |schedule| == 0 {
      StartKept(threads, count, i => false);
    } else {
      var last := |schedule| - 1;
      EveryInterleaving(threads, schedule[..last], count);
      var s := Run(Start(threads), schedule[..last], count);
      StepKeeps(s, schedule[last], count);
      StepReports(s, schedule[last], count);
    }
  }

  lemma {:induction false} EveryJudged(threads: nat, schedule: seq<Act>, count: nat, bad: Verdict)
    requires Obeys(Start(threads), schedule, count, bad)
    ensures Judged(Run(Start(threads), schedule, count), bad)
    decreases |schedule|
  {
    hide Accounted, Judged, ActObeys, Step;
    if |schedule| == 0 {
      StartKept(threads, count, bad);
    } else {
      var last := |schedule| - 1;
      EveryJudged(threads, schedule[..last], count, bad);
      StepJudged(Run(Start(threads), schedule[..last], count), schedule[last], count, bad);
    }
  }

  // ---------- what a finished pass has done ----------

  lemma EndedHoldsNothing(s: Pass, i: nat)
    requires Ended(s)
    ensures !Held(s, i)
  {
  }

  /** A pass that ends without failing has processed every frame exactly once. */
  lemma {:induction false} EachFrameOnce(threads: nat, schedule: seq<Act>, count: nat)
    requires 0 < threads
    requires Ended(Run(Start(threads), schedule, count)) && !Run(Start(threads), schedule, count).failed
    ensures var processed := Run(Start(threads), schedule, count).processed;
      && (forall i :: i in processed <==> 0 <= i < count)
      && (forall j, k :: 0 <= j < k < |processed| ==> processed[j] != processed[k])
  {
    hide Held, Reports, Run;
    var s := Run(Start(threads), schedule, count);
    EveryInterleaving(threads, schedule, count);
    assert s.workers[0] == Done;
    forall i | 0 <= i < count
      ensures i in s.processed
    {
      EndedHoldsNothing(s, i);
    }
  }

  /** A failing pass reports a frame that failed, the least of those that did. */
  lemma {:induction false} LeastFailure(threads: nat, schedule: seq<Act>, count: nat)
    requires Run(Start(threads), schedule, count).failed
    ensures var s := Run(Start(threads), schedule, count);
      && s.errorFrame < count && s.errorFrame in s.failers
      && forall k :: 0 <= k < |s.failers| ==> s.errorFrame <= s.failers[k]
  {
    hide Held, Run;
    EveryInterleaving(threads, schedule, count);
    FailerIsFrame(Run(Start(threads), schedule, count), count);
  }

  lemma FailerIsFrame(s: Pass, count: nat)
    requires Accounted(s, count) && Reports(s) && s.failed
    ensures s.errorFrame < count && s.errorFrame in s.processed
  {
    hide Held;
    var k :| 0 <= k < |s.failers| && s.failers[k] == s.errorFrame;
    assert s.failers[k] in s.processed;
  }

  /** Where failing depends on the frame alone, whether a pass fails does not depend
      on the schedule: it does exactly when some frame is bad. */
  lemma {:induction false} FailsExactly(threads: nat, schedule: seq<Act>, count: nat, bad: Verdict)
    requires 0 < threads && Obeys(Start(threads), schedule, count, bad)
    requires Ended(Run(Start(threads), schedule, count))
    ensures Run(Start(threads), schedule, count).failed <==> exists i: nat :: i < count && bad(i)
    ensures Run(Start(threads), schedule, count).failed ==> bad(Run(Start(threads), schedule, count).errorFrame)
  {
    hide Held, Run, Ended, Obeys, Accounted;
    var s := Run(Start(threads), schedule, count);
    EveryInterleaving(threads, schedule, count);
    EveryJudged(threads, schedule, count, bad);
    if s.failed {
      FailerIsFrame(s, count);
    } else {
      EachFrameOnce(threads, schedule, count);
      forall i: nat | i < count
        ensures !bad(i)
      {
        assert i in s.processed;
      }
    }
  }

  // ---------- schedules ----------

  lemma RunMore(s: Pass, schedule: seq<Act>, a: Act, next: seq<Act>, t: Pass, count: nat)
    requires next == schedule + [a] && t == Step(Run(s, schedule, count), a, count)
    ensures Run(s, next, count) == t
  {
    hide Step;
    assert next[..|schedule|] == schedule;
  }

  lemma RunNone(s: Pass, count: nat)
    ensures Run(s, [], count) == s
  {
  }

  // ---------- one worker's loop ----------

  class SharedPass {
    var next: nat
    var failed: bool
    var errorFrame: nat
    ghost var workers: seq<Worker>
    ghost var processed: seq<nat>
    ghost var failers: seq<nat>

    ghost function State(): Pass
      reads this
    {
      Pass(next, failed, errorFrame, workers, processed, failers)
    }

    constructor (threads: nat)
      ensures State() == Start(threads)
    {
      next, failed, errorFrame := 0, false, 0;
      workers, processed, failers := seq(threads, i => Idle), [], [];
    }

    /** fail_frame */
    method Fail(frame: nat)
      modifies this
      ensures State() == FailFrame(old(State()), frame)
    {
      if !failed || frame < errorFrame {
        errorFrame := frame;
      }
      failed := true;
      failers := failers + [frame];
    }

    method Fetch(w: nat) returns (i: nat)
      requires w < |workers| && workers[w] == Idle
      modifies this
      ensures i == old(next) && State() == Set(old(State()).(next := i + 1), w, Taken(i))
    {
      i := next;
      next := next + 1;
      workers := workers[w := Taken(i)];
    }

    method Process(w: nat, i: nat, fails: bool)
      requires w < |workers| && workers[w] == Working(i)
      modifies this
      ensures State() == Set(if fails then FailFrame(old(State()).(processed := old(processed) + [i]), i)
                             else old(State()).(processed := old(processed) + [i]), w, Idle)
    {
      processed := processed + [i];
      if fails {
        Fail(i);
      }
      workers := workers[w := Idle];
    }

    /** run_pass with no other worker acting meanwhile, as for a worker that got
        no thread: it is one of the interleavings, and it ends. */
    method RunPass(w: nat, count: nat, bad: Verdict) returns (ghost schedule: seq<Act>)
      requires w < |workers| && workers[w] == Idle
      modifies this
      ensures forall k :: 0 <= k < |schedule| ==> schedule[k].worker == w
      ensures State() == Run(old(State()), schedule, count)
      ensures |workers| == |old(workers)| && workers[w] == Done
    {
      hide Run;
      ghost var start := State();
      RunNone(start, count);
      schedule := [];
      var done := false;
      while !done
        invariant forall k :: 0 <= k < |schedule| ==> schedule[k].worker == w
        invariant |workers| == |start.workers|
        invariant State() == Run(start, schedule, count)
        invariant workers[w] == if done then Done else Idle
        decreases !done, if failed then 0 else 1, if next < count then count - next else 0
      {
        var i := Fetch(w);
        ghost var act := Act(w, false);
        assert State() == Step(Run(start, schedule, count), act, count);
        RunMore(start, schedule, act, schedule + [act], State(), count);
        schedule := schedule + [act];
        ghost var taken := State();
        if i >= count || failed {
          workers := workers[w := Done];
          done := true;
          assert State() == Step(taken, act, count);
          RunMore(start, schedule, act, schedule + [act], State(), count);
          schedule := schedule + [act];
        } else {
          workers := workers[w := Working(i)];
          ghost var working := State();
          assert working == Step(taken, act, count);
          RunMore(start, schedule, act, schedule + [act], working, count);
          schedule := schedule + [act];
          Process(w, i, bad(i));
          act := Act(w, bad(i));
          assert State() == Step(working, act, count);
          RunMore(start, schedule, act, schedule + [act], State(), count);
          schedule := schedule + [act];
        }
      }
    }
  }
}
