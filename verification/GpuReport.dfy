/** How a pass ends, and which frame it may report. */
module GpuReport {
  import opened GpuPass

  // ---------- every schedule ends ----------

  function Effort(worker: Worker, count: nat): nat {
    match worker
    case Idle => 2
    case Taken(i) => if i >= count then 1 else 4
    case Working(_) => 3
    case Done => 0
  }

  function Efforts(workers: seq<Worker>, count: nat): nat {
    if |workers| == 0 then 0 else Efforts(workers[..|workers| - 1], count) + Effort(workers[|workers| - 1], count)
  }

  lemma {:induction false} EffortsUpdate(workers: seq<Worker>, w: nat, worker: Worker, count: nat)
    requires w < |workers|
    ensures Efforts(workers[w := worker], count) == Efforts(workers, count) - Effort(workers[w],
      count) + Effort(worker, count)
    decreases |workers|
  {
    var last := |workers| - 1;
    if w < last {
      EffortsUpdate(workers[..last], w, worker, count);
      assert workers[w := worker][..last] == workers[..last][w := worker];
    } else {
      assert workers[w := worker][..last] == workers[..last];
    }
  }

  lemma {:induction false} EffortsAll(workers: seq<Worker>, each: Worker, count: nat)
    requires forall w :: 0 <= w < |workers| ==> workers[w] == each
    ensures Efforts(workers, count) == |workers| * Effort(each, count)
  {
    if |workers| > 0 {
      EffortsAll(workers[..|workers| - 1], each, count);
    }
  }

  lemma {:induction false} NoEffort(workers: seq<Worker>, count: nat)
    requires Efforts(workers, count) == 0
    ensures forall w :: 0 <= w < |workers| ==> workers[w] == Done
  {
    if |workers| > 0 {
      NoEffort(workers[..|workers| - 1], count);
    }
  }

  // How many more actions can matter.
  function Fuel(s: Pass, count: nat): nat {
    3 * (if s.next < count then count - s.next else 0) + Efforts(s.workers, count)
  }

  /** 3 for each frame and 2 for each worker. */
  lemma StartFuel(threads: nat, count: nat)
    ensures Fuel(Start(threads), count) == 3 * count + 2 * threads
  {
    EffortsAll(Start(threads).workers, Idle, count);
  }

  predicate Awake(s: Pass, w: nat) {
    w < |s.workers| && s.workers[w] != Done
  }

  // The actions of a schedule that a worker which is not done takes.
  function Acts(s: Pass, schedule: seq<Act>, count: nat): nat
    decreases |schedule|
  {
    if |schedule| == 0 then 0
    else
      var before := schedule[..|schedule| - 1];
      Acts(s, before, count) + if Awake(Run(s, before, count), schedule[|schedule| - 1].worker) then 1 else 0
  }

  predicate InRange(s: Pass, count: nat) {
    forall w :: 0 <= w < |s.workers| && s.workers[w].Working? ==> s.workers[w].frame < count
  }

  lemma StepEnds(s: Pass, a: Act, count: nat)
    requires InRange(s, count)
    ensures InRange(Step(s, a, count), count)
    ensures Awake(s, a.worker) ==> Fuel(Step(s, a, count), count) < Fuel(s, count)
    ensures !Awake(s, a.worker) ==> Step(s, a, count) == s
  {
    hide Efforts;
    if Awake(s, a.worker) {
      var worker := Step(s, a, count).workers[a.worker];
      EffortsUpdate(s.workers, a.worker, worker, count);
      assert Step(s, a, count).workers == s.workers[a.worker := worker];
    }
  }

  lemma {:induction false} FuelLeft(s: Pass, schedule: seq<Act>, count: nat)
    requires InRange(s, count)
    ensures InRange(Run(s, schedule, count), count)
    ensures Fuel(Run(s, schedule, count), count) + Acts(s, schedule, count) <= Fuel(s, count)
    decreases |schedule|
  {
    hide Fuel, Step, InRange;
    if |schedule| > 0 {
      var last := |schedule| - 1;
      FuelLeft(s, schedule[..last], count);
      StepEnds(Run(s, schedule[..last], count), schedule[last], count);
    }
  }

  /** No schedule runs on for ever: workers that are not done can take at most
      3 * count + 2 * threads actions, and once they have, every worker is done. */
  lemma {:induction false} EverySchedule(threads: nat, schedule: seq<Act>, count: nat)
    ensures Acts(Start(threads), schedule, count) <= 3 * count + 2 * threads
    ensures Acts(Start(threads), schedule, count) == 3 * count + 2 * threads ==>
      Ended(Run(Start(threads), schedule, count))
  {
    hide Run, Acts, Efforts;
    FuelLeft(Start(threads), schedule, count);
    StartFuel(threads, count);
    var s := Run(Start(threads), schedule, count);
    if Fuel(s, count) == 0 {
      NoEffort(s.workers, count);
    }
  }

  // ---------- joining schedules ----------

  lemma {:induction false} RunJoin(s: Pass, a: seq<Act>, b: seq<Act>, count: nat, bad: Verdict)
    ensures Run(s, a + b, count) == Run(Run(s, a, count), b, count)
    ensures Obeys(s, a, count, bad) && Obeys(Run(s, a, count), b, count, bad) ==> Obeys(s, a + b, count, bad)
    decreases |b|
  {
    hide Step, ActObeys;
    if |b| == 0 {
      assert a + b == a;
    } else {
      var last := |b| - 1;
      RunJoin(s, a, b[..last], count, bad);
      assert (a + b)[..|a + b| - 1] == a + b[..last];
    }
  }

  /** The one action worker w can take, failing exactly if its frame is bad. */
  function ActOf(s: Pass, w: nat, bad: Verdict): (a: Act)
    ensures a.worker == w && ActObeys(s, a, bad)
  {
    Act(w, w < |s.workers| && s.workers[w].Working? && bad(s.workers[w].frame))
  }

  lemma RunOne(s: Pass, a: Act, count: nat, bad: Verdict)
    requires ActObeys(s, a, bad)
    ensures Run(s, [a], count) == Step(s, a, count) && Obeys(s, [a], count, bad)
  {
    hide Step, ActObeys;
    assert [a][..0] == [];
    assert Run(s, [], count) == s;
  }

  /** From every state some schedule ends the pass. */
  lemma {:induction false} Finish(s: Pass, count: nat, bad: Verdict) returns (schedule: seq<Act>)
    requires InRange(s, count)
    ensures Obeys(s, schedule, count, bad) && Ended(Run(s, schedule, count))
    decreases Fuel(s, count)
  {
    hide Fuel, Step, InRange, ActObeys, Run, Obeys;
    if Ended(s) {
      schedule := [];
      RunNothing(s, count, bad);
    } else {
      var w :| 0 <= w < |s.workers| && s.workers[w] != Done;
      var a := ActOf(s, w, bad);
      StepEnds(s, a, count);
      var rest := Finish(Step(s, a, count), count, bad);
      RunOne(s, a, count, bad);
      RunJoin(s, [a], rest, count, bad);
      schedule := [a] + rest;
    }
  }

  lemma RunNothing(s: Pass, count: nat, bad: Verdict)
    ensures Run(s, [], count) == s && Obeys(s, [], count, bad)
  {
  }

  // ---------- which frame is reported ----------

  // The bad frames below n.
  function BadBelow(n: nat, bad: Verdict): (c: nat)
  {
    if n == 0 then 0 else BadBelow(n - 1, bad) + if bad(n - 1) then 1 else 0
  }

  lemma {:induction false} BadMonotone(m: nat, n: nat, bad: Verdict)
    requires m <= n
    ensures BadBelow(m, bad) <= BadBelow(n, bad)
    ensures m < n && bad(m) ==> BadBelow(m, bad) < BadBelow(n, bad)
  {
    if m < n {
      BadMonotone(m, n - 1, bad);
    }
  }

  ghost function BadSet(n: nat, bad: Verdict): set<nat> {
    set i: nat | i < n && bad(i)
  }

  lemma {:induction false} BadSetSize(n: nat, bad: Verdict)
    ensures |BadSet(n, bad)| == BadBelow(n, bad)
  {
    if n > 0 {
      hide BadSet;
      BadSetSize(n - 1, bad);
      BadSetStep(n, bad);
    }
  }

  lemma BadSetStep(n: nat, bad: Verdict)
    requires n > 0
    ensures BadSet(n, bad) == BadSet(n - 1, bad) + if bad(n - 1) then {n - 1} else {}
    ensures n - 1 !in BadSet(n - 1, bad)
  {
  }

  // The frames in the workers' hands.
  function InHand(workers: seq<Worker>): set<nat> {
    if |workers| == 0 then {}
    else
      InHand(workers[..|workers| - 1]) +
      match workers[|workers| - 1] { case Taken(i) => {i} case Working(i) => {i} case _ => {} }
  }

  lemma {:induction false} InHandSize(workers: seq<Worker>)
    ensures |InHand(workers)| <= |workers|
  {
    if |workers| > 0 {
      InHandSize(workers[..|workers| - 1]);
    }
  }

  lemma {:induction false} InHandHolds(workers: seq<Worker>, w: nat, i: nat)
    requires w < |workers| && Holds(workers[w], i)
    ensures i in InHand(workers)
    decreases |workers|
  {
    if w < |workers| - 1 {
      InHandHolds(workers[..|workers| - 1], w, i);
    }
  }

  lemma {:induction false} SubsetSize(a: set<nat>, b: set<nat>)
    requires a <= b
    ensures |a| <= |b|
  {
    if a != {} {
      var x :| x in a;
      SubsetSize(a - {x}, b - {x});
    }
  }

  // Every bad frame below the one in a worker's hand is in another worker's.
  lemma FewBadBelow(s: Pass, w: nat, bad: Verdict)
    requires w < |s.workers| && s.workers[w].Working?
    requires forall i: nat :: i < s.workers[w].frame && bad(i) ==> Held(s, i)
    ensures BadBelow(s.workers[w].frame, bad) < |s.workers|
  {
    hide BadBelow, InHand;
    var f := s.workers[w].frame;
    forall i | i in BadSet(f, bad) + {f}
      ensures i in InHand(s.workers)
    {
      var v: nat :| v < |s.workers| && Holds(s.workers[v], i);
      InHandHolds(s.workers, v, i);
    }
    SubsetSize(BadSet(f, bad) + {f}, InHand(s.workers));
    InHandSize(s.workers);
    BadSetSize(f, bad);
  }

  // What bounds the report: it was among the first bad frames, one a worker.
  ghost predicate Early(s: Pass, bad: Verdict) {
    s.failed ==> bad(s.errorFrame) && BadBelow(s.errorFrame, bad) < |s.workers|
  }

  lemma StepEarly(s: Pass, a: Act, count: nat, bad: Verdict)
    requires Accounted(s, count) && Reports(s) && Judged(s, bad) && Early(s, bad) && ActObeys(s, a, bad)
    ensures Early(Step(s, a, count), bad)
  {
    hide Held, BadBelow, Accounted, Judged, Reports;
    if a.worker < |s.workers| && s.workers[a.worker].Working? && a.fails {
      var f := s.workers[a.worker].frame;
      if s.failed {
        BadMonotone(if f < s.errorFrame then f else s.errorFrame, s.errorFrame, bad);
      } else {
        BadAreHeld(s, a.worker, count, bad);
        FewBadBelow(s, a.worker, bad);
      }
    }
  }

  lemma BadAreHeld(s: Pass, w: nat, count: nat, bad: Verdict)
    requires Accounted(s, count) && Reports(s) && Judged(s, bad) && !s.failed
    requires w < |s.workers| && s.workers[w].Working?
    ensures forall i: nat :: i < s.workers[w].frame && bad(i) ==> Held(s, i)
  {
    hide Held;
    assert Holds(s.workers[w], s.workers[w].frame);
  }

  lemma {:induction false} EveryEarly(threads: nat, schedule: seq<Act>, count: nat, bad: Verdict)
    requires Obeys(Start(threads), schedule, count, bad)
    ensures Early(Run(Start(threads), schedule, count), bad)
    decreases |schedule|
  {
    hide Accounted, Reports, Judged, Step, ActObeys, BadBelow;
    if |schedule| > 0 {
      var last := |schedule| - 1;
      EveryEarly(threads, schedule[..last], count, bad);
      EveryInterleaving(threads, schedule[..last], count);
      EveryJudged(threads, schedule[..last], count, bad);
      StepEarly(Run(Start(threads), schedule[..last], count), schedule[last], count, bad);
    }
  }

  // ---------- a schedule that reports a given frame ----------

  // Frames below m handed out, the bad ones each in the hand of a worker that
  // has not looked at it yet, and the other workers idle.
  predicate Waiting(s: Pass, threads: nat, m: nat, bad: Verdict) {
    && |s.workers| == threads && s.next == m && !s.failed && BadBelow(m, bad) <= threads
    && (forall w :: 0 <= w < threads ==> if w < BadBelow(m, bad) then s.workers[w].Taken? else s.workers[w] == Idle)
  }

  /** Frame m goes to the next idle worker, which keeps it if it is bad. */
  lemma {:induction false} Advance(s: Pass, threads: nat, m: nat, count: nat, bad: Verdict) returns (schedule: seq<Act>)
    requires Waiting(s, threads, m, bad) && m < count && BadBelow(m, bad) < threads
    ensures Obeys(s, schedule, count, bad) && Waiting(Run(s, schedule, count), threads, m + 1, bad)
  {
    hide Run, Obeys;
    var w := BadBelow(m, bad);
    var fetch := Act(w, false);
    RunOne(s, fetch, count, bad);
    var t := Step(s, fetch, count);
    if bad(m) {
      schedule := [fetch];
    } else {
      RunOne(t, fetch, count, bad);
      var u := Step(t, fetch, count);
      RunOne(u, fetch, count, bad);
      RunJoin(t, [fetch], [fetch], count, bad);
      RunJoin(s, [fetch], [fetch] + [fetch], count, bad);
      schedule := [fetch] + ([fetch] + [fetch]);
    }
  }

  lemma {:induction false} Approach(threads: nat, m: nat, count: nat, bad: Verdict) returns (schedule: seq<Act>)
    requires m <= count && 0 < threads && BadBelow(m, bad) < threads
    ensures Obeys(Start(threads), schedule, count, bad)
    ensures Waiting(Run(Start(threads), schedule, count), threads, m, bad)
  {
    hide Run, Obeys, Waiting;
    if m == 0 {
      schedule := [];
      RunNothing(Start(threads), count, bad);
      WaitingAtStart(threads, bad);
    } else {
      BadMonotone(m - 1, m, bad);
      var before := Approach(threads, m - 1, count, bad);
      var s := Run(Start(threads), before, count);
      var after := Advance(s, threads, m - 1, count, bad);
      RunJoin(Start(threads), before, after, count, bad);
      schedule := before + after;
    }
  }

  lemma WaitingAtStart(threads: nat, bad: Verdict)
    ensures Waiting(Start(threads), threads, 0, bad)
  {
  }

  // Frame j has failed and no other frame can fail any more.
  predicate Settled(s: Pass, j: nat) {
    s.failed && s.errorFrame == j && forall w :: 0 <= w < |s.workers| ==> !s.workers[w].Working?
  }

  lemma {:induction false} Fails(s: Pass, threads: nat, j: nat, count: nat, bad: Verdict) returns (schedule: seq<Act>)
    requires Waiting(s, threads, j, bad) && j < count && bad(j) && BadBelow(j, bad) < threads
    ensures Obeys(s, schedule, count, bad) && Settled(Run(s, schedule, count), j)
  {
    hide Run, Obeys;
    var w := BadBelow(j, bad);
    var fetch, fail := Act(w, false), Act(w, true);
    RunOne(s, fetch, count, bad);
    var t := Step(s, fetch, count);
    RunOne(t, fetch, count, bad);
    var u := Step(t, fetch, count);
    RunOne(u, fail, count, bad);
    RunJoin(t, [fetch], [fail], count, bad);
    RunJoin(s, [fetch], [fetch] + [fail], count, bad);
    schedule := [fetch] + ([fetch] + [fail]);
  }

  lemma {:induction false} StaysSettled(s: Pass, schedule: seq<Act>, count: nat, j: nat)
    requires Settled(s, j)
    ensures Settled(Run(s, schedule, count), j)
    decreases |schedule|
  {
    if |schedule| > 0 {
      StaysSettled(s, schedule[..|schedule| - 1], count, j);
    }
  }

  lemma {:induction false} SomeSchedule(threads: nat, count: nat, bad: Verdict, j: nat) returns (schedule: seq<Act>)
    requires 0 < threads && j < count && bad(j) && BadBelow(j, bad) < threads
    ensures Reported(threads, schedule, count, bad, j)
  {
    hide Run, Obeys, Waiting, Settled, BadBelow;
    var before := Approach(threads, j, count, bad);
    var s := Run(Start(threads), before, count);
    var fails := Fails(s, threads, j, count, bad);
    var t := Run(s, fails, count);
    NoneWorking(t, j, count);
    var rest := Finish(t, count, bad);
    StaysSettled(t, rest, count, j);
    NoneWorking(Run(t, rest, count), j, count);
    RunJoin(s, fails, rest, count, bad);
    RunJoin(Start(threads), before, fails + rest, count, bad);
    schedule := before + (fails + rest);
  }

  lemma NoneWorking(s: Pass, j: nat, count: nat)
    requires Settled(s, j)
    ensures InRange(s, count) && s.failed && s.errorFrame == j
  {
  }

  /** A schedule in which exactly the bad frames fail ends the pass with this report. */
  predicate Reported(threads: nat, schedule: seq<Act>, count: nat, bad: Verdict, j: nat) {
    && Obeys(Start(threads), schedule, count, bad)
    && var s := Run(Start(threads), schedule, count);
    && Ended(s) && s.failed && s.errorFrame == j
  }

  /** The frames a pass may report are the first bad ones, as many as there are
      workers: of those below the report each was in the hand of another worker,
      which dropped it. */
  lemma {:induction false} ReportsExactly(threads: nat, count: nat, bad: Verdict, j: nat)
    requires 0 < threads
    ensures (exists schedule :: Reported(threads, schedule, count, bad, j))
        <==> j < count && bad(j) && BadBelow(j, bad) < threads
  {
    hide Run, Obeys, Ended, BadBelow;
    if j < count && bad(j) && BadBelow(j, bad) < threads {
      var schedule := SomeSchedule(threads, count, bad, j);
    }
    forall schedule | Reported(threads, schedule, count, bad, j)
      ensures j < count && bad(j) && BadBelow(j, bad) < threads
    {
      EveryEarly(threads, schedule, count, bad);
      LeastFailure(threads, schedule, count);
    }
  }

  predicate LeastBad(j: nat, count: nat, bad: Verdict) {
    j < count && bad(j) && BadBelow(j, bad) == 0
  }

  /** The least bad frame is the report of every schedule exactly if there is one
      worker or at most one bad frame. */
  lemma {:induction false} LeastBadReported(threads: nat, count: nat, bad: Verdict)
    requires 0 < threads
    ensures (forall schedule, j :: Reported(threads, schedule, count, bad, j) ==> LeastBad(j, count, bad))
        <==> threads == 1 || BadBelow(count, bad) <= 1
  {
    hide Reported, BadBelow;
    if threads == 1 || BadBelow(count, bad) <= 1 {
      forall schedule, j | Reported(threads, schedule, count, bad, j)
        ensures LeastBad(j, count, bad)
      {
        ReportsExactly(threads, count, bad, j);
        BadMonotone(j, count, bad);
      }
    } else {
      var j := SecondBad(count, bad);
      var schedule := SomeSchedule(threads, count, bad, j);
      assert !LeastBad(j, count, bad);
    }
  }

  lemma {:induction false} SecondBad(n: nat, bad: Verdict) returns (j: nat)
    requires BadBelow(n, bad) >= 2
    ensures j < n && bad(j) && BadBelow(j, bad) == 1
  {
    if BadBelow(n - 1, bad) >= 2 {
      j := SecondBad(n - 1, bad);
    } else {
      j := n - 1;
    }
  }

  /** LeastBad is what it says. */
  lemma {:induction false} LeastBadIs(j: nat, count: nat, bad: Verdict)
    ensures LeastBad(j, count, bad) <==> j < count && bad(j) && forall i: nat :: i < j ==> !bad(i)
  {
    BadSetSize(j, bad);
    if BadBelow(j, bad) == 0 {
      forall i: nat | i < j
        ensures !bad(i)
      {
        assert i !in BadSet(j, bad);
      }
    }
  }
}
