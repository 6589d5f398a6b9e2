/** The two-wave pipeline of the GPU decoder (core/src/gpu/decode.c): which
    batches are pending, on which stream, and over which memory. What the device
    and the host stage answer comes in as values; every answer is possible. */
module GpuWaves {
  import opened Common

  const SOURCES: nat := 3
  const MAX_WAVE_BATCHES: nat := 2 + SOURCES
  const STAGING_ALIGNMENT: nat := 256

  // A batch in flight: the stream it was queued on, how often its wave's arena
  // had been reset then, and the scratch it reads or writes, if any.
  datatype Batch = Batch(id: nat, stream: nat, resets: nat, scratch: Option<nat>)

  datatype Wave = Wave(batches: seq<Batch>, target: bool, resets: nat)

  datatype Memory = Memory(id: nat, bytes: nat)

  datatype Gpu = Gpu(cuda: bool, waves: seq<Wave>, wave: nat, stream: nat,
                     scratch: Option<Memory>, made: nat, memories: nat, retired: seq<Batch>)

  /** What waiting for a batch answers; true is success. */
  type Waits = Batch -> bool

  // One batch to queue: created and enqueued without error.
  datatype Launch = Launch(created: bool, enqueued: bool)

  // What a decode has to run once the host stage is through.
  datatype Work = Work(direct: bool, pfor: Option<Launch>, pforBytes: nat, pivco: Option<Launch>, pivcoBytes: nat,
                       place: seq<Option<Launch>>, granted: bool, listed: bool, wrapped: bool)

  // One call of decode: its stream, whether its arguments pass, how many copies
  // it has, whether the place program opens, and the work unless the host fails.
  datatype Decode = Decode(stream: nat, valid: bool, copies: nat, ready: bool, work: Option<Work>)

  datatype Call = DecodeCall(decode: Decode) | Synchronize

  predicate Shape(s: Gpu) {
    |s.waves| == 2 && s.wave < 2
  }

  function Other(s: Gpu): nat
    requires Shape(s)
  {
    1 - s.wave
  }

  predicate AllOk(batches: seq<Batch>, ok: Waits) {
    forall b :: b in batches ==> ok(b)
  }

  // finish_wave: every batch is destroyed, the target let go.
  function Finished(s: Gpu, w: nat): (t: Gpu)
    requires Shape(s) && w < 2
    ensures Shape(t)
  {
    s.(waves := s.waves[w := Wave([], false, s.waves[w].resets)], retired := s.retired + s.waves[w].batches)
  }

  // finish_pending: the older wave first.
  function Drained(s: Gpu): (t: Gpu)
    requires Shape(s)
    ensures Shape(t)
  {
    Finished(Finished(s, Other(s)), s.wave)
  }

  predicate PendingOk(s: Gpu, ok: Waits)
    requires Shape(s)
  {
    AllOk(s.waves[0].batches, ok) && AllOk(s.waves[1].batches, ok)
  }

  predicate Overlaps(s: Gpu, stream: nat)
    requires Shape(s)
  {
    s.cuda && (s.waves[s.wave].batches == [] || stream == s.stream)
  }

  /** begin_wave, and whether it failed. */
  function Begun(s: Gpu, stream: nat, ok: Waits): (r: (Gpu, bool))
    requires Shape(s)
    ensures Shape(r.0)
  {
    var now := s.(stream := stream);
    if !Overlaps(s, stream) then (Drained(now), !PendingOk(now, ok))
    else if !AllOk(now.waves[Other(now)].batches, ok) then (Drained(Finished(now, Other(now))), true)
    else (Finished(now, Other(now)).(wave := Other(now)), false)
  }

  function Grown(bytes: nat): nat {
    if bytes <= SIZE_MAX - bytes / 4 then bytes + bytes / 4 else bytes
  }

  /** ensure_scratch, and whether it failed. */
  function Scratched(s: Gpu, bytes: nat, granted: bool, ok: Waits): (r: (Gpu, bool))
    requires Shape(s)
    ensures Shape(r.0)
  {
    if s.scratch.Some? && s.scratch.value.bytes >= bytes then (s, false)
    else if !PendingOk(s, ok) then (Drained(s), true)
    else if granted then
      (Drained(s).(scratch := Some(Memory(s.memories, Grown(bytes))), memories := s.memories + 1), false)
    else (Drained(s).(scratch := None), true)
  }

  function ScratchUsed(s: Gpu, uses: bool): Option<nat> {
    if uses && s.scratch.Some? then Some(s.scratch.value.id) else None
  }

  // queue on the current wave, and whether it failed.
  function Queued(s: Gpu, launch: Launch, uses: bool, stream: nat): (r: (Gpu, bool))
    requires Shape(s)
    ensures Shape(r.0)
  {
    if !launch.created then (s, true)
    else
      var wave := s.waves[s.wave];
      var batch := Batch(s.made, stream, wave.resets, ScratchUsed(s, uses));
      (s.(waves := s.waves[s.wave := wave.(batches := wave.batches + [batch])], made := s.made + 1), !launch.enqueued)
  }

  // The launches of a call in order, each with whether it uses the scratch.
  type Step = (Launch, bool)

  function OptionStep(launch: Option<Launch>, uses: bool): seq<Step> {
    if launch.Some? then [(launch.value, uses)] else []
  }

  // Only the device source of the place pass reads the scratch.
  function PlaceSteps(place: seq<Option<Launch>>): seq<Step> {
    if |place| == 0 then []
    else PlaceSteps(place[..|place| - 1]) + OptionStep(place[|place| - 1], |place| == 1)
  }

  function Steps(w: Work): seq<Step> {
    OptionStep(w.pfor, !w.direct) + OptionStep(w.pivco, true) + PlaceSteps(w.place)
  }

  // Queues steps until one fails.
  function Submitted(s: Gpu, steps: seq<Step>, stream: nat): (r: (Gpu, bool))
    requires Shape(s)
    ensures Shape(r.0)
    decreases |steps|
  {
    if |steps| == 0 then (s, false)
    else
      var before := Submitted(s, steps[..|steps| - 1], stream);
      if before.1 then before
      else Queued(before.0, steps[|steps| - 1].0, steps[|steps| - 1].1, stream)
  }

  function RoundUp(value: nat, to: nat): nat
    requires 0 < to
  {
    if value > SIZE_MAX - (to - 1) then SIZE_MAX else (value + to - 1) / to * to
  }

  function DeviceBytes(w: Work): nat {
    if w.pivco.Some? then (if w.direct then 0 else RoundUp(w.pforBytes, STAGING_ALIGNMENT)) + w.pivcoBytes
    else if w.direct then 0
    else w.pforBytes
  }

  // What the planners give: device frames have bytes, and only frames that are
  // not written in place leave device copies.
  predicate WorkOk(w: Work) {
    && |w.place| == SOURCES
    && (w.pfor.Some? ==> 0 < w.pforBytes)
    && (w.pivco.Some? ==> 0 < w.pivcoBytes)
    && (w.place[0].Some? ==> !w.direct && (w.pfor.Some? || w.pivco.Some?))
  }

  predicate CallOk(call: Call) {
    call.DecodeCall? && call.decode.work.Some? ==> WorkOk(call.decode.work.value)
  }

  // The part of decode_ex after the arena reset up to the label done.
  function Run(s: Gpu, d: Decode, ok: Waits): (r: (Gpu, bool))
    requires Shape(s)
    ensures Shape(r.0)
  {
    if d.work.None? then (s, true)
    else
      var w := d.work.value;
      var need := DeviceBytes(w);
      var scratched := if need != 0 then Scratched(s, need, w.granted, ok) else (s, false);
      if scratched.1 || !w.listed || !w.wrapped then (scratched.0, true)
      else Submitted(Targeted(scratched.0), Steps(w), d.stream)
  }

  function Targeted(s: Gpu): (t: Gpu)
    requires Shape(s)
    ensures Shape(t)
  {
    s.(waves := s.waves[s.wave := s.waves[s.wave].(target := true)])
  }

  // geozl_gpu_arena_reset on the current wave.
  function Reset(s: Gpu): (t: Gpu)
    requires Shape(s)
    ensures Shape(t)
  {
    s.(waves := s.waves[s.wave := s.waves[s.wave].(resets := s.waves[s.wave].resets + 1)])
  }

  /** geozl_gpu_decode_ex, and whether it failed. */
  function Decoded(s: Gpu, d: Decode, ok: Waits): (r: (Gpu, bool))
    requires Shape(s)
    ensures Shape(r.0)
  {
    var begun := Begun(s, d.stream, ok);
    if begun.1 || !d.valid then (begun.0, true)
    else if d.copies == 0 then (begun.0, false)
    else if !d.ready then (begun.0, true)
    else
      var run := Run(Reset(begun.0), d, ok);
      if run.1 then (Drained(run.0), true) else run
  }

  function Stepped(s: Gpu, call: Call, ok: Waits): (r: (Gpu, bool))
    requires Shape(s)
    ensures Shape(r.0)
  {
    match call
    case DecodeCall(d) => Decoded(s, d, ok)
    case Synchronize => (Drained(s), !PendingOk(s, ok))
  }

  const START: Gpu := Gpu(true, [Wave([], false, 0), Wave([], false, 0)], 0, 0, None, 0, 0, [])

  function Started(cuda: bool): (s: Gpu)
    ensures Shape(s)
  {
    START.(cuda := cuda)
  }

  // ---------- what every call keeps ----------

  // A pending batch: on the recorded stream, its staging not reset since, its
  // scratch not replaced since.
  predicate Live(s: Gpu, w: nat, b: Batch)
    requires Shape(s) && w < 2
  {
    && b.stream == s.stream
    && b.resets == s.waves[w].resets
    && (b.scratch.Some? ==> s.scratch.Some? && s.scratch.value.id == b.scratch.value)
  }

  predicate WaveOk(s: Gpu, w: nat)
    requires Shape(s) && w < 2
  {
    && |s.waves[w].batches| <= MAX_WAVE_BATCHES
    && (s.waves[w].batches != [] ==> s.waves[w].target)
    && forall i :: 0 <= i < |s.waves[w].batches| ==> Live(s, w, s.waves[w].batches[i])
  }

  // Batches leave in the order they came: those retired, then the older wave's,
  // then the current wave's are all the batches ever made, each once.
  predicate InOrder(s: Gpu)
    requires Shape(s)
  {
    Ids(s.retired + s.waves[Other(s)].batches + s.waves[s.wave].batches) == seq(s.made, i => i)
  }

  function Ids(batches: seq<Batch>): seq<nat> {
    seq(|batches|, i requires 0 <= i < |batches| => batches[i].id)
  }

  predicate Invariant(s: Gpu) {
    && Shape(s)
    && WaveOk(s, 0) && WaveOk(s, 1)
    && InOrder(s)
    && (!s.cuda ==> s.waves[Other(s)].batches == [])
    && (s.scratch.Some? ==> s.scratch.value.id < s.memories)
  }

  predicate Idle(s: Gpu)
    requires Shape(s)
  {
    s.waves[0] == Wave([], false, s.waves[0].resets) && s.waves[1] == Wave([], false, s.waves[1].resets)
  }

  lemma StartInvariant(cuda: bool)
    ensures Invariant(Started(cuda)) && Idle(Started(cuda))
  {
    assert Ids([]) == seq(0, i => i);
  }

  lemma {:induction false} FinishedOther(s: Gpu)
    requires Invariant(s)
    ensures Invariant(Finished(s, Other(s)))
  {
    var t := Finished(s, Other(s));
    assert t.retired + t.waves[Other(t)].batches + t.waves[t.wave].batches
        == s.retired + s.waves[Other(s)].batches + s.waves[s.wave].batches;
    WaveKept(s, t, s.wave);
  }

  lemma WaveKept(s: Gpu, t: Gpu, w: nat)
    requires Shape(s) && Shape(t) && w < 2 && WaveOk(s, w)
    requires t.waves[w] == s.waves[w] && t.stream == s.stream && t.scratch == s.scratch
    ensures WaveOk(t, w)
  {
    forall i | 0 <= i < |t.waves[w].batches|
      ensures Live(t, w, t.waves[w].batches[i])
    {
      assert Live(s, w, s.waves[w].batches[i]);
    }
  }

  /** finish_pending leaves nothing pending, in any state a call can reach. */
  lemma {:induction false} DrainedInvariant(s: Gpu, stream: nat)
    requires Invariant(s)
    ensures Invariant(Drained(s.(stream := stream))) && Idle(Drained(s.(stream := stream)))
    ensures Drained(s.(stream := stream)).stream == stream
    ensures Drained(s.(stream := stream)).retired
         == s.retired + s.waves[Other(s)].batches + s.waves[s.wave].batches
  {
    var now := s.(stream := stream);
    var t := Drained(now);
    assert t.retired == s.retired + s.waves[Other(s)].batches + s.waves[s.wave].batches;
    assert t.retired + [] + [] == t.retired;
  }

  /** After begin_wave the current wave is empty and whatever is still pending is
      on the stream of the new call. */
  lemma {:induction false} BegunInvariant(s: Gpu, stream: nat, ok: Waits)
    requires Invariant(s)
    ensures var r := Begun(s, stream, ok);
      && Invariant(r.0)
      && r.0.stream == stream
      && r.0.waves[r.0.wave] == Wave([], false, r.0.waves[r.0.wave].resets)
      && (r.1 ==> Idle(r.0))
  {
    hide InOrder, WaveOk, Drained, Finished;
    DrainedInvariant(s, stream);
    if Overlaps(s, stream) {
      BegunOverlap(s, stream, ok);
    } else {
      IdleWave(Drained(s.(stream := stream)));
    }
  }

  lemma IdleWave(s: Gpu)
    requires Shape(s) && Idle(s)
    ensures s.waves[s.wave] == Wave([], false, s.waves[s.wave].resets)
  {
  }

  lemma {:induction false} BegunOverlap(s: Gpu, stream: nat, ok: Waits)
    requires Invariant(s) && Overlaps(s, stream)
    ensures var r := Begun(s, stream, ok);
      && Invariant(r.0)
      && r.0.stream == stream
      && r.0.waves[r.0.wave] == Wave([], false, r.0.waves[r.0.wave].resets)
      && (r.1 ==> Idle(r.0))
  {
    var now := s.(stream := stream);
    var done := Finished(now, Other(now));
    FinishedOther(s);
    FinishedRestream(s, stream);
    assert Invariant(done);
    DrainedInvariant(done, stream);
    var t := done.(wave := Other(now));
    assert t.retired + t.waves[Other(t)].batches + t.waves[t.wave].batches
        == done.retired + done.waves[Other(done)].batches + done.waves[done.wave].batches;
    WaveKept(done, t, 0);
    WaveKept(done, t, 1);
    assert done.(stream := stream) == done;
    IdleWave(Drained(done));
  }

  // Once the older wave is done, a wave with nothing in it or the same stream
  // makes the change of stream harmless.
  lemma FinishedRestream(s: Gpu, stream: nat)
    requires Shape(s) && Overlaps(s, stream) && Invariant(Finished(s, Other(s)))
    ensures Invariant(Finished(s.(stream := stream), Other(s)))
  {
    var a := Finished(s, Other(s));
    var b := Finished(s.(stream := stream), Other(s));
    assert b == a.(stream := stream);
    assert b.waves[b.wave].batches == [] || b == a;
  }

  /** ensure_scratch replaces the scratch only with nothing pending; on success
      there is one of at least the bytes asked for. */
  lemma {:induction false} ScratchedInvariant(s: Gpu, bytes: nat, granted: bool, ok: Waits)
    requires Invariant(s)
    ensures var r := Scratched(s, bytes, granted, ok);
      && Invariant(r.0)
      && r.0.stream == s.stream && r.0.wave == s.wave
      && (s.waves[s.wave].batches == [] ==> r.0.waves[r.0.wave].batches == [])
      && (r.0.scratch != s.scratch ==> Idle(r.0))
      && (!r.1 ==> r.0.scratch.Some? && bytes <= r.0.scratch.value.bytes)
  {
    hide Invariant, WaveOk, InOrder, PendingOk;
    InvariantShape(s);
    DrainedInvariant(s, s.stream);
    assert s.(stream := s.stream) == s;
    var t := Drained(s);
    IdleRescratched(t, bytes);
  }

  lemma InvariantShape(s: Gpu)
    requires Invariant(s)
    ensures Shape(s)
  {
  }

  lemma IdleRescratched(s: Gpu, bytes: nat)
    requires Invariant(s) && Idle(s)
    ensures var t := s.(scratch := Some(Memory(s.memories, Grown(bytes))), memories := s.memories + 1);
      Invariant(t) && Idle(t)
    ensures Invariant(s.(scratch := None)) && Idle(s.(scratch := None))
  {
  }

  lemma {:induction false} QueuedInvariant(s: Gpu, launch: Launch, uses: bool)
    requires Invariant(s) && s.waves[s.wave].target && |s.waves[s.wave].batches| < MAX_WAVE_BATCHES
    ensures var t := Queued(s, launch, uses, s.stream).0;
      && Invariant(t)
      && t.stream == s.stream && t.scratch == s.scratch && t.wave == s.wave
      && t.waves[t.wave].target
      && |t.waves[t.wave].batches| <= |s.waves[s.wave].batches| + 1
      && t.retired == s.retired
  {
    var t := Queued(s, launch, uses, s.stream).0;
    if launch.created {
      var b := Batch(s.made, s.stream, s.waves[s.wave].resets, ScratchUsed(s, uses));
      WaveKept(s, t, Other(s));
      GrownWave(s, t, b);
      var before := s.retired + s.waves[Other(s)].batches + s.waves[s.wave].batches;
      assert t.retired + t.waves[Other(t)].batches + t.waves[t.wave].batches == before + [b];
      IdsGrow(before, b, s.made);
    }
  }

  lemma GrownWave(s: Gpu, t: Gpu, b: Batch)
    requires Shape(s) && Shape(t) && WaveOk(s, s.wave) && s.waves[s.wave].target
    requires |s.waves[s.wave].batches| < MAX_WAVE_BATCHES && Live(s, s.wave, b)
    requires t == s.(waves := s.waves[s.wave := s.waves[s.wave].(batches := s.waves[s.wave].batches + [b])],
      made := s.made + 1)
    ensures WaveOk(t, t.wave)
  {
    forall i | 0 <= i < |t.waves[t.wave].batches|
      ensures Live(t, t.wave, t.waves[t.wave].batches[i])
    {
      if i < |s.waves[s.wave].batches| {
        assert Live(s, s.wave, s.waves[s.wave].batches[i]);
      }
    }
  }

  lemma IdsGrow(before: seq<Batch>, b: Batch, n: nat)
    requires Ids(before) == seq(n, i => i) && b.id == n
    ensures Ids(before + [b]) == seq(n + 1, i => i)
  {
    assert |before| == n;
    forall i | 0 <= i < n
      ensures Ids(before + [b])[i] == i
    {
      assert Ids(before)[i] == i;
    }
  }

  lemma {:induction false} SubmittedInvariant(s: Gpu, steps: seq<Step>)
    requires Invariant(s) && s.waves[s.wave].target
    requires |s.waves[s.wave].batches| + |steps| <= MAX_WAVE_BATCHES
    ensures var t := Submitted(s, steps, s.stream).0;
      && Invariant(t)
      && t.stream == s.stream && t.scratch == s.scratch && t.wave == s.wave
      && t.waves[t.wave].target
      && |t.waves[t.wave].batches| <= |s.waves[s.wave].batches| + |steps|
      && t.retired == s.retired
    decreases |steps|
  {
    hide Invariant, Queued;
    InvariantShape(s);
    if 0 < |steps| {
      var last := |steps| - 1;
      SubmittedInvariant(s, steps[..last]);
      var before := Submitted(s, steps[..last], s.stream);
      QueuedInvariant(before.0, steps[last].0, steps[last].1);
    }
  }

  lemma PlaceNone(place: seq<Option<Launch>>)
    requires |place| == 0
    ensures PlaceSteps(place) == []
  {
  }

  lemma {:induction false} PlaceStepsBound(place: seq<Option<Launch>>)
    ensures |PlaceSteps(place)| <= |place|
    decreases |place|
  {
    if 0 < |place| {
      PlaceStepsBound(place[..|place| - 1]);
    }
  }

  /** No call queues more batches than a wave has room for. */
  lemma StepsBound(w: Work)
    requires WorkOk(w)
    ensures |Steps(w)| <= MAX_WAVE_BATCHES
  {
    PlaceStepsBound(w.place);
  }

  lemma {:induction false} PlaceUses(place: seq<Option<Launch>>, k: nat)
    requires k < |PlaceSteps(place)| && PlaceSteps(place)[k].1
    ensures 0 < |place| && place[0].Some?
    decreases |place|
  {
    var last := |place| - 1;
    if k < |PlaceSteps(place[..last])| {
      PlaceUses(place[..last], k);
    }
  }

  /** Whatever uses the scratch comes with a need for it. */
  lemma UsesNeed(w: Work, k: nat)
    requires WorkOk(w) && k < |Steps(w)| && Steps(w)[k].1
    ensures 0 < DeviceBytes(w)
  {
    var front := OptionStep(w.pfor, !w.direct) + OptionStep(w.pivco, true);
    if |front| <= k {
      PlaceUses(w.place, k - |front|);
    }
  }

  /** A batch that uses the scratch finds one of at least the bytes it needs. */
  lemma ScratchReady(s: Gpu, w: Work, ok: Waits, k: nat)
    requires Invariant(s) && WorkOk(w) && k < |Steps(w)| && Steps(w)[k].1
    ensures DeviceBytes(w) != 0
    ensures var t := Scratched(s, DeviceBytes(w), w.granted, ok);
      !t.1 ==> t.0.scratch.Some? && DeviceBytes(w) <= t.0.scratch.value.bytes
    ensures var t := Scratched(s, DeviceBytes(w), w.granted, ok);
      !t.1 ==> ScratchUsed(t.0, Steps(w)[k].1) == Some(t.0.scratch.value.id)
  {
    UsesNeed(w, k);
    ScratchedInvariant(s, DeviceBytes(w), w.granted, ok);
  }

  lemma ResetInvariant(s: Gpu)
    requires Invariant(s) && s.waves[s.wave].batches == []
    ensures Invariant(Reset(s)) && Invariant(Targeted(Reset(s)))
    ensures Reset(s).waves[Reset(s).wave].batches == []
  {
    hide Ids;
    WaveKept(s, Reset(s), Other(s));
    WaveKept(s, Targeted(Reset(s)), Other(s));
  }

  lemma TargetedInvariant(s: Gpu)
    requires Invariant(s) && s.waves[s.wave].batches == []
    ensures Invariant(Targeted(s)) && Targeted(s).waves[Targeted(s).wave] == s.waves[s.wave].(target := true)
  {
    hide Ids;
    WaveKept(s, Targeted(s), Other(s));
  }

  lemma {:induction false} RunInvariant(s: Gpu, d: Decode, ok: Waits)
    requires Invariant(s) && s.waves[s.wave].batches == [] && s.stream == d.stream
    requires d.work.Some? ==> WorkOk(d.work.value)
    ensures Invariant(Run(s, d, ok).0) && Run(s, d, ok).0.stream == d.stream
  {
    hide Invariant, Scratched, Submitted, Steps, WorkOk, Targeted;
    InvariantShape(s);
    if d.work.Some? {
      var w := d.work.value;
      ScratchedInvariant(s, DeviceBytes(w), w.granted, ok);
      var t := if DeviceBytes(w) != 0 then Scratched(s, DeviceBytes(w), w.granted, ok).0 else s;
      TargetedInvariant(t);
      StepsBound(w);
      assert Targeted(t).stream == t.stream by { TargetedStream(t); }
      SubmittedInvariant(Targeted(t), Steps(w));
    }
  }

  lemma TargetedStream(s: Gpu)
    requires Shape(s)
    ensures Targeted(s).stream == s.stream
  {
  }

  lemma {:induction false} SteppedInvariant(s: Gpu, call: Call, ok: Waits)
    requires Invariant(s) && CallOk(call)
    ensures Invariant(Stepped(s, call, ok).0)
    ensures call.Synchronize? ==> Idle(Stepped(s, call, ok).0)
    ensures call.DecodeCall? ==> Stepped(s, call, ok).0.stream == call.decode.stream
  {
    hide Invariant, Begun, Run, Drained, Idle, Reset;
    InvariantShape(s);
    DrainedInvariant(s, s.stream);
    assert s.(stream := s.stream) == s;
    if call.DecodeCall? {
      var d := call.decode;
      BegunInvariant(s, d.stream, ok);
      var begun := Begun(s, d.stream, ok).0;
      if !Begun(s, d.stream, ok).1 {
        ResetInvariant(begun);
        ResetStream(begun);
        var run := Run(Reset(begun), d, ok);
        RunInvariant(Reset(begun), d, ok);
        InvariantShape(run.0);
        DrainedInvariant(run.0, run.0.stream);
        assert run.0.(stream := run.0.stream) == run.0;
      }
    }
  }

  lemma ResetStream(s: Gpu)
    requires Shape(s)
    ensures Reset(s).stream == s.stream && Reset(s).wave == s.wave
  {
  }

  // ---------- whole runs ----------

  function After(s: Gpu, calls: seq<(Call, Waits)>): (t: Gpu)
    requires Shape(s)
    ensures Shape(t)
    decreases |calls|
  {
    if |calls| == 0 then s
    else Stepped(After(s, calls[..|calls| - 1]), calls[|calls| - 1].0, calls[|calls| - 1].1).0
  }

  /** Over every run of calls from a new decoder, whatever the device answers:
      every pending batch is on the recorded stream over staging that was not
      reset and scratch that was not replaced, no wave holds more than its
      batches' array, and batches are retired in the order they were queued,
      each once. */
  lemma {:induction false} EveryRun(cuda: bool, calls: seq<(Call, Waits)>)
    requires forall k :: 0 <= k < |calls| ==> CallOk(calls[k].0)
    ensures Invariant(After(Started(cuda), calls))
    decreases |calls|
  {
    hide Invariant, Stepped, CallOk;
    if |calls| == 0 {
      StartInvariant(cuda);
    } else {
      var last := |calls| - 1;
      EveryRun(cuda, calls[..last]);
      SteppedInvariant(After(Started(cuda), calls[..last]), calls[last].0, calls[last].1);
    }
  }

  // ---------- no failed batch goes unreported ----------

  // From s to t the batches retired all waited without error.
  predicate RetiresOk(s: Gpu, t: Gpu, ok: Waits) {
    && |s.retired| <= |t.retired|
    && t.retired[..|s.retired|] == s.retired
    && forall k :: |s.retired| <= k < |t.retired| ==> ok(t.retired[k])
  }

  lemma RetiresTwice(s: Gpu, t: Gpu, u: Gpu, ok: Waits)
    requires RetiresOk(s, t, ok) && RetiresOk(t, u, ok)
    ensures RetiresOk(s, u, ok)
  {
    forall k | |s.retired| <= k < |u.retired|
      ensures ok(u.retired[k])
    {
      if k < |t.retired| {
        assert u.retired[k] == u.retired[..|t.retired|][k];
      }
    }
    assert u.retired[..|s.retired|] == u.retired[..|t.retired|][..|s.retired|];
  }

  lemma FinishedOk(s: Gpu, w: nat, ok: Waits)
    requires Shape(s) && w < 2 && AllOk(s.waves[w].batches, ok)
    ensures RetiresOk(s, Finished(s, w), ok)
  {
  }

  lemma {:induction false} DrainedOk(s: Gpu, ok: Waits)
    requires Shape(s) && PendingOk(s, ok)
    ensures RetiresOk(s, Drained(s), ok)
  {
    hide AllOk, RetiresOk;
    FinishedOk(s, Other(s), ok);
    var t := Finished(s, Other(s));
    assert t.waves[s.wave] == s.waves[s.wave];
    FinishedOk(t, s.wave, ok);
    RetiresTwice(s, t, Drained(s), ok);
  }

  lemma {:induction false} SubmittedOk(s: Gpu, steps: seq<Step>, stream: nat)
    requires Shape(s)
    ensures Submitted(s, steps, stream).0.retired == s.retired
    decreases |steps|
  {
    if 0 < |steps| {
      SubmittedOk(s, steps[..|steps| - 1], stream);
    }
  }

  /** A call that returns success retired no batch that failed: an error on the
      device is reported by the call that first finishes the batch. */
  lemma {:induction false} FailuresReported(s: Gpu, call: Call, ok: Waits)
    requires Shape(s) && !Stepped(s, call, ok).1
    ensures RetiresOk(s, Stepped(s, call, ok).0, ok)
  {
    hide AllOk, RetiresOk, Drained, Finished, Submitted, Steps, WorkOk;
    if call.Synchronize? {
      DrainedOk(s, ok);
    } else {
      var d := call.decode;
      var now := s.(stream := d.stream);
      var begun := Begun(s, d.stream, ok).0;
      assert RetiresOk(s, begun, ok) by {
        SameRetired(s, now, now, ok);
        BegunOk(s, d.stream, ok);
      }
      if d.copies != 0 {
        var w := d.work.value;
        var reset := Reset(begun);
        var t := if DeviceBytes(w) != 0 then Scratched(reset, DeviceBytes(w), w.granted, ok).0 else reset;
        SameRetired(reset, reset, reset, ok);
        if DeviceBytes(w) != 0 {
          ScratchedOk(reset, DeviceBytes(w), w.granted, ok);
        }
        SubmittedOk(Targeted(t), Steps(w), d.stream);
        SameRetired(begun, reset, t, ok);
        RetiresTwice(s, begun, t, ok);
        SameRetired(t, t, Stepped(s, call, ok).0, ok);
        RetiresTwice(s, t, Stepped(s, call, ok).0, ok);
      }
    }
  }

  lemma SameRetired(s: Gpu, t: Gpu, u: Gpu, ok: Waits)
    requires s.retired == t.retired
    ensures t.retired == u.retired ==> RetiresOk(s, u, ok)
    ensures RetiresOk(t, u, ok) ==> RetiresOk(s, u, ok)
  {
  }

  lemma BegunOk(s: Gpu, stream: nat, ok: Waits)
    requires Shape(s) && !Begun(s, stream, ok).1
    ensures RetiresOk(s, Begun(s, stream, ok).0, ok)
  {
    hide AllOk, RetiresOk, Drained;
    var now := s.(stream := stream);
    if Overlaps(s, stream) {
      FinishedOk(now, Other(now), ok);
      SameRetired(s, now, Finished(now, Other(now)), ok);
      SameRetired(s, s, s, ok);
      SameRetired(Finished(now, Other(now)), Finished(now, Other(now)), Begun(s, stream, ok).0, ok);
      RetiresTwice(s, Finished(now, Other(now)), Begun(s, stream, ok).0, ok);
    } else {
      DrainedOk(now, ok);
      SameRetired(s, now, Drained(now), ok);
    }
  }

  lemma ScratchedOk(s: Gpu, bytes: nat, granted: bool, ok: Waits)
    requires Shape(s) && !Scratched(s, bytes, granted, ok).1
    ensures RetiresOk(s, Scratched(s, bytes, granted, ok).0, ok)
  {
    hide AllOk, RetiresOk, Drained, PendingOk;
    var t := Scratched(s, bytes, granted, ok).0;
    if t == s {
      SameRetired(s, s, s, ok);
    } else {
      DrainedOk(s, ok);
      SameRetired(Drained(s), Drained(s), t, ok);
      RetiresTwice(s, Drained(s), t, ok);
    }
  }

  // ---------- the decoder itself ----------

  class WaveBuffers {
    const batches: array<Batch>
    var batchCount: nat
    var target: bool
    var resets: nat

    ghost predicate Valid()
      reads this
    {
      batches.Length == MAX_WAVE_BATCHES && batchCount <= MAX_WAVE_BATCHES
    }

    ghost function Value(): Wave
      requires Valid()
      reads this, batches
    {
      Wave(batches[..batchCount], target, resets)
    }

    constructor ()
      ensures Valid() && fresh(batches)
      ensures Value() == Wave([], false, 0)
    {
      batches := new Batch[MAX_WAVE_BATCHES](i => Batch(0, 0, 0, None));
      batchCount := 0;
      target := false;
      resets := 0;
    }

    // finish_wave: waits until one wait fails, destroys every batch.
    method Finish(ok: Waits) returns (failed: bool)
      requires Valid()
      modifies this
      ensures Valid()
      ensures Value() == Wave([], false, old(resets))
      ensures failed == !AllOk(old(batches[..batchCount]), ok)
    {
      failed := false;
      ghost var all := batches[..batchCount];
      var i: nat := 0;
      while i < batchCount
        invariant i <= batchCount
        invariant failed == !AllOk(all[..i], ok)
        modifies {}
      {
        AllOkStep(all, i, ok);
        if !failed && !ok(batches[i]) {
          failed := true;
        }
        i := i + 1;
      }
      assert all[..i] == all;
      batchCount := 0;
      target := false;
    }
  }

  lemma AllOkStep(batches: seq<Batch>, i: nat, ok: Waits)
    requires i < |batches|
    ensures AllOk(batches[..i + 1], ok) == (AllOk(batches[..i], ok) && ok(batches[i]))
  {
    assert batches[..i + 1] == batches[..i] + [batches[i]];
    if AllOk(batches[..i + 1], ok) {
      assert batches[i] in batches[..i + 1];
    }
  }

  class Decoder {
    const cuda: bool
    const first: WaveBuffers
    const second: WaveBuffers
    var wave: nat
    var stream: nat
    var scratch: Option<Memory>
    var made: nat
    var memories: nat
    ghost var retired: seq<Batch>

    ghost predicate Valid()
      reads this, first, second
    {
      && first.Valid() && second.Valid() && wave < 2
      && first != second && first.batches != second.batches
    }

    ghost function State(): Gpu
      requires Valid()
      reads this, first, second, first.batches, second.batches
    {
      Gpu(cuda, [first.Value(), second.Value()], wave, stream, scratch, made, memories, retired)
    }

    constructor (cuda: bool)
      ensures Valid() && fresh({first, second}) && fresh({first.batches, second.batches})
      ensures State() == Started(cuda)
    {
      this.cuda := cuda;
      first := new WaveBuffers();
      second := new WaveBuffers();
      wave := 0;
      stream := 0;
      scratch := None;
      made := 0;
      memories := 0;
      retired := [];
    }

    function At(w: nat): WaveBuffers {
      if w == 0 then first else second
    }

    method FinishWave(w: nat, ok: Waits) returns (failed: bool)
      requires Valid() && w < 2
      modifies this`retired, first, second
      ensures Valid()
      ensures State() == Finished(old(State()), w)
      ensures failed == !AllOk(old(State()).waves[w].batches, ok)
    {
      hide AllOk;
      ghost var s := State();
      failed := At(w).Finish(ok);
      retired := retired + s.waves[w].batches;
      assert State().waves == s.waves[w := Wave([], false, s.waves[w].resets)];
    }

    method FinishPending(ok: Waits) returns (failed: bool)
      requires Valid()
      modifies this`retired, first, second
      ensures Valid()
      ensures State() == Drained(old(State()))
      ensures failed == !PendingOk(old(State()), ok)
    {
      hide AllOk;
      ghost var s := State();
      var older := FinishWave(1 - wave, ok);
      var newer := FinishWave(wave, ok);
      failed := newer || older;
      assert Finished(s, Other(s)).waves[s.wave] == s.waves[s.wave];
    }

    method BeginWave(stream: nat, ok: Waits) returns (failed: bool)
      requires Valid()
      modifies this, first, second
      ensures Valid()
      ensures (State(), failed) == Begun(old(State()), stream, ok)
    {
      hide AllOk, Drained, Finished, PendingOk;
      ghost var s := State();
      var overlap := cuda && (At(wave).batchCount == 0 || stream == this.stream);
      assert overlap == Overlaps(s, stream);
      this.stream := stream;
      assert State() == s.(stream := stream);
      if !overlap {
        failed := FinishPending(ok);
        return;
      }
      failed := FinishWave(1 - wave, ok);
      if failed {
        var again := FinishPending(ok);
      } else {
        wave := 1 - wave;
      }
    }

    method EnsureScratch(bytes: nat, granted: bool, ok: Waits) returns (failed: bool)
      requires Valid()
      modifies this, first, second
      ensures Valid()
      ensures (State(), failed) == Scratched(old(State()), bytes, granted, ok)
    {
      hide AllOk, Drained, PendingOk;
      if scratch.Some? && scratch.value.bytes >= bytes {
        return false;
      }
      failed := FinishPending(ok);
      if !failed {
        scratch := None;
        if granted {
          scratch := Some(Memory(memories, Grown(bytes)));
          memories := memories + 1;
        }
        failed := scratch.None?;
      }
    }

    // queue on the current wave; the array has a free place.
    method Queue(launch: Launch, uses: bool, stream: nat) returns (failed: bool)
      requires Valid() && At(wave).batchCount < MAX_WAVE_BATCHES
      modifies this, first, second, first.batches, second.batches
      ensures Valid()
      ensures (State(), failed) == Queued(old(State()), launch, uses, stream)
    {
      hide WorkOk;
      ghost var s := State();
      if !launch.created {
        return true;
      }
      var w := At(wave);
      ghost var batch := Batch(made, stream, w.resets, ScratchUsed(s, uses));
      w.batches[w.batchCount] :=
        Batch(made, stream, w.resets, if uses && scratch.Some? then Some(scratch.value.id) else None);
      w.batchCount := w.batchCount + 1;
      made := made + 1;
      failed := !launch.enqueued;
      assert At(wave).batches[..At(wave).batchCount] == s.waves[wave].batches + [batch];
      assert State().waves == s.waves[wave := s.waves[wave].(batches := s.waves[wave].batches + [batch])];
    }

    // An optional launch, after the launches queued so far.
    method QueueNext(before: bool, launch: Option<Launch>, uses: bool, stream: nat, ghost s: Gpu,
                     ghost steps: seq<Step>)
      returns (failed: bool)
      requires Valid() && Shape(s) && (State(), before) == Submitted(s, steps, stream)
      requires At(wave).batchCount < MAX_WAVE_BATCHES
      modifies this, first, second, first.batches, second.batches
      ensures Valid()
      ensures (State(), failed) == Submitted(s, steps + OptionStep(launch, uses), stream)
    {
      hide Queued;
      failed := before;
      SubmittedNext(s, steps, launch, uses, stream);
      if !before && launch.Some? {
        failed := Queue(launch.value, uses, stream);
      }
    }

    // The queueing part of decode_ex, PFOR, then PivCo, then the place sources.
    method Submit(w: Work, stream: nat) returns (failed: bool)
      requires Valid() && WorkOk(w) && At(wave).batchCount == 0
      modifies this, first, second, first.batches, second.batches
      ensures Valid()
      ensures (State(), failed) == Submitted(old(State()), Steps(w), stream)
    {
      hide Submitted, OptionStep, PlaceSteps;
      ghost var s := State();
      SubmittedNone(s, stream);
      failed := QueueNext(false, w.pfor, !w.direct, stream, s, []);
      ghost var steps := OptionStep(w.pfor, !w.direct);
      assert [] + steps == steps;
      Room(s, steps, stream);
      OptionStepBound(w.pfor, !w.direct);
      OptionStepBound(w.pivco, true);
      failed := QueueNext(failed, w.pivco, true, stream, s, steps);
      steps := steps + OptionStep(w.pivco, true);
      Room(s, steps, stream);
      var i: nat := 0;
      PlaceNone(w.place[..0]);
      assert steps + PlaceSteps(w.place[..0]) == steps;
      while i < SOURCES
        invariant i <= SOURCES && |steps| <= 2
        invariant Valid()
        invariant (State(), failed) == Submitted(s, steps + PlaceSteps(w.place[..i]), stream)
      {
        PlaceNext(w.place, i);
        PlaceStepsBound(w.place[..i]);
        Room(s, steps + PlaceSteps(w.place[..i]), stream);
        ghost var so := steps + PlaceSteps(w.place[..i]);
        failed := QueueNext(failed, w.place[i], i == 0, stream, s, so);
        assert so + OptionStep(w.place[i], i == 0) == steps + PlaceSteps(w.place[..i + 1]);
        i := i + 1;
      }
      assert w.place[..SOURCES] == w.place;
    }

    /** geozl_gpu_decode_ex. */
    method DecodeEx(d: Decode, ok: Waits) returns (failed: bool)
      requires Valid() && Invariant(State()) && CallOk(DecodeCall(d))
      modifies this, first, second, first.batches, second.batches
      ensures Valid() && Invariant(State())
      ensures (State(), failed) == Decoded(old(State()), d, ok)
    {
      hide Invariant, Begun, Run, Drained, PendingOk, WorkOk;
      ghost var s := State();
      SteppedInvariant(s, DecodeCall(d), ok);
      BegunInvariant(s, d.stream, ok);
      failed := BeginWave(d.stream, ok);
      if failed || !d.valid {
        return true;
      }
      if d.copies == 0 || !d.ready {
        return d.copies != 0;
      }
      At(wave).resets := At(wave).resets + 1;
      assert State() == Reset(Begun(s, d.stream, ok).0);
      ResetInvariant(Begun(s, d.stream, ok).0);
      assert At(wave).batches[..At(wave).batchCount] == [];
      failed := RunWork(d, ok);
      if failed {
        var again := FinishPending(ok);
      }
    }

    method RunWork(d: Decode, ok: Waits) returns (failed: bool)
      requires Valid() && At(wave).batchCount == 0 && Invariant(State())
      requires d.work.Some? ==> WorkOk(d.work.value)
      modifies this, first, second, first.batches, second.batches
      ensures Valid()
      ensures (State(), failed) == Run(old(State()), d, ok)
    {
      hide Invariant, Scratched, Submitted, Steps, WorkOk;
      ghost var s := State();
      if d.work.None? {
        return true;
      }
      var w := d.work.value;
      ScratchedInvariant(s, DeviceBytes(w), w.granted, ok);
      failed := false;
      if DeviceBytes(w) != 0 {
        failed := EnsureScratch(DeviceBytes(w), w.granted, ok);
      }
      if failed || !w.listed || !w.wrapped {
        return true;
      }
      assert State().waves[wave].batches == [];
      ghost var t := State();
      At(wave).target := true;
      assert State() == Targeted(t);
      failed := Submit(w, d.stream);
    }

    method Sync(ok: Waits) returns (failed: bool)
      requires Valid()
      modifies this, first, second
      ensures Valid()
      ensures (State(), failed) == Stepped(old(State()), Synchronize, ok)
    {
      failed := FinishPending(ok);
    }

    /** geozl_gpu_destroy: the scratch goes only once nothing is pending. */
    method Destroy(ok: Waits)
      requires Valid() && Invariant(State())
      modifies this, first, second
      ensures Valid() && Idle(State()) && scratch == None
      ensures Ids(retired) == seq(made, i => i)
    {
      ghost var s := State();
      DrainedInvariant(s, s.stream);
      assert s.(stream := s.stream) == s;
      var failed := FinishPending(ok);
      scratch := None;
      assert retired + [] + [] == retired;
    }
  }

  lemma SubmittedNone(s: Gpu, stream: nat)
    requires Shape(s)
    ensures Submitted(s, [], stream) == (s, false)
  {
  }

  lemma SubmittedNext(s: Gpu, steps: seq<Step>, launch: Option<Launch>, uses: bool, stream: nat)
    requires Shape(s)
    ensures var before, all := Submitted(s, steps, stream), steps + OptionStep(launch, uses);
      Submitted(s, all, stream)
        == if before.1 || launch.None? then before else Queued(before.0, launch.value, uses, stream)
  {
    hide Queued;
    var all := steps + OptionStep(launch, uses);
    if launch.Some? {
      assert all[..|steps|] == steps;
    } else {
      assert all == steps;
    }
  }

  lemma OptionStepBound(launch: Option<Launch>, uses: bool)
    ensures |OptionStep(launch, uses)| <= 1
  {
  }

  lemma {:induction false} Room(s: Gpu, steps: seq<Step>, stream: nat)
    requires Shape(s)
    ensures var t := Submitted(s, steps, stream).0;
      t.wave == s.wave && |t.waves[t.wave].batches| <= |s.waves[s.wave].batches| + |steps|
    decreases |steps|
  {
    if 0 < |steps| {
      Room(s, steps[..|steps| - 1], stream);
    }
  }

  lemma PlaceNext(place: seq<Option<Launch>>, i: nat)
    requires i < |place|
    ensures PlaceSteps(place[..i + 1]) == PlaceSteps(place[..i]) + OptionStep(place[i], i == 0)
  {
    assert place[..i + 1][..i] == place[..i];
  }
}
