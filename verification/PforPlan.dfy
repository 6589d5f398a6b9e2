/** The GPU planner of PFOR frames: a second parser of the same wire format, and the
    task list of one frame. Batches and the threaded build are in PforBatch. */
module PforPlan {
  import opened Common
  import opened Words
  import opened Streams
  import opened PforFormat
  import opened PforDecode
  import opened BitIO
  import PlanPopcount
  import PforCodec

  datatype Frame = Frame(nbElts: nat, outOff: nat, payloadOffset: nat, payloadSize: nat, transform: nat)

  datatype Task = Task(payloadOffset: nat, outputBase: nat, count: nat, transform: nat)

  datatype Info = Info(bytes: nat, exceptions: nat)

  // ---------------------------------------------------------------------------
  // One block

  /** pfor_gpu_block_info: accepts exactly the blocks the decoder accepts, with the
      same size. */
  method BlockInfo(block: seq<Byte>, elementBytes: nat) returns (info: Option<Info>)
    ensures info.Some? <==> PforCodec.WidthOk(elementBytes) && Accepts(block, elementBytes)
    ensures info.Some? ==> info.value == Info(WireSize(block, elementBytes), HeaderOf(block).nexc)
  {
    if !PforCodec.WidthOk(elementBytes) || |block| < 2 {
      return None;
    }
    var bits, exceptions := FromByte(block[0]), FromByte(block[1]);
    if bits > elementBytes * 8 {
      return None;
    }
    var excBytes := 0;
    if exceptions != 0 {
      if |block| < 3 {
        return None;
      }
      var descriptor := FromByte(block[2]);
      if descriptor % 128 == 0 || bits + descriptor % 128 > elementBytes * 8 {
        return None;
      }
      excBytes := ExcBytes(exceptions, descriptor % 128, descriptor / 128 == 1);
    }
    var bytes := 2 + excBytes + BodyBytes(bits);
    if bytes > |block| {
      return None;
    }
    if exceptions != 0 {
      var ok := PositionsValid(block, exceptions, FromByte(block[2]) / 128 == 1);
      if !ok {
        return None;
      }
    }
    return Some(Info(bytes, exceptions));
  }

  /** The set bits of the 32-byte bitmap at byte 3, by the planner's own popcount64. */
  method BitmapCount(block: seq<Byte>) returns (count: nat)
    requires |block| >= 3 + BITMAP_BYTES
    ensures count == Rank(Marks(block, 0, false), BLOCK)
  {
    hide Rank;
    ghost var marks := Marks(block, 0, false);
    PlanPopcount.RankNone(marks);
    count := 0;
    for i := 0 to 4
      invariant count == Rank(marks, 64 * i)
    {
      var word := LoadLe64(block, 3 + 8 * i);
      forall k | 0 <= k < 64 ensures word[k] == marks[64 * i + k] {
        assert (8 * (3 + 8 * i) + k) / 8 == 3 + (64 * i + k) / 8;
      }
      RankWord(marks, word, 64 * i, 64);
      var ones := PlanPopcount.MultiplyPopcount64(word);
      count := count + ones;
    }
  }

  method PositionsValid(block: seq<Byte>, exceptions: nat, list: bool) returns (ok: bool)
    requires |block| >= 3 + PositionBytes(exceptions, list)
    ensures ok <==>
      if list then Ascending(block, exceptions) else Rank(Marks(block, exceptions, false), BLOCK) == exceptions
  {
    if !list {
      var count := BitmapCount(block);
      BitmapMarks(block, exceptions);
      return count == exceptions;
    }
    var i := 1;
    while i < exceptions
      invariant 1 <= i
      invariant forall a, b :: 0 <= a < b < i && b < exceptions ==> PosAt(block, a) < PosAt(block, b)
    {
      if PosAt(block, i - 1) >= PosAt(block, i) {
        return false;
      }
      i := i + 1;
    }
    return true;
  }

  // ---------------------------------------------------------------------------
  // One frame

  datatype Plan = Plan(tasks: seq<Task>, withExceptions: nat, exceptions: nat)

  const EMPTY := Plan([], 0, 0)

  function Join(a: Plan, b: Plan): Plan {
    Plan(a.tasks + b.tasks, a.withExceptions + b.withExceptions, a.exceptions + b.exceptions)
  }

  lemma JoinAssoc(a: Plan, b: Plan, c: Plan)
    ensures Join(Join(a, b), c) == Join(a, Join(b, c))
    ensures Join(EMPTY, a) == a == Join(a, EMPTY)
  {
  }

  /** How many exceptions the block at the front of w announces. */
  type Tally = seq<Byte> -> nat

  ghost function ExceptionTally(): Tally {
    w => if |w| >= 2 then HeaderOf(w).nexc else 0
  }

  function OneBlock(at: nat, out: nat, n: nat, transform: nat, exceptions: nat): Plan {
    Plan([Task(at, out, n, transform)], if exceptions != 0 then 1 else 0, exceptions)
  }

  /** The tasks of nb elements whose stream is w, at payload offset at and output
      index out: one task per block, while offsets fit in 32 bits. */
  ghost function FramePlan(f: Parser, x: Tally, w: seq<Byte>, nb: nat, at: nat, out: nat,
                           transform: nat): (p: Option<Plan>)
    requires Sound(f)
    decreases nb
  {
    if nb == 0 then
      if |w| == 0 then Some(EMPTY) else None
    else if f(w).None? || at > UINT32_MAX || out > UINT32_MAX then
      None
    else
      var size := f(w).value.0;
      var n := if nb < BLOCK then nb else BLOCK;
      var rest := FramePlan(f, x, w[size..], nb - n, at + size, out + n, transform);
      if rest.None? then None else Some(Join(OneBlock(at, out, n, transform, x(w)), rest.value))
  }

  /** A planned frame is a frame the decoder accepts. */
  lemma {:induction false} PlannedDecodes(f: Parser, x: Tally, w: seq<Byte>, nb: nat, at: nat, out: nat, transform: nat)
    requires Sound(f) && FramePlan(f, x, w, nb, at, out, transform).Some?
    ensures Stream(f, w, nb).Some?
    decreases nb
  {
    if nb > 0 {
      var size := f(w).value.0;
      var n := if nb < BLOCK then nb else BLOCK;
      PlannedDecodes(f, x, w[size..], nb - n, at + size, out + n, transform);
    }
  }

  /** And the other way round, when no offset passes 32 bits. */
  lemma {:induction false} DecodablePlans(f: Parser, x: Tally, w: seq<Byte>, nb: nat, at: nat, out: nat, transform: nat)
    requires Sound(f) && Stream(f, w, nb).Some? && at + |w| <= UINT32_MAX && out + nb <= UINT32_MAX
    ensures FramePlan(f, x, w, nb, at, out, transform).Some?
    decreases nb
  {
    if nb > 0 {
      var size := f(w).value.0;
      var n := if nb < BLOCK then nb else BLOCK;
      DecodablePlans(f, x, w[size..], nb - n, at + size, out + n, transform);
    }
  }

  /** Where task k of a frame ends in the payload: where the next one starts, or at
      the end of the frame. */
  function TaskEnd(tasks: seq<Task>, k: nat, end: nat): nat
    requires k < |tasks|
  {
    if k + 1 < |tasks| then tasks[k + 1].payloadOffset else end
  }

  /** Task k of nb elements at out reads one whole block and writes one run of the
      output; what it decodes is that run of what the decoder would give. */
  ghost predicate TaskTiles(f: Parser, w: seq<Byte>, nb: nat, at: nat, out: nat, tasks: seq<Task>, k: nat,
                            values: seq<Bits>)
    requires k < |tasks| && |values| == nb
  {
    var t := tasks[k];
    && BLOCK * k < nb
    && t.outputBase == out + BLOCK * k
    && t.count == (if nb - BLOCK * k < BLOCK then nb - BLOCK * k else BLOCK)
    && at <= t.payloadOffset <= at + |w|
    && f(w[t.payloadOffset - at..]).Some?
    && var block := f(w[t.payloadOffset - at..]).value;
    && |block.1| == BLOCK
    && t.payloadOffset + block.0 == TaskEnd(tasks, k, at + |w|)
    && values[BLOCK * k..BLOCK * k + t.count] == block.1[..t.count]
  }

  ghost predicate Planned(f: Parser, x: Tally, w: seq<Byte>, nb: nat, at: nat, out: nat, transform: nat,
                          tasks: seq<Task>)
    requires Sound(f)
  {
    var p := FramePlan(f, x, w, nb, at, out, transform);
    p.Some? && p.value.tasks == tasks
  }

  lemma FirstTask(f: Parser, x: Tally, w: seq<Byte>, nb: nat, at: nat, out: nat, transform: nat, tasks: seq<Task>)
    requires Sound(f) && nb > 0 && Planned(f, x, w, nb, at, out, transform, tasks)
    ensures f(w).Some? && |tasks| > 0
    ensures tasks[0] == Task(at, out, if nb < BLOCK then nb else BLOCK, transform)
    ensures var n := if nb < BLOCK then nb else BLOCK;
      Planned(f, x, w[f(w).value.0..], nb - n, at + f(w).value.0, out + n, transform, tasks[1..])
  {
    var size := f(w).value.0;
    var n := if nb < BLOCK then nb else BLOCK;
    var rest := FramePlan(f, x, w[size..], nb - n, at + size, out + n, transform).value;
    assert tasks == [Task(at, out, n, transform)] + rest.tasks;
  }

  lemma {:induction false} TaskCount(f: Parser, x: Tally, w: seq<Byte>, nb: nat, at: nat, out: nat, transform: nat,
                                     tasks: seq<Task>)
    requires Sound(f) && Planned(f, x, w, nb, at, out, transform, tasks)
    ensures |tasks| == (nb + BLOCK - 1) / BLOCK
    ensures nb == 0 ==> |w| == 0
    ensures nb > 0 ==> tasks[0].payloadOffset == at
    decreases nb
  {
    if nb > 0 {
      FirstTask(f, x, w, nb, at, out, transform, tasks);
      var n := if nb < BLOCK then nb else BLOCK;
      TaskCount(f, x, w[f(w).value.0..], nb - n, at + f(w).value.0, out + n, transform, tasks[1..]);
    }
  }

  /** The tasks tile the frame's payload and output without gap or overlap. */
  lemma {:induction false} FrameTiles(f: Parser, x: Tally, w: seq<Byte>, nb: nat, at: nat, out: nat, transform: nat,
                                      tasks: seq<Task>, k: nat, values: seq<Bits>)
    requires Sound(f) && Planned(f, x, w, nb, at, out, transform, tasks) && k < |tasks|
    requires Stream(f, w, nb) == Some(values)
    ensures tasks[k].transform == transform && TaskTiles(f, w, nb, at, out, tasks, k, values)
    decreases nb
  {
    TaskCount(f, x, w, nb, at, out, transform, tasks);
    FirstTask(f, x, w, nb, at, out, transform, tasks);
    StreamParts(f, w, nb);
    hide FramePlan, Planned, Stream, TaskTiles;
    if k == 0 {
      RestTasks(f, x, w, nb, at, out, transform, tasks);
      FirstTiles(f, w, nb, at, out, tasks);
    } else {
      assert nb > BLOCK;
      var size := f(w).value.0;
      var rest := Stream(f, w[size..], nb - BLOCK).value;
      FrameTiles(f, x, w[size..], nb - BLOCK, at + size, out + BLOCK, transform, tasks[1..], k - 1, rest);
      assert tasks[1..][k - 1] == tasks[k];
      TileShift(f, w, nb, at, out, tasks, tasks[1..], k, size);
    }
  }

  lemma RestTasks(f: Parser, x: Tally, w: seq<Byte>, nb: nat, at: nat, out: nat, transform: nat, tasks: seq<Task>)
    requires Sound(f) && nb > 0 && Planned(f, x, w, nb, at, out, transform, tasks)
    ensures f(w).Some? && |tasks| > 0
    ensures |tasks| == 1 ==> f(w).value.0 == |w|
    ensures |tasks| > 1 ==> tasks[1].payloadOffset == at + f(w).value.0
  {
    FirstTask(f, x, w, nb, at, out, transform, tasks);
    var n := if nb < BLOCK then nb else BLOCK;
    TaskCount(f, x, w[f(w).value.0..], nb - n, at + f(w).value.0, out + n, transform, tasks[1..]);
  }

  lemma FirstTiles(f: Parser, w: seq<Byte>, nb: nat, at: nat, out: nat, tasks: seq<Task>)
    requires Sound(f) && nb > 0 && |tasks| > 0 && f(w).Some? && Stream(f, w, nb).Some?
    requires tasks[0].payloadOffset == at && tasks[0].outputBase == out
      && tasks[0].count == if nb < BLOCK then nb else BLOCK
    requires |tasks| == 1 ==> f(w).value.0 == |w|
    requires |tasks| > 1 ==> tasks[1].payloadOffset == at + f(w).value.0
    ensures TaskTiles(f, w, nb, at, out, tasks, 0, Stream(f, w, nb).value)
  {
    StreamParts(f, w, nb);
    hide Stream;
    assert w[0..] == w;
    assert w[tasks[0].payloadOffset - at..] == w;
  }

  lemma TileShift(f: Parser, w: seq<Byte>, nb: nat, at: nat, out: nat, whole: seq<Task>, tail: seq<Task>, k: nat,
                  size: nat)
    requires Sound(f) && nb > BLOCK && 0 < k < |whole| == |tail| + 1 && whole[1..] == tail
    requires f(w).Some? && f(w).value.0 == size && Stream(f, w[size..], nb - BLOCK).Some? && Stream(f, w, nb).Some?
    requires TaskTiles(f, w[size..], nb - BLOCK, at + size, out + BLOCK, tail, k - 1,
      Stream(f, w[size..], nb - BLOCK).value)
    ensures TaskTiles(f, w, nb, at, out, whole, k, Stream(f, w, nb).value)
  {
    hide Stream, Sound;
    SoundAt(f, w);
    var t := whole[k];
    assert t == tail[k - 1];
    var p := t.payloadOffset - at;
    assert w[size..][p - size..] == w[p..];
    StreamParts(f, w, nb);
    var v, u := Stream(f, w, nb).value, Stream(f, w[size..], nb - BLOCK).value;
    assert v[BLOCK * k..BLOCK * k + t.count] == u[BLOCK * (k - 1)..BLOCK * (k - 1) + t.count];
    assert TaskEnd(whole, k, at + |w|) == TaskEnd(tail, k - 1, at + |w|);
  }

  function Blocks(nb: nat): nat { (nb + BLOCK - 1) / BLOCK }

  /** The frame's bytes. */
  function Window(frame: Frame, payload: seq<Byte>): seq<Byte>
    requires frame.payloadOffset + frame.payloadSize <= |payload|
  {
    payload[frame.payloadOffset..frame.payloadOffset + frame.payloadSize]
  }

  ghost function PlanOf(f: Parser, x: Tally, frame: Frame, payload: seq<Byte>): Option<Plan>
    requires Sound(f) && frame.payloadOffset + frame.payloadSize <= |payload|
  {
    FramePlan(f, x, Window(frame, payload), frame.nbElts, frame.payloadOffset, frame.outOff, frame.transform)
  }

  /** What a planning loop has done and what is left make up the whole. */
  ghost predicate Progress(whole: Option<Plan>, done: Plan, rest: Option<Plan>) {
    if rest.None? then whole.None? else whole == Some(Join(done, rest.value))
  }

  lemma ProgressStep(f: Parser, x: Tally, whole: Option<Plan>, done: Plan, w: seq<Byte>, nb: nat, at: nat, out: nat,
                     transform: nat)
    requires Sound(f) && nb > 0 && Progress(whole, done, FramePlan(f, x, w, nb, at, out, transform))
    ensures f(w).None? || at > UINT32_MAX || out > UINT32_MAX ==> whole.None?
    ensures f(w).Some? && at <= UINT32_MAX && out <= UINT32_MAX ==>
      var n := if nb < BLOCK then nb else BLOCK;
      Progress(whole, Join(done, OneBlock(at, out, n, transform, x(w))),
               FramePlan(f, x, w[f(w).value.0..], nb - n, at + f(w).value.0, out + n, transform))
  {
    if f(w).Some? && at <= UINT32_MAX && out <= UINT32_MAX {
      var n := if nb < BLOCK then nb else BLOCK;
      var rest := FramePlan(f, x, w[f(w).value.0..], nb - n, at + f(w).value.0, out + n, transform);
      if rest.Some? {
        JoinAssoc(done, OneBlock(at, out, n, transform, x(w)), rest.value);
      }
    }
  }

  /** Both parsers of one element size, as one assumption. */
  ghost predicate PlannerFor(f: Parser, x: Tally, E: EltBytes) {
    forall w {:trigger Accepts(w, E)} :: f(w) == FirstBlock(w, E) && x(w) == if |w| >= 2 then HeaderOf(w).nexc else 0
  }

  method NextBlock(w: seq<Byte>, E: EltBytes, ghost f: Parser, ghost x: Tally) returns (info: Option<Info>)
    requires PlannerFor(f, x, E)
    ensures info.Some? <==> f(w).Some?
    ensures info.Some? ==> info.value == Info(f(w).value.0, x(w))
  {
    info := BlockInfo(w, E);
  }

  /** Plans one parsed block into blocks[slot]. */
  method PlanBlock(blocks: array<Task>, slot: nat, frame: Frame, w: seq<Byte>, at: nat, done: nat,
                   parsed: Option<Info>, ghost f: Parser, ghost x: Tally, ghost whole: Option<Plan>, ghost plan: Plan)
    returns (ok: bool, n: nat)
    requires Sound(f) && slot < blocks.Length && done < frame.nbElts && PlanAt(f, x, whole, plan, w, at, frame, done)
    requires parsed.Some? <==> f(w[at..]).Some?
    requires parsed.Some? ==> parsed.value == Info(f(w[at..]).value.0, x(w[at..]))
    modifies blocks
    ensures !ok ==> whole.None?
    ensures n == if frame.nbElts - done < BLOCK then frame.nbElts - done else BLOCK
    ensures ok ==>
      parsed.Some? && blocks[slot] == Task(frame.payloadOffset + at, frame.outOff + done, n, frame.transform)
    ensures ok ==> at + parsed.value.bytes <= |w|
    ensures ok ==>
      PlanAt(f, x, whole,
        Join(plan,
          OneBlock(frame.payloadOffset + at, frame.outOff + done, n, frame.transform, parsed.value.exceptions)),
                          w, at + parsed.value.bytes, frame, done + n)
    ensures forall i :: 0 <= i < blocks.Length && i != slot ==> blocks[i] == old(blocks[i])
  {
    PlanNext(f, x, whole, plan, w, at, frame, done);
    n := if frame.nbElts - done < BLOCK then frame.nbElts - done else BLOCK;
    if parsed.None? || frame.payloadOffset + at > UINT32_MAX || frame.outOff + done > UINT32_MAX {
      return false, n;
    }
    blocks[slot] := Task(frame.payloadOffset + at, frame.outOff + done, n, frame.transform);
    ok := true;
  }

  lemma TaskAppended(before: Plan, after: seq<Task>, task: Task, exceptions: nat)
    requires after == before.tasks + [task]
    ensures Plan(after, before.withExceptions + (if exceptions != 0 then 1 else 0), before.exceptions + exceptions)
         == Join(before, OneBlock(task.payloadOffset, task.outputBase, task.count, task.transform, exceptions))
  {
  }

  lemma BlocksStep(nb: nat)
    requires nb > 0
    ensures Blocks(nb) == 1 + Blocks(nb - (if nb < BLOCK then nb else BLOCK))
  {
  }

  lemma SliceGrows<T>(before: seq<T>, after: seq<T>, lo: nat, hi: nat)
    requires lo <= hi < |before| == |after| && forall i :: 0 <= i < |before| && i != hi ==> after[i] == before[i]
    ensures after[lo..hi + 1] == before[lo..hi] + [after[hi]]
  {
  }

  /** One turn of the loop: the block at payload offset at goes to blocks[slot]. */
  method PlanStep(blocks: array<Task>, base: nat, slot: nat, counted: (nat, nat), frame: Frame, w: seq<Byte>, at: nat,
                  done: nat, E: EltBytes, ghost f: Parser, ghost x: Tally, ghost whole: Option<Plan>)
    returns (ok: bool, tally: (nat, nat), at': nat, done': nat)
    requires Sound(f) && PlannerFor(f, x, E) && base <= slot < blocks.Length && done < frame.nbElts
    requires PlanAt(f, x, whole, Plan(blocks[base..slot], counted.0, counted.1), w, at, frame, done)
    modifies blocks
    ensures !ok ==> whole.None?
    ensures done < done' <= frame.nbElts && Blocks(frame.nbElts - done) == 1 + Blocks(frame.nbElts - done')
    ensures ok ==> PlanAt(f, x, whole, Plan(blocks[base..slot + 1], tally.0, tally.1), w, at', frame, done')
    ensures forall i :: 0 <= i < base ==> blocks[i] == old(blocks[i])
  {
    hide PlanAt, FramePlan, Progress, Sound, PlannerFor, Blocks, Join, OneBlock;
    ghost var before := blocks[..];
    ghost var plan := Plan(blocks[base..slot], counted.0, counted.1);
    PlanWithin(f, x, whole, plan, w, at, frame, done);
    var parsed := NextBlock(w[at..], E, f, x);
    BlocksStep(frame.nbElts - done);
    var n;
    ok, n := PlanBlock(blocks, slot, frame, w, at, done, parsed, f, x, whole, plan);
    tally, at', done' := counted, at, done + n;
    if ok {
      SliceGrows(before, blocks[..], base, slot);
      TaskAppended(plan, blocks[base..slot + 1], blocks[slot], parsed.value.exceptions);
      at' := at + parsed.value.bytes;
      if parsed.value.exceptions != 0 {
        tally := (counted.0 + 1, counted.1 + parsed.value.exceptions);
      }
      assert Plan(blocks[base..slot + 1], tally.0, tally.1)
          == Join(plan,
            OneBlock(frame.payloadOffset + at, frame.outOff + done, n, frame.transform, parsed.value.exceptions));
    }
  }

  /** pfor_gpu_plan_frame: fills blocks from index base on. */
  method PlanFrame(blocks: array<Task>, base: nat, frame: Frame, payload: seq<Byte>, E: EltBytes, ghost f: Parser,
                   ghost x: Tally, ghost whole: Option<Plan>)
    returns (ok: bool, tally: (nat, nat))
    requires Sound(f) && PlannerFor(f, x, E) && frame.payloadOffset + frame.payloadSize <= |payload|
    requires base + Blocks(frame.nbElts) <= blocks.Length && whole == PlanOf(f, x, frame, payload)
    modifies blocks
    ensures !ok ==> whole.None?
    ensures ok ==> whole == Some(Plan(blocks[base..base + Blocks(frame.nbElts)], tally.0, tally.1))
    ensures forall i :: 0 <= i < base ==> blocks[i] == old(blocks[i])
  {
    var w := Window(frame, payload);
    tally := (0, 0);
    var at: nat, slot: nat, done: nat := 0, base, 0;
    PlanStart(f, x, frame, payload);
    assert blocks[base..base] == EMPTY.tasks;
    while done < frame.nbElts
      invariant done <= frame.nbElts && base <= slot
        && slot + Blocks(frame.nbElts - done) == base + Blocks(frame.nbElts)
      invariant PlanAt(f, x, whole, Plan(blocks[base..slot], tally.0, tally.1), w, at, frame, done)
      invariant forall i :: 0 <= i < base ==> blocks[i] == old(blocks[i])
    {
      hide PlanAt, PlanOf, Sound, Blocks;
      BlocksStep(frame.nbElts - done);
      ok, tally, at, done := PlanStep(blocks, base, slot, tally, frame, w, at, done, E, f, x, whole);
      if !ok {
        return;
      }
      slot := slot + 1;
    }
    PlanEnd(f, x, whole, Plan(blocks[base..slot], tally.0, tally.1), w, at, frame);
    assert slot == base + Blocks(frame.nbElts);
    ok := at == frame.payloadSize;
  }

  /** The state of the planning loop: `done` elements planned, w[at..] unread. */
  ghost predicate PlanAt(f: Parser, x: Tally, whole: Option<Plan>, plan: Plan, w: seq<Byte>, at: nat, frame: Frame,
                         done: nat)
    requires Sound(f)
  {
    && at <= |w| && done <= frame.nbElts
    && Progress(whole, plan,
      FramePlan(f, x, w[at..], frame.nbElts - done, frame.payloadOffset + at, frame.outOff + done, frame.transform))
  }

  lemma PlanWithin(f: Parser, x: Tally, whole: Option<Plan>, plan: Plan, w: seq<Byte>, at: nat, frame: Frame, done: nat)
    requires Sound(f) && PlanAt(f, x, whole, plan, w, at, frame, done)
    ensures at <= |w| && done <= frame.nbElts
  {
  }

  lemma PlanStart(f: Parser, x: Tally, frame: Frame, payload: seq<Byte>)
    requires Sound(f) && frame.payloadOffset + frame.payloadSize <= |payload|
    ensures PlanAt(f, x, PlanOf(f, x, frame, payload), EMPTY, Window(frame, payload), 0, frame, 0)
  {
    assert Window(frame, payload)[0..] == Window(frame, payload);
    if PlanOf(f, x, frame, payload).Some? {
      JoinAssoc(PlanOf(f, x, frame, payload).value, EMPTY, EMPTY);
    }
  }

  lemma PlanNext(f: Parser, x: Tally, whole: Option<Plan>, plan: Plan, w: seq<Byte>, at: nat, frame: Frame, done: nat)
    requires Sound(f) && PlanAt(f, x, whole, plan, w, at, frame, done) && done < frame.nbElts
    ensures f(w[at..]).None? || frame.payloadOffset + at > UINT32_MAX || frame.outOff + done > UINT32_MAX ==>
      whole.None?
    ensures f(w[at..]).Some? && frame.payloadOffset + at <= UINT32_MAX && frame.outOff + done <= UINT32_MAX ==>
      var n := if frame.nbElts - done < BLOCK then frame.nbElts - done else BLOCK;
      && at + f(w[at..]).value.0 <= |w|
      && PlanAt(f, x, whole,
        Join(plan, OneBlock(frame.payloadOffset + at, frame.outOff + done, n, frame.transform, x(w[at..]))),
                w, at + f(w[at..]).value.0, frame, done + n)
  {
    ProgressStep(f, x, whole, plan, w[at..], frame.nbElts - done, frame.payloadOffset + at, frame.outOff + done,
      frame.transform);
    if f(w[at..]).Some? {
      assert w[at..][f(w[at..]).value.0..] == w[at + f(w[at..]).value.0..];
    }
  }

  lemma PlanEnd(f: Parser, x: Tally, whole: Option<Plan>, plan: Plan, w: seq<Byte>, at: nat, frame: Frame)
    requires Sound(f) && PlanAt(f, x, whole, plan, w, at, frame, frame.nbElts)
    ensures whole == if at == |w| then Some(plan) else None
  {
    JoinAssoc(plan, EMPTY, EMPTY);
  }
}
