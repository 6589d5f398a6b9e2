/** Where the copies read the decoded frames (core/src/gpu/decode.c): the base of every
    frame in host staging, in the fallback buffer or in the device scratch. */
module GpuPlaces {
  import opened Common
  import opened Arith
  import opened GpuLayout
  import opened GpuCopies

  const STAGING_ALIGNMENT: nat := 256

  // What became of a frame: a device frame whose recipe or header does not suit the
  // device falls back to the host.
  datatype Source = OnHost | OnFallback | OnPfor | OnPivco

  predicate ReadFrom(route: Route, source: Source) {
    match route
    case Host => source == OnHost
    case Pfor => source == OnPfor || source == OnFallback
    case Pivco => source == OnPivco || source == OnFallback
  }

  predicate Settled(routes: seq<Route>, sources: seq<Source>) {
    |routes| == |sources| && forall i :: 0 <= i < |routes| ==> ReadFrom(routes[i], sources[i])
  }

  /** The decoded bytes of the frames before frame n that are read from a source. */
  function Before(frames: seq<Frame>, sources: seq<Source>, source: Source, n: nat): nat
    requires n <= |frames| == |sources|
  {
    if n == 0 then 0
    else Before(frames, sources, source, n - 1) + if sources[n - 1] == source then frames[n - 1].decoded else 0
  }

  function AlignUp(value: nat): (r: nat)
    ensures value <= r < value + STAGING_ALIGNMENT && r % STAGING_ALIGNMENT == 0
  {
    (value + STAGING_ALIGNMENT - 1) / STAGING_ALIGNMENT * STAGING_ALIGNMENT
  }

  /** Where frame i starts; PFOR and PivCo frames share one scratch, PFOR first. */
  function BaseOf(l: Layout, frames: seq<Frame>, sources: seq<Source>, i: nat): nat
    requires i < |frames| == |sources| == |l.slots|
  {
    match sources[i]
    case OnHost => l.slots[i]
    case OnFallback => Before(frames, sources, OnFallback, i)
    case OnPfor => Before(frames, sources, OnPfor, i)
    case OnPivco => AlignUp(Before(frames, sources, OnPfor, |frames|)) + Before(frames, sources, OnPivco, i)
  }

  /** The loops over the frames that set the bases. */
  method SetBases(frames: seq<Frame>, l: Layout, sources: seq<Source>)
    returns (bases: seq<nat>, fallbackBytes: nat, pforOutput: nat, pivcoOutput: nat)
    requires |frames| == |sources| == |l.slots|
    ensures |bases| == |frames| && forall i :: 0 <= i < |frames| ==> bases[i] == BaseOf(l, frames, sources, i)
    ensures fallbackBytes == Before(frames, sources, OnFallback, |frames|)
    ensures pforOutput == Before(frames, sources, OnPfor, |frames|)
    ensures pivcoOutput == Before(frames, sources, OnPivco, |frames|)
  {
    bases, fallbackBytes, pforOutput, pivcoOutput := [], 0, 0, 0;
    for i := 0 to |frames|
      invariant |bases| == i
      invariant fallbackBytes == Before(frames, sources, OnFallback, i)
      invariant pforOutput == Before(frames, sources, OnPfor, i) && pivcoOutput == Before(frames, sources, OnPivco, i)
      invariant forall k :: 0 <= k < i ==>
        bases[k] == if sources[k] == OnPivco then Before(frames, sources, OnPivco, k) else BaseOf(l, frames, sources, k)
    {
      match sources[i] {
        case OnHost =>
          bases := bases + [l.slots[i]];
        case OnFallback =>
          bases := bases + [fallbackBytes];
          fallbackBytes := fallbackBytes + frames[i].decoded;
        case OnPfor =>
          bases := bases + [pforOutput];
          pforOutput := pforOutput + frames[i].decoded;
        case OnPivco =>
          bases := bases + [pivcoOutput];
          pivcoOutput := pivcoOutput + frames[i].decoded;
      }
    }
    var pivcoOffset := AlignUp(pforOutput);
    for i := 0 to |frames|
      invariant |bases| == |frames|
      invariant forall k :: 0 <= k < i ==> bases[k] == BaseOf(l, frames, sources, k)
      invariant forall k :: i <= k < |frames| ==>
        bases[k] == if sources[k] == OnPivco then Before(frames, sources, OnPivco, k) else BaseOf(l, frames, sources, k)
    {
      if sources[i] == OnPivco {
        bases := bases[i := bases[i] + pivcoOffset];
      }
    }
  }

  // ---------- where the frames lie ----------

  lemma {:induction false} BeforeApart(frames: seq<Frame>, sources: seq<Source>, source: Source, i: nat, n: nat)
    requires i < n <= |frames| == |sources| && sources[i] == source
    ensures Before(frames, sources, source, i) + frames[i].decoded <= Before(frames, sources, source, n)
  {
    if i < n - 1 {
      BeforeApart(frames, sources, source, i, n - 1);
    }
  }

  /** What leaves the host stays within what the layout charged to the device. */
  lemma {:induction false} BeforeCharged(l: Layout, frames: seq<Frame>, sources: seq<Source>, sampleBytes: nat, n: nat)
    requires n <= |l.routes| == |frames| == |sources| && Settled(l.routes, sources)
    requires Charged(l, frames, sampleBytes, n) <= DEVICE_BUDGET
    ensures Before(frames, sources, OnFallback, n) + Before(frames, sources, OnPfor, n)
         + Before(frames, sources, OnPivco, n) <= Charged(l, frames, sampleBytes, n)
  {
    if n > 0 {
      BeforeCharged(l, frames, sources, sampleBytes, n - 1);
    }
  }

  // The memory a source lives in: its bytes.
  function MemoryBytes(l: Layout, frames: seq<Frame>, sources: seq<Source>, source: Source): nat
    requires |frames| == |sources|
  {
    match source
    case OnHost => l.host
    case OnFallback => Before(frames, sources, OnFallback, |frames|)
    case _ => AlignUp(Before(frames, sources, OnPfor, |frames|)) + Before(frames, sources, OnPivco, |frames|)
  }

  predicate SameMemory(a: Source, b: Source) {
    a == b || (a == OnPfor && b == OnPivco) || (a == OnPivco && b == OnPfor)
  }

  // A batch whose layout stands and whose frames are settled.
  ghost predicate Batched(l: Layout, frames: seq<Frame>, wanted: seq<Route>, sources: seq<Source>, sampleBytes: nat) {
    && |frames| == |wanted| == |sources| && Laid(frames, wanted, sampleBytes, |frames|) == Some(l)
    && Settled(l.routes, sources)
  }

  lemma BatchedFacts(l: Layout, frames: seq<Frame>, wanted: seq<Route>, sources: seq<Source>, sampleBytes: nat)
    requires Batched(l, frames, wanted, sources, sampleBytes)
    ensures |frames| == |sources| == |l.routes| == |l.slots| && l.host <= SIZE_MAX
    ensures forall i :: 0 <= i < |frames| && sources[i] == OnHost ==> l.slots[i] + frames[i].decoded <= l.host
    ensures forall i, j :: 0 <= i < j < |frames| && sources[i] == OnHost && sources[j] == OnHost ==>
      l.slots[i] + frames[i].decoded <= l.slots[j]
    ensures Before(frames, sources, OnFallback, |frames|) <= DEVICE_BUDGET
    ensures Before(frames, sources, OnPfor, |frames|) + Before(frames, sources, OnPivco, |frames|) <= DEVICE_BUDGET
  {
    hide Laid, Charged, Charge, RoundUp16, Before;
    SlotsDisjoint(frames, wanted, sampleBytes, |frames|);
    forall i | 0 <= i < |frames| && sources[i] == OnHost
      ensures l.slots[i] + frames[i].decoded <= l.host
    {
      assert EndsBy(l, frames, i, TotalOf(l, l.routes[i]));
    }
    forall i, j | 0 <= i < j < |frames| && sources[i] == OnHost && sources[j] == OnHost
      ensures l.slots[i] + frames[i].decoded <= l.slots[j]
    {
      assert EndsBy(l, frames, i, l.slots[j]);
    }
    BeforeCharged(l, frames, sources, sampleBytes, |frames|);
  }

  /** Every frame lies inside the memory it is read from, which is within size_t. */
  lemma FrameInside(l: Layout, frames: seq<Frame>, wanted: seq<Route>, sources: seq<Source>, sampleBytes: nat, i: nat)
    requires Batched(l, frames, wanted, sources, sampleBytes) && i < |frames|
    ensures |frames| == |l.slots|
    ensures BaseOf(l, frames, sources, i) + frames[i].decoded <= MemoryBytes(l, frames, sources, sources[i]) <= SIZE_MAX
  {
    hide Before, Batched;
    BatchedFacts(l, frames, wanted, sources, sampleBytes);
    if sources[i] != OnHost {
      BeforeApart(frames, sources, sources[i], i, |frames|);
    }
  }

  /** And apart from every other frame there. */
  lemma FramesApart(l: Layout, frames: seq<Frame>, wanted: seq<Route>, sources: seq<Source>, sampleBytes: nat, i: nat,
                    j: nat)
    requires Batched(l, frames, wanted, sources, sampleBytes)
    requires i < j < |frames| && SameMemory(sources[i], sources[j])
    ensures |frames| == |l.slots|
    ensures BaseOf(l, frames, sources, i) + frames[i].decoded <= BaseOf(l, frames, sources, j)
         || BaseOf(l, frames, sources, j) + frames[j].decoded <= BaseOf(l, frames, sources, i)
  {
    hide Before, Batched;
    BatchedFacts(l, frames, wanted, sources, sampleBytes);
    if sources[i] == sources[j] {
      if sources[i] != OnHost {
        BeforeApart(frames, sources, sources[i], i, j);
      }
    } else {
      var k := if sources[i] == OnPfor then i else j;
      BeforeApart(frames, sources, OnPfor, k, |frames|);
    }
  }

  // ---------- checked copies can be placed ----------

  lemma SampleMultiple(a: nat, b: nat, E: nat)
    requires 0 < E && a % E == 0 && b % E == 0
    ensures (a + b) % E == 0
  {
    DivModParts(a, E);
    DivModParts(b, E);
    assert (a / E + b / E) * E == (a / E) * E + (b / E) * E;
    DivModUnique(a / E + b / E, E, 0);
  }

  predicate WholeFrames(frames: seq<Frame>, E: nat) {
    0 < E && forall i :: 0 <= i < |frames| ==> frames[i].decoded % E == 0
  }

  lemma {:induction false} BeforeWhole(frames: seq<Frame>, sources: seq<Source>, source: Source, E: nat, n: nat)
    requires n <= |frames| == |sources| && WholeFrames(frames, E)
    ensures Before(frames, sources, source, n) % E == 0
  {
    if n > 0 {
      BeforeWhole(frames, sources, source, E, n - 1);
      SampleMultiple(Before(frames, sources, source, n - 1), frames[n - 1].decoded, E);
    }
  }

  lemma {:induction false} HostSlotWhole(frames: seq<Frame>, wanted: seq<Route>, E: nat, n: nat)
    requires n <= |frames| == |wanted| && 0 < E && WholeFrames(frames, E) && Laid(frames, wanted, E, n).Some?
    ensures var l := Laid(frames, wanted, E, n).value;
      && |l.routes| == |l.slots| == n && l.host % E == 0
      && forall i :: 0 <= i < n && l.routes[i] == Host ==> l.slots[i] % E == 0
  {
    hide RoundUp16, Charge, TooBig, WholeFrames;
    if n > 0 {
      HostSlotWhole(frames, wanted, E, n - 1);
      DecodedWhole(frames, E, n - 1);
      var before := Laid(frames, wanted, E, n - 1).value;
      SampleMultiple(before.host, frames[n - 1].decoded, E);
      var l := Laid(frames, wanted, E, n).value;
      assert l == Placed(before, frames[n - 1], wanted[n - 1], E).value;
      forall i | 0 <= i < n && l.routes[i] == Host ensures l.slots[i] % E == 0 {
        if i < n - 1 {
          assert before.routes[i] == Host && l.slots[i] == before.slots[i];
        }
      }
    }
  }

  lemma DecodedWhole(frames: seq<Frame>, E: nat, i: nat)
    requires WholeFrames(frames, E) && i < |frames|
    ensures 0 < E && frames[i].decoded % E == 0
  {
  }

  lemma AlignedWhole(value: nat, E: nat)
    requires SampleSize(E)
    ensures AlignUp(value) % E == 0
  {
    var q := (value + STAGING_ALIGNMENT - 1) / STAGING_ALIGNMENT;
    var parts := if E == 1 then 256 else if E == 2 then 128 else if E == 4 then 64 else if E == 8 then 32 else 16;
    assert AlignUp(value) == (q * parts) * E;
    DivModUnique(q * parts, E, 0);
  }

  /** Every frame starts at a whole sample. */
  lemma BaseWhole(l: Layout, frames: seq<Frame>, wanted: seq<Route>, sources: seq<Source>, E: nat, i: nat)
    requires Batched(l, frames, wanted, sources, E) && i < |frames| && SampleSize(E) && WholeFrames(frames, E)
    ensures |frames| == |l.slots| && BaseOf(l, frames, sources, i) % E == 0
  {
    hide Before, WholeFrames, AlignUp, SampleSize;
    Positive(E);
    HostSlotWhole(frames, wanted, E, |frames|);
    DecodedWhole(frames, E, i);
    if sources[i] != OnHost {
      BeforeWhole(frames, sources, sources[i], E, i);
      if sources[i] == OnPivco {
        AlignedWhole(Before(frames, sources, OnPfor, |frames|), E);
        SampleMultiple(AlignUp(Before(frames, sources, OnPfor, |frames|)), Before(frames, sources, OnPivco, i), E);
      }
    }
  }

  /** A copy that passed the check, read from the base of its frame, meets what cutting it
      into pieces relies on: no offset of it leaves size_t. */
  lemma CheckedPlaceable(l: Layout, frames: seq<Frame>, wanted: seq<Route>, sources: seq<Source>, E: nat, copy: Copy,
                         targetBytes: nat)
    requires Batched(l, frames, wanted, sources, E) && SampleSize(E) && WholeFrames(frames, E)
    requires copy.frame < |frames| && copy.source <= SIZE_MAX && copy.destination <= SIZE_MAX && copy.rows <= UINT32_MAX
    requires frames[copy.frame].decoded <= SIZE_MAX && targetBytes <= SIZE_MAX
    requires Told(frames[copy.frame].decoded, E, targetBytes)
      && CopyOk(copy, frames[copy.frame].decoded, E, targetBytes)
    ensures |frames| == |l.slots| && Placeable(copy, BaseOf(l, frames, sources, copy.frame), E)
  {
    hide Batched, WholeFrames, BaseOf, Told, SpanEnd, Exact, MemoryBytes;
    FrameInside(l, frames, wanted, sources, E, copy.frame);
    BaseWhole(l, frames, wanted, sources, E, copy.frame);
    SpansWithin(copy, frames[copy.frame].decoded, E, targetBytes);
  }

  lemma SpansWithin(copy: Copy, decoded: nat, E: nat, targetBytes: nat)
    requires SampleSize(E) && copy.source <= SIZE_MAX && copy.destination <= SIZE_MAX
    requires decoded <= SIZE_MAX && targetBytes <= SIZE_MAX
    requires Told(decoded, E, targetBytes) && CopyOk(copy, decoded, E, targetBytes)
    ensures Exact(copy.source, copy.rows, copy.sourceRow, copy.width, copy.sourceStep, E) <= decoded
    ensures Exact(copy.destination, copy.rows, copy.destinationRow, copy.width, copy.destinationStep, E) <= targetBytes
  {
    hide SpanEnd, Exact, Aligned;
    SpanEndExact(copy.source, copy.rows, copy.sourceRow, copy.width, copy.sourceStep, E);
    SpanEndExact(copy.destination, copy.rows, copy.destinationRow, copy.width, copy.destinationStep, E);
    AtLeastOne(copy.source, copy.rows, copy.sourceRow, copy.width, copy.sourceStep, E);
    AtLeastOne(copy.destination, copy.rows, copy.destinationRow, copy.width, copy.destinationStep, E);
  }
}
