/** How the PFOR encoder chooses the bit width of a block. */
module PforSelect {
  import opened Common
  import opened Words
  import opened Streams
  import opened PforFormat
  import opened PforPack

  const EXC_COST_BITS := 4

  /** The values that do not fit in b bits. */
  function ExcMarks(src: seq<Bits>, b: nat): (m: seq<bool>)
    ensures |m| == |src|
    ensures forall i :: 0 <= i < |src| ==> m[i] == (Width(src[i]) > b)
  {
    seq(|src|, i requires 0 <= i < |src| => Width(src[i]) > b)
  }

  function EqMarks(src: seq<Bits>, w: nat): (m: seq<bool>)
    ensures |m| == |src|
    ensures forall i :: 0 <= i < |src| ==> m[i] == (Width(src[i]) == w)
  {
    seq(|src|, i requires 0 <= i < |src| => Width(src[i]) == w)
  }

  function Nexc(src: seq<Bits>, b: nat): nat {
    Rank(ExcMarks(src, b), |src|)
  }

  /** The encoder lists positions while that is shorter than the bitmap. */
  predicate ListMode(nexc: nat) { nexc < BITMAP_BYTES }

  /** The size the encoder minimises: the block, plus half a byte per exception. */
  function Cost(nexc: nat, maxBits: nat, b: nat): nat
    requires b <= maxBits
  {
    2 + BodyBytes(b) + ExcBytes(nexc, maxBits - b, ListMode(nexc)) + nexc * EXC_COST_BITS / 8
  }

  lemma {:induction false} NexcStep(src: seq<Bits>, b: nat, n: nat)
    requires n <= |src|
    ensures Rank(ExcMarks(src, b), n) == Rank(ExcMarks(src, b + 1), n) + Rank(EqMarks(src, b + 1), n)
  {
    if n > 0 {
      NexcStep(src, b, n - 1);
    }
  }

  /** The greatest width among the first n values. */
  function MaxWidthTo(src: seq<Bits>, n: nat): (m: nat)
    requires n <= |src|
    ensures forall i :: 0 <= i < n ==> Width(src[i]) <= m
    ensures m > 0 ==> exists i :: 0 <= i < n && Width(src[i]) == m
  {
    if n == 0 then 0
    else
      var m := MaxWidthTo(src, n - 1);
      if Width(src[n - 1]) > m then Width(src[n - 1]) else m
  }

  function MaxWidth(src: seq<Bits>): nat {
    MaxWidthTo(src, |src|)
  }

  method Measure(src: seq<Bits>, E: EltBytes) returns (widths: seq<nat>, hist: seq<nat>, maxBits: nat)
    requires IsBlock(src, E)
    ensures |widths| == BLOCK && forall i :: 0 <= i < BLOCK ==> widths[i] == Width(src[i]) <= maxBits
    ensures |hist| == 8 * E + 1 && forall w :: 0 <= w <= 8 * E ==> hist[w] == Rank(EqMarks(src, w), BLOCK)
    ensures maxBits == MaxWidth(src) <= 8 * E
  {
    hide Rank, Width, Counted, MaxWidthTo;
    MaxWidthStep(src, 0);
    widths, maxBits := [], 0;
    CountedNone(src, E);
    hist := seq(8 * E + 1, w => 0);
    for i := 0 to BLOCK
      invariant |widths| == i && forall k :: 0 <= k < i ==> widths[k] == Width(src[k]) <= maxBits
      invariant Counted(src, E, hist, i)
      invariant maxBits == MaxWidthTo(src, i) <= 8 * E
    {
      MaxWidthStep(src, i);
      var w := Width(src[i]);
      CountedStep(src, E, hist, i);
      widths := widths + [w];
      hist := hist[w := hist[w] + 1];
      if w > maxBits {
        maxBits := w;
      }
    }
    CountedAll(src, E, hist);
  }

  lemma MaxWidthStep(src: seq<Bits>, i: nat)
    requires i < |src|
    ensures MaxWidthTo(src, 0) == 0
    ensures MaxWidthTo(src, i + 1) == if Width(src[i]) > MaxWidthTo(src, i) then Width(src[i]) else MaxWidthTo(src, i)
  {
    hide Width;
  }

  /** hist holds, for every width, how many of the first n values have it. */
  ghost predicate Counted(src: seq<Bits>, E: EltBytes, hist: seq<nat>, n: nat)
    requires IsBlock(src, E) && n <= BLOCK
  {
    |hist| == 8 * E + 1 && forall w :: 0 <= w <= 8 * E ==> hist[w] == Rank(EqMarks(src, w), n)
  }

  lemma CountedNone(src: seq<Bits>, E: EltBytes)
    requires IsBlock(src, E)
    ensures Counted(src, E, seq(8 * E + 1, w => 0), 0)
  {
  }

  lemma CountedAll(src: seq<Bits>, E: EltBytes, hist: seq<nat>)
    requires IsBlock(src, E) && Counted(src, E, hist, BLOCK)
    ensures |hist| == 8 * E + 1 && forall w :: 0 <= w <= 8 * E ==> hist[w] == Rank(EqMarks(src, w), BLOCK)
  {
    hide Rank;
  }

  lemma CountedStep(src: seq<Bits>, E: EltBytes, hist: seq<nat>, i: nat)
    requires IsBlock(src, E) && i < BLOCK && Counted(src, E, hist, i)
    ensures Width(src[i]) < |hist|
    ensures Counted(src, E, hist[Width(src[i]) := hist[Width(src[i])] + 1], i + 1)
  {
    hide Width;
  }

  /** Entry `bits` of the cost table is least among the entries from `from` up that
      leave at most 255 exceptions, and is the last one of that cost. */
  predicate BestFrom(costs: seq<nat>, nexcs: seq<nat>, bits: nat, from: nat)
    requires |costs| == |nexcs| && bits < |costs|
  {
    && nexcs[bits] <= 255
    && forall b :: from <= b < |costs| && nexcs[b] <= 255 ==>
         costs[bits] <= costs[b] && (bits < b ==> costs[bits] < costs[b])
  }

  function Nexcs(src: seq<Bits>, maxBits: nat): (t: seq<nat>)
    ensures |t| == maxBits + 1 && forall b :: 0 <= b <= maxBits ==> t[b] == Nexc(src, b)
  {
    seq(maxBits + 1, b requires 0 <= b <= maxBits => Nexc(src, b))
  }

  function Costs(src: seq<Bits>, maxBits: nat): (t: seq<nat>)
    ensures |t| == maxBits + 1 && forall b :: 0 <= b <= maxBits ==> t[b] == Cost(Nexc(src, b), maxBits, b)
  {
    seq(maxBits + 1, b requires 0 <= b <= maxBits => Cost(Nexc(src, b), maxBits, b))
  }

  predicate BestWidth(src: seq<Bits>, maxBits: nat, bits: nat)
    requires bits <= maxBits
  {
    BestFrom(Costs(src, maxBits), Nexcs(src, maxBits), bits, 0)
  }

  /** The header of a block cut at this width. */
  function HeaderFor(src: seq<Bits>, bits: nat): Header
    requires bits <= MaxWidth(src)
  {
    var nexc := Nexc(src, bits);
    if nexc == 0 then Header(bits, 0, 0, false) else Header(bits, nexc, MaxWidth(src) - bits, ListMode(nexc))
  }

  /** The header of the cheapest block of src. */
  predicate Cheapest(src: seq<Bits>, h: Header) {
    h.bits <= MaxWidth(src) && BestWidth(src, MaxWidth(src), h.bits) && h == HeaderFor(src, h.bits)
  }

  /** There is one such header: cost and tie rule leave no choice. */
  lemma CheapestOnce(src: seq<Bits>, h: Header, k: Header)
    requires Cheapest(src, h) && Cheapest(src, k)
    ensures h == k
  {
    hide MaxWidth, HeaderFor;
    BestOnce(Costs(src, MaxWidth(src)), Nexcs(src, MaxWidth(src)), h.bits, k.bits);
  }

  lemma BestOnce(costs: seq<nat>, nexcs: seq<nat>, a: nat, b: nat)
    requires |costs| == |nexcs| && a < |costs| && b < |costs|
    requires BestFrom(costs, nexcs, a, 0) && BestFrom(costs, nexcs, b, 0)
    ensures a == b
  {
  }

  lemma NexcAtMax(src: seq<Bits>, maxBits: nat)
    requires forall i :: 0 <= i < |src| ==> Width(src[i]) <= maxBits
    ensures Nexc(src, maxBits) == 0
  {
    RankFlat(ExcMarks(src, maxBits), 0, |src|);
  }

  lemma CountStep(src: seq<Bits>, b: nat)
    ensures Nexc(src, b) == Nexc(src, b + 1) + Rank(EqMarks(src, b + 1), |src|)
  {
    NexcStep(src, b, |src|);
  }

  /** The downward search, over the exception counts and costs of every width. */
  method Search(hist: seq<nat>, maxBits: nat, ghost nexcs: seq<nat>, ghost costs: seq<nat>)
    returns (bits: nat, nexc: nat, list: bool)
    requires |nexcs| == |costs| == maxBits + 1 <= |hist| && nexcs[maxBits] == 0
    requires forall b :: 0 <= b < maxBits ==> nexcs[b] == nexcs[b + 1] + hist[b + 1]
    requires forall b :: 0 <= b <= maxBits ==> costs[b] == Cost(nexcs[b], maxBits, b)
    requires costs[maxBits] < SIZE_MAX
    ensures bits <= maxBits && nexc == nexcs[bits] && list == ListMode(nexc)
    ensures BestFrom(costs, nexcs, bits, 0)
  {
    hide Cost, ListMode;
    bits, nexc, list := maxBits, 0, ListMode(0);
    var bestSize := SIZE_MAX;
    var count: nat := 0;
    var b: int := maxBits;
    while b >= 0
      invariant -1 <= b <= maxBits && bits <= maxBits && (b < maxBits ==> b < bits)
      invariant nexc == nexcs[bits] && list == ListMode(nexc)
      invariant count == nexcs[if b < maxBits then b + 1 else maxBits]
      invariant b == maxBits ==> bestSize == SIZE_MAX && bits == maxBits
      invariant b < maxBits ==> bestSize == costs[bits] && BestFrom(costs, nexcs, bits, b + 1)
    {
      if b < maxBits {
        count := count + hist[b + 1];
      }
      var size := Cost(count, maxBits, b);
      if count <= 255 && size < bestSize {
        bestSize, bits, nexc, list := size, b, count, ListMode(count);
      }
      b := b - 1;
    }
  }

  method ChooseWidth(src: seq<Bits>, E: EltBytes, hist: seq<nat>, maxBits: nat)
    returns (bits: nat, nexc: nat, list: bool)
    requires IsBlock(src, E) && maxBits <= 8 * E
    requires forall i :: 0 <= i < BLOCK ==> Width(src[i]) <= maxBits
    requires |hist| == 8 * E + 1 && forall w :: 0 <= w <= 8 * E ==> hist[w] == Rank(EqMarks(src, w), BLOCK)
    ensures bits <= maxBits && nexc == Nexc(src, bits) <= 255 && list == ListMode(nexc)
    ensures BestWidth(src, maxBits, bits)
  {
    NexcAtMax(src, maxBits);
    forall b | 0 <= b < maxBits
      ensures Nexcs(src, maxBits)[b] == Nexcs(src, maxBits)[b + 1] + hist[b + 1]
    {
      CountStep(src, b);
    }
    StartCost(src, maxBits);
    bits, nexc, list := Search(hist, maxBits, Nexcs(src, maxBits), Costs(src, maxBits));
  }

  lemma StartCost(src: seq<Bits>, maxBits: nat)
    requires maxBits <= 64 && Nexc(src, maxBits) == 0
    ensures Costs(src, maxBits)[maxBits] == 2 + BodyBytes(maxBits) < SIZE_MAX
  {
  }

  /** A chosen block never outgrows the stored form of its values. */
  lemma CostBound(src: seq<Bits>, E: EltBytes, maxBits: nat, bits: nat)
    requires IsBlock(src, E) && bits <= maxBits <= 8 * E
    requires forall i :: 0 <= i < BLOCK ==> Width(src[i]) <= maxBits
    requires BestWidth(src, maxBits, bits)
    ensures 2 + BodyBytes(bits) + ExcBytes(Nexc(src, bits), maxBits - bits, ListMode(Nexc(src, bits))) <= 2 + BLOCK * E
  {
    NexcAtMax(src, maxBits);
    assert Costs(src, maxBits)[maxBits] == 2 + BodyBytes(maxBits);
    assert Nexcs(src, maxBits)[maxBits] == 0;
  }
}
