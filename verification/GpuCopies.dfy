/** The copies that place decoded samples in the target (core/src/gpu/decode.c):
    their checks, when the device may write the target directly, and the pieces
    a tall copy is cut into. */
module GpuCopies {
  import opened Common
  import opened Arith
  import GpuLayout

  const PLACE_MAX_ROWS: nat := 65535 * 4
  const PLACE_MAX_WIDTH: nat := UINT32_MAX - 128

  // Offsets and strides are bytes.
  datatype Copy = Copy(frame: nat, source: nat, sourceRow: nat, sourceStep: nat,
                       destination: nat, destinationRow: nat, destinationStep: nat, width: nat, rows: nat)

  predicate SampleSize(E: nat) {
    E == 1 || E == 2 || E == 4 || E == 8 || E == 16
  }

  // ---------- the end of a strided rectangle ----------

  /** One past the last byte of the last sample, without any limit. */
  function Exact(offset: nat, rows: nat, rowBytes: nat, width: nat, stepBytes: nat, E: nat): nat {
    offset + (if rows > 1 then (rows - 1) * rowBytes else 0) + (if width > 1 then (width - 1) * stepBytes else 0) + E
  }

  /** span_end: the same in size_t, SIZE_MAX when it does not fit. */
  function SpanEnd(offset: nat, rows: nat, rowBytes: nat, width: nat, stepBytes: nat, E: nat): (end: nat)
    requires offset <= SIZE_MAX && E <= SIZE_MAX
  {
    if rows > 1 && rowBytes > (SIZE_MAX - offset) / (rows - 1) then SIZE_MAX
    else
      var rowEnd := offset + (if rows > 1 then (rows - 1) * rowBytes else 0);
      if width > 1 && stepBytes as int > (SIZE_MAX - rowEnd) / (width - 1) then SIZE_MAX
      else
        var end := rowEnd + (if width > 1 then (width - 1) * stepBytes else 0);
        if end > SIZE_MAX - E then SIZE_MAX else end + E
  }

  lemma DivBound(a: nat, b: nat, c: nat)
    requires 0 < c
    ensures a > b / c <==> c * a > b
  {
    DivModParts(b, c);
    if a > b / c {
      MulMono(b / c + 1, a, c);
    } else {
      MulMono(a, b / c, c);
    }
  }

  /** No check of span_end is fooled by overflow. */
  lemma SpanEndExact(offset: nat, rows: nat, rowBytes: nat, width: nat, stepBytes: nat, E: nat)
    requires offset <= SIZE_MAX && E <= SIZE_MAX
    ensures var exact := Exact(offset, rows, rowBytes, width, stepBytes, E);
      SpanEnd(offset, rows, rowBytes, width, stepBytes, E) == if exact <= SIZE_MAX then exact else SIZE_MAX
  {
    var tall := if rows > 1 then (rows - 1) * rowBytes else 0;
    if rows > 1 {
      DivBound(rowBytes, SIZE_MAX - offset, rows - 1);
    }
    if width > 1 && offset + tall <= SIZE_MAX {
      DivBound(stepBytes, SIZE_MAX - (offset + tall), width - 1);
    }
  }

  function Address(offset: nat, row: nat, step: nat, r: nat, x: nat): nat {
    offset + r * row + x * step
  }

  ghost predicate SamplesWithin(offset: nat, rows: nat, rowBytes: nat, width: nat, stepBytes: nat, E: nat, limit: nat) {
    forall r: nat, x: nat :: r < rows && x < width ==> Address(offset, rowBytes, stepBytes, r, x) + E <= limit
  }

  /** The end is the end of every sample at once. */
  lemma ExactCovers(offset: nat, rows: nat, rowBytes: nat, width: nat, stepBytes: nat, E: nat, limit: nat)
    requires 0 < rows && 0 < width
    ensures Exact(offset, rows, rowBytes, width, stepBytes, E) <= limit
       <==> SamplesWithin(offset, rows, rowBytes, width, stepBytes, E, limit)
  {
    var exact := Exact(offset, rows, rowBytes, width, stepBytes, E);
    assert exact == Address(offset, rowBytes, stepBytes, rows - 1, width - 1) + E;
    if exact <= limit {
      forall r: nat, x: nat | r < rows && x < width
        ensures Address(offset, rowBytes, stepBytes, r, x) + E <= limit
      {
        MulMono(r, rows - 1, rowBytes);
        MulMono(x, width - 1, stepBytes);
      }
    }
  }

  // ---------- copies_valid ----------

  // The check of one copy, as the code makes it.
  predicate CopyOk(copy: Copy, decoded: nat, E: nat, targetBytes: nat)
    requires SampleSize(E) && copy.source <= SIZE_MAX && copy.destination <= SIZE_MAX
  {
    && copy.width != 0 && copy.rows != 0 && copy.width <= PLACE_MAX_WIDTH
    && !(copy.rows > 1 && copy.destinationRow == 0)
    && !(copy.width > 1 && copy.destinationStep == 0)
    && Aligned(copy, E)
    && SpanEnd(copy.source, copy.rows, copy.sourceRow, copy.width, copy.sourceStep, E) <= decoded
    && SpanEnd(copy.destination, copy.rows, copy.destinationRow, copy.width, copy.destinationStep, E) <= targetBytes
  }

  predicate Aligned(copy: Copy, E: nat)
    requires SampleSize(E)
  {
    && copy.source % E == 0 && copy.sourceRow % E == 0 && copy.sourceStep % E == 0
    && copy.destination % E == 0 && copy.destinationRow % E == 0 && copy.destinationStep % E == 0
  }

  // What it is for: whole samples, all of them in the frame and in the target.
  ghost predicate CopyInside(copy: Copy, decoded: nat, E: nat, targetBytes: nat)
    requires SampleSize(E)
  {
    && 0 < copy.width <= PLACE_MAX_WIDTH && 0 < copy.rows
    && (copy.rows > 1 ==> copy.destinationRow != 0)
    && (copy.width > 1 ==> copy.destinationStep != 0)
    && Aligned(copy, E)
    && SamplesWithin(copy.source, copy.rows, copy.sourceRow, copy.width, copy.sourceStep, E, decoded)
    && SamplesWithin(copy.destination, copy.rows, copy.destinationRow, copy.width, copy.destinationStep, E, targetBytes)
  }

  // The limits are such that no span that leaves size_t can pass for one that ends at
  // SIZE_MAX: they are smaller, or the other limit lets no copy through at all.
  predicate Told(decoded: nat, E: nat, targetBytes: nat) {
    (decoded < SIZE_MAX || targetBytes < E) && (targetBytes < SIZE_MAX || decoded < E)
  }

  /** The check lets a copy through exactly when every sample lies inside. */
  lemma CopyOkIsInside(copy: Copy, decoded: nat, E: nat, targetBytes: nat)
    requires SampleSize(E) && copy.source <= SIZE_MAX && copy.destination <= SIZE_MAX
    requires decoded <= SIZE_MAX && targetBytes <= SIZE_MAX && Told(decoded, E, targetBytes)
    ensures CopyOk(copy, decoded, E, targetBytes) <==> CopyInside(copy, decoded, E, targetBytes)
  {
    hide SpanEnd, Exact, SamplesWithin, Aligned;
    SpanEndExact(copy.source, copy.rows, copy.sourceRow, copy.width, copy.sourceStep, E);
    SpanEndExact(copy.destination, copy.rows, copy.destinationRow, copy.width, copy.destinationStep, E);
    AtLeastOne(copy.source, copy.rows, copy.sourceRow, copy.width, copy.sourceStep, E);
    AtLeastOne(copy.destination, copy.rows, copy.destinationRow, copy.width, copy.destinationStep, E);
    if 0 < copy.rows && 0 < copy.width {
      ExactCovers(copy.source, copy.rows, copy.sourceRow, copy.width, copy.sourceStep, E, decoded);
      ExactCovers(copy.destination, copy.rows, copy.destinationRow, copy.width, copy.destinationStep, E, targetBytes);
    }
  }

  lemma AtLeastOne(offset: nat, rows: nat, rowBytes: nat, width: nat, stepBytes: nat, E: nat)
    ensures E <= Exact(offset, rows, rowBytes, width, stepBytes, E)
  {
  }

  // One sample that ends one past SIZE_MAX, in the frame or in the target.
  function Past(E: nat, inFrame: bool): Copy
    requires SampleSize(E)
  {
    var last := SIZE_MAX + 1 - E;
    Copy(0, if inFrame then last else 0, 0, 0, if inFrame then 0 else last, 0, 0, 1, 1)
  }

  lemma OneSample(offset: nat, E: nat, limit: nat)
    requires offset <= SIZE_MAX && E <= SIZE_MAX && limit <= SIZE_MAX
    ensures SpanEnd(offset, 1, 0, 1, 0, E) == if offset + E <= SIZE_MAX then offset + E else SIZE_MAX
    ensures SamplesWithin(offset, 1, 0, 1, 0, E, limit) <==> offset + E <= limit
  {
    ExactCovers(offset, 1, 0, 1, 0, E, limit);
  }

  lemma LastAligned(E: nat)
    requires SampleSize(E)
    ensures (SIZE_MAX + 1 - E) % E == 0 && 0 < E <= SIZE_MAX
  {
  }

  /** Otherwise the check passes a copy that reaches outside. */
  lemma PastPasses(decoded: nat, E: nat, targetBytes: nat) returns (copy: Copy)
    requires SampleSize(E) && decoded <= SIZE_MAX && targetBytes <= SIZE_MAX && !Told(decoded, E, targetBytes)
    ensures copy.frame == 0 && copy.source <= SIZE_MAX && copy.destination <= SIZE_MAX
    ensures CopyOk(copy, decoded, E, targetBytes) && !CopyInside(copy, decoded, E, targetBytes)
  {
    hide SpanEnd, SamplesWithin, SampleSize;
    LastAligned(E);
    copy := Past(E, decoded == SIZE_MAX && targetBytes >= E);
    OneSample(copy.source, E, decoded);
    OneSample(copy.destination, E, targetBytes);
  }

  /** So for one frame and target: the check is right about every copy if and only if the
      limits tell. */
  lemma CheckExact(decoded: nat, E: nat, targetBytes: nat)
    requires SampleSize(E) && decoded <= SIZE_MAX && targetBytes <= SIZE_MAX
    ensures (forall copy: Copy :: copy.source <= SIZE_MAX && copy.destination <= SIZE_MAX ==>
               (CopyOk(copy, decoded, E, targetBytes) <==> CopyInside(copy, decoded, E, targetBytes)))
       <==> Told(decoded, E, targetBytes)
  {
    hide CopyOk, CopyInside;
    if Told(decoded, E, targetBytes) {
      forall copy: Copy | copy.source <= SIZE_MAX && copy.destination <= SIZE_MAX
        ensures CopyOk(copy, decoded, E, targetBytes) <==> CopyInside(copy, decoded, E, targetBytes)
      {
        CopyOkIsInside(copy, decoded, E, targetBytes);
      }
    } else {
      var copy := PastPasses(decoded, E, targetBytes);
    }
  }

  /** Frames and targets of whole samples always tell, but for bytes. */
  lemma WholeSamplesTell(decoded: nat, E: nat, targetBytes: nat)
    requires SampleSize(E) && E > 1 && decoded % E == 0 && targetBytes % E == 0
    requires decoded <= SIZE_MAX && targetBytes <= SIZE_MAX
    ensures Told(decoded, E, targetBytes)
  {
  }

  ghost predicate AllInside(decoded: seq<nat>, copies: seq<Copy>, E: nat, targetBytes: nat)
    requires SampleSize(E)
  {
    forall i :: 0 <= i < |copies| ==>
      copies[i].frame < |decoded| && CopyInside(copies[i], decoded[copies[i].frame], E, targetBytes)
  }

  predicate AllOk(decoded: seq<nat>, copies: seq<Copy>, E: nat, targetBytes: nat)
    requires SampleSize(E) && InSizes(copies)
  {
    forall i :: 0 <= i < |copies| ==>
      copies[i].frame < |decoded| && CopyOk(copies[i], decoded[copies[i].frame], E, targetBytes)
  }

  predicate InSizes(copies: seq<Copy>) {
    forall i :: 0 <= i < |copies| ==> copies[i].source <= SIZE_MAX && copies[i].destination <= SIZE_MAX
  }

  ghost predicate AllTold(decoded: seq<nat>, E: nat, targetBytes: nat) {
    forall f :: 0 <= f < |decoded| ==> decoded[f] <= SIZE_MAX && Told(decoded[f], E, targetBytes)
  }

  lemma AllOkIsInside(decoded: seq<nat>, copies: seq<Copy>, E: nat, targetBytes: nat)
    requires SampleSize(E) && InSizes(copies) && targetBytes <= SIZE_MAX && AllTold(decoded, E, targetBytes)
    ensures AllOk(decoded, copies, E, targetBytes) <==> AllInside(decoded, copies, E, targetBytes)
  {
    hide CopyOk, CopyInside, Told;
    forall k | 0 <= k < |copies| && copies[k].frame < |decoded|
      ensures CopyOk(copies[k], decoded[copies[k].frame], E, targetBytes)
         <==> CopyInside(copies[k], decoded[copies[k].frame], E, targetBytes)
    {
      CopyOkIsInside(copies[k], decoded[copies[k].frame], E, targetBytes);
    }
  }

  /** The check of a batch is right about every list of copies if and only if every frame's
      limits tell. */
  lemma BatchCheckExact(decoded: seq<nat>, E: nat, targetBytes: nat)
    requires SampleSize(E) && targetBytes <= SIZE_MAX && forall f :: 0 <= f < |decoded| ==> decoded[f] <= SIZE_MAX
    ensures (forall copies :: InSizes(copies) ==>
               (AllOk(decoded, copies, E, targetBytes) <==> AllInside(decoded, copies, E, targetBytes)))
       <==> AllTold(decoded, E, targetBytes)
  {
    hide CopyOk, CopyInside, Told;
    if AllTold(decoded, E, targetBytes) {
      forall copies | InSizes(copies)
        ensures AllOk(decoded, copies, E, targetBytes) <==> AllInside(decoded, copies, E, targetBytes)
      {
        AllOkIsInside(decoded, copies, E, targetBytes);
      }
    } else {
      var f :| 0 <= f < |decoded| && !Told(decoded[f], E, targetBytes);
      var copy := PastPasses(decoded[f], E, targetBytes);
      SameCheck(copy, f, decoded[f], E, targetBytes);
      var copies := [copy.(frame := f)];
      assert copies[0] == copy.(frame := f);
      assert AllOk(decoded, copies, E, targetBytes) && !AllInside(decoded, copies, E, targetBytes);
    }
  }

  lemma SameCheck(copy: Copy, frame: nat, decoded: nat, E: nat, targetBytes: nat)
    requires SampleSize(E) && copy.source <= SIZE_MAX && copy.destination <= SIZE_MAX
    ensures CopyOk(copy.(frame := frame), decoded, E, targetBytes) <==> CopyOk(copy, decoded, E, targetBytes)
    ensures CopyInside(copy.(frame := frame), decoded, E, targetBytes) <==> CopyInside(copy, decoded, E, targetBytes)
  {
  }

  /** copies_valid */
  method CopiesValid(decoded: seq<nat>, copies: seq<Copy>, E: nat, targetBytes: nat) returns (valid: bool)
    requires SampleSize(E) && InSizes(copies)
    ensures valid <==> AllOk(decoded, copies, E, targetBytes)
    ensures targetBytes <= SIZE_MAX && AllTold(decoded, E, targetBytes) ==>
      (valid <==> AllInside(decoded, copies, E, targetBytes))
  {
    hide CopyOk, AllInside, AllTold;
    var i: nat := 0;
    valid := true;
    while valid && i < |copies|
      invariant i <= |copies|
      invariant valid ==> forall k :: 0 <= k < i ==>
        copies[k].frame < |decoded| && CopyOk(copies[k], decoded[copies[k].frame], E, targetBytes)
      invariant !valid ==> exists k :: (0 <= k < |copies| &&
        !(copies[k].frame < |decoded| && CopyOk(copies[k], decoded[copies[k].frame], E, targetBytes)))
      decreases valid, |copies| - i
    {
      valid := copies[i].frame < |decoded| && CopyOk(copies[i], decoded[copies[i].frame], E, targetBytes);
      i := i + 1;
    }
    if targetBytes <= SIZE_MAX && AllTold(decoded, E, targetBytes) {
      AllOkIsInside(decoded, copies, E, targetBytes);
    }
  }

  // ---------- direct output ----------

  // The check of one copy of a device frame.
  predicate Full(copy: Copy, decoded: nat, E: nat)
    requires SampleSize(E) && 0 < copy.width
  {
    var rowBytes := copy.width * E;
    && copy.source == 0
    && (copy.width == 1 || (copy.sourceStep == E && copy.destinationStep == E))
    && (copy.rows == 1 || (copy.sourceRow == rowBytes && copy.destinationRow == rowBytes))
    && copy.rows <= decoded / rowBytes
    && rowBytes * copy.rows == decoded
    && decoded <= GpuLayout.DEVICE_BUDGET
    && copy.destination <= GpuLayout.DEVICE_BUDGET - decoded
  }

  /** The copy moves the sample at byte `from` of its frame to byte `to`. */
  ghost predicate Moves(copy: Copy, from: nat, to: nat) {
    exists r: nat, x: nat :: MovesAt(copy, r, x, from, to)
  }

  predicate MovesAt(copy: Copy, r: nat, x: nat, from: nat, to: nat) {
    && r < copy.rows && x < copy.width
    && from == Address(copy.source, copy.sourceRow, copy.sourceStep, r, x)
    && to == Address(copy.destination, copy.destinationRow, copy.destinationStep, r, x)
  }

  lemma FullParts(copy: Copy, decoded: nat, E: nat)
    requires SampleSize(E) && 0 < copy.width && Full(copy, decoded, E)
    ensures copy.source == 0
    ensures copy.width > 1 ==> copy.sourceStep == E && copy.destinationStep == E
    ensures copy.rows > 1 ==> copy.sourceRow == copy.width * E && copy.destinationRow == copy.width * E
    ensures copy.width * E * copy.rows == decoded
  {
  }

  lemma Regroup(a: nat, b: nat, c: nat)
    ensures a * (b * c) == c * (a * b) == a * b * c
  {
  }

  lemma Spread(E: nat, a: nat, b: nat)
    ensures E * (a + b) == E * a + b * E
  {
  }

  // Row r of a full copy, column x: sample r * width + x.
  lemma FullSample(w: nat, rows: nat, E: nat, r: nat, x: nat, row: nat, step: nat)
    requires r < rows && x < w && (w > 1 ==> step == E) && (rows > 1 ==> row == w * E)
    ensures r * row + x * step == E * (r * w + x)
  {
    Regroup(r, w, E);
    Spread(E, r * w, x);
    assert rows == 1 ==> r == 0;
    assert w == 1 ==> x == 0;
  }

  lemma SampleBelow(w: nat, rows: nat, E: nat, r: nat, x: nat)
    requires 0 < E && r < rows && x < w
    ensures E * (r * w + x) < w * E * rows
  {
    MulMonoStrict(r, rows, w);
    MulMonoStrict(r * w + x, rows * w, E);
    Regroup(rows, w, E);
    Regroup(w, E, rows);
  }

  lemma FullAddress(copy: Copy, decoded: nat, E: nat, r: nat, x: nat)
    requires SampleSize(E) && 0 < copy.width && Full(copy, decoded, E) && r < copy.rows && x < copy.width
    ensures var k := r * copy.width + x;
      && Address(copy.source, copy.sourceRow, copy.sourceStep, r, x) == E * k
      && Address(copy.destination, copy.destinationRow, copy.destinationStep, r, x) == copy.destination + E * k
      && E * k < decoded
  {
    hide Full;
    FullParts(copy, decoded, E);
    FullSample(copy.width, copy.rows, E, r, x, copy.sourceRow, copy.sourceStep);
    FullSample(copy.width, copy.rows, E, r, x, copy.destinationRow, copy.destinationStep);
    SampleBelow(copy.width, copy.rows, E, r, x);
  }

  /** Direct writes equal running the copy: a full copy moves exactly sample k of
      the frame to sample k after its destination, for every k. */
  lemma FullMoves(copy: Copy, decoded: nat, E: nat, from: nat, to: nat)
    requires SampleSize(E) && 0 < copy.width && Full(copy, decoded, E)
    ensures Moves(copy, from, to) <==> from < decoded && from % E == 0 && to == copy.destination + from
  {
    hide Address, Full, MovesAt;
    if Moves(copy, from, to) {
      var r: nat, x: nat :| MovesAt(copy, r, x, from, to);
      FullMove(copy, decoded, E, r, x, from, to);
    }
    if from < decoded && from % E == 0 && to == copy.destination + from {
      FullReaches(copy, decoded, E, from);
    }
  }

  lemma FullMove(copy: Copy, decoded: nat, E: nat, r: nat, x: nat, from: nat, to: nat)
    requires SampleSize(E) && 0 < copy.width && Full(copy, decoded, E) && MovesAt(copy, r, x, from, to)
    ensures from < decoded && from % E == 0 && to == copy.destination + from
  {
    hide Address, Full;
    FullAddress(copy, decoded, E, r, x);
    DivModUnique(r * copy.width + x, E, 0);
  }

  lemma FullReaches(copy: Copy, decoded: nat, E: nat, from: nat)
    requires SampleSize(E) && 0 < copy.width && Full(copy, decoded, E) && from < decoded && from % E == 0
    ensures Moves(copy, from, copy.destination + from)
  {
    hide Address, Full, SampleSize;
    Positive(E);
    var k, w := from / E, copy.width;
    DivModParts(from, E);
    DivModParts(k, w);
    FullParts(copy, decoded, E);
    BelowRows(k, w, copy.rows, E, from, decoded);
    FullAddress(copy, decoded, E, k / w, k % w);
    assert MovesAt(copy, k / w, k % w, from, copy.destination + from);
  }

  lemma BelowRows(k: nat, w: nat, rows: nat, E: nat, from: nat, decoded: nat)
    requires 0 < w && 0 < E && from == k * E && from < decoded == w * E * rows
    ensures k / w < rows
  {
    if k / w >= rows {
      DivModParts(k, w);
      MulMono(rows, k / w, w);
      MulMono(rows * w, k, E);
      Regroup(w, E, rows);
      Regroup(rows, w, E);
      assert false;
    }
  }

  datatype Span = Span(start: nat, end: nat)

  predicate Apart(a: Span, b: Span) {
    a.end <= b.start || b.end <= a.start
  }

  function SpanOf(copy: Copy, decoded: seq<nat>): Span
    requires copy.frame < |decoded|
  {
    Span(copy.destination, copy.destination + decoded[copy.frame])
  }

  // What has to hold of the copies for the kernels to write the target: every
  // device frame has one copy, full, and the copies' targets do not overlap.
  ghost predicate DirectPossible(decoded: seq<nat>, device: seq<bool>, copies: seq<Copy>, E: nat)
    requires SampleSize(E) && CopiesFor(decoded, device, copies)
  {
    && (forall i :: 0 <= i < |copies| && device[copies[i].frame] ==> Full(copies[i], decoded[copies[i].frame], E))
    && (forall i, j :: 0 <= i < j < |copies| && device[copies[i].frame] && device[copies[j].frame] ==>
          copies[i].frame != copies[j].frame && Apart(SpanOf(copies[i], decoded), SpanOf(copies[j], decoded)))
    && (forall f :: 0 <= f < |device| && device[f] ==> Has(copies, |copies|, f))
  }

  predicate Has(copies: seq<Copy>, n: nat, f: nat)
    requires n <= |copies|
  {
    exists i :: 0 <= i < n && copies[i].frame == f
  }

  predicate CopiesFor(decoded: seq<nat>, device: seq<bool>, copies: seq<Copy>) {
    && |device| == |decoded|
    && (forall f :: 0 <= f < |decoded| ==> 0 < decoded[f])
    && forall i :: 0 <= i < |copies| ==> copies[i].frame < |decoded| && 0 < copies[i].width
  }

  // ---------- adjacent spans are enough once sorted ----------

  function Insert(s: seq<Span>, x: Span): (t: seq<Span>)
    ensures |t| == |s| + 1
  {
    if |s| == 0 || s[|s| - 1].start <= x.start then s + [x]
    else Insert(s[..|s| - 1], x) + [s[|s| - 1]]
  }

  /** qsort by start. */
  function Sort(s: seq<Span>): (t: seq<Span>)
    ensures |t| == |s|
  {
    if |s| == 0 then [] else Insert(Sort(s[..|s| - 1]), s[|s| - 1])
  }

  predicate SortedByStart(s: seq<Span>) {
    forall i, j :: 0 <= i < j < |s| ==> s[i].start <= s[j].start
  }

  predicate AllApart(s: seq<Span>) {
    forall i, j :: 0 <= i < j < |s| ==> Apart(s[i], s[j])
  }

  predicate NonEmpty(s: seq<Span>) {
    forall i :: 0 <= i < |s| ==> s[i].start < s[i].end
  }

  predicate ApartFrom(s: seq<Span>, x: Span) {
    forall i :: 0 <= i < |s| ==> Apart(s[i], x)
  }

  lemma {:induction false} InsertSorted(s: seq<Span>, x: Span)
    requires SortedByStart(s)
    ensures SortedByStart(Insert(s, x))
    ensures forall i :: 0 <= i < |s| + 1 ==> Insert(s, x)[i] == x || Insert(s, x)[i] in s
    decreases |s|
  {
    if 0 < |s| && s[|s| - 1].start > x.start {
      InsertSorted(s[..|s| - 1], x);
    }
  }

  // Inserting is adding, for everything that does not look at the order.
  lemma {:induction false} InsertAdds(s: seq<Span>, x: Span)
    ensures forall y :: ApartFrom(Insert(s, x), y) <==> ApartFrom(s, y) && Apart(x, y)
    ensures AllApart(Insert(s, x)) <==> AllApart(s) && ApartFrom(s, x)
    ensures NonEmpty(Insert(s, x)) <==> NonEmpty(s) && x.start < x.end
    decreases |s|
  {
    hide Apart, AllApart, ApartFrom, NonEmpty;
    PushAdds(s, x);
    if 0 < |s| && s[|s| - 1].start > x.start {
      var last := |s| - 1;
      InsertAdds(s[..last], x);
      PushAdds(Insert(s[..last], x), s[last]);
      PushAdds(s[..last], s[last]);
      assert s == s[..last] + [s[last]];
      ApartEither(x, s[last]);
    }
  }

  lemma ApartEither(a: Span, b: Span)
    ensures Apart(a, b) == Apart(b, a)
  {
  }

  lemma {:induction false} SortKeeps(s: seq<Span>)
    ensures SortedByStart(Sort(s))
    ensures forall y :: ApartFrom(Sort(s), y) <==> ApartFrom(s, y)
    ensures AllApart(Sort(s)) <==> AllApart(s)
    ensures NonEmpty(Sort(s)) <==> NonEmpty(s)
    decreases |s|
  {
    hide Apart, Insert, AllApart, ApartFrom, NonEmpty, SortedByStart;
    if |s| == 0 {
      NothingSorted(s);
    } else {
      var last := |s| - 1;
      SortKeeps(s[..last]);
      InsertSorted(Sort(s[..last]), s[last]);
      InsertAdds(Sort(s[..last]), s[last]);
      PushAdds(s[..last], s[last]);
      assert s == s[..last] + [s[last]];
    }
  }

  lemma NothingSorted(s: seq<Span>)
    requires |s| == 0
    ensures Sort(s) == s && SortedByStart(s) && AllApart(s) && NonEmpty(s)
  {
  }

  lemma PushAdds(s: seq<Span>, x: Span)
    ensures forall y :: ApartFrom(s + [x], y) <==> ApartFrom(s, y) && Apart(x, y)
    ensures AllApart(s + [x]) <==> AllApart(s) && ApartFrom(s, x)
    ensures NonEmpty(s + [x]) <==> NonEmpty(s) && x.start < x.end
  {
    hide Apart;
    var t := s + [x];
    assert t[|s|] == x && t[..|s|] == s;
    forall y
      ensures ApartFrom(t, y) <==> ApartFrom(s, y) && Apart(x, y)
    {
      if ApartFrom(t, y) {
        assert Apart(t[|s|], y);
        assert forall i :: 0 <= i < |s| ==> Apart(t[i], y);
      }
    }
    if AllApart(t) {
      assert forall i, j :: 0 <= i < j < |s| ==> Apart(t[i], t[j]);
      assert forall i :: 0 <= i < |s| ==> Apart(t[i], t[|s|]);
    }
    if NonEmpty(t) {
      assert forall i :: 0 <= i < |s| ==> t[i].start < t[i].end;
      assert t[|s|].start < t[|s|].end;
    }
  }

  predicate AdjacentApart(s: seq<Span>, n: nat)
    requires n <= |s|
  {
    forall i :: 1 <= i < n ==> s[i].start >= s[i - 1].end
  }

  lemma {:induction false} AdjacentReach(s: seq<Span>, i: nat, j: nat)
    requires SortedByStart(s) && NonEmpty(s) && AdjacentApart(s, |s|) && i < j < |s|
    ensures s[i].end <= s[j].start
    decreases j
  {
    if i + 1 < j {
      AdjacentReach(s, i, j - 1);
      assert s[j].start >= s[j - 1].end;
      assert s[j - 1].start < s[j - 1].end;
    } else {
      assert s[j].start >= s[j - 1].end;
    }
  }

  /** Checking neighbours after sorting is checking all pairs. */
  lemma AdjacentEnough(spans: seq<Span>)
    requires NonEmpty(spans)
    ensures AdjacentApart(Sort(spans), |spans|) <==> AllApart(spans)
  {
    hide Apart, Insert, Sort;
    var s := Sort(spans);
    SortKeeps(spans);
    if AdjacentApart(s, |s|) {
      forall i, j | 0 <= i < j < |s|
        ensures Apart(s[i], s[j])
      {
        AdjacentReach(s, i, j);
        assert Apart(s[i], s[j]) by { EndsFirst(s[i], s[j]); }
      }
    }
    if AllApart(s) {
      forall i | 1 <= i < |s|
        ensures s[i].start >= s[i - 1].end
      {
        assert Apart(s[i - 1], s[i]) && s[i - 1].start <= s[i].start && s[i].start < s[i].end;
        StartsFirst(s[i - 1], s[i]);
      }
    }
  }

  lemma EndsFirst(a: Span, b: Span)
    requires a.end <= b.start
    ensures Apart(a, b)
  {
  }

  lemma StartsFirst(a: Span, b: Span)
    requires Apart(a, b) && a.start <= b.start < b.end
    ensures a.end <= b.start
  {
  }

  // ---------- direct_targets ----------

  ghost function DeviceSpans(decoded: seq<nat>, device: seq<bool>, copies: seq<Copy>, n: nat): seq<Span>
    requires CopiesFor(decoded, device, copies) && n <= |copies|
  {
    if n == 0 then []
    else
      var before := DeviceSpans(decoded, device, copies, n - 1);
      if device[copies[n - 1].frame] then before + [SpanOf(copies[n - 1], decoded)] else before
  }

  ghost predicate PairsApart(decoded: seq<nat>, device: seq<bool>, copies: seq<Copy>, n: nat)
    requires CopiesFor(decoded, device, copies) && n <= |copies|
  {
    forall i, j :: 0 <= i < j < n && device[copies[i].frame] && device[copies[j].frame] ==>
      Apart(SpanOf(copies[i], decoded), SpanOf(copies[j], decoded))
  }

  lemma {:induction false} SpansApart(decoded: seq<nat>, device: seq<bool>, copies: seq<Copy>, n: nat)
    requires CopiesFor(decoded, device, copies) && n <= |copies|
    ensures forall y :: (ApartFrom(DeviceSpans(decoded, device, copies, n), y) <==>
      (forall i :: 0 <= i < n && device[copies[i].frame] ==> Apart(SpanOf(copies[i], decoded), y)))
    ensures AllApart(DeviceSpans(decoded, device, copies, n)) <==> PairsApart(decoded, device, copies, n)
    ensures NonEmpty(DeviceSpans(decoded, device, copies, n))
  {
    hide Apart, ApartFrom, AllApart, NonEmpty;
    if n == 0 {
      NothingSorted([]);
      NothingApart();
    } else {
      SpansApart(decoded, device, copies, n - 1);
      if device[copies[n - 1].frame] {
        PushAdds(DeviceSpans(decoded, device, copies, n - 1), SpanOf(copies[n - 1], decoded));
      }
    }
  }

  lemma NothingApart()
    ensures forall y :: ApartFrom([], y)
  {
  }

  // The device copies below n are full and of different frames.
  ghost predicate FullBelow(decoded: seq<nat>, device: seq<bool>, copies: seq<Copy>, E: nat, n: nat)
    requires SampleSize(E) && CopiesFor(decoded, device, copies) && n <= |copies|
  {
    && (forall i :: 0 <= i < n && device[copies[i].frame] ==> Full(copies[i], decoded[copies[i].frame], E))
    && (forall i, j :: 0 <= i < j < n && device[copies[i].frame] && device[copies[j].frame] ==>
      copies[i].frame != copies[j].frame)
  }

  // What the destinations array holds after n copies.
  ghost predicate Entered(destinations: seq<nat>, device: seq<bool>, copies: seq<Copy>, n: nat)
    requires n <= |copies| && forall i :: 0 <= i < |copies| ==> copies[i].frame < |device|
  {
    && |destinations| == |device|
    && (forall f :: 0 <= f < |device| ==> (destinations[f] != SIZE_MAX <==> device[f] && Has(copies, n, f)))
    && (forall i :: 0 <= i < n && device[copies[i].frame] ==> destinations[copies[i].frame] == copies[i].destination)
  }

  lemma HasMore(copies: seq<Copy>, n: nat, f: nat)
    requires n < |copies|
    ensures Has(copies, n + 1, f) <==> Has(copies, n, f) || copies[n].frame == f
  {
    if Has(copies, n + 1, f) {
      var i :| 0 <= i < n + 1 && copies[i].frame == f;
      assert i < n || i == n;
    }
  }

  lemma {:induction false} EnteredMore(before: seq<nat>, after: seq<nat>, decoded: seq<nat>, device: seq<bool>,
                                       copies: seq<Copy>, E: nat, n: nat)
    requires SampleSize(E) && CopiesFor(decoded, device, copies) && n < |copies|
    requires Entered(before, device, copies, n) && FullBelow(decoded, device, copies, E, n)
    requires var f := copies[n].frame;
      if device[f] then
        before[f] == SIZE_MAX && Full(copies[n], decoded[f], E) && after == before[f := copies[n].destination]
      else after == before
    ensures Entered(after, device, copies, n + 1) && FullBelow(decoded, device, copies, E, n + 1)
  {
    hide Full, Has;
    if device[copies[n].frame] {
      FullFits(copies[n], decoded[copies[n].frame], E);
    }
    forall f | 0 <= f < |device|
      ensures after[f] != SIZE_MAX <==> device[f] && Has(copies, n + 1, f)
    {
      HasMore(copies, n, f);
    }
    if device[copies[n].frame] {
      forall i | 0 <= i < n && device[copies[i].frame]
        ensures copies[i].frame != copies[n].frame
      {
        HasOne(copies, n, i);
      }
    }
  }

  lemma HasOne(copies: seq<Copy>, n: nat, i: nat)
    requires i < n <= |copies|
    ensures Has(copies, n, copies[i].frame)
  {
  }

  lemma FullFits(copy: Copy, decoded: nat, E: nat)
    requires SampleSize(E) && 0 < copy.width && Full(copy, decoded, E)
    ensures copy.destination < SIZE_MAX
  {
  }

  // A device copy that is not full, or of a frame that already has one.
  lemma Refused(destinations: seq<nat>, decoded: seq<nat>, device: seq<bool>, copies: seq<Copy>, E: nat, n: nat)
    requires SampleSize(E) && CopiesFor(decoded, device, copies) && n < |copies|
    requires Entered(destinations, device, copies, n) && device[copies[n].frame]
    requires destinations[copies[n].frame] != SIZE_MAX || !Full(copies[n], decoded[copies[n].frame], E)
    ensures !DirectPossible(decoded, device, copies, E)
  {
    hide Full;
    if destinations[copies[n].frame] != SIZE_MAX {
      var i :| 0 <= i < n && copies[i].frame == copies[n].frame;
    }
  }

  lemma Possible(decoded: seq<nat>, device: seq<bool>, copies: seq<Copy>, E: nat)
    requires SampleSize(E) && CopiesFor(decoded, device, copies) && FullBelow(decoded, device, copies, E, |copies|)
    ensures DirectPossible(decoded, device, copies, E) <==>
      && PairsApart(decoded, device, copies, |copies|)
      && forall f :: 0 <= f < |device| && device[f] ==> Has(copies, |copies|, f)
  {
    hide Full, Has, Apart;
  }

  /** direct_targets says yes exactly when every device frame has one full copy
      and no two targets overlap, and then it gives where each frame goes. */
  method DirectTargets(decoded: seq<nat>, device: seq<bool>, copies: seq<Copy>, E: nat, destinations: array<nat>)
    returns (direct: bool)
    requires SampleSize(E) && CopiesFor(decoded, device, copies) && destinations.Length == |decoded|
    modifies destinations
    ensures direct <==> DirectPossible(decoded, device, copies, E)
    ensures direct ==> forall i :: 0 <= i < |copies| && device[copies[i].frame] ==>
      destinations[copies[i].frame] == copies[i].destination
  {
    hide Full, DirectPossible, PairsApart, DeviceSpans, Entered, FullBelow, CopiesFor, Has;
    Clear(destinations);
    CopiesForAll(decoded, device, copies);
    NothingEntered(destinations[..], decoded, device, copies, E);
    var spans: seq<Span> := [];
    var i: nat := 0;
    direct := true;
    while direct && i < |copies|
      invariant i <= |copies|
      invariant direct ==> Entered(destinations[..], device, copies, i) && FullBelow(decoded, device, copies, E, i)
      invariant direct ==> spans == DeviceSpans(decoded, device, copies, i)
      invariant !direct ==> !DirectPossible(decoded, device, copies, E)
      decreases direct, |copies| - i
    {
      direct, spans := DirectCopy(decoded, device, copies, E, i, destinations, spans);
      i := i + 1;
    }
    if direct {
      EnteredAll(destinations[..], device, copies);
      direct := AllReached(device, destinations, copies);
      Possible(decoded, device, copies, E);
    }
    if direct {
      SpansApart(decoded, device, copies, |copies|);
      AdjacentEnough(spans);
      direct := Adjacent(Sort(spans));
    }
  }

  lemma CopiesForAll(decoded: seq<nat>, device: seq<bool>, copies: seq<Copy>)
    requires CopiesFor(decoded, device, copies)
    ensures |device| == |decoded| && forall k :: 0 <= k < |copies| ==>
      copies[k].frame < |decoded| && 0 < copies[k].width
  {
  }

  lemma NothingEntered(destinations: seq<nat>, decoded: seq<nat>, device: seq<bool>, copies: seq<Copy>, E: nat)
    requires SampleSize(E) && CopiesFor(decoded, device, copies) && |destinations| == |device|
    requires forall f :: 0 <= f < |destinations| ==> destinations[f] == SIZE_MAX
    ensures Entered(destinations, device, copies, 0) && FullBelow(decoded, device, copies, E, 0)
    ensures DeviceSpans(decoded, device, copies, 0) == []
  {
  }

  lemma EnteredAll(destinations: seq<nat>, device: seq<bool>, copies: seq<Copy>)
    requires forall i :: 0 <= i < |copies| ==> copies[i].frame < |device|
    requires Entered(destinations, device, copies, |copies|)
    ensures |destinations| == |device|
    ensures forall f :: 0 <= f < |device| ==> (destinations[f] != SIZE_MAX <==> device[f] && Has(copies, |copies|, f))
    ensures forall i :: 0 <= i < |copies| && device[copies[i].frame] ==>
      destinations[copies[i].frame] == copies[i].destination
  {
    hide Has;
  }

  method Clear(destinations: array<nat>)
    modifies destinations
    ensures forall f :: 0 <= f < destinations.Length ==> destinations[f] == SIZE_MAX
  {
    for f := 0 to destinations.Length
      invariant forall k :: 0 <= k < f ==> destinations[k] == SIZE_MAX
    {
      destinations[f] := SIZE_MAX;
    }
  }

  // One turn of the first loop.
  method DirectCopy(decoded: seq<nat>, device: seq<bool>, copies: seq<Copy>, E: nat, i: nat, destinations: array<nat>,
                    spans: seq<Span>)
    returns (direct: bool, spans': seq<Span>)
    requires SampleSize(E) && CopiesFor(decoded, device, copies) && i < |copies|
    requires Entered(destinations[..], device, copies, i) && FullBelow(decoded, device, copies, E, i)
    requires spans == DeviceSpans(decoded, device, copies, i)
    modifies destinations
    ensures direct ==> Entered(destinations[..], device, copies, i + 1) && FullBelow(decoded, device, copies, E, i + 1)
    ensures direct ==> spans' == DeviceSpans(decoded, device, copies, i + 1)
    ensures !direct ==> !DirectPossible(decoded, device, copies, E)
  {
    hide Full, DirectPossible, Entered, FullBelow, Has;
    ghost var before := destinations[..];
    var copy := copies[i];
    EnteredSize(before, device, copies, i);
    direct, spans' := true, spans;
    if device[copy.frame] {
      direct := destinations[copy.frame] == SIZE_MAX && Full(copy, decoded[copy.frame], E);
      if direct {
        destinations[copy.frame] := copy.destination;
        spans' := spans + [Span(copy.destination, copy.destination + decoded[copy.frame])];
        assert destinations[..] == before[copy.frame := copy.destination];
      } else {
        Refused(before, decoded, device, copies, E, i);
      }
    }
    if direct {
      EnteredMore(before, destinations[..], decoded, device, copies, E, i);
    }
  }

  lemma EnteredSize(destinations: seq<nat>, device: seq<bool>, copies: seq<Copy>, n: nat)
    requires n <= |copies| && (forall i :: 0 <= i < |copies| ==> copies[i].frame < |device|)
    requires Entered(destinations, device, copies, n)
    ensures |destinations| == |device|
  {
    hide Has;
  }

  method AllReached(device: seq<bool>, destinations: array<nat>, ghost copies: seq<Copy>) returns (direct: bool)
    requires destinations.Length == |device|
    requires forall f :: 0 <= f < |device| ==> (destinations[f] != SIZE_MAX <==> device[f] && Has(copies, |copies|, f))
    ensures direct <==> forall f :: 0 <= f < |device| && device[f] ==> Has(copies, |copies|, f)
  {
    hide Has;
    direct := true;
    var f: nat := 0;
    while direct && f < |device|
      invariant f <= |device|
      invariant direct ==> forall k :: 0 <= k < f && device[k] ==> Has(copies, |copies|, k)
      invariant !direct ==> exists k :: 0 <= k < |device| && device[k] && !Has(copies, |copies|, k)
      decreases direct, |device| - f
    {
      direct := !device[f] || destinations[f] != SIZE_MAX;
      f := f + 1;
    }
  }

  method Adjacent(spans: seq<Span>) returns (direct: bool)
    ensures direct == AdjacentApart(spans, |spans|)
  {
    direct := true;
    var i: nat := 1;
    while direct && i < |spans|
      invariant 1 <= i && (i <= |spans| || |spans| == 0)
      invariant direct ==> AdjacentApart(spans, if i <= |spans| then i else 0)
      invariant !direct ==> !AdjacentApart(spans, |spans|)
      decreases direct, |spans| - i
    {
      direct := spans[i].start >= spans[i - 1].end;
      i := i + 1;
    }
  }

  // ---------- pieces of a copy ----------

  // What the place kernel takes; counts are samples and fields are 32 bits wide.
  datatype Piece = Piece(source: nat, sourceRow: nat, sourceStep: nat,
                         destination: nat, destinationRow: nat, destinationStep: nat, width: nat, rows: nat)

  function Narrow(n: nat): (r: nat)
    ensures r <= UINT32_MAX
    ensures n <= UINT32_MAX ==> r == n
  {
    n % 0x1_0000_0000
  }

  function PieceCount(rows: nat): nat {
    (rows + PLACE_MAX_ROWS - 1) / PLACE_MAX_ROWS
  }

  /** The piece moves sample `from` of its source to sample `to`. */
  ghost predicate PieceMoves(p: Piece, from: nat, to: nat) {
    exists r: nat, x: nat :: PieceMovesAt(p, r, x, from, to)
  }

  predicate PieceMovesAt(p: Piece, r: nat, x: nat, from: nat, to: nat) {
    && r < p.rows && x < p.width
    && from == Address(p.source, p.sourceRow, p.sourceStep, r, x)
    && to == Address(p.destination, p.destinationRow, p.destinationStep, r, x)
  }

  // Rows lo to hi of the copy, its frame at byte base of the source.
  ghost predicate RowsMove(copy: Copy, base: nat, E: nat, lo: nat, hi: nat, from: nat, to: nat) {
    exists r: nat, x: nat :: RowMoves(copy, base, E, lo, hi, r, x, from, to)
  }

  predicate RowMoves(copy: Copy, base: nat, E: nat, lo: nat, hi: nat, r: nat, x: nat, from: nat, to: nat) {
    && lo <= r < hi && x < copy.width
    && E * from == base + Address(copy.source, copy.sourceRow, copy.sourceStep, r, x)
    && E * to == Address(copy.destination, copy.destinationRow, copy.destinationStep, r, x)
  }

  ghost predicate PiecesMove(pieces: seq<Piece>, from: nat, to: nat) {
    exists k :: 0 <= k < |pieces| && PieceMoves(pieces[k], from, to)
  }

  // The pieces move exactly the samples of the copy's rows below n.
  ghost predicate Moved(pieces: seq<Piece>, copy: Copy, base: nat, E: nat, n: nat) {
    forall from: nat, to: nat :: PiecesMove(pieces, from, to) <==> RowsMove(copy, base, E, 0, n, from, to)
  }

  // The piece of n rows that starts at row `row`, before any narrowing.
  function PieceAt(copy: Copy, base: nat, E: nat, row: nat, n: nat): Piece
    requires SampleSize(E)
  {
    Piece((base + copy.source + row * copy.sourceRow) / E,
          if n > 1 then copy.sourceRow / E else 0,
          if copy.width > 1 then copy.sourceStep / E else 0,
          (copy.destination + row * copy.destinationRow) / E,
          if n > 1 then copy.destinationRow / E else 0,
          if copy.width > 1 then copy.destinationStep / E else 0,
          copy.width, n)
  }

  lemma Exactly(E: nat, n: nat)
    requires 0 < E && n % E == 0
    ensures E * (n / E) == n
  {
    DivModParts(n, E);
  }

  lemma ModAdd(E: nat, a: nat, b: nat)
    requires SampleSize(E) && a % E == 0 && b % E == 0
    ensures (a + b) % E == 0
  {
  }

  lemma ModMul(E: nat, r: nat, a: nat)
    requires SampleSize(E) && a % E == 0
    ensures (r * a) % E == 0
  {
    Exactly(E, a);
    Regroup(r, a / E, E);
    assert r * a == (r * (a / E)) * E by { Regroup(r, a / E, E); }
    DivModUnique(r * (a / E), E, 0);
  }

  lemma Cancel(E: nat, a: nat, b: nat)
    requires 0 < E
    ensures E * a == E * b <==> a == b
  {
    if a < b {
      MulMonoStrict(a, b, E);
    } else if b < a {
      MulMonoStrict(b, a, E);
    }
  }

  // Sample r, x of the piece is byte E times as far as the copy's row row + r.
  lemma PieceAddress(start: nat, row: nat, rowBytes: nat, stepBytes: nat, w: nat, n: nat, E: nat, r: nat, x: nat)
    requires SampleSize(E) && start % E == 0 && rowBytes % E == 0 && stepBytes % E == 0
    requires r < n && x < w
    ensures E * Address((start + row * rowBytes) / E, if n > 1 then rowBytes / E else 0,
      if w > 1 then stepBytes / E else 0, r, x)
         == Address(start, rowBytes, stepBytes, row + r, x)
  {
    hide SampleSize;
    assert E > 0 by { Positive(E); }
    var a, b, c := (start + row * rowBytes) / E, rowBytes / E, stepBytes / E;
    ModMul(E, row, rowBytes);
    ModAdd(E, start, row * rowBytes);
    Exactly(E, start + row * rowBytes);
    Exactly(E, rowBytes);
    Exactly(E, stepBytes);
    var b', c' := if n > 1 then b else 0, if w > 1 then c else 0;
    assert r * b' == r * b by { OneOnly(r, n, b); }
    assert x * c' == x * c by { OneOnly(x, w, c); }
    Distribute(E, a, r * b, x * c);
    Regroup(r, b, E);
    Regroup(x, c, E);
    Swap(E, b);
    Swap(E, c);
    assert E * (r * b) == r * rowBytes;
    assert E * (x * c) == x * stepBytes;
    Rows(row, r, rowBytes);
  }

  lemma Positive(E: nat)
    requires SampleSize(E)
    ensures 0 < E
  {
  }

  lemma OneOnly(i: nat, n: nat, b: nat)
    requires i < n
    ensures i * (if n > 1 then b else 0) == i * b
  {
  }

  lemma Distribute(E: nat, a: nat, b: nat, c: nat)
    ensures E * (a + b + c) == E * a + E * b + E * c
  {
  }

  lemma Swap(a: nat, b: nat)
    ensures a * b == b * a
  {
  }

  lemma Rows(a: nat, b: nat, c: nat)
    ensures (a + b) * c == a * c + b * c
  {
  }

  // What the caller has checked of a copy from a frame at byte base.
  predicate Placeable(copy: Copy, base: nat, E: nat) {
    && SampleSize(E) && Aligned(copy, E) && base % E == 0
    && 0 < copy.width <= UINT32_MAX && 0 < copy.rows <= UINT32_MAX
    && base + Exact(copy.source, copy.rows, copy.sourceRow, copy.width, copy.sourceStep, E) <= SIZE_MAX
    && Exact(copy.destination, copy.rows, copy.destinationRow, copy.width, copy.destinationStep, E) <= SIZE_MAX
  }

  lemma PieceIsRows(copy: Copy, base: nat, E: nat, row: nat, n: nat, from: nat, to: nat)
    requires SampleSize(E) && Aligned(copy, E) && base % E == 0
    ensures PieceMoves(PieceAt(copy, base, E, row, n), from, to) <==> RowsMove(copy, base, E, row, row + n, from, to)
  {
    hide SampleSize, PieceAt;
    var p := PieceAt(copy, base, E, row, n);
    if PieceMoves(p, from, to) {
      var r: nat, x: nat :| PieceMovesAt(p, r, x, from, to);
      SampleMoves(copy, base, E, row, n, r, x, from, to);
      assert RowMoves(copy, base, E, row, row + n, row + r, x, from, to);
    }
    if RowsMove(copy, base, E, row, row + n, from, to) {
      var s: nat, x: nat :| RowMoves(copy, base, E, row, row + n, s, x, from, to);
      SampleMoves(copy, base, E, row, n, s - row, x, from, to);
      assert PieceMovesAt(p, s - row, x, from, to);
    }
  }

  lemma SampleMoves(copy: Copy, base: nat, E: nat, row: nat, n: nat, r: nat, x: nat, from: nat, to: nat)
    requires SampleSize(E) && Aligned(copy, E) && base % E == 0
    ensures PieceMovesAt(PieceAt(copy, base, E, row, n), r, x, from, to)
       <==> RowMoves(copy, base, E, row, row + n, row + r, x, from, to)
  {
    hide Address, SampleSize;
    if r < n && x < copy.width {
      var p := PieceAt(copy, base, E, row, n);
      Positive(E);
      ModAdd(E, base, copy.source);
      PieceAddress(base + copy.source, row, copy.sourceRow, copy.sourceStep, copy.width, n, E, r, x);
      PieceAddress(copy.destination, row, copy.destinationRow, copy.destinationStep, copy.width, n, E, r, x);
      BaseAddress(base, copy.source, copy.sourceRow, copy.sourceStep, row + r, x);
      Cancel(E, from, Address(p.source, p.sourceRow, p.sourceStep, r, x));
      Cancel(E, to, Address(p.destination, p.destinationRow, p.destinationStep, r, x));
    }
  }

  lemma BaseAddress(base: nat, offset: nat, row: nat, step: nat, r: nat, x: nat)
    ensures Address(base + offset, row, step, r, x) == base + Address(offset, row, step, r, x)
  {
  }

  lemma MovedMore(pieces: seq<Piece>, copy: Copy, base: nat, E: nat, row: nat, n: nat)
    requires SampleSize(E) && Aligned(copy, E) && base % E == 0 && Moved(pieces, copy, base, E, row)
    ensures Moved(pieces + [PieceAt(copy, base, E, row, n)], copy, base, E, row + n)
  {
    hide PieceMoves, PieceAt, SampleSize, RowMoves;
    var p := PieceAt(copy, base, E, row, n);
    forall from: nat, to: nat
      ensures PiecesMove(pieces + [p], from, to) <==> RowsMove(copy, base, E, 0, row + n, from, to)
    {
      PieceIsRows(copy, base, E, row, n, from, to);
      PiecesMore(pieces, p, from, to);
      RowsSplit(copy, base, E, row, n, from, to);
    }
  }

  lemma PiecesMore(pieces: seq<Piece>, p: Piece, from: nat, to: nat)
    ensures PiecesMove(pieces + [p], from, to) <==> PiecesMove(pieces, from, to) || PieceMoves(p, from, to)
  {
    hide PieceMoves;
    var all := pieces + [p];
    if PiecesMove(pieces, from, to) {
      var k :| 0 <= k < |pieces| && PieceMoves(pieces[k], from, to);
      assert PieceMoves(all[k], from, to);
    }
    if PieceMoves(p, from, to) {
      assert PieceMoves(all[|pieces|], from, to);
    }
  }

  lemma RowsSplit(copy: Copy, base: nat, E: nat, row: nat, n: nat, from: nat, to: nat)
    ensures RowsMove(copy, base, E, 0, row + n, from, to)
       <==> RowsMove(copy, base, E, 0, row, from, to) || RowsMove(copy, base, E, row, row + n, from, to)
  {
    hide Address;
    if RowsMove(copy, base, E, 0, row + n, from, to) {
      var r: nat, x: nat :| RowMoves(copy, base, E, 0, row + n, r, x, from, to);
      assert RowMoves(copy, base, E, 0, row, r, x, from, to) || RowMoves(copy, base, E, row, row + n, r, x, from, to);
    }
    if RowsMove(copy, base, E, 0, row, from, to) {
      var r: nat, x: nat :| RowMoves(copy, base, E, 0, row, r, x, from, to);
      assert RowMoves(copy, base, E, 0, row + n, r, x, from, to);
    }
    if RowsMove(copy, base, E, row, row + n, from, to) {
      var r: nat, x: nat :| RowMoves(copy, base, E, row, row + n, r, x, from, to);
      assert RowMoves(copy, base, E, 0, row + n, r, x, from, to);
    }
  }

  // Rows row to row + n of the copy end no later than the copy.
  lemma PieceSpan(offset: nat, rows: nat, rowBytes: nat, w: nat, stepBytes: nat, E: nat, row: nat, n: nat)
    requires 0 < n && row + n <= rows
    ensures row * rowBytes <= (rows - 1) * rowBytes
    ensures offset + row * rowBytes <= Exact(offset, rows, rowBytes, w, stepBytes, E)
    ensures Exact(offset + row * rowBytes, n, rowBytes, w, stepBytes, E) <= Exact(offset, rows, rowBytes, w, stepBytes,
      E)
  {
    MulMono(row, rows - 1, rowBytes);
    MulMono(row + (n - 1), rows - 1, rowBytes);
    Rows(row, n - 1, rowBytes);
  }

  // Every field fits when the end of the span does.
  lemma FieldsFit(start: nat, rowBytes: nat, w: nat, stepBytes: nat, E: nat, n: nat)
    requires SampleSize(E) && 0 < n && 0 < w
    requires Exact(start, n, rowBytes, w, stepBytes, E) / E <= UINT32_MAX
    ensures start / E <= UINT32_MAX
    ensures n > 1 ==> rowBytes / E <= UINT32_MAX
    ensures w > 1 ==> stepBytes / E <= UINT32_MAX
  {
    hide SampleSize, Exact;
    Positive(E);
    var end := Exact(start, n, rowBytes, w, stepBytes, E);
    ExactParts(start, n, rowBytes, w, stepBytes, E);
    DivMono(start, end, E);
    if n > 1 {
      DivMono(rowBytes, end, E);
    }
    if w > 1 {
      DivMono(stepBytes, end, E);
    }
  }

  lemma ExactParts(start: nat, n: nat, rowBytes: nat, w: nat, stepBytes: nat, E: nat)
    ensures start + E <= Exact(start, n, rowBytes, w, stepBytes, E)
    ensures n > 1 ==> rowBytes <= Exact(start, n, rowBytes, w, stepBytes, E)
    ensures w > 1 ==> stepBytes <= Exact(start, n, rowBytes, w, stepBytes, E)
  {
    if n > 1 {
      MulMono(1, n - 1, rowBytes);
    }
    if w > 1 {
      MulMono(1, w - 1, stepBytes);
    }
  }

  lemma DivMono(a: nat, b: nat, c: nat)
    requires a <= b && 0 < c
    ensures a / c <= b / c
  {
    if a / c > b / c {
      DivModParts(a, c);
      DivModParts(b, c);
      MulMonoStrict(b / c, a / c, c);
      assert false;
    }
  }

  predicate SpanFits(start: nat, n: nat, rowBytes: nat, w: nat, stepBytes: nat, E: nat)
    requires SampleSize(E)
  {
    Exact(start, n, rowBytes, w, stepBytes, E) / E <= UINT32_MAX
  }

  // The piece at row `row` addresses no sample at 2^32 or later.
  predicate PieceFits(copy: Copy, base: nat, E: nat, row: nat, n: nat)
    requires SampleSize(E)
  {
    && SpanFits(base + copy.source + row * copy.sourceRow, n, copy.sourceRow, copy.width, copy.sourceStep, E)
    && SpanFits(copy.destination + row * copy.destinationRow, n, copy.destinationRow, copy.width, copy.destinationStep,
      E)
  }

  function RowsFrom(rows: nat, row: nat): nat
    requires row <= rows
  {
    if rows - row < PLACE_MAX_ROWS then rows - row else PLACE_MAX_ROWS
  }

  // The end of a span, in samples, is past 32 bits.
  method TooFar(start: nat, n: nat, rowBytes: nat, w: nat, stepBytes: nat, E: nat) returns (far: bool)
    requires SampleSize(E) && Exact(start, n, rowBytes, w, stepBytes, E) <= SIZE_MAX
    ensures far == !SpanFits(start, n, rowBytes, w, stepBytes, E)
  {
    hide Exact, SpanEnd, SampleSize;
    Positive(E);
    assert start <= SIZE_MAX && E <= SIZE_MAX by { ExactParts(start, n, rowBytes, w, stepBytes, E); }
    SpanEndExact(start, n, rowBytes, w, stepBytes, E);
    far := SpanEnd(start, n, rowBytes, w, stepBytes, E) / E > UINT32_MAX;
  }

  // The piece with every cast to 32 bits as the code makes it.
  function NarrowPiece(copy: Copy, from: nat, to: nat, n: nat, E: nat): Piece
    requires SampleSize(E)
  {
    Piece(Narrow(from / E),
          if n > 1 then Narrow(copy.sourceRow / E) else 0,
          if copy.width > 1 then Narrow(copy.sourceStep / E) else 0,
          Narrow(to / E),
          if n > 1 then Narrow(copy.destinationRow / E) else 0,
          if copy.width > 1 then Narrow(copy.destinationStep / E) else 0,
          copy.width, n)
  }

  /** Narrowing a piece that fits loses nothing. */
  lemma NarrowExact(copy: Copy, base: nat, E: nat, row: nat, n: nat)
    requires SampleSize(E) && 0 < n && 0 < copy.width && PieceFits(copy, base, E, row, n)
    ensures NarrowPiece(copy, base + copy.source + row * copy.sourceRow, copy.destination + row * copy.destinationRow,
      n, E)
         == PieceAt(copy, base, E, row, n)
  {
    hide SampleSize, Narrow, Exact;
    Positive(E);
    FieldsFit(base + copy.source + row * copy.sourceRow, copy.sourceRow, copy.width, copy.sourceStep, E, n);
    FieldsFit(copy.destination + row * copy.destinationRow, copy.destinationRow, copy.width, copy.destinationStep, E,
      n);
  }

  /** One turn of the loop of add_place_copies: the piece, unless it does not fit
      32 bits. No offset leaves size_t. */
  method NextPiece(copy: Copy, base: nat, E: nat, row: nat) returns (piece: Piece, failed: bool)
    requires Placeable(copy, base, E) && row < copy.rows
    ensures failed == !PieceFits(copy, base, E, row, RowsFrom(copy.rows, row))
    ensures !failed ==> piece == PieceAt(copy, base, E, row, RowsFrom(copy.rows, row))
  {
    hide Exact, Aligned, SpanFits, NarrowPiece, PieceAt, SampleSize, Narrow;
    var n := Narrow(if copy.rows - row < PLACE_MAX_ROWS then copy.rows - row else PLACE_MAX_ROWS);
    PieceSpan(copy.source, copy.rows, copy.sourceRow, copy.width, copy.sourceStep, E, row, n);
    PieceSpan(copy.destination, copy.rows, copy.destinationRow, copy.width, copy.destinationStep, E, row, n);
    var from := base + copy.source + row * copy.sourceRow;
    var to := copy.destination + row * copy.destinationRow;
    BaseExact(base, copy.source + row * copy.sourceRow, n, copy.sourceRow, copy.width, copy.sourceStep, E);
    var farFrom := TooFar(from, n, copy.sourceRow, copy.width, copy.sourceStep, E);
    var farTo := TooFar(to, n, copy.destinationRow, copy.width, copy.destinationStep, E);
    failed := farFrom || farTo;
    piece := NarrowPiece(copy, from, to, n, E);
    if !failed {
      NarrowExact(copy, base, E, row, n);
    }
  }

  lemma BaseExact(base: nat, offset: nat, n: nat, rowBytes: nat, w: nat, stepBytes: nat, E: nat)
    ensures Exact(base + offset, n, rowBytes, w, stepBytes, E) == base + Exact(offset, n, rowBytes, w, stepBytes, E)
  {
  }

  /** add_place_copies: on success piece_count pieces that together move exactly
      the samples of the copy; it fails exactly when some piece would address a
      sample that 32 bits cannot. */
  method AddPlaceCopies(copy: Copy, base: nat, E: nat) returns (failed: bool, pieces: seq<Piece>)
    requires Placeable(copy, base, E)
    ensures failed <==> exists k: nat :: (k * PLACE_MAX_ROWS < copy.rows &&
      !PieceFits(copy, base, E, k * PLACE_MAX_ROWS, RowsFrom(copy.rows, k * PLACE_MAX_ROWS)))
    ensures !failed ==> |pieces| == PieceCount(copy.rows)
    ensures !failed ==> Moved(pieces, copy, base, E, copy.rows)
    ensures !failed ==> forall k :: 0 <= k < |pieces| ==> 0 < pieces[k].rows <= PLACE_MAX_ROWS
  {
    hide PieceFits, PieceAt, Moved, Exact, Aligned;
    failed, pieces := false, [];
    var row: nat := 0;
    NothingMoved(copy, base, E);
    while !failed && row < copy.rows
      invariant row == |pieces| * PLACE_MAX_ROWS
      invariant !failed && 0 < |pieces| ==> row < copy.rows + PLACE_MAX_ROWS
      invariant !failed ==> Moved(pieces, copy, base, E, if row < copy.rows then row else copy.rows)
      invariant !failed ==> forall k :: 0 <= k < |pieces| ==> 0 < pieces[k].rows <= PLACE_MAX_ROWS
      invariant !failed ==> forall k: nat :: k < |pieces| ==> RowFits(copy, base, E, k)
      invariant failed ==> row < copy.rows && !RowFits(copy, base, E, |pieces|)
      decreases !failed, copy.rows - row
    {
      var piece;
      piece, failed := NextPiece(copy, base, E, row);
      if !failed {
        MovedMore(pieces, copy, base, E, row, RowsFrom(copy.rows, row));
        assert piece.rows == RowsFrom(copy.rows, row) by { PieceRows(copy, base, E, row, RowsFrom(copy.rows, row)); }
        pieces := pieces + [piece];
        row := row + PLACE_MAX_ROWS;
      }
    }
    if !failed {
      Counted(|pieces|, copy.rows);
      assert forall k: nat :: k * PLACE_MAX_ROWS < copy.rows ==> k < |pieces| && RowFits(copy, base, E, k);
    }
  }

  predicate RowFits(copy: Copy, base: nat, E: nat, k: nat)
    requires SampleSize(E)
  {
    k * PLACE_MAX_ROWS < copy.rows ==>
      PieceFits(copy, base, E, k * PLACE_MAX_ROWS, RowsFrom(copy.rows, k * PLACE_MAX_ROWS))
  }

  lemma PieceRows(copy: Copy, base: nat, E: nat, row: nat, n: nat)
    requires SampleSize(E)
    ensures PieceAt(copy, base, E, row, n).rows == n
  {
  }

  lemma NothingMoved(copy: Copy, base: nat, E: nat)
    ensures Moved([], copy, base, E, 0)
  {
  }

  lemma Counted(count: nat, rows: nat)
    requires 0 < rows && rows <= count * PLACE_MAX_ROWS < rows + PLACE_MAX_ROWS
    ensures count == PieceCount(rows)
  {
  }
}
