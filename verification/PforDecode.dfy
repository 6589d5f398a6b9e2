/** The PFOR decoder: block header checks, body, and exception patching. */
module PforDecode {
  import opened Common
  import opened Words
  import opened Arith
  import opened BitIO
  import opened Streams
  import opened PforFormat
  import opened PforUnpack
  import opened PforVector

  /** What the decoder was built for; it decides which body walk runs. */
  datatype Platform = Scalar(bigEndian: bool) | Sse2 | Avx2 | Neon

  /** Index of the lowest set bit. */
  function Ctz(w: Bits): (n: nat)
    requires Width(w) != 0
    ensures n < |w| && w[n] && forall k :: 0 <= k < n ==> !w[k]
  {
    if w[0] then 0
    else
      assert w[1..][Width(w) - 2];
      1 + Ctz(w[1..])
  }

  /** w - 1, borrowing through the zeros at the bottom. */
  function MinusOne(w: Bits): (v: Bits)
    ensures |v| == |w|
  {
    if |w| == 0 then [] else if w[0] then [false] + w[1..] else [true] + MinusOne(w[1..])
  }

  lemma {:induction false} MinusOneBit(w: Bits, k: nat)
    requires Width(w) != 0 && k < |w|
    ensures MinusOne(w)[k] == if k <= Ctz(w) then !w[k] else w[k]
  {
    if !w[0] && k > 0 {
      assert w[1..][Width(w) - 2];
      MinusOneBit(w[1..], k - 1);
    }
  }

  /** w & (w - 1) drops the lowest set bit. */
  lemma ClearLowest(w: Bits)
    requires Width(w) != 0
    ensures And(w, MinusOne(w)) == w[Ctz(w) := false]
  {
    forall k | 0 <= k < |w| ensures And(w, MinusOne(w))[k] == w[Ctz(w) := false][k] {
      MinusOneBit(w, k);
    }
  }

  lemma {:induction false} RankWord(marks: seq<bool>, w: Bits, base: nat, n: nat)
    requires base + n <= |marks| && n <= |w|
    requires forall k :: 0 <= k < n ==> w[k] == marks[base + k]
    ensures Rank(marks, base + n) == Rank(marks, base) + Rank(w, n)
  {
    if n > 0 {
      RankWord(marks, w, base, n - 1);
    }
  }

  /** Set bits of the 32-byte bitmap at byte 3. */
  method BitmapPopcount(src: seq<Byte>) returns (count: nat)
    requires |src| >= 3 + BITMAP_BYTES
    ensures count == Rank(Marks(src, 0, false), BLOCK)
  {
    count := 0;
    ghost var marks := Marks(src, 0, false);
    for i := 0 to 4
      invariant count == Rank(marks, 64 * i)
    {
      var w := LoadLe64(src, 3 + 8 * i);
      forall k | 0 <= k < 64 ensures w[k] == marks[64 * i + k] {
        assert (8 * (3 + 8 * i) + k) / 8 == 3 + (64 * i + k) / 8;
      }
      RankWord(marks, w, 64 * i, 64);
      count := count + Rank(w, 64);
    }
  }

  lemma BitmapMarks(src: seq<Byte>, nexc: nat)
    requires |src| >= 3 + BITMAP_BYTES
    ensures Marks(src, nexc, false) == Marks(src, 0, false)
  {
  }

  /** Everything the decoder checks before it touches dst; a position list is checked
      while it is applied. */
  ghost predicate Prechecked(src: seq<Byte>, E: EltBytes, h: Header)
  {
    && |src| >= 2 && h == HeaderOf(src) && h.bits <= 8 * E
    && (h.nexc != 0 ==> |src| >= 3 && h.eb != 0 && h.bits + h.eb <= 8 * E)
    && Size(h) <= |src|
    && (h.nexc != 0 && !h.list ==> PositionsOk(src, h))
  }

  lemma PrecheckedAccepts(src: seq<Byte>, E: EltBytes, h: Header)
    requires Prechecked(src, E, h)
    ensures Accepts(src, E) <==> (h.nexc != 0 && h.list ==> Ascending(src, h.nexc))
    ensures Accepts(src, E) ==>
      WireSize(src, E) == Size(h) && MarksOf(src, E) == if h.nexc == 0 then Zero(BLOCK) else Marks(src, h.nexc, h.list)
  {
  }

  method CheckHeader(src: seq<Byte>, E: EltBytes) returns (h: Option<Header>)
    ensures h.Some? ==> Prechecked(src, E, h.value)
    ensures h.None? ==> !Accepts(src, E)
  {
    hide FromByte, Rank, Marks;
    if |src| < 2 {
      return None;
    }
    var bits := FromByte(src[0]);
    var nexc := FromByte(src[1]);
    if bits > 8 * E {
      return None;
    }
    var left := |src| - 2;
    var hdr := Header(bits, nexc, 0, false);
    if nexc != 0 {
      if left < 1 {
        return None;
      }
      hdr := Header(bits, nexc, FromByte(src[2]) % 128, FromByte(src[2]) / 128 == 1);
      left := left - 1;
      if hdr.eb == 0 || bits + hdr.eb > 8 * E {
        return None;
      }
      var exc := PositionBytes(nexc, hdr.list) + HighBytes(nexc, hdr.eb);
      if left < exc {
        return None;
      }
      if !hdr.list {
        var count := BitmapPopcount(src);
        BitmapMarks(src, nexc);
        if count != nexc {
          return None;
        }
      }
      left := left - exc;
    }
    if left < BodyBytes(bits) {
      return None;
    }
    return Some(hdr);
  }

  /** memcpy of a full-width body: every group is one slot. */
  method CopyBody(dst: array<Bits>, off: nat, src: seq<Byte>, at: nat, E: EltBytes)
    requires off + BLOCK <= dst.Length && at + BodyBytes(8 * E) <= |src|
    modifies dst
    ensures Unpacked(dst[off..off + BLOCK], src, at, E, 8 * E)
    ensures forall i :: 0 <= i < dst.Length && !(off <= i < off + BLOCK) ==> dst[i] == old(dst[i])
  {
    for s := 0 to Slots(E)
      invariant RunsDone(dst[off..off + BLOCK], src, at, E, 8 * E, false, s)
      invariant forall i :: 0 <= i < dst.Length && !(off <= i < off + BLOCK) ==> dst[i] == old(dst[i])
    {
      CopySlot(dst, off, src, at, E, s);
    }
    RunsAll(dst[off..off + BLOCK], src, at, E, 8 * E, false);
  }

  method CopySlot(dst: array<Bits>, off: nat, src: seq<Byte>, at: nat, E: EltBytes, s: nat)
    requires off + BLOCK <= dst.Length && at + BodyBytes(8 * E) <= |src| && s < Slots(E)
    requires RunsDone(dst[off..off + BLOCK], src, at, E, 8 * E, false, s)
    modifies dst
    ensures RunsDone(dst[off..off + BLOCK], src, at, E, 8 * E, false, s + 1)
    ensures forall i :: 0 <= i < dst.Length && !(off <= i < off + BLOCK) ==> dst[i] == old(dst[i])
  {
    var w := LoadLanes(src, at, E, 8 * E, at + GROUP * s, s);
    TimesIsProduct(s, 8 * E);
    assert WordStart(E, s) == Times(s, 8 * E);
    ghost var fs := VectorStreams(src, at, E, 8 * E, false);
    assert SlotOut(w, 0, fs, E, 8 * E, s);
    StoreNext(dst, off, w, src, at, E, 8 * E, false, s);
  }

  method UnpackBody(platform: Platform, dst: array<Bits>, off: nat, src: seq<Byte>, at: nat, E: EltBytes, bits: nat)
    requires off + BLOCK <= dst.Length && bits <= 8 * E && at + BodyBytes(bits) <= |src|
    modifies dst
    ensures Unpacked(dst[off..off + BLOCK], src, at, E, bits)
    ensures forall i :: 0 <= i < dst.Length && !(off <= i < off + BLOCK) ==> dst[i] == old(dst[i])
  {
    if bits == 0 {
      ClearBody(dst, off, src, at, E);
    } else if !(platform.Scalar? && platform.bigEndian) && bits == 8 * E {
      CopyBody(dst, off, src, at, E);
    } else {
      var vector :=
        if platform.Scalar? then false
        else if E == 1 then bits > 1
        else if E == 2 then !platform.Neon? || bits == 7 || bits == 8
        else if E == 4 then false
        else bits >= 16;
      if vector {
        UnpackVector(dst, off, src, at, E, bits, platform.Avx2? && E <= 2);
      } else {
        UnpackScalar(dst, off, src, at, E, bits);
      }
    }
  }

  method ClearBody(dst: array<Bits>, off: nat, src: seq<Byte>, at: nat, E: EltBytes)
    requires off + BLOCK <= dst.Length && at <= |src|
    modifies dst
    ensures Unpacked(dst[off..off + BLOCK], src, at, E, 0)
    ensures forall i :: 0 <= i < dst.Length && !(off <= i < off + BLOCK) ==> dst[i] == old(dst[i])
  {
    for i := 0 to BLOCK
      invariant forall k :: 0 <= k < i ==> dst[off + k] == BodyWord(src, at, E, 0, k)
      invariant forall k :: 0 <= k < dst.Length && !(off <= k < off + BLOCK) ==> dst[k] == old(dst[k])
    {
      dst[off + i] := Zero(8 * E);
      assert Zero(8 * E) == BodyWord(src, at, E, 0, i);
    }
  }

  // ---------------------------------------------------------------------------
  // Exceptions

  /** Values below n are final, the others still hold their low bits. */
  ghost predicate Patched(d: seq<Bits>, src: seq<Byte>, E: EltBytes, h: Header, marks: seq<bool>, n: nat)
    requires |d| == |marks| == BLOCK && |src| >= Size(h)
  {
    forall i :: 0 <= i < BLOCK ==>
      d[i] == if i < n then Values(src, E, h, marks)[i] else BodyWord(src, BodyAt(h), E, h.bits, i)
  }

  /** A value that is no exception is its low bits. */
  lemma PlainValue(src: seq<Byte>, E: EltBytes, h: Header, marks: seq<bool>, i: nat)
    requires |marks| == BLOCK && |src| >= Size(h) && i < BLOCK && !marks[i]
    ensures Values(src, E, h, marks)[i] == BodyWord(src, BodyAt(h), E, h.bits, i)
  {
    var v, w := Values(src, E, h, marks)[i], BodyWord(src, BodyAt(h), E, h.bits, i);
    forall j | 0 <= j < 8 * E ensures v[j] == w[j] {
      BodyWordBit(src, BodyAt(h), E, h.bits, i, j);
    }
  }

  /** OR-ing the high bits in completes an exception. */
  lemma PatchedValue(src: seq<Byte>, E: EltBytes, h: Header, marks: seq<bool>, i: nat, high: Bits)
    requires |marks| == BLOCK && |src| >= Size(h) && i < BLOCK && marks[i] && Rank(marks, i) < h.nexc
    requires |high| == 64 && h.eb <= 64
    requires forall j :: 0 <= j < 64 ==>
      high[j] == (j < h.eb && HighBit(src, HighAt(h), h.nexc, h.eb, Rank(marks, i), j))
    ensures Or(BodyWord(src, BodyAt(h), E, h.bits, i), Shl(Cast(high, 8 * E), h.bits)) == Values(src, E, h, marks)[i]
  {
    var v := Values(src, E, h, marks)[i];
    var w := BodyWord(src, BodyAt(h), E, h.bits, i);
    var x := Or(w, Shl(Cast(high, 8 * E), h.bits));
    forall j | 0 <= j < 8 * E ensures x[j] == v[j] {
      BodyWordBit(src, BodyAt(h), E, h.bits, i, j);
      if h.bits <= j {
        assert Shl(Cast(high, 8 * E), h.bits)[j] == high[j - h.bits];
      }
    }
  }

  /** Reads one entry of the high-bit stream with whichever reader is in bounds. */
  method GetHigh(src: seq<Byte>, at: nat, bitPos: nat, highBytes: nat, eb: nat) returns (high: Bits, next: nat)
    requires eb <= 64 && at + highBytes <= |src| && bitPos + eb <= 8 * highBytes
    ensures next == bitPos + eb && |high| == 64
    ensures forall j :: 0 <= j < 64 ==> high[j] == (j < eb && BitAt(src, 8 * at + bitPos + j))
  {
    var wide := eb <= WIDE_MAX && highBytes >= 8;
    var wideLimit := if wide then highBytes - 8 else 0;
    if wide && bitPos / 8 <= wideLimit {
      high, next := GetBitsWide(src, at, bitPos, eb);
    } else {
      high, next := GetBits(src, at, bitPos, eb);
    }
  }

  /** PFOR_PATCH at value i, whose exception is the e-th. */
  method PatchOne(dst: array<Bits>, off: nat, src: seq<Byte>, E: EltBytes, h: Header, i: nat, bitPos: nat, ghost e: nat)
    returns (next: nat, ghost high: Bits)
    requires off + BLOCK <= dst.Length && |src| >= Size(h) && h.nexc != 0 && h.bits + h.eb <= 8 * E
    requires i < BLOCK && |dst[off + i]| == 8 * E && e < h.nexc && bitPos == Times(e, h.eb)
    modifies dst
    ensures next == Times(e + 1, h.eb) && |high| == 64
    ensures forall j :: 0 <= j < 64 ==> high[j] == (j < h.eb && HighBit(src, HighAt(h), h.nexc, h.eb, e, j))
    ensures dst[off..off + BLOCK]
      == old(dst[off..off + BLOCK])[i := Or(old(dst[off + i]), Shl(Cast(high, 8 * E), h.bits))]
    ensures forall k :: 0 <= k < dst.Length && k != off + i ==> dst[k] == old(dst[k])
  {
    TimesStep(e, h.nexc, h.eb);
    var v;
    v, next := GetHigh(src, HighAt(h), bitPos, HighBytes(h.nexc, h.eb), h.eb);
    high := v;
    dst[off + i] := Or(dst[off + i], Shl(Cast(v, 8 * E), h.bits));
  }

  lemma PatchStep(before: seq<Bits>, after: seq<Bits>, src: seq<Byte>, E: EltBytes, h: Header, marks: seq<bool>,
                  n: nat, i: nat, high: Bits)
    requires |before| == |after| == |marks| == BLOCK && |src| >= Size(h) && n <= i < BLOCK
    requires h.bits + h.eb <= 8 * E && |high| == 64
    requires marks[i] && Rank(marks, i) < h.nexc && forall k :: n <= k < i ==> !marks[k]
    requires Patched(before, src, E, h, marks, n)
    requires forall j :: 0 <= j < 64 ==>
      high[j] == (j < h.eb && HighBit(src, HighAt(h), h.nexc, h.eb, Rank(marks, i), j))
    requires |before[i]| == 8 * E && after == before[i := Or(before[i], Shl(Cast(high, 8 * E), h.bits))]
    ensures Patched(after, src, E, h, marks, i + 1)
  {
    PatchedValue(src, E, h, marks, i, high);
    forall k | 0 <= k < BLOCK
      ensures after[k] == if k < i + 1 then Values(src, E, h, marks)[k] else BodyWord(src, BodyAt(h), E, h.bits, k)
    {
      if n <= k < i {
        PlainValue(src, E, h, marks, k);
      }
    }
  }

  lemma PatchDone(d: seq<Bits>, src: seq<Byte>, E: EltBytes, h: Header, marks: seq<bool>, n: nat)
    requires |d| == |marks| == BLOCK && |src| >= Size(h) && n <= BLOCK
    requires Patched(d, src, E, h, marks, n) && forall k :: n <= k < BLOCK ==> !marks[k]
    ensures d == Values(src, E, h, marks)
  {
    forall k | 0 <= k < BLOCK ensures d[k] == Values(src, E, h, marks)[k] {
      if n <= k {
        PlainValue(src, E, h, marks, k);
      }
    }
  }

  /** The state of the patch loops: values below n final, entry e of the stream next. */
  ghost predicate PatchAt(d: seq<Bits>, src: seq<Byte>, E: EltBytes, h: Header, marks: seq<bool>, n: nat, bitPos: nat)
    requires |d| == |marks| == BLOCK && |src| >= Size(h) && n <= BLOCK
  {
    Patched(d, src, E, h, marks, n) && bitPos == Times(Rank(marks, n), h.eb)
  }

  lemma NextMark(marks: seq<bool>, n: nat, i: nat)
    requires |marks| == BLOCK && n <= i < BLOCK && marks[i] && forall k :: n <= k < i ==> !marks[k]
    ensures Rank(marks, n) == Rank(marks, i) < Rank(marks, BLOCK) && Rank(marks, i + 1) == Rank(marks, i) + 1
  {
    RankFlat(marks, n, i);
    RankStep(marks, i, BLOCK);
  }

  /** Patches the next marked value, i, and moves the frontier past it. */
  method PatchNext(dst: array<Bits>, off: nat, src: seq<Byte>, E: EltBytes, h: Header, i: nat, bitPos: nat,
                   ghost marks: seq<bool>, ghost n: nat)
    returns (next: nat)
    requires off + BLOCK <= dst.Length && |src| >= Size(h) && h.nexc != 0 && h.bits + h.eb <= 8 * E
    requires |marks| == BLOCK && Rank(marks, BLOCK) == h.nexc && n <= i < BLOCK && marks[i]
    requires forall k :: n <= k < i ==> !marks[k]
    requires PatchAt(dst[off..off + BLOCK], src, E, h, marks, n, bitPos)
    modifies dst
    ensures PatchAt(dst[off..off + BLOCK], src, E, h, marks, i + 1, next)
    ensures forall k :: 0 <= k < dst.Length && !(off <= k < off + BLOCK) ==> dst[k] == old(dst[k])
  {
    NextMark(marks, n, i);
    hide Rank, Values, HighBit, Times;
    ghost var before := dst[off..off + BLOCK];
    assert before[i] == dst[off + i];
    ghost var high;
    next, high := PatchOne(dst, off, src, E, h, i, bitPos, Rank(marks, i));
    PatchStep(before, dst[off..off + BLOCK], src, E, h, marks, n, i, high);
  }

  method PatchBitmap(dst: array<Bits>, off: nat, src: seq<Byte>, E: EltBytes, h: Header, ghost marks: seq<bool>)
    requires off + BLOCK <= dst.Length && Prechecked(src, E, h) && h.nexc != 0 && !h.list
    requires marks == Marks(src, h.nexc, false)
    requires Unpacked(dst[off..off + BLOCK], src, BodyAt(h), E, h.bits)
    modifies dst
    ensures dst[off..off + BLOCK] == Values(src, E, h, marks)
    ensures forall k :: 0 <= k < dst.Length && !(off <= k < off + BLOCK) ==> dst[k] == old(dst[k])
  {
    var bitPos := 0;
    ghost var n: nat := 0;
    for w := 0 to 4
      invariant n <= BLOCK && forall k :: n <= k < 64 * w ==> !marks[k]
      invariant n <= 64 * w
      invariant PatchAt(dst[off..off + BLOCK], src, E, h, marks, n, bitPos)
      invariant forall k :: 0 <= k < dst.Length && !(off <= k < off + BLOCK) ==> dst[k] == old(dst[k])
    {
      bitPos, n := PatchBitmapWord(dst, off, src, E, h, w, bitPos, marks, n);
    }
    PatchDone(dst[off..off + BLOCK], src, E, h, marks, n);
  }

  /** Visits the set bits of word w of the bitmap from the lowest up. */
  method PatchBitmapWord(dst: array<Bits>, off: nat, src: seq<Byte>, E: EltBytes, h: Header, w: nat, bitPos: nat,
                         ghost marks: seq<bool>, ghost n: nat)
    returns (next: nat, ghost n': nat)
    requires off + BLOCK <= dst.Length && Prechecked(src, E, h) && h.nexc != 0 && !h.list && w < 4
    requires marks == Marks(src, h.nexc, false)
    requires n <= 64 * w && forall k :: n <= k < 64 * w ==> !marks[k]
    requires PatchAt(dst[off..off + BLOCK], src, E, h, marks, n, bitPos)
    modifies dst
    ensures n' <= 64 * (w + 1) && forall k :: n' <= k < 64 * (w + 1) ==> !marks[k]
    ensures PatchAt(dst[off..off + BLOCK], src, E, h, marks, n', next)
    ensures forall k :: 0 <= k < dst.Length && !(off <= k < off + BLOCK) ==> dst[k] == old(dst[k])
  {
    hide PatchAt, BitAt, Width, And, MinusOne;
    var bitmap := LoadLe64(src, 3 + 8 * w);
    BitmapWord(src, h, w, bitmap, marks);
    next, n' := bitPos, n;
    while Width(bitmap) != 0
      invariant |bitmap| == 64 && n' <= 64 * (w + 1)
      invariant forall k :: n' <= k < 64 * w ==> !marks[k]
      invariant forall k :: 64 * w <= k < 64 * (w + 1) ==> bitmap[k - 64 * w] == (n' <= k && marks[k])
      invariant PatchAt(dst[off..off + BLOCK], src, E, h, marks, n', next)
      invariant forall k :: 0 <= k < dst.Length && !(off <= k < off + BLOCK) ==> dst[k] == old(dst[k])
      decreases 64 * (w + 1) - n'
    {
      var i := 64 * w + Ctz(bitmap);
      ClearLowest(bitmap);
      assert bitmap[i - 64 * w] == (n' <= i && marks[i]);
      forall k | n' <= k < i ensures !marks[k] {
        assert k >= 64 * w ==> !bitmap[k - 64 * w];
      }
      bitmap := And(bitmap, MinusOne(bitmap));
      next := PatchNext(dst, off, src, E, h, i, next, marks, n');
      n' := i + 1;
    }
  }

  lemma BitmapWord(src: seq<Byte>, h: Header, w: nat, bitmap: Bits, marks: seq<bool>)
    requires |src| >= 3 + BITMAP_BYTES && w < 4 && |bitmap| == 64 && marks == Marks(src, h.nexc, false)
    requires forall k :: 0 <= k < 64 ==> bitmap[k] == BitAt(src, 8 * (3 + 8 * w) + k)
    ensures forall k :: 64 * w <= k < 64 * (w + 1) ==> bitmap[k - 64 * w] == marks[k]
  {
    forall k | 64 * w <= k < 64 * (w + 1) ensures bitmap[k - 64 * w] == marks[k] {
      assert bitmap[k - 64 * w] == BitAt(src, 8 * (3 + 8 * w) + (k - 64 * w));
      assert (8 * (3 + 8 * w) + (k - 64 * w)) / 8 == 3 + k / 8;
    }
  }

  /** Visits the position list in order, and stops at the first entry out of order. */
  method PatchList(dst: array<Bits>, off: nat, src: seq<Byte>, E: EltBytes, h: Header) returns (ok: bool)
    requires off + BLOCK <= dst.Length && Prechecked(src, E, h) && h.nexc != 0 && h.list
    requires Unpacked(dst[off..off + BLOCK], src, BodyAt(h), E, h.bits)
    modifies dst
    ensures ok <==> Ascending(src, h.nexc)
    ensures ok ==> dst[off..off + BLOCK] == Values(src, E, h, Marks(src, h.nexc, true))
    ensures forall k :: 0 <= k < dst.Length && !(off <= k < off + BLOCK) ==> dst[k] == old(dst[k])
  {
    hide Ascending, ListAt, Marks, Values, Unpacked, HighBit, Size, Prechecked;
    ListSize(src, E, h);
    ListNone(dst[off..off + BLOCK], src, E, h);
    var bitPos := 0;
    var prev: nat := 0;
    for e := 0 to h.nexc
      invariant bitPos == Times(e, h.eb)
      invariant Ascending(src, e)
      invariant e > 0 ==> prev == PosAt(src, e - 1)
      invariant forall i :: off <= i < off + BLOCK ==> |dst[i]| == 8 * E
      invariant Ascending(src, h.nexc) ==> ListAt(dst[off..off + BLOCK], src, E, h, e)
      invariant forall k :: 0 <= k < dst.Length && !(off <= k < off + BLOCK) ==> dst[k] == old(dst[k])
    {
      var i := PosAt(src, e);
      AscendingStep(src, e, h.nexc);
      if e != 0 && i <= prev {
        return false;
      }
      prev := i;
      ghost var before := dst[off..off + BLOCK];
      ghost var high;
      assert before[i] == dst[off + i];
      bitPos, high := PatchOne(dst, off, src, E, h, i, bitPos, e);
      if Ascending(src, h.nexc) {
        ListStep(before, dst[off..off + BLOCK], src, E, h, e, high);
      }
    }
    ListDone(dst[off..off + BLOCK], src, E, h);
    return true;
  }

  lemma ListSize(src: seq<Byte>, E: EltBytes, h: Header)
    requires Prechecked(src, E, h) && h.nexc != 0 && h.list
    ensures |src| >= Size(h) && |src| >= 3 + h.nexc && h.bits + h.eb <= 8 * E
    ensures Ascending(src, 0)
  {
  }

  lemma ListNone(d: seq<Bits>, src: seq<Byte>, E: EltBytes, h: Header)
    requires |d| == BLOCK && Prechecked(src, E, h) && h.nexc != 0 && h.list
    requires Unpacked(d, src, BodyAt(h), E, h.bits)
    ensures ListAt(d, src, E, h, 0)
    ensures forall i :: 0 <= i < BLOCK ==> |d[i]| == 8 * E
  {
    hide Values, Marks, BodyWord;
  }

  lemma AscendingStep(src: seq<Byte>, e: nat, n: nat)
    requires |src| >= 3 + n && e < n && Ascending(src, e)
    ensures e > 0 && PosAt(src, e) <= PosAt(src, e - 1) ==> !Ascending(src, n)
    ensures !(e > 0 && PosAt(src, e) <= PosAt(src, e - 1)) ==> Ascending(src, e + 1)
  {
  }

  /** Entries below e of an ascending list have been applied. */
  ghost predicate ListAt(d: seq<Bits>, src: seq<Byte>, E: EltBytes, h: Header, e: nat)
    requires |d| == BLOCK && |src| >= Size(h) && h.list && h.nexc != 0 && e <= h.nexc
  {
    Patched(d, src, E, h, Marks(src, h.nexc, true), if e == 0 then 0 else PosAt(src, e - 1) + 1)
  }

  lemma ListStep(before: seq<Bits>, after: seq<Bits>, src: seq<Byte>, E: EltBytes, h: Header, e: nat, high: Bits)
    requires |before| == |after| == BLOCK && |src| >= Size(h) && h.list && e < h.nexc
    requires Ascending(src, h.nexc) && ListAt(before, src, E, h, e)
    requires h.bits + h.eb <= 8 * E && |high| == 64
    requires forall j :: 0 <= j < 64 ==> high[j] == (j < h.eb && HighBit(src, HighAt(h), h.nexc, h.eb, e, j))
    requires |before[PosAt(src, e)]| == 8 * E
    requires after == before[PosAt(src, e) := Or(before[PosAt(src, e)], Shl(Cast(high, 8 * E), h.bits))]
    ensures ListAt(after, src, E, h, e + 1)
  {
    var marks := Marks(src, h.nexc, true);
    var n := if e == 0 then 0 else PosAt(src, e - 1) + 1;
    ListRank(src, h.nexc, e);
    forall m | n <= m < PosAt(src, e) ensures !marks[m] {
      ListGap(src, h.nexc, e, m);
    }
    PatchStep(before, after, src, E, h, marks, n, PosAt(src, e), high);
  }

  /** No value is marked between two consecutive entries, nor after the last. */
  lemma ListGap(src: seq<Byte>, n: nat, e: nat, m: nat)
    requires |src| >= 3 + n && Ascending(src, n) && e <= n && m < BLOCK
    requires e > 0 ==> PosAt(src, e - 1) < m
    requires e < n ==> m < PosAt(src, e)
    ensures !Marks(src, n, true)[m]
  {
  }

  lemma ListDone(d: seq<Bits>, src: seq<Byte>, E: EltBytes, h: Header)
    requires |d| == BLOCK && |src| >= Size(h) && h.list && h.nexc != 0
    requires Ascending(src, h.nexc) && ListAt(d, src, E, h, h.nexc)
    ensures d == Values(src, E, h, Marks(src, h.nexc, true))
  {
    var n := PosAt(src, h.nexc - 1) + 1;
    forall m | n <= m < BLOCK ensures !Marks(src, h.nexc, true)[m] {
      ListGap(src, h.nexc, h.nexc, m);
    }
    PatchDone(d, src, E, h, Marks(src, h.nexc, true), n);
  }
}
