/** What the encoder puts into the holes (core/src/nodata/encode_nodata_kernel.c). */
module NoDataFill {
  import opened Common
  import Arith
  import opened NoDataGuard

  // The nearest valid sample at or left of i in its row, which starts at row.
  function LastValid(mask: seq<nat>, row: nat, i: int): Option<nat>
    requires row <= i + 1 <= |mask|
    decreases i + 1 - row
  {
    if i < row then None else if mask[i] != INVALID then Some(i) else LastValid(mask, row, i - 1)
  }

  /** What position i holds after the fill: the nearest valid sample on its left
      in the row, else what the row above holds there, else zero. */
  function Filled(src: seq<nat>, mask: seq<nat>, w: nat, i: nat): nat
    requires 0 < w && i < |src| == |mask|
    decreases i
  {
    var row := i - i % w;
    match LastValid(mask, row, i)
    case Some(j) => (LastValidIs(mask, row, i); src[j])
    case None => if row > 0 then (RowAbove(w, i); Filled(src, mask, w, i - w)) else 0
  }

  lemma {:induction false} LastValidIs(mask: seq<nat>, row: nat, i: int)
    requires row <= i + 1 <= |mask|
    ensures LastValid(mask, row, i).Some? ==>
      row <= LastValid(mask, row, i).value <= i && mask[LastValid(mask, row, i).value] != INVALID
    ensures LastValid(mask, row, i).Some? ==> forall k :: LastValid(mask, row, i).value < k <= i ==> mask[k] == INVALID
    ensures LastValid(mask, row, i).None? ==> forall k :: row <= k <= i ==> mask[k] == INVALID
    decreases i + 1 - row
  {
    if row <= i && mask[i] == INVALID {
      LastValidIs(mask, row, i - 1);
    }
  }

  lemma RowAbove(w: nat, i: nat)
    requires 0 < w && i - i % w > 0
    ensures w <= i
  {
    if i < w {
      SmallMod(w, i);
    }
  }

  lemma SmallMod(w: nat, i: nat)
    requires i < w
    ensures i % w == i
  {
  }

  lemma RowOf(w: nat, off: nat, c: nat)
    requires 0 < w && off % w == 0 && c < w
    ensures off + c - (off + c) % w == off
  {
    DivRow(w, off / w, c);
  }

  lemma DivRow(w: nat, q: nat, c: nat)
    requires c < w
    ensures (q * w + c) % w == c
  {
    Arith.DivModUnique(q, w, c);
  }

  function FillWidth(width: nat, n: nat): (w: nat)
    requires 0 < n
    ensures 0 < w <= n && n % w == 0
  {
    if width == 0 || width > n || n % width != 0 then (WholeRow(n); n) else width
  }

  lemma WholeRow(n: nat)
    requires 0 < n
    ensures n % n == 0
  {
    Arith.DivModUnique(1, n, 0);
  }

  /** nodata_fill, also over its own input. */
  method Fill(dst: array<nat>, src: array<nat>, mask: seq<nat>, width: nat)
    requires dst.Length == src.Length == |mask|
    modifies dst
    ensures |mask| > 0 ==> forall i :: 0 <= i < |mask| ==>
      dst[i] == Filled(old(src[..]), mask, FillWidth(width, |mask|), i)
  {
    if |mask| == 0 {
      return;
    }
    hide FillWidth, Filled;
    ghost var samples := src[..];
    var w := FillWidth(width, |mask|);
    var off: nat := 0;
    NoOffset(w);
    while off < |mask|
      invariant off <= |mask| && off % w == 0
      invariant forall i :: 0 <= i < off ==> dst[i] == Filled(samples, mask, w, i)
      invariant forall i :: off <= i < |mask| ==> src[i] == samples[i]
      decreases |mask| - off
    {
      RowEnd(w, off, |mask|);
      FillRow(dst, src, mask, w, off, samples);
      off := off + w;
    }
  }

  lemma NoOffset(w: nat)
    requires 0 < w
    ensures 0 % w == 0
  {
    SmallMod(w, 0);
  }

  lemma RowEnd(w: nat, off: nat, n: nat)
    requires 0 < w && off % w == 0 && n % w == 0 && off < n
    ensures off + w <= n && (off + w) % w == 0
  {
    Arith.DivModParts(off, w);
    Arith.DivModParts(n, w);
    if n / w <= off / w {
      Arith.MulMono(n / w, off / w, w);
      assert false;
    }
    Arith.MulMonoStrict(off / w, n / w, w);
    Arith.DivModUnique(off / w + 1, w, 0);
    NextRow(off / w, w);
  }

  lemma NextRow(q: nat, w: nat)
    ensures (q + 1) * w + 0 == q * w + w
  {
  }

  // One row; samples is what the source held at the start.
  method FillRow(dst: array<nat>, src: array<nat>, mask: seq<nat>, w: nat, off: nat, ghost samples: seq<nat>)
    requires dst.Length == src.Length == |mask| == |samples| && 0 < w && off % w == 0 && off + w <= |mask|
    requires forall i :: 0 <= i < off ==> dst[i] == Filled(samples, mask, w, i)
    requires forall i :: off <= i < |mask| ==> src[i] == samples[i]
    modifies dst
    ensures forall i :: 0 <= i < off + w ==> dst[i] == Filled(samples, mask, w, i)
    ensures forall i :: off + w <= i < |mask| ==> src[i] == samples[i]
  {
    hide Filled;
    var last, seen := 0, false;
    for c := 0 to w
      invariant forall i :: 0 <= i < off + c ==> dst[i] == Filled(samples, mask, w, i)
      invariant forall i :: off + c <= i < |mask| ==> src[i] == samples[i]
      invariant seen == LastValid(mask, off, off + c - 1).Some?
      invariant seen ==> last == SampleAt(samples, mask, off, off + c - 1)
    {
      var i := off + c;
      RowOf(w, off, c);
      FilledIs(samples, mask, w, i, off);
      if mask[i] != INVALID {
        last, seen := src[i], true;
        dst[i] := last;
      } else if seen {
        dst[i] := last;
      } else if off > 0 {
        dst[i] := dst[i - w];
      } else {
        dst[i] := 0;
      }
    }
  }

  function SampleAt(src: seq<nat>, mask: seq<nat>, row: nat, i: int): nat
    requires row <= i + 1 <= |mask| == |src| && LastValid(mask, row, i).Some?
  {
    LastValidIs(mask, row, i);
    src[LastValid(mask, row, i).value]
  }

  lemma FilledIs(src: seq<nat>, mask: seq<nat>, w: nat, i: nat, row: nat)
    requires 0 < w && i < |src| == |mask| && row == i - i % w
    ensures Filled(src, mask, w, i) ==
      if LastValid(mask, row, i).Some? then SampleAt(src, mask, row, i)
      else if row > 0 then (RowAbove(w, i); Filled(src, mask, w, i - w)) else 0
    ensures row > 0 ==> w <= i
    ensures LastValid(mask, row, i) == if mask[i] != INVALID then Some(i) else LastValid(mask, row, i - 1)
  {
    if row > 0 {
      RowAbove(w, i);
    }
  }

  /** The fill keeps every valid sample, and what it writes into the holes does
      not depend on what they held. */
  lemma {:induction false} FillKeepsValid(src: seq<nat>, other: seq<nat>, mask: seq<nat>, w: nat, i: nat)
    requires 0 < w && i < |src| == |mask| == |other|
    requires forall k :: 0 <= k < |src| && mask[k] != INVALID ==> src[k] == other[k]
    ensures mask[i] != INVALID ==> Filled(src, mask, w, i) == src[i]
    ensures Filled(src, mask, w, i) == Filled(other, mask, w, i)
    decreases i
  {
    var row := i - i % w;
    LastValidIs(mask, row, i);
    if LastValid(mask, row, i).None? && row > 0 {
      RowAbove(w, i);
      FillKeepsValid(src, other, mask, w, i - w);
    }
  }
}
