/** The planar and planar-Zigzag codecs: planes of rows, decoded whole or in consecutive
    chunks of any length, in place as well. */
module PlanarCodec {
  import opened Common
  import opened Arith
  import opened Machine
  import opened PrefixSums
  import opened PlanarRows
  import opened MedCodec

  // ---------------------------------------------------------------------------
  // Planes

  /** Rows of w samples in planes of planeElts samples; no sample looks outside its plane. */
  function GridOf(w: nat, planeElts: nat): Grid
    requires 0 < w && 0 < planeElts
  {
    Grid(w, (p: nat) => p % planeElts % w > 0, (p: nat) => p % planeElts >= w)
  }

  lemma ModBelow(p: nat, m: nat)
    requires 0 < m
    ensures p % m <= p && p % m < m && (p < m ==> p % m == p)
  {
    DivModParts(p, m);
    if p < m {
      DivModUnique(0, m, p);
    }
  }

  lemma GridOfOk(w: nat, planeElts: nat)
    requires 0 < w && 0 < planeElts
    ensures GridOk(GridOf(w, planeElts))
  {
    forall p: nat
      ensures var g := GridOf(w, planeElts);
        (g.left(p) ==> p >= 1) && (g.up(p) ==> p >= w) && (g.left(p) && g.up(p) ==> p >= w + 1)
    {
      ModBelow(p, planeElts);
      ModBelow(p % planeElts, w);
      DivModUnique(1, w, 0);
    }
  }

  predicate PlaneOk(w: nat, planeElts: nat) { 0 < w <= planeElts && planeElts % w == 0 }

  /** Position p is column column of row row of its plane, and that row fits the plane. */
  lemma Coordinates(w: nat, planeElts: nat, p: nat)
    requires PlaneOk(w, planeElts)
    ensures var inPlane := p % planeElts;
      && inPlane == inPlane / w * w + inPlane % w && inPlane % w < w
      && inPlane / w * w + w <= planeElts
      && (inPlane / w > 0 <==> inPlane >= w)
  {
    var inPlane := p % planeElts;
    ModBelow(p, planeElts);
    DivModParts(inPlane, w);
    DivModParts(planeElts, w);
    var row, rows := inPlane / w, planeElts / w;
    if row >= rows {
      MulMono(rows, row, w);
    } else {
      MulMono(row + 1, rows, w);
    }
    if row > 0 {
      MulMono(1, row, w);
    }
  }

  /** q stands j samples behind p in the same row. */
  lemma SameRow(w: nat, planeElts: nat, p: nat, j: nat)
    requires PlaneOk(w, planeElts) && p % planeElts % w + j < w
    ensures (p + j) % planeElts == p % planeElts + j
    ensures (p + j) % planeElts % w == p % planeElts % w + j
    ensures (p + j) % planeElts >= w <==> p % planeElts >= w
  {
    var inPlane := p % planeElts;
    Coordinates(w, planeElts, p);
    DivModParts(p, planeElts);
    DivModUnique(p / planeElts, planeElts, inPlane + j);
    DivModUnique(inPlane / w, w, inPlane % w + j);
    assert p + j == p / planeElts * planeElts + (inPlane + j);
    assert inPlane + j == inPlane / w * w + (inPlane % w + j);
    if inPlane / w == 0 {
      assert inPlane / w * w == 0;
    }
  }

  lemma RunInRow(w: nat, planeElts: nat, p: nat, n: nat)
    requires PlaneOk(w, planeElts) && p % planeElts % w + n <= w
    ensures InRow(GridOf(w, planeElts), p, n)
  {
    var g := GridOf(w, planeElts);
    forall q: nat | p <= q < p + n ensures (p < q ==> g.left(q)) && g.up(q) == g.up(p) {
      SameRow(w, planeElts, p, q - p);
    }
  }

  // ---------------------------------------------------------------------------
  // The stream decoder

  function ColumnAt(w: nat, planeElts: nat, pos: nat): (c: nat)
    requires 0 < w && 0 < planeElts
    ensures c < w
  {
    pos % planeElts % w
  }

  function RowAt(w: nat, planeElts: nat, pos: nat): nat
    requires 0 < w && 0 < planeElts
  {
    pos % planeElts / w
  }

  /** What the coordinates of pos say about a run of n samples from there. */
  lemma RunFacts(w: nat, planeElts: nat, pos: nat, n: nat)
    requires PlaneOk(w, planeElts) && ColumnAt(w, planeElts, pos) + n <= w
    ensures var g := GridOf(w, planeElts);
      GridOk(g) && g.w == w && InRow(g, pos, n) && (ColumnAt(w, planeElts, pos) == 0 <==> !g.left(pos))
        && (RowAt(w, planeElts, pos) == 0 <==> !g.up(pos))
  {
    GridOfOk(w, planeElts);
    Coordinates(w, planeElts, pos);
    RunInRow(w, planeElts, pos, n);
    hide GridOk, InRow;
  }

  /** One turn of the loop of planar_zigzag_decode_stream: the rest of a row, or what is
      left of the chunk. */
  method DecodeRun(isa: Isa, B: nat, d: array<nat>, z: array<nat>, pos: nat, zp: nat, left: nat, w: nat,
                   planeElts: nat, res: Map, fold: bool, ghost r: At, ghost zAt: nat, ghost offset: nat)
    returns (n: nat)
    requires fold ==> Unfolds(B, res)
    requires PlaneOk(w, planeElts)
      && Going(Size(B), GridOf(w, planeElts), d[..], z[..], zAt, offset, res, r, pos, pos + left)
    requires ResOk(Size(B), res) && (z == d ==> zAt == offset) && left > 0 && zp == zAt + (pos - offset)
      && pos + left <= d.Length
    modifies d
    ensures 0 < n <= left
    ensures Going(Size(B), GridOf(w, planeElts), d[..], z[..], zAt, offset, res, r, pos + n, pos + left)
    ensures SameOutside(old(d[..]), d[..], pos, pos + n)
  {
    hide Going, ResOk, Reconstructed, Wrap, GridOf, ColumnAt, RowAt, InRow, GridOk;
    ghost var g := GridOf(w, planeElts);
    var column, row := ColumnAt(w, planeElts, pos), RowAt(w, planeElts, pos);
    var rowLeft := w - column;
    n := if left < rowLeft then left else rowLeft;
    RunFacts(w, planeElts, pos, n);
    LeftExists(g, pos);
    var initial := if column == 0 then 0 else d[pos - 1];
    if row == 0 {
      FirstRowRun(isa, B, d, z, pos, zp, n, initial, res, fold, g, r, zAt, offset, pos + left);
    } else {
      LowerRowRun(isa, B, d, z, pos, zp, n, initial, column, w, res, fold, g, r, zAt, offset, pos + left);
    }
  }

  lemma LeftExists(g: Grid, p: nat)
    requires GridOk(g)
    ensures g.left(p) ==> p >= 1
  {
  }

  /** PLANAR_ZIGZAG_STREAM: nbElts samples from offset on, from z[zAt..] or, when z is d,
      from where they will stand. */
  method DecodeChunk(isa: Isa, B: nat, d: array<nat>, z: array<nat>, zAt: nat, offset: nat, nbElts: nat, w: nat,
                     planeElts: nat, res: Map, fold: bool, ghost r: At)
    requires fold ==> Unfolds(B, res)
    requires PlaneOk(w, planeElts)
      && Going(Size(B), GridOf(w, planeElts), d[..], z[..], zAt, offset, res, r, offset, offset + nbElts)
    requires ResOk(Size(B), res) && (z == d ==> zAt == offset) && offset + nbElts <= d.Length
    modifies d
    ensures Reconstructed(Size(B), GridOf(w, planeElts), d[..], r, offset + nbElts)
    ensures SameOutside(old(d[..]), d[..], offset, offset + nbElts)
  {
    GridOfOk(w, planeElts);
    ghost var g := GridOf(w, planeElts);
    hide GridOf, Reconstructed, ResOk, Wrap, PlaneOk, GridOk;
    var done: nat := 0;
    while done < nbElts
      invariant done <= nbElts && Going(Size(B), g, d[..], z[..], zAt, offset, res, r, offset + done, offset + nbElts)
      invariant SameOutside(old(d[..]), d[..], offset, offset + done)
    {
      hide Going;
      var n := DecodeRun(isa, B, d, z, offset + done, zAt + done, nbElts - done, w, planeElts, res, fold, r, zAt,
        offset);
      done := done + n;
    }
  }

  predicate StreamArgsOk(offset: nat, nbElts: nat, width: nat, planeElts: nat, eltWidth: nat) {
    nbElts != 0 && width != 0 && planeElts != 0 && width <= planeElts && planeElts % width == 0
      && offset <= SIZE_MAX - nbElts && BitsOf(eltWidth) > 0
  }

  /** The residuals of a chunk come next in the stream r. */
  ghost predicate ChunkOf(B: nat, z: seq<nat>, zAt: nat, offset: nat, nbElts: nat, r: At)
    requires B > 0
  {
    zAt + nbElts <= |z| && forall q: nat :: offset <= q < offset + nbElts ==> Unzigzag(B, z[zAt + (q - offset)]) == r(q)
  }

  function UnzigzagOf(B: nat): Map { if B == 0 then (x: nat) => x else (x: nat) => Unzigzag(B, x) }

  /** planar_zigzag_decode_stream. Some stream r always leads to what d holds before
      offset (AnyPrefix). */
  method DecodeStream(isa: Isa, d: array<nat>, z: array<nat>, zAt: nat, offset: nat, nbElts: nat, width: nat,
                      planeElts: nat, eltWidth: nat, ghost r: At)
    returns (rc: int)
    requires offset + nbElts <= d.Length && zAt + nbElts <= z.Length && (z == d ==> zAt == offset)
    requires StreamArgsOk(offset, nbElts, width, planeElts, eltWidth) ==>
      ContinuesFrom(d[..], z[..], zAt, offset, nbElts, width, planeElts, BitsOf(eltWidth), r)
    modifies d
    ensures rc == if StreamArgsOk(offset, nbElts, width, planeElts, eltWidth) then 0 else 1
    ensures rc == 0 ==> DecodedTo(d[..], width, planeElts, BitsOf(eltWidth), r, offset + nbElts)
    ensures SameOutside(old(d[..]), d[..], offset, if rc == 0 then offset + nbElts else offset)
  {
    if !StreamArgsOk(offset, nbElts, width, planeElts, eltWidth) {
      return 1;
    }
    var B := BitsOf(eltWidth);
    rc := 0;
    GridOfOk(width, planeElts);
    UnzigzagSmall(B);
    hide GridOf, GridOk, Reconstructed, ResOk;
    assert Unfolds(B, UnzigzagOf(B));
    DecodeChunk(isa, B, d, z, zAt, offset, nbElts, width, planeElts, UnzigzagOf(B), true, r);
  }

  /** The residual that leads to sample p of d. */
  ghost function Own(M: nat, g: Grid, d: seq<nat>): At
    requires M > 0 && GridOk(g)
  {
    (p: nat) => OwnAt(M, g, d, p)
  }

  ghost function OwnAt(M: nat, g: Grid, d: seq<nat>, p: nat): nat
    requires M > 0 && GridOk(g)
  {
    if p < |d| then Wrap(M, d[p] - Guess(g, d, p)) else 0
  }

  /** Whatever words stand before n, some stream decodes to them. */
  lemma AnyPrefix(M: nat, g: Grid, d: seq<nat>, n: nat)
    requires M > 0 && GridOk(g) && n <= |d| && forall p: nat :: p < n ==> d[p] < M
    ensures Reconstructed(M, g, d, Own(M, g, d), n)
  {
    hide Wrap;
    forall p: nat | p < n ensures PlanarAt(M, g, d, p, Own(M, g, d)(p)) {
      SubAdd(M, d[p], Guess(g, d, p));
    }
  }

  lemma UnzigzagSmall(B: nat)
    requires B > 0
    ensures ResOk(Size(B), UnzigzagOf(B))
  {
  }

  /** The first n samples are what the residuals r say. */
  ghost predicate DecodedTo(d: seq<nat>, w: nat, planeElts: nat, B: nat, r: At, n: nat) {
    PlaneOk(w, planeElts) && (GridOfOk(w, planeElts); Reconstructed(Size(B), GridOf(w, planeElts), d, r, n))
  }

  /** What stands before offset is decoded, and the chunk comes next. */
  ghost predicate ContinuesFrom(d: seq<nat>, z: seq<nat>, zAt: nat, offset: nat, nbElts: nat, w: nat, planeElts: nat,
                                B: nat, r: At) {
    B > 0 && DecodedTo(d, w, planeElts, B, r, offset) && ChunkOf(B, z, zAt, offset, nbElts, r)
  }

  /** Streams decode to one raster, however they were cut. */
  lemma OneRaster(d: seq<nat>, e: seq<nat>, w: nat, planeElts: nat, B: nat, r: At, n: nat)
    requires DecodedTo(d, w, planeElts, B, r, n) && DecodedTo(e, w, planeElts, B, r, n)
    ensures n <= |d| && n <= |e| && d[..n] == e[..n]
  {
    GridOfOk(w, planeElts);
    ReconstructedOnce(Size(B), GridOf(w, planeElts), d, e, r, n);
  }

  // ---------------------------------------------------------------------------
  // Chunks

  function Flatten(chunks: seq<seq<nat>>): seq<nat> {
    if |chunks| == 0 then [] else Flatten(chunks[..|chunks| - 1]) + chunks[|chunks| - 1]
  }

  /** The residuals of a stream of Zigzag words. */
  ghost function StreamOf(B: nat, z: seq<nat>): At
    requires B > 0
  {
    (p: nat) => if p < |z| then Unzigzag(B, z[p]) else 0
  }

  lemma FlattenNext(chunks: seq<seq<nat>>, i: nat)
    requires i < |chunks|
    ensures Flatten(chunks[..i + 1]) == Flatten(chunks[..i]) + chunks[i]
  {
    assert chunks[..i + 1][..i] == chunks[..i];
  }

  lemma {:induction false} FlattenPrefix(chunks: seq<seq<nat>>, i: nat)
    requires i <= |chunks|
    ensures Flatten(chunks[..i]) <= Flatten(chunks)
    decreases |chunks| - i
  {
    if i < |chunks| {
      hide Flatten;
      FlattenPrefix(chunks, i + 1);
      FlattenNext(chunks, i);
    } else {
      assert chunks[..i] == chunks;
    }
  }

  /** Chunk i of a cut stream stands at its offset. */
  lemma ChunkStands(B: nat, chunks: seq<seq<nat>>, i: nat)
    requires B > 0 && i < |chunks|
    ensures var offset := |Flatten(chunks[..i])|;
      |Flatten(chunks[..i + 1])| == offset + |chunks[i]| <= |Flatten(chunks)|
      && ChunkOf(B, chunks[i], 0, offset, |chunks[i]|, StreamOf(B, Flatten(chunks)))
  {
    hide Flatten;
    FlattenPrefix(chunks, i + 1);
    FlattenNext(chunks, i);
    PieceStands(B, Flatten(chunks), Flatten(chunks[..i]), chunks[i]);
  }

  lemma PieceStands(B: nat, all: seq<nat>, front: seq<nat>, piece: seq<nat>)
    requires B > 0 && front + piece <= all
    ensures ChunkOf(B, piece, 0, |front|, |piece|, StreamOf(B, all))
  {
    hide Unzigzag;
    forall q: nat | |front| <= q < |front| + |piece| ensures all[q] == piece[q - |front|] {
      assert (front + piece)[q] == all[q];
    }
  }

  /** Feeding consecutive nonempty chunks, each at its offset, decodes the whole stream. */
  method DecodeChunks(isa: Isa, d: array<nat>, chunks: seq<seq<nat>>, width: nat, planeElts: nat, eltWidth: nat)
    requires PlaneOk(width, planeElts) && BitsOf(eltWidth) > 0 && |Flatten(chunks)| <= d.Length <= SIZE_MAX
    requires forall i :: 0 <= i < |chunks| ==> |chunks[i]| > 0
    modifies d
    ensures DecodedTo(d[..], width, planeElts, BitsOf(eltWidth), StreamOf(BitsOf(eltWidth), Flatten(chunks)),
      |Flatten(chunks)|)
  {
    ghost var B := BitsOf(eltWidth);
    ghost var r := StreamOf(B, Flatten(chunks));
    var i: nat, offset: nat := 0, 0;
    while i < |chunks|
      invariant i <= |chunks| && offset == |Flatten(chunks[..i])| <= d.Length
      invariant DecodedTo(d[..], width, planeElts, B, r, offset)
    {
      hide DecodedTo, ChunkOf, Flatten, StreamOf;
      ChunkStands(B, chunks, i);
      var z := new nat[|chunks[i]|](k requires 0 <= k < |chunks[i]| => chunks[i][k]);
      assert z[..] == chunks[i];
      var rc := DecodeStream(isa, d, z, 0, offset, |chunks[i]|, width, planeElts, eltWidth, r);
      offset := offset + |chunks[i]|;
      i := i + 1;
    }
    assert chunks[..|chunks|] == chunks;
  }
}
