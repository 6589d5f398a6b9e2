/** The planar and planar-Zigzag encoders, the plain planar decoder, and the round trips. */
module PlanarEncode {
  import opened Common
  import opened Arith
  import opened Machine
  import opened PrefixSums
  import opened PlanarRows
  import opened MedCodec
  import opened PlanarCodec

  // ---------------------------------------------------------------------------
  // The encoders

  /** Sample p is encoded: its residual by the map. */
  ghost predicate SampleEncoded(M: nat, g: Grid, s: seq<nat>, e: seq<nat>, fwd: Map, p: nat)
    requires M > 0 && GridOk(g) && p < |s| == |e|
  {
    e[p] == fwd(Wrap(M, s[p] - Guess(g, s, p)))
  }

  ghost predicate EncodedUpTo(M: nat, g: Grid, s: seq<nat>, e: seq<nat>, fwd: Map, n: nat) {
    M > 0 && GridOk(g) && n <= |s| == |e| && forall p: nat :: p < n ==> SampleEncoded(M, g, s, e, fwd, p)
  }

  /** In a plane that starts at base, sample c of the row that starts at row has the
      neighbours the loop counters say. */
  lemma LoopCoordinates(w: nat, planeElts: nat, base: nat, r: nat, c: nat)
    requires PlaneOk(w, planeElts) && base % planeElts == 0 && r * w + w <= planeElts && c < w
    ensures var g, p := GridOf(w, planeElts), base + r * w + c;
      (g.left(p) <==> c > 0) && (g.up(p) <==> r > 0)
  {
    DivModParts(base, planeElts);
    DivModUnique(base / planeElts, planeElts, r * w + c);
    DivModUnique(r, w, c);
    if r > 0 {
      MulMono(1, r, w);
    }
  }

  lemma EncodedMore(M: nat, g: Grid, s: seq<nat>, e: seq<nat>, fwd: Map, n: nat, e': seq<nat>)
    requires EncodedUpTo(M, g, s, e, fwd, n) && n < |s| && SameOutside(e, e', n, n + 1)
    requires e'[n] == fwd(Wrap(M, s[n] - Guess(g, s, n)))
    ensures EncodedUpTo(M, g, s, e', fwd, n + 1)
  {
    hide Wrap, Guess;
    forall p: nat | p < n + 1 ensures SampleEncoded(M, g, s, e', fwd, p) {
      if p < n {
        assert SampleEncoded(M, g, s, e, fwd, p);
      }
    }
  }

  lemma GuessOf(g: Grid, s: seq<nat>, p: nat, r: nat, c: nat, w: nat)
    requires GridOk(g) && p < |s| && g.w == w && (g.left(p) <==> c > 0) && (g.up(p) <==> r > 0)
    ensures (c > 0 ==> p >= 1) && (r > 0 ==> p >= w) && (r > 0 && c > 0 ==> p >= w + 1)
    ensures Guess(g, s,
      p) == (if c > 0 then s[p - 1] as int else 0)
        + (if r > 0 then s[p - w] as int else 0) - (if r > 0 && c > 0 then s[p - w - 1] as int else 0)
  {
  }

  /** The body of the encoder's loops. */
  method EncodeSample(kind: Kind, B: nat, d: array<nat>, s: array<nat>, w: nat, planeElts: nat, base: nat, row: nat,
                      r: nat, c: nat, ghost g: Grid)
    requires B > 0 && d != s && d.Length == s.Length && PlaneOk(w, planeElts) && g == GridOf(w, planeElts)
    requires base % planeElts == 0 && row == base + r * w && r * w + w <= planeElts && c < w && row + c < s.Length
    requires EncodedUpTo(Size(B), g, s[..], d[..], Forward(kind, B), row + c)
    modifies d
    ensures EncodedUpTo(Size(B), g, s[..], d[..], Forward(kind, B), row + c + 1)
  {
    hide Wrap, Forward, GridOf, PlaneOk;
    ghost var before := d[..];
    var idx := row + c;
    LoopCoordinates(w, planeElts, base, r, c);
    GridWidth(w, planeElts);
    GuessOf(g, s[..], idx, r, c, w);
    hide EncodedUpTo, Guess;
    var Wv: int := if c > 0 then s[idx - 1] else 0;
    var Nv: int := if r > 0 then s[idx - w] else 0;
    var NWv: int := if r > 0 && c > 0 then s[idx - w - 1] else 0;
    WrapOf(Size(B), Wv + Nv - NWv, s[idx]);
    d[idx] := Forward(kind, B)(Wrap(Size(B), s[idx] - Wrap(Size(B), Wv + Nv - NWv)));
    EncodedMore(Size(B), g, s[..], before, Forward(kind, B), idx, d[..]);
  }

  lemma GridWidth(w: nat, planeElts: nat)
    requires 0 < w && 0 < planeElts
    ensures GridOf(w, planeElts).w == w
  {
  }

  /** One plane, from base on. */
  method EncodePlane(kind: Kind, B: nat, d: array<nat>, s: array<nat>, w: nat, planeElts: nat, base: nat, rows: nat,
                     ghost g: Grid)
    requires B > 0 && d != s && d.Length == s.Length && PlaneOk(w, planeElts) && g == GridOf(w, planeElts)
    requires base % planeElts == 0 && rows * w == planeElts && base + planeElts <= s.Length
    requires EncodedUpTo(Size(B), g, s[..], d[..], Forward(kind, B), base)
    modifies d
    ensures EncodedUpTo(Size(B), g, s[..], d[..], Forward(kind, B), base + planeElts)
  {
    hide EncodedUpTo, Forward, PlaneOk, GridOf;
    var r: nat := 0;
    while r < rows
      invariant r <= rows && base + r * w <= s.Length
        && EncodedUpTo(Size(B), g, s[..], d[..], Forward(kind, B), base + r * w)
    {
      EncodeRow(kind, B, d, s, w, planeElts, base, base + r * w, r, rows, g);
      RowEnd(r, rows, w);
      r := r + 1;
    }
  }

  lemma RowEnd(r: nat, rows: nat, w: nat)
    requires r < rows
    ensures r * w + w == (r + 1) * w <= rows * w
  {
    MulMono(r + 1, rows, w);
  }

  method EncodeRow(kind: Kind, B: nat, d: array<nat>, s: array<nat>, w: nat, planeElts: nat, base: nat, row: nat,
                   r: nat, rows: nat, ghost g: Grid)
    requires B > 0 && d != s && d.Length == s.Length && PlaneOk(w, planeElts) && g == GridOf(w, planeElts)
    requires base % planeElts == 0 && rows * w == planeElts && base + planeElts <= s.Length && r < rows
      && row == base + r * w
    requires EncodedUpTo(Size(B), g, s[..], d[..], Forward(kind, B), row)
    modifies d
    ensures EncodedUpTo(Size(B), g, s[..], d[..], Forward(kind, B), row + w)
  {
    hide EncodedUpTo, Forward, PlaneOk, GridOf;
    RowEnd(r, rows, w);
    var c: nat := 0;
    while c < w
      invariant c <= w && EncodedUpTo(Size(B), g, s[..], d[..], Forward(kind, B), row + c)
    {
      EncodeSample(kind, B, d, s, w, planeElts, base, row, r, c, g);
      c := c + 1;
    }
  }

  /** Plane after plane. */
  method EncodePlanes(kind: Kind, B: nat, d: array<nat>, s: array<nat>, w: nat, planeElts: nat, planes: nat)
    requires B > 0 && d != s && PlaneOk(w, planeElts) && d.Length == s.Length == planes * planeElts
    modifies d
    ensures GridOk(GridOf(w, planeElts))
      && EncodedUpTo(Size(B), GridOf(w, planeElts), s[..], d[..], Forward(kind, B), s.Length)
  {
    GridOfOk(w, planeElts);
    DivModParts(planeElts, w);
    ghost var g := GridOf(w, planeElts);
    var i: nat, base: nat := 0, 0;
    while i < planes
      invariant i <= planes && base == i * planeElts && base <= s.Length
        && EncodedUpTo(Size(B), g, s[..], d[..], Forward(kind, B), base)
    {
      hide EncodedUpTo, Forward, GridOf;
      DivModUnique(i, planeElts, 0);
      RowEnd(i, planes, planeElts);
      EncodePlane(kind, B, d, s, w, planeElts, base, planeElts / w, g);
      i, base := i + 1, base + planeElts;
    }
  }

  /** The source is what the decoder makes of the encoded stream. */
  lemma EncodedIsStream(kind: Kind, B: nat, g: Grid, s: seq<nat>, e: seq<nat>, r: At)
    requires B > 0 && EncodedUpTo(Size(B), g, s, e, Forward(kind, B), |s|) && WordsOf(B, s)
    requires forall p: nat :: p < |e| ==> r(p) == Backward(kind, B)(e[p])
    ensures Reconstructed(Size(B), g, s, r, |s|)
  {
    hide Wrap, Guess, Forward, Backward;
    forall p: nat | p < |s| ensures PlanarAt(Size(B), g, s, p, r(p)) {
      var guess := Guess(g, s, p);
      assert SampleEncoded(Size(B), g, s, e, Forward(kind, B), p);
      MapsInverse(kind, B, Wrap(Size(B), s[p] - guess));
      SubAdd(Size(B), s[p], guess);
    }
  }

  // ---------------------------------------------------------------------------
  // The plain planar decoder

  /** PLANAR_DEC: a scan of the first row, then row after row. */
  method DecodeRows(isa: Isa, B: nat, d: array<nat>, z: array<nat>, w: nat, rows: nat, ghost g: Grid, ghost r: At)
    requires B > 0 && 0 < w && 1 <= rows && d.Length == z.Length == rows * w && g == GridOf(w, rows * w)
      && PlaneOk(w, rows * w)
    requires Going(Size(B), g, d[..], z[..], 0, 0, Backward(Plain, B), r, 0, d.Length)
    modifies d
    ensures Reconstructed(Size(B), g, d[..], r, d.Length)
  {
    hide Going, Reconstructed, Wrap, GridOf, PlaneOk, Backward, InRow;
    RowEnd(0, rows, w);
    WholeRow(w, rows, 0);
    PlainSmall(B);
    FirstRowRun(isa, B, d, z, 0, 0, w, 0, Backward(Plain, B), false, g, r, 0, 0, d.Length);
    var off: nat, row: nat := w, 1;
    while off < d.Length
      invariant row <= rows && off == row * w && off <= d.Length
        && Going(Size(B), g, d[..], z[..], 0, 0, Backward(Plain, B), r, off, d.Length)
      decreases d.Length - off
    {
      RowBelow(row, rows, w);
      RowEnd(row, rows, w);
      WholeRow(w, rows, row);
      LowerRowRun(isa, B, d, z, off, off, w, 0, 0, w, Backward(Plain, B), false, g, r, 0, 0, d.Length);
      off, row := off + w, row + 1;
    }
    GoingDone(Size(B), g, d[..], z[..], Backward(Plain, B), r, d.Length);
  }

  lemma RowBelow(row: nat, rows: nat, w: nat)
    requires row * w < rows * w
    ensures row < rows
  {
    if row >= rows {
      MulMono(rows, row, w);
    }
  }

  lemma GoingDone(M: nat, g: Grid, d: seq<nat>, z: seq<nat>, res: Map, r: At, n: nat)
    requires Going(M, g, d, z, 0, 0, res, r, n, n)
    ensures Reconstructed(M, g, d, r, n)
  {
  }

  lemma PlainSmall(B: nat)
    requires B > 0
    ensures ResOk(Size(B), Backward(Plain, B))
  {
  }

  /** A whole row of a single plane. */
  lemma WholeRow(w: nat, rows: nat, row: nat)
    requires 0 < w && row < rows
    ensures PlaneOk(w, rows * w)
    ensures var g, p := GridOf(w, rows * w), row * w;
      GridOk(g) && g.w == w && InRow(g, p, w) && !g.left(p) && (g.up(p) <==> row > 0)
  {
    RowEnd(row, rows, w);
    MulMono(1, rows, w);
    DivModUnique(rows, w, 0);
    var n, p := rows * w, row * w;
    DivModUnique(0, n, p);
    DivModUnique(row, w, 0);
    RunFacts(w, n, p, w);
    assert ColumnAt(w, n, p) == 0 && RowAt(w, n, p) == row;
  }

  // ---------------------------------------------------------------------------
  // Entry points and round trips

  ghost predicate EncodedStream(kind: Kind, B: nat, w: nat, planeElts: nat, s: seq<nat>, e: seq<nat>) {
    B > 0 && PlaneOk(w, planeElts) && EncodedUpTo(Size(B), GridOf(w, planeElts), s, e, Forward(kind, B), |s|)
  }

  lemma WidthTiles(width: nat, n: nat)
    requires RowWidth(width, n) > 0
    ensures RowWidth(width, n) == width && PlaneOk(width, n) && n / width * width == n && n / width >= 1
  {
    DivModParts(n, width);
    QuotientBelow(n, width);
  }

  lemma QuotientBelow(n: nat, w: nat)
    requires 0 < w <= n
    ensures n / w >= 1
  {
    if n / w == 0 {
      DivModParts(n, w);
    }
  }

  /** planar_encode and planar_zigzag_encode */
  method Encode(kind: Kind, d: array<nat>, s: array<nat>, width: nat, eltWidth: nat) returns (rc: int)
    requires d != s && d.Length == s.Length
    modifies d
    ensures rc == if Supported(width, s.Length, eltWidth) then 0 else 1
    ensures rc == 0 ==> EncodedStream(kind, BitsOf(eltWidth), width, s.Length, s[..], d[..])
    ensures rc != 0 ==> d[..] == old(d[..])
  {
    hide EncodedUpTo, Forward, GridOf;
    var w, B := RowWidth(width, s.Length), BitsOf(eltWidth);
    if w == 0 || B == 0 {
      return 1;
    }
    WidthTiles(width, s.Length);
    EncodePlanes(kind, B, d, s, w, s.Length, 1);
    rc := 0;
  }

  /** What the words of a stream decode to. */
  ghost function ResidualsOf(kind: Kind, B: nat, z: seq<nat>): At {
    var back := Backward(kind, B);
    (p: nat) => if p < |z| then back(z[p]) else 0
  }

  /** planar_decode, with dst and src the same array or not. */
  method DecodePlain(isa: Isa, d: array<nat>, z: array<nat>, width: nat, eltWidth: nat) returns (rc: int)
    requires d.Length == z.Length
    modifies d
    ensures rc == if Supported(width, z.Length, eltWidth) then 0 else 1
    ensures rc == 0 ==>
      DecodedTo(d[..], width, z.Length, BitsOf(eltWidth), ResidualsOf(Plain, BitsOf(eltWidth), old(z[..])), z.Length)
    ensures rc != 0 ==> d[..] == old(d[..])
  {
    hide Reconstructed, GridOf, Backward, PlaneOk, GridOk;
    var w, B := RowWidth(width, z.Length), BitsOf(eltWidth);
    if w == 0 || B == 0 {
      return 1;
    }
    WidthTiles(width, z.Length);
    GridOfOk(w, z.Length);
    ghost var r := ResidualsOf(Plain, B, z[..]);
    StreamStart(Plain, B, GridOf(w, z.Length), d[..], z[..]);
    DecodeRows(isa, B, d, z, w, z.Length / w, GridOf(w, z.Length), r);
    rc := 0;
  }

  lemma StreamStart(kind: Kind, B: nat, g: Grid, d: seq<nat>, z: seq<nat>)
    requires B > 0 && GridOk(g) && |d| == |z|
    ensures Going(Size(B), g, d, z, 0, 0, Backward(kind, B), ResidualsOf(kind, B, z), 0, |d|)
  {
    hide Backward;
  }

  /** Planar: decoding what was encoded, in place, gives back the raster. */
  method PlainRoundTrip(isa: Isa, stream: array<nat>, source: array<nat>, width: nat, eltWidth: nat) returns (rc: int)
    requires stream != source && stream.Length == source.Length && Supported(width, source.Length, eltWidth)
      && WordsOf(BitsOf(eltWidth), source[..])
    modifies stream
    ensures rc == 0 && stream[..] == source[..]
  {
    hide Reconstructed, GridOf, Backward, Forward, EncodedUpTo;
    ghost var B, n := BitsOf(eltWidth), source.Length;
    rc := Encode(Plain, stream, source, width, eltWidth);
    ghost var e := stream[..];
    rc := DecodePlain(isa, stream, stream, width, eltWidth);
    SourceDecoded(Plain, B, width, n, source[..], e);
    OneRaster(stream[..], source[..], width, n, B, ResidualsOf(Plain, B, e), n);
    assert stream[..n] == stream[..] && source[..n] == source[..];
  }

  lemma SourceDecoded(kind: Kind, B: nat, w: nat, planeElts: nat, s: seq<nat>, e: seq<nat>)
    requires EncodedStream(kind, B, w, planeElts, s, e) && WordsOf(B, s)
    ensures DecodedTo(s, w, planeElts, B, ResidualsOf(kind, B, e), |s|)
  {
    GridOfOk(w, planeElts);
    hide Wrap, Forward, GridOf;
    EncodedIsStream(kind, B, GridOf(w, planeElts), s, e, ResidualsOf(kind, B, e));
  }

  // ---------------------------------------------------------------------------
  // Planes of planar-Zigzag, in chunks

  function TotalOf(lengths: seq<nat>): nat {
    if |lengths| == 0 then 0 else TotalOf(lengths[..|lengths| - 1]) + lengths[|lengths| - 1]
  }

  /** z cut into pieces of these lengths. */
  function Pieces(z: seq<nat>, lengths: seq<nat>): (chunks: seq<seq<nat>>)
    requires TotalOf(lengths) == |z|
    ensures |chunks| == |lengths| && forall i :: 0 <= i < |lengths| ==> |chunks[i]| == lengths[i]
    decreases |lengths|
  {
    if |lengths| == 0 then []
    else
      var at := |z| - lengths[|lengths| - 1];
      Pieces(z[..at], lengths[..|lengths| - 1]) + [z[at..]]
  }

  lemma {:induction false} FlattenPieces(z: seq<nat>, lengths: seq<nat>)
    requires TotalOf(lengths) == |z|
    ensures Flatten(Pieces(z, lengths)) == z
    decreases |lengths|
  {
    if |lengths| > 0 {
      var at := |z| - lengths[|lengths| - 1];
      FlattenPieces(z[..at], lengths[..|lengths| - 1]);
      var chunks := Pieces(z, lengths);
      assert chunks[..|chunks| - 1] == Pieces(z[..at], lengths[..|lengths| - 1]);
    }
  }

  /** Planar-Zigzag: planes encoded apart, their streams joined, cut anywhere and fed
      chunk by chunk, give back the raster. */
  method ChunkedRoundTrip(isa: Isa, d: array<nat>, stream: array<nat>, source: array<nat>, lengths: seq<nat>, w: nat,
                          planeElts: nat, planes: nat, eltWidth: nat)
    requires PlaneOk(w, planeElts) && BitsOf(eltWidth) > 0
      && d.Length == stream.Length == source.Length == planes * planeElts <= SIZE_MAX
    requires d != source && stream != source && d != stream && WordsOf(BitsOf(eltWidth), source[..])
    requires TotalOf(lengths) == source.Length && forall i :: 0 <= i < |lengths| ==> lengths[i] > 0
    modifies d, stream
    ensures d[..] == source[..]
  {
    hide Reconstructed, GridOf, Forward, EncodedUpTo, Flatten, PlaneOk, TotalOf;
    var B := BitsOf(eltWidth);
    EncodePlanes(Folded, B, stream, source, w, planeElts, planes);
    var e := stream[..];
    FlattenPieces(e, lengths);
    var chunks := Pieces(e, lengths);
    DecodeChunks(isa, d, chunks, w, planeElts, eltWidth);
    SourceDecoded(Folded, B, w, planeElts, source[..], e);
    SameStream(B, w, planeElts, source[..], e);
    OneRaster(d[..], source[..], w, planeElts, B, StreamOf(B, e), d.Length);
    assert d[..d.Length] == d[..] && source[..d.Length] == source[..];
  }

  lemma SameStream(B: nat, w: nat, planeElts: nat, s: seq<nat>, e: seq<nat>)
    requires B > 0 && |s| == |e| && DecodedTo(s, w, planeElts, B, ResidualsOf(Folded, B, e), |s|)
    ensures DecodedTo(s, w, planeElts, B, StreamOf(B, e), |s|)
  {
    GridOfOk(w, planeElts);
    hide Wrap, Guess, GridOf, GridOk;
    var g := GridOf(w, planeElts);
    forall p: nat | p < |s| ensures PlanarAt(Size(B), g, s, p, StreamOf(B, e)(p)) {
      assert ResidualsOf(Folded, B, e)(p) == StreamOf(B, e)(p);
      assert PlanarAt(Size(B), g, s, p, ResidualsOf(Folded, B, e)(p));
    }
  }
}
