/** The MED and MED-Zigzag codecs: argument checks, encoders, decoders, round trips. */
module MedCodec {
  import opened Arith
  import opened Machine
  import opened Med
  import opened MedDecode

  /** Width in bits of an element of eltWidth bytes, 0 if there is none. */
  function BitsOf(eltWidth: nat): nat {
    if eltWidth == 1 || eltWidth == 2 || eltWidth == 4 || eltWidth == 8 then 8 * eltWidth else 0
  }

  /** geozl_row_width: width when it tiles nbElts, otherwise 0. */
  function RowWidth(width: nat, nbElts: nat): (w: nat)
    ensures w > 0 ==> w <= nbElts && nbElts % w == 0
  {
    if nbElts == 0 || width == 0 || width > nbElts then 0 else if nbElts % width == 0 then width else 0
  }

  /** The raster and the element size are supported. */
  predicate Supported(width: nat, nbElts: nat, eltWidth: nat) {
    RowWidth(width, nbElts) > 0 && BitsOf(eltWidth) > 0
  }

  ghost predicate WordsOf(B: nat, s: seq<nat>) {
    forall i :: 0 <= i < |s| ==> s[i] < Size(B)
  }

  /** The map between residuals and stream values, and back: identity for MED, Zigzag
      for MED-Zigzag. */
  datatype Kind = Plain | Folded

  function Forward(kind: Kind, B: nat): Map {
    if kind.Plain? || B == 0 then (x: nat) => x else (x: nat) => Zigzag(B, x)
  }

  function Backward(kind: Kind, B: nat): Map {
    if kind.Plain? || B == 0 then (x: nat) => Wrap(Size(B), x) else (x: nat) => Unzigzag(B, x)
  }

  lemma MapsInverse(kind: Kind, B: nat, x: nat)
    requires B > 0 && x < Size(B)
    ensures Backward(kind, B)(Forward(kind, B)(x)) == x
    ensures Forward(kind, B)(x) < Size(B)
  {
    ZigzagRoundTrip(B, x);
    WrapSmall(B, x);
  }

  lemma BackwardOk(kind: Kind, B: nat)
    ensures ResOk(B, Backward(kind, B))
  {
  }

  /** Element i of what the encoder writes for raster s. */
  ghost predicate EncodedAt(B: nat, s: seq<nat>, e: seq<nat>, w: nat, fwd: Map, i: nat)
    requires 0 < w && i < |s| == |e|
  {
    e[i] == fwd(Wrap(Size(B), s[i] - Predict(s, w, i)))
  }

  /** The first n samples are encoded. */
  ghost predicate EncodedTo(B: nat, s: seq<nat>, e: seq<nat>, w: nat, fwd: Map, n: nat)
    requires 0 < w
  {
    n <= |s| == |e| && forall i: nat :: i < n ==> EncodedAt(B, s, e, w, fwd, i)
  }

  /** Undoing what the encoder did to one sample v, with prediction p. */
  lemma UndoOne(kind: Kind, B: nat, v: nat, p: nat)
    requires 0 < B && v < Size(B)
    ensures Wrap(Size(B), Backward(kind, B)(Forward(kind, B)(Wrap(Size(B), v - p))) + p) == v
  {
    MapsInverse(kind, B, Wrap(Size(B), v - p));
    SubAdd(Size(B), v, p);
  }

  lemma EncodedFine(kind: Kind, B: nat, s: seq<nat>, e: seq<nat>, w: nat, i: nat)
    requires 0 < B && 0 < w && i < |s| == |e| && s[i] < Size(B) && EncodedAt(B, s, e, w, Forward(kind, B), i)
    ensures s[i] == Wrap(Size(B), Residuals(e, Backward(kind, B))[i] + Predict(s, w, i))
  {
    hide Predict, Wrap, Size, Forward, Backward;
    UndoOne(kind, B, s[i], Predict(s, w, i));
  }

  /** The source has the encoded residuals. */
  lemma EncodedReconstructs(kind: Kind, B: nat, s: seq<nat>, e: seq<nat>, w: nat)
    requires 0 < B && 0 < w && WordsOf(B, s) && EncodedTo(B, s, e, w, Forward(kind, B), |s|)
    ensures Reconstructs(B, s, Residuals(e, Backward(kind, B)), w)
  {
    hide Predict, Wrap, Size, Forward, Backward, EncodedAt;
    forall i: nat | i < |s| ensures s[i] == Wrap(Size(B), Residuals(e, Backward(kind, B))[i] + Predict(s, w, i)) {
      EncodedFine(kind, B, s, e, w, i);
    }
  }

  /** The encoder's prediction from its neighbours. */
  function Gradient(B: nat, Wv: nat, Nv: nat, NWv: nat): nat {
    var mn, mx := if Wv < Nv then Wv else Nv, if Wv < Nv then Nv else Wv;
    if NWv >= mx then mn else if NWv <= mn then mx else Wrap(Size(B), Wv + Nv - NWv)
  }

  /** The gradient is used only where it lies between W and N, so it never wraps. */
  lemma GradientIsMedian(B: nat, Wv: nat, Nv: nat, NWv: nat)
    requires Wv < Size(B) && Nv < Size(B)
    ensures Gradient(B, Wv, Nv, NWv) == Median(Wv, Nv, NWv)
  {
    if !(NWv >= Wv && NWv >= Nv) && !(NWv <= Wv && NWv <= Nv) {
      WrapIs(Size(B), Wv + Nv - NWv, Wv + Nv - NWv, 0);
    }
  }

  lemma PredictInRow(s: seq<nat>, w: nat, start: nat, c: nat)
    requires c < w && start + c < |s| && RowStart(w, start) && (start > 0 ==> start >= w)
    ensures var i := start + c;
      Predict(s, w, i) == Median(if c > 0 then s[i - 1] else 0, if start > 0 then s[i - w] else 0,
        if c > 0 && start > 0 then s[i - w - 1] else 0)
  {
    ColumnOf(w, start, 0, c);
  }

  /** The encoder's neighbours are the decoder's. */
  lemma EncoderPredicts(B: nat, s: seq<nat>, w: nat, r: nat, start: nat, c: nat)
    requires c < w && start + c < |s| && RowStart(w, start) && (r == 0 <==> start == 0) && (start > 0 ==> start >= w)
      && WordsOf(B, s)
    ensures var i := start + c;
      Gradient(B, if c > 0 then s[i - 1] else 0, if r > 0 then s[i - w] else 0, if r > 0
        && c > 0 then s[i - w - 1] else 0) == Predict(s, w, i)
  {
    var i := start + c;
    hide RowStart, Gradient, Predict, Median;
    PredictInRow(s, w, start, c);
    GradientIsMedian(B, if c > 0 then s[i - 1] else 0, if r > 0 then s[i - w] else 0, if r > 0
      && c > 0 then s[i - w - 1] else 0);
  }

  /** One more sample encoded. */
  lemma EncodedNext(B: nat, s: seq<nat>, e: seq<nat>, w: nat, fwd: Map, n: nat, e': seq<nat>)
    requires 0 < w && n < |s| && EncodedTo(B, s, e, w, fwd, n) && SameBut(e, e', n)
    requires e'[n] == fwd(Wrap(Size(B), s[n] - Predict(s, w, n)))
    ensures EncodedTo(B, s, e', w, fwd, n + 1)
  {
    hide Predict, Wrap, Size;
    forall i: nat | i < n + 1 ensures EncodedAt(B, s, e', w, fwd, i) {
      if i < n {
        assert EncodedAt(B, s, e, w, fwd, i);
      }
    }
  }

  /** The forward kernel at column c of the row that starts at start. */
  method EncodeSample(kind: Kind, B: nat, d: array<nat>, s: array<nat>, w: nat, r: nat, start: nat, c: nat)
    requires 0 < B && c < w && d != s && start + c < d.Length == s.Length && RowStart(w, start)
      && (r == 0 <==> start == 0) && (start > 0 ==> start >= w)
    requires WordsOf(B, s[..]) && EncodedTo(B, s[..], d[..], w, Forward(kind, B), start + c)
    modifies d
    ensures EncodedTo(B, s[..], d[..], w, Forward(kind, B), start + c + 1)
  {
    hide Predict, Wrap, Size, Forward, EncodedTo, Gradient, RowStart, WordsOf;
    ghost var before := d[..];
    var idx := start + c;
    var Wv := if c > 0 then s[idx - 1] else 0;
    var Nv := if r > 0 then s[idx - w] else 0;
    var NWv := if r > 0 && c > 0 then s[idx - w - 1] else 0;
    EncoderPredicts(B, s[..], w, r, start, c);
    d[idx] := Forward(kind, B)(Wrap(Size(B), s[idx] - Gradient(B, Wv, Nv, NWv)));
    EncodedNext(B, s[..], before, w, Forward(kind, B), idx, d[..]);
  }

  /** The forward kernel. */
  method EncodeAll(kind: Kind, B: nat, d: array<nat>, s: array<nat>, w: nat, rows: nat)
    requires 0 < B && 0 < w && d != s && d.Length == s.Length == rows * w && WordsOf(B, s[..])
    modifies d
    ensures EncodedTo(B, s[..], d[..], w, Forward(kind, B), d.Length)
  {
    var r: nat, start: nat := 0, 0;
    while r < rows
      invariant r <= rows && start == r * w && start <= d.Length && RowStart(w, start) && (r == 0 <==> start == 0)
        && (start > 0 ==> start >= w)
      invariant EncodedTo(B, s[..], d[..], w, Forward(kind, B), start)
    {
      hide EncodedTo, Forward, RowStart, WordsOf;
      MulMono(r + 1, rows, w);
      var c: nat := 0;
      while c < w
        invariant c <= w && EncodedTo(B, s[..], d[..], w, Forward(kind, B), start + c)
      {
        EncodeSample(kind, B, d, s, w, r, start, c);
        c := c + 1;
      }
      NextRow(w, start, 1);
      r, start := r + 1, start + w;
    }
  }

  /** med_encode and med_zigzag_encode: 0 exactly for a supported raster. */
  method Encode(kind: Kind, d: array<nat>, s: array<nat>, width: nat, eltWidth: nat) returns (rc: int)
    requires d != s && d.Length == s.Length && WordsOf(BitsOf(eltWidth), s[..])
    modifies d
    ensures rc == if Supported(width, s.Length, eltWidth) then 0 else 1
    ensures rc == 0 ==> EncodedTo(BitsOf(eltWidth), s[..], d[..], width, Forward(kind, BitsOf(eltWidth)), s.Length)
    ensures rc != 0 ==> d[..] == old(d[..])
  {
    var w, B := RowWidth(width, s.Length), BitsOf(eltWidth);
    if w == 0 || B == 0 {
      return 1;
    }
    DivModParts(s.Length, w);
    EncodeAll(kind, B, d, s, w, s.Length / w);
    rc := 0;
  }

  /** med_decode and med_zigzag_decode, with dst and src the same array or not. */
  method Decode(kind: Kind, d: array<nat>, s: array<nat>, width: nat, eltWidth: nat) returns (rc: int)
    requires d.Length == s.Length
    modifies d
    ensures rc == if Supported(width, s.Length, eltWidth) then 0 else 1
    ensures rc == 0 ==>
      Reconstructs(BitsOf(eltWidth), d[..], Residuals(old(s[..]), Backward(kind, BitsOf(eltWidth))), width)
    ensures rc != 0 ==> d[..] == old(d[..])
  {
    var w, B := RowWidth(width, s.Length), BitsOf(eltWidth);
    if w == 0 || B == 0 {
      return 1;
    }
    DivModParts(s.Length, w);
    MulMono(w, s.Length, 1);
    BackwardOk(kind, B);
    Reconstruct(B, d, s, w, s.Length / w, Backward(kind, B));
    rc := 0;
  }

  /** Decoding what was encoded gives back the raster, in place as well. */
  method RoundTrip(kind: Kind, stream: array<nat>, source: array<nat>, width: nat, eltWidth: nat) returns (rc: int)
    requires stream != source && stream.Length == source.Length && Supported(width, source.Length, eltWidth)
      && WordsOf(BitsOf(eltWidth), source[..])
    modifies stream
    ensures rc == 0 && stream[..] == source[..]
  {
    rc := Encode(kind, stream, source, width, eltWidth);
    ghost var e := stream[..];
    EncodedReconstructs(kind, BitsOf(eltWidth), source[..], e, width);
    rc := Decode(kind, stream, stream, width, eltWidth);
    ReconstructsOnce(BitsOf(eltWidth), stream[..], source[..], Residuals(e, Backward(kind, BitsOf(eltWidth))), width,
      source.Length);
  }
}
