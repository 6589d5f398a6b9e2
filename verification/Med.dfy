/** The median edge predictor: the encoders, the serial reconstruction and the
    reconstruction as a wavefront of four rows. */
module Med {
  import opened Arith
  import opened Machine

  // ---------------------------------------------------------------------------
  // The predictor

  /** Section A.4.1 of ITU-T T.87. */
  function Median(W: nat, N: nat, NW: nat): (p: nat)
    ensures (W <= p <= N) || (N <= p <= W)
  {
    var mn, mx := if W < N then W else N, if W < N then N else W;
    if NW >= mx then mn else if NW <= mn then mx else W + N - NW
  }

  /** GEOZL_MED_PREDICT: the same choice made with masks. */
  function Masked(B: nat, W: nat, N: nat, NW: nat): nat {
    var mn, mx := if W < N then W else N, if W < N then N else W;
    var ge, le := MaskOf(B, NW >= mx), MaskOf(B, NW <= mn);
    OrN(B, AndN(B, ge, mn),
      AndN(B, NotN(B, ge), OrN(B, AndN(B, le, mx), AndN(B, NotN(B, le), Wrap(Size(B), W + N - NW)))))
  }

  /** A masked choice between two words. */
  lemma Select(B: nat, c: bool, x: nat, y: nat)
    requires x < Size(B) && y < Size(B)
    ensures OrN(B, AndN(B, MaskOf(B, c), x), AndN(B, NotN(B, MaskOf(B, c)), y)) == if c then x else y
  {
    hide Size, MaskOf, AndN, OrN, NotN;
    NotMask(B, c);
    AndMask(B, c, x);
    AndMask(B, !c, y);
    OrZero(B, if c then x else y);
  }

  lemma MaskedIsMedian(B: nat, W: nat, N: nat, NW: nat)
    requires W < Size(B) && N < Size(B) && NW < Size(B)
    ensures Masked(B, W, N, NW) == Median(W, N, NW)
  {
    hide Size, MaskOf, AndN, OrN, NotN, Wrap;
    var mn, mx := if W < N then W else N, if W < N then N else W;
    var x := Wrap(Size(B), W + N - NW);
    Select(B, NW <= mn, mx, x);
    Select(B, NW >= mx, mn, if NW <= mn then mx else x);
    if mn < NW < mx {
      WrapIs(Size(B), W + N - NW, W + N - NW, 0);
    }
  }

  /** The prediction of sample i from the samples before it; neighbours outside the
      raster are 0. */
  function Predict(d: seq<nat>, w: nat, i: nat): nat
    requires 0 < w && i < |d|
  {
    var left := i % w > 0;
    LeftFits(w, i);
    Median(if left then d[i - 1] else 0, if i >= w then d[i - w] else 0, if left && i >= w then d[i - w - 1] else 0)
  }

  lemma LeftFits(w: nat, i: nat)
    requires 0 < w
    ensures i % w > 0 ==> i >= 1 && (i >= w ==> i >= w + 1)
  {
    if i == w {
      DivModUnique(1, w, 0);
    }
  }

  /** d is the raster of B-bit samples with these residuals. */
  ghost predicate Reconstructs(B: nat, d: seq<nat>, r: seq<nat>, w: nat)
    requires 0 < w
  {
    |d| == |r| && forall i :: 0 <= i < |d| ==> d[i] == Wrap(Size(B), r[i] + Predict(d, w, i))
  }

  /** A prediction only looks back. */
  lemma PredictSame(d: seq<nat>, e: seq<nat>, w: nat, i: nat)
    requires 0 < w && i < |d| && i < |e| && forall j :: 0 <= j < i ==> d[j] == e[j]
    ensures Predict(d, w, i) == Predict(e, w, i)
  {
    LeftFits(w, i);
  }

  lemma ReconstructsAt(B: nat, d: seq<nat>, r: seq<nat>, w: nat, i: nat)
    requires 0 < w && Reconstructs(B, d, r, w)
    ensures |d| == |r| && (i < |d| ==> d[i] == Wrap(Size(B), r[i] + Predict(d, w, i)))
  {
    hide Predict, Wrap, Size;
  }

  /** Residuals determine the raster. */
  lemma {:induction false} ReconstructsOnce(B: nat, d: seq<nat>, e: seq<nat>, r: seq<nat>, w: nat, n: nat)
    requires 0 < w && Reconstructs(B, d, r, w) && Reconstructs(B, e, r, w) && n <= |d|
    ensures forall j :: 0 <= j < n ==> d[j] == e[j]
  {
    hide Predict, Wrap, Size, Reconstructs;
    ReconstructsAt(B, d, r, w, if n > 0 then n - 1 else 0);
    ReconstructsAt(B, e, r, w, if n > 0 then n - 1 else 0);
    if n > 0 {
      ReconstructsOnce(B, d, e, r, w, n - 1);
      PredictSame(d, e, w, n - 1);
    }
  }

  // ---------------------------------------------------------------------------
  // The encoders

  type Map = nat -> nat

  /** The first n words are the differences, which MED keeps as they are and MED-Zigzag
      folds. */
  ghost predicate Encoded(B: nat, s: seq<nat>, e: seq<nat>, w: nat, fwd: Map, n: nat)
    requires 0 < w
  {
    n <= |s| == |e| && forall i :: 0 <= i < n ==> e[i] == fwd(Wrap(Size(B), s[i] - Predict(s, w, i)))
  }
}
