/** Prefix sums inside a register: ladders of shifts and additions, the fold of one half
    into the other, and the carry from block to block. */
module PrefixSums {
  import opened Machine

  type Lanes = seq<nat>

  ghost predicate WordLanes(M: nat, x: Lanes) { forall i :: 0 <= i < |x| ==> x[i] < M }

  // ---------------------------------------------------------------------------
  // Sums

  function Sum(x: Lanes, lo: nat, hi: nat): (s: nat)
    requires hi <= |x|
  {
    if lo >= hi then 0 else Sum(x, lo, hi - 1) + x[hi - 1]
  }

  lemma {:induction false} SumSplit(x: Lanes, lo: nat, mid: nat, hi: nat)
    requires lo <= mid <= hi <= |x|
    ensures Sum(x, lo, hi) == Sum(x, lo, mid) + Sum(x, mid, hi)
  {
    if mid < hi {
      SumSplit(x, lo, mid, hi - 1);
    }
  }

  lemma {:induction false} SumSame(x: Lanes, y: Lanes, from: nat, n: nat)
    requires n <= |y| && from + n <= |x| && forall i: nat :: i < n ==> x[from + i] == y[i]
    ensures Sum(x, from, from + n) == Sum(y, 0, n)
  {
    if n > 0 {
      SumSame(x, y, from, n - 1);
    }
  }

  lemma WrapOf(M: nat, a: int, b: int)
    requires M > 0
    ensures Wrap(M, Wrap(M, a) + b) == Wrap(M, a + b)
    ensures Wrap(M, b + Wrap(M, a)) == Wrap(M, a + b)
    ensures Wrap(M, b - Wrap(M, a)) == Wrap(M, b - a)
  {
    QuotientAndRemainder(M, a);
    var q := a / M;
    QuotientAndRemainder(M, a + b);
    WrapIs(M, Wrap(M, a) + b, Wrap(M, a + b), (a + b) / M - q);
    QuotientAndRemainder(M, b - a);
    WrapIs(M, b - Wrap(M, a), Wrap(M, b - a), (b - a) / M + q);
  }

  lemma WrapWord(M: nat, x: nat)
    requires x < M
    ensures Wrap(M, x) == x
  {
    WrapIs(M, x, x, 0);
  }

  // ---------------------------------------------------------------------------
  // The ladder

  function Add(M: nat, x: Lanes, y: Lanes): (z: Lanes)
    requires M > 0 && |x| == |y|
    ensures |z| == |x| && forall i :: 0 <= i < |x| ==> z[i] == Wrap(M, x[i] + y[i])
  {
    seq(|x|, i requires 0 <= i < |x| => Wrap(M, x[i] + y[i]))
  }

  function Sub(M: nat, x: Lanes, y: Lanes): (z: Lanes)
    requires M > 0 && |x| == |y|
    ensures |z| == |x| && forall i :: 0 <= i < |x| ==> z[i] == Wrap(M, x[i] as int - y[i] as int)
  {
    seq(|x|, i requires 0 <= i < |x| => Wrap(M, x[i] as int - y[i] as int))
  }

  function Splat(v: nat, n: nat): (z: Lanes)
    ensures |z| == n && forall i :: 0 <= i < n ==> z[i] == v
  {
    seq(n, i => v)
  }

  /** A register shifted up by k lanes, zeros coming in. */
  function Shift(x: Lanes, k: nat): (z: Lanes)
    ensures |z| == |x| && forall i :: 0 <= i < |x| ==> z[i] == if i < k then 0 else x[i - k]
  {
    seq(|x|, i requires 0 <= i < |x| => if i < k then 0 else x[i - k])
  }

  /** vextq: lanes k .. of zeros followed by x. */
  function Extract(x: Lanes, k: nat): Lanes
    requires k <= |x|
  {
    (Splat(0, |x|) + x)[k..k + |x|]
  }

  /** Extracting from behind n - k zeros is shifting up by k lanes. */
  lemma ExtractShifts(x: Lanes, k: nat)
    requires k <= |x|
    ensures Extract(x, |x| - k) == Shift(x, k)
  {
  }

  function Rung(M: nat, x: Lanes, k: nat): (z: Lanes)
    requires M > 0
    ensures |z| == |x|
  {
    Add(M, x, Shift(x, k))
  }

  function From(i: nat, k: nat): nat { if i + 1 > k then i + 1 - k else 0 }

  /** Every lane of y is the sum of the last k lanes of x up to it. */
  ghost predicate Windowed(M: nat, x: Lanes, y: Lanes, k: nat)
    requires M > 0
  {
    |y| == |x| && forall i: nat :: i < |x| ==> y[i] == Wrap(M, Sum(x, From(i, k), i + 1))
  }

  lemma WindowOne(M: nat, x: Lanes)
    requires M > 0 && WordLanes(M, x)
    ensures Windowed(M, x, x, 1)
  {
    forall i: nat | i < |x| ensures x[i] == Wrap(M, Sum(x, From(i, 1), i + 1)) {
      WrapWord(M, x[i]);
      assert Sum(x, i, i) == 0;
    }
  }

  /** A rung doubles the window. */
  lemma WindowDoubles(M: nat, x: Lanes, y: Lanes, k: nat)
    requires M > 0 && k > 0 && Windowed(M, x, y, k)
    ensures Windowed(M, x, Rung(M, y, k), 2 * k)
  {
    var z := Rung(M, y, k);
    forall i: nat | i < |x| ensures z[i] == Wrap(M, Sum(x, From(i, 2 * k), i + 1)) {
      WindowAt(M, x, y, k, i);
    }
  }

  lemma RungAt(M: nat, y: Lanes, k: nat, i: nat)
    requires M > 0 && i < |y|
    ensures Rung(M, y, k)[i] == Wrap(M, y[i] + (if i < k then 0 else y[i - k]))
  {
  }

  /** Two adjacent windows make one. */
  lemma TwoWindows(M: nat, x: Lanes, lo: nat, mid: nat, hi: nat)
    requires M > 0 && lo <= mid <= hi <= |x|
    ensures Wrap(M, Wrap(M, Sum(x, mid, hi)) + Wrap(M, Sum(x, lo, mid))) == Wrap(M, Sum(x, lo, hi))
  {
    SumSplit(x, lo, mid, hi);
    WrapOf(M, Sum(x, mid, hi), Wrap(M, Sum(x, lo, mid)));
    WrapOf(M, Sum(x, lo, mid), Sum(x, mid, hi));
  }

  lemma WindowAt(M: nat, x: Lanes, y: Lanes, k: nat, i: nat)
    requires M > 0 && k > 0 && Windowed(M, x, y, k) && i < |x|
    ensures Rung(M, y, k)[i] == Wrap(M, Sum(x, From(i, 2 * k), i + 1))
  {
    hide Wrap, Sum, Rung;
    RungAt(M, y, k, i);
    assert y[i] == Wrap(M, Sum(x, From(i, k), i + 1));
    if i < k {
      WrapOf(M, Sum(x, 0, i + 1), 0);
    } else {
      WindowBelow(M, x, y, k, i);
      TwoWindows(M, x, From(i, 2 * k), i - k + 1, i + 1);
    }
  }

  lemma WindowBelow(M: nat, x: Lanes, y: Lanes, k: nat, i: nat)
    requires M > 0 && k > 0 && Windowed(M, x, y, k) && k <= i < |x|
    ensures y[i - k] == Wrap(M, Sum(x, From(i - k, k), i - k + 1))
  {
    var j: nat := i - k;
    assert y[j] == Wrap(M, Sum(x, From(j, k), j + 1));
  }

  /** Every lane of y is the sum of all lanes of x up to it. */
  ghost predicate PrefixOf(M: nat, x: Lanes, y: Lanes)
    requires M > 0
  {
    |y| == |x| && forall i: nat :: i < |x| ==> y[i] == Wrap(M, Sum(x, 0, i + 1))
  }

  /** The ladder of a 128-bit register of 16, 8 or 4 lanes. */
  function Ladder(M: nat, x: Lanes): (z: Lanes)
    requires M > 0
    ensures |z| == |x|
  {
    var x1 := Rung(M, x, 1);
    var x2 := Rung(M, x1, 2);
    if |x| <= 4 then x2 else
    var x4 := Rung(M, x2, 4);
    if |x| <= 8 then x4 else Rung(M, x4, 8)
  }

  lemma LadderIsPrefix(M: nat, x: Lanes)
    requires M > 0 && WordLanes(M, x) && |x| <= 16
    ensures PrefixOf(M, x, Ladder(M, x))
  {
    hide Rung, Windowed;
    WindowOne(M, x);
    var x1 := Rung(M, x, 1);
    WindowDoubles(M, x, x, 1);
    var x2 := Rung(M, x1, 2);
    WindowDoubles(M, x, x1, 2);
    var x4 := Rung(M, x2, 4);
    WindowDoubles(M, x, x2, 4);
    WindowDoubles(M, x, x4, 8);
    var k := if |x| <= 4 then 4 else if |x| <= 8 then 8 else 16;
    WholeWindow(M, x, Ladder(M, x), k);
  }

  lemma WholeWindow(M: nat, x: Lanes, y: Lanes, k: nat)
    requires M > 0 && Windowed(M, x, y, k) && |x| <= k
    ensures PrefixOf(M, x, y)
  {
    forall i: nat | i < |x| ensures y[i] == Wrap(M, Sum(x, 0, i + 1)) {
      assert From(i, k) == 0;
    }
  }

  /** NEON builds the shifts by extraction ... */
  function RungByExtraction(M: nat, x: Lanes, k: nat): (z: Lanes)
    requires M > 0 && k <= |x|
    ensures |z| == |x|
  {
    Add(M, x, Extract(x, |x| - k))
  }

  /** ... and the rungs are the same. */
  lemma NeonRung(M: nat, x: Lanes, k: nat)
    requires M > 0 && k <= |x|
    ensures RungByExtraction(M, x, k) == Rung(M, x, k)
  {
    ExtractShifts(x, k);
  }

  function LadderByExtraction(M: nat, x: Lanes): (z: Lanes)
    requires M > 0 && |x| >= 2 && |x| % 2 == 0
    ensures |z| == |x|
  {
    var x1 := RungByExtraction(M, x, 1);
    var x2 := RungByExtraction(M, x1, 2);
    if |x| <= 4 then x2 else
    var x4 := RungByExtraction(M, x2, 4);
    if |x| <= 8 then x4 else RungByExtraction(M, x4, 8)
  }

  lemma NeonLadder(M: nat, x: Lanes)
    requires M > 0 && |x| >= 2 && |x| % 2 == 0
    ensures LadderByExtraction(M, x) == Ladder(M, x)
  {
    hide Rung, RungByExtraction;
    NeonRung(M, x, 1);
    var x1 := Rung(M, x, 1);
    NeonRung(M, x1, 2);
    if |x| > 4 {
      var x2 := Rung(M, x1, 2);
      NeonRung(M, x2, 4);
      if |x| > 8 {
        NeonRung(M, Rung(M, x2, 4), 8);
      }
    }
  }

  // ---------------------------------------------------------------------------
  // The 256-bit register

  /** Shifts stay within each half, so the low half's total is folded into the high
      half after the ladder. */
  function Ladder256(M: nat, x: Lanes): (z: Lanes)
    requires M > 0 && |x| % 2 == 0 && |x| > 0
    ensures |z| == |x|
  {
    var n := |x| / 2;
    var lo, hi := Ladder(M, x[..n]), Ladder(M, x[n..]);
    Add(M, lo + hi, Splat(0, n) + Splat(lo[n - 1], n))
  }

  lemma FoldedHigh(M: nat, x: Lanes, n: nat, i: nat)
    requires M > 0 && 0 < n <= i < |x|
    ensures Wrap(M, Wrap(M, Sum(x[n..], 0, i - n + 1)) + Wrap(M, Sum(x[..n], 0, n))) == Wrap(M, Sum(x, 0, i + 1))
  {
    SumSame(x, x[n..], n, i - n + 1);
    SumSame(x, x[..n], 0, n);
    TwoWindows(M, x, 0, n, i + 1);
  }

  lemma FoldedLow(M: nat, x: Lanes, n: nat, i: nat)
    requires M > 0 && i < n <= |x|
    ensures Wrap(M, Wrap(M, Sum(x[..n], 0, i + 1)) + 0) == Wrap(M, Sum(x, 0, i + 1))
  {
    SumSame(x, x[..n], 0, i + 1);
    WrapOf(M, Sum(x, 0, i + 1), 0);
  }

  lemma Ladder256IsPrefix(M: nat, x: Lanes)
    requires M > 0 && WordLanes(M, x) && |x| % 2 == 0 && 0 < |x| <= 32
    ensures PrefixOf(M, x, Ladder256(M, x))
  {
    var n := |x| / 2;
    LadderIsPrefix(M, x[..n]);
    LadderIsPrefix(M, x[n..]);
    hide Ladder, Sum, Wrap;
    var lo, hi, z := Ladder(M, x[..n]), Ladder(M, x[n..]), Ladder256(M, x);
    forall i: nat | i < |x| ensures z[i] == Wrap(M, Sum(x, 0, i + 1)) {
      if i < n {
        assert z[i] == Wrap(M, lo[i] + 0);
        FoldedLow(M, x, n, i);
      } else {
        assert z[i] == Wrap(M, hi[i - n] + lo[n - 1]);
        assert hi[i - n] == Wrap(M, Sum(x[n..], 0, i - n + 1));
        FoldedHigh(M, x, n, i);
      }
    }
  }

  // ---------------------------------------------------------------------------
  // Scans with a carry

  datatype Isa = Avx2 | Sse2 | Neon | Scalar

  /** Lanes of a register, for elements of B bits; 64-bit elements are never in one. */
  function LaneCount(isa: Isa, B: nat): (n: nat)
    ensures n > 0 ==> (if isa.Avx2? then n == 32 || n == 16 || n == 8 else n == 16 || n == 8 || n == 4)
  {
    if isa.Scalar? || (B != 8 && B != 16 && B != 32) then 0
    else (if isa.Avx2? then 256 else 128) / B
  }

  function RegisterPrefix(isa: Isa, M: nat, x: Lanes): (z: Lanes)
    requires M > 0 && |x| > 0 && |x| % 2 == 0
    ensures |z| == |x|
  {
    if isa.Avx2? then Ladder256(M, x) else if isa.Neon? then LadderByExtraction(M, x) else Ladder(M, x)
  }

  /** vscan: the prefix plus the carry, and the carry plus the last prefix in every lane. */
  method Vscan(isa: Isa, M: nat, x: Lanes, carry: Lanes) returns (out: Lanes, carry': Lanes)
    requires M > 0 && WordLanes(M, x) && |carry| == |x| && |x| > 0 && |x| % 2 == 0
      && |x| <= (if isa.Avx2? then 32 else 16)
    requires carry == Splat(carry[0], |x|) && carry[0] < M
    ensures |out| == |x| && Chained(M, carry[0], x, out)
    ensures carry' == Splat(out[|x| - 1], |x|)
  {
    hide RegisterPrefix, Wrap;
    var p := RegisterPrefix(isa, M, x);
    out := Add(M, p, carry);
    carry' := Add(M, carry, Splat(p[|x| - 1], |x|));
    RegisterIsPrefix(isa, M, x);
    CarriedPrefix(M, carry[0], x, p, out);
  }

  lemma RegisterIsPrefix(isa: Isa, M: nat, x: Lanes)
    requires M > 0 && WordLanes(M, x) && |x| > 0 && |x| % 2 == 0 && |x| <= (if isa.Avx2? then 32 else 16)
    ensures PrefixOf(M, x, RegisterPrefix(isa, M, x))
  {
    if isa.Avx2? {
      Ladder256IsPrefix(M, x);
    } else {
      if isa.Neon? {
        NeonLadder(M, x);
      }
      LadderIsPrefix(M, x);
    }
  }

  /** Each lane of out adds one lane of x to the lane before it, the first one to c. */
  ghost predicate Chained(M: nat, c: nat, x: Lanes, out: Lanes)
    requires M > 0
  {
    |out| == |x| && forall i: nat :: i < |x| ==> out[i] == Wrap(M, (if i == 0 then c else out[i - 1]) + x[i])
  }

  lemma ChainedAt(M: nat, c: nat, x: Lanes, out: Lanes, i: nat)
    requires M > 0 && Chained(M, c, x, out) && i < |x|
    ensures out[i] == Wrap(M, (if i == 0 then c else out[i - 1]) + x[i])
  {
  }

  lemma CarriedPrefix(M: nat, c: nat, x: Lanes, p: Lanes, out: Lanes)
    requires M > 0 && c < M && PrefixOf(M, x, p) && |out| == |x|
    requires forall i: nat :: i < |x| ==> out[i] == Wrap(M, p[i] + c)
    ensures Chained(M, c, x, out)
  {
    forall i: nat | i < |x| ensures out[i] == Wrap(M, (if i == 0 then c else out[i - 1]) + x[i]) {
      CarriedAt(M, c, x, p, out, i);
    }
  }

  lemma CarriedAt(M: nat, c: nat, x: Lanes, p: Lanes, out: Lanes, i: nat)
    requires M > 0 && c < M && PrefixOf(M, x, p) && |out| == |x| && i < |x|
    requires forall i: nat :: i < |x| ==> out[i] == Wrap(M, p[i] + c)
    ensures out[i] == Wrap(M, (if i == 0 then c else out[i - 1]) + x[i])
  {
    assert Sum(x, 0, i + 1) == Sum(x, 0, i) + x[i];
    assert p[i] == Wrap(M, Sum(x, 0, i + 1)) && (i > 0 ==> p[i - 1] == Wrap(M, Sum(x, 0, i)));
    hide Wrap, PrefixOf;
    WrapOf(M, Sum(x, 0, i + 1), c);
    if i > 0 {
      WrapOf(M, Sum(x, 0, i), c);
      WrapOf(M, Sum(x, 0, i) + c, x[i]);
    } else {
      assert Sum(x, 0, 0) == 0;
    }
  }
}
