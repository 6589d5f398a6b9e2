/** The weights of a PivCo lane: which are accepted, and how often each occurs
    (openzl/codecs/pivco_huffman/common_pivco_kernel.c). */
module PivcoWeights {
  import opened Words
  import opened PivcoTree
  import opened PivcoWalk

  const MAX_WEIGHT: nat := MAX_TABLE_LOG + 1

  /** What a symbol of weight w takes of the code space, in units of the longest code. */
  function Worth(w: nat): nat { if w == 0 then 0 else Pow2(w - 1) }

  function Kraft(weights: seq<nat>): nat {
    if |weights| == 0 then 0 else Kraft(weights[..|weights| - 1]) + Worth(weights[|weights| - 1])
  }

  /** Weights of a complete prefix code whose longest codeword has log bits. */
  predicate Complete(weights: seq<nat>, log: nat) {
    && 0 < |weights| <= 256 && log <= MAX_TABLE_LOG
    && (forall i :: 0 <= i < |weights| ==> weights[i] <= MAX_TABLE_LOG)
    && Kraft(weights) == Pow2(log)
  }

  lemma {:induction false} Pow2Mono(a: nat, b: nat)
    requires a < b
    ensures 2 * Pow2(a) <= Pow2(b)
  {
    if a + 1 < b {
      Pow2Mono(a, b - 1);
    }
  }

  lemma Pow2Once(a: nat, b: nat)
    requires Pow2(a) == Pow2(b)
    ensures a == b
  {
    if a < b {
      Pow2Mono(a, b);
    } else if b < a {
      Pow2Mono(b, a);
    }
  }

  lemma CompleteOnce(weights: seq<nat>, log: nat, log': nat)
    requires Complete(weights, log) && Complete(weights, log')
    ensures log == log'
  {
    Pow2Once(log, log');
  }

  // ---------- powers of two and high bits ----------

  function HighBit(v: nat): (k: nat)
    requires v > 0
    ensures Pow2(k) <= v < 2 * Pow2(k)
  {
    CountBits(v) - 1
  }

  lemma HighPositive(n: nat)
    requires n >= 2
    ensures 0 < HighBit(n) && Pow2(HighBit(n)) <= n
  {
  }

  lemma HighBitOf(k: nat)
    ensures HighBit(Pow2(k)) == k
  {
    var h := HighBit(Pow2(k));
    if h < k {
      Pow2Mono(h, k);
    } else if k < h {
      Pow2Mono(k, h);
    }
  }

  // v & (v - 1), below 2^n.
  function LowestCleared(v: nat, n: nat): Bits
    requires v > 0
  {
    And(OfNat(v, n), OfNat(v - 1, n))
  }

  lemma {:induction false} LowestClearedIs(v: nat, n: nat)
    requires 0 < v < Pow2(n)
    ensures LowestCleared(v, n) == Zero(n) <==> v == Pow2(HighBit(v))
  {
    hide LowestCleared, HighBit;
    if v == 1 {
      HighBitOf(0);
      OneCleared(n);
    } else if v % 2 == 1 {
      HalfHigh(v);
      OddCleared(v, n);
    } else {
      HalfHigh(v);
      LowestClearedIs(v / 2, n - 1);
      EvenCleared(v, n);
    }
  }

  lemma HalfHigh(v: nat)
    requires v >= 2
    ensures Pow2(HighBit(v)) == 2 * Pow2(HighBit(v / 2))
  {
  }

  lemma OneCleared(n: nat)
    requires n > 0
    ensures LowestCleared(1, n) == Zero(n)
  {
    ZeroBelow(n);
  }

  lemma BitsStep(v: nat, n: nat)
    requires n > 0
    ensures OfNat(v, n)[0] == (v % 2 == 1)
    ensures OfNat(v, n)[1..] == OfNat(v / 2, n - 1)
  {
  }

  lemma OddCleared(v: nat, n: nat)
    requires 1 < v < Pow2(n) && v % 2 == 1
    ensures LowestCleared(v, n) != Zero(n)
  {
    hide OfNat;
    assert (v - 1) / 2 == v / 2;
    BitsStep(v, n);
    BitsStep(v - 1, n);
    OneBit(v / 2, n - 1);
    var i :| 0 <= i < n - 1 && OfNat(v / 2, n - 1)[i];
    assert OfNat(v, n)[1..][i] == OfNat(v, n)[i + 1];
    assert OfNat(v - 1, n)[1..][i] == OfNat(v - 1, n)[i + 1];
    assert LowestCleared(v, n)[i + 1];
  }

  lemma EvenCleared(v: nat, n: nat)
    requires 1 < v && 0 < n && v % 2 == 0
    ensures LowestCleared(v, n) == Zero(n) <==> LowestCleared(v / 2, n - 1) == Zero(n - 1)
  {
    hide OfNat, Pow2;
    assert (v - 1) / 2 == v / 2 - 1;
    BitsStep(v, n);
    BitsStep(v - 1, n);
    var c, d := LowestCleared(v, n), LowestCleared(v / 2, n - 1);
    assert c[1..] == d;
    assert !c[0];
    assert Zero(n)[1..] == Zero(n - 1);
    if d == Zero(n - 1) {
      assert c == [c[0]] + c[1..];
      assert Zero(n) == [false] + Zero(n - 1);
    }
  }

  lemma {:induction false} ZeroBelow(n: nat)
    ensures OfNat(0, n) == Zero(n)
  {
    if n > 0 {
      ZeroBelow(n - 1);
    }
  }

  lemma {:induction false} OneBit(u: nat, n: nat)
    requires 0 < u < Pow2(n)
    ensures exists i :: 0 <= i < n && OfNat(u, n)[i]
  {
    if u % 2 == 1 {
      assert OfNat(u, n)[0];
    } else {
      OneBit(u / 2, n - 1);
      var i :| 0 <= i < n - 1 && OfNat(u / 2, n - 1)[i];
      assert OfNat(u, n)[i + 1];
    }
  }

  // ---------- the check ----------

  // One turn of the sum: (1u << (w & 31)) >> 1.
  function Shifted(w: nat): nat { Pow2(w % 32) / 2 }

  const WORD: nat := 0x1_0000_0000

  lemma ShiftedIs(w: nat)
    requires w <= MAX_TABLE_LOG
    ensures Shifted(w) == Worth(w) <= 2048
  {
    assert Pow2(4) == 16;
    assert Pow2(8) == 256;
    assert Pow2(11) == 2048;
    if 0 < w < 12 {
      Pow2Mono(w - 1, 11);
    }
  }

  /** ZL_PivCoHuffman_computeTableLog: the longest codeword of the complete code these
      weights are of, or -1 when they are of none. The 32-bit sum may wrap, but only where
      a weight is out of range. */
  method ComputeTableLog(weights: seq<nat>) returns (log: int)
    requires forall i :: 0 <= i < |weights| ==> weights[i] < 256
    ensures log >= 0 ==> Complete(weights, log)
    ensures log < 0 ==> log == -1 && forall k: nat :: !Complete(weights, k)
  {
    if |weights| == 0 || |weights| > 256 {
      return -1;
    }
    var invalid, sum: nat := false, 0;
    for i := 0 to |weights|
      invariant SummedTo(weights, i, invalid, sum)
    {
      hide *;
      SumTurn(weights, i, invalid, sum);
      invalid := invalid || weights[i] > MAX_TABLE_LOG;
      sum := (sum + Shifted(weights[i])) % WORD;
    }
    assert weights[..|weights|] == weights;
    hide Complete, Kraft;
    log := Checked(weights, invalid, sum);
  }

  // The first i weights are summed, and checked.
  ghost predicate SummedTo(weights: seq<nat>, i: nat, invalid: bool, sum: nat) {
    && i <= |weights|
    && (invalid <==> exists k :: 0 <= k < i && weights[k] > MAX_TABLE_LOG)
    && (!invalid ==> sum == Kraft(weights[..i]) <= 2048 * i)
  }

  lemma SumTurn(weights: seq<nat>, i: nat, invalid: bool, sum: nat)
    requires i < |weights| <= 256 && SummedTo(weights, i, invalid, sum)
    ensures SummedTo(weights, i + 1, invalid || weights[i] > MAX_TABLE_LOG, (sum + Shifted(weights[i])) % WORD)
  {
    hide Worth, Kraft, Shifted;
    KraftStep(weights, i);
    if weights[i] <= MAX_TABLE_LOG {
      ShiftedIs(weights[i]);
    }
  }

  lemma KraftStep(weights: seq<nat>, i: nat)
    requires i < |weights|
    ensures Kraft(weights[..i + 1]) == Kraft(weights[..i]) + Worth(weights[i])
  {
    assert weights[..i + 1][..i] == weights[..i];
  }

  /** What the sum says. */
  method Checked(weights: seq<nat>, invalid: bool, sum: nat) returns (log: int)
    requires 0 < |weights| <= 256
    requires invalid <==> exists k :: 0 <= k < |weights| && weights[k] > MAX_TABLE_LOG
    requires !invalid ==> sum == Kraft(weights) < WORD
    ensures log >= 0 ==> Complete(weights, log)
    ensures log < 0 ==> log == -1 && forall k: nat :: !Complete(weights, k)
  {
    hide HighBit;
    if invalid {
      return -1;
    }
    if sum != 0 {
      Word32();
      LowestClearedIs(sum, 32);
    }
    if sum == 0 || LowestCleared(sum, 32) != Zero(32) {
      forall k: nat ensures !Complete(weights, k) {
        HighBitOf(k);
      }
      return -1;
    }
    log := HighBit(sum);
    forall k: nat | Complete(weights, k) ensures k == log {
      Pow2Once(k, log);
    }
    if log > MAX_TABLE_LOG {
      return -1;
    }
  }

  lemma Word32()
    ensures Pow2(32) == WORD
  {
    Pow32();
  }

  // ---------- counting ----------

  /** How many of the weights are w. */
  function CountOf(weights: seq<nat>, w: nat): (n: nat)
    ensures n <= |weights|
  {
    if |weights| == 0 then 0
    else CountOf(weights[..|weights| - 1], w) + if weights[|weights| - 1] == w then 1 else 0
  }

  lemma CountStep(weights: seq<nat>, i: nat, w: nat)
    requires i < |weights|
    ensures CountOf(weights[..i + 1], w) == CountOf(weights[..i], w) + if weights[i] == w then 1 else 0
  {
    assert weights[..i + 1][..i] == weights[..i];
  }

  lemma {:induction false} AllOne(weights: seq<nat>, w: nat)
    requires CountOf(weights, w) == |weights|
    ensures forall i :: 0 <= i < |weights| ==> weights[i] == w
  {
    if |weights| > 0 {
      AllOne(weights[..|weights| - 1], w);
    }
  }

  lemma {:induction false} SomeCounted(weights: seq<nat>, i: nat)
    requires i < |weights|
    ensures CountOf(weights, weights[i]) > 0
  {
    if i < |weights| - 1 {
      SomeCounted(weights[..|weights| - 1], i);
    }
  }

  ghost predicate Counted(weights: seq<nat>, counts: seq<nat>) {
    |counts| == 16 && forall w :: 0 <= w < 16 ==> counts[w] == CountOf(weights, w)
  }

  /** The 8-bit lanes of the register: each count modulo 256. */
  ghost predicate Lanes(weights: seq<nat>, lanes: seq<nat>) {
    |lanes| == 16 && forall w :: 0 <= w < 16 ==> lanes[w] == CountOf(weights, w) % 256
  }

  /** The register form: a lane that reaches 256 reads 0, and then all lanes do. */
  method CountInRegister(weights: seq<nat>) returns (counts: seq<nat>)
    requires |weights| <= 256 && forall i :: 0 <= i < |weights| ==> weights[i] <= MAX_TABLE_LOG
    ensures Counted(weights, counts)
  {
    hide CountOf;
    var lanes: seq<nat> := seq(16, w => 0);
    NoneCounted(weights[..0]);
    for i := 0 to |weights|
      invariant Lanes(weights[..i], lanes)
    {
      forall w | 0 <= w < 16
        ensures CountOf(weights[..i + 1], w) == CountOf(weights[..i], w) + if weights[i] == w then 1 else 0
      {
        CountStep(weights, i, w);
      }
      lanes := seq(16, w requires 0 <= w < 16 => (lanes[w] + if weights[i] == w then 1 else 0) % 256);
    }
    assert weights[..|weights|] == weights;
    var zero := forall w :: 0 <= w < 16 ==> lanes[w] == 0;
    if |weights| == 256 && zero {
      counts := seq(16, w => 0);
      counts := counts[weights[0] := 256];
      SomeCounted(weights, 0);
      FullBucket(weights);
    } else {
      counts := lanes;
      if exists w :: 0 <= w < 16 && CountOf(weights, w) == 256 {
        var w :| 0 <= w < 16 && CountOf(weights, w) == 256;
        AllOne(weights, w);
        FullBucket(weights);
      }
    }
  }

  lemma NoneCounted(weights: seq<nat>)
    requires |weights| == 0
    ensures forall w :: CountOf(weights, w) == 0
  {
  }

  // When the first weight fills its bucket, the others are empty.
  lemma FullBucket(weights: seq<nat>)
    requires |weights| == 256 && 0 < CountOf(weights, weights[0])
    requires CountOf(weights, weights[0]) % 256 == 0
    ensures CountOf(weights, weights[0]) == 256 && forall w :: w != weights[0] ==> CountOf(weights, w) == 0
  {
    assert CountOf(weights, weights[0]) == 256;
    AllOne(weights, weights[0]);
    forall w | w != weights[0] ensures CountOf(weights, w) == 0 {
      OthersNone(weights, weights[0], w);
    }
  }

  lemma {:induction false} OthersNone(weights: seq<nat>, v: nat, w: nat)
    requires v != w && forall i :: 0 <= i < |weights| ==> weights[i] == v
    ensures CountOf(weights, w) == 0
  {
    if |weights| > 0 {
      OthersNone(weights[..|weights| - 1], v, w);
    }
  }
}
