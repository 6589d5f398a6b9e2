/** The leaves of a PivCo tree, by weight: one for each symbol at first, then runs of equal
    weight collapsed into flat leaves (optimizeLeaves of
    openzl/codecs/pivco_huffman/common_pivco_kernel.c). */
module PivcoLeaves {
  import opened Words
  import opened Arith
  import opened PivcoTree
  import opened PivcoWeights

  /** The symbols of a leaf. */
  type Leaf = seq<Small>

  const BUCKETS: nat := MAX_WEIGHT + 1

  type Buckets = b: seq<seq<Leaf>> | |b| == BUCKETS witness seq(BUCKETS, w => [])

  // ---------- one leaf for each symbol ----------

  function SymbolsOf(weights: seq<nat>, w: nat, n: nat): (s: seq<Small>)
    requires n <= |weights| <= 256
    ensures |s| <= n
  {
    if n == 0 then [] else SymbolsOf(weights, w, n - 1) + if weights[n - 1] == w then [n - 1] else []
  }

  lemma {:induction false} SymbolsCounted(weights: seq<nat>, w: nat, n: nat)
    requires n <= |weights| <= 256
    ensures |SymbolsOf(weights, w, n)| == CountOf(weights[..n], w)
    ensures forall i :: 0 <= i < |SymbolsOf(weights, w, n)| ==>
      SymbolsOf(weights, w, n)[i] < n && weights[SymbolsOf(weights, w, n)[i]] == w
  {
    if n > 0 {
      SymbolsCounted(weights, w, n - 1);
      CountStep(weights, n - 1, w);
    }
  }

  function Singles(symbols: seq<Small>): (leaves: seq<Leaf>)
    ensures |leaves| == |symbols| && forall i :: 0 <= i < |leaves| ==> leaves[i] == [symbols[i]]
  {
    seq(|symbols|, i requires 0 <= i < |symbols| => [symbols[i]])
  }

  function Seeded(weights: seq<nat>): (b: Buckets)
    requires |weights| <= 256
    ensures b[0] == [] && forall w :: 1 <= w < BUCKETS ==> b[w] == Singles(SymbolsOf(weights, w, |weights|))
  {
    seq(BUCKETS, w => if w <= 0 then [] else Singles(SymbolsOf(weights, w, |weights|)))
  }

  // ---------- collapsing ----------

  function Concat(leaves: seq<Leaf>): seq<Small> {
    if |leaves| == 0 then [] else Concat(leaves[..|leaves| - 1]) + leaves[|leaves| - 1]
  }

  lemma {:induction false} ConcatAppend(a: seq<Leaf>, b: seq<Leaf>)
    ensures Concat(a + b) == Concat(a) + Concat(b)
    decreases |b|
  {
    if |b| == 0 {
      assert a + b == a;
    } else {
      ConcatAppend(a, b[..|b| - 1]);
      assert (a + b)[..|a + b| - 1] == a + b[..|b| - 1];
      AppendAssoc(Concat(a), Concat(b[..|b| - 1]), b[|b| - 1]);
    }
  }

  predicate AllSingle(leaves: seq<Leaf>) {
    forall i :: 0 <= i < |leaves| ==> |leaves[i]| == 1
  }

  lemma {:induction false} ConcatSingles(leaves: seq<Leaf>)
    requires AllSingle(leaves)
    ensures |Concat(leaves)| == |leaves|
    ensures forall i :: 0 <= i < |leaves| ==> Concat(leaves)[i] == leaves[i][0]
  {
    if |leaves| > 0 {
      ConcatSingles(leaves[..|leaves| - 1]);
    }
  }

  /** The largest power-of-two block at the end of a bucket of more than two leaves
      becomes one flat leaf. */
  function PeelOne(b: Buckets, w: nat): (c: Buckets)
    requires w < BUCKETS && |b[w]| > 2 && w + HighBit(|b[w]|) < BUCKETS
    ensures |c[w]| < |b[w]| && c[..w] == b[..w]
  {
    var k := HighBit(|b[w]|);
    assert k > 0;
    var off := |b[w]| - Pow2(k);
    b[w := b[w][..off]][w + k := b[w + k] + [Concat(b[w][off..])]]
  }

  // Room for the flat leaves of weight w.
  predicate Fits(n: nat, w: nat) {
    n > 0 ==> w + HighBit(n) < BUCKETS
  }

  lemma FitsLess(n: nat, m: nat, w: nat)
    requires Fits(n, w) && m <= n
    ensures Fits(m, w)
  {
    if m > 0 && HighBit(n) < HighBit(m) {
      Pow2Mono(HighBit(n), HighBit(m));
    }
  }

  function PeelAll(b: Buckets, w: nat): (c: Buckets)
    requires w < BUCKETS && Fits(|b[w]|, w)
    ensures c[..w] == b[..w]
    decreases |b[w]|
  {
    if |b[w]| <= 2 then b
    else
      var c := PeelOne(b, w);
      FitsLess(|b[w]|, |c[w]|, w);
      PeelAll(c, w)
  }

  // ---------- what a peel does to the numbers of leaves ----------

  function Lens(b: Buckets): (c: seq<nat>)
    ensures |c| == BUCKETS && forall w :: 0 <= w < BUCKETS ==> c[w] == |b[w]|
  {
    seq(BUCKETS, w requires 0 <= w < BUCKETS => |b[w]|)
  }

  /** The part of the code space that so many leaves of each weight below n take. */
  function Share(c: seq<nat>, n: nat): nat
    requires n <= |c|
  {
    if n == 0 then 0 else Share(c, n - 1) + Times(c[n - 1], Worth(n - 1))
  }

  lemma {:induction false} ShareSame(c: seq<nat>, d: seq<nat>, n: nat)
    requires n <= |c| && n <= |d| && forall w :: 0 <= w < n ==> c[w] == d[w]
    ensures Share(c, n) == Share(d, n)
  {
    if n > 0 {
      ShareSame(c, d, n - 1);
    }
  }

  lemma {:induction false} ShareSet(c: seq<nat>, w: nat, v: nat, n: nat)
    requires w < n <= |c|
    ensures Share(c[w := v], n) + Times(c[w], Worth(w)) == Share(c, n) + Times(v, Worth(w))
  {
    if w == n - 1 {
      ShareSame(c[w := v], c, n - 1);
    } else {
      ShareSet(c, w, v, n - 1);
    }
  }

  lemma {:induction false} ShareAtLeast(c: seq<nat>, w: nat, n: nat)
    requires w < n <= |c|
    ensures Times(c[w], Worth(w)) <= Share(c, n)
  {
    if w < n - 1 {
      ShareAtLeast(c, w, n - 1);
    }
  }

  lemma {:induction false} BlockWorth(w: nat, k: nat)
    requires w > 0
    ensures Times(Pow2(k), Worth(w)) == Worth(w + k)
  {
    if k == 0 {
      assert Times(1, Worth(w)) == Times(0, Worth(w)) + Worth(w);
    } else {
      BlockWorth(w, k - 1);
      TimesAdd(Pow2(k - 1), Pow2(k - 1), Worth(w));
    }
  }

  function PeeledLens(c: seq<nat>, w: nat, k: nat): (d: seq<nat>)
    requires w < w + k < |c| && Pow2(k) <= c[w]
  {
    c[w := c[w] - Pow2(k)][w + k := c[w + k] + 1]
  }

  /** A flat leaf takes the code space its symbols took. */
  lemma PeelShare(c: seq<nat>, w: nat, k: nat)
    requires 0 < w < w + k < |c| && Pow2(k) <= c[w]
    ensures Share(PeeledLens(c, w, k), |c|) == Share(c, |c|)
  {
    hide Share, Times, Pow2, Worth;
    var d := c[w := c[w] - Pow2(k)];
    ShareSet(c, w, c[w] - Pow2(k), |c|);
    ShareSet(d, w + k, c[w + k] + 1, |c|);
    TimesAdd(c[w] - Pow2(k), Pow2(k), Worth(w));
    BlockWorth(w, k);
    TimesStep(c[w + k], c[w + k] + 1, Worth(w + k));
  }

  lemma PeelLens(b: Buckets, w: nat)
    requires w < BUCKETS && |b[w]| > 2 && w + HighBit(|b[w]|) < BUCKETS
    ensures HighBit(|b[w]|) > 0
    ensures Lens(PeelOne(b, w)) == PeeledLens(Lens(b), w, HighBit(|b[w]|))
  {
  }

  lemma WorthIs(w: nat)
    requires w > 0
    ensures Worth(w) == Pow2(w - 1)
  {
  }

  /** Leaves of a complete code fit the buckets. */
  lemma CompleteFits(c: seq<nat>, w: nat, log: nat)
    requires |c| == BUCKETS && 0 < w < BUCKETS && log <= MAX_TABLE_LOG && Share(c, BUCKETS) == Pow2(log)
    ensures Fits(c[w], w)
    ensures c[w] > 0 ==> w + HighBit(c[w]) <= log + 1
  {
    hide Share, Times, HighBit, Pow2, Worth;
    if c[w] > 0 {
      var k := HighBit(c[w]);
      WorthIs(w + k);
      ShareAtLeast(c, w, BUCKETS);
      TimesAdd(Pow2(k), c[w] - Pow2(k), Worth(w));
      BlockWorth(w, k);
      if w + k > log + 1 {
        Pow2Mono(log, w + k - 1);
      }
    }
  }

  // ---------- what a peel keeps ----------

  /** A leaf of weight w with 2^k symbols holds symbols of weight w - k. */
  predicate LeafOk(weights: seq<nat>, leaf: Leaf, w: nat) {
    && 0 < |leaf| == Pow2(HighBit(|leaf|)) && HighBit(|leaf|) < w
    && forall i :: 0 <= i < |leaf| ==> leaf[i] < |weights| && weights[leaf[i]] == w - HighBit(|leaf|)
  }

  predicate LeavesOk(weights: seq<nat>, leaves: seq<Leaf>, w: nat) {
    forall i :: 0 <= i < |leaves| ==> LeafOk(weights, leaves[i], w)
  }

  predicate BucketsOk(weights: seq<nat>, b: Buckets) {
    b[0] == [] && forall w :: 1 <= w < BUCKETS ==> LeavesOk(weights, b[w], w)
  }

  /** The symbols of all leaves of weight below n. */
  ghost function Held(b: Buckets, n: nat): multiset<Small>
    requires n <= BUCKETS
  {
    if n == 0 then multiset{} else Held(b, n - 1) + multiset(Concat(b[n - 1]))
  }

  lemma {:induction false} HeldSame(b: Buckets, c: Buckets, n: nat)
    requires n <= BUCKETS && forall w :: 0 <= w < n ==> b[w] == c[w]
    ensures Held(b, n) == Held(c, n)
  {
    if n > 0 {
      HeldSame(b, c, n - 1);
    }
  }

  lemma {:induction false} HeldSet(b: Buckets, w: nat, leaves: seq<Leaf>, n: nat)
    requires w < n <= BUCKETS
    ensures Held(b[w := leaves], n) + multiset(Concat(b[w])) == Held(b, n) + multiset(Concat(leaves))
  {
    hide Held, Concat;
    HeldStep(b, n);
    HeldStep(b[w := leaves], n);
    if w == n - 1 {
      HeldSame(b[w := leaves], b, n - 1);
    } else {
      HeldSet(b, w, leaves, n - 1);
      var h, h', d := Held(b, n - 1), Held(b[w := leaves], n - 1), multiset(Concat(b[n - 1]));
      assert (h' + d) + multiset(Concat(b[w])) == (h' + multiset(Concat(b[w]))) + d;
      assert (h + d) + multiset(Concat(leaves)) == (h + multiset(Concat(leaves))) + d;
    }
  }

  lemma Cancel(x: multiset<Small>, y: multiset<Small>, a: multiset<Small>)
    requires x + a == y + a
    ensures x == y
  {
    forall e ensures x[e] == y[e] {
      assert (x + a)[e] == (y + a)[e];
    }
  }

  lemma HeldStep(b: Buckets, n: nat)
    requires 0 < n <= BUCKETS
    ensures Held(b, n) == Held(b, n - 1) + multiset(Concat(b[n - 1]))
  {
    hide Concat;
  }

  lemma PeelHeld(b: Buckets, w: nat)
    requires w < BUCKETS && |b[w]| > 2 && w + HighBit(|b[w]|) < BUCKETS
    ensures Held(PeelOne(b, w), BUCKETS) == Held(b, BUCKETS)
  {
    hide Held, Concat;
    var k := HighBit(|b[w]|);
    assert k > 0;
    var off := |b[w]| - Pow2(k);
    var front, back := b[w][..off], b[w][off..];
    var c := b[w := front];
    assert b[w] == front + back;
    ConcatAppend(front, back);
    ConcatAppend(b[w + k], [Concat(back)]);
    ConcatOne(Concat(back));
    assert multiset(Concat(b[w])) == multiset(Concat(front)) + multiset(Concat(back));
    assert multiset(Concat(b[w + k] + [Concat(back)])) == multiset(Concat(b[w + k])) + multiset(Concat(back));
    HeldSet(b, w, front, BUCKETS);
    HeldSet(c, w + k, b[w + k] + [Concat(back)], BUCKETS);
    var d := c[w + k := b[w + k] + [Concat(back)]];
    var x, y, z := multiset(Concat(b[w + k])), multiset(Concat(back)), multiset(Concat(front));
    assert (Held(d, BUCKETS) + x) + z == (Held(c, BUCKETS) + (x + y)) + z;
    assert (Held(c, BUCKETS) + (z + y)) + x == (Held(b, BUCKETS) + z) + x;
    assert (Held(c, BUCKETS) + (x + y)) + z == (Held(c, BUCKETS) + (z + y)) + x;
    assert (Held(d, BUCKETS) + x) + z == Held(d, BUCKETS) + (x + z);
    assert (Held(b, BUCKETS) + z) + x == Held(b, BUCKETS) + (x + z);
    assert Held(d, BUCKETS) + (x + z) == Held(b, BUCKETS) + (x + z);
    Cancel(Held(d, BUCKETS), Held(b, BUCKETS), x + z);
  }

  lemma ConcatOne(leaf: Leaf)
    ensures Concat([leaf]) == leaf
  {
    assert [leaf][..0] == [];
    assert Concat([]) == [];
  }

  lemma PeelOk(weights: seq<nat>, b: Buckets, w: nat)
    requires 0 < w < BUCKETS && |b[w]| > 2 && w + HighBit(|b[w]|) < BUCKETS
    requires BucketsOk(weights, b) && AllSingle(b[w])
    ensures BucketsOk(weights, PeelOne(b, w)) && AllSingle(PeelOne(b, w)[w])
  {
    hide LeafOk;
    var k := HighBit(|b[w]|);
    assert k > 0;
    var off := |b[w]| - Pow2(k);
    var back := b[w][off..];
    FlatOk(weights, back, w, k);
    var c := PeelOne(b, w);
    forall v | 1 <= v < BUCKETS ensures LeavesOk(weights, c[v], v) {
      assert LeavesOk(weights, b[v], v);
    }
  }

  lemma FlatOk(weights: seq<nat>, back: seq<Leaf>, w: nat, k: nat)
    requires 0 < w && |back| == Pow2(k) && LeavesOk(weights, back, w) && AllSingle(back)
    ensures LeafOk(weights, Concat(back), w + k)
  {
    ConcatSingles(back);
    HighBitOf(k);
    HighBitOf(0);
    forall i | 0 <= i < |back| ensures Concat(back)[i] < |weights| && weights[Concat(back)[i]] == w {
      assert LeafOk(weights, back[i], w);
    }
  }

  // ---------- all weights, from the shortest code to the longest ----------

  predicate AllFit(b: Buckets, w: nat) {
    w < BUCKETS && forall v :: 0 < v <= w ==> Fits(|b[v]|, v)
  }

  function Optimize(b: Buckets, w: nat): (c: Buckets)
    requires AllFit(b, w)
    decreases w
  {
    if w == 0 then b
    else
      var c := PeelAll(b, w);
      BelowFit(b, c, w);
      Optimize(c, w - 1)
  }

  lemma BelowFit(b: Buckets, c: Buckets, w: nat)
    requires 0 < w && AllFit(b, w) && c[..w] == b[..w]
    ensures AllFit(c, w - 1)
  {
    forall v | 0 < v <= w - 1 ensures Fits(|c[v]|, v) {
      assert c[..w][v] == b[..w][v];
    }
  }

  /** What collapsing keeps: which leaf holds which weights, all symbols, the code space. */
  ghost predicate Keeps(weights: seq<nat>, b: Buckets, c: Buckets) {
    && BucketsOk(weights, c) && Held(c, BUCKETS) == Held(b, BUCKETS)
    && Share(Lens(c), BUCKETS) == Share(Lens(b), BUCKETS)
  }

  lemma {:induction false} PeelAllKeeps(weights: seq<nat>, b: Buckets, w: nat)
    requires 0 < w < BUCKETS && Fits(|b[w]|, w) && BucketsOk(weights, b) && AllSingle(b[w])
    ensures Keeps(weights, b, PeelAll(b, w))
    decreases |b[w]|
  {
    hide BucketsOk, Held, Share, Lens, PeelOne, HighBit, AllSingle;
    if |b[w]| > 2 {
      var c := PeelOne(b, w);
      FitsLess(|b[w]|, |c[w]|, w);
      PeelOk(weights, b, w);
      PeelHeld(b, w);
      PeelLens(b, w);
      PeelShare(Lens(b), w, HighBit(|b[w]|));
      PeelAllKeeps(weights, c, w);
    }
  }

  predicate SinglesBelow(b: Buckets, w: nat) {
    w < BUCKETS && forall v :: 0 < v <= w ==> AllSingle(b[v])
  }

  lemma SinglesStay(b: Buckets, c: Buckets, w: nat)
    requires 0 < w && SinglesBelow(b, w) && c[..w] == b[..w]
    ensures SinglesBelow(c, w - 1)
  {
    forall v | 0 < v <= w - 1 ensures AllSingle(c[v]) {
      assert c[..w][v] == b[..w][v];
    }
  }

  lemma {:induction false} OptimizeKeeps(weights: seq<nat>, b: Buckets, w: nat)
    requires AllFit(b, w) && BucketsOk(weights, b) && SinglesBelow(b, w)
    ensures Keeps(weights, b, Optimize(b, w))
    decreases w
  {
    hide BucketsOk, Held, Share, Lens, PeelAll, AllSingle, Fits;
    if w > 0 {
      var c := PeelAll(b, w);
      PeelAllKeeps(weights, b, w);
      BelowFit(b, c, w);
      SinglesStay(b, c, w);
      OptimizeKeeps(weights, c, w - 1);
    }
  }

  // ---------- how many leaves are left ----------

  function Total(c: seq<nat>, n: nat): nat
    requires n <= |c|
  {
    if n == 0 then 0 else Total(c, n - 1) + c[n - 1]
  }

  lemma {:induction false} TotalSame(c: seq<nat>, d: seq<nat>, n: nat)
    requires n <= |c| && n <= |d| && forall w :: 0 <= w < n ==> c[w] == d[w]
    ensures Total(c, n) == Total(d, n)
  {
    if n > 0 {
      TotalSame(c, d, n - 1);
    }
  }

  lemma {:induction false} TotalSet(c: seq<nat>, w: nat, v: nat, n: nat)
    requires w < n <= |c|
    ensures Total(c[w := v], n) + c[w] == Total(c, n) + v
  {
    if w == n - 1 {
      TotalSame(c[w := v], c, n - 1);
    } else {
      TotalSet(c, w, v, n - 1);
    }
  }

  lemma PeelTotal(c: seq<nat>, w: nat, k: nat)
    requires w < w + k < |c| && Pow2(k) <= c[w]
    ensures Total(PeeledLens(c, w, k), |c|) + Pow2(k) == Total(c, |c|) + 1
  {
    hide Total, Pow2;
    var d := c[w := c[w] - Pow2(k)];
    TotalSet(c, w, c[w] - Pow2(k), |c|);
    TotalSet(d, w + k, c[w + k] + 1, |c|);
  }

  /** Leaves that n leaves of one weight end up as. */
  function After(n: nat): nat {
    if n <= 2 then n else 1 + After(n - Pow2(HighBit(n)))
  }

  lemma {:induction false} AfterBound(n: nat)
    requires n > 0
    ensures After(n) <= HighBit(n) + 1
    decreases n
  {
    hide Pow2;
    if n > 2 {
      var m := n - Pow2(HighBit(n));
      if m > 0 {
        AfterBound(m);
        if HighBit(n) <= HighBit(m) {
          HighMono(HighBit(n), HighBit(m));
        }
      }
    } else {
      SmallHigh();
    }
  }

  lemma HighMono(a: nat, b: nat)
    requires a <= b
    ensures Pow2(a) <= Pow2(b)
  {
    if a < b {
      Pow2Mono(a, b);
    }
  }

  lemma SmallHigh()
    ensures HighBit(1) == 0 && HighBit(2) == 1
  {
    HighBitOf(0);
    HighBitOf(1);
  }

  lemma {:induction false} PeelAllTotal(b: Buckets, w: nat)
    requires w < BUCKETS && Fits(|b[w]|, w)
    ensures Total(Lens(PeelAll(b, w)), BUCKETS) + |b[w]| == Total(Lens(b), BUCKETS) + After(|b[w]|)
    decreases |b[w]|
  {
    hide Total, Lens, PeelOne, HighBit, Pow2;
    if |b[w]| > 2 {
      var c := PeelOne(b, w);
      FitsLess(|b[w]|, |c[w]|, w);
      PeelLens(b, w);
      PeelOneLen(b, w);
      PeelTotal(Lens(b), w, HighBit(|b[w]|));
      PeelAllTotal(c, w);
    }
  }

  lemma PeelOneLen(b: Buckets, w: nat)
    requires w < BUCKETS && |b[w]| > 2 && w + HighBit(|b[w]|) < BUCKETS
    ensures |PeelOne(b, w)[w]| == |b[w]| - Pow2(HighBit(|b[w]|))
  {
  }

  const LEAVES_EACH: nat := 9

  lemma AfterAtMost(n: nat)
    requires n <= 256
    ensures After(n) <= LEAVES_EACH
  {
    if n > 0 {
      AfterBound(n);
      BytePow();
      if HighBit(n) > 8 {
        Pow2Mono(8, HighBit(n));
      }
    }
  }

  lemma {:induction false} OptimizeTotal(b: Buckets, w: nat)
    requires AllFit(b, w) && forall v :: 0 < v <= w ==> |b[v]| <= 256
    ensures Total(Lens(Optimize(b, w)), BUCKETS) + Total(Lens(b), w + 1)
         <= Total(Lens(b), BUCKETS) + |b[0]| + LEAVES_EACH * w
    decreases w
  {
    hide PeelAll, Fits, After;
    if w > 0 {
      var c := PeelAll(b, w);
      PeelAllTotal(b, w);
      AfterAtMost(|b[w]|);
      BelowFit(b, c, w);
      forall v | 0 <= v < w ensures c[v] == b[v] {
        assert c[..w][v] == b[..w][v];
      }
      OptimizeTotal(c, w - 1);
      TotalSame(Lens(b), Lens(c), w);
    }
  }

  // ---------- the leaves of a complete code ----------

  function Counts(weights: seq<nat>, n: nat): (c: seq<nat>)
    requires n <= |weights|
    ensures |c| == BUCKETS && c[0] == 0 && forall w :: 1 <= w < BUCKETS ==> c[w] == CountOf(weights[..n], w)
  {
    seq(BUCKETS, w => if w <= 0 then 0 else CountOf(weights[..n], w))
  }

  lemma {:induction false} CountsShare(weights: seq<nat>, n: nat)
    requires n <= |weights| && forall i :: 0 <= i < |weights| ==> weights[i] <= MAX_TABLE_LOG
    ensures Share(Counts(weights, n), BUCKETS) == Kraft(weights[..n])
  {
    hide Times, Worth, Kraft, CountOf;
    if n == 0 {
      NoneShare(weights);
    } else {
      var w := weights[n - 1];
      var c, d := Counts(weights, n - 1), Counts(weights, n);
      CountsShare(weights, n - 1);
      KraftStep(weights, n - 1);
      forall v | 0 <= v < BUCKETS ensures v != w || w == 0 ==> d[v] == c[v] {
        CountStep(weights, n - 1, v);
      }
      if w == 0 {
        NoWorth();
        assert d == c;
      } else {
        CountStep(weights, n - 1, w);
        assert d == c[w := c[w] + 1];
        ShareSet(c, w, c[w] + 1, BUCKETS);
        TimesStep(c[w], c[w] + 1, Worth(w));
      }
    }
  }

  lemma NoWorth()
    ensures Worth(0) == 0
  {
  }

  lemma NoneShare(weights: seq<nat>)
    ensures Share(Counts(weights, 0), BUCKETS) == Kraft(weights[..0])
  {
    NoneCounted(weights[..0]);
    NothingShare(Counts(weights, 0), BUCKETS);
  }

  lemma {:induction false} NothingShare(c: seq<nat>, n: nat)
    requires n <= |c| && forall w :: 0 <= w < n ==> c[w] == 0
    ensures Share(c, n) == 0
  {
    if n > 0 {
      NothingShare(c, n - 1);
    }
  }

  lemma SeededLens(weights: seq<nat>)
    requires |weights| <= 256
    ensures Lens(Seeded(weights)) == Counts(weights, |weights|)
    ensures forall w :: 0 <= w < BUCKETS ==> |Seeded(weights)[w]| <= 256
  {
    var b := Seeded(weights);
    forall w | 0 <= w < BUCKETS ensures |b[w]| == Counts(weights, |weights|)[w] <= 256 {
      if w > 0 {
        SymbolsCounted(weights, w, |weights|);
      }
    }
  }

  lemma SeededOk(weights: seq<nat>)
    requires |weights| <= 256
    ensures BucketsOk(weights, Seeded(weights)) && SinglesBelow(Seeded(weights), BUCKETS - 1)
  {
    var b := Seeded(weights);
    HighBitOf(0);
    forall w | 1 <= w < BUCKETS ensures LeavesOk(weights, b[w], w) && AllSingle(b[w]) {
      SymbolsCounted(weights, w, |weights|);
    }
  }

  /** A complete code fills the code space and fits the buckets; at most one symbol has a
      weight above the length of the longest codeword. */
  lemma SeededComplete(weights: seq<nat>, log: nat)
    requires Complete(weights, log)
    ensures Share(Lens(Seeded(weights)), BUCKETS) == Pow2(log)
    ensures AllFit(Seeded(weights), log)
    ensures Total(Lens(Seeded(weights)), BUCKETS) <= Total(Lens(Seeded(weights)), log + 1) + 1
  {
    hide Share, Total, Fits, Kraft, CountOf;
    var b := Seeded(weights);
    SeededLens(weights);
    CountsShare(weights, |weights|);
    assert weights[..|weights|] == weights;
    forall v | 0 < v <= log ensures Fits(|b[v]|, v) {
      CompleteFits(Lens(b), v, log);
    }
    forall v | log + 1 <= v < BUCKETS ensures |b[v]| <= if v == log + 1 then 1 else 0 {
      FewAbove(Lens(b), v, log);
    }
    TotalAbove(Lens(b), log, BUCKETS);
  }

  lemma FewAbove(c: seq<nat>, w: nat, log: nat)
    requires |c| == BUCKETS && log < w < BUCKETS && log <= MAX_TABLE_LOG && Share(c, BUCKETS) == Pow2(log)
    ensures c[w] <= if w == log + 1 then 1 else 0
  {
    hide Share, Times, HighBit;
    if c[w] > 0 {
      CompleteFits(c, w, log);
    }
  }

  lemma {:induction false} TotalAbove(c: seq<nat>, log: nat, n: nat)
    requires log + 1 <= n <= |c| && forall v :: log + 1 <= v < n ==> c[v] <= if v == log + 1 then 1 else 0
    ensures Total(c, n) <= Total(c, log + 1) + if n > log + 1 then 1 else 0
  {
    if n > log + 1 {
      TotalAbove(c, log, n - 1);
    }
  }

  /** The leaves of the tree of these weights. */
  function Leaves(weights: seq<nat>, log: nat): (b: Buckets)
    requires Complete(weights, log)
  {
    SeededComplete(weights, log);
    Optimize(Seeded(weights), log)
  }

  const MAX_LEAVES: nat := 1 + LEAVES_EACH * MAX_TABLE_LOG

  /** Collapsing keeps every symbol, its codeword length and the code space, and leaves at
      most 109 leaves. */
  lemma LeavesKept(weights: seq<nat>, log: nat)
    requires Complete(weights, log)
    ensures BucketsOk(weights, Leaves(weights, log))
    ensures Held(Leaves(weights, log), BUCKETS) == Held(Seeded(weights), BUCKETS)
    ensures Share(Lens(Leaves(weights, log)), BUCKETS) == Pow2(log)
    ensures Total(Lens(Leaves(weights, log)), BUCKETS) <= MAX_LEAVES
  {
    hide Share, Total, Fits, Held, BucketsOk, Optimize, SinglesBelow, Complete;
    LogSmall(weights, log);
    var b := Seeded(weights);
    SeededComplete(weights, log);
    SeededOk(weights);
    SeededLens(weights);
    SinglesFewer(b, log);
    OptimizeKeeps(weights, b, log);
    OptimizeTotal(b, log);
  }

  lemma LogSmall(weights: seq<nat>, log: nat)
    requires Complete(weights, log)
    ensures log <= MAX_TABLE_LOG && 0 < |weights| <= 256
  {
  }

  lemma SinglesFewer(b: Buckets, w: nat)
    requires SinglesBelow(b, BUCKETS - 1) && w < BUCKETS
    ensures SinglesBelow(b, w)
  {
  }
}
