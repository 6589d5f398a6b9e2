/** The leaves of a PivCo tree in the order of their ranks, and what that makes of complete
    weights: a complete canonical code with the codeword lengths the weights ask for. */
module PivcoOrder {
  import opened Words
  import opened Arith
  import opened PivcoTree
  import opened PivcoWeights
  import opened PivcoLeaves
  import opened PivcoCode

  function Put(leaves: seq<Leaf>, level: nat): (ls: seq<Coded>)
    ensures |ls| == |leaves| && forall i :: 0 <= i < |ls| ==> ls[i] == Coded(leaves[i], level)
  {
    seq(|leaves|, i requires 0 <= i < |leaves| => Coded(leaves[i], level))
  }

  /** The first n levels, from the greatest weight down. */
  function Ordered(b: Buckets, log: nat, n: nat): seq<Coded>
    requires log <= MAX_TABLE_LOG && n <= log + 1
  {
    if n == 0 then [] else Ordered(b, log, n - 1) + Put(b[log + 2 - n], n - 1)
  }

  // ---------- sums from the top ----------

  // v[top] + v[top - 1] + ..., n terms.
  function Down(v: seq<nat>, top: nat, n: nat): nat
    requires top < |v| && n <= top + 1
  {
    if n == 0 then 0 else Down(v, top, n - 1) + v[top + 1 - n]
  }

  lemma {:induction false} DownTotal(v: seq<nat>, top: nat, n: nat)
    requires top < |v| && n <= top + 1
    ensures Total(v, top + 1) == Total(v, top + 1 - n) + Down(v, top, n)
  {
    if n > 0 {
      DownTotal(v, top, n - 1);
    }
  }

  lemma {:induction false} NothingAbove(v: seq<nat>, low: nat, n: nat)
    requires low <= n <= |v| && forall w :: low <= w < n ==> v[w] == 0
    ensures Total(v, n) == Total(v, low)
  {
    if low < n {
      NothingAbove(v, low, n - 1);
    }
  }

  /** All of it stands on the levels. */
  lemma DownAll(v: seq<nat>, log: nat)
    requires |v| == BUCKETS && log <= MAX_TABLE_LOG && v[0] == 0
    requires forall w :: log + 2 <= w < BUCKETS ==> v[w] == 0
    ensures Down(v, log + 1, log + 1) == Total(v, BUCKETS)
  {
    DownTotal(v, log + 1, log + 1);
    NothingAbove(v, log + 2, BUCKETS);
    assert Total(v, 1) == Total(v, 0) + v[0];
  }

  function Sizes(b: Buckets): (v: seq<nat>)
    ensures |v| == BUCKETS && forall w :: 0 <= w < BUCKETS ==> v[w] == |Concat(b[w])|
  {
    seq(BUCKETS, w requires 0 <= w < BUCKETS => |Concat(b[w])|)
  }

  function Shares(c: seq<nat>): (v: seq<nat>)
    ensures |v| == |c| && forall w :: 0 <= w < |c| ==> v[w] == Times(c[w], Worth(w))
  {
    seq(|c|, w requires 0 <= w < |c| => Times(c[w], Worth(w)))
  }

  lemma {:induction false} ShareIsTotal(c: seq<nat>, n: nat)
    requires n <= |c|
    ensures Share(c, n) == Total(Shares(c), n)
  {
    hide Times, Worth;
    if n > 0 {
      ShareIsTotal(c, n - 1);
    }
  }

  lemma {:induction false} HeldSize(b: Buckets, n: nat)
    requires n <= BUCKETS
    ensures |Held(b, n)| == Total(Sizes(b), n)
  {
    hide Concat;
    if n > 0 {
      HeldSize(b, n - 1);
    }
  }

  // ---------- positions and ranks of appended leaves ----------

  lemma {:induction false} PositionPrefix(a: seq<Coded>, b: seq<Coded>, n: nat)
    requires n <= |a| && LevelsOk(a + b)
    ensures LevelsOk(a) && Position(a + b, n) == Position(a, n)
  {
    assert forall i :: 0 <= i < |a| ==> (a + b)[i] == a[i];
    if n > 0 {
      PositionPrefix(a, b, n - 1);
    }
  }

  lemma {:induction false} PositionPut(a: seq<Coded>, leaves: seq<Leaf>, level: nat, k: nat)
    requires LevelsOk(a) && level <= MAX_TABLE_LOG && k <= |leaves|
    ensures LevelsOk(a + Put(leaves, level))
    ensures Position(a + Put(leaves, level), |a| + k) == Position(a, |a|) + Times(k, Unit(level))
  {
    hide Unit;
    if k == 0 {
      PositionPrefix(a, Put(leaves, level), |a|);
    } else {
      PositionPut(a, leaves, level, k - 1);
      PositionStep(a + Put(leaves, level), |a| + k - 1);
    }
  }

  lemma {:induction false} RankPrefix(a: seq<Coded>, b: seq<Coded>, n: nat)
    requires n <= |a|
    ensures Rank(a + b, n) == Rank(a, n) && SymbolRow(a + b, n) == SymbolRow(a, n)
  {
    if n > 0 {
      RankPrefix(a, b, n - 1);
    }
  }

  lemma {:induction false} RankPut(a: seq<Coded>, leaves: seq<Leaf>, level: nat, k: nat)
    requires k <= |leaves|
    ensures Rank(a + Put(leaves, level), |a| + k) == Rank(a, |a|) + |Concat(leaves[..k])|
    ensures SymbolRow(a + Put(leaves, level), |a| + k) == SymbolRow(a, |a|) + Concat(leaves[..k])
  {
    if k == 0 {
      RankPrefix(a, Put(leaves, level), |a|);
    } else {
      RankPut(a, leaves, level, k - 1);
      assert leaves[..k][..k - 1] == leaves[..k - 1];
      assert (a + Put(leaves, level))[|a| + k - 1].symbols == leaves[k - 1];
      AppendAssoc(SymbolRow(a, |a|), Concat(leaves[..k - 1]), leaves[k - 1]);
    }
  }

  // ---------- the levels of a code ----------

  lemma UnitScaled(level: nat, log: nat)
    requires level <= log <= MAX_TABLE_LOG
    ensures Times(Worth(log + 1 - level), Pow2(CODE_BITS - log)) == Unit(level)
  {
    BlockWorth(CODE_BITS + 1 - log, log - level);
  }

  lemma TimesTwice(q: nat, w: nat, p: nat)
    ensures Times(Times(q, w), p) == Times(q, Times(w, p))
  {
    TimesIsProduct(q, w);
    TimesIsProduct(q * w, p);
    TimesIsProduct(w, p);
    TimesIsProduct(q, w * p);
    TimesAssoc(q, w, p);
  }

  lemma TimesAssoc(q: nat, w: nat, p: nat)
    ensures (q * w) * p == q * (w * p)
  {
  }

  lemma OrderedStep(b: Buckets, log: nat, n: nat)
    requires log <= MAX_TABLE_LOG && n <= log + 1
    ensures Ordered(b, log, 0) == []
    ensures n > 0 ==> Ordered(b, log, n) == Ordered(b, log, n - 1) + Put(b[log + 2 - n], n - 1)
  {
  }

  /** What n levels hold, in leaves and symbols. */
  lemma {:induction false} OrderedSizes(b: Buckets, log: nat, n: nat)
    requires log <= MAX_TABLE_LOG && n <= log + 1
    ensures LevelsOk(Ordered(b, log, n))
    ensures |Ordered(b, log, n)| == Down(Lens(b), log + 1, n)
    ensures Rank(Ordered(b, log, n), |Ordered(b, log, n)|) == Down(Sizes(b), log + 1, n)
  {
    hide Position, Rank, Concat, Ordered, LevelsOk;
    OrderedStep(b, log, n);
    if n == 0 {
      NoLevels();
    } else {
      OrderedSizes(b, log, n - 1);
      PositionPut(Ordered(b, log, n - 1), b[log + 2 - n], n - 1, 0);
      RankPut(Ordered(b, log, n - 1), b[log + 2 - n], n - 1, |b[log + 2 - n]|);
      assert b[log + 2 - n][..|b[log + 2 - n]|] == b[log + 2 - n];
    }
  }

  // The part of the code space above weight log + 2 - n.
  function HighShare(b: Buckets, log: nat, n: nat): nat
    requires log <= MAX_TABLE_LOG && n <= log + 1
  {
    Down(Shares(Lens(b)), log + 1, n)
  }

  lemma HighShareStep(b: Buckets, log: nat, n: nat)
    requires log <= MAX_TABLE_LOG && n <= log + 1
    ensures HighShare(b, log, 0) == 0
    ensures n > 0 ==>
      HighShare(b, log, n) == HighShare(b, log, n - 1) + Times(|b[log + 2 - n]|, Worth(log + 2 - n))
  {
    hide Times, Worth;
  }

  /** And in code space. */
  lemma {:induction false} OrderedPosition(b: Buckets, log: nat, n: nat)
    requires log <= MAX_TABLE_LOG && n <= log + 1
    ensures LevelsOk(Ordered(b, log, n))
    ensures Position(Ordered(b, log, n), |Ordered(b, log, n)|) == Times(HighShare(b, log, n), Pow2(CODE_BITS - log))
  {
    hide Position, Times, Worth, Pow2, Unit, LevelsOk, Ordered, HighShare;
    HighShareStep(b, log, n);
    OrderedStep(b, log, n);
    if n == 0 {
      NoLevels();
      TimesNone(Pow2(CODE_BITS - log));
    } else {
      OrderedPosition(b, log, n - 1);
      LevelPosition(Ordered(b, log, n - 1), b[log + 2 - n], log, n - 1, HighShare(b, log, n - 1));
    }
  }

  lemma LevelPosition(a: seq<Coded>, leaves: seq<Leaf>, log: nat, level: nat, share: nat)
    requires LevelsOk(a) && level <= log <= MAX_TABLE_LOG
    requires Position(a, |a|) == Times(share, Pow2(CODE_BITS - log))
    ensures LevelsOk(a + Put(leaves, level))
    ensures Position(a + Put(leaves, level), |a + Put(leaves, level)|)
         == Times(share + Times(|leaves|, Worth(log + 1 - level)), Pow2(CODE_BITS - log))
  {
    hide Position, Times, Worth, Pow2, Unit, LevelsOk;
    PositionPut(a, leaves, level, |leaves|);
    UnitScaled(level, log);
    TimesTwice(|leaves|, Worth(log + 1 - level), Pow2(CODE_BITS - log));
    TimesAdd(share, Times(|leaves|, Worth(log + 1 - level)), Pow2(CODE_BITS - log));
  }

  lemma NoLevels()
    ensures LevelsOk([]) && Position([], 0) == 0 && Rank([], 0) == 0
  {
  }

  /** Every leaf stands at the level of its weight. */
  lemma {:induction false} OrderedAt(b: Buckets, log: nat, n: nat, i: nat)
    requires log <= MAX_TABLE_LOG && n <= log + 1 && i < |Ordered(b, log, n)|
    ensures Ordered(b, log, n)[i].level < n
    ensures Ordered(b, log, n)[i].symbols in b[log + 1 - Ordered(b, log, n)[i].level]
  {
    if n > 0 && i < |Ordered(b, log, n - 1)| {
      OrderedAt(b, log, n - 1, i);
    }
  }

  lemma {:induction false} OrderedAscends(b: Buckets, log: nat, n: nat)
    requires log <= MAX_TABLE_LOG && n <= log + 1
    ensures Ascending(Ordered(b, log, n))
  {
    if n > 0 {
      var a := Ordered(b, log, n - 1);
      OrderedAscends(b, log, n - 1);
      forall i | 0 <= i < |a| ensures a[i].level < n {
        OrderedAt(b, log, n - 1, i);
      }
    }
  }

  lemma LeafOfWeight(weights: seq<nat>, b: Buckets, w: nat, leaf: Leaf)
    requires BucketsOk(weights, b) && 1 <= w < BUCKETS && leaf in b[w]
    ensures LeafOk(weights, leaf, w)
  {
    hide LeafOk;
    assert LeavesOk(weights, b[w], w);
  }

  /** Every codeword has the length its weight asks for. */
  lemma CodeLengths(weights: seq<nat>, b: Buckets, log: nat, i: nat)
    requires BucketsOk(weights, b) && log <= MAX_TABLE_LOG && i < |Ordered(b, log, log + 1)|
    ensures var l := Ordered(b, log, log + 1)[i];
      && LeafFits(l)
      && forall x :: 0 <= x < |l.symbols| ==>
           l.symbols[x] < |weights| && l.level + HighBit(|l.symbols|) + weights[l.symbols[x]] == log + 1
  {
    hide BucketsOk, Ordered;
    OrderedAt(b, log, log + 1, i);
    var l := Ordered(b, log, log + 1)[i];
    LeafOfWeight(weights, b, log + 1 - l.level, l.symbols);
  }

  // ---------- the symbols ----------

  lemma {:induction false} OrderedSymbols(b: Buckets, log: nat, n: nat)
    requires log <= MAX_TABLE_LOG && n <= log + 1
    ensures multiset(SymbolRow(Ordered(b, log, n), |Ordered(b, log, n)|)) + Held(b, log + 2 - n) == Held(b, log + 2)
  {
    hide Concat, SymbolRow, Ordered, Held;
    OrderedStep(b, log, n);
    if n == 0 {
      NoSymbols();
    } else {
      HeldStep(b, log + 3 - n);
      var a, w := Ordered(b, log, n - 1), log + 2 - n;
      OrderedSymbols(b, log, n - 1);
      RankPut(a, b[w], n - 1, |b[w]|);
      assert b[w][..|b[w]|] == b[w];
    }
  }

  lemma NoSymbols()
    ensures SymbolRow([], 0) == []
  {
  }

  lemma {:induction false} HeldNothing(b: Buckets, low: nat, n: nat)
    requires low <= n <= BUCKETS && forall w :: low <= w < n ==> |b[w]| == 0
    ensures Held(b, n) == Held(b, low)
  {
    if low < n {
      HeldNothing(b, low, n - 1);
    }
  }

  /** Whether a symbol occurs. */
  predicate Present(weights: seq<nat>, x: Small) {
    x < |weights| && weights[x] > 0
  }

  lemma {:induction false} SymbolOnce(weights: seq<nat>, w: nat, n: nat, x: Small)
    requires n <= |weights| <= 256
    ensures multiset(SymbolsOf(weights, w, n))[x] == if x < n && weights[x] == w then 1 else 0
  {
    hide SymbolsOf;
    SymbolsStep(weights, w, n);
    if n > 0 {
      SymbolOnce(weights, w, n - 1, x);
      OneMore(SymbolsOf(weights, w, n - 1), n - 1);
    }
  }

  lemma OneMore(front: seq<Small>, y: Small)
    ensures multiset(front + [y]) == multiset(front) + multiset{y}
    ensures front + [] == front
  {
  }

  lemma SymbolsStep(weights: seq<nat>, w: nat, n: nat)
    requires n <= |weights| <= 256
    ensures SymbolsOf(weights, w, 0) == []
    ensures n > 0 ==>
      SymbolsOf(weights, w, n) == SymbolsOf(weights, w, n - 1) + if weights[n - 1] == w then [n - 1] else []
  {
  }

  lemma ConcatOfSingles(symbols: seq<Small>)
    ensures Concat(Singles(symbols)) == symbols
  {
    ConcatSingles(Singles(symbols));
  }

  lemma {:induction false} SeededHeld(weights: seq<nat>, n: nat, x: Small)
    requires |weights| <= 256 && 1 <= n <= BUCKETS
    ensures Held(Seeded(weights), n)[x] == if x < |weights| && 0 < weights[x] < n then 1 else 0
  {
    hide Held, Concat, SymbolsOf;
    var b := Seeded(weights);
    HeldStep(b, n);
    if n == 1 {
      HeldNone(b);
    } else {
      SeededHeld(weights, n - 1, x);
      ConcatOfSingles(SymbolsOf(weights, n - 1, |weights|));
      SymbolOnce(weights, n - 1, |weights|, x);
    }
  }

  lemma HeldNone(b: Buckets)
    requires b[0] == []
    ensures Held(b, 0) == multiset{} && Concat(b[0]) == []
  {
  }

  lemma {:induction false} CountsTotal(weights: seq<nat>, n: nat)
    requires n <= |weights|
    ensures Total(Counts(weights, n), BUCKETS) <= n
  {
    hide CountOf;
    if n == 0 {
      NoneCounted(weights[..0]);
      NothingAbove(Counts(weights, 0), 0, BUCKETS);
    } else {
      var w := weights[n - 1];
      var c, d := Counts(weights, n - 1), Counts(weights, n);
      CountsTotal(weights, n - 1);
      forall v | 0 <= v < BUCKETS ensures v != w || w == 0 ==> d[v] == c[v] {
        CountStep(weights, n - 1, v);
      }
      if w == 0 || w >= BUCKETS {
        assert d == c;
      } else {
        CountStep(weights, n - 1, w);
        assert d == c[w := c[w] + 1];
        TotalSet(c, w, c[w] + 1, BUCKETS);
      }
    }
  }

  lemma SeededSize(weights: seq<nat>)
    requires |weights| <= 256
    ensures |Held(Seeded(weights), BUCKETS)| <= 256
  {
    hide Held, Concat, Total;
    var b := Seeded(weights);
    HeldSize(b, BUCKETS);
    SeededLens(weights);
    forall w | 0 <= w < BUCKETS ensures Sizes(b)[w] == Lens(b)[w] {
      if w > 0 {
        ConcatOfSingles(SymbolsOf(weights, w, |weights|));
      } else {
        HeldNone(b);
      }
    }
    TotalSame(Sizes(b), Lens(b), BUCKETS);
    CountsTotal(weights, |weights|);
  }

  // ---------- the code ----------

  function CodeOf(weights: seq<nat>, log: nat): seq<Coded>
    requires Complete(weights, log)
  {
    Ordered(Leaves(weights, log), log, log + 1)
  }

  lemma EmptyAbove(b: Buckets, log: nat)
    requires log <= MAX_TABLE_LOG && Share(Lens(b), BUCKETS) == Pow2(log)
    ensures forall w :: log + 2 <= w < BUCKETS ==> b[w] == []
  {
    hide Share;
    forall w | log + 2 <= w < BUCKETS ensures b[w] == [] {
      FewAbove(Lens(b), w, log);
    }
  }

  lemma WeightsSmall(weights: seq<nat>, log: nat)
    requires Complete(weights, log)
    ensures log <= MAX_TABLE_LOG && 0 < |weights| <= 256
    ensures forall i :: 0 <= i < |weights| ==> weights[i] <= MAX_TABLE_LOG
  {
  }

  /** Complete weights have a complete canonical code of at most 109 leaves, in which
      every symbol that occurs has one rank. */
  lemma CodeIsCanonical(weights: seq<nat>, log: nat)
    requires Complete(weights, log)
    ensures Canonical(CodeOf(weights, log))
    ensures |CodeOf(weights, log)| <= MAX_LEAVES
    ensures forall x :: multiset(SymbolRow(CodeOf(weights, log), |CodeOf(weights, log)|))[x]
                     == if Present(weights, x) then 1 else 0
  {
    hide Complete, Share, Total, Held, BucketsOk, Leaves, Ordered, Position, Rank, SymbolRow, Canonical, Present;
    WeightsSmall(weights, log);
    var b := Leaves(weights, log);
    LeavesKept(weights, log);
    EmptyAbove(b, log);
    SeededSize(weights);
    BucketZero(weights, b);
    OrderedFills(b, log);
    OrderedAscends(b, log, log + 1);
    AllFits(weights, b, log);
    SymbolsHeld(weights, b, log);
    SomeLeaf(Ordered(b, log, log + 1));
    CanonicalIs(Ordered(b, log, log + 1));
  }

  lemma CanonicalIs(ls: seq<Coded>)
    requires LevelsOk(ls) && |ls| > 0 && Ascending(ls) && LeavesFit(ls)
    requires Position(ls, |ls|) == Pow2(CODE_BITS) && Rank(ls, |ls|) <= MAX_RANKS
    ensures Canonical(ls)
  {
    hide Position, Rank, LeafFits;
  }

  lemma OrderedFills(b: Buckets, log: nat)
    requires log <= MAX_TABLE_LOG && b[0] == [] && forall w :: log + 2 <= w < BUCKETS ==> b[w] == []
    requires Share(Lens(b), BUCKETS) == Pow2(log)
    ensures var ls := Ordered(b, log, log + 1);
      && LevelsOk(ls) && |ls| == Total(Lens(b), BUCKETS) && Rank(ls, |ls|) == |Held(b, BUCKETS)|
      && Position(ls, |ls|) == Pow2(CODE_BITS)
  {
    hide Share, Total, Held, Ordered, Position, Rank, Down, Concat, LevelsOk, Times, Pow2, Worth;
    HeldSize(b, BUCKETS);
    OrderedSizes(b, log, log + 1);
    OrderedPosition(b, log, log + 1);
    NoConcat();
    DownAll(Lens(b), log);
    DownAll(Sizes(b), log);
    SharesEnd(Lens(b), log);
    DownAll(Shares(Lens(b)), log);
    ShareIsTotal(Lens(b), BUCKETS);
    WholeSpace(log);
  }

  lemma BucketZero(weights: seq<nat>, b: Buckets)
    requires BucketsOk(weights, b)
    ensures b[0] == []
  {
  }

  lemma NoConcat()
    ensures Concat([]) == []
  {
  }

  lemma SharesEnd(c: seq<nat>, log: nat)
    requires |c| == BUCKETS && forall w :: log + 2 <= w < BUCKETS ==> c[w] == 0
    ensures Shares(c)[0] == 0 && forall w :: log + 2 <= w < BUCKETS ==> Shares(c)[w] == 0
  {
    TimesIsProduct(c[0], Worth(0));
  }

  lemma WholeSpace(log: nat)
    requires log <= CODE_BITS
    ensures Times(Pow2(log), Pow2(CODE_BITS - log)) == Pow2(CODE_BITS)
  {
    BlockWorth(CODE_BITS + 1 - log, log);
  }

  lemma SomeLeaf(ls: seq<Coded>)
    requires LevelsOk(ls) && Position(ls, |ls|) == Pow2(CODE_BITS)
    ensures |ls| > 0
  {
  }

  lemma AllFits(weights: seq<nat>, b: Buckets, log: nat)
    requires BucketsOk(weights, b) && log <= MAX_TABLE_LOG
    ensures LeavesFit(Ordered(b, log, log + 1))
  {
    hide LeafFits, Ordered, BucketsOk;
    var ls := Ordered(b, log, log + 1);
    forall i | 0 <= i < |ls| ensures LeafFits(ls[i]) {
      CodeLengths(weights, b, log, i);
    }
  }

  lemma SymbolsHeld(weights: seq<nat>, b: Buckets, log: nat)
    requires |weights| <= 256 && log <= MAX_TABLE_LOG && forall i :: 0 <= i < |weights| ==> weights[i] <= MAX_TABLE_LOG
    requires b[0] == [] && Held(b, BUCKETS) == Held(Seeded(weights), BUCKETS)
    requires forall w :: log + 2 <= w < BUCKETS ==> b[w] == []
    ensures forall x :: multiset(SymbolRow(Ordered(b, log, log + 1), |Ordered(b, log, log + 1)|))[x]
                     == if Present(weights, x) then 1 else 0
  {
    hide Held, Ordered, SymbolRow, Concat;
    HeldNothing(b, log + 2, BUCKETS);
    OrderedSymbols(b, log, log + 1);
    HeldNone(b);
    HeldStep(b, 1);
    forall x: Small ensures Held(b, BUCKETS)[x] == if Present(weights, x) then 1 else 0 {
      SeededHeld(weights, BUCKETS, x);
    }
  }
}
