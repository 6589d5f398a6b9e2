/** The arrays by rank of a PivCo tree, filled leaf by leaf with a running codeword
    (assignRanksAndCodewords of openzl/codecs/pivco_huffman/common_pivco_kernel.c). */
module PivcoRanks {
  import opened Words
  import opened Arith
  import opened PivcoTree
  import opened PivcoWeights
  import opened PivcoLeaves
  import opened PivcoCode
  import opened PivcoOrder
  import opened PivcoBuilder

  // ---------- the arrays, filled leaf by leaf ----------

  /** The arrays of the tree as values. */
  datatype Rows = Rows(symbols: seq<Small>, depths: seq<Small>, codewords: seq<nat>)

  const BLANK := Rows(Zeros(MAX_RANKS), Zeros(MAX_RANKS), Zeros(MAX_RANKS))

  /** The first n leaves are in. */
  ghost predicate RowsTo(ls: seq<Coded>, rows: Rows, n: nat)
    requires n <= |ls| && LevelsOk(ls) && LeavesFit(ls)
  {
    && Rank(ls, n) <= MAX_RANKS
    && rows.symbols == SymbolRow(ls, n) + Zeros(MAX_RANKS - Rank(ls, n))
    && rows.depths == Depths(ls, n) + Zeros(MAX_RANKS - Rank(ls, n))
    && rows.codewords == Codewords(ls, n) + Zeros(MAX_RANKS - Rank(ls, n))
  }

  lemma RowsStart(ls: seq<Coded>)
    requires LevelsOk(ls) && LeavesFit(ls)
    ensures RowsTo(ls, BLANK, 0)
  {
  }

  // s with v from index at on.
  ghost predicate Written<T>(s: seq<T>, t: seq<T>, at: nat, v: seq<T>) {
    && |s| == |t| && at + |v| <= |s|
    && (forall i :: 0 <= i < |s| && !(at <= i < at + |v|) ==> t[i] == s[i])
    && t[at..at + |v|] == v
  }

  lemma WrittenBehind<T>(front: seq<T>, zeros: seq<T>, t: seq<T>, v: seq<T>)
    requires |v| <= |zeros| && Written(front + zeros, t, |front|, v)
    ensures t == (front + v) + zeros[|v|..]
  {
    forall i | 0 <= i < |t| ensures t[i] == ((front + v) + zeros[|v|..])[i] {
      if |front| <= i < |front| + |v| {
        assert t[i] == t[|front|..|front| + |v|][i - |front|];
      }
    }
  }

  lemma ZerosLess(n: nat, k: nat)
    requires k <= n
    ensures Zeros(n)[k..] == Zeros(n - k)
  {
  }

  function DepthBlock(l: Coded): (d: seq<Small>)
    requires LeafFits(l)
    ensures |d| == |l.symbols| && forall x :: 0 <= x < |d| ==> d[x] == HighBit(|l.symbols|)
  {
    seq(|l.symbols|, x => DepthOfLeaf(l))
  }

  function CodeBlock(l: Coded, p: nat): (d: seq<nat>)
    requires LeafFits(l)
    ensures |d| == |l.symbols| && forall x :: 0 <= x < |d| ==> d[x] == Codeword(l, p, x)
  {
    seq(|l.symbols|, x requires 0 <= x < |l.symbols| => Codeword(l, p, x))
  }

  lemma RowsNext(ls: seq<Coded>, rows: Rows, n: nat, after: Rows)
    requires n < |ls| && LevelsOk(ls) && LeavesFit(ls) && RowsTo(ls, rows, n) && Rank(ls, n + 1) <= MAX_RANKS
    requires Written(rows.symbols, after.symbols, Rank(ls, n), ls[n].symbols)
    requires Written(rows.depths, after.depths, Rank(ls, n), DepthBlock(ls[n]))
    requires Written(rows.codewords, after.codewords, Rank(ls, n), CodeBlock(ls[n], Position(ls, n)))
    ensures RowsTo(ls, after, n + 1)
  {
    hide Written, LeafFits, Position;
    var left := MAX_RANKS - Rank(ls, n);
    RankStep(ls, n);
    ZerosLess(left, |ls[n].symbols|);
    WrittenBehind(SymbolRow(ls, n), Zeros(left), after.symbols, ls[n].symbols);
    WrittenBehind(Depths(ls, n), Zeros(left), after.depths, DepthBlock(ls[n]));
    WrittenBehind<nat>(Codewords(ls, n), Zeros(left), after.codewords, CodeBlock(ls[n], Position(ls, n)));
  }

  // ---------- codewords ----------

  // The shifts that put a codeword at the top of 16 bits.
  function Justified(codeword: nat, level: nat, flatBits: nat, flatIdx: nat): nat
    requires level + flatBits <= CODE_BITS
  {
    if level + flatBits == 0 then 0
    else (codeword * Pow2(flatBits) + flatIdx) * Pow2(CODE_BITS - level - flatBits) % 0x1_0000
  }

  lemma Distribute(c: nat, p: nat, x: nat, u: nat)
    ensures (c * p + x) * u == c * (p * u) + x * u
  {
  }

  /** The justified codeword is where the symbol stands in the code space. */
  lemma JustifiedIs(ls: seq<Coded>, n: nat, codeword: nat, x: nat)
    requires Canonical(ls) && n < |ls| && x < |ls[n].symbols|
    requires Times(codeword, Unit(ls[n].level)) == Position(ls, n)
    ensures LeafFits(ls[n]) && ls[n].level + HighBit(|ls[n].symbols|) <= CODE_BITS
    ensures Justified(codeword, ls[n].level, HighBit(|ls[n].symbols|), x) == Codeword(ls[n], Position(ls, n), x)
  {
    hide Position, Times, HighBit, Pow2, Rank, Codeword;
    var l, k := ls[n], HighBit(|ls[n].symbols|);
    assert LeafFits(l);
    CodewordInside(l, Position(ls, n), x);
    PositionStep(ls, n);
    PositionAscends(ls, n + 1, |ls|);
    CodeSpace();
    if l.level + k == 0 {
      OnlySymbol(l, x);
      CodewordInside(l, Position(ls, n), 0);
      NothingBefore(Position(ls, n));
    } else {
      CodewordIs(l, Position(ls, n), x);
      var u := Unit(l.level + k);
      Distribute(codeword, Pow2(k), x, u);
      SplitUnit(l.level, k);
      TimesIsProduct(Pow2(k), u);
      TimesIsProduct(codeword, Unit(l.level));
      TimesIsProduct(x, u);
      DivModUnique(0, 0x1_0000, Codeword(l, Position(ls, n), x));
    }
  }

  lemma CodewordIs(l: Coded, p: nat, x: nat)
    requires LeafFits(l)
    ensures Codeword(l, p, x) == p + Times(x, Unit(l.level + HighBit(|l.symbols|)))
  {
  }

  lemma CodeSpace()
    ensures Pow2(CODE_BITS) == 0x1_0000 == Unit(0)
  {
    BytePow();
    assert Pow2(12) == 4096;
  }

  lemma OnlySymbol(l: Coded, x: nat)
    requires LeafFits(l) && HighBit(|l.symbols|) == 0 && x < |l.symbols|
    ensures x == 0
  {
  }

  lemma NothingBefore(p: nat)
    requires p + Unit(0) <= 0x1_0000
    ensures p == 0
  {
    CodeSpace();
  }

  lemma NextCodeword(codeword: nat, level: nat)
    requires level < CODE_BITS
    ensures Times(codeword + 1, Unit(level)) == Times(codeword, Unit(level)) + Unit(level)
    ensures Times(2 * codeword, Unit(level + 1)) == Times(codeword, Unit(level))
  {
    hide Unit;
    TimesStep(codeword, codeword + 1, Unit(level));
    HalfUnit(level);
    TimesIsProduct(codeword, Unit(level));
    TimesIsProduct(2 * codeword, Unit(level + 1));
  }

  // ---------- where the loops stand ----------

  // Leaf idx of the level.
  function LeafNumber(b: Buckets, log: nat, level: nat, idx: nat): nat
    requires log <= MAX_TABLE_LOG && level <= log + 1
  {
    |Ordered(b, log, level)| + idx
  }

  lemma {:induction false} OrderedPrefix(b: Buckets, log: nat, m: nat, n: nat)
    requires log <= MAX_TABLE_LOG && m <= n <= log + 1
    ensures |Ordered(b, log, m)| <= |Ordered(b, log, n)|
    ensures Ordered(b, log, n)[..|Ordered(b, log, m)|] == Ordered(b, log, m)
  {
    if m < n {
      OrderedPrefix(b, log, m, n - 1);
    }
  }

  lemma LeafOfLevel(b: Buckets, log: nat, level: nat, idx: nat)
    requires log <= MAX_TABLE_LOG && level <= log && idx < |b[log + 1 - level]|
    ensures LeafNumber(b, log, level, idx) < |Ordered(b, log, log + 1)|
    ensures Ordered(b, log, log + 1)[LeafNumber(b, log, level, idx)] == Coded(b[log + 1 - level][idx], level)
  {
    OrderedPrefix(b, log, level + 1, log + 1);
    OrderedStep(b, log, level + 1);
    var a, c := Ordered(b, log, level + 1), Ordered(b, log, log + 1);
    assert c[..|a|][LeafNumber(b, log, level, idx)] == a[LeafNumber(b, log, level, idx)];
  }

  lemma LevelDone(b: Buckets, log: nat, level: nat)
    requires log <= MAX_TABLE_LOG && level <= log
    ensures LeafNumber(b, log, level, |b[log + 1 - level]|) == LeafNumber(b, log, level + 1, 0)
  {
    OrderedStep(b, log, level + 1);
  }

  /** Behind the deepest level that has leaves nothing is left. */
  lemma {:induction false} NoneDeeper(b: Buckets, log: nat, levels: nat)
    requires log <= MAX_TABLE_LOG && levels <= log + 1
    requires forall w :: 1 <= w < log + 2 - levels ==> b[w] == []
    ensures Ordered(b, log, levels) == Ordered(b, log, log + 1)
    decreases log + 1 - levels
  {
    if levels < log + 1 {
      OrderedStep(b, log, levels + 1);
      assert Ordered(b, log, levels) + Put([], levels) == Ordered(b, log, levels);
      NoneDeeper(b, log, levels + 1);
    }
  }

  // ---------- assignRanksAndCodewords ----------

  // The leaves before leaf n are in, and codeword is the next one of the level.
  ghost predicate Assigned(ls: seq<Coded>, rows: Rows, n: nat, level: nat, codeword: nat, rank: nat)
    requires n <= |ls| && LevelsOk(ls) && LeavesFit(ls) && level <= CODE_BITS
  {
    RowsTo(ls, rows, n) && rank == Rank(ls, n) && Times(codeword, Unit(level)) == Position(ls, n)
  }

  lemma AssignStarts(ls: seq<Coded>)
    requires LevelsOk(ls) && LeavesFit(ls)
    ensures Assigned(ls, BLANK, 0, 0, 0, 0)
  {
    RowsStart(ls);
  }

  lemma AssignNext(ls: seq<Coded>, rows: Rows, n: nat, codeword: nat, rank: nat, after: Rows)
    requires Canonical(ls) && n < |ls| && LeavesFit(ls) && Assigned(ls, rows, n, ls[n].level, codeword, rank)
    requires Written(rows.symbols, after.symbols, rank, ls[n].symbols)
    requires Written(rows.depths, after.depths, rank, DepthBlock(ls[n]))
    requires Written(rows.codewords, after.codewords, rank, CodeBlock(ls[n], Position(ls, n)))
    ensures Assigned(ls, after, n + 1, ls[n].level, codeword + 1, rank + |ls[n].symbols|)
  {
    hide RowsTo, Written, LeafFits, Position, Rank, Times, Unit;
    RankWithin(ls, n + 1);
    RankStep(ls, n);
    RowsNext(ls, rows, n, after);
    PositionStep(ls, n);
    NextCodeword(codeword, ls[n].level);
  }

  lemma RankWithin(ls: seq<Coded>, n: nat)
    requires Canonical(ls) && n <= |ls|
    ensures Rank(ls, n) + (|ls| - n) <= Rank(ls, |ls|) <= MAX_RANKS
  {
    hide Rank, Position;
    RankAscends(ls, n, |ls|);
  }

  lemma AssignDown(ls: seq<Coded>, rows: Rows, n: nat, level: nat, codeword: nat, rank: nat)
    requires n <= |ls| && LevelsOk(ls) && LeavesFit(ls) && level < CODE_BITS
    requires Assigned(ls, rows, n, level, codeword, rank)
    ensures Assigned(ls, rows, n, level + 1, 2 * codeword, rank)
  {
    hide RowsTo, LeafFits, Position, Rank, Times, Unit;
    NextCodeword(codeword, level);
  }

  lemma AssignEnds(ls: seq<Coded>, rows: Rows, level: nat, codeword: nat, rank: nat)
    requires Canonical(ls) && LeavesFit(ls) && level <= CODE_BITS
    requires Assigned(ls, rows, |ls|, level, codeword, rank)
    ensures Rank(ls, |ls|) <= MAX_RANKS
    ensures TreeCode(ls) == CodeTree(rows.symbols, rows.depths, rows.codewords, rank)
  {
    hide LeafFits, Position;
  }

  // The leaves of a finished builder, by level.
  ghost predicate Ready(s: Store, b: Buckets, log: nat) {
    StoreOk(s) && BucketsOf(s) == b && log <= MAX_TABLE_LOG
  }

  /** The slot of a leaf holds its symbols. */
  lemma SlotOfLeaf(s: Store, b: Buckets, log: nat, level: nat, idx: nat)
    requires Ready(s, b, log) && level <= log && idx < s.counts[log + 1 - level]
    ensures s.counts[log + 1 - level] == |b[log + 1 - level]|
    ensures s.offsets[log + 1 - level] + idx < |s.slots|
    ensures SlotOk(s.slots[s.offsets[log + 1 - level] + idx], |s.storage|)
    ensures LeafIn(s.storage, s.slots[s.offsets[log + 1 - level] + idx]) == b[log + 1 - level][idx]
  {
    var w := log + 1 - level;
    assert BucketIn(s, w);
    assert b[w] == BucketOf(s, w);
  }

  class HuffmanTree {
    const rankToSymbol: array<Small>
    const rankToFlatDepth: array<Small>
    const rankToCodeword: array<nat>
    var numLevels: nat
    var numRanks: nat

    constructor ()
      ensures Shaped() && fresh(rankToSymbol) && fresh(rankToFlatDepth) && fresh(rankToCodeword)
      ensures Contents() == BLANK
    {
      rankToSymbol := new Small[MAX_RANKS](_ => 0);
      rankToFlatDepth := new Small[MAX_RANKS](_ => 0);
      rankToCodeword := new nat[MAX_RANKS](_ => 0);
      numLevels, numRanks := 0, 0;
    }

    ghost predicate Shaped()
      reads this
    {
      && rankToSymbol.Length == rankToFlatDepth.Length == rankToCodeword.Length == MAX_RANKS
      && rankToSymbol != rankToFlatDepth
    }

    ghost function Contents(): (rows: Rows)
      requires Shaped()
      reads this, rankToSymbol, rankToFlatDepth, rankToCodeword
      ensures |rows.symbols| == |rows.depths| == |rows.codewords| == MAX_RANKS
    {
      Rows(rankToSymbol[..], rankToFlatDepth[..], rankToCodeword[..])
    }

    // The builder's arrays are none of the tree's.
    ghost predicate Apart(builder: Builder)
      reads this, builder
    {
      && builder.storage != rankToSymbol && builder.storage != rankToFlatDepth
      && builder.counts != rankToCodeword && builder.offsets != rankToCodeword
    }

    /** One leaf: a rank, a flat depth and a codeword for each of its symbols. */
    method PutLeaf(builder: Builder, slot: Slot, level: nat, codeword: nat, rank: nat, ghost l: Coded, ghost p: nat)
      requires Shaped() && Apart(builder) && builder.Shaped() && SlotOk(slot, builder.next)
      requires LeafFits(l) && l == Coded(LeafIn(builder.State().storage, slot), level)
      requires rank + slot.count <= MAX_RANKS
      requires forall x :: 0 <= x < slot.count ==>
        Justified(codeword, level, HighBit(slot.count), x) == Codeword(l, p, x)
      modifies rankToSymbol, rankToFlatDepth, rankToCodeword
      ensures Written(old(Contents()).symbols, Contents().symbols, rank, l.symbols)
      ensures Written(old(Contents()).depths, Contents().depths, rank, DepthBlock(l))
      ensures Written(old(Contents()).codewords, Contents().codewords, rank, CodeBlock(l, p))
      ensures builder.State() == old(builder.State())
    {
      hide Justified, Codeword, HighBit, Written, DepthBlock, CodeBlock, Pow2;
      var flatBits := HighBit(slot.count);
      ghost var start := Contents();
      WrittenNone(start.symbols, rank, l.symbols);
      WrittenNone(start.depths, rank, DepthBlock(l));
      WrittenNone<nat>(start.codewords, rank, CodeBlock(l, p));
      for flatIdx := 0 to slot.count
        invariant builder.State() == old(builder.State())
        invariant Written(start.symbols, Contents().symbols, rank, l.symbols[..flatIdx])
        invariant Written(start.depths, Contents().depths, rank, DepthBlock(l)[..flatIdx])
        invariant Written(start.codewords, Contents().codewords, rank, CodeBlock(l, p)[..flatIdx])
      {
        ghost var rows := Contents();
        var symbol := builder.storage[slot.offset + flatIdx];
        assert symbol == builder.State().storage[slot.offset + flatIdx] == l.symbols[flatIdx];
        rankToSymbol[rank + flatIdx] := symbol;
        rankToFlatDepth[rank + flatIdx] := flatBits;
        rankToCodeword[rank + flatIdx] := Justified(codeword, level, flatBits, flatIdx);
        WrittenMore(start.symbols, rows.symbols, Contents().symbols, rank, l.symbols, flatIdx);
        WrittenMore(start.depths, rows.depths, Contents().depths, rank, DepthBlock(l), flatIdx);
        WrittenMore<nat>(start.codewords, rows.codewords, Contents().codewords, rank, CodeBlock(l, p), flatIdx);
      }
      assert l.symbols[..slot.count] == l.symbols;
      assert DepthBlock(l)[..slot.count] == DepthBlock(l);
      assert CodeBlock(l, p)[..slot.count] == CodeBlock(l, p);
    }

    /** The leaves of one level. */
    method AssignLevel(builder: Builder, log: nat, level: nat, first: nat, from: nat, ghost b: Buckets)
      returns (codeword: nat, rank: nat)
      requires Shaped() && Apart(builder) && builder.Shaped() && Ready(builder.State(), b, log)
      requires level <= log <= MAX_TABLE_LOG
      requires var ls := Ordered(b, log, log + 1);
        Canonical(ls) && LevelsOk(ls) && LeavesFit(ls) && LeafNumber(b, log, level, 0) <= |ls|
        && Assigned(ls, Contents(), LeafNumber(b, log, level, 0), level, first, from)
      modifies rankToSymbol, rankToFlatDepth, rankToCodeword
      ensures builder.State() == old(builder.State())
      ensures var ls := Ordered(b, log, log + 1);
        && LevelsOk(ls) && LeavesFit(ls) && LeafNumber(b, log, level + 1, 0) <= |ls|
        && Assigned(ls, Contents(), LeafNumber(b, log, level + 1, 0), level, codeword, rank)
    {
      hide Ready, Ordered, Assigned, Canonical, LevelsOk, LeavesFit, Justified, Codeword, LeafFits;
      ghost var ls := Ordered(b, log, log + 1);
      var weight := log + 1 - level;
      codeword, rank := first, from;
      var idx := 0;
      CountOfLevel(builder.State(), b, log, level);
      while idx < builder.counts[weight]
        invariant idx <= builder.counts[weight] == |b[weight]| && builder.State() == old(builder.State())
        invariant LevelsOk(ls) && LeavesFit(ls) && LeafNumber(b, log, level, idx) <= |ls|
        invariant Assigned(ls, Contents(), LeafNumber(b, log, level, idx), level, codeword, rank)
      {
        ghost var n, rows := LeafNumber(b, log, level, idx), Contents();
        SlotOfLeaf(builder.State(), b, log, level, idx);
        LeafOfLevel(b, log, level, idx);
        var leaf := builder.slots[builder.offsets[weight] + idx];
        LeafJustified(ls, rows, n, level, codeword, rank);
        PutLeaf(builder, leaf, level, codeword, rank, ls[n], Position(ls, n));
        AssignNext(ls, rows, n, codeword, rank, Contents());
        rank, codeword, idx := rank + leaf.count, codeword + 1, idx + 1;
      }
      LevelDone(b, log, level);
    }

    /** assignRanksAndCodewords, down to the deepest level that has leaves. */
    method AssignRanks(builder: Builder, log: nat, ghost b: Buckets)
      requires Shaped() && Apart(builder) && builder.Shaped() && Ready(builder.State(), b, log) && log <= MAX_TABLE_LOG
      requires var ls := Ordered(b, log, log + 1); Canonical(ls) && LevelsOk(ls) && LeavesFit(ls)
      requires 0 < numLevels <= log + 1 && Ordered(b, log, numLevels) == Ordered(b, log, log + 1)
      requires Contents() == BLANK
      modifies this`numRanks, rankToSymbol, rankToFlatDepth, rankToCodeword
      ensures Shaped() && Rank(Ordered(b, log, log + 1), |Ordered(b, log, log + 1)|) <= MAX_RANKS
      ensures TreeCode(Ordered(b, log, log + 1))
           == CodeTree(Contents().symbols, Contents().depths, Contents().codewords, numRanks)
    {
      hide Ready, Ordered, Assigned, Canonical, LevelsOk, LeavesFit, TreeCode;
      ghost var ls := Ordered(b, log, log + 1);
      var codeword, rank, level := 0, 0, 0;
      AssignStarts(ls);
      FirstLeaf(b, log);
      while level < numLevels
        invariant level <= numLevels && builder.State() == old(builder.State())
        invariant LeafNumber(b, log, level, 0) <= |ls|
        invariant Assigned(ls, Contents(), LeafNumber(b, log, level, 0),
          if level < numLevels then level else level - 1, codeword, rank)
      {
        codeword, rank := AssignLevel(builder, log, level, codeword, rank, b);
        if level + 1 < numLevels {
          AssignDown(ls, Contents(), LeafNumber(b, log, level + 1, 0), level, codeword, rank);
          codeword := 2 * codeword;
        }
        level := level + 1;
      }
      numRanks := rank;
      AssignEnds(ls, Contents(), numLevels - 1, codeword, rank);
    }

    /** The number of levels: down to the smallest weight that still has leaves. */
    method CountLevels(builder: Builder, log: nat, ghost b: Buckets)
      requires Shaped() && builder.Shaped() && Ready(builder.State(), b, log) && log <= MAX_TABLE_LOG
      requires exists w :: 1 <= w <= log + 1 && b[w] != []
      modifies this`numLevels
      ensures 0 < numLevels <= log + 1 && Ordered(b, log, numLevels) == Ordered(b, log, log + 1)
      ensures Contents() == old(Contents())
    {
      hide Ready, Ordered;
      var minWeight := 1;
      CountsReady(builder.State(), b, log);
      while builder.counts[minWeight] == 0
        invariant 1 <= minWeight <= log + 1 && forall w :: 1 <= w < minWeight ==> b[w] == []
        decreases log + 1 - minWeight
      {
        minWeight := minWeight + 1;
      }
      numLevels := log + 2 - minWeight;
      NoneDeeper(b, log, numLevels);
    }
  }

  lemma CountsReady(s: Store, b: Buckets, log: nat)
    requires Ready(s, b, log)
    ensures |s.counts| == COUNTERS && forall w :: 1 <= w < BUCKETS ==> s.counts[w] == |b[w]|
  {
    forall w | 1 <= w < BUCKETS ensures s.counts[w] == |b[w]| {
      CountIsLen(s, w);
    }
  }

  lemma FirstLeaf(b: Buckets, log: nat)
    requires log <= MAX_TABLE_LOG
    ensures LeafNumber(b, log, 0, 0) == 0
  {
  }

  lemma WrittenNone<T>(s: seq<T>, at: nat, v: seq<T>)
    requires at <= |s|
    ensures Written(s, s, at, v[..0])
  {
    assert v[..0] == [];
    assert s[at..at + |v[..0]|] == [];
  }

  lemma WrittenMore<T>(start: seq<T>, s: seq<T>, t: seq<T>, at: nat, v: seq<T>, i: nat)
    requires i < |v| && Written(start, s, at, v[..i]) && at + |v| <= |s| && t == s[at + i := v[i]]
    ensures Written(start, t, at, v[..i + 1])
  {
    var w, x := v[..i], v[..i + 1];
    assert x == w + [v[i]];
    assert t[at..at + |x|] == s[at..at + |w|] + [v[i]];
  }

  lemma CountOfLevel(s: Store, b: Buckets, log: nat, level: nat)
    requires Ready(s, b, log) && level <= log
    ensures |s.counts| == COUNTERS && s.counts[log + 1 - level] == |b[log + 1 - level]|
  {
    CountIsLen(s, log + 1 - level);
  }

  lemma LeafJustified(ls: seq<Coded>, rows: Rows, n: nat, level: nat, codeword: nat, rank: nat)
    requires Canonical(ls) && LevelsOk(ls) && LeavesFit(ls) && n < |ls| && ls[n].level == level
    requires Assigned(ls, rows, n, level, codeword, rank)
    ensures LeafFits(ls[n]) && level + HighBit(|ls[n].symbols|) <= CODE_BITS && rank + |ls[n].symbols| <= MAX_RANKS
    ensures forall x :: 0 <= x < |ls[n].symbols| ==>
      Justified(codeword, level, HighBit(|ls[n].symbols|), x) == Codeword(ls[n], Position(ls, n), x)
  {
    hide RowsTo, Canonical, Justified, Codeword, Position, Times, Rank;
    RankWithin(ls, n + 1);
    RankStep(ls, n);
    assert LeafFits(ls[n]);
    forall x | 0 <= x < |ls[n].symbols|
      ensures Justified(codeword, level, HighBit(|ls[n].symbols|), x) == Codeword(ls[n], Position(ls, n), x)
    {
      JustifiedIs(ls, n, codeword, x);
    }
  }
}
