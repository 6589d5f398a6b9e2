/** The canonical code of a PivCo tree: leaves in order of their level, each a stretch of
    the code space, and the tree that splitting by the bits of the codewords gives
    (openzl/codecs/pivco_huffman/common_pivco_kernel.{c,h}). */
module PivcoCode {
  import opened Common
  import opened Words
  import opened Arith
  import opened PivcoTree
  import opened PivcoWeights
  import opened PivcoLeaves

  /** A leaf at its level. */
  datatype Coded = Coded(symbols: Leaf, level: nat)

  const CODE_BITS: nat := 16

  /** What a leaf at this level takes of the 2^16 codewords. */
  function Unit(level: nat): (u: nat)
    requires level <= CODE_BITS
    ensures u > 0
  {
    Pow2(CODE_BITS - level)
  }

  predicate LevelsOk(ls: seq<Coded>) {
    forall i :: 0 <= i < |ls| ==> ls[i].level <= MAX_TABLE_LOG
  }

  /** Where leaf n starts in the code space. */
  function Position(ls: seq<Coded>, n: nat): nat
    requires n <= |ls| && LevelsOk(ls)
  {
    if n == 0 then 0 else Position(ls, n - 1) + Unit(ls[n - 1].level)
  }

  /** The rank of the first symbol of leaf n. */
  function Rank(ls: seq<Coded>, n: nat): nat
    requires n <= |ls|
  {
    if n == 0 then 0 else Rank(ls, n - 1) + |ls[n - 1].symbols|
  }

  predicate LeafFits(l: Coded) {
    && 0 < |l.symbols| == Pow2(HighBit(|l.symbols|))
    && l.level + HighBit(|l.symbols|) <= MAX_TABLE_LOG
  }

  /** A complete canonical code: levels ascend, the leaves fill the code space, every
      codeword has at most 12 bits and there are at most 256 of them. */
  predicate Canonical(ls: seq<Coded>) {
    && LevelsOk(ls) && |ls| > 0
    && Ascending(ls)
    && (forall i :: 0 <= i < |ls| ==> LeafFits(ls[i]))
    && Position(ls, |ls|) == Pow2(CODE_BITS)
    && Rank(ls, |ls|) <= MAX_RANKS
  }

  const MAX_RANKS: nat := 256

  // ---------- multiples of powers of two ----------

  predicate Multiple(x: nat, k: nat) { x % Pow2(k) == 0 }

  lemma MultipleAdd(x: nat, y: nat, k: nat)
    requires Multiple(x, k) && Multiple(y, k)
    ensures Multiple(x + y, k)
  {
    var p := Pow2(k);
    DivModParts(x, p);
    DivModParts(y, p);
    DivModUnique(x / p + y / p, p, 0);
    assert (x / p + y / p) * p == (x / p) * p + (y / p) * p;
  }

  lemma {:induction false} PowMultiple(a: nat, k: nat)
    requires k <= a
    ensures Multiple(Pow2(a), k)
  {
    if a == k {
      DivModUnique(1, Pow2(k), 0);
    } else {
      PowMultiple(a - 1, k);
      MultipleAdd(Pow2(a - 1), Pow2(a - 1), k);
    }
  }

  lemma MultipleLess(x: nat, j: nat, k: nat)
    requires Multiple(x, j) && k <= j
    ensures Multiple(x, k)
  {
    var p := Pow2(j);
    DivModParts(x, p);
    TimesIsProduct(x / p, p);
    TimesMultiple(x / p, j, k);
  }

  lemma {:induction false} TimesMultiple(q: nat, j: nat, k: nat)
    requires k <= j
    ensures Multiple(Times(q, Pow2(j)), k)
  {
    if q == 0 {
      DivModUnique(0, Pow2(k), 0);
    } else {
      TimesMultiple(q - 1, j, k);
      PowMultiple(j, k);
      MultipleAdd(Times(q - 1, Pow2(j)), Pow2(j), k);
    }
  }

  /** Multiples of p that differ differ by at least p. */
  lemma MultiplesApart(x: nat, y: nat, k: nat)
    requires Multiple(x, k) && Multiple(y, k) && x < y
    ensures x + Pow2(k) <= y
  {
    var p := Pow2(k);
    DivModParts(x, p);
    DivModParts(y, p);
    if y / p <= x / p {
      MulMono(y / p, x / p, p);
    }
    MulMonoStrict(x / p, y / p, p);
  }

  // ---------- positions ----------

  /** A leaf starts at a multiple of what it takes. */
  lemma {:induction false} PositionMultiple(ls: seq<Coded>, n: nat, level: nat)
    requires n <= |ls| && LevelsOk(ls) && level <= CODE_BITS
    requires forall i :: 0 <= i < n ==> ls[i].level <= level
    ensures Multiple(Position(ls, n), CODE_BITS - level)
  {
    if n == 0 {
      DivModUnique(0, Pow2(CODE_BITS - level), 0);
    } else {
      PositionMultiple(ls, n - 1, level);
      PowMultiple(CODE_BITS - ls[n - 1].level, CODE_BITS - level);
      MultipleAdd(Position(ls, n - 1), Unit(ls[n - 1].level), CODE_BITS - level);
    }
  }

  lemma {:induction false} PositionAscends(ls: seq<Coded>, i: nat, j: nat)
    requires i <= j <= |ls| && LevelsOk(ls)
    ensures Position(ls, i) + (j - i) <= Position(ls, j)
  {
    if i < j {
      PositionAscends(ls, i, j - 1);
    }
  }

  lemma {:induction false} RankAscends(ls: seq<Coded>, i: nat, j: nat)
    requires i <= j <= |ls| && forall k :: 0 <= k < |ls| ==> |ls[k].symbols| > 0
    ensures Rank(ls, i) + (j - i) <= Rank(ls, j)
  {
    if i < j {
      RankAscends(ls, i, j - 1);
    }
  }

  /** The leaves i to j fill the stretch of a node at this level. */
  predicate Node(ls: seq<Coded>, level: nat, i: nat, j: nat)
    requires LevelsOk(ls)
  {
    && i < j <= |ls| && level <= CODE_BITS
    && Position(ls, j) == Position(ls, i) + Unit(level) && Multiple(Position(ls, i), CODE_BITS - level)
  }

  lemma PositionStep(ls: seq<Coded>, t: nat)
    requires t < |ls| && LevelsOk(ls)
    ensures Position(ls, t + 1) == Position(ls, t) + Unit(ls[t].level)
  {
  }

  /** A node of more than one leaf stands above its leaves. */
  lemma Above(ls: seq<Coded>, level: nat, i: nat, j: nat, t: nat)
    requires LevelsOk(ls) && Node(ls, level, i, j) && i <= t < j && i + 1 < j
    ensures level < ls[t].level
  {
    hide Position, Multiple, Unit;
    PositionAscends(ls, i, t);
    PositionAscends(ls, t + 1, j);
    PositionStep(ls, t);
    if ls[t].level <= level {
      UnitMono(level, ls[t].level);
    }
  }

  lemma UnitMono(level: nat, above: nat)
    requires above <= level <= CODE_BITS
    ensures Unit(level) <= Unit(above)
  {
    HighMono(CODE_BITS - level, CODE_BITS - above);
  }

  lemma Alone(ls: seq<Coded>, level: nat, i: nat)
    requires LevelsOk(ls) && Node(ls, level, i, i + 1)
    ensures ls[i].level == level
  {
    hide Position, Multiple, Pow2;
    PositionStep(ls, i);
    Pow2Once(CODE_BITS - ls[i].level, CODE_BITS - level);
  }

  predicate Ascending(ls: seq<Coded>) {
    forall i, j :: 0 <= i < j < |ls| ==> ls[i].level <= ls[j].level
  }

  /** Some leaf starts in the middle of such a node: no leaf straddles it. */
  lemma {:induction false} Middle(ls: seq<Coded>, level: nat, i: nat, j: nat, t: nat) returns (m: nat)
    requires LevelsOk(ls) && Ascending(ls) && Node(ls, level, i, j) && i + 1 < j && level < CODE_BITS
    requires i <= t < j && Position(ls, t) < Position(ls, i) + Unit(level + 1)
    ensures t < m < j && Position(ls, m) == Position(ls, i) + Unit(level + 1)
    decreases j - t
  {
    hide Position, Multiple, Ascending, Unit;
    Above(ls, level, i, j, t);
    NotStraddled(ls, level, i, t);
    HalfUnit(level);
    if Position(ls, t + 1) == Position(ls, i) + Unit(level + 1) {
      m := t + 1;
    } else {
      m := Middle(ls, level, i, j, t + 1);
    }
  }

  lemma HalfUnit(level: nat)
    requires level < CODE_BITS
    ensures Unit(level) == 2 * Unit(level + 1)
  {
  }

  lemma NotStraddled(ls: seq<Coded>, level: nat, i: nat, t: nat)
    requires LevelsOk(ls) && Ascending(ls) && i <= t < |ls| && level < ls[t].level
    requires Multiple(Position(ls, i), CODE_BITS - level)
    requires Position(ls, t) < Position(ls, i) + Unit(level + 1)
    ensures Position(ls, t + 1) <= Position(ls, i) + Unit(level + 1)
  {
    hide Multiple, Position, Pow2;
    var k := CODE_BITS - ls[t].level;
    PositionMultiple(ls, t, ls[t].level);
    MultipleLess(Position(ls, i), CODE_BITS - level, k);
    PowMultiple(CODE_BITS - level - 1, k);
    MultipleAdd(Position(ls, i), Unit(level + 1), k);
    MultiplesApart(Position(ls, t), Position(ls, i) + Unit(level + 1), k);
    PositionStep(ls, t);
  }

  // ---------- the arrays of the tree ----------

  // Symbol x of a leaf that starts at p.
  function Codeword(l: Coded, p: nat, x: nat): nat
    requires LeafFits(l)
  {
    p + Times(x, Unit(l.level + HighBit(|l.symbols|)))
  }

  predicate LeavesFit(ls: seq<Coded>) {
    forall i :: 0 <= i < |ls| ==> LeafFits(ls[i])
  }

  function Codewords(ls: seq<Coded>, n: nat): (c: seq<nat>)
    requires n <= |ls| && LevelsOk(ls) && LeavesFit(ls)
    ensures |c| == Rank(ls, n)
  {
    if n == 0 then []
    else
      var l, p := ls[n - 1], Position(ls, n - 1);
      Codewords(ls, n - 1) + seq(|l.symbols|, x requires 0 <= x < |l.symbols| => Codeword(l, p, x))
  }

  function DepthOfLeaf(l: Coded): (d: Small)
    requires LeafFits(l)
  {
    HighBit(|l.symbols|)
  }

  function Depths(ls: seq<Coded>, n: nat): (d: seq<Small>)
    requires n <= |ls| && LeavesFit(ls)
    ensures |d| == Rank(ls, n)
  {
    if n == 0 then []
    else
      var l := ls[n - 1];
      Depths(ls, n - 1) + seq(|l.symbols|, x => DepthOfLeaf(l))
  }

  function SymbolRow(ls: seq<Coded>, n: nat): (s: seq<Small>)
    requires n <= |ls|
    ensures |s| == Rank(ls, n)
  {
    if n == 0 then [] else SymbolRow(ls, n - 1) + ls[n - 1].symbols
  }

  /** The entries of leaf t are where its ranks are. */
  lemma {:induction false} RowsAt(ls: seq<Coded>, n: nat, t: nat, x: nat)
    requires t < n <= |ls| && LevelsOk(ls) && LeavesFit(ls) && x < |ls[t].symbols|
    ensures Rank(ls, t) + x < Rank(ls, n)
    ensures Codewords(ls, n)[Rank(ls, t) + x] == Codeword(ls[t], Position(ls, t), x)
    ensures Depths(ls, n)[Rank(ls, t) + x] == DepthOfLeaf(ls[t])
    ensures SymbolRow(ls, n)[Rank(ls, t) + x] == ls[t].symbols[x]
  {
    hide LeafFits, Codeword, Position;
    if t < n - 1 {
      RowsAt(ls, n - 1, t, x);
    }
  }

  /** ZL_PivCoHuffmanTree: arrays by rank, zero behind the last one. */
  datatype CodeTree = CodeTree(symbols: seq<Small>, depths: seq<Small>, codewords: seq<nat>, numRanks: nat)

  predicate Full(c: CodeTree) {
    |c.symbols| == |c.depths| == |c.codewords| == MAX_RANKS
  }

  function Zeros(n: nat): (s: seq<Small>)
    ensures |s| == n && forall i :: 0 <= i < n ==> s[i] == 0
  {
    seq(n, i => 0)
  }

  function TreeCode(ls: seq<Coded>): (c: CodeTree)
    requires LevelsOk(ls) && LeavesFit(ls) && Rank(ls, |ls|) <= MAX_RANKS
    ensures Full(c)
  {
    var n := Rank(ls, |ls|);
    CodeTree(SymbolRow(ls, |ls|) + Zeros(MAX_RANKS - n), Depths(ls, |ls|) + Zeros(MAX_RANKS - n),
             Codewords(ls, |ls|) + Zeros(MAX_RANKS - n), n)
  }

  // ---------- the queries ----------

  predicate RangeIsLeaf(c: CodeTree, first: nat, end: nat)
    requires Full(c)
  {
    first < MAX_RANKS && first <= end && Pow2(c.depths[first]) == end - first
  }

  predicate RangeIsConstant(c: CodeTree, first: nat, end: nat)
    requires Full(c)
  {
    RangeIsLeaf(c, first, end) && c.depths[first] == 0
  }

  // Bit level of a codeword, from the top.
  predicate BitSet(codeword: nat, level: nat) {
    level < CODE_BITS && codeword / Unit(level + 1) % 2 == 1
  }

  /** The first rank from r on whose codeword has the bit. */
  function SplitFrom(c: CodeTree, level: nat, r: nat): (s: nat)
    requires Full(c)
    ensures r <= s
    decreases if r < MAX_RANKS then MAX_RANKS - r else 0
  {
    if r >= MAX_RANKS || BitSet(c.codewords[r], level) then r else SplitFrom(c, level, r + 1)
  }

  function TreeOf(c: CodeTree): Tree
    requires Full(c)
  {
    Tree((first: nat, end: nat) => RangeIsLeaf(c, first, end),
         (level: nat, first: nat, end: nat) => SplitFrom(c, level, first + 1),
         (first: nat, end: nat) => RangeIsConstant(c, first, end),
         (first: nat) => if first < MAX_RANKS then c.depths[first] else 0,
         c.numRanks)
  }

  // ---------- splitting by codeword bits ----------

  lemma CodewordInside(l: Coded, p: nat, x: nat)
    requires LeafFits(l) && x < |l.symbols|
    ensures p <= Codeword(l, p, x) < p + Unit(l.level)
    ensures Codeword(l, p, 0) == p
  {
    hide Times, HighBit;
    var k := HighBit(|l.symbols|);
    TimesNone(Unit(l.level + k));
    TimesStep(x, Pow2(k), Unit(l.level + k));
    SplitUnit(l.level, k);
  }

  lemma TimesNone(u: nat)
    ensures Times(0, u) == 0
  {
  }

  lemma SplitUnit(level: nat, k: nat)
    requires level + k <= CODE_BITS
    ensures Times(Pow2(k), Unit(level + k)) == Unit(level)
  {
    BlockWorth(CODE_BITS + 1 - level - k, k);
  }

  /** Bit level tells the halves of a node apart. */
  lemma BitOfHalf(p: nat, y: nat, level: nat)
    requires level < CODE_BITS && Multiple(p, CODE_BITS - level) && y < Unit(level)
    ensures BitSet(p + y, level) <==> y >= Unit(level + 1)
  {
    hide Pow2;
    HalfUnit(level);
    var u := Unit(level + 1);
    var q := p / Unit(level);
    DivModParts(p, Unit(level));
    var high := if y >= u then 1 else 0;
    assert p + y == (2 * q + high) * u + (y - high * u) by {
      TwiceTimes(q, high, u);
    }
    DivModUnique(2 * q + high, u, y - high * u);
    Odd2(q, high);
  }

  lemma TwiceTimes(q: nat, high: nat, u: nat)
    ensures (2 * q + high) * u == q * (2 * u) + high * u
  {
  }

  lemma Odd2(q: nat, high: nat)
    requires high <= 1
    ensures (2 * q + high) % 2 == high
  {
  }

  lemma {:induction false} FindLeaf(ls: seq<Coded>, i: nat, j: nat, r: nat) returns (t: nat, x: nat)
    requires i < j <= |ls| && Rank(ls, i) <= r < Rank(ls, j)
    ensures i <= t < j && x < |ls[t].symbols| && r == Rank(ls, t) + x
  {
    if r >= Rank(ls, j - 1) {
      t, x := j - 1, r - Rank(ls, j - 1);
    } else {
      t, x := FindLeaf(ls, i, j - 1, r);
    }
  }

  // The list and the arrays of one tree.
  predicate Coding(ls: seq<Coded>, c: CodeTree) {
    Canonical(ls) && c == TreeCode(ls)
  }

  lemma CodingAt(ls: seq<Coded>, c: CodeTree, t: nat, x: nat)
    requires Coding(ls, c) && t < |ls| && x < |ls[t].symbols|
    ensures Full(c) && Rank(ls, t) + x < c.numRanks == Rank(ls, |ls|) <= MAX_RANKS
    ensures c.codewords[Rank(ls, t) + x] == Codeword(ls[t], Position(ls, t), x)
    ensures c.depths[Rank(ls, t) + x] == DepthOfLeaf(ls[t])
    ensures c.symbols[Rank(ls, t) + x] == ls[t].symbols[x]
  {
    hide LeafFits, Codeword, Position, Rank, Codewords, Depths, SymbolRow;
    RowsAt(ls, |ls|, t, x);
  }

  lemma CodingIs(ls: seq<Coded>, c: CodeTree)
    requires Coding(ls, c)
    ensures LevelsOk(ls) && Ascending(ls) && LeavesFit(ls) && |ls| > 0 && Full(c)
    ensures Position(ls, |ls|) == Unit(0) && Rank(ls, |ls|) == c.numRanks <= MAX_RANKS
    ensures forall k :: 0 <= k < |ls| ==> |ls[k].symbols| > 0
  {
  }

  /** In the left half the bit is clear, at the first rank of the right half it is set. */
  lemma BitBefore(ls: seq<Coded>, c: CodeTree, level: nat, i: nat, m: nat, r: nat)
    requires Coding(ls, c) && level < CODE_BITS && i < m < |ls|
    requires Multiple(Position(ls, i), CODE_BITS - level) && Position(ls, m) == Position(ls, i) + Unit(level + 1)
    requires Rank(ls, i) <= r < Rank(ls, m)
    ensures Full(c) && r < MAX_RANKS && !BitSet(c.codewords[r], level)
  {
    hide Coding, LeafFits, Codeword, Position, Rank, BitSet, Multiple, Unit;
    CodingIs(ls, c);
    var t, x := FindLeaf(ls, i, m, r);
    CodingAt(ls, c, t, x);
    CodewordInside(ls[t], Position(ls, t), x);
    PositionAscends(ls, i, t);
    PositionStep(ls, t);
    PositionAscends(ls, t + 1, m);
    HalfUnit(level);
    BitOfHalf(Position(ls, i), c.codewords[r] - Position(ls, i), level);
  }

  lemma BitAt(ls: seq<Coded>, c: CodeTree, level: nat, i: nat, m: nat)
    requires Coding(ls, c) && level < CODE_BITS && i < m < |ls|
    requires Multiple(Position(ls, i), CODE_BITS - level) && Position(ls, m) == Position(ls, i) + Unit(level + 1)
    ensures Full(c) && Rank(ls, m) < MAX_RANKS && BitSet(c.codewords[Rank(ls, m)], level)
  {
    hide Coding, LeafFits, Codeword, Position, Rank, BitSet, Multiple, Unit;
    CodingIs(ls, c);
    CodingAt(ls, c, m, 0);
    CodewordInside(ls[m], Position(ls, m), 0);
    HalfUnit(level);
    BitOfHalf(Position(ls, i), Unit(level + 1), level);
  }

  lemma {:induction false} SplitIs(c: CodeTree, level: nat, r: nat, s: nat)
    requires Full(c) && r <= s < MAX_RANKS && BitSet(c.codewords[s], level)
    requires forall q :: r <= q < s ==> !BitSet(c.codewords[q], level)
    ensures SplitFrom(c, level, r) == s
    decreases s - r
  {
    hide BitSet;
    if r < s {
      SplitIs(c, level, r + 1, s);
    }
  }

  /** The split of a node of more than one leaf falls between two leaves, in the middle of
      its stretch. */
  lemma NodeSplits(ls: seq<Coded>, c: CodeTree, level: nat, i: nat, j: nat) returns (m: nat)
    requires Coding(ls, c) && LevelsOk(ls) && Node(ls, level, i, j) && i + 1 < j
    ensures i < m < j && level < MAX_TABLE_LOG
    ensures Full(c) && SplitFrom(c, level, Rank(ls, i) + 1) == Rank(ls, m)
    ensures Node(ls, level + 1, i, m) && Node(ls, level + 1, m, j)
  {
    hide Coding, Position, Rank, BitSet, Multiple, Unit, SplitFrom;
    CodingIs(ls, c);
    Above(ls, level, i, j, i);
    m := Middle(ls, level, i, j, i);
    RankAscends(ls, i, m);
    BitAt(ls, c, level, i, m);
    forall q | Rank(ls, i) + 1 <= q < Rank(ls, m) ensures !BitSet(c.codewords[q], level) {
      BitBefore(ls, c, level, i, m, q);
    }
    SplitIs(c, level, Rank(ls, i) + 1, Rank(ls, m));
    HalfUnit(level);
    HalfMultiple(Position(ls, i), level);
  }

  lemma HalfMultiple(p: nat, level: nat)
    requires level < CODE_BITS && Multiple(p, CODE_BITS - level)
    ensures Multiple(p, CODE_BITS - level - 1) && Multiple(p + Unit(level + 1), CODE_BITS - level - 1)
  {
    hide Multiple;
    MultipleLess(p, CODE_BITS - level, CODE_BITS - level - 1);
    PowMultiple(CODE_BITS - level - 1, CODE_BITS - level - 1);
    MultipleAdd(p, Unit(level + 1), CODE_BITS - level - 1);
  }

  // ---------- the shape ----------

  datatype LeafAt = LeafAt(first: nat, depth: nat, level: nat)

  /** The leaves of a shape from left to right. */
  function LeavesOf(s: Shape): (leaves: seq<LeafAt>)
    ensures |leaves| > 0 && Nodes(s) == 2 * |leaves| - 1
  {
    match s
    case Leaf(first, depth, level) => [LeafAt(first, depth, level)]
    case Inner(_, _, _, left, right) => LeavesOf(left) + LeavesOf(right)
  }

  function LeafRow(ls: seq<Coded>, i: nat, j: nat): (row: seq<LeafAt>)
    requires i <= j <= |ls| && LeavesFit(ls)
    ensures |row| == j - i
    decreases j - i
  {
    if i == j then [] else LeafRow(ls, i, j - 1) + [LeafAt(Rank(ls, j - 1), DepthOfLeaf(ls[j - 1]), ls[j - 1].level)]
  }

  lemma {:induction false} LeafRowJoin(ls: seq<Coded>, i: nat, m: nat, j: nat)
    requires i <= m <= j <= |ls| && LeavesFit(ls)
    ensures LeafRow(ls, i, m) + LeafRow(ls, m, j) == LeafRow(ls, i, j)
    decreases j - m
  {
    hide LeafFits;
    if m < j {
      LeafRowJoin(ls, i, m, j - 1);
      AppendAssoc(LeafRow(ls, i, m), LeafRow(ls, m, j - 1),
                  [LeafAt(Rank(ls, j - 1), DepthOfLeaf(ls[j - 1]), ls[j - 1].level)]);
    }
  }

  /** A node has a shape, and its leaves are the leaves of the code. */
  lemma {:induction false} NodeShape(ls: seq<Coded>, c: CodeTree, level: nat, i: nat, j: nat)
    requires Coding(ls, c) && LevelsOk(ls) && LeavesFit(ls) && Full(c) && Node(ls, level, i, j)
    ensures ShapeOf(TreeOf(c), level, Rank(ls, i), Rank(ls, j)).Some?
    ensures LeavesOf(ShapeOf(TreeOf(c), level, Rank(ls, i), Rank(ls, j)).value) == LeafRow(ls, i, j)
    decreases j - i
  {
    hide Coding, Position, Rank, Node, SplitFrom, ShapeOf, LeafRow, TreeOf, RangeIsLeaf, LeafFits;
    CodingIs(ls, c);
    NodeRange(ls, level, i, j);
    if j == i + 1 {
      LeafShape(ls, c, level, i);
    } else {
      var m := NodeSplits(ls, c, level, i, j);
      NodeRange(ls, level + 1, i, m);
      NodeShape(ls, c, level + 1, i, m);
      NodeShape(ls, c, level + 1, m, j);
      LeafRowJoin(ls, i, m, j);
      InnerShape(ls, c, level, i, m, j);
    }
  }

  lemma NodeRange(ls: seq<Coded>, level: nat, i: nat, j: nat)
    requires LevelsOk(ls) && Node(ls, level, i, j)
    ensures i < j <= |ls|
  {
  }

  lemma LeafShape(ls: seq<Coded>, c: CodeTree, level: nat, i: nat)
    requires Coding(ls, c) && LevelsOk(ls) && LeavesFit(ls) && Full(c) && Node(ls, level, i, i + 1)
    ensures ShapeOf(TreeOf(c), level, Rank(ls, i), Rank(ls, i + 1)).Some?
    ensures LeavesOf(ShapeOf(TreeOf(c), level, Rank(ls, i), Rank(ls, i + 1)).value) == LeafRow(ls, i, i + 1)
  {
    hide Coding, Position, Node, Rank, TreeOf, ShapeOf, LevelsOk, LeafRow, LeafFits;
    NodeRange(ls, level, i, i + 1);
    Alone(ls, level, i);
    CodingIs(ls, c);
    CodingAt(ls, c, i, 0);
    OneLeaf(ls, c, i);
    LeafAlone(TreeOf(c), level, Rank(ls, i), Rank(ls, i + 1));
    RowOfOne(ls, i);
  }

  lemma RowOfOne(ls: seq<Coded>, i: nat)
    requires i < |ls| && LeavesFit(ls)
    ensures LeafRow(ls, i, i + 1) == [LeafAt(Rank(ls, i), DepthOfLeaf(ls[i]), ls[i].level)]
  {
    hide Rank, LeafFits;
    assert LeafRow(ls, i, i) == [];
  }

  lemma LeafAlone(tree: Tree, level: nat, first: nat, end: nat)
    requires first < end && first <= 255 && level <= MAX_TABLE_LOG && tree.isLeaf(first, end)
    ensures ShapeOf(tree, level, first, end) == Some(Leaf(first, tree.flatDepth(first), level))
  {
  }

  /** The queries at the first rank of leaf i. */
  lemma OneLeaf(ls: seq<Coded>, c: CodeTree, i: nat)
    requires Coding(ls, c) && Full(c) && i < |ls| && LevelsOk(ls) && LeavesFit(ls)
    ensures Rank(ls, i) < Rank(ls, i + 1) && Rank(ls, i) < MAX_RANKS
    ensures TreeOf(c).isLeaf(Rank(ls, i), Rank(ls, i + 1))
    ensures TreeOf(c).flatDepth(Rank(ls, i)) == DepthOfLeaf(ls[i])
    ensures forall end :: Rank(ls, i + 1) < end ==> !TreeOf(c).isLeaf(Rank(ls, i), end)
  {
    hide Coding, Position, Rank, LevelsOk;
    CodingAt(ls, c, i, 0);
    RankStep(ls, i);
  }

  lemma SplitQuery(c: CodeTree, level: nat, first: nat, end: nat)
    requires Full(c)
    ensures TreeOf(c).splitRank(level, first, end) == SplitFrom(c, level, first + 1)
  {
  }

  lemma RankStep(ls: seq<Coded>, i: nat)
    requires i < |ls|
    ensures Rank(ls, i + 1) == Rank(ls, i) + |ls[i].symbols|
  {
  }

  lemma InnerShape(ls: seq<Coded>, c: CodeTree, level: nat, i: nat, m: nat, j: nat)
    requires Coding(ls, c) && LevelsOk(ls) && LeavesFit(ls) && Full(c) && i < m < j <= |ls| && level < MAX_TABLE_LOG
    requires SplitFrom(c, level, Rank(ls, i) + 1) == Rank(ls, m)
    requires ShapeOf(TreeOf(c), level + 1, Rank(ls, i), Rank(ls, m)).Some?
    requires ShapeOf(TreeOf(c), level + 1, Rank(ls, m), Rank(ls, j)).Some?
    ensures ShapeOf(TreeOf(c), level, Rank(ls, i), Rank(ls, j)).Some?
    ensures LeavesOf(ShapeOf(TreeOf(c), level, Rank(ls, i), Rank(ls, j)).value)
         == LeavesOf(ShapeOf(TreeOf(c), level + 1, Rank(ls, i), Rank(ls, m)).value)
          + LeavesOf(ShapeOf(TreeOf(c), level + 1, Rank(ls, m), Rank(ls, j)).value)
  {
    hide Coding, Position, Rank, SplitFrom, TreeOf, ShapeOf, LeavesOf, LeafFits, LevelsOk;
    CodingIs(ls, c);
    OneLeaf(ls, c, i);
    SplitQuery(c, level, Rank(ls, i), Rank(ls, j));
    RankAscends(ls, i + 1, j);
    RankAscends(ls, i, m);
    RankAscends(ls, m, j);
    SplitShape(TreeOf(c), level, Rank(ls, i), Rank(ls, m), Rank(ls, j));
  }

  lemma SplitShape(tree: Tree, level: nat, first: nat, split: nat, end: nat)
    requires first < split < end && first <= 255 && level <= MAX_TABLE_LOG && !tree.isLeaf(first, end)
    requires tree.splitRank(level, first, end) == split
    requires ShapeOf(tree, level + 1, first, split).Some? && ShapeOf(tree, level + 1, split, end).Some?
    ensures ShapeOf(tree, level, first, end).Some?
    ensures LeavesOf(ShapeOf(tree, level, first, end).value)
         == LeavesOf(ShapeOf(tree, level + 1, first, split).value)
          + LeavesOf(ShapeOf(tree, level + 1, split, end).value)
  {
  }

  /** Splitting by codeword bits never fails on a complete canonical code, and gives the
      tree whose leaves are the leaves of the code. */
  lemma CodeShape(ls: seq<Coded>, c: CodeTree)
    requires Coding(ls, c)
    ensures Full(c) && LeavesFit(ls)
    ensures ShapeOf(TreeOf(c), 0, 0, c.numRanks).Some?
    ensures LeavesOf(ShapeOf(TreeOf(c), 0, 0, c.numRanks).value) == LeafRow(ls, 0, |ls|)
  {
    hide Coding, ShapeOf, TreeOf, LeafRow, LeavesFit;
    CodingIs(ls, c);
    assert Position(ls, 0) == 0 && Rank(ls, 0) == 0;
    NoneMultiple(CODE_BITS);
    NodeShape(ls, c, 0, 0, |ls|);
  }

  lemma NoneMultiple(k: nat)
    ensures Multiple(0, k)
  {
    DivModUnique(0, Pow2(k), 0);
  }
}
