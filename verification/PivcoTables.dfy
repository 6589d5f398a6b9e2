/** The tree of a PivCo lane from its weights, and what it is for the planner: never
    refused, and so small that the threaded build of a batch is the one-shot build. */
module PivcoTables {
  import opened Common
  import opened Words
  import opened PivcoTree
  import opened PivcoWeights
  import opened PivcoLeaves
  import opened PivcoCode
  import opened PivcoOrder
  import opened PivcoBuilder
  import opened PivcoRanks
  import PivcoLanes
  import PivcoParts
  import PivcoFrames
  import PivcoBatch
  import PivcoMerge
  import PivcoSizes

  function Values(weights: seq<Byte>): (v: seq<nat>)
    ensures |v| == |weights| && forall i :: 0 <= i < |v| ==> v[i] == FromByte(weights[i])
  {
    seq(|weights|, i requires 0 <= i < |weights| => FromByte(weights[i]))
  }

  /** The length of the longest codeword, if the weights are of a complete code. */
  function TableLog(weights: seq<nat>, from: nat): (log: Option<nat>)
    ensures log.Some? ==> Complete(weights, log.value)
    ensures log.None? ==> forall k :: 0 <= k <= from ==> !Complete(weights, k)
  {
    if Complete(weights, from) then Some(from) else if from == 0 then None else TableLog(weights, from - 1)
  }

  /** The tree of complete weights, by rank. */
  function CodeTreeOf(weights: seq<nat>, log: nat): (c: CodeTree)
    requires Complete(weights, log)
    ensures Full(c)
  {
    CodeIsCanonical(weights, log);
    TreeCode(CodeOf(weights, log))
  }

  /** The trees the planner works with. */
  function HuffmanTables(): PivcoFrames.Tables {
    (weights: seq<Byte>) =>
      var log := TableLog(Values(weights), MAX_TABLE_LOG);
      if log.None? then None
      else
        var c := CodeTreeOf(Values(weights), log.value);
        Some(PivcoLanes.LaneTree(TreeOf(c), c.symbols))
  }

  /** The leaves of complete weights, built in place. */
  method BuildLeaves(weights: seq<nat>, log: nat) returns (builder: Builder)
    requires Complete(weights, log)
    ensures builder.Shaped() && Ready(builder.State(), Leaves(weights, log), log)
  {
    hide Complete, StoreOk, BucketsOf, Leaves, Counted, OffsetsOk, Gapped, Counts, Seeded;
    WeightsSmall(weights, log);
    builder := new Builder();
    builder.LayOut(weights);
    builder.Seed(weights);
    builder.OptimizeLeaves(weights, log);
    ReadyIs(builder.State(), Leaves(weights, log), log);
  }

  /** ZL_PivCoHuffmanTree_build of weights that passed the check. */
  method BuildTree(weights: seq<nat>, log: nat) returns (tree: HuffmanTree)
    requires Complete(weights, log)
    ensures tree.Shaped()
    ensures CodeTreeOf(weights, log)
         == CodeTree(tree.Contents().symbols, tree.Contents().depths, tree.Contents().codewords, tree.numRanks)
  {
    hide Complete, Ready, Canonical, Ordered, TreeCode, Leaves, LevelsOk, LeavesFit, CodeTreeOf;
    var builder := BuildLeaves(weights, log);
    tree := new HuffmanTree();
    CodeIsCanonical(weights, log);
    SomeBucket(weights, log);
    CodingReady(weights, log);
    tree.CountLevels(builder, log, Leaves(weights, log));
    tree.AssignRanks(builder, log, Leaves(weights, log));
  }

  lemma ReadyIs(s: Store, b: Buckets, log: nat)
    requires StoreOk(s) && BucketsOf(s) == b && log <= MAX_TABLE_LOG
    ensures Ready(s, b, log)
  {
  }

  lemma CodingReady(weights: seq<nat>, log: nat)
    requires Complete(weights, log) && Canonical(CodeOf(weights, log))
    ensures log <= MAX_TABLE_LOG
    ensures var ls := Ordered(Leaves(weights, log), log, log + 1); Canonical(ls) && LevelsOk(ls) && LeavesFit(ls)
    ensures CodeTreeOf(weights, log) == TreeCode(Ordered(Leaves(weights, log), log, log + 1))
  {
    hide Leaves, Ordered, TreeCode;
  }

  lemma SomeBucket(weights: seq<nat>, log: nat)
    requires Complete(weights, log) && Canonical(CodeOf(weights, log))
    ensures exists w :: 1 <= w <= log + 1 && Leaves(weights, log)[w] != []
  {
    hide Leaves, Ordered, Complete;
    WeightsSmall(weights, log);
    var ls := CodeOf(weights, log);
    SomeLeafOf(ls);
    OrderedAt(Leaves(weights, log), log, log + 1, 0);
  }

  lemma SomeLeafOf(ls: seq<Coded>)
    requires Canonical(ls)
    ensures |ls| > 0
  {
  }

  /** The check and the build together: what the planner's tables answer. */
  method TreeOfWeights(weights: seq<Byte>) returns (tree: Option<PivcoLanes.LaneTree>)
    ensures tree == HuffmanTables()(weights)
  {
    hide Complete, CodeTreeOf, TreeOf;
    var log := ComputeTableLog(Values(weights));
    ghost var found := TableLog(Values(weights), MAX_TABLE_LOG);
    if log < 0 {
      return None;
    }
    LogIs(Values(weights), log);
    var t := BuildTree(Values(weights), log);
    var c := CodeTree(t.rankToSymbol[..], t.rankToFlatDepth[..], t.rankToCodeword[..], t.numRanks);
    tree := Some(PivcoLanes.LaneTree(TreeOf(c), c.symbols));
  }

  lemma LogIs(weights: seq<nat>, log: nat)
    requires Complete(weights, log)
    ensures TableLog(weights, MAX_TABLE_LOG) == Some(log)
  {
    WeightsSmall(weights, log);
    CompleteOnce(weights, log, TableLog(weights, MAX_TABLE_LOG).value);
  }

  // ---------- what the planner gets ----------

  /** A tree of complete weights has a shape, so building its topology never fails. Its
      leaves are the leaves of the code, at most 109 of them. */
  lemma TreeHasShape(weights: seq<nat>, log: nat)
    requires Complete(weights, log)
    ensures var c := CodeTreeOf(weights, log);
      var s := ShapeOf(TreeOf(c), 0, 0, c.numRanks);
      && LeavesFit(CodeOf(weights, log))
      && s.Some? && LeavesOf(s.value) == LeafRow(CodeOf(weights, log), 0, |CodeOf(weights, log)|)
      && Nodes(s.value) <= 2 * MAX_LEAVES - 1 <= MAX_TREE_NODES
  {
    hide Complete, Canonical, TreeOf, TreeCode, ShapeOf, LeafRow, CodeOf, LeavesFit;
    CodeIsCanonical(weights, log);
    CodingOf(weights, log);
    CodeShape(CodeOf(weights, log), CodeTreeOf(weights, log));
  }

  lemma CodingOf(weights: seq<nat>, log: nat)
    requires Complete(weights, log)
    ensures Coding(CodeOf(weights, log), CodeTreeOf(weights, log))
  {
    hide Complete, TreeCode, CodeOf;
    CodeIsCanonical(weights, log);
  }

  /** Every symbol that occurs has one rank. */
  lemma OneRank(weights: seq<nat>, log: nat, x: Small)
    requires Complete(weights, log)
    ensures CodeTreeOf(weights, log).numRanks <= MAX_RANKS
    ensures Present(weights, x) <==>
      exists r :: 0 <= r < CodeTreeOf(weights, log).numRanks && CodeTreeOf(weights, log).symbols[r] == x
    ensures forall r, s :: 0 <= r < s < CodeTreeOf(weights, log).numRanks ==>
      CodeTreeOf(weights, log).symbols[r] != CodeTreeOf(weights, log).symbols[s]
  {
    hide Complete, CodeOf, Canonical, SymbolRow, TreeCode, Present;
    CodeIsCanonical(weights, log);
    CodingOf(weights, log);
    var ls, c := CodeOf(weights, log), CodeTreeOf(weights, log);
    RowIs(ls, c);
    var row := SymbolRow(ls, |ls|);
    assert Present(weights, x) <==> x in multiset(row);
    forall r, s | 0 <= r < s < c.numRanks ensures c.symbols[r] != c.symbols[s] {
      if c.symbols[r] == c.symbols[s] {
        Twice(row, r, s);
      }
    }
  }

  lemma RowIs(ls: seq<Coded>, c: CodeTree)
    requires Coding(ls, c)
    ensures Full(c) && |SymbolRow(ls, |ls|)| == c.numRanks <= MAX_RANKS
    ensures forall r :: 0 <= r < c.numRanks ==> c.symbols[r] == SymbolRow(ls, |ls|)[r]
  {
    hide Rank, Position, SymbolRow, Codewords, Depths, LevelsOk, LeavesFit;
    CodingIs(ls, c);
  }

  lemma Twice(row: seq<Small>, r: nat, s: nat)
    requires r < s < |row| && row[r] == row[s]
    ensures multiset(row)[row[r]] >= 2
  {
    assert row == row[..s] + row[s..];
    assert row[..s][r] == row[r] && row[s..][0] == row[s];
  }

  /** And the codeword there has the length its weight asks for. */
  lemma CodewordLengths(weights: seq<nat>, log: nat, i: nat, x: Small)
    requires Complete(weights, log) && i < |CodeOf(weights, log)| && x in CodeOf(weights, log)[i].symbols
    ensures x < |weights| && 0 < |CodeOf(weights, log)[i].symbols|
    ensures CodeOf(weights, log)[i].level + HighBit(|CodeOf(weights, log)[i].symbols|) == log + 1 - weights[x]
  {
    hide Complete, Leaves, Ordered, BucketsOk, HighBit;
    LeavesKept(weights, log);
    WeightsSmall(weights, log);
    CodeLengths(weights, Leaves(weights, log), log, i);
  }

  /** Trees of weights are thin. */
  lemma TablesAreThin()
    ensures PivcoSizes.ThinTables(HuffmanTables())
  {
    hide Complete, CodeTreeOf, TreeOf, ShapeOf, CodeOf, LeafRow, LeavesFit;
    var t := HuffmanTables();
    forall w | t(w).Some? ensures PivcoSizes.ThinTree(t(w).value.tree) {
      var log := TableLog(Values(w), MAX_TABLE_LOG).value;
      TreeHasShape(Values(w), log);
      TreeRanks(CodeTreeOf(Values(w), log));
    }
  }

  lemma TreeRanks(c: CodeTree)
    requires Full(c)
    ensures TreeOf(c).numRanks == c.numRanks
  {
  }

  /** pivco_gpu_plan_build_parallel: the plan of the one-shot build, for every batch and
      any number of threads. */
  method BuildParallel(frames: seq<PivcoFrames.Frame>, payload: seq<Byte>, elementBytes: nat, threadCount: nat)
    returns (plan: Option<PivcoParts.Plan>)
    ensures plan == PivcoBatch.BatchPlan(HuffmanTables(), frames, payload, elementBytes)
  {
    hide HuffmanTables, PivcoBatch.BatchPlan, PivcoMerge.MergeFits, PivcoSizes.ThinTables;
    TablesAreThin();
    PivcoSizes.ThinAlwaysFits(HuffmanTables(), frames, payload, elementBytes);
    plan := PivcoMerge.BuildParallel(HuffmanTables(), frames, payload, elementBytes, threadCount);
  }

  /** pivco_gpu_plan_merge: plans made frame by frame merge to the plan of the one-shot
      build. */
  method MergeParts(frames: seq<PivcoFrames.Frame>, parts: seq<PivcoParts.Plan>, payload: seq<Byte>, elementBytes: nat)
    returns (plan: Option<PivcoParts.Plan>)
    requires 0 < |frames| && PivcoMerge.PartsPlanned(HuffmanTables(), frames, parts, payload, elementBytes)
    ensures plan == PivcoBatch.BatchPlan(HuffmanTables(), frames, payload, elementBytes)
  {
    hide HuffmanTables, PivcoBatch.BatchPlan, PivcoMerge.MergeFits, PivcoSizes.ThinTables, PivcoMerge.PartsPlanned;
    TablesAreThin();
    PivcoSizes.ThinAlwaysFits(HuffmanTables(), frames, payload, elementBytes);
    plan := PivcoMerge.MergeParts(HuffmanTables(), frames, parts, payload, elementBytes);
  }
}
