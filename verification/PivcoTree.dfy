/** The tree of a PivCo lane, laid out in the pre-order of its bitstream. */
module PivcoTree {
  import opened Common

  const MAX_TREE_NODES: nat := 511
  const MAX_TABLE_LOG: nat := 12

  type Small = n: nat | n < 256 witness 0

  /** The Huffman tree, known only by the answers it gives; any answers will do. */
  datatype Tree = Tree(isLeaf: (nat, nat) -> bool, splitRank: (nat, nat, nat) -> nat, isConstant: (nat, nat) -> bool,
                       flatDepth: nat -> Small, numRanks: nat)

  /** GpuTreeNode: two 32-bit words. */
  datatype TreeNode = TreeNode(links: nat, leaf: nat)

  // The fields of both words are disjoint, so an OR of them is their sum.

  function LeafWord(first: nat, depth: nat, level: nat): nat {
    first + 0x100 * depth + 0x1_0000 + 0x100_0000 * level
  }

  function InnerWord(first: nat, level: nat): nat {
    first + 0x100_0000 * level
  }

  function Links(left: nat, right: nat): nat {
    left + 0x1_0000 * right
  }

  predicate IsLeaf(n: TreeNode) { n.leaf / 0x1_0000 % 2 == 1 }

  function DepthOf(n: TreeNode): nat { n.leaf / 0x100 % 0x100 }

  function LeftOf(n: TreeNode): nat { n.links % 0x1_0000 }

  function RightOf(n: TreeNode): nat { n.links / 0x1_0000 }

  lemma Field16(q: nat, r: nat)
    requires r < 0x1_0000
    ensures (0x1_0000 * q + r) / 0x1_0000 == q && (0x1_0000 * q + r) % 0x1_0000 == r
  {
  }

  lemma Field8(q: nat, r: nat)
    requires r < 0x100
    ensures (0x100 * q + r) / 0x100 == q && (0x100 * q + r) % 0x100 == r
  {
  }

  lemma Odd(q: nat)
    ensures (1 + 2 * q) % 2 == 1
  {
  }

  lemma LeafFields(first: Small, depth: Small, level: nat)
    ensures IsLeaf(TreeNode(0, LeafWord(first, depth, level)))
      && DepthOf(TreeNode(0, LeafWord(first, depth, level))) == depth
  {
    var w, high := LeafWord(first, depth, level), 1 + 0x100 * level;
    assert w / 0x1_0000 == high by {
      assert w == 0x1_0000 * high + (first + 0x100 * depth);
      Field16(high, first + 0x100 * depth);
    }
    assert w / 0x100 == 0x100 * high + depth by {
      assert w == 0x100 * (0x100 * high + depth) + first;
      Field8(0x100 * high + depth, first);
    }
    Field8(high, depth);
    Odd(0x80 * level);
  }

  lemma InnerFields(first: Small, level: nat, left: nat, right: nat)
    requires left < 0x1_0000
    ensures var n := TreeNode(Links(left, right), InnerWord(first, level));
      !IsLeaf(n) && LeftOf(n) == left && RightOf(n) == right
  {
    assert InnerWord(first, level) == 0x1_0000 * (0x100 * level) + first;
    Field16(0x100 * level, first);
    Field16(right, left);
  }

  // ---------------------------------------------------------------------------
  // Shapes

  datatype Shape =
    | Leaf(first: Small, depth: Small, level: nat)
    | Inner(first: Small, level: nat, bothConstant: bool, left: Shape, right: Shape)

  function Nodes(s: Shape): (n: nat)
    ensures n > 0
  {
    match s
    case Leaf(_, _, _) => 1
    case Inner(_, _, _, left, right) => 1 + Nodes(left) + Nodes(right)
  }

  /** The shape of the ranks from first to end, unless an answer of the tree or a limit
      rules it out. */
  ghost function ShapeOf(tree: Tree, level: nat, first: nat, end: nat): Option<Shape>
    decreases if first < end then end - first else 0
  {
    if first >= end || first > 255 || level > MAX_TABLE_LOG then None
    else if tree.isLeaf(first, end) then Some(Leaf(first, tree.flatDepth(first), level))
    else
      var split := tree.splitRank(level, first, end);
      if split <= first || split >= end then None
      else
        var left, right := ShapeOf(tree, level + 1, first, split), ShapeOf(tree, level + 1, split, end);
        if left.None? || right.None? then None
        else Some(Inner(first, level, tree.isConstant(first, split)
          && tree.isConstant(split, end), left.value, right.value))
  }

  /** nodes and bothConstant hold s in pre-order from index at on. */
  ghost predicate Laid(nodes: seq<TreeNode>, bothConstant: seq<bool>, at: nat, s: Shape)
    decreases s
  {
    && at + Nodes(s) <= |nodes| == |bothConstant|
    && match s
       case Leaf(first, depth, level) => nodes[at] == TreeNode(0, LeafWord(first, depth, level)) && !bothConstant[at]
       case Inner(first, level, both, left, right) =>
         && nodes[at] == TreeNode(Links(at + 1, at + 1 + Nodes(left)), InnerWord(first, level))
           && bothConstant[at] == both
         && Laid(nodes, bothConstant, at + 1, left)
         && Laid(nodes, bothConstant, at + 1 + Nodes(left), right)
  }

  ghost predicate SameOn<T>(a: seq<T>, c: seq<T>, lo: nat, hi: nat) {
    hi <= |a| && hi <= |c| && forall i :: lo <= i < hi ==> c[i] == a[i]
  }

  lemma {:induction false} LaidFrame(a: seq<TreeNode>, b: seq<bool>, c: seq<TreeNode>, d: seq<bool>, at: nat, s: Shape)
    requires Laid(a, b, at, s) && |c| == |d|
    requires SameOn(a, c, at, at + Nodes(s)) && SameOn(b, d, at, at + Nodes(s))
    ensures Laid(c, d, at, s)
    decreases s
  {
    if s.Inner? {
      LaidFrame(a, b, c, d, at + 1, s.left);
      LaidFrame(a, b, c, d, at + 1 + Nodes(s.left), s.right);
    }
  }

  /** The left subtree was laid first, the right one after it, the parent last. */
  lemma Joined(nodes1: seq<TreeNode>, both1: seq<bool>, nodes2: seq<TreeNode>, both2: seq<bool>, nodes3: seq<TreeNode>,
               at: nat, s: Shape)
    requires s.Inner? && Laid(nodes1, both1, at + 1, s.left) && Laid(nodes2, both2, at + 1 + Nodes(s.left), s.right)
    requires |nodes3| == |both2|
    requires SameOn(nodes1, nodes2, 0, at + 1 + Nodes(s.left)) && SameOn(both1, both2, 0, at + 1 + Nodes(s.left))
    requires SameOn(nodes2, nodes3, at + 1, at + Nodes(s))
    requires nodes3[at] == TreeNode(Links(at + 1, at + 1 + Nodes(s.left)), InnerWord(s.first, s.level))
      && both2[at] == s.bothConstant
    ensures Laid(nodes3, both2, at, s)
  {
    LaidFrame(nodes1, both1, nodes3, both2, at + 1, s.left);
    LaidFrame(nodes2, both2, nodes3, both2, at + 1 + Nodes(s.left), s.right);
  }

  /** What building the ranks from first to end at index at leaves behind. */
  ghost predicate Built(tree: Tree, level: nat, first: nat, end: nat, at: nat, nodes: seq<TreeNode>, both: seq<bool>,
                        count: nat, r: int) {
    var s := ShapeOf(tree, level, first, end);
    && count >= at
    && r == (if s.Some? && at + Nodes(s.value) <= MAX_TREE_NODES then at else -1)
    && (r >= 0 ==> at + Nodes(s.value) == count && Laid(nodes, both, at, s.value))
  }

  /** Two built subtrees make a built parent, once its node is written. */
  lemma BuiltParent(tree: Tree, level: nat, first: nat, end: nat, at: nat, nodes1: seq<TreeNode>, both1: seq<bool>,
                    count1: nat, left: int,
                    nodes2: seq<TreeNode>, both2: seq<bool>, count2: nat, right: int, nodes3: seq<TreeNode>, r: int)
    requires first < end && first <= 255 && level <= MAX_TABLE_LOG && !tree.isLeaf(first, end)
      && first < tree.splitRank(level, first, end) < end
    requires at < count1 && |nodes2| == |nodes3| == |both2|
    requires Built(tree, level + 1, first, tree.splitRank(level, first, end), at + 1, nodes1, both1, count1, left)
    requires Built(tree, level + 1, tree.splitRank(level, first, end), end, count1, nodes2, both2, count2, right)
    requires SameOn(nodes1, nodes2, 0, count1) && SameOn(both1, both2, 0, count1)
    requires both2[at]
      == (tree.isConstant(first, tree.splitRank(level, first, end))
        && tree.isConstant(tree.splitRank(level, first, end), end))
    requires r == if left < 0 || right < 0 then -1 else at
    requires r >= 0 ==> nodes3 == nodes2[at := TreeNode(Links(left, right), InnerWord(first, level))]
    requires r < 0 ==> nodes3 == nodes2
    ensures Built(tree, level, first, end, at, nodes3, both2, count2, r)
  {
    if r >= 0 {
      var s := ShapeOf(tree, level, first, end).value;
      hide Laid, LeafWord, InnerWord, Links;
      Joined(nodes1, both1, nodes2, both2, nodes3, at, s);
    }
  }

  /** Children stand above their parent, inside the tree. */
  lemma {:induction false} ChildrenAbove(nodes: seq<TreeNode>, bothConstant: seq<bool>, at: nat, s: Shape, k: nat)
    requires Laid(nodes, bothConstant, at, s) && at + Nodes(s) <= MAX_TREE_NODES && at <= k < at + Nodes(s)
    ensures !IsLeaf(nodes[k]) ==> k < LeftOf(nodes[k]) < RightOf(nodes[k]) < at + Nodes(s)
    decreases s
  {
    match s
    case Leaf(first, depth, level) =>
      LeafFields(first, depth, level);
    case Inner(first, level, _, left, right) =>
      InnerFields(first, level, at + 1, at + 1 + Nodes(left));
      if at < k < at + 1 + Nodes(left) {
        ChildrenAbove(nodes, bothConstant, at + 1, left, k);
      } else if at < k {
        ChildrenAbove(nodes, bothConstant, at + 1 + Nodes(left), right, k);
      }
  }

  // ---------------------------------------------------------------------------
  // The builder

  class Topology {
    const nodes: array<TreeNode>
    const bothConstant: array<bool>
    var count: nat

    ghost predicate Valid()
      reads this
    {
      nodes.Length == bothConstant.Length == MAX_TREE_NODES && count <= MAX_TREE_NODES
    }

    constructor ()
      ensures Valid() && count == 0 && fresh(nodes) && fresh(bothConstant)
    {
      nodes := new TreeNode[MAX_TREE_NODES](_ => TreeNode(0, 0));
      bothConstant := new bool[MAX_TREE_NODES](_ => false);
      count := 0;
    }

    /** topology_build: the index of the new subtree, or -1. */
    method Build(tree: Tree, level: nat, first: nat, end: nat) returns (r: int)
      requires Valid()
      modifies this`count, nodes, bothConstant
      ensures Valid() && Built(tree, level, first, end, old(count), nodes[..], bothConstant[..], count, r)
      ensures SameOn(old(nodes[..]), nodes[..], 0, old(count))
        && SameOn(old(bothConstant[..]), bothConstant[..], 0, old(count))
      decreases if first < end then end - first else 0
    {
      if count >= MAX_TREE_NODES || first >= end || first > 255 || level > MAX_TABLE_LOG {
        return -1;
      }
      var current := count;
      count := count + 1;
      bothConstant[current] := false;
      if tree.isLeaf(first, end) {
        nodes[current] := TreeNode(0, LeafWord(first, tree.flatDepth(first), level));
        return current;
      }
      var split := tree.splitRank(level, first, end);
      if split <= first || split >= end {
        return -1;
      }
      hide Built;
      bothConstant[current] := tree.isConstant(first, split) && tree.isConstant(split, end);
      var left := Build(tree, level + 1, first, split);
      ghost var nodes1, both1, count1 := nodes[..], bothConstant[..], count;
      var right := Build(tree, level + 1, split, end);
      ghost var nodes2, both2 := nodes[..], bothConstant[..];
      r := -1;
      if left >= 0 && right >= 0 {
        nodes[current] := TreeNode(Links(left, right), InnerWord(first, level));
        r := current;
      }
      BuiltParent(tree, level, first, end, current, nodes1, both1, count1, left, nodes2, both2, count, right,
        nodes[..], r);
    }
  }
}
