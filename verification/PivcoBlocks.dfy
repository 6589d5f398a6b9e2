/** What an accepted PivCo block promises the kernels that rebuild it. */
module PivcoBlocks {
  import opened Common
  import opened Words
  import opened PivcoTree
  import opened PivcoWalk

  /** The subtree whose root has pre-order index k. */
  function Sub(s: Shape, k: nat): Shape
    requires k < Nodes(s)
  {
    if k == 0 then s
    else if k <= Nodes(s.left) then Sub(s.left, k - 1)
    else Sub(s.right, k - 1 - Nodes(s.left))
  }

  lemma {:induction false} SubFits(s: Shape, k: nat)
    requires k < Nodes(s)
    ensures k + Nodes(Sub(s, k)) <= Nodes(s)
    decreases s
  {
    if k > 0 {
      if k <= Nodes(s.left) {
        SubFits(s.left, k - 1);
      } else {
        SubFits(s.right, k - 1 - Nodes(s.left));
      }
    }
  }

  /** A block walked over s from bit, count symbols at out. */
  ghost predicate Block(s: Shape, data: seq<Byte>, bit: nat, count: nat, payload: nat, out: nat, w: Walked) {
    bit <= 8 * |data| && Walk(s, data, bit, count, payload, out) == Some(w)
  }

  lemma Root(s: Shape, data: seq<Byte>, bit: nat, count: nat, payload: nat, out: nat, w: Walked)
    requires Block(s, data, bit, count, payload, out, w)
    ensures |w.nodes| == Nodes(s) && w.nodes[0].count == count && w.nodes[0].output == out
    ensures bit <= w.bit <= 8 * |data|
  {
  }

  /** The two halves of an inner block: zeros left, ones right. */
  lemma Halves(s: Shape, data: seq<Byte>, bit: nat, count: nat, payload: nat, out: nat, w: Walked)
    returns (ones: nat, mid: nat, l: Walked, r: Walked)
    requires s.Inner? && Block(s, data, bit, count, payload, out, w)
    ensures Align(bit) + count <= 8 * |data| && ones == Ones(data, Align(bit), count)
    ensures Align(bit) + count <= mid && w.nodes[0].offset == payload + Align(bit) / 8
    ensures Block(s.left, data, mid, count - ones, payload, out, l)
    ensures Block(s.right, data, l.bit, ones, payload, out + count - ones, r)
    ensures w.bit == r.bit && w.nodes == [w.nodes[0]] + l.nodes + r.nodes
  {
    hide Align, NodeEnd, Ones, WalkChildren;
    mid := NodeEnd(data, Align(bit), count, s.bothConstant).value;
    ones := Ones(data, Align(bit), count);
    var both := WalkChildren(s, data, mid, count, ones, payload, out);
    assert both.Some?
      && w == Walked(both.value.bit, [NodeBits(payload + Align(bit) / 8, count, out)] + both.value.nodes);
    l, r := ChildWalks(s, data, mid, count, ones, payload, out, both.value);
    assert w.nodes == [w.nodes[0]] + l.nodes + r.nodes;
  }

  lemma ChildWalks(s: Shape, data: seq<Byte>, mid: nat, count: nat, ones: nat, payload: nat, out: nat, w: Walked)
    returns (l: Walked, r: Walked)
    requires s.Inner? && ones <= count && mid <= 8 * |data|
      && WalkChildren(s, data, mid, count, ones, payload, out) == Some(w)
    ensures Block(s.left, data, mid, count - ones, payload, out, l)
    ensures Block(s.right, data, l.bit, ones, payload, out + count - ones, r)
    ensures w == Walked(r.bit, l.nodes + r.nodes)
  {
    l := Walk(s.left, data, mid, count - ones, payload, out).value;
    r := Walk(s.right, data, l.bit, ones, payload, out + count - ones).value;
  }

  /** Node k of the walk w over s is itself the walk sub, from bit at on. */
  ghost predicate NodeWalk(s: Shape, data: seq<Byte>, payload: nat, w: Walked, k: nat, at: nat, sub: Walked) {
    && k < Nodes(s) == |w.nodes| && k + Nodes(Sub(s, k)) <= Nodes(s)
    && Block(Sub(s, k), data, at, w.nodes[k].count, payload, w.nodes[k].output, sub)
    && sub.nodes == w.nodes[k..k + Nodes(Sub(s, k))]
  }

  lemma LeftNode(s: Shape, data: seq<Byte>, payload: nat, w: Walked, root: NodeBits, l: Walked, r: Walked, k: nat,
                 at: nat, sub: Walked)
    requires s.Inner? && w.nodes == [root] + l.nodes + r.nodes && |r.nodes| == Nodes(s.right)
    requires NodeWalk(s.left, data, payload, l, k, at, sub)
    ensures NodeWalk(s, data, payload, w, k + 1, at, sub) && w.nodes[k + 1] == l.nodes[k]
  {
    hide Block, Sub;
    SubIs(s, k + 1);
    Inside([root], l.nodes, r.nodes, k, k + Nodes(Sub(s.left, k)));
  }

  lemma RightNode(s: Shape, data: seq<Byte>, payload: nat, w: Walked, root: NodeBits, l: Walked, r: Walked, k: nat,
                  at: nat, sub: Walked)
    requires s.Inner? && w.nodes == [root] + l.nodes + r.nodes && |l.nodes| == Nodes(s.left)
    requires NodeWalk(s.right, data, payload, r, k, at, sub)
    ensures NodeWalk(s, data, payload, w, k + 1 + Nodes(s.left), at, sub)
      && w.nodes[k + 1 + Nodes(s.left)] == r.nodes[k]
  {
    hide Block, Sub;
    SubIs(s, k + 1 + Nodes(s.left));
    Inside([root] + l.nodes, r.nodes, [], k, k + Nodes(Sub(s.right, k)));
    assert ([root] + l.nodes) + r.nodes + [] == w.nodes;
  }

  /** Every node of a block is a block of its own, with the count and output the node
      records, read between bit and the end of the whole. */
  lemma {:induction false} EveryNode(s: Shape, data: seq<Byte>, bit: nat, count: nat, payload: nat, out: nat,
                                     w: Walked, k: nat) returns (at: nat, sub: Walked)
    requires Block(s, data, bit, count, payload, out, w) && k < Nodes(s)
    ensures NodeWalk(s, data, payload, w, k, at, sub)
    ensures bit <= at && sub.bit <= w.bit
    ensures out <= w.nodes[k].output && w.nodes[k].output + w.nodes[k].count <= out + count
    decreases s, 1
  {
    Root(s, data, bit, count, payload, out, w);
    if k == 0 {
      at, sub := bit, w;
      assert w.nodes[0..Nodes(s)] == w.nodes;
    } else {
      hide Block, Sub, NodeWalk, Halved, Nodes;
      var ones, mid, l, r := HalvesOf(s, data, bit, count, payload, out, w);
      at, sub := NodeBelow(s, data, count, payload, out, w, ones, mid, l, r, k);
    }
  }

  lemma NodeBelow(s: Shape, data: seq<Byte>, count: nat, payload: nat, out: nat, w: Walked, ones: nat, mid: nat,
                  l: Walked, r: Walked, k: nat) returns (at: nat, sub: Walked)
    requires 0 < k < Nodes(s) && Halved(s, w, l, r) && ones <= count
    requires Block(s.left, data, mid, count - ones, payload, out, l) && mid <= l.bit
    requires Block(s.right, data, l.bit, ones, payload, out + count - ones, r)
    ensures NodeWalk(s, data, payload, w, k, at, sub)
    ensures mid <= at && sub.bit <= r.bit
    ensures out <= w.nodes[k].output && w.nodes[k].output + w.nodes[k].count <= out + count
    decreases s, 0
  {
    hide Block, Sub, NodeWalk;
    Root(s.right, data, l.bit, ones, payload, out + count - ones, r);
    if k <= Nodes(s.left) {
      at, sub := EveryNode(s.left, data, mid, count - ones, payload, out, l, k - 1);
      LeftNode(s, data, payload, w, w.nodes[0], l, r, k - 1, at, sub);
    } else {
      at, sub := EveryNode(s.right, data, l.bit, ones, payload, out + count - ones, r, k - 1 - Nodes(s.left));
      RightNode(s, data, payload, w, w.nodes[0], l, r, k - 1 - Nodes(s.left), at, sub);
    }
  }

  lemma SubIs(s: Shape, k: nat)
    requires 0 < k < Nodes(s)
    ensures s.Inner?
      && Sub(s, k) == if k <= Nodes(s.left) then Sub(s.left, k - 1) else Sub(s.right, k - 1 - Nodes(s.left))
  {
  }

  lemma Inside<T>(a: seq<T>, b: seq<T>, c: seq<T>, lo: nat, hi: nat)
    requires lo <= hi <= |b|
    ensures (a + b + c)[|a| + lo..|a| + hi] == b[lo..hi]
    ensures lo < hi ==> (a + b + c)[|a| + lo] == b[lo]
  {
  }

  // ---------------------------------------------------------------------------
  // Children, bits and outputs

  /** w over s is its root and the walks l and r over the halves of s. */
  ghost predicate Halved(s: Shape, w: Walked, l: Walked, r: Walked) {
    && s.Inner? && |l.nodes| == Nodes(s.left) && |r.nodes| == Nodes(s.right)
    && |w.nodes| == Nodes(s) && w.nodes == [w.nodes[0]] + l.nodes + r.nodes
  }

  lemma HalvesOf(s: Shape, data: seq<Byte>, bit: nat, count: nat, payload: nat, out: nat, w: Walked)
    returns (ones: nat, mid: nat, l: Walked, r: Walked)
    requires s.Inner? && Block(s, data, bit, count, payload, out, w)
    ensures Halved(s, w, l, r) && ones <= count
    ensures |l.nodes| == Nodes(s.left) && |r.nodes| == Nodes(s.right) && |w.nodes| == Nodes(s)
    ensures Align(bit) + count <= mid && w.nodes[0].offset == payload + Align(bit) / 8
    ensures Block(s.left, data, mid, count - ones, payload, out, l) && mid <= l.bit
    ensures Block(s.right, data, l.bit, ones, payload, out + count - ones, r) && r.bit == w.bit
  {
    ones, mid, l, r := Halves(s, data, bit, count, payload, out, w);
    Root(s, data, bit, count, payload, out, w);
    Root(s.left, data, mid, count - ones, payload, out, l);
    Root(s.right, data, l.bit, ones, payload, out + count - ones, r);
  }

  lemma LeftIs(s: Shape, w: Walked, l: Walked, r: Walked, k: nat)
    requires Halved(s, w, l, r) && 0 < k <= Nodes(s.left)
    ensures w.nodes[k] == l.nodes[k - 1] && Sub(s, k) == Sub(s.left, k - 1)
  {
    SubIs(s, k);
  }

  lemma RightIs(s: Shape, w: Walked, l: Walked, r: Walked, k: nat)
    requires Halved(s, w, l, r) && Nodes(s.left) < k < Nodes(s)
    ensures w.nodes[k] == r.nodes[k - 1 - Nodes(s.left)] && Sub(s, k) == Sub(s.right, k - 1 - Nodes(s.left))
  {
    hide Sub, Nodes;
    SubIs(s, k);
    assert w.nodes == ([w.nodes[0]] + l.nodes) + r.nodes;
  }

  /** The children of inner node k split its count and its output range: the left child
      starts where the node does, the right one where the left one ends. */
  lemma ChildrenSplit(s: Shape, data: seq<Byte>, bit: nat, count: nat, payload: nat, out: nat, w: Walked, k: nat)
    requires Block(s, data, bit, count, payload, out, w) && k < Nodes(s) && Sub(s, k).Inner?
    ensures |w.nodes| == Nodes(s) && k + 1 + Nodes(Sub(s, k).left) < Nodes(s)
    ensures var node, left, right := w.nodes[k], w.nodes[k + 1], w.nodes[k + 1 + Nodes(Sub(s, k).left)];
      && left.count + right.count == node.count
      && left.output == node.output && right.output == node.output + left.count
  {
    hide Block, Sub, Halved;
    var at, sub := EveryNode(s, data, bit, count, payload, out, w, k);
    var t := Sub(s, k);
    var ones, mid, l, r := HalvesOf(t, data, at, w.nodes[k].count, payload, w.nodes[k].output, sub);
    Root(t.left, data, mid, w.nodes[k].count - ones, payload, w.nodes[k].output, l);
    Root(t.right, data, l.bit, ones, payload, w.nodes[k].output + w.nodes[k].count - ones, r);
    LeftIs(t, sub, l, r, 1);
    RightIs(t, sub, l, r, 1 + Nodes(t.left));
  }

  /** How many bits a node keeps at its offset, not counting an inner node's child count. */
  function OwnBits(t: Shape, count: nat): nat {
    if t.Leaf? then LeafBits(count, t.depth) else count
  }

  /** Only the leaves of constant symbols keep none. */
  predicate HasBits(t: Shape) { t.Inner? || t.depth != 0 }

  /** The first bit of a node in the lane. */
  function FirstBit(n: NodeBits, payload: nat): int { 8 * (n.offset - payload) }

  lemma OwnSpan(s: Shape, data: seq<Byte>, bit: nat, count: nat, payload: nat, out: nat, w: Walked)
    requires Block(s, data, bit, count, payload, out, w) && HasBits(s)
    ensures |w.nodes| == Nodes(s)
    ensures bit <= FirstBit(w.nodes[0], payload)
      && FirstBit(w.nodes[0], payload) + OwnBits(s, count) <= w.bit <= 8 * |data|
    ensures payload <= w.nodes[0].offset <= UINT32_MAX
  {
    if s.Inner? {
      var ones, mid, l, r := Halves(s, data, bit, count, payload, out, w);
    }
  }

  /** The bits of node k lie inside the lane, between the cursor's start and end. */
  lemma BitsInLane(s: Shape, data: seq<Byte>, bit: nat, count: nat, payload: nat, out: nat, w: Walked, k: nat)
    requires Block(s, data, bit, count, payload, out, w) && k < Nodes(s) && HasBits(Sub(s, k))
    ensures |w.nodes| == Nodes(s) && payload <= w.nodes[k].offset <= UINT32_MAX
    ensures bit <= FirstBit(w.nodes[k], payload)
    ensures FirstBit(w.nodes[k], payload) + OwnBits(Sub(s, k), w.nodes[k].count) <= w.bit <= 8 * |data|
  {
    var at, sub := EveryNode(s, data, bit, count, payload, out, w, k);
    Root(s, data, bit, count, payload, out, w);
    OwnSpan(Sub(s, k), data, at, w.nodes[k].count, payload, w.nodes[k].output, sub);
  }

  /** A node above or left of the right half ends before the right half starts. */
  lemma EndsBefore(s: Shape, data: seq<Byte>, bit: nat, count: nat, payload: nat, out: nat, w: Walked, ones: nat,
                   mid: nat, l: Walked, r: Walked, i: nat)
    requires Halved(s, w, l, r) && ones <= count && Block(s.left, data, mid, count - ones, payload, out, l)
      && mid <= l.bit
    requires Align(bit) + count <= mid && w.nodes[0].offset == payload + Align(bit) / 8 && w.nodes[0].count == count
    requires i <= Nodes(s.left) && HasBits(Sub(s, i))
    ensures FirstBit(w.nodes[i], payload) + OwnBits(Sub(s, i), w.nodes[i].count) <= if i == 0 then mid else l.bit
  {
    hide Block, Align, HasBits, OwnBits, Sub;
    if i == 0 {
      RootBits(s, data, bit, count, payload, out, w, mid);
    } else {
      LeftIs(s, w, l, r, i);
      BitsInLane(s.left, data, mid, count - ones, payload, out, l, i - 1);
    }
  }

  /** The bits of different nodes do not overlap: they follow one another in pre-order. */
  lemma {:induction false} BitsAscend(s: Shape, data: seq<Byte>, bit: nat, count: nat, payload: nat, out: nat,
                                      w: Walked, i: nat, j: nat)
    requires Block(s, data, bit, count, payload, out, w) && i < j < Nodes(s) && HasBits(Sub(s, i)) && HasBits(Sub(s, j))
    ensures |w.nodes| == Nodes(s)
    ensures FirstBit(w.nodes[i], payload) + OwnBits(Sub(s, i), w.nodes[i].count) <= FirstBit(w.nodes[j], payload)
    decreases s
  {
    hide Block, Sub, OwnBits, HasBits, Halved, FirstBit;
    Root(s, data, bit, count, payload, out, w);
    var ones, mid, l, r := HalvesOf(s, data, bit, count, payload, out, w);
    if j <= Nodes(s.left) {
      LeftIs(s, w, l, r, j);
      if i > 0 {
        LeftIs(s, w, l, r, i);
        BitsAscend(s.left, data, mid, count - ones, payload, out, l, i - 1, j - 1);
      } else {
        EndsBefore(s, data, bit, count, payload, out, w, ones, mid, l, r, i);
        BitsInLane(s.left, data, mid, count - ones, payload, out, l, j - 1);
      }
    } else {
      RightIs(s, w, l, r, j);
      if i > Nodes(s.left) {
        RightIs(s, w, l, r, i);
        BitsAscend(s.right, data, l.bit, ones, payload, out + count - ones, r, i - 1 - Nodes(s.left),
          j - 1 - Nodes(s.left));
      } else {
        EndsBefore(s, data, bit, count, payload, out, w, ones, mid, l, r, i);
        BitsInLane(s.right, data, l.bit, ones, payload, out + count - ones, r, j - 1 - Nodes(s.left));
      }
    }
  }

  lemma RootBits(s: Shape, data: seq<Byte>, bit: nat, count: nat, payload: nat, out: nat, w: Walked, mid: nat)
    requires s.Inner? && |w.nodes| > 0 && w.nodes[0].offset == payload + Align(bit) / 8 && Align(bit) + count <= mid
    ensures FirstBit(w.nodes[0], payload) + OwnBits(Sub(s, 0), count) <= mid
  {
  }

  /** Leaf k writes output position p. */
  ghost predicate Writes(s: Shape, nodes: seq<NodeBits>, k: nat, p: nat)
    requires |nodes| == Nodes(s)
  {
    k < Nodes(s) && Sub(s, k).Leaf? && nodes[k].output <= p < nodes[k].output + nodes[k].count
  }

  /** The leaves' output ranges partition the block's: every position is written by
      some leaf ... */
  lemma {:induction false} SomeLeafWrites(s: Shape, data: seq<Byte>, bit: nat, count: nat, payload: nat, out: nat,
                                          w: Walked, p: nat) returns (k: nat)
    requires Block(s, data, bit, count, payload, out, w) && out <= p < out + count
    ensures |w.nodes| == Nodes(s) && Writes(s, w.nodes, k, p)
    decreases s
  {
    Root(s, data, bit, count, payload, out, w);
    if s.Leaf? {
      k := 0;
    } else {
      var ones, mid, l, r := HalvesOf(s, data, bit, count, payload, out, w);
      hide Block, Halved;
      if p < out + count - ones {
        var j := SomeLeafWrites(s.left, data, mid, count - ones, payload, out, l, p);
        k := j + 1;
        LeftIs(s, w, l, r, k);
      } else {
        var j := SomeLeafWrites(s.right, data, l.bit, ones, payload, out + count - ones, r, p);
        k := j + 1 + Nodes(s.left);
        RightIs(s, w, l, r, k);
      }
    }
  }

  lemma WritesInside(s: Shape, data: seq<Byte>, bit: nat, count: nat, payload: nat, out: nat, w: Walked, k: nat, p: nat)
    requires Block(s, data, bit, count, payload, out, w)
    requires |w.nodes| == Nodes(s) && Writes(s, w.nodes, k, p)
    ensures out <= p < out + count
  {
    var _, _ := EveryNode(s, data, bit, count, payload, out, w, k);
  }

  /** A leaf of an inner block is a leaf of the half its position lies in. */
  lemma WriterSide(s: Shape, data: seq<Byte>, count: nat, payload: nat, out: nat, w: Walked, ones: nat, mid: nat,
                   l: Walked, r: Walked, k: nat, p: nat)
    requires Halved(s, w, l, r) && ones <= count && Writes(s, w.nodes, k, p)
    requires Block(s.left, data, mid, count - ones, payload, out, l)
      && Block(s.right, data, l.bit, ones, payload, out + count - ones, r)
    ensures 0 < k && out <= p < out + count
    ensures p < out + (count - ones) <==> k <= Nodes(s.left)
    ensures p < out + (count - ones) ==> Writes(s.left, l.nodes, k - 1, p)
    ensures p >= out + (count - ones) ==> Writes(s.right, r.nodes, k - 1 - Nodes(s.left), p)
  {
    hide Block;
    assert k > 0;
    if k <= Nodes(s.left) {
      LeftIs(s, w, l, r, k);
      WritesInside(s.left, data, mid, count - ones, payload, out, l, k - 1, p);
    } else {
      RightIs(s, w, l, r, k);
      WritesInside(s.right, data, l.bit, ones, payload, out + count - ones, r, k - 1 - Nodes(s.left), p);
    }
  }

  lemma OneNode(s: Shape, nodes: seq<NodeBits>, k: nat, p: nat)
    requires s.Leaf? && |nodes| == Nodes(s) && Writes(s, nodes, k, p)
    ensures k == 0
  {
  }

  /** ... and by one leaf alone. */
  lemma {:induction false} OneLeafWrites(s: Shape, data: seq<Byte>, bit: nat, count: nat, payload: nat, out: nat,
                                         w: Walked, p: nat, i: nat, j: nat)
    requires Block(s, data, bit, count, payload, out, w)
    requires |w.nodes| == Nodes(s) && Writes(s, w.nodes, i, p) && Writes(s, w.nodes, j, p)
    ensures i == j
    decreases s
  {
    hide Block, Halved, Writes, Sub, Nodes;
    if s.Leaf? {
      OneNode(s, w.nodes, i, p);
      OneNode(s, w.nodes, j, p);
    } else {
      var ones, mid, l, r := HalvesOf(s, data, bit, count, payload, out, w);
      WriterSide(s, data, count, payload, out, w, ones, mid, l, r, i, p);
      WriterSide(s, data, count, payload, out, w, ones, mid, l, r, j, p);
      if p < out + (count - ones) {
        OneLeafWrites(s.left, data, mid, count - ones, payload, out, l, p, i - 1, j - 1);
      } else {
        OneLeafWrites(s.right, data, l.bit, ones, payload, out + count - ones, r, p, i - 1 - Nodes(s.left),
          j - 1 - Nodes(s.left));
      }
    }
  }

  // ---------------------------------------------------------------------------
  // The walk does not depend on where the output goes

  function Moved(n: NodeBits, shift: nat): NodeBits { n.(output := n.output + shift) }

  function MovedAll(nodes: seq<NodeBits>, shift: nat): (m: seq<NodeBits>)
    ensures |m| == |nodes|
  {
    seq(|nodes|, i requires 0 <= i < |nodes| => Moved(nodes[i], shift))
  }

  lemma MovedAppend(a: seq<NodeBits>, b: seq<NodeBits>, shift: nat)
    ensures MovedAll(a + b, shift) == MovedAll(a, shift) + MovedAll(b, shift)
  {
  }

  /** Moving the output moves every node's range and nothing else, as long as all of it
      stays below 2^32. */
  lemma {:induction false} WalkMoves(s: Shape, data: seq<Byte>, bit: nat, count: nat, payload: nat, out: nat,
                                     shift: nat)
    requires bit <= 8 * |data| && out + count + shift <= UINT32_MAX
    ensures Walk(s, data, bit, count, payload, out + shift).Some? <==> Walk(s, data, bit, count, payload, out).Some?
    ensures Walk(s, data, bit, count, payload, out).Some? ==>
      var w := Walk(s, data, bit, count, payload, out).value;
      Walk(s, data, bit, count, payload, out + shift) == Some(Walked(w.bit, MovedAll(w.nodes, shift)))
    decreases s
  {
    hide WalkChildren, Align, NodeEnd, Ones, LeafBits;
    var root := NodeBits(payload + Align(bit) / 8, count, out);
    assert MovedAll([root], shift) == [Moved(root, shift)];
    assert MovedAll([NodeBits(0, count, out)], shift) == [Moved(NodeBits(0, count, out), shift)];
    if s.Inner? && NodeEnd(data, Align(bit), count, s.bothConstant).Some? {
      var mid, ones := NodeEnd(data, Align(bit), count, s.bothConstant).value, Ones(data, Align(bit), count);
      ChildrenMove(s, data, mid, count, ones, payload, out, shift);
      var c := WalkChildren(s, data, mid, count, ones, payload, out);
      if c.Some? {
        MovedAppend([root], c.value.nodes, shift);
      }
    }
  }

  lemma {:induction false} ChildrenMove(s: Shape, data: seq<Byte>, mid: nat, count: nat, ones: nat, payload: nat,
                                        out: nat, shift: nat)
    requires s.Inner? && ones <= count && mid <= 8 * |data| && out + count + shift <= UINT32_MAX
    ensures WalkChildren(s, data, mid, count, ones, payload, out + shift).Some? <==>
      WalkChildren(s, data, mid, count, ones, payload, out).Some?
    ensures WalkChildren(s, data, mid, count, ones, payload, out).Some? ==>
      var w := WalkChildren(s, data, mid, count, ones, payload, out).value;
      WalkChildren(s, data, mid, count, ones, payload, out + shift) == Some(Walked(w.bit, MovedAll(w.nodes, shift)))
    decreases s, 0
  {
    hide Walk, MovedAll;
    WalkMoves(s.left, data, mid, count - ones, payload, out, shift);
    var l := Walk(s.left, data, mid, count - ones, payload, out);
    if l.Some? {
      WalkMoves(s.right, data, l.value.bit, ones, payload, out + count - ones, shift);
      var r := Walk(s.right, data, l.value.bit, ones, payload, out + count - ones);
      assert out + shift + count - ones == out + count - ones + shift;
      if r.Some? {
        MovedAppend(l.value.nodes, r.value.nodes, shift);
      }
    }
  }
}
