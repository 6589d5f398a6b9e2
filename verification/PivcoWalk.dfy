/** The walk over one PivCo block: a bit cursor follows the tree in pre-order, records
    every node's bits and output range, and checks the encoded child counts. */
module PivcoWalk {
  import opened Common
  import opened Words
  import opened BitIO
  import opened PforFormat
  import opened Popcount
  import PforDecode
  import opened PivcoTree

  datatype NodeBits = NodeBits(offset: nat, count: nat, output: nat)

  const NO_BITS := NodeBits(0, 0, 0)

  // ---------------------------------------------------------------------------
  // Bits of a lane

  /** n bits of a byte string from bit at on. */
  ghost function Slice(data: seq<Byte>, at: nat, n: nat): (w: Bits)
    requires at + n <= 8 * |data|
    ensures |w| == n && forall i :: 0 <= i < n ==> w[i] == BitAt(data, at + i)
  {
    seq(n, i requires 0 <= i < n => BitAt(data, at + i))
  }

  ghost function Ones(data: seq<Byte>, at: nat, n: nat): (ones: nat)
    requires at + n <= 8 * |data|
    ensures ones <= n
  {
    Rank(Slice(data, at, n), n)
  }

  function Align(bit: nat): (a: nat)
    ensures bit <= a < bit + 8 && a % 8 == 0
  {
    (bit + 7) / 8 * 8
  }

  /** The least c with n < 2^c. */
  function CountBits(n: nat): (c: nat)
    ensures n < Pow2(c) && (c > 0 ==> Pow2(c - 1) <= n)
  {
    if n == 0 then 0 else 1 + CountBits(n / 2)
  }

  lemma {:induction false} PowMono(a: nat, b: nat)
    requires a <= b
    ensures Pow2(a) <= Pow2(b)
  {
    if a < b {
      PowMono(a, b - 1);
    }
  }

  lemma OnesAdd(data: seq<Byte>, at: nat, n: nat, more: nat, w: Bits)
    requires at + n + more <= 8 * |data| && more <= |w|
    requires forall i :: 0 <= i < more ==> w[i] == BitAt(data, at + n + i)
    ensures Ones(data, at, n + more) == Ones(data, at, n) + Rank(w, more)
  {
    var whole := Slice(data, at, n + more);
    forall k | 0 <= k < more ensures w[k] == whole[n + k] {
      assert whole[n + k] == BitAt(data, at + (n + k));
    }
    PforDecode.RankWord(whole, w, n, more);
    RankSame(whole, Slice(data, at, n), n);
  }

  method WordOnes(data: seq<Byte>, p: nat, words: nat) returns (ones: nat)
    requires 8 * p + 64 * words <= 8 * |data|
    ensures ones == Ones(data, 8 * p, 64 * words)
  {
    hide Ones, Slice;
    ones := 0;
    assert Ones(data, 8 * p, 0) == 0;
    for i := 0 to words
      invariant ones == Ones(data, 8 * p, 64 * i)
    {
      var word := LoadLe64(data, p + 8 * i);
      OnesAdd(data, 8 * p, 64 * i, 64, word);
      var c := Popcount64(word);
      ones := ones + c;
    }
  }

  method ByteOnes(data: seq<Byte>, p: nat, from: nat, to: nat, before: nat) returns (ones: nat)
    requires from <= to && p + to <= |data| && before == Ones(data, 8 * p, 8 * from)
    ensures ones == Ones(data, 8 * p, 8 * to)
  {
    hide Ones, Slice;
    ones := before;
    for i := from to to
      invariant ones == Ones(data, 8 * p, 8 * i)
    {
      OnesAdd(data, 8 * p, 8 * i, 8, data[p + i]);
      var c := Popcount8(data[p + i]);
      ones := ones + c;
    }
  }

  /** bitmap_ones: 64-bit words, then bytes, then the bits left over. */
  method BitmapOnes(data: seq<Byte>, p: nat, bits: nat) returns (ones: nat)
    requires 8 * p + bits <= 8 * |data|
    ensures ones == Ones(data, 8 * p, bits)
  {
    hide Ones, Slice;
    var words, bytes, tail := bits / 64, bits / 8, bits % 8;
    ones := WordOnes(data, p, words);
    ones := ByteOnes(data, p, 8 * words, bytes, ones);
    if tail != 0 {
      var c := Popcount8(And(data[p + bytes], Mask(8, tail)));
      Masked(data[p + bytes], tail);
      OnesAdd(data, 8 * p, 8 * bytes, tail, data[p + bytes]);
      ones := ones + c;
    }
  }

  lemma Masked(b: Byte, tail: nat)
    requires tail < 8
    ensures Rank(And(b, Mask(8, tail)), 8) == Rank(b, tail)
  {
    RankFlat(And(b, Mask(8, tail)), tail, 8);
    RankSame(And(b, Mask(8, tail)), b, tail);
  }

  class BitCursor {
    const data: seq<Byte>
    var bit: nat

    constructor (data: seq<Byte>)
      ensures this.data == data && bit == 0
    {
      this.data := data;
      bit := 0;
    }

    ghost predicate Valid()
      reads this
    {
      bit <= 8 * |data|
    }

    /** cursor_read */
    method Read(bits: nat) returns (ok: bool, value: nat)
      requires Valid()
      modifies this
      ensures Valid()
      ensures ok <==> bits <= 32 && bits <= 8 * |data| - old(bit)
      ensures ok ==> bit == old(bit) + bits && value == Value(Slice(data, old(bit), bits))
      ensures !ok ==> bit == old(bit)
    {
      if bits > 32 || bit > 8 * |data| || bits > 8 * |data| - bit {
        return false, 0;
      }
      var result: Bits := [];
      while |result| < bits
        invariant |result| <= bits && bit == old(bit) + |result| && Valid()
        invariant result == Slice(data, old(bit), |result|)
      {
        result := result + [data[bit / 8][bit % 8]];
        bit := bit + 1;
      }
      return true, Value(result);
    }

    /** cursor_align_byte */
    method AlignByte() returns (ok: bool)
      requires Valid()
      modifies this
      ensures Valid() && ok && bit == Align(old(bit))
    {
      bit := Align(bit);
      ok := bit <= 8 * |data|;
    }
  }

  // ---------------------------------------------------------------------------
  // What a block means

  datatype Walked = Walked(bit: nat, nodes: seq<NodeBits>)

  function LeafBits(count: nat, depth: nat): nat { count * depth }

  /** The cursor after, and the bits of, the nodes of s for count symbols whose block
      starts at bit; None when the lane is malformed. */
  ghost function Walk(s: Shape, data: seq<Byte>, bit: nat, count: nat, payload: nat, out: nat): (w: Option<Walked>)
    requires bit <= 8 * |data|
    ensures w.Some? ==> bit <= w.value.bit <= 8 * |data| && |w.value.nodes| == Nodes(s)
    decreases s, 1
  {
    if count > UINT32_MAX || out > UINT32_MAX then None
    else
      match s
      case Leaf(_, depth, _) =>
        if depth == 0 then Some(Walked(bit, [NodeBits(0, count, out)]))
        else if Align(bit) + LeafBits(count, depth) > 8 * |data| || payload + Align(bit) / 8 > UINT32_MAX then None
        else Some(Walked(Align(bit) + LeafBits(count, depth), [NodeBits(payload + Align(bit) / 8, count, out)]))
      case Inner(_, _, both, _, _) =>
        var after := NodeEnd(data, Align(bit), count, both);
        if after.None? || payload + Align(bit) / 8 > UINT32_MAX then None
        else
          var children := WalkChildren(s, data, after.value, count, Ones(data, Align(bit), count), payload, out);
          if children.None? then None
          else Some(Walked(children.value.bit, [NodeBits(payload + Align(bit) / 8, count, out)] + children.value.nodes))
  }

  /** The zeros go left, the ones go right. */
  ghost function WalkChildren(s: Shape, data: seq<Byte>, bit: nat, count: nat, ones: nat, payload: nat,
                              out: nat): (w: Option<Walked>)
    requires s.Inner? && ones <= count && bit <= 8 * |data|
    ensures w.Some? ==> bit <= w.value.bit <= 8 * |data| && |w.value.nodes| == Nodes(s.left) + Nodes(s.right)
    decreases s, 0
  {
    var left := Walk(s.left, data, bit, count - ones, payload, out);
    if left.None? then None
    else
      var right := Walk(s.right, data, left.value.bit, ones, payload, out + count - ones);
      if right.None? then None
      else Some(Walked(right.value.bit, left.value.nodes + right.value.nodes))
  }

  /** Where an inner node's bits end: a bitmap of count bits and, unless both children
      are constant, the number of ones in it, which must be right. */
  ghost function NodeEnd(data: seq<Byte>, at: nat, count: nat, both: bool): (end: Option<nat>)
    ensures end.Some? ==> at + count <= end.value <= 8 * |data|
  {
    if at + count > 8 * |data| then None
    else if both then Some(at + count)
    else if at + count + CountBits(count) > 8 * |data| then None
    else if Value(Slice(data, at + count, CountBits(count))) != Ones(data, at, count) then None
    else Some(at + count + CountBits(count))
  }

  // ---------------------------------------------------------------------------
  // The walk

  /** The number of bits the encoder used for a count of ones. */
  method WidthOfCount(count: nat) returns (countBits: nat)
    requires count <= UINT32_MAX
    ensures countBits == CountBits(count) && countBits <= 32
  {
    countBits := 0;
    var power := 1;
    if CountBits(count) > 32 {
      PowMono(32, CountBits(count) - 1);
      Pow32();
      assert false;
    }
    while power < count + 1
      invariant power == Pow2(countBits) && countBits <= CountBits(count)
      decreases CountBits(count) - countBits
    {
      if countBits == CountBits(count) {
        assert false;
      }
      countBits := countBits + 1;
      power := 2 * power;
    }
    if countBits < CountBits(count) {
      PowMono(countBits, CountBits(count) - 1);
      assert false;
    }
  }

  lemma Pow32()
    ensures Pow2(32) == UINT32_MAX + 1
  {
    assert Pow2(8) == 256 by { BytePow(); }
    assert Pow2(16) == 0x1_0000;
    assert Pow2(24) == 0x100_0000;
  }

  /** An inner node's bitmap and child count. */
  method ReadNode(cursor: BitCursor, count: nat, both: bool) returns (ok: bool, ones: nat)
    requires cursor.Valid() && count <= UINT32_MAX
    requires cursor.bit % 8 == 0
    modifies cursor
    ensures cursor.Valid()
    ensures ok <==> NodeEnd(cursor.data, old(cursor.bit), count, both).Some?
    ensures ok ==> cursor.bit == NodeEnd(cursor.data, old(cursor.bit), count, both).value
    ensures ok ==> ones == Ones(cursor.data, old(cursor.bit), count)
  {
    ones := 0;
    if count > 8 * |cursor.data| - cursor.bit {
      return false, 0;
    }
    var p := cursor.bit / 8;
    cursor.bit := cursor.bit + count;
    ones := BitmapOnes(cursor.data, p, count);
    ok := true;
    if !both {
      var countBits := WidthOfCount(count);
      var encodedOnes;
      ok, encodedOnes := cursor.Read(countBits);
      ok := ok && encodedOnes <= count && ones == encodedOnes;
    }
  }

  ghost predicate SameBut<T>(before: seq<T>, after: seq<T>, lo: nat, hi: nat) {
    |after| == |before| && forall i :: 0 <= i < |before| && !(lo <= i < hi) ==> after[i] == before[i]
  }

  ghost predicate Filled<T>(s: seq<T>, at: nat, part: seq<T>) {
    at + |part| <= |s| && forall i :: at <= i < at + |part| ==> s[i] == part[i - at]
  }

  lemma FilledTwo<T>(a: seq<T>, b: seq<T>, c: seq<T>, at: nat, left: seq<T>, right: seq<T>)
    requires SameBut(a, b, at, at + |left|) && Filled(b, at, left)
    requires SameBut(b, c, at + |left|, at + |left| + |right|) && Filled(c, at + |left|, right)
    ensures SameBut(a, c, at, at + |left| + |right|) && Filled(c, at, left + right)
  {
  }

  lemma NodeKind(nodes: seq<TreeNode>, both: seq<bool>, at: nat, s: Shape)
    requires Laid(nodes, both, at, s) && |nodes| <= MAX_TREE_NODES
    ensures IsLeaf(nodes[at]) <==> s.Leaf?
    ensures s.Leaf? ==> DepthOf(nodes[at]) == s.depth
  {
    if s.Leaf? {
      LeafFields(s.first, s.depth, s.level);
    } else {
      LaidInner(nodes, both, at, s);
    }
  }

  lemma LaidInner(nodes: seq<TreeNode>, both: seq<bool>, at: nat, s: Shape)
    requires s.Inner? && Laid(nodes, both, at, s) && |nodes| <= MAX_TREE_NODES
    ensures !IsLeaf(nodes[at]) && LeftOf(nodes[at]) == at + 1 && RightOf(nodes[at]) == at + 1 + Nodes(s.left)
    ensures both[at] == s.bothConstant
    ensures Laid(nodes, both, at + 1, s.left) && Laid(nodes, both, at + 1 + Nodes(s.left), s.right)
  {
    InnerFields(s.first, s.level, at + 1, at + 1 + Nodes(s.left));
  }

  /** What a walk leaves behind: output slots at .. at + n and the cursor. */
  ghost predicate Recorded(w: Option<Walked>, ok: bool, bit: nat, before: seq<NodeBits>, after: seq<NodeBits>, at: nat,
                           n: nat) {
    && (ok <==> w.Some?)
    && (w.Some? ==> bit == w.value.bit && |w.value.nodes| == n && Filled(after, at, w.value.nodes))
    && SameBut(before, after, at, at + n)
  }

  lemma LeafRecorded(s: Shape, data: seq<Byte>, bit: nat, count: nat, payload: nat, out: nat, ok: bool, end: nat,
                     before: seq<NodeBits>, after: seq<NodeBits>, at: nat)
    requires s.Leaf? && bit <= 8 * |data| && count <= UINT32_MAX && out <= UINT32_MAX
    requires at < |after| && SameBut(before, after, at, at + 1)
    requires s.depth == 0 ==> ok && end == bit && after[at] == NodeBits(0, count, out)
    requires s.depth != 0 ==>
      (ok <==> Align(bit) + LeafBits(count, s.depth) <= 8 * |data| && payload + Align(bit) / 8 <= UINT32_MAX)
    requires s.depth != 0 && ok ==>
      end == Align(bit) + LeafBits(count, s.depth) && after[at] == NodeBits(payload + Align(bit) / 8, count, out)
    ensures Recorded(Walk(s, data, bit, count, payload, out), ok, end, before, after, at, 1)
  {
  }

  lemma InnerRefused(s: Shape, data: seq<Byte>, bit: nat, count: nat, payload: nat, out: nat, end: nat,
                     before: seq<NodeBits>, after: seq<NodeBits>, at: nat)
    requires bit <= 8 * |data| && SameBut(before, after, at, at + 1)
    requires count > UINT32_MAX || out > UINT32_MAX
      || (s.Inner? && (payload + Align(bit) / 8 > UINT32_MAX || NodeEnd(data, Align(bit), count, s.bothConstant).None?))
    ensures Recorded(Walk(s, data, bit, count, payload, out), false, end, before, after, at, Nodes(s))
  {
  }

  lemma InnerRecorded(s: Shape, data: seq<Byte>, bit: nat, count: nat, payload: nat, out: nat, ok: bool, end: nat,
                      before: seq<NodeBits>, mid: seq<NodeBits>, after: seq<NodeBits>, at: nat)
    requires s.Inner? && bit <= 8 * |data| && count <= UINT32_MAX && out <= UINT32_MAX
      && payload + Align(bit) / 8 <= UINT32_MAX
    requires NodeEnd(data, Align(bit), count, s.bothConstant).Some?
    requires at < |mid| && SameBut(before, mid, at, at + 1) && mid[at] == NodeBits(payload + Align(bit) / 8, count, out)
    requires Recorded(WalkChildren(s, data, NodeEnd(data, Align(bit), count, s.bothConstant).value, count,
      Ones(data, Align(bit), count), payload, out), ok, end, mid, after, at + 1, Nodes(s.left) + Nodes(s.right))
    ensures Recorded(Walk(s, data, bit, count, payload, out), ok, end, before, after, at, Nodes(s))
  {
    var children :=
      WalkChildren(s, data, NodeEnd(data, Align(bit), count, s.bothConstant).value, count,
        Ones(data, Align(bit), count), payload, out);
    if ok {
      FilledTwo(before, mid, after, at, [mid[at]], children.value.nodes);
    }
  }

  lemma ChildrenRefused(s: Shape, data: seq<Byte>, bit: nat, count: nat, ones: nat, payload: nat, out: nat, end: nat,
                        before: seq<NodeBits>, after: seq<NodeBits>, at: nat)
    requires s.Inner? && ones <= count && bit <= 8 * |data|
    requires Recorded(Walk(s.left, data, bit, count - ones, payload, out), false, end, before, after, at, Nodes(s.left))
    ensures Recorded(WalkChildren(s, data, bit, count, ones, payload, out), false, end, before, after, at,
      Nodes(s.left) + Nodes(s.right))
  {
  }

  lemma ChildrenRecorded(s: Shape, data: seq<Byte>, bit: nat, count: nat, ones: nat, payload: nat, out: nat, ok: bool,
                         mark: nat, end: nat, before: seq<NodeBits>, mid: seq<NodeBits>, after: seq<NodeBits>, at: nat)
    requires s.Inner? && ones <= count && bit <= 8 * |data| && mark <= 8 * |data|
    requires Recorded(Walk(s.left, data, bit, count - ones, payload, out), true, mark, before, mid, at, Nodes(s.left))
    requires Recorded(Walk(s.right, data, mark, ones, payload, out + count - ones), ok, end, mid, after,
      at + Nodes(s.left), Nodes(s.right))
    ensures Recorded(WalkChildren(s, data, bit, count, ones, payload, out), ok, end, before, after, at,
      Nodes(s.left) + Nodes(s.right))
  {
    hide Walk;
    if ok {
      FilledTwo(before, mid, after, at, Walk(s.left, data, bit, count - ones, payload, out).value.nodes,
        Walk(s.right, data, mark, ones, payload, out + count - ones).value.nodes);
    }
  }

  /** walk_block: output[base + k] gets the bits of node k. */
  method WalkBlock(nodes: seq<TreeNode>, both: seq<bool>, node: nat, count: nat, cursor: BitCursor, payload: nat,
                   out: nat, output: array<NodeBits>, base: nat, ghost s: Shape)
    returns (ok: bool)
    requires cursor.Valid() && Laid(nodes, both, node, s) && |nodes| <= MAX_TREE_NODES
      && base + |nodes| <= output.Length
    modifies cursor, output
    ensures cursor.Valid()
    ensures Recorded(Walk(s, cursor.data, old(cursor.bit), count, payload, out), ok, cursor.bit, old(output[..]),
      output[..], base + node, Nodes(s))
    decreases s, 3
  {
    ghost var before, bit := output[..], cursor.bit;
    if node >= |nodes| || count > UINT32_MAX || out > UINT32_MAX {
      InnerRefused(s, cursor.data, bit, count, payload, out, bit, before, before, base + node);
      return false;
    }
    var treeNode := nodes[node];
    output[base + node] := NodeBits(0, count, out);
    NodeKind(nodes, both, node, s);
    if IsLeaf(treeNode) {
      ok := WalkLeaf(DepthOf(treeNode), cursor, count, payload, out, output, base + node);
      LeafRecorded(s, cursor.data, bit, count, payload, out, ok, cursor.bit, before, output[..], base + node);
    } else {
      ok := WalkInner(nodes, both, node, count, cursor, payload, out, output, base, s, before);
    }
  }

  /** The part of walk_block before the recursive calls, at an inner node. */
  method EnterInner(cursor: BitCursor, count: nat, both: bool, payload: nat, out: nat, output: array<NodeBits>,
                    slot: nat, ghost before: seq<NodeBits>) returns (ok: bool, ones: nat)
    requires cursor.Valid() && count <= UINT32_MAX && slot < output.Length
      && SameBut(before, output[..], slot, slot + 1)
    modifies cursor, output
    ensures cursor.Valid()
    ensures ok <==>
      payload + Align(old(cursor.bit)) / 8 <= UINT32_MAX
        && NodeEnd(cursor.data, Align(old(cursor.bit)), count, both).Some?
    ensures ok ==> cursor.bit == NodeEnd(cursor.data, Align(old(cursor.bit)), count, both).value
    ensures ok ==>
      && ones == Ones(cursor.data, Align(old(cursor.bit)), count)
      && output[slot] == NodeBits(payload + Align(old(cursor.bit)) / 8, count, out)
    ensures SameBut(before, output[..], slot, slot + 1)
  {
    ones := 0;
    ok := cursor.AlignByte();
    if !ok || payload > UINT32_MAX - cursor.bit / 8 {
      return false, 0;
    }
    output[slot] := NodeBits(payload + cursor.bit / 8, count, out);
    ok, ones := ReadNode(cursor, count, both);
  }

  method WalkInner(nodes: seq<TreeNode>, both: seq<bool>, node: nat, count: nat, cursor: BitCursor, payload: nat,
                   out: nat, output: array<NodeBits>, base: nat, ghost s: Shape, ghost before: seq<NodeBits>)
    returns (ok: bool)
    requires cursor.Valid() && Laid(nodes, both, node, s) && |nodes| <= MAX_TREE_NODES
      && base + |nodes| <= output.Length
    requires s.Inner? && count <= UINT32_MAX && out <= UINT32_MAX
      && SameBut(before, output[..], base + node, base + node + 1)
    modifies cursor, output
    ensures cursor.Valid()
    ensures Recorded(Walk(s, cursor.data, old(cursor.bit), count, payload, out), ok, cursor.bit, before, output[..],
      base + node, Nodes(s))
    decreases s, 2
  {
    ghost var bit := cursor.bit;
    LaidInner(nodes, both, node, s);
    hide Laid, Walk, WalkChildren, Recorded, NodeEnd, Ones, Align, SameBut;
    var ones;
    ok, ones := EnterInner(cursor, count, both[node], payload, out, output, base + node, before);
    if ok {
      ok := WalkEntered(nodes, both, node, ones, count, cursor, payload, out, output, base, s, before, bit);
    } else {
      InnerRefused(s, cursor.data, bit, count, payload, out, cursor.bit, before, output[..], base + node);
    }
  }

  method WalkEntered(nodes: seq<TreeNode>, both: seq<bool>, node: nat, ones: nat, count: nat, cursor: BitCursor,
                     payload: nat, out: nat, output: array<NodeBits>, base: nat, ghost s: Shape,
                     ghost before: seq<NodeBits>, ghost bit: nat)
    returns (ok: bool)
    requires cursor.Valid() && Laid(nodes, both, node, s) && |nodes| <= MAX_TREE_NODES
      && base + |nodes| <= output.Length
    requires s.Inner? && count <= UINT32_MAX && out <= UINT32_MAX
      && SameBut(before, output[..], base + node, base + node + 1)
    requires bit <= 8 * |cursor.data| && payload + Align(bit) / 8 <= UINT32_MAX
      && NodeEnd(cursor.data, Align(bit), count, s.bothConstant).Some?
    requires cursor.bit == NodeEnd(cursor.data, Align(bit), count, s.bothConstant).value
      && ones == Ones(cursor.data, Align(bit), count)
    requires output[base + node] == NodeBits(payload + Align(bit) / 8, count, out)
    modifies cursor, output
    ensures cursor.Valid()
    ensures Recorded(Walk(s, cursor.data, bit, count, payload, out), ok, cursor.bit, before, output[..], base + node,
      Nodes(s))
    decreases s, 1
  {
    hide Laid, Walk, WalkChildren, Recorded, NodeEnd, Ones, Align, SameBut;
    LaidInner(nodes, both, node, s);
    ghost var mid := output[..];
    assert base + node < |mid|;
    ok := WalkBoth(nodes, both, node, ones, count, cursor, payload, out, output, base, s);
    InnerRecorded(s, cursor.data, bit, count, payload, out, ok, cursor.bit, before, mid, output[..], base + node);
  }

  /** The recursive calls of walk_block. */
  method WalkBoth(nodes: seq<TreeNode>, both: seq<bool>, node: nat, ones: nat, count: nat, cursor: BitCursor,
                  payload: nat, out: nat, output: array<NodeBits>, base: nat, ghost s: Shape)
    returns (ok: bool)
    requires cursor.Valid() && Laid(nodes, both, node, s) && |nodes| <= MAX_TREE_NODES
      && base + |nodes| <= output.Length
    requires s.Inner? && ones <= count
    modifies cursor, output
    ensures cursor.Valid()
    ensures Recorded(WalkChildren(s, cursor.data, old(cursor.bit), count, ones, payload, out), ok, cursor.bit,
      old(output[..]), output[..], base + node + 1, Nodes(s.left) + Nodes(s.right))
    decreases s, 0
  {
    hide Laid, Walk, WalkChildren, Recorded;
    ghost var before, bit := output[..], cursor.bit;
    LaidInner(nodes, both, node, s);
    ok := WalkBlock(nodes, both, LeftOf(nodes[node]), count - ones, cursor, payload, out, output, base, s.left);
    ghost var mid, mark := output[..], cursor.bit;
    if !ok {
      ChildrenRefused(s, cursor.data, bit, count, ones, payload, out, mark, before, mid, base + node + 1);
      return;
    }
    ok := WalkBlock(nodes, both, RightOf(nodes[node]), ones, cursor, payload, out + count - ones, output, base,
      s.right);
    ChildrenRecorded(s, cursor.data, bit, count, ones, payload, out, ok, mark, cursor.bit, before, mid, output[..],
      base + node + 1);
  }

  method WalkLeaf(depth: nat, cursor: BitCursor, count: nat, payload: nat, out: nat, output: array<NodeBits>,
                  slot: nat) returns (ok: bool)
    requires cursor.Valid() && slot < output.Length && output[slot] == NodeBits(0, count, out)
    requires depth < 256 && count <= UINT32_MAX
    modifies cursor, output
    ensures cursor.Valid()
    ensures depth == 0 ==> ok && cursor.bit == old(cursor.bit) && output[slot] == NodeBits(0, count, out)
    ensures depth != 0 ==>
      (ok <==>
        && Align(old(cursor.bit)) + LeafBits(count, depth) <= 8 * |cursor.data|
        && payload + Align(old(cursor.bit)) / 8 <= UINT32_MAX)
    ensures depth != 0 && ok ==>
      && cursor.bit == Align(old(cursor.bit)) + LeafBits(count, depth)
      && output[slot] == NodeBits(payload + Align(old(cursor.bit)) / 8, count, out)
    ensures forall i :: 0 <= i < output.Length && i != slot ==> output[i] == old(output[i])
  {
    if depth == 0 {
      return true;
    }
    var aligned := cursor.AlignByte();
    if !aligned || count > SIZE_MAX / depth || count * depth > 8 * |cursor.data| - cursor.bit
      || payload > UINT32_MAX - cursor.bit / 8 {
      return false;
    }
    output[slot] := output[slot].(offset := payload + cursor.bit / 8);
    cursor.bit := cursor.bit + count * depth;
    ok := true;
  }
}
