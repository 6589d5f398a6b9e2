/** ZL_PivCoHuffmanTree_build: the builder's arrays, in which the leaves of each weight
    have slots of their own with a gap for flat leaves, and the collapsing of runs in
    place (openzl/codecs/pivco_huffman/common_pivco_kernel.c). */
module PivcoBuilder {
  import opened Words
  import opened PivcoTree
  import opened PivcoWeights
  import opened PivcoLeaves
  import opened PivcoOrder

  const LEAF_STORAGE: nat := 256 + MAX_WEIGHT * (MAX_WEIGHT + 1) / 2
  const SYMBOL_STORAGE: nat := 512
  const COUNTERS: nat := 16

  /** A leaf: so many symbols at offset. */
  datatype Slot = Slot(offset: nat, count: nat)

  /** The builder as a value; storage is what has been handed out of it. */
  datatype Store = Store(slots: seq<Slot>, storage: seq<Small>, counts: seq<nat>, offsets: seq<nat>)

  predicate SlotOk(slot: Slot, n: nat) { slot.offset + slot.count <= n }

  predicate Sized(s: Store) {
    |s.slots| == LEAF_STORAGE && |s.counts| == COUNTERS && |s.offsets| == BUCKETS + 1
  }

  /** The slots of weight w end before those of the next weight begin. */
  predicate BucketIn(s: Store, w: nat)
    requires Sized(s) && 1 <= w < BUCKETS
  {
    && s.offsets[w] + s.counts[w] <= s.offsets[w + 1] <= LEAF_STORAGE
    && forall i :: s.offsets[w] <= i < s.offsets[w] + s.counts[w] ==> SlotOk(s.slots[i], |s.storage|)
  }

  predicate OffsetsOk(offsets: seq<nat>) {
    |offsets| == BUCKETS + 1 && forall v, w :: 1 <= v <= w <= BUCKETS ==> offsets[v] <= offsets[w]
  }

  predicate StoreOk(s: Store) {
    Sized(s) && OffsetsOk(s.offsets) && forall w :: 1 <= w < BUCKETS ==> BucketIn(s, w)
  }

  function LeafIn(storage: seq<Small>, slot: Slot): (leaf: Leaf)
    requires SlotOk(slot, |storage|)
    ensures |leaf| == slot.count
  {
    storage[slot.offset..slot.offset + slot.count]
  }

  function BucketOf(s: Store, w: nat): (leaves: seq<Leaf>)
    requires Sized(s) && 1 <= w < BUCKETS && BucketIn(s, w)
    ensures |leaves| == s.counts[w]
    ensures forall i :: 0 <= i < |leaves| ==> leaves[i] == LeafIn(s.storage, s.slots[s.offsets[w] + i])
  {
    seq(s.counts[w], i requires 0 <= i < s.counts[w] => LeafIn(s.storage, s.slots[s.offsets[w] + i]))
  }

  function BucketsOf(s: Store): (b: Buckets)
    requires StoreOk(s)
    ensures b[0] == [] && forall w :: 1 <= w < BUCKETS ==> b[w] == BucketOf(s, w)
  {
    seq(BUCKETS, w requires 0 <= w < BUCKETS => if w == 0 then [] else BucketOf(s, w))
  }

  // ---------- what writing a leaf and dropping leaves does ----------

  function Appended(s: Store, w: nat, leaf: Leaf): Store
    requires Sized(s) && 1 <= w < BUCKETS && s.offsets[w] + s.counts[w] < LEAF_STORAGE
  {
    Store(s.slots[s.offsets[w] + s.counts[w] := Slot(|s.storage|, |leaf|)], s.storage + leaf,
          s.counts[w := s.counts[w] + 1], s.offsets)
  }

  predicate RoomAt(s: Store, w: nat)
    requires Sized(s) && 1 <= w < BUCKETS
  {
    s.offsets[w] + s.counts[w] < s.offsets[w + 1] <= LEAF_STORAGE
  }

  lemma LeafStays(storage: seq<Small>, more: seq<Small>, slot: Slot)
    requires SlotOk(slot, |storage|)
    ensures SlotOk(slot, |storage + more|) && LeafIn(storage + more, slot) == LeafIn(storage, slot)
  {
  }

  lemma OtherBucketStays(s: Store, w: nat, leaf: Leaf, v: nat)
    requires StoreOk(s) && 1 <= w < BUCKETS && RoomAt(s, w) && 1 <= v < BUCKETS && v != w
    ensures BucketIn(Appended(s, w, leaf), v) && BucketOf(Appended(s, w, leaf), v) == BucketOf(s, v)
  {
    var t := Appended(s, w, leaf);
    assert BucketIn(s, v) && BucketIn(s, w);
    forall i | s.offsets[v] <= i < s.offsets[v] + s.counts[v]
      ensures t.slots[i] == s.slots[i] && SlotOk(t.slots[i], |t.storage|)
      ensures LeafIn(t.storage, t.slots[i]) == LeafIn(s.storage, s.slots[i])
    {
      if v < w {
        assert s.offsets[v + 1] <= s.offsets[w];
      } else {
        assert s.offsets[w + 1] <= s.offsets[v];
      }
      LeafStays(s.storage, leaf, s.slots[i]);
    }
  }

  lemma OwnBucketGrows(s: Store, w: nat, leaf: Leaf)
    requires StoreOk(s) && 1 <= w < BUCKETS && RoomAt(s, w)
    ensures BucketIn(Appended(s, w, leaf), w) && BucketOf(Appended(s, w, leaf), w) == BucketOf(s, w) + [leaf]
  {
    var t := Appended(s, w, leaf);
    assert BucketIn(s, w);
    forall i | s.offsets[w] <= i < s.offsets[w] + s.counts[w]
      ensures t.slots[i] == s.slots[i] && SlotOk(t.slots[i], |t.storage|)
      ensures LeafIn(t.storage, t.slots[i]) == LeafIn(s.storage, s.slots[i])
    {
      LeafStays(s.storage, leaf, s.slots[i]);
    }
    assert LeafIn(t.storage, Slot(|s.storage|, |leaf|)) == leaf;
  }

  /** A leaf written behind the others of its weight moves nothing else. */
  lemma AppendedIs(s: Store, w: nat, leaf: Leaf)
    requires StoreOk(s) && 1 <= w < BUCKETS && RoomAt(s, w)
    ensures StoreOk(Appended(s, w, leaf))
    ensures BucketsOf(Appended(s, w, leaf)) == BucketsOf(s)[w := BucketsOf(s)[w] + [leaf]]
  {
    hide BucketIn, BucketOf, Appended;
    OwnBucketGrows(s, w, leaf);
    AppendedSized(s, w, leaf);
    forall v | 1 <= v < BUCKETS && v != w
      ensures BucketIn(Appended(s, w, leaf), v) && BucketOf(Appended(s, w, leaf), v) == BucketOf(s, v)
    {
      OtherBucketStays(s, w, leaf, v);
    }
  }

  lemma AppendedSized(s: Store, w: nat, leaf: Leaf)
    requires Sized(s) && 1 <= w < BUCKETS && s.offsets[w] + s.counts[w] < LEAF_STORAGE
    ensures Sized(Appended(s, w, leaf)) && Appended(s, w, leaf).offsets == s.offsets
  {
  }

  function Dropped(s: Store, w: nat, n: nat): Store
    requires Sized(s) && 1 <= w < BUCKETS
  {
    s.(counts := s.counts[w := n])
  }

  lemma DroppedIs(s: Store, w: nat, n: nat)
    requires StoreOk(s) && 1 <= w < BUCKETS && n <= s.counts[w]
    ensures StoreOk(Dropped(s, w, n))
    ensures BucketsOf(Dropped(s, w, n)) == BucketsOf(s)[w := BucketsOf(s)[w][..n]]
  {
    var t := Dropped(s, w, n);
    assert BucketIn(s, w);
    forall v | 1 <= v < BUCKETS ensures BucketIn(t, v) {
      assert BucketIn(s, v);
    }
    assert BucketOf(t, w) == BucketOf(s, w)[..n];
    forall v | 1 <= v < BUCKETS && v != w ensures BucketOf(t, v) == BucketOf(s, v) {
    }
  }

  /** The flat leaf appended above and its symbols' leaves dropped: one peel. */
  lemma PeeledStore(s: Store, w: nat, t: Store)
    requires StoreOk(s) && 1 <= w < BUCKETS && s.counts[w] > 2
    requires w + HighBit(s.counts[w]) < BUCKETS && RoomAt(s, w + HighBit(s.counts[w]))
    requires var k := HighBit(s.counts[w]);
      var off := s.counts[w] - Pow2(k);
      BucketIn(s, w) && t == Dropped(Appended(s, w + k, Concat(BucketOf(s, w)[off..])), w, off)
    ensures StoreOk(t) && BucketsOf(t) == PeelOne(BucketsOf(s), w)
  {
    hide Appended, Dropped, BucketIn, BucketOf, Concat, Pow2, HighBit, StoreOk, BucketsOf;
    BucketFacts(s, w);
    HighPositive(s.counts[w]);
    var k := HighBit(s.counts[w]);
    var off := s.counts[w] - Pow2(k);
    var flat := Concat(BucketOf(s, w)[off..]);
    AppendedIs(s, w + k, flat);
    AppendedCount(s, w + k, flat, w);
    DroppedIs(Appended(s, w + k, flat), w, off);
    var b := BucketsOf(s);
    Swapped(b, w, w + k, b[w][..off], b[w + k] + [flat]);
  }

  lemma AppendedCount(s: Store, v: nat, leaf: Leaf, w: nat)
    requires Sized(s) && 1 <= v < BUCKETS && RoomAt(s, v) && w < BUCKETS && w != v
    ensures Sized(Appended(s, v, leaf)) && Appended(s, v, leaf).counts[w] == s.counts[w]
  {
  }

  lemma Swapped(b: Buckets, v: nat, w: nat, x: seq<Leaf>, y: seq<Leaf>)
    requires v < BUCKETS && w < BUCKETS && v != w
    ensures b[w := y][v := x] == b[v := x][w := y]
  {
  }

  class Builder {
    const slots: array<Slot>
    const storage: array<Small>
    const counts: array<nat>
    const offsets: array<nat>
    var next: nat

    ghost predicate Shaped()
      reads this
    {
      && slots.Length == LEAF_STORAGE && storage.Length == SYMBOL_STORAGE
      && counts.Length == COUNTERS && offsets.Length == BUCKETS + 1 && next <= SYMBOL_STORAGE
    }

    ghost function State(): (s: Store)
      requires Shaped()
      reads this, slots, storage, counts, offsets
      ensures Sized(s) && |s.storage| == next
    {
      Store(slots[..], storage[..next], counts[..], offsets[..])
    }

    constructor ()
      ensures Shaped() && next == 0 && fresh(slots) && fresh(storage) && fresh(counts) && fresh(offsets)
    {
      slots := new Slot[LEAF_STORAGE](_ => Slot(0, 0));
      storage := new Small[SYMBOL_STORAGE](_ => 0);
      counts := new nat[COUNTERS](_ => 0);
      offsets := new nat[BUCKETS + 1](_ => 0);
      next := 0;
    }

    /** Copies the symbols of num single leaves from slot from on behind next. */
    method CopySymbols(from: nat, num: nat)
      requires Shaped() && HeadsIn(State(), from, num) && next + num <= SYMBOL_STORAGE
      modifies storage
      ensures storage[..next] == old(storage[..next])
      ensures storage[next..next + num] == Heads(old(State()), from, num)
    {
      ghost var s := State();
      for i := 0 to num
        invariant storage[..next] == s.storage
        invariant storage[next..next + i] == Heads(s, from, num)[..i]
      {
        var offset := slots[from + i].offset;
        assert storage[..next][offset] == s.storage[offset];
        storage[next + i] := storage[offset];
        assert storage[next..next + i + 1] == storage[next..next + i] + [storage[next + i]];
      }
    }

    /** One turn of the loop over a bucket: its greatest power-of-two block at the end
        becomes a flat leaf of a greater weight. */
    method Flatten(w: nat)
      requires Shaped() && StoreOk(State()) && 1 <= w < BUCKETS && counts[w] > 2
      requires w + HighBit(counts[w]) < BUCKETS && RoomAt(State(), w + HighBit(counts[w]))
      requires AllSingle(BucketsOf(State())[w]) && next + Pow2(HighBit(counts[w])) <= SYMBOL_STORAGE
      modifies this`next, slots, storage, counts
      ensures Shaped() && StoreOk(State()) && BucketsOf(State()) == PeelOne(old(BucketsOf(State())), w)
      ensures offsets[..] == old(offsets[..]) && next == old(next + Pow2(HighBit(counts[w])))
    {
      hide StoreOk, BucketsOf, PeelOne, AllSingle, Concat, Pow2, BucketOf, HeadsIn, Heads, Appended;
      ghost var s := State();
      var n := counts[w];
      HighPositive(n);
      var k := HighBit(n);
      var num := Pow2(k);
      SinglesAt(s, w, n - num);
      AppendFlat(w + k, offsets[w] + n - num, num);
      AppendedCount(s, w + k, Heads(s, offsets[w] + n - num, num), w);
      counts[w] := n - num;
      PeeledStore(s, w, State());
    }

    /** appendLeaf, appendSymbols and the copy: one more leaf of weight w, of the symbols of
        num single leaves. */
    method AppendFlat(w: nat, from: nat, num: nat)
      requires Shaped() && 1 <= w < BUCKETS && offsets[w] + counts[w] < LEAF_STORAGE
      requires HeadsIn(State(), from, num) && next + num <= SYMBOL_STORAGE
      modifies this`next, slots, storage, counts
      ensures Shaped() && State() == Appended(old(State()), w, old(Heads(State(), from, num)))
      ensures next == old(next) + num && offsets[..] == old(offsets[..])
    {
      hide HeadsIn, Heads;
      ghost var s := State();
      var at := offsets[w] + counts[w];
      counts[w] := counts[w] + 1;
      HeadsSame(s, State(), from, num);
      CopySymbols(from, num);
      slots[at] := Slot(next, num);
      next := next + num;
      assert storage[..next] == s.storage + Heads(s, from, num);
    }

    /** optimizeLeaves for one weight. */
    method Collapse(w: nat, ghost c: seq<nat>)
      requires Shaped() && StoreOk(State()) && 1 <= w < BUCKETS && Gapped(c, offsets[..])
      requires Collapsing(c, BucketsOf(State()), w) && next + counts[w] <= SYMBOL_STORAGE
      modifies this`next, slots, storage, counts
      ensures Shaped() && StoreOk(State()) && Fits(|old(BucketsOf(State()))[w]|, w)
      ensures BucketsOf(State()) == PeelAll(old(BucketsOf(State())), w)
      ensures Collapsing(c, BucketsOf(State()), w)
      ensures offsets[..] == old(offsets[..]) && next + counts[w] == old(next + counts[w])
    {
      hide StoreOk, BucketsOf, PeelAll, PeelOne, Collapsing, Gapped;
      ghost var start := BucketsOf(State());
      CollapsingFits(c, start, w);
      while counts[w] > 2
        invariant Shaped() && StoreOk(State())
        invariant Collapsing(c, BucketsOf(State()), w)
        invariant Fits(|BucketsOf(State())[w]|, w) && PeelAll(BucketsOf(State()), w) == PeelAll(start, w)
        invariant offsets[..] == old(offsets[..]) && next + counts[w] == old(next + counts[w])
        decreases counts[w]
      {
        ghost var s := State();
        ghost var b := BucketsOf(s);
        CountIsLen(s, w);
        PeelRoom(c, s, w);
        Flatten(w);
        CountIsLen(State(), w);
        PeelAllStep(b, w);
        PeelCollapsing(c, b, w);
      }
      CountIsLen(State(), w);
      PeelAllEnd(BucketsOf(State()), w);
    }

    /** optimizeLeaves */
    method OptimizeLeaves(weights: seq<nat>, log: nat)
      requires Shaped() && StoreOk(State()) && Complete(weights, log) && Gapped(Counts(weights, |weights|), offsets[..])
      requires BucketsOf(State()) == Seeded(weights) && next <= 256
      modifies this`next, slots, storage, counts
      ensures Shaped() && StoreOk(State()) && BucketsOf(State()) == Leaves(weights, log)
      ensures offsets[..] == old(offsets[..])
    {
      hide OptimizingIn, Gapped, Complete, Leaves, Collapsing, StoreOk, BucketsOf, PeelAll, Counts, Seeded, Fits;
      WeightsSmall(weights, log);
      ghost var c := Counts(weights, |weights|);
      OptimizeStarts(weights, log, State());
      var weight: nat := log;
      while weight > 0
        invariant weight <= log && Shaped() && OptimizingIn(weights, log, State(), weight)
        invariant offsets[..] == old(offsets[..])
      {
        ghost var s := State();
        TurnStarts(weights, log, s, weight);
        Collapse(weight, c);
        TurnEnds(weights, log, s, State(), weight);
        weight := weight - 1;
      }
      OptimizeEnds(weights, log, State());
    }

    /** The counts and the offsets: a prefix sum with a gap of w - 1 slots below weight w. */
    method LayOut(weights: seq<nat>)
      requires Shaped() && |weights| <= 256 && forall i :: 0 <= i < |weights| ==> weights[i] <= MAX_TABLE_LOG
      modifies counts, offsets
      ensures Counted(weights, counts[..]) && OffsetsOk(offsets[..]) && offsets[BUCKETS] <= LEAF_STORAGE
      ensures Gapped(Counts(weights, |weights|), offsets[..])
    {
      hide Counts, CountOf, Total, Triangle, Gapped, OffsetsOk, Counted;
      var c := CountInRegister(weights);
      CountsAre(weights, c);
      forall w | 0 <= w < COUNTERS { counts[w] := c[w]; }
      assert counts[..] == c;
      PrefixSums(Counts(weights, |weights|));
      CountsTotal(weights, |weights|);
      OffsetsFit(Counts(weights, |weights|), offsets[..]);
    }

    // The offsets of these counts.
    method PrefixSums(ghost g: seq<nat>)
      requires Shaped() && |g| == BUCKETS && g[0] == 0 && forall w :: 1 <= w < BUCKETS ==> counts[w] == g[w]
      modifies offsets
      ensures forall v :: 1 <= v < BUCKETS ==> offsets[v + 1] == offsets[v] + g[v] + v
      ensures offsets[BUCKETS] == Total(g, BUCKETS) + Triangle(BUCKETS)
    {
      hide Total, Triangle;
      offsets[0], offsets[1] := 0, 0;
      TotalFirst(g);
      var w := 2;
      while w < BUCKETS + 1
        invariant 2 <= w <= BUCKETS + 1
        invariant forall v :: 1 <= v < w - 1 ==> offsets[v + 1] == offsets[v] + g[v] + v
        invariant offsets[w - 1] == Total(g, w - 1) + Triangle(w - 1)
      {
        TotalTurn(g, w);
        offsets[w] := offsets[w - 1] + counts[w - 1] + (w - 1);
        w := w + 1;
      }
    }

    /** Every symbol that occurs gets a leaf of its own. */
    method Seed(weights: seq<nat>)
      requires Shaped() && next == 0 && |weights| <= 256 && forall i :: 0 <= i < |weights| ==>
        weights[i] <= MAX_TABLE_LOG
      requires Counted(weights, counts[..]) && OffsetsOk(offsets[..]) && offsets[BUCKETS] <= LEAF_STORAGE
      requires Gapped(Counts(weights, |weights|), offsets[..])
      modifies this`next, slots, storage
      ensures Shaped() && StoreOk(State()) && BucketsOf(State()) == Seeded(weights) && next <= 256
    {
      hide StoreOk, BucketsOf, SeededTo, CountOf, Appended, Counts, SymbolsOf, OffsetsOk, Gapped;
      var pos := new nat[BUCKETS + 1](i requires 0 <= i < BUCKETS + 1 reads offsets => offsets[i]);
      ghost var s := Seeding(slots[..], storage[..next], offsets[..], weights, 0);
      SeedingStarts(s, weights);
      for symbol := 0 to |weights|
        invariant Shaped() && next <= symbol
        invariant s == Seeding(slots[..], storage[..next], offsets[..], weights, symbol)
        invariant StoreOk(s) && BucketsOf(s) == SeededTo(weights, symbol)
        invariant forall w :: 1 <= w < BUCKETS ==> pos[w] == offsets[w] + CountOf(weights[..symbol], w)
      {
        var w := weights[symbol];
        SeedingTurn(s, weights, symbol);
        CountTurn(weights, symbol);
        ghost var after := SeedingNext(s, weights, symbol);
        if w != 0 {
          slots[pos[w]] := Slot(next, 1);
          pos[w] := pos[w] + 1;
          storage[next] := symbol;
          ghost var before := s.storage;
          next := next + 1;
          assert storage[..next] == before + [symbol];
        }
        s := Seeding(slots[..], storage[..next], offsets[..], weights, symbol + 1);
        assert s == after;
      }
      SeedingEnds(s, weights, counts[..]);
      assert s == State();
    }
  }

  // num single leaves from slot from on.
  predicate HeadsIn(s: Store, from: nat, num: nat) {
    && from + num <= |s.slots|
    && forall i :: from <= i < from + num ==> s.slots[i].count == 1 && s.slots[i].offset < |s.storage|
  }

  /** Their symbols. */
  function Heads(s: Store, from: nat, num: nat): (h: seq<Small>)
    requires HeadsIn(s, from, num)
    ensures |h| == num
  {
    seq(num, i requires 0 <= i < num => s.storage[s.slots[from + i].offset])
  }

  lemma HeadsSame(s: Store, t: Store, from: nat, num: nat)
    requires HeadsIn(s, from, num) && t.slots == s.slots && t.storage == s.storage
    ensures HeadsIn(t, from, num) && Heads(t, from, num) == Heads(s, from, num)
  {
  }

  /** The slots of a bucket of single leaves, from leaf off on. */
  lemma SinglesAt(s: Store, w: nat, off: nat)
    requires StoreOk(s) && 1 <= w < BUCKETS && AllSingle(BucketsOf(s)[w]) && off <= s.counts[w]
    ensures BucketIn(s, w) && HeadsIn(s, s.offsets[w] + off, s.counts[w] - off)
    ensures Heads(s, s.offsets[w] + off, s.counts[w] - off) == Concat(BucketOf(s, w)[off..])
  {
    hide StoreOk, BucketsOf, BucketIn, BucketOf, Concat, LeafIn;
    BucketFacts(s, w);
    SingleSlots(s, w);
    var back, at := BucketOf(s, w)[off..], s.offsets[w] + off;
    var heads := Heads(s, at, s.counts[w] - off);
    ConcatSingles(back);
    assert heads == Concat(back);
  }

  lemma BucketFacts(s: Store, w: nat)
    requires StoreOk(s) && 1 <= w < BUCKETS
    ensures Sized(s) && BucketIn(s, w) && BucketsOf(s)[w] == BucketOf(s, w)
    ensures s.offsets[w] + s.counts[w] <= s.offsets[w + 1] <= LEAF_STORAGE
  {
    assert BucketIn(s, w);
  }

  lemma SingleSlots(s: Store, w: nat)
    requires Sized(s) && 1 <= w < BUCKETS && BucketIn(s, w) && AllSingle(BucketOf(s, w))
    ensures forall i :: s.offsets[w] <= i < s.offsets[w] + s.counts[w] ==>
      && s.slots[i].count == 1 && s.slots[i].offset < |s.storage|
      && BucketOf(s, w)[i - s.offsets[w]] == [s.storage[s.slots[i].offset]]
  {
    forall i | s.offsets[w] <= i < s.offsets[w] + s.counts[w]
      ensures s.slots[i].count == 1 && s.slots[i].offset < |s.storage|
      ensures BucketOf(s, w)[i - s.offsets[w]] == [s.storage[s.slots[i].offset]]
    {
      assert BucketOf(s, w)[i - s.offsets[w]] == LeafIn(s.storage, s.slots[i]);
    }
  }

  // ---------- the gaps suffice ----------

  // Slots for the leaves of each weight and a gap of as many more as its number.
  predicate Gapped(c: seq<nat>, offsets: seq<nat>) {
    && |c| == BUCKETS && |offsets| == BUCKETS + 1
    && forall w :: 1 <= w < BUCKETS ==> offsets[w + 1] == offsets[w] + c[w] + w
  }

  // While weight w is collapsed: its own leaves are single and fit, and every greater
  // weight has at most one flat leaf of each weight between, and of w itself only where a
  // block of that size is gone.
  ghost predicate Collapsing(c: seq<nat>, b: Buckets, w: nat)
    requires 1 <= w < BUCKETS
  {
    && |c| == BUCKETS && Fits(|b[w]|, w) && AllSingle(b[w]) && |b[w]| <= c[w]
    && forall v :: w < v < BUCKETS ==> |b[v]| <= c[v] + (v - w - 1) + if |b[w]| < Pow2(v - w) then 1 else 0
  }

  lemma CollapsingFits(c: seq<nat>, b: Buckets, w: nat)
    requires 1 <= w < BUCKETS && Collapsing(c, b, w)
    ensures Fits(|b[w]|, w)
  {
  }

  lemma CountIsLen(s: Store, w: nat)
    requires StoreOk(s) && 1 <= w < BUCKETS
    ensures s.counts[w] == |BucketsOf(s)[w]|
  {
  }

  lemma PeelAllStep(b: Buckets, w: nat)
    requires w < BUCKETS && Fits(|b[w]|, w) && |b[w]| > 2
    ensures Fits(|PeelOne(b, w)[w]|, w) && PeelAll(PeelOne(b, w), w) == PeelAll(b, w)
    ensures |PeelOne(b, w)[w]| == |b[w]| - Pow2(HighBit(|b[w]|))
  {
    FitsLess(|b[w]|, |PeelOne(b, w)[w]|, w);
    PeelOneLen(b, w);
  }

  lemma PeelAllEnd(b: Buckets, w: nat)
    requires w < BUCKETS && Fits(|b[w]|, w) && |b[w]| <= 2
    ensures PeelAll(b, w) == b
  {
  }

  /** There is a slot for the flat leaf. */
  lemma PeelRoom(c: seq<nat>, s: Store, w: nat)
    requires StoreOk(s) && 1 <= w < BUCKETS && Gapped(c, s.offsets) && Collapsing(c, BucketsOf(s), w) && s.counts[w] > 2
    ensures w + HighBit(s.counts[w]) < BUCKETS && RoomAt(s, w + HighBit(s.counts[w]))
    ensures AllSingle(BucketsOf(s)[w])
    ensures Pow2(HighBit(s.counts[w])) <= s.counts[w]
  {
    HighPositive(s.counts[w]);
    var v := w + HighBit(s.counts[w]);
    assert BucketIn(s, v);
    assert |BucketsOf(s)[v]| == s.counts[v];
  }

  lemma PeelCollapsing(c: seq<nat>, b: Buckets, w: nat)
    requires 1 <= w < BUCKETS && Collapsing(c, b, w) && |b[w]| > 2 && w + HighBit(|b[w]|) < BUCKETS
    ensures Collapsing(c, PeelOne(b, w), w)
  {
    hide PeelOne, Pow2, HighBit, Fits, AllSingle;
    PeelLens(b, w);
    PeelSingles(b, w);
    PeelOneLen(b, w);
    var k, d := HighBit(|b[w]|), PeelOne(b, w);
    FitsLess(|b[w]|, |d[w]|, w);
    forall v | w < v < BUCKETS ensures |d[v]| <= c[v] + (v - w - 1) + if |d[w]| < Pow2(v - w) then 1 else 0 {
      assert |d[v]| == Lens(d)[v] && |b[v]| == Lens(b)[v];
    }
  }

  lemma PeelSingles(b: Buckets, w: nat)
    requires w < BUCKETS && |b[w]| > 2 && w + HighBit(|b[w]|) < BUCKETS && AllSingle(b[w])
    ensures AllSingle(PeelOne(b, w)[w])
  {
    hide Concat;
  }

  // Before weight w is collapsed.
  ghost predicate Optimizing(weights: seq<nat>, log: nat, b: Buckets, w: nat)
    requires Complete(weights, log)
  {
    && AllFit(b, w) && SinglesBelow(b, w) && Optimize(b, w) == Leaves(weights, log)
    && (forall v :: 0 < v <= w ==> |b[v]| <= Counts(weights, |weights|)[v])
    && forall v :: w < v < BUCKETS ==> |b[v]| <= Counts(weights, |weights|)[v] + (v - w - 1)
  }

  // And there is storage for a copy of every single leaf that is left.
  ghost predicate OptimizingIn(weights: seq<nat>, log: nat, s: Store, w: nat)
    requires Complete(weights, log)
  {
    && w < BUCKETS && StoreOk(s) && Optimizing(weights, log, BucketsOf(s), w)
    && |s.storage| + Total(Lens(BucketsOf(s)), w + 1) <= SYMBOL_STORAGE
  }

  lemma OptimizeStarts(weights: seq<nat>, log: nat, s: Store)
    requires Complete(weights, log) && StoreOk(s) && BucketsOf(s) == Seeded(weights) && |s.storage| <= 256
    ensures OptimizingIn(weights, log, s, log)
  {
    hide Complete, Optimizing, Total, StoreOk, BucketsOf;
    WeightsSmall(weights, log);
    SeededOptimizing(weights, log);
    SeededLens(weights);
    CountsTotal(weights, |weights|);
    TotalPrefix(Lens(Seeded(weights)), log + 1, BUCKETS);
  }

  lemma SeededOptimizing(weights: seq<nat>, log: nat)
    requires Complete(weights, log)
    ensures Optimizing(weights, log, Seeded(weights), log)
  {
    hide Complete, Optimize, Counts, SinglesBelow, Seeded, AllFit, Leaves;
    WeightsSmall(weights, log);
    SeededOk(weights);
    SeededLens(weights);
    SinglesFewer(Seeded(weights), log);
    LeavesIs(weights, log);
  }

  lemma LeavesIs(weights: seq<nat>, log: nat)
    requires Complete(weights, log)
    ensures AllFit(Seeded(weights), log) && Leaves(weights, log) == Optimize(Seeded(weights), log)
  {
    SeededComplete(weights, log);
  }

  lemma {:induction false} TotalPrefix(c: seq<nat>, m: nat, n: nat)
    requires m <= n <= |c|
    ensures Total(c, m) <= Total(c, n)
  {
    if m < n {
      TotalPrefix(c, m, n - 1);
    }
  }

  lemma TurnStarts(weights: seq<nat>, log: nat, s: Store, w: nat)
    requires Complete(weights, log) && 1 <= w < BUCKETS && OptimizingIn(weights, log, s, w)
    ensures StoreOk(s) && Collapsing(Counts(weights, |weights|), BucketsOf(s), w)
    ensures |s.storage| + s.counts[w] <= SYMBOL_STORAGE
  {
    hide Optimize, Leaves, Complete, Fits, StoreOk, BucketsOf;
    CountIsLen(s, w);
  }

  lemma TurnEnds(weights: seq<nat>, log: nat, s: Store, t: Store, w: nat)
    requires Complete(weights, log) && 1 <= w < BUCKETS && OptimizingIn(weights, log, s, w)
    requires StoreOk(t) && Fits(|BucketsOf(s)[w]|, w) && BucketsOf(t) == PeelAll(BucketsOf(s), w)
    requires Collapsing(Counts(weights, |weights|), BucketsOf(t), w)
    requires |t.storage| + t.counts[w] == |s.storage| + s.counts[w]
    ensures OptimizingIn(weights, log, t, w - 1)
  {
    hide Leaves, Complete, PeelAll, StoreOk, BucketsOf, Optimizing, Collapsing, Fits;
    CountIsLen(s, w);
    CountIsLen(t, w);
    BucketTurn(weights, log, BucketsOf(s), w);
  }

  lemma BucketTurn(weights: seq<nat>, log: nat, b: Buckets, w: nat)
    requires Complete(weights, log) && 1 <= w < BUCKETS && Optimizing(weights, log, b, w) && Fits(|b[w]|, w)
    requires Collapsing(Counts(weights, |weights|), PeelAll(b, w), w)
    ensures Optimizing(weights, log, PeelAll(b, w), w - 1)
    ensures Total(Lens(PeelAll(b, w)), w) == Total(Lens(b), w) && Total(Lens(b), w + 1) == Total(Lens(b), w) + |b[w]|
  {
    hide Leaves, Complete, PeelAll;
    var c := PeelAll(b, w);
    BelowFit(b, c, w);
    SinglesStay(b, c, w);
    forall v | 0 <= v < w ensures c[v] == b[v] {
      assert c[..w][v] == b[..w][v];
    }
    TotalSame(Lens(c), Lens(b), w);
  }

  lemma OptimizeEnds(weights: seq<nat>, log: nat, s: Store)
    requires Complete(weights, log) && OptimizingIn(weights, log, s, 0)
    ensures StoreOk(s) && BucketsOf(s) == Leaves(weights, log)
  {
    hide Complete, Leaves, StoreOk, BucketsOf;
  }

  // ---------- laying out and seeding ----------

  function Triangle(w: nat): nat { if w <= 1 then 0 else Triangle(w - 1) + (w - 1) }

  lemma TotalFirst(c: seq<nat>)
    requires |c| == BUCKETS && c[0] == 0
    ensures Total(c, 1) == 0 && Triangle(1) == 0
  {
  }

  lemma TotalTurn(c: seq<nat>, w: nat)
    requires 2 <= w <= |c|
    ensures Total(c, w) == Total(c, w - 1) + c[w - 1] && Triangle(w) == Triangle(w - 1) + (w - 1)
  {
  }

  lemma CountsAre(weights: seq<nat>, c: seq<nat>)
    requires Counted(weights, c)
    ensures |c| == COUNTERS && forall w :: 1 <= w < BUCKETS ==> c[w] == Counts(weights, |weights|)[w]
  {
    hide CountOf;
    assert weights[..|weights|] == weights;
  }

  lemma TriangleAll()
    ensures Triangle(BUCKETS) == 91
  {
    assert Triangle(4) == 6;
    assert Triangle(8) == 28;
    assert Triangle(12) == 66;
  }

  lemma OffsetsFit(c: seq<nat>, offsets: seq<nat>)
    requires |c| == BUCKETS && |offsets| == BUCKETS + 1 && Total(c, BUCKETS) <= 256
    requires forall v :: 1 <= v < BUCKETS ==> offsets[v + 1] == offsets[v] + c[v] + v
    requires offsets[BUCKETS] == Total(c, BUCKETS) + Triangle(BUCKETS)
    ensures OffsetsOk(offsets) && offsets[BUCKETS] <= LEAF_STORAGE && Gapped(c, offsets)
  {
    TriangleAll();
    forall v, w | 1 <= v <= w <= BUCKETS ensures offsets[v] <= offsets[w] {
      OffsetsAscend(c, offsets, v, w);
    }
  }

  lemma {:induction false} OffsetsAscend(c: seq<nat>, offsets: seq<nat>, v: nat, w: nat)
    requires |c| == BUCKETS && |offsets| == BUCKETS + 1 && 1 <= v <= w <= BUCKETS
    requires forall u :: 1 <= u < BUCKETS ==> offsets[u + 1] == offsets[u] + c[u] + u
    ensures offsets[v] <= offsets[w]
  {
    if v < w {
      OffsetsAscend(c, offsets, v, w - 1);
    }
  }

  // The leaves of the first n symbols.
  function SeededTo(weights: seq<nat>, n: nat): (b: Buckets)
    requires n <= |weights| <= 256
    ensures b[0] == [] && forall w :: 1 <= w < BUCKETS ==> b[w] == Singles(SymbolsOf(weights, w, n))
  {
    seq(BUCKETS, w => if w <= 0 then [] else Singles(SymbolsOf(weights, w, n)))
  }

  // The builder as if it had counted the first n symbols alone.
  function Seeding(slots: seq<Slot>, storage: seq<Small>, offsets: seq<nat>, weights: seq<nat>, n: nat): (s: Store)
    requires n <= |weights|
    ensures |s.counts| == COUNTERS && forall w :: 0 <= w < COUNTERS ==> s.counts[w] == CountOf(weights[..n], w)
  {
    Store(slots, storage, seq(COUNTERS, w requires 0 <= w < COUNTERS => CountOf(weights[..n], w)), offsets)
  }

  lemma SeedingStarts(s: Store, weights: seq<nat>)
    requires |weights| <= 256 && |s.slots| == LEAF_STORAGE && OffsetsOk(s.offsets) && s.offsets[BUCKETS] <= LEAF_STORAGE
    requires s == Seeding(s.slots, s.storage, s.offsets, weights, 0)
    ensures StoreOk(s) && BucketsOf(s) == SeededTo(weights, 0)
  {
    NoneCounted(weights[..0]);
    forall w | 1 <= w < BUCKETS ensures BucketIn(s, w) {
      assert s.offsets[w] <= s.offsets[w + 1] <= s.offsets[BUCKETS];
    }
  }

  lemma {:induction false} CountMono(weights: seq<nat>, i: nat, j: nat, w: nat)
    requires i <= j <= |weights|
    ensures CountOf(weights[..i], w) <= CountOf(weights[..j], w)
  {
    if i < j {
      CountMono(weights, i, j - 1, w);
      CountStep(weights, j - 1, w);
    }
  }

  lemma CountTurn(weights: seq<nat>, i: nat)
    requires i < |weights| <= 256
    ensures forall v :: 0 <= v < COUNTERS ==>
      CountOf(weights[..i + 1], v) == CountOf(weights[..i], v) + if weights[i] == v then 1 else 0
    ensures forall v :: 0 <= v < BUCKETS && v != weights[i] ==> SymbolsOf(weights, v, i + 1) == SymbolsOf(weights, v, i)
    ensures SymbolsOf(weights, weights[i], i + 1) == SymbolsOf(weights, weights[i], i) + [i]
  {
    hide CountOf, SymbolsOf;
    forall v | 0 <= v < COUNTERS
      ensures CountOf(weights[..i + 1], v) == CountOf(weights[..i], v) + if weights[i] == v then 1 else 0
    {
      CountStep(weights, i, v);
    }
    forall v | 0 <= v < BUCKETS && v != weights[i]
      ensures SymbolsOf(weights, v, i + 1) == SymbolsOf(weights, v, i)
    {
      SymbolsStep(weights, v, i + 1);
      assert SymbolsOf(weights, v, i) + [] == SymbolsOf(weights, v, i);
    }
    SymbolsStep(weights, weights[i], i + 1);
  }

  // The builder after one more symbol.
  function SeedingNext(s: Store, weights: seq<nat>, i: nat): Store
    requires i < |weights| <= 256 && Sized(s) && weights[i] < BUCKETS
    requires weights[i] > 0 ==> s.offsets[weights[i]] + s.counts[weights[i]] < LEAF_STORAGE
  {
    if weights[i] == 0 then Seeding(s.slots, s.storage, s.offsets, weights, i + 1)
    else
      Seeding(s.slots[s.offsets[weights[i]] + s.counts[weights[i]] := Slot(|s.storage|, 1)], s.storage + [i],
              s.offsets, weights, i + 1)
  }

  /** One more symbol: its leaf is appended to the leaves of its weight. */
  lemma SeedingTurn(s: Store, weights: seq<nat>, i: nat)
    requires i < |weights| <= 256 && weights[i] <= MAX_TABLE_LOG
    requires StoreOk(s) && BucketsOf(s) == SeededTo(weights, i)
      && s == Seeding(s.slots, s.storage, s.offsets, weights, i)
    requires Gapped(Counts(weights, |weights|), s.offsets) && s.offsets[BUCKETS] <= LEAF_STORAGE
    ensures weights[i] > 0 ==> s.offsets[weights[i]] + s.counts[weights[i]] < LEAF_STORAGE
    ensures StoreOk(SeedingNext(s, weights, i)) && BucketsOf(SeedingNext(s, weights, i)) == SeededTo(weights, i + 1)
  {
    hide StoreOk, BucketsOf, CountOf, SymbolsOf, Gapped, Appended, SeededTo, Seeding;
    var w := weights[i];
    SeedingSized(s);
    if w == 0 {
      SeedZero(s, weights, i);
    } else {
      SeedRoom(s, weights, i);
      AppendedIs(s, w, [i]);
      SeedSymbol(s, weights, i);
    }
  }

  lemma SeedingSized(s: Store)
    requires StoreOk(s)
    ensures Sized(s)
  {
  }

  lemma SeedZero(s: Store, weights: seq<nat>, i: nat)
    requires i < |weights| <= 256 && weights[i] == 0 && StoreOk(s)
      && s == Seeding(s.slots, s.storage, s.offsets, weights, i)
    ensures StoreOk(SeedingNext(s, weights, i)) && BucketsOf(SeedingNext(s, weights, i)) == BucketsOf(s)
    ensures SeededTo(weights, i + 1) == SeededTo(weights, i)
  {
    hide StoreOk, BucketsOf, CountOf, SymbolsOf;
    SeedingSized(s);
    CountTurn(weights, i);
    ZeroCount(s, SeedingNext(s, weights, i));
    forall v | 1 <= v < BUCKETS ensures SeededTo(weights, i + 1)[v] == SeededTo(weights, i)[v] {
    }
  }

  lemma SeedSymbol(s: Store, weights: seq<nat>, i: nat)
    requires i < |weights| <= 256 && 0 < weights[i] <= MAX_TABLE_LOG
    requires Sized(s) && s == Seeding(s.slots, s.storage, s.offsets, weights, i) && RoomAt(s, weights[i])
    ensures SeedingNext(s, weights, i) == Appended(s, weights[i], [i])
    ensures SeededTo(weights, i + 1) == SeededTo(weights, i)[weights[i] := SeededTo(weights, i)[weights[i]] + [[i]]]
  {
    hide CountOf, SymbolsOf;
    CountTurn(weights, i);
    var w := weights[i];
    assert SeedingNext(s, weights, i).counts == s.counts[w := s.counts[w] + 1];
    assert Singles(SymbolsOf(weights, w, i) + [i]) == Singles(SymbolsOf(weights, w, i)) + [[i]];
    var b, c := SeededTo(weights, i), SeededTo(weights, i + 1);
    forall v | 0 <= v < BUCKETS ensures c[v] == b[w := b[w] + [[i]]][v] {
      if v > 0 && v != w {
        assert c[v] == b[v];
      }
    }
  }

  lemma SeedRoom(s: Store, weights: seq<nat>, i: nat)
    requires i < |weights| <= 256 && 0 < weights[i] <= MAX_TABLE_LOG
    requires StoreOk(s) && s == Seeding(s.slots, s.storage, s.offsets, weights, i)
    requires Gapped(Counts(weights, |weights|), s.offsets) && s.offsets[BUCKETS] <= LEAF_STORAGE
    ensures RoomAt(s, weights[i])
  {
    hide CountOf;
    CountMono(weights, i, |weights|, weights[i]);
    assert weights[..|weights|] == weights;
    assert s.offsets[weights[i] + 1] <= s.offsets[BUCKETS];
  }

  lemma ZeroCount(s: Store, t: Store)
    requires StoreOk(s) && t == s.(counts := t.counts) && |t.counts| == COUNTERS
    requires forall w :: 1 <= w < COUNTERS ==> t.counts[w] == s.counts[w]
    ensures StoreOk(t) && BucketsOf(t) == BucketsOf(s)
  {
    forall w | 1 <= w < BUCKETS ensures BucketIn(t, w) && BucketOf(t, w) == BucketOf(s, w) {
      assert BucketIn(s, w);
      assert BucketIn(t, w);
    }
  }

  lemma SeedingEnds(s: Store, weights: seq<nat>, counts: seq<nat>)
    requires |weights| <= 256 && s == Seeding(s.slots, s.storage, s.offsets, weights, |weights|)
      && Counted(weights, counts)
    ensures s.counts == counts && SeededTo(weights, |weights|) == Seeded(weights)
  {
    hide CountOf;
    assert weights[..|weights|] == weights;
  }
}
