/** The SIMD body unpackers: one reservoir walk over a register of lanes. A 128-bit
    register holds one group; a 256-bit register holds a group of each half of the
    body, so that two runs of 128 values are decoded at once. */
module PforVector {
  import opened Words
  import opened Arith
  import opened Streams
  import opened PforFormat
  import opened PforUnpack

  type Vector = seq<Bits>

  // Byte lanes have no shift of their own: the register is shifted as 16-bit words
  // and the bits that crossed from the neighbouring byte are masked off.

  predicate ByteLanes(x: Vector) {
    |x| % 2 == 0 && forall i :: 0 <= i < |x| ==> |x[i]| == 8
  }

  /** The 16-bit word that byte lane i belongs to. */
  function Pair(x: Vector, i: nat): (w: Bits)
    requires ByteLanes(x) && i < |x|
    ensures |w| == 16
  {
    if i % 2 == 0 then x[i] + x[i + 1] else x[i - 1] + x[i]
  }

  function HalfOf(w: Bits, i: nat): (b: Bits)
    requires |w| == 16
    ensures |b| == 8
  {
    if i % 2 == 0 then w[0..8] else w[8..16]
  }

  /** sll_epi16 followed by the mask (uint8_t)(0xFF << n). */
  function ShlBytes(x: Vector, n: nat): Vector
    requires ByteLanes(x)
  {
    seq(|x|, i requires 0 <= i < |x| => And(HalfOf(Shl(Pair(x, i), n), i), Shl(Mask(8, 8), n)))
  }

  /** srl_epi16 followed by the mask 0xFF >> n. */
  function ShrBytes(x: Vector, n: nat): Vector
    requires ByteLanes(x)
  {
    seq(|x|, i requires 0 <= i < |x| => And(HalfOf(Shr(Pair(x, i), n), i), Shr(Mask(8, 8), n)))
  }

  /** The emulated shifts are true per-byte shifts, for every count. */
  lemma ByteShifts(x: Vector, n: nat)
    requires ByteLanes(x)
    ensures |ShlBytes(x, n)| == |ShrBytes(x, n)| == |x|
    ensures forall i :: 0 <= i < |x| ==> ShlBytes(x, n)[i] == Shl(x[i], n)
    ensures forall i :: 0 <= i < |x| ==> ShrBytes(x, n)[i] == Shr(x[i], n)
  {
    forall i | 0 <= i < |x|
      ensures ShlBytes(x, n)[i] == Shl(x[i], n) && ShrBytes(x, n)[i] == Shr(x[i], n)
    {
      var base := if i % 2 == 0 then 0 else 8;
      assert Pair(x, i)[base..base + 8] == x[i];
      ShlHalf(Pair(x, i), x[i], n, base);
      ShrHalf(Pair(x, i), x[i], n, base);
    }
  }

  /** Half of a shifted 16-bit word, without the bits of its neighbour. */
  lemma ShlHalf(w: Bits, b: Bits, n: nat, base: nat)
    requires |w| == 16 && base <= 8 && b == w[base..base + 8]
    ensures And(Shl(w, n)[base..base + 8], Shl(Mask(8, 8), n)) == Shl(b, n)
  {
    var l, r := And(Shl(w, n)[base..base + 8], Shl(Mask(8, 8), n)), Shl(b, n);
    forall j | 0 <= j < 8 ensures l[j] == r[j] {
      if n <= j {
        assert b[j - n] == w[base + (j - n)];
      }
    }
  }

  lemma ShrHalf(w: Bits, b: Bits, n: nat, base: nat)
    requires |w| == 16 && base <= 8 && b == w[base..base + 8]
    ensures And(Shr(w, n)[base..base + 8], Shr(Mask(8, 8), n)) == Shr(b, n)
  {
    var l, r := And(Shr(w, n)[base..base + 8], Shr(Mask(8, 8), n)), Shr(b, n);
    forall j | 0 <= j < 8 ensures l[j] == r[j] {
      if j + n < 8 {
        assert b[j + n] == w[base + (j + n)];
      }
    }
  }

  predicate LanesOf(x: Vector, E: EltBytes) {
    |x| % 2 == 0 && forall i :: 0 <= i < |x| ==> |x[i]| == 8 * E
  }

  function VShl(x: Vector, n: nat, E: EltBytes): (y: Vector)
    requires LanesOf(x, E)
    ensures |y| == |x| && forall i :: 0 <= i < |x| ==> y[i] == Shl(x[i], n)
  {
    if E == 1 then ByteShifts(x, n); ShlBytes(x, n)
    else seq(|x|, i requires 0 <= i < |x| => Shl(x[i], n))
  }

  function VShr(x: Vector, n: nat, E: EltBytes): (y: Vector)
    requires LanesOf(x, E)
    ensures |y| == |x| && forall i :: 0 <= i < |x| ==> y[i] == Shr(x[i], n)
  {
    if E == 1 then ByteShifts(x, n); ShrBytes(x, n)
    else seq(|x|, i requires 0 <= i < |x| => Shr(x[i], n))
  }

  function VOr(x: Vector, y: Vector): (z: Vector)
    requires |x| == |y| && forall i :: 0 <= i < |x| ==> |x[i]| == |y[i]|
    ensures |z| == |x| && forall i :: 0 <= i < |x| ==> z[i] == Or(x[i], y[i])
  {
    seq(|x|, i requires 0 <= i < |x| => Or(x[i], y[i]))
  }

  function VMask(x: Vector, mask: Bits): (z: Vector)
    requires forall i :: 0 <= i < |x| ==> |x[i]| == |mask|
    ensures |z| == |x| && forall i :: 0 <= i < |x| ==> z[i] == And(x[i], mask)
  {
    seq(|x|, i requires 0 <= i < |x| => And(x[i], mask))
  }

  /** Bits f(h), f(h + 1), ... */
  function Shifted(f: nat -> bool, h: nat): nat -> bool {
    (k: nat) => f(h + k)
  }

  lemma ShiftedWindow(f: nat -> bool, h: nat, k: nat, n: nat, m: nat)
    ensures Window(Shifted(f, h), k, n, m) == Window(f, h + k, n, m)
  {
    var a, b := Window(Shifted(f, h), k, n, m), Window(f, h + k, n, m);
    forall j | 0 <= j < m ensures a[j] == b[j] {
      assert h + (k + j) == (h + k) + j;
    }
  }

  /** What each lane of the register reads: with two halves, the upper lanes read the
      same lane streams from bit Slots / 2 * bits on, byte bits * 16 of the body. */
  ghost function VectorStreams(src: seq<Byte>, at: nat, E: EltBytes, bits: nat, two: bool): (fs: seq<nat -> bool>)
    requires at + BodyBytes(bits) <= |src|
    ensures |fs| == if two then 2 * Lanes(E) else Lanes(E)
    ensures forall l :: 0 <= l < Lanes(E) ==> fs[l] == Lane(src, at, E, bits, l)
    ensures two ==> forall l :: 0 <= l < Lanes(E) ==>
      fs[Lanes(E) + l] == Shifted(Lane(src, at, E, bits, l), WordStart(E, bits))
  {
    var lo := LaneStreams(src, at, E, bits);
    if two then
      lo + seq(Lanes(E), l requires 0 <= l < Lanes(E) => Shifted(Lane(src, at, E, bits, l), WordStart(E, bits)))
    else
      lo
  }

  method LoadUpper(src: seq<Byte>, at: nat, E: EltBytes, bits: nat, pos: nat, ghost g: nat) returns (w: Vector)
    requires at + BodyBytes(bits) <= |src| && g < bits && pos == at + GROUP * g
    ensures |w| == Lanes(E)
    ensures forall l :: 0 <= l < |w| ==>
      w[l] == Window(Shifted(Lane(src, at, E, bits, l), WordStart(E, bits)), WordStart(E, g), 8 * E, 8 * E)
  {
    var halfBase := bits * GROUP;
    w := LoadLanes(src, at, E, bits, pos + halfBase, bits + g);
    WordStartAdd(E, bits, g);
    hide WordStart, Lane, Shifted, Window;
    forall l | 0 <= l < Lanes(E)
      ensures w[l] == Window(Shifted(Lane(src, at, E, bits, l), WordStart(E, bits)), WordStart(E, g), 8 * E, 8 * E)
    {
      ShiftedWindow(Lane(src, at, E, bits, l), WordStart(E, bits), WordStart(E, g), 8 * E, 8 * E);
    }
  }

  /** Loads group g, and group g of the second half when there are two. */
  method LoadVector(src: seq<Byte>, at: nat, E: EltBytes, bits: nat, two: bool, pos: nat, ghost g: nat)
    returns (w: Vector)
    requires at + BodyBytes(bits) <= |src| && g < (if two then bits else 2 * bits) && pos == at + GROUP * g
    ensures Loaded(w, VectorStreams(src, at, E, bits, two), E, g)
  {
    w := LoadLanes(src, at, E, bits, pos, g);
    if two {
      var hi := LoadUpper(src, at, E, bits, pos, g);
      w := w + hi;
    }
  }

  ghost predicate Loaded(w: Vector, fs: seq<nat -> bool>, E: EltBytes, g: nat) {
    |w| == |fs| && forall l :: 0 <= l < |w| ==> w[l] == Window(fs[l], WordStart(E, g), 8 * E, 8 * E)
  }

  /** One slot of PFOR_WALK, when the reservoir has to be refilled. */
  method VectorRefill(acc: Vector, w: Vector, E: EltBytes, bits: nat, res: nat, ghost fs: seq<nat -> bool>,
                      ghost k: nat)
    returns (out: Vector, next: Vector)
    requires res < bits < 8 * E && |fs| == |acc| == |w| && |fs| % 2 == 0
    requires forall l :: 0 <= l < |fs| ==> acc[l] == Window(fs[l], k, res, 8 * E)
    requires forall l :: 0 <= l < |fs| ==> w[l] == Window(fs[l], k + res, 8 * E, 8 * E)
    ensures |out| == |next| == |fs|
    ensures forall l :: 0 <= l < |fs| ==> out[l] == Window(fs[l], k, bits, 8 * E)
    ensures forall l :: 0 <= l < |fs| ==> next[l] == Window(fs[l], k + bits, 8 * E - (bits - res), 8 * E)
  {
    out := VMask(VOr(acc, VShl(w, res, E)), Mask(8 * E, bits));
    next := VShr(w, bits - res, E);
    forall l | 0 <= l < |fs|
      ensures out[l] == Window(fs[l], k, bits, 8 * E)
      ensures next[l] == Window(fs[l], k + bits, 8 * E - (bits - res), 8 * E)
    {
      Refill(fs[l], k, res, bits, 8 * E);
    }
  }

  method VectorDrain(acc: Vector, E: EltBytes, bits: nat, res: nat, ghost fs: seq<nat -> bool>, ghost k: nat)
    returns (out: Vector, next: Vector)
    requires bits <= res < 8 * E && |fs| == |acc| && |fs| % 2 == 0
    requires forall l :: 0 <= l < |fs| ==> acc[l] == Window(fs[l], k, res, 8 * E)
    ensures |out| == |next| == |fs|
    ensures forall l :: 0 <= l < |fs| ==> out[l] == Window(fs[l], k, bits, 8 * E)
    ensures forall l :: 0 <= l < |fs| ==> next[l] == Window(fs[l], k + bits, res - bits, 8 * E)
  {
    out := VMask(acc, Mask(8 * E, bits));
    next := VShr(acc, bits, E);
    forall l | 0 <= l < |fs|
      ensures out[l] == Window(fs[l], k, bits, 8 * E)
      ensures next[l] == Window(fs[l], k + bits, res - bits, 8 * E)
    {
      Drain(fs[l], k, res, bits, 8 * E);
    }
  }

  method VectorSlot(acc: Vector, w: Vector, E: EltBytes, bits: nat, res: nat, ghost s: nat, ghost g: nat,
                    ghost fs: seq<nat -> bool>)
    returns (out: Vector, next: Vector)
    requires 0 < bits < 8 * E && |fs| % 2 == 0 && WalkAt(acc, fs, E, bits, s, g, res)
    requires res < bits ==> Loaded(w, fs, E, g)
    ensures WalkAt(next, fs, E, bits, s + 1, GroupsAfter(g, res, bits), ResAfter(E, res, bits))
    ensures |out| == |fs| && SlotOut(out, 0, fs, E, bits, s)
  {
    if res < bits {
      out, next := VectorRefill(acc, w, E, bits, res, fs, Times(s, bits));
    } else {
      out, next := VectorDrain(acc, E, bits, res, fs, Times(s, bits));
    }
    WalkStep(acc, next, fs, E, bits, s, g, res);
  }

  /** Slots of one run: both runs of a 256-bit walk have half of the block's slots. */
  function RunSlots(E: EltBytes, two: bool): nat { if two then 8 * E else 16 * E }

  ghost predicate Placed(d: seq<Bits>, src: seq<Byte>, at: nat, E: EltBytes, bits: nat, s: nat, l: nat)
    requires |d| == BLOCK && at + BodyBytes(bits) <= |src|
  {
    Item(E, s, l) < BLOCK && d[Item(E, s, l)] == BodyWord(src, at, E, bits, Item(E, s, l))
  }

  /** The first s slots of each run are in place. */
  ghost predicate RunsDone(d: seq<Bits>, src: seq<Byte>, at: nat, E: EltBytes, bits: nat, two: bool, s: nat)
    requires |d| == BLOCK && at + BodyBytes(bits) <= |src|
  {
    && (forall t, l :: 0 <= t < s && 0 <= l < Lanes(E) ==> Placed(d, src, at, E, bits, t, l))
    && (two ==> forall t, l :: 8 * E <= t < 8 * E + s && 0 <= l < Lanes(E) ==> Placed(d, src, at, E, bits, t, l))
  }

  lemma LowerSlot(src: seq<Byte>, at: nat, E: EltBytes, bits: nat, s: nat, l: nat)
    requires s < Slots(E) && l < Lanes(E) && at + BodyBytes(bits) <= |src|
    ensures Item(E, s, l) < BLOCK
    ensures Window(Lane(src, at, E, bits, l), Times(s, bits), bits, 8 * E) == BodyWord(src, at, E, bits, Item(E, s, l))
  {
    ItemSlot(E, s, l);
  }

  /** Slot s of the upper lanes is slot Slots / 2 + s of the block. */
  lemma UpperSlot(src: seq<Byte>, at: nat, E: EltBytes, bits: nat, s: nat, l: nat)
    requires s < 8 * E && l < Lanes(E) && at + BodyBytes(bits) <= |src|
    ensures Item(E, 8 * E + s, l) < BLOCK
    ensures Window(Shifted(Lane(src, at, E, bits, l), WordStart(E, bits)), Times(s, bits), bits, 8 * E)
         == BodyWord(src, at, E, bits, Item(E, 8 * E + s, l))
  {
    hide Window, Shifted, Lane, WordStart, BodyWord, Item;
    HalfStart(E, bits);
    TimesAdd(8 * E, s, bits);
    ShiftedWindow(Lane(src, at, E, bits, l), WordStart(E, bits), Times(s, bits), bits, 8 * E);
    LowerSlot(src, at, E, bits, 8 * E + s, l);
  }

  lemma HalfStart(E: EltBytes, bits: nat)
    ensures Times(8 * E, bits) == WordStart(E, bits) && Times(16 * E, bits) == WordStart(E, 2 * bits)
  {
    TimesIsProduct(8 * E, bits);
    TimesIsProduct(16 * E, bits);
  }

  /** The lanes of one group are at their places of slot s. */
  ghost predicate RunStored(d: seq<Bits>, off: nat, out: Vector, E: EltBytes, s: nat)
    requires off + BLOCK <= |d|
  {
    forall l :: 0 <= l < |out| ==> Item(E, s, l) < BLOCK && d[off + Item(E, s, l)] == out[l]
  }

  method StoreRun(dst: array<Bits>, off: nat, out: Vector, E: EltBytes, s: nat)
    requires off + BLOCK <= dst.Length && s < Slots(E) && |out| == Lanes(E)
    modifies dst
    ensures RunStored(dst[..], off, out, E, s)
    ensures forall i :: 0 <= i < BLOCK && SlotOf(E, i) != s ==> dst[off + i] == old(dst[off + i])
    ensures forall i :: 0 <= i < dst.Length && !(off <= i < off + BLOCK) ==> dst[i] == old(dst[i])
  {
    for k := 0 to |out|
      invariant forall l :: 0 <= l < k ==> Item(E, s, l) < BLOCK && dst[off + Item(E, s, l)] == out[l]
      invariant forall i :: 0 <= i < BLOCK && SlotOf(E, i) != s ==> dst[off + i] == old(dst[off + i])
      invariant forall i :: 0 <= i < dst.Length && !(off <= i < off + BLOCK) ==> dst[i] == old(dst[i])
    {
      ItemSlot(E, s, k);
      dst[off + Item(E, s, k)] := out[k];
    }
  }

  /** Stores the outputs of slot s: once per run. */
  method StoreVector(dst: array<Bits>, off: nat, out: Vector, E: EltBytes, two: bool, s: nat)
    requires off + BLOCK <= dst.Length && s < RunSlots(E, two)
    requires |out| == if two then 2 * Lanes(E) else Lanes(E)
    modifies dst
    ensures RunStored(dst[..], off, out[..Lanes(E)], E, s)
    ensures two ==> RunStored(dst[..], off, out[Lanes(E)..], E, 8 * E + s)
    ensures forall i :: 0 <= i < BLOCK && SlotOf(E, i) != s && !(two && SlotOf(E, i) == 8 * E + s) ==>
      dst[off + i] == old(dst[off + i])
    ensures forall i :: 0 <= i < dst.Length && !(off <= i < off + BLOCK) ==> dst[i] == old(dst[i])
  {
    StoreRun(dst, off, out[..Lanes(E)], E, s);
    if two {
      label lower:
      StoreRun(dst, off, out[Lanes(E)..], E, 8 * E + s);
      forall l | 0 <= l < Lanes(E) ensures Item(E, s, l) < BLOCK && dst[off + Item(E, s, l)] == out[..Lanes(E)][l] {
        ItemSlot(E, s, l);
        assert dst[off + Item(E, s, l)] == old@lower(dst[off + Item(E, s, l)]) == out[..Lanes(E)][l];
      }
    }
  }

  /** Storing a slot extends both runs. */
  lemma RunsNext(before: seq<Bits>, d: seq<Bits>, out: Vector, src: seq<Byte>, at: nat, E: EltBytes, bits: nat,
                 two: bool, s: nat)
    requires |before| == |d| == BLOCK && at + BodyBytes(bits) <= |src| && s < RunSlots(E, two)
    requires RunsDone(before, src, at, E, bits, two, s)
    requires SlotOut(out, 0, VectorStreams(src, at, E, bits, two), E, bits, s)
    requires |out| == if two then 2 * Lanes(E) else Lanes(E)
    requires RunStored(d, 0, out[..Lanes(E)], E, s)
    requires two ==> RunStored(d, 0, out[Lanes(E)..], E, 8 * E + s)
    requires forall i :: 0 <= i < BLOCK && SlotOf(E, i) != s && !(two && SlotOf(E, i) == 8 * E + s) ==>
      d[i] == before[i]
    ensures RunsDone(d, src, at, E, bits, two, s + 1)
  {
    forall t, l | 0 <= t < s + 1 && 0 <= l < Lanes(E) ensures Placed(d, src, at, E, bits, t, l) {
      SlotPlaced(before, d, out, src, at, E, bits, two, s, t, l);
    }
    if two {
      forall t, l | 8 * E <= t < 8 * E + s + 1 && 0 <= l < Lanes(E) ensures Placed(d, src, at, E, bits, t, l) {
        SlotPlaced(before, d, out, src, at, E, bits, two, s, t, l);
      }
    }
  }

  lemma SlotPlaced(before: seq<Bits>, d: seq<Bits>, out: Vector, src: seq<Byte>, at: nat, E: EltBytes, bits: nat,
                   two: bool, s: nat, t: nat, l: nat)
    requires |before| == |d| == BLOCK && at + BodyBytes(bits) <= |src| && s < RunSlots(E, two)
    requires t < Slots(E) && l < Lanes(E)
    requires t != s && !(two && t == 8 * E + s) ==> Placed(before, src, at, E, bits, t, l)
    requires SlotOut(out, 0, VectorStreams(src, at, E, bits, two), E, bits, s)
    requires |out| == if two then 2 * Lanes(E) else Lanes(E)
    requires RunStored(d, 0, out[..Lanes(E)], E, s)
    requires two ==> RunStored(d, 0, out[Lanes(E)..], E, 8 * E + s)
    requires forall i :: 0 <= i < BLOCK && SlotOf(E, i) != s && !(two && SlotOf(E, i) == 8 * E + s) ==>
      d[i] == before[i]
    ensures Placed(d, src, at, E, bits, t, l)
  {
    if t == s {
      LowerSlot(src, at, E, bits, s, l);
      assert d[0 + Item(E, s, l)] == out[..Lanes(E)][l] == out[0 + l];
    } else if two && t == 8 * E + s {
      UpperSlot(src, at, E, bits, s, l);
      assert d[0 + Item(E, 8 * E + s, l)] == out[Lanes(E)..][l] == out[0 + (Lanes(E) + l)];
    } else {
      ItemSlot(E, t, l);
    }
  }

  /** The invariant of the vector walk before slot s of each run. */
  ghost predicate VectorAt(d: seq<Bits>, acc: Vector, src: seq<Byte>, at: nat, E: EltBytes, bits: nat, two: bool,
                           s: nat, g: nat, res: nat, pos: nat)
    requires |d| == BLOCK && at + BodyBytes(bits) <= |src|
  {
    && WalkAt(acc, VectorStreams(src, at, E, bits, two), E, bits, s, g, res)
    && pos == at + GROUP * g
    && RunsDone(d, src, at, E, bits, two, s)
  }

  lemma RunStoredSlice(d: seq<Bits>, off: nat, out: Vector, E: EltBytes, s: nat)
    requires off + BLOCK <= |d| && RunStored(d, off, out, E, s)
    ensures RunStored(d[off..off + BLOCK], 0, out, E, s)
  {
  }

  method StoreNext(dst: array<Bits>, off: nat, out: Vector, src: seq<Byte>, at: nat, E: EltBytes, bits: nat, two: bool,
                   s: nat)
    requires off + BLOCK <= dst.Length && at + BodyBytes(bits) <= |src| && s < RunSlots(E, two)
    requires RunsDone(dst[off..off + BLOCK], src, at, E, bits, two, s)
    requires SlotOut(out, 0, VectorStreams(src, at, E, bits, two), E, bits, s)
    requires |out| == if two then 2 * Lanes(E) else Lanes(E)
    modifies dst
    ensures RunsDone(dst[off..off + BLOCK], src, at, E, bits, two, s + 1)
    ensures forall i :: 0 <= i < dst.Length && !(off <= i < off + BLOCK) ==> dst[i] == old(dst[i])
  {
    ghost var before := dst[off..off + BLOCK];
    StoreVector(dst, off, out, E, two, s);
    ghost var d := dst[off..off + BLOCK];
    assert d == dst[..][off..off + BLOCK];
    RunStoredSlice(dst[..], off, out[..Lanes(E)], E, s);
    if two {
      RunStoredSlice(dst[..], off, out[Lanes(E)..], E, 8 * E + s);
    }
    RunsNext(before, d, out, src, at, E, bits, two, s);
  }

  method VectorStep(dst: array<Bits>, off: nat, acc: Vector, src: seq<Byte>, at: nat, E: EltBytes, bits: nat,
                    two: bool, s: nat, res: nat, pos: nat, ghost g: nat)
    returns (next: Vector, res': nat, pos': nat)
    requires off + BLOCK <= dst.Length && 0 < bits < 8 * E && at + BodyBytes(bits) <= |src| && s < RunSlots(E, two)
    requires VectorAt(dst[off..off + BLOCK], acc, src, at, E, bits, two, s, g, res, pos)
    modifies dst
    ensures res' == ResAfter(E, res, bits)
    ensures VectorAt(dst[off..off + BLOCK], next, src, at, E, bits, two, s + 1, GroupsAfter(g, res, bits), res', pos')
    ensures forall i :: 0 <= i < dst.Length && !(off <= i < off + BLOCK) ==> dst[i] == old(dst[i])
  {
    ghost var fs := VectorStreams(src, at, E, bits, two);
    HalfStart(E, bits);
    WalkBound(E, bits, s, g, res, RunSlots(E, two), if two then bits else 2 * bits);
    var w: Vector := [];
    pos' := pos;
    if res < bits {
      w := LoadVector(src, at, E, bits, two, pos, g);
      pos' := pos + GROUP;
    }
    var out;
    out, next := VectorSlot(acc, w, E, bits, res, s, g, fs);
    res' := ResAfter(E, res, bits);
    StoreNext(dst, off, out, src, at, E, bits, two, s);
  }

  /** When every slot of every run is in place, so is every value. */
  lemma RunsAll(d: seq<Bits>, src: seq<Byte>, at: nat, E: EltBytes, bits: nat, two: bool)
    requires |d| == BLOCK && at + BodyBytes(bits) <= |src|
    requires RunsDone(d, src, at, E, bits, two, RunSlots(E, two))
    ensures Unpacked(d, src, at, E, bits)
  {
    forall i | 0 <= i < BLOCK ensures d[i] == BodyWord(src, at, E, bits, i) {
      SlotLane(E, i);
      assert Placed(d, src, at, E, bits, SlotOf(E, i), LaneOf(E, i));
    }
  }

  method UnpackVector(dst: array<Bits>, off: nat, src: seq<Byte>, at: nat, E: EltBytes, bits: nat, two: bool)
    requires off + BLOCK <= dst.Length && 0 < bits < 8 * E && at + BodyBytes(bits) <= |src|
    modifies dst
    ensures Unpacked(dst[off..off + BLOCK], src, at, E, bits)
    ensures forall i :: 0 <= i < dst.Length && !(off <= i < off + BLOCK) ==> dst[i] == old(dst[i])
  {
    var acc := seq(if two then 2 * Lanes(E) else Lanes(E), l => Zero(8 * E));
    var res: nat, pos: nat := 0, at;
    ghost var g: nat := 0;
    WalkStart(VectorStreams(src, at, E, bits, two), E, bits);
    for s := 0 to RunSlots(E, two)
      invariant VectorAt(dst[off..off + BLOCK], acc, src, at, E, bits, two, s, g, res, pos)
      invariant forall i :: 0 <= i < dst.Length && !(off <= i < off + BLOCK) ==> dst[i] == old(dst[i])
    {
      ghost var next := GroupsAfter(g, res, bits);
      acc, res, pos := VectorStep(dst, off, acc, src, at, E, bits, two, s, res, pos, g);
      g := next;
    }
    RunsAll(dst[off..off + BLOCK], src, at, E, bits, two);
  }
}
