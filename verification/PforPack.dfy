/** The body of a PFOR block: the low bits of the 256 values, packed across
    interleaved lanes through a one-word reservoir per lane. */
module PforPack {
  import opened Words
  import opened Arith
  import opened Streams
  import opened PforFormat

  /** src holds one block of E-byte words. */
  predicate IsBlock(src: seq<Bits>, E: EltBytes) {
    |src| == BLOCK && forall i :: 0 <= i < BLOCK ==> |src[i]| == 8 * E
  }

  /** Bit k of the stream that lane l contributes: slot after slot, low bits first. */
  predicate LaneBit(src: seq<Bits>, E: EltBytes, bits: nat, l: nat, k: nat)
    requires bits > 0
  {
    var i := Item(E, k / bits, l);
    i < |src| && k % bits < |src[i]| && src[i][k % bits]
  }

  /** Word g of lane l, of which only the low nb bits have been filled. */
  function LaneWord(src: seq<Bits>, E: EltBytes, bits: nat, l: nat, g: nat, nb: nat): (w: Bits)
    requires bits > 0
    ensures |w| == 8 * E
    ensures forall j :: 0 <= j < 8 * E ==> w[j] == (j < nb && LaneBit(src, E, bits, l, WordStart(E, g) + j))
  {
    seq(8 * E, j requires 0 <= j < 8 * E => j < nb && LaneBit(src, E, bits, l, WordStart(E, g) + j))
  }

  lemma LaneBitOfSlot(src: seq<Bits>, E: EltBytes, bits: nat, l: nat, s: nat, j: nat)
    requires IsBlock(src, E) && 0 < bits <= 8 * E && l < Lanes(E) && s < Slots(E) && j < bits
    ensures Item(E, s, l) < BLOCK
    ensures LaneBit(src, E, bits, l, Times(s, bits) + j) == src[Item(E, s, l)][j]
  {
    ItemSlot(E, s, l);
    TimesIsProduct(s, bits);
    DivModUnique(s, bits, j);
  }

  /** OR-ing a slot into the reservoir word extends its filled part. */
  lemma AccumulateWord(src: seq<Bits>, E: EltBytes, bits: nat, l: nat, s: nat, g: nat, nb: nat)
    requires IsBlock(src, E) && 0 < bits <= 8 * E && l < Lanes(E) && s < Slots(E)
    requires nb < 8 * E && WordStart(E, g) + nb == Times(s, bits)
    ensures Item(E, s, l) < BLOCK
    ensures Or(LaneWord(src, E, bits, l, g, nb), Shl(And(src[Item(E, s, l)], Mask(8 * E, bits)), nb))
         == LaneWord(src, E, bits, l, g, nb + bits)
  {
    ItemSlot(E, s, l);
    var v := src[Item(E, s, l)];
    var a := Or(LaneWord(src, E, bits, l, g, nb), Shl(And(v, Mask(8 * E, bits)), nb));
    var b := LaneWord(src, E, bits, l, g, nb + bits);
    forall j | 0 <= j < 8 * E ensures a[j] == b[j] {
      if nb <= j < nb + bits {
        LaneBitOfSlot(src, E, bits, l, s, j - nb);
        assert WordStart(E, g) + j == Times(s, bits) + (j - nb);
      }
    }
  }

  /** A filled word carries its overflow into the next one. */
  lemma CarryWord(src: seq<Bits>, E: EltBytes, bits: nat, l: nat, s: nat, g: nat, nb: nat)
    requires IsBlock(src, E) && 0 < bits <= 8 * E && l < Lanes(E) && s < Slots(E)
    requires nb < 8 * E <= nb + bits && WordStart(E, g) + nb == Times(s, bits)
    ensures Item(E, s, l) < BLOCK
    ensures LaneWord(src, E, bits, l, g, nb + bits) == LaneWord(src, E, bits, l, g, 8 * E)
    ensures Shr(And(src[Item(E, s, l)], Mask(8 * E, bits)), 8 * E - nb)
         == LaneWord(src, E, bits, l, g + 1, nb + bits - 8 * E)
  {
    ItemSlot(E, s, l);
    var v := src[Item(E, s, l)];
    var r := nb + bits - 8 * E;
    var a := Shr(And(v, Mask(8 * E, bits)), 8 * E - nb);
    var b := LaneWord(src, E, bits, l, g + 1, r);
    assert WordStart(E, g + 1) == WordStart(E, g) + 8 * E;
    forall j | 0 <= j < 8 * E ensures a[j] == b[j] {
      if j < r {
        LaneBitOfSlot(src, E, bits, l, s, j + (8 * E - nb));
        assert WordStart(E, g + 1) + j == Times(s, bits) + (j + (8 * E - nb));
      }
    }
  }

  /** Byte b of a stored group. */
  function GroupByte(words: seq<Bits>, E: EltBytes, b: nat): Byte
    requires |words| == Lanes(E) && b < GROUP
    requires forall l :: 0 <= l < Lanes(E) ==> |words[l]| == 8 * E
  {
    Cast(Shr(words[b / E], 8 * (b % E)), 8)
  }

  lemma GroupBits(words: seq<Bits>, E: EltBytes, l: nat, j: nat)
    requires |words| == Lanes(E) && l < Lanes(E) && j < 8 * E
    requires forall l :: 0 <= l < Lanes(E) ==> |words[l]| == 8 * E
    ensures LaneByte(E, l) + j / 8 < GROUP
    ensures GroupByte(words, E, LaneByte(E, l) + j / 8)[j % 8] == words[l][j]
  {
    assert (LaneByte(E, l) + j / 8) / E == l && (LaneByte(E, l) + j / 8) % E == j / 8;
  }

  /** The 16 bytes at pos hold the lane words, least significant byte first. */
  ghost predicate GroupStored(p: seq<Byte>, pos: nat, words: seq<Bits>, E: EltBytes)
    requires |words| == Lanes(E) && pos + GROUP <= |p|
    requires forall l :: 0 <= l < Lanes(E) ==> |words[l]| == 8 * E
  {
    forall b :: 0 <= b < GROUP ==> p[pos + b] == GroupByte(words, E, b)
  }

  method StoreGroup(p: array<Byte>, pos: nat, acc: array<Bits>, E: EltBytes)
    requires acc.Length == Lanes(E) && pos + GROUP <= p.Length
    requires forall l :: 0 <= l < Lanes(E) ==> |acc[l]| == 8 * E
    modifies p
    ensures GroupStored(p[..], pos, acc[..], E)
    ensures forall i :: 0 <= i < p.Length && !(pos <= i < pos + GROUP) ==> p[i] == old(p[i])
  {
    for b := 0 to GROUP
      invariant forall i :: 0 <= i < p.Length && !(pos <= i < pos + b) ==> p[i] == old(p[i])
      invariant forall i :: 0 <= i < b ==> p[pos + i] == GroupByte(acc[..], E, i)
    {
      p[pos + b] := GroupByte(acc[..], E, b);
    }
  }

  /** The first k bits of every lane are where the format wants them. */
  ghost predicate LanesStored(p: seq<Byte>, at: nat, src: seq<Bits>, E: EltBytes, bits: nat, groups: nat)
    requires bits > 0 && at + GROUP * groups <= |p|
  {
    forall g, l, j :: 0 <= g < groups && 0 <= l < Lanes(E) && 0 <= j < 8 * E ==>
      BitAt(p, 8 * at + WordBit(E, g, l, j)) == LaneBit(src, E, bits, l, WordStart(E, g) + j)
  }

  lemma GroupAdded(before: seq<Byte>, p: seq<Byte>, at: nat, words: seq<Bits>, src: seq<Bits>, E: EltBytes, bits: nat,
                   g: nat)
    requires bits > 0 && at + GROUP * (g + 1) <= |p| == |before| && |words| == Lanes(E)
    requires forall l :: 0 <= l < Lanes(E) ==> words[l] == LaneWord(src, E, bits, l, g, 8 * E)
    requires LanesStored(before, at, src, E, bits, g)
    requires forall i :: 0 <= i < at + GROUP * g ==> p[i] == before[i]
    requires forall l :: 0 <= l < Lanes(E) ==> |words[l]| == 8 * E
    requires GroupStored(p, at + GROUP * g, words, E)
    ensures LanesStored(p, at, src, E, bits, g + 1)
  {
    hide BitAt, LaneBit, WordStart, GroupStored, LaneWord;
    forall g', l, j | 0 <= g' < g + 1 && 0 <= l < Lanes(E) && 0 <= j < 8 * E
      ensures BitAt(p, 8 * at + WordBit(E, g', l, j)) == LaneBit(src, E, bits, l, WordStart(E, g') + j)
    {
      if g' < g {
        BitLocal(before, p, at + GROUP * g, 8 * at + WordBit(E, g', l, j));
      } else {
        GroupRead(p, at, g, words, E, l, j);
      }
    }
  }

  lemma GroupRead(p: seq<Byte>, at: nat, g: nat, words: seq<Bits>, E: EltBytes, l: nat, j: nat)
    requires |words| == Lanes(E) && at + GROUP * (g + 1) <= |p| && l < Lanes(E) && j < 8 * E
    requires forall l :: 0 <= l < Lanes(E) ==> |words[l]| == 8 * E
    requires GroupStored(p, at + GROUP * g, words, E)
    ensures BitAt(p, 8 * at + WordBit(E, g, l, j)) == words[l][j]
  {
    var q := LaneByte(E, l) + j / 8;
    GroupBits(words, E, l, j);
    assert p[(at + GROUP * g) + q] == GroupByte(words, E, q);
    assert (8 * at + WordBit(E, g, l, j)) / 8 == at + GROUP * g + q;
  }

  lemma LaneRead(p: seq<Byte>, at: nat, src: seq<Bits>, E: EltBytes, bits: nat, l: nat, k: nat)
    requires 0 < bits && at + BodyBytes(bits) <= |p| && l < Lanes(E) && k < WordStart(E, 2 * bits)
    requires LanesStored(p, at, src, E, bits, 2 * bits)
    ensures BitAt(p, 8 * at + LaneIndex(E, bits, l, k)) == LaneBit(src, E, bits, l, k)
  {
    WordSplit(E, k, 2 * bits);
    hide WordOf, WordStart, WordBit, LaneBit, BitAt, Lanes;
    var g := WordOf(E, k);
    var r := k - WordStart(E, g);
    assert BitAt(p, 8 * at + WordBit(E, g, l, r)) == LaneBit(src, E, bits, l, WordStart(E, g) + r);
  }

  /** A fully stored body reads back as the low bits of the values. */
  lemma LanesRead(p: seq<Byte>, at: nat, src: seq<Bits>, E: EltBytes, bits: nat, i: nat, j: nat)
    requires IsBlock(src, E) && 0 < bits <= 8 * E && at + BodyBytes(bits) <= |p|
    requires LanesStored(p, at, src, E, bits, 2 * bits)
    requires i < BLOCK && j < bits
    ensures BodyBit(p, at, E, bits, i, j) == src[i][j]
  {
    SlotLane(E, i);
    SlotBound(E, bits, SlotOf(E, i), j);
    hide LaneIndex, WordStart, LaneBit, BitAt, SlotOf, LaneOf, Lanes, Item;
    LaneRead(p, at, src, E, bits, LaneOf(E, i), Times(SlotOf(E, i), bits) + j);
    LaneBitOfSlot(src, E, bits, LaneOf(E, i), SlotOf(E, i), j);
  }

  method Accumulate(acc: array<Bits>, src: seq<Bits>, E: EltBytes, bits: nat, s: nat, nb: nat, ghost g: nat)
    requires IsBlock(src, E) && 0 < bits <= 8 * E && s < Slots(E) && acc.Length == Lanes(E)
    requires nb < 8 * E && WordStart(E, g) + nb == Times(s, bits)
    requires forall l :: 0 <= l < Lanes(E) ==> acc[l] == LaneWord(src, E, bits, l, g, nb)
    modifies acc
    ensures forall l :: 0 <= l < Lanes(E) ==> acc[l] == LaneWord(src, E, bits, l, g, nb + bits)
  {
    var mask := Mask(8 * E, bits);
    for l := 0 to Lanes(E)
      invariant forall k :: 0 <= k < l ==> acc[k] == LaneWord(src, E, bits, k, g, nb + bits)
      invariant forall k :: l <= k < Lanes(E) ==> acc[k] == LaneWord(src, E, bits, k, g, nb)
    {
      AccumulateWord(src, E, bits, l, s, g, nb);
      acc[l] := Or(acc[l], Shl(And(src[Item(E, s, l)], mask), nb));
    }
  }

  method Carry(acc: array<Bits>, src: seq<Bits>, E: EltBytes, bits: nat, s: nat, r: nat, ghost g: nat)
    requires IsBlock(src, E) && 0 < bits <= 8 * E && s < Slots(E) && acc.Length == Lanes(E)
    requires r < bits && WordStart(E, g) + (8 * E - (bits - r)) == Times(s, bits)
    modifies acc
    ensures forall l :: 0 <= l < Lanes(E) ==> acc[l] == LaneWord(src, E, bits, l, g + 1, r)
  {
    var mask := Mask(8 * E, bits);
    for l := 0 to Lanes(E)
      invariant forall k :: 0 <= k < l ==> acc[k] == LaneWord(src, E, bits, k, g + 1, r)
    {
      if r != 0 {
        CarryWord(src, E, bits, l, s, g, 8 * E - (bits - r));
        acc[l] := Shr(And(src[Item(E, s, l)], mask), bits - r);
      } else {
        acc[l] := Zero(8 * E);
      }
    }
  }

  lemma PackNone(p: seq<Byte>, at: nat, src: seq<Bits>, E: EltBytes, bits: nat)
    requires IsBlock(src, E) && 0 < bits <= 8 * E && at + BodyBytes(bits) <= |p|
    ensures WordStart(E, 0) == 0 && LanesStored(p, at, src, E, bits, 0)
    ensures forall l :: 0 <= l < Lanes(E) ==> Zero(8 * E) == LaneWord(src, E, bits, l, 0, 0)
  {
  }

  /** Packs the low bits of every value; returns the byte after the body. */
  method PackBody(p: array<Byte>, at: nat, src: seq<Bits>, E: EltBytes, bits: nat) returns (next: nat)
    requires IsBlock(src, E) && 0 < bits <= 8 * E && at + BodyBytes(bits) <= p.Length
    modifies p
    ensures next == at + BodyBytes(bits)
    ensures LanesStored(p[..], at, src, E, bits, 2 * bits)
    ensures forall i :: 0 <= i < p.Length && !(at <= i < at + BodyBytes(bits)) ==> p[i] == old(p[i])
  {
    hide LaneWord, LanesStored;
    var acc := new Bits[Lanes(E)](l => Zero(8 * E));
    PackNone(p[..], at, src, E, bits);
    var nb := 0;
    next := at;
    ghost var g := 0;
    for s := 0 to Slots(E)
      invariant 0 <= nb < 8 * E && WordStart(E, g) + nb == Times(s, bits)
      invariant next == at + GROUP * g && g <= 2 * bits
      invariant fresh(acc)
      invariant forall l :: 0 <= l < Lanes(E) ==> acc[l] == LaneWord(src, E, bits, l, g, nb)
      invariant LanesStored(p[..], at, src, E, bits, g)
      invariant forall i :: 0 <= i < p.Length && !(at <= i < next) ==> p[i] == old(p[i])
    {
      Accumulate(acc, src, E, bits, s, nb, g);
      GroupsBound(E, bits, s, g, nb);
      if nb + bits >= 8 * E {
        nb := StoreAndCarry(p, at, next, acc, src, E, bits, s, nb, g);
        next := next + GROUP;
        g := g + 1;
      } else {
        nb := nb + bits;
      }
    }
    GroupsAll(E, bits, g, nb);
  }

  lemma GroupsBound(E: EltBytes, bits: nat, s: nat, g: nat, nb: nat)
    requires 0 < bits <= 8 * E && s < Slots(E)
    requires nb < 8 * E && WordStart(E, g) + nb == Times(s, bits)
    ensures Times(s + 1, bits) == Times(s, bits) + bits
    ensures nb + bits >= 8 * E ==> g < 2 * bits
  {
    SlotBound(E, bits, s, bits - 1);
  }

  lemma GroupsAll(E: EltBytes, bits: nat, g: nat, nb: nat)
    requires nb < 8 * E && WordStart(E, g) + nb == Times(Slots(E), bits)
    ensures g == 2 * bits && nb == 0
  {
    TimesIsProduct(Slots(E), bits);
  }

  method StoreAndCarry(p: array<Byte>, at: nat, next: nat, acc: array<Bits>, src: seq<Bits>, E: EltBytes, bits: nat,
                       s: nat, nb: nat, ghost g: nat)
    returns (r: nat)
    requires IsBlock(src, E) && 0 < bits <= 8 * E && s < Slots(E) && acc.Length == Lanes(E)
    requires nb < 8 * E <= nb + bits && WordStart(E, g) + nb == Times(s, bits)
    requires next == at + GROUP * g && next + GROUP <= p.Length
    requires forall l :: 0 <= l < Lanes(E) ==> acc[l] == LaneWord(src, E, bits, l, g, nb + bits)
    requires LanesStored(p[..], at, src, E, bits, g)
    modifies p, acc
    ensures r == nb + bits - 8 * E
    ensures LanesStored(p[..], at, src, E, bits, g + 1)
    ensures forall l :: 0 <= l < Lanes(E) ==> acc[l] == LaneWord(src, E, bits, l, g + 1, r)
    ensures forall i :: 0 <= i < p.Length && !(next <= i < next + GROUP) ==> p[i] == old(p[i])
  {
    r := nb + bits - 8 * E;
    ghost var before := p[..];
    ghost var words := acc[..];
    forall l | 0 <= l < Lanes(E) ensures words[l] == LaneWord(src, E, bits, l, g, 8 * E) {
      CarryWord(src, E, bits, l, s, g, nb);
    }
    StoreGroup(p, next, acc, E);
    GroupAdded(before, p[..], at, words, src, E, bits, g);
    Carry(acc, src, E, bits, s, r, g);
  }
}
