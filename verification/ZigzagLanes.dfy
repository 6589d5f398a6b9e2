/** Undoing the fold in a register (core/src/planar_zigzag/decode_planar_zigzag_kernel.c):
    a shift, the low bit negated into a mask, an exclusive or. Byte lanes have no shift
    of their own and borrow that of 16-bit lanes. */
module ZigzagLanes {
  import opened Words
  import opened Machine
  import opened Arith
  import opened PforVector
  import PrefixSums

  type Isa = PrefixSums.Isa

  type Lanes = PrefixSums.Lanes

  // (z >> 1) ^ (0 - (z & 1)), the shift given.
  function Unfolded(half: Bits, z: Bits): (w: Bits)
    requires |half| == |z|
    ensures |w| == |z|
  {
    Xor(half, Negated(|z|, Value(And(z, Mask(|z|, 1)))))
  }

  lemma {:induction false} ValueTop(a: Bits)
    ensures Value(a + [false]) == Value(a)
  {
    if |a| > 0 {
      ValueTop(a[1..]);
      assert (a + [false])[1..] == a[1..] + [false];
    }
  }

  lemma {:induction false} ValueZero(n: nat)
    ensures Value(Zero(n)) == 0
  {
    if n > 0 {
      ValueZero(n - 1);
      assert Zero(n)[1..] == Zero(n - 1);
    }
  }

  lemma HalfValue(a: Bits)
    requires |a| > 0
    ensures Value(Shr(a, 1)) == Value(a) / 2
  {
    ValueTop(a[1..]);
    assert Shr(a, 1) == a[1..] + [false];
  }

  lemma ValueStep(a: Bits)
    requires |a| > 0
    ensures Value(a) == (if a[0] then 1 else 0) + 2 * Value(a[1..])
  {
  }

  function LowBit(a: Bits): nat
    requires |a| > 0
  {
    if a[0] then 1 else 0
  }

  lemma LowValue(a: Bits)
    requires |a| > 0
    ensures Value(And(a, Mask(|a|, 1))) == LowBit(a) == Value(a) % 2
  {
    hide Value, Pow2;
    LowOnly(a);
    ValueZero(|a| - 1);
    ValueStep(And(a, Mask(|a|, 1)));
    ValueStep(a);
    Parity(a[0], Value(a[1..]), Value(a));
  }

  lemma LowOnly(a: Bits)
    requires |a| > 0
    ensures And(a, Mask(|a|, 1))[1..] == Zero(|a| - 1)
    ensures And(a, Mask(|a|, 1))[0] == a[0]
  {
  }

  lemma Parity(odd: bool, half: nat, v: nat)
    requires v == (if odd then 1 else 0) + 2 * half
    ensures v % 2 == if odd then 1 else 0
  {
  }

  /** Lanes with a shift of their own. */
  lemma UnfoldedWord(z: Bits)
    requires |z| > 0
    ensures Value(Unfolded(Shr(z, 1), z)) == Unzigzag(|z|, Value(z))
  {
    hide *;
    HalfValue(z);
    LowValue(z);
    OfNatValue(Shr(z, 1));
    ValueSmall(z);
    UnfoldedBy(Shr(z, 1), z, LowBit(z));
    SameXor(|z|, Shr(z, 1), LowBit(z), Value(z));
  }

  // 0 - low in n bits, as a word.
  function Negated(n: nat, low: nat): (w: Bits)
    ensures |w| == n
  {
    OfNat(Wrap(Size(n), 0 - low), n)
  }

  lemma UnfoldedBy(half: Bits, z: Bits, low: nat)
    requires |half| == |z| > 0 && low == Value(And(z, Mask(|z|, 1)))
    ensures Unfolded(half, z) == Xor(half, Negated(|z|, low))
  {
    hide Value, Xor, And, Mask, Negated;
  }

  lemma SameXor(B: nat, half: Bits, low: nat, z: nat)
    requires B > 0 && |half| == B && half == OfNat(z / 2, B) && low == z % 2 && z < Size(B)
    ensures Value(Xor(half, Negated(B, low))) == Unzigzag(B, z)
  {
    hide Value, OfNat, Wrap, Size, Xor;
    WrapIs(Size(B), z, z, 0);
  }

  lemma ValueSmall(z: Bits)
    ensures Value(z) < Size(|z|)
  {
  }

  // ---------- whole registers ----------

  lemma {:induction false} ValueWraps(v: nat, n: nat)
    ensures Value(OfNat(v, n)) == v % Pow2(n)
  {
    if n == 0 {
      assert v % 1 == 0;
    } else {
      ValueWraps(v / 2, n - 1);
      ValueStep(OfNat(v, n));
      assert OfNat(v, n)[1..] == OfNat(v / 2, n - 1);
      HalfRemainder(v, Pow2(n - 1));
    }
  }

  lemma HalfRemainder(v: nat, p: nat)
    requires p > 0
    ensures v % (2 * p) == v % 2 + 2 * (v / 2 % p)
  {
    DivModParts(v / 2, p);
    var q := v / 2 / p;
    assert v == q * (2 * p) + (v % 2 + 2 * (v / 2 % p)) by {
      assert q * (2 * p) == 2 * (q * p);
    }
    DivModUnique(q, 2 * p, v % 2 + 2 * (v / 2 % p));
  }

  function WordsOf(B: nat, x: Lanes): (w: Vector)
    ensures |w| == |x| && forall j :: 0 <= j < |w| ==> w[j] == OfNat(x[j], B)
  {
    seq(|x|, j requires 0 <= j < |x| => OfNat(x[j], B))
  }

  /** The half of every lane: NEON shifts bytes as bytes, the others as 16-bit words. */
  function Halves(isa: Isa, B: nat, w: Vector): (h: Vector)
    requires |w| % 2 == 0 && forall j :: 0 <= j < |w| ==> |w[j]| == B
    ensures |h| == |w| && forall j :: 0 <= j < |w| ==> h[j] == Shr(w[j], 1)
  {
    if B == 8 && !isa.Neon? then
      ByteShifts(w, 1);
      ShrBytes(w, 1)
    else seq(|w|, j requires 0 <= j < |w| => Shr(w[j], 1))
  }

  /** unzigzag of a register. */
  function UnfoldRegister(isa: Isa, B: nat, x: Lanes): (r: Lanes)
    requires |x| % 2 == 0
    ensures |r| == |x|
  {
    var w := WordsOf(B, x);
    var half := Halves(isa, B, w);
    seq(|x|, j requires 0 <= j < |x| => Value(Unfolded(half[j], w[j])))
  }

  /** It undoes the fold in every lane, on every instruction set. */
  lemma RegisterUnfolds(isa: Isa, B: nat, x: Lanes)
    requires B > 0 && |x| % 2 == 0
    ensures forall j: nat :: j < |x| ==> UnfoldRegister(isa, B, x)[j] == Unzigzag(B, x[j])
  {
    hide Unfolded, Halves, Value, OfNat, Unzigzag;
    var w := WordsOf(B, x);
    forall j: nat | j < |x| ensures UnfoldRegister(isa, B, x)[j] == Unzigzag(B, x[j]) {
      UnfoldedWord(w[j]);
      ValueWraps(x[j], B);
      WrappedUnfolds(B, x[j]);
    }
  }

  lemma WrappedUnfolds(B: nat, z: nat)
    requires B > 0
    ensures Unzigzag(B, z % Pow2(B)) == Unzigzag(B, z)
  {
    hide XorN;
    DivModUnique(0, Pow2(B), z % Pow2(B));
  }
}
