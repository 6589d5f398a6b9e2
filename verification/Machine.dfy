/** Unsigned machine integers of B bits as numbers below 2^B: wrapping arithmetic, and
    the bitwise operators by way of their bits. */
module Machine {
  import opened Words

  function Size(B: nat): (M: nat)
    ensures M >= 1
  {
    Pow2(B)
  }

  /** The cast to B bits. */
  function Wrap(M: nat, x: int): (r: nat)
    requires M > 0
    ensures r < M
  {
    x % M
  }

  function Xor(a: Bits, b: Bits): (w: Bits)
    requires |a| == |b|
    ensures |w| == |a| && forall i :: 0 <= i < |a| ==> w[i] == (a[i] != b[i])
  {
    seq(|a|, i requires 0 <= i < |a| => a[i] != b[i])
  }

  function Not(a: Bits): (w: Bits)
    ensures |w| == |a| && forall i :: 0 <= i < |a| ==> w[i] == !a[i]
  {
    seq(|a|, i requires 0 <= i < |a| => !a[i])
  }

  function AndN(B: nat, a: nat, b: nat): (r: nat)
    ensures r < Size(B)
  {
    Value(And(OfNat(a, B), OfNat(b, B)))
  }

  function OrN(B: nat, a: nat, b: nat): (r: nat)
    ensures r < Size(B)
  {
    Value(Or(OfNat(a, B), OfNat(b, B)))
  }

  function XorN(B: nat, a: nat, b: nat): (r: nat)
    ensures r < Size(B)
  {
    Value(Xor(OfNat(a, B), OfNat(b, B)))
  }

  function NotN(B: nat, a: nat): (r: nat)
    ensures r < Size(B)
  {
    Value(Not(OfNat(a, B)))
  }

  /** (T)(0 - c) for a comparison c: all ones or nothing. */
  function MaskOf(B: nat, c: bool): (r: nat)
    ensures r == if c then Size(B) - 1 else 0
  {
    Negated(Size(B), if c then 1 else 0);
    Wrap(Size(B), 0 - (if c then 1 else 0))
  }

  lemma Negated(M: nat, x: nat)
    requires M > 0 && x <= 1
    ensures Wrap(M, 0 - x) == if x == 1 then M - 1 else 0
  {
    hide Wrap;
    if x == 1 {
      WrapIs(M, -1, M - 1, -1);
    } else {
      WrapIs(M, 0, 0, 0);
    }
  }

  lemma Product(d: int, M: nat)
    requires d >= 1
    ensures d * M >= M
  {
    assert (d - 1) * M >= 0;
  }

  /** Quotient and remainder are unique. */
  lemma SameRemainder(M: nat, r: nat, q: int, r': nat, q': int)
    requires M > 0 && r < M && r' < M && r + q * M == r' + q' * M
    ensures r == r'
  {
    assert (q - q') * M == r' - r && (q' - q) * M == r - r';
    if q > q' {
      Product(q - q', M);
    } else if q < q' {
      Product(q' - q, M);
    }
  }

  lemma QuotientAndRemainder(M: nat, x: int)
    requires M > 0
    ensures x == x % M + (x / M) * M
  {
  }

  /** x is q * M away from r. */
  lemma WrapIs(M: nat, x: int, r: nat, q: int)
    requires M > 0 && r < M && x == r + q * M
    ensures Wrap(M, x) == r
  {
    QuotientAndRemainder(M, x);
    SameRemainder(M, r, q, x % M, x / M);
  }

  lemma OddBits(k: nat, B: nat)
    requires B > 0
    ensures OfNat(2 * k + 1, B) == [true] + OfNat(k, B - 1)
  {
    assert (2 * k + 1) / 2 == k && (2 * k + 1) % 2 == 1;
  }

  lemma {:induction false} OnesBits(B: nat)
    ensures OfNat(Size(B) - 1, B) == Mask(B, B)
  {
    if B > 0 {
      OnesBits(B - 1);
      OddBits(Size(B - 1) - 1, B);
      assert Size(B) - 1 == 2 * (Size(B - 1) - 1) + 1;
      hide OfNat, Size;
    }
  }

  lemma {:induction false} ZeroBits(B: nat)
    ensures OfNat(0, B) == Zero(B)
  {
    if B > 0 {
      ZeroBits(B - 1);
    }
  }

  lemma {:induction false} NotValue(a: Bits)
    ensures Value(Not(a)) == Size(|a|) - 1 - Value(a)
  {
    if |a| > 0 {
      NotValue(a[1..]);
      assert Not(a)[1..] == Not(a[1..]);
    }
  }

  /** A mask keeps all of a word or nothing of it. */
  lemma AndMask(B: nat, c: bool, x: nat)
    requires x < Size(B)
    ensures AndN(B, MaskOf(B, c), x) == if c then x else 0
  {
    OnesBits(B);
    ZeroBits(B);
    ValueOfNat(x, B);
    ValueOfNat(0, B);
    if c {
      assert And(OfNat(Size(B) - 1, B), OfNat(x, B)) == OfNat(x, B);
    } else {
      assert And(OfNat(0, B), OfNat(x, B)) == OfNat(0, B);
    }
  }

  lemma NotMask(B: nat, c: bool)
    ensures NotN(B, MaskOf(B, c)) == MaskOf(B, !c)
  {
    NotValue(OfNat(MaskOf(B, c), B));
    ValueOfNat(MaskOf(B, c), B);
  }

  lemma OrZero(B: nat, x: nat)
    requires x < Size(B)
    ensures OrN(B, x, 0) == x && OrN(B, 0, x) == x
  {
    ZeroBits(B);
    ValueOfNat(x, B);
    assert Or(OfNat(x, B), OfNat(0, B)) == OfNat(x, B);
    assert Or(OfNat(0, B), OfNat(x, B)) == OfNat(x, B);
  }

  /** A mask flips all of a word or nothing of it. */
  lemma XorMask(B: nat, c: bool, x: nat)
    requires x < Size(B)
    ensures XorN(B, x, MaskOf(B, c)) == if c then Size(B) - 1 - x else x
  {
    OnesBits(B);
    ZeroBits(B);
    ValueOfNat(x, B);
    NotValue(OfNat(x, B));
    if c {
      assert Xor(OfNat(x, B), OfNat(Size(B) - 1, B)) == Not(OfNat(x, B));
    } else {
      assert Xor(OfNat(x, B), OfNat(0, B)) == OfNat(x, B);
    }
  }

  // ---------------------------------------------------------------------------
  // Wrapping arithmetic

  /** Adding back what was subtracted. */
  lemma SubAdd(M: nat, x: nat, p: int)
    requires M > 0 && x < M
    ensures Wrap(M, Wrap(M, x - p) + p) == x
  {
    var d := x - p;
    var q := d / M;
    assert d == M * q + Wrap(M, d);
    WrapIs(M, Wrap(M, d) + p, x, -q);
  }

  // ---------------------------------------------------------------------------
  // Zigzag

  /** The forward map: small negative and small positive residuals become small. */
  function Zigzag(B: nat, r: nat): (z: nat)
    requires B > 0
    ensures z < Size(B)
  {
    XorN(B, Wrap(Size(B), 2 * r), Wrap(Size(B), 0 - r / Size(B - 1)))
  }

  function Unzigzag(B: nat, z: nat): (r: nat)
    requires B > 0
    ensures r < Size(B)
  {
    var x := Wrap(Size(B), z);
    XorN(B, x / 2, Wrap(Size(B), 0 - x % 2))
  }

  lemma TopBit(H: nat, r: nat)
    requires 0 < H && r < 2 * H
    ensures r / H == if r >= H then 1 else 0
  {
    QuotientAndRemainder(H, r);
    SameRemainder(H, r % H, r / H, if r >= H then r - H else r, if r >= H then 1 else 0);
    var q := if r >= H then 1 else 0;
    assert (r / H - q) * H == 0;
  }

  lemma ZigzagValue(B: nat, r: nat)
    requires B > 0 && r < Size(B)
    ensures Zigzag(B, r) == if r < Size(B - 1) then 2 * r else 2 * (Size(B) - r) - 1
  {
    var H, M, c := Size(B - 1), Size(B), r >= Size(B - 1);
    assert M == 2 * H;
    TopBit(H, r);
    assert Wrap(M, 0 - r / H) == MaskOf(B, c);
    WrapIs(M, 2 * r, if c then 2 * r - M else 2 * r, if c then 1 else 0);
    XorMask(B, c, if c then 2 * r - M else 2 * r);
  }

  lemma UnzigzagValue(B: nat, z: nat)
    requires B > 0 && z < Size(B)
    ensures Unzigzag(B, z) == if z % 2 == 0 then z / 2 else Size(B) - 1 - z / 2
  {
    WrapIs(Size(B), z, z, 0);
    XorMask(B, z % 2 == 1, z / 2);
    assert Wrap(Size(B), 0 - z % 2) == MaskOf(B, z % 2 == 1);
  }

  function Fold(H: nat, r: nat): int { if r < H then 2 * r else 2 * (2 * H - r) - 1 }

  function Unfold(H: nat, z: nat): int { if z % 2 == 0 then z / 2 else 2 * H - 1 - z / 2 }

  lemma FoldUnfold(H: nat, x: nat)
    requires x < 2 * H
    ensures 0 <= Fold(H, x) < 2 * H && Unfold(H, Fold(H, x)) == x
    ensures 0 <= Unfold(H, x) < 2 * H && Fold(H, Unfold(H, x)) == x
  {
  }

  /** The two maps are inverse to each other. */
  lemma ZigzagRoundTrip(B: nat, x: nat)
    requires B > 0 && x < Size(B)
    ensures Unzigzag(B, Zigzag(B, x)) == x
    ensures Zigzag(B, Unzigzag(B, x)) == x
  {
    var H := Size(B - 1);
    assert Size(B) == 2 * H;
    FoldUnfold(H, x);
    ZigzagValue(B, x);
    UnzigzagValue(B, x);
    UnzigzagValue(B, Zigzag(B, x));
    ZigzagValue(B, Unzigzag(B, x));
    hide Size;
  }
}
