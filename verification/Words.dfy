/** Machine words as little-endian bit sequences: bit 0 is the least significant.
    Every C shift, mask, cast and OR used by the codecs is one of these operations. */
module Words {

  type Bits = seq<bool>

  type Byte = b: Bits | |b| == 8
    witness [false, false, false, false, false, false, false, false]

  const ZERO_BYTE: Byte := [false, false, false, false, false, false, false, false]

  function Zero(n: nat): (w: Bits)
    ensures |w| == n
    ensures forall i :: 0 <= i < n ==> !w[i]
  {
    seq(n, i => false)
  }

  function Or(a: Bits, b: Bits): (w: Bits)
    requires |a| == |b|
    ensures |w| == |a|
    ensures forall i :: 0 <= i < |a| ==> w[i] == (a[i] || b[i])
  {
    seq(|a|, i requires 0 <= i < |a| => a[i] || b[i])
  }

  function And(a: Bits, b: Bits): (w: Bits)
    requires |a| == |b|
    ensures |w| == |a|
    ensures forall i :: 0 <= i < |a| ==> w[i] == (a[i] && b[i])
  {
    seq(|a|, i requires 0 <= i < |a| => a[i] && b[i])
  }

  /** The word of n bits whose low k bits are set. */
  function Mask(n: nat, k: nat): (w: Bits)
    ensures |w| == n
    ensures forall i :: 0 <= i < n ==> w[i] == (i < k)
  {
    seq(n, i => i < k)
  }

  /** Left shift that drops the bits pushed past the top. */
  function Shl(a: Bits, n: nat): (w: Bits)
    ensures |w| == |a|
    ensures forall i :: 0 <= i < |a| ==> w[i] == (n <= i && a[i - n])
  {
    seq(|a|, i requires 0 <= i < |a| => n <= i && a[i - n])
  }

  function Shr(a: Bits, n: nat): (w: Bits)
    ensures |w| == |a|
    ensures forall i :: 0 <= i < |a| ==> w[i] == (i + n < |a| && a[i + n])
  {
    seq(|a|, i requires 0 <= i < |a| => i + n < |a| && a[i + n])
  }

  /** Zero extension or truncation to n bits, as a C cast does. */
  function Cast(a: Bits, n: nat): (w: Bits)
    ensures |w| == n
    ensures forall i :: 0 <= i < n ==> w[i] == (i < |a| && a[i])
  {
    seq(n, i requires 0 <= i < n => i < |a| && a[i])
  }

  /** Number of significant bits. */
  function Width(a: Bits): (n: nat)
    ensures n <= |a|
    ensures n > 0 ==> a[n - 1]
    ensures forall i :: n <= i < |a| ==> !a[i]
  {
    if |a| == 0 then 0
    else if a[|a| - 1] then |a|
    else Width(a[..|a| - 1])
  }

  function Pow2(n: nat): (p: nat)
    ensures p >= 1
  {
    if n == 0 then 1 else 2 * Pow2(n - 1)
  }

  function Value(a: Bits): (v: nat)
    ensures v < Pow2(|a|)
  {
    if |a| == 0 then 0 else (if a[0] then 1 else 0) + 2 * Value(a[1..])
  }

  function OfNat(v: nat, n: nat): (w: Bits)
    ensures |w| == n
  {
    if n == 0 then [] else [v % 2 == 1] + OfNat(v / 2, n - 1)
  }

  lemma {:induction false} ValueOfNat(v: nat, n: nat)
    requires v < Pow2(n)
    ensures Value(OfNat(v, n)) == v
  {
    if n > 0 {
      ValueOfNat(v / 2, n - 1);
      assert OfNat(v, n)[1..] == OfNat(v / 2, n - 1);
    }
  }

  lemma {:induction false} OfNatValue(a: Bits)
    ensures OfNat(Value(a), |a|) == a
  {
    if |a| > 0 {
      OfNatValue(a[1..]);
    }
  }

  lemma BytePow()
    ensures Pow2(7) == 128 && Pow2(8) == 256
  {
    assert Pow2(4) == 16;
  }

  /** The byte holding v, as the cast (uint8_t)v of a value below 256. */
  function ToByte(v: nat): (b: Byte)
    ensures v < 256 ==> Value(b) == v
  {
    BytePow();
    if v < 256 then ValueOfNat(v, 8); OfNat(v, 8) else OfNat(v, 8)
  }

  function FromByte(b: Byte): (v: nat)
    ensures v < 256
  {
    BytePow();
    Value(b)
  }

  /** Bit k of a byte buffer read as one little-endian bit stream. */
  predicate BitAt(buf: seq<Byte>, k: nat)
    requires k < 8 * |buf|
  {
    buf[k / 8][k % 8]
  }
}
