/** Counting the set bits of a word: the loop that clears the lowest one, and the
    byte version that adds bits in parallel fields. */
module Popcount {
  import opened Words
  import opened PforFormat
  import opened PforDecode

  lemma {:induction false} RankClear(w: Bits, c: nat, n: nat)
    requires c < |w| && w[c] && n <= |w|
    ensures Rank(w, n) == Rank(w[c := false], n) + (if c < n then 1 else 0)
  {
    if n > 0 {
      RankClear(w, c, n - 1);
    }
  }

  lemma {:induction false} RankZero(w: Bits, n: nat)
    requires n <= |w| && forall i :: 0 <= i < n ==> !w[i]
    ensures Rank(w, n) == 0
  {
    if n > 0 {
      RankZero(w, n - 1);
    }
  }

  method Popcount64(word: Bits) returns (count: nat)
    requires |word| == 64
    ensures count == Rank(word, 64)
  {
    count := 0;
    var value := word;
    while Width(value) != 0
      invariant |value| == 64 && count + Rank(value, 64) == Rank(word, 64)
      decreases Rank(value, 64)
    {
      RankClear(value, Ctz(value), 64);
      ClearLowest(value);
      count := count + 1;
      value := And(value, MinusOne(value));
    }
    RankZero(value, 64);
  }

  // ---------------------------------------------------------------------------
  // Bytes

  function One(b: bool): bv8 { if b then 1 else 0 }

  function ToBv(b: Byte): bv8 {
    One(b[0]) | (One(b[1]) << 1) | (One(b[2]) << 2) | (One(b[3]) << 3) |
    (One(b[4]) << 4) | (One(b[5]) << 5) | (One(b[6]) << 6) | (One(b[7]) << 7)
  }

  /** popcount8, on the byte's bits. */
  function Fields(v: bv8): bv8 {
    var pairs := v - ((v >> 1) & 0x55);
    var nibbles := (pairs & 0x33) + ((pairs >> 2) & 0x33);
    (nibbles + (nibbles >> 4)) & 0x0F
  }

  function Plus(x: bv8, y: bv8): bv8 { x + y }

  function Small(n: nat): bv8 {
    if n == 0 then 0 else if n == 1 then 1 else if n == 2 then 2 else if n == 3 then 3 else if n == 4 then 4
    else if n == 5 then 5 else if n == 6 then 6 else if n == 7 then 7 else 8
  }

  lemma FieldsAdd(a: bool, b: bool, c: bool, d: bool, e: bool, f: bool, g: bool, h: bool)
    ensures Fields(One(a) | (One(b) << 1) | (One(c) << 2) | (One(d) << 3) |
                   (One(e) << 4) | (One(f) << 5) | (One(g) << 6) | (One(h) << 7))
         == Plus(Plus(Plus(Plus(Plus(Plus(Plus(One(a), One(b)), One(c)), One(d)), One(e)), One(f)), One(g)), One(h))
  {
  }

  lemma SmallStep(n: nat, b: bool)
    requires n < 8
    ensures Plus(Small(n), One(b)) == Small(n + (if b then 1 else 0))
  {
  }

  lemma SmallValue(n: nat)
    requires n <= 8
    ensures Small(n) as nat == n
  {
  }

  function Sum(w: Bits, n: nat): bv8
    requires n <= |w|
  {
    if n == 0 then 0 else if n == 1 then One(w[0]) else Plus(Sum(w, n - 1), One(w[n - 1]))
  }

  lemma {:induction false} SumIsRank(w: Bits, n: nat)
    requires n <= |w| && n <= 8
    ensures Sum(w, n) == Small(Rank(w, n))
  {
    if n > 0 {
      SumIsRank(w, n - 1);
      SmallStep(Rank(w, n - 1), w[n - 1]);
    }
  }

  lemma SumOfByte(b: Byte)
    ensures Sum(b,
      8) == Plus(Plus(Plus(Plus(Plus(Plus(Plus(One(b[0]), One(b[1])), One(b[2])), One(b[3])), One(b[4])), One(b[5])),
        One(b[6])), One(b[7]))
  {
    hide One, Plus;
    assert Sum(b, 2) == Plus(Sum(b, 1), One(b[1]));
    assert Sum(b, 3) == Plus(Sum(b, 2), One(b[2]));
    assert Sum(b, 4) == Plus(Sum(b, 3), One(b[3]));
    assert Sum(b, 5) == Plus(Sum(b, 4), One(b[4]));
    assert Sum(b, 6) == Plus(Sum(b, 5), One(b[5]));
    assert Sum(b, 7) == Plus(Sum(b, 6), One(b[6]));
    assert Sum(b, 8) == Plus(Sum(b, 7), One(b[7]));
  }

  lemma ByteCount(b: Byte)
    ensures Fields(ToBv(b)) as nat == Rank(b, 8)
  {
    hide One, Fields, Small, Sum, Plus;
    FieldsAdd(b[0], b[1], b[2], b[3], b[4], b[5], b[6], b[7]);
    SumOfByte(b);
    SumIsRank(b, 8);
    SmallValue(Rank(b, 8));
  }

  method Popcount8(b: Byte) returns (count: nat)
    ensures count == Rank(b, 8)
  {
    ByteCount(b);
    count := Fields(ToBv(b)) as nat;
  }
}
