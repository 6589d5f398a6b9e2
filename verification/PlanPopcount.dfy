/** popcount64 of core/src/gpu/pfor_plan.c: bits added in fields of two, four and eight,
    and the eight bytes added by one multiplication. */
module PlanPopcount {
  import opened Words
  import opened PforFormat
  import opened PforDecode
  import opened Popcount

  /** Eight bytes as a word, b0 the lowest. */
  function Word8(b0: bv8, b1: bv8, b2: bv8, b3: bv8, b4: bv8, b5: bv8, b6: bv8, b7: bv8): bv64 {
    (b0 as bv64) | ((b1 as bv64) << 8) | ((b2 as bv64) << 16) | ((b3 as bv64) << 24) |
    ((b4 as bv64) << 32) | ((b5 as bv64) << 40) | ((b6 as bv64) << 48) | ((b7 as bv64) << 56)
  }

  function Word4(b0: bv8, b1: bv8, b2: bv8, b3: bv8): bv64 {
    (b0 as bv64) | ((b1 as bv64) << 8) | ((b2 as bv64) << 16) | ((b3 as bv64) << 24)
  }

  function Word2(b0: bv8, b1: bv8): bv64 {
    (b0 as bv64) | ((b1 as bv64) << 8)
  }

  function ByteOf(w: Bits, i: nat): Byte
    requires |w| == 64 && i < 8
  {
    w[8 * i..8 * i + 8]
  }

  /** The word with these bits, the lowest first. */
  function ToWord(w: Bits): bv64
    requires |w| == 64
  {
    Word8(ToBv(ByteOf(w, 0)), ToBv(ByteOf(w, 1)), ToBv(ByteOf(w, 2)), ToBv(ByteOf(w, 3)),
          ToBv(ByteOf(w, 4)), ToBv(ByteOf(w, 5)), ToBv(ByteOf(w, 6)), ToBv(ByteOf(w, 7)))
  }

  // ---------- the three steps within bytes ----------

  function Pairs64(v: bv64): bv64 { v - ((v >> 1) & 0x5555555555555555) }

  function Nibbles64(v: bv64): bv64 { (v & 0x3333333333333333) + ((v >> 2) & 0x3333333333333333) }

  function Bytes64(v: bv64): bv64 { (v + (v >> 4)) & 0x0F0F0F0F0F0F0F0F }

  function Top64(v: bv64): bv64 { (v * 0x0101010101010101) >> 56 }

  function Pairs8(v: bv8): bv8 { v - ((v >> 1) & 0x55) }

  function Nibbles8(v: bv8): bv8 { (v & 0x33) + ((v >> 2) & 0x33) }

  function Bytes8(v: bv8): bv8 { (v + (v >> 4)) & 0x0F }

  /** No borrow and no carry leaves a byte. */
  function Evens64(v: bv64): bv64 { (v & 0x5555555555555555) + ((v >> 1) & 0x5555555555555555) }

  function Evens8(v: bv8): bv8 { (v & 0x55) + ((v >> 1) & 0x55) }

  lemma PairsEvens64(v: bv64)
    ensures Pairs64(v) == Evens64(v)
  {
  }

  lemma PairsEvens8(v: bv8)
    ensures Pairs8(v) == Evens8(v)
  {
  }

  lemma EvensApart(b0: bv8, b1: bv8, b2: bv8, b3: bv8, b4: bv8, b5: bv8, b6: bv8, b7: bv8)
    ensures Evens64(Word8(b0, b1, b2, b3, b4, b5, b6, b7))
         == Word8(Evens8(b0), Evens8(b1), Evens8(b2), Evens8(b3), Evens8(b4), Evens8(b5), Evens8(b6), Evens8(b7))
  {
  }

  lemma PairsApart(b0: bv8, b1: bv8, b2: bv8, b3: bv8, b4: bv8, b5: bv8, b6: bv8, b7: bv8)
    ensures Pairs64(Word8(b0, b1, b2, b3, b4, b5, b6, b7))
         == Word8(Pairs8(b0), Pairs8(b1), Pairs8(b2), Pairs8(b3), Pairs8(b4), Pairs8(b5), Pairs8(b6), Pairs8(b7))
  {
    hide Pairs64, Evens64, Pairs8, Evens8, Word8;
    EvensApart(b0, b1, b2, b3, b4, b5, b6, b7);
    PairsEvens64(Word8(b0, b1, b2, b3, b4, b5, b6, b7));
    PairsEvens8(b0);
    PairsEvens8(b1);
    PairsEvens8(b2);
    PairsEvens8(b3);
    PairsEvens8(b4);
    PairsEvens8(b5);
    PairsEvens8(b6);
    PairsEvens8(b7);
  }

  lemma NibblesApart(b0: bv8, b1: bv8, b2: bv8, b3: bv8, b4: bv8, b5: bv8, b6: bv8, b7: bv8)
    ensures Nibbles64(Word8(b0, b1, b2, b3, b4, b5, b6, b7))
         == Word8(Nibbles8(b0), Nibbles8(b1), Nibbles8(b2), Nibbles8(b3),
                  Nibbles8(b4), Nibbles8(b5), Nibbles8(b6), Nibbles8(b7))
  {
  }

  lemma BytesApart(b0: bv8, b1: bv8, b2: bv8, b3: bv8, b4: bv8, b5: bv8, b6: bv8, b7: bv8)
    requires Clear8(b0, b1, b2, b3, b4, b5, b6, b7, 0x88)
    ensures Bytes64(Word8(b0, b1, b2, b3, b4, b5, b6, b7))
         == Word8(Bytes8(b0), Bytes8(b1), Bytes8(b2), Bytes8(b3), Bytes8(b4), Bytes8(b5), Bytes8(b6), Bytes8(b7))
  {
  }

  function Inner8(v: bv8): bv8 { Nibbles8(Pairs8(v)) }

  lemma InnerSmall(v: bv8)
    ensures Inner8(v) & 0x88 == 0 && Bytes8(Inner8(v)) == Fields(v) && Fields(v) & 0xF0 == 0
  {
  }

  lemma NoneOf(b0: bv8, b1: bv8, b2: bv8, b3: bv8, b4: bv8, b5: bv8, b6: bv8, b7: bv8, m: bv8)
    requires b0 & m == 0 && b1 & m == 0 && b2 & m == 0 && b3 & m == 0
    requires b4 & m == 0 && b5 & m == 0 && b6 & m == 0 && b7 & m == 0
    ensures Clear8(b0, b1, b2, b3, b4, b5, b6, b7, m)
  {
  }

  /** After the three steps every byte holds the number of its own bits. */
  lemma FieldsApart(b0: bv8, b1: bv8, b2: bv8, b3: bv8, b4: bv8, b5: bv8, b6: bv8, b7: bv8)
    ensures Bytes64(Nibbles64(Pairs64(Word8(b0, b1, b2, b3, b4, b5, b6, b7))))
         == Word8(Fields(b0), Fields(b1), Fields(b2), Fields(b3), Fields(b4), Fields(b5), Fields(b6), Fields(b7))
  {
    hide Word8, Pairs64, Nibbles64, Bytes64, Pairs8, Nibbles8, Bytes8, Fields, Clear8;
    PairsApart(b0, b1, b2, b3, b4, b5, b6, b7);
    NibblesApart(Pairs8(b0), Pairs8(b1), Pairs8(b2), Pairs8(b3), Pairs8(b4), Pairs8(b5), Pairs8(b6), Pairs8(b7));
    InnerSmall(b0);
    InnerSmall(b1);
    InnerSmall(b2);
    InnerSmall(b3);
    InnerSmall(b4);
    InnerSmall(b5);
    InnerSmall(b6);
    InnerSmall(b7);
    NoneOf(Inner8(b0), Inner8(b1), Inner8(b2), Inner8(b3), Inner8(b4), Inner8(b5), Inner8(b6), Inner8(b7), 0x88);
    BytesApart(Inner8(b0), Inner8(b1), Inner8(b2), Inner8(b3), Inner8(b4), Inner8(b5), Inner8(b6), Inner8(b7));
  }

  // ---------- the multiplication ----------

  // 0x01010101_01010101 is 0x1_00000001 times 0x10001 times 0x101, and each of these
  // adds the word to itself shifted.

  predicate Added32(v: bv64, x: bv64) { x == v + (v << 32) }

  predicate Added16(v: bv64, x: bv64) { x == v + (v << 16) }

  predicate Added8(v: bv64, x: bv64) { x == v + (v << 8) }

  lemma Factors(v: bv64)
    ensures Added32(v, v * 0x1_0000_0001)
    ensures Added16(v * 0x1_0000_0001, v * 0x1_0001_0001_0001)
    ensures Added8(v * 0x1_0001_0001_0001, v * 0x0101010101010101)
  {
  }

  function Four(v: bv64): bv64 { (v >> 32) + (v & 0xFFFFFFFF) }

  function Two(v: bv64): bv64 { (v >> 16) + (v & 0xFFFF) }

  function Lone(v: bv64): bv64 { (v >> 8) + (v & 0xFF) }

  predicate Clear(v: bv64, m: bv64) { v & m == 0 }

  function High32(v: bv64): bv64 { v >> 32 }

  function High48(v: bv64): bv64 { v >> 48 }

  function High56(v: bv64): bv64 { v >> 56 }

  lemma HighHalf(v: bv64, x: bv64)
    requires Clear(v, 0xF0F0F0F0F0F0F0F0) && Added32(v, x)
    ensures Clear(x, 0xE0E0E0E0E0E0E0E0) && High32(x) == Four(v)
  {
  }

  lemma HighQuarter(v: bv64, x: bv64)
    requires Clear(v, 0xE0E0E0E0E0E0E0E0) && Added16(v, x)
    ensures Clear(x, 0xC0C0C0C0C0C0C0C0) && High48(x) == Two(High32(v))
  {
  }

  lemma HighEighth(v: bv64, x: bv64)
    requires Clear(v, 0xC0C0C0C0C0C0C0C0) && Added8(v, x)
    ensures High56(x) == Lone(High48(v))
  {
  }

  lemma TopIsHigh(v: bv64)
    ensures Top64(v) == High56(v * 0x0101010101010101)
  {
  }

  /** Bytes below 16 never carry into the top one: it is the sum of halves of halves of
      halves. */
  lemma TopIsSum(v: bv64)
    requires Clear(v, 0xF0F0F0F0F0F0F0F0)
    ensures Top64(v) == Lone(Two(Four(v)))
  {
    hide *;
    Factors(v);
    TopIsHigh(v);
    HighHalf(v, v * 0x1_0000_0001);
    HighQuarter(v * 0x1_0000_0001, v * 0x1_0001_0001_0001);
    HighEighth(v * 0x1_0001_0001_0001, v * 0x0101010101010101);
  }

  function Add8(x: bv8, y: bv8): bv8 { x + y }

  predicate Clear2(b0: bv8, b1: bv8, m: bv8) { (b0 | b1) & m == 0 }

  predicate Clear4(b0: bv8, b1: bv8, b2: bv8, b3: bv8, m: bv8) { (b0 | b1 | b2 | b3) & m == 0 }

  predicate Clear8(b0: bv8, b1: bv8, b2: bv8, b3: bv8, b4: bv8, b5: bv8, b6: bv8, b7: bv8, m: bv8) {
    (b0 | b1 | b2 | b3 | b4 | b5 | b6 | b7) & m == 0
  }

  lemma ClearWord(b0: bv8, b1: bv8, b2: bv8, b3: bv8, b4: bv8, b5: bv8, b6: bv8, b7: bv8)
    requires Clear8(b0, b1, b2, b3, b4, b5, b6, b7, 0xF0)
    ensures Clear(Word8(b0, b1, b2, b3, b4, b5, b6, b7), 0xF0F0F0F0F0F0F0F0)
  {
  }

  lemma ClearSums(b0: bv8, b1: bv8, b2: bv8, b3: bv8, b4: bv8, b5: bv8, b6: bv8, b7: bv8)
    requires Clear8(b0, b1, b2, b3, b4, b5, b6, b7, 0xF0)
    ensures Clear4(Add8(b0, b4), Add8(b1, b5), Add8(b2, b6), Add8(b3, b7), 0xE0)
  {
  }

  lemma ClearSums2(b0: bv8, b1: bv8, b2: bv8, b3: bv8)
    requires Clear4(b0, b1, b2, b3, 0xE0)
    ensures Clear2(Add8(b0, b2), Add8(b1, b3), 0xC0)
  {
  }

  lemma FourOf(b0: bv8, b1: bv8, b2: bv8, b3: bv8, b4: bv8, b5: bv8, b6: bv8, b7: bv8)
    requires Clear8(b0, b1, b2, b3, b4, b5, b6, b7, 0xF0)
    ensures Four(Word8(b0, b1, b2, b3, b4, b5, b6, b7))
         == Word4(Add8(b0, b4), Add8(b1, b5), Add8(b2, b6), Add8(b3, b7))
  {
  }

  lemma TwoOf(b0: bv8, b1: bv8, b2: bv8, b3: bv8)
    requires Clear4(b0, b1, b2, b3, 0xE0)
    ensures Two(Word4(b0, b1, b2, b3)) == Word2(Add8(b0, b2), Add8(b1, b3))
  {
  }

  lemma LoneOf(b0: bv8, b1: bv8)
    requires Clear2(b0, b1, 0xC0)
    ensures Lone(Word2(b0, b1)) == Add8(b0, b1) as bv64
  {
  }

  function Sum8(b0: bv8, b1: bv8, b2: bv8, b3: bv8, b4: bv8, b5: bv8, b6: bv8, b7: bv8): bv8 {
    Add8(Add8(Add8(b0, b4), Add8(b2, b6)), Add8(Add8(b1, b5), Add8(b3, b7)))
  }

  lemma TopOfBytes(b0: bv8, b1: bv8, b2: bv8, b3: bv8, b4: bv8, b5: bv8, b6: bv8, b7: bv8)
    requires Clear8(b0, b1, b2, b3, b4, b5, b6, b7, 0xF0)
    ensures Top64(Word8(b0, b1, b2, b3, b4, b5, b6, b7)) == Sum8(b0, b1, b2, b3, b4, b5, b6, b7) as bv64
  {
    hide Top64, Word8, Word4, Word2, Four, Two, Lone, Clear, Clear2, Clear4, Clear8, Add8;
    ClearWord(b0, b1, b2, b3, b4, b5, b6, b7);
    TopIsSum(Word8(b0, b1, b2, b3, b4, b5, b6, b7));
    FourOf(b0, b1, b2, b3, b4, b5, b6, b7);
    ClearSums(b0, b1, b2, b3, b4, b5, b6, b7);
    TwoOf(Add8(b0, b4), Add8(b1, b5), Add8(b2, b6), Add8(b3, b7));
    ClearSums2(Add8(b0, b4), Add8(b1, b5), Add8(b2, b6), Add8(b3, b7));
    LoneOf(Add8(Add8(b0, b4), Add8(b2, b6)), Add8(Add8(b1, b5), Add8(b3, b7)));
  }

  // ---------- counts ----------

  function Tally(n: nat): bv8 { if n == 0 then 0 else Tally(n - 1) + 1 }

  lemma {:induction false} TallyAdd(m: nat, n: nat)
    ensures Tally(m + n) == Add8(Tally(m), Tally(n))
  {
    if n > 0 {
      TallyAdd(m, n - 1);
    }
  }

  lemma PlusOne(x: bv8)
    requires x <= 100
    ensures (x + 1) as nat == x as nat + 1
  {
  }

  lemma {:induction false} TallyValue(n: nat)
    requires n <= 64
    ensures Tally(n) as nat == n
  {
    if n > 0 {
      TallyValue(n - 1);
      PlusOne(Tally(n - 1));
    }
  }

  lemma TallyIs(x: bv8, n: nat)
    requires x as nat == n <= 64
    ensures x == Tally(n) && (x as bv64) as nat == n
  {
    TallyValue(n);
  }

  lemma TallySum(n0: nat, n1: nat, n2: nat, n3: nat, n4: nat, n5: nat, n6: nat, n7: nat)
    ensures Sum8(Tally(n0), Tally(n1), Tally(n2), Tally(n3), Tally(n4), Tally(n5), Tally(n6), Tally(n7))
         == Tally(n0 + n4 + (n2 + n6) + (n1 + n5 + (n3 + n7)))
  {
    hide Tally, Add8;
    TallyAdd(n0, n4);
    TallyAdd(n2, n6);
    TallyAdd(n1, n5);
    TallyAdd(n3, n7);
    TallyAdd(n0 + n4, n2 + n6);
    TallyAdd(n1 + n5, n3 + n7);
    TallyAdd(n0 + n4 + (n2 + n6), n1 + n5 + (n3 + n7));
  }

  function Ones(w: Bits, i: nat): nat
    requires |w| == 64 && i < 8
  {
    Rank(ByteOf(w, i), 8)
  }

  lemma RankBytes(w: Bits)
    requires |w| == 64
    ensures Rank(w, 64) == Ones(w, 0) + Ones(w, 1) + Ones(w, 2) + Ones(w, 3) + Ones(w, 4) + Ones(w, 5) + Ones(w,
      6) + Ones(w, 7)
  {
    hide Rank;
    RankNone(w);
    RankWord(w, ByteOf(w, 0), 0, 8);
    RankWord(w, ByteOf(w, 1), 8, 8);
    RankWord(w, ByteOf(w, 2), 16, 8);
    RankWord(w, ByteOf(w, 3), 24, 8);
    RankWord(w, ByteOf(w, 4), 32, 8);
    RankWord(w, ByteOf(w, 5), 40, 8);
    RankWord(w, ByteOf(w, 6), 48, 8);
    RankWord(w, ByteOf(w, 7), 56, 8);
  }

  lemma RankNone(w: Bits)
    ensures Rank(w, 0) == 0
  {
  }

  lemma FieldsTally(b: Byte)
    ensures Fields(ToBv(b)) == Tally(Rank(b, 8)) && Fields(ToBv(b)) & 0xF0 == 0
  {
    hide Fields, ToBv, Rank, Tally;
    ByteCount(b);
    InnerSmall(ToBv(b));
    RankAtMost(b, 8);
    TallyIs(Fields(ToBv(b)), Rank(b, 8));
  }

  lemma {:induction false} RankAtMost(w: Bits, n: nat)
    requires n <= |w|
    ensures Rank(w, n) <= n
  {
    if n > 0 {
      RankAtMost(w, n - 1);
    }
  }

  function Count64(v: bv64): bv64 { Top64(Bytes64(Nibbles64(Pairs64(v)))) }

  /** The multiplication leaves the number of set bits in the top byte. */
  lemma WordCount(w: Bits)
    requires |w| == 64
    ensures Count64(ToWord(w)) as nat == Rank(w, 64)
  {
    hide Top64, Bytes64, Nibbles64, Pairs64, Word8, ToBv, Fields, Tally, Sum8, Rank, Ones;
    TallyOfWord(w);
    RankBytes(w);
    RankAtMost(w, 64);
    TallyValue(Rank(w, 64));
    TallyIs(Tally(Rank(w, 64)), Rank(w, 64));
  }

  lemma TallyOfWord(w: Bits)
    requires |w| == 64
    ensures Count64(ToWord(w)) == Tally(Ones(w, 0) + Ones(w, 4) + (Ones(w, 2) + Ones(w, 6))
                                        + (Ones(w, 1) + Ones(w, 5) + (Ones(w, 3) + Ones(w, 7)))) as bv64
  {
    hide Top64, Bytes64, Nibbles64, Pairs64, Word8, ToBv, Fields, Tally, Sum8, Rank, Clear8;
    FieldsTally(ByteOf(w, 0));
    FieldsTally(ByteOf(w, 1));
    FieldsTally(ByteOf(w, 2));
    FieldsTally(ByteOf(w, 3));
    FieldsTally(ByteOf(w, 4));
    FieldsTally(ByteOf(w, 5));
    FieldsTally(ByteOf(w, 6));
    FieldsTally(ByteOf(w, 7));
    var c0, c1, c2, c3 := Tally(Ones(w, 0)), Tally(Ones(w, 1)), Tally(Ones(w, 2)), Tally(Ones(w, 3));
    var c4, c5, c6, c7 := Tally(Ones(w, 4)), Tally(Ones(w, 5)), Tally(Ones(w, 6)), Tally(Ones(w, 7));
    FieldsApart(ToBv(ByteOf(w, 0)), ToBv(ByteOf(w, 1)), ToBv(ByteOf(w, 2)), ToBv(ByteOf(w, 3)),
                ToBv(ByteOf(w, 4)), ToBv(ByteOf(w, 5)), ToBv(ByteOf(w, 6)), ToBv(ByteOf(w, 7)));
    NoneOf(c0, c1, c2, c3, c4, c5, c6, c7, 0xF0);
    TopOfBytes(c0, c1, c2, c3, c4, c5, c6, c7);
    TallySum(Ones(w, 0), Ones(w, 1), Ones(w, 2), Ones(w, 3), Ones(w, 4), Ones(w, 5), Ones(w, 6), Ones(w, 7));
  }

  /** popcount64 */
  method MultiplyPopcount64(word: Bits) returns (count: nat)
    requires |word| == 64
    ensures count == Rank(word, 64)
  {
    hide Pairs64, Nibbles64, Bytes64, Top64, ToWord, Rank;
    WordCount(word);
    var value := ToWord(word);
    value := Pairs64(value);
    value := Nibbles64(value);
    value := Bytes64(value);
    count := Top64(value) as nat;
  }
}
