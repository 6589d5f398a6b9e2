/** The PFOR wire format, read declaratively: which byte strings are one block,
    how many bytes the block takes, and which 256 values it denotes. The encoder,
    the decoder and the GPU planner are each proved against these definitions. */
module PforFormat {
  import opened Common
  import opened Words
  import opened Arith
  import opened Streams

  const GROUP := 16
  const BITMAP_BYTES := 32

  type EltBytes = e: nat | e == 1 || e == 2 || e == 4 || e == 8 witness 1

  /** bits and nexc are the first two bytes; eb and list come from the third,
      which is present only when nexc is not zero. */
  datatype Header = Header(bits: nat, nexc: nat, eb: nat, list: bool)

  // Lane geometry. Each function is one product or quotient by a power of two,
  // spelled out per element size so that it stays linear for the verifier.

  /** GROUP / E words in a group. */
  function Lanes(E: EltBytes): nat {
    if E == 1 then 16 else if E == 2 then 8 else if E == 4 then 4 else 2
  }

  /** BLOCK / Lanes slots in a block. */
  function Slots(E: EltBytes): nat { GROUP * E }

  /** s * Lanes + l: the value that lane l holds in slot s. */
  function Item(E: EltBytes, s: nat, l: nat): nat {
    if E == 1 then 16 * s + l else if E == 2 then 8 * s + l else if E == 4 then 4 * s + l else 2 * s + l
  }

  function SlotOf(E: EltBytes, i: nat): nat {
    if E == 1 then i / 16 else if E == 2 then i / 8 else if E == 4 then i / 4 else i / 2
  }

  function LaneOf(E: EltBytes, i: nat): nat {
    if E == 1 then i % 16 else if E == 2 then i % 8 else if E == 4 then i % 4 else i % 2
  }

  /** E * l: first byte of lane l inside a group. */
  function LaneByte(E: EltBytes, l: nat): nat {
    if E == 1 then l else if E == 2 then 2 * l else if E == 4 then 4 * l else 8 * l
  }

  /** k / (8 * E): the word that holds bit k of a lane. */
  function WordOf(E: EltBytes, k: nat): nat {
    if E == 1 then k / 8 else if E == 2 then k / 16 else if E == 4 then k / 32 else k / 64
  }

  /** First lane bit of word g. */
  function WordStart(E: EltBytes, g: nat): nat {
    if E == 1 then 8 * g else if E == 2 then 16 * g else if E == 4 then 32 * g else 64 * g
  }

  /** bits * BLOCK / 8 */
  function BodyBytes(bits: nat): nat { 32 * bits }

  function HighBytes(nexc: nat, eb: nat): nat { (Times(nexc, eb) + 7) / 8 }

  function PositionBytes(nexc: nat, list: bool): nat {
    if list then nexc else BITMAP_BYTES
  }

  function ExcBytes(nexc: nat, eb: nat, list: bool): nat {
    if nexc == 0 then 0 else 1 + PositionBytes(nexc, list) + HighBytes(nexc, eb)
  }

  function HighAt(h: Header): nat { 3 + PositionBytes(h.nexc, h.list) }

  function BodyAt(h: Header): nat { 2 + ExcBytes(h.nexc, h.eb, h.list) }

  function Size(h: Header): nat { BodyAt(h) + BodyBytes(h.bits) }

  function HeaderOf(src: seq<Byte>): Header
    requires |src| >= 2
  {
    var nexc := FromByte(src[1]);
    if nexc == 0 || |src| < 3 then Header(FromByte(src[0]), nexc, 0, false)
    else Header(FromByte(src[0]), nexc, FromByte(src[2]) % 128, FromByte(src[2]) / 128 == 1)
  }

  /** Number of marks below i. */
  function Rank(marks: seq<bool>, i: nat): (n: nat)
    requires i <= |marks|
    ensures n <= i
  {
    if i == 0 then 0 else Rank(marks, i - 1) + (if marks[i - 1] then 1 else 0)
  }

  lemma {:induction false} RankStep(marks: seq<bool>, i: nat, k: nat)
    requires i < k <= |marks|
    ensures Rank(marks, i) + (if marks[i] then 1 else 0) <= Rank(marks, k)
    decreases k
  {
    if i + 1 < k {
      RankStep(marks, i, k - 1);
    }
  }

  lemma {:induction false} RankSame(a: seq<bool>, b: seq<bool>, i: nat)
    requires i <= |a| && i <= |b|
    requires forall k :: 0 <= k < i ==> a[k] == b[k]
    ensures Rank(a, i) == Rank(b, i)
  {
    if i > 0 {
      RankSame(a, b, i - 1);
    }
  }

  lemma {:induction false} RankFlat(marks: seq<bool>, i: nat, k: nat)
    requires i <= k <= |marks|
    requires forall m :: i <= m < k ==> !marks[m]
    ensures Rank(marks, i) == Rank(marks, k)
    decreases k
  {
    if i < k {
      RankFlat(marks, i, k - 1);
    }
  }

  /** Entry e of the position list. */
  function PosAt(src: seq<Byte>, e: nat): nat
    requires 3 + e < |src|
  {
    FromByte(src[3 + e])
  }

  /** Which of the 256 values are exceptions. */
  ghost function Marks(src: seq<Byte>, nexc: nat, list: bool): (m: seq<bool>)
    requires |src| >= 3 + PositionBytes(nexc, list)
    ensures |m| == BLOCK
    ensures list ==> forall i :: 0 <= i < BLOCK ==> (m[i] <==> exists e :: 0 <= e < nexc && PosAt(src, e) == i)
    ensures !list ==> forall i :: 0 <= i < BLOCK ==> m[i] == src[3 + i / 8][i % 8]
  {
    if list then
      seq(BLOCK, i requires 0 <= i < BLOCK => exists e :: 0 <= e < nexc && PosAt(src, e) == i)
    else
      seq(BLOCK, i requires 0 <= i < BLOCK => src[3 + i / 8][i % 8])
  }

  ghost predicate Ascending(src: seq<Byte>, n: nat)
    requires |src| >= 3 + n
  {
    forall a, b :: 0 <= a < b < n ==> PosAt(src, a) < PosAt(src, b)
  }

  ghost predicate PositionsOk(src: seq<Byte>, h: Header)
    requires |src| >= 3 + PositionBytes(h.nexc, h.list)
  {
    if h.list then Ascending(src, h.nexc)
    else Rank(Marks(src, h.nexc, false), BLOCK) == h.nexc
  }

  /** The byte string starts with one well-formed block. */
  ghost predicate Accepts(src: seq<Byte>, E: EltBytes)
  {
    && |src| >= 2
    && var h := HeaderOf(src);
    && h.bits <= 8 * E
    && (h.nexc != 0 ==> |src| >= 3 && h.eb != 0 && h.bits + h.eb <= 8 * E)
    && Size(h) <= |src|
    && (h.nexc != 0 ==> PositionsOk(src, h))
  }

  /** Bytes the block at the front of src takes, or 0 when there is none. */
  ghost function WireSize(src: seq<Byte>, E: EltBytes): (n: nat)
    ensures n > 0 <==> Accepts(src, E)
    ensures n <= |src|
  {
    if Accepts(src, E) then Size(HeaderOf(src)) else 0
  }

  lemma SlotLane(E: EltBytes, i: nat)
    requires i < BLOCK
    ensures SlotOf(E, i) < Slots(E) && LaneOf(E, i) < Lanes(E)
    ensures Item(E, SlotOf(E, i), LaneOf(E, i)) == i
  {
  }

  lemma ItemSlot(E: EltBytes, s: nat, l: nat)
    requires s < Slots(E) && l < Lanes(E)
    ensures Item(E, s, l) < BLOCK
    ensures SlotOf(E, Item(E, s, l)) == s && LaneOf(E, Item(E, s, l)) == l
  {
  }

  /** A lane holds Slots * bits bits, exactly 2 * bits words. */
  lemma SlotBound(E: EltBytes, bits: nat, s: nat, j: nat)
    requires s < Slots(E) && j < bits
    ensures Times(s, bits) + j < WordStart(E, 2 * bits)
  {
    TimesStep(s, Slots(E), bits);
    TimesIsProduct(Slots(E), bits);
  }

  /** Every lane bit below `groups` words lies in one of those words. */
  lemma WordSplit(E: EltBytes, k: nat, groups: nat)
    requires k < WordStart(E, groups)
    ensures WordOf(E, k) < groups
    ensures WordStart(E, WordOf(E, k)) <= k < WordStart(E, WordOf(E, k)) + 8 * E
  {
    if E == 1 {
    } else if E == 2 {
    } else if E == 4 {
    }
  }

  lemma WordOfStart(E: EltBytes, g: nat, r: nat)
    requires r < 8 * E
    ensures WordOf(E, WordStart(E, g) + r) == g
  {
    if E == 1 {
    } else if E == 2 {
    } else if E == 4 {
    }
  }

  lemma WordStartMono(E: EltBytes, g: nat, groups: nat)
    requires g < groups
    ensures WordStart(E, g) + 8 * E <= WordStart(E, groups)
  {
    if E == 1 {
    } else if E == 2 {
    } else if E == 4 {
    }
  }

  lemma WordStartAdd(E: EltBytes, a: nat, b: nat)
    ensures WordStart(E, a + b) == WordStart(E, a) + WordStart(E, b)
  {
    if E == 1 {
    } else if E == 2 {
    } else if E == 4 {
    }
  }

  /** Bit r of word g of lane l inside a body: words of 8 * E bits, one group of 16
      bytes holding one word of every lane. */
  function WordBit(E: EltBytes, g: nat, l: nat, r: nat): (k: nat)
    requires l < Lanes(E) && r < 8 * E
    ensures 128 * g <= k < 128 * g + 128
  {
    8 * (GROUP * g + LaneByte(E, l)) + r
  }

  /** Where bit j of value i sits in the body: bit SlotOf * bits + j of its lane. */
  function BodyIndex(E: EltBytes, bits: nat, i: nat, j: nat): (k: nat)
    requires i < BLOCK && j < bits
    ensures k < 8 * BodyBytes(bits)
  {
    SlotLane(E, i);
    SlotBound(E, bits, SlotOf(E, i), j);
    LaneIndex(E, bits, LaneOf(E, i), Times(SlotOf(E, i), bits) + j)
  }

  /** Where bit k of lane l sits in the body. */
  function LaneIndex(E: EltBytes, bits: nat, l: nat, k: nat): (n: nat)
    requires l < Lanes(E) && k < WordStart(E, 2 * bits)
    ensures n < 8 * BodyBytes(bits)
  {
    WordSplit(E, k, 2 * bits);
    var g := WordOf(E, k);
    WordBit(E, g, l, k - WordStart(E, g))
  }

  /** Bit j < bits of value i, in the body that starts at byte `at`. */
  predicate BodyBit(src: seq<Byte>, at: nat, E: EltBytes, bits: nat, i: nat, j: nat)
    requires |src| >= at + BodyBytes(bits) && i < BLOCK && j < bits
  {
    BitAt(src, 8 * at + BodyIndex(E, bits, i, j))
  }

  /** Bit j of entry e of the high-bit stream that starts at byte `at`. */
  predicate HighBit(src: seq<Byte>, at: nat, nexc: nat, eb: nat, e: nat, j: nat)
    requires |src| >= at + HighBytes(nexc, eb) && e < nexc && j < eb
  {
    TimesStep(e, nexc, eb);
    BitAt(src, 8 * at + Times(e, eb) + j)
  }

  /** Bit j of value i: low bits from the body, then high bits for exceptions. */
  predicate ValueBit(src: seq<Byte>, E: EltBytes, h: Header, marks: seq<bool>, i: nat, j: nat)
    requires |src| >= Size(h) && |marks| == BLOCK && i < BLOCK
  {
    if j < h.bits then
      BodyBit(src, BodyAt(h), E, h.bits, i, j)
    else
      && marks[i]
      && j < h.bits + h.eb
      && Rank(marks, i) < h.nexc
      && HighBit(src, HighAt(h), h.nexc, h.eb, Rank(marks, i), j - h.bits)
  }

  ghost function MarksOf(src: seq<Byte>, E: EltBytes): (m: seq<bool>)
    requires Accepts(src, E)
    ensures |m| == BLOCK
  {
    var h := HeaderOf(src);
    if h.nexc == 0 then Zero(BLOCK) else Marks(src, h.nexc, h.list)
  }

  /** The 256 values a block denotes. */
  ghost function Meaning(src: seq<Byte>, E: EltBytes): (v: seq<Bits>)
    requires Accepts(src, E)
    ensures |v| == BLOCK
    ensures forall i :: 0 <= i < BLOCK ==> |v[i]| == 8 * E
  {
    Values(src, E, HeaderOf(src), MarksOf(src, E))
  }

  function Values(src: seq<Byte>, E: EltBytes, h: Header, marks: seq<bool>): (v: seq<Bits>)
    requires |src| >= Size(h) && |marks| == BLOCK
    ensures |v| == BLOCK
    ensures forall i :: 0 <= i < BLOCK ==> |v[i]| == 8 * E
    ensures forall i, j :: 0 <= i < BLOCK && 0 <= j < 8 * E ==> v[i][j] == ValueBit(src, E, h, marks, i, j)
  {
    seq(BLOCK, i requires 0 <= i < BLOCK =>
      seq(8 * E, j requires 0 <= j < 8 * E => ValueBit(src, E, h, marks, i, j)))
  }

  /** A strictly ascending list marks its entry e with exactly e marks below it. */
  lemma {:induction false} ListRank(src: seq<Byte>, n: nat, e: nat)
    requires |src| >= 3 + n && Ascending(src, n) && e <= n
    ensures Rank(Marks(src, n, true), if e < n then PosAt(src, e) else BLOCK) == e
  {
    hide FromByte;
    var marks := Marks(src, n, true);
    var hi := if e < n then PosAt(src, e) else BLOCK;
    var lo := if e == 0 then 0 else PosAt(src, e - 1) + 1;
    forall m | lo <= m < hi ensures !marks[m] {
      assert forall k :: 0 <= k < n ==> PosAt(src, k) != m;
    }
    RankFlat(marks, lo, hi);
    if e > 0 {
      ListRank(src, n, e - 1);
      assert marks[lo - 1];
    }
  }

  /** A block is decided by its own bytes: whatever follows them changes nothing. */
  lemma BlockLocal(a: seq<Byte>, c: seq<Byte>, E: EltBytes)
    requires Accepts(a, E)
    requires |c| >= WireSize(a, E) && c[..WireSize(a, E)] == a[..WireSize(a, E)]
    ensures Accepts(c, E) && WireSize(c, E) == WireSize(a, E)
    ensures Meaning(c, E) == Meaning(a, E)
  {
    var n := WireSize(a, E);
    assert forall k :: 0 <= k < n ==> c[k] == a[k] by {
      assert forall k :: 0 <= k < n ==> c[k] == c[..n][k] && a[k] == a[..n][k];
    }
    HeaderLocal(a, c, E);
    ValuesLocal(a, c, E, HeaderOf(a), MarksOf(a, E));
  }

  lemma HeaderLocal(a: seq<Byte>, c: seq<Byte>, E: EltBytes)
    requires Accepts(a, E)
    requires |c| >= WireSize(a, E)
    requires forall k :: 0 <= k < WireSize(a, E) ==> c[k] == a[k]
    ensures Accepts(c, E) && HeaderOf(c) == HeaderOf(a)
    ensures MarksOf(c, E) == MarksOf(a, E)
  {
    var h := HeaderOf(a);
    assert HeaderOf(c) == h;
    if h.nexc != 0 {
      MarksLocal(a, c, h.nexc, h.list);
    }
  }

  lemma MarksLocal(a: seq<Byte>, c: seq<Byte>, nexc: nat, list: bool)
    requires |a| >= 3 + PositionBytes(nexc, list) && |c| >= 3 + PositionBytes(nexc, list)
    requires forall k :: 0 <= k < 3 + PositionBytes(nexc, list) ==> c[k] == a[k]
    ensures Marks(c, nexc, list) == Marks(a, nexc, list)
    ensures list ==> forall e :: 0 <= e < nexc ==> PosAt(c, e) == PosAt(a, e)
  {
    var x, y := Marks(c, nexc, list), Marks(a, nexc, list);
    forall i | 0 <= i < BLOCK ensures x[i] == y[i] {
      if list {
        assert forall e :: 0 <= e < nexc ==> PosAt(c, e) == PosAt(a, e);
      } else {
        assert c[3 + i / 8] == a[3 + i / 8];
      }
    }
  }

  lemma ValuesLocal(a: seq<Byte>, c: seq<Byte>, E: EltBytes, h: Header, marks: seq<bool>)
    requires |a| >= Size(h) && |c| >= Size(h) && |marks| == BLOCK
    requires forall k :: 0 <= k < Size(h) ==> c[k] == a[k]
    ensures Values(c, E, h, marks) == Values(a, E, h, marks)
  {
    var x, y := Values(c, E, h, marks), Values(a, E, h, marks);
    forall i | 0 <= i < BLOCK ensures x[i] == y[i] {
      forall j | 0 <= j < 8 * E ensures x[i][j] == y[i][j] {
        if j < h.bits {
          BitLocal(a, c, Size(h), 8 * BodyAt(h) + BodyIndex(E, h.bits, i, j));
        } else if marks[i] && j < h.bits + h.eb && Rank(marks, i) < h.nexc {
          HighLocal(a, c, h, Rank(marks, i), j - h.bits);
        }
      }
    }
  }

  lemma BitLocal(a: seq<Byte>, c: seq<Byte>, n: nat, k: nat)
    requires n <= |a| && n <= |c| && k < 8 * n
    requires forall k :: 0 <= k < n ==> c[k] == a[k]
    ensures BitAt(c, k) == BitAt(a, k)
  {
  }

  lemma HighLocal(a: seq<Byte>, c: seq<Byte>, h: Header, e: nat, j: nat)
    requires |a| >= Size(h) && |c| >= Size(h)
    requires forall k :: 0 <= k < Size(h) ==> c[k] == a[k]
    requires e < h.nexc && j < h.eb
    ensures HighBit(c, HighAt(h), h.nexc, h.eb, e, j) == HighBit(a, HighAt(h), h.nexc, h.eb, e, j)
  {
    TimesStep(e, h.nexc, h.eb);
    BitLocal(a, c, Size(h), 8 * HighAt(h) + Times(e, h.eb) + j);
  }

  /** The first block of a byte string: its size and its values. */
  ghost function FirstBlock(src: seq<Byte>, E: EltBytes): (b: Option<(nat, seq<Bits>)>)
    ensures b.Some? <==> Accepts(src, E)
    ensures b.Some? ==> 0 < b.value.0 <= |src| && |b.value.1| == BLOCK
  {
    if Accepts(src, E) then Some((WireSize(src, E), Meaning(src, E))) else None
  }

  lemma FirstBlockExtend(a: seq<Byte>, rest: seq<Byte>, E: EltBytes)
    requires FirstBlock(a, E).Some?
    ensures FirstBlock(a + rest, E) == FirstBlock(a, E)
  {
    DropAppend(a, rest, WireSize(a, E));
    BlockLocal(a, a + rest, E);
  }

  ghost function BlockParser(E: EltBytes): (f: Parser)
    ensures Sound(f) && Local(f)
    ensures forall s :: f(s) == FirstBlock(s, E)
  {
    var f: Parser := s => FirstBlock(s, E);
    assert Local(f) by {
      forall s: seq<Byte>, rest: seq<Byte> | f(s).Some? ensures f(s + rest) == f(s) {
        FirstBlockExtend(s, rest, E);
      }
    }
    f
  }

  /** The values a whole PFOR stream of nb elements denotes. */
  ghost function StreamMeaning(src: seq<Byte>, nb: nat, E: EltBytes): (v: Option<seq<Bits>>)
    ensures v.Some? ==> |v.value| == nb
  {
    Stream(BlockParser(E), src, nb)
  }
}
