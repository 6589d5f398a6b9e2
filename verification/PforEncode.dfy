/** The PFOR encoder: exceptions, blocks and whole streams. */
module PforEncode {
  import opened Words
  import opened Arith
  import opened BitIO
  import opened Streams
  import opened PforFormat
  import opened PforPack

  /** The bitmap or the list at byte `at` names exactly the marked values. */
  ghost predicate PositionsStored(p: seq<Byte>, at: nat, marks: seq<bool>, nexc: nat, list: bool)
    requires |marks| == BLOCK && Rank(marks, BLOCK) == nexc
    requires at + PositionBytes(nexc, list) <= |p|
  {
    if list then
      forall i :: 0 <= i < BLOCK && marks[i] ==> (RankStep(marks, i, BLOCK); FromByte(p[at + Rank(marks, i)]) == i)
    else
      forall i :: 0 <= i < BLOCK ==> p[at + i / 8][i % 8] == marks[i]
  }

  method WriteBitmap(p: array<Byte>, at: nat, widths: seq<nat>, bits: nat, ghost marks: seq<bool>) returns (next: nat)
    requires at + BITMAP_BYTES <= p.Length && |widths| == |marks| == BLOCK
    requires forall i :: 0 <= i < BLOCK ==> marks[i] == (widths[i] > bits)
    modifies p
    ensures next == at + BITMAP_BYTES
    ensures PositionsStored(p[..], at, marks, Rank(marks, BLOCK), false)
    ensures forall i :: 0 <= i < p.Length && !(at <= i < next) ==> p[i] == old(p[i])
  {
    next := at + BITMAP_BYTES;
    Clear(p, at, BITMAP_BYTES);
    var one := Mask(64, 1);
    for i := 0 to BLOCK
      invariant forall k :: 8 * at <= k < 8 * at + BLOCK ==> BitAt(p[..], k) == (k - 8 * at < i && marks[k - 8 * at])
      invariant forall i :: 0 <= i < p.Length && !(at <= i < at + BITMAP_BYTES) ==> p[i] == old(p[i])
    {
      if widths[i] > bits {
        ghost var before := p[..];
        OrByte(p, at + i / 8, i % 8, 1, one);
        forall q | 0 <= q < p.Length && !(at <= q < at + BITMAP_BYTES) ensures p[q] == before[q] {
          ByteUnchanged(before, p[..], 8 * at + i, 1, one, q);
        }
      }
    }
    forall i | 0 <= i < BLOCK ensures p[at + i / 8][i % 8] == marks[i] {
      assert BitAt(p[..], 8 * at + i) == marks[i];
    }
  }

  /** memset(p + at, 0, n) */
  method Clear(p: array<Byte>, at: nat, n: nat)
    requires at + n <= p.Length
    modifies p
    ensures forall i :: at <= i < at + n ==> p[i] == ZERO_BYTE
    ensures forall i :: 0 <= i < p.Length && !(at <= i < at + n) ==> p[i] == old(p[i])
  {
    for k := 0 to n
      invariant forall i :: at <= i < at + k ==> p[i] == ZERO_BYTE
      invariant forall i :: 0 <= i < p.Length && !(at <= i < at + k) ==> p[i] == old(p[i])
    {
      p[at + k] := ZERO_BYTE;
    }
  }

  method WriteList(p: array<Byte>, at: nat, widths: seq<nat>, bits: nat, ghost marks: seq<bool>) returns (next: nat)
    requires |widths| == |marks| == BLOCK && at + Rank(marks, BLOCK) <= p.Length
    requires forall i :: 0 <= i < BLOCK ==> marks[i] == (widths[i] > bits)
    modifies p
    ensures next == at + Rank(marks, BLOCK)
    ensures PositionsStored(p[..], at, marks, Rank(marks, BLOCK), true)
    ensures forall i :: 0 <= i < p.Length && !(at <= i < next) ==> p[i] == old(p[i])
  {
    hide ToByte, FromByte, Rank, Listed;
    next := at;
    ghost var total := Rank(marks, BLOCK);
    ListedNone(p[..], at, marks);
    for i := 0 to BLOCK
      invariant next == at + Rank(marks, i) && Rank(marks, i) <= total
      invariant Listed(p[..], at, marks, i)
      invariant forall i :: 0 <= i < p.Length && !(at <= i < next) ==> p[i] == old(p[i])
    {
      RankStep(marks, i, BLOCK);
      RankNext(marks, i);
      ghost var before := p[..];
      if widths[i] > bits {
        p[next] := ToByte(i);
        next := next + 1;
      }
      ListedStep(before, p[..], at, marks, i);
    }
    ListedAll(p[..], at, marks);
  }

  /** The positions of the exceptions below n are listed in order from byte `at`. */
  ghost predicate Listed(p: seq<Byte>, at: nat, marks: seq<bool>, n: nat)
    requires n <= |marks| == BLOCK && at + Rank(marks, BLOCK) <= |p|
  {
    forall i :: 0 <= i < n && marks[i] ==> (RankStep(marks, i, BLOCK); FromByte(p[at + Rank(marks, i)]) == i)
  }

  lemma ListedNone(p: seq<Byte>, at: nat, marks: seq<bool>)
    requires |marks| == BLOCK && at + Rank(marks, BLOCK) <= |p|
    ensures Listed(p, at, marks, 0)
  {
    hide Rank;
  }

  lemma RankNext(marks: seq<bool>, i: nat)
    requires i < |marks|
    ensures Rank(marks, 0) == 0
    ensures Rank(marks, i + 1) == Rank(marks, i) + (if marks[i] then 1 else 0)
  {
  }

  lemma ListedStep(before: seq<Byte>, p: seq<Byte>, at: nat, marks: seq<bool>, i: nat)
    requires i < |marks| == BLOCK && at + Rank(marks, BLOCK) <= |p| == |before|
    requires Rank(marks, i) <= Rank(marks, BLOCK) && Listed(before, at, marks, i)
    requires forall k :: at <= k < at + Rank(marks, i) ==> p[k] == before[k]
    requires marks[i] ==> at + Rank(marks, i) < |p| && p[at + Rank(marks, i)] == ToByte(i)
    ensures Listed(p, at, marks, i + 1)
  {
    hide Rank, ToByte, FromByte;
    forall k | 0 <= k < i + 1 && marks[k]
      ensures (RankStep(marks, k, BLOCK); FromByte(p[at + Rank(marks, k)]) == k)
    {
      RankStep(marks, k, BLOCK);
      if k < i {
        RankStep(marks, k, i);
      } else {
        ByteOfIndex(i);
      }
    }
  }

  lemma ByteOfIndex(i: nat)
    requires i < BLOCK
    ensures FromByte(ToByte(i)) == i
  {
  }

  lemma ListedAll(p: seq<Byte>, at: nat, marks: seq<bool>)
    requires |marks| == BLOCK && at + Rank(marks, BLOCK) <= |p| && Listed(p, at, marks, BLOCK)
    ensures PositionsStored(p, at, marks, Rank(marks, BLOCK), true)
  {
    hide Rank, FromByte;
  }

  /** The bits of word from `bits` on are at bit `start`. */
  ghost predicate EntryAt(p: seq<Byte>, start: nat, word: Bits, bits: nat, eb: nat)
  {
    && start + eb <= 8 * |p|
    && bits + eb <= |word|
    && forall k :: start <= k < start + eb ==> BitAt(p, k) == word[bits + (k - start)]
  }

  /** Where the entry of value i starts in the high-bit stream. */
  function EntryStart(marks: seq<bool>, eb: nat, i: nat): nat
    requires i <= |marks|
  {
    Times(Rank(marks, i), eb)
  }

  lemma EntryOrder(marks: seq<bool>, eb: nat, i: nat, n: nat)
    requires i < n <= |marks| && marks[i]
    ensures EntryStart(marks, eb, i + 1) == EntryStart(marks, eb, i) + eb <= EntryStart(marks, eb, n)
  {
    RankStep(marks, i, n);
    TimesStep(Rank(marks, i), Rank(marks, n), eb);
  }

  /** The high bits of every exception below n, in order of position. */
  ghost predicate HighStored(p: seq<Byte>, at: nat, src: seq<Bits>, marks: seq<bool>, bits: nat, eb: nat, n: nat)
    requires n <= |marks| == |src|
  {
    forall i :: 0 <= i < n && marks[i] ==> EntryAt(p, 8 * at + EntryStart(marks, eb, i), src[i], bits, eb)
  }

  ghost predicate ClearBits(p: seq<Byte>, from: nat, to: nat) {
    to <= 8 * |p| && forall k :: from <= k < to ==> !BitAt(p, k)
  }

  lemma EntryKept(before: seq<Byte>, after: seq<Byte>, start: nat, word: Bits, bits: nat, eb: nat, pos: nat,
                  nbits: nat, v: Bits)
    requires EntryAt(before, start, word, bits, eb) && start + eb <= pos
    requires nbits <= |v| && Written(before, after, pos, nbits, v)
    ensures EntryAt(after, start, word, bits, eb)
  {
  }

  lemma EntryAdded(before: seq<Byte>, after: seq<Byte>, pos: nat, word: Bits, bits: nat, eb: nat, v: Bits, limit: nat)
    requires ClearBits(before, pos, limit) && pos + eb <= limit && bits + eb <= |word| <= bits + 64 && eb <= 64
    requires |v| == 64 && Written(before, after, pos, eb, v) && forall j :: 0 <= j < eb ==> v[j] == word[bits + j]
    ensures EntryAt(after, pos, word, bits, eb)
    ensures ClearBits(after, pos + eb, limit)
  {
  }

  method PutHigh(p: array<Byte>, at: nat, bitPos: nat, highBytes: nat, eb: nat, high: Bits) returns (next: nat)
    requires |high| == 64 && eb <= 64 && forall i :: eb <= i < 64 ==> !high[i]
    requires at + highBytes <= p.Length && bitPos + eb <= 8 * highBytes
    modifies p
    ensures next == bitPos + eb
    ensures Written(old(p[..]), p[..], 8 * at + bitPos, eb, high)
  {
    var wide := eb <= WIDE_MAX && highBytes >= 8;
    var wideLimit := if wide then highBytes - 8 else 0;
    if wide && bitPos / 8 <= wideLimit {
      next := PutBitsWide(p, at, bitPos, eb, high);
    } else {
      next := PutBits(p, at, bitPos, eb, high);
    }
  }

  /** One more exception leaves the stored ones in place. */
  lemma HighStep(before: seq<Byte>, after: seq<Byte>, at: nat, src: seq<Bits>, marks: seq<bool>, bits: nat, eb: nat,
                 n: nat, high: Bits)
    requires n < |marks| == |src| && marks[n] && eb <= |high|
    requires HighStored(before, at, src, marks, bits, eb, n)
    requires Written(before, after, 8 * at + EntryStart(marks, eb, n), eb, high)
    requires EntryAt(after, 8 * at + EntryStart(marks, eb, n), src[n], bits, eb)
    ensures HighStored(after, at, src, marks, bits, eb, n + 1)
  {
    hide Rank, EntryStart, EntryAt, BitAt;
    EntryOrder(marks, eb, n, n + 1);
    forall i | 0 <= i < n + 1 && marks[i]
      ensures EntryAt(after, 8 * at + EntryStart(marks, eb, i), src[i], bits, eb)
    {
      if i < n {
        EntryOrder(marks, eb, i, n);
        EntryKept(before, after, 8 * at + EntryStart(marks, eb, i), src[i], bits, eb,
          8 * at + EntryStart(marks, eb, n), eb, high);
      }
    }
  }

  lemma ByteUnchanged(before: seq<Byte>, after: seq<Byte>, at: nat, nbits: nat, v: Bits, i: nat)
    requires nbits <= |v| && Written(before, after, at, nbits, v)
    requires i < |before| && (8 * i + 8 <= at || at + nbits <= 8 * i)
    ensures after[i] == before[i]
  {
    forall b | 0 <= b < 8 ensures after[i][b] == before[i][b] {
      assert BitAt(after, 8 * i + b) == BitAt(before, 8 * i + b);
    }
  }

  method WriteHigh(p: array<Byte>, at: nat, src: seq<Bits>, E: EltBytes, widths: seq<nat>, bits: nat, eb: nat,
                   nexc: nat, ghost marks: seq<bool>)
    requires IsBlock(src, E) && |widths| == |marks| == BLOCK && bits + eb <= 8 * E
    requires forall i :: 0 <= i < BLOCK ==> widths[i] == Width(src[i]) <= bits + eb && marks[i] == (widths[i] > bits)
    requires nexc == Rank(marks, BLOCK) && at + HighBytes(nexc, eb) <= p.Length
    modifies p
    ensures HighStored(p[..], at, src, marks, bits, eb, BLOCK)
    ensures forall i :: 0 <= i < p.Length && !(at <= i < at + HighBytes(nexc, eb)) ==> p[i] == old(p[i])
  {
    var highBytes := HighBytes(nexc, eb);
    Clear(p, at, highBytes);
    var bitPos := 0;
    for i := 0 to BLOCK
      invariant bitPos == EntryStart(marks, eb, i)
      invariant HighStored(p[..], at, src, marks, bits, eb, i)
      invariant ClearBits(p[..], 8 * at + bitPos, 8 * (at + highBytes))
      invariant forall i :: 0 <= i < p.Length && !(at <= i < at + highBytes) ==> p[i] == old(p[i])
    {
      if widths[i] > bits {
        EntryOrder(marks, eb, i, BLOCK);
        ghost var before := p[..];
        ghost var high;
        bitPos, high := AppendEntry(p, at, src[i], bits, eb, highBytes, bitPos);
        HighStep(before, p[..], at, src, marks, bits, eb, i, high);
        EntryOrder(marks, eb, i, i + 1);
      }
    }
  }

  /** Appends the high bits of one word to the stream at byte `at`. */
  method AppendEntry(p: array<Byte>, at: nat, word: Bits, bits: nat, eb: nat, highBytes: nat, bitPos: nat)
    returns (next: nat, ghost high: Bits)
    requires bits + eb <= |word| <= 64 && Width(word) <= bits + eb
    requires bitPos + eb <= 8 * highBytes && at + highBytes <= p.Length
    requires ClearBits(p[..], 8 * at + bitPos, 8 * (at + highBytes))
    modifies p
    ensures next == bitPos + eb && |high| == 64
    ensures Written(old(p[..]), p[..], 8 * at + bitPos, eb, high)
    ensures EntryAt(p[..], 8 * at + bitPos, word, bits, eb)
    ensures ClearBits(p[..], 8 * at + next, 8 * (at + highBytes))
    ensures forall i :: 0 <= i < p.Length && !(at <= i < at + highBytes) ==> p[i] == old(p[i])
  {
    ghost var before := p[..];
    var v := Cast(Shr(word, bits), 64);
    high := v;
    next := PutHigh(p, at, bitPos, highBytes, eb, v);
    EntryAdded(before, p[..], 8 * at + bitPos, word, bits, eb, high, 8 * (at + highBytes));
    forall k | 0 <= k < p.Length && !(at <= k < at + highBytes) ensures p[k] == before[k] {
      ByteUnchanged(before, p[..], 8 * at + bitPos, eb, high, k);
    }
  }
}
