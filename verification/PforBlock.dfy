/** One PFOR block and whole PFOR streams, encoder side. */
module PforBlock {
  import opened Common
  import opened Words
  import opened Streams
  import opened PforFormat
  import opened PforPack
  import opened PforSelect
  import opened PforEncode

  /** Some marked value has exactly e marks below it. */
  lemma {:induction false} RankFind(marks: seq<bool>, n: nat, e: nat) returns (i: nat)
    requires n <= |marks| && e < Rank(marks, n)
    ensures i < n && marks[i] && Rank(marks, i) == e
  {
    if marks[n - 1] && Rank(marks, n - 1) == e {
      i := n - 1;
    } else {
      i := RankFind(marks, n - 1, e);
    }
  }

  /** A stored position list is ascending and names the marked values. */
  lemma ListStored(blk: seq<Byte>, marks: seq<bool>, nexc: nat)
    requires |marks| == BLOCK && nexc == Rank(marks, BLOCK) && 3 + nexc <= |blk|
    requires PositionsStored(blk, 3, marks, nexc, true)
    ensures Ascending(blk, nexc) && Marks(blk, nexc, true) == marks
  {
    hide Rank;
    forall a, b | 0 <= a < b < nexc ensures PosAt(blk, a) < PosAt(blk, b) {
      var i := RankFind(marks, BLOCK, a);
      var k := RankFind(marks, BLOCK, b);
      if k < i {
        RankStep(marks, k, i);
      }
    }
    var m := Marks(blk, nexc, true);
    forall i | 0 <= i < BLOCK ensures m[i] == marks[i] {
      if marks[i] {
        RankStep(marks, i, BLOCK);
        assert PosAt(blk, Rank(marks, i)) == i;
      }
      if m[i] {
        var e :| 0 <= e < nexc && PosAt(blk, e) == i;
        var k := RankFind(marks, BLOCK, e);
      }
    }
  }

  lemma PositionsRead(blk: seq<Byte>, h: Header, marks: seq<bool>)
    requires |marks| == BLOCK && h.nexc == Rank(marks, BLOCK)
    requires 3 + PositionBytes(h.nexc, h.list) <= |blk|
    requires PositionsStored(blk, 3, marks, h.nexc, h.list)
    ensures PositionsOk(blk, h) && Marks(blk, h.nexc, h.list) == marks
  {
    if h.list {
      ListStored(blk, marks, h.nexc);
    } else {
      var m := Marks(blk, h.nexc, false);
      assert m == marks;
    }
  }

  ghost predicate HeaderWf(src: seq<Bits>, E: EltBytes, h: Header)
    requires |src| == BLOCK
  {
    && h.bits + h.eb <= 8 * E
    && h.nexc == Nexc(src, h.bits) <= 255
    && (if h.nexc == 0 then h.eb == 0 && !h.list else h.eb > 0)
    && forall i :: 0 <= i < BLOCK ==> Width(src[i]) <= h.bits + h.eb
  }

  /** The exception part of a block that starts at byte `at`. */
  ghost predicate ExceptionsAt(p: seq<Byte>, at: nat, src: seq<Bits>, h: Header)
    requires |src| == BLOCK && h.nexc == Nexc(src, h.bits) && at + BodyAt(h) <= |p|
  {
    h.nexc != 0 ==>
      && FromByte(p[at + 2]) == h.eb + (if h.list then 128 else 0)
      && PositionsStored(p, at + 3, ExcMarks(src, h.bits), h.nexc, h.list)
      && HighStored(p, at + HighAt(h), src, ExcMarks(src, h.bits), h.bits, h.eb, BLOCK)
  }

  /** Everything an encoded block of src has to hold: header, positions, high bits
      of the exceptions and low bits of all values. */
  ghost predicate Encoded(blk: seq<Byte>, src: seq<Bits>, E: EltBytes, h: Header)
    requires IsBlock(src, E)
  {
    && HeaderWf(src, E, h)
    && |blk| == Size(h)
    && FromByte(blk[0]) == h.bits && FromByte(blk[1]) == h.nexc
    && ExceptionsAt(blk, 0, src, h)
    && forall i, j :: 0 <= i < BLOCK && 0 <= j < h.bits ==> BodyBit(blk, BodyAt(h), E, h.bits, i, j) == src[i][j]
  }

  lemma HeaderRead(blk: seq<Byte>, src: seq<Bits>, E: EltBytes, h: Header)
    requires IsBlock(src, E) && Encoded(blk, src, E, h)
    ensures |blk| == Size(h) >= 2 && HeaderOf(blk) == h
  {
  }

  lemma MarksRead(blk: seq<Byte>, src: seq<Bits>, E: EltBytes, h: Header)
    requires IsBlock(src, E) && HeaderWf(src, E, h) && |blk| == Size(h) && HeaderOf(blk) == h
    requires ExceptionsAt(blk, 0, src, h)
    ensures Accepts(blk, E) && MarksOf(blk, E) == ExcMarks(src, h.bits)
  {
    if h.nexc != 0 {
      PositionsRead(blk, h, ExcMarks(src, h.bits));
    } else {
      NoExceptions(src, h.bits);
      assert ExcMarks(src, h.bits) == Zero(BLOCK);
    }
  }

  lemma NoExceptions(src: seq<Bits>, bits: nat)
    ensures Nexc(src, bits) == 0 ==> forall i :: 0 <= i < |src| ==> Width(src[i]) <= bits
  {
    forall i | 0 <= i < |src| ensures Nexc(src, bits) == 0 ==> Width(src[i]) <= bits {
      RankStep(ExcMarks(src, bits), i, |src|);
    }
  }

  /** Such a block is exactly one well-formed block, and it denotes src. */
  lemma EncodedMeaning(blk: seq<Byte>, src: seq<Bits>, E: EltBytes, h: Header)
    requires IsBlock(src, E) && Encoded(blk, src, E, h)
    ensures Accepts(blk, E) && WireSize(blk, E) == |blk| && Meaning(blk, E) == src
  {
    HeaderRead(blk, src, E, h);
    MarksRead(blk, src, E, h);
    ValuesRead(blk, src, E, h, ExcMarks(src, h.bits));
  }

  lemma ValuesRead(blk: seq<Byte>, src: seq<Bits>, E: EltBytes, h: Header, marks: seq<bool>)
    requires IsBlock(src, E) && Encoded(blk, src, E, h) && marks == ExcMarks(src, h.bits)
    ensures Values(blk, E, h, marks) == src
  {
    var v := Values(blk, E, h, marks);
    forall i | 0 <= i < BLOCK ensures v[i] == src[i] {
      forall j | 0 <= j < 8 * E ensures v[i][j] == src[i][j] {
        if j >= h.bits {
          HighRead(blk, src, E, h, marks, i, j);
        }
      }
    }
  }

  lemma HighRead(blk: seq<Byte>, src: seq<Bits>, E: EltBytes, h: Header, marks: seq<bool>, i: nat, j: nat)
    requires IsBlock(src, E) && |marks| == BLOCK && |blk| >= Size(h)
    requires i < BLOCK && h.bits <= j < 8 * E && h.bits + h.eb <= 8 * E
    requires Width(src[i]) <= h.bits + h.eb && marks[i] == (Width(src[i]) > h.bits)
    requires h.nexc == Rank(marks, BLOCK)
      && (h.nexc != 0 ==> HighStored(blk, HighAt(h), src, marks, h.bits, h.eb, BLOCK))
    ensures ValueBit(blk, E, h, marks, i, j) == src[i][j]
  {
    RankStep(marks, i, BLOCK);
    if marks[i] && j < h.bits + h.eb {
      hide BitAt, EntryStart;
      EntryRead(blk, HighAt(h), h, marks, i, src[i], j - h.bits);
    }
  }

  /** An entry stored in place reads back through the format. */
  lemma EntryRead(blk: seq<Byte>, at: nat, h: Header, marks: seq<bool>, i: nat, word: Bits, j: nat)
    requires |blk| >= at + HighBytes(h.nexc, h.eb) && i < |marks| && Rank(marks, i) < h.nexc && j < h.eb
    requires EntryAt(blk, 8 * at + EntryStart(marks, h.eb, i), word, h.bits, h.eb)
    ensures HighBit(blk, at, h.nexc, h.eb, Rank(marks, i), j) == word[h.bits + j]
  {
    var k := 8 * at + EntryStart(marks, h.eb, i) + j;
    assert BitAt(blk, k) == word[h.bits + j];
  }

  /** n bytes of a at `at` are n bytes of b at `to`. */
  ghost predicate Copied(a: seq<Byte>, at: nat, b: seq<Byte>, to: nat, n: nat) {
    && at + n <= |a| && to + n <= |b|
    && forall k :: at <= k < at + n ==> a[k] == b[to + (k - at)]
  }

  lemma BitMoved(a: seq<Byte>, at: nat, b: seq<Byte>, to: nat, n: nat, k: nat)
    requires Copied(a, at, b, to, n) && k < 8 * n
    ensures BitAt(b, 8 * to + k) == BitAt(a, 8 * at + k)
  {
    assert (8 * at + k) / 8 == at + k / 8 && (8 * to + k) / 8 == to + k / 8;
  }

  lemma PositionsMoved(a: seq<Byte>, at: nat, b: seq<Byte>, to: nat, marks: seq<bool>, nexc: nat, list: bool)
    requires |marks| == BLOCK && Rank(marks, BLOCK) == nexc
    requires Copied(a, at, b, to, PositionBytes(nexc, list))
    requires PositionsStored(a, at, marks, nexc, list)
    ensures PositionsStored(b, to, marks, nexc, list)
  {
    if list {
      forall i | 0 <= i < BLOCK && marks[i] ensures Rank(marks, i) < nexc && FromByte(b[to + Rank(marks, i)]) == i {
        RankStep(marks, i, BLOCK);
        assert FromByte(a[at + Rank(marks, i)]) == i;
      }
    }
  }

  lemma HighMoved(a: seq<Byte>, at: nat, b: seq<Byte>, to: nat, src: seq<Bits>, marks: seq<bool>, bits: nat, eb: nat)
    requires |marks| == |src| == BLOCK && Copied(a, at, b, to, HighBytes(Rank(marks, BLOCK), eb))
    requires HighStored(a, at, src, marks, bits, eb, BLOCK)
    ensures HighStored(b, to, src, marks, bits, eb, BLOCK)
  {
    forall i | 0 <= i < BLOCK && marks[i]
      ensures EntryAt(b, 8 * to + EntryStart(marks, eb, i), src[i], bits, eb)
    {
      EntryOrder(marks, eb, i, BLOCK);
      EntryMoved(a, at, b, to, HighBytes(Rank(marks, BLOCK), eb), EntryStart(marks, eb, i), src[i], bits, eb);
    }
  }

  lemma EntryMoved(a: seq<Byte>, at: nat, b: seq<Byte>, to: nat, n: nat, start: nat, word: Bits, bits: nat, eb: nat)
    requires Copied(a, at, b, to, n) && start + eb <= 8 * n
    requires EntryAt(a, 8 * at + start, word, bits, eb)
    ensures EntryAt(b, 8 * to + start, word, bits, eb)
  {
    forall k | 8 * to + start <= k < 8 * to + start + eb ensures BitAt(b, k) == word[bits + (k - (8 * to + start))] {
      BitMoved(a, at, b, to, n, k - 8 * to);
      assert BitAt(a, 8 * at + (k - 8 * to)) == word[bits + (k - (8 * to + start))];
    }
  }

  lemma BodyMoved(a: seq<Byte>, at: nat, b: seq<Byte>, to: nat, src: seq<Bits>, E: EltBytes, bits: nat)
    requires IsBlock(src, E) && 0 < bits <= 8 * E && Copied(a, at, b, to, BodyBytes(bits))
    requires LanesStored(a, at, src, E, bits, 2 * bits)
    ensures forall i, j :: 0 <= i < BLOCK && 0 <= j < bits ==> BodyBit(b, to, E, bits, i, j) == src[i][j]
  {
    forall i, j | 0 <= i < BLOCK && 0 <= j < bits ensures BodyBit(b, to, E, bits, i, j) == src[i][j] {
      LanesRead(a, at, src, E, bits, i, j);
      BitMoved(a, at, b, to, BodyBytes(bits), BodyIndex(E, bits, i, j));
    }
  }

  lemma ExceptionsMoved(a: seq<Byte>, at: nat, b: seq<Byte>, to: nat, src: seq<Bits>, h: Header)
    requires |src| == BLOCK && h.nexc == Nexc(src, h.bits)
    requires Copied(a, at, b, to, BodyAt(h))
    requires ExceptionsAt(a, at, src, h)
    ensures ExceptionsAt(b, to, src, h)
  {
    hide Rank, HighBytes, PositionsStored, HighStored;
    if h.nexc != 0 {
      var marks := ExcMarks(src, h.bits);
      PositionsMoved(a, at + 3, b, to + 3, marks, h.nexc, h.list);
      HighMoved(a, at + HighAt(h), b, to + HighAt(h), src, marks, h.bits, h.eb);
    }
  }

  method WritePositions(p: array<Byte>, at: nat, widths: seq<nat>, bits: nat, list: bool, nexc: nat,
                        ghost marks: seq<bool>)
    returns (next: nat)
    requires |widths| == |marks| == BLOCK && nexc == Rank(marks, BLOCK) && at + PositionBytes(nexc, list) <= p.Length
    requires forall i :: 0 <= i < BLOCK ==> marks[i] == (widths[i] > bits)
    modifies p
    ensures next == at + PositionBytes(nexc, list)
    ensures PositionsStored(p[..], at, marks, nexc, list)
    ensures forall i :: 0 <= i < p.Length && !(at <= i < next) ==> p[i] == old(p[i])
  {
    if list {
      next := WriteList(p, at, widths, bits, marks);
    } else {
      next := WriteBitmap(p, at, widths, bits, marks);
    }
  }

  /** Descriptor byte, positions and high bits of the block at byte `at`. */
  method WriteExceptions(p: array<Byte>, at: nat, src: seq<Bits>, E: EltBytes, widths: seq<nat>, h: Header)
    requires IsBlock(src, E) && |widths| == BLOCK && HeaderWf(src, E, h) && h.nexc != 0
    requires forall i :: 0 <= i < BLOCK ==> widths[i] == Width(src[i])
    requires at + BodyAt(h) <= p.Length
    modifies p
    ensures ExceptionsAt(p[..], at, src, h)
    ensures forall i :: 0 <= i < p.Length && !(at + 2 <= i < at + BodyAt(h)) ==> p[i] == old(p[i])
  {
    hide Rank, HighBytes, PositionsStored, HighStored;
    ghost var marks := ExcMarks(src, h.bits);
    p[at + 2] := ToByte(h.eb + (if h.list then 128 else 0));
    var high := WritePositions(p, at + 3, widths, h.bits, h.list, h.nexc, marks);
    ghost var before := p[..];
    WriteHigh(p, high, src, E, widths, h.bits, h.eb, h.nexc, marks);
    PositionsMoved(before, at + 3, p[..], at + 3, marks, h.nexc, h.list);
    assert p[at + 2] == before[at + 2];
  }

  /** Header, exceptions and body of src in place at byte `at`. */
  ghost predicate BlockAt(p: seq<Byte>, at: nat, src: seq<Bits>, E: EltBytes, h: Header)
    requires IsBlock(src, E) && h.nexc == Nexc(src, h.bits)
  {
    && at + Size(h) <= |p|
    && FromByte(p[at]) == h.bits && FromByte(p[at + 1]) == h.nexc
    && ExceptionsAt(p, at, src, h)
    && (h.bits != 0 ==> LanesStored(p, at + BodyAt(h), src, E, h.bits, 2 * h.bits))
  }

  lemma AssembleBlock(p: seq<Byte>, at: nat, src: seq<Bits>, E: EltBytes, h: Header)
    requires IsBlock(src, E) && HeaderWf(src, E, h) && BlockAt(p, at, src, E, h)
    ensures Encoded(p[at..at + Size(h)], src, E, h)
  {
    hide ExceptionsAt, BodyBit, LanesStored;
    var blk := p[at..at + Size(h)];
    ExceptionsMoved(p, at, blk, 0, src, h);
    if h.bits != 0 {
      BodyMoved(p, at + BodyAt(h), blk, BodyAt(h), src, E, h.bits);
    }
  }

  /** One block at byte `at`, which has room for the largest block there is. */
  method EncodeBlock(p: array<Byte>, at: nat, src: seq<Bits>, E: EltBytes) returns (size: nat)
    requires IsBlock(src, E) && at + 2 + BLOCK * E <= p.Length
    modifies p
    ensures size <= 2 + BLOCK * E && at + size <= p.Length
    ensures FirstBlock(p[at..at + size], E) == Some((size, src))
    ensures Cheapest(src, HeaderOf(p[at..at + size]))
    ensures forall i :: 0 <= i < p.Length && !(at <= i < at + size) ==> p[i] == old(p[i])
  {
    hide HeaderWf, BlockAt, Cheapest, FirstBlock;
    var widths, h := ChooseHeader(src, E);
    WriteBlock(p, at, src, E, widths, h);
    size := Size(h);
    BlockEncoded(p[..], at, src, E, h);
    assert p[..][at..at + size] == p[at..at + size];
  }

  lemma BlockEncoded(p: seq<Byte>, at: nat, src: seq<Bits>, E: EltBytes, h: Header)
    requires IsBlock(src, E) && HeaderWf(src, E, h) && BlockAt(p, at, src, E, h)
    ensures at + Size(h) <= |p| && FirstBlock(p[at..at + Size(h)], E) == Some((Size(h), src))
    ensures HeaderOf(p[at..at + Size(h)]) == h
  {
    hide Encoded, HeaderWf;
    AssembleBlock(p, at, src, E, h);
    HeaderRead(p[at..at + Size(h)], src, E, h);
    EncodedMeaning(p[at..at + Size(h)], src, E, h);
  }

  method ChooseHeader(src: seq<Bits>, E: EltBytes) returns (widths: seq<nat>, h: Header)
    requires IsBlock(src, E)
    ensures |widths| == BLOCK && forall i :: 0 <= i < BLOCK ==> widths[i] == Width(src[i])
    ensures HeaderWf(src, E, h) && Size(h) <= 2 + BLOCK * E
    ensures Cheapest(src, h)
  {
    var hist, maxBits;
    widths, hist, maxBits := Measure(src, E);
    var bits, nexc, list := ChooseWidth(src, E, hist, maxBits);
    CostBound(src, E, maxBits, bits);
    NexcAtMax(src, maxBits);
    NoExceptions(src, bits);
    h := if nexc == 0 then Header(bits, 0, 0, false) else Header(bits, nexc, maxBits - bits, list);
  }

  method WriteBlock(p: array<Byte>, at: nat, src: seq<Bits>, E: EltBytes, widths: seq<nat>, h: Header)
    requires IsBlock(src, E) && |widths| == BLOCK && HeaderWf(src, E, h)
    requires forall i :: 0 <= i < BLOCK ==> widths[i] == Width(src[i])
    requires at + Size(h) <= p.Length
    modifies p
    ensures BlockAt(p[..], at, src, E, h)
    ensures forall i :: 0 <= i < p.Length && !(at <= i < at + Size(h)) ==> p[i] == old(p[i])
  {
    p[at], p[at + 1] := ToByte(h.bits), ToByte(h.nexc);
    if h.nexc != 0 {
      WriteExceptions(p, at, src, E, widths, h);
    }
    WriteBody(p, at, src, E, h);
  }

  method WriteBody(p: array<Byte>, at: nat, src: seq<Bits>, E: EltBytes, h: Header)
    requires IsBlock(src, E) && HeaderWf(src, E, h) && at + Size(h) <= p.Length
    requires ExceptionsAt(p[..], at, src, h)
    modifies p
    ensures ExceptionsAt(p[..], at, src, h)
    ensures h.bits != 0 ==> LanesStored(p[..], at + BodyAt(h), src, E, h.bits, 2 * h.bits)
    ensures forall i :: 0 <= i < p.Length && !(at + BodyAt(h) <= i < at + Size(h)) ==> p[i] == old(p[i])
  {
    if h.bits != 0 {
      ghost var before := p[..];
      var next := PackBody(p, at + BodyAt(h), src, E, h.bits);
      ExceptionsMoved(before, at, p[..], at, src, h);
    }
  }
}
