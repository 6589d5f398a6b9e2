/** pfor_encode and pfor_decode over whole arrays, and the round trip. */
module PforCodec {
  import opened Common
  import opened Words
  import opened Arith
  import opened Streams
  import opened PforFormat
  import opened PforPack
  import opened PforSelect
  import opened PforBlock
  import opened PforUnpack
  import opened PforDecode

  predicate WidthOk(eltWidth: nat) {
    eltWidth == 1 || eltWidth == 2 || eltWidth == 4 || eltWidth == 8
  }

  predicate ElementWords(v: seq<Bits>, E: EltBytes) {
    forall i :: 0 <= i < |v| ==> |v[i]| == 8 * E
  }

  /** Bytes used by the block at the front of src, or 0 when it is rejected. */
  method DecodeBlock(platform: Platform, dst: array<Bits>, off: nat, src: seq<Byte>, E: EltBytes) returns (used: nat)
    requires off + BLOCK <= dst.Length
    modifies dst
    ensures FirstBlock(src, E) == if used == 0 then None else Some((used, dst[off..off + BLOCK]))
    ensures forall i :: 0 <= i < dst.Length && !(off <= i < off + BLOCK) ==> dst[i] == old(dst[i])
  {
    var checked := CheckHeader(src, E);
    if checked.None? {
      return 0;
    }
    var h := checked.value;
    PrecheckedAccepts(src, E, h);
    UnpackBody(platform, dst, off, src, BodyAt(h), E, h.bits);
    if h.nexc != 0 {
      if h.list {
        var ok := PatchList(dst, off, src, E, h);
        if !ok {
          return 0;
        }
      } else {
        PatchBitmap(dst, off, src, E, h, Marks(src, h.nexc, false));
      }
    } else {
      NoExceptionValues(dst[off..off + BLOCK], src, E, h);
    }
    used := Size(h);
  }

  lemma NoExceptionValues(d: seq<Bits>, src: seq<Byte>, E: EltBytes, h: Header)
    requires |d| == BLOCK && |src| >= Size(h) && Unpacked(d, src, BodyAt(h), E, h.bits)
    ensures d == Values(src, E, h, Zero(BLOCK))
  {
    forall i | 0 <= i < BLOCK ensures d[i] == Values(src, E, h, Zero(BLOCK))[i] {
      PlainValue(src, E, h, Zero(BLOCK), i);
    }
  }

  /** What the rest of a decode loop has to produce, given what it has produced. */
  ghost predicate Remaining(whole: Option<seq<Bits>>, done: seq<Bits>, rest: Option<seq<Bits>>) {
    if rest.None? then whole.None? else whole == Some(done + rest.value)
  }

  lemma StreamUnfold(f: Parser, src: seq<Byte>, nb: nat)
    requires Sound(f) && nb > 0
    ensures f(src).None? ==> Stream(f, src, nb).None?
    ensures f(src).Some? ==>
      var n := if nb < BLOCK then nb else BLOCK;
      Remaining(Stream(f, src, nb), f(src).value.1[..n], Stream(f, src[f(src).value.0..], nb - n))
  {
  }

  lemma RemainingStep(whole: Option<seq<Bits>>, done: seq<Bits>, block: seq<Bits>, now: Option<seq<Bits>>,
                      rest: Option<seq<Bits>>)
    requires Remaining(whole, done, now) && Remaining(now, block, rest)
    ensures Remaining(whole, done + block, rest)
  {
    if rest.Some? {
      AppendAssoc(done, block, rest.value);
    }
  }

  /** memcpy(dst + off, pad, n) in elements. */
  method CopyOut(dst: array<Bits>, off: nat, n: nat, pad: array<Bits>)
    requires off + n <= dst.Length && n <= pad.Length && pad != dst
    modifies dst
    ensures dst[off..off + n] == pad[..n]
    ensures forall i :: 0 <= i < dst.Length && !(off <= i < off + n) ==> dst[i] == old(dst[i])
  {
    for k := 0 to n
      invariant forall i :: off <= i < off + k ==> dst[i] == pad[i - off]
      invariant forall i :: 0 <= i < dst.Length && !(off <= i < off + k) ==> dst[i] == old(dst[i])
    {
      dst[off + k] := pad[k];
    }
  }

  /** Decodes one block, through the scratch block when it is the last, short one. */
  method DecodeInto(platform: Platform, dst: array<Bits>, off: nat, n: nat, src: seq<Byte>, E: EltBytes,
                    ghost first: Option<(nat, seq<Bits>)>) returns (used: nat)
    requires off + n <= dst.Length && 0 < n <= BLOCK && first == FirstBlock(src, E)
    modifies dst
    ensures used == 0 <==> first.None?
    ensures used != 0 ==> first.value.0 == used && dst[off..off + n] == first.value.1[..n]
    ensures forall i :: 0 <= i < dst.Length && !(off <= i < off + n) ==> dst[i] == old(dst[i])
  {
    hide FirstBlock, Accepts;
    if n == BLOCK {
      used := DecodeBlock(platform, dst, off, src, E);
      ghost var d := dst[off..off + n];
      assert d[..n] == d;
    } else {
      var pad := new Bits[BLOCK](i => []);
      used := DecodeBlock(platform, pad, 0, src, E);
      if used != 0 {
        ghost var values := pad[0..BLOCK];
        assert pad[..n] == values[..n];
        CopyOut(dst, off, n, pad);
      }
    }
  }

  /** Where the decode loop stands: off elements written, src[at..] still to read. */
  ghost predicate DecodeAt(f: Parser, d: seq<Bits>, src: seq<Byte>, off: nat, at: nat)
    requires Sound(f)
  {
    && off <= |d| && at <= |src|
    && Remaining(Stream(f, src, |d|), d[..off], Stream(f, src[at..], |d| - off))
  }

  lemma DecodeStep(f: Parser, before: seq<Bits>, after: seq<Bits>, src: seq<Byte>, off: nat, at: nat, n: nat, used: nat)
    requires Sound(f) && |before| == |after| && off < |before| && DecodeAt(f, before, src, off, at)
    requires n == if |before| - off < BLOCK then |before| - off else BLOCK
    requires f(src[at..]).Some? && f(src[at..]).value.0 == used
    requires after[..off] == before[..off] && after[off..off + n] == f(src[at..]).value.1[..n]
    ensures DecodeAt(f, after, src, off + n, at + used)
  {
    StreamUnfold(f, src[at..], |before| - off);
    var rest := src[at..][used..];
    assert rest == src[at + used..];
    RemainingStep(Stream(f, src, |before|), before[..off], after[off..off + n],
                  Stream(f, src[at..], |before| - off), Stream(f, rest, |before| - off - n));
    assert after[..off + n] == before[..off] + after[off..off + n];
  }

  lemma DecodeFails(f: Parser, d: seq<Bits>, src: seq<Byte>, off: nat, at: nat)
    requires Sound(f) && DecodeAt(f, d, src, off, at) && off < |d| && f(src[at..]).None?
    ensures Stream(f, src, |d|).None?
  {
    StreamUnfold(f, src[at..], |d| - off);
  }

  lemma DecodeEnds(f: Parser, d: seq<Bits>, src: seq<Byte>, at: nat)
    requires Sound(f) && DecodeAt(f, d, src, |d|, at)
    ensures Stream(f, src, |d|) == if at == |src| then Some(d) else None
  {
    assert d[..|d|] == d;
    assert d + [] == d;
  }

  lemma DecodeStarts(f: Parser, d: seq<Bits>, src: seq<Byte>)
    requires Sound(f)
    ensures DecodeAt(f, d, src, 0, 0)
  {
    assert src[0..] == src;
    if Stream(f, src, |d|).Some? {
      assert d[..0] + Stream(f, src, |d|).value == Stream(f, src, |d|).value;
    }
  }

  ghost predicate ParserFor(f: Parser, E: EltBytes) {
    forall s :: f(s) == FirstBlock(s, E)
  }

  method DecodePart(platform: Platform, dst: array<Bits>, off: nat, n: nat, src: seq<Byte>, at: nat, E: EltBytes,
                    ghost f: Parser)
    returns (used: nat)
    requires off + n <= dst.Length && 0 < n <= BLOCK && at <= |src| && Sound(f) && ParserFor(f, E)
    modifies dst
    ensures used == 0 <==> f(src[at..]).None?
    ensures used != 0 ==> f(src[at..]).value.0 == used && dst[off..off + n] == f(src[at..]).value.1[..n]
    ensures dst[..off] == old(dst[..off])
  {
    ghost var first := f(src[at..]);
    ParserAt(f, E, src[at..]);
    hide ParserFor, FirstBlock, Sound;
    used := DecodeInto(platform, dst, off, n, src[at..], E, first);
  }

  lemma ParserAt(f: Parser, E: EltBytes, s: seq<Byte>)
    requires ParserFor(f, E)
    ensures f(s) == FirstBlock(s, E)
  {
  }

  method DecodeAll(platform: Platform, dst: array<Bits>, E: EltBytes, src: seq<Byte>, ghost f: Parser) returns (rc: int)
    requires Sound(f) && ParserFor(f, E)
    modifies dst
    ensures rc == 0 || rc == 1
    ensures rc == 0 <==> Stream(f, src, dst.Length).Some?
    ensures rc == 0 ==> Stream(f, src, dst.Length) == Some(dst[..])
  {
    hide DecodeAt, Stream, ParserFor;
    var off: nat, at: nat := 0, 0;
    DecodeStarts(f, dst[..], src);
    while off < dst.Length
      invariant off <= dst.Length && at <= |src|
      invariant DecodeAt(f, dst[..], src, off, at)
    {
      var n := if dst.Length - off < BLOCK then dst.Length - off else BLOCK;
      ghost var before := dst[..];
      var used := DecodePart(platform, dst, off, n, src, at, E, f);
      if used == 0 {
        DecodeFails(f, before, src, off, at);
        return 1;
      }
      DecodeStep(f, before, dst[..], src, off, at, n, used);
      off, at := off + n, at + used;
    }
    DecodeEnds(f, dst[..], src, at);
    rc := if at == |src| then 0 else 1;
  }

  /** pfor_decode: 0 exactly when the stream is well formed, and then dst is its value. */
  method Decode(platform: Platform, dst: array<Bits>, eltWidth: nat, src: seq<Byte>) returns (rc: int)
    modifies dst
    ensures rc == 0 || rc == 1
    ensures rc == 0 <==> WidthOk(eltWidth) && dst.Length != 0 && StreamMeaning(src, dst.Length, eltWidth).Some?
    ensures rc == 0 ==> StreamMeaning(src, dst.Length, eltWidth) == Some(dst[..])
  {
    if !WidthOk(eltWidth) || dst.Length == 0 {
      return 1;
    }
    rc := DecodeAll(platform, dst, eltWidth, src, BlockParser(eltWidth));
  }

  // ---------------------------------------------------------------------------
  // Encoder

  /** Largest size of an encoded array, or 0 when there is none. */
  function Bound(nb: nat, eltWidth: nat): (n: nat) {
    if !WidthOk(eltWidth) || nb == 0 then 0
    else
      var blocks := nb / BLOCK + (if nb % BLOCK != 0 then 1 else 0);
      var perBlock := 2 + BLOCK * eltWidth;
      if blocks > SIZE_MAX / perBlock then 0 else blocks * perBlock
  }

  function PadWords(n: nat, m: nat): (v: seq<Bits>)
    ensures |v| == n && forall i :: 0 <= i < n ==> |v[i]| == m
  {
    seq(n, i => Zero(m))
  }

  /** The block that starts at element off, padded with zeros at the end of the array. */
  function BlockOf(src: seq<Bits>, off: nat, E: EltBytes): (b: seq<Bits>)
    requires off <= |src| && ElementWords(src, E)
    ensures IsBlock(b, E)
    ensures off + BLOCK <= |src| ==> b == src[off..off + BLOCK]
    ensures off + BLOCK > |src| ==> b[..|src| - off] == src[off..]
  {
    if off + BLOCK <= |src| then src[off..off + BLOCK]
    else src[off..] + PadWords(BLOCK - (|src| - off), 8 * E)
  }

  /** out[..p] is the stream of the first off elements. */
  ghost predicate EncodedTo(f: Parser, out: seq<Byte>, src: seq<Bits>, off: nat)
    requires Sound(f) && off <= |src|
  {
    Stream(f, out, off) == Some(src[..off])
  }

  /** One block is a stream by itself, cut to n elements. */
  lemma StreamOne(f: Parser, blk: seq<Byte>, n: nat)
    requires Sound(f) && 0 < n <= BLOCK && f(blk).Some? && f(blk).value.0 == |blk|
    ensures Stream(f, blk, n) == Some(f(blk).value.1[..n])
  {
    assert blk[|blk|..] == [];
    assert Stream(f, [], 0) == Some([]);
    assert f(blk).value.1[..n] + [] == f(blk).value.1[..n];
  }

  lemma EncodeStep(f: Parser, out: seq<Byte>, blk: seq<Byte>, src: seq<Bits>, off: nat, n: nat)
    requires Sound(f) && Local(f) && off % BLOCK == 0 && off + n <= |src|
    requires n == if |src| - off < BLOCK then |src| - off else BLOCK
    requires n > 0 && EncodedTo(f, out, src, off)
    requires f(blk).Some? && f(blk).value.0 == |blk| && f(blk).value.1[..n] == src[off..off + n]
    ensures EncodedTo(f, out + blk, src, off + n)
  {
    StreamOne(f, blk, n);
    StreamAppend(f, out, off, blk, n);
    assert src[..off + n] == src[..off] + src[off..off + n];
  }

  /** blocks * perBlock leaves room for one more block after k < blocks of them. */
  lemma Room(k: nat, blocks: nat, perBlock: nat, at: nat)
    requires k < blocks && at <= Times(k, perBlock)
    ensures at + perBlock <= Times(blocks, perBlock) == blocks * perBlock
  {
    TimesStep(k, blocks, perBlock);
    TimesIsProduct(blocks, perBlock);
  }

  /** The block at the front, if it is the one the encoder would write. */
  ghost function CheapBlock(src: seq<Byte>, E: EltBytes): (b: Option<(nat, seq<Bits>)>)
  {
    var b := FirstBlock(src, E);
    if b.Some? && Cheapest(b.value.1, HeaderOf(src)) then b else None
  }

  ghost function CheapParser(E: EltBytes): (f: Parser)
    ensures Sound(f) && Local(f)
    ensures forall s :: f(s) == CheapBlock(s, E)
  {
    var f: Parser := s => CheapBlock(s, E);
    assert Local(f) by {
      forall s: seq<Byte>, rest: seq<Byte> | f(s).Some? ensures f(s + rest) == f(s) {
        CheapExtend(s, rest, E);
      }
    }
    f
  }

  lemma CheapExtend(a: seq<Byte>, rest: seq<Byte>, E: EltBytes)
    requires CheapBlock(a, E).Some?
    ensures CheapBlock(a + rest, E) == CheapBlock(a, E)
  {
    hide FirstBlock, Cheapest, HeaderOf;
    FirstBlockExtend(a, rest, E);
    FirstHeader(a, rest, E);
  }

  lemma FirstHeader(a: seq<Byte>, rest: seq<Byte>, E: EltBytes)
    requires FirstBlock(a, E).Some?
    ensures HeaderOf(a + rest) == HeaderOf(a)
  {
    hide Meaning;
    assert (a + rest)[..|a|] == a;
  }

  /** f parses what the encoder writes. */
  ghost predicate EncoderFor(f: Parser, E: EltBytes) {
    forall s :: CheapBlock(s, E).Some? ==> f(s) == CheapBlock(s, E)
  }

  lemma EncoderAt(f: Parser, E: EltBytes, s: seq<Byte>)
    requires EncoderFor(f, E) && CheapBlock(s, E).Some?
    ensures f(s) == CheapBlock(s, E)
  {
  }

  method EncodeFirst(dst: array<Byte>, at: nat, block: seq<Bits>, E: EltBytes, ghost f: Parser) returns (size: nat)
    requires IsBlock(block, E) && at + 2 + BLOCK * E <= dst.Length && EncoderFor(f, E)
    modifies dst
    ensures size <= 2 + BLOCK * E && at + size <= dst.Length
    ensures f(dst[at..at + size]) == Some((size, block))
    ensures dst[..at + size] == old(dst[..at]) + dst[at..at + size]
  {
    hide EncoderFor, CheapBlock, FirstBlock, Cheapest, IsBlock, HeaderOf;
    size := EncodeBlock(dst, at, block, E);
    CheapAs(dst[at..at + size], size, block, E);
    EncoderAt(f, E, dst[at..at + size]);
  }

  lemma CheapAs(s: seq<Byte>, size: nat, block: seq<Bits>, E: EltBytes)
    requires |s| >= 2 && FirstBlock(s, E) == Some((size, block)) && Cheapest(block, HeaderOf(s))
    ensures CheapBlock(s, E) == Some((size, block))
  {
    hide FirstBlock, Cheapest, HeaderOf;
  }

  method EncodePart(dst: array<Byte>, at: nat, src: seq<Bits>, off: nat, E: EltBytes, ghost f: Parser)
    returns (size: nat)
    requires ElementWords(src, E) && off < |src| && off % BLOCK == 0 && at + 2 + BLOCK * E <= dst.Length
    requires Sound(f) && Local(f) && EncoderFor(f, E) && EncodedTo(f, dst[..at], src, off)
    modifies dst
    ensures size <= 2 + BLOCK * E && at + size <= dst.Length
    ensures EncodedTo(f, dst[..at + size], src, if off + BLOCK < |src| then off + BLOCK else |src|)
  {
    hide EncoderFor, EncodedTo, Local, Sound, Stream, IsBlock, BlockOf, ElementWords;
    ghost var before := dst[..at];
    var block := BlockOf(src, off, E);
    size := EncodeFirst(dst, at, block, E, f);
    BlockAdded(f, before, dst[at..at + size], dst[..at + size], src, off, E);
  }

  lemma BlockAdded(f: Parser, before: seq<Byte>, blk: seq<Byte>, after: seq<Byte>, src: seq<Bits>, off: nat,
                   E: EltBytes)
    requires ElementWords(src, E) && off < |src| && off % BLOCK == 0 && Sound(f) && Local(f)
    requires EncodedTo(f, before, src, off) && f(blk) == Some((|blk|, BlockOf(src, off, E)))
    requires after == before + blk
    ensures EncodedTo(f, after, src, if off + BLOCK < |src| then off + BLOCK else |src|)
  {
    var n := if |src| - off < BLOCK then |src| - off else BLOCK;
    assert BlockOf(src, off, E)[..n] == src[off..off + n];
    EncodeStep(f, before, blk, src, off, n);
  }

  method EncodeAll(dst: array<Byte>, src: seq<Bits>, E: EltBytes, ghost f: Parser) returns (at: nat)
    requires ElementWords(src, E) && |src| > 0 && 0 < Bound(|src|, E) <= dst.Length
    requires Sound(f) && Local(f) && EncoderFor(f, E)
    modifies dst
    ensures at <= Bound(|src|, E)
    ensures EncodedTo(f, dst[..at], src, |src|)
  {
    hide EncodedTo, EncoderFor, Local, Sound, ElementWords;
    ghost var blocks := |src| / BLOCK + (if |src| % BLOCK != 0 then 1 else 0);
    var perBlock := 2 + BLOCK * E;
    var off: nat := 0;
    at := 0;
    ghost var k: nat := 0;
    EncodeStart(f, dst[..0], src);
    while off < |src|
      invariant off == (if BLOCK * k < |src| then BLOCK * k else |src|) && k <= blocks
      invariant at <= Times(k, perBlock) && at <= Bound(|src|, E)
      invariant EncodedTo(f, dst[..at], src, off)
    {
      Room(k, blocks, perBlock, at);
      TimesStep(k, k + 1, perBlock);
      var size := EncodePart(dst, at, src, off, E, f);
      at := at + size;
      off := if off + BLOCK < |src| then off + BLOCK else |src|;
      k := k + 1;
    }
  }

  lemma EncodeStart(f: Parser, out: seq<Byte>, src: seq<Bits>)
    requires Sound(f) && |out| == 0
    ensures EncodedTo(f, out, src, 0)
  {
  }

  /** pfor_encode: 0 exactly when the bound exists and fits, and then the output is a
      stream of the format that denotes src, each of its blocks the cheapest for its values. */
  method Encode(dst: array<Byte>, src: seq<Bits>, eltWidth: nat) returns (rc: int, outSize: nat)
    requires WidthOk(eltWidth) ==> ElementWords(src, eltWidth)
    modifies dst
    ensures rc == 0 || rc == 1
    ensures rc == 0 <==> 0 < Bound(|src|, eltWidth) <= dst.Length
    ensures rc == 0 ==> outSize <= Bound(|src|, eltWidth)
    ensures rc == 0 ==> StreamMeaning(dst[..outSize], |src|, eltWidth) == Some(src)
    ensures rc == 0 ==> Stream(CheapParser(eltWidth), dst[..outSize], |src|) == Some(src)
    ensures rc != 0 ==> dst[..] == old(dst[..])
  {
    var bound := Bound(|src|, eltWidth);
    if bound == 0 || dst.Length < bound {
      return 1, 0;
    }
    rc := 0;
    outSize := EncodeAll(dst, src, eltWidth, CheapParser(eltWidth));
    assert src[..|src|] == src;
    CheapIsBlock(eltWidth, dst[..outSize], |src|);
  }

  /** A stream of cheapest blocks is a stream. */
  lemma CheapIsBlock(E: EltBytes, src: seq<Byte>, nb: nat)
    requires Stream(CheapParser(E), src, nb).Some?
    ensures StreamMeaning(src, nb, E) == Stream(CheapParser(E), src, nb)
  {
    assert Refines(CheapParser(E), BlockParser(E));
    StreamRefines(CheapParser(E), BlockParser(E), src, nb);
  }

  /** Decoding what was encoded gives back the array, on every platform, consumes the
      whole output and never fails. */
  method RoundTrip(platform: Platform, buffer: array<Byte>, back: array<Bits>, src: seq<Bits>, eltWidth: nat)
    returns (rc: int)
    requires WidthOk(eltWidth) && ElementWords(src, eltWidth) && back.Length == |src|
    requires 0 < Bound(|src|, eltWidth) <= buffer.Length
    modifies buffer, back
    ensures rc == 0 && back[..] == src
  {
    var outSize;
    rc, outSize := Encode(buffer, src, eltWidth);
    rc := Decode(platform, back, eltWidth, buffer[..outSize]);
  }
}
