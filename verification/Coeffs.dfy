/** Coefficient blobs (core/src/coeffs/coeffs.c): vectors of 32-bit integers
    behind a magic, a version and a count, each with its own length. */
module Coeffs {
  import opened Common

  const HDR: nat := 6
  const VER: Byte := 1
  const MAX_BYTES: nat := 10000
  const MAX_VECS: nat := 255
  const MAGIC: seq<Byte> := [0x47, 0x5A, 0x43, 0x31]

  type Byte = b: nat | b < 256

  type Int32 = v: int | -0x8000_0000 <= v < 0x8000_0000

  type Vector = seq<Int32>

  // ---------- little-endian fields ----------

  function Store32(v: nat): (b: seq<Byte>)
    ensures |b| == 4
  {
    [v % 256, v / 256 % 256, v / 65536 % 256, v / 16777216 % 256]
  }

  function Load32(b: seq<Byte>): (v: nat)
    requires |b| == 4
    ensures v < 0x1_0000_0000
  {
    b[0] as int + 256 * (b[1] as int) + 65536 * (b[2] as int) + 16777216 * (b[3] as int)
  }

  // The cast of a signed value to 32 bits without a sign.
  function Unsigned(v: Int32): (u: nat)
    ensures u < 0x1_0000_0000
  {
    if v < 0 then v as int + 0x1_0000_0000 else v
  }

  function StoreInt(v: Int32): (b: seq<Byte>)
    ensures |b| == 4
  {
    Store32(Unsigned(v))
  }

  function LoadInt(b: seq<Byte>): Int32
    requires |b| == 4
  {
    var u := Load32(b);
    if u < 0x8000_0000 then u else u as int - 0x1_0000_0000
  }

  lemma Bytes4(a: int, b: int, c: int, d: int, v: int)
    requires 0 <= a < 256 && 0 <= b < 256 && 0 <= c < 256 && 0 <= d < 256
    requires v == a + 256 * b + 65536 * c + 16777216 * d
    ensures v % 256 == a && v / 256 % 256 == b && v / 65536 % 256 == c && v / 16777216 % 256 == d
  {
    assert v / 256 == b + 256 * c + 65536 * d;
    assert v / 65536 == c + 256 * d;
    assert v / 16777216 == d;
  }

  lemma StoreLoad32(v: nat)
    requires v < 0x1_0000_0000
    ensures Load32(Store32(v)) == v
  {
    var h := v / 256;
    var g := h / 256;
    assert v == v % 256 + 256 * h && h == h % 256 + 256 * g && g == g % 256 + 256 * (g / 256);
    assert v / 65536 == g && v / 16777216 == g / 256;
  }

  lemma LoadStore32(b: seq<Byte>)
    requires |b| == 4
    ensures Store32(Load32(b)) == b
  {
    Bytes4(b[0], b[1], b[2], b[3], Load32(b));
  }

  lemma StoreLoadInt(v: Int32)
    ensures LoadInt(StoreInt(v)) == v
  {
    hide Load32, Store32;
    StoreLoad32(Unsigned(v));
  }

  lemma LoadStoreInt(b: seq<Byte>)
    requires |b| == 4
    ensures StoreInt(LoadInt(b)) == b
  {
    hide Load32, Store32;
    LoadStore32(b);
  }

  // ---------- the format ----------

  function Stored(v: Vector): (b: seq<Byte>)
    ensures |b| == 4 * |v|
  {
    if |v| == 0 then [] else Stored(v[..|v| - 1]) + StoreInt(v[|v| - 1])
  }

  function Loaded(b: seq<Byte>): (v: Vector)
    requires |b| % 4 == 0
    ensures |b| == 4 * |v|
  {
    if |b| == 0 then [] else Loaded(b[..|b| - 4]) + [LoadInt(b[|b| - 4..])]
  }

  lemma {:induction false} StoredLoaded(v: Vector)
    ensures Loaded(Stored(v)) == v
    decreases |v|
  {
    hide StoreInt, LoadInt;
    if 0 < |v| {
      var last := |v| - 1;
      StoredLoaded(v[..last]);
      StoreLoadInt(v[last]);
      assert Stored(v)[..4 * last] == Stored(v[..last]);
      assert Stored(v)[4 * last..] == StoreInt(v[last]);
    }
  }

  lemma StoredPush(v: Vector, x: Int32)
    ensures Stored(v + [x]) == Stored(v) + StoreInt(x)
  {
    hide StoreInt;
    assert (v + [x])[..|v|] == v;
  }

  lemma {:induction false} LoadedStored(b: seq<Byte>)
    requires |b| % 4 == 0
    ensures Stored(Loaded(b)) == b
    decreases |b|
  {
    hide StoreInt, LoadInt;
    if 0 < |b| {
      var front, back := b[..|b| - 4], b[|b| - 4..];
      LoadedStored(front);
      LoadStoreInt(back);
      StoredPush(Loaded(front), LoadInt(back));
      assert Loaded(b) == Loaded(front) + [LoadInt(back)];
      assert b == front + back;
    }
  }

  function Body(vecs: seq<Vector>): (b: seq<Byte>) {
    if |vecs| == 0 then [] else Body(vecs[..|vecs| - 1]) + Store32(|vecs[|vecs| - 1]|) + Stored(vecs[|vecs| - 1])
  }

  /** The blob of a list of vectors. */
  function Blob(vecs: seq<Vector>): seq<Byte>
    requires |vecs| <= MAX_VECS
  {
    MAGIC + [VER, |vecs|] + Body(vecs)
  }

  function Counts(vecs: seq<Vector>): (c: seq<nat>)
    ensures |c| == |vecs|
  {
    seq(|vecs|, i requires 0 <= i < |vecs| => |vecs[i]|)
  }

  function BodySize(counts: seq<nat>): nat {
    if |counts| == 0 then 0 else BodySize(counts[..|counts| - 1]) + 4 + 4 * counts[|counts| - 1]
  }

  lemma {:induction false} BodyIsSize(vecs: seq<Vector>)
    ensures |Body(vecs)| == BodySize(Counts(vecs))
    decreases |vecs|
  {
    hide Stored, Store32;
    if 0 < |vecs| {
      BodyIsSize(vecs[..|vecs| - 1]);
      assert Counts(vecs)[..|vecs| - 1] == Counts(vecs[..|vecs| - 1]);
    }
  }

  // The shapes that can be packed.
  predicate ShapeOk(counts: seq<nat>) {
    && 0 < |counts| <= MAX_VECS
    && (forall i :: 0 <= i < |counts| ==> 0 < counts[i])
    && HDR + BodySize(counts) <= MAX_BYTES
  }

  lemma {:induction false} BodySizeGrows(counts: seq<nat>, n: nat)
    requires n <= |counts|
    ensures BodySize(counts[..n]) <= BodySize(counts)
    decreases |counts|
  {
    if n < |counts| {
      BodySizeGrows(counts[..|counts| - 1], n);
      assert counts[..|counts| - 1][..n] == counts[..n];
    } else {
      assert counts[..n] == counts;
    }
  }

  /** geozl_coeffs_size: 0 exactly for the shapes that cannot be packed. */
  method Size(counts: seq<nat>) returns (size: nat)
    requires forall i :: 0 <= i < |counts| ==> counts[i] < 0x1_0000_0000
    ensures size == if ShapeOk(counts) then HDR + BodySize(counts) else 0
    ensures size <= MAX_BYTES
  {
    if |counts| == 0 || |counts| > MAX_VECS {
      return 0;
    }
    size := TotalBytes(counts);
  }

  method TotalBytes(counts: seq<nat>) returns (n: nat)
    requires forall i :: 0 <= i < |counts| ==> counts[i] < 0x1_0000_0000
    requires 0 < |counts| <= MAX_VECS
    ensures n == if ShapeOk(counts) then HDR + BodySize(counts) else 0
  {
    n := HDR;
    for i := 0 to |counts|
      invariant n == HDR + BodySize(counts[..i]) <= MAX_BYTES
      invariant forall k :: 0 <= k < i ==> 0 < counts[k]
    {
      if counts[i] == 0 {
        return 0;
      }
      assert counts[..i + 1][..i] == counts[..i];
      n := n + 4 + counts[i] * 4;
      if n > MAX_BYTES {
        BodySizeGrows(counts, i + 1);
        return 0;
      }
    }
    assert counts[..|counts|] == counts;
  }

  // ---------- parsing, as a function ----------

  // Exactly n vectors, nothing after them.
  function Parsed(b: seq<Byte>, n: nat): Option<seq<Vector>> {
    if n == 0 then (if |b| == 0 then Some([]) else None)
    else if |b| < 4 then None
    else
      var c := Load32(b[..4]);
      if c == 0 || 4 + 4 * c > |b| then None
      else
        var rest := Parsed(b[4 + 4 * c..], n - 1);
        if rest.None? then None else Some([Loaded(b[4..4 + 4 * c])] + rest.value)
  }

  predicate HasMagic(src: seq<Byte>) {
    |src| >= 4 && src[..4] == MAGIC
  }

  /** The vectors of an accepted blob. */
  function ParsedBlob(src: seq<Byte>): Option<seq<Vector>> {
    if !HasMagic(src) || |src| < HDR || src[4] != VER || |src| > MAX_BYTES || src[5] == 0 then None
    else Parsed(src[HDR..], src[5])
  }

  function BodyFrom(vecs: seq<Vector>): seq<Byte> {
    if |vecs| == 0 then [] else Store32(|vecs[0]|) + Stored(vecs[0]) + BodyFrom(vecs[1..])
  }

  lemma {:induction false} BodyBothWays(vecs: seq<Vector>)
    ensures Body(vecs) == BodyFrom(vecs)
    decreases |vecs|
  {
    hide Stored, Store32;
    if |vecs| > 1 {
      var last := |vecs| - 1;
      BodyBothWays(vecs[..last]);
      BodyBothWays(vecs[1..last]);
      BodyBothWays(vecs[1..]);
      assert vecs[..last][1..] == vecs[1..last];
      assert vecs[1..][..last - 1] == vecs[1..last];
      assert vecs[1..][last - 1] == vecs[last];
    } else if |vecs| == 1 {
      assert vecs[..0] == [] && vecs[1..] == [];
    }
  }

  lemma {:induction false} BodyParses(vecs: seq<Vector>)
    requires forall i :: 0 <= i < |vecs| ==> 0 < |vecs[i]| < 0x1_0000_0000
    ensures Parsed(BodyFrom(vecs), |vecs|) == Some(vecs)
    decreases |vecs|
  {
    hide Stored, Loaded, Store32, Load32;
    if 0 < |vecs| {
      var b, c := BodyFrom(vecs), |vecs[0]|;
      BodyParses(vecs[1..]);
      StoreLoad32(c);
      StoredLoaded(vecs[0]);
      assert b[..4] == Store32(c);
      assert b[4..4 + 4 * c] == Stored(vecs[0]);
      assert b[4 + 4 * c..] == BodyFrom(vecs[1..]);
      assert vecs == [vecs[0]] + vecs[1..];
    }
  }

  lemma {:induction false} ParsedIsBody(b: seq<Byte>, n: nat)
    requires Parsed(b, n).Some?
    ensures |Parsed(b, n).value| == n && BodyFrom(Parsed(b, n).value) == b
    ensures forall i :: 0 <= i < n ==> 0 < |Parsed(b, n).value[i]|
    decreases n
  {
    hide Stored, Loaded, Store32, Load32, BodyFrom;
    if 0 < n {
      var c := Load32(b[..4]);
      var rest := b[4 + 4 * c..];
      ParsedIsBody(rest, n - 1);
      LoadStore32(b[..4]);
      LoadedStored(b[4..4 + 4 * c]);
      BodyFromMore(Loaded(b[4..4 + 4 * c]), Parsed(rest, n - 1).value);
      assert b == b[..4] + b[4..4 + 4 * c] + rest;
    } else {
      NothingStored();
    }
  }

  lemma NothingStored()
    ensures BodyFrom([]) == []
  {
  }

  lemma BodyFromMore(v: Vector, rest: seq<Vector>)
    ensures BodyFrom([v] + rest) == Store32(|v|) + Stored(v) + BodyFrom(rest)
  {
    hide Stored, Store32;
    assert ([v] + rest)[1..] == rest;
  }

  lemma {:induction false} CountBound(counts: seq<nat>, i: nat)
    requires i < |counts|
    ensures 4 * counts[i] <= BodySize(counts)
    decreases |counts|
  {
    if i < |counts| - 1 {
      CountBound(counts[..|counts| - 1], i);
    }
  }

  /** Packing then parsing gives the vectors back, and the blob has the size the
      shape announces. */
  lemma PackParse(vecs: seq<Vector>)
    requires ShapeOk(Counts(vecs))
    ensures ParsedBlob(Blob(vecs)) == Some(vecs)
    ensures |Blob(vecs)| == HDR + BodySize(Counts(vecs)) <= MAX_BYTES
  {
    hide Parsed, Body, BodyFrom;
    BodyIsSize(vecs);
    BodyBothWays(vecs);
    forall i | 0 <= i < |vecs|
      ensures 0 < |vecs[i]| < 0x1_0000_0000
    {
      assert Counts(vecs)[i] == |vecs[i]|;
      CountBound(Counts(vecs), i);
    }
    BodyParses(vecs);
    var b := Blob(vecs);
    assert b[HDR..] == Body(vecs);
    assert b[..4] == MAGIC;
  }

  /** A blob is accepted only if packing its vectors gives the same bytes. */
  lemma ParsePack(src: seq<Byte>)
    requires ParsedBlob(src).Some?
    ensures ShapeOk(Counts(ParsedBlob(src).value))
    ensures Blob(ParsedBlob(src).value) == src
  {
    hide Parsed, Body, BodyFrom;
    var vecs := ParsedBlob(src).value;
    ParsedIsBody(src[HDR..], src[5]);
    BodyBothWays(vecs);
    BodyIsSize(vecs);
    assert src == src[..4] + [src[4], src[5]] + src[HDR..];
  }

  // ---------- pack ----------

  method StoreAt(p: array<Byte>, at: nat, v: nat)
    requires at + 4 <= p.Length
    modifies p
    ensures p[..] == old(p[..at]) + Store32(v) + old(p[at + 4..])
  {
    p[at] := v % 256;
    p[at + 1] := v / 256 % 256;
    p[at + 2] := v / 65536 % 256;
    p[at + 3] := v / 16777216 % 256;
  }

  // The result of writing b at `at`.
  function Over(p: seq<Byte>, at: nat, b: seq<Byte>): seq<Byte>
    requires at + |b| <= |p|
  {
    p[..at] + b + p[at + |b|..]
  }

  lemma OverTwice(p: seq<Byte>, at: nat, a: seq<Byte>, b: seq<Byte>)
    requires at + |a| + |b| <= |p|
    ensures Over(Over(p, at, a), at + |a|, b) == Over(p, at, a + b)
  {
  }

  method StoreVector(p: array<Byte>, at: nat, v: Vector)
    requires at + 4 * |v| <= p.Length
    modifies p
    ensures p[..] == Over(old(p[..]), at, Stored(v))
  {
    hide Store32, Over;
    ghost var before := p[..];
    OverNothing(before, at);
    for k := 0 to |v|
      invariant p[..] == Over(before, at, Stored(v[..k]))
    {
      assert v[..k + 1][..k] == v[..k];
      ghost var now := p[..];
      StoreAt(p, at + 4 * k, Unsigned(v[k]));
      assert p[..] == Over(now, at + 4 * k, StoreInt(v[k])) by { OverIs(now, at + 4 * k, StoreInt(v[k])); }
      OverTwice(before, at, Stored(v[..k]), StoreInt(v[k]));
    }
    assert v[..|v|] == v;
  }

  lemma OverNothing(p: seq<Byte>, at: nat)
    requires at <= |p|
    ensures Over(p, at, []) == p
  {
  }

  lemma OverIs(p: seq<Byte>, at: nat, b: seq<Byte>)
    requires at + |b| <= |p|
    ensures Over(p, at, b) == p[..at] + b + p[at + |b|..]
  {
  }

  /** geozl_coeffs_pack: the blob at the front of dst and its size, or 0 and dst
      as it was, when the shape cannot be packed or does not fit. */
  method Pack(dst: array<Byte>, vecs: seq<Vector>) returns (size: nat)
    requires forall i :: 0 <= i < |vecs| ==> |vecs[i]| < 0x1_0000_0000
    modifies dst
    ensures size == if ShapeOk(Counts(vecs)) && HDR + BodySize(Counts(vecs)) <= dst.Length
                    then HDR + BodySize(Counts(vecs)) else 0
    ensures size != 0 ==> dst[..] == Blob(vecs) + old(dst[size..])
    ensures size == 0 ==> dst[..] == old(dst[..])
  {
    if |vecs| == 0 || |vecs| > MAX_VECS {
      return 0;
    }
    for i := 0 to |vecs|
      invariant forall k :: 0 <= k < i ==> 0 < Counts(vecs)[k]
    {
      if |vecs[i]| == 0 {
        assert Counts(vecs)[i] == 0;
        return 0;
      }
    }
    var need := TotalBytes(Counts(vecs));
    if need == 0 || dst.Length < need {
      return 0;
    }
    WriteBlob(dst, vecs);
    size := need;
  }

  method WriteBlob(dst: array<Byte>, vecs: seq<Vector>)
    requires |vecs| <= MAX_VECS && HDR + BodySize(Counts(vecs)) <= dst.Length
    modifies dst
    ensures dst[..] == Blob(vecs) + old(dst[HDR + BodySize(Counts(vecs))..])
  {
    hide Over, Stored, Store32, Body, BodySize;
    ghost var before := dst[..];
    BodyIsSize(vecs);
    dst[0], dst[1], dst[2], dst[3] := MAGIC[0], MAGIC[1], MAGIC[2], MAGIC[3];
    dst[4], dst[5] := VER, |vecs|;
    ghost var header := MAGIC + [VER, |vecs|];
    assert dst[..] == header + before[HDR..];
    WriteBody(dst, vecs);
    BlobOver(before, header, Body(vecs));
  }

  lemma BlobOver(before: seq<Byte>, header: seq<Byte>, body: seq<Byte>)
    requires |header| == HDR && HDR + |body| <= |before|
    ensures Over(header + before[HDR..], HDR, body) == header + body + before[HDR + |body|..]
  {
  }

  method WriteBody(dst: array<Byte>, vecs: seq<Vector>)
    requires HDR + |Body(vecs)| <= dst.Length
    modifies dst
    ensures dst[..] == Over(old(dst[..]), HDR, Body(vecs))
  {
    hide Over, Stored, Store32;
    ghost var before := dst[..];
    OverNothing(before, HDR);
    var p: nat := HDR;
    for i := 0 to |vecs|
      invariant HDR + |Body(vecs[..i])| == p
      invariant HDR + |Body(vecs)| <= dst.Length && p <= HDR + |Body(vecs)|
      invariant dst[..] == Over(before, HDR, Body(vecs[..i]))
    {
      assert vecs[..i + 1][..i] == vecs[..i];
      BodyPrefix(vecs, i + 1);
      WriteVector(dst, p, vecs[i], before, Body(vecs[..i]));
      assert Body(vecs[..i]) + (Store32(|vecs[i]|) + Stored(vecs[i])) == Body(vecs[..i + 1]);
      p := p + 4 + 4 * |vecs[i]|;
    }
    assert vecs[..|vecs|] == vecs;
  }

  method WriteVector(dst: array<Byte>, p: nat, v: Vector, ghost before: seq<Byte>, ghost done: seq<Byte>)
    requires p == HDR + |done| && p + 4 + 4 * |v| <= dst.Length == |before| && dst[..] == Over(before, HDR, done)
    modifies dst
    ensures dst[..] == Over(before, HDR, done + (Store32(|v|) + Stored(v)))
  {
    hide Over, Stored, Store32;
    StoreAt(dst, p, |v|);
    OverIs(old(dst[..]), p, Store32(|v|));
    assert dst[..] == Over(old(dst[..]), p, Store32(|v|));
    OverTwice(before, HDR, done, Store32(|v|));
    StoreVector(dst, p + 4, v);
    OverTwice(before, HDR, done + Store32(|v|), Stored(v));
    assert done + Store32(|v|) + Stored(v) == done + (Store32(|v|) + Stored(v));
  }

  lemma {:induction false} BodyPrefix(vecs: seq<Vector>, n: nat)
    requires n <= |vecs|
    ensures |Body(vecs[..n])| <= |Body(vecs)|
    decreases |vecs|
  {
    hide Stored, Store32;
    if n < |vecs| {
      BodyPrefix(vecs[..|vecs| - 1], n);
      assert vecs[..|vecs| - 1][..n] == vecs[..n];
    } else {
      assert vecs[..n] == vecs;
    }
  }

  // ---------- parse ----------

  function Flat(vecs: seq<Vector>): Vector {
    if |vecs| == 0 then [] else Flat(vecs[..|vecs| - 1]) + vecs[|vecs| - 1]
  }

  lemma FlatPush(vecs: seq<Vector>, v: Vector)
    ensures Flat(vecs + [v]) == Flat(vecs) + v
    ensures Counts(vecs + [v]) == Counts(vecs) + [|v|]
  {
    assert (vecs + [v])[..|vecs|] == vecs;
  }

  function Ahead(found: seq<Vector>, rest: Option<seq<Vector>>): Option<seq<Vector>> {
    if rest.None? then None else Some(found + rest.value)
  }

  // Of n vectors in b, `found` have been read and `left` remain from `off` on.
  ghost predicate Reading(b: seq<Byte>, n: nat, found: seq<Vector>, off: nat, left: nat) {
    off <= |b| && |found| + left == n && Parsed(b, n) == Ahead(found, Parsed(b[off..], left))
  }

  lemma ReadingStarts(b: seq<Byte>, n: nat)
    ensures Reading(b, n, [], 0, n)
  {
    assert b[0..] == b;
    assert Parsed(b, n).Some? ==> [] + Parsed(b, n).value == Parsed(b, n).value;
  }

  // The vector at `off`, when its length and values are all there.
  predicate Present(b: seq<Byte>, off: nat) {
    && off + 4 <= |b|
    && Load32(b[off..off + 4]) != 0
    && off + 4 + 4 * Load32(b[off..off + 4]) <= |b|
  }

  function VectorAt(b: seq<Byte>, off: nat): Vector
    requires Present(b, off)
  {
    Loaded(b[off + 4..off + 4 + 4 * Load32(b[off..off + 4])])
  }

  lemma ReadingStep(b: seq<Byte>, n: nat, found: seq<Vector>, off: nat, left: nat)
    requires Reading(b, n, found, off, left) && 0 < left
    ensures !Present(b, off) ==> Parsed(b, n).None?
    ensures Present(b, off) ==>
      Reading(b, n, found + [VectorAt(b, off)], off + 4 + 4 * Load32(b[off..off + 4]), left - 1)
  {
    hide Load32, Loaded;
    var t := b[off..];
    if off + 4 <= |b| {
      assert t[..4] == b[off..off + 4];
      var c := Load32(b[off..off + 4]);
      if Present(b, off) {
        assert t[4..4 + 4 * c] == b[off + 4..off + 4 + 4 * c];
        assert t[4 + 4 * c..] == b[off + 4 + 4 * c..];
        var rest := Parsed(b[off + 4 + 4 * c..], left - 1);
        if rest.Some? {
          assert found + ([VectorAt(b, off)] + rest.value) == found + [VectorAt(b, off)] + rest.value;
        }
      }
    }
  }

  lemma ReadingEnds(b: seq<Byte>, n: nat, found: seq<Vector>, off: nat)
    requires Reading(b, n, found, off, 0)
    ensures Parsed(b, n) == if off == |b| then Some(found) else None
  {
    if off == |b| {
      assert found + [] == found;
    }
  }

  // The checks: whether the vectors of src are all there and fill it, and how
  // many values they hold.
  method Check(src: seq<Byte>, nbVecs: nat) returns (ok: bool, values: nat)
    requires HDR <= |src|
    ensures ok <==> Parsed(src[HDR..], nbVecs).Some?
    ensures ok ==> values == |Flat(Parsed(src[HDR..], nbVecs).value)|
  {
    hide Reading, Parsed, Load32, Present;
    ghost var b, found := src[HDR..], [];
    ReadingStarts(b, nbVecs);
    var off: nat, need: nat, i: nat := HDR, HDR, 0;
    values := 0;
    while i < nbVecs
      invariant i <= nbVecs && HDR <= off == need <= |src|
      invariant Reading(b, nbVecs, found, off - HDR, nbVecs - i)
      invariant values == |Flat(found)|
    {
      ReadingStep(b, nbVecs, found, off - HDR, nbVecs - i);
      PresentIn(src, off);
      if off + 4 > |src| {
        return false, 0;
      }
      var n := Load32(src[off..off + 4]);
      need := need + 4 + n * 4;
      if n == 0 || need > |src| {
        return false, 0;
      }
      FlatPush(found, VectorAt(b, off - HDR));
      found := found + [VectorAt(b, off - HDR)];
      values := values + n;
      off := off + 4 + n * 4;
      i := i + 1;
    }
    ReadingEnds(b, nbVecs, found, off - HDR);
    ok := need == |src|;
  }

  // Where a vector stands in the body and in the blob.
  lemma PresentIn(src: seq<Byte>, off: nat)
    requires HDR <= off <= |src|
    ensures Present(src[HDR..], off - HDR) <==>
      (off + 4 <= |src| && Load32(src[off..off + 4]) != 0 && off + 4 + 4 * Load32(src[off..off + 4]) <= |src|)
    ensures Present(src[HDR..], off - HDR) ==>
      && Load32(src[HDR..][off - HDR..off - HDR + 4]) == Load32(src[off..off + 4])
      && VectorAt(src[HDR..], off - HDR) == Loaded(src[off + 4..off + 4 + 4 * Load32(src[off..off + 4])])
      && |VectorAt(src[HDR..], off - HDR)| == Load32(src[off..off + 4])
  {
    hide Load32, Loaded;
    if off + 4 <= |src| {
      var c := Load32(src[off..off + 4]);
      assert src[HDR..][off - HDR..off - HDR + 4] == src[off..off + 4];
      if off + 4 + 4 * c <= |src| {
        assert src[HDR..][off - HDR + 4..off - HDR + 4 + 4 * c] == src[off + 4..off + 4 + 4 * c];
      }
    }
  }

  lemma {:induction false} LoadedAt(b: seq<Byte>, k: nat)
    requires |b| % 4 == 0 && 4 * k + 4 <= |b|
    ensures Loaded(b)[k] == LoadInt(b[4 * k..4 * k + 4])
    decreases |b|
  {
    hide LoadInt;
    if 4 * k + 4 < |b| {
      LoadedAt(b[..|b| - 4], k);
      assert b[..|b| - 4][4 * k..4 * k + 4] == b[4 * k..4 * k + 4];
    } else {
      assert b[|b| - 4..] == b[4 * k..4 * k + 4];
    }
  }

  function ObjectsOf(dst: array?<Int32>, counts: array?<nat>): set<object> {
    var values: set<object> := if dst == null then {} else {dst};
    var sizes: set<object> := if counts == null then {} else {counts};
    values + sizes
  }

  predicate TooSmall(dst: array?<Int32>, counts: array?<nat>, nbVecs: nat, values: nat) {
    (counts != null && counts.Length < nbVecs) || (dst != null && dst.Length < values)
  }

  /** geozl_coeffs_parse: 1 without the magic, -1 when it is there but the blob is
      not one that packs, -2 with both buffers as they were when one is too small,
      else 0 with the values back to back and the counts. The sizes are told
      whenever the blob is good. */
  method Parse(src: seq<Byte>, dst: array?<Int32>, counts: array?<nat>)
    returns (code: int, outVecs: nat, outValues: nat)
    modifies ObjectsOf(dst, counts)
    ensures code == 1 <==> !HasMagic(src)
    ensures code == -1 <==> HasMagic(src) && ParsedBlob(src).None?
    ensures ParsedBlob(src).None? ==> outVecs == 0 && outValues == 0
    ensures ParsedBlob(src).Some? ==> outVecs == |ParsedBlob(src).value| && outValues == |Flat(ParsedBlob(src).value)|
    ensures ParsedBlob(src).Some? ==> code == if TooSmall(dst, counts, outVecs, outValues) then -2 else 0
    ensures code != 0 && dst != null ==> dst[..] == old(dst[..])
    ensures code != 0 && counts != null ==> counts[..] == old(counts[..])
    ensures code == 0 && dst != null ==> dst[..] == Flat(ParsedBlob(src).value) + old(dst[outValues..])
    ensures code == 0 && counts != null ==> counts[..] == Counts(ParsedBlob(src).value) + old(counts[outVecs..])
  {
    hide Parsed, Flat;
    outVecs, outValues := 0, 0;
    if |src| < 4 || src[..4] != MAGIC {
      return 1, 0, 0;
    }
    if |src| < HDR || src[4] != VER || |src| > MAX_BYTES || src[5] == 0 {
      return -1, 0, 0;
    }
    var nbVecs: nat := src[5];
    var ok, values := Check(src, nbVecs);
    if !ok {
      return -1, 0, 0;
    }
    outVecs, outValues := nbVecs, values;
    ghost var vecs := ParsedBlob(src).value;
    assert |vecs| == nbVecs by { ParsedIsBody(src[HDR..], nbVecs); }
    if dst == null && counts == null {
      return 0, outVecs, outValues;
    }
    if TooSmall(dst, counts, nbVecs, values) {
      return -2, outVecs, outValues;
    }
    Fill(src, dst, counts, nbVecs, vecs);
    code := 0;
  }

  // One vector of the second walk.
  method FillOne(src: seq<Byte>, off: nat, n: nat, dst: array?<Int32>, at: nat, counts: array?<nat>, i: nat,
                 ghost found: seq<Vector>, ghost v: Vector)
    requires off + 4 + 4 * n <= |src| && v == Loaded(src[off + 4..off + 4 + 4 * n])
    requires i == |found| && at == |Flat(found)|
    requires dst != null ==> at + n <= dst.Length && dst[..at] == Flat(found)
    requires counts != null ==> i < counts.Length && counts[..i] == Counts(found)
    modifies ObjectsOf(dst, counts)
    ensures dst != null ==> dst[..] == Flat(found + [v]) + old(dst[at + n..])
    ensures counts != null ==> counts[..] == Counts(found + [v]) + old(counts[i + 1..])
  {
    hide Flat, Loaded;
    FlatPush(found, v);
    if counts != null {
      counts[i] := n;
    }
    if dst != null {
      FillVector(src, off + 4, n, dst, at);
    }
  }

  // The second walk, over a blob known to be good.
  method Fill(src: seq<Byte>, dst: array?<Int32>, counts: array?<nat>, nbVecs: nat, ghost vecs: seq<Vector>)
    requires HDR <= |src| && Parsed(src[HDR..], nbVecs) == Some(vecs) && |vecs| == nbVecs
    requires !TooSmall(dst, counts, nbVecs, |Flat(vecs)|)
    modifies ObjectsOf(dst, counts)
    ensures dst != null ==> dst[..] == Flat(vecs) + old(dst[|Flat(vecs)|..])
    ensures counts != null ==> counts[..] == Counts(vecs) + old(counts[nbVecs..])
  {
    hide Reading, Parsed, Load32, Present, Flat, Loaded, Counts, VectorAt;
    ghost var b, found := src[HDR..], [];
    ReadingStarts(b, nbVecs);
    FlatNone();
    var off: nat, at: nat, i: nat := HDR, 0, 0;
    while i < nbVecs
      invariant i == |found| <= nbVecs && HDR <= off <= |src| && found == vecs[..i]
      invariant Reading(b, nbVecs, found, off - HDR, nbVecs - i)
      invariant at == |Flat(found)| <= |Flat(vecs)|
      invariant dst != null ==> dst[..] == Flat(found) + old(dst[at..])
      invariant counts != null ==> counts[..] == Counts(found) + old(counts[i..])
    {
      ReadingStep(b, nbVecs, found, off - HDR, nbVecs - i);
      PresentIn(src, off);
      var n := Load32(src[off..off + 4]);
      ghost var v := VectorAt(b, off - HDR);
      FlatPush(found, v);
      NextFound(b, nbVecs, vecs, found, v, off - HDR + 4 + 4 * n, nbVecs - i - 1);
      FillOne(src, off, n, dst, at, counts, i, found, v);
      found := found + [v];
      at := at + n;
      off := off + 4 + 4 * n;
      i := i + 1;
    }
    assert vecs[..i] == vecs;
  }

  lemma FlatNone()
    ensures Flat([]) == [] && Counts([]) == []
  {
  }

  lemma NextFound(b: seq<Byte>, n: nat, vecs: seq<Vector>, found: seq<Vector>, v: Vector, off: nat, left: nat)
    requires Parsed(b, n) == Some(vecs) && |vecs| == n && |found| < n && found == vecs[..|found|]
    requires Reading(b, n, found + [v], off, left)
    ensures found + [v] == vecs[..|found| + 1]
    ensures |Flat(found + [v])| <= |Flat(vecs)|
  {
    hide Parsed, Flat;
    assert vecs[..|found| + 1] == found + [v];
    FlatPrefix(vecs, |found| + 1);
  }

  lemma {:induction false} FlatPrefix(vecs: seq<Vector>, n: nat)
    requires n <= |vecs|
    ensures |Flat(vecs[..n])| <= |Flat(vecs)|
    decreases |vecs|
  {
    if n < |vecs| {
      FlatPrefix(vecs[..|vecs| - 1], n);
      assert vecs[..|vecs| - 1][..n] == vecs[..n];
    } else {
      assert vecs[..n] == vecs;
    }
  }

  lemma SliceTwice<T>(s: seq<T>, lo: nat, hi: nat, a: nat, b: nat)
    requires lo <= hi <= |s| && a <= b <= hi - lo
    ensures s[lo..hi][a..b] == s[lo + a..lo + b]
  {
    var x, y := s[lo..hi][a..b], s[lo + a..lo + b];
    assert forall i :: 0 <= i < b - a ==> x[i] == y[i];
  }

  method FillVector(src: seq<Byte>, off: nat, n: nat, dst: array<Int32>, at: nat)
    requires off + 4 * n <= |src| && at + n <= dst.Length
    modifies dst
    ensures dst[..] == old(dst[..at]) + Loaded(src[off..off + 4 * n]) + old(dst[at + n..])
  {
    hide Loaded, LoadInt;
    ghost var v := Loaded(src[off..off + 4 * n]);
    for k := 0 to n
      invariant forall j :: 0 <= j < k ==> dst[at + j] == v[j]
      invariant forall j :: 0 <= j < dst.Length && !(at <= j < at + k) ==> dst[j] == old(dst[j])
    {
      LoadedAt(src[off..off + 4 * n], k);
      SliceTwice(src, off, off + 4 * n, 4 * k, 4 * k + 4);
      dst[at + k] := LoadInt(src[off + 4 * k..off + 4 * k + 4]);
    }
    forall j | 0 <= j < dst.Length
      ensures dst[j] == (old(dst[..at]) + v + old(dst[at + n..]))[j]
    {
      if at <= j < at + n {
        assert dst[at + (j - at)] == v[j - at];
      }
    }
  }
}
