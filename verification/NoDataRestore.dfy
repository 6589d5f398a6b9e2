/** The decoder's side of the NoData guard (core/src/nodata/decode_nodata_kernel.c)
    and what both sides promise together. */
module NoDataRestore {
  import opened Machine
  import Med
  import Words
  import NoDataFill
  import opened NoDataGuard

  // ---------- the plain form ----------

  function Restored(v: nat, code: nat, pattern: nat): nat {
    if code == INVALID then pattern else v
  }

  // m is all ones on a hole and zero elsewhere.
  function Blended(B: nat, v: nat, code: nat, pattern: nat): nat {
    var m := MaskOf(B, code == INVALID);
    OrN(B, AndN(B, v, NotN(B, m)), AndN(B, pattern, m))
  }

  lemma BlendedIs(B: nat, v: nat, code: nat, pattern: nat)
    requires v < Size(B) && pattern < Size(B)
    ensures Blended(B, v, code, pattern) == Restored(v, code, pattern)
  {
    hide Size, MaskOf, AndN, OrN, NotN;
    Med.Select(B, code == INVALID, pattern, v);
    AndSwap(B, v, NotN(B, MaskOf(B, code == INVALID)));
    AndSwap(B, pattern, MaskOf(B, code == INVALID));
    OrSwap(B, AndN(B, pattern, MaskOf(B, code == INVALID)), AndN(B, v, NotN(B, MaskOf(B, code == INVALID))));
  }

  lemma AndSwap(B: nat, a: nat, b: nat)
    ensures AndN(B, a, b) == AndN(B, b, a)
  {
    assert Words.And(Words.OfNat(a, B), Words.OfNat(b, B)) == Words.And(Words.OfNat(b, B), Words.OfNat(a, B));
  }

  lemma OrSwap(B: nat, a: nat, b: nat)
    ensures OrN(B, a, b) == OrN(B, b, a)
  {
    assert Words.Or(Words.OfNat(a, B), Words.OfNat(b, B)) == Words.Or(Words.OfNat(b, B), Words.OfNat(a, B));
  }

  /** nodata_restore, also over its own input. */
  method Restore(dst: array<nat>, values: array<nat>, mask: seq<nat>, B: nat, pattern: nat)
    requires dst.Length == values.Length == |mask| && pattern < Size(B)
    requires forall i :: 0 <= i < values.Length ==> values[i] < Size(B)
    modifies dst
    ensures forall i :: 0 <= i < dst.Length ==> dst[i] == Restored(old(values[i]), mask[i], pattern)
  {
    hide Size, Blended;
    for i := 0 to |mask|
      invariant forall k :: 0 <= k < i ==> dst[k] == Restored(old(values[k]), mask[k], pattern)
      invariant forall k :: i <= k < dst.Length ==> values[k] == old(values[k])
    {
      BlendedIs(B, values[i], mask[i], pattern);
      dst[i] := Blended(B, values[i], mask[i], pattern);
    }
  }

  // ---------- the guarded form ----------

  // A mask byte that is no code, or asks for a replacement that is the sentinel.
  predicate BadCode(c: nat, p: nat, repl: seq<nat>)
    requires |repl| == 3
  {
    c > 3 || (c == 1 && repl[0] == p) || (c == 2 && repl[1] == p) || (c == 3 && repl[2] == p)
  }

  function Guarded(v: nat, c: nat, p: nat, repl: seq<nat>): nat
    requires |repl| == 3
  {
    var d := Restored(v, c, p);
    if c != 0 && c <= 3 && d == p then repl[c - 1] else d
  }

  // The scan: whether a code is bad and whether a valid sample is the sentinel.
  method Scan(dst: array<nat>, mask: seq<nat>, p: nat, repl: seq<nat>) returns (bad: bool, hit: bool)
    requires dst.Length == |mask| && |repl| == 3 && forall i :: 0 <= i < |mask| ==> mask[i] < 256
    ensures bad <==> exists i :: 0 <= i < |mask| && BadCode(mask[i], p, repl)
    ensures hit <==> exists i :: 0 <= i < |mask| && mask[i] != 0 && dst[i] == p
  {
    var f1 := if repl[0] == p then 1 else 0xFF;
    var f2 := if repl[1] == p then 2 else 0xFF;
    var f3 := if repl[2] == p then 3 else 0xFF;
    bad, hit := false, false;
    for i := 0 to |mask|
      invariant bad <==> exists k :: 0 <= k < i && BadCode(mask[k], p, repl)
      invariant hit <==> exists k :: 0 <= k < i && mask[k] != 0 && dst[k] == p
    {
      var c := mask[i];
      bad := bad || c > 3 || c == f1 || c == f2 || c == f3;
      hit := hit || (c != 0 && dst[i] == p);
    }
  }

  method FixHits(dst: array<nat>, mask: seq<nat>, p: nat, repl: seq<nat>)
    requires dst.Length == |mask| && |repl| == 3
    modifies dst
    ensures forall i :: 0 <= i < dst.Length ==>
      dst[i] == if mask[i] != 0 && mask[i] <= 3 && old(dst[i]) == p then repl[mask[i] - 1] else old(dst[i])
  {
    var near := [p, repl[0], repl[1], repl[2]];
    for i := 0 to |mask|
      invariant forall k :: 0 <= k < i ==>
        dst[k] == if mask[k] != 0 && mask[k] <= 3 && old(dst[k]) == p then repl[mask[k] - 1] else old(dst[k])
      invariant forall k :: i <= k < dst.Length ==> dst[k] == old(dst[k])
    {
      var c := mask[i];
      if c != 0 && c <= 3 && dst[i] == p {
        dst[i] := near[c];
      }
    }
  }

  predicate ElementBytes(width: nat) {
    width == 1 || width == 2 || width == 4 || width == 8
  }

  /** The replacements as the element holds them. */
  function Masked(M: nat, repl: seq<nat>): (near: seq<nat>)
    requires M > 0 && |repl| == 3
    ensures |near| == 3 && forall k :: 0 <= k < 3 ==> near[k] == Wrap(M, repl[k])
  {
    [Wrap(M, repl[0]), Wrap(M, repl[1]), Wrap(M, repl[2])]
  }

  /** nodata_restore_guarded: it reports exactly the masks that hold a bad code,
      and writes the sentinel on holes, the named neighbour where a valid sample
      came back as the sentinel, and every other sample as it is. */
  method RestoreGuarded(dst: array<nat>, values: array<nat>, mask: seq<nat>, width: nat, pattern: nat, repl: seq<nat>)
    returns (failed: bool)
    requires dst.Length == values.Length == |mask| && |repl| == 3
    requires forall i :: 0 <= i < |mask| ==> mask[i] < 256
    requires ElementBytes(width) ==> forall i :: 0 <= i < values.Length ==> values[i] < Size(8 * width)
    modifies dst
    ensures !ElementBytes(width) ==> failed && forall i :: 0 <= i < dst.Length ==> dst[i] == old(dst[i])
    ensures ElementBytes(width) ==>
      var p, near := Wrap(Size(8 * width), pattern), Masked(Size(8 * width), repl);
      && (failed <==> exists i :: 0 <= i < |mask| && BadCode(mask[i], p, near))
      && forall i :: 0 <= i < dst.Length ==> dst[i] == Guarded(old(values[i]), mask[i], p, near)
  {
    if !ElementBytes(width) {
      return true;
    }
    hide Size, Wrap, BadCode;
    var p, near := Wrap(Size(8 * width), pattern), Masked(Size(8 * width), repl);
    Restore(dst, values, mask, 8 * width, p);
    var bad, hit := Scan(dst, mask, p, near);
    if hit {
      FixHits(dst, mask, p, near);
    }
    failed := bad;
  }

  // ---------- both sides together ----------

  function Repl(t: Dtype, s: nat): (repl: seq<nat>)
    requires Word(t, s)
    ensures |repl| == 3
  {
    [Up(t, s), Down(t, s), Other(t, s)]
  }

  lemma GuardedIs(t: Dtype, s: nat, v: nat, c: nat)
    requires Word(t, s) && c <= 3
    ensures Guarded(v, c, s, Repl(t, s)) == if c == 0 then s else if v == s then ReplacementFor(t, s, c) else v
  {
    hide Up, Down, Other, Half;
  }

  /** With a mask of the encoder, restoring any decoded values succeeds, and the
      result is the sentinel exactly where the source is. */
  lemma GuardSucceeds(t: Dtype, s: nat, src: seq<nat>, mask: seq<nat>, values: seq<nat>, radius: Radius, near: Near)
    requires Number(t, s) && (forall i :: 0 <= i < |src| ==> Word(t, src[i]))
    requires Coded(mask, src, t, s, radius, near) && |values| == |src|
    ensures !exists i :: 0 <= i < |mask| && BadCode(mask[i], s, Repl(t, s))
    ensures forall i :: 0 <= i < |src| ==> (Guarded(values[i], mask[i], s, Repl(t, s)) == s <==> src[i] == s)
  {
    hide Up, Down, Other, Half, CodeOf, FracSize, Guarded;
    forall i | 0 <= i < |src|
      ensures !BadCode(mask[i], s, Repl(t, s))
      ensures Guarded(values[i], mask[i], s, Repl(t, s)) == s <==> src[i] == s
    {
      CodeServes(t, s, src[i], radius, near);
      GuardedIs(t, s, values[i], mask[i]);
    }
  }

  /** Values that came through unchanged are restored bit for bit, holes too. */
  lemma UnchangedRestored(t: Dtype, s: nat, src: seq<nat>, mask: seq<nat>, values: seq<nat>, radius: Radius,
                          near: Near, i: nat)
    requires Number(t, s) && (forall k :: 0 <= k < |src| ==> Word(t, src[k]))
    requires Coded(mask, src, t, s, radius, near) && |values| == |src| && i < |src|
    requires values[i] == src[i] || src[i] == s
    ensures Guarded(values[i], mask[i], s, Repl(t, s)) == src[i]
  {
    hide Up, Down, Other, Half, CodeOf, FracSize, Guarded;
    CodeServes(t, s, src[i], radius, near);
    GuardedIs(t, s, values[i], mask[i]);
  }

  /** Within the radius stays within the radius: of an integer sample that decoded
      no further away than the radius, the restored one is no further either, and
      a repaired collision is strictly nearer than the sentinel was. */
  lemma RadiusKept(t: Dtype, s: nat, b: nat, v: nat, radius: Radius, near: Near)
    requires !IsFloat(t) && Word(t, s) && Word(t, b) && Word(t, v)
    requires radius.Unbounded? || Distance(t, b, v) as real <= radius.r
    ensures var r := Guarded(v, CodeOf(t, s, b, radius, near), s, Repl(t, s));
      && Word(t, r)
      && Distance(t, b, r) <= Distance(t, b, v)
      && (b != s && v == s ==> Distance(t, b, r) < Distance(t, b, v))
  {
    hide Up, Down, Other, Half, CodeOf, FracSize, Guarded;
    IntNumber(t, s);
    IntNumber(t, b);
    CodeServes(t, s, b, radius, near);
    GuardedIs(t, s, v, CodeOf(t, s, b, radius, near));
    if b != s && v == s {
      SameKey(t, s, b);
      ReplacementNearer(t, s, b, radius, near);
    }
  }

  lemma IntNumber(t: Dtype, b: nat)
    requires Word(t, b) && !IsFloat(t)
    ensures Number(t, b)
  {
  }

  /** The same for a float that the distance test takes to be in reach of the
      sentinel: a collision moves to its own side, between the sentinel and the
      sample it came from, or to that sample. */
  lemma SideKept(t: Dtype, s: nat, b: nat, radius: Radius, near: Near)
    requires Number(t, s) && Number(t, b) && b != s && Reachable(t, s, b, radius, near)
    ensures var r := Guarded(s, CodeOf(t, s, b, radius, near), s, Repl(t, s));
      && Number(t, r) && r != s
      && (Key(t, b) > Key(t, s) ==> Key(t, s) < Key(t, r) <= Key(t, b))
      && (Key(t, b) < Key(t, s) ==> Key(t, b) <= Key(t, r) < Key(t, s))
      && (Key(t, b) == Key(t, s) ==> r == b)
  {
    hide Up, Down, Other, Half, CodeOf, FracSize, Guarded, Reachable, Key, Constant;
    CodeServes(t, s, b, radius, near);
    GuardedIs(t, s, s, CodeOf(t, s, b, radius, near));
    ReplacementNearer(t, s, b, radius, near);
  }

  /** The plain form is lossless end to end: restoring the filled values gives the
      source back, whatever the fill put into the holes. */
  lemma FillRestores(src: seq<nat>, mask: seq<nat>, w: nat, pattern: nat, i: nat)
    requires 0 < w && i < |src| && Plain(mask, src, pattern)
    ensures Restored(NoDataFill.Filled(src, mask, w, i), mask[i], pattern) == src[i]
  {
    NoDataFill.FillKeepsValid(src, src, mask, w, i);
  }

  /** In the plain form, which a NaN sentinel gets, the sentinel comes back where
      it was; a valid sample reads as one exactly when it decoded to its bits. */
  lemma PlainHoles(src: seq<nat>, mask: seq<nat>, v: nat, pattern: nat, i: nat)
    requires i < |src| && Plain(mask, src, pattern)
    ensures Restored(v, mask[i], pattern) == pattern <==> src[i] == pattern || v == pattern
  {
  }
}
