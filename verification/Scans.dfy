/** Inclusive prefix sums of any length (core/src/common/scan.h): blocks in a
    register with a carry between them, and a scalar tail. */
module Scans {
  import opened Machine
  import opened PrefixSums

  // The first n places hold the prefix sums of s.
  ghost predicate Scanned(M: nat, s: Lanes, d: Lanes, n: nat) {
    M > 0 && n <= |s| == |d| && forall j: nat :: j < n ==> d[j] == Wrap(M, Sum(s, 0, j + 1))
  }

  // What the next place adds to.
  function CarryOf(d: Lanes, n: nat): nat
    requires n <= |d|
  {
    if n == 0 then 0 else d[n - 1]
  }

  lemma NextSum(M: nat, s: Lanes, d: Lanes, n: nat)
    requires Scanned(M, s, d, n) && n < |s|
    ensures Wrap(M, CarryOf(d, n) + s[n]) == Wrap(M, Sum(s, 0, n + 1))
  {
    hide Wrap, Sum;
    SumNext(s, n);
    if n > 0 {
      WrapOf(M, Sum(s, 0, n), s[n]);
    }
  }

  lemma SumNext(s: Lanes, n: nat)
    requires n < |s|
    ensures Sum(s, 0, 0) == 0 && Sum(s, 0, n + 1) == Sum(s, 0, n) + s[n]
  {
  }

  lemma ScannedMore(M: nat, s: Lanes, d: Lanes, n: nat, v: nat)
    requires Scanned(M, s, d, n) && n < |s| && v == Wrap(M, CarryOf(d, n) + s[n])
    ensures Scanned(M, s, d[n := v], n + 1)
  {
    hide Wrap, Sum;
    NextSum(M, s, d, n);
  }

  // d with the lanes of out from place n on.
  function Stored(d: Lanes, n: nat, out: Lanes): (e: Lanes)
    requires n + |out| <= |d|
    ensures |e| == |d|
  {
    d[..n] + out + d[n + |out|..]
  }

  lemma {:induction false} ScannedBlock(M: nat, s: Lanes, d: Lanes, n: nat, x: Lanes, out: Lanes, k: nat)
    requires Scanned(M, s, d, n) && n + |x| <= |s| && x == s[n..n + |x|] && k <= |x| == |out|
    requires Chained(M, CarryOf(d, n), x, out)
    ensures Scanned(M, s, Stored(d, n, out), n + k)
    decreases k
  {
    hide Wrap, Sum, Chained;
    if k > 0 {
      ScannedBlock(M, s, d, n, x, out, k - 1);
      ChainedAt(M, CarryOf(d, n), x, out, k - 1);
      NextSum(M, s, Stored(d, n, out), n + k - 1);
    }
  }

  predicate Supported(B: nat) {
    B == 8 || B == 16 || B == 32 || B == 64
  }

  /** geozl_scan8 to geozl_scan64: every place holds the sum of the elements up to
      it modulo 2^B, whatever the length and the registers used, in place too. */
  method Scan(isa: Isa, B: nat, dst: array<nat>, src: array<nat>)
    requires Supported(B) && dst.Length == src.Length
    requires forall i :: 0 <= i < src.Length ==> src[i] < Size(B)
    modifies dst
    ensures Scanned(Size(B), old(src[..]), dst[..], dst.Length)
  {
    hide Wrap, Size, Sum, Scanned, Chained;
    ghost var s := src[..];
    var L := LaneCount(isa, B);
    var i: nat, carry := 0, Splat(0, L);
    ScanStarts(Size(B), s, dst[..]);
    while L > 0 && i + L <= dst.Length
      invariant i <= dst.Length && Scanned(Size(B), s, dst[..], i)
      invariant src[i..] == s[i..]
      invariant carry == Splat(CarryOf(dst[..], i), L) && CarryOf(dst[..], i) < Size(B)
      decreases dst.Length - i
    {
      carry := ScanBlock(isa, B, dst, src, i, L, carry, s);
      i := i + L;
    }
    ScanTail(B, dst, src, i, s);
  }

  lemma ScanStarts(M: nat, s: Lanes, d: Lanes)
    requires M > 0 && |s| == |d|
    ensures Scanned(M, s, d, 0)
  {
  }

  method ScanBlock(isa: Isa, B: nat, dst: array<nat>, src: array<nat>, i: nat, L: nat, carry: Lanes, ghost s: Lanes)
    returns (carry': Lanes)
    requires dst.Length == src.Length == |s| && L > 0 && L == LaneCount(isa, B) && i + L <= dst.Length
    requires Scanned(Size(B), s, dst[..], i) && src[i..] == s[i..]
    requires forall k :: 0 <= k < |s| ==> s[k] < Size(B)
    requires carry == Splat(CarryOf(dst[..], i), L) && CarryOf(dst[..], i) < Size(B)
    modifies dst
    ensures Scanned(Size(B), s, dst[..], i + L)
    ensures src[i + L..] == s[i + L..]
    ensures carry' == Splat(CarryOf(dst[..], i + L), L) && CarryOf(dst[..], i + L) < Size(B)
  {
    hide Wrap, Size, Sum, Scanned, Chained;
    ghost var before := dst[..];
    var x := src[i..i + L];
    assert x == src[i..][..L] == s[i..][..L];
    var out;
    out, carry' := Vscan(isa, Size(B), x, carry);
    LastSmall(Size(B), CarryOf(before, i), x, out);
    ghost var stream := src[..];
    Store(dst, i, out);
    SourceLeft(stream, src[..], before, i, out, s, src == dst);
    ScannedBlock(Size(B), s, before, i, x, out, L);
    TailKept(before, i, out);
  }

  lemma LastSmall(M: nat, c: nat, x: Lanes, out: Lanes)
    requires M > 0 && |x| > 0 && Chained(M, c, x, out)
    ensures |out| == |x| && out[|x| - 1] < M
  {
    ChainedAt(M, c, x, out, |x| - 1);
  }

  lemma TailKept(before: Lanes, i: nat, out: Lanes)
    requires i + |out| <= |before|
    ensures Stored(before, i, out)[i + |out|..] == before[i + |out|..]
    ensures |out| > 0 ==> CarryOf(Stored(before, i, out), i + |out|) == out[|out| - 1]
  {
    var e := Stored(before, i, out);
    assert forall j :: i + |out| <= j < |before| ==> e[j] == before[j];
    assert e[i + |out|..] == before[i + |out|..];
  }

  // Storing a block leaves what is still to be read.
  lemma SourceLeft(stream: Lanes, stream': Lanes, before: Lanes, i: nat, out: Lanes, s: Lanes, same: bool)
    requires |stream| == |stream'| == |before| == |s| && i + |out| <= |s| && stream[i..] == s[i..]
    requires if same then stream == before && stream' == Stored(before, i, out) else stream' == stream
    ensures stream'[i + |out|..] == s[i + |out|..]
  {
    forall j | i + |out| <= j < |s|
      ensures stream'[j] == s[j]
    {
      assert stream[i..][j - i] == s[i..][j - i];
    }
  }

  method Store(dst: array<nat>, i: nat, out: Lanes)
    requires i + |out| <= dst.Length
    modifies dst
    ensures dst[..] == Stored(old(dst[..]), i, out)
  {
    for k := 0 to |out|
      invariant forall j :: 0 <= j < k ==> dst[i + j] == out[j]
      invariant forall j :: 0 <= j < dst.Length && !(i <= j < i + k) ==> dst[j] == old(dst[j])
    {
      dst[i + k] := out[k];
    }
    forall j | 0 <= j < dst.Length
      ensures dst[j] == Stored(old(dst[..]), i, out)[j]
    {
      if i <= j < i + |out| {
        assert dst[i + (j - i)] == out[j - i];
      }
    }
  }

  method ScanTail(B: nat, dst: array<nat>, src: array<nat>, from: nat, ghost s: Lanes)
    requires dst.Length == src.Length == |s| && from <= dst.Length
    requires Scanned(Size(B), s, dst[..], from) && src[from..] == s[from..]
    modifies dst
    ensures Scanned(Size(B), s, dst[..], dst.Length)
  {
    hide Wrap, Size, Sum, Scanned;
    var acc := if from > 0 then dst[from - 1] else 0;
    for i := from to dst.Length
      invariant acc == CarryOf(dst[..], i) && Scanned(Size(B), s, dst[..], i)
      invariant forall k :: i <= k < |s| ==> src[k] == s[k]
    {
      acc := Wrap(Size(B), acc + src[i]);
      ScannedMore(Size(B), s, dst[..], i, acc);
      assert dst[..][i := acc][i] == acc;
      ghost var next := dst[..][i := acc];
      dst[i] := acc;
      assert dst[..] == next;
    }
  }
}
