/** The bit writers and readers of the exception stream: one works a byte at a
    time, the other on an unaligned 64-bit word. Each pair has one contract, so
    any mix of the two is the same stream. */
module BitIO {
  import opened Words

  const WIDE_MAX := 57

  /** `after` is `before` with the low nbits of v OR-ed in at bit `at`. */
  ghost predicate Written(before: seq<Byte>, after: seq<Byte>, at: nat, nbits: nat, v: Bits)
    requires nbits <= |v|
  {
    && |after| == |before|
    && forall k :: 0 <= k < 8 * |before| ==>
         BitAt(after, k) == (BitAt(before, k) || (at <= k < at + nbits && v[k - at]))
  }

  lemma WrittenNone(p: seq<Byte>, at: nat, v: Bits)
    ensures Written(p, p, at, 0, v)
  {
  }

  /** Two adjacent writes are one longer write. */
  lemma WrittenStep(before: seq<Byte>, mid: seq<Byte>, after: seq<Byte>, at: nat, done: nat, take: nat, v: Bits,
                    rest: Bits)
    requires done + take <= |v| && take <= |rest|
    requires forall i :: 0 <= i < take ==> rest[i] == v[i + done]
    requires Written(before, mid, at, done, v)
    requires Written(mid, after, at + done, take, rest)
    ensures Written(before, after, at, done + take, v)
  {
    forall k | 0 <= k < 8 * |before|
      ensures BitAt(after, k) == (BitAt(before, k) || (at <= k < at + (done + take) && v[k - at]))
    {
      if at + done <= k < at + done + take {
        assert rest[k - (at + done)] == v[(k - (at + done)) + done];
      }
    }
  }

  method LoadLe64(p: seq<Byte>, q: nat) returns (w: Bits)
    requires q + 8 <= |p|
    ensures |w| == 64
    ensures forall i :: 0 <= i < 64 ==> w[i] == BitAt(p, 8 * q + i)
  {
    w := Zero(64);
    for i := 0 to 8
      invariant |w| == 64
      invariant forall k :: 0 <= k < 64 ==> w[k] == (k < 8 * i && BitAt(p, 8 * q + k))
    {
      w := Or(w, Shl(Cast(p[q + i], 64), 8 * i));
    }
  }

  method StoreLe64(p: array<Byte>, q: nat, w: Bits)
    requires q + 8 <= p.Length && |w| == 64
    modifies p
    ensures forall i :: 0 <= i < p.Length && !(q <= i < q + 8) ==> p[i] == old(p[i])
    ensures forall i :: 0 <= i < 64 ==> BitAt(p[..], 8 * q + i) == w[i]
  {
    for i := 0 to 8
      invariant forall k :: 0 <= k < p.Length && !(q <= k < q + i) ==> p[k] == old(p[k])
      invariant forall k :: 0 <= k < 8 * i ==> BitAt(p[..], 8 * q + k) == w[k]
    {
      p[q + i] := Cast(Shr(w, 8 * i), 8);
    }
  }

  method PutBitsWide(p: array<Byte>, base: nat, bitPos: nat, nbits: nat, v: Bits) returns (next: nat)
    requires |v| == 64 && nbits <= WIDE_MAX
    requires forall i :: nbits <= i < 64 ==> !v[i]
    requires base + bitPos / 8 + 8 <= p.Length
    modifies p
    ensures next == bitPos + nbits
    ensures Written(old(p[..]), p[..], 8 * base + bitPos, nbits, v)
  {
    var q := base + bitPos / 8;
    var w := LoadLe64(p[..], q);
    w := Or(w, Shl(v, bitPos % 8));
    StoreLe64(p, q, w);
    next := bitPos + nbits;
    forall k | 0 <= k < 8 * p.Length
      ensures BitAt(p[..],
        k) == (BitAt(old(p[..]), k)
          || (8 * base + bitPos <= k < 8 * base + bitPos + nbits && v[k - (8 * base + bitPos)]))
    {
      if 8 * q <= k < 8 * q + 64 {
        assert BitAt(p[..], 8 * q + (k - 8 * q)) == w[k - 8 * q];
      }
    }
  }

  /** ORs the low `take` bits of v into byte q, starting at its bit `off`. */
  method OrByte(p: array<Byte>, q: nat, off: nat, take: nat, v: Bits)
    requires |v| == 64 && off + take <= 8 && q < p.Length
    modifies p
    ensures Written(old(p[..]), p[..], 8 * q + off, take, v)
  {
    p[q] := Or(p[q], Cast(Shl(And(v, Mask(64, take)), off), 8));
  }

  method PutBits(p: array<Byte>, base: nat, bitPos: nat, nbits: nat, v: Bits) returns (next: nat)
    requires |v| == 64 && nbits <= 64
    requires 8 * base + bitPos + nbits <= 8 * p.Length
    modifies p
    ensures next == bitPos + nbits
    ensures Written(old(p[..]), p[..], 8 * base + bitPos, nbits, v)
  {
    hide Written, BitAt;
    var rest: Bits, left: nat := v, nbits;
    next := bitPos;
    WrittenNone(p[..], 8 * base + bitPos, v);
    while left != 0
      invariant left <= nbits && next == bitPos + (nbits - left) && |rest| == 64
      invariant forall i :: 0 <= i < left ==> rest[i] == v[i + (nbits - left)]
      invariant Written(old(p[..]), p[..], 8 * base + bitPos, nbits - left, v)
    {
      var off := next % 8;
      var take := if 8 - off > left then left else 8 - off;
      ghost var mid := p[..];
      OrByte(p, base + next / 8, off, take, rest);
      WrittenStep(old(p[..]), mid, p[..], 8 * base + bitPos, nbits - left, take, v, rest);
      rest := Shr(rest, take);
      next := next + take;
      left := left - take;
    }
  }

  method GetBitsWide(p: seq<Byte>, base: nat, bitPos: nat, nbits: nat) returns (v: Bits, next: nat)
    requires nbits <= WIDE_MAX
    requires base + bitPos / 8 + 8 <= |p|
    ensures next == bitPos + nbits && |v| == 64
    ensures forall i :: 0 <= i < 64 ==> v[i] == (i < nbits && BitAt(p, 8 * base + bitPos + i))
  {
    var w := LoadLe64(p, base + bitPos / 8);
    v := And(Shr(w, bitPos % 8), Mask(64, nbits));
    next := bitPos + nbits;
  }

  method GetBits(p: seq<Byte>, base: nat, bitPos: nat, nbits: nat) returns (v: Bits, next: nat)
    requires nbits <= 64
    requires 8 * base + bitPos + nbits <= 8 * |p|
    ensures next == bitPos + nbits && |v| == 64
    ensures forall i :: 0 <= i < 64 ==> v[i] == (i < nbits && BitAt(p, 8 * base + bitPos + i))
  {
    v, next := Zero(64), bitPos;
    var got: nat := 0;
    while got < nbits
      invariant got <= nbits && next == bitPos + got && |v| == 64
      invariant forall i :: 0 <= i < 64 ==> v[i] == (i < got && BitAt(p, 8 * base + bitPos + i))
    {
      var off := next % 8;
      var take := if 8 - off > nbits - got then nbits - got else 8 - off;
      var chunk := Cast(And(Shr(p[base + next / 8], off), Mask(8, take)), 64);
      v := Or(v, Shl(chunk, got));
      got := got + take;
      next := next + take;
    }
  }
}
