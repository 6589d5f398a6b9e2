/** The body unpackers of the PFOR decoder: the scalar reservoir walk, the walk over
    one 128-bit register, and the walk over two halves at once. All three read the
    lane streams of the format. */
module PforUnpack {
  import opened Words
  import opened Arith
  import opened Streams
  import opened PforFormat

  /** n bits of a bit stream from bit k on, in a word of m bits. */
  function Window(f: nat -> bool, k: nat, n: nat, m: nat): (w: Bits)
    ensures |w| == m
    ensures forall j :: 0 <= j < m ==> w[j] == (j < n && f(k + j))
  {
    seq(m, j requires 0 <= j < m => j < n && f(k + j))
  }

  /** Refilling the reservoir: the value straddles it and the next word, and what the
      value leaves of that word is the new reservoir. */
  lemma Refill(f: nat -> bool, k: nat, res: nat, bits: nat, m: nat)
    requires res < bits <= m
    ensures And(Or(Window(f, k, res, m), Shl(Window(f, k + res, m, m), res)), Mask(m, bits)) == Window(f, k, bits, m)
    ensures Shr(Window(f, k + res, m, m), bits - res) == Window(f, k + bits, m - (bits - res), m)
  {
    var a := And(Or(Window(f, k, res, m), Shl(Window(f, k + res, m, m), res)), Mask(m, bits));
    var b := Window(f, k, bits, m);
    forall j | 0 <= j < m ensures a[j] == b[j] {
      if res <= j < bits {
        assert (k + res) + (j - res) == k + j;
      }
    }
    var c, d := Shr(Window(f, k + res, m, m), bits - res), Window(f, k + bits, m - (bits - res), m);
    forall j | 0 <= j < m ensures c[j] == d[j] {
      assert (k + res) + (j + (bits - res)) == (k + bits) + j;
    }
  }

  /** Draining the reservoir: the value lies inside it. */
  lemma Drain(f: nat -> bool, k: nat, res: nat, bits: nat, m: nat)
    requires bits <= res <= m
    ensures And(Window(f, k, res, m), Mask(m, bits)) == Window(f, k, bits, m)
    ensures Shr(Window(f, k, res, m), bits) == Window(f, k + bits, res - bits, m)
  {
    var a, b := And(Window(f, k, res, m), Mask(m, bits)), Window(f, k, bits, m);
    assert forall j :: 0 <= j < m ==> a[j] == b[j];
    var c, d := Shr(Window(f, k, res, m), bits), Window(f, k + bits, res - bits, m);
    forall j | 0 <= j < m ensures c[j] == d[j] {
      assert k + (j + bits) == (k + bits) + j;
    }
  }

  /** The bits of lane l in the body at byte `at`. */
  function Lane(src: seq<Byte>, at: nat, E: EltBytes, bits: nat, l: nat): nat -> bool
    requires l < Lanes(E) && at + BodyBytes(bits) <= |src|
  {
    (k: nat) => k < WordStart(E, 2 * bits) && BitAt(src, 8 * at + LaneIndex(E, bits, l, k))
  }

  /** The word of lane l in the group at byte pos. */
  function GroupWord(src: seq<Byte>, pos: nat, E: EltBytes, l: nat): (w: Bits)
    requires l < Lanes(E) && pos + GROUP <= |src|
    ensures |w| == 8 * E
    ensures forall r :: 0 <= r < 8 * E ==> w[r] == BitAt(src, 8 * pos + 8 * LaneByte(E, l) + r)
  {
    seq(8 * E, r requires 0 <= r < 8 * E => BitAt(src, 8 * pos + 8 * LaneByte(E, l) + r))
  }

  lemma GroupIsWindow(src: seq<Byte>, at: nat, E: EltBytes, bits: nat, l: nat, g: nat)
    requires l < Lanes(E) && at + BodyBytes(bits) <= |src| && g < 2 * bits
    ensures at + GROUP * g + GROUP <= |src|
    ensures GroupWord(src, at + GROUP * g, E, l) == Window(Lane(src, at, E, bits, l), WordStart(E, g), 8 * E, 8 * E)
  {
    hide Lane, LaneByte, LaneIndex, WordStart, WordBit, BitAt, Lanes;
    var f := Lane(src, at, E, bits, l);
    var w := GroupWord(src, at + GROUP * g, E, l);
    forall r | 0 <= r < 8 * E ensures w[r] == f(WordStart(E, g) + r) {
      GroupBit(src, at, E, bits, l, g, r);
    }
  }

  lemma GroupBit(src: seq<Byte>, at: nat, E: EltBytes, bits: nat, l: nat, g: nat, r: nat)
    requires l < Lanes(E) && at + BodyBytes(bits) <= |src| && g < 2 * bits && r < 8 * E
    ensures 8 * (at + GROUP * g) + 8 * LaneByte(E, l) + r < 8 * |src|
    ensures BitAt(src, 8 * (at + GROUP * g) + 8 * LaneByte(E, l) + r) == Lane(src, at, E, bits, l)(WordStart(E, g) + r)
  {
    hide LaneIndex, WordStart, BitAt;
    WordAddr(E, bits, l, g, r);
  }

  lemma WordAddr(E: EltBytes, bits: nat, l: nat, g: nat, r: nat)
    requires l < Lanes(E) && g < 2 * bits && r < 8 * E
    ensures WordStart(E, g) + r < WordStart(E, 2 * bits)
    ensures LaneIndex(E, bits, l, WordStart(E, g) + r) == WordBit(E, g, l, r)
  {
    WordOfStart(E, g, r);
    WordStartMono(E, g, 2 * bits);
    hide WordOf, WordStart, WordBit;
    assert LaneIndex(E, bits, l, WordStart(E, g) + r) == WordBit(E, g, l, r);
  }

  /** The low bits of value i: slot SlotOf(i) of lane LaneOf(i). */
  function BodyWord(src: seq<Byte>, at: nat, E: EltBytes, bits: nat, i: nat): (w: Bits)
    requires i < BLOCK && at + BodyBytes(bits) <= |src|
    ensures |w| == 8 * E
  {
    SlotLane(E, i);
    Window(Lane(src, at, E, bits, LaneOf(E, i)), Times(SlotOf(E, i), bits), bits, 8 * E)
  }

  lemma BodyWordBit(src: seq<Byte>, at: nat, E: EltBytes, bits: nat, i: nat, j: nat)
    requires i < BLOCK && at + BodyBytes(bits) <= |src| && j < 8 * E
    ensures BodyWord(src, at, E, bits, i)[j] == (j < bits && BodyBit(src, at, E, bits, i, j))
  {
    hide WordStart, LaneIndex, SlotOf, LaneOf, BitAt, Lanes;
    SlotLane(E, i);
    if j < bits {
      SlotBound(E, bits, SlotOf(E, i), j);
      assert BodyIndex(E, bits, i, j) == LaneIndex(E, bits, LaneOf(E, i), Times(SlotOf(E, i), bits) + j);
    }
  }

  /** The low bits of all 256 values, as the body at byte `at` holds them. */
  ghost predicate Unpacked(d: seq<Bits>, src: seq<Byte>, at: nat, E: EltBytes, bits: nat)
    requires |d| == BLOCK && at + BodyBytes(bits) <= |src|
  {
    Done(d, src, at, E, bits, BLOCK)
  }

  // One lane whose value straddles the reservoir and the next word.
  method RefillLane(acc: Bits, w: Bits, mask: Bits, bits: nat, res: nat, m: nat, ghost f: nat -> bool, ghost k: nat)
    returns (value: Bits, rest: Bits)
    requires res < bits <= m && mask == Mask(m, bits)
    requires acc == Window(f, k, res, m) && w == Window(f, k + res, m, m)
    ensures value == Window(f, k, bits, m)
    ensures rest == Window(f, k + bits, m - (bits - res), m)
  {
    Refill(f, k, res, bits, m);
    var used := bits - res;
    value := And(Or(acc, Shl(w, res)), mask);
    rest := if used >= m then Zero(m) else Shr(w, used);
  }

  // One lane whose value lies in the reservoir.
  method DrainLane(acc: Bits, mask: Bits, bits: nat, res: nat, m: nat, ghost f: nat -> bool, ghost k: nat)
    returns (value: Bits, rest: Bits)
    requires bits <= res < m && mask == Mask(m, bits)
    requires acc == Window(f, k, res, m)
    ensures value == Window(f, k, bits, m)
    ensures rest == Window(f, k + bits, res - bits, m)
  {
    Drain(f, k, res, bits, m);
    value := And(acc, mask);
    rest := if bits >= m then Zero(m) else Shr(acc, bits);
  }

  /** The lane loop of one refilling slot, writing through the output pointer o. */
  method RefillSlot(dst: array<Bits>, o: nat, acc: seq<Bits>, w: seq<Bits>, bits: nat, res: nat, m: nat,
                    ghost fs: seq<nat -> bool>, ghost k: nat)
    returns (next: seq<Bits>)
    requires |fs| == |w| == |acc| && o + |fs| <= dst.Length
    requires res < bits <= m
    requires forall l :: 0 <= l < |fs| ==> acc[l] == Window(fs[l], k, res, m)
    requires forall l :: 0 <= l < |fs| ==> w[l] == Window(fs[l], k + res, m, m)
    modifies dst
    ensures forall l :: 0 <= l < |fs| ==> dst[o + l] == Window(fs[l], k, bits, m)
    ensures |next| == |fs| && forall l :: 0 <= l < |fs| ==> next[l] == Window(fs[l], k + bits, m - (bits - res), m)
    ensures forall i :: 0 <= i < dst.Length && !(o <= i < o + |fs|) ==> dst[i] == old(dst[i])
  {
    hide Window, Mask;
    var mask := Mask(m, bits);
    next := [];
    for l := 0 to |acc|
      invariant forall i :: o <= i < o + l ==> dst[i] == Window(fs[i - o], k, bits, m)
      invariant |next| == l && forall i :: 0 <= i < l ==> next[i] == Window(fs[i], k + bits, m - (bits - res), m)
      invariant forall i :: 0 <= i < dst.Length && !(o <= i < o + l) ==> dst[i] == old(dst[i])
    {
      var value, rest := RefillLane(acc[l], w[l], mask, bits, res, m, fs[l], k);
      dst[o + l] := value;
      next := next + [rest];
    }
  }

  /** The lane loop of one draining slot. */
  method DrainSlot(dst: array<Bits>, o: nat, acc: seq<Bits>, bits: nat, res: nat, m: nat, ghost fs: seq<nat -> bool>,
                   ghost k: nat)
    returns (next: seq<Bits>)
    requires |fs| == |acc| && o + |fs| <= dst.Length
    requires bits <= res < m
    requires forall l :: 0 <= l < |fs| ==> acc[l] == Window(fs[l], k, res, m)
    modifies dst
    ensures forall l :: 0 <= l < |fs| ==> dst[o + l] == Window(fs[l], k, bits, m)
    ensures |next| == |fs| && forall l :: 0 <= l < |fs| ==> next[l] == Window(fs[l], k + bits, res - bits, m)
    ensures forall i :: 0 <= i < dst.Length && !(o <= i < o + |fs|) ==> dst[i] == old(dst[i])
  {
    hide Window, Mask;
    var mask := Mask(m, bits);
    next := [];
    for l := 0 to |acc|
      invariant forall i :: o <= i < o + l ==> dst[i] == Window(fs[i - o], k, bits, m)
      invariant |next| == l && forall i :: 0 <= i < l ==> next[i] == Window(fs[i], k + bits, res - bits, m)
      invariant forall i :: 0 <= i < dst.Length && !(o <= i < o + l) ==> dst[i] == old(dst[i])
    {
      var value, rest := DrainLane(acc[l], mask, bits, res, m, fs[l], k);
      dst[o + l] := value;
      next := next + [rest];
    }
  }

  ghost function LaneStreams(src: seq<Byte>, at: nat, E: EltBytes, bits: nat): (fs: seq<nat -> bool>)
    requires at + BodyBytes(bits) <= |src|
    ensures |fs| == Lanes(E) && forall l :: 0 <= l < Lanes(E) ==> fs[l] == Lane(src, at, E, bits, l)
  {
    seq(Lanes(E), l requires 0 <= l < Lanes(E) => Lane(src, at, E, bits, l))
  }

  /** Loads the 16 bytes at pos as one word per lane. */
  method LoadGroup(src: seq<Byte>, pos: nat, E: EltBytes) returns (w: seq<Bits>)
    requires pos + GROUP <= |src|
    ensures |w| == Lanes(E) && forall l :: 0 <= l < Lanes(E) ==> w[l] == GroupWord(src, pos, E, l)
  {
    w := [];
    for l := 0 to Lanes(E)
      invariant |w| == l && forall i :: 0 <= i < l ==> w[i] == GroupWord(src, pos, E, i)
    {
      var x := Zero(8 * E);
      for k := 0 to E
        invariant |x| == 8 * E
        invariant forall r :: 0 <= r < 8 * E ==> x[r] == (r < 8 * k && BitAt(src, 8 * pos + 8 * LaneByte(E, l) + r))
      {
        x := Or(x, Shl(Cast(src[pos + LaneByte(E, l) + k], 8 * E), 8 * k));
      }
      assert x == GroupWord(src, pos, E, l);
      w := w + [x];
    }
  }

  /** Values below n are in place. */
  ghost predicate Done(d: seq<Bits>, src: seq<Byte>, at: nat, E: EltBytes, bits: nat, n: nat)
    requires n <= |d| == BLOCK && at + BodyBytes(bits) <= |src|
  {
    forall i :: 0 <= i < n ==> d[i] == BodyWord(src, at, E, bits, i)
  }

  lemma SlotAdded(before: seq<Bits>, d: seq<Bits>, src: seq<Byte>, at: nat, E: EltBytes, bits: nat, s: nat,
                  fs: seq<nat -> bool>)
    requires |before| == |d| == BLOCK && at + BodyBytes(bits) <= |src| && s < Slots(E)
    requires fs == LaneStreams(src, at, E, bits)
    requires Item(E, s + 1, 0) <= BLOCK && Done(before, src, at, E, bits, Item(E, s, 0))
    requires forall i :: 0 <= i < Item(E, s, 0) ==> d[i] == before[i]
    requires SlotOut(d, Item(E, s, 0), fs, E, bits, s)
    ensures Done(d, src, at, E, bits, Item(E, s + 1, 0))
  {
    forall i | Item(E, s, 0) <= i < Item(E, s + 1, 0) ensures d[i] == BodyWord(src, at, E, bits, i) {
      var l := i - Item(E, s, 0);
      ItemSlot(E, s, l);
      assert d[Item(E, s, 0) + l] == Window(fs[l], Times(s, bits), bits, 8 * E);
    }
  }

  /** The state of a walk before slot s: g groups loaded, res bits of them unused. */
  ghost predicate WalkAt(acc: seq<Bits>, fs: seq<nat -> bool>, E: EltBytes, bits: nat, s: nat, g: nat, res: nat)
  {
    && res < 8 * E && WordStart(E, g) == Times(s, bits) + res
    && |acc| == |fs| && forall l :: 0 <= l < |fs| ==> acc[l] == Window(fs[l], Times(s, bits), res, 8 * E)
  }

  lemma WalkStart(fs: seq<nat -> bool>, E: EltBytes, bits: nat)
    ensures WalkAt(seq(|fs|, l => Zero(8 * E)), fs, E, bits, 0, 0, 0)
  {
    forall l | 0 <= l < |fs| ensures Zero(8 * E) == Window(fs[l], 0, 0, 8 * E) {
    }
  }

  /** A walk loads no word past the last one. */
  lemma WalkBound(E: EltBytes, bits: nat, s: nat, g: nat, res: nat, slots: nat, groups: nat)
    requires WordStart(E, g) == Times(s, bits) + res && s < slots && Times(slots, bits) == WordStart(E, groups)
    ensures Times(s + 1, bits) == Times(s, bits) + bits && WordStart(E, g + 1) == WordStart(E, g) + 8 * E
    ensures res < bits ==> g < groups
  {
    TimesStep(s, slots, bits);
    if g >= groups {
      WordStartLe(E, groups, g);
    }
  }

  lemma WordStartLe(E: EltBytes, a: nat, b: nat)
    requires a <= b
    ensures WordStart(E, a) <= WordStart(E, b)
  {
    if a < b {
      WordStartMono(E, a, b);
    }
  }

  /** What one slot does to the walk: its outputs come from lane bit Times(s, bits) on. */
  lemma WalkStep(acc: seq<Bits>, next: seq<Bits>, fs: seq<nat -> bool>, E: EltBytes, bits: nat, s: nat, g: nat,
                 res: nat)
    requires WalkAt(acc, fs, E, bits, s, g, res) && 0 < bits <= 8 * E && |next| == |fs|
    requires res < bits ==>
      forall l :: 0 <= l < |fs| ==> next[l] == Window(fs[l], Times(s, bits) + bits, 8 * E - (bits - res), 8 * E)
    requires res >= bits ==>
      forall l :: 0 <= l < |fs| ==> next[l] == Window(fs[l], Times(s, bits) + bits, res - bits, 8 * E)
    ensures WalkAt(next, fs, E, bits, s + 1, GroupsAfter(g, res, bits), ResAfter(E, res, bits))
  {
    assert Times(s + 1, bits) == Times(s, bits) + bits;
    assert WordStart(E, g + 1) == WordStart(E, g) + 8 * E;
  }

  function GroupsAfter(g: nat, res: nat, bits: nat): nat {
    if res < bits then g + 1 else g
  }

  function ResAfter(E: EltBytes, res: nat, bits: nat): nat
    requires bits <= 8 * E
  {
    if res < bits then 8 * E - (bits - res) else res - bits
  }

  method LoadLanes(src: seq<Byte>, at: nat, E: EltBytes, bits: nat, pos: nat, ghost g: nat) returns (w: seq<Bits>)
    requires at + BodyBytes(bits) <= |src| && g < 2 * bits && pos == at + GROUP * g
    ensures |w| == Lanes(E)
    ensures forall l :: 0 <= l < Lanes(E) ==> w[l] == Window(Lane(src, at, E, bits, l), WordStart(E, g), 8 * E, 8 * E)
  {
    w := LoadGroup(src, pos, E);
    forall l | 0 <= l < Lanes(E)
      ensures w[l] == Window(Lane(src, at, E, bits, l), WordStart(E, g), 8 * E, 8 * E)
    {
      GroupIsWindow(src, at, E, bits, l, g);
    }
  }

  /** A slot whose value is not all in the reservoir. */
  method ScalarRefill(dst: array<Bits>, o: nat, acc: seq<Bits>, w: seq<Bits>, E: EltBytes, bits: nat, ghost s: nat,
                      res: nat, ghost g: nat, ghost fs: seq<nat -> bool>)
    returns (next: seq<Bits>)
    requires res < bits <= 8 * E && WalkAt(acc, fs, E, bits, s, g, res)
    requires |w| == |fs| && forall l :: 0 <= l < |fs| ==> w[l] == Window(fs[l], WordStart(E, g), 8 * E, 8 * E)
    requires o + |fs| <= dst.Length
    modifies dst
    ensures WalkAt(next, fs, E, bits, s + 1, GroupsAfter(g, res, bits), ResAfter(E, res, bits))
    ensures SlotOut(dst[..], o, fs, E, bits, s)
    ensures forall i :: 0 <= i < dst.Length && !(o <= i < o + |fs|) ==> dst[i] == old(dst[i])
  {
    next := RefillSlot(dst, o, acc, w, bits, res, 8 * E, fs, Times(s, bits));
    WalkStep(acc, next, fs, E, bits, s, g, res);
  }

  /** A slot whose value lies in the reservoir. */
  method ScalarDrain(dst: array<Bits>, o: nat, acc: seq<Bits>, E: EltBytes, bits: nat, ghost s: nat, res: nat,
                     ghost g: nat, ghost fs: seq<nat -> bool>)
    returns (next: seq<Bits>)
    requires 0 < bits <= res && bits <= 8 * E && WalkAt(acc, fs, E, bits, s, g, res)
    requires o + |fs| <= dst.Length
    modifies dst
    ensures WalkAt(next, fs, E, bits, s + 1, GroupsAfter(g, res, bits), ResAfter(E, res, bits))
    ensures SlotOut(dst[..], o, fs, E, bits, s)
    ensures forall i :: 0 <= i < dst.Length && !(o <= i < o + |fs|) ==> dst[i] == old(dst[i])
  {
    next := DrainSlot(dst, o, acc, bits, res, 8 * E, fs, Times(s, bits));
    WalkStep(acc, next, fs, E, bits, s, g, res);
  }

  /** The outputs of slot s, from index o on. */
  ghost predicate SlotOut(d: seq<Bits>, o: nat, fs: seq<nat -> bool>, E: EltBytes, bits: nat, s: nat) {
    && o + |fs| <= |d|
    && forall l :: 0 <= l < |fs| ==> d[o + l] == Window(fs[l], Times(s, bits), bits, 8 * E)
  }

  method ScalarSlot(dst: array<Bits>, o: nat, acc: seq<Bits>, src: seq<Byte>, at: nat, E: EltBytes, bits: nat,
                    ghost s: nat, res: nat, pos: nat, ghost g: nat, ghost fs: seq<nat -> bool>)
    returns (next: seq<Bits>, res': nat, pos': nat)
    requires 0 < bits <= 8 * E && at + BodyBytes(bits) <= |src| && fs == LaneStreams(src, at, E, bits)
    requires WalkAt(acc, fs, E, bits, s, g, res) && pos == at + GROUP * g && (res < bits ==> g < 2 * bits)
    requires o + |fs| <= dst.Length
    modifies dst
    ensures res' == ResAfter(E, res, bits) && pos' == at + GROUP * GroupsAfter(g, res, bits)
    ensures WalkAt(next, fs, E, bits, s + 1, GroupsAfter(g, res, bits), res')
    ensures SlotOut(dst[..], o, fs, E, bits, s)
    ensures forall i :: 0 <= i < dst.Length && !(o <= i < o + |fs|) ==> dst[i] == old(dst[i])
  {
    hide WalkAt, SlotOut, Lane;
    res' := ResAfter(E, res, bits);
    if res < bits {
      var w := LoadLanes(src, at, E, bits, pos, g);
      next := ScalarRefill(dst, o, acc, w, E, bits, s, res, g, fs);
      pos' := pos + GROUP;
    } else {
      next := ScalarDrain(dst, o, acc, E, bits, s, res, g, fs);
      pos' := pos;
    }
  }

  lemma SlotMoved(d: seq<Bits>, off: nat, o: nat, fs: seq<nat -> bool>, E: EltBytes, bits: nat, s: nat)
    requires off + BLOCK <= |d| && o + |fs| <= BLOCK && SlotOut(d, off + o, fs, E, bits, s)
    ensures SlotOut(d[off..off + BLOCK], o, fs, E, bits, s)
  {
  }

  /** The invariant of the scalar walk before slot s. */
  ghost predicate ScalarAt(d: seq<Bits>, acc: seq<Bits>, src: seq<Byte>, at: nat, E: EltBytes, bits: nat, s: nat,
                           g: nat, res: nat, pos: nat)
    requires |d| == BLOCK && at + BodyBytes(bits) <= |src|
  {
    && WalkAt(acc, LaneStreams(src, at, E, bits), E, bits, s, g, res)
    && pos == at + GROUP * g
    && Item(E, s, 0) <= BLOCK && Done(d, src, at, E, bits, Item(E, s, 0))
  }

  lemma ScalarNext(before: seq<Bits>, d: seq<Bits>, acc: seq<Bits>, next: seq<Bits>, src: seq<Byte>, at: nat,
                   E: EltBytes, bits: nat, s: nat, g: nat, res: nat, pos: nat, pos': nat)
    requires |before| == |d| == BLOCK && at + BodyBytes(bits) <= |src| && s < Slots(E) && 0 < bits <= 8 * E
    requires ScalarAt(before, acc, src, at, E, bits, s, g, res, pos)
    requires pos' == at + GROUP * GroupsAfter(g, res, bits)
    requires WalkAt(next, LaneStreams(src, at, E, bits), E, bits, s + 1, GroupsAfter(g, res, bits),
      ResAfter(E, res, bits))
    requires SlotOut(d, Item(E, s, 0), LaneStreams(src, at, E, bits), E, bits, s)
    requires forall i :: 0 <= i < Item(E, s, 0) ==> d[i] == before[i]
    ensures ScalarAt(d, next, src, at, E, bits, s + 1, GroupsAfter(g, res, bits), ResAfter(E, res, bits), pos')
  {
    ItemNext(E, s);
    SlotAdded(before, d, src, at, E, bits, s, LaneStreams(src, at, E, bits));
  }

  lemma ScalarBound(d: seq<Bits>, acc: seq<Bits>, src: seq<Byte>, at: nat, E: EltBytes, bits: nat, s: nat, g: nat,
                    res: nat, pos: nat)
    requires |d| == BLOCK && 0 < bits <= 8 * E && at + BodyBytes(bits) <= |src| && s < Slots(E)
    requires ScalarAt(d, acc, src, at, E, bits, s, g, res, pos)
    ensures WalkAt(acc, LaneStreams(src, at, E, bits), E, bits, s, g, res)
    ensures pos == at + GROUP * g && (res < bits ==> g < 2 * bits)
    ensures |LaneStreams(src, at, E, bits)| == Lanes(E)
  {
    hide Done, Item, LaneStreams;
    TimesIsProduct(Slots(E), bits);
    WalkBound(E, bits, s, g, res, Slots(E), 2 * bits);
  }

  method ScalarStep(dst: array<Bits>, off: nat, acc: seq<Bits>, src: seq<Byte>, at: nat, E: EltBytes, bits: nat,
                    s: nat, res: nat, pos: nat, ghost g: nat)
    returns (next: seq<Bits>, res': nat, pos': nat)
    requires off + BLOCK <= dst.Length && 0 < bits <= 8 * E && at + BodyBytes(bits) <= |src| && s < Slots(E)
    requires ScalarAt(dst[off..off + BLOCK], acc, src, at, E, bits, s, g, res, pos)
    modifies dst
    ensures res' == ResAfter(E, res, bits)
    ensures ScalarAt(dst[off..off + BLOCK], next, src, at, E, bits, s + 1, GroupsAfter(g, res, bits), res', pos')
    ensures forall i :: 0 <= i < dst.Length && !(off <= i < off + BLOCK) ==> dst[i] == old(dst[i])
  {
    hide WalkAt, SlotOut, Done, ScalarAt, LaneStreams, ResAfter, GroupsAfter, Item;
    ghost var before := dst[off..off + BLOCK];
    ghost var fs := LaneStreams(src, at, E, bits);
    ScalarBound(before, acc, src, at, E, bits, s, g, res, pos);
    ItemNext(E, s);
    next, res', pos' := ScalarSlot(dst, off + Item(E, s, 0), acc, src, at, E, bits, s, res, pos, g, fs);
    SlotMoved(dst[..], off, Item(E, s, 0), fs, E, bits, s);
    assert dst[..][off..off + BLOCK] == dst[off..off + BLOCK];
    ScalarNext(before, dst[off..off + BLOCK], acc, next, src, at, E, bits, s, g, res, pos, pos');
  }

  method UnpackScalar(dst: array<Bits>, off: nat, src: seq<Byte>, at: nat, E: EltBytes, bits: nat)
    requires off + BLOCK <= dst.Length && 0 < bits <= 8 * E && at + BodyBytes(bits) <= |src|
    modifies dst
    ensures Unpacked(dst[off..off + BLOCK], src, at, E, bits)
    ensures forall i :: 0 <= i < dst.Length && !(off <= i < off + BLOCK) ==> dst[i] == old(dst[i])
  {
    var acc := seq(Lanes(E), l => Zero(8 * E));
    var res: nat, pos: nat := 0, at;
    ghost var g: nat := 0;
    WalkStart(LaneStreams(src, at, E, bits), E, bits);
    for s := 0 to Slots(E)
      invariant ScalarAt(dst[off..off + BLOCK], acc, src, at, E, bits, s, g, res, pos)
      invariant forall i :: 0 <= i < dst.Length && !(off <= i < off + BLOCK) ==> dst[i] == old(dst[i])
    {
      ghost var next := GroupsAfter(g, res, bits);
      acc, res, pos := ScalarStep(dst, off, acc, src, at, E, bits, s, res, pos, g);
      g := next;
    }
  }

  lemma ItemNext(E: EltBytes, s: nat)
    requires s < Slots(E)
    ensures Item(E, s + 1, 0) == Item(E, s, 0) + Lanes(E) <= BLOCK
  {
  }
}
