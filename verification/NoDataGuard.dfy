/** The encoder's side of the NoData guard (core/src/nodata/encode_nodata_kernel.c):
    the neighbours of the sentinel, and the mask that names, for every valid
    sample, the side of the sentinel it lies on. Words are their bits as numbers;
    single-bit and contiguous masks are written as differences and remainders. */
module NoDataGuard {
  import opened Common

  const INVALID: nat := 0
  const ABOVE: nat := 1
  const BELOW: nat := 2
  const OTHER_ZERO: nat := 3
  const VALID: nat := 255
  const WORD64: nat := 0x1_0000_0000_0000_0000

  datatype Dtype = U8 | U16 | U32 | U64 | I8 | I16 | I32 | I64 | F16 | F32 | F64

  function DtypeOf(code: int): Option<Dtype> {
    match code
    case 0 => Some(U8) case 1 => Some(U16) case 2 => Some(U32) case 3 => Some(U64)
    case 4 => Some(I8) case 5 => Some(I16) case 6 => Some(I32) case 7 => Some(I64)
    case 8 => Some(F16) case 9 => Some(F32) case 10 => Some(F64)
    case _ => None
  }

  predicate IsFloat(t: Dtype) {
    t.F16? || t.F32? || t.F64?
  }

  predicate IsSigned(t: Dtype) {
    t.I8? || t.I16? || t.I32? || t.I64?
  }

  /** The top bit of the element; the element holds numbers below twice that. */
  function Half(t: Dtype): (h: nat)
    ensures 128 <= h && 2 * h <= WORD64
  {
    match t
    case U8 | I8 => 0x80
    case U16 | I16 | F16 => 0x8000
    case U32 | I32 | F32 => 0x8000_0000
    case U64 | I64 | F64 => 0x8000_0000_0000_0000
  }

  // One more than the fraction field.
  function FracSize(t: Dtype): nat
    requires IsFloat(t)
    ensures 0 < FracSize(t) < Half(t)
  {
    if t.F16? then 0x400 else if t.F32? then 0x80_0000 else 0x10_0000_0000_0000
  }

  /** The exponent field all ones: the bits of infinity. */
  function Exp(t: Dtype): nat
    requires IsFloat(t)
  {
    Half(t) - FracSize(t)
  }

  predicate Word(t: Dtype, b: nat) {
    b < 2 * Half(t)
  }

  function Mag(t: Dtype, b: nat): nat
    requires Word(t, b)
  {
    if b < Half(t) then b else b - Half(t)
  }

  // The bits the element holds.
  function All(t: Dtype, x: nat): (r: nat)
    ensures Word(t, r)
  {
    x % (2 * Half(t))
  }

  lemma AllIs(t: Dtype, x: nat)
    ensures x < 2 * Half(t) ==> All(t, x) == x
    ensures 2 * Half(t) <= x < 4 * Half(t) ==> All(t, x) == x - 2 * Half(t)
  {
  }

  function FlipTop(t: Dtype, b: nat): (r: nat)
    requires Word(t, b)
    ensures Word(t, r)
  {
    if b < Half(t) then b + Half(t) else b - Half(t)
  }

  function Low(t: Dtype, b: nat): nat
    requires IsFloat(t)
  {
    if t.F16? then b % 0x400 else if t.F32? then b % 0x80_0000 else b % 0x10_0000_0000_0000
  }

  // nodata_is_nan: the exponent field all ones and a fraction.
  predicate IsNan(t: Dtype, b: nat)
    requires Word(t, b)
  {
    IsFloat(t) && Mag(t, b) - Low(t, Mag(t, b)) == Exp(t) && Low(t, Mag(t, b)) != 0
  }

  /** Every NaN lies beyond infinity in bit order, and nothing else does. */
  lemma NanBeyond(t: Dtype, b: nat)
    requires IsFloat(t) && Word(t, b)
    ensures IsNan(t, b) <==> Mag(t, b) > Exp(t)
  {
  }

  /** The order of the elements: the value of an integer; for a float the place of
      its bits, which is its order, the two zeros being equal. */
  function Key(t: Dtype, b: nat): int
    requires Word(t, b)
  {
    if IsSigned(t) then (if b < Half(t) then b else b as int - 2 * Half(t))
    else if IsFloat(t) then (if b < Half(t) then b else Half(t) - b as int)
    else b
  }

  predicate Number(t: Dtype, b: nat) {
    Word(t, b) && !IsNan(t, b)
  }

  // ---------- the neighbours ----------

  function Up(t: Dtype, s: nat): nat
    requires Word(t, s)
  {
    if !IsFloat(t) then
      var top := if IsSigned(t) then Half(t) - 1 else 2 * Half(t) - 1;
      if s != top then All(t, s + 1) else s
    else if Mag(t, s) == 0 then 1
    else if s >= Half(t) then s - 1
    else if Mag(t, s) != Exp(t) then s + 1
    else s
  }

  function Down(t: Dtype, s: nat): nat
    requires Word(t, s)
  {
    if !IsFloat(t) then
      var bottom := if IsSigned(t) then Half(t) else 0;
      if s != bottom then All(t, s + 2 * Half(t) - 1) else s
    else if Mag(t, s) == 0 then Half(t) + 1
    else if s >= Half(t) then (if Mag(t, s) != Exp(t) then s + 1 else s)
    else s - 1
  }

  function Other(t: Dtype, s: nat): nat
    requires Word(t, s)
  {
    if IsFloat(t) && Mag(t, s) == 0 then FlipTop(t, s) else s
  }

  // r is the least number above s, or s when there is none above.
  ghost predicate LeastAbove(t: Dtype, s: nat, r: nat)
    requires Word(t, s)
  {
    && Number(t, r)
    && (if r == s then forall b :: Number(t, b) ==> Key(t, b) <= Key(t, s)
        else Key(t, s) < Key(t, r) && forall b :: Number(t, b) && Key(t, s) < Key(t, b) ==> Key(t, r) <= Key(t, b))
  }

  ghost predicate GreatestBelow(t: Dtype, s: nat, r: nat)
    requires Word(t, s)
  {
    && Number(t, r)
    && (if r == s then forall b :: Number(t, b) ==> Key(t, s) <= Key(t, b)
        else Key(t, r) < Key(t, s) && forall b :: Number(t, b) && Key(t, b) < Key(t, s) ==> Key(t, b) <= Key(t, r))
  }

  lemma UpIs(t: Dtype, s: nat)
    requires Number(t, s)
    ensures Up(t, s) == if !IsFloat(t) then
                          (if s == (if IsSigned(t) then Half(t) - 1 else 2 * Half(t) - 1) then s
                           else if s == 2 * Half(t) - 1 then 0 else s + 1)
                        else if Mag(t, s) == 0 then 1
                        else if s >= Half(t) then s - 1 else if s == Exp(t) then s else s + 1
  {
    hide Half, All, FracSize;
    NumberIs(t, s);
    AllIs(t, s + 1);
  }

  lemma DownIs(t: Dtype, s: nat)
    requires Number(t, s)
    ensures Down(t, s) == if !IsFloat(t) then
                            (if s == (if IsSigned(t) then Half(t) else 0) then s
                             else if s == 0 then 2 * Half(t) - 1 else s - 1)
                          else if Mag(t, s) == 0 then Half(t) + 1
                          else if s >= Half(t) then (if Mag(t, s) == Exp(t) then s else s + 1) else s - 1
  {
    hide Half, All, FracSize;
    NumberIs(t, s);
    AllIs(t, s + 2 * Half(t) - 1);
  }

  lemma NumberIs(t: Dtype, b: nat)
    ensures Number(t, b) <==> Word(t, b) && (IsFloat(t) ==> Mag(t, b) <= Exp(t))
  {
    if Word(t, b) && IsFloat(t) {
      NanBeyond(t, b);
    }
  }

  lemma AllNumbers(t: Dtype)
    ensures forall b :: Number(t, b) <==> Word(t, b) && (IsFloat(t) ==> Mag(t, b) <= Exp(t))
  {
    forall b
      ensures Number(t, b) <==> Word(t, b) && (IsFloat(t) ==> Mag(t, b) <= Exp(t))
    {
      NumberIs(t, b);
    }
  }

  /** The first replacement is the next value above the sentinel, when there is
      one, for every type; on floats this is nextUp of section 5.3.1 of IEEE
      754-2019, minus zero coming after the largest negative value. */
  lemma UpIsNext(t: Dtype, s: nat)
    requires Number(t, s)
    ensures LeastAbove(t, s, Up(t, s))
    ensures IsFloat(t) && s == Half(t) + 1 ==> Up(t, s) == Half(t)
  {
    hide Number, Half, Up, FracSize;
    UpIs(t, s);
    AllNumbers(t);
  }

  /** The second is the next value below, and nextDown on floats. */
  lemma DownIsNext(t: Dtype, s: nat)
    requires Number(t, s)
    ensures GreatestBelow(t, s, Down(t, s))
    ensures IsFloat(t) && s == 1 ==> Down(t, s) == 0
  {
    hide Number, Half, Down, FracSize;
    DownIs(t, s);
    AllNumbers(t);
  }

  /** The third is the other zero of a float, which has the same value. */
  lemma OtherIsZero(t: Dtype, s: nat)
    requires Number(t, s)
    ensures Number(t, Other(t, s)) && Key(t, Other(t, s)) == Key(t, s)
    ensures Other(t, s) != s <==> exists b: nat :: b != s && Number(t, b) && Key(t, b) == Key(t, s)
    ensures forall b: nat :: b != s && Number(t, b) && Key(t, b) == Key(t, s) ==> b == Other(t, s)
  {
    hide IsNan, Key, Half, FracSize, Other;
    OtherNumber(t, s);
    forall b: nat | b != s && Number(t, b)
      ensures Key(t, b) == Key(t, s) <==> Other(t, s) != s && b == Other(t, s)
    {
      SameKey(t, s, b);
    }
  }

  lemma OtherNumber(t: Dtype, s: nat)
    requires Number(t, s)
    ensures Number(t, Other(t, s))
  {
    hide Number, Half, FracSize;
    NumberIs(t, s);
    NumberIs(t, Other(t, s));
  }

  // Different bits have one key only as the two zeros of a float.
  lemma SameKey(t: Dtype, s: nat, b: nat)
    requires Number(t, s) && Number(t, b) && b != s
    ensures Key(t, b) == Key(t, s) <==> Other(t, s) != s && b == Other(t, s)
    ensures Key(t, b) == Key(t, s) ==> IsFloat(t)
  {
    hide Half, FracSize;
  }

  /** nodata_guard_values. */
  method GuardValues(repl: array<nat>, code: int, pattern: nat) returns (rc: nat)
    requires repl.Length == 3 && pattern < WORD64
    modifies repl
    ensures rc == match DtypeOf(code)
                  case None => 1
                  case Some(t) => if IsNan(t, All(t, pattern)) then 2 else 0
    ensures DtypeOf(code).None? ==> repl[..] == [pattern, pattern, pattern]
    ensures DtypeOf(code).Some? ==>
      var t := DtypeOf(code).value;
      var s := All(t, pattern);
      Word(t, s) && repl[..] == if rc == 2 then [s, s, s] else [Up(t, s), Down(t, s), Other(t, s)]
  {
    if DtypeOf(code).None? {
      repl[0], repl[1], repl[2] := pattern, pattern, pattern;
      return 1;
    }
    var t := DtypeOf(code).value;
    hide Half, FracSize, DtypeOf, IsNan, All;
    var s := All(t, pattern);
    repl[0], repl[1], repl[2] := s, s, s;
    if !IsFloat(t) {
      NotNan(t, s);
      var top := if IsSigned(t) then Half(t) - 1 else 2 * Half(t) - 1;
      var bottom := if IsSigned(t) then Half(t) else 0;
      if s != top {
        repl[0] := All(t, s + 1);
      }
      if s != bottom {
        repl[1] := All(t, s + 2 * Half(t) - 1);
      }
      return 0;
    }
    if IsNan(t, s) {
      return 2;
    }
    var mag := Mag(t, s);
    if mag == 0 {
      repl[0], repl[1], repl[2] := 1, Half(t) + 1, FlipTop(t, s);
    } else if s >= Half(t) {
      repl[0] := s - 1;
      if mag != Exp(t) {
        repl[1] := s + 1;
      }
    } else {
      if mag != Exp(t) {
        repl[0] := s + 1;
      }
      repl[1] := s - 1;
    }
    rc := 0;
  }

  lemma NotNan(t: Dtype, s: nat)
    requires Word(t, s) && !IsFloat(t)
    ensures !IsNan(t, s)
  {
  }

  // ---------- the mask ----------

  // The error of the stages after this node; Unbounded covers infinity and NaN.
  datatype Radius = Unbounded | Finite(r: real)

  predicate Every(radius: Radius) {
    radius.Unbounded? || radius.r < 0.0
  }

  // 2^-40 more, so that rounding cannot leave a reachable value out.
  function Widened(r: real): (w: real)
    requires 0.0 <= r
    ensures r <= w && (w == 0.0 <==> r == 0.0)
  {
    r + r / 1099511627776.0
  }

  function Threshold(radius: Radius): nat {
    if Every(radius) || Widened(radius.r) >= WORD64 as real then WORD64 - 1 else Widened(radius.r).Floor
  }

  /** Whole distances within the radius are within the threshold, for every
      distance an element has. */
  lemma ThresholdCovers(radius: Radius, d: nat)
    requires d < WORD64 && (Every(radius) || d as real <= radius.r)
    ensures d <= Threshold(radius)
  {
  }

  function Distance(t: Dtype, a: nat, b: nat): nat
    requires Word(t, a) && Word(t, b)
  {
    if Key(t, a) < Key(t, b) then Key(t, b) - Key(t, a) else Key(t, a) - Key(t, b)
  }

  /** Near by double arithmetic, which is not part of this model. */
  type Near = nat -> bool

  function Default(t: Dtype, s: nat): nat
    requires Word(t, s)
  {
    if Up(t, s) != s then ABOVE else BELOW
  }

  predicate FloatZero(t: Dtype, s: nat)
    requires Word(t, s)
  {
    IsFloat(t) && Mag(t, s) == 0
  }

  // With a radius of zero only the other signed zero needs a code of its own.
  predicate Constant(t: Dtype, s: nat, radius: Radius)
    requires Word(t, s)
  {
    !Every(radius) && Widened(radius.r) == 0.0 && !FloatZero(t, s)
  }

  function MinThreshold(t: Dtype, radius: Radius): nat {
    if Threshold(radius) >= 2 * Half(t) - 1 then 2 * Half(t) - 1 else Threshold(radius)
  }

  /** The code of one sample. */
  function CodeOf(t: Dtype, s: nat, b: nat, radius: Radius, near: Near): nat
    requires Word(t, s) && Word(t, b)
  {
    if b == s then INVALID
    else if Constant(t, s, radius) then Default(t, s)
    else if IsFloat(t) then
      if IsNan(t, b) then Default(t, s)
      else if Key(t, b) == Key(t, s) then OTHER_ZERO
      else if near(b) then (if Key(t, b) > Key(t, s) then ABOVE else BELOW)
      else Default(t, s)
    else if Distance(t, b, s) <= MinThreshold(t, radius) then (if Key(t, b) > Key(t, s) then ABOVE else BELOW)
    else Default(t, s)
  }

  function ReplacementFor(t: Dtype, s: nat, code: nat): nat
    requires Word(t, s)
  {
    if code == ABOVE then Up(t, s) else if code == BELOW then Down(t, s) else if code == OTHER_ZERO then Other(t, s)
      else s
  }

  // The sample whose distance the guard takes to be within the radius.
  predicate Reachable(t: Dtype, s: nat, b: nat, radius: Radius, near: Near)
    requires Word(t, s) && Word(t, b)
  {
    if IsFloat(t) then !IsNan(t, b) && ((near(b) && !Constant(t, s, radius)) || Key(t, b) == Key(t, s))
    else Every(radius) || Distance(t, b, s) as real <= radius.r
  }

  lemma SomeNeighbour(t: Dtype, s: nat)
    requires Number(t, s)
    ensures Up(t, s) != s || Down(t, s) != s
  {
    hide Half, FracSize, Number;
    UpIs(t, s);
    DownIs(t, s);
  }

  /** A code is 0 exactly on the sentinel, and never asks for a replacement the
      type does not have. */
  lemma CodeServes(t: Dtype, s: nat, b: nat, radius: Radius, near: Near)
    requires Number(t, s) && Word(t, b)
    ensures CodeOf(t, s, b, radius, near) <= OTHER_ZERO
    ensures CodeOf(t, s, b, radius, near) == INVALID <==> b == s
    ensures b != s ==> ReplacementFor(t, s, CodeOf(t, s, b, radius, near)) != s
  {
    hide Half, FracSize, Up, Down, Other, Key, IsNan, Threshold;
    SomeNeighbour(t, s);
    if b != s && CodeOf(t, s, b, radius, near) != Default(t, s) {
      OwnSide(t, s, b, radius, near);
    }
  }

  // A code that is not the default names the sample's own side.
  lemma OwnSide(t: Dtype, s: nat, b: nat, radius: Radius, near: Near)
    requires Number(t, s) && Word(t, b) && b != s && CodeOf(t, s, b, radius, near) != Default(t, s)
    ensures ReplacementFor(t, s, CodeOf(t, s, b, radius, near)) != s
  {
    hide Half, FracSize, Up, Down, Other, Threshold, LeastAbove, GreatestBelow, IsNan, Key;
    UpIsNext(t, s);
    DownIsNext(t, s);
    OtherIsZero(t, s);
    if CodeOf(t, s, b, radius, near) == ABOVE {
      assert Number(t, b) by { CodedNumber(t, s, b, radius, near); }
      NothingAbove(t, s, Up(t, s), b);
    } else if CodeOf(t, s, b, radius, near) == BELOW {
      assert Number(t, b) by { CodedNumber(t, s, b, radius, near); }
      SameKey(t, s, b);
      NothingBelow(t, s, Down(t, s), b);
    } else {
      assert Number(t, b) by { CodedNumber(t, s, b, radius, near); }
    }
  }

  lemma CodedNumber(t: Dtype, s: nat, b: nat, radius: Radius, near: Near)
    requires Word(t, s) && Word(t, b) && b != s && CodeOf(t, s, b, radius, near) != Default(t, s)
    ensures Number(t, b)
  {
    hide Up, Key, Threshold;
  }

  lemma NothingAbove(t: Dtype, s: nat, r: nat, b: nat)
    requires Word(t, s) && LeastAbove(t, s, r) && Number(t, b) && Key(t, s) < Key(t, b)
    ensures r != s && Key(t, s) < Key(t, r) <= Key(t, b)
  {
    hide Key;
  }

  lemma NothingBelow(t: Dtype, s: nat, r: nat, b: nat)
    requires Word(t, s) && GreatestBelow(t, s, r) && Number(t, b) && Key(t, b) < Key(t, s)
    ensures r != s && Key(t, b) <= Key(t, r) < Key(t, s)
  {
    hide Key;
  }

  /** A sample within the radius is replaced by a value strictly nearer to it than
      the sentinel, on its own side, or by itself. */
  lemma ReplacementNearer(t: Dtype, s: nat, b: nat, radius: Radius, near: Near)
    requires Number(t, s) && Number(t, b) && b != s
    requires Reachable(t, s, b, radius, near)
    ensures var r := ReplacementFor(t, s, CodeOf(t, s, b, radius, near));
      && Number(t, r)
      && (Key(t, b) > Key(t, s) ==> Key(t, s) < Key(t, r) <= Key(t, b))
      && (Key(t, b) < Key(t, s) ==> Key(t, b) <= Key(t, r) < Key(t, s))
      && (Key(t, b) == Key(t, s) ==> r == b)
  {
    hide Half, FracSize, Up, Down, Other, Threshold, LeastAbove, GreatestBelow, Key, IsNan, CodeOf, Reachable;
    UpIsNext(t, s);
    DownIsNext(t, s);
    OtherIsZero(t, s);
    NumberNotNan(t, b);
    ReachableCode(t, s, b, radius, near);
    LeastNumber(t, s);
    if Key(t, b) > Key(t, s) {
      NothingAbove(t, s, Up(t, s), b);
    } else if Key(t, b) < Key(t, s) {
      NothingBelow(t, s, Down(t, s), b);
    }
  }

  lemma NumberNotNan(t: Dtype, b: nat)
    requires Number(t, b)
    ensures Word(t, b) && !IsNan(t, b)
  {
  }

  lemma LeastNumber(t: Dtype, s: nat)
    requires Word(t, s)
    ensures forall r :: LeastAbove(t, s, r) ==> Number(t, r)
    ensures forall r :: GreatestBelow(t, s, r) ==> Number(t, r)
  {
    hide Number, Key;
  }

  lemma ReachableCode(t: Dtype, s: nat, b: nat, radius: Radius, near: Near)
    requires Number(t, s) && Number(t, b) && b != s && Reachable(t, s, b, radius, near)
    ensures CodeOf(t, s, b, radius, near)
         == if Key(t, b) > Key(t, s) then ABOVE else if Key(t, b) < Key(t, s) then BELOW else OTHER_ZERO
  {
  }

  // What the mask holds after marking.
  predicate Coded(mask: seq<nat>, src: seq<nat>, t: Dtype, s: nat, radius: Radius, near: Near)
    requires Word(t, s) && forall i :: 0 <= i < |src| ==> Word(t, src[i])
  {
    |mask| == |src| && forall i :: 0 <= i < |src| ==> mask[i] == CodeOf(t, s, src[i], radius, near)
  }

  // The plain mask of one pattern.
  predicate Plain(mask: seq<nat>, src: seq<nat>, pattern: nat) {
    |mask| == |src| && forall i :: 0 <= i < |src| ==> mask[i] == if src[i] == pattern then INVALID else VALID
  }

  method MarkValue(mask: array<nat>, src: seq<nat>, pattern: nat)
    requires mask.Length == |src|
    modifies mask
    ensures Plain(mask[..], src, pattern)
  {
    for i := 0 to |src|
      invariant forall k :: 0 <= k < i ==> mask[k] == if src[k] == pattern then INVALID else VALID
    {
      mask[i] := if src[i] == pattern then INVALID else VALID;
    }
  }

  // NODATA_MARK_GUARDED_INT: flipping the top bit of a signed element makes the
  // unsigned order its own.
  function OrderKey(t: Dtype, b: nat): (k: nat)
    requires Word(t, b) && !IsFloat(t)
    ensures k < 2 * Half(t)
  {
    if IsSigned(t) then FlipTop(t, b) else b
  }

  lemma OrderKeyIs(t: Dtype, a: nat, b: nat)
    requires Word(t, a) && Word(t, b) && !IsFloat(t)
    ensures OrderKey(t, a) as int - OrderKey(t, b) == Key(t, a) - Key(t, b)
  {
  }

  method MarkInts(mask: array<nat>, src: seq<nat>, t: Dtype, s: nat, radius: Radius, ghost near: Near)
    requires !IsFloat(t) && Word(t, s) && mask.Length == |src| && forall i :: 0 <= i < |src| ==> Word(t, src[i])
    requires !Constant(t, s, radius)
    modifies mask
    ensures Coded(mask[..], src, t, s, radius, near)
  {
    hide Half, Key, OrderKey, Threshold, Constant, Up;
    var def := Default(t, s);
    var ks := OrderKey(t, s);
    var thr := MinThreshold(t, radius);
    for i := 0 to |src|
      invariant forall k :: 0 <= k < i ==> mask[k] == CodeOf(t, s, src[k], radius, near)
    {
      var b := src[i];
      var kb := OrderKey(t, b);
      OrderKeyIs(t, b, s);
      var above := kb > ks;
      var d := if above then kb - ks else ks - kb;
      var m := if d <= thr then (if above then ABOVE else BELOW) else def;
      mask[i] := if b == s then INVALID else m;
    }
  }

  // NODATA_MARK_GUARDED_FLOAT, comparing the values by their place in bit order;
  // a NaN is neither above nor below and lies beyond infinity.
  method MarkFloats(mask: array<nat>, src: seq<nat>, t: Dtype, s: nat, radius: Radius, near: Near)
    requires IsFloat(t) && Number(t, s) && mask.Length == |src| && forall i :: 0 <= i < |src| ==> Word(t, src[i])
    requires !Constant(t, s, radius)
    modifies mask
    ensures Coded(mask[..], src, t, s, radius, near)
  {
    hide Half, Key, Constant, Up, FracSize, IsNan;
    var def := Default(t, s);
    for i := 0 to |src|
      invariant forall k :: 0 <= k < i ==> mask[k] == CodeOf(t, s, src[k], radius, near)
    {
      var b := src[i];
      NanBeyond(t, b);
      var nan := Mag(t, b) > Exp(t);
      var above := !nan && Key(t, b) > Key(t, s);
      var below := !nan && Key(t, b) < Key(t, s);
      var m := if near(b) then (if above then ABOVE else BELOW) else def;
      m := if above || below then m else OTHER_ZERO;
      m := if nan then def else m;
      mask[i] := if b == s then INVALID else m;
    }
  }

  method MarkConstant(mask: array<nat>, src: seq<nat>, t: Dtype, s: nat, radius: Radius, ghost near: Near)
    requires Word(t, s) && mask.Length == |src| && forall i :: 0 <= i < |src| ==> Word(t, src[i])
    requires Constant(t, s, radius)
    modifies mask
    ensures Coded(mask[..], src, t, s, radius, near)
  {
    hide Half, Key, Threshold, Up, Constant;
    var def := Default(t, s);
    for i := 0 to |src|
      invariant forall k :: 0 <= k < i ==> mask[k] == CodeOf(t, s, src[k], radius, near)
    {
      mask[i] := if src[i] == s then INVALID else def;
    }
  }

  /** nodata_mark_guarded: 1 and an all-valid mask for an unknown type, 2 and the
      plain mask for a NaN sentinel, else 0 and every sample's code. */
  method MarkGuarded(mask: array<nat>, src: seq<nat>, code: int, pattern: nat, radius: Radius, near: Near)
    returns (rc: nat)
    requires pattern < WORD64 && mask.Length == |src|
    requires DtypeOf(code).Some? ==> forall i :: 0 <= i < |src| ==> Word(DtypeOf(code).value, src[i])
    modifies mask
    ensures rc == match DtypeOf(code)
                  case None => 1
                  case Some(t) => if IsNan(t, All(t, pattern)) then 2 else 0
    ensures rc == 1 ==> forall i :: 0 <= i < |src| ==> mask[i] == VALID
    ensures rc == 2 ==> Plain(mask[..], src, All(DtypeOf(code).value, pattern))
    ensures rc == 0 ==> Coded(mask[..], src, DtypeOf(code).value, All(DtypeOf(code).value, pattern), radius, near)
  {
    hide Half, Constant, Coded, Plain, DtypeOf, IsNan, All;
    var repl := new nat[3];
    rc := GuardValues(repl, code, pattern);
    if rc == 1 {
      for i := 0 to |src|
        invariant forall k :: 0 <= k < i ==> mask[k] == VALID
      {
        mask[i] := VALID;
      }
      return;
    }
    var t := DtypeOf(code).value;
    var s := All(t, pattern);
    if rc == 2 {
      MarkValue(mask, src, s);
    } else if Constant(t, s, radius) {
      MarkConstant(mask, src, t, s, radius, near);
    } else if IsFloat(t) {
      MarkFloats(mask, src, t, s, radius, near);
    } else {
      MarkInts(mask, src, t, s, radius, near);
    }
  }
}
