/** The NoData guard and the lossy stage together: a sample that the bound of the recipe
    lets come back as the sentinel is repaired to a value that keeps the bound. */
module GuardBound {
  import opened Arith
  import opened Words
  import opened NoDataGuard
  import opened GuardRadius
  import opened NoDataRestore

  // The value of an integer element.
  function Value(t: Dtype, b: nat): real
    requires Word(t, b)
  {
    Key(t, b) as real
  }

  /** A value between s and x is no worse a reconstruction of x than s is. */
  lemma NearerAdmitted(recipe: Recipe, x: real, s: real, y: real)
    requires Admits(recipe, x, s) && Abs(x - y) <= Abs(x - s)
    ensures Admits(recipe, x, y)
  {
    match recipe
    case Lossless =>
      assert Abs(x - s) == 0.0;
    case Linear(_) =>
    case Log(_) =>
    case Sqrt(_, a, b, k) =>
      SquareNearer(x - y, x - s);
  }

  lemma SquareNearer(y: real, z: real)
    requires Abs(y) <= Abs(z)
    ensures y * y <= z * z
  {
    SquareOfAbs(y);
    SquareOfAbs(z);
    Product(Abs(y), Abs(z));
  }

  lemma SquareOfAbs(y: real)
    ensures y * y == Abs(y) * Abs(y)
  {
  }

  lemma Product(a: real, b: real)
    requires 0.0 <= a <= b
    ensures a * a <= b * b
  {
    assert b * b - a * a == (b - a) * (b + a);
    if a < b {
      Positive(b - a, b + a);
    }
  }

  lemma DistanceIs(t: Dtype, a: nat, b: nat)
    requires Word(t, a) && Word(t, b)
    ensures Distance(t, a, b) as real == Abs(Value(t, a) - Value(t, b))
  {
    hide Key;
  }

  /** End to end, for every recipe, integer type and sentinel: with the mask written for
      the radius of the recipe, a hole is restored as the sentinel, a sample is not, and a
      sample that decoded within the bound of the recipe is restored within it. */
  lemma BoundKept(t: Dtype, recipe: Recipe, s: nat, b: nat, v: nat, root: Root, near: Near)
    requires !IsFloat(t) && Word(t, s) && Word(t, b) && Word(t, v) && IsRoot(root)
    requires b != s ==> Admits(recipe, Value(t, b), Value(t, v))
    ensures var radius := GuardRadius.GuardRadius(recipe, Real(Value(t, s)), root);
      var r := Guarded(v, CodeOf(t, s, b, radius, near), s, Repl(t, s));
      && Word(t, r) && (r == s <==> b == s)
      && (b != s ==> Admits(recipe, Value(t, b), Value(t, r)))
  {
    hide Key, Half, CodeOf, Guarded, GuardRadius.GuardRadius, Admits, Distance, Up, Down, Other;
    var radius := GuardRadius.GuardRadius(recipe, Real(Value(t, s)), root);
    var r := Guarded(v, CodeOf(t, s, b, radius, near), s, Repl(t, s));
    IntNumber(t, s);
    CodeServes(t, s, b, radius, near);
    GuardedIs(t, s, v, CodeOf(t, s, b, radius, near));
    if b != s && v == s {
      RadiusSound(recipe, Value(t, b), Value(t, s), root);
      DistanceIs(t, b, s);
      RadiusKept(t, s, b, v, radius, near);
      DistanceIs(t, b, r);
      NearerAdmitted(recipe, Value(t, b), Value(t, s), Value(t, r));
    }
  }

  // ---------- floats ----------

  predicate FiniteFloat(t: Dtype, b: nat) {
    IsFloat(t) && Word(t, b) && Mag(t, b) < Exp(t)
  }

  // The magnitude m in units of the least subnormal number: below the first exponent the
  // bits themselves, then a leading one and the fraction, shifted by the exponent.
  function Scaled(F: nat, m: nat): nat
    requires F > 0
  {
    if m < F then m else (F + m % F) * Pow2(m / F - 1)
  }

  lemma SameExponent(F: nat, q: nat, r: nat)
    requires r < F
    ensures (q * F + r) / F == q && (q * F + r) % F == r
  {
    DivModUnique(q, F, r);
  }

  lemma ScaledIs(F: nat, q: nat, r: nat)
    requires r < F
    ensures Scaled(F, q * F + r) == if q == 0 then r else (F + r) * Pow2(q - 1)
  {
    SameExponent(F, q, r);
    if q > 0 {
      MulMono(1, q, F);
    }
  }

  lemma ScaledStep(F: nat, m: nat)
    requires F > 0
    ensures Scaled(F, m) < Scaled(F, m + 1)
  {
    hide Scaled;
    var q, r := m / F, m % F;
    DivModParts(m, F);
    ScaledIs(F, q, r);
    if r + 1 < F {
      ScaledIs(F, q, r + 1);
      if q > 0 {
        MulMonoStrict(F + r, F + r + 1, Pow2(q - 1));
      }
    } else {
      NextRow(q, F);
      ScaledIs(F, q + 1, 0);
      NextExponent(F, q, r);
    }
  }

  lemma NextExponent(F: nat, q: nat, r: nat)
    requires r + 1 == F
    ensures (if q == 0 then r else (F + r) * Pow2(q - 1)) < (F + 0) * Pow2(q)
  {
    if q > 0 {
      Shifted(F, r, Pow2(q - 1));
    }
  }

  lemma NextRow(q: nat, F: nat)
    ensures (q + 1) * F + 0 == q * F + F
  {
  }

  // The last fraction of an exponent and the first of the next.
  lemma Shifted(F: nat, r: nat, p: nat)
    requires r + 1 == F && p > 0
    ensures (F + r) * p < F * (2 * p)
  {
    assert F * (2 * p) == (F + F) * p;
    MulMonoStrict(F + r, F + F, p);
  }

  lemma {:induction false} ScaledOrder(F: nat, m: nat, n: nat)
    requires F > 0 && m < n
    ensures Scaled(F, m) < Scaled(F, n)
  {
    hide Scaled;
    ScaledStep(F, n - 1);
    if m < n - 1 {
      ScaledOrder(F, m, n - 1);
    }
  }

  // The least subnormal number.
  function Least(t: Dtype): (u: real)
    requires IsFloat(t)
    ensures u > 0.0
  {
    Halved(if t.F16? then 24 else if t.F32? then 149 else 1074)
  }

  function Halved(n: nat): (u: real)
    ensures u > 0.0
  {
    if n == 0 then 1.0 else Halved(n - 1) / 2.0
  }

  function Signed(t: Dtype, b: nat): int
    requires IsFloat(t) && Word(t, b)
  {
    if b < Half(t) then Scaled(FracSize(t), Mag(t, b)) else 0 - Scaled(FracSize(t), Mag(t, b))
  }

  /** The value of a finite float. */
  function FloatValue(t: Dtype, b: nat): real
    requires IsFloat(t) && Word(t, b)
  {
    Signed(t, b) as real * Least(t)
  }

  lemma ScaledZero(F: nat, m: nat)
    requires F > 0
    ensures Scaled(F, 0) == 0 && (m > 0 ==> Scaled(F, m) > 0)
  {
    if m > 0 {
      ScaledOrder(F, 0, m);
    }
  }

  lemma SignedOrder(t: Dtype, a: nat, b: nat)
    requires IsFloat(t) && Word(t, a) && Word(t, b) && Key(t, a) < Key(t, b)
    ensures Signed(t, a) < Signed(t, b)
  {
    hide Scaled, Half, FracSize;
    var F := FracSize(t);
    ScaledZero(F, Mag(t, a));
    ScaledZero(F, Mag(t, b));
    if Mag(t, a) < Mag(t, b) {
      ScaledOrder(F, Mag(t, a), Mag(t, b));
    } else if Mag(t, b) < Mag(t, a) {
      ScaledOrder(F, Mag(t, b), Mag(t, a));
    }
  }

  lemma SignedSame(t: Dtype, a: nat, b: nat)
    requires IsFloat(t) && Word(t, a) && Word(t, b) && Key(t, a) == Key(t, b)
    ensures Signed(t, a) == Signed(t, b)
  {
    hide Scaled, Half, FracSize;
    ScaledZero(FracSize(t), 0);
  }

  lemma RealOrder(a: int, b: int, u: real)
    requires a < b && u > 0.0
    ensures a as real * u < b as real * u
  {
    Positive((b - a) as real, u);
    assert (b - a) as real * u == b as real * u - a as real * u;
  }

  /** The order of the bits is the order of the values. */
  lemma ValueOrder(t: Dtype, a: nat, b: nat)
    requires IsFloat(t) && Word(t, a) && Word(t, b)
    ensures FloatValue(t, a) < FloatValue(t, b) <==> Key(t, a) < Key(t, b)
    ensures FloatValue(t, a) == FloatValue(t, b) <==> Key(t, a) == Key(t, b)
  {
    hide Key, Signed, Least;
    if Key(t, a) < Key(t, b) {
      SignedOrder(t, a, b);
      RealOrder(Signed(t, a), Signed(t, b), Least(t));
    } else if Key(t, b) < Key(t, a) {
      SignedOrder(t, b, a);
      RealOrder(Signed(t, b), Signed(t, a), Least(t));
    } else {
      SignedSame(t, a, b);
    }
  }

  // The distance test takes every finite float within the radius for near.
  ghost predicate Tells(near: Near, t: Dtype, s: nat, radius: Radius)
    requires IsFloat(t) && Word(t, s)
  {
    forall b :: FiniteFloat(t, b) && (radius.Finite? ==> Abs(FloatValue(t, b) - FloatValue(t, s)) <= radius.r) ==>
      near(b)
  }

  type Rounding = real -> real

  // A rounding that keeps the order, and that r comes through unchanged: every mode of
  // IEEE 754 for a double r, an overflow being any number above r.
  ghost predicate Rounds(round: Rounding, r: real) {
    round(r) == r && forall x: real, y: real :: x <= y ==> round(x) <= round(y)
  }

  // The test compares the rounded distance with r, which the radius was widened to.
  ghost predicate RoundedTest(near: Near, t: Dtype, s: nat, radius: Radius, round: Rounding, r: real)
    requires IsFloat(t) && Word(t, s)
  {
    match radius
    case Unbounded => forall b :: near(b)
    case Finite(exact) =>
      exact <= r && forall b :: FiniteFloat(t, b) ==>
        (near(b) <==> round(Abs(FloatValue(t, b) - FloatValue(t, s))) <= r)
  }

  /** The rounding of the distance hides no float in reach from the test. */
  lemma RoundedTells(near: Near, t: Dtype, s: nat, radius: Radius, round: Rounding, r: real)
    requires IsFloat(t) && Word(t, s) && Rounds(round, r) && RoundedTest(near, t, s, radius, round, r)
    ensures Tells(near, t, s, radius)
  {
    hide FloatValue, FiniteFloat, Abs;
  }

  /** The same for floats: a finite sample that decoded within the bound is restored
      within it, on whatever side of the sentinel it lies, its zeros apart. */
  lemma FloatBoundKept(t: Dtype, recipe: Recipe, s: nat, b: nat, v: nat, root: Root, near: Near)
    requires IsFloat(t) && FiniteFloat(t, s) && FiniteFloat(t, b) && Word(t, v) && IsRoot(root)
    requires Tells(near, t, s, GuardRadius.GuardRadius(recipe, Real(FloatValue(t, s)), root))
    requires b != s ==> Admits(recipe, FloatValue(t, b), FloatValue(t, v))
    ensures var radius := GuardRadius.GuardRadius(recipe, Real(FloatValue(t, s)), root);
      var r := Guarded(v, CodeOf(t, s, b, radius, near), s, Repl(t, s));
      && Word(t, r) && (r == s <==> b == s)
      && (b != s ==> Admits(recipe, FloatValue(t, b), FloatValue(t, r)))
  {
    hide Key, Half, CodeOf, Guarded, GuardRadius.GuardRadius, Admits, Up, Down, Other, FracSize, Signed, FloatValue,
      Least, Mag, IsNan, Constant;
    var radius := GuardRadius.GuardRadius(recipe, Real(FloatValue(t, s)), root);
    var r := Guarded(v, CodeOf(t, s, b, radius, near), s, Repl(t, s));
    FiniteNumber(t, s);
    FiniteNumber(t, b);
    CodeServes(t, s, b, radius, near);
    GuardedIs(t, s, v, CodeOf(t, s, b, radius, near));
    if b != s && v == s {
      RadiusSound(recipe, FloatValue(t, b), FloatValue(t, s), root);
      RadiusAtLeast(recipe, FloatValue(t, s), root);
      InReach(t, s, b, radius, near);
      SideKept(t, s, b, radius, near);
      BetweenNearer(t, s, b, r);
      NearerAdmitted(recipe, FloatValue(t, b), FloatValue(t, s), FloatValue(t, r));
    }
  }

  lemma FiniteNumber(t: Dtype, b: nat)
    requires FiniteFloat(t, b)
    ensures Number(t, b)
  {
    hide Half, FracSize, Mag, Low;
    NanBeyond(t, b);
  }

  lemma RadiusAtLeast(recipe: Recipe, s: real, root: Root)
    requires IsRoot(root)
    ensures GuardRadius.GuardRadius(recipe, Real(s), root).Finite? ==>
      GuardRadius.GuardRadius(recipe, Real(s), root).r >= 0.0
  {
    hide GuardRadius.GuardRadius;
    if GuardRadius.GuardRadius(recipe, Real(s), root).Finite? {
      RadiusTight(recipe, s, root);
    }
  }

  lemma InReach(t: Dtype, s: nat, b: nat, radius: Radius, near: Near)
    requires FiniteFloat(t, s) && FiniteFloat(t, b) && Tells(near, t, s, radius)
    requires radius.Finite? ==> 0.0 <= radius.r && Abs(FloatValue(t, b) - FloatValue(t, s)) <= radius.r
    ensures Reachable(t, s, b, radius, near)
  {
    hide Key, Half, FracSize, Mag, FloatValue, Low;
    NanBeyond(t, b);
    ValueOrder(t, b, s);
  }

  lemma BetweenNearer(t: Dtype, s: nat, b: nat, r: nat)
    requires IsFloat(t) && Word(t, s) && Word(t, b) && Word(t, r)
    requires Key(t, b) > Key(t, s) ==> Key(t, s) < Key(t, r) <= Key(t, b)
    requires Key(t, b) < Key(t, s) ==> Key(t, b) <= Key(t, r) < Key(t, s)
    requires Key(t, b) == Key(t, s) ==> r == b
    ensures Abs(FloatValue(t, b) - FloatValue(t, r)) <= Abs(FloatValue(t, b) - FloatValue(t, s))
  {
    hide Key, FloatValue;
    ValueOrder(t, b, s);
    ValueOrder(t, s, b);
    ValueOrder(t, b, r);
    ValueOrder(t, r, b);
    ValueOrder(t, s, r);
    ValueOrder(t, r, s);
  }
}
