/** How far from the sentinel a lossy stage may rebuild a sample as the sentinel
    (core/src/lossy/lossy_recipe.c), over the reals. */
module GuardRadius {
  import opened NoDataGuard

  // None stands for an infinity or a NaN.
  datatype Double = NonFinite | Real(r: real)

  datatype Recipe =
    | Lossless
    | Linear(maxError: Double)
    | Log(relErr: Double)
    | Sqrt(haveAb: bool, a: real, b: real, k: real)

  function Abs(x: real): (r: real)
    ensures 0.0 <= r
  {
    if x < 0.0 then -x else x
  }

  /** The square root, as far as this model knows it. */
  type Root = real -> real

  ghost predicate IsRoot(root: Root) {
    forall d: real :: 0.0 <= d ==> 0.0 <= root(d) && root(d) * root(d) == d
  }

  function Times(a: real, b: real): (c: real)
    ensures 0.0 < a && 0.0 < b ==> 0.0 < c
  {
    a * b
  }

  function Square(k: real): (q: real)
    ensures 0.0 < k ==> 0.0 < q
  {
    Times(k, k)
  }

  // Of t * t = k2 * (a + b * (s + t)), for k2 the square of k.
  function Discriminant(a: real, b: real, k2: real, s: real): real {
    k2 * k2 * b * b + 4.0 * k2 * (a + b * s)
  }

  // The farther root of |x - s| <= p * |x|.
  function Farther(p: real, s: real): real
    requires p < 1.0
  {
    p * Abs(s) / (1.0 - p)
  }

  /** geozl_lossy_guard_radius */
  function GuardRadius(recipe: Recipe, s: Double, root: Root): Radius {
    match recipe
    case Lossless => Finite(0.0)
    case Linear(maxError) => if maxError.Real? && maxError.r >= 0.0 then Finite(maxError.r) else Unbounded
    case Log(relErr) =>
      if !(relErr.Real? && 0.0 < relErr.r && relErr.r < 1.0) || s.NonFinite? then Unbounded
      else Finite(Farther(relErr.r, s.r))
    case Sqrt(haveAb, a, b, k) =>
      if !haveAb || s.NonFinite? || !(b > 0.0) || !(k > 0.0) then Unbounded
      else
        var k2 := Square(k);
        var disc := Discriminant(a, b, k2, s.r);
        if disc < 0.0 then Finite(0.0) else Finite(0.5 * (k2 * b + root(disc)))
  }

  /** The recipe's bound at x lets s stand for x. */
  predicate Admits(recipe: Recipe, x: real, s: real) {
    match recipe
    case Lossless => x == s
    case Linear(maxError) => maxError.Real? ==> Abs(x - s) <= maxError.r
    case Log(relErr) => relErr.Real? ==> Abs(x - s) <= relErr.r * Abs(x)
    case Sqrt(_, a, b, k) => SqrtAdmits(a, b, Square(k), x, s)
  }

  predicate SqrtAdmits(a: real, b: real, k2: real, x: real, s: real) {
    (x - s) * (x - s) <= k2 * (a + b * x)
  }

  lemma SquareBelow(y: real, r: real)
    requires 0.0 <= r && y * y <= r * r
    ensures -r <= y <= r
  {
    if y > r {
      SquareAbove(y, r);
    } else if y < -r {
      SquareAbove(-y, r);
    }
  }

  lemma SquareAbove(y: real, r: real)
    requires 0.0 <= r < y
    ensures y * y > r * r
  {
    assert y * y - r * r == (y - r) * (y + r);
    Positive(y - r, y + r);
  }

  lemma Positive(a: real, b: real)
    requires 0.0 < a && 0.0 < b
    ensures 0.0 < a * b
  {
  }

  // 2t - c squared, for the quadratic t * t <= c * t + e.
  lemma Completed(t: real, c: real, e: real)
    ensures (2.0 * t - c) * (2.0 * t - c) == 4.0 * (t * t - c * t - e) + (c * c + 4.0 * e)
  {
  }

  // With c = k2 * b and e = k2 * (a + b * s), at x = s + t.
  lemma SqrtTerms(a: real, b: real, k2: real, s: real, t: real)
    ensures k2 * (a + b * (s + t)) == k2 * b * t + k2 * (a + b * s)
    ensures Discriminant(a, b, k2, s) == (k2 * b) * (k2 * b) + 4.0 * (k2 * (a + b * s))
  {
    assert k2 * (a + b * (s + t)) == k2 * (a + b * s) + k2 * (b * t);
    Regroup(k2, b, t);
    Regroup4(k2, b);
  }

  lemma Regroup(a: real, b: real, c: real)
    ensures a * (b * c) == a * b * c
  {
  }

  lemma Regroup4(q: real, b: real)
    ensures q * q * b * b == (q * b) * (q * b)
  {
  }

  /** Below zero the discriminant leaves no sample that could come back as s. */
  lemma NoneReaches(a: real, b: real, k2: real, s: real, x: real)
    requires Discriminant(a, b, k2, s) < 0.0
    ensures !SqrtAdmits(a, b, k2, x, s)
  {
    hide Discriminant;
    var t, c, e := x - s, k2 * b, k2 * (a + b * s);
    SqrtTerms(a, b, k2, s, t);
    Completed(t, c, e);
    assert s + t == x;
    SquareNotNegative(2.0 * t - c);
  }

  lemma SquareNotNegative(y: real)
    ensures 0.0 <= y * y
  {
    if y < 0.0 {
      Positive(-y, -y);
    } else if y > 0.0 {
      Positive(y, y);
    }
  }

  lemma SqrtSound(a: real, b: real, k2: real, s: real, x: real, r: real)
    requires 0.0 < b && 0.0 < k2
    requires 0.0 <= r && r * r == Discriminant(a, b, k2, s)
    requires SqrtAdmits(a, b, k2, x, s)
    ensures Abs(x - s) <= 0.5 * (k2 * b + r)
  {
    hide Discriminant;
    var t, c, e := x - s, k2 * b, k2 * (a + b * s);
    SqrtTerms(a, b, k2, s, t);
    Completed(t, c, e);
    assert s + t == x;
    SquareBelow(2.0 * t - c, r);
    Positive(k2, b);
  }

  lemma LogSound(p: real, s: real, x: real)
    requires 0.0 < p < 1.0 && Abs(x - s) <= p * Abs(x)
    ensures Abs(x - s) <= Farther(p, s)
  {
    var d := Abs(x - s);
    assert Abs(x) <= Abs(s) + d;
    Scaled(p, Abs(x), Abs(s) + d);
    assert d <= p * Abs(s) + p * d;
    assert d * (1.0 - p) <= p * Abs(s);
    Quotient(d, 1.0 - p, p * Abs(s));
  }

  lemma Scaled(p: real, a: real, b: real)
    requires 0.0 < p && a <= b
    ensures p * a <= p * b
  {
  }

  lemma Quotient(d: real, q: real, n: real)
    requires 0.0 < q && d * q <= n
    ensures d <= n / q
  {
    var m := n / q;
    assert m * q == n;
    if d > m {
      Positive(d - m, q);
    }
  }

  /** Soundness, for every recipe: whatever the bound lets come back as s lies
      within the radius of s. */
  lemma RadiusSound(recipe: Recipe, x: real, s: real, root: Root)
    requires IsRoot(root) && Admits(recipe, x, s)
    ensures GuardRadius(recipe, Real(s), root).Finite? ==> Abs(x - s) <= GuardRadius(recipe, Real(s), root).r
  {
    hide Abs, Discriminant, Square, SqrtAdmits, Farther;
    match recipe
    case Lossless => assert Abs(x - s) == 0.0 by { AbsZero(x - s); }
    case Linear(_) =>
    case Log(relErr) =>
      if relErr.Real? && 0.0 < relErr.r < 1.0 {
        LogSound(relErr.r, s, x);
      }
    case Sqrt(haveAb, a, b, k) =>
      if 0.0 < b && 0.0 < k {
        var disc := Discriminant(a, b, Square(k), s);
        if disc < 0.0 {
          NoneReaches(a, b, Square(k), s, x);
        } else {
          SqrtSound(a, b, Square(k), s, x, root(disc));
        }
      }
  }

  lemma AbsZero(y: real)
    requires y == 0.0
    ensures Abs(y) == 0.0
  {
  }

  // A sample as far from s as the radius that the recipe may rebuild as s.
  function Farthest(recipe: Recipe, s: real, radius: real): real {
    match recipe
    case Log(relErr) => if s < 0.0 then s - radius else s + radius
    case _ => s + radius
  }

  lemma LogTight(p: real, s: real, root: Root)
    requires GuardRadius(Log(Real(p)), Real(s), root).Finite?
    ensures var r := GuardRadius(Log(Real(p)), Real(s), root).r;
      && 0.0 <= r
      && Admits(Log(Real(p)), Farthest(Log(Real(p)), s, r), s)
      && Abs(Farthest(Log(Real(p)), s, r) - s) == r
  {
    hide Abs, Farther;
    LogReaches(p, s, Farther(p, s));
  }

  lemma LogReaches(p: real, s: real, r: real)
    requires 0.0 < p < 1.0 && r == Farther(p, s)
    ensures 0.0 <= r
    ensures var x := if s < 0.0 then s - r else s + r;
      Abs(x - s) == r && Abs(x - s) <= p * Abs(x)
  {
    assert r * (1.0 - p) == p * Abs(s);
    assert 0.0 <= r by { NotNegative(p * Abs(s), 1.0 - p, p, Abs(s)); }
    var x := if s < 0.0 then s - r else s + r;
    assert Abs(x) == Abs(s) + r;
    assert p * (Abs(s) + r) == p * Abs(s) + p * r;
  }

  lemma NotNegative(n: real, q: real, p: real, a: real)
    requires 0.0 < q && 0.0 < p && 0.0 <= a && n == p * a
    ensures 0.0 <= n / q
  {
    var m := n / q;
    assert m * q == n;
    if m < 0.0 {
      Positive(0.0 - m, q);
    }
  }

  lemma SqrtReaches(a: real, b: real, k2: real, s: real, r: real)
    requires 0.0 < b && 0.0 < k2 && 0.0 <= r && r * r == Discriminant(a, b, k2, s)
    ensures var t := 0.5 * (k2 * b + r);
      0.0 < t && SqrtAdmits(a, b, k2, s + t, s)
  {
    hide Discriminant;
    var c, e := k2 * b, k2 * (a + b * s);
    var t := 0.5 * (c + r);
    Positive(k2, b);
    SqrtTerms(a, b, k2, s, t);
    Completed(t, c, e);
    assert 2.0 * t - c == r;
    assert s + t - s == t;
  }

  /** Tightness: unless no sample can come back as s at all, some sample at
      exactly the radius can, so no smaller radius would do. */
  lemma RadiusTight(recipe: Recipe, s: real, root: Root)
    requires IsRoot(root) && GuardRadius(recipe, Real(s), root).Finite?
    ensures var r := GuardRadius(recipe, Real(s), root).r;
      && 0.0 <= r
      && ((recipe.Sqrt? && Discriminant(recipe.a, recipe.b, Square(recipe.k), s) < 0.0) ||
          (Admits(recipe, Farthest(recipe, s, r), s) && Abs(Farthest(recipe, s, r) - s) == r))
  {
    hide Discriminant, Square, SqrtAdmits, Farther;
    match recipe
    case Lossless =>
    case Linear(_) =>
    case Log(relErr) =>
      assert recipe == Log(Real(relErr.r));
      LogTight(relErr.r, s, root);
    case Sqrt(_, a, b, k) =>
      var disc := Discriminant(a, b, Square(k), s);
      if 0.0 <= disc {
        SqrtReaches(a, b, Square(k), s, root(disc));
      }
  }
}
