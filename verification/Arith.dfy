/** Non-linear index arithmetic and sequence algebra, one fact to a lemma. */
module Arith {

  lemma MulMono(a: nat, b: nat, c: nat)
    requires a <= b
    ensures a * c <= b * c
  {
  }

  lemma MulMonoStrict(a: nat, b: nat, c: nat)
    requires a < b
    ensures a * c + c <= b * c
  {
    MulMono(a + 1, b, c);
  }

  /** q and r are the quotient and remainder of q * m + r by m. */
  lemma DivModUnique(q: nat, m: nat, r: nat)
    requires r < m
    ensures (q * m + r) / m == q
    ensures (q * m + r) % m == r
  {
    var n := q * m + r;
    var q', r' := n / m, n % m;
    assert n == q' * m + r';
    if q' < q {
      MulMonoStrict(q', q, m);
    } else if q < q' {
      MulMonoStrict(q, q', m);
    }
  }

  lemma DivModParts(n: nat, m: nat)
    requires m > 0
    ensures n == (n / m) * m + n % m
    ensures n % m < m
  {
  }

  /** a * b, by recursion, so that index sums over a variable entry size stay linear
      for the verifier. */
  function Times(a: nat, b: nat): nat {
    if a == 0 then 0 else Times(a - 1, b) + b
  }

  lemma {:induction false} TimesIsProduct(a: nat, b: nat)
    ensures Times(a, b) == a * b
  {
    if a > 0 {
      TimesIsProduct(a - 1, b);
    }
  }

  lemma TimesAdd(a: nat, b: nat, m: nat)
    ensures Times(a + b, m) == Times(a, m) + Times(b, m)
  {
    TimesIsProduct(a + b, m);
    TimesIsProduct(a, m);
    TimesIsProduct(b, m);
  }

  lemma {:induction false} TimesStep(a: nat, b: nat, m: nat)
    requires a < b
    ensures Times(a + 1, m) == Times(a, m) + m <= Times(b, m)
    decreases b
  {
    if a + 1 < b {
      TimesStep(a, b - 1, m);
    }
  }

  lemma AppendAssoc<T>(x: seq<T>, y: seq<T>, z: seq<T>)
    ensures x + (y + z) == (x + y) + z
  {
  }

  lemma DropAppend<T>(a: seq<T>, b: seq<T>, n: nat)
    requires n <= |a|
    ensures (a + b)[n..] == a[n..] + b
    ensures (a + b)[..n] == a[..n]
  {
  }
}
