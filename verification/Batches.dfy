/** Plans of many frames: the plans of single frames joined in order. */
module Batches {
  import opened Common
  import opened Arith

  ghost predicate Monoid<P(!new)>(join: (P, P) -> P, unit: P) {
    && (forall a :: join(a, unit) == a && join(unit, a) == a)
    && (forall a, b, c :: join(join(a, b), c) == join(a, join(b, c)))
  }

  ghost function JoinBoth<P>(join: (P, P) -> P, a: Option<P>, b: Option<P>): Option<P> {
    if a.None? || b.None? then None else Some(join(a.value, b.value))
  }

  /** The joined plans of all frames, unless one has none. */
  ghost function Fold<F, P>(g: F -> Option<P>, join: (P, P) -> P, unit: P, frames: seq<F>): Option<P> {
    if |frames| == 0 then Some(unit)
    else JoinBoth(join, Fold(g, join, unit, frames[..|frames| - 1]), g(frames[|frames| - 1]))
  }

  lemma FoldStep<F, P>(g: F -> Option<P>, join: (P, P) -> P, unit: P, frames: seq<F>, i: nat)
    requires i < |frames|
    ensures Fold(g, join, unit, frames[..i + 1]) == JoinBoth(join, Fold(g, join, unit, frames[..i]), g(frames[i]))
  {
    assert frames[..i + 1][..i] == frames[..i];
  }

  lemma AppendFront<T>(a: seq<T>, b: seq<T>)
    requires |b| > 0
    ensures (a + b)[..|a + b| - 1] == a + b[..|b| - 1]
    ensures (a + b)[|a + b| - 1] == b[|b| - 1]
  {
  }

  /** Ranges of frames can be planned apart. */
  lemma {:induction false} FoldAppend<F, P(!new)>(g: F -> Option<P>, join: (P, P) -> P, unit: P, a: seq<F>, b: seq<F>)
    requires Monoid(join, unit)
    ensures Fold(g, join, unit, a + b) == JoinBoth(join, Fold(g, join, unit, a), Fold(g, join, unit, b))
    decreases |b|
  {
    if |b| == 0 {
      assert a + b == a;
    } else {
      AppendFront(a, b);
      FoldAppend(g, join, unit, a, b[..|b| - 1]);
    }
  }

  lemma Cut<T>(s: seq<T>, lo: nat, hi: nat)
    requires lo <= hi <= |s|
    ensures s == s[..hi] + s[hi..] && s[..hi] == s[..lo] + s[lo..hi]
  {
  }

  /** A range of a planned batch has a plan, and the batch is what stands before it, the
      range, and what stands behind it. */
  lemma FoldRange<F, P(!new)>(g: F -> Option<P>, join: (P, P) -> P, unit: P, frames: seq<F>, lo: nat, hi: nat)
    requires Monoid(join, unit) && lo <= hi <= |frames|
    ensures Fold(g, join, unit, frames[..hi]) == JoinBoth(join, Fold(g, join, unit, frames[..lo]),
      Fold(g, join, unit, frames[lo..hi]))
    ensures Fold(g, join, unit, frames) == JoinBoth(join, Fold(g, join, unit, frames[..hi]),
      Fold(g, join, unit, frames[hi..]))
  {
    Cut(frames, lo, hi);
    FoldAppend(g, join, unit, frames[..hi], frames[hi..]);
    FoldAppend(g, join, unit, frames[..lo], frames[lo..hi]);
  }

  lemma QuotientBelow(n: nat, k: nat, w: nat)
    requires 0 < w && n < k * w
    ensures n / w < k
  {
    if n / w >= k {
      MulMono(k, n / w, w);
      DivModParts(n, w);
    }
  }

  /** The next worker's share of the frames left. */
  function Share(left: nat, workers: nat): nat
    requires workers > 0
  {
    (left + workers - 1) / workers
  }

  /** A fair share leaves at least one frame for every worker to come, and the last
      worker takes all that is left. */
  lemma FairShare(left: nat, workers: nat)
    requires 0 < workers <= left
    ensures 1 <= Share(left, workers) <= left - (workers - 1)
    ensures workers == 1 ==> Share(left, workers) == left
  {
    var extra, n := left - workers, left + workers - 1;
    assert (extra + 2) * workers == extra * workers + 2 * workers;
    MulMono(1, workers, extra);
    QuotientBelow(n, extra + 2, workers);
    if n / workers == 0 {
      DivModParts(n, workers);
    }
  }
}
