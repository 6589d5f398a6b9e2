/** Planar reconstruction of a run of samples inside one row: the plain and the Zigzag
    scans of the first row, and the rows below it, in register blocks with a scalar tail,
    possibly over the input. */
module PlanarRows {
  import opened Machine
  import opened PrefixSums
  import ZigzagLanes

  type Where = nat -> bool
  type Map = nat -> nat
  type At = nat -> nat

  /** Which samples have a neighbour to the left, and one w samples back. */
  datatype Grid = Grid(w: nat, left: Where, up: Where)

  ghost predicate GridOk(g: Grid) {
    && 0 < g.w
    && forall p: nat ::
         (g.left(p) ==> p >= 1) && (g.up(p) ==> p >= g.w) && (g.left(p) && g.up(p) ==> p >= g.w + 1)
  }

  /** W + N - NW, absent neighbours being 0. */
  ghost function Guess(g: Grid, d: seq<nat>, p: nat): int
    requires GridOk(g) && p < |d|
  {
    var W: int := if g.left(p) then d[p - 1] else 0;
    var N: int := if g.up(p) then d[p - g.w] else 0;
    var NW: int := if g.left(p) && g.up(p) then d[p - g.w - 1] else 0;
    W + N - NW
  }

  /** Sample p is its residual x plus its guess. */
  ghost predicate PlanarAt(M: nat, g: Grid, d: seq<nat>, p: nat, x: nat)
    requires M > 0 && GridOk(g) && p < |d|
  {
    d[p] == Wrap(M, x + Guess(g, d, p))
  }

  /** The samples before n are reconstructed from the residuals r. */
  ghost predicate Reconstructed(M: nat, g: Grid, d: seq<nat>, r: At, n: nat)
    requires M > 0 && GridOk(g)
  {
    n <= |d| && forall p: nat :: p < n ==> PlanarAt(M, g, d, p, r(p))
  }

  /** Residuals determine the samples. */
  lemma {:induction false} ReconstructedOnce(M: nat, g: Grid, d: seq<nat>, e: seq<nat>, r: At, n: nat)
    requires M > 0 && GridOk(g) && Reconstructed(M, g, d, r, n) && Reconstructed(M, g, e, r, n)
    ensures forall p: nat :: p < n ==> d[p] == e[p]
  {
    if n > 0 {
      var p: nat := n - 1;
      hide Wrap;
      assert PlanarAt(M, g, d, p, r(p)) && PlanarAt(M, g, e, p, r(p));
      ReconstructedOnce(M, g, d, e, r, p);
    }
  }

  /** n samples from p on share a row. */
  ghost predicate InRow(g: Grid, p: nat, n: nat) {
    && (forall q: nat :: p < q < p + n ==> g.left(q))
    && (forall q: nat :: p <= q < p + n ==> g.up(q) == g.up(p))
  }

  /** The residuals from p to end are still unread in z, which starts at zAt for the
      sample at offset. */
  ghost predicate Unread(z: seq<nat>, zAt: nat, offset: nat, res: Map, r: At, p: nat, end: nat) {
    offset <= p && zAt + (end - offset) <= |z| && forall q: nat :: p <= q < end ==> res(z[zAt + (q - offset)]) == r(q)
  }

  ghost predicate Going(M: nat, g: Grid, d: seq<nat>, z: seq<nat>, zAt: nat, offset: nat, res: Map, r: At, p: nat,
                        end: nat) {
    && M > 0 && GridOk(g) && p <= end <= |d|
    && Reconstructed(M, g, d, r, p) && Unread(z, zAt, offset, res, r, p, end)
  }

  ghost predicate SameOutside(d: seq<nat>, d': seq<nat>, lo: nat, hi: nat) {
    |d| == |d'| && forall k: nat :: k < |d| && !(lo <= k < hi) ==> d'[k] == d[k]
  }

  /** The samples from p on are out, each one made from its neighbours. */
  ghost predicate Filled(M: nat, g: Grid, d: seq<nat>, r: At, p: nat, n: nat)
    requires M > 0 && GridOk(g)
  {
    p + n <= |d| && forall q: nat :: p <= q < p + n ==> PlanarAt(M, g, d, q, r(q))
  }

  /** A block of new samples extends the reconstruction. */
  lemma Extend(M: nat, g: Grid, d: seq<nat>, d': seq<nat>, z: seq<nat>, z': seq<nat>, zAt: nat, offset: nat, res: Map,
               r: At, p: nat, n: nat, end: nat)
    requires Going(M, g, d, z, zAt, offset, res, r, p, end) && p + n <= end
    requires SameOutside(d, d', p, p + n) && Filled(M, g, d', r, p, n)
    requires z' == z || (z == d && z' == d' && zAt == offset)
    ensures Going(M, g, d', z', zAt, offset, res, r, p + n, end)
  {
    forall q: nat | q < p + n ensures PlanarAt(M, g, d', q, r(q)) {
      if q < p {
        Kept(M, g, d, d', q, p, p + n, r(q));
      }
    }
  }

  lemma Kept(M: nat, g: Grid, d: seq<nat>, d': seq<nat>, q: nat, lo: nat, hi: nat, x: nat)
    requires M > 0 && GridOk(g) && q < lo <= hi && q < |d| && SameOutside(d, d', lo, hi) && PlanarAt(M, g, d, q, x)
    ensures PlanarAt(M, g, d', q, x)
  {
  }

  // ---------------------------------------------------------------------------
  // Blocks

  ghost predicate ResOk(M: nat, res: Map) { forall x: nat :: res(x) < M }

  // res undoes the fold.
  ghost predicate Unfolds(B: nat, res: Map) {
    B > 0 && forall x: nat :: res(x) == Unzigzag(B, x)
  }

  /** A register of residuals, unfolded in the register where they are folded. */
  method LoadResiduals(isa: Isa, B: nat, z: array<nat>, at: nat, n: nat, res: Map, fold: bool) returns (x: Lanes)
    requires at + n <= z.Length && n % 2 == 0 && (fold ==> Unfolds(B, res))
    ensures |x| == n && forall j: nat :: j < n ==> x[j] == res(z[at + j])
  {
    if fold {
      x := ZigzagLanes.UnfoldRegister(isa, B, z[at..at + n]);
      ZigzagLanes.RegisterUnfolds(isa, B, z[at..at + n]);
    } else {
      x := seq(n, j requires 0 <= j < n reads z => res(z[at + j]));
    }
  }

  method StoreLanes(d: array<nat>, at: nat, out: Lanes)
    requires at + |out| <= d.Length
    modifies d
    ensures d[at..at + |out|] == out
    ensures SameOutside(old(d[..]), d[..], at, at + |out|)
  {
    forall j | 0 <= j < |out| { d[at + j] := out[j]; }
  }

  /** What the sample before p contributes to its row. */
  ghost function Before(g: Grid, d: seq<nat>, p: nat): nat
    requires GridOk(g) && p <= |d|
  {
    if g.left(p) then d[p - 1] else 0
  }

  /** A chain of residuals fills a stretch of the first row. */
  lemma FirstRowFilled(M: nat, g: Grid, d: seq<nat>, d': seq<nat>, r: At, p: nat, x: Lanes, out: Lanes)
    requires M > 0 && GridOk(g) && p + |x| <= |d| && InRow(g, p, |x|) && !g.up(p)
    requires forall j: nat :: j < |x| ==> x[j] == r(p + j)
    requires Chained(M, Before(g, d, p), x, out) && SameOutside(d, d', p, p + |x|) && d'[p..p + |x|] == out
    ensures Filled(M, g, d', r, p, |x|)
  {
    forall q: nat | p <= q < p + |x| ensures PlanarAt(M, g, d', q, r(q)) {
      var j: nat := q - p;
      ChainedAt(M, Before(g, d, p), x, out, j);
      assert d'[q] == out[j] && x[j] == r(p + j);
      if j > 0 {
        assert d'[q - 1] == out[j - 1];
      }
    }
  }

  /** The increments of a row below the first. */
  ghost predicate Increments(M: nat, g: Grid, d: seq<nat>, r: At, p: nat, x: Lanes)
    requires M > 0 && GridOk(g)
  {
    p + |x| <= |d| && p > g.w && forall j: nat :: j < |x| ==>
      x[j] == Wrap(M, Wrap(M, r(p + j) + d[p + j - g.w]) - d[p + j - g.w - 1])
  }

  lemma OneIncrement(M: nat, before: nat, r: nat, n: nat, nw: nat)
    requires M > 0
    ensures Wrap(M, before + Wrap(M, Wrap(M, r + n) - nw)) == Wrap(M, r + before + n - nw)
  {
    hide Wrap;
    var minus: int := nw;
    WrapOf(M, r + n, -minus);
    WrapOf(M, r + n - nw, before);
  }

  /** A chain of increments fills a stretch of a lower row. */
  lemma LowerRowFilled(M: nat, g: Grid, d: seq<nat>, d': seq<nat>, r: At, p: nat, x: Lanes, out: Lanes)
    requires M > 0 && GridOk(g) && InRow(g, p, |x|) && g.up(p) && g.left(p) && |x| < g.w
    requires Increments(M, g, d, r, p, x)
    requires Chained(M, Before(g, d, p), x, out) && SameOutside(d, d', p, p + |x|) && d'[p..p + |x|] == out
    ensures Filled(M, g, d', r, p, |x|)
  {
    forall q: nat | p <= q < p + |x| ensures PlanarAt(M, g, d', q, r(q)) {
      LowerSample(M, g, d, d', r, p, x, out, q - p);
    }
  }

  lemma LowerSample(M: nat, g: Grid, d: seq<nat>, d': seq<nat>, r: At, p: nat, x: Lanes, out: Lanes, j: nat)
    requires M > 0 && GridOk(g) && InRow(g, p, |x|) && g.up(p) && g.left(p) && |x| < g.w && j < |x|
    requires Increments(M, g, d, r, p, x)
    requires Chained(M, Before(g, d, p), x, out) && SameOutside(d, d', p, p + |x|) && d'[p..p + |x|] == out
    ensures PlanarAt(M, g, d', p + j, r(p + j))
  {
    hide Wrap;
    var q := p + j;
    assert |out| == |x| && p + |x| <= |d| == |d'| && p > g.w && g.left(q) && g.up(q);
    AboveKept(g, d, d', p, |x|, q);
    hide Chained, Increments, InRow, GridOk, SameOutside;
    var before := if j == 0 then d[p - 1] else out[j - 1];
    ChainedAt(M, Before(g, d, p), x, out, j);
    IncrementAt(M, g, d, r, p, x, j);
    StoredAt(d', p, out, j);
    if j > 0 {
      StoredAt(d', p, out, j - 1);
    }
    OneIncrement(M, before, r(q), d[q - g.w], d[q - g.w - 1]);
  }

  lemma AboveKept(g: Grid, d: seq<nat>, d': seq<nat>, p: nat, n: nat, q: nat)
    requires p > g.w && n < g.w && p + n <= |d| && SameOutside(d, d', p, p + n) && p <= q < p + n
    ensures d'[q - g.w] == d[q - g.w] && d'[q - g.w - 1] == d[q - g.w - 1] && d'[p - 1] == d[p - 1]
  {
  }

  lemma StoredAt(d: seq<nat>, p: nat, out: Lanes, j: nat)
    requires p + |out| <= |d| && d[p..p + |out|] == out && j < |out|
    ensures d[p + j] == out[j]
  {
  }

  lemma IncrementAt(M: nat, g: Grid, d: seq<nat>, r: At, p: nat, x: Lanes, j: nat)
    requires M > 0 && GridOk(g) && Increments(M, g, d, r, p, x) && j < |x|
    ensures x[j] == Wrap(M, Wrap(M, r(p + j) + d[p + j - g.w]) - d[p + j - g.w - 1])
  {
  }

  // ---------------------------------------------------------------------------
  // The first row of a plane

  /** One register of the first row. */
  method FirstRowBlock(isa: Isa, B: nat, d: array<nat>, z: array<nat>, p: nat, zp: nat, n: nat, carry: Lanes, res: Map,
                       fold: bool, ghost g: Grid, ghost r: At, ghost zAt: nat, ghost offset: nat, ghost end: nat)
    returns (carry': Lanes)
    requires fold ==> Unfolds(B, res)
    requires Going(Size(B), g, d[..], z[..], zAt, offset, res, r, p, end) && ResOk(Size(B), res)
      && (z == d ==> zAt == offset)
    requires n == LaneCount(isa, B) && n > 0 && p + n <= end && zp == zAt + (p - offset)
    requires InRow(g, p, n) && !g.up(p) && carry == Splat(Before(g, d[..], p), n)
    modifies d
    ensures Going(Size(B), g, d[..], z[..], zAt, offset, res, r, p + n, end)
    ensures carry' == Splat(d[p + n - 1], n)
    ensures SameOutside(old(d[..]), d[..], p, p + n)
  {
    hide Unfolds, Wrap, Reconstructed, InRow, GridOk;
    ghost var before, stream := d[..], z[..];
    BeforeSmall(Size(B), g, before, r, p);
    var x := LoadResiduals(isa, B, z, zp, n, res, fold);
    var out;
    out, carry' := Vscan(isa, Size(B), x, carry);
    StoreLanes(d, p, out);
    FirstRowFilled(Size(B), g, before, d[..], r, p, x, out);
    Extend(Size(B), g, before, d[..], stream, z[..], zAt, offset, res, r, p, n, end);
    StoredAt(d[..], p, out, n - 1);
  }

  lemma BeforeSmall(M: nat, g: Grid, d: seq<nat>, r: At, p: nat)
    requires M > 0 && GridOk(g) && Reconstructed(M, g, d, r, p)
    ensures Before(g, d, p) < M
  {
    if g.left(p) {
      assert PlanarAt(M, g, d, p - 1, r(p - 1));
    }
  }

  /** One sample, from its residual and the sample before. */
  lemma SampleFilled(M: nat, g: Grid, d: seq<nat>, d': seq<nat>, r: At, p: nat)
    requires M > 0 && GridOk(g) && p < |d| == |d'| && SameOutside(d, d', p, p + 1)
    requires d'[p] == Wrap(M,
      r(p) + Before(g, d,
        p) + (if g.up(p) then d[p - g.w] else 0) - (if g.left(p) && g.up(p) then d[p - g.w - 1] else 0))
    ensures Filled(M, g, d', r, p, 1)
  {
    hide Wrap;
  }

  /** The scalar tail of the first row. */
  method FirstRowTail(B: nat, d: array<nat>, z: array<nat>, p: nat, zp: nat, n: nat, initial: nat, res: Map,
                      ghost g: Grid, ghost r: At, ghost zAt: nat, ghost offset: nat, ghost end: nat)
    requires Going(Size(B), g, d[..], z[..], zAt, offset, res, r, p, end) && (z == d ==> zAt == offset)
    requires p + n <= end && zp == zAt + (p - offset) && InRow(g, p, n)
      && (n > 0 ==> !g.up(p) && initial == Before(g, d[..], p))
    modifies d
    ensures Going(Size(B), g, d[..], z[..], zAt, offset, res, r, p + n, end)
    ensures SameOutside(old(d[..]), d[..], p, p + n)
  {
    hide Wrap, Reconstructed;
    var i: nat, acc := 0, initial;
    while i < n
      invariant i <= n && Going(Size(B), g, d[..], z[..], zAt, offset, res, r, p + i, end)
      invariant i < n ==> acc == Before(g, d[..], p + i)
      invariant SameOutside(old(d[..]), d[..], p, p + i)
    {
      ghost var before, stream := d[..], z[..];
      assert res(z[zp + i]) == r(p + i);
      acc := Wrap(Size(B), acc + res(z[zp + i]));
      d[p + i] := acc;
      SampleFilled(Size(B), g, before, d[..], r, p + i);
      Extend(Size(B), g, before, d[..], stream, z[..], zAt, offset, res, r, p + i, 1, end);
      i := i + 1;
    }
  }

  /** zscan, and scan with the identity for residuals: n samples of a first row. */
  method FirstRowRun(isa: Isa, B: nat, d: array<nat>, z: array<nat>, p: nat, zp: nat, n: nat, initial: nat, res: Map,
                     fold: bool, ghost g: Grid, ghost r: At, ghost zAt: nat, ghost offset: nat, ghost end: nat)
    requires fold ==> Unfolds(B, res)
    requires Going(Size(B), g, d[..], z[..], zAt, offset, res, r, p, end) && ResOk(Size(B), res)
      && (z == d ==> zAt == offset)
    requires n > 0 && p + n <= end <= d.Length && zp == zAt + (p - offset) && GridOk(g) && InRow(g, p, n) && !g.up(p)
      && initial == Before(g, d[..], p)
    modifies d
    ensures Going(Size(B), g, d[..], z[..], zAt, offset, res, r, p + n, end)
    ensures SameOutside(old(d[..]), d[..], p, p + n)
  {
    hide Unfolds, Wrap, Going, ResOk;
    var L := LaneCount(isa, B);
    var i: nat, carry := 0, Splat(initial, L);
    while L > 0 && i + L <= n
      invariant i <= n && Going(Size(B), g, d[..], z[..], zAt, offset, res, r, p + i, end)
      invariant i < n ==> carry == Splat(Before(g, d[..], p + i), L)
      invariant SameOutside(old(d[..]), d[..], p, p + i)
      decreases n - i
    {
      carry := FirstRowBlock(isa, B, d, z, p + i, zp + i, L, carry, res, fold, g, r, zAt, offset, end);
      i := i + L;
    }
    FirstRowTail(B, d, z, p + i, zp + i, n - i, if i > 0 then d[p + i - 1] else initial, res, g, r, zAt, offset, end);
  }

  // ---------------------------------------------------------------------------
  // The rows below

  /** The first sample of a run. */
  method LowerRowFirst(B: nat, d: array<nat>, z: array<nat>, p: nat, zp: nat, initial: nat, column: nat, w: nat,
                       res: Map, ghost g: Grid, ghost r: At, ghost zAt: nat, ghost offset: nat, ghost end: nat)
    returns (acc: nat)
    requires Going(Size(B), g, d[..], z[..], zAt, offset, res, r, p, end) && (z == d ==> zAt == offset)
    requires p + 1 <= end && zp == zAt + (p - offset) && w == g.w && g.up(p) && (column == 0 <==> !g.left(p))
      && initial == Before(g, d[..], p)
    modifies d
    ensures Going(Size(B), g, d[..], z[..], zAt, offset, res, r, p + 1, end)
    ensures SameOutside(old(d[..]), d[..], p, p + 1) && acc == d[p]
  {
    hide Wrap, Reconstructed;
    ghost var before, stream := d[..], z[..];
    assert res(z[zp]) == r(p);
    if column == 0 {
      acc := Wrap(Size(B), res(z[zp]) + d[p - w]);
    } else {
      acc := Wrap(Size(B), initial + res(z[zp]) + d[p - w] - d[p - w - 1]);
    }
    d[p] := acc;
    SampleFilled(Size(B), g, before, d[..], r, p);
    Extend(Size(B), g, before, d[..], stream, z[..], zAt, offset, res, r, p, 1, end);
  }

  /** The increments of one register. */
  method LoadIncrements(isa: Isa, B: nat, d: array<nat>, z: array<nat>, p: nat, zp: nat, n: nat, w: nat, res: Map,
                        fold: bool)
    returns (x: Lanes)
    requires w < p && p + n <= d.Length + w && zp + n <= z.Length && n % 2 == 0 && (fold ==> Unfolds(B, res))
    ensures |x| == n && WordLanes(Size(B), x)
    ensures forall j: nat :: j < n ==>
      x[j] == Wrap(Size(B), Wrap(Size(B), res(z[zp + j]) + d[p + j - w]) - d[p + j - w - 1])
  {
    hide Unfolds, Wrap;
    var residual := LoadResiduals(isa, B, z, zp, n, res, fold);
    x := Sub(Size(B), Add(Size(B), residual, d[p - w..p - w + n]), d[p - w - 1..p - w - 1 + n]);
  }

  /** One register of a lower row. */
  method LowerRowBlock(isa: Isa, B: nat, d: array<nat>, z: array<nat>, p: nat, zp: nat, n: nat, carry: Lanes, w: nat,
                       res: Map, fold: bool, ghost g: Grid, ghost r: At, ghost zAt: nat, ghost offset: nat,
                       ghost end: nat)
    returns (carry': Lanes)
    requires fold ==> Unfolds(B, res)
    requires Going(Size(B), g, d[..], z[..], zAt, offset, res, r, p, end) && (z == d ==> zAt == offset)
    requires n == LaneCount(isa, B) && n > 0 && p + n <= end && zp == zAt + (p - offset) && n < w == g.w
    requires InRow(g, p, n) && g.up(p) && g.left(p) && carry == Splat(d[p - 1], n)
    modifies d
    ensures Going(Size(B), g, d[..], z[..], zAt, offset, res, r, p + n, end)
    ensures carry' == Splat(d[p + n - 1], n)
    ensures SameOutside(old(d[..]), d[..], p, p + n)
  {
    hide Unfolds, Wrap, Reconstructed;
    ghost var before, stream := d[..], z[..];
    BeforeSmall(Size(B), g, before, r, p);
    var x := LoadIncrements(isa, B, d, z, p, zp, n, w, res, fold);
    LoadedIncrements(Size(B), g, before, stream, zAt, offset, res, r, p, end, zp, n, x);
    hide InRow, GridOk, Unread, Increments;
    var out;
    out, carry' := Vscan(isa, Size(B), x, carry);
    StoreLanes(d, p, out);
    LowerRowFilled(Size(B), g, before, d[..], r, p, x, out);
    Extend(Size(B), g, before, d[..], stream, z[..], zAt, offset, res, r, p, n, end);
    StoredAt(d[..], p, out, n - 1);
  }

  lemma LoadedIncrements(M: nat, g: Grid, d: seq<nat>, z: seq<nat>, zAt: nat, offset: nat, res: Map, r: At, p: nat,
                         end: nat, zp: nat, n: nat, x: Lanes)
    requires Going(M, g, d, z, zAt, offset, res, r, p, end) && p + n <= end && zp == zAt + (p - offset) && |x| == n
      && g.w < p
    requires forall j: nat :: j < n ==> x[j] == Wrap(M, Wrap(M, res(z[zp + j]) + d[p + j - g.w]) - d[p + j - g.w - 1])
    ensures Increments(M, g, d, r, p, x)
  {
    hide Wrap, Reconstructed, GridOk;
    forall j: nat | j < n ensures x[j] == Wrap(M, Wrap(M, r(p + j) + d[p + j - g.w]) - d[p + j - g.w - 1]) {
      assert res(z[zAt + (p + j - offset)]) == r(p + j);
    }
  }

  /** The scalar tail of a lower row. */
  method LowerRowTail(B: nat, d: array<nat>, z: array<nat>, p: nat, zp: nat, n: nat, initial: nat, w: nat, res: Map,
                      ghost g: Grid, ghost r: At, ghost zAt: nat, ghost offset: nat, ghost end: nat)
    requires Going(Size(B), g, d[..], z[..], zAt, offset, res, r, p, end) && (z == d ==> zAt == offset)
    requires p + n <= end && zp == zAt + (p - offset) && InRow(g, p, n) && (n > 0 ==> g.up(p) && g.left(p)) && w == g.w
      && p > 0 && initial == d[p - 1]
    modifies d
    ensures Going(Size(B), g, d[..], z[..], zAt, offset, res, r, p + n, end)
    ensures SameOutside(old(d[..]), d[..], p, p + n)
  {
    hide Wrap, Reconstructed;
    var i: nat, acc := 0, initial;
    while i < n
      invariant i <= n && Going(Size(B), g, d[..], z[..], zAt, offset, res, r, p + i, end)
      invariant acc == d[p + i - 1]
      invariant SameOutside(old(d[..]), d[..], p, p + i)
    {
      ghost var before, stream := d[..], z[..];
      assert res(z[zp + i]) == r(p + i);
      WrapOf(Size(B), r(p + i) + d[p + i - w] - d[p + i - w - 1], acc);
      acc := Wrap(Size(B), acc + Wrap(Size(B), res(z[zp + i]) + d[p + i - w] - d[p + i - w - 1]));
      d[p + i] := acc;
      SampleFilled(Size(B), g, before, d[..], r, p + i);
      Extend(Size(B), g, before, d[..], stream, z[..], zAt, offset, res, r, p + i, 1, end);
      i := i + 1;
    }
  }

  /** zfrow, and frow with the identity for residuals: n samples of a lower row. */
  method LowerRowRun(isa: Isa, B: nat, d: array<nat>, z: array<nat>, p: nat, zp: nat, n: nat, initial: nat,
                     column: nat, w: nat, res: Map, fold: bool, ghost g: Grid, ghost r: At, ghost zAt: nat,
                     ghost offset: nat, ghost end: nat)
    requires fold ==> Unfolds(B, res)
    requires Going(Size(B), g, d[..], z[..], zAt, offset, res, r, p, end) && (z == d ==> zAt == offset)
    requires 0 < n <= w == g.w && p + n <= end <= d.Length && zp == zAt + (p - offset) && GridOk(g) && InRow(g, p, n)
    requires g.up(p) && (column == 0 <==> !g.left(p)) && initial == Before(g, d[..], p)
    modifies d
    ensures Going(Size(B), g, d[..], z[..], zAt, offset, res, r, p + n, end)
    ensures SameOutside(old(d[..]), d[..], p, p + n)
  {
    hide Unfolds, Wrap, Going;
    var acc := LowerRowFirst(B, d, z, p, zp, initial, column, w, res, g, r, zAt, offset, end);
    var L := LaneCount(isa, B);
    var i: nat, carry := 1, Splat(acc, L);
    while L > 0 && i + L <= n
      invariant 1 <= i <= n && Going(Size(B), g, d[..], z[..], zAt, offset, res, r, p + i, end)
      invariant carry == Splat(d[p + i - 1], L)
      invariant SameOutside(old(d[..]), d[..], p, p + i)
      decreases n - i
    {
      carry := LowerRowBlock(isa, B, d, z, p + i, zp + i, L, carry, w, res, fold, g, r, zAt, offset, end);
      i := i + L;
    }
    LowerRowTail(B, d, z, p + i, zp + i, n - i, d[p + i - 1], w, res, g, r, zAt, offset, end);
  }
}
