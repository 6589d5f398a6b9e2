/** MED reconstruction in place or not: rows one after another, and four rows at a time,
    each one column behind the row above with its neighbours in registers. */
module MedDecode {
  import opened Arith
  import opened Machine
  import opened Med

  // ---------------------------------------------------------------------------
  // A raster partly reconstructed

  type Where = nat -> bool

  /** Sample i is what residual x makes of its neighbours. */
  ghost predicate Fine(B: nat, d: seq<nat>, w: nat, i: nat, x: nat)
    requires 0 < w && i < |d|
  {
    d[i] == Wrap(Size(B), x + Predict(d, w, i))
  }

  /** Samples where done holds are reconstructed; where it does not, the stream src is
      still unread in s, which may be the same array as d. */
  ghost predicate State(B: nat, w: nat, d: seq<nat>, s: seq<nat>, src: seq<nat>, res: Map, done: Where)
    requires 0 < w
  {
    && |d| == |s| == |src|
    && (forall j: nat :: j < |d| && done(j) ==> Fine(B, d, w, j, res(src[j])))
    && (forall j: nat :: j < |d| && !done(j) ==> s[j] == src[j])
  }

  /** Whatever is done has its neighbours done. */
  ghost predicate Backed(done: Where, w: nat, j: nat)
    requires 0 < w
  {
    && (j % w > 0 && j >= 1 ==> done(j - 1))
    && (j >= w ==> done(j - w))
    && (j % w > 0 && j >= w + 1 ==> done(j - w - 1))
  }

  ghost predicate LooksBack(done: Where, w: nat)
    requires 0 < w
  {
    forall j: nat :: done(j) ==> Backed(done, w, j)
  }

  ghost predicate Adds(done: Where, done': Where, i: nat) {
    !done(i) && forall j: nat :: done'(j) == (done(j) || j == i)
  }

  ghost predicate SameBut(d: seq<nat>, d': seq<nat>, i: nat) {
    |d| == |d'| && forall k: nat :: k < |d| && k != i ==> d'[k] == d[k]
  }

  /** A sample whose neighbours are done stays what it is when another one is written. */
  lemma FineKept(B: nat, d: seq<nat>, d': seq<nat>, w: nat, done: Where, i: nat, j: nat, x: nat)
    requires 0 < w && j < |d| && !done(i) && done(j) && Backed(done, w, j) && SameBut(d, d', i) && Fine(B, d, w, j, x)
    ensures Fine(B, d', w, j, x)
  {
    LeftFits(w, j);
  }

  /** One more sample reconstructed, the rest untouched. */
  lemma Advance(B: nat, w: nat, d: seq<nat>, s: seq<nat>, src: seq<nat>, res: Map, done: Where, done': Where, i: nat,
                d': seq<nat>, s': seq<nat>)
    requires 0 < w && State(B, w, d, s, src, res, done) && LooksBack(done, w) && Adds(done, done', i) && i < |d|
    requires SameBut(d, d', i) && SameBut(s, s', i)
    requires d'[i] == Wrap(Size(B), res(src[i]) + Predict(d, w, i))
    ensures State(B, w, d', s', src, res, done')
  {
    PredictSame(d, d', w, i);
    assert Fine(B, d', w, i, res(src[i]));
    hide Fine, Backed, Predict;
    forall j: nat | j < |d'| && done'(j) ensures Fine(B, d', w, j, res(src[j])) {
      if j != i {
        FineKept(B, d, d', w, done, i, j, res(src[j]));
      }
    }
  }

  // ---------------------------------------------------------------------------
  // Fronts

  /** All samples before b, and the first t0 .. t3 samples of the four rows from b on. */
  datatype Front = Front(b: nat, t0: nat, t1: nat, t2: nat, t3: nat)

  predicate In(w: nat, f: Front, j: nat) {
    || j < f.b + f.t0
    || f.b + w <= j < f.b + w + f.t1
    || f.b + 2 * w <= j < f.b + 2 * w + f.t2
    || f.b + 3 * w <= j < f.b + 3 * w + f.t3
  }

  function Done(w: nat, f: Front): Where { (j: nat) => In(w, f, j) }

  function Before(i: nat): Front { Front(i, 0, 0, 0, 0) }

  predicate RowStart(w: nat, b: nat)
    requires 0 < w
  {
    b % w == 0
  }

  /** Rows whole up to b, then four rows each no longer than the one above. */
  predicate Legal(w: nat, f: Front) {
    0 < w && RowStart(w, f.b) && f.t0 <= w && f.t1 <= f.t0 && f.t2 <= f.t1 && f.t3 <= f.t2
  }

  lemma ColumnOf(w: nat, b: nat, k: nat, c: nat)
    requires c < w && b % w == 0
    ensures (b + k * w + c) % w == c
  {
    DivModParts(b, w);
    assert b + k * w + c == (b / w + k) * w + c;
    DivModUnique(b / w + k, w, c);
  }

  lemma FrontBacked(w: nat, f: Front)
    requires Legal(w, f)
    ensures LooksBack(Done(w, f), w)
  {
    forall j: nat | In(w, f, j) ensures Backed(Done(w, f), w, j) {
      ColumnOf(w, f.b, 0, 0);
      ColumnOf(w, f.b, 1, 0);
      ColumnOf(w, f.b, 2, 0);
      ColumnOf(w, f.b, 3, 0);
    }
  }

  lemma SerialBacked(w: nat, i: nat)
    requires 0 < w
    ensures LooksBack(Done(w, Before(i)), w)
    ensures Adds(Done(w, Before(i)), Done(w, Before(i + 1)), i)
  {
  }

  // ---------------------------------------------------------------------------
  // One sample

  /** The sample with neighbours Wv, Nv and NWv. */
  method Store(B: nat, d: array<nat>, s: array<nat>, i: nat, res: Map, Wv: nat, Nv: nat, NWv: nat) returns (v: nat)
    requires i < d.Length == s.Length && Wv < Size(B) && Nv < Size(B) && NWv < Size(B)
    modifies d
    ensures v == Wrap(Size(B), res(old(s[i])) + Median(Wv, Nv, NWv)) && d[i] == v
    ensures SameBut(old(d[..]), d[..], i)
  {
    MaskedIsMedian(B, Wv, Nv, NWv);
    v := Wrap(Size(B), res(s[i]) + Masked(B, Wv, Nv, NWv));
    d[i] := v;
  }

  /** Sample i is next, with these neighbours. */
  ghost predicate StepAt(B: nat, w: nat, d: seq<nat>, s: seq<nat>, src: seq<nat>, res: Map, i: nat, Wv: nat, Nv: nat,
                         NWv: nat, done: Where, done': Where) {
    && 0 < w < i < |d| && State(B, w, d, s, src, res, done) && AtFront(w, i, done, done')
    && Wv == d[i - 1] && Nv == d[i - w] && NWv == d[i - w - 1]
  }

  /** Sample i is inside its row, its neighbours are done, and it comes next. */
  ghost predicate AtFront(w: nat, i: nat, done: Where, done': Where)
    requires 0 < w < i
  {
    && i % w > 0 && Adds(done, done', i) && LooksBack(done, w)
    && done(i - 1) && done(i - w) && done(i - w - 1)
  }

  lemma StepNeighbours(B: nat, w: nat, d: seq<nat>, s: seq<nat>, src: seq<nat>, res: Map, i: nat, Wv: nat, Nv: nat,
                       NWv: nat, done: Where, done': Where)
    requires StepAt(B, w, d, s, src, res, i, Wv, Nv, NWv, done, done')
    ensures i < |d| == |s| == |src| && Wv < Size(B) && Nv < Size(B) && NWv < Size(B) && s[i] == src[i]
  {
    DoneSmall(B, w, d, s, src, res, done, i - 1);
    DoneSmall(B, w, d, s, src, res, done, i - w);
    DoneSmall(B, w, d, s, src, res, done, i - w - 1);
  }

  lemma StepDone(B: nat, w: nat, d: seq<nat>, s: seq<nat>, src: seq<nat>, res: Map, i: nat, Wv: nat, Nv: nat, NWv: nat,
                 done: Where, done': Where, d': seq<nat>, s': seq<nat>)
    requires StepAt(B, w, d, s, src, res, i, Wv, Nv, NWv, done, done') && SameBut(d, d', i) && SameBut(s, s', i)
    requires d'[i] == Wrap(Size(B), res(src[i]) + Median(Wv, Nv, NWv))
    ensures State(B, w, d', s', src, res, done')
  {
    hide State, LooksBack, Adds;
    Advance(B, w, d, s, src, res, done, done', i, d', s');
  }

  /** A sample with all three neighbours. */
  method Step(B: nat, d: array<nat>, s: array<nat>, w: nat, i: nat, res: Map, Wv: nat, Nv: nat, NWv: nat,
              ghost src: seq<nat>, ghost done: Where, ghost done': Where)
    returns (v: nat)
    requires StepAt(B, w, d[..], s[..], src, res, i, Wv, Nv, NWv, done, done')
    modifies d
    ensures i < d.Length && State(B, w, d[..], s[..], src, res, done') && d[i] == v
    ensures SameBut(old(d[..]), d[..], i)
  {
    ghost var before, stream := d[..], s[..];
    StepNeighbours(B, w, before, stream, src, res, i, Wv, Nv, NWv, done, done');
    hide StepAt, State;
    v := Store(B, d, s, i, res, Wv, Nv, NWv);
    StepDone(B, w, before, stream, src, res, i, Wv, Nv, NWv, done, done', d[..], s[..]);
  }

  lemma DoneSmall(B: nat, w: nat, d: seq<nat>, s: seq<nat>, src: seq<nat>, res: Map, done: Where, j: nat)
    requires 0 < w && State(B, w, d, s, src, res, done) && j < |d| && done(j)
    ensures d[j] < Size(B)
  {
    assert Fine(B, d, w, j, res(src[j]));
  }

  // ---------------------------------------------------------------------------
  // Row by row

  /** The first sample of a row other than the first. */
  method FirstOfRow(B: nat, d: array<nat>, s: array<nat>, w: nat, i: nat, res: Map, ghost src: seq<nat>,
                    ghost done: Where, ghost done': Where)
    requires 0 < w && State(B, w, d[..], s[..], src, res, done) && LooksBack(done, w) && Adds(done, done', i)
    requires w <= i < d.Length && RowStart(w, i)
    modifies d
    ensures State(B, w, d[..], s[..], src, res, done')
    ensures d[i] == Wrap(Size(B), res(old(s[i])) + d[i - w])
    ensures SameBut(old(d[..]), d[..], i)
  {
    ghost var before, stream := d[..], s[..];
    d[i] := Wrap(Size(B), res(s[i]) + d[i - w]);
    Advance(B, w, before, stream, src, res, done, done', i, d[..], s[..]);
  }

  lemma FirstRowPredict(d: seq<nat>, w: nat, c: nat)
    requires c < w && c < |d|
    ensures Predict(d, w, c) == if c > 0 then d[c - 1] else 0
  {
    DivModUnique(0, w, c);
  }

  lemma FirstRowNext(B: nat, w: nat, d: seq<nat>, s: seq<nat>, src: seq<nat>, res: Map, c: nat, d': seq<nat>,
                     s': seq<nat>)
    requires c < w <= |d| && State(B, w, d, s, src, res, Done(w, Before(c))) && SameBut(d, d', c) && SameBut(s, s', c)
    requires d'[c] == Wrap(Size(B), res(src[c]) + (if c > 0 then d[c - 1] else 0))
    ensures State(B, w, d', s', src, res, Done(w, Before(c + 1)))
  {
    SerialBacked(w, c);
    FirstRowPredict(d, w, c);
    hide Done, LooksBack, Adds, Predict, Wrap, Size;
    Advance(B, w, d, s, src, res, Done(w, Before(c)), Done(w, Before(c + 1)), c, d', s');
  }

  /** The first row: each sample is predicted by the one before it. */
  method FirstRow(B: nat, d: array<nat>, s: array<nat>, w: nat, res: Map, ghost src: seq<nat>)
    requires 0 < w <= d.Length == s.Length && s[..] == src && ResOk(B, res)
    modifies d
    ensures State(B, w, d[..], s[..], src, res, Done(w, Before(w)))
  {
    ghost var before := d[..];
    d[0] := res(s[0]);
    assert State(B, w, before, src, src, res, Done(w, Before(0)));
    WrapSmall(B, res(src[0]));
    hide State, Done;
    FirstRowNext(B, w, before, src, src, res, 0, d[..], s[..]);
    var c: nat := 1;
    while c < w
      invariant 1 <= c <= w && State(B, w, d[..], s[..], src, res, Done(w, Before(c)))
    {
      FirstRowSample(B, d, s, w, c, res, src);
      c := c + 1;
    }
  }

  method FirstRowSample(B: nat, d: array<nat>, s: array<nat>, w: nat, c: nat, res: Map, ghost src: seq<nat>)
    requires 0 < c < w <= d.Length == s.Length && State(B, w, d[..], s[..], src, res, Done(w, Before(c)))
    modifies d
    ensures State(B, w, d[..], s[..], src, res, Done(w, Before(c + 1)))
  {
    ghost var row, stream := d[..], s[..];
    assert s[c] == src[c];
    hide State, Done, Predict, Wrap, Size;
    d[c] := Wrap(Size(B), res(s[c]) + d[c - 1]);
    FirstRowNext(B, w, row, stream, src, res, c, d[..], s[..]);
  }

  /** A residual map yields words. */
  ghost predicate ResOk(B: nat, res: Map) {
    forall x: nat :: res(x) < Size(B)
  }

  lemma WrapSmall(B: nat, x: nat)
    requires x < Size(B)
    ensures Wrap(Size(B), x) == x
  {
    WrapIs(Size(B), x, x, 0);
  }

  lemma SerialReady(B: nat, w: nat, d: seq<nat>, s: seq<nat>, src: seq<nat>, res: Map, row: nat, c: nat)
    requires 0 < w <= row && row % w == 0 && 0 < c < w && row + c < |d|
    requires State(B, w, d, s, src, res, Done(w, Before(row + c)))
    ensures var i := row + c;
      StepAt(B, w, d, s, src, res, i, d[i - 1], d[i - w], d[i - w - 1], Done(w, Before(i)), Done(w, Before(i + 1)))
  {
    SerialBacked(w, row + c);
    ColumnOf(w, row, 0, c);
    hide State, Adds, LooksBack;
    assert AtFront(w, row + c, Done(w, Before(row + c)), Done(w, Before(row + c + 1)));
  }

  /** One row below the first. */
  method SerialRow(B: nat, d: array<nat>, s: array<nat>, w: nat, row: nat, res: Map, ghost src: seq<nat>)
    requires 0 < w <= row && RowStart(w, row) && row + w <= d.Length
    requires State(B, w, d[..], s[..], src, res, Done(w, Before(row)))
    modifies d
    ensures State(B, w, d[..], s[..], src, res, Done(w, Before(row + w)))
  {
    hide State, Adds, LooksBack, Done, StepAt;
    SerialBacked(w, row);
    FirstOfRow(B, d, s, w, row, res, src, Done(w, Before(row)), Done(w, Before(row + 1)));
    var c := 1;
    while c < w
      invariant 1 <= c <= w && State(B, w, d[..], s[..], src, res, Done(w, Before(row + c)))
    {
      var i := row + c;
      SerialReady(B, w, d[..], s[..], src, res, row, c);
      var v := Step(B, d, s, w, i, res, d[i - 1], d[i - w], d[i - w - 1], src, Done(w, Before(i)),
        Done(w, Before(i + 1)));
      c := c + 1;
    }
  }

  // ---------------------------------------------------------------------------
  // Four rows at a time

  /** W of each row, its predecessor P, and NW of the top row. */
  datatype Regs = Regs(W0: nat, P0: nat, W1: nat, P1: nat, W2: nat, P2: nat, W3: nat, P3: nat, nw: nat)

  ghost predicate RegsOk(d: seq<nat>, w: nat, f: Front, g: Regs)
    requires 0 < w <= f.b && f.b + 4 * w <= |d| && Legal(w, f) && f.t3 >= 1
  {
    && g.W0 == d[f.b + f.t0 - 1] && g.nw == d[f.b - w + f.t0 - 1]
    && g.W1 == d[f.b + w + f.t1 - 1] && g.W2 == d[f.b + 2 * w + f.t2 - 1] && g.W3 == d[f.b + 3 * w + f.t3 - 1]
    && (f.t0 >= 2 ==> g.P0 == d[f.b + f.t0 - 2])
    && (f.t1 >= 2 ==> g.P1 == d[f.b + w + f.t1 - 2])
    && (f.t2 >= 2 ==> g.P2 == d[f.b + 2 * w + f.t2 - 2])
  }

  ghost predicate Wave(B: nat, w: nat, d: seq<nat>, s: seq<nat>, src: seq<nat>, res: Map, f: Front, g: Regs) {
    && 0 < w <= f.b && f.b + 4 * w <= |d| && Legal(w, f) && f.t3 >= 1
    && State(B, w, d, s, src, res, Done(w, f)) && RegsOk(d, w, f, g)
  }

  lemma TopFacts(w: nat, f: Front)
    requires Legal(w, f) && f.t3 >= 1 && w <= f.b && f.t0 < w
    ensures AtFront(w, f.b + f.t0, Done(w, f), Done(w, f.(t0 := f.t0 + 1)))
  {
    FrontBacked(w, f);
    ColumnOf(w, f.b, 0, f.t0);
    hide LooksBack;
  }

  lemma Row1Facts(w: nat, f: Front)
    requires Legal(w, f) && f.t3 >= 1 && w <= f.b && f.t1 == f.t0 - 1
    ensures AtFront(w, f.b + w + f.t1, Done(w, f), Done(w, f.(t1 := f.t1 + 1)))
  {
    FrontBacked(w, f);
    ColumnOf(w, f.b, 1, f.t1);
    hide LooksBack;
  }

  lemma Row2Facts(w: nat, f: Front)
    requires Legal(w, f) && f.t3 >= 1 && w <= f.b && f.t2 == f.t1 - 1
    ensures AtFront(w, f.b + 2 * w + f.t2, Done(w, f), Done(w, f.(t2 := f.t2 + 1)))
  {
    FrontBacked(w, f);
    ColumnOf(w, f.b, 2, f.t2);
    hide LooksBack;
  }

  lemma Row3Facts(w: nat, f: Front)
    requires Legal(w, f) && f.t3 >= 1 && w <= f.b && f.t3 == f.t2 - 1
    ensures AtFront(w, f.b + 3 * w + f.t3, Done(w, f), Done(w, f.(t3 := f.t3 + 1)))
  {
    FrontBacked(w, f);
    ColumnOf(w, f.b, 3, f.t3);
    hide LooksBack;
  }

  lemma TopReady(B: nat, w: nat, d: seq<nat>, s: seq<nat>, src: seq<nat>, res: Map, f: Front, g: Regs, c: nat)
    requires Wave(B, w, d, s, src, res, f, g) && c == f.t0 < w
    ensures StepAt(B, w, d, s, src, res, f.b + c, g.W0, d[f.b - w + c], g.nw, Done(w, f), Done(w, f.(t0 := c + 1)))
  {
    hide Done, AtFront, State, RowStart, Adds, LooksBack;
    TopFacts(w, f);
  }

  lemma TopNext(B: nat, w: nat, d: seq<nat>, s: seq<nat>, src: seq<nat>, res: Map, f: Front, g: Regs, c: nat, v: nat,
                d': seq<nat>, s': seq<nat>)
    requires Wave(B, w, d, s, src, res, f, g) && c == f.t0 < w
    requires SameBut(d, d', f.b + c) && d'[f.b + c] == v && State(B, w, d', s', src, res, Done(w, f.(t0 := c + 1)))
    ensures Wave(B, w, d', s', src, res, f.(t0 := c + 1), g.(nw := d[f.b - w + c], P0 := g.W0, W0 := v))
  {
    hide Done, State, RowStart;
  }

  /** The top row reads N from the row above and keeps it as the next NW. */
  method Top(B: nat, d: array<nat>, s: array<nat>, w: nat, b: nat, c: nat, res: Map, g: Regs, ghost src: seq<nat>,
             ghost f: Front) returns (g': Regs)
    requires Wave(B, w, d[..], s[..], src, res, f, g) && b == f.b && c == f.t0 < w
    modifies d
    ensures Wave(B, w, d[..], s[..], src, res, f.(t0 := c + 1), g')
  {
    ghost var before, stream := d[..], s[..];
    TopReady(B, w, before, stream, src, res, f, g, c);
    var n := d[b - w + c];
    hide Wave, StepAt, State, Done, SameBut, RowStart;
    var v := Step(B, d, s, w, b + c, res, g.W0, n, g.nw, src, Done(w, f), Done(w, f.(t0 := c + 1)));
    TopNext(B, w, before, stream, src, res, f, g, c, v, d[..], s[..]);
    g' := g.(nw := n, P0 := g.W0, W0 := v);
  }

  lemma Row1Ready(B: nat, w: nat, d: seq<nat>, s: seq<nat>, src: seq<nat>, res: Map, f: Front, g: Regs, c: nat)
    requires Wave(B, w, d, s, src, res, f, g) && c == f.t1 == f.t0 - 1
    ensures StepAt(B, w, d, s, src, res, f.b + w + c, g.W1, g.W0, g.P0, Done(w, f), Done(w, f.(t1 := c + 1)))
  {
    hide Done, AtFront, State, RowStart, Adds, LooksBack;
    Row1Facts(w, f);
  }

  lemma Row1Next(B: nat, w: nat, d: seq<nat>, s: seq<nat>, src: seq<nat>, res: Map, f: Front, g: Regs, c: nat, v: nat,
                 d': seq<nat>, s': seq<nat>)
    requires Wave(B, w, d, s, src, res, f, g) && c == f.t1 == f.t0 - 1
    requires SameBut(d, d', f.b + w + c) && d'[f.b + w + c] == v
      && State(B, w, d', s', src, res, Done(w, f.(t1 := c + 1)))
    ensures Wave(B, w, d', s', src, res, f.(t1 := c + 1), g.(P1 := g.W1, W1 := v))
  {
    hide Done, State, RowStart;
  }

  /** The lower rows read N and NW from the registers of the row above. */
  method Row1(B: nat, d: array<nat>, s: array<nat>, w: nat, b: nat, c: nat, res: Map, g: Regs, ghost src: seq<nat>,
              ghost f: Front) returns (g': Regs)
    requires Wave(B, w, d[..], s[..], src, res, f, g) && b == f.b && c == f.t1 == f.t0 - 1
    modifies d
    ensures Wave(B, w, d[..], s[..], src, res, f.(t1 := c + 1), g')
  {
    hide Wave, StepAt, State, Done, SameBut, RowStart, AtFront, Adds, LooksBack, RegsOk, Legal, Median, Wrap, Size;
    ghost var before, stream := d[..], s[..];
    Row1Ready(B, w, before, stream, src, res, f, g, c);
    var v := Step(B, d, s, w, b + w + c, res, g.W1, g.W0, g.P0, src, Done(w, f), Done(w, f.(t1 := c + 1)));
    Row1Next(B, w, before, stream, src, res, f, g, c, v, d[..], s[..]);
    g' := g.(P1 := g.W1, W1 := v);
  }

  lemma Row2Ready(B: nat, w: nat, d: seq<nat>, s: seq<nat>, src: seq<nat>, res: Map, f: Front, g: Regs, c: nat)
    requires Wave(B, w, d, s, src, res, f, g) && c == f.t2 == f.t1 - 1
    ensures StepAt(B, w, d, s, src, res, f.b + 2 * w + c, g.W2, g.W1, g.P1, Done(w, f), Done(w, f.(t2 := c + 1)))
  {
    hide Done, AtFront, State, RowStart, Adds, LooksBack;
    Row2Facts(w, f);
  }

  lemma Row2Next(B: nat, w: nat, d: seq<nat>, s: seq<nat>, src: seq<nat>, res: Map, f: Front, g: Regs, c: nat, v: nat,
                 d': seq<nat>, s': seq<nat>)
    requires Wave(B, w, d, s, src, res, f, g) && c == f.t2 == f.t1 - 1
    requires SameBut(d, d', f.b + 2 * w + c) && d'[f.b + 2 * w + c] == v
      && State(B, w, d', s', src, res, Done(w, f.(t2 := c + 1)))
    ensures Wave(B, w, d', s', src, res, f.(t2 := c + 1), g.(P2 := g.W2, W2 := v))
  {
    hide Done, State, RowStart;
  }

  method Row2(B: nat, d: array<nat>, s: array<nat>, w: nat, b: nat, c: nat, res: Map, g: Regs, ghost src: seq<nat>,
              ghost f: Front) returns (g': Regs)
    requires Wave(B, w, d[..], s[..], src, res, f, g) && b == f.b && c == f.t2 == f.t1 - 1
    modifies d
    ensures Wave(B, w, d[..], s[..], src, res, f.(t2 := c + 1), g')
  {
    hide Wave, StepAt, State, Done, SameBut, RowStart, AtFront, Adds, LooksBack, RegsOk, Legal, Median, Wrap, Size;
    ghost var before, stream := d[..], s[..];
    Row2Ready(B, w, before, stream, src, res, f, g, c);
    var v := Step(B, d, s, w, b + 2 * w + c, res, g.W2, g.W1, g.P1, src, Done(w, f), Done(w, f.(t2 := c + 1)));
    Row2Next(B, w, before, stream, src, res, f, g, c, v, d[..], s[..]);
    g' := g.(P2 := g.W2, W2 := v);
  }

  lemma Row3Ready(B: nat, w: nat, d: seq<nat>, s: seq<nat>, src: seq<nat>, res: Map, f: Front, g: Regs, c: nat)
    requires Wave(B, w, d, s, src, res, f, g) && c == f.t3 == f.t2 - 1
    ensures StepAt(B, w, d, s, src, res, f.b + 3 * w + c, g.W3, g.W2, g.P2, Done(w, f), Done(w, f.(t3 := c + 1)))
  {
    hide Done, AtFront, State, RowStart, Adds, LooksBack;
    Row3Facts(w, f);
  }

  lemma Row3Next(B: nat, w: nat, d: seq<nat>, s: seq<nat>, src: seq<nat>, res: Map, f: Front, g: Regs, c: nat, v: nat,
                 d': seq<nat>, s': seq<nat>)
    requires Wave(B, w, d, s, src, res, f, g) && c == f.t3 == f.t2 - 1
    requires SameBut(d, d', f.b + 3 * w + c) && d'[f.b + 3 * w + c] == v
      && State(B, w, d', s', src, res, Done(w, f.(t3 := c + 1)))
    ensures Wave(B, w, d', s', src, res, f.(t3 := c + 1), g.(P3 := g.W3, W3 := v))
  {
    hide Done, State, RowStart;
  }

  method Row3(B: nat, d: array<nat>, s: array<nat>, w: nat, b: nat, c: nat, res: Map, g: Regs, ghost src: seq<nat>,
              ghost f: Front) returns (g': Regs)
    requires Wave(B, w, d[..], s[..], src, res, f, g) && b == f.b && c == f.t3 == f.t2 - 1
    modifies d
    ensures Wave(B, w, d[..], s[..], src, res, f.(t3 := c + 1), g')
  {
    hide Wave, StepAt, State, Done, SameBut, RowStart, AtFront, Adds, LooksBack, RegsOk, Legal, Median, Wrap, Size;
    ghost var before, stream := d[..], s[..];
    Row3Ready(B, w, before, stream, src, res, f, g, c);
    var v := Step(B, d, s, w, b + 3 * w + c, res, g.W3, g.W2, g.P2, src, Done(w, f), Done(w, f.(t3 := c + 1)));
    Row3Next(B, w, before, stream, src, res, f, g, c, v, d[..], s[..]);
    g' := g.(P3 := g.W3, W3 := v);
  }

  lemma ColumnFacts(w: nat, b: nat, k: nat)
    requires 0 < w <= b && RowStart(w, b) && k < 4
    ensures RowStart(w, b + k * w) && LooksBack(Done(w, Column(b, k)), w)
      && Adds(Done(w, Column(b, k)), Done(w, Column(b, k + 1)), b + k * w)
  {
    ColumnOf(w, b, k, 0);
    FrontBacked(w, Column(b, k));
    hide LooksBack, RowStart;
  }

  /** The first sample of k rows. */
  function Column(b: nat, k: nat): Front {
    Front(b, if k > 0 then 1 else 0, if k > 1 then 1 else 0, if k > 2 then 1 else 0, if k > 3 then 1 else 0)
  }

  /** One sample of the first column. */
  method ColumnSample(B: nat, d: array<nat>, s: array<nat>, w: nat, b: nat, at: nat, res: Map, ghost k: nat,
                      ghost src: seq<nat>)
    requires 0 < w <= b && RowStart(w, b) && b + 4 * w <= d.Length && k < 4 && at == b + k * w
    requires State(B, w, d[..], s[..], src, res, Done(w, Column(b, k)))
    modifies d
    ensures State(B, w, d[..], s[..], src, res, Done(w, Column(b, k + 1)))
  {
    ColumnFacts(w, b, k);
    RowBound(b, k, w);
    hide State, Done, LooksBack, Adds;
    FirstOfRow(B, d, s, w, at, res, src, Done(w, Column(b, k)), Done(w, Column(b, k + 1)));
  }

  lemma RowBound(b: nat, k: nat, w: nat)
    requires k < 4 && 0 < w
    ensures b <= b + k * w && b + k * w + w <= b + 4 * w
  {
    MulMono(k, 3, w);
  }

  /** The first column of the four rows. */
  method FirstColumn(B: nat, d: array<nat>, s: array<nat>, w: nat, b: nat, res: Map, ghost src: seq<nat>)
    returns (g: Regs)
    requires 0 < w <= b && RowStart(w, b) && b + 4 * w <= d.Length
    requires State(B, w, d[..], s[..], src, res, Done(w, Before(b)))
    modifies d
    ensures Wave(B, w, d[..], s[..], src, res, Front(b, 1, 1, 1, 1), g)
  {
    hide State, RowStart, Done, SameBut;
    ColumnSample(B, d, s, w, b, b, res, 0, src);
    ColumnSample(B, d, s, w, b, b + w, res, 1, src);
    ColumnSample(B, d, s, w, b, b + 2 * w, res, 2, src);
    ColumnSample(B, d, s, w, b, b + 3 * w, res, 3, src);
    g := Regs(d[b], 0, d[b + w], 0, d[b + 2 * w], 0, d[b + 3 * w], 0, d[b - w]);
  }

  /** Filling the wavefront. */
  method Fill(B: nat, d: array<nat>, s: array<nat>, w: nat, b: nat, res: Map, g: Regs, ghost src: seq<nat>)
    returns (g': Regs)
    requires Wave(B, w, d[..], s[..], src, res, Front(b, 1, 1, 1, 1), g) && w >= 8
    modifies d
    ensures Wave(B, w, d[..], s[..], src, res, Front(b, 4, 3, 2, 1), g')
  {
    hide Wave, RowStart;
    g' := Top(B, d, s, w, b, 1, res, g, src, Front(b, 1, 1, 1, 1));
    g' := Row1(B, d, s, w, b, 1, res, g', src, Front(b, 2, 1, 1, 1));
    g' := Top(B, d, s, w, b, 2, res, g', src, Front(b, 2, 2, 1, 1));
    g' := Row2(B, d, s, w, b, 1, res, g', src, Front(b, 3, 2, 1, 1));
    g' := Row1(B, d, s, w, b, 2, res, g', src, Front(b, 3, 2, 2, 1));
    g' := Top(B, d, s, w, b, 3, res, g', src, Front(b, 3, 3, 2, 1));
  }

  /** Draining it. */
  method Drain(B: nat, d: array<nat>, s: array<nat>, w: nat, b: nat, res: Map, g: Regs, ghost src: seq<nat>)
    requires w >= 8 && Wave(B, w, d[..], s[..], src, res, Front(b, w, w - 1, w - 2, w - 3), g)
    modifies d
    ensures State(B, w, d[..], s[..], src, res, Done(w, Before(b + 4 * w)))
  {
    hide Wave, RowStart;
    var g' := Row3(B, d, s, w, b, w - 3, res, g, src, Front(b, w, w - 1, w - 2, w - 3));
    g' := Row2(B, d, s, w, b, w - 2, res, g', src, Front(b, w, w - 1, w - 2, w - 2));
    g' := Row1(B, d, s, w, b, w - 1, res, g', src, Front(b, w, w - 1, w - 1, w - 2));
    g' := Row3(B, d, s, w, b, w - 2, res, g', src, Front(b, w, w, w - 1, w - 2));
    g' := Row2(B, d, s, w, b, w - 1, res, g', src, Front(b, w, w, w - 1, w - 1));
    g' := Row3(B, d, s, w, b, w - 1, res, g', src, Front(b, w, w, w, w - 1));
    WaveDone(B, w, d[..], s[..], src, res, b, g');
  }

  lemma WaveDone(B: nat, w: nat, d: seq<nat>, s: seq<nat>, src: seq<nat>, res: Map, b: nat, g: Regs)
    requires Wave(B, w, d, s, src, res, Front(b, w, w, w, w), g)
    ensures State(B, w, d, s, src, res, Done(w, Before(b + 4 * w)))
  {
  }

  /** Four rows as a wavefront. */
  method FourRows(B: nat, d: array<nat>, s: array<nat>, w: nat, b: nat, res: Map, ghost src: seq<nat>)
    requires 8 <= w <= b && RowStart(w, b) && b + 4 * w <= d.Length
    requires State(B, w, d[..], s[..], src, res, Done(w, Before(b)))
    modifies d
    ensures State(B, w, d[..], s[..], src, res, Done(w, Before(b + 4 * w)))
  {
    hide Wave, State, RowStart;
    var g := FirstColumn(B, d, s, w, b, res, src);
    g := Fill(B, d, s, w, b, res, g, src);
    var t: nat := 4;
    while t < w
      invariant 4 <= t <= w && Wave(B, w, d[..], s[..], src, res, Front(b, t, t - 1, t - 2, t - 3), g)
    {
      g := Row3(B, d, s, w, b, t - 3, res, g, src, Front(b, t, t - 1, t - 2, t - 3));
      g := Row2(B, d, s, w, b, t - 2, res, g, src, Front(b, t, t - 1, t - 2, t - 2));
      g := Row1(B, d, s, w, b, t - 1, res, g, src, Front(b, t, t - 1, t - 1, t - 2));
      g := Top(B, d, s, w, b, t, res, g, src, Front(b, t, t, t - 1, t - 2));
      t := t + 1;
    }
    Drain(B, d, s, w, b, res, g, src);
  }

  // ---------------------------------------------------------------------------
  // The whole raster

  /** What the decoder reads. */
  ghost function Residuals(src: seq<nat>, res: Map): (r: seq<nat>)
    ensures |r| == |src| && forall i :: 0 <= i < |src| ==> r[i] == res(src[i])
  {
    seq(|src|, i requires 0 <= i < |src| => res(src[i]))
  }

  lemma AllDone(B: nat, w: nat, d: seq<nat>, s: seq<nat>, src: seq<nat>, res: Map, n: nat)
    requires 0 < w && State(B, w, d, s, src, res, Done(w, Before(n))) && n == |d|
    ensures Reconstructs(B, d, Residuals(src, res), w)
  {
    forall i: nat | i < |d| ensures d[i] == Wrap(Size(B), Residuals(src, res)[i] + Predict(d, w, i)) {
      assert Fine(B, d, w, i, res(src[i]));
    }
  }

  lemma NextRow(w: nat, b: nat, k: nat)
    requires 0 < w && RowStart(w, b)
    ensures RowStart(w, b + k * w)
  {
    ColumnOf(w, b, k, 0);
  }

  /** b is where row r starts, in a raster of n samples. */
  ghost predicate RowAt(w: nat, rows: nat, n: nat, r: nat, b: nat) {
    0 < w <= b <= n && 1 <= r <= rows && b == r * w && n == rows * w && RowStart(w, b)
  }

  lemma RowAtFirst(w: nat, rows: nat, n: nat)
    requires 0 < w && 1 <= rows && n == rows * w
    ensures RowAt(w, rows, n, 1, w)
  {
    MulMono(1, rows, w);
    NextRow(w, 0, 1);
  }

  lemma RowAtNext(w: nat, rows: nat, n: nat, r: nat, b: nat, k: nat)
    requires RowAt(w, rows, n, r, b) && r + k <= rows
    ensures b + k * w <= n && RowAt(w, rows, n, r + k, b + k * w)
  {
    MulMono(r + k, rows, w);
    NextRow(w, b, k);
  }

  lemma RowAtLast(w: nat, rows: nat, n: nat, b: nat)
    requires RowAt(w, rows, n, rows, b)
    ensures b == n
  {
  }

  /** GEOZL_MED_DECODE, with dst and src the same array or not. */
  method Reconstruct(B: nat, d: array<nat>, s: array<nat>, w: nat, rows: nat, res: Map)
    requires 0 < w && 1 <= rows && d.Length == s.Length == rows * w && ResOk(B, res)
    modifies d
    ensures Reconstructs(B, d[..], Residuals(old(s[..]), res), w)
  {
    ghost var src, n := s[..], d.Length;
    RowAtFirst(w, rows, n);
    hide State, Done, RowStart, ResOk;
    FirstRow(B, d, s, w, res, src);
    var r: nat, b: nat := 1, w;
    if w >= 8 && rows > 4 {
      while r + 4 <= rows
        invariant RowAt(w, rows, n, r, b) && State(B, w, d[..], s[..], src, res, Done(w, Before(b)))
      {
        RowAtNext(w, rows, n, r, b, 4);
        FourRows(B, d, s, w, b, res, src);
        r, b := r + 4, b + 4 * w;
      }
    }
    while r < rows
      invariant RowAt(w, rows, n, r, b) && State(B, w, d[..], s[..], src, res, Done(w, Before(b)))
    {
      RowAtNext(w, rows, n, r, b, 1);
      SerialRow(B, d, s, w, b, res, src);
      r, b := r + 1, b + w;
    }
    RowAtLast(w, rows, n, b);
    AllDone(B, w, d[..], s[..], src, res, b);
  }
}
