/** Where each frame of a call keeps its bytes on the host before the device runs
    (core/src/gpu/decode.c): slots are laid out per route before any thread
    starts, so threads write disjoint staging. */
module GpuLayout {
  import opened Common

  const DEVICE_BUDGET: nat := UINT32_MAX - 4096

  datatype Route = Host | Pfor | Pivco

  datatype Frame = Frame(size: nat, decoded: nat)

  datatype Layout = Layout(routes: seq<Route>, slots: seq<nat>, pfor: nat, pivco: nat, host: nat, output: nat)

  const EMPTY: Layout := Layout([], [], 0, 0, 0, 0)

  function RoundUp16(value: nat): (r: nat)
    ensures value <= SIZE_MAX - 15 ==> value <= r < value + 16 && r % 16 == 0
    ensures value > SIZE_MAX - 15 ==> r == SIZE_MAX
  {
    if value > SIZE_MAX - 15 then SIZE_MAX else (value + 15) / 16 * 16
  }

  function TotalOf(l: Layout, route: Route): nat {
    match route
    case Host => l.host
    case Pfor => l.pfor
    case Pivco => l.pivco
  }

  /** The staging a frame takes on a route. */
  function BytesOn(frame: Frame, route: Route): nat {
    if route == Host then frame.decoded else RoundUp16(frame.size)
  }

  // A frame past the 32-bit budget of the device kernels decodes on the host; a
  // device frame is charged 256 samples more than it decodes to.
  function Charge(frame: Frame, sampleBytes: nat): nat {
    if frame.decoded <= DEVICE_BUDGET then frame.decoded + 256 * sampleBytes else SIZE_MAX
  }

  predicate TooBig(l: Layout, frame: Frame, wanted: Route, sampleBytes: nat) {
    || RoundUp16(frame.size) as int > DEVICE_BUDGET - TotalOf(l, wanted)
    || Charge(frame, sampleBytes) as int > DEVICE_BUDGET - l.output
  }

  function RouteFor(l: Layout, frame: Frame, wanted: Route, sampleBytes: nat): Route {
    if wanted != Host && TooBig(l, frame, wanted, sampleBytes) then Host else wanted
  }

  function WithTotal(l: Layout, route: Route, total: nat): Layout {
    match route
    case Host => l.(host := total)
    case Pfor => l.(pfor := total)
    case Pivco => l.(pivco := total)
  }

  /** One turn of the layout loop; nothing when a total leaves size_t. */
  function Placed(l: Layout, frame: Frame, wanted: Route, sampleBytes: nat): Option<Layout> {
    var route := RouteFor(l, frame, wanted, sampleBytes);
    var total := TotalOf(l, route);
    var bytes := BytesOn(frame, route);
    if total + bytes > SIZE_MAX then None
    else
      Some(WithTotal(l, route, total + bytes).(
        routes := l.routes + [route],
        slots := l.slots + [total],
        output := l.output + (if route == Host then 0 else Charge(frame, sampleBytes))))
  }

  function Laid(frames: seq<Frame>, wanted: seq<Route>, sampleBytes: nat, n: nat): Option<Layout>
    requires n <= |frames| == |wanted|
  {
    if n == 0 then Some(EMPTY)
    else
      var before := Laid(frames, wanted, sampleBytes, n - 1);
      if before.None? then None else Placed(before.value, frames[n - 1], wanted[n - 1], sampleBytes)
  }

  // Frame i's slot and what it takes end no later than `end`.
  predicate EndsBy(l: Layout, frames: seq<Frame>, i: nat, end: nat)
    requires i < |l.routes| == |l.slots| <= |frames|
  {
    l.slots[i] + BytesOn(frames[i], l.routes[i]) <= end
  }

  predicate Disjoint(l: Layout, frames: seq<Frame>) {
    && |l.routes| == |l.slots| <= |frames|
    && (forall i :: 0 <= i < |l.routes| ==> EndsBy(l, frames, i, TotalOf(l, l.routes[i])))
    && (forall i, j :: 0 <= i < j < |l.routes| && l.routes[i] == l.routes[j] ==> EndsBy(l, frames, i, l.slots[j]))
  }

  predicate InBudget(l: Layout) {
    && l.pfor <= DEVICE_BUDGET && l.pivco <= DEVICE_BUDGET && l.output <= DEVICE_BUDGET && l.host <= SIZE_MAX
    && l.pfor % 16 == 0 && l.pivco % 16 == 0
    && |l.routes| == |l.slots|
    && forall i :: 0 <= i < |l.routes| && l.routes[i] != Host ==> l.slots[i] % 16 == 0
  }

  function Charged(l: Layout, frames: seq<Frame>, sampleBytes: nat, n: nat): nat
    requires n <= |l.routes| <= |frames|
  {
    if n == 0 then 0
    else Charged(l, frames, sampleBytes,
      n - 1) + (if l.routes[n - 1] == Host then 0 else Charge(frames[n - 1], sampleBytes))
  }

  lemma {:induction false} PlacedDisjoint(l: Layout, frames: seq<Frame>, wanted: Route, sampleBytes: nat)
    requires Disjoint(l, frames) && |l.routes| < |frames|
    requires Placed(l, frames[|l.routes|], wanted, sampleBytes).Some?
    ensures Disjoint(Placed(l, frames[|l.routes|], wanted, sampleBytes).value, frames)
  {
    hide RoundUp16, Charge, TooBig;
    var n := |l.routes|;
    var t := Placed(l, frames[n], wanted, sampleBytes).value;
    forall i | 0 <= i < n
      ensures EndsBy(t, frames, i, TotalOf(t, t.routes[i]))
      ensures t.routes[i] == t.routes[n] ==> EndsBy(t, frames, i, t.slots[n])
    {
      assert EndsBy(l, frames, i, TotalOf(l, l.routes[i]));
    }
    forall i, j | 0 <= i < j < n && t.routes[i] == t.routes[j]
      ensures EndsBy(t, frames, i, t.slots[j])
    {
      assert EndsBy(l, frames, i, l.slots[j]);
    }
  }

  lemma PlacedInBudget(l: Layout, frame: Frame, wanted: Route, sampleBytes: nat)
    requires InBudget(l) && Placed(l, frame, wanted, sampleBytes).Some?
    ensures InBudget(Placed(l, frame, wanted, sampleBytes).value)
  {
    hide RoundUp16;
    SmallSlot(frame);
  }

  lemma SmallSlot(frame: Frame)
    ensures RoundUp16(frame.size) <= DEVICE_BUDGET ==> RoundUp16(frame.size) % 16 == 0
  {
  }

  lemma {:induction false} ChargedSame(l: Layout, t: Layout, frames: seq<Frame>, sampleBytes: nat, n: nat)
    requires n <= |l.routes| <= |t.routes| <= |frames| && t.routes[..|l.routes|] == l.routes
    ensures Charged(t, frames, sampleBytes, n) == Charged(l, frames, sampleBytes, n)
  {
    if n != 0 {
      ChargedSame(l, t, frames, sampleBytes, n - 1);
      assert t.routes[n - 1] == t.routes[..|l.routes|][n - 1];
    }
  }

  /** Slots of different frames on one route do not overlap and end within the
      route's total; the device routes and everything charged to the device stay
      within the 32-bit budget; device slots are aligned to 16 bytes. */
  lemma {:induction false} SlotsDisjoint(frames: seq<Frame>, wanted: seq<Route>, sampleBytes: nat, n: nat)
    requires n <= |frames| == |wanted| && Laid(frames, wanted, sampleBytes, n).Some?
    ensures var l := Laid(frames, wanted, sampleBytes, n).value;
      && |l.routes| == n
      && Disjoint(l, frames)
      && InBudget(l)
      && l.output == Charged(l, frames, sampleBytes, n)
  {
    hide Disjoint, InBudget, RoundUp16, Charge, TooBig;
    if n == 0 {
      assert Disjoint(EMPTY, frames) && InBudget(EMPTY) by { EmptyLayout(frames); }
    } else {
      SlotsDisjoint(frames, wanted, sampleBytes, n - 1);
      var before := Laid(frames, wanted, sampleBytes, n - 1).value;
      var l := Laid(frames, wanted, sampleBytes, n).value;
      PlacedDisjoint(before, frames, wanted[n - 1], sampleBytes);
      PlacedInBudget(before, frames[n - 1], wanted[n - 1], sampleBytes);
      ChargedSame(before, l, frames, sampleBytes, n - 1);
    }
  }

  lemma EmptyLayout(frames: seq<Frame>)
    ensures Disjoint(EMPTY, frames) && InBudget(EMPTY)
  {
  }

  /** A frame leaves its route only for the host, and only when its slot or its
      charge would pass the budget after the frames before it. */
  lemma {:induction false} RoutesKept(frames: seq<Frame>, wanted: seq<Route>, sampleBytes: nat, n: nat, i: nat)
    requires i < n <= |frames| == |wanted| && Laid(frames, wanted, sampleBytes, n).Some?
    ensures Laid(frames, wanted, sampleBytes, i).Some?
    ensures var l, before := Laid(frames, wanted, sampleBytes, n).value, Laid(frames, wanted, sampleBytes, i).value;
      && |l.routes| == |l.slots| == n
      && l.routes[i]
        == (if wanted[i] != Host && TooBig(before, frames[i], wanted[i], sampleBytes) then Host else wanted[i])
      && l.slots[i] == TotalOf(before, l.routes[i])
    decreases n
  {
    hide TooBig, BytesOn, Charge;
    SlotsDisjoint(frames, wanted, sampleBytes, n);
    SlotsDisjoint(frames, wanted, sampleBytes, n - 1);
    assert |Laid(frames, wanted, sampleBytes, n - 1).value.slots| == n - 1;
    if i < n - 1 {
      RoutesKept(frames, wanted, sampleBytes, n - 1, i);
    }
  }

  /** The layout loop of decode_ex. */
  method LayOut(frames: seq<Frame>, wanted: seq<Route>, sampleBytes: nat) returns (layout: Option<Layout>)
    requires |frames| == |wanted|
    ensures layout == Laid(frames, wanted, sampleBytes, |frames|)
  {
    hide RoundUp16, Charge, Laid;
    LaidNone(frames, wanted, sampleBytes);
    var routes: seq<Route>, slots: seq<nat> := [], [];
    var pfor: nat, pivco: nat, host: nat, output: nat := 0, 0, 0, 0;
    var i: nat := 0;
    var ok := true;
    while ok && i < |frames|
      invariant i <= |frames|
      invariant ok ==> Laid(frames, wanted, sampleBytes, i) == Some(Layout(routes, slots, pfor, pivco, host, output))
      invariant !ok ==> Laid(frames, wanted, sampleBytes, i).None?
      decreases ok, |frames| - i
    {
      ghost var before := Layout(routes, slots, pfor, pivco, host, output);
      LaidNext(frames, wanted, sampleBytes, i);
      var route := wanted[i];
      if route != Host {
        var payload := if route == Pfor then pfor else pivco;
        var charge := Charge(frames[i], sampleBytes);
        if RoundUp16(frames[i].size) > DEVICE_BUDGET - payload || charge > DEVICE_BUDGET - output {
          route := Host;
        } else {
          output := output + charge;
        }
      }
      assert route == RouteFor(before, frames[i], wanted[i], sampleBytes);
      var bytes := BytesOn(frames[i], route);
      routes := routes + [route];
      match route {
        case Host => slots, ok, host := slots + [host], host + bytes <= SIZE_MAX, host + bytes;
        case Pfor => slots, ok, pfor := slots + [pfor], pfor + bytes <= SIZE_MAX, pfor + bytes;
        case Pivco => slots, ok, pivco := slots + [pivco], pivco + bytes <= SIZE_MAX, pivco + bytes;
      }
      i := i + 1;
    }
    if !ok {
      NoneLater(frames, wanted, sampleBytes, i, |frames|);
      return None;
    }
    return Some(Layout(routes, slots, pfor, pivco, host, output));
  }

  lemma LaidNone(frames: seq<Frame>, wanted: seq<Route>, sampleBytes: nat)
    requires |frames| == |wanted|
    ensures Laid(frames, wanted, sampleBytes, 0) == Some(EMPTY)
  {
  }

  lemma LaidNext(frames: seq<Frame>, wanted: seq<Route>, sampleBytes: nat, i: nat)
    requires i < |frames| == |wanted| && Laid(frames, wanted, sampleBytes, i).Some?
    ensures Laid(frames, wanted, sampleBytes, i + 1)
         == Placed(Laid(frames, wanted, sampleBytes, i).value, frames[i], wanted[i], sampleBytes)
  {
    hide Placed;
  }

  lemma {:induction false} NoneLater(frames: seq<Frame>, wanted: seq<Route>, sampleBytes: nat, i: nat, n: nat)
    requires i <= n <= |frames| == |wanted| && Laid(frames, wanted, sampleBytes, i).None?
    ensures Laid(frames, wanted, sampleBytes, n).None?
  {
    if i < n {
      NoneLater(frames, wanted, sampleBytes, i, n - 1);
    }
  }
}
