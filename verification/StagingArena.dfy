/** The bump allocator over staging memory that a decoder keeps between calls
    (core/src/gpu/staging_arena.c). Addresses are numbers; the host that pins
    memory is a function from a capacity to the address it grants, if any. */
module StagingArena {
  import opened Common

  const ALIGNMENT: nat := 256
  const MAX_CHUNKS: nat := 16
  const MIN_CHUNK: nat := 0x10_0000
  const SIZE_LIMIT: nat := SIZE_MAX + 1

  datatype Chunk = Chunk(address: nat, capacity: nat)

  datatype Block = Block(start: nat, size: nat)

  datatype Arena = Arena(chunks: seq<Chunk>, used: seq<nat>, reserve: nat)

  type Host = nat -> Option<nat>

  datatype Request = Request(bytes: nat, host: Host)

  predicate Apart(a: nat, m: nat, b: nat, n: nat) {
    a + m <= b || b + n <= a
  }

  function Aligned(bytes: nat): (size: nat)
    ensures bytes <= size < bytes + ALIGNMENT && size % ALIGNMENT == 0
  {
    (bytes + (ALIGNMENT - 1)) / ALIGNMENT * ALIGNMENT
  }

  predicate Servable(bytes: nat) {
    0 < bytes <= SIZE_MAX - (ALIGNMENT - 1)
  }

  // What the host owes the arena: aligned memory, not null, inside the address
  // space and clear of every chunk the arena still holds.
  predicate Grantable(s: Arena, address: nat, capacity: nat) {
    && 0 < address
    && address % ALIGNMENT == 0
    && address + capacity <= SIZE_LIMIT
    && forall i :: 0 <= i < |s.chunks| ==> Apart(s.chunks[i].address, s.chunks[i].capacity, address, capacity)
  }

  ghost predicate HostFor(s: Arena, host: Host) {
    forall capacity: nat :: 0 < capacity && host(capacity).Some? ==> Grantable(s, host(capacity).value, capacity)
  }

  predicate ChunkOk(c: Chunk, used: nat) {
    && 0 < c.address
    && c.address % ALIGNMENT == 0
    && 0 < c.capacity
    && c.address + c.capacity <= SIZE_LIMIT
    && used <= c.capacity
    && used % ALIGNMENT == 0
  }

  predicate Good(s: Arena) {
    && |s.chunks| == |s.used| <= MAX_CHUNKS
    && s.reserve <= SIZE_MAX
    && (forall i :: 0 <= i < |s.chunks| ==> ChunkOk(s.chunks[i], s.used[i]))
    && (forall i, j :: 0 <= i < j < |s.chunks| ==>
          Apart(s.chunks[i].address, s.chunks[i].capacity, s.chunks[j].address, s.chunks[j].capacity))
  }

  function Total(used: seq<nat>): nat {
    if |used| == 0 then 0 else Total(used[..|used| - 1]) + used[|used| - 1]
  }

  function Grown(n: nat, part: nat): (r: nat)
    requires 0 < part
    ensures n <= r
    ensures n <= SIZE_MAX ==> r <= SIZE_MAX
  {
    if n <= SIZE_MAX - n / part then n + n / part else n
  }

  function Max(a: nat, b: nat): nat {
    if a < b then b else a
  }

  // The capacity asked of the host when no chunk has room.
  function Wanted(s: Arena, size: nat): (capacity: nat)
    ensures size <= capacity && s.reserve <= capacity && MIN_CHUNK <= capacity
  {
    Max(Max(Grown(size, 4), s.reserve), MIN_CHUNK)
  }

  function Added(s: Arena, address: nat, capacity: nat, size: nat): Arena {
    Arena(s.chunks + [Chunk(address, capacity)], s.used + [size], 0)
  }

  predicate Fits(s: Arena, size: nat)
    requires |s.chunks| == |s.used|
  {
    && 0 < |s.chunks|
    && size <= s.chunks[|s.chunks| - 1].capacity - s.used[|s.used| - 1]
  }

  function Bumped(s: Arena, size: nat): Arena
    requires |s.chunks| == |s.used| && Fits(s, size)
  {
    var last := |s.used| - 1;
    s.(used := s.used[..last] + [s.used[last] + size])
  }

  function Opened(s: Arena, size: nat, host: Host): (Arena, Option<nat>) {
    var capacity := Wanted(s, size);
    if host(capacity).Some? then (Added(s, host(capacity).value, capacity, size), host(capacity))
    else if size < capacity && MIN_CHUNK <= size && host(size).Some? then
      (Added(s, host(size).value, size, size), host(size))
    else (s.(reserve := 0), None)
  }

  /** One allocation: the arena after it and the address served, if any. */
  function Serve(s: Arena, r: Request): (Arena, Option<nat>)
    requires |s.chunks| == |s.used|
  {
    if !Servable(r.bytes) then (s, None)
    else
      var size := Aligned(r.bytes);
      if Fits(s, size) then
        var last := |s.used| - 1;
        (Bumped(s, size), Some(s.chunks[last].address + s.used[last]))
      else if |s.chunks| == MAX_CHUNKS then (s, None)
      else Opened(s, size, r.host)
  }

  /** The start of a call: several chunks are given back for one reserve. */
  function Restarted(s: Arena): Arena {
    if |s.used| < 2 then s.(used := if |s.used| == 0 then [] else [0])
    else Arena([], [], Grown(Total(s.used), 8))
  }

  // ---------- the address space bounds what the chunks can hold ----------

  predicate Highest(s: Arena, top: nat) {
    && top < |s.chunks|
    && forall i :: 0 <= i < |s.chunks| ==> s.chunks[i].address <= s.chunks[top].address
  }

  lemma {:induction false} SomeHighest(s: Arena) returns (top: nat)
    requires 0 < |s.chunks|
    ensures Highest(s, top)
    decreases |s.chunks|
  {
    var last := |s.chunks| - 1;
    top := last;
    if 0 < last {
      var rest := s.(chunks := s.chunks[..last]);
      var t := SomeHighest(rest);
      if s.chunks[last].address < s.chunks[t].address {
        top := t;
      }
      forall i | 0 <= i < last
        ensures s.chunks[i].address <= s.chunks[top].address
      {
        assert rest.chunks[i] == s.chunks[i];
      }
    }
  }

  function Without<T>(s: seq<T>, k: nat): seq<T>
    requires k < |s|
  {
    s[..k] + s[k + 1..]
  }

  lemma {:induction false} TotalWithout(used: seq<nat>, k: nat)
    requires k < |used|
    ensures Total(used) == Total(Without(used, k)) + used[k]
    decreases |used|
  {
    var last := |used| - 1;
    if k < last {
      TotalWithout(used[..last], k);
      assert Without(used, k)[..last - 1] == Without(used[..last], k);
      assert Without(used, k)[last - 1] == used[last];
    } else {
      assert Without(used, k) == used[..last];
    }
  }

  function Dropped(s: Arena, k: nat): Arena
    requires k < |s.chunks| == |s.used|
  {
    Arena(Without(s.chunks, k), Without(s.used, k), s.reserve)
  }

  lemma {:induction false} DroppedGood(s: Arena, k: nat)
    requires Good(s) && k < |s.chunks|
    ensures Good(Dropped(s, k))
  {
    hide Apart, ChunkOk;
    var d := Dropped(s, k);
    forall i, j | 0 <= i < j < |d.chunks|
      ensures Apart(d.chunks[i].address, d.chunks[i].capacity, d.chunks[j].address, d.chunks[j].capacity)
    {
      var p := if i < k then i else i + 1;
      var q := if j < k then j else j + 1;
      assert d.chunks[i] == s.chunks[p] && d.chunks[j] == s.chunks[q];
    }
    forall i | 0 <= i < |d.chunks|
      ensures ChunkOk(d.chunks[i], d.used[i])
    {
      var p := if i < k then i else i + 1;
      assert d.chunks[i] == s.chunks[p] && d.used[i] == s.used[p];
    }
  }

  /** Chunks that are apart below an address hold no more than lies below it. */
  lemma {:induction false} TotalBelow(s: Arena, bound: nat)
    requires Good(s)
    requires forall i :: 0 <= i < |s.chunks| ==> s.chunks[i].address + s.chunks[i].capacity <= bound
    ensures 0 < |s.chunks| ==> Total(s.used) < bound
    decreases |s.chunks|
  {
    if 0 < |s.chunks| {
      var top := SomeHighest(s);
      var d := Dropped(s, top);
      var low := s.chunks[top].address;
      DroppedGood(s, top);
      TotalWithout(s.used, top);
      forall i | 0 <= i < |d.chunks|
        ensures d.chunks[i].address + d.chunks[i].capacity <= low
      {
        var p := if i < top then i else i + 1;
        assert d.chunks[i] == s.chunks[p];
        BelowHighest(s, top, p);
      }
      TotalBelow(d, low);
      assert ChunkOk(s.chunks[top], s.used[top]);
      assert d.used == [] ==> Total(d.used) == 0;
    }
  }

  lemma {:induction false} BelowHighest(s: Arena, top: nat, p: nat)
    requires Good(s) && Highest(s, top) && p < |s.chunks| && p != top
    ensures s.chunks[p].address + s.chunks[p].capacity <= s.chunks[top].address
  {
    var i := if p < top then p else top;
    var j := if p < top then top else p;
    assert Apart(s.chunks[i].address, s.chunks[i].capacity, s.chunks[j].address, s.chunks[j].capacity);
  }

  lemma {:induction false} TotalFits(s: Arena)
    requires Good(s)
    ensures Total(s.used) <= SIZE_MAX
  {
    if |s.chunks| == 0 {
      assert s.used == [];
    } else {
      TotalBelow(s, SIZE_LIMIT);
    }
  }

  // ---------- one step keeps the arena good ----------

  lemma {:induction false} AddedGood(s: Arena, address: nat, capacity: nat, size: nat)
    requires Good(s) && |s.chunks| < MAX_CHUNKS && Grantable(s, address, capacity)
    requires 0 < capacity && size <= capacity && size % ALIGNMENT == 0
    ensures Good(Added(s, address, capacity, size))
  {
    hide Apart, ChunkOk;
    var a := Added(s, address, capacity, size);
    var last := |s.chunks|;
    assert ChunkOk(Chunk(address, capacity), size) by {
      NewChunkOk(s, address, capacity, size);
    }
    forall i | 0 <= i < |a.chunks|
      ensures ChunkOk(a.chunks[i], a.used[i])
    {
      if i < last {
        assert a.chunks[i] == s.chunks[i] && a.used[i] == s.used[i];
      }
    }
  }

  lemma NewChunkOk(s: Arena, address: nat, capacity: nat, size: nat)
    requires Grantable(s, address, capacity)
    requires 0 < capacity && size <= capacity && size % ALIGNMENT == 0
    ensures ChunkOk(Chunk(address, capacity), size)
  {
  }

  lemma BumpedChunkOk(c: Chunk, used: nat, size: nat)
    requires ChunkOk(c, used) && size <= c.capacity - used && size % ALIGNMENT == 0
    ensures ChunkOk(c, used + size)
    ensures (c.address + used) % ALIGNMENT == 0
  {
  }

  lemma {:induction false} BumpedGood(s: Arena, size: nat)
    requires Good(s) && Fits(s, size) && size % ALIGNMENT == 0
    ensures Good(Bumped(s, size))
  {
    hide Apart, ChunkOk;
    var b := Bumped(s, size);
    var last := |s.used| - 1;
    BumpedChunkOk(s.chunks[last], s.used[last], size);
    forall i | 0 <= i < |b.chunks|
      ensures ChunkOk(b.chunks[i], b.used[i])
    {
      if i < last {
        assert b.chunks[i] == s.chunks[i] && b.used[i] == s.used[i];
      }
    }
  }

  lemma {:induction false} ServeGood(s: Arena, r: Request)
    requires Good(s) && HostFor(s, r.host)
    ensures Good(Serve(s, r).0)
  {
    hide Apart, ChunkOk, Aligned, Wanted, Grantable, Added, Bumped, Good;
    assert |s.chunks| == |s.used| <= MAX_CHUNKS by { GoodShape(s); }
    if Servable(r.bytes) {
      var size := Aligned(r.bytes);
      if Fits(s, size) {
        BumpedGood(s, size);
      } else if |s.chunks| < MAX_CHUNKS {
        var capacity := Wanted(s, size);
        if r.host(capacity).Some? {
          AddedGood(s, r.host(capacity).value, capacity, size);
        } else if size < capacity && MIN_CHUNK <= size && r.host(size).Some? {
          AddedGood(s, r.host(size).value, size, size);
        } else {
          assert Good(s.(reserve := 0)) by { ReserveGood(s); }
        }
      }
    }
  }

  lemma GoodShape(s: Arena)
    requires Good(s)
    ensures |s.chunks| == |s.used| <= MAX_CHUNKS && s.reserve <= SIZE_MAX
    ensures forall i :: 0 <= i < |s.chunks| ==> ChunkOk(s.chunks[i], s.used[i])
  {
    hide ChunkOk, Apart;
  }

  lemma ReserveGood(s: Arena)
    requires Good(s)
    ensures Good(s.(reserve := 0))
  {
    hide Apart, ChunkOk;
  }

  lemma {:induction false} RestartedGood(s: Arena)
    requires Good(s)
    ensures Good(Restarted(s))
    ensures Total(Restarted(s).used) == 0
  {
    hide Apart;
    TotalFits(s);
    if |s.used| == 1 {
      assert ChunkOk(s.chunks[0], 0);
    }
  }

  // ---------- a whole call: the blocks it hands out ----------

  /** A call's requests in order: the arena after them and the blocks served. */
  function Call(s: Arena, requests: seq<Request>): (r: (Arena, seq<Block>))
    requires |s.chunks| == |s.used|
    ensures |r.0.chunks| == |r.0.used|
    decreases |requests|
  {
    if |requests| == 0 then (s, [])
    else
      var last := |requests| - 1;
      var before := Call(s, requests[..last]);
      var step := Serve(before.0, requests[last]);
      (step.0,
       if step.1.Some? then before.1 + [Block(step.1.value, Aligned(requests[last].bytes))] else before.1)
  }

  ghost predicate Hosted(s: Arena, requests: seq<Request>)
    requires |s.chunks| == |s.used|
  {
    forall k :: 0 <= k < |requests| ==> HostFor(Call(s, requests[..k]).0, requests[k].host)
  }

  predicate Inside(c: Chunk, used: nat, b: Block) {
    c.address <= b.start && b.start + b.size <= c.address + used
  }

  predicate InSome(s: Arena, b: Block)
    requires |s.chunks| == |s.used|
  {
    exists i :: 0 <= i < |s.chunks| && Inside(s.chunks[i], s.used[i], b)
  }

  function SizeOf(blocks: seq<Block>): nat {
    if |blocks| == 0 then 0 else SizeOf(blocks[..|blocks| - 1]) + blocks[|blocks| - 1].size
  }

  // What a call has handed out so far: aligned blocks, each within the used
  // part of a chunk, pairwise apart, and together exactly what is used.
  predicate Issued(s: Arena, blocks: seq<Block>) {
    && |s.chunks| == |s.used|
    && (forall k :: 0 <= k < |blocks| ==>
      blocks[k].start % ALIGNMENT == 0 && 0 < blocks[k].size && InSome(s, blocks[k]))
    && (forall j, k :: 0 <= j < k < |blocks| ==>
          Apart(blocks[j].start, blocks[j].size, blocks[k].start, blocks[k].size))
    && SizeOf(blocks) == Total(s.used)
  }

  // A step that grows what is used, all of it clear of one new block.
  ghost predicate GrownBy(s: Arena, t: Arena, b: Block) {
    && |s.chunks| == |s.used| <= |t.chunks| == |t.used|
    && b.start % ALIGNMENT == 0
    && 0 < b.size
    && InSome(t, b)
    && (forall i :: 0 <= i < |s.chunks| ==> t.chunks[i] == s.chunks[i] && s.used[i] <= t.used[i])
    && (forall i :: 0 <= i < |s.chunks| ==> Apart(s.chunks[i].address, s.used[i], b.start, b.size))
    && Total(t.used) == Total(s.used) + b.size
  }

  lemma {:induction false} IssuedGrows(s: Arena, t: Arena, blocks: seq<Block>, b: Block)
    requires Issued(s, blocks) && GrownBy(s, t, b)
    ensures Issued(t, blocks + [b])
  {
    var all := blocks + [b];
    assert all[..|blocks|] == blocks;
    forall k | 0 <= k < |blocks|
      ensures InSome(t, blocks[k]) && Apart(blocks[k].start, blocks[k].size, b.start, b.size)
    {
      var i :| 0 <= i < |s.chunks| && Inside(s.chunks[i], s.used[i], blocks[k]);
      assert Inside(t.chunks[i], t.used[i], blocks[k]);
      assert Apart(s.chunks[i].address, s.used[i], b.start, b.size);
    }
  }

  lemma {:induction false} BumpedGrows(s: Arena, size: nat)
    requires Good(s) && Fits(s, size) && size % ALIGNMENT == 0 && 0 < size
    ensures GrownBy(s, Bumped(s, size), Block(s.chunks[|s.used| - 1].address + s.used[|s.used| - 1], size))
  {
    var t := Bumped(s, size);
    var last := |s.used| - 1;
    var b := Block(s.chunks[last].address + s.used[last], size);
    assert ChunkOk(s.chunks[last], s.used[last]);
    BumpedChunkOk(s.chunks[last], s.used[last], size);
    assert Inside(t.chunks[last], t.used[last], b);
    assert t.used[..last] == s.used[..last];
    forall i | 0 <= i < |s.chunks|
      ensures Apart(s.chunks[i].address, s.used[i], b.start, b.size)
    {
      assert ChunkOk(s.chunks[i], s.used[i]);
      if i < last {
        assert Apart(s.chunks[i].address, s.chunks[i].capacity, s.chunks[last].address, s.chunks[last].capacity);
      }
    }
  }

  lemma {:induction false} AddedGrows(s: Arena, address: nat, capacity: nat, size: nat)
    requires Good(s) && Grantable(s, address, capacity) && 0 < size <= capacity
    ensures GrownBy(s, Added(s, address, capacity, size), Block(address, size))
  {
    var t := Added(s, address, capacity, size);
    var last := |s.used|;
    assert t.used[..last] == s.used;
    assert Inside(t.chunks[last], t.used[last], Block(address, size));
    forall i | 0 <= i < |s.chunks|
      ensures Apart(s.chunks[i].address, s.used[i], address, size)
    {
      assert ChunkOk(s.chunks[i], s.used[i]);
      assert Apart(s.chunks[i].address, s.chunks[i].capacity, address, capacity);
    }
  }

  lemma {:induction false} ServeIssued(s: Arena, r: Request, blocks: seq<Block>)
    requires Good(s) && HostFor(s, r.host) && Issued(s, blocks)
    ensures var step := Serve(s, r);
      Issued(step.0, if step.1.Some? then blocks + [Block(step.1.value, Aligned(r.bytes))] else blocks)
  {
    hide Apart, ChunkOk, Aligned, Wanted, Grantable, Added, Bumped, Good, Issued, GrownBy;
    assert |s.chunks| == |s.used| <= MAX_CHUNKS by { GoodShape(s); }
    if Servable(r.bytes) {
      var size := Aligned(r.bytes);
      if Fits(s, size) {
        var last := |s.used| - 1;
        BumpedGrows(s, size);
        IssuedGrows(s, Bumped(s, size), blocks, Block(s.chunks[last].address + s.used[last], size));
      } else if |s.chunks| < MAX_CHUNKS {
        var capacity := Wanted(s, size);
        if r.host(capacity).Some? {
          AddedGrows(s, r.host(capacity).value, capacity, size);
          IssuedGrows(s, Added(s, r.host(capacity).value, capacity, size), blocks, Block(r.host(capacity).value, size));
        } else if size < capacity && MIN_CHUNK <= size && r.host(size).Some? {
          AddedGrows(s, r.host(size).value, size, size);
          IssuedGrows(s, Added(s, r.host(size).value, size, size), blocks, Block(r.host(size).value, size));
        } else {
          ReserveIssued(s, blocks);
        }
      }
    }
  }

  lemma ReserveIssued(s: Arena, blocks: seq<Block>)
    requires Issued(s, blocks)
    ensures Issued(s.(reserve := 0), blocks)
  {
    hide Apart, Inside;
    var t := s.(reserve := 0);
    forall k | 0 <= k < |blocks|
      ensures InSome(t, blocks[k])
    {
      var i :| 0 <= i < |s.chunks| && Inside(s.chunks[i], s.used[i], blocks[k]);
      assert Inside(t.chunks[i], t.used[i], blocks[k]);
    }
  }

  /** Between two resets every block served is aligned, lies in one chunk and
      is apart from all the others, whatever was asked and whatever the host
      granted; together the blocks are exactly what the chunks count as used. */
  lemma {:induction false} CallIssued(s: Arena, requests: seq<Request>)
    requires Good(s)
    requires Hosted(Restarted(s), requests)
    ensures Good(Call(Restarted(s), requests).0)
    ensures Issued(Call(Restarted(s), requests).0, Call(Restarted(s), requests).1)
    decreases |requests|
  {
    hide Good, Issued, Serve, Restarted, HostFor;
    var start := Restarted(s);
    RestartedGood(s);
    NothingIssued(start);
    GoodShape(start);
    if 0 < |requests| {
      var last := |requests| - 1;
      var prefix := requests[..last];
      assert Hosted(start, prefix) by {
        forall k | 0 <= k < last
          ensures HostFor(Call(start, prefix[..k]).0, prefix[k].host)
        {
          assert prefix[..k] == requests[..k];
        }
      }
      CallIssued(s, prefix);
      var before := Call(start, prefix);
      ServeGood(before.0, requests[last]);
      ServeIssued(before.0, requests[last], before.1);
    }
  }

  lemma NothingIssued(s: Arena)
    requires Good(s) && Total(s.used) == 0
    ensures Issued(s, [])
  {
    hide ChunkOk, Apart;
  }

  // ---------- which chunk holds an address ----------

  predicate Holds(c: Chunk, used: nat, address: nat) {
    c.address <= address && address - c.address < used
  }

  function Holder(s: Arena, address: nat, from: nat): Option<Chunk>
    requires |s.chunks| == |s.used| && from <= |s.chunks|
    decreases |s.chunks| - from
  {
    if from == |s.chunks| then None
    else if Holds(s.chunks[from], s.used[from], address) then Some(s.chunks[from])
    else Holder(s, address, from + 1)
  }

  lemma {:induction false} HolderIs(s: Arena, address: nat, i: nat, from: nat)
    requires Good(s) && from <= i < |s.chunks| && Holds(s.chunks[i], s.used[i], address)
    ensures Holder(s, address, from) == Some(s.chunks[i])
    decreases i - from
  {
    if from < i {
      assert ChunkOk(s.chunks[from], s.used[from]) && ChunkOk(s.chunks[i], s.used[i]);
      assert Apart(s.chunks[from].address, s.chunks[from].capacity, s.chunks[i].address, s.chunks[i].capacity);
      HolderIs(s, address, i, from + 1);
    }
  }

  /** Looking up a served block finds a chunk that holds all of it. */
  lemma {:induction false} ServedIsStaged(s: Arena, blocks: seq<Block>, k: nat)
    requires Good(s) && Issued(s, blocks) && k < |blocks|
    ensures var found := Holder(s, blocks[k].start, 0);
      && found.Some?
      && found.value.address <= blocks[k].start
      && blocks[k].start + blocks[k].size <= found.value.address + found.value.capacity
      && (blocks[k].start - found.value.address) % ALIGNMENT == 0
  {
    hide Issued, Good, Apart, ChunkOk;
    var b := blocks[k];
    GoodShape(s);
    IssuedIn(s, blocks, k);
    var i :| 0 <= i < |s.chunks| && Inside(s.chunks[i], s.used[i], b);
    InsideOffset(s.chunks[i], s.used[i], b);
    HolderIs(s, b.start, i, 0);
  }

  lemma IssuedIn(s: Arena, blocks: seq<Block>, k: nat)
    requires Issued(s, blocks) && k < |blocks|
    ensures blocks[k].start % ALIGNMENT == 0 && 0 < blocks[k].size && InSome(s, blocks[k])
  {
    hide InSome, Apart, Total, SizeOf;
  }

  lemma InsideOffset(c: Chunk, used: nat, b: Block)
    requires ChunkOk(c, used) && Inside(c, used, b) && b.start % ALIGNMENT == 0
    ensures b.start + b.size <= c.address + c.capacity
    ensures (b.start - c.address) % ALIGNMENT == 0
  {
  }

  // ---------- steady state ----------

  function Demand(requests: seq<Request>): nat {
    if |requests| == 0 then 0
    else Demand(requests[..|requests| - 1]) + Aligned(requests[|requests| - 1].bytes)
  }

  predicate AllServable(requests: seq<Request>) {
    forall k :: 0 <= k < |requests| ==> Servable(requests[k].bytes)
  }

  // One chunk and the blocks laid end to end from its start.
  predicate Streamed(c: Chunk, s: Arena, blocks: seq<Block>) {
    && s.chunks == [c]
    && s.used == [SizeOf(blocks)]
    && forall k :: 0 <= k < |blocks| ==> blocks[k].start == c.address + SizeOf(blocks[..k])
  }

  lemma StreamedOne(c: Chunk, s: Arena, blocks: seq<Block>)
    requires Streamed(c, s, blocks)
    ensures s.chunks == [c] && s.used == [SizeOf(blocks)]
  {
  }

  lemma {:induction false} StreamedGrows(c: Chunk, s: Arena, blocks: seq<Block>, size: nat)
    requires Streamed(c, s, blocks) && Fits(s, size)
    ensures Streamed(c, Bumped(s, size), blocks + [Block(c.address + s.used[0], size)])
    ensures SizeOf(blocks + [Block(c.address + s.used[0], size)]) == SizeOf(blocks) + size
    ensures Bumped(s, size).reserve == s.reserve
  {
    var all := blocks + [Block(c.address + s.used[0], size)];
    assert all[..|blocks|] == blocks;
    assert Bumped(s, size).used == [SizeOf(all)];
    forall k | 0 <= k < |all|
      ensures all[k].start == c.address + SizeOf(all[..k])
    {
      if k < |blocks| {
        assert all[..k] == blocks[..k];
      }
    }
  }

  // These requests, from this arena, all went to that chunk in order.
  predicate Streaming(c: Chunk, start: Arena, requests: seq<Request>, reserve: nat)
    requires |start.chunks| == |start.used|
  {
    var end := Call(start, requests);
    && Streamed(c, end.0, end.1)
    && |end.1| == |requests|
    && SizeOf(end.1) == Demand(requests)
    && end.0.reserve == reserve
  }

  lemma {:induction false} StreamingOn(c: Chunk, start: Arena, requests: seq<Request>, n: nat, reserve: nat)
    requires |start.chunks| == |start.used|
    requires n <= |requests| && Streaming(c, start, requests[..n], reserve)
    requires AllServable(requests) && Demand(requests) <= c.capacity
    ensures Streaming(c, start, requests, reserve)
    decreases |requests|
  {
    hide Aligned, Opened, Streamed, Bumped, SizeOf, Servable;
    if n < |requests| {
      var last := |requests| - 1;
      var prefix := requests[..last];
      var size := Aligned(requests[last].bytes);
      assert prefix[..n] == requests[..n];
      StreamingOn(c, start, prefix, n, reserve);
      var before := Call(start, prefix);
      StreamedOne(c, before.0, before.1);
      assert Servable(requests[last].bytes);
      assert Demand(requests) == Demand(prefix) + size;
      assert Fits(before.0, size);
      StreamedGrows(c, before.0, before.1, size);
      var all := before.1 + [Block(c.address + before.0.used[0], size)];
      assert Call(start, requests) == (Bumped(before.0, size), all);
    } else {
      assert requests[..n] == requests;
    }
  }

  /** A call that fits the one chunk is served from it end to end, every
      request of it, and the host is not asked: its answers do not matter. */
  lemma {:induction false} OneChunkCall(s: Arena, requests: seq<Request>)
    requires Good(s) && |s.chunks| == 1
    requires AllServable(requests) && Demand(requests) <= s.chunks[0].capacity
    ensures Streaming(s.chunks[0], Restarted(s), requests, s.reserve)
  {
    assert requests[..0] == [];
    StreamingOn(s.chunks[0], Restarted(s), requests, 0, s.reserve);
  }

  /** Whole calls in a row, each starting with a reset. */
  function Calls(s: Arena, calls: seq<seq<Request>>): (r: Arena)
    requires |s.chunks| == |s.used|
    ensures |r.chunks| == |r.used|
    decreases |calls|
  {
    if |calls| == 0 then s else Call(Restarted(Calls(s, calls[..|calls| - 1])), calls[|calls| - 1]).0
  }

  predicate CallsFit(calls: seq<seq<Request>>, room: nat) {
    forall k :: 0 <= k < |calls| ==> AllServable(calls[k]) && Demand(calls[k]) <= room
  }

  /** Steady state: with one chunk, calls that fit it never change it again. */
  lemma {:induction false} SteadyCalls(s: Arena, calls: seq<seq<Request>>)
    requires Good(s) && |s.chunks| == 1
    requires CallsFit(calls, s.chunks[0].capacity)
    ensures Good(Calls(s, calls))
    ensures Calls(s, calls).chunks == s.chunks
    decreases |calls|
  {
    hide Good, Restarted, AllServable, Demand;
    if 0 < |calls| {
      var last := |calls| - 1;
      SteadyCalls(s, calls[..last]);
      GoodShape(s);
      var before := Calls(s, calls[..last]);
      GoodShape(before);
      RestartedOne(before);
      assert AllServable(calls[last]) && Demand(calls[last]) <= s.chunks[0].capacity;
      OneChunkCall(before, calls[last]);
      StreamingGood(before.chunks[0], Restarted(before), calls[last]);
      StreamingOne(before.chunks[0], Restarted(before), calls[last], before.reserve);
    }
  }

  lemma RestartedOne(s: Arena)
    requires Good(s) && |s.chunks| == 1
    ensures Restarted(s).chunks == s.chunks && Restarted(s).used == [0]
    ensures Restarted(s).reserve == s.reserve && ChunkOk(s.chunks[0], 0)
  {
    assert ChunkOk(s.chunks[0], s.used[0]);
  }

  lemma StreamingOne(c: Chunk, start: Arena, requests: seq<Request>, reserve: nat)
    requires |start.chunks| == |start.used| && Streaming(c, start, requests, reserve)
    ensures Call(start, requests).0.chunks == [c]
    ensures |Call(start, requests).1| == |requests|
  {
    hide Demand, SizeOf, Call;
  }

  lemma {:induction false} DemandAligned(requests: seq<Request>)
    ensures Demand(requests) % ALIGNMENT == 0
    decreases |requests|
  {
    if 0 < |requests| {
      DemandAligned(requests[..|requests| - 1]);
    }
  }

  lemma {:induction false} StreamingGood(c: Chunk, start: Arena, requests: seq<Request>)
    requires |start.chunks| == |start.used| && start.reserve <= SIZE_MAX
    requires Streaming(c, start, requests, start.reserve) || Streaming(c, start, requests, 0)
    requires ChunkOk(c, 0) && Demand(requests) <= c.capacity
    ensures Good(Call(start, requests).0)
  {
    DemandAligned(requests);
  }

  /** What reset is for. A call that needed several chunks leaves, at the next
      call's first request, one chunk with an eighth to spare, provided the
      host grants it. From then on no call whose aligned total stays within
      that eighth opens a chunk, asks the host or fails, however many follow. */
  lemma {:induction false} MergedThenSteady(s: Arena, first: seq<Request>, later: seq<seq<Request>>)
    requires Good(s) && 2 <= |s.chunks|
    requires 0 < |first| && HostFor(Restarted(s), first[0].host)
    requires CallsFit([first] + later, Grown(Total(s.used), 8))
    requires first[0].host(Wanted(Restarted(s), Aligned(first[0].bytes))).Some?
    ensures var one := Call(Restarted(s), first[..1]).0;
      && |one.chunks| == 1
      && Grown(Total(s.used), 8) <= one.chunks[0].capacity
      && Call(Restarted(s), first).0.chunks == one.chunks
      && |Call(Restarted(s), first).1| == |first|
      && Calls(Call(Restarted(s), first).0, later).chunks == one.chunks
  {
    hide Good, AllServable, Demand, Wanted, Grown, HostFor, Call, Streaming, Aligned, ChunkOk;
    GoodShape(s);
    TotalFits(s);
    var fresh0 := Restarted(s);
    var room := Grown(Total(s.used), 8);
    assert fresh0 == Arena([], [], room);
    var size := Aligned(first[0].bytes);
    var capacity := Wanted(fresh0, size);
    assert ([first] + later)[0] == first;
    assert AllServable(first) && Demand(first) <= room;
    var c := Chunk(first[0].host(capacity).value, capacity);
    FirstServable(first);
    FirstOpens(fresh0, first[0]);
    assert first[..1] == [first[0]];
    StreamingOne(c, fresh0, first[..1], 0);
    StreamingOn(c, fresh0, first, 1, 0);
    StreamingOne(c, fresh0, first, 0);
    var end := Call(fresh0, first);
    StreamingGood(c, fresh0, first);
    assert CallsFit(later, c.capacity) by {
      forall k | 0 <= k < |later|
        ensures AllServable(later[k]) && Demand(later[k]) <= c.capacity
      {
        assert ([first] + later)[k + 1] == later[k];
      }
    }
    SteadyCalls(end.0, later);
  }

  lemma FirstServable(requests: seq<Request>)
    requires AllServable(requests) && 0 < |requests|
    ensures Servable(requests[0].bytes)
  {
  }

  // The first request of a call that starts with no chunk.
  lemma {:induction false} FirstOpens(s: Arena, r: Request)
    requires s.chunks == [] && s.used == [] && s.reserve <= SIZE_MAX
    requires Servable(r.bytes) && HostFor(s, r.host)
    requires r.host(Wanted(s, Aligned(r.bytes))).Some?
    ensures var capacity := Wanted(s, Aligned(r.bytes));
      && Streaming(Chunk(r.host(capacity).value, capacity), s, [r], 0)
      && ChunkOk(Chunk(r.host(capacity).value, capacity), 0)
  {
    hide Wanted;
    var size := Aligned(r.bytes);
    var capacity := Wanted(s, size);
    var b := Block(r.host(capacity).value, size);
    assert Grantable(s, r.host(capacity).value, capacity);
    assert [r][..0] == [] && [b][..0] == [];
    assert Demand([r]) == size;
    assert SizeOf([b]) == size;
    assert Call(s, [r]).1 == [b];
  }

  // ---------- the arena itself ----------

  class GpuArena {
    const chunks: array<Chunk>
    const used: array<nat>
    var count: nat
    var reserve: nat

    ghost predicate Shaped()
      reads this
    {
      chunks.Length == MAX_CHUNKS && used.Length == MAX_CHUNKS && count <= MAX_CHUNKS
    }

    ghost function State(): Arena
      requires Shaped()
      reads this, chunks, used
    {
      Arena(chunks[..count], used[..count], reserve)
    }

    ghost predicate Valid()
      reads this, chunks, used
    {
      Shaped() && Good(State())
    }

    constructor ()
      ensures Valid() && fresh(chunks) && fresh(used)
      ensures State() == Arena([], [], 0)
    {
      chunks := new Chunk[MAX_CHUNKS](i => Chunk(0, 0));
      used := new nat[MAX_CHUNKS](i => 0);
      count := 0;
      reserve := 0;
    }

    method Release()
      requires Valid()
      modifies this
      ensures Valid()
      ensures State() == Arena([], [], old(reserve))
    {
      count := 0;
    }

    method Reset()
      requires Valid()
      modifies this, used
      ensures Valid()
      ensures State() == Restarted(old(State()))
    {
      hide Good, Restarted, Grown;
      ghost var s := State();
      RestartedGood(s);
      RestartedIs(s);
      if count < 2 {
        used[0] := 0;
        assert State() == Restarted(s);
      } else {
        GoodShape(s);
        var total := Summed();
        Release();
        reserve := Grown(total, 8);
      }
    }

    // The running sum wraps like size_t; the address space keeps it exact.
    method Summed() returns (total: nat)
      requires Valid()
      ensures total == Total(used[..count])
    {
      hide Good;
      ghost var s := State();
      TotalFits(s);
      total := 0;
      var i: nat := 0;
      while i < count
        invariant i <= count
        invariant total == Total(s.used[..i])
      {
        assert s.used[..i + 1][..i] == s.used[..i];
        TotalPrefix(s.used, i + 1);
        total := (total + used[i]) % SIZE_LIMIT;
        i := i + 1;
      }
      assert s.used[..i] == s.used;
    }

    method Alloc(bytes: nat, host: Host) returns (memory: Option<nat>)
      requires Valid() && bytes <= SIZE_MAX && HostFor(State(), host)
      modifies this, chunks, used
      ensures Valid()
      ensures (State(), memory) == Serve(old(State()), Request(bytes, host))
    {
      hide Good, HostFor, Aligned, Wanted, ChunkOk;
      ghost var s := State();
      GoodShape(s);
      ServeGood(s, Request(bytes, host));
      memory := None;
      if Servable(bytes) {
        var size := Aligned(bytes);
        if count != 0 && size <= chunks[count - 1].capacity - used[count - 1] {
          memory := Bump(size);
        } else if count != MAX_CHUNKS {
          memory := Open(size, host);
        }
      }
    }

    method Bump(size: nat) returns (memory: Option<nat>)
      requires Valid() && Fits(State(), size)
      modifies used
      ensures Shaped() && State() == Bumped(old(State()), size)
      ensures memory == Some(old(chunks[count - 1].address + used[count - 1]))
    {
      hide Good;
      var last := count - 1;
      memory := Some(chunks[last].address + used[last]);
      used[last] := used[last] + size;
      assert State() == Bumped(old(State()), size);
    }

    method Open(size: nat, host: Host) returns (memory: Option<nat>)
      requires Valid() && count < MAX_CHUNKS
      modifies this, chunks, used
      ensures Shaped() && (State(), memory) == Opened(old(State()), size, host)
    {
      hide Good;
      var capacity := if size <= SIZE_MAX - size / 4 then size + size / 4 else size;
      if capacity < reserve {
        capacity := reserve;
      }
      if capacity < MIN_CHUNK {
        capacity := MIN_CHUNK;
      }
      assert capacity == Wanted(State(), size);
      memory := host(capacity);
      if memory.None? && capacity > size && size >= MIN_CHUNK {
        capacity := size;
        memory := host(size);
      }
      reserve := 0;
      if memory.Some? {
        chunks[count] := Chunk(memory.value, capacity);
        used[count] := size;
        count := count + 1;
        assert State() == Added(old(State()), memory.value, capacity, size);
      }
    }

    /** The chunk that holds an address, by the first match in order. */
    method Staging(memory: nat) returns (found: Option<Chunk>)
      requires Valid()
      ensures found == Holder(State(), memory, 0)
    {
      hide Good;
      found := None;
      var i: nat := 0;
      while i < count && found.None?
        invariant i <= count
        invariant Holder(State(), memory, 0) == if found.Some? then found else Holder(State(), memory, i)
        decreases count - i, found.None?
      {
        if memory >= chunks[i].address && memory - chunks[i].address < used[i] {
          found := Some(chunks[i]);
        } else {
          i := i + 1;
        }
      }
    }
  }

  lemma RestartedIs(s: Arena)
    requires |s.chunks| == |s.used|
    ensures |s.used| < 2 ==> Restarted(s) == s.(used := if |s.used| == 0 then [] else [0])
    ensures |s.used| >= 2 ==> Restarted(s) == Arena([], [], Grown(Total(s.used), 8))
  {
  }

  lemma {:induction false} TotalPrefix(used: seq<nat>, n: nat)
    requires n <= |used|
    ensures Total(used[..n]) <= Total(used)
    decreases |used|
  {
    var last := |used| - 1;
    if n <= last {
      TotalPrefix(used[..last], n);
      assert used[..last][..n] == used[..n];
    } else {
      assert used[..n] == used;
    }
  }
}
