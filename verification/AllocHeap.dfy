/**
 A heap of block maps: single-block and multi-block allocation, release by address, and
 the exact condition under which a request is refused.
 */
module AllocHeap {
  import opened Basics
  import opened Arith
  import opened AllocMap
  import opened AllocSearch
  import opened AllocLive

  // ---------------------------------------------------------------- when a request is served

  // get_ptr_from_heap accepts map m: a free block with room for the request, and for
  // the alignment too when the first free block is not aligned
  predicate Accepts(m: Map, bytes: nat, align: nat) {
    && m.freeCount > 0
    && m.blockSize >= bytes + if align > 0 && Addr(m, m.firstFree) % align != 0 then align else 0
  }

  predicate SingleFits(m: Map, bytes: nat, align: nat, j: nat) {
    j < |m.block| && !m.block[j].used && AlignUp(Addr(m, j), align) + bytes <= Addr(m, j + 1)
  }

  // alloc_heap_buffer finds no single block
  ghost predicate NoSingle(ms: seq<Map>, bytes: nat, align: nat) {
    forall l: nat, j: nat :: l < |ms| ==> !SingleFits(ms[l], bytes, align, j)
  }

  ghost predicate NoRun(m: Map, bytes: nat, align: nat) {
    forall s: nat, n: nat, p: nat :: !Fits(m, bytes, align, s, n, p)
  }

  // ... nor a run of blocks smaller than the request
  ghost predicate NoRuns(ms: seq<Map>, bytes: nat, align: nat) {
    forall l: nat :: l < |ms| && ms[l].blockSize < bytes ==> NoRun(ms[l], bytes, align)
  }

  ghost predicate Refused(ms: seq<Map>, size: nat, bytes: nat, align: nat) {
    NoSingle(ms, bytes, align) && (size < bytes + align || NoRuns(ms, bytes + align, align))
  }

  /** A block passes the single-block test exactly when some aligned place in it has room. */
  lemma SingleIsFit(m: Map, bytes: nat, align: nat, j: nat)
    ensures SingleFits(m, bytes, align, j) <==> exists p: nat :: Fits(m, bytes, align, j, 1, p)
  {
    var a := AlignUp(Addr(m, j), align);
    AlignUpLeast(Addr(m, j), align, 0);
    if SingleFits(m, bytes, align, j) {
      assert Fits(m, bytes, align, j, 1, a);
    }
    forall p: nat | Fits(m, bytes, align, j, 1, p)
      ensures SingleFits(m, bytes, align, j)
    {
      assert !m.block[j].used;
      AlignUpLeast(Addr(m, j), align, p);
    }
  }

  /** A refused request had no place left with align bytes to spare behind it: without an
      alignment, no place at all. */
  lemma RefusedMeansTight(ms: seq<Map>, heap: nat, size: nat, bytes: nat, align: nat, l: nat, s: nat, n: nat, p: nat)
    requires Laid(ms, heap, size) && Refused(ms, size, bytes, align) && bytes > 0
    requires l < |ms| && Fits(ms[l], bytes, align, s, n, p)
    ensures Addr(ms[l], s + n) < p + bytes + align
  {
    hide Addr, Laid;
    var m := ms[l];
    FitsFree(m, bytes, align, s, n, p);
    assert !SingleFits(m, bytes, align, s);
    if p + bytes + align <= Addr(m, s + n) {
      assert Fits(m, bytes + align, align, s, n, p);
      LaidInside(ms, heap, size, l);
      AddrLe(m, 0, s);
      AddrLe(m, s + n, |m.block|);
      BaseAddr(m);
      AlignUpLeast(Addr(m, s), align, 0);
      AddrStep(m, s);
    }
  }

  lemma BaseAddr(m: Map)
    ensures Addr(m, 0) == m.base
  {
  }

  /** An aligned request for several blocks is refused although a free run fits it exactly. */
  lemma AlignedRunRefused()
    ensures var m := Map(16, 2, 0, [FREE_HDR, FREE_HDR], 0);
            MapInv(m) && Fits(m, 32, 16, 0, 2, 0) && Refused([m], 32, 32, 16)
  {
    var m := Map(16, 2, 0, [FREE_HDR, FREE_HDR], 0);
    assert CountFree(m.block) == 2 by {
      CountAll(m.block, false);
    }
    forall l: nat, j: nat | l < |[m]|
      ensures !SingleFits([m][l], 32, 16, j)
    {
      AlignUpLeast(Addr(m, j), 16, 0);
      AddrStep(m, j);
    }
  }

  /** A request for no bytes can be given the address behind its block. */
  lemma EmptyRequestOutside()
    ensures var m := Map(128, 2, 0, [FREE_HDR, FREE_HDR], 128);
            SingleFits(m, 0, 256, 0) && AlignUp(Addr(m, 0), 256) == Addr(m, 1)
  {
  }

  /** The address given in a block that passes the test is aligned, and it lies in that
      block if and only if the block holds an aligned address at all, as it does for every
      request of at least one byte; otherwise it is the address behind the block. */
  lemma SingleInside(m: Map, bytes: nat, align: nat, j: nat)
    requires SingleFits(m, bytes, align, j)
    ensures var p := AlignUp(Addr(m, j), align);
      && Aligned(p, align) && Addr(m, j) <= p <= Addr(m, j + 1)
      && (p < Addr(m, j + 1) <==> bytes > 0 || exists q: nat :: Addr(m, j) <= q < Addr(m, j + 1) && Aligned(q, align))
      && (align <= 1 && m.blockSize > 0 ==> p < Addr(m, j + 1))
  {
    AlignUpLeast(Addr(m, j), align, Addr(m, j));
    AddrStep(m, j);
    if align == 1 { assert Addr(m, j) % 1 == 0; }
    forall q: nat | Addr(m, j) <= q < Addr(m, j + 1) && Aligned(q, align)
      ensures AlignUp(Addr(m, j), align) < Addr(m, j + 1)
    {
      AlignUpLeast(Addr(m, j), align, q);
    }
  }

  // Block j of map l is the lowest one that fits, in the first map that has one
  ghost predicate First(ms: seq<Map>, bytes: nat, align: nat, l: nat, j: nat) {
    && l < |ms| && SingleFits(ms[l], bytes, align, j)
    && (forall k: nat :: SingleFits(ms[l], bytes, align, k) ==> j <= k)
    && (forall h: nat, k: nat :: h < l ==> !SingleFits(ms[h], bytes, align, k))
  }

  /** A request for no bytes whose block holds no address with the alignment. */
  ghost predicate Strays(ms: seq<Map>, bytes: nat, align: nat) {
    bytes == 0 && exists l: nat, j: nat :: First(ms, bytes, align, l, j) && NoneAligned(align, Addr(ms[l], j), Addr(ms[l], j + 1))
  }

  /** These are the requests that are given an address outside their block, the one behind it. */
  lemma StraysWhen(ms: seq<Map>, bytes: nat, align: nat, l: nat, j: nat)
    requires First(ms, bytes, align, l, j)
    ensures var p := AlignUp(Addr(ms[l], j), align);
      && (Strays(ms, bytes, align) <==> p >= Addr(ms[l], j + 1))
      && (Strays(ms, bytes, align) ==> p == Addr(ms[l], j + 1) && bytes == 0)
  {
    hide Addr, AlignUp, Aligned, SingleFits;
    SingleInside(ms[l], bytes, align, j);
    var lo, hi := Addr(ms[l], j), Addr(ms[l], j + 1);
    if AlignUp(lo, align) >= hi { assert NoneAligned(align, lo, hi); }
    if Strays(ms, bytes, align) {
      var k: nat, i: nat :| First(ms, bytes, align, k, i) && NoneAligned(align, Addr(ms[k], i), Addr(ms[k], i + 1));
      OneFirst(ms, bytes, align, l, j, k, i);
    }
  }

  lemma OneFirst(ms: seq<Map>, bytes: nat, align: nat, l: nat, j: nat, k: nat, i: nat)
    requires First(ms, bytes, align, l, j) && First(ms, bytes, align, k, i)
    ensures l == k && j == i
  {
    hide SingleFits;
    assert SingleFits(ms[l], bytes, align, j) && SingleFits(ms[k], bytes, align, i);
  }

  lemma NoStray(ms: seq<Map>, bytes: nat, align: nat)
    requires NoSingle(ms, bytes, align)
    ensures !Strays(ms, bytes, align)
  {
  }

  // The first free block has room for the request, and room to spare for the alignment
  // unless it is aligned itself
  ghost predicate FirstHasRoom(m: Map, bytes: nat, align: nat) {
    && SingleFits(m, bytes, align, m.firstFree)
    && (Aligned(Addr(m, m.firstFree), align) || Addr(m, m.firstFree) + bytes + align <= Addr(m, m.firstFree + 1))
  }

  /** get_ptr_from_heap accepts a map if and only if its first free block has that room. So
      where that block is refused although the request fits it, the block is not aligned and
      has less than align bytes to spare; without an alignment a map is refused only if no
      block of it fits. */
  lemma AcceptsWhen(m: Map, bytes: nat, align: nat)
    requires MapInv(m)
    ensures Accepts(m, bytes, align) <==> FirstHasRoom(m, bytes, align)
    ensures align <= 1 ==> (Accepts(m, bytes, align) <==> exists j: nat :: SingleFits(m, bytes, align, j))
  {
    var j := m.firstFree;
    AlignUpLeast(Addr(m, j), align, Addr(m, j));
    AddrStep(m, j);
    if m.freeCount == 0 { CountZero(m.block); }
    if align <= 1 {
      if align == 1 { assert Addr(m, j) % 1 == 0; }
      forall k: nat | SingleFits(m, bytes, align, k)
        ensures m.blockSize >= bytes
      {
        AlignUpLeast(Addr(m, k), align, Addr(m, k));
        AddrStep(m, k);
      }
    }
  }

  lemma ServedWhen(ms: seq<Map>, bytes: nat, align: nat)
    requires MapsInv(ms)
    ensures forall k: nat :: k < |ms| ==> (Accepts(ms[k], bytes, align) <==> FirstHasRoom(ms[k], bytes, align))
    ensures align <= 1 ==> ((forall k: nat :: k < |ms| ==> !Accepts(ms[k], bytes, align)) <==> NoSingle(ms, bytes, align))
  {
    hide MapInv, Accepts, FirstHasRoom, SingleFits;
    forall k: nat | k < |ms|
      ensures Accepts(ms[k], bytes, align) <==> FirstHasRoom(ms[k], bytes, align)
      ensures align <= 1 ==> (Accepts(ms[k], bytes, align) <==> exists j: nat :: SingleFits(ms[k], bytes, align, j))
    {
      AcceptsWhen(ms[k], bytes, align);
    }
  }

  lemma AcceptsIs(m: Map, bytes: nat, align: nat)
    ensures Accepts(m, bytes, align) <==>
      m.freeCount > 0 && m.blockSize >= bytes + if align > 0 && Addr(m, m.firstFree) % align != 0 then align else 0
  {
  }

  /** An aligned request is refused although the first free block fits it. */
  lemma AlignedFirstRefused()
    ensures var m := Map(64, 1, 0, [FREE_HDR], 16);
            MapInv(m) && SingleFits(m, 40, 32, 0) && !Accepts(m, 40, 32)
  {
    assert CountFree([FREE_HDR]) == 1 by { CountAll([FREE_HDR], false); }
  }

  // ---------------------------------------------------------------- what a request changes

  datatype Snap = Snap(ms: seq<Map>, live: Live, lost: set<nat>)

  /** Block j of map l is taken, for the lowest aligned address from its start on. If that is
      not in the block, no pointer to the block is handed out. */
  ghost predicate BlockTaken(a: Snap, b: Snap, l: nat, j: nat, bytes: nat, align: nat) {
    && l < |a.ms| && j < |a.ms[l].block| && a.ms[l].freeCount > 0
    && b.ms == a.ms[l := TakeOne(a.ms[l], j)]
    && var at, p := Addr(a.ms[l], j), AlignUp(Addr(a.ms[l], j), align);
      if p < Addr(a.ms[l], j + 1)
      then p !in a.live && b.live == a.live[p := Region(l, j, 1, bytes, align)] && b.lost == a.lost
      else at !in a.live && b.live == a.live[at := Region(l, j, 1, 0, 0)] && b.lost == a.lost + {at}
  }

  /** The blocks of g are taken for p: the lowest place in the last map of smaller blocks that
      has one. */
  ghost predicate RunTaken(a: Snap, b: Snap, g: Region, p: nat, bytes: nat, align: nat) {
    && g.level < |a.ms| && a.ms[g.level].blockSize < bytes && g.bytes == bytes && g.align == align
    && (forall l: nat :: g.level < l < |a.ms| && a.ms[l].blockSize < bytes ==> NoRun(a.ms[l], bytes, align))
    && RunAt(a.ms[g.level], g, g.level, bytes, p)
    && (forall s: nat, n: nat, q: nat :: Fits(a.ms[g.level], bytes, align, s, n, q) ==> p <= q)
    && b.ms == a.ms[g.level := TakeRun(a.ms[g.level], g.start, g.count)]
    && p !in a.live && b.live == a.live[p := g] && b.lost == a.lost
  }

  ghost predicate SomeRun(a: Snap, b: Snap, bytes: nat, align: nat) {
    exists g: Region, p: nat :: RunTaken(a, b, g, p, bytes, align)
  }

  // The allocation under owner is released
  ghost predicate Freed(a: Snap, b: Snap, owner: nat) {
    && owner in a.live && Held(a.ms, owner, a.live[owner])
    && var g := a.live[owner];
      b == Snap(a.ms[g.level := GiveBack(a.ms[g.level], g.start)], a.live - {owner}, a.lost - {owner})
  }

  ghost predicate Served(a: Snap, request: Request, b: Snap, size: nat) {
    match request
    case GetPtr(bytes, align) =>
      || (b == a && forall k :: 0 <= k < |a.ms| ==> !Accepts(a.ms[k], bytes, align))
      || exists l: nat :: l < |a.ms| && Accepts(a.ms[l], bytes, align)
           && (forall k :: 0 <= k < l ==> !Accepts(a.ms[k], bytes, align))
           && BlockTaken(a, b, l, a.ms[l].firstFree, bytes, align)
    case HeapBuffer(bytes, align) =>
      || (b == a && Refused(a.ms, size, bytes, align))
      || (exists l: nat, j: nat :: First(a.ms, bytes, align, l, j) && BlockTaken(a, b, l, j, bytes, align))
      || (NoSingle(a.ms, bytes, align) && SomeRun(a, b, bytes + align, align))
    case Free(ptr) =>
      || (b == a && forall p :: p in a.live ==> !Within(a.ms, a.live[p], ptr))
      || exists owner :: Freed(a, b, owner) && Within(a.ms, a.live[owner], ptr)
  }

  // The request loses a block
  ghost predicate Loses(a: Snap, request: Request) {
    request.HeapBuffer? && Strays(a.ms, request.bytes, request.align)
  }

  // The request gives a lost block back
  ghost predicate Regains(a: Snap, request: Request) {
    request.Free? && exists p :: p in a.lost && p in a.live && Within(a.ms, a.live[p], request.ptr)
  }

  // ---------------------------------------------------------------- struct mm_heap

  // Block size and count of one map, as the platform's tables give them
  datatype Shape = Shape(blockSize: nat, count: nat)

  function Extent(shapes: seq<Shape>): nat {
    if shapes == [] then 0
    else Extent(shapes[..|shapes| - 1]) + shapes[|shapes| - 1].blockSize * shapes[|shapes| - 1].count
  }

  lemma ExtentStep(shapes: seq<Shape>, i: nat)
    requires i < |shapes|
    ensures shapes[..i + 1] == shapes[..i] + [shapes[i]]
    ensures Extent(shapes[..i + 1]) == Extent(shapes[..i]) + shapes[i].blockSize * shapes[i].count
  {
    assert shapes[..i + 1][..i] == shapes[..i];
  }

  ghost predicate FreshMap(m: Map, shape: Shape) {
    MapInv(m) && m.blockSize == shape.blockSize && m.block == seq(shape.count, _ => FREE_HDR)
  }

  // Maps with every block free, one behind the other from heap to end
  ghost predicate Fresh(ms: seq<Map>, shapes: seq<Shape>, heap: nat, end: nat) {
    && |ms| == |shapes|
    && (forall i :: 0 <= i < |ms| ==> FreshMap(ms[i], shapes[i]))
    && (ms == [] ==> heap == end) && (ms != [] ==> End(ms[|ms| - 1]) == end)
    && heap <= end && Laid(ms, heap, end - heap)
    && UsedBytes(ms) == 0
  }

  lemma FreshStart(heap: nat)
    ensures Extent([]) == 0 && Fresh([], [], heap, heap)
  {
  }

  lemma UsedFresh(ms: seq<Map>, m: Map)
    requires m.freeCount == |m.block|
    ensures UsedBytes(ms + [m]) == UsedBytes(ms)
  {
    assert (ms + [m])[..|ms|] == ms;
  }

  lemma FreshStep(ms: seq<Map>, shapes: seq<Shape>, heap: nat, end: nat, shape: Shape, m: Map)
    requires Fresh(ms, shapes, heap, end) && MapInv(m)
    requires m == Map(shape.blockSize, shape.count, 0, seq(shape.count, _ => FREE_HDR), end)
    ensures Fresh(ms + [m], shapes + [shape], heap, end + shape.blockSize * shape.count)
  {
    hide MapInv, Addr, End, UsedBytes;
    EndIs(m);
    UsedFresh(ms, m);
    assert FreshMap(m, shape);
  }

  lemma FreshValid(ms: seq<Map>, shapes: seq<Shape>, heap: nat, end: nat, size: nat)
    requires Fresh(ms, shapes, heap, end) && end <= heap + size
    ensures HeapInv(ms, heap, size, map[]) && UsedBytes(ms) == 0
    ensures |ms| == |shapes| && forall i :: 0 <= i < |ms| ==> FreshMap(ms[i], shapes[i])
  {
  }

  datatype Release = Released | Unused | Outside | Panic

  class MmHeap {
    const maps: seq<BlockMap>
    const heap: nat
    const size: nat
    const total: int
    var used: int
    var free: int
    ghost var ms: seq<Map>
    // Allocations under their pointers; those in lost are there under the address of
    // their block, because the pointer given for them lies outside it
    ghost var live: Live
    ghost var lost: set<nat>

    ghost function Arrays(): set<array<Hdr>> {
      set m | m in maps :: m.block
    }

    ghost function Shot(): Snap
      reads this
    {
      Snap(ms, live, lost)
    }

    ghost predicate Mapped()
      reads this, maps, Arrays()
    {
      && |ms| == |maps|
      && (forall i :: 0 <= i < |maps| ==> maps[i].State() == ms[i])
      && (forall i, j :: 0 <= i < j < |maps| ==> maps[i] != maps[j] && maps[i].block != maps[j].block)
    }

    ghost predicate Sound()
      reads this, maps, Arrays()
    {
      && Mapped()
      && HeapInv(ms, heap, size, live) && lost <= live.Keys
      && used == UsedBytes(ms) && used + free == total
    }

    // Every used block can be given back through a pointer that was handed out
    ghost predicate Valid()
      reads this, maps, Arrays()
    {
      Sound() && lost == {}
    }

    /** A heap as the platform describes it, with every block free. */
    constructor (shapes: seq<Shape>, heap: nat, size: nat)
      requires forall i :: 0 <= i < |shapes| ==> shapes[i].blockSize > 0
      requires Extent(shapes) <= size
      ensures Valid() && fresh(maps) && fresh(Arrays()) && this.heap == heap && this.size == size
      ensures live == map[] && used == 0 && free == size && |ms| == |shapes|
      ensures forall i :: 0 <= i < |shapes| ==> FreshMap(ms[i], shapes[i])
    {
      hide FreshMap, HeapInv, UsedBytes, Laid;
      var list, states := InitHeapMap(shapes, heap);
      FreshValid(states, shapes, heap, heap + Extent(shapes), size);
      maps, this.heap, this.size, total := list, heap, size, size;
      used, free, ms, live, lost := 0, size, states, map[], {};
    }

    /** init_heap_map: each map begins where the one before it ends. */
    static method InitHeapMap(shapes: seq<Shape>, heap: nat) returns (list: seq<BlockMap>, ghost states: seq<Map>)
      requires forall i :: 0 <= i < |shapes| ==> shapes[i].blockSize > 0
      ensures |list| == |states|
      ensures forall k :: 0 <= k < |list| ==> fresh(list[k]) && fresh(list[k].block) && list[k].State() == states[k]
      ensures forall j, k :: 0 <= j < k < |list| ==> list[j] != list[k] && list[j].block != list[k].block
      ensures Fresh(states, shapes, heap, heap + Extent(shapes))
    {
      hide Fresh, MapInv, Extent;
      list, states := [], [];
      var base: nat := heap;
      FreshStart(heap);
      for i := 0 to |shapes|
        invariant |list| == |states| == i
        invariant forall k :: 0 <= k < i ==> fresh(list[k]) && fresh(list[k].block) && list[k].State() == states[k]
        invariant forall j, k :: 0 <= j < k < i ==> list[j] != list[k] && list[j].block != list[k].block
        invariant base == heap + Extent(shapes[..i]) && Fresh(states, shapes[..i], heap, base)
      {
        var m := new BlockMap(shapes[i].blockSize, shapes[i].count, base);
        FreshStep(states, shapes[..i], heap, base, shapes[i], m.State());
        ExtentStep(shapes, i);
        list := list + [m];
        states := states + [m.State()];
        base := base + shapes[i].blockSize * shapes[i].count;
      }
      assert shapes[..|shapes|] == shapes;
    }

    // ptr is a new live pointer for the request
    ghost predicate Handed(was: Live, ptr: nat, bytes: nat, align: nat)
      reads this
    {
      && ptr !in was && ptr in live && live == was[ptr := live[ptr]]
      && live[ptr].bytes >= bytes && live[ptr].align == align
    }

    // The blocks of g were taken and ptr was given for them: a new live pointer if it lies
    // in the first of them, and otherwise the address behind a block that is lost
    ghost predicate Given(was: Live, gone: set<nat>, prev: seq<Map>, g: Region, ptr: nat, bytes: nat, align: nat)
      reads this
    {
      && g.level < |prev|
      && if Inside(prev, g, ptr) then Handed(was, ptr, bytes, align) && live[ptr] == g && lost == gone
         else
           var key := Addr(prev[g.level], g.start);
           && bytes == 0 && g.count == 1 && ptr == Addr(prev[g.level], g.start + 1)
           && key !in was && live == was[key := g] && lost == gone + {key}
    }

    /** alloc_block_index on map l, for a block that has room for the request. */
    method AllocBlockIndex(l: nat, align: nat, index: nat, ghost bytes: nat) returns (ptr: nat, ghost g: Region)
      requires Sound() && l < |maps| && SingleFits(ms[l], bytes, align, index)
      modifies this, maps[l], maps[l].block
      ensures Sound() && ptr == AlignUp(Addr(old(ms)[l], index), align)
      ensures g.level == l && g.start == index && g.count == 1
      ensures Given(old(live), old(lost), old(ms), g, ptr, bytes, align)
      ensures BlockTaken(old(Shot()), Shot(), l, index, bytes, align)
      ensures old(ms)[l].freeCount > 0 && ms == old(ms)[l := TakeOne(old(ms)[l], index)]
    {
      hide Addr, AlignUp, Laid, MapInv, LiveInv, TakeOne, Mark, UsedBytes;
      MapsAt(ms, l);
      TookOne(ms[l], index);
      SingleInside(ms[l], bytes, align, index);
      BlockRoom(ms[l], index);
      ghost var u := TakeOne(ms[l], index);
      ghost var key := AlignUp(Addr(ms[l], index), align);
      g := Region(l, index, 1, bytes, align);
      if !Inside(ms, g, key) {
        g := Region(l, index, 1, 0, 0);
        key := Addr(ms[l], index);
        lost := lost + {key};
      }
      AllocKeeps(ms, heap, size, live, u, key, g);
      UsedUpdate(ms, l, u, 1);
      ptr := maps[l].TakeBlock(index, align);
      used := used + maps[l].blockSize;
      free := free - maps[l].blockSize;
      ms := ms[l := u];
      live := live[key := g];
    }

    /** alloc_cont_blocks on map l: the lowest place with room in a free run, taking no
        more blocks than needed; refused only when the map has no such place. */
    method AllocContBlocks(l: nat, bytes: nat, align: nat) returns (r: Option<nat>)
      requires Sound() && l < |maps| && bytes > 0
      modifies this, maps[l], maps[l].block
      ensures Sound()
      ensures r.None? ==> ms == old(ms) && live == old(live)
      ensures lost == old(lost)
      ensures r.None? <==> NoRun(old(ms)[l], bytes, align)
      ensures r.Some? ==> Handed(old(live), r.value, bytes, align) && RunAt(old(ms)[l], live[r.value], l, bytes, r.value)
      ensures r.Some? ==> live[r.value].bytes == bytes
      ensures r.Some? ==> forall s: nat, n: nat, p: nat :: Fits(old(ms)[l], bytes, align, s, n, p) ==> r.value <= p
      ensures r.Some? ==> ms == old(ms)[l := TakeRun(old(ms)[l], live[r.value].start, live[r.value].count)]
    {
      hide Addr, AlignUp, Aligned, Laid, MapInv, LiveInv, TakeRun, Mark, UsedBytes;
      MapsAt(ms, l);
      var found, start, count, aligned := maps[l].FindRun(bytes, align);
      if !found { return None; }
      ghost var g := Region(l, start, count, bytes, align);
      TookRun(ms[l], start, count);
      ghost var u := TakeRun(ms[l], start, count);
      AllocKeeps(ms, heap, size, live, u, aligned, g);
      UsedUpdate(ms, l, u, count);
      maps[l].TakeBlocks(start, count);
      used := used + count * maps[l].blockSize;
      free := free - count * maps[l].blockSize;
      ms := ms[l := u];
      live := live[aligned := g];
      r := Some(aligned);
    }

    /** get_ptr_from_heap: the first free block of the first map that accepts the request. */
    method GetPtr(bytes: nat, align: nat) returns (r: Option<nat>, ghost l: nat)
      requires Sound()
      modifies this, maps, Arrays()
      ensures Sound() && l <= |ms| == |old(ms)|
      ensures forall k :: 0 <= k < l ==> !Accepts(old(ms)[k], bytes, align)
      ensures r.None? ==> l == |ms| && ms == old(ms) && live == old(live)
      ensures lost == old(lost)
      ensures r.Some? ==> l < |ms| && Accepts(old(ms)[l], bytes, align)
      ensures r.Some? ==> Handed(old(live), r.value, bytes, align)
      ensures r.Some? ==> live[r.value] == Region(l, old(ms)[l].firstFree, 1, bytes, align)
      ensures r.Some? ==> BlockTaken(old(Shot()), Shot(), l, old(ms)[l].firstFree, bytes, align)
      ensures r.Some? ==> ms == old(ms)[l := TakeOne(old(ms)[l], old(ms)[l].firstFree)]
      ensures r.None? <==> forall k: nat :: k < |old(ms)| ==> !FirstHasRoom(old(ms)[k], bytes, align)
      ensures align <= 1 ==> (r.None? <==> NoSingle(old(ms), bytes, align))
    {
      hide Addr, AlignUp, Aligned, Laid, MapInv, LiveInv, TakeOne, Mark, UsedBytes, Accepts, FirstHasRoom, NoSingle;
      ServedWhen(ms, bytes, align);
      var i := 0;
      while i < |maps|
        invariant 0 <= i <= |maps| && Sound() && ms == old(ms) && live == old(live)
        invariant forall k :: 0 <= k < i ==> !Accepts(ms[k], bytes, align)
        invariant unchanged(this) && forall k :: 0 <= k < |maps| ==> unchanged(maps[k], maps[k].block)
      {
        var m := maps[i];
        BlockAddress(ms[i], m.firstFree);
        AcceptsIs(ms[i], bytes, align);
        MapsAt(ms, i);
        var temp := bytes;
        if align > 0 && (m.base + m.firstFree * m.blockSize) % align != 0 { temp := temp + align; }
        if m.blockSize >= temp && m.freeCount != 0 {
          AcceptedFits(ms[i], bytes, align);
          var ptr, g := AllocBlockIndex(i, align, m.firstFree, bytes);
          return Some(ptr), i;
        }
        i := i + 1;
      }
      return None, |maps|;
    }

    /** alloc_heap_buffer: one block that fits, or else a run of blocks with room for the
        request and its alignment together. A block is lost if and only if no bytes are
        asked for and the block taken holds no address with the alignment. */
    method AllocHeapBuffer(bytes: nat, align: nat) returns (r: Option<nat>, ghost g: Region)
      requires Sound()
      modifies this, maps, Arrays()
      ensures Sound()
      ensures r.None? ==> ms == old(ms) && live == old(live) && lost == old(lost)
      ensures r.None? <==> Refused(old(ms), size, bytes, align)
      ensures r.Some? ==> Given(old(live), old(lost), old(ms), g, r.value, bytes, align) && Undoes(old(ms), ms, g)
      ensures !NoSingle(old(ms), bytes, align) ==> r.Some? && Placed(old(Shot()), r.value, g, bytes, align)
      ensures NoSingle(old(ms), bytes, align) && r.Some? ==>
        RunTaken(old(Shot()), Shot(), g, r.value, bytes + align, align)
      ensures r.Some? ==> (Inside(old(ms), g, r.value) <==> !Strays(old(ms), bytes, align))
      ensures lost == old(lost) <==> !Strays(old(ms), bytes, align)
      ensures old(Valid()) ==> (Valid() <==> !Strays(old(ms), bytes, align))
      ensures bytes > 0 || align <= 1 ==> !Strays(old(ms), bytes, align)
    {
      hide Addr, AlignUp, Aligned, Laid, MapInv, LiveInv, TakeOne, TakeRun, Mark, UsedBytes, SingleFits, NoRun, Undoes,
        BlockTaken, RunTaken, First, Strays, HeapInv, Given, Inside, NoSingle, NoRuns;
      r, g := AllocSingle(bytes, align);
      if r.Some? { return; }
      NoStray(old(ms), bytes, align);
      var more := bytes + align;
      if size < more { return; }
      r, g := AllocRun(more, align);
      if r.Some? { GivenRun(g, r.value, old(live), old(lost), old(ms), bytes, align); }
    }

    // A pointer for a whole run of blocks lies in the first of them
    lemma GivenRun(g: Region, ptr: nat, was: Live, gone: set<nat>, prev: seq<Map>, bytes: nat, align: nat)
      requires Handed(was, ptr, bytes + align, align) && live[ptr] == g && lost == gone
      requires g.level < |prev| && Inside(prev, g, ptr)
      ensures Given(was, gone, prev, g, ptr, bytes, align)
    {
    }

    // The lowest fitting block of the first map that has one, and its aligned address
    ghost predicate Placed(a: Snap, ptr: nat, g: Region, bytes: nat, align: nat)
      reads this
    {
      && First(a.ms, bytes, align, g.level, g.start) && BlockTaken(a, Shot(), g.level, g.start, bytes, align)
      && ptr == AlignUp(Addr(a.ms[g.level], g.start), align)
    }

    method AllocSingle(bytes: nat, align: nat) returns (r: Option<nat>, ghost g: Region)
      requires Sound()
      modifies this, maps, Arrays()
      ensures Sound()
      ensures r.None? ==> ms == old(ms) && live == old(live) && lost == old(lost) && used == old(used) && free == old(free)
      ensures r.None? <==> NoSingle(old(ms), bytes, align)
      ensures r.Some? ==> Given(old(live), old(lost), old(ms), g, r.value, bytes, align) && Undoes(old(ms), ms, g)
      ensures r.Some? ==> Placed(old(Shot()), r.value, g, bytes, align)
      ensures r.Some? ==> (Inside(old(ms), g, r.value) <==> !Strays(old(ms), bytes, align))
      ensures r.Some? ==> (lost == old(lost) <==> !Strays(old(ms), bytes, align))
      ensures r.Some? && (bytes > 0 || align <= 1) ==> !Strays(old(ms), bytes, align)
    {
      hide Addr, AlignUp, Aligned, Laid, MapInv, LiveInv, TakeOne, TakeRun, Mark, UsedBytes, SingleFits, Undoes, BlockTaken,
        First, Strays;
      g := Region(0, 0, 0, 0, 0);
      var i := 0;
      while i < |maps|
        invariant 0 <= i <= |maps| && Sound() && ms == old(ms) && live == old(live) && lost == old(lost)
        invariant forall l: nat, j: nat :: l < i ==> !SingleFits(ms[l], bytes, align, j)
        invariant unchanged(this) && forall k :: 0 <= k < |maps| ==> unchanged(maps[k], maps[k].block)
      {
        MapsAt(ms, i);
        var found, j := FindBlock(maps[i], bytes, align);
        if found {
          SingleAt(ms[i], bytes, align, j);
          IsFirst(ms, bytes, align, i, j);
          var ptr;
          ptr, g := AllocBlockIndex(i, align, j, bytes);
          SingleUndone(old(ms), i, j, g);
          StraysGiven(g, ptr, old(Shot()), i, j, bytes, align);
          return Some(ptr), g;
        }
        i := i + 1;
      }
      return None, g;
    }

    lemma StraysGiven(g: Region, ptr: nat, a: Snap, l: nat, j: nat, bytes: nat, align: nat)
      requires First(a.ms, bytes, align, l, j) && g.level == l && g.start == j && ptr == AlignUp(Addr(a.ms[l], j), align)
      requires Given(a.live, a.lost, a.ms, g, ptr, bytes, align) && lost <= live.Keys && a.lost <= a.live.Keys
      requires MapInv(a.ms[l])
      ensures Inside(a.ms, g, ptr) <==> !Strays(a.ms, bytes, align)
      ensures lost == a.lost <==> !Strays(a.ms, bytes, align)
      ensures bytes > 0 || align <= 1 ==> !Strays(a.ms, bytes, align)
    {
      hide Addr, AlignUp, MapInv, Strays;
      StraysWhen(a.ms, bytes, align, l, j);
      SingleAt(a.ms[l], bytes, align, j);
    }

    method AllocRun(bytes: nat, align: nat) returns (r: Option<nat>, ghost g: Region)
      requires Sound()
      modifies this, maps, Arrays()
      ensures Sound()
      ensures r.None? ==> ms == old(ms) && live == old(live) && used == old(used) && free == old(free)
      ensures lost == old(lost)
      ensures r.None? <==> NoRuns(old(ms), bytes, align)
      ensures r.Some? ==> Handed(old(live), r.value, bytes, align) && live[r.value] == g && Undoes(old(ms), ms, g)
      ensures r.Some? ==> g.level < |old(ms)| && Inside(old(ms), g, r.value)
      ensures r.Some? ==> RunTaken(old(Shot()), Shot(), g, r.value, bytes, align)
    {
      hide Addr, AlignUp, Aligned, Laid, MapInv, LiveInv, TakeOne, TakeRun, Mark, UsedBytes, NoRun, Undoes;
      g := Region(0, 0, 0, 0, 0);
      var i := |maps|;
      while i > 0
        invariant 0 <= i <= |maps| && Sound() && ms == old(ms) && live == old(live) && lost == old(lost)
        invariant used == old(used) && free == old(free)
        invariant forall l: nat :: i <= l < |ms| && ms[l].blockSize < bytes ==> NoRun(ms[l], bytes, align)
      {
        i := i - 1;
        if maps[i].blockSize < bytes {
          MapsAt(ms, i);
          r := AllocContBlocks(i, bytes, align);
          if r.Some? {
            g := live[r.value];
            RunUndone(old(ms), i, g, bytes, r.value);
            return;
          }
        }
      }
      return None, g;
    }

    /** free_block for any address: it releases exactly the allocation whose blocks hold
        the address, and otherwise changes nothing. */
    method FreeBlock(ptr: nat) returns (r: Release, ghost owner: nat)
      requires Sound()
      modifies this, maps, Arrays()
      ensures Sound()
      ensures r.Released? ==> owner in old(live) && live == old(live) - {owner} && Within(old(ms), old(live)[owner], ptr)
      ensures r.Released? ==> Freed(old(Shot()), Shot(), owner)
      ensures lost == old(lost) - if r.Released? then {owner} else {}
      ensures r.Released? ==> var g := old(live)[owner]; ms == old(ms)[g.level := GiveBack(old(ms)[g.level], g.start)]
      ensures !r.Released? ==> ms == old(ms) && live == old(live) && used == old(used) && free == old(free)
      ensures !r.Released? ==> forall p :: p in old(live) ==> !Within(old(ms), old(live)[p], ptr)
      ensures ptr in old(live) ==> r.Released? && owner == ptr
    {
      hide Addr, Aligned, IsRun, Laid, MapInv, LiveInv, GiveBack, Within, UsedBytes, End;
      owner := 0;
      if ptr in live { HeldWithin(ms, live, ptr); }
      var found, i, b := Locate(ptr);
      if !found { return Outside, owner; }
      var m := maps[i];
      MapsAt(ms, i);
      if m.block[b].used {
        owner := OwnerOf(ms, heap, size, live, ptr, i, b);
      } else {
        NoOwner(ms, heap, size, live, ptr, i, b);
      }
      var at, from := b, ptr;
      if m.block[b].unaligned.Some? && m.block[b].unaligned.value != ptr {
        from := m.block[b].unaligned.value;
        at := (from - m.base) / m.blockSize;
      }
      if m.base + m.blockSize * at != from { return Panic, owner; }
      r := ReleaseAt(i, at, ptr, owner);
    }

    // Releases the blocks of the header at block s of map l
    method ReleaseAt(l: nat, s: nat, ghost ptr: nat, ghost owner: nat) returns (r: Release)
      requires Sound() && l < |maps| && s < maps[l].block.Length
      requires if maps[l].block[s].used then owner in live && live[owner].level == l && live[owner].start == s
               else true
      modifies this, maps[l], maps[l].block
      ensures Sound()
      ensures r == if old(maps[l].block[s].used) then Released else Unused
      ensures r.Released? ==> live == old(live) - {owner} && Held(old(ms), owner, old(live)[owner])
      ensures lost == old(lost) - if r.Released? then {owner} else {}
      ensures r.Released? ==> ms == old(ms)[l := GiveBack(old(ms)[l], s)]
      ensures !r.Released? ==> ms == old(ms) && live == old(live) && used == old(used) && free == old(free)
    {
      hide Addr, Aligned, Laid, MapInv, LiveInv, GiveBack, UsedBytes;
      var m := maps[l];
      var n := m.block[s].size;
      MapsAt(ms, l);
      if m.block[s].used {
        ghost var g := live[owner];
        FreeKeeps(ms, heap, size, live, owner);
        ReleaseOne(ms[l], s, g.count);
        ghost var u := GiveBack(ms[l], s);
        UsedUpdate(ms, l, u, -n);
        m.Release(s);
        ms := ms[l := u];
        live, lost := live - {owner}, lost - {owner};
        r := Released;
      } else {
        ReleaseUnused(ms[l], s);
        m.Release(s);
        r := Unused;
      }
      used := used - n * m.blockSize;
      free := free + n * m.blockSize;
    }

    /** The map and block that hold an address. */
    method Locate(ptr: nat) returns (found: bool, i: nat, b: nat)
      requires Sound()
      ensures found ==> i < |ms| && b < |ms[i].block| && Addr(ms[i], b) <= ptr < Addr(ms[i], b + 1)
      ensures !found ==> forall p :: p in live ==> !Within(ms, live[p], ptr)
    {
      hide Addr, Aligned, IsRun, Laid, LiveInv, Within, UsedBytes, End;
      i, b := 0, 0;
      if ptr < heap || ptr >= heap + size {
        OutsideHeap(ms, heap, size, live, ptr);
        return false, i, b;
      }
      while i < |maps| && ptr >= maps[i].base + maps[i].blockSize * maps[i].block.Length
        invariant i <= |maps|
        invariant forall k :: 0 <= k < i ==> End(ms[k]) <= ptr
      {
        EndIs(ms[i]);
        i := i + 1;
      }
      if i == |maps| {
        PastMaps(ms, live, ptr);
        return false, i, b;
      }
      EndIs(ms[i]);
      InMap(ms, heap, size, ptr, i);
      MapsAt(ms, i);
      b := (ptr - maps[i].base) / maps[i].blockSize;
      BlockBounds(ms[i], ptr);
      found := true;
    }

    /** Giving back the pointer just returned restores the whole state of the heap, unless the
        request is one of those whose pointer lies outside. Then the block stays taken and
        lost, and the allocation that holds the address, if there is one, is released. */
    method AllocateAndFree(bytes: nat, align: nat) returns (served: bool, ptr: nat, ghost g: Region)
      requires Sound()
      modifies this, maps, Arrays()
      ensures Sound() && (served <==> !Refused(old(ms), size, bytes, align))
      ensures !Strays(old(ms), bytes, align) ==>
        && ms == old(ms) && live == old(live) && lost == old(lost) && used == old(used) && free == old(free)
        && forall k :: 0 <= k < |maps| ==> maps[k].State() == old(maps[k].State())
      ensures Strays(old(ms), bytes, align) ==>
        && served && First(old(ms), bytes, align, g.level, g.start) && ptr == Addr(old(ms)[g.level], g.start + 1)
        && StrayLeft(old(ms)[g.level], ms, g) && !Valid()
        && Addr(old(ms)[g.level], g.start) in lost && Addr(old(ms)[g.level], g.start) !in old(live)
        && forall p :: p in live <==>
             p == Addr(old(ms)[g.level], g.start) || (p in old(live) && !Within(old(ms), old(live)[p], ptr))
    {
      hide Laid, MapInv, HeapInv, GiveBack, UsedBytes, Refused, IsRun, Within, Addr, Strays, First, NoSingle, BlockTaken,
        RunTaken, AlignUp;
      var r;
      if Strays(ms, bytes, align) { StrayServed(ms, bytes, align); }
      r, g := AllocHeapBuffer(bytes, align);
      if r.None? { return false, 0, g; }
      ptr, served := r.value, true;
      ghost var mid := Shot();
      UndoesFree(old(ms), mid.ms, g);
      if Strays(old(ms), bytes, align) { StraySetUp(old(Shot()), mid, g, ptr, bytes, align); }
      var f, owner := FreeBlock(ptr);
      if Strays(old(ms), bytes, align) {
        ghost var key := Addr(old(ms)[g.level], g.start);
        StrayStays(old(ms), mid.ms, mid.live, g, key, ptr, f.Released?, owner);
        StrayReleases(old(Shot()), mid, heap, size, live, key, ptr, f.Released?, owner);
        LostUsed(ms, heap, size, live, key);
      }
    }

    /** The same for a pointer from get_ptr_from_heap. */
    method GetAndFree(bytes: nat, align: nat) returns (served: bool)
      requires Sound()
      modifies this, maps, Arrays()
      ensures Sound() && ms == old(ms) && live == old(live) && lost == old(lost) && used == old(used) && free == old(free)
      ensures forall k :: 0 <= k < |maps| ==> maps[k].State() == old(maps[k].State())
      ensures served <==> exists k :: 0 <= k < |old(ms)| && Accepts(old(ms)[k], bytes, align)
    {
      hide Laid, MapInv, LiveInv, GiveBack, UsedBytes, Accepts, IsRun, Within, TakeOne, Aligned;
      var r, l := GetPtr(bytes, align);
      if r.None? { return false; }
      AcceptedUndone(old(ms), l, bytes, align);
      var f, owner := FreeBlock(r.value);
      served := true;
    }

    /** One request: the heap changes as the request says. */
    method ServeOne(request: Request)
      requires Sound()
      modifies this, maps, Arrays()
      ensures Sound() && Served(old(Shot()), request, Shot(), size)
      ensures |lost| == |old(lost)| + (if Loses(old(Shot()), request) then 1 else 0) - if Regains(old(Shot()), request) then 1 else 0
    {
      hide Laid, MapInv, HeapInv, GiveBack, UsedBytes, Refused, IsRun, Within, Undoes, TakeOne, Aligned, Addr, First, Strays,
        BlockTaken, RunTaken, Freed, NoSingle, AlignUp, Accepts, Given, Inside, Regains;
      match request {
        case GetPtr(bytes, align) => var r, l := GetPtr(bytes, align);
        case HeapBuffer(bytes, align) => var r, g := AllocHeapBuffer(bytes, align);
        case Free(ptr) => var r, owner := FreeBlock(ptr);
      }
      LossIs(old(Shot()), request, Shot(), heap, size);
    }

    /** Any sequence of requests of any sizes and releases of any addresses keeps the
        invariant, each request changing the heap as it says. The lost blocks are those of the
        requests for nothing whose block holds no aligned address, less those that a release
        of another address in them gives back. */
    method Serve(requests: seq<Request>) returns (ghost trace: seq<Snap>)
      requires Sound()
      modifies this, maps, Arrays()
      ensures Sound() && |trace| == |requests| + 1 && trace[0] == old(Shot()) && trace[|requests|] == Shot()
      ensures forall k :: 0 <= k < |requests| ==> Served(trace[k], requests[k], trace[k + 1], size)
      ensures |lost| == |old(lost)| + Losses(trace, requests) - Gains(trace, requests)
      ensures old(Valid()) ==> (Valid() <==> Losses(trace, requests) == Gains(trace, requests))
      ensures forall p, q :: p in live && q in live && p != q ==> BytesApart(p, live[p], q, live[q])
      ensures forall p :: p in live ==> Aligned(p, live[p].align) && heap <= p && p + live[p].bytes <= heap + size
    {
      hide Laid, MapInv, HeapInv, GiveBack, UsedBytes, Refused, IsRun, Within, Undoes, TakeOne, Aligned, Served, Loses, Regains,
        Losses, Gains;
      trace := [Shot()];
      CountNothing(trace, requests);
      for k := 0 to |requests|
        invariant Sound() && |trace| == k + 1 && trace[0] == old(Shot()) && trace[k] == Shot()
        invariant forall i :: 0 <= i < k ==> Served(trace[i], requests[i], trace[i + 1], size)
        invariant |lost| == |old(lost)| + Losses(trace, requests[..k]) - Gains(trace, requests[..k])
      {
        ServeOne(requests[k]);
        CountNext(trace, requests, k, Shot());
        trace := trace + [Shot()];
      }
      assert requests[..|requests|] == requests;
      forall p | p in live
        ensures Aligned(p, live[p].align) && heap <= p && p + live[p].bytes <= heap + size
      {
        LiveInside(ms, heap, size, live, p);
      }
      forall p, q | p in live && q in live && p != q
        ensures BytesApart(p, live[p], q, live[q])
      {
        LiveDisjoint(ms, heap, size, live, p, q);
      }
    }
  }

  /** So a block can be lost: in a new heap of two blocks of 128 bytes at 128, a request for
      no bytes aligned to 256 takes the first block and is given the address of the second. */
  method EmptyRequestLoses() returns (h: MmHeap, r: Option<nat>)
    ensures h.Sound() && !h.Valid() && r == Some(256)
  {
    hide AlignUp, Aligned, First;
    h := new MmHeap([Shape(128, 2)], 128, 256);
    LoneMap(h.ms, h.heap, h.size, h.live);
    ghost var was := h.ms;
    ghost var g;
    r, g := h.AllocHeapBuffer(0, 256);
    OneFirst(was, 0, 256, 0, 0, g.level, g.start);
  }

  lemma LoneMap(ms: seq<Map>, heap: nat, size: nat, live: Live)
    requires |ms| == 1 && FreshMap(ms[0], Shape(128, 2)) && HeapInv(ms, heap, size, live) && heap == 128
    ensures First(ms, 0, 256, 0, 0) && Strays(ms, 0, 256) && !NoSingle(ms, 0, 256)
    ensures AlignUp(Addr(ms[0], 0), 256) == 256
  {
    var m := ms[0];
    assert m.base == 128 && !m.block[0].used;
    assert SingleFits(m, 0, 256, 0);
    assert First(ms, 0, 256, 0, 0) && NoneAligned(256, Addr(m, 0), Addr(m, 1));
  }

  // How many requests of a run lose a block, and how many give one back
  ghost function Losses(trace: seq<Snap>, requests: seq<Request>): nat
    requires |requests| <= |trace|
  {
    if requests == [] then 0
    else
      var k := |requests| - 1;
      Losses(trace, requests[..k]) + if Loses(trace[k], requests[k]) then 1 else 0
  }

  ghost function Gains(trace: seq<Snap>, requests: seq<Request>): nat
    requires |requests| <= |trace|
  {
    if requests == [] then 0
    else
      var k := |requests| - 1;
      Gains(trace, requests[..k]) + if Regains(trace[k], requests[k]) then 1 else 0
  }

  lemma CountNothing(trace: seq<Snap>, requests: seq<Request>)
    ensures Losses(trace, requests[..0]) == 0 && Gains(trace, requests[..0]) == 0
  {
  }

  lemma {:induction false} CountSame(trace: seq<Snap>, requests: seq<Request>, x: Snap)
    requires |requests| <= |trace|
    ensures Losses(trace + [x], requests) == Losses(trace, requests) && Gains(trace + [x], requests) == Gains(trace, requests)
    decreases |requests|
  {
    hide Loses, Regains;
    if requests != [] { CountSame(trace, requests[..|requests| - 1], x); }
  }

  lemma CountNext(trace: seq<Snap>, requests: seq<Request>, k: nat, x: Snap)
    requires k < |requests| && |trace| == k + 1
    ensures Losses(trace + [x], requests[..k + 1]) == Losses(trace, requests[..k]) + if Loses(trace[k], requests[k]) then 1 else 0
    ensures Gains(trace + [x], requests[..k + 1]) == Gains(trace, requests[..k]) + if Regains(trace[k], requests[k]) then 1 else 0
  {
    hide Loses, Regains;
    CountSame(trace, requests[..k + 1], x);
    assert requests[..k + 1][..k] == requests[..k];
  }

  datatype Request = GetPtr(bytes: nat, align: nat) | HeapBuffer(bytes: nat, align: nat) | Free(ptr: nat)

  // The bytes of two allocations do not meet
  predicate BytesApart(p: nat, g: Region, q: nat, h: Region) {
    p + g.bytes <= q || q + h.bytes <= p
  }

  // ---------------------------------------------------------------- finding the owner

  lemma EndIs(m: Map)
    ensures End(m) == m.base + m.blockSize * |m.block|
  {
  }

  lemma WithinMap(ms: seq<Map>, p: nat, g: Region, ptr: nat)
    requires Held(ms, p, g) && Within(ms, g, ptr)
    ensures ms[g.level].base <= ptr < End(ms[g.level])
  {
    AddrLe(ms[g.level], 0, g.start);
    AddrLe(ms[g.level], g.start + g.count, |ms[g.level].block|);
  }

  lemma OutsideHeap(ms: seq<Map>, heap: nat, size: nat, live: Live, ptr: nat)
    requires HeapInv(ms, heap, size, live) && (ptr < heap || ptr >= heap + size)
    ensures forall p :: p in live ==> !Within(ms, live[p], ptr)
  {
    hide Addr, Laid, MapsInv, Within, Apart, AllOwned, End;
    forall p | p in live && Within(ms, live[p], ptr)
      ensures false
    {
      assert Held(ms, p, live[p]);
      WithinMap(ms, p, live[p], ptr);
      LaidInside(ms, heap, size, live[p].level);
    }
  }

  lemma PastMaps(ms: seq<Map>, live: Live, ptr: nat)
    requires LiveInv(ms, live) && forall k :: 0 <= k < |ms| ==> End(ms[k]) <= ptr
    ensures forall p :: p in live ==> !Within(ms, live[p], ptr)
  {
    hide Addr, Within, Apart, AllOwned, End;
    forall p | p in live && Within(ms, live[p], ptr)
      ensures false
    {
      assert Held(ms, p, live[p]);
      WithinMap(ms, p, live[p], ptr);
    }
  }

  lemma InMap(ms: seq<Map>, heap: nat, size: nat, ptr: nat, i: nat)
    requires Laid(ms, heap, size) && i < |ms| && heap <= ptr
    requires forall k :: 0 <= k < i ==> End(ms[k]) <= ptr
    ensures ms[i].base <= ptr
  {
    if i > 0 { assert End(ms[i - 1]) <= ptr; }
  }

  lemma BlockBounds(m: Map, ptr: nat)
    requires m.blockSize > 0 && m.base <= ptr < End(m)
    ensures BlockOf(m, ptr) < |m.block|
    ensures Addr(m, BlockOf(m, ptr)) <= ptr < Addr(m, BlockOf(m, ptr) + 1)
  {
    var b, d := BlockOf(m, ptr), ptr - m.base;
    assert b * m.blockSize <= d < b * m.blockSize + m.blockSize;
    assert (b + 1) * m.blockSize == b * m.blockSize + m.blockSize;
    MulLe(|m.block|, b, m.blockSize);
  }

  // A region around an address covers the block that holds it
  lemma WithinCovers(ms: seq<Map>, heap: nat, size: nat, p: nat, g: Region, ptr: nat, i: nat, b: nat)
    requires Laid(ms, heap, size) && Held(ms, p, g) && Within(ms, g, ptr)
    requires i < |ms| && b < |ms[i].block| && Addr(ms[i], b) <= ptr < Addr(ms[i], b + 1)
    ensures Covers(g, i, b) && ms[i].block[b].used
  {
    hide Laid;
    var m := ms[g.level];
    WithinMap(ms, p, g, ptr);
    AddrLe(ms[i], 0, b);
    AddrLe(ms[i], b + 1, |ms[i].block|);
    SameLevel(ms, heap, size, ptr, g.level, i);
    if b < g.start { AddrLe(m, b + 1, g.start); }
    if g.start + g.count <= b { AddrLe(m, g.start + g.count, b); }
  }

  lemma NoOwner(ms: seq<Map>, heap: nat, size: nat, live: Live, ptr: nat, i: nat, b: nat)
    requires HeapInv(ms, heap, size, live)
    requires i < |ms| && b < |ms[i].block| && Addr(ms[i], b) <= ptr < Addr(ms[i], b + 1) && !ms[i].block[b].used
    ensures forall p :: p in live ==> !Within(ms, live[p], ptr)
    ensures ms[i].block[b] == FREE_HDR
  {
    MapsAt(ms, i);
    forall p | p in live
      ensures !Within(ms, live[p], ptr)
    {
      assert Held(ms, p, live[p]);
      if Within(ms, live[p], ptr) { WithinCovers(ms, heap, size, p, live[p], ptr, i, b); }
    }
  }

  // The header of block b says that its allocation starts at block s
  ghost predicate Heads(m: Map, s: nat, b: nat, ptr: nat) {
    && m.blockSize > 0 && s < |m.block| && b < |m.block| && m.block[s].used
    && m.block[b].unaligned == Some(Addr(m, s)) && Addr(m, s) == m.base + m.blockSize * s
    && (Addr(m, s) - m.base) / m.blockSize == s
    && (ptr == Addr(m, s) ==> b == s)
  }

  // The allocation that holds an address in a used block
  lemma OwnerOf(ms: seq<Map>, heap: nat, size: nat, live: Live, ptr: nat, i: nat, b: nat) returns (owner: nat)
    requires HeapInv(ms, heap, size, live) && i < |ms| && b < |ms[i].block|
    requires Addr(ms[i], b) <= ptr < Addr(ms[i], b + 1) && ms[i].block[b].used
    ensures owner in live && live[owner].level == i && Within(ms, live[owner], ptr)
    ensures Heads(ms[i], live[owner].start, b, ptr)
    ensures ptr in live ==> owner == ptr
  {
    hide Addr, IsRun, Laid, MapInv, LiveInv, Within, Heads;
    owner := OwnedBy(ms, live, i, b);
    MapsAt(ms, i);
    CoveredHeader(ms, owner, live[owner], b, ptr);
    if ptr in live && ptr != owner {
      HeldPair(ms, live, owner, ptr);
      HeldBlock(ms, heap, size, ptr, live[ptr], i, b);
    }
  }

  lemma OwnedBy(ms: seq<Map>, live: Live, i: nat, b: nat) returns (owner: nat)
    requires LiveInv(ms, live) && i < |ms| && b < |ms[i].block| && ms[i].block[b].used
    ensures owner in live && Covers(live[owner], i, b) && Held(ms, owner, live[owner])
  {
    hide Addr, Held, Apart;
    owner :| owner in live && Covers(live[owner], i, b);
  }

  lemma HeldPair(ms: seq<Map>, live: Live, p: nat, q: nat)
    requires LiveInv(ms, live) && p in live && q in live && p != q
    ensures Held(ms, q, live[q]) && !Overlap(live[p], live[q]) && live[q].count > 0
  {
    AllHeld(ms, live, p, q);
  }

  lemma HeldWithin(ms: seq<Map>, live: Live, p: nat)
    requires LiveInv(ms, live) && p in live
    ensures Within(ms, live[p], p)
  {
    hide AllOwned, Apart;
    var g := live[p];
    assert Held(ms, p, g);
    AddrLe(ms[g.level], g.start + 1, g.start + g.count);
  }

  lemma CoveredHeader(ms: seq<Map>, p: nat, g: Region, b: nat, ptr: nat)
    requires Held(ms, p, g) && MapInv(ms[g.level]) && g.start <= b < g.start + g.count
    requires Addr(ms[g.level], b) <= ptr < Addr(ms[g.level], b + 1)
    ensures Heads(ms[g.level], g.start, b, ptr) && Within(ms, g, ptr)
  {
    var m, s, n := ms[g.level], g.start, g.count;
    AddrLe(m, s, b);
    AddrLe(m, b + 1, s + n);
    AddrStep(m, s);
    BlockOfAddr(m, s, Addr(m, s));
    if ptr == Addr(m, s) { BlockOfAddr(m, b, ptr); }
  }

  lemma LiveInside(ms: seq<Map>, heap: nat, size: nat, live: Live, p: nat)
    requires HeapInv(ms, heap, size, live) && p in live
    ensures Aligned(p, live[p].align) && heap <= p && p + live[p].bytes <= heap + size
  {
    assert Held(ms, p, live[p]);
    HeldInMap(ms, p, live[p]);
    LaidInside(ms, heap, size, live[p].level);
  }

  // Map m took region g of level l for the pointer p
  ghost predicate RunAt(m: Map, g: Region, l: nat, bytes: nat, p: nat) {
    && g.level == l && 0 < g.count <= m.freeCount && RunFree(m.block, g.start, g.count)
    && Addr(m, g.start + g.count - 1) < p + bytes && p < Addr(m, g.start + 1)
  }

  // The pointer lies in the first block of the region
  ghost predicate Inside(ms: seq<Map>, g: Region, p: nat)
    requires g.level < |ms|
  {
    p < Addr(ms[g.level], g.start + 1)
  }

  // Releasing region g in ns gives the maps ms again
  ghost predicate Undoes(ms: seq<Map>, ns: seq<Map>, g: Region) {
    && g.level < |ns| && IsRun(ns[g.level], g.start, g.count)
    && ns[g.level := GiveBack(ns[g.level], g.start)] == ms
  }

  ghost predicate Within(ms: seq<Map>, g: Region, p: nat) {
    g.level < |ms| && Addr(ms[g.level], g.start) <= p < Addr(ms[g.level], g.start + g.count)
  }

  lemma SingleUndone(ms: seq<Map>, l: nat, j: nat, g: Region)
    requires l < |ms| && MapInv(ms[l]) && j < |ms[l].block| && !ms[l].block[j].used
    requires g.level == l && g.start == j && g.count == 1
    ensures ms[l].freeCount > 0 && Undoes(ms, ms[l := TakeOne(ms[l], j)], g)
  {
    TakeOneUndone(ms[l], j);
  }

  lemma AcceptedUndone(ms: seq<Map>, l: nat, bytes: nat, align: nat)
    requires MapsInv(ms) && l < |ms| && Accepts(ms[l], bytes, align)
    ensures ms[l].firstFree < |ms[l].block|
    ensures Undoes(ms, ms[l := TakeOne(ms[l], ms[l].firstFree)], Region(l, ms[l].firstFree, 1, bytes, align))
  {
    MapsAt(ms, l);
    AcceptedFits(ms[l], bytes, align);
    SingleUndone(ms, l, ms[l].firstFree, Region(l, ms[l].firstFree, 1, bytes, align));
  }

  lemma RunUndone(ms: seq<Map>, l: nat, g: Region, bytes: nat, p: nat)
    requires l < |ms| && MapInv(ms[l]) && RunAt(ms[l], g, l, bytes, p)
    ensures Undoes(ms, ms[l := TakeRun(ms[l], g.start, g.count)], g)
  {
    TakeRunUndone(ms[l], g.start, g.count);
  }

  lemma BlockAddress(m: Map, i: nat)
    ensures Addr(m, i) == m.base + i * m.blockSize
  {
  }

  lemma AcceptedFits(m: Map, bytes: nat, align: nat)
    requires MapInv(m) && Accepts(m, bytes, align)
    ensures SingleFits(m, bytes, align, m.firstFree)
    ensures AlignUp(Addr(m, m.firstFree), align) < Addr(m, m.firstFree + 1)
  {
    AlignUpLeast(Addr(m, m.firstFree), align, 0);
    AddrStep(m, m.firstFree);
  }

  lemma SingleAt(m: Map, bytes: nat, align: nat, j: nat)
    requires SingleFits(m, bytes, align, j) && MapInv(m)
    ensures j < |m.block| && !m.block[j].used
    ensures bytes > 0 || align <= 1 ==> AlignUp(Addr(m, j), align) < Addr(m, j + 1)
  {
    SingleInside(m, bytes, align, j);
  }

  lemma BlockRoom(m: Map, j: nat)
    requires MapInv(m)
    ensures Addr(m, j) < Addr(m, j + 1)
  {
    AddrStep(m, j);
  }

  lemma IsFirst(ms: seq<Map>, bytes: nat, align: nat, l: nat, j: nat)
    requires l < |ms| && SingleFits(ms[l], bytes, align, j)
    requires forall k: nat :: SingleFits(ms[l], bytes, align, k) ==> j <= k
    requires forall h: nat, k: nat :: h < l ==> !SingleFits(ms[h], bytes, align, k)
    ensures First(ms, bytes, align, l, j) && !NoSingle(ms, bytes, align)
  {
  }

  lemma StrayServed(ms: seq<Map>, bytes: nat, align: nat)
    requires Strays(ms, bytes, align)
    ensures !NoSingle(ms, bytes, align)
  {
    if NoSingle(ms, bytes, align) { NoStray(ms, bytes, align); }
  }

  // An address is in the blocks of at most one allocation
  lemma OneOwner(ms: seq<Map>, heap: nat, size: nat, live: Live, p: nat, q: nat, ptr: nat)
    requires HeapInv(ms, heap, size, live) && p in live && q in live
    requires Within(ms, live[p], ptr) && Within(ms, live[q], ptr)
    ensures p == q
  {
    hide Addr, IsRun, MapInv, LiveInv, Laid;
    if p != q {
      AllHeld(ms, live, p, q);
      WithinMap(ms, p, live[p], ptr);
      WithinMap(ms, q, live[q], ptr);
      BaseAddr(ms[live[q].level]);
      SameLevel(ms, heap, size, ptr, live[p].level, live[q].level);
      TwoRuns(ms[live[p].level], live[p], live[q], ptr);
    }
  }

  lemma TwoRuns(m: Map, r: Region, s: Region, ptr: nat)
    requires Addr(m, r.start) <= ptr < Addr(m, r.start + r.count) && Addr(m, s.start) <= ptr < Addr(m, s.start + s.count)
    ensures r.start < s.start + s.count && s.start < r.start + r.count
  {
    if r.start + r.count <= s.start { AddrLe(m, r.start + r.count, s.start); }
    if s.start + s.count <= r.start { AddrLe(m, s.start + s.count, r.start); }
  }

  /** What a request does to the number of lost blocks. */
  lemma LossIs(a: Snap, request: Request, b: Snap, heap: nat, size: nat)
    requires HeapInv(a.ms, heap, size, a.live) && a.lost <= a.live.Keys && Served(a, request, b, size)
    ensures |b.lost| == |a.lost| + (if Loses(a, request) then 1 else 0) - if Regains(a, request) then 1 else 0
  {
    hide Addr, AlignUp, Aligned, HeapInv, SingleFits, Refused, Within, First, Strays, Accepts, NoSingle, RunTaken;
    match request
    case GetPtr(bytes, align) => GetLoss(a, b, bytes, align, heap, size);
    case HeapBuffer(bytes, align) => BufferLoss(a, b, bytes, align, size);
    case Free(ptr) => FreeLoss(a, b, ptr, heap, size);
  }

  lemma GetLoss(a: Snap, b: Snap, bytes: nat, align: nat, heap: nat, size: nat)
    requires HeapInv(a.ms, heap, size, a.live) && Served(a, GetPtr(bytes, align), b, size)
    ensures b.lost == a.lost
  {
    hide Addr, AlignUp, Aligned, MapInv, LiveInv, Laid, Accepts, TakeOne;
    if l: nat :| l < |a.ms| && Accepts(a.ms[l], bytes, align) && BlockTaken(a, b, l, a.ms[l].firstFree, bytes, align) {
      MapsAt(a.ms, l);
      AcceptedFits(a.ms[l], bytes, align);
    }
  }

  lemma BufferLoss(a: Snap, b: Snap, bytes: nat, align: nat, size: nat)
    requires a.lost <= a.live.Keys && Served(a, HeapBuffer(bytes, align), b, size)
    ensures |b.lost| == |a.lost| + if Strays(a.ms, bytes, align) then 1 else 0
  {
    hide Addr, AlignUp, SingleFits, First, Strays, NoSingle, NoRuns, NoRun, TakeOne, TakeRun;
    if l: nat, j: nat :| First(a.ms, bytes, align, l, j) && BlockTaken(a, b, l, j, bytes, align) {
      StraysWhen(a.ms, bytes, align, l, j);
    } else {
      NoStray(a.ms, bytes, align);
    }
  }

  lemma FreeLoss(a: Snap, b: Snap, ptr: nat, heap: nat, size: nat)
    requires HeapInv(a.ms, heap, size, a.live) && a.lost <= a.live.Keys && Served(a, Free(ptr), b, size)
    ensures |b.lost| == |a.lost| - if Regains(a, Free(ptr)) then 1 else 0
  {
    hide HeapInv, Within, Held, GiveBack;
    if owner :| Freed(a, b, owner) && Within(a.ms, a.live[owner], ptr) {
      forall p | p in a.live && Within(a.ms, a.live[p], ptr)
        ensures p == owner
      {
        OneOwner(a.ms, heap, size, a.live, p, owner, ptr);
      }
      if owner !in a.lost { assert b.lost == a.lost; }
    }
  }

  // The block of a stray pointer was free and is taken now
  predicate StrayLeft(m: Map, ms: seq<Map>, g: Region) {
    && g.level < |ms| && g.start < |ms[g.level].block| && ms[g.level].block[g.start].used
    && g.start < |m.block| && !m.block[g.start].used
  }

  ghost predicate SamePlaces(ms: seq<Map>, ns: seq<Map>) {
    |ms| == |ns| && forall l :: 0 <= l < |ms| ==> ms[l].base == ns[l].base && ms[l].blockSize == ns[l].blockSize
  }

  // Releasing a stray address releases whatever other allocation holds it
  lemma StrayReleases(a: Snap, b: Snap, heap: nat, size: nat, live: Live, key: nat, ptr: nat, released: bool, owner: nat)
    requires SamePlaces(a.ms, b.ms) && HeapInv(b.ms, heap, size, b.live)
    requires key !in a.live && key in b.live && b.live == a.live[key := b.live[key]]
    requires released ==> owner in b.live && owner != key && Within(b.ms, b.live[owner], ptr) && live == b.live - {owner}
    requires !released ==> live == b.live && forall p :: p in b.live ==> !Within(b.ms, b.live[p], ptr)
    ensures forall p :: p in live <==> p == key || (p in a.live && !Within(a.ms, a.live[p], ptr))
  {
    hide HeapInv;
    forall p | p in a.live
      ensures p in live <==> !Within(a.ms, a.live[p], ptr)
    {
      assert p in b.live && b.live[p] == a.live[p];
      assert Within(a.ms, a.live[p], ptr) == Within(b.ms, b.live[p], ptr);
      if released && Within(b.ms, b.live[p], ptr) { OneOwner(b.ms, heap, size, b.live, p, owner, ptr); }
    }
  }

  lemma TakenPlaces(a: Snap, b: Snap, l: nat, j: nat, bytes: nat, align: nat)
    requires BlockTaken(a, b, l, j, bytes, align)
    ensures SamePlaces(a.ms, b.ms)
  {
  }

  // Releasing by the address behind a lost block leaves that block alone
  lemma StrayStays(ms: seq<Map>, mid: seq<Map>, live: Live, g: Region, key: nat, ptr: nat, released: bool, owner: nat)
    requires g.level < |ms| && ptr == Addr(ms[g.level], g.start + 1) && SamePlaces(ms, mid)
    requires key in live && live[key].level == g.level && live[key].start == g.start && live[key].count == 1
    requires released ==> owner in live && Within(mid, live[owner], ptr)
    ensures released ==> owner != key
  {
  }

  lemma StraySetUp(a: Snap, b: Snap, g: Region, ptr: nat, bytes: nat, align: nat)
    requires Strays(a.ms, bytes, align) && First(a.ms, bytes, align, g.level, g.start)
    requires BlockTaken(a, b, g.level, g.start, bytes, align) && ptr == AlignUp(Addr(a.ms[g.level], g.start), align)
    ensures var key := Addr(a.ms[g.level], g.start);
      && ptr == Addr(a.ms[g.level], g.start + 1) && SamePlaces(a.ms, b.ms) && key !in a.live
      && b.live == a.live[key := Region(g.level, g.start, 1, 0, 0)] && b.lost == a.lost + {key}
  {
    hide Addr, AlignUp, First, Strays;
    StraysWhen(a.ms, bytes, align, g.level, g.start);
    TakenPlaces(a, b, g.level, g.start, bytes, align);
  }

  lemma UndoesFree(ms: seq<Map>, ns: seq<Map>, g: Region)
    requires Undoes(ms, ns, g)
    ensures g.level < |ms| && g.start < |ms[g.level].block| && !ms[g.level].block[g.start].used
  {
  }

  lemma LostUsed(ms: seq<Map>, heap: nat, size: nat, live: Live, key: nat)
    requires HeapInv(ms, heap, size, live) && key in live
    ensures var g := live[key]; g.level < |ms| && g.start < |ms[g.level].block| && ms[g.level].block[g.start].used
  {
    assert Held(ms, key, live[key]);
  }

  /** The search of alloc_heap_buffer in one map: the lowest block that fits. */
  method FindBlock(bm: BlockMap, bytes: nat, align: nat) returns (found: bool, j: nat)
    requires MapInv(bm.State())
    ensures found ==> SingleFits(bm.State(), bytes, align, j)
    ensures found ==> forall k: nat :: SingleFits(bm.State(), bytes, align, k) ==> j <= k
    ensures !found ==> forall k: nat :: !SingleFits(bm.State(), bytes, align, k)
  {
    ghost var m := bm.State();
    if bm.blockSize < bytes || bm.freeCount == 0 {
      NoBlock(m, bytes, align);
      return false, 0;
    }
    j := bm.firstFree;
    FirstFits(m, bytes, align);
    if align <= 1 { return true, j; }
    while j < bm.block.Length
      invariant j <= bm.block.Length
      invariant forall k: nat :: k < j ==> !SingleFits(m, bytes, align, k)
    {
      var freeStart := bm.base + bm.blockSize * j;
      AddrStep(m, j);
      if !bm.block[j].used && AlignUp(freeStart, align) + bytes <= freeStart + bm.blockSize {
        return true, j;
      }
      j := j + 1;
    }
    return false, j;
  }

  lemma NoBlock(m: Map, bytes: nat, align: nat)
    requires MapInv(m) && (m.blockSize < bytes || m.freeCount == 0)
    ensures forall k: nat :: !SingleFits(m, bytes, align, k)
  {
    if m.freeCount == 0 { CountZero(m.block); }
    forall k: nat
      ensures !SingleFits(m, bytes, align, k)
    {
      AlignUpLeast(Addr(m, k), align, 0);
      AddrStep(m, k);
    }
  }

  lemma FirstFits(m: Map, bytes: nat, align: nat)
    requires MapInv(m) && m.blockSize >= bytes && m.freeCount > 0
    ensures forall k: nat :: k < m.firstFree ==> !SingleFits(m, bytes, align, k)
    ensures align <= 1 ==> SingleFits(m, bytes, align, m.firstFree)
  {
    AddrStep(m, m.firstFree);
    if align == 1 { assert Addr(m, m.firstFree) % 1 == 0; }
  }

  lemma MapsAt(ms: seq<Map>, l: nat)
    requires MapsInv(ms) && l < |ms|
    ensures MapInv(ms[l])
  {
  }
}
