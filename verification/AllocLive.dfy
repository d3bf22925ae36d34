/**
 A heap of block maps as a value, the allocations live in it, and what every
 allocation and every release keeps.
 */
module AllocLive {
  import opened AllocMap

  // One live allocation: blocks start to start + count of map level, asked for with
  // bytes and align
  datatype Region = Region(level: nat, start: nat, count: nat, bytes: nat, align: nat)

  type Live = map<nat, Region>

  function End(m: Map): nat {
    Addr(m, |m.block|)
  }

  // init_heap_map: the maps follow each other from the heap's address on
  ghost predicate Laid(ms: seq<Map>, heap: nat, size: nat) {
    && (|ms| > 0 ==> ms[0].base == heap && End(ms[|ms| - 1]) <= heap + size)
    && (forall i, j :: 0 <= i && j == i + 1 && j < |ms| ==> ms[j].base == End(ms[i]))
  }

  ghost predicate MapsInv(ms: seq<Map>) {
    forall i :: 0 <= i < |ms| ==> MapInv(ms[i])
  }

  // Pointer p was handed out for r: aligned, starting in the first block, ending in the last
  ghost predicate Held(ms: seq<Map>, p: nat, r: Region) {
    && r.level < |ms|
    && IsRun(ms[r.level], r.start, r.count)
    && Addr(ms[r.level], r.start) <= p < Addr(ms[r.level], r.start + 1)
    && p + r.bytes <= Addr(ms[r.level], r.start + r.count)
    && Aligned(p, r.align)
  }

  predicate Overlap(r: Region, s: Region) {
    r.level == s.level && r.start < s.start + s.count && s.start < r.start + r.count
  }

  predicate Covers(r: Region, level: nat, i: nat) {
    r.level == level && r.start <= i < r.start + r.count
  }

  ghost predicate Apart(live: Live) {
    forall p, q :: p in live && q in live && p != q ==> !Overlap(live[p], live[q])
  }

  ghost predicate Owned(live: Live, level: nat, i: nat) {
    exists p :: p in live && Covers(live[p], level, i)
  }

  // Every used block belongs to a live allocation
  ghost predicate AllOwned(ms: seq<Map>, live: Live) {
    forall l: nat, i: nat :: l < |ms| && i < |ms[l].block| && ms[l].block[i].used ==> Owned(live, l, i)
  }

  ghost predicate LiveInv(ms: seq<Map>, live: Live) {
    && (forall p :: p in live ==> Held(ms, p, live[p]))
    && Apart(live)
    && AllOwned(ms, live)
  }

  ghost predicate HeapInv(ms: seq<Map>, heap: nat, size: nat, live: Live) {
    Laid(ms, heap, size) && MapsInv(ms) && LiveInv(ms, live)
  }

  // heap->info.used
  function UsedBytes(ms: seq<Map>): int {
    if ms == [] then 0
    else UsedBytes(ms[..|ms| - 1]) + (|ms[|ms| - 1].block| - ms[|ms| - 1].freeCount) * ms[|ms| - 1].blockSize
  }

  lemma {:induction false} UsedUpdate(ms: seq<Map>, l: nat, m: Map, taken: int)
    requires l < |ms| && m.blockSize == ms[l].blockSize && |m.block| == |ms[l].block|
    requires m.freeCount == ms[l].freeCount - taken
    ensures UsedBytes(ms[l := m]) == UsedBytes(ms) + taken * m.blockSize
  {
    var k := |ms| - 1;
    if l < k {
      UsedUpdate(ms[..k], l, m, taken);
      assert ms[l := m][..k] == ms[..k][l := m];
    } else {
      assert ms[l := m][..k] == ms[..k];
      var u := |m.block| - ms[l].freeCount;
      assert (u + taken) * m.blockSize == u * m.blockSize + taken * m.blockSize;
    }
  }

  // ---------------------------------------------------------------- where things lie

  lemma {:induction false} LaidOrder(ms: seq<Map>, heap: nat, size: nat, i: nat, j: nat)
    requires Laid(ms, heap, size) && i < j < |ms|
    ensures End(ms[i]) <= ms[j].base
    decreases j - i
  {
    if i + 1 < j {
      LaidOrder(ms, heap, size, i + 1, j);
      AddrLe(ms[i + 1], 0, |ms[i + 1].block|);
    }
  }

  lemma LaidInside(ms: seq<Map>, heap: nat, size: nat, i: nat)
    requires Laid(ms, heap, size) && i < |ms|
    ensures heap <= ms[i].base && End(ms[i]) <= heap + size
  {
    var k := |ms| - 1;
    if i > 0 {
      LaidOrder(ms, heap, size, 0, i);
      AddrLe(ms[0], 0, |ms[0].block|);
    }
    if i < k {
      LaidOrder(ms, heap, size, i, k);
      AddrLe(ms[k], 0, |ms[k].block|);
    }
  }

  lemma HeldInMap(ms: seq<Map>, p: nat, r: Region)
    requires Held(ms, p, r)
    ensures ms[r.level].base <= p && p + r.bytes <= End(ms[r.level]) && p < End(ms[r.level])
  {
    var m := ms[r.level];
    AddrLe(m, 0, r.start);
    AddrLe(m, r.start + r.count, |m.block|);
    AddrLe(m, r.start + 1, |m.block|);
  }

  /** Live allocations are aligned, lie inside the heap and never share a byte. */
  lemma LiveDisjoint(ms: seq<Map>, heap: nat, size: nat, live: Live, p: nat, q: nat)
    requires HeapInv(ms, heap, size, live) && p in live && q in live && p != q
    ensures Aligned(p, live[p].align) && heap <= p && p + live[p].bytes <= heap + size
    ensures p + live[p].bytes <= q || q + live[q].bytes <= p
  {
    hide Addr, IsRun, MapInv, LiveInv;
    assert Held(ms, p, live[p]) && Held(ms, q, live[q]) && !Overlap(live[p], live[q]) by { AllHeld(ms, live, p, q); }
    var r, s := live[p], live[q];
    HeldInMap(ms, p, r);
    HeldInMap(ms, q, s);
    LaidInside(ms, heap, size, r.level);
    if r.level < s.level {
      LaidOrder(ms, heap, size, r.level, s.level);
    } else if s.level < r.level {
      LaidOrder(ms, heap, size, s.level, r.level);
    } else {
      SameMapDisjoint(ms[r.level], p, q, r, s);
    }
  }

  lemma AllHeld(ms: seq<Map>, live: Live, p: nat, q: nat)
    requires LiveInv(ms, live) && p in live && q in live && p != q
    ensures Held(ms, p, live[p]) && Held(ms, q, live[q]) && !Overlap(live[p], live[q])
  {
  }

  lemma SameMapDisjoint(m: Map, p: nat, q: nat, r: Region, s: Region)
    requires Addr(m, r.start) <= p && p + r.bytes <= Addr(m, r.start + r.count)
    requires Addr(m, s.start) <= q && q + s.bytes <= Addr(m, s.start + s.count)
    requires r.start + r.count <= s.start || s.start + s.count <= r.start
    ensures p + r.bytes <= q || q + s.bytes <= p
  {
    if r.start + r.count <= s.start {
      AddrLe(m, r.start + r.count, s.start);
    } else {
      AddrLe(m, s.start + s.count, r.start);
    }
  }

  // ---------------------------------------------------------------- allocating

  // Map u is map m with the free run of n blocks from s taken
  ghost predicate Took(m: Map, u: Map, s: nat, n: nat) {
    && 0 < n && RunFree(m.block, s, n)
    && u.block == Mark(m, s, n) && |u.block| == |m.block| && u.base == m.base && u.blockSize == m.blockSize
    && u.freeCount == m.freeCount - n && MapInv(u)
  }

  lemma TookOne(m: Map, i: nat)
    requires MapInv(m) && i < |m.block| && !m.block[i].used
    ensures m.freeCount > 0 && Took(m, TakeOne(m, i), i, 1)
  {
    TakeOneKeeps(m, i);
  }

  lemma TookRun(m: Map, s: nat, n: nat)
    requires MapInv(m) && 0 < n && RunFree(m.block, s, n)
    ensures n <= m.freeCount && Took(m, TakeRun(m, s, n), s, n)
  {
    TakeRunKeeps(m, s, n);
  }

  lemma LaidUpdate(ms: seq<Map>, heap: nat, size: nat, l: nat, u: Map)
    requires Laid(ms, heap, size) && l < |ms|
    requires u.base == ms[l].base && u.blockSize == ms[l].blockSize && |u.block| == |ms[l].block|
    ensures Laid(ms[l := u], heap, size)
  {
    assert End(u) == End(ms[l]);
  }

  // An allocation elsewhere stays as it was
  lemma HeldKept(ms: seq<Map>, l: nat, u: Map, p: nat, r: Region)
    requires Held(ms, p, r) && l < |ms|
    requires u.base == ms[l].base && u.blockSize == ms[l].blockSize && |u.block| == |ms[l].block|
    requires r.level == l ==> forall i :: r.start <= i < r.start + r.count ==> u.block[i] == ms[l].block[i]
    ensures Held(ms[l := u], p, r)
  {
    var m := ms[r.level];
    if r.level == l {
      assert Addr(u, r.start) == Addr(m, r.start);
      assert Addr(u, r.start + 1) == Addr(m, r.start + 1);
      assert Addr(u, r.start + r.count) == Addr(m, r.start + r.count);
    }
  }

  lemma NewHeld(ms: seq<Map>, l: nat, u: Map, p: nat, r: Region)
    requires l < |ms| && r.level == l && Took(ms[l], u, r.start, r.count)
    requires Addr(ms[l], r.start) <= p < Addr(ms[l], r.start + 1)
    requires p + r.bytes <= Addr(ms[l], r.start + r.count) && Aligned(p, r.align)
    ensures Held(ms[l := u], p, r)
  {
    var m := ms[l];
    assert Addr(u, r.start) == Addr(m, r.start);
    assert Addr(u, r.start + 1) == Addr(m, r.start + 1);
    assert Addr(u, r.start + r.count) == Addr(m, r.start + r.count);
  }

  // A live allocation holds none of the blocks that are free
  lemma FreeNotHeld(ms: seq<Map>, p: nat, r: Region, s: Region)
    requires Held(ms, p, r) && s.level < |ms| && 0 < s.count && RunFree(ms[s.level].block, s.start, s.count)
    ensures !Overlap(r, s)
  {
    assert !ms[s.level].block[s.start].used;
    assert ms[r.level].block[r.start].used;
  }

  // A live pointer lies in the first block of its allocation and in no other
  lemma HeldBlock(ms: seq<Map>, heap: nat, size: nat, p: nat, r: Region, l: nat, i: nat)
    requires Laid(ms, heap, size) && Held(ms, p, r) && l < |ms| && i < |ms[l].block|
    requires Addr(ms[l], i) <= p < Addr(ms[l], i + 1)
    ensures r.level == l && r.start == i && ms[l].block[i].used
  {
    assert ms[r.level].block[r.start].used;
    HeldInMap(ms, p, r);
    AddrLe(ms[l], 0, i);
    AddrLe(ms[l], i + 1, |ms[l].block|);
    SameLevel(ms, heap, size, p, r.level, l);
    hide Addr, Laid, IsRun;
    BlockOfAddr(ms[l], r.start, p);
    BlockOfAddr(ms[l], i, p);
  }

  // A new pointer is not one that is live
  lemma FreshPointer(ms: seq<Map>, heap: nat, size: nat, live: Live, p: nat, s: Region)
    requires HeapInv(ms, heap, size, live) && s.level < |ms| && 0 < s.count && RunFree(ms[s.level].block, s.start, s.count)
    requires Addr(ms[s.level], s.start) <= p < Addr(ms[s.level], s.start + 1)
    ensures p !in live
  {
    hide Addr, Laid, MapInv, MapsInv, Held, Apart, AllOwned;
    if p in live { HeldBlock(ms, heap, size, p, live[p], s.level, s.start); }
  }

  lemma SameLevel(ms: seq<Map>, heap: nat, size: nat, p: nat, i: nat, j: nat)
    requires Laid(ms, heap, size) && i < |ms| && j < |ms|
    requires ms[i].base <= p < End(ms[i]) && Addr(ms[j], 0) <= p < End(ms[j])
    ensures i == j && ms[i].blockSize > 0
  {
    if i < j {
      LaidOrder(ms, heap, size, i, j);
    } else if j < i {
      LaidOrder(ms, heap, size, j, i);
    }
  }

  lemma HeldAlloc(ms: seq<Map>, u: Map, r: Region, q: nat, s: Region)
    requires r.level < |ms| && Took(ms[r.level], u, r.start, r.count) && Held(ms, q, s)
    ensures Held(ms[r.level := u], q, s) && !Overlap(s, r) && !Overlap(r, s)
  {
    FreeNotHeld(ms, q, s, r);
    HeldKept(ms, r.level, u, q, s);
  }

  /** Taking free blocks for a new pointer keeps the heap invariant. */
  lemma AllocKeeps(ms: seq<Map>, heap: nat, size: nat, live: Live, u: Map, p: nat, r: Region)
    requires HeapInv(ms, heap, size, live) && r.level < |ms| && Took(ms[r.level], u, r.start, r.count)
    requires Addr(ms[r.level], r.start) <= p < Addr(ms[r.level], r.start + 1)
    requires p + r.bytes <= Addr(ms[r.level], r.start + r.count) && Aligned(p, r.align)
    ensures p !in live && HeapInv(ms[r.level := u], heap, size, live[p := r])
  {
    hide Addr, MapInv, Held, Overlap, IsRun, Laid, AllOwned;
    FreshPointer(ms, heap, size, live, p, r);
    LaidUpdate(ms, heap, size, r.level, u);
    var ns, now := ms[r.level := u], live[p := r];
    NewHeld(ms, r.level, u, p, r);
    forall q | q in live
      ensures Held(ns, q, live[q]) && !Overlap(live[q], r) && !Overlap(r, live[q])
    {
      HeldAlloc(ms, u, r, q, live[q]);
    }
    AllOwnedAlloc(ms, live, u, p, r);
  }

  lemma AllOwnedAlloc(ms: seq<Map>, live: Live, u: Map, p: nat, r: Region)
    requires AllOwned(ms, live) && r.level < |ms| && Took(ms[r.level], u, r.start, r.count) && p !in live
    ensures AllOwned(ms[r.level := u], live[p := r])
  {
    var ns, now := ms[r.level := u], live[p := r];
    forall l: nat, i: nat | l < |ns| && i < |ns[l].block| && ns[l].block[i].used
      ensures Owned(now, l, i)
    {
      if Covers(r, l, i) {
        assert p in now && Covers(now[p], l, i);
      } else {
        assert ms[l].block[i].used;
        var q :| q in live && Covers(live[q], l, i);
        assert q in now && Covers(now[q], l, i);
      }
    }
  }

  // ---------------------------------------------------------------- releasing

  lemma ReleaseOne(m: Map, s: nat, n: nat)
    requires MapInv(m) && IsRun(m, s, n)
    ensures var u := GiveBack(m, s);
      && MapInv(u) && u.base == m.base && u.blockSize == m.blockSize && |u.block| == |m.block|
      && u.freeCount == m.freeCount + n && u.block == Clear(m.block, s, n)
  {
    GiveBackKeeps(m, s, n);
  }

  lemma AllOwnedFree(ms: seq<Map>, live: Live, p: nat)
    requires LiveInv(ms, live) && p in live
    ensures Held(ms, p, live[p])
    ensures var r := live[p]; AllOwned(ms[r.level := GiveBack(ms[r.level], r.start)], live - {p})
  {
    hide Addr, Apart;
    var r := live[p];
    assert Held(ms, p, r);
    var ns := ms[r.level := GiveBack(ms[r.level], r.start)];
    forall l: nat, i: nat | l < |ns| && i < |ns[l].block| && ns[l].block[i].used
      ensures Owned(live - {p}, l, i)
    {
      assert ms[l].block[i].used && !Covers(r, l, i);
      var q :| q in live && Covers(live[q], l, i);
      assert q in live - {p} && Covers((live - {p})[q], l, i);
    }
  }

  lemma HeldFree(ms: seq<Map>, live: Live, p: nat, q: nat)
    requires LiveInv(ms, live) && p in live && q in live && p != q
    ensures Held(ms, p, live[p])
    ensures var r := live[p]; Held(ms[r.level := GiveBack(ms[r.level], r.start)], q, live[q])
  {
    AllHeld(ms, live, p, q);
    HeldKept(ms, live[p].level, GiveBack(ms[live[p].level], live[p].start), q, live[q]);
  }

  /** Giving a live allocation back keeps the heap invariant. */
  lemma FreeKeeps(ms: seq<Map>, heap: nat, size: nat, live: Live, p: nat)
    requires HeapInv(ms, heap, size, live) && p in live
    ensures Held(ms, p, live[p])
    ensures var r := live[p]; HeapInv(ms[r.level := GiveBack(ms[r.level], r.start)], heap, size, live - {p})
  {
    hide Addr, MapInv, Laid, GiveBack, AllOwned;
    var r := live[p];
    assert Held(ms, p, r);
    var u, now := GiveBack(ms[r.level], r.start), live - {p};
    ReleaseOne(ms[r.level], r.start, r.count);
    LaidUpdate(ms, heap, size, r.level, u);
    AllOwnedFree(ms, live, p);
    forall q | q in now
      ensures Held(ms[r.level := u], q, now[q])
    {
      HeldFree(ms, live, p, q);
    }
    assert Apart(now);
  }

  /** Releasing an unused block changes nothing. */
  lemma ReleaseUnused(m: Map, i: nat)
    requires MapInv(m) && i < |m.block| && !m.block[i].used
    ensures m.block[i].size == 0 && GiveBack(m, i) == m
  {
    CountPositive(m.block, i);
    assert Clear(m.block, i, 0) == m.block;
  }
}
