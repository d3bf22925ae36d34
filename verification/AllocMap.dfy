/**
 One block map of the memory allocator as a value: equally sized blocks, one header
 per block, and the bookkeeping the allocator keeps about them.
 */
module AllocMap {
  import opened Basics
  import opened Arith

  // struct block_hdr
  datatype Hdr = Hdr(size: nat, used: bool, unaligned: Option<nat>)

  const FREE_HDR := Hdr(0, false, None)

  // struct block_map; count is |block|
  datatype Map = Map(blockSize: nat, freeCount: nat, firstFree: nat, block: seq<Hdr>, base: nat)

  // Address of block i; Addr(m, |m.block|) is the end of the map
  function Addr(m: Map, i: nat): nat {
    m.base + i * m.blockSize
  }

  lemma AddrStep(m: Map, i: nat)
    ensures Addr(m, i + 1) == Addr(m, i) + m.blockSize
  {
  }

  lemma AddrAdd(m: Map, i: nat, n: nat)
    ensures Addr(m, i + n) == Addr(m, i) + n * m.blockSize
  {
  }

  lemma AddrLe(m: Map, i: nat, j: nat)
    requires i <= j
    ensures Addr(m, i) <= Addr(m, j)
  {
    AddrAdd(m, i, j - i);
  }

  // Index of the block holding address p
  function BlockOf(m: Map, p: nat): nat
    requires m.blockSize > 0 && m.base <= p
  {
    (p - m.base) / m.blockSize
  }

  lemma BlockOfAddr(m: Map, i: nat, p: nat)
    requires m.blockSize > 0 && Addr(m, i) <= p < Addr(m, i + 1)
    ensures m.base <= p && BlockOf(m, p) == i
  {
    var bs, d := m.blockSize, p - m.base;
    NextMultiple(i, bs);
    DivIs(d, bs, i);
  }

  // ---------------------------------------------------------------- alignment

  // ALIGN_UP; an alignment of 0 or 1 constrains nothing
  function AlignUp(x: nat, a: nat): nat {
    if a == 0 || x % a == 0 then x else x + (a - x % a)
  }

  predicate Aligned(x: nat, a: nat) {
    a == 0 || x % a == 0
  }

  /** AlignUp gives the lowest aligned address from x on. */
  lemma AlignUpLeast(x: nat, a: nat, y: nat)
    ensures Aligned(AlignUp(x, a), a) && x <= AlignUp(x, a) && (a > 0 ==> AlignUp(x, a) < x + a)
    ensures Aligned(y, a) && x <= y ==> AlignUp(x, a) <= y
  {
    if a > 0 {
      var k, j := x / a, y / a;
      RoundUp(x, a, k);
      assert y % a == 0 ==> y == j * a;
      MulLe(j, k, a);
      MulLe(k + 1, j, a);
    }
  }

  lemma RoundUp(x: nat, a: nat, k: nat)
    requires a > 0 && k == x / a
    ensures x == k * a + x % a
    ensures AlignUp(x, a) == if x % a == 0 then k * a else (k + 1) * a
    ensures AlignUp(x, a) % a == 0
  {
    assert x == k * a + x % a;
    MultipleOf(k + 1, a);
  }

  // ---------------------------------------------------------------- invariant

  function CountFree(b: seq<Hdr>): nat {
    FreeIn(b, 0, |b|)
  }

  // Unused headers among lo to hi
  function FreeIn(b: seq<Hdr>, lo: nat, hi: nat): nat
    requires lo <= hi <= |b|
  {
    if lo == hi then 0 else FreeIn(b, lo, hi - 1) + if b[hi - 1].used then 0 else 1
  }

  // Lowest unused block from i on, or the end of the map
  function NextFree(b: seq<Hdr>, i: nat): (j: nat)
    requires i <= |b|
    ensures i <= j <= |b|
    ensures forall k :: i <= k < j ==> b[k].used
    ensures j < |b| ==> !b[j].used
    decreases |b| - i
  {
    if i == |b| || !b[i].used then i else NextFree(b, i + 1)
  }

  /** free_count counts the unused headers, unused headers are clear, and first_free is
      the lowest unused block whenever there is one. */
  ghost predicate MapInv(m: Map) {
    && m.blockSize > 0
    && m.firstFree <= |m.block|
    && m.freeCount == CountFree(m.block)
    && (m.freeCount > 0 ==> LowestFree(m.block, m.firstFree))
    && (forall i :: 0 <= i < |m.block| && !m.block[i].used ==> m.block[i] == FREE_HDR)
  }

  ghost predicate LowestFree(b: seq<Hdr>, f: nat) {
    && f < |b| && !b[f].used
    && (forall i :: 0 <= i < f ==> b[i].used)
  }

  ghost predicate RunFree(b: seq<Hdr>, s: nat, n: nat) {
    s + n <= |b| && forall i :: s <= i < s + n ==> !b[i].used
  }

  // ---------------------------------------------------------------- taking and giving back

  /** Blocks s to s + n become one allocation: the first header holds the count, all
      remember where it starts. */
  function Mark(m: Map, s: nat, n: nat): seq<Hdr>
    requires s + n <= |m.block|
  {
    seq(|m.block|, i requires 0 <= i < |m.block| =>
      if s <= i < s + n then Hdr(if i == s then n else m.block[i].size, true, Some(Addr(m, s))) else m.block[i])
  }

  /** The tail of alloc_cont_blocks. */
  function TakeRun(m: Map, s: nat, n: nat): Map
    requires s + n <= |m.block| && n <= m.freeCount
  {
    m.(block := Mark(m, s, n),
       freeCount := m.freeCount - n,
       firstFree := if m.firstFree == s then NextFree(m.block, s + n) else m.firstFree)
  }

  /** alloc_block_index: like a run of one, but first_free stays when nothing is left. */
  function TakeOne(m: Map, i: nat): Map
    requires i < |m.block| && m.freeCount > 0
  {
    var next := NextFree(m.block, i + 1);
    m.(block := Mark(m, i, 1),
       freeCount := m.freeCount - 1,
       firstFree := if m.firstFree == i && next < |m.block| then next else m.firstFree)
  }

  function Clear(b: seq<Hdr>, s: nat, n: nat): seq<Hdr>
    requires s + n <= |b|
  {
    seq(|b|, i requires 0 <= i < |b| => if s <= i < s + n then FREE_HDR else b[i])
  }

  /** The tail of free_block, for the allocation starting at block s. */
  function GiveBack(m: Map, s: nat): Map
    requires s < |m.block| && s + m.block[s].size <= |m.block|
  {
    m.(block := Clear(m.block, s, m.block[s].size),
       freeCount := m.freeCount + m.block[s].size,
       firstFree := if s < m.firstFree || m.freeCount == 0 then s else m.firstFree)
  }

  // ---------------------------------------------------------------- counting

  lemma {:induction false} FreeSplit(b: seq<Hdr>, lo: nat, mid: nat, hi: nat)
    requires lo <= mid <= hi <= |b|
    ensures FreeIn(b, lo, hi) == FreeIn(b, lo, mid) + FreeIn(b, mid, hi)
  {
    if mid < hi { FreeSplit(b, lo, mid, hi - 1); }
  }

  lemma {:induction false} FreeSame(b: seq<Hdr>, c: seq<Hdr>, lo: nat, hi: nat)
    requires lo <= hi <= |b| == |c| && forall i :: lo <= i < hi ==> b[i].used == c[i].used
    ensures FreeIn(b, lo, hi) == FreeIn(c, lo, hi)
  {
    if lo < hi { FreeSame(b, c, lo, hi - 1); }
  }

  lemma {:induction false} FreeAll(b: seq<Hdr>, lo: nat, hi: nat, used: bool)
    requires lo <= hi <= |b| && forall i :: lo <= i < hi ==> b[i].used == used
    ensures FreeIn(b, lo, hi) == if used then 0 else hi - lo
  {
    if lo < hi { FreeAll(b, lo, hi - 1, used); }
  }

  lemma CountAll(b: seq<Hdr>, used: bool)
    requires forall i :: 0 <= i < |b| ==> b[i].used == used
    ensures CountFree(b) == if used then 0 else |b|
  {
    FreeAll(b, 0, |b|, used);
  }

  // A run that changes from used to unused, or the other way, changes the count by its length
  lemma CountChanged(b: seq<Hdr>, c: seq<Hdr>, s: nat, n: nat)
    requires s + n <= |b| == |c|
    requires forall i :: 0 <= i < |b| && !(s <= i < s + n) ==> b[i].used == c[i].used
    requires forall i :: s <= i < s + n ==> !b[i].used && c[i].used
    ensures CountFree(c) + n == CountFree(b)
  {
    hide FreeIn;
    FreeSplit(b, 0, s, |b|);
    FreeSplit(b, s, s + n, |b|);
    FreeSplit(c, 0, s, |c|);
    FreeSplit(c, s, s + n, |c|);
    FreeSame(b, c, 0, s);
    FreeSame(b, c, s + n, |b|);
    FreeAll(b, s, s + n, false);
    FreeAll(c, s, s + n, true);
  }

  // Some block is unused exactly when the count says so
  lemma {:induction false} CountPositive(b: seq<Hdr>, i: nat)
    requires i < |b| && !b[i].used
    ensures CountFree(b) > 0
  {
    FreeSplit(b, 0, i, |b|);
    FreeSplit(b, i, i + 1, |b|);
    FreeAll(b, i, i + 1, false);
  }

  lemma {:induction false} CountZero(b: seq<Hdr>)
    requires CountFree(b) == 0
    ensures forall i :: 0 <= i < |b| ==> b[i].used
  {
    forall i | 0 <= i < |b|
      ensures b[i].used
    {
      if !b[i].used { CountPositive(b, i); }
    }
  }

  // ---------------------------------------------------------------- what the operations keep

  lemma MarkCount(m: Map, s: nat, n: nat)
    requires RunFree(m.block, s, n)
    ensures CountFree(Mark(m, s, n)) + n == CountFree(m.block)
  {
    hide Addr, CountFree, FreeIn;
    CountChanged(m.block, Mark(m, s, n), s, n);
  }

  lemma TakeRunKeeps(m: Map, s: nat, n: nat)
    requires MapInv(m) && RunFree(m.block, s, n) && n > 0
    ensures n <= m.freeCount && MapInv(TakeRun(m, s, n))
  {
    hide Addr, CountFree, FreeIn;
    MarkCount(m, s, n);
    var t := TakeRun(m, s, n);
    CountPositive(m.block, s);
    if t.freeCount > 0 {
      if m.firstFree == s && t.firstFree == |m.block| {
        assert forall i :: 0 <= i < |t.block| ==> t.block[i].used;
        CountAll(t.block, true);
      }
      assert LowestFree(t.block, t.firstFree);
    }
  }

  lemma TakeOneKeeps(m: Map, i: nat)
    requires MapInv(m) && i < |m.block| && !m.block[i].used
    ensures m.freeCount > 0 && MapInv(TakeOne(m, i))
  {
    hide Addr, CountFree, FreeIn;
    MarkCount(m, i, 1);
    var t := TakeOne(m, i);
    CountPositive(m.block, i);
    if t.freeCount > 0 {
      if m.firstFree == i && NextFree(m.block, i + 1) == |m.block| {
        assert forall k :: 0 <= k < |t.block| ==> t.block[k].used;
        CountAll(t.block, true);
      }
      assert LowestFree(t.block, t.firstFree);
    }
  }

  // The allocation starting at block s of n blocks
  ghost predicate IsRun(m: Map, s: nat, n: nat) {
    && 0 < n && s + n <= |m.block| && m.block[s].size == n
    && (forall i :: s <= i < s + n ==> m.block[i].used && m.block[i].unaligned == Some(Addr(m, s)))
  }

  lemma ClearCount(b: seq<Hdr>, s: nat, n: nat)
    requires s + n <= |b| && forall i :: s <= i < s + n ==> b[i].used
    ensures CountFree(Clear(b, s, n)) == CountFree(b) + n
  {
    hide CountFree;
    CountChanged(Clear(b, s, n), b, s, n);
  }

  lemma GiveBackKeeps(m: Map, s: nat, n: nat)
    requires MapInv(m) && IsRun(m, s, n)
    ensures MapInv(GiveBack(m, s))
  {
    hide Addr, CountFree, FreeIn;
    ClearCount(m.block, s, n);
    var t := GiveBack(m, s);
    if m.freeCount == 0 { CountZero(m.block); }
    assert LowestFree(t.block, t.firstFree);
  }

  /** Freeing a multi-block allocation restores headers, counts and first_free exactly,
      also when it had filled the map. */
  lemma TakeRunUndone(m: Map, s: nat, n: nat)
    requires MapInv(m) && RunFree(m.block, s, n) && n > 0
    ensures n <= m.freeCount && IsRun(TakeRun(m, s, n), s, n)
    ensures GiveBack(TakeRun(m, s, n), s) == m
  {
    TakeRunKeeps(m, s, n);
    var t := TakeRun(m, s, n);
    assert Addr(t, s) == Addr(m, s);
    hide Addr, CountFree, FreeIn;
    CountPositive(m.block, s);
    if t.freeCount == 0 { CountZero(t.block); }
    assert GiveBack(t, s).block == m.block;
  }

  /** The same for a single block. */
  lemma TakeOneUndone(m: Map, i: nat)
    requires MapInv(m) && i < |m.block| && !m.block[i].used
    ensures m.freeCount > 0 && IsRun(TakeOne(m, i), i, 1)
    ensures GiveBack(TakeOne(m, i), i) == m
  {
    TakeOneKeeps(m, i);
    var t := TakeOne(m, i);
    assert Addr(t, i) == Addr(m, i);
    hide Addr, CountFree, FreeIn;
    if t.freeCount == 0 { CountZero(t.block); }
    assert GiveBack(t, i).block == m.block;
  }
}
