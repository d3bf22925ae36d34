/**
 The search for consecutive free blocks and the operations of one block map, over its
 array of headers.
 */
module AllocSearch {
  import opened Basics
  import opened AllocMap

  // Bytes p to p + bytes lie in the free run of n blocks from s and p is aligned
  ghost predicate Fits(m: Map, bytes: nat, align: nat, s: nat, n: nat, p: nat) {
    RunFree(m.block, s, n) && Aligned(p, align) && Addr(m, s) <= p && p + bytes <= Addr(m, s + n)
  }

  // No place for the request before block q
  ghost predicate NoneBefore(m: Map, bytes: nat, align: nat, q: nat) {
    forall s: nat, n: nat, p: nat :: Fits(m, bytes, align, s, n, p) ==> q <= s
  }

  ghost predicate NoneAligned(align: nat, lo: nat, hi: nat) {
    forall p: nat :: lo <= p < hi ==> !Aligned(p, align)
  }

  /** State of the walk at block current; q is where the free run it is in begins. */
  ghost predicate Walking(m: Map, bytes: nat, align: nat, q: nat, current: nat) {
    && q <= current <= |m.block|
    && RunFree(m.block, q, current - q)
    && NoneBefore(m, bytes, align, q)
  }

  // No block of the run begins a sequence yet
  ghost predicate Seeking(m: Map, align: nat, q: nat, current: nat) {
    NoneAligned(align, Addr(m, q), Addr(m, current))
  }

  // The sequence begun at block start holds count blocks, too few without the last
  ghost predicate Growing(m: Map, bytes: nat, align: nat, q: nat, current: nat,
                          start: nat, count: nat, aligned: nat)
  {
    && q <= start < current && count == current - start
    && aligned == AlignUp(Addr(m, start), align) && aligned < Addr(m, start + 1)
    && NoneAligned(align, Addr(m, q), Addr(m, start))
    && Addr(m, current - 1) < aligned + bytes
  }

  // ---------------------------------------------------------------- steps of the walk

  lemma FitsFree(m: Map, bytes: nat, align: nat, s: nat, n: nat, p: nat)
    requires Fits(m, bytes, align, s, n, p) && bytes > 0
    ensures n > 0 && s + n <= |m.block| && !m.block[s].used
  {
  }

  lemma WalkStarts(m: Map, bytes: nat, align: nat)
    requires MapInv(m) && bytes > 0
    ensures Walking(m, bytes, align, m.firstFree, m.firstFree)
    ensures Seeking(m, align, m.firstFree, m.firstFree)
  {
    hide Addr;
    forall s: nat, n: nat, p: nat | Fits(m, bytes, align, s, n, p)
      ensures m.firstFree <= s
    {
      assert n > 0 by { FitsFree(m, bytes, align, s, n, p); }
      CountPositive(m.block, s);
    }
  }

  lemma WalkPastUsed(m: Map, bytes: nat, align: nat, q: nat, current: nat)
    requires Walking(m, bytes, align, q, current) && bytes > 0
    requires current < |m.block| && m.block[current].used
    requires forall s: nat, n: nat, p: nat :: Fits(m, bytes, align, s, n, p) && s + n <= current ==> s < q
    ensures Walking(m, bytes, align, current + 1, current + 1)
  {
    hide Addr;
    forall s: nat, n: nat, p: nat | Fits(m, bytes, align, s, n, p)
      ensures current + 1 <= s
    {
      assert n > 0 by { FitsFree(m, bytes, align, s, n, p); }
      assert !(s <= current < s + n);
    }
  }

  // Nothing fits before an end too near to the first aligned address
  lemma SeekingMisses(m: Map, bytes: nat, align: nat, q: nat, current: nat, s: nat, n: nat, p: nat)
    requires Seeking(m, align, q, current) && bytes > 0
    requires Fits(m, bytes, align, s, n, p) && q <= s
    ensures current < s + n
  {
    AddrLe(m, q, s);
    if s + n <= current { AddrLe(m, s + n, current); }
  }

  lemma GrowingLowest(m: Map, bytes: nat, align: nat, q: nat, current: nat, start: nat, count: nat,
                      aligned: nat, s: nat, n: nat, p: nat)
    requires Growing(m, bytes, align, q, current, start, count, aligned)
    requires Fits(m, bytes, align, s, n, p) && q <= s
    ensures aligned <= p
  {
    AddrLe(m, q, s);
    AlignUpLeast(Addr(m, start), align, p);
  }

  lemma GrowingMisses(m: Map, bytes: nat, align: nat, q: nat, current: nat, start: nat, count: nat,
                      aligned: nat, s: nat, n: nat, p: nat)
    requires Growing(m, bytes, align, q, current, start, count, aligned)
    requires Addr(m, current) < aligned + bytes
    requires Fits(m, bytes, align, s, n, p) && q <= s
    ensures current < s + n
  {
    GrowingLowest(m, bytes, align, q, current, start, count, aligned, s, n, p);
    if s + n <= current { AddrLe(m, s + n, current); }
  }

  // A block without an aligned address begins no sequence
  lemma SeekOn(m: Map, align: nat, q: nat, current: nat)
    requires Seeking(m, align, q, current) && q <= current
    requires AlignUp(Addr(m, current), align) >= Addr(m, current + 1)
    ensures Seeking(m, align, q, current + 1)
  {
    forall p: nat | Addr(m, q) <= p < Addr(m, current + 1)
      ensures !Aligned(p, align)
    {
      AlignUpLeast(Addr(m, current), align, p);
    }
  }

  lemma TooShort(m: Map, bytes: nat, align: nat)
    requires MapInv(m) && (|m.block| - m.firstFree) * m.blockSize < bytes
    ensures forall s: nat, n: nat, p: nat :: !Fits(m, bytes, align, s, n, p)
  {
    AddrAdd(m, m.firstFree, |m.block| - m.firstFree);
    forall s: nat, n: nat, p: nat | Fits(m, bytes, align, s, n, p)
      ensures false
    {
      WalkStarts(m, bytes, align);
      AddrLe(m, m.firstFree, s);
      AddrLe(m, s + n, |m.block|);
    }
  }

  // ---------------------------------------------------------------- struct block_map

  class BlockMap {
    const blockSize: nat
    const base: nat
    const block: array<Hdr>
    var freeCount: nat
    var firstFree: nat

    constructor (blockSize: nat, count: nat, base: nat)
      requires blockSize > 0
      ensures fresh(block) && MapInv(State())
      ensures State() == Map(blockSize, count, 0, seq(count, _ => FREE_HDR), base)
    {
      this.blockSize, this.base := blockSize, base;
      block := new Hdr[count](_ => FREE_HDR);
      freeCount, firstFree := count, 0;
      new;
      assert block[..] == seq(count, _ => FREE_HDR);
      CountAll(block[..], false);
    }

    ghost function State(): Map
      reads this, block
    {
      Map(blockSize, freeCount, firstFree, block[..], base)
    }

    /** The walk of alloc_cont_blocks: it finds the lowest aligned address with room for
        the request in a free run, and takes no more blocks than the request needs; it
        fails only when no free run has such an address. */
    method FindRun(bytes: nat, align: nat) returns (found: bool, start: nat, count: nat, aligned: nat)
      requires MapInv(State()) && bytes > 0
      ensures found ==> count > 0 && Fits(State(), bytes, align, start, count, aligned)
      ensures found ==> aligned < Addr(State(), start + 1) && Addr(State(), start + count - 1) < aligned + bytes
      ensures found ==> forall s: nat, n: nat, p: nat :: Fits(State(), bytes, align, s, n, p) ==> aligned <= p
      ensures found ==> aligned == AlignUp(Addr(State(), start), align)
      ensures !found ==> forall s: nat, n: nat, p: nat :: !Fits(State(), bytes, align, s, n, p)
    {
      ghost var m := State();
      start, count, aligned := 0, 0, 0;
      if (block.Length - firstFree) * blockSize < bytes {
        TooShort(m, bytes, align);
        return false, start, count, aligned;
      }
      var have: nat, total: nat, current: nat := 0, bytes, firstFree;
      ghost var q: nat := firstFree;
      WalkStarts(m, bytes, align);
      while current < block.Length && have < total
        invariant Walking(m, bytes, align, q, current)
        invariant have == 0 ==> count == 0 && total == bytes && Seeking(m, align, q, current)
        invariant have > 0 ==> Growing(m, bytes, align, q, current, start, count, aligned)
        invariant have > 0 ==> have == Addr(m, current) - Addr(m, start) && total == bytes + (aligned - Addr(m, start))
        decreases block.Length - current
      {
        hide Addr, Fits, Growing, Seeking, Aligned, AlignUp;
        if block[current].used {
          RunMissed(m, bytes, align, q, current, start, count, aligned, have > 0);
          WalkPastUsed(m, bytes, align, q, current);
          have, count, total := 0, 0, bytes;
          current := current + 1;
          q := current;
          SeekNothing(m, align, q);
        } else if have == 0 {
          var blkStart := base + current * blockSize;
          BlockStart(m, current, align);
          start := current;
          aligned := AlignUp(blkStart, align);
          if align > 0 && aligned >= blkStart + blockSize {
            SeekOn(m, align, q, current);
          } else {
            Begin(m, bytes, align, q, current);
            total := total + (aligned - blkStart);
            count := 1;
            have := blockSize;
          }
          current := current + 1;
        } else {
          Grow(m, bytes, align, q, current, start, count, aligned);
          count := count + 1;
          have := have + blockSize;
          current := current + 1;
        }
      }
      found := have >= total;
      if found {
        Done(m, bytes, align, q, current, start, count, aligned);
      } else {
        Exhausted(m, bytes, align, q, start, count, aligned, have > 0);
      }
    }

    /** alloc_block_index: block index becomes an allocation of its own. */
    method TakeBlock(index: nat, align: nat) returns (ptr: nat)
      requires MapInv(State()) && index < block.Length && !block[index].used
      modifies this, block
      ensures old(freeCount) > 0 && State() == TakeOne(old(State()), index)
      ensures ptr == AlignUp(Addr(old(State()), index), align)
    {
      ghost var m := State();
      TakeOneKeeps(m, index);
      freeCount := freeCount - 1;
      ptr := AlignUp(base + index * blockSize, align);
      block[index] := Hdr(1, true, Some(base + index * blockSize));
      assert block[..] == Mark(m, index, 1);
      if index == firstFree {
        var i := firstFree;
        while i < block.Length && block[i].used
          invariant index <= i <= block.Length
          invariant i == index || NextFree(m.block, i) == NextFree(m.block, index + 1)
        {
          i := i + 1;
        }
        if i < block.Length { firstFree := i; }
      }
    }

    /** The tail of alloc_cont_blocks: blocks start to start + count become one allocation. */
    method TakeBlocks(start: nat, count: nat)
      requires MapInv(State()) && count > 0 && RunFree(State().block, start, count)
      modifies this, block
      ensures count <= old(freeCount) && State() == TakeRun(old(State()), start, count)
    {
      ghost var m := State();
      TakeRunKeeps(m, start, count);
      freeCount := freeCount - count;
      block[start] := block[start].(size := count);
      if firstFree == start {
        var i := firstFree + count;
        while i < block.Length && block[i].used
          invariant start + count <= i <= block.Length
          invariant NextFree(m.block, i) == NextFree(m.block, start + count)
        {
          i := i + 1;
        }
        firstFree := i;
      }
      MarkBlocks(m, start, count);
    }

    method MarkBlocks(ghost m: Map, start: nat, count: nat)
      requires |m.block| == block.Length && start + count <= block.Length && count > 0
      requires m.base == base && m.blockSize == blockSize
      requires block[..] == m.block[start := m.block[start].(size := count)]
      modifies block
      ensures block[..] == Mark(m, start, count)
    {
      var current := start;
      ghost var c := Mark(m, start, count);
      while current < start + count
        invariant start <= current <= start + count
        invariant forall i :: 0 <= i < block.Length && (i < current || start + count <= i) ==> block[i] == c[i]
        invariant forall i :: current <= i < start + count ==> block[i].size == c[i].size
      {
        block[current] := block[current].(used := true, unaligned := Some(base + start * blockSize));
        current := current + 1;
      }
    }

    /** The tail of free_block: the allocation starting at block s is given back. */
    method Release(s: nat)
      requires s < block.Length && s + block[s].size <= block.Length
      modifies this, block
      ensures State() == GiveBack(old(State()), s)
    {
      ghost var m := State();
      var full, n := freeCount == 0, block[s].size;
      var i := s;
      while i < s + n
        invariant s <= i <= s + n
        invariant freeCount == m.freeCount + (i - s) && firstFree == m.firstFree
        invariant block[..] == Clear(m.block, s, i - s)
      {
        block[i] := FREE_HDR;
        freeCount := freeCount + 1;
        i := i + 1;
      }
      if s < firstFree || full { firstFree := s; }
    }
  }

  lemma RunMissed(m: Map, bytes: nat, align: nat, q: nat, current: nat, start: nat, count: nat, aligned: nat, growing: bool)
    requires bytes > 0
    requires if growing then Growing(m, bytes, align, q, current, start, count, aligned) && Addr(m, current) < aligned + bytes
             else Seeking(m, align, q, current)
    ensures forall s: nat, n: nat, p: nat :: Fits(m, bytes, align, s, n, p) && s + n <= current ==> s < q
  {
    forall s: nat, n: nat, p: nat | Fits(m, bytes, align, s, n, p) && s + n <= current && q <= s
      ensures false
    {
      if growing {
        GrowingMisses(m, bytes, align, q, current, start, count, aligned, s, n, p);
      } else {
        SeekingMisses(m, bytes, align, q, current, s, n, p);
      }
    }
  }

  lemma SeekNothing(m: Map, align: nat, q: nat)
    ensures Seeking(m, align, q, q)
  {
  }

  lemma BlockStart(m: Map, current: nat, align: nat)
    requires m.blockSize > 0
    ensures Addr(m, current) == m.base + current * m.blockSize
    ensures Addr(m, current + 1) == Addr(m, current) + m.blockSize
    ensures AlignUp(Addr(m, current), align) >= Addr(m, current)
    ensures align == 0 ==> AlignUp(Addr(m, current), align) == Addr(m, current)
  {
    AddrStep(m, current);
    AlignUpLeast(Addr(m, current), align, 0);
  }

  lemma Begin(m: Map, bytes: nat, align: nat, q: nat, current: nat)
    requires Seeking(m, align, q, current) && q <= current && m.blockSize > 0 && bytes > 0
    requires AlignUp(Addr(m, current), align) < Addr(m, current + 1)
    ensures Growing(m, bytes, align, q, current + 1, current, 1, AlignUp(Addr(m, current), align))
    ensures AlignUp(Addr(m, current), align) >= Addr(m, current)
  {
    AlignUpLeast(Addr(m, current), align, 0);
  }

  lemma Grow(m: Map, bytes: nat, align: nat, q: nat, current: nat, start: nat, count: nat, aligned: nat)
    requires Growing(m, bytes, align, q, current, start, count, aligned)
    requires Addr(m, current) < aligned + bytes
    ensures Growing(m, bytes, align, q, current + 1, start, count + 1, aligned)
    ensures Addr(m, current + 1) == Addr(m, current) + m.blockSize
  {
    AddrStep(m, current);
  }

  lemma Done(m: Map, bytes: nat, align: nat, q: nat, current: nat, start: nat, count: nat, aligned: nat)
    requires Walking(m, bytes, align, q, current)
    requires Growing(m, bytes, align, q, current, start, count, aligned) && aligned + bytes <= Addr(m, current)
    ensures count > 0 && Fits(m, bytes, align, start, count, aligned)
    ensures aligned < Addr(m, start + 1) && Addr(m, start + count - 1) < aligned + bytes
    ensures forall s: nat, n: nat, p: nat :: Fits(m, bytes, align, s, n, p) ==> aligned <= p
  {
    AlignUpLeast(Addr(m, start), align, 0);
    forall s: nat, n: nat, p: nat | Fits(m, bytes, align, s, n, p)
      ensures aligned <= p
    {
      GrowingLowest(m, bytes, align, q, current, start, count, aligned, s, n, p);
    }
  }

  lemma Exhausted(m: Map, bytes: nat, align: nat, q: nat, start: nat, count: nat, aligned: nat, growing: bool)
    requires Walking(m, bytes, align, q, |m.block|) && bytes > 0
    requires if growing then Growing(m, bytes, align, q, |m.block|, start, count, aligned) && Addr(m, |m.block|) < aligned + bytes
             else Seeking(m, align, q, |m.block|)
    ensures forall s: nat, n: nat, p: nat :: !Fits(m, bytes, align, s, n, p)
  {
    RunMissed(m, bytes, align, q, |m.block|, start, count, aligned, growing);
  }
}
