/**
 Allocation of the history buffer: blocks are taken from several memory pools, each
 tried with smaller and smaller sizes, and linked into a ring.
 */
module KpbAlloc {
  import opened KpbRing
  import opened KpbBuffer

  const POOLS := 3             // KPB_NO_OF_MEM_POOLS
  const STEP := 0x100          // KPB_ALLOCATION_STEP
  const WORD := 0x1_0000_0000  // values of a 32-bit size_t

  // size_t subtraction
  function SizeSub(a: nat, b: nat): nat
    requires a < WORD && b < WORD
  {
    if a >= b then a - b else a + WORD - b
  }

  /** The next size to try in the same pool, 0 when the step wrapped around. */
  function Smaller(ca: nat): (n: nat)
    requires 0 < ca < WORD
    ensures n < ca
    ensures n == if ca > 0x100 then ca - 0x100 else 0
  {
    var temp := SizeSub(ca, STEP);
    if ca < temp then 0 else temp
  }

  // ---------------------------------------------------------------- what is asked for

  // One request for memory: from which pool, how much, and whether it was met
  datatype Attempt = Attempt(pool: nat, size: nat, met: bool)

  function Taken(tries: seq<Attempt>): nat {
    if tries == [] then 0
    else Taken(tries[..|tries| - 1]) + if tries[|tries| - 1].met then tries[|tries| - 1].size else 0
  }

  // The sizes of the blocks that were taken
  function Sizes(tries: seq<Attempt>): seq<nat> {
    if tries == [] then []
    else Sizes(tries[..|tries| - 1]) + if tries[|tries| - 1].met then [tries[|tries| - 1].size] else []
  }

  /** What to ask for next: all of it from the first pool; 256 bytes less from the same pool
      after a refusal of more than that; and all that is still missing from the next pool
      after a refusal of no more than that, or a block. */
  predicate Follows(request: nat, tries: seq<Attempt>, pool: nat, size: nat) {
    if tries == [] then pool == 0 && size == request
    else
      var t := tries[|tries| - 1];
      if !t.met && t.size > 0x100 then pool == t.pool && size == t.size - 0x100
      else pool == t.pool + 1 && size + Taken(tries) == request
  }

  ghost predicate Greedy(request: nat, tries: seq<Attempt>, memory: nat -> bool) {
    forall k :: 0 <= k < |tries| ==>
      && tries[k].met == memory(k) && tries[k].pool < 3
      && Follows(request, tries[..k], tries[k].pool, tries[k].size)
  }

  // There is no pool left to ask
  ghost predicate Exhausted(request: nat, tries: seq<Attempt>) {
    forall pool: nat, size: nat :: Follows(request, tries, pool, size) ==> pool >= 3
  }

  // left bytes are missing, and size bytes are to be asked for from the pool
  ghost predicate Asking(request: nat, tries: seq<Attempt>, memory: nat -> bool, pool: nat, size: nat, left: nat) {
    && Greedy(request, tries, memory) && Taken(tries) + left == request
    && (left > 0 ==> Follows(request, tries, pool, size) && 0 < size <= left)
    && (memory(0) && request > 0 && tries != [] ==> left == 0 && |Sizes(tries)| == 1)
    && (forall i :: 0 <= i < |Sizes(tries)| ==> Sizes(tries)[i] > 0)
  }

  // The first records hold blocks of these sizes, the others nothing
  ghost predicate Filled(ring: seq<HistoryBuffer>, sizes: seq<nat>)
    reads ring
  {
    && |sizes| <= |ring| <= |sizes| + 1
    && (forall i :: 0 <= i < |ring| ==> |ring[i].data| == if i < |sizes| then sizes[i] else 0)
  }

  lemma GreedyMore(request: nat, tries: seq<Attempt>, memory: nat -> bool, t: Attempt)
    requires Greedy(request, tries, memory) && Follows(request, tries, t.pool, t.size)
    requires t.met == memory(|tries|) && t.pool < 3
    ensures Greedy(request, tries + [t], memory)
    ensures Taken(tries + [t]) == Taken(tries) + if t.met then t.size else 0
    ensures Sizes(tries + [t]) == Sizes(tries) + if t.met then [t.size] else []
  {
    var more := tries + [t];
    assert more[..|tries|] == tries;
    forall k | 0 <= k < |more|
      ensures more[k].met == memory(k) && more[k].pool < 3 && Follows(request, more[..k], more[k].pool, more[k].size)
    {
      assert more[..k] == tries[..k];
    }
  }

  /** kpb_allocate_history_buffer.  `memory(k)` says whether the k-th rballoc succeeds
      and `records(k)` whether the k-th record can be allocated; `done` is false on the
      exits that give up for lack of a record. */
  method AllocateHistoryBuffer(request: nat, memory: nat -> bool, records: nat -> bool)
    returns (first: HistoryBuffer?, got: nat, done: bool, ghost ring: seq<HistoryBuffer>, ghost tries: seq<Attempt>)
    requires request < WORD
    ensures first == null <==> !records(0)
    ensures first == null ==> ring == [] && got == 0 && !done
    ensures first != null ==> |ring| > 0 && first == ring[0] && Linked(ring) && fresh(ring)
    ensures got <= request
    ensures !done ==> got == 0
    ensures done ==> got == Size(Blocks(ring)) && |ring| <= POOLS + 1
    ensures got == request > 0 ==> done && Backed(Blocks(ring))
    // every record but the last holds memory, also when the pools ran out
    ensures forall i :: 0 <= i < |ring| - 1 ==> |ring[i].data| > 0
    ensures first != null ==> Greedy(request, tries, memory) && Filled(ring, Sizes(tries))
    ensures done ==> got == Taken(tries) && (got < request ==> Exhausted(request, tries))
    ensures first != null && !done ==> !records(|Sizes(tries)|) && 0 < Taken(tries) < request
    ensures records(0) && memory(0) && request > 0 ==> done && got == request && |ring| == 1
  {
    hide Blocks, Flat, Greedy, Sizes, Follows, Taken;
    if !records(0) {
      first, got, done, ring, tries := null, 0, false, [], [];
    } else {
      var head := new HistoryBuffer();
      head.next, head.prev := head, head;
      first := head;
      got, done, ring, tries := FillRing(head, request, memory, records);
      if got == request > 0 {
        BlockAt(ring);
      }
    }
  }

  // A ring under construction: only the last record may lack memory
  ghost predicate Building(ring: seq<HistoryBuffer>, got: nat)
    reads ring
  {
    && Linked(ring) && got == Size(Blocks(ring))
    && forall k :: 0 <= k < |ring| - 1 ==> |ring[k].data| > 0
  }

  /** The allocation loop, from a ring of one record without memory. */
  method FillRing(head: HistoryBuffer, request: nat, memory: nat -> bool, records: nat -> bool)
    returns (got: nat, done: bool, ghost ring: seq<HistoryBuffer>, ghost tries: seq<Attempt>)
    requires request < WORD
    requires head.next == head == head.prev && head.data == []
    modifies head
    ensures |ring| > 0 && head == ring[0] && Building(ring, if done then got else Size(Blocks(ring)))
    ensures fresh(set b | b in ring && b != head)
    ensures got <= request && (!done ==> got == 0) && |ring| <= POOLS + 1
    ensures got == request > 0 ==> done && |ring[|ring| - 1].data| > 0
    ensures Greedy(request, tries, memory) && Filled(ring, Sizes(tries))
    ensures done ==> got == Taken(tries) && (got < request ==> Exhausted(request, tries))
    ensures !done ==> !records(|Sizes(tries)|) && 0 < Taken(tries) < request
    ensures memory(0) && request > 0 ==> done && got == request && |ring| == 1
  {
    hide Flat, Blocks, Linked, Asking, Greedy, Taken, Sizes, Follows, Exhausted, Building, Filled;
    ring, got, tries := [head], 0, [];
    StartBuilding(head);
    StartAsking(request, memory);
    var hbSize: nat, ca: nat, i: nat, attempts: nat, made: nat := request, request, 0, 0, 1;
    var hb := head;
    while hbSize > 0 && i < POOLS
      invariant 0 < |ring| <= i + 1 <= POOLS + 1 && made == |ring|
      invariant head == ring[0] && hb == ring[|ring| - 1]
      invariant fresh(set b | b in ring && b != head)
      invariant got + hbSize == request && Building(ring, got) && Filled(ring, Sizes(tries))
      invariant if hbSize > 0 then |ring| == |Sizes(tries)| + 1 && 0 < ca <= hbSize else |ring| == |Sizes(tries)| || request == 0
      invariant attempts == |tries| && Asking(request, tries, memory, i, ca, hbSize)
      decreases hbSize, POOLS - i, ca
    {
      attempts := attempts + 1;
      ghost var before, sizes := tries, Sizes(tries);
      tries := tries + [Attempt(i, ca, memory(attempts - 1))];
      if memory(attempts - 1) {
        Met(request, before, memory, i, ca, hbSize);
        FillLast(hb, ca, ring, got, sizes);
        got, hbSize := got + ca, hbSize - ca;
        if hbSize > 0 {
          if !records(made) {
            AskingIs(request, tries, memory, i + 1, hbSize, hbSize);
            BuildingIs(ring, got);
            return 0, false, ring, tries;
          }
          made := made + 1;
          hb, ring := OneMore(head, hb, ring, got, sizes + [ca]);
          ca, i := hbSize, i + 1;
        }
      } else {
        Unmet(request, before, memory, i, ca, hbSize);
        ca := Smaller(ca);
        if ca == 0 {
          ca, i := hbSize, i + 1;
        }
      }
    }
    Ended(request, tries, memory, i, ca, hbSize);
    if got == request > 0 { LastFilled(ring, Sizes(tries)); }
    done := true;
  }

  lemma StartBuilding(head: HistoryBuffer)
    requires head.next == head == head.prev && head.data == []
    ensures Building([head], 0) && Filled([head], []) && Sizes([]) == []
  {
    LinkedOne(head);
  }

  lemma StartAsking(request: nat, memory: nat -> bool)
    ensures Asking(request, [], memory, 0, request, request)
  {
  }

  lemma Met(request: nat, tries: seq<Attempt>, memory: nat -> bool, pool: nat, size: nat, left: nat)
    requires Asking(request, tries, memory, pool, size, left) && left > 0 && memory(|tries|) && pool < 3
    ensures Asking(request, tries + [Attempt(pool, size, true)], memory, pool + 1, left - size, left - size)
    ensures left == size ==> Asking(request, tries + [Attempt(pool, size, true)], memory, pool, size, 0)
    ensures Sizes(tries + [Attempt(pool, size, true)]) == Sizes(tries) + [size]
    ensures Taken(tries + [Attempt(pool, size, true)]) == request - left + size
  {
    hide Greedy, Taken, Sizes;
    GreedyMore(request, tries, memory, Attempt(pool, size, true));
    NoSizes();
  }

  lemma Unmet(request: nat, tries: seq<Attempt>, memory: nat -> bool, pool: nat, size: nat, left: nat)
    requires Asking(request, tries, memory, pool, size, left) && left > 0 && !memory(|tries|) && pool < 3
    ensures var more := tries + [Attempt(pool, size, false)];
      && Sizes(more) == Sizes(tries)
      && if size > 0x100 then Asking(request, more, memory, pool, size - 0x100, left)
         else Asking(request, more, memory, pool + 1, left, left)
  {
    hide Greedy, Taken, Sizes;
    GreedyMore(request, tries, memory, Attempt(pool, size, false));
  }

  lemma AskingIs(request: nat, tries: seq<Attempt>, memory: nat -> bool, pool: nat, size: nat, left: nat)
    requires Asking(request, tries, memory, pool, size, left)
    ensures Greedy(request, tries, memory) && Taken(tries) + left == request
    ensures memory(0) && request > 0 && tries != [] ==> left == 0
  {
    hide Greedy, Taken, Sizes;
  }

  lemma BuildingIs(ring: seq<HistoryBuffer>, got: nat)
    requires Building(ring, got)
    ensures got == Size(Blocks(ring))
  {
  }

  lemma NoSizes()
    ensures Sizes([]) == []
  {
  }

  lemma Ended(request: nat, tries: seq<Attempt>, memory: nat -> bool, pool: nat, size: nat, left: nat)
    requires Asking(request, tries, memory, pool, size, left) && (left == 0 || pool >= 3)
    ensures Greedy(request, tries, memory) && Taken(tries) + left == request && (left > 0 ==> Exhausted(request, tries))
    ensures memory(0) && request > 0 ==> left == 0 && |Sizes(tries)| == 1
    ensures forall i :: 0 <= i < |Sizes(tries)| ==> Sizes(tries)[i] > 0
  {
    hide Greedy, Sizes;
  }

  lemma LastFilled(ring: seq<HistoryBuffer>, sizes: seq<nat>)
    requires Filled(ring, sizes) && |ring| == |sizes| > 0 && forall i :: 0 <= i < |sizes| ==> sizes[i] > 0
    ensures |ring[|ring| - 1].data| > 0
  {
  }

  lemma LinkedOne(b: HistoryBuffer)
    requires b.next == b == b.prev
    ensures Linked([b]) && Size(Blocks([b])) == |b.data|
  {
    assert Blocks([b]) == [b.Value()];
    assert Flat([b.Value()]) == b.data + Flat([b.Value()][1..]);
  }

  // A block of n bytes becomes the memory of the last record
  method TakeMemory(hb: HistoryBuffer, n: nat, ghost ring: seq<HistoryBuffer>)
    requires Linked(ring) && hb == ring[|ring| - 1] && hb.data == []
    modifies hb`data, hb`w, hb`r, hb`state
    ensures hb.Value() == Block(hb.data, 0, 0, BufferFree) && |hb.data| == n
    ensures forall k :: 0 <= k < |ring| - 1 ==> ring[k].data == old(ring[k].data)
    ensures Size(Blocks(ring)) == old(Size(Blocks(ring))) + n
  {
    hide Flat, Blocks, Links;
    ghost var bs, m := Blocks(ring), |ring| - 1;
    BlockAt(ring);
    hb.data := seq(n, _ => 0);
    hb.w, hb.r, hb.state := 0, 0, BufferFree;
    BlocksAre(ring, bs[m := hb.Value()]);
    LastOffset(bs);
    LastOffset(Blocks(ring));
    assert bs[..m] == Blocks(ring)[..m];
  }

  // The last record of a ring under construction gets its memory
  method FillLast(hb: HistoryBuffer, n: nat, ghost ring: seq<HistoryBuffer>, ghost got: nat, ghost sizes: seq<nat>)
    requires Building(ring, got) && Filled(ring, sizes) && |ring| == |sizes| + 1 && hb == ring[|ring| - 1] && n > 0
    modifies hb`data, hb`w, hb`r, hb`state
    ensures Building(ring, got + n) && Filled(ring, sizes + [n]) && |hb.data| == n
  {
    hide Blocks, Flat, Links;
    assert |hb.data| == 0;
    TakeMemory(hb, n, ring);
  }

  // One more record for a ring under construction
  method OneMore(head: HistoryBuffer, hb: HistoryBuffer, ghost ring: seq<HistoryBuffer>, ghost got: nat, ghost sizes: seq<nat>)
    returns (added: HistoryBuffer, ghost longer: seq<HistoryBuffer>)
    requires Building(ring, got) && Filled(ring, sizes) && |ring| == |sizes| && head == ring[0] && hb == ring[|ring| - 1]
    requires |hb.data| > 0
    modifies head`prev, hb`next
    ensures fresh(added) && longer == ring + [added] && Building(longer, got) && Filled(longer, sizes)
  {
    hide Blocks, Flat, Linked;
    added, longer := Append(head, hb, ring);
  }

  // Link one more record, without memory yet, at the end of the ring
  method Append(head: HistoryBuffer, hb: HistoryBuffer, ghost ring: seq<HistoryBuffer>)
    returns (fresh_hb: HistoryBuffer, ghost longer: seq<HistoryBuffer>)
    requires Linked(ring) && head == ring[0] && hb == ring[|ring| - 1]
    modifies head`prev, hb`next
    ensures fresh(fresh_hb) && longer == ring + [fresh_hb] && Linked(longer)
    ensures fresh_hb.Value() == Block([], 0, 0, BufferOff)
    ensures Size(Blocks(longer)) == old(Size(Blocks(ring)))
  {
    hide Flat, Blocks, Linked;
    BlockAt(ring);
    ghost var bs := Blocks(ring);
    fresh_hb := new HistoryBuffer();
    fresh_hb.state := BufferOff;
    longer := ring + [fresh_hb];
    BlocksAre(longer, bs + [fresh_hb.Value()]);
    LastOffset(Blocks(longer));
    assert Blocks(longer)[..|ring|] == bs;
    Link(head, hb, fresh_hb, ring);
  }

  method Link(head: HistoryBuffer, hb: HistoryBuffer, added: HistoryBuffer, ghost ring: seq<HistoryBuffer>)
    requires Linked(ring) && head == ring[0] && hb == ring[|ring| - 1] && added !in ring
    modifies head`prev, hb`next, added`next, added`prev
    ensures Linked(ring + [added])
  {
    hb.next := added;
    added.next, added.prev := head, hb;
    head.prev := added;
  }
}
