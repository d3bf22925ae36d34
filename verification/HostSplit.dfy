/**
 One-shot copies of the host component: a request is split into DMA transfers that
 respect the elements of the source and of the sink buffer.
 */
module HostSplit {
  import opened Arith

  // struct dma_sg_elem, with the address used on this side
  datatype Elem = Elem(addr: nat, size: nat)

  datatype Transfer = Transfer(src: nat, dest: nat, bytes: nat)

  // A place in a cyclic list of elements
  datatype Cursor = Cursor(current: nat, addr: nat)

  predicate Elements(es: seq<Elem>) {
    |es| > 0 && forall i :: 0 <= i < |es| ==> es[i].size > 0
  }

  predicate In(es: seq<Elem>, c: Cursor) {
    && Elements(es) && c.current < |es|
    && es[c.current].addr <= c.addr < es[c.current].addr + es[c.current].size
  }

  function Room(es: seq<Elem>, c: Cursor): (r: nat)
    requires In(es, c)
    ensures r > 0
  {
    es[c.current].addr + es[c.current].size - c.addr
  }

  // n bytes on, inside the element or to the start of the next one
  function Move(es: seq<Elem>, c: Cursor, n: nat): (r: Cursor)
    requires In(es, c) && n <= Room(es, c)
    ensures In(es, r)
  {
    if n < Room(es, c) then Cursor(c.current, c.addr + n)
    else
      var k := if c.current + 1 == |es| then 0 else c.current + 1;
      Cursor(k, es[k].addr)
  }

  // ---------------------------------------------------------------- byte by byte

  // The next n addresses of the list
  function Next(es: seq<Elem>, c: Cursor, n: nat): (r: seq<nat>)
    requires In(es, c)
    ensures |r| == n
    decreases n
  {
    if n == 0 then [] else [c.addr] + Next(es, Move(es, c, 1), n - 1)
  }

  function After(es: seq<Elem>, c: Cursor, n: nat): (r: Cursor)
    requires In(es, c)
    ensures In(es, r)
    decreases n
  {
    if n == 0 then c else After(es, Move(es, c, 1), n - 1)
  }

  function Range(a: nat, n: nat): (r: seq<nat>)
    ensures |r| == n
  {
    seq(n, i requires 0 <= i => a + i)
  }

  lemma {:induction false} NextRun(es: seq<Elem>, c: Cursor, n: nat)
    requires In(es, c) && n <= Room(es, c)
    ensures Next(es, c, n) == Range(c.addr, n)
    ensures After(es, c, n) == Move(es, c, n)
    decreases n
  {
    if n > 0 {
      var d := Move(es, c, 1);
      if n > 1 { NextRun(es, d, n - 1); }
      assert Range(c.addr, n) == [c.addr] + Range(c.addr + 1, n - 1);
    }
  }

  lemma {:induction false} NextAdd(es: seq<Elem>, c: Cursor, a: nat, b: nat)
    requires In(es, c)
    ensures Next(es, c, a + b) == Next(es, c, a) + Next(es, After(es, c, a), b)
    ensures After(es, c, a + b) == After(es, After(es, c, a), b)
    decreases a
  {
    if a == 0 {
      assert [] + Next(es, c, b) == Next(es, c, b);
    } else {
      NextAdd(es, Move(es, c, 1), a - 1, b);
    }
  }

  // ---------------------------------------------------------------- the cycle

  // All addresses of the list, in order
  function Flat(es: seq<Elem>): seq<nat> {
    if es == [] then [] else Flat(es[..|es| - 1]) + Range(es[|es| - 1].addr, es[|es| - 1].size)
  }

  // Where the cursor is in Flat(es)
  function Index(es: seq<Elem>, c: Cursor): nat
    requires In(es, c)
  {
    |Flat(es[..c.current])| + (c.addr - es[c.current].addr)
  }

  lemma {:induction false} FlatAt(es: seq<Elem>, k: nat, i: nat)
    requires k < |es| && i < es[k].size
    ensures |Flat(es[..k])| + i < |Flat(es)| && Flat(es)[|Flat(es[..k])| + i] == es[k].addr + i
  {
    var m := |es| - 1;
    if k < m {
      FlatAt(es[..m], k, i);
      assert es[..m][..k] == es[..k];
    }
  }

  lemma FlatNext(es: seq<Elem>, k: nat)
    requires k < |es|
    ensures |Flat(es[..k + 1])| == |Flat(es[..k])| + es[k].size
  {
    assert es[..k + 1][..k] == es[..k];
  }

  lemma MoveIndex(es: seq<Elem>, c: Cursor)
    requires In(es, c)
    ensures |Flat(es)| > 0 && Index(es, c) < |Flat(es)| && Flat(es)[Index(es, c)] == c.addr
    ensures Index(es, Move(es, c, 1)) == if Index(es, c) + 1 == |Flat(es)| then 0 else Index(es, c) + 1
  {
    var k := c.current;
    FlatAt(es, k, c.addr - es[k].addr);
    FlatNext(es, k);
    if k + 1 < |es| { FlatAt(es, k + 1, 0); } else { assert es[..k + 1] == es; }
    assert es[..0] == [];
  }

  /** The addresses from a cursor on are those of the list read round and round. */
  lemma {:induction false} NextCycles(es: seq<Elem>, c: Cursor, n: nat, i: nat)
    requires In(es, c) && i < n
    ensures |Flat(es)| > 0 && Next(es, c, n)[i] == Flat(es)[Mod(Index(es, c) + i, |Flat(es)|)]
    decreases i
  {
    hide Flat, Index, Move, In, Mod;
    MoveIndex(es, c);
    var m, x := |Flat(es)|, Index(es, c);
    if i == 0 {
      ModAdd(m, x);
    } else {
      NextCycles(es, Move(es, c, 1), n - 1, i - 1);
      if x + 1 == m { ModAdd(m, i - 1); }
    }
  }

  // ---------------------------------------------------------------- transfers

  // The address pairs the transfers copy, in order
  function Joined(ts: seq<Transfer>): seq<(nat, nat)> {
    if ts == [] then [] else Joined(ts[..|ts| - 1]) + Pairs(ts[|ts| - 1])
  }

  function Pairs(t: Transfer): seq<(nat, nat)> {
    Zip(Range(t.src, t.bytes), Range(t.dest, t.bytes))
  }

  function Zip(a: seq<nat>, b: seq<nat>): (r: seq<(nat, nat)>)
    requires |a| == |b|
    ensures |r| == |a|
  {
    seq(|a|, i requires 0 <= i < |a| => (a[i], b[i]))
  }

  // The next n address pairs of the two lists
  function NextPairs(ss: seq<Elem>, s: Cursor, ds: seq<Elem>, d: Cursor, n: nat): seq<(nat, nat)>
    requires In(ss, s) && In(ds, d)
  {
    Zip(Next(ss, s, n), Next(ds, d, n))
  }

  lemma ZipAppend(a: seq<nat>, b: seq<nat>, c: seq<nat>, d: seq<nat>)
    requires |a| == |b| && |c| == |d|
    ensures Zip(a + c, b + d) == Zip(a, b) + Zip(c, d)
  {
  }

  lemma PairsGrow(ss: seq<Elem>, s: Cursor, ds: seq<Elem>, d: Cursor, done: nat, n: nat)
    requires In(ss, s) && In(ds, d) && n <= Room(ss, After(ss, s, done)) && n <= Room(ds, After(ds, d, done))
    ensures NextPairs(ss, s, ds, d, done + n) == NextPairs(ss, s, ds, d, done)
            + Pairs(Transfer(After(ss, s, done).addr, After(ds, d, done).addr, n))
    ensures After(ss, s, done + n) == Move(ss, After(ss, s, done), n)
    ensures After(ds, d, done + n) == Move(ds, After(ds, d, done), n)
  {
    hide In, Move, Room, Next, After, Zip, Range;
    var s1, d1 := After(ss, s, done), After(ds, d, done);
    NextRun(ss, s1, n);
    NextRun(ds, d1, n);
    NextAdd(ss, s, done, n);
    NextAdd(ds, d, done, n);
    ZipAppend(Next(ss, s, done), Next(ds, d, done), Range(s1.addr, n), Range(d1.addr, n));
  }

  lemma JoinedOne(ts: seq<Transfer>, t: Transfer)
    ensures Joined(ts + [t]) == Joined(ts) + Pairs(t)
  {
    assert (ts + [t])[..|ts|] == ts;
  }

  // ---------------------------------------------------------------- struct hc_buf

  class HcBuf {
    const elems: seq<Elem>
    var current: nat
    var currentEnd: nat

    constructor (elems: seq<Elem>)
      ensures this.elems == elems
    {
      this.elems := elems;
    }

    /** next_buffer: the element behind the current one, the first behind the last. */
    method NextBuffer() returns (found: bool, e: Elem)
      requires elems != [] ==> current < |elems|
      modifies this`current
      ensures found <==> elems != []
      ensures found ==> current == (if old(current) + 1 == |elems| then 0 else old(current) + 1) && e == elems[current]
      ensures !found ==> current == old(current)
    {
      if |elems| == 0 { return false, Elem(0, 0); }
      current := current + 1;
      if current == |elems| { current := 0; }
      return true, elems[current];
    }

    // Moves an address of the current element on, to the next element at its end
    method Advance(at: nat, bytes: nat) returns (r: nat)
      requires In(elems, Cursor(current, at)) && bytes <= Room(elems, Cursor(current, at))
      requires currentEnd == at + Room(elems, Cursor(current, at))
      modifies this
      ensures Cursor(current, r) == Move(elems, Cursor(old(current), at), bytes)
      ensures currentEnd == r + Room(elems, Cursor(current, r))
    {
      r := at + bytes;
      if r == currentEnd {
        var found, e := NextBuffer();
        if found { currentEnd, r := e.addr + e.size, e.addr; }
      }
    }
  }

  // ---------------------------------------------------------------- struct host_data

  class HostData {
    const source: HcBuf
    const sink: HcBuf
    var src: nat
    var dest: nat
    var size: nat
    var transfers: seq<Transfer>

    constructor (source: HcBuf, sink: HcBuf)
      requires source != sink
      ensures this.source == source && this.sink == sink && transfers == []
    {
      this.source, this.sink, transfers := source, sink, [];
    }

    function Source(): Cursor
      reads this, source
    {
      Cursor(source.current, src)
    }

    function Sink(): Cursor
      reads this, sink
    {
      Cursor(sink.current, dest)
    }

    ghost predicate Valid()
      reads this, source, sink
    {
      && source != sink && In(source.elems, Source()) && In(sink.elems, Sink())
      && source.currentEnd == src + Room(source.elems, Source())
      && sink.currentEnd == dest + Room(sink.elems, Sink())
    }

    /** host_elements_reset: both sides at the start of their first element. */
    method ElementsReset(playback: bool)
      requires source != sink
      modifies this`src, this`dest, this`size, source, sink
      ensures Elements(source.elems) && Elements(sink.elems) ==>
        Valid() && Index(source.elems, Source()) == 0 && Index(sink.elems, Sink()) == 0
      ensures source.elems != [] && sink.elems != [] ==>
        size == if playback then sink.elems[0].size else source.elems[0].size
      ensures source.elems == [] || sink.elems == [] ==> src == old(src) && dest == old(dest) && size == old(size)
    {
      if source.elems != [] {
        source.current, source.currentEnd := 0, source.elems[0].addr + source.elems[0].size;
      }
      if sink.elems != [] {
        sink.current, sink.currentEnd := 0, sink.elems[0].addr + sink.elems[0].size;
      }
      if source.elems != [] && sink.elems != [] {
        dest, src := sink.elems[0].addr, source.elems[0].addr;
        size := if playback then sink.elems[0].size else source.elems[0].size;
      }
      assert source.elems[..0] == [] && sink.elems[..0] == [];
    }

    /** host_dma_get_split: what has to wait because an element ends first. */
    method GetSplit(bytes: nat) returns (split: nat)
      requires Valid()
      ensures split <= bytes && bytes - split <= Room(source.elems, Source()) && bytes - split <= Room(sink.elems, Sink())
      ensures split > 0 ==> bytes - split == Room(source.elems, Source()) || bytes - split == Room(sink.elems, Sink())
    {
      var splitSrc, splitDst := 0, 0;
      if src + bytes > source.currentEnd { splitSrc := bytes - (source.currentEnd - src); }
      if dest + bytes > sink.currentEnd { splitDst := bytes - (sink.currentEnd - dest); }
      split := if splitSrc > splitDst then splitSrc else splitDst;
    }

    /** host_one_shot_cb: both sides move on, to the next element where one is done. */
    method OneShotCallback(bytes: nat)
      requires Valid() && bytes <= Room(source.elems, Source()) && bytes <= Room(sink.elems, Sink())
      modifies this`src, this`dest, source, sink
      ensures Valid()
      ensures Source() == Move(source.elems, old(Source()), bytes)
      ensures Sink() == Move(sink.elems, old(Sink()), bytes)
    {
      hide Move, In, Room;
      src := source.Advance(src, bytes);
      dest := sink.Advance(dest, bytes);
    }

    /** host_copy_one_shot: the transfers joined together are the next address pairs of
        the two cyclic lists, each transfer inside one element of each; a failing DMA
        stops the copy after a prefix. The n-th transfer succeeds when works(n) says so. */
    method CopyOneShot(bytes: nat, works: nat -> bool) returns (ok: bool, done: nat)
      requires Valid()
      modifies this, source, sink
      ensures Valid() && done <= bytes && (ok <==> done == bytes)
      ensures |transfers| >= |old(transfers)| && transfers[..|old(transfers)|] == old(transfers)
      ensures Joined(transfers) == Joined(old(transfers))
              + NextPairs(source.elems, old(Source()), sink.elems, old(Sink()), done)
      ensures Source() == After(source.elems, old(Source()), done) && Sink() == After(sink.elems, old(Sink()), done)
      ensures forall i :: |old(transfers)| <= i < |transfers| ==> Inside(source.elems, sink.elems, transfers[i])
      ensures forall i :: |old(transfers)| <= i < |transfers| ==> works(i)
      ensures !ok ==> !works(|transfers|)
    {
      hide Move, In, Room, After, NextPairs, Joined, Pairs, Inside;
      ghost var s, d, was := Source(), Sink(), transfers;
      ok, done := true, 0;
      var copy := bytes;
      NothingYet(source.elems, s, sink.elems, d, Joined(was));
      while copy > 0
        invariant Valid() && 0 <= copy && done + copy == bytes
        invariant |transfers| >= |was| && transfers[..|was|] == was
        invariant Joined(transfers) == Joined(was) + NextPairs(source.elems, s, sink.elems, d, done)
        invariant Source() == After(source.elems, s, done) && Sink() == After(sink.elems, d, done)
        invariant forall i :: |was| <= i < |transfers| ==> Inside(source.elems, sink.elems, transfers[i]) && works(i)
        decreases copy
      {
        var split := GetSplit(copy);
        copy := copy - split;
        size := copy;
        if !works(|transfers|) { return false, done; }
        ghost var t := Transfer(src, dest, copy);
        PairsGrow(source.elems, s, sink.elems, d, done, copy);
        JoinedOne(transfers, t);
        InsideElements(source.elems, Source(), sink.elems, Sink(), copy);
        Rejoin(Joined(was), NextPairs(source.elems, s, sink.elems, d, done), Pairs(t));
        transfers := transfers + [Transfer(src, dest, copy)];
        OneShotCallback(copy);
        done := done + copy;
        copy := split;
      }
    }
  }

  lemma Rejoin(a: seq<(nat, nat)>, b: seq<(nat, nat)>, c: seq<(nat, nat)>)
    ensures a + b + c == a + (b + c)
  {
  }

  lemma NothingYet(ss: seq<Elem>, s: Cursor, ds: seq<Elem>, d: Cursor, a: seq<(nat, nat)>)
    requires In(ss, s) && In(ds, d)
    ensures a + NextPairs(ss, s, ds, d, 0) == a && After(ss, s, 0) == s && After(ds, d, 0) == d
  {
  }

  lemma InsideElements(ss: seq<Elem>, s: Cursor, ds: seq<Elem>, d: Cursor, n: nat)
    requires In(ss, s) && In(ds, d) && 0 < n <= Room(ss, s) && n <= Room(ds, d)
    ensures Inside(ss, ds, Transfer(s.addr, d.addr, n))
  {
    assert ss[s.current].addr <= s.addr && ds[d.current].addr <= d.addr;
  }

  // The transfer lies inside one element of each list
  predicate Inside(ss: seq<Elem>, ds: seq<Elem>, t: Transfer) {
    && t.bytes > 0
    && (exists i :: 0 <= i < |ss| && ss[i].addr <= t.src && t.src + t.bytes <= ss[i].addr + ss[i].size)
    && (exists i :: 0 <= i < |ds| && ds[i].addr <= t.dest && t.dest + t.bytes <= ds[i].addr + ds[i].size)
  }
}
