/**
 The key phrase buffer as the firmware holds it: history_buffer records linked in a
 ring, changed in place.  Every method is proved to take exactly the step of
 KpbSession that the same event takes there.
 */
module KpbBuffer {
  import opened Basics
  import opened KpbRing
  import opened KpbSession
  import opened KpbCompletion

  /** struct history_buffer.  `data` is the memory from start_addr to end_addr, empty
      while the record has none. */
  class HistoryBuffer {
    var state: BlockState
    var data: seq<Byte>
    var w: nat
    var r: nat
    var next: HistoryBuffer?
    var prev: HistoryBuffer?

    constructor ()
      ensures Value() == Block([], 0, 0, BufferFree)
      ensures next == null && prev == null
    {
      state, data, w, r, next, prev := BufferFree, [], 0, 0, null, null;
    }

    ghost function Value(): Block
      reads this`data, this`w, this`r, this`state
    {
      Block(data, w, r, state)
    }
  }

  // The records, in next order, form one circular doubly linked list
  ghost predicate Linked(ring: seq<HistoryBuffer>)
    reads ring`next, ring`prev
  {
    |ring| > 0 && Distinct(ring) && Links(ring)
  }

  ghost predicate Distinct(ring: seq<HistoryBuffer>) {
    forall i, j :: 0 <= i < j < |ring| ==> ring[i] != ring[j]
  }

  ghost predicate Links(ring: seq<HistoryBuffer>)
    reads ring`next, ring`prev
  {
    forall i {:trigger ring[i].next} {:trigger ring[i].prev} :: 0 <= i < |ring| ==>
      ring[i].next == ring[Next(|ring|, i)] && ring[i].prev == ring[Prev(|ring|, i)]
  }

  lemma LinkAt(ring: seq<HistoryBuffer>, i: nat)
    requires Links(ring) && i < |ring|
    ensures ring[i].next == ring[Next(|ring|, i)] && ring[i].prev == ring[Prev(|ring|, i)]
  {
  }

  ghost function Blocks(ring: seq<HistoryBuffer>): (bs: seq<Block>)
    reads ring`data, ring`w, ring`r, ring`state
    ensures |bs| == |ring|
  {
    if ring == [] then [] else [ring[0].Value()] + Blocks(ring[1..])
  }

  lemma {:induction false} BlockAt(ring: seq<HistoryBuffer>)
    ensures forall i :: 0 <= i < |ring| ==> Blocks(ring)[i] == ring[i].Value()
  {
    if ring != [] {
      BlockAt(ring[1..]);
      forall i | 0 < i < |ring|
        ensures Blocks(ring)[i] == ring[i].Value()
      {
        assert ring[i] == ring[1..][i - 1];
      }
    }
  }

  lemma BlocksAre(ring: seq<HistoryBuffer>, bs: seq<Block>)
    requires |bs| == |ring|
    requires forall k :: 0 <= k < |ring| ==> ring[k].Value() == bs[k]
    ensures Blocks(ring) == bs
  {
    hide Blocks;
    BlockAt(ring);
  }

  /** kpb_reset_history_buffer: zero every block and rewind its pointers. */
  method ResetHistoryBuffer(first: HistoryBuffer, ghost ring: seq<HistoryBuffer>)
    requires Linked(ring) && first == ring[0]
    modifies ring`data, ring`w, ring`r, ring`state
    ensures forall i :: 0 <= i < |ring| ==>
              ring[i].Value() == Block(seq(|old(ring[i].data)|, _ => 0), 0, 0, BufferFree)
  {
    var buff := first;
    ghost var i := 0;
    var more := true;
    while more
      invariant 0 <= i <= |ring|
      invariant more ==> i < |ring| && buff == ring[i]
      invariant !more ==> i == |ring|
      invariant forall k :: 0 <= k < i ==>
                  ring[k].Value() == Block(seq(|old(ring[k].data)|, _ => 0), 0, 0, BufferFree)
      invariant forall k :: i <= k < |ring| ==> ring[k].data == old(ring[k].data)
      decreases |ring| - i
    {
      buff.data := seq(|buff.data|, _ => 0);
      buff.w, buff.r, buff.state := 0, 0, BufferFree;
      buff := buff.next;
      i := i + 1;
      more := buff != first;
    }
  }

  // The same ring, counted from its record i
  function Turned(ring: seq<HistoryBuffer>, i: nat): (r: seq<HistoryBuffer>)
    requires i < |ring|
    ensures |r| == |ring| && r[0] == ring[i]
    ensures forall k :: 0 <= k < |r| ==> r[k] in ring
  {
    ring[i..] + ring[..i]
  }

  lemma TurnedAt(ring: seq<HistoryBuffer>, i: nat, k: nat)
    requires i < |ring| && k < |ring|
    ensures Turned(ring, i)[k] == ring[if i + k < |ring| then i + k else i + k - |ring|]
  {
  }

  lemma TurnedLinked(ring: seq<HistoryBuffer>, i: nat)
    requires Linked(ring) && i < |ring|
    ensures Linked(Turned(ring, i))
  {
    hide Turned, Links;
    var r, n := Turned(ring, i), |ring|;
    forall j, k | 0 <= j < k < n
      ensures r[j] != r[k]
    {
      TurnedAt(ring, i, j);
      TurnedAt(ring, i, k);
    }
    assert Links(r) by { TurnedLinks(ring, i); }
  }

  lemma TurnedLinks(ring: seq<HistoryBuffer>, i: nat)
    requires Links(ring) && i < |ring|
    ensures Links(Turned(ring, i))
  {
    hide Turned;
    var r, n := Turned(ring, i), |ring|;
    forall k | 0 <= k < n
      ensures r[k].next == r[Next(n, k)] && r[k].prev == r[Prev(n, k)]
    {
      TurnedAt(ring, i, k);
      TurnedAt(ring, i, Next(n, k));
      TurnedAt(ring, i, Prev(n, k));
      LinkAt(ring, if i + k < n then i + k else i + k - n);
    }
  }

  lemma TurnedBlocks(ring: seq<HistoryBuffer>, i: nat)
    requires i < |ring| && Backed(Blocks(ring))
    ensures Backed(Blocks(Turned(ring, i))) && Size(Blocks(Turned(ring, i))) == Size(Blocks(ring))
  {
    hide Blocks, Turned, Backed, Size;
    BlockAt(ring);
    TurnedValues(ring, Blocks(ring), i);
    SizeTurned(Blocks(ring), i);
    BackedTurned(Blocks(ring), i);
  }

  lemma TurnedValues(ring: seq<HistoryBuffer>, bs: seq<Block>, i: nat)
    requires |bs| == |ring| && i < |ring| && forall k :: 0 <= k < |ring| ==> bs[k] == ring[k].Value()
    ensures Blocks(Turned(ring, i)) == bs[i..] + bs[..i]
  {
    hide Blocks, Turned, HistoryBuffer.Value;
    var turned := bs[i..] + bs[..i];
    forall k | 0 <= k < |ring|
      ensures Turned(ring, i)[k].Value() == turned[k]
    {
      TurnedAt(ring, i, k);
    }
    BlocksAre(Turned(ring, i), turned);
  }

  lemma BackedTurned(bs: seq<Block>, i: nat)
    requires i < |bs| && Backed(bs)
    ensures Backed(bs[i..] + bs[..i])
  {
    var turned := bs[i..] + bs[..i];
    forall k | 0 <= k < |turned|
      ensures turned[k] in bs
    {
      assert turned[k] == if i + k < |bs| then bs[i + k] else bs[i + k - |bs|];
    }
  }

  lemma SizeTurned(bs: seq<Block>, i: nat)
    requires i < |bs|
    ensures Size(bs[i..] + bs[..i]) == Size(bs)
  {
    hide Flat;
    assert bs == bs[..i] + bs[i..];
    FlatAppend(bs[i..], bs[..i]);
    FlatAppend(bs[..i], bs[i..]);
  }

  // A prepared component, except for a count that is left over
  lemma PreparedOver(s: Kpb)
    requires Prepared(Settled(s))
    ensures Sane(s) && s == Stale(Settled(s), s.c.sinceDrain)
    ensures (Delivers(s) <==> s.c.sinceDrain == 0) && (s.c.sinceDrain == 0 ==> Inv(s))
  {
    hide Prepared, Delivers, Sane, Inv;
    DeliversWhen(Settled(s), s.c.sinceDrain);
    PreparedInv(Settled(s));
  }

  // struct comp_data: the fields a session uses, and what the sinks received
  class KeyPhraseBuffer {
    var cHb: HistoryBuffer
    var hb: HistoryBuffer
    var c: Control
    var host: seq<Byte>
    var sel: seq<Byte>

    ghost var ring: seq<HistoryBuffer>
    ghost var cur: nat
    ghost var at: nat
    ghost var hist: seq<Byte>
    ghost var fed: seq<Byte>

    ghost predicate Placed()
      reads this, ring
    {
      && Linked(ring)
      && cur < |ring| && cHb == ring[cur]
      && at < |ring| && hb == ring[at]
    }

    // Every step can be taken
    ghost predicate Ready()
      reads this, ring
    {
      Placed() && Sane(State())
    }

    // ... and the bytes the counters stand for are there
    ghost predicate Valid()
      reads this, ring
    {
      Ready() && Inv(State())
    }

    ghost function Chain(): Ring
      reads this, ring
    {
      Ring(Blocks(ring), cur)
    }

    ghost function State(): Kpb
      reads this, ring
    {
      Kpb(Chain(), at, c, hist, fed, host, sel)
    }

    /** A component around an allocated ring, its blocks not yet reset. */
    constructor (first: HistoryBuffer, size: nat, ghost ring: seq<HistoryBuffer>)
      requires Linked(ring) && first == ring[0]
      ensures Placed() && this.ring == ring
      ensures State() == Fresh(Blocks(ring), size)
    {
      cHb, hb, host, sel := first, first, [], [];
      c := Control(size, 0, size, Run, Idle, 0, 0, 0);
      this.ring, cur, at, hist, fed := ring, 0, 0, [], [];
    }

    /** kpb_prepare with a history buffer that is large enough, new or used before: the
        blocks are reset from wherever hd.c_hb points, and counters and state start over.
        buffered_while_draining is not among them. So after a reset in the middle of draining
        every run that completes delivers what was requested and fed if and only if nothing
        was left to reload. */
    method Prepare()
      requires Placed()
      requires Backed(Blocks(ring)) && c.size == Size(Blocks(ring))
      modifies this, ring`data, ring`w, ring`r, ring`state
      ensures Ready() && c.sinceDrain == old(c.sinceDrain)
      ensures Prepared(Settled(State())) && State() == Stale(Settled(State()), old(c.sinceDrain))
      ensures (Delivers(State()) <==> old(c.sinceDrain) == 0) && (old(c.sinceDrain) == 0 ==> Valid())
      ensures cHb == old(cHb) && c.size == old(c.size) && ring == Turned(old(ring), old(cur))
    {
      hide Blocks, Flat, Inv, Linked, Prepared, Backed, Size, Turned, Delivers, Sane, Stale;
      CountFromCurrent();
      StartOver();
      ResetBlocks();
      PreparedOver(State());
    }

    // Counters and state, except for buffered_while_draining
    method StartOver()
      requires Linked(ring) && cHb == ring[0] && cur == 0 && at == 0
      modifies this`hb, this`host, this`sel, this`hist, this`fed, this`c
      ensures Placed() && Settled(State()) == Fresh(Blocks(ring), c.size)
      ensures c.size == old(c.size) && c.sinceDrain == old(c.sinceDrain)
    {
      hide Blocks, Links;
      hb, host, sel, hist, fed := cHb, [], [], [], [];
      c := Control(c.size, 0, c.size, Run, Idle, 0, c.sinceDrain, 0);
    }

    // The ring is counted from the block hd.c_hb points at
    ghost method CountFromCurrent()
      requires Placed() && Backed(Blocks(ring))
      modifies this`ring, this`cur, this`at
      ensures ring == Turned(old(ring), old(cur)) && cur == 0 && at == 0
      ensures Linked(ring) && cHb == ring[0]
      ensures Backed(Blocks(ring)) && Size(Blocks(ring)) == old(Size(Blocks(ring)))
    {
      hide Blocks, Flat, Linked, Backed, Size, Turned;
      TurnedLinked(ring, cur);
      TurnedBlocks(ring, cur);
      ring, cur, at := Turned(ring, cur), 0, 0;
    }

    method ResetBlocks()
      requires Placed() && Settled(State()) == Fresh(Blocks(ring), c.size)
      requires Backed(Blocks(ring)) && c.size == Size(Blocks(ring))
      modifies ring`data, ring`w, ring`r, ring`state
      ensures Placed() && Prepared(Settled(State())) && Inv(Settled(State()))
    {
      hide Blocks, Flat, Inv, Links, Prepared, Backed, Size;
      ghost var bs := Blocks(ring);
      BlockAt(ring);
      ResetHistoryBuffer(cHb, ring);
      BlockAt(ring);
      FreshPrepared(bs, Blocks(ring), c.size);
      assert Settled(State()) == Fresh(Blocks(ring), c.size);
    }

    /** One pass of the buffering loop: fill up to the end of the current block. */
    method StoreChunk(d: seq<Byte>)
      requires Placed() && Shape(Chain())
      requires Chain().blocks[cur].w + |d| <= |Chain().blocks[cur].data|
      modifies this`cHb, this`cur, ring`data, ring`w, ring`state
      ensures Placed()
      ensures Chain() == WriteChunk(old(Chain()), d)
    {
      hide Blocks, Flat, Size, Links, HandOver;
      ghost var g, c := Chain(), cur;
      BlockAt(ring);
      cHb.data := cHb.data[..cHb.w] + d + cHb.data[cHb.w + |d|..];
      cHb.w := cHb.w + |d|;
      BlocksAre(ring, g.blocks[c := cHb.Value()]);
      if cHb.w == |cHb.data| {
        NextBlock();
      }
    }

    /** The current block is full: rewind it and go on with the next one. */
    method NextBlock()
      requires Placed() && |cHb.data| > 0
      modifies this`cHb, this`cur, ring`w, ring`state
      ensures Placed()
      ensures Chain() == HandOver(old(Chain()))
    {
      hide Blocks, Flat, Size, Links;
      LinkAt(ring, cur);
      BlockAt(ring);
      ghost var bs, c := Blocks(ring), cur;
      var b := cHb;
      b.w := 0;
      if b.next != null && b.next != b {
        b.state := BufferFull;
        bs := bs[c := b.Value()];
        cHb := b.next;
        cur := Next(|ring|, cur);
      }
      cHb.state := BufferFree;
      BlocksAre(ring, bs[cur := cHb.Value()]);
    }

    /** kpb_buffer_data. */
    method BufferAll(d: seq<Byte>)
      requires Placed() && Shape(Chain())
      modifies this`cHb, this`cur, ring`data, ring`w, ring`state
      ensures Placed() && Shape(Chain())
      ensures Chain() == BufferData(old(Chain()), d)
    {
      hide Flat, Size, Shape, WriteChunk, BufferData, Linked;
      var rest := d;
      while rest != []
        invariant Placed() && Shape(Chain())
        invariant BufferData(Chain(), rest) == BufferData(old(Chain()), d)
        decreases |rest|
      {
        ghost var g := Chain();
        var space := Space();
        var n := if |rest| > space then space else |rest|;
        WriteChunkShape(g, rest[..n]);
        BufferDataStep(g, rest, n);
        StoreChunk(rest[..n]);
        rest := rest[n..];
      }
      BufferNothing(Chain());
    }

    // Room left in the current write block
    method Space() returns (n: nat)
      requires Placed() && Shape(Chain())
      ensures 0 < n == |Chain().blocks[cur].data| - Chain().blocks[cur].w
    {
      BlockAt(ring);
      n := |cHb.data| - cHb.w;
    }

    /** kpb_copy. */
    method RtCopy(avail: seq<Byte>, sinkFree: nat)
      requires Ready()
      modifies this, ring`data, ring`w, ring`state
      ensures ring == old(ring)
      ensures Ready() && (old(Valid()) ==> Valid()) && State() == Step(old(State()), Event.RtCopy(avail, sinkFree))
    {
      hide Inv, Sane, Step, Linked, Blocks;
      StepBoth(State(), Event.RtCopy(avail, sinkFree));
      match c.state {
        case Run => CopyInRun(avail, sinkFree);
        case HostCopy => CopyToHost(avail, sinkFree);
        case InitDraining | Draining => CopyInSession(avail, sinkFree);
      }
    }

    method CopyInRun(avail: seq<Byte>, sinkFree: nat)
      requires Ready() && c.state == Run
      modifies this`cHb, this`cur, this`c, this`hist, this`sel, ring`data, ring`w, ring`state
      ensures Placed() && State() == Step(old(State()), Event.RtCopy(avail, sinkFree))
    {
      hide Inv, Sane, Linked, Blocks, Flat, Shape, BufferData;
      StateBounds(State());
      var n := if |avail| < sinkFree then |avail| else sinkFree;
      sel := sel + avail[..n];
      if n != 0 && |avail| <= c.size {
        BufferAll(avail[..n]);
        c := c.(buffered := c.buffered + Min(c.size - c.buffered, n));
        hist := hist + avail[..n];
      }
    }

    method CopyToHost(avail: seq<Byte>, sinkFree: nat)
      requires Ready() && c.state == HostCopy
      modifies this`host, this`fed
      ensures Placed() && State() == Step(old(State()), Event.RtCopy(avail, sinkFree))
    {
      hide Inv, Sane, Linked, Blocks, Flat, Shape;
      StateBounds(State());
      var n := if |avail| < sinkFree then |avail| else sinkFree;
      host := host + avail[..n];
      fed := fed + avail[..n];
    }

    method CopyInSession(avail: seq<Byte>, sinkFree: nat)
      requires Ready() && (c.state == InitDraining || c.state == Draining)
      modifies this`cHb, this`cur, this`c, this`fed, ring`data, ring`w, ring`state
      ensures Placed() && State() == Step(old(State()), Event.RtCopy(avail, sinkFree))
    {
      hide Inv, Sane, Linked, Blocks, Flat, Shape, BufferData;
      StateBounds(State());
      var n := if |avail| < c.free then |avail| else c.free;
      BufferAll(avail[..n]);
      c := c.(sinceDrain := c.sinceDrain + n, free := c.free - n);
      fed := fed + avail[..n];
    }

    /** kpb_init_draining: look backwards for the read point and open the session. */
    method BeginDraining(request: nat, admitted: bool)
      requires Ready()
      modifies this`c, this`hb, this`at, ring`r
      ensures Ready() && (old(Valid()) ==> Valid()) && State() == Step(old(State()), Event.BeginDraining(request, admitted))
    {
      hide Inv, Sane, Linked, Blocks, Shape, Walk, WalkInRing;
      ghost var s := State();
      StepBoth(s, Event.BeginDraining(request, admitted));
      StateBounds(s);
      if c.state == Run && admitted && request <= c.buffered {
        WalkReady(s, request);
        FindReadPoint(request);
        c := c.(state := InitDraining, free := c.size - request, drainReq := request, req := request);
        assert State() == BeginStep(s, request, admitted);
      }
    }

    method FindReadPoint(request: nat)
      requires Placed() && Shape(Chain())
      requires forall i :: 0 <= i < |ring| ==> Chain().blocks[i].r == 0
      requires WalkInRing(State(), request)
      modifies this`hb, this`at, ring`r
      ensures Placed()
      ensures
        var rp := Walk(old(Chain()), request, cur, 0);
        Chain() == SetRead(old(Chain()), rp.hb, rp.r) && at == rp.hb
    {
      hide Blocks, Links, Shape, Walk;
      ghost var i;
      var buff, r;
      buff, i, r := WalkBack(request);
      hb, at := buff, i;
      MoveRead(r);
    }

    /** The do-while loop of kpb_init_draining. */
    method WalkBack(request: nat) returns (buff: HistoryBuffer, ghost i: nat, r: int)
      requires Placed()
      requires forall k :: 0 <= k < |ring| ==> Chain().blocks[k].r == 0
      modifies ring`r
      ensures Placed() && Chain() == old(Chain())
      ensures i < |ring| && buff == ring[i]
      ensures Walk(Chain(), request, cur, 0) == ReadPoint(i, r)
    {
      hide Blocks, Links;
      ghost var g := Chain();
      BlockAt(ring);
      buff, i, r := cHb, cur, 0;
      var counted: nat := 0;
      var done := false;
      while !done
        invariant 0 <= i < |ring| && buff == ring[i] && 0 <= counted
        invariant forall k :: 0 <= k < |ring| ==> ring[k].Value() == g.blocks[k]
        invariant !done ==> Walk(g, request, i, counted) == Walk(g, request, cur, 0)
        invariant done ==> Walk(g, request, cur, 0) == ReadPoint(i, r)
        decreases !done, WalkLeft(|ring|, cur, i)
      {
        LinkAt(ring, i);
        buff.r := 0;
        counted := counted + Counts(buff);
        if request > counted {
          buff, i := buff.prev, Prev(|ring|, i);
          if buff == cHb {
            r := buff.w + (counted + |buff.data| - buff.w - request);
            done := true;
          }
        } else {
          r := counted - request;
          done := true;
        }
      }
      BlocksAre(ring, g.blocks);
    }

    // What a block's label says it holds
    function Counts(b: HistoryBuffer): (n: nat)
      reads b
      ensures n == Local(b.Value())
    {
      match b.state
      case BufferFree => b.w
      case BufferFull => |b.data|
      case BufferOff => 0
    }

    method StartTask()
      requires Ready()
      modifies this`c
      ensures Ready() && (old(Valid()) ==> Valid()) && State() == Step(old(State()), TaskStart)
    {
      hide Inv, Sane, Linked, Blocks;
      StepBoth(State(), TaskStart);
      if c.state == InitDraining && c.task == Idle {
        c := c.(state := Draining, task := if c.drainReq > 0 then LoopTop else Finished);
      }
      assert State() == TaskStartStep(old(State()));
    }

    /** First part of a pass: hand the sink what fits and advance the read pointer. */
    method Drain(sinkFree: nat)
      requires Ready()
      modifies this`host, this`c, ring`r
      ensures Ready() && (old(Valid()) ==> Valid()) && State() == Step(old(State()), Event.DrainCopy(sinkFree))
    {
      hide Inv, Sane, Linked, Blocks, Shape, DrainCopyStep;
      ghost var s := State();
      StepBoth(s, Event.DrainCopy(sinkFree));
      StateBounds(s);
      BlockAt(ring);
      if c.state != Run { HandOut(sinkFree); }
    }

    method HandOut(sinkFree: nat)
      requires Placed() && hb.r <= |hb.data|
      modifies this`host, this`c, ring`r
      ensures old(State()).hb < |old(State()).ring.blocks|
      ensures var b := old(State()).ring.blocks[old(State()).hb]; b.r <= |b.data|
      ensures Placed() && State() == DrainCopyStep(old(State()), sinkFree)
    {
      hide Linked, Blocks, DrainSize, SetRead;
      BlockAt(ring);
      if c.task == LoopTop {
        var n, move := SizeToCopy(|hb.data| - hb.r, sinkFree, c.drainReq);
        host := host + hb.data[hb.r..hb.r + n];
        c := c.(drainReq := c.drainReq - n, task := Copied(n, move));
        MoveRead(hb.r + n);
      }
    }

    method SizeToCopy(toRead: nat, sinkFree: nat, drainReq: nat) returns (n: nat, move: bool)
      ensures (n, move) == DrainSize(toRead, sinkFree, drainReq) && n <= toRead && n <= drainReq
    {
      move := false;
      if toRead > sinkFree {
        n := if sinkFree >= drainReq then drainReq else sinkFree;
      } else if toRead > drainReq {
        n := drainReq;
      } else {
        n, move := toRead, true;
      }
    }

    // Place the read pointer of the block being drained
    method MoveRead(r: nat)
      requires Placed()
      modifies ring`r
      ensures Placed() && Chain() == SetRead(old(Chain()), at, r)
    {
      hide Blocks, Links;
      BlockAt(ring);
      ghost var g := Chain();
      hb.r := r;
      BlocksAre(ring, g.blocks[at := hb.Value()]);
    }

    /** Second part: release the credit of what was copied; leave a finished block. */
    method Release()
      requires Ready()
      modifies this`c, this`hb, this`at, ring`r
      ensures Ready() && (old(Valid()) ==> Valid()) && State() == Step(old(State()), DrainRelease)
    {
      hide Inv, Sane, Linked, Blocks, Shape;
      ghost var s := State();
      StepBoth(s, DrainRelease);
      StateBounds(s);
      if c.state != Run && c.task.Copied? {
        if c.task.move {
          MoveRead(0);
          LinkedAt(ring, at);
          hb, at := hb.next, Next(|ring|, at);
        }
        c := c.(free := c.free + Min(c.size - c.free, c.task.n), task := Released);
      }
      assert s.c.state != Run ==> State() == DrainReleaseStep(s);
    }

    /** Third part: take over what was buffered meanwhile, or finish. */
    method Reload()
      requires Ready()
      modifies this`c
      ensures Ready() && (old(Valid()) ==> Valid()) && State() == Step(old(State()), DrainReload)
    {
      hide Inv, Sane, Linked, Blocks;
      ghost var s := State();
      StepBoth(s, DrainReload);
      if c.state != Run && c.task == Released {
        if c.drainReq == 0 {
          c := c.(drainReq := c.drainReq + c.sinceDrain, sinceDrain := 0);
          if c.drainReq == 0 { c := c.(state := HostCopy); }
        }
        c := c.(task := if c.drainReq > 0 then LoopTop else Finished);
      }
      assert s.c.state != Run ==> State() == DrainReloadStep(s);
    }
  }

  lemma LinkedAt(ring: seq<HistoryBuffer>, i: nat)
    requires Linked(ring) && i < |ring|
    ensures ring[i].next == ring[Next(|ring|, i)]
  {
    LinkAt(ring, i);
  }
}
