/**
 A key phrase buffer session as interleaved steps of two parties: the real-time copy
 (kpb_copy) and the background draining task (kpb_draining_task).

 One pass of the drain loop is split in three separately scheduled steps, so a
 real-time copy may run between reading bytes, releasing their credit, and
 reloading the request.
 */
module KpbSession {
  import opened Basics
  import opened KpbRing

  // The part of enum kpb_state between kpb_prepare and a reset
  datatype KpbState = Run | InitDraining | Draining | HostCopy

  // Where the draining task stands
  datatype Task =
    | Idle                        // not scheduled yet
    | LoopTop                     // about to test the sink and copy
    | Copied(n: nat, move: bool)  // n bytes copied, credit not yet released
    | Released                    // credit released, request not yet reloaded
    | Finished

  // The counters of the component and of its draining task
  datatype Control = Control(
    size: nat,          // hd.buffer_size
    buffered: nat,      // hd.buffered
    free: nat,          // hd.free, the write credit while draining
    state: KpbState,
    task: Task,
    drainReq: nat,      // the draining task's remaining request
    sinceDrain: nat,    // draining_data.buffered_while_draining
    req: nat)           // draining_data.drain_req, as accepted

  datatype Kpb = Kpb(
    ring: Ring,
    hb: nat,            // block the draining task reads from
    c: Control,
    hist: seq<Byte>,  // everything stored before draining was accepted
    fed: seq<Byte>,   // everything taken from the source since then
    host: seq<Byte>,  // everything handed to the host sink
    sel: seq<Byte>)   // everything handed to the selector sink

  datatype Event =
    | RtCopy(avail: seq<Byte>, sinkFree: nat)
    | BeginDraining(req: nat, admitted: bool)
    | TaskStart
    | DrainCopy(sinkFree: nat)
    | DrainRelease
    | DrainReload

  // ---------------------------------------------------------------- steps

  // d is appended to the history
  function Stored(s: Kpb, d: seq<Byte>): Kpb
    requires Shape(s.ring) && s.c.buffered <= s.c.size
  {
    s.(ring := BufferData(s.ring, d),
       c := s.c.(buffered := s.c.buffered + Min(s.c.size - s.c.buffered, |d|)),
       hist := s.hist + d)
  }

  /** kpb_copy. */
  function RtStep(s: Kpb, avail: seq<Byte>, sinkFree: nat): Kpb
    requires Shape(s.ring)
    requires s.c.buffered <= s.c.size
  {
    match s.c.state
    case Run =>
      var n := Min(|avail|, sinkFree);
      var t := s.(sel := s.sel + avail[..n]);
      if n == 0 || |avail| > s.c.size then t else Stored(t, avail[..n])
    case HostCopy =>
      var n := Min(|avail|, sinkFree);
      s.(host := s.host + avail[..n], fed := s.fed + avail[..n])
    case InitDraining | Draining =>
      var n := Min(|avail|, s.c.free);
      s.(ring := BufferData(s.ring, avail[..n]),
         c := s.c.(sinceDrain := s.c.sinceDrain + n, free := s.c.free - n),
         fed := s.fed + avail[..n])
  }

  ghost predicate WalkInRing(s: Kpb, req: nat)
    requires Shape(s.ring)
  {
    var rp := Walk(s.ring, req, s.ring.cur, 0);
    rp.hb < |s.ring.blocks| && 0 <= rp.r
  }

  /** kpb_init_draining; `admitted` stands for the client id, sink state and maximum
      request checks. */
  function BeginStep(s: Kpb, req: nat, admitted: bool): Kpb
    requires Shape(s.ring)
    requires s.c.state.Run? ==> s.c.buffered <= s.c.size
    requires s.c.state.Run? && req <= s.c.buffered ==> WalkInRing(s, req)
  {
    if s.c.state != Run || !admitted || s.c.buffered < req then s else
      var rp := Walk(s.ring, req, s.ring.cur, 0);
      s.(ring := SetRead(s.ring, rp.hb, rp.r),
         hb := rp.hb,
         c := s.c.(state := InitDraining, free := s.c.size - req, drainReq := req, req := req))
  }

  function SetRead(g: Ring, i: nat, r: nat): Ring
    requires i < |g.blocks|
  {
    SetBlock(g, i, g.blocks[i].(r := r))
  }

  // How much one pass copies, and whether it finishes the block
  function DrainSize(toRead: nat, sinkFree: nat, drainReq: nat): (nat, bool) {
    if toRead > sinkFree then
      (if sinkFree >= drainReq then drainReq else sinkFree, false)
    else if toRead > drainReq then
      (drainReq, false)
    else
      (toRead, true)
  }

  function DrainCopyStep(s: Kpb, sinkFree: nat): Kpb
    requires s.hb < |s.ring.blocks|
    requires s.ring.blocks[s.hb].r <= |s.ring.blocks[s.hb].data|
  {
    if s.c.task != LoopTop then s else
      var b := s.ring.blocks[s.hb];
      var (n, move) := DrainSize(|b.data| - b.r, sinkFree, s.c.drainReq);
      s.(host := s.host + b.data[b.r..b.r + n],
         ring := SetRead(s.ring, s.hb, b.r + n),
         c := s.c.(drainReq := s.c.drainReq - n, task := Copied(n, move)))
  }

  function DrainReleaseStep(s: Kpb): Kpb
    requires s.hb < |s.ring.blocks|
    requires s.c.free <= s.c.size
  {
    if !s.c.task.Copied? then s else
      var t := s.(c := s.c.(free := s.c.free + Min(s.c.size - s.c.free, s.c.task.n), task := Released));
      if s.c.task.move then
        t.(ring := SetRead(s.ring, s.hb, 0), hb := Next(|s.ring.blocks|, s.hb))
      else t
  }

  function DrainReloadStep(s: Kpb): Kpb {
    if s.c.task != Released then s
    else if s.c.drainReq > 0 then s.(c := s.c.(task := LoopTop))
    else if s.c.sinceDrain > 0 then
      s.(c := s.c.(drainReq := s.c.sinceDrain, sinceDrain := 0, task := LoopTop))
    else
      s.(c := s.c.(state := HostCopy, task := Finished))
  }

  function TaskStartStep(s: Kpb): Kpb {
    if s.c.state != InitDraining || s.c.task != Idle then s else
      s.(c := s.c.(state := Draining, task := if s.c.drainReq > 0 then LoopTop else Finished))
  }

  // ---------------------------------------------------------------- invariant

  function Pending(s: Kpb): nat { s.c.drainReq + s.c.sinceDrain }

  function Inflight(s: Kpb): nat { if s.c.task.Copied? then s.c.task.n else 0 }

  // The next byte to read is at offset ReadOff of block ReadHb
  function ReadHb(s: Kpb): nat
    requires s.hb < |s.ring.blocks|
  {
    if s.c.task.Copied? && s.c.task.move then Next(|s.ring.blocks|, s.hb) else s.hb
  }

  function ReadOff(s: Kpb): nat
    requires s.hb < |s.ring.blocks|
  {
    if s.c.task.Copied? && s.c.task.move then 0 else s.ring.blocks[s.hb].r
  }

  function Last(h: seq<Byte>, q: nat): seq<Byte>
    requires q <= |h|
  {
    h[|h| - q..]
  }

  ghost predicate OnlyReading(g: Ring, hb: nat) {
    forall i :: 0 <= i < |g.blocks| && i != hb ==> g.blocks[i].r == 0
  }

  ghost predicate RunInv(s: Kpb) {
    && Shape(s.ring) && s.c.size == Size(s.ring.blocks)
    && Labelled(s.ring, |s.hist|)
    && s.c.buffered == Min(s.c.size, |s.hist|)
    && Latest(s.ring, s.c.buffered) == Last(s.hist, s.c.buffered)
    && (forall i :: 0 <= i < |s.ring.blocks| ==> s.ring.blocks[i].r == 0)
    && s.c.task == Idle && s.c.drainReq == 0 && s.c.sinceDrain == 0
    && s.fed == [] && s.host == []
  }

  /** During a session: the credit is exactly the space holding no pending byte, and
      what the host has plus what is pending is the requested history followed by
      everything fed since. */
  ghost predicate SessionInv(s: Kpb) {
    && Shape(s.ring) && s.c.size == Size(s.ring.blocks)
    && s.c.buffered <= s.c.size
    && s.c.req <= |s.hist|
    && s.hb < |s.ring.blocks| && OnlyReading(s.ring, s.hb)
    && Behind(s.ring, ReadHb(s), ReadOff(s), Pending(s))
    && Pending(s) + Inflight(s) + s.c.free == s.c.size
    && s.host + Latest(s.ring, Pending(s)) == Last(s.hist, s.c.req) + s.fed
    && TaskInv(s)
  }

  ghost predicate TaskInv(s: Kpb)
    requires s.hb < |s.ring.blocks|
  {
    match s.c.task
    case Idle => s.c.state == InitDraining && s.c.drainReq == s.c.req && s.host == []
    case LoopTop => s.c.state == Draining && s.c.req > 0 && s.c.drainReq > 0
    case Copied(_, move) =>
      && s.c.state == Draining && s.c.req > 0
      && (move ==> s.ring.blocks[s.hb].r == |s.ring.blocks[s.hb].data|)
    case Released => s.c.state == Draining && s.c.req > 0
    case Finished =>
      && s.c.drainReq == 0
      && if s.c.req > 0 then s.c.state == HostCopy && s.c.sinceDrain == 0
         else s.c.state == Draining && s.host == []
  }

  ghost predicate Inv(s: Kpb) {
    if s.c.state == Run then RunInv(s) else SessionInv(s)
  }

  function Settled(s: Kpb): Kpb {
    s.(c := s.c.(sinceDrain := 0))
  }

  /** What the steps rely on, whatever bytes the counters stand for. In state Run a count of
      buffered_while_draining may be left over. */
  ghost predicate Sane(s: Kpb) {
    if s.c.state == Run then RunInv(Settled(s)) else Reading(s)
  }

  ghost predicate Reading(s: Kpb) {
    && Shape(s.ring) && s.c.size == Size(s.ring.blocks)
    && s.c.buffered <= s.c.size && s.c.free <= s.c.size && s.c.req <= |s.hist|
    && s.hb < |s.ring.blocks| && OnlyReading(s.ring, s.hb)
    && TaskInv(s)
    && var b := s.ring.blocks[s.hb];
      b.r <= |b.data| && (b.r == |b.data| ==> s.c.task.Copied? && s.c.task.move)
  }

  // ---------------------------------------------------------------- preservation

  lemma RtRunKeeps(s: Kpb, avail: seq<Byte>, sinkFree: nat)
    requires s.c.state == Run && RunInv(s)
    ensures Inv(RtStep(s, avail, sinkFree))
  {
    hide RunInv, Shape, BufferData;
    var n := Min(|avail|, sinkFree);
    SelectorApart(s, s.sel + avail[..n]);
    if n != 0 && |avail| <= s.c.size { RunBuffers(s.(sel := s.sel + avail[..n]), avail[..n]); }
  }

  lemma SelectorApart(s: Kpb, sel: seq<Byte>)
    requires RunInv(s)
    ensures Shape(s.ring) && s.c.buffered <= s.c.size && RunInv(s.(sel := sel))
  {
    hide Shape, Flat, Size, History, Latest, Labelled;
  }

  // Data is stored in state Run
  lemma RunBuffers(s: Kpb, d: seq<Byte>)
    requires RunInv(s) && 0 < |d| <= s.c.size
    ensures Shape(s.ring) && s.c.buffered <= s.c.size
    ensures RunInv(Stored(s, d))
  {
    hide Shape, Flat, Size, History, Latest, BufferData, Labelled, SameSizes;
    BufferDataShape(s.ring, d);
    SizeSame(s.ring.blocks, BufferData(s.ring, d).blocks);
    BufferDataLabels(s.ring, d, |s.hist|);
    RecordKeeps(s.ring, d, s.hist, s.c.buffered);
  }

  // Storing d keeps the history equal to the end of everything stored
  lemma RecordKeeps(g: Ring, d: seq<Byte>, hist: seq<Byte>, q: nat)
    requires Shape(g) && q == Min(Size(g.blocks), |hist|)
    requires Latest(g, q) == Last(hist, q)
    requires |d| <= Size(g.blocks)
    ensures
      var g' := BufferData(g, d);
      var q' := q + Min(Size(g.blocks) - q, |d|);
      && Shape(g') && Size(g'.blocks) == Size(g.blocks)
      && Latest(g', q') == Last(hist + d, q')
  {
    hide Shape, Flat, History, BufferData, SameSizes, SameReads;
    BufferDataAppends(g, d);
    BufferDataShape(g, d);
    SizeSame(g.blocks, BufferData(g, d).blocks);
    SuffixGrows(History(g), d, hist, q, q + Min(Size(g.blocks) - q, |d|));
  }

  lemma SuffixGrows(h: seq<Byte>, d: seq<Byte>, hist: seq<Byte>, q: nat, q': nat)
    requires q <= |h| && q <= |hist| && |d| <= |h|
    requires h[|h| - q..] == hist[|hist| - q..]
    requires q' <= q + |d| && q' <= |h|
    ensures q' <= |hist + d|
    ensures (h + d)[|d|..][|h| - q'..] == (hist + d)[|hist + d| - q'..]
  {
    var a, b := (h + d)[|d|..][|h| - q'..], (hist + d)[|hist + d| - q'..];
    forall i | 0 <= i < q'
      ensures a[i] == b[i]
    {
      var j := |h| + |d| - q' + i;
      assert a[i] == (h + d)[j];
      var k := |hist| + |d| - q' + i;
      assert b[i] == (hist + d)[k];
      if j < |h| {
        assert h[j] == h[|h| - q..][j - (|h| - q)] == hist[|hist| - q..][k - (|hist| - q)] == hist[k];
      }
    }
  }

  lemma RtSessionKeeps(s: Kpb, avail: seq<Byte>, sinkFree: nat)
    requires s.c.state != Run && SessionInv(s)
    ensures Inv(RtStep(s, avail, sinkFree))
  {
    hide Shape, Flat, Size, History, Latest, Behind, BufferData, Labelled, Walk, SameSizes, SameReads;
    if s.c.state == HostCopy {
      var n := Min(|avail|, sinkFree);
      var t := RtStep(s, avail, sinkFree);
      assert s.host == s.host + Latest(s.ring, 0) == Last(s.hist, s.c.req) + s.fed;
      assert t.host + Latest(t.ring, 0) == Last(t.hist, t.c.req) + t.fed;
    } else {
      var d := avail[..Min(|avail|, s.c.free)];
      BufferDataShape(s.ring, d);
      SizeSame(s.ring.blocks, BufferData(s.ring, d).blocks);
      BufferKeepsPending(s.ring, d, ReadHb(s), ReadOff(s), Pending(s));
      assert s.host + (Latest(s.ring, Pending(s)) + d) == (Last(s.hist, s.c.req) + s.fed) + d;
      assert (Last(s.hist, s.c.req) + s.fed) + d == Last(s.hist, s.c.req) + (s.fed + d);
    }
  }

  // Changing read offsets changes neither the content nor the write position
  lemma SetReadKeeps(g: Ring, i: nat, r: nat, p: nat)
    requires Shape(g) && i < |g.blocks| && p <= Size(g.blocks)
    ensures Shape(SetRead(g, i, r))
    ensures Size(SetRead(g, i, r).blocks) == Size(g.blocks)
    ensures History(SetRead(g, i, r)) == History(g)
    ensures Latest(SetRead(g, i, r), p) == Latest(g, p)
    ensures forall hb: nat, o: nat :: Behind(g, hb, o, p) ==> Behind(SetRead(g, i, r), hb, o, p)
  {
    hide Behind, Flat;
    var g' := SetRead(g, i, r);
    FlatSame(g.blocks, g'.blocks);
    FlatSame(g.blocks[..g.cur], g'.blocks[..g.cur]);
    forall hb: nat, o: nat | Behind(g, hb, o, p)
      ensures Behind(g', hb, o, p)
    {
      SetReadBehind(g, i, r, p, hb, o);
    }
  }

  lemma SetReadBehind(g: Ring, i: nat, r: nat, p: nat, hb: nat, o: nat)
    requires Shape(g) && i < |g.blocks| && Behind(g, hb, o, p)
    ensures Behind(SetRead(g, i, r), hb, o, p)
  {
    hide Flat;
    var g' := SetRead(g, i, r);
    FlatSame(g.blocks, g'.blocks);
    FlatSame(g.blocks[..g.cur], g'.blocks[..g.cur]);
    FlatSame(g.blocks[..hb], g'.blocks[..hb]);
  }

  /** The read point an accepted request starts from, and what lies after it. */
  lemma BeginWalks(s: Kpb, req: nat)
    requires RunInv(s) && req <= s.c.buffered
    ensures
      var rp := Walk(s.ring, req, s.ring.cur, 0);
      && 0 <= rp.r && Behind(s.ring, rp.hb, rp.r, req)
      && Latest(s.ring, req) == Last(s.hist, req)
  {
    hide Flat, History, Latest, Labelled, Walk, Behind, Found;
    WalkFindsStart(s.ring, req, |s.hist|);
    FoundIsBehind(s.ring, req, Walk(s.ring, req, s.ring.cur, 0));
    LatestDrop(s.ring, s.c.buffered, s.c.buffered - req);
    assert Last(s.hist, s.c.buffered)[s.c.buffered - req..] == Last(s.hist, req);
  }

  lemma FoundIsBehind(g: Ring, req: nat, rp: ReadPoint)
    requires Shape(g) && req <= Size(g.blocks) && Found(g, req, rp)
    ensures 0 <= rp.r && Behind(g, rp.hb, rp.r, req)
  {
  }

  lemma BeginKeeps(s: Kpb, req: nat, admitted: bool)
    requires s.c.state == Run && RunInv(s)
    requires req <= s.c.buffered ==> WalkInRing(s, req)
    ensures Inv(BeginStep(s, req, admitted))
  {
    hide Flat, History, Latest, Labelled, Walk, Behind;
    if admitted && req <= s.c.buffered {
      BeginWalks(s, req);
      var rp := Walk(s.ring, req, s.ring.cur, 0);
      SetReadKeeps(s.ring, rp.hb, rp.r, req);
      assert [] + Last(s.hist, req) == Last(s.hist, req) + [];
    }
  }

  lemma DrainCopyKeeps(s: Kpb, sinkFree: nat)
    requires SessionInv(s) && s.c.task == LoopTop
    ensures Inv(DrainCopyStep(s, sinkFree))
  {
    hide Shape, Flat, Size, History, Latest, Behind;
    var b, p := s.ring.blocks[s.hb], Pending(s);
    BehindBounds(s.ring, s.hb, b.r, p);
    var (n, move) := DrainSize(|b.data| - b.r, sinkFree, s.c.drainReq);
    ReadForward(s.ring, s.hb, b.r, p, n);
    ReadAdvance(s.ring, s.hb, b.r, p, n);
    SetReadKeeps(s.ring, s.hb, b.r + n, p - n);
    LatestDrop(s.ring, p, n);
    var q := Latest(s.ring, p);
    assert s.host + q[..n] + q[n..] == s.host + q;
  }

  lemma DrainReleaseKeeps(s: Kpb)
    requires SessionInv(s) && s.c.task.Copied?
    ensures Inv(DrainReleaseStep(s))
    ensures DrainReleaseStep(s).c.free == s.c.free + s.c.task.n
  {
    hide Shape, Flat, Size, History, Latest, Behind, BufferData, Labelled, Walk, SameSizes, SameReads;
    if s.c.task.move {
      SetReadKeeps(s.ring, s.hb, 0, Pending(s));
    }
  }

  lemma DrainReloadKeeps(s: Kpb)
    requires SessionInv(s) && s.c.task == Released
    ensures Inv(DrainReloadStep(s))
  {
    hide Shape, Flat, Size, History, Latest, Behind, BufferData, Labelled, Walk, SameSizes, SameReads;
  }

  lemma StateBounds(s: Kpb)
    requires Sane(s)
    ensures Shape(s.ring) && s.c.buffered <= s.c.size
    ensures s.c.state != Run ==> s.hb < |s.ring.blocks| && s.c.free <= s.c.size
    ensures s.c.state != Run ==> s.ring.blocks[s.hb].r <= |s.ring.blocks[s.hb].data|
    ensures s.c.state == Run ==> forall i :: 0 <= i < |s.ring.blocks| ==> s.ring.blocks[i].r == 0
  {
    hide Shape, Flat;
  }

  lemma InvSane(s: Kpb)
    requires Inv(s)
    ensures Sane(s)
  {
    hide Shape, Flat, Latest, Labelled, Size;
    if s.c.state == Run { assert Settled(s) == s; } else { BehindBounds(s.ring, ReadHb(s), ReadOff(s), Pending(s)); }
  }

  lemma WalkReady(s: Kpb, req: nat)
    requires Sane(s) && s.c.state == Run && req <= s.c.buffered
    ensures Shape(s.ring) && WalkInRing(s, req)
  {
    BeginWalks(Settled(s), req);
  }

  lemma TaskStartKeeps(s: Kpb)
    requires Inv(s)
    ensures Inv(TaskStartStep(s))
  {
    hide Shape, Flat, Size, History, Latest, Behind, Labelled;
  }

  function Step(s: Kpb, e: Event): Kpb
    requires Sane(s)
  {
    StateBounds(s);
    match e
    case RtCopy(avail, sinkFree) => RtStep(s, avail, sinkFree)
    case BeginDraining(req, admitted) =>
      if s.c.state == Run && req <= s.c.buffered then
        WalkReady(s, req);
        BeginStep(s, req, admitted)
      else BeginStep(s, req, admitted)
    case TaskStart => TaskStartStep(s)
    case DrainCopy(sinkFree) => if s.c.state == Run then s else DrainCopyStep(s, sinkFree)
    case DrainRelease => if s.c.state == Run then s else DrainReleaseStep(s)
    case DrainReload => if s.c.state == Run then s else DrainReloadStep(s)
  }

  lemma StepKeeps(s: Kpb, e: Event)
    requires Inv(s)
    ensures Sane(s) && Inv(Step(s, e))
  {
    hide Shape, RunInv, SessionInv, Reading, RtStep, TaskStartStep, Walk;
    InvSane(s);
    match e
    case RtCopy(avail, sinkFree) =>
      if s.c.state == Run { RtRunKeeps(s, avail, sinkFree); } else { RtSessionKeeps(s, avail, sinkFree); }
    case BeginDraining(req, admitted) =>
      if s.c.state == Run {
        if req <= s.c.buffered { WalkReady(s, req); }
        BeginKeeps(s, req, admitted);
      }
    case TaskStart => TaskStartKeeps(s);
    case DrainCopy(sinkFree) =>
      if s.c.state != Run && s.c.task == LoopTop { DrainCopyKeeps(s, sinkFree); }
    case DrainRelease =>
      if s.c.state != Run && s.c.task.Copied? { DrainReleaseKeeps(s); }
    case DrainReload =>
      if s.c.state != Run && s.c.task == Released { DrainReloadKeeps(s); }
  }

  // ---------------------------------------------------------------- every step can be taken

  lemma RtSane(s: Kpb, avail: seq<Byte>, sinkFree: nat)
    requires Sane(s)
    ensures Shape(s.ring) && s.c.buffered <= s.c.size && Sane(RtStep(s, avail, sinkFree))
  {
    hide Shape, Flat, Size, History, Latest, BufferData, Labelled, SameSizes, SameReads;
    StateBounds(s);
    if s.c.state == Run {
      RtRunKeeps(Settled(s), avail, sinkFree);
      assert Settled(RtStep(s, avail, sinkFree)) == RtStep(Settled(s), avail, sinkFree);
    } else if s.c.state != HostCopy {
      BufferedReading(s, avail[..Min(|avail|, s.c.free)]);
    }
  }

  lemma BufferedReading(s: Kpb, d: seq<Byte>)
    requires Reading(s) && s.c.state != HostCopy && |d| <= s.c.free
    ensures Reading(s.(ring := BufferData(s.ring, d), fed := s.fed + d,
                       c := s.c.(sinceDrain := s.c.sinceDrain + |d|, free := s.c.free - |d|)))
  {
    hide Shape, Flat, Size, BufferData;
    BufferDataShape(s.ring, d);
    SizeSame(s.ring.blocks, BufferData(s.ring, d).blocks);
  }

  lemma BeginSane(s: Kpb, req: nat, admitted: bool)
    requires Sane(s) && s.c.state == Run && Shape(s.ring)
    requires req <= s.c.buffered ==> WalkInRing(s, req)
    ensures Sane(BeginStep(s, req, admitted))
  {
    hide Flat, History, Latest, Labelled, Walk, Behind;
    if admitted && req <= s.c.buffered {
      BeginWalks(Settled(s), req);
      var rp := Walk(s.ring, req, s.ring.cur, 0);
      BehindBounds(s.ring, rp.hb, rp.r, req);
      SetReadKeeps(s.ring, rp.hb, rp.r, req);
    }
  }

  lemma DrainCopySane(s: Kpb, sinkFree: nat)
    requires Reading(s) && s.c.task == LoopTop
    ensures Reading(DrainCopyStep(s, sinkFree)) && DrainCopyStep(s, sinkFree).c.drainReq <= s.c.drainReq
    ensures sinkFree > 0 ==> DrainCopyStep(s, sinkFree).c.drainReq < s.c.drainReq
  {
    hide Shape, Flat, Size, Latest, Behind, History;
    var b := s.ring.blocks[s.hb];
    var (n, move) := DrainSize(|b.data| - b.r, sinkFree, s.c.drainReq);
    SetReadKeeps(s.ring, s.hb, b.r + n, 0);
  }

  lemma DrainReleaseSane(s: Kpb)
    requires Reading(s) && s.c.task.Copied?
    ensures Reading(DrainReleaseStep(s))
  {
    hide Flat, Size, Latest, Behind, History;
    if s.c.task.move { SetReadKeeps(s.ring, s.hb, 0, 0); }
  }

  lemma TaskSane(s: Kpb)
    requires Sane(s)
    ensures Sane(TaskStartStep(s)) && (s.c.state != Run ==> Sane(DrainReloadStep(s)))
  {
    hide Shape, Flat, Size, Latest, Labelled;
  }

  /** Every step leads to a state in which every step can be taken. */
  lemma StepSane(s: Kpb, e: Event)
    requires Sane(s)
    ensures Sane(Step(s, e))
  {
    hide Shape, RunInv, Reading, RtStep, TaskStartStep, Walk, DrainCopyStep, DrainReleaseStep, DrainReloadStep, BeginStep;
    StateBounds(s);
    match e
    case RtCopy(avail, sinkFree) => RtSane(s, avail, sinkFree);
    case BeginDraining(req, admitted) => StepBeginSane(s, req, admitted);
    case TaskStart => TaskSane(s);
    case DrainCopy(sinkFree) => if s.c.state != Run { StepCopySane(s, sinkFree); }
    case DrainRelease => if s.c.state != Run { StepReleaseSane(s); }
    case DrainReload => TaskSane(s);
  }

  lemma StepBoth(s: Kpb, e: Event)
    requires Sane(s)
    ensures Sane(Step(s, e)) && (Inv(s) ==> Inv(Step(s, e)))
  {
    hide Sane, Inv, Step;
    StepSane(s, e);
    if Inv(s) { StepKeeps(s, e); }
  }

  lemma StepBeginSane(s: Kpb, req: nat, admitted: bool)
    requires Sane(s)
    ensures Sane(Step(s, BeginDraining(req, admitted)))
  {
    hide Shape, RunInv, Reading, Walk, WalkInRing;
    StateBounds(s);
    if s.c.state == Run {
      if req <= s.c.buffered { WalkReady(s, req); }
      BeginSane(s, req, admitted);
    }
  }

  lemma StepCopySane(s: Kpb, sinkFree: nat)
    requires Reading(s) && s.c.state != Run
    ensures Sane(DrainCopyStep(s, sinkFree))
  {
    hide Shape, RunInv, Reading, SetRead, DrainSize;
    StateBounds(s);
    if s.c.task == LoopTop { DrainCopySane(s, sinkFree); }
  }

  lemma StepReleaseSane(s: Kpb)
    requires Reading(s) && s.c.state != Run
    ensures Sane(DrainReleaseStep(s))
  {
    hide Shape, RunInv, Reading, SetRead;
    StateBounds(s);
    if s.c.task.Copied? { DrainReleaseSane(s); }
  }

  // ---------------------------------------------------------------- runs

  function Exec(s: Kpb, es: seq<Event>): Kpb
    requires Sane(s)
    decreases |es|
  {
    if es == [] then s else
      StepSane(s, es[0]);
      Exec(Step(s, es[0]), es[1..])
  }

  lemma {:induction false} ExecKeeps(s: Kpb, es: seq<Event>)
    requires Inv(s)
    ensures Sane(s) && Inv(Exec(s, es))
    decreases |es|
  {
    hide Inv, Sane, Step;
    InvSane(s);
    if es != [] {
      StepKeeps(s, es[0]);
      ExecKeeps(Step(s, es[0]), es[1..]);
    }
  }

  /** The state kpb_prepare leaves: blocks reset, full credit. */
  ghost predicate Prepared(s: Kpb) {
    && Backed(s.ring.blocks) && s.ring.cur == 0 && s.c.size == Size(s.ring.blocks)
    && (forall i :: 0 <= i < |s.ring.blocks| ==>
          s.ring.blocks[i].w == 0 && s.ring.blocks[i].r == 0 && s.ring.blocks[i].state == BufferFree)
    && s.c.buffered == 0 && s.c.free == s.c.size
    && s.c.state == Run && s.c.task == Idle && s.c.drainReq == 0 && s.c.sinceDrain == 0
    && s.hist == [] && s.fed == [] && s.host == [] && s.sel == []
  }

  lemma PreparedInv(s: Kpb)
    requires Prepared(s)
    ensures Inv(s)
  {
    assert s.ring.blocks[..0] == [];
    assert Latest(s.ring, 0) == [] == Last(s.hist, 0);
  }

  // The component right after its blocks bs were reset
  function Fresh(bs: seq<Block>, size: nat): Kpb {
    Kpb(Ring(bs, 0), 0, Control(size, 0, size, Run, Idle, 0, 0, 0), [], [], [], [])
  }

  lemma FreshPrepared(was: seq<Block>, bs: seq<Block>, size: nat)
    requires Backed(was) && size == Size(was) && |bs| == |was|
    requires forall i :: 0 <= i < |bs| ==> bs[i] == Block(seq(|was[i].data|, _ => 0), 0, 0, BufferFree)
    ensures Prepared(Fresh(bs, size)) && Inv(Fresh(bs, size))
  {
    hide Flat;
    SizeSame(was, bs);
    PreparedInv(Fresh(bs, size));
  }

  /** Main theorem, over every interleaving from a prepared buffer.  The credit counts
      exactly the space without pending bytes.  What the host received is a prefix
      of the last `req` history bytes followed by everything fed since, the rest of
      it is still pending in order, and nothing is pending once the state is HostCopy. */
  lemma EveryInterleavingDelivers(s: Kpb, es: seq<Event>)
    requires Prepared(s)
    ensures Sane(s)
    ensures
      var t := Exec(s, es);
      && Shape(t.ring) && t.c.size == Size(t.ring.blocks)
      && (t.c.state == Run ==> t.host == [])
      && (t.c.state != Run ==>
            && t.c.req <= |t.hist|
            && t.c.free == t.c.size - Pending(t) - Inflight(t)
            && Pending(t) <= t.c.size
            && t.host + Latest(t.ring, Pending(t)) == Last(t.hist, t.c.req) + t.fed)
      && (t.c.state == HostCopy ==> t.host == Last(t.hist, t.c.req) + t.fed)
  {
    PreparedInv(s);
    ExecKeeps(s, es);
    var t := Exec(s, es);
    if t.c.state == HostCopy {
      assert t.host + Latest(t.ring, 0) == t.host;
    }
  }
}
