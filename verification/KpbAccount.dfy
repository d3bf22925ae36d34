/**
 What a session delivers, in terms of what it was offered: a plain account of a run's
 events, and the proof that the component keeps to it.
 */
module KpbAccount {
  import opened Basics
  import opened KpbRing
  import opened KpbSession
  import opened KpbCompletion

  /** The bytes taken before and after a request was accepted, the request, and the bytes the
      selector was given. */
  datatype Account = Account(hist: seq<Byte>, fed: seq<Byte>, req: Option<nat>, sel: seq<Byte>)

  // How many bytes there is room for: in the sink, or while draining in the history buffer,
  // next to what is owed to the host and what it was just handed
  function Room(s: Kpb, size: nat, sinkFree: nat, offered: nat): int {
    match s.c.state
    case Run => if offered > size then 0 else sinkFree
    case HostCopy => sinkFree
    case InitDraining | Draining => size - (s.c.req + |s.fed| - |s.host|) - Inflight(s)
  }

  // As much of data as there is room for
  function Cut(data: seq<Byte>, room: int): seq<Byte> {
    if room < 0 then [] else if room < |data| then data[..room] else data
  }

  /** A request is accepted if it is the first one admitted for no more than was taken and
      the buffer can hold. */
  function Record(a: Account, e: Event, room: int, size: nat): Account {
    match e
    case RtCopy(avail, sinkFree) =>
      if a.req.None? then a.(hist := a.hist + Cut(avail, room), sel := a.sel + Cut(avail, sinkFree))
      else a.(fed := a.fed + Cut(avail, room))
    case BeginDraining(req, admitted) =>
      if a.req.None? && admitted && req <= |a.hist| && req <= size then a.(req := Some(req)) else a
    case _ => a
  }

  function RoomFor(s: Kpb, size: nat, e: Event): int {
    if e.RtCopy? then Room(s, size, e.sinkFree, |e.avail|) else 0
  }

  // The account of a run, in a history buffer of the given size
  ghost function Recorded(s: Kpb, a: Account, size: nat, es: seq<Event>): Account
    requires Sane(s)
    decreases |es|
  {
    if es == [] then a else
      StepSane(s, es[0]);
      Recorded(Step(s, es[0]), Record(a, es[0], RoomFor(s, size, es[0]), size), size, es[1..])
  }

  // The account agrees with the component
  predicate Agrees(s: Kpb, a: Account) {
    && s.hist == a.hist && s.fed == a.fed && s.sel == a.sel
    && (a.req.None? <==> s.c.state == Run) && (a.req.Some? ==> s.c.req == a.req.value)
  }

  lemma RoomIs(s: Kpb, sinkFree: nat, offered: nat)
    requires Inv(s) && (s.c.state == InitDraining || s.c.state == Draining)
    ensures Room(s, s.c.size, sinkFree, offered) == s.c.free
  {
    hide Shape, Flat, Size, RunInv, Behind, TaskInv, History;
    LatestLength(s.ring, Pending(s));
    assert |s.host + Latest(s.ring, Pending(s))| == |Last(s.hist, s.c.req) + s.fed|;
  }

  lemma LatestLength(g: Ring, p: nat)
    requires Shape(g) && p <= Size(g.blocks)
    ensures |Latest(g, p)| == p
  {
  }

  lemma RunCounts(s: Kpb)
    requires Inv(s) && s.c.state == Run
    ensures s.c.buffered == Min(s.c.size, |s.hist|) && s.fed == []
  {
    hide Shape, Flat, Size, Latest, Labelled;
  }

  lemma StepAgrees(s: Kpb, a: Account, e: Event)
    requires Inv(s) && Sane(s) && Agrees(s, a)
    ensures Agrees(Step(s, e), Record(a, e, RoomFor(s, s.c.size, e), s.c.size)) && Step(s, e).c.size == s.c.size
  {
    hide Inv, Shape, Flat, Size, BufferData, Walk, SetRead, Labelled, Latest, WalkInRing, RunInv, Reading, Room;
    match e
    case RtCopy(avail, sinkFree) => CopyAgrees(s, a, avail, sinkFree);
    case BeginDraining(req, admitted) => if s.c.state == Run { RunCounts(s); }
    case _ => if s.c.state != Run { SessionStep(s, e); }
  }

  lemma CopyAgrees(s: Kpb, a: Account, avail: seq<Byte>, sinkFree: nat)
    requires Inv(s) && Sane(s) && Agrees(s, a)
    ensures var t := Step(s, RtCopy(avail, sinkFree));
      Agrees(t, Record(a, RtCopy(avail, sinkFree), Room(s, s.c.size, sinkFree, |avail|), s.c.size)) && t.c.size == s.c.size
  {
    hide Inv, Shape, Flat, Size, BufferData, RunInv, Reading, Inflight;
    StateBounds(s);
    if s.c.state == InitDraining || s.c.state == Draining { RoomIs(s, sinkFree, |avail|); }
  }

  /** In every run the component has taken exactly what the account says, and serves the
      request it says. */
  lemma {:induction false} KeepsAccount(s: Kpb, a: Account, es: seq<Event>)
    requires Inv(s) && Agrees(s, a)
    ensures Sane(s) && Agrees(Exec(s, es), Recorded(s, a, s.c.size, es)) && Exec(s, es).c.size == s.c.size
    decreases |es|
  {
    hide Inv, Sane, Step, Agrees, Record, RoomFor;
    InvSane(s);
    if es != [] {
      StepKeeps(s, es[0]);
      StepAgrees(s, a, es[0]);
      KeepsAccount(Step(s, es[0]), Record(a, es[0], RoomFor(s, s.c.size, es[0]), s.c.size), es[1..]);
    }
  }

  const EMPTY := Account([], [], None, [])

  /** Main theorem, in terms of the events: from a prepared buffer, what the host received is
      a prefix of the last bytes taken before the accepted request, as many as it asked for,
      followed by everything taken since; and it is all of that once the state is HOST_COPY.
      Until the request the selector got what it had room for. */
  lemma DeliversRecorded(s: Kpb, es: seq<Event>)
    requires Prepared(s)
    ensures Sane(s)
    ensures var t, a := Exec(s, es), Recorded(s, EMPTY, s.c.size, es);
      && (t.c.state == Run <==> a.req.None?) && (a.req.None? ==> t.host == [])
      && (a.req.Some? ==> a.req.value <= |a.hist| && t.host <= Last(a.hist, a.req.value) + a.fed)
      && (t.c.state == HostCopy ==> t.host == Last(a.hist, a.req.value) + a.fed)
      && t.sel == a.sel
  {
    hide Prepared, Sane, Recorded;
    PreparedInv(s);
    PreparedAgrees(s);
    KeepsAccount(s, EMPTY, es);
    EveryInterleavingDelivers(s, es);
  }

  lemma PreparedAgrees(s: Kpb)
    requires Prepared(s)
    ensures Agrees(s, EMPTY)
  {
  }

  // ---------------------------------------------------------------- the selector

  /** The selector got what the history holds, unless an offer was larger than the buffer. */
  lemma {:induction false} SelectorHears(s: Kpb, a: Account, es: seq<Event>)
    requires Inv(s) && Agrees(s, a) && a.sel == a.hist
    requires forall i :: 0 <= i < |es| && es[i].RtCopy? ==> |es[i].avail| <= s.c.size
    ensures Sane(s) && Exec(s, es).sel == Recorded(s, a, s.c.size, es).sel == Exec(s, es).hist
    decreases |es|
  {
    hide Inv, Sane, Step;
    InvSane(s);
    if es != [] {
      StepKeeps(s, es[0]);
      StepAgrees(s, a, es[0]);
      SelectorHears(Step(s, es[0]), Record(a, es[0], RoomFor(s, s.c.size, es[0]), s.c.size), es[1..]);
    }
  }

  // ---------------------------------------------------------------- when all fits

  // All that was offered
  function Offered(es: seq<Event>): seq<Byte> {
    if es == [] then [] else (if es[0].RtCopy? then es[0].avail else []) + Offered(es[1..])
  }

  // Every copy finds room for all it is offered
  ghost predicate Fits(s: Kpb, size: nat, es: seq<Event>)
    requires Sane(s)
    decreases |es|
  {
    if es == [] then true else
      StepSane(s, es[0]);
      (es[0].RtCopy? ==> |es[0].avail| <= RoomFor(s, size, es[0])) && Fits(Step(s, es[0]), size, es[1..])
  }

  lemma {:induction false} AllRecorded(s: Kpb, a: Account, size: nat, es: seq<Event>)
    requires Sane(s) && Fits(s, size, es) && (a.req.None? ==> a.fed == [])
    ensures var b := Recorded(s, a, size, es); b.hist + b.fed == a.hist + a.fed + Offered(es)
    decreases |es|
  {
    hide Sane, Step, RoomFor;
    if es != [] {
      StepSane(s, es[0]);
      var b := Record(a, es[0], RoomFor(s, size, es[0]), size);
      AllRecorded(Step(s, es[0]), b, size, es[1..]);
      OneRecorded(a, es[0], RoomFor(s, size, es[0]), size);
      var first := if es[0].RtCopy? then es[0].avail else [];
      assert a.hist + a.fed + first + Offered(es[1..]) == a.hist + a.fed + (first + Offered(es[1..]));
    }
  }

  lemma OneRecorded(a: Account, e: Event, room: int, size: nat)
    requires (a.req.None? ==> a.fed == []) && (e.RtCopy? ==> |e.avail| <= room)
    ensures var b := Record(a, e, room, size);
      b.hist + b.fed == a.hist + a.fed + (if e.RtCopy? then e.avail else []) && (b.req.None? ==> b.fed == [])
  {
    if e.RtCopy? {
      assert Cut(e.avail, room) == e.avail;
      assert a.hist + a.fed + e.avail == a.hist + (a.fed + e.avail);
      if a.req.None? { assert a.hist + a.fed == a.hist && a.hist + e.avail + [] == a.hist + e.avail; }
    }
  }

  /** When there was room for all that was offered, a completed session has delivered the end
      of it: the requested bytes and everything offered since. */
  lemma DeliversOffered(s: Kpb, es: seq<Event>)
    requires Prepared(s) && Sane(s) && Fits(s, s.c.size, es) && Exec(s, es).c.state == HostCopy
    ensures var t, a := Exec(s, es), Recorded(s, EMPTY, s.c.size, es);
      && a.req.Some? && a.hist + a.fed == Offered(es)
      && a.req.value + |a.fed| <= |Offered(es)| && t.host == Last(Offered(es), a.req.value + |a.fed|)
  {
    hide Prepared, Sane, Recorded, Exec, Offered;
    DeliversRecorded(s, es);
    AllRecorded(s, EMPTY, s.c.size, es);
    var a := Recorded(s, EMPTY, s.c.size, es);
    assert EMPTY.hist + EMPTY.fed + Offered(es) == Offered(es);
    assert Last(a.hist + a.fed, a.req.value + |a.fed|) == Last(a.hist, a.req.value) + a.fed;
  }

  // ---------------------------------------------------------------- one pass

  /** One pass hands the host the oldest bytes it is owed: as many as the sink takes, the
      block still holds and the request still asks for. */
  lemma PassHandsOver(s: Kpb, sinkFree: nat)
    requires Inv(s) && s.c.state != Run && s.c.task == LoopTop
    ensures Sane(s) && s.hb < |s.ring.blocks| && Shape(s.ring) && Pending(s) <= Size(s.ring.blocks)
    ensures var b, t := s.ring.blocks[s.hb], Step(s, DrainCopy(sinkFree));
      && b.r <= |b.data|
      && var n := Min(Min(sinkFree, |b.data| - b.r), s.c.drainReq);
      && t.host == s.host + Latest(s.ring, Pending(s))[..n] && t.c.drainReq == s.c.drainReq - n && t.c.task == Copied(n, n == |b.data| - b.r)
  {
    hide Shape, Flat, Size, History, Latest, Labelled;
    InvSane(s);
    var b, p := s.ring.blocks[s.hb], Pending(s);
    BehindBounds(s.ring, s.hb, b.r, p);
    LatestLength(s.ring, p);
    ReadForward(s.ring, s.hb, b.r, p, Min(Min(sinkFree, |b.data| - b.r), s.c.drainReq));
  }
}
