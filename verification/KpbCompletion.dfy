/**
 How sessions of the key phrase buffer end: when the draining task completes, how many
 passes it takes, and what a count left over from an earlier session does to the delivery.
 */
module KpbCompletion {
  import opened Basics
  import opened KpbRing
  import opened KpbSession

  // ---------------------------------------------------------------- runs

  lemma {:induction false} ExecSane(s: Kpb, es: seq<Event>)
    requires Sane(s)
    ensures Sane(Exec(s, es))
    decreases |es|
  {
    hide Sane, Step;
    if es != [] {
      StepSane(s, es[0]);
      ExecSane(Step(s, es[0]), es[1..]);
    }
  }

  lemma {:induction false} ExecSplit(s: Kpb, es: seq<Event>, fs: seq<Event>)
    requires Sane(s)
    ensures Sane(Exec(s, es))
    ensures Exec(s, es + fs) == Exec(Exec(s, es), fs)
    decreases |es|
  {
    hide Sane, Step;
    ExecSane(s, es);
    if es == [] {
      assert es + fs == fs;
    } else {
      StepSane(s, es[0]);
      ExecSplit(Step(s, es[0]), es[1..], fs);
      assert (es + fs)[1..] == es[1..] + fs;
    }
  }

  lemma ExecOne(s: Kpb, e: Event)
    requires Sane(s)
    ensures Sane(Step(s, e)) && Exec(s, [e]) == Step(s, e)
  {
    hide Sane, Step;
    StepSane(s, e);
    assert [e][1..] == [];
  }

  lemma ExecTwo(s: Kpb, e: Event, f: Event)
    requires Sane(s)
    ensures Sane(Step(s, e)) && Sane(Step(Step(s, e), f)) && Exec(s, [e, f]) == Step(Step(s, e), f)
  {
    hide Sane, Step;
    ExecOne(s, e);
    ExecOne(Step(s, e), f);
    assert [e, f][1..] == [f];
  }

  // ---------------------------------------------------------------- a request of zero

  /** A request of zero is accepted but never completes: the draining task ends at once in
      Draining, and no later event hands the host a single byte. */
  lemma {:induction false} ZeroRequestStalls(s: Kpb, es: seq<Event>)
    requires Sane(s) && s.c.state != Run && s.c.req == 0
    ensures Exec(s, es).c.state != HostCopy && Exec(s, es).c.state != Run
    ensures Exec(s, es).host == []
    decreases |es|
  {
    hide Sane, Step;
    ZeroNow(s);
    if es != [] {
      StepSane(s, es[0]);
      SessionStep(s, es[0]);
      ZeroRequestStalls(Step(s, es[0]), es[1..]);
    }
  }

  lemma ZeroNow(s: Kpb)
    requires Sane(s) && s.c.state != Run && s.c.req == 0
    ensures s.c.state != HostCopy && s.host == []
  {
    hide Shape, Flat, Size;
  }

  // A session goes on, with its request
  lemma SessionStep(s: Kpb, e: Event)
    requires Sane(s) && s.c.state != Run
    ensures Step(s, e).c.state != Run && Step(s, e).c.req == s.c.req && Step(s, e).hist == s.hist
  {
    hide Shape, Flat, Size, BufferData, Walk;
  }

  // ---------------------------------------------------------------- the task's passes

  // A pass that can hand something over
  predicate IsPass(s: Kpb, e: Event) {
    s.c.state != Run && s.c.task == LoopTop && e.DrainCopy? && e.sinkFree > 0
  }

  // The passes of a run
  function Passes(s: Kpb, es: seq<Event>): nat
    requires Sane(s)
    decreases |es|
  {
    if es == [] then 0 else
      StepSane(s, es[0]);
      (if IsPass(s, es[0]) then 1 else 0) + Passes(Step(s, es[0]), es[1..])
  }

  lemma StepPasses(s: Kpb, e: Event)
    requires Sane(s) && s.c.state != Run
    ensures var t := Step(s, e);
      (if IsPass(s, e) then 1 else 0) + Pending(t) + |s.fed| <= Pending(s) + |t.fed|
  {
    hide Shape, Flat, Size, BufferData, Walk, SetRead;
    if e.DrainCopy? && s.c.task == LoopTop { DrainCopySane(s, e.sinkFree); }
  }

  /** However writer and task interleave, there are no more passes than bytes were pending
      plus bytes were fed since, less what is still pending. */
  lemma {:induction false} PassesBounded(s: Kpb, es: seq<Event>)
    requires Sane(s) && s.c.state != Run
    ensures var t := Exec(s, es);
      t.c.state != Run && t.c.req == s.c.req && Passes(s, es) + Pending(t) + |s.fed| <= Pending(s) + |t.fed|
    decreases |es|
  {
    hide Sane, Step, IsPass, Pending;
    if es != [] {
      StepSane(s, es[0]);
      StepPasses(s, es[0]);
      SessionStep(s, es[0]);
      PassesBounded(Step(s, es[0]), es[1..]);
    }
  }

  // What the last two steps of a pass do to the counters
  lemma ReleaseCounts(s: Kpb)
    requires Sane(s) && s.c.state != Run
    ensures var t := Step(s, DrainRelease);
      && t.c.task == (if s.c.task.Copied? then Released else s.c.task)
      && t.c.state == s.c.state && t.c.drainReq == s.c.drainReq && t.c.sinceDrain == s.c.sinceDrain && t.c.req == s.c.req
  {
    hide RunInv, Reading, RtStep, BeginStep, DrainCopyStep, DrainReloadStep, TaskStartStep;
    InvAtStep(s);
  }

  lemma ReloadsWhen(s: Kpb)
    requires Sane(s) && s.c.state != Run && s.c.task == Released
    ensures var t := Step(s, DrainReload);
      && t.c.req == s.c.req
      && (if Pending(s) == 0 then t.c.state == HostCopy
          else t.c.state == s.c.state && t.c.task == LoopTop && Pending(t) == Pending(s))
  {
    hide Sane, RtStep, BeginStep, DrainCopyStep, DrainReleaseStep, TaskStartStep;
  }

  lemma InvAtStep(s: Kpb)
    requires Sane(s)
    ensures Shape(s.ring) && (s.c.task.Copied? ==> s.hb < |s.ring.blocks|)
  {
    hide Shape, Flat, Size, Labelled, Latest;
  }

  // With nothing pending the task is about to finish
  lemma NothingPending(s: Kpb)
    requires Sane(s) && s.c.state != Run && s.c.req > 0 && Pending(s) == 0
    ensures Exec(s, [DrainRelease, DrainReload]).c.state == HostCopy
  {
    hide Shape, Flat, Size, Step, OnlyReading;
    ExecTwo(s, DrainRelease, DrainReload);
    StepSane(s, DrainRelease);
    ReleaseCounts(s);
    var t := Step(s, DrainRelease);
    if t.c.task == Released {
      ReloadsWhen(t);
    } else {
      FinishedStays(t);
    }
  }

  lemma FinishedStays(s: Kpb)
    requires Sane(s) && s.c.task != Released
    ensures Step(s, DrainReload) == s
  {
    hide Sane, RtStep, BeginStep, DrainCopyStep, DrainReleaseStep, TaskStartStep;
  }

  /** So a session with a positive request completes in every interleaving: after as many
      passes as bytes are pending and are fed meanwhile, the task's next two steps switch
      to HOST_COPY. */
  lemma BoundedCompletion(s: Kpb, es: seq<Event>)
    requires Sane(s) && s.c.state != Run && s.c.req > 0
    ensures var t := Exec(s, es);
      && Passes(s, es) + |s.fed| <= Pending(s) + |t.fed|
      && (Passes(s, es) + |s.fed| == Pending(s) + |t.fed| ==>
            Exec(s, es + [DrainRelease, DrainReload]).c.state == HostCopy)
  {
    hide Sane, Step;
    PassesBounded(s, es);
    ExecSplit(s, es, [DrainRelease, DrainReload]);
    if Pending(Exec(s, es)) == 0 { NothingPending(Exec(s, es)); }
  }

  // ---------------------------------------------------------------- completion

  // One pass with a roomy sink and a quiet source
  lemma PassProgress(s: Kpb) returns (es: seq<Event>)
    requires Sane(s) && s.c.task == LoopTop && s.c.state != Run
    ensures var t := Exec(s, es);
      && Sane(t) && t.c.req == s.c.req && t.c.state != Run
      && (t.c.state == HostCopy || (t.c.task == LoopTop && Pending(t) < Pending(s)))
  {
    hide Sane, Step;
    es := [DrainCopy(1), DrainRelease, DrainReload];
    ExecOne(s, DrainCopy(1));
    var t := Step(s, DrainCopy(1));
    ExecTwo(t, DrainRelease, DrainReload);
    ExecSplit(s, [DrainCopy(1)], [DrainRelease, DrainReload]);
    assert es == [DrainCopy(1)] + [DrainRelease, DrainReload];
    StepPasses(s, DrainCopy(1));
    CopyCounts(s);
    ReloadCounts(t);
  }

  lemma CopyCounts(s: Kpb)
    requires Sane(s) && s.c.task == LoopTop && s.c.state != Run
    ensures var t := Step(s, DrainCopy(1)); t.c.task.Copied? && t.c.state == Draining && t.c.req == s.c.req && t.fed == s.fed
  {
    hide Shape, Flat, Size, SetRead;
  }

  lemma ReloadCounts(s: Kpb)
    requires Sane(s) && s.c.task.Copied? && s.c.state != Run && Sane(Step(s, DrainRelease))
    ensures var t := Step(Step(s, DrainRelease), DrainReload);
      && t.c.req == s.c.req && t.c.state != Run
      && (t.c.state == HostCopy || (t.c.task == LoopTop && Pending(t) == Pending(s)))
  {
    hide Sane, Step;
    ReleaseCounts(s);
    ReloadsWhen(Step(s, DrainRelease));
  }

  lemma {:induction false} LoopCompletes(s: Kpb) returns (es: seq<Event>)
    requires Sane(s) && s.c.task == LoopTop && s.c.state != Run
    ensures Exec(s, es).c.state == HostCopy
    decreases Pending(s)
  {
    hide Sane, Step;
    var first := PassProgress(s);
    var t := Exec(s, first);
    var rest := [];
    if t.c.state != HostCopy {
      rest := LoopCompletes(t);
    }
    ExecSplit(s, first, rest);
    es := first + rest;
  }

  // At most two task steps lead to the loop's top, or to completion
  lemma ReachLoop(s: Kpb) returns (es: seq<Event>)
    requires Sane(s) && s.c.state != Run && s.c.req > 0
    ensures var t := Exec(s, es);
      Sane(t) && t.c.state != Run && (t.c.state == HostCopy || t.c.task == LoopTop)
  {
    hide Shape, Flat, Size, SetRead;
    match s.c.task {
      case LoopTop | Finished =>
        es := [];
      case Idle =>
        es := [TaskStart];
        ExecOne(s, TaskStart);
      case Released =>
        es := [DrainReload];
        ExecOne(s, DrainReload);
      case Copied(_, _) =>
        es := [DrainRelease, DrainReload];
        ExecTwo(s, DrainRelease, DrainReload);
    }
  }

  /** Every session with a positive request can still complete, from wherever the two
      parties stand. */
  lemma PositiveRequestCompletes(s: Kpb) returns (es: seq<Event>)
    requires Sane(s) && s.c.state != Run && s.c.req > 0
    ensures Exec(s, es).c.state == HostCopy
  {
    hide Sane, Step;
    var first := ReachLoop(s);
    var rest := [];
    if Exec(s, first).c.state != HostCopy {
      rest := LoopCompletes(Exec(s, first));
    }
    ExecSplit(s, first, rest);
    es := first + rest;
  }

  // Before a session: one byte, and a request for it
  lemma SomeRunCompletes(s: Kpb) returns (es: seq<Event>)
    requires Sane(s) && s.c.state == Run
    ensures Exec(s, es).c.state == HostCopy
  {
    hide Sane, Step;
    var feed, ask := RtCopy([0], 1), BeginDraining(1, true);
    ExecTwo(s, feed, ask);
    Asked(s);
    var rest := PositiveRequestCompletes(Exec(s, [feed, ask]));
    ExecSplit(s, [feed, ask], rest);
    es := [feed, ask] + rest;
  }

  lemma Asked(s: Kpb)
    requires Sane(s) && s.c.state == Run && Sane(Step(s, RtCopy([0], 1)))
    ensures var t := Step(Step(s, RtCopy([0], 1)), BeginDraining(1, true)); t.c.state == InitDraining && t.c.req == 1
  {
    hide Flat, Latest, Labelled, BufferData, Walk, SetRead, WalkInRing;
    RingRoom(s.ring);
  }

  lemma RingRoom(g: Ring)
    requires Shape(g)
    ensures Size(g.blocks) > 0
  {
  }

  // ---------------------------------------------------------------- a count left over

  // The state with k bytes of buffered_while_draining from before kpb_prepare
  function Stale(s: Kpb, k: nat): Kpb {
    s.(c := s.c.(sinceDrain := s.c.sinceDrain + k))
  }

  lemma StaleSane(s: Kpb, k: nat)
    requires Prepared(s)
    ensures Sane(Stale(s, k)) && Over(Stale(s, k), k)
  {
    hide Shape, Labelled, Latest, Flat, Size;
    PreparedInv(s);
    assert Settled(Stale(s, k)) == s;
  }

  // The host has, or is to get, k bytes more than were requested and fed
  predicate Over(s: Kpb, k: nat) {
    if s.c.state == Run then s.c.sinceDrain == k else |s.host| + Pending(s) == s.c.req + |s.fed| + k
  }

  lemma StepOver(s: Kpb, e: Event, k: nat)
    requires Sane(s) && Over(s, k)
    ensures Over(Step(s, e), k)
  {
    hide Shape, Flat, Size, BufferData, Walk, SetRead, Labelled, Latest, WalkInRing;
  }

  lemma {:induction false} ExecOver(s: Kpb, es: seq<Event>, k: nat)
    requires Sane(s) && Over(s, k)
    ensures Sane(Exec(s, es)) && Over(Exec(s, es), k)
    decreases |es|
  {
    hide Sane, Step, Over;
    if es != [] {
      StepSane(s, es[0]);
      StepOver(s, es[0], k);
      ExecOver(Step(s, es[0]), es[1..], k);
    }
  }

  lemma HostCopyDone(s: Kpb)
    requires Sane(s) && s.c.state == HostCopy
    ensures Pending(s) == 0 && s.c.req <= |s.hist|
  {
    hide Shape, Flat, Size;
  }

  /** In every interleaving from a prepared buffer with k bytes left over, what the host got
      and what is pending is exactly k bytes more than were requested and fed; once the state
      is HOST_COPY the host has got them. */
  lemma LeftoverDelivered(s: Kpb, k: nat, es: seq<Event>)
    requires Prepared(s)
    ensures Sane(Stale(s, k))
    ensures var t := Exec(Stale(s, k), es);
      && (t.c.state != Run ==> |t.host| + Pending(t) == t.c.req + |t.fed| + k)
      && (t.c.state == HostCopy ==> t.c.req <= |t.hist| && |t.host| == |Last(t.hist, t.c.req) + t.fed| + k)
  {
    hide Sane, Prepared;
    StaleSane(s, k);
    ExecOver(Stale(s, k), es, k);
    var t := Exec(Stale(s, k), es);
    if t.c.state == HostCopy { HostCopyDone(t); }
  }

  // The requested history and everything fed since, and nothing else
  predicate Delivered(t: Kpb) {
    t.c.state == HostCopy ==> t.c.req <= |t.hist| && t.host == Last(t.hist, t.c.req) + t.fed
  }

  // Every run that completes delivers that
  ghost predicate Delivers(s: Kpb)
    requires Sane(s)
  {
    forall es: seq<Event> :: Delivered(Exec(s, es))
  }

  /** A prepared buffer delivers if and only if nothing is left over. */
  lemma DeliversWhen(s: Kpb, k: nat)
    requires Prepared(s)
    ensures Sane(Stale(s, k)) && (Delivers(Stale(s, k)) <==> k == 0)
  {
    hide Sane, Exec;
    StaleSane(s, k);
    if k == 0 {
      assert Stale(s, 0) == s;
      forall es: seq<Event>
        ensures Delivered(Exec(s, es))
      {
        EveryInterleavingDelivers(s, es);
      }
    } else {
      var es := SomeRunCompletes(Stale(s, k));
      LeftoverDelivered(s, k, es);
      assert !Delivered(Exec(Stale(s, k), es));
    }
  }
}
