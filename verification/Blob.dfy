/**
 Handover of configuration blobs: a host sends a blob in chunks, the component picks it
 up when it is complete.
 */
module Blob {
  import opened Basics
  import opened RingStream

  // uint32_t
  type word = x: int | 0 <= x < WORD
  const WORD := 0x1_0000_0000

  // data and data_new are the current and the new blob, ready and pos data_ready and data_pos
  datatype Handler = Handler(data: Option<seq<Cell>>, incoming: Option<seq<Cell>>, ready: bool, pos: word)

  // The fields of struct sof_ipc_ctrl_data: msg_index, the announced size, the chunk, elems_remaining
  datatype Message = Message(index: nat, size: word, chunk: seq<Cell>, remaining: nat)

  // Outside: the bytes would be written behind the new blob's memory
  datatype Result = Ok | Busy | NoMemory | Invalid | Assert | Outside

  // ---------------------------------------------------------------- the commands

  // new_data_size - data_pos, as memcpy_s gets it
  function Room(size: nat, pos: word): word {
    (size - pos) % WORD
  }

  /** comp_data_blob_set_cmd. idle: the component is in state READY; memory: what the
      allocator returns for a first chunk, with its old contents. */
  function SetCmd(b: Handler, m: Message, idle: bool, memory: Option<seq<Cell>>): (Handler, Result)
    requires memory.Some? ==> |memory.value| == m.size
  {
    if b.incoming.Some? && m.index == 0 then (b, Busy)
    else if m.index == 0 && m.size == 0 then (b, Ok)
    else if m.index == 0 && memory.None? then (b, NoMemory)
    else
      var c := if m.index == 0 then b.(incoming := memory, ready := false, pos := 0) else b;
      if c.incoming.None? then (c, NoMemory)
      else if |m.chunk| > Room(|c.incoming.value|, c.pos) then (c, Assert)
      else if !Fits(c.incoming.value, c.pos, m.chunk) then (c, Outside)
      else
        var d := c.(incoming := Some(Landed(c.incoming.value, c.pos, m.chunk)), pos := (c.pos + |m.chunk|) % WORD);
        if m.remaining > 0 then (d, Ok)
        else if idle || d.data.None? then (Handler(d.incoming, None, false, 0), Ok)
        else (d.(ready := true), Ok)
  }

  predicate Fits(buffer: seq<Cell>, pos: nat, part: seq<Cell>) {
    part == [] || pos + |part| <= |buffer|
  }

  function Landed(buffer: seq<Cell>, pos: nat, part: seq<Cell>): seq<Cell>
    requires Fits(buffer, pos, part)
  {
    if part == [] then buffer else Splice(buffer, pos, part)
  }

  /** comp_get_data_blob: a complete new blob becomes the current one. */
  function GetBlob(b: Handler): (Handler, Option<seq<Cell>>) {
    if b.incoming.Some? && b.ready then (Handler(b.incoming, None, false, 0), b.incoming) else (b, b.data)
  }

  /** comp_data_blob_get_cmd: n bytes of the current blob from data_pos on. beyond gives
      the memory behind the blob, as nothing stops a read there. */
  function GetCmd(b: Handler, index: nat, n: word, size: nat, beyond: nat -> Cell): (Handler, Result, seq<Cell>) {
    if b.data.None? then (b, Ok, [])
    else if n > size then (AfterRead(b, index, n, size), Invalid, [])
    else (AfterRead(b, index, n, size), Ok, Stretch(b.data.value, ReadFrom(b, index), n, beyond))
  }

  function ReadFrom(b: Handler, index: nat): word {
    if index == 0 then 0 else b.pos
  }

  function AfterRead(b: Handler, index: nat, n: word, size: nat): Handler {
    if b.data.None? then b
    else b.(pos := (ReadFrom(b, index) + if n > size then 0 else n) % WORD)
  }

  function Stretch(data: seq<Cell>, from: nat, n: nat, beyond: nat -> Cell): (r: seq<Cell>) {
    seq(n, i requires 0 <= i < n => if from + i < |data| then data[from + i] else beyond(from + i))
  }

  // ---------------------------------------------------------------- sending

  function Join(cs: seq<seq<Cell>>): seq<Cell> {
    if cs == [] then [] else Join(cs[..|cs| - 1]) + cs[|cs| - 1]
  }

  // The message that carries chunk k of a blob
  function MessageFor(cs: seq<seq<Cell>>, k: nat): Message
    requires k < |cs| && |Join(cs)| < WORD
  {
    Message(k, |Join(cs)|, cs[k], |cs| - 1 - k)
  }

  /** While a blob is sent: the next chunk arrives, the component asks for its blob, or
      the host reads a part of the current one. */
  datatype Event = Chunk(idle: bool) | Look | Read(index: nat, n: word, size: nat)

  // halt: the firmware has stopped, or has written outside the buffer
  datatype Session = Session(b: Handler, next: nat, seen: seq<Option<seq<Cell>>>, halt: Option<Result>)

  // A blob to be sent, and the memory that the allocator returns for it
  predicate Sendable(cs: seq<seq<Cell>>, memory: seq<Cell>) {
    |memory| == |Join(cs)| && 0 < |Join(cs)| < WORD
  }

  function Step(cs: seq<seq<Cell>>, memory: seq<Cell>, s: Session, e: Event): Session
    requires Sendable(cs, memory)
  {
    if s.halt.Some? then s
    else
      match e
      case Chunk(idle) =>
        if s.next < |cs| then
          var (b, r) := SetCmd(s.b, MessageFor(cs, s.next), idle, Some(memory));
          s.(b := b, next := s.next + 1, halt := if r == Assert || r == Outside then Some(r) else None)
        else s
      case Look =>
        var (b, seen) := GetBlob(s.b);
        s.(b := b, seen := s.seen + [seen])
      case Read(index, n, size) =>
        s.(b := AfterRead(s.b, index, n, size))
  }

  function Exec(cs: seq<seq<Cell>>, memory: seq<Cell>, s: Session, es: seq<Event>): Session
    requires Sendable(cs, memory)
  {
    if es == [] then s else Step(cs, memory, Exec(cs, memory, s, es[..|es| - 1]), es[|es| - 1])
  }

  // A read that leaves data_pos where it is
  predicate Stays(b: Handler, index: nat, n: word, size: nat) {
    b.data.None? || (if index == 0 then (if n > size then 0 else n) == b.pos else n == 0 || n > size)
  }

  // No read moves data_pos while chunks are outstanding
  ghost predicate Undisturbed(cs: seq<seq<Cell>>, memory: seq<Cell>, s: Session, es: seq<Event>)
    requires Sendable(cs, memory)
  {
    es != [] ==>
      var t, e := Exec(cs, memory, s, es[..|es| - 1]), es[|es| - 1];
      && Undisturbed(cs, memory, s, es[..|es| - 1])
      && (e.Read? && 0 < t.next < |cs| ==> Stays(t.b, e.index, e.n, e.size))
  }

  // How many of the chunks from the k-th on the events deliver, and how many there are then
  function Delivered(cs: seq<seq<Cell>>, k: nat, es: seq<Event>): nat {
    if es == [] then k
    else
      var j := Delivered(cs, k, es[..|es| - 1]);
      if es[|es| - 1].Chunk? && j < |cs| then j + 1 else j
  }

  // What the component may see: the old blob before the last chunk, the new one after it
  function Visible(was: Option<seq<Cell>>, cs: seq<seq<Cell>>, k: nat): Option<seq<Cell>> {
    if k < |cs| then was else Some(Join(cs))
  }

  function Seen(was: Option<seq<Cell>>, cs: seq<seq<Cell>>, es: seq<Event>): seq<Option<seq<Cell>>> {
    if es == [] then []
    else
      var rest := es[..|es| - 1];
      Seen(was, cs, rest) + if es[|es| - 1].Look? then [Visible(was, cs, Delivered(cs, 0, rest))] else []
  }

  // A blob is being received: its buffer and the place for the next chunk
  predicate Partly(b: Handler, was: Option<seq<Cell>>, buffer: seq<Cell>, pos: nat) {
    b.data == was && !b.ready && b.incoming == Some(buffer) && b.pos == pos
  }

  predicate Complete(b: Handler, was: Option<seq<Cell>>, blob: seq<Cell>) {
    b.data == was && b.incoming == Some(blob) && b.ready
  }

  // A blob is complete, and may have been taken over
  predicate HandedOver(b: Handler, was: Option<seq<Cell>>, blob: seq<Cell>) {
    (b.data == Some(blob) && b.incoming.None? && !b.ready) || Complete(b, was, blob)
  }

  // The handler after k of the chunks
  predicate Receiving(b: Handler, was: Option<seq<Cell>>, cs: seq<seq<Cell>>, k: nat, memory: seq<Cell>)
    requires Sendable(cs, memory) && k <= |cs|
  {
    JoinPrefix(cs, k);
    var got := Join(cs[..k]);
    if k == 0 then b.incoming.None? && b.data == was
    else if k < |cs| then Partly(b, was, got + memory[|got|..], |got|)
    else HandedOver(b, was, Join(cs))
  }

  lemma {:induction false} JoinPrefix(cs: seq<seq<Cell>>, k: nat)
    requires k <= |cs|
    ensures |Join(cs[..k])| <= |Join(cs)| && Join(cs)[..|Join(cs[..k])|] == Join(cs[..k])
  {
    if k == |cs| {
      assert cs[..k] == cs;
    } else {
      JoinPrefix(cs[..|cs| - 1], k);
      assert cs[..|cs| - 1][..k] == cs[..k];
    }
  }

  lemma JoinNext(cs: seq<seq<Cell>>, k: nat, j: nat)
    requires k <= j < |cs|
    ensures Join(cs[k..j + 1]) == Join(cs[k..j]) + cs[j]
  {
    assert cs[k..j + 1][..j - k] == cs[k..j];
  }

  lemma JoinNothing(cs: seq<seq<Cell>>)
    ensures Join(cs[..0]) == []
  {
  }

  lemma {:induction false} JoinParts(cs: seq<seq<Cell>>, k: nat)
    requires k <= |cs|
    ensures Join(cs) == Join(cs[..k]) + Join(cs[k..])
  {
    if k == |cs| {
      assert cs[..k] == cs;
    } else {
      var n := |cs| - 1;
      JoinParts(cs[..n], k);
      assert cs[..n][..k] == cs[..k] && cs[..n][k..] == cs[k..][..n - k];
    }
  }

  /** What is refused, and when: a new blob while one is on its way, a first chunk without
      memory, a later one without a first. Nothing changes then, nor on a blob without bytes. */
  lemma Refused(b: Handler, m: Message, idle: bool, memory: Option<seq<Cell>>)
    requires memory.Some? ==> |memory.value| == m.size
    ensures var (c, r) := SetCmd(b, m, idle, memory);
      && (r == Busy <==> m.index == 0 && b.incoming.Some?)
      && (r == NoMemory <==> b.incoming.None? && (m.index == 0 ==> m.size > 0 && memory.None?))
      && (r == Busy || r == NoMemory || (m.index == 0 && m.size == 0) ==> c == b)
      && r != Invalid
  {
  }

  /** A complete blob becomes the current one at once while the component is idle or has none;
      otherwise the component keeps the one it has, and the next request gets the new one. */
  predicate Taken(b: Handler, was: Option<seq<Cell>>, blob: seq<Cell>, idle: bool) {
    if idle || was.None? then b.data == Some(blob) && b.incoming.None? && !b.ready
    else Complete(b, was, blob) && GetBlob(b).1 == Some(blob)
  }

  /** A chunk that fits lands at data_pos; the last one hands the blob over. */
  lemma ChunkLands(b: Handler, was: Option<seq<Cell>>, buffer: seq<Cell>, pos: nat, m: Message, idle: bool, memory: Option<seq<Cell>>)
    requires Partly(b, was, buffer, pos) && m.index > 0 && |buffer| < WORD && Fits(buffer, pos, m.chunk)
    requires memory.Some? ==> |memory.value| == m.size
    ensures var (c, r) := SetCmd(b, m, idle, memory);
      var now := Landed(buffer, pos, m.chunk);
      r == Ok && if m.remaining > 0 then Partly(c, was, now, pos + |m.chunk|) else HandedOver(c, was, now) && Taken(c, was, now, idle)
  {
  }

  /** One that does not fit stops the firmware when data_pos is inside the buffer. */
  lemma ChunkOverruns(b: Handler, was: Option<seq<Cell>>, buffer: seq<Cell>, pos: nat, m: Message, idle: bool, memory: Option<seq<Cell>>)
    requires Partly(b, was, buffer, pos) && m.index > 0 && |buffer| < WORD && !Fits(buffer, pos, m.chunk)
    requires memory.Some? ==> |memory.value| == m.size
    ensures SetCmd(b, m, idle, memory) == (b, if pos <= |buffer| || |m.chunk| > WORD + |buffer| - pos then Assert else Outside)
  {
  }

  lemma FirstChunk(b: Handler, m: Message, idle: bool, memory: seq<Cell>)
    requires b.incoming.None? && m.index == 0 && |memory| == m.size > 0 && |m.chunk| <= |memory|
    ensures var (c, r) := SetCmd(b, m, idle, Some(memory));
      var now := m.chunk + memory[|m.chunk|..];
      r == Ok && if m.remaining > 0 then Partly(c, b.data, now, |m.chunk|) else HandedOver(c, b.data, now) && Taken(c, b.data, now, idle)
  {
    assert Landed(memory, 0, m.chunk) == m.chunk + memory[|m.chunk|..];
  }

  /** Each chunk in turn is accepted and lands behind the ones before it. */
  lemma SetKeeps(b: Handler, was: Option<seq<Cell>>, cs: seq<seq<Cell>>, k: nat, idle: bool, memory: seq<Cell>)
    requires Sendable(cs, memory) && k < |cs| && Receiving(b, was, cs, k, memory)
    ensures var (c, r) := SetCmd(b, MessageFor(cs, k), idle, Some(memory));
      r == Ok && Receiving(c, was, cs, k + 1, memory)
  {
    hide Join, Splice, SetCmd, Landed, HandedOver, Partly;
    JoinNext(cs, 0, k);
    JoinPrefix(cs, k);
    JoinPrefix(cs, k + 1);
    assert cs[0..k] == cs[..k] && cs[0..k + 1] == cs[..k + 1];
    var got, more := Join(cs[..k]), Join(cs[..k + 1]);
    var now := more + memory[|more|..];
    if k == 0 {
      JoinNothing(cs);
      assert more == cs[k];
      FirstChunk(b, MessageFor(cs, k), idle, memory);
    } else {
      ChunkLands(b, was, got + memory[|got|..], |got|, MessageFor(cs, k), idle, Some(memory));
      Behind(got, cs[k], memory);
    }
    if k + 1 == |cs| { assert cs[..k + 1] == cs && now == Join(cs); }
  }

  /** The last chunk completes the blob, for a component that is idle or has none at once. */
  lemma LastTaken(b: Handler, was: Option<seq<Cell>>, cs: seq<seq<Cell>>, idle: bool, memory: seq<Cell>)
    requires Sendable(cs, memory) && cs != [] && Receiving(b, was, cs, |cs| - 1, memory)
    ensures Taken(SetCmd(b, MessageFor(cs, |cs| - 1), idle, Some(memory)).0, was, Join(cs), idle)
  {
    hide Join, Splice, SetCmd, Landed, Partly, Taken, HandedOver;
    var k := |cs| - 1;
    JoinNext(cs, 0, k);
    JoinPrefix(cs, k);
    assert cs[0..k] == cs[..k] && cs[0..k + 1] == cs;
    var got := Join(cs[..k]);
    if k == 0 {
      JoinNothing(cs);
      FirstChunk(b, MessageFor(cs, k), idle, memory);
      assert cs[k] + memory[|cs[k]|..] == Join(cs);
    } else {
      ChunkLands(b, was, got + memory[|got|..], |got|, MessageFor(cs, k), idle, Some(memory));
      Behind(got, cs[k], memory);
      assert (got + cs[k]) + memory[|got + cs[k]|..] == Join(cs);
    }
  }

  lemma Behind(got: seq<Cell>, chunk: seq<Cell>, memory: seq<Cell>)
    requires |got| + |chunk| <= |memory|
    ensures Landed(got + memory[|got|..], |got|, chunk) == (got + chunk) + memory[|got + chunk|..]
  {
  }

  lemma ReadStays(b: Handler, index: nat, n: word, size: nat)
    ensures Stays(b, index, n, size) <==> AfterRead(b, index, n, size) == b
  {
  }

  /** In every interleaving of the chunks of a blob with the component's requests and with
      reads that leave data_pos alone, a request sees the old blob before the last chunk and
      all of the new one after it. */
  lemma {:induction false} NeverPartial(cs: seq<seq<Cell>>, memory: seq<Cell>, b: Handler, es: seq<Event>)
    requires b.incoming.None? && Sendable(cs, memory) && Undisturbed(cs, memory, Session(b, 0, [], None), es)
    ensures var s := Exec(cs, memory, Session(b, 0, [], None), es);
      && s.next == Delivered(cs, 0, es) <= |cs| && Receiving(s.b, b.data, cs, s.next, memory)
      && s.seen == Seen(b.data, cs, es) && s.halt.None?
  {
    hide Join, SetCmd;
    JoinNothing(cs);
    if es != [] {
      var n := |es| - 1;
      NeverPartial(cs, memory, b, es[..n]);
      var s := Exec(cs, memory, Session(b, 0, [], None), es[..n]);
      match es[n]
      case Chunk(idle) =>
        if s.next < |cs| { SetKeeps(s.b, b.data, cs, s.next, idle, memory); }
      case Look =>
        assert cs != [];
      case Read(index, m, size) =>
        ReadStays(s.b, index, m, size);
    }
  }

  /** A blob that is complete but not picked up yet survives every further message, except
      one without data. */
  lemma CompleteKept(b: Handler, was: Option<seq<Cell>>, blob: seq<Cell>, m: Message, idle: bool, memory: Option<seq<Cell>>)
    requires Complete(b, was, blob) && b.pos == |blob| && (memory.Some? ==> |memory.value| == m.size)
    requires m.index == 0 || m.chunk != []
    ensures SetCmd(b, m, idle, memory) == (b, if m.index == 0 then Busy else Assert)
  {
  }

  // ---------------------------------------------------------------- reading

  // Reads of ns[0], ns[1], ... bytes with message indices 0, 1, ...
  function Reads(b: Handler, ns: seq<word>, size: nat, beyond: nat -> Cell): (r: (Handler, seq<Cell>))
    requires b.data.Some? && Sum(ns) < WORD && Bounded(ns, size)
    ensures r.0.data == b.data && (ns != [] ==> r.0.pos == Sum(ns))
    decreases |ns|
  {
    if ns == [] then (b, [])
    else
      var k := |ns| - 1;
      var (c, out) := Reads(b, ns[..k], size, beyond);
      var (d, _, part) := GetCmd(c, k, ns[k], size, beyond);
      (d, out + part)
  }

  function Sum(ns: seq<word>): nat {
    if ns == [] then 0 else Sum(ns[..|ns| - 1]) + ns[|ns| - 1]
  }

  predicate Bounded(ns: seq<word>, size: nat) {
    forall i :: 0 <= i < |ns| ==> ns[i] <= size
  }

  /** Chunked reads return the blob from its start, in order, and then what lies behind it. */
  lemma {:induction false} ReadsInOrder(b: Handler, ns: seq<word>, size: nat, beyond: nat -> Cell)
    requires b.data.Some? && Sum(ns) < WORD && Bounded(ns, size)
    ensures Reads(b, ns, size, beyond).1 == Stretch(b.data.value, 0, Sum(ns), beyond)
    ensures Sum(ns) <= |b.data.value| ==> Reads(b, ns, size, beyond).1 == b.data.value[..Sum(ns)]
    decreases |ns|
  {
    if ns != [] { ReadsInOrder(b, ns[..|ns| - 1], size, beyond); }
  }

  /** A read returns bytes of the blob alone if and only if it asks for none behind its end. */
  lemma ReadInside(data: seq<Cell>, from: nat, n: nat)
    ensures (forall f: nat -> Cell, g: nat -> Cell :: Stretch(data, from, n, f) == Stretch(data, from, n, g)) <==>
      n == 0 || from + n <= |data|
    ensures from + n <= |data| ==> forall f: nat -> Cell :: Stretch(data, from, n, f) == data[from..from + n]
  {
    if n > 0 && from + n > |data| {
      var f, g := (_: nat) => 0, (_: nat) => 1;
      assert Stretch(data, from, n, f)[n - 1] != Stretch(data, from, n, g)[n - 1];
    }
  }

  // ---------------------------------------------------------------- reading while sending

  // The handler after the chunks from k to j when data_pos was at from after the first k
  predicate Astray(b: Handler, was: Option<seq<Cell>>, cs: seq<seq<Cell>>, k: nat, j: nat, buffer: seq<Cell>, from: nat)
    requires k <= j <= |cs|
  {
    var sent := Join(cs[k..j]);
    && Fits(buffer, from, sent)
    && if j < |cs| then Partly(b, was, Landed(buffer, from, sent), from + |sent|)
       else HandedOver(b, was, Landed(buffer, from, sent))
  }

  lemma LandedMore(buffer: seq<Cell>, from: nat, sent: seq<Cell>, chunk: seq<Cell>)
    requires Fits(buffer, from, sent)
    ensures Fits(Landed(buffer, from, sent), from + |sent|, chunk) <==> chunk == [] || Fits(buffer, from, sent + chunk)
    ensures Fits(buffer, from, sent + chunk) ==>
      Landed(Landed(buffer, from, sent), from + |sent|, chunk) == Landed(buffer, from, sent + chunk)
    ensures |Landed(buffer, from, sent)| == |buffer|
  {
    hide Splice;
    if chunk == [] {
      assert sent + chunk == sent;
    } else if sent == [] {
      assert sent + chunk == chunk;
    } else if Fits(buffer, from, sent + chunk) {
      var data, k := sent + chunk, |sent|;
      assert data[..k] == sent && data[k..k + |chunk|] == chunk && data[..k + |chunk|] == data;
      SpliceMore(buffer, from, data, k, |chunk|, chunk);
    }
    if sent != [] { SpliceLength(buffer, from, sent); }
  }

  lemma SpliceLength(buffer: seq<Cell>, from: nat, part: seq<Cell>)
    requires from + |part| <= |buffer|
    ensures |Splice(buffer, from, part)| == |buffer|
  {
  }

  lemma AstrayChunk(b: Handler, was: Option<seq<Cell>>, cs: seq<seq<Cell>>, k: nat, j: nat, buffer: seq<Cell>, from: nat,
                    idle: bool, memory: seq<Cell>)
    requires Sendable(cs, memory) && 0 < k <= j < |cs| && |buffer| == |memory| && Astray(b, was, cs, k, j, buffer, from)
    ensures var (c, r) := SetCmd(b, MessageFor(cs, j), idle, Some(memory));
      if Fits(buffer, from, Join(cs[k..j + 1])) then r == Ok && Astray(c, was, cs, k, j + 1, buffer, from)
      else r == Assert || (r == Outside && from > |buffer|)
  {
    hide Join, Landed, SetCmd, Splice;
    JoinNext(cs, k, j);
    var sent := Join(cs[k..j]);
    LandedMore(buffer, from, sent, cs[j]);
    var now := Landed(buffer, from, sent);
    if Fits(now, from + |sent|, cs[j]) {
      ChunkLands(b, was, now, from + |sent|, MessageFor(cs, j), idle, Some(memory));
      if cs[j] == [] { assert sent + cs[j] == sent; }
    } else {
      ChunkOverruns(b, was, now, from + |sent|, MessageFor(cs, j), idle, Some(memory));
    }
  }

  lemma FitsLess(buffer: seq<Cell>, from: nat, sent: seq<Cell>, chunk: seq<Cell>)
    requires Fits(buffer, from, sent + chunk)
    ensures Fits(buffer, from, sent)
  {
  }

  lemma StartsAstray(b: Handler, was: Option<seq<Cell>>, cs: seq<seq<Cell>>, k: nat, buffer: seq<Cell>, from: nat)
    requires k < |cs| && Partly(b, was, buffer, from)
    ensures Astray(b, was, cs, k, k, buffer, from) && Fits(buffer, from, Join(cs[k..k]))
  {
    assert cs[k..k] == [];
  }

  lemma AstrayLook(b: Handler, was: Option<seq<Cell>>, cs: seq<seq<Cell>>, k: nat, j: nat, buffer: seq<Cell>, from: nat)
    requires k <= j <= |cs| && Astray(b, was, cs, k, j, buffer, from)
    ensures Astray(GetBlob(b).0, was, cs, k, j, buffer, from)
  {
    hide Join, Landed, Fits;
  }

  lemma AstrayRead(b: Handler, was: Option<seq<Cell>>, cs: seq<seq<Cell>>, k: nat, j: nat, buffer: seq<Cell>, from: nat,
                   index: nat, n: word, size: nat)
    requires k <= j <= |cs| && Astray(b, was, cs, k, j, buffer, from) && (j < |cs| ==> Stays(b, index, n, size))
    ensures Astray(AfterRead(b, index, n, size), was, cs, k, j, buffer, from)
  {
    hide Join, Landed, Fits;
    ReadStays(b, index, n, size);
  }

  /** After a read has put data_pos at from, the other chunks land there one behind the
      other until one does not fit; that one stops the firmware or is written outside. */
  lemma {:induction false} GoesAstray(cs: seq<seq<Cell>>, memory: seq<Cell>, s: Session, was: Option<seq<Cell>>, buffer: seq<Cell>, es: seq<Event>)
    requires Sendable(cs, memory) && 0 < s.next < |cs| && s.halt.None? && |buffer| == |memory|
    requires Partly(s.b, was, buffer, s.b.pos) && Undisturbed(cs, memory, s, es)
    ensures var t, k, j := Exec(cs, memory, s, es), s.next, Delivered(cs, s.next, es);
      && k <= j <= |cs|
      && (t.halt.None? <==> Fits(buffer, s.b.pos, Join(cs[k..j])))
      && (t.halt.None? ==> t.next == j && Astray(t.b, was, cs, k, j, buffer, s.b.pos))
      && (t.halt.Some? ==> t.halt.value == Assert || (t.halt.value == Outside && s.b.pos > |buffer|))
  {
    hide Join, SetCmd, Landed, Astray, Fits, GetBlob, AfterRead, Stays;
    var k, from := s.next, s.b.pos;
    if es == [] {
      JoinNothing(cs[k..k]);
      assert cs[k..k][..0] == cs[k..k];
      StartsAstray(s.b, was, cs, k, buffer, from);
    } else {
      var n := |es| - 1;
      GoesAstray(cs, memory, s, was, buffer, es[..n]);
      var t, j := Exec(cs, memory, s, es[..n]), Delivered(cs, k, es[..n]);
      match es[n]
      case Chunk(idle) =>
        if j < |cs| {
          JoinNext(cs, k, j);
          if Fits(buffer, from, Join(cs[k..j]) + cs[j]) { FitsLess(buffer, from, Join(cs[k..j]), cs[j]); }
          if t.halt.None? { AstrayChunk(t.b, was, cs, k, j, buffer, from, idle, memory); }
        }
      case Look =>
        if t.halt.None? { AstrayLook(t.b, was, cs, k, j, buffer, from); }
      case Read(index, m, size) =>
        if t.halt.None? { AstrayRead(t.b, was, cs, k, j, buffer, from, index, m, size); }
    }
  }

  lemma AfterMove(cs: seq<seq<Cell>>, memory: seq<Cell>, s: Session, was: Option<seq<Cell>>, es: seq<Event>)
    requires Sendable(cs, memory) && 0 < s.next < |cs| && s.halt.None? && |Join(cs[..s.next])| <= |memory|
    requires var got := Join(cs[..s.next]); Partly(s.b, was, got + memory[|got|..], s.b.pos)
    requires Undisturbed(cs, memory, s, es) && Delivered(cs, s.next, es) == |cs|
    ensures var t, from, got, rest := Exec(cs, memory, s, es), s.b.pos, Join(cs[..s.next]), Join(cs[s.next..]);
      && (from == |got| || rest == [] ==> t.halt.None? && HandedOver(t.b, was, Join(cs)))
      && (from < |got| && rest != [] ==> t.halt.None? && HandsOverTorn(t.b, was, got, from, rest, memory))
      && (from > |got| && rest != [] ==> t.halt.Some?)
      && (|got| < from <= |memory| && rest != [] ==> t.halt == Some(Assert))
  {
    hide Join, Exec, Undisturbed, Delivered, HandedOver;
    var k, from := s.next, s.b.pos;
    var got, rest := Join(cs[..k]), Join(cs[k..]);
    var buffer := got + memory[|got|..];
    GoesAstray(cs, memory, s, was, buffer, es);
    JoinParts(cs, k);
    assert cs[k..|cs|] == cs[k..];
    if from == |got| { assert Landed(buffer, from, rest) == got + rest; }
  }

  /** What becomes of a blob when the host reads between two chunks: it arrives if the read
      leaves data_pos where it is, or if no bytes are to come. Otherwise, if data_pos moves
      back, a blob is handed over whose end still holds what the memory held; if it moves on,
      no blob is, and the firmware stops if data_pos is still inside the buffer. */
  lemma ReadBetween(cs: seq<seq<Cell>>, memory: seq<Cell>, b: Handler, before: seq<Event>, read: Event, after: seq<Event>)
    requires Sendable(cs, memory) && b.incoming.None? && read.Read?
    requires Undisturbed(cs, memory, Session(b, 0, [], None), before) && 0 < Delivered(cs, 0, before) < |cs|
    requires var s := Step(cs, memory, Exec(cs, memory, Session(b, 0, [], None), before), read);
      Undisturbed(cs, memory, s, after) && Delivered(cs, s.next, after) == |cs|
    ensures var r := Exec(cs, memory, Session(b, 0, [], None), before);
      var s, k := Step(cs, memory, r, read), Delivered(cs, 0, before);
      var t, got, rest := Exec(cs, memory, s, after), Join(cs[..k]), Join(cs[k..]);
      && (Stays(r.b, read.index, read.n, read.size) || rest == [] ==> t.halt.None? && HandedOver(t.b, b.data, Join(cs)))
      && (s.b.pos < |got| && rest != [] ==> t.halt.None? && HandsOverTorn(t.b, b.data, got, s.b.pos, rest, memory))
      && (s.b.pos > |got| && rest != [] ==> t.halt.Some?)
      && (|got| < s.b.pos <= |memory| && rest != [] ==> t.halt == Some(Assert))
  {
    hide Join, Exec, Undisturbed, Delivered, HandedOver, HandsOverTorn;
    NeverPartial(cs, memory, b, before);
    var r := Exec(cs, memory, Session(b, 0, [], None), before);
    JoinPrefix(cs, r.next);
    ReadStays(r.b, read.index, read.n, read.size);
    AfterMove(cs, memory, Step(cs, memory, r, read), b.data, after);
  }

  // The blob handed over is the chunks before the read, overwritten by those after it, and
  // its end is the memory's
  ghost predicate HandsOverTorn(b: Handler, was: Option<seq<Cell>>, got: seq<Cell>, from: nat, rest: seq<Cell>, memory: seq<Cell>) {
    && |got| <= |memory| && from < |got| && rest != [] && from + |rest| < |memory|
    && var blob := Splice(got + memory[|got|..], from, rest);
    && HandedOver(b, was, blob)
    && blob[|memory| - 1] == memory[|memory| - 1]
  }

  /** So a blob can be lost: chunks 1 and 2 with a read of nothing in between arrive as 2
      and whatever the memory held. */
  lemma ReadSpoils(x: Cell)
    ensures var b := Handler(Some([9]), None, false, 0);
      var first := SetCmd(b, Message(0, 2, [1], 1), false, Some([0, x])).0;
      var read := AfterRead(first, 0, 0, 4);
      var second := SetCmd(read, Message(1, 2, [2], 0), false, None).0;
      GetBlob(second).1 == Some([2, x])
  {
    assert Landed([0, x], 0, [1]) == [1, x];
    assert Landed([1, x], 0, [2]) == [2, x];
  }

  // ---------------------------------------------------------------- struct comp_data_blob_handler

  class BlobHandler {
    var data: array?<Cell>
    var dataNew: array?<Cell>
    var dataReady: bool
    var dataPos: word

    constructor ()
      ensures Valid() && State() == Handler(None, None, false, 0)
    {
      data, dataNew, dataReady, dataPos := null, null, false, 0;
    }

    ghost predicate Valid()
      reads this
    {
      data != null ==> data != dataNew
    }

    ghost function State(): Handler
      reads this, data, dataNew
    {
      Handler(if data == null then None else Some(data[..]), if dataNew == null then None else Some(dataNew[..]),
              dataReady, dataPos)
    }

    /** comp_data_blob_set_cmd; alloc says whether the allocation of a first chunk succeeds. */
    method Set(m: Message, from: array<Cell>, idle: bool, alloc: bool) returns (r: Result, ghost memory: Option<seq<Cell>>)
      requires Valid() && from[..] == m.chunk && from != data && from != dataNew
      modifies this, dataNew
      ensures Valid() && (memory.Some? ==> |memory.value| == m.size) && (memory.Some? <==> alloc)
      ensures SetCmd(old(State()), m, idle, memory) == (State(), r)
    {
      hide Landed, Splice;
      memory := if alloc then Some(seq(m.size, _ => 0)) else None;
      if dataNew != null && m.index == 0 { return Busy, memory; }
      if m.index == 0 {
        if m.size == 0 { return Ok, memory; }
        if !alloc { return NoMemory, memory; }
        dataNew := new Cell[m.size];
        memory := Some(dataNew[..]);
        dataReady, dataPos := false, 0;
      }
      if dataNew == null { return NoMemory, memory; }
      if from.Length > Room(dataNew.Length, dataPos) { return Assert, memory; }
      if from.Length > 0 && dataPos + from.Length > dataNew.Length { return Outside, memory; }
      CopyIn(dataNew, dataPos, from);
      dataPos := (dataPos + from.Length) % WORD;
      if m.remaining == 0 {
        if idle { data := null; }
        if data == null {
          data, dataNew := dataNew, null;
          dataReady, dataPos := false, 0;
        } else {
          dataReady := true;
        }
      }
      r := Ok;
    }

    /** comp_get_data_blob. */
    method GetData() returns (blob: array?<Cell>)
      requires Valid()
      modifies this
      ensures Valid() && GetBlob(old(State())) == (State(), if blob == null then None else Some(blob[..]))
    {
      if dataNew != null && dataReady {
        data, dataNew := dataNew, null;
        dataReady, dataPos := false, 0;
      }
      blob := data;
    }

    /** comp_data_blob_get_cmd; to is the message's space for size bytes. */
    method Get(index: nat, n: word, to: array<Cell>, beyond: nat -> Cell) returns (r: Result)
      requires Valid() && to != data && to != dataNew
      modifies this`dataPos, to
      ensures Valid() && var (b, result, out) := GetCmd(old(State()), index, n, to.Length, beyond);
        State() == b && r == result && |out| <= to.Length && to[..] == Splice(old(to[..]), 0, out)
    {
      hide Splice;
      SpliceNone(to[..], 0, []);
      if data == null { return Ok; }
      if index == 0 { dataPos := 0; }
      if n > to.Length { return Invalid; }
      CopyFrom(data, dataPos, to, n, beyond);
      dataPos := (dataPos + n) % WORD;
      r := Ok;
    }
  }

  // memcpy of a chunk into the new blob
  method CopyIn(to: array<Cell>, pos: nat, from: array<Cell>)
    requires to != from && Fits(to[..], pos, from[..])
    modifies to
    ensures to[..] == Landed(old(to[..]), pos, from[..])
  {
    assert from[0..0 + from.Length] == from[..];
    if from.Length > 0 { CopyCells(to, pos, from, 0, from.Length); }
  }

  // memcpy of n bytes from a place in the blob, and on behind it
  method CopyFrom(data: array<Cell>, from: nat, to: array<Cell>, n: nat, beyond: nat -> Cell)
    requires n <= to.Length && to != data
    modifies to
    ensures to[..] == Splice(old(to[..]), 0, Stretch(data[..], from, n, beyond))
  {
    for i := 0 to n
      invariant forall k :: 0 <= k < to.Length ==>
        to[k] == if k < i then Stretch(data[..], from, n, beyond)[k] else old(to[k])
    {
      to[i] := if from + i < data.Length then data[from + i] else beyond(from + i);
    }
  }
}
