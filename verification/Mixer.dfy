/**
 Mixing of several circular source streams into one sink stream, chunk by chunk up to the
 nearest wrap of any of them.
 */
module Mixer {
  import opened Basics
  import opened Arith
  import opened RingStream

  // mix_n_s16, mix_n_s24 and mix_n_s32 differ in these only
  datatype Format = S16 | S24 | S32

  // PLATFORM_MAX_CHANNELS of the platform that has most
  const MAX_SOURCES := 8

  // Samples lie in -Half to Half - 1
  function Half(f: Format): int {
    match f
    case S16 => 0x8000
    case S24 => 0x80_0000
    case S32 => 0x8000_0000
  }

  // What a cell of the stream can hold: 24-bit samples have 32-bit containers
  predicate Holds(f: Format, x: Cell) {
    if f == S16 then -0x8000 <= x < 0x8000 else -0x8000_0000 <= x < 0x8000_0000
  }

  // The samples of a format: int16_t, the values of 24 bits, int32_t
  predicate IsSample(f: Format, v: int) {
    match f
    case S16 => -32768 <= v <= 32767
    case S24 => -8388608 <= v <= 8388607
    case S32 => -2147483648 <= v <= 2147483647
  }

  // The accumulator is an int32_t, for 32-bit samples an int64_t
  predicate Accumulates(f: Format, v: int) {
    if f == S32 then -0x8000_0000_0000_0000 <= v < 0x8000_0000_0000_0000 else -0x8000_0000 <= v < 0x8000_0000
  }

  // 24-bit samples are sign extended from the low 24 bits of their container
  function Decode(f: Format, x: Cell): (r: int)
    ensures Holds(f, x) ==> IsSample(f, r)
    ensures (f == S24 ==> (r - x) % 0x100_0000 == 0) && (f != S24 || IsSample(f, x) ==> r == x)
  {
    if f == S24 then (x + 0x80_0000) % 0x100_0000 - 0x80_0000 else x
  }

  function Saturate(f: Format, v: int): (r: int)
    ensures IsSample(f, r) && (IsSample(f, v) ==> r == v)
  {
    if v < -Half(f) then -Half(f) else if v >= Half(f) then Half(f) - 1 else v
  }

  /** Saturation gives the nearest value that fits. */
  lemma SaturateNearest(f: Format, v: int, x: int)
    requires IsSample(f, x)
    ensures (if v < x then x - v else v - x) >=
            (if v < Saturate(f, v) then Saturate(f, v) - v else v - Saturate(f, v))
  {
  }

  // ---------------------------------------------------------------- what mixing means

  // A ring and its read position, which may be at the very end
  datatype Source = Source(ring: seq<Cell>, r: nat)

  predicate Ready(f: Format, s: Source) {
    |s.ring| > 0 && s.r <= |s.ring| && forall k :: 0 <= k < |s.ring| ==> Holds(f, s.ring[k])
  }

  predicate AllReady(f: Format, ss: seq<Source>) {
    forall j :: 0 <= j < |ss| ==> Ready(f, ss[j])
  }

  function Sample(f: Format, s: Source, i: nat): int
    requires Ready(f, s)
  {
    Decode(f, s.ring[Mod(s.r + i, |s.ring|)])
  }

  function Total(f: Format, ss: seq<Source>, i: nat): int
    requires AllReady(f, ss)
  {
    if ss == [] then 0 else Total(f, ss[..|ss| - 1], i) + Sample(f, ss[|ss| - 1], i)
  }

  // The first n mixed samples
  function Mixed(f: Format, ss: seq<Source>, n: nat): (r: seq<Cell>)
    requires AllReady(f, ss)
    ensures |r| == n
  {
    seq(n, i requires 0 <= i < n => Saturate(f, Total(f, ss, i)))
  }

  /** Every mixed sample is one of the format: the sum of the sources where that is one, and
      the nearest one otherwise. */
  lemma MixedFits(f: Format, ss: seq<Source>, n: nat, i: nat)
    requires AllReady(f, ss) && i < n
    ensures var v, sum := Mixed(f, ss, n)[i], Total(f, ss, i);
      && IsSample(f, v) && (IsSample(f, sum) ==> v == sum)
      && forall x :: IsSample(f, x) ==> (if sum < x then x - sum else sum - x) >= (if sum < v then v - sum else sum - v)
  {
    hide Total, Saturate;
    MixedAt(f, ss, n, i);
    forall x | IsSample(f, x)
      ensures var v, sum := Mixed(f, ss, n)[i], Total(f, ss, i);
        (if sum < x then x - sum else sum - x) >= (if sum < v then v - sum else sum - v)
    {
      SaturateNearest(f, Total(f, ss, i), x);
    }
  }

  lemma {:induction false} WrittenFrom(ring: seq<Cell>, p: nat, data: seq<Cell>, k: nat)
    requires k < |ring|
    ensures RingWrite(ring, p, data)[k] == ring[k] || RingWrite(ring, p, data)[k] in data
    decreases |data|
  {
    hide Mod;
    if data != [] { WrittenFrom(ring, p, data[..|data| - 1], k); }
  }

  // Whatever was written is a sample of the format
  lemma SinkFits(f: Format, ss: seq<Source>, n: nat, was: seq<Cell>, w: nat)
    requires AllReady(f, ss) && |was| > 0
    ensures var now := RingWrite(was, w, Mixed(f, ss, n));
      |now| == |was| && forall k :: 0 <= k < |now| ==> now[k] == was[k] || IsSample(f, now[k])
  {
    hide Mod, Mixed, RingWrite, AllReady;
    var data := Mixed(f, ss, n);
    var now := RingWrite(was, w, data);
    forall k | 0 <= k < |now|
      ensures now[k] == was[k] || IsSample(f, now[k])
    {
      WrittenFrom(was, w, data, k);
      if now[k] in data {
        var i :| 0 <= i < |data| && data[i] == now[k];
        MixedFits(f, ss, n, i);
      }
    }
  }

  /** No sum of samples leaves the accumulator. */
  lemma {:induction false} TotalFits(f: Format, ss: seq<Source>, i: nat)
    requires AllReady(f, ss) && |ss| <= MAX_SOURCES
    ensures -|ss| * Half(f) <= Total(f, ss, i) <= |ss| * Half(f)
    ensures Accumulates(f, Total(f, ss, i))
  {
    hide Sample, Half, Accumulates;
    if ss != [] {
      var n := |ss| - 1;
      TotalFits(f, ss[..n], i);
      SampleFits(f, ss[n], i);
      OneMore(n, Half(f));
    }
    SumFits(f, |ss|, Total(f, ss, i));
  }

  lemma SampleFits(f: Format, s: Source, i: nat)
    requires Ready(f, s)
    ensures -Half(f) <= Sample(f, s, i) < Half(f)
  {
    hide Mod;
  }

  lemma OneMore(n: int, h: int)
    ensures (n + 1) * h == n * h + h && -(n + 1) * h == -n * h - h
  {
  }

  lemma SumFits(f: Format, n: int, v: int)
    requires 0 <= n <= MAX_SOURCES && -n * Half(f) <= v <= n * Half(f)
    ensures Accumulates(f, v)
  {
    match f
    case S16 =>
    case S24 =>
    case S32 =>
  }

  lemma {:induction false} TotalInsert(f: Format, a: seq<Source>, s: Source, b: seq<Source>, i: nat)
    requires AllReady(f, a) && AllReady(f, b) && Ready(f, s)
    ensures AllReady(f, a + b) && AllReady(f, a + [s] + b)
    ensures Total(f, a + [s] + b, i) == Total(f, a + b, i) + Sample(f, s, i)
    decreases |b|
  {
    hide Sample, Ready;
    if b == [] {
      assert a + [s] + b == a + [s] && a + b == a && (a + [s])[..|a|] == a;
    } else {
      var n := |b| - 1;
      TotalInsert(f, a, s, b[..n], i);
      assert (a + [s] + b)[..|a| + 1 + n] == a + [s] + b[..n];
      assert (a + b)[..|a| + n] == a + b[..n];
    }
  }

  lemma Without(a: seq<Source>, k: nat)
    requires k < |a|
    ensures a[..k] + [a[k]] + a[k + 1..] == a
    ensures multiset(a[..k] + a[k + 1..]) == multiset(a) - multiset{a[k]}
  {
    assert a[..k] + [a[k]] + a[k + 1..] == a;
    assert multiset(a[..k] + [a[k]] + a[k + 1..]) == multiset(a[..k] + a[k + 1..]) + multiset{a[k]};
  }

  // Two lists with the same elements, without the last of the first list
  lemma Match(a: seq<Source>, b: seq<Source>) returns (k: nat)
    requires a != [] && multiset(a) == multiset(b)
    ensures k < |b| && b[k] == a[|a| - 1]
    ensures multiset(a[..|a| - 1]) == multiset(b[..k] + b[k + 1..]) && b == b[..k] + [b[k]] + b[k + 1..]
  {
    var n := |a| - 1;
    assert a[n] in multiset(a);
    assert a[n] in multiset(b);
    k :| 0 <= k < |b| && b[k] == a[n];
    Without(a, n);
    assert a[..n] + a[n + 1..] == a[..n];
    Without(b, k);
  }

  lemma {:induction false} TotalPermuted(f: Format, a: seq<Source>, b: seq<Source>, i: nat)
    requires AllReady(f, a) && AllReady(f, b) && multiset(a) == multiset(b)
    ensures Total(f, a, i) == Total(f, b, i)
    decreases |a|
  {
    hide Sample, Ready;
    if a == [] {
      assert b == [] by { assert |multiset(b)| == 0; }
    } else {
      var k := Match(a, b);
      TotalInsert(f, b[..k], b[k], b[k + 1..], i);
      TotalPermuted(f, a[..|a| - 1], b[..k] + b[k + 1..], i);
    }
  }

  /** The order of the sources does not matter. */
  lemma MixedPermuted(f: Format, a: seq<Source>, b: seq<Source>, n: nat)
    requires AllReady(f, a) && AllReady(f, b) && multiset(a) == multiset(b)
    ensures Mixed(f, a, n) == Mixed(f, b, n)
  {
    forall i | 0 <= i < n
      ensures Mixed(f, a, n)[i] == Mixed(f, b, n)[i]
    {
      TotalPermuted(f, a, b, i);
    }
  }

  // ---------------------------------------------------------------- the loops

  // The streams hold the rings of the sources
  ghost predicate Streams(streams: seq<array<Cell>>, ss: seq<Source>)
    reads streams
  {
    |ss| == |streams| && forall j :: 0 <= j < |ss| ==> streams[j][..] == ss[j].ring
  }

  // Read positions after i samples, wrapped or at the very end
  ghost predicate Reached(ss: seq<Source>, at: seq<nat>, i: nat) {
    |at| == |ss| && forall j :: 0 <= j < |ss| ==> At(|ss[j].ring|, at[j], ss[j].r + i)
  }

  // n samples more reach no further than the end of each ring
  ghost predicate Before(ss: seq<Source>, at: seq<nat>, n: nat) {
    |at| == |ss| && forall j :: 0 <= j < |ss| ==> at[j] + n <= |ss[j].ring|
  }

  // Each position is n further on
  ghost predicate Moved(at: seq<nat>, now: seq<nat>, n: nat) {
    |now| == |at| && forall j :: 0 <= j < |at| ==> now[j] == at[j] + n
  }

  lemma ReachedOn(ss: seq<Source>, at: seq<nat>, now: seq<nat>, i: nat, n: nat, k: nat)
    requires Reached(ss, at, i) && Before(ss, at, n) && Moved(at, now, k) && k < n
    ensures Reached(ss, now, i + k) && Before(ss, now, 1)
  {
    hide Mod;
    forall j | 0 <= j < |ss|
      ensures At(|ss[j].ring|, now[j], ss[j].r + (i + k))
    {
      ModStep(ss[j].r + i, |ss[j].ring|, k);
    }
  }

  /** The sum of the next sample of every source; each source moves on by one. */
  method AddSources(f: Format, streams: seq<array<Cell>>, src: array<nat>, ghost ss: seq<Source>, ghost i: nat)
    returns (val: int)
    requires |ss| == src.Length <= MAX_SOURCES && AllReady(f, ss) && Streams(streams, ss)
    requires Reached(ss, src[..], i) && Before(ss, src[..], 1)
    modifies src
    ensures val == Total(f, ss, i) && Accumulates(f, val)
    ensures Moved(old(src[..]), src[..], 1)
  {
    hide Mod, Total, Accumulates;
    TotalNone(f, ss, i);
    val := 0;
    for j := 0 to |streams|
      invariant val == Total(f, ss[..j], i) && Accumulates(f, val)
      invariant forall k :: 0 <= k < src.Length ==> src[k] == old(src[..])[k] + if k < j then 1 else 0
    {
      TotalNext(f, ss, i, j);
      assert src[..][j] == src[j] && At(|ss[j].ring|, src[j], ss[j].r + i);
      assert streams[j][src[j]] == ss[j].ring[src[j]];
      val := val + Decode(f, streams[j][src[j]]);
      src[j] := src[j] + 1;
    }
    assert ss[..|streams|] == ss;
  }

  lemma TotalNone(f: Format, ss: seq<Source>, i: nat)
    requires AllReady(f, ss)
    ensures Total(f, ss[..0], i) == 0 && Accumulates(f, 0)
  {
  }

  lemma TotalNext(f: Format, ss: seq<Source>, i: nat, j: nat)
    requires AllReady(f, ss) && j < |ss| <= MAX_SOURCES
    ensures Total(f, ss[..j + 1], i) == Total(f, ss[..j], i) + Sample(f, ss[j], i)
    ensures Accumulates(f, Total(f, ss[..j + 1], i))
  {
    assert ss[..j + 1][..j] == ss[..j];
    TotalFits(f, ss[..j + 1], i);
  }

  /** n samples, none of which wraps. */
  method MixChunk(f: Format, sink: array<Cell>, dest: nat, streams: seq<array<Cell>>, src: array<nat>, n: nat,
                  ghost ss: seq<Source>, ghost i: nat, ghost all: nat)
    requires |ss| == src.Length <= MAX_SOURCES && AllReady(f, ss) && Streams(streams, ss) && sink !in streams
    requires Reached(ss, src[..], i) && Before(ss, src[..], n) && dest + n <= sink.Length && i + n <= all
    modifies sink, src
    ensures sink[..] == Splice(old(sink[..]), dest, Mixed(f, ss, all)[i..i + n])
    ensures Moved(old(src[..]), src[..], n)
  {
    hide Mixed, Total, Mod, AllReady, Splice, Reached, Before, Moved;
    ghost var at, was, data := src[..], sink[..], Mixed(f, ss, all);
    ChunkStarts(at, was, dest, data, i);
    for k := 0 to n
      invariant Streams(streams, ss) && |src[..]| == |ss| && Moved(at, src[..], k)
      invariant sink[..] == Splice(was, dest, data[i..i + k])
    {
      ReachedOn(ss, at, src[..], i, n, k);
      ghost var now := src[..];
      var val := AddSources(f, streams, src, ss, i + k);
      MovedOn(at, now, src[..], k);
      MixedAt(f, ss, all, i + k);
      SpliceOne(was, dest, data, i, k);
      sink[dest + k] := Saturate(f, val);
    }
  }

  lemma ChunkStarts(at: seq<nat>, was: seq<Cell>, d: nat, data: seq<Cell>, i: nat)
    requires d <= |was| && i <= |data|
    ensures Moved(at, at, 0) && Splice(was, d, data[i..i + 0]) == was
  {
  }

  lemma MixedAt(f: Format, ss: seq<Source>, all: nat, i: nat)
    requires AllReady(f, ss) && i < all
    ensures Mixed(f, ss, all)[i] == Saturate(f, Total(f, ss, i))
  {
  }

  lemma MovedOn(at: seq<nat>, now: seq<nat>, later: seq<nat>, k: nat)
    requires Moved(at, now, k) && Moved(now, later, 1)
    ensures Moved(at, later, k + 1)
  {
  }

  /** The most samples that can be mixed before the sink or a source wraps. */
  method ChunkSize(room: nat, streams: seq<array<Cell>>, src: array<nat>, ghost ss: seq<Source>) returns (n: nat)
    requires |ss| == src.Length && Streams(streams, ss) && Before(ss, src[..], 0)
    ensures n <= room && Before(ss, src[..], n)
    ensures n == room || !Before(ss, src[..], n + 1)
  {
    n := room;
    for i := 0 to |streams|
      invariant n <= room && forall j :: 0 <= j < i ==> src[j] + n <= |ss[j].ring|
      invariant n == room || exists j :: 0 <= j < i && src[..][j] + n == |ss[j].ring|
    {
      assert streams[i][..] == ss[i].ring && src[..][i] + 0 <= |ss[i].ring|;
      n := Min(n, streams[i].Length - src[i]);
    }
  }

  /** Positions at the end of their ring go back to its start. */
  method WrapAll(streams: seq<array<Cell>>, src: array<nat>, ghost ss: seq<Source>, ghost at: seq<nat>, ghost i: nat, ghost n: nat)
    requires |ss| == src.Length && Streams(streams, ss)
    requires Reached(ss, at, i) && Before(ss, at, n) && Moved(at, src[..], n)
    requires forall j :: 0 <= j < |streams| ==> src as object != streams[j]
    modifies src
    ensures Reached(ss, src[..], i + n) && Before(ss, src[..], 1)
  {
    hide Mod;
    for j := 0 to |streams|
      invariant Streams(streams, ss)
      invariant forall k :: j <= k < src.Length ==> src[k] == at[k] + n
      invariant forall k :: 0 <= k < j ==> At(|ss[k].ring|, src[k], ss[k].r + (i + n)) && src[k] < |ss[k].ring|
    {
      Onward(|ss[j].ring|, at[j], ss[j].r + i, n);
      assert streams[j][..] == ss[j].ring;
      src[j] := Wrap(streams[j].Length, src[j]);
    }
  }

  /** mix_n_s16, mix_n_s24 and mix_n_s32: each sink position from the write point on gets
      the saturated sum of the matching samples of all sources, modulo the size of each
      ring; the rest of the sink is unchanged. */
  method MixN(f: Format, sink: array<Cell>, w: nat, streams: seq<array<Cell>>, ghost ss: seq<Source>, rs: seq<nat>, samples: nat)
    requires |rs| == |ss| <= MAX_SOURCES && AllReady(f, ss) && Streams(streams, ss) && sink !in streams
    requires forall j :: 0 <= j < |ss| ==> rs[j] == ss[j].r
    requires w <= sink.Length && sink.Length > 0
    modifies sink
    ensures sink[..] == RingWrite(old(sink[..]), w, Mixed(f, ss, samples))
    ensures forall k :: 0 <= k < sink.Length ==> sink[k] == old(sink[k]) || IsSample(f, sink[k])
  {
    hide Mod, Mixed, RingWrite, Reached, Before, Moved, AllReady, Splice, At;
    var src := new nat[|streams|](j requires 0 <= j < |streams| => rs[j]);
    ghost var was, data := sink[..], Mixed(f, ss, samples);
    var dest: nat, processed: nat := w, 0;
    MixStarts(f, ss, src[..], sink.Length, w);
    NothingWritten(was, w, data);
    while processed < samples
      invariant 0 <= processed <= samples && At(sink.Length, dest, w + processed)
      invariant Streams(streams, ss) && Reached(ss, src[..], processed) && Before(ss, src[..], 0)
      invariant sink[..] == RingWrite(was, w, data[..processed])
      decreases samples - processed, if dest == sink.Length || !Before(ss, src[..], 1) then 1 else 0
    {
      EndOfRing(sink.Length, dest, w + processed);
      var n := ChunkSize(Min(sink.Length - dest, samples - processed), streams, src, ss);
      ghost var at := src[..];
      MixChunk(f, sink, dest, streams, src, n, ss, processed, samples);
      Stored(was, w, data, processed, n, dest, data[processed..processed + n]);
      Onward(sink.Length, dest, w + processed, n);
      WrapAll(streams, src, ss, at, processed, n);
      BeforeNone(ss, src[..]);
      processed := processed + n;
      dest := Wrap(sink.Length, dest + n);
    }
    assert data[..processed] == data;
    SinkFits(f, ss, samples, was, w);
    assert forall k :: 0 <= k < sink.Length ==> sink[k] == sink[..][k] && old(sink[k]) == was[k];
  }

  lemma EndOfRing(size: nat, dest: nat, x: nat)
    requires At(size, dest, x)
    ensures dest <= size
  {
  }

  lemma BeforeNone(ss: seq<Source>, at: seq<nat>)
    requires Before(ss, at, 1)
    ensures Before(ss, at, 0)
  {
  }

  lemma MixStarts(f: Format, ss: seq<Source>, at: seq<nat>, size: nat, w: nat)
    requires AllReady(f, ss) && |at| == |ss| && w <= size && size > 0
    requires forall j :: 0 <= j < |ss| ==> at[j] == ss[j].r
    ensures Reached(ss, at, 0) && Before(ss, at, 0) && At(size, w, w)
  {
    AtSelf(size, w);
    forall j | 0 <= j < |ss|
      ensures At(|ss[j].ring|, at[j], ss[j].r + 0) && at[j] <= |ss[j].ring|
    {
      assert Ready(f, ss[j]);
      AtSelf(|ss[j].ring|, ss[j].r);
    }
  }

  lemma AtSelf(size: nat, p: nat)
    requires p <= size && size > 0
    ensures At(size, p, p)
  {
    ModAdd(size, 0);
    ModAdd(size, p);
  }
}
