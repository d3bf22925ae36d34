/**
 Copies between circular audio streams and linear buffers.
 */
module RingStream {
  import opened Basics
  import opened Arith

  // Stored bytes or samples
  type Cell = int

  // ---------------------------------------------------------------- rings as values

  // n cells of the ring from position p on, round and round
  function RingRead(ring: seq<Cell>, p: nat, n: nat): (r: seq<Cell>)
    requires |ring| > 0 || n == 0
    ensures |r| == n
  {
    seq(n, i requires 0 <= i < n => ring[Mod(p + i, |ring|)])
  }

  // The ring with the data stored cell by cell from position p on, round and round
  function RingWrite(ring: seq<Cell>, p: nat, data: seq<Cell>): (r: seq<Cell>)
    requires |ring| > 0
    ensures |r| == |ring|
    decreases |data|
  {
    if data == [] then ring
    else
      var m := |data| - 1;
      RingWrite(ring, p, data[..m])[Mod(p + m, |ring|) := data[m]]
  }

  /** What the last round of the data put into a position stays there, and a position
      that the data does not reach keeps its contents. */
  lemma {:induction false} RingWriteAt(ring: seq<Cell>, p: nat, data: seq<Cell>, i: nat)
    requires |ring| > 0
    ensures i < |data| <= i + |ring| ==> RingWrite(ring, p, data)[Mod(p + i, |ring|)] == data[i]
    ensures |data| <= i < |ring| ==> RingWrite(ring, p, data)[Mod(p + i, |ring|)] == ring[Mod(p + i, |ring|)]
    decreases |data|
  {
    hide Mod;
    if data != [] {
      var m := |data| - 1;
      RingWriteAt(ring, p, data[..m], i);
      if i < m < i + |ring| { ModDistinct(p + i, p + m, |ring|); }
      if m < i < |ring| { ModDistinct(p + m, p + i, |ring|); }
    }
  }

  /** What was written into a ring is what is read from there. */
  lemma WriteThenRead(ring: seq<Cell>, p: nat, data: seq<Cell>)
    requires |ring| > 0 && |data| <= |ring|
    ensures RingRead(RingWrite(ring, p, data), p, |data|) == data
  {
    forall i | 0 <= i < |data|
      ensures RingRead(RingWrite(ring, p, data), p, |data|)[i] == data[i]
    {
      RingWriteAt(ring, p, data, i);
    }
  }

  // Contents with c cells from d on replaced
  function Splice(ring: seq<Cell>, d: nat, part: seq<Cell>): seq<Cell>
    requires d + |part| <= |ring|
  {
    ring[..d] + part + ring[d + |part|..]
  }

  lemma SpliceOne(was: seq<Cell>, d: nat, data: seq<Cell>, i: nat, k: nat)
    requires d + k < |was| && i + k < |data|
    ensures Splice(was, d, data[i..i + k + 1]) == Splice(was, d, data[i..i + k])[d + k := data[i + k]]
  {
    assert data[i..i + k + 1] == data[i..i + k] + [data[i + k]];
  }

  // One more stretch without a wrap
  lemma {:induction false} WriteMore(ring: seq<Cell>, p: nat, data: seq<Cell>, k: nat, c: nat, d: nat)
    requires |ring| > 0 && k + c <= |data| && d == Mod(p + k, |ring|) && d + c <= |ring|
    ensures RingWrite(ring, p, data[..k + c]) == Splice(RingWrite(ring, p, data[..k]), d, data[k..k + c])
    decreases c
  {
    hide Mod;
    var was := RingWrite(ring, p, data[..k]);
    if c == 0 {
      SpliceNone(was, d, data[k..k]);
    } else {
      var m := k + c - 1;
      WriteMore(ring, p, data, k, c - 1, d);
      ModStep(p + k, |ring|, c - 1);
      assert data[..k + c][..m] == data[..m];
      SpliceOne(was, d, data, k, c - 1);
    }
  }

  // One stretch without a wrap is read in place
  lemma ReadMore(ring: seq<Cell>, p: nat, n: nat, k: nat, c: nat, s: nat)
    requires |ring| > 0 && k + c <= n && s == Mod(p + k, |ring|) && s + c <= |ring|
    ensures RingRead(ring, p, n)[k..k + c] == ring[s..s + c]
  {
    hide Mod;
    var a, b := RingRead(ring, p, n)[k..k + c], ring[s..s + c];
    forall i | 0 <= i < c
      ensures a[i] == b[i]
    {
      ModStep(p + k, |ring|, i);
    }
  }

  // ---------------------------------------------------------------- audio_stream

  // audio_stream_wrap, for a pointer relative to the start of the ring
  function Wrap(size: nat, ptr: nat): (r: nat)
    requires ptr <= 2 * size
    ensures r <= size
  {
    if ptr >= size then ptr - size else ptr
  }

  lemma WrapMod(size: nat, ptr: nat)
    requires ptr <= 2 * size && size > 0
    ensures Mod(ptr, size) == if Wrap(size, ptr) == size then 0 else Wrap(size, ptr)
  {
    hide Mod;
    ModAdd(size, ptr);
    if ptr >= size {
      ModAdd(size, ptr - size);
      if ptr == 2 * size { ModAdd(size, 0); }
    }
  }

  class AudioStream {
    const buf: array<Cell>
    const sampleBytes: nat
    var r: nat
    var w: nat

    constructor (buf: array<Cell>, sampleBytes: nat, r: nat, w: nat)
      ensures this.buf == buf && this.sampleBytes == sampleBytes && this.r == r && this.w == w
    {
      this.buf, this.sampleBytes, this.r, this.w := buf, sampleBytes, r, w;
    }
  }

  // memcpy
  method CopyCells(to: array<Cell>, d: nat, from: array<Cell>, s: nat, n: nat)
    requires d + n <= to.Length && s + n <= from.Length && to != from
    modifies to
    ensures to[..] == Splice(old(to[..]), d, from[s..s + n])
  {
    for i := 0 to n
      invariant forall k :: 0 <= k < to.Length ==>
        to[k] == if d <= k < d + i then from[s + k - d] else old(to[k])
    {
      to[d + i] := from[s + i];
    }
  }

  /** audio_stream_copy: the sink holds the source's cells from its write point on, modulo
      both ring sizes, and its other cells are unchanged. */
  method StreamCopy(source: AudioStream, ioffset: nat, sink: AudioStream, ooffset: nat, samples: nat) returns (n: nat)
    requires source.buf != sink.buf && source.buf.Length > 0 && sink.buf.Length > 0
    requires source.r + ioffset * source.sampleBytes <= 2 * source.buf.Length
    requires sink.w + ooffset * source.sampleBytes <= 2 * sink.buf.Length
    modifies sink.buf
    ensures n == samples
    ensures sink.buf[..] == RingWrite(old(sink.buf[..]), sink.w + ooffset * source.sampleBytes,
                                      RingRead(source.buf[..], source.r + ioffset * source.sampleBytes,
                                               samples * source.sampleBytes))
  {
    var ssize := source.sampleBytes;
    RingToRing(source.buf, source.r + ioffset * ssize, sink.buf, sink.w + ooffset * ssize, samples * ssize);
    n := samples;
  }

  // The loop of audio_stream_copy, from position `from` on to position `to` on
  method RingToRing(source: array<Cell>, from: nat, sink: array<Cell>, to: nat, all: nat)
    requires source != sink && source.Length > 0 && sink.Length > 0
    requires from <= 2 * source.Length && to <= 2 * sink.Length
    modifies sink
    ensures sink[..] == RingWrite(old(sink[..]), to, RingRead(source[..], from, all))
  {
    hide RingWrite, RingRead, Mod, Splice;
    var src, snk := Wrap(source.Length, from), Wrap(sink.Length, to);
    var bytes := all;
    ghost var was, k: nat := sink[..], 0;
    ghost var data := RingRead(source[..], from, all);
    Starts(source.Length, from);
    Starts(sink.Length, to);
    NothingWritten(was, to, data);
    while bytes > 0
      invariant 0 <= bytes && k + bytes == all
      invariant At(source.Length, src, from + k) && At(sink.Length, snk, to + k)
      invariant sink[..] == RingWrite(was, to, data[..k]) && source[..] == old(source[..])
      decreases bytes, Ending(source.Length, src) + Ending(sink.Length, snk)
    {
      var copied := Min(bytes, Min(source.Length - src, sink.Length - snk));
      CopyCells(sink, snk, source, src, copied);
      Copied(was, to, data, k, copied, snk, source[..], from, src);
      Onward(source.Length, src, from + k, copied);
      Onward(sink.Length, snk, to + k, copied);
      bytes := bytes - copied;
      k := k + copied;
      src := Wrap(source.Length, src + copied);
      snk := Wrap(sink.Length, snk + copied);
    }
    assert data[..k] == data;
  }

  /** audio_stream_copy_from_linear: the ring holds the linear cells from its write point on. */
  method CopyFromLinear(linear: array<Cell>, ioffset: nat, sink: AudioStream, ooffset: nat, samples: nat)
    requires linear != sink.buf && sink.buf.Length > 0
    requires ioffset * sink.sampleBytes + samples * sink.sampleBytes <= linear.Length
    requires sink.w + ooffset * sink.sampleBytes <= 2 * sink.buf.Length
    modifies sink.buf
    ensures sink.buf[..] == RingWrite(old(sink.buf[..]), sink.w + ooffset * sink.sampleBytes,
                                      linear[ioffset * sink.sampleBytes..][..samples * sink.sampleBytes])
  {
    var ssize := sink.sampleBytes;
    var start, bytes := ioffset * ssize, samples * ssize;
    LinearToRing(linear, start, sink.buf, sink.w + ooffset * ssize, bytes);
    assert linear[start..][..bytes] == linear[start..start + bytes];
  }

  method LinearToRing(linear: array<Cell>, start: nat, sink: array<Cell>, to: nat, all: nat)
    requires linear != sink && sink.Length > 0
    requires start + all <= linear.Length && to <= 2 * sink.Length
    modifies sink
    ensures sink[..] == RingWrite(old(sink[..]), to, linear[start..start + all])
  {
    hide RingWrite, Mod, Splice;
    var src, snk := start, Wrap(sink.Length, to);
    var bytes := all;
    ghost var was, k: nat := sink[..], 0;
    ghost var data := linear[..][start..start + all];
    assert data == linear[start..start + all];
    Starts(sink.Length, to);
    NothingWritten(was, to, data);
    while bytes > 0
      invariant 0 <= bytes && k + bytes == all && src == start + k
      invariant At(sink.Length, snk, to + k) && data == linear[..][start..start + all]
      invariant sink[..] == RingWrite(was, to, data[..k])
      decreases bytes, Ending(sink.Length, snk)
    {
      var copied := Min(bytes, sink.Length - snk);
      Slice(linear[..], start, all, k, copied);
      assert linear[src..src + copied] == data[k..k + copied];
      CopyCells(sink, snk, linear, src, copied);
      Stored(was, to, data, k, copied, snk, data[k..k + copied]);
      Onward(sink.Length, snk, to + k, copied);
      bytes := bytes - copied;
      k := k + copied;
      src := src + copied;
      snk := Wrap(sink.Length, snk + copied);
    }
    assert data[..k] == data;
  }

  /** audio_stream_copy_to_linear: the linear buffer holds the ring's cells from its read point on. */
  method CopyToLinear(source: AudioStream, ioffset: nat, linear: array<Cell>, ooffset: nat, samples: nat)
    requires linear != source.buf && source.buf.Length > 0
    requires ooffset * source.sampleBytes + samples * source.sampleBytes <= linear.Length
    requires source.r + ioffset * source.sampleBytes <= 2 * source.buf.Length
    modifies linear
    ensures linear[..] == Splice(old(linear[..]), ooffset * source.sampleBytes,
                                 RingRead(source.buf[..], source.r + ioffset * source.sampleBytes,
                                          samples * source.sampleBytes))
  {
    var ssize := source.sampleBytes;
    RingToLinear(source.buf, source.r + ioffset * ssize, linear, ooffset * ssize, samples * ssize);
  }

  method RingToLinear(source: array<Cell>, from: nat, linear: array<Cell>, start: nat, all: nat)
    requires linear != source && source.Length > 0
    requires start + all <= linear.Length && from <= 2 * source.Length
    modifies linear
    ensures linear[..] == Splice(old(linear[..]), start, RingRead(source[..], from, all))
  {
    hide RingRead, Mod, Splice;
    var src, snk := Wrap(source.Length, from), start;
    var bytes := all;
    ghost var was, k: nat := linear[..], 0;
    ghost var data := RingRead(source[..], from, all);
    Starts(source.Length, from);
    SpliceNone(was, start, data);
    while bytes > 0
      invariant 0 <= bytes && k + bytes == all && snk == start + k
      invariant At(source.Length, src, from + k)
      invariant linear[..] == Splice(was, start, data[..k]) && source[..] == old(source[..])
      decreases bytes, Ending(source.Length, src)
    {
      var copied := Min(bytes, source.Length - src);
      CopyCells(linear, snk, source, src, copied);
      if copied > 0 { ReadMore(source[..], from, all, k, copied, src); }
      SpliceMore(was, start, data, k, copied, source[src..src + copied]);
      Onward(source.Length, src, from + k, copied);
      bytes := bytes - copied;
      k := k + copied;
      src := Wrap(source.Length, src + copied);
      snk := snk + copied;
    }
    assert data[..k] == data;
  }

  /** Copying linear data into a ring and back returns it. */
  method ThereAndBack(linear: array<Cell>, ring: AudioStream, back: array<Cell>, samples: nat)
    requires linear != ring.buf && back != ring.buf && linear != back && ring.buf.Length > 0
    requires ring.r == ring.w <= ring.buf.Length && samples * ring.sampleBytes <= ring.buf.Length
    requires linear.Length == back.Length == samples * ring.sampleBytes
    modifies ring.buf, back
    ensures back[..] == linear[..]
  {
    hide RingWrite, RingRead, Splice;
    ghost var was, n := ring.buf[..], samples * ring.sampleBytes;
    CopyFromLinear(linear, 0, ring, 0, samples);
    assert linear[0..][..n] == linear[..];
    WriteThenRead(was, ring.w, linear[..]);
    ghost var before := back[..];
    CopyToLinear(ring, 0, back, 0, samples);
    SpliceAll(before, linear[..]);
  }

  // ---------------------------------------------------------------- steps of the loops

  // The pointer is at x modulo the ring size; it may also be at the very end
  predicate At(size: nat, ptr: nat, x: nat) {
    size > 0 && ptr <= size && Mod(x, size) == if ptr == size then 0 else ptr
  }

  // A pointer at the very end moves to the start in a round that copies nothing
  function Ending(size: nat, ptr: nat): nat {
    if ptr == size then 1 else 0
  }

  lemma Starts(size: nat, ptr: nat)
    requires ptr <= 2 * size && size > 0
    ensures At(size, Wrap(size, ptr), ptr)
  {
    hide Mod;
    WrapMod(size, ptr);
  }

  lemma Onward(size: nat, ptr: nat, x: nat, c: nat)
    requires At(size, ptr, x) && ptr + c <= size
    ensures At(size, Wrap(size, ptr + c), x + c) && Wrap(size, ptr + c) < size
  {
    if ptr < size { ModStep(x, size, c); }
  }

  lemma NothingWritten(ring: seq<Cell>, p: nat, data: seq<Cell>)
    requires |ring| > 0
    ensures RingWrite(ring, p, data[..0]) == ring
  {
  }

  lemma Stored(was: seq<Cell>, p: nat, data: seq<Cell>, k: nat, c: nat, snk: nat, part: seq<Cell>)
    requires k + c <= |data| && part == data[k..k + c]
    requires At(|was|, snk, p + k) && snk + c <= |was|
    ensures RingWrite(was, p, data[..k + c]) == Splice(RingWrite(was, p, data[..k]), snk, part)
  {
    hide RingWrite, Mod;
    if c > 0 {
      WriteMore(was, p, data, k, c, snk);
    } else {
      SpliceNone(RingWrite(was, p, data[..k]), snk, part);
      assert part == [];
    }
  }

  lemma Copied(was: seq<Cell>, p: nat, data: seq<Cell>, k: nat, c: nat, snk: nat, ring: seq<Cell>, from: nat, src: nat)
    requires k + c <= |data| && |ring| > 0
    requires data == RingRead(ring, from, |data|)
    requires At(|ring|, src, from + k) && src + c <= |ring| && At(|was|, snk, p + k) && snk + c <= |was|
    ensures RingWrite(was, p, data[..k + c]) == Splice(RingWrite(was, p, data[..k]), snk, ring[src..src + c])
  {
    hide RingWrite, RingRead, Mod;
    if c > 0 { ReadMore(ring, from, |data|, k, c, src); }
    Stored(was, p, data, k, c, snk, ring[src..src + c]);
  }

  lemma SpliceMore(ring: seq<Cell>, d: nat, data: seq<Cell>, k: nat, c: nat, part: seq<Cell>)
    requires d + |data| <= |ring| && k + c <= |data| && part == data[k..k + c]
    ensures Splice(ring, d, data[..k + c]) == Splice(Splice(ring, d, data[..k]), d + k, part)
  {
    assert data[..k + c] == data[..k] + part;
  }

  lemma Slice(whole: seq<Cell>, start: nat, all: nat, k: nat, c: nat)
    requires start + all <= |whole| && k + c <= all
    ensures whole[start..start + all][k..k + c] == whole[start + k..start + k + c]
  {
    var part := whole[start..start + all];
    var a, b := part[k..k + c], whole[start + k..start + k + c];
    forall i | 0 <= i < c
      ensures a[i] == b[i]
    {
      assert a[i] == part[k + i] == whole[start + k + i];
    }
  }

  lemma SpliceNone(ring: seq<Cell>, d: nat, data: seq<Cell>)
    requires d <= |ring|
    ensures Splice(ring, d, data[..0]) == ring && Splice(ring, d, []) == ring
  {
  }

  lemma SpliceAll(ring: seq<Cell>, data: seq<Cell>)
    requires |ring| == |data|
    ensures Splice(ring, 0, data) == data
  {
  }
}
