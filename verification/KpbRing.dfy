/**
 The key phrase history buffer as a value: a ring of separately allocated blocks,
 each with its own write and read offset, listed in `next` order.

 The point of this module is that block boundaries do not matter: laid end to end
 the blocks behave as one circular buffer.  `History` is the abstract content (the
 last `Size` bytes written, oldest first) and every operation on blocks is related
 to it.
 */
module KpbRing {
  import opened Basics

  // Sizes count bytes; the copy helpers move whole samples, so counts are multiples of the sample size
  type Byte = int

  // enum buffer_state
  datatype BlockState = BufferFree | BufferFull | BufferOff

  // struct history_buffer; offsets are relative to start_addr, so the end is |data|
  datatype Block = Block(data: seq<Byte>, w: nat, r: nat, state: BlockState)

  // The ring and the index of the block that hd.c_hb points at
  datatype Ring = Ring(blocks: seq<Block>, cur: nat)

  function Next(n: nat, i: nat): nat
    requires i < n
  {
    if i + 1 == n then 0 else i + 1
  }

  function Prev(n: nat, i: nat): nat
    requires i < n
  {
    if i == 0 then n - 1 else i - 1
  }

  // ---------------------------------------------------------------- flat view

  function Flat(bs: seq<Block>): seq<Byte> {
    if bs == [] then [] else bs[0].data + Flat(bs[1..])
  }

  // Total size of the blocks; Size(bs[..i]) is where block i starts in the flat view
  function Size(bs: seq<Block>): nat {
    |Flat(bs)|
  }

  lemma {:induction false} FlatAppend(a: seq<Block>, b: seq<Block>)
    ensures Flat(a + b) == Flat(a) + Flat(b)
    ensures Size(a + b) == Size(a) + Size(b)
  {
    if a == [] {
      assert a + b == b;
      assert [] + Flat(b) == Flat(b);
    } else {
      FlatAppend(a[1..], b);
      assert (a + b)[0] == a[0] && (a + b)[1..] == a[1..] + b;
      Regroup(a[0].data, Flat(a[1..]), Flat(b));
    }
  }

  lemma Regroup(x: seq<Byte>, y: seq<Byte>, z: seq<Byte>)
    ensures x + (y + z) == x + y + z
  {
  }

  lemma FlatSplit(bs: seq<Block>, i: nat)
    requires i < |bs|
    ensures Flat(bs) == Flat(bs[..i]) + bs[i].data + Flat(bs[i + 1..])
    ensures Size(bs) == Size(bs[..i]) + |bs[i].data| + Size(bs[i + 1..])
    ensures Size(bs[..i + 1]) == Size(bs[..i]) + |bs[i].data|
  {
    var one := [bs[i]];
    assert Flat(one) == bs[i].data + Flat(one[1..]) == bs[i].data;
    FlatAppend(bs[..i], one);
    FlatAppend(bs[..i] + one, bs[i + 1..]);
    assert bs[..i + 1] == bs[..i] + one;
    assert bs == bs[..i] + one + bs[i + 1..];
  }

  // ---------------------------------------------------------------- invariant

  ghost predicate Backed(bs: seq<Block>) {
    && |bs| > 0
    && (forall i :: 0 <= i < |bs| ==> |bs[i].data| > 0)
  }

  /** Shape of the ring between two calls: every block is backed, only the current
      block is partly written, and no write offset rests at a block's end. */
  ghost predicate Shape(g: Ring) {
    && Backed(g.blocks)
    && g.cur < |g.blocks|
    && g.blocks[g.cur].w < |g.blocks[g.cur].data|
    && (forall i :: 0 <= i < |g.blocks| && i != g.cur ==> g.blocks[i].w == 0)
  }

  /** The labels describe a history of `total` bytes written since the last reset. */
  ghost predicate Labelled(g: Ring, total: nat)
    requires Shape(g)
  {
    && g.blocks[g.cur].state == BufferFree
    && (total < Size(g.blocks) ==>
          && total == WritePos(g)
          && (forall i :: 0 <= i < g.cur ==> g.blocks[i].state == BufferFull)
          && (forall i :: g.cur < i < |g.blocks| ==> g.blocks[i].state == BufferFree))
    && (total >= Size(g.blocks) ==>
          forall i :: 0 <= i < |g.blocks| && i != g.cur ==> g.blocks[i].state == BufferFull)
  }

  // Position of the write pointer in the flat view
  function WritePos(g: Ring): (p: nat)
    requires Shape(g)
    ensures p < Size(g.blocks)
  {
    FlatSplit(g.blocks, g.cur);
    Size(g.blocks[..g.cur]) + g.blocks[g.cur].w
  }

  // The last Size bytes written, oldest first
  function History(g: Ring): (h: seq<Byte>)
    requires Shape(g)
    ensures |h| == Size(g.blocks)
  {
    Rotate(Flat(g.blocks), WritePos(g))
  }

  function Rotate(f: seq<Byte>, p: nat): (h: seq<Byte>)
    requires p <= |f|
    ensures |h| == |f|
  {
    f[p..] + f[..p]
  }

  // ---------------------------------------------------------------- buffering

  function SetBlock(g: Ring, i: nat, b: Block): Ring
    requires i < |g.blocks|
  {
    g.(blocks := g.blocks[i := b])
  }

  /** The current block is full: rewind it and hand over to the next one. */
  function HandOver(g: Ring): Ring
    requires g.cur < |g.blocks|
  {
    var b := g.blocks[g.cur].(w := 0);
    if |g.blocks| > 1 then
      var nx := Next(|g.blocks|, g.cur);
      var bs := g.blocks[g.cur := b.(state := BufferFull)];
      Ring(bs[nx := bs[nx].(state := BufferFree)], nx)
    else
      SetBlock(g, g.cur, b.(state := BufferFree))
  }

  /** One iteration of the loop in kpb_buffer_data: `d` goes to the write pointer of
      the current block, and a filled block hands over to the next one. */
  function WriteChunk(g: Ring, d: seq<Byte>): Ring
    requires Shape(g)
    requires g.blocks[g.cur].w + |d| <= |g.blocks[g.cur].data|
  {
    var b := g.blocks[g.cur];
    var put := SetBlock(g, g.cur, b.(data := b.data[..b.w] + d + b.data[b.w + |d|..], w := b.w + |d|));
    if b.w + |d| == |b.data| then HandOver(put) else put
  }

  /** kpb_buffer_data: store all of `d`, block by block. */
  function BufferData(g: Ring, d: seq<Byte>): Ring
    requires Shape(g)
    decreases |d|
  {
    if d == [] then g else
      var b := g.blocks[g.cur];
      var k := Min(|d|, |b.data| - b.w);
      WriteChunkShape(g, d[..k]);
      BufferData(WriteChunk(g, d[..k]), d[k..])
  }

  lemma WriteChunkShape(g: Ring, d: seq<Byte>)
    requires Shape(g)
    requires g.blocks[g.cur].w + |d| <= |g.blocks[g.cur].data|
    ensures Shape(WriteChunk(g, d))
    ensures SameSizes(g.blocks, WriteChunk(g, d).blocks)
    ensures SameReads(g.blocks, WriteChunk(g, d).blocks)
  {
  }

  lemma BufferNothing(g: Ring)
    requires Shape(g)
    ensures BufferData(g, []) == g
  {
  }

  lemma BufferDataStep(g: Ring, d: seq<Byte>, n: nat)
    requires Shape(g) && d != []
    requires n == Min(|d|, |g.blocks[g.cur].data| - g.blocks[g.cur].w)
    ensures Shape(WriteChunk(g, d[..n]))
    ensures BufferData(g, d) == BufferData(WriteChunk(g, d[..n]), d[n..])
  {
    WriteChunkShape(g, d[..n]);
  }

  ghost predicate SameSizes(a: seq<Block>, b: seq<Block>) {
    |a| == |b| && forall i :: 0 <= i < |a| ==> |a[i].data| == |b[i].data|
  }

  ghost predicate SameReads(a: seq<Block>, b: seq<Block>) {
    |a| == |b| && forall i :: 0 <= i < |a| ==> a[i].r == b[i].r
  }

  ghost predicate SameData(a: seq<Block>, b: seq<Block>) {
    |a| == |b| && forall i :: 0 <= i < |a| ==> a[i].data == b[i].data
  }

  lemma {:induction false} SizeSame(a: seq<Block>, b: seq<Block>)
    requires SameSizes(a, b)
    ensures Size(a) == Size(b)
  {
    if a != [] {
      SizeSame(a[1..], b[1..]);
    }
  }

  lemma {:induction false} FlatSame(a: seq<Block>, b: seq<Block>)
    requires SameData(a, b)
    ensures Flat(a) == Flat(b)
  {
    if a != [] {
      FlatSame(a[1..], b[1..]);
    }
  }

  // Overwriting part of block i overwrites the same stretch of the flat view
  lemma FlatWrite(bs: seq<Block>, bs': seq<Block>, i: nat, w: nat, d: seq<Byte>)
    requires i < |bs| == |bs'|
    requires w + |d| <= |bs[i].data|
    requires bs'[i].data == bs[i].data[..w] + d + bs[i].data[w + |d|..]
    requires forall j :: 0 <= j < |bs| && j != i ==> bs'[j].data == bs[j].data
    ensures
      var p := Size(bs[..i]) + w;
      && p + |d| <= Size(bs)
      && Flat(bs') == Flat(bs)[..p] + d + Flat(bs)[p + |d|..]
  {
    hide Flat;
    var a, b, c := Flat(bs[..i]), bs[i].data, Flat(bs[i + 1..]);
    assert Flat(bs) == a + b + c by { FlatSplit(bs, i); }
    assert Flat(bs') == a + bs'[i].data + c by {
      FlatSplit(bs', i);
      FlatSame(bs[..i], bs'[..i]);
      FlatSame(bs[i + 1..], bs'[i + 1..]);
    }
    Splice(a, b, c, w, d);
  }

  lemma Splice(a: seq<Byte>, b: seq<Byte>, c: seq<Byte>, w: nat, d: seq<Byte>)
    requires w + |d| <= |b|
    ensures a + (b[..w] + d + b[w + |d|..]) + c ==
            (a + b + c)[..|a| + w] + d + (a + b + c)[|a| + w + |d|..]
  {
    assert (a + b + c)[..|a| + w] == a + b[..w];
    assert (a + b + c)[|a| + w + |d|..] == b[w + |d|..] + c;
  }

  /** A chunk advances the write position by its length, wrapping exactly at the end. */
  lemma WriteChunkPos(g: Ring, d: seq<Byte>)
    requires Shape(g)
    requires g.blocks[g.cur].w + |d| <= |g.blocks[g.cur].data|
    ensures Shape(WriteChunk(g, d))
    ensures Size(WriteChunk(g, d).blocks) == Size(g.blocks)
    ensures WritePos(g) + |d| <= Size(g.blocks)
    ensures WritePos(WriteChunk(g, d)) ==
            if WritePos(g) + |d| == Size(g.blocks) then 0 else WritePos(g) + |d|
  {
    var g' := WriteChunk(g, d);
    WriteChunkShape(g, d);
    SizeSame(g.blocks, g'.blocks);
    FlatSplit(g.blocks, g.cur);
    if g.cur + 1 < |g.blocks| {
      FlatSplit(g.blocks, g.cur + 1);
      SizeSame(g.blocks[..g.cur + 1], g'.blocks[..g.cur + 1]);
      SizeSame(g.blocks[..g.cur], g'.blocks[..g.cur]);
    } else {
      assert g.blocks[g.cur + 1..] == [];
      SizeSame(g.blocks[..g.cur], g'.blocks[..g.cur]);
    }
  }

  lemma WriteChunkHistory(g: Ring, d: seq<Byte>)
    requires Shape(g)
    requires g.blocks[g.cur].w + |d| <= |g.blocks[g.cur].data|
    ensures Shape(WriteChunk(g, d))
    ensures |d| <= Size(g.blocks)
    ensures History(WriteChunk(g, d)) == History(g)[|d|..] + d
  {
    var g' := WriteChunk(g, d);
    WriteChunkPos(g, d);
    FlatWrite(g.blocks, g'.blocks, g.cur, g.blocks[g.cur].w, d);
    RotateWrite(Flat(g.blocks), WritePos(g), d, Flat(g'.blocks), WritePos(g'));
  }

  lemma RotateWrite(f: seq<Byte>, p: nat, d: seq<Byte>, f': seq<Byte>, p': nat)
    requires p + |d| <= |f|
    requires f' == f[..p] + d + f[p + |d|..]
    requires p' == if p + |d| == |f| then 0 else p + |d|
    ensures Rotate(f', p') == Rotate(f, p)[|d|..] + d
  {
    assert Rotate(f, p)[|d|..] == f[p + |d|..] + f[..p];
    assert f'[..p + |d|] == f[..p] + d;
    assert f'[p + |d|..] == f[p + |d|..];
    if p + |d| == |f| {
      assert f'[..0] == [] && f'[0..] == f' == f'[..p + |d|];
    }
  }

  lemma AppendTwice(h: seq<Byte>, a: seq<Byte>, b: seq<Byte>)
    requires |a| <= |h|
    ensures ((h[|a|..] + a) + b)[|b|..] == (h + (a + b))[|a + b|..]
  {
    assert (h[|a|..] + a) + b == (h + (a + b))[|a|..];
  }

  lemma {:induction false} BufferDataShape(g: Ring, d: seq<Byte>)
    requires Shape(g)
    ensures Shape(BufferData(g, d))
    ensures SameSizes(g.blocks, BufferData(g, d).blocks)
    ensures SameReads(g.blocks, BufferData(g, d).blocks)
    decreases |d|
  {
    if d != [] {
      var b := g.blocks[g.cur];
      var k := Min(|d|, |b.data| - b.w);
      WriteChunkShape(g, d[..k]);
      BufferDataShape(WriteChunk(g, d[..k]), d[k..]);
    }
  }

  /** kpb_buffer_data appends: whatever the block boundaries and however often the
      write pointer wraps, the history is the last Size bytes of the old history
      followed by the new data. */
  lemma {:induction false} BufferDataAppends(g: Ring, d: seq<Byte>)
    requires Shape(g)
    ensures Shape(BufferData(g, d))
    ensures History(BufferData(g, d)) == (History(g) + d)[|d|..]
    decreases |d|
  {
    if d == [] {
      assert History(g) + d == History(g);
    } else {
      var b := g.blocks[g.cur];
      var k := Min(|d|, |b.data| - b.w);
      var d0, d1 := d[..k], d[k..];
      var h := History(g);
      WriteChunkHistory(g, d0);
      BufferDataAppends(WriteChunk(g, d0), d1);
      AppendTwice(h, d0, d1);
      assert d0 + d1 == d;
    }
  }

  lemma WriteChunkLabels(g: Ring, d: seq<Byte>, total: nat)
    requires Shape(g) && Labelled(g, total) && d != []
    requires g.blocks[g.cur].w + |d| <= |g.blocks[g.cur].data|
    ensures Shape(WriteChunk(g, d))
    ensures Labelled(WriteChunk(g, d), total + |d|)
  {
    var g' := WriteChunk(g, d);
    var n, p := Size(g.blocks), WritePos(g);
    WriteChunkShape(g, d);
    assert WritePos(g') == (if p + |d| == n then 0 else p + |d|) && Size(g'.blocks) == n && p + |d| <= n by {
      WriteChunkPos(g, d);
    }
    assert (g.cur + 1 == |g.blocks| && g'.cur == 0 && g'.blocks[0].w == 0) <==> p + |d| == n by {
      EndOfRing(g, d);
    }
    if total + |d| < n {
    } else {
      if total < n { assert g'.cur == 0; }
    }
  }

  lemma EndOfRing(g: Ring, d: seq<Byte>)
    requires Shape(g) && d != []
    requires g.blocks[g.cur].w + |d| <= |g.blocks[g.cur].data|
    ensures WritePos(g) + |d| == Size(g.blocks) <==>
            g.cur + 1 == |g.blocks| && g.blocks[g.cur].w + |d| == |g.blocks[g.cur].data|
  {
    FlatSplit(g.blocks, g.cur);
    if g.cur + 1 == |g.blocks| {
      assert g.blocks[g.cur + 1..] == [];
    } else {
      assert |g.blocks[g.cur + 1..][0].data| > 0;
    }
  }

  lemma {:induction false} BufferDataLabels(g: Ring, d: seq<Byte>, total: nat)
    requires Shape(g) && Labelled(g, total)
    ensures Shape(BufferData(g, d))
    ensures Labelled(BufferData(g, d), total + |d|)
    decreases |d|
  {
    hide Flat, Labelled, WriteChunk;
    if d != [] {
      var b := g.blocks[g.cur];
      var k := Min(|d|, |b.data| - b.w);
      WriteChunkShape(g, d[..k]);
      WriteChunkLabels(g, d[..k], total);
      BufferDataLabels(WriteChunk(g, d[..k]), d[k..], total + k);
    }
  }

  // ---------------------------------------------------------------- read point

  // Position in the flat view of read offset r of block i
  function ReadPos(bs: seq<Block>, i: nat, r: nat): (p: nat)
    requires i < |bs| && r < |bs[i].data|
    ensures p < Size(bs)
  {
    FlatSplit(bs, i);
    Size(bs[..i]) + r
  }

  // Where the last q bytes written start in the flat view
  function StartOf(g: Ring, q: nat): nat
    requires Shape(g) && q <= Size(g.blocks)
  {
    if q <= WritePos(g) then WritePos(g) - q else WritePos(g) + Size(g.blocks) - q
  }

  // Bytes a block contributes to the backward walk, by its label
  function Local(b: Block): nat {
    match b.state
    case BufferFree => b.w
    case BufferFull => |b.data|
    case BufferOff => 0
  }

  datatype ReadPoint = ReadPoint(hb: nat, r: int)

  // Number of blocks the backward walk can still visit, counting block i
  function WalkLeft(n: nat, cur: nat, i: nat): nat
    requires cur < n && i < n
  {
    if i <= cur then i + n - cur else i - cur
  }

  /** The do-while loop of kpb_init_draining, entered at block i with `buffered` bytes
      already counted in the blocks after it. */
  function Walk(g: Ring, req: nat, i: nat, buffered: nat): ReadPoint
    requires g.cur < |g.blocks| && i < |g.blocks|
    decreases WalkLeft(|g.blocks|, g.cur, i)
  {
    var acc := buffered + Local(g.blocks[i]);
    var p := Prev(|g.blocks|, i);
    if req > acc then
      if p == g.cur then
        var c := g.blocks[p];
        ReadPoint(p, c.w + (acc + |c.data| - c.w - req))
      else
        Walk(g, req, p, acc)
    else if req == acc then
      ReadPoint(i, 0)
    else
      ReadPoint(i, acc - req)
  }

  ghost predicate Found(g: Ring, req: nat, rp: ReadPoint)
    requires Shape(g) && req <= Size(g.blocks)
  {
    && rp.hb < |g.blocks| && 0 <= rp.r < |g.blocks[rp.hb].data|
    && ReadPos(g.blocks, rp.hb, rp.r) == StartOf(g, req)
  }

  /** While the walk is still on the blocks behind the write pointer, it has counted
      exactly the bytes between the end of block i and the write pointer. */
  lemma {:induction false} WalkDown(g: Ring, req: nat, i: nat, buffered: nat, total: nat)
    requires Shape(g) && Labelled(g, total)
    requires 0 < req <= Min(total, Size(g.blocks))
    requires i <= g.cur
    requires buffered + Local(g.blocks[i]) == WritePos(g) - Size(g.blocks[..i])
    requires buffered < req
    ensures Found(g, req, Walk(g, req, i, buffered))
    decreases i
  {
    var acc := buffered + Local(g.blocks[i]);
    if req > acc {
      if i > 0 {
        OffsetStep(g.blocks, i);
        WalkDown(g, req, i - 1, acc, total);
      } else {
        WalkWrap(g, req, buffered, total);
      }
    } else {
      WalkStop(g, req, i, acc);
    }
  }

  /** The step from block 0 to the last block, taken only when the ring has lapped. */
  lemma WalkWrap(g: Ring, req: nat, buffered: nat, total: nat)
    requires Shape(g) && Labelled(g, total)
    requires 0 < req <= Min(total, Size(g.blocks))
    requires buffered + Local(g.blocks[0]) == WritePos(g) < req
    ensures Found(g, req, Walk(g, req, 0, buffered))
  {
    var n, acc := |g.blocks|, buffered + Local(g.blocks[0]);
    LastOffset(g.blocks);
    if g.cur != n - 1 {
      WalkAround(g, req, n - 1, acc, total);
    } else {
      WalkTail(g, req, acc);
    }
  }

  lemma LastOffset(bs: seq<Block>)
    requires bs != []
    ensures Size(bs[..|bs| - 1]) + |bs[|bs| - 1].data| == Size(bs)
  {
    FlatSplit(bs, |bs| - 1);
    assert bs[..|bs| - 1 + 1] == bs;
  }

  lemma OffsetStep(bs: seq<Block>, i: nat)
    requires 0 < i <= |bs|
    ensures Size(bs[..i]) == Size(bs[..i - 1]) + |bs[i - 1].data|
  {
    FlatSplit(bs, i - 1);
    assert bs[..i] == bs[..i - 1 + 1];
  }

  /** The read point falls in the old tail of the current write block. */
  lemma WalkTail(g: Ring, req: nat, acc: nat)
    requires Shape(g)
    requires acc < req <= Size(g.blocks)
    requires WritePos(g) < req
    requires acc + (|g.blocks[g.cur].data| - g.blocks[g.cur].w) == Size(g.blocks)
    requires Size(g.blocks) - req < |g.blocks[g.cur].data| - g.blocks[g.cur].w
    ensures Found(g, req, ReadPoint(g.cur, g.blocks[g.cur].w + (Size(g.blocks) - req)))
  {
  }

  /** Past the wrap the walk runs over full blocks down to the old tail of cur. */
  lemma {:induction false} WalkAround(g: Ring, req: nat, i: nat, buffered: nat, total: nat)
    requires Shape(g) && Labelled(g, total)
    requires 0 < req <= Size(g.blocks) <= total
    requires g.cur < i < |g.blocks|
    requires buffered + |g.blocks[i].data| == WritePos(g) + Size(g.blocks) - Size(g.blocks[..i])
    requires buffered < req
    requires WritePos(g) < req
    ensures Found(g, req, Walk(g, req, i, buffered))
    decreases i
  {
    var acc := buffered + Local(g.blocks[i]);
    OffsetStep(g.blocks, i);
    if req > acc {
      if i - 1 != g.cur {
        WalkAround(g, req, i - 1, acc, total);
      } else {
        WalkTail(g, req, acc);
      }
    } else {
      WalkStop(g, req, i, acc);
    }
  }

  /** The walk has counted enough and stops inside block i. */
  lemma WalkStop(g: Ring, req: nat, i: nat, acc: nat)
    requires Shape(g)
    requires req <= Size(g.blocks)
    requires i < |g.blocks|
    requires req <= acc < req + |g.blocks[i].data|
    requires Size(g.blocks[..i]) + (acc - req) == StartOf(g, req)
    ensures Found(g, req, ReadPoint(i, acc - req))
  {
  }

  /** The backward walk of kpb_init_draining, for every fill history: the block and
      offset it selects are where the most recent `req` bytes start. */
  lemma WalkFindsStart(g: Ring, req: nat, total: nat)
    requires Shape(g) && Labelled(g, total)
    requires req <= Min(total, Size(g.blocks))
    ensures Found(g, req, Walk(g, req, g.cur, 0))
  {
    if req > 0 {
      WalkDown(g, req, g.cur, 0, total);
    } else {
      WalkStop(g, req, g.cur, g.blocks[g.cur].w);
    }
  }

  // ---------------------------------------------------------------- draining

  // The last p bytes written
  function Latest(g: Ring, p: nat): (s: seq<Byte>)
    requires Shape(g) && p <= Size(g.blocks)
    ensures |s| == p
  {
    History(g)[Size(g.blocks) - p..]
  }

  // A read point with p bytes between it and the write pointer
  ghost predicate Behind(g: Ring, hb: nat, r: nat, p: nat) {
    && Shape(g) && p <= Size(g.blocks)
    && hb < |g.blocks| && r < |g.blocks[hb].data|
    && ReadPos(g.blocks, hb, r) == StartOf(g, p)
  }

  lemma BehindBounds(g: Ring, hb: nat, r: nat, p: nat)
    requires Behind(g, hb, r, p)
    ensures hb < |g.blocks| && r < |g.blocks[hb].data| && p <= Size(g.blocks)
  {
  }

  lemma LatestDrop(g: Ring, p: nat, n: nat)
    requires Shape(g) && n <= p <= Size(g.blocks)
    ensures Latest(g, p - n) == Latest(g, p)[n..]
  {
    hide Shape, Flat, History;
    assert Latest(g, p)[n..] == History(g)[Size(g.blocks) - p..][n..];
  }

  /** Reading forward inside a block yields the oldest of the p pending bytes. */
  lemma ReadForward(g: Ring, hb: nat, r: nat, p: nat, k: nat)
    requires Behind(g, hb, r, p)
    requires k <= p && r + k <= |g.blocks[hb].data|
    ensures g.blocks[hb].data[r..r + k] == Latest(g, p)[..k]
  {
    var f, w := Flat(g.blocks), WritePos(g);
    var a, b, c := Flat(g.blocks[..hb]), g.blocks[hb].data, Flat(g.blocks[hb + 1..]);
    assert f == a + b + c by { FlatSplit(g.blocks, hb); }
    Middle(a, b, c, r, k);
    RotateSuffix(f, w, p, |a| + r, k);
  }

  lemma Middle(a: seq<Byte>, b: seq<Byte>, c: seq<Byte>, r: nat, k: nat)
    requires r + k <= |b|
    ensures b[r..r + k] == (a + b + c)[|a| + r..|a| + r + k]
  {
  }

  lemma RotateSuffix(f: seq<Byte>, w: nat, p: nat, start: nat, k: nat)
    requires w < |f| && k <= p <= |f|
    requires start == if p <= w then w - p else w + |f| - p
    requires start + k <= |f|
    ensures Rotate(f, w)[|f| - p..][..k] == f[start..start + k]
  {
    if p <= w {
      assert Rotate(f, w)[|f| - p..] == f[start..w];
    } else {
      assert Rotate(f, w)[|f| - p..] == f[start..] + f[..w];
    }
  }

  /** Advancing the read point by k bytes, moving on at a block's end, leaves p - k pending. */
  lemma ReadAdvance(g: Ring, hb: nat, r: nat, p: nat, k: nat)
    requires Behind(g, hb, r, p)
    requires k <= p && r + k <= |g.blocks[hb].data|
    ensures r + k < |g.blocks[hb].data| ==> Behind(g, hb, r + k, p - k)
    ensures r + k == |g.blocks[hb].data| ==> Behind(g, Next(|g.blocks|, hb), 0, p - k)
  {
    var n := |g.blocks|;
    assert r + k < |g.blocks[hb].data| ==> ReadPos(g.blocks, hb, r + k) == StartOf(g, p) + k;
    if r + k == |g.blocks[hb].data| {
      if hb + 1 == n {
        LastOffset(g.blocks);
      } else {
        OffsetStep(g.blocks, hb + 1);
      }
    } else {
      assert ReadPos(g.blocks, hb, r + k) < Size(g.blocks);
    }
  }

  /** Buffering new bytes into free space leaves every pending byte in place. */
  lemma BufferKeepsPending(g: Ring, d: seq<Byte>, hb: nat, r: nat, p: nat)
    requires Behind(g, hb, r, p)
    requires p + |d| <= Size(g.blocks)
    ensures Behind(BufferData(g, d), hb, r, p + |d|)
    ensures Latest(BufferData(g, d), p + |d|) == Latest(g, p) + d
  {
    BufferKeepsReadPos(g, d, hb, r, p);
    LatestAppend(g, d, p);
  }

  lemma LatestAppend(g: Ring, d: seq<Byte>, p: nat)
    requires Shape(g) && p + |d| <= Size(g.blocks)
    ensures Shape(BufferData(g, d)) && Size(BufferData(g, d).blocks) == Size(g.blocks)
    ensures Latest(BufferData(g, d), p + |d|) == Latest(g, p) + d
  {
    BufferDataAppends(g, d);
    BufferDataShape(g, d);
    SizeSame(g.blocks, BufferData(g, d).blocks);
    DropTwice(History(g), d, p);
  }

  lemma DropTwice(h: seq<Byte>, d: seq<Byte>, p: nat)
    requires p + |d| <= |h|
    ensures (h + d)[|d|..][|h| - (p + |d|)..] == h[|h| - p..] + d
  {
  }

  lemma {:induction false} BufferKeepsReadPos(g: Ring, d: seq<Byte>, hb: nat, r: nat, p: nat)
    requires Behind(g, hb, r, p)
    requires p + |d| <= Size(g.blocks)
    ensures Behind(BufferData(g, d), hb, r, p + |d|)
    decreases |d|
  {
    if d != [] {
      var b := g.blocks[g.cur];
      var k := Min(|d|, |b.data| - b.w);
      ChunkKeepsReadPos(g, d[..k], hb, r, p);
      BufferKeepsReadPos(WriteChunk(g, d[..k]), d[k..], hb, r, p + k);
    }
  }

  lemma ChunkKeepsReadPos(g: Ring, d: seq<Byte>, hb: nat, r: nat, p: nat)
    requires Behind(g, hb, r, p)
    requires p + |d| <= Size(g.blocks)
    requires g.blocks[g.cur].w + |d| <= |g.blocks[g.cur].data|
    ensures Size(WriteChunk(g, d).blocks) == Size(g.blocks)
    ensures Behind(WriteChunk(g, d), hb, r, p + |d|)
  {
    var g1 := WriteChunk(g, d);
    WriteChunkShape(g, d);
    WriteChunkPos(g, d);
    SizeSame(g.blocks[..hb], g1.blocks[..hb]);
  }
}
