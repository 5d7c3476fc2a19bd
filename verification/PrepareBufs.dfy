// Sizes and buffers of the compression benchmark: how many segments and chains
// the input needs, and how prepare_bufs cuts the input into them.

module PrepareBufs {
  import opened Common
  import opened Mbuf

  const MIN_COMPRESSED_BUF_SIZE: nat := 8
  const RTE_PKTMBUF_HEADROOM: nat := 128
  const UINT16_MAX: nat := 0xFFFF
  const MAX_SEG_SIZE: nat := (UINT16_MAX - RTE_PKTMBUF_HEADROOM) * 10 / 11

  datatype Operation = CompressOnly | DecompressOnly | CompressDecompress

  datatype Options = Options(op: Operation, input: seq<Byte>, segSz: nat, maxSglSegs: nat, burstSz: nat)

  // What option parsing and loading of the input file guarantee.
  ghost predicate Accepted(o: Options) {
    && o.input != []
    && MIN_COMPRESSED_BUF_SIZE <= o.segSz <= MAX_SEG_SIZE
    && 0 < o.maxSglSegs <= UINT16_MAX
    && 0 < o.burstSz <= UINT16_MAX
    && (o.op == DecompressOnly ==> |o.input| <= o.segSz * o.maxSglSegs)
  }

  // Testing the one bit of i.
  function BitAt(size: nat, i: nat): nat
    requires 0 < i
  {
    size / i % 2
  }

  lemma TopBit(size: nat, i: nat)
    requires 0 < i && size < 2 * i
    ensures BitAt(size, i) == if size < i then 0 else 1
  {
    if size < i {
      DivUnique(size, i, 0, size);
    } else {
      DivUnique(size, i, 1, size - i);
    }
  }

  // The size of an output segment for a segment size n: the power of two just
  // above n, or 1.1 times n when that power would not fit 16 bits.
  ghost predicate BufSizeFor(n: nat, r: nat) {
    if n == 0 then r == MIN_COMPRESSED_BUF_SIZE
    else if n < 0x8000 then n < r <= 2 * n && exists k: nat :: r == Pow2(k)
    else r == n * 11 / 10
  }

  lemma {:induction false} Pow2Doubles(j: nat, k: nat)
    requires j < k
    ensures 2 * Pow2(j) <= Pow2(k)
  {
    if j + 1 < k {
      Pow2Doubles(j, k - 1);
    }
  }

  // There is only one such size.
  lemma BufSizeUnique(n: nat, r: nat, s: nat)
    requires BufSizeFor(n, r) && BufSizeFor(n, s)
    ensures r == s
  {
    if 0 < n < 0x8000 {
      var j: nat :| r == Pow2(j);
      var k: nat :| s == Pow2(k);
      if j < k {
        Pow2Doubles(j, k);
      } else if k < j {
        Pow2Doubles(k, j);
      }
    }
  }

  // find_buf_size. The result holds the segment and leaves room for the
  // headroom in 16 bits.
  method FindBufSize(inputSize: nat) returns (r: nat)
    requires inputSize <= MAX_SEG_SIZE
    ensures BufSizeFor(inputSize, r)
    ensures inputSize <= r && r + RTE_PKTMBUF_HEADROOM <= UINT16_MAX
  {
    hide BitAt;
    hide Pow2;
    var size := if inputSize == 0 then MIN_COMPRESSED_BUF_SIZE else inputSize * 2;
    var i := UINT16_MAX + 1;
    ghost var k: nat := 16;
    SmallPowers();
    TopBit(size, i);
    while BitAt(size, i) == 0
      invariant k <= 16 && i == Pow2(k)
      invariant if k == 16 then i == 0x10000 else i <= 0x8000
      invariant size < 2 * i && (BitAt(size, i) == 0 <==> size < i)
      decreases i
    {
      HalfPower(k, size);
      i := i / 2;
      k := k - 1;
      TopBit(size, i);
    }
    r := if i > (UINT16_MAX + 1) / 2 then inputSize * 11 / 10 else i;
    SizeFound(inputSize, size, k);
  }

  lemma SmallPowers()
    ensures Pow2(3) == 8 && Pow2(16) == 0x10000
  {
    assert Pow2(4) == 16 && Pow2(8) == 0x100 && Pow2(12) == 0x1000;
  }

  lemma HalfPower(k: nat, size: nat)
    requires 0 < size < Pow2(k) <= 0x10000
    ensures 0 < k && Pow2(k) == 2 * Pow2(k - 1) && Pow2(k) / 2 == Pow2(k - 1)
  {}

  lemma SizeFound(inputSize: nat, size: nat, k: nat)
    requires inputSize <= MAX_SEG_SIZE && size == if inputSize == 0 then MIN_COMPRESSED_BUF_SIZE else inputSize * 2
    requires Pow2(k) <= size < 2 * Pow2(k) && if k == 16 then Pow2(k) == 0x10000 else k < 16 && Pow2(k) <= 0x8000
    ensures
      var r := if Pow2(k) > (UINT16_MAX + 1) / 2 then inputSize * 11 / 10 else Pow2(k);
      BufSizeFor(inputSize, r) && inputSize <= r && r + RTE_PKTMBUF_HEADROOM <= UINT16_MAX
  {
    hide Pow2;
    SmallPowers();
    if inputSize == 0 {
      PowerOfEight(k);
    }
  }

  lemma PowerOfEight(k: nat)
    requires Pow2(k) <= 8 < 2 * Pow2(k)
    ensures Pow2(k) == 8
  {
    SmallPowers();
    if k < 3 {
      Pow2Doubles(k, 3);
    } else if 3 < k {
      Pow2Doubles(3, k);
    }
  }

  // Cutting data into pieces of n bytes, the last one possibly shorter.
  function Pieces(data: seq<Byte>, n: nat): (p: seq<seq<Byte>>)
    requires 0 < n
    ensures p != []
    decreases |data|
  {
    if |data| <= n then [data] else [data[..n]] + Pieces(data[n..], n)
  }

  function Concat(p: seq<seq<Byte>>): seq<Byte> {
    if p == [] then [] else p[0] + Concat(p[1..])
  }

  lemma {:induction false} PiecesConcat(data: seq<Byte>, n: nat)
    requires 0 < n
    ensures Concat(Pieces(data, n)) == data
    decreases |data|
  {
    if |data| <= n {
      assert Pieces(data, n)[1..] == [];
    } else {
      PiecesConcat(data[n..], n);
      assert Pieces(data, n)[1..] == Pieces(data[n..], n);
    }
  }

  // All pieces but the last are full, and there are as few as can be.
  lemma {:induction false} PiecesShape(data: seq<Byte>, n: nat)
    requires 0 < n && data != []
    ensures |Pieces(data, n)| == Blocks(|data|, n)
    ensures forall i :: 0 <= i < |Pieces(data, n)| ==> 0 < |Pieces(data, n)[i]| <= n
    ensures forall i :: 0 <= i < |Pieces(data, n)| - 1 ==> |Pieces(data, n)[i]| == n
    decreases |data|
  {
    if n < |data| {
      PiecesShape(data[n..], n);
    }
  }

  // The data of each segment of a chain.
  function SegData(segs: seq<Seg>): (d: seq<seq<Byte>>)
    ensures |d| == |segs|
  {
    if segs == [] then [] else [segs[0].bytes[..segs[0].len]] + SegData(segs[1..])
  }

  lemma {:induction false} SegDataAppend(segs: seq<Seg>, s: Seg)
    ensures SegData(segs + [s]) == SegData(segs) + [s.bytes[..s.len]]
  {
    if segs == [] {
      assert segs + [s] == [s] && [s][1..] == [];
    } else {
      assert (segs + [s])[1..] == segs[1..] + [s];
      SegDataAppend(segs[1..], s);
    }
  }

  lemma {:induction false} FlatIsConcat(segs: seq<Seg>)
    ensures Flat(segs) == Concat(SegData(segs))
  {
    if segs != [] {
      FlatIsConcat(segs[1..]);
      assert SegData(segs)[1..] == SegData(segs[1..]);
    }
  }

  // A chain that carries `chunk` cut into segments of segSz bytes.
  ghost predicate Carries(m: Mbuf, chunk: seq<Byte>, segSz: nat) {
    && 0 < segSz
    && m.pktLen == |chunk|
    && SegData(m.segs) == Pieces(chunk, segSz)
    && Uniform(m.segs, segSz)
  }

  lemma CarriesPayload(m: Mbuf, chunk: seq<Byte>, segSz: nat)
    requires Carries(m, chunk, segSz)
    ensures Readable(m) && Payload(m) == chunk
  {
    FlatIsConcat(m.segs);
    PiecesConcat(chunk, segSz);
  }

  // An empty chain of n segments, every data length up to the end of its storage.
  ghost predicate Blank(m: Mbuf, n: nat, room: nat) {
    |m.segs| == n && Uniform(m.segs, room) && Full(m.segs) && m.pktLen == n * room
  }

  // A fresh segment after rte_pktmbuf_append of data.
  function NewSeg(room: nat, data: seq<Byte>): (s: Seg)
    requires |data| <= room
    ensures |s.bytes| == room && s.len == |data| && s.bytes[..s.len] == data
  {
    Segment(data + seq(room - |data|, _ => 0), |data|)
  }

  function Chain(m: Mbuf, s: Seg): Mbuf {
    Mbuf(m.segs + [s], m.pktLen + s.len)
  }

  // The pieces still to come once p bytes of the data are cut.
  function Rest(data: seq<Byte>, p: nat, n: nat): seq<seq<Byte>>
    requires 0 < n && p <= |data|
  {
    if p == |data| then [] else Pieces(data[p..], n)
  }

  lemma RestAll(data: seq<Byte>, n: nat)
    requires 0 < n && data != []
    ensures Rest(data, 0, n) == Pieces(data, n) && Rest(data, |data|, n) == []
  {
    assert data[0..] == data;
  }

  lemma BlocksNone(a: nat, n: nat)
    requires 0 < n && Blocks(a, n) == 0
    ensures a == 0
  {}

  lemma BlocksSome(a: nat, n: nat)
    requires 0 < n
    ensures 0 < Blocks(a, n) <==> 0 < a
  {}

  lemma RestStep(data: seq<Byte>, p: nat, n: nat)
    requires 0 < n && p < |data|
    ensures
      var q := p + Min(|data| - p, n);
      Rest(data, p, n) == [data[p..q]] + Rest(data, q, n)
  {
    if n < |data| - p {
      assert data[p..][..n] == data[p..p + n];
      assert data[p..][n..] == data[p + n..];
    } else {
      assert data[p..] == data[p..|data|];
    }
  }

  lemma ChunkStep(chunks: seq<seq<Byte>>, data: seq<Byte>, pos: nat, n: nat)
    requires 0 < n && pos < |data|
    requires chunks + Rest(data, pos, n) == Pieces(data, n)
    ensures
      var next := pos + Min(|data| - pos, n);
      chunks + [data[pos..next]] + Rest(data, next, n) == Pieces(data, n)
  {
    var next := pos + Min(|data| - pos, n);
    RestStep(data, pos, n);
    ConcatAssociates(chunks, [data[pos..next]], Rest(data, next, n));
  }

  // A chain under construction that is to carry `chunk`: p bytes are in, and
  // the segments so far are full unless the data has run out.
  ghost predicate Filling(m: Mbuf, chunk: seq<Byte>, p: nat, segSz: nat) {
    && 0 < segSz && p <= |chunk|
    && m.pktLen == p
    && Uniform(m.segs, segSz)
    && SegData(m.segs) + Rest(chunk, p, segSz) == Pieces(chunk, segSz)
  }

  lemma FillingStep(m: Mbuf, chunk: seq<Byte>, p: nat, s: Seg, segSz: nat)
    requires 0 < segSz && p < |chunk|
    requires (m == Mbuf([], 0) && p == 0) || Filling(m, chunk, p, segSz)
    requires s.len == Min(|chunk| - p, segSz) && |s.bytes| == segSz
    requires s.bytes[..s.len] == chunk[p..p + s.len]
    ensures Filling(Chain(m, s), chunk, p + s.len, segSz)
  {
    SegDataAppend(m.segs, s);
    ChunkStep(SegData(m.segs), chunk, p, segSz);
  }

  // An mbuf pool, of which only the number of free segments matters. With
  // external buffers the next memory zone index is the number already taken.
  class SegPool {
    var free: nat

    constructor (n: nat)
      ensures free == n
    {
      free := n;
    }
  }

  // Allocate a segment, append the next piece of the input, chain it.
  method AddSegment(bufs: array<Mbuf>, i: nat, pool: SegPool, input: seq<Byte>, next: nat, segSz: nat,
                    ghost chunk: seq<Byte>, ghost p: nat)
    returns (ok: bool, dataSz: nat)
    requires i < bufs.Length && 0 < segSz && 0 < pool.free
    requires next < |input| && p < |chunk| && Min(|input| - next, segSz) == Min(|chunk| - p, segSz)
    requires chunk[p..] <= input[next..]
    requires (bufs[i] == Mbuf([], 0) && p == 0) || Filling(bufs[i], chunk, p, segSz)
    modifies bufs, pool
    ensures ok
    ensures forall j :: 0 <= j < bufs.Length && j != i ==> bufs[j] == old(bufs[j])
    ensures pool.free == old(pool.free) - 1
    ensures dataSz == Min(|input| - next, segSz) && p + dataSz <= |chunk|
    ensures |bufs[i].segs| == |old(bufs[i].segs)| + 1
    ensures Filling(bufs[i], chunk, p + dataSz, segSz)
  {
    dataSz := Min(|input| - next, segSz);
    if pool.free == 0 {
      return false, dataSz;
    }
    pool.free := pool.free - 1;
    var seg := NewSeg(segSz, input[next..next + dataSz]);
    assert seg.bytes[..seg.len] == input[next..][..seg.len] == chunk[p..][..seg.len] == chunk[p..p + seg.len];
    FillingStep(bufs[i], chunk, p, seg, segSz);
    bufs[i] := Chain(bufs[i], seg);
    ok := true;
  }

  // How much of `total` bytes goes into at most `bound` segments.
  function TakeLength(total: nat, bound: nat, segSz: nat): (r: nat)
    ensures r <= total
  {
    if bound == 0 then 0
    else Min(total, segSz) + TakeLength(total - Min(total, segSz), bound - 1, segSz)
  }

  lemma {:induction false} TakeLengthBound(total: nat, bound: nat, segSz: nat)
    ensures TakeLength(total, bound, segSz) == Min(total, bound * segSz)
  {
    if bound != 0 {
      assert bound * segSz == segSz + (bound - 1) * segSz;
      TakeLengthBound(total - Min(total, segSz), bound - 1, segSz);
    }
  }

  lemma TakeStep(total: nat, bound: nat, segSz: nat)
    requires 0 < total && 0 < bound && 0 < segSz
    ensures Blocks(total, segSz) == Blocks(total - Min(total, segSz), segSz) + 1
    ensures
      TakeLength(total, bound, segSz) == Min(total, segSz) + TakeLength(total - Min(total, segSz), bound - 1, segSz)
  {}

  lemma TakeEnds(total: nat, bound: nat, segSz: nat)
    requires (total == 0 || bound == 0) && 0 < segSz
    ensures TakeLength(total, bound, segSz) == 0
    ensures Blocks(total, segSz) == 0 <==> total == 0
  {
    TakeLengthBound(total, bound, segSz);
  }

  // A chain of at most `bound` segments filled from the input at `pos`: the
  // decomp side when compressing, the comp side in decompress-only mode.
  method FillChain(bufs: array<Mbuf>, i: nat, pool: SegPool, input: seq<Byte>, pos: nat, bound: nat, segSz: nat)
    returns (ok: bool, next: nat, segsPerMbuf: nat)
    requires i < bufs.Length && pos < |input| && 0 < bound && 0 < segSz
    requires Min(bound, Blocks(|input| - pos, segSz)) <= pool.free
    modifies bufs, pool
    ensures ok
    ensures forall j :: 0 <= j < bufs.Length && j != i ==> bufs[j] == old(bufs[j])
    ensures next == pos + TakeLength(|input| - pos, bound, segSz) <= |input|
    ensures segsPerMbuf == |bufs[i].segs| == Min(bound, Blocks(|input| - pos, segSz))
    ensures pool.free + segsPerMbuf == old(pool.free)
    ensures Carries(bufs[i], input[pos..next], segSz)
    ensures Blocks(|input| - next, segSz) + segsPerMbuf == Blocks(|input| - pos, segSz)
  {
    hide Filling;
    hide Carries;
    hide Blocks;
    hide TakeLength;
    ghost var size := TakeLength(|input| - pos, bound, segSz);
    ghost var chunk := input[pos..pos + size];
    next, segsPerMbuf, ok := pos, 0, true;
    bufs[i] := Mbuf([], 0);
    while segsPerMbuf < bound && next < |input|
      invariant ok
      invariant segsPerMbuf == |bufs[i].segs| <= bound
      invariant pos <= next <= |input|
      invariant next - pos + TakeLength(|input| - next, bound - segsPerMbuf, segSz) == size
      invariant forall j :: 0 <= j < bufs.Length && j != i ==> bufs[j] == old(bufs[j])
      invariant pool.free + segsPerMbuf == old(pool.free)
      invariant Blocks(|input| - next, segSz) + segsPerMbuf == Blocks(|input| - pos, segSz)
      invariant if next == pos then bufs[i] == Mbuf([], 0) else Filling(bufs[i], chunk, next - pos, segSz)
      decreases bound - segsPerMbuf
    {
      TakeStep(|input| - next, bound - segsPerMbuf, segSz);
      var dataSz;
      ok, dataSz := AddSegment(bufs, i, pool, input, next, segSz, chunk, next - pos);
      if !ok {
        return;
      }
      next, segsPerMbuf := next + dataSz, segsPerMbuf + 1;
    }
    TakeEnds(|input| - next, bound - segsPerMbuf, segSz);
    FilledCarries(bufs[i], chunk, segSz);
  }

  lemma FilledCarries(m: Mbuf, chunk: seq<Byte>, segSz: nat)
    requires Filling(m, chunk, |chunk|, segSz)
    ensures Carries(m, chunk, segSz)
  {}

  // A chain of n segments with room appended but no data written: the output
  // side when compressing, the decomp side in decompress-only mode.
  method BlankChain(bufs: array<Mbuf>, i: nat, pool: SegPool, n: nat, room: nat) returns (ok: bool)
    requires i < bufs.Length && n <= pool.free
    modifies bufs, pool
    ensures ok
    ensures forall j :: 0 <= j < bufs.Length && j != i ==> bufs[j] == old(bufs[j])
    ensures Blank(bufs[i], n, room)
    ensures pool.free + n == old(pool.free)
  {
    bufs[i] := Mbuf([], 0);
    for k := 0 to n
      invariant forall j :: 0 <= j < bufs.Length && j != i ==> bufs[j] == old(bufs[j])
      invariant Blank(bufs[i], k, room)
      invariant pool.free + k == old(pool.free)
    {
      if pool.free == 0 {
        return false;
      }
      pool.free := pool.free - 1;
      bufs[i] := Chain(bufs[i], NewSeg(room, seq(room, _ => 0)));
    }
    ok := true;
  }

  class MemResources {
    const o: Options
    const outSegSz: nat
    const totalSegs: nat
    const totalBufs: nat
    // The most input one chain carries.
    ghost const chunkSz: nat
    const decompBufs: array<Mbuf>
    const compBufs: array<Mbuf>
    const decompPool: SegPool
    const compPool: SegPool

    ghost predicate Valid() {
      && Accepted(o)
      && o.segSz <= outSegSz && BufSizeFor(o.segSz, outSegSz)
      && 0 < chunkSz == o.maxSglSegs * o.segSz
      && totalSegs == (if o.op == DecompressOnly then o.maxSglSegs else Blocks(|o.input|, o.segSz))
      && totalBufs == Blocks(totalSegs, o.maxSglSegs)
      && decompBufs != compBufs && decompPool != compPool
      && decompBufs.Length == compBufs.Length == totalBufs
    }

    // comp_perf_allocate_memory: each pool holds exactly totalSegs segments.
    constructor (options: Options)
      requires Accepted(options)
      ensures o == options && Valid()
      ensures fresh(decompBufs) && fresh(compBufs) && fresh(decompPool) && fresh(compPool)
      ensures decompPool.free == compPool.free == totalSegs
    {
      var outSz := FindBufSize(options.segSz);
      var segs := if options.op == DecompressOnly then options.maxSglSegs
                  else DivCeil(|options.input|, options.segSz);
      DivCeilCountsBlocks(|options.input|, options.segSz);
      var bufs := DivCeil(segs, options.maxSglSegs);
      DivCeilCountsBlocks(segs, options.maxSglSegs);
      MulLe(options.segSz, 1, options.maxSglSegs);
      o, outSegSz, totalSegs, totalBufs := options, outSz, segs, bufs;
      chunkSz := options.maxSglSegs * options.segSz;
      decompBufs, compBufs := new Mbuf[bufs], new Mbuf[bufs];
      decompPool := new SegPool(segs);
      compPool := new SegPool(segs);
    }

    ghost predicate Chunked(chunks: seq<seq<Byte>>)
      reads decompBufs, compBufs
    {
      && |chunks| <= decompBufs.Length && |chunks| <= compBufs.Length
      && forall b :: 0 <= b < |chunks| ==>
        Carries(decompBufs[b], chunks[b], o.segSz) && Blank(compBufs[b], |decompBufs[b].segs|, outSegSz)
    }

    // One round of the loop of prepare_bufs when the test compresses.
    method PrepareChain(i: nat, pos: nat) returns (ok: bool, next: nat)
      requires Valid() && o.op != DecompressOnly && i < totalBufs && pos < |o.input|
      requires decompPool.free == compPool.free == Blocks(|o.input| - pos, o.segSz)
      modifies decompBufs, compBufs, decompPool, compPool
      ensures ok
      ensures next == pos + Min(|o.input| - pos, chunkSz)
      ensures Carries(decompBufs[i], o.input[pos..next], o.segSz)
      ensures Blank(compBufs[i], |decompBufs[i].segs|, outSegSz)
      ensures forall j :: 0 <= j < totalBufs && j != i ==>
        decompBufs[j] == old(decompBufs[j]) && compBufs[j] == old(compBufs[j])
      ensures decompPool.free == compPool.free == Blocks(|o.input| - next, o.segSz)
      ensures Blocks(decompPool.free, o.maxSglSegs) + 1 == Blocks(old(decompPool.free), o.maxSglSegs)
    {
      TakeLengthBound(|o.input| - pos, o.maxSglSegs, o.segSz);
      var segsPerMbuf;
      ok, next, segsPerMbuf := FillChain(decompBufs, i, decompPool, o.input, pos, o.maxSglSegs, o.segSz);
      if !ok {
        return;
      }
      ok := BlankChain(compBufs, i, compPool, segsPerMbuf, outSegSz);
    }

    // prepare_bufs when the test compresses: the chains carry the input cut
    // into chunks, no pool runs dry, and both pools end up exactly used.
    method PrepareCompress() returns (ok: bool)
      requires Valid() && o.op != DecompressOnly
      requires decompPool.free == compPool.free == totalSegs
      modifies decompBufs, compBufs, decompPool, compPool
      ensures ok
      ensures decompPool.free == compPool.free == 0
      ensures |Pieces(o.input, chunkSz)| == totalBufs && Chunked(Pieces(o.input, chunkSz))
    {
      hide Carries;
      hide Blank;
      hide Pieces;
      hide Rest;
      hide Blocks;
      var i, pos := 0, 0;
      ghost var chunks := [];
      RestAll(o.input, chunkSz);
      while i < totalBufs
        invariant i <= totalBufs && pos <= |o.input|
        invariant i == |chunks| && Chunked(chunks)
        invariant chunks + Rest(o.input, pos, chunkSz) == Pieces(o.input, chunkSz)
        invariant decompPool.free == compPool.free == Blocks(|o.input| - pos, o.segSz)
        invariant totalBufs - i == Blocks(decompPool.free, o.maxSglSegs)
      {
        var next;
        BlocksSome(decompPool.free, o.maxSglSegs);
        BlocksSome(|o.input| - pos, o.segSz);
        ok, next := PrepareChain(i, pos);
        if !ok {
          return;
        }
        ChunkStep(chunks, o.input, pos, chunkSz);
        chunks := chunks + [o.input[pos..next]];
        i, pos := i + 1, next;
      }
      BlocksNone(decompPool.free, o.maxSglSegs);
      BlocksNone(|o.input| - pos, o.segSz);
      ok := true;
    }

    // prepare_bufs in decompress-only mode: one chain, which holds all of the
    // compressed input, and an output chain of maxSglSegs segments.
    method PrepareDecompressOnly() returns (ok: bool)
      requires Valid() && o.op == DecompressOnly
      requires decompPool.free == compPool.free == totalSegs
      modifies decompBufs, compBufs, decompPool, compPool
      ensures ok && totalBufs == 1
      ensures Carries(compBufs[0], o.input, o.segSz)
      ensures Blank(decompBufs[0], o.maxSglSegs, outSegSz)
    {
      var i, pos := 0, 0;
      assert Blocks(totalSegs, o.maxSglSegs) == 1;
      while i < totalBufs
        invariant i <= totalBufs && pos <= |o.input|
        invariant i == 0 ==> pos == 0 && decompPool.free == compPool.free == totalSegs
        invariant i == 1 ==>
          Carries(compBufs[0], o.input, o.segSz) && Blank(decompBufs[0], o.maxSglSegs, outSegSz)
      {
        ok := BlankChain(decompBufs, i, decompPool, o.maxSglSegs, outSegSz);
        if !ok {
          return;
        }
        TakeLengthBound(|o.input| - pos, o.maxSglSegs, o.segSz);
        BlocksBound(|o.input|, o.maxSglSegs, o.segSz);
        var next, segsPerMbuf;
        ok, next, segsPerMbuf := FillChain(compBufs, i, compPool, o.input, pos, o.maxSglSegs, o.segSz);
        if !ok {
          return;
        }
        assert o.input[pos..next] == o.input;
        i, pos := i + 1, next;
      }
      ok := true;
    }
  }

  lemma {:induction false} BlocksBound(total: nat, bound: nat, segSz: nat)
    requires 0 < segSz && total <= segSz * bound
    ensures Blocks(total, segSz) <= bound
  {
    if 0 < total {
      assert bound != 0;
      assert segSz * bound == segSz + segSz * (bound - 1);
      BlocksBound(total - Min(total, segSz), bound - 1, segSz);
    }
  }
}
