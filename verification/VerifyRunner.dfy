// The verify test end to end: preparing the buffers, compressing, decompressing
// and comparing with the input.

module VerifyRunner {
  import opened Common
  import opened Burst
  import opened Mbuf
  import opened PrepareBufs
  import opened CompressRun
  import opened CompressEngine
  import opened CompressVerify
  import opened Reorder
  import opened Pacing
  import CarryOver
  import CompletionOrders

  datatype ExitStatus = ExitSuccess | ExitFailure

  // The most a chain that carries `chunk` in segments of segSz can hold when
  // its segments have `room` bytes each.
  function ChainRoom(chunk: seq<Byte>, segSz: nat, room: nat): nat
    requires 0 < segSz
  {
    room * Blocks(|chunk|, segSz)
  }

  // What becomes of a chunk that is compressed and decompressed.
  function Back(codec: Codec, chunk: seq<Byte>): seq<Byte> {
    codec(Decompress, codec(Compress, chunk))
  }

  // Every compressed chunk fits the chain it is written to.
  ghost predicate CompressedFit(codec: Codec, chunks: seq<seq<Byte>>, segSz: nat, outSegSz: nat)
    requires 0 < segSz
  {
    forall b :: 0 <= b < |chunks| ==> |codec(Compress, chunks[b])| <= ChainRoom(chunks[b], segSz, outSegSz)
  }

  // Every restored chunk fits the chain it came from.
  ghost predicate RestoredFit(codec: Codec, chunks: seq<seq<Byte>>, segSz: nat)
    requires 0 < segSz
  {
    forall b :: 0 <= b < |chunks| ==> |Back(codec, chunks[b])| <= ChainRoom(chunks[b], segSz, segSz)
  }

  // What each chunk gives back: nothing if its restored form does not fit.
  function Parts(codec: Codec, chunks: seq<seq<Byte>>, segSz: nat): (r: seq<seq<Byte>>)
    requires 0 < segSz
    ensures |r| == |chunks|
  {
    seq(|chunks|, b requires 0 <= b < |chunks| =>
      if |Back(codec, chunks[b])| <= ChainRoom(chunks[b], segSz, segSz) then Back(codec, chunks[b]) else [])
  }

  // The restored chunks in the order the device finished them.
  function Restored(codec: Codec, chunks: seq<seq<Byte>>, segSz: nat, order: seq<nat>): seq<Byte>
    requires 0 < segSz
  {
    Picked(Parts(codec, chunks, segSz), order)
  }

  // Decompression undoes compression.
  ghost predicate Lossless(codec: Codec) {
    forall data :: Back(codec, data) == data
  }

  // The round trip: with a lossless codec every restored chunk fits, and in
  // submission order the restored chunks are the input.
  lemma RoundTrip(codec: Codec, input: seq<Byte>, n: nat, segSz: nat)
    requires Lossless(codec) && 0 < n && 0 < segSz
    ensures
      var chunks := Pieces(input, n);
      && RestoredFit(codec, chunks, segSz) && Parts(codec, chunks, segSz) == chunks
      && Restored(codec, chunks, segSz, Iota(0, |chunks|)) == input
  {
    var chunks := Pieces(input, n);
    forall b | 0 <= b < |chunks| ensures |Back(codec, chunks[b])| <= ChainRoom(chunks[b], segSz, segSz) {
      BlocksCover(|chunks[b]|, segSz);
    }
    assert Parts(codec, chunks, segSz) == chunks;
    InOrderPicks(chunks, 0);
    assert chunks[0..] == chunks;
    PiecesConcat(input, n);
  }

  lemma {:induction false} BlocksCover(a: nat, n: nat)
    requires 0 < n
    ensures a <= n * Blocks(a, n)
    decreases a
  {
    if a != 0 {
      BlocksCover(a - Min(a, n), n);
      Distribute(n, 1, Blocks(a - Min(a, n), n));
    }
  }

  // The chains the test starts from.
  ghost predicate Prepared(chunks: seq<seq<Byte>>, segSz: nat, outSegSz: nat, decomp: seq<Mbuf>, comp: seq<Mbuf>) {
    && 0 < segSz && 0 < outSegSz
    && |chunks| == |decomp| == |comp|
    && forall b :: 0 <= b < |chunks| ==>
      chunks[b] != [] && Carries(decomp[b], chunks[b], segSz) && Blank(comp[b], |decomp[b].segs|, outSegSz)
  }

  lemma PreparedChain(chunks: seq<seq<Byte>>, segSz: nat, outSegSz: nat, decomp: seq<Mbuf>, comp: seq<Mbuf>, b: nat)
    requires Prepared(chunks, segSz, outSegSz, decomp, comp) && b < |chunks|
    ensures Readable(decomp[b]) && Payload(decomp[b]) == chunks[b]
    ensures |decomp[b].segs| == |comp[b].segs| == Blocks(|chunks[b]|, segSz)
    ensures decomp[b].segs != [] && Uniform(decomp[b].segs, segSz) && Uniform(comp[b].segs, outSegSz)
  {
    CarriesPayload(decomp[b], chunks[b], segSz);
    PiecesShape(chunks[b], segSz);
    assert |SegData(decomp[b].segs)| == |decomp[b].segs|;
  }

  // The parameters of the two calls of main_loop.
  ghost function CompressCall(pool: OpPool, qp: Device, codec: Codec, burstSz: nat, outSegSz: nat,
                              decomp: seq<Mbuf>, comp: seq<Mbuf>): Params
    reads pool
  {
    Call(pool.free, qp.inOrder, Compress, codec, burstSz, outSegSz, decomp, comp)
  }

  // In the first call buffer b holds chunk b, and its result fits when the
  // compressed chunk does.
  lemma FirstCall(p: Params, chunks: seq<seq<Byte>>, segSz: nat, comp: seq<Mbuf>)
    requires p.xform == Compress && Prepared(chunks, segSz, p.room, p.ins, comp)
    requires p.c.total == |comp| && p.nbSegs == Engine.SegCounts(comp)
    ensures forall b :: 0 <= b < |chunks| ==>
      && Result(p, b) == p.codec(Compress, chunks[b])
      && (Fits(p, b) <==> |Result(p, b)| <= ChainRoom(chunks[b], segSz, p.room))
    ensures AllFit(p) <==> CompressedFit(p.codec, chunks, segSz, p.room)
  {
    forall b | 0 <= b < |chunks|
      ensures Result(p, b) == p.codec(Compress, chunks[b])
      ensures Fits(p, b) <==> |Result(p, b)| <= ChainRoom(chunks[b], segSz, p.room)
    {
      PreparedChain(chunks, segSz, p.room, p.ins, comp, b);
    }
  }

  // In the second call buffer b holds the compressed chunk b.
  lemma SecondCall(p: Params, p1: Params, chunks: seq<seq<Byte>>, segSz: nat, decomp: seq<Mbuf>, comp: seq<Mbuf>)
    requires p.xform == Decompress && p1.xform == Compress && p.codec == p1.codec && p.room == segSz
    requires Prepared(chunks, segSz, p1.room, decomp, comp) && p1.ins == decomp
    requires p1.c.total == |comp| && p1.nbSegs == Engine.SegCounts(comp)
    requires |p.ins| == |comp| && forall b :: 0 <= b < |comp| ==> Settled(p1, p.ins, b)
    requires p.c.total == |decomp| && p.nbSegs == Engine.SegCounts(decomp)
    ensures forall b :: 0 <= b < |chunks| ==> Result(p, b) == Back(p.codec, chunks[b])
    ensures forall b :: 0 <= b < |chunks| ==> Piece(p, b) == Parts(p.codec, chunks, segSz)[b]
    ensures AllFit(p) <==> RestoredFit(p.codec, chunks, segSz)
  {
    FirstCall(p1, chunks, segSz, comp);
    forall b | 0 <= b < |chunks|
      ensures Result(p, b) == Back(p.codec, chunks[b])
      ensures Fits(p, b) <==> |Back(p.codec, chunks[b])| <= ChainRoom(chunks[b], segSz, segSz)
    {
      PreparedChain(chunks, segSz, p1.room, decomp, comp, b);
      assert Settled(p1, p.ins, b);
    }
  }

  lemma {:induction false} GatherPicks(p: Params, parts: seq<seq<Byte>>, order: seq<nat>)
    requires forall b :: 0 <= b < |parts| ==> Piece(p, b) == parts[b]
    requires forall b :: b in order ==> b < |parts|
    ensures Gather(p, order) == Picked(parts, order)
  {
    hide Piece;
    if order != [] {
      assert order[0] in order;
      assert forall b :: b in order[1..] ==> b in order;
      GatherPicks(p, parts, order[1..]);
    }
  }

  // Every piece of the output, from that of buffer a on, is no longer than the
  // chain of its chunk.
  ghost predicate WithinChains(p: Params, chunks: seq<seq<Byte>>, segSz: nat, a: nat)
    requires 0 < segSz
  {
    forall i :: 0 <= i < |chunks| ==> |Piece(p, a + i)| <= ChainRoom(chunks[i], segSz, p.room)
  }

  // The compressed output never exceeds outSegSz bytes for every segment.
  lemma {:induction false} GatherRoom(p: Params, data: seq<Byte>, n: nat, m: nat, segSz: nat, a: nat)
    requires 0 < n == m * segSz && 0 < segSz
    requires WithinChains(p, Pieces(data, n), segSz, a)
    ensures |Gather(p, Iota(a, |Pieces(data, n)|))| <= p.room * Blocks(|data|, segSz)
    decreases |data|
  {
    hide Piece;
    hide Blocks;
    var chunks := Pieces(data, n);
    assert |Piece(p, a + 0)| <= ChainRoom(chunks[0], segSz, p.room);
    if |data| <= n {
      assert Iota(a, 1)[1..] == [];
    } else {
      var rest := Pieces(data[n..], n);
      WithinRest(p, chunks, rest, segSz, a);
      GatherRoom(p, data[n..], n, m, segSz, a + 1);
      assert Iota(a, |chunks|)[1..] == Iota(a + 1, |rest|);
      BlocksSplit(|data|, n, m, segSz);
      Distribute(p.room, Blocks(n, segSz), Blocks(|data| - n, segSz));
    }
  }

  lemma Distribute(k: nat, a: nat, b: nat)
    ensures k * (a + b) == k * a + k * b
  {}

  lemma WithinRest(p: Params, chunks: seq<seq<Byte>>, rest: seq<seq<Byte>>, segSz: nat, a: nat)
    requires 0 < segSz && chunks != [] && chunks[1..] == rest && WithinChains(p, chunks, segSz, a)
    ensures WithinChains(p, rest, segSz, a + 1)
  {
    forall i | 0 <= i < |rest| ensures |Piece(p, a + 1 + i)| <= ChainRoom(rest[i], segSz, p.room) {
      assert chunks[i + 1] == rest[i] && |Piece(p, a + (i + 1))| <= ChainRoom(chunks[i + 1], segSz, p.room);
    }
  }

  lemma {:induction false} BlocksSplit(a: nat, k: nat, m: nat, n: nat)
    requires 0 < n && k == m * n <= a
    ensures Blocks(a, n) == Blocks(k, n) + Blocks(a - k, n)
    decreases m
  {
    if m != 0 {
      assert k == n + (m - 1) * n;
      BlocksSplit(a - n, k - n, m - 1, n);
    }
  }

  lemma FirstProvided(p: Params, free: seq<Op>, mem: seq<CompOp>, chunks: seq<seq<Byte>>, segSz: nat, comp: seq<Mbuf>)
    requires Prepared(chunks, segSz, p.room, p.ins, comp)
    requires NoDuplicates(free) && |comp| <= |free| && forall h :: h in free ==> h < |mem|
    ensures Provided(p, free, mem, comp) && |p.ins| == |comp| == |chunks|
  {
    forall b | 0 <= b < |comp|
      ensures Readable(p.ins[b]) && comp[b].segs != [] && Uniform(comp[b].segs, p.room)
    {
      PreparedChain(chunks, segSz, p.room, p.ins, comp, b);
    }
  }

  // Between the calls the operations are all back in the pool and the
  // compressed chains can be read.
  lemma SecondProvided(p: Params, p1: Params, free0: seq<Op>, free: seq<Op>, mem: seq<CompOp>,
                       chunks: seq<seq<Byte>>, decomp: seq<Mbuf>, comp: seq<Mbuf>)
    requires Prepared(chunks, p.room, p1.room, decomp, comp)
    requires |p.ins| == |comp| && forall b :: 0 <= b < |comp| ==> Settled(p1, p.ins, b)
    requires NoDuplicates(free0) && |decomp| <= |free0| && multiset(free) == multiset(free0)
    requires forall h :: h in free ==> h < |mem|
    ensures Provided(p, free, mem, decomp)
  {
    DistinctFree(free0);
    CarryOver.CountedOnce(free);
    assert |free| == |multiset(free)| == |multiset(free0)| == |free0|;
    forall b | 0 <= b < |comp|
      ensures Readable(p.ins[b]) && decomp[b].segs != [] && Uniform(decomp[b].segs, p.room)
    {
      assert Settled(p1, p.ins, b);
      PreparedChain(chunks, p.room, p1.room, decomp, comp, b);
    }
  }

  lemma OrderInRange(order: seq<nat>, n: nat)
    requires multiset(order) == multiset(Iota(0, n))
    ensures forall b :: b in order ==> b < n
  {
    CarryOver.IotaOnce(0, n);
    forall b | b in order ensures b < n {
      assert b in multiset(order);
    }
  }

  // In submission order, or when the parts commute, the restored chunks are
  // the parts one after the other.
  lemma OrderIndifferent(codec: Codec, chunks: seq<seq<Byte>>, segSz: nat, order: seq<nat>)
    requires 0 < segSz && multiset(order) == multiset(Iota(0, |chunks|))
    requires order == Iota(0, |chunks|) || Commute(Parts(codec, chunks, segSz))
    ensures Restored(codec, chunks, segSz, order) == Concat(Parts(codec, chunks, segSz))
  {
    hide Commute;
    hide Parts;
    var parts := Parts(codec, chunks, segSz);
    if order == Iota(0, |chunks|) {
      InOrderPicks(parts, 0);
      assert parts[0..] == parts;
    } else {
      AnyOrderRestores(parts, order);
    }
  }

  // cperf_verify_test_runner when the test compresses, for any codec and any
  // device. Only what the decompressed chunks add up to is asked for: their
  // buffer has the size of the input. The order of completion matters only if
  // the device does not keep order and the parts do not commute. calls[i] is
  // what the device was asked for in the i-th call of main_loop.
  method Runner(o: Options, outSegSz: nat, codec: Codec, pool: OpPool, qp: Device, mem: seq<CompOp>,
                decomp: seq<Mbuf>, comp: seq<Mbuf>, compressed: array<Byte>, decompressed: array<Byte>,
                ghost chunks: seq<seq<Byte>>)
    returns (ret: ExitStatus, ghost order: seq<nat>, ghost calls: seq<seq<Request>>)
    requires o.op != DecompressOnly && Prepared(chunks, o.segSz, outSegSz, decomp, comp) && qp.queue == []
    requires NoDuplicates(pool.free) && |comp| <= |pool.free| && forall h :: h in pool.free ==> h < |mem|
    requires |Gather(CompressCall(pool, qp, codec, o.burstSz, outSegSz, decomp, comp), Iota(0, |comp|))|
      <= compressed.Length
    requires decompressed.Length == |o.input|
    requires o.op == CompressDecompress && CompressedFit(codec, chunks, o.segSz, outSegSz) ==>
      |Restored(codec, chunks, o.segSz, Iota(0, |chunks|))| <= |o.input|
    modifies pool, qp, compressed, decompressed
    ensures ret == ExitSuccess <==>
      && 0 < o.burstSz && CompressedFit(codec, chunks, o.segSz, outSegSz)
      && (o.op == CompressDecompress ==>
           RestoredFit(codec, chunks, o.segSz) && Restored(codec, chunks, o.segSz, order) == o.input)
    ensures
      && 0 < o.burstSz && o.op == CompressDecompress
      && CompressedFit(codec, chunks, o.segSz, outSegSz) && RestoredFit(codec, chunks, o.segSz)
      ==>
      && multiset(order) == multiset(Iota(0, |chunks|)) && (qp.inOrder ==> order == Iota(0, |chunks|))
      && (qp.inOrder || Commute(Parts(codec, chunks, o.segSz)) ==>
           Restored(codec, chunks, o.segSz, order) == Concat(Parts(codec, chunks, o.segSz)))
    ensures ret == ExitSuccess ==> qp.queue == []
    ensures Went(old(qp.History()), qp.History(), Joined(calls))
    ensures |calls| <= 2 && LoopRuns(calls, |calls|, o.burstSz, |chunks|, false, ret == ExitSuccess)
    ensures ret == ExitSuccess ==> |calls| == if o.op == CompressOnly then 1 else 2
  {
    hide Went;
    hide Joined;
    hide LoopRuns;
    hide LoopPaced;
    hide LoopComplete;
    hide Device.History;
    hide Commute;
    hide Parts;
    hide Concat;
    hide Piece;
    hide AllFit;
    hide CompressedFit;
    hide RestoredFit;
    hide Prepared;
    hide Picked;
    hide Gather;
    hide Iota;
    hide Fits;
    hide Settled;
    order, calls := [], [];
    ghost var start, n := qp.History(), |chunks|;
    NothingJoined(start);
    NoLoopRuns(o.burstSz, n, false);
    ghost var p1 := CompressCall(pool, qp, codec, o.burstSz, outSegSz, decomp, comp);
    FirstProvided(p1, pool.free, mem, chunks, o.segSz, comp);
    FirstCall(p1, chunks, o.segSz, comp);
    assert |comp| == n;
    var exit, compSz, mem1, comp1, order1, rs :=
      MainLoop(o.burstSz, Compress, codec, outSegSz, pool, qp, mem, decomp, comp, compressed, p1);
    NextLoopRun(calls, 0, o.burstSz, n, false, rs);
    WentOn(start, start, qp.History(), Joined(calls), rs);
    calls := calls + [rs];
    if exit != Completed {
      return ExitFailure, order, calls;
    }
    if o.op == CompressOnly {
      return ExitSuccess, order, calls;
    }
    ghost var h := qp.History();
    ghost var p2 := Call(pool.free, qp.inOrder, Decompress, codec, o.burstSz, o.segSz, comp1, decomp);
    SecondProvided(p2, p1, old(pool.free), pool.free, mem1, chunks, decomp, comp);
    SecondCall(p2, p1, chunks, o.segSz, decomp, comp);
    OrderInRange(Iota(0, |chunks|), |chunks|);
    GatherPicks(p2, Parts(codec, chunks, o.segSz), Iota(0, |chunks|));
    var decompSz, mem2, decomp2;
    exit, decompSz, mem2, decomp2, order, rs :=
      MainLoop(o.burstSz, Decompress, codec, o.segSz, pool, qp, mem1, comp1, decomp, decompressed, p2);
    NextLoopRun(calls, 1, o.burstSz, n, false, rs);
    WentOn(start, h, qp.History(), Joined(calls), rs);
    calls := calls + [rs];
    if exit != Completed {
      return ExitFailure, order, calls;
    }
    OrderInRange(order, |chunks|);
    GatherPicks(p2, Parts(codec, chunks, o.segSz), order);
    if qp.inOrder || Commute(Parts(codec, chunks, o.segSz)) {
      OrderIndifferent(codec, chunks, o.segSz, order);
    }
    NotAllRun(calls, 2, o.burstSz, n, false);
    if decompSz != |o.input| {
      return ExitFailure, order, calls;
    }
    ret := if decompressed[..decompSz] == o.input then ExitSuccess else ExitFailure;
  }

  // An operation fresh from rte_comp_op_pool_create.
  const BLANK_OP := CompOp(0, 0, 0, Compress, NotProcessed, 0)

  // The operation pool of comp_perf_allocate_memory.
  method NewOpPool(n: nat) returns (pool: OpPool, mem: seq<CompOp>)
    ensures fresh(pool) && NoDuplicates(pool.free) && |pool.free| == n && forall h :: h in pool.free ==> h < |mem|
  {
    var ops := seq<Op>(n, i => i);
    pool := new OpPool(ops);
    mem := seq(n, _ => BLANK_OP);
  }

  lemma ChunkedPrepared(m: MemResources, chunks: seq<seq<Byte>>)
    requires m.Valid() && m.o.op != DecompressOnly
    requires chunks == Pieces(m.o.input, m.chunkSz) && |chunks| == m.totalBufs && m.Chunked(chunks)
    ensures Prepared(chunks, m.o.segSz, m.outSegSz, m.decompBufs[..], m.compBufs[..])
  {
    PiecesShape(m.o.input, m.chunkSz);
  }

  lemma CompressedRoom(p: Params, m: MemResources, chunks: seq<seq<Byte>>)
    requires m.Valid() && m.o.op != DecompressOnly && chunks == Pieces(m.o.input, m.chunkSz)
    requires p.xform == Compress && p.room == m.outSegSz && Prepared(chunks, m.o.segSz, p.room, p.ins, m.compBufs[..])
    requires p.c.total == |chunks| && p.nbSegs == Engine.SegCounts(m.compBufs[..])
    ensures |Gather(p, Iota(0, |chunks|))| <= m.outSegSz * m.totalSegs
  {
    FirstCall(p, chunks, m.o.segSz, m.compBufs[..]);
    forall i | 0 <= i < |chunks| ensures |Piece(p, 0 + i)| <= ChainRoom(chunks[i], m.o.segSz, p.room) {
      assert Fits(p, i) ==> |Result(p, i)| <= ChainRoom(chunks[i], m.o.segSz, p.room);
    }
    GatherRoom(p, m.o.input, m.chunkSz, m.o.maxSglSegs, m.o.segSz, 0);
  }

  // The input as prepare_bufs cuts it into chains.
  function Chunks(o: Options): (c: seq<seq<Byte>>)
    requires Accepted(o)
    ensures Concat(c) == o.input
  {
    MulLe(o.segSz, 1, o.maxSglSegs);
    PiecesConcat(o.input, o.maxSglSegs * o.segSz);
    Pieces(o.input, o.maxSglSegs * o.segSz)
  }

  lemma ChunksOf(m: MemResources)
    requires m.Valid()
    ensures Chunks(m.o) == Pieces(m.o.input, m.chunkSz)
  {}

  // The verify test on any input: allocate, cut the input into chains, run.
  // Every chunk is finished once, in some order. With a lossless codec, if the
  // device keeps order or the chunks commute (a single one does), the test
  // succeeds exactly when every compressed chunk fits its chain. calls[i] is
  // what the device was asked for in the i-th call of main_loop; a test that
  // succeeds has put every chunk through the device in each of them.
  method VerifyTest(o: Options, codec: Codec, qp: Device)
    returns (ret: ExitStatus, outSegSz: nat, ghost chunks: seq<seq<Byte>>, ghost order: seq<nat>,
             ghost calls: seq<seq<Request>>)
    requires Accepted(o) && o.op != DecompressOnly && qp.queue == []
    requires o.op == CompressDecompress ==>
      forall outSz :: BufSizeFor(o.segSz, outSz) && CompressedFit(codec, Chunks(o), o.segSz, outSz) ==>
        |Restored(codec, Chunks(o), o.segSz, Iota(0, |Chunks(o)|))| <= |o.input|
    modifies qp
    ensures BufSizeFor(o.segSz, outSegSz) && chunks == Chunks(o)
    ensures o.op == CompressOnly ==>
      (ret == ExitSuccess <==> CompressedFit(codec, chunks, o.segSz, outSegSz))
    ensures o.op == CompressDecompress ==>
      (ret == ExitSuccess <==>
        && CompressedFit(codec, chunks, o.segSz, outSegSz) && RestoredFit(codec, chunks, o.segSz)
        && Restored(codec, chunks, o.segSz, order) == o.input)
    ensures
      && o.op == CompressDecompress && CompressedFit(codec, chunks, o.segSz, outSegSz)
      && RestoredFit(codec, chunks, o.segSz)
      ==>
      && multiset(order) == multiset(Iota(0, |chunks|)) && (qp.inOrder ==> order == Iota(0, |chunks|))
      && (qp.inOrder || Commute(Parts(codec, chunks, o.segSz)) ==>
           (ret == ExitSuccess <==> Concat(Parts(codec, chunks, o.segSz)) == o.input))
    ensures Lossless(codec) && (qp.inOrder || Commute(chunks)) ==>
      (ret == ExitSuccess <==> CompressedFit(codec, chunks, o.segSz, outSegSz))
    ensures ret == ExitSuccess ==> qp.queue == []
    ensures Went(old(qp.History()), qp.History(), Joined(calls))
    ensures |calls| <= 2 && LoopRuns(calls, |calls|, o.burstSz, |chunks|, false, ret == ExitSuccess)
    ensures ret == ExitSuccess ==>
      && |calls| == (if o.op == CompressOnly then 1 else 2)
      && Moved(old(qp.History()), qp.History(), |calls| * |chunks|)
  {
    hide Went;
    hide Moved;
    hide Joined;
    hide LoopRuns;
    hide Device.History;
    hide Parts;
    hide Commute;
    hide Picked;
    hide Gather;
    hide CompressedFit;
    hide RestoredFit;
    hide Restored;
    hide Prepared;
    hide Pieces;
    hide Chunks;
    hide Concat;
    hide Iota;
    hide Lossless;
    var m := new MemResources(o);
    outSegSz := m.outSegSz;
    ChunksOf(m);
    chunks := Chunks(o);
    var ok := m.PrepareCompress();
    ChunkedPrepared(m, chunks);
    var pool, mem := NewOpPool(2 * m.totalBufs);
    var compressed := new Byte[Max(m.outSegSz * m.totalSegs, MIN_COMPRESSED_BUF_SIZE)];
    var decompressed := new Byte[|o.input|];
    CompressedRoom(CompressCall(pool, qp, codec, o.burstSz, outSegSz, m.decompBufs[..], m.compBufs[..]), m, chunks);
    ret, order, calls := Runner(o, outSegSz, codec, pool, qp, mem, m.decompBufs[..], m.compBufs[..], compressed,
                                decompressed, chunks);
    if ret == ExitSuccess {
      AllLoopRuns(calls, |calls|, o.burstSz, |chunks|, false);
      WentMoved(old(qp.History()), qp.History(), Joined(calls), |calls| * |chunks|);
    }
    if Lossless(codec) {
      RoundTrip(codec, o.input, m.chunkSz, o.segSz);
    }
  }

  // When a device that does not keep order gives back the input: whatever the
  // order in which it completes the operations, exactly when the chunks commute.
  lemma RoundTripCondition(o: Options, codec: Codec, c: CarryOver.Config, start: CarryOver.State)
    requires Accepted(o) && Lossless(codec)
    requires CompletionOrders.IsStart(c, start) && c.total == |Chunks(o)|
    ensures
      (forall run, order :: CompletionOrders.Completes(c, start, run, order) ==>
         Restored(codec, Chunks(o), o.segSz, order) == o.input)
      <==> c.inOrder || Commute(Chunks(o))
  {
    hide Commute;
    hide Lossless;
    hide CompletionOrders.IsStart;
    hide CompletionOrders.Completes;
    hide Picked;
    var chunks := Chunks(o);
    ChunksAre(o);
    RoundTrip(codec, o.input, o.maxSglSegs * o.segSz, o.segSz);
    CompletionOrders.RunsAlike(c, start, chunks);
    assert forall order :: Restored(codec, chunks, o.segSz, order) == Picked(chunks, order);
  }

  lemma ChunksAre(o: Options)
    requires Accepted(o)
    ensures 0 < o.maxSglSegs * o.segSz && Chunks(o) == Pieces(o.input, o.maxSglSegs * o.segSz)
    ensures Concat(Chunks(o)) == o.input
  {
    MulLe(o.segSz, 1, o.maxSglSegs);
  }

  // Sixteen bytes that the test cuts into two chunks of eight.
  function TwoChunks(a: Byte, b: Byte, burstSz: nat): Options {
    Options(CompressDecompress, Eight(a) + Eight(b), 8, 1, burstSz)
  }

  function Eight(a: Byte): (s: seq<Byte>)
    ensures |s| == 8
  {
    [a, a, a, a, a, a, a, a]
  }

  lemma ChunksOfTwo(a: Byte, b: Byte, burstSz: nat)
    requires 0 < burstSz <= UINT16_MAX
    ensures Accepted(TwoChunks(a, b, burstSz)) && Chunks(TwoChunks(a, b, burstSz)) == [Eight(a), Eight(b)]
  {
    hide Eight;
    var o := TwoChunks(a, b, burstSz);
    ChunksAre(o);
    assert o.input[..8] == Eight(a) && o.input[8..] == Eight(b);
    assert Pieces(Eight(b), 8) == [Eight(b)];
  }

  // So the round trip can fail: on such an input there is a run that completes
  // the second chunk first and leaves something other than the input.
  lemma OrderMatters(codec: Codec, a: Byte, b: Byte, burstSz: nat)
    returns (c: CarryOver.Config, start: CarryOver.State, run: seq<CarryOver.State>)
    requires Lossless(codec) && a != b && 0 < burstSz <= UINT16_MAX
    ensures
      var o := TwoChunks(a, b, burstSz);
      && Accepted(o) && c.total == |Chunks(o)| && CompletionOrders.Completes(c, start, run, [1, 0])
      && Restored(codec, Chunks(o), o.segSz, [1, 0]) != o.input
  {
    hide Lossless;
    hide Eight;
    hide Picked;
    hide CompletionOrders.Completes;
    hide CompletionOrders.IsStart;
    ChunksOfTwo(a, b, burstSz);
    RoundTrip(codec, TwoChunks(a, b, burstSz).input, 8, 8);
    c, start := CompletionOrders.FreshStart(2, burstSz);
    Swapped();
    run := CompletionOrders.AnyOrder(c, start, [1, 0]);
    PicksSwapped(Eight(a), Eight(b));
    EightsDiffer(a, b);
  }

  lemma Swapped()
    ensures multiset([1, 0]) == multiset(Iota(0, 2))
  {
    assert Iota(0, 2) == [0] + Iota(1, 1) == [0, 1];
  }

  lemma PicksSwapped(x: seq<Byte>, y: seq<Byte>)
    ensures Picked([x, y], [1, 0]) == y + x
  {
    TwoFirst([x, y], 1, 0, []);
    assert [1, 0] + [] == [1, 0];
  }

  lemma EightsDiffer(a: Byte, b: Byte)
    requires a != b
    ensures Eight(b) + Eight(a) != Eight(a) + Eight(b)
  {
    assert (Eight(b) + Eight(a))[0] == b && (Eight(a) + Eight(b))[0] == a;
  }

  // In decompress-only mode the one chain holds all of the input, and what it
  // decompresses to fits decompressed_data.
  lemma OnlyCall(p: Params, o: Options, decomp: Mbuf, comp: Mbuf)
    requires 0 < p.room && 0 < o.maxSglSegs
    requires Carries(comp, o.input, o.segSz) && Blank(decomp, o.maxSglSegs, p.room)
    requires p.ins == [comp] && p.nbSegs == Engine.SegCounts([decomp]) && p.c.total == 1
    ensures Readable(comp) && Result(p, 0) == p.codec(p.xform, o.input)
    ensures AllFit(p) <==> |p.codec(p.xform, o.input)| <= p.room * o.maxSglSegs
    ensures Gather(p, Iota(0, 1)) == Gather(p, [0]) == if AllFit(p) then Result(p, 0) else []
  {
    CarriesPayload(comp, o.input, o.segSz);
    assert AllFit(p) <==> Fits(p, 0);
    assert Iota(0, 1) == [0] && [0][1..] == [];
  }

  // The verify test in decompress-only mode, which compares nothing: it
  // succeeds exactly when the output fits, and then leaves it in
  // decompressed_data.
  method DecompressOnlyTest(o: Options, codec: Codec, qp: Device)
    returns (ret: ExitStatus, outSegSz: nat, decompressed: array<Byte>, decompSz: nat, ghost rs: seq<Request>)
    requires Accepted(o) && o.op == DecompressOnly && qp.queue == []
    modifies qp
    ensures BufSizeFor(o.segSz, outSegSz)
    ensures ret == ExitSuccess <==> |codec(Decompress, o.input)| <= outSegSz * o.maxSglSegs
    ensures ret == ExitSuccess ==>
      decompSz <= decompressed.Length && decompressed[..decompSz] == codec(Decompress, o.input)
    ensures Went(old(qp.History()), qp.History(), rs) && LoopPaced(rs, o.burstSz, 1, false)
    ensures ret == ExitSuccess ==> LoopComplete(rs, o.burstSz, 1, false)
  {
    hide Went;
    hide LoopPaced;
    hide LoopComplete;
    hide Device.History;
    hide AllFit;
    hide Gather;
    hide Iota;
    hide Carries;
    hide Settled;
    var m := new MemResources(o);
    outSegSz := m.outSegSz;
    var ok := m.PrepareDecompressOnly();
    var pool, mem := NewOpPool(2 * m.totalBufs);
    decompressed := new Byte[Max(m.outSegSz * m.totalSegs, MIN_COMPRESSED_BUF_SIZE)];
    var ins, outs := [m.compBufs[0]], [m.decompBufs[0]];
    ghost var p := Call(pool.free, qp.inOrder, Decompress, codec, o.burstSz, outSegSz, ins, outs);
    OnlyCall(p, o, outs[0], ins[0]);
    var exit, mem', outs';
    ghost var order;
    exit, decompSz, mem', outs', order, rs :=
      MainLoop(o.burstSz, Decompress, codec, outSegSz, pool, qp, mem, ins, outs, decompressed, p);
    if exit != Completed {
      return ExitFailure, outSegSz, decompressed, decompSz, rs;
    }
    OnlyOrder(order);
    ret := ExitSuccess;
  }

  lemma OnlyOrder(order: seq<nat>)
    requires multiset(order) == multiset(Iota(0, 1))
    ensures order == [0]
  {
    assert Iota(0, 1) == [0];
    assert |order| == |multiset(order)| == 1;
    assert order[0] in multiset(order);
  }
}
