// The runner of the performance tests: the verify test first, then the timed
// loop twice.

module CompressPerfRunner {
  import opened Common
  import opened Burst
  import opened Mbuf
  import opened PrepareBufs
  import opened CompressRun
  import opened CompressEngine
  import opened CompressVerify
  import opened CompressPerf
  import opened Pacing
  import opened VerifyRunner

  // The timed loop in the compress direction on prepared chains.
  method CompressLoop(test: Test, o: Options, codec: Codec, qp: Device, numIter: nat)
    returns (res: int, exit: PerfExit, outSegSz: nat, ghost parts: seq<seq<Request>>)
    requires Accepted(o) && o.op != DecompressOnly && qp.queue == []
    modifies qp
    ensures BufSizeFor(o.segSz, outSegSz) && res == 0
    ensures exit ==
      if numIter == 0 || CompressedFit(codec, Chunks(o), o.segSz, outSegSz) then Finished else NotSuccessful
    ensures exit == Finished ==> qp.queue == []
    ensures Went(old(qp.History()), qp.History(), Joined(parts))
    ensures LoopRuns(parts, numIter, o.burstSz, |Chunks(o)|, test == CycleCount, exit == Finished)
    ensures exit == Finished ==> Moved(old(qp.History()), qp.History(), numIter * |Chunks(o)|)
  {
    hide Went;
    hide Moved;
    hide Joined;
    hide LoopRuns;
    hide Device.History;
    hide AllFit;
    hide CompressedFit;
    hide Prepared;
    hide Provided;
    hide Pieces;
    hide Chunks;
    hide Settled;
    var m := new MemResources(o);
    outSegSz := m.outSegSz;
    ChunksOf(m);
    var ok := m.PrepareCompress();
    ChunkedPrepared(m, Chunks(o));
    var pool, mem := NewOpPool(2 * m.totalBufs);
    var ins, outs := m.decompBufs[..], m.compBufs[..];
    ghost var p := CompressCall(pool, qp, codec, o.burstSz, outSegSz, ins, outs);
    FirstProvided(p, pool.free, mem, Chunks(o), o.segSz, outs);
    FirstCall(p, Chunks(o), o.segSz, outs);
    var outs';
    res, exit, outs', parts := CompressPerf.MainLoop(test, o.burstSz, numIter, Compress, codec, outSegSz, pool, qp,
                                                     mem, ins, outs, p);
  }

  // The runner in compress-only mode. The timed loops ignore operations that
  // were not successful, but behind a verify test that passed there are none,
  // as long as a codec gives the same result for the same data. On success the
  // chunks went through the device once in the verify test and, in each of the
  // two timed loops, once for every iteration.
  method PerfTest(test: Test, o: Options, codec: Codec, qp: Device, numIter: nat)
    returns (ret: ExitStatus, outSegSz: nat, warmUp: PerfExit, timed: PerfExit, ghost calls: seq<seq<Request>>,
             ghost first: seq<seq<Request>>, ghost second: seq<seq<Request>>)
    requires Accepted(o) && o.op == CompressOnly && qp.queue == []
    modifies qp
    ensures BufSizeFor(o.segSz, outSegSz)
    ensures ret == ExitSuccess <==> CompressedFit(codec, Chunks(o), o.segSz, outSegSz)
    ensures ret == ExitSuccess ==> warmUp == timed == Finished
    ensures ret == ExitSuccess ==>
      && Went(old(qp.History()), qp.History(), Joined(calls) + Joined(first) + Joined(second))
      && LoopRuns(calls, 1, o.burstSz, |Chunks(o)|, false, true)
      && LoopRuns(first, numIter, o.burstSz, |Chunks(o)|, test == CycleCount, true)
      && LoopRuns(second, numIter, o.burstSz, |Chunks(o)|, test == CycleCount, true)
      && Moved(old(qp.History()), qp.History(), |Chunks(o)| + numIter * |Chunks(o)| + numIter * |Chunks(o)|)
  {
    hide Went;
    hide Moved;
    hide Joined;
    hide LoopRuns;
    hide Device.History;
    hide CompressedFit;
    hide Chunks;
    hide BufSizeFor;
    hide Restored;
    hide RestoredFit;
    warmUp, timed, first, second := Finished, Finished, [], [];
    ghost var chunks, order, start := [], [], qp.History();
    ret, outSegSz, chunks, order, calls := VerifyTest(o, codec, qp);
    if ret != ExitSuccess {
      return;
    }
    var res, sz;
    ghost var verified := qp.History();
    res, warmUp, sz, first := CompressLoop(test, o, codec, qp, numIter);
    ghost var warm := qp.History();
    BufSizeUnique(o.segSz, outSegSz, sz);
    if res < 0 {
      ret := ExitFailure;
      return;
    }
    res, timed, sz, second := CompressLoop(test, o, codec, qp, numIter);
    BufSizeUnique(o.segSz, outSegSz, sz);
    if res < 0 {
      ret := ExitFailure;
      return;
    }
    WentOn(start, verified, warm, Joined(calls), Joined(first));
    WentOn(start, warm, qp.History(), Joined(calls) + Joined(first), Joined(second));
    MovedOn(start, verified, warm, |chunks|, numIter * |chunks|);
    MovedOn(start, warm, qp.History(), |chunks| + numIter * |chunks|, numIter * |chunks|);
  }

  // A codec whose compressed data is a hundred bytes longer.
  function Expand(xform: Xform, data: seq<Byte>): seq<Byte> {
    data + seq(100, _ => 0)
  }

  // Without the verify test before it, the loop reports success for an input of
  // eight bytes none of which was compressed.
  method Unnoticed(test: Test, data: seq<Byte>, burstSz: nat, numIter: nat, qp: Device)
    returns (o: Options, res: int, exit: PerfExit)
    requires |data| == 8 && 0 < burstSz <= UINT16_MAX && 0 < numIter && qp.queue == []
    modifies qp
    ensures o == Options(CompressOnly, data, 8, 1, burstSz) && Accepted(o)
    ensures res == 0 && exit == NotSuccessful
  {
    o := Options(CompressOnly, data, 8, 1, burstSz);
    var outSegSz;
    ghost var parts;
    res, exit, outSegSz, parts := CompressLoop(test, o, Expand, qp, numIter);
    ChunksAre(o);
    assert Chunks(o) == [data];
    assert Blocks(8, 8) == 1;
    assert |Expand(Compress, data)| == 108;
  }
}
