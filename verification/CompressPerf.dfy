// The throughput and cycle-count tests: the same burst loop run several times
// over, with statuses checked and lengths settled in the last iteration only.

module CompressPerf {
  import opened Common
  import opened Burst
  import opened Pacing
  import opened Mbuf
  import opened CarryOver
  import opened CompressRun
  import opened CompressEngine
  import opened CompressVerify

  datatype Test = Throughput | CycleCount

  datatype PerfExit = Finished | NoBurstSize | AllocFailed | NotSuccessful

  // Both tests report failure only for what goes wrong before an operation
  // runs: an operation that was not successful ends the loop with 0.
  function ReturnCode(exit: PerfExit): int {
    if exit == NoBurstSize || exit == AllocFailed then -1 else 0
  }

  // Where deq_ops starts in ops[], and the length of the array.
  function DeqBase(test: Test, totalBufs: nat, burstSz: nat): nat {
    if test == Throughput then totalBufs else burstSz
  }

  function OpsLength(test: Test, totalBufs: nat, burstSz: nat): nat {
    if test == Throughput then 2 * totalBufs else burstSz + totalBufs
  }

  method CheckStatuses(deqOps: seq<Op>, mem: seq<CompOp>) returns (ok: bool)
    requires forall i :: 0 <= i < |deqOps| ==> deqOps[i] < |mem|
    ensures ok == AllSuccess(mem, deqOps)
  {
    for i := 0 to |deqOps|
      invariant forall j :: 0 <= j < i ==> mem[deqOps[j]].status == Success
    {
      if mem[deqOps[i]].status != Success {
        return false;
      }
    }
    ok := true;
  }

  // An operation that failed is for a buffer whose result does not fit.
  lemma FailedBuffer(p: Params, r: Run)
    requires RunInv(p, r)
    ensures forall i :: 0 <= i < |r.s.deq| ==> r.s.deq[i] < |r.mem|
    ensures !AllSuccess(r.mem, r.s.deq) ==> !AllFit(p)
  {
    hide RunInv;
    hide Ran;
    hide Fits;
    forall i | 0 <= i < |r.s.deq| ensures r.s.deq[i] < |r.mem| {
      RunBuffer(p, r, i);
    }
    if !AllSuccess(r.mem, r.s.deq) {
      var i :| 0 <= i < |r.s.deq| && r.mem[r.s.deq[i]].status != Success;
      RunBuffer(p, r, i);
    }
  }

  // Dequeueing a burst and recycling it.
  method Round(e: Engine, limit: nat) returns (exit: PerfExit, ghost d: nat)
    requires e.Valid()
    modifies e`mem, e`outs, e`totalDeqOps, e`outstanding, e`completed, e.qp, e.ops, e.pool
    ensures exit == Finished || (exit == NotSuccessful && e.lastIter && !AllFit(e.P()))
    ensures exit == Finished ==> e.Valid()
    ensures old(e.totalDeqOps) <= e.totalDeqOps && e.qp.stalls <= old(e.qp.stalls)
    ensures e.totalDeqOps == old(e.totalDeqOps) && 0 < Min(limit, old(|e.qp.queue|)) ==> e.qp.stalls < old(e.qp.stalls)
    ensures e.totalDeqOps == old(e.totalDeqOps) + d && d <= old(|e.qp.queue|)
    ensures Went(old(e.qp.History()), e.qp.History(), [Deq(limit, d)])
  {
    hide Went;
    hide Device.History;
    hide RunInv;
    hide AllFit;
    hide AllSuccess;
    hide Bufs;
    hide Dsts;
    hide Iota;
    hide Engine.InOrder;
    var numDeq := e.Dequeue(limit);
    d := numDeq;
    if e.lastIter {
      FailedBuffer(e.P(), e.R(e.Held(), e.Dequeued(numDeq)));
      var ok := CheckStatuses(e.ops[e.deqBase..e.deqBase + numDeq], e.mem);
      if !ok {
        exit := NotSuccessful;
        return;
      }
    }
    e.Finish(numDeq);
    exit := Finished;
  }

  // Between two iterations everything is in the pool.
  ghost predicate Idle(e: Engine)
    reads e, e.pool, e.qp
  {
    && e.Laid() && Sound(e.P().c) && Sized(e.P(), e.R([], []))
    && multiset(e.pool.free) == e.all && e.qp.queue == [] && e.outstanding == 0
  }

  // The loop head.
  ghost predicate Going(e: Engine, p: Params)
    reads e, e.pool, e.qp, e.ops
  {
    e.Valid() && e.P() == p
  }

  // One round of the first loop.
  method Step(e: Engine, test: Test, ghost p: Params)
    returns (exit: PerfExit, ghost n: nat, ghost k: nat, ghost limit: nat, ghost d: nat)
    requires Going(e, p) && 0 < e.remainingOps
    modifies e, e.qp, e.ops, e.pool
    ensures e.P() == p
    ensures exit == Finished || (exit == NotSuccessful && p.settle && !AllFit(p))
    ensures exit == Finished ==> Going(e, p)
    ensures e.remainingOps + k == old(e.remainingOps) && n == Min(e.burstSz, old(e.remainingOps))
    ensures e.totalEnqOps == old(e.totalEnqOps) + k && e.totalDeqOps == old(e.totalDeqOps) + d
    ensures limit == Limit(test == CycleCount, old(e.totalEnqOps) + n - old(e.totalDeqOps), e.burstSz)
    ensures Went(old(e.qp.History()), e.qp.History(), [Enq(n, k)] + [Deq(limit, d)])
    ensures e.qp.stalls <= old(e.qp.stalls) && (k == 0 ==> e.qp.stalls < old(e.qp.stalls))
  {
    hide Went;
    hide Device.History;
    hide RunInv;
    hide AllFit;
    hide Engine.Held;
    ghost var h := e.qp.History();
    n, k, limit, d := 0, 0, 0, 0;
    var numOps, ok := e.Feed();
    if !ok {
      exit := AllocFailed;
      return;
    }
    n, k := numOps, e.numEnq;
    ghost var h' := e.qp.History();
    EngineProgress(e);
    limit := Limit(test == CycleCount, e.outstanding, e.burstSz);
    exit, d := Round(e, Limit(test == CycleCount, e.outstanding, e.burstSz));
    WentOn(h, h', e.qp.History(), [Enq(n, k)], [Deq(limit, d)]);
  }

  // One round of the second loop.
  method Last(e: Engine, ghost p: Params) returns (exit: PerfExit, ghost d: nat)
    requires Going(e, p) && e.remainingOps == 0 && e.totalDeqOps < e.totalOps
    modifies e, e.qp, e.ops, e.pool
    ensures e.P() == p
    ensures exit == Finished || (exit == NotSuccessful && p.settle && !AllFit(p))
    ensures exit == Finished ==> Going(e, p) && e.remainingOps == 0
    ensures e.totalDeqOps == old(e.totalDeqOps) + d <= e.totalOps
    ensures Went(old(e.qp.History()), e.qp.History(), [Deq(e.burstSz, d)])
    ensures e.qp.stalls <= old(e.qp.stalls) && (d == 0 ==> e.qp.stalls < old(e.qp.stalls))
  {
    hide Went;
    hide Device.History;
    hide RunInv;
    hide AllFit;
    hide Engine.Held;
    EngineProgress(e);
    exit, d := Round(e, e.burstSz);
  }

  // The first loop of an iteration: enqueue until nothing remains.
  method EnqueueAll(e: Engine, test: Test, ghost p: Params, ghost start: Past)
    returns (exit: PerfExit, ghost rs: seq<Request>)
    requires Going(e, p) && LoopStep(start, e.qp.History(), [], e.burstSz, e.totalOps, test == CycleCount, 0, 0)
    requires e.totalEnqOps == e.totalDeqOps == 0
    modifies e, e.qp, e.ops, e.pool
    ensures e.P() == p
    ensures exit == Finished || (exit == NotSuccessful && p.settle && !AllFit(p))
    ensures exit == Finished ==> Going(e, p) && e.remainingOps == 0 && e.totalEnqOps == e.totalOps
    ensures
      LoopStep(start, e.qp.History(), rs, e.burstSz, e.totalOps, test == CycleCount, e.totalEnqOps, e.totalDeqOps)
  {
    hide Went;
    hide LoopStep;
    hide Limit;
    hide Device.History;
    hide AllFit;
    hide Engine.Valid;
    hide Engine.P;
    hide Taken;
    hide Given;
    ghost var burst, total, cycle := e.burstSz, e.totalOps, test == CycleCount;
    rs := [];
    EngineProgress(e);
    while 0 < e.remainingOps
      invariant Going(e, p) && e.totalEnqOps + e.remainingOps == total
      invariant LoopStep(start, e.qp.History(), rs, burst, total, cycle, e.totalEnqOps, e.totalDeqOps)
      decreases e.remainingOps, e.qp.stalls
    {
      ghost var h, taken, given, n, k, limit, d := e.qp.History(), e.totalEnqOps, e.totalDeqOps, 0, 0, 0, 0;
      exit, n, k, limit, d := Step(e, test, p);
      LoopRound(start, h, e.qp.History(), rs, burst, total, cycle, taken, given, n, k, limit, d);
      rs := rs + ([Enq(n, k)] + [Deq(limit, d)]);
      if exit != Finished {
        return;
      }
    }
    exit := Finished;
  }

  // The second loop: dequeue what is still in the device.
  method DequeueAll(e: Engine, ghost p: Params, ghost start: Past, ghost before: seq<Request>, ghost cycle: bool)
    returns (exit: PerfExit, ghost rs: seq<Request>)
    requires Going(e, p) && e.remainingOps == 0 && e.totalDeqOps <= e.totalOps
    requires LoopStep(start, e.qp.History(), before, e.burstSz, e.totalOps, cycle, e.totalOps, e.totalDeqOps)
    modifies e, e.qp, e.ops, e.pool
    ensures e.P() == p
    ensures exit == Finished || (exit == NotSuccessful && p.settle && !AllFit(p))
    ensures exit == Finished ==> Going(e, p) && e.remainingOps == 0 && e.totalDeqOps == e.totalOps
    ensures LoopStep(start, e.qp.History(), rs, e.burstSz, e.totalOps, cycle, e.totalOps, e.totalDeqOps)
  {
    hide Went;
    hide LoopStep;
    hide Device.History;
    hide AllFit;
    hide Engine.Valid;
    hide Engine.P;
    hide Taken;
    hide Given;
    ghost var burst, total := e.burstSz, e.totalOps;
    rs := before;
    while e.totalDeqOps < e.totalOps
      invariant Going(e, p) && e.remainingOps == 0 && e.totalDeqOps <= e.totalOps
      invariant LoopStep(start, e.qp.History(), rs, burst, total, cycle, total, e.totalDeqOps)
      decreases e.totalOps - e.totalDeqOps, e.qp.stalls
    {
      ghost var h, given, d := e.qp.History(), e.totalDeqOps, 0;
      exit, d := Last(e, p);
      LoopDrain(start, h, e.qp.History(), rs, burst, total, cycle, given, d);
      rs := rs + [Deq(burst, d)];
      if exit != Finished {
        return;
      }
    }
    exit := Finished;
  }

  // One iteration: when it ends normally, every buffer was submitted once, in
  // order, nothing is outstanding, and the pool is as it was. Only the last
  // iteration minds whether the operations succeeded. `rs` is what the device
  // was asked for: as many operations as there are buffers went through it.
  method Iteration(e: Engine, test: Test, last: bool) returns (exit: PerfExit, ghost rs: seq<Request>)
    requires Idle(e)
    modifies e, e.qp, e.ops, e.pool
    ensures e.P() == old(e.P()).(settle := last)
    ensures exit == Finished || (exit == NotSuccessful && last && !AllFit(e.P()))
    ensures exit == Finished ==> Idle(e)
    ensures exit == Finished ==> e.submitted == Iota(0, e.totalOps)
    ensures exit == Finished ==> multiset(e.completed) == multiset(Iota(0, e.totalOps))
    ensures exit == Finished && last ==> forall b :: 0 <= b < e.totalOps ==> Settled(e.P(), e.outs, b)
    ensures
      Went(old(e.qp.History()), e.qp.History(), rs) && LoopPaced(rs, e.burstSz, e.totalOps, test == CycleCount)
    ensures exit == Finished ==> LoopComplete(rs, e.burstSz, e.totalOps, test == CycleCount)
  {
    hide Went;
    hide LoopStep;
    hide LoopPaced;
    hide LoopComplete;
    hide Device.History;
    hide RunInv;
    hide AllFit;
    hide Sized;
    hide Settled;
    hide Iota;
    hide Going;
    ghost var start, burst, total, cycle := e.qp.History(), e.burstSz, e.totalOps, test == CycleCount;
    StartsLoop(start, burst, total, cycle);
    e.Start(last);
    ghost var p := e.P();
    IsGoing(e, p);
    exit, rs := EnqueueAll(e, test, p, start);
    LoopIs(start, e.qp.History(), rs, burst, total, cycle, e.totalEnqOps, e.totalDeqOps);
    if exit != Finished {
      return;
    }
    GoingIs(e, p);
    EngineProgress(e);
    exit, rs := DequeueAll(e, p, start, rs, cycle);
    LoopIs(start, e.qp.History(), rs, burst, total, cycle, total, e.totalDeqOps);
    if exit == Finished {
      GoingIs(e, p);
      AllDone(e);
    }
  }

  lemma IsGoing(e: Engine, p: Params)
    requires e.Valid() && e.P() == p
    ensures Going(e, p)
  {}

  lemma GoingIs(e: Engine, p: Params)
    requires Going(e, p)
    ensures e.Valid() && e.P() == p
  {}

  lemma AllDone(e: Engine)
    requires e.Valid() && e.remainingOps == 0 && e.totalDeqOps == e.totalOps
    ensures Idle(e) && e.submitted == Iota(0, e.totalOps)
    ensures multiset(e.completed) == multiset(Iota(0, e.totalOps))
    ensures e.lastIter ==> forall b :: 0 <= b < e.totalOps ==> Settled(e.P(), e.outs, b)
  {
    hide RunInv;
    hide Sized;
    hide Settled;
    hide Iota;
    IterationOver(e.P(), e.R(e.Held(), []), e.R([], []));
  }

  lemma IterationOver(p: Params, r: Run, idle: Run)
    requires RunInv(p, r) && r.s.deq == [] && r.s.remaining == 0 && r.s.dequeued == p.c.total
    requires idle == r.(s := r.s.(held := []))
    ensures r.s.outstanding == 0 && r.s.queue == [] && r.s.held == [] && r.s.enqueued == p.c.total
    ensures multiset(r.s.free) == p.c.all && multiset(r.s.completed) == multiset(Iota(0, p.c.total))
    ensures p.settle ==> forall b :: 0 <= b < p.c.total ==> Settled(p, r.outs, b)
    ensures Sound(p.c) && Sized(p, idle)
  {
    hide RunInv;
    hide Iota;
    hide Settled;
    RunEnd(p, r);
    RunLog(p, r);
    RunSized(p, r);
    SizedStays(p, r, p, idle);
  }

  lemma RunSized(p: Params, r: Run)
    requires RunInv(p, r)
    ensures Sound(p.c) && Sized(p, r)
  {}

  lemma SameFit(p: Params, q: Params)
    requires q == p.(settle := q.settle)
    ensures AllFit(p) <==> AllFit(q)
  {
    assert forall b :: Fits(p, b) <==> Fits(q, b);
  }

  // The loop over the iterations. parts[i] is what the device was asked for in
  // iteration i.
  method Repeat(e: Engine, test: Test, numIter: nat, ghost p: Params)
    returns (exit: PerfExit, ghost parts: seq<seq<Request>>)
    requires Idle(e) && e.P() == p.(settle := e.lastIter)
    modifies e, e.qp, e.ops, e.pool
    ensures exit == if numIter == 0 || AllFit(p) then Finished else NotSuccessful
    ensures exit == Finished ==> Idle(e)
    ensures exit == Finished && 0 < numIter ==> forall b :: 0 <= b < e.totalOps ==> Settled(p, e.outs, b)
    ensures Went(old(e.qp.History()), e.qp.History(), Joined(parts))
    ensures LoopRuns(parts, numIter, e.burstSz, e.totalOps, test == CycleCount, exit == Finished)
  {
    hide Went;
    hide Joined;
    hide LoopRuns;
    hide LoopPaced;
    hide LoopComplete;
    hide Device.History;
    hide AllFit;
    hide Settled;
    hide Idle;
    ghost var start, burst, total, cycle := e.qp.History(), e.burstSz, e.totalOps, test == CycleCount;
    parts := [];
    NothingJoined(start);
    NoLoopRuns(burst, total, cycle);
    assert p.c.total == total;
    for iter := 0 to numIter
      invariant Idle(e) && e.P() == p.(settle := e.lastIter)
      invariant iter == numIter != 0 ==> AllFit(p) && forall b :: 0 <= b < total ==> Settled(p, e.outs, b)
      invariant Went(start, e.qp.History(), Joined(parts)) && LoopRuns(parts, iter, burst, total, cycle, true)
    {
      ghost var h := e.qp.History();
      ghost var rs;
      exit, rs := Iteration(e, test, iter == numIter - 1);
      WentOn(start, h, e.qp.History(), Joined(parts), rs);
      NextLoopRun(parts, iter, burst, total, cycle, rs);
      parts := parts + [rs];
      SameFit(p, e.P());
      if exit != Finished {
        return;
      }
      SameSettled(p, e.P(), e.outs);
      AllSettledFit(e.P(), e.outs);
    }
    exit := Finished;
  }

  lemma SameSettled(p: Params, q: Params, outs: seq<Mbuf>)
    requires q == p.(settle := q.settle)
    ensures forall b :: Settled(p, outs, b) <==> Settled(q, outs, b)
  {}

  // main_loop of both tests. The loop finishes exactly when every result fits
  // (or there is no iteration to run), and then the pool is as it was, every
  // output packet is the result for its buffer, nothing is outstanding, and
  // every iteration has put every buffer through the device. The return code
  // tells only whether a burst size was given.
  method MainLoop(test: Test, burstSz: nat, numIter: nat, xform: Xform, codec: Codec, outSegSz: nat,
                  pool: OpPool, qp: Device, mem: seq<CompOp>, ins: seq<Mbuf>, outs: seq<Mbuf>, ghost p: Params)
    returns (res: int, exit: PerfExit, outs': seq<Mbuf>, ghost parts: seq<seq<Request>>)
    requires p == Call(pool.free, qp.inOrder, xform, codec, burstSz, outSegSz, ins, outs)
    requires Provided(p, pool.free, mem, outs) && qp.queue == []
    modifies pool, qp
    ensures res == ReturnCode(exit) && (res == 0 <==> 0 < burstSz)
    ensures 0 < burstSz ==> exit == if numIter == 0 || AllFit(p) then Finished else NotSuccessful
    ensures exit == Finished ==> multiset(pool.free) == multiset(old(pool.free)) && qp.queue == []
    ensures exit == Finished && 0 < numIter ==> forall b :: 0 <= b < |outs| ==> Settled(p, outs', b)
    ensures Went(old(qp.History()), qp.History(), Joined(parts))
    ensures 0 < burstSz ==> LoopRuns(parts, numIter, burstSz, |outs|, test == CycleCount, exit == Finished)
    ensures exit == Finished ==> Moved(old(qp.History()), qp.History(), numIter * |outs|)
  {
    hide Went;
    hide Joined;
    hide LoopRuns;
    hide Moved;
    hide Device.History;
    hide Sized;
    hide Provided;
    hide AllFit;
    hide Settled;
    outs', parts := outs, [];
    NothingJoined(qp.History());
    if burstSz == 0 {
      res, exit := -1, NoBurstSize;
      return;
    }
    var n := |outs|;
    var e := new Engine(pool, qp, codec, mem, ins, outs, xform, outSegSz, n, burstSz,
                        DeqBase(test, n, burstSz), OpsLength(test, n, burstSz));
    CallStarts(e.P(), e.R([], []), p);
    StartsIdle(e);
    hide Idle;
    exit, parts := Repeat(e, test, numIter, p);
    res := 0;
    if exit == Finished {
      IdleIs(e);
      pool.PutBulk(e.ops, 0, e.outstanding);
      AllLoopRuns(parts, numIter, burstSz, n, test == CycleCount);
      WentMoved(old(qp.History()), qp.History(), Joined(parts), numIter * n);
      outs' := e.outs;
    }
  }

  lemma StartsIdle(e: Engine)
    requires e.Laid() && Sound(e.P().c) && Sized(e.P(), e.R([], []))
    requires multiset(e.pool.free) == e.all && e.qp.queue == [] && e.outstanding == 0
    ensures Idle(e)
  {}

  lemma IdleIs(e: Engine)
    requires Idle(e)
    ensures multiset(e.pool.free) == e.all && e.qp.queue == [] && e.outstanding == 0
  {}

  lemma AllSettledFit(p: Params, outs: seq<Mbuf>)
    ensures (forall b :: 0 <= b < p.c.total ==> Settled(p, outs, b)) ==> AllFit(p)
  {
    if forall b :: 0 <= b < p.c.total ==> Settled(p, outs, b) {
      forall b | 0 <= b < p.c.total ensures Fits(p, b) {
        assert Settled(p, outs, b);
      }
    }
  }
}
