// The verify test: main_loop with its output reassembled, and the runner that
// compresses, decompresses and compares with the input.

module CompressVerify {
  import opened Common
  import opened Burst
  import opened Pacing
  import opened Mbuf
  import opened CarryOver
  import opened CompressRun
  import opened CompressEngine

  // What buffer b adds to the output: nothing if its result did not fit.
  ghost function Piece(p: Params, b: nat): seq<Byte> {
    if Fits(p, b) then Result(p, b) else []
  }

  // The results of some buffers one after the other.
  ghost function Gather(p: Params, bs: seq<nat>): seq<Byte> {
    if bs == [] then [] else Piece(p, bs[0]) + Gather(p, bs[1..])
  }

  lemma {:induction false} GatherConcat(p: Params, a: seq<nat>, b: seq<nat>)
    ensures Gather(p, a + b) == Gather(p, a) + Gather(p, b)
  {
    hide Piece;
    if a == [] {
      assert a + b == b;
    } else {
      GatherConcat(p, a[1..], b);
      assert (a + b)[1..] == a[1..] + b && (a + b)[0] == a[0];
      ConcatAssociates(Piece(p, a[0]), Gather(p, a[1..]), Gather(p, b));
    }
  }

  lemma GatherOne(p: Params, a: seq<nat>, b: nat)
    ensures Gather(p, a + [b]) == Gather(p, a) + Piece(p, b)
  {
    hide Piece;
    GatherConcat(p, a, [b]);
    assert [b][1..] == [];
  }

  lemma GatherWithout(p: Params, s: seq<nat>, i: nat)
    requires i < |s|
    ensures |Gather(p, s)| == |Gather(p, Without(s, i))| + |Piece(p, s[i])|
  {
    hide Piece;
    assert s == (s[..i] + [s[i]]) + s[i + 1..];
    GatherConcat(p, s[..i] + [s[i]], s[i + 1..]);
    GatherOne(p, s[..i], s[i]);
    GatherConcat(p, s[..i], s[i + 1..]);
  }

  lemma {:induction false} GatherPermuted(p: Params, a: seq<nat>, b: seq<nat>)
    requires multiset(a) == multiset(b)
    ensures |Gather(p, a)| == |Gather(p, b)|
  {
    hide Piece;
    SameLength(a, b);
    if a != [] {
      var i := TakeFirst(a, b);
      GatherPermuted(p, Without(a, 0), Without(b, i));
      GatherWithout(p, a, 0);
      GatherWithout(p, b, i);
    }
  }

  // Whatever has been handed back so far, its results are no longer than those
  // of all the buffers together.
  lemma GatherBound(p: Params, r: Run, k: nat)
    requires RunInv(p, r) && k <= |r.s.deq|
    ensures |Gather(p, r.s.completed + Bufs(r.s.bufs, r.s.deq)[..k])| <= |Gather(p, Iota(0, p.c.total))|
  {
    hide RunInv;
    hide Gather;
    hide Bufs;
    hide Iota;
    RunLog(p, r);
    LogSplits(r.s, k);
    var d := Bufs(r.s.bufs, r.s.deq);
    var some, rest := r.s.completed + d[..k], d[k..] + Bufs(r.s.bufs, r.s.queue);
    hide Log;
    GatherConcat(p, some, rest);
    GatherPermuted(p, Log(r.s), Iota(0, r.s.enqueued));
    IotaSplit(0, p.c.total, r.s.enqueued);
    GatherConcat(p, Iota(0, r.s.enqueued), Iota(r.s.enqueued, r.s.remaining));
  }

  lemma LogSplits(s: State, k: nat)
    requires k <= |s.deq|
    ensures
      var d := Bufs(s.bufs, s.deq);
      Log(s) == (s.completed + d[..k]) + (d[k..] + Bufs(s.bufs, s.queue))
  {
    hide Bufs;
  }

  // What main_loop reports: 0 for Completed, -1 for the rest.
  datatype LoopExit = Completed | UnknownBurst | NoOps | NoSpace | Unreadable

  // Reading the packet of an operation that succeeded.
  lemma RanReadable(p: Params, mem: seq<CompOp>, outs: seq<Mbuf>, h: Op)
    requires ChainsOk(p, outs) && Ran(p, mem, outs, h) && mem[h].status == Success
    ensures Readable(outs[mem[h].dst]) && mem[h].produced <= outs[mem[h].dst].pktLen
    ensures Fits(p, mem[h].dst) && Flat(outs[mem[h].dst].segs)[..mem[h].produced] == Result(p, mem[h].dst)
  {
    var m := outs[mem[h].dst];
    FullFlatLength(m.segs);
    UniformCapacity(m.segs, p.room);
  }

  // Every result fits its destination chain.
  ghost predicate AllFit(p: Params) {
    forall b :: 0 <= b < p.c.total ==> Fits(p, b)
  }

  // Copying the output of one operation.
  method CopyOutput(op: CompOp, m: Mbuf, output: array<Byte>, pos: nat, ghost soFar: seq<Byte>, ghost result: seq<Byte>)
    returns (exit: LoopExit, next: nat)
    requires op.status == Success ==>
      Readable(m) && op.produced <= m.pktLen && Flat(m.segs)[..op.produced] == result
    requires pos <= output.Length && output[..pos] == soFar
    requires op.status == Success ==> |soFar + result| <= output.Length
    modifies output
    ensures exit == if op.status == Success then Completed else NoSpace
    ensures exit == Completed ==> next <= output.Length && output[..next] == soFar + result
  {
    hide Flat;
    if op.status != Success {
      return NoSpace, pos;
    }
    var data := Read(m, op.produced);
    if data.None? {
      return Unreadable, pos;
    }
    Memcpy(output, pos, data.value);
    next := pos + op.produced;
    exit := Completed;
  }

  // Copying the output of the operations just dequeued, in the order the
  // device returned them.
  method CopyOutputs(deqOps: seq<Op>, mem: seq<CompOp>, outs: seq<Mbuf>, output: array<Byte>, pos: nat,
                     ghost p: Params, ghost r: Run)
    returns (exit: LoopExit, next: nat)
    requires RunInv(p, r) && r.mem == mem && r.outs == outs && r.s.deq == deqOps
    requires |Gather(p, Iota(0, p.c.total))| <= output.Length
    requires pos <= output.Length && output[..pos] == Gather(p, r.s.completed)
    modifies output
    ensures exit == if AllSuccess(mem, deqOps) then Completed else NoSpace
    ensures exit == NoSpace ==> !AllFit(p)
    ensures exit == Completed ==>
      next <= output.Length && output[..next] == Gather(p, r.s.completed + Bufs(r.s.bufs, deqOps))
  {
    hide RunInv;
    hide Ran;
    hide Fits;
    hide Result;
    hide Gather;
    hide Bufs;
    hide Iota;
    hide Flat;
    hide Readable;
    ghost var bufs := Bufs(r.s.bufs, deqOps);
    RunRan(p, r);
    next := pos;
    assert r.s.completed + bufs[..0] == r.s.completed;
    for i := 0 to |deqOps|
      invariant next <= output.Length && output[..next] == Gather(p, r.s.completed + bufs[..i])
      invariant forall j :: 0 <= j < i ==> deqOps[j] < |mem| && mem[deqOps[j]].status == Success
    {
      RunBuffer(p, r, i);
      GatherNext(p, r, i);
      var op := mem[deqOps[i]];
      exit, next := CopyOutput(op, outs[op.dst], output, next, Gather(p, r.s.completed + bufs[..i]), Result(p, op.dst));
      if exit != Completed {
        assert !AllSuccess(mem, deqOps) by {
          assert mem[deqOps[i]].status != Success;
        }
        return;
      }
    }
    assert bufs[..|deqOps|] == bufs;
    exit := Completed;
  }

  lemma GatherNext(p: Params, r: Run, i: nat)
    requires RunInv(p, r) && i < |r.s.deq|
    ensures
      var bufs, b := Bufs(r.s.bufs, r.s.deq), r.mem[r.s.deq[i]].dst;
      Fits(p, b) ==>
        && Gather(p, r.s.completed + bufs[..i + 1]) == Gather(p, r.s.completed + bufs[..i]) + Result(p, b)
        && |Gather(p, r.s.completed + bufs[..i + 1])| <= |Gather(p, Iota(0, p.c.total))|
  {
    hide RunInv;
    hide Gather;
    hide Bufs;
    hide Fits;
    hide Result;
    hide Iota;
    RunBuffer(p, r, i);
    var bufs := Bufs(r.s.bufs, r.s.deq);
    assert r.s.completed + bufs[..i + 1] == (r.s.completed + bufs[..i]) + [bufs[i]];
    GatherOne(p, r.s.completed + bufs[..i], bufs[i]);
    GatherBound(p, r, i + 1);
  }

  // What holds of the i-th operation handed back.
  lemma RunBuffer(p: Params, r: Run, i: nat)
    requires RunInv(p, r) && i < |r.s.deq|
    ensures
      var h := r.s.deq[i];
      && h < |r.mem| && Ran(p, r.mem, r.outs, h)
      && Bufs(r.s.bufs, r.s.deq)[i] == r.mem[h].dst < p.c.total
      && (r.mem[h].status == Success || r.mem[h].status == OutOfSpace)
      && (r.mem[h].status == Success <==> Fits(p, r.mem[h].dst))
      && r.mem[h].dst < |r.outs|
      && (r.mem[h].status == Success ==>
           && Readable(r.outs[r.mem[h].dst]) && r.mem[h].produced <= r.outs[r.mem[h].dst].pktLen
           && Flat(r.outs[r.mem[h].dst].segs)[..r.mem[h].produced] == Result(p, r.mem[h].dst))
  {
    if r.mem[r.s.deq[i]].status == Success {
      RanReadable(p, r.mem, r.outs, r.s.deq[i]);
    }
    assert Ran(p, r.mem, r.outs, r.s.deq[i]);
    BufsAt(r.s.bufs, r.s.deq, i);
    DequeuedIsSeparate(p.c, r.s);
    assert Bufs(r.s.bufs, r.s.deq)[i] in Bufs(r.s.bufs, r.s.deq);
  }

  // The state of the output after the operations completed so far.
  ghost predicate Assembled(p: Params, completed: seq<nat>, output: array<Byte>, pos: nat)
    reads output
  {
    && |Gather(p, Iota(0, p.c.total))| <= output.Length
    && pos <= output.Length && output[..pos] == Gather(p, completed)
  }

  // Dequeueing a burst, copying its output, fixing up the lengths, recycling.
  method Round(e: Engine, output: array<Byte>, pos: nat) returns (exit: LoopExit, next: nat, ghost d: nat)
    requires e.Valid() && e.lastIter && Assembled(e.P(), e.completed, output, pos)
    requires output as object != e.ops
    modifies e`mem, e`outs, e`totalDeqOps, e`outstanding, e`completed, e.qp, e.ops, e.pool, output
    ensures exit == Completed || exit == NoSpace
    ensures exit == NoSpace ==> !AllFit(e.P())
    ensures exit == Completed ==> e.Valid() && Assembled(e.P(), e.completed, output, next)
    ensures old(e.totalDeqOps) <= e.totalDeqOps && e.qp.stalls <= old(e.qp.stalls)
    ensures 0 < old(|e.qp.queue|) && 0 < e.burstSz && e.totalDeqOps == old(e.totalDeqOps) ==>
      e.qp.stalls < old(e.qp.stalls)
    ensures e.totalDeqOps == old(e.totalDeqOps) + d && d <= old(|e.qp.queue|)
    ensures Went(old(e.qp.History()), e.qp.History(), [Deq(e.burstSz, d)])
  {
    hide Went;
    hide Device.History;
    hide RunInv;
    hide AllFit;
    hide Gather;
    hide Iota;
    hide Bufs;
    hide Dsts;
    hide AllSuccess;
    var numDeq := e.Dequeue(e.burstSz);
    d := numDeq;
    ghost var r := e.R(e.Held(), e.Dequeued(numDeq));
    exit, next := CopyOutputs(e.ops[e.deqBase..e.deqBase + numDeq], e.mem, e.outs, output, pos, e.P(), r);
    if exit == Completed {
      e.Finish(numDeq);
    }
  }

  // The parameters of a call of main_loop.
  ghost function Call(free: seq<Op>, inOrder: bool, xform: Xform, codec: Codec, burstSz: nat, outSegSz: nat,
                      ins: seq<Mbuf>, outs: seq<Mbuf>): Params
  {
    Params(Config(multiset(free), |outs|, burstSz, inOrder), xform, codec, outSegSz, ins, Engine.SegCounts(outs), true)
  }

  // What the set-up of the test provides: operations for every buffer, chains
  // that can be read on one side and written on the other.
  ghost predicate Provided(p: Params, free: seq<Op>, mem: seq<CompOp>, outs: seq<Mbuf>) {
    && NoDuplicates(free) && |outs| <= |free| && (forall h :: h in free ==> h < |mem|)
    && |p.ins| == |outs| && (forall b :: 0 <= b < |p.ins| ==> Readable(p.ins[b]))
    && 0 < p.room && (forall b :: 0 <= b < |outs| ==> outs[b].segs != [] && Uniform(outs[b].segs, p.room))
  }

  lemma {:induction false} DistinctFree(free: seq<Op>)
    requires NoDuplicates(free)
    ensures Distinct(multiset(free))
  {
    if free != [] {
      DistinctFree(free[1..]);
      assert free == [free[0]] + free[1..];
    }
  }

  lemma CallStarts(p: Params, r: Run, q: Params)
    requires Provided(q, r.s.free, r.mem, r.outs) && q == p.(settle := q.settle) && 0 < p.c.burst
    requires p.c.all == multiset(r.s.free) && p.c.total == |r.outs| && p.nbSegs == Engine.SegCounts(r.outs)
    requires r.s.bufs == Dsts(r.mem)
    ensures Sound(p.c) && Sized(p, r)
  {
    DistinctFree(r.s.free);
    forall h | h in p.c.all ensures h < |r.mem| {
      assert h in r.s.free;
    }
  }

  // What a completed call of main_loop leaves behind: every output packet is
  // the result for its buffer, and the output is the results in the order the
  // device finished them, each buffer once.
  ghost predicate Delivered(p: Params, outs: seq<Mbuf>, output: seq<Byte>, order: seq<nat>) {
    && |outs| == p.c.total
    && (forall b :: 0 <= b < p.c.total ==> Settled(p, outs, b))
    && output == Gather(p, order)
    && multiset(order) == multiset(Iota(0, p.c.total))
    && (p.c.inOrder ==> order == Iota(0, p.c.total))
  }

  // main_loop of the verify test. It completes exactly when every result fits
  // its chain, whatever the schedule of the device, and then the pool has
  // everything back. `rs` is what the device was asked for.
  method MainLoop(burstSz: nat, xform: Xform, codec: Codec, outSegSz: nat, pool: OpPool, qp: Device,
                  mem: seq<CompOp>, ins: seq<Mbuf>, outs: seq<Mbuf>, output: array<Byte>, ghost p: Params)
    returns (exit: LoopExit, outputSize: nat, mem': seq<CompOp>, outs': seq<Mbuf>, ghost order: seq<nat>,
             ghost rs: seq<Request>)
    requires p == Call(pool.free, qp.inOrder, xform, codec, burstSz, outSegSz, ins, outs)
    requires Provided(p, pool.free, mem, outs) && qp.queue == []
    requires |Gather(p, Iota(0, |outs|))| <= output.Length
    modifies pool, qp, output
    ensures exit == (if burstSz == 0 then UnknownBurst else if AllFit(p) then Completed else NoSpace)
    ensures exit == Completed ==> outputSize <= output.Length && Delivered(p, outs', output[..outputSize], order)
    ensures exit == Completed ==>
      multiset(pool.free) == multiset(old(pool.free)) && qp.queue == [] && forall h :: h in pool.free ==> h < |mem'|
    ensures Went(old(qp.History()), qp.History(), rs) && LoopPaced(rs, burstSz, |outs|, false)
    ensures exit == Completed ==> LoopComplete(rs, burstSz, |outs|, false)
  {
    hide Went;
    hide LoopComplete;
    hide Device.History;
    hide Engine.Valid;
    hide Assembled;
    hide Gather;
    hide Delivered;
    hide Sized;
    hide Provided;
    hide AllFit;
    hide Iota;
    hide Settled;
    hide Dsts;
    outputSize, mem', outs', order, rs := 0, mem, outs, [], [];
    WentNowhere(qp.History());
    if burstSz == 0 {
      exit := UnknownBurst;
      return;
    }
    hide LoopPaced;
    var totalBufs := |outs|;
    var e := new Engine(pool, qp, codec, mem, ins, outs, xform, outSegSz, totalBufs, burstSz, totalBufs, 2 * totalBufs);
    CallStarts(e.P(), e.R([], []), p);
    e.Start(true);
    assert e.P() == p;
    NothingAssembled(p, output);
    exit, outputSize, rs := Iterate(e, output);
    if exit == Completed {
      AllAssembled(e, p, output, outputSize);
      pool.PutBulk(e.ops, 0, e.outstanding);
      mem', outs', order := e.mem, e.outs, e.completed;
    }
  }

  lemma NothingAssembled(p: Params, output: array<Byte>)
    requires |Gather(p, Iota(0, p.c.total))| <= output.Length
    ensures Assembled(p, [], output, 0)
  {}

  lemma AllAssembled(e: Engine, p: Params, output: array<Byte>, outputSize: nat)
    requires e.Valid() && e.P() == p && p.settle && Assembled(p, e.completed, output, outputSize)
    requires e.remainingOps == 0 && e.totalDeqOps == e.totalOps && |p.nbSegs| == p.c.total
    ensures AllFit(p) && outputSize <= output.Length && Delivered(p, e.outs, output[..outputSize], e.completed)
    ensures multiset(e.pool.free) == p.c.all && e.qp.queue == [] && e.outstanding == 0
    ensures forall h :: h in e.pool.free ==> h < |e.mem|
  {
    hide RunInv;
    hide AllFit;
    hide Settled;
    hide Gather;
    hide Iota;
    LoopEnd(p, e.R(e.Held(), []));
  }

  lemma LoopEnd(p: Params, r: Run)
    requires RunInv(p, r) && p.settle && r.s.deq == [] && r.s.remaining == 0 && r.s.dequeued == p.c.total
    requires |p.nbSegs| == p.c.total
    ensures AllFit(p) && Delivered(p, r.outs, Gather(p, r.s.completed), r.s.completed)
    ensures multiset(r.s.free) == p.c.all && r.s.queue == [] && r.s.outstanding == 0
    ensures forall h :: h in r.s.free ==> h < |r.mem|
  {
    hide RunInv;
    hide Iota;
    hide Gather;
    hide Settled;
    hide Bufs;
    RunEnd(p, r);
    RunMemory(p, r);
    forall b | 0 <= b < p.c.total ensures Fits(p, b) {
      SettledFits(p, r.outs, b);
    }
    forall h | h in r.s.free ensures h < |r.mem| {
      assert h in multiset(r.s.free);
    }
  }

  lemma RunMemory(p: Params, r: Run)
    requires RunInv(p, r)
    ensures |r.outs| == |p.nbSegs| && forall h :: h in p.c.all ==> h < |r.mem|
  {}

  lemma SettledFits(p: Params, outs: seq<Mbuf>, b: nat)
    requires Settled(p, outs, b)
    ensures Fits(p, b)
  {}

  // The loop head: the engine is valid and the output assembled so far.
  ghost predicate Going(e: Engine, p: Params, output: array<Byte>, pos: nat)
    reads e, e.pool, e.qp, e.ops, output
  {
    e.Valid() && e.lastIter && e.P() == p && Assembled(p, e.completed, output, pos)
  }

  // One round of the first loop.
  method Step(e: Engine, output: array<Byte>, pos: nat, ghost p: Params)
    returns (exit: LoopExit, next: nat, ghost n: nat, ghost k: nat, ghost d: nat)
    requires Going(e, p, output, pos) && output as object != e.ops
    requires 0 < e.remainingOps
    modifies e, e.qp, e.ops, e.pool, output
    ensures exit == Completed || exit == NoSpace
    ensures exit == NoSpace ==> !AllFit(p)
    ensures exit == Completed ==> Going(e, p, output, next)
    ensures e.remainingOps + k == old(e.remainingOps) && n == Min(e.burstSz, old(e.remainingOps))
    ensures e.totalEnqOps == old(e.totalEnqOps) + k && e.totalDeqOps == old(e.totalDeqOps) + d
    ensures Went(old(e.qp.History()), e.qp.History(), [Enq(n, k)] + [Deq(e.burstSz, d)])
    ensures e.qp.stalls <= old(e.qp.stalls) && (k == 0 ==> e.qp.stalls < old(e.qp.stalls))
  {
    hide Went;
    hide Device.History;
    hide AllFit;
    hide Assembled;
    hide RunInv;
    ghost var h := e.qp.History();
    n, k, d := 0, 0, 0;
    var numOps, ok := e.Feed();
    if !ok {
      exit, next := NoOps, pos;
      return;
    }
    n, k := numOps, e.numEnq;
    ghost var h' := e.qp.History();
    exit, next, d := Round(e, output, pos);
    WentOn(h, h', e.qp.History(), [Enq(n, k)], [Deq(e.burstSz, d)]);
  }

  // One round of the second loop.
  method Last(e: Engine, output: array<Byte>, pos: nat, ghost p: Params)
    returns (exit: LoopExit, next: nat, ghost d: nat)
    requires Going(e, p, output, pos) && output as object != e.ops
    requires e.remainingOps == 0 && e.totalDeqOps < e.totalOps && 0 < e.burstSz
    modifies e, e.qp, e.ops, e.pool, output
    ensures exit == Completed || exit == NoSpace
    ensures exit == NoSpace ==> !AllFit(p)
    ensures exit == Completed ==> Going(e, p, output, next) && e.remainingOps == 0
    ensures e.totalDeqOps == old(e.totalDeqOps) + d <= e.totalOps
    ensures Went(old(e.qp.History()), e.qp.History(), [Deq(e.burstSz, d)])
    ensures e.qp.stalls <= old(e.qp.stalls) && (d == 0 ==> e.qp.stalls < old(e.qp.stalls))
  {
    hide Went;
    hide Device.History;
    hide AllFit;
    hide Assembled;
    hide RunInv;
    EngineProgress(e);
    exit, next, d := Round(e, output, pos);
  }

  // The two loops of an iteration: enqueue until nothing remains, then dequeue
  // what is still in the device. `rs` is what the device was asked for.
  method Iterate(e: Engine, output: array<Byte>) returns (exit: LoopExit, outputSize: nat, ghost rs: seq<Request>)
    requires e.Valid() && e.lastIter && Assembled(e.P(), e.completed, output, 0)
    requires output as object != e.ops
    requires 0 < e.burstSz && e.totalEnqOps == e.totalDeqOps == 0
    modifies e, e.qp, e.ops, e.pool, output
    ensures exit == Completed || exit == NoSpace
    ensures exit == NoSpace ==> !AllFit(old(e.P()))
    ensures exit == Completed ==>
      && e.Valid() && e.P() == old(e.P()) && Assembled(e.P(), e.completed, output, outputSize)
      && e.remainingOps == 0 && e.totalDeqOps == e.totalOps
    ensures Went(old(e.qp.History()), e.qp.History(), rs) && LoopPaced(rs, e.burstSz, e.totalOps, false)
    ensures exit == Completed ==> LoopComplete(rs, e.burstSz, e.totalOps, false)
  {
    hide Went;
    hide LoopStep;
    hide LoopPaced;
    hide LoopComplete;
    hide Taken;
    hide Given;
    hide Device.History;
    hide AllFit;
    hide Assembled;
    hide Engine.Valid;
    hide Engine.P;
    ghost var p, start, burst, total := e.P(), e.qp.History(), e.burstSz, e.totalOps;
    outputSize, rs := 0, [];
    StartsLoop(start, burst, total, false);
    EngineProgress(e);
    while 0 < e.remainingOps
      invariant Going(e, p, output, outputSize) && e.totalEnqOps + e.remainingOps == total
      invariant LoopStep(start, e.qp.History(), rs, burst, total, false, e.totalEnqOps, e.totalDeqOps)
      decreases e.remainingOps, e.qp.stalls
    {
      ghost var h, taken, given, n, k, d := e.qp.History(), e.totalEnqOps, e.totalDeqOps, 0, 0, 0;
      exit, outputSize, n, k, d := Step(e, output, outputSize, p);
      LoopRound(start, h, e.qp.History(), rs, burst, total, false, taken, given, n, k, burst, d);
      rs := rs + ([Enq(n, k)] + [Deq(burst, d)]);
      LoopIs(start, e.qp.History(), rs, burst, total, false, e.totalEnqOps, e.totalDeqOps);
      if exit != Completed {
        return;
      }
    }
    EngineProgress(e);
    while e.totalDeqOps < e.totalOps
      invariant Going(e, p, output, outputSize) && e.remainingOps == 0 && e.totalDeqOps <= e.totalOps
      invariant LoopStep(start, e.qp.History(), rs, burst, total, false, total, e.totalDeqOps)
      decreases e.totalOps - e.totalDeqOps, e.qp.stalls
    {
      ghost var h, given, d := e.qp.History(), e.totalDeqOps, 0;
      exit, outputSize, d := Last(e, output, outputSize, p);
      LoopDrain(start, h, e.qp.History(), rs, burst, total, false, given, d);
      rs := rs + [Deq(burst, d)];
      LoopIs(start, e.qp.History(), rs, burst, total, false, total, e.totalDeqOps);
      if exit != Completed {
        return;
      }
    }
    LoopIs(start, e.qp.History(), rs, burst, total, false, total, total);
    exit := Completed;
  }

  lemma EngineProgress(e: Engine)
    requires e.Valid()
    ensures e.totalDeqOps + |e.qp.queue| == e.totalEnqOps && e.totalEnqOps + e.remainingOps == e.totalOps
    ensures e.outstanding == e.opsUnused + |e.qp.queue| && 0 < e.burstSz
  {
    hide RunInv;
    RunProgress(e.P(), e.R(e.Held(), []));
  }

  lemma RunProgress(p: Params, r: Run)
    requires RunInv(p, r)
    ensures r.s.dequeued + |r.s.queue| == r.s.enqueued && r.s.enqueued + r.s.remaining == p.c.total
    ensures r.s.outstanding == |r.s.held| + |r.s.deq| + |r.s.queue| && 0 < p.c.burst
  {}
}
