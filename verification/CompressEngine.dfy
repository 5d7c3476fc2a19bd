// One iteration of main_loop as the compression tests share it: rounds of
// topping up the window of operations, enqueueing, dequeueing and recycling,
// over the array of operation pointers.

module CompressEngine {
  import opened Common
  import opened Burst
  import opened Mbuf
  import opened CarryOver
  import opened CompressRun

  class Engine {
    const pool: OpPool
    const qp: Device
    const codec: Codec
    const ops: array<Op>
    const deqBase: nat
    const ins: seq<Mbuf>
    const xform: Xform
    const outSegSz: nat
    const totalOps: nat
    const burstSz: nat
    ghost const all: multiset<Op>
    ghost const nbSegs: seq<nat>

    // The operations of the pool and the destination chains.
    var mem: seq<CompOp>
    var outs: seq<Mbuf>
    var lastIter: bool
    var remainingOps: nat
    var opsUnused: nat
    var numEnq: nat
    var totalEnqOps: nat
    var totalDeqOps: nat
    var outstanding: nat
    // The buffers of the operations recycled so far, in completion order.
    ghost var completed: seq<nat>
    // The buffers of the operations handed to the device, in that order.
    ghost var submitted: seq<nat>

    // ops[] has opsLen entries; those from deqBase on are for dequeueing.
    constructor (pool: OpPool, qp: Device, codec: Codec, mem: seq<CompOp>, ins: seq<Mbuf>, outs: seq<Mbuf>,
                 xform: Xform, outSegSz: nat, totalOps: nat, burstSz: nat, deqBase: nat, opsLen: nat)
      ensures this.pool == pool && this.qp == qp && this.codec == codec
      ensures this.mem == mem && this.ins == ins && this.outs == outs
      ensures this.xform == xform && this.outSegSz == outSegSz
      ensures this.totalOps == totalOps && this.burstSz == burstSz
      ensures this.deqBase == deqBase && ops.Length == opsLen && fresh(ops)
      ensures all == multiset(pool.free) && outstanding == 0
      ensures nbSegs == SegCounts(outs)
    {
      this.pool, this.qp, this.codec, this.mem, this.ins, this.outs := pool, qp, codec, mem, ins, outs;
      this.xform, this.outSegSz, this.totalOps, this.burstSz := xform, outSegSz, totalOps, burstSz;
      this.deqBase := deqBase;
      ops := new Op[opsLen];
      all := multiset(pool.free);
      nbSegs := SegCounts(outs);
      outstanding := 0;
    }

    static function SegCounts(outs: seq<Mbuf>): (n: seq<nat>)
      ensures |n| == |outs| && forall b :: 0 <= b < |outs| ==> n[b] == |outs[b].segs|
    {
      seq<nat>(|outs|, b requires 0 <= b < |outs| => |outs[b].segs|)
    }

    ghost function P(): Params
      reads this`lastIter
    {
      Params(Config(all, totalOps, burstSz, qp.inOrder), xform, codec, outSegSz, ins, nbSegs, lastIter)
    }

    ghost function R(held: seq<Op>, deq: seq<Op>): Run
      reads this, pool, qp
    {
      Run(State(pool.free, held, qp.queue, deq, Dsts(mem),
                remainingOps, totalEnqOps, totalDeqOps, outstanding, completed), mem, outs)
    }

    // The region enqueued from and the one dequeued to are disjoint parts of
    // ops[], whatever the burst size.
    ghost predicate Laid() {
      Min(burstSz, totalOps) <= deqBase && deqBase + totalOps <= ops.Length
    }

    ghost function Held(): (s: seq<Op>)
      requires numEnq + opsUnused <= ops.Length
      reads this`numEnq, this`opsUnused, ops
      ensures |s| == opsUnused
    {
      ops[numEnq..numEnq + opsUnused]
    }

    ghost function Dequeued(k: nat): (s: seq<Op>)
      requires deqBase + k <= ops.Length
      reads ops
      ensures |s| == k
    {
      ops[deqBase..deqBase + k]
    }

    // The operations offered to the device in one round.
    ghost function Window(n: nat): (s: seq<Op>)
      requires n <= ops.Length
      reads ops
      ensures |s| == n
    {
      ops[..n]
    }

    // Buffers 0, 1, 2, ... were handed to the device in order, each once.
    ghost predicate InOrder()
      reads this`submitted, this`totalEnqOps
    {
      submitted == Iota(0, totalEnqOps)
    }

    // The state at every loop head.
    ghost predicate Valid()
      reads this, pool, qp, ops
    {
      Laid() && numEnq + opsUnused <= deqBase && RunInv(P(), R(Held(), [])) && InOrder()
    }

    // The state between dequeueing k operations and recycling them.
    ghost predicate Between(k: nat)
      reads this, pool, qp, ops
    {
      && Laid() && numEnq + opsUnused <= deqBase && k <= totalOps && InOrder()
      && RunInv(P(), R(Held(), Dequeued(k)))
    }

    // The counters of an iteration.
    method Reset(lastIter: bool)
      modifies this`lastIter, this`remainingOps, this`totalDeqOps, this`totalEnqOps, this`opsUnused, this`numEnq,
               this`completed, this`submitted
      ensures this.lastIter == lastIter && remainingOps == totalOps
      ensures totalDeqOps == totalEnqOps == opsUnused == numEnq == 0 && completed == submitted == []
    {
      this.lastIter := lastIter;
      remainingOps, totalDeqOps, totalEnqOps, opsUnused, numEnq := totalOps, 0, 0, 0, 0;
      completed, submitted := [], [];
    }

    // The head of an iteration.
    method Start(lastIter: bool)
      requires Laid() && Sound(P().c) && Sized(P(), R([], []))
      requires multiset(pool.free) == all && qp.queue == [] && outstanding == 0
      modifies this
      ensures Valid() && this.lastIter == lastIter
      ensures remainingOps == totalOps && totalEnqOps == totalDeqOps == 0 && completed == []
      ensures mem == old(mem) && outs == old(outs)
    {
      hide RunInv;
      hide Sound;
      hide Sized;
      hide Iota;
      hide Dsts;
      hide Engine.Held;
      ghost var p, r := P(), R([], []);
      Reset(lastIter);
      NoIota(0);
      SizedStays(p, r, P(), R([], []));
      RunStart(P(), R([], []));
      assert Held() == [];
    }

    // Unused operations move to the front.
    method Carry()
      requires numEnq + opsUnused <= ops.Length
      modifies ops
      ensures ops[..opsUnused] == old(Held())
    {
      if 0 < opsUnused && 0 < numEnq {
        Memmove(ops, 0, numEnq, opsUnused);
      }
    }

    // Then `needed` more come from the pool.
    method TopUp(needed: nat) returns (ok: bool)
      requires numEnq + opsUnused <= ops.Length && opsUnused + needed <= ops.Length
      requires needed <= |pool.free|
      modifies this`outstanding, pool, ops
      ensures ok
      ensures outstanding == old(outstanding) + needed
      ensures ops[..opsUnused] == old(Held())
      ensures multiset(pool.free) + multiset(ops[opsUnused..opsUnused + needed]) == multiset(old(pool.free))
    {
      Carry();
      ok := true;
      if 0 < needed {
        ok := pool.GetBulk(ops, opsUnused, needed);
        if !ok {
          return;
        }
      }
      outstanding := outstanding + needed;
    }

    // Attaching buffer bufId to an operation, its output chain cleared.
    method Attach(h: Op, bufId: nat)
      requires h < |mem| && bufId < |ins| && bufId < |outs| && ChainsOk(P(), outs)
      modifies this`mem, this`outs
      ensures |mem| == |old(mem)| && ChainsOk(P(), outs)
      ensures Armed(P(), mem, h) && mem[h].dst == bufId && Cleared(P(), outs, bufId)
      ensures mem == old(mem)[h := mem[h]] && outs == old(outs)[bufId := outs[bufId]]
    {
      var m := ResetLengths(outs[bufId], outSegSz);
      outs := outs[bufId := m];
      mem := mem[h := CompOp(bufId, bufId, ins[bufId].pktLen, xform, NotProcessed, 0)];
    }

    // Attaching the next buffers to the operations of ops[opsUnused..].
    method Populate(needed: nat, ghost added: seq<Op>)
      requires opsUnused + needed <= ops.Length && added == ops[opsUnused..opsUnused + needed]
      requires NoDuplicates(added) && forall h :: h in added ==> h < |mem|
      requires totalEnqOps + opsUnused + needed <= |ins| && totalEnqOps + opsUnused + needed <= |outs|
      requires ChainsOk(P(), outs)
      modifies this`mem, this`outs
      ensures SetUp(P(), added, totalEnqOps + opsUnused, old(mem), old(outs), mem, outs)
    {
      hide SetUp;
      hide Armed;
      hide Cleared;
      ghost var p, base := P(), totalEnqOps + opsUnused;
      NothingSetUp(p, added[..0], base, mem, outs);
      for k := 0 to needed
        invariant |mem| == |old(mem)| && |outs| == |old(outs)| && P() == p
        invariant ChainsOk(p, outs) && SetUp(p, added[..k], base, old(mem), old(outs), mem, outs)
      {
        var h := ops[opsUnused + k];
        assert h == added[k] && h in added;
        ghost var mem0, outs0 := mem, outs;
        Attach(h, totalEnqOps + k + opsUnused);
        SetUpNext(p, added, k, base, old(mem), old(outs), mem0, outs0, mem, outs);
      }
      assert added[..needed] == added;
    }

    // The first half of the carry-over: the window has its operations.
    method Fetch(numOps: nat) returns (ok: bool, ghost added: seq<Op>)
      requires Valid() && numOps == Min(remainingOps, burstSz)
      modifies this`outstanding, pool, ops
      ensures ok && opsUnused <= numOps <= deqBase <= ops.Length
      ensures added == ops[opsUnused..numOps] && Window(numOps) == old(Held()) + added
      ensures outstanding == old(outstanding) + (numOps - opsUnused)
      ensures multiset(pool.free) + multiset(added) == multiset(old(pool.free))
      ensures NoDuplicates(added) && forall h :: h in added ==> h < |mem|
      ensures totalEnqOps + numOps <= |ins| && totalEnqOps + numOps <= |outs| && ChainsOk(P(), outs)
    {
      hide RunInv;
      hide Engine.InOrder;
      hide Dsts;
      hide ChainsOk;
      hide NoDuplicates;
      hide Engine.Held;
      ghost var r := R(Held(), []);
      RunRefillPossible(P(), r);
      var needed: nat := numOps - opsUnused;
      ok := TopUp(needed);
      added := ops[opsUnused..numOps];
      if !ok {
        return;
      }
      RunFresh(P(), r, pool.free, added);
    }

    // The carry-over: the window of operations is refilled for the next
    // enqueue. The subtraction never wraps and the pool never runs dry.
    method Refill() returns (numOps: nat, ok: bool)
      requires Valid() && 0 < remainingOps
      modifies this`outstanding, this`mem, this`outs, pool, ops
      ensures ok
      ensures 0 < numOps == Min(remainingOps, burstSz) && numOps <= deqBase
      ensures Laid() && RunInv(P(), R(Window(numOps), [])) && InOrder()
    {
      hide RunInv;
      hide Engine.InOrder;
      hide SetUp;
      hide Dsts;
      hide ChainsOk;
      hide NoDuplicates;
      hide Engine.Held;
      hide Engine.Window;
      ghost var p, r := P(), R(Held(), []);
      RunRefillPossible(p, r);
      numOps := Min(remainingOps, burstSz);
      ghost var added;
      ok, added := Fetch(numOps);
      if !ok {
        return;
      }
      Populate(numOps - opsUnused, added);
      ghost var r' := R(Window(numOps), []);
      assert r'.s == r.s.(free := r'.s.free, bufs := Dsts(r'.mem), held := r.s.held + added,
                          outstanding := r.s.outstanding + |added|);
      RunRefillKeeps(p, r, r', added);
    }

    // rte_compressdev_enqueue_burst and what it leaves to carry over.
    method Offer(numOps: nat) returns (k: nat)
      requires 0 < numOps <= deqBase <= ops.Length
      modifies this`opsUnused, this`numEnq, qp
      ensures k == numEnq <= numOps && opsUnused == numOps - numEnq
      ensures Held() == Window(numOps)[k..] && qp.queue == old(qp.queue) + Window(numOps)[..k]
      ensures qp.stalls <= old(qp.stalls) && (k == 0 ==> qp.stalls < old(qp.stalls))
      ensures Went(old(qp.History()), qp.History(), [Enq(numOps, k)])
    {
      hide Went;
      hide Device.History;
      k := qp.EnqueueBurst(ops, 0, numOps);
      numEnq := k;
      opsUnused := numOps - numEnq;
    }

    method Submit(numOps: nat)
      requires 0 < numOps <= deqBase && Laid() && RunInv(P(), R(Window(numOps), [])) && InOrder()
      modifies this`opsUnused, this`numEnq, this`remainingOps, this`totalEnqOps, this`submitted, qp
      ensures Valid()
      ensures numEnq <= old(remainingOps) && remainingOps == old(remainingOps) - numEnq
      ensures qp.stalls <= old(qp.stalls) && (numEnq == 0 ==> qp.stalls < old(qp.stalls))
      ensures totalEnqOps == old(totalEnqOps) + numEnq && opsUnused == numOps - numEnq
      ensures Went(old(qp.History()), qp.History(), [Enq(numOps, numEnq)])
    {
      hide Went;
      hide Device.History;
      hide RunInv;
      hide Bufs;
      hide Iota;
      hide Dsts;
      hide Engine.Held;
      hide Engine.Window;
      ghost var p, r := P(), R(Window(numOps), []);
      var k := Offer(numOps);
      RunSubmitKeeps(p, r, k);
      RunHanded(p, r, k);
      submitted := submitted + Bufs(Dsts(mem), Window(numOps)[..k]);
      remainingOps := remainingOps - numEnq;
      totalEnqOps := totalEnqOps + numEnq;
      assert R(Held(), []) == r.(s := Submitted(r.s, k));
    }

    // The first half of a round: the carry-over and the enqueue.
    method Feed() returns (numOps: nat, ok: bool)
      requires Valid() && 0 < remainingOps
      modifies this`outstanding, this`mem, this`outs, this`opsUnused, this`numEnq, this`remainingOps,
               this`totalEnqOps, this`submitted, pool, ops, qp
      ensures ok && Valid() && numOps == Min(old(remainingOps), burstSz)
      ensures remainingOps + numEnq == old(remainingOps) && totalEnqOps == old(totalEnqOps) + numEnq
      ensures opsUnused == numOps - numEnq
      ensures Went(old(qp.History()), qp.History(), [Enq(numOps, numEnq)])
      ensures qp.stalls <= old(qp.stalls) && (numEnq == 0 ==> qp.stalls < old(qp.stalls))
    {
      hide Went;
      hide Device.History;
      hide RunInv;
      hide Engine.Held;
      hide Engine.Window;
      numOps, ok := Refill();
      if !ok {
        return;
      }
      Submit(numOps);
    }

    // The device's part of a completion: every operation handed back has run.
    method RunOps(ghost done: seq<Op>, k: nat)
      requires Laid() && k <= totalOps && done == Dequeued(k)
      requires NoDuplicates(done) && NoDuplicates(Bufs(Dsts(mem), done))
      requires forall h :: h in done ==> h < |mem| && Runnable(mem[h], ins, outs)
      modifies this`mem, this`outs
      ensures Executed(P(), done, old(mem), old(outs), mem, outs)
    {
      hide Executed;
      hide Bufs;
      hide NoDuplicates;
      ghost var p, mem0, outs0 := P(), mem, outs;
      ExecutedNone(p, mem, outs);
      assert done[..0] == [];
      for i := 0 to k
        invariant P() == p && |mem| == |mem0| && |outs| == |outs0|
        invariant Executed(p, done[..i], mem0, outs0, mem, outs)
      {
        var h := ops[deqBase + i];
        ExecutedRest(p, done, i, mem0, outs0, mem, outs);
        var op := mem[h];
        var (ran, out) := Execute(codec, op, ins[op.src], outs[op.dst]);
        ExecutedStep(p, done, i, mem0, outs0, mem, outs);
        mem := mem[h := ran];
        outs := outs[op.dst := out];
      }
      assert done[..k] == done;
    }

    static lemma TakeKeeps(a: seq<Op>, n: nat, lo: nat, hi: nat)
      requires lo <= hi <= n <= |a|
      ensures a[..n][lo..hi] == a[lo..hi]
    {}

    // rte_compressdev_dequeue_burst into the dequeue region. `limit` may be
    // anything: the device writes no more than what is in flight.
    method Poll(limit: nat) returns (numDeq: nat)
      requires Laid() && numEnq + opsUnused <= deqBase && |qp.queue| <= totalOps
      modifies qp, ops
      ensures numDeq <= Min(limit, old(|qp.queue|))
      ensures Held() == old(Held())
      ensures multiset(Dequeued(numDeq)) + multiset(qp.queue) == multiset(old(qp.queue))
      ensures qp.inOrder ==> Dequeued(numDeq) + qp.queue == old(qp.queue)
      ensures qp.stalls <= old(qp.stalls)
      ensures numDeq == 0 < Min(limit, old(|qp.queue|)) ==> qp.stalls < old(qp.stalls)
      ensures Went(old(qp.History()), qp.History(), [Deq(limit, numDeq)])
    {
      hide Went;
      hide Device.History;
      TakeKeeps(ops[..], deqBase, numEnq, numEnq + opsUnused);
      numDeq := qp.DequeueBurst(ops, deqBase, limit);
      TakeKeeps(ops[..], deqBase, numEnq, numEnq + opsUnused);
    }

    method Dequeue(limit: nat) returns (numDeq: nat)
      requires Valid()
      modifies this`mem, this`outs, this`totalDeqOps, qp, ops
      ensures numDeq <= Min(limit, old(|qp.queue|))
      ensures Between(numDeq)
      ensures totalDeqOps == old(totalDeqOps) + numDeq
      ensures qp.stalls <= old(qp.stalls)
      ensures numDeq == 0 < Min(limit, old(|qp.queue|)) ==> qp.stalls < old(qp.stalls)
      ensures Went(old(qp.History()), qp.History(), [Deq(limit, numDeq)])
    {
      hide Went;
      hide Device.History;
      hide RunInv;
      hide Engine.InOrder;
      hide Dsts;
      hide Engine.Held;
      hide Engine.Dequeued;
      hide Executed;
      hide Bufs;
      hide Runnable;
      hide NoDuplicates;
      ghost var p, r := P(), R(Held(), []);
      RunQueueBound(p, r);
      numDeq := Poll(limit);
      ghost var done := Dequeued(numDeq);
      RunDequeued(p, r, done, qp.queue);
      RunOps(done, numDeq);
      totalDeqOps := totalDeqOps + numDeq;
      ghost var r' := R(Held(), done);
      assert r'.s == r.s.(queue := r'.s.queue, deq := r'.s.deq, bufs := Dsts(r'.mem),
                          dequeued := r.s.dequeued + |r'.s.deq|);
      RunCollectKeeps(p, r, r');
    }

    // The length fix-up loop over the operations just dequeued.
    method SettleLengths(k: nat, ghost done: seq<Op>)
      requires Laid() && k <= totalOps && done == Dequeued(k)
      requires 0 < outSegSz && ChainsOk(P(), outs) && NoDuplicates(Bufs(Dsts(mem), done))
      requires AllSuccess(mem, done) && forall i :: 0 <= i < k ==> Ran(P(), mem, outs, done[i])
      modifies this`outs
      ensures Fixed(P(), done, mem, old(outs), outs)
    {
      hide Fixed;
      hide Ran;
      hide ChainsOk;
      hide Bufs;
      ghost var p, outs0 := P(), outs;
      FixedNone(p, mem, outs);
      assert done[..0] == [];
      for i := 0 to k
        invariant P() == p && |outs| == |outs0|
        invariant Fixed(p, done[..i], mem, outs0, outs)
      {
        var h := ops[deqBase + i];
        assert h == done[i] && Ran(p, mem, outs0, done[i]);
        FixedRest(p, done, i, mem, outs0, outs);
        var m := FixLengths(outs[mem[h].dst], mem[h].produced, outSegSz);
        FixedStep(p, done, i, mem, outs0, outs, m);
        outs := outs[mem[h].dst := m];
      }
      assert done[..k] == done;
    }

    // Dequeued operations go back to the pool. `r` is the state before any
    // output length was fixed up.
    method Recycle(k: nat, ghost r: Run)
      requires Laid() && numEnq + opsUnused <= deqBase && k <= totalOps && InOrder()
      requires RunInv(P(), r) && r.s == R(Held(), Dequeued(k)).s && r.mem == mem
      requires if lastIter then Fixed(P(), Dequeued(k), mem, r.outs, outs) else outs == r.outs
      modifies this`outstanding, this`completed, pool
      ensures Valid()
      ensures completed == old(completed) + Bufs(Dsts(mem), Dequeued(k))
    {
      hide RunInv;
      hide Engine.InOrder;
      hide Fixed;
      hide Bufs;
      hide Dsts;
      hide Engine.Held;
      RunRecycleKeeps(P(), r, outs);
      pool.PutBulk(ops, deqBase, k);
      completed := completed + Bufs(Dsts(mem), Dequeued(k));
      outstanding := outstanding - k;
      assert R(Held(), []) == Run(Recycled(r.s), mem, outs);
    }

    // The end of a round: in the last iteration the output lengths are fixed
    // up, then the operations go back to the pool.
    method Finish(k: nat)
      requires Between(k)
      requires lastIter ==> AllSuccess(mem, Dequeued(k))
      modifies this`outs, this`outstanding, this`completed, pool
      ensures Valid()
      ensures completed == old(completed) + Bufs(Dsts(mem), Dequeued(k))
    {
      hide RunInv;
      hide Engine.InOrder;
      hide Fixed;
      hide Bufs;
      hide Ran;
      hide AllSuccess;
      hide ChainsOk;
      hide NoDuplicates;
      hide Engine.Held;
      ghost var r := R(Held(), Dequeued(k));
      RunRan(P(), r);
      if lastIter {
        SettleLengths(k, Dequeued(k));
      }
      Recycle(k, r);
    }
  }
}
