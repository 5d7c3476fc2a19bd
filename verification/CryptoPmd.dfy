// The crypto PMD cycle-count test: fill the device queue from one array of
// operations, drain it back into the same array, and put all of it back.

module CryptoPmd {
  import opened Common
  import opened Burst
  import opened Pacing

  class CycleCount {
    const pool: OpPool
    const dev: Device
    const ops: array<Op>
    const totalOps: nat
    const nbDescriptors: nat
    var opsEnqd: nat
    var opsDeqd: nat

    constructor (pool: OpPool, dev: Device, totalOps: nat, nbDescriptors: nat)
      ensures this.pool == pool && this.dev == dev && this.totalOps == totalOps && this.nbDescriptors == nbDescriptors
      ensures ops.Length == nbDescriptors && fresh(ops)
    {
      this.pool, this.dev, this.totalOps, this.nbDescriptors := pool, dev, totalOps, nbDescriptors;
      ops := new Op[nbDescriptors];
    }

    ghost function Front(n: nat): (s: seq<Op>)
      requires n <= ops.Length
      reads ops
      ensures |s| == n
    {
      ops[..n]
    }

    ghost function Back(n: nat): (s: seq<Op>)
      requires n <= ops.Length
      reads ops
      ensures |s| == ops.Length - n
    {
      ops[n..]
    }

    // pmd_cyclecount_bench_ops: as many operations as a fill needs are allocated
    // and freed, burst by burst, which leaves the pool as it was.
    method BenchOps(curOp: nat, testBurstSize: nat) returns (ok: bool)
      requires curOp < totalOps && 0 < testBurstSize && ops.Length == nbDescriptors <= |pool.free|
      modifies pool, ops
      ensures ok && multiset(pool.free) == multiset(old(pool.free))
      ensures pool.gets == old(pool.gets) + Bursts(Min(nbDescriptors, totalOps - curOp), testBurstSize)
    {
      hide Bursts;
      var iterOpsNeeded := Min(nbDescriptors, totalOps - curOp);
      var curIterOp := 0;
      ok := true;
      ghost var gets := [];
      while curIterOp < iterOpsNeeded
        invariant ok && multiset(pool.free) == multiset(old(pool.free))
        invariant pool.gets == old(pool.gets) + gets
        invariant gets + Bursts(Left(iterOpsNeeded, curIterOp), testBurstSize) == Bursts(iterOpsNeeded, testBurstSize)
        decreases iterOpsNeeded - curIterOp
      {
        NextBurst(gets, iterOpsNeeded, curIterOp, testBurstSize);
        var burstSize := Min(iterOpsNeeded - curIterOp, testBurstSize);
        gets := gets + [burstSize];
        SameSize(pool.free, old(pool.free));
        ok := pool.GetBulk(ops, curIterOp, burstSize);
        if !ok {
          return;
        }
        pool.PutBulk(ops, curIterOp, burstSize);
        curIterOp := curIterOp + testBurstSize;
      }
      NoBursts(gets, testBurstSize);
    }

    method BuildBurst(at: nat, n: nat) returns (ok: bool)
      requires at + n <= ops.Length
      modifies pool, ops
      ensures ok == (n <= |old(pool.free)|)
      ensures ok ==> |pool.free| + n == |old(pool.free)| && pool.gets == old(pool.gets) + [n]
      ensures ok ==> multiset(pool.free) + multiset(Front(at + n)) == multiset(old(pool.free)) + multiset(old(Front(at)))
    {
      ghost var built := ops[..at];
      ok := pool.GetBulk(ops, at, n);
      if ok {
        assert ops[..at + n] == built + ops[at..at + n];
      }
    }

    // pmd_cyclecount_build_ops: the first `needed` entries are operations taken
    // from the pool.
    method BuildOps(iterOpsNeeded: nat, testBurstSize: nat) returns (ok: bool)
      requires 0 < testBurstSize && iterOpsNeeded <= ops.Length && iterOpsNeeded <= |pool.free|
      modifies pool, ops
      ensures ok && multiset(pool.free) + multiset(Front(iterOpsNeeded)) == multiset(old(pool.free))
      ensures pool.gets == old(pool.gets) + Bursts(iterOpsNeeded, testBurstSize)
    {
      hide Bursts;
      var curIterOp := 0;
      ok := true;
      ghost var gets := [];
      assert Front(0) == [];
      hide CycleCount.Front;
      while curIterOp < iterOpsNeeded
        invariant ok && |pool.free| == |old(pool.free)| - Min(curIterOp, iterOpsNeeded)
        invariant multiset(pool.free) + multiset(Front(Min(curIterOp, iterOpsNeeded))) == multiset(old(pool.free))
        invariant pool.gets == old(pool.gets) + gets
        invariant gets + Bursts(Left(iterOpsNeeded, curIterOp), testBurstSize) == Bursts(iterOpsNeeded, testBurstSize)
        decreases iterOpsNeeded - curIterOp
      {
        NextBurst(gets, iterOpsNeeded, curIterOp, testBurstSize);
        var burstSize := Min(iterOpsNeeded - curIterOp, testBurstSize);
        gets := gets + [burstSize];
        ok := BuildBurst(curIterOp, burstSize);
        if !ok {
          return;
        }
        curIterOp := curIterOp + testBurstSize;
      }
      NoBursts(gets, testBurstSize);
    }

    // pmd_cyclecount_bench_enq: the device takes a prefix, whole only when it
    // never refuses a burst outright.
    method BenchEnq(iterOpsNeeded: nat, testBurstSize: nat) returns (enqd: nat, ghost rs: seq<Request>)
      requires 0 < testBurstSize && iterOpsNeeded <= ops.Length
      modifies dev, this`opsEnqd
      ensures enqd <= iterOpsNeeded && dev.queue == old(dev.queue) + Front(enqd)
      ensures opsEnqd == old(opsEnqd) + enqd
      ensures dev.stalls <= old(dev.stalls) && (enqd < iterOpsNeeded ==> dev.stalls < old(dev.stalls))
      ensures Filling(old(dev.History()), dev.History(), rs, testBurstSize, iterOpsNeeded, enqd)
      ensures Filled(rs, iterOpsNeeded)
    {
      hide Went;
      hide Filling;
      hide Filled;
      hide Device.History;
      ghost var start := dev.History();
      rs := [];
      StartsFilling(start, testBurstSize, iterOpsNeeded);
      var curIterOp := 0;
      while curIterOp < iterOpsNeeded
        invariant curIterOp <= iterOpsNeeded && dev.queue == old(dev.queue) + ops[..curIterOp]
        invariant Filling(start, dev.History(), rs, testBurstSize, iterOpsNeeded, curIterOp)
        invariant Filled(rs, iterOpsNeeded) <==> curIterOp == iterOpsNeeded
        invariant opsEnqd == old(opsEnqd) + curIterOp && dev.stalls <= old(dev.stalls)
      {
        var burstSize := Min(iterOpsNeeded - curIterOp, testBurstSize);
        ghost var h := dev.History();
        var burstEnqd := dev.EnqueueBurst(ops, curIterOp, burstSize);
        FillOne(start, h, dev.History(), rs, testBurstSize, iterOpsNeeded, curIterOp, burstSize, burstEnqd);
        rs := rs + [Enq(burstSize, burstEnqd)];
        if burstEnqd == 0 {
          enqd := curIterOp;
          return;
        }
        assert ops[..curIterOp + burstEnqd] == ops[..curIterOp] + ops[curIterOp..curIterOp + burstEnqd];
        opsEnqd := opsEnqd + burstEnqd;
        curIterOp := curIterOp + burstEnqd;
      }
      enqd := iterOpsNeeded;
    }

    // One dequeue into the array at `at`, short of `end`.
    method DeqBurst(at: nat, n: nat, ghost end: nat) returns (k: nat)
      requires at + n <= end <= ops.Length
      modifies dev, ops
      ensures k <= Min(n, |old(dev.queue)|) && |dev.queue| + k == |old(dev.queue)|
      ensures multiset(Front(at + k)) + multiset(dev.queue) == multiset(old(Front(at))) + multiset(old(dev.queue))
      ensures Back(end) == old(Back(end))
      ensures dev.stalls <= old(dev.stalls) && (k == 0 < Min(n, |old(dev.queue)|) ==> dev.stalls < old(dev.stalls))
      ensures Went(old(dev.History()), dev.History(), [Deq(n, k)])
    {
      hide Went;
      hide Device.History;
      ghost var back := ops[..at];
      k := dev.DequeueBurst(ops, at, n);
      assert ops[..at + k] == back + ops[at..at + k];
      assert ops[end..] == ops[at + k..][end - at - k..];
      assert old(ops[end..]) == old(ops[at + k..])[end - at - k..];
    }

    // pmd_cyclecount_bench_deq: the operations in the device come back into the
    // front of the same array; nothing behind them changes. rs0 are the requests
    // that filled the device.
    method BenchDeq(iterOpsNeeded: nat, testBurstSize: nat, ghost start: Past, ghost rs0: seq<Request>, ghost n: nat)
      returns (ghost rs: seq<Request>)
      requires 0 < testBurstSize && iterOpsNeeded == |dev.queue| <= ops.Length
      requires Draining(start, dev.History(), rs0, testBurstSize, n, iterOpsNeeded, 0)
      modifies dev, ops, this`opsDeqd
      ensures dev.queue == [] && multiset(Front(iterOpsNeeded)) == multiset(old(dev.queue))
      ensures Back(iterOpsNeeded) == old(Back(iterOpsNeeded))
      ensures opsDeqd == old(opsDeqd) + iterOpsNeeded
      ensures dev.stalls <= old(dev.stalls)
      ensures Draining(start, dev.History(), rs, testBurstSize, n, iterOpsNeeded, iterOpsNeeded)
    {
      hide Went;
      hide Draining;
      hide Device.History;
      rs := rs0;
      var curIterOp := 0;
      assert Front(0) == [];
      hide CycleCount.Front;
      hide CycleCount.Back;
      while curIterOp < iterOpsNeeded
        invariant curIterOp + |dev.queue| == iterOpsNeeded
        invariant multiset(Front(curIterOp)) + multiset(dev.queue) == multiset(old(dev.queue))
        invariant Back(iterOpsNeeded) == old(Back(iterOpsNeeded))
        invariant Draining(start, dev.History(), rs, testBurstSize, n, iterOpsNeeded, curIterOp)
        invariant opsDeqd == old(opsDeqd) + curIterOp && dev.stalls <= old(dev.stalls)
        decreases iterOpsNeeded - curIterOp, dev.stalls
      {
        var burstSize := Min(iterOpsNeeded - curIterOp, testBurstSize);
        ghost var h := dev.History();
        var burstDeqd := DeqBurst(curIterOp, burstSize, iterOpsNeeded);
        DrainOne(start, h, dev.History(), rs, testBurstSize, n, iterOpsNeeded, curIterOp, burstSize, burstDeqd);
        rs := rs + [Deq(burstSize, burstDeqd)];
        opsDeqd := opsDeqd + burstDeqd;
        curIterOp := curIterOp + burstDeqd;
      }
    }

    // Enqueueing and dequeueing leave the array a permutation of itself.
    method EnqDeq(iterOpsNeeded: nat, testBurstSize: nat) returns (done: nat, ghost rs: seq<Request>)
      requires 0 < testBurstSize && iterOpsNeeded <= ops.Length && dev.queue == []
      modifies this`opsEnqd, this`opsDeqd, dev, ops
      ensures done <= iterOpsNeeded && dev.queue == []
      ensures multiset(Front(iterOpsNeeded)) == multiset(old(Front(iterOpsNeeded)))
      ensures opsEnqd == old(opsEnqd) + done && opsDeqd == old(opsDeqd) + done
      ensures dev.stalls <= old(dev.stalls) && (done < iterOpsNeeded ==> dev.stalls < old(dev.stalls))
      ensures Went(old(dev.History()), dev.History(), rs) && FillComplete(rs, testBurstSize, iterOpsNeeded)
      ensures Taken(rs) == Given(rs) == done
    {
      hide Went;
      hide Filling;
      hide Filled;
      hide Draining;
      hide FillComplete;
      hide Taken;
      hide Given;
      hide Device.History;
      ghost var start := dev.History();
      done, rs := BenchEnq(iterOpsNeeded, testBurstSize);
      Splits(ops[..], done, iterOpsNeeded);
      StartsDraining(start, dev.History(), rs, testBurstSize, iterOpsNeeded, done);
      rs := BenchDeq(done, testBurstSize, start, rs, iterOpsNeeded);
      EndsDrained(start, dev.History(), rs, testBurstSize, iterOpsNeeded, done);
      Splits(ops[..], done, iterOpsNeeded);
    }

    // One fill of the queue. However little of it the device takes, what is in
    // the array afterwards is what was allocated, in some order, so one bulk
    // put returns every operation exactly once.
    method Fill(curOp: nat, testBurstSize: nat) returns (ok: bool, done: nat, ghost rs: seq<Request>)
      requires curOp < totalOps && 0 < testBurstSize && dev.queue == []
      requires 0 < ops.Length == nbDescriptors <= |pool.free|
      modifies this`opsEnqd, this`opsDeqd, pool, dev, ops
      ensures ok && done <= totalOps - curOp
      ensures opsEnqd == old(opsEnqd) + done && opsDeqd == old(opsDeqd) + done
      ensures multiset(pool.free) == multiset(old(pool.free)) && dev.queue == []
      ensures dev.stalls <= old(dev.stalls) && (done == 0 ==> dev.stalls < old(dev.stalls))
      ensures Went(old(dev.History()), dev.History(), rs) && Taken(rs) == Given(rs) == done
      ensures FillComplete(rs, testBurstSize, Min(nbDescriptors, totalOps - curOp))
      ensures pool.gets == old(pool.gets) + Bursts(Min(nbDescriptors, totalOps - curOp), testBurstSize)
    {
      hide Went;
      hide FillComplete;
      hide Taken;
      hide Given;
      hide Bursts;
      hide Device.History;
      var iterOpsNeeded := Min(nbDescriptors, totalOps - curOp);
      var iterOpsAllocd := iterOpsNeeded;
      done, rs := 0, [];
      ok := BuildOps(iterOpsNeeded, testBurstSize);
      if !ok {
        return;
      }
      done, rs := EnqDeq(iterOpsNeeded, testBurstSize);
      pool.PutBulk(ops, 0, iterOpsAllocd);
      assert ops[0..iterOpsAllocd] == Front(iterOpsAllocd);
    }

    // The allocations benchmarked before anything is enqueued.
    method BenchAllOps(testBurstSize: nat) returns (ok: bool)
      requires 0 < testBurstSize && 0 < ops.Length == nbDescriptors <= |pool.free|
      modifies pool, ops
      ensures ok && multiset(pool.free) == multiset(old(pool.free))
      ensures pool.gets == old(pool.gets) + AllBursts(0, totalOps, nbDescriptors, testBurstSize)
    {
      hide Bursts;
      hide AllBursts;
      var curOp := 0;
      ok := true;
      ghost var gets := [];
      while curOp < totalOps
        invariant ok && multiset(pool.free) == multiset(old(pool.free)) && pool.gets == old(pool.gets) + gets
        invariant gets + AllBursts(curOp, totalOps, nbDescriptors, testBurstSize) ==
          AllBursts(0, totalOps, nbDescriptors, testBurstSize)
        decreases totalOps - curOp
      {
        SameSize(pool.free, old(pool.free));
        NextBursts(gets, curOp, totalOps, nbDescriptors, testBurstSize);
        gets := gets + Bursts(Min(nbDescriptors, totalOps - curOp), testBurstSize);
        ok := BenchOps(curOp, testBurstSize);
        if !ok {
          return;
        }
        curOp := curOp + nbDescriptors;
      }
      NoMoreBursts(gets, curOp, totalOps, nbDescriptors, testBurstSize);
    }

    // pmd_cyclecount_bench_burst_sz: first the allocations alone, then the
    // device is filled and drained until all operations went through it; in the
    // end all of them are back in the pool. parts[i] is what the device was asked
    // for in the i-th fill.
    method BenchBurstSz(testBurstSize: nat) returns (ret: int, ghost parts: seq<seq<Request>>)
      requires 0 < testBurstSize && dev.queue == [] && 0 < ops.Length == nbDescriptors <= |pool.free|
      modifies this`opsEnqd, this`opsDeqd, pool, dev, ops
      ensures ret == 0 && opsEnqd == opsDeqd == totalOps
      ensures multiset(pool.free) == multiset(old(pool.free)) && dev.queue == []
      ensures Went(old(dev.History()), dev.History(), Joined(parts))
      ensures Taken(Joined(parts)) == Given(Joined(parts)) == totalOps
      ensures Fills(parts, testBurstSize, nbDescriptors, totalOps)
      ensures pool.gets == old(pool.gets) + (AllBursts(0, totalOps, nbDescriptors, testBurstSize) +
        FillBursts(parts, testBurstSize, nbDescriptors, totalOps))
    {
      hide Went;
      hide Joined;
      hide Fills;
      hide FillComplete;
      hide Taken;
      hide Given;
      hide Bursts;
      hide AllBursts;
      hide FillBursts;
      hide Device.History;
      opsEnqd, opsDeqd, parts := 0, 0, [];
      NothingJoined(dev.History());
      NoFills(testBurstSize, nbDescriptors, totalOps);
      var ok := BenchAllOps(testBurstSize);
      if !ok {
        return -1, parts;
      }
      ghost var gets := pool.gets;
      var curOp := 0;
      while curOp < totalOps
        invariant multiset(pool.free) == multiset(old(pool.free)) && dev.queue == []
        invariant opsEnqd == opsDeqd == curOp <= totalOps
        invariant Went(old(dev.History()), dev.History(), Joined(parts))
        invariant Taken(Joined(parts)) == Given(Joined(parts)) == curOp
        invariant Fills(parts, testBurstSize, nbDescriptors, totalOps)
        invariant pool.gets == gets + FillBursts(parts, testBurstSize, nbDescriptors, totalOps)
        decreases totalOps - curOp, dev.stalls
      {
        SameSize(pool.free, old(pool.free));
        ghost var h := dev.History();
        var done;
        ghost var rs;
        ok, done, rs := Fill(curOp, testBurstSize);
        if !ok {
          return -1, parts;
        }
        WentOn(old(dev.History()), h, dev.History(), Joined(parts), rs);
        NextFill(parts, rs, testBurstSize, nbDescriptors, totalOps, curOp);
        parts := parts + [rs];
        curOp := curOp + done;
      }
      ret := 0;
    }
  }

  function Left(n: nat, at: nat): nat {
    if at <= n then n - at else 0
  }

  lemma NextBurst(gets: seq<nat>, n: nat, at: nat, burst: nat)
    requires at < n && 0 < burst
    ensures
      gets + Bursts(Left(n, at), burst) ==
        (gets + [Min(n - at, burst)]) + Bursts(Left(n, at + burst), burst)
  {
    ConcatAssociates(gets, [Min(n - at, burst)], Bursts(Left(n, at + burst), burst));
  }

  lemma NoBursts(gets: seq<nat>, burst: nat)
    requires 0 < burst
    ensures gets + Bursts(0, burst) == gets
  {}

  // The bursts of all fills from operation `cur` on.
  function AllBursts(cur: nat, total: nat, most: nat, burst: nat): seq<nat>
    requires 0 < most && 0 < burst
    decreases total - cur
  {
    if total <= cur then [] else Bursts(Min(most, total - cur), burst) + AllBursts(cur + most, total, most, burst)
  }

  lemma NextBursts(gets: seq<nat>, cur: nat, total: nat, most: nat, burst: nat)
    requires 0 < most && 0 < burst && cur < total
    ensures
      gets + AllBursts(cur, total, most, burst) ==
        (gets + Bursts(Min(most, total - cur), burst)) + AllBursts(cur + most, total, most, burst)
  {
    hide Bursts;
    ConcatAssociates(gets, Bursts(Min(most, total - cur), burst), AllBursts(cur + most, total, most, burst));
  }

  lemma NoMoreBursts(gets: seq<nat>, cur: nat, total: nat, most: nat, burst: nat)
    requires 0 < most && 0 < burst && total <= cur
    ensures gets + AllBursts(cur, total, most, burst) == gets
  {}

  // The bursts allocated for some fills, each of what was left to do.
  ghost function FillBursts(parts: seq<seq<Request>>, burst: nat, most: nat, total: nat): seq<nat>
    requires 0 < burst
  {
    if parts == [] then []
    else
      var front := parts[..|parts| - 1];
      FillBursts(front, burst, most, total) + Bursts(Min(most, Left(total, Taken(Joined(front)))), burst)
  }

  lemma NoFills(burst: nat, most: nat, total: nat)
    requires 0 < burst
    ensures Taken(Joined([])) == Given(Joined([])) == 0
    ensures Fills([], burst, most, total) && FillBursts([], burst, most, total) == []
  {}

  lemma NextFill(parts: seq<seq<Request>>, rs: seq<Request>, burst: nat, most: nat, total: nat, cur: nat)
    requires 0 < burst && Fills(parts, burst, most, total) && Taken(Joined(parts)) == Given(Joined(parts)) == cur < total
    requires FillComplete(rs, burst, Min(most, total - cur))
    ensures Joined(parts + [rs]) == Joined(parts) + rs && Fills(parts + [rs], burst, most, total)
    ensures Taken(Joined(parts + [rs])) == cur + Taken(rs) && Given(Joined(parts + [rs])) == cur + Given(rs)
    ensures FillBursts(parts + [rs], burst, most, total) ==
      FillBursts(parts, burst, most, total) + Bursts(Min(most, total - cur), burst)
  {
    hide Taken;
    hide Given;
    hide FillComplete;
    hide Bursts;
    assert (parts + [rs])[..|parts|] == parts;
    JoinedNext(parts, rs);
    RequestsConcat(Joined(parts), rs);
  }

  // The first n entries are the first k and what follows them.
  lemma Splits(a: seq<Op>, k: nat, n: nat)
    requires k <= n <= |a|
    ensures multiset(a[..n]) == multiset(a[..k]) + multiset(a[k..][..n - k])
  {
    assert a[..n] == a[..k] + a[k..][..n - k];
  }

  lemma SameSize(a: seq<Op>, b: seq<Op>)
    requires multiset(a) == multiset(b)
    ensures |a| == |b|
  {
    assert |multiset(a)| == |multiset(b)|;
  }
}
