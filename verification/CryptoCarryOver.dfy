// The burst loop of the crypto throughput and verify tests. Unlike in the
// compression tests, the operations for the next burst are fetched into the
// front of ops[] first, and the ones left over from the last burst are moved up
// behind them afterwards.

module CryptoCarryOver {
  import opened Common
  import opened Burst
  import opened Pacing
  import CarryOver

  datatype Config = Config(all: multiset<Op>, total: nat, burst: nat)

  // held are the operations the device did not take, last the size of the
  // burst they were part of.
  datatype State = State(free: seq<Op>, held: seq<Op>, queue: seq<Op>, last: nat, enqueued: nat, dequeued: nat)

  function BurstSize(c: Config, enqueued: nat): nat
    requires enqueued <= c.total
  {
    Min(c.burst, c.total - enqueued)
  }

  ghost predicate Conserved(c: Config, s: State) {
    multiset(s.free) + multiset(s.held) + multiset(s.queue) == c.all
  }

  ghost predicate Counted(c: Config, s: State) {
    && s.enqueued == s.dequeued + |s.queue| <= c.total
    && |s.held| <= Min(s.last, c.total - s.enqueued)
    && s.last <= c.burst
    && s.last - |s.held| <= s.enqueued
    && (s.last == 0 || s.last == Min(c.burst, c.total - (s.enqueued - (s.last - |s.held|))))
  }

  ghost predicate Invariant(c: Config, s: State) {
    Distinct(c.all) && 0 < c.burst && Conserved(c, s) && Counted(c, s)
  }

  lemma StartHolds(c: Config, s: State)
    requires Distinct(c.all) && 0 < c.burst && multiset(s.free) == c.all
    requires s.held == [] && s.queue == [] && s.last == s.enqueued == s.dequeued == 0
    ensures Invariant(c, s)
  {}

  // Bursts never grow while there is something left over, so the subtraction
  // burst_size - ops_unused does not wrap, and the operations fetched into the
  // front of ops[] end before the first one left over.
  lemma FetchClear(c: Config, s: State)
    requires Invariant(c, s)
    ensures |s.held| <= BurstSize(c, s.enqueued)
    ensures s.held != [] ==> BurstSize(c, s.enqueued) - |s.held| <= s.last - |s.held|
  {}

  // When the pool has not got the operations asked for, it is smaller than the
  // number of operations of the test.
  lemma FetchFails(c: Config, s: State)
    requires Invariant(c, s) && |s.free| < BurstSize(c, s.enqueued) - |s.held|
    ensures |c.all| < c.total
  {
    assert |c.all| == |s.free| + |s.held| + |s.queue|;
  }

  // The window offered next: the operations just fetched, then those left over.
  ghost predicate Fetched(c: Config, s: State, free': seq<Op>, added: seq<Op>) {
    && s.enqueued <= c.total && |added| + |s.held| == BurstSize(c, s.enqueued)
    && multiset(free') + multiset(added) == multiset(s.free)
  }

  lemma WindowDistinct(c: Config, s: State, free': seq<Op>, added: seq<Op>)
    requires Invariant(c, s) && Fetched(c, s, free', added)
    ensures NoDuplicates(added + s.held)
    ensures forall h :: h in added + s.held ==> h in c.all && h !in free' && h !in s.queue
  {
    var window, rest := added + s.held, free' + s.queue;
    assert multiset(window) == multiset(added) + multiset(s.held);
    assert multiset(rest) == multiset(free') + multiset(s.queue);
    Regroup(multiset(free'), multiset(added), multiset(s.held), multiset(s.queue));
    CarryOver.Separate(c.all, window, rest);
  }

  lemma Regroup(f: multiset<Op>, a: multiset<Op>, h: multiset<Op>, q: multiset<Op>)
    ensures (f + a) + h + q == (a + h) + (f + q)
  {}

  function Submitted(s: State, free': seq<Op>, window: seq<Op>, k: nat): State
    requires k <= |window|
  {
    State(free', window[k..], s.queue + window[..k], |window|, s.enqueued + k, s.dequeued)
  }

  lemma SubmitKeeps(c: Config, s: State, free': seq<Op>, added: seq<Op>, k: nat)
    requires Invariant(c, s) && Fetched(c, s, free', added) && k <= |added| + |s.held|
    ensures Invariant(c, Submitted(s, free', added + s.held, k))
  {
    var window := added + s.held;
    var s' := Submitted(s, free', window, k);
    assert window == window[..k] + window[k..];
    assert multiset(window) == multiset(window[..k]) + multiset(window[k..]);
    Exchange(multiset(free'), multiset(added), multiset(s.held), multiset(s.queue),
             multiset(window[..k]), multiset(window[k..]));
  }

  lemma Exchange(f: multiset<Op>, a: multiset<Op>, h: multiset<Op>, q: multiset<Op>, x: multiset<Op>, y: multiset<Op>)
    requires a + h == x + y
    ensures f + y + (q + x) == (f + a) + h + q
  {
    assert f + y + (q + x) == f + (x + y) + q == f + (a + h) + q;
  }

  // Whatever the device hands back goes straight to the pool.
  lemma CollectKeeps(c: Config, s: State, done: seq<Op>, queue': seq<Op>)
    requires Invariant(c, s) && multiset(done) + multiset(queue') == multiset(s.queue)
    ensures |done| + |queue'| == |s.queue|
    ensures Invariant(c, s.(free := s.free + done, queue := queue', dequeued := s.dequeued + |done|))
  {
    assert |multiset(done)| + |multiset(queue')| == |multiset(s.queue)|;
    Move(multiset(s.free), multiset(s.held), multiset(done), multiset(queue'));
  }

  lemma Move(f: multiset<Op>, h: multiset<Op>, d: multiset<Op>, q: multiset<Op>)
    ensures (f + d) + h + q == f + h + (d + q)
  {}

  lemma RunEnds(c: Config, s: State)
    requires Invariant(c, s) && s.dequeued == c.total
    ensures s.enqueued == c.total && s.held == [] && s.queue == [] && multiset(s.free) == c.all
  {}

  // One step of a run: a window fetched and a prefix of it accepted, or some
  // operations handed back.
  ghost predicate Next(c: Config, s: State, s': State) {
    || (exists free', added, k :: 0 <= k <= |added| + |s.held| && Fetched(c, s, free', added)
          && s' == Submitted(s, free', added + s.held, k))
    || (exists done: seq<Op>, queue': seq<Op> :: multiset(done) + multiset(queue') == multiset(s.queue)
          && s' == s.(free := s.free + done, queue := queue', dequeued := s.dequeued + |done|))
  }

  lemma NextKeeps(c: Config, s: State, s': State)
    requires Invariant(c, s) && Next(c, s, s')
    ensures Invariant(c, s')
  {
    hide Invariant;
    hide Fetched;
    hide Submitted;
    if free', added, k :| 0 <= k <= |added| + |s.held| && Fetched(c, s, free', added)
                         && s' == Submitted(s, free', added + s.held, k) {
      SubmitKeeps(c, s, free', added, k);
    } else {
      var done: seq<Op>, queue': seq<Op> :| multiset(done) + multiset(queue') == multiset(s.queue)
        && s' == s.(free := s.free + done, queue := queue', dequeued := s.dequeued + |done|);
      CollectKeeps(c, s, done, queue');
    }
  }

  // Safety on whole runs.
  lemma {:induction false} RunsKeep(c: Config, run: seq<State>, i: nat)
    requires i < |run| && Invariant(c, run[0])
    requires forall j :: 0 <= j < |run| - 1 ==> Next(c, run[j], run[j + 1])
    ensures Invariant(c, run[i])
  {
    hide Invariant;
    hide Next;
    if 0 < i {
      RunsKeep(c, run, i - 1);
      assert Next(c, run[i - 1], run[i - 1 + 1]);
      NextKeeps(c, run[i - 1], run[i]);
    }
  }

  class BurstLoop {
    const pool: OpPool
    const dev: Device
    const ops: array<Op>
    const opsProcessed: array<Op>
    const totalOps: nat
    ghost const all: multiset<Op>

    var testBurstSize: nat
    var opsEnqd: nat
    var opsUnused: nat
    var opsEnqdTotal: nat
    var opsDeqdTotal: nat

    constructor (pool: OpPool, dev: Device, totalOps: nat, maxBurstSize: nat)
      ensures this.pool == pool && this.dev == dev && this.totalOps == totalOps
      ensures ops.Length == opsProcessed.Length == maxBurstSize && fresh(ops) && fresh(opsProcessed)
      ensures ops != opsProcessed && all == multiset(pool.free)
    {
      this.pool, this.dev, this.totalOps := pool, dev, totalOps;
      ops := new Op[maxBurstSize];
      opsProcessed := new Op[maxBurstSize];
      all := multiset(pool.free);
    }

    ghost function C(): Config
      reads this`testBurstSize
    {
      Config(all, totalOps, testBurstSize)
    }

    // The operations left over from the last burst.
    ghost function Held(): (s: seq<Op>)
      requires opsEnqd + opsUnused <= ops.Length
      reads this`opsEnqd, this`opsUnused, ops
      ensures |s| == opsUnused
    {
      ops[opsEnqd..opsEnqd + opsUnused]
    }

    ghost function S(): State
      requires opsEnqd + opsUnused <= ops.Length
      reads this, pool, dev, ops
    {
      State(pool.free, Held(), dev.queue, opsEnqd + opsUnused, opsEnqdTotal, opsDeqdTotal)
    }

    ghost predicate Sized()
      reads this`testBurstSize
    {
      ops != opsProcessed && testBurstSize <= ops.Length && testBurstSize <= opsProcessed.Length
    }

    ghost predicate Valid()
      reads this, pool, dev, ops
    {
      Sized() && opsEnqd + opsUnused <= ops.Length && Invariant(C(), S())
    }

    method Start(burst: nat)
      requires ops != opsProcessed && 0 < burst <= ops.Length == opsProcessed.Length
      requires Distinct(all) && multiset(pool.free) == all && dev.queue == []
      modifies this
      ensures Valid() && testBurstSize == burst && opsEnqdTotal == opsDeqdTotal == 0
    {
      testBurstSize := burst;
      opsEnqd, opsUnused, opsEnqdTotal, opsDeqdTotal := 0, 0, 0, 0;
      StartHolds(C(), S());
    }

    // The operations fetched go below those left over.
    method Fetch(opsNeeded: nat) returns (ok: bool)
      requires opsEnqd + opsUnused <= ops.Length && opsNeeded <= ops.Length
      requires opsUnused != 0 ==> opsNeeded <= opsEnqd
      modifies pool, ops
      ensures ok == (opsNeeded <= |old(pool.free)|)
      ensures ok ==> multiset(pool.free) + multiset(ops[..opsNeeded]) == multiset(old(pool.free))
      ensures ok ==> Held() == old(Held())
    {
      ok := pool.GetBulk(ops, 0, opsNeeded);
      if ok {
        TailKeeps(ops[..], old(ops[..]), opsNeeded, opsEnqd, opsEnqd + opsUnused);
      }
    }

    // Those left over move up behind them, unless they are there already.
    method MoveUp(opsNeeded: nat)
      requires opsEnqd + opsUnused <= ops.Length && opsNeeded + opsUnused <= ops.Length
      requires opsUnused != 0 ==> opsNeeded <= opsEnqd
      modifies ops
      ensures ops[..opsNeeded + opsUnused] == old(ops[..opsNeeded]) + old(Held())
    {
      if opsEnqd > opsNeeded {
        Memmove(ops, opsNeeded, opsEnqd, opsUnused);
        assert ops[..opsNeeded + opsUnused] == ops[..opsNeeded] + ops[opsNeeded..opsNeeded + opsUnused];
      }
    }

    // The window is the operations fetched followed by those left over, none
    // overwritten.
    method Refill() returns (burstSize: nat, ok: bool, ghost added: seq<Op>)
      requires Valid() && opsEnqdTotal < totalOps
      modifies pool, ops
      ensures 0 < burstSize == BurstSize(C(), opsEnqdTotal) <= ops.Length
      ensures !ok ==> |all| < totalOps
      ensures ok ==> ops[..burstSize] == added + old(Held()) && Fetched(C(), old(S()), pool.free, added)
      ensures ok ==> NoDuplicates(ops[..burstSize])
    {
      hide Conserved;
      hide BurstLoop.Held;
      ghost var c, s := C(), S();
      FetchClear(c, s);
      burstSize := if opsEnqdTotal + testBurstSize <= totalOps then testBurstSize else totalOps - opsEnqdTotal;
      var opsNeeded: nat := burstSize - opsUnused;
      ok := Fetch(opsNeeded);
      if !ok {
        FetchFails(c, s);
        return burstSize, ok, [];
      }
      added := ops[..opsNeeded];
      MoveUp(opsNeeded);
      WindowDistinct(c, s, pool.free, added);
    }

    static lemma TailKeeps(a: seq<Op>, b: seq<Op>, n: nat, lo: nat, hi: nat)
      requires n <= |a| == |b| && a[n..] == b[n..] && lo <= hi <= |a| && (lo < hi ==> n <= lo)
      ensures a[lo..hi] == b[lo..hi]
    {
      forall i | lo <= i < hi ensures a[i] == b[i] {
        assert a[n..][i - n] == b[n..][i - n];
      }
    }

    // rte_cryptodev_enqueue_burst of the window, and the counters after it.
    method Offer(burstSize: nat) returns (k: nat)
      requires 0 < burstSize <= ops.Length
      modifies this`opsEnqd, this`opsUnused, dev
      ensures k == opsEnqd <= burstSize && opsUnused == burstSize - opsEnqd
      ensures Held() == ops[..burstSize][k..] && dev.queue == old(dev.queue) + ops[..burstSize][..k]
      ensures dev.stalls <= old(dev.stalls) && (k == 0 ==> dev.stalls < old(dev.stalls))
      ensures Went(old(dev.History()), dev.History(), [Enq(burstSize, k)])
    {
      hide Went;
      k := dev.EnqueueBurst(ops, 0, burstSize);
      opsEnqd := k;
      opsUnused := burstSize - opsEnqd;
    }

    // What is offered to the device are distinct operations that were waiting,
    // or in the pool, and what it takes of them is counted.
    method Submit(burstSize: nat, ghost added: seq<Op>, ghost s: State)
      requires Sized() && 0 < burstSize <= ops.Length && Invariant(C(), s) && Fetched(C(), s, pool.free, added)
      requires s.queue == dev.queue && s.enqueued == opsEnqdTotal && s.dequeued == opsDeqdTotal
      requires ops[..burstSize] == added + s.held
      modifies this`opsEnqd, this`opsUnused, this`opsEnqdTotal, dev
      ensures Valid() && opsEnqdTotal == old(opsEnqdTotal) + opsEnqd && opsEnqd <= burstSize
      ensures dev.stalls <= old(dev.stalls) && (opsEnqd == 0 ==> dev.stalls < old(dev.stalls))
      ensures Went(old(dev.History()), dev.History(), [Enq(burstSize, opsEnqd)])
    {
      hide Went;
      hide Device.History;
      hide Invariant;
      hide Fetched;
      hide BurstLoop.Held;
      var k := Offer(burstSize);
      SubmitKeeps(C(), s, pool.free, added, k);
      opsEnqdTotal := opsEnqdTotal + opsEnqd;
      assert S() == Submitted(s, pool.free, added + s.held, k);
    }

    // rte_cryptodev_dequeue_burst into ops_processed[].
    method Poll() returns (opsDeqd: nat)
      requires Valid()
      modifies dev, opsProcessed
      ensures opsDeqd <= Min(testBurstSize, old(|dev.queue|)) && opsDeqd <= opsProcessed.Length
      ensures multiset(opsProcessed[0..opsDeqd]) + multiset(dev.queue) == multiset(old(dev.queue))
      ensures |dev.queue| + opsDeqd == old(|dev.queue|)
      ensures dev.stalls <= old(dev.stalls)
      ensures opsDeqd == 0 < Min(testBurstSize, old(|dev.queue|)) ==> dev.stalls < old(dev.stalls)
      ensures Went(old(dev.History()), dev.History(), [Deq(testBurstSize, opsDeqd)])
    {
      hide Went;
      hide Device.History;
      opsDeqd := dev.DequeueBurst(opsProcessed, 0, testBurstSize);
    }

    // An enqueue of nothing, which flushes a software device.
    method Flush()
      requires Valid()
      modifies dev
      ensures Valid() && dev.queue == old(dev.queue) && dev.stalls <= old(dev.stalls)
      ensures Went(old(dev.History()), dev.History(), [Enq(0, 0)])
    {
      hide Went;
      hide Device.History;
      hide Invariant;
      hide BurstLoop.Held;
      ghost var s := S();
      var k := dev.EnqueueBurst(ops, 0, 0);
      assert ops[0..0 + k] == [];
      assert S() == s;
    }

    // The operations dequeued go back to the pool.
    method Release(opsDeqd: nat, ghost s: State)
      requires Sized() && opsDeqd <= opsProcessed.Length && opsEnqd + opsUnused <= ops.Length
      requires Invariant(C(), s) && S() == s.(queue := dev.queue)
      requires multiset(opsProcessed[0..opsDeqd]) + multiset(dev.queue) == multiset(s.queue)
      modifies this`opsDeqdTotal, pool
      ensures Valid() && opsDeqdTotal == old(opsDeqdTotal) + opsDeqd
    {
      hide Invariant;
      hide BurstLoop.Held;
      ghost var done := opsProcessed[0..opsDeqd];
      CollectKeeps(C(), s, done, dev.queue);
      if 0 < opsDeqd {
        pool.PutBulk(opsProcessed, 0, opsDeqd);
      }
      opsDeqdTotal := opsDeqdTotal + opsDeqd;
      assert pool.free == s.free + done;
      assert S() == s.(free := s.free + done, queue := dev.queue, dequeued := s.dequeued + opsDeqd);
    }

    lemma Flying()
      requires Valid()
      ensures |dev.queue| == opsEnqdTotal - opsDeqdTotal && opsEnqdTotal <= totalOps
    {
      hide Invariant;
      InFlight(C(), S());
    }

    lemma Ends()
      requires Valid() && opsDeqdTotal == totalOps
      ensures opsEnqdTotal == totalOps && opsUnused == 0 && multiset(pool.free) == all && dev.queue == []
    {
      hide Invariant;
      RunEnds(C(), S());
    }

    // One round: a burst is offered, a burst is asked back.
    method Round() returns (ok: bool, ghost n: nat, ghost d: nat)
      requires Valid() && opsEnqdTotal < totalOps
      modifies this`opsEnqd, this`opsUnused, this`opsEnqdTotal, this`opsDeqdTotal, pool, dev, ops, opsProcessed
      ensures !ok ==> |all| < totalOps
      ensures ok ==> Valid() && n == Min(testBurstSize, totalOps - old(opsEnqdTotal))
      ensures ok ==> opsEnqdTotal == old(opsEnqdTotal) + opsEnqd && opsDeqdTotal == old(opsDeqdTotal) + d
      ensures ok ==>
        Went(old(dev.History()), dev.History(), [Enq(n, opsEnqd)] + [Deq(testBurstSize, d)])
      ensures dev.stalls <= old(dev.stalls) && (ok && opsEnqd == 0 ==> dev.stalls < old(dev.stalls))
    {
      hide Went;
      hide Device.History;
      hide Invariant;
      hide Fetched;
      hide BurstLoop.Held;
      ghost var s, h := S(), dev.History();
      var burstSize;
      ghost var added;
      n, d := 0, 0;
      burstSize, ok, added := Refill();
      if !ok {
        return;
      }
      n := burstSize;
      Submit(burstSize, added, s);
      s := S();
      ghost var h' := dev.History();
      var opsDeqd := Poll();
      d := opsDeqd;
      WentOn(h, h', dev.History(), [Enq(n, opsEnqd)], [Deq(testBurstSize, d)]);
      Release(opsDeqd, s);
    }

    // One round of the drain.
    method Last() returns (ghost d: nat)
      requires Valid()
      modifies this`opsDeqdTotal, pool, dev, opsProcessed
      ensures Valid() && opsDeqdTotal == old(opsDeqdTotal) + d && |dev.queue| + d == |old(dev.queue)|
      ensures Went(old(dev.History()), dev.History(), [Enq(0, 0)] + [Deq(testBurstSize, d)])
      ensures dev.stalls <= old(dev.stalls)
      ensures d == 0 < Min(testBurstSize, |old(dev.queue)|) ==> dev.stalls < old(dev.stalls)
    {
      hide Went;
      hide Device.History;
      hide Invariant;
      hide BurstLoop.Held;
      Flush();
      ghost var s, h := S(), dev.History();
      var opsDeqd := Poll();
      d := opsDeqd;
      WentOn(old(dev.History()), h, dev.History(), [Enq(0, 0)], [Deq(testBurstSize, d)]);
      Release(opsDeqd, s);
    }

    // One burst size: the pool suffices whenever it has as many operations as
    // the test, and then exactly that many are enqueued and dequeued, in bursts
    // of that size, and all are back in the pool. `rs` is what the device was
    // asked for.
    method Run(burst: nat) returns (ok: bool, ghost rs: seq<Request>)
      requires ops != opsProcessed && 0 < burst <= ops.Length == opsProcessed.Length
      requires Distinct(all) && multiset(pool.free) == all && dev.queue == []
      modifies this, pool, dev, ops, opsProcessed
      ensures !ok ==> |all| < totalOps
      ensures ok ==> opsEnqdTotal == opsDeqdTotal == totalOps
      ensures ok ==> multiset(pool.free) == all && dev.queue == [] && opsUnused == 0
      ensures ok ==> Went(old(dev.History()), dev.History(), rs) && Complete(rs, burst, totalOps)
    {
      hide Went;
      hide InStep;
      hide Complete;
      hide Device.History;
      hide BurstLoop.Valid;
      ghost var start := dev.History();
      rs := [];
      StartsInStep(start, burst, totalOps);
      Start(burst);
      while opsEnqdTotal < totalOps
        invariant Valid() && opsEnqdTotal <= totalOps && testBurstSize == burst
        invariant InStep(start, dev.History(), rs, burst, totalOps, opsEnqdTotal, opsDeqdTotal)
        decreases totalOps - opsEnqdTotal, dev.stalls
      {
        Flying();
        ghost var h, taken, given := dev.History(), opsEnqdTotal, opsDeqdTotal;
        ghost var n, d;
        ok, n, d := Round();
        if !ok {
          return ok, rs;
        }
        RoundInStep(start, h, dev.History(), rs, burst, totalOps, taken, given, n, opsEnqd, d);
        rs := rs + ([Enq(n, opsEnqd)] + [Deq(burst, d)]);
        Flying();
      }
      Flying();
      while opsDeqdTotal < totalOps
        invariant Valid() && |dev.queue| == totalOps - opsDeqdTotal && testBurstSize == burst
        invariant InStep(start, dev.History(), rs, burst, totalOps, totalOps, opsDeqdTotal)
        decreases totalOps - opsDeqdTotal, dev.stalls
      {
        ghost var h, given := dev.History(), opsDeqdTotal;
        ghost var d := Last();
        RoundInStep(start, h, dev.History(), rs, burst, totalOps, totalOps, given, 0, 0, d);
        rs := rs + ([Enq(0, 0)] + [Deq(burst, d)]);
      }
      Ends();
      EndsComplete(start, dev.History(), rs, burst, totalOps);
      ok := true;
    }
  }

  lemma InFlight(c: Config, s: State)
    requires Invariant(c, s)
    ensures |s.queue| == s.enqueued - s.dequeued && s.enqueued <= c.total
  {}

  // The burst sizes of the command line: min:inc:max, or a list when inc is 0.
  datatype BurstSizes = BurstSizes(min: nat, inc: nat, max: nat, list: seq<nat>)

  // What option parsing guarantees, and that the 16-bit size does not wrap.
  ghost predicate Parsed(b: BurstSizes) {
    && b.max + b.inc <= 0xFFFF
    && (if b.inc != 0 then 0 < b.min
        else b.list != [] && forall i :: 0 <= i < |b.list| ==> 0 < b.list[i] <= b.max)
  }

  // The sizes from one on that a range asks for.
  function Steps(size: nat, inc: nat, max: nat): (s: seq<nat>)
    requires 0 < inc
    decreases max + 1 - size
  {
    if max < size then [] else [size] + Steps(size + inc, inc, max)
  }

  // They are the members of the arithmetic progression up to the maximum.
  lemma {:induction false} StepsAre(size: nat, inc: nat, max: nat, n: nat)
    requires 0 < inc
    ensures n < |Steps(size, inc, max)| <==> size + n * inc <= max
    ensures n < |Steps(size, inc, max)| ==> Steps(size, inc, max)[n] == size + n * inc
    decreases n
  {
    if size <= max && n != 0 {
      StepsAre(size + inc, inc, max, n - 1);
      assert n * inc == inc + (n - 1) * inc;
    } else {
      assert 0 <= n * inc;
    }
  }

  function Configured(b: BurstSizes): seq<nat> {
    if b.inc != 0 then Steps(b.min, b.inc, b.max) else b.list
  }

  // One line of the report.
  datatype Row = Row(burst: nat, enqueued: nat, dequeued: nat)

  // Each part is a whole run with the burst size it is for.
  ghost predicate Runs(parts: seq<seq<Request>>, bursts: seq<nat>, totalOps: nat) {
    |parts| <= |bursts| && forall i :: 0 <= i < |parts| ==> Complete(parts[i], bursts[i], totalOps)
  }

  // cperf_throughput_test_runner: every size asked for is run, in order, each
  // on all of the operations and in bursts of that size; the one thing that can
  // go wrong is a pool smaller than the number of operations. parts[i] is what
  // the device was asked for in the i-th run.
  method ThroughputRunner(pool: OpPool, dev: Device, totalOps: nat, sizes: BurstSizes)
    returns (ret: int, rows: seq<Row>, ghost parts: seq<seq<Request>>)
    requires Parsed(sizes) && Distinct(multiset(pool.free)) && dev.queue == []
    modifies pool, dev
    ensures ret == 0 || (ret == -1 && old(|pool.free|) < totalOps)
    ensures ret == 0 ==>
      && |rows| == |Configured(sizes)|
      && (forall i :: 0 <= i < |rows| ==> rows[i] == Row(Configured(sizes)[i], totalOps, totalOps))
      && multiset(pool.free) == multiset(old(pool.free)) && dev.queue == []
    ensures ret == 0 ==>
      && Went(old(dev.History()), dev.History(), Joined(parts))
      && |parts| == |rows| && Runs(parts, Configured(sizes), totalOps)
  {
    hide Distinct;
    hide Went;
    hide Joined;
    hide Complete;
    hide Device.History;
    parts := [];
    NothingJoined(dev.History());
    var loop := new BurstLoop(pool, dev, totalOps, sizes.max);
    assert |loop.all| == |pool.free|;
    rows := [];
    var size := if sizes.inc != 0 then sizes.min else sizes.list[0];
    while size <= sizes.max
      invariant multiset(pool.free) == loop.all && dev.queue == [] && 0 < size
      invariant |parts| == |rows| <= |Configured(sizes)|
      invariant Went(old(dev.History()), dev.History(), Joined(parts)) && Runs(parts, Configured(sizes), totalOps)
      invariant forall i :: 0 <= i < |rows| ==> rows[i] == Row(Configured(sizes)[i], totalOps, totalOps)
      invariant sizes.inc != 0 ==> |rows| + |Steps(size, sizes.inc, sizes.max)| == |Configured(sizes)|
      invariant sizes.inc != 0 ==> Configured(sizes)[|rows|..] == Steps(size, sizes.inc, sizes.max)
      invariant sizes.inc == 0 ==> |rows| < |sizes.list| && size == sizes.list[|rows|]
      decreases |Configured(sizes)| - |rows|
    {
      ghost var h := dev.History();
      var ok;
      ghost var rs;
      ok, rs := loop.Run(size);
      if !ok {
        return -1, rows, parts;
      }
      assert sizes.inc != 0 ==> Configured(sizes)[|rows|..][0] == size;
      WentOn(old(dev.History()), h, dev.History(), Joined(parts), rs);
      JoinedNext(parts, rs);
      parts := parts + [rs];
      rows := rows + [Row(size, loop.opsEnqdTotal, loop.opsDeqdTotal)];
      if sizes.inc != 0 {
        assert Configured(sizes)[|rows|..] == Configured(sizes)[|rows| - 1..][1..];
        size := size + sizes.inc;
      } else {
        if |rows| == |sizes.list| {
          break;
        }
        size := sizes.list[|rows|];
      }
    }
    ret := 0;
  }
}
