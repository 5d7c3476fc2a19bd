// Which orders a device may complete the buffers of an iteration in: with one
// that does not keep order, every order happens.

module CompletionOrders {
  import opened Common
  import opened Burst
  import opened CarryOver
  import opened PrepareBufs
  import opened Reorder

  ghost predicate IsStart(c: Config, s: State) {
    && Sound(c) && multiset(s.free) == c.all && (forall h :: h in c.all ==> h < |s.bufs|)
    && s.held == [] && s.queue == [] && s.deq == [] && s.completed == []
    && s.remaining == c.total && s.enqueued == s.dequeued == s.outstanding == 0
  }

  ghost predicate IsEnd(c: Config, s: State) {
    s.remaining == 0 && s.deq == [] && s.dequeued == c.total
  }

  // A run of a whole iteration, which completes the buffers in `order`.
  ghost predicate Completes(c: Config, start: State, run: seq<State>, order: seq<nat>) {
    && IsStart(c, start) && IsRun(c, run) && run[0] == start
    && IsEnd(c, run[|run| - 1]) && run[|run| - 1].completed == order
  }

  // The other way round: whatever run there is, it completes every buffer once,
  // and in order if the device keeps order.
  lemma CompletesOnce(c: Config, start: State, run: seq<State>, order: seq<nat>)
    requires Completes(c, start, run, order)
    ensures multiset(order) == multiset(Iota(0, c.total)) && (c.inOrder ==> order == Iota(0, c.total))
  {
    hide Invariant;
    hide IsRun;
    assert run != [] by {
      RunNotEmpty(c, run);
    }
    RunsKeep(c, run, |run| - 1);
    IterationEnd(c, run[|run| - 1]);
  }

  lemma RunNotEmpty(c: Config, run: seq<State>)
    requires IsRun(c, run)
    ensures run != []
  {}

  lemma Prepend(c: Config, s: State, run: seq<State>)
    requires IsRun(c, run) && Invariant(c, s) && Next(c, s, run[0])
    ensures IsRun(c, [s] + run)
  {
    hide Invariant;
    hide Next;
    var all := [s] + run;
    forall j | 0 <= j < |all| - 1 ensures Next(c, all[j], all[j + 1]) {
      if 0 < j {
        assert Next(c, run[j - 1], run[j - 1 + 1]);
      }
    }
  }

  lemma JoinRuns(c: Config, a: seq<State>, b: seq<State>)
    requires IsRun(c, a) && IsRun(c, b) && a[|a| - 1] == b[0]
    ensures IsRun(c, a + b[1..]) && (a + b[1..])[0] == a[0]
    ensures (a + b[1..])[|a + b[1..]| - 1] == b[|b| - 1]
  {
    hide Invariant;
    hide Next;
    var all := a + b[1..];
    forall j | 0 <= j < |all| - 1 ensures Next(c, all[j], all[j + 1]) {
      if j < |a| - 1 {
        assert Next(c, a[j], a[j + 1]);
      } else {
        var k := j - (|a| - 1);
        assert Next(c, b[k], b[k + 1]);
      }
    }
  }

  // The operations hs set up for the buffers from base on.
  function Assign(bufs: seq<nat>, hs: seq<Op>, base: nat): (r: seq<nat>)
    requires forall h :: h in hs ==> h < |bufs|
    ensures |r| == |bufs|
    decreases |hs|
  {
    if hs == [] then bufs
    else
      assert hs[0] in hs && forall g :: g in hs[1..] ==> g in hs;
      Assign(bufs[hs[0] := base], hs[1..], base + 1)
  }

  lemma {:induction false} AssignOthers(bufs: seq<nat>, hs: seq<Op>, base: nat, h: Op)
    requires (forall g :: g in hs ==> g < |bufs|) && h !in hs
    ensures Buf(Assign(bufs, hs, base), h) == Buf(bufs, h)
    decreases |hs|
  {
    if hs != [] {
      assert hs[0] in hs && forall g :: g in hs[1..] ==> g in hs;
      AssignOthers(bufs[hs[0] := base], hs[1..], base + 1, h);
    }
  }

  lemma {:induction false} AssignBufs(bufs: seq<nat>, hs: seq<Op>, base: nat)
    requires (forall h :: h in hs ==> h < |bufs|) && NoDuplicates(hs)
    ensures Bufs(Assign(bufs, hs, base), hs) == Iota(base, |hs|)
    decreases |hs|
  {
    if hs != [] {
      assert hs[0] in hs && forall g :: g in hs[1..] ==> g in hs;
      assert hs[0] !in hs[1..];
      AssignBufs(bufs[hs[0] := base], hs[1..], base + 1);
      AssignOthers(bufs[hs[0] := base], hs[1..], base + 1, hs[0]);
    }
  }

  // Everything is submitted before anything is handed back.
  lemma {:induction false} SubmitsAll(c: Config, s: State) returns (run: seq<State>)
    requires Invariant(c, s) && s.held == [] && s.deq == [] && s.completed == []
    requires forall h :: h in c.all ==> h < |s.bufs|
    ensures IsRun(c, run) && run[0] == s
    ensures
      var last := run[|run| - 1];
      last.remaining == 0 && last.held == [] && last.deq == [] && last.completed == []
    decreases s.remaining
  {
    hide Invariant;
    hide Next;
    if s.remaining == 0 {
      run := [s];
    } else {
      var filled, n := FillStep(c, s);
      SubmitKeeps(c, filled, n);
      var sent := Submitted(filled, n);
      var rest := SubmitsAll(c, sent);
      SubmitIsNext(c, filled, n);
      Prepend(c, filled, rest);
      Prepend(c, s, [filled] + rest);
      run := [s] + ([filled] + rest);
    }
  }

  lemma FillStep(c: Config, s: State) returns (filled: State, n: nat)
    requires Invariant(c, s) && s.held == [] && s.deq == [] && s.completed == [] && 0 < s.remaining
    requires forall h :: h in c.all ==> h < |s.bufs|
    ensures Invariant(c, filled) && Next(c, s, filled)
    ensures 0 < n == |filled.held| <= filled.remaining == s.remaining && filled.deq == [] && filled.completed == []
    ensures |filled.bufs| == |s.bufs|
  {
    hide Invariant;
    hide Next;
    n := FillSize(c, s);
    filled := s.(free := s.free[n..], bufs := Assign(s.bufs, s.free[..n], s.enqueued), held := s.free[..n],
                 outstanding := s.outstanding + n);
    FillIsRefill(c, s, filled, n);
    RefillKeeps(c, s, filled, s.free[..n]);
    RefillIsNext(c, s, filled, s.free[..n]);
  }

  lemma FillSize(c: Config, s: State) returns (n: nat)
    requires Invariant(c, s) && s.held == [] && s.deq == [] && 0 < s.remaining
    requires forall h :: h in c.all ==> h < |s.bufs|
    ensures 0 < n == Min(s.remaining, c.burst) <= |s.free|
    ensures NoDuplicates(s.free[..n]) && forall h :: h in s.free[..n] ==> h < |s.bufs|
  {
    n := Min(s.remaining, c.burst);
    RefillPossible(c, s);
    FreeCounts(s, n);
    FreshIsSeparate(c, s, s.free[n..], s.free[..n]);
  }

  lemma FreeCounts(s: State, n: nat)
    requires n <= |s.free|
    ensures multiset(s.free[n..]) + multiset(s.free[..n]) == multiset(s.free)
  {
    assert s.free == s.free[..n] + s.free[n..];
  }

  lemma FillIsRefill(c: Config, s: State, filled: State, n: nat)
    requires s.held == [] && n == Min(s.remaining, c.burst) <= |s.free|
    requires NoDuplicates(s.free[..n]) && forall h :: h in s.free[..n] ==> h < |s.bufs|
    requires filled == s.(free := s.free[n..], bufs := Assign(s.bufs, s.free[..n], s.enqueued), held := s.free[..n],
                          outstanding := s.outstanding + n)
    ensures Refilled(c, s, filled, s.free[..n])
  {
    hide Bufs;
    hide Iota;
    hide Assign;
    hide Buf;
    hide NoDuplicates;
    FreeCounts(s, n);
    AssignBufs(s.bufs, s.free[..n], s.enqueued);
    forall h | h !in s.free[..n] ensures Buf(filled.bufs, h) == Buf(s.bufs, h) {
      AssignOthers(s.bufs, s.free[..n], s.enqueued, h);
    }
  }

  lemma RefillIsNext(c: Config, s: State, s': State, added: seq<Op>)
    requires Refilled(c, s, s', added)
    ensures Next(c, s, s')
  {}

  lemma SubmitIsNext(c: Config, s: State, k: nat)
    requires s.deq == [] && k <= |s.held| && k <= s.remaining
    ensures Next(c, s, Submitted(s, k))
  {}

  // What is in the device is handed back one by one, in any order.
  lemma {:induction false} HandsBack(c: Config, s: State, order: seq<nat>) returns (run: seq<State>)
    requires Invariant(c, s) && !c.inOrder && s.remaining == 0 && s.held == [] && s.deq == []
    requires multiset(order) == multiset(Bufs(s.bufs, s.queue))
    ensures IsRun(c, run) && run[0] == s
    ensures IsEnd(c, run[|run| - 1]) && run[|run| - 1].completed == s.completed + order
    decreases |order|
  {
    hide Invariant;
    hide Next;
    hide Bufs;
    SameLength(order, Bufs(s.bufs, s.queue));
    if order == [] {
      AllBack(c, s);
      run := [s];
    } else {
      var p := TakeFirst(order, Bufs(s.bufs, s.queue));
      var done := s.(queue := Without(s.queue, p), deq := [s.queue[p]], dequeued := s.dequeued + 1);
      HandBack(c, s, p);
      BufsWithout(s.bufs, s.queue, p);
      assert Without(order, 0) == order[1..];
      var rest := HandsBack(c, Recycled(done), order[1..]);
      Prepend(c, done, rest);
      Prepend(c, s, [done] + rest);
      run := [s] + ([done] + rest);
      assert s.completed + [order[0]] + order[1..] == s.completed + order;
    }
  }

  lemma AllBack(c: Config, s: State)
    requires Invariant(c, s) && s.remaining == 0 && s.queue == [] && s.deq == []
    ensures IsEnd(c, s)
  {}

  lemma HandBack(c: Config, s: State, p: nat)
    requires Invariant(c, s) && !c.inOrder && s.deq == [] && p < |s.queue|
    ensures
      var done := s.(queue := Without(s.queue, p), deq := [s.queue[p]], dequeued := s.dequeued + 1);
      && Invariant(c, done) && Next(c, s, done)
      && |done.deq| <= done.outstanding && Invariant(c, Recycled(done)) && Next(c, done, Recycled(done))
      && Recycled(done).completed == s.completed + [Buf(s.bufs, s.queue[p])]
  {
    hide Invariant;
    hide Next;
    var h := s.queue[p];
    var done := s.(queue := Without(s.queue, p), deq := [h], dequeued := s.dequeued + 1);
    WithoutCounts(s.queue, p);
    assert Collected(c, s, done, [h]);
    CollectKeeps(c, s, done, [h]);
    CollectIsNext(c, s, done, [h]);
    RecycleKeeps(c, done);
    RecycleIsNext(c, done);
    assert Bufs(s.bufs, [h]) == [Buf(s.bufs, h)];
  }

  lemma CollectIsNext(c: Config, s: State, s': State, done: seq<Op>)
    requires s.deq == [] && Collected(c, s, s', done)
    ensures Next(c, s, s')
  {}

  lemma RecycleIsNext(c: Config, s: State)
    requires |s.deq| <= s.outstanding
    ensures Next(c, s, Recycled(s))
  {}

  // Every order happens.
  lemma AnyOrder(c: Config, start: State, order: seq<nat>) returns (run: seq<State>)
    requires IsStart(c, start) && !c.inOrder && multiset(order) == multiset(Iota(0, c.total))
    ensures Completes(c, start, run, order)
  {
    StartHolds(c, start);
    var first := SubmitsAll(c, start);
    var last := first[|first| - 1];
    AllInDevice(c, first, last);
    var second := HandsBack(c, last, order);
    JoinRuns(c, first, second);
    run := first + second[1..];
  }

  lemma AllInDevice(c: Config, run: seq<State>, last: State)
    requires IsRun(c, run) && last == run[|run| - 1]
    requires last.remaining == 0 && last.deq == [] && last.completed == []
    ensures Invariant(c, last)
    ensures multiset(Bufs(last.bufs, last.queue)) == multiset(Iota(0, c.total))
  {
    RunsKeep(c, run, |run| - 1);
    assert Log(last) == Bufs(last.bufs, last.queue);
  }

  // What the device hands back, one after the other, is the same on every run
  // exactly when the device keeps order or the chunks commute.
  lemma RunsAlike(c: Config, start: State, chunks: seq<seq<Byte>>)
    requires IsStart(c, start) && c.total == |chunks|
    ensures
      (forall run, order :: Completes(c, start, run, order) ==> Picked(chunks, order) == Concat(chunks))
      <==> c.inOrder || Commute(chunks)
  {
    hide IsStart;
    hide Completes;
    hide Picked;
    hide Concat;
    hide Commute;
    if c.inOrder || Commute(chunks) {
      forall run, order | Completes(c, start, run, order) ensures Picked(chunks, order) == Concat(chunks) {
        CompletesOnce(c, start, run, order);
        if c.inOrder {
          InOrderPicks(chunks, 0);
          assert chunks[0..] == chunks;
        } else {
          AnyOrderRestores(chunks, order);
        }
      }
    } else if forall run, order :: Completes(c, start, run, order) ==> Picked(chunks, order) == Concat(chunks) {
      forall order | Permutes(order, |chunks|) ensures Picked(chunks, order) == Concat(chunks) {
        var run := AnyOrder(c, start, order);
        assert Completes(c, start, run, order);
      }
      OrdersAlike(chunks);
    }
  }

  // Twice as many operations as buffers, all of them free.
  lemma FreshStart(total: nat, burst: nat) returns (c: Config, start: State)
    requires 0 < burst
    ensures IsStart(c, start) && !c.inOrder && c.total == total && c.burst == burst
  {
    var free := Iota(0, 2 * total);
    IotaOnce(0, 2 * total);
    c := Config(multiset(free), total, burst, false);
    start := State(free, [], [], [], Iota(0, 2 * total), total, 0, 0, 0, []);
  }
}
