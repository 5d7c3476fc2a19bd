// The burst protocol of the compression tests, as states and steps: a window of
// operations is topped up from the pool, offered to the device, what the device
// does not take is carried to the next round, and what it has finished goes
// back to the pool. Every step keeps the invariant, so it holds on every run,
// whatever prefixes the device accepts and whatever it completes.

module CarryOver {
  import opened Common
  import opened Burst

  datatype Config = Config(all: multiset<Op>, total: nat, burst: nat, inOrder: bool)

  // `bufs` gives the buffer each operation was last set up for. held are the
  // operations waiting to be enqueued, deq those dequeued and not yet recycled.
  datatype State = State(
    free: seq<Op>, held: seq<Op>, queue: seq<Op>, deq: seq<Op>, bufs: seq<nat>,
    remaining: nat, enqueued: nat, dequeued: nat, outstanding: nat, completed: seq<nat>)

  function Buf(bufs: seq<nat>, h: Op): nat {
    if h < |bufs| then bufs[h] else 0
  }

  // The buffers of some operations, in their order.
  function Bufs(bufs: seq<nat>, hs: seq<Op>): (b: seq<nat>)
    ensures |b| == |hs|
  {
    if hs == [] then [] else [Buf(bufs, hs[0])] + Bufs(bufs, hs[1..])
  }

  lemma {:induction false} BufsAt(bufs: seq<nat>, hs: seq<Op>, i: nat)
    requires i < |hs|
    ensures Bufs(bufs, hs)[i] == Buf(bufs, hs[i])
  {
    if 0 < i {
      BufsAt(bufs, hs[1..], i - 1);
    }
  }

  lemma BufsHave(bufs: seq<nat>, hs: seq<Op>)
    ensures forall i :: 0 <= i < |hs| ==> Buf(bufs, hs[i]) in Bufs(bufs, hs)
    ensures forall b :: b in Bufs(bufs, hs) ==> exists i :: 0 <= i < |hs| && Buf(bufs, hs[i]) == b
  {
    forall i | 0 <= i < |hs| ensures Buf(bufs, hs[i]) == Bufs(bufs, hs)[i] {
      BufsAt(bufs, hs, i);
    }
    forall b | b in Bufs(bufs, hs) ensures exists i :: 0 <= i < |hs| && Buf(bufs, hs[i]) == b {
      var i :| 0 <= i < |hs| && Bufs(bufs, hs)[i] == b;
    }
  }

  ghost predicate Sound(c: Config) {
    Distinct(c.all) && c.total <= |c.all| && 0 < c.burst
  }

  // Nothing is lost and nothing is in two places.
  ghost predicate Conserved(c: Config, s: State) {
    multiset(s.free) + multiset(s.held) + multiset(s.queue) + multiset(s.deq) == c.all
  }

  // The buffers of everything submitted so far, the finished ones first.
  ghost function Log(s: State): seq<nat> {
    s.completed + (Bufs(s.bufs, s.deq) + Bufs(s.bufs, s.queue))
  }

  // The held operations are for the next buffers, in order.
  ghost predicate ForNext(s: State) {
    Bufs(s.bufs, s.held) == Iota(s.enqueued, |s.held|)
  }

  // Every buffer below `enqueued` was submitted exactly once.
  ghost predicate Once(s: State) {
    multiset(Log(s)) == multiset(Iota(0, s.enqueued))
  }

  // A device that keeps order finishes the buffers in order.
  ghost predicate InSequence(c: Config, s: State) {
    c.inOrder ==> Log(s) == Iota(0, s.enqueued)
  }

  ghost predicate Counted(c: Config, s: State) {
    && s.enqueued + s.remaining == c.total
    && |s.held| <= Min(s.remaining, c.burst)
    && s.dequeued == |s.completed| + |s.deq|
    && s.enqueued == s.dequeued + |s.queue|
    && s.outstanding == |s.held| + |s.deq| + |s.queue|
  }

  ghost predicate Invariant(c: Config, s: State) {
    Sound(c) && Conserved(c, s) && ForNext(s) && Once(s) && InSequence(c, s) && Counted(c, s)
  }

  function Without<T>(s: seq<T>, p: nat): (r: seq<T>)
    requires p < |s|
    ensures |r| == |s| - 1
  {
    s[..p] + s[p + 1..]
  }

  lemma WithoutCounts<T>(s: seq<T>, p: nat)
    requires p < |s|
    ensures multiset(s) == multiset(Without(s, p)) + multiset{s[p]}
  {
    assert s == s[..p] + ([s[p]] + s[p + 1..]);
  }

  lemma SameLength<T>(a: seq<T>, b: seq<T>)
    requires multiset(a) == multiset(b)
    ensures |a| == |b|
  {
    assert |a| == |multiset(a)| == |multiset(b)| == |b|;
  }

  // The first of one permutation is somewhere in the other; without it they are
  // permutations again.
  lemma TakeFirst<T>(a: seq<T>, b: seq<T>) returns (p: nat)
    requires a != [] && multiset(a) == multiset(b)
    ensures p < |b| && b[p] == a[0] && multiset(Without(a, 0)) == multiset(Without(b, p))
  {
    assert a[0] in multiset(b);
    p :| 0 <= p < |b| && b[p] == a[0];
    WithoutCounts(a, 0);
    WithoutCounts(b, p);
    assert multiset(Without(a, 0)) == multiset(a) - multiset{a[0]} == multiset(Without(b, p));
  }

  lemma {:induction false} CountedOnce<T>(s: seq<T>)
    requires forall x :: multiset(s)[x] <= 1
    ensures NoDuplicates(s)
  {
    if s != [] {
      assert s == [s[0]] + s[1..];
      forall x ensures multiset(s[1..])[x] <= multiset(s)[x] {
        assert multiset(s) == multiset{s[0]} + multiset(s[1..]);
      }
      assert multiset(s)[s[0]] == 1 + multiset(s[1..])[s[0]];
      CountedOnce(s[1..]);
    }
  }

  // Sequences drawn from a multiset without repetition have none, and share
  // nothing.
  lemma Separate<T>(all: multiset<T>, a: seq<T>, b: seq<T>)
    requires (forall x :: all[x] <= 1) && multiset(a) + multiset(b) <= all
    ensures NoDuplicates(a) && NoDuplicates(b)
    ensures forall x :: x in a ==> x !in b
    ensures forall x :: x in a || x in b ==> x in all
  {
    forall x ensures multiset(a)[x] + multiset(b)[x] <= 1 {
      assert (multiset(a) + multiset(b))[x] <= all[x];
    }
    CountedOnce(a);
    CountedOnce(b);
    forall x | x in a ensures x !in b {
      assert multiset(a)[x] >= 1;
    }
    forall x | x in a || x in b ensures x in all {
      assert (multiset(a) + multiset(b))[x] >= 1;
    }
  }

  lemma {:induction false} BufsConcat(bufs: seq<nat>, a: seq<Op>, b: seq<Op>)
    ensures Bufs(bufs, a + b) == Bufs(bufs, a) + Bufs(bufs, b)
  {
    if a == [] {
      assert a + b == b;
    } else {
      BufsConcat(bufs, a[1..], b);
      assert (a + b)[1..] == a[1..] + b && (a + b)[0] == a[0];
      ConcatAssociates([Buf(bufs, a[0])], Bufs(bufs, a[1..]), Bufs(bufs, b));
    }
  }

  lemma BufsWithout(bufs: seq<nat>, s: seq<Op>, p: nat)
    requires p < |s|
    ensures Bufs(bufs, s)[p] == Buf(bufs, s[p])
    ensures Bufs(bufs, Without(s, p)) == Without(Bufs(bufs, s), p)
  {
    var front, back := s[..p], s[p + 1..];
    assert s == front + ([s[p]] + back);
    BufsConcat(bufs, front, [s[p]] + back);
    BufsConcat(bufs, [s[p]], back);
    BufsConcat(bufs, front, back);
    assert Bufs(bufs, [s[p]]) == [Buf(bufs, s[p])];
  }

  lemma {:induction false} BufsPermuted(bufs: seq<nat>, a: seq<Op>, b: seq<Op>)
    requires multiset(a) == multiset(b)
    ensures multiset(Bufs(bufs, a)) == multiset(Bufs(bufs, b))
  {
    SameLength(a, b);
    if a != [] {
      var p := TakeFirst(a, b);
      BufsPermuted(bufs, Without(a, 0), Without(b, p));
      BufsWithout(bufs, a, 0);
      BufsWithout(bufs, b, p);
      WithoutCounts(Bufs(bufs, a), 0);
      WithoutCounts(Bufs(bufs, b), p);
    }
  }

  // The start of an iteration: everything is in the pool.
  lemma StartHolds(c: Config, s: State)
    requires Sound(c) && multiset(s.free) == c.all
    requires s.held == [] && s.queue == [] && s.deq == [] && s.completed == []
    requires s.remaining == c.total && s.enqueued == s.dequeued == s.outstanding == 0
    ensures Invariant(c, s)
  {}

  // Topping up: `added` operations leave the pool and are set up for the next
  // buffers; no other operation is touched.
  ghost predicate Refilled(c: Config, s: State, s': State, added: seq<Op>) {
    && multiset(s'.free) + multiset(added) == multiset(s.free)
    && s' == s.(free := s'.free, bufs := s'.bufs, held := s.held + added, outstanding := s.outstanding + |added|)
    && |s'.held| == Min(s.remaining, c.burst)
    && Bufs(s'.bufs, added) == Iota(s.enqueued + |s.held|, |added|)
    && forall h :: h !in added ==> Buf(s'.bufs, h) == Buf(s.bufs, h)
  }

  lemma FreshIsSeparate(c: Config, s: State, free': seq<Op>, added: seq<Op>)
    requires Invariant(c, s) && multiset(free') + multiset(added) == multiset(s.free)
    ensures NoDuplicates(added)
    ensures forall h :: h in added ==> h in c.all && h !in s.held && h !in s.queue && h !in s.deq
  {
    var rest := s.held + s.queue + s.deq;
    assert multiset(rest) == multiset(s.held) + multiset(s.queue) + multiset(s.deq);
    Separate(c.all, added, rest);
  }

  lemma RefillKeeps(c: Config, s: State, s': State, added: seq<Op>)
    requires Invariant(c, s) && Refilled(c, s, s', added)
    ensures Invariant(c, s')
  {
    RefillConserves(c, s, s', added);
    FreshIsSeparate(c, s, s'.free, added);
    RefillLog(c, s, s', added);
  }

  lemma RefillLog(c: Config, s: State, s': State, added: seq<Op>)
    requires Refilled(c, s, s', added) && ForNext(s)
    requires forall h :: h in added ==> h !in s.held && h !in s.queue && h !in s.deq
    ensures ForNext(s') && Log(s') == Log(s)
  {
    hide Bufs;
    hide Iota;
    hide Buf;
    BufsUntouched(s.bufs, s'.bufs, added, s.held);
    BufsUntouched(s.bufs, s'.bufs, added, s.queue);
    BufsUntouched(s.bufs, s'.bufs, added, s.deq);
    BufsConcat(s'.bufs, s.held, added);
    IotaSplit(s.enqueued, |s'.held|, |s.held|);
  }

  lemma Regroup(a: multiset<Op>, b: multiset<Op>, x: multiset<Op>, q: multiset<Op>, d: multiset<Op>)
    ensures a + (b + x) + q + d == (a + x) + b + q + d
    ensures a + (b + x) + q + d == a + b + (q + x) + d
    ensures a + b + q + x == (a + x) + b + q + multiset{}
    ensures a + b + (x + q) + multiset{} == a + b + q + x
  {}

  lemma RefillConserves(c: Config, s: State, s': State, added: seq<Op>)
    requires Conserved(c, s) && multiset(s'.free) + multiset(added) == multiset(s.free)
    requires s'.held == s.held + added && s'.queue == s.queue && s'.deq == s.deq
    ensures Conserved(c, s')
  {
    Regroup(multiset(s'.free), multiset(s.held), multiset(added), multiset(s.queue), multiset(s.deq));
  }

  lemma SubmitConserves(c: Config, s: State, k: nat)
    requires Conserved(c, s) && k <= |s.held| && k <= s.remaining
    ensures Conserved(c, Submitted(s, k))
  {
    var taken, left := s.held[..k], s.held[k..];
    assert s.held == taken + left;
    assert multiset(s.held) == multiset(left) + multiset(taken);
    Regroup(multiset(s.free), multiset(left), multiset(taken), multiset(s.queue), multiset(s.deq));
  }

  lemma CollectConserves(c: Config, s: State, done: seq<Op>, queue: seq<Op>)
    requires Conserved(c, s) && s.deq == [] && multiset(done) + multiset(queue) == multiset(s.queue)
    ensures Conserved(c, s.(deq := done, queue := queue))
  {
    Regroup(multiset(s.free), multiset(s.held), multiset(done), multiset(queue), multiset{});
  }

  lemma RecycleConserves(c: Config, s: State)
    requires Conserved(c, s) && |s.deq| <= s.outstanding
    ensures Conserved(c, Recycled(s))
  {
    Regroup(multiset(s.free), multiset(s.held), multiset(s.deq), multiset(s.queue), multiset{});
  }

  lemma {:induction false} BufsUntouched(bufs: seq<nat>, bufs': seq<nat>, added: seq<Op>, hs: seq<Op>)
    requires forall h :: h !in added ==> Buf(bufs', h) == Buf(bufs, h)
    requires forall h :: h in added ==> h !in hs
    ensures Bufs(bufs', hs) == Bufs(bufs, hs)
  {
    if hs != [] {
      assert hs[0] in hs;
      assert forall h :: h in hs[1..] ==> h in hs;
      BufsUntouched(bufs, bufs', added, hs[1..]);
    }
  }

  // The subtraction num_ops - ops_unused never wraps, and the pool always has
  // the operations asked for.
  lemma RefillPossible(c: Config, s: State)
    requires Invariant(c, s) && s.deq == []
    ensures |s.held| <= Min(s.remaining, c.burst)
    ensures Min(s.remaining, c.burst) - |s.held| <= |s.free|
    ensures s.enqueued + Min(s.remaining, c.burst) <= c.total
  {
    assert |c.all| == |s.free| + |s.held| + |s.queue|;
  }

  function Submitted(s: State, k: nat): State
    requires k <= |s.held| && k <= s.remaining
  {
    s.(held := s.held[k..], queue := s.queue + s.held[..k], remaining := s.remaining - k, enqueued := s.enqueued + k)
  }

  // The device took the first k of the held operations.
  lemma SubmitKeeps(c: Config, s: State, k: nat)
    requires Invariant(c, s) && s.deq == [] && k <= |s.held|
    ensures k <= s.remaining && Invariant(c, Submitted(s, k))
  {
    hide Conserved;
    hide ForNext;
    hide Once;
    hide InSequence;
    hide Log;
    SubmitConserves(c, s, k);
    SubmitLog(s, k);
    LogGrows(c, s, Submitted(s, k), k);
  }

  lemma CountsAppend<T>(a: seq<T>, b: seq<T>, c: seq<T>, a': seq<T>, b': seq<T>)
    requires multiset(a) == multiset(b) && a' == a + c && b' == b + c
    ensures multiset(a') == multiset(b')
  {}

  lemma LogGrows(c: Config, s: State, s': State, k: nat)
    requires Once(s) && InSequence(c, s)
    requires s'.enqueued == s.enqueued + k && Log(s') == Log(s) + Iota(s.enqueued, k)
    ensures Once(s') && InSequence(c, s')
  {
    IotaSplit(0, s'.enqueued, s.enqueued);
    CountsAppend(Log(s), Iota(0, s.enqueued), Iota(s.enqueued, k), Log(s'), Iota(0, s'.enqueued));
  }

  // Any prefix of the held operations is for the next buffers, and the rest
  // for those after them.
  lemma HeldInOrder(s: State, k: nat)
    requires ForNext(s) && k <= |s.held|
    ensures Bufs(s.bufs, s.held[..k]) == Iota(s.enqueued, k)
    ensures Bufs(s.bufs, s.held[k..]) == Iota(s.enqueued + k, |s.held| - k)
  {
    hide Bufs;
    hide Iota;
    var taken, left := s.held[..k], s.held[k..];
    assert s.held == taken + left;
    BufsConcat(s.bufs, taken, left);
    IotaSplit(s.enqueued, |s.held|, k);
    SplitEqual(Bufs(s.bufs, taken), Bufs(s.bufs, left), Iota(s.enqueued, k), Iota(s.enqueued + k, |left|));
  }

  lemma SubmitLog(s: State, k: nat)
    requires ForNext(s) && k <= |s.held| && k <= s.remaining
    ensures ForNext(Submitted(s, k)) && Log(Submitted(s, k)) == Log(s) + Iota(s.enqueued, k)
  {
    hide Bufs;
    hide Iota;
    HeldInOrder(s, k);
    BufsConcat(s.bufs, s.queue, s.held[..k]);
    Associate(s.completed, Bufs(s.bufs, s.deq), Bufs(s.bufs, s.queue), Bufs(s.bufs, s.held[..k]));
  }

  lemma SplitEqual<T>(a: seq<T>, b: seq<T>, c: seq<T>, d: seq<T>)
    requires a + b == c + d && |a| == |c|
    ensures a == c && b == d
  {
    assert (a + b)[..|a|] == a && (c + d)[..|c|] == c;
    assert (a + b)[|a|..] == b && (c + d)[|c|..] == d;
  }

  lemma Associate<T>(a: seq<T>, b: seq<T>, c: seq<T>, d: seq<T>)
    ensures a + (b + (c + d)) == (a + (b + c)) + d
  {}

  // The device handed back `done`.
  ghost predicate Collected(c: Config, s: State, s': State, done: seq<Op>) {
    && multiset(done) + multiset(s'.queue) == multiset(s.queue)
    && (c.inOrder ==> done + s'.queue == s.queue)
    && s' == s.(queue := s'.queue, deq := done, dequeued := s.dequeued + |done|)
  }

  lemma CollectKeeps(c: Config, s: State, s': State, done: seq<Op>)
    requires Invariant(c, s) && s.deq == [] && Collected(c, s, s', done)
    ensures Invariant(c, s')
  {
    CollectConserves(c, s, done, s'.queue);
    CollectLog(s, done, s'.queue);
    if c.inOrder {
      CollectSequence(s, done, s'.queue);
    }
  }

  lemma CollectSequence(s: State, done: seq<Op>, queue: seq<Op>)
    requires s.deq == [] && done + queue == s.queue
    ensures s.completed + (Bufs(s.bufs, done) + Bufs(s.bufs, queue)) == Log(s)
  {
    BufsConcat(s.bufs, done, queue);
    assert Bufs(s.bufs, []) + Bufs(s.bufs, s.queue) == Bufs(s.bufs, s.queue);
  }

  lemma CollectLog(s: State, done: seq<Op>, queue: seq<Op>)
    requires s.deq == [] && multiset(done) + multiset(queue) == multiset(s.queue)
    ensures |done| + |queue| == |s.queue|
    ensures multiset(s.completed + (Bufs(s.bufs, done) + Bufs(s.bufs, queue))) == multiset(Log(s))
  {
    var both := done + queue;
    assert multiset(both) == multiset(s.queue);
    SameLength(both, s.queue);
    BufsPermuted(s.bufs, both, s.queue);
    BufsConcat(s.bufs, done, queue);
    assert Bufs(s.bufs, []) == [];
    hide Bufs;
    CountsAppended(s.completed, Bufs(s.bufs, done) + Bufs(s.bufs, queue), [] + Bufs(s.bufs, s.queue));
  }

  lemma CountsAppended(a: seq<nat>, b: seq<nat>, c: seq<nat>)
    requires multiset(b) == multiset(c)
    ensures multiset(a + b) == multiset(a + c)
  {}

  // The operations dequeued are distinct, so are their buffers, and neither
  // occurs among the others.
  lemma DequeuedIsSeparate(c: Config, s: State)
    requires Invariant(c, s)
    ensures NoDuplicates(s.deq) && NoDuplicates(Bufs(s.bufs, s.deq))
    ensures forall h :: h in s.deq ==> h in c.all && h !in s.queue && h !in s.held
    ensures forall b :: b in Bufs(s.bufs, s.deq) ==>
      b < s.enqueued && b !in s.completed && b !in Bufs(s.bufs, s.queue)
  {
    hide Iota;
    hide Bufs;
    hide Log;
    Separate(c.all, s.deq, s.queue + s.held);
    DequeuedBuffers(s);
  }

  lemma DequeuedBuffers(s: State)
    requires Once(s)
    ensures NoDuplicates(Bufs(s.bufs, s.deq))
    ensures forall b :: b in Bufs(s.bufs, s.deq) ==>
      b < s.enqueued && b !in s.completed && b !in Bufs(s.bufs, s.queue)
  {
    hide Iota;
    hide Bufs;
    IotaOnce(0, s.enqueued);
    var d, q := Bufs(s.bufs, s.deq), Bufs(s.bufs, s.queue);
    assert multiset(Log(s)) == multiset(d) + multiset(s.completed + q);
    Separate(multiset(Iota(0, s.enqueued)), d, s.completed + q);
  }

  lemma {:induction false} IotaOnce(a: nat, n: nat)
    ensures forall x :: multiset(Iota(a, n))[x] == if a <= x < a + n then 1 else 0
    decreases n
  {
    if n != 0 {
      IotaOnce(a + 1, n - 1);
    }
  }

  function Recycled(s: State): State
    requires |s.deq| <= s.outstanding
  {
    s.(free := s.free + s.deq, completed := s.completed + Bufs(s.bufs, s.deq), deq := [],
       outstanding := s.outstanding - |s.deq|)
  }

  lemma RecycleKeeps(c: Config, s: State)
    requires Invariant(c, s)
    ensures |s.deq| <= s.outstanding && Invariant(c, Recycled(s))
  {
    hide Bufs;
    hide Iota;
    hide Log;
    hide Conserved;
    hide Sound;
    RecycleConserves(c, s);
    RecycleLog(s);
  }

  lemma RecycleLog(s: State)
    requires |s.deq| <= s.outstanding
    ensures Log(Recycled(s)) == Log(s) && Recycled(s).bufs == s.bufs
  {
    assert Bufs(s.bufs, []) == [];
    hide Bufs;
    ConcatAssociates(s.completed, Bufs(s.bufs, s.deq), Bufs(s.bufs, s.queue));
    assert [] + Bufs(s.bufs, s.queue) == Bufs(s.bufs, s.queue);
  }

  // The bound behind the sizes of the pool and of ops[]: at every loop head
  // what is outstanding is what is left to dequeue, at most.
  lemma OutstandingBound(c: Config, s: State)
    requires Invariant(c, s)
    ensures s.outstanding <= c.total - |s.completed|
    ensures |s.queue| <= c.total
  {}

  // The end of an iteration: everything submitted once, and nothing left out.
  lemma IterationEnd(c: Config, s: State)
    requires Invariant(c, s) && s.remaining == 0 && s.deq == [] && s.dequeued == c.total
    ensures s.outstanding == 0 && s.held == [] && s.queue == []
    ensures multiset(s.free) == c.all
    ensures multiset(s.completed) == multiset(Iota(0, c.total))
    ensures c.inOrder ==> s.completed == Iota(0, c.total)
  {
    assert Bufs(s.bufs, s.deq) == [] && Bufs(s.bufs, s.queue) == [];
  }

  // Which buffers an operation can be for: the held ones are for the next
  // buffers, those in the device or finished for earlier ones.
  lemma BufferBounds(c: Config, s: State)
    requires Invariant(c, s)
    ensures forall i :: 0 <= i < |s.held| ==> Buf(s.bufs, s.held[i]) == s.enqueued + i
    ensures forall i :: 0 <= i < |s.queue| ==> Buf(s.bufs, s.queue[i]) < s.enqueued
    ensures forall i :: 0 <= i < |s.completed| ==> s.completed[i] < s.enqueued
  {
    hide Bufs;
    hide Iota;
    hide Log;
    forall i | 0 <= i < |s.held| ensures Buf(s.bufs, s.held[i]) == s.enqueued + i {
      BufsAt(s.bufs, s.held, i);
      IotaAt(s.enqueued, |s.held|, i);
    }
    LogBounds(s);
  }

  lemma LogBounds(s: State)
    requires Once(s)
    ensures forall i :: 0 <= i < |s.queue| ==> Buf(s.bufs, s.queue[i]) < s.enqueued
    ensures forall i :: 0 <= i < |s.completed| ==> s.completed[i] < s.enqueued
  {
    hide Bufs;
    hide Iota;
    IotaOnce(0, s.enqueued);
    var log, q := Log(s), Bufs(s.bufs, s.queue);
    forall i | 0 <= i < |log| ensures log[i] < s.enqueued {
      assert log[i] in multiset(log);
    }
    forall i | 0 <= i < |s.queue| ensures Buf(s.bufs, s.queue[i]) < s.enqueued {
      BufsAt(s.bufs, s.queue, i);
      assert q[i] == log[|log| - |q| + i];
    }
    forall i | 0 <= i < |s.completed| ensures s.completed[i] < s.enqueued {
      assert s.completed[i] == log[i];
    }
  }

  lemma {:induction false} BufsAreIota(bufs: seq<nat>, hs: seq<Op>, a: nat)
    requires forall i :: 0 <= i < |hs| ==> Buf(bufs, hs[i]) == a + i
    ensures Bufs(bufs, hs) == Iota(a, |hs|)
  {
    if hs != [] {
      BufsAreIota(bufs, hs[1..], a + 1);
    }
  }

  // One step of a run, in any order the device and the loop may produce.
  ghost predicate Next(c: Config, s: State, s': State) {
    || (exists added :: Refilled(c, s, s', added))
    || (s.deq == [] && exists k :: 0 <= k <= |s.held| && k <= s.remaining && s' == Submitted(s, k))
    || (s.deq == [] && exists done :: Collected(c, s, s', done))
    || (|s.deq| <= s.outstanding && s' == Recycled(s))
  }

  lemma NextKeeps(c: Config, s: State, s': State)
    requires Invariant(c, s) && Next(c, s, s')
    ensures Invariant(c, s')
  {
    if added :| Refilled(c, s, s', added) {
      RefillKeeps(c, s, s', added);
    } else if k :| s.deq == [] && 0 <= k <= |s.held| && k <= s.remaining && s' == Submitted(s, k) {
      SubmitKeeps(c, s, k);
    } else if done :| s.deq == [] && Collected(c, s, s', done) {
      CollectKeeps(c, s, s', done);
    } else {
      RecycleKeeps(c, s);
    }
  }

  ghost predicate IsRun(c: Config, run: seq<State>) {
    run != [] && Invariant(c, run[0]) && forall j :: 0 <= j < |run| - 1 ==> Next(c, run[j], run[j + 1])
  }

  // Safety on whole runs: from the start of an iteration, every state of every
  // run keeps the invariant.
  lemma {:induction false} RunsKeep(c: Config, run: seq<State>, i: nat)
    requires IsRun(c, run) && i < |run|
    ensures Invariant(c, run[i])
  {
    if 0 < i {
      RunsKeep(c, run, i - 1);
      assert Next(c, run[i - 1], run[i - 1 + 1]);
      NextKeeps(c, run[i - 1], run[i]);
    }
  }

  // The buffers handed to the device in the course of a run, in the order they
  // were submitted.
  ghost function Handed(run: seq<State>): seq<nat> {
    if |run| < 2 then []
    else
      var k := run[1].enqueued - run[0].enqueued;
      (if 0 <= k <= |run[0].held| then Bufs(run[0].bufs, run[0].held[..k]) else []) + Handed(run[1..])
  }

  lemma HandedStep(run: seq<State>)
    ensures |run| < 2 ==> Handed(run) == []
    ensures
      1 < |run| && run[0].enqueued <= run[1].enqueued <= run[0].enqueued + |run[0].held| ==>
        Handed(run) == Bufs(run[0].bufs, run[0].held[..run[1].enqueued - run[0].enqueued]) + Handed(run[1..])
  {}

  lemma NextHands(c: Config, s: State, s': State)
    requires Invariant(c, s) && Next(c, s, s')
    ensures 0 <= s'.enqueued - s.enqueued <= |s.held|
    ensures Bufs(s.bufs, s.held[..s'.enqueued - s.enqueued]) == Iota(s.enqueued, s'.enqueued - s.enqueued)
  {
    HeldInOrder(s, s'.enqueued - s.enqueued);
  }

  // Submission order, on every run: whatever prefixes are taken and whatever is
  // completed in between, the device is handed consecutive buffers, in order,
  // each once.
  lemma {:induction false} HandedInOrder(c: Config, run: seq<State>)
    requires IsRun(c, run)
    ensures
      var first, last := run[0].enqueued, run[|run| - 1].enqueued;
      first <= last && Handed(run) == Iota(first, last - first)
  {
    hide Invariant;
    hide Next;
    hide Bufs;
    hide Iota;
    hide Handed;
    HandedStep(run);
    if |run| == 1 {
      NoIota(run[0].enqueued);
    } else {
      RunStep(c, run);
      HandedInOrder(c, run[1..]);
      NextHands(c, run[0], run[1]);
      IotaSplit(run[0].enqueued, run[|run| - 1].enqueued - run[0].enqueued, run[1].enqueued - run[0].enqueued);
    }
  }

  lemma RunStep(c: Config, run: seq<State>)
    requires IsRun(c, run) && 1 < |run|
    ensures IsRun(c, run[1..]) && Invariant(c, run[0]) && Next(c, run[0], run[1])
  {
    hide Invariant;
    hide Next;
    var rest := run[1..];
    assert Next(c, run[0], run[0 + 1]);
    NextKeeps(c, run[0], run[1]);
    forall j | 0 <= j < |rest| - 1 ensures Next(c, rest[j], rest[j + 1]) {
      assert Next(c, run[j + 1], run[j + 1 + 1]);
    }
  }

  lemma NoIota(a: nat)
    ensures Iota(a, 0) == []
  {}
}
