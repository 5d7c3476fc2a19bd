// The two library objects every burst loop talks to: a memory pool of
// operations and a device queue pair. An operation is named by a handle, which
// stands for the C pointer; two pointers are the same operation exactly when
// the handles are equal. The contracts promise no more than the library does,
// so what is proved of a loop holds for every schedule of accepted prefixes
// and completed operations.

module Burst {
  import opened Common

  type Op = nat

  // No operation is counted twice.
  ghost predicate Distinct(all: multiset<Op>) {
    forall x :: all[x] <= 1
  }

  // rte_mempool_get_bulk and rte_mempool_put_bulk. `gets` are the sizes of the
  // bulks it has given out.
  class OpPool {
    var free: seq<Op>
    ghost var gets: seq<nat>

    constructor (ops: seq<Op>)
      ensures free == ops && gets == []
    {
      free, gets := ops, [];
    }

    method GetBulk(a: array<Op>, at: nat, n: nat) returns (ok: bool)
      requires at + n <= a.Length
      modifies this, a
      ensures ok == (n <= |old(free)|)
      ensures gets == old(gets) + if ok then [n] else []
      ensures !ok ==> free == old(free) && a[..] == old(a[..])
      ensures ok ==> multiset(free) + multiset(a[at..at + n]) == multiset(old(free))
      ensures ok ==> |free| + n == |old(free)|
      ensures a[..at] == old(a[..at]) && a[at + n..] == old(a[at + n..])
    {
      ok := n <= |free|;
      if ok {
        var taken := free[..n];
        assert free == taken + free[n..];
        for i := 0 to n
          invariant a[..at] == old(a[..at]) && a[at + n..] == old(a[at + n..])
          invariant a[at..at + i] == taken[..i]
          invariant free == old(free) && gets == old(gets)
        {
          a[at + i] := taken[i];
        }
        assert a[at..at + n] == taken;
        free, gets := free[n..], gets + [n];
      }
    }

    method PutBulk(a: array<Op>, at: nat, n: nat)
      requires at + n <= a.Length
      modifies this
      ensures free == old(free) + a[at..at + n] && gets == old(gets)
    {
      free := free + a[at..at + n];
    }
  }

  // What a device did with an operation: it took it, or handed it back.
  datatype Traffic = Took(op: Op) | Gave(op: Op)

  function TookAll(hs: seq<Op>): (t: seq<Traffic>)
    ensures |t| == |hs|
  {
    seq(|hs|, i requires 0 <= i < |hs| => Took(hs[i]))
  }

  function GaveAll(hs: seq<Op>): (t: seq<Traffic>)
    ensures |t| == |hs|
  {
    seq(|hs|, i requires 0 <= i < |hs| => Gave(hs[i]))
  }

  function Tooks(log: seq<Traffic>): nat {
    if log == [] then 0 else Tooks(log[..|log| - 1]) + if log[|log| - 1].Took? then 1 else 0
  }

  function Gaves(log: seq<Traffic>): nat {
    if log == [] then 0 else Gaves(log[..|log| - 1]) + if log[|log| - 1].Gave? then 1 else 0
  }

  lemma {:induction false} CountsConcat(a: seq<Traffic>, b: seq<Traffic>)
    ensures Tooks(a + b) == Tooks(a) + Tooks(b) && Gaves(a + b) == Gaves(a) + Gaves(b)
    decreases |b|
  {
    if b == [] {
      assert a + b == a;
    } else {
      assert (a + b)[..|a + b| - 1] == a + b[..|b| - 1];
      CountsConcat(a, b[..|b| - 1]);
    }
  }

  lemma {:induction false} TookCounts(hs: seq<Op>)
    ensures Tooks(TookAll(hs)) == |hs| && Gaves(TookAll(hs)) == 0
  {
    if hs != [] {
      assert TookAll(hs)[..|hs| - 1] == TookAll(hs[..|hs| - 1]);
      TookCounts(hs[..|hs| - 1]);
    }
  }

  lemma {:induction false} GaveCounts(hs: seq<Op>)
    ensures Tooks(GaveAll(hs)) == 0 && Gaves(GaveAll(hs)) == |hs|
  {
    if hs != [] {
      assert GaveAll(hs)[..|hs| - 1] == GaveAll(hs[..|hs| - 1]);
      GaveCounts(hs[..|hs| - 1]);
    }
  }

  // A request to the device: how many operations it was asked to take or to
  // hand back, and how many it did.
  datatype Request = Enq(asked: nat, done: nat) | Deq(asked: nat, done: nat)

  // How many operations some requests made the device take.
  function Taken(rs: seq<Request>): nat {
    if rs == [] then 0 else Taken(rs[..|rs| - 1]) + if rs[|rs| - 1].Enq? then rs[|rs| - 1].done else 0
  }

  // And how many they made it hand back.
  function Given(rs: seq<Request>): nat {
    if rs == [] then 0 else Given(rs[..|rs| - 1]) + if rs[|rs| - 1].Deq? then rs[|rs| - 1].done else 0
  }

  lemma {:induction false} RequestsConcat(a: seq<Request>, b: seq<Request>)
    ensures Taken(a + b) == Taken(a) + Taken(b) && Given(a + b) == Given(a) + Given(b)
    decreases |b|
  {
    if b == [] {
      assert a + b == a;
    } else {
      assert (a + b)[..|a + b| - 1] == a + b[..|b| - 1];
      RequestsConcat(a, b[..|b| - 1]);
    }
  }

  lemma OneRequest(r: Request)
    ensures Taken([r]) == if r.Enq? then r.done else 0
    ensures Given([r]) == if r.Deq? then r.done else 0
  {
    assert [r][..0] == [];
  }

  lemma LastRequest(rs: seq<Request>, r: Request)
    ensures Taken(rs + [r]) == Taken(rs) + if r.Enq? then r.done else 0
    ensures Given(rs + [r]) == Given(rs) + if r.Deq? then r.done else 0
  {
    RequestsConcat(rs, [r]);
    OneRequest(r);
  }

  // All that went through a device, and all its requests.
  datatype Past = Past(log: seq<Traffic>, requests: seq<Request>)

  // From one past to the other just these requests were made, and as many
  // operations as they say went through the device.
  ghost predicate Went(past: Past, past': Past, rs: seq<Request>) {
    && past'.requests == past.requests + rs && past.log <= past'.log
    && Tooks(past'.log) == Tooks(past.log) + Taken(rs)
    && Gaves(past'.log) == Gaves(past.log) + Given(rs)
  }

  // Between the two, n operations were taken and as many handed back.
  ghost predicate Moved(past: Past, past': Past, n: nat) {
    && past.log <= past'.log
    && Tooks(past'.log) == Tooks(past.log) + n && Gaves(past'.log) == Gaves(past.log) + n
  }

  lemma WentMoved(past: Past, past': Past, rs: seq<Request>, n: nat)
    requires Went(past, past', rs) && Taken(rs) == Given(rs) == n
    ensures Moved(past, past', n)
  {}

  lemma MovedOn(a: Past, b: Past, c: Past, m: nat, n: nat)
    requires Moved(a, b, m) && Moved(b, c, n)
    ensures Moved(a, c, m + n)
  {}

  lemma WentNowhere(past: Past)
    ensures Went(past, past, [])
  {}

  lemma WentOn(a: Past, b: Past, c: Past, first: seq<Request>, second: seq<Request>)
    requires Went(a, b, first) && Went(b, c, second)
    ensures Went(a, c, first + second)
  {
    RequestsConcat(first, second);
    assert a.requests + first + second == a.requests + (first + second);
  }

  lemma WentEnq(past: Past, hs: seq<Op>, n: nat)
    ensures Went(past, Past(past.log + TookAll(hs), past.requests + [Enq(n, |hs|)]), [Enq(n, |hs|)])
  {
    CountsConcat(past.log, TookAll(hs));
    TookCounts(hs);
    OneRequest(Enq(n, |hs|));
  }

  lemma WentDeq(past: Past, hs: seq<Op>, n: nat)
    ensures Went(past, Past(past.log + GaveAll(hs), past.requests + [Deq(n, |hs|)]), [Deq(n, |hs|)])
  {
    CountsConcat(past.log, GaveAll(hs));
    GaveCounts(hs);
    OneRequest(Deq(n, |hs|));
  }

  // A queue pair. Enqueueing accepts any prefix of the burst; dequeueing hands
  // back any completed operations, in submission order only when `inOrder`.
  // `stalls` bounds how often the device may answer a non-trivial request with
  // nothing at all, which is what termination of the polling loops rests on.
  // `log` is everything that went through the device, `requests` all that it was
  // asked for, in order.
  class Device {
    const inOrder: bool
    var queue: seq<Op>
    var stalls: nat
    ghost var log: seq<Traffic>
    ghost var requests: seq<Request>

    constructor (inOrder: bool, stalls: nat)
      ensures this.inOrder == inOrder && this.stalls == stalls && queue == [] && log == [] && requests == []
    {
      this.inOrder := inOrder;
      this.stalls := stalls;
      queue := [];
      log, requests := [], [];
    }

    ghost function History(): Past
      reads this`log, this`requests
    {
      Past(log, requests)
    }

    method EnqueueBurst(a: array<Op>, at: nat, n: nat) returns (k: nat)
      requires at + n <= a.Length
      modifies this
      ensures k <= n
      ensures queue == old(queue) + a[at..at + k]
      ensures log == old(log) + TookAll(a[at..at + k]) && Went(old(History()), History(), [Enq(n, k)])
      ensures stalls <= old(stalls)
      ensures k == 0 < n ==> stalls < old(stalls)
    {
      hide Went;
      hide TookAll;
      assert 0 <= n <= n;
      k :| 0 <= k <= n && (stalls == 0 < n ==> 0 < k);
      queue := queue + a[at..at + k];
      log, requests := log + TookAll(a[at..at + k]), requests + [Enq(n, k)];
      WentEnq(old(History()), a[at..at + k], n);
      if k == 0 < n {
        stalls := stalls - 1;
      }
    }

    // Writes the completed operations to a[at..at + k). The caller need not
    // leave room for n operations, only for those that are in flight.
    method DequeueBurst(a: array<Op>, at: nat, n: nat) returns (k: nat)
      requires at + Min(n, |queue|) <= a.Length
      modifies this, a
      ensures k <= Min(n, |old(queue)|)
      ensures multiset(a[at..at + k]) + multiset(queue) == multiset(old(queue))
      ensures |queue| + k == |old(queue)|
      ensures inOrder ==> a[at..at + k] + queue == old(queue)
      ensures log == old(log) + GaveAll(a[at..at + k]) && Went(old(History()), History(), [Deq(n, k)])
      ensures a[..at] == old(a[..at]) && a[at + k..] == old(a[at + k..])
      ensures stalls <= old(stalls)
      ensures k == 0 < Min(n, |old(queue)|) ==> stalls < old(stalls)
    {
      hide Went;
      hide GaveAll;
      var most := Min(n, |queue|);
      assert 0 <= most <= most;
      k :| 0 <= k <= most && (stalls == 0 < most ==> 0 < k);
      var done := queue[..k];
      assert queue == done + queue[k..];
      Store(a, at, done);
      queue := queue[k..];
      log, requests := log + GaveAll(done), requests + [Deq(n, k)];
      WentDeq(old(History()), done, n);
      if k == 0 < most {
        stalls := stalls - 1;
      }
    }
  }

  method Store(a: array<Op>, at: nat, hs: seq<Op>)
    requires at + |hs| <= a.Length
    modifies a
    ensures a[at..at + |hs|] == hs
    ensures a[..at] == old(a[..at]) && a[at + |hs|..] == old(a[at + |hs|..])
  {
    forall i | 0 <= i < |hs| {
      a[at + i] := hs[i];
    }
  }

  // memmove(&a[to], &a[from], n * sizeof(a[0])): the regions may overlap.
  method Memmove<T>(a: array<T>, to: nat, from: nat, n: nat)
    requires to + n <= a.Length && from + n <= a.Length
    modifies a
    ensures a[to..to + n] == old(a[from..from + n])
    ensures a[..to] == old(a[..to]) && a[to + n..] == old(a[to + n..])
  {
    forall i | 0 <= i < n {
      a[to + i] := a[from + i];
    }
  }
}
