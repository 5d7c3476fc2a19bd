// What the tests ask of a device, request by request: the burst sizes of a run
// are decided by the answers so far.

module Pacing {
  import opened Common
  import opened Burst

  // A crypto test asks, as long as not all operations have come back, for a
  // burst to be taken, no larger than what is left, and then for a burst to be
  // handed back. When nothing is left to take, the enqueue is one of no
  // operations, which flushes the device.
  ghost predicate AsksNext(rs: seq<Request>, r: Request, burst: nat, total: nat) {
    if |rs| % 2 == 0 then
      r.Enq? && Taken(rs) <= total && Given(rs) < total && r.asked == Min(burst, total - Taken(rs))
    else
      r.Deq? && r.asked == burst
  }

  ghost predicate Paced(rs: seq<Request>, burst: nat, total: nat) {
    rs == [] ||
    (Paced(rs[..|rs| - 1], burst, total) && AsksNext(rs[..|rs| - 1], rs[|rs| - 1], burst, total))
  }

  // All operations went in and came back.
  ghost predicate Complete(rs: seq<Request>, burst: nat, total: nat) {
    Paced(rs, burst, total) && Taken(rs) == Given(rs) == total
  }

  // The state between two rounds.
  ghost predicate InStep(start: Past, now: Past, rs: seq<Request>, burst: nat, total: nat, taken: nat, given: nat) {
    Went(start, now, rs) && Paced(rs, burst, total) && |rs| % 2 == 0 && Taken(rs) == taken && Given(rs) == given
  }

  lemma PacedNext(rs: seq<Request>, r: Request, burst: nat, total: nat)
    requires Paced(rs, burst, total) && AsksNext(rs, r, burst, total)
    ensures Paced(rs + [r], burst, total)
  {
    assert (rs + [r])[..|rs|] == rs;
  }

  lemma StartsInStep(past: Past, burst: nat, total: nat)
    ensures InStep(past, past, [], burst, total, 0, 0)
  {
    WentNowhere(past);
  }

  // One round: an enqueue and a dequeue.
  lemma RoundInStep(start: Past, a: Past, b: Past, rs: seq<Request>, burst: nat, total: nat, taken: nat, given: nat,
                    n: nat, k: nat, d: nat)
    requires InStep(start, a, rs, burst, total, taken, given)
    requires Went(a, b, [Enq(n, k)] + [Deq(burst, d)])
    requires taken <= total && given < total && n == Min(burst, total - taken)
    ensures InStep(start, b, rs + ([Enq(n, k)] + [Deq(burst, d)]), burst, total, taken + k, given + d)
  {
    hide Went;
    hide Taken;
    hide Given;
    hide Paced;
    WentOn(start, a, b, rs, [Enq(n, k)] + [Deq(burst, d)]);
    ConcatAssociates(rs, [Enq(n, k)], [Deq(burst, d)]);
    LastRequest(rs, Enq(n, k));
    LastRequest(rs + [Enq(n, k)], Deq(burst, d));
    PacedNext(rs, Enq(n, k), burst, total);
    PacedNext(rs + [Enq(n, k)], Deq(burst, d), burst, total);
  }

  lemma EndsComplete(start: Past, now: Past, rs: seq<Request>, burst: nat, total: nat)
    requires InStep(start, now, rs, burst, total, total, total)
    ensures Went(start, now, rs) && Complete(rs, burst, total)
  {}

  // The requests of several runs one after the other.
  function Joined(parts: seq<seq<Request>>): seq<Request> {
    if parts == [] then [] else Joined(parts[..|parts| - 1]) + parts[|parts| - 1]
  }

  lemma NothingJoined(past: Past)
    ensures Went(past, past, Joined([]))
  {
    WentNowhere(past);
  }

  lemma JoinedNext(parts: seq<seq<Request>>, rs: seq<Request>)
    ensures Joined(parts + [rs]) == Joined(parts) + rs
  {
    assert (parts + [rs])[..|parts|] == parts;
  }

  // If each of them takes and gives back n operations, so do all together, n
  // times their number.
  lemma {:induction false} JoinedCounts(parts: seq<seq<Request>>, n: nat)
    requires forall i :: 0 <= i < |parts| ==> Taken(parts[i]) == Given(parts[i]) == n
    ensures Taken(Joined(parts)) == Given(Joined(parts)) == |parts| * n
  {
    hide Taken;
    hide Given;
    if parts == [] {
      NoRequests();
    } else {
      var m: nat := |parts| - 1;
      JoinedCounts(parts[..m], n);
      RequestsConcat(Joined(parts[..m]), parts[m]);
      OneMore(m, n);
    }
  }

  lemma NoRequests()
    ensures Taken([]) == Given([]) == 0
  {}

  lemma OneMore(m: nat, n: nat)
    ensures (m + 1) * n == m * n + n && 0 * n == 0
  {}

  // How many operations a dequeue of a compression test asks for while there is
  // something left to submit: a burst, or, in the cycle-count test, whatever is
  // outstanding, which the call takes as 16 bits.
  function Limit(cycle: bool, outstanding: int, burst: nat): nat {
    if cycle then outstanding % 0x10000 else burst
  }

  // Behind an enqueue, what it offered is outstanding besides what was in the
  // device.
  ghost function LoopLimit(rs: seq<Request>, burst: nat, cycle: bool): nat
    requires rs != []
  {
    var before := rs[..|rs| - 1];
    Limit(cycle, Taken(before) + rs[|rs| - 1].asked - Given(before), burst)
  }

  // A compression test offers bursts, no larger than what is left, with a
  // dequeue after each of them; when all are taken it asks for bursts back.
  ghost predicate LoopAsks(rs: seq<Request>, r: Request, burst: nat, total: nat, cycle: bool) {
    var offered := rs != [] && rs[|rs| - 1].Enq?;
    if r.Enq? then !offered && Taken(rs) < total && r.asked == Min(burst, total - Taken(rs))
    else if offered then r.asked == LoopLimit(rs, burst, cycle)
    else Taken(rs) == total && Given(rs) < total && r.asked == burst
  }

  ghost predicate LoopPaced(rs: seq<Request>, burst: nat, total: nat, cycle: bool) {
    rs == [] ||
    var front := rs[..|rs| - 1];
    LoopPaced(front, burst, total, cycle) && LoopAsks(front, rs[|rs| - 1], burst, total, cycle)
  }

  ghost predicate LoopComplete(rs: seq<Request>, burst: nat, total: nat, cycle: bool) {
    LoopPaced(rs, burst, total, cycle) && Taken(rs) == Given(rs) == total
  }

  // The state between two rounds.
  ghost predicate LoopStep(start: Past, now: Past, rs: seq<Request>, burst: nat, total: nat, cycle: bool,
                           taken: nat, given: nat)
  {
    && Went(start, now, rs) && LoopPaced(rs, burst, total, cycle) && Taken(rs) == taken && Given(rs) == given
    && (rs == [] || rs[|rs| - 1].Deq?)
  }

  lemma LoopNext(rs: seq<Request>, r: Request, burst: nat, total: nat, cycle: bool)
    requires LoopPaced(rs, burst, total, cycle) && LoopAsks(rs, r, burst, total, cycle)
    ensures LoopPaced(rs + [r], burst, total, cycle)
  {
    assert (rs + [r])[..|rs|] == rs;
  }

  lemma StartsLoop(past: Past, burst: nat, total: nat, cycle: bool)
    ensures LoopStep(past, past, [], burst, total, cycle, 0, 0)
  {
    WentNowhere(past);
  }

  lemma LoopRound(start: Past, a: Past, b: Past, rs: seq<Request>, burst: nat, total: nat, cycle: bool,
                  taken: nat, given: nat, n: nat, k: nat, limit: nat, d: nat)
    requires LoopStep(start, a, rs, burst, total, cycle, taken, given)
    requires Went(a, b, [Enq(n, k)] + [Deq(limit, d)])
    requires taken < total && n == Min(burst, total - taken)
    requires limit == Limit(cycle, taken + n - given, burst)
    ensures LoopStep(start, b, rs + ([Enq(n, k)] + [Deq(limit, d)]), burst, total, cycle, taken + k, given + d)
  {
    hide Went;
    hide Taken;
    hide Given;
    hide Limit;
    hide LoopPaced;
    WentOn(start, a, b, rs, [Enq(n, k)] + [Deq(limit, d)]);
    ConcatAssociates(rs, [Enq(n, k)], [Deq(limit, d)]);
    LastRequest(rs, Enq(n, k));
    LastRequest(rs + [Enq(n, k)], Deq(limit, d));
    LoopNext(rs, Enq(n, k), burst, total, cycle);
    assert (rs + [Enq(n, k)])[..|rs|] == rs;
    LoopNext(rs + [Enq(n, k)], Deq(limit, d), burst, total, cycle);
  }

  lemma LoopDrain(start: Past, a: Past, b: Past, rs: seq<Request>, burst: nat, total: nat, cycle: bool,
                  given: nat, d: nat)
    requires LoopStep(start, a, rs, burst, total, cycle, total, given)
    requires Went(a, b, [Deq(burst, d)]) && given < total
    ensures LoopStep(start, b, rs + [Deq(burst, d)], burst, total, cycle, total, given + d)
  {
    hide Went;
    hide Taken;
    hide Given;
    hide LoopPaced;
    WentOn(start, a, b, rs, [Deq(burst, d)]);
    LastRequest(rs, Deq(burst, d));
    LoopNext(rs, Deq(burst, d), burst, total, cycle);
  }

  lemma LoopIs(start: Past, now: Past, rs: seq<Request>, burst: nat, total: nat, cycle: bool, taken: nat, given: nat)
    requires LoopStep(start, now, rs, burst, total, cycle, taken, given)
    ensures Went(start, now, rs) && LoopPaced(rs, burst, total, cycle) && Taken(rs) == taken && Given(rs) == given
    ensures taken == given == total ==> LoopComplete(rs, burst, total, cycle)
  {}

  // The requests of n runs of the loops, of which all, or all but the last, were
  // run to the end.
  ghost predicate LoopRuns(parts: seq<seq<Request>>, n: nat, burst: nat, total: nat, cycle: bool, all: bool) {
    && |parts| == n && (forall i :: 0 <= i < n ==> LoopPaced(parts[i], burst, total, cycle))
    && forall i :: 0 <= i < (if all then n else n - 1) ==> LoopComplete(parts[i], burst, total, cycle)
  }

  lemma NextLoopRun(parts: seq<seq<Request>>, n: nat, burst: nat, total: nat, cycle: bool, rs: seq<Request>)
    requires LoopRuns(parts, n, burst, total, cycle, true) && LoopPaced(rs, burst, total, cycle)
    ensures LoopRuns(parts + [rs], n + 1, burst, total, cycle, false)
    ensures LoopComplete(rs, burst, total, cycle) ==> LoopRuns(parts + [rs], n + 1, burst, total, cycle, true)
    ensures Joined(parts + [rs]) == Joined(parts) + rs
  {
    hide LoopPaced;
    hide LoopComplete;
    JoinedNext(parts, rs);
  }

  lemma NotAllRun(parts: seq<seq<Request>>, n: nat, burst: nat, total: nat, cycle: bool)
    requires LoopRuns(parts, n, burst, total, cycle, true)
    ensures LoopRuns(parts, n, burst, total, cycle, false)
  {}

  lemma AllLoopRuns(parts: seq<seq<Request>>, n: nat, burst: nat, total: nat, cycle: bool)
    requires LoopRuns(parts, n, burst, total, cycle, true)
    ensures Taken(Joined(parts)) == Given(Joined(parts)) == n * total
  {
    hide LoopPaced;
    forall i | 0 <= i < n ensures Taken(parts[i]) == Given(parts[i]) == total {
      assert LoopComplete(parts[i], burst, total, cycle);
    }
    JoinedCounts(parts, total);
  }

  lemma NoLoopRuns(burst: nat, total: nat, cycle: bool)
    ensures LoopRuns([], 0, burst, total, cycle, true)
  {}

  // Filling the device with n operations and draining it: bursts are offered
  // until all are taken or one is refused outright, then bursts are asked back
  // until all that were taken are.
  ghost predicate FillAsks(rs: seq<Request>, r: Request, burst: nat, n: nat) {
    var refused := rs != [] && rs[|rs| - 1].Enq? && rs[|rs| - 1].done == 0;
    var draining := rs != [] && rs[|rs| - 1].Deq?;
    if r.Enq? then !refused && !draining && Taken(rs) < n && r.asked == Min(n - Taken(rs), burst)
    else
      && (draining || refused || Taken(rs) == n) && Given(rs) < Taken(rs)
      && r.asked == Min(Taken(rs) - Given(rs), burst)
  }

  ghost predicate FillPaced(rs: seq<Request>, burst: nat, n: nat) {
    rs == [] || (FillPaced(rs[..|rs| - 1], burst, n) && FillAsks(rs[..|rs| - 1], rs[|rs| - 1], burst, n))
  }

  ghost predicate FillComplete(rs: seq<Request>, burst: nat, n: nat) {
    FillPaced(rs, burst, n) && Taken(rs) == Given(rs) && (rs == [] ==> n == 0)
  }

  // Fills that make up a run of `total` operations, at most `most` at a time.
  ghost predicate Fills(parts: seq<seq<Request>>, burst: nat, most: nat, total: nat) {
    parts == [] ||
    var front, last := parts[..|parts| - 1], parts[|parts| - 1];
    Fills(front, burst, most, total) && Taken(Joined(front)) < total
    && FillComplete(last, burst, Min(most, total - Taken(Joined(front))))
  }

  // While filling, and while draining.
  ghost predicate Filling(start: Past, now: Past, rs: seq<Request>, burst: nat, n: nat, taken: nat) {
    && Went(start, now, rs) && FillPaced(rs, burst, n) && Taken(rs) == taken && Given(rs) == 0
    && (rs != [] ==> rs[|rs| - 1].Enq?) && (rs == [] ==> taken == 0)
  }

  ghost predicate Filled(rs: seq<Request>, n: nat) {
    Taken(rs) == n || (rs != [] && rs[|rs| - 1].Enq? && rs[|rs| - 1].done == 0)
  }

  ghost predicate Draining(start: Past, now: Past, rs: seq<Request>, burst: nat, n: nat, taken: nat, given: nat) {
    && Went(start, now, rs) && FillPaced(rs, burst, n) && Taken(rs) == taken && Given(rs) == given
    && (Filled(rs, n) || (rs != [] && rs[|rs| - 1].Deq?)) && (rs == [] ==> n == 0)
  }

  lemma FillNext(start: Past, a: Past, b: Past, rs: seq<Request>, r: Request, burst: nat, n: nat)
    requires Went(start, a, rs) && FillPaced(rs, burst, n) && Went(a, b, [r]) && FillAsks(rs, r, burst, n)
    ensures Went(start, b, rs + [r]) && FillPaced(rs + [r], burst, n)
    ensures Taken(rs + [r]) == Taken(rs) + if r.Enq? then r.done else 0
    ensures Given(rs + [r]) == Given(rs) + if r.Deq? then r.done else 0
  {
    hide Went;
    hide Taken;
    hide Given;
    WentOn(start, a, b, rs, [r]);
    LastRequest(rs, r);
    assert (rs + [r])[..|rs|] == rs;
  }

  lemma StartsFilling(past: Past, burst: nat, n: nat)
    ensures Filling(past, past, [], burst, n, 0) && (Filled([], n) <==> n == 0)
  {
    WentNowhere(past);
  }

  lemma FillOne(start: Past, a: Past, b: Past, rs: seq<Request>, burst: nat, n: nat, taken: nat, asked: nat, k: nat)
    requires Filling(start, a, rs, burst, n, taken) && !Filled(rs, n) && taken < n
    requires asked == Min(n - taken, burst) && Went(a, b, [Enq(asked, k)])
    ensures Filling(start, b, rs + [Enq(asked, k)], burst, n, taken + k)
    ensures Filled(rs + [Enq(asked, k)], n) <==> taken + k == n || k == 0
  {
    hide Went;
    hide FillPaced;
    FillNext(start, a, b, rs, Enq(asked, k), burst, n);
  }

  lemma StartsDraining(start: Past, now: Past, rs: seq<Request>, burst: nat, n: nat, taken: nat)
    requires Filling(start, now, rs, burst, n, taken) && Filled(rs, n)
    ensures Draining(start, now, rs, burst, n, taken, 0)
  {
    hide Went;
    hide FillPaced;
  }

  lemma DrainOne(start: Past, a: Past, b: Past, rs: seq<Request>, burst: nat, n: nat, taken: nat, given: nat,
                 asked: nat, k: nat)
    requires Draining(start, a, rs, burst, n, taken, given) && given < taken
    requires asked == Min(taken - given, burst) && Went(a, b, [Deq(asked, k)])
    ensures Draining(start, b, rs + [Deq(asked, k)], burst, n, taken, given + k)
  {
    hide Went;
    hide FillPaced;
    FillNext(start, a, b, rs, Deq(asked, k), burst, n);
  }

  lemma EndsDrained(start: Past, now: Past, rs: seq<Request>, burst: nat, n: nat, taken: nat)
    requires Draining(start, now, rs, burst, n, taken, taken)
    ensures Went(start, now, rs) && FillComplete(rs, burst, n) && Taken(rs) == Given(rs) == taken
  {}

  // The bursts n operations are allocated in.
  function Bursts(n: nat, burst: nat): seq<nat>
    requires 0 < burst
    decreases n
  {
    if n == 0 then [] else [Min(n, burst)] + Bursts(n - Min(n, burst), burst)
  }
}
