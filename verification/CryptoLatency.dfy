// The crypto latency test: every operation submitted gets a result slot, which
// receives the time stamps of its submission and of its completion although
// operations are recycled while others are in flight.

module CryptoLatency {
  import opened Common
  import opened Burst
  import opened Pacing
  import CarryOver

  // What happens between the test and the device, in order, with the clock
  // value read for it.
  datatype Event = Sub(op: Op, tsc: nat) | Comp(op: Op, tsc: nat)

  function Subs(hs: seq<Op>, tsc: nat): (e: seq<Event>)
    ensures |e| == |hs|
  {
    seq(|hs|, i requires 0 <= i < |hs| => Sub(hs[i], tsc))
  }

  function Comps(hs: seq<Op>, tsc: nat): (e: seq<Event>)
    ensures |e| == |hs|
  {
    seq(|hs|, i requires 0 <= i < |hs| => Comp(hs[i], tsc))
  }

  // Events p and q are the two ends of one submission: the same operation, with
  // nothing happening to it in between.
  ghost predicate Matches(trace: seq<Event>, p: nat, q: nat) {
    && p < q < |trace| && trace[p].Sub? && trace[q].Comp? && trace[p].op == trace[q].op
    && trace[p].tsc <= trace[q].tsc
    && forall i :: p < i < q ==> trace[i].op != trace[p].op
  }

  datatype Result = Result(tscStart: nat, tscEnd: nat)

  // Where the submissions of a trace start and end: `subs` the events that
  // submit, `ends` the matching completions as far as there are any, `flight`
  // the submission every operation in the device belongs to.
  datatype Ledger = Ledger(subs: seq<nat>, ends: seq<Option<nat>>, flight: map<Op, nat>)

  // subs lists the submissions of the trace, all of them and in order.
  ghost predicate Listed(trace: seq<Event>, subs: seq<nat>) {
    && (forall i :: 0 <= i < |subs| ==> subs[i] < |trace| && trace[subs[i]].Sub?)
    && (forall i, j :: 0 <= i < j < |subs| ==> subs[i] < subs[j])
    && (forall p :: 0 <= p < |trace| && trace[p].Sub? ==> p in subs)
  }

  // Operation h is in the device since event p.
  ghost predicate Open(trace: seq<Event>, h: Op, p: nat, now: nat) {
    && p < |trace| && trace[p].Sub? && trace[p].op == h && trace[p].tsc <= now
    && forall i :: p < i < |trace| ==> trace[i].op != h
  }

  ghost predicate Closed(trace: seq<Event>, l: Ledger) {
    |l.subs| == |l.ends| &&
    forall i :: 0 <= i < |l.subs| && l.ends[i].Some? ==> Matches(trace, l.subs[i], l.ends[i].value)
  }

  ghost predicate Flying(trace: seq<Event>, l: Ledger, now: nat) {
    forall h :: h in l.flight ==> l.flight[h] < |l.subs| && Open(trace, h, l.subs[l.flight[h]], now)
  }

  // Every submission without an end is still in the device.
  ghost predicate Accounted(l: Ledger) {
    forall i :: 0 <= i < |l.ends| && l.ends[i].None? ==> exists h :: h in l.flight && l.flight[h] == i
  }

  ghost predicate Kept(trace: seq<Event>, l: Ledger, now: nat) {
    Listed(trace, l.subs) && Closed(trace, l) && Flying(trace, l, now) && Accounted(l)
  }

  // The result slots and the pointers to them agree with the ledger.
  ghost predicate Recorded(trace: seq<Event>, l: Ledger, res: seq<Result>, priv: seq<nat>) {
    && |l.subs| == |l.ends| <= |res|
    && (forall i :: 0 <= i < |l.subs| ==> l.subs[i] < |trace| && res[i].tscStart == trace[l.subs[i]].tsc)
    && (forall i :: 0 <= i < |l.subs| && l.ends[i].Some? ==>
         l.ends[i].value < |trace| && res[i].tscEnd == trace[l.ends[i].value].tsc)
    && (forall h :: h in l.flight ==> h < |priv| && priv[h] == l.flight[h])
  }

  function Enter(trace: seq<Event>, l: Ledger, h: Op): Ledger {
    Ledger(l.subs + [|trace|], l.ends + [None], l.flight[h := |l.subs|])
  }

  lemma MatchesLater(trace: seq<Event>, e: Event, p: nat, q: nat)
    requires Matches(trace, p, q)
    ensures Matches(trace + [e], p, q)
  {}

  lemma ClosedLater(trace: seq<Event>, e: Event, l: Ledger)
    requires Closed(trace, l)
    ensures Closed(trace + [e], l)
  {
    hide Matches;
    forall i | 0 <= i < |l.subs| && l.ends[i].Some? ensures Matches(trace + [e], l.subs[i], l.ends[i].value) {
      MatchesLater(trace, e, l.subs[i], l.ends[i].value);
    }
  }

  lemma ListedSub(trace: seq<Event>, subs: seq<nat>, h: Op, t: nat)
    requires Listed(trace, subs)
    ensures Listed(trace + [Sub(h, t)], subs + [|trace|])
  {
    var trace', subs' := trace + [Sub(h, t)], subs + [|trace|];
    forall p | 0 <= p < |trace'| && trace'[p].Sub? ensures p in subs' {
      if p < |trace| {
        assert trace[p].Sub? && p in subs;
      } else {
        assert subs'[|subs|] == p;
      }
    }
  }

  lemma ListedComp(trace: seq<Event>, subs: seq<nat>, h: Op, t: nat)
    requires Listed(trace, subs)
    ensures Listed(trace + [Comp(h, t)], subs)
  {
    var trace' := trace + [Comp(h, t)];
    forall p | 0 <= p < |trace'| && trace'[p].Sub? ensures p in subs {
      assert p < |trace| && trace[p].Sub?;
    }
  }

  // Operation h, not in the device, is submitted.
  lemma EnterKeeps(trace: seq<Event>, l: Ledger, now: nat, h: Op, t: nat)
    requires Kept(trace, l, now) && h !in l.flight && t <= now
    ensures Kept(trace + [Sub(h, t)], Enter(trace, l, h), now)
  {
    hide Listed;
    hide Closed;
    hide Flying;
    hide Accounted;
    ListedSub(trace, l.subs, h, t);
    EnterClosed(trace, l, h, t);
    EnterFlying(trace, l, now, h, t);
    EnterAccounted(trace, l, h);
  }

  lemma EnterClosed(trace: seq<Event>, l: Ledger, h: Op, t: nat)
    requires Closed(trace, l)
    ensures |l.subs| == |l.ends| && Closed(trace + [Sub(h, t)], Enter(trace, l, h))
  {
    hide Matches;
    ClosedLater(trace, Sub(h, t), l);
  }

  lemma EnterFlying(trace: seq<Event>, l: Ledger, now: nat, h: Op, t: nat)
    requires Flying(trace, l, now) && h !in l.flight && t <= now
    ensures Flying(trace + [Sub(h, t)], Enter(trace, l, h), now)
  {}

  lemma EnterAccounted(trace: seq<Event>, l: Ledger, h: Op)
    requires Accounted(l) && |l.subs| == |l.ends| && h !in l.flight
    ensures Accounted(Enter(trace, l, h))
  {
    var l' := Enter(trace, l, h);
    forall i | 0 <= i < |l'.ends| && l'.ends[i].None? ensures exists g :: g in l'.flight && l'.flight[g] == i {
      if i < |l.ends| {
        var g :| g in l.flight && l.flight[g] == i;
        assert g in l'.flight && l'.flight[g] == i;
      } else {
        assert h in l'.flight && l'.flight[h] == i;
      }
    }
  }

  lemma EnterRecorded(trace: seq<Event>, l: Ledger, res: seq<Result>, priv: seq<nat>, h: Op, t: nat,
                      res': seq<Result>, priv': seq<nat>)
    requires Recorded(trace, l, res, priv) && h < |priv| && |l.subs| < |res|
    requires res' == res[|l.subs| := Result(t, res[|l.subs|].tscEnd)] && priv' == priv[h := |l.subs|]
    ensures Recorded(trace + [Sub(h, t)], Enter(trace, l, h), res', priv')
  {}

  function Leave(trace: seq<Event>, l: Ledger, h: Op): Ledger
    requires h in l.flight && l.flight[h] < |l.ends|
  {
    Ledger(l.subs, l.ends[l.flight[h] := Some(|trace|)], l.flight - {h})
  }

  // Operation h comes back from the device.
  lemma LeaveKeeps(trace: seq<Event>, l: Ledger, now: nat, h: Op)
    requires Kept(trace, l, now) && h in l.flight
    ensures l.flight[h] < |l.ends| && Kept(trace + [Comp(h, now)], Leave(trace, l, h), now)
  {
    hide Listed;
    hide Accounted;
    ListedComp(trace, l.subs, h, now);
    OpenMatches(trace, h, l.subs[l.flight[h]], now);
    hide Open;
    hide Matches;
    LeaveClosed(trace, l, now, h);
    LeaveFlying(trace, l, now, h);
    hide Closed;
    hide Flying;
    LeaveAccounted(trace, l, h);
  }

  lemma LeaveClosed(trace: seq<Event>, l: Ledger, now: nat, h: Op)
    requires Closed(trace, l) && h in l.flight && l.flight[h] < |l.ends|
    requires Matches(trace + [Comp(h, now)], l.subs[l.flight[h]], |trace|)
    ensures Closed(trace + [Comp(h, now)], Leave(trace, l, h))
  {
    hide Matches;
    ClosedLater(trace, Comp(h, now), l);
  }

  lemma LeaveFlying(trace: seq<Event>, l: Ledger, now: nat, h: Op)
    requires Flying(trace, l, now) && h in l.flight && l.flight[h] < |l.ends|
    ensures Flying(trace + [Comp(h, now)], Leave(trace, l, h), now)
  {
    hide Open;
    var l' := Leave(trace, l, h);
    forall g | g in l'.flight ensures Open(trace + [Comp(h, now)], g, l.subs[l'.flight[g]], now) {
      OpenLater(trace, Comp(h, now), g, l.subs[l.flight[g]], now);
    }
  }

  lemma OpenLater(trace: seq<Event>, e: Event, g: Op, p: nat, now: nat)
    requires Open(trace, g, p, now) && e.op != g
    ensures Open(trace + [e], g, p, now)
  {}

  lemma LeaveAccounted(trace: seq<Event>, l: Ledger, h: Op)
    requires Accounted(l) && h in l.flight && l.flight[h] < |l.ends|
    ensures Accounted(Leave(trace, l, h))
  {
    var l' := Leave(trace, l, h);
    forall i | 0 <= i < |l'.ends| && l'.ends[i].None? ensures exists g :: g in l'.flight && l'.flight[g] == i {
      var g :| g in l.flight && l.flight[g] == i;
      assert g != h && g in l'.flight && l'.flight[g] == i;
    }
  }

  lemma OpenMatches(trace: seq<Event>, h: Op, p: nat, now: nat)
    requires Open(trace, h, p, now)
    ensures Matches(trace + [Comp(h, now)], p, |trace|)
  {}

  lemma LeaveRecorded(trace: seq<Event>, l: Ledger, now: nat, res: seq<Result>, priv: seq<nat>, h: Op,
                      res': seq<Result>)
    requires Recorded(trace, l, res, priv) && h in l.flight && l.flight[h] < |l.ends|
    requires h < |priv| && priv[h] < |res| && res' == res[priv[h] := Result(res[priv[h]].tscStart, now)]
    ensures Recorded(trace + [Comp(h, now)], Leave(trace, l, h), res', priv)
  {}

  // store_timestamp for operation h.
  lemma StampOne(trace: seq<Event>, l: Ledger, now: nat, res: seq<Result>, priv: seq<nat>, h: Op)
    requires Kept(trace, l, now) && Recorded(trace, l, res, priv) && h in l.flight
    ensures h < |priv| && priv[h] < |res| && l.flight[h] < |l.ends|
    ensures Kept(trace + [Comp(h, now)], Leave(trace, l, h), now)
    ensures
      Recorded(trace + [Comp(h, now)], Leave(trace, l, h), res[priv[h] := Result(res[priv[h]].tscStart, now)], priv)
    ensures Leave(trace, l, h).flight == l.flight - {h} && |Leave(trace, l, h).subs| == |l.subs|
  {
    SlotInRange(trace, l, now, h);
    LeaveKeeps(trace, l, now, h);
    hide Kept;
    LeaveRecorded(trace, l, now, res, priv, h, res[priv[h] := Result(res[priv[h]].tscStart, now)]);
  }

  lemma NoSubs(trace: seq<Event>, hs: seq<Op>, t: nat)
    ensures trace + Subs(hs[..0], t) == trace
  {}

  // Time passes.
  lemma LaterKeeps(trace: seq<Event>, l: Ledger, now: nat, later: nat)
    requires Kept(trace, l, now) && now <= later
    ensures Kept(trace, l, later)
  {}

  // What a finished test has recorded: slot i holds the two ends of the i-th
  // submission.
  ghost predicate Paired(trace: seq<Event>, subs: seq<nat>, ends: seq<nat>, res: seq<Result>) {
    && |subs| == |ends| == |res| && Listed(trace, subs)
    && forall i :: 0 <= i < |res| ==>
      && Matches(trace, subs[i], ends[i])
      && res[i] == Result(trace[subs[i]].tsc, trace[ends[i]].tsc)
  }

  lemma AllPaired(trace: seq<Event>, l: Ledger, now: nat, res: seq<Result>, priv: seq<nat>) returns (ends: seq<nat>)
    requires Kept(trace, l, now) && Recorded(trace, l, res, priv) && l.flight == map[] && |l.subs| == |res|
    ensures Paired(trace, l.subs, ends, res)
  {
    assert forall i :: 0 <= i < |l.ends| ==> l.ends[i].Some?;
    ends := seq(|l.ends|, i requires 0 <= i < |l.ends| && l.ends[i].Some? => l.ends[i].value);
  }

  // A reading of the clock, and how much had gone through the device by then.
  datatype Reading = Reading(tsc: nat, at: nat)

  // What the device does in the course of a trace.
  function TrafficOf(trace: seq<Event>): (t: seq<Traffic>)
    ensures |t| == |trace|
  {
    seq(|trace|, i requires 0 <= i < |trace| =>
      match trace[i]
      case Sub(op, _) => Took(op)
      case Comp(op, _) => Gave(op))
  }

  // Event j of a trace that starts at position `base` of the traffic has the
  // time of reading r: a submission that of the last reading before it, a
  // completion that of the first reading after it.
  ghost predicate StampedBy(trace: seq<Event>, base: nat, readings: seq<Reading>, j: nat, r: nat)
    requires j < |trace| && r < |readings|
  {
    var at := base + j;
    && trace[j].tsc == readings[r].tsc
    && (trace[j].Sub? ==> readings[r].at <= at && (r + 1 < |readings| ==> at < readings[r + 1].at))
    && (trace[j].Comp? ==> at < readings[r].at && (0 < r ==> readings[r - 1].at <= at))
  }

  ghost predicate HasReading(trace: seq<Event>, base: nat, readings: seq<Reading>, j: nat)
    requires j < |trace|
  {
    exists r :: 0 <= r < |readings| && StampedBy(trace, base, readings, j, r)
  }

  ghost predicate Stamped(trace: seq<Event>, base: nat, readings: seq<Reading>) {
    && (forall r :: 0 <= r < |readings| ==> readings[r].at <= base + |trace|)
    && forall j :: 0 <= j < |trace| ==> HasReading(trace, base, readings, j)
  }

  lemma ReadAgain(trace: seq<Event>, base: nat, readings: seq<Reading>, tsc: nat)
    requires Stamped(trace, base, readings)
    ensures Stamped(trace, base, readings + [Reading(tsc, base + |trace|)])
  {
    var readings' := readings + [Reading(tsc, base + |trace|)];
    forall j | 0 <= j < |trace| ensures HasReading(trace, base, readings', j) {
      assert HasReading(trace, base, readings, j);
      var r :| 0 <= r < |readings| && StampedBy(trace, base, readings, j, r);
      assert StampedBy(trace, base, readings', j, r);
    }
  }

  // Submissions right behind a reading.
  lemma SubsStamped(trace: seq<Event>, base: nat, readings: seq<Reading>, hs: seq<Op>, tsc: nat)
    requires Stamped(trace, base, readings) && readings != []
    requires readings[|readings| - 1] == Reading(tsc, base + |trace|)
    ensures Stamped(trace + Subs(hs, tsc), base, readings)
  {
    var trace' := trace + Subs(hs, tsc);
    forall j | 0 <= j < |trace'| ensures HasReading(trace', base, readings, j) {
      if j < |trace| {
        assert HasReading(trace, base, readings, j);
        var r :| 0 <= r < |readings| && StampedBy(trace, base, readings, j, r);
        assert StampedBy(trace', base, readings, j, r);
      } else {
        assert StampedBy(trace', base, readings, j, |readings| - 1);
      }
    }
  }

  // Completions with a reading right behind them.
  lemma CompsStamped(trace: seq<Event>, base: nat, readings: seq<Reading>, hs: seq<Op>, tsc: nat)
    requires Stamped(trace, base, readings)
    ensures Stamped(trace + Comps(hs, tsc), base, readings + [Reading(tsc, base + |trace| + |hs|)])
  {
    var trace', readings' := trace + Comps(hs, tsc), readings + [Reading(tsc, base + |trace| + |hs|)];
    forall j | 0 <= j < |trace'| ensures HasReading(trace', base, readings', j) {
      if j < |trace| {
        assert HasReading(trace, base, readings, j);
        var r :| 0 <= r < |readings| && StampedBy(trace, base, readings, j, r);
        assert StampedBy(trace', base, readings', j, r);
      } else {
        assert StampedBy(trace', base, readings', j, |readings|);
      }
    }
  }

  lemma RoundStamped(trace: seq<Event>, base: nat, readings: seq<Reading>, hs: seq<Op>, t: nat, done: seq<Op>, u: nat)
    requires Stamped(trace, base, readings)
    ensures
      var readings' := readings + [Reading(t, base + |trace|)] + [Reading(u, base + |trace| + |hs| + |done|)];
      Stamped(trace + Subs(hs, t) + Comps(done, u), base, readings')
  {
    hide Stamped;
    hide Subs;
    hide Comps;
    ReadAgain(trace, base, readings, t);
    SubsStamped(trace, base, readings + [Reading(t, base + |trace|)], hs, t);
    CompsStamped(trace + Subs(hs, t), base, readings + [Reading(t, base + |trace|)], done, u);
  }

  lemma TrafficMore(trace: seq<Event>, hs: seq<Op>, t: nat, done: seq<Op>, u: nat)
    ensures TrafficOf(trace + Subs(hs, t) + Comps(done, u)) == TrafficOf(trace) + TookAll(hs) + GaveAll(done)
  {}

  // rte_rdtsc_precise: a clock that does not run backwards. It keeps its
  // readings, and how long the history of the device was at each.
  class Clock {
    const dev: Device
    var now: nat
    ghost var readings: seq<Reading>

    constructor (dev: Device)
      ensures this.dev == dev && readings == []
    {
      this.dev, readings := dev, [];
    }

    method Read() returns (t: nat)
      modifies this
      ensures t == now && old(now) <= now
      ensures readings == old(readings) + [Reading(t, |dev.log|)]
    {
      assert now <= now;
      t :| now <= t;
      now := t;
      readings := readings + [Reading(t, |dev.log|)];
    }
  }

  class LatencyTest {
    const pool: OpPool
    const dev: Device
    const clock: Clock
    const ops: array<Op>
    const opsProcessed: array<Op>
    const res: array<Result>
    // The result pointer every operation carries in its private area.
    const priv: array<nat>
    const totalOps: nat
    ghost const all: multiset<Op>

    var tscIdx: nat
    var enqdTot: nat
    var deqdTot: nat
    ghost var trace: seq<Event>
    ghost var ledger: Ledger
    // What the device and the clock had recorded when the test began.
    ghost var log0: seq<Traffic>
    ghost var read0: nat

    constructor (pool: OpPool, dev: Device, clock: Clock, totalOps: nat, maxBurstSize: nat, poolSz: nat)
      ensures this.pool == pool && this.dev == dev && this.clock == clock && this.totalOps == totalOps
      ensures ops.Length == opsProcessed.Length == maxBurstSize && res.Length == totalOps && priv.Length == poolSz
      ensures fresh(ops) && fresh(opsProcessed) && fresh(res) && fresh(priv) && all == multiset(pool.free)
      ensures Separate()
    {
      this.pool, this.dev, this.clock, this.totalOps := pool, dev, clock, totalOps;
      ops := new Op[maxBurstSize];
      opsProcessed := new Op[maxBurstSize];
      res := new Result[totalOps];
      priv := new nat[poolSz];
      all := multiset(pool.free);
    }

    ghost predicate Separate() {
      ops != opsProcessed && priv != ops && priv != opsProcessed && res as object != ops && res as object != opsProcessed
    }

    ghost predicate Consistent()
      reads this, res, priv, clock
    {
      && tscIdx == |ledger.subs|
      && Kept(trace, ledger, clock.now) && Recorded(trace, ledger, res[..], priv[..])
    }

    ghost predicate Valid()
      reads this, pool, dev, res, priv, clock
    {
      && Separate() && Distinct(all) && (forall h :: h in all ==> h < priv.Length)
      && multiset(pool.free) + multiset(dev.queue) == all
      && tscIdx == enqdTot == deqdTot + |dev.queue| <= totalOps == res.Length
      && (forall h :: h in ledger.flight <==> h in dev.queue)
      && Consistent()
    }

    // The trace is what went through the device since the test began, with the
    // times at which the clock was read.
    ghost predicate Witnessed()
      reads this, dev, clock
    {
      && clock.dev == dev && dev.log == log0 + TrafficOf(trace)
      && read0 <= |clock.readings| && Stamped(trace, |log0|, clock.readings[read0..])
    }

    lemma ValidIs()
      requires Valid()
      ensures Separate() && Distinct(all) && (forall h :: h in all ==> h < priv.Length)
      ensures multiset(pool.free) + multiset(dev.queue) == all && Consistent()
      ensures tscIdx == enqdTot == deqdTot + |dev.queue| <= totalOps == res.Length
      ensures forall h :: h in ledger.flight <==> h in dev.queue
    {}

    lemma ConsistentIs()
      requires Consistent()
      ensures tscIdx == |ledger.subs|
      ensures Kept(trace, ledger, clock.now) && Recorded(trace, ledger, res[..], priv[..])
    {}

    lemma StillConsistent(before: nat)
      requires tscIdx == |ledger.subs| && before <= clock.now
      requires Kept(trace, ledger, before) && Recorded(trace, ledger, res[..], priv[..])
      ensures Consistent()
    {
      hide Kept;
      hide Recorded;
      LaterKeeps(trace, ledger, before, clock.now);
    }

    lemma WitnessedIs()
      requires Witnessed()
      ensures clock.dev == dev && dev.log == log0 + TrafficOf(trace)
      ensures read0 <= |clock.readings| && Stamped(trace, |log0|, clock.readings[read0..])
    {}

    // The k operations the device took get the next result slots.
    method Register(k: nat, tscStart: nat)
      requires Separate() && Consistent() && k <= ops.Length && tscIdx + k <= res.Length && tscStart <= clock.now
      requires NoDuplicates(ops[..k]) && forall h :: h in ops[..k] ==> h < priv.Length && h !in ledger.flight
      modifies res, priv, this`tscIdx, this`trace, this`ledger
      ensures Consistent() && trace == old(trace) + Subs(ops[..k], tscStart)
      ensures tscIdx == old(tscIdx) + k
      ensures forall h :: h in ledger.flight <==> h in old(ledger.flight) || h in ops[..k]
    {
      hide Kept;
      hide Recorded;
      ghost var hs := ops[..k];
      for i := 0 to k
        invariant tscIdx == old(tscIdx) + i && Consistent()
        invariant trace == old(trace) + Subs(hs[..i], tscStart)
        invariant forall h :: h in ledger.flight <==> h in old(ledger.flight) || h in hs[..i]
      {
        var h := ops[i];
        assert h == hs[i] && h in hs;
        EnterKeeps(trace, ledger, clock.now, h, tscStart);
        ghost var res0, priv0 := res[..], priv[..];
        res[tscIdx] := res[tscIdx].(tscStart := tscStart);
        priv[h] := tscIdx;
        EnterRecorded(trace, ledger, res0, priv0, h, tscStart, res[..], priv[..]);
        ledger := Enter(trace, ledger, h);
        trace := trace + [Sub(h, tscStart)];
        tscIdx := tscIdx + 1;
        assert hs[..i + 1] == hs[..i] + [hs[i]];
        assert Subs(hs[..i + 1], tscStart) == Subs(hs[..i], tscStart) + [Sub(h, tscStart)];
      }
      assert hs[..k] == hs;
    }

    // store_timestamp for the operations handed back.
    method Stamp(k: nat)
      requires Separate() && Consistent() && k <= opsProcessed.Length
      requires NoDuplicates(opsProcessed[..k]) && forall h :: h in opsProcessed[..k] ==> h in ledger.flight
      modifies res, this`trace, this`ledger
      ensures Consistent() && trace == old(trace) + Comps(opsProcessed[..k], clock.now)
      ensures forall h :: h in ledger.flight <==> h in old(ledger.flight) && h !in opsProcessed[..k]
    {
      hide Kept;
      hide Recorded;
      hide Leave;
      ghost var hs := opsProcessed[..k];
      for i := 0 to k
        invariant Consistent()
        invariant trace == old(trace) + Comps(hs[..i], clock.now)
        invariant forall h :: h in ledger.flight <==> h in old(ledger.flight) && h !in hs[..i]
      {
        var h := opsProcessed[i];
        assert h == hs[i] && h in hs && h !in hs[..i];
        ghost var res0 := res[..];
        StampOne(trace, ledger, clock.now, res0, priv[..], h);
        res[priv[h]] := res[priv[h]].(tscEnd := clock.now);
        assert res[..] == res0[priv[h] := Result(res0[priv[h]].tscStart, clock.now)];
        ledger := Leave(trace, ledger, h);
        trace := trace + [Comp(h, clock.now)];
        assert hs[..i + 1] == hs[..i] + [hs[i]];
        assert Comps(hs[..i + 1], clock.now) == Comps(hs[..i], clock.now) + [Comp(h, clock.now)];
      }
      assert hs[..k] == hs;
    }

    ghost function Window(n: nat): (s: seq<Op>)
      requires n <= ops.Length
      reads ops
      ensures |s| == n
    {
      ops[..n]
    }

    ghost function Done(n: nat): (s: seq<Op>)
      requires n <= opsProcessed.Length
      reads opsProcessed
      ensures |s| == n
    {
      opsProcessed[..n]
    }

    // rte_mempool_get_bulk of a burst, stamping and submission of it.
    method Submit(testBurstSize: nat) returns (ok: bool, k: nat, burstSize: nat, tscStart: nat)
      requires Valid() && enqdTot < totalOps && 0 < testBurstSize <= ops.Length
      modifies pool, dev, clock, ops
      ensures !ok ==> |all| < totalOps && dev.queue == old(dev.queue)
      ensures ok ==> k <= burstSize <= ops.Length && enqdTot + burstSize <= totalOps
      ensures ok ==> dev.queue == old(dev.queue) + Window(burstSize)[..k]
      ensures ok ==> multiset(pool.free) + multiset(Window(burstSize)) + multiset(old(dev.queue)) == all
      ensures old(clock.now) <= clock.now && (ok ==> tscStart == clock.now)
      ensures ok ==> dev.log == old(dev.log) + TookAll(Window(burstSize)[..k])
      ensures ok && clock.dev == dev ==> clock.readings == old(clock.readings) + [Reading(tscStart, |old(dev.log)|)]
      ensures dev.stalls <= old(dev.stalls) && (ok && k == 0 ==> dev.stalls < old(dev.stalls))
      ensures ok ==> burstSize == Min(testBurstSize, totalOps - enqdTot)
      ensures ok ==> Went(old(dev.History()), dev.History(), [Enq(burstSize, k)])
    {
      hide Went;
      hide Device.History;
      hide LatencyTest.Consistent;
      hide LatencyTest.Separate;
      hide LatencyTest.Window;
      hide Distinct;
      hide TookAll;
      ValidIs();
      InAll();
      hide LatencyTest.Valid;
      burstSize := if enqdTot + testBurstSize <= totalOps then testBurstSize else totalOps - enqdTot;
      ok := pool.GetBulk(ops, 0, burstSize);
      if !ok {
        return ok, 0, burstSize, 0;
      }
      tscStart := clock.Read();
      k := dev.EnqueueBurst(ops, 0, burstSize);
      WindowIs(k, burstSize);
    }

    lemma InAll()
      requires Valid()
      ensures |all| == |pool.free| + |dev.queue|
    {}

    lemma WindowIs(k: nat, burstSize: nat)
      requires k <= burstSize <= ops.Length
      ensures ops[0..0 + k] == Window(burstSize)[..k] && ops[0..0 + burstSize] == Window(burstSize)
    {}

    // An enqueue of nothing, which flushes a software device.
    method Flush()
      modifies dev
      ensures dev.queue == old(dev.queue) && dev.log == old(dev.log) && dev.stalls <= old(dev.stalls)
      ensures Went(old(dev.History()), dev.History(), [Enq(0, 0)])
    {
      hide Went;
      hide Device.History;
      var k := dev.EnqueueBurst(ops, 0, 0);
      assert ops[0..0 + k] == [] && TookAll(ops[0..0 + k]) == [];
    }

    // A dequeue and the time stamp behind it.
    method Poll(testBurstSize: nat) returns (done: nat, tscEnd: nat)
      requires testBurstSize <= opsProcessed.Length
      modifies dev, clock, opsProcessed
      ensures done <= Min(testBurstSize, |old(dev.queue)|)
      ensures multiset(Done(done)) + multiset(dev.queue) == multiset(old(dev.queue))
      ensures dev.log == old(dev.log) + GaveAll(Done(done))
      ensures old(clock.now) <= tscEnd == clock.now
      ensures clock.dev == dev ==> clock.readings == old(clock.readings) + [Reading(tscEnd, |dev.log|)]
      ensures dev.stalls <= old(dev.stalls)
      ensures done == 0 < Min(testBurstSize, |old(dev.queue)|) ==> dev.stalls < old(dev.stalls)
      ensures Went(old(dev.History()), dev.History(), [Deq(testBurstSize, done)])
    {
      hide Went;
      hide Device.History;
      hide GaveAll;
      done := dev.DequeueBurst(opsProcessed, 0, testBurstSize);
      tscEnd := clock.Read();
      assert opsProcessed[0..0 + done] == Done(done);
    }

    // Operations the device did not take go straight back to the pool, those it
    // took get their result slots.
    method Enrol(k: nat, burstSize: nat, tscStart: nat, ghost queue0: seq<Op>)
      requires Separate() && Distinct(all) && (forall h :: h in all ==> h < priv.Length)
      requires k <= burstSize <= ops.Length && tscStart <= clock.now && tscIdx + k <= res.Length
      requires multiset(pool.free) + multiset(Window(burstSize)) + multiset(queue0) == all
      requires (forall h :: h in ledger.flight <==> h in queue0) && Consistent()
      modifies this`tscIdx, this`enqdTot, this`trace, this`ledger, pool, res, priv
      ensures Consistent() && tscIdx == old(tscIdx) + k && enqdTot == old(enqdTot) + k
      ensures pool.free == old(pool.free) + Window(burstSize)[k..]
      ensures forall h :: h in ledger.flight <==> h in queue0 + Window(burstSize)[..k]
      ensures trace == old(trace) + Subs(Window(burstSize)[..k], tscStart)
    {
      hide Kept;
      hide Recorded;
      ghost var window := ops[..burstSize];
      assert ops[..k] == window[..k] && ops[k..burstSize] == window[k..];
      TakenIsNew(all, pool.free, window, queue0, k);
      if k != burstSize {
        pool.PutBulk(ops, k, burstSize - k);
      }
      Register(k, tscStart);
      enqdTot := enqdTot + k;
    }

    // Those handed back are stamped and returned.
    method Finish(done: nat, ghost before: seq<Op>)
      requires Separate() && Distinct(all) && multiset(before) <= all && done <= opsProcessed.Length
      requires multiset(Done(done)) + multiset(dev.queue) == multiset(before)
      requires (forall h :: h in ledger.flight <==> h in before) && Consistent()
      modifies this`deqdTot, this`trace, this`ledger, pool, res
      ensures Consistent() && deqdTot == old(deqdTot) + done && done + |dev.queue| == |before|
      ensures pool.free == old(pool.free) + Done(done)
      ensures forall h :: h in ledger.flight <==> h in dev.queue
      ensures trace == old(trace) + Comps(Done(done), clock.now)
    {
      hide Kept;
      hide Recorded;
      DoneWasIn(all, before, opsProcessed[..done], dev.queue);
      Stamp(done);
      assert opsProcessed[0..done] == opsProcessed[..done];
      if 0 < done {
        pool.PutBulk(opsProcessed, 0, done);
        deqdTot := deqdTot + done;
      }
    }

    // Operations are handed back whether they were submitted before or just now.
    method Settle(k: nat, burstSize: nat, tscStart: nat, done: nat, ghost queue0: seq<Op>)
      requires Separate() && Distinct(all) && (forall h :: h in all ==> h < priv.Length)
      requires k <= burstSize <= ops.Length && done <= opsProcessed.Length && tscStart <= clock.now
      requires multiset(pool.free) + multiset(Window(burstSize)) + multiset(queue0) == all
      requires multiset(Done(done)) + multiset(dev.queue) == multiset(queue0 + Window(burstSize)[..k])
      requires tscIdx == enqdTot == deqdTot + |queue0| && enqdTot + burstSize <= totalOps == res.Length
      requires (forall h :: h in ledger.flight <==> h in queue0) && Consistent()
      modifies this`tscIdx, this`enqdTot, this`deqdTot, this`trace, this`ledger, pool, res, priv
      ensures Valid() && enqdTot == old(enqdTot) + k && deqdTot == old(deqdTot) + done
      ensures trace == old(trace) + Subs(Window(burstSize)[..k], tscStart) + Comps(Done(done), clock.now)
    {
      hide LatencyTest.Consistent;
      hide LatencyTest.Window;
      hide LatencyTest.Done;
      hide Distinct;
      ghost var window, free := Window(burstSize), pool.free;
      InsideAll(all, free, window, queue0, k);
      Returned(free, window, k, queue0, Done(done), dev.queue);
      Enrol(k, burstSize, tscStart, queue0);
      Finish(done, queue0 + window[..k]);
    }

    lemma NothingWitnessed()
      requires trace == [] && log0 == dev.log && read0 == |clock.readings| && clock.dev == dev
      ensures Witnessed()
    {
      assert clock.readings[read0..] == [] && log0 + TrafficOf([]) == log0;
    }

    // The device and the clock in the course of a round.
    lemma RoundWitnessed(log: seq<Traffic>, readings: seq<Reading>, past: seq<Event>, hs: seq<Op>, t: nat,
                         done: seq<Op>, u: nat)
      requires log == log0 + TrafficOf(past) && read0 <= |readings| && Stamped(past, |log0|, readings[read0..])
      requires clock.dev == dev && dev.log == log + TookAll(hs) + GaveAll(done)
      requires clock.readings == readings + [Reading(t, |log|)] + [Reading(u, |dev.log|)]
      requires trace == past + Subs(hs, t) + Comps(done, u)
      ensures Witnessed()
    {
      hide Stamped;
      TrafficMore(past, hs, t, done, u);
      hide TrafficOf;
      hide TookAll;
      hide GaveAll;
      RoundStamped(past, |log0|, readings[read0..], hs, t, done, u);
      hide Subs;
      hide Comps;
      assert clock.readings[read0..] == readings[read0..] + [Reading(t, |log|)] + [Reading(u, |dev.log|)];
    }

    // One round: submit, poll, settle. The time stamps are read before the
    // enqueue and after the dequeue.
    method Round(testBurstSize: nat) returns (ok: bool, ghost n: nat, ghost taken: nat, ghost given: nat)
      requires Valid() && Witnessed() && enqdTot < totalOps && 0 < testBurstSize <= ops.Length == opsProcessed.Length
      modifies this`tscIdx, this`enqdTot, this`deqdTot, this`trace, this`ledger
      modifies pool, dev, clock, ops, opsProcessed, res, priv
      ensures !ok ==> |all| < totalOps
      ensures ok ==> Valid() && Witnessed() && n == Min(testBurstSize, totalOps - old(enqdTot))
      ensures ok ==> enqdTot == old(enqdTot) + taken && deqdTot == old(deqdTot) + given
      ensures ok ==> Went(old(dev.History()), dev.History(), [Enq(n, taken)] + [Deq(testBurstSize, given)])
      ensures dev.stalls <= old(dev.stalls)
      ensures ok && enqdTot == old(enqdTot) ==> dev.stalls < old(dev.stalls)
    {
      hide Went;
      hide Device.History;
      hide Kept;
      hide Recorded;
      hide Distinct;
      hide Stamped;
      ValidIs();
      ConsistentIs();
      WitnessedIs();
      hide LatencyTest.Valid;
      hide LatencyTest.Consistent;
      hide LatencyTest.Witnessed;
      hide LatencyTest.Window;
      hide LatencyTest.Done;
      hide Subs;
      hide Comps;
      hide TrafficOf;
      hide TookAll;
      hide GaveAll;
      ghost var queue0 := dev.queue;
      var k, burstSize, tscStart;
      n, taken, given := 0, 0, 0;
      ok, k, burstSize, tscStart := Submit(testBurstSize);
      if !ok {
        return;
      }
      n, taken := burstSize, k;
      ghost var h := dev.History();
      ghost var hs := Window(burstSize)[..k];
      var done, tscEnd := Poll(testBurstSize);
      given := done;
      WentOn(old(dev.History()), h, dev.History(), [Enq(n, taken)], [Deq(testBurstSize, given)]);
      StillConsistent(old(clock.now));
      Settle(k, burstSize, tscStart, done, queue0);
      RoundWitnessed(old(dev.log), old(clock.readings), old(trace), hs, tscStart, Done(done), tscEnd);
    }

    lemma DrainWitnessed(log: seq<Traffic>, readings: seq<Reading>, past: seq<Event>, done: seq<Op>, u: nat)
      requires log == log0 + TrafficOf(past) && read0 <= |readings| && Stamped(past, |log0|, readings[read0..])
      requires clock.dev == dev && dev.log == log + GaveAll(done)
      requires clock.readings == readings + [Reading(u, |dev.log|)]
      requires trace == past + Comps(done, u)
      ensures Witnessed()
    {
      hide Stamped;
      TrafficMore(past, [], u, done, u);
      assert past + Subs([], u) == past && TrafficOf(past) + TookAll([]) == TrafficOf(past);
      hide TrafficOf;
      hide GaveAll;
      CompsStamped(past, |log0|, readings[read0..], done, u);
      hide Comps;
      assert clock.readings[read0..] == readings[read0..] + [Reading(u, |dev.log|)];
    }

    // A dequeue once everything is submitted.
    method Drain(testBurstSize: nat) returns (ghost given: nat)
      requires Valid() && Witnessed() && 0 < testBurstSize <= ops.Length == opsProcessed.Length
      modifies this`tscIdx, this`enqdTot, this`deqdTot, this`trace, this`ledger
      modifies pool, dev, clock, opsProcessed, res, priv
      ensures Valid() && Witnessed() && enqdTot == old(enqdTot) && deqdTot == old(deqdTot) + given
      ensures Went(old(dev.History()), dev.History(), [Enq(0, 0)] + [Deq(testBurstSize, given)])
      ensures dev.stalls <= old(dev.stalls)
      ensures deqdTot == old(deqdTot) && old(deqdTot) < old(enqdTot) ==> dev.stalls < old(dev.stalls)
    {
      hide Went;
      hide Device.History;
      hide Kept;
      hide Recorded;
      hide Distinct;
      hide Stamped;
      ValidIs();
      ConsistentIs();
      WitnessedIs();
      hide LatencyTest.Valid;
      hide LatencyTest.Consistent;
      hide LatencyTest.Witnessed;
      hide LatencyTest.Done;
      hide Subs;
      hide Comps;
      hide TrafficOf;
      hide TookAll;
      hide GaveAll;
      ghost var queue0 := dev.queue;
      Flush();
      ghost var h := dev.History();
      var done, tscEnd := Poll(testBurstSize);
      given := done;
      WentOn(old(dev.History()), h, dev.History(), [Enq(0, 0)], [Deq(testBurstSize, given)]);
      StillConsistent(old(clock.now));
      assert queue0 + Window(0)[..0] == queue0;
      assert multiset(Window(0)) == multiset{};
      Settle(0, 0, tscEnd, done, queue0);
      NoSubs(old(trace), Window(0), tscEnd);
      DrainWitnessed(old(dev.log), old(clock.readings), old(trace), Done(done), tscEnd);
    }

    // The statistics over the recorded latencies; tsc_min starts out as the
    // largest 64-bit number.
    method Statistics() returns (tscMax: nat, tscMin: nat, tscTot: nat)
      requires tscIdx <= res.Length && forall i :: 0 <= i < tscIdx ==> res[i].tscStart <= res[i].tscEnd
      ensures forall i :: 0 <= i < tscIdx ==> tscMin <= Latency(res[i]) <= tscMax
      ensures tscMax == 0 || exists i :: 0 <= i < tscIdx && Latency(res[i]) == tscMax
      ensures tscMin == U64_MAX || exists i :: 0 <= i < tscIdx && Latency(res[i]) == tscMin
      ensures tscTot == TotalLatency(res[..tscIdx])
    {
      tscMax, tscMin, tscTot := 0, U64_MAX, 0;
      assert res[..0] == [];
      for i := 0 to tscIdx
        invariant forall j :: 0 <= j < i ==> tscMin <= Latency(res[j]) <= tscMax
        invariant tscMax == 0 || exists j :: 0 <= j < i && Latency(res[j]) == tscMax
        invariant tscMin == U64_MAX || exists j :: 0 <= j < i && Latency(res[j]) == tscMin
        invariant tscTot == TotalLatency(res[..i])
      {
        var tscVal: nat := res[i].tscEnd - res[i].tscStart;
        assert tscVal == Latency(res[i]);
        tscMax, tscMin, tscTot := Max(tscVal, tscMax), Min(tscVal, tscMin), tscTot + tscVal;
        assert res[..i + 1] == res[..i] + [res[i]];
      }
    }

    lemma Flying()
      requires Valid()
      ensures deqdTot <= enqdTot <= totalOps
    {}

    // The counters at the head of the loop over burst sizes.
    method Begin()
      requires Separate() && Distinct(all) && (forall h :: h in all ==> h < priv.Length) && totalOps == res.Length
      requires multiset(pool.free) == all && dev.queue == [] && clock.dev == dev
      modifies this
      ensures Valid() && Witnessed() && enqdTot == deqdTot == 0
      ensures log0 == dev.log && read0 == |clock.readings|
    {
      hide Kept;
      hide Recorded;
      hide Distinct;
      hide LatencyTest.Separate;
      hide LatencyTest.Consistent;
      hide LatencyTest.Witnessed;
      tscIdx, enqdTot, deqdTot, trace, ledger := 0, 0, 0, [], Ledger([], [], map[]);
      log0, read0 := dev.log, |clock.readings|;
      NothingYet(clock.now, res[..], priv[..]);
      StillConsistent(clock.now);
      NothingWitnessed();
    }

    lemma Finished() returns (ends: seq<nat>)
      requires Valid() && Witnessed() && enqdTot == deqdTot == totalOps
      ensures tscIdx == totalOps && Paired(trace, ledger.subs, ends, res[..])
      ensures dev.log == log0 + TrafficOf(trace)
      ensures read0 <= |clock.readings| && Stamped(trace, |log0|, clock.readings[read0..])
      ensures forall i :: 0 <= i < totalOps ==> res[i].tscStart <= res[i].tscEnd
      ensures multiset(pool.free) == all && dev.queue == []
    {
      hide Kept;
      hide Recorded;
      hide Distinct;
      hide Paired;
      assert ledger.flight == map[];
      WitnessedIs();
      ConsistentIs();
      ends := AllPaired(trace, ledger, clock.now, res[..], priv[..]);
      NeverNegative(trace, ledger.subs, ends, res[..]);
    }

    // One burst size of cperf_latency_test_runner. A pool with as many
    // operations as the test never runs dry; when all are done, every slot
    // holds the two ends of one submission, as they went through the device, so
    // no latency is negative. `rs` is what the device was asked for.
    method Run(testBurstSize: nat) returns (ok: bool, ghost ends: seq<nat>, ghost rs: seq<Request>)
      requires Separate() && Distinct(all) && (forall h :: h in all ==> h < priv.Length) && totalOps == res.Length
      requires multiset(pool.free) == all && dev.queue == [] && clock.dev == dev
      requires 0 < testBurstSize <= ops.Length == opsProcessed.Length
      modifies this, pool, dev, clock, ops, opsProcessed, res, priv
      ensures !ok ==> |all| < totalOps
      ensures ok ==> tscIdx == totalOps && Paired(trace, ledger.subs, ends, res[..])
      ensures ok ==> dev.log == old(dev.log) + TrafficOf(trace)
      ensures ok ==> |old(clock.readings)| <= |clock.readings|
      ensures ok ==> Stamped(trace, |old(dev.log)|, clock.readings[|old(clock.readings)|..])
      ensures ok ==> forall i :: 0 <= i < totalOps ==> res[i].tscStart <= res[i].tscEnd
      ensures ok ==> multiset(pool.free) == all && dev.queue == []
      ensures ok ==> Went(old(dev.History()), dev.History(), rs) && Complete(rs, testBurstSize, totalOps)
    {
      hide Went;
      hide InStep;
      hide Complete;
      hide Device.History;
      hide Distinct;
      hide Stamped;
      hide TrafficOf;
      hide LatencyTest.Separate;
      hide LatencyTest.Consistent;
      hide LatencyTest.Witnessed;
      hide LatencyTest.Valid;
      hide Paired;
      ghost var start := dev.History();
      ends, rs := [], [];
      StartsInStep(start, testBurstSize, totalOps);
      Begin();
      while enqdTot < totalOps
        invariant enqdTot <= totalOps
        invariant InStep(start, dev.History(), rs, testBurstSize, totalOps, enqdTot, deqdTot)
        invariant Valid() && Witnessed() && log0 == old(dev.log) && read0 == |old(clock.readings)|
        decreases totalOps - enqdTot, dev.stalls
      {
        Flying();
        ghost var h, taken0, given0 := dev.History(), enqdTot, deqdTot;
        ghost var n, taken, given;
        ok, n, taken, given := Round(testBurstSize);
        if !ok {
          return;
        }
        RoundInStep(start, h, dev.History(), rs, testBurstSize, totalOps, taken0, given0, n, taken, given);
        rs := rs + ([Enq(n, taken)] + [Deq(testBurstSize, given)]);
        Flying();
      }
      Flying();
      while deqdTot < totalOps
        invariant Valid() && enqdTot == totalOps && deqdTot <= totalOps
        invariant InStep(start, dev.History(), rs, testBurstSize, totalOps, totalOps, deqdTot)
        invariant Witnessed() && log0 == old(dev.log) && read0 == |old(clock.readings)|
        decreases totalOps - deqdTot, dev.stalls
      {
        ghost var h, given0 := dev.History(), deqdTot;
        ghost var given := Drain(testBurstSize);
        RoundInStep(start, h, dev.History(), rs, testBurstSize, totalOps, totalOps, given0, 0, 0, given);
        rs := rs + ([Enq(0, 0)] + [Deq(testBurstSize, given)]);
        Flying();
      }
      ends := Finished();
      EndsComplete(start, dev.History(), rs, testBurstSize, totalOps);
      ok := true;
    }
  }

  const U64_MAX: nat := 0xFFFF_FFFF_FFFF_FFFF

  function Latency(r: Result): int {
    r.tscEnd - r.tscStart
  }

  function TotalLatency(res: seq<Result>): int {
    if res == [] then 0 else TotalLatency(res[..|res| - 1]) + Latency(res[|res| - 1])
  }

  lemma NothingYet(now: nat, res: seq<Result>, priv: seq<nat>)
    ensures Kept([], Ledger([], [], map[]), now) && Recorded([], Ledger([], [], map[]), res, priv)
  {}

  lemma NeverNegative(trace: seq<Event>, subs: seq<nat>, ends: seq<nat>, res: seq<Result>)
    requires Paired(trace, subs, ends, res)
    ensures forall i :: 0 <= i < |res| ==> res[i].tscStart <= res[i].tscEnd
  {}

  lemma InsideAll(all: multiset<Op>, free: seq<Op>, window: seq<Op>, queue: seq<Op>, k: nat)
    requires multiset(free) + multiset(window) + multiset(queue) == all && k <= |window|
    ensures multiset(queue + window[..k]) <= all
  {
    assert window == window[..k] + window[k..];
    assert multiset(window) == multiset(window[..k]) + multiset(window[k..]);
  }

  lemma TakenIsNew(all: multiset<Op>, free: seq<Op>, window: seq<Op>, queue: seq<Op>, k: nat)
    requires Distinct(all) && multiset(free) + multiset(window) + multiset(queue) == all && k <= |window|
    ensures NoDuplicates(window[..k])
    ensures forall h :: h in window[..k] ==> h in all && h !in queue
  {
    var hs, rest := window[..k], window[k..] + queue + free;
    assert window == hs + window[k..];
    assert multiset(window) == multiset(hs) + multiset(window[k..]);
    assert multiset(rest) == multiset(window[k..]) + multiset(queue) + multiset(free);
    CarryOver.Separate(all, hs, rest);
    assert forall h :: h in queue ==> h in window[k..] + queue;
  }

  // What comes back was in the device, once, and the rest stays there.
  lemma DoneWasIn(all: multiset<Op>, before: seq<Op>, done: seq<Op>, queue: seq<Op>)
    requires Distinct(all) && multiset(before) <= all && multiset(done) + multiset(queue) == multiset(before)
    ensures NoDuplicates(done) && |done| + |queue| == |before|
    ensures forall h :: h in done ==> h in before
    ensures forall h :: h in queue <==> h in before && h !in done
  {
    CarryOver.Separate(all, done, queue);
    assert |multiset(done)| + |multiset(queue)| == |multiset(before)|;
    forall h ensures h in before <==> h in done || h in queue {
      assert multiset(before)[h] == multiset(done)[h] + multiset(queue)[h];
    }
  }

  lemma Returned(free: seq<Op>, window: seq<Op>, k: nat, queue0: seq<Op>, done: seq<Op>, queue: seq<Op>)
    requires k <= |window| && multiset(done) + multiset(queue) == multiset(queue0 + window[..k])
    ensures multiset(free + window[k..] + done) + multiset(queue) == multiset(free) + multiset(window) + multiset(queue0)
  {
    assert window == window[..k] + window[k..];
    assert multiset(window) == multiset(window[..k]) + multiset(window[k..]);
    assert multiset(queue0 + window[..k]) == multiset(queue0) + multiset(window[..k]);
    assert multiset(free + window[k..] + done) == multiset(free) + multiset(window[k..]) + multiset(done);
    Exchange(multiset(free), multiset(window[k..]), multiset(window[..k]), multiset(done), multiset(queue),
             multiset(queue0));
  }

  lemma Exchange(f: multiset<Op>, x: multiset<Op>, t: multiset<Op>, d: multiset<Op>, q: multiset<Op>, q0: multiset<Op>)
    requires d + q == q0 + t
    ensures f + x + d + q == f + (t + x) + q0
  {
    assert f + x + d + q == f + x + (d + q) == f + x + (q0 + t);
  }

  lemma SlotInRange(trace: seq<Event>, l: Ledger, now: nat, h: Op)
    requires Kept(trace, l, now) && h in l.flight
    ensures l.flight[h] < |l.subs|
  {}
}
