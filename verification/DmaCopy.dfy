// The DMA benchmark: plain copies through a device ring, and the accounting of
// what is in flight.

module DmaCopy {
  import opened Common

  type Buf = seq<Byte>

  const MAX_DMA_CPL_NB: nat := 255
  const MAX_POLL: nat := 1000
  const UINT32: nat := 0x1_0000_0000

  // A virtual channel copying srcs[i] to dsts[i]. It may be out of space
  // whenever its ring is full; stalls bounds how often it is so otherwise, or
  // has nothing to report although there is something in flight. `peak` is the
  // most copies that ever waited to be submitted.
  class Channel {
    const srcs: seq<Buf>
    const dsts: array<Buf>
    const ringSize: nat
    var inFlight: seq<nat>
    var submitted: nat
    var stalls: nat
    ghost var peak: nat

    constructor (srcs: seq<Buf>, dsts: array<Buf>, ringSize: nat, stalls: nat)
      ensures this.srcs == srcs && this.dsts == dsts && this.ringSize == ringSize && this.stalls == stalls
      ensures inFlight == [] && submitted == peak == 0
    {
      this.srcs, this.dsts, this.ringSize, this.stalls := srcs, dsts, ringSize, stalls;
      inFlight, submitted, peak := [], 0, 0;
    }

    // The copies issued and not yet submitted.
    ghost function Waiting(): int
      reads this
    {
      |inFlight| - submitted
    }

    ghost predicate Valid()
      reads this
    {
      && 0 < ringSize && |srcs| <= dsts.Length && submitted <= |inFlight| <= ringSize
      && forall i :: 0 <= i < |inFlight| ==> inFlight[i] < |srcs|
    }

    // rte_dma_copy: false is -ENOSPC.
    method Copy(i: nat) returns (ok: bool)
      requires Valid() && i < |srcs|
      modifies this
      ensures Valid() && submitted == old(submitted) && stalls <= old(stalls)
      ensures inFlight == old(inFlight) + if ok then [i] else []
      ensures !ok && |inFlight| < ringSize ==> stalls < old(stalls)
      ensures peak == if ok then Max(old(peak), Waiting()) else old(peak)
    {
      var noSpace: bool := *;
      ok := !(ringSize <= |inFlight| || (0 < stalls && noSpace));
      if ok {
        inFlight := inFlight + [i];
        peak := Max(peak, |inFlight| - submitted);
      } else if |inFlight| < ringSize {
        stalls := stalls - 1;
      }
    }

    // rte_dma_submit
    method Submit()
      requires Valid()
      modifies this`submitted
      ensures Valid() && submitted == |inFlight|
    {
      submitted := |inFlight|;
    }

    // rte_dma_completed: the oldest submitted copies, which have been done.
    method Completed(most: nat) returns (n: nat)
      requires Valid()
      modifies this, dsts
      ensures Valid() && n <= Min(most, old(submitted)) && stalls <= old(stalls)
      ensures inFlight == old(inFlight)[n..] && submitted == old(submitted) - n && peak == old(peak)
      ensures forall i :: 0 <= i < |srcs| ==>
        dsts[i] == if i in old(inFlight)[..n] then srcs[i] else old(dsts[i])
      ensures n == 0 < Min(most, old(submitted)) ==> stalls < old(stalls)
    {
      var bound := Min(most, submitted);
      assert 0 <= bound <= bound;
      n :| 0 <= n <= bound && (stalls == 0 < bound ==> 0 < n);
      for k := 0 to n
        invariant inFlight == old(inFlight) && submitted == old(submitted) && stalls == old(stalls)
        invariant peak == old(peak)
        invariant forall i :: 0 <= i < |srcs| ==>
          dsts[i] == if i in inFlight[..k] then srcs[i] else old(dsts[i])
      {
        dsts[inFlight[k]] := srcs[inFlight[k]];
        assert inFlight[..k + 1] == inFlight[..k] + [inFlight[k]];
      }
      inFlight := inFlight[n..];
      submitted := submitted - n;
      if n == 0 < bound {
        stalls := stalls - 1;
      }
    }
  }

  // A 32-bit counter.
  function Wrap32(n: nat): nat {
    n % UINT32
  }

  lemma Wrap32Add(a: nat, b: nat)
    ensures Wrap32(Wrap32(a) + b) == Wrap32(a + b)
  {}

  // The copies of p passes over n buffers.
  function Passes(p: nat, n: nat): seq<nat> {
    if p == 0 then [] else Passes(p - 1, n) + Iota(0, n)
  }

  class Worker {
    const chan: Channel
    const nrBuf: nat
    const kickBatch: nat
    var asyncCnt: nat
    // worker_info->total_cpl, 32 bits wide.
    var totalCpl: nat
    // The copies issued, and how many of them are completed.
    ghost var issued: seq<nat>
    ghost var done: nat

    constructor (chan: Channel, nrBuf: nat, kickBatch: nat)
      ensures this.chan == chan && this.nrBuf == nrBuf && this.kickBatch == kickBatch
    {
      this.chan, this.nrBuf, this.kickBatch := chan, nrBuf, kickBatch;
    }

    // What is issued is done or in flight, in order; the counters say how much
    // of each, and whatever is done has its destination equal to its source.
    ghost predicate Valid()
      reads this, chan, chan.dsts
    {
      && chan.Valid() && |chan.srcs| == nrBuf && 0 < kickBatch
      && done <= |issued| && issued[done..] == chan.inFlight
      && asyncCnt == |chan.inFlight| && totalCpl == Wrap32(done)
      && forall k :: 0 <= k < done ==> issued[k] < nrBuf && chan.dsts[issued[k]] == chan.srcs[issued[k]]
    }

    // A poll took n completions off the front.
    method Reap(most: nat) returns (n: nat)
      requires chan.Valid() && asyncCnt == |chan.inFlight| && done <= |issued| && issued[done..] == chan.inFlight
      requires |chan.srcs| == nrBuf
      requires forall k :: 0 <= k < done ==> issued[k] < nrBuf && chan.dsts[issued[k]] == chan.srcs[issued[k]]
      modifies this`asyncCnt, this`done, chan, chan.dsts
      ensures chan.Valid() && n <= old(asyncCnt) && asyncCnt == old(asyncCnt) - n && done == old(done) + n
      ensures asyncCnt == |chan.inFlight| && done <= |issued| && issued[done..] == chan.inFlight
      ensures forall k :: 0 <= k < done ==> issued[k] < nrBuf && chan.dsts[issued[k]] == chan.srcs[issued[k]]
      ensures chan.stalls <= old(chan.stalls) && chan.peak == old(chan.peak)
      ensures chan.submitted == old(chan.submitted) - n
      ensures n == 0 < Min(most, old(chan.submitted)) ==> chan.stalls < old(chan.stalls)
    {
      ghost var before := chan.inFlight;
      n := chan.Completed(most);
      asyncCnt := asyncCnt - n;
      assert issued[done..][..n] == before[..n];
      forall k | 0 <= k < done + n ensures issued[k] < nrBuf && chan.dsts[issued[k]] == chan.srcs[issued[k]] {
        if done <= k {
          assert issued[k] == before[..n][k - done] && issued[k] == before[k - done];
        }
      }
      done := done + n;
    }

    // do_dma_submit_and_poll
    method SubmitAndPoll()
      requires Valid()
      modifies this`asyncCnt, this`totalCpl, this`done, chan, chan.dsts
      ensures Valid() && asyncCnt <= old(asyncCnt) <= |issued|
      ensures totalCpl == Wrap32(|issued| - asyncCnt)
      ensures chan.stalls <= old(chan.stalls) && chan.peak == old(chan.peak) && chan.Waiting() == 0
      ensures 0 < old(asyncCnt) == asyncCnt ==> chan.stalls < old(chan.stalls)
    {
      hide Wrap32;
      chan.Submit();
      var nrCpl := Reap(MAX_DMA_CPL_NB);
      Wrap32Add(done - nrCpl, nrCpl);
      totalCpl := Wrap32(totalCpl + nrCpl);
    }

    // The ring has taken copy i, which is not accounted for yet.
    ghost predicate Taken(i: nat)
      reads this, chan, chan.dsts
    {
      && chan.Valid() && |chan.srcs| == nrBuf && 0 < kickBatch
      && done <= |issued| && issued[done..] + [i] == chan.inFlight
      && asyncCnt + 1 == |chan.inFlight| && totalCpl == Wrap32(done)
      && forall k :: 0 <= k < done ==> issued[k] < nrBuf && chan.dsts[issued[k]] == chan.srcs[issued[k]]
    }

    method TryCopy(i: nat) returns (ok: bool)
      requires Valid() && i < nrBuf
      modifies chan
      ensures if ok then Taken(i) else Valid()
      ensures chan.stalls <= old(chan.stalls)
      ensures chan.Waiting() == old(chan.Waiting()) + if ok then 1 else 0
      ensures chan.peak == if ok then Max(old(chan.peak), chan.Waiting()) else old(chan.peak)
      ensures !ok && asyncCnt == 0 ==> chan.stalls < old(chan.stalls)
    {
      hide Wrap32;
      ok := chan.Copy(i);
    }

    // One copy, tried until the ring has space for it. Trying again submits
    // whatever was waiting.
    method Issue(i: nat)
      requires Valid() && i < nrBuf
      modifies this, chan, chan.dsts
      ensures Valid() && issued == old(issued) + [i] && 0 < asyncCnt
      ensures chan.stalls <= old(chan.stalls)
      ensures chan.Waiting() == 1 || (chan.Waiting() == old(chan.Waiting()) + 1 && asyncCnt == old(asyncCnt) + 1)
      ensures chan.peak == Max(old(chan.peak), chan.Waiting())
    {
      hide Worker.Valid;
      hide Worker.Taken;
      hide Channel.Waiting;
      WaitingPositive();
      var ok := TryCopy(i);
      ghost var again := false;
      while !ok
        invariant chan.stalls <= old(chan.stalls) && issued == old(issued)
        invariant !again ==> asyncCnt == old(asyncCnt)
        invariant chan.Waiting() == (if again then 0 else old(chan.Waiting())) + if ok then 1 else 0
        invariant chan.peak == if ok then Max(old(chan.peak), chan.Waiting()) else old(chan.peak)
        invariant if ok then Taken(i) else Valid()
        decreases chan.stalls, asyncCnt, !ok
      {
        SubmitAndPoll();
        again := true;
        ok := TryCopy(i);
      }
      Account(i);
    }

    lemma WaitingPositive()
      requires Valid()
      ensures 0 <= chan.Waiting() <= |chan.inFlight| == asyncCnt <= chan.ringSize && 0 < kickBatch
    {}

    method Account(i: nat)
      requires Taken(i) && i < nrBuf
      modifies this`issued, this`asyncCnt
      ensures Valid() && issued == old(issued) + [i] && asyncCnt == old(asyncCnt) + 1
    {
      hide Wrap32;
      issued := issued + [i];
      assert issued[done..] == chan.inFlight;
      asyncCnt := asyncCnt + 1;
    }

    lemma Starts()
      requires chan.Valid() && |chan.srcs| == nrBuf && 0 < kickBatch && chan.inFlight == []
      requires asyncCnt == totalCpl == done == 0 && issued == []
      ensures Valid()
    {}

    // A copy, and the doorbell when a batch is full.
    method IssueAndKick(i: nat)
      requires Valid() && i < nrBuf && Kicked(chan.Waiting(), asyncCnt, kickBatch)
      modifies this, chan, chan.dsts
      ensures Valid() && issued == old(issued) + [i] && Kicked(chan.Waiting(), asyncCnt, kickBatch)
      ensures chan.stalls <= old(chan.stalls) && chan.peak <= Max(old(chan.peak), kickBatch)
    {
      ghost var waiting, count := chan.Waiting(), asyncCnt;
      WaitingPositive();
      hide Worker.Valid;
      hide Channel.Waiting;
      hide Kicked;
      Issue(i);
      KicksInTime(waiting, count, chan.Waiting(), asyncCnt, kickBatch);
      if asyncCnt % kickBatch == 0 {
        SubmitAndPoll();
        NoneWaiting(asyncCnt, kickBatch);
      }
    }

    // do_dma_plain_mem_copy, stopped after `passes` passes over the buffers.
    // Every pass issues every copy once, in order; total_cpl and async_cnt
    // account for all of them while it runs; no more than kick_batch copies ever
    // wait to be submitted; and 0 is returned exactly when all are done, every
    // destination then being equal to its source, which is the case if the ring
    // and the stalls of the channel are within the number of polls.
    method PlainMemCopy(passes: nat) returns (ret: int)
      requires chan.Valid() && |chan.srcs| == nrBuf && 0 < kickBatch && 0 < passes
      requires chan.inFlight == []
      modifies this, chan, chan.dsts
      ensures issued == Passes(passes, nrBuf)
      ensures ret == 0 || ret == -1
      ensures ret == 0 <==> chan.inFlight == []
      ensures ret == 0 ==> forall i :: 0 <= i < nrBuf ==> chan.dsts[i] == chan.srcs[i]
      ensures chan.ringSize + old(chan.stalls) <= MAX_POLL ==> ret == 0
      ensures chan.peak <= Max(old(chan.peak), kickBatch)
    {
      hide Passes;
      hide Iota;
      asyncCnt, totalCpl, issued, done := 0, 0, [], 0;
      Starts();
      KicksNothing(kickBatch);
      hide Worker.Valid;
      hide Channel.Valid;
      hide Channel.Waiting;
      hide Kicked;
      NoPasses(nrBuf);
      for pass := 0 to passes
        invariant Valid() && issued == Passes(pass, nrBuf)
        invariant chan.stalls <= old(chan.stalls) && chan.peak <= Max(old(chan.peak), kickBatch)
        invariant Kicked(chan.Waiting(), asyncCnt, kickBatch)
      {
        NextPass(pass, nrBuf);
        for i := 0 to nrBuf
          invariant Valid() && issued == Passes(pass, nrBuf) + Iota(0, i)
          invariant chan.stalls <= old(chan.stalls) && chan.peak <= Max(old(chan.peak), kickBatch)
          invariant Kicked(chan.Waiting(), asyncCnt, kickBatch)
        {
          IssueAndKick(i);
          NextCopy(Passes(pass, nrBuf), i);
        }
      }
      WaitingPositive();
      ret := SubmitAndWaitCpl();
      if ret == 0 {
        forall i | 0 <= i < nrBuf ensures chan.dsts[i] == chan.srcs[i] {
          PassHas(passes, nrBuf, i);
          var k :| 0 <= k < |issued| && issued[k] == i;
        }
      }
    }

    // do_dma_submit_and_wait_cpl: the subtraction never wraps, and what is left
    // after the last poll is what is still in flight. Every poll completes
    // something or uses up a stall, so enough of them complete everything.
    method SubmitAndWaitCpl() returns (ret: int)
      requires Valid()
      modifies this`asyncCnt, this`done, chan, chan.dsts
      ensures ret == 0 || ret == -1
      ensures ret == 0 <==> chan.inFlight == []
      ensures ret == 0 ==> done == |issued|
      ensures old(|chan.inFlight| + chan.stalls) <= MAX_POLL ==> ret == 0
      ensures chan.peak == old(chan.peak)
      ensures forall k :: 0 <= k < done <= |issued| ==> issued[k] < nrBuf && chan.dsts[issued[k]] == chan.srcs[issued[k]]
    {
      chan.Submit();
      var pollCnt := 0;
      while 0 < asyncCnt && pollCnt < MAX_POLL
        invariant chan.Valid() && asyncCnt == |chan.inFlight| && done <= |issued| && issued[done..] == chan.inFlight
        invariant forall k :: 0 <= k < done ==> issued[k] < nrBuf && chan.dsts[issued[k]] == chan.srcs[issued[k]]
        invariant chan.submitted == |chan.inFlight| && chan.peak == old(chan.peak)
        invariant |chan.inFlight| + chan.stalls + pollCnt <= old(|chan.inFlight| + chan.stalls)
        decreases MAX_POLL - pollCnt
      {
        pollCnt := pollCnt + 1;
        var nrCpl := Reap(MAX_DMA_CPL_NB);
      }
      ret := if asyncCnt == 0 then 0 else -1;
    }
  }

  // Fewer copies wait to be submitted than make up the rest of a batch.
  ghost predicate Kicked(waiting: int, count: nat, kickBatch: nat)
    requires 0 < kickBatch
  {
    0 <= waiting <= count % kickBatch
  }

  lemma KicksNothing(kickBatch: nat)
    requires 0 < kickBatch
    ensures Kicked(0, 0, kickBatch)
  {
    DivUnique(0, kickBatch, 0, 0);
  }

  lemma NoneWaiting(count: nat, kickBatch: nat)
    requires 0 < kickBatch
    ensures Kicked(0, count, kickBatch)
  {}

  lemma KicksInTime(waiting: int, count: nat, waiting': int, count': nat, kickBatch: nat)
    requires 0 < kickBatch && Kicked(waiting, count, kickBatch)
    requires waiting' == 1 || (waiting' == waiting + 1 && count' == count + 1)
    ensures waiting' <= kickBatch && (count' % kickBatch != 0 ==> Kicked(waiting', count', kickBatch))
  {
    DivNext(count, kickBatch);
    assert 0 <= count % kickBatch < kickBatch && 0 <= count' % kickBatch;
  }

  lemma NoPasses(n: nat)
    ensures Passes(0, n) == []
  {}

  lemma NextPass(p: nat, n: nat)
    ensures Passes(p, n) + Iota(0, 0) == Passes(p, n) && Passes(p, n) + Iota(0, n) == Passes(p + 1, n)
  {}

  lemma NextCopy(s: seq<nat>, i: nat)
    ensures s + Iota(0, i) + [i] == s + Iota(0, i + 1)
  {
    IotaSplit(0, i + 1, i);
    assert Iota(i, 1) == [i];
  }

  lemma PassHas(p: nat, n: nat, i: nat)
    requires 0 < p && i < n
    ensures i in Passes(p, n)
  {
    IotaAt(0, n, i);
    assert i in Iota(0, n);
  }
}
