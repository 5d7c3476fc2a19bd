// What the operations of a compression test carry through the burst protocol:
// source and destination buffers, and the data the device leaves behind.

module CompressRun {
  import opened Common
  import opened Burst
  import opened Mbuf
  import opened CarryOver

  datatype Xform = Compress | Decompress

  datatype Status = NotProcessed | Success | OutOfSpace

  // The fields of an operation that the tests read or write. Buffers are named
  // by their index in the source and destination arrays.
  datatype CompOp = CompOp(src: nat, dst: nat, srcLen: nat, xform: Xform, status: Status, produced: nat)

  type Codec = (Xform, seq<Byte>) -> seq<Byte>

  ghost predicate Runnable(op: CompOp, inputs: seq<Mbuf>, outputs: seq<Mbuf>) {
    && op.src < |inputs| && op.dst < |outputs|
    && op.srcLen <= |Flat(inputs[op.src].segs)|
  }

  // What the device does with one operation: the first srcLen bytes of the
  // source chain are transformed; the result goes to the destination chain if
  // it fits there.
  function Execute(codec: Codec, op: CompOp, src: Mbuf, dst: Mbuf): (r: (CompOp, Mbuf))
    requires op.srcLen <= |Flat(src.segs)|
    ensures r.0.dst == op.dst
  {
    var result := codec(op.xform, Flat(src.segs)[..op.srcLen]);
    if |result| <= Capacity(dst.segs) then
      (op.(status := Success, produced := |result|), dst.(segs := Fill(dst.segs, result)))
    else
      (op.(status := OutOfSpace), dst)
  }

  // The destination of every operation in memory.
  function Dsts(mem: seq<CompOp>): (d: seq<nat>)
    ensures |d| == |mem| && forall h :: 0 <= h < |mem| ==> d[h] == mem[h].dst
  {
    seq(|mem|, h requires 0 <= h < |mem| => mem[h].dst)
  }

  // What stays fixed over an iteration: source chains, the number of segments
  // of every destination chain and their size, and whether this is the last
  // iteration, the one that checks statuses and settles the output lengths.
  datatype Params = Params(c: Config, xform: Xform, codec: Codec, room: nat, ins: seq<Mbuf>, nbSegs: seq<nat>,
                           settle: bool)

  datatype Run = Run(s: State, mem: seq<CompOp>, outs: seq<Mbuf>)

  ghost predicate ChainsOk(p: Params, outs: seq<Mbuf>) {
    && |outs| == |p.nbSegs|
    && forall b :: 0 <= b < |outs| ==> 0 < |outs[b].segs| == p.nbSegs[b] && Uniform(outs[b].segs, p.room)
  }

  ghost predicate Sized(p: Params, r: Run) {
    && 0 < p.room
    && p.c.total <= |p.ins| && p.c.total <= |p.nbSegs|
    && (forall b :: 0 <= b < |p.ins| ==> Readable(p.ins[b]))
    && (forall h :: h in p.c.all ==> h < |r.mem|)
    && r.s.bufs == Dsts(r.mem)
    && ChainsOk(p, r.outs)
  }

  // A chain cleared for writing.
  ghost predicate ClearChain(room: nat, m: Mbuf) {
    Full(m.segs) && m.pktLen == room * |m.segs|
  }

  ghost predicate Cleared(p: Params, outs: seq<Mbuf>, b: nat) {
    b < |outs| && ClearChain(p.room, outs[b])
  }

  // An operation set up and not yet run.
  ghost predicate ArmedOp(p: Params, op: CompOp) {
    op.src == op.dst < |p.ins| && op.srcLen == p.ins[op.src].pktLen && op.xform == p.xform
  }

  ghost predicate Armed(p: Params, mem: seq<CompOp>, h: Op) {
    h < |mem| && ArmedOp(p, mem[h])
  }

  ghost predicate AllArmed(p: Params, mem: seq<CompOp>, hs: seq<Op>) {
    forall i :: 0 <= i < |hs| ==> Armed(p, mem, hs[i])
  }

  ghost predicate AllCleared(p: Params, r: Run) {
    forall b :: 0 <= b < r.s.enqueued + |r.s.held| && b !in r.s.completed && b !in Bufs(r.s.bufs, r.s.deq) ==>
      Cleared(p, r.outs, b)
  }

  // What the device makes of buffer b, and whether its destination can take it.
  ghost function Result(p: Params, b: nat): seq<Byte> {
    if b < |p.ins| && Readable(p.ins[b]) then p.codec(p.xform, Payload(p.ins[b])) else []
  }

  ghost predicate Fits(p: Params, b: nat) {
    b < |p.nbSegs| && |Result(p, b)| <= p.room * p.nbSegs[b]
  }

  // An operation the device has handed back: successful exactly when the
  // result fits, and then the result is at the front of a cleared chain.
  ghost predicate Ran(p: Params, mem: seq<CompOp>, outs: seq<Mbuf>, h: Op) {
    && h < |mem| && mem[h].dst < |outs|
    && var b := mem[h].dst;
    && mem[h].status == (if Fits(p, b) then Success else OutOfSpace)
    && (Fits(p, b) ==>
         && Cleared(p, outs, b)
         && mem[h].produced == |Result(p, b)| <= |Flat(outs[b].segs)|
         && Flat(outs[b].segs)[..mem[h].produced] == Result(p, b))
  }

  ghost predicate AllRan(p: Params, r: Run) {
    forall i :: 0 <= i < |r.s.deq| ==> Ran(p, r.mem, r.outs, r.s.deq[i])
  }

  ghost predicate AllSuccess(mem: seq<CompOp>, hs: seq<Op>) {
    forall i :: 0 <= i < |hs| ==> hs[i] < |mem| && mem[hs[i]].status == Success
  }

  // A finished chain: its packet is the result.
  ghost predicate Settled(p: Params, outs: seq<Mbuf>, b: nat) {
    b < |outs| && Fits(p, b) && Readable(outs[b]) && Payload(outs[b]) == Result(p, b)
  }

  ghost predicate AllSettled(p: Params, r: Run) {
    p.settle ==> forall i :: 0 <= i < |r.s.completed| ==> Settled(p, r.outs, r.s.completed[i])
  }

  ghost predicate RunInv(p: Params, r: Run) {
    && Invariant(p.c, r.s) && Sized(p, r)
    && AllArmed(p, r.mem, r.s.held) && AllArmed(p, r.mem, r.s.queue)
    && AllCleared(p, r) && AllRan(p, r) && AllSettled(p, r)
  }

  // Nothing about the sizes depends on which iteration it is or on what has
  // been run in it.
  lemma SizedStays(p: Params, r: Run, p': Params, r': Run)
    requires Sized(p, r) && p' == p.(settle := p'.settle)
    requires r'.mem == r.mem && r'.outs == r.outs && r'.s.bufs == r.s.bufs
    ensures Sized(p', r')
  {}

  // The head of an iteration.
  lemma RunStart(p: Params, r: Run)
    requires Sound(p.c) && multiset(r.s.free) == p.c.all && Sized(p, r)
    requires r.s.held == [] && r.s.queue == [] && r.s.deq == [] && r.s.completed == []
    requires r.s.remaining == p.c.total && r.s.enqueued == r.s.dequeued == r.s.outstanding == 0
    ensures RunInv(p, r)
  {
    StartHolds(p.c, r.s);
  }

  // `added` operations set up for the buffers from `base` on, nothing else touched.
  ghost predicate SetUp(p: Params, added: seq<Op>, base: nat,
                        mem: seq<CompOp>, outs: seq<Mbuf>, mem': seq<CompOp>, outs': seq<Mbuf>)
  {
    && |mem'| == |mem| && ChainsOk(p, outs')
    && (forall i :: 0 <= i < |added| ==> Armed(p, mem', added[i]) && mem'[added[i]].dst == base + i)
    && (forall b :: base <= b < base + |added| ==> Cleared(p, outs', b))
    && (forall h :: 0 <= h < |mem| && h !in added ==> mem'[h] == mem[h])
    && (forall b :: 0 <= b < |outs| && b < |outs'| && b < base ==> outs'[b] == outs[b])
  }

  lemma NothingSetUp(p: Params, added: seq<Op>, base: nat, mem: seq<CompOp>, outs: seq<Mbuf>)
    requires added == [] && ChainsOk(p, outs)
    ensures SetUp(p, added, base, mem, outs, mem, outs)
  {}

  // One more operation is set up, for the next buffer.
  lemma SetUpNext(p: Params, added: seq<Op>, k: nat, base: nat, mem0: seq<CompOp>, outs0: seq<Mbuf>,
                  mem: seq<CompOp>, outs: seq<Mbuf>, mem': seq<CompOp>, outs': seq<Mbuf>)
    requires k < |added| && NoDuplicates(added) && SetUp(p, added[..k], base, mem0, outs0, mem, outs)
    requires |mem'| == |mem| && |outs'| == |outs| && ChainsOk(p, outs') && base + k < |outs|
    requires Armed(p, mem', added[k]) && mem'[added[k]].dst == base + k && Cleared(p, outs', base + k)
    requires mem' == mem[added[k] := mem'[added[k]]] && outs' == outs[base + k := outs'[base + k]]
    ensures SetUp(p, added[..k + 1], base, mem0, outs0, mem', outs')
  {
    hide ArmedOp;
    hide ClearChain;
    hide ChainsOk;
    var hs := added[..k + 1];
    forall i | 0 <= i < |hs| ensures Armed(p, mem', hs[i]) && mem'[hs[i]].dst == base + i {
      if i < k {
        assert hs[i] == added[..k][i] && hs[i] != added[k];
        assert Armed(p, mem, added[..k][i]);
      }
    }
    forall b | base <= b < base + |hs| ensures Cleared(p, outs', b) {
      if b < base + k {
        assert Cleared(p, outs, b);
      }
    }
    forall h | 0 <= h < |mem'| && h !in hs ensures mem'[h] == mem0[h] {
      assert hs[k] == added[k];
      assert forall g :: g in added[..k] ==> g in hs;
    }
  }

  // What topping up relies on: the subtraction num_ops - ops_unused does not
  // wrap, the pool has the operations asked for, and there are buffers for them.
  lemma RunRefillPossible(p: Params, r: Run)
    requires RunInv(p, r) && r.s.deq == []
    ensures |r.s.held| <= Min(r.s.remaining, p.c.burst) && 0 < p.c.burst
    ensures Min(r.s.remaining, p.c.burst) - |r.s.held| <= |r.s.free|
    ensures r.s.enqueued + Min(r.s.remaining, p.c.burst) <= p.c.total
    ensures p.c.total <= |p.ins| && p.c.total <= |r.outs| && ChainsOk(p, r.outs)
  {
    RefillPossible(p.c, r.s);
  }

  lemma RunFresh(p: Params, r: Run, free: seq<Op>, added: seq<Op>)
    requires RunInv(p, r) && multiset(free) + multiset(added) == multiset(r.s.free)
    ensures NoDuplicates(added) && forall h :: h in added ==> h < |r.mem|
  {
    hide Invariant;
    FreshIsSeparate(p.c, r.s, free, added);
  }

  lemma RunRefillKeeps(p: Params, r: Run, r': Run, added: seq<Op>)
    requires RunInv(p, r) && r.s.deq == []
    requires multiset(r'.s.free) + multiset(added) == multiset(r.s.free)
    requires r'.s == r.s.(free := r'.s.free, bufs := Dsts(r'.mem), held := r.s.held + added,
                          outstanding := r.s.outstanding + |added|)
    requires |r'.s.held| == Min(r.s.remaining, p.c.burst)
    requires SetUp(p, added, r.s.enqueued + |r.s.held|, r.mem, r.outs, r'.mem, r'.outs)
    ensures RunInv(p, r')
  {
    hide Invariant;
    hide Bufs;
    hide Iota;
    var base := r.s.enqueued + |r.s.held|;
    FreshIsSeparate(p.c, r.s, r'.s.free, added);
    BufferBounds(p.c, r.s);
    BufsAreIota(r'.s.bufs, added, base);
    RefillKeeps(p.c, r.s, r'.s, added);
  }

  lemma RunSubmitKeeps(p: Params, r: Run, k: nat)
    requires RunInv(p, r) && r.s.deq == [] && k <= |r.s.held|
    ensures k <= r.s.remaining && RunInv(p, r.(s := Submitted(r.s, k)))
  {
    hide Invariant;
    hide Bufs;
    hide Iota;
    SubmitKeeps(p.c, r.s, k);
    assert AllArmed(p, r.mem, r.s.held[k..]);
    assert AllArmed(p, r.mem, r.s.queue + r.s.held[..k]);
  }

  // None of these operations is for buffer b.
  ghost predicate Elsewhere(mem: seq<CompOp>, hs: seq<Op>, b: nat) {
    forall i :: 0 <= i < |hs| ==> Buf(Dsts(mem), hs[i]) != b
  }

  // What the device is handed are the next buffers, in order.
  lemma RunHanded(p: Params, r: Run, k: nat)
    requires RunInv(p, r) && k <= |r.s.held|
    ensures Iota(0, r.s.enqueued) + Bufs(r.s.bufs, r.s.held[..k]) == Iota(0, r.s.enqueued + k)
  {
    hide Bufs;
    hide Iota;
    HeldInOrder(r.s, k);
    IotaSplit(0, r.s.enqueued + k, r.s.enqueued);
  }

  // The operations of `done` were executed, nothing else was touched.
  ghost predicate Executed(p: Params, done: seq<Op>,
                           mem: seq<CompOp>, outs: seq<Mbuf>, mem': seq<CompOp>, outs': seq<Mbuf>)
  {
    && |mem'| == |mem| && |outs'| == |outs|
    && (forall i :: 0 <= i < |done| ==>
         && done[i] < |mem|
         && var op := mem[done[i]];
         && Runnable(op, p.ins, outs)
         && (mem'[done[i]], outs'[op.dst]) == Execute(p.codec, op, p.ins[op.src], outs[op.dst]))
    && (forall h :: 0 <= h < |mem| && h !in done ==> mem'[h] == mem[h])
    && (forall b :: 0 <= b < |outs| && Elsewhere(mem, done, b) ==>
         outs'[b] == outs[b])
  }

  // Executing a set-up operation on a cleared chain.
  lemma ExecuteRuns(p: Params, mem: seq<CompOp>, outs: seq<Mbuf>, mem': seq<CompOp>, outs': seq<Mbuf>, h: Op)
    requires 0 < p.room && ChainsOk(p, outs)
    requires Armed(p, mem, h) && Cleared(p, outs, mem[h].dst) && Readable(p.ins[mem[h].src])
    requires |mem'| == |mem| && |outs'| == |outs|
    requires (mem'[h], outs'[mem[h].dst]) == Execute(p.codec, mem[h], p.ins[mem[h].src], outs[mem[h].dst])
    ensures Ran(p, mem', outs', h)
  {
    var b := mem[h].dst;
    UniformCapacity(outs[b].segs, p.room);
    FullFlatLength(outs[b].segs);
    if Fits(p, b) {
      FillFlat(outs[b].segs, Result(p, b));
    }
  }

  lemma RunQueueBound(p: Params, r: Run)
    requires RunInv(p, r)
    ensures |r.s.queue| <= p.c.total
  {}

  // What dequeueing relies on: the operations handed back are distinct, for
  // distinct buffers, and ready to run.
  lemma RunDequeued(p: Params, r: Run, done: seq<Op>, queue: seq<Op>)
    requires RunInv(p, r) && r.s.deq == [] && multiset(done) + multiset(queue) == multiset(r.s.queue)
    ensures NoDuplicates(done) && NoDuplicates(Bufs(Dsts(r.mem), done))
    ensures forall h :: h in done ==> h < |r.mem| && Runnable(r.mem[h], p.ins, r.outs)
  {
    hide Flat;
    hide Dsts;
    hide Bufs;
    var c := p.c.(inOrder := false);
    var s' := r.s.(queue := queue, deq := done, dequeued := r.s.dequeued + |done|);
    CollectKeeps(c, r.s, s', done);
    DequeuedIsSeparate(c, s');
    BufferBounds(p.c, r.s);
    hide Invariant;
    forall h | h in done ensures h < |r.mem| && Runnable(r.mem[h], p.ins, r.outs) {
      assert h in multiset(done);
      assert h in multiset(r.s.queue);
      var i :| 0 <= i < |r.s.queue| && r.s.queue[i] == h;
      QueuedRunnable(p, r, i);
    }
  }

  lemma QueuedRunnable(p: Params, r: Run, i: nat)
    requires Sized(p, r) && AllArmed(p, r.mem, r.s.queue) && i < |r.s.queue|
    requires Buf(r.s.bufs, r.s.queue[i]) < r.s.enqueued <= p.c.total
    ensures r.s.queue[i] < |r.mem| && Runnable(r.mem[r.s.queue[i]], p.ins, r.outs)
  {
    assert Armed(p, r.mem, r.s.queue[i]);
  }

  lemma ExecutedNone(p: Params, mem: seq<CompOp>, outs: seq<Mbuf>)
    ensures Executed(p, [], mem, outs, mem, outs)
  {}

  // The first i operations of `done` have run, the next one is about to.
  ghost predicate Executing(p: Params, done: seq<Op>, i: nat,
                            mem0: seq<CompOp>, outs0: seq<Mbuf>, mem: seq<CompOp>, outs: seq<Mbuf>)
  {
    && i < |done| && NoDuplicates(done) && NoDuplicates(Bufs(Dsts(mem0), done))
    && (forall h :: h in done ==> h < |mem0| && Runnable(mem0[h], p.ins, outs0))
    && Executed(p, done[..i], mem0, outs0, mem, outs)
  }

  // The others are as they were.
  lemma ExecutedRest(p: Params, done: seq<Op>, i: nat,
                     mem0: seq<CompOp>, outs0: seq<Mbuf>, mem: seq<CompOp>, outs: seq<Mbuf>)
    requires Executing(p, done, i, mem0, outs0, mem, outs)
    ensures done[i] < |mem| == |mem0| && |outs| == |outs0|
    ensures mem[done[i]] == mem0[done[i]] && Runnable(mem[done[i]], p.ins, outs)
    ensures outs[mem[done[i]].dst] == outs0[mem[done[i]].dst]
  {
    assert done[i] in done;
    forall j | 0 <= j < i ensures Buf(Dsts(mem0), done[..i][j]) != mem0[done[i]].dst {
      assert done[j] in done;
      DistinctBufs(mem0, done, j, i);
    }
  }

  lemma DistinctBufs(mem: seq<CompOp>, done: seq<Op>, j: nat, i: nat)
    requires NoDuplicates(Bufs(Dsts(mem), done)) && j < i < |done|
    ensures Buf(Dsts(mem), done[j]) != Buf(Dsts(mem), done[i])
  {
    BufsAt(Dsts(mem), done, j);
    BufsAt(Dsts(mem), done, i);
  }

  lemma ExecutedStep(p: Params, done: seq<Op>, i: nat,
                     mem0: seq<CompOp>, outs0: seq<Mbuf>, mem: seq<CompOp>, outs: seq<Mbuf>)
    requires Executing(p, done, i, mem0, outs0, mem, outs)
    requires done[i] < |mem| && Runnable(mem[done[i]], p.ins, outs)
    ensures
      var op := mem[done[i]];
      var (ran, out) := Execute(p.codec, op, p.ins[op.src], outs[op.dst]);
      Executed(p, done[..i + 1], mem0, outs0, mem[done[i] := ran], outs[op.dst := out])
  {
    hide Flat;
    hide Execute;
    hide Bufs;
    ExecutedRest(p, done, i, mem0, outs0, mem, outs);
    var h, some := done[i], done[..i + 1];
    var op := mem[h];
    var (ran, out) := Execute(p.codec, op, p.ins[op.src], outs[op.dst]);
    var mem', outs' := mem[h := ran], outs[op.dst := out];
    forall j | 0 <= j < |some|
      ensures some[j] < |mem0| && Runnable(mem0[some[j]], p.ins, outs0)
      ensures var o := mem0[some[j]];
        (mem'[some[j]], outs'[o.dst]) == Execute(p.codec, o, p.ins[o.src], outs0[o.dst])
    {
      assert some[j] in done;
      if j < i {
        DistinctBufs(mem0, done, j, i);
        assert done[..i][j] == done[j];
      }
    }
    StepUntouched(p, done, i, mem0, outs0, mem, outs, mem', outs');
  }

  lemma StepUntouched(p: Params, done: seq<Op>, i: nat,
                      mem0: seq<CompOp>, outs0: seq<Mbuf>, mem: seq<CompOp>, outs: seq<Mbuf>,
                      mem': seq<CompOp>, outs': seq<Mbuf>)
    requires i < |done| && done[i] < |mem0| && mem0[done[i]].dst < |outs0|
    requires Executed(p, done[..i], mem0, outs0, mem, outs)
    requires |mem'| == |mem| && forall h :: 0 <= h < |mem| && h != done[i] ==> mem'[h] == mem[h]
    requires |outs'| == |outs| && forall b :: 0 <= b < |outs| && b != mem0[done[i]].dst ==> outs'[b] == outs[b]
    ensures forall h :: 0 <= h < |mem0| && h !in done[..i + 1] ==> mem'[h] == mem0[h]
    ensures forall b :: 0 <= b < |outs0| && Elsewhere(mem0, done[..i + 1], b) ==>
      outs'[b] == outs0[b]
  {
    hide Runnable;
    hide Execute;
    var some := done[..i + 1];
    forall b | 0 <= b < |outs0| && Elsewhere(mem0, some, b)
      ensures outs'[b] == outs0[b]
    {
      assert Buf(Dsts(mem0), some[i]) != b;
      forall j | 0 <= j < i ensures Buf(Dsts(mem0), done[..i][j]) != b {
        assert some[j] == done[..i][j];
      }
    }
    forall g | 0 <= g < |mem0| && g !in some ensures mem'[g] == mem0[g] {
      assert done[i] == some[i];
      assert forall j :: 0 <= j < i ==> done[..i][j] == some[j];
    }
  }

  lemma RunCollectKeeps(p: Params, r: Run, r': Run)
    requires RunInv(p, r) && r.s.deq == []
    requires multiset(r'.s.deq) + multiset(r'.s.queue) == multiset(r.s.queue)
    requires p.c.inOrder ==> r'.s.deq + r'.s.queue == r.s.queue
    requires r'.s == r.s.(queue := r'.s.queue, deq := r'.s.deq, bufs := Dsts(r'.mem),
                          dequeued := r.s.dequeued + |r'.s.deq|)
    requires Executed(p, r'.s.deq, r.mem, r.outs, r'.mem, r'.outs)
    ensures RunInv(p, r')
  {
    hide Invariant;
    hide Bufs;
    hide Iota;
    hide Flat;
    hide Capacity;
    hide Execute;
    ExecutedKeepsDsts(p, r'.s.deq, r.mem, r.outs, r'.mem, r'.outs);
    CollectKeeps(p.c, r.s, r'.s, r'.s.deq);
    DequeuedIsSeparate(p.c, r'.s);
    BufsHave(r.s.bufs, r'.s.deq);
    CollectRuns(p, r, r');
    assert AllArmed(p, r'.mem, r'.s.held);
    ArmedSubset(p, r, r');
  }

  lemma ExecutedKeepsDsts(p: Params, done: seq<Op>,
                          mem: seq<CompOp>, outs: seq<Mbuf>, mem': seq<CompOp>, outs': seq<Mbuf>)
    requires Executed(p, done, mem, outs, mem', outs')
    ensures Dsts(mem') == Dsts(mem)
  {
    forall h | 0 <= h < |mem| ensures mem'[h].dst == mem[h].dst {
      if h in done {
        var i :| 0 <= i < |done| && done[i] == h;
      }
    }
  }

  // Whatever the device hands back has run.
  lemma CollectRuns(p: Params, r: Run, r': Run)
    requires Sized(p, r) && r.s.deq == [] && AllArmed(p, r.mem, r.s.queue) && AllCleared(p, r)
    requires multiset(r'.s.deq) + multiset(r'.s.queue) == multiset(r.s.queue)
    requires forall i :: 0 <= i < |r'.s.deq| ==>
      Buf(r.s.bufs, r'.s.deq[i]) < r.s.enqueued && Buf(r.s.bufs, r'.s.deq[i]) !in r.s.completed
    requires Executed(p, r'.s.deq, r.mem, r.outs, r'.mem, r'.outs)
    ensures AllRan(p, r') && Sized(p, r'.(s := r.s.(bufs := Dsts(r'.mem))))
  {
    hide Flat;
    hide Execute;
    forall i | 0 <= i < |r'.s.deq| ensures Ran(p, r'.mem, r'.outs, r'.s.deq[i]) {
      var h := r'.s.deq[i];
      assert h in multiset(r'.s.deq);
      assert h in multiset(r.s.queue);
      assert Bufs(r.s.bufs, r.s.deq) == [];
      ExecuteRuns(p, r.mem, r.outs, r'.mem, r'.outs, h);
    }
    ExecutedKeepsChains(p, r'.s.deq, r.mem, r.outs, r'.mem, r'.outs);
  }

  lemma ExecutedKeepsChains(p: Params, done: seq<Op>,
                            mem: seq<CompOp>, outs: seq<Mbuf>, mem': seq<CompOp>, outs': seq<Mbuf>)
    requires ChainsOk(p, outs) && Executed(p, done, mem, outs, mem', outs')
    ensures ChainsOk(p, outs')
  {
    forall b | 0 <= b < |outs| ensures 0 < |outs'[b].segs| == p.nbSegs[b] && Uniform(outs'[b].segs, p.room) {
      if i :| 0 <= i < |done| && mem[done[i]].dst == b {
        assert outs'[b] == Execute(p.codec, mem[done[i]], p.ins[mem[done[i]].src], outs[b]).1;
      }
    }
  }

  lemma ArmedSubset(p: Params, r: Run, r': Run)
    requires AllArmed(p, r.mem, r.s.queue) && |r'.mem| == |r.mem|
    requires multiset(r'.s.deq) + multiset(r'.s.queue) == multiset(r.s.queue)
    requires forall h :: 0 <= h < |r.mem| && h in r'.s.queue ==> r'.mem[h] == r.mem[h]
    ensures AllArmed(p, r'.mem, r'.s.queue)
  {
    forall i | 0 <= i < |r'.s.queue| ensures Armed(p, r'.mem, r'.s.queue[i]) {
      assert r'.s.queue[i] in multiset(r'.s.queue);
      assert r'.s.queue[i] in multiset(r.s.queue);
    }
  }

  // The length fix-up of the operations handed back: their output packets are
  // now what the device produced. No other chain changes.
  ghost predicate Fixed(p: Params, hs: seq<Op>, mem: seq<CompOp>, outs: seq<Mbuf>, outs': seq<Mbuf>) {
    && ChainsOk(p, outs')
    && (forall i :: 0 <= i < |hs| ==> hs[i] < |mem| && Settled(p, outs', mem[hs[i]].dst))
    && (forall b :: 0 <= b < |outs| && b < |outs'| && Elsewhere(mem, hs, b) ==>
         outs'[b] == outs[b])
  }

  lemma RunRan(p: Params, r: Run)
    requires RunInv(p, r)
    ensures 0 < p.room && ChainsOk(p, r.outs)
    ensures |r.s.deq| <= r.s.outstanding
    ensures NoDuplicates(Bufs(Dsts(r.mem), r.s.deq))
    ensures forall i :: 0 <= i < |r.s.deq| ==> Ran(p, r.mem, r.outs, r.s.deq[i])
  {
    DequeuedIsSeparate(p.c, r.s);
  }

  lemma RunLog(p: Params, r: Run)
    requires RunInv(p, r)
    ensures multiset(Log(r.s)) == multiset(Iota(0, r.s.enqueued))
    ensures r.s.enqueued + r.s.remaining == p.c.total
    ensures r.s.enqueued == r.s.dequeued + |r.s.queue|
  {}

  lemma FixedNone(p: Params, mem: seq<CompOp>, outs: seq<Mbuf>)
    requires ChainsOk(p, outs)
    ensures Fixed(p, [], mem, outs, outs)
  {}

  // While the first i chains are fixed up, the others are as they were.
  lemma FixedRest(p: Params, done: seq<Op>, i: nat, mem: seq<CompOp>, outs0: seq<Mbuf>, outs: seq<Mbuf>)
    requires i < |done| && NoDuplicates(Bufs(Dsts(mem), done)) && 0 < p.room
    requires ChainsOk(p, outs0) && Fixed(p, done[..i], mem, outs0, outs)
    requires Ran(p, mem, outs0, done[i]) && mem[done[i]].status == Success
    ensures
      var b := mem[done[i]].dst;
      && b < |outs| && outs[b] == outs0[b] && outs[b].segs != []
      && Full(outs[b].segs) && Uniform(outs[b].segs, p.room)
      && mem[done[i]].produced <= Capacity(outs[b].segs) == |Flat(outs[b].segs)|
      && Fits(p, b) && Flat(outs[b].segs)[..mem[done[i]].produced] == Result(p, b)
  {
    var b := mem[done[i]].dst;
    forall j | 0 <= j < i ensures Buf(Dsts(mem), done[..i][j]) != b {
      BufsAt(Dsts(mem), done, j);
      BufsAt(Dsts(mem), done, i);
    }
    FullFlatLength(outs0[b].segs);
  }

  lemma FixedStep(p: Params, done: seq<Op>, i: nat, mem: seq<CompOp>, outs0: seq<Mbuf>, outs: seq<Mbuf>, m: Mbuf)
    requires i < |done| && NoDuplicates(Bufs(Dsts(mem), done))
    requires Fixed(p, done[..i], mem, outs0, outs) && done[i] < |mem| && mem[done[i]].dst < |outs| == |outs0|
    requires Readable(m) && Fits(p, mem[done[i]].dst) && Payload(m) == Result(p, mem[done[i]].dst)
    requires |m.segs| == |outs[mem[done[i]].dst].segs| && Uniform(m.segs, p.room)
    ensures Fixed(p, done[..i + 1], mem, outs0, outs[mem[done[i]].dst := m])
  {
    hide Flat;
    hide Bufs;
    hide Fits;
    hide Result;
    var b, some := mem[done[i]].dst, done[..i + 1];
    var outs' := outs[b := m];
    forall j | 0 <= j < |some| ensures some[j] < |mem| && Settled(p, outs', mem[some[j]].dst) {
      if j < i {
        BufsAt(Dsts(mem), done, j);
        BufsAt(Dsts(mem), done, i);
        assert done[..i][j] == some[j];
      }
    }
    forall c | 0 <= c < |outs0| && Elsewhere(mem, some, c)
      ensures outs'[c] == outs0[c]
    {
      assert Buf(Dsts(mem), some[i]) != c;
      forall j | 0 <= j < i ensures Buf(Dsts(mem), done[..i][j]) != c {
        assert some[j] == done[..i][j];
      }
    }
  }

  lemma RunRecycleKeeps(p: Params, r: Run, outs': seq<Mbuf>)
    requires RunInv(p, r)
    requires if p.settle then Fixed(p, r.s.deq, r.mem, r.outs, outs') else outs' == r.outs
    ensures |r.s.deq| <= r.s.outstanding
    ensures RunInv(p, Run(Recycled(r.s), r.mem, outs'))
  {
    hide Invariant;
    hide Bufs;
    hide Iota;
    hide Flat;
    RecycleKeeps(p.c, r.s);
    DequeuedIsSeparate(p.c, r.s);
    BufsHave(r.s.bufs, r.s.deq);
    var s', done := Recycled(r.s), Bufs(r.s.bufs, r.s.deq);
    assert Bufs(s'.bufs, s'.deq) == [] by {
      NoBufs(s'.bufs);
    }
    if p.settle {
      forall i | 0 <= i < |s'.completed| ensures Settled(p, outs', s'.completed[i]) {
        if |r.s.completed| <= i {
          assert s'.completed[i] == done[i - |r.s.completed|];
          assert s'.completed[i] in done;
        }
      }
    }
  }

  lemma NoBufs(bufs: seq<nat>)
    ensures Bufs(bufs, []) == []
  {}

  // The end of an iteration: every buffer was submitted once, no operation is
  // left anywhere but in the pool, and in the last iteration every result fits
  // and is what its destination chain now carries.
  lemma RunEnd(p: Params, r: Run)
    requires RunInv(p, r) && r.s.remaining == 0 && r.s.deq == [] && r.s.dequeued == p.c.total
    ensures r.s.outstanding == 0 && r.s.held == [] && r.s.queue == []
    ensures multiset(r.s.free) == p.c.all
    ensures multiset(r.s.completed) == multiset(Iota(0, p.c.total))
    ensures p.c.inOrder ==> r.s.completed == Iota(0, p.c.total)
    ensures p.settle ==> forall b :: 0 <= b < p.c.total ==> Settled(p, r.outs, b)
  {
    IterationEnd(p.c, r.s);
    if p.settle {
      forall b | 0 <= b < p.c.total ensures Settled(p, r.outs, b) {
        IotaOnce(0, p.c.total);
        assert b in multiset(r.s.completed);
      }
    }
  }
}
