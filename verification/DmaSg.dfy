// How the scatter-gather DMA benchmark divides its buffers: among the workers,
// into groups, and the length of a group among its entries; and a worker's copy
// loop over its groups.

module DmaSg {
  import opened Common
  import opened DmaCopy

  datatype Config = Config(memBytes: nat, bufSize: nat, workers: nat, nbSrc: nat, nbDst: nat)

  // What reading the configuration guarantees.
  ghost predicate Accepted(c: Config) {
    0 < c.bufSize && 0 < c.workers && 0 < c.nbSrc && 0 < c.nbDst
  }

  // Buffers in all, and how many of them are sources and destinations.
  datatype Counts = Counts(nrBuf: nat, nrSgSrc: nat, nrSgDst: nat)

  function Quotient(x: nat, n: nat): nat
    requires 0 < n
  {
    x / n
  }

  // x -= x % n
  function RoundDown(x: nat, n: nat): (r: nat)
    requires 0 < n
    ensures r == n * Quotient(x, n)
  {
    x - x % n
  }

  function Block(c: Config): (b: nat)
    requires Accepted(c)
    ensures 0 < b
  {
    MulLe(c.nbSrc, 1, c.nbDst);
    c.nbSrc * c.nbDst
  }

  // The buffers one worker gets.
  function Share(c: Config): (s: nat)
    requires Accepted(c)
    ensures exists q :: s == Block(c) * q
  {
    var each := Quotient(RoundDown(Quotient(c.memBytes, c.bufSize * 2), c.workers), c.workers);
    assert RoundDown(each, Block(c)) == Block(c) * Quotient(each, Block(c));
    RoundDown(each, Block(c))
  }

  function Product(a: nat, b: nat): nat {
    a * b
  }

  // The entries of the side with `few` to a group when the other has `many`.
  function FewerSide(nrBuf: nat, many: nat, few: nat): nat
    requires 0 < many
  {
    Product(nrBuf / many, few)
  }

  // align_buffer_count for a scatter-gather test.
  function AlignBufferCount(c: Config): Counts
    requires Accepted(c)
  {
    var nrBuf := Product(Share(c), c.workers);
    if c.nbDst > c.nbSrc then Counts(nrBuf, FewerSide(nrBuf, c.nbDst, c.nbSrc), nrBuf)
    else Counts(nrBuf, nrBuf, FewerSide(nrBuf, c.nbSrc, c.nbDst))
  }

  // Rounding x down to a multiple of n leaves less than n out.
  lemma Rounded(x: nat, n: nat)
    requires 0 < n
    ensures RoundDown(x, n) <= x < RoundDown(x, n) + n
  {
    assert x % n < n;
  }

  lemma QuotientIs(x: nat, n: nat)
    requires 0 < n
    ensures Product(Quotient(x, n), n) <= x < Product(Quotient(x, n) + 1, n)
  {
    var q := x / n;
    assert x == n * q + x % n && (q + 1) * n == q * n + n && q * n == n * q;
  }

  // A quotient of what is rounded down is the quotient.
  lemma QuotientOfRounded(x: nat, n: nat)
    requires 0 < n
    ensures Quotient(RoundDown(x, n), n) == Quotient(x, n)
  {
    MulDiv(Quotient(x, n), n);
  }

  lemma ProductLe(a: nat, b: nat, n: nat)
    requires a <= b
    ensures Product(a, n) <= Product(b, n)
  {}

  // The buffers fill the memory: source and destination of all of them fit, and
  // with one more block for every worker they would not.
  lemma CountsFill(c: Config)
    requires Accepted(c)
    ensures AlignBufferCount(c).nrBuf * (c.bufSize * 2) <= c.memBytes
    ensures c.memBytes < (AlignBufferCount(c).nrBuf + c.workers * (c.nbSrc * c.nbDst)) * (c.bufSize * 2)
  {
    var unit, w, b := c.bufSize * 2, c.workers, Block(c);
    var bufs := Quotient(c.memBytes, unit);
    var each := Quotient(bufs, w);
    QuotientOfRounded(bufs, w);
    assert Share(c) == RoundDown(each, b);
    Rounded(each, b);
    Filled(c.memBytes, unit, w, b, bufs, each, Share(c));
  }

  lemma Filled(mem: nat, unit: nat, w: nat, b: nat, bufs: nat, each: nat, share: nat)
    requires 0 < unit && 0 < w && bufs == Quotient(mem, unit) && each == Quotient(bufs, w)
    requires share <= each < share + b
    ensures Product(share, w) * unit <= mem < (Product(share, w) + w * b) * unit
  {
    QuotientIs(mem, unit);
    QuotientIs(bufs, w);
    hide Quotient;
    ProductLe(share, each, w);
    ProductLe(Product(share, w), bufs, unit);
    ProductLe(each + 1, share + b, w);
    Spread(share, b, w);
    ProductLe(bufs + 1, Product(share, w) + w * b, unit);
  }

  lemma Spread(a: nat, b: nat, w: nat)
    ensures Product(a + b, w) == Product(a, w) + w * b
  {}

  // g groups for each of w workers: what every count has to be for that.
  ghost predicate Divided(c: Config, n: Counts, g: nat) {
    && n.nrSgSrc == c.workers * (g * c.nbSrc)
    && n.nrSgDst == c.workers * (g * c.nbDst)
    && n.nrBuf == Max(n.nrSgSrc, n.nrSgDst)
  }

  lemma MulDiv(a: nat, n: nat)
    requires 0 < n
    ensures (n * a) / n == a && (n * a) % n == 0
  {
    DivUnique(n * a, n, a, 0);
  }

  // All counts are made of the same number of groups for every worker.
  lemma AlignDivides(c: Config) returns (g: nat)
    requires Accepted(c)
    ensures Divided(c, AlignBufferCount(c), g)
  {
    hide Share;
    var q: nat :| Share(c) == Block(c) * q;
    if c.nbDst > c.nbSrc {
      g := q * c.nbSrc;
      Blockwise(c.nbSrc, c.nbDst, q, c.workers);
    } else {
      g := q * c.nbDst;
      assert Block(c) == c.nbDst * c.nbSrc;
      Blockwise(c.nbDst, c.nbSrc, q, c.workers);
    }
  }

  // With `few` and `many` entries a group on the two sides.
  lemma Blockwise(few: nat, many: nat, q: nat, w: nat)
    requires 0 < few <= many
    ensures few * many * q * w == w * (q * few * many)
    ensures few * many * q * w / many * few == w * (q * few * few)
    ensures w * (q * few * few) <= w * (q * few * many)
  {
    var a := q * few;
    Regrouped(few, many, q, w);
    MulDiv(w * a, many);
    Associates(w, a, few);
    Associates(w, a, many);
    MulLe(a, few, many);
    MulLe(w, a * few, a * many);
  }

  lemma Associates(a: nat, b: nat, c: nat)
    ensures a * b * c == a * (b * c)
  {}

  lemma Commutes(a: nat, b: nat)
    ensures a * b == b * a
  {}

  lemma Regrouped(few: nat, many: nat, q: nat, w: nat)
    ensures few * many * q * w == w * (q * few) * many == many * (w * (q * few))
  {
    Commutes(few, many);
    Associates(many, few, q);
    Commutes(few, q);
    Associates(many, q * few, w);
    Commutes(q * few, w);
    Commutes(many, w * (q * few));
  }

  // What setup_worker gives worker k on a side with nb entries a group, and
  // what its copy loop makes of it.
  lemma WorkerSlice(c: Config, n: Counts, g: nat, k: nat)
    requires Accepted(c) && Divided(c, n, g) && k < c.workers
    ensures n.nrSgSrc / c.workers == g * c.nbSrc && n.nrSgDst / c.workers == g * c.nbDst
    ensures n.nrBuf / c.workers / Max(c.nbSrc, c.nbDst) == g
    ensures n.nrSgSrc / c.workers * (k + 1) <= n.nrSgSrc && n.nrSgDst / c.workers * (k + 1) <= n.nrSgDst
    ensures n.nrSgSrc / c.workers * k % c.nbSrc == 0 && n.nrSgDst / c.workers * k % c.nbDst == 0
  {
    MulDiv(g * c.nbSrc, c.workers);
    MulDiv(g * c.nbDst, c.workers);
    var m := Max(c.nbSrc, c.nbDst);
    Largest(c.workers, g, c.nbSrc, c.nbDst);
    MulDiv(g * m, c.workers);
    MulDiv(g, m);
    assert m * g == g * m;
    SliceFits(c.workers, g * c.nbSrc, k);
    SliceFits(c.workers, g * c.nbDst, k);
    SliceAligned(g, c.nbSrc, k);
    SliceAligned(g, c.nbDst, k);
  }

  lemma Largest(w: nat, g: nat, a: nat, b: nat)
    ensures Max(w * (g * a), w * (g * b)) == w * (g * Max(a, b))
  {
    if a <= b {
      MulLe(g, a, b);
      MulLe(w, g * a, g * b);
    } else {
      MulLe(g, b, a);
      MulLe(w, g * b, g * a);
    }
  }

  lemma SliceFits(w: nat, len: nat, k: nat)
    requires k < w
    ensures len * (k + 1) <= w * len
  {
    MulLe(len, k + 1, w);
    assert len * w == w * len;
  }

  lemma SliceAligned(g: nat, nb: nat, k: nat)
    requires 0 < nb
    ensures g * nb * k % nb == 0
  {
    assert g * nb * k == nb * (g * k);
    MulDiv(g * k, nb);
  }

  // Slices of different workers do not meet.
  lemma SlicesDisjoint(len: nat, k: nat, l: nat)
    requires k < l
    ensures len * (k + 1) <= len * l
  {
    MulLe(len, k + 1, l);
  }

  // The entries of group i, nb of them, in a slice that starts at off.
  function Group(off: nat, i: nat, nb: nat): seq<nat> {
    Iota(off + i * nb, nb)
  }

  // The entries of the first n groups.
  function Entries(off: nat, n: nat, nb: nat): seq<nat> {
    Iota(off, n * nb)
  }

  // The entries of n groups, p times over.
  function EntryPasses(p: nat, off: nat, n: nat, nb: nat): seq<nat> {
    if p == 0 then [] else EntryPasses(p - 1, off, n, nb) + Entries(off, n, nb)
  }

  // do_dma_sg_mem_copy over a worker's slice, stopped after `passes` passes. A
  // job of the channel is one group; srcs and dsts are the entries handed over
  // with the jobs the ring took. Every pass hands over every entry of the slice
  // once, in order, on both sides, however often the ring was full, and source
  // and destination are always those of the same group. 0 is returned exactly
  // when all groups are done, each destination then being equal to its source.
  method SgMemCopy(w: Worker, passes: nat, nrBuf: nat, nbSrc: nat, nbDst: nat, srcOff: nat, dstOff: nat)
    returns (ret: int, ghost srcs: seq<nat>, ghost dsts: seq<nat>)
    requires 0 < nbSrc && 0 < nbDst && w.nrBuf == nrBuf / Max(nbSrc, nbDst)
    requires w.chan.Valid() && |w.chan.srcs| == w.nrBuf && 0 < w.kickBatch && 0 < passes
    requires w.chan.inFlight == []
    modifies w, w.chan, w.chan.dsts
    ensures w.issued == Passes(passes, w.nrBuf)
    ensures srcs == EntryPasses(passes, srcOff, w.nrBuf, nbSrc) && dsts == EntryPasses(passes, dstOff, w.nrBuf, nbDst)
    ensures ret == 0 || ret == -1
    ensures ret == 0 <==> w.chan.inFlight == []
    ensures ret == 0 ==> forall i :: 0 <= i < w.nrBuf ==> w.chan.dsts[i] == w.chan.srcs[i]
    ensures w.chan.ringSize + old(w.chan.stalls) <= MAX_POLL ==> ret == 0
    ensures w.chan.peak <= Max(old(w.chan.peak), w.kickBatch)
  {
    hide Passes;
    hide EntryPasses;
    hide Entries;
    hide Group;
    hide Iota;
    var groups := nrBuf / Max(nbSrc, nbDst);
    w.asyncCnt, w.totalCpl, w.issued, w.done := 0, 0, [], 0;
    srcs, dsts := [], [];
    w.Starts();
    KicksNothing(w.kickBatch);
    hide Worker.Valid;
    hide Channel.Valid;
    hide Channel.Waiting;
    hide Kicked;
    NoPasses(groups);
    NoEntries(srcOff, groups, nbSrc);
    NoEntries(dstOff, groups, nbDst);
    for pass := 0 to passes
      invariant w.Valid() && w.issued == Passes(pass, groups)
      invariant w.chan.stalls <= old(w.chan.stalls) && w.chan.peak <= Max(old(w.chan.peak), w.kickBatch)
      invariant Kicked(w.chan.Waiting(), w.asyncCnt, w.kickBatch)
      invariant srcs == EntryPasses(pass, srcOff, groups, nbSrc) && dsts == EntryPasses(pass, dstOff, groups, nbDst)
    {
      srcs, dsts := SgPass(w, groups, nbSrc, nbDst, srcOff, dstOff, srcs, dsts);
      NextPass(pass, groups);
      NextEntries(pass, srcOff, groups, nbSrc);
      NextEntries(pass, dstOff, groups, nbDst);
    }
    w.WaitingPositive();
    ret := w.SubmitAndWaitCpl();
    if ret == 0 {
      forall i | 0 <= i < groups ensures w.chan.dsts[i] == w.chan.srcs[i] {
        PassHas(passes, groups, i);
        var k :| 0 <= k < |w.issued| && w.issued[k] == i;
      }
    }
  }

  // One pass: i and j advance together although a full ring is tried again.
  method SgPass(w: Worker, groups: nat, nbSrc: nat, nbDst: nat, srcOff: nat, dstOff: nat,
                ghost srcs0: seq<nat>, ghost dsts0: seq<nat>)
    returns (ghost srcs: seq<nat>, ghost dsts: seq<nat>)
    requires w.Valid() && w.nrBuf == groups && 0 < w.kickBatch && Kicked(w.chan.Waiting(), w.asyncCnt, w.kickBatch)
    modifies w, w.chan, w.chan.dsts
    ensures Kicked(w.chan.Waiting(), w.asyncCnt, w.kickBatch)
    ensures w.chan.stalls <= old(w.chan.stalls) && w.chan.peak <= Max(old(w.chan.peak), w.kickBatch)
    ensures w.Valid() && w.issued == old(w.issued) + Iota(0, groups)
    ensures srcs == srcs0 + Entries(srcOff, groups, nbSrc) && dsts == dsts0 + Entries(dstOff, groups, nbDst)
  {
    hide Entries;
    hide Group;
    hide Iota;
    hide Worker.Valid;
    hide Channel.Waiting;
    hide Kicked;
    srcs, dsts := srcs0, dsts0;
    var j := 0;
    ghost var issued := w.issued;
    NoGroups(issued, srcOff, nbSrc);
    NoGroups(issued, dstOff, nbDst);
    for i := 0 to groups
      invariant w.Valid() && w.issued == issued + Iota(0, i) && j == i
      invariant w.chan.stalls <= old(w.chan.stalls) && w.chan.peak <= Max(old(w.chan.peak), w.kickBatch)
      invariant Kicked(w.chan.Waiting(), w.asyncCnt, w.kickBatch)
      invariant srcs == srcs0 + Entries(srcOff, i, nbSrc) && dsts == dsts0 + Entries(dstOff, j, nbDst)
    {
      w.IssueAndKick(i);
      NextGroup(srcs0, srcOff, i, nbSrc);
      NextGroup(dsts0, dstOff, j, nbDst);
      NextCopy(issued, i);
      srcs := srcs + Group(srcOff, i, nbSrc);
      dsts := dsts + Group(dstOff, j, nbDst);
      j := j + 1;
    }
  }

  lemma NoEntries(off: nat, n: nat, nb: nat)
    ensures EntryPasses(0, off, n, nb) == []
  {}

  lemma NextEntries(p: nat, off: nat, n: nat, nb: nat)
    ensures EntryPasses(p + 1, off, n, nb) == EntryPasses(p, off, n, nb) + Entries(off, n, nb)
  {}

  lemma NoGroups(before: seq<nat>, off: nat, nb: nat)
    ensures Entries(off, 0, nb) == [] && before + Iota(0, 0) == before
  {}

  lemma NextGroup(before: seq<nat>, off: nat, i: nat, nb: nat)
    ensures before + Entries(off, i, nb) + Group(off, i, nb) == before + Entries(off, i + 1, nb)
  {
    hide Iota;
    assert (i + 1) * nb == i * nb + nb;
    IotaSplit(off, (i + 1) * nb, i * nb);
    ConcatAssociates(before, Entries(off, i, nb), Group(off, i, nb));
  }

  // The length setup_memory_env gives entry i on a side with nb entries a group.
  function SgeLen(i: nat, nb: nat, bufSize: nat): nat
    requires 0 < nb
  {
    bufSize / nb + if (i + 1) % nb == 0 then bufSize % nb else 0
  }

  method SetLengths(nrBuf: nat, nb: nat, bufSize: nat) returns (lens: array<nat>)
    requires 0 < nb
    ensures fresh(lens) && lens.Length == nrBuf
    ensures forall i :: 0 <= i < nrBuf ==> lens[i] == SgeLen(i, nb, bufSize)
  {
    lens := new nat[nrBuf];
    var sgLen := bufSize / nb;
    for i := 0 to nrBuf
      invariant forall j :: 0 <= j < i ==> lens[j] == SgeLen(j, nb, bufSize)
    {
      lens[i] := sgLen;
      if (i + 1) % nb == 0 {
        lens[i] := lens[i] + bufSize % nb;
      }
    }
  }

  function TotalLen(start: nat, n: nat, nb: nat, bufSize: nat): nat
    requires 0 < nb
  {
    if n == 0 then 0 else TotalLen(start, n - 1, nb, bufSize) + SgeLen(start + n - 1, nb, bufSize)
  }

  lemma {:induction false} PartOfGroup(start: nat, n: nat, nb: nat, bufSize: nat)
    requires 0 < nb && start % nb == 0 && n < nb
    ensures TotalLen(start, n, nb, bufSize) == n * (bufSize / nb)
    decreases n
  {
    if n != 0 {
      PartOfGroup(start, n - 1, nb, bufSize);
      InnerLen(start, n, nb, bufSize);
      hide SgeLen;
      NextMultiple(n - 1, bufSize / nb);
    }
  }

  // No entry but the last of a group takes up what is left over.
  lemma InnerLen(start: nat, n: nat, nb: nat, bufSize: nat)
    requires 0 < n < nb && start % nb == 0
    ensures SgeLen(start + n - 1, nb, bufSize) == bufSize / nb
  {
    var q := start / nb;
    assert start == nb * q;
    DivUnique(start + n, nb, q, n);
    assert start + n - 1 + 1 == start + n;
  }

  // The lengths of every group add up to the buffer size.
  lemma GroupLen(start: nat, nb: nat, bufSize: nat)
    requires 0 < nb && start % nb == 0
    ensures TotalLen(start, nb, nb, bufSize) == bufSize
  {
    PartOfGroup(start, nb - 1, nb, bufSize);
    LastOfGroup(start, nb);
    NextMultiple(nb - 1, bufSize / nb);
    assert bufSize == nb * (bufSize / nb) + bufSize % nb;
  }

  lemma LastOfGroup(start: nat, nb: nat)
    requires 0 < nb && start % nb == 0
    ensures (start + nb - 1 + 1) % nb == 0
  {
    var q := start / nb;
    assert start == nb * q;
    assert nb * (q + 1) == nb * q + nb;
    DivUnique(start + nb, nb, q + 1, 0);
  }

  lemma NextMultiple(n: nat, x: nat)
    ensures n * x + x == (n + 1) * x
  {}
}
