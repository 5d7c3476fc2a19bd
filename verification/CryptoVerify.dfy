// The crypto verify test: the burst loop with every operation handed back
// checked against the test vector.

module CryptoVerify {
  import opened Common
  import opened Burst
  import opened Mbuf
  import opened Pacing
  import opened CryptoCarryOver

  datatype OpType = CipherOnly | AuthOnly | CipherThenAuth | AuthThenCipher | Aead | Unsupported

  // encrypt is the direction of the cipher, or of the AEAD; generate that of
  // the authentication.
  datatype Options = Options(opType: OpType, encrypt: bool, generate: bool, testBufferSize: nat, digestSz: nat)

  datatype TestVector = TestVector(plaintext: seq<Byte>, ciphertext: seq<Byte>, digest: seq<Byte>)

  // What an operation comes back with: its status, the chain it wrote (m_dst if
  // there is one, m_src otherwise) and the segment count kept in the first mbuf.
  datatype Done = Done(success: bool, segs: seq<Seg>, nbSegs: nat)

  // What is compared: cipher text, plain text or nothing at the front, and
  // whether a digest follows.
  datatype Check = Check(cipher: bool, encrypted: bool, digest: bool)

  function ChecksOf(o: Options): Option<Check> {
    match o.opType
    case CipherOnly => Some(Check(true, o.encrypt, false))
    case AuthOnly => Some(Check(false, false, o.generate))
    case CipherThenAuth => Some(Check(true, o.encrypt, o.encrypt))
    case AuthThenCipher => Some(Check(true, o.encrypt, o.encrypt))
    case Aead => Some(Check(true, o.encrypt, o.encrypt))
    case Unsupported => None
  }

  // The segments that are read.
  function Used(d: Done): seq<Seg> {
    d.segs[..Min(d.nbSegs, |d.segs|)]
  }

  // What is compared is there to be read.
  ghost predicate Comparable(data: seq<Byte>, o: Options, v: TestVector) {
    match ChecksOf(o)
    case None => true
    case Some(c) =>
      && o.testBufferSize <= |v.plaintext| && o.testBufferSize <= |v.ciphertext| && o.digestSz <= |v.digest|
      && (c.cipher ==> o.testBufferSize <= |data|)
      && (c.digest ==> o.testBufferSize + o.digestSz <= |data|)
  }

  // What the flattened chain of a good operation looks like.
  ghost predicate Good(data: seq<Byte>, o: Options, v: TestVector)
    requires Comparable(data, o, v)
  {
    var n, k := o.testBufferSize, o.digestSz;
    match o.opType
    case CipherOnly => (if o.encrypt then v.ciphertext else v.plaintext)[..n] <= data
    case AuthOnly => o.generate ==> v.digest[..k] <= data[n..]
    case Unsupported => false
    case _ => if o.encrypt then v.ciphertext[..n] + v.digest[..k] <= data else v.plaintext[..n] <= data
  }

  // memcmp(a + at, b, n) == 0
  method Same(a: array<Byte>, at: nat, b: seq<Byte>, n: nat) returns (same: bool)
    requires at + n <= a.Length && n <= |b|
    ensures same == (a[at..at + n] == b[..n])
  {
    for i := 0 to n
      invariant a[at..at + i] == b[..i]
    {
      if a[at + i] != b[i] {
        assert a[at..at + n][i] != b[..n][i];
        return false;
      }
    }
    same := true;
  }

  // Copying the data of a chain into one buffer.
  method Flatten(segs: seq<Seg>) returns (data: array<Byte>)
    ensures fresh(data) && data[..] == Flat(segs)
  {
    var len := 0;
    assert segs[..0] == [];
    for i := 0 to |segs|
      invariant len == |Flat(segs[..i])|
    {
      FlatNext(segs, i);
      len := len + segs[i].len;
    }
    assert segs[..|segs|] == segs;
    data := new Byte[len];
    len := 0;
    for i := 0 to |segs|
      invariant len == |Flat(segs[..i])| <= data.Length == |Flat(segs)|
      invariant data[..len] == Flat(segs[..i])
    {
      FlatNext(segs, i);
      Memcpy(data, len, segs[i].bytes[..segs[i].len]);
      len := len + segs[i].len;
    }
    assert data[..len] == data[..];
  }

  lemma FlatNext(segs: seq<Seg>, i: nat)
    requires i < |segs|
    ensures Flat(segs[..i + 1]) == Flat(segs[..i]) + segs[i].bytes[..segs[i].len]
    ensures |Flat(segs[..i + 1])| <= |Flat(segs)|
  {
    assert segs[..i + 1] == segs[..i] + [segs[i]] && segs == segs[..i + 1] + segs[i + 1..];
    assert [segs[i]][1..] == [];
    FlatConcat(segs[..i], [segs[i]]);
    FlatConcat(segs[..i + 1], segs[i + 1..]);
  }

  // cperf_verify_op: an operation passes exactly when it was successful and its
  // chain, flattened, is what the test vector asks for.
  method VerifyOp(d: Done, o: Options, v: TestVector) returns (failed: bool)
    requires Comparable(Flat(Used(d)), o, v)
    ensures failed <==> !(d.success && Good(Flat(Used(d)), o, v))
  {
    hide Good;
    hide Flat;
    if !d.success {
      return true;
    }
    var data := Flatten(Used(d));
    var cipher, isEncrypt, digestVerify, authOffset := false, false, false, 0;
    match o.opType {
      case CipherOnly =>
        cipher, isEncrypt := true, o.encrypt;
      case AuthOnly =>
        if o.generate {
          authOffset, digestVerify := o.testBufferSize, true;
        }
      case Unsupported =>
        NeverGood(data[..], o, v);
        return true;
      case _ =>
        cipher := true;
        if o.encrypt {
          authOffset, digestVerify, isEncrypt := o.testBufferSize, true, true;
        }
    }
    var res := 0;
    ghost var n, k := o.testBufferSize, o.digestSz;
    if cipher {
      var same := Same(data, 0, if isEncrypt then v.ciphertext else v.plaintext, o.testBufferSize);
      assert data[0..n] == data[..][0..n];
      res := res + if same then 0 else 1;
    }
    if digestVerify {
      var same := Same(data, authOffset, v.digest, o.digestSz);
      assert data[n..n + k] == data[..][n..n + k];
      res := res + if same then 0 else 1;
    }
    failed := res != 0;
    GoodIs(data[..], o, v);
  }

  lemma NeverGood(data: seq<Byte>, o: Options, v: TestVector)
    requires o.opType == Unsupported
    ensures Comparable(data, o, v) && !Good(data, o, v)
  {}

  // A good operation has the text the check asks for, if any, and the digest
  // behind it, if it asks for one.
  lemma GoodIs(data: seq<Byte>, o: Options, v: TestVector)
    requires Comparable(data, o, v) && ChecksOf(o).Some?
    ensures
      var c, n, k := ChecksOf(o).value, o.testBufferSize, o.digestSz;
      Good(data, o, v) <==>
        && (c.cipher ==> data[0..n] == (if c.encrypted then v.ciphertext else v.plaintext)[..n])
        && (c.digest ==> data[n..n + k] == v.digest[..k])
  {
    SplitPrefix(data, o.testBufferSize, o.digestSz, v);
  }

  // Comparing text and digest one after the other is comparing both at once.
  lemma SplitPrefix(data: seq<Byte>, n: nat, k: nat, v: TestVector)
    ensures n <= |data| && n <= |v.plaintext| && n <= |v.ciphertext| ==>
      && (v.plaintext[..n] <= data <==> data[0..n] == v.plaintext[..n])
      && (v.ciphertext[..n] <= data <==> data[0..n] == v.ciphertext[..n])
    ensures n + k <= |data| && n <= |v.ciphertext| && k <= |v.digest| ==>
      && (v.digest[..k] <= data[n..] <==> data[n..n + k] == v.digest[..k])
      && (v.ciphertext[..n] + v.digest[..k] <= data <==>
           data[0..n] == v.ciphertext[..n] && data[n..n + k] == v.digest[..k])
  {
    if n + k <= |data| && n <= |v.ciphertext| && k <= |v.digest| {
      var t, g := v.ciphertext[..n], v.digest[..k];
      assert data[n..][..k] == data[n..n + k];
      assert data[..n + k] == data[0..n] + data[n..n + k];
      assert (t + g)[..n] == t && (t + g)[n..] == g;
      assert data[..n + k][..n] == data[0..n] && data[..n + k][n..] == data[n..n + k];
    }
  }

  // How many of the operations handed back from the a-th on, n of them, fail.
  ghost function Failures(outcome: nat -> Done, o: Options, v: TestVector, a: nat, n: nat): (f: nat)
    requires forall i :: Comparable(Flat(Used(outcome(i))), o, v)
    ensures f <= n
  {
    if n == 0 then 0
    else
      var d := outcome(a + n - 1);
      Failures(outcome, o, v, a, n - 1) + if d.success && Good(Flat(Used(d)), o, v) then 0 else 1
  }

  lemma {:induction false} FailuresSplit(outcome: nat -> Done, o: Options, v: TestVector, a: nat, n: nat, m: nat)
    requires forall i :: Comparable(Flat(Used(outcome(i))), o, v)
    ensures Failures(outcome, o, v, a, n + m) == Failures(outcome, o, v, a, n) + Failures(outcome, o, v, a + n, m)
    decreases m
  {
    hide Good;
    hide Flat;
    hide Used;
    if m != 0 {
      FailuresSplit(outcome, o, v, a, n, m - 1);
    }
  }

  // No operation fails exactly when all are good.
  lemma {:induction false} NoFailures(outcome: nat -> Done, o: Options, v: TestVector, n: nat)
    requires forall i :: Comparable(Flat(Used(outcome(i))), o, v)
    ensures Failures(outcome, o, v, 0, n) == 0 <==>
      forall i :: 0 <= i < n ==> outcome(i).success && Good(Flat(Used(outcome(i))), o, v)
    decreases n
  {
    hide Good;
    hide Flat;
    hide Used;
    if n != 0 {
      NoFailures(outcome, o, v, n - 1);
    }
  }

  // Checking the operations of one burst; outcome(i) is what the i-th operation
  // handed back holds.
  method CheckBurst(outcome: nat -> Done, a: nat, n: nat, o: Options, v: TestVector) returns (opsFailed: nat)
    requires forall i :: Comparable(Flat(Used(outcome(i))), o, v)
    ensures opsFailed == Failures(outcome, o, v, a, n)
  {
    hide Good;
    hide Comparable;
    opsFailed := 0;
    for i := 0 to n
      invariant opsFailed == Failures(outcome, o, v, a, i)
    {
      var failed := VerifyOp(outcome(a + i), o, v);
      if failed {
        opsFailed := opsFailed + 1;
      }
    }
  }

  // cperf_verify_test_runner: ops_failed counts exactly the operations, out of
  // total_ops, that come back unsuccessful or wrong. `rs` is what the device was
  // asked for.
  method Runner(pool: OpPool, dev: Device, totalOps: nat, maxBurstSize: nat,
                outcome: nat -> Done, o: Options, v: TestVector)
    returns (ret: int, opsFailed: nat, ghost rs: seq<Request>)
    requires Distinct(multiset(pool.free)) && dev.queue == [] && 0 < maxBurstSize
    requires forall i :: Comparable(Flat(Used(outcome(i))), o, v)
    modifies pool, dev
    ensures ret == 0 || (ret == -1 && old(|pool.free|) < totalOps)
    ensures ret == 0 ==> opsFailed == Failures(outcome, o, v, 0, totalOps)
    ensures ret == 0 ==> multiset(pool.free) == multiset(old(pool.free)) && dev.queue == []
    ensures ret == 0 ==> Went(old(dev.History()), dev.History(), rs) && Complete(rs, maxBurstSize, totalOps)
  {
    hide Distinct;
    hide Failures;
    hide Went;
    hide InStep;
    hide Complete;
    hide Device.History;
    hide BurstLoop.Valid;
    hide Comparable;
    hide Good;
    var loop := new BurstLoop(pool, dev, totalOps, maxBurstSize);
    assert |loop.all| == |pool.free|;
    loop.Start(maxBurstSize);
    ghost var start := dev.History();
    opsFailed, rs := 0, [];
    StartsInStep(start, maxBurstSize, totalOps);
    NoneYet(outcome, o, v);
    while loop.opsEnqdTotal < totalOps
      invariant loop.Valid() && loop.testBurstSize == maxBurstSize && loop.opsEnqdTotal <= totalOps
      invariant opsFailed == Failures(outcome, o, v, 0, loop.opsDeqdTotal)
      invariant InStep(start, dev.History(), rs, maxBurstSize, totalOps, loop.opsEnqdTotal, loop.opsDeqdTotal)
      decreases totalOps - loop.opsEnqdTotal, dev.stalls
    {
      loop.Flying();
      ghost var h, taken, given := dev.History(), loop.opsEnqdTotal, loop.opsDeqdTotal;
      var ok;
      ghost var n, d;
      ok, opsFailed, n, d := Round(loop, outcome, o, v, opsFailed);
      if !ok {
        return -1, opsFailed, rs;
      }
      RoundInStep(start, h, dev.History(), rs, maxBurstSize, totalOps, taken, given, n, loop.opsEnqd, d);
      rs := rs + ([Enq(n, loop.opsEnqd)] + [Deq(maxBurstSize, d)]);
      loop.Flying();
    }
    loop.Flying();
    while loop.opsDeqdTotal < totalOps
      invariant loop.Valid() && loop.testBurstSize == maxBurstSize
      invariant |dev.queue| == totalOps - loop.opsDeqdTotal
      invariant opsFailed == Failures(outcome, o, v, 0, loop.opsDeqdTotal)
      invariant InStep(start, dev.History(), rs, maxBurstSize, totalOps, totalOps, loop.opsDeqdTotal)
      decreases totalOps - loop.opsDeqdTotal, dev.stalls
    {
      ghost var h, given := dev.History(), loop.opsDeqdTotal;
      ghost var d;
      opsFailed, d := Last(loop, outcome, o, v, opsFailed);
      RoundInStep(start, h, dev.History(), rs, maxBurstSize, totalOps, totalOps, given, 0, 0, d);
      rs := rs + ([Enq(0, 0)] + [Deq(maxBurstSize, d)]);
    }
    loop.Ends();
    EndsComplete(start, dev.History(), rs, maxBurstSize, totalOps);
    ret := 0;
  }

  // One round: a burst is offered, what comes back is checked.
  method Round(loop: BurstLoop, outcome: nat -> Done, o: Options, v: TestVector, failedSoFar: nat)
    returns (ok: bool, opsFailed: nat, ghost n: nat, ghost d: nat)
    requires loop.Valid() && loop.opsEnqdTotal < loop.totalOps
    requires forall i :: Comparable(Flat(Used(outcome(i))), o, v)
    requires failedSoFar == Failures(outcome, o, v, 0, loop.opsDeqdTotal)
    modifies loop`opsEnqd, loop`opsUnused, loop`opsEnqdTotal, loop`opsDeqdTotal
    modifies loop.pool, loop.dev, loop.ops, loop.opsProcessed
    ensures !ok ==> |loop.all| < loop.totalOps
    ensures ok ==> loop.Valid() && n == Min(loop.testBurstSize, loop.totalOps - old(loop.opsEnqdTotal))
    ensures ok ==> opsFailed == Failures(outcome, o, v, 0, loop.opsDeqdTotal)
    ensures ok ==>
      loop.opsEnqdTotal == old(loop.opsEnqdTotal) + loop.opsEnqd && loop.opsDeqdTotal == old(loop.opsDeqdTotal) + d
    ensures ok ==>
      Went(old(loop.dev.History()), loop.dev.History(), [Enq(n, loop.opsEnqd)] + [Deq(loop.testBurstSize, d)])
    ensures loop.dev.stalls <= old(loop.dev.stalls)
    ensures ok && loop.opsEnqd == 0 ==> loop.dev.stalls < old(loop.dev.stalls)
  {
    hide Went;
    hide Device.History;
    hide Invariant;
    hide Fetched;
    hide Failures;
    hide BurstLoop.Held;
    ghost var s, h := loop.S(), loop.dev.History();
    var burstSize;
    ghost var added;
    opsFailed, n, d := failedSoFar, 0, 0;
    burstSize, ok, added := loop.Refill();
    if !ok {
      return;
    }
    n := burstSize;
    loop.Submit(burstSize, added, s);
    ghost var h' := loop.dev.History();
    opsFailed, d := Drain(loop, outcome, o, v, opsFailed);
    WentOn(h, h', loop.dev.History(), [Enq(n, loop.opsEnqd)], [Deq(loop.testBurstSize, d)]);
  }

  // One round once everything is submitted.
  method Last(loop: BurstLoop, outcome: nat -> Done, o: Options, v: TestVector, failedSoFar: nat)
    returns (opsFailed: nat, ghost d: nat)
    requires loop.Valid() && forall i :: Comparable(Flat(Used(outcome(i))), o, v)
    requires failedSoFar == Failures(outcome, o, v, 0, loop.opsDeqdTotal)
    modifies loop`opsDeqdTotal, loop.dev, loop.pool, loop.opsProcessed
    ensures loop.Valid() && opsFailed == Failures(outcome, o, v, 0, loop.opsDeqdTotal)
    ensures loop.opsDeqdTotal == old(loop.opsDeqdTotal) + d && |loop.dev.queue| + d == old(|loop.dev.queue|)
    ensures Went(old(loop.dev.History()), loop.dev.History(), [Enq(0, 0)] + [Deq(loop.testBurstSize, d)])
    ensures loop.dev.stalls <= old(loop.dev.stalls)
    ensures d == 0 < Min(loop.testBurstSize, old(|loop.dev.queue|)) ==> loop.dev.stalls < old(loop.dev.stalls)
  {
    hide Went;
    hide Device.History;
    hide Invariant;
    hide Failures;
    hide BurstLoop.Held;
    loop.Flush();
    ghost var h := loop.dev.History();
    opsFailed, d := Drain(loop, outcome, o, v, failedSoFar);
    WentOn(old(loop.dev.History()), h, loop.dev.History(), [Enq(0, 0)], [Deq(loop.testBurstSize, d)]);
  }

  lemma NoneYet(outcome: nat -> Done, o: Options, v: TestVector)
    requires forall i :: Comparable(Flat(Used(outcome(i))), o, v)
    ensures Failures(outcome, o, v, 0, 0) == 0
  {}

  // One dequeue of the verify test: an empty one changes nothing, the rest are
  // checked before they go back to the pool.
  method Drain(loop: BurstLoop, outcome: nat -> Done, o: Options, v: TestVector, failedSoFar: nat)
    returns (opsFailed: nat, ghost d: nat)
    requires loop.Valid() && forall i :: Comparable(Flat(Used(outcome(i))), o, v)
    requires failedSoFar == Failures(outcome, o, v, 0, loop.opsDeqdTotal)
    modifies loop`opsDeqdTotal, loop.dev, loop.pool, loop.opsProcessed
    ensures loop.Valid() && opsFailed == Failures(outcome, o, v, 0, loop.opsDeqdTotal)
    ensures loop.opsDeqdTotal == old(loop.opsDeqdTotal) + d && |loop.dev.queue| + d == old(|loop.dev.queue|)
    ensures Went(old(loop.dev.History()), loop.dev.History(), [Deq(loop.testBurstSize, d)])
    ensures loop.dev.stalls <= old(loop.dev.stalls)
    ensures d == 0 < Min(loop.testBurstSize, old(|loop.dev.queue|)) ==> loop.dev.stalls < old(loop.dev.stalls)
  {
    hide Went;
    hide Device.History;
    hide Invariant;
    hide Failures;
    hide BurstLoop.Held;
    ghost var s := loop.S();
    var opsDeqd := loop.Poll();
    opsFailed, d := failedSoFar, opsDeqd;
    if opsDeqd != 0 {
      var failed := CheckBurst(outcome, loop.opsDeqdTotal, opsDeqd, o, v);
      FailuresSplit(outcome, o, v, 0, loop.opsDeqdTotal, opsDeqd);
      opsFailed := opsFailed + failed;
    }
    loop.Release(opsDeqd, s);
  }
}
