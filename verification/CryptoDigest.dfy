// The verify test and the digest together: an operation is set up and its
// digest placed, the device fills it in, and the check looks at the chain. What
// the check sees depends on whether the digest was pushed to the next segment.

module CryptoDigest {
  import opened Common
  import opened Burst
  import opened Mbuf
  import opened CryptoSegments
  import opened CryptoVerify
  import opened Pacing

  // The chain of an operation: n segments of segLen usable bytes, all of them
  // counted as data.
  ghost predicate Chain(segs: seq<Seg>, n: nat, segLen: nat) {
    |segs| == n && Full(segs) && Uniform(segs, segLen)
  }

  function Splice(a: seq<Byte>, at: nat, b: seq<Byte>): (r: seq<Byte>)
    requires at + |b| <= |a|
    ensures |r| == |a|
  {
    a[..at] + b + a[at + |b|..]
  }

  function Put(s: Seg, offset: nat, data: seq<Byte>): (r: Seg)
    requires offset + |data| <= |s.bytes|
  {
    Segment(Splice(s.bytes, offset, data), s.len)
  }

  // What a device leaves: `text` at the front of the chain, `digest` where the
  // operation says, and every other byte as it was.
  function Processed(segs: seq<Seg>, text: seq<Byte>, seg: nat, offset: nat, digest: seq<Byte>): (r: seq<Seg>)
    requires |text| <= Capacity(segs) && seg < |segs| && offset + |digest| <= |segs[seg].bytes|
  {
    var written := Fill(segs, text);
    written[seg := Put(written[seg], offset, digest)]
  }

  lemma {:induction false} FillFull(segs: seq<Seg>, data: seq<Byte>)
    requires |data| <= Capacity(segs) && Full(segs)
    ensures |data| <= |Flat(segs)| && Flat(Fill(segs, data)) == Splice(Flat(segs), 0, data)
  {
    hide Flat;
    hide Fill;
    hide Splice;
    FullFlatLength(segs);
    if segs == [] {
      NothingFlat(data);
    } else {
      var n := Min(|data|, |segs[0].bytes|);
      var filled := Fill(segs, data);
      FillStep(segs, data);
      FillFull(segs[1..], data[n..]);
      assert filled[0] == Written(segs[0], data[..n]) && filled[1..] == Fill(segs[1..], data[n..]);
      FlatFirst(segs);
      FlatFirst(filled);
      SpliceFront(segs[0].bytes, Flat(segs[1..]), data, n);
      assert segs[0].bytes[..segs[0].len] == segs[0].bytes;
      assert filled[0].bytes[..filled[0].len] == filled[0].bytes;
    }
  }

  lemma NothingFlat(data: seq<Byte>)
    requires |data| <= Capacity([])
    ensures Flat([]) == [] && Flat(Fill([], data)) == Splice([], 0, data)
  {}

  lemma SpliceFront(a: seq<Byte>, b: seq<Byte>, data: seq<Byte>, n: nat)
    requires n == Min(|data|, |a|) && |data| - n <= |b|
    ensures (data[..n] + a[n..]) + Splice(b, 0, data[n..]) == Splice(a + b, 0, data)
  {}

  lemma FillChain(segs: seq<Seg>, n: nat, segLen: nat, data: seq<Byte>)
    requires Chain(segs, n, segLen) && |data| <= Capacity(segs)
    ensures Chain(Fill(segs, data), n, segLen)
  {}

  lemma ChainLength(segs: seq<Seg>, n: nat, segLen: nat)
    requires Chain(segs, n, segLen)
    ensures |Flat(segs)| == Capacity(segs) == n * segLen
  {
    FullFlatLength(segs);
    UniformCapacity(segs, segLen);
    assert segLen * n == n * segLen;
  }

  // Writing inside one segment is writing at one place of the flattened chain.
  lemma FlatPut(segs: seq<Seg>, n: nat, segLen: nat, seg: nat, offset: nat, data: seq<Byte>)
    requires Chain(segs, n, segLen) && seg < n && offset + |data| <= segLen
    ensures seg * segLen + offset + |data| <= |Flat(segs)|
    ensures Flat(segs[seg := Put(segs[seg], offset, data)]) == Splice(Flat(segs), seg * segLen + offset, data)
  {
    hide Flat;
    hide Splice;
    var put := segs[seg := Put(segs[seg], offset, data)];
    FlatAround(segs, seg);
    FlatAround(put, seg);
    FrontLength(segs, segLen, seg);
    assert put[..seg] == segs[..seg] && put[seg + 1..] == segs[seg + 1..];
    SpliceWithin(Flat(segs[..seg]), segs[seg].bytes, Flat(segs[seg + 1..]), offset, data);
  }

  lemma SpliceWithin(a: seq<Byte>, b: seq<Byte>, c: seq<Byte>, at: nat, data: seq<Byte>)
    requires at + |data| <= |b|
    ensures a + (Splice(b, at, data) + c) == Splice(a + (b + c), |a| + at, data)
  {}

  // The flattened chain once the device is done with it.
  lemma FlatProcessed(segs: seq<Seg>, n: nat, segLen: nat, text: seq<Byte>, seg: nat, offset: nat, digest: seq<Byte>)
    requires Chain(segs, n, segLen) && |text| <= n * segLen && seg < n && offset + |digest| <= segLen
    ensures |text| <= Capacity(segs) && |Flat(segs)| == n * segLen && seg * segLen + offset + |digest| <= n * segLen
    ensures Flat(Processed(segs, text, seg, offset, digest)) ==
      Splice(Splice(Flat(segs), 0, text), seg * segLen + offset, digest)
  {
    hide Flat;
    hide Fill;
    hide Splice;
    ChainLength(segs, n, segLen);
    FillFull(segs, text);
    FillChain(segs, n, segLen, text);
    FlatPut(Fill(segs, text), n, segLen, seg, offset, digest);
  }

  // An operation whose digest is checked, on a chain that holds message and
  // digest, with the digest placed where the walk places it.
  datatype Layout = Layout(o: Options, v: TestVector, nbSegs: nat, segLen: nat, seg: nat, offset: nat)

  ghost predicate Valid(l: Layout) {
    && 0 < l.segLen && l.o.digestSz <= l.segLen
    && l.o.testBufferSize + l.o.digestSz <= l.nbSegs * l.segLen
    && l.seg < l.nbSegs && l.offset + l.o.digestSz <= l.segLen
    && l.seg * l.segLen + l.offset == DigestAt(l.o.testBufferSize, l.o.digestSz, l.segLen)
    && l.o.testBufferSize <= l.seg * l.segLen + l.offset
    && l.o.testBufferSize <= |l.v.plaintext| && l.o.testBufferSize <= |l.v.ciphertext| && l.o.digestSz <= |l.v.digest|
    && ChecksOf(l.o).Some? && ChecksOf(l.o).value.digest
  }

  // The bytes of the chain, and where in them the digest starts.
  function Size(l: Layout): nat {
    l.nbSegs * l.segLen
  }

  function Place(l: Layout): nat {
    l.seg * l.segLen + l.offset
  }

  // The digest the test looks for.
  function Expected(l: Layout): (g: seq<Byte>)
    requires l.o.digestSz <= |l.v.digest|
    ensures |g| == l.o.digestSz
  {
    l.v.digest[..l.o.digestSz]
  }

  // The text the test looks for, if it looks for any.
  ghost predicate RightText(l: Layout, text: seq<Byte>)
    requires Valid(l)
  {
    |text| == l.o.testBufferSize && (ChecksOf(l.o).value.cipher ==> text == l.v.ciphertext[..l.o.testBufferSize])
  }

  ghost predicate Passes(data: seq<Byte>, o: Options, v: TestVector) {
    Comparable(data, o, v) && Good(data, o, v)
  }

  lemma Sizes(l: Layout)
    requires Valid(l)
    ensures l.o.testBufferSize + l.o.digestSz <= Size(l) && l.o.digestSz <= |l.v.digest|
    ensures l.o.testBufferSize <= Place(l) && Place(l) + l.o.digestSz <= Size(l)
  {
    assert (l.seg + 1) * l.segLen == l.seg * l.segLen + l.segLen;
    assert l.segLen * (l.seg + 1) == (l.seg + 1) * l.segLen && l.segLen * l.nbSegs == l.nbSegs * l.segLen;
    MulLe(l.segLen, l.seg + 1, l.nbSegs);
  }

  // With the right text in front, what decides are the bytes behind the message.
  lemma DigestDecides(l: Layout, data: seq<Byte>)
    requires Valid(l) && |data| == Size(l) && RightText(l, data[..l.o.testBufferSize])
    ensures l.o.testBufferSize + l.o.digestSz <= |data|
    ensures Passes(data, l.o, l.v) <==>
      data[l.o.testBufferSize..l.o.testBufferSize + l.o.digestSz] == Expected(l)
  {
    Sizes(l);
    SplitPrefix(data, l.o.testBufferSize, l.o.digestSz, l.v);
    assert data[0..l.o.testBufferSize] == data[..l.o.testBufferSize];
  }

  // Whether the digest is put behind the message.
  ghost predicate Fits(l: Layout)
    requires 0 < l.segLen
  {
    l.o.testBufferSize % l.segLen + l.o.digestSz <= l.segLen
  }

  // How many bytes behind the message are looked at, though they are not part
  // of the digest.
  function Stale(l: Layout): (c: nat)
    requires l.o.testBufferSize <= Place(l)
    ensures c <= l.o.digestSz && l.o.testBufferSize + c <= Place(l)
  {
    Min(l.o.digestSz, Place(l) - l.o.testBufferSize)
  }

  lemma StaleCount(l: Layout)
    requires Valid(l)
    ensures l.o.testBufferSize <= Place(l) && (Fits(l) <==> Stale(l) == 0)
  {
    PushedBy(l.o.testBufferSize, l.o.digestSz, l.segLen);
  }

  lemma PushedBy(n: nat, digestSz: nat, segLen: nat)
    requires 0 < segLen && digestSz <= segLen
    ensures n % segLen + digestSz <= segLen ==> DigestAt(n, digestSz, segLen) == n
    ensures segLen < n % segLen + digestSz ==> n < DigestAt(n, digestSz, segLen) && 0 < digestSz
  {
    var q, r := n / segLen, n % segLen;
    assert n == segLen * q + r && (q + 1) * segLen == segLen * q + segLen;
  }

  // The operation as the device leaves it passes.
  ghost predicate Accepts(l: Layout, segs: seq<Seg>, text: seq<Byte>, digest: seq<Byte>)
    requires Valid(l) && Chain(segs, l.nbSegs, l.segLen) && |text| == l.o.testBufferSize && |digest| == l.o.digestSz
  {
    ChainLength(segs, l.nbSegs, l.segLen);
    Passes(Flat(Processed(segs, text, l.seg, l.offset, digest)), l.o, l.v)
  }

  // What the check makes of a chain the device is done with, whatever else it
  // holds and whatever digest was written: it looks at bytes the device did not
  // write, and compares the written digest with the wrong part, exactly when
  // the digest was pushed.
  lemma WhatIsChecked(l: Layout, segs: seq<Seg>, text: seq<Byte>, digest: seq<Byte>)
    requires Valid(l) && Chain(segs, l.nbSegs, l.segLen) && RightText(l, text) && |digest| == l.o.digestSz
    ensures |Flat(segs)| == Size(l) && l.o.testBufferSize <= Place(l)
    ensures l.o.testBufferSize + l.o.digestSz <= Size(l)
    ensures
      var n, c := l.o.testBufferSize, Stale(l);
      Accepts(l, segs, text, digest) <==>
        Flat(segs)[n..n + c] == Expected(l)[..c] && digest[..l.o.digestSz - c] == Expected(l)[c..]
  {
    hide Flat;
    hide Processed;
    hide Splice;
    hide Passes;
    hide Size;
    hide Place;
    hide Chain;
    hide Good;
    Sizes(l);
    AcceptsWhat(l, segs, text, digest);
    hide Accepts;
    hide Valid;
    var n, k, c, x := l.o.testBufferSize, l.o.digestSz, Stale(l), Flat(segs);
    Spliced(x, text, Place(l), digest);
    DigestDecides(l, Splice(Splice(x, 0, text), Place(l), digest));
    Halves(x[n..n + c], digest[..k - c], Expected(l));
  }

  lemma AcceptsWhat(l: Layout, segs: seq<Seg>, text: seq<Byte>, digest: seq<Byte>)
    requires Valid(l) && Chain(segs, l.nbSegs, l.segLen) && |text| == l.o.testBufferSize && |digest| == l.o.digestSz
    ensures |Flat(segs)| == Size(l) && |text| <= Size(l) && Place(l) + |digest| <= Size(l)
    ensures Accepts(l, segs, text, digest) <==>
      Passes(Splice(Splice(Flat(segs), 0, text), Place(l), digest), l.o, l.v)
  {
    hide Flat;
    hide Processed;
    hide Splice;
    hide Passes;
    Sizes(l);
    FlatProcessed(segs, l.nbSegs, l.segLen, text, l.seg, l.offset, digest);
  }

  lemma Halves(a: seq<Byte>, b: seq<Byte>, g: seq<Byte>)
    requires |a| + |b| == |g|
    ensures a + b == g <==> a == g[..|a|] && b == g[|a|..]
  {
    if a + b == g {
      assert g[..|a|] == a && g[|a|..] == b;
    }
  }

  lemma Spliced(x: seq<Byte>, text: seq<Byte>, pos: nat, digest: seq<Byte>)
    requires |text| <= pos && pos + |digest| <= |x|
    ensures
      var data, n, k := Splice(Splice(x, 0, text), pos, digest), |text|, |digest|;
      var c := Min(k, pos - n);
      |data| == |x| && data[..n] == text && data[n..n + k] == x[n..n + c] + digest[..k - c]
  {}

  // A device that does everything right passes, whatever the rest of the chain
  // holds, exactly when the digest fits behind the message in its segment.
  lemma CorrectDevicePasses(l: Layout, text: seq<Byte>)
    requires Valid(l) && RightText(l, text)
    ensures
      (forall segs :: Chain(segs, l.nbSegs, l.segLen) ==> Accepts(l, segs, text, Expected(l)))
      <==> l.o.testBufferSize % l.segLen + l.o.digestSz <= l.segLen
  {
    hide Accepts;
    hide Chain;
    hide Flat;
    StaleCount(l);
    if Fits(l) {
      forall segs | Chain(segs, l.nbSegs, l.segLen) ensures Accepts(l, segs, text, Expected(l)) {
        WhatIsChecked(l, segs, text, Expected(l));
      }
    } else {
      var segs := WrongBytes(l);
      WhatIsChecked(l, segs, text, Expected(l));
    }
  }

  // A wrong digest never passes exactly when the digest fits: if not, the right
  // bytes may have been left behind the message.
  lemma WrongDigestFails(l: Layout, text: seq<Byte>)
    requires Valid(l) && RightText(l, text)
    ensures
      (forall segs, digest :: Chain(segs, l.nbSegs, l.segLen) && |digest| == l.o.digestSz && digest != Expected(l) ==>
         !Accepts(l, segs, text, digest))
      <==> l.o.testBufferSize % l.segLen + l.o.digestSz <= l.segLen
  {
    hide Accepts;
    hide Chain;
    hide Flat;
    StaleCount(l);
    if Fits(l) {
      forall segs, digest | Chain(segs, l.nbSegs, l.segLen) && |digest| == l.o.digestSz && digest != Expected(l)
        ensures !Accepts(l, segs, text, digest)
      {
        WhatIsChecked(l, segs, text, digest);
      }
    } else {
      var segs, digest := RightBytes(l);
      WhatIsChecked(l, segs, text, digest);
    }
  }

  // Bytes behind the message that are not those of the digest.
  lemma WrongBytes(l: Layout) returns (segs: seq<Seg>)
    requires Valid(l) && l.o.testBufferSize <= Place(l) && 0 < Stale(l)
    ensures Chain(segs, l.nbSegs, l.segLen)
    ensures
      var n, c := l.o.testBufferSize, Stale(l);
      n + c <= |Flat(segs)| && Flat(segs)[n..n + c] != Expected(l)[..c]
  {
    hide Flat;
    hide Chain;
    Sizes(l);
    var n, c, g := l.o.testBufferSize, Stale(l), Expected(l);
    var stale := seq(Size(l), i => g[0] + 1);
    segs := Cut(stale, l.nbSegs, l.segLen);
    CutFlat(stale, l.nbSegs, l.segLen);
    assert stale[n..n + c][0] != g[..c][0];
  }

  // A wrong digest, and bytes behind the message with which it passes.
  lemma RightBytes(l: Layout) returns (segs: seq<Seg>, digest: seq<Byte>)
    requires Valid(l) && l.o.testBufferSize <= Place(l) && 0 < Stale(l)
    ensures Chain(segs, l.nbSegs, l.segLen) && |digest| == l.o.digestSz && digest != Expected(l)
    ensures
      var n, c := l.o.testBufferSize, Stale(l);
      && n + c <= |Flat(segs)| && Flat(segs)[n..n + c] == Expected(l)[..c]
      && digest[..l.o.digestSz - c] == Expected(l)[c..]
  {
    hide Flat;
    hide Chain;
    Sizes(l);
    var n, k, c, g := l.o.testBufferSize, l.o.digestSz, Stale(l), Expected(l);
    var stale := Splice(seq(Size(l), i => 0), n, g[..c]);
    segs := Cut(stale, l.nbSegs, l.segLen);
    CutFlat(stale, l.nbSegs, l.segLen);
    digest := g[c..] + seq(c, i => g[k - 1] + 1);
    assert digest[k - 1] != g[k - 1];
  }

  // A chain with given content.
  function Cut(data: seq<Byte>, n: nat, segLen: nat): (segs: seq<Seg>)
    requires |data| == n * segLen
    decreases n
  {
    if n == 0 then []
    else
      assert n * segLen == segLen + (n - 1) * segLen;
      [Segment(data[..segLen], segLen)] + Cut(data[segLen..], n - 1, segLen)
  }

  lemma {:induction false} CutFlat(data: seq<Byte>, n: nat, segLen: nat)
    requires |data| == n * segLen
    ensures Chain(Cut(data, n, segLen), n, segLen) && Flat(Cut(data, n, segLen)) == data
    decreases n
  {
    if n != 0 {
      assert n * segLen == segLen + (n - 1) * segLen;
      CutFlat(data[segLen..], n - 1, segLen);
      assert Cut(data, n, segLen)[1..] == Cut(data[segLen..], n - 1, segLen);
    }
  }

  // The chain of an operation once cperf_mbuf_set has written the test data.
  function Ready(segs: seq<Seg>, testData: seq<Byte>): (r: seq<Seg>)
    requires |testData| <= Capacity(segs)
  {
    Fill(segs, testData)
  }

  lemma ReadyChain(l: Layout, segs: seq<Seg>, testData: seq<Byte>)
    requires Valid(l) && Chain(segs, l.nbSegs, l.segLen) && |testData| == l.o.testBufferSize
    ensures |testData| <= Capacity(segs) && Chain(Ready(segs, testData), l.nbSegs, l.segLen)
    ensures |Flat(Ready(segs, testData))| == |Flat(segs)| == Size(l)
    ensures forall i :: |testData| <= i < |Flat(segs)| ==> Flat(Ready(segs, testData))[i] == Flat(segs)[i]
  {
    hide Flat;
    hide Fill;
    Sizes(l);
    ChainLength(segs, l.nbSegs, l.segLen);
    FillFull(segs, testData);
    FillChain(segs, l.nbSegs, l.segLen, testData);
  }

  // The bytes left behind the message happen to be the first of the digest.
  ghost predicate LeftBehind(l: Layout, segs: seq<Seg>)
    requires Valid(l) && Chain(segs, l.nbSegs, l.segLen)
  {
    Sizes(l);
    ChainLength(segs, l.nbSegs, l.segLen);
    var n, c := l.o.testBufferSize, Stale(l);
    Flat(segs)[n..n + c] == Expected(l)[..c]
  }

  lemma ReadyAccepted(l: Layout, segs: seq<Seg>, testData: seq<Byte>, text: seq<Byte>)
    requires Valid(l) && Chain(segs, l.nbSegs, l.segLen) && |testData| == l.o.testBufferSize && RightText(l, text)
    ensures |testData| <= Capacity(segs) && Chain(Ready(segs, testData), l.nbSegs, l.segLen)
    ensures Fits(l) ==> Accepts(l, Ready(segs, testData), text, Expected(l))
    ensures !LeftBehind(l, segs) ==> !Accepts(l, Ready(segs, testData), text, Expected(l))
  {
    hide Flat;
    hide Ready;
    hide Accepts;
    ReadyChain(l, segs, testData);
    StaleCount(l);
    WhatIsChecked(l, Ready(segs, testData), text, Expected(l));
    hide Valid;
    hide Chain;
    var n, c := l.o.testBufferSize, Stale(l);
    assert Flat(Ready(segs, testData))[n..n + c] == Flat(segs)[n..n + c];
  }

  // What a correct device hands back for an operation whose chain held `segs`
  // before the set-up.
  function Answer(l: Layout, segs: seq<Seg>, testData: seq<Byte>, text: seq<Byte>): (d: Done)
    requires Valid(l) && Chain(segs, l.nbSegs, l.segLen)
    requires |testData| == l.o.testBufferSize == |text|
    ensures d.success && Used(d) == d.segs
  {
    ReadyChain(l, segs, testData);
    ChainLength(Ready(segs, testData), l.nbSegs, l.segLen);
    Sizes(l);
    var out := Processed(Ready(segs, testData), text, l.seg, l.offset, Expected(l));
    Done(true, out, |out|)
  }

  lemma AnswerAccepted(l: Layout, segs: seq<Seg>, testData: seq<Byte>, text: seq<Byte>)
    requires Valid(l) && Chain(segs, l.nbSegs, l.segLen)
    requires |testData| == l.o.testBufferSize && RightText(l, text)
    ensures
      var d := Answer(l, segs, testData, text);
      && Comparable(Flat(Used(d)), l.o, l.v)
      && (Fits(l) ==> Good(Flat(Used(d)), l.o, l.v))
      && (!LeftBehind(l, segs) ==> !Good(Flat(Used(d)), l.o, l.v))
  {
    hide Flat;
    hide Fill;
    hide LeftBehind;
    hide Chain;
    hide Splice;
    hide RightText;
    ReadyAccepted(l, segs, testData, text);
    var ready := Ready(segs, testData);
    TextLength(l, text);
    AcceptsWhat(l, ready, text, Expected(l));
    FlatLength(l, ready, text);
    Sizes(l);
  }

  lemma TextLength(l: Layout, text: seq<Byte>)
    requires Valid(l) && RightText(l, text)
    ensures |text| == l.o.testBufferSize
  {}

  lemma FlatLength(l: Layout, segs: seq<Seg>, text: seq<Byte>)
    requires Valid(l) && Chain(segs, l.nbSegs, l.segLen) && |text| == l.o.testBufferSize
    ensures |text| <= Capacity(segs) && l.seg < |segs| && l.offset + l.o.digestSz <= |segs[l.seg].bytes|
    ensures |Flat(Processed(segs, text, l.seg, l.offset, Expected(l)))| == Size(l)
  {
    hide Flat;
    hide Fill;
    hide Processed;
    Sizes(l);
    FlatProcessed(segs, l.nbSegs, l.segLen, text, l.seg, l.offset, Expected(l));
  }

  // All operations bad: all of them are counted.
  lemma {:induction false} AllFail(outcome: nat -> Done, o: Options, v: TestVector, n: nat)
    requires forall i :: Comparable(Flat(Used(outcome(i))), o, v)
    requires forall i :: 0 <= i < n ==> !Good(Flat(Used(outcome(i))), o, v)
    ensures Failures(outcome, o, v, 0, n) == n
    decreases n
  {
    hide Good;
    hide Flat;
    hide Used;
    if n != 0 {
      AllFail(outcome, o, v, n - 1);
    }
  }

  // The verify test on a device that does everything right; contents(i) is what
  // the chain of the i-th operation handed back held before its set-up. No
  // operation fails if the digest fits behind the message; if it does not, all
  // of them fail, unless the bytes left behind a message happen to be those of
  // the digest.
  method RunCorrectDevice(pool: OpPool, dev: Device, totalOps: nat, maxBurstSize: nat, o: Options, v: TestVector,
                          segLen: nat, testData: seq<Byte>, text: seq<Byte>, contents: nat -> seq<Seg>)
    returns (ret: int, opsFailed: nat, l: Layout, ghost rs: seq<Request>)
    requires Distinct(multiset(pool.free)) && dev.queue == [] && 0 < maxBurstSize
    requires 0 < segLen <= 0xFFFF && o.digestSz <= segLen && 0 < o.testBufferSize
    requires ChecksOf(o).Some? && ChecksOf(o).value.digest
    requires o.testBufferSize <= |v.plaintext| && o.testBufferSize <= |v.ciphertext| && o.digestSz <= |v.digest|
    requires |testData| == |text| == o.testBufferSize
    requires ChecksOf(o).value.cipher ==> text == v.ciphertext[..o.testBufferSize]
    requires forall i :: Chain(contents(i), SegmentsNb(o.testBufferSize, o.digestSz, segLen), segLen)
    modifies pool, dev
    ensures l.o == o && l.v == v && l.segLen == segLen && Valid(l)
    ensures l.nbSegs == SegmentsNb(o.testBufferSize, o.digestSz, segLen)
    ensures ret == 0 || (ret == -1 && old(|pool.free|) < totalOps)
    ensures ret == 0 && o.testBufferSize % segLen + o.digestSz <= segLen ==> opsFailed == 0
    ensures ret == 0 && (forall i :: !LeftBehind(l, contents(i))) ==> opsFailed == totalOps
    ensures ret == 0 ==> Went(old(dev.History()), dev.History(), rs) && Complete(rs, maxBurstSize, totalOps)
  {
    hide Chain;
    hide Distinct;
    hide Failures;
    hide LeftBehind;
    hide Good;
    hide Comparable;
    hide Answer;
    hide Went;
    hide Complete;
    hide Device.History;
    rs := [];
    var n := SegmentsNb(o.testBufferSize, o.digestSz, segLen);
    SegmentsHold(o.testBufferSize, o.digestSz, segLen);
    var seg, offset := PlaceDigest(n, segLen, o.testBufferSize, o.digestSz);
    l := Layout(o, v, n, segLen, seg, offset);
    assert Valid(l) && RightText(l, text);
    hide SegmentsNb;
    hide RightText;
    forall i ensures
      var d := Answer(l, contents(i), testData, text);
      && Comparable(Flat(Used(d)), l.o, l.v)
      && (Fits(l) ==> Good(Flat(Used(d)), l.o, l.v))
      && (!LeftBehind(l, contents(i)) ==> !Good(Flat(Used(d)), l.o, l.v))
    {
      AnswerAccepted(l, contents(i), testData, text);
    }
    hide Valid;
    var outcome: nat -> Done := (i: nat) => Answer(l, contents(i), testData, text);
    ret, opsFailed, rs := Runner(pool, dev, totalOps, maxBurstSize, outcome, o, v);
    if Fits(l) {
      NoFailures(outcome, o, v, totalOps);
    }
    if forall i :: !LeftBehind(l, contents(i)) {
      AllFail(outcome, o, v, totalOps);
    }
  }

  // An authentication that generates a digest of 20 bytes for messages of 60,
  // in segments of 64.
  function Sixty(v: TestVector): Layout {
    Layout(Options(AuthOnly, true, true, 60, 20), v, SegmentsNb(60, 20, 64), 64, 1, 0)
  }

  ghost predicate Vector(v: TestVector) {
    |v.plaintext| == |v.ciphertext| == 60 && |v.digest| == 20
  }

  lemma SixtyValid(v: TestVector)
    requires Vector(v)
    ensures Valid(Sixty(v)) && Stale(Sixty(v)) == 4 && Size(Sixty(v)) == 128 && Expected(Sixty(v)) == v.digest
  {}

  // Such a test fails a device that does everything right, if its memory was
  // zero and the digest starts with another byte; and if the digest does start
  // with four zero bytes, it passes any device whose digest is the right one
  // shifted by four bytes, whatever comes behind.
  lemma CheckMisled(v: TestVector, segs: seq<Seg>, text: seq<Byte>, tail: seq<Byte>)
    requires Vector(v) && |text| == 60 && |tail| == 4
    requires Chain(segs, 2, 64) && Flat(segs) == seq(128, i => 0)
    ensures Sixty(v).nbSegs == 2 && Valid(Sixty(v))
    ensures v.digest[0] != 0 ==> !Accepts(Sixty(v), segs, text, v.digest)
    ensures v.digest[..4] == [0, 0, 0, 0] ==> Accepts(Sixty(v), segs, text, v.digest[4..] + tail)
  {
    hide Flat;
    hide Chain;
    hide Accepts;
    SixtyValid(v);
    var zeros: seq<Byte> := seq(128, i => 0);
    assert zeros[60..64] == [0, 0, 0, 0];
    WhatIsChecked(Sixty(v), segs, text, v.digest);
    WhatIsChecked(Sixty(v), segs, text, v.digest[4..] + tail);
    assert v.digest[..4][0] == v.digest[0];
    assert (v.digest[4..] + tail)[..16] == v.digest[4..];
  }
}
