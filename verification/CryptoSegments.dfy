// Test data and digest in the segment chain of a crypto operation.

module CryptoSegments {
  import opened Common
  import opened Mbuf

  // The headroom and tailroom a device asks for, 16 bits each.
  datatype Room = Room(head: nat, tail: nat)

  const MAX_DEVS: nat := 64

  // cperf_initialize_cryptodev makes room for what the devices ask for. The
  // segment size it starts from was compared with the digest before; each
  // device adds the room so far, so what is usable never gets less, and with
  // one device stays the same.
  method FitDevices(segmentSz: nat, needs: seq<Room>) returns (sz: nat, headroom: nat, tailroom: nat)
    requires segmentSz + MAX_DEVS * 0x1_FFFE <= 0xFFFF_FFFF && |needs| <= MAX_DEVS
    requires forall i :: 0 <= i < |needs| ==> needs[i].head <= 0xFFFF && needs[i].tail <= 0xFFFF
    ensures segmentSz + headroom + tailroom <= sz <= 0xFFFF_FFFF
    ensures |needs| == 1 ==> sz == segmentSz + headroom + tailroom
    ensures forall i :: 0 <= i < |needs| ==> needs[i].head <= headroom && needs[i].tail <= tailroom
  {
    sz, headroom, tailroom := segmentSz, 0, 0;
    for i := 0 to |needs|
      invariant headroom <= 0xFFFF && tailroom <= 0xFFFF
      invariant i == 0 ==> headroom == tailroom == 0 && sz == segmentSz
      invariant i == 1 ==> sz == segmentSz + headroom + tailroom
      invariant segmentSz + headroom + tailroom <= sz <= segmentSz + i * 0x1_FFFE
      invariant forall j :: 0 <= j < i ==> needs[j].head <= headroom && needs[j].tail <= tailroom
    {
      if headroom < needs[i].head {
        headroom := needs[i].head;
      }
      if tailroom < needs[i].tail {
        tailroom := needs[i].tail;
      }
      sz := sz + (headroom + tailroom);
    }
  }

  // The number of segments of `segLen` usable bytes that cperf_alloc_common_memory
  // chains for the largest buffer and its digest.
  function SegmentsNb(maxBufferSize: nat, digestSz: nat, segLen: nat): nat
    requires 0 < segLen
  {
    var maxSize := maxBufferSize + digestSz;
    if maxSize % segLen != 0 then maxSize / segLen + 1 else maxSize / segLen
  }

  // It holds them, and one segment fewer would not.
  lemma SegmentsHold(maxBufferSize: nat, digestSz: nat, segLen: nat)
    requires 0 < segLen
    ensures maxBufferSize + digestSz <= SegmentsNb(maxBufferSize, digestSz, segLen) * segLen
    ensures 0 < maxBufferSize + digestSz ==> 0 < SegmentsNb(maxBufferSize, digestSz, segLen)
    ensures 0 < maxBufferSize + digestSz ==>
      (SegmentsNb(maxBufferSize, digestSz, segLen) - 1) * segLen < maxBufferSize + digestSz
  {
    var s := maxBufferSize + digestSz;
    var q, r := s / segLen, s % segLen;
    assert s == segLen * q + r && segLen * q == q * segLen;
    assert (q + 1) * segLen == q * segLen + segLen && (q - 1) * segLen == q * segLen - segLen;
  }

  // (a - b) in 32 bits.
  function Sub32(a: nat, b: nat): nat {
    (a as int - b as int) % 0x1_0000_0000
  }

  // Where the digest of a message of n bytes starts, counted over the chain:
  // behind the message if it fits there in the same segment, and at the front
  // of the next segment if not.
  function DigestAt(n: nat, digestSz: nat, segLen: nat): (pos: nat)
    requires 0 < segLen
  {
    if n % segLen + digestSz <= segLen then n else (n / segLen + 1) * segLen
  }

  // The walk that places the digest of an in-place operation, over n segments
  // of data length segLen. It never steps past the last segment, and the digest
  // lies inside one segment.
  method PlaceDigest(n: nat, segLen: nat, testBufferSize: nat, digestSz: nat) returns (seg: nat, offset: nat)
    requires 0 < n && 0 < segLen <= 0xFFFF && digestSz <= segLen
    requires testBufferSize + digestSz <= n * segLen
    ensures seg < n && offset + digestSz <= segLen
    ensures seg * segLen + offset == DigestAt(testBufferSize, digestSz, segLen)
    ensures testBufferSize <= seg * segLen + offset
  {
    seg, offset := 0, testBufferSize;
    while seg + 1 < n && offset >= segLen
      invariant seg < n && seg * segLen + offset == testBufferSize
      invariant seg + 1 == n ==> offset + digestSz <= segLen
      decreases n - seg
    {
      offset := offset - segLen;
      seg := seg + 1;
      assert seg * segLen == (seg - 1) * segLen + segLen;
      assert seg + 1 == n ==> n * segLen == seg * segLen + segLen;
    }
    assert n == 1 ==> n * segLen == segLen;
    WalkEnds(n, segLen, testBufferSize, digestSz, seg, offset);
    if Sub32(segLen, offset) < digestSz {
      seg, offset := seg + 1, 0;
    }
  }

  lemma WalkEnds(n: nat, segLen: nat, testBufferSize: nat, digestSz: nat, seg: nat, offset: nat)
    requires seg < n && 0 < segLen <= 0xFFFF && digestSz <= segLen
    requires testBufferSize + digestSz <= n * segLen && seg * segLen + offset == testBufferSize
    requires seg + 1 < n ==> offset < segLen
    requires seg + 1 == n ==> offset + digestSz <= segLen
    ensures offset <= segLen && Sub32(segLen, offset) == segLen - offset
    ensures offset + digestSz <= segLen ==> DigestAt(testBufferSize, digestSz, segLen) == testBufferSize
    ensures segLen < offset + digestSz ==>
      seg + 1 < n && DigestAt(testBufferSize, digestSz, segLen) == (seg + 1) * segLen > testBufferSize
  {
    assert seg * segLen == segLen * seg && (seg + 1) * segLen == seg * segLen + segLen;
    if offset < segLen {
      DivUnique(testBufferSize, segLen, seg, offset);
    } else {
      DivUnique(testBufferSize, segLen, seg + 1, 0);
    }
  }

  lemma {:induction false} FillNothing(segs: seq<Seg>)
    ensures Fill(segs, []) == segs
  {
    if segs != [] {
      FillNothing(segs[1..]);
      var s := segs[0];
      assert [] + s.bytes[0..] == s.bytes;
      assert Fill(segs, [])[0] == s && Fill(segs, [])[1..] == segs[1..];
    }
  }

  // Segment s once `data` is copied to its front.
  function Written(s: Seg, data: seq<Byte>): (r: Seg)
    requires |data| <= |s.bytes|
  {
    Segment(data + s.bytes[|data|..], s.len)
  }

  // `done` and what is still to be written make up the filled chain.
  ghost predicate Writing(segs: seq<Seg>, data: seq<Byte>, done: seq<Seg>, pos: nat) {
    && |done| <= |segs| && pos <= |data| <= Capacity(segs) && |data| - pos <= Capacity(segs[|done|..])
    && done + Fill(segs[|done|..], data[pos..]) == Fill(segs, data)
  }

  lemma FillStep(segs: seq<Seg>, data: seq<Byte>)
    requires segs != [] && |data| <= Capacity(segs)
    ensures
      var n := Min(|data|, |segs[0].bytes|);
      && |data| - n <= Capacity(segs[1..])
      && Fill(segs, data) == [Written(segs[0], data[..n])] + Fill(segs[1..], data[n..])
  {}

  lemma WritingStep(segs: seq<Seg>, data: seq<Byte>, done: seq<Seg>, pos: nat)
    requires Writing(segs, data, done, pos) && |done| < |segs|
    ensures
      var i := |done|;
      var n := Min(|data| - pos, |segs[i].bytes|);
      Writing(segs, data, done + [Written(segs[i], data[pos..pos + n])], pos + n)
  {
    hide Fill;
    hide Written;
    hide Capacity;
    var i := |done|;
    var n := Min(|data| - pos, |segs[i].bytes|);
    FillOne(segs, data, i, pos, n);
    ConcatAssociates(done, [Written(segs[i], data[pos..pos + n])], Fill(segs[i + 1..], data[pos + n..]));
  }

  lemma FillOne(segs: seq<Seg>, data: seq<Byte>, i: nat, pos: nat, n: nat)
    requires i < |segs| && pos <= |data| && |data| - pos <= Capacity(segs[i..])
    requires n == Min(|data| - pos, |segs[i].bytes|)
    ensures |data| - pos - n <= Capacity(segs[i + 1..])
    ensures Fill(segs[i..], data[pos..]) ==
      [Written(segs[i], data[pos..pos + n])] + Fill(segs[i + 1..], data[pos + n..])
  {
    hide Fill;
    hide Written;
    hide Capacity;
    FillStep(segs[i..], data[pos..]);
    Tails(segs, i, 1);
    Tails(data, pos, n);
  }

  lemma Tails<T>(s: seq<T>, i: nat, n: nat)
    requires i + n <= |s|
    ensures s[i..][n..] == s[i + n..] && s[i..][..n] == s[i..i + n]
    ensures 0 < n ==> s[i..][0] == s[i]
  {}

  lemma WritingEnds(segs: seq<Seg>, data: seq<Byte>, done: seq<Seg>)
    requires Writing(segs, data, done, |data|)
    ensures done + segs[|done|..] == Fill(segs, data)
  {
    FillNothing(segs[|done|..]);
    assert data[|data|..] == [];
  }

  lemma Replaced(segs: seq<Seg>, done: seq<Seg>, s: Seg)
    requires |done| < |segs|
    ensures (done + segs[|done|..])[|done| := s] == (done + [s]) + segs[|done| + 1..]
  {}

  // cperf_mbuf_set: the chain receives exactly the first max_buffer_size bytes
  // of the test data, front to back, without stepping past its end.
  method MbufSet(segs: seq<Seg>, segLen: nat, maxBufferSize: nat, testData: seq<Byte>) returns (r: seq<Seg>)
    requires 0 < segLen && Uniform(segs, segLen) && maxBufferSize <= Capacity(segs) && maxBufferSize <= |testData|
    ensures r == Fill(segs, testData[..maxBufferSize])
  {
    hide Writing;
    hide Fill;
    ghost var data := testData[..maxBufferSize];
    r := segs;
    var remaining: nat, i: nat, pos: nat := maxBufferSize, 0, 0;
    ghost var done: seq<Seg> := [];
    WritingStarts(segs, data);
    while 0 < remaining
      invariant i == |done| <= |segs| && pos + remaining == maxBufferSize
      invariant r == done + segs[i..]
      invariant Writing(segs, data, done, pos)
      decreases remaining
    {
      WritingRoom(segs, data, done, pos);
      WritingStep(segs, data, done, pos);
      assert r[i] == segs[i];
      if remaining <= segLen {
        assert testData[pos..pos + remaining] == data[pos..pos + remaining];
        Replaced(segs, done, Written(segs[i], testData[pos..pos + remaining]));
        r := r[i := Written(r[i], testData[pos..pos + remaining])];
        done := done + [r[i]];
        WritingEnds(segs, data, done);
        return;
      }
      assert testData[pos..pos + segLen] == data[pos..pos + segLen];
      Replaced(segs, done, Written(segs[i], testData[pos..pos + segLen]));
      r := r[i := Written(r[i], testData[pos..pos + segLen])];
      done := done + [r[i]];
      remaining, pos, i := remaining - segLen, pos + segLen, i + 1;
    }
    WritingEnds(segs, data, done);
  }

  lemma WritingStarts(segs: seq<Seg>, data: seq<Byte>)
    requires |data| <= Capacity(segs)
    ensures Writing(segs, data, [], 0)
  {
    assert segs[0..] == segs && data[0..] == data;
  }

  lemma WritingRoom(segs: seq<Seg>, data: seq<Byte>, done: seq<Seg>, pos: nat)
    requires Writing(segs, data, done, pos) && pos < |data|
    ensures |done| < |segs|
  {}

  // The digest of segment `seg`, seen in the flattened chain.
  lemma FlatAt(segs: seq<Seg>, segLen: nat, seg: nat, offset: nat, n: nat)
    requires Full(segs) && Uniform(segs, segLen) && seg < |segs| && offset + n <= segLen
    ensures seg * segLen + offset + n <= |Flat(segs)|
    ensures Flat(segs)[seg * segLen + offset..seg * segLen + offset + n] == segs[seg].bytes[offset..offset + n]
  {
    hide Flat;
    FlatAround(segs, seg);
    FrontLength(segs, segLen, seg);
    Within(Flat(segs[..seg]), segs[seg].bytes, Flat(segs[seg + 1..]), offset, n);
  }

  lemma FrontLength(segs: seq<Seg>, segLen: nat, seg: nat)
    requires Full(segs) && Uniform(segs, segLen) && seg <= |segs|
    ensures |Flat(segs[..seg])| == seg * segLen
  {
    hide Flat;
    FullFlatLength(segs[..seg]);
    UniformCapacity(segs[..seg], segLen);
    assert segLen * seg == seg * segLen;
  }

  lemma FlatAround(segs: seq<Seg>, seg: nat)
    requires seg < |segs| && segs[seg].len == |segs[seg].bytes|
    ensures Flat(segs) == Flat(segs[..seg]) + (segs[seg].bytes + Flat(segs[seg + 1..]))
  {
    hide Flat;
    var back := segs[seg..];
    assert segs == segs[..seg] + back && back[0] == segs[seg] && back[1..] == segs[seg + 1..];
    FlatFirst(back);
    FlatConcat(segs[..seg], back);
    assert segs[seg].bytes[..segs[seg].len] == segs[seg].bytes;
  }

  lemma FlatFirst(segs: seq<Seg>)
    requires segs != []
    ensures Flat(segs) == segs[0].bytes[..segs[0].len] + Flat(segs[1..])
  {}

  lemma Within(a: seq<Byte>, b: seq<Byte>, c: seq<Byte>, p: nat, n: nat)
    requires p + n <= |b|
    ensures (a + (b + c))[|a| + p..|a| + p + n] == b[p..p + n]
  {}
}
