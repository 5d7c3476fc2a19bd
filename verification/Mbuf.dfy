// Packet buffers: a chain of segments, each with its own storage and a data
// length, and a packet length kept in the first one. These are the fields the
// compression benchmark rewrites between one operation and the next.

module Mbuf {
  import opened Common

  // `bytes` is the storage from data_off to the end of the buffer, `len` is data_len.
  datatype Segment = Segment(bytes: seq<Byte>, len: nat)

  type Seg = s: Segment | s.len <= |s.bytes| witness Segment([], 0)

  datatype Mbuf = Mbuf(segs: seq<Seg>, pktLen: nat)

  // The data of a chain, read through the data length of every segment.
  function Flat(segs: seq<Seg>): seq<Byte> {
    if segs == [] then [] else segs[0].bytes[..segs[0].len] + Flat(segs[1..])
  }

  function Capacity(segs: seq<Seg>): nat {
    if segs == [] then 0 else |segs[0].bytes| + Capacity(segs[1..])
  }

  ghost predicate Full(segs: seq<Seg>) {
    forall i :: 0 <= i < |segs| ==> segs[i].len == |segs[i].bytes|
  }

  // Every segment has room for exactly `room` bytes.
  ghost predicate Uniform(segs: seq<Seg>, room: nat) {
    forall i :: 0 <= i < |segs| ==> |segs[i].bytes| == room
  }

  ghost predicate Readable(m: Mbuf) {
    m.segs != [] && m.pktLen <= |Flat(m.segs)|
  }

  // The packet: what a reader that stops at pkt_len sees.
  ghost function Payload(m: Mbuf): (d: seq<Byte>)
    requires Readable(m)
    ensures |d| == m.pktLen
  {
    Flat(m.segs)[..m.pktLen]
  }

  lemma {:induction false} FullFlatLength(segs: seq<Seg>)
    requires Full(segs)
    ensures |Flat(segs)| == Capacity(segs)
  {
    if segs != [] {
      FullFlatLength(segs[1..]);
    }
  }

  lemma {:induction false} UniformCapacity(segs: seq<Seg>, room: nat)
    requires Uniform(segs, room)
    ensures Capacity(segs) == room * |segs|
  {
    if segs != [] {
      UniformCapacity(segs[1..], room);
      assert room * |segs| == room + room * (|segs| - 1);
    }
  }

  lemma {:induction false} FlatConcat(a: seq<Seg>, b: seq<Seg>)
    ensures Flat(a + b) == Flat(a) + Flat(b)
    ensures Capacity(a + b) == Capacity(a) + Capacity(b)
  {
    if a == [] {
      assert a + b == b;
    } else {
      assert (a + b)[1..] == a[1..] + b;
      FlatConcat(a[1..], b);
    }
  }

  lemma ReadStep(segs: seq<Seg>, i: nat, remaining: nat)
    requires i < |segs| && remaining <= |Flat(segs[i..])|
    ensures
      var n := Min(segs[i].len, remaining);
      && remaining - n <= |Flat(segs[i + 1..])|
      && Flat(segs[i..])[..remaining] == segs[i].bytes[..n] + Flat(segs[i + 1..])[..remaining - n]
  {
    assert segs[i..][1..] == segs[i + 1..];
    var head, rest := segs[i].bytes[..segs[i].len], Flat(segs[i + 1..]);
    assert Flat(segs[i..]) == head + rest;
    if segs[i].len <= remaining {
      assert (head + rest)[..remaining] == head + rest[..remaining - segs[i].len];
    } else {
      assert (head + rest)[..remaining] == head[..remaining] + rest[..0];
    }
  }

  // rte_memcpy of some bytes into a buffer.
  method Memcpy(a: array<Byte>, at: nat, data: seq<Byte>)
    requires at + |data| <= a.Length
    modifies a
    ensures a[..at + |data|] == old(a[..at]) + data
  {
    forall i | 0 <= i < |data| {
      a[at + i] := data[i];
    }
  }

  // rte_pktmbuf_read at offset 0: contiguous data is read in place, data past
  // the packet length is refused, anything else is gathered segment by segment.
  method Read(m: Mbuf, length: nat) returns (r: Option<seq<Byte>>)
    requires Readable(m)
    ensures r.Some? <==> length <= Max(m.pktLen, m.segs[0].len)
    ensures r.Some? ==> length <= |Flat(m.segs)| && r.value == Flat(m.segs)[..length]
  {
    if length <= m.segs[0].len {
      return Some(m.segs[0].bytes[..length]);
    }
    if length > m.pktLen {
      return None;
    }
    var buf: seq<Byte>, remaining: nat, i := [], length, 0;
    while 0 < remaining
      invariant 0 <= i <= |m.segs|
      invariant |buf| + remaining == length
      invariant 0 <= remaining <= |Flat(m.segs[i..])|
      invariant buf + Flat(m.segs[i..])[..remaining] == Flat(m.segs)[..length]
      decreases |m.segs| - i
    {
      var seg := m.segs[i];
      var n := Min(seg.len, remaining);
      ReadStep(m.segs, i, remaining);
      ConcatAssociates(buf, seg.bytes[..n], Flat(m.segs[i + 1..])[..remaining - n]);
      buf := buf + seg.bytes[..n];
      remaining := remaining - n;
      i := i + 1;
    }
    r := Some(buf);
  }

  // m->pkt_len = out_seg_sz * m->nb_segs, and every data length up to the end
  // of its storage.
  method ResetLengths(m: Mbuf, outSegSz: nat) returns (r: Mbuf)
    ensures r.pktLen == outSegSz * |m.segs|
    ensures |r.segs| == |m.segs| && Full(r.segs)
    ensures forall i :: 0 <= i < |m.segs| ==> r.segs[i].bytes == m.segs[i].bytes
  {
    var segs := m.segs;
    for i := 0 to |segs|
      invariant |segs| == |m.segs|
      invariant forall j :: 0 <= j < |segs| ==> segs[j].bytes == m.segs[j].bytes
      invariant forall j :: 0 <= j < i ==> segs[j].len == |segs[j].bytes|
    {
      segs := segs[i := segs[i].(len := |segs[i].bytes|)];
    }
    r := Mbuf(segs, outSegSz * |segs|);
  }

  // What the device leaves in a chain it writes `data` to, front to back.
  function Fill(segs: seq<Seg>, data: seq<Byte>): (r: seq<Seg>)
    requires |data| <= Capacity(segs)
    ensures |r| == |segs|
    ensures forall i :: 0 <= i < |segs| ==> |r[i].bytes| == |segs[i].bytes| && r[i].len == segs[i].len
  {
    if segs == [] then []
    else
      var n := Min(|data|, |segs[0].bytes|);
      [Segment(data[..n] + segs[0].bytes[n..], segs[0].len)] + Fill(segs[1..], data[n..])
  }

  lemma {:induction false} FillFlat(segs: seq<Seg>, data: seq<Byte>)
    requires |data| <= Capacity(segs) && Full(segs)
    ensures |data| <= |Flat(Fill(segs, data))|
    ensures Flat(Fill(segs, data))[..|data|] == data
  {
    if segs != [] {
      var n := Min(|data|, |segs[0].bytes|);
      FillFlat(segs[1..], data[n..]);
      var filled := Fill(segs, data);
      assert filled[1..] == Fill(segs[1..], data[n..]);
      assert data == data[..n] + data[n..];
    }
  }

  // The length fix-up after a completed operation: packet length `produced`,
  // and data lengths that add up to it over the leading segments. Segments
  // past the produced data keep the length they had.
  method FixLengths(m: Mbuf, produced: nat, outSegSz: nat) returns (r: Mbuf)
    requires Full(m.segs) && Uniform(m.segs, outSegSz) && produced <= Capacity(m.segs)
    requires m.segs != [] && 0 < outSegSz
    ensures Readable(r) && r.pktLen == produced
    ensures |Flat(m.segs)| == Capacity(m.segs) && Payload(r) == Flat(m.segs)[..produced]
    ensures |r.segs| == |m.segs| && Uniform(r.segs, outSegSz)
    ensures exists k :: 0 <= k <= |r.segs| && |Flat(r.segs[..k])| == produced && r.segs[k..] == m.segs[k..]
  {
    hide Flat;
    hide Capacity;
    hide CutTo;
    var segs: seq<Seg>, remaining: nat, i := m.segs, produced, 0;
    CutNothing(m.segs, produced);
    while 0 < remaining
      invariant remaining <= produced && i <= |m.segs| == |segs| && Uniform(segs, outSegSz)
      invariant 0 < remaining ==> segs == m.segs
      invariant CutTo(m.segs, segs, i, produced - remaining, remaining)
      decreases |segs| - i
    {
      var n := Min(remaining, outSegSz);
      CutLeft(m.segs, segs, i, produced - remaining, remaining);
      segs := segs[i := segs[i].(len := n)];
      CutNext(m.segs, segs, i, produced - remaining, remaining, n);
      remaining := remaining - n;
      i := i + 1;
    }
    r := Mbuf(segs, produced);
    CutDone(m.segs, segs, i, produced);
  }

  // The first i segments are cut to hold `done` bytes of a full chain, the rest
  // is as it was and has room for `left` more.
  ghost predicate CutTo(segs: seq<Seg>, cut: seq<Seg>, i: nat, done: nat, left: nat) {
    && i <= |segs| == |cut| && Full(segs) && left <= Capacity(segs[i..]) && cut[i..] == segs[i..]
    && |Flat(cut[..i])| == done && Flat(cut[..i]) <= Flat(segs)
  }

  lemma CutNothing(segs: seq<Seg>, left: nat)
    requires Full(segs) && left <= Capacity(segs)
    ensures CutTo(segs, segs, 0, 0, left)
  {
    assert segs[..0] == [] && segs[0..] == segs;
  }

  lemma CutLeft(segs: seq<Seg>, cut: seq<Seg>, i: nat, done: nat, left: nat)
    requires CutTo(segs, cut, i, done, left) && 0 < left
    ensures i < |segs| && cut[i] == segs[i] && left <= |segs[i].bytes| + Capacity(segs[i + 1..])
  {
    hide Flat;
    if i < |segs| {
      assert cut[i..][0] == segs[i..][0];
    }
  }

  lemma CutNext(segs: seq<Seg>, cut: seq<Seg>, i: nat, done: nat, left: nat, n: nat)
    requires i < |segs| && n <= |segs[i].bytes| && n <= left && left - n <= Capacity(segs[i + 1..])
    requires cut == segs[i := Segment(segs[i].bytes, n)] && CutTo(segs, segs, i, done, left)
    ensures CutTo(segs, cut, i + 1, done + n, left - n)
  {
    hide Flat;
    hide Capacity;
    FlatStep(segs, cut, i, n);
  }

  lemma CutDone(segs: seq<Seg>, cut: seq<Seg>, i: nat, produced: nat)
    requires CutTo(segs, cut, i, produced, 0) && segs != []
    ensures Readable(Mbuf(cut, produced)) && |Flat(segs)| == Capacity(segs)
    ensures produced <= |Flat(segs)| && Payload(Mbuf(cut, produced)) == Flat(segs)[..produced]
    ensures exists k :: 0 <= k <= |cut| && |Flat(cut[..k])| == produced && cut[k..] == segs[k..]
  {
    hide Flat;
    hide Capacity;
    FullFlatLength(segs);
    assert cut == cut[..i] + cut[i..];
    FlatConcat(cut[..i], cut[i..]);
  }

  // Cutting segment i of a full chain to n bytes leaves a prefix of its data.
  lemma FlatStep(segs: seq<Seg>, cut: seq<Seg>, i: nat, n: nat)
    requires i < |segs| == |cut| && Full(segs) && n <= |segs[i].bytes|
    requires cut == segs[i := Segment(segs[i].bytes, n)]
    ensures |Flat(cut[..i + 1])| == |Flat(segs[..i])| + n
    ensures Flat(cut[..i + 1]) <= Flat(segs)
  {
    assert cut[..i] == segs[..i] && cut[..i + 1] == segs[..i] + [cut[i]];
    FlatConcat(segs[..i], [cut[i]]);
    assert [cut[i]][1..] == [];
    assert Flat([cut[i]]) == segs[i].bytes[..n];
    assert segs == segs[..i] + segs[i..];
    FlatConcat(segs[..i], segs[i..]);
    assert Flat(segs[i..]) == segs[i].bytes + Flat(segs[i + 1..]);
  }
}
