// The IPv4 output hook node of the graph application: a burst of packets is
// dispatched to the next nodes on the guess that all go where the last one of
// the previous burst went.

module OutputHook {
  import opened Common

  type Pkt = nat

  const RTE_GRAPH_BURST_SIZE: nat := 256
  const UINT16_MAX: nat := 0xFFFF

  // The stream of a node: its buffer, of which the first idx entries are
  // packets waiting to be processed.
  datatype StreamBuf = StreamBuf(objs: seq<Pkt>, idx: nat)

  type Stream = s: StreamBuf | s.idx <= |s.objs| witness StreamBuf([], 0)

  function Content(s: Stream): (c: seq<Pkt>)
    ensures |c| == s.idx
  {
    s.objs[..s.idx]
  }

  // The packets of a burst that go to edge e, in arrival order.
  function Assigned(objs: seq<Pkt>, nexts: seq<nat>, e: nat): seq<Pkt>
    requires |objs| == |nexts|
  {
    if objs == [] then []
    else
      var n := |objs| - 1;
      Assigned(objs[..n], nexts[..n], e) + if nexts[n] == e then [objs[n]] else []
  }

  // Dispatch packet by packet.
  function Dispatch(contents: seq<seq<Pkt>>, objs: seq<Pkt>, nexts: seq<nat>): (r: seq<seq<Pkt>>)
    requires |objs| == |nexts| && forall i :: 0 <= i < |nexts| ==> nexts[i] < |contents|
    ensures |r| == |contents|
    decreases |objs|
  {
    if objs == [] then contents
    else
      var e := nexts[0];
      Dispatch(contents[e := contents[e] + [objs[0]]], objs[1..], nexts[1..])
  }

  lemma {:induction false} AssignedFront(objs: seq<Pkt>, nexts: seq<nat>, e: nat)
    requires 0 < |objs| == |nexts|
    ensures Assigned(objs, nexts, e) == (if nexts[0] == e then [objs[0]] else []) + Assigned(objs[1..], nexts[1..], e)
  {
    var n := |objs| - 1;
    if n == 0 {
      assert objs[..0] == [] && objs[1..] == [];
    } else {
      AssignedFront(objs[..n], nexts[..n], e);
      assert objs[..n][1..] == objs[1..][..n - 1] && nexts[..n][1..] == nexts[1..][..n - 1];
    }
  }

  // Packet by packet, every edge gets the packets assigned to it, in order.
  lemma {:induction false} DispatchAssigns(contents: seq<seq<Pkt>>, objs: seq<Pkt>, nexts: seq<nat>, e: nat)
    requires |objs| == |nexts| && e < |contents| && forall i :: 0 <= i < |nexts| ==> nexts[i] < |contents|
    ensures Dispatch(contents, objs, nexts)[e] == contents[e] + Assigned(objs, nexts, e)
    decreases |objs|
  {
    if objs != [] {
      var d := nexts[0];
      DispatchAssigns(contents[d := contents[d] + [objs[0]]], objs[1..], nexts[1..], e);
      AssignedFront(objs, nexts, e);
    }
  }

  // A run of packets for one edge adds exactly itself.
  lemma {:induction false} AssignedRun(objs: seq<Pkt>, nexts: seq<nat>, e: nat, lo: nat, hi: nat)
    requires lo <= hi <= |objs| == |nexts| && forall i :: lo <= i < hi ==> nexts[i] == e
    ensures Assigned(objs[..hi], nexts[..hi], e) == Assigned(objs[..lo], nexts[..lo], e) + objs[lo..hi]
    ensures forall d :: d != e ==> Assigned(objs[..hi], nexts[..hi], d) == Assigned(objs[..lo], nexts[..lo], d)
    decreases hi
  {
    if lo < hi {
      AssignedRun(objs, nexts, e, lo, hi - 1);
      AssignedNext(objs, nexts, hi - 1);
      assert objs[lo..hi] == objs[lo..hi - 1] + [objs[hi - 1]];
    }
  }

  lemma AssignedNext(objs: seq<Pkt>, nexts: seq<nat>, i: nat)
    requires i < |objs| == |nexts|
    ensures forall d ::
      (Assigned(objs[..i + 1], nexts[..i + 1], d)
       == Assigned(objs[..i], nexts[..i], d) + if nexts[i] == d then [objs[i]] else [])
  {
    assert objs[..i + 1][..i] == objs[..i] && nexts[..i + 1][..i] == nexts[..i];
  }

  // None lost: a packet of the burst is among those of its own edge.
  lemma {:induction false} AssignedHas(objs: seq<Pkt>, nexts: seq<nat>, i: nat)
    requires i < |objs| == |nexts|
    ensures objs[i] in Assigned(objs, nexts, nexts[i])
    decreases |objs|
  {
    var n := |objs| - 1;
    if i < n {
      AssignedHas(objs[..n], nexts[..n], i);
    }
  }

  // memcpy of some packets into a buffer.
  function Copied(buf: seq<Pkt>, at: nat, data: seq<Pkt>): (r: seq<Pkt>)
    requires at + |data| <= |buf|
    ensures |r| == |buf| && r[..at] == buf[..at] && r[at..at + |data|] == data
  {
    buf[..at] + data + buf[at + |data|..]
  }

  class HookNode {
    // The node's own stream, and those of the nodes its edges lead to.
    var self: StreamBuf
    const next: array<Stream>
    var lastIndex: nat
    // The nodes with packets waiting, by edge, in the order they got there.
    var reel: seq<nat>

    constructor (own: StreamBuf, next: array<Stream>, lastIndex: nat)
      ensures self == own && this.next == next && this.lastIndex == lastIndex && reel == []
    {
      self, this.next, this.lastIndex, reel := own, next, lastIndex, [];
    }

    // __rte_node_stream_alloc_size: the buffer grows, its packets stay.
    method Grow(e: nat, reqSize: nat)
      requires e < next.Length && |next[e].objs| <= reqSize <= UINT16_MAX
      modifies next
      ensures forall d :: 0 <= d < next.Length && d != e ==> next[d] == old(next[d])
      ensures next[e].idx == old(next[e]).idx && old(next[e]).objs <= next[e].objs
      ensures reqSize <= |next[e].objs|
    {
      var s := next[e];
      var size := Min(UINT16_MAX, Max(RTE_GRAPH_BURST_SIZE, 2 * reqSize));
      next[e] := StreamBuf(s.objs + seq(size - |s.objs|, _ => 0), s.idx);
    }

    // __rte_node_enqueue_prologue
    method Prologue(e: nat, space: nat)
      requires e < next.Length && next[e].idx + 2 * space <= UINT16_MAX
      modifies this`reel, next
      ensures forall d :: 0 <= d < next.Length && d != e ==> next[d] == old(next[d])
      ensures Content(next[e]) == old(Content(next[e])) && next[e].idx + space <= |next[e].objs|
      ensures reel == old(reel) + if old(next[e]).idx == 0 then [e] else []
    {
      ghost var s := next[e];
      if next[e].idx == 0 {
        reel := reel + [e];
      }
      if |next[e].objs| < next[e].idx + space {
        Grow(e, |next[e].objs| + space);
      }
    }

    // rte_node_enqueue; rte_node_enqueue_x1 is the same for one packet.
    method Enqueue(e: nat, objs: seq<Pkt>)
      requires e < next.Length && next[e].idx + 2 * |objs| <= UINT16_MAX
      modifies this`reel, next
      ensures forall d :: 0 <= d < next.Length && d != e ==> next[d] == old(next[d])
      ensures Content(next[e]) == old(Content(next[e])) + objs
      ensures reel == old(reel) + if old(next[e]).idx == 0 then [e] else []
    {
      Prologue(e, |objs|);
      var s := next[e];
      next[e] := StreamBuf(Copied(s.objs, s.idx, objs), s.idx + |objs|);
      assert next[e].objs[..next[e].idx] == next[e].objs[..s.idx] + next[e].objs[s.idx..s.idx + |objs|];
    }

    // rte_node_next_stream_get: room for nb packets behind those waiting; the
    // result is where they go.
    method StreamGet(e: nat, nb: nat) returns (toNext: nat)
      requires e < next.Length && next[e].idx + 2 * nb <= UINT16_MAX
      modifies next
      ensures forall d :: 0 <= d < next.Length && d != e ==> next[d] == old(next[d])
      ensures Content(next[e]) == old(Content(next[e]))
      ensures toNext == next[e].idx && toNext + nb <= |next[e].objs|
    {
      ghost var s := next[e];
      var freeSpace := |next[e].objs| - next[e].idx;
      if freeSpace < nb {
        Grow(e, |next[e].objs| + nb);
      }
      toNext := next[e].idx;
    }

    // rte_memcpy(to_next, from, n * sizeof(from[0]))
    method Memcpy(e: nat, toNext: nat, data: seq<Pkt>)
      requires e < next.Length && next[e].idx <= toNext && toNext + |data| <= |next[e].objs|
      modifies next
      ensures forall d :: 0 <= d < next.Length && d != e ==> next[d] == old(next[d])
      ensures next[e] == StreamBuf(Copied(old(next[e]).objs, toNext, data), old(next[e]).idx)
    {
      var s := next[e];
      next[e] := StreamBuf(Copied(s.objs, toNext, data), s.idx);
    }

    // rte_node_next_stream_put
    method StreamPut(e: nat, n: nat)
      requires e < next.Length && next[e].idx + n <= |next[e].objs|
      modifies this`reel, next
      ensures forall d :: 0 <= d < next.Length && d != e ==> next[d] == old(next[d])
      ensures next[e].objs == old(next[e]).objs && next[e].idx == old(next[e]).idx + n
      ensures reel == old(reel) + if 0 < n && old(next[e]).idx == 0 then [e] else []
    {
      if n == 0 {
        return;
      }
      if next[e].idx == 0 {
        reel := reel + [e];
      }
      next[e] := next[e].(idx := next[e].idx + n);
    }

    // rte_node_next_stream_move: an empty next stream swaps buffers with ours.
    method StreamMove(e: nat)
      requires e < next.Length && next[e].idx + 2 * self.idx <= UINT16_MAX && self.idx <= |self.objs|
      modifies this`reel, this`self, next
      ensures forall d :: 0 <= d < next.Length && d != e ==> next[d] == old(next[d])
      ensures Content(next[e]) == old(Content(next[e])) + old(self.objs[..self.idx])
      ensures reel == old(reel) + if old(next[e]).idx == 0 then [e] else []
    {
      var dst := next[e];
      if dst.idx == 0 {
        next[e] := self;
        self := self.(objs := dst.objs);
        reel := reel + [e];
      } else {
        Enqueue(e, self.objs[..self.idx]);
      }
    }

    // The guess is wrong for a packet: the packets guessed right so far are
    // copied to where they go, and this one is enqueued to its own edge.
    method Miss(objs: seq<Pkt>, g: nat, edge: nat, toNext: nat, from: nat, lastSpec: nat,
                ghost before: seq<Stream>, ghost nexts: seq<nat>, ghost held: nat, ghost sched: seq<nat>)
      returns (ghost sched': seq<nat>)
      requires g < next.Length == |before| && from + lastSpec < |objs| == |nexts|
      requires edge == nexts[from + lastSpec] != g && edge < next.Length
      requires forall j :: from <= j < from + lastSpec ==> nexts[j] == g
      requires forall e :: 0 <= e < |before| ==> before[e].idx + 2 * |nexts| <= UINT16_MAX
      requires Speculating(before, next[..], objs, nexts, g, from, held) && toNext == before[g].idx + held
      requires ScheduledBut(before, objs, nexts, g, from, sched)
      modifies this`reel, next
      ensures Speculating(before, next[..], objs, nexts, g, from + lastSpec + 1, held + lastSpec)
      ensures ScheduledBut(before, objs, nexts, g, from + lastSpec + 1, sched')
      ensures exists more :: sched' == sched + more && reel == old(reel) + more
    {
      hide Speculating;
      hide ScheduledBut;
      ghost var now := next[..];
      SpeculatingRoom(before, now, objs, nexts, g, from, held);
      Memcpy(g, toNext, objs[from..from + lastSpec]);
      assert next[..] == now[g := next[g]];
      FlushKeeps(before, now, next[..], objs, nexts, g, from, held, lastSpec);
      FlushScheduled(before, objs, nexts, g, from, lastSpec, sched);
      var n := from + lastSpec;
      now := next[..];
      OffPathFits(before, now, objs, nexts, g, n, held + lastSpec);
      Enqueue(edge, [objs[n]]);
      assert next[..] == now[edge := next[edge]];
      OffPathKeeps(before, now, next[..], objs, nexts, g, n, held + lastSpec);
      OffPathScheduled(before, now, objs, nexts, g, n, held + lastSpec, sched);
      sched' := sched + if now[edge].idx == 0 then [edge] else [];
    }

    // The packets guessed right join the stream they were copied to.
    method Land(objs: seq<Pkt>, g: nat, toNext: nat, from: nat, lastSpec: nat, held: nat,
                ghost before: seq<Stream>, ghost nexts: seq<nat>, ghost sched: seq<nat>)
      returns (ghost sched': seq<nat>)
      requires g < next.Length == |before| && from + lastSpec == |objs| == |nexts|
      requires forall j :: from <= j < |objs| ==> nexts[j] == g
      requires Speculating(before, next[..], objs, nexts, g, from, held) && toNext == before[g].idx + held
      requires ScheduledBut(before, objs, nexts, g, from, sched)
      modifies this`reel, next
      ensures Dispatched(before, next[..], objs, nexts) && Scheduled(before, objs, nexts, sched')
      ensures exists more :: sched' == sched + more && reel == old(reel) + more
    {
      hide Speculating;
      hide ScheduledBut;
      hide Dispatched;
      hide Scheduled;
      ghost var now := next[..];
      SpeculatingRoom(before, now, objs, nexts, g, from, held);
      Memcpy(g, toNext, objs[from..from + lastSpec]);
      assert next[..] == now[g := next[g]];
      FlushKeeps(before, now, next[..], objs, nexts, g, from, held, lastSpec);
      FlushScheduled(before, objs, nexts, g, from, lastSpec, sched);
      now := next[..];
      SpeculatingRoom(before, now, objs, nexts, g, |objs|, held + lastSpec);
      StreamPut(g, held + lastSpec);
      assert next[..] == now[g := next[g]];
      LandKeeps(before, now, next[..], objs, nexts, g, held + lastSpec, sched);
      sched' := sched + if 0 < held + lastSpec && before[g].idx == 0 then [g] else [];
    }

    // The process function of the node. nexts[i] is the edge the feature arc
    // gives for packet i.
    method Process(nexts: seq<nat>) returns (n: nat, ghost sched: seq<nat>)
      requires self.idx == |nexts| <= |self.objs| && lastIndex < next.Length
      requires forall i :: 0 <= i < |nexts| ==> nexts[i] < next.Length
      requires forall e :: 0 <= e < next.Length ==> next[e].idx + 2 * |nexts| <= UINT16_MAX
      modifies this, next
      ensures n == |nexts|
      ensures Dispatched(old(next[..]), next[..], old(self.objs[..|nexts|]), nexts)
      ensures lastIndex == if nexts == [] then old(lastIndex) else nexts[|nexts| - 1]
      ensures reel == old(reel) + sched
      ensures nexts != [] ==> Scheduled(old(next[..]), old(self.objs[..|nexts|]), nexts, sched)
    {
      hide Speculating;
      hide ScheduledBut;
      hide Dispatched;
      hide Scheduled;
      n := |nexts|;
      ghost var before := next[..];
      var objs := self.objs[..n];
      var g, edge := lastIndex, 0;
      var from, held, lastSpec := 0, 0, 0;
      var toNext := StreamGet(g, n);
      sched := [];
      assert next[..] == before[g := next[g]];
      SpeculateStart(before, next[..], objs, nexts, g);
      for i := 0 to n
        invariant i == from + lastSpec && self == old(self) && lastIndex == old(lastIndex)
        invariant forall j :: from <= j < i ==> nexts[j] == g
        invariant i > 0 ==> edge == nexts[i - 1]
        invariant Speculating(before, next[..], objs, nexts, g, from, held) && toNext == before[g].idx + held
        invariant reel == old(reel) + sched && ScheduledBut(before, objs, nexts, g, from, sched)
        invariant from == 0 ==> held == 0 && sched == []
      {
        edge := nexts[i];
        if g != edge {
          sched := Miss(objs, g, edge, toNext, from, lastSpec, before, nexts, held, sched);
          from, toNext, held, lastSpec := from + lastSpec + 1, toNext + lastSpec, held + lastSpec, 0;
        } else {
          lastSpec := lastSpec + 1;
        }
      }
      if lastSpec == n {
        ghost var now := next[..];
        HomeRunRoom(before, now, objs, nexts, g);
        StreamMove(g);
        assert next[..] == now[g := next[g]];
        HomeRun(before, now, next[..], objs, nexts, g);
        sched := if before[g].idx == 0 then [g] else [];
        return;
      }
      sched := Land(objs, g, toNext, from, lastSpec, held, before, nexts, sched);
      lastIndex := edge;
    }
  }

  // Every edge has the packets assigned to it behind those it had.
  ghost predicate Dispatched(before: seq<Stream>, after: seq<Stream>, objs: seq<Pkt>, nexts: seq<nat>)
    requires |objs| == |nexts|
  {
    && |after| == |before|
    && forall e :: 0 <= e < |before| ==> Content(after[e]) == Content(before[e]) + Assigned(objs, nexts, e)
  }

  // The edges that had no packets and got some are scheduled, once each.
  ghost predicate Scheduled(before: seq<Stream>, objs: seq<Pkt>, nexts: seq<nat>, sched: seq<nat>)
    requires |objs| == |nexts|
  {
    && NoDuplicates(sched)
    && forall e: nat :: e in sched <==> e < |before| && before[e].idx == 0 && Assigned(objs, nexts, e) != []
  }

  // All of the edges but g.
  ghost predicate ScheduledBut(before: seq<Stream>, objs: seq<Pkt>, nexts: seq<nat>, g: nat, n: nat, sched: seq<nat>)
    requires n <= |objs| == |nexts|
  {
    && NoDuplicates(sched)
    && forall e: nat :: e in sched <==>
      e != g && e < |before| && before[e].idx == 0 && Assigned(objs[..n], nexts[..n], e) != []
  }

  // The first n packets are dispatched, those for the guess g into the buffer
  // of its stream but not yet part of it.
  ghost predicate Speculating(before: seq<Stream>, now: seq<Stream>, objs: seq<Pkt>, nexts: seq<nat>,
                              g: nat, n: nat, held: nat)
  {
    && g < |before| == |now| && n <= |objs| == |nexts| && held <= n
    && (forall e :: 0 <= e < |before| && e != g ==>
         Content(now[e]) == Content(before[e]) + Assigned(objs[..n], nexts[..n], e))
    && Content(now[g]) == Content(before[g]) && now[g].idx + |objs| <= |now[g].objs|
    && now[g].objs[now[g].idx..now[g].idx + held] == Assigned(objs[..n], nexts[..n], g)
  }

  lemma {:induction false} AssignedBound(objs: seq<Pkt>, nexts: seq<nat>, e: nat)
    requires |objs| == |nexts|
    ensures |Assigned(objs, nexts, e)| <= |objs|
  {
    if objs != [] {
      AssignedBound(objs[..|objs| - 1], nexts[..|objs| - 1], e);
    }
  }

  lemma SpeculateStart(before: seq<Stream>, now: seq<Stream>, objs: seq<Pkt>, nexts: seq<nat>, g: nat)
    requires g < |before| && |objs| == |nexts| && |now| == |before| && now == before[g := now[g]]
    requires Content(now[g]) == Content(before[g]) && now[g].idx + |objs| <= |now[g].objs|
    ensures Speculating(before, now, objs, nexts, g, 0, 0) && ScheduledBut(before, objs, nexts, g, 0, [])
  {}

  lemma SpeculatingRoom(before: seq<Stream>, now: seq<Stream>, objs: seq<Pkt>, nexts: seq<nat>,
                        g: nat, n: nat, held: nat)
    requires Speculating(before, now, objs, nexts, g, n, held)
    ensures g < |now| && held <= n <= |objs| && now[g].idx == before[g].idx && now[g].idx + |objs| <= |now[g].objs|
  {
    assert |Content(now[g])| == |Content(before[g])|;
  }

  lemma CopiedBehind(buf: seq<Pkt>, i: nat, held: nat, data: seq<Pkt>)
    requires i + held + |data| <= |buf|
    ensures
      var r := Copied(buf, i + held, data);
      r[..i] == buf[..i] && r[i..i + held + |data|] == buf[i..i + held] + data
  {
    var r := Copied(buf, i + held, data);
    assert r[..i] == r[..i + held][..i];
    assert r[i..i + held] == r[..i + held][i..] == buf[..i + held][i..] == buf[i..i + held];
    assert r[i..i + held + |data|] == r[i..i + held] + r[i + held..i + held + |data|];
  }

  lemma FlushKeeps(before: seq<Stream>, now: seq<Stream>, now': seq<Stream>, objs: seq<Pkt>, nexts: seq<nat>,
                   g: nat, n: nat, held: nat, k: nat)
    requires Speculating(before, now, objs, nexts, g, n, held) && n + k <= |objs|
    requires forall j :: n <= j < n + k ==> nexts[j] == g
    requires |now'| == |now| && now' == now[g := now'[g]] && now[g].idx + held + k <= |now[g].objs|
    requires now'[g] == StreamBuf(Copied(now[g].objs, now[g].idx + held, objs[n..n + k]), now[g].idx)
    ensures Speculating(before, now', objs, nexts, g, n + k, held + k)
  {
    hide Assigned;
    hide Copied;
    AssignedRun(objs, nexts, g, n, n + k);
    CopiedBehind(now[g].objs, now[g].idx, held, objs[n..n + k]);
  }

  lemma FlushScheduled(before: seq<Stream>, objs: seq<Pkt>, nexts: seq<nat>, g: nat, n: nat, k: nat, sched: seq<nat>)
    requires n + k <= |objs| == |nexts| && ScheduledBut(before, objs, nexts, g, n, sched)
    requires forall j :: n <= j < n + k ==> nexts[j] == g
    ensures ScheduledBut(before, objs, nexts, g, n + k, sched)
  {
    AssignedRun(objs, nexts, g, n, n + k);
  }

  lemma OffPathFits(before: seq<Stream>, now: seq<Stream>, objs: seq<Pkt>, nexts: seq<nat>,
                    g: nat, n: nat, held: nat)
    requires Speculating(before, now, objs, nexts, g, n, held) && n < |objs| && nexts[n] < |before| && nexts[n] != g
    requires before[nexts[n]].idx + 2 * |nexts| <= UINT16_MAX
    ensures now[nexts[n]].idx + 2 <= UINT16_MAX
  {
    AssignedBound(objs[..n], nexts[..n], nexts[n]);
    assert now[nexts[n]].idx == |Content(now[nexts[n]])|;
  }

  lemma OffPathKeeps(before: seq<Stream>, now: seq<Stream>, now': seq<Stream>, objs: seq<Pkt>, nexts: seq<nat>,
                     g: nat, n: nat, held: nat)
    requires Speculating(before, now, objs, nexts, g, n, held) && n < |objs| && nexts[n] < |before| && nexts[n] != g
    requires |now'| == |now| && now' == now[nexts[n] := now'[nexts[n]]]
    requires Content(now'[nexts[n]]) == Content(now[nexts[n]]) + [objs[n]]
    ensures Speculating(before, now', objs, nexts, g, n + 1, held)
  {
    AssignedNext(objs, nexts, n);
  }

  lemma OffPathScheduled(before: seq<Stream>, now: seq<Stream>, objs: seq<Pkt>, nexts: seq<nat>,
                         g: nat, n: nat, held: nat, sched: seq<nat>)
    requires Speculating(before, now, objs, nexts, g, n, held) && n < |objs| && nexts[n] < |before| && nexts[n] != g
    requires ScheduledBut(before, objs, nexts, g, n, sched)
    ensures ScheduledBut(before, objs, nexts, g, n + 1, sched + if now[nexts[n]].idx == 0 then [nexts[n]] else [])
  {
    var e := nexts[n];
    var some := Assigned(objs[..n], nexts[..n], e);
    assert now[e].idx == |Content(now[e])| == before[e].idx + |some|;
    hide Speculating;
    hide Content;
    AssignedNext(objs, nexts, n);
    hide Assigned;
    ScheduledNext(before, objs, nexts, g, n, sched, now[e].idx == 0);
  }

  lemma ScheduledNext(before: seq<Stream>, objs: seq<Pkt>, nexts: seq<nat>, g: nat, n: nat, sched: seq<nat>, first: bool)
    requires n < |objs| == |nexts| && nexts[n] < |before| && nexts[n] != g
    requires ScheduledBut(before, objs, nexts, g, n, sched)
    requires first <==> before[nexts[n]].idx == 0 && Assigned(objs[..n], nexts[..n], nexts[n]) == []
    ensures ScheduledBut(before, objs, nexts, g, n + 1, sched + if first then [nexts[n]] else [])
  {
    AssignedNext(objs, nexts, n);
    hide Assigned;
    assert first ==> nexts[n] !in sched;
  }

  lemma LandKeeps(before: seq<Stream>, now: seq<Stream>, now': seq<Stream>, objs: seq<Pkt>, nexts: seq<nat>,
                  g: nat, held: nat, sched: seq<nat>)
    requires Speculating(before, now, objs, nexts, g, |objs|, held) && ScheduledBut(before, objs, nexts, g, |objs|, sched)
    requires |now'| == |now| && now' == now[g := now'[g]]
    requires now'[g].objs == now[g].objs && now'[g].idx == now[g].idx + held
    ensures Dispatched(before, now', objs, nexts)
    ensures Scheduled(before, objs, nexts, sched + if 0 < held && before[g].idx == 0 then [g] else [])
  {
    assert objs[..|objs|] == objs && nexts[..|objs|] == nexts;
    assert now'[g].objs[..now'[g].idx] == now[g].objs[..now[g].idx] + now[g].objs[now[g].idx..now'[g].idx];
    assert |Assigned(objs, nexts, g)| == held;
  }

  lemma HomeRunRoom(before: seq<Stream>, now: seq<Stream>, objs: seq<Pkt>, nexts: seq<nat>, g: nat)
    requires Speculating(before, now, objs, nexts, g, 0, 0)
    ensures g < |now| == |before| && now[g].idx == before[g].idx
  {
    assert |Content(now[g])| == |Content(before[g])|;
  }

  // All packets go to g.
  lemma HomeRun(before: seq<Stream>, now: seq<Stream>, now': seq<Stream>, objs: seq<Pkt>, nexts: seq<nat>, g: nat)
    requires Speculating(before, now, objs, nexts, g, 0, 0) && forall j :: 0 <= j < |nexts| ==> nexts[j] == g
    requires |now'| == |now| && now' == now[g := now'[g]] && Content(now'[g]) == Content(now[g]) + objs
    ensures Dispatched(before, now', objs, nexts)
    ensures nexts != [] ==> Scheduled(before, objs, nexts, if before[g].idx == 0 then [g] else [])
  {
    AssignedRun(objs, nexts, g, 0, |objs|);
    assert objs[..|objs|] == objs && nexts[..|objs|] == nexts && objs[0..] == objs;
  }

  function Contents(streams: seq<Stream>): (c: seq<seq<Pkt>>)
    ensures |c| == |streams| && forall e :: 0 <= e < |c| ==> c[e] == Content(streams[e])
  {
    seq(|streams|, e requires 0 <= e < |streams| => Content(streams[e]))
  }

  // The batch dispatch refines dispatching packet by packet, whatever the guess.
  lemma RefinesPerPacket(before: seq<Stream>, after: seq<Stream>, objs: seq<Pkt>, nexts: seq<nat>)
    requires |objs| == |nexts| && forall i :: 0 <= i < |nexts| ==> nexts[i] < |before|
    requires Dispatched(before, after, objs, nexts)
    ensures Contents(after) == Dispatch(Contents(before), objs, nexts)
  {
    var r := Dispatch(Contents(before), objs, nexts);
    forall e | 0 <= e < |before| ensures Contents(after)[e] == r[e] {
      DispatchAssigns(Contents(before), objs, nexts, e);
    }
  }

  function Waiting(contents: seq<seq<Pkt>>): nat {
    if contents == [] then 0 else |contents[0]| + Waiting(contents[1..])
  }

  lemma {:induction false} WaitingOneMore(contents: seq<seq<Pkt>>, e: nat, p: Pkt)
    requires e < |contents|
    ensures Waiting(contents[e := contents[e] + [p]]) == Waiting(contents) + 1
  {
    var more := contents[e := contents[e] + [p]];
    if e == 0 {
      assert more[1..] == contents[1..];
    } else {
      assert more[1..] == contents[1..][e - 1 := contents[1..][e - 1] + [p]];
      WaitingOneMore(contents[1..], e - 1, p);
    }
  }

  // None lost, none duplicated.
  lemma {:induction false} DispatchConserves(contents: seq<seq<Pkt>>, objs: seq<Pkt>, nexts: seq<nat>)
    requires |objs| == |nexts| && forall i :: 0 <= i < |nexts| ==> nexts[i] < |contents|
    ensures Waiting(Dispatch(contents, objs, nexts)) == Waiting(contents) + |objs|
    decreases |objs|
  {
    if objs != [] {
      var e := nexts[0];
      WaitingOneMore(contents, e, objs[0]);
      DispatchConserves(contents[e := contents[e] + [objs[0]]], objs[1..], nexts[1..]);
    }
  }
}
