// Choosing flows that spread over the receive queues.

module RssFlows {
  import opened Common
  import opened Rss

  // The & of two numbers, bit by bit.
  function And(a: nat, b: nat): (r: nat)
    ensures r <= b
  {
    if a == 0 || b == 0 then 0
    else 2 * And(a / 2, b / 2) + if a % 2 == 1 && b % 2 == 1 then 1 else 0
  }

  // Masking with a power of two less one is the remainder by that power.
  lemma {:induction false} MaskIsRemainder(a: nat, k: nat)
    ensures And(a, Pow2(k) - 1) == a % Pow2(k)
    decreases k
  {
    hide And;
    if k == 0 {
      AndNothing(a);
      DivUnique(a, 1, a, 0);
    } else {
      var p := Pow2(k - 1);
      MaskIsRemainder(a / 2, k - 1);
      hide Pow2;
      AndStep(a, p);
      RemainderStep(a, p);
    }
  }

  lemma AndNothing(a: nat)
    ensures And(a, 0) == 0
  {}

  lemma RemainderStep(a: nat, p: nat)
    requires 0 < p
    ensures a % (2 * p) == 2 * (a / 2 % p) + a % 2
  {
    var h := a / 2;
    var q, r := h / p, h % p;
    assert h == p * q + r;
    Doubled(p, q);
    DivUnique(a, 2 * p, q, 2 * r + a % 2);
  }

  lemma Doubled(p: nat, q: nat)
    ensures 2 * (p * q) == 2 * p * q
  {}

  lemma AndStep(a: nat, p: nat)
    requires 0 < p
    ensures And(a, 2 * p - 1) == 2 * And(a / 2, p - 1) + a % 2
  {
    assert (2 * p - 1) / 2 == p - 1 && (2 * p - 1) % 2 == 1;
  }

  // RSSAlgo: the redirection table has a power of two of entries, at least one
  // for every queue.
  datatype Algo = Algo(queuesCount: nat, retaSize: nat, key: seq<Byte>, useL4Port: bool) {
    ghost predicate Valid() {
      0 < queuesCount <= retaSize && exists k: nat :: retaSize == Pow2(k)
    }

    function Reta(): (r: seq<nat>)
      requires 0 < queuesCount
      ensures |r| == retaSize && forall i :: 0 <= i < retaSize ==> r[i] == i % queuesCount
    {
      seq(retaSize, i requires 0 <= i => i % queuesCount)
    }

    // The hash of a packet, as a number.
    function HashOf(p: Packet): nat {
      Hash(key, p.HashData(useL4Port), 0) as nat
    }

    // get_queue_index for a key long enough to hash the packet.
    function Queue(p: Packet): (q: nat)
      requires Valid()
      ensures q < queuesCount
    {
      Reta()[And(HashOf(p), retaSize - 1)]
    }
  }

  // How many of the first n table entries belong to queue q.
  function Share(queuesCount: nat, n: nat, q: nat): nat
    requires 0 < queuesCount
  {
    if n == 0 then 0 else Share(queuesCount, n - 1, q) + if (n - 1) % queuesCount == q then 1 else 0
  }

  // Every queue owns the floor or the ceiling of its fair share.
  lemma {:induction false} FairShare(queuesCount: nat, n: nat, q: nat)
    requires q < queuesCount
    ensures Share(queuesCount, n, q) == n / queuesCount + if q < n % queuesCount then 1 else 0
    decreases n
  {
    if n == 0 {
      DivUnique(0, queuesCount, 0, 0);
    } else {
      FairShare(queuesCount, n - 1, q);
      DivNext(n - 1, queuesCount);
    }
  }

  lemma EveryQueueOwns(a: Algo, q: nat)
    requires a.Valid() && q < a.queuesCount
    ensures 1 <= Share(a.queuesCount, a.retaSize, q)
  {
    AtLeastOne(a.queuesCount, a.retaSize, q);
  }

  lemma AtLeastOne(queuesCount: nat, n: nat, q: nat)
    requires q < queuesCount <= n
    ensures 1 <= Share(queuesCount, n, q)
  {
    hide Share;
    FairShare(queuesCount, n, q);
    DivStep(n, queuesCount);
    var p := (n - queuesCount) / queuesCount;
    assert 0 <= p && n / queuesCount == p + 1;
  }

  // The queue in numbers: the hash modulo the size of the table, and that modulo
  // the number of queues.
  lemma QueueIs(a: Algo, p: Packet)
    requires a.Valid()
    ensures a.Queue(p) == a.HashOf(p) % a.retaSize % a.queuesCount
  {
    hide Hash;
    var k: nat :| a.retaSize == Pow2(k);
    MaskIsRemainder(a.HashOf(p), k);
  }

  // So only as many low bits of the hash matter as the table needs for an index,
  // and a hash below its size is the index.
  lemma LowBitsDecide(a: Algo, p: Packet, q: Packet)
    requires a.Valid()
    ensures a.HashOf(p) % a.retaSize == a.HashOf(q) % a.retaSize ==> a.Queue(p) == a.Queue(q)
    ensures a.HashOf(p) < a.retaSize ==> a.Queue(p) == a.HashOf(p) % a.queuesCount
  {
    hide Algo.Queue;
    hide Algo.HashOf;
    QueueIs(a, p);
    QueueIs(a, q);
    if a.HashOf(p) < a.retaSize {
      DivUnique(a.HashOf(p), a.retaSize, 0, a.HashOf(p));
    }
  }

  // Hashing alike is landing on the same queue.
  lemma SameQueue(a: Algo, n: nat, p: Packet)
    requires a.Valid() && Symmetric(a.key, n, a.useL4Port) && Sized(p, n)
    ensures a.Queue(p) == a.Queue(p.Reverse())
  {
    assert a.HashOf(p) == a.HashOf(p.Reverse());
  }

  datatype Flow = Flow(queue: nat, queueReverse: nat, pkt: Packet)

  // The flow of the t-th packet of the template.
  ghost function FlowAt(a: Algo, template: seq<Packet>, t: nat): Flow
    requires a.Valid() && t < |template|
  {
    Flow(a.Queue(template[t]), a.Queue(template[t].Reverse()), template[t])
  }

  // A flow lands where one of those chosen does.
  ghost predicate Taken(out: seq<Flow>, f: Flow, checkReverse: bool) {
    exists g :: g in out && (g.queue == f.queue || (checkReverse && g.queueReverse == f.queueReverse))
  }

  // No two flows on one queue, nor, if that is checked, in reverse.
  ghost predicate Spread(out: seq<Flow>, checkReverse: bool) {
    forall i, j :: 0 <= i < j < |out| ==>
      out[i].queue != out[j].queue && (checkReverse ==> out[i].queueReverse != out[j].queueReverse)
  }

  // The flows the packets from t on give when those in `out` are chosen
  // already: each is chosen unless it lands where a chosen one does, until all
  // queues are filled.
  ghost function Chosen(a: Algo, template: seq<Packet>, t: nat, out: seq<Flow>, checkReverse: bool, allFlows: bool)
    : seq<Flow>
    requires a.Valid() && t <= |template|
    decreases |template| - t
  {
    if t == |template| then out
    else
      var f := FlowAt(a, template, t);
      if !allFlows && Taken(out, f, checkReverse) then Chosen(a, template, t + 1, out, checkReverse, allFlows)
      else if !allFlows && |out| + 1 == a.queuesCount then out + [f]
      else Chosen(a, template, t + 1, out + [f], checkReverse, allFlows)
  }

  // get_queue_index: None when the key is too short for the packet.
  method GetQueueIndex(a: Algo, p: Packet) returns (q: Option<nat>)
    requires a.Valid()
    ensures q.Some? <==> Covered(a.key, p.HashData(a.useL4Port))
    ensures q.Some? ==>
      && q.value == And(Hash(a.key, p.HashData(a.useL4Port), 0) as nat, a.retaSize - 1) % a.queuesCount
      && q.value == a.Queue(p)
  {
    hide Hash;
    hide Covered;
    hide And;
    hide Pow2;
    hide Packet.HashData;
    var h := ToeplitzHash(a.key, p.HashData(a.useL4Port));
    match h
    case None => q := None;
    case Some(hash) =>
      var offset := And(hash as nat, a.retaSize - 1);
      q := Some(a.Reta()[offset]);
  }

  // The key is long enough for the packets of the template, either way round.
  ghost predicate KeyCovers(a: Algo, template: seq<Packet>) {
    forall p :: p in template ==>
      Covered(a.key, p.HashData(a.useL4Port)) && Covered(a.key, p.Reverse().HashData(a.useL4Port))
  }

  ghost function QueuesOf(out: seq<Flow>): set<nat> {
    set g | g in out :: g.queue
  }

  ghost function ReverseQueuesOf(out: seq<Flow>): set<nat> {
    set g | g in out :: g.queueReverse
  }

  lemma TakenIs(out: seq<Flow>, f: Flow, checkReverse: bool)
    ensures Taken(out, f, checkReverse) <==>
      f.queue in QueuesOf(out) || (checkReverse && f.queueReverse in ReverseQueuesOf(out))
  {}

  lemma QueuesGrow(out: seq<Flow>, f: Flow)
    ensures QueuesOf(out + [f]) == QueuesOf(out) + {f.queue}
    ensures ReverseQueuesOf(out + [f]) == ReverseQueuesOf(out) + {f.queueReverse}
  {}

  lemma SpreadGrows(out: seq<Flow>, f: Flow, checkReverse: bool)
    requires Spread(out, checkReverse) && !Taken(out, f, checkReverse)
    ensures Spread(out + [f], checkReverse)
  {}

  // The queues of a flow are those of its packet and of the packet reversed.
  ghost predicate OnQueues(a: Algo, template: seq<Packet>, out: seq<Flow>)
    requires a.Valid()
  {
    forall i :: 0 <= i < |out| ==>
      && out[i].pkt in template && out[i].queue == a.Queue(out[i].pkt)
      && out[i].queueReverse == a.Queue(out[i].pkt.Reverse())
  }

  // No two packets chosen land on one queue, nor, if that is checked, do their
  // reverses.
  ghost predicate PacketsSpread(a: Algo, out: seq<Flow>, checkReverse: bool)
    requires a.Valid()
  {
    forall i, j :: 0 <= i < j < |out| ==>
      && a.Queue(out[i].pkt) != a.Queue(out[j].pkt)
      && (checkReverse ==> a.Queue(out[i].pkt.Reverse()) != a.Queue(out[j].pkt.Reverse()))
  }

  lemma SpreadPackets(a: Algo, template: seq<Packet>, out: seq<Flow>, checkReverse: bool)
    requires a.Valid() && OnQueues(a, template, out) && Spread(out, checkReverse)
    ensures PacketsSpread(a, out, checkReverse)
  {}

  lemma OneMoreFlow(a: Algo, template: seq<Packet>, t: nat, out: seq<Flow>)
    requires a.Valid() && t < |template| && OnQueues(a, template, out)
    ensures OnQueues(a, template, out + [FlowAt(a, template, t)])
  {
    hide Algo.Queue;
  }

  lemma NoFlows(a: Algo, template: seq<Packet>)
    requires a.Valid()
    ensures OnQueues(a, template, [])
  {}

  // balanced_traffic
  method BalancedTraffic(a: Algo, template: seq<Packet>, checkReverse: bool, allFlows: bool) returns (out: seq<Flow>)
    requires a.Valid() && KeyCovers(a, template)
    ensures out == Chosen(a, template, 0, [], checkReverse, allFlows)
    ensures OnQueues(a, template, out)
    ensures !allFlows ==> Spread(out, checkReverse) && PacketsSpread(a, out, checkReverse) && |out| <= a.queuesCount
    ensures !allFlows ==> exists at :: Greedy(a, template, |template|, out, at, checkReverse)
  {
    hide Hash;
    hide Covered;
    hide Taken;
    hide Spread;
    hide QueuesOf;
    hide ReverseQueuesOf;
    hide Greedy;
    hide PacketsSpread;
    hide OnQueues;
    hide Algo.Queue;
    hide Pow2;
    var queues: set<nat>, queuesReverse: set<nat> := {}, {};
    out := [];
    NoneChosen(checkReverse);
    NoFlows(a, template);
    for t := 0 to |template|
      invariant Chosen(a, template, t, out, checkReverse, allFlows) == Chosen(a, template, 0, [], checkReverse, allFlows)
      invariant OnQueues(a, template, out)
      invariant queues == QueuesOf(out) && (checkReverse ==> queuesReverse == ReverseQueuesOf(out))
      invariant !allFlows ==> Spread(out, checkReverse) && |queues| == |out| < a.queuesCount
    {
      var pkt := template[t];
      assert pkt in template;
      ghost var f := FlowAt(a, template, t);
      TakenIs(out, f, checkReverse);
      QueuesGrow(out, f);
      OneMoreFlow(a, template, t, out);
      var q := GetQueueIndex(a, pkt);
      if !allFlows && q.value in queues {
        continue;
      }
      var qr := GetQueueIndex(a, pkt.Reverse());
      if checkReverse {
        if !allFlows && qr.value in queuesReverse {
          continue;
        }
        queuesReverse := queuesReverse + {qr.value};
      }
      if !allFlows {
        SpreadGrows(out, f, checkReverse);
      }
      queues := queues + {q.value};
      out := out + [Flow(q.value, qr.value, pkt)];
      if !allFlows && |queues| == a.queuesCount {
        break;
      }
    }
    if !allFlows {
      SpreadPackets(a, template, out, checkReverse);
      ghost var at := GreedyTraffic(a, template, checkReverse);
    }
  }

  lemma NoneChosen(checkReverse: bool)
    ensures QueuesOf([]) == {} && ReverseQueuesOf([]) == {} && Spread([], checkReverse)
  {}

  // With all flows wanted every packet is listed.
  lemma {:induction false} AllFlows(a: Algo, template: seq<Packet>, t: nat, out: seq<Flow>, checkReverse: bool)
    requires a.Valid() && t <= |template|
    ensures
      var r := Chosen(a, template, t, out, checkReverse, true);
      && |r| == |out| + |template| - t && out <= r
      && forall i :: t <= i < |template| ==> r[|out| + i - t] == FlowAt(a, template, i)
    decreases |template| - t
  {
    hide Hash;
    hide Taken;
    hide Algo.Queue;
    if t < |template| {
      AllFlows(a, template, t + 1, out + [FlowAt(a, template, t)], checkReverse);
    }
  }

  // Packet t is the first of the template on its queue.
  ghost predicate First(a: Algo, template: seq<Packet>, t: nat)
    requires a.Valid() && t < |template|
  {
    forall s :: 0 <= s < t ==> a.Queue(template[s]) != a.Queue(template[t])
  }

  // The first packets of their queues, from packet t on.
  ghost function Firsts(a: Algo, template: seq<Packet>, t: nat): seq<Flow>
    requires a.Valid() && t <= |template|
    decreases |template| - t
  {
    if t == |template| then []
    else (if First(a, template, t) then [FlowAt(a, template, t)] else []) + Firsts(a, template, t + 1)
  }

  ghost predicate Lands(a: Algo, template: seq<Packet>, t: nat, q: nat)
    requires a.Valid() && t <= |template|
  {
    exists s :: 0 <= s < t && a.Queue(template[s]) == q
  }

  // The queues the first t packets land on.
  ghost predicate Reached(a: Algo, template: seq<Packet>, t: nat, out: seq<Flow>)
    requires a.Valid() && t <= |template|
  {
    forall q :: q in QueuesOf(out) <==> Lands(a, template, t, q)
  }

  // Without the reverse check the flows chosen are exactly the first packet of
  // every queue the template reaches, in template order: stopping once all
  // queues are filled loses none.
  lemma {:induction false} ChosenAreFirsts(a: Algo, template: seq<Packet>, t: nat, out: seq<Flow>)
    requires a.Valid() && t <= |template| && Reached(a, template, t, out)
    requires Spread(out, false) && |out| < a.queuesCount
    ensures Chosen(a, template, t, out, false, false) == out + Firsts(a, template, t)
    decreases |template| - t
  {
    hide Hash;
    hide Taken;
    hide Spread;
    hide QueuesOf;
    hide Algo.Queue;
    if t < |template| {
      var f := FlowAt(a, template, t);
      TakenIs(out, f, false);
      QueuesGrow(out, f);
      ReachedNext(a, template, t, out);
      if Taken(out, f, false) {
        ChosenAreFirsts(a, template, t + 1, out);
      } else {
        SpreadGrows(out, f, false);
        if |out| + 1 == a.queuesCount {
          NoMoreFirsts(a, template, t + 1, out + [f]);
        } else {
          ChosenAreFirsts(a, template, t + 1, out + [f]);
        }
      }
    }
  }

  lemma ReachedNext(a: Algo, template: seq<Packet>, t: nat, out: seq<Flow>)
    requires a.Valid() && t < |template| && Reached(a, template, t, out)
    ensures
      var f := FlowAt(a, template, t);
      && (f.queue in QueuesOf(out) <==> !First(a, template, t))
      && (f.queue in QueuesOf(out) ==> Reached(a, template, t + 1, out))
      && Reached(a, template, t + 1, out + [f])
  {
    hide Hash;
    hide QueuesOf;
    hide Algo.Queue;
    var f := FlowAt(a, template, t);
    QueuesGrow(out, f);
    forall q ensures Lands(a, template, t + 1, q) <==> Lands(a, template, t, q) || q == f.queue {
      if q == f.queue {
        assert a.Queue(template[t]) == q;
      }
    }
  }

  lemma {:induction false} Distinct(out: seq<Flow>)
    requires Spread(out, false)
    ensures |QueuesOf(out)| == |out|
  {
    if out != [] {
      var n := |out| - 1;
      assert out == out[..n] + [out[n]];
      Distinct(out[..n]);
      QueuesGrow(out[..n], out[n]);
      assert out[n].queue !in QueuesOf(out[..n]);
    }
  }

  ghost function Below(n: nat): (s: set<nat>)
    ensures forall q: nat :: q in s <==> q < n
    ensures |s| == n
  {
    if n == 0 then {} else Below(n - 1) + {n - 1}
  }

  lemma {:induction false} SubsetSize(s: set<nat>, r: set<nat>)
    requires s <= r
    ensures |s| <= |r|
  {
    if s != {} {
      var x :| x in s;
      SubsetSize(s - {x}, r - {x});
    }
  }

  // Once as many queues are filled as there are, no packet is the first on its
  // queue.
  lemma {:induction false} NoMoreFirsts(a: Algo, template: seq<Packet>, t: nat, out: seq<Flow>)
    requires a.Valid() && t <= |template| && Reached(a, template, t, out)
    requires Spread(out, false) && |out| == a.queuesCount
    ensures Firsts(a, template, t) == []
    decreases |template| - t
  {
    hide Hash;
    hide QueuesOf;
    hide Spread;
    hide Algo.Queue;
    if t < |template| {
      var q := a.Queue(template[t]);
      Distinct(out);
      assert QueuesOf(out) <= Below(a.queuesCount);
      if q !in QueuesOf(out) {
        SubsetSize(QueuesOf(out), Below(a.queuesCount) - {q});
      }
      ReachedNext(a, template, t, out);
      NoMoreFirsts(a, template, t + 1, out);
    }
  }

  // What balanced_traffic yields without the reverse check.
  lemma BalancedFirsts(a: Algo, template: seq<Packet>)
    requires a.Valid()
    ensures Chosen(a, template, 0, [], false, false) == Firsts(a, template, 0)
  {
    hide Hash;
    hide Algo.Queue;
    NoneChosen(false);
    ChosenAreFirsts(a, template, 0, []);
  }

  // Packet t lies behind k of the packets chosen, at[0], ..., at[k - 1], and is
  // none of them.
  ghost predicate Between(at: seq<nat>, t: nat, k: nat)
    requires k <= |at|
  {
    (0 < k ==> at[k - 1] < t) && (k < |at| ==> t < at[k])
  }

  // `out` are the flows of the packets `at`, in template order, and each packet
  // left out lands where one chosen before it does.
  ghost predicate Greedy(a: Algo, template: seq<Packet>, n: nat, out: seq<Flow>, at: seq<nat>, checkReverse: bool)
    requires a.Valid() && n <= |template|
  {
    && |at| == |out| && (forall k :: 0 <= k < |at| ==> at[k] < n && out[k] == FlowAt(a, template, at[k]))
    && (forall j, k :: 0 <= j < k < |at| ==> at[j] < at[k])
    && forall t, k :: 0 <= t < n && 0 <= k <= |at| && Between(at, t, k) ==>
         Taken(out[..k], FlowAt(a, template, t), checkReverse)
  }

  lemma GreedySkips(a: Algo, template: seq<Packet>, n: nat, out: seq<Flow>, at: seq<nat>, checkReverse: bool)
    requires a.Valid() && n < |template| && Greedy(a, template, n, out, at, checkReverse)
    requires Taken(out, FlowAt(a, template, n), checkReverse)
    ensures Greedy(a, template, n + 1, out, at, checkReverse)
  {
    hide Taken;
    hide FlowAt;
    forall t, k | 0 <= t < n + 1 && 0 <= k <= |at| && Between(at, t, k)
      ensures Taken(out[..k], FlowAt(a, template, t), checkReverse)
    {
      if t == n {
        assert k == |at| && out[..k] == out;
      }
    }
  }

  lemma GreedyTakes(a: Algo, template: seq<Packet>, n: nat, out: seq<Flow>, at: seq<nat>, checkReverse: bool)
    requires a.Valid() && n < |template| && Greedy(a, template, n, out, at, checkReverse)
    ensures Greedy(a, template, n + 1, out + [FlowAt(a, template, n)], at + [n], checkReverse)
  {
    hide Taken;
    hide FlowAt;
    var out', at' := out + [FlowAt(a, template, n)], at + [n];
    forall t, k | 0 <= t < n + 1 && 0 <= k <= |at'| && Between(at', t, k)
      ensures Taken(out'[..k], FlowAt(a, template, t), checkReverse)
    {
      assert k <= |at| && t < n && Between(at, t, k);
      assert out'[..k] == out[..k];
    }
  }

  // Once all queues are filled nothing else can be chosen.
  lemma FilledTakes(a: Algo, template: seq<Packet>, t: nat, out: seq<Flow>, checkReverse: bool)
    requires a.Valid() && t < |template|
    requires Spread(out, checkReverse) && |out| == a.queuesCount && forall g :: g in out ==> g.queue < a.queuesCount
    ensures Taken(out, FlowAt(a, template, t), checkReverse)
  {
    hide Hash;
    hide Algo.Queue;
    var q := a.Queue(template[t]);
    Distinct(out);
    assert QueuesOf(out) <= Below(a.queuesCount);
    if q !in QueuesOf(out) {
      SubsetSize(QueuesOf(out), Below(a.queuesCount) - {q});
    }
  }

  lemma {:induction false} FilledGreedy(a: Algo, template: seq<Packet>, n: nat, out: seq<Flow>, at: seq<nat>,
                                        checkReverse: bool)
    requires a.Valid() && n <= |template| && Greedy(a, template, n, out, at, checkReverse)
    requires Spread(out, checkReverse) && |out| == a.queuesCount && forall g :: g in out ==> g.queue < a.queuesCount
    ensures Greedy(a, template, |template|, out, at, checkReverse)
    decreases |template| - n
  {
    hide Greedy;
    hide Taken;
    hide Spread;
    if n < |template| {
      FilledTakes(a, template, n, out, checkReverse);
      GreedySkips(a, template, n, out, at, checkReverse);
      FilledGreedy(a, template, n + 1, out, at, checkReverse);
    }
  }

  // The choice of balanced_traffic, with or without the reverse check: a packet
  // is left out only if it lands where one chosen before it does, so nothing
  // can be added to the flows chosen, not even behind the point where the
  // search stops.
  lemma {:induction false} ChosenGreedy(a: Algo, template: seq<Packet>, n: nat, out: seq<Flow>, at: seq<nat>,
                                        checkReverse: bool)
    returns (at': seq<nat>)
    requires a.Valid() && n <= |template| && Greedy(a, template, n, out, at, checkReverse)
    requires Spread(out, checkReverse) && |out| < a.queuesCount
    requires forall g :: g in out ==> g.queue < a.queuesCount
    ensures Greedy(a, template, |template|, Chosen(a, template, n, out, checkReverse, false), at', checkReverse)
    decreases |template| - n
  {
    hide Greedy;
    hide Taken;
    hide Spread;
    hide Algo.Queue;
    if n == |template| {
      at' := at;
    } else {
      var f := FlowAt(a, template, n);
      if Taken(out, f, checkReverse) {
        GreedySkips(a, template, n, out, at, checkReverse);
        at' := ChosenGreedy(a, template, n + 1, out, at, checkReverse);
      } else {
        GreedyTakes(a, template, n, out, at, checkReverse);
        SpreadGrows(out, f, checkReverse);
        if |out| + 1 == a.queuesCount {
          FilledGreedy(a, template, n + 1, out + [f], at + [n], checkReverse);
          at' := at + [n];
        } else {
          at' := ChosenGreedy(a, template, n + 1, out + [f], at + [n], checkReverse);
        }
      }
    }
  }

  lemma GreedyTraffic(a: Algo, template: seq<Packet>, checkReverse: bool) returns (at: seq<nat>)
    requires a.Valid()
    ensures Greedy(a, template, |template|, Chosen(a, template, 0, [], checkReverse, false), at, checkReverse)
  {
    NoneChosen(checkReverse);
    at := ChosenGreedy(a, template, 0, [], [], checkReverse);
  }

  // Every packet of the template lands where one of the flows chosen does.
  lemma NothingToAdd(a: Algo, template: seq<Packet>, out: seq<Flow>, at: seq<nat>, checkReverse: bool, t: nat)
    requires a.Valid() && t < |template| && Greedy(a, template, |template|, out, at, checkReverse)
    ensures Taken(out, FlowAt(a, template, t), checkReverse)
  {
    hide FlowAt;
    var k := 0;
    while k < |at| && at[k] < t
      invariant k <= |at| && (0 < k ==> at[k - 1] < t)
    {
      k := k + 1;
    }
    if k < |at| && at[k] == t {
      assert out[k] in out;
    } else {
      assert Between(at, t, k);
      var g :| g in out[..k] && (g.queue == FlowAt(a, template, t).queue
        || (checkReverse && g.queueReverse == FlowAt(a, template, t).queueReverse));
      assert g in out;
    }
  }
}
