// Putting chunks together in another order: it makes no difference, whatever
// the order, exactly when any two of the chunks commute.

module Reorder {
  import opened Common
  import opened PrepareBufs
  import opened CarryOver

  function At(chunks: seq<seq<Byte>>, b: nat): seq<Byte> {
    if b < |chunks| then chunks[b] else []
  }

  // Some of the chunks one after the other.
  function Picked(chunks: seq<seq<Byte>>, order: seq<nat>): seq<Byte> {
    if order == [] then [] else At(chunks, order[0]) + Picked(chunks, order[1..])
  }

  ghost predicate Permutes(order: seq<nat>, n: nat) {
    multiset(order) == multiset(Iota(0, n))
  }

  ghost predicate Commute(chunks: seq<seq<Byte>>) {
    forall i, j :: 0 <= i < j < |chunks| ==> chunks[i] + chunks[j] == chunks[j] + chunks[i]
  }

  lemma {:induction false} PickedConcat(chunks: seq<seq<Byte>>, a: seq<nat>, b: seq<nat>)
    ensures Picked(chunks, a + b) == Picked(chunks, a) + Picked(chunks, b)
  {
    hide At;
    if a == [] {
      assert a + b == b;
    } else {
      PickedConcat(chunks, a[1..], b);
      assert (a + b)[1..] == a[1..] + b && (a + b)[0] == a[0];
      ConcatAssociates(At(chunks, a[0]), Picked(chunks, a[1..]), Picked(chunks, b));
    }
  }

  lemma CommutesAt(chunks: seq<seq<Byte>>, i: nat, j: nat)
    requires Commute(chunks)
    ensures At(chunks, i) + At(chunks, j) == At(chunks, j) + At(chunks, i)
  {}

  // A chunk moves past any of the others.
  lemma {:induction false} MovesPast(chunks: seq<seq<Byte>>, b: nat, order: seq<nat>)
    requires Commute(chunks)
    ensures At(chunks, b) + Picked(chunks, order) == Picked(chunks, order) + At(chunks, b)
  {
    if order != [] {
      var x, y, rest := At(chunks, b), At(chunks, order[0]), Picked(chunks, order[1..]);
      MovesPast(chunks, b, order[1..]);
      CommutesAt(chunks, b, order[0]);
      Past(x, y, rest);
    }
  }

  lemma Past(x: seq<Byte>, y: seq<Byte>, rest: seq<Byte>)
    requires x + y == y + x && x + rest == rest + x
    ensures x + (y + rest) == (y + rest) + x
  {
    ConcatAssociates(x, y, rest);
    ConcatAssociates(y, x, rest);
    ConcatAssociates(y, rest, x);
  }

  lemma {:induction false} AnyOrderAlike(chunks: seq<seq<Byte>>, a: seq<nat>, b: seq<nat>)
    requires Commute(chunks) && multiset(a) == multiset(b)
    ensures Picked(chunks, a) == Picked(chunks, b)
  {
    hide At;
    hide Commute;
    SameLength(a, b);
    if a != [] {
      var p := TakeFirst(a, b);
      assert Without(a, 0) == a[1..];
      AnyOrderAlike(chunks, a[1..], Without(b, p));
      ToFront(chunks, b, p);
    }
  }

  lemma ToFront(chunks: seq<seq<Byte>>, b: seq<nat>, p: nat)
    requires Commute(chunks) && p < |b|
    ensures Picked(chunks, b) == At(chunks, b[p]) + Picked(chunks, Without(b, p))
  {
    var front, back := b[..p], b[p + 1..];
    assert b == front + ([b[p]] + back);
    PickedConcat(chunks, front, [b[p]] + back);
    PickedConcat(chunks, front, back);
    assert ([b[p]] + back)[1..] == back;
    MovesPast(chunks, b[p], front);
    ConcatAssociates(Picked(chunks, front), At(chunks, b[p]), Picked(chunks, back));
    ConcatAssociates(At(chunks, b[p]), Picked(chunks, front), Picked(chunks, back));
  }

  lemma {:induction false} InOrderPicks(chunks: seq<seq<Byte>>, a: nat)
    requires a <= |chunks|
    ensures Picked(chunks, Iota(a, |chunks| - a)) == Concat(chunks[a..])
    decreases |chunks| - a
  {
    if a < |chunks| {
      InOrderPicks(chunks, a + 1);
      assert Iota(a, |chunks| - a)[1..] == Iota(a + 1, |chunks| - (a + 1));
      assert chunks[a..][1..] == chunks[a + 1..];
    }
  }

  // All buffers but i and j.
  function Others(n: nat, i: nat, j: nat): seq<nat>
    requires i < j < n
  {
    Iota(0, i) + Iota(i + 1, j - i - 1) + Iota(j + 1, n - j - 1)
  }

  lemma OthersPermute(n: nat, i: nat, j: nat)
    requires i < j < n
    ensures Permutes([i, j] + Others(n, i, j), n) && Permutes([j, i] + Others(n, i, j), n)
  {
    hide Iota;
    var a, b, c := Iota(0, i), Iota(i + 1, j - i - 1), Iota(j + 1, n - j - 1);
    IotaAround(n, i, j);
    Rearranged(a, b, c, i, j);
  }

  lemma IotaAround(n: nat, i: nat, j: nat)
    requires i < j < n
    ensures Iota(0, n) == Iota(0, i) + ([i] + (Iota(i + 1, j - i - 1) + ([j] + Iota(j + 1, n - j - 1))))
  {
    hide Iota;
    IotaPivot(0, n, i);
    IotaPivot(i + 1, n - i - 1, j);
  }

  // The numbers before p, p itself, and those behind it.
  lemma IotaPivot(a: nat, n: nat, p: nat)
    requires a <= p < a + n
    ensures Iota(a, n) == Iota(a, p - a) + ([p] + Iota(p + 1, a + n - p - 1))
  {
    IotaSplit(a, n, p - a);
    assert Iota(p, a + n - p) == [p] + Iota(p + 1, a + n - p - 1);
  }

  lemma Rearranged(a: seq<nat>, b: seq<nat>, c: seq<nat>, i: nat, j: nat)
    ensures multiset([i, j] + (a + b + c)) == multiset(a + ([i] + (b + ([j] + c)))) == multiset([j, i] + (a + b + c))
  {
    var x, y := multiset{i}, multiset{j};
    var rest := multiset(a) + multiset(b) + multiset(c);
    assert multiset([i, j]) == x + y && multiset([j, i]) == x + y;
    assert multiset(a + b + c) == rest;
    assert multiset([i, j] + (a + b + c)) == (x + y) + rest && multiset([j, i] + (a + b + c)) == (x + y) + rest;
    assert multiset(b + ([j] + c)) == multiset(b) + (y + multiset(c));
    assert multiset(a + ([i] + (b + ([j] + c)))) == multiset(a) + (x + (multiset(b) + (y + multiset(c))));
  }

  // Every order gives the same exactly when the chunks commute.
  lemma OrdersAlike(chunks: seq<seq<Byte>>)
    ensures Commute(chunks) <==>
      forall order :: Permutes(order, |chunks|) ==> Picked(chunks, order) == Concat(chunks)
  {
    hide Commute;
    hide Permutes;
    hide Picked;
    hide Concat;
    if Commute(chunks) {
      forall order | Permutes(order, |chunks|) ensures Picked(chunks, order) == Concat(chunks) {
        AnyOrderRestores(chunks, order);
      }
    }
    if forall order :: Permutes(order, |chunks|) ==> Picked(chunks, order) == Concat(chunks) {
      AlikeCommute(chunks);
    }
  }

  lemma AnyOrderRestores(chunks: seq<seq<Byte>>, order: seq<nat>)
    requires Commute(chunks) && Permutes(order, |chunks|)
    ensures Picked(chunks, order) == Concat(chunks)
  {
    hide Commute;
    AnyOrderAlike(chunks, order, Iota(0, |chunks|));
    InOrderPicks(chunks, 0);
    assert chunks[0..] == chunks;
  }

  lemma AlikeCommute(chunks: seq<seq<Byte>>)
    requires forall order :: Permutes(order, |chunks|) ==> Picked(chunks, order) == Concat(chunks)
    ensures Commute(chunks)
  {
    hide Permutes;
    hide Picked;
    hide Concat;
    hide Others;
    forall i, j | 0 <= i < j < |chunks| ensures chunks[i] + chunks[j] == chunks[j] + chunks[i] {
      var rest := Others(|chunks|, i, j);
      OthersPermute(|chunks|, i, j);
      TwoFirst(chunks, i, j, rest);
      TwoFirst(chunks, j, i, rest);
      CancelTail(chunks[i] + chunks[j], chunks[j] + chunks[i], Picked(chunks, rest));
    }
  }

  lemma CancelTail(a: seq<Byte>, b: seq<Byte>, rest: seq<Byte>)
    requires a + rest == b + rest
    ensures a == b
  {
    assert |a| == |b|;
    assert a == (a + rest)[..|a|] && b == (b + rest)[..|b|];
  }

  lemma TwoFirst(chunks: seq<seq<Byte>>, i: nat, j: nat, rest: seq<nat>)
    requires i < |chunks| && j < |chunks|
    ensures Picked(chunks, [i, j] + rest) == (chunks[i] + chunks[j]) + Picked(chunks, rest)
  {
    PickedConcat(chunks, [i, j], rest);
    assert [i, j][1..] == [j] && [j][1..] == [];
  }
}
