// Definitions shared by several components.

module Common {
  type Byte = bv8

  datatype Option<+T> = None | Some(value: T)

  function Min(a: nat, b: nat): (m: nat)
    ensures m <= a && m <= b && (m == a || m == b)
  {
    if a <= b then a else b
  }

  function Max(a: nat, b: nat): (m: nat)
    ensures a <= m && b <= m && (m == a || m == b)
  {
    if a <= b then b else a
  }

  // Rounded-up division, DIV_CEIL.
  function DivCeil(a: nat, b: nat): nat
    requires 0 < b
  {
    a / b + if a % b != 0 then 1 else 0
  }

  function Pow2(k: nat): (p: nat)
    ensures 0 < p
  {
    if k == 0 then 1 else 2 * Pow2(k - 1)
  }

  ghost predicate NoDuplicates<T>(s: seq<T>) {
    forall i, j :: 0 <= i < j < |s| ==> s[i] != s[j]
  }

  lemma DivUnique(a: nat, n: nat, q: nat, r: nat)
    requires a == n * q + r && r < n
    ensures a / n == q && a % n == r
  {
    var q', r' := a / n, a % n;
    assert a == n * q' + r';
    if q' < q {
      MulLe(n, q' + 1, q);
    } else if q < q' {
      MulLe(n, q + 1, q');
    }
  }

  lemma DivNext(a: nat, n: nat)
    requires 0 < n
    ensures a % n + 1 == n ==> (a + 1) / n == a / n + 1 && (a + 1) % n == 0
    ensures a % n + 1 < n ==> (a + 1) / n == a / n && (a + 1) % n == a % n + 1
  {
    var q, r := a / n, a % n;
    assert a == n * q + r;
    if r + 1 == n {
      assert n * (q + 1) == n * q + n;
      DivUnique(a + 1, n, q + 1, 0);
    } else {
      DivUnique(a + 1, n, q, r + 1);
    }
  }

  lemma MulLe(n: nat, a: nat, b: nat)
    requires a <= b
    ensures n * a <= n * b
  {}

  // How many blocks of n it takes to cover a, counted block by block.
  function Blocks(a: nat, n: nat): nat
    requires 0 < n
    decreases a
  {
    if a == 0 then 0 else 1 + Blocks(a - Min(a, n), n)
  }

  lemma DivStep(a: nat, n: nat)
    requires 0 < n <= a
    ensures a / n == (a - n) / n + 1 && a % n == (a - n) % n
  {
    var q, r := (a - n) / n, (a - n) % n;
    assert a - n == n * q + r && n * (q + 1) == n * q + n;
    DivUnique(a, n, q + 1, r);
  }

  lemma {:induction false} DivCeilCountsBlocks(a: nat, n: nat)
    requires 0 < n
    ensures DivCeil(a, n) == Blocks(a, n)
    decreases a
  {
    if a == 0 {
      DivUnique(0, n, 0, 0);
    } else if a < n {
      DivUnique(a, n, 0, a);
    } else {
      DivStep(a, n);
      DivCeilCountsBlocks(a - n, n);
      SameCeil(a, n);
    }
  }

  lemma SameCeil(a: nat, n: nat)
    requires 0 < n <= a && a / n == (a - n) / n + 1 && a % n == (a - n) % n
    ensures DivCeil(a, n) == DivCeil(a - n, n) + 1
  {}

  // The numbers a, a + 1, ..., a + n - 1.
  function Iota(a: nat, n: nat): (s: seq<nat>)
    ensures |s| == n
    decreases n
  {
    if n == 0 then [] else [a] + Iota(a + 1, n - 1)
  }

  lemma {:induction false} IotaAt(a: nat, n: nat, i: nat)
    requires i < n
    ensures Iota(a, n)[i] == a + i
    decreases n
  {
    if 0 < i {
      IotaAt(a + 1, n - 1, i - 1);
    }
  }

  lemma {:induction false} IotaSplit(a: nat, n: nat, k: nat)
    requires k <= n
    ensures Iota(a, n) == Iota(a, k) + Iota(a + k, n - k)
    decreases n
  {
    if 0 < k {
      IotaSplit(a + 1, n - 1, k - 1);
    }
  }

  lemma ConcatAssociates<T>(a: seq<T>, b: seq<T>, c: seq<T>)
    ensures a + (b + c) == (a + b) + c
  {}
}
