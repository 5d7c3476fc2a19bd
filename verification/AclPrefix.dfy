// How the ACL test turns an IPv6 prefix into rule fields: four of 32 bits or
// two of 64, each with a prefix length of its own.

module AclPrefix {
  import opened Common

  // Bits in network order, the most significant first.
  type Bits = seq<bool>

  const IPV6_BITS: nat := 128

  datatype Field = Field(value: Bits, maskLen: nat)

  // A field of an address agrees with a rule field on as many bits as the rule
  // field's prefix length says.
  ghost predicate FieldMatches(f: Field, value: Bits) {
    f.maskLen <= |f.value| == |value| && value[..f.maskLen] == f.value[..f.maskLen]
  }

  // An address, cut into fields of w bits, agrees with all rule fields.
  ghost predicate Matches(fields: seq<Field>, w: nat, addr: Bits) {
    fields == [] ||
    (w <= |addr| && FieldMatches(fields[0], addr[..w]) && Matches(fields[1..], w, addr[w..]))
  }

  function MaskSum(fields: seq<Field>): nat {
    if fields == [] then 0 else fields[0].maskLen + MaskSum(fields[1..])
  }

  // The address is n fields long.
  ghost predicate Whole(addr: Bits, n: nat, w: nat)
    decreases n
  {
    if n == 0 then addr == [] else w <= |addr| && Whole(addr[w..], n - 1, w)
  }

  // A prefix of m bits cut at every w bits.
  function Split(addr: Bits, m: nat, n: nat, w: nat): (f: seq<Field>)
    requires Whole(addr, n, w)
    ensures |f| == n
    decreases n
  {
    if n == 0 then []
    else [Field(addr[..w], Min(m, w))] + Split(addr[w..], m - Min(m, w), n - 1, w)
  }

  lemma SplitStep(addr: Bits, m: nat, n: nat, w: nat)
    requires Whole(addr, n, w) && n != 0
    ensures w <= |addr| && Whole(addr[w..], n - 1, w)
    ensures Split(addr, m, n, w) == [Field(addr[..w], Min(m, w))] + Split(addr[w..], m - Min(m, w), n - 1, w)
  {}

  lemma NoFields(addr: Bits, m: nat, w: nat)
    requires Whole(addr, 0, w)
    ensures addr == [] && Split(addr, m, 0, w) == [] && MaskSum([]) == 0
  {}

  lemma SumStep(f: Field, rest: seq<Field>)
    ensures MaskSum([f] + rest) == f.maskLen + MaskSum(rest)
  {
    assert ([f] + rest)[1..] == rest;
  }

  lemma MatchesStep(f: Field, rest: seq<Field>, w: nat, addr: Bits)
    ensures Matches([f] + rest, w, addr) <==>
      w <= |addr| && FieldMatches(f, addr[..w]) && Matches(rest, w, addr[w..])
  {
    assert ([f] + rest)[1..] == rest;
  }

  lemma {:induction false} SplitSum(addr: Bits, m: nat, n: nat, w: nat)
    requires Whole(addr, n, w) && m <= |addr|
    ensures MaskSum(Split(addr, m, n, w)) == m
    decreases n
  {
    hide Whole;
    hide Split;
    hide MaskSum;
    if n == 0 {
      NoFields(addr, m, w);
    } else {
      SplitStep(addr, m, n, w);
      SplitSum(addr[w..], m - Min(m, w), n - 1, w);
      SumStep(Field(addr[..w], Min(m, w)), Split(addr[w..], m - Min(m, w), n - 1, w));
    }
  }

  // Agreeing on all fields is agreeing on the prefix.
  lemma {:induction false} SplitMatches(addr: Bits, other: Bits, m: nat, n: nat, w: nat)
    requires Whole(addr, n, w) && |other| == |addr| && m <= |addr|
    ensures Matches(Split(addr, m, n, w), w, other) <==> other[..m] == addr[..m]
    decreases n
  {
    hide Whole;
    hide Split;
    hide Matches;
    hide FieldMatches;
    if n == 0 {
      NoFields(addr, m, w);
      NothingToMatch(w, other);
    } else {
      var k := Min(m, w);
      SplitStep(addr, m, n, w);
      SplitMatches(addr[w..], other[w..], m - k, n - 1, w);
      MatchesStep(Field(addr[..w], k), Split(addr[w..], m - k, n - 1, w), w, other);
      FirstField(addr, other, k, w);
      PrefixParts(addr, other, m, w);
    }
  }

  lemma NothingToMatch(w: nat, addr: Bits)
    ensures Matches([], w, addr)
  {}

  lemma FirstField(addr: Bits, other: Bits, k: nat, w: nat)
    requires k <= w <= |addr| == |other|
    ensures FieldMatches(Field(addr[..w], k), other[..w]) <==> other[..k] == addr[..k]
  {
    assert other[..w][..k] == other[..k] && addr[..w][..k] == addr[..k];
  }

  lemma PrefixParts(addr: Bits, other: Bits, m: nat, w: nat)
    requires |other| == |addr| && m <= |addr| && w <= |addr|
    ensures
      var k := Min(m, w);
      other[..m] == addr[..m] <==> other[..k] == addr[..k] && other[w..][..m - k] == addr[w..][..m - k]
  {
    var k := Min(m, w);
    assert other[..m] == other[..k] + other[w..][..m - k];
    assert addr[..m] == addr[..k] + addr[w..][..m - k];
    assert other[..m][..k] == other[..k] && addr[..m][..k] == addr[..k];
    assert other[..m][k..] == other[w..][..m - k] && addr[..m][k..] == addr[w..][..m - k];
  }

  // The part of a prefix of m bits that falls into field i, as the code has it.
  function PartOf(m: nat, w: nat, i: nat): nat {
    if m >= (i + 1) * w then w else if m > i * w then m - i * w else 0
  }

  lemma {:induction false} SplitAt(addr: Bits, m: nat, n: nat, w: nat, i: nat)
    requires Whole(addr, n, w) && i < n
    ensures i * w + w <= |addr|
    ensures Split(addr, m, n, w)[i] == Field(addr[i * w..i * w + w], PartOf(m, w, i))
    decreases n
  {
    SplitStep(addr, m, n, w);
    hide Whole;
    hide Split;
    hide PartOf;
    if i == 0 {
      FirstPart(m, w);
    } else {
      SplitAt(addr[w..], m - Min(m, w), n - 1, w, i - 1);
      Shift(m, w, i);
      Further(addr, w, (i - 1) * w, i * w);
    }
  }

  lemma Further(addr: Bits, w: nat, a: nat, b: nat)
    requires b == a + w && b + w <= |addr|
    ensures addr[w..][a..a + w] == addr[b..b + w]
  {}

  lemma FirstPart(m: nat, w: nat)
    ensures PartOf(m, w, 0) == Min(m, w)
  {}

  lemma Shift(m: nat, w: nat, i: nat)
    requires 0 < i
    ensures i * w == (i - 1) * w + w
    ensures PartOf(m - Min(m, w), w, i - 1) == PartOf(m, w, i)
  {
    assert i * w == (i - 1) * w + w && (i + 1) * w == i * w + w;
  }

  // The loop of parse_ipv6_u32_net (n = 4, w = 32) and parse_ipv6_u64_net
  // (n = 2, w = 64), after the address is converted; a prefix length past the
  // address is refused.
  method SplitPrefix(addr: Bits, m: nat, n: nat, w: nat) returns (r: Option<seq<Field>>)
    requires Whole(addr, n, w)
    ensures r == if m <= |addr| then Some(Split(addr, m, n, w)) else None
  {
    if |addr| < m {
      return None;
    }
    var fields: seq<Field> := [];
    for i := 0 to n
      invariant fields == Split(addr, m, n, w)[..i]
    {
      SplitAt(addr, m, n, w, i);
      var maskLen: nat;
      if m >= (i + 1) * w {
        maskLen := w;
      } else {
        maskLen := if m > i * w then m - i * w else 0;
      }
      fields := fields + [Field(addr[i * w..i * w + w], maskLen)];
    }
    assert Split(addr, m, n, w)[..n] == Split(addr, m, n, w);
    r := Some(fields);
  }

  // Both layouts accept exactly the addresses whose first m bits are those of
  // the rule, so they accept the same ones.
  lemma SameAddresses(addr: Bits, other: Bits, m: nat)
    requires |addr| == |other| == IPV6_BITS && m <= IPV6_BITS
    ensures Whole(addr, 4, 32) && Whole(addr, 2, 64)
    ensures MaskSum(Split(addr, m, 4, 32)) == MaskSum(Split(addr, m, 2, 64)) == m
    ensures Matches(Split(addr, m, 4, 32), 32, other) <==> other[..m] == addr[..m]
    ensures Matches(Split(addr, m, 2, 64), 64, other) <==> other[..m] == addr[..m]
  {
    WholeAddress(addr);
    hide Whole;
    SplitSum(addr, m, 4, 32);
    SplitSum(addr, m, 2, 64);
    SplitMatches(addr, other, m, 4, 32);
    SplitMatches(addr, other, m, 2, 64);
  }

  lemma WholeAddress(addr: Bits)
    requires |addr| == IPV6_BITS
    ensures Whole(addr, 4, 32) && Whole(addr, 2, 64)
  {
    assert Whole(addr[96..][32..], 0, 32) && addr[64..][32..] == addr[96..] && addr[32..][32..] == addr[64..];
    assert Whole(addr[96..], 1, 32) && Whole(addr[64..], 2, 32) && Whole(addr[32..], 3, 32);
    assert Whole(addr[64..][64..], 0, 64) && Whole(addr[64..], 1, 64);
  }
}
