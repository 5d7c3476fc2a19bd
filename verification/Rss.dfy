// The Toeplitz hash of dpdk-rss-flows.py against its definition by windows of
// the key, and what it means for flows and their reverse.

module Rss {
  import opened Common

  type Word = bv32

  // Bit t of a byte, the most significant one first.
  function Bit(b: Byte, t: nat): bool
    requires t < 8
  {
    (b >> (7 - t)) & 1 == 1
  }

  // Bit n of a key read from the left; no bits are set past its end.
  function KeyBit(key: seq<Byte>, n: nat): bool {
    n / 8 < |key| && Bit(key[n / 8], n % 8)
  }

  function Push(v: Word, bit: bool): Word {
    (v << 1) | (if bit then 1 else 0)
  }

  // The n key bits from bit w on, the first of them the most significant; of
  // more than 32 the last 32.
  function Bits(key: seq<Byte>, w: nat, n: nat): Word {
    if n == 0 then 0 else Push(Bits(key, w, n - 1), KeyBit(key, w + n - 1))
  }

  // The 32-bit window of the key at bit w.
  function Window(key: seq<Byte>, w: nat): Word {
    Bits(key, w, 32)
  }

  // v with the first t bits of b behind it.
  function Shifted(v: Word, b: Byte, t: nat): Word
    requires t <= 8
  {
    (v << t) | ((b >> (8 - t)) as Word)
  }

  lemma Push0(v: Word, b: Byte)
    ensures Push(Shifted(v, b, 0), Bit(b, 0)) == Shifted(v, b, 1)
  {}

  lemma Push1(v: Word, b: Byte)
    ensures Push(Shifted(v, b, 1), Bit(b, 1)) == Shifted(v, b, 2)
  {}

  lemma Push2(v: Word, b: Byte)
    ensures Push(Shifted(v, b, 2), Bit(b, 2)) == Shifted(v, b, 3)
  {}

  lemma Push3(v: Word, b: Byte)
    ensures Push(Shifted(v, b, 3), Bit(b, 3)) == Shifted(v, b, 4)
  {}

  lemma Push4(v: Word, b: Byte)
    ensures Push(Shifted(v, b, 4), Bit(b, 4)) == Shifted(v, b, 5)
  {}

  lemma Push5(v: Word, b: Byte)
    ensures Push(Shifted(v, b, 5), Bit(b, 5)) == Shifted(v, b, 6)
  {}

  lemma Push6(v: Word, b: Byte)
    ensures Push(Shifted(v, b, 6), Bit(b, 6)) == Shifted(v, b, 7)
  {}

  lemma Push7(v: Word, b: Byte)
    ensures Push(Shifted(v, b, 7), Bit(b, 7)) == Shifted(v, b, 8)
  {}

  lemma PushOne(v: Word, b: Byte, t: nat)
    requires t < 8
    ensures Push(Shifted(v, b, t), Bit(b, t)) == Shifted(v, b, t + 1)
  {
    hide Push;
    hide Bit;
    hide Shifted;
    match t
    case 0 => Push0(v, b);
    case 1 => Push1(v, b);
    case 2 => Push2(v, b);
    case 3 => Push3(v, b);
    case 4 => Push4(v, b);
    case 5 => Push5(v, b);
    case 6 => Push6(v, b);
    case 7 => Push7(v, b);
  }

  lemma Unshifted(v: Word, b: Byte)
    ensures Shifted(v, b, 0) == v
  {}

  lemma KeyBitAt(key: seq<Byte>, i: nat, t: nat)
    requires i < |key| && t < 8
    ensures KeyBit(key, 8 * i + t) == Bit(key[i], t)
  {
    hide Bit;
    DivUnique(8 * i + t, 8, i, t);
  }

  // Reading the first t bits of the next byte.
  lemma {:induction false} BitsInto(key: seq<Byte>, w: nat, n: nat, i: nat, t: nat)
    requires t <= 8 && w + n == 8 * i && i < |key|
    ensures Bits(key, w, n + t) == Shifted(Bits(key, w, n), key[i], t)
    decreases t
  {
    hide Bit;
    hide Push;
    hide KeyBit;
    hide Shifted;
    if t == 0 {
      Unshifted(Bits(key, w, n), key[i]);
    } else {
      BitsInto(key, w, n, i, t - 1);
      KeyBitAt(key, i, t - 1);
      PushOne(Bits(key, w, n), key[i], t - 1);
    }
  }

  // The four bytes from i on as the code puts them together.
  function FourBytes(key: seq<Byte>, i: nat): Word
    requires i + 3 < |key|
  {
    ((key[i] as Word) << 24) | ((key[i + 1] as Word) << 16) | ((key[i + 2] as Word) << 8) | (key[i + 3] as Word)
  }

  lemma JoinOne(b0: Byte)
    ensures Shifted(0, b0, 8) == b0 as Word
  {}

  lemma JoinTwo(b0: Byte, b1: Byte)
    ensures Shifted(b0 as Word, b1, 8) == ((b0 as Word) << 8) | (b1 as Word)
  {}

  lemma JoinThree(b0: Byte, b1: Byte, b2: Byte)
    ensures Shifted(((b0 as Word) << 8) | (b1 as Word), b2, 8) ==
      ((b0 as Word) << 16) | ((b1 as Word) << 8) | (b2 as Word)
  {}

  lemma JoinFour(b0: Byte, b1: Byte, b2: Byte, b3: Byte)
    ensures Shifted(((b0 as Word) << 16) | ((b1 as Word) << 8) | (b2 as Word), b3, 8) ==
      ((b0 as Word) << 24) | ((b1 as Word) << 16) | ((b2 as Word) << 8) | (b3 as Word)
  {}

  lemma Join(b0: Byte, b1: Byte, b2: Byte, b3: Byte)
    ensures Shifted(Shifted(Shifted(Shifted(0, b0, 8), b1, 8), b2, 8), b3, 8)
      == ((b0 as Word) << 24) | ((b1 as Word) << 16) | ((b2 as Word) << 8) | (b3 as Word)
  {
    hide Shifted;
    JoinOne(b0);
    JoinTwo(b0, b1);
    JoinThree(b0, b1, b2);
    JoinFour(b0, b1, b2, b3);
  }

  lemma BitsOfFourBytes(key: seq<Byte>, i: nat)
    requires i + 3 < |key|
    ensures Bits(key, 8 * i, 32) == FourBytes(key, i)
  {
    hide Shifted;
    hide Push;
    hide KeyBit;
    BitsInto(key, 8 * i, 0, i, 8);
    BitsInto(key, 8 * i, 8, i + 1, 8);
    BitsInto(key, 8 * i, 16, i + 2, 8);
    BitsInto(key, 8 * i, 24, i + 3, 8);
    Join(key[i], key[i + 1], key[i + 2], key[i + 3]);
  }

  function Xor(a: Word, b: Word): Word {
    a ^ b
  }

  function Twice(v: Word): Word {
    v << 1
  }

  function Up(v: Word): Word {
    v << 8
  }

  // v shifted n times by one.
  function Shl(v: Word, n: nat): Word {
    if n == 0 then v else Twice(Shl(v, n - 1))
  }

  lemma EightTwices(v: Word)
    ensures Twice(Twice(Twice(Twice(Twice(Twice(Twice(Twice(v)))))))) == Up(v)
  {}

  lemma Shl8(v: Word, n: nat)
    ensures Shl(v, n + 8) == Up(Shl(v, n))
  {
    hide Twice;
    hide Up;
    EightTwices(Shl(v, n));
    assert Shl(v, n + 2) == Twice(Twice(Shl(v, n)));
    assert Shl(v, n + 4) == Twice(Twice(Shl(v, n + 2)));
    assert Shl(v, n + 6) == Twice(Twice(Shl(v, n + 4)));
    assert Shl(v, n + 8) == Twice(Twice(Shl(v, n + 6)));
  }

  lemma FourUps(v: Word)
    ensures Up(Up(Up(Up(v)))) == 0
  {}

  lemma ShiftedOut(v: Word)
    ensures Shl(v, 32) == 0
  {
    hide Twice;
    hide Up;
    Shl8(v, 0);
    Shl8(v, 8);
    Shl8(v, 16);
    Shl8(v, 24);
    FourUps(v);
  }

  lemma PushApart(a: Word, b: Word, bit: bool)
    ensures Xor(Push(a, bit), Push(b, bit)) == Twice(Xor(a, b))
  {}

  lemma XorZero(a: Word)
    ensures Xor(a, 0) == a
  {}

  lemma XorSame(a: Word, b: Word)
    requires Xor(a, b) == 0
    ensures a == b
  {}

  // Starting some bits earlier makes a difference only until those are shifted
  // out.
  lemma {:induction false} StartEarlier(key: seq<Byte>, w: nat, k: nat, n: nat)
    ensures Xor(Bits(key, w, k + n), Bits(key, w + k, n)) == Shl(Bits(key, w, k), n)
    decreases n
  {
    hide Push;
    hide Twice;
    hide Xor;
    hide KeyBit;
    if n == 0 {
      XorZero(Bits(key, w, k));
    } else {
      StartEarlier(key, w, k, n - 1);
      PushApart(Bits(key, w, k + (n - 1)), Bits(key, w + k, n - 1), KeyBit(key, w + k + (n - 1)));
    }
  }

  lemma BitsFromInside(key: seq<Byte>, w: nat, k: nat)
    ensures Bits(key, w, k + 32) == Window(key, w + k)
  {
    hide Bits;
    hide Shl;
    hide Xor;
    StartEarlier(key, w, k, 32);
    ShiftedOut(Bits(key, w, k));
    XorSame(Bits(key, w, k + 32), Bits(key, w + k, 32));
  }

  // The keyword of bit j of byte i is the window of the key at bit 8 * i + j:
  // for the first bit of a byte four bytes of the key, otherwise those shifted
  // and the top of the fifth.
  lemma KeywordIsWindow(key: seq<Byte>, i: nat, j: nat)
    requires j < 8 && i + 3 < |key|
    ensures j == 0 ==> FourBytes(key, i) == Window(key, 8 * i)
    ensures 0 < j && i + 4 < |key| ==> Shifted(FourBytes(key, i), key[i + 4], j) == Window(key, 8 * i + j)
  {
    hide Bits;
    hide Shifted;
    hide FourBytes;
    BitsOfFourBytes(key, i);
    if 0 < j && i + 4 < |key| {
      BitsInto(key, 8 * i, 32, i + 4, j);
      BitsFromInside(key, 8 * i, j);
    }
  }

  // The hash by definition, of data that starts at bit w of the key: the XOR of
  // the windows at the set bits.
  function ByteHash(key: seq<Byte>, b: Byte, w: nat, t: nat): Word
    requires t <= 8
  {
    if t == 0 then 0
    else Xor(ByteHash(key, b, w, t - 1), if Bit(b, t - 1) then Window(key, w + t - 1) else 0)
  }

  function Hash(key: seq<Byte>, data: seq<Byte>, w: nat): Word {
    if data == [] then 0
    else
      var n := |data| - 1;
      Xor(Hash(key, data[..n], w), ByteHash(key, data[n], w + 8 * n, 8))
  }

  // The window of every set bit lies within the key.
  ghost predicate Covered(key: seq<Byte>, data: seq<Byte>) {
    forall i, j :: 0 <= i < |data| && 0 <= j < 8 && Bit(data[i], j) ==> 8 * i + j + 32 <= 8 * |key|
  }

  lemma LongKeyCovers(key: seq<Byte>, data: seq<Byte>)
    requires |data| + 4 <= |key|
    ensures Covered(key, data)
  {}

  // toeplitz_hash. An index past the end of the key, an error in the original,
  // is None here: it happens exactly when a set bit has no whole window.
  method ToeplitzHash(key: seq<Byte>, data: seq<Byte>) returns (r: Option<Word>)
    ensures r == if Covered(key, data) then Some(Hash(key, data, 0)) else None
  {
    hide Bit;
    hide Xor;
    hide Window;
    hide FourBytes;
    hide Shifted;
    var hashValue: Word := 0;
    for i := 0 to |data|
      invariant hashValue == Hash(key, data[..i], 0)
      invariant Covered(key, data[..i])
    {
      StartByte(hashValue, key, data[i], 8 * i);
      for j := 0 to 8
        invariant hashValue == Xor(Hash(key, data[..i], 0), ByteHash(key, data[i], 8 * i, j))
        invariant forall k :: 0 <= k < j && Bit(data[i], k) ==> 8 * i + k + 32 <= 8 * |key|
      {
        NextBit(key, Hash(key, data[..i], 0), data[i], 8 * i, j);
        if Bit(data[i], j) {
          if |key| <= i + 3 {
            return None;
          }
          var keyword := FourBytes(key, i);
          if 0 < j {
            if |key| <= i + 4 {
              return None;
            }
            keyword := Shifted(keyword, key[i + 4], j);
          }
          KeywordIsWindow(key, i, j);
          hashValue := Xor(hashValue, keyword);
        }
      }
      assert data[..i + 1][..i] == data[..i];
    }
    assert data[..|data|] == data;
    r := Some(hashValue);
  }

  lemma StartByte(h: Word, key: seq<Byte>, b: Byte, w: nat)
    ensures Xor(h, ByteHash(key, b, w, 0)) == h
  {
    XorZero(h);
  }

  lemma NextBit(key: seq<Byte>, h: Word, b: Byte, w: nat, j: nat)
    requires j < 8
    ensures Xor(h, ByteHash(key, b, w, j + 1))
      == if Bit(b, j) then Xor(Xor(h, ByteHash(key, b, w, j)), Window(key, w + j)) else Xor(h, ByteHash(key, b, w, j))
  {
    hide Xor;
    hide Bit;
    hide Window;
    XorAssoc(h, ByteHash(key, b, w, j), Window(key, w + j));
    XorZero(ByteHash(key, b, w, j));
  }

  lemma XorAssoc(a: Word, b: Word, c: Word)
    ensures Xor(a, Xor(b, c)) == Xor(Xor(a, b), c)
  {}

  lemma XorSwap(a: Word, b: Word, c: Word, d: Word)
    ensures Xor(Xor(a, b), Xor(c, d)) == Xor(Xor(a, c), Xor(b, d))
  {
    hide Xor;
    XorAssoc(a, b, Xor(c, d));
    XorAssoc(b, c, d);
    XorRules(b, c);
    XorAssoc(c, b, d);
    XorAssoc(a, c, Xor(b, d));
  }

  lemma XorRules(a: Word, b: Word)
    ensures Xor(a, b) == Xor(b, a) && Xor(a, a) == 0 && Xor(a, 0) == a && Xor(0, a) == a
  {}

  function XorByte(a: Byte, b: Byte): Byte {
    a ^ b
  }

  // Bytewise XOR of data of equal length.
  function XorData(a: seq<Byte>, b: seq<Byte>): (r: seq<Byte>)
    requires |a| == |b|
    ensures |r| == |a|
  {
    seq(|a|, i requires 0 <= i < |a| => XorByte(a[i], b[i]))
  }

  lemma XorEachBit(a: Byte, b: Byte)
    ensures Bit(XorByte(a, b), 0) <==> Bit(a, 0) != Bit(b, 0)
    ensures Bit(XorByte(a, b), 1) <==> Bit(a, 1) != Bit(b, 1)
    ensures Bit(XorByte(a, b), 2) <==> Bit(a, 2) != Bit(b, 2)
    ensures Bit(XorByte(a, b), 3) <==> Bit(a, 3) != Bit(b, 3)
    ensures Bit(XorByte(a, b), 4) <==> Bit(a, 4) != Bit(b, 4)
    ensures Bit(XorByte(a, b), 5) <==> Bit(a, 5) != Bit(b, 5)
    ensures Bit(XorByte(a, b), 6) <==> Bit(a, 6) != Bit(b, 6)
    ensures Bit(XorByte(a, b), 7) <==> Bit(a, 7) != Bit(b, 7)
  {}

  lemma BitXor(a: Byte, b: Byte, t: nat)
    requires t < 8
    ensures Bit(XorByte(a, b), t) <==> Bit(a, t) != Bit(b, t)
  {
    hide Bit;
    hide XorByte;
    XorEachBit(a, b);
  }

  lemma {:induction false} ByteHashLinear(key: seq<Byte>, a: Byte, b: Byte, w: nat, t: nat)
    requires t <= 8
    ensures ByteHash(key, XorByte(a, b), w, t) == Xor(ByteHash(key, a, w, t), ByteHash(key, b, w, t))
    decreases t
  {
    hide Bit;
    hide Xor;
    hide XorByte;
    hide Window;
    XorRules(0, 0);
    if 0 < t {
      ByteHashLinear(key, a, b, w, t - 1);
      BitXor(a, b, t - 1);
      var win := Window(key, w + t - 1);
      XorRules(win, 0);
      XorSwap(ByteHash(key, a, w, t - 1), ByteHash(key, b, w, t - 1),
              if Bit(a, t - 1) then win else 0, if Bit(b, t - 1) then win else 0);
    }
  }

  // Linearity: the hash of an XOR is the XOR of the hashes, for any key.
  lemma {:induction false} HashLinear(key: seq<Byte>, a: seq<Byte>, b: seq<Byte>, w: nat)
    requires |a| == |b|
    ensures Hash(key, XorData(a, b), w) == Xor(Hash(key, a, w), Hash(key, b, w))
  {
    hide Xor;
    hide ByteHash;
    hide XorByte;
    XorRules(0, 0);
    if a != [] {
      var n := |a| - 1;
      assert XorData(a, b)[..n] == XorData(a[..n], b[..n]);
      HashLinear(key, a[..n], b[..n], w);
      ByteHashLinear(key, a[n], b[n], w + 8 * n, 8);
      XorSwap(Hash(key, a[..n], w), Hash(key, b[..n], w),
              ByteHash(key, a[n], w + 8 * n, 8), ByteHash(key, b[n], w + 8 * n, 8));
    }
  }

  lemma {:induction false} HashConcat(key: seq<Byte>, a: seq<Byte>, b: seq<Byte>, w: nat)
    ensures Hash(key, a + b, w) == Xor(Hash(key, a, w), Hash(key, b, w + 8 * |a|))
    decreases |b|
  {
    hide Xor;
    hide ByteHash;
    if b == [] {
      assert a + b == a;
      XorRules(Hash(key, a, w), 0);
    } else {
      var n := |b| - 1;
      assert (a + b)[..|a| + n] == a + b[..n];
      HashConcat(key, a, b[..n], w);
      XorAssoc(Hash(key, a, w), Hash(key, b[..n], w + 8 * |a|), ByteHash(key, b[n], w + 8 * (|a| + n), 8));
    }
  }

  // The windows at bits lo, ..., lo + n - 1 repeat d bits later.
  ghost predicate Repeats(key: seq<Byte>, lo: nat, n: nat, d: nat) {
    forall w :: lo <= w < lo + n ==> Window(key, w) == Window(key, w + d)
  }

  lemma {:induction false} ByteHashRepeats(key: seq<Byte>, b: Byte, w: nat, t: nat, d: nat)
    requires t <= 8 && Repeats(key, w, t, d)
    ensures ByteHash(key, b, w, t) == ByteHash(key, b, w + d, t)
    decreases t
  {
    hide Bit;
    hide Xor;
    hide Window;
    if 0 < t {
      ByteHashRepeats(key, b, w, t - 1, d);
      assert Window(key, w + t - 1) == Window(key, w + t - 1 + d);
    }
  }

  lemma {:induction false} HashRepeats(key: seq<Byte>, data: seq<Byte>, w: nat, d: nat)
    requires Repeats(key, w, 8 * |data|, d)
    ensures Hash(key, data, w) == Hash(key, data, w + d)
  {
    hide Xor;
    hide Window;
    hide ByteHash;
    if data != [] {
      var n := |data| - 1;
      HashRepeats(key, data[..n], w, d);
      ByteHashRepeats(key, data[n], w + 8 * n, 8, d);
    }
  }

  function BitByte(t: nat): Byte
    requires t < 8
  {
    match t
    case 0 => 0x80
    case 1 => 0x40
    case 2 => 0x20
    case 3 => 0x10
    case 4 => 0x08
    case 5 => 0x04
    case 6 => 0x02
    case 7 => 0x01
  }

  lemma BitTable()
    ensures Bit(0x80, 0) && !Bit(0x80, 1) && !Bit(0x80, 2) && !Bit(0x80, 3)
      && !Bit(0x80, 4) && !Bit(0x80, 5) && !Bit(0x80, 6) && !Bit(0x80, 7)
    ensures !Bit(0x40, 0) && Bit(0x40, 1) && !Bit(0x40, 2) && !Bit(0x40, 3)
      && !Bit(0x40, 4) && !Bit(0x40, 5) && !Bit(0x40, 6) && !Bit(0x40, 7)
    ensures !Bit(0x20, 0) && !Bit(0x20, 1) && Bit(0x20, 2) && !Bit(0x20, 3)
      && !Bit(0x20, 4) && !Bit(0x20, 5) && !Bit(0x20, 6) && !Bit(0x20, 7)
    ensures !Bit(0x10, 0) && !Bit(0x10, 1) && !Bit(0x10, 2) && Bit(0x10, 3)
      && !Bit(0x10, 4) && !Bit(0x10, 5) && !Bit(0x10, 6) && !Bit(0x10, 7)
    ensures !Bit(0x08, 0) && !Bit(0x08, 1) && !Bit(0x08, 2) && !Bit(0x08, 3)
      && Bit(0x08, 4) && !Bit(0x08, 5) && !Bit(0x08, 6) && !Bit(0x08, 7)
    ensures !Bit(0x04, 0) && !Bit(0x04, 1) && !Bit(0x04, 2) && !Bit(0x04, 3)
      && !Bit(0x04, 4) && Bit(0x04, 5) && !Bit(0x04, 6) && !Bit(0x04, 7)
    ensures !Bit(0x02, 0) && !Bit(0x02, 1) && !Bit(0x02, 2) && !Bit(0x02, 3)
      && !Bit(0x02, 4) && !Bit(0x02, 5) && Bit(0x02, 6) && !Bit(0x02, 7)
    ensures !Bit(0x01, 0) && !Bit(0x01, 1) && !Bit(0x01, 2) && !Bit(0x01, 3)
      && !Bit(0x01, 4) && !Bit(0x01, 5) && !Bit(0x01, 6) && Bit(0x01, 7)
    ensures forall j :: 0 <= j < 8 ==> !Bit(0, j)
  {}

  lemma BitByteBit(t: nat, j: nat)
    requires t < 8 && j < 8
    ensures Bit(BitByte(t), j) <==> j == t
    ensures !Bit(0, j)
  {
    hide Bit;
    BitTable();
  }

  // Data of n bytes with bit k set, none if there is no bit k.
  function OneBit(n: nat, k: nat): (data: seq<Byte>)
    ensures |data| == n
  {
    seq(n, i => if i == k / 8 then BitByte(k % 8) else 0)
  }

  lemma {:induction false} ByteHashOneBit(key: seq<Byte>, k: nat, w: nat, t: nat)
    requires k < 8 && t <= 8
    ensures ByteHash(key, BitByte(k), w, t) == if k < t then Window(key, w + k) else 0
    ensures ByteHash(key, 0, w, t) == 0
    decreases t
  {
    hide Bit;
    hide BitByte;
    hide Xor;
    hide Window;
    if 0 < t {
      ByteHashOneBit(key, k, w, t - 1);
      BitByteBit(k, t - 1);
      XorRules(0, Window(key, w + k));
      XorRules(Window(key, w + k), 0);
      XorRules(0, 0);
    }
  }

  lemma {:induction false} HashOneBit(key: seq<Byte>, n: nat, k: nat, w: nat)
    ensures Hash(key, OneBit(n, k), w) == if k < 8 * n then Window(key, w + k) else 0
    decreases n
  {
    hide Xor;
    hide Window;
    hide ByteHash;
    hide BitByte;
    if 0 < n {
      assert OneBit(n, k)[..n - 1] == OneBit(n - 1, k);
      HashOneBit(key, n - 1, k, w);
      ByteHashOneBit(key, k % 8, w + 8 * (n - 1), 8);
      XorRules(0, Window(key, w + k));
      XorRules(Window(key, w + k), 0);
      XorRules(0, 0);
    }
  }

  // Hashing two parts of n bytes each, the second at bit w + 8 * n.
  function Pair(key: seq<Byte>, a: seq<Byte>, b: seq<Byte>, w: nat): Word {
    Xor(Hash(key, a, w), Hash(key, b, w + 8 * |a|))
  }

  lemma SwapSame(key: seq<Byte>, a: seq<Byte>, b: seq<Byte>, w: nat, n: nat)
    requires |a| == |b| == n && Repeats(key, w, 8 * n, 8 * n)
    ensures Pair(key, a, b, w) == Pair(key, b, a, w)
  {
    hide Xor;
    hide Repeats;
    HashRepeats(key, a, w, 8 * n);
    HashRepeats(key, b, w, 8 * n);
    XorRules(Hash(key, a, w), Hash(key, b, w));
  }

  // A single bit tells two windows apart.
  lemma SwapTells(key: seq<Byte>, n: nat, k: nat, w: nat)
    requires k < 8 * n
    ensures Pair(key, OneBit(n, k), OneBit(n, 8 * n), w) == Window(key, w + k)
    ensures Pair(key, OneBit(n, 8 * n), OneBit(n, k), w) == Window(key, w + k + 8 * n)
    ensures Pair(key, OneBit(n, 8 * n), OneBit(n, 8 * n), w) == 0
  {
    hide Xor;
    hide Window;
    HashOneBit(key, n, k, w);
    HashOneBit(key, n, 8 * n, w + 8 * n);
    HashOneBit(key, n, 8 * n, w);
    HashOneBit(key, n, k, w + 8 * n);
    XorRules(Window(key, w + k), 0);
    XorRules(Window(key, w + k + 8 * n), 0);
    XorRules(0, 0);
  }

  datatype Packet = Packet(src: seq<Byte>, dst: seq<Byte>, sport: seq<Byte>, dport: seq<Byte>) {
    function Reverse(): Packet {
      Packet(dst, src, dport, sport)
    }

    function HashData(useL4Port: bool): seq<Byte> {
      src + dst + if useL4Port then sport + dport else []
    }
  }

  // Packed addresses of n bytes, packed ports of two.
  ghost predicate Sized(p: Packet, n: nat) {
    |p.src| == |p.dst| == n && |p.sport| == |p.dport| == 2
  }

  lemma HashOfPacket(key: seq<Byte>, p: Packet, n: nat, ports: bool)
    requires Sized(p, n)
    ensures Hash(key, p.HashData(ports), 0)
      == Xor(Pair(key, p.src, p.dst, 0), if ports then Pair(key, p.sport, p.dport, 16 * n) else 0)
  {
    hide Xor;
    hide Hash;
    HashConcat(key, p.src, p.dst, 0);
    XorRules(Pair(key, p.src, p.dst, 0), 0);
    if ports {
      HashConcat(key, p.src + p.dst, p.sport + p.dport, 0);
      HashConcat(key, p.sport, p.dport, 16 * n);
    } else {
      assert p.src + p.dst + [] == p.src + p.dst;
    }
  }

  // Packet and reverse hash alike, for all packets with addresses of n bytes.
  ghost predicate Symmetric(key: seq<Byte>, n: nat, ports: bool) {
    forall p: Packet :: Sized(p, n) ==> Hash(key, p.HashData(ports), 0) == Hash(key, p.Reverse().HashData(ports), 0)
  }

  // Exactly the keys whose windows repeat: over the addresses after as many
  // bits as an address has, and with ports also over the ports after 16 bits.
  lemma SymmetricKeys(key: seq<Byte>, n: nat, ports: bool)
    ensures Symmetric(key, n, ports) <==> Repeats(key, 0, 8 * n, 8 * n) && (ports ==> Repeats(key, 16 * n, 16, 16))
  {
    hide Repeats;
    if Repeats(key, 0, 8 * n, 8 * n) && (ports ==> Repeats(key, 16 * n, 16, 16)) {
      forall p: Packet | Sized(p, n)
        ensures Hash(key, p.HashData(ports), 0) == Hash(key, p.Reverse().HashData(ports), 0)
      {
        HashOfPacket(key, p, n, ports);
        HashOfPacket(key, p.Reverse(), n, ports);
        SwapSame(key, p.src, p.dst, 0, n);
        if ports {
          SwapSame(key, p.sport, p.dport, 16 * n, 2);
        }
      }
    }
    if Symmetric(key, n, ports) {
      SymmetricRepeats(key, n, ports);
    }
  }

  lemma SymmetricRepeats(key: seq<Byte>, n: nat, ports: bool)
    requires Symmetric(key, n, ports)
    ensures Repeats(key, 0, 8 * n, 8 * n) && (ports ==> Repeats(key, 16 * n, 16, 16))
  {
    hide Window;
    hide Hash;
    hide Xor;
    hide OneBit;
    hide Pair;
    forall k | 0 <= k < 8 * n ensures Window(key, k) == Window(key, k + 8 * n) {
      var p := Packet(OneBit(n, k), OneBit(n, 8 * n), OneBit(2, 16), OneBit(2, 16));
      HashOfPacket(key, p, n, ports);
      HashOfPacket(key, p.Reverse(), n, ports);
      SwapTells(key, n, k, 0);
      SwapTells(key, 2, 0, 16 * n);
      XorRules(Window(key, k), 0);
      XorRules(Window(key, k + 8 * n), 0);
    }
    if ports {
      forall w | 16 * n <= w < 16 * n + 16 ensures Window(key, w) == Window(key, w + 16) {
        var k := w - 16 * n;
        var p := Packet(OneBit(n, 8 * n), OneBit(n, 8 * n), OneBit(2, k), OneBit(2, 16));
        HashOfPacket(key, p, n, ports);
        HashOfPacket(key, p.Reverse(), n, ports);
        ZeroPair(key, n);
        SwapTells(key, 2, k, 16 * n);
        XorRules(0, Window(key, w));
        XorRules(0, Window(key, w + 16));
        XorRules(Window(key, w), 0);
        XorRules(Window(key, w + 16), 0);
      }
    }
  }

  lemma ZeroPair(key: seq<Byte>, n: nat)
    ensures Pair(key, OneBit(n, 8 * n), OneBit(n, 8 * n), 0) == 0
  {
    hide Xor;
    HashOneBit(key, n, 8 * n, 0);
    HashOneBit(key, n, 8 * n, 8 * n);
    XorRules(0, 0);
  }

  // The key repeats after p bytes.
  ghost predicate Period(key: seq<Byte>, p: nat) {
    0 < p && forall i :: 0 <= i < |key| - p ==> key[i] == key[i + p]
  }

  lemma {:induction false} PeriodMultiple(key: seq<Byte>, p: nat, m: nat)
    requires Period(key, p) && 0 < m
    ensures 0 < m * p && Period(key, m * p)
    decreases m
  {
    if m != 1 {
      PeriodMultiple(key, p, m - 1);
      var d := (m - 1) * p;
      assert m * p == d + p;
      forall i | 0 <= i < |key| - (d + p) ensures key[i] == key[i + d + p] {
        assert key[i] == key[i + d] && key[i + d] == key[i + d + p];
      }
    }
  }

  lemma KeyBitPeriod(key: seq<Byte>, p: nat, n: nat)
    requires Period(key, p) && n + 8 * p < 8 * |key|
    ensures KeyBit(key, n) == KeyBit(key, n + 8 * p)
  {
    hide Bit;
    var i, t := n / 8, n % 8;
    KeyBitAt(key, i, t);
    KeyBitAt(key, i + p, t);
    assert key[i] == key[i + p];
  }

  lemma {:induction false} BitsPeriod(key: seq<Byte>, p: nat, w: nat, n: nat)
    requires Period(key, p) && w + n + 8 * p <= 8 * |key|
    ensures Bits(key, w, n) == Bits(key, w + 8 * p, n)
    decreases n
  {
    hide Push;
    hide KeyBit;
    if 0 < n {
      BitsPeriod(key, p, w, n - 1);
      KeyBitPeriod(key, p, w + n - 1);
    }
  }

  lemma PeriodRepeats(key: seq<Byte>, p: nat, lo: nat, n: nat)
    requires Period(key, p) && lo + n + 8 * p + 31 <= 8 * |key|
    ensures Repeats(key, lo, n, 8 * p)
  {
    hide Bits;
    forall w | lo <= w < lo + n ensures Window(key, w) == Window(key, w + 8 * p) {
      BitsPeriod(key, p, w, 32);
    }
  }

  // A key that repeats after 32 bits hashes a packet and its reverse alike by
  // their addresses; one that repeats after 16 bits does so with ports as well.
  lemma PeriodicKeys(key: seq<Byte>, n: nat)
    requires 0 < n && n % 4 == 0
    ensures Period(key, 4) && 2 * n + 4 <= |key| ==> Symmetric(key, n, false)
    ensures Period(key, 2) && 2 * n + 8 <= |key| ==> Symmetric(key, n, true)
  {
    hide *;
    SymmetricKeys(key, n, false);
    SymmetricKeys(key, n, true);
    if Period(key, 4) && 2 * n + 4 <= |key| {
      AddressRepeats(key, 4, n / 4, n);
    }
    if Period(key, 2) && 2 * n + 8 <= |key| {
      AddressRepeats(key, 2, n / 2, n);
      PeriodRepeats(key, 2, 16 * n, 16);
    }
  }

  lemma AddressRepeats(key: seq<Byte>, p: nat, m: nat, n: nat)
    requires Period(key, p) && 0 < m && n == m * p && 2 * n + 4 <= |key|
    ensures Repeats(key, 0, 8 * n, 8 * n)
  {
    hide Period;
    hide Repeats;
    PeriodMultiple(key, p, m);
    PeriodRepeats(key, n, 0, 8 * n);
  }

  lemma FirstByteTells(key: seq<Byte>, i: nat, k: nat)
    requires i + 3 < |key| && k + 3 < |key| && key[i] != key[k]
    ensures Window(key, 8 * i) != Window(key, 8 * k)
  {
    BitsOfFourBytes(key, i);
    BitsOfFourBytes(key, k);
    hide Bits;
    WordsDiffer(key[i], key[i + 1], key[i + 2], key[i + 3], key[k], key[k + 1], key[k + 2], key[k + 3]);
  }

  lemma WordsDiffer(a: Byte, b: Byte, c: Byte, d: Byte, e: Byte, f: Byte, g: Byte, h: Byte)
    requires a != e
    ensures ((a as Word) << 24) | ((b as Word) << 16) | ((c as Word) << 8) | (d as Word)
      != ((e as Word) << 24) | ((f as Word) << 16) | ((g as Word) << 8) | (h as Word)
  {}

  // The default key of the cnxk driver: fe ed 0b ad twelve times.
  const FEED0BAD: seq<Byte> := [0xfe, 0xed, 0x0b, 0xad]

  const CNXK_KEY: seq<Byte> := seq(48, i requires 0 <= i => FEED0BAD[i % 4])

  // With it IPv4 and IPv6 flows and their reverse hash alike as long as ports
  // are not hashed, and not in general when they are.
  lemma CnxkKey()
    ensures Symmetric(CNXK_KEY, 4, false) && Symmetric(CNXK_KEY, 16, false)
    ensures !Symmetric(CNXK_KEY, 4, true) && !Symmetric(CNXK_KEY, 16, true)
  {
    hide Symmetric;
    hide Window;
    assert Period(CNXK_KEY, 4);
    PeriodicKeys(CNXK_KEY, 4);
    PeriodicKeys(CNXK_KEY, 16);
    SymmetricKeys(CNXK_KEY, 4, true);
    FirstByteTells(CNXK_KEY, 8, 10);
    assert Window(CNXK_KEY, 64) != Window(CNXK_KEY, 64 + 16);
    SymmetricKeys(CNXK_KEY, 16, true);
    FirstByteTells(CNXK_KEY, 32, 34);
    assert Window(CNXK_KEY, 256) != Window(CNXK_KEY, 256 + 16);
  }

  // The default key of the script, that of the Intel drivers: with it not even
  // addresses alone hash alike.
  const INTEL_KEY: seq<Byte> := [
    0x6d, 0x5a, 0x56, 0xda, 0x25, 0x5b, 0x0e, 0xc2,
    0x41, 0x67, 0x25, 0x3d, 0x43, 0xa3, 0x8f, 0xb0,
    0xd0, 0xca, 0x2b, 0xcb, 0xae, 0x7b, 0x30, 0xb4,
    0x77, 0xcb, 0x2d, 0xa3, 0x80, 0x30, 0xf2, 0x0c,
    0x6a, 0x42, 0xb7, 0x3b, 0xbe, 0xac, 0x01, 0xfa
  ]

  lemma IntelKey(ports: bool)
    ensures !Symmetric(INTEL_KEY, 4, ports) && !Symmetric(INTEL_KEY, 16, ports)
  {
    hide Symmetric;
    hide Window;
    SymmetricKeys(INTEL_KEY, 4, ports);
    SymmetricKeys(INTEL_KEY, 16, ports);
    assert INTEL_KEY[0] != INTEL_KEY[4] && INTEL_KEY[0] != INTEL_KEY[16];
    FirstByteTells(INTEL_KEY, 0, 4);
    FirstByteTells(INTEL_KEY, 0, 16);
    assert Window(INTEL_KEY, 0) != Window(INTEL_KEY, 0 + 32);
    assert Window(INTEL_KEY, 0) != Window(INTEL_KEY, 0 + 128);
  }

  // The hash contribution of a byte, from the four bytes of the key at its place
  // and the one behind them.
  function ByteFold(four: Word, next: Byte, b: Byte, t: nat): Word
    requires t <= 8
  {
    if t == 0 then 0
    else Xor(ByteFold(four, next, b, t - 1), if Bit(b, t - 1) then Shifted(four, next, t - 1) else 0)
  }

  lemma {:induction false} ByteFolds(key: seq<Byte>, i: nat, b: Byte, t: nat)
    requires t <= 8 && i + 4 < |key|
    ensures ByteHash(key, b, 8 * i, t) == ByteFold(FourBytes(key, i), key[i + 4], b, t)
    decreases t
  {
    hide Xor;
    hide Bit;
    hide Window;
    hide FourBytes;
    hide Shifted;
    if t != 0 {
      ByteFolds(key, i, b, t - 1);
      KeywordIsWindow(key, i, t - 1);
      Unshifted(FourBytes(key, i), key[i + 4]);
    }
  }

  // One byte more: the hash so far and what the byte adds.
  lemma HashStep(key: seq<Byte>, data: seq<Byte>, i: nat, four: Word, next: Byte, b: Byte)
    requires i < |data| && i + 4 < |key| && FourBytes(key, i) == four && key[i + 4] == next && data[i] == b
    ensures Hash(key, data[..i + 1], 0) == Xor(Hash(key, data[..i], 0), ByteFold(four, next, b, 8))
  {
    hide Xor;
    hide FourBytes;
    hide ByteFold;
    ByteFolds(key, i, b, 8);
    assert data[..i + 1][..i] == data[..i];
  }

  // The same written out.
  function ByteWord(four: Word, next: Byte, b: Byte): Word {
    var t0 := if b & 0x80 != 0 then four else 0;
    var t1 := if b & 0x40 != 0 then (four << 1) | ((next >> 7) as Word) else 0;
    var t2 := if b & 0x20 != 0 then (four << 2) | ((next >> 6) as Word) else 0;
    var t3 := if b & 0x10 != 0 then (four << 3) | ((next >> 5) as Word) else 0;
    var t4 := if b & 0x8 != 0 then (four << 4) | ((next >> 4) as Word) else 0;
    var t5 := if b & 0x4 != 0 then (four << 5) | ((next >> 3) as Word) else 0;
    var t6 := if b & 0x2 != 0 then (four << 6) | ((next >> 2) as Word) else 0;
    var t7 := if b & 0x1 != 0 then (four << 7) | ((next >> 1) as Word) else 0;
    Xor(Xor(Xor(Xor(Xor(Xor(Xor(Xor(0, t0), t1), t2), t3), t4), t5), t6), t7)
  }

  lemma FoldWritten(four: Word, next: Byte, b: Byte)
    ensures ByteFold(four, next, b, 8) == ByteWord(four, next, b)
  {
    FoldHalf(four, next, b);
    FoldRest(four, next, b);
    FoldWords(four, next, b);
  }

  // The contribution of bit t.
  function BitFold(four: Word, next: Byte, b: Byte, t: nat): Word
    requires t < 8
  {
    if Bit(b, t) then Shifted(four, next, t) else 0
  }

  function HalfFold(four: Word, next: Byte, b: Byte): Word {
    Xor(Xor(Xor(Xor(0, BitFold(four, next, b, 0)), BitFold(four, next, b, 1)), BitFold(four, next, b, 2)),
        BitFold(four, next, b, 3))
  }

  lemma FoldHalf(four: Word, next: Byte, b: Byte)
    ensures ByteFold(four, next, b, 4) == HalfFold(four, next, b)
  {
    hide Xor;
    hide Bit;
    hide Shifted;
    assert ByteFold(four, next, b, 1) == Xor(0, BitFold(four, next, b, 0));
    assert ByteFold(four, next, b, 2) == Xor(ByteFold(four, next, b, 1), BitFold(four, next, b, 1));
    assert ByteFold(four, next, b, 3) == Xor(ByteFold(four, next, b, 2), BitFold(four, next, b, 2));
  }

  lemma FoldRest(four: Word, next: Byte, b: Byte)
    ensures ByteFold(four, next, b, 8) ==
      Xor(Xor(Xor(Xor(ByteFold(four, next, b, 4), BitFold(four, next, b, 4)), BitFold(four, next, b, 5)),
          BitFold(four, next, b, 6)), BitFold(four, next, b, 7))
  {
    hide Xor;
    hide Bit;
    hide Shifted;
    assert ByteFold(four, next, b, 5) == Xor(ByteFold(four, next, b, 4), BitFold(four, next, b, 4));
    assert ByteFold(four, next, b, 6) == Xor(ByteFold(four, next, b, 5), BitFold(four, next, b, 5));
    assert ByteFold(four, next, b, 7) == Xor(ByteFold(four, next, b, 6), BitFold(four, next, b, 6));
  }

  lemma FoldWords(four: Word, next: Byte, b: Byte)
    ensures
      Xor(Xor(Xor(Xor(HalfFold(four, next, b), BitFold(four, next, b, 4)), BitFold(four, next, b, 5)),
          BitFold(four, next, b, 6)), BitFold(four, next, b, 7)) == ByteWord(four, next, b)
  {
    BitsWritten(b);
    hide Bit;
    hide Xor;
    ShiftsWritten(four, next);
    hide Shifted;
  }

  lemma ShiftsWritten(four: Word, next: Byte)
    ensures Shifted(four, next, 0) == four
    ensures Shifted(four, next, 1) == (four << 1) | ((next >> 7) as Word)
    ensures Shifted(four, next, 2) == (four << 2) | ((next >> 6) as Word)
    ensures Shifted(four, next, 3) == (four << 3) | ((next >> 5) as Word)
    ensures Shifted(four, next, 4) == (four << 4) | ((next >> 4) as Word)
    ensures Shifted(four, next, 5) == (four << 5) | ((next >> 3) as Word)
    ensures Shifted(four, next, 6) == (four << 6) | ((next >> 2) as Word)
    ensures Shifted(four, next, 7) == (four << 7) | ((next >> 1) as Word)
  {
    Unshifted(four, next);
  }

  lemma BitsWritten(b: Byte)
    ensures Bit(b, 0) == (b & 0x80 != 0) && Bit(b, 1) == (b & 0x40 != 0)
    ensures Bit(b, 2) == (b & 0x20 != 0) && Bit(b, 3) == (b & 0x10 != 0)
    ensures Bit(b, 4) == (b & 0x8 != 0) && Bit(b, 5) == (b & 0x4 != 0)
    ensures Bit(b, 6) == (b & 0x2 != 0) && Bit(b, 7) == (b & 0x1 != 0)
  {}

  lemma KnownByte(key: seq<Byte>, data: seq<Byte>, i: nat, four: Word, next: Byte, b: Byte, before: Word, after: Word)
    requires i < |data| && i + 4 < |key| && data[i] == b
    requires FourBytes(key, i) == four && key[i + 4] == next
    requires Hash(key, data[..i], 0) == before && Xor(before, ByteWord(four, next, b)) == after
    ensures Hash(key, data[..i + 1], 0) == after
  {
    hide ByteWord;
    hide ByteFold;
    hide FourBytes;
    HashStep(key, data, i, four, next, b);
    FoldWritten(four, next, b);
  }

  lemma KnownSource(key: seq<Byte>, data: seq<Byte>)
    requires 3 < |data| && data[0] == 0x42 && data[1] == 0x9 && data[2] == 0x95 && data[3] == 0xbb
    requires 7 < |key| && key[0] == 0x6d && key[1] == 0x5a && key[2] == 0x56 && key[3] == 0xda
    requires key[4] == 0x25 && key[5] == 0x5b && key[6] == 0xe && key[7] == 0xc2
    requires Hash(key, data[..0], 0) == 0
    ensures Hash(key, data[..4], 0) == 0xe48b9de
  {
    hide Hash;
    KnownByte(key, data, 0, 0x6d5a56da, 0x25, 0x42, 0, 0x8c211b3d);
    KnownByte(key, data, 1, 0x5a56da25, 0x5b, 0x9, 0x8c211b3d, 0x221abc5);
    KnownByte(key, data, 2, 0x56da255b, 0xe, 0x95, 0x221abc5, 0x547ca2a0);
    KnownByte(key, data, 3, 0xda255b0e, 0xc2, 0xbb, 0x547ca2a0, 0xe48b9de);
  }

  lemma KnownDestination(key: seq<Byte>, data: seq<Byte>)
    requires 7 < |data| && data[4] == 0xa1 && data[5] == 0x8e && data[6] == 0x64 && data[7] == 0x50
    requires 11 < |key| && key[4] == 0x25 && key[5] == 0x5b && key[6] == 0xe && key[7] == 0xc2
    requires key[8] == 0x41 && key[9] == 0x67 && key[10] == 0x25 && key[11] == 0x3d
    requires Hash(key, data[..4], 0) == 0xe48b9de
    ensures Hash(key, data[..8], 0) == 0x323e8fc2
  {
    hide Hash;
    KnownByte(key, data, 4, 0x255b0ec2, 0x41, 0xa1, 0xe48b9de, 0x13f8ed35);
    KnownByte(key, data, 5, 0x5b0ec241, 0x67, 0x8e, 0x13f8ed35, 0x5a72d317);
    KnownByte(key, data, 6, 0xec24167, 0x25, 0x64, 0x5a72d317, 0xa4b778a1);
    KnownByte(key, data, 7, 0xc2416725, 0x3d, 0x50, 0xa4b778a1, 0x323e8fc2);
  }

  lemma KnownPorts(key: seq<Byte>, data: seq<Byte>)
    requires 11 < |data| && data[8] == 0xa && data[9] == 0xea && data[10] == 0x6 && data[11] == 0xe6
    requires 15 < |key| && key[8] == 0x41 && key[9] == 0x67 && key[10] == 0x25 && key[11] == 0x3d
    requires key[12] == 0x43 && key[13] == 0xa3 && key[14] == 0x8f && key[15] == 0xb0
    requires Hash(key, data[..8], 0) == 0x323e8fc2
    ensures Hash(key, data[..12], 0) == 0x51ccc178
  {
    hide Hash;
    KnownByte(key, data, 8, 0x4167253d, 0x43, 0xa, 0x323e8fc2, 0x7d859346);
    KnownByte(key, data, 9, 0x67253d43, 0xa3, 0xea, 0x7d859346, 0xf362a55e);
    KnownByte(key, data, 10, 0x253d43a3, 0x8f, 0x6, 0xf362a55e, 0x1b9a39cc);
    KnownByte(key, data, 11, 0x3d43a38f, 0xb0, 0xe6, 0x1b9a39cc, 0x51ccc178);
  }

  // The first packet of the verification suite that DPDK's own tests use with
  // this key, from 66.9.149.187:2794 to 161.142.100.80:1766.
  const KNOWN: Packet := Packet([66, 9, 149, 187], [161, 142, 100, 80], [10, 234], [6, 230])

  lemma KnownData()
    ensures KNOWN.HashData(true) == [66, 9, 149, 187, 161, 142, 100, 80, 10, 234, 6, 230]
    ensures KNOWN.HashData(false) == [66, 9, 149, 187, 161, 142, 100, 80]
  {}

  lemma IntelBytes()
    ensures 16 <= |INTEL_KEY|
    ensures INTEL_KEY[..16] == [
      0x6d, 0x5a, 0x56, 0xda, 0x25, 0x5b, 0x0e, 0xc2,
      0x41, 0x67, 0x25, 0x3d, 0x43, 0xa3, 0x8f, 0xb0
    ]
  {}

  lemma KnownWith(key: seq<Byte>, data: seq<Byte>)
    requires data == [66, 9, 149, 187, 161, 142, 100, 80, 10, 234, 6, 230]
    requires 16 <= |key| && key[..16] == [
      0x6d, 0x5a, 0x56, 0xda, 0x25, 0x5b, 0x0e, 0xc2,
      0x41, 0x67, 0x25, 0x3d, 0x43, 0xa3, 0x8f, 0xb0
    ]
    ensures Hash(key, data[..8], 0) == 0x323e8fc2 && Hash(key, data[..12], 0) == 0x51ccc178
  {
    hide Hash;
    NoHash(key);
    assert data[..0] == [];
    forall k | 0 <= k < 16 ensures key[k] == key[..16][k] {}
    KnownSource(key, data);
    KnownDestination(key, data);
    KnownPorts(key, data);
  }

  // Its published hashes, without and with ports.
  lemma KnownHashes()
    ensures Hash(INTEL_KEY, KNOWN.HashData(false), 0) == 0x323e8fc2
    ensures Hash(INTEL_KEY, KNOWN.HashData(true), 0) == 0x51ccc178
  {
    hide Hash;
    hide Packet.HashData;
    KnownData();
    IntelBytes();
    var data: seq<Byte> := [66, 9, 149, 187, 161, 142, 100, 80, 10, 234, 6, 230];
    KnownWith(INTEL_KEY, data);
    assert data[..8] == [66, 9, 149, 187, 161, 142, 100, 80] && data[..12] == data;
  }

  lemma NoHash(key: seq<Byte>)
    ensures Hash(key, [], 0) == 0
  {}
}
