/** The 32-bit Murmur3 hash of a byte string, and why a change in one place always shows in it. */
module Murmur {
  import opened WordNumbers

  type Byte = bv8

  // ---- the primitive steps, each with its inverse ----

  function TimesC1(k: Word): Word { k * 0xcc9e2d51 }
  function OverC1(k: Word): Word { k * 0xdee13bb1 }

  function TimesC2(k: Word): Word { k * 0x1b873593 }
  function OverC2(k: Word): Word { k * 0x56ed309b }

  function Times5Plus(h: Word): Word { h * 5 + 0xe6546b64 }
  function Over5Minus(h: Word): Word { (h - 0xe6546b64) * 0xcccccccd }

  function TimesF1(h: Word): Word { h * 0x85ebca6b }
  function OverF1(h: Word): Word { h * 0xa5cb9243 }

  function TimesF2(h: Word): Word { h * 0xc2b2ae35 }
  function OverF2(h: Word): Word { h * 0x7ed1b41d }

  function RotateLeft15(k: Word): Word { (k << 15) | (k >> 17) }
  function RotateRight15(k: Word): Word { (k >> 15) | (k << 17) }

  function RotateLeft13(h: Word): Word { (h << 13) | (h >> 19) }
  function RotateRight13(h: Word): Word { (h >> 13) | (h << 19) }

  function XorHigh16(h: Word): Word { h ^ (h >> 16) }

  function XorHigh13(h: Word): Word { h ^ (h >> 13) }
  function UnxorHigh13(h: Word): Word { h ^ (h >> 13) ^ (h >> 26) }

  // The multiplications are invertible because their factors are odd. Each inverse is shown on the
  // product itself first.

  lemma C1Product(k: Word)
    ensures OverC1(k * 0xcc9e2d51) == k
  {
  }

  lemma C2Product(k: Word)
    ensures OverC2(k * 0x1b873593) == k
  {
  }

  lemma Product5(h: Word)
    ensures Over5Minus(h * 5 + 0xe6546b64) == h
  {
  }

  lemma F1Product(h: Word)
    ensures OverF1(h * 0x85ebca6b) == h
  {
  }

  lemma F2Product(h: Word)
    ensures OverF2(h * 0xc2b2ae35) == h
  {
  }

  lemma ProductInverses(k: Word)
    ensures OverC1(TimesC1(k)) == k && OverC2(TimesC2(k)) == k && Over5Minus(Times5Plus(k)) == k
    ensures OverF1(TimesF1(k)) == k && OverF2(TimesF2(k)) == k
  {
    hide OverC1, OverC2, Over5Minus, OverF1, OverF2;
    C1Product(k);
    C2Product(k);
    Product5(k);
    F1Product(k);
    F2Product(k);
  }

  lemma RotatedBits15(k: Word)
    ensures RotateRight15((k << 15) | (k >> 17)) == k
  {
  }

  lemma RotatedBits13(k: Word)
    ensures RotateRight13((k << 13) | (k >> 19)) == k
  {
  }

  lemma XoredBits16(k: Word)
    ensures XorHigh16(k ^ (k >> 16)) == k
  {
  }

  lemma XoredBits13(k: Word)
    ensures UnxorHigh13(k ^ (k >> 13)) == k
  {
  }

  lemma BitInverses(k: Word)
    ensures RotateRight15(RotateLeft15(k)) == k && RotateRight13(RotateLeft13(k)) == k
    ensures XorHigh16(XorHigh16(k)) == k && UnxorHigh13(XorHigh13(k)) == k
  {
    hide RotateRight13, RotateRight15, UnxorHigh13;
    RotatedBits15(k);
    RotatedBits13(k);
    XoredBits16(k);
    XoredBits13(k);
  }

  lemma XorInverse(a: Word, b: Word)
    ensures Xor(Xor(a, b), b) == a && Xor(Xor(a, b), a) == b
  {
  }

  // ---- the rounds ----

  /** What a block goes through before it meets the state. */
  function Mix(k: Word): Word {
    TimesC2(RotateLeft15(TimesC1(k)))
  }

  function Unmix(k: Word): Word {
    OverC1(RotateRight15(OverC2(k)))
  }

  lemma MixInverse(k: Word)
    ensures Unmix(Mix(k)) == k
  {
    hide TimesC1, OverC1, TimesC2, OverC2, RotateLeft15, RotateRight15;
    ProductInverses(RotateLeft15(TimesC1(k)));
    BitInverses(TimesC1(k));
    ProductInverses(k);
  }

  /** The state after a block that has been mixed to `k`. */
  function Absorb(h: Word, k: Word): Word {
    Times5Plus(RotateLeft13(Xor(h, k)))
  }

  function Unabsorb(h: Word): Word {
    RotateRight13(Over5Minus(h))
  }

  /** The new state determines the old one given the block, and the block given the old one. */
  lemma AbsorbInverse(h: Word, k: Word)
    ensures Xor(Unabsorb(Absorb(h, k)), k) == h && Xor(Unabsorb(Absorb(h, k)), h) == k
  {
    hide Times5Plus, Over5Minus, RotateLeft13, RotateRight13, Xor;
    ProductInverses(RotateLeft13(Xor(h, k)));
    BitInverses(Xor(h, k));
    XorInverse(h, k);
  }

  function Finish(h: Word): Word {
    XorHigh16(TimesF2(XorHigh13(TimesF1(XorHigh16(h)))))
  }

  function Unfinish(h: Word): Word {
    XorHigh16(OverF1(UnxorHigh13(OverF2(XorHigh16(h)))))
  }

  lemma FinishInverse(h: Word)
    ensures Unfinish(Finish(h)) == h
  {
    hide XorHigh16, XorHigh13, UnxorHigh13, TimesF1, TimesF2, OverF1, OverF2;
    var a := TimesF1(XorHigh16(h));
    BitInverses(TimesF2(XorHigh13(a)));
    ProductInverses(XorHigh13(a));
    BitInverses(a);
    ProductInverses(XorHigh16(h));
    BitInverses(h);
  }

  // ---- the hash ----

  /** Four bytes, the first one lowest. */
  function Word4(b0: Byte, b1: Byte, b2: Byte, b3: Byte): Word {
    (b0 as Word) | ((b1 as Word) << 8) | ((b2 as Word) << 16) | ((b3 as Word) << 24)
  }

  lemma Word4Injective(a0: Byte, a1: Byte, a2: Byte, a3: Byte, b0: Byte, b1: Byte, b2: Byte, b3: Byte)
    requires Word4(a0, a1, a2, a3) == Word4(b0, b1, b2, b3)
    ensures a0 == b0 && a1 == b1 && a2 == b2 && a3 == b3
  {
  }

  function Block(data: seq<Byte>, i: nat): Word
    requires 4 * i + 4 <= |data|
  {
    Word4(data[4 * i], data[4 * i + 1], data[4 * i + 2], data[4 * i + 3])
  }

  /** The state after `n` blocks. */
  function Body(data: seq<Byte>, n: nat): Word
    requires 4 * n <= |data|
  {
    if n == 0 then 0 else Absorb(Body(data, n - 1), Mix(Block(data, n - 1)))
  }

  function Low(b: Byte): Word { b as Word }

  function Middle(b: Byte): Word { (b as Word) << 8 }

  function High(b: Byte): Word { (b as Word) << 16 }

  /** One to three bytes packed. */
  function Packed(tail: seq<Byte>): Word
    requires 0 < |tail| <= 3
  {
    match |tail|
    case 1 => Xor(0, Low(tail[0]))
    case 2 => Xor(Xor(0, Middle(tail[1])), Low(tail[0]))
    case _ => Xor(Xor(Xor(0, High(tail[2])), Middle(tail[1])), Low(tail[0]))
  }

  lemma TripleInjective(a0: Byte, a1: Byte, a2: Byte, b0: Byte, b1: Byte, b2: Byte)
    requires Xor(Xor(Xor(0, High(a2)), Middle(a1)), Low(a0)) == Xor(Xor(Xor(0, High(b2)), Middle(b1)), Low(b0))
    ensures a0 == b0 && a1 == b1 && a2 == b2
  {
  }

  lemma PairInjective(a0: Byte, a1: Byte, b0: Byte, b1: Byte)
    requires Xor(Xor(0, Middle(a1)), Low(a0)) == Xor(Xor(0, Middle(b1)), Low(b0))
    ensures a0 == b0 && a1 == b1
  {
  }

  lemma SingleInjective(a0: Byte, b0: Byte)
    requires Xor(0, Low(a0)) == Xor(0, Low(b0))
    ensures a0 == b0
  {
  }

  lemma PackedInjective(s: seq<Byte>, t: seq<Byte>)
    requires 0 < |s| == |t| <= 3 && Packed(s) == Packed(t)
    ensures s == t
  {
    hide Xor, Low, Middle, High;
    if |s| == 1 {
      SingleInjective(s[0], t[0]);
    } else if |s| == 2 {
      PairInjective(s[0], s[1], t[0], t[1]);
    } else {
      TripleInjective(s[0], s[1], s[2], t[0], t[1], t[2]);
    }
  }

  function Blocks(data: seq<Byte>): nat { |data| / 4 }

  /** The bytes behind the last whole block. */
  function Tail(data: seq<Byte>): seq<Byte> { data[4 * Blocks(data)..] }

  function WithTail(h: Word, tail: seq<Byte>): Word
    requires |tail| <= 3
  {
    if tail == [] then h else Xor(h, Mix(Packed(tail)))
  }

  const MAX_LENGTH := 0x1_0000_0000

  function Length(n: nat): Word
    requires n < MAX_LENGTH
  {
    WordOf(n)
  }

  function Hash(data: seq<Byte>): Word
    requires |data| < MAX_LENGTH
  {
    if data == [] then 0
    else Finish(Xor(WithTail(Body(data, Blocks(data)), Tail(data)), Length(|data|)))
  }

  /** The loop over the blocks, then the fall-through cases for the tail, last byte first. */
  method MapGetHash(data: seq<Byte>) returns (h: Word)
    requires |data| < MAX_LENGTH
    ensures h == Hash(data)
  {
    hide TimesC1, TimesC2, Times5Plus, TimesF1, TimesF2, RotateLeft13, RotateLeft15, XorHigh13, XorHigh16, Xor;
    hide Low, Middle, High, Word4, Length;
    if |data| == 0 {
      return 0;
    }
    var nblocks := |data| / 4;
    var tail := data[nblocks * 4..];
    h := 0;
    var i := 0;
    while i < nblocks
      invariant i <= nblocks && h == Body(data, i)
    {
      var k := Block(data, i);
      k := TimesC1(k);
      k := RotateLeft15(k);
      k := TimesC2(k);
      h := Xor(h, k);
      h := RotateLeft13(h);
      h := Times5Plus(h);
      i := i + 1;
    }
    var k: Word := 0;
    if |tail| == 3 {
      k := Xor(k, High(tail[2]));
    }
    if |tail| >= 2 {
      k := Xor(k, Middle(tail[1]));
    }
    if |tail| >= 1 {
      k := Xor(k, Low(tail[0]));
      k := TimesC1(k);
      k := RotateLeft15(k);
      k := TimesC2(k);
      h := Xor(h, k);
    }
    h := Xor(h, Length(|data|));
    h := XorHigh16(h);
    h := TimesF1(h);
    h := XorHigh13(h);
    h := TimesF2(h);
    h := XorHigh16(h);
  }

  // ---- changes show ----

  lemma AbsorbInjective(h1: Word, h2: Word, k1: Word, k2: Word)
    ensures Absorb(h1, Mix(k1)) == Absorb(h2, Mix(k1)) ==> h1 == h2
    ensures Absorb(h1, Mix(k1)) == Absorb(h1, Mix(k2)) ==> k1 == k2
  {
    hide Absorb, Mix, Xor, Unabsorb, Unmix;
    AbsorbInverse(h1, Mix(k1));
    AbsorbInverse(h2, Mix(k1));
    AbsorbInverse(h1, Mix(k2));
    MixInverse(k1);
    MixInverse(k2);
  }

  lemma FinishInjective(h1: Word, h2: Word, n: Word)
    requires Finish(Xor(h1, n)) == Finish(Xor(h2, n))
    ensures h1 == h2
  {
    hide Finish, Unfinish, Xor;
    FinishInverse(Xor(h1, n));
    FinishInverse(Xor(h2, n));
    XorInverse(h1, n);
    XorInverse(h2, n);
  }

  lemma {:induction false} SamePrefixSameBody(a: seq<Byte>, b: seq<Byte>, n: nat)
    requires 4 * n <= |a| && 4 * n <= |b| && a[..4 * n] == b[..4 * n]
    ensures Body(a, n) == Body(b, n)
  {
    hide Absorb, Mix, Word4;
    if n > 0 {
      assert forall i :: 0 <= i < 4 * n ==> a[i] == a[..4 * n][i] && b[i] == b[..4 * n][i];
      assert a[..4 * (n - 1)] == b[..4 * (n - 1)];
      SamePrefixSameBody(a, b, n - 1);
    }
  }

  /** States that differ after `m` blocks still differ after more blocks that agree. */
  lemma {:induction false} DifferenceSurvives(a: seq<Byte>, b: seq<Byte>, m: nat, n: nat)
    requires m <= n && 4 * n <= |a| == |b| && Body(a, m) != Body(b, m)
    requires forall i :: 4 * m <= i < 4 * n ==> a[i] == b[i]
    ensures Body(a, n) != Body(b, n)
  {
    hide Absorb, Mix, Word4;
    if m < n {
      DifferenceSurvives(a, b, m, n - 1);
      assert Block(a, n - 1) == Block(b, n - 1);
      AbsorbInjective(Body(a, n - 1), Body(b, n - 1), Block(a, n - 1), Block(a, n - 1));
    }
  }

  lemma BlockInjective(a: seq<Byte>, b: seq<Byte>, j: nat)
    requires 4 * j + 4 <= |a| == |b| && Block(a, j) == Block(b, j)
    ensures forall i :: 4 * j <= i < 4 * j + 4 ==> a[i] == b[i]
  {
    hide Word4;
    var i := 4 * j;
    Word4Injective(a[i], a[i + 1], a[i + 2], a[i + 3], b[i], b[i + 1], b[i + 2], b[i + 3]);
  }

  /** Strings of equal length that differ in one block and nowhere else have different hashes. */
  lemma OneBlockShows(a: seq<Byte>, b: seq<Byte>, j: nat)
    requires |a| == |b| < MAX_LENGTH && 4 * j + 4 <= |a| && a != b
    requires forall i :: 0 <= i < |a| && !(4 * j <= i < 4 * j + 4) ==> a[i] == b[i]
    ensures Hash(a) != Hash(b)
  {
    hide Absorb, Mix, Finish, Xor, Block, Length, Packed;
    var n := Blocks(a);
    assert a[..4 * j] == b[..4 * j];
    SamePrefixSameBody(a, b, j);
    if Block(a, j) == Block(b, j) {
      BlockInjective(a, b, j);
      assert false;
    }
    AbsorbInjective(Body(a, j), Body(a, j), Block(a, j), Block(b, j));
    DifferenceSurvives(a, b, j + 1, n);
    assert Tail(a) == Tail(b);
    if Hash(a) == Hash(b) {
      FinishInjective(WithTail(Body(a, n), Tail(a)), WithTail(Body(b, n), Tail(a)), Length(|a|));
      if Tail(a) != [] {
        XorInverse(Body(a, n), Mix(Packed(Tail(a))));
        XorInverse(Body(b, n), Mix(Packed(Tail(a))));
      }
      assert false;
    }
  }

  /** Strings of equal length that differ behind the last whole block only have different hashes. */
  lemma TailShows(a: seq<Byte>, b: seq<Byte>)
    requires |a| == |b| < MAX_LENGTH && a != b
    requires forall i :: 0 <= i < 4 * Blocks(a) ==> a[i] == b[i]
    ensures Hash(a) != Hash(b)
  {
    hide Absorb, Mix, Finish, Xor, Block, Length, Packed, Body;
    var n := Blocks(a);
    assert a[..4 * n] == b[..4 * n];
    SamePrefixSameBody(a, b, n);
    var s, t := Tail(a), Tail(b);
    assert a == a[..4 * n] + s && b == b[..4 * n] + t;
    if Hash(a) == Hash(b) {
      FinishInjective(WithTail(Body(a, n), s), WithTail(Body(a, n), t), Length(|a|));
      XorInverse(Body(a, n), Mix(Packed(s)));
      XorInverse(Body(a, n), Mix(Packed(t)));
      MixInverse(Packed(s));
      MixInverse(Packed(t));
      PackedInjective(s, t);
      assert false;
    }
  }
}
