/** 32-bit words and the numbers modulo 2^32 that they stand for: what the operations on words are on numbers. */
module WordNumbers {

  type Word = bv32

  const MODULUS := 0x1_0000_0000

  function Plus(x: Word, y: Word): Word { x + y }

  function Times(x: Word, y: Word): Word { x * y }

  /** The word that stands for `n`: as many ones added up. */
  function WordOf(n: nat): Word {
    if n == 0 then 0 else Plus(WordOf(n - 1), 1)
  }

  // ---- sums and products ----

  // Each law of the operations on words is shown with bare operations inside first.

  lemma PlusIs(x: Word, y: Word)
    ensures Plus(x, y) == x + y
  {
  }

  lemma TimesIs(x: Word, y: Word)
    ensures Times(x, y) == x * y
  {
  }

  lemma PlusZero(x: Word)
    ensures Plus(x, 0) == x && Plus(0, x) == x
  {
  }

  lemma PlusCommutes(x: Word, y: Word)
    ensures Plus(x, y) == Plus(y, x)
  {
  }

  lemma BareAssociates(x: Word, y: Word, z: Word)
    ensures Plus(x + y, z) == Plus(x, y + z)
  {
  }

  lemma PlusAssociates(x: Word, y: Word, z: Word)
    ensures Plus(Plus(x, y), z) == Plus(x, Plus(y, z))
  {
    hide Plus;
    PlusIs(x, y);
    PlusIs(y, z);
    BareAssociates(x, y, z);
  }

  lemma TimesZeroOne(x: Word)
    ensures Times(x, 0) == 0 && Times(x, 1) == x
  {
  }

  lemma TimesCommutes(x: Word, y: Word)
    ensures Times(x, y) == Times(y, x)
  {
  }

  lemma BareDistributes(x: Word, y: Word)
    ensures Times(x, y + 1) == Plus(x * y, x)
  {
  }

  lemma Distributes(x: Word, y: Word)
    ensures Times(x, Plus(y, 1)) == Plus(Times(x, y), x)
  {
    hide Plus, Times;
    PlusIs(y, 1);
    TimesIs(x, y);
    BareDistributes(x, y);
  }

  lemma {:induction false} Sum(a: nat, b: nat)
    ensures WordOf(a + b) == Plus(WordOf(a), WordOf(b))
    decreases b
  {
    hide Plus;
    if b == 0 {
      PlusZero(WordOf(a));
    } else {
      Sum(a, b - 1);
      PlusAssociates(WordOf(a), WordOf(b - 1), 1);
    }
  }

  lemma {:induction false} Product(a: nat, b: nat)
    ensures WordOf(a * b) == Times(WordOf(a), WordOf(b))
    decreases b
  {
    hide Plus, Times;
    if b == 0 {
      assert a * b == 0;
      TimesZeroOne(WordOf(a));
    } else {
      assert a * b == a * (b - 1) + a;
      Product(a, b - 1);
      Sum(a * (b - 1), a);
      Distributes(WordOf(a), WordOf(b - 1));
    }
  }

  // ---- literals ----

  function Nibble(h: nat): Word
    requires h < 16
  {
    match h
    case 0 => 0 case 1 => 1 case 2 => 2 case 3 => 3 case 4 => 4 case 5 => 5 case 6 => 6 case 7 => 7
    case 8 => 8 case 9 => 9 case 10 => 10 case 11 => 11 case 12 => 12 case 13 => 13 case 14 => 14 case _ => 15
  }

  lemma NibbleNext(h: nat)
    requires 0 < h < 16
    ensures Nibble(h) == Nibble(h - 1) + 1
  {
  }

  lemma {:induction false} NibbleIs(h: nat)
    requires h < 16
    ensures WordOf(h) == Nibble(h)
  {
    hide Plus, Nibble;
    if h == 0 {
      assert Nibble(0) == 0 by { NibbleZero(); }
    } else {
      NibbleIs(h - 1);
      NibbleNext(h);
      PlusIs(Nibble(h - 1), 1);
    }
  }

  lemma NibbleZero()
    ensures Nibble(0) == 0
  {
  }

  /** One more hexadecimal digit. */
  lemma Digit(n: nat, w: Word, h: nat)
    requires WordOf(n) == w && h < 16
    ensures WordOf(16 * n + h) == Plus(Times(w, 16), Nibble(h))
  {
    hide Plus, Times, Nibble, WordOf;
    Sixteen();
    Product(n, 16);
    assert n * 16 == 16 * n;
    Sum(16 * n, h);
    NibbleIs(h);
  }

  lemma Sixteen()
    ensures WordOf(16) == 16
  {
    hide Plus;
    NibbleIs(15);
    PlusIs(15, 1);
  }

  /** Two more hexadecimal digits. */
  lemma TwoDigits(n: nat, w: Word, h: nat, l: nat)
    requires WordOf(n) == w && h < 16 && l < 16
    ensures WordOf(256 * n + 16 * h + l) 
      == Plus(Times(Plus(Times(w, 16), Nibble(h)), 16), Nibble(l))
  {
    hide Nibble, WordOf, Plus, Times;
    Digit(n, w, h);
    Digit(16 * n + h, Plus(Times(w, 16), Nibble(h)), l);
    assert 16 * (16 * n + h) + l == 256 * n + 16 * h + l;
  }

  lemma ModulusVanishes()
    ensures WordOf(MODULUS) == 0
  {
    hide WordOf;
    assert WordOf(0) == 0 by { WordOfZero(); }
    TwoDigits(0, 0, 0, 1);
    TwoDigits(0x1, 0x1, 0, 0);
    TwoDigits(0x100, 0x100, 0, 0);
    TwoDigits(0x1_0000, 0x1_0000, 0, 0);
    TwoDigits(0x100_0000, 0x100_0000, 0, 0);
  }

  lemma WordOfZero()
    ensures WordOf(0) == 0
  {
  }

  lemma Modulo(n: nat)
    ensures WordOf(n % MODULUS) == WordOf(n)
  {
    hide WordOf, Plus, Times;
    var q := n / MODULUS;
    ModulusVanishes();
    Product(q, MODULUS);
    Sum(q * MODULUS, n % MODULUS);
    TimesZeroOne(WordOf(q));
    PlusZero(WordOf(n % MODULUS));
  }

  // ---- small numbers have small words ----

  /** All ones in the lowest `k` digits. */
  function Ones(k: nat): Word
    requires k <= 31
  {
    match k
    case 0 => 0x0 case 1 => 0x1 case 2 => 0x3 case 3 => 0x7
    case 4 => 0xf case 5 => 0x1f case 6 => 0x3f case 7 => 0x7f
    case 8 => 0xff case 9 => 0x1ff case 10 => 0x3ff case 11 => 0x7ff
    case 12 => 0xfff case 13 => 0x1fff case 14 => 0x3fff case 15 => 0x7fff
    case 16 => 0xffff case 17 => 0x1ffff case 18 => 0x3ffff case 19 => 0x7ffff
    case 20 => 0xfffff case 21 => 0x1fffff case 22 => 0x3fffff case 23 => 0x7fffff
    case 24 => 0xffffff case 25 => 0x1ffffff case 26 => 0x3ffffff case 27 => 0x7ffffff
    case 28 => 0xfffffff case 29 => 0x1fffffff case 30 => 0x3fffffff
    case _ => 0x7fffffff
  }

  function Power2(k: nat): (p: nat)
    ensures p > 0
  {
    if k == 0 then 1 else 2 * Power2(k - 1)
  }

  lemma OnesNext(k: nat)
    requires 0 < k <= 31
    ensures Ones(k) == OneMore(Ones(k - 1)) && Ones(k - 1) <= 0x3fffffff
  {
  }

  function OneMore(c: Word): Word { c + c + 1 }

  /** One binary digit more. */
  function Joined(x: Word, bit: Word): Word { (x << 1) | bit }

  lemma BareJoined(x: Word)
    ensures Plus(x + x, 0) == Joined(x, 0)
    ensures Plus(x + x, 1) == Joined(x, 1)
  {
  }

  lemma JoinedIs(x: Word, bit: Word)
    requires bit == 0 || bit == 1
    ensures Plus(Plus(x, x), bit) == Joined(x, bit)
  {
    hide Plus, Joined;
    PlusIs(x, x);
    BareJoined(x);
  }

  lemma JoinedBelow(x: Word, k: nat, bit: Word)
    requires 0 < k <= 31 && x <= Ones(k - 1) && (bit == 0 || bit == 1)
    ensures Joined(x, bit) <= Ones(k)
  {
    hide Ones, Joined, OneMore;
    OnesNext(k);
    BareJoinedBelow(x, Ones(k - 1), bit);
  }

  lemma BareJoinedBelow(x: Word, c: Word, bit: Word)
    requires x <= c <= 0x3fffffff && (bit == 0 || bit == 1)
    ensures Joined(x, bit) <= OneMore(c)
  {
  }

  lemma Halved(n: nat)
    ensures WordOf(n) == Joined(WordOf(n / 2), WordOf(n % 2))
    ensures WordOf(n % 2) == 0 || WordOf(n % 2) == 1
  {
    hide Plus, WordOf, Joined, Nibble;
    Sum(n / 2, n / 2);
    Sum(n / 2 + n / 2, n % 2);
    NibbleIs(n % 2);
    NibbleZeroOne();
    JoinedIs(WordOf(n / 2), WordOf(n % 2));
  }

  lemma NibbleZeroOne()
    ensures Nibble(0) == 0 && Nibble(1) == 1
  {
  }

  lemma {:induction false} Small(n: nat, k: nat)
    requires k <= 31 && n < Power2(k)
    ensures WordOf(n) <= Ones(k)
  {
    hide WordOf, Ones, Joined;
    if k == 0 {
      WordOfZero();
      NoOnes();
    } else {
      Small(n / 2, k - 1);
      Halved(n);
      JoinedBelow(WordOf(n / 2), k, WordOf(n % 2));
    }
  }

  lemma NoOnes()
    ensures Ones(0) == 0
  {
  }

  // ---- exclusive or ----

  function Xor(x: Word, y: Word): Word { x ^ y }

  /** Digit by digit. */
  function XorNumber(a: nat, b: nat): nat {
    if a == 0 && b == 0 then 0 else (a + b) % 2 + 2 * XorNumber(a / 2, b / 2)
  }

  lemma BareXor(x: Word, y: Word, p: Word, q: Word)
    requires p & 1 == p && q & 1 == q
    ensures Xor((x << 1) | p, (y << 1) | q) == ((x ^ y) << 1) | (p ^ q)
  {
  }

  lemma JoinedXor(x: Word, y: Word, p: Word, q: Word)
    requires (p == 0 || p == 1) && (q == 0 || q == 1)
    ensures Xor(Joined(x, p), Joined(y, q)) == Joined(Xor(x, y), Xor(p, q))
  {
    hide Xor, Joined;
    JoinedOf(x, p);
    JoinedOf(y, q);
    JoinedOf(x ^ y, p ^ q);
    XorIs(x, y);
    XorIs(p, q);
    OneDigit(p);
    OneDigit(q);
    BareXor(x, y, p, q);
  }

  lemma OneDigit(p: Word)
    requires p == 0 || p == 1
    ensures p & 1 == p
  {
  }

  lemma JoinedOf(x: Word, bit: Word)
    ensures Joined(x, bit) == (x << 1) | bit
  {
  }

  lemma XorIs(x: Word, y: Word)
    ensures Xor(x, y) == x ^ y
  {
  }

  lemma XorBits()
    ensures Xor(0, 0) == 0 && Xor(0, 1) == 1 && Xor(1, 0) == 1 && Xor(1, 1) == 0
  {
  }

  lemma XorOfDigits(a: nat, b: nat)
    requires a < 2 && b < 2
    ensures Xor(WordOf(a), WordOf(b)) == WordOf((a + b) % 2)
  {
    hide WordOf, Nibble, Xor;
    NibbleIs(0);
    NibbleIs(1);
    NibbleZeroOne();
    XorBits();
  }

  lemma {:induction false} ExclusiveOr(a: nat, b: nat)
    ensures WordOf(XorNumber(a, b)) == Xor(WordOf(a), WordOf(b))
    decreases a + b
  {
    hide WordOf, Xor, Joined;
    if a == 0 && b == 0 {
      WordOfZero();
      XorBits();
    } else {
      var h := XorNumber(a / 2, b / 2);
      ExclusiveOr(a / 2, b / 2);
      Halved(a);
      Halved(b);
      XorOfDigits(a % 2, b % 2);
      assert (a % 2 + b % 2) % 2 == (a + b) % 2;
      JoinedXor(WordOf(a / 2), WordOf(b / 2), WordOf(a % 2), WordOf(b % 2));
      Halved(XorNumber(a, b));
      assert XorNumber(a, b) / 2 == h && XorNumber(a, b) % 2 == (a + b) % 2;
    }
  }

  /** A number below a power of two stays below it. */
  lemma {:induction false} XorBelow(a: nat, b: nat, k: nat)
    requires a < Power2(k) && b < Power2(k)
    ensures XorNumber(a, b) < Power2(k)
  {
    if k > 0 {
      XorBelow(a / 2, b / 2, k - 1);
    }
  }

  // ---- one number for each word ----

  function LowBit(x: Word): Word { x & 1 }

  function Half(x: Word): Word { x >> 1 }

  lemma JoinedApart(x: Word, bit: Word)
    requires x <= 0x7fffffff && (bit == 0 || bit == 1)
    ensures LowBit(Joined(x, bit)) == bit && Half(Joined(x, bit)) == x
  {
  }

  /** Numbers below 2^32 with one word are one number. */
  lemma {:induction false} OneNumber(a: nat, b: nat, k: nat)
    requires k <= 32 && a < Power2(k) && b < Power2(k) && WordOf(a) == WordOf(b)
    ensures a == b
  {
    hide WordOf, LowBit, Half;
    if k > 0 {
      TakenApart(a, k);
      TakenApart(b, k);
      BitIsDigit(a % 2);
      BitIsDigit(b % 2);
      OneNumber(a / 2, b / 2, k - 1);
    }
  }

  lemma TakenApart(n: nat, k: nat)
    requires 0 < k <= 32 && n < Power2(k)
    ensures LowBit(WordOf(n)) == WordOf(n % 2) && Half(WordOf(n)) == WordOf(n / 2)
  {
    hide WordOf, Ones, LowBit, Half, Joined;
    Halved(n);
    Small(n / 2, k - 1);
    OnesBelow(k - 1);
    JoinedApart(WordOf(n / 2), WordOf(n % 2));
  }

  lemma OnesBelow(k: nat)
    requires k <= 31
    ensures Ones(k) <= 0x7fffffff
  {
  }

  lemma BitIsDigit(d: nat)
    requires d < 2
    ensures WordOf(d) == 0 <==> d == 0
  {
    hide WordOf, Nibble;
    NibbleIs(d);
    NibbleZeroOne();
  }
}
