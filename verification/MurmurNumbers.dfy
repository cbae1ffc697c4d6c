/** The Murmur3 hash as arithmetic modulo 2^32, and the values it has for short inputs. */
module MurmurNumbers {
  import opened WordNumbers
  import opened Murmur

  // ---- the algorithm on numbers ----

  /** Fifteen places to the left, and around. */
  function Rotated15(n: nat): nat {
    n % 0x2_0000 * 0x8000 + n / 0x2_0000
  }

  function Rotated13(n: nat): nat {
    n % 0x8_0000 * 0x2000 + n / 0x8_0000
  }

  function Scrambled(k: nat): nat {
    Rotated15(k * 0xcc9e2d51 % MODULUS) * 0x1b873593 % MODULUS
  }

  function BlockNumber(data: seq<Byte>, i: nat): nat
    requires 4 * i + 4 <= |data|
  {
    data[4 * i] as int + 0x100 * (data[4 * i + 1] as int) + 0x1_0000 * (data[4 * i + 2] as int)
      + 0x100_0000 * (data[4 * i + 3] as int)
  }

  function StateNumber(data: seq<Byte>, n: nat): nat
    requires 4 * n <= |data|
  {
    if n == 0 then 0
    else
      var h := XorNumber(StateNumber(data, n - 1), Scrambled(BlockNumber(data, n - 1)));
      (Rotated13(h) * 5 + 0xe6546b64) % MODULUS
  }

  function TailNumber(tail: seq<Byte>): nat {
    if tail == [] then 0 else tail[0] as int + 0x100 * TailNumber(tail[1..])
  }

  function WithTailNumber(h: nat, tail: seq<Byte>): nat {
    if tail == [] then h else XorNumber(h, Scrambled(TailNumber(tail)))
  }

  function Finished(h: nat): nat {
    var a := XorNumber(h, h / 0x1_0000) * 0x85ebca6b % MODULUS;
    var b := XorNumber(a, a / 0x2000) * 0xc2b2ae35 % MODULUS;
    XorNumber(b, b / 0x1_0000)
  }

  function HashNumber(data: seq<Byte>): nat {
    if data == [] then 0
    else
      var n := |data| / 4;
      Finished(XorNumber(WithTailNumber(StateNumber(data, n), data[4 * n..]), |data|))
  }

  // ---- everything stays below 2^32 ----

  lemma Power32()
    ensures Power2(32) == MODULUS
  {
    assert Power2(4) == 16;
    Power2Splits(4, 4);
    Power2Splits(8, 8);
    Power2Splits(16, 16);
  }

  lemma {:induction false} Power2Splits(a: nat, b: nat)
    ensures Power2(a + b) == Power2(a) * Power2(b)
  {
    if a > 0 {
      Power2Splits(a - 1, b);
      assert Power2(a + b) == 2 * Power2((a - 1) + b);
    }
  }

  lemma XorWithin(a: nat, b: nat)
    requires a < MODULUS && b < MODULUS
    ensures XorNumber(a, b) < MODULUS
  {
    Power32();
    XorBelow(a, b, 32);
  }

  lemma RotatedWithin(n: nat)
    requires n < MODULUS
    ensures Rotated15(n) < MODULUS && Rotated13(n) < MODULUS
  {
  }

  lemma {:induction false} StateWithin(data: seq<Byte>, n: nat)
    requires 4 * n <= |data|
    ensures StateNumber(data, n) < MODULUS
  {
  }

  lemma FinishedWithin(h: nat)
    requires h < MODULUS
    ensures Finished(h) < MODULUS
  {
    var a := XorNumber(h, h / 0x1_0000) * 0x85ebca6b % MODULUS;
    var b := XorNumber(a, a / 0x2000) * 0xc2b2ae35 % MODULUS;
    XorWithin(b, b / 0x1_0000);
  }

  // ---- step by step the words stand for these numbers ----

  lemma LiteralWords()
    ensures WordOf(0xcc9e2d51) == 0xcc9e2d51 && WordOf(0x1b873593) == 0x1b873593
  {
    hide WordOf;
    WordOfZero();
    TwoDigits(0, 0, 0xc, 0xc);
    TwoDigits(0xcc, 0xcc, 9, 0xe);
    TwoDigits(0xcc9e, 0xcc9e, 2, 0xd);
    TwoDigits(0xcc9e2d, 0xcc9e2d, 5, 1);
    TwoDigits(0, 0, 1, 0xb);
    TwoDigits(0x1b, 0x1b, 8, 7);
    TwoDigits(0x1b87, 0x1b87, 3, 5);
    TwoDigits(0x1b8735, 0x1b8735, 9, 3);
  }

  lemma AddendWords()
    ensures WordOf(0xe6546b64) == 0xe6546b64 && WordOf(5) == 5
  {
    hide WordOf;
    WordOfZero();
    TwoDigits(0, 0, 0, 5);
    TwoDigits(0, 0, 0xe, 6);
    TwoDigits(0xe6, 0xe6, 5, 4);
    TwoDigits(0xe654, 0xe654, 6, 0xb);
    TwoDigits(0xe6546b, 0xe6546b, 6, 4);
  }

  lemma FinishingWords()
    ensures WordOf(0x85ebca6b) == 0x85ebca6b && WordOf(0xc2b2ae35) == 0xc2b2ae35
  {
    hide WordOf;
    WordOfZero();
    TwoDigits(0, 0, 8, 5);
    TwoDigits(0x85, 0x85, 0xe, 0xb);
    TwoDigits(0x85eb, 0x85eb, 0xc, 0xa);
    TwoDigits(0x85ebca, 0x85ebca, 6, 0xb);
    TwoDigits(0, 0, 0xc, 2);
    TwoDigits(0xc2, 0xc2, 0xb, 2);
    TwoDigits(0xc2b2, 0xc2b2, 0xa, 0xe);
    TwoDigits(0xc2b2ae, 0xc2b2ae, 3, 5);
  }

  lemma LiteralPowers()
    ensures WordOf(0x100) == 0x100 && WordOf(0x1_0000) == 0x1_0000 && WordOf(0x2_0000) == 0x2_0000
    ensures WordOf(0x8000) == 0x8000 && WordOf(0x2000) == 0x2000 && WordOf(0x8_0000) == 0x8_0000
  {
    hide WordOf;
    WordOfZero();
    TwoDigits(0, 0, 0, 1);
    TwoDigits(1, 1, 0, 0);
    TwoDigits(0x100, 0x100, 0, 0);
    TwoDigits(0, 0, 0, 2);
    TwoDigits(2, 2, 0, 0);
    TwoDigits(0x200, 0x200, 0, 0);
    TwoDigits(0, 0, 8, 0);
    TwoDigits(0x80, 0x80, 0, 0);
    TwoDigits(0, 0, 2, 0);
    TwoDigits(0x20, 0x20, 0, 0);
    TwoDigits(0, 0, 0, 8);
    TwoDigits(8, 8, 0, 0);
    TwoDigits(0x800, 0x800, 0, 0);
  }

  lemma ProductWord(n: nat, c: nat)
    ensures WordOf(n * c % MODULUS) == Times(WordOf(n), WordOf(c))
  {
    hide WordOf;
    Modulo(n * c);
    Product(n, c);
  }

  lemma C1IsProduct(w: Word)
    ensures TimesC1(w) == Times(w, 0xcc9e2d51)
  {
  }

  lemma C2IsProduct(w: Word)
    ensures TimesC2(w) == Times(w, 0x1b873593)
  {
  }

  lemma F1IsProduct(w: Word)
    ensures TimesF1(w) == Times(w, 0x85ebca6b)
  {
  }

  lemma F2IsProduct(w: Word)
    ensures TimesF2(w) == Times(w, 0xc2b2ae35)
  {
  }

  lemma BareTimes5(w: Word)
    ensures Times5Plus(w) == Plus(w * 5, 0xe6546b64)
  {
  }

  lemma Times5Word(n: nat)
    ensures WordOf((n * 5 + 0xe6546b64) % MODULUS) == Times5Plus(WordOf(n))
  {
    hide WordOf, Times5Plus, Plus, Times;
    AddendWords();
    Modulo(n * 5 + 0xe6546b64);
    Sum(n * 5, 0xe6546b64);
    Product(n, 5);
    TimesIs(WordOf(n), 5);
    BareTimes5(WordOf(n));
  }

  // rotations and shifts take a number apart

  lemma TakenApartAt(n: nat, p: nat)
    requires p > 0
    ensures WordOf(n) == Plus(Times(WordOf(n / p), WordOf(p)), WordOf(n % p))
  {
    hide WordOf, Plus, Times;
    Sum(n / p * p, n % p);
    Product(n / p, p);
  }

  lemma BareRotation15(x: Word, y: Word)
    requires x <= 0x7fff && y <= 0x1ffff
    ensures RotateLeft15(x * 0x2_0000 + y) == y * 0x8000 + x
  {
  }

  lemma BareRotation13(x: Word, y: Word)
    requires x <= 0x1fff && y <= 0x7ffff
    ensures RotateLeft13(x * 0x8_0000 + y) == y * 0x2000 + x
  {
  }

  lemma Rotation15(x: Word, y: Word)
    requires x <= 0x7fff && y <= 0x1ffff
    ensures RotateLeft15(Plus(Times(x, 0x2_0000), y)) == Plus(Times(y, 0x8000), x)
  {
    hide Plus, Times, RotateLeft15;
    TimesIs(x, 0x2_0000);
    PlusIs(x * 0x2_0000, y);
    TimesIs(y, 0x8000);
    PlusIs(y * 0x8000, x);
    BareRotation15(x, y);
  }

  lemma Rotation13(x: Word, y: Word)
    requires x <= 0x1fff && y <= 0x7ffff
    ensures RotateLeft13(Plus(Times(x, 0x8_0000), y)) == Plus(Times(y, 0x2000), x)
  {
    hide Plus, Times, RotateLeft13;
    TimesIs(x, 0x8_0000);
    PlusIs(x * 0x8_0000, y);
    TimesIs(y, 0x2000);
    PlusIs(y * 0x2000, x);
    BareRotation13(x, y);
  }

  lemma PowersOfTwo()
    ensures Power2(13) == 0x2000 && Power2(15) == 0x8000 && Power2(16) == 0x1_0000
    ensures Power2(17) == 0x2_0000 && Power2(19) == 0x8_0000
  {
    assert Power2(3) == 8 && Power2(2) == 4 && Power2(1) == 2 && Power2(5) == 32;
    Power2Splits(5, 5);
    Power2Splits(10, 3);
    Power2Splits(13, 2);
    Power2Splits(15, 1);
    Power2Splits(16, 1);
    Power2Splits(17, 2);
  }

  lemma OnesAre()
    ensures Ones(13) == 0x1fff && Ones(15) == 0x7fff && Ones(16) == 0xffff && Ones(17) == 0x1ffff && Ones(19) == 0x7ffff
  {
  }

  lemma Rotated15Word(n: nat)
    requires n < MODULUS
    ensures WordOf(Rotated15(n)) == RotateLeft15(WordOf(n))
  {
    hide WordOf, Plus, Times, RotateLeft15, Ones;
    var x, y := n / 0x2_0000, n % 0x2_0000;
    LiteralPowers();
    PowersOfTwo();
    OnesAre();
    TakenApartAt(n, 0x2_0000);
    Small(x, 15);
    Small(y, 17);
    Rotation15(WordOf(x), WordOf(y));
    Product(y, 0x8000);
    Sum(y * 0x8000, x);
  }

  lemma Rotated13Word(n: nat)
    requires n < MODULUS
    ensures WordOf(Rotated13(n)) == RotateLeft13(WordOf(n))
  {
    hide WordOf, Plus, Times, RotateLeft13, Ones;
    var x, y := n / 0x8_0000, n % 0x8_0000;
    LiteralPowers();
    PowersOfTwo();
    OnesAre();
    TakenApartAt(n, 0x8_0000);
    Small(x, 13);
    Small(y, 19);
    Rotation13(WordOf(x), WordOf(y));
    Product(y, 0x2000);
    Sum(y * 0x2000, x);
  }

  function Right16(w: Word): Word { w >> 16 }

  function Right13(w: Word): Word { w >> 13 }

  lemma BareShift16(x: Word, y: Word)
    requires x <= 0xffff && y <= 0xffff
    ensures Right16(x * 0x1_0000 + y) == x
  {
  }

  lemma BareShift13(x: Word, y: Word)
    requires x <= 0x7ffff && y <= 0x1fff
    ensures Right13(x * 0x2000 + y) == x
  {
  }

  lemma Shift16(x: Word, y: Word)
    requires x <= 0xffff && y <= 0xffff
    ensures Right16(Plus(Times(x, 0x1_0000), y)) == x
  {
    hide Plus, Times, Right16;
    TimesIs(x, 0x1_0000);
    PlusIs(x * 0x1_0000, y);
    BareShift16(x, y);
  }

  lemma Shift13(x: Word, y: Word)
    requires x <= 0x7ffff && y <= 0x1fff
    ensures Right13(Plus(Times(x, 0x2000), y)) == x
  {
    hide Plus, Times, Right13;
    TimesIs(x, 0x2000);
    PlusIs(x * 0x2000, y);
    BareShift13(x, y);
  }

  lemma Shift16Word(n: nat)
    requires n < MODULUS
    ensures WordOf(n / 0x1_0000) == Right16(WordOf(n))
  {
    hide WordOf, Plus, Times, Right16, Ones;
    var x, y := n / 0x1_0000, n % 0x1_0000;
    LiteralPowers();
    PowersOfTwo();
    OnesAre();
    TakenApartAt(n, 0x1_0000);
    Small(x, 16);
    Small(y, 16);
    Shift16(WordOf(x), WordOf(y));
  }

  lemma Shift13Word(n: nat)
    requires n < MODULUS
    ensures WordOf(n / 0x2000) == Right13(WordOf(n))
  {
    hide WordOf, Plus, Times, Right13, Ones;
    var x, y := n / 0x2000, n % 0x2000;
    LiteralPowers();
    PowersOfTwo();
    OnesAre();
    TakenApartAt(n, 0x2000);
    Small(x, 19);
    Small(y, 13);
    Shift13(WordOf(x), WordOf(y));
  }

  lemma Right16Is(w: Word)
    ensures Right16(w) == w >> 16
  {
  }

  lemma Right13Is(w: Word)
    ensures Right13(w) == w >> 13
  {
  }

  lemma BareFold16(w: Word)
    ensures Xor(w, w >> 16) == XorHigh16(w)
  {
  }

  lemma BareFold13(w: Word)
    ensures Xor(w, w >> 13) == XorHigh13(w)
  {
  }

  lemma XorHighIs(w: Word)
    ensures XorHigh16(w) == Xor(w, Right16(w)) && XorHigh13(w) == Xor(w, Right13(w))
  {
    hide XorHigh16, XorHigh13, Xor, Right16, Right13;
    Right16Is(w);
    Right13Is(w);
    BareFold16(w);
    BareFold13(w);
  }

  // ---- the parts of the hash ----

  lemma ScrambledWord(k: nat)
    ensures WordOf(Scrambled(k)) == Mix(WordOf(k)) && Scrambled(k) < MODULUS
  {
    hide WordOf, Times, TimesC1, TimesC2, RotateLeft15, Rotated15;
    var k1 := k * 0xcc9e2d51 % MODULUS;
    LiteralWords();
    ProductWord(k, 0xcc9e2d51);
    C1IsProduct(WordOf(k));
    Rotated15Word(k1);
    ProductWord(Rotated15(k1), 0x1b873593);
    C2IsProduct(WordOf(Rotated15(k1)));
  }

  lemma FinishedWord(h: nat)
    requires h < MODULUS
    ensures WordOf(Finished(h)) == Finish(WordOf(h))
  {
    hide WordOf, Times, TimesF1, TimesF2, XorHigh16, XorHigh13, Xor, Right16, Right13, XorNumber;
    var x := XorNumber(h, h / 0x1_0000);
    var a := x * 0x85ebca6b % MODULUS;
    var y := XorNumber(a, a / 0x2000);
    var b := y * 0xc2b2ae35 % MODULUS;
    FinishingWords();
    FoldedWord16(h);
    ProductWord(x, 0x85ebca6b);
    F1IsProduct(WordOf(x));
    FoldedWord13(a);
    ProductWord(y, 0xc2b2ae35);
    F2IsProduct(WordOf(y));
    FoldedWord16(b);
  }

  lemma FoldedWord16(h: nat)
    requires h < MODULUS
    ensures WordOf(XorNumber(h, h / 0x1_0000)) == XorHigh16(WordOf(h))
  {
    hide WordOf, XorHigh16, XorHigh13, Xor, Right16, Right13, XorNumber;
    Shift16Word(h);
    ExclusiveOr(h, h / 0x1_0000);
    XorHighIs(WordOf(h));
  }

  lemma FoldedWord13(h: nat)
    requires h < MODULUS
    ensures WordOf(XorNumber(h, h / 0x2000)) == XorHigh13(WordOf(h))
  {
    hide WordOf, XorHigh16, XorHigh13, Xor, Right16, Right13, XorNumber;
    Shift13Word(h);
    ExclusiveOr(h, h / 0x2000);
    XorHighIs(WordOf(h));
  }

  // ---- bytes ----

  lemma ByteHalves(b: Byte)
    ensures b as int == 2 * ((b >> 1) as int) + ((b & 1) as int)
    ensures (b & 1) as int == if b & 1 == 0 then 0 else 1
  {
  }

  lemma ByteWordHalves(b: Byte)
    ensures b as Word == Joined((b >> 1) as Word, (b & 1) as Word)
    ensures b & 1 == 0 || b & 1 == 1
    ensures b != 0 ==> b >> 1 < b
  {
  }

  lemma BitWord(b: Byte)
    requires b == 0 || b == 1
    ensures WordOf(b as int) == b as Word
  {
    hide WordOf, Nibble;
    NibbleIs(0);
    NibbleIs(1);
    NibbleZeroOne();
  }

  lemma {:induction false} ByteWord(b: Byte)
    ensures WordOf(b as int) == b as Word
    decreases b
  {
    hide WordOf, Joined;
    ByteWordHalves(b);
    if b == 0 {
      BitWord(b);
    } else {
      ByteHalves(b);
      ByteWord(b >> 1);
      BitWord(b & 1);
      Halved(b as int);
    }
  }

  /** Times 256, and one byte more. */
  function Longer(w: Word, b: Word): Word { Plus(Times(w, 0x100), b) }

  lemma LongerIs(w: Word, b: Word)
    ensures Longer(w, b) == w * 0x100 + b
  {
    hide Plus, Times;
    TimesIs(w, 0x100);
    PlusIs(w * 0x100, b);
  }

  function Word2(b0: Byte, b1: Byte): Word { (b0 as Word) | ((b1 as Word) << 8) }

  function Word3(b0: Byte, b1: Byte, b2: Byte): Word { (b0 as Word) | ((b1 as Word) << 8) | ((b2 as Word) << 16) }

  lemma BareWord2(b0: Byte, b1: Byte)
    ensures (b1 as Word) * 0x100 + (b0 as Word) == Word2(b0, b1)
  {
  }

  function Longest(w: Word, b: Word): Word { w * 0x100 + b }

  lemma BareWord3(b0: Byte, b1: Byte, b2: Byte)
    ensures Longest((b1 as Word) | ((b2 as Word) << 8), b0 as Word) == Word3(b0, b1, b2)
  {
  }

  lemma BareWord4(b0: Byte, b1: Byte, b2: Byte, b3: Byte)
    ensures Longest((b1 as Word) | ((b2 as Word) << 8) | ((b3 as Word) << 16), b0 as Word) == Word4(b0, b1, b2, b3)
  {
  }

  lemma LongestIs(w: Word, b: Word)
    ensures Longest(w, b) == Longer(w, b)
  {
    hide Longer;
    LongerIs(w, b);
  }

  lemma Word2Is(b0: Byte, b1: Byte)
    ensures Longer(b1 as Word, b0 as Word) == Word2(b0, b1)
  {
    hide Longer, Word2;
    LongerIs(b1 as Word, b0 as Word);
    BareWord2(b0, b1);
  }

  lemma Word2Shape(b0: Byte, b1: Byte)
    ensures Word2(b0, b1) == (b0 as Word) | ((b1 as Word) << 8)
  {
  }

  lemma Word3Shape(b0: Byte, b1: Byte, b2: Byte)
    ensures Word3(b0, b1, b2) == (b0 as Word) | ((b1 as Word) << 8) | ((b2 as Word) << 16)
  {
  }

  lemma Word3Is(b0: Byte, b1: Byte, b2: Byte)
    ensures Longer(Word2(b1, b2), b0 as Word) == Word3(b0, b1, b2)
  {
    hide Longer, Longest, Word2, Word3;
    Word2Shape(b1, b2);
    BareWord3(b0, b1, b2);
    LongestIs(Word2(b1, b2), b0 as Word);
  }

  lemma Word4Is(b0: Byte, b1: Byte, b2: Byte, b3: Byte)
    ensures Longer(Word3(b1, b2, b3), b0 as Word) == Word4(b0, b1, b2, b3)
  {
    hide Longer, Longest, Word3, Word4;
    Word3Shape(b1, b2, b3);
    BareWord4(b0, b1, b2, b3);
    LongestIs(Word3(b1, b2, b3), b0 as Word);
  }

  lemma LongerWord(n: nat, b: Byte)
    ensures WordOf(b as int + 0x100 * n) == Longer(WordOf(n), b as Word)
  {
    hide WordOf, Plus, Times;
    LiteralPowers();
    ByteWord(b);
    Product(n, 0x100);
    assert n * 0x100 + b as int == b as int + 0x100 * n;
    Sum(n * 0x100, b as int);
  }

  lemma BlockWord(data: seq<Byte>, i: nat)
    requires 4 * i + 4 <= |data|
    ensures WordOf(BlockNumber(data, i)) == Block(data, i)
  {
    hide WordOf, Longer, Word2, Word3, Word4;
    var b0, b1, b2, b3 := data[4 * i], data[4 * i + 1], data[4 * i + 2], data[4 * i + 3];
    ByteWord(b3);
    LongerWord(b3 as int, b2);
    LongerWord(b2 as int + 0x100 * (b3 as int), b1);
    LongerWord(b1 as int + 0x100 * (b2 as int + 0x100 * (b3 as int)), b0);
    Word2Is(b2, b3);
    Word3Is(b1, b2, b3);
    Word4Is(b0, b1, b2, b3);
  }

  lemma BarePacked3(a: Byte, b: Byte, c: Byte)
    ensures Xor(Xor(Xor(0, High(c)), Middle(b)), Low(a)) == Word3(a, b, c)
  {
  }

  lemma BarePacked2(a: Byte, b: Byte)
    ensures Xor(Xor(0, Middle(b)), Low(a)) == Word2(a, b)
  {
  }

  lemma BarePacked1(a: Byte)
    ensures Xor(0, Low(a)) == a as Word
  {
  }

  lemma TailOf1(t: seq<Byte>)
    requires |t| == 1
    ensures WordOf(TailNumber(t)) == t[0] as Word && TailNumber(t) == t[0] as int
  {
    hide WordOf;
    ByteWord(t[0]);
    assert t[1..] == [];
  }

  lemma TailUnfolds(t: seq<Byte>)
    requires t != []
    ensures TailNumber(t) == t[0] as int + 0x100 * TailNumber(t[1..])
  {
  }

  lemma TailOf2(t: seq<Byte>)
    requires |t| == 2
    ensures WordOf(TailNumber(t)) == Word2(t[0], t[1])
  {
    hide WordOf, Longer, Word2, TailNumber;
    var a, b := t[0], t[1];
    assert t[1..] == [b];
    TailOf1([b]);
    TailUnfolds(t);
    LongerWord(TailNumber([b]), a);
    Word2Is(a, b);
  }

  lemma TailOf3(t: seq<Byte>)
    requires |t| == 3
    ensures WordOf(TailNumber(t)) == Word3(t[0], t[1], t[2])
  {
    hide WordOf, Longer, Word2, Word3, TailNumber;
    TailOf2(t[1..]);
    TailUnfolds(t);
    LongerWord(TailNumber(t[1..]), t[0]);
    Word3Is(t[0], t[1], t[2]);
  }

  lemma TailWord(tail: seq<Byte>)
    requires 0 < |tail| <= 3
    ensures WordOf(TailNumber(tail)) == Packed(tail)
  {
    hide WordOf, TailNumber, Xor, Low, Middle, High, Word2, Word3;
    if |tail| == 1 {
      TailOf1(tail);
      BarePacked1(tail[0]);
    } else if |tail| == 2 {
      TailOf2(tail);
      BarePacked2(tail[0], tail[1]);
    } else {
      TailOf3(tail);
      BarePacked3(tail[0], tail[1], tail[2]);
    }
  }

  // ---- the hash ----

  lemma {:induction false} StateWord(data: seq<Byte>, n: nat)
    requires 4 * n <= |data|
    ensures WordOf(StateNumber(data, n)) == Body(data, n)
  {
    hide WordOf, Mix, Block, BlockNumber, Scrambled, Rotated13, RotateLeft13, Times5Plus, Xor, XorNumber;
    if n == 0 {
      WordOfZero();
    } else {
      var k := Scrambled(BlockNumber(data, n - 1));
      var before := StateNumber(data, n - 1);
      StateWord(data, n - 1);
      StateWithin(data, n - 1);
      BlockWord(data, n - 1);
      ScrambledWord(BlockNumber(data, n - 1));
      ExclusiveOr(before, k);
      XorWithin(before, k);
      Rotated13Word(XorNumber(before, k));
      Times5Word(Rotated13(XorNumber(before, k)));
    }
  }

  lemma WithTailWord(h: nat, tail: seq<Byte>)
    requires h < MODULUS && |tail| <= 3
    ensures WordOf(WithTailNumber(h, tail)) == WithTail(WordOf(h), tail) && WithTailNumber(h, tail) < MODULUS
  {
    hide WordOf, Mix, Packed, TailNumber, Scrambled, Xor, XorNumber;
    if tail != [] {
      var k := Scrambled(TailNumber(tail));
      TailWord(tail);
      ScrambledWord(TailNumber(tail));
      ExclusiveOr(h, k);
      XorWithin(h, k);
    }
  }

  /** The hash of every input is the word of the number that the algorithm on numbers gives. */
  lemma HashIsNumber(data: seq<Byte>)
    requires |data| < MAX_LENGTH
    ensures HashNumber(data) < MODULUS && Hash(data) == WordOf(HashNumber(data))
  {
    hide WordOf, Body, WithTail, Finish, StateNumber, WithTailNumber, Finished, Xor, XorNumber;
    if data == [] {
      WordOfZero();
    } else {
      var n := |data| / 4;
      var state := StateNumber(data, n);
      var h := WithTailNumber(state, data[4 * n..]);
      StateWithin(data, n);
      StateWord(data, n);
      WithTailWord(state, data[4 * n..]);
      ExclusiveOr(h, |data|);
      XorWithin(h, |data|);
      FinishedWithin(XorNumber(h, |data|));
      FinishedWord(XorNumber(h, |data|));
    }
  }

  /** Different hashes have different numbers, and equal ones equal numbers. */
  lemma OneNumberForEach(s: seq<Byte>, t: seq<Byte>)
    requires |s| < MAX_LENGTH && |t| < MAX_LENGTH
    ensures Hash(s) == Hash(t) <==> HashNumber(s) == HashNumber(t)
  {
    hide WordOf, Hash, HashNumber;
    HashIsNumber(s);
    HashIsNumber(t);
    Power32();
    if Hash(s) == Hash(t) {
      OneNumber(HashNumber(s), HashNumber(t), 32);
    }
  }
}
