/** The values of the hash for short inputs: the published ones, and that of a package key. */
module MurmurValues {
  import opened WordNumbers
  import opened Murmur

  lemma Lengths()
    ensures Length(1) == 1 && Length(2) == 2 && Length(3) == 3 && Length(4) == 4 && Length(5) == 5 && Length(13) == 13
  {
    hide WordOf, Nibble;
    NibbleIs(1);
    NibbleIs(2);
    NibbleIs(3);
    NibbleIs(4);
    NibbleIs(5);
    NibbleIs(13);
    Nibbles();
  }

  lemma Nibbles()
    ensures Nibble(1) == 1 && Nibble(2) == 2 && Nibble(3) == 3 && Nibble(4) == 4 && Nibble(5) == 5 && Nibble(13) == 13
  {
  }

  lemma ValueOfNothing()
    ensures Hash([]) == 0
  {
  }

  lemma StepsOfA()
    ensures Packed([0x61]) == 0x61 && Mix(0x61) == 0x504ba9d5
    ensures Xor(0x0, 0x504ba9d5) == 0x504ba9d5
    ensures Xor(0x504ba9d5, 1) == 0x504ba9d4
    ensures Finish(0x504ba9d4) == 0x3c2569b2
  {
  }

  /** `a` */
  lemma ValueOfA()
    ensures Hash([0x61]) == 0x3c2569b2
  {
    hide Mix, Absorb, Finish, Word4, Packed, Length, Xor;
    var data: seq<Byte> := [0x61];
    Lengths();
    StepsOfA();
    assert Body(data, 0) == 0;
    assert Tail(data) == [0x61];
  }

  lemma StepsOfAb()
    ensures Packed([0x61, 0x62]) == 0x6261 && Mix(0x6261) == 0x5b87902c
    ensures Xor(0x0, 0x5b87902c) == 0x5b87902c
    ensures Xor(0x5b87902c, 2) == 0x5b87902e
    ensures Finish(0x5b87902e) == 0x9bbfd75f
  {
  }

  /** `ab` */
  lemma ValueOfAb()
    ensures Hash([0x61, 0x62]) == 0x9bbfd75f
  {
    hide Mix, Absorb, Finish, Word4, Packed, Length, Xor;
    var data: seq<Byte> := [0x61, 0x62];
    Lengths();
    StepsOfAb();
    assert Body(data, 0) == 0;
    assert Tail(data) == [0x61, 0x62];
  }

  lemma StepsOfAbc()
    ensures Packed([0x61, 0x62, 0x63]) == 0x636261 && Mix(0x636261) == 0xa7349db7
    ensures Xor(0x0, 0xa7349db7) == 0xa7349db7
    ensures Xor(0xa7349db7, 3) == 0xa7349db4
    ensures Finish(0xa7349db4) == 0xb3dd93fa
  {
  }

  /** `abc` */
  lemma ValueOfAbc()
    ensures Hash([0x61, 0x62, 0x63]) == 0xb3dd93fa
  {
    hide Mix, Absorb, Finish, Word4, Packed, Length, Xor;
    var data: seq<Byte> := [0x61, 0x62, 0x63];
    Lengths();
    StepsOfAbc();
    assert Body(data, 0) == 0;
    assert Tail(data) == [0x61, 0x62, 0x63];
  }

  lemma StepsOfAbcd()
    ensures Word4(0x61, 0x62, 0x63, 0x64) == 0x64636261 && Mix(0x64636261) == 0x5b9433b7
    ensures Absorb(0x0, 0x5b9433b7) == 0x86a7049e
    ensures Xor(0x86a7049e, 4) == 0x86a7049a
    ensures Finish(0x86a7049a) == 0x43ed676a
  {
  }

  /** `abcd` */
  lemma ValueOfAbcd()
    ensures Hash([0x61, 0x62, 0x63, 0x64]) == 0x43ed676a
  {
    hide Mix, Absorb, Finish, Word4, Packed, Length, Xor;
    var data: seq<Byte> := [0x61, 0x62, 0x63, 0x64];
    Lengths();
    StepsOfAbcd();
    assert Body(data, 0) == 0;
    assert Body(data, 1) == 0x86a7049e;
    assert Tail(data) == [];
  }

  lemma StepsOfAbcde()
    ensures Word4(0x61, 0x62, 0x63, 0x64) == 0x64636261 && Mix(0x64636261) == 0x5b9433b7
    ensures Absorb(0x0, 0x5b9433b7) == 0x86a7049e
    ensures Packed([0x65]) == 0x65 && Mix(0x65) == 0x8d3d9349
    ensures Xor(0x86a7049e, 0x8d3d9349) == 0xb9a97d7
    ensures Xor(0xb9a97d7, 5) == 0xb9a97d2
    ensures Finish(0xb9a97d2) == 0xe89b9af6
  {
  }

  /** `abcde` */
  lemma ValueOfAbcde()
    ensures Hash([0x61, 0x62, 0x63, 0x64, 0x65]) == 0xe89b9af6
  {
    hide Mix, Absorb, Finish, Word4, Packed, Length, Xor;
    var data: seq<Byte> := [0x61, 0x62, 0x63, 0x64, 0x65];
    Lengths();
    StepsOfAbcde();
    assert Body(data, 0) == 0;
    assert Body(data, 1) == 0x86a7049e;
    assert Tail(data) == [0x65];
  }

  lemma StepsOfPackageKey()
    ensures Word4(0x73, 0x79, 0x73, 0x2d) == 0x2d737973 && Mix(0x2d737973) == 0x42589e2a
    ensures Absorb(0x0, 0x42589e2a) == 0x492ed4db
    ensures Word4(0x64, 0x65, 0x76, 0x65) == 0x65766564 && Mix(0x65766564) == 0x8ae63500
    ensures Absorb(0x492ed4db, 0x8ae63500) == 0x737dc5c1
    ensures Word4(0x6c, 0x2f, 0x67, 0x63) == 0x63672f6c && Mix(0x63672f6c) == 0x8300ec03
    ensures Absorb(0x737dc5c1, 0x8300ec03) == 0x206e41af
    ensures Packed([0x63]) == 0x63 && Mix(0x63) == 0xa15fde8f
    ensures Xor(0x206e41af, 0xa15fde8f) == 0x81319f20
    ensures Xor(0x81319f20, 13) == 0x81319f2d
    ensures Finish(0x81319f2d) == 0xd0759218
  {
  }

  /** `sys-devel/gcc` */
  lemma ValueOfPackageKey()
    ensures Hash([0x73, 0x79, 0x73, 0x2d, 0x64, 0x65, 0x76, 0x65, 0x6c, 0x2f, 0x67, 0x63, 0x63]) == 0xd0759218
  {
    hide Mix, Absorb, Finish, Word4, Packed, Length, Xor;
    var data: seq<Byte> := [0x73, 0x79, 0x73, 0x2d, 0x64, 0x65, 0x76, 0x65, 0x6c, 0x2f, 0x67, 0x63, 0x63];
    Lengths();
    StepsOfPackageKey();
    assert Body(data, 0) == 0;
    assert Body(data, 1) == 0x492ed4db;
    assert Body(data, 2) == 0x737dc5c1;
    assert Body(data, 3) == 0x206e41af;
    assert Tail(data) == [0x63];
  }
}
