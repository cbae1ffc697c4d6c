/** The hash of a key string, as the lookup tables use it. */
module KeyHashes {
  import Murmur
  import MurmurNumbers
  import MurmurValues
  import WordNumbers
  import opened Luts
  import opened LutRuns
  import Portages

  function ByteOf(c: char): Murmur.Byte {
    (c as int % 256) as Murmur.Byte
  }

  function Bytes(s: string): (r: seq<Murmur.Byte>)
    ensures |r| == |s|
  {
    seq(|s|, i requires 0 <= i < |s| => ByteOf(s[i]))
  }

  /** The length is passed in 32 bits, so that only the first `|s|` modulo 2^32 bytes are hashed. */
  function KeyHash(s: string): U32 {
    var bytes := Bytes(s[..|s| % Murmur.MAX_LENGTH]);
    MurmurNumbers.HashIsNumber(bytes);
    MurmurNumbers.HashNumber(bytes)
  }

  lemma BytesOfGcc()
    ensures Bytes("sys-devel/gcc") == [0x73, 0x79, 0x73, 0x2d, 0x64, 0x65, 0x76, 0x65, 0x6c, 0x2f, 0x67, 0x63, 0x63]
  {
  }

  /** The hash of a package key. */
  lemma HashOfGcc()
    ensures KeyHash("sys-devel/gcc") == 0xd0759218
  {
    hide Murmur.Hash, MurmurNumbers.HashNumber, Bytes, KeyHash, WordNumbers.WordOf;
    var bytes := Bytes("sys-devel/gcc");
    KeyHashOf("sys-devel/gcc");
    BytesOfGcc();
    MurmurValues.ValueOfPackageKey();
    MurmurNumbers.HashIsNumber(bytes);
    WordNumbers.WordOfZero();
    WordNumbers.TwoDigits(0, 0, 0xd, 0);
    WordNumbers.TwoDigits(0xd0, 0xd0, 7, 5);
    WordNumbers.TwoDigits(0xd075, 0xd075, 9, 2);
    WordNumbers.TwoDigits(0xd07592, 0xd07592, 1, 8);
    MurmurNumbers.Power32();
    WordNumbers.OneNumber(MurmurNumbers.HashNumber(bytes), 0xd0759218, 32);
  }

  /** Keys of equal length that differ in one block of four bytes only, or behind the last block only. */
  ghost predicate Neighbours(s: string, t: string) {
    && |s| == |t| < Murmur.MAX_LENGTH && Bytes(s) != Bytes(t)
    && ((exists j: nat :: DifferInBlock(s, t, j)) || forall i :: 0 <= i < |s| / 4 * 4 ==> s[i] == t[i])
  }

  ghost predicate DifferInBlock(s: string, t: string, j: nat)
    requires |s| == |t|
  {
    4 * j + 4 <= |s| && forall i :: 0 <= i < |s| && !(4 * j <= i < 4 * j + 4) ==> s[i] == t[i]
  }

  lemma KeyHashOf(s: string)
    requires |s| < Murmur.MAX_LENGTH
    ensures KeyHash(s) == MurmurNumbers.HashNumber(Bytes(s))
  {
    hide Murmur.Hash, MurmurNumbers.HashNumber, Bytes;
    assert |s| % Murmur.MAX_LENGTH == |s| && s[..|s|] == s;
  }

  lemma BlockApart(s: string, t: string, j: nat)
    requires |s| == |t| < Murmur.MAX_LENGTH && Bytes(s) != Bytes(t) && DifferInBlock(s, t, j)
    ensures Murmur.Hash(Bytes(s)) != Murmur.Hash(Bytes(t))
  {
    hide Murmur.Hash, ByteOf;
    Murmur.OneBlockShows(Bytes(s), Bytes(t), j);
  }

  lemma TailApart(s: string, t: string)
    requires |s| == |t| < Murmur.MAX_LENGTH && Bytes(s) != Bytes(t)
    requires forall i :: 0 <= i < |s| / 4 * 4 ==> s[i] == t[i]
    ensures Murmur.Hash(Bytes(s)) != Murmur.Hash(Bytes(t))
  {
    hide Murmur.Hash, ByteOf;
    Murmur.TailShows(Bytes(s), Bytes(t));
  }

  lemma NeighboursApart(s: string, t: string)
    requires Neighbours(s, t)
    ensures KeyHash(s) != KeyHash(t)
  {
    hide Murmur.Hash, MurmurNumbers.HashNumber, Bytes, KeyHash, DifferInBlock;
    KeyHashOf(s);
    KeyHashOf(t);
    if j: nat :| DifferInBlock(s, t, j) {
      BlockApart(s, t, j);
    } else {
      TailApart(s, t);
    }
    MurmurNumbers.OneNumberForEach(Bytes(s), Bytes(t));
  }

  /** In a table whose keys are all such neighbours every id is just the hash, whatever the order in
      which the keys came. */
  lemma NeighboursIds<V>(m: map<string, Entry<V>>, k: string)
    requires WellRanked(m, KeyHash) && k in m
    requires forall s, t :: s in m && t in m && s != t ==> Neighbours(s, t)
    ensures m[k].id == KeyHash(k)
  {
    hide KeyHash, Neighbours, RanksExact, IdsInjective;
    forall l | l in m && l != k
      ensures KeyHash(l) != KeyHash(k)
    {
      NeighboursApart(l, k);
    }
    assert Holders(m, KeyHash, KeyHash(k)) == {k};
    assert IdOverlap(m[k].id) == 0;
  }

  method NewPortage() returns (portage: Portages.Portage)
    ensures fresh(portage) && portage.Valid() && portage.indexed == [] && portage.packages.hash == KeyHash
  {
    portage := new Portages.Portage(KeyHash);
  }
}
