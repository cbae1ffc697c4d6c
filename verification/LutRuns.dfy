/** What any run of insertions into a lookup table guarantees about its ids. */
module LutRuns {
  import opened Luts

  /** The table after inserting `ops` one after the other. */
  ghost function Run<V>(m: map<string, Entry<V>>, hash: string -> U32, ops: seq<(string, V)>): map<string, Entry<V>> {
    if ops == [] then m
    else
      var last := ops[|ops| - 1];
      Inserted(Run(m, hash, ops[..|ops| - 1]), hash, last.0, last.1)
  }

  /** Fewer than 65536 keys share the hash of a key about to be added. */
  ghost predicate Room<V>(m: map<string, Entry<V>>, hash: string -> U32, key: string) {
    key in m || |Holders(m, hash, hash(key))| < OVERLAPS
  }

  ghost predicate RoomAlong<V>(m: map<string, Entry<V>>, hash: string -> U32, ops: seq<(string, V)>) {
    forall i :: 0 <= i < |ops| ==> Room(Run(m, hash, ops[..i]), hash, ops[i].0)
  }

  /** The id of each key holds its hash and a rank below the number of keys of that hash. */
  ghost predicate RanksBounded<V>(m: map<string, Entry<V>>, hash: string -> U32) {
    forall k <- m ::
      m[k].id == MakeId(hash(k), IdOverlap(m[k].id)) && IdOverlap(m[k].id) < |Holders(m, hash, hash(k))| <= OVERLAPS
  }

  ghost predicate IdsInjective<V>(m: map<string, Entry<V>>) {
    forall k, l :: k in m && l in m && m[k].id == m[l].id ==> k == l
  }

  ghost predicate RankTaken<V>(m: map<string, Entry<V>>, hash: string -> U32, h: U32, r: nat) {
    exists k <- m :: hash(k) == h && IdOverlap(m[k].id) == r
  }

  /** The ranks of the keys of each hash are exactly 0, 1, ... up to their number. */
  ghost predicate RanksExact<V>(m: map<string, Entry<V>>, hash: string -> U32) {
    forall h: U32, r: nat :: r < |Holders(m, hash, h)| ==> RankTaken(m, hash, h, r)
  }

  ghost predicate WellRanked<V>(m: map<string, Entry<V>>, hash: string -> U32) {
    RanksBounded(m, hash) && IdsInjective(m) && RanksExact(m, hash)
  }

  lemma HoldersAfter<V>(m: map<string, Entry<V>>, hash: string -> U32, key: string, data: V, h: U32)
    ensures var after := Holders(Inserted(m, hash, key, data), hash, h);
      if key in m || hash(key) != h then after == Holders(m, hash, h)
      else after == Holders(m, hash, h) + {key} && |after| == |Holders(m, hash, h)| + 1
  {
    hide NextId;
    var after := Holders(Inserted(m, hash, key, data), hash, h);
    if key in m || hash(key) != h {
      assert after == Holders(m, hash, h);
    } else {
      assert after == Holders(m, hash, h) + {key};
    }
  }

  lemma BoundedAfter<V>(m: map<string, Entry<V>>, hash: string -> U32, key: string, data: V)
    requires RanksBounded(m, hash) && Room(m, hash, key)
    ensures RanksBounded(Inserted(m, hash, key, data), hash)
  {
    hide MakeId, Holders, IdHash, IdOverlap;
    var after := Inserted(m, hash, key, data);
    forall k | k in after
      ensures after[k].id == MakeId(hash(k), IdOverlap(after[k].id))
      ensures IdOverlap(after[k].id) < |Holders(after, hash, hash(k))| <= OVERLAPS
    {
      HoldersAfter(m, hash, key, data, hash(k));
    }
  }

  lemma InjectiveAfter<V>(m: map<string, Entry<V>>, hash: string -> U32, key: string, data: V)
    requires RanksBounded(m, hash) && IdsInjective(m) && Room(m, hash, key)
    ensures IdsInjective(Inserted(m, hash, key, data))
  {
    hide MakeId, Holders, IdHash, IdOverlap;
    if key !in m {
      forall k | k in m
        ensures m[k].id != NextId(m, hash, key)
      {
        assert IdHash(m[k].id) == hash(k);
      }
    }
  }

  lemma ExactAfter<V>(m: map<string, Entry<V>>, hash: string -> U32, key: string, data: V)
    requires RanksExact(m, hash) && Room(m, hash, key)
    ensures RanksExact(Inserted(m, hash, key, data), hash)
  {
    hide MakeId, Holders, IdHash, IdOverlap;
    var after := Inserted(m, hash, key, data);
    forall h: U32, r: nat | r < |Holders(after, hash, h)|
      ensures RankTaken(after, hash, h, r)
    {
      HoldersAfter(m, hash, key, data, h);
      if r < |Holders(m, hash, h)| {
        assert RankTaken(m, hash, h, r);
        var k :| k in m && hash(k) == h && IdOverlap(m[k].id) == r;
        assert after[k].id == m[k].id;
      } else {
        assert after[key].id == MakeId(h, r);
      }
    }
  }

  lemma InsertKeepsRanks<V>(m: map<string, Entry<V>>, hash: string -> U32, key: string, data: V)
    requires WellRanked(m, hash) && Room(m, hash, key)
    ensures WellRanked(Inserted(m, hash, key, data), hash)
  {
    hide RanksBounded, IdsInjective, RanksExact, Room, Inserted;
    BoundedAfter(m, hash, key, data);
    InjectiveAfter(m, hash, key, data);
    ExactAfter(m, hash, key, data);
  }

  lemma {:induction false} RunKeepsRanks<V>(m: map<string, Entry<V>>, hash: string -> U32, ops: seq<(string, V)>)
    requires WellRanked(m, hash) && RoomAlong(m, hash, ops)
    ensures WellRanked(Run(m, hash, ops), hash)
  {
    hide WellRanked, Room, Inserted;
    if ops != [] {
      var front, last := ops[..|ops| - 1], ops[|ops| - 1];
      forall i | 0 <= i < |front|
        ensures Room(Run(m, hash, front[..i]), hash, front[i].0)
      {
        assert front[..i] == ops[..i];
      }
      RunKeepsRanks(m, hash, front);
      InsertKeepsRanks(Run(m, hash, front), hash, last.0, last.1);
    }
  }

  lemma RunWellRanked<V>(hash: string -> U32, ops: seq<(string, V)>)
    requires RoomAlong(map[], hash, ops)
    ensures WellRanked(Run(map[], hash, ops), hash)
  {
    hide WellRanked, RoomAlong;
    EmptyWellRanked<V>(hash);
    RunKeepsRanks(map[], hash, ops);
  }

  lemma EmptyWellRanked<V>(hash: string -> U32)
    ensures WellRanked<V>(map[], hash)
  {
    forall h: U32
      ensures Holders<V>(map[], hash, h) == {}
    {
    }
  }

  /** Ids are permanent: once a key has one, no later insertion, of whatever key, changes it. */
  lemma {:induction false} IdsPermanent<V>(m: map<string, Entry<V>>, hash: string -> U32, ops: seq<(string, V)>, key: string)
    requires key in m
    ensures key in Run(m, hash, ops) && Run(m, hash, ops)[key].id == m[key].id
  {
    hide NextId;
    if ops != [] {
      IdsPermanent(m, hash, ops[..|ops| - 1], key);
    }
  }

  /** The data of a key is what was inserted for it last. */
  lemma {:induction false} LastDataWins<V>(m: map<string, Entry<V>>, hash: string -> U32, ops: seq<(string, V)>, i: nat)
    requires i < |ops| && forall j :: i < j < |ops| ==> ops[j].0 != ops[i].0
    ensures ops[i].0 in Run(m, hash, ops) && Run(m, hash, ops)[ops[i].0].data == ops[i].1
  {
    hide NextId;
    if i < |ops| - 1 {
      LastDataWins(m, hash, ops[..|ops| - 1], i);
    }
  }

  /** The id computed for a new key is unused exactly while fewer than 65536 keys share its hash:
      the overlap is counted in 16 bits. */
  lemma NextIdFresh<V>(m: map<string, Entry<V>>, hash: string -> U32, key: string)
    requires WellRanked(m, hash) && key !in m
    ensures (forall k <- m :: m[k].id != NextId(m, hash, key)) <==> |Holders(m, hash, hash(key))| < OVERLAPS
  {
    hide MakeId, IdHash, IdOverlap;
    var count := |Holders(m, hash, hash(key))|;
    if count < OVERLAPS {
      InjectiveAfterFresh(m, hash, key);
    } else {
      var some :| some in Holders(m, hash, hash(key));
      assert count == OVERLAPS;
      assert RankTaken(m, hash, hash(key), 0);
      var k :| k in m && hash(k) == hash(key) && IdOverlap(m[k].id) == 0;
      assert m[k].id == MakeId(hash(key), 0);
      WrapsAround(hash(key));
    }
  }

  lemma WrapsAround(h: U32)
    ensures MakeId(h, OVERLAPS) == MakeId(h, 0)
  {
  }

  lemma InjectiveAfterFresh<V>(m: map<string, Entry<V>>, hash: string -> U32, key: string)
    requires RanksBounded(m, hash) && key !in m && |Holders(m, hash, hash(key))| < OVERLAPS
    ensures forall k <- m :: m[k].id != NextId(m, hash, key)
  {
    hide MakeId, Holders, IdHash, IdOverlap;
    forall k | k in m
      ensures m[k].id != NextId(m, hash, key)
    {
      assert IdHash(m[k].id) == hash(k);
    }
  }

  // ---- an id computed before its key is inserted ----

  /** Operation `i` adds a key of hash `h` that the table does not have. */
  predicate AddsOfHash<V>(m: map<string, Entry<V>>, hash: string -> U32, ops: seq<(string, V)>, i: nat, h: U32)
    requires i < |ops|
  {
    hash(ops[i].0) == h && ops[i].0 !in m
  }

  /** `key` is the first new key of its hash, at operation `i`. */
  ghost predicate ComesFirst<V>(m: map<string, Entry<V>>, hash: string -> U32, ops: seq<(string, V)>, i: nat, key: string)
    requires i < |ops|
  {
    ops[i].0 == key && key !in m && forall j :: 0 <= j < i ==> !AddsOfHash(m, hash, ops, j, hash(key))
  }

  ghost predicate NoneOfHash<V>(m: map<string, Entry<V>>, hash: string -> U32, ops: seq<(string, V)>, h: U32) {
    forall j :: 0 <= j < |ops| ==> !AddsOfHash(m, hash, ops, j, h)
  }

  lemma {:induction false} NoneAdded<V>(m: map<string, Entry<V>>, hash: string -> U32, ops: seq<(string, V)>, h: U32)
    requires NoneOfHash(m, hash, ops, h)
    ensures Holders(Run(m, hash, ops), hash, h) == Holders(m, hash, h)
  {
    if ops != [] {
      var front, last := ops[..|ops| - 1], ops[|ops| - 1];
      assert NoneOfHash(m, hash, front, h) by {
        assert forall j :: 0 <= j < |front| ==>
          AddsOfHash(m, hash, front, j, h) == AddsOfHash(m, hash, ops, j, h);
      }
      NoneAdded(m, hash, front, h);
      assert !AddsOfHash(m, hash, ops, |front|, h);
      if hash(last.0) == h {
        assert last.0 in Holders(m, hash, h);
      }
      HoldersAfter(Run(m, hash, front), hash, last.0, last.1, h);
    }
  }

  lemma NotAdded<V>(m: map<string, Entry<V>>, hash: string -> U32, ops: seq<(string, V)>, key: string)
    requires NoneOfHash(m, hash, ops, hash(key)) && key !in m
    ensures key !in Run(m, hash, ops)
  {
    NoneAdded(m, hash, ops, hash(key));
    assert key !in Holders(m, hash, hash(key));
  }

  /** The first new key of a hash gets the id that was computed for any key of that hash before. */
  lemma {:induction false} FirstTakesId<V>(m: map<string, Entry<V>>, hash: string -> U32, ops: seq<(string, V)>, i: nat, key: string)
    requires i < |ops| && ComesFirst(m, hash, ops, i, key)
    ensures key in Run(m, hash, ops) && Run(m, hash, ops)[key].id == NextId(m, hash, key)
    decreases |ops|
  {
    hide MakeId;
    var front, last := ops[..|ops| - 1], ops[|ops| - 1];
    if i < |front| {
      assert ComesFirst(m, hash, front, i, key) by {
        assert forall j :: 0 <= j < i ==>
          AddsOfHash(m, hash, front, j, hash(key)) == AddsOfHash(m, hash, ops, j, hash(key));
      }
      FirstTakesId(m, hash, front, i, key);
    } else {
      assert NoneOfHash(m, hash, front, hash(key)) by {
        assert forall j :: 0 <= j < |front| ==>
          AddsOfHash(m, hash, front, j, hash(key)) == AddsOfHash(m, hash, ops, j, hash(key));
      }
      NoneAdded(m, hash, front, hash(key));
      assert key !in Holders(Run(m, hash, front), hash, hash(key));
    }
  }

  ghost predicate SomeFirst<V>(m: map<string, Entry<V>>, hash: string -> U32, ops: seq<(string, V)>, key: string) {
    exists i :: 0 <= i < |ops| && ComesFirst(m, hash, ops, i, key)
  }

  lemma {:induction false} FirstExists<V>(m: map<string, Entry<V>>, hash: string -> U32, ops: seq<(string, V)>, h: U32)
    requires !NoneOfHash(m, hash, ops, h)
    ensures exists i :: 0 <= i < |ops| && hash(ops[i].0) == h && ComesFirst(m, hash, ops, i, ops[i].0)
    decreases |ops|
  {
    var front := ops[..|ops| - 1];
    assert forall j :: 0 <= j < |front| ==> AddsOfHash(m, hash, front, j, h) == AddsOfHash(m, hash, ops, j, h);
    if NoneOfHash(m, hash, front, h) {
      assert AddsOfHash(m, hash, ops, |front|, h);
      assert ComesFirst(m, hash, ops, |front|, ops[|front|].0);
    } else {
      FirstExists(m, hash, front, h);
      var i :| 0 <= i < |front| && hash(front[i].0) == h && ComesFirst(m, hash, front, i, front[i].0);
      assert ComesFirst(m, hash, ops, i, ops[i].0);
    }
  }

  /** After any run an id computed for a key beforehand is that key's if and only if the key was the first
      new one of its hash to be inserted; if another one was, the id is that one's. */
  lemma EarlyIdExactly<V>(m: map<string, Entry<V>>, hash: string -> U32, ops: seq<(string, V)>, key: string)
    requires WellRanked(m, hash) && RoomAlong(m, hash, ops) && key !in m
    ensures var after := Run(m, hash, ops);
      key in after && after[key].id == NextId(m, hash, key) <==> SomeFirst(m, hash, ops, key)
    ensures var after := Run(m, hash, ops);
      forall other :: hash(other) == hash(key) && SomeFirst(m, hash, ops, other) ==>
        other in after && after[other].id == NextId(m, hash, key)
  {
    hide MakeId, Run, ComesFirst, RoomAlong, RanksBounded, RanksExact;
    var after := Run(m, hash, ops);
    RunKeepsRanks(m, hash, ops);
    forall other | hash(other) == hash(key) && SomeFirst(m, hash, ops, other)
      ensures other in after && after[other].id == NextId(m, hash, key)
    {
      var i :| 0 <= i < |ops| && ComesFirst(m, hash, ops, i, other);
      FirstTakesId(m, hash, ops, i, other);
    }
    if key in after && after[key].id == NextId(m, hash, key) {
      if NoneOfHash(m, hash, ops, hash(key)) {
        NotAdded(m, hash, ops, key);
      } else {
        FirstExists(m, hash, ops, hash(key));
        var i :| 0 <= i < |ops| && hash(ops[i].0) == hash(key) && ComesFirst(m, hash, ops, i, ops[i].0);
        assert SomeFirst(m, hash, ops, ops[i].0);
      }
    }
  }
}
