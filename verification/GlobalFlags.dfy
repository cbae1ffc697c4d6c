/** Interning of use-flag names in the global table. */
module GlobalFlags {
  import opened Wrappers
  import opened Luts
  import opened LutRuns

  class UseFlag {
    const name: string
    var state: bool

    constructor (name: string, state: bool)
      ensures this.name == name && this.state == state
    {
      this.name, this.state := name, state;
    }
  }

  /** The id of a flag name; a new name gets a new, disabled flag. No name gives 0. */
  method UseGetGlobal(globalFlags: Lut<UseFlag>, useflag: Option<string>) returns (id: LutId)
    requires globalFlags.Valid()
    requires useflag.Some? && useflag.value !in globalFlags.model ==>
      |Holders(globalFlags.model, globalFlags.hash, globalFlags.hash(useflag.value))| < OVERLAPS
    modifies globalFlags.Repr
    ensures globalFlags.Valid() && fresh(globalFlags.Repr - old(globalFlags.Repr))
    ensures useflag.None? ==> id == 0 && globalFlags.model == old(globalFlags.model)
    ensures useflag.Some? ==> useflag.value in globalFlags.model && globalFlags.model[useflag.value].id == id
    ensures useflag.Some? && useflag.value in old(globalFlags.model) ==> globalFlags.model == old(globalFlags.model)
    ensures useflag.Some? && useflag.value !in old(globalFlags.model) ==>
      exists f: UseFlag :: fresh(f) && f.name == useflag.value && !f.state
        && globalFlags.model == Interned(old(globalFlags.model), globalFlags.hash, useflag.value, f)
  {
    hide Lut.Valid, NextId, Holders;
    if useflag.None? {
      return 0;
    }
    var flag;
    id, flag := globalFlags.GetId(useflag.value);
    if flag == NotFound {
      var newFlag := new UseFlag(useflag.value, false);
      globalFlags.InsertId(useflag.value, newFlag, id, {flag, Python});
    }
  }

  /** The table after asking for `name`; `flag` is what a new name is given. */
  ghost function Interned<V>(m: map<string, Entry<V>>, hash: string -> U32, name: string, flag: V): map<string, Entry<V>> {
    if name in m then m else Inserted(m, hash, name, flag)
  }

  /** The table after asking for names one after the other, starting from an empty one. */
  ghost function AskedAll<V>(hash: string -> U32, asks: seq<(string, V)>): map<string, Entry<V>> {
    if asks == [] then map[]
    else Interned(AskedAll(hash, asks[..|asks| - 1]), hash, asks[|asks| - 1].0, asks[|asks| - 1].1)
  }

  ghost predicate RoomToAsk<V>(hash: string -> U32, asks: seq<(string, V)>) {
    forall i :: 0 <= i < |asks| ==> Room(AskedAll(hash, asks[..i]), hash, asks[i].0)
  }

  lemma {:induction false} AskedWellRanked<V>(hash: string -> U32, asks: seq<(string, V)>)
    requires RoomToAsk(hash, asks)
    ensures WellRanked(AskedAll(hash, asks), hash)
  {
    hide RanksBounded, IdsInjective, RanksExact, Room, Inserted;
    if asks == [] {
      EmptyWellRanked<V>(hash);
    } else {
      var front, last := asks[..|asks| - 1], asks[|asks| - 1];
      forall i | 0 <= i < |front|
        ensures Room(AskedAll(hash, front[..i]), hash, front[i].0)
      {
        assert front[..i] == asks[..i];
      }
      AskedWellRanked(hash, front);
      InsertKeepsRanks(AskedAll(hash, front), hash, last.0, last.1);
    }
  }

  /** The answer to ask `i` is the id that name has ever after. */
  lemma {:induction false} AnswerStays<V>(hash: string -> U32, asks: seq<(string, V)>, i: nat, n: nat)
    requires i < n <= |asks|
    ensures asks[i].0 in AskedAll(hash, asks[..i + 1]) && asks[i].0 in AskedAll(hash, asks[..n])
    ensures AskedAll(hash, asks[..n])[asks[i].0].id == AskedAll(hash, asks[..i + 1])[asks[i].0].id
  {
    hide NextId;
    assert asks[..n][..n - 1] == asks[..n - 1];
    if i + 1 < n {
      AnswerStays(hash, asks, i, n - 1);
    }
  }

  ghost function Answer<V>(hash: string -> U32, asks: seq<(string, V)>, i: nat): LutId
    requires i < |asks|
  {
    AnswerStays(hash, asks, i, i + 1);
    AskedAll(hash, asks[..i + 1])[asks[i].0].id
  }

  /** Interning: two asks, however far apart, are answered alike exactly if they are for one name. */
  lemma InterningIsInjective<V>(hash: string -> U32, asks: seq<(string, V)>, i: nat, j: nat)
    requires RoomToAsk(hash, asks) && i < |asks| && j < |asks|
    ensures Answer(hash, asks, i) == Answer(hash, asks, j) <==> asks[i].0 == asks[j].0
  {
    hide AskedAll, RoomToAsk, RanksBounded, RanksExact;
    AskedWellRanked(hash, asks);
    AnswerStays(hash, asks, i, |asks|);
    AnswerStays(hash, asks, j, |asks|);
    assert asks[..|asks|] == asks;
  }
}
