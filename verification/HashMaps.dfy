/** The hash map: chains with insertion at the head, removal, growth, and a stored count that drifts. */
module HashMaps {
  import opened Wrappers

  type U32 = x: nat | x < 0x1_0000_0000

  class MapItem<D> {
    const key: string
    var data: D
    var next: MapItem?<D>

    constructor (key: string, data: D)
      ensures this.key == key && this.data == data && next == null
    {
      this.key, this.data, this.next := key, data, null;
    }
  }

  function At<D>(s: seq<MapItem<D>>, j: nat): MapItem?<D> {
    if j < |s| then s[j] else null
  }

  ghost predicate Linked<D>(head: MapItem?<D>, s: seq<MapItem<D>>)
    reads s
  {
    head == At(s, 0) && forall j :: 0 <= j < |s| ==> s[j].next == At(s, j + 1)
  }

  ghost predicate KeysDistinct<D>(s: seq<MapItem<D>>) {
    forall i, j :: 0 <= i < j < |s| ==> s[i].key != s[j].key
  }

  /** A chain holds just the keys of its bucket that the map has, with their data. */
  ghost predicate ChainOk<D>(s: seq<MapItem<D>>, b: nat, size: nat, hash: string -> U32, model: map<string, D>)
    requires size > 0
    reads s
  {
    && KeysDistinct(s)
    && (forall x <- s :: hash(x.key) % size == b && x.key in model && model[x.key] == x.data)
    && (forall k <- model :: hash(k) % size == b ==> exists x <- s :: x.key == k)
  }

  class Map<D> {
    const hash: string -> U32
    const threshold: real
    var hashTable: array<MapItem?<D>>
    var n: nat
    var size: nat
    var reallocAt: nat

    ghost var items: set<MapItem<D>>
    ghost var chains: seq<seq<MapItem<D>>>
    ghost var model: map<string, D>

    /** The bucket leads to its chain, which is what the map has for it. */
    static ghost predicate BucketAt(head: MapItem?<D>, chain: seq<MapItem<D>>, b: nat, size: nat,
                                    hash: string -> U32, model: map<string, D>)
      requires size > 0
      reads chain
    {
      Linked(head, chain) && ChainOk(chain, b, size, hash, model)
    }

    ghost predicate BucketOk(b: nat)
      requires 0 < size == hashTable.Length == |chains| && b < size
      reads this, hashTable, items
    {
      (forall x <- chains[b] :: x in items) && BucketAt(hashTable[b], chains[b], b, size, hash, model)
    }

    /** Everything but the count. */
    ghost predicate TableOk()
      reads this, hashTable, items
    {
      && 0 < size == hashTable.Length == |chains|
      && threshold >= 0.0 && reallocAt == Trigger(size, threshold)
      && forall b :: 0 <= b < size ==> BucketOk(b)
    }

    /** The stored count is never too low. */
    ghost predicate Valid()
      reads this, hashTable, items
    {
      TableOk() && |model| <= n
    }

    constructor (newSize: nat, threshold: real, hash: string -> U32)
      requires newSize > 0 && threshold >= 0.0
      ensures Valid() && fresh(hashTable) && items == {} && model == map[] && n == 0
      ensures this.hash == hash && this.threshold == threshold && size == newSize
    {
      this.hash, this.threshold := hash, threshold;
      size, reallocAt, n := newSize, Trigger(newSize, threshold), 0;
      hashTable := new MapItem?<D>[newSize](_ => null);
      chains, model, items := seq(newSize, _ => []), map[], {};
    }

    /** The walk along a bucket. */
    static method Find(head: MapItem?<D>, key: string, ghost chain: seq<MapItem<D>>) returns (found: MapItem?<D>)
      requires Linked(head, chain)
      ensures found != null ==> found in chain && found.key == key
      ensures found == null ==> forall x <- chain :: x.key != key
    {
      found := head;
      ghost var j := 0;
      while found != null
        invariant j <= |chain| && found == At(chain, j)
        invariant forall x <- chain[..j] :: x.key != key
        decreases |chain| - j
      {
        if found.key == key {
          return;
        }
        found, j := found.next, j + 1;
      }
    }

    method Get(key: string) returns (r: Option<D>)
      requires TableOk()
      ensures r == if key in model then Some(model[key]) else None
    {
      var index := hash(key) % size;
      assert BucketOk(index);
      var current := Find(hashTable[index], key, chains[index]);
      return if current == null then None else Some(current.data);
    }

    /** A key the table has keeps its item and gets the new data; a new item goes to the head of its bucket. */
    method InsertItem(item: MapItem<D>)
      requires TableOk() && item !in items
      modifies this, hashTable, items, item`next
      ensures TableOk() && items == old(items) + (if item.key in old(model) then {} else {item})
      ensures model == old(model)[item.key := item.data] && n == old(n) + if item.key in old(model) then 0 else 1
      ensures size == old(size) && hashTable == old(hashTable) && n - |model| == old(n) - |old(model)|
    {
      hide KeysDistinct;
      var offset := hash(item.key) % size;
      assert BucketOk(offset);
      var iter := Find(hashTable[offset], item.key, chains[offset]);
      if iter != null {
        Replace(iter, item.data, offset);
      } else {
        LinkFirst(item, offset);
      }
    }

    method Replace(iter: MapItem<D>, data: D, ghost b: nat)
      requires TableOk() && b < size && iter in chains[b]
      modifies `model, iter`data
      ensures TableOk() && model == old(model)[iter.key := data]
    {
      assert BucketOk(b);
      forall i | 0 <= i < size && i != b
        ensures iter !in chains[i]
      {
        assert BucketOk(i);
      }
      iter.data := data;
      model := model[iter.key := data];
      assert old(BucketOk(b));
      forall i | 0 <= i < size
        ensures BucketOk(i)
      {
        assert old(BucketOk(i));
      }
    }

    method LinkFirst(item: MapItem<D>, b: nat)
      requires TableOk() && item !in items && item.key !in model && b == hash(item.key) % size
      modifies `model, `chains, `items, `n, hashTable, item`next
      ensures TableOk() && model == old(model)[item.key := item.data] && items == old(items) + {item}
      ensures n == old(n) + 1
    {
      hide ChainOk, Linked;
      forall i | 0 <= i < size
        ensures item !in chains[i] && ChainOk(chains[i], i, size, hash, model)
      {
        assert BucketOk(i);
      }
      SetHead(item, b);
      n := n + 1;
      forall i | 0 <= i < size
        ensures BucketOk(i)
      {
        if i != b {
          ChainUntouched(chains[i], i, size, hash, old(model), item);
        }
      }
    }

    /** The new head of a bucket. */
    method SetHead(item: MapItem<D>, b: nat)
      requires TableOk() && item !in items && item.key !in model && b == hash(item.key) % size
      modifies `model, `chains, `items, hashTable, item`next
      ensures model == old(model)[item.key := item.data] && items == old(items) + {item}
      ensures chains == old(chains)[b := [item] + old(chains[b])]
      ensures Linked(hashTable[b], chains[b]) && ChainOk(chains[b], b, size, hash, model)
      ensures forall i :: 0 <= i < size && i != b ==>
        hashTable[i] == old(hashTable[i]) && Linked(hashTable[i], chains[i]) && ChainOk(chains[i], i, size, hash, old(model))
      ensures forall i :: 0 <= i < size ==> forall x <- chains[i] :: x in items
    {
      hide ChainOk;
      forall i | 0 <= i < size
        ensures item !in chains[i] && ChainOk(chains[i], i, size, hash, model) && Linked(hashTable[i], chains[i])
        ensures forall x <- chains[i] :: x in items
      {
        assert BucketOk(i);
      }
      item.next := hashTable[b];
      hashTable[b] := item;
      assert ChainOk(chains[b], b, size, hash, model);
      ChainExtended(chains[b], b, size, hash, model, item);
      chains := chains[b := [item] + chains[b]];
      model := model[item.key := item.data];
      items := items + {item};
    }

    /** The items of a chain of the old table: none of them, and none of their keys, is in the new one. */
    ghost predicate Movable(chain: seq<MapItem<D>>)
      reads this
    {
      KeysDistinct(chain) && forall x <- chain :: x !in items && x.key !in model
    }

    lemma MovableTail(chain: seq<MapItem<D>>)
      requires Movable(chain) && chain != []
      ensures Movable(chain[1..])
      ensures chain[0] !in items + Nodes(chain[1..]) && chain[0].key !in model + Contents(chain[1..])
      ensures chain[0] in Nodes(chain) && Nodes(chain[1..]) <= Nodes(chain)
      ensures forall a: set<MapItem<D>> :: a + Nodes(chain[1..]) + {chain[0]} == a + Nodes(chain)
      ensures forall m: map<string, D> :: (m + Contents(chain[1..]))[chain[0].key := chain[0].data] == m + Contents(chain)
    {
      hide KeysDistinct;
      DistinctTail(chain);
      forall m: map<string, D>
        ensures (m + Contents(chain[1..]))[chain[0].key := chain[0].data] == m + Contents(chain)
      {
        ExtendBoth(m, Contents(chain[1..]), chain[0].key, chain[0].data);
      }
    }

    /** Reinserts a chain of the old table, its last item first. */
    method ReallocItem(list: MapItem<D>, ghost chain: seq<MapItem<D>>)
      requires TableOk() && Linked(list, chain) && Movable(chain)
      modifies this, hashTable, items, Nodes(chain)
      ensures TableOk() && items == old(items) + Nodes(chain) && size == old(size) && hashTable == old(hashTable)
      ensures model == old(model) + old(Contents(chain))
      ensures n - |model| == old(n) - |old(model)|
      decreases |chain|, 1
    {
      hide *;
      LinkedTail(list, chain);
      MovableTail(chain);
      ReallocRest(list.next, chain[1..]);
      InsertItem(list);
    }

    method ReallocRest(list: MapItem?<D>, ghost chain: seq<MapItem<D>>)
      requires TableOk() && Linked(list, chain) && Movable(chain)
      modifies this, hashTable, items, Nodes(chain)
      ensures TableOk() && items == old(items) + Nodes(chain) && size == old(size) && hashTable == old(hashTable)
      ensures model == old(model) + old(Contents(chain))
      ensures n - |model| == old(n) - |old(model)|
      decreases |chain|, 2
    {
      hide Map.TableOk, Linked, Map.Movable;
      LinkedEmpty(list, chain);
      if list != null {
        ReallocItem(list, chain);
      }
    }

    /** The items of the old table from bucket `i` on are still to be moved. */
    ghost predicate Remaining(oldTable: array<MapItem?<D>>, oldChains: seq<seq<MapItem<D>>>, i: nat,
                              oldModel: map<string, D>, nodes: set<MapItem<D>>)
      requires i <= oldTable.Length == |oldChains| && 0 < oldTable.Length
      reads this, oldTable, nodes
    {
      && (forall b :: i <= b < oldTable.Length ==> forall x <- oldChains[b] :: x in nodes && x !in items)
      && (forall b :: i <= b < oldTable.Length ==>
            BucketAt(oldTable[b], oldChains[b], b, oldTable.Length, hash, oldModel))
      && (forall k :: k in model <==> k in oldModel && hash(k) % oldTable.Length < i)
      && (forall k <- model :: model[k] == oldModel[k])
    }

    method MoveAll(oldTable: array<MapItem?<D>>, ghost oldChains: seq<seq<MapItem<D>>>, ghost oldModel: map<string, D>,
                   ghost nodes: set<MapItem<D>>)
      requires TableOk() && 0 < oldTable.Length == |oldChains| && oldTable != hashTable && model == map[]
      requires Remaining(oldTable, oldChains, 0, oldModel, nodes)
      modifies this, hashTable, items, nodes
      ensures TableOk() && size == old(size) && hashTable == old(hashTable) && model == oldModel
      ensures n == old(n) + |model| && items <= old(items) + nodes
    {
      var i := 0;
      while i < oldTable.Length
        invariant i <= oldTable.Length && TableOk() && size == old(size) && hashTable == old(hashTable)
        invariant Remaining(oldTable, oldChains, i, oldModel, nodes) && n == old(n) + |model|
        invariant items <= old(items) + nodes
      {
        MoveBucket(oldTable, oldChains, i, oldModel, nodes);
        i := i + 1;
      }
      assert model == oldModel;
    }

    method MoveBucket(oldTable: array<MapItem?<D>>, ghost oldChains: seq<seq<MapItem<D>>>, i: nat,
                      ghost oldModel: map<string, D>, ghost nodes: set<MapItem<D>>)
      requires TableOk() && i < oldTable.Length == |oldChains| && oldTable != hashTable
      requires Remaining(oldTable, oldChains, i, oldModel, nodes)
      modifies this, hashTable, items, nodes
      ensures TableOk() && size == old(size) && hashTable == old(hashTable)
      ensures items <= old(items) + nodes
      ensures n - |model| == old(n) - |old(model)| && Remaining(oldTable, oldChains, i + 1, oldModel, nodes)
    {
      hide Map.TableOk, Linked, ChainOk, Contents, KeysDistinct;
      ChainHolds(oldChains[i], i, oldTable.Length, hash, oldModel);
      LinkedEmpty(oldTable[i], oldChains[i]);
      forall b | i < b < oldTable.Length
        ensures Nodes(oldChains[b]) !! Nodes(oldChains[i])
      {
        ChainHolds(oldChains[b], b, oldTable.Length, hash, oldModel);
      }
      if oldTable[i] != null {
        ReallocItem(oldTable[i], oldChains[i]);
      }
    }

    /** Moves all items to a table of another size. The count is not reset, so it grows by the number
        of keys moved. */
    method Realloc(newSize: nat)
      requires Valid() && newSize > 0
      modifies this, items
      ensures Valid() && fresh(hashTable) && items <= old(items) && size == newSize
      ensures model == old(model) && n == old(n) + |model|
    {
      hide Map.BucketAt;
      var oldTable := hashTable;
      ghost var oldChains, oldModel, nodes := chains, model, items;
      forall b | 0 <= b < |oldChains|
        ensures BucketAt(oldTable[b], oldChains[b], b, oldTable.Length, hash, oldModel)
        ensures forall x <- oldChains[b] :: x in nodes
      {
        assert BucketOk(b);
      }
      Renew(newSize);
      MoveAll(oldTable, oldChains, oldModel, nodes);
    }

    /** An empty table in place of the old one. */
    method Renew(newSize: nat)
      requires threshold >= 0.0 && newSize > 0
      modifies `hashTable, `size, `reallocAt, `chains, `model, `items
      ensures TableOk() && size == newSize && n == old(n) && model == map[] && fresh(hashTable) && items == {}
    {
      hashTable := new MapItem?<D>[newSize](_ => null);
      size, reallocAt := newSize, Trigger(newSize, threshold);
      chains, model := seq(newSize, _ => []), map[];
      items := {};
    }

    /** Grows first if needed. The count goes up by one for a new key, and by all keys when the table grows. */
    method Insert(key: string, data: D)
      requires Valid()
      modifies this, hashTable, items
      ensures Valid() && fresh(items - old(items)) && (hashTable == old(hashTable) || fresh(hashTable))
      ensures model == old(model)[key := data]
      ensures n == old(n) + (if old(n + 1 >= reallocAt) then |old(model)| else 0) + (if key in old(model) then 0 else 1)
      ensures size == if old(n + 1 >= reallocAt) then 2 * old(size) else old(size)
    {
      hide Map.BucketOk;
      if n + 1 >= reallocAt {
        Realloc(size * 2);
      }
      var toCopy := new MapItem(key, data);
      InsertItem(toCopy);
    }

    /** Unlinks the item of a key; the count stays. */
    method Remove(key: string) returns (r: Option<D>)
      requires Valid()
      modifies this, hashTable, items
      ensures Valid() && items <= old(items) && hashTable == old(hashTable)
      ensures r == if key in old(model) then Some(old(model)[key]) else None
      ensures model == old(model) - {key} && n == old(n)
    {
      hide ChainOk, KeysDistinct, Linked;
      var index := hash(key) % size;
      assert BucketOk(index);
      ghost var chain := chains[index];
      ChainHolds(chain, index, size, hash, model);
      var current, before, j := FindWithBefore(hashTable[index], key, chain);
      if current == null {
        KeyAbsent(chain, index, size, hash, model, key);
        return None;
      }
      assert current in chain;
      r := Some(current.data);
      Unlink(index, before, current, j);
    }

    /** The walk along a bucket, with the item before the one that is looked at. */
    static method FindWithBefore(head: MapItem?<D>, key: string, ghost chain: seq<MapItem<D>>)
      returns (current: MapItem?<D>, before: MapItem?<D>, ghost j: nat)
      requires Linked(head, chain)
      ensures j <= |chain| && current == At(chain, j) && before == if j == 0 then null else chain[j - 1]
      ensures if current == null then forall x <- chain :: x.key != key else current.key == key
    {
      current, before, j := head, null, 0;
      while current != null
        invariant j <= |chain| && current == At(chain, j) && before == if j == 0 then null else chain[j - 1]
        invariant forall x <- chain[..j] :: x.key != key
        decreases |chain| - j
      {
        if current.key == key {
          return;
        }
        current := current.next;
        before := if before == null then head else before.next;
        j := j + 1;
      }
      assert chain[..j] == chain;
    }

    method Unlink(index: nat, before: MapItem?<D>, current: MapItem<D>, ghost j: nat)
      requires Valid() && index < size && j < |chains[index]|
      requires current == chains[index][j] && before == if j == 0 then null else chains[index][j - 1]
      modifies `chains, `model, `items, hashTable, items
      ensures Valid() && items <= old(items) && model == old(model) - {current.key}
    {
      hide ChainOk, Linked;
      ghost var oldChains, chain := chains, chains[index];
      ghost var newChains, newModel := chains[index := chain[..j] + chain[j + 1..]], model - {current.key};
      assert BucketOk(index);
      ChainHolds(chain, index, size, hash, model);
      forall i | 0 <= i < size && i != index
        ensures before !in oldChains[i] && current !in oldChains[i] && (forall x <- oldChains[i] :: x in items)
        ensures Linked(hashTable[i], oldChains[i]) && ChainOk(oldChains[i], i, size, hash, newModel)
      {
        assert BucketOk(i);
        ChainHolds(oldChains[i], i, size, hash, model);
        ChainWithout(oldChains[i], i, size, hash, model, current.key);
      }
      SkipItem(hashTable, index, before, current, chain, j, size, hash, model);
      ChainRemoved(chain, j, index, size, hash, model);
      RemovedAt(chain, j);
      chains, items, model := newChains, items - {current}, newModel;
      assert forall i :: 0 <= i < size ==> BucketOk(i);
    }

    /** Skipping leaves keys and data alone. */
    static method SkipItem(table: array<MapItem?<D>>, index: nat, before: MapItem?<D>, current: MapItem<D>,
                           ghost chain: seq<MapItem<D>>, ghost j: nat, ghost size: nat, ghost hash: string -> U32,
                           ghost model: map<string, D>)
      requires index < table.Length && j < |chain| && Linked(table[index], chain)
      requires current == chain[j] && before == if j == 0 then null else chain[j - 1]
      requires size > 0 && ChainOk(chain, index, size, hash, model)
      modifies table, if before != null then {before} else {}
      ensures Linked(table[index], chain[..j] + chain[j + 1..]) && ChainOk(chain, index, size, hash, model)
      ensures forall i :: 0 <= i < table.Length && i != index ==> table[i] == old(table[i])
    {
      hide Linked;
      LinkPast(table, index, before, current, chain, j);
    }

    /** Leads the link before an item past it. */
    static method LinkPast(table: array<MapItem?<D>>, index: nat, before: MapItem?<D>, current: MapItem<D>,
                           ghost chain: seq<MapItem<D>>, ghost j: nat)
      requires index < table.Length && j < |chain| && Linked(table[index], chain) && KeysDistinct(chain)
      requires current == chain[j] && before == if j == 0 then null else chain[j - 1]
      modifies table, (if before != null then {before} else {})`next
      ensures Linked(table[index], chain[..j] + chain[j + 1..])
      ensures forall i :: 0 <= i < table.Length && i != index ==> table[i] == old(table[i])
    {
      RemovedAt(chain, j);
      if before == null {
        table[index] := current.next;
      } else {
        before.next := current.next;
      }
    }

    /** The keys, bucket by bucket, until as many as the count says have been collected. */
    method AllKeys() returns (out: seq<string>)
      requires Valid()
      ensures |out| == |model| && (set k | k in out) == model.Keys
      ensures forall i, j :: 0 <= i < j < |out| ==> out[i] != out[j]
    {
      hide ChainOk, KeysDistinct, Linked;
      out := [];
      var i := 0;
      while i < size && |out| < n
        invariant i <= size && Collected(out, model, hash, size, i)
      {
        assert BucketOk(i);
        var more := ChainKeys(hashTable[i], chains[i]);
        CollectedNext(out, model, hash, size, i, chains[i], more);
        out := out + more;
        i := i + 1;
      }
      CollectedEnough(out, model, hash, size, i, n);
    }

    static method ChainKeys(head: MapItem?<D>, ghost chain: seq<MapItem<D>>) returns (out: seq<string>)
      requires Linked(head, chain)
      ensures |out| == |chain| && forall j :: 0 <= j < |out| ==> out[j] == chain[j].key
    {
      out := [];
      var current := head;
      while current != null
        invariant |out| <= |chain| && current == At(chain, |out|)
        invariant forall j :: 0 <= j < |out| ==> out[j] == chain[j].key
        decreases |chain| - |out|
      {
        out := out + [current.key];
        current := current.next;
      }
    }
  }

  lemma RemovedAt<D>(s: seq<MapItem<D>>, j: nat)
    requires j < |s|
    ensures var r := s[..j] + s[j + 1..];
      && |r| == |s| - 1
      && (forall i :: 0 <= i < j ==> r[i] == s[i])
      && (forall i :: j <= i < |r| ==> r[i] == s[i + 1])
  {
  }

  lemma ChainRemoved<D>(s: seq<MapItem<D>>, j: nat, b: nat, size: nat, hash: string -> U32, model: map<string, D>)
    requires size > 0 && j < |s| && ChainOk(s, b, size, hash, model)
    ensures ChainOk(s[..j] + s[j + 1..], b, size, hash, model - {s[j].key})
  {
    var r, m := s[..j] + s[j + 1..], model - {s[j].key};
    assert forall x <- r :: x in s && x.key != s[j].key;
    forall k | k in m && hash(k) % size == b
      ensures exists x <- r :: x.key == k
    {
      var x :| x in s && x.key == k;
      assert s == s[..j] + [s[j]] + s[j + 1..];
      assert x in r;
    }
  }

  lemma ChainWithout<D>(s: seq<MapItem<D>>, i: nat, size: nat, hash: string -> U32, model: map<string, D>, key: string)
    requires size > 0 && ChainOk(s, i, size, hash, model) && hash(key) % size != i
    ensures ChainOk(s, i, size, hash, model - {key})
  {
  }

  /** `out` lists the keys of the first `i` buckets, each once. */
  ghost predicate Collected<D>(out: seq<string>, model: map<string, D>, hash: string -> U32, size: nat, i: nat)
    requires size > 0
  {
    StringsDistinct(out) && forall k :: k in out <==> k in model && hash(k) % size < i
  }

  lemma CollectedNext<D>(out: seq<string>, model: map<string, D>, hash: string -> U32, size: nat, i: nat,
                         chain: seq<MapItem<D>>, more: seq<string>)
    requires size > 0 && Collected(out, model, hash, size, i) && ChainOk(chain, i, size, hash, model)
    requires |more| == |chain| && forall j :: 0 <= j < |more| ==> more[j] == chain[j].key
    ensures Collected(out + more, model, hash, size, i + 1)
  {
    assert forall k <- more :: k in model && hash(k) % size == i by {
      assert forall j :: 0 <= j < |more| ==> chain[j] in chain;
    }
    forall k | k in model && hash(k) % size == i
      ensures k in more
    {
      var x :| x in chain && x.key == k;
      var j :| 0 <= j < |chain| && chain[j] == x;
      assert more[j] == k;
    }
  }

  /** The count is never below the number of keys, so stopping at the count stops with all of them. */
  lemma CollectedEnough<D>(out: seq<string>, model: map<string, D>, hash: string -> U32, size: nat, i: nat, n: nat)
    requires size > 0 && Collected(out, model, hash, size, i) && |model| <= n && (i >= size || |out| >= n)
    ensures |out| == |model| && (set k | k in out) == model.Keys
  {
    CountDistinct(out, model.Keys);
    if i >= size {
      assert (set k | k in out) == model.Keys;
    }
  }

  ghost predicate StringsDistinct(s: seq<string>) {
    forall i, j :: 0 <= i < j < |s| ==> s[i] != s[j]
  }

  /** Distinct strings of a set, at least as many as it has, are all of it. */
  lemma CountDistinct(s: seq<string>, keys: set<string>)
    requires StringsDistinct(s) && forall k <- s :: k in keys
    ensures |s| <= |keys|
    ensures |s| == |keys| <==> (set k | k in s) == keys
  {
    var members := set k | k in s;
    SizeOfMembers(s);
    assert keys == members + (keys - members);
  }

  lemma {:induction false} SizeOfMembers(s: seq<string>)
    requires StringsDistinct(s)
    ensures |set k | k in s| == |s|
  {
    if s != [] {
      var front, last := s[..|s| - 1], s[|s| - 1];
      SizeOfMembers(front);
      assert (set k | k in s) == (set k | k in front) + {last};
    }
  }


  ghost function Nodes<D>(s: seq<MapItem<D>>): set<MapItem<D>> {
    set x | x in s
  }

  /** The chain as a map. */
  ghost function Contents<D>(s: seq<MapItem<D>>): map<string, D>
    reads s
  {
    if s == [] then map[] else Contents(s[1..])[s[0].key := s[0].data]
  }

  lemma {:induction false} ContentsHold<D>(s: seq<MapItem<D>>)
    requires KeysDistinct(s)
    ensures forall x <- s :: x.key in Contents(s) && Contents(s)[x.key] == x.data
    ensures forall k <- Contents(s) :: exists x <- s :: x.key == k
  {
    if s != [] {
      var tail := s[1..];
      assert s == [s[0]] + tail && s[0] in s;
      ContentsHold(tail);
      assert forall x <- tail :: x in s && x.key != s[0].key;
    }
  }

  lemma ExtendBoth<D>(a: map<string, D>, b: map<string, D>, k: string, d: D)
    ensures (a + b)[k := d] == a + b[k := d]
  {
  }

  lemma LinkedEmpty<D>(head: MapItem?<D>, s: seq<MapItem<D>>)
    requires Linked(head, s)
    ensures head == null <==> s == []
    ensures s == [] ==> Contents(s) == map[]
  {
  }

  lemma ChainHolds<D>(s: seq<MapItem<D>>, b: nat, size: nat, hash: string -> U32, model: map<string, D>)
    requires size > 0 && ChainOk(s, b, size, hash, model)
    ensures KeysDistinct(s) && forall x <- s :: hash(x.key) % size == b && x.key in model && model[x.key] == x.data
    ensures forall k :: k in Contents(s) <==> k in model && hash(k) % size == b
    ensures forall k <- Contents(s) :: Contents(s)[k] == model[k]
  {
    ContentsHold(s);
  }

  lemma KeyAbsent<D>(s: seq<MapItem<D>>, b: nat, size: nat, hash: string -> U32, model: map<string, D>, key: string)
    requires size > 0 && ChainOk(s, b, size, hash, model) && hash(key) % size == b
    requires forall x <- s :: x.key != key
    ensures key !in model
  {
  }

  lemma LinkedTail<D>(head: MapItem<D>, s: seq<MapItem<D>>)
    requires Linked(head, s)
    ensures s != [] && head == s[0] && Linked(head.next, s[1..]) && (head.next == null <==> s[1..] == [])
  {
  }

  lemma DistinctTail<D>(s: seq<MapItem<D>>)
    requires KeysDistinct(s) && s != []
    ensures KeysDistinct(s[1..]) && forall x <- s[1..] :: x.key != s[0].key && x in s
    ensures Nodes(s) == {s[0]} + Nodes(s[1..]) && s[0] !in Nodes(s[1..])
    ensures s[0].key !in Contents(s[1..]) && Contents(s) == Contents(s[1..])[s[0].key := s[0].data]
    ensures |s| == 1 ==> Contents(s[1..]) == map[] && Nodes(s[1..]) == {}
  {
    hide Contents;
    NodesTail(s);
    ContentsHold(s[1..]);
    ContentsTail(s);
  }

  lemma NodesTail<D>(s: seq<MapItem<D>>)
    requires KeysDistinct(s) && s != []
    ensures KeysDistinct(s[1..]) && forall x <- s[1..] :: x.key != s[0].key && x in s
    ensures Nodes(s) == {s[0]} + Nodes(s[1..]) && s[0] !in Nodes(s[1..])
    ensures |s| == 1 ==> Nodes(s[1..]) == {}
  {
    assert s == [s[0]] + s[1..];
  }

  lemma ContentsTail<D>(s: seq<MapItem<D>>)
    requires s != []
    ensures Contents(s) == Contents(s[1..])[s[0].key := s[0].data]
    ensures |s| == 1 ==> Contents(s[1..]) == map[]
  {
  }

  lemma ChainExtended<D>(s: seq<MapItem<D>>, b: nat, size: nat, hash: string -> U32, model: map<string, D>, item: MapItem<D>)
    requires size > 0 && ChainOk(s, b, size, hash, model)
    requires item.key !in model && hash(item.key) % size == b
    ensures ChainOk([item] + s, b, size, hash, model[item.key := item.data])
  {
    var longer, larger := [item] + s, model[item.key := item.data];
    assert longer[0] == item;
    forall k | k in larger && hash(k) % size == b
      ensures exists x <- longer :: x.key == k
    {
      if k != item.key {
        var x :| x in s && x.key == k;
        assert x in longer;
      }
    }
  }

  lemma ChainUntouched<D>(s: seq<MapItem<D>>, i: nat, size: nat, hash: string -> U32, model: map<string, D>, item: MapItem<D>)
    requires size > 0 && ChainOk(s, i, size, hash, model) && hash(item.key) % size != i
    ensures ChainOk(s, i, size, hash, model[item.key := item.data])
  {
  }

  /** The count at which an insertion makes the table grow. */
  function Trigger(size: nat, threshold: real): nat
    requires threshold >= 0.0
  {
    (threshold * size as real).Floor
  }

  /** The largest count that is not above that share of the size. */
  lemma TriggerExactly(size: nat, threshold: real, count: nat)
    requires threshold >= 0.0
    ensures count <= Trigger(size, threshold) <==> count as real <= threshold * size as real
  {
  }
}
