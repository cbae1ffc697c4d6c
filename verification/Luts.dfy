/** The lookup table: a chained hash table whose 64-bit ids survive rehashing. */
module Luts {
  import opened Wrappers

  type U32 = x: nat | x < 0x1_0000_0000

  /** The hash in the low 32 bits, the overlap in the 16 bits above; the two fields do not
      overlap, so the disjunction of the shifted fields is their sum. */
  type LutId = nat

  const HASHES := 0x1_0000_0000
  const OVERLAPS := 0x1_0000

  function MakeId(hash: U32, overlap: nat): (id: LutId)
    ensures IdHash(id) == hash && IdOverlap(id) == overlap % OVERLAPS
  {
    (overlap % OVERLAPS) * HASHES + hash
  }

  function IdHash(id: LutId): U32 {
    id % HASHES
  }

  function IdOverlap(id: LutId): nat {
    id / HASHES % OVERLAPS
  }

  datatype Flag = NotFound | Exists | Reference | Python | Arbitrary

  class LutNode<V> {
    const id: LutId
    const key: string
    var data: V
    var flags: set<Flag>
    var next: LutNode?<V>

    constructor (id: LutId, key: string, data: V, flags: set<Flag>)
      ensures this.id == id && this.key == key && this.data == data && this.flags == flags && next == null
    {
      this.id, this.key, this.data, this.flags, this.next := id, key, data, flags, null;
    }
  }

  // ---- chains as sequences ----

  function At<V>(s: seq<LutNode<V>>, j: nat): LutNode?<V> {
    if j < |s| then s[j] else null
  }

  /** Following `next` from `head` visits exactly `s`. */
  ghost predicate Linked<V>(head: LutNode?<V>, s: seq<LutNode<V>>)
    reads s
  {
    head == At(s, 0) && forall j :: 0 <= j < |s| ==> s[j].next == At(s, j + 1)
  }

  lemma NoDupConcat<V>(s: seq<LutNode<V>>, t: seq<LutNode<V>>)
    requires NoDup(s) && NoDup(t) && forall x <- s :: x !in t
    ensures NoDup(s + t)
  {
    forall i, j | 0 <= i < j < |s + t|
      ensures (s + t)[i] != (s + t)[j]
    {
      if i < |s| <= j {
        assert s[i] in s && t[j - |s|] in t;
      }
    }
  }

  /** A list without repetition, cut before its `p`-th node. */
  lemma NoDupCut<V>(s: seq<LutNode<V>>, p: nat)
    requires NoDup(s) && p < |s|
    ensures s[p] !in s[..p] && NoDup(s[..p])
    ensures Nodes(s[p + 1..]) !! Nodes(s[..p]) + {s[p]}
    ensures s[p..][1..] == s[p + 1..] && s[..p] + [s[p]] == s[..p + 1]
    ensures Nodes(s[..p]) <= Nodes(s) && s[p] in Nodes(s)
  {
  }

  lemma LinkedTail<V>(head: LutNode?<V>, s: seq<LutNode<V>>)
    requires Linked(head, s)
    ensures head == null <==> s == []
    ensures s != [] ==> head == s[0] && Linked(s[0].next, s[1..])
  {
  }

  ghost function Nodes<V>(s: seq<LutNode<V>>): set<LutNode<V>> {
    set x | x in s
  }

  /** Which nodes to keep: those of one bucket of a table, or those of one hash. */
  datatype Want = Bucket(size: nat, index: nat) | Hash(hash: U32)

  ghost predicate Wanted(w: Want, id: LutId) {
    match w
    case Bucket(size, index) => size > 0 && IdHash(id) % size == index
    case Hash(h) => IdHash(id) == h
  }

  ghost function Filter<V>(s: seq<LutNode<V>>, w: Want): (r: seq<LutNode<V>>)
    ensures |r| <= |s|
  {
    if s == [] then []
    else
      var r := Filter(s[..|s| - 1], w);
      if Wanted(w, s[|s| - 1].id) then r + [s[|s| - 1]] else r
  }

  lemma {:induction false} FilterMembers<V>(s: seq<LutNode<V>>, w: Want)
    ensures forall x <- Filter(s, w) :: x in s && Wanted(w, x.id)
    ensures forall x <- s :: Wanted(w, x.id) ==> x in Filter(s, w)
    ensures NoDup(s) ==> NoDup(Filter(s, w))
  {
    hide Wanted;
    if s != [] {
      var front, last := s[..|s| - 1], s[|s| - 1];
      assert s == front + [last];
      FilterMembers(front, w);
    }
  }

  lemma EmptyFilter<V>(w: Want)
    ensures Filter<V>([], w) == []
  {
  }

  lemma FilterSnoc<V>(s: seq<LutNode<V>>, x: LutNode<V>, w: Want)
    ensures Filter(s + [x], w) == if Wanted(w, x.id) then Filter(s, w) + [x] else Filter(s, w)
  {
    assert (s + [x])[..|s|] == s;
  }

  lemma Assoc<T>(a: seq<T>, b: seq<T>, c: seq<T>)
    ensures a + b + c == a + (b + c)
  {
  }

  lemma {:induction false} FilterConcat<V>(s: seq<LutNode<V>>, t: seq<LutNode<V>>, w: Want)
    ensures Filter(s + t, w) == Filter(s, w) + Filter(t, w)
  {
    hide Wanted;
    if t == [] {
      assert s + t == s && Filter(s, w) + [] == Filter(s, w);
    } else {
      var front, last := t[..|t| - 1], t[|t| - 1];
      hide Filter;
      FilterConcat(s, front, w);
      assert t == front + [last];
      Assoc(s, front, [last]);
      Assoc(Filter(s, w), Filter(front, w), [last]);
      FilterSnoc(s + front, last, w);
      FilterSnoc(front, last, w);
    }
  }

  /** A bucket holds all nodes of the hashes that fall into it and none of the others. */
  lemma {:induction false} FilterOfBucket<V>(s: seq<LutNode<V>>, size: nat, index: nat, h: U32)
    requires size > 0
    ensures Filter(Filter(s, Bucket(size, index)), Hash(h))
         == if h % size == index then Filter(s, Hash(h)) else []
  {
    if s != [] {
      var front, last := s[..|s| - 1], s[|s| - 1];
      FilterOfBucket(front, size, index, h);
      FilterSnoc(Filter(front, Bucket(size, index)), last, Hash(h));
    }
  }

  /** The chains one after the other. */
  ghost function Flatten<V>(chains: seq<seq<LutNode<V>>>): seq<LutNode<V>> {
    if chains == [] then [] else Flatten(chains[..|chains| - 1]) + chains[|chains| - 1]
  }

  lemma FlattenSnoc<V>(chains: seq<seq<LutNode<V>>>, chain: seq<LutNode<V>>)
    ensures Flatten(chains + [chain]) == Flatten(chains) + chain
  {
    assert (chains + [chain])[..|chains|] == chains;
  }

  /** Every chain of the table is the bucket it should be. */
  ghost predicate Distributed<V>(chains: seq<seq<LutNode<V>>>, order: seq<LutNode<V>>) {
    forall b :: 0 <= b < |chains| ==> chains[b] == Filter(order, Bucket(|chains|, b))
  }

  lemma ChainsWithin<V>(chains: seq<seq<LutNode<V>>>, order: seq<LutNode<V>>)
    requires Distributed(chains, order) && NoDup(order)
    ensures forall b :: 0 <= b < |chains| ==> NoDup(chains[b]) && forall x <- chains[b] :: x in order
    ensures forall b, x :: 0 <= b < |chains| && x in chains[b] ==> IdHash(x.id) % |chains| == b
  {
    hide Filter, NoDup;
    forall b | 0 <= b < |chains|
      ensures NoDup(chains[b]) && forall x <- chains[b] :: x in order && IdHash(x.id) % |chains| == b
    {
      FilterMembers(order, Bucket(|chains|, b));
    }
  }

  lemma {:induction false} FlattenNodes<V>(chains: seq<seq<LutNode<V>>>, order: seq<LutNode<V>>, i: nat)
    requires 0 < |chains| && i <= |chains| && Distributed(chains, order) && NoDup(order)
    ensures forall x <- Flatten(chains[..i]) :: x in order && IdHash(x.id) % |chains| < i
    ensures NoDup(Flatten(chains[..i]))
  {
    hide Filter, Distributed, IdHash;
    if i == 0 {
      assert chains[..i] == [];
    } else {
      FlattenNodes(chains, order, i - 1);
      assert chains[..i] == chains[..i - 1] + [chains[i - 1]];
      FlattenSnoc(chains[..i - 1], chains[i - 1]);
      ChainsWithin(chains, order);
      var front, last := Flatten(chains[..i - 1]), chains[i - 1];
      assert forall x <- last :: IdHash(x.id) % |chains| == i - 1;
      NoDupConcat(front, last);
    }
  }

  /** What moving on to chain `i` needs to know. */
  lemma NextChain<V>(chains: seq<seq<LutNode<V>>>, order: seq<LutNode<V>>, i: nat)
    requires i < |chains| && Distributed(chains, order) && NoDup(order)
    ensures Flatten(chains[..i + 1]) == Flatten(chains[..i]) + chains[i]
    ensures NoDup(Flatten(chains[..i + 1])) && Nodes(Flatten(chains[..i + 1])) <= Nodes(order)
    ensures forall k :: i < k < |chains| ==> Nodes(chains[k]) !! Nodes(Flatten(chains[..i + 1]))
  {
    hide Filter, Distributed, Flatten, NoDup, IdHash;
    FlattenNodes(chains, order, i + 1);
    assert chains[..i + 1] == chains[..i] + [chains[i]];
    FlattenSnoc(chains[..i], chains[i]);
    ChainsWithin(chains, order);
    forall k | i < k < |chains|
      ensures Nodes(chains[k]) !! Nodes(Flatten(chains[..i + 1]))
    {
      assert forall x <- chains[k] :: IdHash(x.id) % |chains| == k;
    }
  }

  lemma EmptyTable<V>(size: nat)
    requires size > 0
    ensures Distributed<V>(seq(size, _ => []), []) && Flatten<V>([]) == []
  {
  }

  lemma {:induction false} FlattenPrefix<V>(chains: seq<seq<LutNode<V>>>, i: nat)
    requires i <= |chains|
    ensures Flatten(chains[..i]) <= Flatten(chains)
    decreases |chains| - i
  {
    if i == |chains| {
      assert chains[..i] == chains;
    } else {
      FlattenPrefix(chains, i + 1);
      assert chains[..i + 1] == chains[..i] + [chains[i]];
      FlattenSnoc(chains[..i], chains[i]);
    }
  }

  lemma {:induction false} CountNodes<V>(s: seq<LutNode<V>>)
    requires NoDup(s)
    ensures |Nodes(s)| == |s|
  {
    if s != [] {
      var front, last := s[..|s| - 1], s[|s| - 1];
      CountNodes(front);
      assert Nodes(s) == Nodes(front) + {last};
    }
  }

  /** The chains together hold the nodes of the table, each once. */
  lemma FlattenPermutes<V>(chains: seq<seq<LutNode<V>>>, order: seq<LutNode<V>>)
    requires 0 < |chains| && Distributed(chains, order) && NoDup(order)
    ensures NoDup(Flatten(chains)) && |Flatten(chains)| == |order|
    ensures Nodes(Flatten(chains)) == Nodes(order)
  {
    hide Filter, Flatten;
    FlattenNodes(chains, order, |chains|);
    assert chains[..|chains|] == chains;
    var flat := Flatten(chains);
    forall x | x in order
      ensures x in flat
    {
      var h := IdHash(x.id);
      FlattenOfHash(chains, order, |chains|, h);
      FilterMembers(order, Hash(h));
      FilterMembers(flat, Hash(h));
    }
    assert Nodes(flat) == Nodes(order);
    CountNodes(flat);
    CountNodes(order);
  }

  /** Among the nodes of each hash the overlap is the position. */
  ghost predicate Ranked<V>(order: seq<LutNode<V>>) {
    forall h: U32 :: RankedAt(Filter(order, Hash(h)), h)
  }

  ghost predicate RankedAt<V>(s: seq<LutNode<V>>, h: U32) {
    |s| <= OVERLAPS && forall j :: 0 <= j < |s| ==> s[j].id == MakeId(h, j)
  }

  /** The first chains hold exactly the nodes whose hash falls into them. */
  lemma {:induction false} FlattenOfHash<V>(chains: seq<seq<LutNode<V>>>, order: seq<LutNode<V>>, i: nat, h: U32)
    requires 0 < |chains| && i <= |chains| && Distributed(chains, order)
    ensures Filter(Flatten(chains[..i]), Hash(h)) == if h % |chains| < i then Filter(order, Hash(h)) else []
  {
    hide Filter, IdHash, Wanted;
    if i == 0 {
      assert chains[..i] == [] && Filter<V>([], Hash(h)) == [] by { EmptyFilter<V>(Hash(h)); }
    } else {
      FlattenOfHash(chains, order, i - 1, h);
      assert chains[..i] == chains[..i - 1] + [chains[i - 1]];
      FlattenSnoc(chains[..i - 1], chains[i - 1]);
      FilterConcat(Flatten(chains[..i - 1]), chains[i - 1], Hash(h));
      FilterOfBucket(order, |chains|, i - 1, h);
    }
  }

  /** Reading the buckets one after the other keeps the order within each hash. */
  lemma RehashKeepsHashes<V>(chains: seq<seq<LutNode<V>>>, order: seq<LutNode<V>>)
    requires 0 < |chains| && Distributed(chains, order)
    ensures forall h: U32 :: Filter(Flatten(chains), Hash(h)) == Filter(order, Hash(h))
  {
    forall h: U32
      ensures Filter(Flatten(chains), Hash(h)) == Filter(order, Hash(h))
    {
      FlattenOfHash(chains, order, |chains|, h);
      assert chains[..|chains|] == chains;
    }
  }

  // ---- the table as a map ----

  /** What the table knows of a key. */
  datatype Entry<V> = Entry(id: LutId, data: V)

  /** The keys of one hash. */
  ghost function Holders<V>(m: map<string, Entry<V>>, hash: string -> U32, h: U32): set<string> {
    set k | k in m && hash(k) == h
  }

  /** The id a new key gets: its overlap counts the keys of the same hash. */
  ghost function NextId<V>(m: map<string, Entry<V>>, hash: string -> U32, key: string): LutId {
    MakeId(hash(key), |Holders(m, hash, hash(key))|)
  }

  ghost function Inserted<V>(m: map<string, Entry<V>>, hash: string -> U32, key: string, data: V): map<string, Entry<V>> {
    m[key := Entry(if key in m then m[key].id else NextId(m, hash, key), data)]
  }

  ghost predicate Coherent<V>(order: seq<LutNode<V>>, hash: string -> U32) {
    && (forall i, j :: 0 <= i < j < |order| ==> order[i].key != order[j].key)
    && (forall x <- order :: IdHash(x.id) == hash(x.key))
    && Ranked(order)
  }

  ghost predicate Represents<V>(order: seq<LutNode<V>>, m: map<string, Entry<V>>)
    reads order
  {
    && (forall x <- order :: x.key in m && m[x.key] == Entry(x.id, x.data))
    && (forall k <- m :: exists x <- order :: x.key == k)
  }

  ghost function KeysOf<V>(order: seq<LutNode<V>>, hash: string -> U32, h: U32): set<string> {
    set x | x in order && hash(x.key) == h :: x.key
  }

  lemma {:induction false} CountHolders<V>(order: seq<LutNode<V>>, hash: string -> U32, h: U32)
    requires forall i, j :: 0 <= i < j < |order| ==> order[i].key != order[j].key
    requires forall x <- order :: IdHash(x.id) == hash(x.key)
    ensures |Filter(order, Hash(h))| == |KeysOf(order, hash, h)|
  {
    if order == [] {
      assert KeysOf(order, hash, h) == {};
    } else {
      var front, last := order[..|order| - 1], order[|order| - 1];
      assert order == front + [last];
      CountHolders(front, hash, h);
      KeysOfSnoc(front, last, hash, h);
    }
  }

  lemma KeysOfSnoc<V>(front: seq<LutNode<V>>, last: LutNode<V>, hash: string -> U32, h: U32)
    requires forall x <- front :: x.key != last.key
    ensures last.key !in KeysOf(front, hash, h)
    ensures KeysOf(front + [last], hash, h)
      == if hash(last.key) == h then KeysOf(front, hash, h) + {last.key} else KeysOf(front, hash, h)
  {
  }

  lemma HoldersCounted<V>(order: seq<LutNode<V>>, m: map<string, Entry<V>>, hash: string -> U32, h: U32)
    requires Coherent(order, hash) && Represents(order, m)
    ensures |Filter(order, Hash(h))| == |Holders(m, hash, h)|
  {
    CountHolders(order, hash, h);
    assert Holders(m, hash, h) == KeysOf(order, hash, h);
  }

  lemma WrappedStep(n: nat)
    ensures (n % OVERLAPS + 1) % OVERLAPS == (n + 1) % OVERLAPS
  {
  }

  lemma NoDuplicates<V>(order: seq<LutNode<V>>, hash: string -> U32)
    requires Coherent(order, hash)
    ensures NoDup(order)
  {
  }

  lemma MakeIdInjective(h: U32, i: nat, j: nat)
    requires i < OVERLAPS && j < OVERLAPS && MakeId(h, i) == MakeId(h, j)
    ensures i == j
  {
    assert IdOverlap(MakeId(h, i)) == i && IdOverlap(MakeId(h, j)) == j;
  }

  lemma InItsBucket<V>(chains: seq<seq<LutNode<V>>>, order: seq<LutNode<V>>, id: LutId)
    requires 0 < |chains| && Distributed(chains, order)
    ensures forall x <- order :: x.id == id ==> x in chains[IdHash(id) % |chains|]
    ensures forall x <- chains[IdHash(id) % |chains|] :: x in order
  {
    hide Filter;
    FilterMembers(order, Bucket(|chains|, IdHash(id) % |chains|));
  }

  lemma FindOwner<V>(order: seq<LutNode<V>>, hash: string -> U32, m: map<string, Entry<V>>, key: string)
    requires Coherent(order, hash) && Represents(order, m) && key in m
    ensures exists x <- order :: x.id == m[key].id
  {
  }

  lemma IdOwner<V>(order: seq<LutNode<V>>, hash: string -> U32, m: map<string, Entry<V>>, key: string, x: LutNode<V>)
    requires Coherent(order, hash) && Represents(order, m) && key in m && x in order && x.id == m[key].id
    ensures x.key == key
  {
    var y :| y in order && y.key == key;
    IdsDistinct(order, hash, x, y);
  }

  /** An id belongs to one node only. */
  lemma IdsDistinct<V>(order: seq<LutNode<V>>, hash: string -> U32, x: LutNode<V>, y: LutNode<V>)
    requires Coherent(order, hash) && x in order && y in order && x.id == y.id
    ensures x == y
  {
    var h := IdHash(x.id);
    var s := Filter(order, Hash(h));
    FilterMembers(order, Hash(h));
    assert RankedAt(s, h);
    var i :| 0 <= i < |s| && s[i] == x;
    var j :| 0 <= j < |s| && s[j] == y;
    MakeIdInjective(h, i, j);
  }

  /** A new node with the next id keeps the ranks. */
  lemma CoherentExtended<V>(order: seq<LutNode<V>>, hash: string -> U32, m: map<string, Entry<V>>, node: LutNode<V>)
    requires Coherent(order, hash) && Represents(order, m) && node.key !in m
    requires node.id == NextId(m, hash, node.key) && |Holders(m, hash, hash(node.key))| < OVERLAPS
    ensures Coherent(order + [node], hash)
  {
    hide Filter, MakeId;
    var longer := order + [node];
    HoldersCounted(order, m, hash, hash(node.key));
    forall h: U32
      ensures RankedAt(Filter(longer, Hash(h)), h)
    {
      assert RankedAt(Filter(order, Hash(h)), h);
      FilterSnoc(order, node, Hash(h));
    }
  }

  lemma RepresentsExtended<V>(order: seq<LutNode<V>>, m: map<string, Entry<V>>, node: LutNode<V>)
    requires Represents(order, m) && node.key !in m
    ensures Represents(order + [node], m[node.key := Entry(node.id, node.data)])
  {
    var longer, n := order + [node], m[node.key := Entry(node.id, node.data)];
    assert node in longer;
    forall k | k in n
      ensures exists x <- longer :: x.key == k
    {
      if k != node.key {
        var x :| x in order && x.key == k;
        assert x in longer;
      }
    }
  }

  /** The nodes read bucket by bucket are as good an order as the one they were inserted in. */
  lemma ReorderedByBuckets<V>(chains: seq<seq<LutNode<V>>>, order: seq<LutNode<V>>, hash: string -> U32,
                              m: map<string, Entry<V>>)
    requires 0 < |chains| && Distributed(chains, order) && Coherent(order, hash) && Represents(order, m)
    ensures Coherent(Flatten(chains), hash) && Represents(Flatten(chains), m)
    ensures |Flatten(chains)| == |order| && Nodes(Flatten(chains)) == Nodes(order)
  {
    hide Filter, Flatten, Distributed;
    var flat := Flatten(chains);
    NoDuplicates(order, hash);
    FlattenPermutes(chains, order);
    RehashKeepsHashes(chains, order);
    assert forall x <- flat :: x in Nodes(order);
    assert forall x <- order :: x in Nodes(flat);
    assert Ranked(flat) by {
      forall h: U32
        ensures RankedAt(Filter(flat, Hash(h)), h)
      {
        assert RankedAt(Filter(order, Hash(h)), h);
      }
    }
    forall i, j | 0 <= i < j < |flat|
      ensures flat[i].key != flat[j].key
    {
      assert flat[i] in Nodes(flat) && flat[j] in Nodes(flat);
      assert flat[i] in order && flat[j] in order && flat[i] != flat[j];
    }
  }

  /** The bucket array leads to the chains, which consist of nodes of `nodes`. */
  ghost predicate Wired<V>(table: array<LutNode?<V>>, size: nat, chains: seq<seq<LutNode<V>>>, nodes: set<LutNode<V>>)
    reads table, nodes
  {
    && 0 < size == table.Length == |chains|
    && (forall b :: 0 <= b < |chains| ==> forall x <- chains[b] :: x in nodes)
    && (forall b :: 0 <= b < |chains| ==> Linked(table[b], chains[b]))
  }

  /** Truncation of 0.7 times the size. */
  function Threshold(size: nat): nat {
    size * 7 / 10
  }

  /** The largest count that is not above seven tenths of the size. */
  lemma ThresholdExactly(size: nat, count: nat)
    ensures count <= Threshold(size) <==> 10 * count <= 7 * size
  {
  }

  class Lut<V> {
    const hash: string -> U32
    var table: array<LutNode?<V>>
    var n: nat
    var size: nat
    var reallocAt: nat

    ghost var Repr: set<object>
    ghost var chains: seq<seq<LutNode<V>>>
    ghost var order: seq<LutNode<V>>
    ghost var model: map<string, Entry<V>>

    ghost predicate Valid()
      reads this, Repr
      ensures Valid() ==> this in Repr
    {
      && this in Repr && table in Repr && (forall x <- order :: x in Repr)
      && Wired(table, size, chains, Nodes(order)) && Distributed(chains, order)
      && n == |order| && reallocAt == Threshold(size) && (n == 0 || n < reallocAt)
      && Coherent(order, hash) && Represents(order, model)
    }

    constructor (newSize: nat, hash: string -> U32)
      requires newSize > 0
      ensures Valid() && fresh(Repr) && this.hash == hash
      ensures model == map[] && size == newSize
    {
      this.hash := hash;
      size, n, reallocAt := newSize, 0, Threshold(newSize);
      table := new LutNode?<V>[newSize](_ => null);
      order, chains, model := [], seq(newSize, _ => []), map[];
      new;
      Repr := {this, table};
    }

    /** The walk along a bucket: the node of the key, or how many nodes share its hash. */
    static method FindKey(head: LutNode?<V>, key: string, h: U32, ghost chain: seq<LutNode<V>>)
      returns (found: LutNode?<V>, hashOverlap: nat)
      requires Linked(head, chain)
      ensures found != null ==> found in chain && found.key == key
      ensures found == null ==> forall x <- chain :: x.key == key ==> IdHash(x.id) != h
      ensures found == null ==> hashOverlap == |Filter(chain, Hash(h))| % OVERLAPS
    {
      hide Filter, IdHash;
      hashOverlap := 0;
      found := head;
      ghost var done: seq<LutNode<V>> := [];
      assert |Filter(done, Hash(h))| == 0 by { EmptyFilter<V>(Hash(h)); }
      while found != null
        invariant |done| <= |chain| && done == chain[..|done|] && found == At(chain, |done|)
        invariant hashOverlap == |Filter(done, Hash(h))| % OVERLAPS
        invariant forall x <- done :: x.key == key ==> IdHash(x.id) != h
        decreases |chain| - |done|
      {
        if IdHash(found.id) == h {
          if found.key == key {
            return;
          }
          WrappedStep(|Filter(done, Hash(h))|);
          hashOverlap := (hashOverlap + 1) % OVERLAPS;
        }
        FilterSnoc(done, found, Hash(h));
        done := done + [found];
        found := found.next;
      }
      assert done == chain;
    }

    /** The id of a key and whether the table has it. */
    method GetId(key: string) returns (id: LutId, flag: Flag)
      requires Valid()
      ensures key in model ==> flag == Exists && id == model[key].id
      ensures key !in model ==> flag == NotFound && id == NextId(model, hash, key)
    {
      hide Filter, Ranked, Linked;
      var h := hash(key);
      var b := h % size;
      var found, hashOverlap := FindKey(table[b], key, h, chains[b]);
      FilterMembers(order, Bucket(size, b));
      if found != null {
        return found.id, Exists;
      }
      FilterOfBucket(order, size, b, h);
      HoldersCounted(order, model, hash, h);
      return MakeId(h, hashOverlap), NotFound;
    }

    /** The walk along a bucket to the node of an id. */
    static method FindId(head: LutNode?<V>, id: LutId, ghost chain: seq<LutNode<V>>) returns (found: LutNode?<V>)
      requires Linked(head, chain)
      ensures found != null ==> found in chain && found.id == id
      ensures found == null ==> forall x <- chain :: x.id != id
    {
      found := head;
      ghost var j := 0;
      while found != null
        invariant j <= |chain| && found == At(chain, j)
        invariant forall x <- chain[..j] :: x.id != id
        decreases |chain| - j
      {
        if id == found.id {
          return;
        }
        found, j := found.next, j + 1;
      }
    }

    method GetKey(id: LutId) returns (key: Option<string>)
      requires Valid()
      ensures key.Some? ==> key.value in model && model[key.value].id == id
      ensures forall k <- model :: model[k].id == id ==> key == Some(k)
    {
      hide Filter, Ranked, Linked, Distributed;
      var found := FindId(table[IdHash(id) % size], id, chains[IdHash(id) % size]);
      InItsBucket(chains, order, id);
      forall k | k in model && model[k].id == id
        ensures found != null && found.key == k
      {
        FindOwner(order, hash, model, k);
        IdOwner(order, hash, model, k, found);
      }
      return if found == null then None else Some(found.key);
    }

    /** The data of an id; the zero the source returns for an unknown id is `None`. */
    method Get(id: LutId) returns (data: Option<V>)
      requires Valid()
      ensures data.Some? ==> exists k <- model :: model[k] == Entry(id, data.value)
      ensures forall k <- model :: model[k].id == id ==> data == Some(model[k].data)
    {
      hide Filter, Ranked, Linked, Distributed;
      var found := FindId(table[IdHash(id) % size], id, chains[IdHash(id) % size]);
      InItsBucket(chains, order, id);
      forall k | k in model && model[k].id == id
        ensures found != null && found.key == k
      {
        FindOwner(order, hash, model, k);
        IdOwner(order, hash, model, k, found);
      }
      return if found == null then None else Some(found.data);
    }

    /** Links `node` behind the last node of bucket `b`. */
    static method Append(table: array<LutNode?<V>>, b: nat, node: LutNode<V>, ghost chain: seq<LutNode<V>>)
      requires b < table.Length && Linked(table[b], chain) && NoDup(chain)
      requires node !in chain && node.next == null
      modifies table, Nodes(chain)`next
      ensures Linked(table[b], chain + [node])
      ensures forall i :: 0 <= i < table.Length && i != b ==> table[i] == old(table[i])
    {
      if table[b] == null {
        table[b] := node;
      } else {
        var current := table[b];
        ghost var j := 0;
        while current.next != null
          invariant j < |chain| && current == chain[j]
          decreases |chain| - j
        {
          current, j := current.next, j + 1;
        }
        current.next := node;
      }
    }

    /** Adds a node to the bucket of its id. */
    method Place(node: LutNode<V>, ghost placed: seq<LutNode<V>>)
      requires Wired(table, size, chains, Nodes(placed)) && Distributed(chains, placed) && n == |placed|
      requires NoDup(placed) && node !in placed && node.next == null
      modifies `n, `chains, table, Nodes(placed)`next
      ensures Wired(table, size, chains, Nodes(placed + [node])) && Distributed(chains, placed + [node]) && n == |placed| + 1
      ensures node.next == null
    {
      hide Filter, Linked, IdHash;
      ChainsWithin(chains, placed);
      var b := IdHash(node.id) % size;
      forall i | 0 <= i < |chains| && i != b
        ensures Nodes(chains[i]) !! Nodes(chains[b])
      {
        assert forall x <- chains[i] :: IdHash(x.id) % |chains| == i;
        assert forall x <- chains[b] :: IdHash(x.id) % |chains| == b;
      }
      Append(table, b, node, chains[b]);
      chains := chains[b := chains[b] + [node]];
      n := n + 1;
      forall i | 0 <= i < |chains|
        ensures chains[i] == Filter(placed + [node], Bucket(|chains|, i))
      {
        FilterSnoc(placed, node, Bucket(|chains|, i));
      }
    }

    /** Breaks the chain behind `node` and adds it to its new bucket. */
    method Relocate(node: LutNode<V>, ghost placed: seq<LutNode<V>>)
      requires Wired(table, size, chains, Nodes(placed)) && Distributed(chains, placed) && n == |placed|
      requires NoDup(placed) && node !in placed
      modifies `n, `chains, table, node`next, Nodes(placed)`next
      ensures Wired(table, size, chains, Nodes(placed + [node])) && Distributed(chains, placed + [node]) && n == |placed| + 1
    {
      hide Filter, IdHash, Distributed;
      node.next := null;
      Place(node, placed);
    }

    /** Moves one chain of the old table, node by node, into the new one. */
    method MoveChain(head: LutNode?<V>, ghost chain: seq<LutNode<V>>, ghost moved: seq<LutNode<V>>)
      requires Linked(head, chain) && NoDup(moved + chain)
      requires Wired(table, size, chains, Nodes(moved)) && Distributed(chains, moved) && n == |moved|
      modifies `n, `chains, table, Nodes(moved + chain)`next
      ensures Wired(table, size, chains, Nodes(moved + chain)) && Distributed(chains, moved + chain) && n == |moved + chain|
    {
      hide Filter, Distributed, Wired, Linked, NoDup;
      var current := head;
      ghost var all, p := moved + chain, |moved|;
      assert all[..p] == moved && all[p..] == chain;
      LinkedTail(current, chain);
      while current != null
        invariant |moved| <= p <= |all| && (current == null <==> all[p..] == [])
        invariant Linked(current, all[p..])
        invariant n == p && Wired(table, size, chains, Nodes(all[..p])) && Distributed(chains, all[..p])
        decreases |all| - p
      {
        LinkedTail(current, all[p..]);
        NoDupCut(all, p);
        var next := current.next;
        Relocate(current, all[..p]);
        current, p := next, p + 1;
        LinkedTail(current, all[p..]);
      }
      assert all[..p] == all;
    }

    /** Moves the chains of the old table; stops once all nodes have been counted. */
    method MoveAll(oldTable: array<LutNode?<V>>, oldSize: nat, oldCount: nat,
                   ghost oldChains: seq<seq<LutNode<V>>>, ghost oldOrder: seq<LutNode<V>>)
      requires oldTable != table && oldTable.Length == oldSize == |oldChains| && oldCount == |oldOrder|
      requires oldSize > 0 && Distributed(oldChains, oldOrder) && NoDup(oldOrder)
      requires forall b :: 0 <= b < oldSize ==> Linked(oldTable[b], oldChains[b])
      requires Wired(table, size, chains, {}) && Distributed(chains, []) && n == 0 && Represents(oldOrder, model)
      modifies `n, `chains, table, Nodes(oldOrder)`next
      ensures Wired(table, size, chains, Nodes(oldOrder)) && Distributed(chains, Flatten(oldChains)) && n == oldCount
      ensures Represents(oldOrder, model)
    {
      hide Filter, Distributed, Linked, Wired, NoDup;
      var i := 0;
      EmptyTable<V>(1);
      assert oldChains[..0] == [] && Nodes<V>([]) == {};
      while i < oldSize && n < oldCount
        invariant i <= oldSize && n == |Flatten(oldChains[..i])|
        invariant Wired(table, size, chains, Nodes(Flatten(oldChains[..i]))) && Distributed(chains, Flatten(oldChains[..i]))
        invariant forall b :: i <= b < oldSize ==> Linked(oldTable[b], oldChains[b])
      {
        NextChain(oldChains, oldOrder, i);
        MoveChain(oldTable[i], oldChains[i], Flatten(oldChains[..i]));
        i := i + 1;
      }
      FlattenPrefix(oldChains, i);
      FlattenPermutes(oldChains, oldOrder);
      assert oldChains[..oldSize] == oldChains;
      assert Flatten(oldChains[..i]) == Flatten(oldChains);
    }

    /** Puts an empty bucket array in place. */
    method Renew(newSize: nat)
      requires newSize > 0
      modifies `table, `size, `reallocAt, `n, `chains
      ensures fresh(table) && size == newSize && reallocAt == Threshold(newSize) && n == 0
      ensures Wired(table, size, chains, {}) && Distributed(chains, [])
    {
      table := new LutNode?<V>[newSize](_ => null);
      size, reallocAt, n := newSize, Threshold(newSize), 0;
      chains := seq(newSize, _ => []);
      EmptyTable<V>(newSize);
    }

    /** Moves all nodes to a new bucket array. */
    method Realloc(newSize: nat)
      requires Valid() && newSize > 0 && n < Threshold(newSize)
      modifies Repr
      ensures Valid() && fresh(Repr - old(Repr))
      ensures size == newSize && n == old(n) && model == old(model)
    {
      hide Filter, Linked, Coherent, Ranked, Distributed, Flatten, NoDup, Represents;
      var oldSize, oldTable, oldCount := size, table, n;
      ghost var oldChains := chains;
      NoDuplicates(order, hash);
      Renew(newSize);
      MoveAll(oldTable, oldSize, oldCount, oldChains, order);
      ReorderedByBuckets(oldChains, order, hash, model);
      order := Flatten(oldChains);
      Repr := {this, table} + Nodes(order);
    }

    /** Four times the size when one node more would reach the threshold. */
    static function Grown(n: nat, size: nat): nat {
      if n + 1 >= Threshold(size) then 4 * size else size
    }

    /** Fails to keep only the load below the threshold when it has to grow first. */
    method Reserve()
      requires Valid()
      modifies Repr
      ensures Valid() && fresh(Repr - old(Repr))
      ensures n == old(n) && model == old(model) && n + 1 < reallocAt
      ensures size == Grown(old(n), old(size))
    {
      hide Distributed, Coherent, Represents, Linked;
      if n + 1 >= reallocAt {
        Realloc(size * 4);
      }
    }

    /** Relinking leaves the data of the nodes alone. */
    method PlaceNew(node: LutNode<V>)
      requires Wired(table, size, chains, Nodes(order)) && Distributed(chains, order) && n == |order|
      requires NoDup(order) && node !in order && node.next == null && Represents(order, model)
      modifies `n, `chains, table, Nodes(order)`next
      ensures Wired(table, size, chains, Nodes(order + [node])) && Distributed(chains, order + [node])
      ensures n == |order| + 1 && Represents(order, model)
    {
      hide Filter, Ranked, Distributed, Wired, Linked, NoDup;
      Place(node, order);
    }

    /** The branch for a key the table does not have. */
    method AddNode(node: LutNode<V>)
      requires Valid() && node !in Repr && node.next == null && n + 1 < reallocAt
      requires node.key !in model && node.id == NextId(model, hash, node.key)
      requires |Holders(model, hash, hash(node.key))| < OVERLAPS
      modifies Repr
      ensures Valid() && Repr == old(Repr) + {node} && size == old(size)
      ensures model == old(model)[node.key := Entry(node.id, node.data)]
    {
      hide Filter, Ranked, Distributed, Wired, NextId, Holders, Linked, Represents, Coherent, NoDup;
      NoDuplicates(order, hash);
      CoherentExtended(order, hash, model, node);
      PlaceNew(node);
      RepresentsExtended(order, model, node);
      assert forall x <- order + [node] :: x in Repr || x == node;
      order, model, Repr := order + [node], model[node.key := Entry(node.id, node.data)], Repr + {node};
    }

    /** Gives a node new data, which changes the map at its key only. */
    static method SetData(node: LutNode<V>, data: V, flags: set<Flag>, table: array<LutNode?<V>>, size: nat,
                          ghost chains: seq<seq<LutNode<V>>>, ghost order: seq<LutNode<V>>,
                          ghost m: map<string, Entry<V>>)
      requires node in order && Wired(table, size, chains, Nodes(order)) && Represents(order, m)
      requires forall i, j :: 0 <= i < j < |order| ==> order[i].key != order[j].key
      modifies node`data, node`flags
      ensures Wired(table, size, chains, Nodes(order))
      ensures Represents(order, m[node.key := Entry(node.id, data)])
    {
      node.data, node.flags := data, flags;
    }

    /** The branch for a key the table has: the data of its node is replaced. */
    method Overwrite(key: string, data: V, id: LutId, flags: set<Flag>)
      requires Valid() && key in model && model[key].id == id
      modifies Repr
      ensures Valid() && Repr == old(Repr) && size == old(size)
      ensures model == old(model)[key := Entry(id, data)] && n == old(n)
    {
      hide Filter, Ranked, Represents, Distributed, Linked;
      var b := IdHash(id) % size;
      InItsBucket(chains, order, id);
      FindOwner(order, hash, model, key);
      var current := FindId(table[b], id, chains[b]);
      IdOwner(order, hash, model, key, current);
      SetData(current, data, flags, table, size, chains, order, model);
      model := model[key := Entry(id, data)];
    }

    /** `id` and the presence flag are those `GetId` returned for the key. */
    method InsertId(key: string, data: V, id: LutId, flags: set<Flag>)
      requires Valid()
      requires NotFound in flags ==>
        key !in model && id == NextId(model, hash, key) && |Holders(model, hash, hash(key))| < OVERLAPS
      requires NotFound !in flags && Exists in flags ==> key in model && model[key].id == id
      modifies Repr
      ensures Valid() && fresh(Repr - old(Repr))
      ensures model == if NotFound in flags || Exists in flags then Inserted(old(model), hash, key, data) else old(model)
      ensures size == Grown(old(n), old(size))
    {
      hide Valid, NextId, Holders, Grown;
      Reserve();
      var node := new LutNode(id, key, data, flags);
      if NotFound in flags {
        AddNode(node);
      } else if Exists in flags {
        Overwrite(key, data, id, flags);
      }
    }

    method Insert(key: string, data: V, flags: set<Flag>) returns (id: LutId)
      requires Valid() && flags !! {NotFound, Exists}
      requires key in model || |Holders(model, hash, hash(key))| < OVERLAPS
      modifies Repr
      ensures Valid() && fresh(Repr - old(Repr))
      ensures model == Inserted(old(model), hash, key, data) && model[key].id == id
      ensures size == Grown(old(n), old(size))
    {
      hide Valid, NextId, Holders, Grown;
      var flag;
      id, flag := GetId(key);
      InsertId(key, data, id, {flag} + flags);
    }
  }
}
