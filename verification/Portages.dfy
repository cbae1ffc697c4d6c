/** The package index: a lookup table from package keys to packages, filled from repository files. */
module Portages {
  import opened Wrappers
  import opened AtomVersions
  import opened LetteredVersions
  import opened Packages
  import Luts

  /** The ebuilds of one package, in the order they were indexed. */
  function OfKey(es: seq<Ebuild>, key: string): seq<Ebuild> {
    if es == [] then []
    else
      var front := OfKey(es[..|es| - 1], key);
      if es[|es| - 1].packageKey == key then front + [es[|es| - 1]] else front
  }

  lemma {:induction false} OfKeyMembers(es: seq<Ebuild>, key: string)
    ensures forall e <- OfKey(es, key) :: e in es && e.packageKey == key
    ensures forall e <- es :: e.packageKey == key ==> e in OfKey(es, key)
    ensures AllStored(es) ==> AllStored(OfKey(es, key))
  {
    hide Stored;
    if es != [] {
      OfKeyMembers(es[..|es| - 1], key);
      assert es == es[..|es| - 1] + [es[|es| - 1]];
    }
  }

  lemma OfKeySnoc(es: seq<Ebuild>, e: Ebuild, key: string)
    ensures OfKey(es + [e], key) == if e.packageKey == key then OfKey(es, key) + [e] else OfKey(es, key)
  {
    assert (es + [e])[..|es|] == es;
  }

  ghost predicate AddedAs(list: seq<Ebuild>, es: seq<Ebuild>) {
    AllStored(es) && list == AddedAll(es)
  }

  /** The package of a key holds exactly the ebuilds indexed under it, as adding them one by one leaves them. */
  ghost predicate PackageOk(k: string, entry: Luts.Entry<Package>, indexed: seq<Ebuild>)
    reads entry.data, entry.data.list
  {
    var p := entry.data;
    p.key == k && p.packageId == entry.id && p.Valid() && AddedAs(p.list, OfKey(indexed, k))
  }

  /** At most 65536 of the keys share a hash. */
  ghost predicate FewCollisions(keys: set<string>, hash: string -> Luts.U32) {
    forall h: Luts.U32 :: |KeysWith(keys, hash, h)| <= Luts.OVERLAPS
  }

  ghost function KeysWith(keys: set<string>, hash: string -> Luts.U32, h: Luts.U32): set<string> {
    set k | k in keys && hash(k) == h
  }

  datatype KeyError = NoPackage

  const INITIAL_SIZE := 512

  class Portage {
    const packages: Luts.Lut<Package>
    ghost var indexed: seq<Ebuild>
    ghost var Repr: set<object>

    ghost predicate PackageAt(k: string)
      requires k in packages.model
      reads this, packages, Repr
    {
      var p := packages.model[k].data;
      && p in Repr && (forall e <- p.list :: e in Repr && e !in packages.Repr && e as object != this)
      && p !in packages.Repr
      && PackageOk(k, packages.model[k], indexed)
    }

    ghost predicate Valid()
      reads this, Repr
      ensures Valid() ==> this in Repr
    {
      && this in Repr && packages in Repr && packages.Repr <= Repr && this !in packages.Repr
      && packages.Valid()
      && (forall e <- indexed :: e.packageKey in packages.model)
      && (forall k <- packages.model :: PackageAt(k))
    }

    constructor (hash: string -> Luts.U32)
      ensures Valid() && fresh(Repr) && indexed == [] && packages.hash == hash
      ensures packages.model == map[] && packages.size == INITIAL_SIZE
    {
      packages := new Luts.Lut<Package>(INITIAL_SIZE, hash);
      indexed := [];
      new;
      Repr := {this} + packages.Repr;
    }

    /** A key the table does not have gets an empty package. */
    method CreatePackage(key: string, id: Luts.LutId) returns (pkg: Package)
      requires Valid() && key !in packages.model && id == Luts.NextId(packages.model, packages.hash, key)
      requires |Luts.Holders(packages.model, packages.hash, packages.hash(key))| < Luts.OVERLAPS
      modifies packages.Repr, `Repr
      ensures Valid() && fresh(Repr - old(Repr))
      ensures packages.model == old(packages.model)[key := Luts.Entry(id, pkg)]
    {
      hide Luts.Lut.Valid, Luts.NextId, Luts.Holders, Package.Valid, AddedAll;
      assert OfKey(indexed, key) == [] by { NoneOfKey(indexed, key); }
      pkg := new Package(key, id);
      packages.InsertId(key, pkg, id, {Luts.NotFound, Luts.Python});
      Repr := Repr + packages.Repr + {pkg};
      forall k | k in packages.model
        ensures PackageAt(k)
      {
        if k != key {
          assert old(PackageAt(k));
        }
      }
    }

    /** The package of a key, created if the id lookup says it is not there yet. */
    method PackageFor(key: string) returns (pkg: Package)
      requires Valid()
      requires key in packages.model || |Luts.Holders(packages.model, packages.hash, packages.hash(key))| < Luts.OVERLAPS
      modifies packages.Repr, `Repr
      ensures Valid() && fresh(Repr - old(Repr))
      ensures packages.model.Keys == old(packages.model.Keys) + {key} && packages.model[key].data == pkg
      ensures forall k <- old(packages.model) :: packages.model[k] == old(packages.model[k])
      ensures pkg in Repr && forall e <- pkg.list :: e in Repr
    {
      hide Luts.Lut.Valid, Luts.NextId, Luts.Holders, Package.Valid, PackageOk;
      var id, flag := packages.GetId(key);
      if flag == Luts.NotFound {
        pkg := CreatePackage(key, id);
      } else {
        var found := packages.Get(id);
        pkg := found.value;
      }
      assert PackageAt(key);
    }

    /** Different keys have different packages, and no ebuild is in two of them. */
    lemma PackagesApart(k: string, l: string)
      requires Valid() && k in packages.model && l in packages.model && k != l
      ensures packages.model[k].data != packages.model[l].data
      ensures forall e <- packages.model[k].data.list :: e !in packages.model[l].data.list
    {
      hide Luts.Lut.Valid, AddedAll, Linked, NoDup, AllStored, OfKey;
      var p, q := packages.model[k].data, packages.model[l].data;
      assert PackageAt(k) && PackageAt(l);
      forall e | e in p.list
        ensures e !in q.list
      {
        assert e.package == p;
      }
    }

    /** Adds a new ebuild to the package of its key. */
    method AddTo(pkg: Package, ebuild: Ebuild)
      requires Valid() && ebuild.packageKey in packages.model && packages.model[ebuild.packageKey].data == pkg
      requires Stored(ebuild) && ebuild.package == null && ebuild !in Repr
      modifies pkg, pkg.list, ebuild, `indexed, `Repr
      ensures Valid() && Repr == old(Repr) + {ebuild}
      ensures indexed == old(indexed) + [ebuild] && packages.model == old(packages.model)
    {
      hide Luts.Lut.Valid, Added, Stored, AddedAll, OfKey, Linked, NoDup, AllStored;
      var key := ebuild.packageKey;
      assert PackageAt(key);
      ghost var before := indexed;
      forall k | k in packages.model && k != key
        ensures packages.model[k].data != pkg && forall e <- packages.model[k].data.list :: e !in pkg.list && e != ebuild
      {
        PackagesApart(k, key);
        assert PackageAt(k);
      }
      var r := pkg.AddEbuild(ebuild);
      indexed := indexed + [ebuild];
      Repr := Repr + {ebuild};
      AddedOne(OfKey(before, key), ebuild);
      AddedMembers(old(pkg.list), ebuild);
      forall k | k in packages.model
        ensures PackageAt(k)
      {
        assert old(PackageAt(k));
        OfKeySnoc(before, ebuild, k);
      }
    }

    /** One file of the repository. */
    method IndexFile(file: EbuildFile)
      requires Valid() && file.version.parts != [] && Fits(file.version)
      requires file.key in packages.model
            || |Luts.Holders(packages.model, packages.hash, packages.hash(file.key))| < Luts.OVERLAPS
      modifies Repr
      ensures Valid() && fresh(Repr - old(Repr))
      ensures exists e :: indexed == old(indexed) + [e] && e.packageKey == file.key && e.version == file.version
      ensures packages.model.Keys == old(packages.model.Keys) + {file.key}
      ensures forall k <- old(packages.model) :: packages.model[k].id == old(packages.model[k].id)
    {
      hide Luts.Lut.Valid, Luts.Holders, Portage.PackageAt, Fits;
      var ebuild := new Ebuild(file);
      var pkg := PackageFor(file.key);
      AddTo(pkg, ebuild);
    }

    /** The files one after the other; returns how many there were. */
    method InitializeRepository(files: seq<EbuildFile>) returns (i: nat)
      requires Valid() && AllIndexable(files)
      requires FewCollisions(packages.model.Keys + FileKeys(files), packages.hash)
      modifies Repr
      ensures Valid() && i == |files|
      ensures old(indexed) <= indexed && FilesOf(indexed[|old(indexed)|..]) == files
      ensures packages.model.Keys == old(packages.model.Keys) + FileKeys(files)
      ensures forall k <- old(packages.model) :: packages.model[k].id == old(packages.model[k].id)
    {
      hide Portage.Valid, FewCollisions, Luts.Holders, FilesOf, FileKeys, Fits;
      NoFiles(indexed);
      i := 0;
      while i < |files|
        invariant i <= |files| && Valid() && fresh(Repr - old(Repr))
        invariant old(indexed) <= indexed && FilesOf(indexed[|old(indexed)|..]) == files[..i]
        invariant packages.model.Keys == old(packages.model.Keys) + FileKeys(files[..i])
        invariant forall k <- old(packages.model) :: packages.model[k].id == old(packages.model[k].id)
      {
        ghost var before := indexed;
        NextFile(files, i);
        RoomForNext(packages.model, packages.hash, old(packages.model.Keys) + FileKeys(files), files[i].key);
        IndexFile(files[i]);
        FilesAfter(before, |old(indexed)|, indexed, files[i]);
        i := i + 1;
      }
      assert files[..i] == files;
    }

    /** An atom records the id its key has, or would get, at the time it is parsed. */
    method BuildAtom(key: string, version: AtomVersion, range: Range) returns (atom: Atom)
      requires Valid()
      ensures atom.key == key && atom.version == version && atom.range == range
      ensures key in packages.model ==> atom.id == packages.model[key].id
      ensures key !in packages.model ==> atom.id == Luts.NextId(packages.model, packages.hash, key)
    {
      var id, flag := packages.GetId(key);
      atom := Atom(key, id, version, range);
    }

    method MatchAtom(atom: Atom) returns (r: Result<Option<Ebuild>, KeyError>)
      requires Valid() && Fits(atom.version)
      ensures (forall k <- packages.model :: packages.model[k].id != atom.id) ==> r == Err(NoPackage)
      ensures forall k <- packages.model :: packages.model[k].id == atom.id ==>
        AllStored(OfKey(indexed, k)) && r == Ok(Search(AddedAll(OfKey(indexed, k)), 0, atom))
      ensures Answerable(indexed, atom) && atom.key in packages.model && atom.id == packages.model[atom.key].id ==>
        r.Ok? && Answers(indexed, atom, r.value)
      ensures ComparableForOne(indexed, atom) && atom.key in packages.model && atom.id == packages.model[atom.key].id ==>
        AllStored(indexed) && r.Ok? && AnswersOne(indexed, atom, r.value)
    {
      hide Luts.Lut.Valid, Search, AddedAll, Fits, ComparableForOne, Answerable, Answers, AnswersOne, AllStored;
      var pkg := packages.Get(atom.id);
      if pkg.None? {
        return Err(NoPackage);
      }
      ghost var key :| key in packages.model && packages.model[key] == Luts.Entry(atom.id, pkg.value);
      assert PackageAt(key);
      var found := pkg.value.MatchAtom(atom);
      assert forall k <- packages.model :: packages.model[k].id == atom.id ==> PackageAt(k);
      if Answerable(indexed, atom) {
        SearchIsGlobal(indexed, atom);
      }
      if ComparableForOne(indexed, atom) {
        SearchForOneIsGlobal(indexed, atom);
      }
      return Ok(found);
    }

    /** Nothing is indexed whose version could not be compared. */
    lemma AllIndexedStored()
      requires Valid()
      ensures AllStored(indexed)
    {
      hide Luts.Lut.Valid, AddedAll, Stored;
      forall e | e in indexed
        ensures Stored(e)
      {
        assert PackageAt(e.packageKey);
        OfKeyMembers(indexed, e.packageKey);
      }
    }

    /** Every indexed ebuild is in exactly one package, the one of its key. */
    lemma InExactlyOnePackage(e: Ebuild, k: string)
      requires Valid() && e in indexed && k in packages.model
      ensures e.packageKey in packages.model
      ensures e in packages.model[k].data.list <==> k == e.packageKey
    {
      hide Luts.Lut.Valid, AddedAll;
      assert PackageAt(k);
      var es := OfKey(indexed, k);
      OfKeyMembers(indexed, k);
      AddedAllPermutes(es);
      assert e in AddedAll(es) <==> e in multiset(AddedAll(es));
      assert e in es <==> e in multiset(es);
    }
  }

  // ---- the whole index ----

  function FileKeys(files: seq<EbuildFile>): set<string> {
    set f | f in files :: f.key
  }

  predicate AllIndexable(files: seq<EbuildFile>) {
    forall f <- files :: f.version.parts != [] && Fits(f.version)
  }

  function FilesOf(es: seq<Ebuild>): seq<EbuildFile> {
    seq(|es|, i requires 0 <= i < |es| => EbuildFile(es[i].packageKey, es[i].version))
  }

  lemma NoFiles(es: seq<Ebuild>)
    ensures FilesOf(es[|es|..]) == [] && FileKeys([]) == {}
  {
  }

  lemma NextFile(files: seq<EbuildFile>, i: nat)
    requires i < |files|
    ensures files[..i + 1] == files[..i] + [files[i]]
    ensures FileKeys(files[..i + 1]) == FileKeys(files[..i]) + {files[i].key}
    ensures FileKeys(files[..i + 1]) <= FileKeys(files)
  {
    assert files[..i + 1] == files[..i] + [files[i]];
    assert forall f <- files[..i] :: f in files;
  }

  lemma FilesAfter(before: seq<Ebuild>, n: nat, after: seq<Ebuild>, file: EbuildFile)
    requires n <= |before| && exists e :: after == before + [e] && e.packageKey == file.key && e.version == file.version
    ensures before <= after && FilesOf(after[n..]) == FilesOf(before[n..]) + [file]
  {
    assert after[n..] == before[n..] + [after[|before|]];
  }

  lemma RoomForNext(m: map<string, Luts.Entry<Package>>, hash: string -> Luts.U32, all: set<string>, key: string)
    requires FewCollisions(all, hash) && m.Keys <= all && key in all
    ensures key in m || |Luts.Holders(m, hash, hash(key))| < Luts.OVERLAPS
  {
    if key !in m {
      var holders := Luts.Holders(m, hash, hash(key));
      assert holders + {key} <= KeysWith(all, hash, hash(key));
      SubsetSmaller(holders + {key}, KeysWith(all, hash, hash(key)));
    }
  }

  lemma SubsetSmaller(a: set<string>, b: set<string>)
    requires a <= b
    ensures |a| <= |b|
  {
    assert b == a + (b - a);
  }

  /** The versions under a key are of one family. */
  ghost predicate Ordered(es: seq<Ebuild>) {
    exists f :: AllIn(es, f)
  }

  /** Versions of one family under the atom's key, and an atom of any version that asks for older or for
      newer ones. */
  ghost predicate Answerable(indexed: seq<Ebuild>, atom: Atom)
    ensures Answerable(indexed, atom) ==> AllStored(indexed) && Fits(atom.version)
  {
    && AllStored(indexed) && Ordered(OfKey(indexed, atom.key)) && Fits(atom.version)
    && (atom.range.less || atom.range.greater)
  }

  /** Nothing exactly if a scan of everything indexed finds no match under the atom's key; otherwise
      a match of that key such that no other one is newer. */
  ghost predicate Answers(indexed: seq<Ebuild>, atom: Atom, r: Option<Ebuild>)
    requires Answerable(indexed, atom)
  {
    match r
    case None => forall f <- indexed :: f.packageKey == atom.key ==> !Matches(f, atom)
    case Some(e) =>
      && e in indexed && e.packageKey == atom.key && Matches(e, atom)
      && forall f <- indexed :: f.packageKey == atom.key && Matches(f, atom) ==> Versus(e, f) >= 0
  }

  /** The search in the package of the atom's key is a search over everything indexed. */
  lemma SearchIsGlobal(indexed: seq<Ebuild>, atom: Atom)
    requires Answerable(indexed, atom)
    ensures AllStored(OfKey(indexed, atom.key))
    ensures Answers(indexed, atom, Search(AddedAll(OfKey(indexed, atom.key)), 0, atom))
  {
    hide Search, AddedAll, InFamily, Matches, Versus, Stored, NewestFirst;
    var es := OfKey(indexed, atom.key);
    var f :| AllIn(es, f);
    OfKeyMembers(indexed, atom.key);
    AddedAllSorted(es, f);
    AddedAllPermutes(es);
    SameMembers(AddedAll(es), es);
    SearchFindsNewest(AddedAll(es), atom, f);
  }

  /** Versions of one family under the atom's key, and one in the atom that fits it, asked for alone. */
  ghost predicate ComparableForOne(indexed: seq<Ebuild>, atom: Atom)
    ensures ComparableForOne(indexed, atom) ==> AllStored(indexed) && Fits(atom.version)
  {
    AllStored(indexed) && OnlyEqual(atom.range) && exists f :: AllIn(OfKey(indexed, atom.key), f) && FitsFamily(atom.version, f)
  }

  /** What an atom that asks for one version gets: a match of its key if anything; and if there is one,
      nothing exactly if some ebuild of that key is above the version. */
  ghost predicate AnswersOne(indexed: seq<Ebuild>, atom: Atom, r: Option<Ebuild>)
    requires AllStored(indexed) && Fits(atom.version)
  {
    && (r.Some? ==> r.value in indexed && r.value.packageKey == atom.key && Matches(r.value, atom))
    && ((exists f <- indexed :: f.packageKey == atom.key && Matches(f, atom)) ==>
          (r == None <==>
            exists e <- indexed :: e.packageKey == atom.key && Stored(e) && Compare(e.version, atom.version) > 0))
  }

  lemma SearchForOneIsGlobal(indexed: seq<Ebuild>, atom: Atom)
    requires ComparableForOne(indexed, atom)
    ensures AllStored(OfKey(indexed, atom.key))
    ensures AllStored(indexed) && AnswersOne(indexed, atom, Search(AddedAll(OfKey(indexed, atom.key)), 0, atom))
  {
    hide Search, AddedAll, InFamily, FitsFamily, Compare, Stored;
    var es := OfKey(indexed, atom.key);
    var f :| AllIn(es, f) && FitsFamily(atom.version, f);
    OfKeyMembers(indexed, atom.key);
    AddedAllSorted(es, f);
    AddedAllPermutes(es);
    var s := AddedAll(es);
    SameMembers(s, es);
    SearchForOneExact(s, atom, f);
    forall e | e in es && Compare(e.version, atom.version) > 0
      ensures s != [] && Compare(s[0].version, atom.version) > 0
    {
      HeadIsAbove(s, e, atom, f);
    }
    if s != [] {
      assert s[0] in s;
    }
  }

  /** If anything in a list newest first is above a version, its head is. */
  lemma HeadIsAbove(s: seq<Ebuild>, e: Ebuild, atom: Atom, f: Family)
    requires AllStored(s) && AllIn(s, f) && NewestFirst(s) && FitsFamily(atom.version, f) && e in s
    requires Compare(e.version, atom.version) > 0
    ensures Compare(s[0].version, atom.version) > 0
  {
    hide InFamily, FitsFamily, Compare, Stored;
    var k :| 0 <= k < |s| && s[k] == e;
    if k > 0 {
      FamilyMonotone(s[0].version, e.version, atom.version, f);
    }
  }

  lemma SameMembers(s: seq<Ebuild>, t: seq<Ebuild>)
    requires multiset(s) == multiset(t)
    ensures (forall e <- s :: e in t) && (forall e <- t :: e in s)
  {
    assert forall e <- s :: e in multiset(s);
    assert forall e <- t :: e in multiset(t);
  }

  lemma AddedMembers(s: seq<Ebuild>, e: Ebuild)
    requires AllStored(s) && Stored(e)
    ensures forall x <- Added(s, e) :: x in s || x == e
  {
  }

  lemma AddedOne(es: seq<Ebuild>, e: Ebuild)
    requires AllStored(es) && Stored(e)
    ensures AllStored(es + [e]) && AddedAll(es + [e]) == Added(AddedAll(es), e)
  {
    hide Stored, Added;
    assert (es + [e])[..|es|] == es;
  }

  lemma {:induction false} NoneOfKey(es: seq<Ebuild>, key: string)
    requires forall e <- es :: e.packageKey != key
    ensures OfKey(es, key) == []
  {
    if es != [] {
      NoneOfKey(es[..|es| - 1], key);
    }
  }
}
