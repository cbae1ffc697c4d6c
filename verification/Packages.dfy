/** A package's ebuilds, kept newest first, and the search for an atom among them. */
module Packages {
  import opened Wrappers
  import opened AtomVersions
  import opened LetteredVersions

  /** A file of the repository: the key of its package and its version. */
  datatype EbuildFile = EbuildFile(key: string, version: AtomVersion)

  class Ebuild {
    const packageKey: string
    const version: AtomVersion
    var package: Package?
    var older: Ebuild?

    constructor (file: EbuildFile)
      ensures packageKey == file.key && version == file.version
      ensures package == null && older == null
    {
      packageKey, version, package, older := file.key, file.version, null, null;
    }
  }

  /** The version bits of an atom: equal, less and greater. */
  datatype Range = Range(equal: bool, less: bool, greater: bool)

  datatype Atom = Atom(key: string, id: nat, version: AtomVersion, range: Range)

  // ---- lists of ebuilds ----

  predicate Stored(e: Ebuild) {
    e.version.parts != [] && Fits(e.version)
  }

  predicate AllStored(s: seq<Ebuild>) {
    forall i :: 0 <= i < |s| ==> Stored(s[i])
  }

  /** All of one family: digit-only, or of equally many components and lettered on the last one. */
  ghost predicate AllIn(s: seq<Ebuild>, f: Family) {
    forall i :: 0 <= i < |s| ==> InFamily(s[i].version, f)
  }

  /** How the version of `e` compares with that of `f`. */
  function Versus(e: Ebuild, f: Ebuild): int
    requires Stored(e) && Stored(f)
  {
    Compare(e.version, f.version)
  }

  /** The first place, from `i` on, whose ebuild is older than `e`. */
  function PlaceFor(s: seq<Ebuild>, e: Ebuild, i: nat): (p: nat)
    requires AllStored(s) && Stored(e) && i <= |s|
    ensures i <= p <= |s|
    decreases |s| - i
  {
    if i < |s| && Versus(e, s[i]) <= 0 then PlaceFor(s, e, i + 1) else i
  }

  function Added(s: seq<Ebuild>, e: Ebuild): (r: seq<Ebuild>)
    requires AllStored(s) && Stored(e)
    ensures AllStored(r) && |r| == |s| + 1
  {
    var p := PlaceFor(s, e, 0);
    s[..p] + [e] + s[p..]
  }

  ghost predicate NewestFirst(s: seq<Ebuild>)
    requires AllStored(s)
  {
    forall i, j :: 0 <= i < j < |s| ==> Versus(s[i], s[j]) >= 0
  }

  lemma {:induction false} PlaceIsFirst(s: seq<Ebuild>, e: Ebuild, i: nat)
    requires AllStored(s) && Stored(e) && i <= |s|
    ensures var p := PlaceFor(s, e, i);
      (forall j :: i <= j < p ==> Versus(e, s[j]) <= 0) && (p < |s| ==> Versus(e, s[p]) > 0)
    decreases |s| - i
  {
    hide Stored, Versus;
    if i < |s| && Versus(e, s[i]) <= 0 {
      PlaceIsFirst(s, e, i + 1);
    }
  }

  lemma NewerThan(d: Ebuild, e: Ebuild, g: Ebuild, f: Family)
    requires InFamily(d.version, f) && InFamily(e.version, f) && InFamily(g.version, f) && Stored(d) && Stored(e) && Stored(g)
    ensures Versus(d, e) >= 0 && Versus(e, g) >= 0 ==> Versus(d, g) >= 0
    ensures Versus(d, e) > 0 && Versus(e, g) >= 0 ==> Versus(d, g) > 0
    ensures Versus(d, e) <= 0 <==> Versus(e, d) >= 0
  {
    hide Compare, InFamily;
    FamilyPreorder(g.version, e.version, d.version, f);
    FamilyAntisymmetric(d.version, e.version, f);
    FamilyAntisymmetric(e.version, g.version, f);
    FamilyAntisymmetric(d.version, g.version, f);
  }

  /** Adding an ebuild keeps the list newest first. */
  lemma AddedNewestFirst(s: seq<Ebuild>, e: Ebuild, f: Family)
    requires AllStored(s) && Stored(e) && AllIn(s, f) && InFamily(e.version, f) && NewestFirst(s)
    ensures AllIn(Added(s, e), f) && NewestFirst(Added(s, e))
  {
    hide InFamily, Stored, Versus;
    var p, r := PlaceFor(s, e, 0), Added(s, e);
    PlaceIsFirst(s, e, 0);
    forall i, j | 0 <= i < j < |r|
      ensures Versus(r[i], r[j]) >= 0
    {
      if i < p && j == p {
        NewerThan(e, s[i], s[i], f);
      } else if i == p {
        NewerThan(e, s[p], s[j - 1], f);
      }
    }
  }

  // ---- any sequence of additions ----

  function AddedAll(es: seq<Ebuild>): (r: seq<Ebuild>)
    requires AllStored(es)
    ensures AllStored(r) && |r| == |es|
  {
    if es == [] then [] else Added(AddedAll(es[..|es| - 1]), es[|es| - 1])
  }

  /** The ebuilds of `s` whose version compares equal to `v`, in order. */
  function OfVersion(s: seq<Ebuild>, v: AtomVersion): seq<Ebuild>
    requires AllStored(s) && WellFormed(v)
  {
    if s == [] then []
    else
      var front := OfVersion(s[..|s| - 1], v);
      if Compare(s[|s| - 1].version, v) == 0 then front + [s[|s| - 1]] else front
  }

  lemma {:induction false} OfVersionConcat(s: seq<Ebuild>, t: seq<Ebuild>, v: AtomVersion)
    requires AllStored(s) && AllStored(t) && WellFormed(v)
    ensures OfVersion(s + t, v) == OfVersion(s, v) + OfVersion(t, v)
  {
    hide Compare, Stored, WellFormed;
    if t == [] {
      assert s + t == s;
    } else {
      var front, last := t[..|t| - 1], t[|t| - 1];
      OfVersionConcat(s, front, v);
      assert (s + t)[..|s + t| - 1] == s + front && (s + t)[|s + t| - 1] == last;
    }
  }

  lemma {:induction false} NoneOfVersion(s: seq<Ebuild>, v: AtomVersion)
    requires AllStored(s) && WellFormed(v) && forall i :: 0 <= i < |s| ==> Compare(s[i].version, v) != 0
    ensures OfVersion(s, v) == []
  {
    hide Compare, Stored, WellFormed;
    if s != [] {
      NoneOfVersion(s[..|s| - 1], v);
    }
  }

  lemma OfVersionInserted(s: seq<Ebuild>, p: nat, e: Ebuild, v: AtomVersion)
    requires AllStored(s) && Stored(e) && WellFormed(v) && p <= |s|
    ensures OfVersion(s[..p] + [e] + s[p..], v) == OfVersion(s[..p], v) + OfVersion([e], v) + OfVersion(s[p..], v)
    ensures OfVersion(s, v) == OfVersion(s[..p], v) + OfVersion(s[p..], v)
    ensures OfVersion(s + [e], v) == OfVersion(s, v) + OfVersion([e], v)
  {
    hide OfVersion, Stored, WellFormed;
    OfVersionConcat(s[..p] + [e], s[p..], v);
    OfVersionConcat(s[..p], [e], v);
    OfVersionConcat(s[..p], s[p..], v);
    OfVersionConcat(s, [e], v);
    assert s[..p] + s[p..] == s;
  }

  /** Behind the place of `e` nothing has a version equal to that of `e`. */
  lemma NothingEqualBehind(s: seq<Ebuild>, e: Ebuild, v: AtomVersion, f: Family)
    requires AllStored(s) && Stored(e) && AllIn(s, f) && InFamily(e.version, f) && InFamily(v, f) && NewestFirst(s)
    requires Compare(e.version, v) == 0
    ensures OfVersion(s[PlaceFor(s, e, 0)..], v) == []
  {
    hide InFamily, Stored, Compare, OfVersion;
    var p := PlaceFor(s, e, 0);
    PlaceIsFirst(s, e, 0);
    forall i | p <= i < |s|
      ensures Compare(s[i].version, v) != 0
    {
      FamilyReflexive(s[i].version, f);
      NewerThan(e, s[p], s[i], f);
      FamilyPreorder(s[i].version, v, e.version, f);
      FamilyAntisymmetric(s[i].version, e.version, f);
      FamilyAntisymmetric(e.version, v, f);
    }
    NoneOfVersion(s[p..], v);
  }

  /** An added ebuild comes after those of an equal version, which keep their order. */
  lemma AddedStable(s: seq<Ebuild>, e: Ebuild, v: AtomVersion, f: Family)
    requires AllStored(s) && Stored(e) && AllIn(s, f) && InFamily(e.version, f) && InFamily(v, f) && NewestFirst(s)
    ensures OfVersion(Added(s, e), v) == OfVersion(s + [e], v)
  {
    hide InFamily, Stored, Compare, NewestFirst, PlaceFor, OfVersion;
    OfVersionInserted(s, PlaceFor(s, e, 0), e, v);
    if Compare(e.version, v) == 0 {
      NothingEqualBehind(s, e, v, f);
    } else {
      NoneOfVersion([e], v);
    }
  }

  lemma EmptyNewestFirst()
    ensures NewestFirst([])
  {
  }

  lemma AddedPermutes(s: seq<Ebuild>, e: Ebuild)
    requires AllStored(s) && Stored(e)
    ensures multiset(Added(s, e)) == multiset(s) + multiset{e}
  {
    hide Stored, PlaceFor;
    var p := PlaceFor(s, e, 0);
    assert s == s[..p] + s[p..];
  }

  lemma {:induction false} AddedAllPermutes(es: seq<Ebuild>)
    requires AllStored(es)
    ensures multiset(AddedAll(es)) == multiset(es)
  {
    hide Stored, Added;
    if es == [] {
    } else {
      AddedAllPermutes(es[..|es| - 1]);
      AddedPermutes(AddedAll(es[..|es| - 1]), es[|es| - 1]);
      assert es == es[..|es| - 1] + [es[|es| - 1]];
    }
  }

  lemma {:induction false} AddedAllSorted(es: seq<Ebuild>, f: Family)
    requires AllStored(es) && AllIn(es, f)
    ensures AllIn(AddedAll(es), f) && NewestFirst(AddedAll(es))
  {
    hide InFamily, Stored, Compare, NewestFirst, Added;
    if es == [] {
      EmptyNewestFirst();
    } else {
      var front, last := es[..|es| - 1], es[|es| - 1];
      AddedAllSorted(front, f);
      AddedNewestFirst(AddedAll(front), last, f);
    }
  }

  lemma {:induction false} AddedAllStable(es: seq<Ebuild>, v: AtomVersion, f: Family)
    requires AllStored(es) && AllIn(es, f) && InFamily(v, f)
    ensures OfVersion(AddedAll(es), v) == OfVersion(es, v)
  {
    hide InFamily, Stored, Compare, OfVersion, NewestFirst, Added;
    if es == [] {
      assert AddedAll(es) == es;
    } else {
      var front, last := es[..|es| - 1], es[|es| - 1];
      AddedAllStable(front, v, f);
      AddedAllSorted(front, f);
      AddedStable(AddedAll(front), last, v, f);
      OfVersionConcat(AddedAll(front), [last], v);
      OfVersionConcat(front, [last], v);
      assert es == front + [last];
    }
  }

  /** However ebuilds are added, the list is a rearrangement of them, newest first, that keeps
      those of equal version in the order they were added. */
  lemma AddedAllOrder(es: seq<Ebuild>, f: Family)
    requires AllStored(es) && AllIn(es, f)
    ensures NewestFirst(AddedAll(es)) && multiset(AddedAll(es)) == multiset(es)
    ensures forall v :: InFamily(v, f) ==> OfVersion(AddedAll(es), v) == OfVersion(es, v)
  {
    hide InFamily, OfVersion, AddedAll, NewestFirst;
    AddedAllSorted(es, f);
    AddedAllPermutes(es);
    forall v | InFamily(v, f)
      ensures OfVersion(AddedAll(es), v) == OfVersion(es, v)
    {
      AddedAllStable(es, v, f);
    }
  }

  // ---- searching for an atom ----

  /** Whether an ebuild that compares like this with the version of the atom is in its range. */
  predicate InRange(compare: int, range: Range) {
    (compare == 0 && range.equal) || (compare > 0 && range.greater) || (compare < 0 && range.less)
  }

  predicate Matches(e: Ebuild, atom: Atom)
    requires Stored(e) && Fits(atom.version)
  {
    InRange(Compare(e.version, atom.version), atom.range)
  }

  /** What is written in front of an atom: `>=`, `<=`, `=`, `>`, `~`, `<`, or nothing. */
  datatype VersionOperator = NotBefore | NotAfter | Exactly | After | AnyRevision | Before | Anything

  /** The bits the grammar gives the atom; `~` has one more, which no comparison looks at. */
  function RangeOf(op: VersionOperator): Range {
    match op
    case NotBefore => Range(true, false, true)
    case NotAfter => Range(true, true, false)
    case Exactly => Range(true, false, false)
    case After => Range(false, false, true)
    case AnyRevision => Range(true, false, false)
    case Before => Range(false, true, false)
    case Anything => Range(true, true, true)
  }

  /** What the operator is documented to require. */
  predicate Documented(op: VersionOperator, e: AtomVersion, v: AtomVersion)
    requires Fits(e) && Fits(v)
  {
    match op
    case NotBefore => Compare(e, v) >= 0
    case NotAfter => Compare(e, v) <= 0
    case Exactly => Compare(e, v) == 0
    case After => Compare(e, v) > 0
    case AnyRevision => Compare(e.(revision := v.revision), v) == 0
    case Before => Compare(e, v) < 0
    case Anything => true
  }

  /** Every operator but `~` matches as documented, for all versions. */
  lemma OperatorMatches(e: Ebuild, atom: Atom, op: VersionOperator)
    requires Stored(e) && Fits(atom.version) && op != AnyRevision && atom.range == RangeOf(op)
    ensures Matches(e, atom) <==> Documented(op, e.version, atom.version)
  {
    hide Compare, Fits;
  }

  /** `~` does so exactly if the revisions are equal, or the versions differ in more than the revision: it never
      matches another revision of the version it names, nor does the test on a single ebuild. */
  lemma AnyRevisionExactly(e: Ebuild, atom: Atom)
    requires Stored(e) && Plain(e.version) && Plain(atom.version) && atom.range == RangeOf(AnyRevision)
    ensures var same := Compare(e.version.(revision := atom.version.revision), atom.version) == 0;
      (Matches(e, atom) <==> Documented(AnyRevision, e.version, atom.version))
      <==> !same || e.version.revision == atom.version.revision
    ensures AtomMatches(atom, e) && atom.key == e.packageKey ==> e.version.revision == atom.version.revision
  {
    hide Compare, Fits, Plain;
    RevisionBreaksTies(e.version, atom.version);
    Antisymmetric(e.version, atom.version);
  }

  /** The walk, from place `i` on: the first match, unless an ebuild above the version of an atom
      that does not ask for older ones ends it before. */
  function Search(s: seq<Ebuild>, i: nat, atom: Atom): (r: Option<Ebuild>)
    requires AllStored(s) && Fits(atom.version)
    ensures r.Some? ==> r.value in s && Matches(r.value, atom)
    decreases |s| - i
  {
    if i >= |s| then None
    else if Matches(s[i], atom) then Some(s[i])
    else if Compare(s[i].version, atom.version) > 0 && !atom.range.less then None
    else Search(s, i + 1, atom)
  }

  /** `e` matches, and nothing that matches is newer. */
  ghost predicate NewestMatch(s: seq<Ebuild>, atom: Atom, e: Ebuild)
    requires AllStored(s) && Fits(atom.version)
  {
    e in s && Matches(e, atom) && forall f <- s :: Matches(f, atom) ==> Stored(e) && Versus(e, f) >= 0
  }

  ghost predicate NoMatch(s: seq<Ebuild>, atom: Atom)
    requires AllStored(s) && Fits(atom.version)
  {
    forall f <- s :: !Matches(f, atom)
  }

  /** If the atom asks for older or newer versions, the walk ends at the first match. */
  lemma {:induction false} SearchIsFirst(s: seq<Ebuild>, i: nat, atom: Atom)
    requires AllStored(s) && Fits(atom.version) && (atom.range.less || atom.range.greater)
    ensures var r := Search(s, i, atom);
      if r.None? then forall j :: i <= j < |s| ==> !Matches(s[j], atom)
      else exists j :: i <= j < |s| && s[j] == r.value && forall k :: i <= k < j ==> !Matches(s[k], atom)
    decreases |s| - i
  {
    hide Compare, Stored, Fits;
    if i < |s| && !Matches(s[i], atom) {
      SearchIsFirst(s, i + 1, atom);
    }
  }

  /** On a list newest first the walk agrees with an exhaustive search for a newest match. */
  lemma SearchFindsNewest(s: seq<Ebuild>, atom: Atom, f: Family)
    requires AllStored(s) && AllIn(s, f) && NewestFirst(s)
    requires Fits(atom.version) && (atom.range.less || atom.range.greater)
    ensures var r := Search(s, 0, atom);
      if r.None? then NoMatch(s, atom) else NewestMatch(s, atom, r.value)
  {
    hide Compare, Stored, Fits, InFamily, Search, Matches;
    SearchIsFirst(s, 0, atom);
    var r := Search(s, 0, atom);
    if r.Some? {
      var j :| 0 <= j < |s| && s[j] == r.value && forall k :: 0 <= k < j ==> !Matches(s[k], atom);
      FamilyReflexive(s[j].version, f);
      forall e | e in s && Matches(e, atom)
        ensures Versus(r.value, e) >= 0
      {
        var k :| 0 <= k < |s| && s[k] == e;
      }
    }
  }

  predicate OnlyEqual(range: Range) {
    range.equal && !range.less && !range.greater
  }

  /** Asking for one version looks at the newest ebuild only. */
  lemma {:induction false} SearchForOne(s: seq<Ebuild>, i: nat, atom: Atom, f: Family)
    requires AllStored(s) && AllIn(s, f) && NewestFirst(s) && FitsFamily(atom.version, f) && OnlyEqual(atom.range)
    requires i <= |s| && (i > 0 ==> Compare(s[0].version, atom.version) < 0)
    ensures Search(s, i, atom)
         == if i == 0 < |s| && Compare(s[0].version, atom.version) == 0 then Some(s[0]) else None
    decreases |s| - i
  {
    hide Compare, Stored, Fits, InFamily;
    if i < |s| {
      if i > 0 {
        FamilyMonotone(s[0].version, s[i].version, atom.version, f);
      }
      if Compare(s[i].version, atom.version) < 0 {
        SearchForOne(s, i + 1, atom, f);
      }
    }
  }

  /** Asking for one version misses it exactly when a newer ebuild heads the list and one of that
      version follows: the guard of the short circuit tests for too new, not for too old. */
  lemma SearchForOneExact(s: seq<Ebuild>, atom: Atom, f: Family)
    requires AllStored(s) && AllIn(s, f) && NewestFirst(s) && FitsFamily(atom.version, f) && OnlyEqual(atom.range)
    ensures Search(s, 0, atom)
         == if s != [] && Compare(s[0].version, atom.version) == 0 then Some(s[0]) else None
    ensures !NoMatch(s, atom) ==> s != [] && (Search(s, 0, atom) == None <==> Compare(s[0].version, atom.version) > 0)
  {
    hide Compare, Stored, Fits, InFamily, Search;
    SearchForOne(s, 0, atom, f);
    if s != [] && Compare(s[0].version, atom.version) < 0 {
      forall e | e in s
        ensures !Matches(e, atom)
      {
        var k :| 0 <= k < |s| && s[k] == e;
        FamilyReflexive(s[0].version, f);
        FamilyMonotone(s[0].version, s[k].version, atom.version, f);
      }
    }
  }

  /** Version 1 behind version 2: `=1` gives nothing, although version 1 matches. */
  lemma EqualIsMissed(newer: Ebuild, older: Ebuild, id: nat)
    requires Stored(newer) && Stored(older) && Plain(newer.version) && Plain(older.version) && Versus(newer, older) > 0
    ensures var atom := Atom(older.packageKey, id, older.version, Range(true, false, false));
      Matches(older, atom) && NewestFirst([newer, older]) && Search([newer, older], 0, atom) == None
  {
    hide Compare, Plain, Fits;
    Reflexive(older.version);
  }

  // ---- what iterating over a package yields ----

  /** Asked for the next ebuild, the newest one gives the one behind it, every time. */
  function Yielded(list: seq<Ebuild>): Option<Ebuild> {
    if |list| > 1 then Some(list[1]) else None
  }

  /** The test on a single ebuild compares the other way round, and its key as well. */
  predicate AtomMatches(atom: Atom, target: Ebuild)
    requires Stored(target) && Fits(atom.version)
  {
    if atom.key != target.packageKey then false
    else
      var versionCompare := Compare(atom.version, target.version);
      if versionCompare == 0 then atom.range.equal
      else if versionCompare > 0 then atom.range.less
      else atom.range.greater
  }

  /** Both tests agree on an ebuild of the atom's key if and only if its version and the atom's do not
      clash, or the atom asks for older and newer ones alike. */
  lemma TestsAgreeExactly(atom: Atom, e: Ebuild)
    requires Stored(e) && Mixed(e.version) && Numbered(atom.version) && atom.key == e.packageKey
    ensures Numbered(e.version)
    ensures (AtomMatches(atom, e) <==> Matches(e, atom))
      <==> ClashFree(e.version, atom.version, 0) || atom.range.less == atom.range.greater
  {
    hide Compare, Mixed, Numbered, Fits, ClashFree;
    TurnsRoundExactly(e.version, atom.version);
  }

  /** Against an atom without letters they agree, a starred version included. */
  lemma TestsAgree(atom: Atom, e: Ebuild)
    requires Stored(e) && Mixed(e.version) && Pattern(atom.version)
    ensures AtomMatches(atom, e) <==> atom.key == e.packageKey && Matches(e, atom)
  {
    hide Compare, Mixed, Pattern, Fits, ClashFree;
    TurnsAgainstPattern(e.version, atom.version);
  }

  function At(s: seq<Ebuild>, j: nat): Ebuild? {
    if j < |s| then s[j] else null
  }

  /** Following `older` from `head` visits exactly `s`. */
  ghost predicate Linked(head: Ebuild?, s: seq<Ebuild>)
    reads s
  {
    head == At(s, 0) && forall j :: 0 <= j < |s| ==> s[j].older == At(s, j + 1)
  }

  lemma InsertedAt(s: seq<Ebuild>, i: nat, e: Ebuild)
    requires i <= |s| && NoDup(s) && e !in s
    ensures var r := s[..i] + [e] + s[i..];
      && NoDup(r) && |r| == |s| + 1 && r[i] == e
      && (forall j :: 0 <= j < i ==> r[j] == s[j])
      && (forall j :: i < j < |r| ==> r[j] == s[j - 1])
      && At(r, 0) == (if i == 0 then e else At(s, 0)) && At(r, i) == e && At(r, i + 1) == At(s, i)
      && (forall j :: 0 <= j < i ==> At(r, j) == At(s, j))
      && (forall j :: i < j <= |r| ==> At(r, j) == At(s, j - 1))
  {
  }

  lemma OnlyAt(s: seq<Ebuild>, i: nat)
    requires NoDup(s) && i < |s|
    ensures forall j :: 0 <= j < |s| && s[j] == s[i] ==> j == i
  {
  }

  datatype AddError = AlreadyInPackage

  class Package {
    const key: string
    const packageId: nat
    var ebuilds: Ebuild?
    ghost var list: seq<Ebuild>

    ghost predicate Valid()
      reads this, list
    {
      AllStored(list) && Linked(ebuilds, list) && NoDup(list) && forall i :: 0 <= i < |list| ==> list[i].package == this
    }

    constructor (key: string, packageId: nat)
      ensures Valid() && list == [] && this.key == key && this.packageId == packageId
    {
      this.key, this.packageId, ebuilds, list := key, packageId, null, [];
    }

    /** Relinks around the place found; a second addition of an ebuild is refused. The test for the
        ebuild itself inside the walk never succeeds, since every ebuild of the list has a package. */
    method AddEbuild(ebuild: Ebuild) returns (r: Result<(), AddError>)
      requires Valid() && Stored(ebuild)
      modifies this, ebuild, list
      ensures Valid()
      ensures old(ebuild.package) != null ==>
        r == Err(AlreadyInPackage) && list == old(list) && ebuild.package == old(ebuild.package)
      ensures old(ebuild.package) == null ==> r.Ok? && list == Added(old(list), ebuild)
    {
      hide Stored, Versus;
      if ebuild.package != null {
        return Err(AlreadyInPackage);
      }
      var last: Ebuild? := null;
      var current := ebuilds;
      ghost var i := 0;
      while current != null
        invariant i <= |list| && current == At(list, i) && last == if i == 0 then null else list[i - 1]
        invariant PlaceFor(list, ebuild, 0) == PlaceFor(list, ebuild, i)
        modifies {}
        decreases |list| - i
      {
        assert current != ebuild;
        var newer := IsNewer(ebuild, current);
        if newer {
          break;
        }
        last := current;
        current, i := current.older, i + 1;
      }
      LinkAt(ebuild, last, current, i);
      return Ok(());
    }

    static method IsNewer(ebuild: Ebuild, current: Ebuild) returns (newer: bool)
      requires Stored(ebuild) && Stored(current)
      ensures newer <==> Versus(ebuild, current) > 0
    {
      hide Compare, BuffersSuffice;
      FitsSuffices(ebuild.version, current.version);
      var compare := AtomVersionCompare(ebuild.version, current.version);
      newer := compare > 0;
    }

    /** Puts `ebuild` between `last` and `current`. */
    method LinkAt(ebuild: Ebuild, last: Ebuild?, current: Ebuild?, ghost i: nat)
      requires Valid() && Stored(ebuild) && ebuild.package == null
      requires i <= |list| && current == At(list, i) && last == if i == 0 then null else list[i - 1]
      modifies this, ebuild, list
      ensures Valid() && list == old(list[..i] + [ebuild] + list[i..])
    {
      hide Stored, NoDup, At;
      assert ebuild !in list;
      InsertedAt(list, i, ebuild);
      if i > 0 {
        OnlyAt(list, i - 1);
      }
      ebuild.older := current;
      if last == null {
        ebuilds := ebuild;
      } else {
        last.older := ebuild;
      }
      ebuild.package := this;
      list := list[..i] + [ebuild] + list[i..];
    }

    /** One turn of iterating over the package: the iterator is the newest ebuild, and it stays. */
    method Next() returns (r: Option<Ebuild>)
      requires Valid() && ebuilds != null
      ensures r == Yielded(list)
    {
      var head := ebuilds;
      r := if head.older == null then None else Some(head.older);
    }

    /** Walks the list for the first ebuild in the atom's range, with the early exit. */
    method MatchAtom(atom: Atom) returns (r: Option<Ebuild>)
      requires Valid() && Fits(atom.version)
      ensures r == Search(list, 0, atom)
    {
      hide Compare, BuffersSuffice;
      var current := ebuilds;
      ghost var i := 0;
      while current != null
        invariant i <= |list| && current == At(list, i) && Search(list, 0, atom) == Search(list, i, atom)
        modifies {}
        decreases |list| - i
      {
        FitsSuffices(current.version, atom.version);
        var compare := AtomVersionCompare(current.version, atom.version);
        if (compare == 0 && atom.range.equal) || (compare > 0 && atom.range.greater)
           || (compare < 0 && atom.range.less) {
          return Some(current);
        }
        if compare > 0 && !atom.range.less {
          break;
        }
        current, i := current.older, i + 1;
      }
      return None;
    }
  }
}
