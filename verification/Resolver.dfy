/** Resolution: atoms select ebuilds, selected ebuilds generate their dependencies, and a session
    remembers what has been resolved. */
module Resolver {
  import opened Wrappers
  import opened EbuildMetadata
  import opened UseFlags
  import opened AtomFlags
  import opened Packages
  import AtomVersions
  import LetteredVersions
  import RequiredUses
  import Portages

  datatype Failure =
    | NoPackage(key: Portages.KeyError)
    | NoEbuild(atom: Atom)
    | NotSelected
    | Unreadable(ebuild: Ebuild)
    | BadOperator
    | FlagFailure(error: UseFlags.Error)
    | RequirementFailure(reason: RequirementError)

  type Graph = map<SelectedEbuild, seq<SelectedEbuild>>

  type Place = (string, Option<string>)

  /** By package key, the selected ebuilds in the order in which their slots were selected. */
  type Slots = map<string, seq<SelectedEbuild>>

  // ---- the shape of a session ----

  /** Nobody is regenerated twice, and the session is exactly those regenerated. */
  ghost predicate IsLogOf(log: seq<SelectedEbuild>, session: set<SelectedEbuild>) {
    && (forall i, j :: 0 <= i < j < |log| ==> log[i] != log[j])
    && (forall n <- log :: n in session)
    && (forall n <- session :: n in log)
  }

  /** Everything generated by those regenerated from place `from` on is in the session. */
  ghost predicate Closed(graph: Graph, log: seq<SelectedEbuild>, from: nat, session: set<SelectedEbuild>) {
    forall i :: from <= i < |log| ==> log[i] in graph && forall g <- graph[log[i]] :: g in session
  }

  ghost predicate GeneratedBefore(graph: Graph, log: seq<SelectedEbuild>, from: nat, i: nat)
    requires i < |log|
  {
    exists j :: from <= j < i && log[j] in graph && log[i] in graph[log[j]]
  }

  /** The first one regenerated from place `from` on is `head`, and all others were generated by an
      earlier one. */
  ghost predicate Discovered(graph: Graph, log: seq<SelectedEbuild>, from: nat, head: SelectedEbuild) {
    && (from < |log| ==> log[from] == head)
    && forall i :: from < i < |log| ==> GeneratedBefore(graph, log, from, i)
  }

  ghost predicate Agree(a: Graph, b: Graph, on: set<SelectedEbuild>) {
    forall n <- on :: n in a && n in b && a[n] == b[n]
  }

  lemma LogAppend(log: seq<SelectedEbuild>, session: set<SelectedEbuild>, n: SelectedEbuild)
    requires IsLogOf(log, session - {n}) && n in session
    ensures IsLogOf(log + [n], session)
  {
  }

  lemma ClosedLater(a: Graph, b: Graph, log: seq<SelectedEbuild>, from: nat, s: set<SelectedEbuild>,
                    more: seq<SelectedEbuild>, t: set<SelectedEbuild>)
    requires Closed(a, log, from, s) && from <= |log| && s <= t && log <= more && Closed(b, more, |log|, t)
    requires forall n <- log :: n in s
    requires Agree(a, b, s)
    ensures Closed(b, more, from, t)
  {
    forall i | from <= i < |more|
      ensures more[i] in b && forall g <- b[more[i]] :: g in t
    {
      if i < |log| {
        assert more[i] == log[i] && log[i] in log;
      }
    }
  }

  lemma DiscoveredLater(a: Graph, b: Graph, log: seq<SelectedEbuild>, from: nat, head: SelectedEbuild,
                        more: seq<SelectedEbuild>, next: SelectedEbuild)
    requires Discovered(a, log, from, head) && from < |log| && log <= more && Discovered(b, more, |log|, next)
    requires forall n <- log :: n in a && n in b && a[n] == b[n]
    requires next in a[head]
    ensures Discovered(b, more, from, head)
  {
    assert forall j :: 0 <= j < |log| ==> more[j] == log[j] && log[j] in log;
    forall i | from < i < |more|
      ensures GeneratedBefore(b, more, from, i)
    {
      if i < |log| {
        assert GeneratedBefore(a, log, from, i);
        var j :| from <= j < i && log[j] in a && log[i] in a[log[j]];
        assert more[j] in b && more[i] in b[more[j]];
      } else if i == |log| {
        assert more[from] in b && more[i] in b[more[from]];
      } else {
        assert GeneratedBefore(b, more, |log|, i);
      }
    }
  }

  /** What was regenerated from place `from` on has resolved all its generators, in order. */
  ghost predicate Refreshed(graph: Graph, resolved: Graph, log: seq<SelectedEbuild>, from: nat) {
    forall i :: from <= i < |log| ==> log[i] in graph && log[i] in resolved && resolved[log[i]] == graph[log[i]]
  }

  lemma RefreshedLater(a: Graph, b: Graph, ra: Graph, rb: Graph, log: seq<SelectedEbuild>, from: nat,
                       more: seq<SelectedEbuild>)
    requires Refreshed(a, ra, log, from) && from <= |log| && log <= more && Refreshed(b, rb, more, |log|)
    requires forall i :: from <= i < |log| ==> Same(a, b, log[i]) && Same(ra, rb, log[i])
    ensures Refreshed(b, rb, more, from)
  {
    forall i | from <= i < |more|
      ensures more[i] in b && more[i] in rb && rb[more[i]] == b[more[i]]
    {
      if i < |log| {
        assert more[i] == log[i] && Same(a, b, log[i]) && Same(ra, rb, log[i]);
      }
    }
  }

  ghost predicate Same(a: Graph, b: Graph, n: SelectedEbuild) {
    n in a && n in b && a[n] == b[n]
  }

  /** What a call to resolve `head` adds to the log, from place `from` on. */
  ghost predicate Resolved(graph: Graph, resolved: Graph, log: seq<SelectedEbuild>, session: set<SelectedEbuild>,
                           from: nat, head: SelectedEbuild) {
    && from <= |log|
    && Closed(graph, log, from, session) && Discovered(graph, log, from, head) && Refreshed(graph, resolved, log, from)
  }

  /** The same while `head`, at place `from`, has `i` of its generators resolved. */
  ghost predicate Partial(graph: Graph, resolved: Graph, log: seq<SelectedEbuild>, session: set<SelectedEbuild>,
                          from: nat, head: SelectedEbuild, i: nat) {
    && from < |log| && log[from] == head
    && Closed(graph, log, from + 1, session) && Discovered(graph, log, from, head)
    && Refreshed(graph, resolved, log, from + 1)
    && head in graph && head in resolved
    && i <= |graph[head]| && resolved[head] == graph[head][..i]
    && forall g <- graph[head][..i] :: g in session
  }

  lemma PartialBounds(graph: Graph, resolved: Graph, log: seq<SelectedEbuild>, session: set<SelectedEbuild>,
                      from: nat, head: SelectedEbuild, i: nat)
    requires Partial(graph, resolved, log, session, from, head, i)
    ensures from < |log| && head in graph && i <= |graph[head]|
  {
  }

  lemma PartialStart(graph: Graph, resolved: Graph, log: seq<SelectedEbuild>, session: set<SelectedEbuild>,
                     head: SelectedEbuild)
    requires head in graph && head in resolved && resolved[head] == []
    ensures Partial(graph, resolved, log + [head], session, |log|, head, 0)
  {
  }

  lemma PartialStep(g0: Graph, r0: Graph, log0: seq<SelectedEbuild>, s0: set<SelectedEbuild>,
                    g1: Graph, r1: Graph, log1: seq<SelectedEbuild>, s1: set<SelectedEbuild>,
                    from: nat, head: SelectedEbuild, i: nat)
    requires Partial(g0, r0, log0, s0, from, head, i) && i < |g0[head]| && g0[head][i] in s1
    requires IsLogOf(log0, s0) && IsLogOf(log1, s1) && log0 <= log1 && s0 <= s1
    requires Agree(g0, g1, s0) && Agree(r0, r1, s0)
    requires Resolved(g1, r1, log1, s1, |log0|, g0[head][i])
    ensures head in r1 && Partial(g1, r1[head := r1[head] + [g0[head][i]]], log1, s1, from, head, i + 1)
  {
    hide Closed, Discovered, Refreshed;
    var g := g0[head][i];
    assert log0[from] in log0 && forall k :: 0 <= k < |log0| ==> log0[k] in log0;
    assert g in g0[head];
    ClosedLater(g0, g1, log0, from + 1, s0, log1, s1);
    DiscoveredLater(g0, g1, log0, from, head, log1, g);
    RefreshedLater(g0, g1, r0, r1, log0, from + 1, log1);
    RefreshedElsewhere(g1, r1, log1, from + 1, head, r1[head] + [g]);
    assert g1[head][..i + 1] == g0[head][..i] + [g];
  }

  lemma RefreshedElsewhere(graph: Graph, resolved: Graph, log: seq<SelectedEbuild>, from: nat, n: SelectedEbuild,
                           deps: seq<SelectedEbuild>)
    requires Refreshed(graph, resolved, log, from) && forall i :: from <= i < |log| ==> log[i] != n
    ensures Refreshed(graph, resolved[n := deps], log, from)
  {
  }

  lemma PartialDone(graph: Graph, resolved: Graph, log: seq<SelectedEbuild>, session: set<SelectedEbuild>,
                    from: nat, head: SelectedEbuild)
    requires head in graph && Partial(graph, resolved, log, session, from, head, |graph[head]|)
    ensures Resolved(graph, resolved, log, session, from, head)
  {
    assert graph[head][..|graph[head]|] == graph[head];
  }

  lemma AgreeTwice(a: Graph, b: Graph, c: Graph, s: set<SelectedEbuild>, t: set<SelectedEbuild>)
    requires Agree(a, b, s) && Agree(b, c, t) && s <= t
    ensures Agree(a, c, s)
  {
  }

  lemma AgreeAt(a: Graph, b: Graph, s: set<SelectedEbuild>, n: SelectedEbuild)
    requires Agree(a, b, s) && n in s
    ensures n in a && n in b && a[n] == b[n]
  {
  }

  lemma AgreeUpdated(a: Graph, b: Graph, s: set<SelectedEbuild>, n: SelectedEbuild, deps: seq<SelectedEbuild>)
    requires Agree(a, b, s)
    ensures Agree(a, b[n := deps], s - {n})
  {
  }

  /** Flags may have been added everywhere, and none has changed. */
  ghost predicate Grown(before: map<SelectedEbuild, Flags>, after: map<SelectedEbuild, Flags>) {
    forall n <- before :: n in after && Extends(after[n], before[n])
  }

  lemma GrownTwice(a: map<SelectedEbuild, Flags>, b: map<SelectedEbuild, Flags>, c: map<SelectedEbuild, Flags>)
    requires Grown(a, b) && Grown(b, c)
    ensures Grown(a, c)
  {
  }

  lemma GrownNot(a: map<SelectedEbuild, Flags>)
    ensures Grown(a, a)
  {
  }

  /** Whoever is in the session at the end was there before or is reached from `head` by generators. */
  ghost predicate Reaches(graph: Graph, head: SelectedEbuild, n: SelectedEbuild, steps: nat) {
    n == head || (steps > 0 && exists m :: m in graph && n in graph[m] && Reaches(graph, head, m, steps - 1))
  }

  ghost predicate IsReached(graph: Graph, head: SelectedEbuild, n: SelectedEbuild) {
    exists steps: nat :: Reaches(graph, head, n, steps)
  }

  lemma {:induction false} ReachesMore(graph: Graph, head: SelectedEbuild, n: SelectedEbuild, k: nat, steps: nat)
    requires Reaches(graph, head, n, k) && k <= steps
    ensures Reaches(graph, head, n, steps)
  {
    if n != head {
      var m :| m in graph && n in graph[m] && Reaches(graph, head, m, k - 1);
      ReachesMore(graph, head, m, k - 1, steps - 1);
    }
  }

  lemma {:induction false} DiscoveredReaches(graph: Graph, log: seq<SelectedEbuild>, from: nat, head: SelectedEbuild, i: nat)
    requires Discovered(graph, log, from, head) && from <= i < |log|
    ensures Reaches(graph, head, log[i], i - from)
    decreases i
  {
    if i > from {
      assert GeneratedBefore(graph, log, from, i);
      var j :| from <= j < i && log[j] in graph && log[i] in graph[log[j]];
      DiscoveredReaches(graph, log, from, head, j);
      ReachesMore(graph, head, log[j], j - from, i - from - 1);
    }
  }

  lemma {:induction false} ClosedHoldsReached(graph: Graph, session: set<SelectedEbuild>, head: SelectedEbuild,
                                              n: SelectedEbuild, steps: nat)
    requires forall m <- session :: m in graph && forall g <- graph[m] :: g in session
    requires head in session && Reaches(graph, head, n, steps)
    ensures n in session
  {
    if n != head {
      var m :| m in graph && n in graph[m] && Reaches(graph, head, m, steps - 1);
      ClosedHoldsReached(graph, session, head, m, steps - 1);
    }
  }

  /** A call that starts with an empty session ends with exactly what `head` reaches by generators. */
  lemma SessionIsWhatIsReached(graph: Graph, resolved: Graph, log: seq<SelectedEbuild>, session: set<SelectedEbuild>,
                               head: SelectedEbuild)
    requires IsLogOf(log, session) && head in session && Resolved(graph, resolved, log, session, 0, head)
    ensures forall n :: n in session <==> IsReached(graph, head, n)
  {
    forall n
      ensures n in session <==> IsReached(graph, head, n)
    {
      if n in session {
        var i :| 0 <= i < |log| && log[i] == n;
        DiscoveredReaches(graph, log, 0, head, i);
        assert IsReached(graph, head, n);
      } else if IsReached(graph, head, n) {
        var steps: nat :| Reaches(graph, head, n, steps);
        assert forall m <- session :: m in log;
        ClosedHoldsReached(graph, session, head, n, steps);
      }
    }
  }

  // ---- how many places there are ----

  /** One for each package: an ebuild is selected before its slot is known, and no second one follows. */
  function Places(universe: map<Ebuild, Metadata>): set<Place> {
    set e <- universe :: (e.packageKey, None)
  }

  ghost predicate OnePerPlace(nodes: set<SelectedEbuild>, places: set<Place>) {
    && (forall n <- nodes :: n.place in places)
    && (forall m, n :: m in nodes && n in nodes && m.place == n.place ==> m == n)
  }

  lemma {:induction false} NoMoreThanPlaces(nodes: set<SelectedEbuild>, places: set<Place>)
    requires OnePerPlace(nodes, places)
    ensures |nodes| <= |places|
    decreases |nodes|
  {
    if nodes != {} {
      var n :| n in nodes;
      NoMoreThanPlaces(nodes - {n}, places - {n.place});
    }
  }

  lemma RoomInSession(session: set<SelectedEbuild>, nodes: set<SelectedEbuild>, n: SelectedEbuild, places: set<Place>)
    requires session <= nodes && n in nodes && n !in session && OnePerPlace(nodes, places)
    ensures |session| < |session + {n}| <= |places|
  {
    NoMoreThanPlaces(session + {n}, places);
  }

  lemma FewerOnePerPlace(session: set<SelectedEbuild>, nodes: set<SelectedEbuild>, places: set<Place>)
    requires session <= nodes && OnePerPlace(nodes, places)
    ensures OnePerPlace(session, places)
  {
  }

  // ---- the index and the ebuilds it knows ----

  type Index = Atom -> Result<Option<Ebuild>, Portages.KeyError>

  /** What the index answers for the atom has the atom's key and passes the test on a single ebuild. */
  ghost predicate Reliable(portage: Index, universe: map<Ebuild, Metadata>, atom: Atom) {
    && AtomVersions.Fits(atom.version)
    && (portage(atom).Ok? && portage(atom).value.Some? ==>
          var e := portage(atom).value.value; e in universe && e.packageKey == atom.key && Passes(atom, e))
  }

  ghost predicate AllMixed(es: seq<Ebuild>) {
    forall i :: 0 <= i < |es| ==> LetteredVersions.Mixed(es[i].version)
  }

  /** The index of a repository is reliable for an atom if and only if what it answers does not clash with the
      atom's version, or the atom asks for older and newer ones alike; so it is for every atom without letters,
      whatever letters there are under its key. */
  lemma RepositoryIsReliable(indexed: seq<Ebuild>, atom: Atom)
    requires AllStored(Portages.OfKey(indexed, atom.key)) && AtomVersions.Fits(atom.version)
    ensures var r := Search(AddedAll(Portages.OfKey(indexed, atom.key)), 0, atom);
      r.Some? ==> r.value in indexed && r.value.packageKey == atom.key
    ensures var r := Search(AddedAll(Portages.OfKey(indexed, atom.key)), 0, atom);
      r.Some? && LetteredVersions.Mixed(r.value.version) && LetteredVersions.Numbered(atom.version) ==>
        LetteredVersions.Numbered(r.value.version) && (Passes(atom, r.value) <==> TurnsRound(atom, r.value))
    ensures var r := Search(AddedAll(Portages.OfKey(indexed, atom.key)), 0, atom);
      r.Some? && AllMixed(Portages.OfKey(indexed, atom.key)) && AtomVersions.Pattern(atom.version) ==> Passes(atom, r.value)
  {
    hide Search, AddedAll, Matches, AtomMatches, AtomVersions.Fits, AtomVersions.Pattern, LetteredVersions.ClashFree,
      LetteredVersions.Mixed, LetteredVersions.Numbered;
    var es := Portages.OfKey(indexed, atom.key);
    Portages.OfKeyMembers(indexed, atom.key);
    AddedAllPermutes(es);
    Portages.SameMembers(AddedAll(es), es);
    var r := Search(AddedAll(es), 0, atom);
    if r.Some? {
      assert r.value in es;
      if LetteredVersions.Mixed(r.value.version) && LetteredVersions.Numbered(atom.version) {
        TestsAgreeExactly(atom, r.value);
      }
      if AllMixed(es) && AtomVersions.Pattern(atom.version) {
        TestsAgree(atom, r.value);
      }
    }
  }

  ghost predicate TurnsRound(atom: Atom, e: Ebuild)
    requires LetteredVersions.Numbered(e.version) && LetteredVersions.Numbered(atom.version)
  {
    LetteredVersions.ClashFree(e.version, atom.version, 0) || atom.range.less == atom.range.greater
  }

  ghost predicate AllReliable(portage: Index, universe: map<Ebuild, Metadata>, depends: seq<Dependency>) {
    forall i :: 0 <= i < |depends| && depends[i].AtomDependency? ==> Reliable(portage, universe, depends[i].atom)
  }

  /** Each ebuild has a cache file of its own, and the index is reliable for every atom in one of them. */
  ghost predicate WellFormed(portage: Index, universe: map<Ebuild, Metadata>) {
    && (forall e <- universe :: Stored(e))
    && (forall d, e :: d in universe && e in universe && universe[d] == universe[e] ==> d == e)
    && forall e <- universe :: AllReliable(portage, universe, universe[e].depends)
  }

  predicate Passes(atom: Atom, e: Ebuild) {
    Stored(e) && AtomVersions.Fits(atom.version) && AtomMatches(atom, e)
  }

  /** The first selected ebuild that passes, in the order of selection. */
  function FirstPassing(atom: Atom, slots: seq<SelectedEbuild>): (r: Option<SelectedEbuild>)
    ensures r.Some? ==> r.value in slots && Passes(atom, r.value.ebuild)
    ensures r.None? ==> forall i :: 0 <= i < |slots| ==> !Passes(atom, slots[i].ebuild)
  {
    if slots == [] then None
    else if Passes(atom, slots[0].ebuild) then Some(slots[0])
    else FirstPassing(atom, slots[1..])
  }

  lemma SomeonePasses(atom: Atom, slots: seq<SelectedEbuild>, n: SelectedEbuild)
    requires n in slots && Passes(atom, n.ebuild)
    ensures FirstPassing(atom, slots).Some?
  {
    hide Passes;
  }

  lemma FirstPassingStep(atom: Atom, slots: seq<SelectedEbuild>, i: nat)
    requires i <= |slots|
    ensures FirstPassing(atom, slots[i..])
      == if i == |slots| then None
         else if Passes(atom, slots[i].ebuild) then Some(slots[i]) else FirstPassing(atom, slots[i + 1..])
  {
    if i < |slots| {
      assert slots[i..][0] == slots[i] && slots[i..][1..] == slots[i + 1..];
    }
  }

  // ---- a package that is selected already ----

  /** What becomes of an atom whose package is selected already. */
  datatype Outcome =
    | Chosen(n: SelectedEbuild)              // one that passes
    | Dropped                                // the slot is not known: nothing is selected
    | Added                                  // the slot is free: a second ebuild is selected
    | Changed(n: SelectedEbuild, to: Ebuild) // the ebuild in the slot makes way
    | Unsplittable                           // an exception
    | Endless                                // the loop over the package never ends

  function InSlot(slots: seq<SelectedEbuild>, slot: string): (r: Option<SelectedEbuild>)
    ensures r.Some? ==> r.value in slots && r.value.place.1 == Some(slot)
  {
    if slots == [] then None
    else if slots[0].place.1 == Some(slot) then Some(slots[0])
    else InSlot(slots[1..], slot)
  }

  datatype Change = Found(e: Ebuild) | Exhausted | Running

  /** The loop over the ebuilds of a package, newest first in `list`, after so many turns: the test of the new
      atom is overwritten by that of the atom that selected the ebuild in the slot. */
  function ChangeLoop(n: SelectedEbuild, list: seq<Ebuild>, turns: nat): Change {
    if turns == 0 then Running
    else
      match Yielded(list)
      case None => Exhausted
      case Some(e) => if Passes(n.selectedBy, e) then Found(e) else ChangeLoop(n, list, turns - 1)
  }

  ghost predicate NeverEnds(n: SelectedEbuild, list: seq<Ebuild>) {
    forall turns: nat :: ChangeLoop(n, list, turns) == Running
  }

  lemma {:induction false} LoopStays(n: SelectedEbuild, list: seq<Ebuild>, turns: nat)
    requires |list| > 1 && !Passes(n.selectedBy, list[1])
    ensures ChangeLoop(n, list, turns) == Running
  {
    hide Passes;
    if turns > 0 {
      LoopStays(n, list, turns - 1);
    }
  }

  /** The loop never ends exactly if there is a second newest ebuild and it fails; otherwise one turn is enough. */
  lemma NeverEndsExactly(n: SelectedEbuild, list: seq<Ebuild>)
    ensures NeverEnds(n, list) <==> |list| > 1 && !Passes(n.selectedBy, list[1])
    ensures !NeverEnds(n, list) ==>
      ChangeLoop(n, list, 1) == if |list| > 1 then Found(list[1]) else Exhausted
  {
    hide Passes;
    if |list| > 1 && !Passes(n.selectedBy, list[1]) {
      forall turns: nat
        ensures ChangeLoop(n, list, turns) == Running
      {
        LoopStays(n, list, turns);
      }
    } else {
      assert ChangeLoop(n, list, 0) == Running;
      assert ChangeLoop(n, list, 1) != Running;
    }
  }

  ghost function ChangeWithinSlot(n: SelectedEbuild, list: seq<Ebuild>): Outcome {
    if NeverEnds(n, list) then Endless
    else
      match ChangeLoop(n, list, 1)
      case Found(e) => Changed(n, e)
      case _ => Unsplittable
  }

  lemma ChangeIs(n: SelectedEbuild, list: seq<Ebuild>)
    ensures ChangeWithinSlot(n, list)
      == if |list| <= 1 then Unsplittable else if Passes(n.selectedBy, list[1]) then Changed(n, list[1]) else Endless
  {
    hide Passes, NeverEnds, ChangeLoop;
    NeverEndsExactly(n, list);
  }

  ghost function MatchOutcome(atom: Atom, slots: seq<SelectedEbuild>, slot: Option<string>, list: seq<Ebuild>): Outcome {
    match FirstPassing(atom, slots)
    case Some(n) => Chosen(n)
    case None =>
      match slot
      case None => Dropped
      case Some(name) =>
        match InSlot(slots, name)
        case None => Added
        case Some(n) => ChangeWithinSlot(n, list)
  }

  predicate HasSlot(slots: seq<SelectedEbuild>, name: string) {
    exists i :: 0 <= i < |slots| && slots[i].place.1 == Some(name)
  }

  lemma {:induction false} InSlotExactly(slots: seq<SelectedEbuild>, name: string)
    ensures InSlot(slots, name).Some? <==> HasSlot(slots, name)
  {
    if slots != [] {
      InSlotExactly(slots[1..], name);
      if HasSlot(slots, name) && slots[0].place.1 != Some(name) {
        var i :| 0 <= i < |slots| && slots[i].place.1 == Some(name);
        assert slots[1..][i - 1] == slots[i];
      }
      if HasSlot(slots[1..], name) {
        var i :| 0 <= i < |slots[1..]| && slots[1..][i].place.1 == Some(name);
        assert slots[i + 1] == slots[1..][i];
      }
    }
  }

  /** In any state: it never ends exactly if no selected ebuild passes, the slot is known and taken, and
      the package has a second newest ebuild that is not one for the atom that took the slot. */
  lemma EndlessExactly(atom: Atom, slots: seq<SelectedEbuild>, slot: Option<string>, list: seq<Ebuild>)
    ensures MatchOutcome(atom, slots, slot, list) == Endless <==>
      && (forall i :: 0 <= i < |slots| ==> !Passes(atom, slots[i].ebuild))
      && slot.Some? && InSlot(slots, slot.value).Some?
      && |list| > 1 && !Passes(InSlot(slots, slot.value).value.selectedBy, list[1])
  {
    hide Passes, InSlot, ChangeWithinSlot;
    if slot.Some? && InSlot(slots, slot.value).Some? {
      ChangeIs(InSlot(slots, slot.value).value, list);
    }
  }

  function Below(key: string, id: nat, v: AtomVersions.AtomVersion): Atom {
    Atom(key, id, v, Range(false, true, false))
  }

  function AtLeast(key: string, id: nat, v: AtomVersions.AtomVersion): Atom {
    Atom(key, id, v, Range(true, false, true))
  }

  /** With two ebuilds of one slot: `<new` selects the old one, and `>=new` is then answered with it too. */
  lemma ChangeMayNotPass(n: SelectedEbuild, older: Ebuild, newer: Ebuild, slot: string, id: nat)
    requires Stored(older) && Stored(newer) && older.packageKey == newer.packageKey
    requires AtomVersions.Plain(older.version) && AtomVersions.Plain(newer.version) && Versus(older, newer) < 0
    requires n.ebuild == older && n.place.1 == Some(slot) && n.selectedBy == Below(older.packageKey, id, newer.version)
    ensures MatchOutcome(AtLeast(older.packageKey, id, newer.version), [n], Some(slot), [newer, older]) == Changed(n, older)
    ensures !Passes(AtLeast(older.packageKey, id, newer.version), older)
  {
    hide AtomVersions.Compare, AtomVersions.Plain, AtomVersions.Fits, ChangeWithinSlot;
    ChangeIs(n, [newer, older]);
    AtomVersions.Antisymmetric(older.version, newer.version);
  }

  /** With the slot not known yet, the same atom is not answered at all. */
  lemma DependencyIsDropped(n: SelectedEbuild, older: Ebuild, newer: Ebuild, id: nat, list: seq<Ebuild>)
    requires Stored(older) && Stored(newer) && older.packageKey == newer.packageKey
    requires AtomVersions.Plain(older.version) && AtomVersions.Plain(newer.version) && Versus(older, newer) < 0
    requires n.ebuild == older && n.selectedBy == Below(older.packageKey, id, newer.version)
    ensures Passes(n.selectedBy, older)
    ensures MatchOutcome(AtLeast(older.packageKey, id, newer.version), [n], None, list) == Dropped
  {
    hide AtomVersions.Compare, AtomVersions.Plain, AtomVersions.Fits, ChangeWithinSlot;
    AtomVersions.Antisymmetric(older.version, newer.version);
  }

  /** And the other way round: `>=new` selects the new one, and `<new` is then never answered. */
  lemma ChangeMayNotEnd(n: SelectedEbuild, older: Ebuild, newer: Ebuild, slot: string, id: nat)
    requires Stored(older) && Stored(newer) && older.packageKey == newer.packageKey
    requires AtomVersions.Plain(older.version) && AtomVersions.Plain(newer.version) && Versus(older, newer) < 0
    requires n.ebuild == newer && n.place.1 == Some(slot) && n.selectedBy == AtLeast(older.packageKey, id, newer.version)
    ensures MatchOutcome(Below(older.packageKey, id, newer.version), [n], Some(slot), [newer, older]) == Endless
  {
    hide AtomVersions.Compare, AtomVersions.Plain, AtomVersions.Fits, ChangeWithinSlot;
    ChangeIs(n, [newer, older]);
    AtomVersions.Antisymmetric(older.version, newer.version);
    AtomVersions.Reflexive(newer.version);
  }

  // ---- the resolver ----

  class Emerge {
    const portage: Index
    const universe: map<Ebuild, Metadata>
    var selectedPackages: Slots
    var blocks: map<string, seq<Atom>>
    var session: set<SelectedEbuild>
    ghost var nodes: set<SelectedEbuild>
    /** Those regenerated in this session, in order. */
    ghost var log: seq<SelectedEbuild>

    /** A dependency of `n` that asks for `g`. */
    ghost predicate Justifies(depends: seq<Dependency>, i: nat, g: SelectedEbuild) {
      i < |depends| && depends[i].AtomDependency? && !depends[i].blocks && Passes(depends[i].atom, g.ebuild)
    }

    /** A dependency that asks for `g`, with the flags of `g` as it wants them. */
    ghost predicate Serves(depends: seq<Dependency>, i: nat, g: SelectedEbuild, use: Flags) {
      Justifies(depends, i, g) && AllFulfilled(use, Wishes(depends[i]))
    }

    function WishesOf(useflags: Option<seq<AtomFlag>>): seq<AtomFlag> {
      if useflags.Some? then useflags.value else []
    }

    function Wishes(dep: Dependency): seq<AtomFlag> {
      if dep.AtomDependency? then WishesOf(dep.useflags) else []
    }

    /** Requirements on an ebuild that was selected before, or has just been, while its flags were `use`: success
        exactly if they are admitted then, and the flags are what they make of them. */
    ghost predicate Required(r: Result<Option<SelectedEbuild>, Failure>, n: Option<SelectedEbuild>, ebuild: Ebuild,
                             use: Flags, wishes: seq<AtomFlag>)
      reads if r.Ok? && r.value.Some? then {r.value.value, r.value.value.metadata} else {}
    {
      && (r.Ok? <==> AdmitsAll(use, wishes))
      && (r.Ok? ==> r.value.Some? && r.value.value.ebuild == ebuild && r.value.value.Use() == Assumed(use, wishes))
      && (r.Ok? && n.Some? ==> r.value == n)
      && (r.Err? ==> r.error.RequirementFailure? && RefusedFor(use, wishes, r.error.reason))
    }

    /** What becomes of an atom that is not a block, by what was selected and which flags there were: the error of
        the index, a new selection, the first selected ebuild that passes, or nothing, which will not do if
        there are requirements on flags. */
    ghost predicate Comes(r: Result<Option<SelectedEbuild>, Failure>, atom: Atom, wishes: seq<AtomFlag>,
                          selected: Slots, uses: map<SelectedEbuild, Flags>)
      reads if r.Ok? && r.value.Some? then {r.value.value, r.value.value.metadata} else {}
    {
      match portage(atom)
      case Err(key) => r == Err(NoPackage(key))
      case Ok(None) => r == Err(NoEbuild(atom))
      case Ok(Some(e)) =>
        if atom.key !in selected then Required(r, None, e, map[], wishes)
        else
          match FirstPassing(atom, selected[atom.key])
          case None => r == if wishes == [] then Ok(None) else Err(NotSelected)
          case Some(n) => n in uses && Required(r, Some(n), n.ebuild, uses[n], wishes)
    }

    ghost predicate ServedBy(depends: seq<Dependency>, g: SelectedEbuild, use: Flags) {
      exists i: nat :: Serves(depends, i, g, use)
    }

    /** Every generator answers a dependency of the ebuild it belongs to, requirements on flags included. */
    ghost predicate Served(graph: Graph, uses: map<SelectedEbuild, Flags>) {
      forall n <- graph :: forall g <- graph[n] :: g in uses && ServedBy(n.metadata.depends, g, uses[g])
    }

    lemma ServedKept(g0: Graph, u0: map<SelectedEbuild, Flags>, g1: Graph, u1: map<SelectedEbuild, Flags>)
      requires Served(g0, u0) && Grown(u0, u1)
      requires forall n <- g1 :: (n in g0 && g1[n] == g0[n]) || g1[n] == []
      ensures Served(g1, u1)
    {
      hide AllFulfilled, Extends;
      forall n, g | n in g1 && g in g1[n]
        ensures g in u1 && ServedBy(n.metadata.depends, g, u1[g])
      {
        assert g in u0 && ServedBy(n.metadata.depends, g, u0[g]);
        var i: nat :| Serves(n.metadata.depends, i, g, u0[g]);
        FulfilledLater(u0[g], u1[g], Wishes(n.metadata.depends[i]));
        assert Serves(n.metadata.depends, i, g, u1[g]);
      }
    }

    lemma ServedMore(g0: Graph, u0: map<SelectedEbuild, Flags>, n: SelectedEbuild, g: SelectedEbuild, i: nat)
      requires Served(g0, u0) && n in g0 && g in u0 && Serves(n.metadata.depends, i, g, u0[g])
      ensures Served(g0[n := g0[n] + [g]], u0)
    {
      hide Serves;
    }

    // what a dependency comes to, by what is selected

    predicate Asks(dep: Dependency) {
      dep.AtomDependency? && !dep.blocks
    }

    /** Of the package of an atom that is not a block, the selected ebuild that passes. */
    ghost function Answer(dep: Dependency, selected: Slots): Option<SelectedEbuild> {
      if Asks(dep) && dep.atom.key in selected then FirstPassing(dep.atom, selected[dep.atom.key]) else None
    }

    /** Its package is selected, and there may be no answer only if there are no requirements on flags. */
    ghost predicate Settled(dep: Dependency, selected: Slots) {
      Asks(dep) ==> dep.atom.key in selected && (Answer(dep, selected).None? ==> Wishes(dep) == [])
    }

    ghost function Answers(depends: seq<Dependency>, selected: Slots): seq<SelectedEbuild> {
      if depends == [] then []
      else
        var front := Answers(depends[..|depends| - 1], selected);
        match Answer(depends[|depends| - 1], selected)
        case Some(n) => front + [n]
        case None => front
    }

    /** Every dependency is settled, and the generators are the answers, in order. */
    ghost predicate Covers(depends: seq<Dependency>, generators: seq<SelectedEbuild>, selected: Slots) {
      generators == Answers(depends, selected) && forall i :: 0 <= i < |depends| ==> Settled(depends[i], selected)
    }

    /** Packages may have been selected, and none has changed. */
    ghost predicate Keeps(selected: Slots, more: Slots) {
      forall key <- selected :: key in more && more[key] == selected[key]
    }

    lemma KeepsTwice(a: Slots, b: Slots, c: Slots)
      requires Keeps(a, b) && Keeps(b, c)
      ensures Keeps(a, c)
    {
    }

    lemma {:induction false} AnswersKept(depends: seq<Dependency>, selected: Slots,
                                         more: Slots)
      requires (forall i :: 0 <= i < |depends| ==> Settled(depends[i], selected)) && Keeps(selected, more)
      ensures Answers(depends, more) == Answers(depends, selected)
      ensures forall i :: 0 <= i < |depends| ==> Settled(depends[i], more)
    {
      hide FirstPassing;
      if depends != [] {
        var front := depends[..|depends| - 1];
        assert forall i :: 0 <= i < |front| ==> front[i] == depends[i];
        AnswersKept(front, selected, more);
      }
    }

    /** What is covered stays covered whatever is selected later. */
    lemma CoversKept(depends: seq<Dependency>, generators: seq<SelectedEbuild>, selected: Slots,
                     more: Slots)
      requires Covers(depends, generators, selected) && Keeps(selected, more)
      ensures Covers(depends, generators, more)
    {
      hide Answers, Settled, Keeps;
      AnswersKept(depends, selected, more);
    }

    lemma CoversNext(depends: seq<Dependency>, i: nat, generators: seq<SelectedEbuild>, selected: Slots)
      requires i < |depends| && Covers(depends[..i], generators, selected) && Settled(depends[i], selected)
      ensures var answer := Answer(depends[i], selected);
        Covers(depends[..i + 1], if answer.Some? then generators + [answer.value] else generators, selected)
    {
      hide Answer, Settled;
      var upTo := depends[..i + 1];
      assert upTo[..i] == depends[..i] && upTo[i] == depends[i];
      forall j | 0 <= j < |upTo|
        ensures Settled(upTo[j], selected)
      {
        assert j < i ==> upTo[j] == depends[..i][j];
      }
    }

    lemma CoversNothing(selected: Slots)
      ensures Covers([], [], selected)
    {
    }

    lemma {:induction false} AnswersMembers(depends: seq<Dependency>, selected: Slots, g: SelectedEbuild)
      ensures g in Answers(depends, selected) <==> exists i :: 0 <= i < |depends| && Answer(depends[i], selected) == Some(g)
    {
      hide Answer;
      if depends != [] {
        var front, last := depends[..|depends| - 1], depends[|depends| - 1];
        AnswersMembers(front, selected, g);
        assert forall i :: 0 <= i < |front| ==> front[i] == depends[i];
        if exists i :: 0 <= i < |depends| && Answer(depends[i], selected) == Some(g) {
          var i :| 0 <= i < |depends| && Answer(depends[i], selected) == Some(g);
          assert i < |front| ==> Answer(front[i], selected) == Some(g);
        }
      }
    }

    /** Those regenerated from place `from` on have the answers to their dependencies as generators. */
    ghost predicate Covered(graph: Graph, log: seq<SelectedEbuild>, from: nat, selected: Slots) {
      forall i :: from <= i < |log| ==> log[i] in graph && Covers(log[i].metadata.depends, graph[log[i]], selected)
    }

    lemma CoveredLater(a: Graph, b: Graph, s: set<SelectedEbuild>, log: seq<SelectedEbuild>, from: nat,
                       more: seq<SelectedEbuild>, before: Slots, after: Slots)
      requires Covered(a, log, from, before) && Covered(b, more, |log|, after) && log <= more && from <= |log|
      requires IsLogOf(log, s) && Agree(a, b, s) && Keeps(before, after)
      ensures Covered(b, more, from, after)
    {
      hide Covers, Keeps;
      forall i | from <= i < |more|
        ensures more[i] in b && Covers(more[i].metadata.depends, b[more[i]], after)
      {
        if i < |log| {
          assert more[i] == log[i] && log[i] in log;
          CoversKept(more[i].metadata.depends, a[log[i]], before, after);
        }
      }
    }

    // what makes a resolution fail

    ghost predicate FlagsObject(e: Ebuild, f: Failure)
      requires e in universe
    {
      f.FlagFailure? && universe[e].requiredUse.Some?
      && exists use :: RequiredUses.Objects(universe[e].requiredUse.value, use, f.error)
    }

    ghost predicate RefusesFor(wishes: seq<AtomFlag>, reason: RequirementError) {
      exists use :: RefusedFor(use, wishes, reason)
    }

    /** A dependency that the index does not answer, that no selected ebuild answers as required, or that is
        conditional on an operator that is none, or on a flag that is not there. */
    ghost predicate DependencyFails(dep: Dependency, f: Failure) {
      match f
      case NoPackage(key) => Asks(dep) && portage(dep.atom) == Err(key)
      case NoEbuild(atom) => Asks(dep) && dep.atom == atom && portage(atom) == Ok(None)
      case NotSelected => Asks(dep) && Wishes(dep) != []
      case RequirementFailure(reason) => Asks(dep) && RefusesFor(Wishes(dep), reason)
      case BadOperator => dep.UseDependency? && dep.operator != RequiredUses.Enable && dep.operator != RequiredUses.Disable
      case FlagFailure(error) => dep.UseDependency? && error == Unknown(dep.flag)
      case Unreadable(_) => false
    }

    ghost predicate SomeDependencyFails(depends: seq<Dependency>, f: Failure) {
      exists i :: 0 <= i < |depends| && DependencyFails(depends[i], f)
    }

    /** Every failure comes from an ebuild that is there: from its cache file, its condition on its flags, or
        one of its dependencies. */
    ghost predicate Explained(f: Failure) {
      exists e :: e in universe && EbuildFails(e, f)
    }

    ghost predicate EbuildFails(e: Ebuild, f: Failure)
      requires e in universe
    {
      || (f == Unreadable(e) && !universe[e].readable)
      || FlagsObject(e, f)
      || SomeDependencyFails(universe[e].depends, f)
    }

    ghost predicate Placed(selected: Slots, nodes: set<SelectedEbuild>) {
      && (forall key <- selected :: forall i :: 0 <= i < |selected[key]| ==>
            selected[key][i] in nodes && selected[key][i].place.0 == key)
      && (forall key <- selected :: |selected[key]| == 1)
      && (forall n <- nodes :: n.place.0 in selected && n in selected[n.place.0])
      && (forall n <- nodes :: n.ebuild in universe && n.metadata == universe[n.ebuild])
      && (forall n <- nodes :: n.place == (n.ebuild.packageKey, None))
    }

    /** Only cache files of selected ebuilds have been read. */
    ghost predicate ReadSelected()
      reads this`nodes, universe.Values`initialised
    {
      forall e <- universe :: universe[e].initialised ==> Selected(nodes, e)
    }

    ghost predicate Selected(nodes: set<SelectedEbuild>, e: Ebuild) {
      exists n <- nodes :: n.ebuild == e
    }

    ghost predicate Linked()
      reads this`nodes, nodes`generators
    {
      forall n <- nodes :: forall g <- n.generators :: g in nodes
    }

    ghost predicate Answered()
      reads this`nodes, this`selectedPackages, nodes`generators, nodes`isDirty
    {
      forall n <- nodes :: !n.isDirty ==> Covers(n.metadata.depends, n.generators, selectedPackages)
    }

    ghost predicate Registered()
      reads this`nodes, nodes`isDirty, nodes`globalFlagHooks
    {
      forall n <- nodes :: !n.isDirty && n.metadata.requiredUse.Some? ==> n.metadata.requiredUse.value in n.globalFlagHooks
    }

    ghost predicate Watched()
      reads this`nodes, nodes`useflags, nodes`flags, nodes`useFlagHooks, nodes`globalFlagHooks, universe.Values
    {
      forall n <- nodes :: n.metadata in universe.Values && n.Satisfied() && n.Idle()
    }

    ghost predicate Valid()
      reads this, nodes, universe.Values
    {
      && WellFormed(portage, universe) && Placed(selectedPackages, nodes) && ReadSelected()
      && Linked() && Answered() && Registered() && Watched() && session <= nodes
      && Served(Generators(), Uses())
    }

    ghost function Generators(): Graph
      reads this`nodes, nodes`generators
    {
      map n | n in nodes :: n.generators
    }

    ghost function ResolvedDeps(): Graph
      reads this`nodes, nodes`resolvedDeps
    {
      map n | n in nodes :: n.resolvedDeps
    }

    ghost function Uses(): map<SelectedEbuild, Flags>
      reads this`nodes, nodes`useflags, set n <- nodes :: n.metadata
    {
      map n | n in nodes :: n.Use()
    }

    constructor (portage: Index, universe: map<Ebuild, Metadata>)
      requires WellFormed(portage, universe) && forall e <- universe :: !universe[e].initialised
      ensures this.portage == portage && this.universe == universe
      ensures Valid() && session == {} && log == [] && nodes == {}
    {
      this.portage, this.universe := portage, universe;
      selectedPackages, blocks, session, nodes, log := map[], map[], {}, {}, [];
    }

    // ---- selecting ----

    function WithBlock(blocks: map<string, seq<Atom>>, atom: Atom): map<string, seq<Atom>> {
      blocks[atom.key := (if atom.key in blocks then blocks[atom.key] else []) + [atom]]
    }

    method AddBlock(atom: Atom)
      modifies this`blocks
      ensures blocks == WithBlock(old(blocks), atom)
    {
      if atom.key !in blocks {
        blocks := blocks[atom.key := []];
      }
      blocks := blocks[atom.key := blocks[atom.key] + [atom]];
    }

    /** Nothing of its package is selected yet. */
    predicate Free(ebuild: Ebuild)
      reads this`selectedPackages
    {
      ebuild in universe && ebuild.packageKey !in selectedPackages
    }

    lemma PlacedAfter(selected: Slots, nodes: set<SelectedEbuild>, n: SelectedEbuild)
      requires Placed(selected, nodes) && n !in nodes
      requires n.ebuild in universe && n.metadata == universe[n.ebuild]
      requires n.place == (n.ebuild.packageKey, None) && n.place.0 !in selected
      ensures Placed(WithSelected(selected, n), nodes + {n})
    {
      var key := n.place.0;
      var after := WithSelected(selected, n);
      assert after[key] == [n];
      forall m | m in nodes
        ensures m.place.0 in after && m in after[m.place.0]
      {
        assert m in selected[m.place.0];
      }
    }

    function WithSelected(selected: Slots, n: SelectedEbuild): Slots {
      selected[n.place.0 := [n]]
    }

    method AddAtom(atom: Atom, ebuild: Ebuild) returns (n: SelectedEbuild)
      requires Valid() && Free(ebuild)
      modifies this`selectedPackages, this`nodes
      ensures Valid() && fresh(n) && nodes == old(nodes) + {n}
      ensures n.ebuild == ebuild && n.place.0 == ebuild.packageKey && n.selectedBy == atom && Blank(n) && n.Use() == map[] && Grown(old(Uses()), Uses())
      ensures selectedPackages == WithSelected(old(selectedPackages), n)
    {
      hide HooksAccept, NoChange, WellFormed, Passes, Placed, Linked, Watched, Answered, Registered, ReadSelected,
        Served, Extends;
      NotYetRead(ebuild);
      var metadata := universe[ebuild];
      n := new SelectedEbuild(ebuild, metadata, metadata.Slot(), atom);
      Register(n);
    }

    /** What is not selected has not been read, and its slot is not known. */
    lemma NotYetRead(ebuild: Ebuild)
      requires Placed(selectedPackages, nodes) && ReadSelected() && Free(ebuild)
      ensures universe[ebuild].Slot() == None
    {
    }

    method Register(n: SelectedEbuild)
      requires Valid() && n !in nodes && Free(n.ebuild) && n.metadata == universe[n.ebuild]
      requires n.place == (n.ebuild.packageKey, None)
      requires Blank(n) && n.Satisfied() && n.Idle()
      modifies this`selectedPackages, this`nodes
      ensures Valid() && nodes == old(nodes) + {n} && Grown(old(Uses()), Uses())
      ensures selectedPackages == WithSelected(old(selectedPackages), n)
    {
      hide Generators, Uses, Grown, Keeps;
      hide SelectedEbuild.Satisfied, SelectedEbuild.Idle, WellFormed, Passes, Placed, Linked, Watched, Answered,
        Registered, ReadSelected, Served, Extends;
      PlacedAfter(selectedPackages, nodes, n);
      selectedPackages := selectedPackages[n.place.0 := [n]];
      nodes := nodes + {n};
      KeepsOthers(old(selectedPackages), n);
      NothingToLink(n);
      OneMoreWatched(n);
      ServedStill(n);
    }

    twostate lemma ServedStill(n: SelectedEbuild)
      requires nodes == old(nodes) + {n} && Blank(n) && Grown(old(Uses()), Uses())
      requires forall x <- old(nodes) :: x.generators == old(x.generators)
      requires Served(old(Generators()), old(Uses()))
      ensures Served(Generators(), Uses())
    {
      hide Served, Uses, Grown;
      ServedKept(old(Generators()), old(Uses()), Generators(), Uses());
    }

    twostate lemma OneMoreWatched(n: SelectedEbuild)
      requires nodes == old(nodes) + {n} && old(Watched()) && n.metadata in universe.Values && n.Satisfied() && n.Idle()
      requires forall x <- old(nodes) :: x.Satisfied() == old(x.Satisfied()) && x.Idle() == old(x.Idle())
      requires forall x <- old(nodes) :: x.Use() == old(x.Use())
      ensures Watched() && Grown(old(Uses()), Uses())
    {
      hide SelectedEbuild.Satisfied, SelectedEbuild.Idle, SelectedEbuild.Use, Extends;
      GrownNot(old(Uses()));
    }

    lemma KeepsOthers(selected: Slots, n: SelectedEbuild)
      requires n.place.0 !in selected
      ensures Keeps(selected, WithSelected(selected, n))
    {
    }

    twostate lemma NothingToLink(n: SelectedEbuild)
      requires Keeps(old(selectedPackages), selectedPackages)
      requires nodes == old(nodes) + {n} && old(Linked()) && old(Answered()) && old(Registered()) && Blank(n)
      requires forall x <- old(nodes) :: x.generators == old(x.generators) && x.isDirty == old(x.isDirty)
      requires forall x <- old(nodes) :: x.globalFlagHooks == old(x.globalFlagHooks)
      requires old(ReadSelected()) && forall m <- universe.Values :: m.initialised == old(m.initialised)
      ensures Linked() && Answered() && Registered() && ReadSelected()
    {
      hide Covers, Keeps;
      forall x | x in nodes && !x.isDirty
        ensures Covers(x.metadata.depends, x.generators, selectedPackages)
      {
        CoversKept(x.metadata.depends, x.generators, old(selectedPackages), selectedPackages);
      }
    }

    static method FindPassing(atom: Atom, slots: seq<SelectedEbuild>) returns (r: Option<SelectedEbuild>)
      requires AtomVersions.Fits(atom.version) && forall n <- slots :: Stored(n.ebuild)
      ensures r == FirstPassing(atom, slots)
    {
      hide AtomMatches, AtomVersions.Fits, FirstPassing, Stored;
      var i := 0;
      assert slots[0..] == slots;
      while i < |slots|
        invariant i <= |slots| && FirstPassing(atom, slots) == FirstPassing(atom, slots[i..])
      {
        FirstPassingStep(atom, slots, i);
        assert slots[i] in slots;
        if AtomMatches(atom, slots[i].ebuild) {
          return Some(slots[i]);
        }
        i := i + 1;
      }
      FirstPassingStep(atom, slots, i);
      return None;
    }

    /** From an index of which nothing had been read the slot of an ebuild that is not selected is not
        known, and a selected ebuild that the index answers passes: nothing is added, changed or split. */
    lemma ChosenOrDropped(atom: Atom, ebuild: Ebuild, list: seq<Ebuild>)
      requires Valid() && Reliable(portage, universe, atom) && portage(atom) == Ok(Some(ebuild))
      requires ebuild.packageKey in selectedPackages
      ensures var outcome := MatchOutcome(atom, selectedPackages[ebuild.packageKey], universe[ebuild].Slot(), list);
        outcome.Chosen? || outcome == Dropped
      ensures FirstPassing(atom, selectedPackages[ebuild.packageKey]) == None ==> universe[ebuild].Slot() == None
    {
      hide HooksAccept, NoChange, Passes, FirstPassing, Linked, Answered, Registered, Served, Watched;
      var slots := selectedPackages[ebuild.packageKey];
      if universe[ebuild].initialised {
        assert Selected(nodes, ebuild);
        var n :| n in nodes && n.ebuild == ebuild;
        assert n in slots;
        SomeonePasses(atom, slots, n);
      }
    }

    /** Among the ebuilds selected for a package: one that passes, and otherwise nothing. */
    method MatchSelected(atom: Atom, ebuild: Ebuild) returns (r: Result<Option<SelectedEbuild>, Failure>)
      requires Valid() && Reliable(portage, universe, atom) && portage(atom) == Ok(Some(ebuild))
      requires ebuild.packageKey in selectedPackages
      ensures r == Ok(FirstPassing(atom, selectedPackages[ebuild.packageKey]))
      ensures r == Ok(None) ==> universe[ebuild].Slot() == None
      ensures r.value.Some? ==> r.value.value in nodes && Passes(atom, r.value.value.ebuild)
    {
      hide HooksAccept, NoChange, Passes, FirstPassing, Linked, Answered, Registered, ReadSelected, Served, Watched,
        Extends;
      var slots := selectedPackages[ebuild.packageKey];
      var passing := FindPassing(atom, slots);
      if passing.Some? {
        return Ok(passing);
      }
      ChosenOrDropped(atom, ebuild, []);
      var slot := universe[ebuild].Slot();
      if slot.Some? {
        assert false;
      }
      return Ok(None);
    }

    predicate Blank(n: SelectedEbuild)
      reads n
    {
      n.generators == [] && n.isDirty
    }

    /** The package is selected now, and this is its ebuild that passes, if there is one. */
    ghost predicate SelectedIs(atom: Atom, n: Option<SelectedEbuild>)
      reads this`selectedPackages
    {
      atom.key in selectedPackages && n == FirstPassing(atom, selectedPackages[atom.key])
    }

    lemma OneSelected(atom: Atom, selected: Slots, n: SelectedEbuild)
      requires Passes(atom, n.ebuild) && n.place.0 == atom.key && atom.key !in selected
      ensures var after := WithSelected(selected, n); atom.key in after && FirstPassing(atom, after[atom.key]) == Some(n)
      ensures Keeps(selected, WithSelected(selected, n))
    {
      hide Passes;
    }

    /** The exact outcome. What is selected passes the atom, and there is never a second one of a package. */
    method SelectAtom(atom: Atom) returns (r: Result<Option<SelectedEbuild>, Failure>)
      requires Valid() && Reliable(portage, universe, atom)
      modifies this`selectedPackages, this`nodes
      ensures Valid() && old(nodes) <= nodes && Grown(old(Uses()), Uses())
      ensures fresh(nodes - old(nodes)) && forall n <- nodes - old(nodes) :: Blank(n)
      ensures r.Ok? && r.value.Some? ==> r.value.value in nodes && Passes(atom, r.value.value.ebuild)
      ensures portage(atom).Err? ==> r == Err(NoPackage(portage(atom).error)) && nodes == old(nodes)
      ensures portage(atom) == Ok(None) ==> r == Err(NoEbuild(atom)) && nodes == old(nodes)
      ensures portage(atom).Ok? && portage(atom).value.Some? && atom.key !in old(selectedPackages) ==>
        r.Ok? && r.value.Some? && r.value.value.ebuild == portage(atom).value.value && nodes == old(nodes) + {r.value.value}
      ensures portage(atom).Ok? && portage(atom).value.Some? && atom.key !in old(selectedPackages) ==>
        r.Ok? && r.value.Some? && fresh(r.value.value) && r.value.value.Use() == map[]
      ensures portage(atom).Ok? && portage(atom).value.Some? && atom.key in old(selectedPackages) ==>
        r == Ok(FirstPassing(atom, old(selectedPackages)[atom.key])) && nodes == old(nodes)
      ensures portage(atom).Ok? && portage(atom).value.Some? ==> r.Ok? && SelectedIs(atom, r.value)
      ensures Keeps(old(selectedPackages), selectedPackages)
    {
      hide HooksAccept, NoChange, Linked, Answered, Registered, ReadSelected, Served, Watched, Uses, Generators,
        Grown, Placed, Passes, FirstPassing, Stored, WellFormed, WithSelected;
      GrownNot(Uses());
      var found := portage(atom);
      if found.Err? {
        return Err(NoPackage(found.error));
      }
      if found.value.None? {
        return Err(NoEbuild(atom));
      }
      var ebuild := found.value.value;
      if ebuild.packageKey in selectedPackages {
        r := MatchSelected(atom, ebuild);
      } else {
        var n := AddAtom(atom, ebuild);
        OneSelected(atom, old(selectedPackages), n);
        r := Ok(Some(n));
      }
    }

    // ---- resolving one dependency ----

    /** A declared flag is there, in its declared state exactly if the ebuild has no other value of its own for it. */
    ghost predicate ShowsDeclared(n: SelectedEbuild, f: string)
      requires f in n.metadata.iuse
      reads n, n.metadata
    {
      f in n.Use() && (n.Use()[f] == n.metadata.iuse[f] <==> (f in n.useflags ==> n.useflags[f] == n.metadata.iuse[f]))
    }

    method InitializeMetadata(n: SelectedEbuild) returns (r: Result<(), Failure>)
      requires Valid() && n in nodes
      modifies n.metadata`initialised
      ensures Valid() && Grown(old(Uses()), Uses())
      ensures r == if old(n.metadata.initialised) || n.metadata.readable then Ok(()) else Err(Unreadable(n.ebuild))
      ensures r.Ok? ==> n.metadata.initialised
      ensures r.Ok? ==> forall f <- n.metadata.iuse :: ShowsDeclared(n, f)
    {
      hide HooksAccept, NoChange, WellFormed, Placed, Linked, Answered, Registered, ReadSelected, Served;
      if !n.metadata.initialised {
        if !n.metadata.readable {
          return Err(Unreadable(n.ebuild));
        }
        n.metadata.initialised := true;
        forall x | x in nodes
          ensures Extends(x.Use(), old(x.Use())) && x.Satisfied() && x.Idle()
        {
          assert old(x.Satisfied() && x.Idle());
          HooksAcceptMore(x.useFlagHooks, x.globalFlagHooks, old(x.Use()), x.Use());
          NoChangeExtends(old(x.Use()), x.Use(), x.flags);
        }
        ServedKept(old(Generators()), old(Uses()), Generators(), Uses());
        OneMoreRead(n);
      }
      return Ok(());
    }

    twostate lemma OneMoreRead(n: SelectedEbuild)
      requires WellFormed(portage, universe) && Placed(selectedPackages, nodes) && old(ReadSelected())
      requires nodes == old(nodes) && n in nodes
      requires forall m <- universe.Values :: m != n.metadata ==> m.initialised == old(m.initialised)
      ensures ReadSelected()
    {
      forall e | e in universe && universe[e].initialised
        ensures Selected(nodes, e)
      {
        if universe[e] == n.metadata {
          assert n.ebuild == e;
        }
      }
    }

    /** An atom that is not a block: select an ebuild, and make the requirements on its flags. */
    method ResolveAtom(atom: Atom, useflags: Option<seq<AtomFlag>>) returns (r: Result<Option<SelectedEbuild>, Failure>)
      requires Valid() && Reliable(portage, universe, atom)
      modifies this`selectedPackages, this`nodes
      modifies nodes`useflags, nodes`flags, nodes`isDirty, nodes`useFlagHooks
      ensures old(nodes) <= nodes && fresh(nodes - old(nodes))
      ensures r.Ok? ==> Valid() && Grown(old(Uses()), Uses())
      ensures forall n <- nodes - old(nodes) :: n.generators == []
      ensures forall n <- old(nodes) :: old(n.isDirty) ==> n.isDirty
      ensures r.Ok? && r.value.Some? ==> r.value.value in nodes && Passes(atom, r.value.value.ebuild)
      ensures r.Ok? && r.value.Some? ==> MadeOf(r.value.value, WishesOf(useflags))
      ensures Comes(r, atom, WishesOf(useflags), old(selectedPackages), old(Uses()))
      ensures Keeps(old(selectedPackages), selectedPackages)
      ensures r.Ok? ==> SelectedIs(atom, r.value) && (r.value.None? ==> WishesOf(useflags) == [])
    {
      hide MadeOf, Uses, Generators, Grown;
      hide HooksAccept, NoChange, Placed, Passes, AdmitsAll, RefusedFor, Assumed, Watched, Linked, Answered,
        Registered, ReadSelected, Served, Extends, WellFormed, Keeps, FirstPassing;
      PassingKnown(atom);
      r := SelectAtom(atom);
      if r.Ok? && r.value.Some? {
        MadeOfNothing(r.value.value);
        NothingWished(r.value.value.Use());
      }
      if r.Err? || useflags.None? {
        return;
      }
      ghost var between := Uses();
      if r.value.None? {
        return if useflags.value == [] then Ok(None) else Err(NotSelected);
      }
      var required := RequireOf(r.value.value, useflags.value);
      if required.Err? {
        return Err(RequirementFailure(required.error));
      }
      GrownTwice(old(Uses()), between, Uses());
    }

    lemma PassingKnown(atom: Atom)
      requires Placed(selectedPackages, nodes)
      ensures atom.key in selectedPackages && FirstPassing(atom, selectedPackages[atom.key]).Some? ==>
        var n := FirstPassing(atom, selectedPackages[atom.key]).value;
        n in Uses() && Uses()[n] == n.Use()
    {
      hide Passes, FirstPassing;
    }

    /** The requirements are met by the flags of `n` and watched by its hooks. */
    ghost predicate MadeOf(n: SelectedEbuild, uses: seq<AtomFlag>)
      reads n, n.metadata
    {
      AllFulfilled(n.Use(), uses) && AllWatch(n.useFlagHooks, n.Use(), uses)
    }

    lemma NothingWished(use: Flags)
      ensures AdmitsAll(use, []) && Assumed(use, []) == use
    {
    }

    lemma MadeOfNothing(n: SelectedEbuild)
      ensures MadeOf(n, [])
    {
    }

    method RequireOf(selected: SelectedEbuild, uses: seq<AtomFlag>) returns (r: Result<(), RequirementError>)
      requires Valid() && selected in nodes
      modifies selected`useflags, selected`flags, selected`isDirty, selected`useFlagHooks
      ensures r.Ok? ==> Valid() && Grown(old(Uses()), Uses())
      ensures r.Ok? ==> MadeOf(selected, uses)
      ensures r.Ok? <==> AdmitsAll(old(selected.Use()), uses)
      ensures r.Err? ==> RefusedFor(old(selected.Use()), uses, r.error)
      ensures r.Ok? ==> selected.Use() == Assumed(old(selected.Use()), uses)
      ensures old(selected.isDirty) ==> selected.isDirty
    {
      hide SelectedEbuild.Satisfied, SelectedEbuild.Idle, WellFormed, Placed, Passes, AdmitsAll, RefusedFor, Assumed,
        Linked, Covers, Served, AllFulfilled, AllWatch, Extends;
      assert old(selected.Satisfied()) && old(selected.Idle());
      r := selected.RequireUses(uses);
      if r.Ok? {
        AssumedExtends(old(selected.Use()), uses);
        AdmittedFulfilled(old(selected.Use()), uses, |uses|);
        assert uses[..|uses|] == uses;
        OneChanged(selected);
        ServedKept(old(Generators()), old(Uses()), Generators(), Uses());
      }
    }

    /** The flags of one ebuild have grown, and nobody else's have changed. */
    twostate lemma OneChanged(n: SelectedEbuild)
      requires nodes == old(nodes) && old(Watched()) && n in nodes && n.Satisfied() && n.Idle()
      requires forall x <- nodes :: x != n ==> x.Satisfied() == old(x.Satisfied()) && x.Idle() == old(x.Idle())
      requires forall x <- nodes :: x != n ==> x.Use() == old(x.Use())
      requires Extends(n.Use(), old(n.Use()))
      ensures Watched() && Grown(old(Uses()), Uses())
    {
      hide SelectedEbuild.Satisfied, SelectedEbuild.Idle, SelectedEbuild.Use, Extends;
      GrownNot(old(Uses()));
    }

    /** A conditional is never resolved to anything; it fails on an operator that is none and on a flag that is
        not there. */
    function Conditional(flag: string, operator: RequiredUses.UseOperator, use: Flags): Result<Option<SelectedEbuild>, Failure> {
      match operator
      case Enable => if flag in use then Ok(None) else Err(FlagFailure(Unknown(flag)))
      case Disable => if flag in use then Ok(None) else Err(FlagFailure(Unknown(flag)))
      case _ => Err(BadOperator)
    }

    /** A conditional becomes a hook of its flag; nothing is resolved. */
    method AddConditional(parent: SelectedEbuild, flag: string, operator: RequiredUses.UseOperator)
      returns (r: Result<Option<SelectedEbuild>, Failure>)
      requires Valid() && parent in nodes
      modifies parent`useFlagHooks
      ensures r == Conditional(flag, operator, old(parent.Use()))
      ensures r.Ok? ==> Valid() && Grown(old(Uses()), Uses())
      ensures r.Ok? ==> parent.useFlagHooks == WithHook(old(parent.useFlagHooks), flag, UseConditional(flag))
    {
      hide Generators, WithHook, RequiredUses.Accepts;
      hide HooksAccept, NoChange, WellFormed, Placed, Passes, Linked, Answered, Registered, ReadSelected, Served;
      if operator != RequiredUses.Enable && operator != RequiredUses.Disable {
        return Err(BadOperator);
      }
      var hooked := parent.AddUseHook(flag, UseConditional(flag));
      return if hooked.Err? then Err(FlagFailure(hooked.error)) else Ok(None);
    }

    method ResolveSingle(parent: SelectedEbuild, dep: Dependency) returns (r: Result<Option<SelectedEbuild>, Failure>)
      requires Valid() && parent in nodes && (dep.AtomDependency? ==> Reliable(portage, universe, dep.atom))
      modifies this`selectedPackages, this`nodes, this`blocks
      modifies nodes`useflags, nodes`flags, nodes`isDirty, nodes`useFlagHooks
      ensures old(nodes) <= nodes && fresh(nodes - old(nodes))
      ensures r.Ok? ==> Valid() && Grown(old(Uses()), Uses())
      ensures forall n <- nodes - old(nodes) :: n.generators == []
      ensures forall n <- old(nodes) :: old(n.isDirty) ==> n.isDirty
      ensures r.Ok? && r.value.Some? ==>
        dep.AtomDependency? && !dep.blocks && r.value.value in nodes && Passes(dep.atom, r.value.value.ebuild)
      ensures r.Ok? && r.value.Some? ==> MadeOf(r.value.value, Wishes(dep))
      ensures Asks(dep) ==> Comes(r, dep.atom, Wishes(dep), old(selectedPackages), old(Uses()))
      ensures dep.UseDependency? ==> r == Conditional(dep.flag, dep.operator, old(parent.Use()))
      ensures dep.Group? ==> r == Ok(None)
      ensures r.Ok? ==> Settled(dep, selectedPackages) && r.value == Answer(dep, selectedPackages)
      ensures r.Err? ==> DependencyFails(dep, r.error)
      ensures Keeps(old(selectedPackages), selectedPackages)
      ensures dep.AtomDependency? && dep.blocks ==> r == Ok(None) && blocks == WithBlock(old(blocks), dep.atom)
      ensures r.Ok? && dep.UseDependency? ==> parent.useFlagHooks == WithHook(old(parent.useFlagHooks), dep.flag, UseConditional(dep.flag))
      ensures !(dep.AtomDependency? && dep.blocks) ==> blocks == old(blocks)
    {
      hide MadeOf, WithHook, WithBlock, Generators, Uses, Grown, Comes, FirstPassing, RefusesFor;
      hide HooksAccept, NoChange, WellFormed, Placed, Passes, Watched, Linked, Answered, Registered, ReadSelected,
        Served, Extends;
      GrownNot(Uses());
      match dep {
        case AtomDependency(atom, blocked, useflags) =>
          if blocked {
            AddBlock(atom);
            return Ok(None);
          }
          r := ResolveAtom(atom, useflags);
          if r.Err? {
            ComesToFail(r, dep, old(selectedPackages), old(Uses()));
          }
        case UseDependency(flag, operator) =>
          r := AddConditional(parent, flag, operator);
        case Group =>
          return Ok(None);
      }
    }

    lemma ComesToFail(r: Result<Option<SelectedEbuild>, Failure>, dep: Dependency,
                      selected: Slots, uses: map<SelectedEbuild, Flags>)
      requires Asks(dep) && r.Err? && Comes(r, dep.atom, Wishes(dep), selected, uses)
      ensures DependencyFails(dep, r.error)
    {
      hide FirstPassing, RefusedFor, AdmitsAll, Assumed;
    }

    // ---- regeneration ----

    lemma AtomsReliable(n: SelectedEbuild, i: nat)
      requires Valid() && n in nodes && i < |n.metadata.depends| && n.metadata.depends[i].AtomDependency?
      ensures Reliable(portage, universe, n.metadata.depends[i].atom)
    {
    }

    method AddGenerator(n: SelectedEbuild, ghost i: nat, g: SelectedEbuild)
      requires Valid() && n in nodes && n.isDirty && g in nodes && Serves(n.metadata.depends, i, g, g.Use())
      modifies n`generators
      ensures Valid() && n.generators == old(n.generators) + [g]
    {
      hide HooksAccept, NoChange, WellFormed, Placed, Passes, Watched, Registered, ReadSelected, Covers, Serves,
        Served, AllFulfilled, Uses;
      UsesOf(g);
      n.generators := n.generators + [g];
      ServedMore(old(Generators()), Uses(), n, g, i);
      assert Generators() == old(Generators())[n := old(Generators()[n]) + [g]];
    }

    /** The dependencies of an ebuild, from left to right: the generators are what answers them, in order. */
    method ResolveAll(n: SelectedEbuild) returns (r: Result<(), Failure>)
      requires Valid() && n in nodes && n.isDirty && n.generators == []
      modifies this`selectedPackages, this`nodes, this`blocks, n`generators
      modifies nodes`useflags, nodes`flags, nodes`isDirty, nodes`useFlagHooks
      ensures old(nodes) <= nodes && fresh(nodes - old(nodes))
      ensures r.Ok? ==> Valid() && Grown(old(Uses()), Uses()) && Covers(n.metadata.depends, n.generators, selectedPackages)
      ensures r.Err? ==> SomeDependencyFails(n.metadata.depends, r.error)
      ensures Keeps(old(selectedPackages), selectedPackages)
    {
      hide Uses, Generators, Grown, MadeOf, Serves, Settled, Answer, Keeps, Comes, DependencyFails;
      hide HooksAccept, NoChange, WellFormed, Placed, Passes, Extends, Linked, Answered, Registered, ReadSelected,
        Served, Watched, Covers, Justifies;
      var depends := n.metadata.depends;
      var i := 0;
      GrownNot(Uses());
      KeepsAll(selectedPackages);
      CoversNothing(selectedPackages);
      assert depends[..0] == [];
      while i < |depends|
        invariant i <= |depends| && Valid() && n in nodes && n.isDirty && n.metadata.depends == depends
        invariant old(nodes) <= nodes && fresh(nodes - old(nodes))
        invariant Grown(old(Uses()), Uses()) && Keeps(old(selectedPackages), selectedPackages)
        invariant Covers(depends[..i], n.generators, selectedPackages)
      {
        if depends[i].AtomDependency? {
          AtomsReliable(n, i);
        }
        ghost var before, selected := Uses(), selectedPackages;
        var resolved := ResolveSingle(n, depends[i]);
        KeepsTwice(old(selectedPackages), selected, selectedPackages);
        if resolved.Err? {
          return Err(resolved.error);
        }
        GrownTwice(old(Uses()), before, Uses());
        CoversKept(depends[..i], n.generators, selected, selectedPackages);
        CoversNext(depends, i, n.generators, selectedPackages);
        if resolved.value.Some? {
          ItServes(depends, i, resolved.value.value);
          AddGenerator(n, i, resolved.value.value);
        }
        i := i + 1;
      }
      assert depends[..i] == depends;
      return Ok(());
    }

    lemma KeepsAll(selected: Slots)
      ensures Keeps(selected, selected)
    {
    }

    lemma UsesOf(n: SelectedEbuild)
      requires n in nodes
      ensures n in Uses() && Uses()[n] == n.Use()
    {
    }

    lemma ItServes(depends: seq<Dependency>, i: nat, g: SelectedEbuild)
      requires i < |depends| && depends[i].AtomDependency? && !depends[i].blocks && Passes(depends[i].atom, g.ebuild)
      requires MadeOf(g, Wishes(depends[i]))
      ensures Serves(depends, i, g, g.Use())
    {
    }

    method ClearGenerators(n: SelectedEbuild)
      requires Valid() && n in nodes && n.isDirty
      modifies n`generators
      ensures Valid() && n.generators == [] && Uses() == old(Uses())
    {
      hide HooksAccept, NoChange, WellFormed, Placed, Passes, Watched, Registered, ReadSelected, Covers, Justifies,
        Served, Uses, Grown;
      n.generators := [];
      GrownNot(Uses());
      ServedKept(old(Generators()), Uses(), Generators(), Uses());
    }

    /** Scheduled flag changes, and the ebuild's own condition on its flags. */
    method Conform(n: SelectedEbuild) returns (r: Result<(), UseFlags.Error>)
      requires Valid() && n in nodes
      modifies n`useflags, n`flags, n`globalFlagHooks
      ensures r.Ok? ==> Valid() && Grown(old(Uses()), Uses()) && n.flags == []
      ensures n.Use() == old(n.Use())
      ensures r.Ok? <==> (n.metadata.requiredUse.Some? ==> RequiredUses.Accepts(n.metadata.requiredUse.value, n.Use()))
      ensures r.Err? ==> n.metadata.requiredUse.Some? && RequiredUses.Objects(n.metadata.requiredUse.value, n.Use(), r.error)
      ensures r.Ok? && n.metadata.requiredUse.Some? ==> n.metadata.requiredUse.value in n.globalFlagHooks
    {
      hide SelectedEbuild.Satisfied, SelectedEbuild.Idle, WellFormed, Placed, Linked, Answered, Served, Applied,
        RequiredUses.AllHold, RequiredUses.Accepts, RequiredUses.Objects;
      assert old(n.Satisfied()) && old(n.Idle());
      r := n.ConformUse();
      if r.Ok? {
        OneChanged(n);
        ServedKept(old(Generators()), old(Uses()), Generators(), Uses());
      }
    }

    /** Whatever has been regenerated and not become dirty since has its condition on its flags met. */
    lemma CleanConforms(n: SelectedEbuild)
      requires Valid() && n in nodes && !n.isDirty && n.metadata.requiredUse.Some?
      ensures RequiredUses.AllHold(n.metadata.requiredUse.value, n.Use())
    {
      hide RequiredUses.AllHold, RequiredUses.Accepts, Placed, Linked, Answered, WellFormed;
      assert n.Satisfied();
      AcceptedHolds(n.metadata.requiredUse.value, n.Use());
    }

    /** The generators of whatever is not dirty are exactly the selected ebuilds that pass an atom among its
        dependencies; and one that makes requirements on flags is never left without. */
    lemma GeneratorsExactly(n: SelectedEbuild, g: SelectedEbuild)
      requires Valid() && n in nodes && !n.isDirty
      ensures g in n.generators <==> g in nodes && exists i: nat :: Justifies(n.metadata.depends, i, g)
      ensures forall i :: 0 <= i < |n.metadata.depends| && Wishes(n.metadata.depends[i]) != [] && Asks(n.metadata.depends[i]) ==>
        Answer(n.metadata.depends[i], selectedPackages).Some?
    {
      hide WellFormed, ReadSelected, Linked, Registered, Watched, Served, Passes, FirstPassing, Answers, Answered;
      CleanCovers(n);
      var depends := n.metadata.depends;
      AnswersMembers(depends, selectedPackages, g);
      forall i: nat | i < |depends|
        ensures Answer(depends[i], selectedPackages) == Some(g) <==> g in nodes && Justifies(depends, i, g)
      {
        assert Settled(depends[i], selectedPackages);
        AnswerExactly(depends, i, g);
      }
    }

    lemma AnswerExactly(depends: seq<Dependency>, i: nat, g: SelectedEbuild)
      requires Placed(selectedPackages, nodes) && i < |depends| && Settled(depends[i], selectedPackages)
      ensures Answer(depends[i], selectedPackages) == Some(g) <==> g in nodes && Justifies(depends, i, g)
    {
      hide Stored, AtomVersions.Fits;
      if Asks(depends[i]) {
        var slots := selectedPackages[depends[i].atom.key];
        assert slots == [slots[0]] && slots[0] in nodes;
        if g in nodes && Passes(depends[i].atom, g.ebuild) {
          assert g in selectedPackages[g.place.0];
        }
      }
    }

    method Settle(n: SelectedEbuild)
      requires Valid() && n in nodes && Covers(n.metadata.depends, n.generators, selectedPackages)
      requires n.metadata.requiredUse.Some? ==> n.metadata.requiredUse.value in n.globalFlagHooks
      modifies n`isDirty
      ensures Valid() && Uses() == old(Uses()) && !n.isDirty
    {
      hide Served, ReadSelected, Generators, Uses, Extends;
      hide HooksAccept, NoChange, WellFormed, Placed, Linked, Watched, Covers;
      n.isDirty := false;
    }

    ghost predicate EbuildObjects(n: SelectedEbuild, f: Failure)
      reads n, n.metadata
    {
      || (f == Unreadable(n.ebuild) && !n.metadata.readable)
      || (f.FlagFailure? && n.metadata.requiredUse.Some?
          && RequiredUses.Objects(n.metadata.requiredUse.value, n.Use(), f.error))
    }

    lemma ItIsExplained(n: SelectedEbuild, f: Failure)
      requires n.ebuild in universe && n.metadata == universe[n.ebuild]
      requires EbuildObjects(n, f) || SomeDependencyFails(n.metadata.depends, f)
      ensures Explained(f)
    {
      hide RequiredUses.Objects, SomeDependencyFails;
      assert EbuildFails(n.ebuild, f);
    }

    lemma IsOf(n: SelectedEbuild)
      requires Valid() && n in nodes
      ensures n.ebuild in universe && n.metadata == universe[n.ebuild]
    {
      hide WellFormed, ReadSelected, Linked, Answered, Registered, Watched, Served;
    }

    /** The metadata and the flags an ebuild's dependencies are resolved with. */
    method Prepare(n: SelectedEbuild) returns (r: Result<(), Failure>)
      requires Valid() && n in nodes
      modifies n.metadata`initialised, n`useflags, n`flags, n`globalFlagHooks
      ensures r.Ok? ==> Valid() && Grown(old(Uses()), Uses()) && n.metadata.initialised
      ensures r.Ok? && n.metadata.requiredUse.Some? ==> n.metadata.requiredUse.value in n.globalFlagHooks
      ensures r.Ok? <==>
        && (old(n.metadata.initialised) || n.metadata.readable)
        && (n.metadata.requiredUse.Some? ==> RequiredUses.Accepts(n.metadata.requiredUse.value, n.Use()))
      ensures r.Err? ==> EbuildObjects(n, r.error)
    {
      hide HooksAccept, NoChange, WellFormed, Placed, Linked, Watched, Answered, Registered, ReadSelected, Served,
        Covers, RequiredUses.AllHold, Extends, RequiredUses.Accepts, RequiredUses.Objects;
      r := InitializeMetadata(n);
      if r.Err? {
        return;
      }
      ghost var between := Uses();
      var conformed := Conform(n);
      if conformed.Err? {
        return Err(FlagFailure(conformed.error));
      }
      GrownTwice(old(Uses()), between, Uses());
    }

    /** The first half of regenerating an ebuild that is dirty: its flags and its generators. */
    method Rebuild(n: SelectedEbuild) returns (r: Result<(), Failure>)
      requires Valid() && n in nodes && n.isDirty
      modifies this`selectedPackages, this`nodes, this`blocks, n`generators, n.metadata`initialised, n`globalFlagHooks
      modifies nodes`useflags, nodes`flags, nodes`isDirty, nodes`useFlagHooks
      ensures old(nodes) <= nodes && fresh(nodes - old(nodes))
      ensures r.Ok? ==> Valid() && Grown(old(Uses()), Uses())
      ensures r.Ok? ==> !n.isDirty && n.metadata.initialised && Covers(n.metadata.depends, n.generators, selectedPackages)
      ensures r.Err? ==> Explained(r.error)
      ensures Keeps(old(selectedPackages), selectedPackages)
    {
      hide HooksAccept, NoChange, WellFormed, Placed, Linked, Watched, Answered, Registered, ReadSelected, Served,
        Covers, RequiredUses.AllHold, Extends, Keeps, Explained, EbuildObjects, SomeDependencyFails, Uses, Grown,
        RequiredUses.Accepts;
      IsOf(n);
      KeepsAll(selectedPackages);
      ClearGenerators(n);
      r := Prepare(n);
      if r.Err? {
        ItIsExplained(n, r.error);
        return;
      }
      ghost var between := Uses();
      r := ResolveAll(n);
      if r.Err? {
        ItIsExplained(n, r.error);
        return;
      }
      GrownTwice(old(Uses()), between, Uses());
      Settle(n);
    }

    lemma NothingResolved(n: SelectedEbuild)
      requires session <= nodes
      ensures Resolved(Generators(), ResolvedDeps(), log, session, |log|, n)
      ensures Agree(Generators(), Generators(), session) && Agree(ResolvedDeps(), ResolvedDeps(), session)
      ensures Covered(Generators(), log, |log|, selectedPackages)
    {
    }

    lemma OnePlaceEach(selected: Slots, nodes: set<SelectedEbuild>)
      requires Placed(selected, nodes)
      ensures OnePerPlace(nodes, Places(universe))
    {
      forall m, n | m in nodes && n in nodes && m.place == n.place
        ensures m == n
      {
        assert m in selected[m.place.0] && n in selected[m.place.0];
      }
    }

    method AddToSession(n: SelectedEbuild)
      requires Valid() && n in nodes && n !in session
      modifies this`session
      ensures Valid() && session == old(session) + {n}
      ensures |old(session)| < |session| <= |Places(universe)|
    {
      hide HooksAccept, NoChange, WellFormed, Placed, Linked, Watched, Answered, Registered, ReadSelected, Served,
        Places, OnePerPlace;
      OnePlaceEach(selectedPackages, nodes);
      RoomInSession(session, nodes, n, Places(universe));
      session := session + {n};
    }

    method GetResolved(n: SelectedEbuild) returns (r: Result<SelectedEbuild, Failure>)
      requires Valid() && n in nodes && IsLogOf(log, session)
      modifies this, nodes, universe.Values
      ensures old(nodes) <= nodes && fresh(nodes - old(nodes)) && old(session) <= session
      ensures r.Ok? ==> r.value == n && Valid() && n in session
      ensures r.Ok? ==> old(log) <= log && IsLogOf(log, session)
      ensures r.Ok? ==> Resolved(Generators(), ResolvedDeps(), log, session, |old(log)|, n)
      ensures r.Ok? ==> Covered(Generators(), log, |old(log)|, selectedPackages)
      ensures r.Ok? ==> Agree(old(Generators()), Generators(), old(session))
      ensures r.Ok? ==> Agree(old(ResolvedDeps()), ResolvedDeps(), old(session))
      ensures r.Ok? ==> Grown(old(Uses()), Uses())
      ensures Keeps(old(selectedPackages), selectedPackages)
      ensures r.Err? ==> Explained(r.error)
      decreases |Places(universe)| - |session|, 0
    {
      hide Covers, Covered, Keeps, Explained;
      hide HooksAccept, NoChange, WellFormed, Placed, Linked, Watched, Answered, Registered, ReadSelected, Served,
        Extends, Resolved, IsLogOf, Agree, Places, Generators, ResolvedDeps, Uses, Grown;
      if n in session {
        NothingResolved(n);
        GrownNot(Uses());
        KeepsAll(selectedPackages);
        return Ok(n);
      }
      AddToSession(n);
      assert session - {n} == old(session);
      var regenerated := Regenerate(n);
      if regenerated.Err? {
        return Err(regenerated.error);
      }
      return Ok(n);
    }

    /** The next generator of `n`, whose turn started at place `from` of the log. */
    method ResolveNext(n: SelectedEbuild, i: nat, ghost from: nat) returns (r: Result<(), Failure>)
      requires Valid() && n in session && IsLogOf(log, session) && i < |n.generators|
      requires Partial(Generators(), ResolvedDeps(), log, session, from, n, i) && Covered(Generators(), log, from, selectedPackages)
      modifies this, nodes, universe.Values
      ensures old(nodes) <= nodes && fresh(nodes - old(nodes)) && old(session) <= session
      ensures r.Ok? ==> Valid() && old(log) <= log && IsLogOf(log, session) && n.generators == old(n.generators)
      ensures r.Ok? ==> Partial(Generators(), ResolvedDeps(), log, session, from, n, i + 1)
      ensures r.Ok? ==> Covered(Generators(), log, from, selectedPackages)
      ensures r.Ok? ==> Agree(old(Generators()), Generators(), old(session))
      ensures r.Ok? ==> Agree(old(ResolvedDeps()), ResolvedDeps(), old(session) - {n})
      ensures r.Ok? ==> Grown(old(Uses()), Uses())
      ensures Keeps(old(selectedPackages), selectedPackages)
      ensures r.Err? ==> Explained(r.error)
      decreases |Places(universe)| - |session|, 1
    {
      hide Covers, Covered, Keeps, Explained;
      hide HooksAccept, NoChange, WellFormed, Placed, Linked, Watched, Answered, Registered, ReadSelected, Served,
        Extends, Resolved, IsLogOf, Places, Uses, Grown, Partial, Agree, Generators, ResolvedDeps;
      ghost var g0, r0, log0, s0, p0 := Generators(), ResolvedDeps(), log, session, selectedPackages;
      GeneratorKnown(n, i);
      var resolved := GetResolved(n.generators[i]);
      if resolved.Err? {
        return Err(resolved.error);
      }
      ghost var r1 := ResolvedDeps();
      PartialBounds(g0, r0, log0, s0, from, n, i);
      CoveredLater(g0, Generators(), s0, log0, from, log, p0, selectedPackages);
      PartialStep(g0, r0, log0, s0, Generators(), r1, log, session, from, n, i);
      AgreeAt(g0, Generators(), s0, n);
      GeneratorsOf(n);
      AppendResolved(n, resolved.value);
      AgreeUpdated(r0, r1, s0, n, ResolvedDeps()[n]);
      return Ok(());
    }

    lemma GeneratorKnown(n: SelectedEbuild, i: nat)
      requires Valid() && n in nodes && i < |n.generators|
      ensures n.generators[i] in nodes && n in Generators() && Generators()[n] == n.generators
      ensures n in ResolvedDeps() && ResolvedDeps()[n] == n.resolvedDeps
    {
      hide Placed, Watched, Answered, Registered, ReadSelected, Served, WellFormed;
      assert n.generators[i] in n.generators;
    }

    method AppendResolved(n: SelectedEbuild, g: SelectedEbuild)
      requires Valid() && n in nodes
      modifies n`resolvedDeps
      ensures Valid() && n in old(ResolvedDeps())
      ensures ResolvedDeps() == old(ResolvedDeps())[n := old(ResolvedDeps())[n] + [g]]
    {
      hide HooksAccept, NoChange, WellFormed, Placed, Linked, Watched, Answered, Registered, ReadSelected, Served;
      n.resolvedDeps := n.resolvedDeps + [g];
    }

    method Regenerate(n: SelectedEbuild) returns (r: Result<(), Failure>)
      requires Valid() && n in session && IsLogOf(log, session - {n})
      modifies this, nodes, universe.Values
      ensures old(nodes) <= nodes && fresh(nodes - old(nodes)) && old(session) <= session
      ensures r.Ok? ==> Valid() && old(log) + [n] <= log && IsLogOf(log, session)
      ensures r.Ok? ==> Resolved(Generators(), ResolvedDeps(), log, session, |old(log)|, n)
      ensures r.Ok? ==> Covered(Generators(), log, |old(log)|, selectedPackages)
      ensures r.Ok? ==> Agree(old(Generators()), Generators(), old(session) - {n})
      ensures r.Ok? ==> Agree(old(ResolvedDeps()), ResolvedDeps(), old(session) - {n})
      ensures r.Ok? ==> Grown(old(Uses()), Uses())
      ensures Keeps(old(selectedPackages), selectedPackages)
      ensures r.Err? ==> Explained(r.error)
      decreases |Places(universe)| - |session|, 2
    {
      hide Covers, Covered, Keeps, Explained;
      hide HooksAccept, NoChange, WellFormed, Placed, Linked, Watched, Answered, Registered, ReadSelected, Served,
        Extends, Resolved, IsLogOf, Places, Uses, Grown, Closed, Discovered, Refreshed, Partial, Agree, Generators,
        ResolvedDeps;
      ghost var from := |log|;
      ghost var others := session - {n};
      r := BeginRegenerating(n);
      if r.Err? {
        return;
      }
      ghost var mid := log;
      var i := 0;
      while i < |n.generators|
        invariant i <= |n.generators| && n in session && Valid() && IsLogOf(log, session)
        invariant old(nodes) <= nodes && fresh(nodes - old(nodes)) && old(session) <= session && mid <= log
        invariant Partial(Generators(), ResolvedDeps(), log, session, from, n, i) && Covered(Generators(), log, from, selectedPackages)
        invariant Agree(old(Generators()), Generators(), others)
        invariant Agree(old(ResolvedDeps()), ResolvedDeps(), others)
        invariant Grown(old(Uses()), Uses()) && Keeps(old(selectedPackages), selectedPackages)
        decreases |n.generators| - i
      {
        ghost var g, d, u, s, p := Generators(), ResolvedDeps(), Uses(), session, selectedPackages;
        SessionFits(old(session));
        r := ResolveNext(n, i, from);
        KeepsTwice(old(selectedPackages), p, selectedPackages);
        if r.Err? {
          return;
        }
        AgreeTwice(old(Generators()), g, Generators(), others, s);
        AgreeTwice(old(ResolvedDeps()), d, ResolvedDeps(), others, s - {n});
        GrownTwice(old(Uses()), u, Uses());
        i := i + 1;
      }
      GeneratorsOf(n);
      PartialDone(Generators(), ResolvedDeps(), log, session, from, n);
      return Ok(());
    }

    lemma GeneratorsOf(n: SelectedEbuild)
      requires n in nodes
      ensures n in Generators() && Generators()[n] == n.generators
    {
    }

    lemma MetadataKnown(n: SelectedEbuild)
      requires Valid() && n in nodes
      ensures n.metadata in universe.Values
    {
      hide HooksAccept, NoChange, WellFormed, Placed, Linked, Answered, Registered, ReadSelected, Served;
    }

    /** The session grows, but never beyond the places there are. */
    lemma SessionFits(before: set<SelectedEbuild>)
      requires Valid() && before <= session
      ensures |before| <= |session| <= |Places(universe)|
    {
      hide HooksAccept, NoChange, WellFormed, Placed, Linked, Watched, Answered, Registered, ReadSelected, Served,
        Places, OnePerPlace;
      OnePlaceEach(selectedPackages, nodes);
      FewerOnePerPlace(session, nodes, Places(universe));
      NoMoreThanPlaces(session, Places(universe));
      assert session == before + (session - before);
    }

    method StartResolving(n: SelectedEbuild)
      requires Valid() && n in nodes
      modifies this`log, n`resolvedDeps
      ensures Valid() && log == old(log) + [n] && ResolvedDeps() == old(ResolvedDeps())[n := []]
      ensures Generators() == old(Generators()) && Uses() == old(Uses())
    {
      hide Uses, Generators, Extends;
      hide HooksAccept, NoChange, WellFormed, Placed, Linked, Watched, Answered, Registered, ReadSelected, Served;
      log := log + [n];
      n.resolvedDeps := [];
    }

    /** What is not dirty is not resolved again. */
    twostate predicate Untouched(n: SelectedEbuild)
      reads this, nodes, n, set x <- nodes :: x.metadata
    {
      && selectedPackages == old(selectedPackages) && nodes == old(nodes) && blocks == old(blocks)
      && n.globalFlagHooks == old(n.globalFlagHooks) && n.useFlagHooks == old(n.useFlagHooks)
      && Generators() == old(Generators()) && Uses() == old(Uses())
    }

    /** Everything before the generators of `n` are resolved. */
    method BeginRegenerating(n: SelectedEbuild) returns (r: Result<(), Failure>)
      requires Valid() && n in session && IsLogOf(log, session - {n})
      modifies this`selectedPackages, this`nodes, this`blocks, this`log, nodes, universe.Values
      ensures old(nodes) <= nodes && fresh(nodes - old(nodes))
      ensures r.Ok? ==> Valid() && log == old(log) + [n] && IsLogOf(log, session)
      ensures r.Ok? ==> Partial(Generators(), ResolvedDeps(), log, session, |old(log)|, n, 0)
      ensures r.Ok? ==> Covered(Generators(), log, |old(log)|, selectedPackages)
      ensures r.Ok? ==> Agree(old(Generators()), Generators(), session - {n})
      ensures r.Ok? ==> Agree(old(ResolvedDeps()), ResolvedDeps(), session - {n})
      ensures r.Ok? ==> Grown(old(Uses()), Uses())
      ensures r.Ok? ==> !n.isDirty
      ensures !old(n.isDirty) ==> r.Ok? && Untouched(n)
      ensures Keeps(old(selectedPackages), selectedPackages)
      ensures r.Err? ==> Explained(r.error)
    {
      hide Covers, Covered, Keeps, Explained;
      hide HooksAccept, NoChange, WellFormed, Placed, Linked, Watched, Answered, Registered, ReadSelected, Served,
        Extends, IsLogOf, Places, Grown, Partial, Agree, Uses, Generators, ResolvedDeps;
      ghost var g0, r0 := Generators(), ResolvedDeps();
      if n.isDirty {
        MetadataKnown(n);
        r := Rebuild(n);
        if r.Err? {
          return;
        }
        GraphsKept(n);
      } else {
        CleanCovers(n);
        KeepsAll(selectedPackages);
        GrownNot(Uses());
        SelfAgree(session - {n});
      }
      InGraphs(n);
      LogAppend(log, session, n);
      PartialStart(Generators(), ResolvedDeps()[n := []], log, session, n);
      AgreeUpdated(r0, ResolvedDeps(), session - {n}, n, []);
      assert session - {n} - {n} == session - {n};
      CoveredOne(log, n);
      StartResolving(n);
      return Ok(());
    }

    /** Rebuilding one ebuild leaves the generators of the others alone. */
    twostate lemma GraphsKept(n: SelectedEbuild)
      requires old(nodes) <= nodes && session <= old(nodes)
      requires forall x <- old(nodes) :: x != n ==> x.generators == old(x.generators)
      requires forall x <- old(nodes) :: x.resolvedDeps == old(x.resolvedDeps)
      ensures Agree(old(Generators()), Generators(), session - {n})
      ensures Agree(old(ResolvedDeps()), ResolvedDeps(), session - {n})
    {
    }

    lemma CleanCovers(n: SelectedEbuild)
      requires Valid() && n in nodes && !n.isDirty
      ensures Covers(n.metadata.depends, n.generators, selectedPackages)
    {
      hide Covers, WellFormed, Placed, Linked, Registered, ReadSelected, Served, Watched;
    }

    lemma CoveredOne(log: seq<SelectedEbuild>, n: SelectedEbuild)
      requires n in nodes && Covers(n.metadata.depends, n.generators, selectedPackages)
      ensures Covered(Generators(), log + [n], |log|, selectedPackages)
    {
      hide Covers;
    }

    lemma InGraphs(n: SelectedEbuild)
      requires n in nodes
      ensures n in Generators() && n in ResolvedDeps()
    {
    }

    lemma SelfAgree(s: set<SelectedEbuild>)
      requires s <= nodes
      ensures Agree(Generators(), Generators(), s) && Agree(ResolvedDeps(), ResolvedDeps(), s)
    {
    }

    method ClearSession()
      requires Valid()
      modifies this`session, this`log
      ensures Valid() && session == {} && IsLogOf(log, session)
    {
      hide HooksAccept, NoChange, WellFormed, Placed, Linked, Watched, Answered, Registered, ReadSelected, Served;
      session, log := {}, [];
    }
  }
}
