/** The use flags of a selected ebuild: scheduled changes, and hooks that watch every change. */
module UseFlags {
  import opened Wrappers
  import opened AtomFlags
  import opened EbuildMetadata
  import RequiredUses
  import Packages

  type Flags = RequiredUses.Flags

  type Expression = seq<RequiredUses.RequiredUse>

  type Error = RequiredUses.HookError

  type Change = (string, bool)

  /** A requirement fails on a flag, or because its option has the number of no default. */
  datatype RequirementError = FlagError(error: Error) | NoSuchDefault(option: UseOption)

  function Unknown(name: string): Error {
    RequiredUses.Broken(RequiredUses.UnknownFlag(name))
  }

  // ---- hooks ----

  /** A use requirement of an atom, or a conditional dependency; the latter never objects. */
  datatype Hook =
    | UseSelection(name: string, target: bool, enforcing: bool)
    | UseConditional(name: string)

  predicate HookAccepts(h: Hook, state: bool) {
    h.UseSelection? && h.enforcing ==> state == h.target
  }

  ghost predicate AllAccept(hooks: seq<Hook>, state: bool) {
    forall i :: 0 <= i < |hooks| ==> HookAccepts(hooks[i], state)
  }

  ghost predicate AllExpressionsAccept(globals: seq<Expression>, use: Flags) {
    forall i :: 0 <= i < |globals| ==> RequiredUses.Accepts(globals[i], use)
  }

  ghost predicate FlagHooksAccept(hooks: map<string, seq<Hook>>, use: Flags) {
    forall name <- hooks :: name in use && AllAccept(hooks[name], use[name])
  }

  /** Every hook would let the flags pass as they are. */
  ghost predicate HooksAccept(hooks: map<string, seq<Hook>>, globals: seq<Expression>, use: Flags) {
    FlagHooksAccept(hooks, use) && AllExpressionsAccept(globals, use)
  }

  ghost predicate Extends(more: Flags, use: Flags) {
    forall f <- use :: f in more && more[f] == use[f]
  }

  /** Flags that appear later upset no hook. */
  lemma HooksAcceptMore(hooks: map<string, seq<Hook>>, globals: seq<Expression>, use: Flags, more: Flags)
    requires HooksAccept(hooks, globals, use) && Extends(more, use)
    ensures HooksAccept(hooks, globals, more)
  {
    hide RequiredUses.JudgeAll, AllAccept;
    forall i | 0 <= i < |globals|
      ensures RequiredUses.Accepts(globals[i], more)
    {
      RequiredUses.JudgeAllStable(RequiredUses.AllOf, globals[i], use, more);
    }
  }

  /** After a change it is enough to ask the hooks of that flag and the global ones. */
  lemma HooksAfterChange(hooks: map<string, seq<Hook>>, globals: seq<Expression>, use: Flags, name: string, state: bool)
    requires HooksAccept(hooks, globals, use) && name in use
    ensures HooksAccept(hooks, globals, use[name := state])
      <==> (name in hooks ==> AllAccept(hooks[name], state)) && AllExpressionsAccept(globals, use[name := state])
  {
    hide RequiredUses.Accepts, AllAccept, AllExpressionsAccept;
  }

  /** A registered expression that the hooks let pass holds. */
  lemma AcceptedHolds(expression: Expression, use: Flags)
    requires RequiredUses.Accepts(expression, use)
    ensures RequiredUses.AllHold(expression, use)
  {
    hide RequiredUses.JudgeAll, RequiredUses.AllHold, RequiredUses.HoldCount;
    RequiredUses.CountsMean(RequiredUses.AllOf, expression, use);
    RequiredUses.HoldCountMeans(expression, use);
  }

  // ---- scheduled changes ----

  /** The flags after a sequence of changes. */
  function Applied(use: Flags, q: seq<Change>): Flags {
    if q == [] then use else Applied(use, q[..|q| - 1])[q[|q| - 1].0 := q[|q| - 1].1]
  }

  ghost predicate IsLast(q: seq<Change>, i: nat) {
    i < |q| && forall j :: i < j < |q| ==> q[j].0 != q[i].0
  }

  ghost predicate Mentions(q: seq<Change>, name: string) {
    exists i :: 0 <= i < |q| && q[i].0 == name
  }

  /** Each flag holds the last value scheduled for it. */
  lemma {:induction false} LastScheduledWins(use: Flags, q: seq<Change>, i: nat)
    requires IsLast(q, i)
    ensures q[i].0 in Applied(use, q) && Applied(use, q)[q[i].0] == q[i].1
  {
    if i < |q| - 1 {
      assert q[|q| - 1].0 != q[i].0;
      LastScheduledWins(use, q[..|q| - 1], i);
    }
  }

  /** A flag nothing was scheduled for stays as it was, or stays away. */
  lemma {:induction false} UnscheduledStays(use: Flags, q: seq<Change>, f: string)
    requires !Mentions(q, f)
    ensures f in Applied(use, q) <==> f in use
    ensures f in use ==> Applied(use, q)[f] == use[f]
  {
    if q != [] {
      assert q[|q| - 1].0 != f;
      assert !Mentions(q[..|q| - 1], f);
      UnscheduledStays(use, q[..|q| - 1], f);
    }
  }

  ghost predicate NoChange(use: Flags, q: seq<Change>) {
    forall i :: 0 <= i < |q| ==> q[i].0 in use && use[q[i].0] == q[i].1
  }

  lemma {:induction false} NothingApplied(use: Flags, q: seq<Change>)
    requires NoChange(use, q)
    ensures Applied(use, q) == use
  {
    if q != [] {
      NothingApplied(use, q[..|q| - 1]);
      assert use[q[|q| - 1].0 := q[|q| - 1].1] == use;
    }
  }

  lemma NoChangeExtends(use: Flags, more: Flags, q: seq<Change>)
    requires NoChange(use, q) && Extends(more, use)
    ensures NoChange(more, q)
  {
  }

  /** Changes that change nothing cannot fail. */
  lemma NoChangePasses(hooks: map<string, seq<Hook>>, globals: seq<Expression>, use: Flags, q: seq<Change>)
    requires NoChange(use, q) && HooksAccept(hooks, globals, use)
    ensures AllPass(hooks, globals, use, q)
  {
    hide HooksAccept, Applied;
    forall i | 0 <= i < |q|
      ensures ChangePasses(hooks, globals, use, q, i)
    {
      NothingApplied(use, q[..i]);
      NothingApplied(use, q[..i + 1]);
    }
  }

  lemma AppliedNext(use: Flags, q: seq<Change>, i: nat)
    requires i < |q|
    ensures Applied(use, q[..i + 1]) == Applied(use, q[..i])[q[i].0 := q[i].1]
  {
    assert q[..i + 1][..i] == q[..i];
  }

  /** The state after `i + 1` changes pleases every hook, and the flag changed last was there. */
  ghost predicate ChangePasses(hooks: map<string, seq<Hook>>, globals: seq<Expression>, use: Flags, q: seq<Change>, i: nat)
    requires i < |q|
  {
    q[i].0 in Applied(use, q[..i]) && HooksAccept(hooks, globals, Applied(use, q[..i + 1]))
  }

  ghost predicate AllPass(hooks: map<string, seq<Hook>>, globals: seq<Expression>, use: Flags, q: seq<Change>) {
    forall i :: 0 <= i < |q| ==> ChangePasses(hooks, globals, use, q, i)
  }

  /** No hook that change `i` has run objects: those of its flag and the global ones, and none if the
      flag has that state already. */
  ghost predicate ChangeRuns(hooks: map<string, seq<Hook>>, globals: seq<Expression>, use: Flags, q: seq<Change>, i: nat)
    requires i < |q|
  {
    var before, name, state := Applied(use, q[..i]), q[i].0, q[i].1;
    && name in before
    && (before[name] != state ==>
          && (name in hooks ==> AllAccept(hooks[name], state))
          && AllExpressionsAccept(globals, Applied(use, q[..i + 1])))
  }

  ghost predicate AllRun(hooks: map<string, seq<Hook>>, globals: seq<Expression>, use: Flags, q: seq<Change>, n: nat)
    requires n <= |q|
  {
    forall i :: 0 <= i < n ==> ChangeRuns(hooks, globals, use, q, i)
  }

  /** From a state that pleases every hook the hooks that are run stand for all of them. */
  lemma {:induction false} RunsWatchAll(hooks: map<string, seq<Hook>>, globals: seq<Expression>, use: Flags, q: seq<Change>, n: nat)
    requires HooksAccept(hooks, globals, use) && n <= |q|
    ensures AllRun(hooks, globals, use, q, n) <==> forall i :: 0 <= i < n ==> ChangePasses(hooks, globals, use, q, i)
    ensures AllRun(hooks, globals, use, q, n) ==> HooksAccept(hooks, globals, Applied(use, q[..n]))
  {
    hide HooksAccept, Applied, ChangeRuns, ChangePasses;
    if n == 0 {
      AppliedNone(use, q);
    } else {
      RunsWatchAll(hooks, globals, use, q, n - 1);
      if AllRun(hooks, globals, use, q, n - 1) {
        RunWatchesAll(hooks, globals, use, q, n - 1);
      }
    }
  }

  lemma RunWatchesAll(hooks: map<string, seq<Hook>>, globals: seq<Expression>, use: Flags, q: seq<Change>, i: nat)
    requires i < |q| && HooksAccept(hooks, globals, Applied(use, q[..i]))
    ensures ChangeRuns(hooks, globals, use, q, i) <==> ChangePasses(hooks, globals, use, q, i)
    ensures ChangeRuns(hooks, globals, use, q, i) ==> HooksAccept(hooks, globals, Applied(use, q[..i + 1]))
  {
    hide HooksAccept, Applied, AllExpressionsAccept, AllAccept;
    var before := Applied(use, q[..i]);
    AppliedNext(use, q, i);
    if q[i].0 in before {
      HooksAfterChange(hooks, globals, before, q[i].0, q[i].1);
      assert before[q[i].0] == q[i].1 ==> before[q[i].0 := q[i].1] == before;
    }
  }

  /** The flags and the queue when change `i` is the first that a hook objects to, or that has no flag. */
  ghost predicate StoppedAt(hooks: map<string, seq<Hook>>, globals: seq<Expression>, use: Flags, q: seq<Change>, i: nat,
                            after: Flags, rest: seq<Change>)
    requires i < |q|
  {
    && AllRun(hooks, globals, use, q, i) && !ChangeRuns(hooks, globals, use, q, i)
    && rest == q[i + 1..]
    && after == Applied(use, if q[i].0 in Applied(use, q[..i]) then q[..i + 1] else q[..i])
  }

  // ---- requirements of atoms ----

  /** Which current states a use requirement puts up with. */
  predicate Meets(option: UseOption, state: bool) {
    match option
    case Enable => state
    case Disable => !state
    case Opposite => false
    case _ => true
  }

  function Selection(name: string, option: UseOption, state: bool): Hook {
    match option
    case Enable => UseSelection(name, true, true)
    case Disable => UseSelection(name, false, true)
    case DisableIfOff => UseSelection(name, state, !state)
    case EnableIfOn => UseSelection(name, state, state)
    case Equal => UseSelection(name, state, true)
    case Opposite => UseSelection(name, !state, true)
  }

  /** The change a requirement schedules when it is made. */
  function Wanted(name: string, option: UseOption, state: bool): seq<Change> {
    match option
    case Enable => [(name, true)]
    case Disable => [(name, false)]
    case Opposite => [(name, !state)]
    case _ => []
  }

  /** What an option asks of a flag, given a state to go by. */
  predicate Suits(option: UseOption, given: bool, state: bool) {
    match option
    case Enable => state
    case Disable => !state
    case EnableIfOn => given ==> state
    case DisableIfOff => !given ==> !state
    case Equal => state == given
    case Opposite => state != given
  }

  /** From then on the hook of a requirement lets exactly those states pass that suit the option, given the
      flag's own state at the time; that state itself is put up with exactly if it suits. */
  lemma HookSuits(name: string, option: UseOption, given: bool, state: bool)
    ensures HookAccepts(Selection(name, option, given), state) <==> Suits(option, given, state)
    ensures Meets(option, given) <==> Suits(option, given, given)
  {
  }

  /** What a requirement schedules makes its flag suit an option that names a state or the opposite one, and
      touches nothing else; for the other options nothing is scheduled. */
  lemma WantedSuits(name: string, option: UseOption, use: Flags)
    requires name in use
    ensures var after := Applied(use, Wanted(name, option, use[name]));
      && name in after && Suits(option, use[name], after[name])
      && (Suits(option, use[name], use[name]) ==> after == use)
      && (forall f :: f != name ==> (f in after <==> f in use) && (f in use ==> after[f] == use[f]))
    ensures Wanted(name, option, use[name]) == [] <==> option == DisableIfOff || option == EnableIfOn || option == Equal
  {
    var q := Wanted(name, option, use[name]);
    if q != [] {
      assert q[..0] == [];
    }
  }

  /** A requirement schedules its change, but the hook it installs looks at the state before that
      change; so it succeeds only where the change is none. */
  lemma RequirementNeverChanges(name: string, option: UseOption, use: Flags)
    requires name in use
    ensures HookAccepts(Selection(name, option, use[name]), use[name]) <==> Meets(option, use[name])
    ensures Meets(option, use[name]) ==> NoChange(use, Wanted(name, option, use[name]))
  {
  }

  /** The state and the option with which an unknown flag is added: by the default it is read with. */
  function Missing(u: AtomFlag): Option<(bool, UseOption)> {
    match ReadDefault(u)
    case Some(On) => Some((true, Enable))
    case Some(Off) => Some((false, Disable))
    case _ => None
  }

  /** The flags known after a list of requirements. */
  function Assumed(use: Flags, us: seq<AtomFlag>): Flags {
    if us == [] then use
    else
      var front, u := Assumed(use, us[..|us| - 1]), us[|us| - 1];
      if u.name in front || Missing(u) == None then front else front[u.name := Missing(u).value.0]
  }

  predicate Admits(use: Flags, u: AtomFlag) {
    if u.name in use then Meets(u.option, use[u.name]) else Missing(u).Some?
  }

  predicate AdmitsAll(use: Flags, us: seq<AtomFlag>) {
    forall i :: 0 <= i < |us| ==> Admits(Assumed(use, us[..i]), us[i])
  }

  /** The first requirement that is not admitted, and why. */
  ghost predicate RefusedFor(use: Flags, us: seq<AtomFlag>, error: RequirementError) {
    exists i :: 0 <= i < |us| && RefusedAt(Assumed(use, us[..i]), us[i], error)
      && forall j :: 0 <= j < i ==> Admits(Assumed(use, us[..j]), us[j])
  }

  /** A known flag is in the wrong state; an unknown one has no default, or an option that numbers none. */
  predicate RefusedAt(use: Flags, u: AtomFlag, error: RequirementError) {
    && !Admits(use, u)
    && if u.name in use then error == FlagError(RequiredUses.Rejected(RequiredUses.UseSuggestion(u.name, !use[u.name])))
       else if ReadDefault(u) == Some(NoDefault) then error == FlagError(Unknown(u.name))
       else ReadDefault(u) == None && error == NoSuchDefault(u.option)
  }

  /** An unknown flag is admitted with `x` and with `x?` and in no other way; it is then added on and
      kept on, or added off and kept off. */
  lemma MissingFlagExactly(use: Flags, u: AtomFlag, state: bool)
    requires u.name !in use
    ensures Admits(use, u) <==> u.option == Enable || u.option == EnableIfOn
    ensures Admits(use, u) ==> Assumed(use, [u]) == use[u.name := u.option == Enable]
    ensures Admits(use, u) ==>
      (HookAccepts(Selection(u.name, Missing(u).value.1, u.option == Enable), state) <==> state == (u.option == Enable))
  {
    assert [u][..0] == [];
  }

  /** The verdict a written default calls for on an ebuild that lacks the flag: as if it had the flag in that
      state. Conditional forms go by the state the flag has in the ebuild that makes the requirement. Without
      a default the requirement is an error. */
  predicate DefaultSuits(option: UseOption, d: UseDefault, parent: bool) {
    d != NoDefault && Suits(option, parent, d == On)
  }

  /** Where `x` and `x?` always pass and the others never do, that is right. */
  predicate VerdictIsRight(option: UseOption, d: UseDefault, parent: bool) {
    match option
    case Enable => d == On
    case EnableIfOn => d == On || (d == Off && !parent)
    case Disable => d != Off
    case DisableIfOff => d == NoDefault || (d == On && !parent)
    case Equal => d == NoDefault || (d == On) != parent
    case Opposite => d == NoDefault || (d == On) == parent
  }

  function RequirementText(n: string, d: UseDefault, option: UseOption): (r: string)
    ensures r != ""
  {
    "[" + Repr(n + DefaultText(d), option) + "]"
  }

  /** The verdict on a missing flag is the one its written default calls for exactly where the option and the
      default happen to meet. */
  lemma DefaultVerdictExactly(use: Flags, n: string, d: UseDefault, option: UseOption, parent: bool)
    requires Identifier(n) && n + DefaultText(d) !in use
    ensures (AdmitsAll(use, FlagsOf(RequirementText(n, d, option))) <==> DefaultSuits(option, d, parent))
      <==> VerdictIsRight(option, d, parent)
  {
    hide FlagsOf, Repr, Identifier, Assumed;
    DefaultIsLost(n, d, option);
    OneAdmitted(use, AtomFlag(n + DefaultText(d), option, NoDefault));
  }

  lemma OneAdmitted(use: Flags, u: AtomFlag)
    ensures AdmitsAll(use, [u]) <==> Admits(use, u)
    ensures u.name !in use && Admits(use, u) ==> Assumed(use, [u]) == use[u.name := u.option == Enable]
    ensures u.name in use ==> Assumed(use, [u]) == use
  {
    assert [u][..0] == [];
  }

  /** And the flag that is added is not the one that was meant, but one that is named with the default. */
  lemma DefaultNamesTheFlag(use: Flags, n: string, d: UseDefault, option: UseOption)
    requires Identifier(n) && d != NoDefault && n !in use && n + DefaultText(d) !in use
    requires option == Enable || option == EnableIfOn
    ensures Assumed(use, FlagsOf(RequirementText(n, d, option))) == use[n + DefaultText(d) := option == Enable]
    ensures n !in Assumed(use, FlagsOf(RequirementText(n, d, option)))
  {
    hide FlagsOf, Repr, Identifier, Assumed;
    DefaultIsLost(n, d, option);
    OneAdmitted(use, AtomFlag(n + DefaultText(d), option, NoDefault));
    assert |n + DefaultText(d)| == |n| + 3;
  }

  /** On an ebuild without `foo`, `[foo(-)]` should fail and passes, and `[-foo(-)]` should pass and fails. */
  lemma WrittenDefaultIgnored()
    ensures AdmitsAll(map[], FlagsOf("[foo(-)]")) && !DefaultSuits(Enable, Off, false) && !DefaultSuits(Enable, Off, true)
    ensures !AdmitsAll(map[], FlagsOf("[-foo(-)]")) && DefaultSuits(Disable, Off, false) && DefaultSuits(Disable, Off, true)
  {
    hide FlagsOf, Identifier, AdmitsAll;
    assert Identifier("foo") by { IdentifierFoo(); }
    DefaultVerdictExactly(map[], "foo", Off, Enable, false);
    DefaultVerdictExactly(map[], "foo", Off, Disable, false);
    assert "foo" + "(-)" == "foo(-)" && "[" + "foo(-)" + "]" == "[foo(-)]";
    assert "-" + "foo(-)" == "-foo(-)" && "[" + "-foo(-)" + "]" == "[-foo(-)]";
  }

  lemma IdentifierFoo()
    ensures Identifier("foo")
  {
  }

  /** What a requirement that was admitted amounts to: the flag is there, in a state that suits the option. */
  predicate Fulfilled(use: Flags, u: AtomFlag) {
    u.name in use && Meets(u.option, use[u.name])
  }

  ghost predicate AllFulfilled(use: Flags, us: seq<AtomFlag>) {
    forall i :: 0 <= i < |us| ==> Fulfilled(use, us[i])
  }

  lemma FulfilledLater(use: Flags, more: Flags, us: seq<AtomFlag>)
    requires AllFulfilled(use, us) && Extends(more, use)
    ensures AllFulfilled(more, us)
  {
  }

  lemma AdmittedOne(use: Flags, us: seq<AtomFlag>, i: nat)
    requires i < |us| && Admits(Assumed(use, us[..i]), us[i])
    ensures Fulfilled(Assumed(use, us[..i + 1]), us[i])
    ensures Extends(Assumed(use, us[..i + 1]), Assumed(use, us[..i]))
  {
    hide Assumed;
    AssumedNext(use, us, i);
  }

  lemma {:induction false} AdmittedFulfilled(use: Flags, us: seq<AtomFlag>, n: nat)
    requires AdmitsAll(use, us) && n <= |us|
    ensures AllFulfilled(Assumed(use, us[..n]), us[..n])
  {
    hide Meets, Admits, Assumed, Fulfilled, Extends;
    if n > 0 {
      AdmittedFulfilled(use, us, n - 1);
      AdmittedOne(use, us, n - 1);
      FulfilledLater(Assumed(use, us[..n - 1]), Assumed(use, us[..n]), us[..n - 1]);
      assert us[..n] == us[..n - 1] + [us[n - 1]];
    }
  }

  /** The hook that a requirement leaves behind. */
  predicate Watches(hooks: map<string, seq<Hook>>, use: Flags, u: AtomFlag) {
    u.name in use && u.name in hooks
    && (Selection(u.name, u.option, use[u.name]) in hooks[u.name]
        || (Missing(u).Some? && Selection(u.name, Missing(u).value.1, use[u.name]) in hooks[u.name]))
  }

  ghost predicate AllWatch(hooks: map<string, seq<Hook>>, use: Flags, us: seq<AtomFlag>) {
    forall i :: 0 <= i < |us| ==> Watches(hooks, use, us[i])
  }

  /** One hook more, behind those of its flag. */
  function WithHook(hooks: map<string, seq<Hook>>, name: string, hook: Hook): map<string, seq<Hook>> {
    hooks[name := (if name in hooks then hooks[name] else []) + [hook]]
  }

  /** Hooks are only ever added. */
  ghost predicate MoreHooks(hooks: map<string, seq<Hook>>, more: map<string, seq<Hook>>) {
    forall name <- hooks :: name in more && hooks[name] <= more[name]
  }

  lemma WatchLater(hooks: map<string, seq<Hook>>, more: map<string, seq<Hook>>, use: Flags, later: Flags, us: seq<AtomFlag>)
    requires AllWatch(hooks, use, us) && MoreHooks(hooks, more) && Extends(later, use)
    ensures AllWatch(more, later, us)
  {
    forall i | 0 <= i < |us|
      ensures Watches(more, later, us[i])
    {
      var name := us[i].name;
      assert Watches(hooks, use, us[i]) && hooks[name] <= more[name];
      assert forall h <- hooks[name] :: h in more[name];
    }
  }

  lemma AssumedNext(use: Flags, us: seq<AtomFlag>, i: nat)
    requires i < |us|
    ensures var a := Assumed(use, us[..i]);
      Assumed(use, us[..i + 1])
        == if us[i].name in a || Missing(us[i]) == None then a else a[us[i].name := Missing(us[i]).value.0]
  {
    assert us[..i + 1][..i] == us[..i];
  }

  /** Requirements add flags and change none: whatever was known keeps its state. */
  lemma {:induction false} AssumedExtends(use: Flags, us: seq<AtomFlag>)
    ensures Extends(Assumed(use, us), use)
  {
    if us != [] {
      AssumedExtends(use, us[..|us| - 1]);
    }
  }

  /** A requirement on a flag known beforehand is judged by that flag's state alone. */
  lemma AdmitsKnown(use: Flags, us: seq<AtomFlag>, i: nat)
    requires AdmitsAll(use, us) && i < |us| && us[i].name in use
    ensures Meets(us[i].option, use[us[i].name])
  {
    AssumedExtends(use, us[..i]);
  }

  // ---- requirements on declared flags, made before they show ----

  /** What shows once the declared flags do: the ebuild's own values come before them. */
  function Shown(iuse: Flags, own: Flags): Flags {
    iuse + own
  }

  /** A declared flag shows its declared state if and only if the ebuild has no other value of its own for it. */
  lemma DeclaredStateShows(iuse: Flags, own: Flags, f: string)
    requires f in iuse
    ensures f in Shown(iuse, own)
    ensures Shown(iuse, own)[f] == iuse[f] <==> (f in own ==> own[f] == iuse[f])
  {
  }

  /** A requirement on a declared flag should be judged by its declared state and leave it. */
  predicate JudgedAsDeclared(iuse: Flags, u: AtomFlag)
    requires u.name in iuse
  {
    && (Admits(map[], u) <==> Admits(iuse, u))
    && (Admits(map[], u) ==> Shown(iuse, Assumed(map[], [u]))[u.name] == iuse[u.name])
  }

  /** On an ebuild selected by the very atom its cache file has not been read, and no declared flag shows:
      the requirement is judged as declared exactly for `x` and `-x` on a flag declared on, for `x?` on one
      declared off, and for `!x=`, which always fails. */
  lemma JudgedAsDeclaredExactly(iuse: Flags, u: AtomFlag)
    requires u.name in iuse
    ensures JudgedAsDeclared(iuse, u) <==>
      match u.option
      case Enable => iuse[u.name]
      case Disable => iuse[u.name]
      case EnableIfOn => !iuse[u.name]
      case Opposite => true
      case _ => false
  {
    hide Assumed;
    OneAdmitted(map[], u);
  }

  /** `[x]` turns a flag declared off on, `[x?]` one declared on off, and `[-x]` fails on one declared off. */
  lemma DeclaredFlagsMisjudged(n: string)
    ensures AdmitsAll(map[], [AtomFlag(n, Enable, NoDefault)])
      && Shown(map[n := false], Assumed(map[], [AtomFlag(n, Enable, NoDefault)])) == map[n := true]
    ensures AdmitsAll(map[], [AtomFlag(n, EnableIfOn, NoDefault)])
      && Shown(map[n := true], Assumed(map[], [AtomFlag(n, EnableIfOn, NoDefault)])) == map[n := false]
    ensures !AdmitsAll(map[], [AtomFlag(n, Disable, NoDefault)])
      && AdmitsAll(map[n := false], [AtomFlag(n, Disable, NoDefault)])
  {
    hide Assumed, AdmitsAll;
    OneAdmitted(map[], AtomFlag(n, Enable, NoDefault));
    OneAdmitted(map[], AtomFlag(n, EnableIfOn, NoDefault));
    OneAdmitted(map[], AtomFlag(n, Disable, NoDefault));
    OneAdmitted(map[n := false], AtomFlag(n, Disable, NoDefault));
  }

  // ---- selected ebuilds ----

  class SelectedEbuild {
    const ebuild: Packages.Ebuild
    const metadata: Metadata
    /** The package key and the slot under which the ebuild was selected. */
    const place: (string, Option<string>)
    /** The atom that selected it. */
    const selectedBy: Packages.Atom
    var useflags: Flags
    var useFlagHooks: map<string, seq<Hook>>
    var globalFlagHooks: seq<Expression>
    var flags: seq<Change>
    var isDirty: bool
    var generators: seq<SelectedEbuild>
    var resolvedDeps: seq<SelectedEbuild>

    constructor (ebuild: Packages.Ebuild, metadata: Metadata, slot: Option<string>, atom: Packages.Atom)
      ensures this.ebuild == ebuild && this.metadata == metadata && place == (ebuild.packageKey, slot)
      ensures selectedBy == atom
      ensures useflags == map[] && useFlagHooks == map[] && globalFlagHooks == [] && flags == []
      ensures isDirty && generators == [] && resolvedDeps == []
      ensures Satisfied() && Idle()
    {
      this.ebuild, this.metadata, this.place, this.selectedBy := ebuild, metadata, (ebuild.packageKey, slot), atom;
      useflags, useFlagHooks, globalFlagHooks, flags := map[], map[], [], [];
      isDirty, generators, resolvedDeps := true, [], [];
    }

    /** The state of every flag: the declared ones, overridden by the ebuild's own. */
    function Use(): Flags
      reads this`useflags, metadata
    {
      Shown(metadata.Iuse(), useflags)
    }

    ghost predicate Satisfied()
      reads this`useflags, this`useFlagHooks, this`globalFlagHooks, metadata
    {
      HooksAccept(useFlagHooks, globalFlagHooks, Use())
    }

    /** Every scheduled change would change nothing. */
    ghost predicate Idle()
      reads this`useflags, this`flags, metadata
    {
      NoChange(Use(), flags)
    }

    method HasUse(name: string) returns (r: bool)
      ensures r <==> name in Use()
    {
      return name in useflags || name in metadata.Iuse();
    }

    method GetUse(name: string) returns (r: Result<bool, Error>)
      ensures r == if name in Use() then Ok(Use()[name]) else Err(Unknown(name))
    {
      if name !in useflags {
        return if name in metadata.Iuse() then Ok(metadata.Iuse()[name]) else Err(Unknown(name));
      }
      return Ok(useflags[name]);
    }

    method AddUse(name: string, value: bool)
      modifies this`useflags
      ensures useflags == old(useflags)[name := value] && Use() == old(Use())[name := value]
      ensures old(Satisfied()) && name !in old(Use()) ==> Satisfied()
      ensures old(Idle()) && name !in old(Use()) ==> Idle()
    {
      hide HooksAccept;
      useflags := useflags[name := value];
      assert Use() == old(Use())[name := value];
      if old(Satisfied()) && name !in old(Use()) {
        HooksAcceptMore(useFlagHooks, globalFlagHooks, old(Use()), Use());
      }
    }

    method ScheduleUse(name: string, state: bool)
      modifies this`flags, this`isDirty
      ensures flags == old(flags) + [(name, state)] && isDirty
    {
      flags := flags + [(name, state)];
      isDirty := true;
    }

    static method RunHook(hook: Hook, state: bool) returns (r: Result<(), Error>)
      ensures r.Ok? <==> HookAccepts(hook, state)
      ensures r.Err? ==> r.error == RequiredUses.Rejected(RequiredUses.UseSuggestion(hook.name, !state))
    {
      if hook.UseSelection? && hook.enforcing && state != hook.target {
        return Err(RequiredUses.Rejected(RequiredUses.UseSuggestion(hook.name, hook.target)));
      }
      return Ok(());
    }

    /** The flag is not known, or its state should be the other one. */
    static function Refusal(hooked: string, name: string, use: Flags): Error {
      if name in use then RequiredUses.Rejected(RequiredUses.UseSuggestion(hooked, !use[name])) else Unknown(name)
    }

    method AddUseHook(name: string, hook: Hook) returns (r: Result<(), Error>)
      modifies this`useFlagHooks
      ensures useFlagHooks == WithHook(old(useFlagHooks), name, hook)
      ensures r.Ok? <==> name in Use() && HookAccepts(hook, Use()[name])
      ensures r.Err? ==> r.error == Refusal(hook.name, name, Use())
      ensures old(Satisfied()) ==> (r.Ok? <==> Satisfied())
    {
      hide RequiredUses.Accepts, HookAccepts;
      if name !in useFlagHooks {
        useFlagHooks := useFlagHooks[name := []];
      }
      useFlagHooks := useFlagHooks[name := useFlagHooks[name] + [hook]];
      assert hook == useFlagHooks[name][|useFlagHooks[name]| - 1];
      var state := GetUse(name);
      if state.Err? {
        return Err(state.error);
      }
      r := RunHook(hook, state.value);
    }

    method AddGlobalHook(expression: Expression) returns (r: Result<(), Error>)
      modifies this`globalFlagHooks
      ensures globalFlagHooks == old(globalFlagHooks) + [expression]
      ensures r.Ok? <==> RequiredUses.Accepts(expression, Use())
      ensures r.Err? ==> RequiredUses.Objects(expression, Use(), r.error)
      ensures old(Satisfied()) ==> (r.Ok? <==> Satisfied())
    {
      hide RequiredUses.Accepts, RequiredUses.Objects, AllAccept;
      globalFlagHooks := globalFlagHooks + [expression];
      assert globalFlagHooks[|globalFlagHooks| - 1] == expression;
      r := RequiredUses.RunRequiredUseHook(expression, Use());
    }

    /** A requirement succeeds exactly when the flag is known and its current state is already one
        the requirement puts up with; success leaves nothing to change. */
    method AddUseRequirement(name: string, option: UseOption) returns (r: Result<(), Error>)
      modifies this`flags, this`isDirty, this`useFlagHooks
      ensures r.Ok? <==> name in Use() && Meets(option, Use()[name])
      ensures name !in Use() ==> flags == old(flags) && useFlagHooks == old(useFlagHooks) && isDirty == old(isDirty)
      ensures name in Use() ==>
        && flags == old(flags) + Wanted(name, option, Use()[name])
        && useFlagHooks == WithHook(old(useFlagHooks), name, Selection(name, option, Use()[name]))
        && isDirty == (old(isDirty) || Wanted(name, option, Use()[name]) != [])
      ensures r.Err? ==> r.error == Refusal(name, name, Use())
      ensures MoreHooks(old(useFlagHooks), useFlagHooks)
      ensures old(Satisfied()) && r.Ok? ==> Satisfied()
      ensures old(Idle()) && r.Ok? ==> Idle()
    {
      hide HooksAccept;
      var use := GetUse(name);
      if use.Err? {
        return Err(use.error);
      }
      var state := use.value;
      var target, enforcing := state, false;
      match option {
        case Enable =>
          target, enforcing := true, true;
          ScheduleUse(name, true);
        case Disable =>
          target, enforcing := false, true;
          ScheduleUse(name, false);
        case DisableIfOff =>
          if !target {
            enforcing := true;
          }
        case EnableIfOn =>
          if target {
            enforcing := true;
          }
        case Equal =>
          enforcing := true;
        case Opposite =>
          enforcing := true;
          target := !target;
          ScheduleUse(name, target);
      }
      RequirementNeverChanges(name, option, Use());
      r := AddUseHook(name, UseSelection(name, target, enforcing));
    }

    /** One requirement of an atom: an unknown flag is added by its default before it is required. */
    method RequireUse(use: AtomFlag) returns (r: Result<(), RequirementError>)
      modifies this`useflags, this`flags, this`isDirty, this`useFlagHooks
      ensures r.Ok? <==> Admits(old(Use()), use)
      ensures r.Ok? ==>
        Use() == if use.name in old(Use()) then old(Use()) else old(Use())[use.name := Missing(use).value.0]
      ensures r.Err? ==> RefusedAt(old(Use()), use, r.error)
      ensures r.Ok? ==> (old(Satisfied()) ==> Satisfied()) && (old(Idle()) ==> Idle())
      ensures r.Ok? ==> Watches(useFlagHooks, Use(), use)
      ensures MoreHooks(old(useFlagHooks), useFlagHooks) && (old(isDirty) ==> isDirty)
    {
      hide HooksAccept, Selection, Meets, NoChange;
      var required: Result<(), Error>;
      var has := HasUse(use.name);
      if !has {
        var default := ReadDefault(use);
        if default.None? {
          return Err(NoSuchDefault(use.option));
        }
        if default.value == NoDefault {
          return Err(FlagError(Unknown(use.name)));
        }
        var flag := if default.value == On then Enable else Disable;
        AddUse(use.name, flag == Enable);
        MeetsDefault(flag);
        required := AddUseRequirement(use.name, flag);
      } else {
        required := AddUseRequirement(use.name, use.option);
      }
      return if required.Err? then Err(FlagError(required.error)) else Ok(());
    }

    /** The requirements of one atom, in order. */
    method RequireUses(uses: seq<AtomFlag>) returns (r: Result<(), RequirementError>)
      modifies this`useflags, this`flags, this`isDirty, this`useFlagHooks
      ensures r.Ok? <==> AdmitsAll(old(Use()), uses)
      ensures r.Ok? ==> Use() == Assumed(old(Use()), uses)
      ensures r.Err? ==> RefusedFor(old(Use()), uses, r.error)
      ensures r.Ok? ==> (old(Satisfied()) ==> Satisfied()) && (old(Idle()) ==> Idle())
      ensures r.Ok? ==> AllWatch(useFlagHooks, Use(), uses)
      ensures MoreHooks(old(useFlagHooks), useFlagHooks) && (old(isDirty) ==> isDirty)
    {
      hide HooksAccept, AllWatch, Watches, MoreHooks, Admits, RefusedAt, Assumed, NoChange;
      var i := 0;
      AssumedNone(old(Use()), uses);
      NothingToWatch(useFlagHooks, Use(), uses);
      while i < |uses|
        invariant i <= |uses| && (old(isDirty) ==> isDirty)
        invariant (old(Satisfied()) ==> Satisfied()) && (old(Idle()) ==> Idle())
        invariant Use() == Assumed(old(Use()), uses[..i])
        invariant forall j :: 0 <= j < i ==> Admits(Assumed(old(Use()), uses[..j]), uses[j])
        invariant AllWatch(useFlagHooks, Use(), uses[..i]) && MoreHooks(old(useFlagHooks), useFlagHooks)
      {
        ghost var hooks0, use0 := useFlagHooks, Use();
        AssumedNext(old(Use()), uses, i);
        AdmitsMeans(use0, uses[i]);
        r := RequireUse(uses[i]);
        MoreHooksTwice(old(useFlagHooks), hooks0, useFlagHooks);
        if r.Err? {
          return;
        }
        WatchNext(hooks0, useFlagHooks, use0, Use(), uses, i);
        i := i + 1;
      }
      assert uses[..i] == uses;
      return Ok(());
    }

    method RunFlagHooks(name: string, state: bool) returns (r: Result<(), Error>)
      ensures r.Ok? <==> (name in useFlagHooks ==> AllAccept(useFlagHooks[name], state))
    {
      hide HookAccepts;
      if name in useFlagHooks {
        var hooks := useFlagHooks[name];
        for i := 0 to |hooks|
          invariant AllAccept(hooks[..i], state)
        {
          assert hooks[..i + 1] == hooks[..i] + [hooks[i]];
          r := RunHook(hooks[i], state);
          if r.Err? {
            return;
          }
        }
        assert hooks[..|hooks|] == hooks;
      }
      return Ok(());
    }

    method RunGlobalHooks() returns (r: Result<(), Error>)
      ensures r.Ok? <==> AllExpressionsAccept(globalFlagHooks, Use())
    {
      hide RequiredUses.Accepts;
      for i := 0 to |globalFlagHooks|
        invariant AllExpressionsAccept(globalFlagHooks[..i], Use())
      {
        r := RequiredUses.RunRequiredUseHook(globalFlagHooks[i], Use());
        if r.Err? {
          return;
        }
      }
      assert globalFlagHooks[..|globalFlagHooks|] == globalFlagHooks;
      return Ok(());
    }

    /** One change: its hooks are run if it is one. */
    method ApplyChange(name: string, state: bool) returns (r: Result<(), Error>)
      modifies this`useflags
      ensures name !in old(Use()) ==> r.Err? && useflags == old(useflags)
      ensures name in old(Use()) ==> Use() == old(Use())[name := state]
      ensures name in old(Use()) ==>
        (r.Ok? <==>
          (old(Use())[name] != state ==>
            (name in useFlagHooks ==> AllAccept(useFlagHooks[name], state)) && AllExpressionsAccept(globalFlagHooks, Use())))
    {
      hide AllExpressionsAccept, AllAccept;
      var current := GetUse(name);
      if current.Err? {
        return Err(current.error);
      }
      if current.value != state {
        useflags := useflags[name := state];
        r := RunFlagHooks(name, state);
        if r.Err? {
          return;
        }
        r := RunGlobalHooks();
        return;
      }
      assert Use()[name := state] == Use();
      return Ok(());
    }

    /** The scheduled changes one by one. From a state that pleases every hook it succeeds exactly when
        every state on the way does, although only a changed flag's own hooks and the global ones are run. */
    method FlushUse() returns (r: Result<(), Error>)
      modifies this`useflags, this`flags
      ensures r.Ok? <==> AllRun(useFlagHooks, globalFlagHooks, old(Use()), old(flags), |old(flags)|)
      ensures r.Ok? ==> flags == [] && Use() == Applied(old(Use()), old(flags))
      ensures r.Err? ==> exists i ::
        0 <= i < |old(flags)| && StoppedAt(useFlagHooks, globalFlagHooks, old(Use()), old(flags), i, Use(), flags)
      ensures old(Satisfied()) ==>
        (r.Ok? <==> AllPass(useFlagHooks, globalFlagHooks, old(Use()), old(flags))) && (r.Ok? ==> Satisfied())
    {
      hide HooksAccept, Applied, AllExpressionsAccept, AllAccept, ChangePasses;
      ghost var i := 0;
      ghost var use0, q := Use(), flags;
      AppliedNone(use0, q);
      if Satisfied() {
        RunsWatchAll(useFlagHooks, globalFlagHooks, use0, q, |q|);
      }
      while flags != []
        invariant i <= |q| && flags == q[i..]
        invariant Use() == Applied(use0, q[..i])
        invariant AllRun(useFlagHooks, globalFlagHooks, use0, q, i)
        decreases |flags|
      {
        var (name, state) := flags[0];
        flags := flags[1..];
        AppliedNext(use0, q, i);
        assert flags == q[i + 1..];
        r := ApplyChange(name, state);
        if r.Err? {
          assert StoppedAt(useFlagHooks, globalFlagHooks, use0, q, i, Use(), flags);
          return;
        }
        i := i + 1;
      }
      assert q[..i] == q;
      return Ok(());
    }

    /** The flags before an ebuild's dependencies are resolved: scheduled changes made, and the
        ebuild's own expression registered. */
    method ConformUse() returns (r: Result<(), Error>)
      modifies this`useflags, this`flags, this`globalFlagHooks
      ensures r.Ok? ==> flags == [] && Idle() && Use() == Applied(old(Use()), old(flags))
      ensures r.Ok? && old(Satisfied()) ==> Satisfied()
      ensures r.Ok? && metadata.requiredUse.Some? ==>
        metadata.requiredUse.value in globalFlagHooks && RequiredUses.AllHold(metadata.requiredUse.value, Use())
      ensures r.Ok? <==>
        && AllRun(useFlagHooks, old(globalFlagHooks), old(Use()), old(flags), |old(flags)|)
        && (metadata.requiredUse.Some? ==>
              RequiredUses.Accepts(metadata.requiredUse.value, Applied(old(Use()), old(flags))))
      ensures old(Idle()) ==> Use() == old(Use())
      ensures old(Idle() && Satisfied()) ==>
        (r.Ok? <==> (metadata.requiredUse.Some? ==> RequiredUses.Accepts(metadata.requiredUse.value, Use())))
      ensures old(Idle() && Satisfied()) && r.Err? ==>
        metadata.requiredUse.Some? && RequiredUses.Objects(metadata.requiredUse.value, Use(), r.error)
    {
      hide HooksAccept, NoChange, AllPass, Applied, AllRun, RequiredUses.Accepts, RequiredUses.AllHold, RequiredUses.Objects, StoppedAt;
      if Idle() {
        NothingApplied(Use(), flags);
        if Satisfied() {
          NoChangePasses(useFlagHooks, globalFlagHooks, Use(), flags);
        }
      }
      r := FlushUse();
      if r.Err? {
        StoppedIdle(useFlagHooks, globalFlagHooks, old(Use()), old(flags), Use(), flags);
        return;
      }
      NothingPending(Use());
      if metadata.requiredUse.Some? {
        r := AddGlobalHook(metadata.requiredUse.value);
        if r.Ok? {
          AcceptedHolds(metadata.requiredUse.value, Use());
        }
      }
    }
  }

  /** A flush that stops where every change is none leaves the flags as they were. */
  lemma StoppedIdle(hooks: map<string, seq<Hook>>, globals: seq<Expression>, use: Flags, q: seq<Change>,
                    after: Flags, rest: seq<Change>)
    requires exists i :: 0 <= i < |q| && StoppedAt(hooks, globals, use, q, i, after, rest)
    ensures NoChange(use, q) ==> after == use
  {
    hide Applied, AllRun, ChangeRuns;
    if NoChange(use, q) {
      NothingAppliedAnywhere(use, q);
    }
  }

  lemma NothingAppliedAnywhere(use: Flags, q: seq<Change>)
    requires NoChange(use, q)
    ensures forall i :: 0 <= i <= |q| ==> Applied(use, q[..i]) == use
  {
    forall i | 0 <= i <= |q|
      ensures Applied(use, q[..i]) == use
    {
      NothingApplied(use, q[..i]);
    }
  }

  lemma NothingPending(use: Flags)
    ensures NoChange(use, [])
  {
  }

  lemma AssumedNone(use: Flags, us: seq<AtomFlag>)
    ensures Assumed(use, us[..0]) == use
  {
  }

  lemma NothingToWatch(hooks: map<string, seq<Hook>>, use: Flags, us: seq<AtomFlag>)
    ensures AllWatch(hooks, use, us[..0]) && MoreHooks(hooks, hooks)
  {
  }

  lemma MoreHooksTwice(a: map<string, seq<Hook>>, b: map<string, seq<Hook>>, c: map<string, seq<Hook>>)
    requires MoreHooks(a, b) && MoreHooks(b, c)
    ensures MoreHooks(a, c)
  {
  }

  lemma WatchNext(hooks: map<string, seq<Hook>>, more: map<string, seq<Hook>>, use: Flags, later: Flags,
                  us: seq<AtomFlag>, i: nat)
    requires i < |us| && AllWatch(hooks, use, us[..i]) && MoreHooks(hooks, more) && Extends(later, use)
    requires Watches(more, later, us[i])
    ensures AllWatch(more, later, us[..i + 1])
  {
    hide Watches;
    WatchLater(hooks, more, use, later, us[..i]);
    assert us[..i + 1] == us[..i] + [us[i]];
  }

  lemma AdmitsMeans(use: Flags, u: AtomFlag)
    ensures Admits(use, u) ==> u.name in use || Missing(u).Some?
  {
  }

  lemma MeetsDefault(option: UseOption)
    ensures option == Enable ==> Meets(option, true)
    ensures option == Disable ==> Meets(option, false)
  {
  }

  lemma AppliedNone(use: Flags, q: seq<Change>)
    ensures Applied(use, q[..0]) == use
  {
  }
}
