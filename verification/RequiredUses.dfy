/** The counting evaluator for REQUIRED_USE expressions. */
module RequiredUses {
  import opened Wrappers

  datatype UseOperator = Disable | Enable | LeastOne | ExactOne | MostOne

  /** One term: without terms below it a flag, with them a conditional or a group. */
  datatype RequiredUse =
    | Single(name: string, operator: UseOperator)
    | Nested(name: string, operator: UseOperator, depend: seq<RequiredUse>)

  datatype SuggestionOperator = AnyOf | OneOf | AtMostOneOf | AllOf

  datatype Suggestion =
    | UseSuggestion(name: string, value: bool)
    | SuggestionExpression(operator: SuggestionOperator, items: seq<Suggestion>)

  /** No flag of that name, and a group without terms to iterate over. */
  datatype EvaluationError = UnknownFlag(name: string) | NothingToIterate

  datatype Tally = Tally(suggestion: Suggestion, k: nat, n: nat)

  type Flags = map<string, bool>

  // ---- the evaluator as a function ----

  predicate IsFlagTerm(e: RequiredUse) {
    e.operator == Enable || e.operator == Disable
  }

  function GroupOperator(op: UseOperator): SuggestionOperator {
    match op
    case LeastOne => AnyOf
    case ExactOne => OneOf
    case MostOne => AtMostOneOf
    case _ => AllOf
  }

  /** Whether a group with `k` satisfied terms is satisfied. */
  predicate GroupSatisfied(op: UseOperator, k: nat) {
    match op
    case LeastOne => k >= 1
    case ExactOne => k == 1
    case MostOne => k <= 1
    case _ => false
  }

  /** What a term contributes: nothing if it is satisfied, a suggestion otherwise. */
  function Judge(e: RequiredUse, flags: Flags): Result<Option<Suggestion>, EvaluationError>
    decreases e, 1
  {
    if IsFlagTerm(e) then
      if e.name !in flags then Err(UnknownFlag(e.name))
      else
        var state := flags[e.name];
        if state != (e.operator == Enable) then Ok(Some(UseSuggestion(e.name, !state)))
        else if e.Single? then Ok(None)
        else
          match JudgeAll(AllOf, e.depend, flags)
          case Err(error) => Err(error)
          case Ok(child) =>
            if child.k == child.n then Ok(None)
            else Ok(Some(SuggestionExpression(AnyOf, [UseSuggestion(e.name, !state), child.suggestion])))
    else if e.Single? then Err(NothingToIterate)
    else
      match JudgeAll(GroupOperator(e.operator), e.depend, flags)
      case Err(error) => Err(error)
      case Ok(child) => if GroupSatisfied(e.operator, child.k) then Ok(None) else Ok(Some(child.suggestion))
  }

  /** The terms from left to right. */
  function JudgeAll(operator: SuggestionOperator, es: seq<RequiredUse>, flags: Flags): (r: Result<Tally, EvaluationError>)
    ensures r.Ok? ==> r.value.suggestion.SuggestionExpression? && r.value.suggestion.operator == operator
    decreases es, 0
  {
    if es == [] then Ok(Tally(SuggestionExpression(operator, []), 0, 0))
    else
      match JudgeAll(operator, es[..|es| - 1], flags)
      case Err(error) => Err(error)
      case Ok(front) =>
        match Judge(es[|es| - 1], flags)
        case Err(error) => Err(error)
        case Ok(None) => Ok(Tally(front.suggestion, front.k + 1, front.n + 1))
        case Ok(Some(s)) => Ok(Tally(Appended(front.suggestion, s), front.k, front.n + 1))
  }

  function Appended(e: Suggestion, s: Suggestion): Suggestion
    requires e.SuggestionExpression?
  {
    e.(items := e.items + [s])
  }

  // ---- the evaluator as it loops ----

  method EvaluateRequiredUse(operator: SuggestionOperator, expr: seq<RequiredUse>, flags: Flags)
    returns (r: Result<Tally, EvaluationError>)
    ensures r == JudgeAll(operator, expr, flags)
    decreases expr, 0
  {
    hide Judge;
    var n, k := 0, 0;
    var items: seq<Suggestion> := [];
    assert expr[..0] == [];
    while n < |expr|
      invariant n <= |expr|
      invariant JudgeAll(operator, expr[..n], flags) == Ok(Tally(SuggestionExpression(operator, items), k, n))
    {
      var reqUse := expr[n];
      assert expr[..n + 1] == expr[..n] + [reqUse] && (expr[..n] + [reqUse])[..n] == expr[..n];
      var judged := EvaluateTerm(reqUse, flags);
      if judged.Err? {
        ErrorPropagates(operator, expr, flags, n + 1);
        return Err(judged.error);
      }
      n := n + 1;
      if judged.value.None? {
        k := k + 1;
      } else {
        items := items + [judged.value.value];
      }
    }
    assert expr[..n] == expr;
    return Ok(Tally(SuggestionExpression(operator, items), k, n));
  }

  method EvaluateTerm(reqUse: RequiredUse, flags: Flags) returns (r: Result<Option<Suggestion>, EvaluationError>)
    ensures r == Judge(reqUse, flags)
    decreases reqUse, 1
  {
    hide JudgeAll;
    var op := reqUse.operator;
    if op == Enable || op == Disable {
      var target := op == Enable;
      if reqUse.name !in flags {
        return Err(UnknownFlag(reqUse.name));
      }
      var state := flags[reqUse.name];
      if reqUse.Single? && state == target {
        return Ok(None);
      } else if state == target {
        var child := EvaluateRequiredUse(AllOf, reqUse.depend, flags);
        if child.Err? {
          return Err(child.error);
        }
        if child.value.k == child.value.n {
          return Ok(None);
        }
        return Ok(Some(SuggestionExpression(AnyOf, [UseSuggestion(reqUse.name, !state), child.value.suggestion])));
      }
      return Ok(Some(UseSuggestion(reqUse.name, !state)));
    }
    if reqUse.Single? {
      return Err(NothingToIterate);
    }
    var child := EvaluateRequiredUse(GroupOperator(op), reqUse.depend, flags);
    if child.Err? {
      return Err(child.error);
    }
    var k := child.value.k;
    if (op == LeastOne && k >= 1) || (op == ExactOne && k == 1) || (op == MostOne && k <= 1) {
      return Ok(None);
    }
    return Ok(Some(child.value.suggestion));
  }

  lemma {:induction false} ErrorPropagates(operator: SuggestionOperator, es: seq<RequiredUse>, flags: Flags, i: nat)
    requires i <= |es| && JudgeAll(operator, es[..i], flags).Err?
    ensures JudgeAll(operator, es, flags) == JudgeAll(operator, es[..i], flags)
    decreases |es|
  {
    hide Judge;
    if i == |es| {
      assert es[..i] == es;
    } else {
      assert es[..|es| - 1][..i] == es[..i];
      ErrorPropagates(operator, es[..|es| - 1], flags, i);
    }
  }

  // ---- what the counts mean ----

  predicate StateIs(name: string, enabled: bool, flags: Flags) {
    name in flags && flags[name] == enabled
  }

  /** A Boolean reading of a term, without counting. A conditional asks for its guard and its terms. */
  ghost predicate Holds(e: RequiredUse, flags: Flags)
    decreases e, 1
  {
    if IsFlagTerm(e) then
      StateIs(e.name, e.operator == Enable, flags) && (e.Nested? ==> AllHold(e.depend, flags))
    else
      e.Nested? &&
      match e.operator
      case LeastOne => AnyHolds(e.depend, flags)
      case ExactOne => AnyHolds(e.depend, flags) && NoTwoHold(e.depend, flags)
      case MostOne => NoTwoHold(e.depend, flags)
      case _ => false
  }

  ghost predicate AllHold(es: seq<RequiredUse>, flags: Flags)
    decreases es, 0
  {
    forall i :: 0 <= i < |es| ==> Holds(es[i], flags)
  }

  ghost predicate AnyHolds(es: seq<RequiredUse>, flags: Flags)
    decreases es, 0
  {
    exists i :: 0 <= i < |es| && Holds(es[i], flags)
  }

  ghost predicate NoTwoHold(es: seq<RequiredUse>, flags: Flags)
    decreases es, 0
  {
    forall i, j :: 0 <= i < |es| && 0 <= j < |es| && Holds(es[i], flags) && Holds(es[j], flags) ==> i == j
  }

  ghost function HoldCount(es: seq<RequiredUse>, flags: Flags): nat {
    if es == [] then 0 else HoldCount(es[..|es| - 1], flags) + if Holds(es[|es| - 1], flags) then 1 else 0
  }

  lemma {:induction false} HoldCountMeans(es: seq<RequiredUse>, flags: Flags)
    ensures HoldCount(es, flags) <= |es|
    ensures HoldCount(es, flags) == |es| <==> AllHold(es, flags)
    ensures HoldCount(es, flags) >= 1 <==> AnyHolds(es, flags)
    ensures HoldCount(es, flags) <= 1 <==> NoTwoHold(es, flags)
  {
    hide Holds;
    if es != [] {
      var front, last := es[..|es| - 1], es[|es| - 1];
      HoldCountMeans(front, flags);
      AllHoldSnoc(front, last, flags);
      AnyHoldsSnoc(front, last, flags);
      NoTwoHoldSnoc(front, last, flags);
      assert es == front + [last];
    }
  }

  lemma AllHoldSnoc(es: seq<RequiredUse>, e: RequiredUse, flags: Flags)
    ensures AllHold(es + [e], flags) <==> AllHold(es, flags) && Holds(e, flags)
  {
    hide Holds;
    assert forall i :: 0 <= i < |es| ==> (es + [e])[i] == es[i];
    assert (es + [e])[|es|] == e;
  }

  lemma AnyHoldsSnoc(es: seq<RequiredUse>, e: RequiredUse, flags: Flags)
    ensures AnyHolds(es + [e], flags) <==> AnyHolds(es, flags) || Holds(e, flags)
  {
    hide Holds;
    assert forall i :: 0 <= i < |es| ==> (es + [e])[i] == es[i];
    assert (es + [e])[|es|] == e;
  }

  lemma NoTwoHoldSnoc(es: seq<RequiredUse>, e: RequiredUse, flags: Flags)
    ensures NoTwoHold(es + [e], flags) <==> NoTwoHold(es, flags) && !(AnyHolds(es, flags) && Holds(e, flags))
  {
    hide Holds;
    assert forall i :: 0 <= i < |es| ==> (es + [e])[i] == es[i];
    assert (es + [e])[|es|] == e;
  }

  /** A term is found satisfied exactly when it holds. */
  lemma {:induction false} JudgeMeans(e: RequiredUse, flags: Flags)
    requires Judge(e, flags).Ok?
    ensures Judge(e, flags).value == None <==> Holds(e, flags)
    decreases e, 1
  {
    hide JudgeAll, HoldCount;
    if e.Nested? && JudgeAll(GroupOperator(e.operator), e.depend, flags).Ok? {
      CountsMean(GroupOperator(e.operator), e.depend, flags);
      HoldCountMeans(e.depend, flags);
    }
  }

  /** The counters count all terms and those that hold, and there is one suggestion for each other one. */
  lemma {:induction false} CountsMean(operator: SuggestionOperator, es: seq<RequiredUse>, flags: Flags)
    requires JudgeAll(operator, es, flags).Ok?
    ensures var tally := JudgeAll(operator, es, flags).value;
      tally.n == |es| && tally.k == HoldCount(es, flags) && tally.k + |tally.suggestion.items| == tally.n
    decreases es, 0
  {
    hide Judge, Holds;
    if es != [] {
      CountsMean(operator, es[..|es| - 1], flags);
      JudgeMeans(es[|es| - 1], flags);
    }
  }

  /** Every flag a suggestion names is suggested to change. */
  ghost predicate SuggestsChanges(s: Suggestion, flags: Flags) {
    match s
    case UseSuggestion(name, value) => name in flags && value == !flags[name]
    case SuggestionExpression(_, items) => forall i :: 0 <= i < |items| ==> SuggestsChanges(items[i], flags)
  }

  lemma {:induction false} TermSuggestsChanges(e: RequiredUse, flags: Flags)
    requires Judge(e, flags).Ok? && Judge(e, flags).value.Some?
    ensures SuggestsChanges(Judge(e, flags).value.value, flags)
    decreases e, 1
  {
    hide JudgeAll;
    if e.Nested? && JudgeAll(GroupOperator(e.operator), e.depend, flags).Ok? {
      TallySuggestsChanges(GroupOperator(e.operator), e.depend, flags);
    }
  }

  lemma {:induction false} TallySuggestsChanges(operator: SuggestionOperator, es: seq<RequiredUse>, flags: Flags)
    requires JudgeAll(operator, es, flags).Ok?
    ensures SuggestsChanges(JudgeAll(operator, es, flags).value.suggestion, flags)
    decreases es, 0
  {
    hide Judge;
    if es != [] {
      TallySuggestsChanges(operator, es[..|es| - 1], flags);
      if Judge(es[|es| - 1], flags) != Ok(None) {
        TermSuggestsChanges(es[|es| - 1], flags);
      }
    }
  }

  // ---- when there is an answer at all, and which one ----

  /** Everything a term asks for is there: a flag has its name among the flags, and its terms do too if
      they are looked at; a group has terms. */
  ghost predicate Evaluates(e: RequiredUse, flags: Flags)
    decreases e, 1
  {
    if IsFlagTerm(e) then
      e.name in flags && (e.Nested? && flags[e.name] == (e.operator == Enable) ==> AllEvaluate(e.depend, flags))
    else
      e.Nested? && AllEvaluate(e.depend, flags)
  }

  ghost predicate AllEvaluate(es: seq<RequiredUse>, flags: Flags)
    decreases es, 0
  {
    forall i :: 0 <= i < |es| ==> Evaluates(es[i], flags)
  }

  /** The error that is met first, from left to right. */
  ghost predicate FailsWith(e: RequiredUse, error: EvaluationError, flags: Flags)
    decreases e, 1
  {
    if IsFlagTerm(e) then
      if e.name !in flags then error == UnknownFlag(e.name)
      else e.Nested? && flags[e.name] == (e.operator == Enable) && SomeFailsWith(e.depend, error, flags)
    else
      if e.Single? then error == NothingToIterate else SomeFailsWith(e.depend, error, flags)
  }

  ghost predicate SomeFailsWith(es: seq<RequiredUse>, error: EvaluationError, flags: Flags)
    decreases es, 0
  {
    exists i :: 0 <= i < |es| && FailsWith(es[i], error, flags) && forall j :: 0 <= j < i ==> Evaluates(es[j], flags)
  }

  /** There is a verdict exactly if everything asked for is there, and otherwise the first error. */
  lemma {:induction false} JudgeAnswers(e: RequiredUse, flags: Flags)
    ensures Judge(e, flags).Ok? <==> Evaluates(e, flags)
    ensures Judge(e, flags).Err? ==> FailsWith(e, Judge(e, flags).error, flags)
    decreases e, 1
  {
    hide JudgeAll, AllEvaluate, SomeFailsWith;
    if e.Nested? {
      JudgeAllAnswers(GroupOperator(e.operator), e.depend, flags);
    }
  }

  lemma {:induction false} JudgeAllAnswers(operator: SuggestionOperator, es: seq<RequiredUse>, flags: Flags)
    ensures JudgeAll(operator, es, flags).Ok? <==> AllEvaluate(es, flags)
    ensures JudgeAll(operator, es, flags).Err? ==> SomeFailsWith(es, JudgeAll(operator, es, flags).error, flags)
    decreases es, 0
  {
    hide Judge, Evaluates, FailsWith;
    if es != [] {
      var front, last := es[..|es| - 1], es[|es| - 1];
      assert forall i :: 0 <= i < |front| ==> front[i] == es[i];
      JudgeAllAnswers(operator, front, flags);
      JudgeAnswers(last, flags);
    }
  }

  /** What is suggested for a term that does not hold. */
  ghost predicate SuggestedFor(e: RequiredUse, s: Suggestion, flags: Flags)
    decreases e, 1
  {
    match e.operator
    case Enable => SuggestedForFlag(e, true, s, flags)
    case Disable => SuggestedForFlag(e, false, s, flags)
    case LeastOne => e.Nested? && SuggestedForAll(AnyOf, e.depend, s, flags)
    case ExactOne => e.Nested? && SuggestedForAll(OneOf, e.depend, s, flags)
    case MostOne => e.Nested? && SuggestedForAll(AtMostOneOf, e.depend, s, flags)
  }

  /** To turn the flag over, or else, under a guard that is met, to change what the terms ask for. */
  ghost predicate SuggestedForFlag(e: RequiredUse, target: bool, s: Suggestion, flags: Flags)
    decreases e, 0
  {
    if StateIs(e.name, !target, flags) then s == UseSuggestion(e.name, target)
    else
      && e.Nested?
      && s.SuggestionExpression? && s.operator == AnyOf && |s.items| == 2
      && s.items[0] == UseSuggestion(e.name, !target)
      && SuggestedForAll(AllOf, e.depend, s.items[1], flags)
  }

  /** One suggestion for every term that does not hold, in their order. */
  ghost predicate SuggestedForAll(operator: SuggestionOperator, es: seq<RequiredUse>, s: Suggestion, flags: Flags)
    decreases es, 0
  {
    && s.SuggestionExpression?
    && s.operator == operator
    && if es == [] then s.items == []
       else
         var front, last := es[..|es| - 1], es[|es| - 1];
         if Holds(last, flags) then SuggestedForAll(operator, front, s, flags)
         else
           && s.items != []
           && SuggestedFor(last, s.items[|s.items| - 1], flags)
           && SuggestedForAll(operator, front, s.(items := s.items[..|s.items| - 1]), flags)
  }

  lemma {:induction false} JudgeSuggests(e: RequiredUse, flags: Flags)
    requires Judge(e, flags).Ok? && Judge(e, flags).value.Some?
    ensures SuggestedFor(e, Judge(e, flags).value.value, flags)
    decreases e, 1
  {
    hide JudgeAll, SuggestedForAll;
    if e.Nested? && JudgeAll(GroupOperator(e.operator), e.depend, flags).Ok? {
      JudgeAllSuggests(GroupOperator(e.operator), e.depend, flags);
    }
  }

  lemma {:induction false} JudgeAllSuggests(operator: SuggestionOperator, es: seq<RequiredUse>, flags: Flags)
    requires JudgeAll(operator, es, flags).Ok?
    ensures SuggestedForAll(operator, es, JudgeAll(operator, es, flags).value.suggestion, flags)
    decreases es, 0
  {
    hide Judge, Holds, SuggestedFor;
    if es != [] {
      var front, last := es[..|es| - 1], es[|es| - 1];
      JudgeAllSuggests(operator, front, flags);
      JudgeMeans(last, flags);
      if Judge(last, flags) != Ok(None) {
        JudgeSuggests(last, flags);
        var s := JudgeAll(operator, es, flags).value.suggestion;
        assert s.(items := s.items[..|s.items| - 1]) == JudgeAll(operator, front, flags).value.suggestion;
      }
    }
  }

  /** Flags that appear later do not change a verdict that could be reached without them. */
  lemma {:induction false} JudgeStable(e: RequiredUse, flags: Flags, more: Flags)
    requires Judge(e, flags).Ok? && forall f <- flags :: f in more && more[f] == flags[f]
    ensures Judge(e, more) == Judge(e, flags)
    decreases e, 1
  {
    hide JudgeAll;
    if e.Nested? && JudgeAll(GroupOperator(e.operator), e.depend, flags).Ok? {
      JudgeAllStable(GroupOperator(e.operator), e.depend, flags, more);
    }
  }

  lemma {:induction false} JudgeAllStable(operator: SuggestionOperator, es: seq<RequiredUse>, flags: Flags, more: Flags)
    requires JudgeAll(operator, es, flags).Ok? && forall f <- flags :: f in more && more[f] == flags[f]
    ensures JudgeAll(operator, es, more) == JudgeAll(operator, es, flags)
    decreases es, 0
  {
    hide Judge;
    if es != [] {
      JudgeAllStable(operator, es[..|es| - 1], flags, more);
      JudgeStable(es[|es| - 1], flags, more);
    }
  }

  // ---- the hook ----

  datatype HookError = Rejected(suggestion: Suggestion) | Broken(error: EvaluationError)

  /** No exception: the expression evaluates and all its terms are satisfied. */
  predicate Accepts(expression: seq<RequiredUse>, flags: Flags) {
    var r := JudgeAll(AllOf, expression, flags);
    r.Ok? && r.value.k == r.value.n
  }

  /** Why the hook objects: to terms that do not hold, with what would change that, or to the first thing
      that is missing. */
  ghost predicate Objects(expression: seq<RequiredUse>, flags: Flags, error: HookError) {
    match error
    case Rejected(suggestion) =>
      && AllEvaluate(expression, flags) && !AllHold(expression, flags)
      && SuggestsChanges(suggestion, flags) && SuggestedForAll(AllOf, expression, suggestion, flags)
    case Broken(error) => SomeFailsWith(expression, error, flags)
  }

  method RunRequiredUseHook(expression: seq<RequiredUse>, flags: Flags) returns (r: Result<(), HookError>)
    ensures r.Ok? <==> Accepts(expression, flags)
    ensures r.Ok? <==> AllEvaluate(expression, flags) && AllHold(expression, flags)
    ensures r.Err? ==> Objects(expression, flags, r.error)
  {
    hide JudgeAll, HoldCount, AllEvaluate, AllHold, SomeFailsWith, SuggestedForAll;
    JudgeAllAnswers(AllOf, expression, flags);
    var tally := EvaluateRequiredUse(AllOf, expression, flags);
    if tally.Err? {
      return Err(Broken(tally.error));
    }
    CountsMean(AllOf, expression, flags);
    HoldCountMeans(expression, flags);
    TallySuggestsChanges(AllOf, expression, flags);
    JudgeAllSuggests(AllOf, expression, flags);
    if tally.value.k != tally.value.n {
      return Err(Rejected(tally.value.suggestion));
    }
    return Ok(());
  }

  // ---- conditionals, and what the specification makes of them ----

  predicate IsConditional(e: RequiredUse) {
    IsFlagTerm(e) && e.Nested?
  }

  predicate GuardMet(e: RequiredUse, flags: Flags) {
    StateIs(e.name, e.operator == Enable, flags)
  }

  /** Section 8.2 of the Package Manager Specification: a conditional asks for its terms only if its
      guard is met, and a conditional directly in a group is a member of it only then. A group that is
      left without members is not matched if it asks for one, as from EAPI 7 on. */
  ghost predicate Specified(e: RequiredUse, flags: Flags)
    decreases e, 1
  {
    if IsFlagTerm(e) then
      if e.Single? then GuardMet(e, flags) else GuardMet(e, flags) ==> AllSpecified(e.depend, flags)
    else
      e.Nested? &&
      match e.operator
      case LeastOne => AnyMatched(e.depend, flags)
      case ExactOne => AnyMatched(e.depend, flags) && NoTwoMatched(e.depend, flags)
      case MostOne => NoTwoMatched(e.depend, flags)
      case _ => false
  }

  ghost predicate AllSpecified(es: seq<RequiredUse>, flags: Flags)
    decreases es, 0
  {
    forall i :: 0 <= i < |es| ==> Specified(es[i], flags)
  }

  ghost predicate Matched(e: RequiredUse, flags: Flags)
    decreases e, 2
  {
    (IsConditional(e) ==> GuardMet(e, flags)) && Specified(e, flags)
  }

  ghost predicate AnyMatched(es: seq<RequiredUse>, flags: Flags)
    decreases es, 0
  {
    exists i :: 0 <= i < |es| && Matched(es[i], flags)
  }

  ghost predicate NoTwoMatched(es: seq<RequiredUse>, flags: Flags)
    decreases es, 0
  {
    forall i, j :: 0 <= i < |es| && 0 <= j < |es| && Matched(es[i], flags) && Matched(es[j], flags) ==> i == j
  }

  /** The guards that are asked for on the way down from the top: of a conditional and of the conditionals
      among its terms, but not of those in groups. */
  ghost predicate GuardsMet(e: RequiredUse, flags: Flags)
    decreases e, 1
  {
    IsConditional(e) ==> GuardMet(e, flags) && AllGuardsMet(e.depend, flags)
  }

  ghost predicate AllGuardsMet(es: seq<RequiredUse>, flags: Flags)
    decreases es, 0
  {
    forall i :: 0 <= i < |es| ==> GuardsMet(es[i], flags)
  }

  /** A conditional that is a member of a group has the guards below it met. */
  ghost predicate Settled(e: RequiredUse, flags: Flags) {
    e.Nested? ==> forall i :: 0 <= i < |e.depend| ==>
      && Settled(e.depend[i], flags)
      && (!IsFlagTerm(e) && IsConditional(e.depend[i]) && GuardMet(e.depend[i], flags) ==>
            AllGuardsMet(e.depend[i].depend, flags))
  }

  /** The evaluator asks for what the specification asks for and for the guards besides. */
  lemma {:induction false} HoldsExactly(e: RequiredUse, flags: Flags)
    requires Settled(e, flags)
    ensures Holds(e, flags) <==> Specified(e, flags) && GuardsMet(e, flags)
  {
    if e.Nested? {
      forall i | 0 <= i < |e.depend|
        ensures Holds(e.depend[i], flags) <==> Specified(e.depend[i], flags) && GuardsMet(e.depend[i], flags)
      {
        HoldsExactly(e.depend[i], flags);
      }
      if !IsFlagTerm(e) {
        forall i | 0 <= i < |e.depend|
          ensures Holds(e.depend[i], flags) <==> Matched(e.depend[i], flags)
        {
          MembersAlike(e, i, flags);
        }
        hide Holds, Specified, Matched, GuardsMet;
      }
    }
  }

  lemma MembersAlike(e: RequiredUse, i: nat, flags: Flags)
    requires e.Nested? && i < |e.depend| && !IsFlagTerm(e) && Settled(e, flags)
    requires Holds(e.depend[i], flags) <==> Specified(e.depend[i], flags) && GuardsMet(e.depend[i], flags)
    ensures Holds(e.depend[i], flags) <==> Matched(e.depend[i], flags)
  {
  }

  /** A whole expression is accepted exactly if everything it asks for is there, the specification accepts
      it and the guards asked for are met. */
  lemma AcceptedExactly(es: seq<RequiredUse>, flags: Flags)
    requires forall i :: 0 <= i < |es| ==> Settled(es[i], flags)
    ensures Accepts(es, flags) <==> AllEvaluate(es, flags) && AllSpecified(es, flags) && AllGuardsMet(es, flags)
  {
    hide JudgeAll, HoldCount, Specified, GuardsMet, Settled, Holds, AllEvaluate;
    JudgeAllAnswers(AllOf, es, flags);
    if JudgeAll(AllOf, es, flags).Ok? {
      CountsMean(AllOf, es, flags);
      HoldCountMeans(es, flags);
    }
    forall i | 0 <= i < |es|
      ensures Holds(es[i], flags) <==> Specified(es[i], flags) && GuardsMet(es[i], flags)
    {
      HoldsExactly(es[i], flags);
    }
  }

  /** No conditional directly in a group has a conditional among its own terms. */
  ghost predicate FlatInGroups(e: RequiredUse) {
    e.Nested? ==> forall i :: 0 <= i < |e.depend| ==>
      && FlatInGroups(e.depend[i])
      && (!IsFlagTerm(e) && IsConditional(e.depend[i]) ==> NoConditional(e.depend[i].depend))
  }

  ghost predicate NoConditional(es: seq<RequiredUse>) {
    forall i :: 0 <= i < |es| ==> !IsConditional(es[i])
  }

  /** Such an expression is settled whatever the flags are. */
  lemma {:induction false} FlatIsSettled(e: RequiredUse, flags: Flags)
    requires FlatInGroups(e)
    ensures Settled(e, flags)
  {
    if e.Nested? {
      forall i | 0 <= i < |e.depend|
        ensures Settled(e.depend[i], flags)
        ensures !IsFlagTerm(e) && IsConditional(e.depend[i]) ==> AllGuardsMet(e.depend[i].depend, flags)
      {
        FlatIsSettled(e.depend[i], flags);
      }
    }
  }

  /** Every guard inside is met. */
  ghost predicate EveryGuardMet(e: RequiredUse, flags: Flags) {
    (IsConditional(e) ==> GuardMet(e, flags))
    && (e.Nested? ==> forall i :: 0 <= i < |e.depend| ==> EveryGuardMet(e.depend[i], flags))
  }

  /** With every guard met the evaluator follows the specification. */
  lemma {:induction false} GuardsMetAgree(e: RequiredUse, flags: Flags)
    requires EveryGuardMet(e, flags)
    ensures Settled(e, flags) && GuardsMet(e, flags)
    ensures Holds(e, flags) <==> Specified(e, flags)
  {
    if e.Nested? {
      forall i | 0 <= i < |e.depend|
        ensures Settled(e.depend[i], flags) && GuardsMet(e.depend[i], flags)
      {
        GuardsMetAgree(e.depend[i], flags);
      }
      forall i | 0 <= i < |e.depend| && IsConditional(e.depend[i])
        ensures AllGuardsMet(e.depend[i].depend, flags)
      {
      }
    }
    hide Holds, Specified;
    HoldsExactly(e, flags);
  }

  /** `?? ( a? ( b? ( c ) ) d )` with `a` and `d` on, `b` off: two members are matched, and yet the
      expression is accepted, because the one with the guard that is not met counts as unsatisfied. */
  lemma UnsettledAccepted(flags: Flags)
    requires flags == map["a" := true, "b" := false, "c" := false, "d" := true]
    ensures var e := Nested("", MostOne, [Nested("a", Enable, [Nested("b", Enable, [Single("c", Enable)])]), Single("d", Enable)]);
      !Specified(e, flags) && Holds(e, flags)
  {
    var inner := Nested("b", Enable, [Single("c", Enable)]);
    var first, second := Nested("a", Enable, [inner]), Single("d", Enable);
    var e := Nested("", MostOne, [first, second]);
    assert e.depend[0] == first && e.depend[1] == second && first.depend[0] == inner;
    assert Specified(inner, flags) && !Holds(inner, flags);
    assert Matched(first, flags) && Matched(second, flags);
    assert !Holds(first, flags) && Holds(second, flags);
  }

  /** `a? ( b )` with both flags off: nothing is asked for, and yet the expression is rejected. */
  lemma UnmetGuardRejected(flags: Flags)
    requires flags == map["a" := false, "b" := false]
    ensures var e := Nested("a", Enable, [Single("b", Enable)]);
      Specified(e, flags) && !Accepts([e], flags)
  {
    var e := Nested("a", Enable, [Single("b", Enable)]);
    assert [e][..0] == [];
    assert Judge(e, flags) == Ok(Some(UseSuggestion("a", true)));
  }
}
