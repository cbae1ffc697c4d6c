/** The order of versions that section 3.3 of the Package Manager Specification defines, and exactly when
    the comparison agrees with it. */
module VersionSpecification {
  import opened Wrappers
  import opened Digits
  import opened AtomVersions

  // ---- versions as the specification takes them apart ----

  /** How many components come before the first suffix. */
  function Numerics(parts: seq<Part>): (n: nat)
    ensures n <= |parts|
    ensures forall i :: 0 <= i < n ==> parts[i].prefix == NoPrefix
    ensures n < |parts| ==> parts[n].prefix != NoPrefix
  {
    if parts == [] || parts[0].prefix != NoPrefix then 0 else 1 + Numerics(parts[1..])
  }

  /** Digit-only numeric components, then suffixes with digit-only numbers. */
  predicate Shaped(v: AtomVersion)
    ensures Shaped(v) ==> Plain(v)
  {
    && Plain(v) && Numerics(v.parts) >= 1
    && forall i :: Numerics(v.parts) <= i < |v.parts| ==> v.parts[i].prefix != NoPrefix
  }

  predicate AllPlainParts(parts: seq<Part>) {
    forall i :: 0 <= i < |parts| ==> PlainText(parts[i].v)
  }

  lemma ShapedParts(v: AtomVersion)
    requires Shaped(v)
    ensures AllPlainParts(v.parts)
  {
    hide PlainText;
  }

  // ---- Algorithms 3.1 to 3.7 ----

  /** Algorithm 3.3 and the end of Algorithm 3.2: the components from `i` on, then their number. */
  function SpecNumerics(a: seq<Part>, b: seq<Part>, i: nat): int
    requires AllPlainParts(a) && AllPlainParts(b)
    decreases |a| - i
  {
    if i < |a| && i < |b| then
      var c := SpecifiedCompare(a[i].v, b[i].v);
      if c != 0 then c else SpecNumerics(a, b, i + 1)
    else if |a| > |b| then 1
    else if |a| < |b| then -1
    else 0
  }

  /** Algorithm 3.2: the first components as integers. */
  function SpecAllNumerics(a: seq<Part>, b: seq<Part>): int
    requires AllPlainParts(a) && AllPlainParts(b) && a != [] && b != []
  {
    var c := Sign(Value(a[0].v) - Value(b[0].v));
    if c != 0 then c else SpecNumerics(a, b, 1)
  }

  /** Algorithm 3.6: suffixes by their kind, then by their number as an integer. */
  function SpecSuffix(p: Part, q: Part): int
    requires PlainText(p.v) && PlainText(q.v)
  {
    if p.prefix == q.prefix then Sign(Value(p.v) - Value(q.v)) else Sign(p.prefix.Rank() - q.prefix.Rank())
  }

  /** Algorithm 3.5: where one version has no more suffixes, `_p` is above that and the others below. */
  function SpecSuffixes(a: seq<Part>, b: seq<Part>, i: nat): int
    requires AllPlainParts(a) && AllPlainParts(b)
    decreases |a| - i
  {
    if i < |a| && i < |b| then
      var c := SpecSuffix(a[i], b[i]);
      if c != 0 then c else SpecSuffixes(a, b, i + 1)
    else if i < |a| then (if a[i].prefix == P then 1 else -1)
    else if i < |b| then (if b[i].prefix == P then -1 else 1)
    else 0
  }

  /** Algorithms 3.1 and 3.7. */
  function SpecCompare(a: AtomVersion, b: AtomVersion): int
    requires Shaped(a) && Shaped(b)
  {
    ShapedParts(a);
    ShapedParts(b);
    var m, n := Numerics(a.parts), Numerics(b.parts);
    var numeric := SpecAllNumerics(a.parts[..m], b.parts[..n]);
    if numeric != 0 then numeric
    else
      var suffix := SpecSuffixes(a.parts[m..], b.parts[n..], 0);
      if suffix != 0 then suffix else Sign(a.revision - b.revision)
  }

  // ---- the same order as one walk over the components ----

  /** What two components at place `i` decide. */
  function SpecPart(p: Part, q: Part, i: nat): int
    requires PlainText(p.v) && PlainText(q.v)
  {
    if p.prefix != q.prefix then
      if p.prefix == NoPrefix then 1 else if q.prefix == NoPrefix then -1 else Sign(p.prefix.Rank() - q.prefix.Rank())
    else if p.prefix == NoPrefix && i > 0 then SpecifiedCompare(p.v, q.v)
    else Sign(Value(p.v) - Value(q.v))
  }

  predicate IsPreRelease(p: Part) {
    p.prefix != NoPrefix && p.prefix != P
  }

  function SpecFrom(a: seq<Part>, b: seq<Part>, i: nat, tie: int): int
    requires AllPlainParts(a) && AllPlainParts(b)
    decreases |a| - i
  {
    if i < |a| && i < |b| then
      var c := SpecPart(a[i], b[i], i);
      if c != 0 then c else SpecFrom(a, b, i + 1, tie)
    else if i < |a| then (if IsPreRelease(a[i]) then -1 else 1)
    else if i < |b| then (if IsPreRelease(b[i]) then 1 else -1)
    else tie
  }

  lemma SuffixesAlike(p: Part, q: Part, i: nat)
    requires PlainText(p.v) && PlainText(q.v) && p.prefix != NoPrefix && q.prefix != NoPrefix
    ensures SpecPart(p, q, i) == SpecSuffix(p, q)
  {
  }

  /** Behind the numeric components of both. */
  lemma {:induction false} WalkSuffixes(a: AtomVersion, b: AtomVersion, j: nat, n: nat, tie: int)
    requires Shaped(a) && Shaped(b) && AllPlainParts(a.parts) && AllPlainParts(b.parts)
    requires Numerics(a.parts) == n == Numerics(b.parts)
    ensures var s := SpecSuffixes(a.parts[n..], b.parts[n..], j);
      SpecFrom(a.parts, b.parts, n + j, tie) == if s != 0 then s else tie
    decreases |a.parts| - j
  {
    hide PlainText, Plain, Numerics, SpecPart, SpecSuffix;
    if n + j < |a.parts| {
      assert a.parts[n..][j] == a.parts[n + j];
    }
    if n + j < |b.parts| {
      assert b.parts[n..][j] == b.parts[n + j];
    }
    if n + j < |a.parts| && n + j < |b.parts| {
      SuffixesAlike(a.parts[n + j], b.parts[n + j], n + j);
    }
    if n + j < |a.parts| && n + j < |b.parts| {
      WalkSuffixes(a, b, j + 1, n, tie);
    }
  }

  /** Among the numeric components. */
  lemma {:induction false} WalkNumerics(a: AtomVersion, b: AtomVersion, i: nat, tie: int)
    requires Shaped(a) && Shaped(b) && AllPlainParts(a.parts) && AllPlainParts(b.parts)
    requires 1 <= i <= Numerics(a.parts) && i <= Numerics(b.parts)
    ensures var m, n := Numerics(a.parts), Numerics(b.parts);
      var c := SpecNumerics(a.parts[..m], b.parts[..n], i);
      SpecFrom(a.parts, b.parts, i, tie)
        == if c != 0 then c
           else var s := SpecSuffixes(a.parts[m..], b.parts[n..], 0); if s != 0 then s else tie
    decreases |a.parts| - i
  {
    hide SpecifiedCompare, Value, PlainText, Plain, SpecSuffixes, Numerics;
    var m, n := Numerics(a.parts), Numerics(b.parts);
    NumericsAre(a.parts);
    NumericsAre(b.parts);
    if i < m && i < n {
      WalkNumerics(a, b, i + 1, tie);
    } else if m == n {
      WalkSuffixes(a, b, 0, m, tie);
    }
  }

  lemma NumericsAre(parts: seq<Part>)
    ensures var n := Numerics(parts);
      && n <= |parts| && (forall i :: 0 <= i < n ==> parts[i].prefix == NoPrefix)
      && (n < |parts| ==> parts[n].prefix != NoPrefix)
  {
  }

  /** The walk computes the specified order. */
  lemma WalkIsSpecified(a: AtomVersion, b: AtomVersion)
    requires Shaped(a) && Shaped(b)
    ensures AllPlainParts(a.parts) && AllPlainParts(b.parts)
    ensures SpecFrom(a.parts, b.parts, 0, Sign(a.revision - b.revision)) == SpecCompare(a, b)
  {
    hide SpecifiedCompare, Value, PlainText, SpecSuffixes, SpecNumerics, Numerics;
    ShapedParts(a);
    ShapedParts(b);
    NumericsAre(a.parts);
    NumericsAre(b.parts);
    WalkNumerics(a, b, 1, Sign(a.revision - b.revision));
  }

  // ---- exactly when two numbers compare alike ----

  /** The shorter one is padded past the longer one. */
  predicate Overtakes(s: string, l: string)
    requires AllDigits(s) && AllDigits(l) && |s| <= |l|
  {
    |s| < |l| && 0 < Value(s) <= Value(l) <= Value(s) * Pow10(|l| - |s|)
  }

  /** With a leading zero on one side the shorter number is padded; that shows exactly if it overtakes. */
  predicate PaddingShows(s: string, t: string)
    requires PlainText(s) && PlainText(t)
  {
    !AsIntegers(s, |s|, t, |t|) && if |s| <= |t| then Overtakes(s, t) else Overtakes(t, s)
  }

  lemma PaddedSigns(s: string, l: string)
    requires PlainText(s) && PlainText(l) && |s| <= |l|
    ensures Value(s) <= Value(s) * Pow10(|l| - |s|)
    ensures Sign(OrderKey(s) - OrderKey(l)) == Sign(Value(s) * Pow10(|l| - |s|) - Value(l)) || AsIntegers(s, |s|, l, |l|)
  {
    hide Value, Padded;
    ValuePadded(s, |l|);
    var p := Pow10(|l| - |s|);
    assert Value(s) <= Value(s) * p by { MulAtLeast(Value(s), p); }
    if !AsIntegers(s, |s|, l, |l|) {
      PaddedOrder(s, l);
      assert Padded(l, |l|) == l by { PadNothing(l); }
    }
  }

  lemma MulAtLeast(x: nat, p: nat)
    requires p > 0
    ensures x <= x * p
    ensures x == 0 ==> x * p == 0
    ensures p == 1 ==> x * p == x
  {
  }

  lemma PadNothing(s: string)
    ensures Padded(s, |s|) == s
  {
  }

  /** Two numbers compare as integers do exactly if padding does not show. */
  lemma NumbersAlikeExactly(s: string, t: string)
    requires PlainText(s) && PlainText(t)
    ensures Sign(OrderKey(s) - OrderKey(t)) == Sign(Value(s) - Value(t)) <==> !PaddingShows(s, t)
  {
    hide Value, OrderKey, Padded;
    if AsIntegers(s, |s|, t, |t|) {
      AsIntegersAlike(s, t);
    } else if |s| <= |t| {
      PaddedSigns(s, t);
      MulAtLeast(Value(s), Pow10(|t| - |s|));
    } else {
      PaddedSigns(t, s);
      MulAtLeast(Value(t), Pow10(|s| - |t|));
    }
  }

  lemma AsIntegersAlike(s: string, t: string)
    requires PlainText(s) && PlainText(t) && AsIntegers(s, |s|, t, |t|)
    ensures Sign(OrderKey(s) - OrderKey(t)) == Sign(Value(s) - Value(t))
  {
    assert Number(s) == s && Number(t) == t;
    IntegerOrder(s, t);
  }

  // ---- exactly when two versions compare alike ----

  /** The specification compares the first component and the numbers of suffixes as integers. */
  predicate AsSpecifiedInteger(p: Part, i: nat) {
    p.prefix != NoPrefix || i == 0
  }

  /** Two components are seen alike unless one is a `p` and the other numeric, or they are compared as
      integers and padding shows. */
  predicate Alike(p: Part, q: Part, i: nat)
    requires PlainText(p.v) && PlainText(q.v)
  {
    if p.prefix != q.prefix then !(p.prefix == NoPrefix && q.prefix == P) && !(p.prefix == P && q.prefix == NoPrefix)
    else AsSpecifiedInteger(p, i) ==> !PaddingShows(p.v, q.v)
  }

  lemma AlikeExactly(p: Part, q: Part, i: nat)
    requires PlainText(p.v) && PlainText(q.v)
    ensures PartOrder(p, q) == SpecPart(p, q, i) <==> Alike(p, q, i)
  {
    hide OrderKey, Value, SpecifiedCompare, PlainText, PaddingShows;
    NumberIsText(p.v);
    NumberIsText(q.v);
    SpecifiedOrderOf(p.v, q.v);
    NumbersAlikeExactly(p.v, q.v);
  }

  lemma NumberIsText(s: string)
    requires PlainText(s)
    ensures Known(s) && Number(s) == s
  {
  }

  lemma SpecifiedOrderOf(s: string, t: string)
    requires PlainText(s) && PlainText(t)
    ensures SpecifiedCompare(s, t) == Sign(OrderKey(s) - OrderKey(t))
  {
    SpecifiedOrder(s, t);
  }

  /** The verdicts from component `i` on are the same. At the first component that one of them tells apart:
      a version that ends there must not face a pre-release suffix; the components must be alike; or one
      verdict sees no difference yet, and comes to that of the other later. */
  ghost predicate AgreeFrom(a: AtomVersion, b: AtomVersion, i: nat)
    requires Shaped(a) && Shaped(b) && AllPlainParts(a.parts) && AllPlainParts(b.parts)
    decreases |a.parts| - i
  {
    var tie := a.revision - b.revision;
    if i < |a.parts| && i < |b.parts| then
      var p, q := a.parts[i], b.parts[i];
      if Alike(p, q, i) then PartOrder(p, q) != 0 || AgreeFrom(a, b, i + 1)
      else if PartOrder(p, q) == 0 then Sign(CompareFrom(a.parts, b.parts, i + 1, tie)) == SpecPart(p, q, i)
      else SpecPart(p, q, i) == 0 && SpecFrom(a.parts, b.parts, i + 1, Sign(tie)) == PartOrder(p, q)
    else if i < |a.parts| then !IsPreRelease(a.parts[i])
    else if i < |b.parts| then !IsPreRelease(b.parts[i])
    else true
  }

  lemma {:induction false} AgreeFromExactly(a: AtomVersion, b: AtomVersion, i: nat)
    requires Shaped(a) && Shaped(b) && AllPlainParts(a.parts) && AllPlainParts(b.parts)
    ensures var tie := a.revision - b.revision;
      Sign(CompareFrom(a.parts, b.parts, i, tie)) == SpecFrom(a.parts, b.parts, i, Sign(tie)) <==> AgreeFrom(a, b, i)
    decreases |a.parts| - i
  {
    hide Round, PartOrder, SpecPart, Alike, PlainText, Shaped;
    if i < |a.parts| && i < |b.parts| {
      KnownParts(a.parts[i], b.parts[i]);
      RoundOrder(a.parts[i], b.parts[i], i + 1 < |a.parts|, i + 1 < |b.parts|);
      AlikeExactly(a.parts[i], b.parts[i], i);
      SpecPartIsSign(a.parts[i], b.parts[i], i);
      AgreeFromExactly(a, b, i + 1);
    }
  }

  lemma KnownParts(p: Part, q: Part)
    requires PlainText(p.v) && PlainText(q.v)
    ensures Known(p.v) && Known(q.v) && -1 <= PartOrder(p, q) <= 1
  {
    hide OrderKey;
  }

  lemma SpecPartIsSign(p: Part, q: Part, i: nat)
    requires PlainText(p.v) && PlainText(q.v)
    ensures -1 <= SpecPart(p, q, i) <= 1
  {
    hide OrderKey, Value, SpecifiedCompare;
    SpecifiedOrderOf(p.v, q.v);
  }

  /** The comparison has the sign of the specified order exactly if the verdicts agree from the start. */
  lemma AgreesExactly(a: AtomVersion, b: AtomVersion)
    requires Shaped(a) && Shaped(b)
    ensures AllPlainParts(a.parts) && AllPlainParts(b.parts)
    ensures Sign(Compare(a, b)) == SpecCompare(a, b) <==> AgreeFrom(a, b, 0)
  {
    hide AgreeFrom, SpecCompare, SpecFrom, CompareFrom, PlainText;
    WalkIsSpecified(a, b);
    ExactTie(a, b);
    AgreeFromExactly(a, b, 0);
  }

  // ---- without leading zeros the first difference decides ----

  /** Numbers that the specification compares as integers have no leading zero. */
  ghost predicate Canonical(v: AtomVersion) {
    forall i :: 0 <= i < |v.parts| && AsSpecifiedInteger(v.parts[i], i) && v.parts[i].v != "" ==>
      v.parts[i].v == "0" || v.parts[i].v[0] != '0'
  }

  /** Component `i` is the first that tells the versions apart, if any does. */
  ghost predicate FirstDifference(a: AtomVersion, b: AtomVersion, i: nat)
    requires AllPlainParts(a.parts) && AllPlainParts(b.parts)
  {
    && i <= |a.parts| && i <= |b.parts|
    && (forall j :: 0 <= j < i ==> PartOrder(a.parts[j], b.parts[j]) == 0)
    && (i < |a.parts| && i < |b.parts| ==> PartOrder(a.parts[i], b.parts[i]) != 0)
  }

  /** No `p` against a numeric component, and no end against a pre-release suffix. */
  predicate Conforms(a: AtomVersion, b: AtomVersion, i: nat) {
    if i < |a.parts| && i < |b.parts| then
      var p, q := a.parts[i].prefix, b.parts[i].prefix;
      !(p == NoPrefix && q == P) && !(p == P && q == NoPrefix)
    else if i < |a.parts| then !IsPreRelease(a.parts[i])
    else if i < |b.parts| then !IsPreRelease(b.parts[i])
    else true
  }

  lemma CanonicalAlike(a: AtomVersion, b: AtomVersion, i: nat)
    requires Canonical(a) && Canonical(b) && i < |a.parts| && i < |b.parts|
    requires PlainText(a.parts[i].v) && PlainText(b.parts[i].v)
    ensures a.parts[i].prefix == b.parts[i].prefix ==> Alike(a.parts[i], b.parts[i], i)
  {
    hide Value, Overtakes;
  }

  lemma {:induction false} DecidedAt(a: AtomVersion, b: AtomVersion, i: nat, j: nat)
    requires Shaped(a) && Shaped(b) && AllPlainParts(a.parts) && AllPlainParts(b.parts)
    requires Canonical(a) && Canonical(b) && FirstDifference(a, b, i) && j <= i
    ensures AgreeFrom(a, b, j) <==> Conforms(a, b, i)
    decreases i - j
  {
    hide Shaped, PlainText, Canonical, Alike, CompareFrom, SpecFrom;
    if j < |a.parts| && j < |b.parts| {
      CanonicalAlike(a, b, j);
      AlikeByPrefix(a.parts[j], b.parts[j], j);
      if j < i {
        DecidedAt(a, b, i, j + 1);
      }
    }
  }

  lemma AlikeByPrefix(p: Part, q: Part, i: nat)
    requires PlainText(p.v) && PlainText(q.v)
    ensures PartOrder(p, q) == 0 ==> p.prefix == q.prefix
    ensures p.prefix != q.prefix ==>
      SpecPart(p, q, i) != 0 && PartOrder(p, q) != 0
      && (Alike(p, q, i) <==> !(p.prefix == NoPrefix && q.prefix == P) && !(p.prefix == P && q.prefix == NoPrefix))
  {
    hide OrderKey, Value;
  }

  /** Without leading zeros the comparison has the sign of the specified order if and only if, at the first
      component that tells the versions apart, neither a `p` meets a numeric component nor an end meets a
      pre-release suffix. */
  lemma FirstDifferenceDecides(a: AtomVersion, b: AtomVersion, i: nat)
    requires Shaped(a) && Shaped(b) && Canonical(a) && Canonical(b)
    requires AllPlainParts(a.parts) && AllPlainParts(b.parts) && FirstDifference(a, b, i)
    ensures Sign(Compare(a, b)) == SpecCompare(a, b) <==> Conforms(a, b, i)
  {
    hide Shaped, AgreeFrom, SpecCompare, Compare, PlainText, Canonical, FirstDifference, Conforms;
    AgreesExactly(a, b);
    DecidedAt(a, b, i, 0);
  }

  // ---- inputs at which they differ ----

  function Version(parts: seq<Part>): AtomVersion {
    AtomVersion(parts, 0)
  }

  const ONE := Part(NoPrefix, "1")
  const TWO := Part(NoPrefix, "2")

  /** `1.2_alpha1` compares above `1.2` and is specified below it. */
  lemma PreReleaseIsAbove()
    ensures var a, b := Version([ONE, TWO, Part(Alpha, "1")]), Version([ONE, TWO]);
      Shaped(a) && Shaped(b) && Compare(a, b) > 0 > SpecCompare(a, b)
  {
    var a, b := Version([ONE, TWO, Part(Alpha, "1")]), Version([ONE, TWO]);
    OneTwo(a, b);
  }

  /** `1.2_p1` compares above `1.2.3` and is specified below it. */
  lemma PatchIsAboveNumber()
    ensures var a, b := Version([ONE, TWO, Part(P, "1")]), Version([ONE, TWO, Part(NoPrefix, "3")]);
      Shaped(a) && Shaped(b) && Compare(a, b) > 0 > SpecCompare(a, b)
  {
    var a, b := Version([ONE, TWO, Part(P, "1")]), Version([ONE, TWO, Part(NoPrefix, "3")]);
    OneTwo(a, b);
  }

  /** What two versions that start with `1.2` come to. */
  lemma OneTwo(a: AtomVersion, b: AtomVersion)
    requires 2 <= |a.parts| <= 3 && a.parts[0] == ONE && a.parts[1] == TWO && a.revision == 0
    requires 2 <= |b.parts| <= 3 && b.parts[0] == ONE && b.parts[1] == TWO && b.revision == 0
    requires |a.parts| == 3 ==> a.parts[2].v == "1"
    requires |b.parts| == 3 ==> b.parts[2].v == "3"
    ensures Shaped(a) && Shaped(b) && AllPlainParts(a.parts) && AllPlainParts(b.parts)
    ensures Compare(a, b) == CompareFrom(a.parts, b.parts, 2, 0)
    ensures SpecCompare(a, b) == SpecFrom(a.parts, b.parts, 2, 0)
  {
    hide Round, SpecPart, PlainText, SpecCompare;
    OneTwoIsShaped(a);
    OneTwoIsShaped(b);
    WalkIsSpecified(a, b);
    ExactTie(a, b);
    EqualIsPassed(ONE, 0);
    EqualIsPassed(TWO, 1);
    RoundOrder(ONE, ONE, 1 < |a.parts|, 1 < |b.parts|);
    RoundOrder(TWO, TWO, 2 < |a.parts|, 2 < |b.parts|);
  }

  lemma EqualIsPassed(p: Part, i: nat)
    requires PlainText(p.v)
    ensures Known(p.v) && PartOrder(p, p) == 0 == SpecPart(p, p, i)
  {
    hide OrderKey, Value, SpecifiedCompare;
    SpecifiedOrderOf(p.v, p.v);
  }

  lemma OneTwoIsShaped(v: AtomVersion)
    requires 2 <= |v.parts| <= 3 && v.parts[0] == ONE && v.parts[1] == TWO && v.revision == 0
    requires |v.parts| == 3 ==> v.parts[2].v == "1" || v.parts[2].v == "3"
    ensures Shaped(v) && AllPlainParts(v.parts)
    ensures PlainText(ONE.v) && PlainText(TWO.v)
  {
    assert PlainText("1") && PlainText("2") && PlainText("3");
    assert forall i :: 0 <= i < |v.parts| ==> PlainText(v.parts[i].v);
    NumericsAre(v.parts);
  }

  /** `01` compares below `1` and `1_p01` below `1_p1`; the specification calls them equal. */
  lemma LeadingZeroTellsApart()
    ensures var a, b := Version([Part(NoPrefix, "01")]), Version([ONE]);
      Shaped(a) && Shaped(b) && Compare(a, b) < 0 == SpecCompare(a, b)
    ensures var a, b := Version([ONE, Part(P, "01")]), Version([ONE, Part(P, "1")]);
      Shaped(a) && Shaped(b) && Compare(a, b) < 0 == SpecCompare(a, b)
  {
    assert PlainText("01") && PlainText("1");
    LastDecides([], Part(NoPrefix, "01"), ONE);
    LastDecides([ONE], Part(P, "01"), Part(P, "1"));
    assert [] + [Part(NoPrefix, "01")] == [Part(NoPrefix, "01")] && [] + [ONE] == [ONE];
    assert [ONE] + [Part(P, "01")] == [ONE, Part(P, "01")] && [ONE] + [Part(P, "1")] == [ONE, Part(P, "1")];
  }

  /** Last components that are equal as integers and not when padded. */
  lemma LastDecides(stem: seq<Part>, p: Part, q: Part)
    requires stem == [] || stem == [ONE]
    requires p.v == "01" && q.v == "1" && p.prefix == q.prefix && p.prefix == if stem == [] then NoPrefix else P
    ensures var a, b := Version(stem + [p]), Version(stem + [q]);
      Shaped(a) && Shaped(b) && Compare(a, b) < 0 == SpecCompare(a, b)
  {
    hide Round, PlainText, OrderKey, Value, SpecCompare;
    var a, b, k := Version(stem + [p]), Version(stem + [q]), |stem|;
    ZeroOne();
    LastIsShaped(stem, p);
    LastIsShaped(stem, q);
    WalkIsSpecified(a, b);
    ExactTie(a, b);
    EqualIsPassed(ONE, 0);
    NumberIsText("01");
    NumberIsText("1");
    if stem == [ONE] {
      assert a.parts[0] == ONE && b.parts[0] == ONE;
      RoundOrder(ONE, ONE, true, true);
    }
    assert a.parts[k] == p && b.parts[k] == q;
    RoundOrder(p, q, false, false);
    assert PartOrder(p, q) == -1 && SpecPart(p, q, k) == 0;
    assert CompareFrom(a.parts, b.parts, k, 0) < 0;
    assert SpecFrom(a.parts, b.parts, k + 1, 0) == 0;
    assert SpecFrom(a.parts, b.parts, k, 0) == 0;
  }

  lemma ZeroOne()
    ensures PlainText("01") && PlainText("1")
    ensures Value("01") == 1 == Value("1") && OrderKey("01") < OrderKey("1")
  {
    hide Padded;
    assert "1"[..0] == "" && "01"[..1] == "0" && "0"[..0] == "";
    ValuePadded("01", 9);
    ValuePadded("1", 9);
    Pow10Split(7, 1);
  }

  lemma LastIsShaped(stem: seq<Part>, p: Part)
    requires stem == [] || stem == [ONE]
    requires PlainText(p.v) && p.prefix == if stem == [] then NoPrefix else P
    ensures Shaped(Version(stem + [p])) && PlainText(ONE.v)
  {
    var v := Version(stem + [p]);
    assert PlainText("1");
    assert forall i :: 0 <= i < |v.parts| ==> PlainText(v.parts[i].v);
    NumericsAre(v.parts);
  }
}
