/** Versions with letters: which of them compare as 0 with themselves, which close a cycle with digit-only
    versions, and where the comparison is an order all the same. */
module LetteredVersions {
  import opened Wrappers
  import opened Digits
  import opened AtomVersions

  // ---- a version and itself ----

  predicate StarFree(v: AtomVersion) {
    forall i :: 0 <= i < |v.parts| ==> Usable(v.parts[i].v) && Last(v.parts[i].v) != '*'
  }

  predicate EndsInLetter(p: Part)
    requires Usable(p.v)
  {
    Last(p.v) > '9'
  }

  lemma RoundWithSelf(p: Part, more: bool)
    requires Usable(p.v) && Last(p.v) != '*'
    ensures Round(p, p, more, more) == if more && EndsInLetter(p) then Some(-1) else None
  {
    hide Strtol, Padded, AsIntegers;
  }

  lemma {:induction false} SelfFrom(v: AtomVersion, i: nat)
    requires StarFree(v)
    ensures var r := CompareFrom(v.parts, v.parts, i, 0);
      && (r == 0 || r == -1)
      && (r == 0 <==> forall j :: i <= j < |v.parts| - 1 ==> !EndsInLetter(v.parts[j]))
    decreases |v.parts| - i
  {
    hide Round, Usable;
    if i < |v.parts| {
      RoundWithSelf(v.parts[i], i + 1 < |v.parts|);
      SelfFrom(v, i + 1);
    }
  }

  /** Whatever its components are, a version without stars compares as 0 with itself exactly if no
      component but the last ends in a letter; otherwise it is below itself. */
  lemma SelfCompareExactly(v: AtomVersion)
    requires StarFree(v)
    ensures WellFormed(v)
    ensures Compare(v, v) == 0 <==> forall j :: 0 <= j < |v.parts| - 1 ==> !EndsInLetter(v.parts[j])
    ensures Compare(v, v) != 0 ==> Compare(v, v) == -1
  {
    hide CompareFrom, EndsInLetter;
    SelfFrom(v, 0);
  }

  // ---- a letter on the last component ----

  predicate IsLetter(c: char) {
    'A' <= c <= 'Z' || 'a' <= c <= 'z'
  }

  /** Up to eight digits and a letter. */
  predicate LetteredText(s: string) {
    2 <= |s| <= 9 && AllDigits(s[..|s| - 1]) && IsLetter(s[|s| - 1])
  }

  function LetteredDigits(s: string): (d: string)
    requires LetteredText(s)
    ensures AllDigits(d) && 1 <= |d| <= 8
  {
    s[..|s| - 1]
  }

  lemma {:induction false} RunStopsBefore(n: string, c: char, rest: string)
    requires AllDigits(n) && !IsDigit(c)
    ensures DigitRun(n + [c] + rest) == |n|
  {
    var s := n + [c] + rest;
    if n == "" {
      assert s[0] == c;
    } else {
      assert s[0] == n[0] && s[1..] == n[1..] + [c] + rest;
      RunStopsBefore(n[1..], c, rest);
    }
  }

  /** `strtol` stops at the letter, and padding behind it makes no difference. */
  lemma StrtolOfLettered(s: string, m: nat)
    requires LetteredText(s) && |s| <= m
    ensures Strtol(Padded(s, m)) == Strtol(s) == Value(LetteredDigits(s)) < 1000000000
  {
    hide DigitRun, Value;
    var d, c := LetteredDigits(s), s[|s| - 1];
    var zeros := seq(m - |s|, _ => '0');
    assert s == d + [c] && s + "" == s && Padded(s, m) == d + [c] + zeros;
    RunStopsBefore(d, c, "");
    RunStopsBefore(d, c, zeros);
    assert d + [c] + "" == s;
    assert s[..|d|] == d && Padded(s, m)[..|d|] == d;
    StrtolOfDigits(d);
  }

  /** A version lettered on its last component. */
  predicate Lettered(v: AtomVersion)
    ensures Lettered(v) ==> Fits(v)
  {
    && v.parts != [] && ValidRevision(v.revision)
    && (forall i :: 0 <= i < |v.parts| - 1 ==> PlainText(v.parts[i].v))
    && LetteredText(v.parts[|v.parts| - 1].v)
  }

  function LastPart(v: AtomVersion): Part
    requires v.parts != []
  {
    v.parts[|v.parts| - 1]
  }

  /** The number in front of the letter. */
  function LetterNumber(v: AtomVersion): nat
    requires Lettered(v)
  {
    Value(LetteredDigits(LastPart(v).v))
  }

  /** Each below the next, and the last below the first. */
  ghost predicate Cycle(w: AtomVersion, x: AtomVersion, y: AtomVersion)
    requires WellFormed(w) && WellFormed(x) && WellFormed(y)
  {
    Compare(w, x) < 0 && Compare(x, y) < 0 && Compare(y, w) < 0
  }

  ghost predicate ClosesCycle(w: AtomVersion)
    requires WellFormed(w)
  {
    exists x, y :: Plain(x) && Plain(y) && Cycle(w, x, y)
  }

  lemma PlainRound(p: Part, more1: bool, more2: bool)
    requires PlainText(p.v)
    ensures Round(p, p, more1, more2) == None
  {
    hide Round, PlainText, OrderKey;
    RoundOrder(p, p, more1, more2);
  }

  /** Equal digit-only components are passed over. */
  lemma {:induction false} CommonStart(a: AtomVersion, b: AtomVersion, i: nat, k: nat, t: int)
    requires WellFormed(a) && WellFormed(b) && i <= k <= |a.parts| && k <= |b.parts|
    requires forall j :: 0 <= j < k ==> a.parts[j] == b.parts[j] && PlainText(a.parts[j].v)
    ensures CompareFrom(a.parts, b.parts, i, t) == CompareFrom(a.parts, b.parts, k, t)
    decreases k - i
  {
    hide Round, PlainText, Usable;
    if i < k {
      PlainRound(a.parts[i], i + 1 < |a.parts|, i + 1 < |b.parts|);
      CommonStart(a, b, i + 1, k, t);
    }
  }

  // with a number there is a cycle

  function Stem(w: AtomVersion): seq<Part>
    requires w.parts != []
  {
    w.parts[..|w.parts| - 1]
  }

  /** The version without its letter, its number written with a zero more. */
  function Unlettered(w: AtomVersion): AtomVersion
    requires Lettered(w)
  {
    AtomVersion(Stem(w) + [Part(LastPart(w).prefix, "0" + LetteredDigits(LastPart(w).v))], 0)
  }

  /** A version with zero in its place and a component more. */
  function Longer(w: AtomVersion): AtomVersion
    requires Lettered(w)
  {
    AtomVersion(Stem(w) + [Part(LastPart(w).prefix, "0"), Part(NoPrefix, "5")], 0)
  }

  lemma LeadingZeroValue(d: string)
    requires AllDigits(d)
    ensures AllDigits("0" + d) && Value("0" + d) == Value(d)
  {
    ValueFromLeft('0', d);
  }

  lemma CompanionsArePlain(w: AtomVersion)
    requires Lettered(w)
    ensures Plain(Unlettered(w)) && Plain(Longer(w))
  {
    var d := LetteredDigits(LastPart(w).v);
    LeadingZeroValue(d);
    assert Last("0" + d) == Last(d);
    assert PlainText("0" + d) && PlainText("0") && PlainText("5");
    assert forall p <- Stem(w) :: PlainText(p.v);
  }

  lemma BelowLonger(w: AtomVersion)
    requires Lettered(w)
    ensures Plain(Longer(w)) && Compare(w, Longer(w)) == -1
  {
    hide NumberCompare, Plain, PlainText;
    CompanionsArePlain(w);
    var x, k := Longer(w), |w.parts| - 1;
    CommonStart(w, x, 0, k, ToI32(w.revision - x.revision));
    assert x.parts[k] == Part(LastPart(w).prefix, "0");
    assert Round(w.parts[k], x.parts[k], false, true) == Some(-1);
  }

  lemma LongerBelowUnlettered(w: AtomVersion)
    requires Lettered(w) && LetterNumber(w) > 0
    ensures Plain(Longer(w)) && Plain(Unlettered(w)) && Compare(Longer(w), Unlettered(w)) < 0
  {
    hide Plain, PlainText, Round, Value;
    CompanionsArePlain(w);
    var x, y, k := Longer(w), Unlettered(w), |w.parts| - 1;
    var d := LetteredDigits(LastPart(w).v);
    CommonStart(x, y, 0, k, ToI32(x.revision - y.revision));
    assert x.parts[k] == Part(LastPart(w).prefix, "0") && y.parts[k] == Part(LastPart(w).prefix, "0" + d);
    assert PlainText("0") && PlainText("0" + d) by { assert x.parts[k] in x.parts && y.parts[k] in y.parts; PlainParts(x); PlainParts(y); }
    LeadingZeroValue(d);
    ZeroKeyIsLeast("0" + d);
    NumberOfPlain("0");
    NumberOfPlain("0" + d);
    assert PartOrder(x.parts[k], y.parts[k]) == -1;
    RoundOrder(x.parts[k], y.parts[k], k + 1 < |x.parts|, k + 1 < |y.parts|);
  }

  lemma NumberOfPlain(s: string)
    requires PlainText(s)
    ensures Number(s) == s
  {
  }

  lemma PlainParts(v: AtomVersion)
    requires Plain(v)
    ensures forall p <- v.parts :: PlainText(p.v)
  {
  }

  lemma ZeroKeyIsLeast(s: string)
    requires PlainText(s)
    ensures OrderKey("0") == 0
    ensures OrderKey(s) == 0 <==> Value(s) == 0
    ensures Value(s) > 0 ==> PlainText("0") && OrderKey("0") < OrderKey(s)
  {
    ValuePadded(s, 9);
    ValuePadded("0", 9);
    assert Value("0") == 0;
  }

  lemma UnletteredBelow(w: AtomVersion)
    requires Lettered(w)
    ensures Plain(Unlettered(w)) && Compare(Unlettered(w), w) < 0
  {
    hide Plain, Value, Strtol;
    CompanionsArePlain(w);
    var y, k := Unlettered(w), |w.parts| - 1;
    var s := LastPart(w).v;
    var d := LetteredDigits(s);
    CommonStart(y, w, 0, k, ToI32(y.revision - w.revision));
    assert y.parts[k] == Part(LastPart(w).prefix, "0" + d);
    SameNumber(s);
    hide NumberCompare;
    assert Last("0" + d) == Last(d);
    assert Round(y.parts[k], w.parts[k], false, false) == Some(-(s[|s| - 1] as int));
  }

  /** A zero in front of the digits makes up for the letter behind them. */
  lemma SameNumber(s: string)
    requires LetteredText(s)
    ensures NumberCompare("0" + LetteredDigits(s), |s|, s, |s|) == 0
  {
    hide Value, Strtol, Padded;
    var d := LetteredDigits(s);
    LeadingZeroValue(d);
    StrtolOfLettered(s, |s|);
    StrtolOfDigits("0" + d);
    NoPadding(s);
    NoPadding("0" + d);
    assert ("0" + d)[..|s|] == "0" + d && s[..|s|] == s;
  }

  lemma NoPadding(s: string)
    ensures Padded(s, |s|) == s
  {
  }

  // without one there is none: the letter puts the version right above the one without it

  /** The version without its letter, at its highest revision. */
  function Base(w: AtomVersion): AtomVersion
    requires Lettered(w)
  {
    AtomVersion(Stem(w) + [Part(LastPart(w).prefix, "0")], 0x7fff_ffff)
  }

  lemma BaseIsPlain(w: AtomVersion)
    requires Lettered(w)
    ensures Plain(Base(w))
  {
    assert PlainText("0");
    assert forall p <- Stem(w) :: PlainText(p.v);
  }

  /** The number of a lettered component against that of a digit-only one, if it is zero. */
  lemma ZeroNumber(s: string, y: string)
    requires LetteredText(s) && Value(LetteredDigits(s)) == 0 && PlainText(y)
    ensures Sign(NumberCompare(y, |y|, s, |s|)) == Sign(OrderKey(y)) == -Sign(NumberCompare(s, |s|, y, |y|))
  {
    hide Strtol, OrderKey, Padded, Value;
    var m := Max(|y|, |s|);
    StrtolOfLettered(s, |s|);
    StrtolOfLettered(s, m);
    StrtolOfDigits(y);
    PaddedSign(y, m);
    assert s[..|s|] == s && y[..|y|] == y;
  }

  lemma PaddedSign(y: string, m: nat)
    requires PlainText(y) && |y| <= m <= 9
    ensures Strtol(Padded(y, m)) == Value(Padded(y, m)) < 1000000000
    ensures Sign(Value(Padded(y, m))) == Sign(Value(y)) == Sign(OrderKey(y))
  {
    hide Strtol, Value, Padded;
    StrtolOfDigits(Padded(y, m));
    ValuePadded(y, m);
    ScaleSign(Value(y), 0, Pow10(m - |y|));
    ValuePadded(y, 9);
    ScaleSign(Value(y), 0, Pow10(9 - |y|));
  }

  /** What the last component of a lettered version with number zero decides. */
  lemma ZeroRound(p: Part, q: Part, more: bool)
    requires LetteredText(p.v) && Value(LetteredDigits(p.v)) == 0 && PlainText(q.v)
    ensures var r := Round(p, q, false, more);
      if p.prefix != q.prefix then r == Some(p.prefix.Rank() - q.prefix.Rank()) && r != Some(0)
      else if more then r == Some(-1)
      else r.Some? && Sign(r.value) == if OrderKey(q.v) > 0 then -1 else 1
    ensures var r := Round(q, p, more, false);
      if p.prefix != q.prefix then r == Some(q.prefix.Rank() - p.prefix.Rank()) && r != Some(0)
      else if more then r == Some(1)
      else r.Some? && Sign(r.value) == if OrderKey(q.v) > 0 then 1 else -1
  {
    hide NumberCompare, OrderKey, Value, Strtol;
    ZeroNumber(p.v, q.v);
  }

  /** What is above the lettered version is above its base. */
  lemma {:induction false} AboveFrom(w: AtomVersion, x: AtomVersion, i: nat, t: int, u: int)
    requires Lettered(w) && LetterNumber(w) == 0 && Plain(x) && Plain(Base(w)) && i <= |w.parts| - 1
    requires CompareFrom(w.parts, x.parts, i, t) < 0
    ensures CompareFrom(Base(w).parts, x.parts, i, u) < 0
    decreases |w.parts| - i
  {
    hide Round, PlainText, LetteredText, OrderKey, Value, Plain;
    var z, k := Base(w), |w.parts| - 1;
    PlainParts(x);
    PlainParts(z);
    if i < |x.parts| {
      RoundOrder(z.parts[i], x.parts[i], i + 1 < |z.parts|, i + 1 < |x.parts|);
      if i < k {
        assert z.parts[i] == w.parts[i];
        RoundOrder(w.parts[i], x.parts[i], i + 1 < |w.parts|, i + 1 < |x.parts|);
        if PartOrder(w.parts[i], x.parts[i]) == 0 {
          AboveFrom(w, x, i + 1, t, u);
        }
      } else {
        ZeroRound(w.parts[k], x.parts[k], k + 1 < |x.parts|);
        ZeroAgainst(z.parts[k], x.parts[k]);
      }
    }
  }

  lemma ZeroAgainst(z: Part, q: Part)
    requires z.v == "0" && PlainText(q.v) && PlainText(z.v)
    ensures PartOrder(z, q)
      == if z.prefix != q.prefix then Sign(z.prefix.Rank() - q.prefix.Rank()) else if OrderKey(q.v) > 0 then -1 else 0
  {
    hide OrderKey;
    NumberOfPlain(z.v);
    NumberOfPlain(q.v);
    ZeroKeyIsLeast(q.v);
  }

  /** What is below the lettered version is not above its base. */
  lemma {:induction false} BelowFrom(w: AtomVersion, y: AtomVersion, i: nat, t: int, u: int)
    requires Lettered(w) && LetterNumber(w) == 0 && Plain(y) && Plain(Base(w)) && i <= |w.parts| - 1 && u <= 0
    requires CompareFrom(y.parts, w.parts, i, t) < 0
    ensures CompareFrom(y.parts, Base(w).parts, i, u) <= 0
    decreases |w.parts| - i
  {
    hide Round, PlainText, LetteredText, OrderKey, Value, Plain;
    var z, k := Base(w), |w.parts| - 1;
    PlainParts(y);
    PlainParts(z);
    if i < |y.parts| {
      RoundOrder(y.parts[i], z.parts[i], i + 1 < |y.parts|, i + 1 < |z.parts|);
      if i < k {
        assert z.parts[i] == w.parts[i];
        RoundOrder(y.parts[i], w.parts[i], i + 1 < |y.parts|, i + 1 < |w.parts|);
        if PartOrder(y.parts[i], w.parts[i]) == 0 {
          BelowFrom(w, y, i + 1, t, u);
        }
      } else {
        ZeroRound(w.parts[k], y.parts[k], k + 1 < |y.parts|);
        AgainstZero(y.parts[k], z.parts[k]);
      }
    }
  }

  lemma AgainstZero(q: Part, z: Part)
    requires z.v == "0" && PlainText(q.v) && PlainText(z.v)
    ensures PartOrder(q, z)
      == if z.prefix != q.prefix then Sign(q.prefix.Rank() - z.prefix.Rank()) else if OrderKey(q.v) > 0 then 1 else 0
  {
    hide OrderKey;
    NumberOfPlain(z.v);
    NumberOfPlain(q.v);
    ZeroKeyIsLeast(q.v);
  }

  lemma NoCycleWithZero(w: AtomVersion, x: AtomVersion, y: AtomVersion)
    requires Lettered(w) && LetterNumber(w) == 0 && Plain(x) && Plain(y)
    ensures !Cycle(w, x, y)
  {
    hide CompareFrom, Plain, LetteredText, Base;
    BaseIsPlain(w);
    var z := Base(w);
    if Cycle(w, x, y) {
      BaseOrders(w, x, y);
      Antisymmetric(z, x);
      Antisymmetric(y, z);
      Monotone(x, z, y);
      Antisymmetric(x, y);
    }
  }

  lemma BaseOrders(w: AtomVersion, x: AtomVersion, y: AtomVersion)
    requires Lettered(w) && LetterNumber(w) == 0 && Plain(x) && Plain(y) && Plain(Base(w))
    requires Compare(w, x) < 0 && Compare(y, w) < 0
    ensures Compare(Base(w), x) < 0 && Compare(y, Base(w)) <= 0
  {
    hide CompareFrom, LetteredText, PlainText;
    var z := Base(w);
    ExactTie(z, x);
    ExactTie(y, z);
    AboveFrom(w, x, 0, ToI32(w.revision - x.revision), z.revision - x.revision);
    BelowFrom(w, y, 0, ToI32(y.revision - w.revision), y.revision - z.revision);
  }

  /** A letter on the last component closes a cycle with digit-only versions if and only if the number in
      front of it is not zero: `w < ..0.5 < ..N < w`. */
  lemma CycleExactly(w: AtomVersion)
    requires Lettered(w)
    ensures ClosesCycle(w) <==> LetterNumber(w) > 0
  {
    hide Compare, Plain, Lettered, Longer, Unlettered;
    if LetterNumber(w) > 0 {
      BelowLonger(w);
      LongerBelowUnlettered(w);
      UnletteredBelow(w);
      assert Cycle(w, Longer(w), Unlettered(w));
    } else {
      forall x, y | Plain(x) && Plain(y)
        ensures !Cycle(w, x, y)
      {
        NoCycleWithZero(w, x, y);
      }
    }
  }

  // ---- an order with letters: as many components, and letters on the last one only ----

  predicate NoLeadingZero(d: string)
    requires d != ""
  {
    d == "0" || d[0] != '0'
  }

  /** The digits of a component with or without a letter. */
  function NumberText(s: string): (d: string)
    requires PlainText(s) || LetteredText(s)
    ensures AllDigits(d) && 1 <= |d| <= 9
  {
    if PlainText(s) then s else LetteredDigits(s)
  }

  function Letter(s: string): nat
    requires PlainText(s) || LetteredText(s)
  {
    if PlainText(s) then 0 else s[|s| - 1] as nat
  }

  /** Last components that are compared: all with letters, or all without leading zeros. */
  predicate Tail(s: string, lettered: bool)
    ensures Tail(s, lettered) ==> Usable(s) && Last(s) != '*' && |s| <= 9
  {
    if lettered then LetteredText(s) else (PlainText(s) || LetteredText(s)) && NoLeadingZero(NumberText(s))
  }

  /** A version of `k` components, lettered on the last one or not at all. */
  predicate Member(v: AtomVersion, k: nat, lettered: bool)
    ensures Member(v, k, lettered) ==> Fits(v)
  {
    && |v.parts| == k > 0 && ValidRevision(v.revision)
    && (forall i :: 0 <= i < k - 1 ==> PlainText(v.parts[i].v))
    && Tail(v.parts[k - 1].v, lettered)
  }

  lemma StrtolOfTail(s: string, m: nat)
    requires (PlainText(s) || LetteredText(s)) && |s| <= m <= 9
    ensures Strtol(s) == Value(NumberText(s)) < 1000000000
    ensures Strtol(Padded(s, m)) < 1000000000
    ensures LetteredText(s) ==> Strtol(Padded(s, m)) == Value(NumberText(s))
    ensures PlainText(s) ==> Sign(Strtol(Padded(s, m))) == Sign(Value(s))
  {
    hide Strtol, Value, Padded, OrderKey;
    if PlainText(s) {
      StrtolOfDigits(s);
      PaddedSign(s, m);
    } else {
      StrtolOfLettered(s, m);
    }
  }

  /** Last components compare by number. */
  lemma TailNumbers(s: string, t: string, lettered: bool)
    requires Tail(s, lettered) && Tail(t, lettered)
    ensures Sign(NumberCompare(s, |s|, t, |t|)) == Sign(Value(NumberText(s)) - Value(NumberText(t)))
  {
    hide Strtol, Value, Padded;
    var m := Max(|s|, |t|);
    StrtolOfTail(s, m);
    StrtolOfTail(t, m);
    ZeroText(s);
    ZeroText(t);
    assert s[..|s|] == s && t[..|t|] == t;
  }

  /** Without a leading zero a padded comparison is one with the number zero. */
  lemma ZeroText(s: string)
    requires PlainText(s) || LetteredText(s)
    ensures s[0] == '0' && NoLeadingZero(NumberText(s)) ==> Value(NumberText(s)) == 0
  {
    assert s[0] == NumberText(s)[0];
    assert Value("0") == 0;
  }

  function TailOrder(p: Part, q: Part): int
    requires PlainText(p.v) || LetteredText(p.v)
    requires PlainText(q.v) || LetteredText(q.v)
  {
    if p.prefix != q.prefix then Sign(p.prefix.Rank() - q.prefix.Rank())
    else if Value(NumberText(p.v)) != Value(NumberText(q.v)) then Sign(Value(NumberText(p.v)) - Value(NumberText(q.v)))
    else Sign(Letter(p.v) - Letter(q.v))
  }

  lemma TailRound(p: Part, q: Part, lettered: bool)
    requires Tail(p.v, lettered) && Tail(q.v, lettered)
    ensures var r := Round(p, q, false, false);
      if TailOrder(p, q) == 0 then r == None else r.Some? && Sign(r.value) == TailOrder(p, q)
  {
    hide NumberCompare, Value, NumberText;
    TailNumbers(p.v, q.v, lettered);
    LetterIsSuffix(p.v);
    LetterIsSuffix(q.v);
  }

  lemma LetterIsSuffix(s: string)
    requires PlainText(s) || LetteredText(s)
    ensures Suffix(s, |s|) == Letter(s)
  {
  }

  /** What component `i` of two such versions decides. */
  function MemberOrder(a: AtomVersion, b: AtomVersion, i: nat, k: nat, lettered: bool): int
    requires Member(a, k, lettered) && Member(b, k, lettered) && i < k
  {
    if i == k - 1 then TailOrder(a.parts[i], b.parts[i]) else PartOrder(a.parts[i], b.parts[i])
  }

  lemma MemberRound(a: AtomVersion, b: AtomVersion, i: nat, k: nat, lettered: bool)
    requires Member(a, k, lettered) && Member(b, k, lettered) && i < k
    ensures var r := Round(a.parts[i], b.parts[i], i + 1 < k, i + 1 < k);
      if MemberOrder(a, b, i, k, lettered) == 0 then r == None
      else r.Some? && Sign(r.value) == MemberOrder(a, b, i, k, lettered)
  {
    hide Round, TailOrder, OrderKey, Value;
    if i == k - 1 {
      TailRound(a.parts[i], b.parts[i], lettered);
    } else {
      RoundOrder(a.parts[i], b.parts[i], i + 1 < k, i + 1 < k);
    }
  }

  /** The order of components is itself transitive and turns round with its arguments. */
  lemma MemberOrders(a: AtomVersion, b: AtomVersion, c: AtomVersion, i: nat, k: nat, lettered: bool)
    requires Member(a, k, lettered) && Member(b, k, lettered) && Member(c, k, lettered) && i < k
    ensures MemberOrder(a, b, i, k, lettered) == -MemberOrder(b, a, i, k, lettered)
    ensures MemberOrder(a, a, i, k, lettered) == 0
    ensures MemberOrder(a, b, i, k, lettered) >= 0 && MemberOrder(b, c, i, k, lettered) >= 0 ==>
      MemberOrder(a, c, i, k, lettered) >= 0
    ensures MemberOrder(a, b, i, k, lettered) >= 0 && MemberOrder(b, c, i, k, lettered) >= 0 ==>
      (MemberOrder(a, c, i, k, lettered) == 0 <==>
        MemberOrder(a, b, i, k, lettered) == 0 && MemberOrder(b, c, i, k, lettered) == 0)
  {
    hide Value, OrderKey, NumberText, Letter, Number, PlainText, LetteredText;
  }

  lemma {:induction false} MembersAntisymmetric(a: AtomVersion, b: AtomVersion, i: nat, k: nat, lettered: bool, t: int)
    requires Member(a, k, lettered) && Member(b, k, lettered)
    ensures Sign(CompareFrom(a.parts, b.parts, i, t)) == -Sign(CompareFrom(b.parts, a.parts, i, -t))
    decreases k - i
  {
    hide Round, Tail, PlainText, MemberOrder;
    if i < k {
      MemberRound(a, b, i, k, lettered);
      MemberRound(b, a, i, k, lettered);
      MemberOrders(a, b, b, i, k, lettered);
      MembersAntisymmetric(a, b, i + 1, k, lettered, t);
    }
  }

  lemma {:induction false} MembersMonotone(a: AtomVersion, b: AtomVersion, c: AtomVersion, i: nat, k: nat, lettered: bool,
                                           t1: int, t2: int)
    requires Member(a, k, lettered) && Member(b, k, lettered) && Member(c, k, lettered)
    requires CompareFrom(a.parts, b.parts, i, t1) >= 0
    ensures CompareFrom(b.parts, c.parts, i, t2) >= 0 ==> CompareFrom(a.parts, c.parts, i, t1 + t2) >= 0
    ensures CompareFrom(b.parts, c.parts, i, t2) > 0 ==> CompareFrom(a.parts, c.parts, i, t1 + t2) > 0
    decreases k - i
  {
    hide Round, Tail, PlainText, MemberOrder;
    if i < k {
      MemberRound(a, b, i, k, lettered);
      MemberRound(b, c, i, k, lettered);
      MemberRound(a, c, i, k, lettered);
      MemberOrders(a, b, c, i, k, lettered);
      if MemberOrder(a, b, i, k, lettered) == 0 {
        MembersMonotone(a, b, c, i + 1, k, lettered, t1, t2);
      }
    }
  }

  lemma MembersTie(a: AtomVersion, b: AtomVersion, k: nat, lettered: bool)
    requires Member(a, k, lettered) && Member(b, k, lettered)
    ensures Compare(a, b) == CompareFrom(a.parts, b.parts, 0, a.revision - b.revision)
  {
    hide Tail, PlainText, Round;
  }

  /** Among versions of equally many components with letters on the last one only, all of them lettered or
      none with a leading zero there, the comparison is a total preorder. */
  lemma LetteredPreorder(a: AtomVersion, b: AtomVersion, c: AtomVersion, k: nat, lettered: bool)
    requires Member(a, k, lettered) && Member(b, k, lettered) && Member(c, k, lettered)
    ensures Compare(a, a) == 0
    ensures Sign(Compare(a, b)) == -Sign(Compare(b, a))
    ensures Compare(a, b) <= 0 && Compare(b, c) <= 0 ==> Compare(a, c) <= 0
    ensures Compare(a, b) < 0 && Compare(b, c) <= 0 ==> Compare(a, c) < 0
    ensures Compare(a, b) <= 0 && Compare(b, c) < 0 ==> Compare(a, c) < 0
  {
    hide CompareFrom, Tail, PlainText;
    MembersTie(a, a, k, lettered);
    MembersTie(a, b, k, lettered);
    MembersTie(b, a, k, lettered);
    MembersTie(b, c, k, lettered);
    MembersTie(c, b, k, lettered);
    MembersTie(a, c, k, lettered);
    MembersTie(c, a, k, lettered);
    MembersAntisymmetric(a, a, 0, k, lettered, 0);
    MembersAntisymmetric(a, b, 0, k, lettered, a.revision - b.revision);
    MembersAntisymmetric(b, c, 0, k, lettered, b.revision - c.revision);
    MembersAntisymmetric(a, c, 0, k, lettered, a.revision - c.revision);
    if Compare(c, b) >= 0 && Compare(b, a) >= 0 {
      MembersMonotone(c, b, a, 0, k, lettered, c.revision - b.revision, b.revision - a.revision);
      if Compare(a, c) == 0 {
        MembersMonotone(b, a, c, 0, k, lettered, b.revision - a.revision, a.revision - c.revision);
      }
    }
  }

  function Single(s: string): AtomVersion {
    AtomVersion([Part(NoPrefix, s)], 0)
  }

  lemma SingleCompare(s: string, t: string)
    requires (PlainText(s) || LetteredText(s)) && (PlainText(t) || LetteredText(t))
    ensures WellFormed(Single(s)) && WellFormed(Single(t))
    ensures var n := NumberCompare(s, |s|, t, |t|);
      Compare(Single(s), Single(t)) == if n != 0 then n else Suffix(s, |s|) - Suffix(t, |t|)
  {
    hide NumberCompare, PlainText, LetteredText, Suffix;
    assert Last(s) != '*' && Last(t) != '*' by { NoStar(s); NoStar(t); }
    assert CompareFrom(Single(s).parts, Single(t).parts, 1, 0) == 0;
    LetterOfSuffix(s);
    LetterOfSuffix(t);
  }

  lemma NoStar(s: string)
    requires PlainText(s) || LetteredText(s)
    ensures Usable(s) && Last(s) != '*'
  {
  }

  lemma LetterOfSuffix(s: string)
    requires PlainText(s) || LetteredText(s)
    ensures Suffix(s, |s|) >= 0
  {
  }

  /** With a leading zero beside letters it is none: `1a < 01b < 1 < 1a`. */
  lemma LeadingZeroBreaksTheOrder()
    ensures WellFormed(Single("1a")) && WellFormed(Single("01b")) && WellFormed(Single("1"))
    ensures Compare(Single("1a"), Single("01b")) < 0
    ensures Compare(Single("01b"), Single("1")) < 0
    ensures Compare(Single("1"), Single("1a")) < 0
  {
    hide NumberCompare, Compare;
    assert LetteredText("1a") && LetteredText("01b") && PlainText("1");
    OneNumbers();
    SingleCompare("1a", "01b");
    SingleCompare("01b", "1");
    SingleCompare("1", "1a");
  }

  lemma OneNumbers()
    ensures NumberCompare("1a", 2, "01b", 3) == 0
    ensures NumberCompare("01b", 3, "1", 1) < 0
    ensures NumberCompare("1", 1, "1a", 2) == 0
  {
    hide Strtol, Padded, Value;
    OneValues();
    assert LetteredText("1a") && LetteredText("01b") && PlainText("1");
    assert LetteredDigits("1a") == "1" && LetteredDigits("01b") == "01";
    StrtolOfLettered("1a", 3);
    StrtolOfLettered("01b", 3);
    StrtolOfDigits("1");
    PaddedOne();
    assert "1a"[..2] == "1a" && "01b"[..3] == "01b" && "1"[..1] == "1";
  }

  lemma OneValues()
    ensures Value("1") == 1 == Value("01")
  {
    assert "1"[..0] == "" && "01"[..1] == "0" && "0"[..0] == "";
  }

  lemma PaddedOne()
    ensures Strtol(Padded("1", 3)) == 100
  {
    hide Strtol, Padded, Value;
    OneValues();
    StrtolOfDigits(Padded("1", 3));
    ValuePadded("1", 3);
    assert Pow10(2) == 100;
  }

  // ---- turning the arguments round ----

  /** Digits, perhaps with a letter. */
  predicate MixedText(s: string)
    ensures MixedText(s) ==> Usable(s) && Last(s) != '*' && |s| <= 9
  {
    PlainText(s) || LetteredText(s)
  }

  /** Digits, perhaps with a letter or a star. */
  predicate NumberedText(s: string)
    ensures NumberedText(s) ==> Usable(s) && |s| <= 10
  {
    MixedText(s) || StarText(s)
  }

  predicate Mixed(v: AtomVersion)
    ensures Mixed(v) ==> Fits(v)
  {
    ValidRevision(v.revision) && forall p <- v.parts :: MixedText(p.v)
  }

  predicate Numbered(v: AtomVersion)
    ensures Numbered(v) ==> Fits(v)
  {
    ValidRevision(v.revision) && forall p <- v.parts :: NumberedText(p.v)
  }

  lemma PatternIsNumbered(v: AtomVersion)
    requires Pattern(v)
    ensures Numbered(v)
    ensures forall p <- v.parts :: !LetteredText(p.v)
  {
    hide AllDigits;
    forall p | p in v.parts
      ensures NumberedText(p.v) && !LetteredText(p.v)
    {
      var i :| 0 <= i < |v.parts| && v.parts[i] == p;
      if PlainText(p.v) {
        assert IsDigit(Last(p.v));
      } else {
        assert Last(p.v) == '*';
      }
    }
  }

  lemma MixedIsNumbered(v: AtomVersion)
    requires Mixed(v)
    ensures Numbered(v)
  {
  }

  /** The number that is read and the one that is read when padded, both within nine digits. */
  lemma NumberedReads(s: string, m: nat)
    requires NumberedText(s) && Core(s) <= m <= 9
    ensures 0 <= Strtol(s) < 1000000000 && 0 <= Strtol(Padded(s[..Core(s)], m)) < 1000000000
  {
    hide Strtol, Padded, OrderKey, Value;
    var n := s[..Core(s)];
    if StarText(s) {
      StrtolOfNumber(s);
      PaddedSign(n, m);
    } else {
      assert n == s;
      StrtolOfTail(s, m);
    }
  }

  lemma NumbersTurn(s: string, t: string)
    requires NumberedText(s) && NumberedText(t)
    ensures NumberCompare(s, Core(s), t, Core(t)) == -NumberCompare(t, Core(t), s, Core(s))
  {
    hide Strtol, Padded, NumberedText;
    var m := Max(Core(s), Core(t));
    CoreWithin(s);
    CoreWithin(t);
    NumberedReads(s, m);
    NumberedReads(t, m);
  }

  lemma CoreWithin(s: string)
    requires NumberedText(s)
    ensures 1 <= Core(s) <= 9
  {
  }

  /** Equal prefixes, letters on both sides and successors on both sides: each side is below the other. */
  predicate Clash(a: AtomVersion, b: AtomVersion, i: nat)
    requires i < |a.parts| && i < |b.parts|
  {
    && a.parts[i].prefix == b.parts[i].prefix
    && LetteredText(a.parts[i].v) && LetteredText(b.parts[i].v)
    && i + 1 < |a.parts| && i + 1 < |b.parts|
  }

  lemma RoundTurns(p: Part, q: Part, more1: bool, more2: bool)
    requires MixedText(p.v) && NumberedText(q.v)
    ensures p.prefix == q.prefix && LetteredText(p.v) && LetteredText(q.v) && more1 && more2 ==>
      Round(p, q, more1, more2) == Some(-1) == Round(q, p, more2, more1)
    ensures !(p.prefix == q.prefix && LetteredText(p.v) && LetteredText(q.v) && more1 && more2) ==>
      match Round(p, q, more1, more2)
      case None => Round(q, p, more2, more1) == None
      case Some(r) => Round(q, p, more2, more1) == Some(-r)
  {
    hide NumberCompare, AllDigits;
    NumbersTurn(p.v, q.v);
    LastOfNumbered(p.v);
    LastOfNumbered(q.v);
  }

  lemma LastOfNumbered(s: string)
    requires NumberedText(s)
    ensures s[Core(s) - 1] > '9' <==> LetteredText(s)
    ensures LetteredText(s) ==> Core(s) == |s|
  {
  }

  /** No clash comes before the first turn that decides. */
  ghost predicate ClashFree(a: AtomVersion, b: AtomVersion, i: nat)
    requires Numbered(a) && Numbered(b)
    decreases |a.parts| - i
  {
    i < |a.parts| && i < |b.parts| ==>
      && !Clash(a, b, i)
      && (Round(a.parts[i], b.parts[i], i + 1 < |a.parts|, i + 1 < |b.parts|) == None ==> ClashFree(a, b, i + 1))
  }

  lemma {:induction false} TurnsFrom(a: AtomVersion, b: AtomVersion, i: nat, t: int)
    requires Mixed(a) && Numbered(a) && Numbered(b)
    ensures var r, q := CompareFrom(a.parts, b.parts, i, t), CompareFrom(b.parts, a.parts, i, -t);
      (Sign(r) == -Sign(q) <==> ClashFree(a, b, i)) && (ClashFree(a, b, i) ==> r == -q) && (!ClashFree(a, b, i) ==> r == -1 == q)
    decreases |a.parts| - i
  {
    hide Round, MixedText, NumberedText, LetteredText;
    if i < |a.parts| && i < |b.parts| {
      assert a.parts[i] in a.parts && b.parts[i] in b.parts;
      RoundTurns(a.parts[i], b.parts[i], i + 1 < |a.parts|, i + 1 < |b.parts|);
      TurnsFrom(a, b, i + 1, t);
    }
  }

  /** For versions whose components are digits with or without a letter, and on one side stars: turning the
      arguments round turns the sign round if and only if no clash comes before the turn that decides; then
      it negates the result, and otherwise both results are -1. */
  lemma TurnsRoundExactly(a: AtomVersion, b: AtomVersion)
    requires Mixed(a) && Numbered(b)
    ensures Numbered(a)
    ensures Sign(Compare(a, b)) == -Sign(Compare(b, a)) <==> ClashFree(a, b, 0)
    ensures ClashFree(a, b, 0) ==> Compare(a, b) == -Compare(b, a)
    ensures !ClashFree(a, b, 0) ==> Compare(a, b) == -1 == Compare(b, a)
  {
    hide CompareFrom, ClashFree, MixedText, NumberedText;
    MixedIsNumbered(a);
    TurnsFrom(a, b, 0, a.revision - b.revision);
  }

  /** Against a version without letters there is no clash. */
  lemma {:induction false} NoClash(a: AtomVersion, b: AtomVersion, i: nat)
    requires Numbered(a) && Numbered(b) && forall p <- b.parts :: !LetteredText(p.v)
    ensures ClashFree(a, b, i)
    decreases |a.parts| - i
  {
    hide Round, NumberedText;
    if i < |a.parts| && i < |b.parts| {
      NoClash(a, b, i + 1);
    }
  }

  lemma TurnsAgainstPattern(a: AtomVersion, b: AtomVersion)
    requires Mixed(a) && Pattern(b)
    ensures Numbered(a) && Numbered(b) && ClashFree(a, b, 0)
    ensures Compare(a, b) == -Compare(b, a)
  {
    hide Compare, ClashFree, MixedText, NumberedText, Pattern;
    PatternIsNumbered(b);
    TurnsRoundExactly(a, b);
    NoClash(a, b, 0);
  }

  // ---- the families of versions that are ordered ----

  /** Digit-only versions; or versions of `k` components, lettered on the last one. */
  datatype Family = DigitsOnly | LetteredLast(k: nat, lettered: bool)

  predicate InFamily(v: AtomVersion, f: Family)
    ensures InFamily(v, f) ==> Fits(v) && v.parts != []
  {
    match f
    case DigitsOnly => Plain(v)
    case LetteredLast(k, lettered) => Member(v, k, lettered)
  }

  /** What may be compared with a family: its members, and patterns with digit-only versions. */
  predicate FitsFamily(v: AtomVersion, f: Family)
    ensures FitsFamily(v, f) ==> Fits(v)
  {
    InFamily(v, f) || (f == DigitsOnly && Pattern(v))
  }

  lemma FamilyReflexive(a: AtomVersion, f: Family)
    requires InFamily(a, f)
    ensures Compare(a, a) == 0
  {
    hide Compare, Plain, Member;
    match f
    case DigitsOnly => Reflexive(a);
    case LetteredLast(k, lettered) => LetteredPreorder(a, a, a, k, lettered);
  }

  lemma FamilyAntisymmetric(a: AtomVersion, b: AtomVersion, f: Family)
    requires InFamily(a, f) && FitsFamily(b, f)
    ensures Sign(Compare(a, b)) == -Sign(Compare(b, a))
  {
    hide Compare, Plain, Member, Starred;
    match f
    case DigitsOnly => Antisymmetric(a, b);
    case LetteredLast(k, lettered) => LetteredPreorder(a, b, b, k, lettered);
  }

  lemma FamilyMonotone(a: AtomVersion, b: AtomVersion, c: AtomVersion, f: Family)
    requires InFamily(a, f) && InFamily(b, f) && FitsFamily(c, f) && Compare(a, b) >= 0
    ensures Compare(b, c) >= 0 ==> Compare(a, c) >= 0
    ensures Compare(b, c) > 0 ==> Compare(a, c) > 0
  {
    hide Compare, Plain, Member, Starred;
    match f
    case DigitsOnly => Monotone(a, b, c);
    case LetteredLast(k, lettered) =>
      LetteredPreorder(a, b, c, k, lettered);
      LetteredPreorder(b, c, a, k, lettered);
      LetteredPreorder(c, b, a, k, lettered);
      LetteredPreorder(a, c, b, k, lettered);
  }

  /** Within a family the comparison is a total preorder. */
  lemma FamilyPreorder(a: AtomVersion, b: AtomVersion, c: AtomVersion, f: Family)
    requires InFamily(a, f) && InFamily(b, f) && InFamily(c, f)
    ensures Compare(a, b) <= 0 && Compare(b, c) <= 0 ==> Compare(a, c) <= 0
    ensures Compare(a, b) < 0 && Compare(b, c) <= 0 ==> Compare(a, c) < 0
    ensures Compare(a, b) <= 0 && Compare(b, c) < 0 ==> Compare(a, c) < 0
    ensures Compare(a, b) == 0 && Compare(b, c) == 0 ==> Compare(a, c) == 0
  {
    hide Compare, Plain, Member;
    match f
    case DigitsOnly => TotalPreorder(a, b, c);
    case LetteredLast(k, lettered) =>
      LetteredPreorder(a, b, c, k, lettered);
      LetteredPreorder(c, b, a, k, lettered);
      LetteredPreorder(a, c, b, k, lettered);
  }
}
