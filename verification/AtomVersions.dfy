/** Version strings as chains of components, and their comparison. */
module AtomVersions {
  import opened Digits
  import opened Wrappers

  datatype Prefix = Alpha | Beta | Pre | Rc | NoPrefix | P {
    function Rank(): int {
      match this
      case Alpha => 0 case Beta => 1 case Pre => 2 case Rc => 3 case NoPrefix => 4 case P => 5
    }
  }

  datatype Part = Part(prefix: Prefix, v: string)

  /** The chain of version nodes; the null pointer is the empty chain. */
  datatype AtomVersion = AtomVersion(parts: seq<Part>, revision: int)

  const NO_VERSION := AtomVersion([], 0)

  function Last(s: string): char
    requires s != ""
  {
    s[|s| - 1]
  }

  // ---- one round of the comparison loop ----

  /** The length of `s` without a trailing star. */
  function Core(s: string): (n: nat)
    requires s != ""
    ensures n <= |s|
  {
    if Last(s) == '*' then |s| - 1 else |s|
  }

  /** Both sides are compared as whole numbers unless one has a leading zero. */
  predicate AsIntegers(a: string, al: nat, b: string, bl: nat)
    requires a != "" && b != ""
  {
    (a[0] != '0' || al == 1) && (b[0] != '0' || bl == 1)
  }

  function NumberCompare(a: string, al: nat, b: string, bl: nat): int
    requires 0 < al <= |a| && 0 < bl <= |b|
  {
    if AsIntegers(a, al, b, bl) then ToI32(ToI32(Strtol(a)) - ToI32(Strtol(b)))
    else
      var m := Max(al, bl);
      ToI32(ToI32(Strtol(Padded(a[..al], m))) - ToI32(Strtol(Padded(b[..bl], m))))
  }

  function Suffix(s: string, n: nat): int
    requires 0 < n <= |s|
  {
    if s[n - 1] > '9' then s[n - 1] as int else 0
  }

  predicate Usable(s: string) {
    s != "" && s != "*"
  }

  /** What one round decides: a result, or `None` to go on to the next nodes.
      `moreA` and `moreB` say whether the two nodes have successors. */
  function Round(a: Part, b: Part, moreA: bool, moreB: bool): (r: Option<int>)
    requires Usable(a.v) && Usable(b.v)
  {
    var al := Core(a.v);
    var bl := if Last(a.v) == '*' then |b.v| else Core(b.v);
    var star := Last(a.v) == '*' || Last(b.v) == '*';
    if a.prefix != b.prefix then Some(a.prefix.Rank() - b.prefix.Rank())
    else if moreB && a.v[al - 1] > '9' then Some(-1)
    else if moreA && b.v[bl - 1] > '9' then Some(1)
    else
      var cmp := NumberCompare(a.v, al, b.v, bl);
      if cmp != 0 then Some(cmp)
      else if star then Some(0)
      else
        var cmpSuffix := Suffix(a.v, al) - Suffix(b.v, bl);
        if cmpSuffix != 0 then Some(cmpSuffix) else None
  }

  predicate WellFormed(v: AtomVersion) {
    forall p <- v.parts :: Usable(p.v)
  }

  /** The comparison from node `i` on; `tie` is the difference of the revisions. */
  function CompareFrom(a: seq<Part>, b: seq<Part>, i: nat, tie: int): int
    requires forall p <- a :: Usable(p.v)
    requires forall p <- b :: Usable(p.v)
    decreases |a| - i
  {
    if i < |a| && i < |b| then
      match Round(a[i], b[i], i + 1 < |a|, i + 1 < |b|)
      case Some(r) => r
      case None => CompareFrom(a, b, i + 1, tie)
    else if i < |a| then 1
    else if i < |b| then -1
    else tie
  }

  function Compare(a: AtomVersion, b: AtomVersion): int
    requires WellFormed(a) && WellFormed(b)
  {
    CompareFrom(a.parts, b.parts, 0, ToI32(a.revision - b.revision))
  }

  // ---- the loop with its two scratch buffers ----

  const BUFFER := 128

  /** The lengths the loop works with: the second star is looked at only if there is no first. */
  predicate PairFits(a: string, b: string)
    requires Usable(a) && Usable(b)
  {
    var bl := if Last(a) == '*' then |b| else Core(b);
    AsIntegers(a, Core(a), b, bl) || (Core(a) < BUFFER && bl < BUFFER)
  }

  /** Wherever padding is needed, the padded component fits the scratch buffers. */
  predicate BuffersSuffice(a: AtomVersion, b: AtomVersion)
    requires WellFormed(a) && WellFormed(b)
  {
    forall i :: 0 <= i < |a.parts| && i < |b.parts| ==> PairFits(a.parts[i].v, b.parts[i].v)
  }

  /** Copies `n` characters, fills up with zeros to `m` and terminates. */
  method PadInto(buffer: array<char>, s: string, n: nat, m: nat)
    requires buffer.Length == BUFFER && n <= |s| && n <= m < BUFFER
    modifies buffer
    ensures buffer[..m] == Padded(s[..n], m)
    ensures buffer[m] == '\0'
  {
    buffer[m] := '\0';
    var i := 0;
    while i < n
      invariant i <= n
      invariant buffer[..i] == s[..i] && buffer[m] == '\0'
    {
      buffer[i] := s[i];
      i := i + 1;
    }
    while i < m
      invariant n <= i <= m
      invariant buffer[..i] == Padded(s[..n], i) && buffer[m] == '\0'
    {
      buffer[i] := '0';
      i := i + 1;
    }
  }

  method CompareNumbers(scf: string, l1: nat, scs: string, l2: nat, r1: array<char>, r2: array<char>)
    returns (cmp: int)
    requires 0 < l1 <= |scf| && 0 < l2 <= |scs|
    requires AsIntegers(scf, l1, scs, l2) || (l1 < BUFFER && l2 < BUFFER)
    requires r1.Length == BUFFER == r2.Length && r1 != r2
    modifies r1, r2
    ensures cmp == NumberCompare(scf, l1, scs, l2)
  {
    hide Strtol, Padded, ToI32;
    var cmp1, cmp2;
    if (scf[0] != '0' || l1 == 1) && (scs[0] != '0' || l2 == 1) {
      cmp1, cmp2 := ToI32(Strtol(scf)), ToI32(Strtol(scs));
    } else {
      var m := if l1 > l2 then l1 else l2;
      PadInto(r1, scf, l1, m);
      PadInto(r2, scs, l2, m);
      cmp1, cmp2 := ToI32(Strtol(r1[..m])), ToI32(Strtol(r2[..m]));
    }
    cmp := ToI32(cmp1 - cmp2);
  }

  /** The body of the loop; a result ends the comparison. */
  method CompareRound(cf: Part, cs: Part, moreF: bool, moreS: bool, r1: array<char>, r2: array<char>)
    returns (result: Option<int>)
    requires Usable(cf.v) && Usable(cs.v) && PairFits(cf.v, cs.v)
    requires r1.Length == BUFFER == r2.Length && r1 != r2
    modifies r1, r2
    ensures result == Round(cf, cs, moreF, moreS)
  {
    hide NumberCompare, AsIntegers;
    if cf.prefix != cs.prefix {
      return Some(cf.prefix.Rank() - cs.prefix.Rank());
    }
    var l1, l2 := |cf.v|, |cs.v|;
    var starSkip := false;
    if cf.v[l1 - 1] == '*' {
      starSkip := true;
      l1 := l1 - 1;
    } else if cs.v[l2 - 1] == '*' {
      starSkip := true;
      l2 := l2 - 1;
    }
    var suf1, suf2 := 0, 0;
    if moreS && cf.v[l1 - 1] > '9' {
      return Some(-1);
    }
    if moreF && cs.v[l2 - 1] > '9' {
      return Some(1);
    }
    if cf.v[l1 - 1] > '9' {
      suf1 := cf.v[l1 - 1] as int;
    }
    if cs.v[l2 - 1] > '9' {
      suf2 := cs.v[l2 - 1] as int;
    }
    var cmp := CompareNumbers(cf.v, l1, cs.v, l2, r1, r2);
    if cmp != 0 {
      return Some(cmp);
    }
    if starSkip {
      return Some(0);
    }
    if suf1 - suf2 != 0 {
      return Some(suf1 - suf2);
    }
    return None;
  }

  method AtomVersionCompare(first: AtomVersion, second: AtomVersion) returns (r: int)
    requires WellFormed(first) && WellFormed(second) && BuffersSuffice(first, second)
    requires first.parts != [] || second.parts != []
    ensures r == Compare(first, second)
  {
    hide Round, ToI32;
    var r1, r2 := new char[BUFFER], new char[BUFFER];
    var i := 0;
    while i < |first.parts| && i < |second.parts|
      invariant i <= |first.parts| && i <= |second.parts|
      invariant Compare(first, second)
             == CompareFrom(first.parts, second.parts, i, ToI32(first.revision - second.revision))
    {
      var decided := CompareRound(first.parts[i], second.parts[i],
                                  i + 1 < |first.parts|, i + 1 < |second.parts|, r1, r2);
      if decided.Some? {
        return decided.value;
      }
      i := i + 1;
    }
    if i < |first.parts| {
      return 1;
    }
    if i < |second.parts| {
      return -1;
    }
    r := ToI32(first.revision - second.revision);
  }

  /** Every component is shorter than the scratch buffers. */
  predicate Fits(v: AtomVersion)
    ensures Fits(v) ==> WellFormed(v)
  {
    forall p <- v.parts :: Usable(p.v) && |p.v| < BUFFER
  }

  lemma FitsSuffices(a: AtomVersion, b: AtomVersion)
    requires Fits(a) && Fits(b)
    ensures BuffersSuffice(a, b)
  {
    hide AsIntegers;
  }

  // ---- versions made of digits only ----

  /** One to nine digits. */
  predicate PlainText(s: string)
    ensures PlainText(s) ==> Usable(s) && Last(s) != '*' && |s| <= 9
  {
    1 <= |s| <= 9 && IsDigit(s[0]) && IsDigit(Last(s)) && AllDigits(s)
  }

  /** One to nine digits and a star. */
  predicate StarText(s: string)
    ensures StarText(s) ==> Usable(s) && |s| <= 10
  {
    1 < |s| <= 10 && Last(s) == '*' && PlainText(s[..|s| - 1])
  }

  predicate ValidRevision(r: int) {
    0 <= r < 0x8000_0000
  }

  predicate Plain(v: AtomVersion)
    ensures Plain(v) ==> Fits(v)
  {
    v.parts != [] && ValidRevision(v.revision) && forall p <- v.parts :: PlainText(p.v)
  }

  /** A digit-only version whose last component ends in a star. */
  predicate Starred(v: AtomVersion)
    ensures Starred(v) ==> Fits(v)
  {
    && v.parts != [] && ValidRevision(v.revision)
    && (forall i :: 0 <= i < |v.parts| - 1 ==> PlainText(v.parts[i].v))
    && StarText(v.parts[|v.parts| - 1].v)
  }

  predicate Known(s: string)
    ensures Known(s) ==> Usable(s)
  {
    PlainText(s) || StarText(s)
  }

  /** The digits of a component, without its star. */
  function Number(s: string): (n: string)
    requires Known(s)
    ensures PlainText(n)
  {
    s[..Core(s)]
  }

  /** How two components order: by prefix, then by number. */
  function PartOrder(a: Part, b: Part): (r: int)
    requires Known(a.v) && Known(b.v)
    ensures r == 0 <==> a.prefix == b.prefix && OrderKey(Number(a.v)) == OrderKey(Number(b.v))
  {
    if a.prefix != b.prefix then Sign(a.prefix.Rank() - b.prefix.Rank())
    else Sign(OrderKey(Number(a.v)) - OrderKey(Number(b.v)))
  }

  lemma ZeroKey(s: string)
    requires PlainText(s)
    ensures s == "0" ==> Value(s) == 0 == OrderKey(s)
  {
    if s == "0" {
      ValuePadded(s, 9);
    }
  }

  lemma IntegerOrder(a: string, b: string)
    requires Known(a) && Known(b) && AsIntegers(a, Core(a), b, Core(b))
    ensures Sign(Value(Number(a)) - Value(Number(b))) == Sign(OrderKey(Number(a)) - OrderKey(Number(b)))
  {
    hide Padded;
    ZeroKey(Number(a));
    ZeroKey(Number(b));
    ScaleSign(Value(Number(a)), Value(Number(b)), 1000000000);
  }

  /** Neither the values nor their difference leave the 32-bit range, and the sign is that of the keys. */
  lemma NumberOrder(a: string, b: string)
    requires Known(a) && Known(b) && (PlainText(a) || PlainText(b))
    ensures var r := NumberCompare(a, Core(a), b, Core(b));
      -1000000000 < r < 1000000000 && Sign(r) == Sign(OrderKey(Number(a)) - OrderKey(Number(b)))
  {
    hide OrderKey, Value, Strtol, Padded;
    var x, y := Number(a), Number(b);
    if AsIntegers(a, |x|, b, |y|) {
      StrtolOfNumber(a);
      StrtolOfNumber(b);
      IntegerOrder(a, b);
    } else {
      var m := Max(|x|, |y|);
      StrtolOfDigits(Padded(x, m));
      StrtolOfDigits(Padded(y, m));
      PaddedOrder(x, y);
    }
  }

  /** On digits the comparison of two components is Algorithm 3.3 of the Package Manager
      Specification: without leading zeros by number, otherwise as text with trailing zeros dropped. */
  lemma FollowsSpecification(a: string, b: string)
    requires PlainText(a) && PlainText(b)
    ensures Sign(NumberCompare(a, |a|, b, |b|)) == SpecifiedCompare(a, b)
  {
    hide NumberCompare, SpecifiedCompare, OrderKey;
    NumberOrder(a, b);
    SpecifiedOrder(a, b);
    assert Number(a) == a && Number(b) == b;
  }

  /** `strtol` stops at the star. */
  lemma StrtolOfNumber(s: string)
    requires Known(s)
    ensures Strtol(s) == Value(Number(s)) < 1000000000
  {
    var n := Number(s);
    StrtolOfDigits(n);
    if s != n {
      assert s == n + "*";
      RunStopsAt(n, '*');
    }
  }

  lemma {:induction false} RunStopsAt(n: string, c: char)
    requires AllDigits(n) && !IsDigit(c)
    ensures DigitRun(n + [c]) == |n|
  {
    if n != "" {
      assert (n + [c])[1..] == n[1..] + [c];
      RunStopsAt(n[1..], c);
    }
  }

  /** A round decides by the order of the components; when they agree, a star settles for equality. */
  lemma RoundOrder(a: Part, b: Part, moreA: bool, moreB: bool)
    requires Known(a.v) && Known(b.v) && (PlainText(a.v) || PlainText(b.v))
    ensures var r := Round(a, b, moreA, moreB);
      if PartOrder(a, b) != 0 then r.Some? && Sign(r.value) == PartOrder(a, b) && -1000000000 < r.value < 1000000000
      else r == if PlainText(a.v) && PlainText(b.v) then None else Some(0)
  {
    NumberOrder(a.v, b.v);
    assert Number(a.v)[|Number(a.v)| - 1] == a.v[Core(a.v) - 1] <= '9';
    assert Number(b.v)[|Number(b.v)| - 1] == b.v[Core(b.v) - 1] <= '9';
    hide NumberCompare, OrderKey, AllDigits;
  }

  /** What an atom may compare with: a plain version, a starred one or none. */
  predicate Pattern(v: AtomVersion)
    ensures Pattern(v) ==> Fits(v)
  {
    Plain(v) || Starred(v) || v == NO_VERSION
  }

  // ---- the order ----

  lemma {:induction false} ReflexiveFrom(a: AtomVersion, i: nat)
    requires Plain(a)
    ensures CompareFrom(a.parts, a.parts, i, 0) == 0
    decreases |a.parts| - i
  {
    hide Round, PlainText;
    if i < |a.parts| {
      RoundOrder(a.parts[i], a.parts[i], i + 1 < |a.parts|, i + 1 < |a.parts|);
      ReflexiveFrom(a, i + 1);
    }
  }

  lemma {:induction false} AntisymmetricFrom(a: AtomVersion, b: AtomVersion, i: nat, t: int)
    requires Plain(a) && Pattern(b) && -0x8000_0000 < t < 0x8000_0000
    ensures Sign(CompareFrom(a.parts, b.parts, i, t)) == -Sign(CompareFrom(b.parts, a.parts, i, -t))
    ensures -0x8000_0000 < CompareFrom(a.parts, b.parts, i, t) < 0x8000_0000
    decreases |a.parts| - i
  {
    hide Round, PlainText, StarText, Number, OrderKey;
    if i < |a.parts| && i < |b.parts| {
      var more1, more2 := i + 1 < |a.parts|, i + 1 < |b.parts|;
      RoundOrder(a.parts[i], b.parts[i], more1, more2);
      RoundOrder(b.parts[i], a.parts[i], more2, more1);
      AntisymmetricFrom(a, b, i + 1, t);
    }
  }

  /** Moving up on the left moves the verdict up, against a plain or a starred right side. */
  lemma {:induction false} MonotoneFrom(a: AtomVersion, b: AtomVersion, c: AtomVersion, i: nat, t1: int, t2: int)
    requires Plain(a) && Plain(b) && Pattern(c)
    requires CompareFrom(a.parts, b.parts, i, t1) >= 0
    ensures CompareFrom(b.parts, c.parts, i, t2) >= 0 ==> CompareFrom(a.parts, c.parts, i, t1 + t2) >= 0
    ensures CompareFrom(b.parts, c.parts, i, t2) > 0 ==> CompareFrom(a.parts, c.parts, i, t1 + t2) > 0
    decreases |a.parts| - i
  {
    hide Round, PlainText, StarText, Number, OrderKey;
    var more1, more2, more3 := i + 1 < |a.parts|, i + 1 < |b.parts|, i + 1 < |c.parts|;
    if i < |a.parts| && i < |b.parts| {
      RoundOrder(a.parts[i], b.parts[i], more1, more2);
    }
    if i < |b.parts| && i < |c.parts| {
      RoundOrder(b.parts[i], c.parts[i], more2, more3);
    }
    if i < |a.parts| && i < |c.parts| {
      RoundOrder(a.parts[i], c.parts[i], more1, more3);
    }
    if i < |a.parts| && i < |b.parts| && i < |c.parts| && PartOrder(a.parts[i], b.parts[i]) == 0 {
      MonotoneFrom(a, b, c, i + 1, t1, t2);
    }
  }

  /** Both revisions are in range, so their difference does not wrap. */
  lemma ExactTie(a: AtomVersion, b: AtomVersion)
    requires Pattern(a) && Pattern(b)
    ensures Compare(a, b) == CompareFrom(a.parts, b.parts, 0, a.revision - b.revision)
  {
    hide PlainText, StarText, Round;
  }

  lemma RoundNeverTies(a: Part, b: Part, moreA: bool, moreB: bool)
    requires PlainText(a.v) && PlainText(b.v)
    ensures Round(a, b, moreA, moreB) != Some(0)
  {
    hide NumberCompare;
  }

  lemma {:induction false} TieIsLast(a: AtomVersion, b: AtomVersion, i: nat, tie: int)
    requires Plain(a) && Plain(b)
    ensures CompareFrom(a.parts, b.parts, i, tie) == 0 <==> CompareFrom(a.parts, b.parts, i, 0) == 0 && tie == 0
    decreases |a.parts| - i
  {
    hide Round, PlainText;
    if i < |a.parts| && i < |b.parts| {
      RoundNeverTies(a.parts[i], b.parts[i], i + 1 < |a.parts|, i + 1 < |b.parts|);
      TieIsLast(a, b, i + 1, tie);
    }
  }

  /** Digit-only versions compare as equal only if their revisions are. */
  lemma RevisionBreaksTies(a: AtomVersion, b: AtomVersion)
    requires Plain(a) && Plain(b)
    ensures Compare(a, b) == 0 <==> Compare(a.(revision := b.revision), b) == 0 && a.revision == b.revision
  {
    hide PlainText, CompareFrom;
    ExactTie(a, b);
    ExactTie(a.(revision := b.revision), b);
    TieIsLast(a, b, 0, a.revision - b.revision);
  }

  lemma Reflexive(a: AtomVersion)
    requires Plain(a)
    ensures Compare(a, a) == 0
  {
    hide Compare, CompareFrom, Plain, Starred;
    ExactTie(a, a);
    ReflexiveFrom(a, 0);
  }

  lemma Antisymmetric(a: AtomVersion, b: AtomVersion)
    requires Plain(a) && Pattern(b)
    ensures Sign(Compare(a, b)) == -Sign(Compare(b, a))
    ensures -0x8000_0000 < Compare(a, b) < 0x8000_0000
  {
    hide PlainText, CompareFrom;
    ExactTie(a, b);
    ExactTie(b, a);
    AntisymmetricFrom(a, b, 0, a.revision - b.revision);
  }

  lemma Monotone(a: AtomVersion, b: AtomVersion, c: AtomVersion)
    requires Plain(a) && Plain(b) && Pattern(c)
    requires Compare(a, b) >= 0
    ensures Compare(b, c) >= 0 ==> Compare(a, c) >= 0
    ensures Compare(b, c) > 0 ==> Compare(a, c) > 0
  {
    hide Compare, CompareFrom, Plain, Starred;
    ExactTie(a, b);
    ExactTie(b, c);
    ExactTie(a, c);
    MonotoneFrom(a, b, c, 0, a.revision - b.revision, b.revision - c.revision);
  }

  /** On digit-only versions the comparison is a total preorder. */
  lemma TotalPreorder(a: AtomVersion, b: AtomVersion, c: AtomVersion)
    requires Plain(a) && Plain(b) && Plain(c)
    ensures Compare(a, a) == 0
    ensures Compare(a, b) <= 0 || Compare(b, a) <= 0
    ensures Compare(a, b) <= 0 && Compare(b, c) <= 0 ==> Compare(a, c) <= 0
    ensures Compare(a, b) < 0 && Compare(b, c) <= 0 ==> Compare(a, c) < 0
    ensures Compare(a, b) <= 0 && Compare(b, c) < 0 ==> Compare(a, c) < 0
    ensures Compare(a, b) == 0 && Compare(b, c) == 0 ==> Compare(a, c) == 0
  {
    hide Compare, Plain;
    Reflexive(a);
    Antisymmetric(a, b);
    Antisymmetric(b, c);
    Antisymmetric(a, c);
    if Compare(b, a) >= 0 {
      Monotone(b, a, c);
    }
    if Compare(c, b) >= 0 {
      Monotone(c, b, a);
    }
    if Compare(a, b) >= 0 {
      Monotone(a, b, c);
    }
  }

  lemma TwoDigits(c: char, d: char)
    requires IsDigit(c) && IsDigit(d)
    ensures Value([c, d]) == 10 * (c as int - '0' as int) + (d as int - '0' as int)
  {
    ValueFromLeft(c, [d]);
    assert [c, d] == [c] + [d] && [d][..0] == "";
  }

  lemma LetteredNumbers()
    ensures Strtol("12") == 12 && Strtol("13") == 13 && Strtol("13b") == 13
  {
    TwoDigits('1', '2');
    TwoDigits('1', '3');
    StrtolOfDigits("12");
    StrtolOfDigits("13");
    RunStopsAt("13", 'b');
    assert "13b" == "13" + ['b'] && "13b"[..2] == "13";
  }

  /** A letter before a further component loses at once, whatever the numbers are. */
  lemma LetterFirst(a: AtomVersion, b: AtomVersion)
    requires WellFormed(a) && WellFormed(b) && a.parts != [] && |b.parts| > 1
    requires a.parts[0].prefix == b.parts[0].prefix && Last(a.parts[0].v) > '9'
    ensures Compare(a, b) == -1
  {
    hide NumberCompare;
    assert Round(a.parts[0], b.parts[0], |a.parts| > 1, true) == Some(-1);
    hide Round;
  }

  /** Where no letter is in the way, different numbers decide. */
  lemma NumbersDecide(a: AtomVersion, b: AtomVersion)
    requires WellFormed(a) && WellFormed(b) && a.parts != [] && b.parts != []
    requires var p, q := a.parts[0], b.parts[0];
      p.prefix == q.prefix && IsDigit(Last(p.v)) && IsDigit(Last(q.v))
    ensures var p, q := a.parts[0].v, b.parts[0].v;
      NumberCompare(p, |p|, q, |q|) != 0 ==> Compare(a, b) == NumberCompare(p, |p|, q, |q|)
  {
    hide NumberCompare, ToI32;
  }

  /** Equal numbers leave it to the suffix. */
  lemma SuffixDecides(a: AtomVersion, b: AtomVersion)
    requires WellFormed(a) && WellFormed(b) && |a.parts| == 1 == |b.parts|
    requires var p, q := a.parts[0], b.parts[0];
      p.prefix == q.prefix && IsDigit(Last(p.v)) && Last(q.v) > '9' && NumberCompare(p.v, |p.v|, q.v, |q.v|) == 0
    ensures Compare(a, b) < 0
  {
    hide NumberCompare, ToI32;
  }

  /** With letters it is not: `13b < 12.5 < 13 < 13b`, and `1a_p1` is below itself. */
  lemma LettersBreakTheOrder() returns (v13b: AtomVersion, v125: AtomVersion, v13: AtomVersion, v1a: AtomVersion)
    ensures v13b == AtomVersion([Part(NoPrefix, "13b")], 0) && WellFormed(v13b)
    ensures v125 == AtomVersion([Part(NoPrefix, "12"), Part(NoPrefix, "5")], 0) && WellFormed(v125)
    ensures v13 == AtomVersion([Part(NoPrefix, "13")], 0) && WellFormed(v13)
    ensures v1a == AtomVersion([Part(NoPrefix, "1a"), Part(P, "1")], 0) && WellFormed(v1a)
    ensures Compare(v13b, v125) < 0 && Compare(v125, v13) < 0 && Compare(v13, v13b) < 0
    ensures Compare(v1a, v1a) < 0
  {
    hide Strtol, Compare;
    v13b, v125 := AtomVersion([Part(NoPrefix, "13b")], 0), AtomVersion([Part(NoPrefix, "12"), Part(NoPrefix, "5")], 0);
    v13, v1a := AtomVersion([Part(NoPrefix, "13")], 0), AtomVersion([Part(NoPrefix, "1a"), Part(P, "1")], 0);
    LetterFirst(v13b, v125);
    LetterFirst(v1a, v1a);
    LetteredNumbers();
    NumbersDecide(v125, v13);
    SuffixDecides(v13, v13b);
  }

  // ---- the wildcard ----

  /** The same prefix, and numbers the specification's component rule calls equal. */
  predicate SamePart(a: Part, b: Part)
    requires Known(a.v) && Known(b.v)
  {
    a.prefix == b.prefix && SpecifiedCompare(Number(a.v), Number(b.v)) == 0
  }

  lemma SamePartOrder(a: Part, b: Part)
    requires Known(a.v) && Known(b.v)
    ensures SamePart(a, b) <==> PartOrder(a, b) == 0
  {
    hide SpecifiedCompare, OrderKey;
    SpecifiedOrder(Number(a.v), Number(b.v));
  }

  lemma {:induction false} WildcardLeft(w: AtomVersion, v: AtomVersion, i: nat, t: int)
    requires Starred(w) && Plain(v) && i < |w.parts|
    ensures CompareFrom(w.parts, v.parts, i, t) == 0 <==>
      |w.parts| <= |v.parts| && forall j :: i <= j < |w.parts| ==> SamePart(w.parts[j], v.parts[j])
    decreases |w.parts| - i
  {
    hide Round, PlainText, Number, OrderKey, SamePart;
    if i < |v.parts| {
      SamePartOrder(w.parts[i], v.parts[i]);
      RoundOrder(w.parts[i], v.parts[i], i + 1 < |w.parts|, i + 1 < |v.parts|);
      if i + 1 < |w.parts| {
        WildcardLeft(w, v, i + 1, t);
      }
    }
  }

  lemma {:induction false} WildcardRight(v: AtomVersion, w: AtomVersion, i: nat, t: int)
    requires Starred(w) && Plain(v) && i < |w.parts|
    ensures CompareFrom(v.parts, w.parts, i, t) == 0 <==>
      |w.parts| <= |v.parts| && forall j :: i <= j < |w.parts| ==> SamePart(w.parts[j], v.parts[j])
    decreases |w.parts| - i
  {
    hide Round, PlainText, Number, OrderKey, SamePart;
    if i < |v.parts| {
      SamePartOrder(w.parts[i], v.parts[i]);
      RoundOrder(v.parts[i], w.parts[i], i + 1 < |v.parts|, i + 1 < |w.parts|);
      if i + 1 < |w.parts| {
        WildcardRight(v, w, i + 1, t);
      }
    }
  }

  /** A version ending in a star with `k` components is called equal to exactly the versions that
      have at least `k` components and agree with it on those, whichever side the star is on. */
  lemma Wildcard(w: AtomVersion, v: AtomVersion)
    requires Starred(w) && Plain(v)
    ensures Compare(w, v) == 0 <==>
      |w.parts| <= |v.parts| && forall j :: 0 <= j < |w.parts| ==> SamePart(w.parts[j], v.parts[j])
    ensures Compare(v, w) == 0 <==> Compare(w, v) == 0
  {
    hide CompareFrom, SamePart, PlainText, StarText;
    WildcardLeft(w, v, 0, w.revision - v.revision);
    WildcardRight(v, w, 0, v.revision - w.revision);
    ExactTie(w, v);
    ExactTie(v, w);
  }
}
