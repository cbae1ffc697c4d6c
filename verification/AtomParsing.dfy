/** Cutting atom strings into category, name and version, and version strings into components. */
module AtomParsing {
  import opened Wrappers
  import opened Digits
  import opened AtomVersions

  predicate IsSeparator(c: char) {
    c == '.' || c == '_' || c == '-'
  }

  /** `strpbrk(s, "._-")`: the first separator, or the end of the string. */
  function FirstSeparator(s: string): (e: nat)
    ensures e <= |s| && (e < |s| ==> IsSeparator(s[e]))
    ensures forall i :: 0 <= i < e ==> !IsSeparator(s[i])
  {
    if s == "" || IsSeparator(s[0]) then 0 else 1 + FirstSeparator(s[1..])
  }

  /** `strpbrk(s, "0123456789")`: the first digit, or the end of the string. */
  function FirstDigit(s: string): (d: nat)
    ensures d <= |s| && (d < |s| ==> IsDigit(s[d]))
    ensures forall i :: 0 <= i < d ==> !IsDigit(s[i])
  {
    if s == "" || IsDigit(s[0]) then 0 else 1 + FirstDigit(s[1..])
  }

  /** `strrchr(s, c)` as an index, or -1. */
  function LastIndexOf(s: string, c: char): (i: int)
    ensures -1 <= i < |s|
    ensures i >= 0 ==> s[i] == c
    ensures forall j :: i < j < |s| ==> s[j] != c
  {
    if s == "" then -1 else if Last(s) == c then |s| - 1 else LastIndexOf(s[..|s| - 1], c)
  }

  /** A prefix is recognised by its length alone. */
  function PrefixOfLength(n: nat): Option<Prefix> {
    match n
    case 5 => Some(Alpha)
    case 4 => Some(Beta)
    case 3 => Some(Pre)
    case 2 => Some(Rc)
    case 0 => Some(NoPrefix)
    case 1 => Some(P)
    case _ => None
  }

  function PartOf(token: string): Option<Part> {
    var d := FirstDigit(token);
    var prefixLength := if d == |token| then 0 else d;
    match PrefixOfLength(prefixLength)
    case None => None
    case Some(p) => Some(Part(p, token[prefixLength..]))
  }

  /** What has been read, and whether that is all: an unknown prefix ends the reading. */
  datatype Parsed = Parsed(parts: seq<Part>, complete: bool)

  function ParseParts(s: string): Parsed {
    var e := FirstSeparator(s);
    match PartOf(s[..e])
    case None => Parsed([], false)
    case Some(p) => Prepend([p], if e == |s| then Parsed([], true) else ParseParts(s[e + 1..]))
  }

  /** The revision after a last dash followed by `r`, and the text before it. */
  function CutRevision(s: string): (string, int) {
    var dash := LastIndexOf(s, '-');
    if 0 <= dash < |s| - 1 && s[dash + 1] == 'r'
    then (s[..dash], ToI32(Strtol(s[dash + 2..])))
    else (s, 0)
  }

  /** The version as it is left, and whether it was read to its end. */
  datatype Reading = Reading(version: AtomVersion, complete: bool)

  function ParseVersion(s: string): Reading {
    var (text, revision) := CutRevision(s);
    var parsed := ParseParts(text);
    Reading(AtomVersion(parsed.parts, revision), parsed.complete)
  }

  function Prepend(parts: seq<Part>, rest: Parsed): Parsed {
    Parsed(parts + rest.parts, rest.complete)
  }

  lemma PrependNothing(rest: Parsed)
    ensures Prepend([], rest) == rest
  {
    assert [] + rest.parts == rest.parts;
  }

  lemma PrependToNothing(p: seq<Part>, complete: bool)
    ensures Prepend(p, Parsed([], complete)) == Parsed(p, complete)
  {
    assert p + [] == p;
  }

  lemma PrependTwice(p: seq<Part>, q: seq<Part>, rest: Parsed)
    ensures Prepend(p, Prepend(q, rest)) == Prepend(p + q, rest)
  {
    assert p + (q + rest.parts) == p + q + rest.parts;
  }

  method AtomVersionInit(input: string) returns (r: Reading)
    ensures r == ParseVersion(input)
  {
    hide LastIndexOf, Strtol, FirstSeparator, FirstDigit, PrefixOfLength, ToI32;
    var text, revision := input, 0;
    var lastDash := LastIndexOf(text, '-');
    if 0 <= lastDash < |text| - 1 && text[lastDash + 1] == 'r' {
      revision := ToI32(Strtol(text[lastDash + 2..]));
      text := text[..lastDash];
    }
    var parts: seq<Part> := [];
    var buf := text;
    PrependNothing(ParseParts(text));
    while true
      invariant ParseParts(text) == Prepend(parts, ParseParts(buf))
      decreases |buf|
    {
      var split := FirstSeparator(buf);
      var token := buf[..split];
      var prefixSplit := FirstDigit(token);
      var prefixLength := if prefixSplit == |token| then 0 else prefixSplit;
      var prefix := PrefixOfLength(prefixLength);
      if prefix.None? {
        PrependToNothing(parts, false);
        return Reading(AtomVersion(parts, revision), false);
      }
      var part := Part(prefix.value, token[prefixLength..]);
      PrependTwice(parts, [part], if split == |buf| then Parsed([], true) else ParseParts(buf[split + 1..]));
      parts := parts + [part];
      if split == |buf| {
        PrependToNothing(parts, true);
        break;
      }
      buf := buf[split + 1..];
    }
    return Reading(AtomVersion(parts, revision), true);
  }

  // ---- writing a version and reading it back ----

  function PrefixText(p: Prefix): string {
    match p
    case Alpha => "alpha" case Beta => "beta" case Pre => "pre" case Rc => "rc" case NoPrefix => "" case P => "p"
  }

  function PartText(p: Part): string {
    PrefixText(p.prefix) + p.v
  }

  /** A component whose text starts with a digit and holds no separator. */
  predicate Writable(p: Part) {
    p.v != "" && IsDigit(p.v[0]) && forall i :: 0 <= i < |p.v| ==> !IsSeparator(p.v[i])
  }

  /** Components joined by dots and underscores, one from `separators` before each but the first. */
  function PartsText(parts: seq<Part>, separators: seq<char>): string
    requires parts != [] && |separators| == |parts| - 1
  {
    if |parts| == 1 then PartText(parts[0])
    else PartText(parts[0]) + [separators[0]] + PartsText(parts[1..], separators[1..])
  }

  predicate DotsAndUnderscores(s: seq<char>) {
    forall i :: 0 <= i < |s| ==> s[i] == '.' || s[i] == '_'
  }

  predicate AllSeparators(s: seq<char>) {
    forall i :: 0 <= i < |s| ==> IsSeparator(s[i])
  }

  predicate NoDash(s: string) {
    forall i :: 0 <= i < |s| ==> s[i] != '-'
  }

  lemma PartOfText(p: Part)
    requires Writable(p)
    ensures PartOf(PartText(p)) == Some(p)
    ensures forall i :: 0 <= i < |PartText(p)| ==> !IsSeparator(PartText(p)[i])
  {
    hide FirstDigit;
    var t, n := PartText(p), |PrefixText(p.prefix)|;
    assert t[n] == p.v[0] && t[n..] == p.v;
    assert FirstDigit(t) == n;
  }

  /** A component is read with a prefix exactly if its letters are as many as those of the prefix, and
      not at all exactly if they are more than those of any. */
  lemma PrefixExactly(letters: string, v: string, p: Prefix)
    requires (forall i :: 0 <= i < |letters| ==> !IsDigit(letters[i])) && v != "" && IsDigit(v[0])
    ensures PartOf(letters + v) == Some(Part(p, v)) <==> |letters| == |PrefixText(p)|
    ensures PartOf(letters + v) == None <==> |letters| > 5
  {
    hide FirstDigit;
    var t := letters + v;
    assert t[|letters|] == v[0] && t[|letters|..] == v && forall i :: 0 <= i < |letters| ==> t[i] == letters[i];
    assert FirstDigit(t) == |letters|;
  }

  /** So the name of a prefix decides exactly if the letters are that name or of another length. */
  lemma NameDecidesExactly(letters: string, v: string, p: Prefix)
    requires (forall i :: 0 <= i < |letters| ==> !IsDigit(letters[i])) && v != "" && IsDigit(v[0])
    ensures (PartOf(letters + v) == Some(Part(p, v)) <==> letters == PrefixText(p))
      <==> letters == PrefixText(p) || |letters| != |PrefixText(p)|
  {
    hide PartOf;
    PrefixExactly(letters, v, p);
  }

  /** `foo1` is read as `pre1`. */
  lemma WrongNameIsRead()
    ensures PartOf("foo1") == Some(Part(Pre, "1")) == PartOf("pre1")
  {
    hide PartOf;
    assert "foo" + "1" == "foo1" && "pre" + "1" == "pre1";
    PrefixExactly("foo", "1", Pre);
    PrefixExactly("pre", "1", Pre);
  }

  lemma FirstSeparatorAt(token: string, rest: string)
    requires forall i :: 0 <= i < |token| ==> !IsSeparator(token[i])
    requires rest == "" || IsSeparator(rest[0])
    ensures FirstSeparator(token + rest) == |token|
  {
    hide FirstSeparator;
    var s := token + rest;
    assert forall i :: 0 <= i < |token| ==> s[i] == token[i];
    assert rest != "" ==> s[|token|] == rest[0];
  }

  /** Whatever stands behind written components and a separator is read after them. */
  lemma {:induction false} PartsThen(parts: seq<Part>, separators: seq<char>, separator: char, rest: string)
    requires parts != [] && |separators| == |parts| - 1
    requires (forall p <- parts :: Writable(p)) && AllSeparators(separators) && IsSeparator(separator)
    ensures ParseParts(PartsText(parts, separators) + ([separator] + rest)) == Prepend(parts, ParseParts(rest))
  {
    hide ParseParts, PartText, Writable, IsSeparator, Prepend;
    if |parts| == 1 {
      PartThen(parts[0], separator, rest);
      assert parts == [parts[0]];
    } else {
      var text := PartsText(parts[1..], separators[1..]);
      PartsThen(parts[1..], separators[1..], separator, rest);
      PartThen(parts[0], separators[0], text + ([separator] + rest));
      PrependTwice([parts[0]], parts[1..], ParseParts(rest));
      assert [parts[0]] + parts[1..] == parts;
      assert PartText(parts[0]) + ([separators[0]] + (text + ([separator] + rest)))
        == PartText(parts[0]) + [separators[0]] + text + ([separator] + rest);
    }
  }

  lemma PartThen(p: Part, separator: char, rest: string)
    requires Writable(p) && IsSeparator(separator)
    ensures ParseParts(PartText(p) + ([separator] + rest)) == Prepend([p], ParseParts(rest))
  {
    hide PartOf, PartText, Writable, FirstSeparator, IsSeparator, Prepend;
    var t := PartText(p);
    PartOfText(p);
    FirstSeparatorAt(t, [separator] + rest);
    var s := t + ([separator] + rest);
    assert s[..|t|] == t && s[|t| + 1..] == rest;
  }

  /** A component that has no digit is kept as it is, without a prefix. */
  lemma WordIsKept(word: string)
    requires forall i :: 0 <= i < |word| ==> !IsDigit(word[i])
    ensures PartOf(word) == Some(Part(NoPrefix, word))
  {
    assert FirstDigit(word) == |word|;
    assert word[0..] == word;
  }

  lemma {:induction false} PartsRoundTrip(parts: seq<Part>, separators: seq<char>)
    requires parts != [] && |separators| == |parts| - 1
    requires (forall p <- parts :: Writable(p)) && AllSeparators(separators)
    ensures ParseParts(PartsText(parts, separators)) == Parsed(parts, true)
  {
    hide PartOf, PartText, Writable, FirstSeparator, IsSeparator;
    var t := PartText(parts[|parts| - 1]);
    PartOfText(parts[|parts| - 1]);
    FirstSeparatorAt(t, "");
    assert t + "" == t && t[..|t|] == t;
    assert [parts[|parts| - 1]] + [] == [parts[|parts| - 1]];
    if |parts| == 1 {
      assert parts == [parts[0]];
    } else {
      var n := |parts| - 1;
      assert separators[..n - 1] + [separators[n - 1]] == separators;
      PartsThen(parts[..n], separators[..n - 1], separators[n - 1], t);
      PartsTextSnoc(parts, separators);
      assert parts[..n] + [parts[n]] == parts;
    }
  }

  lemma {:induction false} PartsTextSnoc(parts: seq<Part>, separators: seq<char>)
    requires |parts| > 1 && |separators| == |parts| - 1
    ensures var n := |parts| - 1;
      PartsText(parts, separators)
      == PartsText(parts[..n], separators[..n - 1]) + ([separators[n - 1]] + PartText(parts[n]))
  {
    hide PartText;
    var n := |parts| - 1;
    if n > 1 {
      PartsTextSnoc(parts[1..], separators[1..]);
      assert parts[1..][..n - 1] == parts[..n][1..] && separators[1..][..n - 2] == separators[..n - 1][1..];
      assert parts[1..][n - 1] == parts[n] && separators[1..][n - 2] == separators[n - 1];
      TextAssoc(PartText(parts[0]) + [separators[0]], PartsText(parts[..n][1..], separators[..n - 1][1..]),
        [separators[n - 1]] + PartText(parts[n]));
    }
  }

  lemma TextAssoc(a: string, b: string, c: string)
    ensures a + (b + c) == a + b + c
  {
  }

  lemma {:induction false} NoDashWritten(parts: seq<Part>, separators: seq<char>)
    requires parts != [] && |separators| == |parts| - 1
    requires (forall p <- parts :: Writable(p)) && DotsAndUnderscores(separators)
    ensures NoDash(PartsText(parts, separators))
  {
    hide PartText, Writable;
    PartOfText(parts[0]);
    if |parts| > 1 {
      NoDashWritten(parts[1..], separators[1..]);
    }
  }

  /** A component with too many letters ends the reading, and what stands before it is kept. */
  lemma UnknownPrefixStops(parts: seq<Part>, separators: seq<char>, separator: char, token: string, rest: string)
    requires parts != [] && |separators| == |parts| - 1
    requires (forall p <- parts :: Writable(p)) && AllSeparators(separators) && IsSeparator(separator)
    requires PartOf(token) == None && (forall i :: 0 <= i < |token| ==> !IsSeparator(token[i]))
    requires rest == "" || IsSeparator(rest[0])
    ensures ParseParts(PartsText(parts, separators) + ([separator] + (token + rest))) == Parsed(parts, false)
  {
    hide PartOf, PartText, Writable, FirstSeparator;
    PartsThen(parts, separators, separator, token + rest);
    FirstSeparatorAt(token, rest);
    assert (token + rest)[..|token|] == token;
    PrependToNothing(parts, false);
  }

  /** The version text, with a revision when `revision` is not empty. */
  function VersionText(parts: seq<Part>, separators: seq<char>, revision: string): string
    requires parts != [] && |separators| == |parts| - 1
  {
    PartsText(parts, separators) + (if revision == "" then "" else "-r" + revision)
  }

  lemma {:induction false} LastDashAt(before: string, after: string)
    requires NoDash(after)
    ensures LastIndexOf(before + "-" + after, '-') == |before|
  {
    var s := before + "-" + after;
    if after == "" {
      assert s == before + "-";
    } else {
      var front := after[..|after| - 1];
      assert s[..|s| - 1] == before + "-" + front && Last(s) == after[|after| - 1];
      LastDashAt(before, front);
    }
  }

  /** The last dash cuts exactly if an `r` is behind it, and what is behind that is read as a number. */
  lemma CutAtLastDash(text: string, rest: string)
    requires NoDash(rest)
    ensures CutRevision(text + "-" + rest) ==
      if rest != "" && rest[0] == 'r' then (text, ToI32(Strtol(rest[1..]))) else (text + "-" + rest, 0)
  {
    hide LastIndexOf, Strtol, ToI32;
    var s := text + "-" + rest;
    LastDashAt(text, rest);
    assert s[..|text|] == text && s[|text| + 1..] == rest;
    if rest != "" {
      assert s[|text| + 2..] == rest[1..];
    }
  }

  lemma NoRevision(text: string)
    requires NoDash(text)
    ensures CutRevision(text) == (text, 0)
  {
    hide LastIndexOf, Strtol;
  }

  lemma RevisionAfter(text: string, revision: string)
    requires NoDash(text) && AllDigits(revision) && 0 < |revision| <= 9
    ensures CutRevision(text + "-r" + revision) == (text, Value(revision))
  {
    hide Strtol, Value, AllDigits, CutRevision;
    NoDashInDigits(revision);
    assert text + "-r" + revision == text + "-" + ("r" + revision);
    CutAtLastDash(text, "r" + revision);
    assert ("r" + revision)[1..] == revision;
    StrtolOfDigits(revision);
  }

  lemma NoDashInDigits(s: string)
    requires AllDigits(s)
    ensures NoDash(s)
  {
  }

  lemma EmptyValue()
    ensures Value("") == 0
  {
  }

  /** Reading a written version gives back its components and its revision. */
  lemma VersionRoundTrip(parts: seq<Part>, separators: seq<char>, revision: string)
    requires parts != [] && |separators| == |parts| - 1
    requires (forall p <- parts :: Writable(p)) && DotsAndUnderscores(separators)
    requires AllDigits(revision) && |revision| <= 9
    ensures ParseVersion(VersionText(parts, separators, revision))
      == Reading(AtomVersion(parts, Value(revision)), true)
  {
    hide ParseParts, PartsText, Writable, CutRevision, Value;
    PartsRoundTrip(parts, separators);
    NoDashWritten(parts, separators);
    var text := PartsText(parts, separators);
    if revision == "" {
      NoRevision(text);
      EmptyValue();
      assert text + "" == text;
    } else {
      RevisionAfter(text, revision);
      assert text + ("-r" + revision) == text + "-r" + revision;
    }
  }

  // ---- atoms ----

  datatype AtomParts = AtomParts(category: string, name: string, version: Option<string>)

  function FirstSlash(s: string): (i: int)
    ensures -1 <= i < |s|
    ensures i >= 0 ==> s[i] == '/' && forall j :: 0 <= j < i ==> s[j] != '/'
    ensures i < 0 ==> '/' !in s
  {
    if s == "" then -1
    else if s[0] == '/' then 0
    else
      var rest := FirstSlash(s[1..]);
      if rest < 0 then -1 else rest + 1
  }

  predicate DigitAt(s: string, i: int) {
    0 <= i < |s| && IsDigit(s[i])
  }

  /** Where the dash before the version is, or -1. */
  function VersionDash(name: string): (i: int)
    ensures -1 <= i < |name|
  {
    var last := LastIndexOf(name, '-');
    if last < 0 then -1
    else if DigitAt(name, last + 1) then last
    else if last + 1 < |name| && name[last + 1] == 'r' && DigitAt(name, last + 2) then
      var second := LastIndexOf(name[..last], '-');
      if second >= 0 && DigitAt(name[..last], second + 1) then second else -1
    else -1
  }

  /** `None` without a slash. */
  function SplitAtom(input: string): Option<AtomParts> {
    var slash := FirstSlash(input);
    if slash < 0 then None
    else
      var ident := input[slash + 1..];
      var dash := VersionDash(ident);
      if dash < 0 then Some(AtomParts(input[..slash], ident, None))
      else Some(AtomParts(input[..slash], ident[..dash], Some(ident[dash + 1..])))
  }

  /** A version starts with a digit, and has no dash but one before its revision. */
  ghost predicate VersionWritten(v: string) {
    VersionLike(v) || exists k :: 0 < k < |v| && v[k] == '-' && VersionLike(v[..k]) && RevisionLike(v[k + 1..])
  }

  predicate VersionLike(version: string) {
    DigitAt(version, 0) && NoDash(version)
  }

  predicate RevisionLike(revision: string) {
    revision != "" && revision[0] == 'r' && DigitAt(revision, 1) && NoDash(revision)
  }

  /** The version starts behind the dash at `i`. */
  ghost predicate VersionBehind(ident: string, i: int) {
    0 <= i < |ident| && ident[i] == '-' && VersionWritten(ident[i + 1..])
  }

  lemma {:induction false} LastIndexIs(s: string, c: char, i: int)
    requires 0 <= i < |s| && s[i] == c && forall j :: i < j < |s| ==> s[j] != c
    ensures LastIndexOf(s, c) == i
  {
  }

  /** The search from the end finds the dash that a version stands behind, and there is only one such. */
  lemma VersionDashExactly(ident: string, i: int)
    ensures i >= 0 ==> (VersionDash(ident) == i <==> VersionBehind(ident, i))
  {
    hide VersionWritten, IsDigit;
    if i >= 0 && VersionDash(ident) == i {
      DashIsBefore(ident);
    }
    if VersionBehind(ident, i) {
      BehindIsDash(ident, i);
    }
  }

  lemma DashIsBefore(ident: string)
    requires VersionDash(ident) >= 0
    ensures VersionBehind(ident, VersionDash(ident))
  {
    hide LastIndexOf, IsDigit, NoDash, VersionLike, RevisionLike;
    var last, i := LastIndexOf(ident, '-'), VersionDash(ident);
    if DigitAt(ident, last + 1) {
      BehindLast(ident);
    } else {
      var v, k := ident[i + 1..], last - i - 1;
      BehindLast(ident[..last]);
      RevisionBehindLast(ident);
      assert v[..k] == ident[..last][i + 1..] && v[k + 1..] == ident[last + 1..] && v[k] == '-';
    }
  }

  lemma BehindLast(s: string)
    requires LastIndexOf(s, '-') >= 0 && DigitAt(s, LastIndexOf(s, '-') + 1)
    ensures VersionLike(s[LastIndexOf(s, '-') + 1..])
  {
    hide LastIndexOf, IsDigit;
  }

  lemma RevisionBehindLast(s: string)
    requires var last := LastIndexOf(s, '-');
      last >= 0 && last + 1 < |s| && s[last + 1] == 'r' && DigitAt(s, last + 2)
    ensures RevisionLike(s[LastIndexOf(s, '-') + 1..])
  {
    hide LastIndexOf, IsDigit;
  }

  lemma BehindIsDash(ident: string, i: int)
    requires VersionBehind(ident, i)
    ensures VersionDash(ident) == i
  {
    hide LastIndexOf, IsDigit;
    var v := ident[i + 1..];
    RNoDigit('r');
    if VersionLike(v) {
      LastDashIs(ident, i);
      assert ident[i + 1] == v[0];
    } else {
      var k :| 0 < k < |v| && v[k] == '-' && VersionLike(v[..k]) && RevisionLike(v[k + 1..]);
      var last := i + 1 + k;
      assert ident[last] == '-' && ident[last + 1..] == v[k + 1..];
      LastDashIs(ident, last);
      var front := ident[..last];
      assert front[i] == '-' && front[i + 1..] == v[..k];
      LastDashIs(front, i);
      assert ident[last + 1] == v[k + 1..][0] && ident[last + 2] == v[k + 1..][1];
      assert front[i + 1] == v[..k][0] && ident[last + 1] == 'r';
    }
  }

  lemma LastDashIs(s: string, i: int)
    requires 0 <= i < |s| && s[i] == '-' && NoDash(s[i + 1..])
    ensures LastIndexOf(s, '-') == i
  {
    hide LastIndexOf;
    forall j | i < j < |s|
      ensures s[j] != '-'
    {
      assert s[j] == s[i + 1..][j - i - 1];
    }
    LastIndexIs(s, '-', i);
  }

  /** How an atom is written: the category up to the first slash, the name, and the version if there is one.
      Without one the name does not end in a dash and a version. */
  ghost predicate Written(parts: AtomParts, input: string) {
    && '/' !in parts.category
    && match parts.version
       case None =>
         && input == parts.category + "/" + parts.name
         && forall i :: !VersionBehind(parts.name, i)
       case Some(version) =>
         && input == parts.category + "/" + (parts.name + "-" + version)
         && VersionWritten(version)
  }

  /** An atom is cut into parts exactly if they are what is written, so there is no other way to read it. */
  lemma SplitExactly(input: string, parts: AtomParts)
    ensures SplitAtom(input) == Some(parts) <==> Written(parts, input)
  {
    hide VersionBehind, VersionWritten, FirstSlash;
    if Written(parts, input) {
      WrittenSplits(input, parts);
    }
    if SplitAtom(input) == Some(parts) {
      SplitIsWritten(input, parts);
    }
  }

  /** There is no atom exactly if there is no slash. */
  lemma SplitFailsExactly(input: string)
    ensures SplitAtom(input) == None <==> '/' !in input
  {
    hide VersionDash;
  }

  lemma WrittenSplits(input: string, parts: AtomParts)
    requires Written(parts, input)
    ensures SplitAtom(input) == Some(parts)
  {
    hide VersionBehind, VersionWritten, FirstSlash, VersionDash;
    var ident := if parts.version.None? then parts.name else parts.name + "-" + parts.version.value;
    SplitAtSlash(parts.category, ident);
    assert input[..|parts.category|] == parts.category && input[|parts.category| + 1..] == ident;
    if parts.version.None? {
      VersionDashExactly(ident, VersionDash(ident));
    } else {
      var i := |parts.name|;
      assert ident[..i] == parts.name && ident[i + 1..] == parts.version.value;
      BehindIs(ident, i);
      VersionDashExactly(ident, i);
    }
  }

  lemma BehindIs(ident: string, i: nat)
    requires i < |ident| && ident[i] == '-' && VersionWritten(ident[i + 1..])
    ensures VersionBehind(ident, i)
  {
  }

  lemma SplitIsWritten(input: string, parts: AtomParts)
    requires SplitAtom(input) == Some(parts)
    ensures Written(parts, input)
  {
    hide VersionWritten, FirstSlash, VersionDash;
    var slash := FirstSlash(input);
    var ident := input[slash + 1..];
    assert input == input[..slash] + "/" + ident;
    var dash := VersionDash(ident);
    if dash < 0 {
      forall i
        ensures !VersionBehind(ident, i)
      {
        VersionDashExactly(ident, i);
      }
    } else {
      VersionDashExactly(ident, dash);
      assert ident == ident[..dash] + "-" + ident[dash + 1..];
    }
  }

  lemma SplitAtSlash(category: string, ident: string)
    requires '/' !in category
    ensures FirstSlash(category + "/" + ident) == |category|
  {
    hide FirstSlash;
    var s := category + "/" + ident;
    assert s[|category|] == '/';
    assert forall j :: 0 <= j < |category| ==> s[j] == category[j];
  }

  /** Whatever the name, a version that starts with a digit and has no dash but that of its
      revision is found again. */
  lemma AtomRoundTrip(category: string, name: string, version: string, revision: string)
    requires '/' !in category && VersionLike(version) && AllDigits(revision)
    ensures SplitAtom(category + "/" + (name + "-" + version)) == Some(AtomParts(category, name, Some(version)))
    ensures revision != "" ==>
      SplitAtom(category + "/" + (name + "-" + (version + "-r" + revision)))
      == Some(AtomParts(category, name, Some(version + "-r" + revision)))
  {
    hide SplitAtom, AllDigits;
    WrittenSplits(category + "/" + (name + "-" + version), AtomParts(category, name, Some(version)));
    if revision != "" {
      RevisionIsWritten(version, revision);
      WrittenSplits(category + "/" + (name + "-" + (version + "-r" + revision)),
        AtomParts(category, name, Some(version + "-r" + revision)));
    }
  }

  lemma RevisionIsWritten(version: string, revision: string)
    requires VersionLike(version) && AllDigits(revision) && revision != ""
    ensures VersionWritten(version + "-r" + revision)
  {
    var v, k := version + "-r" + revision, |version|;
    NoDashInDigits(revision);
    assert v[..k] == version && v[k + 1..] == "r" + revision && v[k] == '-';
    assert IsDigit(revision[0]);
  }

  /** A name without a dash, or whose text behind its last dash starts neither with a digit nor with `r` and a
      digit, or with `r` and a digit and no version before, is a name without a version. */
  lemma NameRoundTrip(category: string, name: string)
    requires '/' !in category
    requires NameOnly(name) || exists front, revision ::
      name == front + "-" + revision && RevisionLike(revision) && !BehindLastDash(front, 0)
    ensures SplitAtom(category + "/" + name) == Some(AtomParts(category, name, None))
  {
    hide SplitAtom, VersionDash, VersionBehind, RevisionLike, NameOnly, BehindLastDash;
    assert VersionDash(name) < 0 by {
      if NameOnly(name) {
        NoVersionInName(name);
      } else {
        var front, revision :| name == front + "-" + revision && RevisionLike(revision) && !BehindLastDash(front, 0);
        NoVersionBeforeRevision(front, revision);
      }
    }
    forall i
      ensures !VersionBehind(name, i)
    {
      VersionDashExactly(name, i);
      if i < 0 {
        BehindIsInside(name, i);
      }
    }
    WrittenSplits(category + "/" + name, AtomParts(category, name, None));
  }

  lemma BehindIsInside(ident: string, i: int)
    requires i < 0
    ensures !VersionBehind(ident, i)
  {
    hide VersionWritten;
  }

  lemma NoVersionInName(name: string)
    requires NameOnly(name)
    ensures VersionDash(name) < 0
  {
    hide LastIndexOf, IsDigit;
  }

  lemma NoVersionBeforeRevision(front: string, revision: string)
    requires RevisionLike(revision) && !BehindLastDash(front, 0)
    ensures VersionDash(front + "-" + revision) < 0
  {
    hide LastIndexOf;
    var name := front + "-" + revision;
    assert name[|front| + 1..] == revision && name[..|front|] == front;
    LastDashIs(name, |front|);
    assert name[|front| + 1] == 'r';
  }

  /** A digit stands `k` places behind the last dash. */
  predicate BehindLastDash(name: string, k: nat) {
    var last := LastIndexOf(name, '-');
    last >= 0 && DigitAt(name, last + 1 + k)
  }

  predicate NameOnly(name: string) {
    var last := LastIndexOf(name, '-');
    && !BehindLastDash(name, 0)
    && !(0 <= last < |name| - 1 && name[last + 1] == 'r' && BehindLastDash(name, 1))
  }

  // ---- whole atoms ----

  /** What is kept of an atom: the parts, the key, and the version as it was read. */
  datatype ReadAtom = ReadAtom(category: string, name: string, key: string, version: Option<Reading>)

  /** An atom read as it is written. */
  ghost predicate Reads(atom: ReadAtom, input: string) {
    && atom.key == atom.category + "/" + atom.name
    && match atom.version
       case None => Written(AtomParts(atom.category, atom.name, None), input)
       case Some(reading) => exists text ::
         Written(AtomParts(atom.category, atom.name, Some(text)), input) && reading == ParseVersion(text)
  }

  method AtomInit(input: string) returns (r: Option<ReadAtom>)
    ensures r.None? <==> '/' !in input
    ensures r.Some? ==> Reads(r.value, input)
  {
    hide LastIndexOf, FirstSlash, DigitAt, Reads, Written, ParseVersion, NoDash, SplitAtom;
    var slash := FirstSlash(input);
    if slash < 0 {
      return None;
    }
    var ident := input[slash + 1..];
    var versionSplit := -1;
    var lastDash := LastIndexOf(ident, '-');
    DigitIsNoR(ident, lastDash + 1);
    var checkSecond := false;
    if lastDash >= 0 {
      if DigitAt(ident, lastDash + 1) {
        versionSplit := lastDash;
      }
      if lastDash + 1 < |ident| && ident[lastDash + 1] == 'r' && DigitAt(ident, lastDash + 2) {
        checkSecond := true;
      }
    }
    if checkSecond {
      var front := ident[..lastDash];
      var secondDash := LastIndexOf(front, '-');
      if secondDash >= 0 && DigitAt(front, secondDash + 1) {
        versionSplit := secondDash;
      }
    }
    assert versionSplit == VersionDash(ident);
    hide VersionDash;
    var version: Option<Reading> := None;
    var name := ident;
    if versionSplit >= 0 {
      var reading := AtomVersionInit(ident[versionSplit + 1..]);
      version := Some(reading);
      name := ident[..versionSplit];
    }
    CutIsRead(input);
    return Some(ReadAtom(input[..slash], name, input[..slash] + "/" + name, version));
  }

  lemma DigitIsNoR(s: string, i: int)
    ensures DigitAt(s, i) ==> 0 <= i < |s| && s[i] != 'r'
  {
  }

  lemma CutIsRead(input: string)
    requires FirstSlash(input) >= 0
    ensures var slash := FirstSlash(input);
      var ident := input[slash + 1..];
      var dash := VersionDash(ident);
      var name := if dash < 0 then ident else ident[..dash];
      Reads(ReadAtom(input[..slash], name, input[..slash] + "/" + name,
        if dash < 0 then None else Some(ParseVersion(ident[dash + 1..]))), input)
  {
    hide FirstSlash, VersionDash, Written, ParseVersion;
    SplitIsWritten(input, SplitAtom(input).value);
  }

  lemma RNoDigit(c: char)
    ensures c == 'r' ==> !IsDigit(c)
  {
  }

  /** An atom whose version is written from components is read back whole. */
  lemma WholeRoundTrip(category: string, name: string, parts: seq<Part>, separators: seq<char>, revision: string)
    requires '/' !in category
    requires parts != [] && parts[0].prefix == NoPrefix && |separators| == |parts| - 1
    requires (forall p <- parts :: Writable(p)) && DotsAndUnderscores(separators)
    requires AllDigits(revision) && |revision| <= 9
    ensures Reads(
      ReadAtom(category, name, category + "/" + name, Some(Reading(AtomVersion(parts, Value(revision)), true))),
      category + "/" + (name + "-" + VersionText(parts, separators, revision)))
  {
    hide ParseVersion, Value, VersionWritten, AllDigits, DotsAndUnderscores, Writable, PartsText;
    var text, front := VersionText(parts, separators, revision), PartsText(parts, separators);
    VersionRoundTrip(parts, separators, revision);
    VersionTextLike(parts, separators);
    assert VersionWritten(text) by {
      if revision == "" {
        assert front + "" == front;
        LikeIsWritten(front);
      } else {
        RevisionIsWritten(front, revision);
        assert front + ("-r" + revision) == front + "-r" + revision;
      }
    }
    assert Written(AtomParts(category, name, Some(text)), category + "/" + (name + "-" + text));
  }

  lemma LikeIsWritten(version: string)
    requires VersionLike(version)
    ensures VersionWritten(version)
  {
  }

  lemma VersionTextLike(parts: seq<Part>, separators: seq<char>)
    requires parts != [] && parts[0].prefix == NoPrefix && |separators| == |parts| - 1
    requires (forall p <- parts :: Writable(p)) && DotsAndUnderscores(separators)
    ensures VersionLike(PartsText(parts, separators))
  {
    NoDashWritten(parts, separators);
    assert PartText(parts[0]) == parts[0].v;
    assert Writable(parts[0]);
    assert PartsText(parts, separators)[0] == parts[0].v[0];
  }
}
