/** Use-flag lists of atoms, `[a,-b,!c?]`: cutting the text into tokens and classifying them. */
module AtomFlags {
  import opened Wrappers

  datatype UseOption = Disable | Enable | EnableIfOn | DisableIfOff | Equal | Opposite

  datatype UseDefault = NoDefault | On | Off

  datatype AtomFlag = AtomFlag(name: string, option: UseOption, default: UseDefault)

  // ---- tokens ----

  predicate IsDelimiter(c: char) {
    c == ' ' || c == ',' || c == ']'
  }

  predicate Undelimited(s: string) {
    forall i :: 0 <= i < |s| ==> !IsDelimiter(s[i])
  }

  predicate AllDelimiters(s: string) {
    forall i :: 0 <= i < |s| ==> IsDelimiter(s[i])
  }

  /** The first delimiter, or the end of the string. */
  function RunEnd(s: string): (e: nat)
    ensures e <= |s| && Undelimited(s[..e])
    ensures e < |s| ==> IsDelimiter(s[e])
  {
    if s == "" || IsDelimiter(s[0]) then 0
    else
      var e := 1 + RunEnd(s[1..]);
      assert s[..e] == [s[0]] + s[1..][..e - 1];
      e
  }

  /** The maximal runs of characters that are not delimiters. */
  function Tokens(s: string): seq<string> {
    if s == "" then []
    else if IsDelimiter(s[0]) then Tokens(s[1..])
    else [s[..RunEnd(s)]] + Tokens(s[RunEnd(s)..])
  }

  lemma TokensAfterDelimiter(s: string, i: nat)
    requires i < |s| && IsDelimiter(s[i])
    ensures Tokens(s[i..]) == Tokens(s[i + 1..])
  {
    assert s[i..][0] == s[i] && s[i..][1..] == s[i + 1..];
  }

  lemma RunEndAfter(s: string, i: nat)
    requires i < |s| && !IsDelimiter(s[i])
    ensures RunEnd(s[i..]) == 1 + RunEnd(s[i + 1..])
  {
    assert s[i..][0] == s[i] && s[i..][1..] == s[i + 1..];
  }

  lemma TokensAtRun(s: string, i: nat, j: nat)
    requires i < j <= |s| && !IsDelimiter(s[i]) && RunEnd(s[i..]) == j - i
    ensures Tokens(s[i..]) == [s[i..j]] + Tokens(s[j..])
  {
    assert s[i..][0] == s[i] && s[i..][..j - i] == s[i..j] && s[i..][j - i..] == s[j..];
  }

  lemma NoRunAt(s: string, i: nat)
    requires i <= |s| && (i < |s| ==> IsDelimiter(s[i]))
    ensures RunEnd(s[i..]) == 0
  {
  }

  lemma NoTokensAtEnd(s: string)
    ensures Tokens(s[|s|..]) == []
  {
  }

  /** `strtok` at position `start`: the bounds of the next token, or an empty range at the end. */
  method NextToken(s: string, start: nat) returns (from: nat, to: nat)
    requires start <= |s|
    ensures start <= from <= to <= |s| && Undelimited(s[from..to])
    ensures from == to ==> from == |s| && Tokens(s[start..]) == []
    ensures from < to ==> Tokens(s[start..]) == [s[from..to]] + Tokens(s[to..])
  {
    hide Tokens, RunEnd;
    from := start;
    while from < |s| && IsDelimiter(s[from])
      invariant start <= from <= |s|
      invariant Tokens(s[start..]) == Tokens(s[from..])
    {
      TokensAfterDelimiter(s, from);
      from := from + 1;
    }
    to := from;
    while to < |s| && !IsDelimiter(s[to])
      invariant from <= to <= |s|
      invariant Undelimited(s[from..to])
      invariant RunEnd(s[from..]) == to - from + RunEnd(s[to..])
    {
      RunEndAfter(s, to);
      assert s[from..to + 1] == s[from..to] + [s[to]];
      to := to + 1;
    }
    if from < |s| {
      NoRunAt(s, to);
      TokensAtRun(s, from, to);
    }
    NoTokensAtEnd(s);
  }

  // ---- classification ----

  /** `atomflag_init` takes one more leading dash off, and sets no default. */
  function Build(name: string, option: UseOption): AtomFlag {
    AtomFlag(if name != "" && name[0] == '-' then name[1..] else name, option, NoDefault)
  }

  function Classify(tok: string): AtomFlag
    requires tok != ""
  {
    var first, last := tok[0], tok[|tok| - 1];
    if first == '!' && last == '?' then Build(tok[1..|tok| - 1], DisableIfOff)
    else if first == '!' && last == '=' then Build(tok[1..|tok| - 1], Opposite)
    else if last == '?' then Build(tok[..|tok| - 1], EnableIfOn)
    else if last == '=' then Build(tok[..|tok| - 1], Equal)
    else if first == '-' then Build(tok[1..], Disable)
    else Build(tok, Enable)
  }

  function ClassifyAll(toks: seq<string>): seq<AtomFlag>
    requires forall i :: 0 <= i < |toks| ==> toks[i] != ""
  {
    seq(|toks|, i requires 0 <= i < |toks| => Classify(toks[i]))
  }

  lemma {:induction false} TokensAreNotEmpty(s: string)
    ensures forall i :: 0 <= i < |Tokens(s)| ==> Tokens(s)[i] != ""
  {
    if s == "" {
    } else if IsDelimiter(s[0]) {
      TokensAreNotEmpty(s[1..]);
    } else {
      TokensAreNotEmpty(s[RunEnd(s)..]);
    }
  }

  /** The lexer's action on the text of a flag list, bracket included. */
  ghost function FlagsOf(text: string): seq<AtomFlag>
    requires text != ""
  {
    TokensAreNotEmpty(text[1..]);
    ClassifyAll(Tokens(text[1..]))
  }

  method LexAtomFlags(yytext: string) returns (flags: seq<AtomFlag>)
    requires yytext != ""
    ensures flags == FlagsOf(yytext)
  {
    hide RunEnd, Tokens, Build;
    flags := [];
    ghost var toks: seq<string> := [];
    TokensAreNotEmpty(yytext[1..]);
    var from, to := NextToken(yytext, 1);
    while from < to
      invariant 1 <= from <= to <= |yytext| && Undelimited(yytext[from..to])
      invariant forall i :: 0 <= i < |toks| ==> toks[i] != ""
      invariant Tokens(yytext[1..]) == toks + if from < to then [yytext[from..to]] + Tokens(yytext[to..]) else []
      invariant flags == ClassifyAll(toks)
      decreases |yytext| - from
    {
      var tok := yytext[from..to];
      var len := |tok|;
      var option;
      var name := tok;
      if tok[0] == '!' && tok[len - 1] == '?' {
        name, option := tok[1..len - 1], DisableIfOff;
      } else if tok[0] == '!' && tok[len - 1] == '=' {
        name, option := tok[1..len - 1], Opposite;
      } else if tok[len - 1] == '?' {
        name, option := tok[..len - 1], EnableIfOn;
      } else if tok[len - 1] == '=' {
        name, option := tok[..len - 1], Equal;
      } else if tok[0] == '-' {
        name, option := tok[1..], Disable;
      } else {
        option := Enable;
      }
      flags := flags + [Build(name, option)];
      toks := toks + [tok];
      from, to := NextToken(yytext, to);
    }
  }

  // ---- writing flags, and reading them back ----

  function Repr(name: string, option: UseOption): string {
    match option
    case Disable => "-" + name
    case Enable => name
    case EnableIfOn => name + "?"
    case DisableIfOff => "!" + name + "?"
    case Equal => name + "="
    case Opposite => "!" + name + "="
  }

  /** A name that shows neither a prefix nor a suffix of an option. */
  predicate Bare(name: string) {
    name != "" && name[0] != '-' && name[0] != '!' && name[|name| - 1] != '?' && name[|name| - 1] != '='
  }

  /** A name survives being written and classified with all six options exactly when it is bare. */
  lemma RoundTripExactly(name: string)
    requires name != ""
    ensures Bare(name) <==> forall option :: Classify(Repr(name, option)) == AtomFlag(name, option, NoDefault)
  {
    if Bare(name) {
      forall option: UseOption
        ensures Classify(Repr(name, option)) == AtomFlag(name, option, NoDefault)
      {
        FlagRoundTrip(name, option);
      }
    } else if name[0] == '-' {
      assert |Classify(Repr(name, Enable)).name| < |name|;
    } else if name[0] == '!' {
      assert Classify(Repr(name, EnableIfOn)).option == DisableIfOff;
    } else {
      assert Classify(Repr(name, Enable)).option != Enable;
    }
  }

  lemma FlagRoundTrip(name: string, option: UseOption)
    requires Bare(name)
    ensures Classify(Repr(name, option)) == AtomFlag(name, option, NoDefault)
  {
    var r := Repr(name, option);
    match option
    case Disable => assert r[1..] == name;
    case Enable =>
    case EnableIfOn => assert r[..|r| - 1] == name;
    case DisableIfOff => assert r[1..|r| - 1] == name;
    case Equal => assert r[..|r| - 1] == name;
    case Opposite => assert r[1..|r| - 1] == name;
  }

  predicate IsWordStart(c: char) {
    'A' <= c <= 'Z' || 'a' <= c <= 'z' || '0' <= c <= '9' || c == '_'
  }

  /** Words of letters, digits, `_` and `+`, joined by dashes. */
  predicate Identifier(name: string) {
    && name != "" && IsWordStart(name[0])
    && forall i :: 0 <= i < |name| ==> IsWordStart(name[i]) || name[i] == '+' || name[i] == '-'
  }

  /** What the grammar lets follow an identifier: a default, or `(|)`, and a bar. */
  predicate Trailer(t: string) {
    t in {"", "(+)", "(-)", "(|)", "|", "(+)|", "(-)|", "(|)|"}
  }

  /** A flag as it may be written, but for the prefix and the suffix of its option. */
  predicate Grammatical(name: string) {
    exists k :: 0 < k <= |name| && Identifier(name[..k]) && Trailer(name[k..])
  }

  lemma GrammaticalIsBare(name: string)
    requires Grammatical(name)
    ensures Bare(name) && Undelimited(name)
  {
    var k :| 0 < k <= |name| && Identifier(name[..k]) && Trailer(name[k..]);
    assert name == name[..k] + name[k..];
  }

  /** One flag with the text written before it: the bracket or the comma, and blanks. */
  datatype Item = Item(blanksBefore: nat, name: string, option: UseOption, blanksAfter: nat)

  function Blanks(n: nat): (s: string)
    ensures |s| == n && AllDelimiters(s)
  {
    seq(n, _ => ' ')
  }

  function Written(items: seq<Item>): string {
    if items == [] then "]"
    else
      var it := items[0];
      Blanks(it.blanksBefore) + Repr(it.name, it.option) + Blanks(it.blanksAfter)
        + (if |items| == 1 then "" else ",") + Written(items[1..])
  }

  lemma {:induction false} TokensSkip(d: string, s: string)
    requires AllDelimiters(d)
    ensures Tokens(d + s) == Tokens(s)
  {
    if d == "" {
      assert d + s == s;
    } else {
      assert (d + s)[1..] == d[1..] + s;
      TokensSkip(d[1..], s);
    }
  }

  lemma {:induction false} RunEndOf(t: string, s: string)
    requires Undelimited(t) && (s == "" || IsDelimiter(s[0]))
    ensures RunEnd(t + s) == |t|
  {
    if t == "" {
      assert t + s == s;
    } else {
      assert (t + s)[1..] == t[1..] + s;
      RunEndOf(t[1..], s);
    }
  }

  lemma TokensTake(t: string, s: string)
    requires t != "" && Undelimited(t) && (s == "" || IsDelimiter(s[0]))
    ensures Tokens(t + s) == [t] + Tokens(s)
  {
    RunEndOf(t, s);
    assert (t + s)[..|t|] == t && (t + s)[|t|..] == s && (t + s)[0] == t[0];
  }

  lemma {:induction false} WrittenTokens(items: seq<Item>)
    requires forall i :: 0 <= i < |items| ==> Grammatical(items[i].name)
    ensures Tokens(Written(items)) == seq(|items|, i requires 0 <= i < |items| => Repr(items[i].name, items[i].option))
  {
    hide Grammatical, RunEnd, Blanks, Repr, Tokens, AllDelimiters, IsDelimiter, Undelimited;
    if items == [] {
      NoTokensInBracket();
    } else {
      var it, rest := items[0], items[1..];
      WrittenTokens(rest);
      var t := Repr(it.name, it.option);
      ReprIsToken(it.name, it.option);
      var gap := Blanks(it.blanksAfter) + if |items| == 1 then "" else ",";
      var tail := Written(rest);
      SeparatorIsDelimiters(it.blanksAfter, if |items| == 1 then "" else ",");
      TokensSkip(gap, tail);
      GapThenDelimiter(gap, rest);
      TokensTake(t, gap + tail);
      TokensSkip(Blanks(it.blanksBefore), t + (gap + tail));
      assert Written(items) == Blanks(it.blanksBefore) + (t + (gap + tail));
    }
  }

  lemma NoTokensInBracket()
    ensures Tokens("]") == []
  {
    assert "]"[1..] == "";
  }

  lemma SeparatorIsDelimiters(n: nat, separator: string)
    requires separator == "" || separator == ","
    ensures AllDelimiters(Blanks(n) + separator)
  {
  }

  lemma ReprIsToken(name: string, option: UseOption)
    requires Grammatical(name)
    ensures Repr(name, option) != "" && Undelimited(Repr(name, option))
  {
    GrammaticalIsBare(name);
  }

  lemma GapThenDelimiter(gap: string, rest: seq<Item>)
    requires AllDelimiters(gap) && (rest != [] ==> gap != "")
    ensures gap + Written(rest) != "" && IsDelimiter((gap + Written(rest))[0])
  {
  }

  /** Flags written as a list, with blanks anywhere the grammar allows them, are read back in order. */
  lemma ListRoundTrip(items: seq<Item>)
    requires forall i :: 0 <= i < |items| ==> Grammatical(items[i].name)
    ensures FlagsOf("[" + Written(items))
      == seq(|items|, i requires 0 <= i < |items| => AtomFlag(items[i].name, items[i].option, NoDefault))
  {
    hide Grammatical, Tokens, Repr, Classify, Written;
    WrittenTokens(items);
    assert ("[" + Written(items))[1..] == Written(items);
    TokensAreNotEmpty(Written(items));
    forall i | 0 <= i < |items|
      ensures Repr(items[i].name, items[i].option) != ""
      ensures Classify(Repr(items[i].name, items[i].option)) == AtomFlag(items[i].name, items[i].option, NoDefault)
    {
      GrammaticalIsBare(items[i].name);
      ReprIsToken(items[i].name, items[i].option);
      FlagRoundTrip(items[i].name, items[i].option);
    }
  }

  function DefaultText(d: UseDefault): string {
    match d
    case NoDefault => ""
    case On => "(+)"
    case Off => "(-)"
  }

  /** `foo(+)`, `foo(-)`: the default is taken for a part of the name, and no default is recorded. */
  lemma DefaultIsLost(n: string, d: UseDefault, option: UseOption)
    requires Identifier(n)
    ensures FlagsOf("[" + Repr(n + DefaultText(d), option) + "]") == [AtomFlag(n + DefaultText(d), option, NoDefault)]
  {
    hide Tokens, Classify, Repr, FlagsOf;
    var name := n + DefaultText(d);
    var items := [Item(0, name, option, 0)];
    assert name[..|n|] == n && name[|n|..] == DefaultText(d);
    ListRoundTrip(items);
    assert Blanks(0) == "";
    assert items[1..] == [];
    assert Written(items) == Blanks(0) + Repr(name, option) + Blanks(0) + "" + Written([]);
    assert "[" + Repr(name, option) + "]" == "[" + Written(items);
  }

  // ---- the default as it is read ----

  /** The numbers of the options, as the code lists them. */
  function OptionNumber(option: UseOption): nat {
    match option
    case Disable => 0
    case Enable => 1
    case EnableIfOn => 2
    case DisableIfOff => 3
    case Equal => 4
    case Opposite => 5
  }

  /** The default with a number; the other numbers are no default. */
  function DefaultOfNumber(n: nat): Option<UseDefault> {
    match n
    case 0 => Some(NoDefault)
    case 1 => Some(On)
    case 2 => Some(Off)
    case _ => None
  }

  /** The attribute `default` shows the field of the option. */
  function ReadDefault(u: AtomFlag): Option<UseDefault> {
    DefaultOfNumber(OptionNumber(u.option))
  }
}
