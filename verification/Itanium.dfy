/**
  Model of the Itanium nested-name parser of llvm/utils/extract_symbols.py. The nested names are
  those of section 5.1.2 (General Structure) of the Itanium C++ ABI.
 */
module Itanium {
  import opened Wrappers
  import opened Decimal

  // --------------------------------------------------------------------------- the name patterns

  /** The characters matched by a greedy ".+": everything before the next newline. */
  function UpToNewline(s: string): string {
    if s == [] || s[0] == '\n' then [] else [s[0]] + UpToNewline(s[1..])
  }

  /** The longest beginning without a newline. */
  lemma {:induction false} UpToNewlineIs(s: string)
    ensures var r := UpToNewline(s); r <= s && '\n' !in r && (|r| < |s| ==> s[|r|] == '\n')
    ensures UpToNewline(s) != "" <==> s != "" && s[0] != '\n'
  {
    if s != "" {
      UpToNewlineIs(s[1..]);
    }
  }

  function DigitRun(s: string): (n: nat)
    ensures n <= |s| && AllDigits(s[..n])
  {
    if s == [] || !IsDigit(s[0]) then 0 else 1 + DigitRun(s[1..])
  }

  datatype Match = Match(first: string, rest: string)

  /** (\d+)(.+): the digits are given up only to leave one character for the rest. */
  function MatchNumber(s: string): (m: Option<Match>)
    ensures m.Some? ==> m.value.first != "" && AllDigits(m.value.first)
    ensures m.Some? ==> |m.value.first| + |m.value.rest| <= |s|
  {
    var d := DigitRun(s);
    UpToNewlineShorter(s[d..]);
    if d == 0 then None
    else if UpToNewline(s[d..]) != "" then Some(Match(s[..d], UpToNewline(s[d..])))
    else if d >= 2 then Some(Match(s[..d - 1], [s[d - 1]]))
    else None
  }

  lemma {:induction false} UpToNewlineShorter(s: string)
    ensures |UpToNewline(s)| <= |s|
  {
    if s != [] {
      UpToNewlineShorter(s[1..]);
    }
  }

  predicate IsSubstitutionChar(c: char) {
    'A' <= c <= 'Z' || '0' <= c <= '9'
  }

  function SubstitutionRun(s: string): (n: nat)
    ensures n <= |s|
  {
    if s == [] || !IsSubstitutionChar(s[0]) then 0 else 1 + SubstitutionRun(s[1..])
  }

  /** S[A-Z0-9]*_(.+) */
  function MatchSubstitution(s: string): (rest: Option<string>)
    ensures rest.Some? ==> |rest.value| < |s|
  {
    if s == [] || s[0] != 'S' then None
    else
      var k := 1 + SubstitutionRun(s[1..]);
      if k < |s| && s[k] == '_' then
        UpToNewlineShorter(s[k + 1..]);
        if UpToNewline(s[k + 1..]) != "" then Some(UpToNewline(s[k + 1..])) else None
      else None
  }

  predicate IsQualifier(c: char) {
    c == 'r' || c == 'V' || c == 'K' || c == 'R' || c == 'O'
  }

  function QualifierRun(s: string): (n: nat)
    ensures n <= |s|
  {
    if s == [] || !IsQualifier(s[0]) then 0 else 1 + QualifierRun(s[1..])
  }

  /** What is left after the optional match of [rVKRO]*(.+). */
  function SkipQualifiers(s: string): (rest: string)
    ensures |rest| <= |s|
  {
    var q := QualifierRun(s);
    UpToNewlineShorter(s[q..]);
    if UpToNewline(s[q..]) != "" then UpToNewline(s[q..])
    else if q >= 1 then [s[q - 1]]
    else s
  }

  function NonERun(s: string): (n: nat)
    ensures n <= |s|
  {
    if s == [] || s[0] == 'E' then 0 else 1 + NonERun(s[1..])
  }

  /** The longest split of at least one character, up to n, that leaves a character for the rest. */
  function LastSplit(s: string, n: nat): (k: nat)
    requires n <= |s|
    ensures k <= n && (k > 0 ==> k < |s| && s[k] != '\n')
  {
    if n == 0 then 0
    else if n < |s| && s[n] != '\n' then n
    else LastSplit(s, n - 1)
  }

  /** parse_itanium_name: a (name, rest) pair, or None if the string cannot be handled. */
  function ParseName(arg: string): (r: Option<Match>)
    ensures r.Some? ==> r.value.first != "" && |r.value.rest| < |arg|
  {
    var number := MatchNumber(arg);
    if number.Some? then
      var Match(digits, text) := number.value;
      var n := Min(Value(digits), |text|);
      Some(Match(digits + text[..n], text[n..]))
    else if |arg| > 2 && (arg[0] == 'C' || arg[0] == 'D') && '1' <= arg[1] <= '3' && arg[2] != '\n' then
      UpToNewlineShorter(arg[2..]);
      Some(Match(arg[..2], UpToNewline(arg[2..])))
    else
      var k := LastSplit(arg, NonERun(arg));
      UpToNewlineShorter(arg[k..]);
      if k > 0 then Some(Match(arg[..k], UpToNewline(arg[k..]))) else None
  }

  function Min(a: nat, b: nat): nat {
    if a <= b then a else b
  }

  // ---------------------------------------------------------------- the mutually recursive parsers

  /** The result of a parser that may raise TooComplexName. */
  datatype Outcome<T> = Done(value: T) | TooComplex

  datatype Component = Component(name: string, isTemplate: bool)

  datatype Parsed = Parsed(names: seq<Component>, rest: string)

  /** The loop of skip_itanium_template. */
  ghost function SkipArgs(tmp: string): (r: Outcome<Option<string>>)
    ensures r.Done? && r.value.Some? ==> |r.value.value| < |tmp|
    decreases |tmp|, 1
  {
    if tmp == "" then Done(None)
    else
      var number := MatchNumber(tmp);
      if number.Some? then
        SkipArgs(number.value.rest[Min(Value(number.value.first), |number.value.rest|)..])
      else
        var substitution := MatchSubstitution(tmp);
        if substitution.Some? then SkipArgs(substitution.value)
        else if tmp[0] == 'I' then
          var inner := SkipArgs(tmp[1..]);
          if inner.TooComplex? || inner.value.None? then inner else SkipArgs(inner.value.value)
        else if tmp[0] == 'N' then
          var inner := ParseNested(tmp);
          if inner.TooComplex? then TooComplex
          else if inner.value.None? then Done(None)
          else SkipArgs(inner.value.value.rest)
        else if tmp[0] == 'L' || tmp[0] == 'X' then TooComplex
        else if tmp[0] == 'E' then Done(Some(tmp[1..]))
        else SkipArgs(tmp[1..])
  }

  /** What follows the N, a substitution and the qualifiers. */
  ghost function AfterPrefix(arg: string): (tmp: string)
    requires arg != "" && arg[0] == 'N'
    ensures |tmp| < |arg|
  {
    var substitution := MatchSubstitution(arg[1..]);
    SkipQualifiers(if substitution.Some? then substitution.value else arg[1..])
  }

  ghost function ParseNested(arg: string): (r: Outcome<Option<Parsed>>)
    requires arg != "" && arg[0] == 'N'
    ensures r.Done? && r.value.Some? ==> |r.value.value.rest| < |arg|
    decreases |arg|, 0
  {
    ParseComponents(AfterPrefix(arg), [])
  }

  /** The loop of parse_itanium_nested_name. */
  ghost function ParseComponents(tmp: string, ret: seq<Component>): (r: Outcome<Option<Parsed>>)
    ensures r.Done? && r.value.Some? ==> |r.value.value.rest| < |tmp|
    decreases |tmp|, 1
  {
    if tmp == "" then Done(None)
    else if tmp[0] == 'E' then Done(Some(Parsed(ret, tmp[1..])))
    else
      var name := ParseName(tmp);
      if name.None? then Done(None)
      else
        var Match(part, rest) := name.value;
        if rest != "" && rest[0] == 'I' then
          var after := SkipArgs(rest[1..]);
          if after.TooComplex? then TooComplex
          else if after.value.None? then Done(None)
          else ParseComponents(after.value.value, ret + [Component(part, true)])
        else ParseComponents(rest, ret + [Component(part, false)])
  }

  method SkipItaniumTemplate(arg: string) returns (r: Outcome<Option<string>>)
    requires arg != "" && arg[0] == 'I'
    ensures r == SkipArgs(arg[1..])
    decreases |arg|, 1
  {
    var tmp := arg[1..];
    while tmp != ""
      invariant |tmp| < |arg| && SkipArgs(tmp) == SkipArgs(arg[1..])
      decreases |tmp|
    {
      var number := MatchNumber(tmp);
      if number.Some? {
        var n := Value(number.value.first);
        tmp := number.value.rest[Min(n, |number.value.rest|)..];
        continue;
      }
      var substitution := MatchSubstitution(tmp);
      if substitution.Some? {
        tmp := substitution.value;
      } else if tmp[0] == 'I' {
        var inner := SkipItaniumTemplate(tmp);
        if inner.TooComplex? || inner.value.None? {
          return inner;
        }
        tmp := inner.value.value;
      } else if tmp[0] == 'N' {
        var inner := ParseItaniumNestedName(tmp);
        if inner.TooComplex? {
          return TooComplex;
        }
        if inner.value.None? {
          return Done(None);
        }
        tmp := inner.value.value.rest;
      } else if tmp[0] == 'L' || tmp[0] == 'X' {
        return TooComplex;
      } else if tmp[0] == 'E' {
        return Done(Some(tmp[1..]));
      } else {
        tmp := tmp[1..];
      }
    }
    return Done(None);
  }

  method ParseItaniumNestedName(arg: string) returns (r: Outcome<Option<Parsed>>)
    requires arg != "" && arg[0] == 'N'
    ensures r == ParseNested(arg)
    decreases |arg|, 0
  {
    var ret: seq<Component> := [];
    var tmp: string;
    var substitution := MatchSubstitution(arg[1..]);
    if substitution.Some? {
      tmp := substitution.value;
    } else {
      tmp := arg[1..];
    }
    tmp := SkipQualifiers(tmp);
    while tmp != ""
      invariant |tmp| < |arg| && ParseComponents(tmp, ret) == ParseNested(arg)
      decreases |tmp|
    {
      if tmp[0] == 'E' {
        return Done(Some(Parsed(ret, tmp[1..])));
      }
      var name := ParseName(tmp);
      if name.None? {
        return Done(None);
      }
      tmp := name.value.rest;
      var isTemplate := false;
      if tmp != "" && tmp[0] == 'I' {
        var after := SkipItaniumTemplate(tmp);
        if after.TooComplex? {
          return TooComplex;
        }
        if after.value.None? {
          return Done(None);
        }
        tmp := after.value.value;
        isTemplate := true;
      }
      ret := ret + [Component(name.value.first, isTemplate)];
    }
    return Done(None);
  }

  // --------------------------------------------------------------- the patterns, by their matches

  /** The pattern (\d+)(.+) matches with a first group of k characters. */
  ghost predicate NumberMatches(s: string, k: nat) {
    1 <= k < |s| && s[k] != '\n' && forall i | 0 <= i < k :: IsDigit(s[i])
  }

  lemma {:induction false} DigitRunIs(s: string)
    ensures forall i | 0 <= i < DigitRun(s) :: IsDigit(s[i])
    ensures DigitRun(s) < |s| ==> !IsDigit(s[DigitRun(s)])
  {
    if s != [] && IsDigit(s[0]) {
      DigitRunIs(s[1..]);
    }
  }

  /** The match is the longest one in the first group, and then in the second. */
  lemma MatchNumberIs(s: string)
    ensures MatchNumber(s).Some? <==> exists k: nat :: NumberMatches(s, k)
    ensures MatchNumber(s).Some? ==>
              var Match(first, rest) := MatchNumber(s).value;
              && first <= s && NumberMatches(s, |first|) && rest == UpToNewline(s[|first|..])
              && forall k: nat | NumberMatches(s, k) :: k <= |first|
  {
    var d := DigitRun(s);
    DigitRunIs(s);
    NumberIs(s);
    hide DigitRun, UpToNewline, MatchNumber;
    forall k: nat | NumberMatches(s, k) ensures 0 < k <= d {
    }
    if d > 0 {
      LongestNumber(s, d);
      if NumberMatches(s, d) {
        assert s[..d] <= s;
      } else if d >= 2 {
        assert s[..d - 1] <= s && NumberMatches(s, d - 1);
      }
    }
  }

  lemma NumberIs(s: string)
    ensures var d := DigitRun(s);
            MatchNumber(s) ==
              if d == 0 then None
              else if UpToNewline(s[d..]) != "" then Some(Match(s[..d], UpToNewline(s[d..])))
              else if d >= 2 then Some(Match(s[..d - 1], [s[d - 1]]))
              else None
  {
  }

  lemma LongestNumber(s: string, d: nat)
    requires 0 < d <= |s| && forall i | 0 <= i < d :: IsDigit(s[i])
    ensures NumberMatches(s, d) <==> UpToNewline(s[d..]) != ""
    ensures UpToNewline(s[d..]) == "" && d >= 2 ==> NumberMatches(s, d - 1) && UpToNewline(s[d - 1..]) == [s[d - 1]]
    ensures UpToNewline(s[d..]) == "" && d == 1 ==> !NumberMatches(s, 1)
  {
    var t := s[d - 1..];
    assert t[0] == s[d - 1] && t[1..] == s[d..];
    assert UpToNewline(t) == [t[0]] + UpToNewline(t[1..]);
    UpToNewlineIs(s[d..]);
  }

  /** The pattern S[A-Z0-9]*_(.+) matches with k characters before the underscore. */
  ghost predicate SubstitutionMatches(s: string, k: nat) {
    && 1 <= k && k + 1 < |s| && s[0] == 'S' && s[k] == '_' && s[k + 1] != '\n'
    && forall i | 1 <= i < k :: IsSubstitutionChar(s[i])
  }

  lemma {:induction false} SubstitutionRunIs(s: string)
    ensures forall i | 0 <= i < SubstitutionRun(s) :: IsSubstitutionChar(s[i])
    ensures SubstitutionRun(s) < |s| ==> !IsSubstitutionChar(s[SubstitutionRun(s)])
  {
    if s != [] {
      SubstitutionRunIs(s[1..]);
    }
  }

  /** The character classes of the patterns. */
  lemma ClassesAre(c: char)
    ensures IsDigit(c) <==> c in "0123456789"
    ensures IsSubstitutionChar(c) <==> c in "ABCDEFGHIJKLMNOPQRSTUVWXYZ0123456789"
    ensures IsQualifier(c) <==> c in "rVKRO"
  {
  }

  lemma MatchSubstitutionIs(s: string)
    ensures MatchSubstitution(s).Some? <==> exists k: nat :: SubstitutionMatches(s, k)
    ensures forall k: nat | SubstitutionMatches(s, k) :: MatchSubstitution(s) == Some(UpToNewline(s[k + 1..]))
  {
    if s != [] && s[0] == 'S' {
      var k := 1 + SubstitutionRun(s[1..]);
      SubstitutionRunIs(s[1..]);
      if k < |s| {
        UpToNewlineIs(s[k + 1..]);
      }
      assert forall i | 1 <= i < k :: s[i] == s[1..][i - 1];
      assert k < |s| ==> s[k] == s[1..][k - 1];
      forall j: nat | SubstitutionMatches(s, j) ensures j == k {
        assert j < k ==> IsSubstitutionChar(s[j]);
      }
      if k < |s| && s[k] == '_' && UpToNewline(s[k + 1..]) != "" {
        assert SubstitutionMatches(s, k);
      }
    }
  }

  /** The pattern [rVKRO]*(.+) matches with k characters before the group. */
  ghost predicate QualifiersMatch(s: string, k: nat) {
    k < |s| && s[k] != '\n' && forall i | 0 <= i < k :: IsQualifier(s[i])
  }

  lemma {:induction false} QualifierRunIs(s: string)
    ensures forall i | 0 <= i < QualifierRun(s) :: IsQualifier(s[i])
    ensures QualifierRun(s) < |s| ==> !IsQualifier(s[QualifierRun(s)])
  {
    if s != [] {
      QualifierRunIs(s[1..]);
    }
  }

  /** The longest match counts; without one, nothing is skipped. */
  lemma SkipQualifiersIs(s: string)
    ensures forall k: nat | QualifiersMatch(s, k) && (forall j: nat | QualifiersMatch(s, j) :: j <= k) ::
              SkipQualifiers(s) == UpToNewline(s[k..])
    ensures (forall k: nat :: !QualifiersMatch(s, k)) ==> SkipQualifiers(s) == s
  {
    var q := QualifierRun(s);
    QualifierRunIs(s);
    UpToNewlineIs(s[q..]);
    forall k: nat | QualifiersMatch(s, k) ensures k <= q {
    }
    if UpToNewline(s[q..]) != "" {
      assert QualifiersMatch(s, q);
    } else {
      assert !QualifiersMatch(s, q);
      if q >= 1 {
        assert QualifiersMatch(s, q - 1);
        var t := s[q - 1..];
        assert t[0] == s[q - 1] && t[1..] == s[q..];
        assert UpToNewline(t) == [t[0]] + UpToNewline(t[1..]) == [s[q - 1]];
      }
    }
  }

  /** The pattern ([^E]+)(.+) matches with a first group of k characters. */
  ghost predicate OperatorMatches(s: string, k: nat) {
    1 <= k < |s| && s[k] != '\n' && forall i | 0 <= i < k :: s[i] != 'E'
  }

  ghost predicate CtorDtorMatches(s: string) {
    |s| > 2 && s[..2] in ["C1", "C2", "C3", "D1", "D2", "D3"] && s[2] != '\n'
  }

  lemma {:induction false} NonERunIs(s: string)
    ensures forall i | 0 <= i < NonERun(s) :: s[i] != 'E'
    ensures NonERun(s) < |s| ==> s[NonERun(s)] == 'E'
  {
    if s != [] {
      NonERunIs(s[1..]);
    }
  }

  lemma {:induction false} LastSplitIs(s: string, n: nat)
    requires n <= |s|
    ensures forall k: nat | LastSplit(s, n) < k <= n && k < |s| :: s[k] == '\n'
  {
    if n > 0 && !(n < |s| && s[n] != '\n') {
      LastSplitIs(s, n - 1);
    }
  }

  /** The three patterns of a name, in the order in which they are tried. */
  lemma ParseNameIs(s: string)
    ensures MatchNumber(s).Some? ==>
              var Match(digits, text) := MatchNumber(s).value;
              var n := if Value(digits) <= |text| then Value(digits) else |text|;
              ParseName(s) == Some(Match(digits + text[..n], text[n..]))
    ensures MatchNumber(s).None? && CtorDtorMatches(s) ==> ParseName(s) == Some(Match(s[..2], UpToNewline(s[2..])))
    ensures MatchNumber(s).None? && !CtorDtorMatches(s) ==>
              && (ParseName(s).Some? <==> exists k: nat :: OperatorMatches(s, k))
              && forall k: nat | OperatorMatches(s, k) && (forall j: nat | OperatorMatches(s, j) :: j <= k) ::
                   ParseName(s) == Some(Match(s[..k], UpToNewline(s[k..])))
  {
    var n := NonERun(s);
    NonERunIs(s);
    LastSplitIs(s, n);
    var k := LastSplit(s, n);
    forall j: nat | OperatorMatches(s, j) ensures j <= k {
      assert n < j ==> OperatorMatches(s, j) && n < |s|;
    }
    if k > 0 {
      assert OperatorMatches(s, k);
    }
    CtorDtorIs(s);
  }

  /** The codes of constructors and destructors. */
  lemma CodesAre(code: string)
    ensures IsCtorDtor(code) <==> code in ["C1", "C2", "C3", "D1", "D2", "D3"]
  {
    if |code| == 2 {
      assert code == [code[0], code[1]];
    }
  }

  lemma CtorDtorIs(s: string)
    ensures CtorDtorMatches(s) <==> |s| > 2 && (s[0] == 'C' || s[0] == 'D') && '1' <= s[1] <= '3' && s[2] != '\n'
  {
    if |s| > 2 {
      assert s[..2] == [s[0], s[1]];
    }
  }

  // ------------------------------------------------------------------------- printed nested names

  /** A template argument, of the kinds the script does not call too complex. */
  datatype Arg =
    | NameArg(id: string)
    | SubstitutionArg(seqId: string)
    | NestedArg(nested: Nested)
    | TemplateArg(args: seq<Arg>)
    | TypeArg(c: char)

  datatype Part =
    | Identifier(id: string)
    | Templated(id: string, args: seq<Arg>)
    | CtorDtor(code: string)

  datatype Nested = Nested(substitution: Option<string>, qualifiers: string, parts: seq<Part>)

  ghost predicate IsIdentifier(id: string) {
    id != "" && !IsDigit(id[0]) && '\n' !in id
  }

  ghost predicate IsSubstitution(s: string) {
    forall i | 0 <= i < |s| :: IsSubstitutionChar(s[i])
  }

  ghost predicate AreQualifiers(s: string) {
    forall i | 0 <= i < |s| :: IsQualifier(s[i])
  }

  ghost predicate IsPlainType(c: char) {
    !IsDigit(c) && c !in ['S', 'I', 'N', 'L', 'X', 'E', '\n']
  }

  ghost predicate IsCtorDtor(s: string) {
    |s| == 2 && (s[0] == 'C' || s[0] == 'D') && '1' <= s[1] <= '3'
  }

  ghost predicate ValidArg(a: Arg) {
    match a
    case NameArg(id) => IsIdentifier(id)
    case SubstitutionArg(s) => IsSubstitution(s)
    case NestedArg(n) => ValidNested(n)
    case TemplateArg(args) => ValidArgs(args)
    case TypeArg(c) => IsPlainType(c)
  }

  ghost predicate ValidArgs(args: seq<Arg>) {
    args == [] || (ValidArg(args[0]) && ValidArgs(args[1..]))
  }

  ghost predicate ValidPart(p: Part) {
    match p
    case Identifier(id) => IsIdentifier(id)
    case Templated(id, args) => IsIdentifier(id) && ValidArgs(args)
    case CtorDtor(code) => IsCtorDtor(code)
  }

  ghost predicate ValidParts(parts: seq<Part>) {
    parts == [] || (ValidPart(parts[0]) && ValidParts(parts[1..]))
  }

  ghost predicate ValidNested(n: Nested) {
    (n.substitution.Some? ==> IsSubstitution(n.substitution.value)) && AreQualifiers(n.qualifiers) && ValidParts(n.parts)
  }

  /** A length-prefixed identifier. */
  ghost function SourceName(id: string): string {
    Numeral(|id|) + id
  }

  ghost function PrintArg(a: Arg): string {
    match a
    case NameArg(id) => SourceName(id)
    case SubstitutionArg(s) => "S" + s + "_"
    case NestedArg(n) => PrintNested(n)
    case TemplateArg(args) => "I" + PrintArgs(args) + "E"
    case TypeArg(c) => [c]
  }

  ghost function PrintArgs(args: seq<Arg>): string {
    if args == [] then "" else PrintArg(args[0]) + PrintArgs(args[1..])
  }

  ghost function PrintPart(p: Part): string {
    match p
    case Identifier(id) => SourceName(id)
    case Templated(id, args) => SourceName(id) + "I" + PrintArgs(args) + "E"
    case CtorDtor(code) => code
  }

  ghost function PrintParts(parts: seq<Part>): string {
    if parts == [] then "" else PrintPart(parts[0]) + PrintParts(parts[1..])
  }

  ghost function PrintPrefix(n: Nested): string {
    (if n.substitution.Some? then "S" + n.substitution.value + "_" else "") + n.qualifiers
  }

  ghost function PrintNested(n: Nested): string {
    "N" + PrintPrefix(n) + PrintParts(n.parts) + "E"
  }

  /** The components the parser should find. */
  ghost function ComponentOf(p: Part): Component {
    match p
    case Identifier(id) => Component(SourceName(id), false)
    case Templated(id, _) => Component(SourceName(id), true)
    case CtorDtor(code) => Component(code, false)
  }

  ghost function ComponentsOf(parts: seq<Part>): seq<Component> {
    if parts == [] then [] else [ComponentOf(parts[0])] + ComponentsOf(parts[1..])
  }

  // ------------------------------------------------------------------ the patterns on printed text

  lemma {:induction false} UpToNewlineAll(s: string)
    requires '\n' !in s
    ensures UpToNewline(s) == s
  {
    if s != [] {
      UpToNewlineAll(s[1..]);
    }
  }

  lemma {:induction false} DigitRunOf(digits: string, rest: string)
    requires AllDigits(digits) && (rest == "" || !IsDigit(rest[0]))
    ensures DigitRun(digits + rest) == |digits|
  {
    if digits == "" {
      assert digits + rest == rest;
    } else {
      assert (digits + rest)[1..] == digits[1..] + rest;
      DigitRunOf(digits[1..], rest);
    }
  }

  lemma NoNumber(s: string)
    requires s == "" || !IsDigit(s[0])
    ensures MatchNumber(s).None?
  {
  }

  /** A length-prefixed identifier is matched with its own length, whatever follows. */
  lemma MatchSourceName(id: string, tail: string)
    requires IsIdentifier(id) && '\n' !in tail
    ensures MatchNumber(SourceName(id) + tail) == Some(Match(Numeral(|id|), id + tail))
    ensures AllDigits(Numeral(|id|)) && Value(Numeral(|id|)) == |id|
  {
    var digits, rest := Numeral(|id|), id + tail;
    NumeralValue(|id|);
    assert SourceName(id) + tail == digits + rest;
    assert rest[0] == id[0];
    DigitRunOf(digits, rest);
    assert (digits + rest)[..|digits|] == digits && (digits + rest)[|digits|..] == rest;
    UpToNewlineAll(rest);
  }

  lemma {:induction false} SubstitutionRunOf(s: string, rest: string)
    requires IsSubstitution(s) && (rest == "" || !IsSubstitutionChar(rest[0]))
    ensures SubstitutionRun(s + rest) == |s|
  {
    if s == "" {
      assert s + rest == rest;
    } else {
      assert (s + rest)[1..] == s[1..] + rest;
      SubstitutionRunOf(s[1..], rest);
    }
  }

  lemma MatchPrintedSubstitution(s: string, tail: string)
    requires IsSubstitution(s) && tail != "" && '\n' !in tail
    ensures MatchSubstitution("S" + s + "_" + tail) == Some(tail)
  {
    var text := "S" + s + "_" + tail;
    assert text[1..] == s + ("_" + tail);
    SubstitutionRunOf(s, "_" + tail);
    assert text[1 + |s|] == '_';
    assert text[2 + |s|..] == tail;
    UpToNewlineAll(tail);
  }

  lemma {:induction false} QualifierRunOf(q: string, rest: string)
    requires AreQualifiers(q) && (rest == "" || !IsQualifier(rest[0]))
    ensures QualifierRun(q + rest) == |q|
  {
    if q == "" {
      assert q + rest == rest;
    } else {
      assert (q + rest)[1..] == q[1..] + rest;
      QualifierRunOf(q[1..], rest);
    }
  }

  lemma SkipPrintedQualifiers(q: string, tail: string)
    requires AreQualifiers(q) && tail != "" && '\n' !in tail && !IsQualifier(tail[0])
    ensures SkipQualifiers(q + tail) == tail
  {
    QualifierRunOf(q, tail);
    assert (q + tail)[|q|..] == tail;
    UpToNewlineAll(tail);
  }

  lemma ParseSourceName(id: string, tail: string)
    requires IsIdentifier(id) && '\n' !in tail
    ensures ParseName(SourceName(id) + tail) == Some(Match(SourceName(id), tail))
  {
    MatchSourceName(id, tail);
    assert (id + tail)[..|id|] == id && (id + tail)[|id|..] == tail;
  }

  lemma ParseCtorDtor(code: string, tail: string)
    requires IsCtorDtor(code) && tail != "" && '\n' !in tail
    ensures ParseName(code + tail) == Some(Match(code, tail))
  {
    var s := code + tail;
    NoNumber(s);
    assert s[2] == tail[0] && s[..2] == code && s[2..] == tail;
    UpToNewlineAll(tail);
  }

  // ------------------------------------------------------------------------- no newline is printed

  lemma NumeralNoNewline(n: nat)
    ensures '\n' !in Numeral(n)
  {
    NumeralValue(n);
  }

  lemma {:induction false} ArgsNoNewline(args: seq<Arg>)
    requires ValidArgs(args)
    ensures '\n' !in PrintArgs(args)
    decreases args
  {
    if args != [] {
      ArgNoNewline(args[0]);
      ArgsNoNewline(args[1..]);
    }
  }

  lemma {:induction false} ArgNoNewline(a: Arg)
    requires ValidArg(a)
    ensures '\n' !in PrintArg(a)
    decreases a
  {
    match a
    case NameArg(id) => NumeralNoNewline(|id|);
    case SubstitutionArg(s) =>
    case NestedArg(n) => NestedNoNewline(n);
    case TemplateArg(inner) => ArgsNoNewline(inner);
    case TypeArg(c) =>
  }

  lemma {:induction false} NestedNoNewline(n: Nested)
    requires ValidNested(n)
    ensures '\n' !in PrintNested(n)
    decreases n
  {
    PartsNoNewline(n.parts);
  }

  lemma {:induction false} PartsNoNewline(parts: seq<Part>)
    requires ValidParts(parts)
    ensures '\n' !in PrintParts(parts)
    decreases parts
  {
    if parts != [] {
      PartsNoNewline(parts[1..]);
      match parts[0]
      case Identifier(id) => NumeralNoNewline(|id|);
      case Templated(id, args) =>
        NumeralNoNewline(|id|);
        ArgsNoNewline(args);
      case CtorDtor(code) =>
    }
  }

  // ---------------------------------------------------------------------------------- round trips

  /** Skipping a printed template argument list leaves exactly what follows it. */
  lemma {:induction false} SkipPrinted(args: seq<Arg>, rest: string)
    requires ValidArgs(args) && '\n' !in rest
    ensures SkipArgs(PrintArgs(args) + "E" + rest) == Done(Some(rest))
    decreases args, 0
  {
    if args == [] {
      var s := PrintArgs(args) + "E" + rest;
      NoNumber(s);
      assert s[1..] == rest;
    } else {
      var tail := PrintArgs(args[1..]) + "E" + rest;
      ArgsNoNewline(args[1..]);
      SkipPrinted(args[1..], rest);
      SkipPrintedArg(args[0], tail);
      assert PrintArgs(args) + "E" + rest == PrintArg(args[0]) + tail;
    }
  }

  lemma {:induction false} SkipPrintedArg(a: Arg, tail: string)
    requires ValidArg(a) && tail != "" && '\n' !in tail
    ensures SkipArgs(PrintArg(a) + tail) == SkipArgs(tail)
    decreases a
  {
    hide SkipArgs, ParseNested, PrintNested, PrintArgs, SourceName;
    match a
    case NameArg(id) => NameSkipped(id, tail);
    case SubstitutionArg(q) => SubstitutionSkipped(q, tail);
    case NestedArg(n) =>
      ParsePrinted(n, tail);
      NestedStep(n, ComponentsOf(n.parts), tail);
    case TemplateArg(inner) =>
      SkipPrinted(inner, tail);
      TemplateStep(inner, tail);
    case TypeArg(c) => TypeSkipped(c, tail);
  }

  lemma NameSkipped(id: string, tail: string)
    requires IsIdentifier(id) && tail != "" && '\n' !in tail
    ensures SkipArgs(SourceName(id) + tail) == SkipArgs(tail)
  {
    MatchSourceName(id, tail);
    assert (id + tail)[|id|..] == tail;
  }

  lemma SubstitutionSkipped(q: string, tail: string)
    requires IsSubstitution(q) && tail != "" && '\n' !in tail
    ensures SkipArgs("S" + q + "_" + tail) == SkipArgs(tail)
  {
    NoNumber("S" + q + "_" + tail);
    MatchPrintedSubstitution(q, tail);
  }

  lemma TypeSkipped(c: char, tail: string)
    requires IsPlainType(c)
    ensures SkipArgs([c] + tail) == SkipArgs(tail)
  {
    NoNumber([c] + tail);
    assert ([c] + tail)[1..] == tail;
  }

  lemma NestedStep(n: Nested, names: seq<Component>, tail: string)
    requires ParseNested(PrintNested(n) + tail) == Done(Some(Parsed(names, tail)))
    ensures SkipArgs(PrintNested(n) + tail) == SkipArgs(tail)
  {
    hide ParseNested;
    NoNumber(PrintNested(n) + tail);
  }

  lemma TemplateStep(args: seq<Arg>, tail: string)
    requires SkipArgs(PrintArgs(args) + "E" + tail) == Done(Some(tail))
    ensures SkipArgs("I" + PrintArgs(args) + "E" + tail) == SkipArgs(tail)
  {
    hide SkipArgs, PrintArgs;
    var inner := PrintArgs(args) + "E" + tail;
    InnerListStep(inner, tail);
    assert "I" + PrintArgs(args) + "E" + tail == "I" + inner;
  }

  lemma InnerListStep(inner: string, tail: string)
    requires SkipArgs(inner) == Done(Some(tail))
    ensures SkipArgs("I" + inner) == SkipArgs(tail)
  {
    var s := "I" + inner;
    NoNumber(s);
    assert s[1..] == inner;
  }

  /** Parsing a printed nested name returns its components and exactly what follows it. */
  lemma {:induction false} ParsePrinted(n: Nested, rest: string)
    requires ValidNested(n) && '\n' !in rest
    ensures ParseNested(PrintNested(n) + rest) == Done(Some(Parsed(ComponentsOf(n.parts), rest)))
    decreases n
  {
    PartsNoNewline(n.parts);
    PrefixSkipped(n, rest);
    ComponentsPrinted(n.parts, rest, []);
    assert [] + ComponentsOf(n.parts) == ComponentsOf(n.parts);
  }

  lemma PrefixSkipped(n: Nested, rest: string)
    requires ValidNested(n) && '\n' !in rest && '\n' !in PrintParts(n.parts)
    ensures AfterPrefix(PrintNested(n) + rest) == PrintParts(n.parts) + "E" + rest
  {
    var tail := PrintParts(n.parts) + "E" + rest;
    FirstOfParts(n.parts, rest);
    PrefixTextSkipped(n, tail);
    assert PrintNested(n) + rest == "N" + PrintPrefix(n) + tail;
  }

  lemma PrefixTextSkipped(n: Nested, tail: string)
    requires ValidNested(n) && tail != "" && '\n' !in tail && !IsQualifier(tail[0]) && tail[0] != 'S'
    ensures AfterPrefix("N" + PrintPrefix(n) + tail) == tail
  {
    hide AfterPrefix;
    PrefixText(n, tail);
    assert "N" + PrintPrefix(n) + tail == "N" + (PrintPrefix(n) + tail);
    if n.substitution.Some? {
      SubstitutionPrefixSkipped(n.substitution.value, n.qualifiers, tail);
    } else {
      QualifierPrefixSkipped(n.qualifiers, tail);
    }
  }

  lemma SubstitutionPrefixSkipped(s: string, q: string, tail: string)
    requires IsSubstitution(s) && AreQualifiers(q)
    requires tail != "" && '\n' !in tail && !IsQualifier(tail[0])
    ensures AfterPrefix("N" + ("S" + s + "_" + (q + tail))) == tail
  {
    QualifiersNoNewline(q);
    SkipPrintedQualifiers(q, tail);
    MatchPrintedSubstitution(s, q + tail);
    hide SkipQualifiers, MatchSubstitution;
    assert ("N" + ("S" + s + "_" + (q + tail)))[1..] == "S" + s + "_" + (q + tail);
  }

  lemma QualifierPrefixSkipped(q: string, tail: string)
    requires AreQualifiers(q)
    requires tail != "" && '\n' !in tail && !IsQualifier(tail[0]) && tail[0] != 'S'
    ensures AfterPrefix("N" + (q + tail)) == tail
  {
    QualifiersNoNewline(q);
    SkipPrintedQualifiers(q, tail);
    hide SkipQualifiers;
    assert ("N" + (q + tail))[1..] == q + tail;
    assert (q + tail)[0] == if q == "" then tail[0] else q[0];
  }

  lemma PrefixText(n: Nested, tail: string)
    ensures PrintPrefix(n) + tail ==
            if n.substitution.Some? then "S" + n.substitution.value + "_" + (n.qualifiers + tail) else n.qualifiers + tail
  {
  }

  lemma QualifiersNoNewline(q: string)
    requires AreQualifiers(q)
    ensures '\n' !in q && 'S' !in q
  {
  }

  /** The text after the prefix begins with a digit, C, D or E. */
  lemma FirstOfParts(parts: seq<Part>, rest: string)
    requires ValidParts(parts)
    ensures var s := PrintParts(parts) + "E" + rest;
            s != "" && !IsQualifier(s[0]) && s[0] != 'S' && s[0] != 'I'
  {
    if parts != [] && !parts[0].CtorDtor? {
      NumeralValue(|parts[0].id|);
      assert IsDigit(Numeral(|parts[0].id|)[0]);
      assert PrintPart(parts[0])[0] == Numeral(|parts[0].id|)[0];
    }
  }

  lemma {:induction false} ComponentsPrinted(parts: seq<Part>, rest: string, ret: seq<Component>)
    requires ValidParts(parts) && '\n' !in rest
    ensures ParseComponents(PrintParts(parts) + "E" + rest, ret) == Done(Some(Parsed(ret + ComponentsOf(parts), rest)))
    decreases parts
  {
    if parts == [] {
      assert (PrintParts(parts) + "E" + rest)[1..] == rest;
      assert ret + ComponentsOf(parts) == ret;
    } else {
      hide ParseComponents, PrintPart, ComponentOf, ValidPart;
      var tail := PrintParts(parts[1..]) + "E" + rest;
      PartsNoNewline(parts[1..]);
      FirstOfParts(parts[1..], rest);
      PartPrinted(parts[0], tail, ret);
      PartsText(parts, rest);
      ComponentsPrinted(parts[1..], rest, ret + [ComponentOf(parts[0])]);
      assert ret + [ComponentOf(parts[0])] + ComponentsOf(parts[1..]) == ret + ComponentsOf(parts);
    }
  }

  lemma PartsText(parts: seq<Part>, rest: string)
    requires parts != []
    ensures PrintParts(parts) + "E" + rest == PrintPart(parts[0]) + (PrintParts(parts[1..]) + "E" + rest)
  {
  }

  lemma {:induction false} PartPrinted(p: Part, tail: string, ret: seq<Component>)
    requires ValidPart(p) && tail != "" && '\n' !in tail && tail[0] != 'I'
    ensures ParseComponents(PrintPart(p) + tail, ret) == ParseComponents(tail, ret + [ComponentOf(p)])
    decreases p
  {
    match p
    case Identifier(id) =>
      ParseSourceName(id, tail);
      StartsWithDigit(id, tail);
      PlainStep(SourceName(id), tail, ret);
    case CtorDtor(code) =>
      ParseCtorDtor(code, tail);
      assert (code + tail)[0] == code[0];
      PlainStep(code, tail, ret);
    case Templated(id, args) =>
      TemplatedPrinted(id, args, tail, ret);
      TemplatedText(id, args, tail);
  }

  lemma TemplatedText(id: string, args: seq<Arg>, tail: string)
    ensures PrintPart(Templated(id, args)) + tail == SourceName(id) + ("I" + (PrintArgs(args) + "E" + tail))
  {
  }

  /** One turn of the component loop on a name without template arguments. */
  lemma PlainStep(name: string, tail: string, ret: seq<Component>)
    requires name + tail != "" && (name + tail)[0] != 'E' && tail != "" && tail[0] != 'I'
    requires ParseName(name + tail) == Some(Match(name, tail))
    ensures ParseComponents(name + tail, ret) == ParseComponents(tail, ret + [Component(name, false)])
  {
    hide ParseName;
  }

  lemma {:induction false} TemplatedPrinted(id: string, args: seq<Arg>, tail: string, ret: seq<Component>)
    requires IsIdentifier(id) && ValidArgs(args) && tail != "" && '\n' !in tail
    ensures ParseComponents(SourceName(id) + ("I" + (PrintArgs(args) + "E" + tail)), ret) ==
            ParseComponents(tail, ret + [Component(SourceName(id), true)])
    decreases args, 1
  {
    var inner := PrintArgs(args) + "E" + tail;
    var rest := "I" + inner;
    ArgsNoNewline(args);
    SkipPrinted(args, tail);
    hide PrintArgs, SkipArgs, ParseName;
    ParseSourceName(id, rest);
    StartsWithDigit(id, rest);
    assert rest[1..] == inner;
  }

  lemma StartsWithDigit(id: string, tail: string)
    ensures SourceName(id) + tail != "" && IsDigit((SourceName(id) + tail)[0])
  {
    NumeralValue(|id|);
    assert (SourceName(id) + tail)[0] == Numeral(|id|)[0];
  }

  // --------------------------------------------------- what can be said of any string that is parsed

  ghost predicate Within(a: string, b: string) {
    forall c | c in a :: c in b
  }

  lemma LineIsWithin(s: string, k: nat)
    requires k <= |s|
    ensures Within(UpToNewline(s[k..]), s)
  {
    UpToNewlineIs(s[k..]);
  }

  lemma NumberIsWithin(s: string)
    ensures MatchNumber(s).Some? ==> Within(MatchNumber(s).value.rest, s)
  {
    hide UpToNewline;
    LineIsWithin(s, DigitRun(s));
  }

  lemma NameIsWithin(s: string)
    ensures ParseName(s).Some? ==> Within(ParseName(s).value.rest, s)
  {
    hide UpToNewline, MatchNumber;
    NumberIsWithin(s);
    LineIsWithin(s, LastSplit(s, NonERun(s)));
    if |s| > 2 {
      LineIsWithin(s, 2);
    }
  }

  lemma RestsAreWithin(s: string)
    ensures MatchSubstitution(s).Some? ==> Within(MatchSubstitution(s).value, s)
    ensures Within(SkipQualifiers(s), s)
  {
    hide UpToNewline;
    LineIsWithin(s, QualifierRun(s));
    if |s| > 0 && 1 + SubstitutionRun(s[1..]) < |s| {
      LineIsWithin(s, 1 + SubstitutionRun(s[1..]) + 1);
    }
  }

  /** A template argument list that is skipped has an E, and one that is too complex has an L or an X. */
  lemma {:induction false} SkippedHasEnd(tmp: string)
    ensures var r := SkipArgs(tmp);
            && (r.Done? && r.value.Some? ==> 'E' in tmp && Within(r.value.value, tmp))
            && (r.TooComplex? ==> 'L' in tmp || 'X' in tmp)
    decreases |tmp|, 1
  {
    hide MatchNumber, MatchSubstitution, SkipQualifiers, ParseName;
    if tmp != "" {
      RestsAreWithin(tmp);
      NumberIsWithin(tmp);
      var number, substitution := MatchNumber(tmp), MatchSubstitution(tmp);
      if number.Some? {
        SkippedHasEnd(number.value.rest[Min(Value(number.value.first), |number.value.rest|)..]);
      } else if substitution.Some? {
        SkippedHasEnd(substitution.value);
      } else if tmp[0] == 'I' {
        var inner := SkipArgs(tmp[1..]);
        SkippedHasEnd(tmp[1..]);
        if inner.Done? && inner.value.Some? {
          SkippedHasEnd(inner.value.value);
        }
      } else if tmp[0] == 'N' {
        var inner := ParseNested(tmp);
        ParsedHasEnd(tmp);
        if inner.Done? && inner.value.Some? {
          SkippedHasEnd(inner.value.value.rest);
        }
      } else if tmp[0] != 'L' && tmp[0] != 'X' && tmp[0] != 'E' {
        SkippedHasEnd(tmp[1..]);
      }
    }
  }

  lemma {:induction false} ParsedHasEnd(arg: string)
    requires arg != "" && arg[0] == 'N'
    ensures var r := ParseNested(arg);
            && (r.Done? && r.value.Some? ==> 'E' in arg && Within(r.value.value.rest, arg))
            && (r.TooComplex? ==> 'I' in arg && ('L' in arg || 'X' in arg))
    decreases |arg|, 0
  {
    RestsAreWithin(arg[1..]);
    var substitution := MatchSubstitution(arg[1..]);
    RestsAreWithin(if substitution.Some? then substitution.value else arg[1..]);
    ComponentsHaveEnd(AfterPrefix(arg), []);
  }

  lemma {:induction false} ComponentsHaveEnd(tmp: string, ret: seq<Component>)
    ensures var r := ParseComponents(tmp, ret);
            && (r.Done? && r.value.Some? ==> 'E' in tmp && Within(r.value.value.rest, tmp))
            && (r.TooComplex? ==> 'I' in tmp && ('L' in tmp || 'X' in tmp))
    decreases |tmp|, 1
  {
    hide MatchNumber, MatchSubstitution, SkipQualifiers, ParseName;
    if tmp != "" && tmp[0] != 'E' {
      NameIsWithin(tmp);
      var name := ParseName(tmp);
      if name.Some? {
        var Match(part, rest) := name.value;
        if rest != "" && rest[0] == 'I' {
          var after := SkipArgs(rest[1..]);
          SkippedHasEnd(rest[1..]);
          if after.Done? && after.value.Some? {
            ComponentsHaveEnd(after.value.value, ret + [Component(part, true)]);
          }
        } else {
          ComponentsHaveEnd(rest, ret + [Component(part, false)]);
        }
      }
    }
  }

  // ------------------------------------------------------------------------ which symbols are kept

  /** The match of _Z(T[VTIS])?(N.+): the nested name, up to the end of the line. */
  ghost function NestedPart(symbol: string): Option<string> {
    if |symbol| >= 2 && symbol[..2] == "_Z" then
      var t := symbol[2..];
      var u := if |t| >= 2 && t[0] == 'T' && t[1] in ['V', 'T', 'I', 'S'] then t[2..] else t;
      if u != "" && u[0] == 'N' && UpToNewline(u[1..]) != "" then Some("N" + UpToNewline(u[1..])) else None
    else None
  }

  /** should_keep_itanium_symbol: the symbol under which it is kept, if it is. */
  ghost function ShouldKeep(symbol: string, decorated: bool): Option<string> {
    var symbol := if decorated && symbol != "" && symbol[0] == '_' then symbol[1..] else symbol;
    if symbol == "" || (symbol[0] != '_' && symbol[0] != '.') then Some(symbol)
    else
      var nested := NestedPart(symbol);
      if nested.None? then None
      else
        var parsed := ParseNested(nested.value);
        if parsed.TooComplex? then None
        else if parsed.value.None? || parsed.value.value.names == [] then Some(symbol)
        else
          var first := parsed.value.value.names[0].name;
          if first == "4llvm" || first == "5clang" then Some(symbol) else None
  }

  lemma SourceNameInjective(a: string, b: string)
    requires IsIdentifier(a) && IsIdentifier(b) && SourceName(a) == SourceName(b)
    ensures a == b
  {
    NumeralValue(|a|);
    NumeralValue(|b|);
    DigitRunOf(Numeral(|a|), a);
    DigitRunOf(Numeral(|b|), b);
    assert SourceName(a)[|Numeral(|a|)|..] == a;
    assert SourceName(b)[|Numeral(|b|)|..] == b;
  }

  /** A name in namespace llvm or clang, or without any component. */
  ghost predicate InPublicNamespace(n: Nested) {
    n.parts == [] || (!n.parts[0].CtorDtor? && (n.parts[0].id == "llvm" || n.parts[0].id == "clang"))
  }

  ghost predicate StartsInPublicNamespace(names: seq<Component>) {
    names == [] || names[0].name == "4llvm" || names[0].name == "5clang"
  }

  lemma FirstNameDecides(n: Nested)
    requires ValidNested(n)
    ensures StartsInPublicNamespace(ComponentsOf(n.parts)) <==> InPublicNamespace(n)
  {
    if n.parts != [] {
      assert SourceName("llvm") == "4llvm" && SourceName("clang") == "5clang";
      var p := n.parts[0];
      assert ValidPart(p) && ComponentsOf(n.parts)[0] == ComponentOf(p);
      if p.CtorDtor? {
        assert p.code[0] != '4' && p.code[0] != '5';
      } else {
        assert IsIdentifier("llvm") && IsIdentifier("clang");
        if SourceName(p.id) == "4llvm" {
          SourceNameInjective(p.id, "llvm");
        }
        if SourceName(p.id) == "5clang" {
          SourceNameInjective(p.id, "clang");
        }
      }
    }
  }

  lemma NestedPartOf(special: string, name: string)
    requires special in ["", "TV", "TT", "TI", "TS"] && |name| >= 2 && name[0] == 'N' && '\n' !in name
    ensures NestedPart("_Z" + special + name) == Some(name)
  {
    var symbol := "_Z" + special + name;
    assert symbol[..2] == "_Z" && symbol[2..] == special + name;
    assert special != "" ==> (special + name)[2..] == name;
    UpToNewlineAll(name[1..]);
    assert "N" + name[1..] == name;
  }

  lemma KeepDecision(symbol: string, name: string, names: seq<Component>, rest: string, decorated: bool)
    requires symbol != "" && symbol[0] == '_' && NestedPart(symbol) == Some(name)
    requires name != "" && name[0] == 'N' && ParseNested(name) == Done(Some(Parsed(names, rest)))
    ensures ShouldKeep(if decorated then "_" + symbol else symbol, decorated) ==
            if StartsInPublicNamespace(names) then Some(symbol) else None
  {
    hide ParseNested, NestedPart;
    assert ("_" + symbol)[1..] == symbol;
  }

  /**
    Of the symbols that mangle a nested name (or its vtable, VTT, type info or type name) exactly
    those in namespace llvm or clang are kept, with any calling convention decoration removed.
   */
  lemma KeptSymbols(special: string, n: Nested, rest: string, decorated: bool)
    requires special in ["", "TV", "TT", "TI", "TS"] && ValidNested(n) && '\n' !in rest
    ensures var symbol := "_Z" + special + (PrintNested(n) + rest);
            ShouldKeep(if decorated then "_" + symbol else symbol, decorated) ==
            if InPublicNamespace(n) then Some(symbol) else None
  {
    var name := PrintNested(n) + rest;
    NestedNoNewline(n);
    assert |name| >= 2 && name[0] == 'N';
    NestedPartOf(special, name);
    ParsePrinted(n, rest);
    FirstNameDecides(n);
    hide ParseNested, PrintNested, NestedPart;
    KeepDecision("_Z" + special + name, name, ComponentsOf(n.parts), rest, decorated);
  }

  // ------------------------------------------------------------------------------- all other symbols

  ghost function Undecorated(symbol: string, decorated: bool): string {
    if decorated && symbol != "" && symbol[0] == '_' then symbol[1..] else symbol
  }

  /** A symbol that does not begin with an underscore or a dot is kept. */
  lemma PlainIsKept(symbol: string, decorated: bool)
    requires var s := Undecorated(symbol, decorated); s == "" || (s[0] != '_' && s[0] != '.')
    ensures ShouldKeep(symbol, decorated) == Some(Undecorated(symbol, decorated))
  {
  }

  /** The symbol mangles a nested name, perhaps with other text after it. */
  ghost predicate Mangles(symbol: string, special: string, name: string) {
    && special in ["", "TV", "TT", "TI", "TS"] && symbol == "_Z" + special + name
    && |name| >= 2 && name[0] == 'N' && name[1] != '\n'
  }

  lemma MangledPart(symbol: string, special: string, name: string)
    requires Mangles(symbol, special, name)
    ensures NestedPart(symbol) == Some(UpToNewline(name))
  {
    hide UpToNewline;
    assert symbol[..2] == "_Z" && symbol[2..] == special + name;
    UpToNewlineIs(name[1..]);
    FirstOfLine(name);
    if special == "" {
      assert special + name == name;
    } else {
      SpecialIs(special, name);
    }
  }

  lemma SpecialIs(special: string, name: string)
    requires special in ["TV", "TT", "TI", "TS"]
    ensures var t := special + name; |t| >= 2 && t[0] == 'T' && t[1] in ['V', 'T', 'I', 'S'] && t[2..] == name
  {
  }

  lemma FirstOfLine(s: string)
    requires s != "" && s[0] != '\n'
    ensures UpToNewline(s) == [s[0]] + UpToNewline(s[1..])
  {
  }

  lemma PartIsMangled(symbol: string)
    requires NestedPart(symbol).Some?
    ensures exists special, name :: Mangles(symbol, special, name)
  {
    var t := symbol[2..];
    assert symbol == symbol[..2] + t;
    if |t| >= 2 && t[0] == 'T' && t[1] in ['V', 'T', 'I', 'S'] {
      UpToNewlineIs(t[2..][1..]);
      hide UpToNewline;
      assert t == [t[0], t[1]] + t[2..];
      assert Mangles(symbol, [t[0], t[1]], t[2..]);
    } else {
      UpToNewlineIs(t[1..]);
      hide UpToNewline;
      assert symbol == "_Z" + "" + t;
      assert Mangles(symbol, "", t);
    }
  }

  lemma NestedPartIs(symbol: string)
    ensures NestedPart(symbol).Some? <==> exists special, name :: Mangles(symbol, special, name)
    ensures forall special, name | Mangles(symbol, special, name) :: NestedPart(symbol) == Some(UpToNewline(name))
  {
    hide NestedPart, Mangles;
    forall special, name | Mangles(symbol, special, name) ensures NestedPart(symbol) == Some(UpToNewline(name)) {
      MangledPart(symbol, special, name);
    }
    if NestedPart(symbol).Some? {
      PartIsMangled(symbol);
    }
  }

  /** Any other symbol, if it does not mangle a nested name, is dropped. */
  lemma OtherManglingIsDropped(symbol: string, decorated: bool)
    requires var s := Undecorated(symbol, decorated); s != "" && (s[0] == '_' || s[0] == '.')
    requires forall special, name :: !Mangles(Undecorated(symbol, decorated), special, name)
    ensures ShouldKeep(symbol, decorated) == None
  {
    NestedPartIs(Undecorated(symbol, decorated));
    hide NestedPart;
  }

  /** A nested name that is too complex is dropped, and one that cannot be parsed is kept. */
  lemma FailureDecides(symbol: string, special: string, name: string, decorated: bool)
    requires Mangles(Undecorated(symbol, decorated), special, name) && '\n' !in name
    ensures ParseNested(name).TooComplex? ==> ShouldKeep(symbol, decorated) == None
    ensures ParseNested(name) == Done(None) ==> ShouldKeep(symbol, decorated) == Some(Undecorated(symbol, decorated))
  {
    NestedPartIs(Undecorated(symbol, decorated));
    UpToNewlineAll(name);
    assert Undecorated(symbol, decorated)[0] == '_';
    hide NestedPart, ParseNested;
  }

  /** So a name that never ends, and has no template arguments or none with an expression, is kept. */
  lemma EndlessIsKept(symbol: string, special: string, name: string, decorated: bool)
    requires Mangles(Undecorated(symbol, decorated), special, name) && '\n' !in name
    requires 'E' !in name && ('I' !in name || ('L' !in name && 'X' !in name))
    ensures ShouldKeep(symbol, decorated) == Some(Undecorated(symbol, decorated))
  {
    ParsedHasEnd(name);
    hide ParseNested;
    FailureDecides(symbol, special, name, decorated);
  }

  lemma {:induction false} PartsThen(parts: seq<Part>, tail: string, ret: seq<Component>)
    requires ValidParts(parts) && tail != "" && '\n' !in tail && tail[0] != 'I'
    ensures ParseComponents(PrintParts(parts) + tail, ret) == ParseComponents(tail, ret + ComponentsOf(parts))
    decreases parts
  {
    hide ParseComponents, PrintPart, ComponentOf, ValidPart;
    if parts == [] {
      assert PrintParts(parts) + tail == tail && ret + ComponentsOf(parts) == ret;
    } else {
      var next := PrintParts(parts[1..]) + tail;
      PartsNoNewline(parts[1..]);
      NextPart(parts[1..], tail);
      PartPrinted(parts[0], next, ret);
      PartsThen(parts[1..], tail, ret + [ComponentOf(parts[0])]);
      assert PrintParts(parts) + tail == PrintPart(parts[0]) + next;
      assert ret + [ComponentOf(parts[0])] + ComponentsOf(parts[1..]) == ret + ComponentsOf(parts);
    }
  }

  lemma NextPart(parts: seq<Part>, tail: string)
    requires ValidParts(parts) && tail != "" && tail[0] != 'I'
    ensures PrintParts(parts) + tail != "" && (PrintParts(parts) + tail)[0] != 'I'
    ensures parts != [] || (!IsQualifier(tail[0]) && tail[0] != 'S') ==>
              !IsQualifier((PrintParts(parts) + tail)[0]) && (PrintParts(parts) + tail)[0] != 'S'
  {
    if parts == [] {
      assert PrintParts(parts) + tail == tail;
    } else {
      FirstOfParts(parts, "");
      assert PrintPart(parts[0]) != "" by {
        if !parts[0].CtorDtor? {
          NumeralValue(|parts[0].id|);
        }
      }
      assert (PrintParts(parts) + "E" + "")[0] == (PrintParts(parts) + tail)[0];
    }
  }

  lemma {:induction false} ArgsThen(args: seq<Arg>, tail: string)
    requires ValidArgs(args) && tail != "" && '\n' !in tail
    ensures SkipArgs(PrintArgs(args) + tail) == SkipArgs(tail)
    decreases args
  {
    hide SkipArgs;
    if args == [] {
      assert PrintArgs(args) + tail == tail;
    } else {
      var next := PrintArgs(args[1..]) + tail;
      ArgsNoNewline(args[1..]);
      ArgsThen(args[1..], tail);
      SkipPrintedArg(args[0], next);
      assert PrintArgs(args) + tail == PrintArg(args[0]) + next;
    }
  }

  lemma ExpressionIsComplex(id: string, args: seq<Arg>, c: char, tail: string, ret: seq<Component>)
    requires IsIdentifier(id) && ValidArgs(args) && c in "LX" && '\n' !in tail
    ensures ParseComponents(SourceName(id) + ("I" + (PrintArgs(args) + ([c] + tail))), ret) == TooComplex
  {
    var inner := PrintArgs(args) + ([c] + tail);
    var rest := "I" + inner;
    ArgsNoNewline(args);
    ArgsThen(args, [c] + tail);
    assert SkipArgs([c] + tail) == TooComplex by {
      NoNumber([c] + tail);
    }
    hide PrintArgs, SkipArgs, ParseName;
    ParseSourceName(id, rest);
    StartsWithDigit(id, rest);
    assert rest[1..] == inner;
  }

  /** A name with an expression among its template arguments is dropped, whatever comes before and after it. */
  lemma ExpressionIsDropped(symbol: string, special: string, n: Nested, id: string, args: seq<Arg>, c: char,
                            tail: string, decorated: bool)
    requires special in ["", "TV", "TT", "TI", "TS"] && ValidNested(n) && IsIdentifier(id) && ValidArgs(args)
    requires c in "LX" && '\n' !in tail
    requires var name := "N" + PrintPrefix(n) + (PrintParts(n.parts) + (SourceName(id) + ("I" + (PrintArgs(args) + ([c] + tail)))));
             Undecorated(symbol, decorated) == "_Z" + special + name
    ensures ShouldKeep(symbol, decorated) == None
  {
    var last := SourceName(id) + ("I" + (PrintArgs(args) + ([c] + tail)));
    var body := PrintParts(n.parts) + last;
    var name := "N" + PrintPrefix(n) + body;
    NumeralNoNewline(|id|);
    ArgsNoNewline(args);
    PartsNoNewline(n.parts);
    StartsWithDigit(id, "I" + (PrintArgs(args) + ([c] + tail)));
    NextPart(n.parts, last);
    QualifiersNoNewline(n.qualifiers);
    assert '\n' !in body && '\n' !in name;
    PrefixTextSkipped(n, body);
    PartsThen(n.parts, last, []);
    ExpressionIsComplex(id, args, c, tail, [] + ComponentsOf(n.parts));
    assert name[1] != '\n' by {
      assert name[1] in name;
    }
    hide ParseComponents, AfterPrefix;
    assert ParseNested(name).TooComplex?;
    assert Mangles(Undecorated(symbol, decorated), special, name);
    FailureDecides(symbol, special, name, decorated);
  }

  /** The letters that are printed. */
  lemma PrintedExample()
    ensures PrintNested(Nested(Some("1"), "K", [Identifier("llvm"), Templated("Foo", [TypeArg('i')]), CtorDtor("C1")])) ==
              "NS1_K4llvm3FooIiEC1E"
  {
    var parts := [Identifier("llvm"), Templated("Foo", [TypeArg('i')]), CtorDtor("C1")];
    ExampleParts();
    hide PrintParts;
  }

  lemma ExampleParts()
    ensures PrintParts([Identifier("llvm"), Templated("Foo", [TypeArg('i')]), CtorDtor("C1")]) == "4llvm3FooIiEC1"
  {
    var foo, c1 := Templated("Foo", [TypeArg('i')]), CtorDtor("C1");
    assert SourceName("llvm") == "4llvm" && SourceName("Foo") == "3Foo";
    assert [TypeArg('i')][1..] == [] && PrintArgs([TypeArg('i')]) == "i";
    assert PrintPart(foo) == "3FooIiE" && PrintPart(c1) == "C1";
    hide PrintPart;
    assert [c1][1..] == [] && PrintParts([]) == "" && PrintParts([c1]) == "C1";
    assert [foo, c1][1..] == [c1] && PrintParts([foo, c1]) == "3FooIiE" + "C1";
    assert PrintPart(Identifier("llvm")) == "4llvm" by {
      PartText("llvm");
    }
    assert [Identifier("llvm"), foo, c1][1..] == [foo, c1];
  }

  lemma PartText(id: string)
    ensures PrintPart(Identifier(id)) == SourceName(id)
  {
  }
}
