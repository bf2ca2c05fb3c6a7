/** The rule language of egg variables: a parser, an evaluator that loops over the rules, and the resolution of the
    environment of a new server. */
module Rules {
  import opened Common
  import opened Text

  /** A JavaScript number, with exact finite values. */
  datatype Num = NaN | NegInf | Fin(value: real) | PosInf

  predicate Less(a: Num, b: Num) {
    match (a, b)
    case (Fin(x), Fin(y)) => x < y
    case (NegInf, Fin(_)) => true
    case (NegInf, PosInf) => true
    case (Fin(_), PosInf) => true
    case _ => false
  }

  predicate IsInteger(a: Num) {
    a.Fin? && a.value.Floor as real == a.value
  }

  datatype Match = Matches | Differs | BadPattern

  /** What the JavaScript host provides: Number(text) and new RegExp(pattern).test(text). */
  datatype Host = Host(number: string -> Num, test: (string, string) -> Match)

  datatype Rule =
    | Required | Nullable | IsString | Numeric | Integer | Boolean
    | Between(params: seq<string>)
    | In(options: seq<string>)
    | Regex(pattern: string)
    | Min(arg: string)
    | Max(arg: string)
    | Unknown(text: string)

  datatype Error =
    | IsRequired | NotNumeric | NotInteger | NotBoolean
    | NotBetween(min: Num, max: Num)
    | NotOneOf(options: seq<string>)
    | PatternMismatch | InvalidPattern
    | BelowMin(min: Num) | TooShort(min: Num) | AboveMax(max: Num) | TooLong(max: Num)

  // ------------------------------------------------------------------------------------------------
  // Parsing.

  /** White space and line terminators of ECMA-262, which trim() removes. */
  predicate IsTrimSpace(c: char) {
    var n := c as int;
    || 0x9 <= n <= 0xD || n == 0x20 || n == 0xA0 || n == 0x1680 || 0x2000 <= n <= 0x200A
    || n == 0x2028 || n == 0x2029 || n == 0x202F || n == 0x205F || n == 0x3000 || n == 0xFEFF
  }

  function TrimStart(s: string): string {
    if s != "" && IsTrimSpace(s[0]) then TrimStart(s[1..]) else s
  }

  function TrimEnd(s: string): string {
    if s != "" && IsTrimSpace(s[|s| - 1]) then TrimEnd(s[..|s| - 1]) else s
  }

  function Trim(s: string): string {
    TrimEnd(TrimStart(s))
  }

  function LastIndexOf(s: string, c: char): int
  {
    if s == "" then -1
    else if s[|s| - 1] == c then |s| - 1
    else LastIndexOf(s[..|s| - 1], c)
  }

  function StripDelimiters(pattern: string): string
  {
    var last := LastIndexOf(pattern, '/');
    if pattern != "" && pattern[0] == '/' && 0 < last <= |pattern| then pattern[1..last] else pattern
  }

  function ParseRule(rule: string): Rule {
    if rule == "required" then Required
    else if rule == "nullable" then Nullable
    else if rule == "string" then IsString
    else if rule == "numeric" then Numeric
    else if rule == "integer" then Integer
    else if rule == "boolean" then Boolean
    else if "between:" <= rule then Between(Split(rule[8..], ','))
    else if "in:" <= rule then In(Split(rule[3..], ','))
    else if "regex:" <= rule then Regex(StripDelimiters(rule[6..]))
    else if "min:" <= rule then Min(rule[4..])
    else if "max:" <= rule then Max(rule[4..])
    else Unknown(rule)
  }

  function ParseParts(parts: seq<string>): seq<Rule> {
    if parts == [] then [] else [ParseRule(Trim(parts[0]))] + ParseParts(parts[1..])
  }

  function Parse(rules: string): seq<Rule> {
    ParseParts(Split(rules, '|'))
  }

  // ------------------------------------------------------------------------------------------------
  // Meaning.

  predicate IsEmpty(value: Option<string>) {
    value.None? || value.value == ""
  }

  predicate NumericType(rules: seq<Rule>) {
    Numeric in rules || Integer in rules
  }

  /** What one rule says about a non-empty value; `numeric` says that min and max compare numbers, not lengths. */
  predicate Holds(host: Host, numeric: bool, value: string, rule: Rule) {
    var n := host.number(value);
    match rule
    case Required => true
    case Nullable => true
    case IsString => true
    case Numeric => n != NaN
    case Integer => IsInteger(n)
    case Boolean => value in ["true", "false", "1", "0"]
    case Between(params) =>
      |params| == 2 ==> n != NaN && !Less(n, host.number(params[0])) && !Less(host.number(params[1]), n)
    case In(options) => value in options
    case Regex(pattern) => host.test(pattern, value) == Matches
    case Min(arg) =>
      if numeric then n != NaN && !Less(n, host.number(arg)) else !Less(Fin(|value| as real), host.number(arg))
    case Max(arg) =>
      if numeric then n != NaN && !Less(host.number(arg), n) else !Less(host.number(arg), Fin(|value| as real))
    case Unknown(_) => true
  }

  /** The declarative reading: an empty value is accepted unless required, another one when every rule holds. */
  predicate Accepts(host: Host, value: Option<string>, rules: seq<Rule>) {
    if IsEmpty(value) then Required !in rules
    else forall r :: r in rules ==> Holds(host, NumericType(rules), value.value, r)
  }

  /** The error a broken rule is reported with. */
  function Report(host: Host, numeric: bool, value: string, rule: Rule): Error {
    match rule
    case Numeric => NotNumeric
    case Integer => NotInteger
    case Boolean => NotBoolean
    case Between(params) =>
      if |params| == 2 then NotBetween(host.number(params[0]), host.number(params[1])) else IsRequired
    case In(options) => NotOneOf(options)
    case Regex(pattern) => if host.test(pattern, value) == Differs then PatternMismatch else InvalidPattern
    case Min(arg) => if numeric then BelowMin(host.number(arg)) else TooShort(host.number(arg))
    case Max(arg) => if numeric then AboveMax(host.number(arg)) else TooLong(host.number(arg))
    case _ => IsRequired
  }

  /** The reports of the broken rules, in rule order. */
  function Reports(host: Host, numeric: bool, value: string, rules: seq<Rule>): seq<Error> {
    if rules == [] then []
    else
      (if Holds(host, numeric, value, rules[0]) then [] else [Report(host, numeric, value, rules[0])])
      + Reports(host, numeric, value, rules[1..])
  }

  function Errors(host: Host, value: Option<string>, rules: seq<Rule>): seq<Error> {
    if IsEmpty(value) then (if Required in rules then [IsRequired] else [])
    else Reports(host, NumericType(rules), value.value, rules)
  }

  lemma {:induction false} ReportsConcat(host: Host, numeric: bool, value: string, xs: seq<Rule>, ys: seq<Rule>)
    ensures Reports(host, numeric, value, xs + ys)
         == Reports(host, numeric, value, xs) + Reports(host, numeric, value, ys)
  {
    if xs == [] {
      assert xs + ys == ys;
    } else {
      assert (xs + ys)[0] == xs[0] && (xs + ys)[1..] == xs[1..] + ys;
      ReportsConcat(host, numeric, value, xs[1..], ys);
    }
  }

  lemma {:induction false} NoReportsIff(host: Host, numeric: bool, value: string, rules: seq<Rule>)
    ensures Reports(host, numeric, value, rules) == []
       <==> forall r :: r in rules ==> Holds(host, numeric, value, r)
  {
    if rules != [] {
      NoReportsIff(host, numeric, value, rules[1..]);
      assert forall r :: r in rules <==> r == rules[0] || r in rules[1..];
    }
  }

  /** MAIN RESULT. The evaluator reports no error exactly when the conjunction of the rules holds. */
  lemma NoErrorsIffAccepts(host: Host, value: Option<string>, rules: seq<Rule>)
    ensures Errors(host, value, rules) == [] <==> Accepts(host, value, rules)
  {
    if !IsEmpty(value) {
      NoReportsIff(host, NumericType(rules), value.value, rules);
    }
  }

  // ------------------------------------------------------------------------------------------------
  // What the text of the rules says, without the parser.

  predicate AsksForNumber(parts: seq<string>) {
    exists i :: 0 <= i < |parts| && (Trim(parts[i]) == "numeric" || Trim(parts[i]) == "integer")
  }

  /** What one trimmed rule text demands of a value that is not empty; any other text demands nothing. */
  predicate TextHolds(host: Host, numeric: bool, value: string, rule: string) {
    var n := host.number(value);
    && (rule == "numeric" ==> n != NaN)
    && (rule == "integer" ==> n.Fin? && n.value.Floor as real == n.value)
    && (rule == "boolean" ==> value in {"true", "false", "1", "0"})
    && ("between:" <= rule ==>
          var params := Split(rule[8..], ',');
          |params| == 2 ==> n != NaN && !Less(n, host.number(params[0])) && !Less(host.number(params[1]), n))
    && ("in:" <= rule ==> value in Split(rule[3..], ','))
    && ("regex:" <= rule ==> host.test(StripDelimiters(rule[6..]), value) == Matches)
    && ("min:" <= rule ==>
          var size := if numeric then n else Fin(|value| as real);
          size != NaN && !Less(size, host.number(rule[4..])))
    && ("max:" <= rule ==>
          var size := if numeric then n else Fin(|value| as real);
          size != NaN && !Less(host.number(rule[4..]), size))
  }

  /** The characters that tell the rule texts apart. */
  lemma RuleHeads(rule: string)
    ensures "between:" <= rule ==> |rule| >= 8 && rule[0] == 'b' && rule[1] == 'e'
    ensures "in:" <= rule ==> |rule| >= 3 && rule[0] == 'i' && rule[1] == 'n' && rule[2] == ':'
    ensures "regex:" <= rule ==> |rule| >= 6 && rule[0] == 'r' && rule[2] == 'g'
    ensures "min:" <= rule ==> |rule| >= 4 && rule[0] == 'm' && rule[1] == 'i'
    ensures "max:" <= rule ==> |rule| >= 4 && rule[0] == 'm' && rule[1] == 'a'
    ensures rule == "boolean" ==> rule[0] == 'b' && rule[1] == 'o'
    ensures rule == "integer" ==> rule[0] == 'i' && rule[2] == 't'
    ensures rule == "required" ==> rule[0] == 'r' && rule[2] == 'q'
    ensures rule == "nullable" || rule == "numeric" ==> rule[0] == 'n'
    ensures rule == "string" ==> rule[0] == 's'
  {
  }

  /** The parser reads every text for what it says. */
  lemma TextIsParsed(host: Host, numeric: bool, value: string, rule: string)
    ensures Holds(host, numeric, value, ParseRule(rule)) <==> TextHolds(host, numeric, value, rule)
  {
    RuleHeads(rule);
  }

  lemma {:induction false} ParsePartsAt(parts: seq<string>)
    ensures |ParseParts(parts)| == |parts|
    ensures forall i :: 0 <= i < |parts| ==> ParseParts(parts)[i] == ParseRule(Trim(parts[i]))
  {
    if parts != [] {
      ParsePartsAt(parts[1..]);
    }
  }

  lemma ParsedIs(rule: string)
    ensures ParseRule(rule) == Required <==> rule == "required"
    ensures ParseRule(rule) == Numeric <==> rule == "numeric"
    ensures ParseRule(rule) == Integer <==> rule == "integer"
  {
  }

  /** The i-th rule is the one that the i-th text is read as. */
  lemma RuleFromText(rules: string, r: Rule)
    ensures |Parse(rules)| == |Split(rules, '|')|
    ensures r in Parse(rules) <==>
      exists i :: 0 <= i < |Split(rules, '|')| && ParseRule(Trim(Split(rules, '|')[i])) == r
  {
    var parts, parsed := Split(rules, '|'), Parse(rules);
    ParsePartsAt(parts);
    if r in parsed {
      var i :| 0 <= i < |parsed| && parsed[i] == r;
      assert ParseRule(Trim(parts[i])) == r;
    }
    if i :| 0 <= i < |parts| && ParseRule(Trim(parts[i])) == r {
      assert parsed[i] == r;
    }
  }

  lemma FlagsFromText(rules: string)
    ensures var parts := Split(rules, '|');
      && (Required in Parse(rules) <==> exists i :: 0 <= i < |parts| && Trim(parts[i]) == "required")
      && (NumericType(Parse(rules)) <==> AsksForNumber(parts))
  {
    var parts := Split(rules, '|');
    forall i | 0 <= i < |parts|
      ensures ParseRule(Trim(parts[i])) == Required <==> Trim(parts[i]) == "required"
      ensures ParseRule(Trim(parts[i])) == Numeric <==> Trim(parts[i]) == "numeric"
      ensures ParseRule(Trim(parts[i])) == Integer <==> Trim(parts[i]) == "integer"
    {
      ParsedIs(Trim(parts[i]));
    }
    RuleFromText(rules, Required);
    RuleFromText(rules, Numeric);
    RuleFromText(rules, Integer);
  }

  ghost predicate AllTextsHold(host: Host, numeric: bool, value: string, parts: seq<string>) {
    forall i :: 0 <= i < |parts| ==> TextHolds(host, numeric, value, Trim(parts[i]))
  }

  lemma {:induction false} RulesFromTexts(host: Host, numeric: bool, value: string, parts: seq<string>)
    ensures (forall r :: r in ParseParts(parts) ==> Holds(host, numeric, value, r)) <==>
      AllTextsHold(host, numeric, value, parts)
  {
    if parts != [] {
      var head, tail := parts[0], parts[1..];
      TextIsParsed(host, numeric, value, Trim(head));
      RulesFromTexts(host, numeric, value, tail);
      assert parts == [head] + tail;
      assert forall r :: r in ParseParts(parts) <==> r == ParseRule(Trim(head)) || r in ParseParts(tail);
      assert forall i :: 0 < i < |parts| ==> parts[i] == tail[i - 1];
      assert AllTextsHold(host, numeric, value, parts) ==> TextHolds(host, numeric, value, Trim(parts[0]));
      if AllTextsHold(host, numeric, value, parts) {
        forall i | 0 <= i < |tail|
          ensures TextHolds(host, numeric, value, Trim(tail[i]))
        {
          assert TextHolds(host, numeric, value, Trim(parts[i + 1]));
        }
      }
    }
  }

  /** MAIN RESULT. Acceptance, from the text of the rules: an empty value is accepted unless one of the texts is
      "required", and another one when it meets the demand of every text. */
  lemma AcceptsFromText(host: Host, value: Option<string>, rules: string)
    ensures var parts := Split(rules, '|');
      && (value.None? || value.value == "" ==>
            (Accepts(host, value, Parse(rules)) <==>
               forall i :: 0 <= i < |parts| ==> Trim(parts[i]) != "required"))
      && (value.Some? && value.value != "" ==>
            (Accepts(host, value, Parse(rules)) <==> AllTextsHold(host, AsksForNumber(parts), value.value, parts)))
  {
    FlagsFromText(rules);
    if value.Some? {
      RulesFromTexts(host, NumericType(Parse(rules)), value.value, Split(rules, '|'));
    }
  }

  /** A single rule: exactly its plain condition. */
  lemma SingleRule(host: Host, value: string, rule: string)
    requires value != "" && '|' !in rule && Trim(rule) == rule
    ensures var valid, n := Accepts(host, Some(value), Parse(rule)), host.number(value);
      && (rule == "numeric" ==> (valid <==> n != NaN))
      && (rule == "integer" ==> (valid <==> n.Fin? && n.value.Floor as real == n.value))
      && (rule == "boolean" ==> (valid <==> value == "true" || value == "false" || value == "1" || value == "0"))
      && ("in:" <= rule ==> (valid <==> value in Split(rule[3..], ',')))
      && ("regex:" <= rule ==> (valid <==> host.test(StripDelimiters(rule[6..]), value) == Matches))
      && ("min:" <= rule ==> (valid <==> !Less(Fin(|value| as real), host.number(rule[4..]))))
      && ("max:" <= rule ==> (valid <==> !Less(host.number(rule[4..]), Fin(|value| as real))))
      && (rule in {"required", "nullable", "string"} ==> valid)
  {
    AcceptsFromText(host, Some(value), rule);
    SplitWithout(rule, '|');
    RuleHeads(rule);
    var parts := Split(rule, '|');
    assert parts[0] == rule;
    assert AsksForNumber(parts) ==> rule == "numeric" || rule == "integer";
    assert Accepts(host, Some(value), Parse(rule)) <==> TextHolds(host, AsksForNumber(parts), value, rule);
  }

  /** Bounds are inclusive, for numbers and for lengths. */
  lemma BoundsAreInclusive(host: Host, value: string, bound: string, x: real, m: real)
    requires host.number(bound) == Fin(m) && host.number(value) == Fin(x)
    ensures TextHolds(host, true, value, "min:" + bound) <==> x >= m
    ensures TextHolds(host, true, value, "max:" + bound) <==> x <= m
    ensures TextHolds(host, false, value, "min:" + bound) <==> |value| as real >= m
    ensures TextHolds(host, false, value, "max:" + bound) <==> |value| as real <= m
  {
    RuleHeads("min:" + bound);
    RuleHeads("max:" + bound);
    assert ("min:" + bound)[4..] == bound && ("max:" + bound)[4..] == bound;
  }

  lemma NoNumberIsNoBound(host: Host, value: string, bound: string)
    requires host.number(bound) == NaN
    ensures TextHolds(host, false, value, "min:" + bound) && TextHolds(host, false, value, "max:" + bound)
    ensures TextHolds(host, true, value, "min:" + bound) <==> host.number(value) != NaN
    ensures TextHolds(host, true, value, "max:" + bound) <==> host.number(value) != NaN
  {
    RuleHeads("min:" + bound);
    RuleHeads("max:" + bound);
    assert ("min:" + bound)[4..] == bound && ("max:" + bound)[4..] == bound;
  }

  /** `/pattern/flags` is the pattern; a text that does not start with a slash, or has no other, stands for itself. */
  lemma DelimitersAreStripped(pattern: string, flags: string)
    ensures '/' !in flags ==> StripDelimiters("/" + pattern + "/" + flags) == pattern
    ensures pattern == "" || pattern[0] != '/' || '/' !in pattern[1..] ==> StripDelimiters(pattern) == pattern
  {
    if '/' !in flags {
      LastSlash("/" + pattern, flags);
      assert ("/" + pattern + "/" + flags)[1..|pattern| + 1] == pattern;
    }
    if pattern != "" && pattern[0] == '/' && '/' !in pattern[1..] {
      LastSlash("", pattern[1..]);
      assert pattern == "" + "/" + pattern[1..];
    }
  }

  lemma {:induction false} LastSlash(before: string, after: string)
    requires '/' !in after
    ensures LastIndexOf(before + "/" + after, '/') == |before|
    decreases |after|
  {
    var s := before + "/" + after;
    if after == "" {
      assert s == before + "/";
    } else {
      var n := |after| - 1;
      assert s[|s| - 1] == after[n] && after[n] in after && s[..|s| - 1] == before + "/" + after[..n];
      LastSlash(before, after[..n]);
    }
  }

  /** trim drops white space at both ends and nothing else. */
  lemma TrimIs(before: string, core: string, after: string)
    requires forall c :: c in before + after ==> IsTrimSpace(c)
    requires core != "" ==> !IsTrimSpace(core[0]) && !IsTrimSpace(core[|core| - 1])
    ensures Trim(before + core + after) == core
  {
    TrimStartIs(before, core + after);
    assert before + core + after == before + (core + after);
    if core == "" {
      assert core + after == after;
      assert TrimStart(after) == "" by { TrimStartIs(after, ""); assert after + "" == after; }
      TrimStartIs(before + after, "");
      assert before + core + after == before + after + "";
    } else {
      assert TrimStart(core + after) == core + after;
      TrimEndIs(core, after);
    }
  }

  lemma {:induction false} TrimStartIs(before: string, rest: string)
    requires forall c :: c in before ==> IsTrimSpace(c)
    ensures TrimStart(before + rest) == TrimStart(rest)
  {
    if before == "" {
      assert before + rest == rest;
    } else {
      assert before[0] in before && (before + rest)[1..] == before[1..] + rest;
      TrimStartIs(before[1..], rest);
    }
  }

  lemma {:induction false} TrimEndIs(rest: string, after: string)
    requires forall c :: c in after ==> IsTrimSpace(c)
    ensures TrimEnd(rest + after) == TrimEnd(rest)
    decreases |after|
  {
    if after == "" {
      assert rest + after == rest;
    } else {
      var n := |after| - 1;
      var s := rest + after;
      assert after[n] in after && s[|s| - 1] == after[n] && s[..|s| - 1] == rest + after[..n];
      TrimEndIs(rest, after[..n]);
    }
  }

  // ------------------------------------------------------------------------------------------------
  // The evaluator.

  lemma BlankParses(rules: string)
    requires Trim(rules) == "" && '|' !in rules
    ensures Parse(rules) == [Unknown("")]
  {
    SplitWithout(rules, '|');
    assert [rules][1..] == [];
    assert ParseParts([rules][1..]) == [];
  }

  lemma {:induction false} BlankIsSpace(s: string)
    requires TrimEnd(s) == ""
    ensures forall c :: c in s ==> IsTrimSpace(c)
    decreases |s|
  {
    if s != "" {
      BlankIsSpace(s[..|s| - 1]);
      assert s == s[..|s| - 1] + [s[|s| - 1]];
    }
  }

  lemma {:induction false} TrimmedBlank(s: string)
    requires Trim(s) == ""
    ensures '|' !in s
  {
    if s != "" && IsTrimSpace(s[0]) {
      TrimmedBlank(s[1..]);
      assert s == [s[0]] + s[1..];
    } else {
      BlankIsSpace(s);
    }
  }

  /** The chain of branches inside the loop over the rules. */
  method CheckRule(host: Host, isNumericType: bool, text: string, rule: Rule) returns (errors: seq<Error>)
    ensures errors == if Holds(host, isNumericType, text, rule) then [] else [Report(host, isNumericType, text, rule)]
    ensures errors != [] ==>
      && (rule == Numeric ==> errors == [NotNumeric])
      && (rule == Integer ==> errors == [NotInteger])
      && (rule == Boolean ==> errors == [NotBoolean])
      && (rule.Between? ==> |rule.params| == 2)
      && (rule.Between? && |rule.params| == 2 ==>
            errors == [NotBetween(host.number(rule.params[0]), host.number(rule.params[1]))])
      && (rule.In? ==> errors == [NotOneOf(rule.options)])
      && (rule.Regex? ==>
            errors == [if host.test(rule.pattern, text) == BadPattern then InvalidPattern else PatternMismatch])
      && (rule.Min? ==>
            errors == [if isNumericType then BelowMin(host.number(rule.arg)) else TooShort(host.number(rule.arg))])
      && (rule.Max? ==>
            errors == [if isNumericType then AboveMax(host.number(rule.arg)) else TooLong(host.number(rule.arg))])
  {
    errors := [];
    var number := host.number(text);
    match rule {
      case Required =>
      case Nullable =>
      case IsString =>
      case Unknown(_) =>
      case Numeric =>
        if number == NaN { errors := [NotNumeric]; }
      case Integer =>
        if !IsInteger(number) || number == NaN { errors := [NotInteger]; }
      case Boolean =>
        if text !in ["true", "false", "1", "0"] { errors := [NotBoolean]; }
      case Between(params) =>
        if |params| == 2 {
          var min, max := host.number(params[0]), host.number(params[1]);
          if number == NaN || Less(number, min) || Less(max, number) {
            errors := [NotBetween(min, max)];
          }
        }
      case In(options) =>
        if text !in options { errors := [NotOneOf(options)]; }
      case Regex(pattern) =>
        match host.test(pattern, text) {
          case Matches =>
          case Differs => errors := [PatternMismatch];
          case BadPattern => errors := [InvalidPattern];
        }
      case Min(arg) =>
        var min := host.number(arg);
        if isNumericType {
          if number == NaN || Less(number, min) { errors := [BelowMin(min)]; }
        } else if Less(Fin(|text| as real), min) {
          errors := [TooShort(min)];
        }
      case Max(arg) =>
        var max := host.number(arg);
        if isNumericType {
          if number == NaN || Less(max, number) { errors := [AboveMax(max)]; }
        } else if Less(max, Fin(|text| as real)) {
          errors := [TooLong(max)];
        }
    }
  }

  lemma BlankHasNoErrors(host: Host, value: Option<string>, rules: string)
    requires Trim(rules) == ""
    ensures Errors(host, value, Parse(rules)) == []
  {
    TrimmedBlank(rules);
    BlankParses(rules);
    assert [Unknown("")][1..] == [];
    assert value.Some? ==> Reports(host, false, value.value, [Unknown("")][1..]) == [];
  }

  /** The loop over the rules of a value that is not empty. */
  method CheckRules(host: Host, text: string, ruleList: seq<Rule>) returns (errors: seq<Error>)
    ensures errors == Reports(host, NumericType(ruleList), text, ruleList)
  {
    errors := [];
    var isNumericType := Numeric in ruleList || Integer in ruleList;
    for i := 0 to |ruleList|
      invariant errors == Reports(host, isNumericType, text, ruleList[..i])
    {
      var broken := CheckRule(host, isNumericType, text, ruleList[i]);
      ReportsConcat(host, isNumericType, text, ruleList[..i], [ruleList[i]]);
      assert ruleList[..i + 1] == ruleList[..i] + [ruleList[i]] && [ruleList[i]][1..] == [];
      assert Reports(host, isNumericType, text, [ruleList[i]]) == broken + Reports(host, isNumericType, text, []);
      errors := errors + broken;
    }
    assert ruleList[..|ruleList|] == ruleList;
  }

  method ValidateVariableValue(host: Host, value: Option<string>, rules: string)
    returns (valid: bool, errors: seq<Error>)
    ensures errors == Errors(host, value, Parse(rules))
    ensures valid <==> errors == []
    ensures valid <==> Accepts(host, value, Parse(rules))
    ensures var parts := Split(rules, '|');
      && (value.None? || value.value == "" ==>
            && (valid <==> forall i :: 0 <= i < |parts| ==> Trim(parts[i]) != "required")
            && (!valid ==> errors == [IsRequired]))
      && (value.Some? && value.value != "" ==>
            (valid <==> AllTextsHold(host, AsksForNumber(parts), value.value, parts)))
    ensures value.Some? && value.value != "" && '|' !in rules && Trim(rules) == rules ==>
      var v, n := value.value, host.number(value.value);
      && (rules == "numeric" ==> (valid <==> n != NaN))
      && (rules == "integer" ==> (valid <==> n.Fin? && n.value.Floor as real == n.value))
      && (rules == "boolean" ==> (valid <==> v == "true" || v == "false" || v == "1" || v == "0"))
      && ("in:" <= rules ==> (valid <==> v in Split(rules[3..], ',')))
      && ("regex:" <= rules ==> (valid <==> host.test(StripDelimiters(rules[6..]), v) == Matches))
      && ("min:" <= rules ==> (valid <==> !Less(Fin(|v| as real), host.number(rules[4..]))))
      && ("max:" <= rules ==> (valid <==> !Less(host.number(rules[4..]), Fin(|v| as real))))
  {
    NoErrorsIffAccepts(host, value, Parse(rules));
    AcceptsFromText(host, value, rules);
    if value.Some? && value.value != "" && '|' !in rules && Trim(rules) == rules {
      SingleRule(host, value.value, rules);
    }
    errors := [];
    if Trim(rules) == "" {
      BlankHasNoErrors(host, value, rules);
      return true, errors;
    }
    var ruleList := Parse(rules);
    var isNullable := Nullable in ruleList;
    var isRequired := Required in ruleList;
    if IsEmpty(value) {
      if isRequired {
        errors := errors + [IsRequired];
      }
      if isNullable || !isRequired {
        return errors == [], errors;
      }
      return false, errors;
    }
    var text := value.value;
    errors := CheckRules(host, text, ruleList);
    valid := errors == [];
  }

  // ------------------------------------------------------------------------------------------------
  // Laws of the rule language.

  lemma SameElements(xs: seq<Rule>, ys: seq<Rule>)
    requires multiset(xs) == multiset(ys)
    ensures forall r :: r in xs <==> r in ys
  {
    assert forall r :: r in xs <==> r in multiset(xs);
    assert forall r :: r in ys <==> r in multiset(ys);
  }

  lemma TakeOut(ys: seq<Rule>, j: nat)
    requires j < |ys|
    ensures multiset(ys[..j] + ys[j + 1..]) == multiset(ys) - multiset{ys[j]}
  {
    assert ys == ys[..j] + ([ys[j]] + ys[j + 1..]);
  }

  lemma ReportsTakeOut(host: Host, numeric: bool, value: string, ys: seq<Rule>, j: nat)
    requires j < |ys|
    ensures multiset(Reports(host, numeric, value, ys))
         == multiset(Reports(host, numeric, value, [ys[j]]))
            + multiset(Reports(host, numeric, value, ys[..j] + ys[j + 1..]))
  {
    var before, x, after := ys[..j], [ys[j]], ys[j + 1..];
    assert ys == before + (x + after);
    ReportsConcat(host, numeric, value, before, x + after);
    ReportsConcat(host, numeric, value, x, after);
    ReportsConcat(host, numeric, value, before, after);
  }

  lemma {:induction false} ReportsPermute(host: Host, numeric: bool, value: string, xs: seq<Rule>, ys: seq<Rule>)
    requires multiset(xs) == multiset(ys)
    ensures multiset(Reports(host, numeric, value, xs)) == multiset(Reports(host, numeric, value, ys))
    decreases |xs|
  {
    if xs == [] {
      assert |ys| == |multiset(ys)| == 0;
    } else {
      SameElements(xs, ys);
      assert xs[0] in ys;
      var j :| 0 <= j < |ys| && ys[j] == xs[0];
      var xs', ys' := xs[1..], ys[..j] + ys[j + 1..];
      assert multiset(xs') == multiset(ys') by {
        TakeOut(ys, j);
        assert xs == [xs[0]] + xs';
      }
      ReportsPermute(host, numeric, value, xs', ys');
      ReportsTakeOut(host, numeric, value, ys, j);
      assert xs == [xs[0]] + xs';
      ReportsConcat(host, numeric, value, [xs[0]], xs');
    }
  }

  /** MAIN RESULT. The order of the rules does not matter: the verdict is the same and the errors are permuted. */
  lemma RuleOrderIsIrrelevant(host: Host, value: Option<string>, xs: seq<Rule>, ys: seq<Rule>)
    requires multiset(xs) == multiset(ys)
    ensures Accepts(host, value, xs) <==> Accepts(host, value, ys)
    ensures multiset(Errors(host, value, xs)) == multiset(Errors(host, value, ys))
  {
    SameElements(xs, ys);
    if !IsEmpty(value) {
      ReportsPermute(host, NumericType(xs), value.value, xs, ys);
    }
  }

  /** Adding a rule other than numeric and integer only narrows: it keeps every error, so it never
      turns an invalid value into a valid one. */
  lemma AddingRulesNarrows(host: Host, value: Option<string>, rules: seq<Rule>, added: Rule)
    requires !added.Numeric? && !added.Integer?
    ensures Accepts(host, value, rules + [added]) ==> Accepts(host, value, rules)
    ensures multiset(Errors(host, value, rules)) <= multiset(Errors(host, value, rules + [added]))
  {
    assert NumericType(rules + [added]) <==> NumericType(rules);
    if !IsEmpty(value) {
      ReportsConcat(host, NumericType(rules), value.value, rules, [added]);
    }
  }

  /** Adding the rule never makes an invalid value valid. */
  ghost predicate OnlyNarrows(added: Rule) {
    forall host, value, rules :: Accepts(host, value, rules + [added]) ==> Accepts(host, value, rules)
  }

  /** Host functions for the witness below, on which the text "9" is the number 9 and everything else is 5. */
  function NineOrFive(text: string): Num {
    Fin(if text == "9" then 9.0 else 5.0)
  }

  function AlwaysMatches(pattern: string, text: string): Match {
    Matches
  }

  /** As a text "9" is shorter than 5 characters; as a number it is not below 5. */
  lemma NumericTypeWidens(added: Rule)
    requires added.Numeric? || added.Integer?
    ensures var host := Host(NineOrFive, AlwaysMatches);
      !Accepts(host, Some("9"), [Min("5")]) && Accepts(host, Some("9"), [Min("5")] + [added])
  {
    var host, rules := Host(NineOrFive, AlwaysMatches), [Min("5")] + [added];
    assert Min("5") in [Min("5")] && added in rules;
    assert !Holds(host, false, "9", Min("5"));
    assert 9.0 == (9.0 as int) as real;
  }

  /** MAIN RESULT. A rule can be added without ever making an invalid value valid exactly when it is neither numeric
      nor integer, which change what min and max compare. */
  lemma AddingNarrowsIff(added: Rule)
    ensures OnlyNarrows(added) <==> !added.Numeric? && !added.Integer?
  {
    if added.Numeric? || added.Integer? {
      NumericTypeWidens(added);
    } else {
      forall host, value, rules
        ensures Accepts(host, value, rules + [added]) ==> Accepts(host, value, rules)
      {
        AddingRulesNarrows(host, value, rules, added);
      }
    }
  }

  predicate NoTrailingSpace(s: string) {
    s == "" || !IsTrimSpace(s[|s| - 1])
  }

  lemma TrimKeeps(s: string)
    requires s != "" && !IsTrimSpace(s[0]) && NoTrailingSpace(s)
    ensures Trim(s) == s
  {
  }

  lemma ParseCons(rule: string, rest: string)
    requires '|' !in rule && Trim(rule) == rule
    ensures Parse(rule + "|" + rest) == [ParseRule(rule)] + Parse(rest)
    ensures Parse(rule) == [ParseRule(rule)]
  {
    SplitFirst(rule, rest, '|');
    assert ([rule] + Split(rest, '|'))[1..] == Split(rest, '|');
    SplitWithout(rule, '|');
    assert ParseParts([rule]) == [ParseRule(rule)] + ParseParts([rule][1..]);
    assert [rule][1..] == [];
  }

  lemma ParseMin(a: string)
    ensures ParseRule("min:" + a) == Min(a)
  {
    var rule := "min:" + a;
    assert rule[0] == 'm' && rule[1] == 'i' && rule[4..] == a;
    NotPrefixAt("between:", rule, 0);
    NotPrefixAt("in:", rule, 0);
    NotPrefixAt("regex:", rule, 0);
    assert rule[0] != "required"[0] && rule[0] != "nullable"[0] && rule[0] != "string"[0];
    assert rule[0] != "numeric"[0] && rule[0] != "integer"[0] && rule[0] != "boolean"[0];
  }

  lemma ParseMax(b: string)
    ensures ParseRule("max:" + b) == Max(b)
  {
    var rule := "max:" + b;
    assert rule[0] == 'm' && rule[1] == 'a' && rule[4..] == b;
    NotPrefixAt("between:", rule, 0);
    NotPrefixAt("in:", rule, 0);
    NotPrefixAt("regex:", rule, 0);
    NotPrefixAt("min:", rule, 1);
    assert rule[0] != "required"[0] && rule[0] != "nullable"[0] && rule[0] != "string"[0];
    assert rule[0] != "numeric"[0] && rule[0] != "integer"[0] && rule[0] != "boolean"[0];
  }

  lemma ParseBetween(a: string, b: string)
    requires ',' !in a && ',' !in b
    ensures ParseRule("between:" + a + "," + b) == Between([a, b])
  {
    var rule := "between:" + a + "," + b;
    assert rule[0] == 'b' && rule[1] == 'e' && rule[8..] == a + [','] + b;
    assert rule[0] != "required"[0] && rule[0] != "nullable"[0] && rule[0] != "string"[0];
    assert rule[0] != "numeric"[0] && rule[0] != "integer"[0] && rule[1] != "boolean"[1];
    SplitFirst(a, b, ',');
    SplitWithout(b, ',');
  }

  lemma ParseTwo(x: string, y: string)
    requires '|' !in x && '|' !in y && Trim(x) == x && Trim(y) == y
    ensures Parse(x + "|" + y) == [ParseRule(x), ParseRule(y)]
  {
    ParseCons(x, y);
    ParseCons(y, "");
  }

  lemma ParseThree(x: string, y: string, z: string)
    requires '|' !in x && '|' !in y && '|' !in z && Trim(x) == x && Trim(y) == y && Trim(z) == z
    ensures Parse(x + "|" + (y + "|" + z)) == [ParseRule(x), ParseRule(y), ParseRule(z)]
  {
    ParseCons(x, y + "|" + z);
    ParseTwo(y, z);
  }

  /** A prefix ending in a colon, followed by text without a trailing space. */
  lemma Prefixed(prefix: string, a: string)
    requires prefix != "" && !IsTrimSpace(prefix[0]) && !IsTrimSpace(prefix[|prefix| - 1]) && '|' !in prefix
    requires NoTrailingSpace(a) && '|' !in a
    ensures Trim(prefix + a) == prefix + a && '|' !in prefix + a
  {
    var s := prefix + a;
    assert s[|s| - 1] == if a == "" then prefix[|prefix| - 1] else a[|a| - 1];
    TrimKeeps(s);
  }

  lemma ParseMinMax(integer: string, lo: string, hi: string, a: string, b: string)
    requires integer == "integer" && lo == "min:" + a && hi == "max:" + b
    requires '|' !in a && '|' !in b && NoTrailingSpace(a) && NoTrailingSpace(b)
    ensures Parse(integer + "|" + (lo + "|" + hi)) == [Integer, Min(a), Max(b)]
  {
    TrimKeeps(integer);
    Prefixed("min:", a);
    Prefixed("max:", b);
    ParseThree(integer, lo, hi);
    ParseMin(a);
    ParseMax(b);
  }

  lemma ParseIntegerBetween(integer: string, range: string, a: string, b: string)
    requires integer == "integer" && range == "between:" + a + "," + b
    requires '|' !in a && '|' !in b && ',' !in a && ',' !in b && NoTrailingSpace(b)
    ensures Parse(integer + "|" + range) == [Integer, Between([a, b])]
  {
    TrimKeeps(integer);
    Prefixed("between:" + a + ",", b);
    ParseTwo(integer, range);
    ParseBetween(a, b);
  }

  lemma PinnedBoundsAreBetween(
    host: Host, value: Option<string>, integer: string, lo: string, hi: string, range: string, a: string,
    b: string)
    requires integer == "integer" && lo == "min:" + a && hi == "max:" + b && range == "between:" + a + "," + b
    requires '|' !in a && '|' !in b && ',' !in a && ',' !in b && NoTrailingSpace(a) && NoTrailingSpace(b)
    ensures Accepts(host, value, Parse(integer + "|" + (lo + "|" + hi)))
       <==> Accepts(host, value, Parse(integer + "|" + range))
  {
    ParseMinMax(integer, lo, hi, a, b);
    ParseIntegerBetween(integer, range, a, b);
    SameBounds(host, value, a, b);
  }

  /** MAIN RESULT. `integer|min:a|max:b` and `integer|between:a,b` accept the same values, down to the text of the
      rules. */
  lemma BoundsAreBetween(host: Host, value: Option<string>, a: string, b: string)
    requires '|' !in a && '|' !in b && ',' !in a && ',' !in b && NoTrailingSpace(a) && NoTrailingSpace(b)
    ensures Accepts(host, value, Parse("integer" + "|" + ("min:" + a + "|" + ("max:" + b))))
       <==> Accepts(host, value, Parse("integer" + "|" + ("between:" + a + "," + b)))
  {
    PinnedBoundsAreBetween(host, value, "integer", "min:" + a, "max:" + b, "between:" + a + "," + b, a, b);
  }

  lemma SameBounds(host: Host, value: Option<string>, a: string, b: string)
    ensures Accepts(host, value, [Integer, Min(a), Max(b)]) <==> Accepts(host, value, [Integer, Between([a, b])])
  {
    var xs, ys := [Integer, Min(a), Max(b)], [Integer, Between([a, b])];
    assert Integer in xs && Min(a) in xs && Max(b) in xs && Integer in ys && Between([a, b]) in ys;
  }
}
