/** What the scanner of abaqus_lexer.py does on each kind of input, one step at a time, and
    what holds of a whole scan: rule priorities, mode switches, line counting, error
    recovery, the mode stack, and the independence of token values from the position. */
module LexerProperties {
  import opened Text
  import opened Regexes
  import opened Lexer

  // ---------------------------------------------------------------- rule priority

  /** The characters a match of `rule` can begin with. */
  predicate CanStart(rule: Rule, c: char) {
    match rule
    case KeywordRule => c == '*'
    case CommentRule => c == '*' || IsBlank(c)
    case NewlineAloneRule => c == '\n'
    case HeaderNewlineRule => c == '\n'
    case LastTokenOnLineRule => c == '\n'
    case FloatRule => IsDigit(c) || c == '.'
    case HexRule => c == '0'
    case BadOctalRule => c == '0'
    case OctalRule => c == '0'
    case DecimalRule => IsDigit(c)
    case CharRule => c == '\''
    case UnmatchedQuoteRule => c == '\''
    case BadCharRule => c == '\''
    case WcharRule => c == 'L'
    case WstringRule => c == 'L'
    case StringRule => c == '"'
    case BadStringRule => c == '"'
    case IdRule => IsIdentStart(c)
    case ParamRule => IsIdentStart(c)
    case PeriodRule => c == '.'
    case EqualsRule => c == '='
    case CommaRule => c == ','
    case ContinueRule => c == ','
  }

  lemma {:induction false} MatchNeedsStart(rule: Rule, rest: string)
    ensures Match(rule, rest).Some? ==> |rest| > 0 && CanStart(rule, rest[0])
  {
    if rule == CommentRule && Match(rule, rest).Some? {
      var b := Span(rest, 0, IsBlank);
      assert b == 0 ==> rest[0] == '*';
    }
  }

  /** The rule at index `k` wins when it matches and no earlier rule does. */
  lemma {:induction false} FirstMatchAt(rules: seq<Rule>, rest: string, k: nat)
    requires k < |rules| && Match(rules[k], rest).Some?
    requires forall j :: 0 <= j < k ==> Match(rules[j], rest).None?
    ensures FirstMatch(rules, rest) == Some(Matched(k, rules[k], Match(rules[k], rest).value))
  {
    if k > 0 {
      FirstMatchAt(rules[1..], rest, k - 1);
    }
  }

  /** Rules that cannot start with the first character of `rest` do not match it. */
  lemma {:induction false} NoEarlierStart(rules: seq<Rule>, rest: string, k: nat)
    requires |rest| > 0 && k <= |rules|
    requires forall j :: 0 <= j < k ==> !CanStart(rules[j], rest[0])
    ensures forall j :: 0 <= j < k ==> Match(rules[j], rest).None?
  {
    forall j | 0 <= j < k ensures Match(rules[j], rest).None? {
      MatchNeedsStart(rules[j], rest);
    }
  }

  /** When no rule of a mode can start with the character, nothing matches. */
  lemma {:induction false} NoRuleStarts(mode: Mode, rest: string)
    requires |rest| > 0
    requires forall j :: 0 <= j < |RulesOf(mode)| ==> !CanStart(RulesOf(mode)[j], rest[0])
    ensures FirstMatch(RulesOf(mode), rest).None?
  {
    NoEarlierStart(RulesOf(mode), rest, |RulesOf(mode)|);
  }

  /** The rules a mode puts before the initial mode's all fail on `rest`. */
  predicate OwnRulesFail(mode: Mode, rest: string) {
    forall j :: 0 <= j < |OwnRules(mode)| ==> Match(OwnRules(mode)[j], rest).None?
  }

  /** Outside a newline, an identifier in `keywordstate` and a continuation comma, the
      rules of a mode's own come to nothing. */
  lemma {:induction false} OwnRulesFailOn(mode: Mode, rest: string)
    requires |rest| > 0 && rest[0] != '\n'
    requires mode == KeywordState ==> !IsIdentStart(rest[0]) && !(rest[0] == ',' && |rest| >= 2 && rest[1] == '\n')
    ensures OwnRulesFail(mode, rest)
  {
    match mode
    case Initial =>
    case KeywordState =>
      assert MatchIdentifier(rest).None? && MatchContinue(rest).None? && MatchNewline(rest).None?;
    case DataLineState =>
      assert MatchNewlines(rest).None?;
  }

  /** Rules put in front of a list that all fail on `rest` only shift the winner's index. */
  lemma {:induction false} FirstMatchSkips(prefix: seq<Rule>, rules: seq<Rule>, rest: string)
    requires forall j :: 0 <= j < |prefix| ==> Match(prefix[j], rest).None?
    ensures FirstMatch(prefix + rules, rest)
            == match FirstMatch(rules, rest)
               case None => None
               case Some(m) => Some(Matched(m.index + |prefix|, m.rule, m.len))
    decreases |prefix|
  {
    if |prefix| == 0 {
      assert prefix + rules == rules;
    } else {
      assert (prefix + rules)[0] == prefix[0];
      assert (prefix + rules)[1..] == prefix[1..] + rules;
      FirstMatchSkips(prefix[1..], rules, rest);
    }
  }

  /** Rule `k` of the initial mode wins in every mode when it matches, no earlier rule of
      the initial mode matches, and the mode's own rules fail. */
  lemma {:induction false} InitialRuleWins(mode: Mode, rest: string, k: nat)
    requires |rest| > 0 && k < |InitialRules| && Match(InitialRules[k], rest).Some?
    requires forall j :: 0 <= j < k ==> Match(InitialRules[j], rest).None?
    requires OwnRulesFail(mode, rest)
    ensures FirstMatch(RulesOf(mode), rest)
            == Some(Matched(|OwnRules(mode)| + k, InitialRules[k], Match(InitialRules[k], rest).value))
  {
    RuleWinsAfter(OwnRules(mode), InitialRules, rest, k);
  }

  /** Rule `k` of `rules` wins behind rules that all fail when it matches and no earlier
      rule of `rules` does. */
  lemma {:induction false} RuleWinsAfter(prefix: seq<Rule>, rules: seq<Rule>, rest: string, k: nat)
    requires k < |rules| && Match(rules[k], rest).Some?
    requires forall j :: 0 <= j < k ==> Match(rules[j], rest).None?
    requires forall j :: 0 <= j < |prefix| ==> Match(prefix[j], rest).None?
    ensures FirstMatch(prefix + rules, rest) == Some(Matched(|prefix| + k, rules[k], Match(rules[k], rest).value))
  {
    FirstMatchAt(rules, rest, k);
    FirstMatchSkips(prefix, rules, rest);
  }

  /** A step where rule `k` of the initial mode wins is that rule's action on the text it
      matched. */
  lemma {:induction false} InitialRuleSteps(rest: string, mode: Mode, saved: seq<Mode>, lineno: nat, k: nat)
    requires |rest| > 0 && !IsBlank(rest[0]) && StackOk(mode, saved)
    requires k < |InitialRules| && Match(InitialRules[k], rest).Some?
    requires InitialRules[k] != HeaderNewlineRule && InitialRules[k] != ContinueRule
    requires forall j :: 0 <= j < k ==> Match(InitialRules[j], rest).None?
    requires OwnRulesFail(mode, rest)
    ensures StepOn(rest, mode, saved, lineno)
            == Act(InitialRules[k], rest[..Match(InitialRules[k], rest).value], mode, saved, lineno)
  {
    InitialRuleWins(mode, rest, k);
  }

  // ---------------------------------------------------------------- headers

  /** `*name` starts a header in every mode: a KEYWORD token whose value drops the `*`, is
      non-empty and starts with a letter, and `keywordstate` is pushed without popping, so
      the stack grows by one. */
  lemma {:induction false} HeaderPushesKeywordState(rest: string, mode: Mode, saved: seq<Mode>, lineno: nat)
    requires |rest| >= 2 && rest[0] == '*' && IsLetter(rest[1]) && StackOk(mode, saved)
    ensures var o := StepOn(rest, mode, saved, lineno);
            && o.emission.Emit? && o.emission.kind == Keyword
            && |o.emission.value| >= 1 && IsLetter(o.emission.value[0])
            && o.emission.value == rest[1..o.advance]
            && (forall k :: 0 <= k < |o.emission.value| ==> IsIdentChar(o.emission.value[k]))
            && (o.advance == |rest| || !IsIdentChar(rest[o.advance]))
            && o.mode == KeywordState && o.saved == saved + [mode] && o.lineno == lineno
  {
    OwnRulesFailOn(mode, rest);
    InitialRuleSteps(rest, mode, saved, lineno, 0);
    var n := MatchKeyword(rest).value;
    assert rest[..n][1..] == rest[1..n];
  }

  /** In `keywordstate` a lone newline ends the header: no token, one more line, and the
      current mode becomes `datalinestate` whatever mode the header started from; the saved
      stack is unchanged. */
  lemma {:induction false} HeaderNewlineEntersDataLines(rest: string, saved: seq<Mode>, lineno: nat)
    requires |rest| > 0 && rest[0] == '\n' && |saved| > 0
    ensures StepOn(rest, KeywordState, saved, lineno) == Outcome(1, DataLineState, saved, lineno + 1, Silent)
  {
    assert Match(RulesOf(KeywordState)[2], rest).Some?;
    FirstMatchAt(RulesOf(KeywordState), rest, 2);
    assert rest[..1] == "\n";
  }

  /** In `keywordstate` a comma directly followed by a newline is one COMMA token with value
      `,`; the newline is not counted and the mode stays. */
  lemma {:induction false} ContinuationIsComma(rest: string, saved: seq<Mode>, lineno: nat)
    requires HasAt(rest, 0, ",\n") && |saved| > 0
    ensures StepOn(rest, KeywordState, saved, lineno) == Outcome(2, KeywordState, saved, lineno, Emit(Comma, ","))
  {
    assert rest[0] == ',';
    FirstMatchAt(RulesOf(KeywordState), rest, 1);
  }

  /** A comma not followed by a newline is a COMMA token in every mode. */
  lemma {:induction false} CommaIsComma(rest: string, mode: Mode, saved: seq<Mode>, lineno: nat)
    requires |rest| > 0 && rest[0] == ',' && !(|rest| >= 2 && rest[1] == '\n') && StackOk(mode, saved)
    ensures StepOn(rest, mode, saved, lineno) == Outcome(1, mode, saved, lineno, Emit(Comma, ","))
  {
    NoEarlierStart(InitialRules, rest, 18);
    OwnRulesFailOn(mode, rest);
    InitialRuleSteps(rest, mode, saved, lineno, 18);
    assert rest[..1] == ",";
  }

  /** `=` is an EQUALS token in every mode. */
  lemma {:induction false} EqualsIsEquals(rest: string, mode: Mode, saved: seq<Mode>, lineno: nat)
    requires |rest| > 0 && rest[0] == '=' && StackOk(mode, saved)
    ensures StepOn(rest, mode, saved, lineno) == Outcome(1, mode, saved, lineno, Emit(Equals, "="))
  {
    NoEarlierStart(InitialRules, rest, 17);
    OwnRulesFailOn(mode, rest);
    InitialRuleSteps(rest, mode, saved, lineno, 17);
    assert rest[..1] == "=";
  }

  /** `.` not starting a fraction is a PERIOD token in every mode. */
  lemma {:induction false} PeriodIsPeriod(rest: string, mode: Mode, saved: seq<Mode>, lineno: nat)
    requires |rest| > 0 && rest[0] == '.' && (|rest| == 1 || !IsDigit(rest[1])) && StackOk(mode, saved)
    ensures StepOn(rest, mode, saved, lineno) == Outcome(1, mode, saved, lineno, Emit(Period, "."))
  {
    assert MatchFloat(rest).None?;
    forall j | 0 <= j < 16 ensures Match(InitialRules[j], rest).None? {
      if j != 3 { MatchNeedsStart(InitialRules[j], rest); }
    }
    OwnRulesFailOn(mode, rest);
    InitialRuleSteps(rest, mode, saved, lineno, 16);
    assert rest[..1] == ".";
  }

  // ---------------------------------------------------------------- newlines and comments

  /** In `datalinestate` a maximal run of newlines is exactly one LASTTOKENONLINE token
      holding the run, and the line counter grows by its length. */
  lemma {:induction false} NewlineRunInDataLines(rest: string, saved: seq<Mode>, lineno: nat)
    requires |rest| > 0 && rest[0] == '\n'
    ensures var o := StepOn(rest, DataLineState, saved, lineno);
            && o.emission == Emit(LastTokenOnLine, rest[..o.advance])
            && (forall k :: 0 <= k < o.advance ==> rest[k] == '\n')
            && (o.advance == |rest| || rest[o.advance] != '\n')
            && o.mode == DataLineState && o.saved == saved && o.lineno == lineno + o.advance
  {
    FirstMatchAt(RulesOf(DataLineState), rest, 0);
  }

  /** In the initial mode a maximal run of newlines yields no token and the line counter
      grows by its length. */
  lemma {:induction false} NewlineRunInInitial(rest: string, saved: seq<Mode>, lineno: nat)
    requires |rest| > 0 && rest[0] == '\n'
    ensures var o := StepOn(rest, Initial, saved, lineno);
            && o.emission == Silent
            && (forall k :: 0 <= k < o.advance ==> rest[k] == '\n')
            && (o.advance == |rest| || rest[o.advance] != '\n')
            && o.mode == Initial && o.saved == saved && o.lineno == lineno + o.advance
  {
    NoEarlierStart(InitialRules, rest, 2);
    InitialRuleSteps(rest, Initial, saved, lineno, 2);
  }

  /** A comment, `**` up to the end of its line, yields no token in every mode, leaves the
      mode and the stack alone, and does not count the newline it swallows. */
  lemma {:induction false} CommentIsSilent(rest: string, mode: Mode, saved: seq<Mode>, lineno: nat)
    requires HasAt(rest, 0, "**") && StackOk(mode, saved)
    requires exists k :: 2 <= k < |rest| && rest[k] == '\n'
    ensures var o := StepOn(rest, mode, saved, lineno);
            && o.emission == Silent
            && o.mode == mode && o.saved == saved && o.lineno == lineno
            && rest[o.advance - 1] == '\n'
            && (forall k :: 0 <= k < o.advance - 1 ==> rest[k] != '\n')
  {
    assert NewlineFrom(rest, 2);
    assert rest[0] == '*' && rest[1] == '*';
    assert MatchKeyword(rest).None?;
    OwnRulesFailOn(mode, rest);
    CommentSteps(rest, mode, saved, lineno, MatchComment(rest).value);
  }

  /** When the comment rule is the first to match, the step skips what it matched. */
  lemma {:induction false} CommentSteps(rest: string, mode: Mode, saved: seq<Mode>, lineno: nat, n: nat)
    requires |rest| > 0 && rest[0] == '*' && StackOk(mode, saved)
    requires MatchKeyword(rest).None? && MatchComment(rest) == Some(n)
    requires OwnRulesFail(mode, rest)
    ensures StepOn(rest, mode, saved, lineno) == Outcome(n, mode, saved, lineno, Silent)
  {
    assert InitialRules[0] == KeywordRule && InitialRules[1] == CommentRule;
    InitialRuleSteps(rest, mode, saved, lineno, 1);
  }

  // ---------------------------------------------------------------- names and numbers

  /** In `keywordstate` an identifier is a PARAM token: the PARAM rule comes first. */
  lemma {:induction false} IdentifierIsParamInHeader(rest: string, saved: seq<Mode>, lineno: nat)
    requires |rest| > 0 && IsIdentStart(rest[0]) && |saved| > 0
    ensures var o := StepOn(rest, KeywordState, saved, lineno);
            && o.emission == Emit(Param, rest[..o.advance])
            && (forall k :: 0 <= k < o.advance ==> IsIdentChar(rest[k]))
            && (o.advance == |rest| || !IsIdentChar(rest[o.advance]))
            && o.mode == KeywordState && o.saved == saved && o.lineno == lineno
  {
    FirstMatchAt(RulesOf(KeywordState), rest, 0);
  }

  /** Outside `keywordstate` an identifier is an ID token, unless an `L` starts a wide
      character or string literal. */
  lemma {:induction false} IdentifierIsIdElsewhere(rest: string, mode: Mode, saved: seq<Mode>, lineno: nat)
    requires |rest| > 0 && IsIdentStart(rest[0]) && mode != KeywordState && StackOk(mode, saved)
    requires rest[0] == 'L' ==> MatchWcharConst(rest).None? && MatchWstring(rest).None?
    ensures var o := StepOn(rest, mode, saved, lineno);
            && o.advance <= |rest|
            && o.emission == Emit(Id, rest[..o.advance])
            && (forall k :: 0 <= k < o.advance ==> IsIdentChar(rest[k]))
            && (o.advance == |rest| || !IsIdentChar(rest[o.advance]))
            && o.mode == mode && o.saved == saved && o.lineno == lineno
  {
    IdentifierPassesEarlierRules(rest);
    OwnRulesFailOn(mode, rest);
    InitialRuleSteps(rest, mode, saved, lineno, 14);
  }

  /** No rule before ID matches an identifier that does not start a wide literal. */
  lemma {:induction false} IdentifierPassesEarlierRules(rest: string)
    requires |rest| > 0 && IsIdentStart(rest[0])
    requires rest[0] == 'L' ==> MatchWcharConst(rest).None? && MatchWstring(rest).None?
    ensures forall j :: 0 <= j < 14 ==> Match(InitialRules[j], rest).None?
  {
    forall j | 0 <= j < 14 ensures Match(InitialRules[j], rest).None? {
      MatchNeedsStart(InitialRules[j], rest);
    }
  }

  /** A number the float regex matches is a FLOAT_CONST in every mode, because the float
      rule precedes the integer rules. */
  lemma {:induction false} FloatBeforeIntegers(rest: string, mode: Mode, saved: seq<Mode>, lineno: nat)
    requires |rest| > 0 && MatchFloat(rest).Some? && StackOk(mode, saved)
    ensures var o := StepOn(rest, mode, saved, lineno);
            && o.advance == MatchFloat(rest).value
            && o.emission == Emit(FloatConst, rest[..o.advance])
            && o.mode == mode && o.saved == saved && o.lineno == lineno
  {
    MatchNeedsStart(FloatRule, rest);
    NoEarlierStart(InitialRules, rest, 3);
    OwnRulesFailOn(mode, rest);
    InitialRuleSteps(rest, mode, saved, lineno, 3);
  }

  /** A lone `0` is an INT_CONST_OCT token, not an INT_CONST_DEC: the octal rule, which
      matches every leading zero, comes first. */
  lemma {:induction false} LoneZeroIsOctal(rest: string, mode: Mode, saved: seq<Mode>, lineno: nat)
    requires |rest| > 0 && rest[0] == '0' && StackOk(mode, saved)
    requires |rest| == 1 || (!IsIdentChar(rest[1]) && rest[1] != '.')
    ensures StepOn(rest, mode, saved, lineno) == Outcome(1, mode, saved, lineno, Emit(IntConstOct, "0"))
  {
    LoneZeroMatches(rest);
    NoEarlierStart(InitialRules, rest, 3);
    OwnRulesFailOn(mode, rest);
    OctalSteps(rest, mode, saved, lineno);
  }

  /** When OCT is the first rule to match, and matches one character, the step emits `0`. */
  lemma {:induction false} OctalSteps(rest: string, mode: Mode, saved: seq<Mode>, lineno: nat)
    requires |rest| > 0 && rest[0] == '0' && StackOk(mode, saved)
    requires MatchOctal(rest) == Some(1)
    requires forall j :: 0 <= j < 6 ==> Match(InitialRules[j], rest).None?
    requires OwnRulesFail(mode, rest)
    ensures StepOn(rest, mode, saved, lineno) == Outcome(1, mode, saved, lineno, Emit(IntConstOct, "0"))
  {
    assert InitialRules[6] == OctalRule;
    InitialRuleSteps(rest, mode, saved, lineno, 6);
    assert rest[..1] == "0";
  }

  /** A run of digits not starting with `0` and not followed by a letter, digit, `_` or `.`
      is an INT_CONST_DEC token. */
  lemma {:induction false} DigitsAreDecimal(rest: string, mode: Mode, saved: seq<Mode>, lineno: nat, d: nat)
    requires 0 < d <= |rest| && '1' <= rest[0] <= '9' && StackOk(mode, saved)
    requires forall k :: 0 <= k < d ==> IsDigit(rest[k])
    requires d == |rest| || (!IsIdentChar(rest[d]) && rest[d] != '.')
    ensures StepOn(rest, mode, saved, lineno) == Outcome(d, mode, saved, lineno, Emit(IntConstDec, rest[..d]))
  {
    DigitsMatch(rest, d);
    DigitsPassEarlierRules(rest, d);
    OwnRulesFailOn(mode, rest);
    DecimalSteps(rest, mode, saved, lineno, d);
  }

  /** When INT_CONST_DEC is the first rule to match, the step emits what it matched. */
  lemma {:induction false} DecimalSteps(rest: string, mode: Mode, saved: seq<Mode>, lineno: nat, d: nat)
    requires |rest| > 0 && !IsBlank(rest[0]) && StackOk(mode, saved) && 0 < d <= |rest|
    requires MatchDecimal(rest) == Some(d)
    requires forall j :: 0 <= j < 7 ==> Match(InitialRules[j], rest).None?
    requires OwnRulesFail(mode, rest)
    ensures StepOn(rest, mode, saved, lineno) == Outcome(d, mode, saved, lineno, Emit(IntConstDec, rest[..d]))
  {
    assert InitialRules[7] == DecimalRule;
    InitialRuleSteps(rest, mode, saved, lineno, 7);
  }

  /** No rule before INT_CONST_DEC matches such a run of digits. */
  lemma {:induction false} DigitsPassEarlierRules(rest: string, d: nat)
    requires 0 < d <= |rest| && '1' <= rest[0] <= '9'
    requires forall k :: 0 <= k < d ==> IsDigit(rest[k])
    requires d == |rest| || (!IsIdentChar(rest[d]) && rest[d] != '.')
    ensures forall j :: 0 <= j < 7 ==> Match(InitialRules[j], rest).None?
  {
    DigitsMatch(rest, d);
    forall j | 0 <= j < 7 ensures Match(InitialRules[j], rest).None? {
      if j != 3 { MatchNeedsStart(InitialRules[j], rest); }
    }
  }

  lemma {:induction false} LoneZeroMatches(rest: string)
    requires |rest| > 0 && rest[0] == '0'
    requires |rest| == 1 || (!IsIdentChar(rest[1]) && rest[1] != '.')
    ensures MatchFloat(rest).None? && MatchHex(rest).None? && MatchBadOctal(rest).None?
    ensures MatchOctal(rest) == Some(1)
  {
    assert Span(rest, 0, IsDigit) == 1;
    assert FractionLength(rest) == 0;
    assert Span(rest, 1, IsOctDigit) == 0;
  }

  lemma {:induction false} DigitsMatch(rest: string, d: nat)
    requires 0 < d <= |rest| && '1' <= rest[0] <= '9'
    requires forall k :: 0 <= k < d ==> IsDigit(rest[k])
    requires d == |rest| || (!IsIdentChar(rest[d]) && rest[d] != '.')
    ensures MatchFloat(rest).None? && MatchDecimal(rest) == Some(d)
  {
    SpanIs(rest, 0, IsDigit, d);
    assert FractionLength(rest) == 0;
  }

  /** A run of characters that all satisfy `p`, ended by one that does not, is the span. */
  lemma {:induction false} SpanIs(s: seq<char>, i: nat, p: char -> bool, n: nat)
    requires i + n <= |s|
    requires forall k :: i <= k < i + n ==> p(s[k])
    requires i + n == |s| || !p(s[i + n])
    ensures Span(s, i, p) == n
    decreases n
  {
    if n > 0 {
      SpanIs(s, i + 1, p, n - 1);
    }
  }

  // ---------------------------------------------------------------- errors

  /** `0[0-7]*[89]` (not part of a float) is reported once as an invalid octal constant,
      and scanning resumes one character after the end of the match. */
  lemma {:induction false} BadOctalReported(rest: string, mode: Mode, saved: seq<Mode>, lineno: nat)
    requires MatchBadOctal(rest).Some? && MatchFloat(rest).None? && StackOk(mode, saved)
    ensures StepOn(rest, mode, saved, lineno)
            == Outcome(MatchBadOctal(rest).value + 1, mode, saved, lineno, Report(InvalidOctal))
  {
    assert rest[0] == '0';
    assert MatchHex(rest).None?;
    NoEarlierStart(InitialRules, rest, 3);
    OwnRulesFailOn(mode, rest);
    InitialRuleSteps(rest, mode, saved, lineno, 5);
  }

  /** A quote that starts no character constant and runs to the end of its line is
      reported once as unmatched; scanning resumes one character after the match, so the
      newline that ends the match does not reach the newline rules. */
  lemma {:induction false} UnmatchedQuoteReported(rest: string, mode: Mode, saved: seq<Mode>, lineno: nat)
    requires MatchUnmatchedQuote(rest).Some? && MatchCharConst(rest).None? && StackOk(mode, saved)
    ensures StepOn(rest, mode, saved, lineno)
            == Outcome(MatchUnmatchedQuote(rest).value + 1, mode, saved, lineno, Report(UnmatchedQuote))
  {
    MatchNeedsStart(UnmatchedQuoteRule, rest);
    UnmatchedQuotePassesEarlierRules(rest);
    OwnRulesFailOn(mode, rest);
    InitialRuleSteps(rest, mode, saved, lineno, 10);
  }

  /** No rule before the unmatched-quote rule matches where the character rule fails. */
  lemma {:induction false} UnmatchedQuotePassesEarlierRules(rest: string)
    requires MatchUnmatchedQuote(rest).Some? && MatchCharConst(rest).None?
    ensures forall j :: 0 <= j < 10 ==> Match(InitialRules[j], rest).None?
  {
    MatchNeedsStart(UnmatchedQuoteRule, rest);
    forall j | 0 <= j < 10 ensures Match(InitialRules[j], rest).None? {
      if j != 8 { MatchNeedsStart(InitialRules[j], rest); }
    }
  }

  /** A malformed character constant is reported once with its text. */
  lemma {:induction false} BadCharReported(rest: string, mode: Mode, saved: seq<Mode>, lineno: nat)
    requires MatchBadCharConst(rest).Some? && MatchCharConst(rest).None? && MatchUnmatchedQuote(rest).None?
    requires StackOk(mode, saved)
    ensures var n := MatchBadCharConst(rest).value;
            StepOn(rest, mode, saved, lineno)
            == Outcome(n + 1, mode, saved, lineno, Report(InvalidCharConstant(rest[..n])))
  {
    MatchNeedsStart(BadCharRule, rest);
    BadCharPassesEarlierRules(rest);
    OwnRulesFailOn(mode, rest);
    InitialRuleSteps(rest, mode, saved, lineno, 11);
  }

  /** No rule before the malformed-character rule matches where it is the first of the
      quote rules to match. */
  lemma {:induction false} BadCharPassesEarlierRules(rest: string)
    requires MatchBadCharConst(rest).Some? && MatchCharConst(rest).None? && MatchUnmatchedQuote(rest).None?
    ensures forall j :: 0 <= j < 11 ==> Match(InitialRules[j], rest).None?
  {
    MatchNeedsStart(BadCharRule, rest);
    forall j | 0 <= j < 11 ensures Match(InitialRules[j], rest).None? {
      if j != 8 && j != 10 { MatchNeedsStart(InitialRules[j], rest); }
    }
  }

  /** A string literal with an invalid escape is reported once. */
  lemma {:induction false} BadStringReported(rest: string, mode: Mode, saved: seq<Mode>, lineno: nat)
    requires MatchBadString(rest).Some? && StackOk(mode, saved)
    ensures StepOn(rest, mode, saved, lineno)
            == Outcome(MatchBadString(rest).value + 1, mode, saved, lineno, Report(InvalidStringEscape))
  {
    MatchNeedsStart(BadStringRule, rest);
    forall j | 0 <= j < 13 ensures Match(InitialRules[j], rest).None? {
      MatchNeedsStart(InitialRules[j], rest);
    }
    OwnRulesFailOn(mode, rest);
    InitialRuleSteps(rest, mode, saved, lineno, 13);
  }

  /** A character no rule can start with goes to the mode's error handler, which reports
      it once and skips exactly that character. */
  lemma {:induction false} StrayCharacterReported(rest: string, mode: Mode, saved: seq<Mode>, lineno: nat)
    requires |rest| > 0 && StackOk(mode, saved)
    requires !IsBlank(rest[0]) && !IsIdentStart(rest[0]) && !IsDigit(rest[0]) && rest[0] !in "*\n.'\"=,"
    ensures StepOn(rest, mode, saved, lineno)
            == Outcome(1, mode, saved, lineno, Report(ErrorHandler(mode, rest[0])))
  {
    NoRuleStarts(mode, rest);
  }

  /** Every report leaves the mode, the stack and the line counter as they were. A rule's
      report resumes one character after its match; the error handler's resumes one
      character after the offending one. */
  lemma {:induction false} ReportsResume(rest: string, mode: Mode, saved: seq<Mode>, lineno: nat)
    requires |rest| > 0 && StackOk(mode, saved)
    ensures var o := StepOn(rest, mode, saved, lineno);
            var m := FirstMatch(RulesOf(mode), rest);
            && (o.emission.Report? ==> o.mode == mode && o.saved == saved && o.lineno == lineno)
            && (o.emission.Report? && m.None? ==> o.advance == 1 && o.emission.error == ErrorHandler(mode, rest[0]))
            && (o.emission.Report? && m.Some? ==> IsErrorRule(m.value.rule) && o.advance == m.value.len + 1)
  {
  }
}
