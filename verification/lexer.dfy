/** The mode-dependent scanner of abaqus_lexer.py (`AbaqusLexer`), as PLY runs it.

    PLY keeps one ordered list of rules per mode and tries them at the current position
    in that order; the first rule whose regex matches wins, whatever the length of the
    other matches. A mode's list is its own function rules in source order, then (both
    extra modes being inclusive) the function rules of the initial mode in source order,
    then the initial mode's string rules. Before any rule is tried, a character of the
    mode's ignore set is skipped. When no rule matches, the mode's error handler runs.

    The scanner is a pure function of the whole input. Its state is a position, the line
    counter, the mode stack and the current mode; the `error_func` callback becomes a
    `Diag` event in the output, interleaved with the tokens in the order they occur. */
module Lexer {
  import opened Text
  import opened Regexes

  /** The lexer states: INITIAL, `keywordstate` and `datalinestate`. */
  datatype Mode = Initial | KeywordState | DataLineState

  /** Token types. INT_CONST_OCT and INT_CONST_HEX are returned by their rules although the
      `tokens` tuple does not declare them. */
  datatype Kind =
    | Keyword | Id | Param
    | IntConstDec | IntConstOct | IntConstHex | FloatConst
    | CharConst | WcharConst | StringLiteral | WstringLiteral
    | Equals | Comma | Period | LastTokenOnLine

  /** A token: type, value, the line counter when it was matched, and its offset. */
  datatype Token = Token(kind: Kind, value: string, lineno: nat, lexpos: nat)

  /** The anomalies the scanner reports through `error_func`. */
  datatype LexError =
    | InvalidOctal                      // "Invalid octal constant"
    | UnmatchedQuote                    // "Unmatched '"
    | InvalidCharConstant(text: string) // "Invalid char constant %s"
    | InvalidStringEscape               // "String contains invalid escape code"
    | IllegalCharacter(c: char)         // "Illegal character %s", the initial error handler
    | InvalidKeyword                    // "invalid keyword", the keywordstate error handler

  /** One call of `error_func(msg, line, column)`. */
  datatype Diagnostic = Diagnostic(error: LexError, lineno: nat, column: nat)

  datatype Event = Tok(token: Token) | Diag(diagnostic: Diagnostic)

  // ---------------------------------------------------------------- rules

  datatype Rule =
    // function rules of the initial mode, in source order
    | KeywordRule | CommentRule | NewlineAloneRule | FloatRule | HexRule | BadOctalRule
    | OctalRule | DecimalRule | CharRule | WcharRule | UnmatchedQuoteRule | BadCharRule
    | WstringRule | BadStringRule | IdRule
    // string rules of the initial mode, longest regex first
    | StringRule | PeriodRule | EqualsRule | CommaRule
    // function rules of keywordstate
    | ParamRule | ContinueRule | HeaderNewlineRule
    // function rule of datalinestate
    | LastTokenOnLineRule

  const InitialRules: seq<Rule> :=
    [KeywordRule, CommentRule, NewlineAloneRule, FloatRule, HexRule, BadOctalRule,
     OctalRule, DecimalRule, CharRule, WcharRule, UnmatchedQuoteRule, BadCharRule,
     WstringRule, BadStringRule, IdRule,
     StringRule, PeriodRule, EqualsRule, CommaRule]

  /** The rules a mode declares itself; PLY tries them before the initial mode's rules,
      which both inclusive modes inherit. */
  function OwnRules(m: Mode): seq<Rule> {
    match m
    case Initial => []
    case KeywordState => [ParamRule, ContinueRule, HeaderNewlineRule]
    case DataLineState => [LastTokenOnLineRule]
  }

  /** The rules of a mode in the order they are tried. */
  function RulesOf(m: Mode): (r: seq<Rule>)
    ensures HeaderNewlineRule in r ==> m == KeywordState
  {
    OwnRules(m) + InitialRules
  }

  /** What a rule's regex matches at the start of `rest`. */
  function Match(rule: Rule, rest: string): (r: Option<nat>)
    ensures r.Some? ==> 1 <= r.value <= |rest|
  {
    match rule
    case KeywordRule => MatchKeyword(rest)
    case CommentRule => MatchComment(rest)
    case NewlineAloneRule => MatchNewlines(rest)
    case FloatRule => MatchFloat(rest)
    case HexRule => MatchHex(rest)
    case BadOctalRule => MatchBadOctal(rest)
    case OctalRule => MatchOctal(rest)
    case DecimalRule => MatchDecimal(rest)
    case CharRule => MatchCharConst(rest)
    case WcharRule => MatchWcharConst(rest)
    case UnmatchedQuoteRule => MatchUnmatchedQuote(rest)
    case BadCharRule => MatchBadCharConst(rest)
    case WstringRule => MatchWstring(rest)
    case BadStringRule => MatchBadString(rest)
    case IdRule => MatchIdentifier(rest)
    case StringRule => MatchString(rest)
    case PeriodRule => MatchChar1(rest, '.')
    case EqualsRule => MatchChar1(rest, '=')
    case CommaRule => MatchChar1(rest, ',')
    case ParamRule => MatchIdentifier(rest)
    case ContinueRule => MatchContinue(rest)
    case HeaderNewlineRule => MatchNewline(rest)
    case LastTokenOnLineRule => MatchNewlines(rest)
  }

  /** A winning rule, its place in the mode's list and the length it matched. */
  datatype Matched = Matched(index: nat, rule: Rule, len: nat)

  /** The first rule of `rules` that matches `rest`: every earlier rule fails on it. */
  function FirstMatch(rules: seq<Rule>, rest: string): (r: Option<Matched>)
    ensures r.Some? ==> r.value.index < |rules| && rules[r.value.index] == r.value.rule
    ensures r.Some? ==> Match(r.value.rule, rest) == Some(r.value.len)
  {
    if |rules| == 0 then None
    else match Match(rules[0], rest)
      case Some(n) => Some(Matched(0, rules[0], n))
      case None =>
        match FirstMatch(rules[1..], rest)
        case Some(m) => Some(Matched(m.index + 1, m.rule, m.len))
        case None => None
  }

  // ---------------------------------------------------------------- actions

  /** What one step of the scanner hands to its caller. */
  datatype Emission = Silent | Emit(kind: Kind, value: string) | Report(error: LexError)

  /** One step: how far the position moves and the mode stack and line counter after it. */
  datatype Outcome = Outcome(advance: nat, mode: Mode, saved: seq<Mode>, lineno: nat, emission: Emission)

  predicate IsHeader(e: Emission) { e.Emit? && e.kind == Keyword }

  /** The mode stack can always be popped in `keywordstate`, the only mode that pops. */
  predicate StackOk(mode: Mode, saved: seq<Mode>) { mode == KeywordState ==> |saved| > 0 }

  /** PLY's `push_state(m)`: the current mode is saved and `m` becomes current. */
  function PushState(mode: Mode, saved: seq<Mode>, m: Mode): (r: (Mode, seq<Mode>))
    ensures r.0 == m && |r.1| == |saved| + 1 && r.1[|saved|] == mode
  {
    (m, saved + [mode])
  }

  /** PLY's `pop_state()`: the last saved mode becomes current. */
  function PopState(saved: seq<Mode>): (r: (Mode, seq<Mode>))
    requires |saved| > 0
    ensures r.1 + [r.0] == saved
  {
    (saved[|saved| - 1], saved[..|saved| - 1])
  }

  /** Whether a rule reports an error rather than producing a token or nothing. */
  predicate IsErrorRule(rule: Rule) {
    rule in {BadOctalRule, UnmatchedQuoteRule, BadCharRule, BadStringRule}
  }

  /** Whether a rule's action only returns its token, with the matched text as value. */
  predicate IsPlainRule(rule: Rule) {
    !IsErrorRule(rule) &&
    rule !in {KeywordRule, CommentRule, NewlineAloneRule, HeaderNewlineRule, LastTokenOnLineRule, ContinueRule}
  }

  /** The token type a plain rule returns. */
  function KindOf(rule: Rule): (k: Kind)
    requires IsPlainRule(rule)
    ensures k != Keyword && k != LastTokenOnLine
  {
    match rule
    case ParamRule => Param
    case IdRule => Id
    case FloatRule => FloatConst
    case HexRule => IntConstHex
    case OctalRule => IntConstOct
    case DecimalRule => IntConstDec
    case CharRule => CharConst
    case WcharRule => WcharConst
    case WstringRule => WstringLiteral
    case StringRule => StringLiteral
    case PeriodRule => Period
    case EqualsRule => Equals
    case CommaRule => Comma
  }

  /** The message an error rule reports for the text it matched. */
  function ErrorOf(rule: Rule, text: string): LexError
    requires IsErrorRule(rule)
  {
    match rule
    case BadOctalRule => InvalidOctal
    case UnmatchedQuoteRule => UnmatchedQuote
    case BadCharRule => InvalidCharConstant(text)
    case BadStringRule => InvalidStringEscape
  }

  /** The action of `rule` after it matched `text`. The position has already moved to the
      end of the match; an error rule's `_error` skips one character more. */
  function Act(rule: Rule, text: string, mode: Mode, saved: seq<Mode>, lineno: nat): (o: Outcome)
    requires |text| >= 1 && StackOk(mode, saved)
    requires rule == HeaderNewlineRule ==> mode == KeywordState && text == "\n"
    requires rule == ContinueRule ==> text == ",\n"
    ensures IsHeader(o.emission) <==> rule == KeywordRule
    ensures IsHeader(o.emission) ==> o.emission.value == text[1..]
    ensures o.emission.Emit? && !IsHeader(o.emission) ==>
              |o.emission.value| <= |text| && o.emission.value == text[..|o.emission.value|]
    ensures o.advance == |text| + (if IsErrorRule(rule) then 1 else 0)
    ensures o.emission.Report? <==> IsErrorRule(rule)
    ensures StackOk(o.mode, o.saved)
    ensures o.lineno >= lineno
    ensures IsHeader(o.emission) ==> o.mode == KeywordState && o.saved == saved + [mode]
    ensures !IsHeader(o.emission) ==> o.saved == saved
    ensures !IsHeader(o.emission) && o.mode != mode ==>
              mode == KeywordState && o.mode == DataLineState && o.emission == Silent
              && o.lineno == lineno + 1
    ensures o.lineno != lineno ==> o.emission.Silent? || (o.emission.Emit? && o.emission.kind == LastTokenOnLine)
  {
    var n := |text|;
    if IsErrorRule(rule) then Outcome(n + 1, mode, saved, lineno, Report(ErrorOf(rule, text)))
    else if IsPlainRule(rule) then
      assert text[..n] == text;
      Outcome(n, mode, saved, lineno, Emit(KindOf(rule), text))
    else match rule
      case KeywordRule =>
        var (m, s) := PushState(mode, saved, KeywordState);
        Outcome(n, m, s, lineno, Emit(Keyword, text[1..]))
      case CommentRule => Outcome(n, mode, saved, lineno, Silent)
      case NewlineAloneRule => Outcome(n, mode, saved, lineno + CountNewlines(text), Silent)
      case HeaderNewlineRule =>
        var (m1, s1) := PopState(saved);
        var (m2, s2) := PushState(m1, s1, DataLineState);
        Outcome(n, m2, s2, lineno + 1, Silent)
      case LastTokenOnLineRule =>
        assert text[..n] == text;
        Outcome(n, mode, saved, lineno + CountNewlines(text), Emit(LastTokenOnLine, text))
      case ContinueRule => Outcome(n, mode, saved, lineno, Emit(Comma, ","))
  }

  /** The error handler of a mode, called with the position on the offending character;
      `_error` skips that character. */
  function ErrorHandler(mode: Mode, c: char): (r: LexError)
    ensures r.InvalidKeyword? <==> mode == KeywordState
    ensures !r.InvalidKeyword? ==> r == IllegalCharacter(c)
  {
    if mode == KeywordState then InvalidKeyword else IllegalCharacter(c)
  }

  /** One step of PLY's `token()` loop on the remaining input `rest`. Only a header pushes
      onto the mode stack and nothing pops it for good: the header-ending newline pops and
      pushes again. */
  function StepOn(rest: string, mode: Mode, saved: seq<Mode>, lineno: nat): (o: Outcome)
    requires |rest| > 0 && StackOk(mode, saved)
    ensures 1 <= o.advance <= |rest| + 1
    ensures StackOk(o.mode, o.saved)
    ensures o.lineno >= lineno
    ensures IsHeader(o.emission) ==> o.mode == KeywordState && o.saved == saved + [mode]
    ensures !IsHeader(o.emission) ==> o.saved == saved
    ensures !IsHeader(o.emission) && o.mode != mode ==>
              mode == KeywordState && o.mode == DataLineState && o.emission == Silent
              && o.lineno == lineno + 1
    ensures o.lineno != lineno ==> o.emission.Silent? || (o.emission.Emit? && o.emission.kind == LastTokenOnLine)
  {
    if IsBlank(rest[0]) then Outcome(1, mode, saved, lineno, Silent)
    else match FirstMatch(RulesOf(mode), rest)
      case Some(m) =>
        assert m.rule in RulesOf(mode);
        assert m.rule == HeaderNewlineRule ==> rest[..m.len] == "\n";
        assert m.rule == ContinueRule ==> rest[..m.len] == ",\n";
        Act(m.rule, rest[..m.len], mode, saved, lineno)
      case None => Outcome(1, mode, saved, lineno, Report(ErrorHandler(mode, rest[0])))
  }

  // ---------------------------------------------------------------- scanning

  datatype ScanState = ScanState(pos: nat, lineno: nat, saved: seq<Mode>, mode: Mode)

  /** A finished scan: the events in order and the state at the end of the input. */
  datatype Scan = Scan(events: seq<Event>, final: ScanState)

  /** The state of a freshly built lexer once `input()` and `reset_lineno()` have run: line
      1, initial mode, empty stack. */
  const Start: ScanState := ScanState(0, 1, [], Initial)

  /** Index of the character `_find_tok_column`'s loop stops at, scanning down from `i`:
      the last newline at an index in 1..i, or 0. */
  function ScanBack(data: string, i: nat): (k: nat)
    requires i < |data|
    ensures k <= i
    ensures k > 0 ==> data[k] == '\n'
    ensures forall j :: k < j <= i ==> data[j] != '\n'
    decreases i
  {
    if i == 0 then 0 else if data[i] == '\n' then i else ScanBack(data, i - 1)
  }

  /** `_find_tok_column`: the column of the character at `lexpos`. */
  function TokColumn(data: string, lexpos: nat): (col: nat)
    requires lexpos < |data|
    ensures 1 <= col <= lexpos + 1
    ensures (forall j :: 1 <= j <= lexpos ==> data[j] != '\n') ==> col == lexpos + 1
    ensures forall k :: 1 <= k <= lexpos && data[k] == '\n' ==>
              (forall j :: k < j <= lexpos ==> data[j] != '\n') ==> col == lexpos - k + 1
  {
    lexpos - ScanBack(data, lexpos) + 1
  }

  /** The event one step hands out, located at the step's starting position. */
  function EventsOf(s: string, st: ScanState, e: Emission): (r: seq<Event>)
    requires st.pos < |s|
    ensures |r| == (if e.Silent? then 0 else 1)
  {
    match e
    case Silent => []
    case Emit(k, v) => [Tok(Token(k, v, st.lineno, st.pos))]
    case Report(err) => [Diag(Diagnostic(err, st.lineno, TokColumn(s, st.pos)))]
  }

  /** Scans `s` from state `st` to the end of the input. */
  function ScanFrom(s: string, st: ScanState): (r: Scan)
    requires StackOk(st.mode, st.saved)
    ensures StackOk(r.final.mode, r.final.saved)
    ensures r.final.pos >= |s| && r.final.lineno >= st.lineno
    decreases |s| - st.pos, 1
  {
    if st.pos >= |s| then Scan([], st)
    else ScanAfter(s, st, StepOn(s[st.pos..], st.mode, st.saved, st.lineno))
  }

  /** The state after step `o` from `st`. */
  function After(st: ScanState, o: Outcome): ScanState {
    ScanState(st.pos + o.advance, o.lineno, o.saved, o.mode)
  }

  /** The event of step `o` from `st`, then the scan of the rest. */
  function ScanAfter(s: string, st: ScanState, o: Outcome): (r: Scan)
    requires st.pos < |s| && o.advance >= 1 && StackOk(o.mode, o.saved) && o.lineno >= st.lineno
    ensures StackOk(r.final.mode, r.final.saved)
    ensures r.final.pos >= |s| && r.final.lineno >= st.lineno
    decreases |s| - st.pos, 0
  {
    var tail := ScanFrom(s, After(st, o));
    Scan(EventsOf(s, st, o.emission) + tail.events, tail.final)
  }

  /** The whole input scanned from the start state: the scan always reaches the end of
      the text, counts lines from 1 and leaves a well-formed mode stack. */
  function Tokenize(s: string): (r: Scan)
    ensures r.final.pos >= |s| && r.final.lineno >= 1
    ensures StackOk(r.final.mode, r.final.saved)
  {
    ScanFrom(s, Start)
  }

  /** The tokens of an event sequence, in order. */
  function Tokens(events: seq<Event>): (r: seq<Token>)
    ensures |r| <= |events|
  {
    if |events| == 0 then []
    else (if events[0].Tok? then [events[0].token] else []) + Tokens(events[1..])
  }

  /** The diagnostics of an event sequence, in order. */
  function Diagnostics(events: seq<Event>): (r: seq<Diagnostic>)
    ensures |r| <= |events|
  {
    if |events| == 0 then []
    else (if events[0].Diag? then [events[0].diagnostic] else []) + Diagnostics(events[1..])
  }
}
