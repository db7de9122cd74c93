# AbqParse front end in Dafny

AbqParse reads Abaqus input decks. It has two parts: a mode-dependent tokenizer
(`AbaqusLexer`, built with PLY's `lex`) and an LALR grammar (`AbaqusParser`, built with
PLY's `yacc`). This project models both as pure functions, together with the way
`AbaqusParser.parse` runs them and stops at the first error.

An Abaqus deck is a sequence of keyword lines. Each one is a `*name` header, optionally
followed by `,param` or `,param=value` items, and then by data lines of identifiers and
numbers. Lines beginning with `**` are comments.

## Layout

| file | module | contents |
|---|---|---|
| text.dfy | `Text` | character classes, `Span` (a greedy `p*`), newline counting |
| regexes.dfy | `Regexes` | one matcher per regular expression of the lexer; each gives the length of the match at the start of the remaining input |
| lexer.dfy | `Lexer` | token kinds, modes, rules in PLY's order, first-match selection, rule actions, the mode stack, error reports, the column computation, the whole scan |
| lexer_props.dfy | `LexerProperties` | which rule wins on which input, and what each kind of step emits |
| scan_props.dfy | `ScanProperties` | properties of whole scans: stack growth, token values taken from the text, locality, continuation lines |
| parser.dfy | `Parser` | derivation trees of the grammar and a recursive-descent recogniser that builds them |
| parser_props.dfy | `ParserProperties` | a finite automaton for the grammar's language; the recogniser fails exactly where the automaton dies; every derivation parses back to itself |
| actions.dfy | `Actions` | the values the grammar actions compute as written, and the corrected directive tree |
| frontend.dfy | `Frontend` | `parse`: scanner and parser together, first error wins; parsing with data-line ends dropped |
| scenarios.dfy | `Scenarios` | small decks scanned and parsed end to end |

## How the scanner is modelled

- **Rule order.** PLY tries a mode's rules in a fixed order, and the first rule that
  matches wins, even when a later rule would match more:
  1. the mode's own function rules;
  2. then `INITIAL`'s function rules, in the order they appear in the source;
  3. then the string rules, longest regular expression first: STRING_LITERAL, then `.`,
     then `=` and `,`.

  Both extra modes are inclusive, so they inherit INITIAL's rules. `Lexer.RulesOf` lists
  the rules for each mode, and `Lexer.FirstMatch` picks the winner.
- **Mode stack.** The stack is `(mode, saved)`:
  - a header pushes `keywordstate`;
  - the header-ending newline pops, then pushes `datalinestate`.

  So every header leaves one more entry on the stack (`ScanProperties.StackGrowsPerHeader`).
- **Errors.** A matched error rule reports, and the scan resumes one character after the
  match. When no rule matches, the mode's error handler reports and skips one character.
  Reports are `Diag` events in the event stream; the scan never stops.
- **Locations.**
  - A token records the line count when the step started and its offset.
  - A diagnostic records the line count and `_find_tok_column`'s result (`Lexer.TokColumn`).
- **The parse.** `parse` pulls tokens one at a time. The scanner's error function raises,
  so the verdict (`Frontend.Decide`) is decided as follows:
  - if a diagnostic comes before the token the parser stops on, the first such
    diagnostic wins;
  - otherwise the parser's own verdict stands.

Behaviour of the code worth knowing:

- Modes are a stack, not a single current mode.
- A data line ends with a LASTTOKENONLINE token, and no production of the grammar
  accepts it. So every deck that has a data line is rejected at that token; see Findings.
- `*solid section` lexes as KEYWORD followed by PARAM (`keywordstate` is still active),
  which is a syntax error.
- `INT_CONST_OCT` and `INT_CONST_HEX` are produced by rules but are missing from the
  `tokens` list. The model follows a parser built with `lex_optimize=True`, the
  constructor's default (abaqus_parser.py:20). There PLY hands these tokens to the
  parser, and they are modelled as kinds that no production uses. With
  `lex_optimize=False`, as the tests build the parser, PLY instead raises `LexError` when
  such a token is returned; that setting is not modelled.
- Columns are computed exactly as `_find_tok_column` does:
  - the character right after a newline gets column 2;
  - a character on the first line gets its offset plus 1.

## Model

| member | source | states |
|---|---|---|
| Text.Span | abaqus_lexer.py:116-117 | the length a greedy `p*` consumes: every character in the run satisfies `p`, and the next character does not (or the input ends) |
| Regexes.MatchKeyword | abaqus_lexer.py:117 | a header matches exactly when the input starts with `*` and a letter; the match is the maximal identifier run after the `*` |
| Regexes.MatchIdentifier | abaqus_lexer.py:116 | an identifier matches exactly when the input starts with a letter or `_`; the match is maximal |
| Regexes.MatchComment | abaqus_lexer.py:202-204 | after optional blanks, a comment matches exactly when `**` follows and a newline comes later; the match ends at the first newline after the blanks, which it includes |
| Regexes.MatchNewlines | abaqus_lexer.py:191-194 | `\n+` matches exactly when the input starts with a newline, and takes the whole run |
| Regexes.MatchNewline | abaqus_lexer.py:179-183 | `\n` matches exactly one leading newline |
| Regexes.MatchContinue | abaqus_lexer.py:173-177 | `,\n` matches exactly when the input starts with a comma and a newline |
| Regexes.MatchChar1 | abaqus_lexer.py:213-217 | a one-character string rule matches exactly that character |
| Regexes.MatchFloat | abaqus_lexer.py:150-152 | a float starts with a digit or `.` and contains a `.` or an exponent letter |
| Regexes.MatchHex | abaqus_lexer.py:123 | a hex constant matches exactly when the input starts with `0x` or `0X` and a hex digit; it takes the whole hex digit run and then at most three suffix letters from `uUlL` |
| Regexes.MatchBadOctal | abaqus_lexer.py:125 | `0[0-7]*[89]` matches exactly when a `0` and an octal run are followed by some character, and the match ends at an `8` or `9` after octal digits only |
| Regexes.MatchOctal | abaqus_lexer.py:122 | the octal rule matches exactly the inputs that start with `0`; it takes the whole octal digit run after the `0` and then at most three suffix letters from `uUlL` |
| Regexes.MatchDecimal | abaqus_lexer.py:120-121 | the decimal rule matches exactly when the input starts with a digit; it takes a lone `0`, or the whole digit run from 1-9, and then at most three suffix letters from `uUlL` |
| Regexes.MatchCharConst | abaqus_lexer.py:131-138 | a character constant is at least three characters, opening and closing with a quote |
| Regexes.MatchWcharConst | abaqus_lexer.py:139 | a wide character constant starts with `L` |
| Regexes.MatchUnmatchedQuote | abaqus_lexer.py:140 | an unmatched quote matches exactly when `'` is followed by legal character-constant characters up to the end of its line; the match runs to that line end (newline included) or to the end of the input |
| Regexes.MatchBadCharConst | abaqus_lexer.py:141 | a bad character constant opens and closes with a quote |
| Regexes.MatchString | abaqus_lexer.py:144-145 | a string literal opens and closes with a double quote |
| Regexes.MatchWstring | abaqus_lexer.py:146 | a wide string starts with `L` |
| Regexes.MatchBadString | abaqus_lexer.py:147 | a bad string opens and closes with a double quote and is never also a valid string |
| Lexer.RulesOf | abaqus_lexer.py:157-161 | only `keywordstate` has the header-ending newline rule, so no other mode can pop the stack |
| Lexer.Match | abaqus_lexer.py:116-152 | every rule's match is non-empty and lies within the input |
| Lexer.FirstMatch | abaqus_lexer.py:157-286 | the chosen rule is the one at the reported index of the list and matches with the reported length; that no earlier rule matches is LexerProperties.FirstMatchAt |
| Lexer.ErrorHandler | abaqus_lexer.py:284-286 | with no rule matching, `keywordstate` reports an invalid keyword (its handler at lines 187-189), and every other mode reports the illegal character |
| Lexer.PushState | abaqus_lexer.py:165 | the new mode becomes current and the old one is saved on top of the stack |
| Lexer.PopState | abaqus_lexer.py:181 | popping gives back the top saved mode and the rest of the stack |
| Lexer.KindOf | abaqus_lexer.py:83-108 | no plain rule produces a header or a line-end token |
| Lexer.Act | abaqus_lexer.py:163-286 | a header is emitted exactly by the keyword rule, with the text after `*`; every other value is a prefix of the match; an error rule reports exactly and advances one past its match; only headers change the stack, and only the header newline changes the mode otherwise; only silent steps and line ends move the line count |
| Lexer.StepOn | abaqus_lexer.py:157-286 | one step advances at least one character, keeps the stack well formed, and changes the mode or line count only in the ways listed for `Act` |
| Lexer.TokColumn | abaqus_lexer.py:70-75 | the column is at least 1; it is the offset plus 1 when no newline lies at offsets 1..lexpos, and lexpos minus the last such newline's offset plus 1 otherwise |
| Lexer.ScanBack | abaqus_lexer.py:71-74 | the loop stops at a newline at or below `i` with none after it, or at 0 |
| Lexer.ScanFrom | abaqus_lexer.py:157-286 | a scan consumes the whole input and never lowers the line count |
| Lexer.Tokenize | abaqus_lexer.py:48-57 | a scan of the whole text from a fresh lexer reaches the end of the text, counts lines from 1 and leaves a well-formed mode stack |
| LexerProperties.MatchNeedsStart | abaqus_lexer.py:116-152 | a rule can only match when its first character is one it can start with |
| LexerProperties.FirstMatchAt | abaqus_lexer.py:157-286 | if rule k matches and no earlier rule does, rule k wins |
| LexerProperties.NoRuleStarts | abaqus_lexer.py:284-286 | when no rule can start with the next character, nothing matches |
| LexerProperties.FirstMatchSkips | abaqus_lexer.py:157-286 | rules that do not match can be skipped, and later indices shift by their count |
| LexerProperties.InitialRuleWins | abaqus_lexer.py:157-161 | in an inclusive mode whose own rules fail, the first matching INITIAL rule wins |
| LexerProperties.InitialRuleSteps | abaqus_lexer.py:157-161 | such a step does exactly what that INITIAL rule's action does |
| LexerProperties.HeaderPushesKeywordState | abaqus_lexer.py:163-167 | `*` and a letter give a KEYWORD whose value is the maximal identifier after `*` and starts with a letter; `keywordstate` is pushed on top of the previous mode without a pop |
| LexerProperties.HeaderNewlineEntersDataLines | abaqus_lexer.py:179-183 | in `keywordstate` a newline emits nothing, adds one line, and leaves `datalinestate` current whatever was saved below |
| LexerProperties.ContinuationIsComma | abaqus_lexer.py:173-177 | in `keywordstate` `,\n` emits one COMMA with value `,`, stays in `keywordstate`, and does not count its newline |
| LexerProperties.CommaIsComma | abaqus_lexer.py:216 | a comma not followed by a newline is a COMMA in every mode |
| LexerProperties.EqualsIsEquals | abaqus_lexer.py:213 | `=` is an EQUALS in every mode |
| LexerProperties.PeriodIsPeriod | abaqus_lexer.py:217 | a `.` not followed by a digit is a PERIOD in every mode |
| LexerProperties.NewlineRunInDataLines | abaqus_lexer.py:191-194 | in `datalinestate` a whole newline run is one LASTTOKENONLINE, and the line count grows by the run's length |
| LexerProperties.NewlineRunInInitial | abaqus_lexer.py:208-210 | in INITIAL a whole newline run emits nothing, and the line count grows by its length |
| LexerProperties.CommentIsSilent | abaqus_lexer.py:202-204 | a `**` comment emits nothing, runs through its first newline, and changes neither the mode nor the line count |
| LexerProperties.IdentifierIsParamInHeader | abaqus_lexer.py:169-171 | in `keywordstate` a maximal identifier is a PARAM |
| LexerProperties.IdentifierIsIdElsewhere | abaqus_lexer.py:279-282 | outside `keywordstate` a maximal identifier is an ID, unless `L` starts a wide literal |
| LexerProperties.FloatBeforeIntegers | abaqus_lexer.py:226-245 | whatever the float rule matches becomes a FLOAT_CONST, before any integer rule is tried |
| LexerProperties.LoneZeroIsOctal | abaqus_lexer.py:239-245 | a lone `0` is an INT_CONST_OCT, not an INT_CONST_DEC |
| LexerProperties.DigitsAreDecimal | abaqus_lexer.py:243-245 | a digit run starting with 1-9 is one INT_CONST_DEC holding the whole run |
| LexerProperties.BadOctalReported | abaqus_lexer.py:234-237 | `0[0-7]*[89]` reports an invalid octal once and resumes one past the match |
| LexerProperties.UnmatchedQuoteReported | abaqus_lexer.py:258-261 | an unmatched quote reports once and resumes one past the match |
| LexerProperties.BadCharReported | abaqus_lexer.py:263-266 | a bad character constant reports once with its text and resumes one past the match |
| LexerProperties.BadStringReported | abaqus_lexer.py:274-277 | a string with a bad escape reports once and resumes one past the match |
| LexerProperties.StrayCharacterReported | abaqus_lexer.py:284-286 | a character no rule can start reports through the mode's error handler and resumes at the next character |
| LexerProperties.ReportsResume | abaqus_lexer.py:65-68 | every report leaves the mode, stack and line count alone; with no match it skips one character, and after an error rule one past the match |
| ScanProperties.StackGrowsPerHeader | abaqus_lexer.py:163-183 | at the end of a scan the stack has grown by exactly the number of KEYWORD tokens emitted |
| ScanProperties.DiagnosticsLocated | abaqus_lexer.py:65-78 | every diagnostic has a column of at least 1 and a line no earlier than the scan's start |
| ScanProperties.TokensFromSource | abaqus_lexer.py:163-282 | every token's value is the text at its offset: after the `*` for a header, and a prefix of the match otherwise |
| ScanProperties.TokensAppend | abaqus_lexer.py:157-286 | the tokens of joined event streams are the tokens of each, in order |
| ScanProperties.ScanIsLocal | abaqus_lexer.py:157-286 | two scans with the same remaining text, mode, stack and line count emit the same kinds, values, lines and errors |
| ScanProperties.ContinuationIsInvisible | abaqus_lexer.py:173-177 | a header continued after `,\n` scans to the same kinds, values and lines as its one-line form |
| Parser.ParseParams | abaqus_parser.py:131-152 | a parsed `param_list` is a well-formed derivation whose yield is exactly the tokens consumed, and no COMMA follows it |
| Parser.ParseData | abaqus_parser.py:154-176 | a parsed `data_list` yields exactly the tokens consumed, its first item has no separator, and no COMMA or data item follows it |
| Parser.ParseKeyword | abaqus_parser.py:121-129 | a parsed `keyword` yields exactly the tokens consumed; a failure on its first token means that token is not a KEYWORD |
| Parser.ParseKeywords | abaqus_parser.py:109-119 | a parsed `keyword_list` consumes every remaining token and yields them exactly |
| Parser.ParseDocument | abaqus_parser.py:109-176 | an accepted stream is the yield of a well-formed derivation; the empty stream fails at position 0 |
| Parser.SyntaxErrorAt | abaqus_parser.py:178-184 | the error is "at end of input" exactly when the parser stopped after the last token; otherwise it carries that token's value and line |
| Parser.SyntaxMessage | abaqus_parser.py:178-184 | a syntax error before a token reads `before: ` and the token's value; at end of input it reads `At end of input` |
| ParserProperties.LiveStatesComplete | abaqus_parser.py:109-176 | every state of the automaton except the dead one can still be completed to a sentence |
| ParserProperties.DeadStaysDead | abaqus_parser.py:109-176 | once no sentence can continue the tokens read, none can after more tokens |
| ParserProperties.ErrorPlaceIsUnique | abaqus_parser.py:178-184 | a stream has at most one place of syntax error |
| ParserProperties.ParserFollowsAutomaton | abaqus_parser.py:109-176 | the recogniser accepts exactly the streams the automaton accepts, and fails exactly where the automaton dies or at the end of the input |
| ParserProperties.UnusedTokenIsSyntaxError | abaqus_parser.py:109-176 | a stream holding LASTTOKENONLINE, PERIOD, a character or string literal, or an octal or hex integer fails no later than that token |
| ParserProperties.FirstTokenMustBeKeyword | abaqus_parser.py:109-127 | a non-empty stream whose first token is not a KEYWORD fails at position 0 |
| ParserProperties.ParamsParseBack | abaqus_parser.py:131-152 | the tokens of any well-formed `param_list` parse back to that same derivation |
| ParserProperties.DataParsesBack | abaqus_parser.py:154-176 | the tokens of any well-formed `data_list` parse back to that same derivation |
| ParserProperties.KeywordParsesBack | abaqus_parser.py:121-129 | the tokens of any well-formed `keyword`, followed by a KEYWORD or the end, parse back to it |
| ParserProperties.DerivationParsesBack | abaqus_parser.py:109-176 | the yield of every well-formed derivation is accepted with exactly that derivation, so derivations are unique |
| Actions.KeywordListValue | abaqus_parser.py:109-119 | the value of a `keyword_list` is the name in its first keyword's header |
| Actions.KeywordValue | abaqus_parser.py:121-129 | a keyword's value is the value of the KEYWORD token its yield starts with |
| Actions.ParamListValue | abaqus_parser.py:131-139 | a `param_list` gets one value per `param`; what each element holds is stated by Actions.ParamListHoldsCommas |
| Actions.ParamValue | abaqus_parser.py:141-152 | a `param` has a value exactly when it is the bare `PARAM` form (two tokens with its COMMA), and the value is then the PARAM token's text |
| Actions.DataListValue | abaqus_parser.py:154-166 | a `data_list` gets one value per `data`; what each element holds is stated by Actions.DataListHoldsCommas |
| Actions.ParamListHoldsCommas | abaqus_parser.py:131-139 | the value built for a `param_list` has one element per `param`; the first is that param's value, and every later one is the separating COMMA's text |
| Actions.AssignedParamHasNoValue | abaqus_parser.py:141-152 | a `param` has no value exactly when it has the `EQUALS value` form |
| Actions.DataListHoldsCommas | abaqus_parser.py:154-166 | the value built for a `data_list` has one element per `data`; every later element is the COMMA's text when a comma separates it, and the item otherwise |
| Actions.ParseKeepsFirstName | abaqus_parser.py:109-129 | the value of a parsed deck is the value of the first KEYWORD token of its tokens; later keywords do not change it |
| Actions.ParamYieldParameters | abaqus_parser.py:141-152 | the tokens of one `param`, followed by a COMMA or nothing, write exactly that one parameter ahead of what follows |
| Actions.ParametersKept | abaqus_parser.py:131-152 | the corrected parameter list is exactly the parameters the `param_list` tokens write, in order: the PARAM after each COMMA, with the token after its EQUALS as value when there is one |
| Actions.DataKept | abaqus_parser.py:154-176 | the corrected data list is exactly the data item values among the tokens, in order |
| Actions.DirectivesFollowHeaders | abaqus_parser.py:109-129 | the corrected tree has one directive per KEYWORD token, named by it, in order |
| Actions.NoHeaderInParams | abaqus_parser.py:131-152 | no KEYWORD token occurs inside a `param_list` |
| Actions.NoHeaderInData | abaqus_parser.py:154-176 | no KEYWORD token occurs inside a `data_list` |
| Frontend.CharRepr | abaqus_lexer.py:285 | Python 2's `repr` of one byte is quoted with `'`, or with `"` exactly when the byte is `'`; between the quotes stands the byte itself exactly when it is printable ASCII other than `\` (or above 0xff, which a byte string cannot hold), and a backslash escape otherwise |
| Frontend.CharReprInjective | abaqus_lexer.py:285 | different characters have different `repr`s |
| Frontend.HighByteReprIsHex | abaqus_lexer.py:285 | a byte from 0x7f up is shown as `\x` and two lower-case hexadecimal digits, the first of them 7-f |
| Frontend.LexMessage | abaqus_lexer.py:187-286 | each scanner report's message; a bad character constant's text and an illegal character's `repr` end the message |
| Frontend.LexMessageShowsKind | abaqus_lexer.py:187-286 | the first characters of a scanner message tell which kind of report it is |
| Frontend.LexMessageIdentifies | abaqus_lexer.py:187-286 | two scanner reports with the same message are the same report |
| Frontend.SyntaxMessageIdentifies | abaqus_parser.py:178-184 | two syntax errors with the same message are both at end of input, or both before tokens with the same value |
| Frontend.RaisedOf | abaqus_parser.py:178-184 | an error is raised exactly when the run does not accept: with line and column for a lexical error, with a line before a token, and with neither at end of input |
| Frontend.RaisedOfIdentifies | abaqus_parser.py:178-184 | two failed runs that raise the same message, line and column failed in the same way |
| Frontend.Decide | abaqus_parser.py:82-103 | an accepted run returns the first keyword's name |
| Frontend.Parse | abaqus_parser.py:82-97 | a deck is scanned and parsed as one run; an accepted deck's value is a name written in the text right after a `*` |
| Frontend.KeywordWrittenAfterStar | abaqus_lexer.py:163-167 | a KEYWORD token taken from the text has its value written there right after a `*` |
| Frontend.EventsBeforeHoldTokens | abaqus_parser.py:82-97 | the events before token `j` hold exactly the first `j` tokens |
| Frontend.LexicalErrorIsFirstDiagnostic | abaqus_parser.py:102-103 | a lexical failure raises the first diagnostic of the scan |
| Frontend.AcceptedExactly | abaqus_parser.py:82-176 | a run accepts exactly when the scan reports nothing and the tokens form a `keyword_list`; it then returns the first token's value, which is a KEYWORD's |
| Frontend.SyntaxErrorHasNoEarlierDiagnostic | abaqus_parser.py:102-184 | a syntax error is raised exactly when the parser fails and no diagnostic comes before the failing token; the error names that token |
| Frontend.VerdictFollowsAutomaton | abaqus_parser.py:82-184 | the run's verdict, stated on the automaton alone: accepted exactly when there is no diagnostic and the automaton accepts; a syntax error at the automaton's error place exactly when no diagnostic precedes it |
| Frontend.ErrorIsWhereParserFails | abaqus_parser.py:178-184 | wherever the automaton places the error, the recogniser fails there |
| Frontend.DropLineEndsKeepsTheRest | abaqus_lexer.py:191-194 | dropping line ends keeps every other token and every diagnostic, in order |
| Frontend.NoLineEndsNoChange | abaqus_lexer.py:191-194 | on a stream without line ends, the corrected run and the run as written agree |
| Frontend.DataLinesAccepted | abaqus_lexer.py:191-194 | with line ends dropped, every derivation's tokens with any line ends interleaved are accepted with that derivation |
| Scenarios.DataLineScan | abaqus_lexer.py:163-245 | `*a`, newline, a digit, newline scans to KEYWORD, INT_CONST_DEC and LASTTOKENONLINE with their lines and offsets |
| Scenarios.DataLineRejected | abaqus_parser.py:121-127 | as written, that deck is rejected with "before" the line end on line 2 |
| Scenarios.LineEndAfterDataRejected | abaqus_parser.py:121-184 | any KEYWORD, data item, line end stream is a syntax error at the line end |
| Scenarios.LineEndAfterDataDropped | abaqus_lexer.py:191-194 | with line ends dropped, that stream is accepted as one keyword with one data item |
| Scenarios.DataLineAcceptedWhenCorrected | abaqus_lexer.py:191-194 | with line ends dropped, the data deck is accepted with its keyword and data item |
| Scenarios.CleanDecide | abaqus_parser.py:82-184 | for a stream with no diagnostics, the run is the parser's own verdict |
| Scenarios.TrailingCommaRejected | abaqus_parser.py:154-166 | even with line ends dropped, a data line ending in a comma is a syntax error at end of input |
| Scenarios.HeaderDeckScan | abaqus_lexer.py:163-214 | `*a,b=c` and a newline scan to KEYWORD COMMA PARAM EQUALS PARAM |
| Scenarios.HeaderDeckDerivation | abaqus_parser.py:121-152 | those tokens parse to one keyword holding one `name=value` param |
| Scenarios.HeaderDeckParsed | abaqus_parser.py:141-152 | as written, the deck's value is `a` and its param value is None; the corrected tree holds the parameter `b` with value `c` |
| Scenarios.SecondParamBecomesComma | abaqus_parser.py:131-134 | for `KEYWORD, PARAM, PARAM` the list as written holds the first name and then the comma; the corrected list holds both names |
| Scenarios.SecondItemBecomesComma | abaqus_parser.py:154-160 | for `KEYWORD item, item` the list as written holds the first item and then the comma; the corrected list holds both items |
| Scenarios.SecondKeywordDropped | abaqus_parser.py:109-113 | two headers are accepted with the first name as the value; the corrected tree has both directives |

## Left out

- PLY itself (`ply.lex`, `ply.yacc`, table files, optimize and debug flags) is not part of
  this model. Its first-match rule order and its error-skip behaviour are encoded
  explicitly. The LALR parser is replaced by a recursive-descent recogniser, which is
  shown to stop on the same token an LR parser reports (the first token no sentence
  allows).
- `plyparser.py` (`_parse_error`, `_coord`, `Coord`, `ParseError`) is not part of this
  model. A raised error is modelled as a message with an optional line and column
  (`Frontend.RaisedOf`), not as a formatted string.
- Debug `print` calls in the actions and the `__main__` demo blocks are left out; they do
  no parsing work.
- `filename` and the demo's `re.IGNORECASE` flag are left out. The model covers one
  `parse` on a freshly built parser: the scan starts at line 1 with an empty stack in
  INITIAL. A later `parse` on the same parser resets only the line count
  (abaqus_parser.py:95-96); the lexer's mode and mode stack carry over from the previous
  text, and that is not modelled.
- Frontend.CharRepr and Frontend.LexMessage: the source is Python 2 and a deck is a byte
  string, so `repr` is Python 2's `repr` of one byte; characters above 0xff do not occur
  in such a deck and are shown bare. A `unicode` deck, whose `repr` carries a `u'…'`
  prefix and `\u` escapes, is not modelled.
- Float values (`float()`) are left out; tokens keep their raw text.
- The tree objects (`.keyword`, `.params`, `.data`) that the tests inspect are built by no
  action of the grammar. `Actions.DocumentOf` is a corrected tree with that content, not a model of
  existing code.
- Regexes.MatchCharConst, Regexes.MatchWcharConst, Regexes.MatchBadCharConst,
  Regexes.MatchString, Regexes.MatchWstring and Regexes.MatchBadString: their contracts
  state only each literal's delimiters, not its full escape grammar. No production
  accepts these tokens, so a stream that contains one is rejected whatever its length
  (`ParserProperties.UnusedTokenIsSyntaxError`).
- Regexes.MatchFloat: the contract states how a match starts, not its exact length.
- Regexes.MatchHex, Regexes.MatchOctal and Regexes.MatchDecimal: the integer suffix is
  stated as at most three letters from `uUlL`, not as the exact alternation
  `u?ll|U?LL|[uU][lL]|[lL][uU]|[uU]|[lL]` the regular expression allows.
- Frontend.DataLinesAccepted: the corrected parse reads each keyword's data lines as one
  flat data list; the rows are not kept apart. A data line that ends in a comma, as in
  tests/test_snippets.py:12-16, is still a syntax error there, because the last COMMA
  waits for a data item (Scenarios.TrailingCommaRejected).
- `Lexer.Tokenize` runs over the whole text. The pulling of tokens one at a time is
  modelled by `Frontend.EventsBefore`: the verdict only looks at events before the
  parser's stopping token.

## Findings

| source | as written | input that shows it | evidently intended | confidence | as-written member | corrected member |
|---|---|---|---|---|---|---|
| abaqus_parser.py:131-134 | `param_list COMMA param` appends `p[2]`, the comma | `*k,a,b` builds `['a', ',']` | append `p[3]`, the new param | high, not executed | Actions.ParamListHoldsCommas, Scenarios.SecondParamBecomesComma | Actions.ParametersKept |
| abaqus_parser.py:154-160 | `data_list COMMA data` appends `p[2]`, the comma | the deck `*k 1,2`, data on the header line with no line end token between the items, builds `['1', ',']` | append the data item | high, not executed | Actions.DataListHoldsCommas, Scenarios.SecondItemBecomesComma | Actions.DataKept |
| abaqus_parser.py:141-152 | `PARAM EQUALS value` leaves `p[0]` unset, so the param's value is None | `*a,b=c` gives the param None | a parameter holding name `b` and value `c` | high, not executed | Actions.AssignedParamHasNoValue, Scenarios.HeaderDeckParsed | Actions.ParametersKept |
| abaqus_parser.py:109-119 | `keyword_list keyword` keeps `p[1]`; every keyword's value is its name only | `*a` then `*b` returns `'a'` | a list of directives, one per keyword, with params and data | high, not executed | Actions.ParseKeepsFirstName, Scenarios.SecondKeywordDropped | Actions.DirectivesFollowHeaders |
| abaqus_lexer.py:191-194 | `datalinestate` emits LASTTOKENONLINE after each data line, and no production accepts it | `*a` newline `1` newline is a syntax error before the second newline | data lines parse, as one flat data list per keyword | high, not executed | Scenarios.DataLineRejected | Frontend.DataLinesAccepted, Scenarios.DataLineAcceptedWhenCorrected |
