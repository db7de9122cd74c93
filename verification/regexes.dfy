/** The regular expressions of abaqus_lexer.py, one matcher each.

    A matcher looks at the input that remains to be scanned and answers what Python's
    `re.match` answers for the rule's regex at that point: `None` when the regex does not
    match, `Some(n)` when it matches the first `n` characters. Python's engine takes the
    first successful path of its backtracking search, not the longest match, and the
    matchers follow that search: alternatives in order, greedy repetitions tried longest
    first. */
module Regexes {
  import opened Text

  /** `\*[a-zA-Z][0-9a-zA-Z_]*` */
  function MatchKeyword(rest: seq<char>): (r: Option<nat>)
    ensures r.Some? <==> |rest| >= 2 && rest[0] == '*' && IsLetter(rest[1])
    ensures r.Some? ==> 2 <= r.value <= |rest|
    ensures r.Some? ==> forall k :: 2 <= k < r.value ==> IsIdentChar(rest[k])
    ensures r.Some? ==> r.value == |rest| || !IsIdentChar(rest[r.value])
  {
    if |rest| >= 2 && rest[0] == '*' && IsLetter(rest[1]) then Some(2 + Span(rest, 2, IsIdentChar))
    else None
  }

  /** `[a-zA-Z_][0-9a-zA-Z_]*`, shared by PARAM and ID. */
  function MatchIdentifier(rest: seq<char>): (r: Option<nat>)
    ensures r.Some? <==> |rest| > 0 && IsIdentStart(rest[0])
    ensures r.Some? ==> 1 <= r.value <= |rest|
    ensures r.Some? ==> forall k :: 0 <= k < r.value ==> IsIdentChar(rest[k])
    ensures r.Some? ==> r.value == |rest| || !IsIdentChar(rest[r.value])
  {
    if |rest| > 0 && IsIdentStart(rest[0]) then Some(Span(rest, 0, IsIdentChar)) else None
  }

  /** A newline occurs in `s` at index `i` or later. */
  predicate NewlineFrom(s: seq<char>, i: nat) {
    exists k :: i <= k < |s| && s[k] == '\n'
  }

  /** `[ \t]*\*\*.*\n`: after any blanks, `**`; the comment runs to, and includes, the
      first newline after it. */
  function MatchComment(rest: seq<char>): (r: Option<nat>)
    ensures r.Some? <==> HasAt(rest, Span(rest, 0, IsBlank), "**") && NewlineFrom(rest, Span(rest, 0, IsBlank) + 2)
    ensures r.Some? ==> Span(rest, 0, IsBlank) + 3 <= r.value <= |rest|
    ensures r.Some? ==> rest[r.value - 1] == '\n'
    ensures r.Some? ==> forall k :: 0 <= k < r.value - 1 ==> rest[k] != '\n'
    ensures HasAt(rest, 0, "**") && NewlineFrom(rest, 2) ==> r.Some?
  {
    var b := Span(rest, 0, IsBlank);
    if HasAt(rest, b, "**") then
      assert rest[b] == rest[b..b + 2][0] && rest[b + 1] == rest[b..b + 2][1];
      var t := Span(rest, b + 2, IsNotNewline);
      if b + 2 + t < |rest| then Some(b + 2 + t + 1)
      else None
    else None
  }

  /** `\n+`, NEWLINEALONE and LASTTOKENONLINE: the whole run of newlines. */
  function MatchNewlines(rest: seq<char>): (r: Option<nat>)
    ensures r.Some? <==> |rest| > 0 && rest[0] == '\n'
    ensures r.Some? ==> 1 <= r.value <= |rest|
    ensures r.Some? ==> forall k :: 0 <= k < r.value ==> rest[k] == '\n'
    ensures r.Some? ==> r.value == |rest| || rest[r.value] != '\n'
  {
    if |rest| > 0 && rest[0] == '\n' then Some(Span(rest, 0, IsNewline)) else None
  }

  /** `\n`, the header-ending newline of `keywordstate`. */
  function MatchNewline(rest: seq<char>): (r: Option<nat>)
    ensures r.Some? <==> |rest| > 0 && rest[0] == '\n'
    ensures r.Some? ==> r.value == 1
  {
    if |rest| > 0 && rest[0] == '\n' then Some(1) else None
  }

  /** `,\n`, the continuation comma of `keywordstate`. */
  function MatchContinue(rest: seq<char>): (r: Option<nat>)
    ensures r.Some? <==> HasAt(rest, 0, ",\n")
    ensures r.Some? ==> r.value == 2
  {
    if |rest| >= 2 && rest[0] == ',' && rest[1] == '\n' then
      assert rest[0..2] == ",\n";
      Some(2)
    else None
  }

  /** A one-character string rule: `=`, `,` or `\.`. */
  function MatchChar1(rest: seq<char>, c: char): (r: Option<nat>)
    ensures r.Some? <==> |rest| > 0 && rest[0] == c
    ensures r.Some? ==> r.value == 1
  {
    if |rest| > 0 && rest[0] == c then Some(1) else None
  }

  // ---------------------------------------------------------------- numbers

  /** `s[i..j]` is made of integer-suffix letters. */
  predicate SuffixChars(s: seq<char>, i: nat, j: nat) {
    i <= j <= |s| && forall k :: i <= k < j ==> s[k] in "uUlL"
  }

  /** `integer_suffix_opt`, `(u?ll|U?LL|([uU][lL])|([lL][uU])|[uU]|[lL])?`, at index `i`:
      the first alternative that matches wins, none gives the empty suffix. */
  function IntSuffixLength(s: seq<char>, i: nat): (n: nat)
    requires i <= |s|
    ensures n <= 3 && i + n <= |s|
    ensures SuffixChars(s, i, i + n)
  {
    if HasAt(s, i, "ull") then 3
    else if HasAt(s, i, "ll") then 2
    else if HasAt(s, i, "ULL") then 3
    else if HasAt(s, i, "LL") then 2
    else if i + 1 < |s| && s[i] in "uU" && s[i + 1] in "lL" then 2
    else if i + 1 < |s| && s[i] in "lL" && s[i + 1] in "uU" then 2
    else if i < |s| && s[i] in "uUlL" then 1
    else 0
  }

  /** `exponent_part`, `([eE][-+]?[0-9]+)`, at index `i`; 0 when it does not match. A sign
      not followed by a digit fails, since giving the sign back leaves no digit either. */
  function ExponentLength(s: seq<char>, i: nat): (n: nat)
    requires i <= |s|
    ensures i + n <= |s|
    ensures n > 0 ==> n >= 2 && s[i] in "eE" && IsDigit(s[i + n - 1])
    ensures n > 0 ==> i + n == |s| || !IsDigit(s[i + n])
  {
    if i < |s| && s[i] in "eE" then
      if i + 1 < |s| && s[i + 1] in "+-" then
        if i + 2 < |s| && IsDigit(s[i + 2]) then 2 + Span(s, i + 2, IsDigit) else 0
      else if i + 1 < |s| && IsDigit(s[i + 1]) then 1 + Span(s, i + 1, IsDigit)
      else 0
    else 0
  }

  /** `fractional_constant`, `([0-9]*\.[0-9]+)|([0-9]+\.)`, at the start; 0 when it does not
      match. */
  function FractionLength(s: seq<char>): (n: nat)
    ensures n <= |s|
    ensures n > 0 ==> exists k :: 0 <= k < n && s[k] == '.'
    ensures n > 0 ==> IsDigit(s[0]) || s[0] == '.'
  {
    var d := Span(s, 0, IsDigit);
    if d + 1 < |s| && s[d] == '.' && IsDigit(s[d + 1]) then d + 1 + Span(s, d + 1, IsDigit)
    else if d >= 1 && d < |s| && s[d] == '.' then d + 1
    else 0
  }

  /** `[FfLl]?` */
  function FloatSuffixLength(s: seq<char>, i: nat): (n: nat)
    requires i <= |s|
    ensures n <= 1 && i + n <= |s|
  {
    if i < |s| && s[i] in "FfLl" then 1 else 0
  }

  /** `floating_constant`: a fraction with an optional exponent, or digits with a
      mandatory exponent, then an optional suffix. */
  function MatchFloat(rest: seq<char>): (r: Option<nat>)
    ensures r.Some? ==> 1 <= r.value <= |rest|
    ensures r.Some? ==> IsDigit(rest[0]) || rest[0] == '.'
    ensures r.Some? ==> exists k :: 0 <= k < r.value && rest[k] in ".eE"
  {
    var f := FractionLength(rest);
    if f > 0 then
      var e := ExponentLength(rest, f);
      Some(f + e + FloatSuffixLength(rest, f + e))
    else
      var d := Span(rest, 0, IsDigit);
      var e := ExponentLength(rest, d);
      if d >= 1 && e > 0 then
        assert rest[d] in ".eE";
        Some(d + e + FloatSuffixLength(rest, d + e))
      else None
  }

  /** `hex_constant`, `0[xX][0-9a-fA-F]+` with the integer suffix. */
  function MatchHex(rest: seq<char>): (r: Option<nat>)
    ensures r.Some? <==> |rest| >= 3 && rest[0] == '0' && rest[1] in "xX" && IsHexDigit(rest[2])
    ensures r.Some? ==> 3 <= r.value <= |rest|
    ensures r.Some? ==> var d := 2 + Span(rest, 2, IsHexDigit);
              d <= r.value <= d + 3 && SuffixChars(rest, d, r.value)
  {
    if |rest| >= 2 && rest[0] == '0' && rest[1] in "xX" then
      var h := Span(rest, 2, IsHexDigit);
      if h >= 1 then Some(2 + h + IntSuffixLength(rest, 2 + h)) else None
    else None
  }

  /** `bad_octal_constant`, `0[0-7]*[89]`. */
  function MatchBadOctal(rest: seq<char>): (r: Option<nat>)
    ensures r.Some? <==> |rest| > 0 && rest[0] == '0' && 1 + Span(rest, 1, IsOctDigit) < |rest|
                         && rest[1 + Span(rest, 1, IsOctDigit)] in "89"
    ensures r.Some? ==> 2 <= r.value <= |rest| && rest[r.value - 1] in "89"
    ensures r.Some? ==> forall k :: 1 <= k < r.value - 1 ==> IsOctDigit(rest[k])
  {
    if |rest| > 0 && rest[0] == '0' then
      var k := Span(rest, 1, IsOctDigit);
      if 1 + k < |rest| && rest[1 + k] in "89" then Some(k + 2) else None
    else None
  }

  /** `octal_constant`, `0[0-7]*` with the integer suffix: it matches every leading `0`. */
  function MatchOctal(rest: seq<char>): (r: Option<nat>)
    ensures r.Some? <==> |rest| > 0 && rest[0] == '0'
    ensures r.Some? ==> 1 <= r.value <= |rest|
    ensures r.Some? ==> var d := 1 + Span(rest, 1, IsOctDigit);
              d <= r.value <= d + 3 && SuffixChars(rest, d, r.value)
  {
    if |rest| > 0 && rest[0] == '0' then
      var k := Span(rest, 1, IsOctDigit);
      Some(1 + k + IntSuffixLength(rest, 1 + k))
    else None
  }

  /** `decimal_constant`, `(0suffix)|([1-9][0-9]*suffix)`. */
  function MatchDecimal(rest: seq<char>): (r: Option<nat>)
    ensures r.Some? <==> |rest| > 0 && IsDigit(rest[0])
    ensures r.Some? ==> 1 <= r.value <= |rest|
    ensures r.Some? ==> var d := if rest[0] == '0' then 1 else Span(rest, 0, IsDigit);
              d <= r.value <= d + 3 && SuffixChars(rest, d, r.value)
  {
    if |rest| > 0 && rest[0] == '0' then Some(1 + IntSuffixLength(rest, 1))
    else if |rest| > 0 && IsDigit(rest[0]) then
      var d := Span(rest, 0, IsDigit);
      Some(d + IntSuffixLength(rest, d))
    else None
  }

  // ---------------------------------------------------------------- quotes

  /** The characters `simple_escape` accepts after a backslash. */
  predicate IsSimpleEscape(c: char) {
    IsLetter(c) || c in "._~!=&^-\\?'\""
  }

  /** The characters a backslash may be followed by in a valid escape: a simple escape, an
      octal digit, or the `x` of a hex escape (a letter, hence already simple). */
  predicate IsEscapeStart(c: char) { IsSimpleEscape(c) || IsOctDigit(c) }

  /** `[base + n, base + n - 1, ..., base + 1]` */
  function Descending(base: nat, n: nat): (r: seq<nat>)
    ensures |r| == n
    ensures forall k :: 0 <= k < n ==> r[k] == base + n - k
  {
    if n == 0 then [] else [base + n] + Descending(base, n - 1)
  }

  /** The lengths, backslash included, of the escapes `\\(simple|octal|hex)` that start at
      index `i`, in the order the engine tries them: the simple escape, then three, two,
      one octal digits, then the longest hex run down to a single hex digit. */
  function EscapeLengths(s: seq<char>, i: nat): (r: seq<nat>)
    requires i < |s| && s[i] == '\\'
    ensures forall k :: 0 <= k < |r| ==> 2 <= r[k] && i + r[k] <= |s|
    ensures |r| > 0 <==> i + 1 < |s| && IsEscapeStart(s[i + 1])
  {
    var simple := if i + 1 < |s| && IsSimpleEscape(s[i + 1]) then [2] else [];
    var octal := Descending(1, Min(3, Span(s, i + 1, IsOctDigit)));
    var hex := if i + 1 < |s| && s[i + 1] == 'x' then Descending(2, Span(s, i + 2, IsHexDigit)) else [];
    simple + octal + hex
  }

  /** `[^'\\\n]`, the plain characters of a character constant. */
  predicate IsPlainCChar(c: char) { c != '\'' && c != '\\' && c != '\n' }

  /** The lengths of the `cconst_char`s that can start at index `i`, in trial order. */
  function CCharLengths(s: seq<char>, i: nat): (r: seq<nat>)
    ensures forall k :: 0 <= k < |r| ==> 1 <= r[k] && i + r[k] <= |s|
  {
    if i >= |s| then []
    else if IsPlainCChar(s[i]) then [1]
    else if s[i] == '\\' then EscapeLengths(s, i)
    else []
  }

  /** `'` cconst_char `'` after the opening quote: the first candidate followed by a quote;
      the result is the whole length, both quotes included. */
  function FirstClosedChar(s: seq<char>, cands: seq<nat>): (r: Option<nat>)
    ensures r.Some? ==> exists k :: 0 <= k < |cands| && r.value == cands[k] + 2
    ensures r.Some? ==> r.value <= |s| && s[r.value - 1] == '\''
  {
    if |cands| == 0 then None
    else if 1 + cands[0] < |s| && s[1 + cands[0]] == '\'' then Some(cands[0] + 2)
    else
      var r := FirstClosedChar(s, cands[1..]);
      if r.Some? then
        var k :| 0 <= k < |cands[1..]| && r.value == cands[1..][k] + 2;
        assert r.value == cands[k + 1] + 2;
        r
      else r
  }

  /** `char_const`, `'` cconst_char `'`. */
  function MatchCharConst(rest: seq<char>): (r: Option<nat>)
    ensures r.Some? ==> 3 <= r.value <= |rest| && rest[0] == '\'' && rest[r.value - 1] == '\''
  {
    if |rest| > 0 && rest[0] == '\'' then
      var r := FirstClosedChar(rest, CCharLengths(rest, 1));
      if r.Some? then
        var k :| 0 <= k < |CCharLengths(rest, 1)| && r.value == CCharLengths(rest, 1)[k] + 2;
        r
      else r
    else None
  }

  /** `wchar_const`, `L` followed by a character constant. */
  function MatchWcharConst(rest: seq<char>): (r: Option<nat>)
    ensures r.Some? ==> 4 <= r.value <= |rest| && rest[0] == 'L'
  {
    if |rest| > 0 && rest[0] == 'L' then
      match MatchCharConst(rest[1..])
      case Some(n) => Some(n + 1)
      case None => None
    else None
  }

  /** Whether `s[i..e]` is a sequence of `cconst_char`s. Any backslash must start an escape;
      taking every escape at its shortest, two characters, decides the question, because
      the extra characters a longer octal or hex escape would take are digits, which are
      plain characters anyway. */
  predicate CCharsUpTo(s: seq<char>, i: nat, e: nat)
    requires i <= e <= |s|
    decreases e - i
  {
    if i == e then true
    else if IsPlainCChar(s[i]) then CCharsUpTo(s, i + 1, e)
    else if s[i] == '\\' && i + 1 < e && IsEscapeStart(s[i + 1]) then CCharsUpTo(s, i + 2, e)
    else false
  }

  /** `unmatched_quote`, `('cconst_char*\n)|('cconst_char*$)`: a quote whose characters run
      on to the end of the line (newline included) or to the end of the input. */
  function MatchUnmatchedQuote(rest: seq<char>): (r: Option<nat>)
    ensures r.Some? <==> |rest| > 0 && rest[0] == '\'' && CCharsUpTo(rest, 1, 1 + Span(rest, 1, IsNotNewline))
    ensures r.Some? ==> 1 <= r.value <= |rest|
    ensures r.Some? ==> forall k :: 0 <= k < r.value - 1 ==> rest[k] != '\n'
    ensures r.Some? ==> r.value == |rest| || rest[r.value - 1] == '\n'
  {
    if |rest| > 0 && rest[0] == '\'' then
      var e := 1 + Span(rest, 1, IsNotNewline);
      if CCharsUpTo(rest, 1, e) then Some(if e < |rest| then e + 1 else e) else None
    else None
  }

  /** `bad_escape`, a backslash followed by a character no valid escape starts with. */
  predicate IsBadEscapeChar(c: char) { !IsEscapeStart(c) }

  /** The first alternative of `bad_char_const`, `'` cconst_char `[^'\n]+` `'`, tried with
      each candidate length of the first character in turn. */
  function FirstOverlongChar(s: seq<char>, cands: seq<nat>): (r: Option<nat>)
    requires forall k :: 0 <= k < |cands| ==> 1 <= cands[k] && 1 + cands[k] <= |s|
    ensures r.Some? ==> 4 <= r.value <= |s| && s[r.value - 1] == '\''
  {
    if |cands| == 0 then None
    else
      var q := 1 + cands[0];
      var n := Span(s, q, IsNotQuoteOrNewline);
      if n >= 1 && q + n < |s| && s[q + n] == '\'' then Some(q + n + 1)
      else FirstOverlongChar(s, cands[1..])
  }

  /** `bad_char_const`, `('cconst_char[^'\n]+')|('')|('bad_escape[^'\n]*')`. */
  function MatchBadCharConst(rest: seq<char>): (r: Option<nat>)
    ensures r.Some? ==> 2 <= r.value <= |rest| && rest[0] == '\'' && rest[r.value - 1] == '\''
  {
    if |rest| > 0 && rest[0] == '\'' then
      var overlong := FirstOverlongChar(rest, CCharLengths(rest, 1));
      if overlong.Some? then overlong
      else if |rest| >= 2 && rest[1] == '\'' then Some(2)
      else if |rest| >= 3 && rest[1] == '\\' && IsBadEscapeChar(rest[2]) then
        var n := Span(rest, 3, IsNotQuoteOrNewline);
        if 3 + n < |rest| && rest[3 + n] == '\'' then Some(3 + n + 1) else None
      else None
    else None
  }

  /** Where a walk over `string_char`s from index `i` stops. */
  datatype StringWalk = Closed(at: nat) | BadEscapeAt(at: nat) | Unterminated

  /** Walks `string_char`s (`[^"\\\n]` or an escape) from index `i`: it stops at the first
      double quote that no escape consumes (`Closed`), at the first backslash followed by
      a character no escape starts with (`BadEscapeAt`), or at a newline or the end of the
      input (`Unterminated`). Every escape is taken at two characters; see `CCharsUpTo`. */
  function WalkString(s: seq<char>, i: nat): (w: StringWalk)
    ensures w.Closed? ==> i <= w.at < |s| && s[w.at] == '"'
    ensures w.BadEscapeAt? ==> i <= w.at && w.at + 1 < |s| && s[w.at] == '\\' && IsBadEscapeChar(s[w.at + 1])
    decreases |s| - i
  {
    if i >= |s| then Unterminated
    else if s[i] == '"' then Closed(i)
    else if s[i] == '\n' then Unterminated
    else if s[i] == '\\' then
      if i + 1 < |s| && IsEscapeStart(s[i + 1]) then WalkString(s, i + 2)
      else if i + 1 < |s| then BadEscapeAt(i)
      else Unterminated
    else WalkString(s, i + 1)
  }

  /** `string_literal`, `"` string_char* `"`. */
  function MatchString(rest: seq<char>): (r: Option<nat>)
    ensures r.Some? ==> 2 <= r.value <= |rest| && rest[0] == '"' && rest[r.value - 1] == '"'
  {
    if |rest| > 0 && rest[0] == '"' then
      match WalkString(rest, 1)
      case Closed(j) => Some(j + 1)
      case _ => None
    else None
  }

  /** `wstring_literal`, `L` followed by a string literal. */
  function MatchWstring(rest: seq<char>): (r: Option<nat>)
    ensures r.Some? ==> 3 <= r.value <= |rest| && rest[0] == 'L'
  {
    if |rest| > 0 && rest[0] == 'L' then
      match MatchString(rest[1..])
      case Some(n) => Some(n + 1)
      case None => None
    else None
  }

  /** `bad_string_literal`, `"` string_char* bad_escape string_char* `"`: the bad escape is
      the first one, and the literal closes at the next unescaped quote. */
  function MatchBadString(rest: seq<char>): (r: Option<nat>)
    ensures r.Some? ==> 4 <= r.value <= |rest| && rest[0] == '"' && rest[r.value - 1] == '"'
    ensures r.Some? ==> MatchString(rest).None?
  {
    if |rest| > 0 && rest[0] == '"' then
      match WalkString(rest, 1)
      case BadEscapeAt(b) =>
        (match WalkString(rest, b + 2)
         case Closed(j) => Some(j + 1)
         case _ => None)
      case _ => None
    else None
  }
}
