/** Character classes and small sequence helpers shared by the scanner and the parser.
    Characters are Dafny `char`s; the classes are the ASCII classes the lexer's regular
    expressions spell out (`[a-zA-Z]`, `[0-9]`, `[0-7]`, ...). */
module Text {

  datatype Option<+T> = None | Some(value: T)

  predicate IsLetter(c: char) { 'a' <= c <= 'z' || 'A' <= c <= 'Z' }

  predicate IsDigit(c: char) { '0' <= c <= '9' }

  predicate IsOctDigit(c: char) { '0' <= c <= '7' }

  predicate IsHexDigit(c: char) { IsDigit(c) || 'a' <= c <= 'f' || 'A' <= c <= 'F' }

  /** `[a-zA-Z_]`, the first character of an identifier. */
  predicate IsIdentStart(c: char) { IsLetter(c) || c == '_' }

  /** `[0-9a-zA-Z_]`, the later characters of an identifier. */
  predicate IsIdentChar(c: char) { IsIdentStart(c) || IsDigit(c) }

  /** The characters every scanner mode ignores: `' \t'`. */
  predicate IsBlank(c: char) { c == ' ' || c == '\t' }

  predicate IsNewline(c: char) { c == '\n' }

  /** What the regex `.` matches. */
  predicate IsNotNewline(c: char) { c != '\n' }

  /** `[^'\n]` */
  predicate IsNotQuoteOrNewline(c: char) { c != '\'' && c != '\n' }

  /** Length of the longest run of characters satisfying `p` that starts at index `i`:
      what a greedy `p*` consumes there. */
  function Span(s: seq<char>, i: nat, p: char -> bool): (n: nat)
    requires i <= |s|
    ensures i + n <= |s|
    ensures forall k :: i <= k < i + n ==> p(s[k])
    ensures i + n == |s| || !p(s[i + n])
    decreases |s| - i
  {
    if i == |s| || !p(s[i]) then 0 else 1 + Span(s, i + 1, p)
  }

  /** Whether `s` holds the text `w` at index `i`. */
  predicate HasAt(s: seq<char>, i: nat, w: seq<char>) {
    i + |w| <= |s| && s[i..i + |w|] == w
  }

  /** Python's `text.count("\n")`. */
  function CountNewlines(s: seq<char>): (n: nat)
    ensures n <= |s|
    ensures (forall k :: 0 <= k < |s| ==> s[k] == '\n') ==> n == |s|
    ensures (forall k :: 0 <= k < |s| ==> s[k] != '\n') ==> n == 0
  {
    if |s| == 0 then 0
    else (if s[0] == '\n' then 1 else 0) + CountNewlines(s[1..])
  }

  function Min(a: nat, b: nat): nat { if a <= b then a else b }
}
