/** `AbaqusParser.parse`: the scanner and the parser run together, and the first error
    of either kind ends the run.

    The parser pulls tokens from the scanner one at a time. A lexical anomaly calls
    `_lex_error_func`, which calls `_parse_error`, which raises: so the run ends at the
    first diagnostic the scanner reaches before the parser stops asking for tokens. The
    parser asks for the token on which it reports a syntax error, but for none after it;
    on a parse that completes, it asks for the end of the input, so every diagnostic of
    the whole text is reached. */
module Frontend {
  import opened Text
  import opened Lexer
  import opened Parser
  import opened ScanProperties
  import Actions
  import opened ParserProperties

  /** The events the scanner produces before it hands out token number `j` (counting from
      0), or all of them when there are not that many tokens. */
  function EventsBefore(events: seq<Event>, j: nat): (r: seq<Event>)
    ensures |r| <= |events|
    ensures r == events[..|r|]
  {
    if |events| == 0 then []
    else if events[0].Tok? then
      (if j == 0 then [] else [events[0]] + EventsBefore(events[1..], j - 1))
    else [events[0]] + EventsBefore(events[1..], j)
  }

  /** The lower-case hexadecimal digit of `n`. */
  function HexDigit(n: nat): (d: char)
    requires n < 16
    ensures d in "0123456789abcdef"
  {
    if n < 10 then ('0' as int + n) as char else ('a' as int + n - 10) as char
  }

  /** Python 2's `repr` of a one-byte string, as `t_error` formats the offending
      character: between single quotes, or double quotes for a single quote itself; a
      backslash, tab, newline and carriage return escaped; every other byte below 0x20 or
      from 0x7f up as `\xNN`. */
  function CharRepr(c: char): (r: string)
    ensures |r| >= 3 && r[0] == r[|r| - 1] && r[0] in "'\""
    ensures r[0] == '"' <==> c == '\''
    ensures |r| == 3 ==> r[1] == c
    ensures |r| > 3 ==> r[1] == '\\'
    ensures |r| == 3 <==> (0x20 <= c as int < 0x7f && c != '\\') || 0xff < c as int
  {
    if c == '\'' then "\"'\""
    else if c == '\\' then "'\\\\'"
    else if c == '\t' then "'\\t'"
    else if c == '\n' then "'\\n'"
    else if c == '\r' then "'\\r'"
    else if c as int < 0x20 || 0x7f <= c as int <= 0xff then
      "'\\x" + [HexDigit(c as int / 16), HexDigit(c as int % 16)] + "'"
    else "'" + [c] + "'"
  }

  lemma {:induction false} HexDigitInjective(m: nat, n: nat)
    requires m < 16 && n < 16 && HexDigit(m) == HexDigit(n)
    ensures m == n
  {
  }

  /** Different characters have different representations. */
  lemma {:induction false} CharReprInjective(a: char, b: char)
    requires CharRepr(a) == CharRepr(b)
    ensures a == b
  {
    var r := CharRepr(a);
    if |r| == 6 {
      assert r[3] == HexDigit(a as int / 16) && r[4] == HexDigit(a as int % 16);
      assert r[3] == HexDigit(b as int / 16) && r[4] == HexDigit(b as int % 16);
      HexDigitInjective(a as int / 16, b as int / 16);
      HexDigitInjective(a as int % 16, b as int % 16);
    } else if |r| == 4 {
      assert r[2] == (if a == '\\' then '\\' else if a == '\t' then 't' else if a == '\n' then 'n' else 'r');
      assert r[2] == (if b == '\\' then '\\' else if b == '\t' then 't' else if b == '\n' then 'n' else 'r');
    }
  }

  /** A byte from 0x7f up is shown as `\x` and its two lower-case hexadecimal digits. */
  lemma {:induction false} HighByteReprIsHex(c: char)
    requires 0x7f <= c as int <= 0xff
    ensures var r := CharRepr(c);
            && r == "'\\x" + [HexDigit(c as int / 16), HexDigit(c as int % 16)] + "'"
            && r[3] in "789abcdef"
  {
    assert 7 <= c as int / 16 <= 15;
  }

  /** The message `_parse_error` is given for a lexical anomaly. Each names the offending
      text, if any, at its end. */
  function LexMessage(e: LexError): (r: string)
    ensures e.InvalidCharConstant? ==> |e.text| <= |r| && r[|r| - |e.text|..] == e.text
    ensures e.IllegalCharacter? ==> |CharRepr(e.c)| <= |r| && r[|r| - |CharRepr(e.c)|..] == CharRepr(e.c)
  {
    match e
    case InvalidOctal => "Invalid octal constant"
    case UnmatchedQuote => "Unmatched '"
    case InvalidCharConstant(t) => "Invalid char constant " + t
    case InvalidStringEscape => "String contains invalid escape code"
    case IllegalCharacter(c) => "Illegal character " + CharRepr(c)
    case InvalidKeyword => "invalid keyword"
  }

  /** The kind of a lexical error shows in the first, second and ninth character of its
      message. */
  lemma {:induction false} LexMessageShowsKind(e: LexError)
    ensures var m := LexMessage(e);
            && |m| >= 9
            && (e.InvalidOctal? <==> m[0] == 'I' && m[8] == 'o')
            && (e.UnmatchedQuote? <==> m[0] == 'U')
            && (e.InvalidCharConstant? <==> m[0] == 'I' && m[1] == 'n' && m[8] == 'c')
            && (e.InvalidStringEscape? <==> m[0] == 'S')
            && (e.IllegalCharacter? <==> m[0] == 'I' && m[1] == 'l')
            && (e.InvalidKeyword? <==> m[0] == 'i')
  {
    var m := LexMessage(e);
    match e
    case InvalidOctal =>
      assert m[0] == 'I' && m[1] == 'n' && m[8] == 'o';
    case UnmatchedQuote =>
      assert m[0] == 'U';
    case InvalidCharConstant(t) =>
      assert m == "Invalid char constant " + t;
      assert m[0] == 'I' && m[1] == 'n' && m[8] == 'c';
    case InvalidStringEscape =>
      assert m[0] == 'S';
    case IllegalCharacter(c) =>
      assert m == "Illegal character " + CharRepr(c);
      assert m[0] == 'I' && m[1] == 'l' && m[8] == 'c';
    case InvalidKeyword =>
      assert m[0] == 'i';
  }

  /** Different lexical errors have different messages. */
  lemma {:induction false} LexMessageIdentifies(a: LexError, b: LexError)
    requires LexMessage(a) == LexMessage(b)
    ensures a == b
  {
    LexMessageShowsKind(a);
    LexMessageShowsKind(b);
    var m := LexMessage(a);
    if a.InvalidCharConstant? {
      assert m[22..] == a.text && LexMessage(b)[22..] == b.text;
    } else if a.IllegalCharacter? {
      assert m[18..] == CharRepr(a.c) && LexMessage(b)[18..] == CharRepr(b.c);
      CharReprInjective(a.c, b.c);
    }
  }

  /** Different syntax errors have different messages, the line aside. */
  lemma {:induction false} SyntaxMessageIdentifies(a: SyntaxError, b: SyntaxError)
    requires SyntaxMessage(a) == SyntaxMessage(b)
    ensures a.AtEndOfInput? <==> b.AtEndOfInput?
    ensures a.Before? ==> a.value == b.value
  {
    var m := SyntaxMessage(a);
    assert m[0] == SyntaxMessage(b)[0];
    if a.Before? && b.Before? {
      assert m[8..] == a.value && SyntaxMessage(b)[8..] == b.value;
    }
  }

  /** How a run ends: the value `parse` returns with the derivation it came from, or the
      error `_parse_error` raises. */
  datatype Verdict =
    | Accepted(tree: seq<KeywordNode>, value: string)
    | LexicalFailure(diagnostic: Diagnostic)
    | SyntaxFailure(error: SyntaxError)

  /** The message and the location of the raised error: a lexical error has a line and a
      column, a syntax error on a token only a line, the end of the input neither. */
  datatype Raised = Raised(message: string, lineno: Option<nat>, column: Option<nat>)

  function RaisedOf(v: Verdict): (r: Option<Raised>)
    ensures r.None? <==> v.Accepted?
  {
    match v
    case Accepted(_, _) => None
    case LexicalFailure(d) => Some(Raised(LexMessage(d.error), Some(d.lineno), Some(d.column)))
    case SyntaxFailure(Before(value, line)) => Some(Raised(SyntaxMessage(Before(value, line)), Some(line), None))
    case SyntaxFailure(AtEndOfInput) => Some(Raised(SyntaxMessage(AtEndOfInput), None, None))
  }

  /** The raised error tells every failure apart: its message, line and column determine
      the diagnostic or the syntax error it reports. */
  lemma {:induction false} RaisedOfIdentifies(v: Verdict, w: Verdict)
    requires !v.Accepted? && !w.Accepted?
    requires RaisedOf(v) == RaisedOf(w)
    ensures v == w
  {
    if v.LexicalFailure? && w.LexicalFailure? {
      LexMessageIdentifies(v.diagnostic.error, w.diagnostic.error);
    } else if v.SyntaxFailure? && w.SyntaxFailure? {
      SyntaxMessageIdentifies(v.error, w.error);
    }
  }

  /** The run of `parse` on the events the scanner produces for a text. */
  function Decide(events: seq<Event>): (v: Verdict)
    ensures v.Accepted? ==> |v.tree| > 0 && v.value == v.tree[0].header.value
  {
    var ts := Tokens(events);
    var r := ParseDocument(ts);
    var stop := if r.Parsed? then |ts| else r.at;
    var reached := Diagnostics(EventsBefore(events, stop));
    if |reached| > 0 then LexicalFailure(reached[0])
    else if r.Failed? then SyntaxFailure(SyntaxErrorAt(ts, r.at))
    else Accepted(r.value, Actions.KeywordListValue(r.value))
  }

  /** `name` is written in `text` right after a `*`. */
  predicate WrittenAfterStar(text: string, name: string) {
    exists p :: 0 <= p && p + 1 + |name| <= |text| && text[p] == '*' && text[p + 1..p + 1 + |name|] == name
  }

  /** `parse(text)`. What an accepted run returns is written in the text: it is the name
      right after a `*` there. */
  function Parse(text: string): (v: Verdict)
    ensures v.Accepted? ==> WrittenAfterStar(text, v.value)
  {
    var events := Tokenize(text).events;
    var v := Decide(events);
    if v.Accepted? then
      AcceptedExactly(events);
      TokensFromSource(text, Lexer.Start);
      KeywordWrittenAfterStar(text, Tokens(events)[0]);
      v
    else v
  }

  /** A header read from `text` is written there after its `*`. */
  lemma {:induction false} KeywordWrittenAfterStar(text: string, t: Token)
    requires t.kind == Keyword && FromSource(text, t)
    ensures WrittenAfterStar(text, t.value)
  {
    var p := t.lexpos;
    assert text[p + 1..p + 1 + |t.value|] == t.value;
  }

  // ---------------------------------------------------------------- properties

  /** The events before token `j` hold exactly the first `j` tokens. */
  lemma {:induction false} EventsBeforeHoldTokens(events: seq<Event>, j: nat)
    ensures Tokens(EventsBefore(events, j)) == Tokens(events)[..Min(j, |Tokens(events)|)]
    decreases |events|
  {
    if |events| > 0 {
      var e, rest := events[0], events[1..];
      assert events == [e] + rest;
      TokensAppend([e], rest);
      if e.Tok? && j > 0 {
        EventsBeforeHoldTokens(rest, j - 1);
        TokensAppend([e], EventsBefore(rest, j - 1));
      } else if !e.Tok? {
        EventsBeforeHoldTokens(rest, j);
        TokensAppend([e], EventsBefore(rest, j));
      }
    }
  }

  /** When there are no more than `j` tokens, the events before token `j` are all of them. */
  lemma {:induction false} EventsBeforeEnd(events: seq<Event>, j: nat)
    requires |Tokens(events)| <= j
    ensures EventsBefore(events, j) == events
    decreases |events|
  {
    if |events| > 0 {
      var e, rest := events[0], events[1..];
      assert events == [e] + rest;
      TokensAppend([e], rest);
      EventsBeforeEnd(rest, if e.Tok? then j - 1 else j);
    }
  }

  /** The diagnostics of a prefix of the events come first among all of them. */
  lemma {:induction false} PrefixDiagnostics(events: seq<Event>, n: nat)
    requires n <= |events|
    ensures Diagnostics(events) == Diagnostics(events[..n]) + Diagnostics(events[n..])
  {
    assert events == events[..n] + events[n..];
    DiagnosticsAppend(events[..n], events[n..]);
  }

  /** A run ends in a lexical error only on the first diagnostic of the text. */
  lemma {:induction false} LexicalErrorIsFirstDiagnostic(events: seq<Event>)
    ensures Decide(events).LexicalFailure? ==>
              |Diagnostics(events)| > 0 && Decide(events).diagnostic == Diagnostics(events)[0]
  {
    var ts := Tokens(events);
    var r := ParseDocument(ts);
    var stop := if r.Parsed? then |ts| else r.at;
    var pre := EventsBefore(events, stop);
    PrefixDiagnostics(events, |pre|);
  }

  /** A run is accepted exactly when the text scans without a diagnostic and its tokens
      form a `keyword_list`; its value is then the name of the first KEYWORD, and its tree
      a derivation of the tokens. */
  lemma {:induction false} AcceptedExactly(events: seq<Event>)
    ensures Decide(events).Accepted? <==> Diagnostics(events) == [] && ParseDocument(Tokens(events)).Parsed?
    ensures var ts := Tokens(events);
            Decide(events).Accepted? ==> |ts| > 0 && ts[0].kind == Keyword && Decide(events).value == ts[0].value
    ensures Decide(events).Accepted? ==>
              DocumentWF(Decide(events).tree) && DocumentYield(Decide(events).tree) == Tokens(events)
  {
    var ts := Tokens(events);
    var r := ParseDocument(ts);
    if r.Parsed? {
      EventsBeforeEnd(events, |ts|);
      var k := r.value[0];
      assert DocumentYield(r.value) == KeywordYield(k) + DocumentYield(r.value[1..]);
      assert ts[0] == k.header;
    }
  }

  /** A syntax error is reported exactly when the parser fails and no diagnostic comes
      before the error token, and then on that token, or at the end of the input. */
  lemma {:induction false} SyntaxErrorHasNoEarlierDiagnostic(events: seq<Event>)
    ensures var r := ParseDocument(Tokens(events));
            Decide(events).SyntaxFailure? <==> r.Failed? && Diagnostics(EventsBefore(events, r.at)) == []
    ensures var r := ParseDocument(Tokens(events));
            Decide(events).SyntaxFailure? ==> Decide(events).error == SyntaxErrorAt(Tokens(events), r.at)
  {
  }

  /** The verdict in terms of the automaton of module ParserProperties: a text is accepted
      exactly when it scans cleanly and its tokens leave the automaton in an accepting
      phase; otherwise, where the automaton dies or stops short, at `at`, the run reports
      a syntax error exactly when no diagnostic precedes token `at`. */
  lemma {:induction false} VerdictFollowsAutomaton(events: seq<Event>)
    ensures var ts := Tokens(events);
            Decide(events).Accepted? <==> Diagnostics(events) == [] && Accepting(PhaseAt(ts, |ts|))
    ensures var ts := Tokens(events);
            forall at: nat :: ErrorAt(ts, at) ==>
              && (Decide(events).SyntaxFailure? <==> Diagnostics(EventsBefore(events, at)) == [])
              && (Decide(events).SyntaxFailure? ==> Decide(events).error == SyntaxErrorAt(ts, at))
  {
    var ts := Tokens(events);
    var v := Decide(events);
    ParserFollowsAutomaton(ts);
    AcceptedExactly(events);
    SyntaxErrorHasNoEarlierDiagnostic(events);
    forall at: nat | ErrorAt(ts, at)
      ensures && (v.SyntaxFailure? <==> Diagnostics(EventsBefore(events, at)) == [])
              && (v.SyntaxFailure? ==> v.error == SyntaxErrorAt(ts, at))
    {
      ErrorIsWhereParserFails(ts, at);
    }
  }

  /** The parser fails exactly where the automaton places the error. */
  lemma {:induction false} ErrorIsWhereParserFails(ts: seq<Token>, at: nat)
    requires ErrorAt(ts, at)
    ensures ParseDocument(ts) == Failed(at)
  {
    var r := ParseDocument(ts);
    ParserFollowsAutomaton(ts);
    ErrorAtRejects(ts, at);
    assert r.Failed?;
    ErrorPlaceIsUnique(ts, at, r.at);
  }

  // ---------------------------------------------------------------- data lines

  /** The events with the LASTTOKENONLINE tokens taken out. The scanner ends every data
      line with one, but no production of the grammar mentions it, so as written every
      data line is a syntax error. Parsing without them is the evident intent. */
  function DropLineEnds(events: seq<Event>): (r: seq<Event>)
    ensures |r| <= |events|
  {
    if |events| == 0 then []
    else if events[0].Tok? && events[0].token.kind == LastTokenOnLine then DropLineEnds(events[1..])
    else [events[0]] + DropLineEnds(events[1..])
  }

  /** The tokens other than LASTTOKENONLINE, in order. */
  function WithoutLineEnds(ts: seq<Token>): (r: seq<Token>)
    ensures |r| <= |ts|
  {
    if |ts| == 0 then []
    else (if ts[0].kind == LastTokenOnLine then [] else [ts[0]]) + WithoutLineEnds(ts[1..])
  }

  /** `parse` with data lines accepted: the run on the events without their line ends. */
  function DecideWithDataLines(events: seq<Event>): Verdict {
    Decide(DropLineEnds(events))
  }

  function ParseWithDataLines(text: string): Verdict {
    DecideWithDataLines(Tokenize(text).events)
  }

  /** Taking out the line ends keeps every diagnostic and every other token, in order. */
  lemma {:induction false} DropLineEndsKeepsTheRest(events: seq<Event>)
    ensures Tokens(DropLineEnds(events)) == WithoutLineEnds(Tokens(events))
    ensures Diagnostics(DropLineEnds(events)) == Diagnostics(events)
    decreases |events|
  {
    if |events| > 0 {
      var e, rest := events[0], events[1..];
      DropLineEndsKeepsTheRest(rest);
      assert Diagnostics(events) == (if e.Diag? then [e.diagnostic] else []) + Diagnostics(rest);
      assert [e][1..] == [];
      if e.Tok? {
        var ts := Tokens(events);
        assert ts == [e.token] + Tokens(rest);
        assert ts[0] == e.token && ts[1..] == Tokens(rest);
        if e.token.kind != LastTokenOnLine {
          assert WithoutLineEnds(ts) == [e.token] + WithoutLineEnds(Tokens(rest));
          assert DropLineEnds(events) == [e] + DropLineEnds(rest);
          TokensAppend([e], DropLineEnds(rest));
          DiagnosticsAppend([e], DropLineEnds(rest));
        }
      } else {
        assert Tokens(events) == Tokens(rest);
        assert DropLineEnds(events) == [e] + DropLineEnds(rest);
        TokensAppend([e], DropLineEnds(rest));
        DiagnosticsAppend([e], DropLineEnds(rest));
      }
    }
  }

  /** Without line ends to take out, nothing changes. */
  lemma {:induction false} NoLineEndsNoChange(events: seq<Event>)
    requires forall i :: 0 <= i < |events| && events[i].Tok? ==> events[i].token.kind != LastTokenOnLine
    ensures DropLineEnds(events) == events
    ensures DecideWithDataLines(events) == Decide(events)
    decreases |events|
  {
    if |events| > 0 {
      NoLineEndsNoChange(events[1..]);
      assert [events[0]] + events[1..] == events;
    }
  }

  /** A text whose tokens, line ends aside, derive a deck is accepted with that deck when
      it scans cleanly: data lines are read as the `data_list` of the keyword above them. */
  lemma {:induction false} DataLinesAccepted(events: seq<Event>, doc: seq<KeywordNode>)
    requires DocumentWF(doc) && Diagnostics(events) == []
    requires WithoutLineEnds(Tokens(events)) == DocumentYield(doc)
    ensures DecideWithDataLines(events) == Accepted(doc, doc[0].header.value)
  {
    var es := DropLineEnds(events);
    DropLineEndsKeepsTheRest(events);
    DerivationParsesBack(doc);
    AcceptedExactly(es);
  }
}
