/** Whole runs of `parse` on small decks, worked out from the step lemmas of the scanner
    and the parse-back lemma of the grammar. */
module Scenarios {
  import opened Text
  import opened Lexer
  import opened LexerProperties
  import opened ScanProperties
  import opened Parser
  import opened ParserProperties
  import opened Actions
  import opened Frontend

  /** The text of a keyword line `*a` followed by a data line holding the digit `b`. */
  function DataDeck(a: char, b: char): string {
    ['*', a, '\n', b, '\n']
  }

  // The scan of `DataDeck(a, b)`, one step at a time from the end.

  lemma {:induction false} DataLineEndStep(a: char, b: char)
    ensures var s := DataDeck(a, b);
            ScanFrom(s, ScanState(4, 2, [Initial], DataLineState)).events
            == [Tok(Token(LastTokenOnLine, "\n", 2, 4))] + ScanFrom(s, ScanState(5, 3, [Initial], DataLineState)).events
  {
    DataLineEndOutcome(a, b);
    ScanUnfolds(DataDeck(a, b), ScanState(4, 2, [Initial], DataLineState));
  }

  lemma {:induction false} DataLineEndOutcome(a: char, b: char)
    ensures StepOn(DataDeck(a, b)[4..], DataLineState, [Initial], 2)
            == Outcome(1, DataLineState, [Initial], 3, Emit(LastTokenOnLine, "\n"))
  {
    var rest := DataDeck(a, b)[4..];
    assert rest == "\n";
    NewlineRunInDataLines(rest, [Initial], 2);
  }

  lemma {:induction false} DataLineEnd(a: char, b: char)
    ensures ScanFrom(DataDeck(a, b), ScanState(4, 2, [Initial], DataLineState)).events
            == [Tok(Token(LastTokenOnLine, "\n", 2, 4))]
  {
    DataLineEndStep(a, b);
    ScanAtEnd(DataDeck(a, b), ScanState(5, 3, [Initial], DataLineState));
  }

  lemma {:induction false} DataLineNumberStep(a: char, b: char)
    requires '1' <= b <= '9'
    ensures var s := DataDeck(a, b);
            ScanFrom(s, ScanState(3, 2, [Initial], DataLineState)).events
            == [Tok(Token(IntConstDec, [b], 2, 3))] + ScanFrom(s, ScanState(4, 2, [Initial], DataLineState)).events
  {
    var s := DataDeck(a, b);
    var rest := s[3..];
    assert rest == [b, '\n'];
    DigitsAreDecimal(rest, DataLineState, [Initial], 2, 1);
    assert rest[..1] == [b];
    ScanUnfolds(s, ScanState(3, 2, [Initial], DataLineState));
  }

  lemma {:induction false} DataLineNumber(a: char, b: char)
    requires '1' <= b <= '9'
    ensures ScanFrom(DataDeck(a, b), ScanState(3, 2, [Initial], DataLineState)).events
            == [Tok(Token(IntConstDec, [b], 2, 3)), Tok(Token(LastTokenOnLine, "\n", 2, 4))]
  {
    DataLineEnd(a, b);
    DataLineNumberStep(a, b);
  }

  lemma {:induction false} DataLineHeaderEndStep(a: char, b: char)
    ensures var s := DataDeck(a, b);
            ScanFrom(s, ScanState(2, 1, [Initial], KeywordState)).events
            == ScanFrom(s, ScanState(3, 2, [Initial], DataLineState)).events
  {
    var s := DataDeck(a, b);
    HeaderNewlineEntersDataLines(s[2..], [Initial], 1);
    ScanUnfolds(s, ScanState(2, 1, [Initial], KeywordState));
  }

  lemma {:induction false} DataLineKeywordStep(a: char, b: char)
    requires IsLetter(a)
    ensures var s := DataDeck(a, b);
            Tokenize(s).events == [Tok(Token(Keyword, [a], 1, 0))] + ScanFrom(s, ScanState(2, 1, [Initial], KeywordState)).events
  {
    var s := DataDeck(a, b);
    HeaderPushesKeywordState(s[0..], Initial, [], 1);
    var o := StepOn(s[0..], Initial, [], 1);
    forall k | 1 <= k < o.advance
      ensures IsIdentChar(s[k])
    {
      assert s[k] == o.emission.value[k - 1];
    }
    assert !IsIdentChar(s[2]);
    assert o.advance == 2;
    assert o == Outcome(2, KeywordState, [Initial], 1, Emit(Keyword, [a]));
    ScanUnfolds(s, Lexer.Start);
  }

  /** The scan of a keyword line followed by one data line: KEYWORD, the number, and the
      newline that ends the data line as a LASTTOKENONLINE token. */
  lemma {:induction false} DataLineScan(a: char, b: char)
    requires IsLetter(a) && '1' <= b <= '9'
    ensures Tokenize(DataDeck(a, b)).events
            == [Tok(Token(Keyword, [a], 1, 0)), Tok(Token(IntConstDec, [b], 2, 3)), Tok(Token(LastTokenOnLine, "\n", 2, 4))]
  {
    DataLineNumber(a, b);
    DataLineHeaderEndStep(a, b);
    DataLineKeywordStep(a, b);
  }

  /** The events of a scan that hands out the tokens `ts` and reports nothing. */
  function Toks(ts: seq<Token>): seq<Event> {
    seq(|ts|, i requires 0 <= i < |ts| => Tok(ts[i]))
  }

  lemma {:induction false} CleanScan(ts: seq<Token>, j: nat)
    ensures Tokens(Toks(ts)) == ts && Diagnostics(Toks(ts)) == []
    ensures Diagnostics(EventsBefore(Toks(ts), j)) == []
    decreases |ts|
  {
    if |ts| > 0 {
      var es := Toks(ts);
      assert es[0] == Tok(ts[0]) && es[1..] == Toks(ts[1..]);
      CleanScan(ts[1..], if j > 0 then j - 1 else 0);
      if j > 0 {
        assert EventsBefore(es, j) == [es[0]] + EventsBefore(Toks(ts[1..]), j - 1);
        DiagnosticsAppend([es[0]], EventsBefore(Toks(ts[1..]), j - 1));
      }
      TokensAppend([es[0]], es[1..]);
      DiagnosticsAppend([es[0]], es[1..]);
      assert es == [es[0]] + es[1..];
    }
  }

  /** With nothing reported by the scanner, the verdict is the parser's. */
  lemma {:induction false} CleanDecide(ts: seq<Token>)
    ensures var r := ParseDocument(ts);
            && (r.Parsed? ==> Decide(Toks(ts)) == Accepted(r.value, KeywordListValue(r.value)))
            && (r.Failed? ==> Decide(Toks(ts)) == SyntaxFailure(SyntaxErrorAt(ts, r.at)))
  {
    var r := ParseDocument(ts);
    CleanScan(ts, if r.Parsed? then |ts| else r.at);
  }

  /** A keyword with one data item, then a LASTTOKENONLINE: the parser stops on the third
      token, and with no diagnostic before it that is the error reported. */
  lemma {:induction false} LineEndAfterDataRejected(t0: Token, t1: Token, t2: Token)
    requires t0.kind == Keyword && IsDataKind(t1.kind) && t2.kind == LastTokenOnLine
    ensures Decide([Tok(t0), Tok(t1), Tok(t2)]) == SyntaxFailure(Before(t2.value, t2.lineno))
  {
    var ts := [t0, t1, t2];
    assert Toks(ts) == [Tok(t0), Tok(t1), Tok(t2)];
    assert PhaseAt(ts, 1) == AfterHeader;
    assert PhaseAt(ts, 2) == AfterData;
    assert PhaseAt(ts, 3) == Dead;
    ErrorIsWhereParserFails(ts, 2);
    CleanDecide(ts);
  }

  /** A data line that ends in a comma is still rejected once line ends are dropped: the
      last COMMA waits for a data item that never comes. */
  lemma {:induction false} TrailingCommaRejected(t0: Token, t1: Token, t2: Token, t3: Token)
    requires t0.kind == Keyword && IsDataKind(t1.kind) && t2.kind == Comma && t3.kind == LastTokenOnLine
    ensures DecideWithDataLines([Tok(t0), Tok(t1), Tok(t2), Tok(t3)]) == SyntaxFailure(AtEndOfInput)
  {
    var es := [Tok(t0), Tok(t1), Tok(t2), Tok(t3)];
    var ts := [t0, t1, t2];
    assert DropLineEnds(es) == Toks(ts) by {
      assert [Tok(t3)][1..] == [] && DropLineEnds([Tok(t3)]) == [];
      assert [Tok(t2), Tok(t3)][1..] == [Tok(t3)] && DropLineEnds([Tok(t2), Tok(t3)]) == [Tok(t2)];
      assert es[1..][1..] == [Tok(t2), Tok(t3)] && DropLineEnds(es[1..]) == [Tok(t1), Tok(t2)];
      assert Toks(ts) == [Tok(t0), Tok(t1), Tok(t2)];
    }
    assert PhaseAt(ts, 1) == AfterHeader;
    assert PhaseAt(ts, 2) == AfterData;
    assert PhaseAt(ts, 3) == NeedData;
    ErrorIsWhereParserFails(ts, 3);
    CleanDecide(ts);
  }

  /** A data line is a syntax error: the grammar has no place for the LASTTOKENONLINE that
      ends it, and the error names that newline. */
  lemma {:induction false} DataLineRejected(a: char, b: char)
    requires IsLetter(a) && '1' <= b <= '9'
    ensures Parse(DataDeck(a, b)) == SyntaxFailure(Before("\n", 2))
  {
    DataLineScan(a, b);
    LineEndAfterDataRejected(Token(Keyword, [a], 1, 0), Token(IntConstDec, [b], 2, 3), Token(LastTokenOnLine, "\n", 2, 4));
  }

  /** The same three tokens with the line end taken out: one keyword with one data item. */
  lemma {:induction false} LineEndAfterDataDropped(t0: Token, t1: Token, t2: Token)
    requires t0.kind == Keyword && IsDataKind(t1.kind) && t2.kind == LastTokenOnLine
    ensures DecideWithDataLines([Tok(t0), Tok(t1), Tok(t2)])
            == Accepted([KeywordNode(t0, [], [DataNode(None, t1)])], t0.value)
  {
    var ts := [t0, t1, t2];
    assert Toks(ts) == [Tok(t0), Tok(t1), Tok(t2)];
    CleanScan(ts, 0);
    assert WithoutLineEnds(ts) == [t0, t1] by {
      assert ts[1..] == [t1, t2] && ts[1..][1..] == [t2] && ts[1..][1..][1..] == [];
      assert WithoutLineEnds([t2]) == [];
      assert WithoutLineEnds([t1, t2]) == [t1];
    }
    var doc := [KeywordNode(t0, [], [DataNode(None, t1)])];
    assert DocumentWF(doc) by {
      assert DataListWF(doc[0].data) by {
        assert doc[0].data[1..] == [];
      }
      assert KeywordWF(doc[0]);
      assert doc[1..] == [];
    }
    assert DocumentYield(doc) == [t0, t1] by {
      assert DataListYield(doc[0].data) == [t1];
    }
    DataLinesAccepted(Toks(ts), doc);
  }

  /** With the line ends taken out, the same deck is one keyword with one data item. */
  lemma {:induction false} DataLineAcceptedWhenCorrected(a: char, b: char)
    requires IsLetter(a) && '1' <= b <= '9'
    ensures ParseWithDataLines(DataDeck(a, b))
            == Accepted([KeywordNode(Token(Keyword, [a], 1, 0), [], [DataNode(None, Token(IntConstDec, [b], 2, 3))])], [a])
  {
    DataLineScan(a, b);
    LineEndAfterDataDropped(Token(Keyword, [a], 1, 0), Token(IntConstDec, [b], 2, 3), Token(LastTokenOnLine, "\n", 2, 4));
  }

  // ---------------------------------------------------------------- a header with a value

  /** The text of a keyword line `*a,b=c`: keyword `a`, parameter `b` with value `c`. */
  function HeaderDeck(a: char, b: char, c: char): string {
    ['*', a, ',', b, '=', c, '\n']
  }

  /** The parameter's identifier ends at the `=` or newline after its one letter. */
  lemma {:induction false} OneLetterParam(rest: string, lineno: nat)
    requires |rest| >= 2 && IsLetter(rest[0]) && (rest[1] == '=' || rest[1] == '\n')
    ensures StepOn(rest, KeywordState, [Initial], lineno)
            == Outcome(1, KeywordState, [Initial], lineno, Emit(Param, [rest[0]]))
  {
    IdentifierIsParamInHeader(rest, [Initial], lineno);
    var o := StepOn(rest, KeywordState, [Initial], lineno);
    assert !IsIdentChar(rest[1]);
    assert o.advance == 1;
    assert rest[..1] == [rest[0]];
  }

  lemma {:induction false} HeaderDeckEnd(a: char, b: char, c: char)
    ensures ScanFrom(HeaderDeck(a, b, c), ScanState(6, 1, [Initial], KeywordState)).events == []
  {
    var s := HeaderDeck(a, b, c);
    var st := ScanState(6, 1, [Initial], KeywordState);
    HeaderNewlineEntersDataLines(s[6..], [Initial], 1);
    ScanUnfolds(s, st);
    ScanAtEnd(s, ScanState(7, 2, [Initial], DataLineState));
  }

  lemma {:induction false} HeaderDeckValueStep(a: char, b: char, c: char)
    requires IsLetter(c)
    ensures var s := HeaderDeck(a, b, c);
            ScanFrom(s, ScanState(5, 1, [Initial], KeywordState)).events
            == [Tok(Token(Param, [c], 1, 5))] + ScanFrom(s, ScanState(6, 1, [Initial], KeywordState)).events
  {
    var s := HeaderDeck(a, b, c);
    OneLetterParam(s[5..], 1);
    ScanUnfolds(s, ScanState(5, 1, [Initial], KeywordState));
  }

  lemma {:induction false} HeaderDeckEqualsStep(a: char, b: char, c: char)
    ensures var s := HeaderDeck(a, b, c);
            ScanFrom(s, ScanState(4, 1, [Initial], KeywordState)).events
            == [Tok(Token(Equals, "=", 1, 4))] + ScanFrom(s, ScanState(5, 1, [Initial], KeywordState)).events
  {
    var s := HeaderDeck(a, b, c);
    EqualsIsEquals(s[4..], KeywordState, [Initial], 1);
    ScanUnfolds(s, ScanState(4, 1, [Initial], KeywordState));
  }

  lemma {:induction false} HeaderDeckNameStep(a: char, b: char, c: char)
    requires IsLetter(b)
    ensures var s := HeaderDeck(a, b, c);
            ScanFrom(s, ScanState(3, 1, [Initial], KeywordState)).events
            == [Tok(Token(Param, [b], 1, 3))] + ScanFrom(s, ScanState(4, 1, [Initial], KeywordState)).events
  {
    var s := HeaderDeck(a, b, c);
    OneLetterParam(s[3..], 1);
    ScanUnfolds(s, ScanState(3, 1, [Initial], KeywordState));
  }

  lemma {:induction false} HeaderDeckCommaStep(a: char, b: char, c: char)
    requires IsLetter(b)
    ensures var s := HeaderDeck(a, b, c);
            ScanFrom(s, ScanState(2, 1, [Initial], KeywordState)).events
            == [Tok(Token(Comma, ",", 1, 2))] + ScanFrom(s, ScanState(3, 1, [Initial], KeywordState)).events
  {
    var s := HeaderDeck(a, b, c);
    CommaIsComma(s[2..], KeywordState, [Initial], 1);
    ScanUnfolds(s, ScanState(2, 1, [Initial], KeywordState));
  }

  lemma {:induction false} HeaderDeckValue(a: char, b: char, c: char)
    requires IsLetter(c)
    ensures ScanFrom(HeaderDeck(a, b, c), ScanState(5, 1, [Initial], KeywordState)).events
            == [Tok(Token(Param, [c], 1, 5))]
  {
    HeaderDeckEnd(a, b, c);
    HeaderDeckValueStep(a, b, c);
  }

  lemma {:induction false} HeaderDeckEquals(a: char, b: char, c: char)
    requires IsLetter(c)
    ensures ScanFrom(HeaderDeck(a, b, c), ScanState(4, 1, [Initial], KeywordState)).events
            == [Tok(Token(Equals, "=", 1, 4)), Tok(Token(Param, [c], 1, 5))]
  {
    HeaderDeckValue(a, b, c);
    HeaderDeckEqualsStep(a, b, c);
  }

  lemma {:induction false} HeaderDeckName(a: char, b: char, c: char)
    requires IsLetter(b) && IsLetter(c)
    ensures ScanFrom(HeaderDeck(a, b, c), ScanState(3, 1, [Initial], KeywordState)).events
            == [Tok(Token(Param, [b], 1, 3)), Tok(Token(Equals, "=", 1, 4)), Tok(Token(Param, [c], 1, 5))]
  {
    HeaderDeckEquals(a, b, c);
    HeaderDeckNameStep(a, b, c);
  }

  /** The scan of `*a,b=c` from the `,` on: COMMA, PARAM, EQUALS, PARAM. */
  lemma {:induction false} HeaderDeckComma(a: char, b: char, c: char)
    requires IsLetter(b) && IsLetter(c)
    ensures ScanFrom(HeaderDeck(a, b, c), ScanState(2, 1, [Initial], KeywordState)).events
            == [Tok(Token(Comma, ",", 1, 2)), Tok(Token(Param, [b], 1, 3)), Tok(Token(Equals, "=", 1, 4)),
                Tok(Token(Param, [c], 1, 5))]
  {
    HeaderDeckName(a, b, c);
    HeaderDeckCommaStep(a, b, c);
  }

  lemma {:induction false} HeaderDeckStart(a: char, b: char, c: char)
    requires IsLetter(a)
    ensures ScanFrom(HeaderDeck(a, b, c), Lexer.Start).events
            == [Tok(Token(Keyword, [a], 1, 0))] + ScanFrom(HeaderDeck(a, b, c), ScanState(2, 1, [Initial], KeywordState)).events
  {
    var s := HeaderDeck(a, b, c);
    HeaderPushesKeywordState(s, Initial, [], 1);
    var o := StepOn(s, Initial, [], 1);
    forall k | 1 <= k < o.advance
      ensures IsIdentChar(s[k])
    {
      assert s[k] == o.emission.value[k - 1];
    }
    assert !IsIdentChar(s[2]);
    assert o.advance == 2;
    assert s[1..2] == [a];
    assert o == Outcome(2, KeywordState, [Initial], 1, Emit(Keyword, [a]));
    assert s[0..] == s;
    ScanUnfolds(s, Lexer.Start);
  }

  /** The scan of `*a,b=c`: KEYWORD, COMMA, PARAM, EQUALS, PARAM, all on line 1. */
  lemma {:induction false} HeaderDeckScan(a: char, b: char, c: char)
    requires IsLetter(a) && IsLetter(b) && IsLetter(c)
    ensures Tokenize(HeaderDeck(a, b, c)).events == Toks(HeaderDeckTokens(a, b, c))
  {
    HeaderDeckComma(a, b, c);
    HeaderDeckStart(a, b, c);
    HeaderDeckEvents(a, b, c);
  }

  lemma {:induction false} HeaderDeckEvents(a: char, b: char, c: char)
    ensures Toks(HeaderDeckTokens(a, b, c))
            == [Tok(Token(Keyword, [a], 1, 0))]
               + [Tok(Token(Comma, ",", 1, 2)), Tok(Token(Param, [b], 1, 3)), Tok(Token(Equals, "=", 1, 4)),
                  Tok(Token(Param, [c], 1, 5))]
  {
    var ts := HeaderDeckTokens(a, b, c);
    assert Toks(ts) == [Tok(ts[0]), Tok(ts[1]), Tok(ts[2]), Tok(ts[3]), Tok(ts[4])];
  }

  /** The tokens of `*a,b=c` and their derivation: one keyword with one assigned
      parameter. */
  function HeaderDeckTokens(a: char, b: char, c: char): seq<Token> {
    [Token(Keyword, [a], 1, 0), Token(Comma, ",", 1, 2), Token(Param, [b], 1, 3),
     Token(Equals, "=", 1, 4), Token(Param, [c], 1, 5)]
  }

  function HeaderDeckTree(a: char, b: char, c: char): seq<KeywordNode> {
    var ts := HeaderDeckTokens(a, b, c);
    [KeywordNode(ts[0], [ParamNode(ts[1], ts[2], Some(Assignment(ts[3], ts[4])))], [])]
  }

  lemma {:induction false} HeaderDeckDerivation(a: char, b: char, c: char)
    ensures ParseDocument(HeaderDeckTokens(a, b, c)) == Parsed(HeaderDeckTree(a, b, c), 5)
  {
    var ts := HeaderDeckTokens(a, b, c);
    var doc := HeaderDeckTree(a, b, c);
    var p := doc[0].params[0];
    assert ParamsYield([p]) == ts[1..];
    assert KeywordWF(doc[0]);
    assert DocumentYield(doc) == ts;
    DerivationParsesBack(doc);
  }

  /** `*a,b=c` parses, and `parse` returns `a`. */
  lemma {:induction false} HeaderDeckAccepted(a: char, b: char, c: char)
    requires IsLetter(a) && IsLetter(b) && IsLetter(c)
    ensures Parse(HeaderDeck(a, b, c)) == Accepted(HeaderDeckTree(a, b, c), [a])
  {
    HeaderDeckScan(a, b, c);
    HeaderDeckDerivation(a, b, c);
    CleanDecide(HeaderDeckTokens(a, b, c));
    assert KeywordListValue(HeaderDeckTree(a, b, c)) == [a];
  }

  /** `*a,b=c` parses and `parse` returns `a`; the value `param_list` gives the parameter
      is None, while the corrected document keeps `b` with the value `c`. */
  lemma {:induction false} HeaderDeckParsed(a: char, b: char, c: char)
    requires IsLetter(a) && IsLetter(b) && IsLetter(c)
    ensures Parse(HeaderDeck(a, b, c)) == Accepted(HeaderDeckTree(a, b, c), [a])
    ensures ParamListValue(HeaderDeckTree(a, b, c)[0].params) == [None]
    ensures DocumentOf(HeaderDeckTree(a, b, c)) == [Directive([a], [Parameter([b], Some([c]))], [])]
  {
    HeaderDeckAccepted(a, b, c);
    HeaderDeckValues(a, b, c);
  }

  lemma {:induction false} HeaderDeckValues(a: char, b: char, c: char)
    ensures ParamListValue(HeaderDeckTree(a, b, c)[0].params) == [None]
    ensures DocumentOf(HeaderDeckTree(a, b, c)) == [Directive([a], [Parameter([b], Some([c]))], [])]
  {
    var doc := HeaderDeckTree(a, b, c);
    assert ParametersOf(doc[0].params) == [Parameter([b], Some([c]))] by {
      assert doc[0].params[1..] == [];
    }
    assert doc[1..] == [];
  }

  // ---------------------------------------------------------------- values of the actions

  /** `*k,a,b`: both bare parameters are in the tree, but the list `param_list` builds
      holds the second COMMA where `b` belongs; the corrected document keeps `a` and `b`. */
  lemma {:induction false} SecondParamBecomesComma(ts: seq<Token>)
    requires |ts| == 5 && ts[0].kind == Keyword && ts[1].kind == Comma && ts[2].kind == Param
    requires ts[3].kind == Comma && ts[4].kind == Param
    ensures var doc := [KeywordNode(ts[0], [ParamNode(ts[1], ts[2], None), ParamNode(ts[3], ts[4], None)], [])];
            && Decide(Toks(ts)) == Accepted(doc, ts[0].value)
            && ParamListValue(doc[0].params) == [Some(ts[2].value), Some(ts[3].value)]
            && ParametersOf(doc[0].params) == [Parameter(ts[2].value, None), Parameter(ts[4].value, None)]
  {
    var ps := [ParamNode(ts[1], ts[2], None), ParamNode(ts[3], ts[4], None)];
    var doc := [KeywordNode(ts[0], ps, [])];
    assert ParamsWF(ps) by {
      assert ps[1..][1..] == [];
    }
    assert ParamsYield(ps) == ts[1..] by {
      assert ps[1..][1..] == [];
      assert ParamsYield(ps[1..]) == [ts[3], ts[4]];
      assert ParamYield(ps[0]) == [ts[1], ts[2]];
      assert ts[1..] == [ts[1], ts[2]] + [ts[3], ts[4]];
    }
    assert DocumentYield(doc) == ts;
    DerivationParsesBack(doc);
    CleanDecide(ts);
    assert ParamListValue(ps) == [Some(ts[2].value), Some(ts[3].value)] by {
      assert ps[..1] == [ps[0]];
    }
    assert ParametersOf(ps) == [Parameter(ts[2].value, None), Parameter(ts[4].value, None)] by {
      assert ps[1..][1..] == [];
    }
  }

  /** The tree of `*k` with data `1,2` derives exactly its four tokens. */
  lemma {:induction false} CommaDataDerivation(ts: seq<Token>)
    requires |ts| == 4 && ts[0].kind == Keyword && IsDataKind(ts[1].kind) && ts[2].kind == Comma
    requires IsDataKind(ts[3].kind)
    ensures var doc := [KeywordNode(ts[0], [], [DataNode(None, ts[1]), DataNode(Some(ts[2]), ts[3])])];
            DocumentWF(doc) && DocumentYield(doc) == ts
  {
    var ds := [DataNode(None, ts[1]), DataNode(Some(ts[2]), ts[3])];
    var doc := [KeywordNode(ts[0], [], ds)];
    assert DataListWF(ds) by {
      assert ds[1..][1..] == [];
    }
    assert DataListYield(ds) == ts[1..] by {
      assert ds[1..][1..] == [];
      assert DataListYield(ds[1..]) == [ts[2], ts[3]];
      assert DataYield(ds[0]) == [ts[1]];
      assert ts[1..] == [ts[1]] + [ts[2], ts[3]];
    }
    assert doc[1..] == [];
    assert DocumentYield(doc) == ts;
  }

  /** `*k` with data `1,2`: the list `data_list` builds holds the COMMA where `2`
      belongs; the corrected document keeps both items. */
  lemma {:induction false} SecondItemBecomesComma(ts: seq<Token>)
    requires |ts| == 4 && ts[0].kind == Keyword && IsDataKind(ts[1].kind) && ts[2].kind == Comma
    requires IsDataKind(ts[3].kind)
    ensures var doc := [KeywordNode(ts[0], [], [DataNode(None, ts[1]), DataNode(Some(ts[2]), ts[3])])];
            && Decide(Toks(ts)) == Accepted(doc, ts[0].value)
            && DataListValue(doc[0].data) == [ts[1].value, ts[2].value]
            && DataOf(doc[0].data) == [ts[1].value, ts[3].value]
  {
    var ds := [DataNode(None, ts[1]), DataNode(Some(ts[2]), ts[3])];
    var doc := [KeywordNode(ts[0], [], ds)];
    CommaDataDerivation(ts);
    DerivationParsesBack(doc);
    CleanDecide(ts);
    assert DataListValue(ds) == [ts[1].value, ts[2].value] by {
      assert ds[..1] == [ds[0]];
    }
    assert DataOf(ds) == [ts[1].value, ts[3].value] by {
      assert ds[1..][1..] == [];
    }
  }

  /** Two bare keywords: `parse` returns the first name only, while the corrected document
      has one directive for each. */
  lemma {:induction false} SecondKeywordDropped(ts: seq<Token>)
    requires |ts| == 2 && ts[0].kind == Keyword && ts[1].kind == Keyword
    ensures var doc := [KeywordNode(ts[0], [], []), KeywordNode(ts[1], [], [])];
            && Decide(Toks(ts)) == Accepted(doc, ts[0].value)
            && DocumentOf(doc) == [Directive(ts[0].value, [], []), Directive(ts[1].value, [], [])]
  {
    var doc := [KeywordNode(ts[0], [], []), KeywordNode(ts[1], [], [])];
    assert doc[1..][1..] == [];
    assert DocumentWF(doc);
    assert DocumentYield(doc[1..]) == [ts[1]];
    assert KeywordYield(doc[0]) == [ts[0]];
    assert DocumentYield(doc) == ts;
    DerivationParsesBack(doc);
    CleanDecide(ts);
    assert doc[..1] == [doc[0]];
  }
}
