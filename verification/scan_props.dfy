/** Properties of whole scans of abaqus_lexer.py: how the mode stack grows, where
    tokens and diagnostics come from, and why a continued header line scans like one line. */
module ScanProperties {
  import opened Text
  import opened Lexer
  import LexerProperties

  // ---------------------------------------------------------------- whole scans

  /** One step of a scan: the step's event, then the scan of the rest. */
  lemma {:induction false} ScanUnfolds(s: string, st: ScanState)
    requires StackOk(st.mode, st.saved) && st.pos < |s|
    ensures var o := StepOn(s[st.pos..], st.mode, st.saved, st.lineno);
            ScanFrom(s, st).events == EventsOf(s, st, o.emission) + ScanFrom(s, After(st, o)).events
            && ScanFrom(s, st).final == ScanFrom(s, After(st, o)).final
  {
  }

  /** At the end of the input a scan says nothing more. */
  lemma {:induction false} ScanAtEnd(s: string, st: ScanState)
    requires StackOk(st.mode, st.saved) && st.pos >= |s|
    ensures ScanFrom(s, st) == Scan([], st)
  {
  }

  /** The tokens and diagnostics one step contributes. */
  lemma {:induction false} StepEvents(s: string, st: ScanState, e: Emission)
    requires st.pos < |s|
    ensures Tokens(EventsOf(s, st, e)) == (if e.Emit? then [Token(e.kind, e.value, st.lineno, st.pos)] else [])
    ensures Diagnostics(EventsOf(s, st, e))
            == (if e.Report? then [Diagnostic(e.error, st.lineno, TokColumn(s, st.pos))] else [])
  {
    var h := EventsOf(s, st, e);
    if |h| == 1 {
      assert h[1..] == [];
    }
  }

  lemma {:induction false} TokensAppend(a: seq<Event>, b: seq<Event>)
    ensures Tokens(a + b) == Tokens(a) + Tokens(b)
    decreases |a|
  {
    if |a| == 0 {
      assert a + b == b;
    } else {
      assert (a + b)[0] == a[0] && (a + b)[1..] == a[1..] + b;
      TokensAppend(a[1..], b);
      if a[0].Tok? {
        var h := [a[0].token];
        assert h + (Tokens(a[1..]) + Tokens(b)) == (h + Tokens(a[1..])) + Tokens(b);
      }
    }
  }

  lemma {:induction false} DiagnosticsAppend(a: seq<Event>, b: seq<Event>)
    ensures Diagnostics(a + b) == Diagnostics(a) + Diagnostics(b)
    decreases |a|
  {
    if |a| == 0 {
      assert a + b == b;
    } else {
      assert (a + b)[0] == a[0] && (a + b)[1..] == a[1..] + b;
      DiagnosticsAppend(a[1..], b);
      if a[0].Diag? {
        var h := [a[0].diagnostic];
        assert h + (Diagnostics(a[1..]) + Diagnostics(b)) == (h + Diagnostics(a[1..])) + Diagnostics(b);
      }
    }
  }

  function CountKind(ts: seq<Token>, k: Kind): (n: nat)
    ensures n <= |ts|
  {
    if |ts| == 0 then 0 else (if ts[0].kind == k then 1 else 0) + CountKind(ts[1..], k)
  }

  lemma {:induction false} CountKindAppend(a: seq<Token>, b: seq<Token>, k: Kind)
    ensures CountKind(a + b, k) == CountKind(a, k) + CountKind(b, k)
    decreases |a|
  {
    if |a| == 0 {
      assert a + b == b;
    } else {
      assert (a + b)[1..] == a[1..] + b;
      CountKindAppend(a[1..], b, k);
    }
  }

  /** The mode stack never shrinks: every header pushes and nothing pops for good, so at
      the end of a scan the stack has grown by exactly the number of KEYWORD tokens. */
  lemma {:induction false} StackGrowsPerHeader(s: string, st: ScanState)
    requires StackOk(st.mode, st.saved)
    ensures var r := ScanFrom(s, st);
            |r.final.saved| == |st.saved| + CountKind(Tokens(r.events), Keyword)
    decreases |s| - st.pos
  {
    if st.pos < |s| {
      var o := StepOn(s[st.pos..], st.mode, st.saved, st.lineno);
      var next := After(st, o);
      var head := EventsOf(s, st, o.emission);
      var tail := ScanFrom(s, next).events;
      ScanUnfolds(s, st);
      StepEvents(s, st, o.emission);
      StackGrowsPerHeader(s, next);
      TokensAppend(head, tail);
      CountKindAppend(Tokens(head), Tokens(tail), Keyword);
      assert CountKind(Tokens(head), Keyword) == if IsHeader(o.emission) then 1 else 0;
    } else {
      ScanAtEnd(s, st);
    }
  }

  /** Every diagnostic of a scan carries a column of at least 1 and a line no earlier than
      the one the scan started on. */
  lemma {:induction false} DiagnosticsLocated(s: string, st: ScanState)
    requires StackOk(st.mode, st.saved)
    ensures forall d :: d in Diagnostics(ScanFrom(s, st).events) ==> d.column >= 1 && d.lineno >= st.lineno
    decreases |s| - st.pos
  {
    if st.pos < |s| {
      var o := StepOn(s[st.pos..], st.mode, st.saved, st.lineno);
      var next := After(st, o);
      var head := EventsOf(s, st, o.emission);
      var tail := ScanFrom(s, next).events;
      ScanUnfolds(s, st);
      StepEvents(s, st, o.emission);
      DiagnosticsLocated(s, next);
      DiagnosticsAppend(head, tail);
    } else {
      ScanAtEnd(s, st);
    }
  }

  /** Token values are raw source text at the token's offset: a KEYWORD's value is the
      text after its `*`, every other value the text starting at the offset. */
  predicate FromSource(s: string, t: Token) {
    if t.kind == Keyword then
      t.lexpos + 1 + |t.value| <= |s| && s[t.lexpos] == '*' && t.value == s[t.lexpos + 1..t.lexpos + 1 + |t.value|]
    else
      t.lexpos + |t.value| <= |s| && t.value == s[t.lexpos..t.lexpos + |t.value|]
  }

  /** A step's token value is the text it matched: after the `*` for a KEYWORD, from the
      start for every other kind. */
  lemma {:induction false} StepValueFromRest(rest: string, mode: Mode, saved: seq<Mode>, lineno: nat)
    requires |rest| > 0 && StackOk(mode, saved)
    ensures var o := StepOn(rest, mode, saved, lineno);
            && (IsHeader(o.emission) ==>
                  rest[0] == '*' && 1 + |o.emission.value| <= |rest| && o.emission.value == rest[1..1 + |o.emission.value|])
            && (o.emission.Emit? && !IsHeader(o.emission) ==>
                  |o.emission.value| <= |rest| && o.emission.value == rest[..|o.emission.value|])
  {
    if !IsBlank(rest[0]) {
      var m := FirstMatch(RulesOf(mode), rest);
      if m.Some? {
        var text := rest[..m.value.len];
        assert m.value.rule == KeywordRule ==> rest[0] == '*' && text[1..] == rest[1..m.value.len];
        assert forall j :: 0 <= j <= |text| ==> text[..j] == rest[..j];
      }
    }
  }

  /** The token one step emits, if any, is source text at the step's offset. */
  lemma {:induction false} StepFromSource(s: string, st: ScanState)
    requires StackOk(st.mode, st.saved) && st.pos < |s|
    ensures var e := StepOn(s[st.pos..], st.mode, st.saved, st.lineno).emission;
            e.Emit? ==> FromSource(s, Token(e.kind, e.value, st.lineno, st.pos))
  {
    var rest := s[st.pos..];
    StepValueFromRest(rest, st.mode, st.saved, st.lineno);
    EmissionFromSource(s, st.pos, StepOn(rest, st.mode, st.saved, st.lineno).emission, st.lineno);
  }

  /** An emission whose value is the text at `pos` of `s`, after the `*` for a header,
      makes a token read from `s`. */
  lemma {:induction false} EmissionFromSource(s: string, pos: nat, e: Emission, lineno: nat)
    requires pos < |s|
    requires IsHeader(e) ==>
               s[pos..][0] == '*' && 1 + |e.value| <= |s[pos..]| && e.value == s[pos..][1..1 + |e.value|]
    requires e.Emit? && !IsHeader(e) ==> |e.value| <= |s[pos..]| && e.value == s[pos..][..|e.value|]
    ensures e.Emit? ==> FromSource(s, Token(e.kind, e.value, lineno, pos))
  {
    var rest := s[pos..];
    if IsHeader(e) {
      assert s[pos + 1..pos + 1 + |e.value|] == rest[1..1 + |e.value|];
    } else if e.Emit? {
      assert s[pos..pos + |e.value|] == rest[..|e.value|];
    }
  }

  /** The tokens of one step's events are source text from the step's offset on. */
  lemma {:induction false} EventsFromSource(s: string, st: ScanState, e: Emission)
    requires st.pos < |s| && (e.Emit? ==> FromSource(s, Token(e.kind, e.value, st.lineno, st.pos)))
    ensures forall t :: t in Tokens(EventsOf(s, st, e)) ==> FromSource(s, t) && t.lexpos >= st.pos
  {
    StepEvents(s, st, e);
  }

  lemma {:induction false} TokensFromSource(s: string, st: ScanState)
    requires StackOk(st.mode, st.saved)
    ensures forall t :: t in Tokens(ScanFrom(s, st).events) ==> FromSource(s, t) && t.lexpos >= st.pos
    decreases |s| - st.pos
  {
    if st.pos < |s| {
      var o := StepOn(s[st.pos..], st.mode, st.saved, st.lineno);
      var next := After(st, o);
      var head := EventsOf(s, st, o.emission);
      var tail := ScanFrom(s, next).events;
      ScanUnfolds(s, st);
      StepFromSource(s, st);
      EventsFromSource(s, st, o.emission);
      TokensFromSource(s, next);
      TokensAppend(head, tail);
    } else {
      ScanAtEnd(s, st);
    }
  }

  // ---------------------------------------------------------------- continuation lines

  /** What a scan says independently of where the input sits: token kinds, values and
      lines, and diagnostic errors and lines (columns and offsets are left out). */
  datatype Shape = TokShape(kind: Kind, value: string, lineno: nat) | DiagShape(error: LexError, lineno: nat)

  function ShapeOf(e: Event): Shape {
    match e
    case Tok(t) => TokShape(t.kind, t.value, t.lineno)
    case Diag(d) => DiagShape(d.error, d.lineno)
  }

  function Shapes(events: seq<Event>): (r: seq<Shape>)
    ensures |r| == |events|
  {
    if |events| == 0 then [] else [ShapeOf(events[0])] + Shapes(events[1..])
  }

  lemma {:induction false} ShapesAppend(a: seq<Event>, b: seq<Event>)
    ensures Shapes(a + b) == Shapes(a) + Shapes(b)
    decreases |a|
  {
    if |a| == 0 {
      assert a + b == b;
    } else {
      assert (a + b)[1..] == a[1..] + b;
      ShapesAppend(a[1..], b);
    }
  }

  /** The input that remains from position `p` on. */
  function Rest(s: string, p: nat): string {
    if p <= |s| then s[p..] else []
  }

  /** Inputs that agree from two offsets on agree from any equal distance further on. */
  lemma {:induction false} RestAfter(s1: string, p1: nat, s2: string, p2: nat, k: nat)
    requires p1 < |s1| && Rest(s1, p1) == Rest(s2, p2)
    ensures Rest(s1, p1 + k) == Rest(s2, p2 + k)
  {
    var rest := s1[p1..];
    assert p2 < |s2| && rest == s2[p2..];
    if p1 + k <= |s1| {
      assert s1[p1 + k..] == rest[k..];
      assert s2[p2 + k..] == rest[k..];
    }
  }

  /** Two steps with the same emission, from states on the same line whose scans of the
      rest agree, give scans that agree. */
  lemma {:induction false} StepsKeepShapes(s1: string, st1: ScanState, o1: Outcome, s2: string, st2: ScanState, o2: Outcome)
    requires StackOk(st1.mode, st1.saved) && StackOk(st2.mode, st2.saved) && st1.lineno == st2.lineno
    requires st1.pos < |s1| && o1 == StepOn(s1[st1.pos..], st1.mode, st1.saved, st1.lineno)
    requires st2.pos < |s2| && o2 == StepOn(s2[st2.pos..], st2.mode, st2.saved, st2.lineno)
    requires o1.emission == o2.emission
    requires Shapes(ScanFrom(s1, After(st1, o1)).events) == Shapes(ScanFrom(s2, After(st2, o2)).events)
    requires ScanFrom(s1, After(st1, o1)).final.mode == ScanFrom(s2, After(st2, o2)).final.mode
    requires ScanFrom(s1, After(st1, o1)).final.saved == ScanFrom(s2, After(st2, o2)).final.saved
    requires ScanFrom(s1, After(st1, o1)).final.lineno == ScanFrom(s2, After(st2, o2)).final.lineno
    ensures Shapes(ScanFrom(s1, st1).events) == Shapes(ScanFrom(s2, st2).events)
    ensures ScanFrom(s1, st1).final.mode == ScanFrom(s2, st2).final.mode
    ensures ScanFrom(s1, st1).final.saved == ScanFrom(s2, st2).final.saved
    ensures ScanFrom(s1, st1).final.lineno == ScanFrom(s2, st2).final.lineno
  {
    ScanUnfolds(s1, st1);
    ScanUnfolds(s2, st2);
    ShapesAppend(EventsOf(s1, st1, o1.emission), ScanFrom(s1, After(st1, o1)).events);
    ShapesAppend(EventsOf(s2, st2, o2.emission), ScanFrom(s2, After(st2, o2)).events);
    EventsShapes(s1, st1, s2, st2, o1.emission);
  }

  /** Two scans whose remaining inputs and modes agree say the same things. */
  lemma {:induction false} ScanIsLocal(s1: string, st1: ScanState, s2: string, st2: ScanState)
    requires StackOk(st1.mode, st1.saved)
    requires st1.mode == st2.mode && st1.saved == st2.saved && st1.lineno == st2.lineno
    requires Rest(s1, st1.pos) == Rest(s2, st2.pos)
    ensures Shapes(ScanFrom(s1, st1).events) == Shapes(ScanFrom(s2, st2).events)
    ensures ScanFrom(s1, st1).final.mode == ScanFrom(s2, st2).final.mode
    ensures ScanFrom(s1, st1).final.saved == ScanFrom(s2, st2).final.saved
    ensures ScanFrom(s1, st1).final.lineno == ScanFrom(s2, st2).final.lineno
    decreases |s1| - st1.pos
  {
    if st1.pos < |s1| {
      assert st2.pos < |s2|;
      var rest := s1[st1.pos..];
      assert rest == s2[st2.pos..];
      var o := StepOn(rest, st1.mode, st1.saved, st1.lineno);
      RestAfter(s1, st1.pos, s2, st2.pos, o.advance);
      ScanIsLocal(s1, After(st1, o), s2, After(st2, o));
      StepsKeepShapes(s1, st1, o, s2, st2, o);
    } else {
      assert |Rest(s2, st2.pos)| == 0;
      ScanAtEnd(s1, st1);
      ScanAtEnd(s2, st2);
    }
  }

  /** Two steps that emit the same thing into the same mode, stack and line, and leave
      the same input behind, start scans that say the same things. */
  lemma {:induction false} SameStepsSameShapes(s1: string, st1: ScanState, o1: Outcome, s2: string, st2: ScanState, o2: Outcome)
    requires StackOk(st1.mode, st1.saved) && StackOk(st2.mode, st2.saved) && st1.lineno == st2.lineno
    requires st1.pos < |s1| && o1 == StepOn(s1[st1.pos..], st1.mode, st1.saved, st1.lineno)
    requires st2.pos < |s2| && o2 == StepOn(s2[st2.pos..], st2.mode, st2.saved, st2.lineno)
    requires o1.emission == o2.emission && o1.mode == o2.mode && o1.saved == o2.saved && o1.lineno == o2.lineno
    requires Rest(s1, st1.pos + o1.advance) == Rest(s2, st2.pos + o2.advance)
    ensures Shapes(ScanFrom(s1, st1).events) == Shapes(ScanFrom(s2, st2).events)
  {
    var n1 := After(st1, o1);
    var n2 := After(st2, o2);
    assert StackOk(n1.mode, n1.saved) && n1.mode == n2.mode && n1.saved == n2.saved && n1.lineno == n2.lineno;
    assert Rest(s1, n1.pos) == Rest(s2, n2.pos);
    ScanIsLocal(s1, n1, s2, n2);
    StepsKeepShapes(s1, st1, o1, s2, st2, o2);
  }

  /** The same emission on the same line has the same shape wherever it sits. */
  lemma {:induction false} EventsShapes(s1: string, st1: ScanState, s2: string, st2: ScanState, e: Emission)
    requires st1.pos < |s1| && st2.pos < |s2| && st1.lineno == st2.lineno
    ensures Shapes(EventsOf(s1, st1, e)) == Shapes(EventsOf(s2, st2, e))
  {
    match e
    case Silent =>
    case Emit(k, v) =>
      assert EventsOf(s1, st1, e)[1..] == [];
      assert EventsOf(s2, st2, e)[1..] == [];
    case Report(err) =>
      assert EventsOf(s1, st1, e)[1..] == [];
      assert EventsOf(s2, st2, e)[1..] == [];
  }

  /** A header continued on the next line after a comma scans like its one-line form:
      `,\n` and `,` give the same COMMA token on the same line, and everything after
      follows alike (the newline of a continuation is not counted). */
  lemma {:induction false} ContinuationIsInvisible(s1: string, st1: ScanState, s2: string, st2: ScanState, r: string)
    requires st1.mode == KeywordState && st2.mode == KeywordState && |st1.saved| > 0
    requires st1.saved == st2.saved && st1.lineno == st2.lineno
    requires Rest(s1, st1.pos) == ",\n" + r && Rest(s2, st2.pos) == "," + r
    requires |r| == 0 || r[0] != '\n'
    ensures Shapes(ScanFrom(s1, st1).events) == Shapes(ScanFrom(s2, st2).events)
  {
    var rest1 := s1[st1.pos..];
    var rest2 := s2[st2.pos..];
    assert HasAt(rest1, 0, ",\n");
    LexerProperties.ContinuationIsComma(rest1, st1.saved, st1.lineno);
    assert rest2[0] == ',' && (|rest2| >= 2 ==> rest2[1] == r[0]);
    LexerProperties.CommaIsComma(rest2, KeywordState, st2.saved, st2.lineno);
    assert s1[st1.pos + 2..] == rest1[2..] == r;
    assert s2[st2.pos + 1..] == rest2[1..] == r;
    SameStepsSameShapes(s1, st1, StepOn(rest1, KeywordState, st1.saved, st1.lineno),
                        s2, st2, StepOn(rest2, KeywordState, st2.saved, st2.lineno));
  }
}
