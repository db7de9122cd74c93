/** The recogniser of module Parser against a finite automaton for the language of the
    grammar of abaqus_parser.py, written independently of it. An LR parser reports a
    syntax error on the first token that no sentence of the grammar can have after the
    tokens before it; the automaton's dead state marks exactly those tokens, and the
    recogniser is shown to stop on the same one. A second group of lemmas shows that the
    derivation tree of any sentence parses back to itself, so the tree is unique. */
module ParserProperties {
  import opened Text
  import opened Lexer
  import opened Parser

  // ---------------------------------------------------------------- the automaton

  /** What has been read of a `keyword_list`. */
  datatype Phase =
    | Start        // nothing yet: a KEYWORD must come
    | AfterHeader  // a KEYWORD, or a complete `param` with a value
    | AfterName    // a `param` that may still take `EQUALS value`
    | NeedParam    // a COMMA before a `param`
    | NeedValue    // `PARAM EQUALS`
    | AfterData    // a `data`
    | NeedData     // `data_list COMMA`
    | Dead         // no sentence starts with what has been read

  function Delta(q: Phase, k: Kind): Phase {
    match q
    case Start => if k == Keyword then AfterHeader else Dead
    case AfterHeader =>
      if k == Keyword then AfterHeader
      else if k == Comma then NeedParam
      else if k == Id || k == IntConstDec || k == FloatConst then AfterData
      else Dead
    case AfterName =>
      if k == Keyword then AfterHeader
      else if k == Comma then NeedParam
      else if k == Equals then NeedValue
      else if k == Id || k == IntConstDec || k == FloatConst then AfterData
      else Dead
    case NeedParam => if k == Param then AfterName else Dead
    case NeedValue => if k == Param || k == IntConstDec || k == FloatConst then AfterHeader else Dead
    case AfterData =>
      if k == Keyword then AfterHeader
      else if k == Comma then NeedData
      else if k == Id || k == IntConstDec || k == FloatConst then AfterData
      else Dead
    case NeedData => if k == Id || k == IntConstDec || k == FloatConst then AfterData else Dead
    case Dead => Dead
  }

  /** The states in which the tokens read form a `keyword_list`. */
  predicate Accepting(q: Phase) { q == AfterHeader || q == AfterName || q == AfterData }

  /** The automaton after the first `n` tokens. */
  function PhaseAt(ts: seq<Token>, n: nat): Phase
    requires n <= |ts|
  {
    if n == 0 then Start else Delta(PhaseAt(ts, n - 1), ts[n - 1].kind)
  }

  /** The automaton run over a sequence of token types. */
  function Run(q: Phase, ks: seq<Kind>): Phase
    decreases |ks|
  {
    if |ks| == 0 then q else Run(Delta(q, ks[0]), ks[1..])
  }

  /** A shortest way to finish a sentence from a state. */
  function Completion(q: Phase): seq<Kind> {
    match q
    case Start => [Keyword]
    case NeedParam => [Param]
    case NeedValue => [Param]
    case NeedData => [Id]
    case _ => []
  }

  /** Every state but the dead one can still reach a sentence, so a token leads to the
      dead state exactly when no sentence continues the tokens read with it. */
  lemma {:induction false} LiveStatesComplete(q: Phase)
    ensures q != Dead <==> Accepting(Run(q, Completion(q)))
  {
    var c := Completion(q);
    if |c| == 1 {
      assert Run(q, c) == Run(Delta(q, c[0]), c[1..]);
      assert c[1..] == [];
    }
  }

  lemma {:induction false} DeadStaysDead(ts: seq<Token>, a: nat, b: nat)
    requires a <= b <= |ts| && PhaseAt(ts, a) == Dead
    ensures PhaseAt(ts, b) == Dead
    decreases b - a
  {
    if a < b {
      DeadStaysDead(ts, a + 1, b);
    }
  }

  /** `at` is where an LR parser for the grammar reports the syntax error: the tokens
      before it start some sentence, and the token at `at` does not continue any, or
      the input ends there without forming one. */
  predicate ErrorAt(ts: seq<Token>, at: nat) {
    && at <= |ts|
    && PhaseAt(ts, at) != Dead
    && (at < |ts| ==> PhaseAt(ts, at + 1) == Dead)
    && (at == |ts| ==> !Accepting(PhaseAt(ts, at)))
  }

  /** There is only one such place. */
  lemma {:induction false} ErrorPlaceIsUnique(ts: seq<Token>, a: nat, b: nat)
    requires ErrorAt(ts, a) && ErrorAt(ts, b)
    ensures a == b
  {
    if a < b {
      DeadStaysDead(ts, a + 1, b);
    } else if b < a {
      DeadStaysDead(ts, b + 1, a);
    }
  }

  // ---------------------------------------------------------------- the recogniser follows it

  /** Between parameters: after a KEYWORD or after a complete `param`. */
  predicate InHeader(q: Phase) { q == AfterHeader || q == AfterName }

  /** Only a KEYWORD or a `data` may follow the token before `n`. */
  predicate OnlyKeywordOrData(ts: seq<Token>, n: nat)
    requires n <= |ts|
  {
    n < |ts| && ts[n].kind != Keyword && !IsDataKind(ts[n].kind) ==> PhaseAt(ts, n + 1) == Dead
  }

  /** Only a KEYWORD may follow the token before `n`. */
  predicate OnlyKeyword(ts: seq<Token>, n: nat)
    requires n <= |ts|
  {
    n < |ts| && ts[n].kind != Keyword ==> PhaseAt(ts, n + 1) == Dead
  }

  /** The automaton agrees with the parameters read from `i`. */
  predicate ParamsFollow(ts: seq<Token>, i: nat)
    requires i <= |ts|
  {
    var r := ParseParams(ts, i);
    && (r.Parsed? ==> InHeader(PhaseAt(ts, r.next)) && OnlyKeywordOrData(ts, r.next))
    && (r.Failed? ==> ErrorAt(ts, r.at))
  }

  lemma {:induction false} ParamsFollowAutomaton(ts: seq<Token>, i: nat)
    requires i <= |ts| && InHeader(PhaseAt(ts, i))
    requires PhaseAt(ts, i) == AfterName && i < |ts| ==> ts[i].kind != Equals
    ensures ParamsFollow(ts, i)
    decreases |ts| - i, 1
  {
    if i == |ts| || ts[i].kind != Comma {
      assert ParseParams(ts, i) == Parsed([], i);
    } else {
      assert PhaseAt(ts, i + 1) == NeedParam;
      if i + 1 == |ts| || ts[i + 1].kind != Param {
        assert ParseParams(ts, i) == Failed(i + 1);
      } else {
        assert PhaseAt(ts, i + 2) == AfterName;
        if i + 2 < |ts| && ts[i + 2].kind == Equals {
          assert PhaseAt(ts, i + 3) == NeedValue;
          if i + 3 == |ts| || !IsValueKind(ts[i + 3].kind) {
            assert ParseParams(ts, i) == Failed(i + 3);
          } else {
            assert PhaseAt(ts, i + 4) == AfterHeader;
            ParamsFollowItem(ts, i, i + 4);
          }
        } else {
          ParamsFollowItem(ts, i, i + 2);
        }
      }
    }
  }

  /** After one `param`, spanning `ts[i..k]`, the parameters from `i` end where those
      from `k` end. */
  lemma {:induction false} ParamsShift(ts: seq<Token>, i: nat, k: nat)
    requires i + 2 <= k <= |ts| && ts[i].kind == Comma && ts[i + 1].kind == Param
    requires (k == i + 2 && (i + 2 == |ts| || ts[i + 2].kind != Equals))
             || (k == i + 4 && ts[i + 2].kind == Equals && IsValueKind(ts[i + 3].kind))
    ensures var r := ParseParams(ts, i);
            var q := ParseParams(ts, k);
            && (r.Failed? <==> q.Failed?)
            && (r.Failed? ==> r.at == q.at)
            && (r.Parsed? ==> r.next == q.next)
  {
  }

  /** After one `param` read from `i` to `k`, the automaton agrees from `i` as it does
      from `k`. */
  lemma {:induction false} ParamsFollowItem(ts: seq<Token>, i: nat, k: nat)
    requires i + 2 <= k <= |ts| && ts[i].kind == Comma && ts[i + 1].kind == Param
    requires (k == i + 2 && (i + 2 == |ts| || ts[i + 2].kind != Equals) && PhaseAt(ts, k) == AfterName)
             || (k == i + 4 && ts[i + 2].kind == Equals && IsValueKind(ts[i + 3].kind) && PhaseAt(ts, k) == AfterHeader)
    ensures ParamsFollow(ts, i)
    decreases |ts| - i, 0
  {
    ParamsFollowAutomaton(ts, k);
    ParamsShift(ts, i, k);
  }

  /** After an item, or a COMMA and an item, the rest of a `data_list` ends where the
      rest after them ends. */
  lemma {:induction false} MoreDataShift(ts: seq<Token>, i: nat, k: nat)
    requires i < k <= |ts|
    requires (k == i + 1 && IsDataKind(ts[i].kind))
             || (k == i + 2 && ts[i].kind == Comma && IsDataKind(ts[i + 1].kind))
    ensures var r := ParseMoreData(ts, i);
            var q := ParseMoreData(ts, k);
            && (r.Failed? <==> q.Failed?)
            && (r.Failed? ==> r.at == q.at)
            && (r.Parsed? ==> r.next == q.next)
  {
  }

  /** The automaton agrees with the rest of a `data_list` read from `i`. */
  predicate MoreDataFollows(ts: seq<Token>, i: nat)
    requires i <= |ts|
  {
    var r := ParseMoreData(ts, i);
    && (r.Parsed? ==> PhaseAt(ts, r.next) == AfterData && OnlyKeyword(ts, r.next))
    && (r.Failed? ==> ErrorAt(ts, r.at))
  }

  lemma {:induction false} MoreDataFollowsAutomaton(ts: seq<Token>, i: nat)
    requires i <= |ts| && PhaseAt(ts, i) == AfterData
    ensures MoreDataFollows(ts, i)
    decreases |ts| - i, 1
  {
    if i < |ts| && IsDataKind(ts[i].kind) {
      assert PhaseAt(ts, i + 1) == AfterData;
      MoreDataFollowsItem(ts, i, i + 1);
    } else if i < |ts| && ts[i].kind == Comma {
      assert PhaseAt(ts, i + 1) == NeedData;
      if i + 1 == |ts| || !IsDataKind(ts[i + 1].kind) {
        assert i + 1 < |ts| ==> PhaseAt(ts, i + 2) == Dead;
        assert ParseMoreData(ts, i) == Failed(i + 1);
      } else {
        assert PhaseAt(ts, i + 2) == AfterData;
        MoreDataFollowsItem(ts, i, i + 2);
      }
    } else {
      assert ParseMoreData(ts, i) == Parsed([], i);
    }
  }

  /** After an item read from `i` to `k`, the automaton agrees from `i` as it does from `k`. */
  lemma {:induction false} MoreDataFollowsItem(ts: seq<Token>, i: nat, k: nat)
    requires i < k <= |ts| && PhaseAt(ts, k) == AfterData
    requires (k == i + 1 && IsDataKind(ts[i].kind))
             || (k == i + 2 && ts[i].kind == Comma && IsDataKind(ts[i + 1].kind))
    ensures MoreDataFollows(ts, i)
    decreases |ts| - i, 0
  {
    MoreDataFollowsAutomaton(ts, k);
    MoreDataShift(ts, i, k);
  }

  lemma {:induction false} DataFollowsAutomaton(ts: seq<Token>, m: nat)
    requires m <= |ts| && InHeader(PhaseAt(ts, m)) && OnlyKeywordOrData(ts, m)
    ensures var r := ParseData(ts, m);
            && (r.Parsed? ==> Accepting(PhaseAt(ts, r.next)) && OnlyKeyword(ts, r.next))
            && (r.Failed? ==> ErrorAt(ts, r.at))
  {
    if m < |ts| && IsDataKind(ts[m].kind) {
      assert PhaseAt(ts, m + 1) == AfterData;
      MoreDataFollowsAutomaton(ts, m + 1);
      assert MoreDataFollows(ts, m + 1);
    }
  }

  lemma {:induction false} KeywordFollowsAutomaton(ts: seq<Token>, i: nat)
    requires i < |ts| && (PhaseAt(ts, i) == Start || Accepting(PhaseAt(ts, i))) && OnlyKeyword(ts, i)
    ensures var r := ParseKeyword(ts, i);
            && (r.Parsed? ==> Accepting(PhaseAt(ts, r.next)) && OnlyKeyword(ts, r.next))
            && (r.Failed? ==> ErrorAt(ts, r.at))
  {
    if ts[i].kind == Keyword {
      assert PhaseAt(ts, i + 1) == AfterHeader;
      ParamsFollowAutomaton(ts, i + 1);
      var rp := ParseParams(ts, i + 1);
      if rp.Parsed? {
        DataFollowsAutomaton(ts, rp.next);
      }
    }
  }

  lemma {:induction false} KeywordsFollowAutomaton(ts: seq<Token>, i: nat)
    requires i < |ts| && (PhaseAt(ts, i) == Start || Accepting(PhaseAt(ts, i))) && OnlyKeyword(ts, i)
    ensures var r := ParseKeywords(ts, i);
            && (r.Parsed? ==> Accepting(PhaseAt(ts, |ts|)))
            && (r.Failed? ==> ErrorAt(ts, r.at))
    decreases |ts| - i
  {
    KeywordFollowsAutomaton(ts, i);
    var rk := ParseKeyword(ts, i);
    if rk.Parsed? && rk.next < |ts| {
      KeywordsFollowAutomaton(ts, rk.next);
    }
  }

  /** The recogniser accepts exactly the sentences of the grammar, and when it rejects,
      it stops where an LR parser for the grammar reports the error. */
  lemma {:induction false} ParserFollowsAutomaton(ts: seq<Token>)
    ensures ParseDocument(ts).Parsed? <==> Accepting(PhaseAt(ts, |ts|))
    ensures ParseDocument(ts).Failed? ==> ErrorAt(ts, ParseDocument(ts).at)
  {
    var r := ParseDocument(ts);
    if |ts| > 0 {
      KeywordsFollowAutomaton(ts, 0);
      assert r == ParseKeywords(ts, 0);
    } else {
      assert r == Failed(0) && ErrorAt(ts, 0);
    }
    if r.Failed? {
      ErrorAtRejects(ts, r.at);
    }
  }

  /** Where there is an error, the whole input is not a sentence. */
  lemma {:induction false} ErrorAtRejects(ts: seq<Token>, at: nat)
    requires ErrorAt(ts, at)
    ensures !Accepting(PhaseAt(ts, |ts|))
  {
    if at < |ts| {
      DeadStaysDead(ts, at + 1, |ts|);
    }
  }

  /** The token types no production uses. */
  predicate IsUnusedKind(k: Kind) {
    k == LastTokenOnLine || k == Period || k == CharConst || k == WcharConst
    || k == StringLiteral || k == WstringLiteral || k == IntConstOct || k == IntConstHex
  }

  lemma {:induction false} UnusedKindKills(q: Phase, k: Kind)
    requires IsUnusedKind(k)
    ensures Delta(q, k) == Dead
  {
  }

  /** A token type no production uses stops the parse on or before it. */
  lemma {:induction false} UnusedTokenIsSyntaxError(ts: seq<Token>, n: nat)
    requires n < |ts|
    requires IsUnusedKind(ts[n].kind)
    ensures ParseDocument(ts).Failed? && ParseDocument(ts).at <= n
  {
    UnusedKindKills(PhaseAt(ts, n), ts[n].kind);
    DeathFails(ts, n);
  }

  /** Once the automaton dies on token `n`, the parser fails on or before it. */
  lemma {:induction false} DeathFails(ts: seq<Token>, n: nat)
    requires n < |ts| && PhaseAt(ts, n + 1) == Dead
    ensures ParseDocument(ts).Failed? && ParseDocument(ts).at <= n
  {
    DeadStaysDead(ts, n + 1, |ts|);
    RejectedFails(ts);
    ErrorBeforeDeath(ts, ParseDocument(ts).at, n);
  }

  /** Input the automaton rejects makes the parser fail where the automaton errs. */
  lemma {:induction false} RejectedFails(ts: seq<Token>)
    requires !Accepting(PhaseAt(ts, |ts|))
    ensures ParseDocument(ts).Failed? && ErrorAt(ts, ParseDocument(ts).at)
  {
    ParserFollowsAutomaton(ts);
  }

  /** The error lies on or before any token on which the automaton dies. */
  lemma {:induction false} ErrorBeforeDeath(ts: seq<Token>, at: nat, n: nat)
    requires ErrorAt(ts, at) && n < |ts| && PhaseAt(ts, n + 1) == Dead
    ensures at <= n
  {
    if at > n {
      DeadStaysDead(ts, n + 1, at);
    }
  }

  /** A deck must open with a KEYWORD: anything else is the error token. */
  lemma {:induction false} FirstTokenMustBeKeyword(ts: seq<Token>)
    requires |ts| > 0 && ts[0].kind != Keyword
    ensures ParseDocument(ts) == Failed(0)
  {
    ParserFollowsAutomaton(ts);
    var r := ParseDocument(ts);
    assert PhaseAt(ts, 1) == Dead;
    DeadStaysDead(ts, 1, |ts|);
    assert r.Failed? && ErrorAt(ts, r.at);
    assert ErrorAt(ts, 0);
    ErrorPlaceIsUnique(ts, 0, r.at);
  }

  // ---------------------------------------------------------------- derivations parse back

  /** `ts` holds `y` from `i` on. */
  predicate HoldsAt(ts: seq<Token>, i: nat, y: seq<Token>) {
    i + |y| <= |ts| && ts[i..i + |y|] == y
  }

  lemma {:induction false} HoldsSplit(ts: seq<Token>, i: nat, a: seq<Token>, b: seq<Token>)
    requires HoldsAt(ts, i, a + b)
    ensures HoldsAt(ts, i, a) && HoldsAt(ts, i + |a|, b)
  {
    assert ts[i..i + |a|] == (a + b)[..|a|];
    assert ts[i + |a|..i + |a| + |b|] == (a + b)[|a|..];
  }

  lemma {:induction false} HoldsToken(ts: seq<Token>, i: nat, y: seq<Token>, j: nat)
    requires HoldsAt(ts, i, y) && j < |y|
    ensures ts[i + j] == y[j]
  {
    assert ts[i..i + |y|][j] == y[j];
  }

  /** The token after `n` cannot extend a parameter list. */
  predicate EndsParams(ts: seq<Token>, n: nat) {
    n >= |ts| || (ts[n].kind != Comma && ts[n].kind != Equals)
  }

  /** A parameter list opens with the COMMA of its first parameter. */
  lemma {:induction false} ParamsHead(ps: seq<ParamNode>, ts: seq<Token>, i: nat)
    requires |ps| > 0 && HoldsAt(ts, i, ParamsYield(ps))
    ensures i < |ts| && ts[i] == ps[0].comma
  {
    var py := ParamYield(ps[0]);
    assert ParamsYield(ps) == py + ParamsYield(ps[1..]);
    HoldsSplit(ts, i, py, ParamsYield(ps[1..]));
    HoldsToken(ts, i, py, 0);
  }

  /** The recogniser reads the parameter `p` off its tokens and goes on after them. */
  lemma {:induction false} ParamFromTokens(p: ParamNode, ts: seq<Token>, i: nat)
    requires ParamWF(p) && HoldsAt(ts, i, ParamYield(p))
    requires p.assignment.None? && i + 2 < |ts| ==> ts[i + 2].kind != Equals
    ensures ParseParams(ts, i) == ParamsAfter(ts, i, i + |ParamYield(p)|, p)
  {
    var py := ParamYield(p);
    HoldsToken(ts, i, py, 0);
    HoldsToken(ts, i, py, 1);
    if p.assignment.Some? {
      HoldsToken(ts, i, py, 2);
      HoldsToken(ts, i, py, 3);
    }
  }

  lemma {:induction false} ParamsAfterParsed(ts: seq<Token>, i: nat, k: nat, p: ParamNode, ps: seq<ParamNode>, n: nat)
    requires i < k <= |ts| && ts[i..k] == ParamYield(p) && ParamWF(p)
    requires ParseParams(ts, k) == Parsed(ps, n)
    ensures ParamsAfter(ts, i, k, p) == Parsed([p] + ps, n)
  {
  }

  /** A parameter on its tokens, then a parsed list: the whole list parses. */
  lemma {:induction false} ParamsParseCons(ts: seq<Token>, i: nat, p: ParamNode, ps: seq<ParamNode>, k: nat, n: nat)
    requires ParamWF(p) && HoldsAt(ts, i, ParamYield(p)) && k == i + |ParamYield(p)|
    requires p.assignment.None? && i + 2 < |ts| ==> ts[i + 2].kind != Equals
    requires ParseParams(ts, k) == Parsed(ps, n)
    ensures ParseParams(ts, i) == Parsed([p] + ps, n)
  {
    ParamFromTokens(p, ts, i);
    ParamsAfterParsed(ts, i, k, p, ps, n);
  }

  /** After a parameter list laid out on its tokens comes no EQUALS. */
  lemma {:induction false} NoEqualsAfterParams(ps: seq<ParamNode>, ts: seq<Token>, i: nat)
    requires ParamsWF(ps)
    requires HoldsAt(ts, i, ParamsYield(ps)) && EndsParams(ts, i + |ParamsYield(ps)|)
    ensures i < |ts| ==> ts[i].kind != Equals
  {
    if |ps| > 0 {
      ParamsHead(ps, ts, i);
    }
  }

  /** A parameter list laid out on its tokens is its first parameter laid out on its own
      tokens, then the rest of the list, and no EQUALS follows a bare first parameter. */
  lemma {:induction false} ParamsSplit(ps: seq<ParamNode>, ts: seq<Token>, i: nat)
    requires |ps| > 0 && ParamsWF(ps)
    requires HoldsAt(ts, i, ParamsYield(ps)) && EndsParams(ts, i + |ParamsYield(ps)|)
    ensures var k := i + |ParamYield(ps[0])|;
            && ParamWF(ps[0]) && ParamsWF(ps[1..])
            && HoldsAt(ts, i, ParamYield(ps[0])) && HoldsAt(ts, k, ParamsYield(ps[1..]))
            && EndsParams(ts, k + |ParamsYield(ps[1..])|)
            && k + |ParamsYield(ps[1..])| == i + |ParamsYield(ps)|
            && (ps[0].assignment.None? && i + 2 < |ts| ==> ts[i + 2].kind != Equals)
  {
    var py := ParamYield(ps[0]);
    var rest := ParamsYield(ps[1..]);
    assert ParamsYield(ps) == py + rest;
    HoldsSplit(ts, i, py, rest);
    NoEqualsAfterParams(ps[1..], ts, i + |py|);
  }

  lemma {:induction false} ParamsParseBack(ps: seq<ParamNode>, ts: seq<Token>, i: nat)
    requires ParamsWF(ps)
    requires HoldsAt(ts, i, ParamsYield(ps)) && EndsParams(ts, i + |ParamsYield(ps)|)
    ensures ParseParams(ts, i) == Parsed(ps, i + |ParamsYield(ps)|)
    decreases |ps|
  {
    if |ps| > 0 {
      var k := i + |ParamYield(ps[0])|;
      ParamsSplit(ps, ts, i);
      ParamsParseBack(ps[1..], ts, k);
      ParamsParseCons(ts, i, ps[0], ps[1..], k, k + |ParamsYield(ps[1..])|);
      assert [ps[0]] + ps[1..] == ps;
    }
  }

  /** The token after `n` cannot extend a `data_list`. */
  predicate EndsData(ts: seq<Token>, n: nat) {
    n >= |ts| || (ts[n].kind != Comma && !IsDataKind(ts[n].kind))
  }

  /** A `data_list` laid out on its tokens is its first item on its own tokens, then the
      rest of the list. */
  lemma {:induction false} DataSplit(ds: seq<DataNode>, ts: seq<Token>, i: nat)
    requires |ds| > 0 && DataListWF(ds)
    requires HoldsAt(ts, i, DataListYield(ds)) && EndsData(ts, i + |DataListYield(ds)|)
    ensures var k := i + |DataYield(ds[0])|;
            && DataWF(ds[0]) && DataListWF(ds[1..])
            && HoldsAt(ts, i, DataYield(ds[0])) && HoldsAt(ts, k, DataListYield(ds[1..]))
            && EndsData(ts, k + |DataListYield(ds[1..])|)
            && k + |DataListYield(ds[1..])| == i + |DataListYield(ds)|
  {
    var dy := DataYield(ds[0]);
    assert DataListYield(ds) == dy + DataListYield(ds[1..]);
    HoldsSplit(ts, i, dy, DataListYield(ds[1..]));
  }

  /** An item on its tokens, then the parsed rest of a `data_list`: the whole rest parses. */
  lemma {:induction false} MoreDataCons(ts: seq<Token>, i: nat, d: DataNode, ds: seq<DataNode>, k: nat, n: nat)
    requires DataWF(d) && HoldsAt(ts, i, DataYield(d)) && k == i + |DataYield(d)|
    requires ParseMoreData(ts, k) == Parsed(ds, n)
    ensures ParseMoreData(ts, i) == Parsed([d] + ds, n)
  {
    var dy := DataYield(d);
    HoldsToken(ts, i, dy, 0);
    if d.separator.Some? {
      HoldsToken(ts, i, dy, 1);
    }
    assert ts[i..k] == dy;
    assert ParseMoreData(ts, i) == DataAfter(ts, i, k, d);
  }

  lemma {:induction false} MoreDataParsesBack(ds: seq<DataNode>, ts: seq<Token>, i: nat)
    requires DataListWF(ds)
    requires HoldsAt(ts, i, DataListYield(ds)) && EndsData(ts, i + |DataListYield(ds)|)
    ensures ParseMoreData(ts, i) == Parsed(ds, i + |DataListYield(ds)|)
    decreases |ds|
  {
    if |ds| > 0 {
      var k := i + |DataYield(ds[0])|;
      DataSplit(ds, ts, i);
      MoreDataParsesBack(ds[1..], ts, k);
      MoreDataCons(ts, i, ds[0], ds[1..], k, k + |DataListYield(ds[1..])|);
      assert [ds[0]] + ds[1..] == ds;
    }
  }

  /** A `data_list` that opens with an item reads like the rest of one. */
  lemma {:induction false} DataStartsLikeMoreData(ts: seq<Token>, m: nat)
    requires m < |ts| && IsDataKind(ts[m].kind)
    ensures ParseData(ts, m) == ParseMoreData(ts, m)
  {
  }

  lemma {:induction false} DataParsesBack(ds: seq<DataNode>, ts: seq<Token>, m: nat)
    requires DataListWF(ds)
    requires |ds| > 0 ==> ds[0].separator.None?
    requires HoldsAt(ts, m, DataListYield(ds)) && EndsData(ts, m + |DataListYield(ds)|)
    ensures ParseData(ts, m) == Parsed(ds, m + |DataListYield(ds)|)
  {
    if |ds| > 0 {
      DataListHead(ds, ts, m);
      MoreDataParsesBack(ds, ts, m);
      DataStartsLikeMoreData(ts, m);
    } else {
      assert m == |ts| || !IsDataKind(ts[m].kind);
    }
  }

  /** Where the pieces of a keyword's yield lie in `ts`. */
  lemma {:induction false} KeywordPieces(k: KeywordNode, ts: seq<Token>, i: nat)
    requires HoldsAt(ts, i, KeywordYield(k))
    ensures ts[i] == k.header
    ensures HoldsAt(ts, i + 1, ParamsYield(k.params))
    ensures HoldsAt(ts, i + 1 + |ParamsYield(k.params)|, DataListYield(k.data))
    ensures |KeywordYield(k)| == 1 + |ParamsYield(k.params)| + |DataListYield(k.data)|
  {
    var py := ParamsYield(k.params);
    var dy := DataListYield(k.data);
    HoldsSplit(ts, i, [k.header] + py, dy);
    HoldsSplit(ts, i, [k.header], py);
    HoldsToken(ts, i, [k.header], 0);
  }

  /** A `data_list` opens with its first item. */
  lemma {:induction false} DataListHead(ds: seq<DataNode>, ts: seq<Token>, m: nat)
    requires |ds| > 0 && ds[0].separator.None? && HoldsAt(ts, m, DataListYield(ds))
    ensures m < |ts| && ts[m] == ds[0].item
  {
    var dy := DataYield(ds[0]);
    assert DataListYield(ds) == dy + DataListYield(ds[1..]);
    HoldsSplit(ts, m, dy, DataListYield(ds[1..]));
    HoldsToken(ts, m, dy, 0);
  }

  /** ParseKeyword put together from its two phrases. */
  lemma {:induction false} KeywordFromPhrases(ts: seq<Token>, i: nat, k: KeywordNode, m: nat, n: nat)
    requires i < |ts| && ts[i] == k.header && k.header.kind == Keyword && i + 1 <= m <= |ts|
    requires ParseParams(ts, i + 1) == Parsed(k.params, m)
    requires ParseData(ts, m) == Parsed(k.data, n)
    ensures ParseKeyword(ts, i) == Parsed(k, n)
  {
  }

  /** ParseKeyword reads a keyword off tokens laid out as its yield. */
  lemma {:induction false} KeywordFromPieces(k: KeywordNode, ts: seq<Token>, i: nat, m: nat, n: nat)
    requires KeywordWF(k) && i < |ts| && ts[i] == k.header
    requires m == i + 1 + |ParamsYield(k.params)| && n == m + |DataListYield(k.data)|
    requires HoldsAt(ts, i + 1, ParamsYield(k.params)) && EndsParams(ts, m)
    requires HoldsAt(ts, m, DataListYield(k.data)) && EndsData(ts, n)
    ensures ParseKeyword(ts, i) == Parsed(k, n)
  {
    assert ParamsWF(k.params) && DataListWF(k.data);
    DataParsesBack(k.data, ts, m);
    ParamsParseBack(k.params, ts, i + 1);
    KeywordFromPhrases(ts, i, k, m, n);
  }

  lemma {:induction false} KeywordParsesBack(k: KeywordNode, ts: seq<Token>, i: nat)
    requires KeywordWF(k) && HoldsAt(ts, i, KeywordYield(k))
    requires i + |KeywordYield(k)| == |ts| || ts[i + |KeywordYield(k)|].kind == Keyword
    ensures ParseKeyword(ts, i) == Parsed(k, i + |KeywordYield(k)|)
  {
    KeywordPieces(k, ts, i);
    var m := i + 1 + |ParamsYield(k.params)|;
    var n := m + |DataListYield(k.data)|;
    KeywordEnds(k, ts, i, m, n);
    KeywordFromPieces(k, ts, i, m, n);
  }

  /** In a keyword laid out on the tokens, its parameters end where its data starts and
      its data ends before the next KEYWORD or the end of the input. */
  lemma {:induction false} KeywordEnds(k: KeywordNode, ts: seq<Token>, i: nat, m: nat, n: nat)
    requires KeywordWF(k) && HoldsAt(ts, i, KeywordYield(k))
    requires i + |KeywordYield(k)| == |ts| || ts[i + |KeywordYield(k)|].kind == Keyword
    requires m == i + 1 + |ParamsYield(k.params)| && n == m + |DataListYield(k.data)|
    ensures EndsParams(ts, m) && EndsData(ts, n)
  {
    KeywordPieces(k, ts, i);
    if |k.data| > 0 {
      DataListHead(k.data, ts, m);
      assert DataWF(k.data[0]);
    }
  }

  /** A document laid out on the tokens up to the end starts with its first keyword on
      that keyword's own tokens. */
  lemma {:induction false} DocumentHead(doc: seq<KeywordNode>, ts: seq<Token>, i: nat)
    requires DocumentWF(doc) && HoldsAt(ts, i, DocumentYield(doc)) && i + |DocumentYield(doc)| == |ts|
    ensures KeywordWF(doc[0]) && HoldsAt(ts, i, KeywordYield(doc[0]))
    ensures |doc| == 1 ==> i + |KeywordYield(doc[0])| == |ts|
  {
    HoldsSplit(ts, i, KeywordYield(doc[0]), DocumentYield(doc[1..]));
  }

  /** After its first keyword, ending at `n`, the rest of a document is laid out on the
      rest of the tokens, and starts with a KEYWORD. */
  lemma {:induction false} DocumentTail(doc: seq<KeywordNode>, ts: seq<Token>, i: nat, n: nat)
    requires DocumentWF(doc) && HoldsAt(ts, i, DocumentYield(doc)) && i + |DocumentYield(doc)| == |ts|
    requires |doc| > 1 && n == i + |KeywordYield(doc[0])|
    ensures DocumentWF(doc[1..]) && HoldsAt(ts, n, DocumentYield(doc[1..]))
    ensures n + |DocumentYield(doc[1..])| == |ts| && n < |ts| && ts[n].kind == Keyword
  {
    var rest := DocumentYield(doc[1..]);
    HoldsSplit(ts, i, KeywordYield(doc[0]), rest);
    assert doc[1..][0] == doc[1];
    assert rest == KeywordYield(doc[1]) + DocumentYield(doc[2..]);
    HoldsToken(ts, n, rest, 0);
  }

  /** A keyword that runs to the end of the input is a whole `keyword_list`. */
  lemma {:induction false} KeywordsLast(ts: seq<Token>, i: nat, k: KeywordNode)
    requires i < |ts| && ParseKeyword(ts, i) == Parsed(k, |ts|)
    ensures ParseKeywords(ts, i) == Parsed([k], |ts|)
  {
  }

  /** A keyword followed by a parsed `keyword_list`. */
  lemma {:induction false} KeywordsCons(ts: seq<Token>, i: nat, k: KeywordNode, n: nat, ks: seq<KeywordNode>)
    requires i < n < |ts| && ParseKeyword(ts, i) == Parsed(k, n)
    requires ParseKeywords(ts, n) == Parsed(ks, |ts|)
    ensures ParseKeywords(ts, i) == Parsed([k] + ks, |ts|)
  {
  }

  lemma {:induction false} KeywordsParseBack(doc: seq<KeywordNode>, ts: seq<Token>, i: nat)
    requires DocumentWF(doc) && HoldsAt(ts, i, DocumentYield(doc)) && i + |DocumentYield(doc)| == |ts|
    ensures i < |ts| && ParseKeywords(ts, i) == Parsed(doc, |ts|)
    decreases |doc|
  {
    var k := doc[0];
    DocumentHead(doc, ts, i);
    if |doc| > 1 {
      var n := i + |KeywordYield(k)|;
      DocumentTail(doc, ts, i, n);
      KeywordParsesBack(k, ts, i);
      KeywordsParseBack(doc[1..], ts, n);
      KeywordsCons(ts, i, k, n, doc[1..]);
      assert [k] + doc[1..] == doc;
    } else {
      KeywordParsesBack(k, ts, i);
      KeywordsLast(ts, i, k);
      assert doc == [k];
    }
  }

  /** The derivation tree of any sentence is the tree the recogniser returns for it:
      the grammar is unambiguous and the recogniser complete. */
  lemma {:induction false} DerivationParsesBack(doc: seq<KeywordNode>)
    requires DocumentWF(doc)
    ensures ParseDocument(DocumentYield(doc)) == Parsed(doc, |DocumentYield(doc)|)
  {
    var ts := DocumentYield(doc);
    assert ts[0..|ts|] == ts;
    KeywordsParseBack(doc, ts, 0);
  }
}
