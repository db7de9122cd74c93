/** The grammar of abaqus_parser.py (`AbaqusParser`), start symbol `keyword_list`:

      keyword_list : keyword_list keyword | keyword
      keyword      : KEYWORD | KEYWORD COMMA param_list
                   | KEYWORD data_list | KEYWORD COMMA param_list data_list
      param_list   : param_list COMMA param | param
      param        : PARAM | PARAM EQUALS PARAM | PARAM EQUALS FLOAT_CONST
                   | PARAM EQUALS INT_CONST_DEC
      data_list    : data_list COMMA data | data_list data | data
      data         : ID | INT_CONST_DEC | FLOAT_CONST

    The LALR tables PLY builds for it are replaced by a recursive-descent recogniser that
    returns the derivation tree, every token of the input kept in its node. The grammar
    needs one token of look-ahead and every choice is made on it, so the recogniser stops
    on the same token as the table-driven parser; the module ParserProperties proves
    that against an automaton for the language. LASTTOKENONLINE, PERIOD, CHAR_CONST,
    WCHAR_CONST, STRING_LITERAL and WSTRING_LITERAL are declared tokens that no production
    uses, and INT_CONST_OCT and INT_CONST_HEX are not declared at all: each of them is a
    syntax error wherever it occurs. */
module Parser {
  import opened Text
  import opened Lexer

  /** The token types a `data` derives. */
  predicate IsDataKind(k: Kind) { k == Id || k == IntConstDec || k == FloatConst }

  /** The token types that may follow `PARAM EQUALS` in a `param`. */
  predicate IsValueKind(k: Kind) { k == Param || k == FloatConst || k == IntConstDec }

  // ---------------------------------------------------------------- derivation trees

  /** `EQUALS value` after a parameter name. */
  datatype Assignment = Assignment(equals: Token, value: Token)

  /** One `param` with the COMMA before it: the one after KEYWORD for the first
      parameter, the one of `param_list COMMA param` for every later one. */
  datatype ParamNode = ParamNode(comma: Token, name: Token, assignment: Option<Assignment>)

  /** One `data`, with the COMMA of `data_list COMMA data` when that form derived it. */
  datatype DataNode = DataNode(separator: Option<Token>, item: Token)

  /** One `keyword`: its header, the parameters of its `param_list` (none for the forms
      without COMMA) and the items of its `data_list` (none for the forms without it). */
  datatype KeywordNode = KeywordNode(header: Token, params: seq<ParamNode>, data: seq<DataNode>)

  predicate ParamWF(p: ParamNode) {
    && p.comma.kind == Comma
    && p.name.kind == Param
    && (p.assignment.Some? ==>
          p.assignment.value.equals.kind == Equals && IsValueKind(p.assignment.value.value.kind))
  }

  predicate DataWF(d: DataNode) {
    && IsDataKind(d.item.kind)
    && (d.separator.Some? ==> d.separator.value.kind == Comma)
  }

  predicate ParamsWF(ps: seq<ParamNode>) {
    |ps| == 0 || (ParamWF(ps[0]) && ParamsWF(ps[1..]))
  }

  predicate DataListWF(ds: seq<DataNode>) {
    |ds| == 0 || (DataWF(ds[0]) && DataListWF(ds[1..]))
  }

  /** A tree the grammar derives: the `data` that starts a `data_list` has no COMMA. */
  predicate KeywordWF(k: KeywordNode) {
    && k.header.kind == Keyword
    && ParamsWF(k.params)
    && DataListWF(k.data)
    && (|k.data| > 0 ==> k.data[0].separator.None?)
  }

  predicate KeywordsWF(doc: seq<KeywordNode>) {
    |doc| == 0 || (KeywordWF(doc[0]) && KeywordsWF(doc[1..]))
  }

  /** A derivation of `keyword_list`: one or more keywords. */
  predicate DocumentWF(doc: seq<KeywordNode>) {
    |doc| > 0 && KeywordsWF(doc)
  }

  // ---------------------------------------------------------------- yields

  function ParamYield(p: ParamNode): seq<Token> {
    [p.comma, p.name] + (if p.assignment.Some? then [p.assignment.value.equals, p.assignment.value.value] else [])
  }

  function ParamsYield(ps: seq<ParamNode>): seq<Token> {
    if |ps| == 0 then [] else ParamYield(ps[0]) + ParamsYield(ps[1..])
  }

  function DataYield(d: DataNode): seq<Token> {
    (if d.separator.Some? then [d.separator.value] else []) + [d.item]
  }

  function DataListYield(ds: seq<DataNode>): seq<Token> {
    if |ds| == 0 then [] else DataYield(ds[0]) + DataListYield(ds[1..])
  }

  /** The tokens a keyword derives, in order. */
  function KeywordYield(k: KeywordNode): seq<Token> {
    [k.header] + ParamsYield(k.params) + DataListYield(k.data)
  }

  /** The tokens a document derives, in order. */
  function DocumentYield(doc: seq<KeywordNode>): seq<Token> {
    if |doc| == 0 then [] else KeywordYield(doc[0]) + DocumentYield(doc[1..])
  }

  // ---------------------------------------------------------------- recogniser

  /** The tree of a phrase and the index after it, or the index of the token on which
      the parser found no action; `|ts|` there means the end of the input. */
  datatype Result<+T> = Parsed(value: T, next: nat) | Failed(at: nat)

  lemma {:induction false} ConsParams(ts: seq<Token>, i: nat, k: nat, n: nat, p: ParamNode, ps: seq<ParamNode>)
    requires i <= k <= n <= |ts|
    requires ts[i..k] == ParamYield(p) && ParamsYield(ps) == ts[k..n]
    requires ParamWF(p) && ParamsWF(ps)
    ensures ParamsYield([p] + ps) == ts[i..n]
    ensures ParamsWF([p] + ps)
  {
    assert ([p] + ps)[1..] == ps;
    assert ts[i..n] == ts[i..k] + ts[k..n];
  }

  lemma {:induction false} ConsData(ts: seq<Token>, i: nat, k: nat, n: nat, d: DataNode, ds: seq<DataNode>)
    requires i <= k <= n <= |ts|
    requires ts[i..k] == DataYield(d) && DataListYield(ds) == ts[k..n]
    requires DataWF(d) && DataListWF(ds)
    ensures DataListYield([d] + ds) == ts[i..n]
    ensures DataListWF([d] + ds)
  {
    assert ([d] + ds)[1..] == ds;
    assert ts[i..n] == ts[i..k] + ts[k..n];
  }

  /** `(COMMA param)*` from `i`: the parameters of one header line. */
  function ParseParams(ts: seq<Token>, i: nat): (r: Result<seq<ParamNode>>)
    requires i <= |ts|
    ensures r.Parsed? ==> i <= r.next <= |ts| && ParamsYield(r.value) == ts[i..r.next]
    ensures r.Parsed? ==> ParamsWF(r.value)
    ensures r.Parsed? ==> r.next == |ts| || ts[r.next].kind != Comma
    ensures r.Failed? ==> i < r.at <= |ts|
    decreases |ts| - i, 1
  {
    if i == |ts| || ts[i].kind != Comma then Parsed([], i)
    else if i + 1 == |ts| || ts[i + 1].kind != Param then Failed(i + 1)
    else if i + 2 < |ts| && ts[i + 2].kind == Equals then
      if i + 3 == |ts| || !IsValueKind(ts[i + 3].kind) then Failed(i + 3)
      else
        var p := ParamNode(ts[i], ts[i + 1], Some(Assignment(ts[i + 2], ts[i + 3])));
        assert ts[i..i + 4] == ParamYield(p);
        ParamsAfter(ts, i, i + 4, p)
    else
      var p := ParamNode(ts[i], ts[i + 1], None);
      assert ts[i..i + 2] == ParamYield(p);
      ParamsAfter(ts, i, i + 2, p)
  }

  /** The parameter `p`, which spans `ts[i..k]`, and the parameters after it. */
  function ParamsAfter(ts: seq<Token>, i: nat, k: nat, p: ParamNode): (r: Result<seq<ParamNode>>)
    requires i < k <= |ts| && ts[i..k] == ParamYield(p) && ParamWF(p)
    ensures r.Parsed? ==> i <= r.next <= |ts| && ParamsYield(r.value) == ts[i..r.next]
    ensures r.Parsed? ==> ParamsWF(r.value)
    ensures r.Parsed? ==> r.next == |ts| || ts[r.next].kind != Comma
    ensures r.Failed? ==> i < r.at <= |ts|
    decreases |ts| - i, 0
  {
    match ParseParams(ts, k)
    case Failed(at) => Failed(at)
    case Parsed(ps, n) => ConsParams(ts, i, k, n, p, ps); Parsed([p] + ps, n)
  }

  /** `(COMMA? data)*` from `i`: the rest of a `data_list`. */
  function ParseMoreData(ts: seq<Token>, i: nat): (r: Result<seq<DataNode>>)
    requires i <= |ts|
    ensures r.Parsed? ==> i <= r.next <= |ts| && DataListYield(r.value) == ts[i..r.next]
    ensures r.Parsed? ==> DataListWF(r.value)
    ensures r.Parsed? ==> r.next == |ts| || (ts[r.next].kind != Comma && !IsDataKind(ts[r.next].kind))
    ensures r.Failed? ==> i < r.at <= |ts|
    decreases |ts| - i, 1
  {
    if i < |ts| && IsDataKind(ts[i].kind) then
      var d := DataNode(None, ts[i]);
      assert ts[i..i + 1] == DataYield(d);
      DataAfter(ts, i, i + 1, d)
    else if i < |ts| && ts[i].kind == Comma then
      if i + 1 == |ts| || !IsDataKind(ts[i + 1].kind) then Failed(i + 1)
      else
        var d := DataNode(Some(ts[i]), ts[i + 1]);
        assert ts[i..i + 2] == DataYield(d);
        DataAfter(ts, i, i + 2, d)
    else Parsed([], i)
  }

  /** The item `d`, which spans `ts[i..k]`, and the rest of its `data_list`. */
  function DataAfter(ts: seq<Token>, i: nat, k: nat, d: DataNode): (r: Result<seq<DataNode>>)
    requires i < k <= |ts| && ts[i..k] == DataYield(d) && DataWF(d)
    ensures r.Parsed? ==> i <= r.next <= |ts| && DataListYield(r.value) == ts[i..r.next]
    ensures r.Parsed? ==> DataListWF(r.value)
    ensures r.Parsed? ==> r.next == |ts| || (ts[r.next].kind != Comma && !IsDataKind(ts[r.next].kind))
    ensures r.Parsed? ==> |r.value| > 0 && r.value[0] == d
    ensures r.Failed? ==> i < r.at <= |ts|
    decreases |ts| - i, 0
  {
    match ParseMoreData(ts, k)
    case Failed(at) => Failed(at)
    case Parsed(ds, n) => ConsData(ts, i, k, n, d, ds); Parsed([d] + ds, n)
  }

  /** An optional `data_list` from `i`: nothing unless a `data` starts there. */
  function ParseData(ts: seq<Token>, i: nat): (r: Result<seq<DataNode>>)
    requires i <= |ts|
    ensures r.Parsed? ==> i <= r.next <= |ts| && DataListYield(r.value) == ts[i..r.next]
    ensures r.Parsed? ==> DataListWF(r.value)
    ensures r.Parsed? && |r.value| > 0 ==> r.value[0].separator.None?
    ensures r.Parsed? && |r.value| > 0 ==>
              r.next == |ts| || (ts[r.next].kind != Comma && !IsDataKind(ts[r.next].kind))
    ensures r.Parsed? && |r.value| == 0 ==> r.next == i && (i == |ts| || !IsDataKind(ts[i].kind))
    ensures r.Failed? ==> i < r.at <= |ts|
  {
    if i < |ts| && IsDataKind(ts[i].kind) then
      var d := DataNode(None, ts[i]);
      assert ts[i..i + 1] == DataYield(d);
      DataAfter(ts, i, i + 1, d)
    else Parsed([], i)
  }

  lemma {:induction false} ConsKeyword(ts: seq<Token>, i: nat, m: nat, n: nat, ps: seq<ParamNode>, ds: seq<DataNode>)
    requires i < m <= n <= |ts| && ts[i].kind == Keyword
    requires ParamsYield(ps) == ts[i + 1..m] && DataListYield(ds) == ts[m..n]
    requires ParamsWF(ps) && DataListWF(ds)
    requires |ds| > 0 ==> ds[0].separator.None?
    ensures KeywordYield(KeywordNode(ts[i], ps, ds)) == ts[i..n]
    ensures KeywordWF(KeywordNode(ts[i], ps, ds))
  {
    calc {
      ts[i..n];
      [ts[i]] + ts[i + 1..n];
      { SliceSplit(ts, i + 1, m, n); }
      [ts[i]] + (ts[i + 1..m] + ts[m..n]);
    }
  }

  lemma {:induction false} SliceSplit<T>(s: seq<T>, i: nat, k: nat, n: nat)
    requires i <= k <= n <= |s|
    ensures s[i..n] == s[i..k] + s[k..n]
  {
  }

  /** One `keyword` from `i`. */
  function ParseKeyword(ts: seq<Token>, i: nat): (r: Result<KeywordNode>)
    requires i <= |ts|
    ensures r.Parsed? ==> i < r.next <= |ts| && KeywordYield(r.value) == ts[i..r.next]
    ensures r.Parsed? ==> KeywordWF(r.value)
    ensures r.Failed? ==> i <= r.at <= |ts|
    ensures r.Failed? && r.at == i ==> i == |ts| || ts[i].kind != Keyword
  {
    if i == |ts| || ts[i].kind != Keyword then Failed(i)
    else
      match ParseParams(ts, i + 1)
      case Failed(at) => Failed(at)
      case Parsed(ps, m) =>
        match ParseData(ts, m)
        case Failed(at) => Failed(at)
        case Parsed(ds, n) =>
          ConsKeyword(ts, i, m, n, ps, ds);
          Parsed(KeywordNode(ts[i], ps, ds), n)
  }

  /** `keyword+` from `i` to the end of the input. */
  function ParseKeywords(ts: seq<Token>, i: nat): (r: Result<seq<KeywordNode>>)
    requires i < |ts|
    ensures r.Parsed? ==> r.next == |ts| && DocumentYield(r.value) == ts[i..]
    ensures r.Parsed? ==> DocumentWF(r.value)
    ensures r.Failed? ==> i <= r.at <= |ts|
    decreases |ts| - i
  {
    match ParseKeyword(ts, i)
    case Failed(at) => Failed(at)
    case Parsed(k, n) =>
      if n == |ts| then
        assert DocumentYield([k]) == KeywordYield(k);
        assert ts[i..n] == ts[i..];
        Parsed([k], n)
      else
        match ParseKeywords(ts, n)
        case Failed(at) => Failed(at)
        case Parsed(ks, m) =>
          ConsDocument(k, ks);
          SliceJoin(ts, i, n);
          Parsed([k] + ks, m)
  }

  lemma {:induction false} SliceJoin<T>(s: seq<T>, i: nat, n: nat)
    requires i <= n <= |s|
    ensures s[i..] == s[i..n] + s[n..]
  {
  }

  lemma {:induction false} ConsDocument(k: KeywordNode, ks: seq<KeywordNode>)
    requires KeywordWF(k) && DocumentWF(ks)
    ensures DocumentWF([k] + ks)
    ensures DocumentYield([k] + ks) == KeywordYield(k) + DocumentYield(ks)
  {
    assert ([k] + ks)[1..] == ks;
  }

  /** `yacc.parse` on the token stream: the derivation of `keyword_list`, or the index of
      the token that has no action (`|ts|` for the end of the input). */
  function ParseDocument(ts: seq<Token>): (r: Result<seq<KeywordNode>>)
    ensures r.Parsed? ==> DocumentWF(r.value) && DocumentYield(r.value) == ts && r.next == |ts|
    ensures r.Failed? ==> r.at <= |ts|
    ensures |ts| == 0 ==> r == Failed(0)
  {
    if |ts| == 0 then Failed(0) else ParseKeywords(ts, 0)
  }

  // ---------------------------------------------------------------- p_error

  /** What `p_error` hands to `_parse_error`: the value and line of the offending token,
      or the end of the input, which has no line. */
  datatype SyntaxError = Before(value: string, lineno: nat) | AtEndOfInput

  function SyntaxErrorAt(ts: seq<Token>, at: nat): (e: SyntaxError)
    requires at <= |ts|
    ensures e.AtEndOfInput? <==> at == |ts|
    ensures e.Before? ==> e.value == ts[at].value && e.lineno == ts[at].lineno
  {
    if at == |ts| then AtEndOfInput else Before(ts[at].value, ts[at].lineno)
  }

  /** The message of a syntax error. */
  function SyntaxMessage(e: SyntaxError): (m: string)
    ensures e.Before? ==> m == "before: " + e.value
    ensures e.AtEndOfInput? ==> m == "At end of input"
  {
    match e
    case Before(v, _) => "before: " + v
    case AtEndOfInput => "At end of input"
  }
}
