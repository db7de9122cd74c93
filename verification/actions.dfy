/** The values the semantic actions of abaqus_parser.py give each nonterminal, computed on
    the derivation trees of module Parser; and, beside them, the document the grammar's
    trees evidently stand for, with its names, parameters and data kept.

    PLY runs an action each time it reduces by a production; `p[0]` becomes the value of
    the left-hand side and `p[i]` is the value of the i-th symbol on the right, the token's
    `value` for a terminal. The left-recursive lists are reduced left to right, so the
    value of a list of n items is built from the value of its first n - 1. */
module Actions {
  import opened Text
  import Lexer
  import opened Parser

  // ---------------------------------------------------------------- as written

  /** `param`: the name for a bare PARAM; the forms with EQUALS only print, so their value
      stays None. */
  function ParamValue(p: ParamNode): (r: Option<string>)
    ensures r.Some? <==> |ParamYield(p)| == 2
    ensures r.Some? ==> r.value == ParamYield(p)[1].value
  {
    if p.assignment.None? then Some(p.name.value) else None
  }

  /** `param_list`: `[p[1]]` for the first parameter, then `p[1] + [p[2]]`, where `p[2]` is
      the COMMA, for every later one. */
  function ParamListValue(ps: seq<ParamNode>): (r: seq<Option<string>>)
    requires |ps| > 0
    ensures |r| == |ps|
  {
    if |ps| == 1 then [ParamValue(ps[0])]
    else ParamListValue(ps[..|ps| - 1]) + [Some(ps[|ps| - 1].comma.value)]
  }

  /** `data_list`: `[p[1]]` for the first item, then `p[1] + [p[2]]` in both longer forms,
      where `p[2]` is the COMMA in `data_list COMMA data` and the item in `data_list data`. */
  function DataListValue(ds: seq<DataNode>): (r: seq<string>)
    requires |ds| > 0
    ensures |r| == |ds|
  {
    if |ds| == 1 then [ds[0].item.value]
    else
      var last := ds[|ds| - 1];
      DataListValue(ds[..|ds| - 1]) + [if last.separator.Some? then last.separator.value.value else last.item.value]
  }

  /** `keyword`: `p[1]`, the header's value, in all four forms. */
  function KeywordValue(k: KeywordNode): (r: string)
    ensures r == KeywordYield(k)[0].value
  {
    k.header.value
  }

  /** `keyword_list`: `p[1]` in both forms, so the value of the list of n keywords is the
      value of the list of its first n - 1. This is what `AbaqusParser.parse` returns: the
      name of the first keyword, with the parameters, the data and every later keyword
      dropped. */
  function KeywordListValue(doc: seq<KeywordNode>): (r: string)
    requires |doc| > 0
    ensures r == doc[0].header.value
  {
    if |doc| == 1 then KeywordValue(doc[0]) else KeywordListValue(doc[..|doc| - 1])
  }

  /** The list `param_list` builds holds, after its first entry, the COMMA before each
      later parameter instead of the parameter. */
  lemma {:induction false} ParamListHoldsCommas(ps: seq<ParamNode>)
    requires |ps| > 0
    ensures ParamListValue(ps)[0] == ParamValue(ps[0])
    ensures forall j :: 1 <= j < |ps| ==> ParamListValue(ps)[j] == Some(ps[j].comma.value)
    decreases |ps|
  {
    if |ps| > 1 {
      var init := ps[..|ps| - 1];
      ParamListHoldsCommas(init);
      assert forall j :: 0 <= j < |init| ==> init[j] == ps[j];
    }
  }

  /** The value of a `param` with a value is None: neither its name nor its value is kept. */
  lemma {:induction false} AssignedParamHasNoValue(p: ParamNode)
    ensures ParamValue(p) == None <==> p.assignment.Some?
  {
  }

  /** The list `data_list` builds holds the COMMA where an item was written after one. */
  lemma {:induction false} DataListHoldsCommas(ds: seq<DataNode>)
    requires |ds| > 0
    ensures DataListValue(ds)[0] == ds[0].item.value
    ensures forall j :: 1 <= j < |ds| ==>
              DataListValue(ds)[j] == if ds[j].separator.Some? then ds[j].separator.value.value else ds[j].item.value
    decreases |ds|
  {
    if |ds| > 1 {
      var init := ds[..|ds| - 1];
      DataListHoldsCommas(init);
      assert forall j :: 0 <= j < |init| ==> init[j] == ds[j];
    }
  }

  /** The parse of a whole deck comes to the value of the first KEYWORD token of the
      input. */
  lemma {:induction false} ParseKeepsFirstName(doc: seq<KeywordNode>)
    requires DocumentWF(doc)
    ensures |ValuesOf(DocumentYield(doc), Lexer.Keyword)| > 0
    ensures KeywordListValue(doc) == ValuesOf(DocumentYield(doc), Lexer.Keyword)[0]
  {
    DirectivesFollowHeaders(doc);
  }

  // ---------------------------------------------------------------- the document meant

  /** A parameter: its name and its value, if it has one, as raw text. */
  datatype Parameter = Parameter(name: string, value: Option<string>)

  /** A keyword of the deck: its name without the `*`, its parameters and its data, in
      the order written. */
  datatype Directive = Directive(name: string, params: seq<Parameter>, data: seq<string>)

  function ParameterOf(p: ParamNode): Parameter {
    Parameter(p.name.value, if p.assignment.Some? then Some(p.assignment.value.value.value) else None)
  }

  function ParametersOf(ps: seq<ParamNode>): (r: seq<Parameter>)
    ensures |r| == |ps|
  {
    if |ps| == 0 then [] else [ParameterOf(ps[0])] + ParametersOf(ps[1..])
  }

  function DataOf(ds: seq<DataNode>): (r: seq<string>)
    ensures |r| == |ds|
  {
    if |ds| == 0 then [] else [ds[0].item.value] + DataOf(ds[1..])
  }

  function DirectiveOf(k: KeywordNode): Directive {
    Directive(k.header.value, ParametersOf(k.params), DataOf(k.data))
  }

  function DocumentOf(doc: seq<KeywordNode>): (r: seq<Directive>)
    ensures |r| == |doc|
  {
    if |doc| == 0 then [] else [DirectiveOf(doc[0])] + DocumentOf(doc[1..])
  }

  /** The parameters a token sequence writes: each PARAM right after a COMMA names one,
      and its value is the token after the EQUALS that directly follows the name, if any. */
  function ParametersIn(ts: seq<Lexer.Token>): (r: seq<Parameter>)
    ensures |r| <= |ts|
    decreases |ts|
  {
    if |ts| < 2 then []
    else if ts[0].kind == Lexer.Comma && ts[1].kind == Lexer.Param then
      [Parameter(ts[1].value, if |ts| >= 4 && ts[2].kind == Lexer.Equals then Some(ts[3].value) else None)]
        + ParametersIn(ts[1..])
    else ParametersIn(ts[1..])
  }

  /** One `param` followed by anything that starts with a COMMA, or by nothing, writes
      exactly its own parameter ahead of what follows. */
  lemma {:induction false} ParamYieldParameters(p: ParamNode, rest: seq<Lexer.Token>)
    requires ParamWF(p)
    requires |rest| == 0 || rest[0].kind == Lexer.Comma
    ensures ParametersIn(ParamYield(p) + rest) == [ParameterOf(p)] + ParametersIn(rest)
  {
    var ts := ParamYield(p) + rest;
    if p.assignment.Some? {
      var a := p.assignment.value;
      assert ts == [p.comma, p.name, a.equals, a.value] + rest;
      assert ts[3..] == [a.value] + rest && ts[3..][1..] == rest;
      assert ParametersIn(ts[3..]) == ParametersIn(rest);
      assert ts[2..][1..] == ts[3..] && ParametersIn(ts[2..]) == ParametersIn(rest);
      assert ts[1..][1..] == ts[2..] && ParametersIn(ts[1..]) == ParametersIn(rest);
    } else {
      assert ts == [p.comma, p.name] + rest;
      assert ts[1..][1..] == rest;
    }
  }

  /** Every parameter is kept, in order: the parameters of a `param_list` are exactly the
      ones its tokens write, each with the name after its COMMA and the value after its
      EQUALS. */
  lemma {:induction false} ParametersKept(ps: seq<ParamNode>)
    requires ParamsWF(ps)
    ensures ParametersOf(ps) == ParametersIn(ParamsYield(ps))
    decreases |ps|
  {
    if |ps| > 0 {
      ParametersKept(ps[1..]);
      ParamYieldParameters(ps[0], ParamsYield(ps[1..]));
    }
  }

  /** The values of the tokens of one type, in order. */
  function ValuesOf(ts: seq<Lexer.Token>, k: Lexer.Kind): (r: seq<string>)
    ensures |r| <= |ts|
  {
    if |ts| == 0 then []
    else (if ts[0].kind == k then [ts[0].value] else []) + ValuesOf(ts[1..], k)
  }

  lemma {:induction false} ValuesOfAppend(a: seq<Lexer.Token>, b: seq<Lexer.Token>, k: Lexer.Kind)
    ensures ValuesOf(a + b, k) == ValuesOf(a, k) + ValuesOf(b, k)
    decreases |a|
  {
    if |a| == 0 {
      assert a + b == b;
    } else {
      var h := if a[0].kind == k then [a[0].value] else [];
      assert (a + b)[0] == a[0] && (a + b)[1..] == a[1..] + b;
      ValuesOfAppend(a[1..], b, k);
      assert h + (ValuesOf(a[1..], k) + ValuesOf(b, k)) == (h + ValuesOf(a[1..], k)) + ValuesOf(b, k);
    }
  }

  /** The values of the `data` tokens of a token sequence, in order. */
  function DataValues(ts: seq<Lexer.Token>): (r: seq<string>)
    ensures |r| <= |ts|
  {
    if |ts| == 0 then []
    else (if IsDataKind(ts[0].kind) then [ts[0].value] else []) + DataValues(ts[1..])
  }

  lemma {:induction false} DataValuesAppend(a: seq<Lexer.Token>, b: seq<Lexer.Token>)
    ensures DataValues(a + b) == DataValues(a) + DataValues(b)
    decreases |a|
  {
    if |a| == 0 {
      assert a + b == b;
    } else {
      var h := if IsDataKind(a[0].kind) then [a[0].value] else [];
      assert (a + b)[0] == a[0] && (a + b)[1..] == a[1..] + b;
      assert DataValues(a + b) == h + DataValues(a[1..] + b);
      DataValuesAppend(a[1..], b);
      assert h + (DataValues(a[1..]) + DataValues(b)) == (h + DataValues(a[1..])) + DataValues(b);
    }
  }

  /** The data of a keyword are exactly the values of the `data` tokens of its
      `data_list`, in order, with the separating commas left out. */
  lemma {:induction false} DataKept(ds: seq<DataNode>)
    requires DataListWF(ds)
    ensures DataOf(ds) == DataValues(DataListYield(ds))
    decreases |ds|
  {
    if |ds| > 0 {
      var d := ds[0];
      DataKept(ds[1..]);
      DataValuesAppend(DataYield(d), DataListYield(ds[1..]));
      if d.separator.Some? {
        DataValuesAppend([d.separator.value], [d.item]);
      }
    }
  }

  lemma {:induction false} NoHeaderInParams(ps: seq<ParamNode>)
    requires ParamsWF(ps)
    ensures ValuesOf(ParamsYield(ps), Lexer.Keyword) == []
    decreases |ps|
  {
    if |ps| > 0 {
      var p := ps[0];
      NoHeaderInParams(ps[1..]);
      ValuesOfAppend(ParamYield(p), ParamsYield(ps[1..]), Lexer.Keyword);
      var tail := if p.assignment.Some? then [p.assignment.value.equals, p.assignment.value.value] else [];
      ValuesOfAppend([p.comma, p.name], tail, Lexer.Keyword);
      assert ValuesOf([p.comma, p.name], Lexer.Keyword) == [] by {
        assert [p.comma, p.name][1..] == [p.name];
      }
      if p.assignment.Some? {
        assert tail[1..] == [p.assignment.value.value];
      }
    }
  }

  lemma {:induction false} NoHeaderInData(ds: seq<DataNode>)
    requires DataListWF(ds)
    ensures ValuesOf(DataListYield(ds), Lexer.Keyword) == []
    decreases |ds|
  {
    if |ds| > 0 {
      var d := ds[0];
      NoHeaderInData(ds[1..]);
      ValuesOfAppend(DataYield(d), DataListYield(ds[1..]), Lexer.Keyword);
      if d.separator.Some? {
        ValuesOfAppend([d.separator.value], [d.item], Lexer.Keyword);
      }
    }
  }

  /** The document has one directive per KEYWORD token, named by it, in input order. */
  lemma {:induction false} DirectivesFollowHeaders(doc: seq<KeywordNode>)
    requires KeywordsWF(doc)
    ensures |DocumentOf(doc)| == |ValuesOf(DocumentYield(doc), Lexer.Keyword)|
    ensures forall j :: 0 <= j < |doc| ==> DocumentOf(doc)[j].name == ValuesOf(DocumentYield(doc), Lexer.Keyword)[j]
    decreases |doc|
  {
    if |doc| > 0 {
      var k := doc[0];
      DirectivesFollowHeaders(doc[1..]);
      NoHeaderInParams(k.params);
      NoHeaderInData(k.data);
      ValuesOfAppend(KeywordYield(k), DocumentYield(doc[1..]), Lexer.Keyword);
      ValuesOfAppend([k.header] + ParamsYield(k.params), DataListYield(k.data), Lexer.Keyword);
      ValuesOfAppend([k.header], ParamsYield(k.params), Lexer.Keyword);
      assert ValuesOf([k.header], Lexer.Keyword) == [k.header.value];
    }
  }
}
