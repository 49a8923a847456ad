/** A reference for `JinjaStatementParser` (fserve/jinja_parse.py:589-652)
    stated over the filtered token sequence instead of a lexer: each element
    is found by searching for its end token, with no lookahead buffer.
    Past the end of the sequence the end-of-input token is assumed, as the
    lexer hands it out forever. */
module Grouping {
  import opened Results
  import opened Tokens
  import opened Parser

  /** The i-th token of `ts`, or the end-of-input token past its end. */
  function Tok(ts: seq<Token>, i: nat): Token {
    if i < |ts| then ts[i] else Plain(Eof, "")
  }

  /** The index of the first token of kind `k` or end of input, or `|ts|`. */
  function EndOf(ts: seq<Token>, k: Kind): (i: nat)
    ensures i <= |ts|
    ensures i < |ts| ==> ts[i].kind == k || ts[i].kind == Eof
  {
    if |ts| == 0 || ts[0].kind == k || ts[0].kind == Eof then 0 else 1 + EndOf(ts[1..], k)
  }

  /** The body of a statement and its right whitespace control: in a block,
      a marker value as the last token before the end. */
  function SplitRight(body: seq<Token>, isBlock: bool): (seq<Token>, Option<Value>) {
    if isBlock && |body| > 0 && IsMarker(body[|body| - 1].value) then
      (body[..|body| - 1], Some(body[|body| - 1].value))
    else
      (body, None)
  }

  /** The command at the front of `ts`, the body up to the statement end,
      and the number of tokens they span with the end. */
  function CommandAt(ts: seq<Token>, isBlock: bool): (r: Result<(Value, seq<Token>, Option<Value>, nat), Error>)
    ensures r.Ok? ==> 1 <= r.value.3 <= |ts|
  {
    var cmd := Tok(ts, 0);
    if cmd.kind != NameOrKeyword then Err(UnexpectedToken(cmd))
    else
      var e := 1 + EndOf(ts[1..], StatementEnd);
      if Tok(ts, e).kind == Eof then Err(Unterminated)
      else
        var (body, rws) := SplitRight(ts[1..e], isBlock);
        Ok((cmd.value, body, rws, e + 1))
  }

  /** The statement at the front of `ts` and the number of tokens it spans. */
  function StatementAt(ts: seq<Token>): (r: Result<(Element, nat), Error>)
    ensures r.Ok? ==> 1 <= r.value.1 <= |ts|
  {
    var t0 := Tok(ts, 0);
    if t0.kind != StatementStart && t0.kind != LineStatementPrefix then Err(UnexpectedToken(t0))
    else
      var isBlock := t0.kind == StatementStart;
      var p := if isBlock && IsMarker(Tok(ts, 1).value) then 2 else 1;
      var lws := if p == 2 then Some(Tok(ts, 1).value) else None;
      var (cmd, body, rws, n) :- CommandAt(ts[p..], isBlock);
      Ok((TemplateStatement(lws, cmd, body, rws), p + n))
  }

  /** The inline expression at the front of `ts` and the number of tokens it
      spans. */
  function InlineAt(ts: seq<Token>): (r: Result<(Element, nat), Error>)
    ensures r.Ok? ==> 1 <= r.value.1 <= |ts|
  {
    var t0 := Tok(ts, 0);
    if t0.kind != InlineStart then Err(UnexpectedToken(t0))
    else
      var e := 1 + EndOf(ts[1..], InlineEnd);
      if Tok(ts, e).kind == Eof then Err(Unterminated)
      else Ok((TemplateInline(ts[1..e]), e + 1))
  }

  /** The element at the front of `ts` and the number of tokens it spans. */
  function ElementAt(ts: seq<Token>): (r: Result<(Element, nat), Error>)
    ensures r.Ok? ==> 1 <= r.value.1 <= |ts|
  {
    var t0 := Tok(ts, 0);
    if t0.kind == TemplateData then Ok((TemplateText(t0.value), 1))
    else if t0.kind == StatementStart || t0.kind == LineStatementPrefix then StatementAt(ts)
    else if t0.kind == InlineStart then InlineAt(ts)
    else Err(UnexpectedToken(t0))
  }

  /** The document the token sequence `ts` groups into. */
  function Group(ts: seq<Token>): Result<seq<Element>, Error>
    decreases |ts|
  {
    if Tok(ts, 0).kind == Eof then Ok([])
    else
      var (e, n) :- ElementAt(ts);
      var rest :- Group(ts[n..]);
      Ok([e] + rest)
  }
}
