/** `JinjaStatementParser` and `statement_parse`
    (fserve/jinja_parse.py:566-661): the token stream is grouped into
    literal text, block statements and inline expressions. The parser only
    calls `next_token` and `la`, so it is stated over any token source:
    a raw state `L`, its pull `fetch` and a measure `m` the pull shrinks.
    `statement_parse` instantiates it with the template lexer. */
module Parser {
  import opened Results
  import opened Tokens
  import opened Lexer
  import opened Lookahead
  import opened Filter

  /** The document elements; fields hold token values, as in the source. */
  datatype Element =
    | TemplateText(text: Value)
    | TemplateStatement(lws: Option<Value>, command: Value, tokens: seq<Token>, rws: Option<Value>)
    | TemplateInline(tokens: seq<Token>)

  /** The whitespace-control marker test `value in ('+', '-')`: it looks at
      the token's value, whatever its kind. */
  predicate IsMarker(v: Value) {
    v == Str("+") || v == Str("-")
  }

  /** The tokens a statement or inline expression may collect: neither its
      end delimiter nor end of input. */
  predicate Collected(ts: seq<Token>, endKind: Kind) {
    forall i | 0 <= i < |ts| :: ts[i].kind != endKind && ts[i].kind != Eof
  }

  lemma CollectedCons(t: Token, ts: seq<Token>, endKind: Kind)
    requires t.kind != endKind && t.kind != Eof && Collected(ts, endKind)
    ensures Collected([t] + ts, endKind)
  {
    forall i | 0 <= i < |[t] + ts|
      ensures ([t] + ts)[i].kind != endKind && ([t] + ts)[i].kind != Eof
    {
      if i > 0 {
        assert ([t] + ts)[i] == ts[i - 1];
      }
    }
  }

  /** The loop of `statement()` after the command: tokens up to the
      statement end, except that a marker value directly before it becomes
      the right whitespace control. End of input is reported as
      `Unterminated`, since the source loops forever there. */
  function StatementBody<L(!new)>(b: Buffered<L>, fetch: Pull<L>, m: L -> nat, isBlock: bool)
    : (r: Result<(seq<Token>, Option<Value>, Buffered<L>), Error>)
    requires Shrinks(fetch, m)
    ensures r.Ok? ==> Weight(r.value.2, m) < Weight(b, m)
    ensures r.Ok? ==> Collected(r.value.0, StatementEnd)
    ensures r.Ok? && r.value.1.Some? ==> isBlock && IsMarker(r.value.1.value)
    decreases Weight(b, m)
  {
    var s :- NextToken(b, fetch);
    NextTokenShrinks(b, fetch, m);
    if s.tok.kind == StatementEnd then Ok(([], None, s.b))
    else if s.tok.kind == Eof then Err(Unterminated)
    else if isBlock && IsMarker(s.tok.value) then
      var la :- LaToken(s.b, fetch, 1);
      LaShrinks(s.b, fetch, m);
      var (ts, rws, b1) :- StatementBody(la.b, fetch, m, isBlock);
      CollectedCons(s.tok, ts, StatementEnd);
      if la.tok.kind == StatementEnd then Ok((ts, Some(s.tok.value), b1))
      else Ok(([s.tok] + ts, rws, b1))
    else
      var (ts, rws, b1) :- StatementBody(s.b, fetch, m, isBlock);
      CollectedCons(s.tok, ts, StatementEnd);
      Ok(([s.tok] + ts, rws, b1))
  }

  /** The optional left marker of a block statement: `la()` is consulted
      only for blocks, and a marker value is then consumed. */
  function LeftMarker<L(!new)>(b: Buffered<L>, fetch: Pull<L>, m: L -> nat, isBlock: bool)
    : (r: Result<(Option<Value>, Buffered<L>), Error>)
    requires Shrinks(fetch, m)
    ensures r.Ok? ==> Weight(r.value.1, m) <= Weight(b, m)
    ensures r.Ok? && r.value.0.Some? ==> isBlock && IsMarker(r.value.0.value)
    ensures !isBlock ==> r == Ok((None, b))
  {
    if !isBlock then Ok((None, b))
    else
      var la :- LaToken(b, fetch, 1);
      LaShrinks(b, fetch, m);
      if IsMarker(la.tok.value) then
        var s :- NextToken(la.b, fetch);
        NextTokenShrinks(la.b, fetch, m);
        Ok((Some(s.tok.value), s.b))
      else Ok((None, la.b))
  }

  /** The command name of a statement, checked to be a name, and its body. */
  function Command<L(!new)>(b: Buffered<L>, fetch: Pull<L>, m: L -> nat, isBlock: bool)
    : (r: Result<(Value, seq<Token>, Option<Value>, Buffered<L>), Error>)
    requires Shrinks(fetch, m)
    ensures r.Ok? ==> Weight(r.value.3, m) < Weight(b, m)
    ensures r.Ok? ==> Collected(r.value.1, StatementEnd)
    ensures r.Ok? && r.value.2.Some? ==> isBlock && IsMarker(r.value.2.value)
  {
    var s1 :- NextToken(b, fetch);
    NextTokenShrinks(b, fetch, m);
    if s1.tok.kind != NameOrKeyword then Err(UnexpectedToken(s1.tok))
    else
      var (toks, rws, b2) :- StatementBody(s1.b, fetch, m, isBlock);
      Ok((s1.tok.value, toks, rws, b2))
  }

  /** `statement()`: the start token, the left marker, the command name and
      the body. */
  function Statement<L(!new)>(b: Buffered<L>, fetch: Pull<L>, m: L -> nat): (r: Result<(Element, Buffered<L>), Error>)
    requires Shrinks(fetch, m)
    ensures r.Ok? ==> Weight(r.value.1, m) < Weight(b, m)
    ensures r.Ok? ==> r.value.0.TemplateStatement? && Collected(r.value.0.tokens, StatementEnd)
    ensures r.Ok? && r.value.0.lws.Some? ==> IsMarker(r.value.0.lws.value)
    ensures r.Ok? && r.value.0.rws.Some? ==> IsMarker(r.value.0.rws.value)
  {
    var s0 :- NextToken(b, fetch);
    NextTokenShrinks(b, fetch, m);
    if s0.tok.kind != StatementStart && s0.tok.kind != LineStatementPrefix then
      Err(UnexpectedToken(s0.tok))
    else
      var isBlock := s0.tok.kind == StatementStart;
      var (lws, b1) :- LeftMarker(s0.b, fetch, m, isBlock);
      var (cmd, toks, rws, b2) :- Command(b1, fetch, m, isBlock);
      Ok((TemplateStatement(lws, cmd, toks, rws), b2))
  }

  /** The loop of `inline()`: every token up to the inline end. */
  function InlineBody<L(!new)>(b: Buffered<L>, fetch: Pull<L>, m: L -> nat): (r: Result<(seq<Token>, Buffered<L>), Error>)
    requires Shrinks(fetch, m)
    ensures r.Ok? ==> Weight(r.value.1, m) < Weight(b, m)
    ensures r.Ok? ==> Collected(r.value.0, InlineEnd)
    decreases Weight(b, m)
  {
    var s :- NextToken(b, fetch);
    NextTokenShrinks(b, fetch, m);
    if s.tok.kind == InlineEnd then Ok(([], s.b))
    else if s.tok.kind == Eof then Err(Unterminated)
    else
      var (ts, b1) :- InlineBody(s.b, fetch, m);
      CollectedCons(s.tok, ts, InlineEnd);
      Ok(([s.tok] + ts, b1))
  }

  /** `inline()`. */
  function Inline<L(!new)>(b: Buffered<L>, fetch: Pull<L>, m: L -> nat): (r: Result<(Element, Buffered<L>), Error>)
    requires Shrinks(fetch, m)
    ensures r.Ok? ==> Weight(r.value.1, m) < Weight(b, m)
    ensures r.Ok? ==> r.value.0.TemplateInline? && Collected(r.value.0.tokens, InlineEnd)
  {
    var s0 :- NextToken(b, fetch);
    NextTokenShrinks(b, fetch, m);
    if s0.tok.kind != InlineStart then Err(UnexpectedToken(s0.tok))
    else
      var (toks, b1) :- InlineBody(s0.b, fetch, m);
      Ok((TemplateInline(toks), b1))
  }

  /** One turn of the `document()` loop once `la()` has reported `t`, the
      front of the buffer: the element its kind selects. */
  function NextElement<L(!new)>(b: Buffered<L>, fetch: Pull<L>, m: L -> nat, t: Token)
    : (r: Result<(Element, Buffered<L>), Error>)
    requires Shrinks(fetch, m) && |b.pending| >= 1 && b.pending[0] == t
    ensures r.Ok? ==> Weight(r.value.1, m) < Weight(b, m)
    ensures r.Ok? && r.value.0.TemplateStatement? ==> t.kind in {StatementStart, LineStatementPrefix}
    ensures r.Ok? && r.value.0.TemplateInline? ==> t.kind == InlineStart
    ensures t.kind !in {TemplateData, StatementStart, LineStatementPrefix, InlineStart} ==> r == Err(UnexpectedToken(t))
  {
    match t.kind
    case TemplateData =>
      var s :- NextToken(b, fetch);
      NextTokenShrinks(b, fetch, m);
      Ok((TemplateText(s.tok.value), s.b))
    case StatementStart => Statement(b, fetch, m)
    case LineStatementPrefix => Statement(b, fetch, m)
    case InlineStart => Inline(b, fetch, m)
    case _ => Err(UnexpectedToken(t))
  }

  /** `document()`: elements chosen by the kind of `la()` until EOF. */
  function Document<L(!new)>(b: Buffered<L>, fetch: Pull<L>, m: L -> nat): (r: Result<seq<Element>, Error>)
    requires Shrinks(fetch, m)
    decreases Weight(b, m)
  {
    var la :- LaToken(b, fetch, 1);
    LaShrinks(b, fetch, m);
    if la.tok.kind == Eof then Ok([])
    else
      var (e, b1) :- NextElement(la.b, fetch, m, la.tok);
      var rest :- Document(b1, fetch, m);
      Ok([e] + rest)
  }

  /** The kinds `statement_parse` ignores. */
  const EntryIgnore: set<Kind> := {Ws, CommentStart, CommentData, CommentEnd, LineCommentPrefix}

  /** The delimiters `statement_parse` fixes: no line prefixes. */
  const EntryConfig: Config := Config("{%", "%}", "{{", "}}", "{#", "#}", EntryIgnore)

  /** `statement_parse`. */
  function StatementParse(text: string): Result<seq<Element>, Error> {
    FetchShrinks();
    Document(Open(EntryConfig, text), Fetch, RawMeasure)
  }
}
