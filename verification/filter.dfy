/** The token filter instantiated with the template lexer: the pull loop of
    `next_token` and `la` skips raw tokens of ignored kinds
    (fserve/jinja_parse.py:113-145). */
module Filter {
  import opened Results
  import opened Tokens
  import opened Chars
  import opened Cursors
  import opened Lexer
  import opened Lookahead

  /** The inner loop of `next_token` and `la`: raw tokens until one whose
      kind is not ignored. When the end-of-input kind is itself ignored the
      source never leaves this loop, which is reported as `EndIgnored`. */
  function Fetch(lx: Lexer): (r: Result<(Token, Lexer), Error>)
    ensures r.Ok? ==> r.value.1.cfg == lx.cfg && r.value.0.kind !in lx.cfg.ignore
    ensures r.Ok? ==> RawMeasure(r.value.1) <= RawMeasure(lx)
    ensures r.Ok? && r.value.0.kind != Eof ==> RawMeasure(r.value.1) < RawMeasure(lx)
    decreases RawMeasure(lx)
  {
    var s :- RawNext(lx);
    if s.tok.kind !in lx.cfg.ignore then Ok((s.tok, s.lx))
    else if s.tok.kind == Eof then Err(EndIgnored)
    else Fetch(s.lx)
  }

  /** The whole lexer object: raw lexer plus lookahead buffer. */
  type Stream = Buffered<Lexer>

  function Open(cfg: Config, text: string): Stream {
    Buffered(Init(cfg, text), [])
  }

  /** The pull decreases the raw lexer's measure. */
  lemma FetchShrinks()
    ensures Shrinks(Fetch, RawMeasure)
  {
  }

  /** Every buffered token is of a kind the filter lets through. */
  predicate Clean(b: Stream) {
    forall i | 0 <= i < |b.pending| :: b.pending[i].kind !in b.raw.cfg.ignore
  }

  /** `next_token` keeps the configuration and never hands out an ignored
      kind from a clean stream. */
  lemma NextNeverIgnored(b: Stream)
    requires Clean(b) && NextToken(b, Fetch).Ok?
    ensures var r := NextToken(b, Fetch).value;
      && r.b.raw.cfg == b.raw.cfg && Clean(r.b) && r.tok.kind !in b.raw.cfg.ignore
  {
    if |b.pending| == 0 {
      var r := NextToken(b, Fetch).value;
      assert Fetch(b.raw) == Ok((r.tok, r.b.raw));
    }
  }

  /** For any depth, `la(k)` on a clean stream reports no ignored kind. */
  lemma LaNeverIgnored(b: Stream, k: nat)
    requires k >= 1 && Clean(b) && LaToken(b, Fetch, k).Ok?
    ensures LaToken(b, Fetch, k).value.tok.kind !in b.raw.cfg.ignore
  {
    var ign := b.raw.cfg.ignore;
    forall l: Lexer | l.cfg.ignore == ign && Fetch(l).Ok?
      ensures Fetch(l).value.1.cfg.ignore == ign && Fetch(l).value.0.kind !in ign
    {
    }
    LaSupplied(b, Fetch, k, (l: Lexer) => l.cfg.ignore == ign, (t: Token) => t.kind !in ign);
  }

  lemma InitWf(cfg: Config, text: string)
    ensures Wf(Init(cfg, text)) && Rest(Init(cfg, text).cur) == text
  {
  }

  /** At the end, the raw lexer hands out EOF again and stays at the end. */
  lemma RawAtEnd(lx: Lexer)
    requires AtEnd(lx)
    ensures RawNext(lx).Ok? && RawNext(lx).value.tok == Plain(Eof, "")
    ensures AtEnd(RawNext(lx).value.lx) && RawNext(lx).value.lx.cfg == lx.cfg
  {
    assert Head(Rest(lx.cur)) == End;
    if lx.state.CommentState? {
      var c := StartBuf(lx.cur, CommentData !in lx.cfg.ignore, None);
      assert Valid(c) && Rest(c) == [];
    }
  }

  lemma {:induction false} FetchWf(lx: Lexer)
    requires Wf(lx) && Fetch(lx).Ok?
    ensures Wf(Fetch(lx).value.1)
    ensures Fetch(lx).value.0.kind == Eof ==> Fetch(lx).value.0 == Plain(Eof, "") && AtEnd(Fetch(lx).value.1)
    decreases RawMeasure(lx)
  {
    var s := RawNext(lx).value;
    if s.tok.kind in lx.cfg.ignore && s.tok.kind != Eof {
      FetchWf(s.lx);
    }
  }

  lemma FetchAtEnd(lx: Lexer)
    requires AtEnd(lx) && Eof !in lx.cfg.ignore
    ensures Fetch(lx).Ok? && Fetch(lx).value.0 == Plain(Eof, "")
    ensures AtEnd(Fetch(lx).value.1) && Fetch(lx).value.1.cfg == lx.cfg
  {
    RawAtEnd(lx);
  }

  /** Once the end of input is reached, `next_token` hands out the EOF
      token forever; this is why the statement and inline loops of the
      parser never finish on unterminated input. */
  lemma EofForever(b: Stream, n: nat)
    requires AtEnd(b.raw) && b.pending == [] && Eof !in b.raw.cfg.ignore
    ensures Upcoming(b, Fetch, n) == Ok(seq(n, i => Plain(Eof, "")))
  {
    var cfg := b.raw.cfg;
    forall l: Lexer | AtEnd(l) && l.cfg == cfg
      ensures Fetch(l).Ok? && Fetch(l).value.0 == Plain(Eof, "")
      ensures AtEnd(Fetch(l).value.1) && Fetch(l).value.1.cfg == cfg
    {
      FetchAtEnd(l);
    }
    PullFixpoint(b.raw, Fetch, n, (l: Lexer) => AtEnd(l) && l.cfg == cfg, Plain(Eof, ""));
  }

  /** The first EOF `next_token` hands out from a well-formed stream with an
      empty buffer is followed by EOF forever. */
  lemma EofSticky(b: Stream, n: nat)
    requires Wf(b.raw) && b.pending == [] && Eof !in b.raw.cfg.ignore
    requires NextToken(b, Fetch).Ok? && NextToken(b, Fetch).value.tok.kind == Eof
    ensures NextToken(b, Fetch).value.tok == Plain(Eof, "")
    ensures Upcoming(NextToken(b, Fetch).value.b, Fetch, n) == Ok(seq(n, i => Plain(Eof, "")))
  {
    FetchWf(b.raw);
    EofForever(NextToken(b, Fetch).value.b, n);
  }
}
