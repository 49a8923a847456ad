/** Properties of state 0 of `_next_token` (fserve/jinja_parse.py:152-207):
    literal text comes back whole, text before a start delimiter comes back
    first and the delimiter right after it, and a template without
    delimiters parses to a single text element. */
module TextProps {
  import opened Results
  import opened Tokens
  import opened Chars
  import opened Cursors
  import opened Lexer
  import opened Lookahead
  import opened Filter
  import opened Parser
  import opened Grouping
  import opened ParserProps

  /** No start delimiter begins with `x`. */
  predicate Inert(openers: seq<Opener>, x: char) {
    forall i | 0 <= i < |openers| :: |openers[i].delim| == 0 || openers[i].delim[0] != x
  }

  /** No character of `s` begins a start delimiter of `cfg`. */
  predicate InertText(cfg: Config, s: string) {
    forall i | 0 <= i < |s| :: Inert(Openers(cfg), s[i])
  }

  /** No character of `s`, read with the character after it in `s + u`,
      spells a start delimiter: the text state keeps all of `s` as text. */
  predicate Literal(cfg: Config, s: string, u: string) {
    forall i | 0 <= i < |s| :: Opening(Openers(cfg), s[i], At(s + u, i + 1)).None?
  }

  /** Every start delimiter has two characters, as in `statement_parse`. */
  predicate Pairs(openers: seq<Opener>) {
    forall i | 0 <= i < |openers| :: |openers[i].delim| == 2
  }

  /** The delimiter the source is meant to find: the first opener, in the
      order state 0 tries them, spelled `x` followed by `y`. */
  function Opening(openers: seq<Opener>, x: char, y: Ch): (r: Option<Opener>)
    ensures r.Some? ==> r.value in openers
    ensures r.Some? && Pairs(openers) ==> y.Char? && r.value.delim == [x, y.c]
    ensures r.None? && Pairs(openers) ==>
      forall i | 0 <= i < |openers| :: !(openers[i].delim[0] == x && Char(openers[i].delim[1]) == y)
  {
    if |openers| == 0 then None
    else if |openers[0].delim| == 2 && openers[0].delim[0] == x && Char(openers[0].delim[1]) == y then
      Some(openers[0])
    else
      Opening(openers[1..], x, y)
  }

  /** A character no delimiter starts with leaves the cursor alone. */
  lemma {:induction false} ProbeMiss(c: Cursor, x: char, openers: seq<Opener>)
    requires Inert(openers, x)
    ensures Probe(c, x, openers) == (None, c)
    decreases |openers|
  {
    if |openers| > 0 {
      assert Inert(openers[1..], x);
      ProbeMiss(c, x, openers[1..]);
    }
  }

  /** With two-character delimiters the probe finds exactly the intended
      opener, and then consumes its second character and nothing else. */
  lemma {:induction false} ProbeRef(c: Cursor, x: char, openers: seq<Opener>)
    requires Valid(c) && Pairs(openers)
    ensures var o := Opening(openers, x, Head(Rest(c)));
      && (o.None? ==> Probe(c, x, openers).0.None?)
      && (o.Some? ==> Probe(c, x, openers).0 == Some((Plain(o.value.kind, o.value.delim), o.value.next)))
      && (o.Some? ==> |Rest(c)| >= 1 && Rest(Probe(c, x, openers).1) == Rest(c)[1..])
    decreases |openers|
  {
    if |openers| > 0 {
      assert Pairs(openers[1..]);
      var d := openers[0].delim;
      if x != d[0] {
        ProbeRef(c, x, openers[1..]);
      } else {
        var (m, c1) := MatchFrom(c, d, 1);
        MatchFromAll(c, d, 1);
        assert m <==> Char(d[1]) == Head(Rest(c));
        if !m {
          ProbeRef(c1, x, openers[1..]);
        } else {
          assert Dropped(c1) == 1;
        }
      }
    }
  }

  /** Moving the head of `s` onto the end of `acc`. */
  lemma AppendHead(acc: string, s: string)
    requires |s| > 0
    ensures (acc + [s[0]]) + s[1..] == acc + s
  {
    assert s == [s[0]] + s[1..];
  }

  /** The head and tail of `s + u` for a non-empty `s`. */
  lemma DropHead(s: string, u: string)
    requires |s| > 0
    ensures (s + u)[0] == s[0] && (s + u)[1..] == s[1..] + u
  {
  }

  /** A character no delimiter starts with is added to the text. */
  lemma ScanTextMiss(cfg: Config, c: Cursor, acc: string)
    requires Valid(c) && |Rest(c)| > 0 && Inert(Openers(cfg), Rest(c)[0])
    ensures Valid(Next(c).1) && Rest(Next(c).1) == Rest(c)[1..] && Left(Next(c).1) < Left(c)
    ensures ScanText(cfg, c, acc) == ScanText(cfg, Next(c).1, acc + [Rest(c)[0]])
  {
    var (ch, c1) := Next(c);
    ProbeMiss(c1, Rest(c)[0], Openers(cfg));
  }

  lemma LiteralTail(cfg: Config, s: string, u: string)
    requires |s| > 0 && Literal(cfg, s, u)
    ensures Opening(Openers(cfg), s[0], Head(s[1..] + u)).None? && Literal(cfg, s[1..], u)
  {
    assert At(s + u, 1) == Head(s[1..] + u);
    forall i | 0 <= i < |s[1..]|
      ensures Opening(Openers(cfg), s[1..][i], At(s[1..] + u, i + 1)).None?
    {
      assert s[1..][i] == s[i + 1];
      assert At(s[1..] + u, i + 1) == At(s + u, i + 2);
    }
  }

  /** A character that does not spell a delimiter with the one after it is
      added to the text; the probe may have peeked at the next character
      but has consumed nothing. */
  lemma ScanTextPass(cfg: Config, c: Cursor, acc: string)
    requires Valid(c) && Pairs(Openers(cfg)) && |Rest(c)| > 0
    requires Opening(Openers(cfg), Rest(c)[0], Head(Rest(c)[1..])).None?
    ensures var c2 := Probe(Next(c).1, Rest(c)[0], Openers(cfg)).1;
      && Valid(c2) && Rest(c2) == Rest(c)[1..] && Left(c2) < Left(c)
      && ScanText(cfg, c, acc) == ScanText(cfg, c2, acc + [Rest(c)[0]])
  {
    var (ch, c1) := Next(c);
    ProbeRef(c1, Rest(c)[0], Openers(cfg));
  }

  /** At the end of input the text gathered so far is returned, or EOF. */
  lemma ScanTextEnd(cfg: Config, c: Cursor, acc: string)
    requires Valid(c) && Rest(c) == []
    ensures ScanText(cfg, c, acc).1 == TextState
    ensures Rest(ScanText(cfg, c, acc).0.cur) == []
    ensures ScanText(cfg, c, acc).0.tok == if |acc| == 0 then Plain(Eof, "") else Plain(TemplateData, acc)
  {
    var (ch, c1) := Next(c);
    assert ch == End;
  }

  /** The probe after the first character of a two-character delimiter,
      when its second character follows. */
  lemma ProbeHit(cfg: Config, c: Cursor, d: string, tail: string)
    requires Valid(c) && Pairs(Openers(cfg))
    requires |d| == 2 && Opening(Openers(cfg), d[0], Char(d[1])).Some?
    requires Rest(c) == [d[1]] + tail
    ensures var o := Opening(Openers(cfg), d[0], Char(d[1])).value;
      && Probe(c, d[0], Openers(cfg)).0 == Some((Plain(o.kind, d), o.next))
      && Rest(Probe(c, d[0], Openers(cfg)).1) == tail
  {
    assert Head(Rest(c)) == Char(d[1]);
    ProbeRef(c, d[0], Openers(cfg));
    assert d == [d[0], d[1]];
  }

  /** A character of the text that the probe matches ends the scan. */
  lemma ScanTextProbe(cfg: Config, c: Cursor, acc: string)
    requires Valid(c) && |Rest(c)| > 0 && Probe(Next(c).1, Rest(c)[0], Openers(cfg)).0.Some?
    ensures var p := Probe(Next(c).1, Rest(c)[0], Openers(cfg));
      ScanText(cfg, c, acc) ==
        if |acc| > 0 then (Lexed(Plain(TemplateData, acc), p.1), Replay(p.0.value.0, p.0.value.1))
        else (Lexed(p.0.value.0, p.1), p.0.value.1)
  {
  }

  /** The first character of a two-character delimiter followed by its
      second: the text so far is returned with the delimiter held back, or
      the delimiter itself when there is no text. */
  lemma ScanTextHit(cfg: Config, c: Cursor, acc: string, d: string, tail: string)
    requires Valid(c) && Pairs(Openers(cfg))
    requires |d| == 2 && Opening(Openers(cfg), d[0], Char(d[1])).Some?
    requires Rest(c) == d + tail
    ensures var o := Opening(Openers(cfg), d[0], Char(d[1])).value;
      var (l, st) := ScanText(cfg, c, acc);
      && Rest(l.cur) == tail
      && (|acc| > 0 ==> l.tok == Plain(TemplateData, acc) && st == Replay(Plain(o.kind, d), o.next))
      && (|acc| == 0 ==> l.tok == Plain(o.kind, d) && st == o.next)
  {
    DropHead(d, tail);
    assert d[1..] == [d[1]];
    ProbeHit(cfg, Next(c).1, d, tail);
    ScanTextProbe(cfg, c, acc);
  }

  /** Text none of whose characters starts a delimiter is accumulated up to
      the end of input: one TEMPLATE_DATA token holding all of it, or EOF
      when there is none. */
  lemma {:induction false} ScanTextInert(cfg: Config, c: Cursor, acc: string)
    requires Valid(c) && InertText(cfg, Rest(c))
    ensures ScanText(cfg, c, acc).1 == TextState
    ensures Rest(ScanText(cfg, c, acc).0.cur) == []
    ensures ScanText(cfg, c, acc).0.tok ==
      if |acc + Rest(c)| == 0 then Plain(Eof, "") else Plain(TemplateData, acc + Rest(c))
    decreases Left(c)
  {
    var s := Rest(c);
    if |s| > 0 {
      ScanTextMiss(cfg, c, acc);
      var c1 := Next(c).1;
      assert InertText(cfg, Rest(c1));
      ScanTextInert(cfg, c1, acc + [s[0]]);
      AppendHead(acc, s);
    } else {
      ScanTextEnd(cfg, c, acc);
      assert acc + s == acc;
    }
  }

  /** With two-character delimiters, text in which no character spells a
      delimiter with the next one is accumulated up to the end of input:
      one TEMPLATE_DATA token holding all of it, or EOF when there is none.
      A `{` followed by anything else stays text. */
  lemma {:induction false} ScanTextLiteral(cfg: Config, c: Cursor, acc: string)
    requires Valid(c) && Pairs(Openers(cfg)) && Literal(cfg, Rest(c), "")
    ensures ScanText(cfg, c, acc).1 == TextState
    ensures Rest(ScanText(cfg, c, acc).0.cur) == []
    ensures ScanText(cfg, c, acc).0.tok ==
      if |acc + Rest(c)| == 0 then Plain(Eof, "") else Plain(TemplateData, acc + Rest(c))
    decreases Left(c)
  {
    var s := Rest(c);
    if |s| > 0 {
      LiteralTail(cfg, s, "");
      assert s[1..] + "" == s[1..];
      ScanTextPass(cfg, c, acc);
      var c2 := Probe(Next(c).1, s[0], Openers(cfg)).1;
      ScanTextLiteral(cfg, c2, acc + [s[0]]);
      AppendHead(acc, s);
    } else {
      ScanTextEnd(cfg, c, acc);
      assert acc + s == acc;
    }
  }

  /** Text before a two-character start delimiter: the accumulated text is
      returned first with the delimiter held back for replay; with no text
      the delimiter itself is returned. Either way the cursor stops right
      after the delimiter. */
  lemma {:induction false} ScanTextDelim(cfg: Config, c: Cursor, acc: string, s: string, d: string, tail: string)
    requires Valid(c) && Pairs(Openers(cfg)) && Literal(cfg, s, d + tail)
    requires |d| == 2 && Opening(Openers(cfg), d[0], Char(d[1])).Some?
    requires Rest(c) == s + (d + tail)
    ensures var o := Opening(Openers(cfg), d[0], Char(d[1])).value;
      var (l, st) := ScanText(cfg, c, acc);
      && Rest(l.cur) == tail
      && (|acc + s| > 0 ==> l.tok == Plain(TemplateData, acc + s) && st == Replay(Plain(o.kind, d), o.next))
      && (|acc + s| == 0 ==> l.tok == Plain(o.kind, d) && st == o.next)
    decreases |s|
  {
    if |s| > 0 {
      DropHead(s, d + tail);
      LiteralTail(cfg, s, d + tail);
      ScanTextPass(cfg, c, acc);
      ScanTextDelim(cfg, Probe(Next(c).1, s[0], Openers(cfg)).1, acc + [s[0]], s[1..], d, tail);
      AppendHead(acc, s);
    } else {
      assert Rest(c) == d + tail;
      ScanTextHit(cfg, c, acc, d, tail);
      assert acc + s == acc;
    }
  }

  /** When literal text precedes a delimiter, `_next_token` returns exactly
      that text and holds the delimiter back, with the cursor right after
      the delimiter. */
  lemma TextBeforeDelimiter(lx: Lexer, s: string, d: string, tail: string)
    requires Wf(lx) && lx.state == TextState && Pairs(Openers(lx.cfg)) && Literal(lx.cfg, s, d + tail)
    requires |s| > 0 && |d| == 2 && Opening(Openers(lx.cfg), d[0], Char(d[1])).Some?
    requires Rest(lx.cur) == s + d + tail
    ensures var o := Opening(Openers(lx.cfg), d[0], Char(d[1])).value;
      && RawNext(lx).Ok? && RawNext(lx).value.tok == Plain(TemplateData, s)
      && RawNext(lx).value.lx.state == Replay(Plain(o.kind, d), o.next)
      && Wf(RawNext(lx).value.lx) && Rest(RawNext(lx).value.lx.cur) == tail
  {
    assert s + d + tail == s + (d + tail);
    ScanTextDelim(lx.cfg, lx.cur, "", s, d, tail);
    assert "" + s == s;
  }

  /** The replay state hands out the held token and enters the state saved
      with it, without reading input. */
  lemma ReplayHandsOutHeld(lx: Lexer)
    requires lx.state.Replay?
    ensures RawNext(lx).Ok? && RawNext(lx).value.tok == lx.state.held
    ensures RawNext(lx).value.lx.state == lx.state.resume && RawNext(lx).value.lx.cur == lx.cur
  {
  }

  /** Text, then a delimiter: the very next call after the text returns the
      delimiter and leaves the lexer in the delimiter's state. */
  lemma TextThenDelimiter(lx: Lexer, s: string, d: string, tail: string)
    requires Wf(lx) && lx.state == TextState && Pairs(Openers(lx.cfg)) && Literal(lx.cfg, s, d + tail)
    requires |s| > 0 && |d| == 2 && Opening(Openers(lx.cfg), d[0], Char(d[1])).Some?
    requires Rest(lx.cur) == s + d + tail
    ensures var o := Opening(Openers(lx.cfg), d[0], Char(d[1])).value;
      var lx1 := RawNext(lx).value.lx;
      && RawNext(lx).Ok? && RawNext(lx).value.tok == Plain(TemplateData, s)
      && RawNext(lx1).Ok? && RawNext(lx1).value.tok == Plain(o.kind, d)
      && RawNext(lx1).value.lx.state == o.next
      && Rest(RawNext(lx1).value.lx.cur) == tail
  {
    TextBeforeDelimiter(lx, s, d, tail);
    ReplayHandsOutHeld(RawNext(lx).value.lx);
  }

  /** A delimiter at the very front is returned at once, with the lexer in
      its state. */
  lemma DelimiterFirst(lx: Lexer, d: string, tail: string)
    requires Wf(lx) && lx.state == TextState && Pairs(Openers(lx.cfg))
    requires |d| == 2 && Opening(Openers(lx.cfg), d[0], Char(d[1])).Some?
    requires Rest(lx.cur) == d + tail
    ensures var o := Opening(Openers(lx.cfg), d[0], Char(d[1])).value;
      && RawNext(lx).Ok? && RawNext(lx).value.tok == Plain(o.kind, d)
      && RawNext(lx).value.lx.state == o.next
      && Rest(RawNext(lx).value.lx.cur) == tail
  {
    assert Rest(lx.cur) == [] + (d + tail);
    ScanTextDelim(lx.cfg, lx.cur, "", [], d, tail);
  }

  /** From the start of a template without delimiters `_next_token` returns
      the whole text (or EOF for the empty text) and leaves the lexer at the
      end. */
  lemma RawInert(cfg: Config, text: string)
    requires InertText(cfg, text)
    ensures RawNext(Init(cfg, text)).Ok?
    ensures RawNext(Init(cfg, text)).value.tok == if |text| == 0 then Plain(Eof, "") else Plain(TemplateData, text)
    ensures AtEnd(RawNext(Init(cfg, text)).value.lx)
  {
    InitWf(cfg, text);
    var c := Start(text);
    assert Init(cfg, text).cur == c && Init(cfg, text).state == TextState;
    ScanTextInert(cfg, c, "");
    assert "" + text == text;
    var (l, st) := ScanText(cfg, c, "");
    assert Valid(l.cur) && Rest(l.cur) == [] && st == TextState;
    assert RawNext(Init(cfg, text)) == Ok(Step(l.tok, Init(cfg, text).(cur := l.cur, state := st)));
  }

  /** With two-character delimiters, from the start of a template in which
      no character spells a delimiter with the next one, `_next_token`
      returns the whole text (or EOF for the empty text) and leaves the
      lexer at the end. */
  lemma RawLiteral(cfg: Config, text: string)
    requires Pairs(Openers(cfg)) && Literal(cfg, text, "")
    ensures RawNext(Init(cfg, text)).Ok?
    ensures RawNext(Init(cfg, text)).value.tok == if |text| == 0 then Plain(Eof, "") else Plain(TemplateData, text)
    ensures AtEnd(RawNext(Init(cfg, text)).value.lx)
  {
    InitWf(cfg, text);
    var c := Start(text);
    assert Init(cfg, text).cur == c && Init(cfg, text).state == TextState;
    ScanTextLiteral(cfg, c, "");
    assert "" + text == text;
    var (l, st) := ScanText(cfg, c, "");
    assert Valid(l.cur) && Rest(l.cur) == [] && st == TextState;
    assert RawNext(Init(cfg, text)) == Ok(Step(l.tok, Init(cfg, text).(cur := l.cur, state := st)));
  }

  /** The filter's first pull from such a template is the whole text (or EOF
      for the empty text) and leaves the lexer at the end. */
  lemma FetchLiteral(cfg: Config, text: string)
    requires Pairs(Openers(cfg)) && Literal(cfg, text, "")
    requires TemplateData !in cfg.ignore && Eof !in cfg.ignore
    ensures Fetch(Init(cfg, text)).Ok?
    ensures Fetch(Init(cfg, text)).value.0 == if |text| == 0 then Plain(Eof, "") else Plain(TemplateData, text)
    ensures AtEnd(Fetch(Init(cfg, text)).value.1) && Fetch(Init(cfg, text)).value.1.cfg == cfg
  {
    RawLiteral(cfg, text);
  }

  /** Two pulls from a fresh raw state are the first two upcoming tokens. */
  lemma FeedsPulls<L>(l0: L, fetch: Pull<L>, t0: Token, l1: L, t1: Token, l2: L)
    requires fetch(l0) == Ok((t0, l1)) && fetch(l1) == Ok((t1, l2))
    ensures Feeds(Buffered(l0, []), fetch, [t0, t1])
  {
    FeedsPull(l1, fetch, t1, l2);
    var b0 := Buffered(l0, []);
    UpcomingStep(b0, fetch, 2);
    assert NextToken(b0, fetch) == Ok(Out(t0, Buffered(l1, [])));
    assert Upcoming(Buffered(l1, []), fetch, 1) == Ok([t1]);
    assert [t0] + [t1] == [t0, t1];
  }

  /** One pull from a fresh raw state is the first upcoming token. */
  lemma FeedsPull<L>(l0: L, fetch: Pull<L>, t0: Token, l1: L)
    requires fetch(l0) == Ok((t0, l1))
    ensures Feeds(Buffered(l0, []), fetch, [t0])
  {
    var b0 := Buffered(l0, []);
    UpcomingStep(b0, fetch, 1);
    assert NextToken(b0, fetch) == Ok(Out(t0, Buffered(l1, [])));
    assert Upcoming(Buffered(l1, []), fetch, 0) == Ok([]);
    assert [t0] + [] == [t0];
  }

  /** `text` contains none of the start delimiters `{%`, `{{` and `{#` of
      `statement_parse`; a lone `{` is allowed anywhere. */
  predicate Undelimited(text: string) {
    forall i | 0 <= i < |text| - 1 :: !(text[i] == '{' && text[i + 1] in {'%', '{', '#'})
  }

  /** Such a text is literal for the delimiters of `statement_parse`. */
  lemma EntryLiteral(text: string)
    requires Undelimited(text)
    ensures Pairs(Openers(EntryConfig)) && Literal(EntryConfig, text, "")
  {
    forall i | 0 <= i < |text|
      ensures Opening(Openers(EntryConfig), text[i], At(text + "", i + 1)).None?
    {
      assert text + "" == text;
    }
  }

  /** The filtered tokens of a template without delimiters. */
  function PlainTokens(text: string): (ts: seq<Token>)
    ensures Reaches(ts)
  {
    if |text| == 0 then [Plain(Eof, "")] else [Plain(TemplateData, text), Plain(Eof, "")]
  }

  /** A template containing none of `{%`, `{{` and `{#` lexes to one
      TEMPLATE_DATA token holding all of it, then EOF; the empty template
      lexes to EOF alone. */
  lemma PlainFeeds(text: string)
    requires Undelimited(text)
    ensures Feeds(Open(EntryConfig, text), Fetch, PlainTokens(text))
  {
    EntryLiteral(text);
    FetchLiteral(EntryConfig, text);
    var (t0, l1) := Fetch(Init(EntryConfig, text)).value;
    if |text| == 0 {
      FeedsPull(Init(EntryConfig, text), Fetch, t0, l1);
    } else {
      FetchAtEnd(l1);
      var (t1, l2) := Fetch(l1).value;
      FeedsPulls(Init(EntryConfig, text), Fetch, t0, l1, t1, l2);
    }
  }

  /** `statement_parse` groups any token sequence its text feeds that
      reaches the end of input. */
  lemma EntryParses(text: string, ts: seq<Token>)
    requires Feeds(Open(EntryConfig, text), Fetch, ts) && Reaches(ts)
    ensures StatementParse(text) == Group(ts)
  {
    FetchShrinks();
    DocumentRef(Open(EntryConfig, text), Fetch, RawMeasure, ts);
  }

  /** The grouping of the tokens of a template without delimiters. */
  lemma GroupPlain(text: string)
    ensures Group(PlainTokens(text)) == if |text| == 0 then Ok([]) else Ok([TemplateText(Str(text))])
  {
    var ts := PlainTokens(text);
    if |text| > 0 {
      assert Tok(ts, 0) == Plain(TemplateData, text);
      assert ElementAt(ts) == Ok((TemplateText(Str(text)), 1));
      assert ts[1..] == [Plain(Eof, "")];
      assert Group(ts[1..]) == Ok([]);
      assert [TemplateText(Str(text))] + [] == [TemplateText(Str(text))];
    }
  }

  /** A template containing none of `{%`, `{{` and `{#` parses to a single
      text element holding all of it; the empty template parses to the
      empty document. */
  lemma PlainTextParses(text: string)
    requires Undelimited(text)
    ensures StatementParse(text) == if |text| == 0 then Ok([]) else Ok([TemplateText(Str(text))])
  {
    PlainFeeds(text);
    EntryParses(text, PlainTokens(text));
    GroupPlain(text);
  }

  /** A brace that opens no delimiter is text: a style rule parses to one
      text element. */
  lemma LoneBraceIsText()
    ensures StatementParse("p { color: red }") == Ok([TemplateText(Str("p { color: red }"))])
  {
    var text := "p { color: red }";
    assert Undelimited(text) by {
      forall i | 0 <= i < |text| - 1
        ensures !(text[i] == '{' && text[i + 1] in {'%', '{', '#'})
      {
        assert text[2] == '{' && text[3] == ' ';
      }
    }
    PlainTextParses(text);
  }
}
