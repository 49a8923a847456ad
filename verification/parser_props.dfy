/** The streaming parser against the reference grouping: within any window
    of upcoming tokens that reaches the end of input, `JinjaStatementParser`
    builds exactly the elements the reference finds by searching for end
    tokens (fserve/jinja_parse.py:589-652), and `statement_parse` groups the
    filtered token sequence of its text (fserve/jinja_parse.py:655-661). */
module ParserProps {
  import opened Results
  import opened Tokens
  import opened Lexer
  import opened Lookahead
  import opened Filter
  import opened Parser
  import opened Grouping

  /** `ts` are the next tokens `next_token` hands out from `b`. The window
      length is bound by a quantifier so that the definition of `Upcoming`
      is unfolded only where a proof asks for it. */
  ghost predicate Feeds<L>(b: Buffered<L>, fetch: Pull<L>, ts: seq<Token>) {
    forall n: nat | n == |ts| :: Upcoming(b, fetch, n) == Ok(ts)
  }

  lemma FeedsNext<L>(b: Buffered<L>, fetch: Pull<L>, ts: seq<Token>)
    requires |ts| >= 1 && Feeds(b, fetch, ts)
    ensures NextToken(b, fetch).Ok? && NextToken(b, fetch).value.tok == ts[0]
    ensures Feeds(NextToken(b, fetch).value.b, fetch, ts[1..])
  {
    assert Upcoming(b, fetch, |ts|) == Ok(ts);
    NextOfUpcoming(b, fetch, ts);
  }

  lemma FeedsLa<L>(b: Buffered<L>, fetch: Pull<L>, ts: seq<Token>)
    requires |ts| >= 1 && Feeds(b, fetch, ts)
    ensures LaToken(b, fetch, 1).Ok? && LaToken(b, fetch, 1).value.tok == ts[0]
    ensures Feeds(LaToken(b, fetch, 1).value.b, fetch, ts)
  {
    assert Upcoming(b, fetch, |ts|) == Ok(ts);
    LaOfUpcoming(b, fetch, ts);
  }

  /** A window of upcoming tokens that reaches the plain end-of-input token
      the lexer produces. */
  predicate Reaches(ts: seq<Token>) {
    FirstEof(ts) < |ts| && ts[FirstEof(ts)] == Plain(Eof, "")
  }

  lemma {:induction false} FirstEofDrop(ts: seq<Token>, n: nat)
    requires n <= FirstEof(ts)
    ensures FirstEof(ts[n..]) == FirstEof(ts) - n
    decreases n
  {
    if n > 0 {
      assert ts[n..] == ts[1..][n - 1..];
      FirstEofDrop(ts[1..], n - 1);
    }
  }

  lemma ReachesDrop(ts: seq<Token>, n: nat)
    requires Reaches(ts) && n <= FirstEof(ts)
    ensures Reaches(ts[n..])
  {
    FirstEofDrop(ts, n);
  }

  /** The search for an end token stops at the end of input at the latest. */
  lemma {:induction false} EndOfBeforeEof(ts: seq<Token>, k: Kind)
    ensures EndOf(ts, k) <= FirstEof(ts)
  {
    if |ts| > 0 && ts[0].kind != k && ts[0].kind != Eof {
      EndOfBeforeEof(ts[1..], k);
    }
  }

  lemma SplitRightCons(t: Token, rest: seq<Token>, isBlock: bool)
    requires |rest| > 0 || !(isBlock && IsMarker(t.value))
    ensures SplitRight([t] + rest, isBlock)
         == ([t] + SplitRight(rest, isBlock).0, SplitRight(rest, isBlock).1)
  {
    if |rest| > 0 {
      assert ([t] + rest)[..|rest|] == [t] + rest[..|rest| - 1];
    }
  }

  /** Collecting one more token in front of a body. */
  lemma BodyCons(ts: seq<Token>, e: nat, isBlock: bool, body: seq<Token>, rws: Option<Value>)
    requires 1 <= e < |ts|
    requires (body, rws) == SplitRight(ts[1..][..e - 1], isBlock)
    requires e > 1 || !(isBlock && IsMarker(ts[0].value))
    ensures ([ts[0]] + body, rws) == SplitRight(ts[..e], isBlock)
    ensures ts[e + 1..] == ts[1..][e - 1 + 1..]
  {
    assert ts[..e] == [ts[0]] + ts[1..][..e - 1];
    SplitRightCons(ts[0], ts[1..][..e - 1], isBlock);
  }

  /** What the statement loop computes from a window of upcoming tokens
      holding a statement end or the end of input: the tokens before the
      first of them, with a final marker split off in a block, or
      `Unterminated` when the end of input comes first. */
  ghost predicate BodyAgrees<L(!new)>(b: Buffered<L>, fetch: Pull<L>, m: L -> nat, isBlock: bool, ts: seq<Token>)
    requires Shrinks(fetch, m) && EndOf(ts, StatementEnd) < |ts|
  {
    var e := EndOf(ts, StatementEnd);
    var r := StatementBody(b, fetch, m, isBlock);
    if ts[e].kind == Eof then r == Err(Unterminated)
    else
      && r.Ok? && (r.value.0, r.value.1) == SplitRight(ts[..e], isBlock)
      && Feeds(r.value.2, fetch, ts[e + 1..])
  }

  /** The statement loop collects the tokens before the first statement end
      and splits off a final marker in a block; end of input first is
      `Unterminated`. */
  lemma {:induction false} StatementBodyRef<L(!new)>(b: Buffered<L>, fetch: Pull<L>, m: L -> nat,
                                                     isBlock: bool, ts: seq<Token>)
    requires Shrinks(fetch, m) && Feeds(b, fetch, ts)
    requires EndOf(ts, StatementEnd) < |ts|
    ensures BodyAgrees(b, fetch, m, isBlock, ts)
    decreases |ts|, 1
  {
    FeedsNext(b, fetch, ts);
    var s := NextToken(b, fetch).value;
    if ts[0].kind == StatementEnd {
      assert StatementBody(b, fetch, m, isBlock) == Ok(([], None, s.b));
      assert ts[..0] == [];
    } else if ts[0].kind == Eof {
      assert StatementBody(b, fetch, m, isBlock) == Err(Unterminated);
    } else if isBlock && IsMarker(ts[0].value) {
      StatementBodyMarker(b, fetch, m, isBlock, ts);
    } else {
      StatementBodyPlain(b, fetch, m, isBlock, ts);
    }
  }

  /** A token that is neither a marker in a block nor an end is collected. */
  lemma {:induction false} StatementBodyPlain<L(!new)>(b: Buffered<L>, fetch: Pull<L>, m: L -> nat,
                                                       isBlock: bool, ts: seq<Token>)
    requires Shrinks(fetch, m) && Feeds(b, fetch, ts)
    requires EndOf(ts, StatementEnd) < |ts|
    requires ts[0].kind != StatementEnd && ts[0].kind != Eof && !(isBlock && IsMarker(ts[0].value))
    ensures BodyAgrees(b, fetch, m, isBlock, ts)
    decreases |ts|, 0
  {
    FeedsNext(b, fetch, ts);
    var s := NextToken(b, fetch).value;
    var t := ts[0];
    var e := EndOf(ts, StatementEnd);
    var tail := ts[1..];
    assert EndOf(tail, StatementEnd) == e - 1;
    assert tail[e - 1] == ts[e];
    StatementBodyRef(s.b, fetch, m, isBlock, tail);
    var r1 := StatementBody(s.b, fetch, m, isBlock);
    if ts[e].kind == Eof {
      assert r1 == Err(Unterminated);
      assert StatementBody(b, fetch, m, isBlock) == Err(Unterminated);
    } else {
      assert r1.Ok?;
      assert StatementBody(b, fetch, m, isBlock) == Ok(([t] + r1.value.0, r1.value.1, r1.value.2));
      BodyCons(ts, e, isBlock, r1.value.0, r1.value.1);
    }
  }

  /** A marker in a block is the right whitespace control when the statement
      end follows it, and is collected otherwise. */
  lemma {:induction false} StatementBodyMarker<L(!new)>(b: Buffered<L>, fetch: Pull<L>, m: L -> nat,
                                                        isBlock: bool, ts: seq<Token>)
    requires Shrinks(fetch, m) && Feeds(b, fetch, ts)
    requires EndOf(ts, StatementEnd) < |ts|
    requires ts[0].kind != StatementEnd && ts[0].kind != Eof && isBlock && IsMarker(ts[0].value)
    ensures BodyAgrees(b, fetch, m, isBlock, ts)
    decreases |ts|, 0
  {
    FeedsNext(b, fetch, ts);
    var s := NextToken(b, fetch).value;
    var t := ts[0];
    var e := EndOf(ts, StatementEnd);
    var tail := ts[1..];
    assert EndOf(tail, StatementEnd) == e - 1;
    assert tail[e - 1] == ts[e];
    FeedsLa(s.b, fetch, tail);
    var la := LaToken(s.b, fetch, 1).value;
    StatementBodyRef(la.b, fetch, m, isBlock, tail);
    var r1 := StatementBody(la.b, fetch, m, isBlock);
    if ts[e].kind == Eof {
      assert r1 == Err(Unterminated);
      assert StatementBody(b, fetch, m, isBlock) == Err(Unterminated);
    } else if tail[0].kind == StatementEnd {
      assert r1.Ok? && r1.value.0 == [] && r1.value.1 == None;
      assert StatementBody(b, fetch, m, isBlock) == Ok((r1.value.0, Some(t.value), r1.value.2));
      assert ts[..e] == [t];
      assert ts[e + 1..] == tail[e - 1 + 1..];
    } else {
      assert r1.Ok?;
      assert StatementBody(b, fetch, m, isBlock) == Ok(([t] + r1.value.0, r1.value.1, r1.value.2));
      BodyCons(ts, e, isBlock, r1.value.0, r1.value.1);
    }
  }

  /** A block takes a marker value in front of the command as its left
      whitespace control; other statements take nothing. */
  lemma LeftMarkerRef<L(!new)>(b: Buffered<L>, fetch: Pull<L>, m: L -> nat, isBlock: bool, ts: seq<Token>)
    requires Shrinks(fetch, m) && Feeds(b, fetch, ts) && |ts| >= 1
    ensures var p := if isBlock && IsMarker(ts[0].value) then 1 else 0;
      var r := LeftMarker(b, fetch, m, isBlock);
      && r.Ok? && r.value.0 == (if p == 1 then Some(ts[0].value) else None)
      && Feeds(r.value.1, fetch, ts[p..])
  {
    if isBlock {
      FeedsLa(b, fetch, ts);
      if IsMarker(ts[0].value) {
        FeedsNext(LaToken(b, fetch, 1).value.b, fetch, ts);
      }
    }
  }

  lemma CommandAtFound(ts: seq<Token>, isBlock: bool)
    requires Reaches(ts) && ts[0].kind == NameOrKeyword
    requires Tok(ts, 1 + EndOf(ts[1..], StatementEnd)).kind != Eof
    ensures var e := 1 + EndOf(ts[1..], StatementEnd);
      var (body, rws) := SplitRight(ts[1..e], isBlock);
      e < |ts| && e + 1 <= FirstEof(ts) && CommandAt(ts, isBlock) == Ok((ts[0].value, body, rws, e + 1))
  {
    EndFound(ts, StatementEnd);
  }

  /** A command name followed by a terminated body. */
  lemma CommandRefOk<L(!new)>(b: Buffered<L>, fetch: Pull<L>, m: L -> nat, isBlock: bool, ts: seq<Token>)
    requires Shrinks(fetch, m) && Feeds(b, fetch, ts) && Reaches(ts)
    requires ts[0].kind == NameOrKeyword
    requires Tok(ts, 1 + EndOf(ts[1..], StatementEnd)).kind != Eof
    ensures var e := 1 + EndOf(ts[1..], StatementEnd);
      var r := Command(b, fetch, m, isBlock);
      && e + 1 <= FirstEof(ts)
      && r.Ok? && CommandAt(ts, isBlock) == Ok((r.value.0, r.value.1, r.value.2, e + 1))
      && Feeds(r.value.3, fetch, ts[e + 1..])
  {
    CommandAtFound(ts, isBlock);
    var e := 1 + EndOf(ts[1..], StatementEnd);
    assert ts[1..][e - 1] == ts[e];
    FeedsNext(b, fetch, ts);
    var s1 := NextToken(b, fetch).value;
    StatementBodyRef(s1.b, fetch, m, isBlock, ts[1..]);
    var r := StatementBody(s1.b, fetch, m, isBlock);
    var e1 := EndOf(ts[1..], StatementEnd);
    assert e1 == e - 1;
    assert r.Ok? && (r.value.0, r.value.1) == SplitRight(ts[1..][..e1], isBlock);
    assert Feeds(r.value.2, fetch, ts[1..][e1 + 1..]);
    SliceTail(ts, e);
    assert Command(b, fetch, m, isBlock) == Ok((ts[0].value, r.value.0, r.value.1, r.value.2));
  }

  /** The command check and the statement loop build the reference command
      and body, and consume exactly the tokens they span. */
  lemma CommandRef<L(!new)>(b: Buffered<L>, fetch: Pull<L>, m: L -> nat, isBlock: bool, ts: seq<Token>)
    requires Shrinks(fetch, m) && Feeds(b, fetch, ts) && Reaches(ts)
    ensures CommandAt(ts, isBlock).Err? ==> Command(b, fetch, m, isBlock) == Err(CommandAt(ts, isBlock).error)
    ensures CommandAt(ts, isBlock).Ok? ==>
      var c := CommandAt(ts, isBlock).value;
      && Command(b, fetch, m, isBlock).Ok?
      && Command(b, fetch, m, isBlock).value.0 == c.0
      && Command(b, fetch, m, isBlock).value.1 == c.1
      && Command(b, fetch, m, isBlock).value.2 == c.2
      && c.3 <= FirstEof(ts)
      && Feeds(Command(b, fetch, m, isBlock).value.3, fetch, ts[c.3..])
  {
    assert Tok(ts, 0) == ts[0];
    if ts[0].kind != NameOrKeyword {
      FeedsNext(b, fetch, ts);
      assert CommandAt(ts, isBlock) == Err(UnexpectedToken(ts[0]));
    } else if Tok(ts, 1 + EndOf(ts[1..], StatementEnd)).kind == Eof {
      CommandRefUnterminated(b, fetch, m, isBlock, ts);
    } else {
      CommandRefOk(b, fetch, m, isBlock, ts);
    }
  }

  /** A command name whose body reaches the end of input. */
  lemma CommandRefUnterminated<L(!new)>(b: Buffered<L>, fetch: Pull<L>, m: L -> nat, isBlock: bool, ts: seq<Token>)
    requires Shrinks(fetch, m) && Feeds(b, fetch, ts) && Reaches(ts)
    requires ts[0].kind == NameOrKeyword
    requires Tok(ts, 1 + EndOf(ts[1..], StatementEnd)).kind == Eof
    ensures CommandAt(ts, isBlock) == Err(Unterminated)
    ensures Command(b, fetch, m, isBlock) == Err(Unterminated)
  {
    FeedsNext(b, fetch, ts);
    var s1 := NextToken(b, fetch).value;
    var rest := ts[1..];
    FirstEofDrop(ts, 1);
    EndOfBeforeEof(rest, StatementEnd);
    StatementBodyRef(s1.b, fetch, m, isBlock, rest);
    var e := 1 + EndOf(rest, StatementEnd);
    assert Tok(ts, e) == rest[e - 1];
  }

  /** Where the command starts in a statement window: after the start
      token and, in a block, a marker value. */
  function CommandStart(ts: seq<Token>): nat
    requires |ts| >= 2
  {
    if ts[0].kind == StatementStart && IsMarker(ts[1].value) then 2 else 1
  }

  /** The left whitespace control of a statement window. */
  function LeftWs(ts: seq<Token>): Option<Value>
    requires |ts| >= 2
  {
    if CommandStart(ts) == 2 then Some(ts[1].value) else None
  }

  /** The reference statement is the command found after the start token
      and the left marker. */
  lemma StatementAtSplit(ts: seq<Token>)
    requires Reaches(ts) && (ts[0].kind == StatementStart || ts[0].kind == LineStatementPrefix)
    ensures CommandStart(ts) <= FirstEof(ts)
    ensures var c := CommandAt(ts[CommandStart(ts)..], ts[0].kind == StatementStart);
      c.Err? ==> StatementAt(ts) == Err(c.error)
    ensures var c := CommandAt(ts[CommandStart(ts)..], ts[0].kind == StatementStart);
      c.Ok? ==>
        && StatementAt(ts).Ok?
        && StatementAt(ts).value.0 == TemplateStatement(LeftWs(ts), c.value.0, c.value.1, c.value.2)
        && StatementAt(ts).value.1 == CommandStart(ts) + c.value.3
  {
    assert Tok(ts, 0) == ts[0] && Tok(ts, 1) == ts[1];
  }

  /** A statement start: the left marker, then the command from the buffer
      `b1` that follows them. */
  lemma StatementRefStart<L(!new)>(b: Buffered<L>, fetch: Pull<L>, m: L -> nat, ts: seq<Token>)
    returns (b1: Buffered<L>)
    requires Shrinks(fetch, m) && Feeds(b, fetch, ts) && Reaches(ts)
    requires ts[0].kind == StatementStart || ts[0].kind == LineStatementPrefix
    ensures Feeds(b1, fetch, ts[CommandStart(ts)..])
    ensures var c := Command(b1, fetch, m, ts[0].kind == StatementStart);
      c.Err? ==> Statement(b, fetch, m) == Err(c.error)
    ensures var c := Command(b1, fetch, m, ts[0].kind == StatementStart);
      c.Ok? ==>
        && Statement(b, fetch, m).Ok?
        && Statement(b, fetch, m).value.0 == TemplateStatement(LeftWs(ts), c.value.0, c.value.1, c.value.2)
        && Statement(b, fetch, m).value.1 == c.value.3
  {
    FeedsNext(b, fetch, ts);
    var s0 := NextToken(b, fetch).value;
    var isBlock := ts[0].kind == StatementStart;
    var tail := ts[1..];
    assert tail[0] == ts[1];
    LeftMarkerRef(s0.b, fetch, m, isBlock, tail);
    var p := CommandStart(ts);
    assert tail[p - 1..] == ts[p..];
    b1 := LeftMarker(s0.b, fetch, m, isBlock).value.1;
  }

  /** The command found `p` tokens into a window, in terms of the whole
      window. */
  lemma CommandRefAt<L(!new)>(b1: Buffered<L>, fetch: Pull<L>, m: L -> nat, isBlock: bool, ts: seq<Token>, p: nat)
    requires Shrinks(fetch, m) && Reaches(ts) && p <= FirstEof(ts) && Feeds(b1, fetch, ts[p..])
    requires CommandAt(ts[p..], isBlock).Ok?
    ensures var c := CommandAt(ts[p..], isBlock).value;
      && Command(b1, fetch, m, isBlock).Ok?
      && Command(b1, fetch, m, isBlock).value.0 == c.0
      && Command(b1, fetch, m, isBlock).value.1 == c.1
      && Command(b1, fetch, m, isBlock).value.2 == c.2
      && p + c.3 <= FirstEof(ts)
      && Feeds(Command(b1, fetch, m, isBlock).value.3, fetch, ts[p + c.3..])
  {
    ReachesDrop(ts, p);
    FirstEofDrop(ts, p);
    CommandRef(b1, fetch, m, isBlock, ts[p..]);
    var n := CommandAt(ts[p..], isBlock).value.3;
    assert ts[p..][n..] == ts[p + n..];
  }

  /** A statement whose command is found. */
  lemma StatementRefFound<L(!new)>(b: Buffered<L>, fetch: Pull<L>, m: L -> nat, ts: seq<Token>)
    requires Shrinks(fetch, m) && Feeds(b, fetch, ts) && Reaches(ts)
    requires ts[0].kind == StatementStart || ts[0].kind == LineStatementPrefix
    requires CommandAt(ts[CommandStart(ts)..], ts[0].kind == StatementStart).Ok?
    ensures StatementAt(ts).Ok?
    ensures Statement(b, fetch, m).Ok?
    ensures Statement(b, fetch, m).value.0 == StatementAt(ts).value.0
    ensures StatementAt(ts).value.1 <= FirstEof(ts)
    ensures Feeds(Statement(b, fetch, m).value.1, fetch, ts[StatementAt(ts).value.1..])
  {
    var b1 := StartAgreed(b, fetch, m, ts);
    FoundJoin(b, b1, fetch, m, ts);
  }

  /** What `StatementRefStart` establishes, as one fact. */
  ghost predicate StartAgrees<L(!new)>(b: Buffered<L>, b1: Buffered<L>, fetch: Pull<L>, m: L -> nat, ts: seq<Token>)
    requires Shrinks(fetch, m) && |ts| >= 2
  {
    && Feeds(b1, fetch, ts[CommandStart(ts)..])
    && var c := Command(b1, fetch, m, ts[0].kind == StatementStart);
    && (c.Err? ==> Statement(b, fetch, m) == Err(c.error))
    && (c.Ok? ==>
          && Statement(b, fetch, m).Ok?
          && Statement(b, fetch, m).value.0 == TemplateStatement(LeftWs(ts), c.value.0, c.value.1, c.value.2)
          && Statement(b, fetch, m).value.1 == c.value.3)
  }

  /** `StatementRefStart` packaged as `StartAgrees`. */
  lemma StartAgreed<L(!new)>(b: Buffered<L>, fetch: Pull<L>, m: L -> nat, ts: seq<Token>) returns (b1: Buffered<L>)
    requires Shrinks(fetch, m) && Feeds(b, fetch, ts) && Reaches(ts)
    requires ts[0].kind == StatementStart || ts[0].kind == LineStatementPrefix
    ensures |ts| >= 2 && StartAgrees(b, b1, fetch, m, ts)
  {
    b1 := StatementRefStart(b, fetch, m, ts);
  }

  /** The command found after the left marker completes the statement. */
  lemma FoundJoin<L(!new)>(b: Buffered<L>, b1: Buffered<L>, fetch: Pull<L>, m: L -> nat, ts: seq<Token>)
    requires Shrinks(fetch, m) && Reaches(ts) && |ts| >= 2
    requires ts[0].kind == StatementStart || ts[0].kind == LineStatementPrefix
    requires CommandAt(ts[CommandStart(ts)..], ts[0].kind == StatementStart).Ok?
    requires StartAgrees(b, b1, fetch, m, ts)
    ensures StatementAt(ts).Ok?
    ensures Statement(b, fetch, m).Ok?
    ensures Statement(b, fetch, m).value.0 == StatementAt(ts).value.0
    ensures StatementAt(ts).value.1 <= FirstEof(ts)
    ensures Feeds(Statement(b, fetch, m).value.1, fetch, ts[StatementAt(ts).value.1..])
  {
    FoundValue(b, b1, fetch, m, ts);
    FoundFeeds(b, b1, fetch, m, ts);
  }

  /** `FoundJoin`: the statement built and where it ends. */
  lemma FoundValue<L(!new)>(b: Buffered<L>, b1: Buffered<L>, fetch: Pull<L>, m: L -> nat, ts: seq<Token>)
    requires Shrinks(fetch, m) && Reaches(ts) && |ts| >= 2
    requires ts[0].kind == StatementStart || ts[0].kind == LineStatementPrefix
    requires CommandAt(ts[CommandStart(ts)..], ts[0].kind == StatementStart).Ok?
    requires StartAgrees(b, b1, fetch, m, ts)
    ensures StatementAt(ts).Ok?
    ensures Statement(b, fetch, m).Ok?
    ensures Statement(b, fetch, m).value.0 == StatementAt(ts).value.0
    ensures StatementAt(ts).value.1 <= FirstEof(ts)
  {
    StatementAtSplit(ts);
    CommandRefAt(b1, fetch, m, ts[0].kind == StatementStart, ts, CommandStart(ts));
  }

  /** `FoundJoin`: the tokens left to the buffer after the statement. */
  lemma FoundFeeds<L(!new)>(b: Buffered<L>, b1: Buffered<L>, fetch: Pull<L>, m: L -> nat, ts: seq<Token>)
    requires Shrinks(fetch, m) && Reaches(ts) && |ts| >= 2
    requires ts[0].kind == StatementStart || ts[0].kind == LineStatementPrefix
    requires CommandAt(ts[CommandStart(ts)..], ts[0].kind == StatementStart).Ok?
    requires StartAgrees(b, b1, fetch, m, ts)
    ensures StatementAt(ts).Ok? && Statement(b, fetch, m).Ok?
    ensures Feeds(Statement(b, fetch, m).value.1, fetch, ts[StatementAt(ts).value.1..])
  {
    StatementAtSplit(ts);
    var p := CommandStart(ts);
    var isBlock := ts[0].kind == StatementStart;
    CommandRefAt(b1, fetch, m, isBlock, ts, p);
    var n := CommandAt(ts[p..], isBlock).value.3;
    assert Statement(b, fetch, m).value.1 == Command(b1, fetch, m, isBlock).value.3;
    FeedsAt(Command(b1, fetch, m, isBlock).value.3, Statement(b, fetch, m).value.1, fetch, ts, p + n, StatementAt(ts).value.1);
  }

  /** `Feeds` under equal arguments. */
  lemma FeedsAt<L>(b: Buffered<L>, b': Buffered<L>, fetch: Pull<L>, ts: seq<Token>, i: nat, j: nat)
    requires i <= |ts| && Feeds(b, fetch, ts[i..]) && b' == b && j == i
    ensures Feeds(b', fetch, ts[j..])
  {
  }

  /** A statement whose command is missing or unterminated. */
  lemma StatementRefMissing<L(!new)>(b: Buffered<L>, fetch: Pull<L>, m: L -> nat, ts: seq<Token>)
    requires Shrinks(fetch, m) && Feeds(b, fetch, ts) && Reaches(ts)
    requires ts[0].kind == StatementStart || ts[0].kind == LineStatementPrefix
    requires CommandAt(ts[CommandStart(ts)..], ts[0].kind == StatementStart).Err?
    ensures StatementAt(ts).Err?
    ensures Statement(b, fetch, m) == Err(StatementAt(ts).error)
  {
    var p := CommandStart(ts);
    var b1 := StatementRefStart(b, fetch, m, ts);
    StatementAtSplit(ts);
    ReachesDrop(ts, p);
    CommandRef(b1, fetch, m, ts[0].kind == StatementStart, ts[p..]);
  }

  /** `statement()` builds the reference statement and consumes exactly the
      tokens it spans, none of them the end of input. */
  lemma StatementRef<L(!new)>(b: Buffered<L>, fetch: Pull<L>, m: L -> nat, ts: seq<Token>)
    requires Shrinks(fetch, m) && Feeds(b, fetch, ts) && Reaches(ts)
    ensures StatementAt(ts).Err? ==> Statement(b, fetch, m) == Err(StatementAt(ts).error)
    ensures StatementAt(ts).Ok? ==>
      && Statement(b, fetch, m).Ok?
      && Statement(b, fetch, m).value.0 == StatementAt(ts).value.0
      && StatementAt(ts).value.1 <= FirstEof(ts)
      && Feeds(Statement(b, fetch, m).value.1, fetch, ts[StatementAt(ts).value.1..])
  {
    if ts[0].kind == StatementStart || ts[0].kind == LineStatementPrefix {
      if CommandAt(ts[CommandStart(ts)..], ts[0].kind == StatementStart).Ok? {
        StatementRefFound(b, fetch, m, ts);
      } else {
        StatementRefMissing(b, fetch, m, ts);
      }
    } else {
      FeedsNext(b, fetch, ts);
      assert Tok(ts, 0) == ts[0];
      assert StatementAt(ts) == Err(UnexpectedToken(ts[0]));
    }
  }

  /** What the inline loop computes from a window of upcoming tokens
      holding an inline end or the end of input. */
  ghost predicate InlineAgrees<L(!new)>(b: Buffered<L>, fetch: Pull<L>, m: L -> nat, ts: seq<Token>)
    requires Shrinks(fetch, m) && EndOf(ts, InlineEnd) < |ts|
  {
    var e := EndOf(ts, InlineEnd);
    var r := InlineBody(b, fetch, m);
    if ts[e].kind == Eof then r == Err(Unterminated)
    else r.Ok? && r.value.0 == ts[..e] && Feeds(r.value.1, fetch, ts[e + 1..])
  }

  lemma SliceCons(ts: seq<Token>, e: nat)
    requires 1 <= e < |ts|
    ensures ts[..e] == [ts[0]] + ts[1..][..e - 1]
    ensures ts[e + 1..] == ts[1..][e - 1 + 1..]
  {
  }

  /** The inline loop collects the tokens before the first inline end. */
  lemma {:induction false} InlineBodyRef<L(!new)>(b: Buffered<L>, fetch: Pull<L>, m: L -> nat, ts: seq<Token>)
    requires Shrinks(fetch, m) && Feeds(b, fetch, ts)
    requires EndOf(ts, InlineEnd) < |ts|
    ensures InlineAgrees(b, fetch, m, ts)
    decreases |ts|, 1
  {
    FeedsNext(b, fetch, ts);
    var s := NextToken(b, fetch).value;
    if ts[0].kind == InlineEnd {
      assert InlineBody(b, fetch, m) == Ok(([], s.b));
      assert ts[..0] == [];
    } else if ts[0].kind == Eof {
      assert InlineBody(b, fetch, m) == Err(Unterminated);
    } else {
      InlineBodyStep(b, fetch, m, ts);
    }
  }

  /** Any token but an end is collected. */
  lemma {:induction false} InlineBodyStep<L(!new)>(b: Buffered<L>, fetch: Pull<L>, m: L -> nat, ts: seq<Token>)
    requires Shrinks(fetch, m) && Feeds(b, fetch, ts)
    requires EndOf(ts, InlineEnd) < |ts|
    requires ts[0].kind != InlineEnd && ts[0].kind != Eof
    ensures InlineAgrees(b, fetch, m, ts)
    decreases |ts|, 0
  {
    FeedsNext(b, fetch, ts);
    var s := NextToken(b, fetch).value;
    var e := EndOf(ts, InlineEnd);
    var tail := ts[1..];
    assert EndOf(tail, InlineEnd) == e - 1;
    assert tail[e - 1] == ts[e];
    InlineBodyRef(s.b, fetch, m, tail);
    var r1 := InlineBody(s.b, fetch, m);
    if ts[e].kind == Eof {
      assert r1 == Err(Unterminated);
      assert InlineBody(b, fetch, m) == Err(Unterminated);
    } else {
      assert r1.Ok?;
      assert InlineBody(b, fetch, m) == Ok(([ts[0]] + r1.value.0, r1.value.1));
      SliceCons(ts, e);
    }
  }

  lemma SliceTail(ts: seq<Token>, e: nat)
    requires 1 <= e < |ts|
    ensures ts[1..][..e - 1] == ts[1..e]
    ensures ts[1..][e - 1 + 1..] == ts[e + 1..]
    ensures |ts[1..]| - (e - 1) - 1 == |ts| - (e + 1)
  {
  }

  /** Where the reference finds the end of a terminated element. */
  lemma EndFound(ts: seq<Token>, k: Kind)
    requires Reaches(ts) && ts[0].kind != Eof && Tok(ts, 1 + EndOf(ts[1..], k)).kind != Eof
    ensures var e := 1 + EndOf(ts[1..], k);
      e < |ts| && ts[e].kind == k && e + 1 <= FirstEof(ts)
  {
    FirstEofDrop(ts, 1);
    EndOfBeforeEof(ts[1..], k);
  }

  lemma InlineAtFound(ts: seq<Token>)
    requires Reaches(ts) && ts[0].kind == InlineStart
    requires Tok(ts, 1 + EndOf(ts[1..], InlineEnd)).kind != Eof
    ensures var e := 1 + EndOf(ts[1..], InlineEnd);
      e < |ts| && e + 1 <= FirstEof(ts) && InlineAt(ts) == Ok((TemplateInline(ts[1..e]), e + 1))
  {
    EndFound(ts, InlineEnd);
  }

  /** An inline start followed by a terminated body. */
  lemma InlineRefOk<L(!new)>(b: Buffered<L>, fetch: Pull<L>, m: L -> nat, ts: seq<Token>)
    requires Shrinks(fetch, m) && Feeds(b, fetch, ts) && Reaches(ts)
    requires ts[0].kind == InlineStart
    requires Tok(ts, 1 + EndOf(ts[1..], InlineEnd)).kind != Eof
    ensures var e := 1 + EndOf(ts[1..], InlineEnd);
      var r := Inline(b, fetch, m);
      && e + 1 <= FirstEof(ts)
      && r.Ok? && InlineAt(ts) == Ok((r.value.0, e + 1))
      && Feeds(r.value.1, fetch, ts[e + 1..])
  {
    InlineAtFound(ts);
    var e := 1 + EndOf(ts[1..], InlineEnd);
    FeedsNext(b, fetch, ts);
    var s0 := NextToken(b, fetch).value;
    InlineBodyRef(s0.b, fetch, m, ts[1..]);
    SliceTail(ts, e);
    var r := InlineBody(s0.b, fetch, m);
    assert r.Ok? && r.value.0 == ts[1..e];
    assert Inline(b, fetch, m) == Ok((TemplateInline(r.value.0), r.value.1));
  }

  /** An inline start whose body reaches the end of input. */
  lemma InlineRefUnterminated<L(!new)>(b: Buffered<L>, fetch: Pull<L>, m: L -> nat, ts: seq<Token>)
    requires Shrinks(fetch, m) && Feeds(b, fetch, ts) && Reaches(ts)
    requires ts[0].kind == InlineStart
    requires Tok(ts, 1 + EndOf(ts[1..], InlineEnd)).kind == Eof
    ensures InlineAt(ts) == Err(Unterminated)
    ensures Inline(b, fetch, m) == Err(Unterminated)
  {
    FeedsNext(b, fetch, ts);
    var s0 := NextToken(b, fetch).value;
    var rest := ts[1..];
    FirstEofDrop(ts, 1);
    EndOfBeforeEof(rest, InlineEnd);
    InlineBodyRef(s0.b, fetch, m, rest);
    var e := 1 + EndOf(rest, InlineEnd);
    assert Tok(ts, e) == rest[e - 1];
  }

  /** `inline()` builds the reference inline element and consumes exactly
      the tokens it spans. */
  lemma InlineRef<L(!new)>(b: Buffered<L>, fetch: Pull<L>, m: L -> nat, ts: seq<Token>)
    requires Shrinks(fetch, m) && Feeds(b, fetch, ts) && Reaches(ts)
    ensures InlineAt(ts).Err? ==> Inline(b, fetch, m) == Err(InlineAt(ts).error)
    ensures InlineAt(ts).Ok? ==>
      && Inline(b, fetch, m).Ok?
      && Inline(b, fetch, m).value.0 == InlineAt(ts).value.0
      && InlineAt(ts).value.1 <= FirstEof(ts)
      && Feeds(Inline(b, fetch, m).value.1, fetch, ts[InlineAt(ts).value.1..])
  {
    assert Tok(ts, 0) == ts[0];
    if ts[0].kind != InlineStart {
      FeedsNext(b, fetch, ts);
      assert InlineAt(ts) == Err(UnexpectedToken(ts[0]));
    } else if Tok(ts, 1 + EndOf(ts[1..], InlineEnd)).kind == Eof {
      InlineRefUnterminated(b, fetch, m, ts);
    } else {
      InlineRefOk(b, fetch, m, ts);
    }
  }

  /** An element in front of the rest of a document, or the error. */
  function Prepend(e: Element, r: Result<seq<Element>, Error>): (d: Result<seq<Element>, Error>)
    ensures d.Ok? <==> r.Ok?
    ensures d.Ok? ==> |d.value| == |r.value| + 1 && d.value[0] == e && d.value[1..] == r.value
  {
    match r
    case Ok(rest) => Ok([e] + rest)
    case Err(err) => Err(err)
  }

  /** One turn of the document loop builds the reference element and
      consumes exactly the tokens it spans. */
  lemma ElementRef<L(!new)>(b: Buffered<L>, fetch: Pull<L>, m: L -> nat, ts: seq<Token>)
    requires Shrinks(fetch, m) && Feeds(b, fetch, ts) && Reaches(ts)
    requires |b.pending| >= 1 && b.pending[0] == ts[0]
    ensures ElementAt(ts).Err? ==> NextElement(b, fetch, m, ts[0]) == Err(ElementAt(ts).error)
    ensures ElementAt(ts).Ok? ==>
      && NextElement(b, fetch, m, ts[0]).Ok?
      && NextElement(b, fetch, m, ts[0]).value.0 == ElementAt(ts).value.0
      && ElementAt(ts).value.1 <= FirstEof(ts)
      && Feeds(NextElement(b, fetch, m, ts[0]).value.1, fetch, ts[ElementAt(ts).value.1..])
  {
    assert Tok(ts, 0) == ts[0];
    var k := ts[0].kind;
    if k == TemplateData {
      FeedsNext(b, fetch, ts);
    } else if k == StatementStart || k == LineStatementPrefix {
      StatementRef(b, fetch, m, ts);
    } else if k == InlineStart {
      InlineRef(b, fetch, m, ts);
    }
  }

  /** One turn of the document loop on both sides. */
  lemma DocumentStep<L(!new)>(b: Buffered<L>, fetch: Pull<L>, m: L -> nat, ts: seq<Token>)
    requires Shrinks(fetch, m) && Feeds(b, fetch, ts) && Reaches(ts) && ts[0].kind != Eof
    ensures LaToken(b, fetch, 1).Ok?
    ensures |LaToken(b, fetch, 1).value.b.pending| >= 1 && LaToken(b, fetch, 1).value.b.pending[0] == ts[0]
    ensures var el := NextElement(LaToken(b, fetch, 1).value.b, fetch, m, ts[0]);
      && (ElementAt(ts).Err? ==> Document(b, fetch, m) == Group(ts) == Err(ElementAt(ts).error))
      && (ElementAt(ts).Ok? ==>
            var (e, n) := ElementAt(ts).value;
            && el.Ok? && n <= FirstEof(ts)
            && Feeds(el.value.1, fetch, ts[n..])
            && Weight(el.value.1, m) < Weight(b, m)
            && Document(b, fetch, m) == Prepend(e, Document(el.value.1, fetch, m))
            && Group(ts) == Prepend(e, Group(ts[n..])))
  {
    FeedsLa(b, fetch, ts);
    var la := LaToken(b, fetch, 1).value;
    LaShrinks(b, fetch, m);
    ElementRef(la.b, fetch, m, ts);
    assert Tok(ts, 0) == ts[0];
  }

  /** `document()` builds exactly the reference grouping of any window of
      upcoming tokens that reaches the end of input. */
  lemma {:induction false} DocumentRef<L(!new)>(b: Buffered<L>, fetch: Pull<L>, m: L -> nat, ts: seq<Token>)
    requires Shrinks(fetch, m) && Feeds(b, fetch, ts) && Reaches(ts)
    ensures Document(b, fetch, m) == Group(ts)
    decreases |ts|
  {
    if ts[0].kind == Eof {
      FeedsLa(b, fetch, ts);
      assert Tok(ts, 0) == ts[0];
    } else {
      DocumentStep(b, fetch, m, ts);
      if ElementAt(ts).Ok? {
        var n := ElementAt(ts).value.1;
        ReachesDrop(ts, n);
        DocumentRef(NextElement(LaToken(b, fetch, 1).value.b, fetch, m, ts[0]).value.1, fetch, m, ts[n..]);
      }
    }
  }

  lemma OpenWeight(text: string)
    ensures Weight(Open(EntryConfig, text), RawMeasure) == 4 * |text|
  {
    InitWf(EntryConfig, text);
  }

  lemma FetchKeepsWf()
    ensures forall l: Lexer | Wf(l) && Fetch(l).Ok? ::
      && Wf(Fetch(l).value.1)
      && (Fetch(l).value.0.kind == Eof ==> Fetch(l).value.0 == Plain(Eof, ""))
  {
    forall l: Lexer | Wf(l) && Fetch(l).Ok?
      ensures Wf(Fetch(l).value.1)
      ensures Fetch(l).value.0.kind == Eof ==> Fetch(l).value.0 == Plain(Eof, "")
    {
      FetchWf(l);
    }
  }

  /** A window longer than the weight of the stream reaches the end of
      input, and that end of input is the plain token when the pull keeps an
      invariant under which it hands out no other. */
  lemma WindowReaches<L(!new)>(b: Buffered<L>, fetch: Pull<L>, m: L -> nat, ts: seq<Token>, inv: L -> bool)
    requires Shrinks(fetch, m) && Feeds(b, fetch, ts) && |ts| > Weight(b, m)
    requires forall l | inv(l) && fetch(l).Ok? ::
      inv(fetch(l).value.1) && (fetch(l).value.0.kind == Eof ==> fetch(l).value.0 == Plain(Eof, ""))
    requires inv(b.raw) && b.pending == []
    ensures Reaches(ts)
  {
    assert Upcoming(b, fetch, |ts|) == Ok(ts);
    EofWithin(b, fetch, m, |ts|);
    UpcomingSupplied(b, fetch, |ts|, inv, (t: Token) => t.kind == Eof ==> t == Plain(Eof, ""));
  }

  /** Every token but the end of input consumes input, so the first
      `4 * |text| + 1` filtered tokens of a text reach the plain end of
      input. */
  lemma EntryWindow(text: string, ts: seq<Token>)
    requires Feeds(Open(EntryConfig, text), Fetch, ts) && |ts| == 4 * |text| + 1
    ensures Reaches(ts)
  {
    FetchShrinks();
    OpenWeight(text);
    FetchKeepsWf();
    InitWf(EntryConfig, text);
    WindowReaches(Open(EntryConfig, text), Fetch, RawMeasure, ts, (l: Lexer) => Wf(l));
  }

  /** `statement_parse` is the reference grouping of the first
      `4 * |text| + 1` filtered tokens of its text. */
  lemma StatementParseGroups(text: string, ts: seq<Token>)
    requires Feeds(Open(EntryConfig, text), Fetch, ts) && |ts| == 4 * |text| + 1
    ensures StatementParse(text) == Group(ts)
  {
    EntryWindow(text, ts);
    FetchShrinks();
    DocumentRef(Open(EntryConfig, text), Fetch, RawMeasure, ts);
  }
}
