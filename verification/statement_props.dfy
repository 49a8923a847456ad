/** Properties of `_do_statement` (fserve/jinja_parse.py:239-320): the
    terminator test, the one- and two-character tokens, whitespace and name
    runs, and the syntax error for characters outside the lexicon. The
    cursor starts with no live text buffer, as after every token. */
module StatementProps {
  import opened Results
  import opened Tokens
  import opened Chars
  import opened Cursors
  import opened Lexer

  /** The terminator test as written: the first character of `term` is
      compared with the character just read, and every later one with the
      single next character, since every depth of `_la` answers with it. */
  predicate EndsAt(term: string, s: string) {
    && |term| > 0 && |s| > 0 && s[0] == term[0]
    && forall j | 1 <= j < |term| :: Char(term[j]) == Head(s[1..])
  }

  /** How many characters a recognised terminator consumes: the one read,
      plus the one `_clear_la` drops when anything was peeked. */
  function TermWidth(term: string): nat {
    if |term| == 1 then 1 else 2
  }

  /** For the two-character terminators of `statement_parse` the test is
      exactly a prefix test. */
  lemma EndsAtPair(term: string, s: string)
    requires |term| == 2
    ensures EndsAt(term, s) <==> |s| >= 2 && s[..2] == term
  {
    if |s| >= 2 && s[..2] == term {
      assert s[0] == term[0] && s[1] == term[1];
    }
    if EndsAt(term, s) {
      assert Head(s[1..]) == Char(term[1]);
      assert s[..2] == [s[0], s[1]];
    }
  }

  /** `ch` is the character `_do_statement` just read and the terminator
      did not match: the cursor has moved past `ch` (peeking at most one
      character) and the lexicon decides. */
  lemma NotEnded(ign: set<Kind>, c: Cursor, term: string, endKind: Kind) returns (c2: Cursor)
    requires endKind == StatementEnd || endKind == InlineEnd
    requires Valid(c) && |Rest(c)| > 0 && !EndsAt(term, Rest(c))
    ensures Valid(c2) && Rest(c2) == Rest(c)[1..] && c2.buf == Next(c).1.buf
    ensures LexStatement(ign, c, term, endKind) == Classify(ign, c2, Rest(c)[0])
  {
    var (x, c1) := Next(c);
    c2 := c1;
    if |term| > 0 && Rest(c)[0] == term[0] {
      MatchFromAll(c1, term, 1);
      c2 := MatchFrom(c1, term, 1).1;
    }
  }

  /** A matching terminator ends the statement with an empty-text token of
      the end kind and consumes `TermWidth(term)` characters. */
  lemma Ended(ign: set<Kind>, c: Cursor, term: string, endKind: Kind)
    requires endKind == StatementEnd || endKind == InlineEnd
    requires Valid(c) && !Truthy(c.buf) && EndsAt(term, Rest(c))
    ensures var r := LexStatement(ign, c, term, endKind);
      && TermWidth(term) <= |Rest(c)|
      && r.Ok? && r.value.tok == Plain(endKind, "")
      && Rest(r.value.cur) == Rest(c)[TermWidth(term)..]
  {
    var c3 := TermCursor(c, term);
    assert Rest(c)[0] == term[0];
  }

  /** The cursor after a matching terminator: the peeked character is
      consumed with it, and the empty buffer yields no text. */
  lemma TermCursor(c: Cursor, term: string) returns (c3: Cursor)
    requires Valid(c) && !Truthy(c.buf) && EndsAt(term, Rest(c))
    ensures var m := MatchFrom(Next(c).1, term, 1);
      && m.0 && ClearBuf(ClearLa(m.1)) == ("", c3)
      && TermWidth(term) <= |Rest(c)| && Valid(c3) && Rest(c3) == Rest(c)[TermWidth(term)..]
  {
    var (x, c1) := Next(c);
    MatchFromAll(c1, term, 1);
    var c2 := MatchFrom(c1, term, 1).1;
    c3 := ClearBuf(ClearLa(c2)).1;
    if |term| > 1 {
      assert Head(Rest(c1)) == Char(term[1]);
      assert Dropped(c2) == 1;
      assert Rest(c)[1..][1..] == Rest(c)[2..];
    }
  }

  /** The end token is produced exactly when the terminator test matches:
      the lexicon never produces an end kind. */
  lemma EndIff(ign: set<Kind>, c: Cursor, term: string, endKind: Kind)
    requires endKind == StatementEnd || endKind == InlineEnd
    requires Valid(c) && !Truthy(c.buf)
    ensures var r := LexStatement(ign, c, term, endKind);
      r.Ok? && r.value.tok.kind == endKind <==> EndsAt(term, Rest(c))
  {
    if EndsAt(term, Rest(c)) {
      Ended(ign, c, term, endKind);
    } else if |Rest(c)| > 0 {
      LexiconNotEnd(ign, c, term, endKind);
    } else {
      InputEnd(ign, c, term, endKind);
    }
  }

  /** Without a terminator match the token comes from the lexicon, which
      has no end kinds. */
  lemma LexiconNotEnd(ign: set<Kind>, c: Cursor, term: string, endKind: Kind)
    requires endKind == StatementEnd || endKind == InlineEnd
    requires Valid(c) && |Rest(c)| > 0 && !EndsAt(term, Rest(c))
    ensures var r := LexStatement(ign, c, term, endKind);
      r.Ok? ==> r.value.tok.kind != endKind
  {
    var c2 := NotEnded(ign, c, term, endKind);
    var r := Classify(ign, c2, Rest(c)[0]);
    assert r.Ok? ==> LexiconKind(r.value.tok.kind);
  }

  /** At the end of the input a statement yields the end-of-input token. */
  lemma InputEnd(ign: set<Kind>, c: Cursor, term: string, endKind: Kind)
    requires endKind == StatementEnd || endKind == InlineEnd
    requires Valid(c) && |Rest(c)| == 0
    ensures LexStatement(ign, c, term, endKind) == Ok(Lexed(Plain(Eof, ""), Next(c).1))
  {
    assert Head(Rest(c)) == End;
  }

  /** A punctuation character is a token of its own kind. */
  lemma PunctuationToken(ign: set<Kind>, c: Cursor, term: string, endKind: Kind)
    requires endKind == StatementEnd || endKind == InlineEnd
    requires Valid(c) && |Rest(c)| > 0 && !EndsAt(term, Rest(c)) && Punctuation(Rest(c)[0]).Some?
    ensures var r := LexStatement(ign, c, term, endKind);
      && r.Ok? && r.value.tok == Plain(Punctuation(Rest(c)[0]).value, [Rest(c)[0]])
      && Rest(r.value.cur) == Rest(c)[1..]
  {
    var c2 := NotEnded(ign, c, term, endKind);
  }

  /** The two-character operators: `**`, `//`, `<=`, `>=` and `==`. */
  function PairKind(x: char, y: char): Option<Kind> {
    if (x == '*' || x == '/') && y == x then Some(MathOpOrStarArgs)
    else if (x == '<' || x == '>' || x == '=') && y == '=' then Some(CompareOp)
    else None
  }

  /** The one-character operators. */
  function SingleKind(x: char): Kind {
    if x == '.' then Dot else if x == '=' then Eq else MathOpOrStarArgs
  }

  /** The operator branch once its character `x` is read, when the
      character after it is `y`. */
  lemma OperatorPair(ign: set<Kind>, c: Cursor, x: char)
    requires OperatorChar(x) && Valid(c) && |Rest(c)| > 0
    ensures var y := Rest(c)[0];
      var r := Operator(ign, c, x);
      PairKind(x, y).Some? ==>
        && r.Ok? && r.value.tok == Plain(PairKind(x, y).value, [x, y])
        && Rest(r.value.cur) == Rest(c)[1..]
  {
  }

  lemma OperatorSingle(ign: set<Kind>, c: Cursor, x: char)
    requires OperatorChar(x) && Valid(c)
    requires |Rest(c)| > 0 ==> PairKind(x, Rest(c)[0]).None?
    requires (x == '.' || x == '+' || x == '-') ==> !IsDecimal(Head(Rest(c)))
    ensures var r := Operator(ign, c, x);
      r.Ok? && r.value.tok == Plain(SingleKind(x), [x]) && Rest(r.value.cur) == Rest(c)
  {
  }

  /** A sign directly followed by a digit. */
  lemma OperatorSign(ign: set<Kind>, c: Cursor, x: char)
    requires (x == '+' || x == '-') && Valid(c) && |Rest(c)| > 0 && IsDecChar(Rest(c)[0])
    ensures Operator(ign, c, x) == Err(SignedNumberNameError)
  {
  }

  /** The lexicon dispatch on the character just read. */
  lemma ClassifyOperator(ign: set<Kind>, c: Cursor, x: char)
    requires OperatorChar(x)
    ensures Classify(ign, c, x) == Operator(ign, c, x)
  {
    assert Punctuation(x).None?;
  }

  lemma ClassifyName(ign: set<Kind>, c: Cursor, x: char)
    requires IsAlpha(Char(x))
    ensures Classify(ign, c, x) == Ok(Run(ign, c, x, NameOrKeyword, NameChar))
  {
    ClassesDisjoint(Char(x));
    assert Punctuation(x).None? && !OperatorChar(x) && x != '"' && x != '\'' && !IsDecimal(Char(x)) && !IsWs(Char(x));
    assert Classify(ign, c, x) == Word(ign, c, x);
  }

  lemma ClassifyWs(ign: set<Kind>, c: Cursor, x: char)
    requires IsWs(Char(x))
    ensures Classify(ign, c, x) == Ok(Run(ign, c, x, Ws, WsChar))
  {
    ClassesDisjoint(Char(x));
    assert Punctuation(x).None? && !OperatorChar(x) && x != '"' && x != '\'' && !IsDecimal(Char(x));
    assert Classify(ign, c, x) == Word(ign, c, x);
  }

  /** An operator character followed by the second character of a pair is
      the two-character token. */
  lemma PairToken(ign: set<Kind>, c: Cursor, term: string, endKind: Kind)
    requires endKind == StatementEnd || endKind == InlineEnd
    requires Valid(c) && |Rest(c)| >= 2 && !EndsAt(term, Rest(c))
    requires PairKind(Rest(c)[0], Rest(c)[1]).Some?
    ensures var r := LexStatement(ign, c, term, endKind);
      && r.Ok? && r.value.tok == Plain(PairKind(Rest(c)[0], Rest(c)[1]).value, Rest(c)[..2])
      && Rest(r.value.cur) == Rest(c)[2..]
  {
    TwoHeads(Rest(c));
    var c2 := NotEnded(ign, c, term, endKind);
    ClassifyOperator(ign, c2, Rest(c)[0]);
    OperatorPair(ign, c2, Rest(c)[0]);
  }

  /** The first two characters of `s` and what follows them. */
  lemma TwoHeads(s: string)
    requires |s| >= 2
    ensures s[1..][0] == s[1] && s[1..][1..] == s[2..] && s[..2] == [s[0], s[1]]
  {
  }

  /** An operator character not starting a pair, and for `.`, `+`, `-` not
      followed by a digit, is a one-character token. */
  lemma SingleToken(ign: set<Kind>, c: Cursor, term: string, endKind: Kind)
    requires endKind == StatementEnd || endKind == InlineEnd
    requires Valid(c) && |Rest(c)| > 0 && !EndsAt(term, Rest(c)) && OperatorChar(Rest(c)[0])
    requires |Rest(c)| > 1 ==> PairKind(Rest(c)[0], Rest(c)[1]).None?
    requires (Rest(c)[0] == '.' || Rest(c)[0] == '+' || Rest(c)[0] == '-') ==> !IsDecimal(Head(Rest(c)[1..]))
    ensures var r := LexStatement(ign, c, term, endKind);
      && r.Ok? && r.value.tok == Plain(SingleKind(Rest(c)[0]), [Rest(c)[0]])
      && Rest(r.value.cur) == Rest(c)[1..]
  {
    var c2 := NotEnded(ign, c, term, endKind);
    ClassifyOperator(ign, c2, Rest(c)[0]);
    OperatorSingle(ign, c2, Rest(c)[0]);
  }

  /** A sign directly followed by a digit raises: the number lexer is
      called without its object. */
  lemma SignedNumber(ign: set<Kind>, c: Cursor, term: string, endKind: Kind)
    requires endKind == StatementEnd || endKind == InlineEnd
    requires Valid(c) && |Rest(c)| >= 2 && !EndsAt(term, Rest(c))
    requires Rest(c)[0] in "+-" && IsDecChar(Rest(c)[1])
    ensures LexStatement(ign, c, term, endKind) == Err(SignedNumberNameError)
  {
    var c2 := NotEnded(ign, c, term, endKind);
    ClassifyOperator(ign, c2, Rest(c)[0]);
    OperatorSign(ign, c2, Rest(c)[0]);
  }

  /** A run: `x` and the longest following stretch satisfying `p`, whose
      text is kept only when the kind is not ignored. */
  lemma RunSpan(ign: set<Kind>, c: Cursor, x: char, kind: Kind, p: char -> bool)
    requires Valid(c) && !Truthy(c.buf)
    ensures var n := Span(Rest(c), p);
      var r := Run(ign, c, x, kind, p);
      && r.tok == Plain(kind, if kind in ign then "" else [x] + Rest(c)[..n])
      && Rest(r.cur) == Rest(c)[n..]
  {
    var c1 := RunCursor(ign, c, x, kind, p);
  }

  /** The cursor after a run: past the span, with the span recorded after
      `x` when the kind is kept. */
  lemma RunCursor(ign: set<Kind>, c: Cursor, x: char, kind: Kind, p: char -> bool) returns (c1: Cursor)
    requires Valid(c) && !Truthy(c.buf)
    ensures var n := Span(Rest(c), p);
      && c1 == SkipWhile(StartBuf(c, kind !in ign, Some(x)), p)
      && Valid(c1) && Rest(c1) == Rest(c)[n..] && Rest(c1.(buf := None)) == Rest(c1)
      && BufOf(c1.buf) == if kind in ign then "" else [x] + Rest(c)[..n]
  {
    var c0 := StartBuf(c, kind !in ign, Some(x));
    assert Rest(c0) == Rest(c);
    SkipWhileSpan(c0, p);
    c1 := SkipWhile(c0, p);
  }

  /** The text `_clear_buf` hands out. */
  function BufOf(b: Option<string>): string {
    if Truthy(b) then b.value else ""
  }

  /** Characters outside the lexicon are a syntax error. */
  predicate Unlexable(x: char) {
    && Punctuation(x).None? && !OperatorChar(x) && x != '"' && x != '\''
    && !IsDecimal(Char(x)) && !IsWs(Char(x)) && !IsAlpha(Char(x))
  }

  lemma SyntaxError(ign: set<Kind>, c: Cursor, term: string, endKind: Kind)
    requires endKind == StatementEnd || endKind == InlineEnd
    requires Valid(c) && |Rest(c)| > 0 && !EndsAt(term, Rest(c)) && Unlexable(Rest(c)[0])
    ensures LexStatement(ign, c, term, endKind) == Err(InvalidSyntax(Rest(c)[0]))
  {
    var c2 := NotEnded(ign, c, term, endKind);
  }

  /** A name: a letter or `_`, then letters, digits and `_`. */
  lemma NameToken(ign: set<Kind>, c: Cursor, term: string, endKind: Kind)
    requires endKind == StatementEnd || endKind == InlineEnd
    requires Valid(c) && !Truthy(c.buf) && |Rest(c)| > 0 && !EndsAt(term, Rest(c)) && IsAlpha(Char(Rest(c)[0]))
    ensures var s := Rest(c);
      var n := 1 + Span(s[1..], NameChar);
      var r := LexStatement(ign, c, term, endKind);
      && n <= |s| && r.Ok?
      && r.value.tok == Plain(NameOrKeyword, if NameOrKeyword in ign then "" else s[..n])
      && Rest(r.value.cur) == s[n..]
  {
    var s := Rest(c);
    var c2 := NotEnded(ign, c, term, endKind);
    ClassifyName(ign, c2, s[0]);
    RunSpan(ign, c2, s[0], NameOrKeyword, NameChar);
    RunParts(s, NameChar);
  }

  /** A whitespace run. */
  lemma WsToken(ign: set<Kind>, c: Cursor, term: string, endKind: Kind)
    requires endKind == StatementEnd || endKind == InlineEnd
    requires Valid(c) && !Truthy(c.buf) && |Rest(c)| > 0 && !EndsAt(term, Rest(c)) && IsWs(Char(Rest(c)[0]))
    ensures var s := Rest(c);
      var n := 1 + Span(s[1..], WsChar);
      var r := LexStatement(ign, c, term, endKind);
      && n <= |s| && r.Ok?
      && r.value.tok == Plain(Ws, if Ws in ign then "" else s[..n])
      && Rest(r.value.cur) == s[n..]
  {
    var s := Rest(c);
    var c2 := NotEnded(ign, c, term, endKind);
    ClassifyWs(ign, c2, s[0]);
    RunSpan(ign, c2, s[0], Ws, WsChar);
    RunParts(s, WsChar);
  }

  /** The head of `s` and a span of its tail make up a prefix of `s`. */
  lemma RunParts(s: string, p: char -> bool)
    requires |s| > 0
    ensures var n := Span(s[1..], p);
      [s[0]] + s[1..][..n] == s[..1 + n] && s[1..][n..] == s[1 + n..]
  {
  }
}
