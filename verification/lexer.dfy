/** The raw token production of `JinjaStatementLexer` (fserve/jinja_parse.py:147-514):
    the integer-coded state machine of `_next_token` and its sub-lexers for
    statements, comments, strings and numbers. Line statements and line
    comments (states 3 and 4) are not part of this model. */
module Lexer {
  import opened Results
  import opened Tokens
  import opened Chars
  import opened Cursors

  /** The delimiters and the ignore set the lexer is constructed with. */
  datatype Config = Config(
    blockStart: string, blockEnd: string,
    inlineStart: string, inlineEnd: string,
    commentStart: string, commentEnd: string,
    ignore: set<Kind>)

  /** The lexical states 0 (text), 1 (block), 2 (block comment), 5 (inline)
      and 6 (one-token replay, carrying `buf_tok` and `buf_state`). */
  datatype State =
    | TextState
    | BlockState
    | CommentState
    | InlineState
    | Replay(held: Token, resume: State)

  /** The raw lexer: configuration, character cursor and lexical state. */
  datatype Lexer = Lexer(cfg: Config, cur: Cursor, state: State)

  /** A token and the cursor after it. */
  datatype Lexed = Lexed(tok: Token, cur: Cursor)

  /** A token and the lexer after it. */
  datatype Step = Step(tok: Token, lx: Lexer)

  /** A start delimiter, the token kind it produces and the state it enters. */
  datatype Opener = Opener(delim: string, kind: Kind, next: State)

  function Init(cfg: Config, text: string): Lexer {
    Lexer(cfg, Start(text), TextState)
  }

  /** The start delimiters in the order state 0 tries them. */
  function Openers(cfg: Config): seq<Opener> {
    [Opener(cfg.blockStart, StatementStart, BlockState),
     Opener(cfg.inlineStart, InlineStart, InlineState),
     Opener(cfg.commentStart, CommentStart, CommentState)]
  }

  /** How many replays are stacked in a state (at most one is ever reached). */
  function ReplayDepth(st: State): nat {
    if st.Replay? then 1 + ReplayDepth(st.resume) else 0
  }

  /** Decreases with every raw token except the end-of-input token. */
  function RawMeasure(lx: Lexer): nat {
    2 * Left(lx.cur) + ReplayDepth(lx.state)
  }

  predicate IsDecChar(ch: char) {
    '0' <= ch <= '9'
  }

  predicate WsChar(ch: char) {
    IsWs(Char(ch))
  }

  predicate NameChar(ch: char) {
    IsAlphanum(Char(ch))
  }

  /** The length of the longest prefix of `s` whose characters satisfy `p`. */
  function Span(s: string, p: char -> bool): (n: nat)
    ensures n <= |s|
    ensures forall i | 0 <= i < n :: p(s[i])
    ensures n < |s| ==> !p(s[n])
  {
    if |s| > 0 && p(s[0]) then 1 + Span(s[1..], p) else 0
  }

  /** The delimiter test used in states 0, 1, 2 and 5: characters 1.. of `d`
      against `_la(1)`, `_la(2)`, ... As written every depth peeks the same
      next character. */
  function MatchFrom(c: Cursor, d: string, i: nat): (r: (bool, Cursor))
    requires i >= 1
    ensures r.1.text == c.text && r.1.buf == c.buf && r.1.pos >= c.pos && Left(r.1) == Left(c)
    ensures i >= |d| ==> r == (true, c)
    ensures Valid(c) ==> Valid(r.1) && Rest(r.1) == Rest(c)
    ensures Valid(c) && i < |d| ==> |r.1.peeked| == 1
    decreases |d| - i
  {
    if i >= |d| then (true, c)
    else
      var (x, c1) := La(c, i);
      if x != Char(d[i]) then (false, c1) else MatchFrom(c1, d, i + 1)
  }

  /** As written, the delimiter test succeeds exactly when every remaining
      character of `d` equals the one next character. */
  lemma {:induction false} MatchFromAll(c: Cursor, d: string, i: nat)
    requires i >= 1 && Valid(c)
    ensures MatchFrom(c, d, i).0 <==> forall j | i <= j < |d| :: Char(d[j]) == Head(Rest(c))
    decreases |d| - i
  {
    if i < |d| {
      var (x, c1) := La(c, i);
      if x == Char(d[i]) {
        MatchFromAll(c1, d, i + 1);
      }
    }
  }

  /** One pass of state 0's delimiter loop for the character `x` just read:
      the first opener that starts with `x` and whose remaining characters
      match is consumed with `_clear_la`. */
  function Probe(c: Cursor, x: char, openers: seq<Opener>): (r: (Option<(Token, State)>, Cursor))
    ensures r.1.text == c.text && r.1.pos >= c.pos && Left(r.1) <= Left(c)
    ensures r.0.None? ==> r.1.buf == c.buf && Left(r.1) == Left(c)
    ensures !Truthy(c.buf) ==> r.1.buf == c.buf
    ensures Valid(c) ==> Valid(r.1)
    ensures Valid(c) && r.0.None? ==> Rest(r.1) == Rest(c)
    ensures r.0.Some? ==> exists o | o in openers :: r.0.value == (Plain(o.kind, o.delim), o.next)
    decreases |openers|
  {
    if |openers| == 0 then (None, c)
    else
      var o := openers[0];
      if |o.delim| == 0 || x != o.delim[0] then Probe(c, x, openers[1..])
      else
        var (m, c1) := MatchFrom(c, o.delim, 1);
        if m then (Some((Plain(o.kind, o.delim), o.next)), ClearLa(c1))
        else Probe(c1, x, openers[1..])
  }

  /** State 0: accumulate template text in `acc` until a start delimiter or
      the end of input. Text before a delimiter is returned first, with the
      delimiter token held back in a `Replay` state. */
  function ScanText(cfg: Config, c: Cursor, acc: string): (r: (Lexed, State))
    ensures r.0.cur.text == c.text && r.0.cur.pos >= c.pos && Left(r.0.cur) <= Left(c)
    ensures |acc| == 0 && r.0.tok.kind != Eof ==> Left(r.0.cur) < Left(c)
    ensures !Truthy(c.buf) ==> r.0.cur.buf == c.buf
    ensures Valid(c) ==> Valid(r.0.cur)
    ensures r.0.tok.kind == Eof ==> r.0.tok == Plain(Eof, "") && r.1 == TextState && |acc| == 0
    ensures Valid(c) && r.0.tok.kind == Eof ==> Rest(r.0.cur) == []
    ensures r.1.Replay? ==> r.0.tok == Plain(TemplateData, r.0.tok.text) && |r.0.tok.text| > 0
    ensures r.1.Replay? ==> r.1.held.kind in {StatementStart, InlineStart, CommentStart}
    ensures r.1.Replay? ==> r.1.resume in {BlockState, InlineState, CommentState}
    ensures !r.1.Replay? ==> r.1 in {TextState, BlockState, InlineState, CommentState}
    ensures ReplayDepth(r.1) <= 1
    ensures r.0.tok.kind in {TemplateData, Eof, StatementStart, InlineStart, CommentStart}
    decreases Left(c)
  {
    var (ch, c1) := Next(c);
    match ch
    case End =>
      if |acc| > 0 then (Lexed(Plain(TemplateData, acc), c1), TextState)
      else (Lexed(Plain(Eof, ""), c1), TextState)
    case Char(x) =>
      var (hit, c2) := Probe(c1, x, Openers(cfg));
      match hit
      case Some((tok, st)) =>
        if |acc| > 0 then (Lexed(Plain(TemplateData, acc), c2), Replay(tok, st))
        else (Lexed(tok, c2), st)
      case None =>
        ScanText(cfg, c2, acc + [x])
  }

  /** A `while True: if not p(_la()): break; _next()` loop. */
  function SkipWhile(c: Cursor, p: char -> bool): (r: Cursor)
    ensures r.text == c.text && r.pos >= c.pos && Left(r) <= Left(c)
    ensures !Truthy(c.buf) ==> r.buf == c.buf
    ensures Valid(c) ==> Valid(r) && |r.peeked| == 1
    decreases Left(c)
  {
    var (y, c1) := La(c, 1);
    if y.Char? && p(y.c) then SkipWhile(Next(c1).1, p) else c1
  }

  lemma PrefixCons(b: string, s: string, n: nat)
    requires 1 <= n <= |s|
    ensures b + s[..n] == (b + [s[0]]) + s[1..][..n - 1]
  {
    var t := s[1..][..n - 1];
    assert s[..n] == [s[0]] + t;
    assert b + ([s[0]] + t) == (b + [s[0]]) + t;
  }

  /** Recording one more matching character extends the recorded span. */
  lemma SpanPrefix(b: string, s: string, p: char -> bool)
    requires |s| > 0 && p(s[0])
    ensures (b + [s[0]]) + s[1..][..Span(s[1..], p)] == b + s[..Span(s, p)]
  {
    var n := Span(s, p);
    assert n == 1 + Span(s[1..], p);
    PrefixCons(b, s, n);
  }

  /** One turn of the `SkipWhile` loop: when the next character satisfies
      `p` it is consumed, and a truthy buffer records it. */
  lemma SkipWhileStep(c: Cursor, p: char -> bool) returns (c2: Cursor)
    requires Valid(c) && |Rest(c)| > 0 && p(Rest(c)[0])
    ensures Valid(c2) && Left(c2) < Left(c)
    ensures SkipWhile(c, p) == SkipWhile(c2, p)
    ensures Rest(c2) == Rest(c)[1..]
    ensures c2.buf == if Truthy(c.buf) then Some(c.buf.value + [Rest(c)[0]]) else c.buf
  {
    var (y, c1) := La(c, 1);
    assert y == Char(Rest(c)[0]);
    c2 := Next(c1).1;
  }

  lemma SpanCons(s: string, p: char -> bool)
    requires |s| > 0 && p(s[0])
    ensures Span(s, p) >= 1 && s[1..][Span(s, p) - 1..] == s[Span(s, p)..]
  {
    assert Span(s, p) == 1 + Span(s[1..], p);
  }

  /** No character to skip: the loop only peeks. */
  lemma SkipWhileStop(c: Cursor, p: char -> bool)
    requires Valid(c) && !(|Rest(c)| > 0 && p(Rest(c)[0]))
    ensures Rest(SkipWhile(c, p)) == Rest(c) && SkipWhile(c, p).buf == c.buf
  {
    var (y, c1) := La(c, 1);
    assert SkipWhile(c, p) == c1;
  }

  lemma {:induction false} SkipWhileRest(c: Cursor, p: char -> bool)
    requires Valid(c)
    ensures Rest(SkipWhile(c, p)) == Rest(c)[Span(Rest(c), p)..]
    decreases Left(c)
  {
    var s := Rest(c);
    if |s| > 0 && p(s[0]) {
      var c2 := SkipWhileStep(c, p);
      SkipWhileRest(c2, p);
      SpanCons(s, p);
    } else {
      SkipWhileStop(c, p);
    }
  }

  lemma {:induction false} SkipWhileBuf(c: Cursor, p: char -> bool)
    requires Valid(c) && Truthy(c.buf)
    ensures SkipWhile(c, p).buf == Some(c.buf.value + Rest(c)[..Span(Rest(c), p)])
    decreases Left(c)
  {
    var s := Rest(c);
    if |s| > 0 && p(s[0]) {
      var c2 := SkipWhileStep(c, p);
      SkipWhileBuf(c2, p);
      SpanPrefix(c.buf.value, s, p);
    } else {
      SkipWhileStop(c, p);
      assert Span(s, p) == 0;
      assert c.buf.value + s[..0] == c.buf.value;
    }
  }

  /** The loop consumes exactly the longest prefix satisfying `p`, and a
      truthy buffer records it. */
  lemma SkipWhileSpan(c: Cursor, p: char -> bool)
    requires Valid(c)
    ensures var n := Span(Rest(c), p);
      && Rest(SkipWhile(c, p)) == Rest(c)[n..]
      && (Truthy(c.buf) ==> SkipWhile(c, p).buf == Some(c.buf.value + Rest(c)[..n]))
  {
    SkipWhileRest(c, p);
    if Truthy(c.buf) {
      SkipWhileBuf(c, p);
    }
  }

  /** The digit loop of `_do_num`: `is_digit(_la(), radix)` until false; the
      radix 2 that `0b` selects raises as soon as a real character is tested. */
  function SkipDigits(c: Cursor, radix: int): (r: Result<Cursor, Error>)
    ensures r.Ok? ==> r.value.text == c.text && r.value.pos >= c.pos && Left(r.value) <= Left(c)
    ensures r.Ok? && !Truthy(c.buf) ==> r.value.buf == c.buf
    ensures r.Ok? && Valid(c) ==> Valid(r.value)
    ensures r.Err? ==> r.error == BadRadix(radix)
    ensures radix in {8, 10, 16} ==> r.Ok?
    decreases Left(c)
  {
    var (y, c1) := La(c, 1);
    var d :- IsDigit(y, radix);
    if d then SkipDigits(Next(c1).1, radix) else Ok(c1)
  }

  /** The weighted value of a digit string, most significant digit first. */
  function DigitsValue(s: string, radix: nat): nat {
    if |s| == 0 then 0 else DigitsValue(s[..|s| - 1], radix) * radix + DigitValue(s[|s| - 1])
  }

  predicate AllDigits(s: string, radix: nat) {
    forall i | 0 <= i < |s| :: DigitValue(s[i]) < radix
  }

  /** Whether `s` starts with the `0x`, `0o` or `0b` prefix of `radix`. */
  predicate HasRadixPrefix(s: string, radix: nat) {
    && |s| >= 2 && s[0] == '0'
    && (|| (radix == 16 && s[1] in "xX")
        || (radix == 8 && s[1] in "oO")
        || (radix == 2 && s[1] in "bB"))
  }

  /** Python's `int(s, radix)` on the lexemes the number lexer produces: an
      optional sign, the radix prefix (optional for radix 2, 8, 16), then at
      least one digit of the radix; anything else is a `ValueError`. */
  function IntOf(s: string, radix: nat): Option<int> {
    var signed := |s| > 0 && (s[0] == '-' || s[0] == '+');
    var body := if signed then s[1..] else s;
    var digits := if HasRadixPrefix(body, radix) then body[2..] else body;
    var magnitude: int := DigitsValue(digits, radix);
    if |digits| > 0 && AllDigits(digits, radix) then
      Some(if signed && s[0] == '-' then -magnitude else magnitude)
    else
      None
  }

  /** The index of the first exponent marker in `s`, or `|s|`. */
  function ExpIndex(s: string): (i: nat)
    ensures i <= |s|
    ensures forall j | 0 <= j < i :: s[j] != 'e' && s[j] != 'E'
    ensures i < |s| ==> s[i] == 'e' || s[i] == 'E'
  {
    if |s| == 0 || s[0] == 'e' || s[0] == 'E' then 0 else 1 + ExpIndex(s[1..])
  }

  /** Digits with at most one point and at least one digit, scanned left
      to right: `point` and `digit` say whether one was already seen. */
  predicate MantissaScan(m: string, point: bool, digit: bool)
    decreases |m|
  {
    if |m| == 0 then digit
    else if IsDecChar(m[0]) then MantissaScan(m[1..], point, true)
    else if m[0] == '.' && !point then MantissaScan(m[1..], true, digit)
    else false
  }

  predicate Mantissa(m: string) {
    MantissaScan(m, false, false)
  }

  /** A non-empty run of decimal digits. */
  predicate DecimalRun(s: string)
    decreases |s|
  {
    |s| > 0 && IsDecChar(s[0]) && (|s| == 1 || DecimalRun(s[1..]))
  }

  /** An optional sign followed by at least one digit. */
  predicate Exponent(x: string) {
    DecimalRun(if |x| > 0 && (x[0] == '-' || x[0] == '+') then x[1..] else x)
  }

  /** Python's `float(s)` acceptance on the lexemes the number lexer
      produces: optional sign, mantissa, optional exponent with digits. */
  predicate FloatSyntax(s: string) {
    var body := if |s| > 0 && (s[0] == '-' || s[0] == '+') then s[1..] else s;
    var e := ExpIndex(body);
    Mantissa(body[..e]) && (e == |body| || Exponent(body[e + 1..]))
  }

  /** `float(value)` of `_do_num`: the value itself is left uninterpreted. */
  function FloatToken(t: string, c: Cursor): (r: Result<Lexed, Error>)
    ensures r.Ok? ==> r.value.tok.value == Float && r.value.cur == c
  {
    if FloatSyntax(t) then Ok(Lexed(Token(NumLit, t, Float), c)) else Err(BadLiteral(t))
  }

  /** `int(value, radix)` of `_do_num`. */
  function IntToken(t: string, radix: nat, c: Cursor): (r: Result<Lexed, Error>)
    ensures r.Ok? ==> r.value.tok.value.Int? && r.value.cur == c
  {
    match IntOf(t, radix)
    case Some(n) => Ok(Lexed(Token(NumLit, t, Int(n)), c))
    case None => Err(BadLiteral(t))
  }

  /** The radix selection after a leading `0`: `0x`, `0b`, `0o` (either case)
      consume the letter; anything else keeps radix 10. */
  function RadixPrefix(c: Cursor, ch: char): (r: (int, Cursor))
    ensures r.1.text == c.text && r.1.pos >= c.pos && Left(r.1) <= Left(c)
    ensures !Truthy(c.buf) ==> r.1.buf == c.buf
    ensures Valid(c) ==> Valid(r.1)
    ensures r.0 in {2, 8, 10, 16}
  {
    if ch != '0' then (10, c)
    else
      var (y, c1) := La(c, 1);
      if y == Char('x') || y == Char('X') then (16, Next(c1).1)
      else if y == Char('b') || y == Char('B') then (2, Next(c1).1)
      else if y == Char('o') || y == Char('O') then (8, Next(c1).1)
      else (10, c1)
  }

  /** One optional part of a decimal literal: when the next character is
      one of `marks`, it and the digits after it are consumed. */
  function OptionalPart(c: Cursor, marks: set<char>): (r: (bool, Cursor))
    ensures r.1.text == c.text && r.1.pos >= c.pos && Left(r.1) <= Left(c)
    ensures Valid(c) ==> Valid(r.1)
    ensures !Truthy(c.buf) ==> r.1.buf == c.buf
    ensures Valid(c) ==> (r.0 <==> |Rest(c)| > 0 && Rest(c)[0] in marks)
    ensures Valid(c) && !r.0 ==> Rest(r.1) == Rest(c) && r.1.buf == c.buf
  {
    var (y, c1) := La(c, 1);
    if y.Char? && y.c in marks then (true, SkipWhile(Next(c1).1, IsDecChar)) else (false, c1)
  }

  /** The decimal tail of `_do_num`: an optional `.` with digits, then an
      optional `e`/`E` with digits; either makes the literal a float. */
  function DecimalTail(c: Cursor): (r: Result<Lexed, Error>)
    ensures r.Ok? ==> r.value.cur.text == c.text && r.value.cur.pos >= c.pos && Left(r.value.cur) <= Left(c)
    ensures r.Ok? && Valid(c) ==> Valid(r.value.cur)
    ensures r.Ok? ==> r.value.tok.kind == NumLit && r.value.cur.buf == None
  {
    var (frac, c2) := OptionalPart(c, {'.'});
    var (exp, c4) := OptionalPart(c2, {'e', 'E'});
    var (t, c5) := ClearBuf(c4);
    if frac || exp then FloatToken(t, c5) else IntToken(t, 10, c5)
  }

  /** A literal with a radix prefix ends after its digits. */
  function PrefixedInt(c: Cursor, radix: nat): (r: Result<Lexed, Error>)
    ensures r.Ok? ==> r.value.cur.text == c.text && r.value.cur.pos >= c.pos && Left(r.value.cur) <= Left(c)
    ensures r.Ok? && Valid(c) ==> Valid(r.value.cur)
    ensures r.Ok? ==> r.value.tok.kind == NumLit && r.value.cur.buf == None
  {
    var (t, c1) := ClearBuf(c);
    IntToken(t, radix, c1)
  }

  /** The body of `_do_num` once its first character `ch` is consumed. */
  function NumberBody(c: Cursor, ch: char): (r: Result<Lexed, Error>)
    ensures r.Ok? ==> r.value.cur.text == c.text && r.value.cur.pos >= c.pos && Left(r.value.cur) <= Left(c)
    ensures r.Ok? && Valid(c) ==> Valid(r.value.cur)
    ensures r.Ok? ==> r.value.tok.kind == NumLit && r.value.cur.buf == None
  {
    if ch == '.' then
      var (t, c1) := ClearBuf(SkipWhile(c, IsDecChar));
      FloatToken(t, c1)
    else
      var (radix, c1) := RadixPrefix(c, ch);
      var c2 :- SkipDigits(c1, radix);
      if radix != 10 then PrefixedInt(c2, radix) else DecimalTail(c2)
  }

  /** `_do_num(start_pos, first)`: starts a NUM_LIT buffer holding `first`.
      The sign branch is kept although no caller reaches it. */
  function LexNumber(ign: set<Kind>, c: Cursor, first: char): (r: Result<Lexed, Error>)
    ensures r.Ok? ==> r.value.cur.text == c.text && r.value.cur.pos >= c.pos && Left(r.value.cur) <= Left(c)
    ensures r.Ok? && Valid(c) ==> Valid(r.value.cur)
    ensures r.Ok? ==> r.value.tok.kind in {NumLit, Eof}
    ensures r.Ok? && Valid(c) && r.value.tok.kind == Eof ==> Rest(r.value.cur) == []
    ensures r.Ok? && r.value.tok.kind == Eof ==> r.value.tok == Plain(Eof, "")
  {
    var c0 := StartBuf(c, NumLit !in ign, Some(first));
    if first == '-' || first == '+' then
      var (x, c1) := Next(c0);
      match x
      case End => Ok(Lexed(Plain(Eof, ""), c1))
      case Char(ch) => NumberBody(c1, ch)
    else
      NumberBody(c0, first)
  }

  /** The loop of `_do_str` after the opening quote `q`; `val` collects the
      decoded value. Only the escapes `\n` and `\r` survive: for any other
      escaped character the test `ch == '\n' | '\r'` raises. */
  function StringBody(c: Cursor, q: char, val: string): (r: Result<Lexed, Error>)
    ensures r.Ok? ==> r.value.cur.text == c.text && r.value.cur.pos >= c.pos && Left(r.value.cur) <= Left(c)
    ensures r.Ok? && Valid(c) ==> Valid(r.value.cur)
    ensures r.Ok? ==> r.value.tok.kind in {StrLit, Eof}
    ensures r.Ok? && r.value.tok.kind == Eof ==> r.value.tok == Plain(Eof, "")
    ensures r.Ok? && Valid(c) && r.value.tok.kind == Eof ==> Rest(r.value.cur) == []
    ensures r.Ok? && r.value.tok.kind == StrLit ==> r.value.cur.buf == None
    decreases Left(c)
  {
    var (x, c1) := Next(c);
    match x
    case End => Ok(Lexed(Plain(Eof, ""), c1))
    case Char(ch) =>
      if ch == q then
        var (t, c2) := ClearBuf(c1);
        Ok(Lexed(Token(StrLit, t, Str(val)), c2))
      else if ch == '\\' then
        var (e, c2) := Next(c1);
        match e
        case End => Ok(Lexed(Plain(Eof, ""), c2))
        case Char(ec) =>
          if ec == 'n' then StringBody(c2, q, val + "\n")
          else if ec == 'r' then StringBody(c2, q, val + "\r")
          else Err(EscapeTypeError(ec))
      else
        StringBody(c1, q, val + [ch])
  }

  /** `_do_str(start_pos, q)`: starts a STR_LIT buffer holding the quote. */
  function LexString(ign: set<Kind>, c: Cursor, q: char): (r: Result<Lexed, Error>)
    ensures r.Ok? ==> r.value.cur.text == c.text && r.value.cur.pos >= c.pos && Left(r.value.cur) <= Left(c)
    ensures r.Ok? && Valid(c) ==> Valid(r.value.cur)
    ensures r.Ok? ==> r.value.tok.kind in {StrLit, Eof}
    ensures r.Ok? && Valid(c) && r.value.tok.kind == Eof ==> Rest(r.value.cur) == []
    ensures r.Ok? && r.value.tok.kind == Eof ==> r.value.tok == Plain(Eof, "")
  {
    StringBody(StartBuf(c, StrLit !in ign, Some(q)), q, "")
  }

  /** The single-character tokens of the statement lexer. */
  function Punctuation(x: char): Option<Kind> {
    match x
    case '(' => Some(LParen)
    case ')' => Some(RParen)
    case '[' => Some(LBracket)
    case ']' => Some(RBracket)
    case '{' => Some(LBrace)
    case '}' => Some(RBrace)
    case ',' => Some(Comma)
    case '|' => Some(Pipe)
    case ':' => Some(Colon)
    case _ => None
  }

  /** The kinds the regular lexicon of a statement can produce. */
  predicate LexiconKind(k: Kind) {
    k in {Ws, NameOrKeyword, StrLit, NumLit, LBracket, RBracket, LParen, RParen, LBrace, RBrace,
          Pipe, Eq, Comma, Dot, MathOpOrStarArgs, CompareOp, Colon, Eof}
  }

  /** The characters that open an operator: `. + - * / > <` and `=`. */
  predicate OperatorChar(x: char) {
    x == '.' || x == '+' || x == '-' || x == '*' || x == '/' || x == '>' || x == '<' || x == '='
  }

  /** The operator branches of `_do_statement` for `x` in `. + - * / > < =`. */
  function Operator(ign: set<Kind>, c: Cursor, x: char): (r: Result<Lexed, Error>)
    requires OperatorChar(x)
    ensures r.Ok? ==> r.value.cur.text == c.text && r.value.cur.pos >= c.pos && Left(r.value.cur) <= Left(c)
    ensures r.Ok? && Valid(c) ==> Valid(r.value.cur)
    ensures r.Ok? ==> LexiconKind(r.value.tok.kind)
    ensures r.Ok? && r.value.tok.kind == Eof ==> r.value.tok == Plain(Eof, "")
    ensures r.Ok? && Valid(c) && r.value.tok.kind == Eof ==> Rest(r.value.cur) == []
  {
    var (y, c1) := La(c, 1);
    if x == '.' then
      if IsDecimal(y) then LexNumber(ign, c1, x) else Ok(Lexed(Plain(Dot, "."), c1))
    else if x == '+' || x == '-' then
      if IsDecimal(y) then Err(SignedNumberNameError) else Ok(Lexed(Plain(MathOpOrStarArgs, [x]), c1))
    else if x == '*' || x == '/' then
      if y == Char(x) then Ok(Lexed(Plain(MathOpOrStarArgs, [x, x]), Next(c1).1))
      else Ok(Lexed(Plain(MathOpOrStarArgs, [x]), c1))
    else if x == '>' || x == '<' then
      if y == Char('=') then Ok(Lexed(Plain(CompareOp, [x, '=']), Next(c1).1))
      else Ok(Lexed(Plain(MathOpOrStarArgs, [x]), c1))
    else
      if y == Char('=') then Ok(Lexed(Plain(CompareOp, "=="), Next(c1).1))
      else Ok(Lexed(Plain(Eq, "="), c1))
  }

  /** A whitespace run or a name: `x` and the characters after it that
      satisfy `p`, as one token of `kind`, whose text is kept only when the
      kind is not ignored. */
  function Run(ign: set<Kind>, c: Cursor, x: char, kind: Kind, p: char -> bool): (r: Lexed)
    ensures r.cur.text == c.text && r.cur.pos >= c.pos && Left(r.cur) <= Left(c)
    ensures Valid(c) ==> Valid(r.cur)
    ensures r.tok.kind == kind
  {
    var (t, c1) := ClearBuf(SkipWhile(StartBuf(c, kind !in ign, Some(x)), p));
    Lexed(Plain(kind, t), c1)
  }

  /** The remaining branches of `_do_statement`: quoted strings, numbers,
      whitespace runs, names, and the syntax error for anything else. */
  function Word(ign: set<Kind>, c: Cursor, x: char): (r: Result<Lexed, Error>)
    ensures r.Ok? ==> r.value.cur.text == c.text && r.value.cur.pos >= c.pos && Left(r.value.cur) <= Left(c)
    ensures r.Ok? && Valid(c) ==> Valid(r.value.cur)
    ensures r.Ok? ==> LexiconKind(r.value.tok.kind)
    ensures r.Ok? && r.value.tok.kind == Eof ==> r.value.tok == Plain(Eof, "")
    ensures r.Ok? && Valid(c) && r.value.tok.kind == Eof ==> Rest(r.value.cur) == []
  {
    if x == '"' || x == '\'' then
      LexString(ign, c, x)
    else if IsDecimal(Char(x)) then
      LexNumber(ign, c, x)
    else if IsWs(Char(x)) then Ok(Run(ign, c, x, Ws, WsChar))
    else if IsAlpha(Char(x)) then Ok(Run(ign, c, x, NameOrKeyword, NameChar))
    else
      Err(InvalidSyntax(x))
  }

  /** The "regular lexicon" of `_do_statement` for the character `x` just
      read (fserve/jinja_parse.py:259-320). */
  function Classify(ign: set<Kind>, c: Cursor, x: char): (r: Result<Lexed, Error>)
    ensures r.Ok? ==> r.value.cur.text == c.text && r.value.cur.pos >= c.pos && Left(r.value.cur) <= Left(c)
    ensures r.Ok? && Valid(c) ==> Valid(r.value.cur)
    ensures r.Ok? ==> LexiconKind(r.value.tok.kind)
    ensures r.Ok? && r.value.tok.kind == Eof ==> r.value.tok == Plain(Eof, "")
    ensures r.Ok? && Valid(c) && r.value.tok.kind == Eof ==> Rest(r.value.cur) == []
  {
    if Punctuation(x).Some? then Ok(Lexed(Plain(Punctuation(x).value, [x]), c))
    else if OperatorChar(x) then Operator(ign, c, x)
    else Word(ign, c, x)
  }

  /** `_do_statement(terminator, end_kind, False)`: the terminator is tested
      before anything else; every token but the end of input consumes input. */
  function LexStatement(ign: set<Kind>, c: Cursor, term: string, endKind: Kind): (r: Result<Lexed, Error>)
    requires endKind == StatementEnd || endKind == InlineEnd
    ensures r.Ok? ==> r.value.cur.text == c.text && r.value.cur.pos >= c.pos && Left(r.value.cur) <= Left(c)
    ensures r.Ok? && r.value.tok.kind != Eof ==> Left(r.value.cur) < Left(c)
    ensures r.Ok? && Valid(c) ==> Valid(r.value.cur)
    ensures r.Ok? && r.value.tok.kind == Eof ==> r.value.tok == Plain(Eof, "")
    ensures r.Ok? && Valid(c) && r.value.tok.kind == Eof ==> Rest(r.value.cur) == []
    ensures r.Ok? ==> LexiconKind(r.value.tok.kind) || r.value.tok.kind == endKind
  {
    var (x, c1) := Next(c);
    match x
    case End => Ok(Lexed(Plain(Eof, ""), c1))
    case Char(ch) =>
      var (ended, c2) := if |term| > 0 && ch == term[0] then MatchFrom(c1, term, 1) else (false, c1);
      if ended then
        var (t, c3) := ClearBuf(ClearLa(c2));
        Ok(Lexed(Plain(endKind, t), c3))
      else
        Classify(ign, c2, ch)
  }

  /** The loop of `_do_comment(False)`: skip to the comment terminator. The
      buffer it starts is empty and so never records anything, and it is
      cleared before being tested, so no COMMENT_DATA token is produced. */
  function CommentBody(term: string, c: Cursor): (r: Result<Lexed, Error>)
    ensures r.Ok? ==> r.value.cur.text == c.text && r.value.cur.pos >= c.pos && Left(r.value.cur) <= Left(c)
    ensures r.Ok? && r.value.tok.kind != Eof ==> Left(r.value.cur) < Left(c)
    ensures r.Ok? && Valid(c) ==> Valid(r.value.cur)
    ensures r.Ok? ==> r.value.tok.kind in {CommentEnd, Eof}
    ensures r.Ok? && r.value.tok.kind == Eof ==> r.value.tok == Plain(Eof, "")
    ensures r.Ok? && Valid(c) && r.value.tok.kind == Eof ==> Rest(r.value.cur) == []
    ensures r.Err? ==> r.error == EmptyCommentEnd && |term| == 0
    decreases Left(c)
  {
    var (x, c1) := Next(c);
    match x
    case End => Ok(Lexed(Plain(Eof, ""), c1))
    case Char(ch) =>
      if |term| == 0 then Err(EmptyCommentEnd)
      else if ch == term[0] then
        var (m, c2) := MatchFrom(c1, term, 1);
        if m then
          var (t, c3) := ClearBuf(ClearLa(c2));
          Ok(Lexed(Plain(CommentEnd, t), c3))
        else
          CommentBody(term, c2)
      else
        CommentBody(term, c1)
  }

  /** `_do_comment(False)`. */
  function LexComment(cfg: Config, c: Cursor): (r: Result<Lexed, Error>)
    ensures r.Ok? ==> r.value.cur.text == c.text && r.value.cur.pos >= c.pos && Left(r.value.cur) <= Left(c)
    ensures r.Ok? && r.value.tok.kind != Eof ==> Left(r.value.cur) < Left(c)
    ensures r.Ok? && Valid(c) ==> Valid(r.value.cur)
    ensures r.Ok? ==> r.value.tok.kind in {CommentEnd, Eof}
    ensures r.Ok? && r.value.tok.kind == Eof ==> r.value.tok == Plain(Eof, "")
    ensures r.Ok? && Valid(c) && r.value.tok.kind == Eof ==> Rest(r.value.cur) == []
  {
    CommentBody(cfg.commentEnd, StartBuf(c, CommentData !in cfg.ignore, None))
  }

  /** The lexer states reachable from `Init`: a well-formed cursor, and a
      replay holds back a start delimiter before a non-replay state. */
  predicate Wf(lx: Lexer) {
    && Valid(lx.cur)
    && (lx.state.Replay? ==> lx.state.held.kind != Eof && !lx.state.resume.Replay?)
  }

  /** All input consumed, outside a replay. */
  predicate AtEnd(lx: Lexer) {
    Wf(lx) && !lx.state.Replay? && Rest(lx.cur) == []
  }

  /** `_next_token`: one raw token, ignored kinds included. */
  function RawNext(lx: Lexer): (r: Result<Step, Error>)
    ensures r.Ok? ==> r.value.lx.cfg == lx.cfg
    ensures r.Ok? ==> r.value.lx.cur.text == lx.cur.text && r.value.lx.cur.pos >= lx.cur.pos
    ensures r.Ok? ==> RawMeasure(r.value.lx) <= RawMeasure(lx)
    ensures r.Ok? && r.value.tok.kind != Eof ==> RawMeasure(r.value.lx) < RawMeasure(lx)
    ensures r.Ok? && Wf(lx) ==> Wf(r.value.lx)
    ensures r.Ok? && Wf(lx) && r.value.tok.kind == Eof ==> r.value.tok == Plain(Eof, "") && AtEnd(r.value.lx)
  {
    match lx.state
    case TextState =>
      var (l, st) := ScanText(lx.cfg, lx.cur, "");
      Ok(Step(l.tok, lx.(cur := l.cur, state := st)))
    case BlockState =>
      var l :- LexStatement(lx.cfg.ignore, lx.cur, lx.cfg.blockEnd, StatementEnd);
      Ok(Step(l.tok, lx.(cur := l.cur, state := if l.tok.kind == StatementEnd then TextState else BlockState)))
    case InlineState =>
      var l :- LexStatement(lx.cfg.ignore, lx.cur, lx.cfg.inlineEnd, InlineEnd);
      Ok(Step(l.tok, lx.(cur := l.cur, state := if l.tok.kind == InlineEnd then TextState else InlineState)))
    case CommentState =>
      var l :- LexComment(lx.cfg, lx.cur);
      Ok(Step(l.tok, lx.(cur := l.cur, state := if l.tok.kind == CommentEnd then TextState else CommentState)))
    case Replay(t, st) =>
      Ok(Step(t, lx.(state := st)))
  }
}
