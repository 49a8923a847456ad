/** Properties of `_do_comment(False)` (fserve/jinja_parse.py:322-357): the
    comment body is skipped up to the first place where the terminator test
    matches, no COMMENT_DATA token is ever produced, and a comment that never
    closes runs to the end of the input. */
module CommentProps {
  import opened Results
  import opened Tokens
  import opened Chars
  import opened Cursors
  import opened Lexer
  import opened StatementProps

  /** The terminator test fails at each of the first `n` suffixes of `s`. */
  predicate ClearUntil(term: string, s: string, n: nat) {
    n == 0 || |s| == 0 || (!EndsAt(term, s) && ClearUntil(term, s[1..], n - 1))
  }

  /** `ClearUntil` suffix by suffix. */
  lemma {:induction false} ClearUntilAll(term: string, s: string, n: nat)
    ensures ClearUntil(term, s, n) <==> forall i | 0 <= i < n && i <= |s| :: !EndsAt(term, s[i..])
    decreases n
  {
    if n > 0 && |s| > 0 {
      ClearUntilAll(term, s[1..], n - 1);
      assert s[0..] == s;
      forall i | 1 <= i < n && i <= |s|
        ensures s[1..][i - 1..] == s[i..]
      {
      }
      if forall i | 0 <= i < n && i <= |s| :: !EndsAt(term, s[i..]) {
        assert forall i | 0 <= i < n - 1 && i <= |s[1..]| :: !EndsAt(term, s[1..][i..]) by {
          forall i | 0 <= i < n - 1 && i <= |s[1..]|
            ensures !EndsAt(term, s[1..][i..])
          {
            assert s[1..][i..] == s[i + 1..];
          }
        }
      }
    } else if n > 0 {
      assert s[0..] == s;
    }
  }

  /** The suffix of `s` after its head. */
  lemma SuffixTail(s: string, n: nat)
    requires 0 < n <= |s|
    ensures s[1..][n - 1..] == s[n..]
  {
  }

  /** Where the comment loop goes on after a character that does not start
      a match: past it, and past what the terminator test read ahead. */
  function SkipOne(term: string, c: Cursor): (c2: Cursor)
    requires Valid(c) && |term| > 0 && |Rest(c)| > 0
  {
    var c1 := Next(c).1;
    if Rest(c)[0] == term[0] then MatchFrom(c1, term, 1).1 else c1
  }

  /** A character that does not start the terminator is skipped. */
  lemma CommentSkip(term: string, c: Cursor) returns (c2: Cursor)
    requires Valid(c) && |term| > 0 && |Rest(c)| > 0 && !EndsAt(term, Rest(c))
    ensures c2 == SkipOne(term, c)
    ensures Rest(c)[0] == term[0] ==> !MatchFrom(Next(c).1, term, 1).0
    ensures Valid(c2) && Rest(c2) == Rest(c)[1..] && c2.buf == Next(c).1.buf
  {
    var (x, c1) := Next(c);
    c2 := c1;
    if Rest(c)[0] == term[0] {
      MatchFromAll(c1, term, 1);
      c2 := MatchFrom(c1, term, 1).1;
    }
  }

  /** The comment loop continues from `SkipOne`. */
  lemma SkipBody(term: string, c: Cursor)
    requires Valid(c) && |term| > 0 && |Rest(c)| > 0 && !EndsAt(term, Rest(c))
    ensures CommentBody(term, c) == CommentBody(term, SkipOne(term, c))
  {
    var c2 := CommentSkip(term, c);
  }

  /** Where the terminator test matches, the comment ends with an empty
      CommentEnd token, consuming `TermWidth(term)` characters. */
  lemma CommentEnded(term: string, c: Cursor)
    requires Valid(c) && !Truthy(c.buf) && EndsAt(term, Rest(c))
    ensures var r := CommentBody(term, c);
      && TermWidth(term) <= |Rest(c)|
      && r.Ok? && r.value.tok == Plain(CommentEnd, "")
      && Rest(r.value.cur) == Rest(c)[TermWidth(term)..]
  {
    var c3 := TermCursor(c, term);
    assert Rest(c)[0] == term[0];
  }

  /** Where `CommentScan` starts: a valid cursor with no live buffer, the
      terminator test matching `n` characters ahead and at no earlier
      suffix. */
  predicate ScanReady(term: string, c: Cursor, n: nat) {
    && Valid(c) && !Truthy(c.buf) && n < |Rest(c)|
    && EndsAt(term, Rest(c)[n..]) && ClearUntil(term, Rest(c), n)
  }

  /** The comment loop from `c` closes with an empty token at `c3`, just
      after the terminator matched `n` characters ahead. */
  predicate ClosedAt(term: string, c: Cursor, n: nat, c3: Cursor) {
    && Valid(c) && Valid(c3)
    && n + TermWidth(term) <= |Rest(c)| && Rest(c3) == Rest(c)[n + TermWidth(term)..]
    && CommentBody(term, c) == Ok(Lexed(Plain(CommentEnd, ""), c3))
  }

  /** The comment closes at the first suffix where the terminator test
      matches. */
  lemma {:induction false} CommentScan(term: string, c: Cursor, n: nat) returns (c3: Cursor)
    requires ScanReady(term, c, n)
    ensures ClosedAt(term, c, n, c3)
    decreases n, 1
  {
    if n == 0 {
      c3 := CommentHere(term, c);
    } else {
      c3 := ScanOn(term, c, n);
    }
  }

  /** `CommentScan` past a character before the first match. */
  lemma {:induction false} ScanOn(term: string, c: Cursor, n: nat) returns (c3: Cursor)
    requires ScanReady(term, c, n) && 0 < n
    ensures ClosedAt(term, c, n, c3)
    decreases n, 0
  {
    var c2 := SkipCleared(term, c, n);
    c3 := CommentScan(term, c2, n - 1);
    ScanJoin(term, c, c2, c3, n);
  }

  /** The result for the suffix after the head is the result for the whole
      input. */
  lemma ScanJoin(term: string, c: Cursor, c2: Cursor, c3: Cursor, n: nat)
    requires Valid(c) && Valid(c2) && 0 < n && 0 < |Rest(c)| && Rest(c2) == Rest(c)[1..]
    requires ClosedAt(term, c2, n - 1, c3) && CommentBody(term, c) == CommentBody(term, c2)
    ensures ClosedAt(term, c, n, c3)
  {
    SuffixTail(Rest(c), n + TermWidth(term));
  }

  /** `CommentEnded` at the first suffix. */
  lemma CommentHere(term: string, c: Cursor) returns (c3: Cursor)
    requires ScanReady(term, c, 0)
    ensures ClosedAt(term, c, 0, c3)
  {
    assert Rest(c)[0..] == Rest(c);
    CommentEnded(term, c);
    c3 := CommentBody(term, c).value.cur;
  }

  /** Before the first match, one character is skipped and the search goes
      on one position closer. */
  lemma SkipCleared(term: string, c: Cursor, n: nat) returns (c2: Cursor)
    requires ScanReady(term, c, n) && 0 < n
    ensures ScanReady(term, c2, n - 1) && Valid(c) && Valid(c2) && 0 < |Rest(c)| && Rest(c2) == Rest(c)[1..]
    ensures CommentBody(term, c) == CommentBody(term, c2)
  {
    c2 := CommentSkip(term, c);
    SkipBody(term, c);
    SuffixTail(Rest(c), n);
  }

  /** A valid cursor from which the terminator test fails at every suffix. */
  predicate NeverEnds(term: string, c: Cursor) {
    Valid(c) && |term| > 0 && ClearUntil(term, Rest(c), |Rest(c)|)
  }

  /** The comment loop from `c` runs to the end of the input and yields the
      end-of-input token. */
  predicate RunsOut(term: string, c: Cursor) {
    var r := CommentBody(term, c);
    r.Ok? && r.value.tok == Plain(Eof, "") && Valid(r.value.cur) && Rest(r.value.cur) == []
  }

  /** A comment whose terminator test never matches runs to the end of the
      input and yields the end-of-input token. */
  lemma {:induction false} CommentUnclosed(term: string, c: Cursor)
    requires NeverEnds(term, c)
    ensures RunsOut(term, c)
    decreases |Rest(c)|
  {
    if |Rest(c)| > 0 {
      var c2 := UnclosedStep(term, c);
      CommentUnclosed(term, c2);
    } else {
      EmptyRunsOut(term, c);
    }
  }

  /** At the end of the input the comment loop yields the end-of-input
      token. */
  lemma EmptyRunsOut(term: string, c: Cursor)
    requires Valid(c) && |Rest(c)| == 0
    ensures RunsOut(term, c)
  {
  }

  /** One skipped character of a comment that never closes. */
  lemma UnclosedStep(term: string, c: Cursor) returns (c2: Cursor)
    requires NeverEnds(term, c) && |Rest(c)| > 0
    ensures NeverEnds(term, c2) && |Rest(c2)| < |Rest(c)|
    ensures RunsOut(term, c2) ==> RunsOut(term, c)
  {
    ClearHead(term, Rest(c), |Rest(c)|);
    c2 := CommentSkip(term, c);
    SkipRunsOut(term, c);
  }

  /** `ClearUntil` at its first suffix and at the rest. */
  lemma ClearHead(term: string, s: string, n: nat)
    requires ClearUntil(term, s, n) && 0 < n && 0 < |s|
    ensures !EndsAt(term, s) && ClearUntil(term, s[1..], n - 1)
  {
  }

  /** `RunsOut` carries back over a skipped character. */
  lemma SkipRunsOut(term: string, c: Cursor)
    requires Valid(c) && |term| > 0 && |Rest(c)| > 0 && !EndsAt(term, Rest(c))
    ensures RunsOut(term, SkipOne(term, c)) ==> RunsOut(term, c)
  {
    SkipBody(term, c);
  }

  /** Some suffix where the terminator test matches gives a first one. */
  lemma {:induction false} FirstEnd(term: string, s: string, n: nat) returns (m: nat)
    requires n < |s| && EndsAt(term, s[n..])
    ensures m <= n && EndsAt(term, s[m..]) && ClearUntil(term, s, m)
    decreases n
  {
    ClearUntilAll(term, s, n);
    if ClearUntil(term, s, n) {
      m := n;
    } else {
      var i :| 0 <= i < n && i <= |s| && EndsAt(term, s[i..]);
      m := FirstEnd(term, s, i);
    }
  }

  /** The comment body closes exactly when the terminator test matches at
      some suffix of the input; otherwise it ends the input, or raises when
      the terminator is empty. Either way the token text is empty. */
  lemma CommentBodyIff(term: string, c: Cursor)
    requires Valid(c) && !Truthy(c.buf)
    ensures var r := CommentBody(term, c);
      && (r.Ok? && r.value.tok.kind == CommentEnd <==> exists n | 0 <= n < |Rest(c)| :: EndsAt(term, Rest(c)[n..]))
      && (r.Err? <==> |term| == 0 && |Rest(c)| > 0)
      && (r.Ok? ==> r.value.tok.text == "")
  {
    if exists n | 0 <= n < |Rest(c)| :: EndsAt(term, Rest(c)[n..]) {
      var n :| 0 <= n < |Rest(c)| && EndsAt(term, Rest(c)[n..]);
      var m := FirstEnd(term, Rest(c), n);
      var c3 := CommentScan(term, c, m);
      assert ClosedAt(term, c, m, c3);
    } else if |term| > 0 {
      ClearUntilAll(term, Rest(c), |Rest(c)|);
      CommentUnclosed(term, c);
    }
  }

  /** The cursor `_do_comment` works on: a fresh buffer that is empty, or
      the cleared buffer of the previous token when comment text is ignored. */
  lemma CommentStart(cfg: Config, c: Cursor)
    requires Valid(c) && !Truthy(c.buf)
    ensures var c0 := StartBuf(c, CommentData !in cfg.ignore, None);
      Valid(c0) && !Truthy(c0.buf) && Rest(c0) == Rest(c)
      && LexComment(cfg, c) == CommentBody(cfg.commentEnd, c0)
  {
    var c0 := StartBuf(c, CommentData !in cfg.ignore, None);
    assert c0.text == c.text && c0.pos == c.pos && c0.peeked == c.peeked;
  }

  /** `_do_comment(False)` never produces COMMENT_DATA: every token it
      returns has empty text, and it closes exactly when the terminator test
      matches somewhere ahead. */
  lemma CommentToken(cfg: Config, c: Cursor)
    requires Valid(c) && !Truthy(c.buf)
    ensures var r := LexComment(cfg, c);
      && (r.Ok? ==> r.value.tok.kind != CommentData && r.value.tok.text == "")
      && (r.Ok? && r.value.tok.kind == CommentEnd <==> exists n | 0 <= n < |Rest(c)| :: EndsAt(cfg.commentEnd, Rest(c)[n..]))
      && (r.Err? <==> |cfg.commentEnd| == 0 && |Rest(c)| > 0)
  {
    CommentStart(cfg, c);
    CommentBodyIff(cfg.commentEnd, StartBuf(c, CommentData !in cfg.ignore, None));
  }

  /** No character of `body` starts the terminator, so the test fails at
      every suffix starting inside `body`. */
  lemma BodyClear(term: string, body: string, tail: string)
    requires |term| > 0 && forall i | 0 <= i < |body| :: body[i] != term[0]
    ensures ClearUntil(term, body + tail, |body|)
  {
    forall i | 0 <= i < |body| && i <= |body + tail|
      ensures !EndsAt(term, (body + tail)[i..])
    {
      assert (body + tail)[i..][0] == body[i];
    }
    ClearUntilAll(term, body + tail, |body|);
  }

  /** A comment body free of the terminator's first character, followed by
      a terminator of one or two characters, is skipped whole: the comment
      closes with an empty token just after the terminator. */
  lemma CommentCloses(cfg: Config, c: Cursor, body: string, tail: string)
    requires Valid(c) && !Truthy(c.buf) && 1 <= |cfg.commentEnd| <= 2
    requires forall i | 0 <= i < |body| :: body[i] != cfg.commentEnd[0]
    requires Rest(c) == body + (cfg.commentEnd + tail)
    ensures var r := LexComment(cfg, c);
      r.Ok? && r.value.tok == Plain(CommentEnd, "") && Rest(r.value.cur) == tail
  {
    var c0 := StartBuf(c, CommentData !in cfg.ignore, None);
    CommentStart(cfg, c);
    CloseAfter(cfg.commentEnd, c0, body, tail);
  }

  /** `CommentCloses` for the loop itself. */
  lemma CloseAfter(term: string, c: Cursor, body: string, tail: string)
    requires Valid(c) && !Truthy(c.buf) && 1 <= |term| <= 2
    requires forall i | 0 <= i < |body| :: body[i] != term[0]
    requires Rest(c) == body + (term + tail)
    ensures var r := CommentBody(term, c);
      r.Ok? && r.value.tok == Plain(CommentEnd, "") && Rest(r.value.cur) == tail
  {
    ClosingFacts(term, body, tail);
    var c3 := CommentScan(term, c, |body|);
  }

  /** Where the terminator test first matches in `body + term + tail`, and
      what is left after it. */
  lemma ClosingFacts(term: string, body: string, tail: string)
    requires 1 <= |term| <= 2
    requires forall i | 0 <= i < |body| :: body[i] != term[0]
    ensures var s := body + (term + tail);
      && |body| < |s| && ClearUntil(term, s, |body|) && EndsAt(term, s[|body|..])
      && |body| + TermWidth(term) <= |s| && s[|body| + TermWidth(term)..] == tail
  {
    var s := body + (term + tail);
    BodyClear(term, body, term + tail);
    assert s[|body|..] == term + tail;
    if |term| == 2 {
      EndsAtPair(term, term + tail);
      assert (term + tail)[..2] == term;
    }
  }
}
