/** The character cursor of `JinjaStatementLexer` (fserve/jinja_parse.py:516-563):
    the template text, the read position `template_pos`, the peek buffer
    `ch_buf` and the token text buffer `buf` that `_next` appends to. */
module Cursors {
  import opened Results
  import opened Chars

  datatype Cursor = Cursor(text: string, pos: nat, peeked: seq<Ch>, buf: Option<string>)

  /** A fresh cursor at the start of `text`. */
  function Start(text: string): Cursor {
    Cursor(text, 0, [], None)
  }

  /** The character at index `i` of `text`, or the sentinel past its end. */
  function At(text: string, i: int): Ch {
    if 0 <= i < |text| then Char(text[i]) else End
  }

  /** The first character of `s`, or the sentinel when `s` is empty. */
  function Head(s: string): Ch {
    if |s| > 0 then Char(s[0]) else End
  }

  function Tail(s: string): string {
    if |s| > 0 then s[1..] else s
  }

  /** Python truthiness of `self.buf`: present and non-empty. */
  predicate Truthy(b: Option<string>) {
    b.Some? && |b.value| > 0
  }

  /** How many real characters the peek buffer holds. */
  function CountChars(p: seq<Ch>): nat {
    if |p| == 0 then 0 else (if p[0].Char? then 1 else 0) + CountChars(p[1..])
  }

  lemma {:induction false} CountCharsAppend(p: seq<Ch>, x: Ch)
    ensures CountChars(p + [x]) == CountChars(p) + (if x.Char? then 1 else 0)
  {
    if |p| > 0 {
      assert (p + [x])[1..] == p[1..] + [x];
      CountCharsAppend(p[1..], x);
    }
  }

  /** The number of characters the cursor can still hand out; the
      termination measure of every scanning loop. */
  function Left(c: Cursor): nat {
    CountChars(c.peeked) + (if c.pos < |c.text| then |c.text| - c.pos else 0)
  }

  /** The states the lexer can reach from `Start`: at most one character
      peeked, and a peeked sentinel only at the end of the text. */
  predicate Valid(c: Cursor) {
    && c.pos <= |c.text|
    && |c.peeked| <= 1
    && (|c.peeked| == 1 && c.peeked[0].End? ==> c.pos == |c.text|)
  }

  /** The characters still to be handed out, in order: the peeked one (if
      any) followed by the unread text. */
  function Rest(c: Cursor): string
    requires Valid(c)
  {
    (if |c.peeked| == 1 && c.peeked[0].Char? then [c.peeked[0].c] else []) + c.text[c.pos..]
  }

  /** `_do_next`: the head of the peek buffer if there is one, otherwise the
      next character of the text, otherwise the sentinel. */
  function DoNext(c: Cursor): (r: (Ch, Cursor))
    ensures r.1.text == c.text && r.1.buf == c.buf && r.1.pos >= c.pos
    ensures |c.peeked| > 0 ==> r.0 == c.peeked[0] && r.1.peeked == c.peeked[1..]
    ensures |c.peeked| == 0 ==> r.1.peeked == []
    ensures Left(r.1) + (if r.0.Char? then 1 else 0) == Left(c)
    ensures Valid(c) ==> Valid(r.1) && r.0 == Head(Rest(c)) && Rest(r.1) == Tail(Rest(c))
  {
    if |c.peeked| > 0 then (c.peeked[0], c.(peeked := c.peeked[1..]))
    else if c.pos < |c.text| then (Char(c.text[c.pos]), c.(pos := c.pos + 1))
    else (End, c)
  }

  /** `_next`: `_do_next`, recording the character in a non-empty text
      buffer. */
  function Next(c: Cursor): (r: (Ch, Cursor))
    ensures r.1.text == c.text && r.1.pos >= c.pos
    ensures |c.peeked| > 0 ==> r.0 == c.peeked[0] && r.1.peeked == c.peeked[1..]
    ensures Left(r.1) + (if r.0.Char? then 1 else 0) == Left(c)
    ensures r.1.buf == if Truthy(c.buf) && r.0.Char? then Some(c.buf.value + [r.0.c]) else c.buf
    ensures Valid(c) ==> Valid(r.1) && r.0 == Head(Rest(c)) && Rest(r.1) == Tail(Rest(c))
  {
    var (x, c1) := DoNext(c);
    if Truthy(c.buf) && x.Char? then (x, c1.(buf := Some(c.buf.value + [x.c]))) else (x, c1)
  }

  /** The refill loop of `_la`: `n` times, take a character with `_do_next`
      and append it to the peek buffer. `_do_next` serves the peek buffer
      first, so a non-empty buffer is rotated rather than extended. */
  function Refill(c: Cursor, n: nat, last: Ch): (r: (Ch, Cursor))
    ensures r.1.text == c.text && r.1.buf == c.buf && r.1.pos >= c.pos && Left(r.1) == Left(c)
    ensures |c.peeked| == 1 && n > 0 ==> r == (c.peeked[0], c)
    decreases n
  {
    if n == 0 then (last, c)
    else
      var (x, c1) := DoNext(c);
      CountCharsAppend(c1.peeked, x);
      assert |c.peeked| == 1 ==> c1.(peeked := c1.peeked + [x]) == c by {
        if |c.peeked| == 1 {
          assert c1.peeked + [x] == [c.peeked[0]] == c.peeked;
        }
      }
      Refill(c1.(peeked := c1.peeked + [x]), n - 1, x)
  }

  /** `_la(k)`: the k-th buffered character if the buffer holds k of them,
      otherwise the last character of the refill loop. As written the buffer
      never grows beyond one character and every depth answers with the next
      character of the input. */
  function La(c: Cursor, k: nat): (r: (Ch, Cursor))
    requires k >= 1
    ensures r.1.text == c.text && r.1.buf == c.buf && r.1.pos >= c.pos && Left(r.1) == Left(c)
    ensures k == 1 ==> |r.1.peeked| >= 1 && r.1.peeked[0] == r.0
    ensures Valid(c) ==> Valid(r.1) && |r.1.peeked| == 1 && r.0 == Head(Rest(c)) && Rest(r.1) == Rest(c)
  {
    if k <= |c.peeked| then (c.peeked[k - 1], c)
    else
      var r := Refill(c, k - |c.peeked|, End);
      if |c.peeked| == 0 then
        var (x, c1) := DoNext(c);
        CountCharsAppend([], x);
        assert c1.peeked + [x] == [x];
        assert r == Refill(c1.(peeked := [x]), k - 1, x);
        r
      else
        r
  }

  /** How many real characters `_clear_la` consumes from a valid cursor. */
  function Dropped(c: Cursor): nat {
    if |c.peeked| == 1 && c.peeked[0].Char? then 1 else 0
  }

  /** `_clear_la`: consume every peeked character through `_next`. */
  function ClearLa(c: Cursor): (r: Cursor)
    ensures r.text == c.text && r.pos == c.pos && r.peeked == [] && Left(r) <= Left(c)
    ensures !Truthy(c.buf) ==> r.buf == c.buf
    ensures Valid(c) ==> Valid(r) && Dropped(c) <= |Rest(c)| && Rest(r) == Rest(c)[Dropped(c)..]
    ensures Valid(c) && Truthy(c.buf) ==> r.buf == Some(c.buf.value + Rest(c)[..Dropped(c)])
    decreases |c.peeked|
  {
    if |c.peeked| == 0 then
      assert Valid(c) && Truthy(c.buf) ==> c.buf.value + Rest(c)[..Dropped(c)] == c.buf.value;
      c
    else
      assert Valid(c) ==> Rest(c)[..Dropped(c)] == if c.peeked[0].Char? then [c.peeked[0].c] else [];
      assert Valid(c) && Truthy(c.buf) && c.peeked[0].End? ==> c.buf.value + Rest(c)[..Dropped(c)] == c.buf.value;
      ClearLa(Next(c).1)
  }

  /** `_start_buf`: start a fresh text buffer (holding `first`, if given)
      unless the token kind is ignored, in which case nothing changes. */
  function StartBuf(c: Cursor, keep: bool, first: Option<char>): Cursor {
    if keep then c.(buf := Some(if first.Some? then [first.value] else [])) else c
  }

  /** `_clear_buf`: the buffered text (empty unless the buffer is truthy),
      leaving no buffer behind. */
  function ClearBuf(c: Cursor): (string, Cursor) {
    (if Truthy(c.buf) then c.buf.value else "", c.(buf := None))
  }

  /** The i-th character (counting from 0) that the cursor would hand out
      next: the peek buffer first, then the unread text, then the sentinel. */
  function Stream(c: Cursor, i: nat): Ch {
    if i < |c.peeked| then c.peeked[i] else At(c.text, c.pos + (i - |c.peeked|))
  }

  /** The refill loop as evidently intended: append `n` characters read from
      the text itself, answering with the last of them. */
  function RefillFromText(c: Cursor, n: nat): (r: (Ch, Cursor))
    requires n >= 1
    ensures r.0 == Stream(c, |c.peeked| + n - 1)
    ensures forall i: nat :: Stream(r.1, i) == Stream(c, i)
    ensures r.1.text == c.text && r.1.buf == c.buf && r.1.pos >= c.pos
    decreases n
  {
    var x := At(c.text, c.pos);
    var c1 := c.(peeked := c.peeked + [x], pos := if c.pos < |c.text| then c.pos + 1 else c.pos);
    assert forall i: nat :: Stream(c1, i) == Stream(c, i) by {
      forall i: nat
        ensures Stream(c1, i) == Stream(c, i)
      {
        if i > |c.peeked| && c.pos >= |c.text| {
          assert Stream(c1, i) == End == Stream(c, i);
        }
      }
    }
    if n == 1 then (x, c1) else RefillFromText(c1, n - 1)
  }

  /** `_la(k)` as evidently intended: the k-th character ahead, leaving the
      characters still to come unchanged. */
  function LaIntended(c: Cursor, k: nat): (r: (Ch, Cursor))
    requires k >= 1
    ensures r.0 == Stream(c, k - 1)
    ensures forall i: nat :: Stream(r.1, i) == Stream(c, i)
    ensures r.1.text == c.text && r.1.buf == c.buf && r.1.pos >= c.pos
  {
    if k <= |c.peeked| then (c.peeked[k - 1], c) else RefillFromText(c, k - |c.peeked|)
  }

  /** On the text "ab", `_la(2)` as written answers 'a' where the second
      character 'b' is meant. */
  lemma LaDepthTwoAnswersFirst()
    ensures La(Start("ab"), 2).0 == Char('a')
    ensures LaIntended(Start("ab"), 2).0 == Char('b')
  {
    var c := Start("ab");
    assert Rest(c) == "ab";
    assert Stream(c, 1) == Char('b');
  }

  /** At depth one the written and the intended peek coincide on every
      cursor, so a lexer whose delimiters are at most two characters long
      never observes the defect. */
  lemma LaAgreesAtDepthOne(c: Cursor)
    ensures La(c, 1) == LaIntended(c, 1)
  {
    if |c.peeked| == 0 {
      var (x, c1) := DoNext(c);
      assert c1.peeked + [x] == [x];
    }
  }
}
