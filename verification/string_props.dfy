/** Properties of `_do_str` (fserve/jinja_parse.py:360-449): a quoted
    string written with the only escapes that survive, `\n` and `\r`, lexes
    back to its value, with the quoted source span as the token text; any
    other escape raises, and input ending inside the string yields EOF. */
module StringProps {
  import opened Results
  import opened Tokens
  import opened Chars
  import opened Cursors
  import opened Lexer
  import opened StatementProps

  /** The source spelling of the value `v` inside quotes: newline and
      carriage return as the escapes `\n` and `\r`, every other character
      as itself. */
  function Escaped(v: string): (e: string)
    ensures |e| >= |v|
  {
    if |v| == 0 then []
    else Spelling(v[0]) + Escaped(v[1..])
  }

  /** The values `Escaped` can spell between the quotes `q`: no quote and no
      backslash. */
  predicate Encodable(v: string, q: char) {
    forall i | 0 <= i < |v| :: v[i] != q && v[i] != '\\'
  }

  /** One plain character of the string body is added to the value. */
  lemma PlainStep(c: Cursor, q: char, val: string)
    requires Valid(c) && |Rest(c)| > 0 && Rest(c)[0] != q && Rest(c)[0] != '\\'
    ensures var c1 := Next(c).1;
      && Valid(c1) && Rest(c1) == Rest(c)[1..]
      && c1.buf == (if Truthy(c.buf) then Some(c.buf.value + [Rest(c)[0]]) else c.buf)
      && StringBody(c, q, val) == StringBody(c1, q, val + [Rest(c)[0]])
  {
  }

  /** The escapes `\n` and `\r` add a newline and a carriage return. */
  lemma EscapeStep(c: Cursor, q: char, val: string)
    requires Valid(c) && |Rest(c)| >= 2 && q != '\\' && Rest(c)[0] == '\\' && (Rest(c)[1] == 'n' || Rest(c)[1] == 'r')
    ensures var c2 := Next(Next(c).1).1;
      && Valid(c2) && Rest(c2) == Rest(c)[2..]
      && c2.buf == (if Truthy(c.buf) then Some(c.buf.value + Rest(c)[..2]) else c.buf)
      && StringBody(c, q, val) == StringBody(c2, q, val + (if Rest(c)[1] == 'n' then "\n" else "\r"))
  {
    var c2 := TwoChars(c);
  }

  /** Reading two characters: what `Next` answers each time, and the
      buffer recording both. */
  lemma TwoChars(c: Cursor) returns (c2: Cursor)
    requires Valid(c) && |Rest(c)| >= 2
    ensures Next(c).0 == Char(Rest(c)[0]) && Next(Next(c).1).0 == Char(Rest(c)[1])
    ensures c2 == Next(Next(c).1).1 && Valid(c2) && Rest(c2) == Rest(c)[2..]
    ensures c2.buf == (if Truthy(c.buf) then Some(c.buf.value + Rest(c)[..2]) else c.buf)
  {
    TwoHeads(Rest(c));
    var c1 := OneChar(c);
    c2 := OneChar(c1);
    if Truthy(c.buf) {
      RecordPair(c.buf.value, Rest(c));
    }
  }

  /** Recording the first two characters of `s` one at a time. */
  lemma RecordPair(buf: string, s: string)
    requires |s| >= 2
    ensures buf + [s[0]] + [s[1]] == buf + s[..2]
  {
    assert s[..2] == [s[0], s[1]];
  }

  /** Reading one character. */
  lemma OneChar(c: Cursor) returns (c1: Cursor)
    requires Valid(c) && |Rest(c)| >= 1
    ensures Next(c).0 == Char(Rest(c)[0]) && c1 == Next(c).1 && Valid(c1) && Rest(c1) == Rest(c)[1..]
    ensures c1.buf == (if Truthy(c.buf) then Some(c.buf.value + [Rest(c)[0]]) else c.buf)
  {
    c1 := Next(c).1;
  }

  /** The spelling of a non-empty value: its first character's spelling,
      then the rest. */
  lemma EscapedCons(v: string, more: string)
    requires |v| > 0
    ensures Escaped(v) + more == Spelling(v[0]) + (Escaped(v[1..]) + more)
  {
  }

  /** The buffer after recording `a` and then `b`. */
  lemma RecordTwice(buf: string, a: string, b: string)
    ensures (buf + a) + b == buf + (a + b)
  {
  }

  /** The spelling of one character. */
  function Spelling(x: char): string {
    if x == '\n' then "\\n" else if x == '\r' then "\\r" else [x]
  }

  /** A string body as `_do_str` reads it between the quotes `q`: no
      quote, and every backslash starts one of the escapes `\n` and `\r`.
      Any other character, a raw newline included, stands for itself. */
  predicate WellFormed(s: string, q: char)
    decreases |s|
  {
    if |s| == 0 then true
    else if s[0] == q then false
    else if s[0] == '\\' then |s| >= 2 && (s[1] == 'n' || s[1] == 'r') && WellFormed(s[2..], q)
    else WellFormed(s[1..], q)
  }

  /** The value a body stands for: `\n` and `\r` are a newline and a
      carriage return, every other character is itself. */
  function Decode(s: string): string
    decreases |s|
  {
    if |s| >= 2 && s[0] == '\\' && s[1] == 'n' then "\n" + Decode(s[2..])
    else if |s| >= 2 && s[0] == '\\' && s[1] == 'r' then "\r" + Decode(s[2..])
    else if |s| > 0 then [s[0]] + Decode(s[1..])
    else ""
  }

  /** Reading an escape at the front of a body. */
  lemma ReadEscape(c: Cursor, q: char, val: string, s: string, more: string) returns (c1: Cursor)
    requires Valid(c) && q != '\\' && |s| >= 2 && s[0] == '\\' && (s[1] == 'n' || s[1] == 'r')
    requires Rest(c) == s + more
    ensures Valid(c1) && Rest(c1) == s[2..] + more
    ensures c1.buf == if Truthy(c.buf) then Some(c.buf.value + s[..2]) else c.buf
    ensures StringBody(c, q, val) == StringBody(c1, q, val + (if s[1] == 'n' then "\n" else "\r"))
  {
    assert Rest(c)[..2] == s[..2] && Rest(c)[2..] == s[2..] + more;
    EscapeStep(c, q, val);
    c1 := Next(Next(c).1).1;
  }

  /** Reading a character at the front of a body that is neither the
      quote nor a backslash. */
  lemma ReadPlain(c: Cursor, q: char, val: string, s: string, more: string) returns (c1: Cursor)
    requires Valid(c) && |s| >= 1 && s[0] != q && s[0] != '\\' && Rest(c) == s + more
    ensures Valid(c1) && Rest(c1) == s[1..] + more
    ensures c1.buf == if Truthy(c.buf) then Some(c.buf.value + [s[0]]) else c.buf
    ensures StringBody(c, q, val) == StringBody(c1, q, val + [s[0]])
  {
    assert Rest(c)[0] == s[0] && Rest(c)[1..] == s[1..] + more;
    PlainStep(c, q, val);
    c1 := Next(c).1;
  }

  lemma DecodeEscape(s: string)
    requires |s| >= 2 && s[0] == '\\' && (s[1] == 'n' || s[1] == 'r')
    ensures Decode(s) == (if s[1] == 'n' then "\n" else "\r") + Decode(s[2..])
  {
  }

  lemma DecodePlain(s: string)
    requires |s| >= 1 && s[0] != '\\'
    ensures Decode(s) == [s[0]] + Decode(s[1..]) && s[..1] == [s[0]]
  {
  }

  /** Recording the first `k` characters of `s` and then the rest. */
  lemma RecordSplit(buf: string, s: string, k: nat)
    requires k <= |s|
    ensures (buf + s[..k]) + s[k..] == buf + s
  {
    assert s[..k] + s[k..] == s;
  }

  /** Reading a body adds its decoded value to the value and, in a live
      buffer, records the body as written. */
  lemma {:induction false} ReadBody(c: Cursor, q: char, val: string, s: string, more: string) returns (c2: Cursor)
    requires Valid(c) && q != '\\' && WellFormed(s, q) && Rest(c) == s + more
    ensures Valid(c2) && Rest(c2) == more
    ensures c2.buf == if Truthy(c.buf) then Some(c.buf.value + s) else c.buf
    ensures StringBody(c, q, val) == StringBody(c2, q, val + Decode(s))
    decreases |s|
  {
    if |s| == 0 {
      c2 := c;
      assert val + Decode(s) == val;
      assert Truthy(c.buf) ==> c.buf.value + s == c.buf.value;
    } else {
      var k: nat, c1: Cursor, d: string;
      if s[0] == '\\' {
        k, d := 2, if s[1] == 'n' then "\n" else "\r";
        c1 := ReadEscape(c, q, val, s, more);
        DecodeEscape(s);
      } else {
        k, d := 1, [s[0]];
        c1 := ReadPlain(c, q, val, s, more);
        DecodePlain(s);
      }
      c2 := ReadBody(c1, q, val + d, s[k..], more);
      RecordTwice(val, d, Decode(s[k..]));
      if Truthy(c.buf) {
        RecordSplit(c.buf.value, s, k);
      }
    }
  }

  /** The spelling of a value is a body that decodes back to the value. */
  lemma {:induction false} EscapedDecodes(v: string, q: char)
    requires q != '\\' && Encodable(v, q)
    ensures WellFormed(Escaped(v), q) && Decode(Escaped(v)) == v
    decreases |v|
  {
    if |v| > 0 {
      assert Encodable(v[1..], q);
      EscapedDecodes(v[1..], q);
      SpellingDecodes(v[0], Escaped(v[1..]), q);
      AppendHead("", v);
    }
  }

  /** The spelling of one character in front of a body. */
  lemma SpellingDecodes(x: char, rest: string, q: char)
    requires q != '\\' && x != q && x != '\\'
    ensures WellFormed(Spelling(x) + rest, q) == WellFormed(rest, q)
    ensures Decode(Spelling(x) + rest) == [x] + Decode(rest)
  {
    var e := Spelling(x) + rest;
    if x == '\n' || x == '\r' {
      assert e[0] == '\\' && e[1] == Spelling(x)[1] && e[2..] == rest;
    } else {
      assert e[0] == x && e[1..] == rest;
    }
  }


  /** Moving the head of `s` onto the end of `acc`. */
  lemma AppendHead(acc: string, s: string)
    requires |s| > 0
    ensures (acc + [s[0]]) + s[1..] == acc + s
  {
    assert s == [s[0]] + s[1..];
  }

  /** The closing quote ends the string with the recorded text. */
  lemma Close(c: Cursor, q: char, val: string)
    requires Valid(c) && |Rest(c)| > 0 && Rest(c)[0] == q
    ensures var r := StringBody(c, q, val);
      && r.Ok? && r.value.tok == Token(StrLit, if Truthy(c.buf) then c.buf.value + [q] else "", Str(val))
      && Rest(r.value.cur) == Rest(c)[1..]
  {
  }

  /** `_do_str` starts its buffer with the quote, unless strings are
      ignored, and enters its loop. */
  lemma StringStart(ign: set<Kind>, c: Cursor, q: char) returns (c0: Cursor)
    requires Valid(c)
    ensures LexString(ign, c, q) == StringBody(c0, q, "")
    ensures Valid(c0) && Rest(c0) == Rest(c)
    ensures c0.buf == if StrLit in ign then c.buf else Some([q])
  {
    c0 := StartBuf(c, StrLit !in ign, Some(q));
  }

  /** A quoted body lexes to a string token of its decoded value, whose
      text is the body between its quotes, or empty when string tokens are
      ignored; the cursor stops right after the closing quote. */
  lemma BodyToken(ign: set<Kind>, c: Cursor, q: char, s: string, tail: string)
    requires Valid(c) && !Truthy(c.buf) && (q == '"' || q == '\'') && WellFormed(s, q)
    requires Rest(c) == s + ([q] + tail)
    ensures var r := LexString(ign, c, q);
      && r.Ok? && r.value.tok == Token(StrLit, if StrLit in ign then "" else [q] + s + [q], Str(Decode(s)))
      && Rest(r.value.cur) == tail
  {
    var c0 := StringStart(ign, c, q);
    BodyClose(c0, q, s, tail);
  }

  /** The loop over a body and its closing quote. */
  lemma BodyClose(c0: Cursor, q: char, s: string, tail: string)
    requires Valid(c0) && (q == '"' || q == '\'') && WellFormed(s, q) && Rest(c0) == s + ([q] + tail)
    ensures var r := StringBody(c0, q, "");
      && r.Ok? && r.value.tok == Token(StrLit, if Truthy(c0.buf) then c0.buf.value + s + [q] else "", Str(Decode(s)))
      && Rest(r.value.cur) == tail
  {
    var c2 := ReadBody(c0, q, "", s, [q] + tail);
    assert "" + Decode(s) == Decode(s);
    Close(c2, q, Decode(s));
    assert ([q] + tail)[1..] == tail;
  }

  /** Round trip: the spelling of `v` between quotes lexes to a string
      token whose value is `v` and whose text is the quoted spelling, or
      empty when string tokens are ignored; the cursor stops right after the
      closing quote. */
  lemma RoundTrip(ign: set<Kind>, c: Cursor, q: char, v: string, tail: string)
    requires Valid(c) && !Truthy(c.buf) && (q == '"' || q == '\'') && Encodable(v, q)
    requires Rest(c) == Escaped(v) + ([q] + tail)
    ensures var r := LexString(ign, c, q);
      && r.Ok? && r.value.tok == Token(StrLit, if StrLit in ign then "" else [q] + Escaped(v) + [q], Str(v))
      && Rest(r.value.cur) == tail
  {
    EscapedDecodes(v, q);
    BodyToken(ign, c, q, Escaped(v), tail);
  }

  /** An escape other than `\n` and `\r` after a well-formed body raises
      where the source compares the character with `'\n' | '\r'`. */
  lemma BadEscape(ign: set<Kind>, c: Cursor, q: char, s: string, e: char, tail: string)
    requires Valid(c) && (q == '"' || q == '\'') && WellFormed(s, q) && e != 'n' && e != 'r'
    requires Rest(c) == s + (['\\', e] + tail)
    ensures LexString(ign, c, q) == Err(EscapeTypeError(e))
  {
    var c0 := StringStart(ign, c, q);
    var c2 := ReadBody(c0, q, "", s, ['\\', e] + tail);
    var c3 := Next(c2).1;
    assert Head(Rest(c3)) == Char(e);
  }

  /** Input that ends inside the string, after a well-formed body and
      possibly a backslash, yields the end-of-input token with all input
      consumed. */
  lemma Unterminated(ign: set<Kind>, c: Cursor, q: char, s: string, last: string)
    requires Valid(c) && (q == '"' || q == '\'') && WellFormed(s, q) && (last == [] || last == ['\\'])
    requires Rest(c) == s + last
    ensures var r := LexString(ign, c, q);
      r.Ok? && r.value.tok == Plain(Eof, "") && Rest(r.value.cur) == []
  {
    var c0 := StringStart(ign, c, q);
    BodyEnds(c0, q, s, last);
  }

  /** The loop over a body that the input ends in. */
  lemma BodyEnds(c0: Cursor, q: char, s: string, last: string)
    requires Valid(c0) && (q == '"' || q == '\'') && WellFormed(s, q) && (last == [] || last == ['\\'])
    requires Rest(c0) == s + last
    ensures var r := StringBody(c0, q, "");
      r.Ok? && r.value.tok == Plain(Eof, "") && Rest(r.value.cur) == []
  {
    var c2 := ReadBody(c0, q, "", s, last);
    EndInside(c2, q, "" + Decode(s), last);
  }

  /** The input ends inside the string, possibly right after a backslash. */
  lemma EndInside(c: Cursor, q: char, val: string, last: string)
    requires Valid(c) && q != '\\' && (last == [] || last == ['\\']) && Rest(c) == last
    ensures var r := StringBody(c, q, val);
      r.Ok? && r.value.tok == Plain(Eof, "") && Rest(r.value.cur) == []
  {
    if last == ['\\'] {
      var c1 := OneChar(c);
      assert Rest(c1) == [];
    }
  }

  /** Inside a statement a quote starts a string literal. */
  lemma ClassifyQuote(ign: set<Kind>, c: Cursor, q: char)
    requires q == '"' || q == '\''
    ensures Classify(ign, c, q) == LexString(ign, c, q)
  {
    assert Punctuation(q).None? && !OperatorChar(q);
    assert Classify(ign, c, q) == Word(ign, c, q);
  }

  /** At the level of `_do_statement`: a quoted well-formed body is one
      string token of its decoded value, spelled as written. */
  lemma StringToken(ign: set<Kind>, c: Cursor, term: string, endKind: Kind, q: char, s: string, tail: string)
    requires endKind == StatementEnd || endKind == InlineEnd
    requires Valid(c) && !Truthy(c.buf) && (q == '"' || q == '\'') && WellFormed(s, q)
    requires Rest(c) == [q] + (s + ([q] + tail)) && !EndsAt(term, Rest(c))
    ensures var r := LexStatement(ign, c, term, endKind);
      && r.Ok? && r.value.tok == Token(StrLit, if StrLit in ign then "" else [q] + s + [q], Str(Decode(s)))
      && Rest(r.value.cur) == tail
  {
    var c2 := NotEnded(ign, c, term, endKind);
    ClassifyQuote(ign, c2, q);
    BodyToken(ign, c2, q, s, tail);
  }

  /** A body with no backslash stands for itself, line breaks included. */
  lemma {:induction false} Verbatim(s: string, q: char)
    requires Encodable(s, q)
    ensures WellFormed(s, q) && Decode(s) == s
    decreases |s|
  {
    if |s| > 0 {
      assert Encodable(s[1..], q);
      Verbatim(s[1..], q);
      AppendHead("", s);
    }
  }

  /** Characters between the quotes other than the quote and the backslash,
      raw line breaks among them, are kept as they stand in the value and
      in the token text. */
  lemma VerbatimToken(ign: set<Kind>, c: Cursor, q: char, s: string, tail: string)
    requires Valid(c) && !Truthy(c.buf) && (q == '"' || q == '\'') && Encodable(s, q)
    requires Rest(c) == s + ([q] + tail)
    ensures var r := LexString(ign, c, q);
      && r.Ok? && r.value.tok == Token(StrLit, if StrLit in ign then "" else [q] + s + [q], Str(s))
      && Rest(r.value.cur) == tail
  {
    Verbatim(s, q);
    BodyToken(ign, c, q, s, tail);
  }
}
