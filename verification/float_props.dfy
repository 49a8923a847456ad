/** Floats in `_do_num` (fserve/jinja_parse.py:459-514): digits, an
    optional point with digits and an optional `e`/`E` with digits are one
    literal handed to `float()`; a point directly followed by a digit starts
    a literal of its own. The exponent loop takes digits only, so an
    exponent marker without digits, as in `1e-5`, leaves `float('1e')` to
    raise. */
module FloatProps {
  import opened Results
  import opened Tokens
  import opened Chars
  import opened Cursors
  import opened Lexer
  import opened StatementProps
  import opened NumberProps

  /** Every character of `s` is a decimal digit. */
  predicate Decimals(s: string) {
    forall i | 0 <= i < |s| :: IsDecChar(s[i])
  }

  /** The optional fraction of a decimal literal: nothing, or a point and
      the digits after it (possibly none). */
  predicate Fraction(f: string) {
    |f| == 0 || (f[0] == '.' && Decimals(f[1..]))
  }

  /** The optional exponent as the source scans it: nothing, or `e`/`E`
      and the digits after it (possibly none, and never a sign). */
  predicate ExponentMark(x: string) {
    |x| == 0 || ((x[0] == 'e' || x[0] == 'E') && Decimals(x[1..]))
  }

  /** What may follow the literal without extending it: no digit, and no
      exponent marker when the literal has no exponent. */
  predicate StopsLiteral(x: string, tail: string) {
    |tail| > 0 ==> !IsDecChar(tail[0]) && (|x| == 0 ==> tail[0] != 'e' && tail[0] != 'E')
  }

  /** An optional part whose mark comes next: the mark is consumed and
      recorded, and the digit loop follows. */
  lemma MarkTaken(c: Cursor, marks: set<char>) returns (c3: Cursor)
    requires Valid(c) && |Rest(c)| > 0 && Rest(c)[0] in marks
    ensures OptionalPart(c, marks) == (true, SkipWhile(c3, IsDecChar))
    ensures Valid(c3) && Rest(c3) == Rest(c)[1..]
    ensures c3.buf == if Truthy(c.buf) then Some(c.buf.value + [Rest(c)[0]]) else c.buf
  {
    var c1 := La(c, 1).1;
    c3 := Next(c1).1;
  }

  /** An optional part whose mark comes next: the mark and its digits are
      consumed and, in a live buffer, recorded. */
  lemma PartTaken(c: Cursor, marks: set<char>, part: string, more: string) returns (c2: Cursor)
    requires Valid(c) && |part| > 0 && part[0] in marks && Decimals(part[1..])
    requires Rest(c) == part + more && (|more| > 0 ==> !IsDecChar(more[0]))
    ensures OptionalPart(c, marks) == (true, c2)
    ensures Valid(c2) && Rest(c2) == more
    ensures c2.buf == if Truthy(c.buf) then Some(c.buf.value + part) else c.buf
  {
    assert Rest(c)[0] == part[0] && Rest(c)[1..] == part[1..] + more;
    var c3 := MarkTaken(c, marks);
    c2 := DecimalScan(c3, part[1..], more);
    if Truthy(c.buf) {
      AppendHead(c.buf.value, part);
    }
  }

  /** An optional part whose mark does not come next consumes nothing. */
  lemma PartSkipped(c: Cursor, marks: set<char>) returns (c2: Cursor)
    requires Valid(c) && !(|Rest(c)| > 0 && Rest(c)[0] in marks)
    ensures OptionalPart(c, marks) == (false, c2)
    ensures Valid(c2) && Rest(c2) == Rest(c) && c2.buf == c.buf
  {
    c2 := OptionalPart(c, marks).1;
  }

  lemma AppendHead(acc: string, s: string)
    requires |s| > 0
    ensures (acc + [s[0]]) + s[1..] == acc + s
  {
    assert s == [s[0]] + s[1..];
  }

  /** The fraction step of the decimal tail. */
  lemma FractionStep(c: Cursor, f: string, x: string, tail: string) returns (c2: Cursor)
    requires Valid(c) && Fraction(f) && ExponentMark(x) && |f| + |x| > 0 && StopsLiteral(x, tail)
    requires Rest(c) == f + (x + tail)
    ensures OptionalPart(c, {'.'}) == (|f| > 0, c2)
    ensures Valid(c2) && Rest(c2) == x + tail
    ensures c2.buf == if Truthy(c.buf) then Some(c.buf.value + f) else c.buf
  {
    if |f| > 0 {
      c2 := PartTaken(c, {'.'}, f, x + tail);
    } else {
      assert Rest(c) == x + tail && Rest(c)[0] == x[0];
      c2 := PartSkipped(c, {'.'});
      assert Truthy(c.buf) ==> c.buf.value + f == c.buf.value;
    }
  }

  /** The exponent step of the decimal tail. */
  lemma ExponentStep(c: Cursor, x: string, tail: string) returns (c2: Cursor)
    requires Valid(c) && ExponentMark(x) && StopsLiteral(x, tail) && Rest(c) == x + tail
    ensures OptionalPart(c, {'e', 'E'}) == (|x| > 0, c2)
    ensures Valid(c2) && Rest(c2) == tail
    ensures c2.buf == if Truthy(c.buf) then Some(c.buf.value + x) else c.buf
  {
    if |x| > 0 {
      c2 := PartTaken(c, {'e', 'E'}, x, tail);
    } else {
      assert Rest(c) == tail;
      assert !(|tail| > 0 && tail[0] in {'e', 'E'});
      c2 := PartSkipped(c, {'e', 'E'});
      assert Truthy(c.buf) ==> c.buf.value + x == c.buf.value;
    }
  }

  /** After the digits, a fraction or an exponent makes the decimal tail
      hand everything recorded to `float()`. */
  lemma FloatTail(c: Cursor, f: string, x: string, tail: string)
    requires Valid(c) && Fraction(f) && ExponentMark(x) && |f| + |x| > 0 && StopsLiteral(x, tail)
    requires Rest(c) == f + (x + tail)
    ensures var t := if Truthy(c.buf) then c.buf.value + f + x else "";
      var r := DecimalTail(c);
      && (r.Ok? <==> FloatSyntax(t))
      && (r.Ok? ==> r.value.tok == Token(NumLit, t, Float) && Rest(r.value.cur) == tail)
      && (r.Err? ==> r.error == BadLiteral(t))
  {
    var c2 := FractionStep(c, f, x, tail);
    var c4 := ExponentStep(c2, x, tail);
    var (t, c5) := ClearBuf(c4);
    assert DecimalTail(c) == FloatToken(t, c5);
  }

  /** The first index of an exponent marker in `m + x` is the length of
      `m` when `m` has none and `x` starts with one (or is empty). */
  lemma {:induction false} ExpIndexAt(m: string, x: string)
    requires forall i | 0 <= i < |m| :: m[i] != 'e' && m[i] != 'E'
    requires |x| > 0 ==> x[0] == 'e' || x[0] == 'E'
    ensures ExpIndex(m + x) == |m|
    decreases |m|
  {
    if |m| > 0 {
      assert (m + x)[1..] == m[1..] + x;
      ExpIndexAt(m[1..], x);
    } else {
      assert m + x == x;
    }
  }

  /** Digits in a mantissa only record that a digit was seen. */
  lemma {:induction false} MantissaDigits(ds: string, rest: string, point: bool, digit: bool)
    requires Decimals(ds)
    ensures MantissaScan(ds + rest, point, digit) == MantissaScan(rest, point, digit || |ds| > 0)
    decreases |ds|
  {
    if |ds| > 0 {
      assert (ds + rest)[0] == ds[0] && (ds + rest)[1..] == ds[1..] + rest;
      MantissaDigits(ds[1..], rest, point, true);
    } else {
      assert ds + rest == rest;
    }
  }

  /** A digit run is an exponent's digits exactly when it is not empty. */
  lemma {:induction false} RunOfDigits(es: string)
    requires Decimals(es)
    ensures DecimalRun(es) <==> |es| > 0
    decreases |es|
  {
    if |es| > 1 {
      RunOfDigits(es[1..]);
    }
  }

  /** The mantissa of a lexed literal: a digit, more digits and an optional
      fraction. */
  lemma MantissaOf(first: char, ds: string, f: string)
    requires IsDecChar(first) && Decimals(ds) && Fraction(f)
    ensures Mantissa([first] + ds + f)
  {
    var lead := [first] + ds;
    assert Decimals(lead);
    MantissaDigits(lead, f, false, false);
    if |f| > 0 {
      assert f == ['.'] + f[1..];
      MantissaDigits(f[1..], "", true, true);
      assert f[1..] + "" == f[1..];
    }
  }

  /** `float()` accepts the text of a lexed decimal literal exactly when
      its exponent marker, if any, has digits. */
  lemma FloatSyntaxOfLiteral(first: char, ds: string, f: string, x: string)
    requires IsDecChar(first) && Decimals(ds) && Fraction(f) && ExponentMark(x)
    ensures FloatSyntax([first] + ds + f + x) <==> |x| != 1
  {
    var m := [first] + ds + f;
    var s := m + x;
    assert s[0] == first;
    forall i | 0 <= i < |m|
      ensures m[i] != 'e' && m[i] != 'E'
    {
      if i == 0 {
      } else if i < 1 + |ds| {
        assert m[i] == ds[i - 1];
      } else {
        assert m[i] == f[i - 1 - |ds|];
        assert i - 1 - |ds| == 0 || f[i - 1 - |ds|] == f[1..][i - 2 - |ds|];
      }
    }
    ExpIndexAt(m, x);
    assert s[..|m|] == m;
    MantissaOf(first, ds, f);
    if |x| > 0 {
      assert s[|m| + 1..] == x[1..];
      RunOfDigits(x[1..]);
      assert x[1..] == [] || (x[1..][0] != '-' && x[1..][0] != '+');
    }
  }

  /** The digits of a decimal float: they are consumed and, unless number
      tokens are ignored, recorded after the first digit; the decimal tail
      follows. */
  lemma FloatDigits(ign: set<Kind>, c: Cursor, first: char, ds: string, more: string) returns (c2: Cursor)
    requires Valid(c) && !Truthy(c.buf) && IsDecChar(first) && Decimals(ds)
    requires |more| > 0 && (more[0] == '.' || more[0] == 'e' || more[0] == 'E')
    requires Rest(c) == ds + more
    ensures LexNumber(ign, c, first) == DecimalTail(c2)
    ensures Valid(c2) && Rest(c2) == more
    ensures c2.buf == if NumLit in ign then c.buf else Some([first] + ds)
  {
    NumberStart(ign, c, first);
    var c0 := StartBuf(c, NumLit !in ign, Some(first));
    NoRadixAhead(ds, more);
    c2 := DecimalDigits(c0, first, ds, more);
  }

  /** Digits followed by a point or an exponent marker: no radix letter
      comes first, and the digits end where the point or marker starts. */
  lemma NoRadixAhead(ds: string, more: string)
    requires Decimals(ds) && |more| > 0 && (more[0] == '.' || more[0] == 'e' || more[0] == 'E')
    ensures |ds + more| > 0 && !RadixLetter((ds + more)[0]) && !IsDecChar(more[0])
  {
    if |ds| > 0 {
      assert (ds + more)[0] == ds[0];
    } else {
      assert ds + more == more;
    }
  }

  /** `float('')` raises. */
  lemma EmptyFloat()
    ensures !FloatSyntax("")
  {
    assert ExpIndex("") == 0;
  }

  /** A decimal float: the digits `first` and `ds`, a fraction `f` and an
      exponent `x`, at least one of the two present, are one number token
      holding that text, unless the exponent marker has no digits, when
      `float()` rejects the text; when number tokens are ignored no text is
      recorded and `float('')` raises. */
  lemma FloatLiteral(ign: set<Kind>, c: Cursor, first: char, ds: string, f: string, x: string, tail: string)
    requires Valid(c) && !Truthy(c.buf) && IsDecChar(first) && Decimals(ds)
    requires Fraction(f) && ExponentMark(x) && |f| + |x| > 0 && StopsLiteral(x, tail)
    requires Rest(c) == ds + (f + (x + tail))
    ensures var r := LexNumber(ign, c, first);
      var t := [first] + ds + f + x;
      && (NumLit !in ign && |x| != 1 ==> r.Ok? && r.value.tok == Token(NumLit, t, Float) && Rest(r.value.cur) == tail)
      && (NumLit !in ign && |x| == 1 ==> r == Err(BadLiteral(t)))
      && (NumLit in ign ==> r == Err(BadLiteral("")))
  {
    var c2 := FloatDigits(ign, c, first, ds, f + (x + tail));
    FloatTail(c2, f, x, tail);
    FloatSyntaxOfLiteral(first, ds, f, x);
    EmptyFloat();
  }

  /** A decimal float at the level of `_do_statement`. */
  lemma FloatNumber(ign: set<Kind>, c: Cursor, term: string, endKind: Kind, first: char, ds: string, f: string, x: string, tail: string)
    requires endKind == StatementEnd || endKind == InlineEnd
    requires Valid(c) && !Truthy(c.buf) && IsDecChar(first) && Decimals(ds)
    requires Fraction(f) && ExponentMark(x) && |f| + |x| > 0 && StopsLiteral(x, tail)
    requires Rest(c) == [first] + (ds + (f + (x + tail))) && !EndsAt(term, Rest(c))
    ensures var r := LexStatement(ign, c, term, endKind);
      var t := [first] + ds + f + x;
      && (NumLit !in ign && |x| != 1 ==> r.Ok? && r.value.tok == Token(NumLit, t, Float) && Rest(r.value.cur) == tail)
      && (NumLit !in ign && |x| == 1 ==> r == Err(BadLiteral(t)))
      && (NumLit in ign ==> r == Err(BadLiteral("")))
  {
    SplitFirst(first, ds + (f + (x + tail)));
    var c2 := NotEnded(ign, c, term, endKind);
    ClassifyDigit(ign, c2, first);
    FloatLiteral(ign, c2, first, ds, f, x, tail);
  }

  /** `float()` accepts a point followed by digits. */
  lemma PointSyntax(fs: string)
    requires |fs| > 0 && Decimals(fs)
    ensures FloatSyntax(['.'] + fs)
  {
    var s := ['.'] + fs;
    forall i | 0 <= i < |s|
      ensures s[i] != 'e' && s[i] != 'E'
    {
      if i > 0 {
        assert s[i] == fs[i - 1];
      }
    }
    ExpIndexAt(s, "");
    assert s + "" == s && s[..|s|] == s;
    assert MantissaScan(s, false, false) == MantissaScan(fs, true, false);
    MantissaDigits(fs, "", true, false);
    assert fs + "" == fs;
  }

  /** The leading-point branch of `_do_num`: the digits after the point
      and nothing else, handed to `float()`. */
  lemma PointNumber(ign: set<Kind>, c: Cursor, fs: string, tail: string)
    requires Valid(c) && !Truthy(c.buf) && |fs| > 0 && Decimals(fs) && (|tail| > 0 ==> !IsDecChar(tail[0]))
    requires Rest(c) == fs + tail
    ensures var r := LexNumber(ign, c, '.');
      && (NumLit !in ign ==> r.Ok? && r.value.tok == Token(NumLit, ['.'] + fs, Float) && Rest(r.value.cur) == tail)
      && (NumLit in ign ==> r == Err(BadLiteral("")))
  {
    NumberStart(ign, c, '.');
    var c0 := StartBuf(c, NumLit !in ign, Some('.'));
    var c3 := DecimalScan(c0, fs, tail);
    PointSyntax(fs);
    EmptyFloat();
  }

  /** A point directly followed by a digit goes to the number lexer
      without consuming anything more. */
  lemma PointOperator(ign: set<Kind>, c: Cursor) returns (c1: Cursor)
    requires Valid(c) && |Rest(c)| > 0 && IsDecChar(Rest(c)[0])
    ensures Operator(ign, c, '.') == LexNumber(ign, c1, '.')
    ensures Valid(c1) && Rest(c1) == Rest(c) && c1.buf == c.buf
  {
    c1 := La(c, 1).1;
  }

  /** Inside a statement a point directly followed by digits is a float
      literal of those characters only: the leading-point branch of the
      number lexer takes digits and nothing else. When number tokens are
      ignored `float('')` raises. */
  lemma LeadingPoint(ign: set<Kind>, c: Cursor, term: string, endKind: Kind, fs: string, tail: string)
    requires endKind == StatementEnd || endKind == InlineEnd
    requires Valid(c) && !Truthy(c.buf) && |fs| > 0 && Decimals(fs) && (|tail| > 0 ==> !IsDecChar(tail[0]))
    requires Rest(c) == ['.'] + (fs + tail) && !EndsAt(term, Rest(c))
    ensures var r := LexStatement(ign, c, term, endKind);
      && (NumLit !in ign ==> r.Ok? && r.value.tok == Token(NumLit, ['.'] + fs, Float) && Rest(r.value.cur) == tail)
      && (NumLit in ign ==> r == Err(BadLiteral("")))
  {
    SplitFirst('.', fs + tail);
    var c2 := NotEnded(ign, c, term, endKind);
    ClassifyOperator(ign, c2, '.');
    var c1 := PointOperator(ign, c2);
    PointNumber(ign, c1, fs, tail);
  }

  /** A signed exponent does not lex: the exponent loop stops at the sign,
      and `float()` rejects the digits with a bare `e`, as in `1e-5`. */
  lemma SignedExponent(ign: set<Kind>, c: Cursor, term: string, endKind: Kind, first: char, sign: char, tail: string)
    requires endKind == StatementEnd || endKind == InlineEnd
    requires Valid(c) && !Truthy(c.buf) && IsDecChar(first) && (sign == '-' || sign == '+')
    requires Rest(c) == [first, 'e', sign] + tail && !EndsAt(term, Rest(c))
    ensures NumLit !in ign ==> LexStatement(ign, c, term, endKind) == Err(BadLiteral([first, 'e']))
  {
    assert Rest(c) == [first] + ("" + ("" + ("e" + ([sign] + tail))));
    FloatNumber(ign, c, term, endKind, first, "", "", "e", [sign] + tail);
    assert [first] + "" + "" + "e" == [first, 'e'];
  }
}
