/** Properties of `_do_num` (fserve/jinja_parse.py:451-514): a run of
    decimal digits is an integer of its positional value, a `0x` or `0o`
    prefix selects radix 16 or 8, `0b` always fails, and a point or an
    exponent makes the literal a float. When number tokens are ignored no
    text is buffered and `int('')` rejects the literal. */
module NumberProps {
  import opened Results
  import opened Tokens
  import opened Chars
  import opened Cursors
  import opened Lexer
  import opened StatementProps

  /** Every character of `s` is a digit of `radix`. */
  predicate DigitsIn(s: string, radix: nat) {
    forall i | 0 <= i < |s| :: DigitValue(s[i]) < radix
  }

  /** The longest prefix of `ds + tail` satisfying `p` is `ds` when the
      tail does not continue it. */
  lemma {:induction false} SpanStops(ds: string, tail: string, p: char -> bool)
    requires forall i | 0 <= i < |ds| :: p(ds[i])
    requires |tail| > 0 ==> !p(tail[0])
    ensures Span(ds + tail, p) == |ds|
    decreases |ds|
  {
    if |ds| > 0 {
      assert (ds + tail)[1..] == ds[1..] + tail;
      SpanStops(ds[1..], tail, p);
    } else {
      assert ds + tail == tail;
    }
  }

  /** For radix 8, 10 and 16 the digit loop of `_do_num` is a plain skip
      over the characters whose weight is below the radix. */
  lemma {:induction false} SkipDigitsSpan(c: Cursor, radix: int, p: char -> bool)
    requires Valid(c) && radix in {8, 10, 16}
    requires forall ch: char :: p(ch) == (DigitValue(ch) < radix)
    ensures SkipDigits(c, radix) == Ok(SkipWhile(c, p))
    decreases Left(c)
  {
    var (y, c1) := La(c, 1);
    if y.Char? {
      DigitsByWeight(y.c, radix);
      if p(y.c) {
        SkipDigitsSpan(Next(c1).1, radix, p);
      }
    }
  }

  /** `int(s, 10)` of a non-empty run of decimal digits is its positional
      value. */
  lemma IntOfDecimal(s: string)
    requires |s| > 0 && forall i | 0 <= i < |s| :: IsDecChar(s[i])
    ensures IntOf(s, 10) == Some(DigitsValue(s, 10))
  {
  }

  /** `int(s, radix)` of a prefixed literal is the positional value of the
      digits after the prefix, and fails when there are none. */
  lemma IntOfPrefixed(b: char, radix: nat, hs: string)
    requires || (radix == 16 && (b == 'x' || b == 'X')) || (radix == 8 && (b == 'o' || b == 'O'))
             || (radix == 2 && (b == 'b' || b == 'B'))
    requires DigitsIn(hs, radix)
    ensures IntOf(['0', b] + hs, radix) == if |hs| > 0 then Some(DigitsValue(hs, radix)) else None
  {
    var s := ['0', b] + hs;
    assert s[2..] == hs;
  }

  /** Whether `x` after a leading zero selects a radix. */
  predicate RadixLetter(x: char) {
    x == 'x' || x == 'X' || x == 'b' || x == 'B' || x == 'o' || x == 'O'
  }

  /** No radix prefix: radix 10 and nothing consumed. */
  lemma NoRadixPrefix(c: Cursor, first: char)
    requires Valid(c) && IsDecChar(first)
    requires first == '0' && |Rest(c)| > 0 ==> !RadixLetter(Rest(c)[0])
    ensures var (radix, c1) := RadixPrefix(c, first);
      radix == 10 && Valid(c1) && Rest(c1) == Rest(c) && c1.buf == c.buf
  {
  }

  /** A radix prefix: its letter is consumed and recorded. */
  lemma RadixPrefixLetter(c: Cursor, b: char)
    requires Valid(c) && |Rest(c)| > 0 && Rest(c)[0] == b && RadixLetter(b)
    ensures var (radix, c1) := RadixPrefix(c, '0');
      && radix == (if b == 'x' || b == 'X' then 16 else if b == 'b' || b == 'B' then 2 else 8)
      && Valid(c1) && Rest(c1) == Rest(c)[1..]
      && c1.buf == (if Truthy(c.buf) then Some(c.buf.value + [b]) else c.buf)
  {
  }

  /** Without a point or exponent the decimal tail is `int(value)`. */
  lemma IntegerTail(c: Cursor)
    requires Valid(c) && !(|Rest(c)| > 0 && (Rest(c)[0] == '.' || Rest(c)[0] == 'e' || Rest(c)[0] == 'E'))
    ensures var t := BufOf(c.buf);
      var r := DecimalTail(c);
      && (IntOf(t, 10).Some? ==>
            r.Ok? && r.value.tok == Token(NumLit, t, Int(IntOf(t, 10).value)) && Rest(r.value.cur) == Rest(c))
      && (IntOf(t, 10).None? ==> r == Err(BadLiteral(t)))
  {
    var (frac, c2) := OptionalPart(c, {'.'});
    assert !frac && Valid(c2) && Rest(c2) == Rest(c) && c2.buf == c.buf;
    var (exp, c4) := OptionalPart(c2, {'e', 'E'});
    assert !exp && Valid(c4) && Rest(c4) == Rest(c) && c4.buf == c.buf;
    assert DecimalTail(c) == IntToken(BufOf(c.buf), 10, c4.(buf := None));
  }

  /** The decimal tail yields a float exactly when a point or exponent
      marker follows the digits. */
  lemma FloatIff(c: Cursor)
    requires Valid(c)
    ensures var r := DecimalTail(c);
      r.Ok? ==> (r.value.tok.value == Float <==>
        |Rest(c)| > 0 && (Rest(c)[0] == '.' || Rest(c)[0] == 'e' || Rest(c)[0] == 'E'))
  {
    var (frac, c2) := OptionalPart(c, {'.'});
    var (exp, c4) := OptionalPart(c2, {'e', 'E'});
    var (t, c5) := ClearBuf(c4);
    if frac || exp {
      assert DecimalTail(c) == FloatToken(t, c5);
    } else {
      assert Rest(c2) == Rest(c);
      assert DecimalTail(c) == IntToken(t, 10, c5);
    }
  }

  /** The body of `_do_num` for a decimal first digit without a radix
      prefix: skip the digits, then the decimal tail. */
  lemma DecimalBody(c: Cursor, first: char)
    requires Valid(c) && IsDecChar(first)
    requires first == '0' && |Rest(c)| > 0 ==> !RadixLetter(Rest(c)[0])
    ensures var c1 := RadixPrefix(c, first).1;
      NumberBody(c, first) == DecimalTail(SkipWhile(c1, IsDecChar))
  {
    NoRadixPrefix(c, first);
    SkipDigitsSpan(RadixPrefix(c, first).1, 10, IsDecChar);
    DecimalUnfold(c, first);
  }

  /** Without a radix prefix the decimal digits are skipped and the decimal
      tail follows. */
  lemma DecimalUnfold(c: Cursor, first: char)
    requires first != '.'
    ensures var (radix, c1) := RadixPrefix(c, first);
      radix == 10 ==> (NumberBody(c, first) ==
        match SkipDigits(c1, 10)
        case Err(e) => Err(e)
        case Ok(c2) => DecimalTail(c2))
  {
  }

  /** The scan of a decimal literal's digits: all of `ds` is consumed and,
      in a live buffer, recorded after the first digit. */
  lemma DecimalDigits(c: Cursor, first: char, ds: string, tail: string) returns (c2: Cursor)
    requires Valid(c) && IsDecChar(first) && (forall i | 0 <= i < |ds| :: IsDecChar(ds[i]))
    requires Rest(c) == ds + tail && (|tail| > 0 ==> !IsDecChar(tail[0]))
    requires first == '0' && |Rest(c)| > 0 ==> !RadixLetter(Rest(c)[0])
    ensures NumberBody(c, first) == DecimalTail(c2)
    ensures Valid(c2) && Rest(c2) == tail
    ensures c2.buf == if Truthy(c.buf) then Some(c.buf.value + ds) else c.buf
  {
    DecimalBody(c, first);
    NoRadixPrefix(c, first);
    c2 := DecimalScan(RadixPrefix(c, first).1, ds, tail);
  }

  /** Skipping the decimal digits `ds` followed by a non-digit. */
  lemma DecimalScan(c1: Cursor, ds: string, tail: string) returns (c2: Cursor)
    requires Valid(c1) && (forall i | 0 <= i < |ds| :: IsDecChar(ds[i]))
    requires Rest(c1) == ds + tail && (|tail| > 0 ==> !IsDecChar(tail[0]))
    ensures c2 == SkipWhile(c1, IsDecChar) && Valid(c2) && Rest(c2) == tail
    ensures c2.buf == if Truthy(c1.buf) then Some(c1.buf.value + ds) else c1.buf
  {
    c2 := SkipWhile(c1, IsDecChar);
    SkipWhileSpan(c1, IsDecChar);
    SpanStops(ds, tail, IsDecChar);
    assert (ds + tail)[|ds|..] == tail && (ds + tail)[..|ds|] == ds;
  }

  lemma DigitsCons(first: char, ds: string)
    requires IsDecChar(first) && forall i | 0 <= i < |ds| :: IsDecChar(ds[i])
    ensures forall i | 0 <= i < |[first] + ds| :: IsDecChar(([first] + ds)[i])
  {
  }

  /** `_do_num` for a first character other than a sign: the buffer is
      started with it unless number tokens are ignored. */
  lemma NumberStart(ign: set<Kind>, c: Cursor, first: char)
    requires Valid(c) && first != '-' && first != '+'
    ensures var c0 := StartBuf(c, NumLit !in ign, Some(first));
      && LexNumber(ign, c, first) == NumberBody(c0, first)
      && Valid(c0) && Rest(c0) == Rest(c)
      && c0.buf == if NumLit in ign then c.buf else Some([first])
  {
  }

  /** The decimal tail after the digits of a decimal integer. */
  lemma DecimalValue(c2: Cursor, s: string)
    requires Valid(c2) && (c2.buf == Some(s) || (s == "" && !Truthy(c2.buf)))
    requires forall i | 0 <= i < |s| :: IsDecChar(s[i])
    requires !(|Rest(c2)| > 0 && (Rest(c2)[0] == '.' || Rest(c2)[0] == 'e' || Rest(c2)[0] == 'E'))
    ensures var r := DecimalTail(c2);
      && (|s| > 0 ==> r.Ok? && r.value.tok == Token(NumLit, s, Int(DigitsValue(s, 10))) && Rest(r.value.cur) == Rest(c2))
      && (|s| == 0 ==> r == Err(BadLiteral("")))
  {
    IntegerTail(c2);
    if |s| > 0 {
      IntOfDecimal(s);
    }
  }

  /** A decimal integer: the digits `first` and `ds`, not followed by a
      digit, point, exponent marker, or (after a lone `0`) a radix letter,
      are one number token whose value is their positional value; when
      number tokens are ignored `int('')` raises instead. */
  lemma DecimalLiteral(ign: set<Kind>, c: Cursor, first: char, ds: string, tail: string)
    requires Valid(c) && !Truthy(c.buf) && IsDecChar(first) && (forall i | 0 <= i < |ds| :: IsDecChar(ds[i]))
    requires Rest(c) == ds + tail
    requires |tail| > 0 ==> !IsDecChar(tail[0]) && tail[0] != '.' && tail[0] != 'e' && tail[0] != 'E'
    requires first == '0' && |Rest(c)| > 0 ==> !RadixLetter(Rest(c)[0])
    ensures var r := LexNumber(ign, c, first);
      && (NumLit !in ign ==>
            && r.Ok? && r.value.tok == Token(NumLit, [first] + ds, Int(DigitsValue([first] + ds, 10)))
            && Rest(r.value.cur) == tail)
      && (NumLit in ign ==> r == Err(BadLiteral("")))
  {
    NumberStart(ign, c, first);
    var c0 := StartBuf(c, NumLit !in ign, Some(first));
    var c2 := DecimalDigits(c0, first, ds, tail);
    if NumLit in ign {
      DecimalValue(c2, "");
    } else {
      DigitsCons(first, ds);
      DecimalValue(c2, [first] + ds);
    }
  }

  /** The scan of a prefixed literal: the radix letter and the digits of
      the radix after it are consumed and, in a live buffer, recorded. */
  lemma PrefixedDigits(c: Cursor, b: char, radix: nat, hs: string, tail: string) returns (c2: Cursor)
    requires (radix == 16 && (b == 'x' || b == 'X')) || (radix == 8 && (b == 'o' || b == 'O'))
    requires Valid(c) && DigitsIn(hs, radix)
    requires Rest(c) == [b] + (hs + tail) && (|tail| > 0 ==> DigitValue(tail[0]) >= radix)
    ensures NumberBody(c, '0') == PrefixedInt(c2, radix)
    ensures Valid(c2) && Rest(c2) == tail
    ensures c2.buf == if Truthy(c.buf) then Some(c.buf.value + [b] + hs) else c.buf
  {
    RadixPrefixLetter(c, b);
    var c1 := RadixPrefix(c, '0').1;
    assert Rest(c1) == hs + tail;
    c2 := RadixDigits(c1, radix, hs, tail);
    PrefixedBody(c);
  }

  /** The digit loop for radix 8 or 16 over `hs` followed by a non-digit. */
  lemma RadixDigits(c1: Cursor, radix: nat, hs: string, tail: string) returns (c2: Cursor)
    requires radix == 16 || radix == 8
    requires Valid(c1) && DigitsIn(hs, radix)
    requires Rest(c1) == hs + tail && (|tail| > 0 ==> DigitValue(tail[0]) >= radix)
    ensures SkipDigits(c1, radix) == Ok(c2)
    ensures Valid(c2) && Rest(c2) == tail
    ensures c2.buf == if Truthy(c1.buf) then Some(c1.buf.value + hs) else c1.buf
  {
    var p := (ch: char) => DigitValue(ch) < radix;
    SkipDigitsSpan(c1, radix, p);
    c2 := SkipWhile(c1, p);
    SkipWhileSpan(c1, p);
    SpanStops(hs, tail, p);
    assert (hs + tail)[|hs|..] == tail && (hs + tail)[..|hs|] == hs;
  }

  /** `int(value, radix)` of the recorded text. */
  lemma PrefixedValue(c2: Cursor, radix: nat)
    requires Valid(c2)
    ensures var t := BufOf(c2.buf);
      var r := PrefixedInt(c2, radix);
      && (IntOf(t, radix).Some? ==>
            r.Ok? && r.value.tok == Token(NumLit, t, Int(IntOf(t, radix).value)) && Rest(r.value.cur) == Rest(c2))
      && (IntOf(t, radix).None? ==> r == Err(BadLiteral(t)))
  {
  }

  /** A literal with a `0x` or `0o` prefix: the digits of the radix after
      it are one number token of their positional value; no digits, or
      ignored number tokens, make `int()` raise. */
  lemma PrefixedLiteral(ign: set<Kind>, c: Cursor, b: char, radix: nat, hs: string, tail: string)
    requires (radix == 16 && (b == 'x' || b == 'X')) || (radix == 8 && (b == 'o' || b == 'O'))
    requires Valid(c) && !Truthy(c.buf) && DigitsIn(hs, radix)
    requires Rest(c) == [b] + (hs + tail) && (|tail| > 0 ==> DigitValue(tail[0]) >= radix)
    ensures var r := LexNumber(ign, c, '0');
      && (NumLit !in ign && |hs| > 0 ==>
            && r.Ok? && r.value.tok == Token(NumLit, ['0', b] + hs, Int(DigitsValue(hs, radix)))
            && Rest(r.value.cur) == tail)
      && (NumLit !in ign && |hs| == 0 ==> r == Err(BadLiteral(['0', b])))
      && (NumLit in ign ==> r == Err(BadLiteral("")))
  {
    NumberStart(ign, c, '0');
    var c0 := StartBuf(c, NumLit !in ign, Some('0'));
    var c2 := PrefixedDigits(c0, b, radix, hs, tail);
    if NumLit !in ign {
      PrefixedKept(c2, b, radix, hs);
    } else {
      PrefixedValue(c2, radix);
    }
  }

  /** The value of a recorded prefixed literal. */
  lemma PrefixedKept(c2: Cursor, b: char, radix: nat, hs: string)
    requires (radix == 16 && (b == 'x' || b == 'X')) || (radix == 8 && (b == 'o' || b == 'O'))
    requires Valid(c2) && DigitsIn(hs, radix) && c2.buf == Some(['0'] + [b] + hs)
    ensures var r := PrefixedInt(c2, radix);
      && (|hs| > 0 ==>
            r.Ok? && r.value.tok == Token(NumLit, ['0', b] + hs, Int(DigitsValue(hs, radix))) && Rest(r.value.cur) == Rest(c2))
      && (|hs| == 0 ==> r == Err(BadLiteral(['0', b])))
  {
    assert ['0'] + [b] + hs == ['0', b] + hs;
    assert BufOf(c2.buf) == ['0', b] + hs;
    PrefixedValue(c2, radix);
    assert |hs| == 0 ==> ['0', b] + hs == ['0', b];
    IntOfPrefixed(b, radix, hs);
  }

  /** `0b` never lexes: radix 2 makes the digit test raise on the next
      character, and at the end of input `int()` rejects the bare prefix. */
  lemma BinaryFails(ign: set<Kind>, c: Cursor, b: char, tail: string)
    requires Valid(c) && !Truthy(c.buf) && (b == 'b' || b == 'B') && Rest(c) == [b] + tail
    ensures LexNumber(ign, c, '0') ==
      if |tail| > 0 then Err(BadRadix(2)) else Err(BadLiteral(if NumLit in ign then "" else ['0', b]))
  {
    NumberStart(ign, c, '0');
    var c0 := StartBuf(c, NumLit !in ign, Some('0'));
    var c1 := BinaryBody(c0, b, tail);
    if |tail| == 0 {
      assert ['0'] + [b] == ['0', b];
      BareBinary(c1, b, NumLit !in ign);
    }
  }

  /** `int('0b', 2)` of the bare prefix, or `int('')` when nothing was
      recorded, raises. */
  lemma BareBinary(c1: Cursor, b: char, kept: bool)
    requires Valid(c1) && (b == 'b' || b == 'B')
    requires kept ==> c1.buf == Some(['0', b])
    requires !kept ==> !Truthy(c1.buf)
    ensures PrefixedInt(c1, 2) == Err(BadLiteral(if kept then ['0', b] else ""))
  {
    PrefixedValue(c1, 2);
    IntOfPrefixed(b, 2, "");
    assert ['0', b] + "" == ['0', b];
  }

  /** After `0b` the digit loop decides: it raises on any next character,
      and at the end of input the bare prefix goes to `int()`. */
  lemma BinaryBody(c: Cursor, b: char, tail: string) returns (c1: Cursor)
    requires Valid(c) && (b == 'b' || b == 'B') && Rest(c) == [b] + tail
    ensures Valid(c1) && c1.buf == (if Truthy(c.buf) then Some(c.buf.value + [b]) else c.buf)
    ensures NumberBody(c, '0') == if |tail| > 0 then Err(BadRadix(2)) else PrefixedInt(c1, 2)
  {
    RadixPrefixLetter(c, b);
    var p := RadixPrefix(c, '0');
    assert p.0 == 2;
    BinaryDigits(p.1);
    c1 := La(p.1, 1).1;
    PrefixedBody(c);
  }

  /** With a radix prefix the digits of that radix are skipped and the
      literal is handed to `int()` with that radix. */
  lemma PrefixedBody(c: Cursor)
    ensures var (radix, c1) := RadixPrefix(c, '0');
      radix != 10 ==> (NumberBody(c, '0') ==
        match SkipDigits(c1, radix)
        case Err(e) => Err(e)
        case Ok(c2) => PrefixedInt(c2, radix))
  {
  }

  /** The radix-2 digit loop raises on any character and stops at the end
      of input. */
  lemma BinaryDigits(c: Cursor)
    requires Valid(c)
    ensures SkipDigits(c, 2) == if |Rest(c)| > 0 then Err(BadRadix(2)) else Ok(La(c, 1).1)
  {
  }

  /** Inside a statement a digit starts a number. */
  lemma ClassifyDigit(ign: set<Kind>, c: Cursor, x: char)
    requires IsDecChar(x)
    ensures Classify(ign, c, x) == LexNumber(ign, c, x)
  {
    assert Punctuation(x).None? && !OperatorChar(x);
    assert Classify(ign, c, x) == Word(ign, c, x);
    WordDigit(ign, c, x);
  }

  lemma WordDigit(ign: set<Kind>, c: Cursor, x: char)
    requires IsDecChar(x)
    ensures Word(ign, c, x) == LexNumber(ign, c, x)
  {
    assert IsDecimal(Char(x)) && x != '"' && x != '\'';
  }

  /** The parts of a non-empty string. */
  lemma SplitFirst(first: char, s: string)
    ensures ([first] + s)[0] == first && ([first] + s)[1..] == s
  {
  }

  /** A decimal integer at the level of `_do_statement`. */
  lemma DecimalToken(ign: set<Kind>, c: Cursor, term: string, endKind: Kind, first: char, ds: string, tail: string)
    requires endKind == StatementEnd || endKind == InlineEnd
    requires Valid(c) && !Truthy(c.buf) && IsDecChar(first) && (forall i | 0 <= i < |ds| :: IsDecChar(ds[i]))
    requires Rest(c) == [first] + (ds + tail) && !EndsAt(term, Rest(c))
    requires |tail| > 0 ==> !IsDecChar(tail[0]) && tail[0] != '.' && tail[0] != 'e' && tail[0] != 'E'
    requires first == '0' && |ds + tail| > 0 ==> !RadixLetter((ds + tail)[0])
    ensures var r := LexStatement(ign, c, term, endKind);
      && (NumLit !in ign ==>
            && r.Ok? && r.value.tok == Token(NumLit, [first] + ds, Int(DigitsValue([first] + ds, 10)))
            && Rest(r.value.cur) == tail)
      && (NumLit in ign ==> r == Err(BadLiteral("")))
  {
    SplitFirst(first, ds + tail);
    var c2 := NotEnded(ign, c, term, endKind);
    ClassifyDigit(ign, c2, first);
    DecimalLiteral(ign, c2, first, ds, tail);
  }
}
