/** Character classification of fserve/jinja_parse.py:5-34. The source passes
    either a one-character string or the end sentinel -1 to these tests. */
module Chars {
  import opened Results
  import opened Tokens

  /** What the character cursor hands out: a character of the template or
      the end-of-input sentinel. */
  datatype Ch = Char(c: char) | End

  /** The code points `is_ws` accepts. */
  const WsCodePoints: set<int> :=
    {32, 9, 10, 11, 12, 13,
     8192, 8193, 8194, 8195, 8196, 8197, 8198, 8199, 8200, 8201, 8202,
     133, 160, 5670, 8232, 8233, 8239, 8287, 12288}

  /** `is_digit(ch, radix)`: false on the sentinel; a `ValueError` for any
      radix other than 10, 16 and 8 once a real character is tested. */
  function IsDigit(ch: Ch, radix: int): (r: Result<bool, Error>)
    ensures r.Err? <==> ch.Char? && radix !in {8, 10, 16}
    ensures r.Err? ==> r.error == BadRadix(radix)
    ensures r == Ok(true) ==> ch.Char? && DigitValue(ch.c) < radix
  {
    if ch.End? then Ok(false)
    else if radix == 10 then Ok('0' <= ch.c <= '9')
    else if radix == 16 then Ok('0' <= ch.c <= '9' || 'a' <= ch.c <= 'f' || 'A' <= ch.c <= 'F')
    else if radix == 8 then Ok('0' <= ch.c <= '7')
    else Err(BadRadix(radix))
  }

  /** `is_digit(ch)` with the default radix, which never fails. */
  predicate IsDecimal(ch: Ch) {
    IsDigit(ch, 10) == Ok(true)
  }

  /** The weight of a digit character in any radix up to 16; 36 for a
      character that is no digit at all. */
  function DigitValue(c: char): nat {
    if '0' <= c <= '9' then c as nat - '0' as nat
    else if 'a' <= c <= 'f' then c as nat - 'a' as nat + 10
    else if 'A' <= c <= 'F' then c as nat - 'A' as nat + 10
    else 36
  }

  /** `is_alpha`: an ASCII letter or `_`. */
  predicate IsAlpha(ch: Ch) {
    ch.Char? && ('a' <= ch.c <= 'z' || 'A' <= ch.c <= 'Z' || ch.c == '_')
  }

  /** `is_alphanum`: an ASCII letter, digit or `_`. */
  predicate IsAlphanum(ch: Ch) {
    ch.Char? && ('a' <= ch.c <= 'z' || 'A' <= ch.c <= 'Z' || '0' <= ch.c <= '9' || ch.c == '_')
  }

  /** `is_ws`: the two code point ranges and eight single code points of the
      source's whitespace test. */
  predicate IsWs(ch: Ch) {
    && ch.Char?
    && var cp := ch.c as int;
       (cp == 32 || 9 <= cp <= 13 || 8192 <= cp <= 8202
        || cp in {133, 160, 5670, 8232, 8233, 8239, 8287, 12288})
  }

  /** `is_ws` as evidently intended: the Unicode White_Space code points,
      with U+1680 OGHAM SPACE MARK (5760) where the source lists 5670, a
      Canadian syllabics letter. */
  predicate IsWsIntended(ch: Ch) {
    && ch.Char?
    && var cp := ch.c as int;
       (cp == 32 || 9 <= cp <= 13 || 8192 <= cp <= 8202
        || cp in {133, 160, 5760, 8232, 8233, 8239, 8287, 12288})
  }

  /** The intended code points. */
  const UnicodeWsCodePoints: set<int> := WsCodePoints - {5670} + {5760}

  /** As written, the ogham space mark is not whitespace and the letter
      U+1626 is; the intended test says the opposite. */
  lemma OghamSpaceMark()
    ensures !IsWs(Char(5760 as char)) && IsWsIntended(Char(5760 as char))
    ensures IsWs(Char(5670 as char)) && !IsWsIntended(Char(5670 as char))
  {
  }

  /** The intended test holds exactly for the White_Space code points, is
      never part of a name, and differs from the written test at the two
      transposed code points only. */
  lemma WsIntendedExactly(c: char)
    ensures IsWsIntended(Char(c)) <==> c as int in UnicodeWsCodePoints
    ensures IsWsIntended(Char(c)) ==> !IsAlphanum(Char(c)) && !IsDecimal(Char(c))
    ensures IsWs(Char(c)) != IsWsIntended(Char(c)) <==> c as int == 5670 || c as int == 5760
  {
  }

  /** None of the tests holds of the end sentinel. */
  lemma SentinelInNoClass(radix: int)
    ensures IsDigit(End, radix) == Ok(false)
    ensures !IsAlpha(End) && !IsAlphanum(End) && !IsWs(End)
  {
  }

  /** `is_ws` holds exactly for the listed code points. */
  lemma WsExactly(c: char)
    ensures IsWs(Char(c)) <==> c as int in WsCodePoints
  {
  }

  /** A digit in radix 8, 10 or 16 is exactly a character whose weight is
      below the radix; for every other radix a real character is an error. */
  lemma DigitsByWeight(c: char, radix: int)
    ensures radix in {8, 10, 16} ==> (IsDigit(Char(c), radix) == Ok(true) <==> DigitValue(c) < radix)
    ensures radix !in {8, 10, 16} ==> IsDigit(Char(c), radix) == Err(BadRadix(radix))
  {
  }

  /** The classes the statement lexer tries in turn do not overlap: a
      whitespace character is never part of a name, letters are name
      characters, and the name characters that are not letters are exactly
      the decimal digits. */
  lemma ClassesDisjoint(ch: Ch)
    ensures IsWs(ch) ==> !IsAlphanum(ch) && !IsDecimal(ch)
    ensures IsAlpha(ch) ==> IsAlphanum(ch)
    ensures IsAlphanum(ch) && !IsAlpha(ch) <==> IsDecimal(ch)
  {
  }
}
