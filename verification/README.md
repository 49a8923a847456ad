# Template statement lexer and parser, and content negotiation of fserve

This project is a Dafny model of the core of `fserve`.

It covers the hand-written lexer and parser for the statement layer of Jinja
templates (`fserve/jinja_parse.py`):

- a character cursor with a one-level peek buffer and a text buffer;
- the state machine of `_next_token`: literal text, the start delimiters
  `{%`, `{{` and `{#`, and the replay of a delimiter held back behind text;
- the statement, comment, string and number sub-lexers;
- the token filter `next_token`/`la`, which drops ignored kinds and buffers
  lookahead;
- the recursive-descent `JinjaStatementParser`, which groups tokens into text,
  statement and inline elements;
- the entry point `statement_parse`.

It also covers the content-negotiation helpers of `fserve/__init__.py`:
`AcceptItem` and its `matches`, the selection logic of `choose_accept`, and
`bool_param`.

Every operation is a pure function over immutable values:

- the cursor and the lexer are records, and each step returns the new record;
- Python exceptions become the `Err` side of a `Result`;
- the loops that the source never leaves at end of input become the errors
  `Unterminated` and `EndIgnored`.

The modules follow the source:

| module | what it holds |
|---|---|
| `Chars` | the character classes |
| `Cursors` | the cursor and `_la` |
| `Lexer` | `_next_token` and the sub-lexers |
| `Lookahead` | the generic token filter |
| `Filter` | the filter over the lexer |
| `Parser` | the parser |
| `Grouping` | an independent reference definition of the parser, stated over a token sequence |
| `ParserProps`, `TextProps`, `StatementProps`, `StringProps`, `NumberProps`, `FloatProps`, `CommentProps` | the properties connecting each operation with its reference or its inverse |
| `Negotiation` | `__init__.py` |

## Model

| member | source | states |
|---|---|---|
| Chars.IsDigit | fserve/jinja_parse.py:5-16 | the digit test fails exactly when a real character is tested with a radix other than 8, 10 or 16, and says yes only for a character whose weight is below the radix |
| Chars.DigitsByWeight | fserve/jinja_parse.py:5-16 | in radix 8, 10 and 16 a character is a digit if and only if its weight is below the radix; every other radix raises `ValueError` on a real character |
| Chars.SentinelInNoClass | fserve/jinja_parse.py:5-34 | none of the four character tests holds of the end-of-input sentinel, in any radix |
| Chars.WsExactly | fserve/jinja_parse.py:28-34 | `is_ws` holds exactly for the 25 listed code points |
| Chars.ClassesDisjoint | fserve/jinja_parse.py:18-34 | whitespace is never a name character or a digit; letters are name characters; the name characters that are not letters are exactly the decimal digits |
| Chars.OghamSpaceMark | fserve/jinja_parse.py:28-34 | as written, U+1680 OGHAM SPACE MARK is not whitespace but the letter U+1626 is; the intended test says the opposite |
| Chars.WsIntendedExactly | fserve/jinja_parse.py:28-34 | the intended whitespace test holds exactly for the Unicode White_Space code points and never for a name character; it differs from the written test at the code points 5670 and 5760 only |
| Cursors.DoNext | fserve/jinja_parse.py:533-547 | `_do_next` hands out the peeked character first and otherwise the next character of the text or the sentinel; it loses no character and advances by exactly one of the characters still to come |
| Cursors.Next | fserve/jinja_parse.py:527-531 | `_next` hands out the head of what is still to come and records it in a non-empty text buffer only |
| Cursors.La | fserve/jinja_parse.py:549-559 | `_la(k)` as written changes nothing that is still to come, keeps one peeked character, and answers with the next character at every depth |
| Cursors.ClearLa | fserve/jinja_parse.py:561-563 | `_clear_la` consumes exactly the peeked characters, which a live text buffer records |
| Cursors.LaIntended | fserve/jinja_parse.py:549-559 | the intended `_la(k)` answers with the k-th character to come and changes nothing that is still to come |
| Cursors.LaDepthTwoAnswersFirst | fserve/jinja_parse.py:549-559 | on the text `ab`, `_la(2)` as written answers `a` where the intended peek answers `b` |
| Cursors.LaAgreesAtDepthOne | fserve/jinja_parse.py:549-559 | at depth one the written and the intended peek agree on every cursor |
| Lexer.MatchFromAll | fserve/jinja_parse.py:246-255 | the delimiter test as written succeeds exactly when every later delimiter character equals the one next character |
| Lexer.ScanText | fserve/jinja_parse.py:152-209 | state 0 returns only text, EOF or a start delimiter; text in front of a delimiter comes back non-empty with the delimiter held for replay; EOF comes only with empty text at the end of input |
| Lexer.SkipWhileSpan | fserve/jinja_parse.py:302-318 | the whitespace and name loops consume exactly the longest prefix of matching characters, which a live buffer records |
| Lexer.SkipDigits | fserve/jinja_parse.py:481-485 | the digit loop never fails in radix 8, 10 or 16, and can fail only with the radix error |
| Lexer.LexNumber | fserve/jinja_parse.py:451-514 | the number lexer yields a number literal, or EOF after consuming all input |
| Lexer.StringBody | fserve/jinja_parse.py:364-449 | the string loop yields a string literal that leaves no buffer, or EOF after consuming all input |
| Lexer.LexStatement | fserve/jinja_parse.py:239-320 | a statement token is an end token or a lexicon kind; every token except EOF consumes input; EOF comes only at the end of the input |
| Lexer.CommentBody | fserve/jinja_parse.py:322-357 | the comment loop yields only CommentEnd or EOF; EOF comes at the end of the input; it raises only for an empty terminator |
| Lexer.RawNext | fserve/jinja_parse.py:147-237 | `_next_token` keeps the lexer well formed; it consumes input for every token but EOF; EOF is empty and leaves the lexer at the end |
| Lookahead.NextToken | fserve/jinja_parse.py:113-125 | `next_token` hands out the head of the lookahead buffer, and otherwise the pulled token with the buffer left empty |
| Lookahead.LaToken | fserve/jinja_parse.py:127-145 | `la(k)` keeps the buffer as a prefix, fills it to depth k and reports its k-th token, and reads nothing when the buffer is deep enough |
| Lookahead.LaKeepsUpcoming | fserve/jinja_parse.py:127-145 | `la(k)` is non-destructive: the tokens `next_token` will hand out afterwards are those it would have handed out before |
| Lookahead.LaReportsUpcoming | fserve/jinja_parse.py:113-145 | `la(k)` reports exactly the token that the k-th following `next_token` returns |
| Lookahead.LaErrUpcoming | fserve/jinja_parse.py:113-145 | when `la(k)` fails, the k-th following `next_token` fails with the same error |
| Lookahead.EofWithin | fserve/jinja_parse.py:113-145 | a window of upcoming tokens longer than the weight of the stream contains an end-of-input token |
| Filter.Fetch | fserve/jinja_parse.py:118-125 | the pull loop returns no ignored kind, keeps the configuration, and consumes input unless it returns EOF |
| Filter.NextNeverIgnored | fserve/jinja_parse.py:113-125 | `next_token` never hands out an ignored kind and keeps the buffer clean of them |
| Filter.LaNeverIgnored | fserve/jinja_parse.py:127-145 | `la(k)` never reports an ignored kind, at any depth |
| Filter.EofForever | fserve/jinja_parse.py:163-167 | at the end of input `next_token` hands out the empty EOF token forever |
| Filter.EofSticky | fserve/jinja_parse.py:113-167 | the first EOF from a well-formed stream is the empty token and is followed by EOF forever |
| Parser.StatementBody | fserve/jinja_parse.py:627-637 | the statement loop collects no end token and no EOF, and sets a right marker only in a block and only to `+` or `-` |
| Parser.LeftMarker | fserve/jinja_parse.py:621-623 | only a block consults the lookahead for a left marker, and the marker is `+` or `-` |
| Parser.Statement | fserve/jinja_parse.py:614-639 | `statement()` builds a statement element whose tokens hold no end or EOF token, and whose markers are `+` or `-` |
| Parser.Inline | fserve/jinja_parse.py:641-652 | `inline()` builds an inline element whose tokens hold no inline end and no EOF |
| Parser.NextElement | fserve/jinja_parse.py:594-607 | the document loop builds a statement only after a statement start or prefix, and an inline only after an inline start; any other kind but text raises `UnexpectedToken` |
| ParserProps.StatementBodyRef | fserve/jinja_parse.py:627-637 | the statement loop collects exactly the tokens before the first statement end; in a block a final `+`/`-` becomes the right marker; EOF first is `Unterminated` |
| ParserProps.CommandRef | fserve/jinja_parse.py:625-637 | the command check and body agree with the reference grouping and consume exactly the tokens it spans, on errors too |
| ParserProps.StatementRef | fserve/jinja_parse.py:614-639 | `statement()` builds the reference statement and consumes exactly its tokens, or fails as the reference does |
| ParserProps.InlineRef | fserve/jinja_parse.py:641-652 | `inline()` builds the reference inline element and consumes exactly its tokens, or fails as the reference does |
| ParserProps.ElementRef | fserve/jinja_parse.py:594-607 | one turn of the document loop builds the reference element and consumes exactly its tokens |
| ParserProps.DocumentRef | fserve/jinja_parse.py:589-612 | `document()` equals the reference grouping of any window of upcoming tokens that reaches the end of input |
| ParserProps.EntryWindow | fserve/jinja_parse.py:655-661 | the first `4 * len(text) + 1` filtered tokens of a template reach the empty EOF token |
| ParserProps.StatementParseGroups | fserve/jinja_parse.py:655-661 | `statement_parse(text)` is the reference grouping of the first `4 * len(text) + 1` filtered tokens of the text |
| TextProps.ProbeRef | fserve/jinja_parse.py:169-207 | with two-character delimiters the opener loop finds exactly the first delimiter spelled by the next two characters, and consumes only its second character |
| TextProps.ScanTextInert | fserve/jinja_parse.py:162-209 | for delimiters of any length, text none of whose characters is the first character of a delimiter is returned whole as one text token, or as EOF when empty, and all input is consumed |
| TextProps.ScanTextLiteral | fserve/jinja_parse.py:162-209 | with two-character delimiters, text in which no character spells a delimiter together with the character after it (a lone `{` included) is returned whole as one text token, or as EOF when empty, and all input is consumed |
| TextProps.ScanTextDelim | fserve/jinja_parse.py:162-209 | text in which no character spells a delimiter with the character after it, followed by a delimiter, is returned first with the delimiter held for replay; with no text the delimiter itself is returned; the cursor stops right after the delimiter |
| TextProps.ReplayHandsOutHeld | fserve/jinja_parse.py:232-237 | state 6 hands out the held delimiter and restores the saved state without reading input |
| TextProps.TextThenDelimiter | fserve/jinja_parse.py:169-209 | text in which no character spells a delimiter with the character after it, followed by a delimiter, yields two tokens in order, the whole text and then the delimiter, and ends in the delimiter's state |
| TextProps.DelimiterFirst | fserve/jinja_parse.py:183-207 | a delimiter at the front is returned at once, and the lexer enters its state |
| TextProps.RawInert | fserve/jinja_parse.py:152-209 | for delimiters of any length, a template none of whose characters is the first character of a delimiter is one text token (EOF when empty), after which the lexer is at the end |
| TextProps.RawLiteral | fserve/jinja_parse.py:152-209 | with two-character delimiters, a template in which no character spells a delimiter with the character after it is one text token (EOF when empty), after which the lexer is at the end |
| TextProps.EntryLiteral | fserve/jinja_parse.py:655-661 | a text containing none of `{%`, `{{` and `{#` has no character that spells a delimiter of `statement_parse` with the character after it |
| TextProps.PlainFeeds | fserve/jinja_parse.py:655-661 | a template containing none of `{%`, `{{` and `{#` lexes to its whole text and then EOF |
| TextProps.PlainTextParses | fserve/jinja_parse.py:589-612 | a template containing none of `{%`, `{{` and `{#` parses to one text element holding all of it, and the empty template to the empty document |
| TextProps.LoneBraceIsText | fserve/jinja_parse.py:169-209 | a `{` that opens no delimiter stays text: the style rule `p { color: red }` parses to one text element |
| StatementProps.EndsAtPair | fserve/jinja_parse.py:246-255 | for a two-character terminator the written test is exactly a prefix test |
| StatementProps.Ended | fserve/jinja_parse.py:246-256 | a matching terminator yields an empty end token and consumes the terminator |
| StatementProps.EndIff | fserve/jinja_parse.py:246-320 | the end token is produced if and only if the terminator test matches |
| StatementProps.InputEnd | fserve/jinja_parse.py:242-244 | at the end of input a statement yields EOF |
| StatementProps.PunctuationToken | fserve/jinja_parse.py:259-276 | each of `()[]{},\|:` is a token of its own kind, spelled by that character |
| StatementProps.PairToken | fserve/jinja_parse.py:285-297 | `**`, `//`, `<=`, `>=` and `==` are two-character tokens of their operator kind |
| StatementProps.SingleToken | fserve/jinja_parse.py:277-297 | any other operator character, with `.`, `+`, `-` not followed by a digit, is a one-character token that consumes nothing more |
| StatementProps.SignedNumber | fserve/jinja_parse.py:281-284 | a sign directly followed by a digit raises, because the number lexer is called without its object |
| StatementProps.RunSpan | fserve/jinja_parse.py:302-318 | a whitespace run or a name spans the longest matching stretch, and its text is kept only when its kind is not ignored |
| StatementProps.NameToken | fserve/jinja_parse.py:313-318 | a name is a letter or `_` followed by the longest run of letters, digits and `_` |
| StatementProps.WsToken | fserve/jinja_parse.py:302-311 | a whitespace run is the longest stretch of whitespace |
| StatementProps.SyntaxError | fserve/jinja_parse.py:319-320 | any character outside the lexicon raises `InvalidSyntaxError` naming it |
| StringProps.ReadBody | fserve/jinja_parse.py:364-449 | reading a body without the quote, whose backslashes all start `\n` or `\r`, adds its decoded value to the value and records the body as written |
| StringProps.EscapedDecodes | fserve/jinja_parse.py:377-380 | the spelling of a value with `\n` and `\r` escapes is a well-formed body that decodes back to the value |
| StringProps.BodyToken | fserve/jinja_parse.py:360-449 | a quoted body without the quote, whose backslashes all start `\n` or `\r`, lexes to a string token of its decoded value, with raw line breaks kept as they stand; the token text is the body between its quotes, or empty when strings are ignored; the cursor stops after the closing quote |
| StringProps.VerbatimToken | fserve/jinja_parse.py:448-449 | characters between the quotes other than the quote and the backslash, raw line breaks among them, are kept as they stand in the value and in the token text |
| StringProps.RoundTrip | fserve/jinja_parse.py:360-449 | a value written between quotes with `\n` and `\r` escapes lexes back to that value; the token text is the quoted spelling, or empty when strings are ignored; the cursor stops after the closing quote |
| StringProps.BadEscape | fserve/jinja_parse.py:371-381 | after any well-formed body, an escape other than `\n` and `\r` raises the `TypeError` of the comparison on line 381 |
| StringProps.Unterminated | fserve/jinja_parse.py:364-375 | input that ends inside a string after any well-formed body, even right after a backslash, yields EOF with all input consumed |
| StringProps.StringToken | fserve/jinja_parse.py:298-299 | inside a statement, a quoted well-formed body is one string token of its decoded value, spelled as written |
| NumberProps.SkipDigitsSpan | fserve/jinja_parse.py:481-485 | in radix 8, 10 and 16 the digit loop skips exactly the characters whose weight is below the radix |
| NumberProps.IntOfDecimal | fserve/jinja_parse.py:513-514 | the integer conversion of a run of decimal digits is its positional value |
| NumberProps.IntOfPrefixed | fserve/jinja_parse.py:487-489 | the conversion of a prefixed literal is the positional value of its digits, and fails when there are none |
| NumberProps.RadixPrefixLetter | fserve/jinja_parse.py:468-479 | after a leading `0`, `x`/`X`, `b`/`B` and `o`/`O` select radix 16, 2 and 8 and are consumed |
| NumberProps.NoRadixPrefix | fserve/jinja_parse.py:468-479 | without a radix letter the radix stays 10 and nothing is consumed |
| NumberProps.IntegerTail | fserve/jinja_parse.py:491-514 | with no point or exponent after the digits, the literal is an integer of the recorded text, or a `ValueError` when `int()` rejects it |
| NumberProps.FloatIff | fserve/jinja_parse.py:491-514 | a decimal literal is a float if and only if a point or exponent marker follows its digits |
| NumberProps.DecimalLiteral | fserve/jinja_parse.py:451-514 | a run of decimal digits is one integer token of its positional value; when numbers are ignored, `int('')` raises |
| NumberProps.PrefixedLiteral | fserve/jinja_parse.py:468-489 | a `0x`/`0o` literal is one integer token of the positional value of its digits; a bare prefix, or ignored numbers, raise |
| NumberProps.BinaryFails | fserve/jinja_parse.py:474-489 | `0b` never lexes: the radix-2 digit test raises on the next character, and at the end of input the bare prefix is rejected |
| NumberProps.BinaryDigits | fserve/jinja_parse.py:481-485 | the radix-2 digit loop raises on any character and stops only at the end of input |
| NumberProps.DecimalToken | fserve/jinja_parse.py:300-301 | inside a statement a decimal integer is one number token of its value |
| FloatProps.FloatTail | fserve/jinja_parse.py:491-514 | after the digits, a fraction or an exponent is consumed with its digits and the whole recorded text goes to `float()`: a float token of that text if `float()` accepts it, its `ValueError` otherwise |
| FloatProps.FloatSyntaxOfLiteral | fserve/jinja_parse.py:491-514 | `float()` accepts the text of a lexed decimal literal if and only if its exponent marker, if any, has digits |
| FloatProps.FloatLiteral | fserve/jinja_parse.py:451-514 | digits with a fraction, an exponent or both are one float token whose text is exactly those characters, and the input after them is untouched; a bare `e` makes `float()` raise; ignored numbers make `float('')` raise |
| FloatProps.FloatNumber | fserve/jinja_parse.py:300-301 | inside a statement a decimal float is one number token of exactly its characters |
| FloatProps.PointNumber | fserve/jinja_parse.py:459-466 | the leading-point branch takes the digits after the point and nothing else, as a float token |
| FloatProps.LeadingPoint | fserve/jinja_parse.py:277-279 | inside a statement a point followed by digits is one float token of the point and those digits, and the input after them is untouched |
| FloatProps.SignedExponent | fserve/jinja_parse.py:503-514 | a signed exponent such as `1e-5` raises, because the exponent loop stops at the sign and `float('1e')` fails |
| CommentProps.CommentEnded | fserve/jinja_parse.py:340-350 | where the terminator test matches, the comment closes with an empty token and consumes the terminator |
| CommentProps.CommentScan | fserve/jinja_parse.py:326-357 | the comment closes at the first position where the terminator test matches |
| CommentProps.CommentUnclosed | fserve/jinja_parse.py:326-329 | a comment whose terminator never matches runs to the end of input and yields EOF |
| CommentProps.CommentBodyIff | fserve/jinja_parse.py:326-357 | the comment closes if and only if the terminator test matches somewhere ahead; it raises if and only if the terminator is empty and input remains; the token text is always empty |
| CommentProps.CommentToken | fserve/jinja_parse.py:322-357 | `_do_comment` never produces COMMENT_DATA, and it closes if and only if the terminator test matches ahead |
| CommentProps.CommentCloses | fserve/jinja_parse.py:340-350 | a body free of the terminator's first character, followed by a one- or two-character terminator, is skipped whole up to just after the terminator |
| Negotiation.Lower | fserve/__init__.py:12-14 | casefolding keeps the length and lowers each character on its own |
| Negotiation.LowerIff | fserve/__init__.py:12-14 | two strings casefold alike if and only if they differ only in the case of their letters |
| Negotiation.MatchesIgnoresCase | fserve/__init__.py:11-24 | a header range matches an offer if and only if its type is `*`, or the types agree up to case and the subtype is `*` or agrees up to case |
| Negotiation.MatchesTransitive | fserve/__init__.py:17-24 | matching is transitive |
| Negotiation.ConcreteMatches | fserve/__init__.py:17-24 | ranges without wildcards match if and only if type and subtype are equal |
| Negotiation.InsertPlaces | fserve/__init__.py:188 | one insertion step of the sort adds exactly the new item and keeps keys in descending order |
| Negotiation.SortByKeySorts | fserve/__init__.py:188 | `sort(key=..., reverse=True)` returns a permutation of the items with keys in descending order |
| Negotiation.SortConstantKey | fserve/__init__.py:188 | a stable descending sort by a constant key leaves the order unchanged |
| Negotiation.ArrangedInOrder | fserve/__init__.py:173-188 | the sort keyed on the loop's final `quality` keeps the header order, so the q-values have no effect |
| Negotiation.Validate | fserve/__init__.py:191-196 | offer validation succeeds if and only if every offer matches the pattern; it keeps their order, and otherwise reports the first malformed offer |
| Negotiation.Pick | fserve/__init__.py:198-202 | the selection finds the earliest header item that matches any offer, paired with the first offer it matches, or none when no item matches |
| Negotiation.ChoiceUnique | fserve/__init__.py:198-202 | there is at most one winning pair |
| Negotiation.NoHeader | fserve/__init__.py:170-171 | without a header the first offer is returned unchecked, and an empty offer list raises `IndexError` |
| Negotiation.MalformedOffer | fserve/__init__.py:191-196 | with a header the result is an error if and only if an offer is malformed, naming the first one |
| Negotiation.HeaderChoice | fserve/__init__.py:167-204 | with a header and valid offers, the result is the offer the declarative choice names, or nothing if and only if no item matches any offer |
| Negotiation.HeaderChoiceIff | fserve/__init__.py:198-204 | whenever the declarative choice names a pair, `choose_accept` returns exactly that offer |
| Negotiation.SkipsMalformed | fserve/__init__.py:175-187 | a header element that does not match the pattern has no effect on the outcome |
| Negotiation.BoolParamIff | fserve/__init__.py:207-211 | `bool_param` is absent if and only if the list is missing or empty; it is false if and only if the first value is `false` or `0` up to case; only the first value matters |

## Left out

- Line statements and line comments (states 3 and 4, and the single-line branches of `_do_statement` and `_do_comment`) are left out. `statement_parse` passes `None` for both prefixes, so no reachable input enters them. The model's configuration has no such prefixes.
- Token offsets (`start_pos`, `template_pos` in tokens) are left out. No modelled property reads them.
- Floating-point values are left out. A float literal carries an uninterpreted `Float` value; `float()` is modelled only by its acceptance of the lexeme.
- Escape handling after line 381 of `_do_str` is left out: `\t`, `\x`, octal, `\N{...}`, `\u`, `\U`, `\a`, `\b`, `\f`, `\v` and the identity escape. The comparison on line 381 raises `TypeError` for every escape other than `\n` and `\r`, so none of that code is reachable.
- The `COMMENT_DATA` return of `_do_comment` (lines 352-357) is left out. The buffer it tests is started empty, so it is never truthy; `CommentProps.CommentToken` proves that no such token arises.
- The regular expressions of `choose_accept` are left out. The header and offers come in already split and matched, together with the parsed q-value.
- Because the pattern's `\w+` groups never capture `*`, a wildcard header element such as `*/*` is skipped in the source. The model admits any captured strings, so its matching lemmas also cover wildcards.
- HTTP handling, file serving, `get_content_type` and `fserve/jinja_util.py` are not part of this model.
- `casefold` is approximated by ASCII lower-casing, because Unicode case folding has no counterpart here.
- Python's `int()` accepts underscores between digits and surrounding whitespace. These are not modelled; the number lexer never records either.
- `statement()` and `inline()` loop forever when EOF arrives before their end token. The model reports this as the `Unterminated` error. An ignored EOF kind makes `next_token` spin, which the model reports as `EndIgnored`.
- The exception types are collapsed into one `Error` datatype. Each variant is named after the Python exception it stands for.
- Negotiation.SortByKey: stability is proved only for the constant key that `choose_accept` uses (`SortConstantKey`); for other keys only the permutation and the descending order are stated (`SortByKeySorts`).
- ParserProps.StatementParseGroups: holds for token windows of length `4 * len(text) + 1`. When lexing fails inside that window no such window exists, and the lemma says nothing.
- TextProps.ProbeRef: stated for two-character delimiters, as in `statement_parse`. Longer delimiters meet the `_la` defect under Findings.
- TextProps.ScanTextLiteral, TextProps.RawLiteral, TextProps.ScanTextDelim, TextProps.TextThenDelimiter, TextProps.DelimiterFirst: stated for two-character delimiters only, for the same reason. For delimiters of any length, TextProps.ScanTextInert and TextProps.RawInert cover text in which no character starts a delimiter.
- StatementProps.Ended: assumes a cursor without a live text buffer. That is always the case when `_do_statement` starts, but the general case is not stated. The same holds for StatementProps.EndIff, StatementProps.RunSpan, StatementProps.NameToken, StatementProps.WsToken and StatementProps.PairToken.
- StringProps.RoundTrip: covers values without the quote character and without backslashes, whose only escapes are `\n` and `\r`. These are the values a spelling can encode without reaching the dead escape code. StringProps.BodyToken covers every body that lexes.
- NumberProps.DecimalLiteral: requires a literal not followed by a point or exponent marker; FloatProps.FloatLiteral covers those.
- FloatProps.FloatLiteral, FloatProps.FloatNumber, FloatProps.LeadingPoint: assume a cursor without a live buffer, which holds whenever `_do_statement` starts.
- NumberProps.DecimalToken: has the same restriction, and assumes a cursor without a live buffer.
- CommentProps.CommentToken: assumes a cursor without a live buffer, which holds whenever the comment state is entered.
- CommentProps.CommentCloses: requires a body without the terminator's first character and a terminator of one or two characters.
- CommentProps.CommentBodyIff: has the same buffer assumption as CommentProps.CommentToken.
- Chars.IsWs: the lexer keeps the code point 5670 as written. The intended whitespace set, with 5760 in its place, is stated alongside it (see Findings).

## Findings

| source | as written | input that shows it | evidently intended | confidence | as-written member | corrected member |
|---|---|---|---|---|---|---|
| fserve/jinja_parse.py:549-559 | `_la(k)` refills through `_do_next`. `_do_next` serves the peek buffer first, so a non-empty buffer is rotated rather than extended, and every depth answers with the next character. | `_la(2)` on the text `ab` answers `a`; a three-character delimiter `abb` is recognised on the input `abx` | `_la(k)` answers with the k-th character to come | not executed | Cursors.LaDepthTwoAnswersFirst | Cursors.LaIntended |
| fserve/jinja_parse.py:34 | `is_ws` lists the code point 5670, a Canadian syllabics letter. | `is_ws` is true for U+1626 and false for U+1680 OGHAM SPACE MARK | the Unicode White_Space code point 5760 | not executed | Chars.OghamSpaceMark | Chars.WsIntendedExactly |

The defect in `_la` is invisible to `statement_parse`. There all delimiters have two characters, so only depth one is consulted, and `Cursors.LaAgreesAtDepthOne` proves that the written and the intended peek agree there. The lexer model therefore uses the peek as written.

The whitespace test of the lexer keeps 5670 as written as well. The two sets differ only at 5670 and 5760, as `Chars.WsIntendedExactly` proves.
