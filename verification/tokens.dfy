/** Token kinds, tokens and the errors the template lexer and parser raise
    (fserve/jinja_parse.py). */
module Tokens {

  /** The closed enumeration `TokenType`. */
  datatype Kind =
    | StatementStart | StatementEnd | InlineStart | InlineEnd
    | CommentStart | CommentEnd | LineStatementPrefix | LineCommentPrefix
    | CommentData | TemplateData | Ws | NameOrKeyword | StrLit | NumLit
    | LBracket | RBracket | LParen | RParen | LBrace | RBrace
    | Pipe | Eq | Comma | Dot | MathOpOrStarArgs | CompareOp | Colon | Eof

  /** A token's `value`: the decoded payload of a literal, otherwise the
      token's own text. Float values are kept uninterpreted. */
  datatype Value = Str(s: string) | Int(n: int) | Float

  /** A token without its source offset. */
  datatype Token = Token(kind: Kind, text: string, value: Value)

  /** A token built without an explicit value: its value is its text. */
  function Plain(kind: Kind, text: string): Token
  {
    Token(kind, text, Str(text))
  }

  /** The exceptions of the lexer and parser, plus `Unterminated` and
      `EndIgnored` for the inputs on which the source loops forever. */
  datatype Error =
    | InvalidSyntax(ch: char)        // no token starts with `ch`
    | EscapeTypeError(ch: char)      // the `'\n' | '\r'` test fails on escape `\ch`
    | SignedNumberNameError          // the unqualified `_do_num` call after a sign
    | BadRadix(radix: int)           // `is_digit` with a radix other than 8, 10, 16
    | BadLiteral(lexeme: string)     // `int()` or `float()` rejects the lexeme
    | EmptyCommentEnd                // `comment_end[0]` on an empty delimiter
    | UnexpectedToken(tok: Token)    // `check_tok` or the document loop
    | Unterminated                   // end of input inside a statement or inline
    | EndIgnored                     // end of input is an ignored kind
}
