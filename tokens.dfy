/** Tokens: a kind, a span and an optional text value. The kinds are those of
    `hasdrubal/lex/main.py` together with the ones `hanno/lex/tokens.py` adds
    (`comment`, `type_name`, `match`, `::`, `..`, `|`, `~`). */
module Tokens {
  import opened Wrappers
  import opened Errors

  datatype Kind =
    // kinds whose tokens carry a text value
    | BlockComment | LineComment | Comment
    | FloatLit | IntegerLit | NameTok | StringLit | TypeName
    // keywords
    | And | Else | End | False | If | Let | Match | Not | Or | Then | True
    // pseudo tokens
    | Eof | Eol | Whitespace | Newline
    // symbols
    | Arrow | Asterisk | Bslash | Caret | Colon | ColonEqual | Comma | Dash | Diamond | Dot
    | DoubleColon | Ellipsis | Equal | Fslash | FslashEqual | Greater | GreaterEqual
    | Lbracket | Less | LessEqual | Lparen | Percent | Pipe | Plus | Rbracket | Rparen | Tilde

  datatype Token = Token(span: Span, kind: Kind, value: Option<string>)
}
