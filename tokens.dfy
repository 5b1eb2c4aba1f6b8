/** Token vocabulary shared by the scanner and the compiler (the kinds of
    include/kavya/scanner.h). The scanner itself is not modelled: the compiler
    reads a finished sequence of tokens. */
module Tokens {

  datatype TokenType =
    // single-character tokens
    | LeftParen | RightParen | LeftBrace | RightBrace | Comma | Dot
    | Minus | Plus | Colon | Slash | Star | Newline | Indent | Semicolon
    // one- or two-character tokens
    | Bang | BangEqual | Equal | Is | EqualEqual
    | Greater | GreaterEqual | Less | LessEqual
    // literals
    | Identifier | String | Number
    // keywords
    | And | Class | Else | False | For | Purpose | If | Null | Or
    | Write | Ask | Return | Super | This | True | The | While
    | Error | Eof

  /** A token: its kind, the characters of its lexeme (for an error token,
      the diagnostic the scanner produced) and its source line. */
  datatype Token = Token(kind: TokenType, lexeme: string, line: int)

  /** A string token spans both of its quote characters; an `ask` token is
      spelled "ask". Both are read past their first character. */
  ghost predicate SpansQuotes(t: Token)
  {
    (t.kind == String || t.kind == Ask) ==> |t.lexeme| >= 2
  }

  /** What the scanner guarantees about its output and the compiler relies on. */
  ghost predicate WellFormedInput(tokens: seq<Token>)
  {
    forall i :: 0 <= i < |tokens| ==> SpansQuotes(tokens[i])
  }

  /** The lexeme without its first and last character: the text of a string
      literal without its quotes. */
  function Unquoted(t: Token): (s: string)
    requires |t.lexeme| >= 2
    ensures |s| == |t.lexeme| - 2
    ensures forall i :: 0 <= i < |s| ==> s[i] == t.lexeme[i + 1]
  {
    t.lexeme[1..|t.lexeme| - 1]
  }
}
