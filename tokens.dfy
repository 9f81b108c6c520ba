/** Tokens handed from the lexer to the parser (src/token/token.rs). */
module Tokens {

  /** The token alphabet. `Grep`, `Cat`, `Tilde`, `Quote` and `SingleQuote` are used by the
      parser and the lexer tests but missing from the enum in token.rs; they are added here. */
  datatype TokenType =
    // Commands
    | Ls | Cd | Grep | Cat
    // Parameters
    | ShortParam | LongParam
    | Num | Literal
    // Single symbols
    | Pipe | Comma | Dot | Colon | Minus | Plus | Slash | Star | Assignment | Semicolon
    | Background | GreaterThan | LessThan | Not | LeftParen | RightParen | LeftBrace
    | RightBrace | LeftBracket | RightBracket | Tilde | Quote | SingleQuote
    // Combined symbols
    | DoubleMinus | GreaterThanOrEqualTo | LessThanOrEqualTo | EqualTo | NotEqualTo | And | Or
    // End of input
    | Eof

  datatype Token = Token(tokenType: TokenType, literal: string)

  /** A short (`-x`) or long (`--xxx`) option. */
  predicate IsParam(t: TokenType) {
    t.ShortParam? || t.LongParam?
  }

  /** A token an option value may be taken from. */
  predicate IsValue(t: TokenType) {
    t.Literal? || t.Num?
  }

  /** A token glued into a path or a quoted pattern. */
  predicate IsPathPart(t: TokenType) {
    t.Literal? || t.Num? || t.Slash? || t.Dot? || t.Tilde?
  }

  /** What the lexer hands over: a token sequence closed by its end-of-input token. */
  ghost predicate WellFormed(ts: seq<Token>) {
    |ts| > 0 && ts[|ts| - 1].tokenType.Eof?
  }
}
