/**
 * Token definitions of the schema language: source positions, the closed
 * set of token kinds, the keyword table and the token record.
 */
module Tokens {

  /** Where a token starts: 1-based line and column, 0-based character offset. */
  datatype SourcePosition = SourcePosition(line: int, column: int, offset: int)

  /** The closed enumeration of token kinds. */
  datatype TokenType =
    | Identifier | String | Number | Boolean
    | Keyword
    | Equals | BraceLeft | BraceRight | BracketLeft | BracketRight
    | ParenLeft | ParenRight | At | AtAt | Dot | Comma | Colon | Question
    | Comment | Whitespace | Eof | Unknown
  {
    /** The enum's string value, as it appears in the parser's error messages. */
    function Name(): string {
      match this
      case Identifier => "IDENTIFIER"
      case String => "STRING"
      case Number => "NUMBER"
      case Boolean => "BOOLEAN"
      case Keyword => "KEYWORD"
      case Equals => "EQUALS"
      case BraceLeft => "BRACE_LEFT"
      case BraceRight => "BRACE_RIGHT"
      case BracketLeft => "BRACKET_LEFT"
      case BracketRight => "BRACKET_RIGHT"
      case ParenLeft => "PAREN_LEFT"
      case ParenRight => "PAREN_RIGHT"
      case At => "AT"
      case AtAt => "AT_AT"
      case Dot => "DOT"
      case Comma => "COMMA"
      case Colon => "COLON"
      case Question => "QUESTION"
      case Comment => "COMMENT"
      case Whitespace => "WHITESPACE"
      case Eof => "EOF"
      case Unknown => "UNKNOWN"
    }
  }

  /** The reserved words of the language. */
  const Keywords: set<string> :=
    {"model", "enum", "type", "view", "datasource", "generator", "env"}

  /** A token: its kind, its raw text and where it starts. */
  datatype Token = Token(kind: TokenType, value: string, position: SourcePosition)

  /** Builds a token record from its three parts. */
  function CreateToken(kind: TokenType, value: string, position: SourcePosition): (t: Token)
    ensures t.kind == kind && t.value == value && t.position == position
  {
    Token(kind, value, position)
  }

  /** The keyword table has exactly seven entries, and the boolean literals are not among them. */
  lemma KeywordTable()
    ensures |Keywords| == 7
    ensures "true" !in Keywords && "false" !in Keywords
  {
    assert "true" != "model" && "true" != "enum" && "true" != "type" && "true" != "view";
  }
}
