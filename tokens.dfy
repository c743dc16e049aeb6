/** Lexical tokens. The lexer's own enum has only punctuation, the two keywords, identifiers
    and integer literals; the parsers match on operator tokens as well. This is the union of
    every token any module of the repository uses. `MultiplicationSign` and `DivisionSign`
    are named nowhere in the source (no module defines the parser's mapper for them) and
    stand for them. */
module Tokens {
  import opened Int64

  datatype Token =
    | OpenBrace
    | CloseBrace
    | OpenParen
    | CloseParen
    | Semicolon
    | KeywordInt
    | KeywordReturn
    | Identifier(name: string)
    | IntegerLiteral(value: i64)
      // operators matched by the precedence-climbing parser
    | MinusSign
    | PlusSign
    | MultiplicationSign
    | DivisionSign
    | BitwiseComplement
    | LogicalNegation
    | And
    | Or
    | Equal
    | NotEqual
    | LessThan
    | LessThanOrEqual
    | GreaterThan
    | GreaterThanOrEqual
    | Assignment
      // the unary minus of the older single-statement parser
    | Negation
}
