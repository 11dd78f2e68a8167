/**
 * The errors the front end raises. The source raises ValueError (and KeyError
 * in two places) with a message that names the offending lexeme or the
 * character offset; the model keeps the kind and the offset or lexeme.
 */
module Errors {

  /** Errors raised by the configuration entry points of the two registries. */
  datatype ConfigError =
    | IllegalOperator(op: string)          // a character outside the operator alphabet
    | NonPositivePrecedence(op: string)    // a binary precedence <= 0
    | DuplicateBinaryOperator(op: string)
    | DuplicateUnaryOperator(op: string)
    | DuplicateFunction(name: string)
    | MissingFunction(name: string)        // KeyError of get_func

  /** Errors raised while tokenizing or parsing one formula, with their offsets. */
  datatype SyntaxError =
    // lexer
    | UnknownCharacter(pos: int)
    | UnsupportedEscape(pos: int)
    | UnterminatedString(pos: int)
    | UnsupportedOperator(pos: int)
    | MalformedAttribution(pos: int)
    // parser
    | EmptyExpression
    | UnexpectedToken(pos: int)
    | NotBinaryOperator(pos: int)
    | NotUnaryOperator(pos: int)
    | MissingRParen(pos: int)
    | MisplacedAssignment(pos: int)
    | PositionalAfterKeyword(pos: int)
    | KeywordInTuple(pos: int)              // KeyError of parse_parenthesis
    | MissingRSquare(pos: int)
    | TooManySliceParts(pos: int)
    | TooManyColons(pos: int)
    | MalformedSliceComponent(pos: int)
}
