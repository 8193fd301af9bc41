// The first, arithmetic-only calculator: its token kinds, tokens, syntax
// nodes and diagnostics. A diagnostic is kept as the facts its message is
// built from.
module ArithmeticSyntax {
  import opened Wrappers
  import opened Int32

  datatype SyntaxKind =
    | NumberToken
    | WhitespaceToken
    | PlusToken
    | MinusToken
    | StarToken
    | SlashToken
    | OpenParenthesisToken
    | CloseParenthesisToken
    | BadToken
    | EndOfFileToken

  /** A token: its kind, start position, text and boxed value. A token made
      up by the parser for a missing one has neither text nor value. */
  datatype SyntaxToken = SyntaxToken(kind: SyntaxKind, position: int, text: Option<string>, value: Option<i32>)

  datatype ExpressionSyntax =
    | NumberExpression(numberToken: SyntaxToken)
    | ParenthesizedExpression(openParenthesisToken: SyntaxToken, expression: ExpressionSyntax, closeParenthesisToken: SyntaxToken)
    | BinaryExpression(left: ExpressionSyntax, operatorToken: SyntaxToken, right: ExpressionSyntax)

  datatype Diagnostic =
    /** "The number ... isn't valid Int32", quoting the lexer's whole text. */
    | InvalidNumber(text: string)
    /** "Bad character input". */
    | BadCharacter(character: char)
    /** "Unexpected token <actual>, expected <expected>". */
    | UnexpectedToken(actual: SyntaxKind, expected: SyntaxKind)

  /** The tokens of an expression, left to right. */
  function Flatten(e: ExpressionSyntax): seq<SyntaxToken>
  {
    match e
    case NumberExpression(t) => [t]
    case ParenthesizedExpression(open, inner, close) => [open] + Flatten(inner) + [close]
    case BinaryExpression(left, op, right) => Flatten(left) + [op] + Flatten(right)
  }
}
