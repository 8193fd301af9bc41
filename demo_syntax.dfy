// The second calculator, with booleans: its token kinds, tokens, syntax
// nodes, the syntax facts its lexer and parser consult, and the lexer's and
// parser's diagnostics.
module DemoSyntax {
  import opened Wrappers
  import opened Int32

  datatype SyntaxKind =
    | BadToken
    | EndOfFileToken
    | WhitespaceToken
    | NumberToken
    | PlusToken
    | MinusToken
    | StarToken
    | SlashToken
    | BangToken
    | AmpersandAmpersandToken
    | PipePipeToken
    | EqualsEqualsToken
    | BangEqualsToken
    | OpenParenthesisToken
    | CloseParenthesisToken
    | IdentifierToken
    | TrueKeyword
    | FalseKeyword
    | LiteralExpression
    | UnaryExpression
    | BinaryExpression
    | ParenthesizedExpression

  /** A token: its kind, reported position, text and boxed int value. A
      token made up by the parser for a missing one has neither text nor
      value. */
  datatype SyntaxToken = SyntaxToken(kind: SyntaxKind, position: int, text: Option<string>, value: Option<i32>)

  /** The value a literal carries. */
  datatype LiteralValue = IntLiteral(i: i32) | BoolLiteral(b: bool)

  datatype ExpressionSyntax =
    /** A literal: a number token, whose value is the token's, or a
        keyword with its bool value. */
    | LiteralExpressionSyntax(literalToken: SyntaxToken, value: Option<LiteralValue>)
    | UnaryExpressionSyntax(operatorToken: SyntaxToken, operand: ExpressionSyntax)
    | BinaryExpressionSyntax(left: ExpressionSyntax, operatorToken: SyntaxToken, right: ExpressionSyntax)
    | ParenthesizedExpressionSyntax(openParenthesisToken: SyntaxToken, expression: ExpressionSyntax, closeParenthesisToken: SyntaxToken)
  {
    /** The Kind property. */
    function Kind(): SyntaxKind
    {
      match this
      case LiteralExpressionSyntax(_, _) => LiteralExpression
      case UnaryExpressionSyntax(_, _) => UnaryExpression
      case BinaryExpressionSyntax(_, _, _) => BinaryExpression
      case ParenthesizedExpressionSyntax(_, _, _) => ParenthesizedExpression
    }
  }

  /** The token value as a literal's value: the boxed int, if any. */
  function TokenLiteral(t: SyntaxToken): Option<LiteralValue>
  {
    if t.value.Some? then Some(IntLiteral(t.value.value)) else None
  }

  /** The tokens of an expression, left to right. */
  function Flatten(e: ExpressionSyntax): seq<SyntaxToken>
  {
    match e
    case LiteralExpressionSyntax(t, _) => [t]
    case UnaryExpressionSyntax(op, operand) => [op] + Flatten(operand)
    case BinaryExpressionSyntax(left, op, right) => Flatten(left) + [op] + Flatten(right)
    case ParenthesizedExpressionSyntax(open, inner, close) => [open] + Flatten(inner) + [close]
  }

  /** SyntaxFacts: the keyword lookup for letter runs and the operator
      precedences, 0 for a kind that is no such operator. */
  datatype SyntaxFacts = SyntaxFacts(keywordKind: string -> SyntaxKind, unaryPrecedence: SyntaxKind -> nat, binaryPrecedence: SyntaxKind -> nat)
  {
    /** GetUnaryOperatorPrecedence. */
    function UnaryPrecedence(k: SyntaxKind): nat
    {
      unaryPrecedence(k)
    }

    /** GetBinaryOperatorPrecedence. */
    function BinaryPrecedence(k: SyntaxKind): nat
    {
      binaryPrecedence(k)
    }

    /** End of file is no operator. */
    predicate EndIsNoOperator()
    {
      UnaryPrecedence(EndOfFileToken) == 0 && BinaryPrecedence(EndOfFileToken) == 0
    }

    /** GetKeywordKind. */
    function KeywordKind(word: string): SyntaxKind
    {
      keywordKind(word)
    }

    /** End of file is no operator, and the keyword lookup gives true,
        false or an identifier. */
    ghost predicate Valid()
    {
      && EndIsNoOperator()
      && forall s :: IsWordKind(KeywordKind(s))
    }
  }

  /** The kinds a word can have. */
  predicate IsWordKind(k: SyntaxKind)
  {
    k == TrueKeyword || k == FalseKeyword || k == IdentifierToken
  }

  datatype Diagnostic =
    /** "The number ... isn't valid Int32", quoting the lexer's whole text. */
    | InvalidNumber(text: string)
    /** "Bad character input". */
    | BadCharacter(character: char)
    /** "Unexpected token <actual>, expected <expected>". */
    | UnexpectedToken(actual: SyntaxKind, expected: SyntaxKind)
}
