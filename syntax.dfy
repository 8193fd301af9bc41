// Tokens and syntax trees of the Cocoa language, and the SyntaxFacts tables
// that the lexer, the parser and the printer consult.
module CocoaSyntax {
  import opened Wrappers
  import opened Int32
  import opened TextSpans

  /** The token and keyword kinds the lexer, the parser and the binder use. */
  datatype SyntaxKind =
    | BadToken | EndOfFileToken | WhitespaceToken | NumberToken | StringToken
    | PlusToken | MinusToken | StarToken | SlashToken | BangToken | EqualsToken
    | TildeToken | HatToken | AmpersandToken | AmpersandAmpersandToken
    | PipeToken | PipePipeToken | EqualsEqualsToken | BangEqualsToken
    | LessToken | LessOrEqualsToken | GreaterToken | GreaterOrEqualsToken
    | OpenParenthesisToken | CloseParenthesisToken | OpenBraceToken | CloseBraceToken
    | ColonToken | CommaToken | IdentifierToken
    | FalseKeyword | LetKeyword | TrueKeyword | VarKeyword | IfKeyword | ElseKeyword
    | WhileKeyword | DoKeyword | ForKeyword | ToKeyword | FunctionKeyword

  /** The `object Value` of a token: an int, a bool, a string or null. */
  datatype TokenValue = NoValue | IntValue(i: i32) | BoolValue(b: bool) | StringValue(s: string)

  /** A token; `text` is null (None) for a token the parser inserted. */
  datatype SyntaxToken = SyntaxToken(kind: SyntaxKind, position: int, text: Option<string>, value: TokenValue)
  {
    predicate IsMissing() { text.None? }

    /** The span covers the token's text; an inserted token covers nothing. */
    function Span(): TextSpan
    {
      TextSpan(position, if text.Some? then |text.value| else 0)
    }
  }

  /** A token that was read from the text, so it has a text. */
  type PresentToken = t: SyntaxToken | t.text.Some? witness SyntaxToken(IdentifierToken, 0, Some("x"), NoValue)

  /** The kinds GetKeywordKind can return. */
  predicate IsWordKind(k: SyntaxKind)
  {
    k.IdentifierToken? || k.FalseKeyword? || k.LetKeyword? || k.TrueKeyword? || k.VarKeyword?
    || k.IfKeyword? || k.ElseKeyword? || k.WhileKeyword? || k.DoKeyword? || k.ForKeyword?
    || k.ToKeyword? || k.FunctionKeyword?
  }

  type WordKind = k: SyntaxKind | IsWordKind(k) witness IdentifierToken

  /** SyntaxFacts: fixed token texts, keyword lookup and operator precedences.
      Their tables are not spelled out in the model; a word is looked up as
      a keyword or else an identifier. */
  datatype SyntaxFacts = SyntaxFacts(
    getText: SyntaxKind -> Option<string>,
    keywordKind: string -> WordKind,
    unaryPrecedence: SyntaxKind -> nat,
    binaryPrecedence: SyntaxKind -> nat)
  {
    /** The end-of-file token is no operator, so expression parsing stops
        at it. */
    predicate Valid()
    {
      unaryPrecedence(EndOfFileToken) == 0 && binaryPrecedence(EndOfFileToken) == 0
    }
  }

  datatype ExpressionSyntax =
    | ParenthesizedExpression(openParenthesis: SyntaxToken, expression: ExpressionSyntax, closeParenthesis: SyntaxToken)
    | LiteralExpression(literalToken: SyntaxToken, value: TokenValue)
    | NameExpression(identifierToken: SyntaxToken)
    | AssignmentExpression(identifier: PresentToken, equalsToken: SyntaxToken, expression: ExpressionSyntax)
    | UnaryExpression(operatorToken: SyntaxToken, operand: ExpressionSyntax)
    | BinaryExpression(left: ExpressionSyntax, operatorToken: SyntaxToken, right: ExpressionSyntax)
    | CallExpression(callee: PresentToken, openParenthesis: SyntaxToken, arguments: seq<ExpressionSyntax>, closeParenthesis: SyntaxToken)

  function FirstToken(e: ExpressionSyntax): SyntaxToken
  {
    match e
    case ParenthesizedExpression(open, _, _) => open
    case LiteralExpression(t, _) => t
    case NameExpression(t) => t
    case AssignmentExpression(t, _, _) => t
    case UnaryExpression(t, _) => t
    case BinaryExpression(left, _, _) => FirstToken(left)
    case CallExpression(t, _, _, _) => t
  }

  function LastToken(e: ExpressionSyntax): SyntaxToken
  {
    match e
    case ParenthesizedExpression(_, _, close) => close
    case LiteralExpression(t, _) => t
    case NameExpression(t) => t
    case AssignmentExpression(_, _, rhs) => LastToken(rhs)
    case UnaryExpression(_, operand) => LastToken(operand)
    case BinaryExpression(_, _, right) => LastToken(right)
    case CallExpression(_, _, _, close) => close
  }

  /** A node spans from the start of its first token to the end of its last. */
  function ExpressionSpan(e: ExpressionSyntax): TextSpan
  {
    FromBounds(FirstToken(e).Span().start, LastToken(e).Span().End())
  }

  datatype TypeClause = TypeClause(colonToken: SyntaxToken, identifier: SyntaxToken)

  datatype ElseClause = ElseClause(elseKeyword: SyntaxToken, elseStatement: StatementSyntax)

  datatype StatementSyntax =
    | BlockStatement(openBrace: SyntaxToken, statements: seq<StatementSyntax>, closeBrace: SyntaxToken)
    | VariableDeclaration(keyword: SyntaxToken, identifier: SyntaxToken, typeClause: Option<TypeClause>, equalsToken: SyntaxToken, initializer: ExpressionSyntax)
    | IfStatement(ifKeyword: SyntaxToken, condition: ExpressionSyntax, thenStatement: StatementSyntax, elseClause: Option<ElseClause>)
    | WhileStatement(whileKeyword: SyntaxToken, condition: ExpressionSyntax, body: StatementSyntax)
    | DoWhileStatement(doKeyword: SyntaxToken, body: StatementSyntax, whileKeyword: SyntaxToken, condition: ExpressionSyntax)
    | ForStatement(forKeyword: SyntaxToken, identifier: SyntaxToken, equalsToken: SyntaxToken, lowerBound: ExpressionSyntax, toKeyword: SyntaxToken, upperBound: ExpressionSyntax, body: StatementSyntax)
    | ExpressionStatement(expression: ExpressionSyntax)

  datatype ParameterSyntax = ParameterSyntax(identifier: PresentToken, typeClause: TypeClause)
  {
    function Span(): TextSpan
    {
      FromBounds(identifier.Span().start, typeClause.identifier.Span().End())
    }
  }

  datatype FunctionDeclarationSyntax = FunctionDeclarationSyntax(
    functionKeyword: SyntaxToken, identifier: PresentToken, openParenthesis: SyntaxToken,
    parameters: seq<ParameterSyntax>, closeParenthesis: SyntaxToken,
    typeClause: Option<TypeClause>, body: StatementSyntax)

  datatype MemberSyntax = FunctionMember(declaration: FunctionDeclarationSyntax) | GlobalStatement(statement: StatementSyntax)

  datatype CompilationUnitSyntax = CompilationUnitSyntax(members: seq<MemberSyntax>, endOfFileToken: SyntaxToken)
}
