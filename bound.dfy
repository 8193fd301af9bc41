// The bound tree: what the binder produces and what the lowerer, the
// control-flow graph, the evaluator and the printer consume.
module BoundTree {
  import opened Wrappers
  import opened Int32
  import opened CocoaSyntax
  import opened CocoaSymbols

  /** A runtime value: C#'s `object` holding null, an int, a bool or a string. */
  datatype Value = NullValue | IntVal(i: i32) | BoolVal(b: bool) | StrVal(s: string)

  /** A literal's value is never null. */
  type Constant = v: Value | !v.NullValue? witness IntVal(0)

  /** The type of a literal follows the runtime type of its value. */
  function ConstantType(c: Constant): (t: TypeSymbol)
    ensures t in {BoolType, IntType, StringType}
  {
    match c
    case IntVal(_) => IntType
    case BoolVal(_) => BoolType
    case StrVal(_) => StringType
  }

  datatype UnaryOperatorKind = Identity | Negation | LogicalNegation | OnesComplement

  datatype BinaryOperatorKind =
    | Addition | Subtraction | Multiplication | Division
    | BitwiseAnd | BitwiseOr | BitwiseXor | LogicalAnd | LogicalOr
    | Equals | NotEquals | Less | LessOrEquals | Greater | GreaterOrEquals

  datatype BoundUnaryOperator = BoundUnaryOperator(
    syntaxKind: SyntaxKind, kind: UnaryOperatorKind, operandType: TypeSymbol, resultType: TypeSymbol)

  datatype BoundBinaryOperator = BoundBinaryOperator(
    syntaxKind: SyntaxKind, kind: BinaryOperatorKind,
    leftType: TypeSymbol, rightType: TypeSymbol, resultType: TypeSymbol)

  /** A jump target; labels are compared by reference. */
  class BoundSymbol {
    const name: string

    constructor (name: string)
      ensures this.name == name
    {
      this.name := name;
    }
  }

  datatype BoundExpression =
    | ErrorExpression
    | LiteralExpression(value: Constant)
    | VariableExpression(variable: VariableSymbol)
    | AssignmentExpression(variable: VariableSymbol, expression: BoundExpression)
    | UnaryExpression(unaryOp: BoundUnaryOperator, operand: BoundExpression)
    | BinaryExpression(left: BoundExpression, binaryOp: BoundBinaryOperator, right: BoundExpression)
    | CallExpression(callee: FunctionSymbol, arguments: seq<BoundExpression>)
    | ConversionExpression(toType: TypeSymbol, expression: BoundExpression)

  /** The `Type` property of each bound expression. */
  function TypeOf(e: BoundExpression): TypeSymbol
  {
    match e
    case ErrorExpression => ErrorType
    case LiteralExpression(c) => ConstantType(c)
    case VariableExpression(v) => v.typeSymbol
    case AssignmentExpression(_, rhs) => TypeOf(rhs)
    case UnaryExpression(op, _) => op.resultType
    case BinaryExpression(_, op, _) => op.resultType
    case CallExpression(f, _) => f.returnType
    case ConversionExpression(t, _) => t
  }

  datatype BoundStatement =
    | BlockStatement(statements: seq<BoundStatement>)
    | VariableDeclaration(variable: VariableSymbol, initializer: BoundExpression)
    | IfStatement(condition: BoundExpression, thenStatement: BoundStatement, elseStatement: Option<BoundStatement>)
    | WhileStatement(condition: BoundExpression, body: BoundStatement)
    | DoWhileStatement(body: BoundStatement, condition: BoundExpression)
    | ForStatement(variable: VariableSymbol, lowerBound: BoundExpression, upperBound: BoundExpression, body: BoundStatement)
    | LabelStatement(labelSymbol: BoundSymbol)
    | GotoStatement(target: BoundSymbol)
    | ConditionalGotoStatement(target: BoundSymbol, condition: BoundExpression, jumpIfTrue: bool)
    | ReturnStatement
    | ExpressionStatement(expression: BoundExpression)

  /** The lowerer rewrites a statement into a block, given here by its flat
      list of statements; its rewrite rules are not part of this model, so
      it is a parameter. */
  type Lowerer = BoundStatement -> seq<BoundStatement>

  /** The conversion classifier: whether a conversion between two types
      exists and whether it is the identity, implicit or explicit. */
  datatype Conversion = Conversion(isDefined: bool, isIdentity: bool, isImplicit: bool, isExplicit: bool)

  type Classifier = (TypeSymbol, TypeSymbol) -> Conversion
}
