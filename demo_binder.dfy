// The second calculator's binder: turns a syntax tree into a bound tree,
// looking operators up by their token kind and operand types, and reports
// each operator it cannot bind. It has no case for parenthesised
// expressions and throws on them.
module DemoBinder {
  import opened Wrappers
  import opened DemoSyntax
  import opened DemoOperators

  datatype BoundExpression =
    | BoundLiteralExpression(value: LiteralValue)
    | BoundUnaryExpression(operatorKind: UnaryKind, operand: BoundExpression)
    | BoundBinaryExpression(left: BoundExpression, op: BoundBinaryOperator, right: BoundExpression)

  /** The Type property: a literal's value's type, a unary expression's
      operand's type, and a binary operator's result type. */
  function TypeOf(e: BoundExpression): CalcType
  {
    match e
    case BoundLiteralExpression(IntLiteral(_)) => IntType
    case BoundLiteralExpression(BoolLiteral(_)) => BoolType
    case BoundUnaryExpression(_, operand) => TypeOf(operand)
    case BoundBinaryExpression(_, op, _) => op.resultType
  }

  /** The unary operator lookup, BoundUnaryOperator.Bind: an operation for
      a token kind and operand type, or none. */
  type UnaryBinder = (SyntaxKind, CalcType) -> Option<UnaryKind>

  datatype BinderDiagnostic =
    /** "Unary operator '<text>' is not defined for type <type>". */
    | UndefinedUnaryOperator(text: Option<string>, operandType: CalcType)
    /** "Binary operator '<text>' is not defined for type <left> and <right>". */
    | UndefinedBinaryOperator(text: Option<string>, leftType: CalcType, rightType: CalcType)

  /** The exception BindExpression throws: "Unexcepted syntax <kind>". */
  datatype BindFault = UnexpectedSyntax(kind: SyntaxKind)

  /** A binding's outcome and the diagnostics it reports. */
  datatype Bound = Bound(result: Result<BoundExpression, BindFault>, diagnostics: seq<BinderDiagnostic>)

  /** BindExpression as a function: a literal binds to its value, or 0 when
      it has none; a unary or binary expression binds its operands first,
      left before right, and then the operator, and when the operator is
      not defined for the operand types it reports that and stands for its
      operand, or its left operand; anything else throws, and so does any
      operand that throws. */
  function BindOf(unary: UnaryBinder, syntax: ExpressionSyntax): Bound
  {
    match syntax
    case LiteralExpressionSyntax(_, value) =>
      Bound(Success(BoundLiteralExpression(value.GetOr(IntLiteral(0)))), [])
    case UnaryExpressionSyntax(operatorToken, operand) =>
      var o := BindOf(unary, operand);
      if o.result.Failure? then o
      else
        var boundOperand := o.result.value;
        var boundOperator := unary(operatorToken.kind, TypeOf(boundOperand));
        if boundOperator.None? then Bound(o.result, o.diagnostics + [UndefinedUnaryOperator(operatorToken.text, TypeOf(boundOperand))])
        else Bound(Success(BoundUnaryExpression(boundOperator.value, boundOperand)), o.diagnostics)
    case BinaryExpressionSyntax(left, operatorToken, right) =>
      var l := BindOf(unary, left);
      if l.result.Failure? then l
      else
        var r := BindOf(unary, right);
        if r.result.Failure? then Bound(r.result, l.diagnostics + r.diagnostics)
        else
          var boundLeft := l.result.value;
          var boundRight := r.result.value;
          var boundOperator := Bind(operatorToken.kind, TypeOf(boundLeft), TypeOf(boundRight));
          if boundOperator.None? then
            Bound(l.result, l.diagnostics + r.diagnostics + [UndefinedBinaryOperator(operatorToken.text, TypeOf(boundLeft), TypeOf(boundRight))])
          else
            Bound(Success(BoundBinaryExpression(boundLeft, boundOperator.value, boundRight)), l.diagnostics + r.diagnostics)
    case ParenthesizedExpressionSyntax(_, _, _) =>
      Bound(Failure(UnexpectedSyntax(syntax.Kind())), [])
  }

  // What binding gives.

  /** Whether a syntax tree has a parenthesised expression in it. */
  predicate HasParentheses(syntax: ExpressionSyntax)
  {
    match syntax
    case LiteralExpressionSyntax(_, _) => false
    case UnaryExpressionSyntax(_, operand) => HasParentheses(operand)
    case BinaryExpressionSyntax(left, _, right) => HasParentheses(left) || HasParentheses(right)
    case ParenthesizedExpressionSyntax(_, _, _) => true
  }

  /** Binding throws exactly when the tree has parentheses in it, and then
      it throws on the parenthesised expression's kind. */
  lemma {:induction false} ThrowsOnlyOnParentheses(unary: UnaryBinder, syntax: ExpressionSyntax)
    ensures BindOf(unary, syntax).result.Failure? <==> HasParentheses(syntax)
    ensures BindOf(unary, syntax).result.Failure? ==> BindOf(unary, syntax).result.error == UnexpectedSyntax(ParenthesizedExpression)
  {
    match syntax
    case LiteralExpressionSyntax(_, _) =>
    case UnaryExpressionSyntax(_, operand) =>
      ThrowsOnlyOnParentheses(unary, operand);
    case BinaryExpressionSyntax(left, _, right) =>
      ThrowsOnlyOnParentheses(unary, left);
      ThrowsOnlyOnParentheses(unary, right);
    case ParenthesizedExpressionSyntax(_, _, _) =>
  }

  /** A bound tree in which every binary operator is the table's operator
      for its token kind and its operands' types. */
  predicate WellTyped(e: BoundExpression)
  {
    match e
    case BoundLiteralExpression(_) => true
    case BoundUnaryExpression(_, operand) => WellTyped(operand)
    case BoundBinaryExpression(left, op, right) =>
      && Bind(op.syntaxKind, TypeOf(left), TypeOf(right)) == Some(op)
      && WellTyped(left) && WellTyped(right)
  }

  /** Binding gives well-typed trees. */
  lemma {:induction false} BindingIsWellTyped(unary: UnaryBinder, syntax: ExpressionSyntax)
    ensures var b := BindOf(unary, syntax); b.result.Success? ==> WellTyped(b.result.value)
  {
    match syntax
    case LiteralExpressionSyntax(_, _) =>
    case UnaryExpressionSyntax(_, operand) =>
      BindingIsWellTyped(unary, operand);
    case BinaryExpressionSyntax(left, _, right) =>
      BindingIsWellTyped(unary, left);
      BindingIsWellTyped(unary, right);
    case ParenthesizedExpressionSyntax(_, _, _) =>
  }

  /** The number of operators in a syntax tree. */
  function OperatorCount(syntax: ExpressionSyntax): nat
  {
    match syntax
    case LiteralExpressionSyntax(_, _) => 0
    case UnaryExpressionSyntax(_, operand) => 1 + OperatorCount(operand)
    case BinaryExpressionSyntax(left, _, right) => 1 + OperatorCount(left) + OperatorCount(right)
    case ParenthesizedExpressionSyntax(_, _, _) => 0
  }

  /** A bound tree that is the syntax tree node for node: literals with
      their values (a missing value as 0), and each operator bound for its
      own token kind. */
  predicate Mirrors(syntax: ExpressionSyntax, e: BoundExpression)
  {
    match syntax
    case LiteralExpressionSyntax(_, value) => e == BoundLiteralExpression(value.GetOr(IntLiteral(0)))
    case UnaryExpressionSyntax(_, operand) => e.BoundUnaryExpression? && Mirrors(operand, e.operand)
    case BinaryExpressionSyntax(left, operatorToken, right) =>
      && e.BoundBinaryExpression? && e.op.syntaxKind == operatorToken.kind
      && Mirrors(left, e.left) && Mirrors(right, e.right)
    case ParenthesizedExpressionSyntax(_, _, _) => false
  }

  /** Each operator is either bound or reported once, so binding reports
      at most one diagnostic per operator; and a binding that reports
      nothing keeps every node of the syntax tree. */
  lemma {:induction false} DiagnosticsPerOperator(unary: UnaryBinder, syntax: ExpressionSyntax)
    ensures |BindOf(unary, syntax).diagnostics| <= OperatorCount(syntax)
    ensures var b := BindOf(unary, syntax);
      b.result.Success? && b.diagnostics == [] ==> Mirrors(syntax, b.result.value)
  {
    match syntax
    case LiteralExpressionSyntax(_, _) =>
    case UnaryExpressionSyntax(_, operand) =>
      DiagnosticsPerOperator(unary, operand);
    case BinaryExpressionSyntax(left, _, right) =>
      DiagnosticsPerOperator(unary, left);
      DiagnosticsPerOperator(unary, right);
    case ParenthesizedExpressionSyntax(_, _, _) =>
  }

  /** A literal without a value binds as the int 0. */
  lemma MissingValueIsZero(unary: UnaryBinder, t: SyntaxToken)
    ensures BindOf(unary, LiteralExpressionSyntax(t, None)) == Bound(Success(BoundLiteralExpression(IntLiteral(0))), [])
  {
  }

  /** An undefined unary operator adds exactly one diagnostic, naming the
      operator's text and the operand's type, and the operand stands for
      the whole expression. */
  lemma UndefinedUnaryKeepsOperand(unary: UnaryBinder, operatorToken: SyntaxToken, operand: ExpressionSyntax)
    requires var o := BindOf(unary, operand);
      o.result.Success? && unary(operatorToken.kind, TypeOf(o.result.value)).None?
    ensures var o := BindOf(unary, operand);
      BindOf(unary, UnaryExpressionSyntax(operatorToken, operand))
      == Bound(o.result, o.diagnostics + [UndefinedUnaryOperator(operatorToken.text, TypeOf(o.result.value))])
  {
  }

  /** An undefined binary operator adds exactly one diagnostic, naming the
      operator's text and both operand types, and the left operand stands
      for the whole expression. */
  lemma UndefinedBinaryKeepsLeft(unary: UnaryBinder, left: ExpressionSyntax, operatorToken: SyntaxToken, right: ExpressionSyntax)
    requires var l := BindOf(unary, left); var r := BindOf(unary, right);
      l.result.Success? && r.result.Success?
      && Bind(operatorToken.kind, TypeOf(l.result.value), TypeOf(r.result.value)).None?
    ensures var l := BindOf(unary, left); var r := BindOf(unary, right);
      BindOf(unary, BinaryExpressionSyntax(left, operatorToken, right))
      == Bound(l.result, l.diagnostics + r.diagnostics + [UndefinedBinaryOperator(operatorToken.text, TypeOf(l.result.value), TypeOf(r.result.value))])
  {
  }

  /** The binder: its state is the diagnostics it has reported. */
  class Binder {
    const unary: UnaryBinder
    var diagnostics: seq<BinderDiagnostic>

    constructor (unary: UnaryBinder)
      ensures this.unary == unary && diagnostics == []
    {
      this.unary := unary;
      diagnostics := [];
    }

    method BindExpression(syntax: ExpressionSyntax) returns (r: Result<BoundExpression, BindFault>)
      modifies this
      ensures r == BindOf(unary, syntax).result
      ensures diagnostics == old(diagnostics) + BindOf(unary, syntax).diagnostics
      decreases syntax, 1
    {
      match syntax.Kind()
      case LiteralExpression => r := BindLiteralExpression(syntax);
      case UnaryExpression => r := BindUnaryExpression(syntax);
      case BinaryExpression => r := BindBinaryExpression(syntax);
      case _ => r := Failure(UnexpectedSyntax(syntax.Kind()));
    }

    method BindLiteralExpression(syntax: ExpressionSyntax) returns (r: Result<BoundExpression, BindFault>)
      requires syntax.LiteralExpressionSyntax?
      modifies this
      ensures r == BindOf(unary, syntax).result && diagnostics == old(diagnostics)
    {
      var value := syntax.value.GetOr(IntLiteral(0));
      r := Success(BoundLiteralExpression(value));
    }

    method BindUnaryExpression(syntax: ExpressionSyntax) returns (r: Result<BoundExpression, BindFault>)
      requires syntax.UnaryExpressionSyntax?
      modifies this
      ensures r == BindOf(unary, syntax).result
      ensures diagnostics == old(diagnostics) + BindOf(unary, syntax).diagnostics
      decreases syntax, 0
    {
      var boundOperand := BindExpression(syntax.operand);
      if boundOperand.Failure? {
        return boundOperand;
      }
      var operandType := TypeOf(boundOperand.value);
      var boundOperator := unary(syntax.operatorToken.kind, operandType);
      if boundOperator.None? {
        diagnostics := diagnostics + [UndefinedUnaryOperator(syntax.operatorToken.text, operandType)];
        return boundOperand;
      }
      r := Success(BoundUnaryExpression(boundOperator.value, boundOperand.value));
    }

    method BindBinaryExpression(syntax: ExpressionSyntax) returns (r: Result<BoundExpression, BindFault>)
      requires syntax.BinaryExpressionSyntax?
      modifies this
      ensures r == BindOf(unary, syntax).result
      ensures diagnostics == old(diagnostics) + BindOf(unary, syntax).diagnostics
      decreases syntax, 0
    {
      var boundLeft := BindExpression(syntax.left);
      if boundLeft.Failure? {
        return boundLeft;
      }
      ghost var l := BindOf(unary, syntax.left);
      var boundRight := BindExpression(syntax.right);
      ghost var rb := BindOf(unary, syntax.right);
      assert diagnostics == old(diagnostics) + (l.diagnostics + rb.diagnostics);
      if boundRight.Failure? {
        return boundRight;
      }
      var leftType := TypeOf(boundLeft.value);
      var rightType := TypeOf(boundRight.value);
      var boundOperator := Bind(syntax.operatorToken.kind, leftType, rightType);
      if boundOperator.None? {
        var report := UndefinedBinaryOperator(syntax.operatorToken.text, leftType, rightType);
        diagnostics := diagnostics + [report];
        assert diagnostics == old(diagnostics) + (l.diagnostics + rb.diagnostics + [report]);
        return boundLeft;
      }
      r := Success(BoundBinaryExpression(boundLeft.value, boundOperator.value, boundRight.value));
    }
  }
}
