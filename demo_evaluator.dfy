// The second calculator's evaluator: a bound tree evaluated to a 32-bit
// integer, with C#'s unchecked wrap-around for + - * and unary minus,
// division truncating toward zero, and exceptions as faults.
module DemoEvaluator {
  import opened Wrappers
  import opened Int32
  import opened DemoSyntax
  import opened DemoOperators
  import opened DemoBinder

  /** Why evaluation throws: the `(int)` cast of a boxed bool, the two
      division exceptions, and the switches' default cases. */
  datatype EvalFault =
    | InvalidCast
    | DivisionByZero
    | DivisionOverflow
    | UnexpectedUnaryOperator(unaryKind: UnaryKind)
    | UnexpectedBinaryOperator(binaryKind: BinaryKind)

  /** EvaluateExpression: a literal is cast to int; a unary expression
      evaluates its operand, then applies Identity or Negation; a binary
      expression evaluates its left operand, then its right one, then
      applies + - * or /. Any other operator throws, and so does any
      operand that throws. */
  function EvaluateExpression(node: BoundExpression): Result<i32, EvalFault>
  {
    match node
    case BoundLiteralExpression(value) =>
      if value.IntLiteral? then Success(value.i) else Failure(InvalidCast)
    case BoundUnaryExpression(kind, operand) =>
      var o := EvaluateExpression(operand);
      if o.Failure? then o
      else if kind == Identity then Success(o.value)
      else if kind == Negation then Success(Neg(o.value))
      else Failure(UnexpectedUnaryOperator(kind))
    case BoundBinaryExpression(left, op, right) =>
      var a := EvaluateExpression(left);
      if a.Failure? then a
      else
        var b := EvaluateExpression(right);
        if b.Failure? then b
        else Apply(op.kind, a.value, b.value)
  }

  /** The binary switch on two operand values. */
  function Apply(kind: BinaryKind, a: i32, b: i32): Result<i32, EvalFault>
  {
    match kind
    case Addition => Success(Add(a, b))
    case Subtraction => Success(Sub(a, b))
    case Multiplication => Success(Mul(a, b))
    case Division =>
      (match Div(a, b)
       case Quotient(q) => Success(q)
       case DivFailed(f) => Failure(if f == DivideByZero then DivisionByZero else DivisionOverflow))
    case _ => Failure(UnexpectedBinaryOperator(kind))
  }

  /** Evaluate: the root's value. */
  function Evaluate(root: BoundExpression): Result<i32, EvalFault>
  {
    EvaluateExpression(root)
  }

  /** A tree without a division. */
  predicate DivisionFree(e: BoundExpression)
  {
    match e
    case BoundLiteralExpression(_) => true
    case BoundUnaryExpression(_, operand) => DivisionFree(operand)
    case BoundBinaryExpression(left, op, right) =>
      op.kind != Division && DivisionFree(left) && DivisionFree(right)
  }

  /** The same tree evaluated with unbounded integers, as a reference:
      none where the evaluator's switches or cast have no case. */
  function Exact(e: BoundExpression): Option<int>
  {
    match e
    case BoundLiteralExpression(value) =>
      if value.IntLiteral? then Some(value.i as int) else None
    case BoundUnaryExpression(kind, operand) =>
      var o := Exact(operand);
      if o.None? then None
      else if kind == Identity then o
      else if kind == Negation then Some(-o.value)
      else None
    case BoundBinaryExpression(left, op, right) =>
      var a, b := Exact(left), Exact(right);
      if a.None? || b.None? then None
      else if op.kind == Addition then Some(a.value + b.value)
      else if op.kind == Subtraction then Some(a.value - b.value)
      else if op.kind == Multiplication then Some(a.value * b.value)
      else None
  }

  /** Without division, the evaluator succeeds exactly when the unbounded
      reference has a value, and then its result is that value wrapped to
      32 bits: wrap-around loses nothing but the high bits. */
  lemma {:induction false} EvaluationWrapsExact(e: BoundExpression)
    requires DivisionFree(e)
    ensures Evaluate(e).Success? <==> Exact(e).Some?
    ensures Evaluate(e).Success? ==> Evaluate(e).value == Wrap(Exact(e).value)
  {
    match e
    case BoundLiteralExpression(value) =>
    case BoundUnaryExpression(kind, operand) =>
      EvaluationWrapsExact(operand);
      if Exact(operand).Some? {
        WrappedNeg(Exact(operand).value);
      }
    case BoundBinaryExpression(left, op, right) =>
      EvaluationWrapsExact(left);
      EvaluationWrapsExact(right);
      if Exact(left).Some? && Exact(right).Some? {
        var x, y := Exact(left).value, Exact(right).value;
        if op.kind == Addition {
          WrappedAdd(x, y);
        } else if op.kind == Subtraction {
          WrappedSub(x, y);
        } else if op.kind == Multiplication {
          WrappedMul(x, y);
        }
      }
  }

  /** Division by zero throws DivideByZeroException, `int.MinValue / -1`
      throws OverflowException, and any other division truncates toward
      zero. */
  lemma DivisionFaults(left: BoundExpression, op: BoundBinaryOperator, right: BoundExpression, a: i32, b: i32)
    requires op.kind == Division
    requires Evaluate(left) == Success(a) && Evaluate(right) == Success(b)
    ensures var r := Evaluate(BoundBinaryExpression(left, op, right));
      && (r == Failure(DivisionByZero) <==> b == 0)
      && (r == Failure(DivisionOverflow) <==> a == MinValue && b == -1)
      && (r.Success? <==> b != 0 && !(a == MinValue && b == -1))
      && (r.Success? ==> r.value == TruncDiv(a, b))
  {
  }

  /** The evaluator only computes ints: a well-typed tree of type bool
      always throws, whatever it holds. */
  lemma {:induction false} BoolTreesThrow(e: BoundExpression)
    requires WellTyped(e) && TypeOf(e) == BoolType
    ensures Evaluate(e).Failure?
  {
    match e
    case BoundLiteralExpression(_) =>
    case BoundUnaryExpression(_, operand) =>
      BoolTreesThrow(operand);
    case BoundBinaryExpression(left, op, right) =>
      ResultIsLeftType(op.syntaxKind, TypeOf(left), TypeOf(right));
      BoolTreesThrow(left);
  }

  /** A well-typed tree of type int never hits the cast or the binary
      switch's default: it can throw only for a division or a logical
      negation. */
  lemma {:induction false} IntTreesThrowOnlyOnDivisionOrNot(e: BoundExpression)
    requires WellTyped(e) && TypeOf(e) == IntType
    ensures var r := Evaluate(e);
      r.Failure? ==> r.error in {DivisionByZero, DivisionOverflow, UnexpectedUnaryOperator(LogicalNegation)}
  {
    match e
    case BoundLiteralExpression(_) =>
    case BoundUnaryExpression(_, operand) =>
      IntTreesThrowOnlyOnDivisionOrNot(operand);
    case BoundBinaryExpression(left, op, right) =>
      ResultIsLeftType(op.syntaxKind, TypeOf(left), TypeOf(right));
      BindIsKeyed(op.syntaxKind, TypeOf(left), TypeOf(right));
      IntTreesThrowOnlyOnDivisionOrNot(left);
      IntTreesThrowOnlyOnDivisionOrNot(right);
  }
}
