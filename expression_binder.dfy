// Expression binding. Binding an expression reads the scope chain but
// never changes it; its only side effect is appending diagnostics, so here
// it is a function from the scope tables and the syntax to the bound
// expression and the diagnostics it appends, in order.
module CocoaExpressionBinder {
  import opened Wrappers
  import opened TextSpans
  import opened CocoaSyntax
  import opened CocoaSymbols
  import opened CocoaDiagnostics
  import opened BoundTree
  import opened CocoaOperators
  import opened CocoaScope

  /** What binding sees: the scope chain, innermost first, and the
      conversion classifier. */
  datatype BindEnv = BindEnv(chain: seq<Table>, classify: Classifier)

  /** A bound expression and the diagnostics binding it reported. */
  datatype Bound = Bound(expression: BoundExpression, diagnostics: seq<Diagnostic>)

  /** Binder.LookupType: the three type names. */
  function LookupType(name: string): (r: Option<TypeSymbol>)
    ensures r.Some? <==> name in {"bool", "int", "string"}
    ensures r.Some? ==> r.value in {BoolType, IntType, StringType} && r.value.Name() == name
  {
    if name == "bool" then Some(BoolType)
    else if name == "int" then Some(IntType)
    else if name == "string" then Some(StringType)
    else None
  }

  /** A literal whose value is null binds as the integer 0. */
  function LiteralValue(v: TokenValue): Constant
  {
    match v
    case NoValue => IntVal(0)
    case IntValue(i) => IntVal(i)
    case BoolValue(b) => BoolVal(b)
    case StringValue(s) => StrVal(s)
  }

  function Concat(dss: seq<seq<Diagnostic>>): seq<Diagnostic>
  {
    if dss == [] then [] else dss[0] + Concat(dss[1..])
  }

  /** BindConversion on an already bound expression. */
  function BindConversion(classify: Classifier, span: TextSpan, b: Bound, t: TypeSymbol, allowExplicit: bool): (r: Bound)
    ensures b.diagnostics <= r.diagnostics && |r.diagnostics| <= |b.diagnostics| + 1
    // no conversion: an error, reported unless either side already is one
    ensures !classify(TypeOf(b.expression), t).isDefined ==>
      r.expression == ErrorExpression
      && (|r.diagnostics| == |b.diagnostics| + 1 <==> TypeOf(b.expression) != ErrorType && t != ErrorType)
    // an explicit conversion without allowExplicit is reported but still built
    ensures classify(TypeOf(b.expression), t).isDefined ==>
      (|r.diagnostics| == |b.diagnostics| + 1 <==> !allowExplicit && classify(TypeOf(b.expression), t).isExplicit)
    // the identity conversion returns the expression itself
    ensures classify(TypeOf(b.expression), t).isDefined && classify(TypeOf(b.expression), t).isIdentity ==>
      r.expression == b.expression
    ensures classify(TypeOf(b.expression), t).isDefined && !classify(TypeOf(b.expression), t).isIdentity ==>
      r.expression == ConversionExpression(t, b.expression)
    ensures |r.diagnostics| == |b.diagnostics| + 1 ==> r.diagnostics[|b.diagnostics|].span == span
  {
    var from := TypeOf(b.expression);
    var c := classify(from, t);
    if !c.isDefined then
      var ds := if from != ErrorType && t != ErrorType then [Diagnostic(span, CannotConvert(from, t))] else [];
      Bound(ErrorExpression, b.diagnostics + ds)
    else
      var ds := if !allowExplicit && c.isExplicit then [Diagnostic(span, CannotConvertImplicitly(from, t))] else [];
      Bound(if c.isIdentity then b.expression else ConversionExpression(t, b.expression), b.diagnostics + ds)
  }

  /** The checks on a unary operand: an operand of error type yields an error
      with no further diagnostic; a missing operator yields an error and one
      diagnostic at the operator. */
  function BindUnaryOperation(opToken: SyntaxToken, operand: Bound): (r: Bound)
    ensures r.expression.ErrorExpression? <==>
      TypeOf(operand.expression) == ErrorType || BindUnary(opToken.kind, TypeOf(operand.expression)).None?
    ensures TypeOf(operand.expression) == ErrorType ==> r.diagnostics == operand.diagnostics
    ensures TypeOf(operand.expression) != ErrorType && BindUnary(opToken.kind, TypeOf(operand.expression)).None? ==>
      r.diagnostics == operand.diagnostics
        + [Diagnostic(opToken.Span(), UndefinedUnaryOperator(opToken.text, TypeOf(operand.expression)))]
    ensures !r.expression.ErrorExpression? ==>
      r.diagnostics == operand.diagnostics && r.expression.UnaryExpression? && r.expression.operand == operand.expression
      && r.expression.unaryOp.syntaxKind == opToken.kind && r.expression.unaryOp.operandType == TypeOf(operand.expression)
  {
    var t := TypeOf(operand.expression);
    var op := BindUnary(opToken.kind, t);
    if t == ErrorType then Bound(ErrorExpression, operand.diagnostics)
    else if op.None? then
      Bound(ErrorExpression, operand.diagnostics + [Diagnostic(opToken.Span(), UndefinedUnaryOperator(opToken.text, t))])
    else Bound(BoundExpression.UnaryExpression(op.value, operand.expression), operand.diagnostics)
  }

  /** The checks on binary operands, as for unary ones; the diagnostics of
      the left operand come before those of the right. */
  function BindBinaryOperation(left: Bound, opToken: SyntaxToken, right: Bound): (r: Bound)
    ensures r.expression.ErrorExpression? <==>
      TypeOf(left.expression) == ErrorType || TypeOf(right.expression) == ErrorType
      || BindBinary(opToken.kind, TypeOf(left.expression), TypeOf(right.expression)).None?
    ensures TypeOf(left.expression) == ErrorType || TypeOf(right.expression) == ErrorType ==>
      r.diagnostics == left.diagnostics + right.diagnostics
    ensures (TypeOf(left.expression) != ErrorType && TypeOf(right.expression) != ErrorType
      && BindBinary(opToken.kind, TypeOf(left.expression), TypeOf(right.expression)).None?) ==>
      r.diagnostics == left.diagnostics + right.diagnostics
        + [Diagnostic(opToken.Span(), UndefinedBinaryOperator(opToken.text, TypeOf(left.expression), TypeOf(right.expression)))]
    ensures !r.expression.ErrorExpression? ==>
      r.diagnostics == left.diagnostics + right.diagnostics
      && r.expression.BinaryExpression? && r.expression.left == left.expression && r.expression.right == right.expression
      && TypeOf(left.expression) == TypeOf(right.expression)
  {
    var lt, rt := TypeOf(left.expression), TypeOf(right.expression);
    var op := BindBinary(opToken.kind, lt, rt);
    var ds := left.diagnostics + right.diagnostics;
    if lt == ErrorType || rt == ErrorType then Bound(ErrorExpression, ds)
    else if op.None? then
      Bound(ErrorExpression, ds + [Diagnostic(opToken.Span(), UndefinedBinaryOperator(opToken.text, lt, rt))])
    else
      BindBinaryTable(opToken.kind, lt, rt);
      Bound(BoundExpression.BinaryExpression(left.expression, op.value, right.expression), ds)
  }

  /** The checks of an assignment once its right-hand side is bound: an
      undefined name or a type mismatch is reported and the right-hand side
      is returned; a read-only target is reported and binding goes on. */
  function BindAssignmentTo(lookup: Option<VariableSymbol>, identifier: PresentToken, equalsToken: SyntaxToken, rhsSpan: TextSpan, rhs: Bound): (r: Bound)
    ensures rhs.diagnostics <= r.diagnostics
    ensures lookup.None? ==>
      r == Bound(rhs.expression, rhs.diagnostics + [Diagnostic(identifier.Span(), UndefinedName(identifier.text.value))])
    ensures lookup.Some? ==>
      var v := lookup.value;
      var readOnly := if v.isReadOnly then [Diagnostic(equalsToken.Span(), CannotAssign(identifier.text.value))] else [];
      (TypeOf(rhs.expression) != v.typeSymbol ==>
        r == Bound(rhs.expression, rhs.diagnostics + readOnly + [Diagnostic(rhsSpan, CannotConvert(TypeOf(rhs.expression), v.typeSymbol))]))
      && (TypeOf(rhs.expression) == v.typeSymbol ==>
        r == Bound(BoundExpression.AssignmentExpression(v, rhs.expression), rhs.diagnostics + readOnly))
  {
    var name := identifier.text.value;
    if lookup.None? then Bound(rhs.expression, rhs.diagnostics + [Diagnostic(identifier.Span(), UndefinedName(name))])
    else
      var v := lookup.value;
      var ds := rhs.diagnostics + if v.isReadOnly then [Diagnostic(equalsToken.Span(), CannotAssign(name))] else [];
      if TypeOf(rhs.expression) != v.typeSymbol then
        Bound(rhs.expression, ds + [Diagnostic(rhsSpan, CannotConvert(TypeOf(rhs.expression), v.typeSymbol))])
      else Bound(BoundExpression.AssignmentExpression(v, rhs.expression), ds)
  }

  /** The index of the first argument whose type differs from its
      parameter's, if any. */
  function FirstMismatch(parameters: seq<VariableSymbol>, arguments: seq<BoundExpression>, from: nat): (r: Option<nat>)
    requires |parameters| == |arguments| && from <= |arguments|
    ensures r.Some? ==> from <= r.value < |arguments| && TypeOf(arguments[r.value]) != parameters[r.value].typeSymbol
    ensures r.Some? ==> forall j :: from <= j < r.value ==> TypeOf(arguments[j]) == parameters[j].typeSymbol
    ensures r.None? ==> forall j :: from <= j < |arguments| ==> TypeOf(arguments[j]) == parameters[j].typeSymbol
    decreases |arguments| - from
  {
    if from == |arguments| then None
    else if TypeOf(arguments[from]) != parameters[from].typeSymbol then Some(from)
    else FirstMismatch(parameters, arguments, from + 1)
  }

  /** The checks of a call once its arguments are bound: an unknown function,
      a wrong argument count or the first argument of the wrong type each
      add one diagnostic and give an error. */
  function BindCallTo(lookup: Option<FunctionSymbol>, callee: PresentToken, callSpan: TextSpan,
                      argumentSpans: seq<TextSpan>, arguments: seq<BoundExpression>, argumentDiagnostics: seq<Diagnostic>): (r: Bound)
    requires |argumentSpans| == |arguments|
    ensures argumentDiagnostics <= r.diagnostics && |r.diagnostics| <= |argumentDiagnostics| + 1
    ensures r.expression.ErrorExpression? <==> |r.diagnostics| == |argumentDiagnostics| + 1
    ensures lookup.None? ==> r.diagnostics == argumentDiagnostics + [Diagnostic(callee.Span(), UndefinedFunction(callee.text.value))]
    ensures lookup.Some? && |arguments| != |lookup.value.parameters| ==>
      r.diagnostics == argumentDiagnostics
        + [Diagnostic(callSpan, WrongArgumentCount(lookup.value.name, |lookup.value.parameters|, |arguments|))]
    ensures lookup.Some? && |arguments| == |lookup.value.parameters| ==>
      (r.expression.ErrorExpression? <==> exists i :: 0 <= i < |arguments| && TypeOf(arguments[i]) != lookup.value.parameters[i].typeSymbol)
    ensures !r.expression.ErrorExpression? ==> r.expression == BoundExpression.CallExpression(lookup.value, arguments)
  {
    if lookup.None? then
      Bound(ErrorExpression, argumentDiagnostics + [Diagnostic(callee.Span(), UndefinedFunction(callee.text.value))])
    else
      var f := lookup.value;
      if |arguments| != |f.parameters| then
        Bound(ErrorExpression, argumentDiagnostics + [Diagnostic(callSpan, WrongArgumentCount(f.name, |f.parameters|, |arguments|))])
      else
        match FirstMismatch(f.parameters, arguments, 0)
        case Some(i) =>
          var p := f.parameters[i];
          Bound(ErrorExpression, argumentDiagnostics + [Diagnostic(argumentSpans[i], WrongArgumentType(p.name, p.typeSymbol, TypeOf(arguments[i])))])
        case None => Bound(BoundExpression.CallExpression(f, arguments), argumentDiagnostics)
  }

  /** Binder.BindExpression(syntax, canBeVoid): a void expression where a
      value is needed is reported and replaced by an error. */
  function BindExpression(env: BindEnv, e: ExpressionSyntax, canBeVoid: bool): (r: Bound)
    ensures !canBeVoid ==> TypeOf(r.expression) != VoidType
    decreases e, 1
  {
    var b := BindExpressionInternal(env, e);
    if !canBeVoid && TypeOf(b.expression) == VoidType then
      Bound(ErrorExpression, b.diagnostics + [Diagnostic(ExpressionSpan(e), ExpressionMustHaveValue)])
    else b
  }

  /** Binder.BindExpression(syntax, targetType): the expression is bound as
      usual and a type differing from the target is reported. */
  function BindExpressionTo(env: BindEnv, e: ExpressionSyntax, target: TypeSymbol): (r: Bound)
    ensures r.expression == BindExpression(env, e, false).expression
    ensures BindExpression(env, e, false).diagnostics <= r.diagnostics
    ensures |r.diagnostics| == |BindExpression(env, e, false).diagnostics| + 1 <==>
      target != ErrorType && TypeOf(r.expression) != ErrorType && TypeOf(r.expression) != target
    ensures |r.diagnostics| <= |BindExpression(env, e, false).diagnostics| + 1
  {
    var b := BindExpression(env, e, false);
    var t := TypeOf(b.expression);
    if target != ErrorType && t != ErrorType && t != target
    then Bound(b.expression, b.diagnostics + [Diagnostic(ExpressionSpan(e), CannotConvert(t, target))])
    else b
  }

  /** Binder.BindConversion(syntax, type, allowExplicit). */
  function BindConversionOf(env: BindEnv, e: ExpressionSyntax, t: TypeSymbol, allowExplicit: bool): Bound
    decreases e, 2
  {
    BindConversion(env.classify, ExpressionSpan(e), BindExpression(env, e, false), t, allowExplicit)
  }

  function BindExpressionInternal(env: BindEnv, e: ExpressionSyntax): (r: Bound)
    decreases e, 0
  {
    match e
    case ParenthesizedExpression(_, inner, _) => BindExpression(env, inner, false)
    case LiteralExpression(_, value) => Bound(BoundExpression.LiteralExpression(LiteralValue(value)), [])
    case NameExpression(identifier) =>
      if identifier.IsMissing() then Bound(ErrorExpression, [])
      else
        var v := LookUpVariable(env.chain, identifier.text.value);
        if v.None? then Bound(ErrorExpression, [Diagnostic(identifier.Span(), UndefinedName(identifier.text.value))])
        else Bound(VariableExpression(v.value), [])
    case AssignmentExpression(identifier, equalsToken, rhs) =>
      var b := BindExpression(env, rhs, false);
      BindAssignmentTo(LookUpVariable(env.chain, identifier.text.value), identifier, equalsToken, ExpressionSpan(rhs), b)
    case UnaryExpression(opToken, operand) =>
      BindUnaryOperation(opToken, BindExpression(env, operand, false))
    case BinaryExpression(left, opToken, right) =>
      BindBinaryOperation(BindExpression(env, left, false), opToken, BindExpression(env, right, false))
    case CallExpression(callee, _, arguments, _) =>
      if |arguments| == 1 && LookupType(callee.text.value).Some? then
        BindConversionOf(env, arguments[0], LookupType(callee.text.value).value, true)
      else
        var bs := seq(|arguments|, i requires 0 <= i < |arguments| => BindExpression(env, arguments[i], false));
        BindCallTo(LookUpFunction(env.chain, callee.text.value), callee, ExpressionSpan(e),
          seq(|arguments|, i requires 0 <= i < |arguments| => ExpressionSpan(arguments[i])),
          seq(|bs|, i requires 0 <= i < |bs| => bs[i].expression),
          Concat(seq(|bs|, i requires 0 <= i < |bs| => bs[i].diagnostics)))
  }
}
