// Diagnostics as (span, kind) values; the message texts are not modelled.
module CocoaDiagnostics {
  import opened Wrappers
  import opened TextSpans
  import opened CocoaSyntax
  import opened CocoaSymbols

  datatype DiagnosticKind =
    | InvalidNumber(text: string)
    | BadCharacter(character: char)
    | UnterminatedString
    | UnexpectedToken(actualKind: SyntaxKind, expectedKind: SyntaxKind)
    | UndefinedUnaryOperator(operatorText: Option<string>, operandType: TypeSymbol)
    | UndefinedBinaryOperator(operatorText: Option<string>, leftType: TypeSymbol, rightType: TypeSymbol)
    | UndefinedName(name: string)
    | UndefinedType(typeName: Option<string>)
    | UndefinedFunction(functionName: string)
    | CannotConvert(fromType: TypeSymbol, toType: TypeSymbol)
    | CannotConvertImplicitly(fromType: TypeSymbol, toType: TypeSymbol)
    | CannotAssign(variableName: string)
    | ExpressionMustHaveValue
    | WrongArgumentCount(calleeName: string, expectedCount: nat, actualCount: nat)
    | WrongArgumentType(parameterName: string, expectedType: TypeSymbol, actualType: TypeSymbol)
    | ParameterAlreadyDeclared(parameterName: string)
    | SymbolAlreadyDeclared(symbolName: string)
    | FunctionsAreUnsupported

  datatype Diagnostic = Diagnostic(span: TextSpan, kind: DiagnosticKind)

  /** A bad character is reported over the one character at its position. */
  function BadCharacterAt(position: int, c: char): Diagnostic
  {
    Diagnostic(TextSpan(position, 1), BadCharacter(c))
  }
}
