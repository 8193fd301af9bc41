// Symbols of the Cocoa language: types, variables and functions.
//
// Variable and function symbols are objects in the source: the binder,
// the scopes and the evaluator compare and index them by reference. They
// are Dafny classes whose fields never change after construction.
module CocoaSymbols {
  import opened Wrappers
  import opened CocoaSyntax

  /** The four built-in types, `void`, and the missing type that an
      undefined type name binds to. */
  datatype TypeSymbol = ErrorType | BoolType | IntType | StringType | VoidType | NoType
  {
    function Name(): string
    {
      match this
      case ErrorType => "?"
      case BoolType => "bool"
      case IntType => "int"
      case StringType => "string"
      case VoidType => "void"
      case NoType => ""
    }
  }

  datatype VariableKind = GlobalVariable | LocalVariable | Parameter

  class VariableSymbol {
    const name: string
    const kind: VariableKind
    const isReadOnly: bool
    const typeSymbol: TypeSymbol

    constructor (name: string, kind: VariableKind, isReadOnly: bool, typeSymbol: TypeSymbol)
      ensures this.name == name && this.kind == kind
      ensures this.isReadOnly == isReadOnly && this.typeSymbol == typeSymbol
    {
      this.name := name;
      this.kind := kind;
      this.isReadOnly := isReadOnly;
      this.typeSymbol := typeSymbol;
    }
  }

  class FunctionSymbol {
    const name: string
    const parameters: seq<VariableSymbol>
    const returnType: TypeSymbol
    /** The declaring syntax; the built-in functions have none. */
    const declaration: Option<FunctionDeclarationSyntax>

    constructor (name: string, parameters: seq<VariableSymbol>, returnType: TypeSymbol, declaration: Option<FunctionDeclarationSyntax>)
      ensures this.name == name && this.parameters == parameters
      ensures this.returnType == returnType && this.declaration == declaration
    {
      this.name := name;
      this.parameters := parameters;
      this.returnType := returnType;
      this.declaration := declaration;
    }
  }

  /** A parameter is a read-only local of the function body. */
  predicate IsParameter(p: VariableSymbol)
  {
    p.kind == Parameter && p.isReadOnly
  }

  /** The three built-in functions `print(text: string): void`,
      `input(): string` and `random(max: int): int`. */
  datatype Builtins = Builtins(printFunction: FunctionSymbol, inputFunction: FunctionSymbol, randomFunction: FunctionSymbol)
  {
    predicate Valid()
    {
      && printFunction.name == "print" && |printFunction.parameters| == 1 && printFunction.returnType == VoidType
      && printFunction.parameters[0].name == "text" && printFunction.parameters[0].typeSymbol == StringType
      && IsParameter(printFunction.parameters[0])
      && inputFunction.name == "input" && |inputFunction.parameters| == 0 && inputFunction.returnType == StringType
      && randomFunction.name == "random" && |randomFunction.parameters| == 1 && randomFunction.returnType == IntType
      && randomFunction.parameters[0].name == "max" && randomFunction.parameters[0].typeSymbol == IntType
      && IsParameter(randomFunction.parameters[0])
      && printFunction.declaration.None? && inputFunction.declaration.None? && randomFunction.declaration.None?
    }

    function All(): seq<FunctionSymbol>
    {
      [printFunction, inputFunction, randomFunction]
    }
  }

  method CreateBuiltins() returns (b: Builtins)
    ensures b.Valid()
    ensures fresh(b.printFunction) && fresh(b.inputFunction) && fresh(b.randomFunction)
  {
    var text := new VariableSymbol("text", Parameter, true, StringType);
    var max := new VariableSymbol("max", Parameter, true, IntType);
    var printFn := new FunctionSymbol("print", [text], VoidType, None);
    var inputFn := new FunctionSymbol("input", [], StringType, None);
    var randomFn := new FunctionSymbol("random", [max], IntType, None);
    b := Builtins(printFn, inputFn, randomFn);
  }
}
