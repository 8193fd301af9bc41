// Compilation: one submission's syntax tree on top of the previous
// submission's compilation. Its global scope is bound on first use and kept;
// evaluation stops at the first stage that reports diagnostics.
module CocoaCompilation {
  import opened Wrappers
  import opened CocoaSyntax
  import opened CocoaSymbols
  import opened CocoaDiagnostics
  import opened BoundTree
  import opened CocoaBinder
  import opened CocoaEvaluator

  /** A parsed text: its root and the diagnostics of lexing and parsing. */
  datatype SyntaxTree = SyntaxTree(root: CompilationUnitSyntax, diagnostics: seq<Diagnostic>)

  /** What Evaluate hands back: the diagnostics, and the value when there
      were none. */
  datatype EvaluationResult = EvaluationResult(diagnostics: seq<Diagnostic>, value: Value)

  /** The parts of the pipeline that are static in the source: the
      built-in functions, the conversion classifier, the lowerer, and the
      library conversions and random stream the evaluator uses. */
  datatype Pipeline = Pipeline(builtins: Builtins, classify: Classifier, lower: Lowerer, convert: Converter, sample: nat -> nat)

  /** An exception out of Evaluate: from binding the program or from
      running it. */
  datatype CompilationFault = BindingFault(bindingFault: ProgramFault) | EvaluationFault(evaluationFault: Fault)

  /** The state the evaluator starts in: the caller's globals, one empty
      frame, a null last value. */
  function InitialState(globals: Frame, terminal: Terminal): State
  {
    State(globals, [map[]], NullValue, terminal, 0)
  }

  class Compilation {
    const previous: Option<Compilation>
    const syntaxTree: SyntaxTree
    const pipeline: Pipeline
    /** This compilation and all earlier ones. */
    ghost const Repr: set<Compilation>
    /** The memoised global scope. */
    var globalScope: Option<BoundGlobalScope>

    /** The chain of earlier compilations is finite, shares the pipeline,
        and a memoised scope is bound on top of the previous compilation's
        memoised scope. */
    ghost predicate Valid()
      reads Repr
      decreases Repr
    {
      && this in Repr
      && (previous.Some? ==>
           && previous.value in Repr && previous.value.Repr < Repr && this !in previous.value.Repr
           && previous.value.pipeline == pipeline && previous.value.Valid())
      && (globalScope.Some? && previous.None? ==> globalScope.value.previous.None?)
      && (globalScope.Some? && previous.Some? ==>
           previous.value.globalScope.Some? && globalScope.value.previous == previous.value.globalScope)
    }

    /** `new Compilation(syntaxTree)`: the first submission. */
    constructor (syntaxTree: SyntaxTree, pipeline: Pipeline)
      ensures Valid() && Repr == {this}
      ensures previous.None? && this.syntaxTree == syntaxTree && this.pipeline == pipeline && globalScope.None?
    {
      previous := None;
      this.syntaxTree := syntaxTree;
      this.pipeline := pipeline;
      Repr := {this};
      globalScope := None;
    }

    /** The private constructor behind ContinueWith. */
    constructor Continuing(previous: Compilation, syntaxTree: SyntaxTree)
      requires previous.Valid()
      ensures Valid() && Repr == {this} + previous.Repr
      ensures this.previous == Some(previous) && this.syntaxTree == syntaxTree
      ensures pipeline == previous.pipeline && globalScope.None?
    {
      this.previous := Some(previous);
      this.syntaxTree := syntaxTree;
      pipeline := previous.pipeline;
      Repr := {this} + previous.Repr;
      globalScope := None;
    }

    /** ContinueWith: a new compilation whose previous one is this; the
        receiver is not changed. */
    method ContinueWith(syntaxTree: SyntaxTree) returns (c: Compilation)
      requires Valid()
      ensures fresh(c) && c.Valid()
      ensures c.previous == Some(this) && c.syntaxTree == syntaxTree && c.globalScope.None?
      ensures c.Repr == {c} + Repr
    {
      c := new Compilation.Continuing(this, syntaxTree);
    }

    /** The GlobalScope property: bound on top of the previous
        compilation's global scope on first use, then returned as stored. */
    method GetGlobalScope() returns (g: BoundGlobalScope)
      requires Valid()
      modifies Repr
      ensures Valid() && globalScope == Some(g)
      ensures old(globalScope).Some? ==> g == old(globalScope).value && unchanged(Repr)
      ensures previous.None? ==> g.previous.None?
      ensures previous.Some? ==> g.previous == previous.value.globalScope && g.previous.Some?
      ensures forall c :: c in Repr && old(c.globalScope).Some? ==> c.globalScope == old(c.globalScope)
      decreases Repr
    {
      if globalScope.None? {
        var prior: Option<BoundGlobalScope> := None;
        if previous.Some? {
          var p := previous.value.GetGlobalScope();
          prior := Some(p);
        }
        var bound := BindGlobalScope(prior, syntaxTree.root, pipeline.builtins, pipeline.classify);
        globalScope := Some(bound);
      }
      g := globalScope.value;
    }

    /** Evaluate: the syntax and global-scope diagnostics (syntax first),
        if any, are the result with a null value; then the program is bound
        (a binding exception is the first one BindProgram meets), and its
        diagnostics, if any, are the result with a null value;
        otherwise the evaluator runs the program over the caller's
        variables and its value is the result, with no diagnostics. */
    method Evaluate(variables: GlobalStore, terminal: Terminal, fuel: nat)
      returns (r: Result<EvaluationResult, CompilationFault>, ghost program: Option<BoundProgram>, terminal': Terminal)
      requires Valid()
      modifies Repr, variables
      ensures Valid() && globalScope.Some?
      ensures var front := syntaxTree.diagnostics + globalScope.value.diagnostics;
        && (front != [] ==>
             r == Success(EvaluationResult(front, NullValue)) && program.None?
             && variables.values == old(variables.values) && terminal' == terminal)
        && (front == [] ==> (program.None? <==> ProgramFaultOf(globalScope.value).Some?))
        && (front == [] && program.Some? ==> BindsProgram(globalScope.value, pipeline.lower, program.value))
        && (front == [] && program.Some? ==> forall f :: f in program.value.functions ==>
             exists b :: LoweredFrom(f, pipeline.lower, program.value.functions[f], b))
        && (front == [] && program.None? ==>
             r.Failure? && r.error.BindingFault? && variables.values == old(variables.values) && terminal' == terminal)
        && (front == [] && program.None? ==> r == Failure(BindingFault(ProgramFaultOf(globalScope.value).value)))
        && (front == [] && program.Some? && program.value.diagnostics != [] ==>
             r == Success(EvaluationResult(program.value.diagnostics, NullValue))
             && variables.values == old(variables.values) && terminal' == terminal)
        && (front == [] && program.Some? && program.value.diagnostics == [] ==>
             var env := Env(program.value, pipeline.builtins, pipeline.convert, pipeline.sample);
             var o := Run(env, fuel, program.value.statement, InitialState(old(variables.values), terminal));
             && r == (if o.result.Success? then Success(EvaluationResult([], o.result.value)) else Failure(EvaluationFault(o.result.error)))
             && variables.values == o.state.globals && terminal' == o.state.terminal)
    {
      var scope := GetGlobalScope();
      var front := syntaxTree.diagnostics + scope.diagnostics;
      if front != [] {
        r, program, terminal' := Success(EvaluationResult(front, NullValue)), None, terminal;
      } else {
        r, program, terminal' := BindAndRun(scope, pipeline, variables, terminal, fuel);
      }
    }
  }

  /** The second half of Evaluate, once the global scope reported nothing:
      a binding fault or the program's diagnostics are the result, and
      otherwise the evaluator runs the program over the caller's variables. */
  method BindAndRun(scope: BoundGlobalScope, pipeline: Pipeline, variables: GlobalStore, terminal: Terminal, fuel: nat)
    returns (r: Result<EvaluationResult, CompilationFault>, ghost program: Option<BoundProgram>, terminal': Terminal)
    modifies variables
    ensures program.None? <==> ProgramFaultOf(scope).Some?
    ensures program.None? ==> r == Failure(BindingFault(ProgramFaultOf(scope).value))
    ensures program.Some? ==> BindsProgram(scope, pipeline.lower, program.value)
    ensures program.Some? ==> forall f :: f in program.value.functions ==>
      exists b :: LoweredFrom(f, pipeline.lower, program.value.functions[f], b)
    ensures program.None? ==>
      r.Failure? && r.error.BindingFault? && variables.values == old(variables.values) && terminal' == terminal
    ensures program.Some? && program.value.diagnostics != [] ==>
      r == Success(EvaluationResult(program.value.diagnostics, NullValue))
      && variables.values == old(variables.values) && terminal' == terminal
    ensures program.Some? && program.value.diagnostics == [] ==>
      var env := Env(program.value, pipeline.builtins, pipeline.convert, pipeline.sample);
      var o := Run(env, fuel, program.value.statement, InitialState(old(variables.values), terminal));
      && r == (if o.result.Success? then Success(EvaluationResult([], o.result.value)) else Failure(EvaluationFault(o.result.error)))
      && variables.values == o.state.globals && terminal' == o.state.terminal
  {
    var bound := BindProgram(scope, pipeline.builtins, pipeline.classify, pipeline.lower);
    if bound.ProgramFailed? {
      r, program, terminal' := Failure(BindingFault(bound.fault)), None, terminal;
    } else if bound.program.diagnostics != [] {
      r, program, terminal' := Success(EvaluationResult(bound.program.diagnostics, NullValue)), Some(bound.program), terminal;
    } else {
      program := Some(bound.program);
      var env := Env(bound.program, pipeline.builtins, pipeline.convert, pipeline.sample);
      var evaluator := new Evaluator(env, variables, terminal);
      var value := evaluator.Evaluate(fuel);
      r := if value.Success? then Success(EvaluationResult([], value.value)) else Failure(EvaluationFault(value.error));
      terminal' := evaluator.terminal;
    }
  }

  /** ContinueWith leaves the receiver as it was and chains the new
      compilation's global scope to the receiver's: binding the new one
      binds the receiver first and builds on its scope. */
  method ContinuedScopeChains(first: Compilation, tree: SyntaxTree) returns (g: BoundGlobalScope)
    requires first.Valid()
    modifies first.Repr
    ensures first.globalScope.Some? && g.previous == first.globalScope
    ensures old(first.globalScope).Some? ==> g.previous == old(first.globalScope)
  {
    var next := first.ContinueWith(tree);
    g := next.GetGlobalScope();
  }
}
