// The evaluator of the current pipeline: it runs a lowered statement list
// with an index into the list and a map from labels to indexes, keeps
// global variables in the caller's dictionary and locals in a stack of
// frames (one per active user-function call), and returns the value of the
// last declaration initializer or expression statement executed.
//
// Every operation is first a pure function over the evaluator's `State`;
// the class `Evaluator` below performs the same steps on its fields and is
// proved to agree with those functions. A thrown exception is a `Fault`:
// it ends the evaluation and leaves the state as it was when it was thrown.
module CocoaEvaluator {
  import opened Wrappers
  import opened Int32
  import opened CocoaSymbols
  import opened BoundTree
  import opened CocoaBinder
  import CocoaSyntax
  import CocoaOperators
  import CocoaControlFlow

  /** The exceptions the evaluator can throw. */
  datatype Fault =
    /** Two label statements of one body with the same label (Dictionary.Add). */
    | DuplicateLabel(labelSymbol: BoundSymbol)
    /** A goto to a label the body does not declare (the dictionary indexer). */
    | UnknownLabel(target: BoundSymbol)
    /** A statement kind the loop has no case for, such as a return. */
    | UnexpectedStatement(statement: BoundStatement)
    /** An expression kind the dispatch has no case for. */
    | UnexpectedExpression(expression: BoundExpression)
    /** Unboxing a null reference to `int` or `bool`. */
    | NullUnboxing
    /** Unboxing a value of another type. */
    | InvalidCast
    | DivideByZero
    /** `int.MinValue / -1`. */
    | Overflow
    /** Reading a variable that has no entry in its dictionary. */
    | MissingVariable(variable: VariableSymbol)
    /** A built-in called without the argument it reads. */
    | MissingArgument(callee: FunctionSymbol)
    /** A call with more arguments than the function has parameters. */
    | ExtraArgument(callee: FunctionSymbol)
    /** The same parameter symbol bound twice in one frame. */
    | DuplicateParameter(parameter: VariableSymbol)
    /** A user function with no body in the program. */
    | MissingBody(callee: FunctionSymbol)
    /** `Random.Next` with a negative bound. */
    | NegativeRandomBound
    /** A conversion to a type other than bool, int and string. */
    | UnexpectedType(toType: TypeSymbol)
    /** A library conversion that throws. */
    | ConversionFailed(toType: TypeSymbol, value: Value)
    /** The evaluation needs more steps than its fuel allows. */
    | OutOfFuel

  /** One variable dictionary. */
  type Frame = map<VariableSymbol, Value>

  /** The lines still to be read from standard input and the lines written
      to standard output. */
  datatype Terminal = Terminal(input: seq<string>, output: seq<string>)

  /** Everything evaluation can change: the global dictionary, the stack of
      local frames (top last), the shared last value, the terminal and how
      many numbers the random generator has handed out. */
  datatype State = State(globals: Frame, frames: seq<Frame>, last: Value, terminal: Terminal, draws: nat)

  /** The library conversions `Convert.ToBoolean`, `Convert.ToInt32` and
      `Convert.ToString`; `None` means the conversion throws. */
  datatype Converter = Converter(toBoolean: Value -> Option<bool>, toInt32: Value -> Option<i32>, toString: Value -> Option<string>)

  /** What evaluation reads but never changes: the bound program, the
      built-in function symbols, the conversions and the random generator's
      raw stream (its `k`-th number). */
  datatype Env = Env(program: BoundProgram, builtins: Builtins, convert: Converter, sample: nat -> nat)

  /** A result or a fault, with the state at that point. */
  datatype Outcome<T> = Outcome(result: Result<T, Fault>, state: State)

  // ---------------------------------------------------------------------
  // Unboxing

  /** `(int)value`. */
  function AsInt(v: Value): Result<i32, Fault>
  {
    match v
    case IntVal(i) => Success(i)
    case NullValue => Failure(NullUnboxing)
    case _ => Failure(InvalidCast)
  }

  /** `(bool)value`. */
  function AsBool(v: Value): Result<bool, Fault>
  {
    match v
    case BoolVal(b) => Success(b)
    case NullValue => Failure(NullUnboxing)
    case _ => Failure(InvalidCast)
  }

  /** `(string)value`: a null reference casts to a null string. */
  function AsString(v: Value): Result<Option<string>, Fault>
  {
    match v
    case StrVal(s) => Success(Some(s))
    case NullValue => Success(None)
    case _ => Failure(InvalidCast)
  }

  /** Whether a runtime value inhabits a type. */
  predicate HasType(v: Value, t: TypeSymbol)
  {
    match v
    case IntVal(_) => t == IntType
    case BoolVal(_) => t == BoolType
    case StrVal(_) => t == StringType
    case NullValue => false
  }

  // ---------------------------------------------------------------------
  // Operators

  /** EvaluateUnaryExpression's switch on an already evaluated operand. */
  function ApplyUnary(kind: UnaryOperatorKind, v: Value): (r: Result<Value, Fault>)
    ensures r.Success? ==> HasType(r.value, if kind == LogicalNegation then BoolType else IntType)
  {
    match kind
    case Identity =>
      (match AsInt(v) case Success(i) => Success(IntVal(i)) case Failure(f) => Failure(f))
    case Negation =>
      (match AsInt(v) case Success(i) => Success(IntVal(Neg(i))) case Failure(f) => Failure(f))
    case LogicalNegation =>
      (match AsBool(v) case Success(b) => Success(BoolVal(!b)) case Failure(f) => Failure(f))
    case OnesComplement =>
      (match AsInt(v) case Success(i) => Success(IntVal(Int32.OnesComplement(i))) case Failure(f) => Failure(f))
  }

  datatype IntOperation = AddInts | SubInts | MulInts | AndInts | OrInts | XorInts

  function IntResult(op: IntOperation, a: i32, b: i32): i32
  {
    match op
    case AddInts => Add(a, b)
    case SubInts => Sub(a, b)
    case MulInts => Mul(a, b)
    case AndInts => And(a, b)
    case OrInts => Or(a, b)
    case XorInts => Xor(a, b)
  }

  /** `(int)left op (int)right`: the left operand is unboxed first. */
  function IntArithmetic(op: IntOperation, l: Value, r: Value): Result<Value, Fault>
  {
    match AsInt(l)
    case Failure(f) => Failure(f)
    case Success(a) =>
      match AsInt(r)
      case Failure(f) => Failure(f)
      case Success(b) => Success(IntVal(IntResult(op, a, b)))
  }

  datatype Comparison = LessThan | AtMost | GreaterThan | AtLeast

  function Compare(op: Comparison, a: i32, b: i32): bool
  {
    match op
    case LessThan => a < b
    case AtMost => a <= b
    case GreaterThan => a > b
    case AtLeast => a >= b
  }

  function IntComparison(op: Comparison, l: Value, r: Value): Result<Value, Fault>
  {
    match AsInt(l)
    case Failure(f) => Failure(f)
    case Success(a) =>
      match AsInt(r)
      case Failure(f) => Failure(f)
      case Success(b) => Success(BoolVal(Compare(op, a, b)))
  }

  /** `(int)left / (int)right`, which throws for a zero divisor and for
      `int.MinValue / -1`. */
  function IntDivision(l: Value, r: Value): Result<Value, Fault>
  {
    match AsInt(l)
    case Failure(f) => Failure(f)
    case Success(a) =>
      match AsInt(r)
      case Failure(f) => Failure(f)
      case Success(b) =>
        match Div(a, b)
        case Quotient(q) => Success(IntVal(q))
        case DivFailed(k) => Failure(if k == DivFault.DivideByZero then Fault.DivideByZero else Fault.Overflow)
  }

  /** `(string)left + (string)right`: C# concatenates a null string as the
      empty string. */
  function Concatenation(l: Value, r: Value): Result<Value, Fault>
  {
    match AsString(l)
    case Failure(f) => Failure(f)
    case Success(a) =>
      match AsString(r)
      case Failure(f) => Failure(f)
      case Success(b) => Success(StrVal(a.GetOr("") + b.GetOr("")))
  }

  /** `(bool)left op (bool)right` for the non-short-circuit `&`, `|`, `^`. */
  function BoolBitwise(op: IntOperation, l: Value, r: Value): Result<Value, Fault>
  {
    match AsBool(l)
    case Failure(f) => Failure(f)
    case Success(a) =>
      match AsBool(r)
      case Failure(f) => Failure(f)
      case Success(b) =>
        Success(BoolVal(if op == AndInts then a && b else if op == OrInts then a || b else a != b))
  }

  /** `(bool)left && (bool)right` and `(bool)left || (bool)right`: both
      operands are already values, but the right one is unboxed only when
      the left one does not decide the result. */
  function BoolLogical(isAnd: bool, l: Value, r: Value): Result<Value, Fault>
  {
    match AsBool(l)
    case Failure(f) => Failure(f)
    case Success(a) =>
      if a != isAnd then Success(BoolVal(a))
      else
        match AsBool(r)
        case Failure(f) => Failure(f)
        case Success(b) => Success(BoolVal(b))
  }

  /** EvaluateBinaryExpression's switch on two already evaluated operands;
      `+`, `&`, `|` and `^` choose between their int and their string or
      bool meaning by the operator's result type, and `==` is value
      equality (`object.Equals`). */
  function ApplyBinary(op: BoundBinaryOperator, l: Value, r: Value): Result<Value, Fault>
  {
    var isInt := op.resultType == IntType;
    match op.kind
    case Addition => if isInt then IntArithmetic(AddInts, l, r) else Concatenation(l, r)
    case Subtraction => IntArithmetic(SubInts, l, r)
    case Multiplication => IntArithmetic(MulInts, l, r)
    case Division => IntDivision(l, r)
    case BitwiseAnd => if isInt then IntArithmetic(AndInts, l, r) else BoolBitwise(AndInts, l, r)
    case BitwiseOr => if isInt then IntArithmetic(OrInts, l, r) else BoolBitwise(OrInts, l, r)
    case BitwiseXor => if isInt then IntArithmetic(XorInts, l, r) else BoolBitwise(XorInts, l, r)
    case LogicalAnd => BoolLogical(true, l, r)
    case LogicalOr => BoolLogical(false, l, r)
    case Equals => Success(BoolVal(l == r))
    case NotEquals => Success(BoolVal(l != r))
    case Less => IntComparison(LessThan, l, r)
    case LessOrEquals => IntComparison(AtMost, l, r)
    case Greater => IntComparison(GreaterThan, l, r)
    case GreaterOrEquals => IntComparison(AtLeast, l, r)
  }

  /** EvaluateConversionExpression on an already evaluated operand. */
  function Convert(c: Converter, t: TypeSymbol, v: Value): (r: Result<Value, Fault>)
    ensures r.Success? ==> HasType(r.value, t)
    ensures r.Failure? ==> r.error == (if t in {BoolType, IntType, StringType} then ConversionFailed(t, v) else UnexpectedType(t))
  {
    if t == BoolType then
      (match c.toBoolean(v) case Some(b) => Success(BoolVal(b)) case None => Failure(ConversionFailed(t, v)))
    else if t == IntType then
      (match c.toInt32(v) case Some(i) => Success(IntVal(i)) case None => Failure(ConversionFailed(t, v)))
    else if t == StringType then
      (match c.toString(v) case Some(s) => Success(StrVal(s)) case None => Failure(ConversionFailed(t, v)))
    else Failure(UnexpectedType(t))
  }

  // ---------------------------------------------------------------------
  // Variables

  /** EvaluateVariableExpression: a global comes from the global
      dictionary, any other variable from the top frame. */
  function Lookup(v: VariableSymbol, st: State): Result<Value, Fault>
    requires |st.frames| >= 1
  {
    var store := if v.kind == GlobalVariable then st.globals else st.frames[|st.frames| - 1];
    if v in store then Success(store[v]) else Failure(MissingVariable(v))
  }

  /** Assign: the indexer setter of the global dictionary or of the top
      frame, which adds or overwrites the entry. */
  function Assigned(v: VariableSymbol, x: Value, st: State): (st': State)
    requires |st.frames| >= 1
    ensures |st'.frames| == |st.frames|
  {
    if v.kind == GlobalVariable then st.(globals := st.globals[v := x])
    else
      var top := |st.frames| - 1;
      st.(frames := st.frames[top := st.frames[top][v := x]])
  }

  /** The frames below `st`'s top frame are still in place in `st'`, under
      any frames pushed since. */
  predicate KeepsLowerFrames(st: State, st': State)
    requires |st.frames| >= 1
  {
    |st'.frames| >= |st.frames| && st'.frames[..|st.frames| - 1] == st.frames[..|st.frames| - 1]
  }

  // ---------------------------------------------------------------------
  // Labels

  /** The first loop of EvaluateStatement from index `i` on: each label
      statement's label is added with the index just after it, and a label
      added twice throws. */
  function LabelMap(body: seq<BoundStatement>, i: nat, acc: map<BoundSymbol, nat>): (r: Result<map<BoundSymbol, nat>, Fault>)
    requires i <= |body|
    ensures r.Failure? ==> r.error.DuplicateLabel?
    decreases |body| - i
  {
    if i == |body| then Success(acc)
    else if body[i].LabelStatement? then
      var l := body[i].labelSymbol;
      if l in acc then Failure(DuplicateLabel(l)) else LabelMap(body, i + 1, acc[l := i + 1])
    else LabelMap(body, i + 1, acc)
  }

  function Jump(labels: map<BoundSymbol, nat>, l: BoundSymbol): Result<nat, Fault>
  {
    if l in labels then Success(labels[l]) else Failure(UnknownLabel(l))
  }

  // ---------------------------------------------------------------------
  // Evaluation

  /** A measure under which every operand and argument is smaller than the
      expression holding it. */
  function Size(e: BoundExpression): nat
  {
    match e
    case AssignmentExpression(_, x) => 1 + Size(x)
    case UnaryExpression(_, x) => 1 + Size(x)
    case BinaryExpression(l, _, r) => 1 + Size(l) + Size(r)
    case CallExpression(_, args) => 1 + ArgsSize(args)
    case ConversionExpression(_, x) => 1 + Size(x)
    case _ => 1
  }

  function ArgsSize(args: seq<BoundExpression>): nat
  {
    if args == [] then 0 else Size(args[0]) + ArgsSize(args[1..])
  }

  function Pop(st: State): State
    requires |st.frames| >= 1
  {
    st.(frames := st.frames[..|st.frames| - 1])
  }

  /** EvaluateExpression. Evaluation reads and writes only globals and the
      top frame: the frames below it are untouched, and a successful
      evaluation leaves as many frames as it found. */
  function Eval(ev: Env, fuel: nat, e: BoundExpression, st: State): (o: Outcome<Value>)
    requires |st.frames| >= 1
    ensures KeepsLowerFrames(st, o.state)
    ensures o.result.Success? ==> |o.state.frames| == |st.frames|
    decreases fuel, 0, Size(e), 1
  {
    match e
    case ErrorExpression => Outcome(Failure(UnexpectedExpression(e)), st)
    case LiteralExpression(c) => Outcome(Success(c), st)
    case VariableExpression(v) => Outcome(Lookup(v, st), st)
    case AssignmentExpression(v, x) =>
      var o := Eval(ev, fuel, x, st);
      if o.result.Failure? then o else Outcome(o.result, Assigned(v, o.result.value, o.state))
    case UnaryExpression(op, x) =>
      var o := Eval(ev, fuel, x, st);
      if o.result.Failure? then o else Outcome(ApplyUnary(op.kind, o.result.value), o.state)
    case BinaryExpression(l, op, r) =>
      var lo := Eval(ev, fuel, l, st);
      if lo.result.Failure? then lo
      else
        var ro := Eval(ev, fuel, r, lo.state);
        if ro.result.Failure? then ro else Outcome(ApplyBinary(op, lo.result.value, ro.result.value), ro.state)
    case CallExpression(_, _) => EvalCall(ev, fuel, e, st)
    case ConversionExpression(t, x) =>
      var o := Eval(ev, fuel, x, st);
      if o.result.Failure? then o else Outcome(Convert(ev.convert, t, o.result.value), o.state)
  }

  /** EvaluateCallExpression: the three built-ins by reference, then a user
      function, whose frame is pushed before and popped after its body. */
  function EvalCall(ev: Env, fuel: nat, e: BoundExpression, st: State): (o: Outcome<Value>)
    requires e.CallExpression? && |st.frames| >= 1
    ensures KeepsLowerFrames(st, o.state)
    ensures o.result.Success? ==> |o.state.frames| == |st.frames|
    decreases fuel, 0, Size(e), 0
  {
    var f := e.callee;
    var args := e.arguments;
    if f == ev.builtins.inputFunction then
      var input := st.terminal.input;
      if input == [] then Outcome(Success(NullValue), st)
      else Outcome(Success(StrVal(input[0])), st.(terminal := st.terminal.(input := input[1..])))
    else if f == ev.builtins.printFunction then
      if args == [] then Outcome(Failure(MissingArgument(f)), st)
      else
        assert Size(args[0]) <= ArgsSize(args);
        var o := Eval(ev, fuel, args[0], st);
        if o.result.Failure? then o
        else
          match AsString(o.result.value)
          case Failure(err) => Outcome(Failure(err), o.state)
          case Success(s) =>
            var t := o.state.terminal;
            Outcome(Success(NullValue), o.state.(terminal := t.(output := t.output + [s.GetOr("")])))
    else if f == ev.builtins.randomFunction then
      if args == [] then Outcome(Failure(MissingArgument(f)), st)
      else
        assert Size(args[0]) <= ArgsSize(args);
        var o := Eval(ev, fuel, args[0], st);
        if o.result.Failure? then o
        else
          match AsInt(o.result.value)
          case Failure(err) => Outcome(Failure(err), o.state)
          case Success(max) =>
            if max < 0 then Outcome(Failure(NegativeRandomBound), o.state)
            else
              var n := if max == 0 then 0 else ev.sample(o.state.draws) % max;
              Outcome(Success(IntVal(n)), o.state.(draws := o.state.draws + 1))
    else
      var ao := EvalArgs(ev, fuel, f, f.parameters, args, map[], st);
      if ao.result.Failure? then Outcome(Failure(ao.result.error), ao.state)
      else
        var pushed := ao.state.(frames := ao.state.frames + [ao.result.value]);
        if f !in ev.program.functions then Outcome(Failure(MissingBody(f)), pushed)
        else if fuel == 0 then Outcome(Failure(OutOfFuel), pushed)
        else
          var ro := Run(ev, fuel - 1, ev.program.functions[f], pushed);
          assert KeepsLowerFrames(pushed, ro.state);
          if ro.result.Failure? then ro else Outcome(ro.result, Pop(ro.state))
  }

  /** The argument loop of a user-function call: each argument is evaluated
      in order and added to the new frame under its parameter. */
  function EvalArgs(ev: Env, fuel: nat, f: FunctionSymbol, params: seq<VariableSymbol>, args: seq<BoundExpression>,
                    frame: Frame, st: State): (o: Outcome<Frame>)
    requires |st.frames| >= 1
    ensures KeepsLowerFrames(st, o.state)
    ensures o.result.Success? ==> |o.state.frames| == |st.frames|
    decreases fuel, 0, ArgsSize(args), 2
  {
    if args == [] then Outcome(Success(frame), st)
    else if params == [] then Outcome(Failure(ExtraArgument(f)), st)
    else
      var o := Eval(ev, fuel, args[0], st);
      if o.result.Failure? then Outcome(Failure(o.result.error), o.state)
      else if params[0] in frame then Outcome(Failure(DuplicateParameter(params[0])), o.state)
      else EvalArgs(ev, fuel, f, params[1..], args[1..], frame[params[0] := o.result.value], o.state)
  }

  /** One pass of EvaluateStatement's loop: the statement at `index` runs
      and yields the next index. */
  function Step(ev: Env, fuel: nat, body: seq<BoundStatement>, labels: map<BoundSymbol, nat>, index: nat, st: State): (o: Outcome<nat>)
    requires index < |body| && |st.frames| >= 1
    ensures KeepsLowerFrames(st, o.state)
    ensures o.result.Success? ==> |o.state.frames| == |st.frames|
    decreases fuel, 1, 0, 0
  {
    match body[index]
    case VariableDeclaration(v, init) =>
      var o := Eval(ev, fuel, init, st);
      if o.result.Failure? then Outcome(Failure(o.result.error), o.state)
      else Outcome(Success(index + 1), Assigned(v, o.result.value, o.state.(last := o.result.value)))
    case ExpressionStatement(x) =>
      var o := Eval(ev, fuel, x, st);
      if o.result.Failure? then Outcome(Failure(o.result.error), o.state)
      else Outcome(Success(index + 1), o.state.(last := o.result.value))
    case GotoStatement(l) => Outcome(Jump(labels, l), st)
    case ConditionalGotoStatement(l, c, jumpIfTrue) =>
      var o := Eval(ev, fuel, c, st);
      if o.result.Failure? then Outcome(Failure(o.result.error), o.state)
      else
        (match AsBool(o.result.value)
         case Failure(err) => Outcome(Failure(err), o.state)
         case Success(b) => Outcome(if b == jumpIfTrue then Jump(labels, l) else Success(index + 1), o.state))
    case LabelStatement(_) => Outcome(Success(index + 1), st)
    case _ => Outcome(Failure(UnexpectedStatement(body[index])), st)
  }

  /** EvaluateStatement's loop from `index` on, one unit of fuel per pass;
      when the index leaves the body the result is the shared last value. */
  function Exec(ev: Env, fuel: nat, body: seq<BoundStatement>, labels: map<BoundSymbol, nat>, index: nat, st: State): (o: Outcome<Value>)
    requires |st.frames| >= 1
    ensures KeepsLowerFrames(st, o.state)
    ensures o.result.Success? ==> |o.state.frames| == |st.frames| && o.result.value == o.state.last
    decreases fuel, 2, 0, 0
  {
    if index >= |body| then Outcome(Success(st.last), st)
    else if fuel == 0 then Outcome(Failure(OutOfFuel), st)
    else
      var so := Step(ev, fuel, body, labels, index, st);
      if so.result.Failure? then Outcome(Failure(so.result.error), so.state)
      else Exec(ev, fuel - 1, body, labels, so.result.value, so.state)
  }

  /** EvaluateStatement: the label map, then the loop from index 0. */
  function Run(ev: Env, fuel: nat, body: seq<BoundStatement>, st: State): (o: Outcome<Value>)
    requires |st.frames| >= 1
    ensures KeepsLowerFrames(st, o.state)
    ensures o.result.Success? ==> |o.state.frames| == |st.frames| && o.result.value == o.state.last
    decreases fuel, 3, 0, 0
  {
    match LabelMap(body, 0, map[])
    case Failure(err) => Outcome(Failure(err), st)
    case Success(labels) => Exec(ev, fuel, body, labels, 0, st)
  }

  lemma {:induction false} ArgumentSmaller(args: seq<BoundExpression>, i: nat)
    requires i < |args|
    ensures Size(args[i]) <= ArgsSize(args)
  {
    if i > 0 {
      assert args[1..][i - 1] == args[i];
      ArgumentSmaller(args[1..], i - 1);
    }
  }

  // ---------------------------------------------------------------------
  // The evaluator object

  /** The caller's dictionary of global variables, which evaluation updates
      in place. */
  class GlobalStore {
    var values: Frame

    constructor (values: Frame)
      ensures this.values == values
    {
      this.values := values;
    }
  }

  class Evaluator {
    const env: Env
    const globals: GlobalStore
    /** The stack of local frames, top last. */
    var locals: seq<Frame>
    var lastValue: Value
    var terminal: Terminal
    var draws: nat

    /** The fields as one value. */
    function Snapshot(): State
      reads this, globals
    {
      State(globals.values, locals, lastValue, terminal, draws)
    }

    /** The constructor pushes one empty frame for the global statements. */
    constructor (env: Env, variables: GlobalStore, terminal: Terminal)
      ensures this.env == env && globals == variables
      ensures Snapshot() == State(variables.values, [map[]], NullValue, terminal, 0)
    {
      this.env := env;
      globals := variables;
      locals := [map[]];
      lastValue := NullValue;
      this.terminal := terminal;
      draws := 0;
    }

    /** Evaluate: runs the program's global statements. */
    method Evaluate(fuel: nat) returns (r: Result<Value, Fault>)
      requires |locals| >= 1
      modifies this, globals
      ensures Outcome(r, Snapshot()) == Run(env, fuel, env.program.statement, old(Snapshot()))
    {
      r := EvaluateStatement(fuel, env.program.statement);
    }

    /** EvaluateStatement: builds the label map, then runs the loop over
        the statement index until it leaves the body. */
    method EvaluateStatement(fuel: nat, body: seq<BoundStatement>) returns (r: Result<Value, Fault>)
      requires |locals| >= 1
      modifies this, globals
      ensures Outcome(r, Snapshot()) == Run(env, fuel, body, old(Snapshot()))
      decreases fuel, 3, 0, 0
    {
      var labels: map<BoundSymbol, nat> := map[];
      for i := 0 to |body|
        invariant LabelMap(body, 0, map[]) == LabelMap(body, i, labels)
      {
        if body[i].LabelStatement? {
          var l := body[i].labelSymbol;
          if l in labels {
            return Failure(DuplicateLabel(l));
          }
          labels := labels[l := i + 1];
        }
      }
      var index: nat := 0;
      var f: nat := fuel;
      while index < |body|
        invariant |locals| >= 1
        invariant f <= fuel
        invariant Run(env, fuel, body, old(Snapshot())) == Exec(env, f, body, labels, index, Snapshot())
        decreases f
      {
        if f == 0 {
          return Failure(OutOfFuel);
        }
        var next := ExecuteStep(f, body, labels, index);
        if next.Failure? {
          return Failure(next.error);
        }
        index := next.value;
        f := f - 1;
      }
      r := Success(lastValue);
    }

    /** One pass of the loop: the switch on the statement at `index`. */
    method ExecuteStep(fuel: nat, body: seq<BoundStatement>, labels: map<BoundSymbol, nat>, index: nat)
      returns (next: Result<nat, Fault>)
      requires index < |body| && |locals| >= 1
      modifies this, globals
      ensures Outcome(next, Snapshot()) == Step(env, fuel, body, labels, index, old(Snapshot()))
      decreases fuel, 1, 0, 0
    {
      match body[index]
      case VariableDeclaration(v, init) =>
        var value := EvaluateExpression(fuel, init);
        if value.Failure? {
          return Failure(value.error);
        }
        lastValue := value.value;
        Assign(v, value.value);
        next := Success(index + 1);
      case ExpressionStatement(x) =>
        var value := EvaluateExpression(fuel, x);
        if value.Failure? {
          return Failure(value.error);
        }
        lastValue := value.value;
        next := Success(index + 1);
      case GotoStatement(l) =>
        next := Jump(labels, l);
      case ConditionalGotoStatement(l, c, jumpIfTrue) =>
        var value := EvaluateExpression(fuel, c);
        if value.Failure? {
          return Failure(value.error);
        }
        var condition := AsBool(value.value);
        if condition.Failure? {
          return Failure(condition.error);
        }
        next := if condition.value == jumpIfTrue then Jump(labels, l) else Success(index + 1);
      case LabelStatement(_) =>
        next := Success(index + 1);
      case _ =>
        next := Failure(UnexpectedStatement(body[index]));
    }

    /** EvaluateExpression: the switch on the expression kind. */
    method EvaluateExpression(fuel: nat, e: BoundExpression) returns (r: Result<Value, Fault>)
      requires |locals| >= 1
      modifies this, globals
      ensures Outcome(r, Snapshot()) == Eval(env, fuel, e, old(Snapshot()))
      decreases fuel, 0, Size(e), 3
    {
      match e
      case ErrorExpression =>
        r := Failure(UnexpectedExpression(e));
      case LiteralExpression(c) =>
        r := Success(c);
      case VariableExpression(v) =>
        r := EvaluateVariableExpression(v);
      case AssignmentExpression(v, x) =>
        r := EvaluateExpression(fuel, x);
        if r.Success? {
          Assign(v, r.value);
        }
      case UnaryExpression(op, x) =>
        r := EvaluateExpression(fuel, x);
        if r.Success? {
          r := ApplyUnary(op.kind, r.value);
        }
      case BinaryExpression(left, op, right) =>
        var lv := EvaluateExpression(fuel, left);
        if lv.Failure? {
          return lv;
        }
        var rv := EvaluateExpression(fuel, right);
        if rv.Failure? {
          return rv;
        }
        r := ApplyBinary(op, lv.value, rv.value);
      case CallExpression(_, _) =>
        r := EvaluateCallExpression(fuel, e);
      case ConversionExpression(t, x) =>
        r := EvaluateExpression(fuel, x);
        if r.Success? {
          r := Convert(env.convert, t, r.value);
        }
    }

    method EvaluateVariableExpression(v: VariableSymbol) returns (r: Result<Value, Fault>)
      requires |locals| >= 1
      ensures r == Lookup(v, Snapshot())
    {
      if v.kind == GlobalVariable {
        r := if v in globals.values then Success(globals.values[v]) else Failure(MissingVariable(v));
      } else {
        var top := locals[|locals| - 1];
        r := if v in top then Success(top[v]) else Failure(MissingVariable(v));
      }
    }

    /** Assign: into the global dictionary or the top frame. */
    method Assign(v: VariableSymbol, x: Value)
      requires |locals| >= 1
      modifies this, globals
      ensures Snapshot() == Assigned(v, x, old(Snapshot()))
    {
      if v.kind == GlobalVariable {
        globals.values := globals.values[v := x];
      } else {
        var top := |locals| - 1;
        locals := locals[top := locals[top][v := x]];
      }
    }

    /** EvaluateCallExpression. */
    method EvaluateCallExpression(fuel: nat, e: BoundExpression) returns (r: Result<Value, Fault>)
      requires e.CallExpression? && |locals| >= 1
      modifies this, globals
      ensures Outcome(r, Snapshot()) == EvalCall(env, fuel, e, old(Snapshot()))
      decreases fuel, 0, Size(e), 2
    {
      var f := e.callee;
      if f == env.builtins.inputFunction {
        if terminal.input == [] {
          r := Success(NullValue);
        } else {
          r := Success(StrVal(terminal.input[0]));
          terminal := terminal.(input := terminal.input[1..]);
        }
      } else if f == env.builtins.printFunction {
        r := CallPrint(fuel, e);
      } else if f == env.builtins.randomFunction {
        r := CallRandom(fuel, e);
      } else {
        r := CallFunction(fuel, e);
      }
    }

    /** The print built-in: evaluates its argument and appends it, as a
        string, to the output. */
    method CallPrint(fuel: nat, e: BoundExpression) returns (r: Result<Value, Fault>)
      requires e.CallExpression? && |locals| >= 1
      requires e.callee == env.builtins.printFunction && e.callee != env.builtins.inputFunction
      modifies this, globals
      ensures Outcome(r, Snapshot()) == EvalCall(env, fuel, e, old(Snapshot()))
      decreases fuel, 0, Size(e), 1
    {
      var args := e.arguments;
      if args == [] {
        r := Failure(MissingArgument(e.callee));
      } else {
        ArgumentSmaller(args, 0);
        var value := EvaluateExpression(fuel, args[0]);
        if value.Failure? {
          r := value;
        } else {
          var message := AsString(value.value);
          if message.Failure? {
            r := Failure(message.error);
          } else {
            terminal := terminal.(output := terminal.output + [message.value.GetOr("")]);
            r := Success(NullValue);
          }
        }
      }
    }

    /** The random built-in: a sample below its non-negative bound, or 0
        for a bound of 0. */
    method CallRandom(fuel: nat, e: BoundExpression) returns (r: Result<Value, Fault>)
      requires e.CallExpression? && |locals| >= 1
      requires e.callee == env.builtins.randomFunction
      requires e.callee != env.builtins.inputFunction && e.callee != env.builtins.printFunction
      modifies this, globals
      ensures Outcome(r, Snapshot()) == EvalCall(env, fuel, e, old(Snapshot()))
      decreases fuel, 0, Size(e), 1
    {
      var args := e.arguments;
      if args == [] {
        r := Failure(MissingArgument(e.callee));
      } else {
        ArgumentSmaller(args, 0);
        var value := EvaluateExpression(fuel, args[0]);
        if value.Failure? {
          r := value;
        } else {
          var max := AsInt(value.value);
          if max.Failure? {
            r := Failure(max.error);
          } else if max.value < 0 {
            r := Failure(NegativeRandomBound);
          } else {
            var n := if max.value == 0 then 0 else env.sample(draws) % max.value;
            draws := draws + 1;
            r := Success(IntVal(n));
          }
        }
      }
    }

    /** A user function: its arguments go into a new frame, its body runs
        there, and the frame is popped when the body completes. */
    method CallFunction(fuel: nat, e: BoundExpression) returns (r: Result<Value, Fault>)
      requires e.CallExpression? && |locals| >= 1
      requires e.callee != env.builtins.inputFunction && e.callee != env.builtins.printFunction && e.callee != env.builtins.randomFunction
      modifies this, globals
      ensures Outcome(r, Snapshot()) == EvalCall(env, fuel, e, old(Snapshot()))
      decreases fuel, 0, Size(e), 1
    {
      var f := e.callee;
      var frame := BindArguments(fuel, e);
      if frame.Failure? {
        r := Failure(frame.error);
      } else {
        locals := locals + [frame.value];
        if f !in env.program.functions {
          r := Failure(MissingBody(f));
        } else if fuel == 0 {
          r := Failure(OutOfFuel);
        } else {
          r := EvaluateStatement(fuel - 1, env.program.functions[f]);
          if r.Success? {
            locals := locals[..|locals| - 1];
          }
        }
      }
    }

    /** The loop that evaluates a user-function call's arguments into its
        new frame. */
    method BindArguments(fuel: nat, e: BoundExpression) returns (frame: Result<Frame, Fault>)
      requires e.CallExpression? && |locals| >= 1
      modifies this, globals
      ensures Outcome(frame, Snapshot()) == EvalArgs(env, fuel, e.callee, e.callee.parameters, e.arguments, map[], old(Snapshot()))
      decreases fuel, 0, Size(e), 0
    {
      var f := e.callee;
      var args := e.arguments;
      var locals' : Frame := map[];
      for i := 0 to |args|
        invariant |locals| >= 1 && i <= |f.parameters|
        invariant EvalArgs(env, fuel, f, f.parameters, args, map[], old(Snapshot()))
          == EvalArgs(env, fuel, f, f.parameters[i..], args[i..], locals', Snapshot())
      {
        if i >= |f.parameters| {
          return Failure(ExtraArgument(f));
        }
        var p := f.parameters[i];
        ArgumentSmaller(args, i);
        var value := EvaluateExpression(fuel, args[i]);
        if value.Failure? {
          return Failure(value.error);
        }
        if p in locals' {
          return Failure(DuplicateParameter(p));
        }
        assert args[i..][1..] == args[i + 1..] && f.parameters[i..][1..] == f.parameters[i + 1..];
        locals' := locals'[p := value.value];
      }
      frame := Success(locals');
    }
  }

  // ---------------------------------------------------------------------
  // Properties

  /** No label is declared by two label statements of the body. */
  predicate DistinctLabels(body: seq<BoundStatement>)
  {
    forall j, k :: 0 <= j < k < |body| && body[j].LabelStatement? && body[k].LabelStatement? ==>
      body[j].labelSymbol != body[k].labelSymbol
  }

  /** `labels` sends every label of `body[..i]` to the index just after
      its statement, and holds nothing else. */
  predicate IndexesLabels(body: seq<BoundStatement>, i: nat, labels: map<BoundSymbol, nat>)
    requires i <= |body|
  {
    && (forall l {:trigger l in labels} {:trigger labels[l]} :: l in labels ==> 1 <= labels[l] <= i && body[labels[l] - 1] == LabelStatement(l))
    && (forall k :: 0 <= k < i && body[k].LabelStatement? ==>
         body[k].labelSymbol in labels && labels[body[k].labelSymbol] == k + 1)
  }

  /** A label declared by two statements of the body. */
  predicate DeclaredTwice(body: seq<BoundStatement>, l: BoundSymbol)
  {
    exists j, k :: 0 <= j < k < |body| && body[j] == LabelStatement(l) && body[k] == LabelStatement(l)
  }

  lemma IndexesLabelsExtend(body: seq<BoundStatement>, i: nat, acc: map<BoundSymbol, nat>)
    requires i < |body| && IndexesLabels(body, i, acc)
    ensures body[i].LabelStatement? && body[i].labelSymbol !in acc ==> IndexesLabels(body, i + 1, acc[body[i].labelSymbol := i + 1])
    ensures !body[i].LabelStatement? ==> IndexesLabels(body, i + 1, acc)
    ensures body[i].LabelStatement? && body[i].labelSymbol in acc ==> DeclaredTwice(body, body[i].labelSymbol)
  {
    if body[i].LabelStatement? {
      var l := body[i].labelSymbol;
      if l in acc {
        var j := acc[l] - 1;
        assert body[j] == LabelStatement(l) && body[i] == LabelStatement(l);
      } else {
        var acc' := acc[l := i + 1];
        forall k | 0 <= k < i + 1 && body[k].LabelStatement?
          ensures body[k].labelSymbol in acc' && acc'[body[k].labelSymbol] == k + 1
        {
          if k < i {
            assert body[k].labelSymbol in acc;
          }
        }
      }
    }
  }

  lemma {:induction false} LabelMapFrom(body: seq<BoundStatement>, i: nat, acc: map<BoundSymbol, nat>)
    requires i <= |body| && IndexesLabels(body, i, acc)
    ensures LabelMap(body, i, acc).Success? ==> IndexesLabels(body, |body|, LabelMap(body, i, acc).value)
    ensures LabelMap(body, i, acc).Failure? ==> DeclaredTwice(body, LabelMap(body, i, acc).error.labelSymbol)
    decreases |body| - i
  {
    if i < |body| {
      IndexesLabelsExtend(body, i, acc);
      if !body[i].LabelStatement? {
        assert LabelMap(body, i, acc) == LabelMap(body, i + 1, acc);
        LabelMapFrom(body, i + 1, acc);
      } else if body[i].labelSymbol !in acc {
        var acc' := acc[body[i].labelSymbol := i + 1];
        assert LabelMap(body, i, acc) == LabelMap(body, i + 1, acc');
        LabelMapFrom(body, i + 1, acc');
      }
    }
  }

  lemma IndexedLabelsDistinct(body: seq<BoundStatement>, labels: map<BoundSymbol, nat>)
    requires IndexesLabels(body, |body|, labels)
    ensures DistinctLabels(body)
  {
    forall j, k | 0 <= j < k < |body| && body[j].LabelStatement? && body[k].LabelStatement?
      ensures body[j].labelSymbol != body[k].labelSymbol
    {
      assert labels[body[j].labelSymbol] == j + 1;
    }
  }

  /** EvaluateStatement's label map succeeds exactly when no label is
      declared twice; it then sends each label to the index just after its
      label statement and holds nothing else; otherwise the fault names a
      label declared twice. */
  lemma LabelMapMeaning(body: seq<BoundStatement>)
    ensures LabelMap(body, 0, map[]).Success? <==> DistinctLabels(body)
    ensures LabelMap(body, 0, map[]).Success? ==> IndexesLabels(body, |body|, LabelMap(body, 0, map[]).value)
    ensures LabelMap(body, 0, map[]).Failure? ==> DeclaredTwice(body, LabelMap(body, 0, map[]).error.labelSymbol)
  {
    LabelMapFrom(body, 0, map[]);
    var r := LabelMap(body, 0, map[]);
    if r.Success? {
      assert IndexesLabels(body, |body|, r.value);
      IndexedLabelsDistinct(body, r.value);
    } else {
      assert DeclaredTwice(body, r.error.labelSymbol);
      var j, k :| 0 <= j < k < |body| && body[j] == LabelStatement(r.error.labelSymbol) && body[k] == LabelStatement(r.error.labelSymbol);
      assert body[j].LabelStatement? && body[k].LabelStatement? && body[j].labelSymbol == body[k].labelSymbol;
    }
  }

  /** A jump through the label map: it succeeds exactly when the body has
      the target's label statement, and lands just after it. */
  lemma JumpLands(body: seq<BoundStatement>, l: BoundSymbol)
    requires LabelMap(body, 0, map[]).Success?
    ensures Jump(LabelMap(body, 0, map[]).value, l).Success? <==> LabelStatement(l) in body
    ensures Jump(LabelMap(body, 0, map[]).value, l).Success? ==>
      1 <= Jump(LabelMap(body, 0, map[]).value, l).value <= |body|
      && body[Jump(LabelMap(body, 0, map[]).value, l).value - 1] == LabelStatement(l)
  {
    LabelMapFrom(body, 0, map[]);
    var labels := LabelMap(body, 0, map[]).value;
    assert IndexesLabels(body, |body|, labels);
    if l in labels {
      var j := labels[l];
      assert Jump(labels, l) == Success(j);
      assert 1 <= j <= |body| && body[j - 1] == LabelStatement(l);
    }
    if LabelStatement(l) in body {
      var k :| 0 <= k < |body| && body[k] == LabelStatement(l);
      assert body[k].LabelStatement? && body[k].labelSymbol == l;
    }
  }

  /** A declaration, an expression statement and a label advance the
      index by one. */
  lemma SequentialStepAdvances(ev: Env, fuel: nat, body: seq<BoundStatement>, labels: map<BoundSymbol, nat>, index: nat, st: State)
    requires index < |body| && |st.frames| >= 1
    requires body[index].VariableDeclaration? || body[index].ExpressionStatement? || body[index].LabelStatement?
    ensures var o := Step(ev, fuel, body, labels, index, st);
      o.result.Success? || !body[index].LabelStatement?
    ensures Step(ev, fuel, body, labels, index, st).result.Success? ==> Step(ev, fuel, body, labels, index, st).result.value == index + 1
  {
  }

  /** A goto succeeds exactly when the body declares its label, and lands
      just after the label statement. */
  lemma GotoStepLands(ev: Env, fuel: nat, body: seq<BoundStatement>, index: nat, st: State)
    requires index < |body| && |st.frames| >= 1 && LabelMap(body, 0, map[]).Success?
    requires body[index].GotoStatement?
    ensures var o := Step(ev, fuel, body, LabelMap(body, 0, map[]).value, index, st);
      && o.state == st
      && (o.result.Success? <==> LabelStatement(body[index].target) in body)
      && (o.result.Success? ==> 1 <= o.result.value <= |body| && body[o.result.value - 1] == LabelStatement(body[index].target))
  {
    JumpLands(body, body[index].target);
  }

  /** A conditional goto jumps just after its label statement when its
      condition equals `jumpIfTrue`, and otherwise advances by one. */
  lemma ConditionalStepLands(ev: Env, fuel: nat, body: seq<BoundStatement>, index: nat, st: State)
    requires index < |body| && |st.frames| >= 1 && LabelMap(body, 0, map[]).Success?
    requires body[index].ConditionalGotoStatement?
    ensures var o := Step(ev, fuel, body, LabelMap(body, 0, map[]).value, index, st);
      var c := Eval(ev, fuel, body[index].condition, st);
      o.result.Success? ==>
        && c.result.Success? && c.result.value.BoolVal? && o.state == c.state
        && if c.result.value.b == body[index].jumpIfTrue
           then 1 <= o.result.value <= |body| && body[o.result.value - 1] == LabelStatement(body[index].target)
           else o.result.value == index + 1
  {
    JumpLands(body, body[index].target);
  }

  /** The result of a body is the shared last value, so a user function
      whose body is empty returns whatever value the caller produced last,
      and its call changes nothing. */
  lemma EmptyBodyReturnsCallerLast(ev: Env, fuel: nat, f: FunctionSymbol, st: State)
    requires |st.frames| >= 1 && fuel >= 1
    requires f != ev.builtins.inputFunction && f != ev.builtins.printFunction && f != ev.builtins.randomFunction
    requires f in ev.program.functions && ev.program.functions[f] == []
    ensures Eval(ev, fuel, BoundExpression.CallExpression(f, []), st) == Outcome(Success(st.last), st)
  {
    var e := BoundExpression.CallExpression(f, []);
    var pushed := st.(frames := st.frames + [map[]]);
    assert EvalArgs(ev, fuel, f, f.parameters, [], map[], st) == Outcome(Success(map[]), st);
    assert Run(ev, fuel - 1, [], pushed) == Outcome(Success(st.last), pushed);
    assert pushed.frames[..|pushed.frames| - 1] == st.frames;
  }

  /** Reading a variable after assigning it yields the assigned value;
      every other variable reads as before. */
  lemma AssignedThenLookup(v: VariableSymbol, x: Value, w: VariableSymbol, st: State)
    requires |st.frames| >= 1
    ensures Lookup(v, Assigned(v, x, st)) == Success(x)
    ensures w != v ==> Lookup(w, Assigned(v, x, st)) == Lookup(w, st)
  {
  }

  /** A global assignment changes only the global dictionary; any other
      changes only the top frame. */
  lemma AssignedTouchesOneStore(v: VariableSymbol, x: Value, st: State)
    requires |st.frames| >= 1
    ensures var st' := Assigned(v, x, st);
      && st'.last == st.last && st'.terminal == st.terminal && st'.draws == st.draws
      && (v.kind == GlobalVariable ==> st'.frames == st.frames && st'.globals.Keys == st.globals.Keys + {v})
      && (v.kind != GlobalVariable ==>
           && st'.globals == st.globals && st'.frames[..|st.frames| - 1] == st.frames[..|st.frames| - 1]
           && st'.frames[|st.frames| - 1].Keys == st.frames[|st.frames| - 1].Keys + {v})
  {
  }

  const IntMultiplication := BoundBinaryOperator(CocoaSyntax.StarToken, Multiplication, IntType, IntType, IntType)
  const BoolConjunction := BoundBinaryOperator(CocoaSyntax.AmpersandAmpersandToken, LogicalAnd, BoolType, BoolType, BoolType)

  /** The body `{ var a = 0 (a = 10) * a }` after lowering: a declaration
      and an expression statement. */
  function AssignTimesBody(a: VariableSymbol): seq<BoundStatement>
  {
    [BoundStatement.VariableDeclaration(a, BoundExpression.LiteralExpression(IntVal(0))),
     BoundStatement.ExpressionStatement(BoundExpression.BinaryExpression(
       BoundExpression.AssignmentExpression(a, BoundExpression.LiteralExpression(IntVal(10))),
       IntMultiplication,
       BoundExpression.VariableExpression(a)))]
  }

  lemma AssignTimesFirst(ev: Env, fuel: nat, a: VariableSymbol, st: State)
    requires |st.frames| >= 1 && a.kind == GlobalVariable
    ensures Step(ev, fuel, AssignTimesBody(a), map[], 0, st) == Outcome(Success(1), st.(last := IntVal(0), globals := st.globals[a := IntVal(0)]))
  {
  }

  lemma AssignTimesSecond(ev: Env, fuel: nat, a: VariableSymbol, st: State)
    requires |st.frames| >= 1 && a.kind == GlobalVariable
    ensures Step(ev, fuel, AssignTimesBody(a), map[], 1, st) == Outcome(Success(2), st.(last := IntVal(100), globals := st.globals[a := IntVal(10)]))
  {
    var x := BoundExpression.AssignmentExpression(a, BoundExpression.LiteralExpression(IntVal(10)));
    var st1 := st.(globals := st.globals[a := IntVal(10)]);
    assert Eval(ev, fuel, x, st) == Outcome(Success(IntVal(10)), st1);
    assert Eval(ev, fuel, BoundExpression.VariableExpression(a), st1) == Outcome(Success(IntVal(10)), st1);
    assert ApplyBinary(IntMultiplication, IntVal(10), IntVal(10)) == Success(IntVal(100));
  }

  /** An assignment stores its value and yields it: `{ var a = 0
      (a = 10) * a }` evaluates to 100 and leaves `a` at 10. */
  lemma AssignmentYieldsItsValue(ev: Env, a: VariableSymbol, st: State)
    requires |st.frames| >= 1 && a.kind == GlobalVariable
    ensures var o := Run(ev, 2, AssignTimesBody(a), st);
      o.result == Success(IntVal(100)) && o.state.globals == st.globals[a := IntVal(10)]
  {
    var body := AssignTimesBody(a);
    assert LabelMap(body, 2, map[]) == Success(map[]);
    assert LabelMap(body, 1, map[]) == Success(map[]);
    assert LabelMap(body, 0, map[]) == Success(map[]);
    var st1 := st.(last := IntVal(0), globals := st.globals[a := IntVal(0)]);
    var st2 := st1.(last := IntVal(100), globals := st1.globals[a := IntVal(10)]);
    AssignTimesFirst(ev, 2, a, st);
    AssignTimesSecond(ev, 1, a, st1);
    assert Exec(ev, 0, body, map[], 2, st2) == Outcome(Success(IntVal(100)), st2);
    assert Exec(ev, 1, body, map[], 1, st1) == Outcome(Success(IntVal(100)), st2);
    assert st2.globals == st.globals[a := IntVal(10)];
  }

  /** Both operands of `l && r` are evaluated, left first, before the
      operator is applied: the right operand runs in the state the left one
      leaves whatever the left value is, so `false && (x = true)` still
      assigns `x`; an exception in either operand is the result. */
  lemma ConjunctionEvaluatesBothOperands(ev: Env, fuel: nat, l: BoundExpression, op: BoundBinaryOperator, r: BoundExpression, st: State)
    requires |st.frames| >= 1 && op.kind == LogicalAnd
    ensures var lo := Eval(ev, fuel, l, st);
      var o := Eval(ev, fuel, BoundExpression.BinaryExpression(l, op, r), st);
      && (lo.result.Failure? ==> o == lo)
      && (lo.result.Success? ==>
           var ro := Eval(ev, fuel, r, lo.state);
           && (ro.result.Failure? ==> o == ro)
           && (ro.result.Success? && lo.result.value.BoolVal? && ro.result.value.BoolVal? ==>
                o == Outcome(Success(BoolVal(lo.result.value.b && ro.result.value.b)), ro.state)))
  {
  }

  /** Every entry of the binary operator table, applied to operands of its
      declared types, yields a value of its result type; only division can
      throw, for a zero divisor or `int.MinValue / -1`. */
  lemma BinaryTableWellTyped(i: nat, l: Value, r: Value)
    requires i < |CocoaOperators.BinaryOperators|
    requires HasType(l, CocoaOperators.BinaryOperators[i].leftType) && HasType(r, CocoaOperators.BinaryOperators[i].rightType)
    ensures var op := CocoaOperators.BinaryOperators[i];
      var a := ApplyBinary(op, l, r);
      && (a.Success? ==> HasType(a.value, op.resultType))
      && (a.Failure? <==> op.kind == Division && (r.i == 0 || (l.i == MinValue && r.i == -1)))
  {
  }

  /** Every entry of the unary operator table, applied to an operand of its
      type, yields a value of its result type. */
  lemma UnaryTableWellTyped(i: nat, v: Value)
    requires i < |CocoaOperators.UnaryOperators|
    requires HasType(v, CocoaOperators.UnaryOperators[i].operandType)
    ensures var op := CocoaOperators.UnaryOperators[i];
      ApplyUnary(op.kind, v).Success? && HasType(ApplyUnary(op.kind, v).value, op.resultType)
  {
  }

  /** C#'s integer division: a zero divisor throws DivideByZeroException,
      `int.MinValue / -1` throws OverflowException, and otherwise the
      quotient is truncated toward zero. */
  lemma DivisionFaults(op: BoundBinaryOperator, a: i32, b: i32)
    requires op.kind == Division
    ensures var r := ApplyBinary(op, IntVal(a), IntVal(b));
      && (b == 0 ==> r == Failure(Fault.DivideByZero))
      && (b != 0 && a == MinValue && b == -1 ==> r == Failure(Fault.Overflow))
      && (b != 0 && !(a == MinValue && b == -1) ==> r == Success(IntVal(TruncDiv(a, b))))
  {
  }

  /** The condition the control-flow graph builds with Negate evaluates
      to the opposite truth value, with the same effects. */
  lemma NegateEvaluatesOpposite(ev: Env, fuel: nat, c: BoundExpression, st: State)
    requires |st.frames| >= 1
    requires Eval(ev, fuel, c, st).result.Success? && Eval(ev, fuel, c, st).result.value.BoolVal?
    ensures CocoaControlFlow.Negate(c).Success?
    ensures var o := Eval(ev, fuel, c, st);
      Eval(ev, fuel, CocoaControlFlow.Negate(c).value, st) == Outcome(Success(BoolVal(!o.result.value.b)), o.state)
  {
  }

  /** `random(max)` yields a number in `[0, max)`, or 0 when `max` is 0,
      and throws for a negative bound. */
  lemma RandomInRange(ev: Env, fuel: nat, e: BoundExpression, st: State)
    requires e.CallExpression? && |e.arguments| >= 1 && |st.frames| >= 1
    requires ev.builtins.Valid() && e.callee == ev.builtins.randomFunction
    ensures var a := Eval(ev, fuel, e.arguments[0], st);
      var o := EvalCall(ev, fuel, e, st);
      && (a.result.Success? && a.result.value.IntVal? && a.result.value.i < 0 ==> o.result == Failure(NegativeRandomBound))
      && (o.result.Success? ==>
           && a.result.Success? && a.result.value.IntVal? && o.result.value.IntVal?
           && 0 <= o.result.value.i && (o.result.value.i < a.result.value.i || o.result.value.i == a.result.value.i == 0)
           && o.state.draws == a.state.draws + 1)
  {
  }

  /** `print(text)` writes the text as one line (a null string as an empty
      line) and yields null. */
  lemma PrintWritesOneLine(ev: Env, fuel: nat, e: BoundExpression, st: State)
    requires e.CallExpression? && |e.arguments| >= 1 && |st.frames| >= 1
    requires ev.builtins.Valid() && e.callee == ev.builtins.printFunction
    ensures var a := Eval(ev, fuel, e.arguments[0], st);
      var o := EvalCall(ev, fuel, e, st);
      o.result.Success? ==>
        && o.result.value == NullValue && a.result.Success? && (a.result.value.StrVal? || a.result.value.NullValue?)
        && o.state.terminal.output == a.state.terminal.output + [if a.result.value.StrVal? then a.result.value.s else ""]
  {
  }

  /** The arguments evaluated left to right, each in the state the one
      before leaves; the first exception stops the evaluation. */
  function EvalInOrder(ev: Env, fuel: nat, args: seq<BoundExpression>, st: State): (o: Outcome<seq<Value>>)
    requires |st.frames| >= 1
    ensures o.result.Success? ==> |o.result.value| == |args|
    decreases args
  {
    if args == [] then Outcome(Success([]), st)
    else
      var a := Eval(ev, fuel, args[0], st);
      if a.result.Failure? then Outcome(Failure(a.result.error), a.state)
      else
        var rest := EvalInOrder(ev, fuel, args[1..], a.state);
        if rest.result.Failure? then rest else Outcome(Success([a.result.value] + rest.result.value), rest.state)
  }

  /** When a call's arguments bind, the k-th parameter holds the value of
      the k-th argument, the arguments having been evaluated left to right;
      the frame's earlier entries are kept and the state is the one the last
      argument leaves. */
  lemma {:induction false} ArgumentsBindValues(ev: Env, fuel: nat, f: FunctionSymbol, params: seq<VariableSymbol>,
                                               args: seq<BoundExpression>, frame: Frame, st: State)
    requires |st.frames| >= 1
    ensures var o := EvalArgs(ev, fuel, f, params, args, frame, st);
      var v := EvalInOrder(ev, fuel, args, st);
      o.result.Success? ==>
        && v.result.Success? && o.state == v.state && |args| <= |params|
        && (forall p :: p in frame ==> p in o.result.value && o.result.value[p] == frame[p])
        && (forall k :: 0 <= k < |args| ==> params[k] !in frame && params[k] in o.result.value && o.result.value[params[k]] == v.result.value[k])
    decreases args
  {
    if args != [] && params != [] {
      var a := Eval(ev, fuel, args[0], st);
      if a.result.Success? && params[0] !in frame {
        var frame' := frame[params[0] := a.result.value];
        ArgumentsBindValues(ev, fuel, f, params[1..], args[1..], frame', a.state);
        var o := EvalArgs(ev, fuel, f, params[1..], args[1..], frame', a.state);
        var rest := EvalInOrder(ev, fuel, args[1..], a.state);
        if o.result.Success? {
          forall k | 0 <= k < |args|
            ensures params[k] !in frame && params[k] in o.result.value && o.result.value[params[k]] == ([a.result.value] + rest.result.value)[k]
          {
            if k > 0 {
              assert params[1..][k - 1] == params[k];
              assert args[1..][k - 1] == args[k];
            }
          }
        }
      }
    }
  }

  /** The parameters the first `n` arguments bind. */
  function BoundParameters(params: seq<VariableSymbol>, n: nat): set<VariableSymbol>
    requires n <= |params|
  {
    set k | 0 <= k < n :: params[k]
  }

  /** A user-function call's frame binds exactly the parameters of its
      arguments, which are no more than the function has. */
  lemma {:induction false} ArgumentsBindParameters(ev: Env, fuel: nat, f: FunctionSymbol, params: seq<VariableSymbol>,
                                                   args: seq<BoundExpression>, frame: Frame, st: State)
    requires |st.frames| >= 1
    ensures var o := EvalArgs(ev, fuel, f, params, args, frame, st);
      o.result.Success? ==> |args| <= |params| && o.result.value.Keys == frame.Keys + BoundParameters(params, |args|)
    decreases args
  {
    if args != [] && params != [] {
      var o := Eval(ev, fuel, args[0], st);
      if o.result.Success? && params[0] !in frame {
        ArgumentsBindParameters(ev, fuel, f, params[1..], args[1..], frame[params[0] := o.result.value], o.state);
        var r := EvalArgs(ev, fuel, f, params[1..], args[1..], frame[params[0] := o.result.value], o.state);
        if r.result.Success? {
          assert BoundParameters(params, |args|) == {params[0]} + BoundParameters(params[1..], |args| - 1) by {
            forall p | p in BoundParameters(params, |args|)
              ensures p in {params[0]} + BoundParameters(params[1..], |args| - 1)
            {
              var k :| 0 <= k < |args| && params[k] == p;
              if k > 0 {
                assert params[1..][k - 1] == p;
              }
            }
            forall p | p in BoundParameters(params[1..], |args| - 1)
              ensures p in BoundParameters(params, |args|)
            {
              var k :| 0 <= k < |args| - 1 && params[1..][k] == p;
              assert params[k + 1] == p;
            }
          }
        }
      }
    } else if args == [] {
      assert BoundParameters(params, 0) == {};
    }
  }
}
