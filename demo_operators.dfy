// The second calculator's binary operator table: which operator token
// binds, for which operand types, to which operation and result type.
module DemoOperators {
  import opened Wrappers
  import opened DemoSyntax

  /** The two types of values the calculator has: `typeof(int)` and
      `typeof(bool)`. */
  datatype CalcType = IntType | BoolType

  /** BoundBinaryOperatorKind. */
  datatype BinaryKind =
    | Addition
    | Subtraction
    | Multiplication
    | Division
    | LogicalAnd
    | LogicanOr
    | Equals
    | NotEquals

  /** BoundUnaryOperatorKind. */
  datatype UnaryKind = Identity | Negation | LogicalNegation

  /** An entry of the table: the token kind, the operation, and the left,
      right and result types. */
  datatype BoundBinaryOperator = BoundBinaryOperator(syntaxKind: SyntaxKind, kind: BinaryKind, leftType: CalcType, rightType: CalcType, resultType: CalcType)

  /** The three-argument constructor: one type for both operands and the
      result. */
  function Uniform(syntaxKind: SyntaxKind, kind: BinaryKind, t: CalcType): BoundBinaryOperator
  {
    BoundBinaryOperator(syntaxKind, kind, t, t, t)
  }

  /** The table, in its declared order. */
  function Operators(): seq<BoundBinaryOperator>
  {
    [ Uniform(PlusToken, Addition, IntType),
      Uniform(MinusToken, Subtraction, IntType),
      Uniform(StarToken, Multiplication, IntType),
      Uniform(SlashToken, Division, IntType),
      Uniform(AmpersandAmpersandToken, LogicalAnd, BoolType),
      Uniform(PipePipeToken, LogicanOr, BoolType) ]
  }

  /** The lookup's condition on an entry. */
  predicate Matches(op: BoundBinaryOperator, syntaxKind: SyntaxKind, leftType: CalcType, rightType: CalcType)
  {
    op.syntaxKind == syntaxKind && op.leftType == leftType && op.rightType == rightType
  }

  /** FirstOrDefault from index `from` on: the first entry that matches,
      if any. */
  function FirstMatch(ops: seq<BoundBinaryOperator>, from: nat, syntaxKind: SyntaxKind, leftType: CalcType, rightType: CalcType): (r: Option<BoundBinaryOperator>)
    ensures r.Some? ==> r.value in ops && Matches(r.value, syntaxKind, leftType, rightType)
    decreases |ops| - from
  {
    if from >= |ops| then None
    else if Matches(ops[from], syntaxKind, leftType, rightType) then Some(ops[from])
    else FirstMatch(ops, from + 1, syntaxKind, leftType, rightType)
  }

  /** The entry found is preceded by no match, and none is found only when
      no entry matches. */
  lemma {:induction false} FirstMatchIsFirst(ops: seq<BoundBinaryOperator>, from: nat, syntaxKind: SyntaxKind, leftType: CalcType, rightType: CalcType)
    requires from <= |ops|
    ensures var r := FirstMatch(ops, from, syntaxKind, leftType, rightType);
      && (r.Some? ==> exists i :: (from <= i < |ops| && ops[i] == r.value
            && forall j :: from <= j < i ==> !Matches(ops[j], syntaxKind, leftType, rightType)))
      && (r.None? <==> forall j :: from <= j < |ops| ==> !Matches(ops[j], syntaxKind, leftType, rightType))
    decreases |ops| - from
  {
    var r := FirstMatch(ops, from, syntaxKind, leftType, rightType);
    if from == |ops| {
    } else if Matches(ops[from], syntaxKind, leftType, rightType) {
      assert ops[from] == r.value;
    } else {
      FirstMatchIsFirst(ops, from + 1, syntaxKind, leftType, rightType);
      assert r == FirstMatch(ops, from + 1, syntaxKind, leftType, rightType);
      if r.Some? {
        var i :| from + 1 <= i < |ops| && ops[i] == r.value
          && forall j :: from + 1 <= j < i ==> !Matches(ops[j], syntaxKind, leftType, rightType);
        assert forall j :: from <= j < i ==> !Matches(ops[j], syntaxKind, leftType, rightType);
      }
    }
  }

  /** Bind: the first entry whose token kind and both operand types match,
      or none when no entry does. */
  function Bind(syntaxKind: SyntaxKind, leftType: CalcType, rightType: CalcType): (r: Option<BoundBinaryOperator>)
    ensures r.Some? ==> Matches(r.value, syntaxKind, leftType, rightType)
  {
    FirstMatch(Operators(), 0, syntaxKind, leftType, rightType)
  }

  /** The table read by token kind: the operation an entry for that token
      has. */
  function TokenOperation(syntaxKind: SyntaxKind): Option<BinaryKind>
  {
    if syntaxKind == PlusToken then Some(Addition)
    else if syntaxKind == MinusToken then Some(Subtraction)
    else if syntaxKind == StarToken then Some(Multiplication)
    else if syntaxKind == SlashToken then Some(Division)
    else if syntaxKind == AmpersandAmpersandToken then Some(LogicalAnd)
    else if syntaxKind == PipePipeToken then Some(LogicanOr)
    else None
  }

  /** The one type of an operation's operands and result in the table. */
  function OperandType(kind: BinaryKind): CalcType
  {
    if kind == LogicalAnd || kind == LogicanOr then BoolType else IntType
  }

  /** What a lookup keyed by token kind gives: the entry for the token when
      both operands have its type. */
  function Keyed(syntaxKind: SyntaxKind, leftType: CalcType, rightType: CalcType): Option<BoundBinaryOperator>
  {
    match TokenOperation(syntaxKind)
    case None => None
    case Some(kind) =>
      if leftType == OperandType(kind) && rightType == OperandType(kind) then Some(Uniform(syntaxKind, kind, leftType)) else None
  }

  /** Every entry has one type for its operands and its result, and no
      token kind appears twice, so the first match is the only one. */
  lemma EntriesAreUniform()
    ensures forall op :: op in Operators() ==> op.leftType == op.rightType == op.resultType
    ensures forall i, j :: 0 <= i < j < |Operators()| ==> Operators()[i].syntaxKind != Operators()[j].syntaxKind
  {
  }

  /** Operands of different types never bind. */
  lemma MixedTypesNeverBind(syntaxKind: SyntaxKind, leftType: CalcType, rightType: CalcType)
    requires leftType != rightType
    ensures Bind(syntaxKind, leftType, rightType).None?
  {
    EntriesAreUniform();
  }

  /** + - * / bind exactly for two ints, to their operation, with an int
      result. */
  lemma ArithmeticOnlyForInts(syntaxKind: SyntaxKind, leftType: CalcType, rightType: CalcType)
    requires syntaxKind in {PlusToken, MinusToken, StarToken, SlashToken}
    ensures var r := Bind(syntaxKind, leftType, rightType);
      && (r.Some? <==> leftType == IntType && rightType == IntType)
      && (r.Some? ==> r.value.resultType == IntType)
      && (r.Some? ==> r.value.kind == match syntaxKind
            case PlusToken => Addition
            case MinusToken => Subtraction
            case StarToken => Multiplication
            case _ => Division)
  {
  }

  /** && and || bind exactly for two bools, to their operation, with a bool
      result. */
  lemma LogicOnlyForBools(syntaxKind: SyntaxKind, leftType: CalcType, rightType: CalcType)
    requires syntaxKind == AmpersandAmpersandToken || syntaxKind == PipePipeToken
    ensures var r := Bind(syntaxKind, leftType, rightType);
      && (r.Some? <==> leftType == BoolType && rightType == BoolType)
      && (r.Some? ==> r.value.resultType == BoolType)
      && (r.Some? ==> r.value.kind == if syntaxKind == AmpersandAmpersandToken then LogicalAnd else LogicanOr)
  {
  }

  /** No other token binds: in particular `==` and `!=`, which the lexer
      reads, have no entry, and Equals and NotEquals are never bound. */
  lemma OthersNeverBind(syntaxKind: SyntaxKind, leftType: CalcType, rightType: CalcType)
    requires syntaxKind !in {PlusToken, MinusToken, StarToken, SlashToken, AmpersandAmpersandToken, PipePipeToken}
    ensures Bind(syntaxKind, leftType, rightType).None?
  {
  }

  /** A bound operator's result has the type of its left operand. */
  lemma ResultIsLeftType(syntaxKind: SyntaxKind, leftType: CalcType, rightType: CalcType)
    ensures var r := Bind(syntaxKind, leftType, rightType);
      r.Some? ==> r.value.resultType == leftType && r.value.kind !in {Equals, NotEquals}
  {
  }

  /** The first-match search over the table agrees with the lookup keyed by
      token kind. */
  lemma BindIsKeyed(syntaxKind: SyntaxKind, leftType: CalcType, rightType: CalcType)
    ensures Bind(syntaxKind, leftType, rightType) == Keyed(syntaxKind, leftType, rightType)
  {
    if syntaxKind in {PlusToken, MinusToken, StarToken, SlashToken} {
      ArithmeticOnlyForInts(syntaxKind, leftType, rightType);
    } else if syntaxKind == AmpersandAmpersandToken || syntaxKind == PipePipeToken {
      LogicOnlyForBools(syntaxKind, leftType, rightType);
    } else {
      OthersNeverBind(syntaxKind, leftType, rightType);
    }
  }
}
