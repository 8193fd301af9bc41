// The unary and binary operator tables and their `Bind` lookups, which
// return the first entry matching the token kind and operand types.
module CocoaOperators {
  import opened Wrappers
  import opened CocoaSyntax
  import opened CocoaSymbols
  import opened BoundTree

  const BinaryOperators: seq<BoundBinaryOperator> := [
    BoundBinaryOperator(PlusToken, Addition, IntType, IntType, IntType),
    BoundBinaryOperator(MinusToken, Subtraction, IntType, IntType, IntType),
    BoundBinaryOperator(StarToken, Multiplication, IntType, IntType, IntType),
    BoundBinaryOperator(SlashToken, Division, IntType, IntType, IntType),
    BoundBinaryOperator(AmpersandToken, BitwiseAnd, IntType, IntType, IntType),
    BoundBinaryOperator(PipeToken, BitwiseOr, IntType, IntType, IntType),
    BoundBinaryOperator(HatToken, BitwiseXor, IntType, IntType, IntType),
    BoundBinaryOperator(EqualsEqualsToken, Equals, IntType, IntType, BoolType),
    BoundBinaryOperator(BangEqualsToken, NotEquals, IntType, IntType, BoolType),
    BoundBinaryOperator(LessToken, Less, IntType, IntType, BoolType),
    BoundBinaryOperator(LessOrEqualsToken, LessOrEquals, IntType, IntType, BoolType),
    BoundBinaryOperator(GreaterToken, Greater, IntType, IntType, BoolType),
    BoundBinaryOperator(GreaterOrEqualsToken, GreaterOrEquals, IntType, IntType, BoolType),

    BoundBinaryOperator(AmpersandToken, BitwiseAnd, BoolType, BoolType, BoolType),
    BoundBinaryOperator(AmpersandAmpersandToken, LogicalAnd, BoolType, BoolType, BoolType),
    BoundBinaryOperator(PipeToken, BitwiseOr, BoolType, BoolType, BoolType),
    BoundBinaryOperator(PipePipeToken, LogicalOr, BoolType, BoolType, BoolType),
    BoundBinaryOperator(HatToken, BitwiseXor, BoolType, BoolType, BoolType),
    BoundBinaryOperator(EqualsEqualsToken, Equals, BoolType, BoolType, BoolType),
    BoundBinaryOperator(BangEqualsToken, NotEquals, BoolType, BoolType, BoolType),

    BoundBinaryOperator(PlusToken, Addition, StringType, StringType, StringType),
    BoundBinaryOperator(EqualsEqualsToken, Equals, StringType, StringType, BoolType),
    BoundBinaryOperator(BangEqualsToken, NotEquals, StringType, StringType, BoolType)
  ]

  const UnaryOperators: seq<BoundUnaryOperator> := [
    BoundUnaryOperator(BangToken, LogicalNegation, BoolType, BoolType),
    BoundUnaryOperator(PlusToken, Identity, IntType, IntType),
    BoundUnaryOperator(MinusToken, Negation, IntType, IntType),
    BoundUnaryOperator(TildeToken, OnesComplement, IntType, IntType)
  ]

  predicate BinaryMatches(op: BoundBinaryOperator, k: SyntaxKind, left: TypeSymbol, right: TypeSymbol)
  {
    op.syntaxKind == k && op.leftType == left && op.rightType == right
  }

  predicate UnaryMatches(op: BoundUnaryOperator, k: SyntaxKind, operand: TypeSymbol)
  {
    op.syntaxKind == k && op.operandType == operand
  }

  /** `FirstOrDefault` over `table[from..]`. */
  function FirstBinary(table: seq<BoundBinaryOperator>, from: nat, k: SyntaxKind, left: TypeSymbol, right: TypeSymbol): (r: Option<nat>)
    requires from <= |table|
    ensures r.Some? ==> from <= r.value < |table| && BinaryMatches(table[r.value], k, left, right)
    ensures r.Some? ==> forall j :: from <= j < r.value ==> !BinaryMatches(table[j], k, left, right)
    ensures r.None? ==> forall j :: from <= j < |table| ==> !BinaryMatches(table[j], k, left, right)
    decreases |table| - from
  {
    if from == |table| then None
    else if BinaryMatches(table[from], k, left, right) then Some(from)
    else FirstBinary(table, from + 1, k, left, right)
  }

  function FirstUnary(table: seq<BoundUnaryOperator>, from: nat, k: SyntaxKind, operand: TypeSymbol): (r: Option<nat>)
    requires from <= |table|
    ensures r.Some? ==> from <= r.value < |table| && UnaryMatches(table[r.value], k, operand)
    ensures r.Some? ==> forall j :: from <= j < r.value ==> !UnaryMatches(table[j], k, operand)
    ensures r.None? ==> forall j :: from <= j < |table| ==> !UnaryMatches(table[j], k, operand)
    decreases |table| - from
  {
    if from == |table| then None
    else if UnaryMatches(table[from], k, operand) then Some(from)
    else FirstUnary(table, from + 1, k, operand)
  }

  /** BoundBinaryOperator.Bind: the first entry matching all three keys, or null. */
  function BindBinary(k: SyntaxKind, left: TypeSymbol, right: TypeSymbol): (r: Option<BoundBinaryOperator>)
    ensures r.Some? ==> exists i :: (0 <= i < |BinaryOperators| && BinaryOperators[i] == r.value
      && BinaryMatches(BinaryOperators[i], k, left, right)
      && forall j :: 0 <= j < i ==> !BinaryMatches(BinaryOperators[j], k, left, right))
    ensures r.None? <==> forall op :: op in BinaryOperators ==> !BinaryMatches(op, k, left, right)
  {
    match FirstBinary(BinaryOperators, 0, k, left, right)
    case Some(i) => Some(BinaryOperators[i])
    case None => None
  }

  /** BoundUnaryOperator.Bind: the first entry matching the kind and operand type, or null. */
  function BindUnary(k: SyntaxKind, operand: TypeSymbol): (r: Option<BoundUnaryOperator>)
    ensures r.Some? ==> exists i :: (0 <= i < |UnaryOperators| && UnaryOperators[i] == r.value
      && UnaryMatches(UnaryOperators[i], k, operand)
      && forall j :: 0 <= j < i ==> !UnaryMatches(UnaryOperators[j], k, operand))
    ensures r.None? <==> forall op :: op in UnaryOperators ==> !UnaryMatches(op, k, operand)
  {
    match FirstUnary(UnaryOperators, 0, k, operand)
    case Some(i) => Some(UnaryOperators[i])
    case None => None
  }

  /** The whole binary table, by token kind: which operand types bind and
      what type the result has. */
  function ExpectedBinary(k: SyntaxKind, t: TypeSymbol): Option<(BinaryOperatorKind, TypeSymbol)>
  {
    match k
    case PlusToken => if t == IntType || t == StringType then Some((Addition, t)) else None
    case MinusToken => if t == IntType then Some((Subtraction, IntType)) else None
    case StarToken => if t == IntType then Some((Multiplication, IntType)) else None
    case SlashToken => if t == IntType then Some((Division, IntType)) else None
    case AmpersandToken => if t == IntType || t == BoolType then Some((BitwiseAnd, t)) else None
    case PipeToken => if t == IntType || t == BoolType then Some((BitwiseOr, t)) else None
    case HatToken => if t == IntType || t == BoolType then Some((BitwiseXor, t)) else None
    case AmpersandAmpersandToken => if t == BoolType then Some((LogicalAnd, BoolType)) else None
    case PipePipeToken => if t == BoolType then Some((LogicalOr, BoolType)) else None
    case EqualsEqualsToken => if t == IntType || t == BoolType || t == StringType then Some((Equals, BoolType)) else None
    case BangEqualsToken => if t == IntType || t == BoolType || t == StringType then Some((NotEquals, BoolType)) else None
    case LessToken => if t == IntType then Some((Less, BoolType)) else None
    case LessOrEqualsToken => if t == IntType then Some((LessOrEquals, BoolType)) else None
    case GreaterToken => if t == IntType then Some((Greater, BoolType)) else None
    case GreaterOrEqualsToken => if t == IntType then Some((GreaterOrEquals, BoolType)) else None
    case _ => None
  }

  predicate EntryAgrees(op: BoundBinaryOperator)
  {
    op.leftType == op.rightType && ExpectedBinary(op.syntaxKind, op.leftType) == Some((op.kind, op.resultType))
  }

  /** Every entry takes two operands of the same type and agrees with the
      reference table. */
  lemma BinaryEntriesAgree()
    ensures forall i :: 0 <= i < |BinaryOperators| ==> EntryAgrees(BinaryOperators[i])
  {
    forall i | 0 <= i < |BinaryOperators| ensures EntryAgrees(BinaryOperators[i]) {
      var op := BinaryOperators[i];
      assert op.leftType == op.rightType;
      assert ExpectedBinary(op.syntaxKind, op.leftType) == Some((op.kind, op.resultType));
    }
  }

  lemma Witness(i: nat, k: SyntaxKind, t: TypeSymbol)
    requires i < |BinaryOperators| && BinaryMatches(BinaryOperators[i], k, t, t)
    ensures BindBinary(k, t, t).Some?
  {
    assert BinaryOperators[i] in BinaryOperators;
  }

  /** Every key of the reference table has an entry. */
  lemma BinaryTableComplete(k: SyntaxKind, t: TypeSymbol)
    requires ExpectedBinary(k, t).Some?
    ensures BindBinary(k, t, t).Some?
  {
    if k == PlusToken || k == MinusToken || k == StarToken || k == SlashToken
      || k == AmpersandToken || k == PipeToken || k == HatToken {
      ArithmeticAndBitwiseComplete(k, t);
    } else {
      LogicalAndRelationalComplete(k, t);
    }
  }

  lemma ArithmeticAndBitwiseComplete(k: SyntaxKind, t: TypeSymbol)
    requires ExpectedBinary(k, t).Some?
    requires k == PlusToken || k == MinusToken || k == StarToken || k == SlashToken
      || k == AmpersandToken || k == PipeToken || k == HatToken
    ensures BindBinary(k, t, t).Some?
  {
    match k
    case PlusToken => if t == IntType { Witness(0, k, t); } else { Witness(20, k, t); }
    case MinusToken => Witness(1, k, t);
    case StarToken => Witness(2, k, t);
    case SlashToken => Witness(3, k, t);
    case AmpersandToken => if t == IntType { Witness(4, k, t); } else { Witness(13, k, t); }
    case PipeToken => if t == IntType { Witness(5, k, t); } else { Witness(15, k, t); }
    case HatToken => if t == IntType { Witness(6, k, t); } else { Witness(17, k, t); }
  }

  lemma LogicalAndRelationalComplete(k: SyntaxKind, t: TypeSymbol)
    requires ExpectedBinary(k, t).Some?
    requires k != PlusToken && k != MinusToken && k != StarToken && k != SlashToken
      && k != AmpersandToken && k != PipeToken && k != HatToken
    ensures BindBinary(k, t, t).Some?
  {
    match k
    case EqualsEqualsToken =>
      if t == IntType { Witness(7, k, t); }
      else if t == BoolType { Witness(18, k, t); }
      else { Witness(21, k, t); }
    case BangEqualsToken =>
      if t == IntType { Witness(8, k, t); }
      else if t == BoolType { Witness(19, k, t); }
      else { Witness(22, k, t); }
    case LessToken => Witness(9, k, t);
    case LessOrEqualsToken => Witness(10, k, t);
    case GreaterToken => Witness(11, k, t);
    case GreaterOrEqualsToken => Witness(12, k, t);
    case AmpersandAmpersandToken => Witness(14, k, t);
    case PipePipeToken => Witness(16, k, t);
    case _ => assert false;
  }

  /** Mixed operand types never bind. */
  lemma MixedOperandsNeverBind(k: SyntaxKind, left: TypeSymbol, right: TypeSymbol)
    requires left != right
    ensures BindBinary(k, left, right).None?
  {
    BinaryEntriesAgree();
  }

  /** BindBinary agrees with the reference table on every input. */
  lemma BindBinaryTable(k: SyntaxKind, left: TypeSymbol, right: TypeSymbol)
    ensures BindBinary(k, left, right).Some? <==> left == right && ExpectedBinary(k, left).Some?
    ensures BindBinary(k, left, right).Some? ==>
      var op := BindBinary(k, left, right).value;
      op.syntaxKind == k && op.leftType == left && op.rightType == right
      && (op.kind, op.resultType) == ExpectedBinary(k, left).value
  {
    BinaryEntriesAgree();
    if left == right && ExpectedBinary(k, left).Some? {
      BinaryTableComplete(k, left);
    }
  }

  /** No entry is shadowed by an earlier one with the same key: each entry
      is what Bind returns for its own token kind and operand types. */
  lemma BinaryEntriesReachable()
    ensures forall i :: 0 <= i < |BinaryOperators| ==>
      BindBinary(BinaryOperators[i].syntaxKind, BinaryOperators[i].leftType, BinaryOperators[i].rightType) == Some(BinaryOperators[i])
  {
    BinaryEntriesAgree();
    forall i | 0 <= i < |BinaryOperators|
      ensures BindBinary(BinaryOperators[i].syntaxKind, BinaryOperators[i].leftType, BinaryOperators[i].rightType) == Some(BinaryOperators[i])
    {
      var op := BinaryOperators[i];
      assert op in BinaryOperators;
    }
  }

  /** `- * /` bind only for two int operands, with an int result. */
  lemma ArithmeticOperators(k: SyntaxKind, left: TypeSymbol, right: TypeSymbol)
    requires k == MinusToken || k == StarToken || k == SlashToken
    ensures BindBinary(k, left, right).Some? <==> left == IntType && right == IntType
    ensures BindBinary(k, left, right).Some? ==> BindBinary(k, left, right).value.resultType == IntType
  {
    assert ExpectedBinary(k, left).Some? <==> left == IntType;
    assert ExpectedBinary(k, left).Some? ==> ExpectedBinary(k, left).value.1 == IntType;
    BindBinaryTable(k, left, right);
  }

  /** `+` binds for two ints or two strings, with the operands' type as result. */
  lemma AdditionOperator(left: TypeSymbol, right: TypeSymbol)
    ensures BindBinary(PlusToken, left, right).Some? <==> left == right && (left == IntType || left == StringType)
    ensures BindBinary(PlusToken, left, right).Some? ==> BindBinary(PlusToken, left, right).value.resultType == left
  {
    assert ExpectedBinary(PlusToken, left).Some? <==> left == IntType || left == StringType;
    assert ExpectedBinary(PlusToken, left).Some? ==> ExpectedBinary(PlusToken, left).value.1 == left;
    BindBinaryTable(PlusToken, left, right);
  }

  /** `< <= > >=` bind only for two int operands, with a bool result. */
  lemma ComparisonOperators(k: SyntaxKind, left: TypeSymbol, right: TypeSymbol)
    requires k == LessToken || k == LessOrEqualsToken || k == GreaterToken || k == GreaterOrEqualsToken
    ensures BindBinary(k, left, right).Some? <==> left == IntType && right == IntType
    ensures BindBinary(k, left, right).Some? ==> BindBinary(k, left, right).value.resultType == BoolType
  {
    assert ExpectedBinary(k, left).Some? <==> left == IntType;
    assert ExpectedBinary(k, left).Some? ==> ExpectedBinary(k, left).value.1 == BoolType;
    BindBinaryTable(k, left, right);
  }

  /** `& | ^` bind for two ints or two bools, with the operands' type as result. */
  lemma BitwiseOperators(k: SyntaxKind, left: TypeSymbol, right: TypeSymbol)
    requires k == AmpersandToken || k == PipeToken || k == HatToken
    ensures BindBinary(k, left, right).Some? <==> left == right && (left == IntType || left == BoolType)
    ensures BindBinary(k, left, right).Some? ==> BindBinary(k, left, right).value.resultType == left
  {
    assert ExpectedBinary(k, left).Some? <==> left == IntType || left == BoolType;
    assert ExpectedBinary(k, left).Some? ==> ExpectedBinary(k, left).value.1 == left;
    BindBinaryTable(k, left, right);
  }

  /** `&& ||` bind only for two bools, with a bool result. */
  lemma LogicalOperators(k: SyntaxKind, left: TypeSymbol, right: TypeSymbol)
    requires k == AmpersandAmpersandToken || k == PipePipeToken
    ensures BindBinary(k, left, right).Some? <==> left == BoolType && right == BoolType
    ensures BindBinary(k, left, right).Some? ==> BindBinary(k, left, right).value.resultType == BoolType
  {
    assert ExpectedBinary(k, left).Some? <==> left == BoolType;
    assert ExpectedBinary(k, left).Some? ==> ExpectedBinary(k, left).value.1 == BoolType;
    BindBinaryTable(k, left, right);
  }

  /** `==` and `!=` bind for int, bool and string operands with a bool result. */
  lemma EqualityOperators(k: SyntaxKind, left: TypeSymbol, right: TypeSymbol)
    requires k == EqualsEqualsToken || k == BangEqualsToken
    ensures BindBinary(k, left, right).Some? <==> left == right && (left == IntType || left == BoolType || left == StringType)
    ensures BindBinary(k, left, right).Some? ==> BindBinary(k, left, right).value.resultType == BoolType
  {
    assert ExpectedBinary(k, left).Some? <==> left == IntType || left == BoolType || left == StringType;
    assert ExpectedBinary(k, left).Some? ==> ExpectedBinary(k, left).value.1 == BoolType;
    BindBinaryTable(k, left, right);
  }

  /** The unary table by token kind. */
  function ExpectedUnary(k: SyntaxKind, t: TypeSymbol): Option<UnaryOperatorKind>
  {
    if k == BangToken then (if t == BoolType then Some(LogicalNegation) else None)
    else if k == PlusToken then (if t == IntType then Some(Identity) else None)
    else if k == MinusToken then (if t == IntType then Some(Negation) else None)
    else if k == TildeToken then (if t == IntType then Some(OnesComplement) else None)
    else None
  }

  predicate UnaryEntryAgrees(op: BoundUnaryOperator)
  {
    op.resultType == op.operandType && ExpectedUnary(op.syntaxKind, op.operandType) == Some(op.kind)
  }

  /** Every unary entry has its operand's type as result and agrees with the
      reference table. */
  lemma UnaryEntriesAgree()
    ensures forall i :: 0 <= i < |UnaryOperators| ==> UnaryEntryAgrees(UnaryOperators[i])
  {
  }

  lemma UnaryWitness(i: nat, k: SyntaxKind, t: TypeSymbol)
    requires i < |UnaryOperators| && UnaryMatches(UnaryOperators[i], k, t)
    ensures BindUnary(k, t).Some?
  {
    assert UnaryOperators[i] in UnaryOperators;
  }

  /** `!` binds only for bool, `+ - ~` only for int, every result has the
      operand's type, and any other pair gives null. */
  lemma BindUnaryTable(k: SyntaxKind, t: TypeSymbol)
    ensures BindUnary(k, t).Some? <==> ExpectedUnary(k, t).Some?
    ensures BindUnary(k, t).Some? ==>
      BindUnary(k, t).value == BoundUnaryOperator(k, ExpectedUnary(k, t).value, t, t)
  {
    UnaryEntriesAgree();
    if ExpectedUnary(k, t).Some? {
      match k
      case BangToken => UnaryWitness(0, k, t);
      case PlusToken => UnaryWitness(1, k, t);
      case MinusToken => UnaryWitness(2, k, t);
      case TildeToken => UnaryWitness(3, k, t);
      case _ => assert false;
    }
  }

  lemma UnaryResultIsOperandType()
    ensures forall op :: op in UnaryOperators ==> op.resultType == op.operandType
  {
  }
}
