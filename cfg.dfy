// ControlFlowGraph: a lowered body is cut into basic blocks, the blocks are
// wired together by branches, blocks that no branch enters are pruned, and
// AllPathsReturn asks whether every branch into the end comes from a return.
module CocoaControlFlow {
  import opened Wrappers
  import opened CocoaSyntax
  import opened CocoaSymbols
  import opened BoundTree
  import CocoaOperators

  /** What can make building the graph throw. */
  datatype CfgFault =
    | UnexpectedStatement(statement: BoundStatement)   // a statement the lowerer should have removed
    | DuplicateLabel(symbol: BoundSymbol)              // Dictionary.Add of a label seen before
    | UnknownLabel(symbol: BoundSymbol)                // a jump to a label no block declares
    | InvalidCast                                      // a literal condition that is not a bool
    | NoStatements                                     // Last() of the start block's empty statement list

  /** A goto, a conditional goto and a return end a basic block. */
  predicate IsJump(s: BoundStatement)
  {
    s.GotoStatement? || s.ConditionalGotoStatement? || s.ReturnStatement?
  }

  /** The statement kinds a lowered body consists of. */
  predicate IsLowered(s: BoundStatement)
  {
    s.LabelStatement? || IsJump(s) || s.VariableDeclaration? || s.ExpressionStatement?
  }

  function Flatten(bs: seq<seq<BoundStatement>>): seq<BoundStatement>
  {
    if bs == [] then [] else Flatten(bs[..|bs| - 1]) + bs[|bs| - 1]
  }

  /** A basic block is not empty, a label can only open it and a jump can
      only close it. */
  predicate WellFormedBlock(b: seq<BoundStatement>)
  {
    b != [] &&
    (forall k :: 0 < k < |b| ==> !b[k].LabelStatement?) &&
    (forall k :: 0 <= k < |b| - 1 ==> !IsJump(b[k]))
  }

  /** Every cut in a sequence of blocks is forced. */
  predicate ForcedCuts(bs: seq<seq<BoundStatement>>)
    requires forall i :: 0 <= i < |bs| ==> bs[i] != []
  {
    forall i :: 0 < i < |bs| ==> bs[i][0].LabelStatement? || IsJump(bs[i - 1][|bs[i - 1]| - 1])
  }

  /** Every block is well formed and every cut is forced: the block before
      it ends with a jump or the block after it starts with a label. */
  predicate Shaped(bs: seq<seq<BoundStatement>>)
  {
    (forall i :: 0 <= i < |bs| ==> WellFormedBlock(bs[i])) && ForcedCuts(bs)
  }

  /** The blocks cut the body into well-formed pieces at forced cuts only. */
  predicate Partitions(bs: seq<seq<BoundStatement>>, body: seq<BoundStatement>)
  {
    Flatten(bs) == body && Shaped(bs)
  }

  /** The index of the first statement a basic block may not hold. */
  function FirstUnlowered(body: seq<BoundStatement>): (r: nat)
    ensures r <= |body|
    ensures forall k :: 0 <= k < r ==> IsLowered(body[k])
    ensures r < |body| ==> !IsLowered(body[r])
  {
    if body == [] then 0
    else if !IsLowered(body[0]) then 0
    else
      var r := 1 + FirstUnlowered(body[1..]);
      assert forall k :: 1 <= k < |body| ==> body[k] == body[1..][k - 1];
      r
  }

  /** The blocks a builder has closed, with the statements still pending. */
  function Close(blocks: seq<seq<BoundStatement>>, pending: seq<BoundStatement>): seq<seq<BoundStatement>>
  {
    if pending == [] then blocks else blocks + [pending]
  }

  /** What holds of a builder between two statements: the closed blocks are
      well formed with forced cuts, the pending statements hold no jump and
      a label only first, and the pending statements may only be separated
      from the last closed block by a forced cut; when nothing is pending,
      the last block ended with a jump. */
  predicate Building(blocks: seq<seq<BoundStatement>>, pending: seq<BoundStatement>)
  {
    (forall b :: 0 <= b < |blocks| ==> WellFormedBlock(blocks[b])) &&
    ForcedCuts(blocks) &&
    (forall k :: 0 < k < |pending| ==> !pending[k].LabelStatement?) &&
    (forall k :: 0 <= k < |pending| ==> !IsJump(pending[k])) &&
    (blocks != [] ==>
      (pending != [] && pending[0].LabelStatement?) || IsJump(blocks[|blocks| - 1][|blocks[|blocks| - 1]| - 1]))
  }

  lemma FlattenClose(blocks: seq<seq<BoundStatement>>, pending: seq<BoundStatement>)
    ensures Flatten(Close(blocks, pending)) == Flatten(blocks) + pending
  {
    if pending != [] {
      assert (blocks + [pending])[..|blocks|] == blocks;
    }
  }

  lemma BuildingPlain(blocks: seq<seq<BoundStatement>>, pending: seq<BoundStatement>, s: BoundStatement)
    requires Building(blocks, pending) && !IsJump(s) && !s.LabelStatement?
    ensures Building(blocks, pending + [s])
  {
  }

  lemma BuildingLabel(blocks: seq<seq<BoundStatement>>, pending: seq<BoundStatement>, s: BoundStatement)
    requires Building(blocks, pending) && s.LabelStatement?
    ensures Building(Close(blocks, pending), [s])
  {
  }

  lemma BuildingJump(blocks: seq<seq<BoundStatement>>, pending: seq<BoundStatement>, s: BoundStatement)
    requires Building(blocks, pending) && IsJump(s)
    ensures Building(Close(blocks, pending + [s]), [])
  {
    var p := pending + [s];
    var nb := blocks + [p];
    assert WellFormedBlock(p);
    assert forall b :: 0 <= b < |blocks| ==> nb[b] == blocks[b];
    assert nb[|blocks|] == p;
    assert forall b :: 0 <= b < |nb| ==> WellFormedBlock(nb[b]);
    assert ForcedCuts(nb) by {
      forall i | 0 < i < |nb|
        ensures nb[i][0].LabelStatement? || IsJump(nb[i - 1][|nb[i - 1]| - 1])
      {
        if i < |blocks| {
          assert nb[i] == blocks[i] && nb[i - 1] == blocks[i - 1];
        } else if pending != [] {
          assert nb[i][0] == pending[0];
        }
      }
    }
  }

  lemma BuildingDone(blocks: seq<seq<BoundStatement>>, pending: seq<BoundStatement>)
    requires Building(blocks, pending)
    ensures Shaped(Close(blocks, pending))
  {
    if pending != [] {
      var nb := blocks + [pending];
      assert WellFormedBlock(pending);
      assert forall b :: 0 <= b < |blocks| ==> nb[b] == blocks[b];
      assert nb[|blocks|] == pending;
      assert forall b :: 0 <= b < |nb| ==> WellFormedBlock(nb[b]);
      assert ForcedCuts(nb) by {
        forall i | 0 < i < |nb|
          ensures nb[i][0].LabelStatement? || IsJump(nb[i - 1][|nb[i - 1]| - 1])
        {
          if i < |blocks| {
            assert nb[i] == blocks[i] && nb[i - 1] == blocks[i - 1];
          }
        }
      }
    }
  }

  /** The blocks of `rest` once the builder holds `blocks` and `pending`:
      a label opens a new block, a jump closes the current one, and any
      other statement joins it. */
  function Split(blocks: seq<seq<BoundStatement>>, pending: seq<BoundStatement>, rest: seq<BoundStatement>): seq<seq<BoundStatement>>
    decreases |rest|
  {
    if rest == [] then Close(blocks, pending)
    else if rest[0].LabelStatement? then Split(Close(blocks, pending), [rest[0]], rest[1..])
    else if IsJump(rest[0]) then Split(Close(blocks, pending + [rest[0]]), [], rest[1..])
    else Split(blocks, pending + [rest[0]], rest[1..])
  }

  /** The basic blocks of a lowered body. */
  function BasicBlocks(body: seq<BoundStatement>): seq<seq<BoundStatement>>
  {
    Split([], [], body)
  }

  lemma {:induction false} SplitFlatten(blocks: seq<seq<BoundStatement>>, pending: seq<BoundStatement>, rest: seq<BoundStatement>)
    ensures Flatten(Split(blocks, pending, rest)) == Flatten(blocks) + pending + rest
    decreases |rest|
  {
    if rest == [] {
      FlattenClose(blocks, pending);
    } else {
      var s := rest[0];
      assert rest == [s] + rest[1..];
      if s.LabelStatement? {
        FlattenClose(blocks, pending);
        SplitFlatten(Close(blocks, pending), [s], rest[1..]);
      } else if IsJump(s) {
        FlattenClose(blocks, pending + [s]);
        SplitFlatten(Close(blocks, pending + [s]), [], rest[1..]);
      } else {
        SplitFlatten(blocks, pending + [s], rest[1..]);
      }
    }
  }

  lemma {:induction false} SplitShaped(blocks: seq<seq<BoundStatement>>, pending: seq<BoundStatement>, rest: seq<BoundStatement>)
    requires Building(blocks, pending)
    ensures Shaped(Split(blocks, pending, rest))
    decreases |rest|
  {
    if rest == [] {
      BuildingDone(blocks, pending);
    } else {
      var s := rest[0];
      if s.LabelStatement? {
        BuildingLabel(blocks, pending, s);
        SplitShaped(Close(blocks, pending), [s], rest[1..]);
      } else if IsJump(s) {
        BuildingJump(blocks, pending, s);
        SplitShaped(Close(blocks, pending + [s]), [], rest[1..]);
      } else {
        BuildingPlain(blocks, pending, s);
        SplitShaped(blocks, pending + [s], rest[1..]);
      }
    }
  }

  /** The basic blocks partition the body into well-formed blocks, cut only
      where a cut is forced. */
  lemma BasicBlocksPartition(body: seq<BoundStatement>)
    ensures Partitions(BasicBlocks(body), body)
  {
    SplitFlatten([], [], body);
    SplitShaped([], [], body);
  }

  /** BasicBlockBuilder: collects statements into the block under
      construction and closes it at labels and after jumps. */
  class BasicBlockBuilder {
    var statements: seq<BoundStatement>
    var blocks: seq<seq<BoundStatement>>

    constructor ()
      ensures statements == [] && blocks == []
    {
      statements := [];
      blocks := [];
    }

    /** EndBlock, which StartBlock only calls: the pending statements, when
        there are any, become a block. */
    method EndBlock()
      modifies this
      ensures blocks == Close(old(blocks), old(statements))
      ensures statements == []
    {
      if |statements| > 0 {
        blocks := blocks + [statements];
        statements := [];
      }
    }

    /** StartBlock: closes the block under construction. */
    method StartBlock()
      modifies this
      ensures blocks == Close(old(blocks), old(statements))
      ensures statements == []
    {
      EndBlock();
    }

    /** Build: the basic blocks of a lowered body, or the first statement
        that is not of a lowered kind. */
    method Build(body: seq<BoundStatement>) returns (r: Result<seq<seq<BoundStatement>>, CfgFault>)
      requires statements == [] && blocks == []
      modifies this
      ensures r.Failure? <==> FirstUnlowered(body) < |body|
      ensures r.Failure? ==> r.error == UnexpectedStatement(body[FirstUnlowered(body)])
      ensures r.Success? ==> r.value == BasicBlocks(body)
    {
      var i := 0;
      while i < |body|
        invariant 0 <= i <= |body|
        invariant forall k :: 0 <= k < i ==> IsLowered(body[k])
        invariant Split(blocks, statements, body[i..]) == BasicBlocks(body)
      {
        var s := body[i];
        ghost var b0, p0 := blocks, statements;
        assert body[i..][0] == s && body[i..][1..] == body[i + 1..];
        if s.LabelStatement? {
          StartBlock();
          statements := statements + [s];
          assert blocks == Close(b0, p0) && statements == [s];
        } else if IsJump(s) {
          statements := statements + [s];
          StartBlock();
          assert Split(b0, p0, body[i..]) == Split(blocks, statements, body[i + 1..]);
        } else if s.VariableDeclaration? || s.ExpressionStatement? {
          statements := statements + [s];
          assert Split(b0, p0, body[i..]) == Split(blocks, statements, body[i + 1..]);
        } else {
          assert FirstUnlowered(body) == i;
          return Failure(UnexpectedStatement(s));
        }
        i := i + 1;
      }
      EndBlock();
      BasicBlocksPartition(body);
      r := Success(blocks);
    }
  }

  // ---------------------------------------------------------------------
  // Wiring the blocks together

  /** Start and End are the sentinel blocks; `Block(i)` is the i-th block
      the basic-block builder produced. */
  datatype BlockId = Start | End | Block(index: nat)

  /** A branch, taken when its condition holds (always when it has none);
      `id` stands for the identity of the branch object: its creation
      order. */
  datatype Branch = Branch(id: nat, from: BlockId, to: BlockId, condition: Option<BoundExpression>)

  /** The `!` operator on bool. */
  const LogicalNot := BoundUnaryOperator(CocoaSyntax.BangToken, LogicalNegation, BoolType, BoolType)

  /** Negate: a bool literal is flipped, any other condition is wrapped in
      `!` as the operator table binds it; a literal that is not a bool fails
      the cast. */
  function Negate(c: BoundExpression): (r: Result<BoundExpression, CfgFault>)
    ensures r.Failure? <==> c.LiteralExpression? && !c.value.BoolVal?
    ensures r.Success? ==> TypeOf(r.value) == BoolType
    ensures r.Success? && c.LiteralExpression? ==> r.value == BoundExpression.LiteralExpression(BoolVal(!c.value.b))
    ensures !c.LiteralExpression? ==> r == Success(BoundExpression.UnaryExpression(LogicalNot, c))
  {
    if c.LiteralExpression? then
      if c.value.BoolVal? then Success(BoundExpression.LiteralExpression(BoolVal(!c.value.b))) else Failure(InvalidCast)
    else Success(BoundExpression.UnaryExpression(LogicalNot, c))
  }

  /** The operator Negate wraps a condition in is the one the unary table
      binds for `!` on bool. */
  lemma NegateBindsNot()
    ensures CocoaOperators.BindUnary(CocoaSyntax.BangToken, BoolType) == Some(LogicalNot)
  {
    CocoaOperators.BindUnaryTable(CocoaSyntax.BangToken, BoolType);
  }

  /** Connect: the branch list after one call: a true literal condition
      makes the branch unconditional, a false one adds no branch, a literal
      that is not a bool fails the cast, and any other condition is kept. */
  function Connected(acc: seq<Branch>, id: nat, from: BlockId, to: BlockId, condition: Option<BoundExpression>): Result<seq<Branch>, CfgFault>
  {
    if condition.Some? && condition.value.LiteralExpression? then
      var v := condition.value.value;
      if !v.BoolVal? then Failure(InvalidCast)
      else if v.b then Success(acc + [Branch(id, from, to, None)])
      else Success(acc)
    else Success(acc + [Branch(id, from, to, condition)])
  }

  /** The label dictionary: each label to the block that declares it,
      scanning blocks and statements in order; a label declared twice fails
      Dictionary.Add. */
  function CollectLabels(blocks: seq<seq<BoundStatement>>, i: nat, j: nat, labels: map<BoundSymbol, nat>): (r: Result<map<BoundSymbol, nat>, CfgFault>)
    requires i <= |blocks| && (i < |blocks| ==> j <= |blocks[i]|)
    requires forall l :: l in labels ==> labels[l] < |blocks|
    ensures r.Success? ==> forall l :: l in r.value ==> r.value[l] < |blocks|
    decreases |blocks| - i, if i < |blocks| then |blocks[i]| - j else 0
  {
    if i == |blocks| then Success(labels)
    else if j == |blocks[i]| then CollectLabels(blocks, i + 1, 0, labels)
    else match blocks[i][j]
      case LabelStatement(l) =>
        if l in labels then Failure(DuplicateLabel(l)) else CollectLabels(blocks, i, j + 1, labels[l := i])
      case _ => CollectLabels(blocks, i, j + 1, labels)
  }

  /** The branches one statement adds: a goto to its label's block, a
      conditional goto to its label's block under the condition and to the
      next block under its negation (or the other way round when it jumps
      if false), a return to End, and the last statement of a block that
      does not jump falls through to the next block; the next block of the
      last block is End. */
  function StatementBranches(labels: map<BoundSymbol, nat>, blocks: seq<seq<BoundStatement>>, i: nat, j: nat, acc: seq<Branch>): Result<seq<Branch>, CfgFault>
    requires i < |blocks| && j < |blocks[i]|
  {
    var current := Block(i);
    var next := if i == |blocks| - 1 then End else Block(i + 1);
    match blocks[i][j]
    case GotoStatement(l) =>
      if l in labels then Connected(acc, |acc|, current, Block(labels[l]), None) else Failure(UnknownLabel(l))
    case ConditionalGotoStatement(l, c, jumpIfTrue) =>
      if l !in labels then Failure(UnknownLabel(l))
      else ConditionalBranches(acc, current, Block(labels[l]), next, c, jumpIfTrue)
    case ReturnStatement => Connected(acc, |acc|, current, End, None)
    case VariableDeclaration(_, _) =>
      if j == |blocks[i]| - 1 then Connected(acc, |acc|, current, next, None) else Success(acc)
    case LabelStatement(_) =>
      if j == |blocks[i]| - 1 then Connected(acc, |acc|, current, next, None) else Success(acc)
    case ExpressionStatement(_) =>
      if j == |blocks[i]| - 1 then Connected(acc, |acc|, current, next, None) else Success(acc)
    case _ => Failure(UnexpectedStatement(blocks[i][j]))
  }

  /** The two branches of a conditional goto: to the label's block under
      the condition (its negation when the goto jumps if false), and to the
      next block under the other one. */
  function ConditionalBranches(acc: seq<Branch>, from: BlockId, thenBlock: BlockId, elseBlock: BlockId,
    c: BoundExpression, jumpIfTrue: bool): Result<seq<Branch>, CfgFault>
  {
    match Negate(c)
    case Failure(e) => Failure(e)
    case Success(negated) =>
      BranchPair(acc, from, thenBlock, elseBlock, if jumpIfTrue then c else negated, if jumpIfTrue then negated else c)
  }

  /** Two Connect calls in a row; the second is not made when the first fails. */
  function BranchPair(acc: seq<Branch>, from: BlockId, thenBlock: BlockId, elseBlock: BlockId,
    thenCondition: BoundExpression, elseCondition: BoundExpression): Result<seq<Branch>, CfgFault>
  {
    match Connected(acc, |acc|, from, thenBlock, Some(thenCondition))
    case Failure(e) => Failure(e)
    case Success(acc1) => Connected(acc1, |acc1|, from, elseBlock, Some(elseCondition))
  }

  /** The branches of the statements from block i, statement j on. */
  function Wire(labels: map<BoundSymbol, nat>, blocks: seq<seq<BoundStatement>>, i: nat, j: nat, acc: seq<Branch>): Result<seq<Branch>, CfgFault>
    requires i <= |blocks| && (i < |blocks| ==> j <= |blocks[i]|)
    decreases |blocks| - i, if i < |blocks| then |blocks[i]| - j else 0
  {
    if i == |blocks| then Success(acc)
    else if j == |blocks[i]| then Wire(labels, blocks, i + 1, 0, acc)
    else match StatementBranches(labels, blocks, i, j, acc)
      case Failure(e) => Failure(e)
      case Success(acc1) => Wire(labels, blocks, i, j + 1, acc1)
  }

  /** The branch from Start: to the first block, or to End when there is none. */
  function StartBranch(blocks: seq<seq<BoundStatement>>): Branch
  {
    Branch(0, Start, if blocks == [] then End else Block(0), None)
  }

  /** All the branches GraphBuilder.Build creates before pruning. */
  function Wired(blocks: seq<seq<BoundStatement>>): Result<seq<Branch>, CfgFault>
  {
    match CollectLabels(blocks, 0, 0, map[])
    case Failure(e) => Failure(e)
    case Success(labels) => Wire(labels, blocks, 0, 0, [StartBranch(blocks)])
  }

  /** A branch target is End or one of the n blocks. */
  predicate Target(b: BlockId, n: nat)
  {
    b.End? || (b.Block? && b.index < n)
  }

  /** Branch k has id k and a target among the blocks, and every branch but
      the first leaves one of the blocks. */
  predicate WiredShape(bs: seq<Branch>, n: nat)
  {
    (forall k :: 0 <= k < |bs| ==> bs[k].id == k && Target(bs[k].to, n)) &&
    (forall k :: 0 < k < |bs| ==> bs[k].from.Block? && bs[k].from.index < n)
  }

  lemma ConnectedShape(acc: seq<Branch>, n: nat, from: BlockId, to: BlockId, condition: Option<BoundExpression>)
    requires WiredShape(acc, n) && acc != []
    requires from.Block? && from.index < n && Target(to, n)
    ensures Connected(acc, |acc|, from, to, condition).Success? ==>
      WiredShape(Connected(acc, |acc|, from, to, condition).value, n) &&
      acc <= Connected(acc, |acc|, from, to, condition).value
  {
  }

  lemma StatementBranchesShape(labels: map<BoundSymbol, nat>, blocks: seq<seq<BoundStatement>>, i: nat, j: nat, acc: seq<Branch>)
    requires i < |blocks| && j < |blocks[i]|
    requires forall l :: l in labels ==> labels[l] < |blocks|
    requires WiredShape(acc, |blocks|) && acc != []
    ensures StatementBranches(labels, blocks, i, j, acc).Success? ==>
      WiredShape(StatementBranches(labels, blocks, i, j, acc).value, |blocks|) &&
      acc <= StatementBranches(labels, blocks, i, j, acc).value
  {
    var n := |blocks|;
    var next := if i == n - 1 then End else Block(i + 1);
    match blocks[i][j]
    case GotoStatement(l) =>
      if l in labels { ConnectedShape(acc, n, Block(i), Block(labels[l]), None); }
    case ConditionalGotoStatement(l, c, jumpIfTrue) =>
      if l in labels && Negate(c).Success? {
        var negated := Negate(c).value;
        var thenCondition := if jumpIfTrue then c else negated;
        var elseCondition := if jumpIfTrue then negated else c;
        ConnectedShape(acc, n, Block(i), Block(labels[l]), Some(thenCondition));
        var r1 := Connected(acc, |acc|, Block(i), Block(labels[l]), Some(thenCondition));
        if r1.Success? {
          ConnectedShape(r1.value, n, Block(i), next, Some(elseCondition));
        }
      }
    case ReturnStatement => ConnectedShape(acc, n, Block(i), End, None);
    case VariableDeclaration(_, _) => ConnectedShape(acc, n, Block(i), next, None);
    case LabelStatement(_) => ConnectedShape(acc, n, Block(i), next, None);
    case ExpressionStatement(_) => ConnectedShape(acc, n, Block(i), next, None);
    case _ =>
  }

  lemma {:induction false} WireShape(labels: map<BoundSymbol, nat>, blocks: seq<seq<BoundStatement>>, i: nat, j: nat, acc: seq<Branch>)
    requires i <= |blocks| && (i < |blocks| ==> j <= |blocks[i]|)
    requires forall l :: l in labels ==> labels[l] < |blocks|
    requires WiredShape(acc, |blocks|) && acc != []
    ensures Wire(labels, blocks, i, j, acc).Success? ==>
      WiredShape(Wire(labels, blocks, i, j, acc).value, |blocks|) && acc <= Wire(labels, blocks, i, j, acc).value
    decreases |blocks| - i, if i < |blocks| then |blocks[i]| - j else 0
  {
    if i == |blocks| {
    } else if j == |blocks[i]| {
      WireShape(labels, blocks, i + 1, 0, acc);
    } else {
      StatementBranchesShape(labels, blocks, i, j, acc);
      var r := StatementBranches(labels, blocks, i, j, acc);
      if r.Success? {
        WireShape(labels, blocks, i, j + 1, r.value);
      }
    }
  }

  /** The wired branches are numbered by creation; the first leaves Start
      for the first block (End when there are no blocks) unconditionally,
      and every other leaves a block; every target is a block or End. */
  lemma WiredFacts(blocks: seq<seq<BoundStatement>>)
    requires Wired(blocks).Success?
    ensures Wired(blocks).value != [] && Wired(blocks).value[0] == StartBranch(blocks)
    ensures WiredShape(Wired(blocks).value, |blocks|)
  {
    var labels := CollectLabels(blocks, 0, 0, map[]).value;
    WireShape(labels, blocks, 0, 0, [StartBranch(blocks)]);
  }

  // ---------------------------------------------------------------------
  // Branch lists

  /** The branches into a block, in list order (its `Incoming` list). */
  function Into(bs: seq<Branch>, b: BlockId): seq<Branch>
  {
    if bs == [] then []
    else Into(bs[..|bs| - 1], b) + (if bs[|bs| - 1].to == b then [bs[|bs| - 1]] else [])
  }

  /** The branches out of a block, in list order (its `Outgoing` list). */
  function OutOf(bs: seq<Branch>, b: BlockId): seq<Branch>
  {
    if bs == [] then []
    else OutOf(bs[..|bs| - 1], b) + (if bs[|bs| - 1].from == b then [bs[|bs| - 1]] else [])
  }

  /** The list after removing the branch objects with the given ids. */
  function Excluding(bs: seq<Branch>, ids: set<nat>): seq<Branch>
  {
    if bs == [] then []
    else Excluding(bs[..|bs| - 1], ids) + (if bs[|bs| - 1].id !in ids then [bs[|bs| - 1]] else [])
  }

  /** The list without the branches that touch block b. */
  function Detach(bs: seq<Branch>, b: BlockId): seq<Branch>
  {
    if bs == [] then []
    else Detach(bs[..|bs| - 1], b) + (if bs[|bs| - 1].from != b && bs[|bs| - 1].to != b then [bs[|bs| - 1]] else [])
  }

  /** Start and End always take part; a block only while it is in `live`. */
  predicate LiveIn(b: BlockId, live: set<nat>)
  {
    !b.Block? || b.index in live
  }

  /** The branches both of whose ends take part. */
  function Kept(bs: seq<Branch>, live: set<nat>): seq<Branch>
  {
    if bs == [] then []
    else Kept(bs[..|bs| - 1], live) + (if LiveIn(bs[|bs| - 1].from, live) && LiveIn(bs[|bs| - 1].to, live) then [bs[|bs| - 1]] else [])
  }

  function IdsOf(bs: seq<Branch>): set<nat>
  {
    set k | 0 <= k < |bs| :: bs[k].id
  }

  /** Distinct branch objects have distinct ids. */
  predicate UniqueIds(bs: seq<Branch>)
  {
    forall x, y :: x in bs && y in bs && x.id == y.id ==> x == y
  }

  lemma Snoc(bs: seq<Branch>, x: Branch, b: BlockId, ids: set<nat>, live: set<nat>)
    ensures Into(bs + [x], b) == Into(bs, b) + (if x.to == b then [x] else [])
    ensures OutOf(bs + [x], b) == OutOf(bs, b) + (if x.from == b then [x] else [])
    ensures Excluding(bs + [x], ids) == Excluding(bs, ids) + (if x.id !in ids then [x] else [])
    ensures Detach(bs + [x], b) == Detach(bs, b) + (if x.from != b && x.to != b then [x] else [])
    ensures Kept(bs + [x], live) == Kept(bs, live) + (if LiveIn(x.from, live) && LiveIn(x.to, live) then [x] else [])
  {
    assert (bs + [x])[..|bs|] == bs;
  }

  lemma {:induction false} IntoMember(bs: seq<Branch>, b: BlockId, x: Branch)
    ensures x in Into(bs, b) <==> x in bs && x.to == b
  {
    if bs != [] {
      IntoMember(bs[..|bs| - 1], b, x);
      assert bs == bs[..|bs| - 1] + [bs[|bs| - 1]];
    }
  }

  lemma {:induction false} OutOfMember(bs: seq<Branch>, b: BlockId, x: Branch)
    ensures x in OutOf(bs, b) <==> x in bs && x.from == b
  {
    if bs != [] {
      OutOfMember(bs[..|bs| - 1], b, x);
      assert bs == bs[..|bs| - 1] + [bs[|bs| - 1]];
    }
  }

  lemma {:induction false} ExcludingMember(bs: seq<Branch>, ids: set<nat>, x: Branch)
    ensures x in Excluding(bs, ids) <==> x in bs && x.id !in ids
  {
    if bs != [] {
      ExcludingMember(bs[..|bs| - 1], ids, x);
      assert bs == bs[..|bs| - 1] + [bs[|bs| - 1]];
    }
  }

  lemma {:induction false} KeptMember(bs: seq<Branch>, live: set<nat>, x: Branch)
    ensures x in Kept(bs, live) <==> x in bs && LiveIn(x.from, live) && LiveIn(x.to, live)
  {
    if bs != [] {
      KeptMember(bs[..|bs| - 1], live, x);
      assert bs == bs[..|bs| - 1] + [bs[|bs| - 1]];
    }
  }

  lemma {:induction false} IntoExcluding(bs: seq<Branch>, ids: set<nat>, b: BlockId)
    ensures Into(Excluding(bs, ids), b) == Excluding(Into(bs, b), ids)
  {
    if bs != [] {
      var front, x := bs[..|bs| - 1], bs[|bs| - 1];
      IntoExcluding(front, ids, b);
      Snoc(Excluding(front, ids), x, b, ids, {});
      Snoc(Into(front, b), x, b, ids, {});
      if x.id in ids {
        assert Excluding(bs, ids) == Excluding(front, ids);
      } else {
        assert Excluding(bs, ids) == Excluding(front, ids) + [x];
      }
      if x.to == b {
        assert Into(bs, b) == Into(front, b) + [x];
      } else {
        assert Into(bs, b) == Into(front, b);
      }
    }
  }

  lemma {:induction false} OutOfExcluding(bs: seq<Branch>, ids: set<nat>, b: BlockId)
    ensures OutOf(Excluding(bs, ids), b) == Excluding(OutOf(bs, b), ids)
  {
    if bs != [] {
      var front, x := bs[..|bs| - 1], bs[|bs| - 1];
      OutOfExcluding(front, ids, b);
      Snoc(Excluding(front, ids), x, b, ids, {});
      Snoc(OutOf(front, b), x, b, ids, {});
      if x.id in ids {
        assert Excluding(bs, ids) == Excluding(front, ids);
      } else {
        assert Excluding(bs, ids) == Excluding(front, ids) + [x];
      }
      if x.from == b {
        assert OutOf(bs, b) == OutOf(front, b) + [x];
      } else {
        assert OutOf(bs, b) == OutOf(front, b);
      }
    }
  }

  lemma {:induction false} ExcludingAbsent(bs: seq<Branch>, ids: set<nat>)
    requires forall x :: x in bs ==> x.id !in ids
    ensures Excluding(bs, ids) == bs
  {
    if bs != [] {
      var front, last := bs[..|bs| - 1], bs[|bs| - 1];
      assert last in bs;
      forall x | x in front ensures x.id !in ids {
        assert x in bs;
      }
      ExcludingAbsent(front, ids);
      assert front + [last] == bs;
    }
  }

  lemma {:induction false} ExcludingUnion(bs: seq<Branch>, a: set<nat>, c: set<nat>)
    ensures Excluding(Excluding(bs, a), c) == Excluding(bs, a + c)
  {
    if bs != [] {
      var front, x := bs[..|bs| - 1], bs[|bs| - 1];
      ExcludingUnion(front, a, c);
      if x.id in a {
        assert Excluding(bs, a) == Excluding(front, a);
      } else {
        assert Excluding(bs, a) == Excluding(front, a) + [x];
        Snoc(Excluding(front, a), x, Start, c, {});
      }
    }
  }

  /** Removing by id is detaching, when the ids are those of the branches
      that touch the block. */
  lemma {:induction false} ExcludingIsDetach(bs: seq<Branch>, ids: set<nat>, b: BlockId)
    requires forall x :: x in bs ==> (x.id in ids <==> x.from == b || x.to == b)
    ensures Excluding(bs, ids) == Detach(bs, b)
  {
    if bs != [] {
      var front, last := bs[..|bs| - 1], bs[|bs| - 1];
      assert last in bs;
      forall x | x in front ensures x.id in ids <==> x.from == b || x.to == b {
        assert x in bs;
      }
      ExcludingIsDetach(front, ids, b);
    }
  }

  /** Detaching a block from the branches between live blocks leaves the
      branches between the remaining live blocks. */
  lemma {:induction false} DetachKept(bs: seq<Branch>, live: set<nat>, x: nat)
    ensures Detach(Kept(bs, live), Block(x)) == Kept(bs, live - {x})
  {
    if bs != [] {
      var front, y := bs[..|bs| - 1], bs[|bs| - 1];
      DetachKept(front, live, x);
      if LiveIn(y.from, live) && LiveIn(y.to, live) {
        assert Kept(bs, live) == Kept(front, live) + [y];
        Snoc(Kept(front, live), y, Block(x), {}, live);
      } else {
        assert Kept(bs, live) == Kept(front, live);
      }
    }
  }

  lemma {:induction false} KeptAll(bs: seq<Branch>, live: set<nat>)
    requires forall x :: x in bs ==> LiveIn(x.from, live) && LiveIn(x.to, live)
    ensures Kept(bs, live) == bs
  {
    if bs != [] {
      var front, last := bs[..|bs| - 1], bs[|bs| - 1];
      assert last in bs;
      forall x | x in front ensures LiveIn(x.from, live) && LiveIn(x.to, live) {
        assert x in bs;
      }
      KeptAll(front, live);
      assert front + [last] == bs;
    }
  }

  /** Removing one branch object changes only the lists of its two ends. */
  lemma ExcludeOne(orig: seq<Branch>, bs: seq<Branch>, br: Branch, b: BlockId)
    requires UniqueIds(orig) && br in orig && forall y :: y in bs ==> y in orig
    ensures OutOf(Excluding(bs, {br.id}), b) == if b == br.from then Excluding(OutOf(bs, b), {br.id}) else OutOf(bs, b)
    ensures Into(Excluding(bs, {br.id}), b) == if b == br.to then Excluding(Into(bs, b), {br.id}) else Into(bs, b)
  {
    OutOfExcluding(bs, {br.id}, b);
    IntoExcluding(bs, {br.id}, b);
    if b != br.from {
      forall y | y in OutOf(bs, b) ensures y.id !in {br.id} {
        OutOfMember(bs, b, y);
      }
      ExcludingAbsent(OutOf(bs, b), {br.id});
    }
    if b != br.to {
      forall y | y in Into(bs, b) ensures y.id !in {br.id} {
        IntoMember(bs, b, y);
      }
      ExcludingAbsent(Into(bs, b), {br.id});
    }
  }

  lemma IdsOfMember(bs: seq<Branch>, id: nat)
    ensures id in IdsOf(bs) <==> exists z :: z in bs && z.id == id
  {
    if exists z :: z in bs && z.id == id {
      var z :| z in bs && z.id == id;
      var k :| 0 <= k < |bs| && bs[k] == z;
      assert bs[k].id in IdsOf(bs);
    }
  }

  /** The ids RemoveBlock takes out, first those of the block's incoming
      branches and then those of its outgoing ones, are those of the
      branches that touch it. */
  lemma RemovedIds(orig: seq<Branch>, b: BlockId)
    requires UniqueIds(orig)
    ensures forall y :: y in Excluding(orig, IdsOf(Into(orig, b))) ==> y in orig && y.to != b
    ensures forall y :: y in orig ==>
      (y.id in IdsOf(Into(orig, b)) + IdsOf(OutOf(Excluding(orig, IdsOf(Into(orig, b))), b)) <==> y.from == b || y.to == b)
  {
    var ins := Into(orig, b);
    var rest := Excluding(orig, IdsOf(ins));
    var outs := OutOf(rest, b);
    forall y | y in rest ensures y in orig && y.to != b {
      ExcludingMember(orig, IdsOf(ins), y);
      IdsOfMember(ins, y.id);
      IntoMember(orig, b, y);
    }
    forall y | y in orig ensures (y.id in IdsOf(ins) + IdsOf(outs) <==> y.from == b || y.to == b) {
      IdsOfMember(ins, y.id);
      IdsOfMember(outs, y.id);
      IntoMember(orig, b, y);
      ExcludingMember(orig, IdsOf(ins), y);
      OutOfMember(rest, b, y);
      if y.id in IdsOf(ins) {
        var z :| z in ins && z.id == y.id;
        IntoMember(orig, b, z);
      }
      if y.id in IdsOf(outs) {
        var z :| z in outs && z.id == y.id;
        OutOfMember(rest, b, z);
        ExcludingMember(orig, IdsOf(ins), z);
      }
    }
  }

  // ---------------------------------------------------------------------
  // Pruning

  /** A set of blocks supports itself when every one of them is entered by
      a branch from Start or from a block of the set. */
  predicate Supported(w: seq<Branch>, t: set<nat>)
  {
    forall i :: i in t ==> Entered(w, t, i)
  }

  /** A branch of w enters block i from Start or from a block of t. */
  predicate Entered(w: seq<Branch>, t: set<nat>, i: nat)
  {
    exists br :: br in w && br.to == Block(i) && (br.from.Start? || (br.from.Block? && br.from.index in t))
  }

  /** Block i belongs to some self-supporting set. */
  ghost predicate Survives(w: seq<Branch>, i: nat)
  {
    exists t :: Supported(w, t) && i in t
  }

  /** The blocks that belong to some self-supporting set: the largest such set. */
  ghost function Survivors(w: seq<Branch>, n: nat): set<nat>
  {
    set i | 0 <= i < n && Survives(w, i)
  }

  /** A set that supports itself and contains every self-supporting set is
      the set of survivors. */
  lemma GreatestSupported(w: seq<Branch>, n: nat, live: set<nat>)
    requires Supported(w, live) && forall i :: i in live ==> i < n
    requires forall t :: Supported(w, t) ==> t <= live
    ensures live == Survivors(w, n)
  {
  }

  // ---------------------------------------------------------------------
  // The block list

  predicate Increasing(s: seq<nat>)
  {
    forall i, j :: 0 <= i < j < |s| ==> s[i] < s[j]
  }

  function Elements(s: seq<nat>): set<nat>
  {
    set k | k in s
  }

  function Range(n: nat): (r: seq<nat>)
    ensures |r| == n && forall k :: 0 <= k < n ==> r[k] == k
  {
    seq(n, k => k)
  }

  /** List.Remove on the block list: the first occurrence goes. */
  function RemoveFirst(s: seq<nat>, x: nat): seq<nat>
  {
    if s == [] then []
    else if s[0] == x then s[1..]
    else [s[0]] + RemoveFirst(s[1..], x)
  }

  lemma {:induction false} RemoveFirstIncreasing(s: seq<nat>, x: nat)
    requires Increasing(s)
    ensures Increasing(RemoveFirst(s, x))
    ensures Elements(RemoveFirst(s, x)) == Elements(s) - {x}
  {
    if s != [] {
      assert Elements(s) == {s[0]} + Elements(s[1..]);
      if s[0] == x {
        assert x !in Elements(s[1..]);
      } else {
        RemoveFirstIncreasing(s[1..], x);
        var t := RemoveFirst(s[1..], x);
        assert Elements([s[0]] + t) == {s[0]} + Elements(t);
        forall j | 0 <= j < |t| ensures s[0] < t[j] {
          assert t[j] in Elements(t);
          var k :| 0 <= k < |s[1..]| && s[1..][k] == t[j];
          assert s[k + 1] == t[j];
        }
      }
    }
  }

  lemma {:induction false} RemoveFirstLength(s: seq<nat>, x: nat)
    requires x in s
    ensures |RemoveFirst(s, x)| == |s| - 1
  {
    if s[0] != x {
      assert x in s[1..];
      RemoveFirstLength(s[1..], x);
    }
  }

  /** The increasing list of the members of `live` below n. */
  function Ordered(n: nat, live: set<nat>): seq<nat>
  {
    if n == 0 then [] else Ordered(n - 1, live) + (if n - 1 in live then [n - 1] else [])
  }

  /** An increasing list of indices below n is the ordered list of its members. */
  lemma {:induction false} IncreasingIsOrdered(s: seq<nat>, n: nat)
    requires Increasing(s) && forall k :: 0 <= k < |s| ==> s[k] < n
    ensures s == Ordered(n, Elements(s))
    decreases n
  {
    if s == [] {
      assert Elements(s) == {};
      OrderedEmpty(n);
    } else if s[|s| - 1] == n - 1 {
      var front := s[..|s| - 1];
      FrontBelowLast(s);
      IncreasingIsOrdered(front, n - 1);
      ElementsSnoc(front, n - 1);
      OrderedBelow(n - 1, Elements(front), Elements(s));
      assert Ordered(n, Elements(s)) == Ordered(n - 1, Elements(s)) + [n - 1];
    } else {
      assert s[|s| - 1] < n;
      BelowAll(s, n);
      IncreasingIsOrdered(s, n - 1);
      assert Ordered(n, Elements(s)) == Ordered(n - 1, Elements(s));
    }
  }

  lemma {:induction false} OrderedEmpty(n: nat)
    ensures Ordered(n, {}) == []
  {
    if n > 0 {
      OrderedEmpty(n - 1);
    }
  }

  /** The front of an increasing list is increasing and below its last element. */
  lemma FrontBelowLast(s: seq<nat>)
    requires Increasing(s) && s != []
    ensures var front := s[..|s| - 1];
      && s == front + [s[|s| - 1]]
      && Increasing(front)
      && forall k :: 0 <= k < |front| ==> front[k] < s[|s| - 1]
  {
  }

  lemma ElementsSnoc(s: seq<nat>, x: nat)
    ensures Elements(s + [x]) == Elements(s) + {x}
  {
  }

  /** When n - 1 is not the last element, an increasing list below n is
      below n - 1. */
  lemma BelowAll(s: seq<nat>, n: nat)
    requires n > 0 && Increasing(s) && forall k :: 0 <= k < |s| ==> s[k] < n
    requires s == [] || s[|s| - 1] != n - 1
    ensures forall k :: 0 <= k < |s| ==> s[k] < n - 1
    ensures n - 1 !in Elements(s)
  {
    forall k | 0 <= k < |s| ensures s[k] < n - 1 {
      assert s[k] <= s[|s| - 1];
    }
  }

  /** Ordered(n, ·) only looks at members below n. */
  lemma {:induction false} OrderedBelow(n: nat, a: set<nat>, b: set<nat>)
    requires forall k :: 0 <= k < n ==> (k in a <==> k in b)
    ensures Ordered(n, a) == Ordered(n, b)
  {
    if n > 0 {
      OrderedBelow(n - 1, a, b);
    }
  }

  // ---------------------------------------------------------------------
  // GraphBuilder

  /** Every live block but `skip` has an incoming list: the branches of bs into it. */
  ghost predicate InConsistent(incoming: map<BlockId, seq<Branch>>, bs: seq<Branch>, live: set<nat>, skip: Option<BlockId>)
  {
    forall b {:trigger b in incoming} {:trigger incoming[b]} :: LiveIn(b, live) && skip != Some(b) ==> b in incoming && incoming[b] == Into(bs, b)
  }

  /** Every live block but `skip` has an outgoing list: the branches of bs out of it. */
  ghost predicate OutConsistent(outgoing: map<BlockId, seq<Branch>>, bs: seq<Branch>, live: set<nat>, skip: Option<BlockId>)
  {
    forall b {:trigger b in outgoing} {:trigger outgoing[b]} :: LiveIn(b, live) && skip != Some(b) ==> b in outgoing && outgoing[b] == OutOf(bs, b)
  }

  lemma ConsistentAdd(incoming: map<BlockId, seq<Branch>>, outgoing: map<BlockId, seq<Branch>>, bs: seq<Branch>, live: set<nat>, br: Branch)
    requires InConsistent(incoming, bs, live, None) && OutConsistent(outgoing, bs, live, None)
    requires LiveIn(br.from, live) && LiveIn(br.to, live)
    ensures InConsistent(incoming[br.to := incoming[br.to] + [br]], bs + [br], live, None)
    ensures OutConsistent(outgoing[br.from := outgoing[br.from] + [br]], bs + [br], live, None)
  {
    forall b | LiveIn(b, live)
      ensures incoming[br.to := incoming[br.to] + [br]][b] == Into(bs + [br], b)
      ensures outgoing[br.from := outgoing[br.from] + [br]][b] == OutOf(bs + [br], b)
    {
      SnocEnds(bs, br, b);
    }
  }

  lemma SnocEnds(bs: seq<Branch>, x: Branch, b: BlockId)
    ensures Into(bs + [x], b) == Into(bs, b) + (if x.to == b then [x] else [])
    ensures OutOf(bs + [x], b) == OutOf(bs, b) + (if x.from == b then [x] else [])
  {
    assert (bs + [x])[..|bs|] == bs;
  }

  /** Removing a branch object from m_branches and from its source's
      outgoing list keeps the lists consistent; an incoming list that is
      not updated stays consistent unless it is the target's. */
  /** RemoveBlock's two loops together detach the block. */
  lemma RemovalIsDetach(orig: seq<Branch>, b: BlockId)
    requires UniqueIds(orig)
    ensures Excluding(Excluding(orig, IdsOf(Into(orig, b))), IdsOf(OutOf(Excluding(orig, IdsOf(Into(orig, b))), b)))
      == Detach(orig, b)
  {
    var i := IdsOf(Into(orig, b));
    var o := IdsOf(OutOf(Excluding(orig, i), b));
    RemovedIds(orig, b);
    ExcludingUnion(orig, i, o);
    ExcludingIsDetach(orig, i + o, b);
  }

  lemma {:induction false} DetachMember(bs: seq<Branch>, b: BlockId, x: Branch)
    ensures x in Detach(bs, b) <==> x in bs && x.from != b && x.to != b
  {
    if bs != [] {
      DetachMember(bs[..|bs| - 1], b, x);
      assert bs == bs[..|bs| - 1] + [bs[|bs| - 1]];
    }
  }

  /** Once the block is gone from the live set, the lists of all live blocks agree. */
  lemma ShrinkConsistent(incoming: map<BlockId, seq<Branch>>, outgoing: map<BlockId, seq<Branch>>, bs: seq<Branch>, live: set<nat>, x: nat)
    requires InConsistent(incoming, bs, live, Some(Block(x))) && OutConsistent(outgoing, bs, live, Some(Block(x)))
    ensures InConsistent(incoming, bs, live - {x}, None) && OutConsistent(outgoing, bs, live - {x}, None)
  {
  }

  /** The invariant of RemoveBlock's first loop, k branches in. */
  ghost predicate FirstLoop(incoming: map<BlockId, seq<Branch>>, outgoing: map<BlockId, seq<Branch>>,
    orig: seq<Branch>, bs: seq<Branch>, live: set<nat>, ins: seq<Branch>, k: int, b: BlockId)
  {
    0 <= k <= |ins| && bs == Excluding(orig, IdsOf(ins[..k])) && (forall y :: y in bs ==> y in orig) &&
    OutConsistent(outgoing, bs, live, None) && InConsistent(incoming, bs, live, Some(b))
  }

  lemma FirstLoopStep(incoming: map<BlockId, seq<Branch>>, outgoing: map<BlockId, seq<Branch>>,
    orig: seq<Branch>, bs: seq<Branch>, live: set<nat>, ins: seq<Branch>, k: int, b: BlockId)
    requires FirstLoop(incoming, outgoing, orig, bs, live, ins, k, b) && k < |ins|
    requires UniqueIds(orig) && ins == Into(orig, b) && forall y :: y in orig ==> LiveIn(y.from, live)
    ensures ins[k].from in outgoing
    ensures FirstLoop(incoming, outgoing[ins[k].from := Excluding(outgoing[ins[k].from], {ins[k].id})],
      orig, Excluding(bs, {ins[k].id}), live, ins, k + 1, b)
  {
    var br := ins[k];
    IntoMember(orig, b, br);
    DropFromSource(incoming, outgoing, orig, bs, live, br);
    ExcludingWithin(bs, {br.id}, orig);
    ExcludingUnion(orig, IdsOf(ins[..k]), {br.id});
    IdsOfPrefix(ins, k);
  }

  /** The invariant of RemoveBlock's second loop, k branches in. */
  ghost predicate SecondLoop(incoming: map<BlockId, seq<Branch>>, outgoing: map<BlockId, seq<Branch>>,
    orig: seq<Branch>, before: seq<Branch>, bs: seq<Branch>, live: set<nat>, outs: seq<Branch>, k: int, b: BlockId)
  {
    0 <= k <= |outs| && bs == Excluding(before, IdsOf(outs[..k])) && (forall y :: y in bs ==> y in before) &&
    OutConsistent(outgoing, bs, live, Some(b)) && InConsistent(incoming, bs, live, Some(b))
  }

  lemma SecondLoopStart(incoming: map<BlockId, seq<Branch>>, outgoing: map<BlockId, seq<Branch>>,
    orig: seq<Branch>, before: seq<Branch>, live: set<nat>, outs: seq<Branch>, b: BlockId)
    requires OutConsistent(outgoing, before, live, None) && InConsistent(incoming, before, live, Some(b))
    requires LiveIn(b, live) && outs == outgoing[b]
    ensures outs == OutOf(before, b)
    ensures SecondLoop(incoming, outgoing, orig, before, before, live, outs, 0, b)
  {
    ExcludingAbsent(before, {});
    assert IdsOf(outs[..0]) == {};
  }

  lemma SecondLoopStep(incoming: map<BlockId, seq<Branch>>, outgoing: map<BlockId, seq<Branch>>,
    orig: seq<Branch>, before: seq<Branch>, bs: seq<Branch>, live: set<nat>, outs: seq<Branch>, k: int, b: BlockId)
    requires SecondLoop(incoming, outgoing, orig, before, bs, live, outs, k, b) && k < |outs|
    requires UniqueIds(orig) && outs == OutOf(before, b)
    requires forall y :: y in before ==> y in orig && y.to != b
    requires forall y :: y in orig ==> LiveIn(y.to, live)
    ensures outs[k].to in incoming
    ensures SecondLoop(incoming[outs[k].to := Excluding(incoming[outs[k].to], {outs[k].id})], outgoing,
      orig, before, Excluding(bs, {outs[k].id}), live, outs, k + 1, b)
  {
    var br := outs[k];
    OutOfMember(before, b, br);
    DropFromTarget(incoming, outgoing, orig, bs, live, br);
    ExcludingWithin(bs, {br.id}, before);
    ExcludingUnion(before, IdsOf(outs[..k]), {br.id});
    IdsOfPrefix(outs, k);
  }

  lemma IdsOfPrefix(s: seq<Branch>, k: nat)
    requires k < |s|
    ensures IdsOf(s[..k + 1]) == IdsOf(s[..k]) + {s[k].id}
  {
    assert forall j :: 0 <= j < k ==> s[..k + 1][j] == s[..k][j];
    assert s[..k + 1][k] == s[k];
  }

  lemma ExcludingWithin(bs: seq<Branch>, ids: set<nat>, orig: seq<Branch>)
    requires forall y :: y in bs ==> y in orig
    ensures forall y :: y in Excluding(bs, ids) ==> y in orig
  {
    forall y | y in Excluding(bs, ids) ensures y in orig {
      ExcludingMember(bs, ids, y);
    }
  }

  /** Detaching a block keeps the remaining branches between live blocks
      and distinct. */
  lemma DetachedLive(orig: seq<Branch>, live: set<nat>, x: nat, n: nat)
    requires UniqueIds(orig)
    requires forall br :: br in orig ==> br.id < n && LiveIn(br.from, live) && LiveIn(br.to, live)
    ensures UniqueIds(Detach(orig, Block(x)))
    ensures forall br :: br in Detach(orig, Block(x)) ==>
      br.id < n && LiveIn(br.from, live - {x}) && LiveIn(br.to, live - {x})
  {
    forall br | br in Detach(orig, Block(x)) ensures br in orig && br.from != Block(x) && br.to != Block(x) {
      DetachMember(orig, Block(x), br);
    }
  }

  lemma AddUnique(bs: seq<Branch>, br: Branch, n: nat)
    requires UniqueIds(bs) && (forall x :: x in bs ==> x.id < n) && br.id == n
    ensures UniqueIds(bs + [br]) && forall x :: x in bs + [br] ==> x.id < n + 1
  {
  }

  lemma DropFromSource(incoming: map<BlockId, seq<Branch>>, outgoing: map<BlockId, seq<Branch>>, orig: seq<Branch>, bs: seq<Branch>, live: set<nat>, br: Branch)
    requires UniqueIds(orig) && br in orig && (forall y :: y in bs ==> y in orig)
    requires OutConsistent(outgoing, bs, live, None) && InConsistent(incoming, bs, live, Some(br.to))
    requires LiveIn(br.from, live)
    ensures OutConsistent(outgoing[br.from := Excluding(outgoing[br.from], {br.id})], Excluding(bs, {br.id}), live, None)
    ensures InConsistent(incoming, Excluding(bs, {br.id}), live, Some(br.to))
  {
    forall b { ExcludeOne(orig, bs, br, b); }
  }

  lemma DropFromTarget(incoming: map<BlockId, seq<Branch>>, outgoing: map<BlockId, seq<Branch>>, orig: seq<Branch>, bs: seq<Branch>, live: set<nat>, br: Branch)
    requires UniqueIds(orig) && br in orig && (forall y :: y in bs ==> y in orig)
    requires InConsistent(incoming, bs, live, Some(br.from)) && OutConsistent(outgoing, bs, live, Some(br.from))
    requires LiveIn(br.to, live) && br.to != br.from
    ensures InConsistent(incoming[br.to := Excluding(incoming[br.to], {br.id})], Excluding(bs, {br.id}), live, Some(br.from))
    ensures OutConsistent(outgoing, Excluding(bs, {br.id}), live, Some(br.from))
  {
    forall b { ExcludeOne(orig, bs, br, b); }
  }

  // ---------------------------------------------------------------------
  // Pruning, step by step

  /** A live block entered from Start or from a live block has a branch in
      its incoming list. */
  lemma EnteredIsIncoming(w: seq<Branch>, live: set<nat>, t: set<nat>, x: nat)
    requires t <= live
    ensures x in t && Entered(w, t, x) ==> Into(Kept(w, live), Block(x)) != []
  {
    if x in t && Entered(w, t, x) {
      var br :| br in w && br.to == Block(x) && (br.from.Start? || (br.from.Block? && br.from.index in t));
      KeptMember(w, live, br);
      IntoMember(Kept(w, live), Block(x), br);
    }
  }

  /** A branch in a live block's incoming list enters it from Start or from
      a live block, since no branch leaves End. */
  lemma IncomingIsEntered(w: seq<Branch>, live: set<nat>, x: nat)
    requires forall br :: br in w ==> !br.from.End?
    ensures Into(Kept(w, live), Block(x)) != [] ==> Entered(w, live, x)
  {
    var ins := Into(Kept(w, live), Block(x));
    if ins != [] {
      IntoMember(Kept(w, live), Block(x), ins[0]);
      KeptMember(w, live, ins[0]);
    }
  }

  /** A block with an empty incoming list belongs to no self-supporting set
      of live blocks, so removing it keeps every such set. */
  lemma UnenteredDrops(w: seq<Branch>, live: set<nat>, x: nat)
    requires Into(Kept(w, live), Block(x)) == []
    requires forall t :: Supported(w, t) ==> t <= live
    ensures forall t :: Supported(w, t) ==> t <= live - {x}
  {
    forall t | Supported(w, t) ensures x !in t {
      EnteredIsIncoming(w, live, t, x);
    }
  }

  /** Every self-supporting set of wired branches lies among the n blocks. */
  lemma AllEnteredSupported(incoming: map<BlockId, seq<Branch>>, w: seq<Branch>, blocks: seq<nat>)
    requires InConsistent(incoming, Kept(w, Elements(blocks)), Elements(blocks), None)
    requires forall j :: 0 <= j < |blocks| ==> Block(blocks[j]) in incoming && incoming[Block(blocks[j])] != []
    requires forall br :: br in w ==> !br.from.End?
    ensures Supported(w, Elements(blocks))
  {
    var live := Elements(blocks);
    forall i | i in live ensures Entered(w, live, i) {
      var j :| 0 <= j < |blocks| && blocks[j] == i;
      IncomingIsEntered(w, live, i);
    }
  }

  lemma SupportedBelow(w: seq<Branch>, n: nat, t: set<nat>)
    requires WiredShape(w, n)
    ensures Supported(w, t) ==> forall i :: i in t ==> i < n
  {
    if Supported(w, t) {
      forall i | i in t ensures i < n {
        assert Entered(w, t, i);
        var br :| br in w && br.to == Block(i) && (br.from.Start? || (br.from.Block? && br.from.index in t));
        var k :| 0 <= k < |w| && w[k] == br;
        assert Target(w[k].to, n);
      }
    }
  }

  /** What pruning needs of the wired branches: none leaves End, and
      every self-supporting set lies among the blocks. */
  lemma PruneReady(w: seq<Branch>, source: seq<seq<BoundStatement>>)
    requires Wired(source) == Success(w)
    ensures forall br :: br in w ==> !br.from.End?
    ensures forall t :: Supported(w, t) ==> t <= Elements(Range(|source|))
  {
    WiredFacts(source);
    RangeFacts(|source|);
    forall br | br in w ensures !br.from.End? {
      var k :| 0 <= k < |w| && w[k] == br;
    }
    forall t | Supported(w, t) ensures t <= Elements(Range(|source|)) {
      SupportedBelow(w, |source|, t);
    }
  }

  lemma RangeFacts(n: nat)
    ensures Increasing(Range(n))
    ensures forall i: nat :: i in Elements(Range(n)) <==> i < n
  {
    forall i: nat | i < n ensures i in Elements(Range(n)) {
      assert Range(n)[i] == i;
    }
    forall i | i in Elements(Range(n)) ensures i < n {
      var k :| 0 <= k < n && Range(n)[k] == i;
    }
  }

  /** The block ids of a list of block indices. */
  function BlockIds(s: seq<nat>): (r: seq<BlockId>)
    ensures |r| == |s| && forall k :: 0 <= k < |s| ==> r[k] == Block(s[k])
  {
    seq(|s|, k requires 0 <= k < |s| => Block(s[k]))
  }

  // ---------------------------------------------------------------------
  // The graph

  /** A built graph: the basic blocks' statements by index, the block list
      from Start to End, the branches, and each listed block's incoming and
      outgoing lists. */
  datatype ControlFlowGraph = ControlFlowGraph(
    statements: seq<seq<BoundStatement>>,
    blocks: seq<BlockId>,
    branches: seq<Branch>,
    incoming: map<BlockId, seq<Branch>>,
    outgoing: map<BlockId, seq<Branch>>)

  /** The graph GraphBuilder.Build makes of a list of basic blocks: Start,
      the surviving blocks in their order and End, the wired branches
      between them, and for each of those blocks its lists of branches. */
  ghost function GraphOf(source: seq<seq<BoundStatement>>): Result<ControlFlowGraph, CfgFault>
  {
    match Wired(source)
    case Failure(e) => Failure(e)
    case Success(w) => Success(GraphFrom(source, w))
  }

  /** The graph left once the wired branches w are pruned. */
  ghost function GraphFrom(source: seq<seq<BoundStatement>>, w: seq<Branch>): ControlFlowGraph
  {
    var live := Survivors(w, |source|);
    var bs := Kept(w, live);
    var ids := [Start] + BlockIds(Ordered(|source|, live)) + [End];
    ControlFlowGraph(source, ids, bs, map b | b in ids :: Into(bs, b), map b | b in ids :: OutOf(bs, b))
  }

  /** Start, End and the listed blocks take part. */
  lemma IdsLive(s: seq<nat>)
    ensures forall b :: b in [Start] + BlockIds(s) + [End] ==> LiveIn(b, Elements(s))
  {
    forall b | b in [Start] + BlockIds(s) + [End] ensures LiveIn(b, Elements(s)) {
      if b.Block? {
        var k :| 0 <= k < |[Start] + BlockIds(s) + [End]| && ([Start] + BlockIds(s) + [End])[k] == b;
        assert s[k - 1] == b.index;
      }
    }
  }

  /** The builder's final state, read off as a graph, is GraphFrom. */
  lemma GraphMatches(source: seq<seq<BoundStatement>>, w: seq<Branch>,
    incoming: map<BlockId, seq<Branch>>, outgoing: map<BlockId, seq<Branch>>, bs: seq<Branch>, blocks: seq<nat>)
    requires InConsistent(incoming, bs, Elements(blocks), None) && OutConsistent(outgoing, bs, Elements(blocks), None)
    requires bs == Kept(w, Elements(blocks))
    requires Elements(blocks) == Survivors(w, |source|) && blocks == Ordered(|source|, Survivors(w, |source|))
    ensures forall b :: b in [Start] + BlockIds(blocks) + [End] ==> b in incoming && b in outgoing
    ensures ControlFlowGraph(source, [Start] + BlockIds(blocks) + [End], bs,
      map b | b in [Start] + BlockIds(blocks) + [End] :: incoming[b],
      map b | b in [Start] + BlockIds(blocks) + [End] :: outgoing[b]) == GraphFrom(source, w)
  {
    var ids := [Start] + BlockIds(blocks) + [End];
    IdsLive(blocks);
    ListsAgree(incoming, outgoing, bs, Elements(blocks), ids);
  }

  /** Consistent lists, read off for the graph's blocks. */
  lemma ListsAgree(incoming: map<BlockId, seq<Branch>>, outgoing: map<BlockId, seq<Branch>>,
    bs: seq<Branch>, live: set<nat>, ids: seq<BlockId>)
    requires InConsistent(incoming, bs, live, None) && OutConsistent(outgoing, bs, live, None)
    requires forall b :: b in ids ==> LiveIn(b, live)
    ensures forall b :: b in ids ==> b in incoming && b in outgoing
    ensures (map b | b in ids :: incoming[b]) == (map b | b in ids :: Into(bs, b))
    ensures (map b | b in ids :: outgoing[b]) == (map b | b in ids :: OutOf(bs, b))
  {
  }

  class GraphBuilder {
    /** The list Build is given and edits: the indices of the blocks still in it. */
    var blocks: seq<nat>
    /** m_branches */
    var branches: seq<Branch>
    /** Each block's Incoming and Outgoing lists. */
    var incoming: map<BlockId, seq<Branch>>
    var outgoing: map<BlockId, seq<Branch>>
    /** m_blockFromLabel */
    var labels: map<BoundSymbol, nat>
    /** The id the next branch object gets. */
    var nextId: nat

    constructor ()
      ensures Fresh()
    {
      blocks := [];
      branches := [];
      incoming := map[Start := [], End := []];
      outgoing := map[Start := [], End := []];
      labels := map[];
      nextId := 0;
    }

    /** A new builder: no blocks, no branches, no labels, and empty lists of
        its own Start and End. */
    predicate Fresh()
      reads this
    {
      blocks == [] && branches == [] && labels == map[] && nextId == 0 &&
      incoming == map[Start := [], End := []] && outgoing == map[Start := [], End := []]
    }

    predicate IsLive(b: BlockId)
      reads this
    {
      LiveIn(b, Elements(blocks))
    }

    /** Every live block's lists agree with m_branches, every branch is a
        distinct object between live blocks, and the block list keeps its
        order. */
    ghost predicate Valid()
      reads this
    {
      InConsistent(incoming, branches, Elements(blocks), None) &&
      OutConsistent(outgoing, branches, Elements(blocks), None) &&
      UniqueIds(branches) &&
      (forall br :: br in branches ==> br.id < nextId && IsLive(br.from) && IsLive(br.to)) &&
      Increasing(blocks)
    }

    /** Connect: adds the branch Connected describes to the source's
        outgoing list, the target's incoming list and m_branches. */
    method Connect(from: BlockId, to: BlockId, condition: Option<BoundExpression>) returns (fault: Option<CfgFault>)
      requires Valid() && IsLive(from) && IsLive(to)
      modifies this
      ensures Valid()
      ensures Connected(old(branches), old(nextId), from, to, condition) ==
        if fault.None? then Success(branches) else Failure(fault.value)
      ensures nextId - old(nextId) == |branches| - |old(branches)|
      ensures blocks == old(blocks) && labels == old(labels)
    {
      var c := condition;
      if c.Some? && c.value.LiteralExpression? {
        var v := c.value.value;
        if !v.BoolVal? {
          return Some(InvalidCast);
        }
        if v.b {
          c := None;
        } else {
          return None;
        }
      }
      AddBranch(Branch(nextId, from, to, c));
      fault := None;
    }
  
    /** The three Add calls of Connect. */
    method AddBranch(br: Branch)
      requires Valid() && br.id == nextId && IsLive(br.from) && IsLive(br.to)
      modifies this
      ensures Valid()
      ensures branches == old(branches) + [br] && nextId == old(nextId) + 1
      ensures blocks == old(blocks) && labels == old(labels)
    {
      ghost var live := Elements(blocks);
      ConsistentAdd(incoming, outgoing, branches, live, br);
      AddUnique(branches, br, nextId);
      outgoing := outgoing[br.from := outgoing[br.from] + [br]];
      incoming := incoming[br.to := incoming[br.to] + [br]];
      branches := branches + [br];
      nextId := nextId + 1;
      assert forall y :: y in branches ==> IsLive(y.from) && IsLive(y.to) by {
        forall y | y in branches ensures IsLive(y.from) && IsLive(y.to) {
          assert y in old(branches) || y == br;
        }
      }
    }
  
    /** RemoveBlock's first loop: each branch into the block leaves its
        source's outgoing list and m_branches. */
    method DetachIncoming(x: nat)
      requires Valid() && x in blocks
      modifies this`branches, this`outgoing
      ensures branches == Excluding(old(branches), IdsOf(Into(old(branches), Block(x))))
      ensures forall y :: y in branches ==> y in old(branches)
      ensures OutConsistent(outgoing, branches, Elements(blocks), None)
      ensures InConsistent(incoming, branches, Elements(blocks), Some(Block(x)))
    {
      var ins := incoming[Block(x)];
      ghost var orig := branches;
      ghost var live := Elements(blocks);
      assert ins == Into(orig, Block(x));
      ExcludingAbsent(orig, {});
      assert IdsOf(ins[..0]) == {};
      for k := 0 to |ins|
        invariant FirstLoop(incoming, outgoing, orig, branches, live, ins, k, Block(x))
      {
        FirstLoopStep(incoming, outgoing, orig, branches, live, ins, k, Block(x));
        var br := ins[k];
        outgoing := outgoing[br.from := Excluding(outgoing[br.from], {br.id})];
        branches := Excluding(branches, {br.id});
      }
      assert ins[..|ins|] == ins;
    }

    /** RemoveBlock's second loop: each branch out of the block leaves its
        target's incoming list and m_branches. */
    method DetachOutgoing(x: nat, ghost orig: seq<Branch>)
      requires UniqueIds(orig) && forall y :: y in branches ==> y in orig && y.to != Block(x)
      requires forall y :: y in orig ==> IsLive(y.to)
      requires OutConsistent(outgoing, branches, Elements(blocks), None)
      requires InConsistent(incoming, branches, Elements(blocks), Some(Block(x)))
      requires x in blocks
      modifies this`branches, this`incoming
      ensures branches == Excluding(old(branches), IdsOf(OutOf(old(branches), Block(x))))
      ensures forall y :: y in branches ==> y in old(branches)
      ensures OutConsistent(outgoing, branches, Elements(blocks), Some(Block(x)))
      ensures InConsistent(incoming, branches, Elements(blocks), Some(Block(x)))
    {
      var outs := outgoing[Block(x)];
      ghost var before := branches;
      ghost var live := Elements(blocks);
      SecondLoopStart(incoming, outgoing, orig, before, live, outs, Block(x));
      for k := 0 to |outs|
        invariant SecondLoop(incoming, outgoing, orig, before, branches, live, outs, k, Block(x))
      {
        SecondLoopStep(incoming, outgoing, orig, before, branches, live, outs, k, Block(x));
        var br := outs[k];
        incoming := incoming[br.to := Excluding(incoming[br.to], {br.id})];
        branches := Excluding(branches, {br.id});
      }
      assert outs[..|outs|] == outs;
    }

    /** RemoveBlock: the block's branches leave every list, and the block
        leaves the block list. */
    method RemoveBlock(x: nat)
      requires Valid() && x in blocks
      modifies this
      ensures Valid()
      ensures blocks == RemoveFirst(old(blocks), x)
      ensures |blocks| == |old(blocks)| - 1 && Elements(blocks) == Elements(old(blocks)) - {x}
      ensures branches == Detach(old(branches), Block(x))
      ensures nextId == old(nextId) && labels == old(labels)
    {
      ghost var orig := branches;
      ghost var before := blocks;
      ghost var live := Elements(blocks);
      DetachedLive(orig, live, x, nextId);
      RemoveFirstIncreasing(before, x);
      RemoveFirstLength(before, x);
      assert Elements(RemoveFirst(before, x)) == live - {x};
      DetachIncoming(x);
      RemovedIds(orig, Block(x));
      DetachOutgoing(x, orig);
      assert blocks == before;
      blocks := RemoveFirst(blocks, x);
      assert Elements(blocks) == live - {x} && |blocks| == |before| - 1;
      assert branches == Detach(orig, Block(x)) by {
        RemovalIsDetach(orig, Block(x));
      }
      ShrinkConsistent(incoming, outgoing, branches, live, x);
      assert InConsistent(incoming, branches, Elements(blocks), None);
      assert OutConsistent(outgoing, branches, Elements(blocks), None);
      assert forall br :: br in branches ==> br.id < nextId && IsLive(br.from) && IsLive(br.to);
    }

    /** A block whose incoming list has a branch. */
    predicate HasIncoming(b: BlockId)
      reads this
    {
      b in incoming && incoming[b] != []
    }

    /** The scan of ScanAgain: the position of the first block in the list
        whose incoming list is empty, or the length of the list when there
        is none. */
    method FirstUnentered() returns (k: nat)
      ensures k <= |blocks|
      ensures k < |blocks| ==> !HasIncoming(Block(blocks[k]))
      ensures forall j :: 0 <= j < k ==> HasIncoming(Block(blocks[j]))
    {
      k := 0;
      while k < |blocks| && HasIncoming(Block(blocks[k]))
        invariant k <= |blocks|
        invariant forall j :: 0 <= j < k ==> HasIncoming(Block(blocks[j]))
      {
        k := k + 1;
      }
    }

    /** Build: Start is joined to the first block (to End when there is
        none), the labels are indexed, every statement adds its branches,
        blocks no branch enters are pruned, and Start and End bracket the
        blocks that are left. */
    method Build(source: seq<seq<BoundStatement>>) returns (r: Result<ControlFlowGraph, CfgFault>)
      requires Fresh()
      modifies this
      ensures r == GraphOf(source)
    {
      var n := |source|;
      AddBlocks(n);
      RangeFacts(n);
      var f0 := Connect(Start, if n == 0 then End else Block(0), None);
      assert branches == [StartBranch(source)];
      var f1 := IndexLabels(source);
      if f1.Some? {
        return Failure(f1.value);
      }
      var f2 := WireAll(source);
      if f2.Some? {
        return Failure(f2.value);
      }
      ghost var w := branches;
      PruneReady(w, source);
      KeptAll(w, Elements(blocks));
      Prune(w, n);
      var g := Graph(source, w);
      r := Success(g);
    }

    /** The last lines of Build: Start and End bracket the remaining
        blocks, and the graph takes the branch list and the blocks' lists. */
    method Graph(source: seq<seq<BoundStatement>>, ghost w: seq<Branch>) returns (g: ControlFlowGraph)
      requires InConsistent(incoming, branches, Elements(blocks), None)
      requires OutConsistent(outgoing, branches, Elements(blocks), None)
      requires branches == Kept(w, Elements(blocks))
      requires Elements(blocks) == Survivors(w, |source|) && blocks == Ordered(|source|, Survivors(w, |source|))
      ensures g == GraphFrom(source, w)
    {
      var ids := [Start] + BlockIds(blocks) + [End];
      GraphMatches(source, w, incoming, outgoing, branches, blocks);
      g := ControlFlowGraph(source, ids, branches, map b | b in ids :: incoming[b], map b | b in ids :: outgoing[b]);
    }

    /** The blocks Build is given, each with empty lists; the Start branch
        is not added yet. */
    method AddBlocks(n: nat)
      requires Fresh()
      modifies this
      ensures Valid() && blocks == Range(n) && branches == [] && nextId == 0 && labels == map[]
    {
      RangeFacts(n);
      blocks := Range(n);
      incoming := incoming + map i | 0 <= i < n :: Block(i) := [];
      outgoing := outgoing + map i | 0 <= i < n :: Block(i) := [];
    }

    /** The label half of Build's first loop: each label statement's label
        maps to its block, and a label seen before fails. */
    method IndexLabels(source: seq<seq<BoundStatement>>) returns (fault: Option<CfgFault>)
      requires labels == map[]
      modifies this`labels
      ensures CollectLabels(source, 0, 0, map[]) == if fault.None? then Success(labels) else Failure(fault.value)
    {
      for i := 0 to |source|
        invariant forall l :: l in labels ==> labels[l] < |source|
        invariant CollectLabels(source, i, 0, labels) == CollectLabels(source, 0, 0, map[])
      {
        for j := 0 to |source[i]|
          invariant forall l :: l in labels ==> labels[l] < |source|
          invariant CollectLabels(source, i, j, labels) == CollectLabels(source, 0, 0, map[])
        {
          var s := source[i][j];
          if s.LabelStatement? {
            if s.labelSymbol in labels {
              return Some(DuplicateLabel(s.labelSymbol));
            }
            labels := labels[s.labelSymbol := i];
          }
        }
      }
      fault := None;
    }

    /** One pass of the switch in Build's second loop: the branches of
        statement j of block i. */
    method WireStatement(source: seq<seq<BoundStatement>>, i: nat, j: nat) returns (fault: Option<CfgFault>)
      requires Valid() && blocks == Range(|source|) && nextId == |branches|
      requires i < |source| && j < |source[i]|
      requires forall l :: l in labels ==> labels[l] < |source|
      modifies this
      ensures Valid() && blocks == old(blocks) && labels == old(labels) && nextId == |branches|
      ensures StatementBranches(labels, source, i, j, old(branches)) ==
        if fault.None? then Success(branches) else Failure(fault.value)
    {
      RangeFacts(|source|);
      var current := Block(i);
      var next := if i == |source| - 1 then End else Block(i + 1);
      var s := source[i][j];
      ghost var spec := StatementBranches(labels, source, i, j, branches);
      match s
      case GotoStatement(l) =>
        if l !in labels {
          return Some(UnknownLabel(l));
        }
        assert spec == Connected(branches, nextId, current, Block(labels[l]), None);
        fault := Connect(current, Block(labels[l]), None);
      case ConditionalGotoStatement(l, c, jumpIfTrue) =>
        if l !in labels {
          return Some(UnknownLabel(l));
        }
        assert spec == ConditionalBranches(branches, current, Block(labels[l]), next, c, jumpIfTrue);
        fault := ConditionalJump(current, Block(labels[l]), next, c, jumpIfTrue);
      case ReturnStatement =>
        assert spec == Connected(branches, nextId, current, End, None);
        fault := Connect(current, End, None);
      case VariableDeclaration(_, _) | LabelStatement(_) | ExpressionStatement(_) =>
        assert spec == if j == |source[i]| - 1 then Connected(branches, nextId, current, next, None) else Success(branches);
        fault := FallThrough(source, i, j);
      case _ =>
        fault := Some(UnexpectedStatement(s));
    }

    /** The conditional goto case of the switch. */
    method ConditionalJump(from: BlockId, thenBlock: BlockId, elseBlock: BlockId, c: BoundExpression, jumpIfTrue: bool)
      returns (fault: Option<CfgFault>)
      requires Valid() && nextId == |branches| && IsLive(from) && IsLive(thenBlock) && IsLive(elseBlock)
      modifies this
      ensures Valid() && blocks == old(blocks) && labels == old(labels) && nextId == |branches|
      ensures ConditionalBranches(old(branches), from, thenBlock, elseBlock, c, jumpIfTrue) ==
        if fault.None? then Success(branches) else Failure(fault.value)
    {
      var negated := Negate(c);
      if negated.Failure? {
        return Some(negated.error);
      }
      var thenCondition := if jumpIfTrue then c else negated.value;
      var elseCondition := if jumpIfTrue then negated.value else c;
      assert ConditionalBranches(branches, from, thenBlock, elseBlock, c, jumpIfTrue)
        == BranchPair(branches, from, thenBlock, elseBlock, thenCondition, elseCondition);
      fault := ConnectPair(from, thenBlock, elseBlock, thenCondition, elseCondition);
    }

    /** The two Connect calls of a conditional goto. */
    method ConnectPair(from: BlockId, thenBlock: BlockId, elseBlock: BlockId,
      thenCondition: BoundExpression, elseCondition: BoundExpression) returns (fault: Option<CfgFault>)
      requires Valid() && nextId == |branches| && IsLive(from) && IsLive(thenBlock) && IsLive(elseBlock)
      modifies this
      ensures Valid() && blocks == old(blocks) && labels == old(labels) && nextId == |branches|
      ensures BranchPair(old(branches), from, thenBlock, elseBlock, thenCondition, elseCondition) ==
        if fault.None? then Success(branches) else Failure(fault.value)
    {
      ghost var before := branches;
      ghost var pair := BranchPair(before, from, thenBlock, elseBlock, thenCondition, elseCondition);
      fault := Connect(from, thenBlock, Some(thenCondition));
      ghost var first := Connected(before, |before|, from, thenBlock, Some(thenCondition));
      if fault.None? {
        assert first == Success(branches);
        assert pair == Connected(branches, nextId, from, elseBlock, Some(elseCondition));
        fault := Connect(from, elseBlock, Some(elseCondition));
      } else {
        assert pair == first == Failure(fault.value);
      }
    }
    /** The case of a statement that does not jump: only the block's last
        statement falls through to the next block. */
    method FallThrough(source: seq<seq<BoundStatement>>, i: nat, j: nat) returns (fault: Option<CfgFault>)
      requires Valid() && blocks == Range(|source|) && nextId == |branches|
      requires i < |source| && j < |source[i]|
      modifies this
      ensures Valid() && blocks == old(blocks) && labels == old(labels) && nextId == |branches|
      ensures fault.None?
      ensures branches == if j == |source[i]| - 1
        then old(branches) + [Branch(old(nextId), Block(i), if i == |source| - 1 then End else Block(i + 1), None)]
        else old(branches)
    {
      RangeFacts(|source|);
      fault := None;
      if j == |source[i]| - 1 {
        fault := Connect(Block(i), if i == |source| - 1 then End else Block(i + 1), None);
      }
    }

    /** Build's second loop: every statement of every block in order. */
    method WireAll(source: seq<seq<BoundStatement>>) returns (fault: Option<CfgFault>)
      requires Valid() && blocks == Range(|source|) && nextId == |branches|
      requires forall l :: l in labels ==> labels[l] < |source|
      modifies this
      ensures Valid() && blocks == old(blocks) && labels == old(labels) && nextId == |branches|
      ensures Wire(labels, source, 0, 0, old(branches)) ==
        if fault.None? then Success(branches) else Failure(fault.value)
    {
      for i := 0 to |source|
        invariant Valid() && blocks == old(blocks) && labels == old(labels) && nextId == |branches|
        invariant Wire(labels, source, i, 0, branches) == Wire(labels, source, 0, 0, old(branches))
      {
        for j := 0 to |source[i]|
          invariant Valid() && blocks == old(blocks) && labels == old(labels) && nextId == |branches|
          invariant Wire(labels, source, i, j, branches) == Wire(labels, source, 0, 0, old(branches))
        {
          fault := WireStatement(source, i, j);
          if fault.Some? {
            return;
          }
        }
      }
      fault := None;
    }

    /** One round of ScanAgain: the block found with no incoming branch goes. */
    method RemoveUnentered(x: nat, ghost w: seq<Branch>, ghost n: nat)
      requires Valid() && branches == Kept(w, Elements(blocks))
      requires x in blocks && !HasIncoming(Block(x))
      requires forall i :: i in blocks ==> i < n
      requires forall t :: Supported(w, t) ==> t <= Elements(blocks)
      modifies this
      ensures Valid() && branches == Kept(w, Elements(blocks))
      ensures forall i :: i in blocks ==> i < n
      ensures forall t :: Supported(w, t) ==> t <= Elements(blocks)
      ensures labels == old(labels) && nextId == old(nextId) && |blocks| < |old(blocks)|
    {
      ghost var live := Elements(blocks);
      assert Into(Kept(w, live), Block(x)) == [];
      UnenteredDrops(w, live, x);
      DetachKept(w, live, x);
      RemoveBlock(x);
      assert forall i :: i in blocks ==> i in Elements(blocks);
    }

    /** ScanAgain: removes a block with no incoming branch and scans again,
        until every block has one. What is left is the largest set of blocks
        each entered from Start or from the set, in the original order, with
        the wired branches between them. */
    method Prune(ghost w: seq<Branch>, ghost n: nat)
      requires Valid() && branches == Kept(w, Elements(blocks))
      requires forall br :: br in w ==> !br.from.End?
      requires forall i :: i in blocks ==> i < n
      requires forall t :: Supported(w, t) ==> t <= Elements(blocks)
      modifies this
      ensures Valid() && branches == Kept(w, Elements(blocks))
      ensures Elements(blocks) == Survivors(w, n) && blocks == Ordered(n, Survivors(w, n))
      ensures labels == old(labels) && nextId == old(nextId)
    {
      while true
        invariant Valid() && branches == Kept(w, Elements(blocks))
        invariant forall i :: i in blocks ==> i < n
        invariant forall t :: Supported(w, t) ==> t <= Elements(blocks)
        invariant labels == old(labels) && nextId == old(nextId)
        decreases |blocks|
      {
        var k := FirstUnentered();
        if k == |blocks| {
          break;
        }
        RemoveUnentered(blocks[k], w, n);
      }
      AllEnteredSupported(incoming, w, blocks);
      GreatestSupported(w, n, Elements(blocks));
      IncreasingIsOrdered(blocks, n);
    }
  }

  // ---------------------------------------------------------------------
  // What pruning leaves

  /** The survivors support themselves, and every self-supporting set lies
      among them: they are the blocks ScanAgain cannot remove. */
  lemma SurvivorsGreatest(w: seq<Branch>, n: nat)
    requires forall br :: br in w ==> Target(br.to, n)
    ensures Supported(w, Survivors(w, n))
    ensures forall t :: Supported(w, t) ==> t <= Survivors(w, n)
  {
    var live := Survivors(w, n);
    forall t | Supported(w, t) ensures t <= live {
      forall i | i in t ensures i in live {
        assert Entered(w, t, i);
        var br :| br in w && br.to == Block(i) && (br.from.Start? || (br.from.Block? && br.from.index in t));
        assert Target(br.to, n);
      }
    }
    forall i | i in live ensures Entered(w, live, i) {
      var t :| Supported(w, t) && i in t;
      assert Entered(w, t, i);
      var br :| br in w && br.to == Block(i) && (br.from.Start? || (br.from.Block? && br.from.index in t));
      assert t <= live;
    }
  }

  /** A branch of w leads from a to b. */
  ghost predicate Step(w: seq<Branch>, a: BlockId, b: BlockId)
  {
    exists br :: br in w && br.from == a && br.to == b
  }

  /** The blocks p are visited in turn on a walk from Start along w. */
  ghost predicate Path(w: seq<Branch>, p: seq<nat>)
  {
    p != [] && Step(w, Start, Block(p[0])) &&
    forall k :: 0 < k < |p| ==> Step(w, Block(p[k - 1]), Block(p[k]))
  }

  /** Every block on a walk from Start survives pruning. */
  lemma ReachableSurvives(w: seq<Branch>, n: nat, p: seq<nat>)
    requires Path(w, p) && forall k :: 0 <= k < |p| ==> p[k] < n
    ensures forall k :: 0 <= k < |p| ==> p[k] in Survivors(w, n)
  {
    var t := Elements(p);
    forall i | i in t ensures Entered(w, t, i) {
      var k :| 0 <= k < |p| && p[k] == i;
      if k == 0 {
        var br :| br in w && br.from == Start && br.to == Block(p[0]);
      } else {
        var br :| br in w && br.from == Block(p[k - 1]) && br.to == Block(p[k]);
        assert p[k - 1] in t;
      }
    }
    assert Supported(w, t);
    forall k | 0 <= k < |p| ensures p[k] in Survivors(w, n) {
      assert p[k] in t;
    }
  }

  lemma {:induction false} OrderedMember(n: nat, live: set<nat>, k: nat)
    ensures k in Ordered(n, live) <==> k < n && k in live
  {
    if n > 0 {
      OrderedMember(n - 1, live, k);
    }
  }

  /** The built graph runs from Start to End; every block in it but Start is
      entered by one of its branches; every branch joins two of its blocks;
      and each block's lists are its branches in and out. */
  lemma GraphShape(source: seq<seq<BoundStatement>>)
    requires GraphOf(source).Success?
    ensures GraphOf(source).value.blocks[0] == Start
    ensures GraphOf(source).value.blocks[|GraphOf(source).value.blocks| - 1] == End
    ensures forall b :: b in GraphOf(source).value.blocks && b.Block? ==> Into(GraphOf(source).value.branches, b) != []
    ensures forall br :: br in GraphOf(source).value.branches ==>
      br.from in GraphOf(source).value.blocks && br.to in GraphOf(source).value.blocks
    ensures forall b :: b in GraphOf(source).value.blocks ==>
      b in GraphOf(source).value.incoming && GraphOf(source).value.incoming[b] == Into(GraphOf(source).value.branches, b) &&
      b in GraphOf(source).value.outgoing && GraphOf(source).value.outgoing[b] == OutOf(GraphOf(source).value.branches, b)
  {
    var w := Wired(source).value;
    WiredFacts(source);
    PruneReady(w, source);
    forall br | br in w ensures Target(br.to, |source|) && (br.from.Block? ==> br.from.index < |source|) {
      var k :| 0 <= k < |w| && w[k] == br;
    }
    PrunedEntered(w, |source|);
    PrunedClosed(w, |source|);
  }

  /** Every block left by pruning is entered by a branch left by pruning. */
  lemma PrunedEntered(w: seq<Branch>, n: nat)
    requires forall br :: br in w ==> Target(br.to, n)
    ensures forall b :: b in [Start] + BlockIds(Ordered(n, Survivors(w, n))) + [End] && b.Block? ==>
      Into(Kept(w, Survivors(w, n)), b) != []
  {
    var live := Survivors(w, n);
    var order := Ordered(n, live);
    var ids := [Start] + BlockIds(order) + [End];
    SurvivorsGreatest(w, n);
    forall b | b in ids && b.Block? ensures Into(Kept(w, live), b) != [] {
      var k :| 0 <= k < |ids| && ids[k] == b;
      assert order[k - 1] == b.index;
      OrderedMember(n, live, b.index);
      EnteredIsIncoming(w, live, live, b.index);
    }
  }

  /** Every branch left by pruning joins two blocks left by pruning. */
  lemma PrunedClosed(w: seq<Branch>, n: nat)
    requires forall br :: br in w ==> Target(br.to, n) && !br.from.End? && (br.from.Block? ==> br.from.index < n)
    ensures forall br :: br in Kept(w, Survivors(w, n)) ==>
      br.from in [Start] + BlockIds(Ordered(n, Survivors(w, n))) + [End] &&
      br.to in [Start] + BlockIds(Ordered(n, Survivors(w, n))) + [End]
  {
    var live := Survivors(w, n);
    forall br | br in Kept(w, live)
      ensures br.from in [Start] + BlockIds(Ordered(n, live)) + [End] && br.to in [Start] + BlockIds(Ordered(n, live)) + [End]
    {
      KeptMember(w, live, br);
      InGraph(n, live, br.from);
      InGraph(n, live, br.to);
    }
  }

  /** A live block below n is listed in the graph. */
  lemma InGraph(n: nat, live: set<nat>, b: BlockId)
    requires LiveIn(b, live) && (b.Block? ==> b.index < n)
    ensures b in [Start] + BlockIds(Ordered(n, live)) + [End]
  {
    if b.Block? {
      var order := Ordered(n, live);
      OrderedMember(n, live, b.index);
      var k :| 0 <= k < |order| && order[k] == b.index;
      assert ([Start] + BlockIds(order) + [End])[k + 1] == b;
    }
  }

  // ---------------------------------------------------------------------
  // Create and AllPathsReturn

  /** Create: the basic blocks of a body, then the graph of those blocks. */
  ghost function CreateSpec(body: seq<BoundStatement>): Result<ControlFlowGraph, CfgFault>
  {
    if FirstUnlowered(body) < |body| then Failure(UnexpectedStatement(body[FirstUnlowered(body)]))
    else GraphOf(BasicBlocks(body))
  }

  method Create(body: seq<BoundStatement>) returns (r: Result<ControlFlowGraph, CfgFault>)
    ensures r == CreateSpec(body)
  {
    var basicBlockBuilder := new BasicBlockBuilder();
    var blocks := basicBlockBuilder.Build(body);
    if blocks.Failure? {
      return Failure(blocks.error);
    }
    var graphBuilder := new GraphBuilder();
    r := graphBuilder.Build(blocks.value);
  }

  /** The statements of a block of the graph; Start and End have none. */
  function StatementsOf(g: ControlFlowGraph, b: BlockId): seq<BoundStatement>
  {
    if b.Block? && b.index < |g.statements| then g.statements[b.index] else []
  }

  predicate EndsInReturn(st: seq<BoundStatement>)
  {
    st != [] && st[|st| - 1].ReturnStatement?
  }

  /** The loop of AllPathsReturn over a list of branches: false at the first
      source block whose last statement is not a return, and a fault at a
      source block with no statements, which Last() cannot read. */
  function ReturnsAlong(g: ControlFlowGraph, ins: seq<Branch>): (r: Result<bool, CfgFault>)
    ensures r == Success(true) <==> forall k :: 0 <= k < |ins| ==> EndsInReturn(StatementsOf(g, ins[k].from))
    ensures r.Failure? ==> r.error == NoStatements && exists k :: 0 <= k < |ins| && StatementsOf(g, ins[k].from) == []
    ensures (forall k :: 0 <= k < |ins| ==> StatementsOf(g, ins[k].from) != []) ==> r.Success?
  {
    if ins == [] then Success(true)
    else
      var st := StatementsOf(g, ins[0].from);
      if st == [] then Failure(NoStatements)
      else if !st[|st| - 1].ReturnStatement? then Success(false)
      else
        var r := ReturnsAlong(g, ins[1..]);
        assert forall k :: 1 <= k < |ins| ==> ins[k] == ins[1..][k - 1];
        r
  }

  /** AllPathsReturn: the loop over the branches into End of the body's graph. */
  ghost function AllPathsReturnSpec(body: seq<BoundStatement>): Result<bool, CfgFault>
  {
    match CreateSpec(body)
    case Failure(e) => Failure(e)
    case Success(g) => ReturnsAlong(g, Into(g.branches, End))
  }

  /** The graph's list of End's incoming branches. */
  lemma EndList(body: seq<BoundStatement>)
    requires CreateSpec(body).Success?
    ensures End in CreateSpec(body).value.incoming
    ensures CreateSpec(body).value.incoming[End] == Into(CreateSpec(body).value.branches, End)
  {
    GraphShape(BasicBlocks(body));
  }

  method AllPathsReturn(body: seq<BoundStatement>) returns (r: Result<bool, CfgFault>)
    ensures r == AllPathsReturnSpec(body)
  {
    var graph := Create(body);
    if graph.Failure? {
      return Failure(graph.error);
    }
    var g := graph.value;
    EndList(body);
    var ins := g.incoming[End];
    for k := 0 to |ins|
      invariant ReturnsAlong(g, ins[k..]) == ReturnsAlong(g, ins)
    {
      assert ins[k..][1..] == ins[k + 1..];
      var lastStatement := StatementsOf(g, ins[k].from);
      if lastStatement == [] {
        return Failure(NoStatements);
      }
      if !lastStatement[|lastStatement| - 1].ReturnStatement? {
        return Success(false);
      }
    }
    r := Success(true);
  }

  /** For a body that is not empty, AllPathsReturn answers without fault,
      and holds exactly when every branch into End leaves a block whose last
      statement is a return. */
  lemma AllPathsReturnMeaning(body: seq<BoundStatement>)
    requires body != [] && CreateSpec(body).Success?
    ensures AllPathsReturnSpec(body) == Success(forall br :: br in CreateSpec(body).value.branches && br.to == End ==>
      EndsInReturn(StatementsOf(CreateSpec(body).value, br.from)))
  {
    var source := BasicBlocks(body);
    BasicBlocksPartition(body);
    var g := CreateSpec(body).value;
    var w := Wired(source).value;
    WiredFacts(source);
    EndSources(source, w, Survivors(w, |source|));
    EndListHasStatements(g, source, Into(g.branches, End));
  }

  /** A branch into End leaves one of the blocks, when there are blocks. */
  lemma EndSources(source: seq<seq<BoundStatement>>, w: seq<Branch>, live: set<nat>)
    requires source != [] && WiredShape(w, |source|) && w != [] && w[0] == StartBranch(source)
    ensures forall br :: br in Kept(w, live) && br.to == End ==> br.from.Block? && br.from.index < |source|
  {
    forall br | br in Kept(w, live) && br.to == End ensures br.from.Block? && br.from.index < |source| {
      KeptMember(w, live, br);
      var j :| 0 <= j < |w| && w[j] == br;
    }
  }

  /** When every branch into End leaves a block with statements, the loop
      of AllPathsReturn reads every one of them. */
  lemma EndListHasStatements(g: ControlFlowGraph, source: seq<seq<BoundStatement>>, ins: seq<Branch>)
    requires g.statements == source && Shaped(source)
    requires forall br :: br in g.branches && br.to == End ==> br.from.Block? && br.from.index < |source|
    requires ins == Into(g.branches, End)
    ensures ReturnsAlong(g, ins) ==
      Success(forall br :: br in g.branches && br.to == End ==> EndsInReturn(StatementsOf(g, br.from)))
  {
    forall k | 0 <= k < |ins| ensures StatementsOf(g, ins[k].from) != [] {
      IntoMember(g.branches, End, ins[k]);
      assert WellFormedBlock(source[ins[k].from.index]);
    }
    ReturnsAlongMembers(g, ins);
    forall br ensures br in g.branches && br.to == End <==> br in ins {
      IntoMember(g.branches, End, br);
    }
  }

  /** When every listed branch leaves a block with statements, the loop
      yields whether every one of those blocks ends in a return. */
  lemma ReturnsAlongMembers(g: ControlFlowGraph, ins: seq<Branch>)
    requires forall k :: 0 <= k < |ins| ==> StatementsOf(g, ins[k].from) != []
    ensures ReturnsAlong(g, ins) == Success(forall br :: br in ins ==> EndsInReturn(StatementsOf(g, br.from)))
  {
    if forall k :: 0 <= k < |ins| ==> EndsInReturn(StatementsOf(g, ins[k].from)) {
      forall br | br in ins ensures EndsInReturn(StatementsOf(g, br.from)) {
        var k :| 0 <= k < |ins| && ins[k] == br;
      }
    } else {
      var k :| 0 <= k < |ins| && !EndsInReturn(StatementsOf(g, ins[k].from));
      assert ins[k] in ins;
    }
  }

  /** An empty body links Start straight to End, and Start has no last
      statement. */
  lemma EmptyBodyFaults()
    ensures AllPathsReturnSpec([]) == Failure(NoStatements)
  {
    var w := [Branch(0, Start, End, None)];
    assert BasicBlocks([]) == [];
    assert Wired([]) == Success(w);
    assert Survivors(w, 0) == {};
    assert Kept(w, {}) == w by {
      assert w[..0] == [];
    }
    assert Into(w, End) == w by {
      assert w[..0] == [];
    }
  }

  /** Pruning removes only blocks no branch enters, so a loop that nothing
      outside it enters stays in the graph though no walk from Start reaches
      it: a return, then a label whose goto jumps back to itself. */
  lemma UnreachableLoopSurvives(l: BoundSymbol)
    ensures CreateSpec(LoopBody(l)).Success?
    ensures Block(1) in CreateSpec(LoopBody(l)).value.blocks
    ensures forall p :: Path(CreateSpec(LoopBody(l)).value.branches, p) ==> p == [0]
  {
    var source := [[ReturnStatement], [LabelStatement(l), GotoStatement(l)]];
    LoopGraph(l);
    LoopGraphShape(source);
    LoopPaths();
  }

  /** LoopBody is lowered, splits into a return block and a looping block,
      and wires to LoopBranches. */
  lemma LoopGraph(l: BoundSymbol)
    ensures CreateSpec(LoopBody(l))
      == Success(GraphFrom([[ReturnStatement], [LabelStatement(l), GotoStatement(l)]], LoopBranches()))
  {
    LoopBlocks(l);
    LoopWired(l);
  }

  /** Both blocks of LoopBranches support each other, so pruning keeps
      them and every branch. */
  lemma LoopGraphShape(source: seq<seq<BoundStatement>>)
    requires |source| == 2
    ensures GraphFrom(source, LoopBranches()).branches == LoopBranches()
    ensures GraphFrom(source, LoopBranches()).blocks == [Start, Block(0), Block(1), End]
  {
    var w := LoopBranches();
    LoopSurvivors();
    KeptAll(w, {0, 1});
    LoopIds();
  }

  lemma LoopIds()
    ensures BlockIds(Ordered(2, {0, 1})) == [Block(0), Block(1)]
  {
    assert Ordered(0, {0, 1}) == [];
    assert Ordered(1, {0, 1}) == [0];
    assert Ordered(2, {0, 1}) == [0, 1];
  }

  lemma LoopSurvivors()
    ensures Survivors(LoopBranches(), 2) == {0, 1}
  {
    var w := LoopBranches();
    assert Supported(w, {0, 1}) by {
      assert Entered(w, {0, 1}, 0) by { assert w[0] in w; }
      assert Entered(w, {0, 1}, 1) by { assert w[2] in w; }
    }
  }

  /** A return, then a label whose goto jumps back to it. */
  function LoopBody(l: BoundSymbol): seq<BoundStatement>
  {
    [ReturnStatement, LabelStatement(l), GotoStatement(l)]
  }

  /** The branches wired for LoopBody. */
  function LoopBranches(): seq<Branch>
  {
    [Branch(0, Start, Block(0), None), Branch(1, Block(0), End, None), Branch(2, Block(1), Block(1), None)]
  }

  lemma LoopBlocks(l: BoundSymbol)
    ensures FirstUnlowered(LoopBody(l)) == 3
    ensures BasicBlocks(LoopBody(l)) == [[ReturnStatement], [LabelStatement(l), GotoStatement(l)]]
  {
    var body := LoopBody(l);
    var source := [[ReturnStatement], [LabelStatement(l), GotoStatement(l)]];
    var r, lg := [ReturnStatement], [LabelStatement(l), GotoStatement(l)];
    assert Split([r, lg], [], []) == source;
    assert [LabelStatement(l)] + [GotoStatement(l)] == lg && [GotoStatement(l)][1..] == [];
    assert Split([r], [LabelStatement(l)], [GotoStatement(l)]) == source;
    assert lg[1..] == [GotoStatement(l)];
    assert Split([r], [], lg) == source;
    assert body[1..] == lg && [] + [ReturnStatement] == r;
    assert Close([], r) == [r];
    assert Split([], [], body) == Split([r], [], lg);
  }

  lemma LoopWired(l: BoundSymbol)
    ensures Wired([[ReturnStatement], [LabelStatement(l), GotoStatement(l)]]) == Success(LoopBranches())
  {
    var source := [[ReturnStatement], [LabelStatement(l), GotoStatement(l)]];
    var labels: map<BoundSymbol, nat> := map[l := 1];
    assert CollectLabels(source, 0, 0, map[]) == Success(labels) by {
      assert CollectLabels(source, 2, 0, labels) == Success(labels);
      assert CollectLabels(source, 1, 2, labels) == Success(labels);
      assert CollectLabels(source, 1, 1, labels) == Success(labels);
      assert CollectLabels(source, 1, 0, map[]) == Success(labels);
      assert CollectLabels(source, 0, 1, map[]) == Success(labels);
    }
    var w0 := [Branch(0, Start, Block(0), None)];
    var w1 := w0 + [Branch(1, Block(0), End, None)];
    var w := w1 + [Branch(2, Block(1), Block(1), None)];
    assert Wire(labels, source, 2, 0, w) == Success(w);
    assert Wire(labels, source, 1, 2, w) == Success(w);
    assert StatementBranches(labels, source, 1, 1, w1) == Success(w);
    assert Wire(labels, source, 1, 1, w1) == Success(w);
    assert StatementBranches(labels, source, 1, 0, w1) == Success(w1);
    assert Wire(labels, source, 1, 0, w1) == Success(w);
    assert Wire(labels, source, 0, 1, w1) == Success(w);
    assert StatementBranches(labels, source, 0, 0, w0) == Success(w1);
    assert Wire(labels, source, 0, 0, w0) == Success(w);
    assert w == LoopBranches();
  }

  /** Start leads only to block 0, and block 0 only to End. */
  lemma LoopPaths()
    ensures forall p :: Path(LoopBranches(), p) ==> p == [0]
  {
    var w := LoopBranches();
    forall p | Path(w, p) ensures p == [0] {
      var br :| br in w && br.from == Start && br.to == Block(p[0]);
      assert br == w[0];
      LoopExit(if |p| > 1 then Block(p[1]) else End);
      assert |p| == 1;
    }
  }

  lemma LoopExit(b: BlockId)
    ensures Step(LoopBranches(), Block(0), b) ==> b == End
  {
    var w := LoopBranches();
    if Step(w, Block(0), b) {
      var br :| br in w && br.from == Block(0) && br.to == b;
      assert br == w[1];
    }
  }
}
