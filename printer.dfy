// BoundNodePrinter: writes a bound tree as indented source-like text
// through an IndentedTextWriter. The writer puts the current indentation
// in front of the first text of each line; the printer raises and lowers
// that indentation around nested statements, blocks and labels.
module CocoaPrinter {
  import opened Wrappers
  import opened Numerals
  import opened CocoaSyntax
  import opened CocoaSymbols
  import opened BoundTree
  import CharClasses
  import CocoaLexer

  /** IndentedTextWriter's default tab string. */
  const TabString: string := "    "

  /** The line break the writer emits. */
  const NewLine: string := "\n"

  /** `level` copies of the tab string. */
  function Tabs(level: nat): (t: string)
    ensures |t| == 4 * level
  {
    if level == 0 then "" else TabString + Tabs(level - 1)
  }

  /** What has been written, the indentation level, and whether the next
      write starts a line (and so is preceded by the tabs). */
  datatype Page = Page(text: string, indent: nat, pending: bool)

  /** Write(s): the tabs if a line is starting, then s. */
  function Put(p: Page, s: string): (q: Page)
    ensures q.indent == p.indent && !q.pending
  {
    Page(p.text + (if p.pending then Tabs(p.indent) else "") + s, p.indent, false)
  }

  /** WriteLine(): the tabs if a line is starting, then the line break. */
  function EndLine(p: Page): (q: Page)
    ensures q.indent == p.indent && q.pending
  {
    Page(p.text + (if p.pending then Tabs(p.indent) else "") + NewLine, p.indent, true)
  }

  /** The Indent setter: a negative level is taken as 0. */
  function Indented(p: Page, level: int): (q: Page)
    ensures q.text == p.text && q.pending == p.pending
    ensures q.indent == if level < 0 then 0 else level
  {
    Page(p.text, if level < 0 then 0 else level, p.pending)
  }

  /** Two writes in a row write their concatenation. */
  lemma PutPut(p: Page, a: string, b: string)
    ensures Put(Put(p, a), b) == Put(p, a + b)
  {
    assert p.text + (if p.pending then Tabs(p.indent) else "") + a + b
      == p.text + (if p.pending then Tabs(p.indent) else "") + (a + b);
  }

  /** IndentedTextWriter: the text written so far, the indentation level
      and the pending-tabs flag. */
  class Writer {
    var text: string
    var indent: nat
    var pending: bool

    function State(): Page reads this { Page(text, indent, pending) }

    /** A new writer: nothing written, level 0, no tabs pending. */
    constructor ()
      ensures State() == Page("", 0, false)
    {
      text := "";
      indent := 0;
      pending := false;
    }

    method Write(s: string)
      modifies this
      ensures State() == Put(old(State()), s)
    {
      if pending {
        text := text + Tabs(indent);
        pending := false;
      }
      text := text + s;
    }

    method WriteLine()
      modifies this
      ensures State() == EndLine(old(State()))
    {
      if pending {
        text := text + Tabs(indent);
      }
      text := text + NewLine;
      pending := true;
    }

    method SetIndent(level: int)
      modifies this
      ensures State() == Indented(old(State()), level)
    {
      indent := if level < 0 then 0 else level;
    }
  }

  // ---------------------------------------------------------------------
  // What the printer writes for an expression

  /** value.Replace("\"", "\"\""): every quote doubled. */
  function DoubleQuotes(s: string): (r: string)
    ensures |r| >= |s|
  {
    if s == [] then ""
    else (if s[0] == '"' then "\"\"" else [s[0]]) + DoubleQuotes(s[1..])
  }

  /** A string literal: in quotes, with its quotes doubled. */
  function Quote(s: string): string
  {
    "\"" + DoubleQuotes(s) + "\""
  }

  /** `Value.ToString()` of a literal: bool.ToString() gives True and
      False, int.ToString() the decimal digits; strings are quoted. */
  function LiteralText(c: Constant): string
  {
    match c
    case BoolVal(b) => if b then "True" else "False"
    case IntVal(i) => ToString(i)
    case StrVal(s) => Quote(s)
  }

  /** The operator's text; a kind with no fixed text writes nothing. */
  function OperatorText(facts: SyntaxFacts, k: SyntaxKind): string
  {
    facts.getText(k).GetOr("")
  }

  /** The precedence used to parenthesise an operand: the binary
      precedence of the operator's token, for unary operators too. */
  function Precedence(facts: SyntaxFacts, k: SyntaxKind): nat
  {
    facts.binaryPrecedence(k)
  }

  /** A unary or binary operand is parenthesised when the parent's
      precedence is at least its own; nothing else is. */
  function NeedsParentheses(facts: SyntaxFacts, parent: int, e: BoundExpression): bool
  {
    match e
    case UnaryExpression(op, _) => parent >= Precedence(facts, op.syntaxKind)
    case BinaryExpression(_, op, _) => parent >= Precedence(facts, op.syntaxKind)
    case _ => false
  }

  /** The call arguments, separated by ", ". */
  function Join(texts: seq<string>): string
  {
    if |texts| == 0 then "" else if |texts| == 1 then texts[0] else texts[0] + ", " + Join(texts[1..])
  }

  function ExpressionText(facts: SyntaxFacts, e: BoundExpression): string
    decreases e, 1, 0
  {
    match e
    case ErrorExpression => "?"
    case LiteralExpression(c) => LiteralText(c)
    case VariableExpression(v) => v.name
    case AssignmentExpression(v, rhs) => v.name + " = " + ExpressionText(facts, rhs)
    case UnaryExpression(op, operand) =>
      OperatorText(facts, op.syntaxKind) + NestedText(facts, Precedence(facts, op.syntaxKind), operand)
    case BinaryExpression(left, op, right) =>
      var precedence := Precedence(facts, op.syntaxKind);
      NestedText(facts, precedence, left) + " " + OperatorText(facts, op.syntaxKind) + " " + NestedText(facts, precedence, right)
    case CallExpression(f, args) => f.name + "(" + Join(ArgumentTexts(facts, e)) + ")"
    case ConversionExpression(t, operand) => t.Name() + "(" + ExpressionText(facts, operand) + ")"
  }

  /** The texts of a call's arguments, in order. */
  function ArgumentTexts(facts: SyntaxFacts, call: BoundExpression): (ts: seq<string>)
    requires call.CallExpression?
    ensures |ts| == |call.arguments|
    decreases call, 0, |call.arguments| + 1
  {
    ArgumentTextsFrom(facts, call, 0)
  }

  function ArgumentTextsFrom(facts: SyntaxFacts, call: BoundExpression, i: nat): (ts: seq<string>)
    requires call.CallExpression? && i <= |call.arguments|
    ensures |ts| == |call.arguments| - i
    decreases call, 0, |call.arguments| - i
  {
    if i == |call.arguments| then []
    else
      assert call.arguments[i] in call.arguments;
      [ExpressionText(facts, call.arguments[i])] + ArgumentTextsFrom(facts, call, i + 1)
  }

  /** WriteNestedExpression. */
  function NestedText(facts: SyntaxFacts, parent: int, e: BoundExpression): string
    decreases e, 2, 0
  {
    if NeedsParentheses(facts, parent, e) then "(" + ExpressionText(facts, e) + ")" else ExpressionText(facts, e)
  }

  // ---------------------------------------------------------------------
  // What the printer writes for a statement

  /** The dispatch of WriteTo throws on a node kind it has no case for:
      the return statement. */
  datatype PrintFault = UnexpectedNode

  function StatementPage(facts: SyntaxFacts, p: Page, s: BoundStatement): Result<Page, PrintFault>
    decreases s, 1, 0
  {
    match s
    case BlockStatement(_) =>
      var inner := BlockFrom(facts, Indented(EndLine(Put(p, "{")), p.indent + 1), s, 0);
      if inner.Failure? then inner
      else Success(EndLine(Put(Indented(inner.value, inner.value.indent - 1), "}")))
    case VariableDeclaration(v, initializer) =>
      Success(EndLine(Put(p, (if v.isReadOnly then "let " else "var ") + v.name + " = " + ExpressionText(facts, initializer))))
    case IfStatement(condition, thenStatement, elseStatement) =>
      var afterThen := NestedPage(facts, EndLine(Put(p, "if " + ExpressionText(facts, condition))), thenStatement);
      if afterThen.Failure? || elseStatement.None? then afterThen
      else NestedPage(facts, EndLine(Put(afterThen.value, "else")), elseStatement.value)
    case WhileStatement(condition, body) =>
      NestedPage(facts, EndLine(Put(p, "while " + ExpressionText(facts, condition))), body)
    case DoWhileStatement(body, condition) =>
      var afterBody := NestedPage(facts, EndLine(Put(p, "do")), body);
      if afterBody.Failure? then afterBody
      else Success(EndLine(Put(afterBody.value, "while " + ExpressionText(facts, condition))))
    case ForStatement(v, lower, upper, body) =>
      var header := "for " + v.name + " = " + ExpressionText(facts, lower) + " to " + ExpressionText(facts, upper);
      NestedPage(facts, EndLine(Put(p, header)), body)
    case LabelStatement(l) =>
      if p.indent > 0 then
        var q := EndLine(Put(Indented(p, p.indent - 1), l.name + ":"));
        Success(Indented(q, q.indent + 1))
      else Success(EndLine(Put(p, l.name + ":")))
    case GotoStatement(l) => Success(EndLine(Put(p, "goto " + l.name)))
    case ConditionalGotoStatement(l, condition, jumpIfTrue) =>
      Success(EndLine(Put(p, "goto " + l.name + (if jumpIfTrue then " if " else " unless ") + ExpressionText(facts, condition))))
    case ReturnStatement => Failure(UnexpectedNode)
    case ExpressionStatement(e) => Success(EndLine(Put(p, ExpressionText(facts, e))))
  }

  /** The statements of a block from the i-th on, one after another. */
  function BlockFrom(facts: SyntaxFacts, p: Page, block: BoundStatement, i: nat): Result<Page, PrintFault>
    requires block.BlockStatement? && i <= |block.statements|
    decreases block, 0, |block.statements| - i
  {
    if i == |block.statements| then Success(p)
    else
      assert block.statements[i] in block.statements;
      var r := StatementPage(facts, p, block.statements[i]);
      if r.Failure? then r else BlockFrom(facts, r.value, block, i + 1)
  }

  /** WriteNestedStatement: one level deeper unless the statement is a
      block, which indents its own body. */
  function NestedPage(facts: SyntaxFacts, p: Page, s: BoundStatement): Result<Page, PrintFault>
    decreases s, 2, 0
  {
    if s.BlockStatement? then StatementPage(facts, p, s)
    else
      var r := StatementPage(facts, Indented(p, p.indent + 1), s);
      if r.Failure? then r else Success(Indented(r.value, r.value.indent - 1))
  }

  // ---------------------------------------------------------------------
  // The printer

  /** WriteTo on an expression: its text, written piece by piece. */
  method WriteExpression(facts: SyntaxFacts, w: Writer, e: BoundExpression)
    modifies w
    ensures w.State() == Put(old(w.State()), ExpressionText(facts, e))
    decreases e, 1, 0
  {
    ghost var p := w.State();
    match e {
      case ErrorExpression =>
        w.Write("?");
      case LiteralExpression(c) =>
        w.Write(LiteralText(c));
      case VariableExpression(v) =>
        w.Write(v.name);
      case AssignmentExpression(v, rhs) =>
        w.Write(v.name);
        w.Write(" = ");
        WriteExpression(facts, w, rhs);
        PutPut(p, v.name, " = ");
        PutPut(p, v.name + " = ", ExpressionText(facts, rhs));
      case UnaryExpression(op, operand) =>
        var text := OperatorText(facts, op.syntaxKind);
        w.Write(text);
        WriteNestedExpression(facts, w, Precedence(facts, op.syntaxKind), operand);
        PutPut(p, text, NestedText(facts, Precedence(facts, op.syntaxKind), operand));
      case BinaryExpression(left, op, right) =>
        var text := OperatorText(facts, op.syntaxKind);
        var precedence := Precedence(facts, op.syntaxKind);
        WriteNestedExpression(facts, w, precedence, left);
        w.Write(" ");
        w.Write(text);
        w.Write(" ");
        WriteNestedExpression(facts, w, precedence, right);
        var l := NestedText(facts, precedence, left);
        PutPut(p, l, " ");
        PutPut(p, l + " ", text);
        PutPut(p, l + " " + text, " ");
        PutPut(p, l + " " + text + " ", NestedText(facts, precedence, right));
      case CallExpression(f, args) =>
        WriteCallExpression(facts, w, e);
      case ConversionExpression(t, operand) =>
        w.Write(t.Name());
        w.Write("(");
        WriteExpression(facts, w, operand);
        w.Write(")");
        PutPut(p, t.Name(), "(");
        PutPut(p, t.Name() + "(", ExpressionText(facts, operand));
        PutPut(p, t.Name() + "(" + ExpressionText(facts, operand), ")");
    }
  }

  /** WriteCallExpression: the name, then the arguments with ", " before
      every one but the first. */
  method WriteCallExpression(facts: SyntaxFacts, w: Writer, e: BoundExpression)
    requires e.CallExpression?
    modifies w
    ensures w.State() == Put(old(w.State()), ExpressionText(facts, e))
    decreases e, 0, 0
  {
    ghost var p := w.State();
    ghost var texts := ArgumentTexts(facts, e);
    ghost var prefix := e.callee.name + "(";
    w.Write(e.callee.name);
    w.Write("(");
    PutPut(p, e.callee.name, "(");
    var isFirst := true;
    var i := 0;
    while i < |e.arguments|
      invariant 0 <= i <= |e.arguments| && isFirst == (i == 0)
      invariant w.State() == Put(p, prefix + Join(texts[..i]))
    {
      assert e.arguments[i] in e.arguments;
      ArgumentTextsFromAt(facts, e, 0, i);
      JoinStep(p, prefix, texts, i);
      WriteArgument(facts, w, e.arguments[i], isFirst);
      isFirst := false;
      i := i + 1;
    }
    assert texts[..i] == texts;
    w.Write(")");
    PutPut(p, prefix + Join(texts), ")");
  }

  /** One turn of the argument loop: ", " unless it is the first, then the
      argument. */
  method WriteArgument(facts: SyntaxFacts, w: Writer, argument: BoundExpression, isFirst: bool)
    modifies w
    ensures w.State() == Put(old(w.State()), (if isFirst then "" else ", ") + ExpressionText(facts, argument))
    decreases argument, 1, 1
  {
    ghost var p := w.State();
    if !isFirst {
      w.Write(", ");
    }
    WriteExpression(facts, w, argument);
    if !isFirst {
      PutPut(p, ", ", ExpressionText(facts, argument));
    }
  }

  /** Writing the next text after the join of the ones before it writes
      the join of one more text. */
  lemma JoinStep(p: Page, prefix: string, texts: seq<string>, i: nat)
    requires i < |texts|
    ensures Put(Put(p, prefix + Join(texts[..i])), (if i == 0 then "" else ", ") + texts[i]) == Put(p, prefix + Join(texts[..i + 1]))
  {
    var separator := if i == 0 then "" else ", ";
    JoinPrefix(texts, i);
    assert Join(texts[..i + 1]) == Join(texts[..i]) + separator + texts[i];
    PutPut(p, prefix + Join(texts[..i]), separator + texts[i]);
  }

  /** Joining the first i + 1 texts: the first text alone, or the join of
      the first i, ", " and the next one. */
  lemma JoinPrefix(texts: seq<string>, i: nat)
    requires i < |texts|
    ensures Join(texts[..i + 1]) == if i == 0 then texts[0] else Join(texts[..i]) + ", " + texts[i]
  {
    if i > 0 {
      JoinSnoc(texts[..i], texts[i]);
      assert texts[..i + 1] == texts[..i] + [texts[i]];
    }
  }

  /** WriteNestedExpression: operators are written through the
      parenthesising overload with their precedence; anything else as it
      is. */
  method WriteNestedExpression(facts: SyntaxFacts, w: Writer, parent: int, e: BoundExpression)
    modifies w
    ensures w.State() == Put(old(w.State()), NestedText(facts, parent, e))
    decreases e, 3, 0
  {
    if e.UnaryExpression? {
      WriteParenthesized(facts, w, parent, Precedence(facts, e.unaryOp.syntaxKind), e);
    } else if e.BinaryExpression? {
      WriteParenthesized(facts, w, parent, Precedence(facts, e.binaryOp.syntaxKind), e);
    } else {
      WriteExpression(facts, w, e);
    }
  }

  /** The overload that takes the operand's precedence: parentheses when
      the parent's precedence is at least the operand's. */
  method WriteParenthesized(facts: SyntaxFacts, w: Writer, parent: int, current: int, e: BoundExpression)
    modifies w
    ensures w.State() == Put(old(w.State()), if parent >= current then "(" + ExpressionText(facts, e) + ")" else ExpressionText(facts, e))
    decreases e, 2, 0
  {
    ghost var p := w.State();
    var needsParenthesis := parent >= current;
    if needsParenthesis {
      w.Write("(");
    }
    WriteExpression(facts, w, e);
    if needsParenthesis {
      w.Write(")");
      PutPut(p, "(", ExpressionText(facts, e));
      PutPut(p, "(" + ExpressionText(facts, e), ")");
    }
  }

  /** The argument texts are the arguments' texts, one for one. */
  lemma ArgumentTextsAt(facts: SyntaxFacts, call: BoundExpression)
    requires call.CallExpression?
    ensures forall i :: 0 <= i < |call.arguments| ==> ArgumentTexts(facts, call)[i] == ExpressionText(facts, call.arguments[i])
  {
    forall i | 0 <= i < |call.arguments| ensures ArgumentTexts(facts, call)[i] == ExpressionText(facts, call.arguments[i]) {
      ArgumentTextsFromAt(facts, call, 0, i);
    }
  }

  lemma {:induction false} ArgumentTextsFromAt(facts: SyntaxFacts, call: BoundExpression, from: nat, i: nat)
    requires call.CallExpression? && from <= i < |call.arguments|
    ensures ArgumentTextsFrom(facts, call, from)[i - from] == ExpressionText(facts, call.arguments[i])
    decreases i - from
  {
    if from < i {
      ArgumentTextsFromAt(facts, call, from + 1, i);
    }
  }

  /** Joining one more text adds ", " and that text at the end: the
      separator goes between arguments, never before the first or after the
      last. */
  lemma {:induction false} JoinSnoc(texts: seq<string>, t: string)
    requires texts != []
    ensures Join(texts + [t]) == Join(texts) + ", " + t
    decreases |texts|
  {
    if |texts| == 1 {
      assert (texts + [t])[1..] == [t];
    } else {
      assert (texts + [t])[1..] == texts[1..] + [t];
      JoinSnoc(texts[1..], t);
    }
  }

  /** WriteTo on a statement: the dispatch on the node's kind. A fault
      leaves the writer with what was written before the throw. */
  method WriteStatement(facts: SyntaxFacts, w: Writer, s: BoundStatement) returns (fault: Option<PrintFault>)
    modifies w
    ensures fault.None? <==> StatementPage(facts, old(w.State()), s).Success?
    ensures fault.None? ==> w.State() == StatementPage(facts, old(w.State()), s).value
    ensures fault.Some? ==> fault.value == StatementPage(facts, old(w.State()), s).error
    decreases s, 1, 0
  {
    ghost var p := w.State();
    fault := None;
    match s {
      case BlockStatement(_) =>
        fault := WriteBlockStatement(facts, w, s);
      case VariableDeclaration(v, initializer) =>
        var keyword := if v.isReadOnly then "let " else "var ";
        w.Write(keyword);
        w.Write(v.name);
        w.Write(" = ");
        WriteExpression(facts, w, initializer);
        w.WriteLine();
        PutPut(p, keyword, v.name);
        PutPut(p, keyword + v.name, " = ");
        PutPut(p, keyword + v.name + " = ", ExpressionText(facts, initializer));
      case IfStatement(condition, thenStatement, elseStatement) =>
        fault := WriteIfStatement(facts, w, s);
      case WhileStatement(condition, body) =>
        WriteKeywordAndExpression(facts, w, "while ", condition);
        w.WriteLine();
        fault := WriteNestedStatement(facts, w, body);
      case DoWhileStatement(body, condition) =>
        w.Write("do");
        w.WriteLine();
        fault := WriteNestedStatement(facts, w, body);
        if fault.None? {
          WriteKeywordAndExpression(facts, w, "while ", condition);
          w.WriteLine();
        }
      case ForStatement(v, lower, upper, body) =>
        WriteForHeader(facts, w, s);
        w.WriteLine();
        fault := WriteNestedStatement(facts, w, body);
      case LabelStatement(l) =>
        WriteLabelStatement(facts, w, l);
      case GotoStatement(l) =>
        w.Write("goto ");
        w.Write(l.name);
        w.WriteLine();
        PutPut(p, "goto ", l.name);
      case ConditionalGotoStatement(l, condition, jumpIfTrue) =>
        var keyword := if jumpIfTrue then " if " else " unless ";
        w.Write("goto ");
        w.Write(l.name);
        w.Write(keyword);
        WriteExpression(facts, w, condition);
        w.WriteLine();
        PutPut(p, "goto ", l.name);
        PutPut(p, "goto " + l.name, keyword);
        PutPut(p, "goto " + l.name + keyword, ExpressionText(facts, condition));
      case ReturnStatement =>
        fault := Some(UnexpectedNode);
      case ExpressionStatement(e) =>
        WriteExpression(facts, w, e);
        w.WriteLine();
    }
  }

  /** A keyword followed by an expression, on the current line. */
  method WriteKeywordAndExpression(facts: SyntaxFacts, w: Writer, keyword: string, e: BoundExpression)
    modifies w
    ensures w.State() == Put(old(w.State()), keyword + ExpressionText(facts, e))
  {
    ghost var p := w.State();
    w.Write(keyword);
    WriteExpression(facts, w, e);
    PutPut(p, keyword, ExpressionText(facts, e));
  }

  /** The first line of WriteForStatement, without its line break. */
  method WriteForHeader(facts: SyntaxFacts, w: Writer, s: BoundStatement)
    requires s.ForStatement?
    modifies w
    ensures w.State() == Put(old(w.State()), "for " + s.variable.name + " = " + ExpressionText(facts, s.lowerBound) + " to " + ExpressionText(facts, s.upperBound))
  {
    ghost var p := w.State();
    var lower := ExpressionText(facts, s.lowerBound);
    w.Write("for ");
    w.Write(s.variable.name);
    w.Write(" = ");
    WriteExpression(facts, w, s.lowerBound);
    w.Write(" to ");
    WriteExpression(facts, w, s.upperBound);
    PutPut(p, "for ", s.variable.name);
    PutPut(p, "for " + s.variable.name, " = ");
    PutPut(p, "for " + s.variable.name + " = ", lower);
    PutPut(p, "for " + s.variable.name + " = " + lower, " to ");
    PutPut(p, "for " + s.variable.name + " = " + lower + " to ", ExpressionText(facts, s.upperBound));
  }

  /** WriteLabelStatement: one level less indented while the label is
      written, when the level is positive. */
  method WriteLabelStatement(facts: SyntaxFacts, w: Writer, l: BoundSymbol)
    modifies w
    ensures w.State() == StatementPage(facts, old(w.State()), LabelStatement(l)).value
  {
    ghost var p := w.State();
    var unindent := w.indent > 0;
    if unindent {
      w.SetIndent(w.indent - 1);
    }
    w.Write(l.name);
    w.Write(":");
    w.WriteLine();
    if unindent {
      w.SetIndent(w.indent + 1);
    }
    PutPut(if unindent then Indented(p, p.indent - 1) else p, l.name, ":");
  }

  /** WriteIfStatement: the condition line, the nested then-statement, and
      the else line and nested else-statement when there is one. */
  method WriteIfStatement(facts: SyntaxFacts, w: Writer, s: BoundStatement) returns (fault: Option<PrintFault>)
    requires s.IfStatement?
    modifies w
    ensures fault.None? <==> StatementPage(facts, old(w.State()), s).Success?
    ensures fault.None? ==> w.State() == StatementPage(facts, old(w.State()), s).value
    ensures fault.Some? ==> fault.value == StatementPage(facts, old(w.State()), s).error
    decreases s, 0, 0
  {
    WriteKeywordAndExpression(facts, w, "if ", s.condition);
    w.WriteLine();
    fault := WriteNestedStatement(facts, w, s.thenStatement);
    if fault.None? && s.elseStatement.Some? {
      w.Write("else");
      w.WriteLine();
      fault := WriteNestedStatement(facts, w, s.elseStatement.value);
    }
  }

  /** WriteNestedStatement: one level deeper unless it is a block. */
  method WriteNestedStatement(facts: SyntaxFacts, w: Writer, s: BoundStatement) returns (fault: Option<PrintFault>)
    modifies w
    ensures fault.None? <==> NestedPage(facts, old(w.State()), s).Success?
    ensures fault.None? ==> w.State() == NestedPage(facts, old(w.State()), s).value
    ensures fault.Some? ==> fault.value == NestedPage(facts, old(w.State()), s).error
    decreases s, 2, 0
  {
    var needsIndentation := !s.BlockStatement?;
    if needsIndentation {
      w.SetIndent(w.indent + 1);
    }
    fault := WriteStatement(facts, w, s);
    if needsIndentation && fault.None? {
      w.SetIndent(w.indent - 1);
    }
  }

  /** WriteBlockStatement: braces on lines of their own, the statements one
      level deeper in between. */
  method WriteBlockStatement(facts: SyntaxFacts, w: Writer, s: BoundStatement) returns (fault: Option<PrintFault>)
    requires s.BlockStatement?
    modifies w
    ensures fault.None? <==> StatementPage(facts, old(w.State()), s).Success?
    ensures fault.None? ==> w.State() == StatementPage(facts, old(w.State()), s).value
    ensures fault.Some? ==> fault.value == StatementPage(facts, old(w.State()), s).error
    decreases s, 0, 0
  {
    ghost var p := w.State();
    w.Write("{");
    w.WriteLine();
    w.SetIndent(w.indent + 1);
    ghost var whole := BlockFrom(facts, w.State(), s, 0);
    fault := None;
    var i := 0;
    while i < |s.statements| && fault.None?
      invariant 0 <= i <= |s.statements|
      invariant fault.None? ==> whole == BlockFrom(facts, w.State(), s, i)
      invariant fault.Some? ==> whole.Failure? && fault.value == whole.error
      decreases |s.statements| - i, if fault.None? then 1 else 0
    {
      assert s.statements[i] in s.statements;
      ghost var before := w.State();
      fault := WriteStatement(facts, w, s.statements[i]);
      i := i + 1;
    }
    if fault.None? {
      w.SetIndent(w.indent - 1);
      w.Write("}");
      w.WriteLine();
    }
  }

  // ---------------------------------------------------------------------
  // What the printed text promises

  /** Whether a return statement occurs anywhere in a statement: the one
      node kind the printer cannot write. */
  predicate HasReturn(s: BoundStatement)
  {
    match s
    case BlockStatement(statements) => exists k :: 0 <= k < |statements| && HasReturn(statements[k])
    case IfStatement(_, thenStatement, elseStatement) =>
      HasReturn(thenStatement) || (elseStatement.Some? && HasReturn(elseStatement.value))
    case WhileStatement(_, body) => HasReturn(body)
    case DoWhileStatement(body, _) => HasReturn(body)
    case ForStatement(_, _, _, body) => HasReturn(body)
    case ReturnStatement => true
    case _ => false
  }

  /** A page `q` written after `p`: the same level, a finished line, and
      `p`'s text followed by more. */
  ghost predicate LaterLine(p: Page, q: Page)
  {
    q.indent == p.indent && q.pending && p.text <= q.text
  }

  /** Writing a line keeps the level, finishes the line and only appends. */
  lemma LineExtends(p: Page, x: string)
    ensures LaterLine(p, EndLine(Put(p, x)))
  {
  }

  lemma LaterLineTrans(p: Page, q: Page, r: Page)
    requires LaterLine(p, q) && LaterLine(q, r)
    ensures LaterLine(p, r)
  {
  }

  /** Printing a statement fails exactly when it holds a return; when it
      succeeds it only appends text, leaves the indent level as it found
      it, and ends with a finished line. */
  lemma {:induction false} StatementShape(facts: SyntaxFacts, p: Page, s: BoundStatement)
    ensures StatementPage(facts, p, s).Failure? <==> HasReturn(s)
    ensures StatementPage(facts, p, s).Success? ==> LaterLine(p, StatementPage(facts, p, s).value)
    decreases s, 1, 0
  {
    match s
    case BlockStatement(_) => BlockStatementShape(facts, p, s);
    case IfStatement(_, _, _) => IfShape(facts, p, s);
    case WhileStatement(condition, body) =>
      HeaderShape(facts, p, "while " + ExpressionText(facts, condition), body);
    case DoWhileStatement(_, _) => DoWhileShape(facts, p, s);
    case ForStatement(v, lower, upper, body) =>
      HeaderShape(facts, p, "for " + v.name + " = " + ExpressionText(facts, lower) + " to " + ExpressionText(facts, upper), body);
    case _ =>
  }

  /** A header line and the nested statement under it: failure exactly
      when the statement holds a return; otherwise a later line, and on a
      fresh line the header starts with the level's tabs. */
  lemma {:induction false} HeaderShape(facts: SyntaxFacts, p: Page, header: string, body: BoundStatement)
    ensures NestedPage(facts, EndLine(Put(p, header)), body).Failure? <==> HasReturn(body)
    ensures NestedPage(facts, EndLine(Put(p, header)), body).Success? ==>
      LaterLine(p, NestedPage(facts, EndLine(Put(p, header)), body).value)
    ensures NestedPage(facts, EndLine(Put(p, header)), body).Success? && p.pending ==>
      p.text + Tabs(p.indent) <= NestedPage(facts, EndLine(Put(p, header)), body).value.text
    decreases body, 3, 0
  {
    var q := EndLine(Put(p, header));
    LineExtends(p, header);
    NestedShape(facts, q, body);
    if NestedPage(facts, q, body).Success? {
      LaterLineTrans(p, q, NestedPage(facts, q, body).value);
      if p.pending {
        StartsIndented(p, header, NestedPage(facts, q, body).value.text);
      }
    }
  }

  lemma {:induction false} BlockStatementShape(facts: SyntaxFacts, p: Page, s: BoundStatement)
    requires s.BlockStatement?
    ensures StatementPage(facts, p, s).Failure? <==> HasReturn(s)
    ensures StatementPage(facts, p, s).Success? ==> LaterLine(p, StatementPage(facts, p, s).value)
    ensures StatementPage(facts, p, s).Success? && p.pending ==> p.text + Tabs(p.indent) <= StatementPage(facts, p, s).value.text
    decreases s, 0, |s.statements| + 1
  {
    var q := Indented(EndLine(Put(p, "{")), p.indent + 1);
    BlockShape(facts, q, s, 0);
    var r := StatementPage(facts, p, s);
    if r.Success? {
      assert q.text <= BlockFrom(facts, q, s, 0).value.text <= r.value.text;
      if p.pending {
        StartsIndented(p, "{", r.value.text);
      }
    }
  }

  lemma {:induction false} IfShape(facts: SyntaxFacts, p: Page, s: BoundStatement)
    requires s.IfStatement?
    ensures StatementPage(facts, p, s).Failure? <==> HasReturn(s)
    ensures StatementPage(facts, p, s).Success? ==> LaterLine(p, StatementPage(facts, p, s).value)
    ensures StatementPage(facts, p, s).Success? && p.pending ==> p.text + Tabs(p.indent) <= StatementPage(facts, p, s).value.text
    decreases s, 0, 0
  {
    var header := "if " + ExpressionText(facts, s.condition);
    HeaderShape(facts, p, header, s.thenStatement);
    var afterThen := NestedPage(facts, EndLine(Put(p, header)), s.thenStatement);
    if afterThen.Success? && s.elseStatement.Some? {
      HeaderShape(facts, afterThen.value, "else", s.elseStatement.value);
      var r := NestedPage(facts, EndLine(Put(afterThen.value, "else")), s.elseStatement.value);
      if r.Success? {
        LaterLineTrans(p, afterThen.value, r.value);
      }
    }
  }

  lemma {:induction false} DoWhileShape(facts: SyntaxFacts, p: Page, s: BoundStatement)
    requires s.DoWhileStatement?
    ensures StatementPage(facts, p, s).Failure? <==> HasReturn(s)
    ensures StatementPage(facts, p, s).Success? ==> LaterLine(p, StatementPage(facts, p, s).value)
    ensures StatementPage(facts, p, s).Success? && p.pending ==> p.text + Tabs(p.indent) <= StatementPage(facts, p, s).value.text
    decreases s, 0, 0
  {
    HeaderShape(facts, p, "do", s.body);
    var afterBody := NestedPage(facts, EndLine(Put(p, "do")), s.body);
    if afterBody.Success? {
      var last := "while " + ExpressionText(facts, s.condition);
      LineExtends(afterBody.value, last);
      LaterLineTrans(p, afterBody.value, EndLine(Put(afterBody.value, last)));
    }
  }

  /** The statements of a block from the i-th on: failure exactly when one
      of them holds a return; otherwise text is only appended, the level is
      kept and a finished line stays finished. */
  lemma {:induction false} BlockShape(facts: SyntaxFacts, p: Page, block: BoundStatement, i: nat)
    requires block.BlockStatement? && i <= |block.statements|
    ensures var r := BlockFrom(facts, p, block, i);
      && (r.Failure? <==> exists k :: i <= k < |block.statements| && HasReturn(block.statements[k]))
      && (r.Success? ==> r.value.indent == p.indent && (p.pending ==> r.value.pending) && p.text <= r.value.text)
    decreases block, 0, |block.statements| - i
  {
    if i < |block.statements| {
      assert block.statements[i] in block.statements;
      StatementShape(facts, p, block.statements[i]);
      var r := StatementPage(facts, p, block.statements[i]);
      if r.Success? {
        BlockShape(facts, r.value, block, i + 1);
        assert forall k :: i <= k < |block.statements| ==> (HasReturn(block.statements[k]) ==> k > i);
      }
    }
  }

  /** The same for a nested statement. */
  lemma {:induction false} NestedShape(facts: SyntaxFacts, p: Page, s: BoundStatement)
    ensures NestedPage(facts, p, s).Failure? <==> HasReturn(s)
    ensures NestedPage(facts, p, s).Success? ==> LaterLine(p, NestedPage(facts, p, s).value)
    decreases s, 2, 0
  {
    if s.BlockStatement? {
      StatementShape(facts, p, s);
    } else {
      StatementShape(facts, Indented(p, p.indent + 1), s);
    }
  }

  /** A line started on a fresh line begins with the level's tabs. */
  lemma StartsIndented(p: Page, x: string, text: string)
    requires p.pending && EndLine(Put(p, x)).text <= text
    ensures p.text + Tabs(p.indent) <= text
  {
    assert EndLine(Put(p, x)).text == p.text + Tabs(p.indent) + x + NewLine;
  }

  /** Every statement but a label, written on a fresh line, starts with the
      tabs of the current level. */
  lemma FirstLineIndented(facts: SyntaxFacts, p: Page, s: BoundStatement)
    requires p.pending && !s.LabelStatement?
    ensures StatementPage(facts, p, s).Success? ==> p.text + Tabs(p.indent) <= StatementPage(facts, p, s).value.text
  {
    var r := StatementPage(facts, p, s);
    if r.Success? {
      match s
      case BlockStatement(_) => BlockStatementShape(facts, p, s);
      case IfStatement(_, _, _) => IfShape(facts, p, s);
      case WhileStatement(condition, body) =>
        HeaderShape(facts, p, "while " + ExpressionText(facts, condition), body);
      case DoWhileStatement(_, _) => DoWhileShape(facts, p, s);
      case ForStatement(v, lower, upper, body) =>
        HeaderShape(facts, p, "for " + v.name + " = " + ExpressionText(facts, lower) + " to " + ExpressionText(facts, upper), body);
      case VariableDeclaration(v, initializer) =>
        StartsIndented(p, (if v.isReadOnly then "let " else "var ") + v.name + " = " + ExpressionText(facts, initializer), r.value.text);
      case GotoStatement(l) =>
        StartsIndented(p, "goto " + l.name, r.value.text);
      case ConditionalGotoStatement(l, condition, jumpIfTrue) =>
        StartsIndented(p, "goto " + l.name + (if jumpIfTrue then " if " else " unless ") + ExpressionText(facts, condition), r.value.text);
      case ExpressionStatement(e) =>
        StartsIndented(p, ExpressionText(facts, e), r.value.text);
    }
  }

  /** The body of an if, while, do or for that is not a block (nor a
      label) starts one level deeper than the statement around it. */
  lemma NestedIndents(facts: SyntaxFacts, p: Page, s: BoundStatement)
    requires p.pending && !s.BlockStatement? && !s.LabelStatement?
    ensures NestedPage(facts, p, s).Success? ==> p.text + Tabs(p.indent + 1) <= NestedPage(facts, p, s).value.text
  {
    FirstLineIndented(facts, Indented(p, p.indent + 1), s);
  }

  /** A label inside a block is written one level less indented, on a line
      of its own, and the level is back where it was afterwards. */
  lemma LabelOutdented(facts: SyntaxFacts, p: Page, l: BoundSymbol)
    requires p.pending && p.indent > 0
    ensures StatementPage(facts, p, LabelStatement(l)).Success?
    ensures StatementPage(facts, p, LabelStatement(l)).value == Page(p.text + Tabs(p.indent - 1) + l.name + ":" + NewLine, p.indent, true)
  {
  }

  /** No character of the string ends a line for the lexer. */
  predicate OnOneLine(s: string)
  {
    forall k :: 0 <= k < |s| ==> !CocoaLexer.EndsLine(s[k])
  }

  /** The body of a literal, with its quotes doubled and a closing quote
      after it, scans back to the string and stops after the closing
      quote. */
  lemma {:induction false} ScanDoubled(text: string, p: nat, s: string)
    requires OnOneLine(s)
    requires p + |DoubleQuotes(s)| < |text| && text[p..p + |DoubleQuotes(s)| + 1] == DoubleQuotes(s) + "\""
    requires CharClasses.CharAt(text, p + |DoubleQuotes(s)| + 1) != '"'
    ensures CocoaLexer.ScanString(text, p) == CocoaLexer.StringScan(p + |DoubleQuotes(s)| + 1, s, true)
    decreases |s|
  {
    var window := DoubleQuotes(s) + "\"";
    if s == [] {
      Window(text, p, window, 0);
    } else {
      var step := if s[0] == '"' then 2 else 1;
      DoubledHead(s);
      Window(text, p, window, 0);
      if s[0] == '"' {
        Window(text, p, window, 1);
      }
      Slide(text, p, window, step);
      OnOneLineTail(s);
      ScanDoubled(text, p + step, s[1..]);
      assert [s[0]] + s[1..] == s;
    }
  }

  /** The window's characters are the text's characters. */
  lemma Window(text: string, p: nat, window: string, k: nat)
    requires p + |window| <= |text| && text[p..p + |window|] == window && k < |window|
    ensures text[p + k] == window[k]
  {
    assert text[p..p + |window|][k] == text[p + k];
  }

  /** A window moved on by `step` characters is the rest of the window. */
  lemma Slide(text: string, p: nat, window: string, step: nat)
    requires p + |window| <= |text| && text[p..p + |window|] == window && step <= |window|
    ensures text[p + step..p + |window|] == window[step..]
  {
    assert text[p + step..p + |window|] == text[p..p + |window|][step..];
  }

  /** The first character of the string becomes one or, for a quote, two
      characters. */
  lemma DoubledHead(s: string)
    requires s != []
    ensures var step := if s[0] == '"' then 2 else 1;
      && |DoubleQuotes(s)| == step + |DoubleQuotes(s[1..])|
      && (DoubleQuotes(s) + "\"")[0] == s[0]
      && (s[0] == '"' ==> (DoubleQuotes(s) + "\"")[1] == '"')
      && (DoubleQuotes(s) + "\"")[step..] == DoubleQuotes(s[1..]) + "\""
  {
    var head := if s[0] == '"' then "\"\"" else [s[0]];
    assert DoubleQuotes(s) + "\"" == head + (DoubleQuotes(s[1..]) + "\"");
  }

  lemma OnOneLineTail(s: string)
    requires s != [] && OnOneLine(s)
    ensures OnOneLine(s[1..]) && !CocoaLexer.EndsLine(s[0])
  {
    forall k | 0 <= k < |s| - 1 ensures !CocoaLexer.EndsLine(s[1..][k]) {
      assert s[1..][k] == s[k + 1];
    }
  }

  /** A string literal as the printer writes it lexes back to one string
      token with the same value and no diagnostics, covering the whole
      text. */
  lemma QuotedLiteralLexes(facts: SyntaxFacts, chars: CharClasses.CharClass, s: string)
    requires chars.Valid() && OnOneLine(s)
    ensures var text := LiteralText(StrVal(s)); var r := CocoaLexer.LexAt(text, facts, chars, 0);
      && r.token.kind == StringToken && r.token.value == StringValue(s)
      && r.next == |text| && r.diagnostics == []
  {
    var text := Quote(s);
    var d := DoubleQuotes(s);
    assert text[1..1 + |d| + 1] == d + "\"";
    ScanDoubled(text, 1, s);
    CocoaLexer.StringTokens(text, facts, chars, 0);
  }

  /** A nested operand is written in parentheses exactly when it is a
      unary or binary expression whose precedence is at most the parent's,
      and as it is otherwise. */
  lemma NestedParenthesised(facts: SyntaxFacts, parent: int, e: BoundExpression)
    ensures NestedText(facts, parent, e) == "(" + ExpressionText(facts, e) + ")" <==>
      (e.UnaryExpression? && parent >= Precedence(facts, e.unaryOp.syntaxKind))
      || (e.BinaryExpression? && parent >= Precedence(facts, e.binaryOp.syntaxKind))
    ensures NestedText(facts, parent, e) == ExpressionText(facts, e) <==> !NeedsParentheses(facts, parent, e)
  {
    var x := ExpressionText(facts, e);
    assert |"(" + x + ")"| == |x| + 2;
  }
}
