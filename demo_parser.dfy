// The second calculator's parser: lexes the whole text into an array of
// tokens up front, then parses one expression by precedence climbing over
// the unary and binary operator precedences. Its state is the position in
// the array and the diagnostics.
module DemoParser {
  import opened Wrappers
  import opened CharClasses
  import opened Slices
  import opened DemoSyntax
  import opened DemoLexer

  /** The tokens the parser keeps: all but whitespace and bad tokens. */
  predicate Kept(t: SyntaxToken)
  {
    t.kind != WhitespaceToken && t.kind != BadToken
  }

  /** The tokens of a sequence that are kept, in order. */
  function Keep(ts: seq<SyntaxToken>): (r: seq<SyntaxToken>)
    ensures forall i :: 0 <= i < |r| ==> Kept(r[i])
    ensures |r| <= |ts|
  {
    if ts == [] then [] else (if Kept(ts[0]) then [ts[0]] else []) + Keep(ts[1..])
  }

  /** The parser's token array: kept tokens ending in the only end-of-file
      token. */
  ghost predicate WellEnded(tokens: seq<SyntaxToken>)
  {
    && |tokens| >= 1 && tokens[|tokens| - 1].kind == EndOfFileToken
    && (forall i :: 0 <= i < |tokens| - 1 ==> tokens[i].kind != EndOfFileToken)
    && (forall i :: 0 <= i < |tokens| ==> Kept(tokens[i]))
  }

  lemma WellEndedCons(t: SyntaxToken, rest: seq<SyntaxToken>)
    requires WellEnded(rest) && Kept(t) && t.kind != EndOfFileToken
    ensures WellEnded([t] + rest)
  {
    var all := [t] + rest;
    assert forall i :: 1 <= i < |all| ==> all[i] == rest[i - 1];
  }

  datatype Lexed = Lexed(tokens: seq<SyntaxToken>, diagnostics: seq<Diagnostic>)

  /** What the constructor's loop collects from position p on: the kept
      tokens up to and including end of file, and the lexer's diagnostics. */
  function TokensFrom(text: string, facts: SyntaxFacts, chars: CharClass, p: nat): (r: Lexed)
    requires chars.Valid() && facts.Valid() && p <= |text|
    decreases |text| - p
  {
    var step := LexAt(text, facts, chars, p);
    if step.token.kind == EndOfFileToken then Lexed([step.token], step.diagnostics)
    else
      var rest := TokensFrom(text, facts, chars, step.next);
      Lexed((if Kept(step.token) then [step.token] else []) + rest.tokens, step.diagnostics + rest.diagnostics)
  }

  /** The collected tokens are the lexer's tokens without whitespace and
      bad ones, and the collected diagnostics are all the lexer's. */
  lemma {:induction false} TokensAreKept(text: string, facts: SyntaxFacts, chars: CharClass, p: nat)
    requires chars.Valid() && facts.Valid() && p <= |text|
    ensures var all := AllTokensFrom(text, facts, chars, p);
      TokensFrom(text, facts, chars, p) == Lexed(Keep(all.0), all.1)
    decreases |text| - p
  {
    var step := LexAt(text, facts, chars, p);
    if step.token.kind == EndOfFileToken {
      assert Keep([step.token]) == [step.token] + Keep([]);
    } else {
      TokensAreKept(text, facts, chars, step.next);
      var all := AllTokensFrom(text, facts, chars, step.next);
      assert ([step.token] + all.0)[1..] == all.0;
    }
  }

  /** The collected tokens end in the only end-of-file token and hold no
      whitespace or bad token. */
  lemma {:induction false} TokensEndWell(text: string, facts: SyntaxFacts, chars: CharClass, p: nat)
    requires chars.Valid() && facts.Valid() && p <= |text|
    ensures WellEnded(TokensFrom(text, facts, chars, p).tokens)
    decreases |text| - p
  {
    var step := LexAt(text, facts, chars, p);
    if step.token.kind != EndOfFileToken {
      var rest := TokensFrom(text, facts, chars, step.next);
      TokensEndWell(text, facts, chars, step.next);
      if Kept(step.token) {
        WellEndedCons(step.token, rest.tokens);
      } else {
        assert [] + rest.tokens == rest.tokens;
      }
    }
  }

  function Join(a: Lexed, b: Lexed): Lexed
  {
    Lexed(a.tokens + b.tokens, a.diagnostics + b.diagnostics)
  }

  lemma JoinAssociates(a: Lexed, b: Lexed, c: Lexed)
    ensures Join(a, Join(b, c)) == Join(Join(a, b), c)
  {
    assert a.tokens + (b.tokens + c.tokens) == (a.tokens + b.tokens) + c.tokens;
    assert a.diagnostics + (b.diagnostics + c.diagnostics) == (a.diagnostics + b.diagnostics) + c.diagnostics;
  }

  /** One step of the constructor's loop, in terms of what is collected:
      a token other than end of file is kept or dropped and lexing goes on
      after it. */
  lemma TokensStep(text: string, facts: SyntaxFacts, chars: CharClass, p: nat, done: Lexed)
    requires chars.Valid() && facts.Valid() && p < |text|
    ensures var step := LexAt(text, facts, chars, p);
      Join(done, TokensFrom(text, facts, chars, p))
      == Join(Lexed(done.tokens + (if Kept(step.token) then [step.token] else []), done.diagnostics + step.diagnostics),
              TokensFrom(text, facts, chars, step.next))
  {
    var step := LexAt(text, facts, chars, p);
    JoinAssociates(done, Lexed(if Kept(step.token) then [step.token] else [], step.diagnostics),
      TokensFrom(text, facts, chars, step.next));
  }

  /** The constructor loop's invariant: what is collected, joined with what
      lexing on from the position gives, is the whole result; once end of
      file is read, what is collected is. */
  ghost predicate Collected(text: string, facts: SyntaxFacts, chars: CharClass, collected: Lexed, p: nat, done: bool)
    requires chars.Valid() && facts.Valid() && p <= |text|
  {
    if done then TokensFrom(text, facts, chars, 0) == collected
    else TokensFrom(text, facts, chars, 0) == Join(collected, TokensFrom(text, facts, chars, p))
  }

  /** One turn of the constructor's loop: lex a token and keep it unless it
      is whitespace or bad; done once it is end of file. */
  method CollectToken(lexer: Lexer, list: seq<SyntaxToken>) returns (list': seq<SyntaxToken>, done: bool)
    requires lexer.Valid()
    modifies lexer
    ensures lexer.Valid() && old(lexer.position) <= lexer.position
    ensures !done ==> old(lexer.position) < lexer.position
    ensures Join(Lexed(list, old(lexer.diagnostics)), TokensFrom(lexer.text, lexer.facts, lexer.chars, old(lexer.position)))
      == if done then Lexed(list', lexer.diagnostics)
         else Join(Lexed(list', lexer.diagnostics), TokensFrom(lexer.text, lexer.facts, lexer.chars, lexer.position))
  {
    ghost var step := LexAt(lexer.text, lexer.facts, lexer.chars, lexer.position);
    ghost var before := Lexed(list, lexer.diagnostics);
    if lexer.position < |lexer.text| {
      TokensStep(lexer.text, lexer.facts, lexer.chars, lexer.position, before);
    }
    var token := lexer.Lex();
    assert token == step.token && lexer.position == step.next;
    list' := list;
    if token.kind != WhitespaceToken && token.kind != BadToken {
      list' := list + [token];
    }
    assert list' == before.tokens + (if Kept(step.token) then [step.token] else []);
    done := token.kind == EndOfFileToken;
  }

  // Parsing, as functions of the token array and a cursor.

  /** An array the parser can work on: it ends in end of file. */
  ghost predicate Ended(tokens: seq<SyntaxToken>)
  {
    |tokens| >= 1 && tokens[|tokens| - 1].kind == EndOfFileToken
  }

  /** Peek: the token `offset` places ahead, or the last one past the end. */
  function PeekAt(tokens: seq<SyntaxToken>, position: nat, offset: nat): (t: SyntaxToken)
    requires |tokens| >= 1
    ensures position + offset < |tokens| ==> t == tokens[position + offset]
    ensures position + offset >= |tokens| ==> t == tokens[|tokens| - 1]
  {
    if position + offset >= |tokens| then tokens[|tokens| - 1] else tokens[position + offset]
  }

  /** The parser's position and the diagnostics it has reported. */
  datatype Cursor = Cursor(position: nat, diagnostics: seq<Diagnostic>)

  /** A cursor that has not gone back and has only added diagnostics. */
  predicate Advanced(c: Cursor, c': Cursor)
  {
    c.position <= c'.position && c.diagnostics <= c'.diagnostics
  }

  datatype Parsed = Parsed(node: ExpressionSyntax, cursor: Cursor)

  datatype Matched = Matched(token: SyntaxToken, cursor: Cursor)

  /** MatchToken: the current token when it has the kind, and one step on;
      otherwise one unexpected-token diagnostic and a made-up token of the
      kind at the current token's position, without moving. */
  function MatchAt(ts: seq<SyntaxToken>, c: Cursor, kind: SyntaxKind): (r: Matched)
    requires Ended(ts) && c.position < |ts|
    ensures r.token.kind == kind && Advanced(c, r.cursor)
    ensures ts[c.position].kind == kind ==> r.token == ts[c.position] && r.cursor == Cursor(c.position + 1, c.diagnostics)
    ensures ts[c.position].kind != kind ==>
      && r.token == SyntaxToken(kind, ts[c.position].position, None, None) && r.cursor.position == c.position
      && r.cursor.diagnostics == c.diagnostics + [UnexpectedToken(ts[c.position].kind, kind)]
    ensures kind != EndOfFileToken ==> r.cursor.position < |ts|
  {
    var current := ts[c.position];
    if current.kind == kind then Matched(current, Cursor(c.position + 1, c.diagnostics))
    else Matched(SyntaxToken(kind, current.position, None, None), Cursor(c.position, c.diagnostics + [UnexpectedToken(current.kind, kind)]))
  }

  /** Whether the parser may work on these tokens with these facts. */
  ghost predicate Ready(ts: seq<SyntaxToken>, facts: SyntaxFacts, c: Cursor)
  {
    Ended(ts) && facts.EndIsNoOperator() && c.position < |ts|
  }

  /** ParserExpression at a parent precedence: an operand, then the
      operator loop. It stops at a token that is no binary operator or
      binds no tighter than the parent. */
  function ExpressionAt(ts: seq<SyntaxToken>, facts: SyntaxFacts, c: Cursor, parent: nat): (r: Parsed)
    requires Ready(ts, facts, c)
    ensures Advanced(c, r.cursor) && r.cursor.position < |ts|
    ensures var p := facts.BinaryPrecedence(ts[r.cursor.position].kind); p == 0 || p <= parent
    decreases |ts| - c.position, 3
  {
    var operand := OperandAt(ts, facts, c, parent);
    BinaryTail(ts, facts, operand.node, parent, operand.cursor)
  }

  /** The first half of ParserExpression: a prefix operator whose
      precedence is nonzero and at least the parent's, applied to an
      operand parsed at its own precedence; otherwise a primary
      expression. */
  function OperandAt(ts: seq<SyntaxToken>, facts: SyntaxFacts, c: Cursor, parent: nat): (r: Parsed)
    requires Ready(ts, facts, c)
    ensures Advanced(c, r.cursor) && r.cursor.position < |ts|
    ensures !r.node.BinaryExpressionSyntax?
    decreases |ts| - c.position, 2
  {
    var current := ts[c.position];
    var unaryPrecedence := facts.UnaryPrecedence(current.kind);
    if unaryPrecedence != 0 && unaryPrecedence >= parent then
      var operand := ExpressionAt(ts, facts, Cursor(c.position + 1, c.diagnostics), unaryPrecedence);
      Parsed(UnaryExpressionSyntax(current, operand.node), operand.cursor)
    else
      PrimaryAt(ts, facts, c)
  }

  /** The loop of ParserExpression: while the current token is a binary
      operator binding tighter than the parent, it combines the expression
      so far with a right operand parsed at the operator's precedence. */
  function BinaryTail(ts: seq<SyntaxToken>, facts: SyntaxFacts, left: ExpressionSyntax, parent: nat, c: Cursor): (r: Parsed)
    requires Ready(ts, facts, c)
    ensures Advanced(c, r.cursor) && r.cursor.position < |ts|
    ensures var p := facts.BinaryPrecedence(ts[r.cursor.position].kind); p == 0 || p <= parent
    decreases |ts| - c.position, 1
  {
    var op := ts[c.position];
    var precedence := facts.BinaryPrecedence(op.kind);
    if precedence == 0 || precedence <= parent then Parsed(left, c)
    else
      var right := ExpressionAt(ts, facts, Cursor(c.position + 1, c.diagnostics), precedence);
      BinaryTail(ts, facts, BinaryExpressionSyntax(left, op, right.node), parent, right.cursor)
  }

  /** ParserPrimaryExpression: a parenthesised expression, true or false
      with its bool value, or else a matched number, which may be missing,
      with the token's value. */
  function PrimaryAt(ts: seq<SyntaxToken>, facts: SyntaxFacts, c: Cursor): (r: Parsed)
    requires Ready(ts, facts, c)
    ensures Advanced(c, r.cursor) && r.cursor.position < |ts|
    ensures r.node.LiteralExpressionSyntax? || r.node.ParenthesizedExpressionSyntax?
    decreases |ts| - c.position, 0
  {
    var current := ts[c.position];
    if current.kind == OpenParenthesisToken then
      var inner := ExpressionAt(ts, facts, Cursor(c.position + 1, c.diagnostics), 0);
      var close := MatchAt(ts, inner.cursor, CloseParenthesisToken);
      Parsed(ParenthesizedExpressionSyntax(current, inner.node, close.token), close.cursor)
    else if current.kind == TrueKeyword || current.kind == FalseKeyword then
      Parsed(LiteralExpressionSyntax(current, Some(BoolLiteral(current.kind == TrueKeyword))), Cursor(c.position + 1, c.diagnostics))
    else
      var number := MatchAt(ts, c, NumberToken);
      Parsed(LiteralExpressionSyntax(number.token, TokenLiteral(number.token)), number.cursor)
  }

  /** What Parse returns: the diagnostics, the expression and the matched
      end-of-file token. */
  datatype SyntaxTree = SyntaxTree(diagnostics: seq<Diagnostic>, root: ExpressionSyntax, endOfFileToken: SyntaxToken)

  /** Parse: one expression, then a required end of file. */
  function ParseAt(ts: seq<SyntaxToken>, facts: SyntaxFacts, c: Cursor): SyntaxTree
    requires Ready(ts, facts, c)
  {
    var e := ExpressionAt(ts, facts, c, 0);
    var eof := MatchAt(ts, e.cursor, EndOfFileToken);
    SyntaxTree(eof.cursor.diagnostics, e.node, eof.token)
  }

  /** One turn of the operator loop. */
  lemma TailStep(ts: seq<SyntaxToken>, facts: SyntaxFacts, left: ExpressionSyntax, parent: nat, c: Cursor)
    requires Ready(ts, facts, c)
    requires var p := facts.BinaryPrecedence(ts[c.position].kind); p != 0 && p > parent
    ensures c.position + 1 < |ts|
    ensures var right := ExpressionAt(ts, facts, Cursor(c.position + 1, c.diagnostics), facts.BinaryPrecedence(ts[c.position].kind));
      BinaryTail(ts, facts, left, parent, c) == BinaryTail(ts, facts, BinaryExpressionSyntax(left, ts[c.position], right.node), parent, right.cursor)
  {
  }

  // The shape of the trees.

  /** A literal's value: true or false for the keywords, the token's value
      for a number. */
  predicate LiteralShaped(t: SyntaxToken, value: Option<LiteralValue>)
  {
    || (t.kind == TrueKeyword && value == Some(BoolLiteral(true)))
    || (t.kind == FalseKeyword && value == Some(BoolLiteral(false)))
    || (t.kind == NumberToken && value == TokenLiteral(t))
  }

  /** The shape precedence climbing gives a tree: a binary operator's left
      operand is not a looser binary expression and its right operand not a
      binary expression as loose or looser (so equal precedences associate
      to the left); a unary operand is not a binary expression as loose as
      or looser than the unary operator; and literals carry their values. */
  ghost predicate Shaped(facts: SyntaxFacts, e: ExpressionSyntax)
  {
    match e
    case LiteralExpressionSyntax(t, value) => LiteralShaped(t, value)
    case ParenthesizedExpressionSyntax(open, inner, close) =>
      open.kind == OpenParenthesisToken && close.kind == CloseParenthesisToken && Shaped(facts, inner)
    case UnaryExpressionSyntax(op, operand) =>
      var p := facts.UnaryPrecedence(op.kind);
      && p > 0 && Shaped(facts, operand)
      && (operand.BinaryExpressionSyntax? ==> facts.BinaryPrecedence(operand.operatorToken.kind) > p)
    case BinaryExpressionSyntax(left, op, right) =>
      var p := facts.BinaryPrecedence(op.kind);
      && p > 0 && Shaped(facts, left) && Shaped(facts, right)
      && (left.BinaryExpressionSyntax? ==> facts.BinaryPrecedence(left.operatorToken.kind) >= p)
      && (right.BinaryExpressionSyntax? ==> facts.BinaryPrecedence(right.operatorToken.kind) > p)
  }

  /** An expression parsed at a parent precedence: shaped, and a binary
      expression only if its operator binds tighter than the parent. */
  ghost predicate Above(facts: SyntaxFacts, e: ExpressionSyntax, parent: nat)
  {
    Shaped(facts, e) && (e.BinaryExpressionSyntax? ==> facts.BinaryPrecedence(e.operatorToken.kind) > parent)
  }

  /** ParserExpression yields a tree shaped by precedence. */
  lemma {:induction false} ExpressionShape(ts: seq<SyntaxToken>, facts: SyntaxFacts, c: Cursor, parent: nat)
    requires Ready(ts, facts, c)
    ensures Above(facts, ExpressionAt(ts, facts, c, parent).node, parent)
    decreases |ts| - c.position, 3
  {
    var operand := OperandAt(ts, facts, c, parent);
    OperandShape(ts, facts, c, parent);
    TailShape(ts, facts, operand.node, parent, operand.cursor);
  }

  lemma {:induction false} OperandShape(ts: seq<SyntaxToken>, facts: SyntaxFacts, c: Cursor, parent: nat)
    requires Ready(ts, facts, c)
    ensures Shaped(facts, OperandAt(ts, facts, c, parent).node)
    decreases |ts| - c.position, 2
  {
    var unaryPrecedence := facts.UnaryPrecedence(ts[c.position].kind);
    if unaryPrecedence != 0 && unaryPrecedence >= parent {
      ExpressionShape(ts, facts, Cursor(c.position + 1, c.diagnostics), unaryPrecedence);
    } else {
      PrimaryShape(ts, facts, c);
    }
  }

  /** Where the operator loop may start or go on: the expression so far is
      above the parent, and a current operator that binds tighter than the
      parent binds no tighter than the expression's own operator. */
  ghost predicate TailReady(ts: seq<SyntaxToken>, facts: SyntaxFacts, left: ExpressionSyntax, parent: nat, c: Cursor)
  {
    && Ready(ts, facts, c) && Above(facts, left, parent)
    && var p := facts.BinaryPrecedence(ts[c.position].kind);
      left.BinaryExpressionSyntax? && p > parent ==> p <= facts.BinaryPrecedence(left.operatorToken.kind)
  }

  /** The operator loop keeps the tree shaped: operators of equal
      precedence nest to the left, tighter ones to the right. */
  lemma {:induction false} TailShape(ts: seq<SyntaxToken>, facts: SyntaxFacts, left: ExpressionSyntax, parent: nat, c: Cursor)
    requires TailReady(ts, facts, left, parent, c)
    ensures Above(facts, BinaryTail(ts, facts, left, parent, c).node, parent)
    decreases |ts| - c.position, 1
  {
    var op := ts[c.position];
    var precedence := facts.BinaryPrecedence(op.kind);
    if precedence != 0 && precedence > parent {
      var right := ExpressionAt(ts, facts, Cursor(c.position + 1, c.diagnostics), precedence);
      ExpressionShape(ts, facts, Cursor(c.position + 1, c.diagnostics), precedence);
      var combined := BinaryExpressionSyntax(left, op, right.node);
      assert Shaped(facts, combined);
      TailShape(ts, facts, combined, parent, right.cursor);
    }
  }

  lemma {:induction false} PrimaryShape(ts: seq<SyntaxToken>, facts: SyntaxFacts, c: Cursor)
    requires Ready(ts, facts, c)
    ensures Shaped(facts, PrimaryAt(ts, facts, c).node)
    decreases |ts| - c.position, 0
  {
    if ts[c.position].kind == OpenParenthesisToken {
      ExpressionShape(ts, facts, Cursor(c.position + 1, c.diagnostics), 0);
    }
  }

  // The tokens of the trees.

  /** No diagnostic is added by a parse when none is added by its last
      step and every step only appends. */
  lemma Unreported(a: Cursor, b: Cursor, c: Cursor)
    requires Advanced(a, b) && Advanced(b, c) && c.diagnostics == a.diagnostics
    ensures b.diagnostics == a.diagnostics
  {
  }

  /** What a parse that reports nothing consumes is its tree's tokens: the
      tree, read left to right, is the token array between the two cursors,
      so no token is dropped, repeated or made up. */
  lemma {:induction false} ExpressionTokens(ts: seq<SyntaxToken>, facts: SyntaxFacts, c: Cursor, parent: nat)
    requires Ready(ts, facts, c)
    ensures var r := ExpressionAt(ts, facts, c, parent);
      r.cursor.diagnostics == c.diagnostics ==> Flatten(r.node) == ts[c.position..r.cursor.position]
    decreases |ts| - c.position, 4
  {
    var r := ExpressionAt(ts, facts, c, parent);
    var operand := OperandAt(ts, facts, c, parent);
    if r.cursor.diagnostics == c.diagnostics {
      OperandTokens(ts, facts, c, parent);
      TailTokens(ts, facts, operand.node, parent, operand.cursor);
      Unreported(c, operand.cursor, r.cursor);
      SliceSplit(ts, c.position, operand.cursor.position, r.cursor.position);
    }
  }

  lemma {:induction false} OperandTokens(ts: seq<SyntaxToken>, facts: SyntaxFacts, c: Cursor, parent: nat)
    requires Ready(ts, facts, c)
    ensures var r := OperandAt(ts, facts, c, parent);
      r.cursor.diagnostics == c.diagnostics ==> Flatten(r.node) == ts[c.position..r.cursor.position]
    decreases |ts| - c.position, 3
  {
    var unaryPrecedence := facts.UnaryPrecedence(ts[c.position].kind);
    if unaryPrecedence != 0 && unaryPrecedence >= parent {
      var inner := Cursor(c.position + 1, c.diagnostics);
      var operand := ExpressionAt(ts, facts, inner, unaryPrecedence);
      ExpressionTokens(ts, facts, inner, unaryPrecedence);
      SliceCons(ts, c.position, operand.cursor.position);
    } else {
      PrimaryTokens(ts, facts, c);
    }
  }

  lemma {:induction false} TailTokens(ts: seq<SyntaxToken>, facts: SyntaxFacts, left: ExpressionSyntax, parent: nat, c: Cursor)
    requires Ready(ts, facts, c)
    ensures var r := BinaryTail(ts, facts, left, parent, c);
      r.cursor.diagnostics == c.diagnostics ==> Flatten(r.node) == Flatten(left) + ts[c.position..r.cursor.position]
    decreases |ts| - c.position, 2
  {
    var precedence := facts.BinaryPrecedence(ts[c.position].kind);
    if precedence != 0 && precedence > parent {
      OperatorTokens(ts, facts, left, parent, c);
    } else {
      EmptySlice(ts, c.position);
    }
  }

  /** One turn of the operator loop, for TailTokens. */
  lemma {:induction false} OperatorTokens(ts: seq<SyntaxToken>, facts: SyntaxFacts, left: ExpressionSyntax, parent: nat, c: Cursor)
    requires Ready(ts, facts, c)
    requires var p := facts.BinaryPrecedence(ts[c.position].kind); p != 0 && p > parent
    ensures var r := BinaryTail(ts, facts, left, parent, c);
      r.cursor.diagnostics == c.diagnostics ==> Flatten(r.node) == Flatten(left) + ts[c.position..r.cursor.position]
    decreases |ts| - c.position, 1
  {
    var r := BinaryTail(ts, facts, left, parent, c);
    var op := ts[c.position];
    var inner := Cursor(c.position + 1, c.diagnostics);
    var precedence := facts.BinaryPrecedence(op.kind);
    var right := ExpressionAt(ts, facts, inner, precedence);
    var combined := BinaryExpressionSyntax(left, op, right.node);
    assert r == BinaryTail(ts, facts, combined, parent, right.cursor);
    if r.cursor.diagnostics == c.diagnostics {
      ExpressionTokens(ts, facts, inner, precedence);
      TailTokens(ts, facts, combined, parent, right.cursor);
      Unreported(c, right.cursor, r.cursor);
      Glue(ts, c.position, right.cursor.position, r.cursor.position, Flatten(left), Flatten(right.node), Flatten(r.node));
    }
  }

  lemma {:induction false} PrimaryTokens(ts: seq<SyntaxToken>, facts: SyntaxFacts, c: Cursor)
    requires Ready(ts, facts, c)
    ensures var r := PrimaryAt(ts, facts, c);
      r.cursor.diagnostics == c.diagnostics ==> Flatten(r.node) == ts[c.position..r.cursor.position]
    decreases |ts| - c.position, 1
  {
    if ts[c.position].kind == OpenParenthesisToken {
      ParenthesizedTokens(ts, facts, c);
    } else {
      SingleSlice(ts, c.position);
    }
  }

  /** The parenthesised case of PrimaryTokens. */
  lemma {:induction false} ParenthesizedTokens(ts: seq<SyntaxToken>, facts: SyntaxFacts, c: Cursor)
    requires Ready(ts, facts, c) && ts[c.position].kind == OpenParenthesisToken
    ensures var r := PrimaryAt(ts, facts, c);
      r.cursor.diagnostics == c.diagnostics ==> Flatten(r.node) == ts[c.position..r.cursor.position]
    decreases |ts| - c.position, 0
  {
    var open := Cursor(c.position + 1, c.diagnostics);
    var inner := ExpressionAt(ts, facts, open, 0);
    var close := MatchAt(ts, inner.cursor, CloseParenthesisToken);
    if close.cursor.diagnostics == c.diagnostics {
      Unreported(c, inner.cursor, close.cursor);
      ExpressionTokens(ts, facts, open, 0);
      Enclosed(ts, c.position, inner.cursor.position, Flatten(inner.node), close.token);
    }
  }

  /** A primary that is neither a parenthesis, true nor false, nor a number
      reports one unexpected token, and stands for a made-up number token
      with no value at the current token's position, without consuming
      it. */
  lemma MissingNumber(ts: seq<SyntaxToken>, facts: SyntaxFacts, c: Cursor)
    requires Ready(ts, facts, c)
    requires ts[c.position].kind !in {OpenParenthesisToken, TrueKeyword, FalseKeyword, NumberToken}
    ensures var r := PrimaryAt(ts, facts, c);
      && r.node == LiteralExpressionSyntax(SyntaxToken(NumberToken, ts[c.position].position, None, None), None)
      && r.cursor == Cursor(c.position, c.diagnostics + [UnexpectedToken(ts[c.position].kind, NumberToken)])
  {
  }

  /** Parse: the tree is shaped by precedence, ends in a token of kind end
      of file, and, when nothing was reported, its tokens followed by the
      end-of-file token are all the tokens from the start. */
  lemma ParseWhole(ts: seq<SyntaxToken>, facts: SyntaxFacts, c: Cursor)
    requires WellEnded(ts) && facts.EndIsNoOperator() && c.position < |ts|
    ensures var r := ParseAt(ts, facts, c);
      && Shaped(facts, r.root) && r.endOfFileToken.kind == EndOfFileToken && c.diagnostics <= r.diagnostics
      && (r.diagnostics == c.diagnostics ==> Flatten(r.root) + [r.endOfFileToken] == ts[c.position..])
  {
    var e := ExpressionAt(ts, facts, c, 0);
    ExpressionShape(ts, facts, c, 0);
    ExpressionTokens(ts, facts, c, 0);
    var eof := MatchAt(ts, e.cursor, EndOfFileToken);
    if eof.cursor.diagnostics == c.diagnostics {
      Unreported(c, e.cursor, eof.cursor);
      assert e.cursor.position == |ts| - 1;
      LastOfSuffix(ts, c.position);
    }
  }

  /** The constructor's lexing loop: lex until end of file, keeping all
      tokens but whitespace and bad ones, with the lexer's diagnostics. */
  method LexAll(text: string, facts: SyntaxFacts, chars: CharClass) returns (lexed: Lexed)
    requires chars.Valid() && facts.Valid()
    ensures lexed == TokensFrom(text, facts, chars, 0)
  {
    var list: seq<SyntaxToken> := [];
    var lexer := new Lexer(text, facts, chars);
    var done := false;
    while !done
      invariant lexer.Valid() && lexer.text == text && lexer.facts == facts && lexer.chars == chars
      invariant Collected(text, facts, chars, Lexed(list, lexer.diagnostics), lexer.position, done)
      decreases if done then 0 else 1, |text| - lexer.position
    {
      list, done := CollectToken(lexer, list);
    }
    lexed := Lexed(list, lexer.diagnostics);
  }

  class Parser {
    const tokens: seq<SyntaxToken>
    const facts: SyntaxFacts
    var position: nat
    var diagnostics: seq<Diagnostic>

    function At(): Cursor reads this { Cursor(position, diagnostics) }

    ghost predicate Valid() reads this { Ended(tokens) && facts.EndIsNoOperator() && position <= |tokens| }

    /** The constructor: lexes the text to its end, keeping all tokens but
        whitespace and bad ones, and takes over the lexer's diagnostics. */
    constructor (text: string, facts: SyntaxFacts, chars: CharClass)
      requires chars.Valid() && facts.Valid()
      ensures Valid() && WellEnded(tokens) && position == 0 && this.facts == facts
      ensures Lexed(tokens, diagnostics) == TokensFrom(text, facts, chars, 0)
    {
      var lexed := LexAll(text, facts, chars);
      TokensEndWell(text, facts, chars, 0);
      tokens := lexed.tokens;
      this.facts := facts;
      position := 0;
      diagnostics := lexed.diagnostics;
    }

    /** Peek: the token `offset` places ahead; the last token past the end. */
    function Peek(offset: nat): (t: SyntaxToken)
      requires |tokens| >= 1
      reads this
      ensures position + offset < |tokens| ==> t == tokens[position + offset]
      ensures position + offset >= |tokens| ==> t == tokens[|tokens| - 1]
    {
      PeekAt(tokens, position, offset)
    }

    function Current(): SyntaxToken requires |tokens| >= 1 reads this { Peek(0) }

    /** NextToken: the current token, and one step on. */
    method NextToken() returns (t: SyntaxToken)
      requires Valid()
      modifies this
      ensures t == old(Current()) && position == old(position) + 1 && diagnostics == old(diagnostics)
    {
      t := Current();
      position := position + 1;
    }

    /** MatchToken: consumes the current token when it has the kind, and
        otherwise reports it and makes up a token of the kind. */
    method MatchToken(kind: SyntaxKind) returns (t: SyntaxToken)
      requires Valid() && position < |tokens|
      modifies this
      ensures Matched(t, At()) == MatchAt(tokens, old(At()), kind)
    {
      if Current().kind == kind {
        t := NextToken();
        return;
      }
      diagnostics := diagnostics + [UnexpectedToken(Current().kind, kind)];
      t := SyntaxToken(kind, Current().position, None, None);
    }

    method Parse() returns (r: SyntaxTree)
      requires Valid() && position < |tokens|
      modifies this
      ensures r == ParseAt(tokens, facts, old(At()))
    {
      var expression := ParserExpression(0);
      var endOfFileToken := MatchToken(EndOfFileToken);
      r := SyntaxTree(diagnostics, expression, endOfFileToken);
    }

    method ParserExpression(parentPrecedence: nat) returns (e: ExpressionSyntax)
      requires Valid() && position < |tokens|
      modifies this
      ensures Parsed(e, At()) == ExpressionAt(tokens, facts, old(At()), parentPrecedence)
      decreases |tokens| - position, 4
    {
      ghost var whole := ExpressionAt(tokens, facts, At(), parentPrecedence);
      var left := ParseUnaryOrPrimary(parentPrecedence);
      while true
        invariant Valid() && old(position) <= position < |tokens|
        invariant whole == BinaryTail(tokens, facts, left, parentPrecedence, At())
        decreases |tokens| - position
      {
        var precedence := facts.BinaryPrecedence(Current().kind);
        if precedence == 0 || precedence <= parentPrecedence {
          assert whole == Parsed(left, At());
          break;
        }
        left := ParserBinaryOperand(left, parentPrecedence);
      }
      e := left;
    }

    /** One turn of ParserExpression's loop: the operator, then the right
        operand parsed at its precedence, combined with the expression so
        far; the rest of the loop is unchanged by it. */
    method ParserBinaryOperand(left: ExpressionSyntax, parentPrecedence: nat) returns (e: ExpressionSyntax)
      requires Valid() && position < |tokens|
      requires var p := facts.BinaryPrecedence(Current().kind); p != 0 && p > parentPrecedence
      modifies this
      ensures Valid() && old(position) < position < |tokens|
      ensures BinaryTail(tokens, facts, left, parentPrecedence, old(At())) == BinaryTail(tokens, facts, e, parentPrecedence, At())
      decreases |tokens| - position, 3
    {
      var precedence := facts.BinaryPrecedence(Current().kind);
      TailStep(tokens, facts, left, parentPrecedence, At());
      var operatorToken := NextToken();
      var right := ParserExpression(precedence);
      e := BinaryExpressionSyntax(left, operatorToken, right);
    }

    /** The start of ParserExpression: a prefix operator applied to an
        operand, or a primary expression. */
    method ParseUnaryOrPrimary(parentPrecedence: nat) returns (e: ExpressionSyntax)
      requires Valid() && position < |tokens|
      modifies this
      ensures Parsed(e, At()) == OperandAt(tokens, facts, old(At()), parentPrecedence)
      decreases |tokens| - position, 2
    {
      var unaryOperatorPrecedence := facts.UnaryPrecedence(Current().kind);
      if unaryOperatorPrecedence != 0 && unaryOperatorPrecedence >= parentPrecedence {
        var operatorToken := NextToken();
        var operand := ParserExpression(unaryOperatorPrecedence);
        e := UnaryExpressionSyntax(operatorToken, operand);
      } else {
        e := ParserPrimaryExpression();
      }
    }

    /** The parenthesised branch of ParserPrimaryExpression. */
    method ParserParenthesized() returns (e: ExpressionSyntax)
      requires Valid() && position < |tokens| && Current().kind == OpenParenthesisToken
      modifies this
      ensures Parsed(e, At()) == PrimaryAt(tokens, facts, old(At()))
      decreases |tokens| - position, 0
    {
      var left := NextToken();
      var expression := ParserExpression(0);
      var right := MatchToken(CloseParenthesisToken);
      e := ParenthesizedExpressionSyntax(left, expression, right);
    }

    method ParserPrimaryExpression() returns (e: ExpressionSyntax)
      requires Valid() && position < |tokens|
      modifies this
      ensures Parsed(e, At()) == PrimaryAt(tokens, facts, old(At()))
      decreases |tokens| - position, 1
    {
      var current := Current();
      if current.kind == OpenParenthesisToken {
        e := ParserParenthesized();
        return;
      } else if current.kind == TrueKeyword || current.kind == FalseKeyword {
        var keywordToken := NextToken();
        var value := keywordToken.kind == TrueKeyword;
        return LiteralExpressionSyntax(keywordToken, Some(BoolLiteral(value)));
      }
      var numberToken := MatchToken(NumberToken);
      e := LiteralExpressionSyntax(numberToken, TokenLiteral(numberToken));
    }
  }

  /** SyntaxTree.Parse: a parser over the text, and its parse. */
  method ParseText(text: string, facts: SyntaxFacts, chars: CharClass) returns (tree: SyntaxTree)
    requires chars.Valid() && facts.Valid()
    ensures var lexed := TokensFrom(text, facts, chars, 0);
      WellEnded(lexed.tokens) && tree == ParseAt(lexed.tokens, facts, Cursor(0, lexed.diagnostics))
  {
    var parser := new Parser(text, facts, chars);
    tree := parser.Parse();
  }
}
