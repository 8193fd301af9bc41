// The Cocoa expression parser: lexes the whole text into an array of tokens
// up front, then parses one expression by recursive descent with precedence
// climbing. Its state is the position in the array and the diagnostics.
module CocoaParser {
  import opened Wrappers
  import opened TextSpans
  import opened CharClasses
  import opened CocoaSyntax
  import opened CocoaDiagnostics
  import opened CocoaText
  import opened CocoaLexer
  import opened CocoaTokens
  import opened Slices

  /** The tokens the parser keeps: all but whitespace and bad tokens. */
  predicate Kept(t: SyntaxToken)
  {
    t.kind != WhitespaceToken && t.kind != BadToken
  }

  /** The parser's token array: tokens read from the text, none of them
      whitespace or bad, ending in the only end-of-file token. */
  ghost predicate WellEnded(tokens: seq<SyntaxToken>)
  {
    && |tokens| >= 1 && tokens[|tokens| - 1].kind == EndOfFileToken
    && (forall i :: 0 <= i < |tokens| - 1 ==> tokens[i].kind != EndOfFileToken)
    && (forall i :: 0 <= i < |tokens| ==> Kept(tokens[i]) && tokens[i].text.Some?)
  }

  lemma WellEndedCons(t: SyntaxToken, rest: seq<SyntaxToken>)
    requires WellEnded(rest) && Kept(t) && t.kind != EndOfFileToken && t.text.Some?
    ensures WellEnded([t] + rest)
  {
    var all := [t] + rest;
    assert forall i :: 1 <= i < |all| ==> all[i] == rest[i - 1];
  }

  datatype Lexed = Lexed(tokens: seq<SyntaxToken>, diagnostics: seq<Diagnostic>)

  /** What the constructor's lexing loop collects from position p on: the
      kept tokens up to and including end of file, and the lexer's
      diagnostics. */
  function TokensFrom(text: string, facts: SyntaxFacts, chars: CharClass, p: nat): (r: Lexed)
    requires chars.Valid() && facts.Valid() && p <= |text|
    decreases |text| - p
  {
    var step := LexAt(text, facts, chars, p);
    LexEndOfFile(text, facts, chars, p);
    if step.token.kind == EndOfFileToken then Lexed([step.token], step.diagnostics)
    else
      var rest := TokensFrom(text, facts, chars, step.next);
      Lexed((if Kept(step.token) then [step.token] else []) + rest.tokens, step.diagnostics + rest.diagnostics)
  }

  /** The collected tokens end well: only kept tokens with text, and the
      end-of-file token last and only there. */
  lemma {:induction false} TokensEndWell(text: string, facts: SyntaxFacts, chars: CharClass, p: nat)
    requires chars.Valid() && facts.Valid() && p <= |text|
    ensures WellEnded(TokensFrom(text, facts, chars, p).tokens)
    decreases |text| - p
  {
    var step := LexAt(text, facts, chars, p);
    LexEndOfFile(text, facts, chars, p);
    if step.token.kind != EndOfFileToken {
      TokensEndWell(text, facts, chars, step.next);
      if Kept(step.token) {
        WellEndedCons(step.token, TokensFrom(text, facts, chars, step.next).tokens);
      } else {
        assert [] + TokensFrom(text, facts, chars, step.next).tokens == TokensFrom(text, facts, chars, step.next).tokens;
      }
    }
  }

  /** The tokens of a whole text make a token stream the parser can work
      on. */
  lemma StreamOfText(text: string, facts: SyntaxFacts, chars: CharClass)
    requires chars.Valid() && facts.Valid()
    ensures var tokens := TokensFrom(text, facts, chars, 0).tokens;
      WellEnded(tokens) && TokenStream(tokens, facts).Valid()
  {
    var tokens := TokensFrom(text, facts, chars, 0).tokens;
    TokensEndWell(text, facts, chars, 0);
    EndedArePresent(tokens);
  }

  function Join(a: Lexed, b: Lexed): Lexed
  {
    Lexed(a.tokens + b.tokens, a.diagnostics + b.diagnostics)
  }

  /** One lexing step: the token is kept unless it is whitespace or bad,
      and lexing ends with the end-of-file token. */
  lemma TokensStep(text: string, facts: SyntaxFacts, chars: CharClass, p: nat, done: Lexed)
    requires chars.Valid() && facts.Valid() && p <= |text|
    ensures var step := LexAt(text, facts, chars, p);
      && p <= step.next <= |text|
      && (step.token.kind == EndOfFileToken ==>
            Join(done, TokensFrom(text, facts, chars, p)) == Lexed(done.tokens + [step.token], done.diagnostics + step.diagnostics))
      && (step.token.kind != EndOfFileToken ==>
            Join(done, TokensFrom(text, facts, chars, p))
            == Join(Lexed(done.tokens + (if Kept(step.token) then [step.token] else []), done.diagnostics + step.diagnostics),
                    TokensFrom(text, facts, chars, step.next)))
  {
    var step := LexAt(text, facts, chars, p);
    LexEndOfFile(text, facts, chars, p);
    if step.token.kind != EndOfFileToken {
      JoinAssociates(done, Lexed(if Kept(step.token) then [step.token] else [], step.diagnostics), TokensFrom(text, facts, chars, step.next));
    }
  }

  lemma JoinAssociates(a: Lexed, b: Lexed, c: Lexed)
    ensures Join(a, Join(b, c)) == Join(Join(a, b), c)
  {
    assert a.tokens + (b.tokens + c.tokens) == (a.tokens + b.tokens) + c.tokens;
    assert a.diagnostics + (b.diagnostics + c.diagnostics) == (a.diagnostics + b.diagnostics) + c.diagnostics;
  }

  /** The lexing loop's invariant: what is collected so far, joined with
      what lexing from the current position would give, is the whole
      result; and once end of file is read, what is collected is. */
  ghost predicate Collected(text: string, facts: SyntaxFacts, chars: CharClass, collected: Lexed, p: nat, done: bool)
    requires chars.Valid() && facts.Valid() && p <= |text|
  {
    if done then TokensFrom(text, facts, chars, 0) == collected
    else TokensFrom(text, facts, chars, 0) == Join(collected, TokensFrom(text, facts, chars, p))
  }

  /** The parser's position and the diagnostics it has reported. */
  datatype Cursor = Cursor(position: nat, diagnostics: seq<Diagnostic>)

  /** A cursor that has not gone back and has only added diagnostics. */
  predicate Advanced(c: Cursor, c': Cursor)
  {
    c.position <= c'.position && c.diagnostics <= c'.diagnostics
  }

  datatype Parsed = Parsed(node: ExpressionSyntax, cursor: Cursor)

  datatype Matched = Matched(token: SyntaxToken, cursor: Cursor)

  /** The tokens of an expression, left to right. */
  function Flatten(e: ExpressionSyntax): seq<SyntaxToken>
  {
    match e
    case ParenthesizedExpression(open, inner, close) => [open] + Flatten(inner) + [close]
    case LiteralExpression(t, _) => [t]
    case NameExpression(t) => [t]
    case AssignmentExpression(id, eq, rhs) => [id, eq] + Flatten(rhs)
    case UnaryExpression(op, operand) => [op] + Flatten(operand)
    case BinaryExpression(left, op, right) => Flatten(left) + [op] + Flatten(right)
    case CallExpression(callee, open, args, close) => [callee, open] + FlattenAll(args) + [close]
  }

  function FlattenAll(es: seq<ExpressionSyntax>): seq<SyntaxToken>
  {
    if es == [] then [] else Flatten(es[0]) + FlattenAll(es[1..])
  }

  /** The shape precedence climbing gives a tree: a binary operator's left
      operand is not a looser binary expression and its right operand not a
      binary expression as loose or looser (so equal precedences associate
      to the left); a unary operand is not a binary expression as loose as
      or looser than the unary operator; assignments occur only at the top
      of an expression or of a parenthesised one; and there are no calls,
      which this parser has no syntax for. */
  ghost predicate Shaped(facts: SyntaxFacts, e: ExpressionSyntax)
  {
    match e
    case ParenthesizedExpression(_, inner, _) => Shaped(facts, inner)
    case LiteralExpression(_, _) => true
    case NameExpression(_) => true
    case AssignmentExpression(_, _, rhs) => Shaped(facts, rhs)
    case UnaryExpression(op, operand) =>
      var p := facts.unaryPrecedence(op.kind);
      && p > 0 && !operand.AssignmentExpression? && Shaped(facts, operand)
      && (operand.BinaryExpression? ==> facts.binaryPrecedence(operand.operatorToken.kind) > p)
    case BinaryExpression(left, op, right) =>
      var p := facts.binaryPrecedence(op.kind);
      && p > 0 && !left.AssignmentExpression? && !right.AssignmentExpression?
      && Shaped(facts, left) && Shaped(facts, right)
      && (left.BinaryExpression? ==> facts.binaryPrecedence(left.operatorToken.kind) >= p)
      && (right.BinaryExpression? ==> facts.binaryPrecedence(right.operatorToken.kind) > p)
    case CallExpression(_, _, _, _) => false
  }

  /** An operand parsed at a parent precedence: no assignment, and a binary
      expression only if its operator binds tighter than the parent. */
  ghost predicate OperandAbove(facts: SyntaxFacts, e: ExpressionSyntax, parent: nat)
  {
    Shaped(facts, e) && !e.AssignmentExpression?
    && (e.BinaryExpression? ==> facts.binaryPrecedence(e.operatorToken.kind) > parent)
  }

  /** MatchToken: the current token when it has the kind, and one step on;
      otherwise one unexpected-token diagnostic over the current token and a
      missing token of the expected kind at its position, without moving. */
  function MatchAt(s: TokenStream, c: Cursor, kind: SyntaxKind): (r: Matched)
    requires s.Valid() && c.position < |s.tokens|
    ensures r.token.kind == kind && Advanced(c, r.cursor)
    ensures r.token.IsMissing() <==> s.tokens[c.position].kind != kind
    ensures !r.token.IsMissing() ==> r.token == s.tokens[c.position] && r.cursor == Cursor(c.position + 1, c.diagnostics)
    ensures r.token.IsMissing() ==>
      && r.token.position == s.tokens[c.position].position && r.cursor.position == c.position
      && r.cursor.diagnostics == c.diagnostics + [Diagnostic(s.tokens[c.position].Span(), UnexpectedToken(s.tokens[c.position].kind, kind))]
    ensures kind != EndOfFileToken ==> r.cursor.position < |s.tokens|
  {
    var current := s.tokens[c.position];
    PresentAt(s.tokens, c.position);
    if current.kind == kind then Matched(current, Cursor(c.position + 1, c.diagnostics))
    else
      Matched(SyntaxToken(kind, current.position, None, NoValue),
        Cursor(c.position, c.diagnostics + [Diagnostic(current.Span(), UnexpectedToken(current.kind, kind))]))
  }

  /** ParseExpression. */
  function ExpressionAt(s: TokenStream, c: Cursor): (r: Parsed)
    requires s.Valid() && c.position < |s.tokens|
    ensures Advanced(c, r.cursor) && r.cursor.position < |s.tokens|
    decreases |s.tokens| - c.position, 5
  {
    AssignmentAt(s, c)
  }

  /** ParseAssignmentExpression: an identifier followed by `=` starts an
      assignment, whose right side is again an assignment expression. */
  function AssignmentAt(s: TokenStream, c: Cursor): (r: Parsed)
    requires s.Valid() && c.position < |s.tokens|
    ensures Advanced(c, r.cursor) && r.cursor.position < |s.tokens|
    decreases |s.tokens| - c.position, 4
  {
    if s.Peek(c.position, 0).kind == IdentifierToken && s.Peek(c.position, 1).kind == EqualsToken then
      var right := AssignmentAt(s, Cursor(c.position + 2, c.diagnostics));
      PresentAt(s.tokens, c.position);
      Parsed(AssignmentExpression(s.tokens[c.position], s.tokens[c.position + 1], right.node), right.cursor)
    else
      BinaryAt(s, c, 0)
  }

  /** ParseBinaryExpression: an operand, then the operator loop. It stops
      at a token that is no binary operator or binds no tighter than the
      parent. */
  function BinaryAt(s: TokenStream, c: Cursor, parent: nat): (r: Parsed)
    requires s.Valid() && c.position < |s.tokens|
    ensures Advanced(c, r.cursor) && r.cursor.position < |s.tokens|
    ensures var p := s.Precedence(s.tokens[r.cursor.position]); p == 0 || p <= parent
    decreases |s.tokens| - c.position, 3
  {
    var operand := OperandAt(s, c, parent);
    BinaryTail(s, operand.node, parent, operand.cursor)
  }

  /** The first half of ParseBinaryExpression: a prefix operator whose
      precedence is nonzero and at least the parent's, applied to an
      operand parsed at its own precedence; otherwise a primary
      expression. */
  function OperandAt(s: TokenStream, c: Cursor, parent: nat): (r: Parsed)
    requires s.Valid() && c.position < |s.tokens|
    ensures Advanced(c, r.cursor) && r.cursor.position < |s.tokens|
    ensures !r.node.BinaryExpression? && !r.node.AssignmentExpression?
    decreases |s.tokens| - c.position, 2
  {
    var current := s.tokens[c.position];
    var unaryPrecedence := s.facts.unaryPrecedence(current.kind);
    if unaryPrecedence != 0 && unaryPrecedence >= parent then
      var operand := BinaryAt(s, Cursor(c.position + 1, c.diagnostics), unaryPrecedence);
      Parsed(UnaryExpression(current, operand.node), operand.cursor)
    else
      PrimaryAt(s, c)
  }

  /** The loop of ParseBinaryExpression: while the current token is a
      binary operator binding tighter than the parent, it combines the
      expression so far with a right operand parsed at the operator's
      precedence. */
  function BinaryTail(s: TokenStream, left: ExpressionSyntax, parent: nat, c: Cursor): (r: Parsed)
    requires s.Valid() && c.position < |s.tokens|
    ensures Advanced(c, r.cursor) && r.cursor.position < |s.tokens|
    ensures var p := s.Precedence(s.tokens[r.cursor.position]); p == 0 || p <= parent
    decreases |s.tokens| - c.position, 1
  {
    var op := s.tokens[c.position];
    var precedence := s.Precedence(op);
    if precedence == 0 || precedence <= parent then Parsed(left, c)
    else
      var right := BinaryAt(s, Cursor(c.position + 1, c.diagnostics), precedence);
      BinaryTail(s, BinaryExpression(left, op, right.node), parent, right.cursor)
  }

  /** ParsePrimaryExpression: a parenthesised expression, true or false, a
      name, or else a number, which is matched and so may be missing. */
  function PrimaryAt(s: TokenStream, c: Cursor): (r: Parsed)
    requires s.Valid() && c.position < |s.tokens|
    ensures Advanced(c, r.cursor) && r.cursor.position < |s.tokens|
    ensures !r.node.BinaryExpression? && !r.node.UnaryExpression? && !r.node.AssignmentExpression?
    decreases |s.tokens| - c.position, 0
  {
    var current := s.tokens[c.position];
    if current.kind == OpenParenthesisToken then
      var inner := ExpressionAt(s, Cursor(c.position + 1, c.diagnostics));
      var close := MatchAt(s, inner.cursor, CloseParenthesisToken);
      Parsed(ParenthesizedExpression(current, inner.node, close.token), close.cursor)
    else if current.kind == TrueKeyword || current.kind == FalseKeyword then
      Parsed(LiteralExpression(current, BoolValue(current.kind == TrueKeyword)), Cursor(c.position + 1, c.diagnostics))
    else if current.kind == IdentifierToken then
      Parsed(NameExpression(current), Cursor(c.position + 1, c.diagnostics))
    else
      var number := MatchAt(s, c, NumberToken);
      Parsed(LiteralExpression(number.token, number.token.value), number.cursor)
  }

  /** What Parse returns: the diagnostics, the expression and the matched
      end-of-file token. */
  datatype ParsedText = ParsedText(diagnostics: seq<Diagnostic>, expression: ExpressionSyntax, endOfFileToken: SyntaxToken)

  /** Parse: one expression, then a required end of file. */
  function ParseAt(s: TokenStream, c: Cursor): (r: ParsedText)
    requires s.Valid() && c.position < |s.tokens|
  {
    var e := ExpressionAt(s, c);
    var eof := MatchAt(s, e.cursor, EndOfFileToken);
    ParsedText(eof.cursor.diagnostics, e.node, eof.token)
  }

  // Precedence shape.

  /** ParseExpression yields a tree shaped by precedence. */
  lemma {:induction false} ExpressionShape(s: TokenStream, c: Cursor)
    requires s.Valid() && c.position < |s.tokens|
    ensures Shaped(s.facts, ExpressionAt(s, c).node)
    decreases |s.tokens| - c.position, 5
  {
    AssignmentShape(s, c);
  }

  lemma {:induction false} AssignmentShape(s: TokenStream, c: Cursor)
    requires s.Valid() && c.position < |s.tokens|
    ensures Shaped(s.facts, AssignmentAt(s, c).node)
    decreases |s.tokens| - c.position, 4
  {
    if s.Peek(c.position, 0).kind == IdentifierToken && s.Peek(c.position, 1).kind == EqualsToken {
      AssignmentShape(s, Cursor(c.position + 2, c.diagnostics));
    } else {
      BinaryShape(s, c, 0);
    }
  }

  /** ParseBinaryExpression at a parent precedence yields no assignment,
      and a binary expression only with an operator binding tighter than
      the parent. */
  lemma {:induction false} BinaryShape(s: TokenStream, c: Cursor, parent: nat)
    requires s.Valid() && c.position < |s.tokens|
    ensures OperandAbove(s.facts, BinaryAt(s, c, parent).node, parent)
    decreases |s.tokens| - c.position, 3
  {
    var operand := OperandAt(s, c, parent);
    OperandShape(s, c, parent);
    TailShape(s, operand.node, parent, operand.cursor);
  }

  lemma {:induction false} OperandShape(s: TokenStream, c: Cursor, parent: nat)
    requires s.Valid() && c.position < |s.tokens|
    ensures Shaped(s.facts, OperandAt(s, c, parent).node)
    decreases |s.tokens| - c.position, 2
  {
    var unaryPrecedence := s.facts.unaryPrecedence(s.tokens[c.position].kind);
    if unaryPrecedence != 0 && unaryPrecedence >= parent {
      BinaryShape(s, Cursor(c.position + 1, c.diagnostics), unaryPrecedence);
    } else {
      PrimaryShape(s, c);
    }
  }

  /** Where the operator loop may start or go on: an operand above the
      parent, and a current operator that binds no tighter than the
      operand's own operator, if it has one. */
  ghost predicate TailReady(s: TokenStream, left: ExpressionSyntax, parent: nat, c: Cursor)
  {
    && s.Valid() && c.position < |s.tokens| && OperandAbove(s.facts, left, parent)
    && var p := s.Precedence(s.tokens[c.position]);
      left.BinaryExpression? && p > parent ==> p <= s.facts.binaryPrecedence(left.operatorToken.kind)
  }

  /** The operator loop keeps the tree shaped: operators of equal
      precedence nest to the left, tighter ones to the right. */
  lemma {:induction false} TailShape(s: TokenStream, left: ExpressionSyntax, parent: nat, c: Cursor)
    requires TailReady(s, left, parent, c)
    ensures OperandAbove(s.facts, BinaryTail(s, left, parent, c).node, parent)
    decreases |s.tokens| - c.position, 1
  {
    var op := s.tokens[c.position];
    var precedence := s.Precedence(op);
    if precedence != 0 && precedence > parent {
      var right := BinaryAt(s, Cursor(c.position + 1, c.diagnostics), precedence);
      BinaryShape(s, Cursor(c.position + 1, c.diagnostics), precedence);
      var combined := BinaryExpression(left, op, right.node);
      assert Shaped(s.facts, combined);
      TailShape(s, combined, parent, right.cursor);
    }
  }

  lemma {:induction false} PrimaryShape(s: TokenStream, c: Cursor)
    requires s.Valid() && c.position < |s.tokens|
    ensures Shaped(s.facts, PrimaryAt(s, c).node)
    decreases |s.tokens| - c.position, 0
  {
    if s.tokens[c.position].kind == OpenParenthesisToken {
      ExpressionShape(s, Cursor(c.position + 1, c.diagnostics));
    }
  }

  // Token preservation.

  /** A slice between two tokens: the first, the ones between, the last. */
  lemma Bracketed(tokens: seq<SyntaxToken>, i: nat, j: nat)
    requires i <= j < |tokens|
    ensures tokens[i..j + 1] == tokens[i..j] + [tokens[j]]
    ensures i < j ==> tokens[i..j + 1] == [tokens[i]] + tokens[i + 1..j] + [tokens[j]]
    ensures j == |tokens| - 1 ==> tokens[i..] == tokens[i..j] + [tokens[j]]
  {
  }

  /** In a well-ended array, end of file is the last token only. */
  lemma OnlyLastEnds(tokens: seq<SyntaxToken>, i: nat)
    requires WellEnded(tokens) && i < |tokens| && tokens[i].kind == EndOfFileToken
    ensures i == |tokens| - 1
  {
  }

  /** No diagnostic is added by a parse when none is added by its last
      step and every step only appends. */
  lemma Unreported(a: Cursor, b: Cursor, c: Cursor)
    requires Advanced(a, b) && Advanced(b, c) && c.diagnostics == a.diagnostics
    ensures b.diagnostics == a.diagnostics
  {
  }

  /** What a parse that reports nothing consumes is its tree's tokens:
      the tree, read left to right, is the token array between the cursors,
      so no token is dropped, repeated or made up. */
  lemma {:induction false} ExpressionTokens(s: TokenStream, c: Cursor)
    requires s.Valid() && c.position < |s.tokens|
    ensures var r := ExpressionAt(s, c);
      r.cursor.diagnostics == c.diagnostics ==> Flatten(r.node) == s.tokens[c.position..r.cursor.position]
    decreases |s.tokens| - c.position, 6
  {
    AssignmentTokens(s, c);
  }

  lemma {:induction false} AssignmentTokens(s: TokenStream, c: Cursor)
    requires s.Valid() && c.position < |s.tokens|
    ensures var r := AssignmentAt(s, c);
      r.cursor.diagnostics == c.diagnostics ==> Flatten(r.node) == s.tokens[c.position..r.cursor.position]
    decreases |s.tokens| - c.position, 5
  {
    if s.Peek(c.position, 0).kind == IdentifierToken && s.Peek(c.position, 1).kind == EqualsToken {
      var inner := Cursor(c.position + 2, c.diagnostics);
      var right := AssignmentAt(s, inner);
      AssignmentTokens(s, inner);
      if right.cursor.diagnostics == c.diagnostics {
        SliceCons(s.tokens, c.position + 1, right.cursor.position);
        SliceCons(s.tokens, c.position, right.cursor.position);
      }
    } else {
      BinaryTokens(s, c, 0);
    }
  }

  lemma {:induction false} BinaryTokens(s: TokenStream, c: Cursor, parent: nat)
    requires s.Valid() && c.position < |s.tokens|
    ensures var r := BinaryAt(s, c, parent);
      r.cursor.diagnostics == c.diagnostics ==> Flatten(r.node) == s.tokens[c.position..r.cursor.position]
    decreases |s.tokens| - c.position, 4
  {
    var r := BinaryAt(s, c, parent);
    var operand := OperandAt(s, c, parent);
    if r.cursor.diagnostics == c.diagnostics {
      OperandTokens(s, c, parent);
      TailTokens(s, operand.node, parent, operand.cursor);
      Unreported(c, operand.cursor, r.cursor);
      SliceSplit(s.tokens, c.position, operand.cursor.position, r.cursor.position);
    }
  }

  lemma {:induction false} OperandTokens(s: TokenStream, c: Cursor, parent: nat)
    requires s.Valid() && c.position < |s.tokens|
    ensures var r := OperandAt(s, c, parent);
      r.cursor.diagnostics == c.diagnostics ==> Flatten(r.node) == s.tokens[c.position..r.cursor.position]
    decreases |s.tokens| - c.position, 3
  {
    var unaryPrecedence := s.facts.unaryPrecedence(s.tokens[c.position].kind);
    if unaryPrecedence != 0 && unaryPrecedence >= parent {
      var inner := Cursor(c.position + 1, c.diagnostics);
      var operand := BinaryAt(s, inner, unaryPrecedence);
      BinaryTokens(s, inner, unaryPrecedence);
      SliceCons(s.tokens, c.position, operand.cursor.position);
    } else {
      PrimaryTokens(s, c);
    }
  }

  lemma {:induction false} TailTokens(s: TokenStream, left: ExpressionSyntax, parent: nat, c: Cursor)
    requires s.Valid() && c.position < |s.tokens|
    ensures var r := BinaryTail(s, left, parent, c);
      r.cursor.diagnostics == c.diagnostics ==> Flatten(r.node) == Flatten(left) + s.tokens[c.position..r.cursor.position]
    decreases |s.tokens| - c.position, 2
  {
    var precedence := s.Precedence(s.tokens[c.position]);
    if precedence != 0 && precedence > parent {
      OperatorTokens(s, left, parent, c);
    } else {
      assert s.tokens[c.position..c.position] == [];
    }
  }

  lemma {:induction false} OperatorTokens(s: TokenStream, left: ExpressionSyntax, parent: nat, c: Cursor)
    requires s.Valid() && c.position < |s.tokens|
    requires var p := s.Precedence(s.tokens[c.position]); p != 0 && p > parent
    ensures var r := BinaryTail(s, left, parent, c);
      r.cursor.diagnostics == c.diagnostics ==> Flatten(r.node) == Flatten(left) + s.tokens[c.position..r.cursor.position]
    decreases |s.tokens| - c.position, 1
  {
    var r := BinaryTail(s, left, parent, c);
    var op := s.tokens[c.position];
    var inner := Cursor(c.position + 1, c.diagnostics);
    var right := BinaryAt(s, inner, s.Precedence(op));
    var combined := BinaryExpression(left, op, right.node);
    assert r == BinaryTail(s, combined, parent, right.cursor);
    if r.cursor.diagnostics == c.diagnostics {
      BinaryTokens(s, inner, s.Precedence(op));
      TailTokens(s, combined, parent, right.cursor);
      Unreported(c, right.cursor, r.cursor);
      assert Flatten(combined) == Flatten(left) + [op] + Flatten(right.node);
      Glue(s.tokens, c.position, right.cursor.position, r.cursor.position, Flatten(left), Flatten(right.node), Flatten(r.node));
    }
  }

  lemma {:induction false} PrimaryTokens(s: TokenStream, c: Cursor)
    requires s.Valid() && c.position < |s.tokens|
    ensures var r := PrimaryAt(s, c);
      r.cursor.diagnostics == c.diagnostics ==> Flatten(r.node) == s.tokens[c.position..r.cursor.position]
    decreases |s.tokens| - c.position, 1
  {
    var current := s.tokens[c.position];
    if current.kind == OpenParenthesisToken {
      ParenthesizedTokens(s, c);
    } else {
      assert s.tokens[c.position..c.position + 1] == [current];
    }
  }

  /** The parenthesised case of PrimaryTokens. */
  lemma {:induction false} ParenthesizedTokens(s: TokenStream, c: Cursor)
    requires s.Valid() && c.position < |s.tokens| && s.tokens[c.position].kind == OpenParenthesisToken
    ensures var r := PrimaryAt(s, c);
      r.cursor.diagnostics == c.diagnostics ==> Flatten(r.node) == s.tokens[c.position..r.cursor.position]
    decreases |s.tokens| - c.position, 0
  {
    var open := Cursor(c.position + 1, c.diagnostics);
    var inner := ExpressionAt(s, open);
    var close := MatchAt(s, inner.cursor, CloseParenthesisToken);
    var r := PrimaryAt(s, c);
    assert r == Parsed(ParenthesizedExpression(s.tokens[c.position], inner.node, close.token), close.cursor);
    if close.cursor.diagnostics == c.diagnostics {
      Unreported(c, inner.cursor, close.cursor);
      ExpressionTokens(s, open);
      assert Flatten(inner.node) == s.tokens[c.position + 1..inner.cursor.position];
      assert close.token == s.tokens[inner.cursor.position] && close.cursor.position == inner.cursor.position + 1;
      Enclosed(s.tokens, c.position, inner.cursor.position, Flatten(inner.node), close.token);
      assert Flatten(r.node) == [s.tokens[c.position]] + Flatten(inner.node) + [close.token];
    }
  }

  /** Parse: the tree is shaped by precedence, ends in a token of kind end
      of file, and, when nothing was reported, its tokens followed by the
      end-of-file token are all the tokens from the start. */
  lemma ParseWhole(s: TokenStream, c: Cursor)
    requires s.Valid() && WellEnded(s.tokens) && c.position < |s.tokens|
    ensures var r := ParseAt(s, c);
      && Shaped(s.facts, r.expression) && r.endOfFileToken.kind == EndOfFileToken
      && c.diagnostics <= r.diagnostics
      && (r.diagnostics == c.diagnostics ==> Flatten(r.expression) + [r.endOfFileToken] == s.tokens[c.position..])
  {
    var e := ExpressionAt(s, c);
    ExpressionShape(s, c);
    ExpressionTokens(s, c);
    var eof := MatchAt(s, e.cursor, EndOfFileToken);
    if eof.cursor.diagnostics == c.diagnostics {
      Unreported(c, e.cursor, eof.cursor);
      OnlyLastEnds(s.tokens, e.cursor.position);
      Bracketed(s.tokens, c.position, e.cursor.position);
    }
  }

  /** An expression is an assignment exactly when it starts with an
      identifier followed by `=`; its target is that identifier and its
      right side the assignment expression after the `=`, so assignment
      associates to the right. */
  lemma AssignmentExactly(s: TokenStream, c: Cursor)
    requires s.Valid() && c.position < |s.tokens|
    ensures var r := AssignmentAt(s, c);
      && (r.node.AssignmentExpression? <==>
            s.Peek(c.position, 0).kind == IdentifierToken && s.Peek(c.position, 1).kind == EqualsToken)
      && (r.node.AssignmentExpression? ==>
            && r.node.identifier == s.tokens[c.position] && r.node.equalsToken == s.tokens[c.position + 1]
            && Parsed(r.node.expression, r.cursor) == AssignmentAt(s, Cursor(c.position + 2, c.diagnostics)))
  {
    if !(s.Peek(c.position, 0).kind == IdentifierToken && s.Peek(c.position, 1).kind == EqualsToken) {
      var operand := OperandAt(s, c, 0);
      TailKeepsAssignmentsOut(s, operand.node, 0, operand.cursor);
    }
  }

  /** The operator loop yields its left operand or a binary expression. */
  lemma {:induction false} TailKeepsAssignmentsOut(s: TokenStream, left: ExpressionSyntax, parent: nat, c: Cursor)
    requires s.Valid() && c.position < |s.tokens| && !left.AssignmentExpression?
    ensures !BinaryTail(s, left, parent, c).node.AssignmentExpression?
    decreases |s.tokens| - c.position
  {
    var op := s.tokens[c.position];
    var precedence := s.Precedence(op);
    if precedence != 0 && precedence > parent {
      var right := BinaryAt(s, Cursor(c.position + 1, c.diagnostics), precedence);
      TailKeepsAssignmentsOut(s, BinaryExpression(left, op, right.node), parent, right.cursor);
    }
  }

  /** One turn of the constructor's loop: lex a token and keep it unless
      it is whitespace or bad; done once it is end of file. */
  method CollectToken(lexer: Lexer, list: seq<SyntaxToken>) returns (list': seq<SyntaxToken>, done: bool)
    requires lexer.Valid() && lexer.facts.Valid()
    modifies lexer
    ensures lexer.Valid() && old(lexer.position) <= lexer.position
    ensures !done ==> old(lexer.position) < lexer.position
    ensures var text := lexer.source.text;
      Join(Lexed(list, old(lexer.diagnostics)), TokensFrom(text, lexer.facts, lexer.chars, old(lexer.position)))
      == if done then Lexed(list', lexer.diagnostics)
         else Join(Lexed(list', lexer.diagnostics), TokensFrom(text, lexer.facts, lexer.chars, lexer.position))
  {
    ghost var step := LexAt(lexer.source.text, lexer.facts, lexer.chars, lexer.position);
    TokensStep(lexer.source.text, lexer.facts, lexer.chars, lexer.position, Lexed(list, lexer.diagnostics));
    LexEndOfFile(lexer.source.text, lexer.facts, lexer.chars, lexer.position);
    ghost var before := Lexed(list, lexer.diagnostics);
    var token := lexer.Lex();
    assert token == step.token && lexer.position == step.next;
    assert lexer.diagnostics == before.diagnostics + step.diagnostics;
    list' := list;
    if token.kind != WhitespaceToken && token.kind != BadToken {
      list' := list + [token];
    }
    assert list' == before.tokens + (if Kept(step.token) then [step.token] else []);
    done := token.kind == EndOfFileToken;
  }

  /** The constructor's lexing loop: lex until end of file, keeping all
      tokens but whitespace and bad ones, with the lexer's diagnostics. */
  method LexAll(text: SourceText, facts: SyntaxFacts, chars: CharClass) returns (lexed: Lexed)
    requires chars.Valid() && facts.Valid()
    ensures lexed == TokensFrom(text.text, facts, chars, 0)
  {
    var list: seq<SyntaxToken> := [];
    var lexer := new Lexer(text, facts, chars);
    var done := false;
    ghost var all := TokensFrom(text.text, facts, chars, 0);
    assert Join(Lexed([], []), all) == all;
    while !done
      invariant lexer.Valid() && lexer.source == text && lexer.facts == facts && lexer.chars == chars
      invariant Collected(text.text, facts, chars, Lexed(list, lexer.diagnostics), lexer.position, done)
      decreases if done then 0 else 1, |text.text| - lexer.position
    {
      list, done := CollectToken(lexer, list);
    }
    lexed := Lexed(list, lexer.diagnostics);
  }

  class Parser {
    const tokens: seq<SyntaxToken>
    const facts: SyntaxFacts
    var position: nat
    var diagnostics: seq<Diagnostic>

    function Stream(): TokenStream { TokenStream(tokens, facts) }

    function At(): Cursor reads this { Cursor(position, diagnostics) }

    ghost predicate Valid() reads this { Stream().Valid() && position <= |tokens| }

    /** The constructor: lexes the text to its end, keeping all tokens but
        whitespace and bad ones, and takes over the lexer's diagnostics. */
    constructor (text: SourceText, facts: SyntaxFacts, chars: CharClass)
      requires chars.Valid() && facts.Valid()
      ensures Valid() && WellEnded(tokens) && position == 0 && this.facts == facts
      ensures Lexed(tokens, diagnostics) == TokensFrom(text.text, facts, chars, 0)
    {
      var lexed := LexAll(text, facts, chars);
      StreamOfText(text.text, facts, chars);
      tokens := lexed.tokens;
      this.facts := facts;
      position := 0;
      diagnostics := lexed.diagnostics;
    }

    /** Peek: the token `offset` places ahead; the last token past the end. */
    function Peek(offset: nat): (t: SyntaxToken)
      requires |tokens| >= 1
      reads this
      ensures position + offset < |tokens| ==> t == tokens[position + offset]
      ensures position + offset >= |tokens| ==> t == tokens[|tokens| - 1]
    {
      Stream().Peek(position, offset)
    }

    function Current(): SyntaxToken requires |tokens| >= 1 reads this { Peek(0) }

    /** NextToken: the current token, and one step on. */
    method NextToken() returns (t: SyntaxToken)
      requires Valid()
      modifies this
      ensures t == old(Current()) && position == old(position) + 1 && diagnostics == old(diagnostics)
    {
      t := Current();
      position := position + 1;
    }

    /** MatchToken: consumes the current token when it has the kind, and
        otherwise reports it and makes up a missing token of the kind. */
    method MatchToken(kind: SyntaxKind) returns (t: SyntaxToken)
      requires Valid() && position < |tokens|
      modifies this
      ensures Matched(t, At()) == MatchAt(Stream(), old(At()), kind)
    {
      if Current().kind == kind {
        t := NextToken();
        return;
      }
      diagnostics := diagnostics + [Diagnostic(Current().Span(), UnexpectedToken(Current().kind, kind))];
      t := SyntaxToken(kind, Current().position, None, NoValue);
    }

    method Parse() returns (r: ParsedText)
      requires Valid() && position < |tokens|
      modifies this
      ensures r == ParseAt(Stream(), old(At()))
    {
      var expression := ParseExpression();
      var endOfFileToken := MatchToken(EndOfFileToken);
      r := ParsedText(diagnostics, expression, endOfFileToken);
    }

    method ParseExpression() returns (e: ExpressionSyntax)
      requires Valid() && position < |tokens|
      modifies this
      ensures Parsed(e, At()) == ExpressionAt(Stream(), old(At()))
      decreases |tokens| - position, 6
    {
      e := ParseAssignmentExpression();
    }

    method ParseAssignmentExpression() returns (e: ExpressionSyntax)
      requires Valid() && position < |tokens|
      modifies this
      ensures Parsed(e, At()) == AssignmentAt(Stream(), old(At()))
      decreases |tokens| - position, 5
    {
      if Peek(0).kind == IdentifierToken && Peek(1).kind == EqualsToken {
        var identifierToken := NextToken();
        var operatorToken := NextToken();
        var right := ParseAssignmentExpression();
        PresentAt(tokens, old(position));
        return AssignmentExpression(identifierToken, operatorToken, right);
      }
      e := ParseBinaryExpression(0);
    }

    method ParseBinaryExpression(parentPrecedence: nat) returns (e: ExpressionSyntax)
      requires Valid() && position < |tokens|
      modifies this
      ensures Parsed(e, At()) == BinaryAt(Stream(), old(At()), parentPrecedence)
      decreases |tokens| - position, 4
    {
      ghost var whole := BinaryAt(Stream(), At(), parentPrecedence);
      var left := ParseUnaryOrPrimary(parentPrecedence);
      while true
        invariant Valid() && old(position) <= position < |tokens|
        invariant whole == BinaryTail(Stream(), left, parentPrecedence, At())
        decreases |tokens| - position
      {
        var precedence := facts.binaryPrecedence(Current().kind);
        if precedence == 0 || precedence <= parentPrecedence {
          assert whole == Parsed(left, At());
          break;
        }
        left := ParseBinaryOperand(left, parentPrecedence);
      }
      e := left;
    }

    /** One turn of ParseBinaryExpression's loop: the operator, then the
        right operand parsed at the operator's precedence, combined with
        the expression so far; the rest of the loop is unchanged by it. */
    method ParseBinaryOperand(left: ExpressionSyntax, parentPrecedence: nat) returns (e: ExpressionSyntax)
      requires Valid() && position < |tokens|
      requires var p := facts.binaryPrecedence(Current().kind); p != 0 && p > parentPrecedence
      modifies this
      ensures Valid() && old(position) < position < |tokens|
      ensures BinaryTail(Stream(), left, parentPrecedence, old(At())) == BinaryTail(Stream(), e, parentPrecedence, At())
      decreases |tokens| - position, 3
    {
      ghost var before := At();
      var precedence := facts.binaryPrecedence(Current().kind);
      var operatorToken := NextToken();
      assert operatorToken == tokens[before.position];
      var right := ParseBinaryExpression(precedence);
      assert Parsed(right, At()) == BinaryAt(Stream(), Cursor(before.position + 1, before.diagnostics), precedence);
      e := BinaryExpression(left, operatorToken, right);
    }

    /** The start of ParseBinaryExpression: a prefix operator applied to an
        operand, or a primary expression. */
    method ParseUnaryOrPrimary(parentPrecedence: nat) returns (e: ExpressionSyntax)
      requires Valid() && position < |tokens|
      modifies this
      ensures Parsed(e, At()) == OperandAt(Stream(), old(At()), parentPrecedence)
      decreases |tokens| - position, 2
    {
      var unaryOperatorPrecedence := facts.unaryPrecedence(Current().kind);
      if unaryOperatorPrecedence != 0 && unaryOperatorPrecedence >= parentPrecedence {
        var operatorToken := NextToken();
        var operand := ParseBinaryExpression(unaryOperatorPrecedence);
        e := UnaryExpression(operatorToken, operand);
      } else {
        e := ParsePrimaryExpression();
      }
    }

    /** The parenthesised branch of ParsePrimaryExpression: the open
        parenthesis, an expression, and a matched close parenthesis. */
    method ParseParenthesized() returns (e: ExpressionSyntax)
      requires Valid() && position < |tokens| && Current().kind == OpenParenthesisToken
      modifies this
      ensures Parsed(e, At()) == PrimaryAt(Stream(), old(At()))
      decreases |tokens| - position, 0
    {
      var left := NextToken();
      var expression := ParseExpression();
      var right := MatchToken(CloseParenthesisToken);
      e := ParenthesizedExpression(left, expression, right);
    }

    method ParsePrimaryExpression() returns (e: ExpressionSyntax)
      requires Valid() && position < |tokens|
      modifies this
      ensures Parsed(e, At()) == PrimaryAt(Stream(), old(At()))
      decreases |tokens| - position, 1
    {
      var current := Current();
      if current.kind == OpenParenthesisToken {
        e := ParseParenthesized();
        return;
      } else if current.kind == TrueKeyword || current.kind == FalseKeyword {
        var keywordToken := NextToken();
        var value := keywordToken.kind == TrueKeyword;
        return LiteralExpression(keywordToken, BoolValue(value));
      } else if current.kind == IdentifierToken {
        var identifierToken := NextToken();
        return NameExpression(identifierToken);
      }
      var numberToken := MatchToken(NumberToken);
      e := LiteralExpression(numberToken, numberToken.value);
    }
  }
}
