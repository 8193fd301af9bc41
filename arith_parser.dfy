// The arithmetic calculator's parser: lexes the whole text into an array of
// tokens up front, then parses terms of factors of primary expressions by
// recursive descent. Its state is the position in the array and the
// diagnostics.
module ArithmeticParser {
  import opened Wrappers
  import opened CharClasses
  import opened Slices
  import opened ArithmeticSyntax
  import opened ArithmeticLexer

  /** The tokens the parser keeps: all but whitespace and bad tokens. */
  predicate Kept(t: SyntaxToken)
  {
    t.kind != WhitespaceToken && t.kind != BadToken
  }

  /** The tokens of a sequence that are kept, in order. */
  function Keep(ts: seq<SyntaxToken>): (r: seq<SyntaxToken>)
    ensures forall i :: 0 <= i < |r| ==> Kept(r[i])
    ensures |r| <= |ts|
  {
    if ts == [] then [] else (if Kept(ts[0]) then [ts[0]] else []) + Keep(ts[1..])
  }

  /** The parser's token array: kept tokens ending in the only end-of-file
      token. */
  ghost predicate WellEnded(tokens: seq<SyntaxToken>)
  {
    && |tokens| >= 1 && tokens[|tokens| - 1].kind == EndOfFileToken
    && (forall i :: 0 <= i < |tokens| - 1 ==> tokens[i].kind != EndOfFileToken)
    && (forall i :: 0 <= i < |tokens| ==> Kept(tokens[i]))
  }

  lemma WellEndedCons(t: SyntaxToken, rest: seq<SyntaxToken>)
    requires WellEnded(rest) && Kept(t) && t.kind != EndOfFileToken
    ensures WellEnded([t] + rest)
  {
    var all := [t] + rest;
    assert forall i :: 1 <= i < |all| ==> all[i] == rest[i - 1];
  }

  datatype Lexed = Lexed(tokens: seq<SyntaxToken>, diagnostics: seq<Diagnostic>)

  /** What the constructor's loop collects from position p on: the kept
      tokens up to and including end of file, and the lexer's diagnostics. */
  function TokensFrom(text: string, chars: CharClass, p: nat): (r: Lexed)
    requires chars.Valid() && p <= |text|
    decreases |text| - p
  {
    var step := NextTokenAt(text, chars, p);
    if step.token.kind == EndOfFileToken then Lexed([step.token], step.diagnostics)
    else
      var rest := TokensFrom(text, chars, step.next);
      Lexed((if Kept(step.token) then [step.token] else []) + rest.tokens, step.diagnostics + rest.diagnostics)
  }

  /** The collected tokens are the lexer's tokens without whitespace and
      bad ones, and they end well. */
  lemma {:induction false} TokensAreKept(text: string, chars: CharClass, p: nat)
    requires chars.Valid() && p <= |text|
    ensures var all := AllTokensFrom(text, chars, p);
      TokensFrom(text, chars, p) == Lexed(Keep(all.0), all.1)
    ensures WellEnded(TokensFrom(text, chars, p).tokens)
    decreases |text| - p
  {
    var step := NextTokenAt(text, chars, p);
    if step.token.kind == EndOfFileToken {
      assert Keep([step.token]) == [step.token] + Keep([]);
    } else {
      var rest := TokensFrom(text, chars, step.next);
      TokensAreKept(text, chars, step.next);
      var all := AllTokensFrom(text, chars, step.next);
      assert ([step.token] + all.0)[1..] == all.0;
      if Kept(step.token) {
        WellEndedCons(step.token, rest.tokens);
      } else {
        assert [] + rest.tokens == rest.tokens;
      }
    }
  }

  function Join(a: Lexed, b: Lexed): Lexed
  {
    Lexed(a.tokens + b.tokens, a.diagnostics + b.diagnostics)
  }

  lemma JoinAssociates(a: Lexed, b: Lexed, c: Lexed)
    ensures Join(a, Join(b, c)) == Join(Join(a, b), c)
  {
    assert a.tokens + (b.tokens + c.tokens) == (a.tokens + b.tokens) + c.tokens;
    assert a.diagnostics + (b.diagnostics + c.diagnostics) == (a.diagnostics + b.diagnostics) + c.diagnostics;
  }

  /** One step of the constructor's loop, in terms of what is collected:
      a token other than end of file is kept or dropped and lexing goes on
      after it. */
  lemma TokensStep(text: string, chars: CharClass, p: nat, done: Lexed)
    requires chars.Valid() && p < |text|
    ensures var step := NextTokenAt(text, chars, p);
      Join(done, TokensFrom(text, chars, p))
      == Join(Lexed(done.tokens + (if Kept(step.token) then [step.token] else []), done.diagnostics + step.diagnostics),
              TokensFrom(text, chars, step.next))
  {
    var step := NextTokenAt(text, chars, p);
    JoinAssociates(done, Lexed(if Kept(step.token) then [step.token] else [], step.diagnostics),
      TokensFrom(text, chars, step.next));
  }

  /** The constructor loop's invariant: what is collected, joined with what
      lexing on from the position gives, is the whole result; once end of
      file is read, what is collected is. */
  ghost predicate Collected(text: string, chars: CharClass, collected: Lexed, p: nat, done: bool)
    requires chars.Valid() && p <= |text|
  {
    if done then TokensFrom(text, chars, 0) == collected
    else TokensFrom(text, chars, 0) == Join(collected, TokensFrom(text, chars, p))
  }

  /** One turn of the constructor's loop: lex a token and keep it unless it
      is whitespace or bad; done once it is end of file. */
  method CollectToken(lexer: Lexer, list: seq<SyntaxToken>) returns (list': seq<SyntaxToken>, done: bool)
    requires lexer.Valid()
    modifies lexer
    ensures lexer.Valid() && old(lexer.position) <= lexer.position
    ensures !done ==> old(lexer.position) < lexer.position
    ensures Join(Lexed(list, old(lexer.diagnostics)), TokensFrom(lexer.text, lexer.chars, old(lexer.position)))
      == if done then Lexed(list', lexer.diagnostics)
         else Join(Lexed(list', lexer.diagnostics), TokensFrom(lexer.text, lexer.chars, lexer.position))
  {
    ghost var step := NextTokenAt(lexer.text, lexer.chars, lexer.position);
    ghost var before := Lexed(list, lexer.diagnostics);
    if lexer.position < |lexer.text| {
      TokensStep(lexer.text, lexer.chars, lexer.position, before);
    }
    var token := lexer.NextToken();
    assert token == step.token && lexer.position == step.next;
    assert lexer.diagnostics == before.diagnostics + step.diagnostics;
    list' := list;
    if token.kind != WhitespaceToken && token.kind != BadToken {
      list' := list + [token];
    }
    assert list' == before.tokens + (if Kept(step.token) then [step.token] else []);
    done := token.kind == EndOfFileToken;
  }

  // Parsing, as functions of the token array and a cursor.

  /** An array the parser can work on: it ends in end of file. */
  ghost predicate Ended(tokens: seq<SyntaxToken>)
  {
    |tokens| >= 1 && tokens[|tokens| - 1].kind == EndOfFileToken
  }

  /** Peek: the token `offset` places ahead, or the last one past the end. */
  function PeekAt(tokens: seq<SyntaxToken>, position: nat, offset: nat): (t: SyntaxToken)
    requires |tokens| >= 1
    ensures position + offset < |tokens| ==> t == tokens[position + offset]
    ensures position + offset >= |tokens| ==> t == tokens[|tokens| - 1]
  {
    if position + offset >= |tokens| then tokens[|tokens| - 1] else tokens[position + offset]
  }

  /** The parser's position and the diagnostics it has reported. */
  datatype Cursor = Cursor(position: nat, diagnostics: seq<Diagnostic>)

  /** A cursor that has not gone back and has only added diagnostics. */
  predicate Advanced(c: Cursor, c': Cursor)
  {
    c.position <= c'.position && c.diagnostics <= c'.diagnostics
  }

  datatype Parsed = Parsed(node: ExpressionSyntax, cursor: Cursor)

  datatype Matched = Matched(token: SyntaxToken, cursor: Cursor)

  predicate IsTermOperator(k: SyntaxKind) { k == PlusToken || k == MinusToken }

  predicate IsFactorOperator(k: SyntaxKind) { k == StarToken || k == SlashToken }

  /** Match: the current token when it has the kind, and one step on;
      otherwise one unexpected-token diagnostic and a made-up token of the
      kind at the current token's position, without moving. */
  function MatchAt(ts: seq<SyntaxToken>, c: Cursor, kind: SyntaxKind): (r: Matched)
    requires Ended(ts) && c.position < |ts|
    ensures r.token.kind == kind && Advanced(c, r.cursor)
    ensures ts[c.position].kind == kind ==> r.token == ts[c.position] && r.cursor == Cursor(c.position + 1, c.diagnostics)
    ensures ts[c.position].kind != kind ==>
      && r.token == SyntaxToken(kind, ts[c.position].position, None, None) && r.cursor.position == c.position
      && r.cursor.diagnostics == c.diagnostics + [UnexpectedToken(ts[c.position].kind, kind)]
    ensures kind != EndOfFileToken ==> r.cursor.position < |ts|
  {
    var current := ts[c.position];
    if current.kind == kind then Matched(current, Cursor(c.position + 1, c.diagnostics))
    else Matched(SyntaxToken(kind, current.position, None, None), Cursor(c.position, c.diagnostics + [UnexpectedToken(current.kind, kind)]))
  }

  /** ParserTerm: a factor, then any number of `+ factor` or `- factor`. */
  function TermAt(ts: seq<SyntaxToken>, c: Cursor): (r: Parsed)
    requires Ended(ts) && c.position < |ts|
    ensures Advanced(c, r.cursor) && r.cursor.position < |ts|
    ensures !IsTermOperator(ts[r.cursor.position].kind)
    decreases |ts| - c.position, 3
  {
    var factor := FactorAt(ts, c);
    TermTail(ts, factor.node, factor.cursor)
  }

  /** The loop of ParserTerm: while the current token is + or -, combine
      the term so far with the next factor. */
  function TermTail(ts: seq<SyntaxToken>, left: ExpressionSyntax, c: Cursor): (r: Parsed)
    requires Ended(ts) && c.position < |ts|
    ensures Advanced(c, r.cursor) && r.cursor.position < |ts|
    ensures !IsTermOperator(ts[r.cursor.position].kind)
    decreases |ts| - c.position, 2
  {
    var op := ts[c.position];
    if !IsTermOperator(op.kind) then Parsed(left, c)
    else
      var right := FactorAt(ts, Cursor(c.position + 1, c.diagnostics));
      TermTail(ts, BinaryExpression(left, op, right.node), right.cursor)
  }

  /** ParserFactor: a primary expression, then any number of `* primary`
      or `/ primary`. */
  function FactorAt(ts: seq<SyntaxToken>, c: Cursor): (r: Parsed)
    requires Ended(ts) && c.position < |ts|
    ensures Advanced(c, r.cursor) && r.cursor.position < |ts|
    ensures !IsFactorOperator(ts[r.cursor.position].kind)
    decreases |ts| - c.position, 1
  {
    var primary := PrimaryAt(ts, c);
    FactorTail(ts, primary.node, primary.cursor)
  }

  /** The loop of ParserFactor. */
  function FactorTail(ts: seq<SyntaxToken>, left: ExpressionSyntax, c: Cursor): (r: Parsed)
    requires Ended(ts) && c.position < |ts|
    ensures Advanced(c, r.cursor) && r.cursor.position < |ts|
    ensures !IsFactorOperator(ts[r.cursor.position].kind)
    decreases |ts| - c.position, 0
  {
    var op := ts[c.position];
    if !IsFactorOperator(op.kind) then Parsed(left, c)
    else
      var right := PrimaryAt(ts, Cursor(c.position + 1, c.diagnostics));
      FactorTail(ts, BinaryExpression(left, op, right.node), right.cursor)
  }
  /** One turn of ParserTerm's loop: past a + or - there is a token, and
      the rest of the loop goes on from the tree with the next factor. */
  lemma TermStep(ts: seq<SyntaxToken>, left: ExpressionSyntax, c: Cursor)
    requires Ended(ts) && c.position < |ts| && IsTermOperator(ts[c.position].kind)
    ensures c.position + 1 < |ts|
    ensures var right := FactorAt(ts, Cursor(c.position + 1, c.diagnostics));
      TermTail(ts, left, c) == TermTail(ts, BinaryExpression(left, ts[c.position], right.node), right.cursor)
  {
  }

  /** One turn of ParserFactor's loop, in the same way. */
  lemma FactorStep(ts: seq<SyntaxToken>, left: ExpressionSyntax, c: Cursor)
    requires Ended(ts) && c.position < |ts| && IsFactorOperator(ts[c.position].kind)
    ensures c.position + 1 < |ts|
    ensures var right := PrimaryAt(ts, Cursor(c.position + 1, c.diagnostics));
      FactorTail(ts, left, c) == FactorTail(ts, BinaryExpression(left, ts[c.position], right.node), right.cursor)
  {
  }


  /** ParserPrimaryExpression: a parenthesised expression, or else a
      matched number, which may be missing. */
  function PrimaryAt(ts: seq<SyntaxToken>, c: Cursor): (r: Parsed)
    requires Ended(ts) && c.position < |ts|
    ensures Advanced(c, r.cursor) && r.cursor.position < |ts|
    ensures r.node.NumberExpression? || r.node.ParenthesizedExpression?
    decreases |ts| - c.position, 0
  {
    var current := ts[c.position];
    if current.kind == OpenParenthesisToken then
      var inner := TermAt(ts, Cursor(c.position + 1, c.diagnostics));
      var close := MatchAt(ts, inner.cursor, CloseParenthesisToken);
      Parsed(ParenthesizedExpression(current, inner.node, close.token), close.cursor)
    else
      var number := MatchAt(ts, c, NumberToken);
      Parsed(NumberExpression(number.token), number.cursor)
  }

  /** What Parse returns: the diagnostics, the expression and the matched
      end-of-file token. */
  datatype SyntaxTree = SyntaxTree(diagnostics: seq<Diagnostic>, root: ExpressionSyntax, endOfFileToken: SyntaxToken)

  /** Parse: a term, then a required end of file. */
  function ParseAt(ts: seq<SyntaxToken>, c: Cursor): SyntaxTree
    requires Ended(ts) && c.position < |ts|
  {
    var e := TermAt(ts, c);
    var eof := MatchAt(ts, e.cursor, EndOfFileToken);
    SyntaxTree(eof.cursor.diagnostics, e.node, eof.token)
  }

  // The shape of the trees.

  /** A primary: a number, or a parenthesised term. */
  ghost predicate PrimaryShaped(e: ExpressionSyntax)
    decreases e, 0
  {
    match e
    case NumberExpression(_) => true
    case ParenthesizedExpression(_, inner, _) => TermShaped(inner)
    case BinaryExpression(_, _, _) => false
  }

  /** A factor: primaries joined by * and /, nested to the left. */
  ghost predicate FactorShaped(e: ExpressionSyntax)
    decreases e, 1
  {
    PrimaryShaped(e)
    || (e.BinaryExpression? && IsFactorOperator(e.operatorToken.kind) && FactorShaped(e.left) && PrimaryShaped(e.right))
  }

  /** A term: factors joined by + and -, nested to the left; so * and /
      bind tighter than + and -, and operators of one level associate to
      the left. */
  ghost predicate TermShaped(e: ExpressionSyntax)
    decreases e, 2
  {
    FactorShaped(e)
    || (e.BinaryExpression? && IsTermOperator(e.operatorToken.kind) && TermShaped(e.left) && FactorShaped(e.right))
  }

  lemma {:induction false} TermShape(ts: seq<SyntaxToken>, c: Cursor)
    requires Ended(ts) && c.position < |ts|
    ensures TermShaped(TermAt(ts, c).node)
    decreases |ts| - c.position, 3
  {
    var factor := FactorAt(ts, c);
    FactorShape(ts, c);
    TermTailShape(ts, factor.node, factor.cursor);
  }

  lemma {:induction false} TermTailShape(ts: seq<SyntaxToken>, left: ExpressionSyntax, c: Cursor)
    requires Ended(ts) && c.position < |ts| && TermShaped(left)
    ensures TermShaped(TermTail(ts, left, c).node)
    decreases |ts| - c.position, 2
  {
    var op := ts[c.position];
    if IsTermOperator(op.kind) {
      var right := FactorAt(ts, Cursor(c.position + 1, c.diagnostics));
      FactorShape(ts, Cursor(c.position + 1, c.diagnostics));
      TermTailShape(ts, BinaryExpression(left, op, right.node), right.cursor);
    }
  }

  lemma {:induction false} FactorShape(ts: seq<SyntaxToken>, c: Cursor)
    requires Ended(ts) && c.position < |ts|
    ensures FactorShaped(FactorAt(ts, c).node)
    decreases |ts| - c.position, 1
  {
    var primary := PrimaryAt(ts, c);
    PrimaryShape(ts, c);
    FactorTailShape(ts, primary.node, primary.cursor);
  }

  lemma {:induction false} FactorTailShape(ts: seq<SyntaxToken>, left: ExpressionSyntax, c: Cursor)
    requires Ended(ts) && c.position < |ts| && FactorShaped(left)
    ensures FactorShaped(FactorTail(ts, left, c).node)
    decreases |ts| - c.position, 0
  {
    var op := ts[c.position];
    if IsFactorOperator(op.kind) {
      var right := PrimaryAt(ts, Cursor(c.position + 1, c.diagnostics));
      PrimaryShape(ts, Cursor(c.position + 1, c.diagnostics));
      FactorTailShape(ts, BinaryExpression(left, op, right.node), right.cursor);
    }
  }

  lemma {:induction false} PrimaryShape(ts: seq<SyntaxToken>, c: Cursor)
    requires Ended(ts) && c.position < |ts|
    ensures PrimaryShaped(PrimaryAt(ts, c).node)
    decreases |ts| - c.position, 0
  {
    if ts[c.position].kind == OpenParenthesisToken {
      TermShape(ts, Cursor(c.position + 1, c.diagnostics));
    }
  }

  // The tokens of the trees.

  /** No diagnostic is added by a parse when none is added by its last
      step and every step only appends. */
  lemma Unreported(a: Cursor, b: Cursor, c: Cursor)
    requires Advanced(a, b) && Advanced(b, c) && c.diagnostics == a.diagnostics
    ensures b.diagnostics == a.diagnostics
  {
  }

  /** What a term that reports nothing consumes is its tree's tokens: the
      tree, read left to right, is the token array between the two cursors,
      so no token is dropped, repeated or made up. */
  lemma {:induction false} TermTokens(ts: seq<SyntaxToken>, c: Cursor)
    requires Ended(ts) && c.position < |ts|
    ensures var r := TermAt(ts, c);
      r.cursor.diagnostics == c.diagnostics ==> Flatten(r.node) == ts[c.position..r.cursor.position]
    decreases |ts| - c.position, 3
  {
    var r := TermAt(ts, c);
    var factor := FactorAt(ts, c);
    if r.cursor.diagnostics == c.diagnostics {
      Unreported(c, factor.cursor, r.cursor);
      FactorTokens(ts, c);
      TermTailTokens(ts, factor.node, factor.cursor);
      SliceSplit(ts, c.position, factor.cursor.position, r.cursor.position);
    }
  }

  lemma {:induction false} TermTailTokens(ts: seq<SyntaxToken>, left: ExpressionSyntax, c: Cursor)
    requires Ended(ts) && c.position < |ts|
    ensures var r := TermTail(ts, left, c);
      r.cursor.diagnostics == c.diagnostics ==> Flatten(r.node) == Flatten(left) + ts[c.position..r.cursor.position]
    decreases |ts| - c.position, 2
  {
    var op := ts[c.position];
    if IsTermOperator(op.kind) {
      var r := TermTail(ts, left, c);
      var inner := Cursor(c.position + 1, c.diagnostics);
      var right := FactorAt(ts, inner);
      var combined := BinaryExpression(left, op, right.node);
      if r.cursor.diagnostics == c.diagnostics {
        Unreported(c, right.cursor, r.cursor);
        FactorTokens(ts, inner);
        TermTailTokens(ts, combined, right.cursor);
        assert r == TermTail(ts, combined, right.cursor);
        assert Flatten(combined) == Flatten(left) + [op] + Flatten(right.node);
        Glue(ts, c.position, right.cursor.position, r.cursor.position, Flatten(left), Flatten(right.node), Flatten(r.node));
      }
    } else {
      EmptySlice(ts, c.position);
    }
  }

  lemma {:induction false} FactorTokens(ts: seq<SyntaxToken>, c: Cursor)
    requires Ended(ts) && c.position < |ts|
    ensures var r := FactorAt(ts, c);
      r.cursor.diagnostics == c.diagnostics ==> Flatten(r.node) == ts[c.position..r.cursor.position]
    decreases |ts| - c.position, 1
  {
    var r := FactorAt(ts, c);
    var primary := PrimaryAt(ts, c);
    if r.cursor.diagnostics == c.diagnostics {
      Unreported(c, primary.cursor, r.cursor);
      PrimaryTokens(ts, c);
      FactorTailTokens(ts, primary.node, primary.cursor);
      SliceSplit(ts, c.position, primary.cursor.position, r.cursor.position);
    }
  }

  lemma {:induction false} FactorTailTokens(ts: seq<SyntaxToken>, left: ExpressionSyntax, c: Cursor)
    requires Ended(ts) && c.position < |ts|
    ensures var r := FactorTail(ts, left, c);
      r.cursor.diagnostics == c.diagnostics ==> Flatten(r.node) == Flatten(left) + ts[c.position..r.cursor.position]
    decreases |ts| - c.position, 0
  {
    var op := ts[c.position];
    if IsFactorOperator(op.kind) {
      var r := FactorTail(ts, left, c);
      var inner := Cursor(c.position + 1, c.diagnostics);
      var right := PrimaryAt(ts, inner);
      var combined := BinaryExpression(left, op, right.node);
      if r.cursor.diagnostics == c.diagnostics {
        Unreported(c, right.cursor, r.cursor);
        PrimaryTokens(ts, inner);
        FactorTailTokens(ts, combined, right.cursor);
        Glue(ts, c.position, right.cursor.position, r.cursor.position, Flatten(left), Flatten(right.node), Flatten(r.node));
      }
    } else {
      EmptySlice(ts, c.position);
    }
  }

  lemma {:induction false} PrimaryTokens(ts: seq<SyntaxToken>, c: Cursor)
    requires Ended(ts) && c.position < |ts|
    ensures var r := PrimaryAt(ts, c);
      r.cursor.diagnostics == c.diagnostics ==> Flatten(r.node) == ts[c.position..r.cursor.position]
    decreases |ts| - c.position, 0
  {
    var current := ts[c.position];
    var r := PrimaryAt(ts, c);
    if current.kind == OpenParenthesisToken {
      var open := Cursor(c.position + 1, c.diagnostics);
      var inner := TermAt(ts, open);
      var close := MatchAt(ts, inner.cursor, CloseParenthesisToken);
      if close.cursor.diagnostics == c.diagnostics {
        Unreported(c, inner.cursor, close.cursor);
        TermTokens(ts, open);
        Enclosed(ts, c.position, inner.cursor.position, Flatten(inner.node), close.token);
      }
    } else {
      SingleSlice(ts, c.position);
    }
  }

  /** A primary that is neither a parenthesis nor a number reports one
      unexpected token, and stands for a made-up number token at the
      current token's position without consuming it. */
  lemma MissingNumber(ts: seq<SyntaxToken>, c: Cursor)
    requires Ended(ts) && c.position < |ts|
    requires ts[c.position].kind != OpenParenthesisToken && ts[c.position].kind != NumberToken
    ensures var r := PrimaryAt(ts, c);
      && r.node == NumberExpression(SyntaxToken(NumberToken, ts[c.position].position, None, None))
      && r.cursor == Cursor(c.position, c.diagnostics + [UnexpectedToken(ts[c.position].kind, NumberToken)])
  {
  }

  /** Parse: the tree is a term, the last token has kind end of file, and
      when nothing was reported the tree's tokens and the end of file are
      all the tokens from the start. */
  lemma ParseWhole(ts: seq<SyntaxToken>, c: Cursor)
    requires WellEnded(ts) && c.position < |ts|
    ensures var r := ParseAt(ts, c);
      && TermShaped(r.root) && r.endOfFileToken.kind == EndOfFileToken && c.diagnostics <= r.diagnostics
      && (r.diagnostics == c.diagnostics ==> Flatten(r.root) + [r.endOfFileToken] == ts[c.position..])
  {
    var e := TermAt(ts, c);
    TermShape(ts, c);
    TermTokens(ts, c);
    var eof := MatchAt(ts, e.cursor, EndOfFileToken);
    if eof.cursor.diagnostics == c.diagnostics {
      Unreported(c, e.cursor, eof.cursor);
      assert e.cursor.position == |ts| - 1;
      LastOfSuffix(ts, c.position);
    }
  }

  class Parser {
    const tokens: seq<SyntaxToken>
    var position: nat
    var diagnostics: seq<Diagnostic>

    function At(): Cursor reads this { Cursor(position, diagnostics) }

    ghost predicate Valid() reads this { Ended(tokens) && position <= |tokens| }

    /** The constructor: lexes the text to its end, keeping all tokens but
        whitespace and bad ones, and takes over the lexer's diagnostics. */
    constructor (text: string, chars: CharClass)
      requires chars.Valid()
      ensures Valid() && WellEnded(tokens) && position == 0
      ensures Lexed(tokens, diagnostics) == TokensFrom(text, chars, 0)
    {
      var list: seq<SyntaxToken> := [];
      var lexer := new Lexer(text, chars);
      var done := false;
      while !done
        invariant lexer.Valid() && lexer.text == text && lexer.chars == chars
        invariant Collected(text, chars, Lexed(list, lexer.diagnostics), lexer.position, done)
        decreases if done then 0 else 1, |text| - lexer.position
      {
        list, done := CollectToken(lexer, list);
      }
      TokensAreKept(text, chars, 0);
      tokens := list;
      position := 0;
      diagnostics := lexer.diagnostics;
    }

    /** Peek: the token `offset` places ahead; the last token past the end. */
    function Peek(offset: nat): (t: SyntaxToken)
      requires |tokens| >= 1
      reads this
      ensures position + offset < |tokens| ==> t == tokens[position + offset]
      ensures position + offset >= |tokens| ==> t == tokens[|tokens| - 1]
    {
      PeekAt(tokens, position, offset)
    }

    function Current(): SyntaxToken requires |tokens| >= 1 reads this { Peek(0) }

    /** NextToken: the current token, and one step on. */
    method NextToken() returns (t: SyntaxToken)
      requires Valid()
      modifies this
      ensures t == old(Current()) && position == old(position) + 1 && diagnostics == old(diagnostics)
    {
      t := Current();
      position := position + 1;
    }

    /** Match: consumes the current token when it has the kind, and
        otherwise reports it and makes up a token of the kind. */
    method Match(kind: SyntaxKind) returns (t: SyntaxToken)
      requires Valid() && position < |tokens|
      modifies this
      ensures Matched(t, At()) == MatchAt(tokens, old(At()), kind)
    {
      if Current().kind == kind {
        t := NextToken();
        return;
      }
      diagnostics := diagnostics + [UnexpectedToken(Current().kind, kind)];
      t := SyntaxToken(kind, Current().position, None, None);
    }

    /** ParseExpression: a term. */
    method ParseExpression() returns (e: ExpressionSyntax)
      requires Valid() && position < |tokens|
      modifies this
      ensures Parsed(e, At()) == TermAt(tokens, old(At()))
      decreases |tokens| - position, 6
    {
      e := ParserTerm();
    }

    method Parse() returns (r: SyntaxTree)
      requires Valid() && position < |tokens|
      modifies this
      ensures r == ParseAt(tokens, old(At()))
    {
      var expression := ParserTerm();
      var endOfFileToken := Match(EndOfFileToken);
      r := SyntaxTree(diagnostics, expression, endOfFileToken);
    }

    method ParserTerm() returns (e: ExpressionSyntax)
      requires Valid() && position < |tokens|
      modifies this
      ensures Parsed(e, At()) == TermAt(tokens, old(At()))
      decreases |tokens| - position, 5
    {
      ghost var whole := TermAt(tokens, At());
      var left := ParserFactor();
      while IsTermOperator(Current().kind)
        invariant Valid() && old(position) <= position < |tokens|
        invariant whole == TermTail(tokens, left, At())
        decreases |tokens| - position
      {
        left := ParserTermOperand(left);
      }
      e := left;
    }

    /** One turn of ParserTerm's loop: the operator and a factor, combined
        with the expression so far; the rest of the loop is unchanged. */
    method ParserTermOperand(left: ExpressionSyntax) returns (e: ExpressionSyntax)
      requires Valid() && position < |tokens| && IsTermOperator(Current().kind)
      modifies this
      ensures Valid() && old(position) < position < |tokens|
      ensures TermTail(tokens, left, old(At())) == TermTail(tokens, e, At())
      decreases |tokens| - position, 4
    {
      ghost var before := At();
      TermStep(tokens, left, before);
      var operatorToken := NextToken();
      assert operatorToken == tokens[before.position];
      var right := ParserFactor();
      assert Parsed(right, At()) == FactorAt(tokens, Cursor(before.position + 1, before.diagnostics));
      e := BinaryExpression(left, operatorToken, right);
      assert TermTail(tokens, left, before) == TermTail(tokens, e, At());
    }

    method ParserFactor() returns (e: ExpressionSyntax)
      requires Valid() && position < |tokens|
      modifies this
      ensures Parsed(e, At()) == FactorAt(tokens, old(At()))
      decreases |tokens| - position, 3
    {
      ghost var whole := FactorAt(tokens, At());
      var left := ParserPrimaryExpression();
      while IsFactorOperator(Current().kind)
        invariant Valid() && old(position) <= position < |tokens|
        invariant whole == FactorTail(tokens, left, At())
        decreases |tokens| - position
      {
        left := ParserFactorOperand(left);
      }
      e := left;
    }

    /** One turn of ParserFactor's loop, in the same way. */
    method ParserFactorOperand(left: ExpressionSyntax) returns (e: ExpressionSyntax)
      requires Valid() && position < |tokens| && IsFactorOperator(Current().kind)
      modifies this
      ensures Valid() && old(position) < position < |tokens|
      ensures FactorTail(tokens, left, old(At())) == FactorTail(tokens, e, At())
      decreases |tokens| - position, 2
    {
      ghost var before := At();
      FactorStep(tokens, left, before);
      var operatorToken := NextToken();
      assert operatorToken == tokens[before.position];
      var right := ParserPrimaryExpression();
      assert Parsed(right, At()) == PrimaryAt(tokens, Cursor(before.position + 1, before.diagnostics));
      e := BinaryExpression(left, operatorToken, right);
    }

    method ParserPrimaryExpression() returns (e: ExpressionSyntax)
      requires Valid() && position < |tokens|
      modifies this
      ensures Parsed(e, At()) == PrimaryAt(tokens, old(At()))
      decreases |tokens| - position, 1
    {
      if Current().kind == OpenParenthesisToken {
        e := ParserParenthesized();
        return;
      }
      var numberToken := Match(NumberToken);
      e := NumberExpression(numberToken);
    }

    /** The parenthesised branch of ParserPrimaryExpression. */
    method ParserParenthesized() returns (e: ExpressionSyntax)
      requires Valid() && position < |tokens| && Current().kind == OpenParenthesisToken
      modifies this
      ensures Parsed(e, At()) == PrimaryAt(tokens, old(At()))
      decreases |tokens| - position, 0
    {
      var left := NextToken();
      var expression := ParseExpression();
      var right := Match(CloseParenthesisToken);
      e := ParenthesizedExpression(left, expression, right);
    }
  }
}
