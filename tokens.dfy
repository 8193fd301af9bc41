// The parser's token array: the tokens the lexer read, ending in end of
// file, with the precedence tables that drive expression parsing.
module CocoaTokens {
  import opened CocoaSyntax

  /** Every token has its text. */
  ghost predicate AllPresent(tokens: seq<SyntaxToken>)
  {
    tokens == [] || (tokens[0].text.Some? && AllPresent(tokens[1..]))
  }

  lemma {:induction false} PresentAt(tokens: seq<SyntaxToken>, i: nat)
    requires AllPresent(tokens) && i < |tokens|
    ensures tokens[i].text.Some?
  {
    if i > 0 {
      PresentAt(tokens[1..], i - 1);
    }
  }

  lemma {:induction false} EndedArePresent(tokens: seq<SyntaxToken>)
    requires forall i :: 0 <= i < |tokens| ==> tokens[i].text.Some?
    ensures AllPresent(tokens)
  {
    if tokens != [] {
      EndedArePresent(tokens[1..]);
    }
  }

  /** The token array and the precedence tables. */
  datatype TokenStream = TokenStream(tokens: seq<SyntaxToken>, facts: SyntaxFacts)
  {
    /** What the parser relies on: the array ends in end of file, which is
        no operator, and every token has its text. */
    ghost predicate Valid()
    {
      && |tokens| >= 1 && tokens[|tokens| - 1].kind == EndOfFileToken
      && facts.unaryPrecedence(EndOfFileToken) == 0 && facts.binaryPrecedence(EndOfFileToken) == 0
      && AllPresent(tokens)
    }

    /** Peek: the token `offset` places ahead, or the last token, end of
        file, past the end. */
    function Peek(position: nat, offset: nat): (t: SyntaxToken)
      requires |tokens| >= 1
      ensures position + offset < |tokens| ==> t == tokens[position + offset]
      ensures position + offset >= |tokens| ==> t == tokens[|tokens| - 1]
    {
      if position + offset >= |tokens| then tokens[|tokens| - 1] else tokens[position + offset]
    }

    function Precedence(t: SyntaxToken): nat { facts.binaryPrecedence(t.kind) }
  }
}
