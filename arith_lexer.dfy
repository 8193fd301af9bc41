// The arithmetic calculator's lexer: numbers, whitespace, the four
// operators and parentheses. Its state is the position in the text and the
// diagnostics reported so far.
module ArithmeticLexer {
  import opened Wrappers
  import opened Int32
  import opened CharClasses
  import opened Numerals
  import opened ArithmeticSyntax

  /** Each token's result: the token, the position after it and the
      diagnostics it adds. */
  datatype LexStep = LexStep(token: SyntaxToken, next: nat, diagnostics: seq<Diagnostic>)

  /** The one-character operators and parentheses, and nothing else. */
  function OperatorKind(c: char): (r: Option<SyntaxKind>)
    ensures r.Some? <==> c in "+-*/()"
    ensures r.Some? ==> r.value in {PlusToken, MinusToken, StarToken, SlashToken, OpenParenthesisToken, CloseParenthesisToken}
  {
    match c
    case '+' => Some(PlusToken)
    case '-' => Some(MinusToken)
    case '*' => Some(StarToken)
    case '/' => Some(SlashToken)
    case '(' => Some(OpenParenthesisToken)
    case ')' => Some(CloseParenthesisToken)
    case _ => None
  }

  /** NextToken at position p: end of file at the end of the text; else a
      maximal digit run, a maximal whitespace run, an operator or
      parenthesis, or one bad character. */
  function NextTokenAt(text: string, chars: CharClass, p: nat): (r: LexStep)
    requires chars.Valid() && p <= |text|
    ensures p <= r.next <= |text| && r.token.position == p
    ensures r.token.kind == EndOfFileToken <==> p == |text|
    ensures r.token.kind == EndOfFileToken ==> r.next == p && r.token.text == Some("\0") && r.diagnostics == []
    ensures r.token.kind != EndOfFileToken ==> p < r.next && r.token.text == Some(text[p..r.next])
    ensures |r.diagnostics| <= 1
  {
    if p >= |text| then LexStep(SyntaxToken(EndOfFileToken, p, Some("\0"), None), p, [])
    else
      var c := text[p];
      if chars.isDigit(c) then
        var q := RunEnd(text, p, chars.isDigit);
        var digits := text[p..q];
        LexStep(SyntaxToken(NumberToken, p, Some(digits), Some(TryParse(digits).GetOr(0))), q,
          if TryParse(digits).Some? then [] else [InvalidNumber(text)])
      else if IsWhiteSpace(c) then
        // int.TryParse fails on a whitespace run and leaves 0.
        var q := RunEnd(text, p, IsWhiteSpace);
        LexStep(SyntaxToken(WhitespaceToken, p, Some(text[p..q]), Some(0)), q, [])
      else if OperatorKind(c).Some? then
        assert [c] == text[p..p + 1];
        LexStep(SyntaxToken(OperatorKind(c).value, p, Some([c]), None), p + 1, [])
      else
        LexStep(SyntaxToken(BadToken, p, Some(text[p..p + 1]), None), p + 1, [BadCharacter(c)])
  }

  // What a single token is.

  /** A number token is a maximal run of digits whose value is the parsed
      text, or 0 (with a diagnostic quoting the whole text) when the run is
      no valid int. */
  lemma NumberIsMaximalRun(text: string, chars: CharClass, p: nat)
    requires chars.Valid() && p < |text| && chars.isDigit(text[p])
    ensures var r := NextTokenAt(text, chars, p);
      && r.token.kind == NumberToken
      && (forall k :: p <= k < r.next ==> chars.isDigit(text[k]))
      && (r.next < |text| ==> !chars.isDigit(text[r.next]))
      && r.token.value == Some(TryParse(text[p..r.next]).GetOr(0))
      && (r.diagnostics == [InvalidNumber(text)] <==> TryParse(text[p..r.next]).None?)
      && (r.diagnostics == [] <==> TryParse(text[p..r.next]).Some?)
  {
  }

  /** A whitespace token is a maximal run of whitespace, when the first
      character is no digit. */
  lemma WhitespaceIsMaximalRun(text: string, chars: CharClass, p: nat)
    requires chars.Valid() && p < |text| && !chars.isDigit(text[p]) && IsWhiteSpace(text[p])
    ensures var r := NextTokenAt(text, chars, p);
      && r.token.kind == WhitespaceToken && r.diagnostics == []
      && (forall k :: p <= k < r.next ==> IsWhiteSpace(text[k]))
      && (r.next < |text| ==> !IsWhiteSpace(text[r.next]))
  {
  }

  /** Each of + - * / ( ) is its own token of one character, at its start,
      with no value. */
  lemma OperatorIsOneCharacter(text: string, chars: CharClass, p: nat)
    requires chars.Valid() && p < |text| && text[p] in "+-*/()" && !chars.isDigit(text[p])
    ensures var r := NextTokenAt(text, chars, p);
      && r.next == p + 1 && r.diagnostics == [] && r.token.value.None?
      && r.token.kind == OperatorKind(text[p]).value && r.token.text == Some([text[p]])
  {
  }

  /** Any other character is one bad token and one diagnostic naming it. */
  lemma OtherIsBadCharacter(text: string, chars: CharClass, p: nat)
    requires chars.Valid() && p < |text|
    requires !chars.isDigit(text[p]) && !IsWhiteSpace(text[p]) && text[p] !in "+-*/()"
    ensures var r := NextTokenAt(text, chars, p);
      && r.token.kind == BadToken && r.next == p + 1 && r.token.text == Some([text[p]])
      && r.diagnostics == [BadCharacter(text[p])]
  {
    assert text[p..p + 1] == [text[p]];
  }

  // The whole text.

  /** Every token read from position p on, up to and including end of
      file, and the diagnostics. */
  function AllTokensFrom(text: string, chars: CharClass, p: nat): (r: (seq<SyntaxToken>, seq<Diagnostic>))
    requires chars.Valid() && p <= |text|
    ensures |r.0| >= 1 && r.0[|r.0| - 1].kind == EndOfFileToken
    decreases |text| - p
  {
    var step := NextTokenAt(text, chars, p);
    if step.token.kind == EndOfFileToken then ([step.token], step.diagnostics)
    else
      var rest := AllTokensFrom(text, chars, step.next);
      ([step.token] + rest.0, step.diagnostics + rest.1)
  }

  /** The texts of tokens, joined. */
  function Spelling(tokens: seq<SyntaxToken>): string
  {
    if tokens == [] then "" else tokens[0].text.GetOr("") + Spelling(tokens[1..])
  }

  /** A token spelling text[p..q] before tokens spelling the rest of the
      text spell the text from p on. */
  lemma SpelledOn(t: SyntaxToken, rest: seq<SyntaxToken>, text: string, p: nat, q: nat)
    requires p <= q <= |text| && |rest| >= 1
    requires t.text == Some(text[p..q]) && Spelling(rest[..|rest| - 1]) == text[q..]
    ensures var all := [t] + rest; Spelling(all[..|all| - 1]) == text[p..]
  {
    SpellingCons(t, rest);
    assert text[p..] == text[p..q] + text[q..];
  }

  /** Lexing loses and adds nothing: the tokens before end of file spell
      the text from p on. */
  lemma {:induction false} TokensSpellText(text: string, chars: CharClass, p: nat)
    requires chars.Valid() && p <= |text|
    ensures var ts := AllTokensFrom(text, chars, p).0;
      Spelling(ts[..|ts| - 1]) == text[p..]
    decreases |text| - p
  {
    var step := NextTokenAt(text, chars, p);
    if step.token.kind != EndOfFileToken {
      TokensSpellText(text, chars, step.next);
      SpelledOn(step.token, AllTokensFrom(text, chars, step.next).0, text, p, step.next);
    }
  }

  /** The first token starts at p, and end of file comes only last, at the
      end of the text. */
  lemma {:induction false} EndOfFileOnlyLast(text: string, chars: CharClass, p: nat)
    requires chars.Valid() && p <= |text|
    ensures var ts := AllTokensFrom(text, chars, p).0;
      && ts[0].position == p && ts[|ts| - 1].position == |text|
      && forall i :: 0 <= i < |ts| - 1 ==> ts[i].kind != EndOfFileToken
    decreases |text| - p
  {
    var step := NextTokenAt(text, chars, p);
    var ts := AllTokensFrom(text, chars, p).0;
    if step.token.kind != EndOfFileToken {
      var rest := AllTokensFrom(text, chars, step.next).0;
      EndOfFileOnlyLast(text, chars, step.next);
      assert ts == [step.token] + rest;
      assert ts[|ts| - 1] == rest[|rest| - 1];
      forall i | 1 <= i < |ts| - 1
        ensures ts[i].kind != EndOfFileToken
      {
        assert ts[i] == rest[i - 1];
      }
    }
  }

  /** Spelling a token and more tokens, leaving out the last. */
  lemma SpellingCons(t: SyntaxToken, rest: seq<SyntaxToken>)
    requires |rest| >= 1
    ensures var all := [t] + rest;
      && all[..|all| - 1] == [t] + rest[..|rest| - 1]
      && Spelling(all[..|all| - 1]) == t.text.GetOr("") + Spelling(rest[..|rest| - 1])
  {
    var all := [t] + rest;
    assert all[..|all| - 1] == [t] + rest[..|rest| - 1];
    assert ([t] + rest[..|rest| - 1])[1..] == rest[..|rest| - 1];
  }

  class Lexer {
    const text: string
    const chars: CharClass
    var position: nat
    var diagnostics: seq<Diagnostic>

    ghost predicate Valid()
      reads this
    {
      chars.Valid() && position <= |text|
    }

    constructor (text: string, chars: CharClass)
      requires chars.Valid()
      ensures Valid() && this.text == text && this.chars == chars && position == 0 && diagnostics == []
    {
      this.text := text;
      this.chars := chars;
      position := 0;
      diagnostics := [];
    }

    /** Current: the character at the position, '\0' past the end. */
    function Current(): (c: char)
      reads this
      ensures position < |text| ==> c == text[position]
      ensures position >= |text| ==> c == '\0'
    {
      CharAt(text, position)
    }

    /** NextToken: reads the token at the position and steps past it. */
    method NextToken() returns (t: SyntaxToken)
      requires Valid()
      modifies this
      ensures Valid()
      ensures var r := NextTokenAt(text, chars, old(position));
        t == r.token && position == r.next && diagnostics == old(diagnostics) + r.diagnostics
    {
      if position >= |text| {
        return SyntaxToken(EndOfFileToken, position, Some("\0"), None);
      }
      var start := position;
      if chars.isDigit(Current()) {
        SkipRun(chars.isDigit);
        var tokenText := text[start..position];
        var value := TryParse(tokenText);
        if value.None? {
          diagnostics := diagnostics + [InvalidNumber(text)];
        }
        return SyntaxToken(NumberToken, start, Some(tokenText), Some(value.GetOr(0)));
      }
      if IsWhiteSpace(Current()) {
        NulIsNotWhiteSpace();
        SkipRun(IsWhiteSpace);
        return SyntaxToken(WhitespaceToken, start, Some(text[start..position]), Some(0));
      }
      var c := Current();
      var kind := OperatorKind(c);
      if kind.Some? {
        position := position + 1;
        return SyntaxToken(kind.value, start, Some([c]), None);
      }
      diagnostics := diagnostics + [BadCharacter(c)];
      position := position + 1;
      t := SyntaxToken(BadToken, start, Some(text[position - 1..position]), None);
    }

    /** The scanning loops of NextToken: steps over the run of characters
        in a class. */
    method SkipRun(inRun: char -> bool)
      requires Valid() && !inRun('\0')
      modifies this
      ensures Valid() && diagnostics == old(diagnostics)
      ensures position == RunEnd(text, old(position), inRun)
    {
      while inRun(Current())
        invariant Valid() && diagnostics == old(diagnostics)
        invariant RunEnd(text, old(position), inRun) == RunEnd(text, position, inRun)
        decreases |text| - position
      {
        position := position + 1;
      }
    }
  }
}
