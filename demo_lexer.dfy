// The second calculator's lexer: numbers, whitespace, words, the arithmetic
// operators and parentheses, `!`, and the two-character operators `&&`,
// `||`, `==` and `!=`. Its state is the position in the text and the
// diagnostics reported so far.
module DemoLexer {
  import opened Wrappers
  import opened Int32
  import opened CharClasses
  import opened Numerals
  import opened DemoSyntax

  /** Each token's result: the token, the position after it and the
      diagnostics it adds. */
  datatype LexStep = LexStep(token: SyntaxToken, next: nat, diagnostics: seq<Diagnostic>)

  /** The one-character tokens of the switch in Lex. */
  function SingleKind(c: char): (r: Option<SyntaxKind>)
    ensures r.Some? <==> c in "+-*/()"
  {
    match c
    case '+' => Some(PlusToken)
    case '-' => Some(MinusToken)
    case '*' => Some(StarToken)
    case '/' => Some(SlashToken)
    case '(' => Some(OpenParenthesisToken)
    case ')' => Some(CloseParenthesisToken)
    case _ => None
  }

  /** The cases of the switch in Lex that need a second character: the
      second character and the two-character kind. */
  function PairKind(c: char): (r: Option<(char, SyntaxKind)>)
    ensures r.Some? <==> c in "&|=!"
    ensures r.Some? ==> r.value.0 != '\0'
  {
    match c
    case '&' => Some(('&', AmpersandAmpersandToken))
    case '|' => Some(('|', PipePipeToken))
    case '=' => Some(('=', EqualsEqualsToken))
    case '!' => Some(('=', BangEqualsToken))
    case _ => None
  }

  /** The default of the switch: one bad character, reported. */
  function BadAt(text: string, p: nat): (r: LexStep)
    requires p < |text|
  {
    LexStep(SyntaxToken(BadToken, p, Some(text[p..p + 1]), None), p + 1, [BadCharacter(text[p])])
  }

  /** The switch on the current character in Lex. A two-character token
      is made with `m_position += 2` as its position, so it reports the
      position after itself. A lone `&`, `|` or `=` leaves the switch and is
      a bad character; a lone `!` is a bang token. */
  function SwitchAt(text: string, p: nat): (r: LexStep)
    requires p < |text|
    ensures p < r.next <= |text| && r.token.text == Some(text[p..r.next])
  {
    var c := text[p];
    if SingleKind(c).Some? then
      assert text[p..p + 1] == [c];
      LexStep(SyntaxToken(SingleKind(c).value, p, Some([c]), None), p + 1, [])
    else if PairKind(c).Some? then
      var (second, double) := PairKind(c).value;
      if CharAt(text, p + 1) == second then
        assert text[p..p + 2] == [c, second];
        LexStep(SyntaxToken(double, p + 2, Some([c, second]), None), p + 2, [])
      else if c == '!' then
        assert text[p..p + 1] == [c];
        LexStep(SyntaxToken(BangToken, p, Some("!"), None), p + 1, [])
      else BadAt(text, p)
    else BadAt(text, p)
  }

  /** Lex at position p: end of file at the end of the text; else a
      maximal digit run, a maximal whitespace run, a maximal letter run
      whose kind the keyword lookup gives, or the switch. Every other token
      has the text it was read from. */
  function LexAt(text: string, facts: SyntaxFacts, chars: CharClass, p: nat): (r: LexStep)
    requires chars.Valid() && facts.Valid() && p <= |text|
    ensures p <= r.next <= |text|
    ensures r.token.kind == EndOfFileToken <==> p == |text|
    ensures p == |text| ==> r == LexStep(SyntaxToken(EndOfFileToken, p, Some("\0"), None), p, [])
    ensures p < |text| ==> p < r.next && r.token.text == Some(text[p..r.next])
    ensures |r.diagnostics| <= 1
  {
    if p >= |text| then LexStep(SyntaxToken(EndOfFileToken, p, Some("\0"), None), p, [])
    else
      var c := text[p];
      if chars.isDigit(c) then
        var q := RunEnd(text, p, chars.isDigit);
        var digits := text[p..q];
        LexStep(SyntaxToken(NumberToken, p, Some(digits), Some(TryParse(digits).GetOr(0))), q,
          if TryParse(digits).Some? then [] else [InvalidNumber(text)])
      else if IsWhiteSpace(c) then
        // int.TryParse fails on a whitespace run and leaves 0.
        var q := RunEnd(text, p, IsWhiteSpace);
        LexStep(SyntaxToken(WhitespaceToken, p, Some(text[p..q]), Some(0)), q, [])
      else if chars.isLetter(c) then
        var q := RunEnd(text, p, chars.isLetter);
        var word := text[p..q];
        assert IsWordKind(facts.KeywordKind(word));
        LexStep(SyntaxToken(facts.KeywordKind(word), p, Some(word), None), q, [])
      else
        var r := SwitchAt(text, p);
        assert r.token.kind != EndOfFileToken;
        r
  }

  // What a single token is.

  /** A number, whitespace or word token is a maximal run of its class. */
  lemma RunsAreMaximal(text: string, facts: SyntaxFacts, chars: CharClass, p: nat)
    requires chars.Valid() && facts.Valid() && p < |text|
    ensures var r := LexAt(text, facts, chars, p);
      var c := text[p];
      && (chars.isDigit(c) ==>
            && r.token.kind == NumberToken && r.token.position == p
            && (forall k :: p <= k < r.next ==> chars.isDigit(text[k]))
            && (r.next < |text| ==> !chars.isDigit(text[r.next]))
            && r.token.value == Some(TryParse(text[p..r.next]).GetOr(0))
            && (r.diagnostics == [] <==> TryParse(text[p..r.next]).Some?))
      && (!chars.isDigit(c) && IsWhiteSpace(c) ==>
            && r.token.kind == WhitespaceToken && r.token.position == p && r.diagnostics == []
            && (forall k :: p <= k < r.next ==> IsWhiteSpace(text[k]))
            && (r.next < |text| ==> !IsWhiteSpace(text[r.next])))
      && (!chars.isDigit(c) && !IsWhiteSpace(c) && chars.isLetter(c) ==>
            && r.token.kind == facts.KeywordKind(text[p..r.next]) && r.token.position == p && r.diagnostics == []
            && (forall k :: p <= k < r.next ==> chars.isLetter(text[k]))
            && (r.next < |text| ==> !chars.isLetter(text[r.next])))
  {
  }

  /** Whether a character reaches the switch of Lex. */
  predicate ReachesSwitch(chars: CharClass, c: char)
  {
    !chars.isDigit(c) && !IsWhiteSpace(c) && !chars.isLetter(c)
  }

  /** `&&`, `||`, `==` and `!=` are read as one token, which reports the
      position two past its start. */
  lemma PairsReportTheirEnd(text: string, facts: SyntaxFacts, chars: CharClass, p: nat)
    requires chars.Valid() && facts.Valid() && p + 1 < |text| && ReachesSwitch(chars, text[p])
    requires text[p..p + 2] in ["&&", "||", "==", "!="]
    ensures var r := LexAt(text, facts, chars, p);
      && r.next == p + 2 && r.token.position == p + 2 && r.diagnostics == []
      && r.token.text == Some(text[p..p + 2])
      && r.token.kind == PairKind(text[p]).value.1
  {
    assert text[p] == text[p..p + 2][0] && text[p + 1] == text[p..p + 2][1];
  }

  /** A one-character operator or parenthesis, and a `!` not followed by
      `=`, reports its own start and advances by one. */
  lemma SinglesReportTheirStart(text: string, facts: SyntaxFacts, chars: CharClass, p: nat)
    requires chars.Valid() && facts.Valid() && p < |text| && ReachesSwitch(chars, text[p])
    requires text[p] in "+-*/()" || (text[p] == '!' && CharAt(text, p + 1) != '=')
    ensures var r := LexAt(text, facts, chars, p);
      && r.next == p + 1 && r.token.position == p && r.diagnostics == []
      && r.token.kind == (if text[p] == '!' then BangToken else SingleKind(text[p]).value)
  {
  }

  /** A lone `&`, `|` or `=` is no token: it is a bad character, reported,
      and the lexer moves past it. */
  lemma LoneOperatorIsBad(text: string, facts: SyntaxFacts, chars: CharClass, p: nat)
    requires chars.Valid() && facts.Valid() && p < |text| && ReachesSwitch(chars, text[p])
    requires text[p] in "&|=" && CharAt(text, p + 1) != text[p]
    ensures var r := LexAt(text, facts, chars, p);
      && r.token.kind == BadToken && r.token.position == p && r.next == p + 1
      && r.diagnostics == [BadCharacter(text[p])]
  {
  }

  /** Any other character is a bad token, reported. */
  lemma OtherIsBad(text: string, facts: SyntaxFacts, chars: CharClass, p: nat)
    requires chars.Valid() && facts.Valid() && p < |text| && ReachesSwitch(chars, text[p])
    requires text[p] !in "+-*/()&|=!"
    ensures LexAt(text, facts, chars, p) == BadAt(text, p)
  {
  }

  // The whole text.

  /** Every token read from position p on, up to and including end of
      file, and the diagnostics. */
  function AllTokensFrom(text: string, facts: SyntaxFacts, chars: CharClass, p: nat): (r: (seq<SyntaxToken>, seq<Diagnostic>))
    requires chars.Valid() && facts.Valid() && p <= |text|
    ensures |r.0| >= 1 && r.0[|r.0| - 1].kind == EndOfFileToken
    decreases |text| - p
  {
    var step := LexAt(text, facts, chars, p);
    if step.token.kind == EndOfFileToken then ([step.token], step.diagnostics)
    else
      var rest := AllTokensFrom(text, facts, chars, step.next);
      var all := [step.token] + rest.0;
      assert all[|all| - 1] == rest.0[|rest.0| - 1];
      (all, step.diagnostics + rest.1)
  }

  /** The texts of tokens, joined. */
  function Spelling(tokens: seq<SyntaxToken>): string
  {
    if tokens == [] then "" else tokens[0].text.GetOr("") + Spelling(tokens[1..])
  }

  /** Spelling a token and more tokens, leaving out the last. */
  lemma SpellingCons(t: SyntaxToken, rest: seq<SyntaxToken>)
    requires |rest| >= 1
    ensures var all := [t] + rest;
      && all[..|all| - 1] == [t] + rest[..|rest| - 1]
      && Spelling(all[..|all| - 1]) == t.text.GetOr("") + Spelling(rest[..|rest| - 1])
  {
    var all := [t] + rest;
    assert all[..|all| - 1] == [t] + rest[..|rest| - 1];
    assert ([t] + rest[..|rest| - 1])[1..] == rest[..|rest| - 1];
  }

  /** A token spelling text[p..q] before tokens spelling the rest of the
      text spell the text from p on. */
  lemma SpelledOn(t: SyntaxToken, rest: seq<SyntaxToken>, text: string, p: nat, q: nat)
    requires p <= q <= |text| && |rest| >= 1
    requires t.text == Some(text[p..q]) && Spelling(rest[..|rest| - 1]) == text[q..]
    ensures var all := [t] + rest; Spelling(all[..|all| - 1]) == text[p..]
  {
    SpellingCons(t, rest);
    assert text[p..] == text[p..q] + text[q..];
  }

  /** Lexing loses and adds nothing: the tokens before end of file spell
      the text from p on. */
  lemma {:induction false} TokensSpellText(text: string, facts: SyntaxFacts, chars: CharClass, p: nat)
    requires chars.Valid() && facts.Valid() && p <= |text|
    ensures var ts := AllTokensFrom(text, facts, chars, p).0;
      Spelling(ts[..|ts| - 1]) == text[p..]
    decreases |text| - p
  {
    var step := LexAt(text, facts, chars, p);
    if step.token.kind != EndOfFileToken {
      TokensSpellText(text, facts, chars, step.next);
      SpelledOn(step.token, AllTokensFrom(text, facts, chars, step.next).0, text, p, step.next);
    }
  }

  /** No token but the last is end of file. */
  ghost predicate EndsOnlyLast(ts: seq<SyntaxToken>)
  {
    |ts| >= 1 && forall i :: 0 <= i < |ts| - 1 ==> ts[i].kind != EndOfFileToken
  }

  lemma EndsOnlyLastCons(t: SyntaxToken, rest: seq<SyntaxToken>)
    requires EndsOnlyLast(rest) && t.kind != EndOfFileToken
    ensures EndsOnlyLast([t] + rest) && ([t] + rest)[|rest|] == rest[|rest| - 1]
  {
    var ts := [t] + rest;
    forall i | 1 <= i < |ts| - 1
      ensures ts[i].kind != EndOfFileToken
    {
      assert ts[i] == rest[i - 1];
    }
  }

  /** End of file comes only last, at the end of the text. */
  lemma {:induction false} EndOfFileOnlyLast(text: string, facts: SyntaxFacts, chars: CharClass, p: nat)
    requires chars.Valid() && facts.Valid() && p <= |text|
    ensures var ts := AllTokensFrom(text, facts, chars, p).0;
      EndsOnlyLast(ts) && ts[|ts| - 1].position == |text|
    decreases |text| - p
  {
    var step := LexAt(text, facts, chars, p);
    if step.token.kind != EndOfFileToken {
      EndOfFileOnlyLast(text, facts, chars, step.next);
      EndsOnlyLastCons(step.token, AllTokensFrom(text, facts, chars, step.next).0);
    }
  }



  class Lexer {
    const text: string
    const facts: SyntaxFacts
    const chars: CharClass
    var position: nat
    var diagnostics: seq<Diagnostic>

    ghost predicate Valid()
      reads this
    {
      chars.Valid() && facts.Valid() && position <= |text|
    }

    constructor (text: string, facts: SyntaxFacts, chars: CharClass)
      requires chars.Valid() && facts.Valid()
      ensures Valid() && this.text == text && this.facts == facts && this.chars == chars
      ensures position == 0 && diagnostics == []
    {
      this.text := text;
      this.facts := facts;
      this.chars := chars;
      position := 0;
      diagnostics := [];
    }

    /** Peek: the character `offset` places ahead, '\0' past the end. */
    function Peek(offset: nat): (c: char)
      reads this
      ensures position + offset < |text| ==> c == text[position + offset]
      ensures position + offset >= |text| ==> c == '\0'
    {
      CharAt(text, position + offset)
    }

    function Current(): char reads this { Peek(0) }

    function Lookahead(): char reads this { Peek(1) }

    /** Lex: reads the token at the position and steps past it. */
    method Lex() returns (t: SyntaxToken)
      requires Valid()
      modifies this
      ensures Valid()
      ensures var r := LexAt(text, facts, chars, old(position));
        t == r.token && position == r.next && diagnostics == old(diagnostics) + r.diagnostics
    {
      if position >= |text| {
        return SyntaxToken(EndOfFileToken, position, Some("\0"), None);
      }
      var start := position;
      if chars.isDigit(Current()) {
        ReadRun(chars.isDigit);
        var tokenText := text[start..position];
        var value := TryParse(tokenText);
        if value.None? {
          diagnostics := diagnostics + [InvalidNumber(text)];
        }
        return SyntaxToken(NumberToken, start, Some(tokenText), Some(value.GetOr(0)));
      }
      if IsWhiteSpace(Current()) {
        NulIsNotWhiteSpace();
        ReadRun(IsWhiteSpace);
        return SyntaxToken(WhitespaceToken, start, Some(text[start..position]), Some(0));
      }
      if chars.isLetter(Current()) {
        ReadRun(chars.isLetter);
        var word := text[start..position];
        var kind := facts.KeywordKind(word);
        return SyntaxToken(kind, start, Some(word), None);
      }
      t := Switch();
    }

    /** The switch of Lex, and the bad character after it. */
    method Switch() returns (t: SyntaxToken)
      requires Valid() && position < |text|
      modifies this
      ensures Valid()
      ensures var r := SwitchAt(text, old(position));
        t == r.token && position == r.next && diagnostics == old(diagnostics) + r.diagnostics
    {
      var c := Current();
      var single := SingleKind(c);
      if single.Some? {
        t := SyntaxToken(single.value, position, Some([c]), None);
        position := position + 1;
        return;
      }
      var pair := PairKind(c);
      if pair.Some? {
        var (second, double) := pair.value;
        if Lookahead() == second {
          position := position + 2;
          return SyntaxToken(double, position, Some([c, second]), None);
        } else if c == '!' {
          t := SyntaxToken(BangToken, position, Some("!"), None);
          position := position + 1;
          return;
        }
      }
      diagnostics := diagnostics + [BadCharacter(c)];
      position := position + 1;
      t := SyntaxToken(BadToken, position - 1, Some(text[position - 1..position]), None);
    }

    /** The scanning loops of Lex: steps over the run of characters in a
        class. */
    method ReadRun(inRun: char -> bool)
      requires Valid() && !inRun('\0')
      modifies this
      ensures Valid() && diagnostics == old(diagnostics)
      ensures position == RunEnd(text, old(position), inRun)
    {
      while inRun(Current())
        invariant Valid() && diagnostics == old(diagnostics)
        invariant RunEnd(text, old(position), inRun) == RunEnd(text, position, inRun)
        decreases |text| - position
      {
        position := position + 1;
      }
    }
  }
}
