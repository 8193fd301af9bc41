// The Cocoa lexer: reads one token at a time from a source text. Its state
// is the current position, the start, kind and value of the token being
// read, and the diagnostics reported so far.
module CocoaLexer {
  import opened Wrappers
  import opened Int32
  import opened TextSpans
  import opened CharClasses
  import opened Numerals
  import opened CocoaSyntax
  import opened CocoaDiagnostics
  import opened CocoaText

  /** How a string literal's body scans: where it stops, its value, and
      whether a closing quote ended it. */
  datatype StringScan = StringScan(end: nat, value: string, terminated: bool)

  predicate EndsLine(c: char) { c == '\0' || c == '\r' || c == '\n' }

  /** The loop of ReadString from position p (just after the opening quote):
      a doubled quote stands for one quote, a single quote closes the
      literal, and the end of the text or of the line stops it unclosed. */
  function ScanString(text: string, p: nat): (r: StringScan)
    ensures p <= r.end && (p <= |text| ==> r.end <= |text|)
    ensures !r.terminated ==> EndsLine(CharAt(text, r.end))
    ensures r.terminated ==> p < r.end && r.end - 1 < |text| && text[r.end - 1] == '"'
    decreases |text| - p
  {
    var c := CharAt(text, p);
    if EndsLine(c) then StringScan(p, "", false)
    else if c == '"' then
      if CharAt(text, p + 1) == '"' then
        var rest := ScanString(text, p + 2);
        StringScan(rest.end, ['"'] + rest.value, rest.terminated)
      else StringScan(p + 1, "", true)
    else
      var rest := ScanString(text, p + 1);
      StringScan(rest.end, [c] + rest.value, rest.terminated)
  }

  /** A scan with `prefix` read before it. */
  function Prepend(prefix: string, r: StringScan): StringScan
  {
    StringScan(r.end, prefix + r.value, r.terminated)
  }

  lemma PrependStep(prefix: string, c: char, r: StringScan)
    ensures Prepend(prefix, StringScan(r.end, [c] + r.value, r.terminated)) == Prepend(prefix + [c], r)
  {
    assert prefix + ([c] + r.value) == (prefix + [c]) + r.value;
  }

  /** What the switch of Lex decides: the kind, where the token ends, its
      value and the diagnostics it adds. */
  datatype Scanned = Scanned(kind: SyntaxKind, next: nat, value: TokenValue, diagnostics: seq<Diagnostic>)

  /** An operator that may be doubled: the two-character kind when the next
      character is `second`, else the one-character kind. */
  function Pair(text: string, p: nat, second: char, single: SyntaxKind, double: SyntaxKind): Scanned
  {
    if CharAt(text, p + 1) == second then Scanned(double, p + 2, NoValue, []) else Scanned(single, p + 1, NoValue, [])
  }

  function UnterminatedAt(start: int): Diagnostic
  {
    Diagnostic(TextSpan(start, 1), UnterminatedString)
  }

  /** ReadNumber: the digit run is the token; text that does not parse as
      an int is reported over the run, and the value is then 0. */
  function ScanNumber(text: string, p: nat, chars: CharClass): Scanned
    requires chars.Valid() && p <= |text|
  {
    var q := RunEnd(text, p, chars.isDigit);
    var digits := text[p..q];
    Scanned(NumberToken, q, IntValue(TryParse(digits).GetOr(0)),
      if TryParse(digits).Some? then [] else [Diagnostic(TextSpan(p, q - p), InvalidNumber(digits))])
  }

  function ScanWord(text: string, p: nat, facts: SyntaxFacts, chars: CharClass): Scanned
    requires chars.Valid() && p <= |text|
  {
    var q := RunEnd(text, p, chars.isLetter);
    Scanned(facts.keywordKind(text[p..q]), q, NoValue, [])
  }

  /** The characters that start an operator or a bracket. */
  predicate IsOperatorStart(c: char)
  {
    c in "+-*/(){}~^&|=!<>"
  }

  /** The four whitespace characters the switch in Lex names. */
  predicate IsLineSpace(c: char)
  {
    c == ' ' || c == '\t' || c == '\n' || c == '\r'
  }

  /** The operator and bracket cases of the switch in Lex. */
  function ScanOperator(text: string, p: nat): (s: Scanned)
    requires IsOperatorStart(CharAt(text, p))
    ensures s.diagnostics == [] && s.value == NoValue && s.next in {p + 1, p + 2}
    ensures s.next == p + 2 ==> CharAt(text, p + 1) != '\0'
  {
    match CharAt(text, p)
    case '+' => Scanned(PlusToken, p + 1, NoValue, [])
    case '-' => Scanned(MinusToken, p + 1, NoValue, [])
    case '*' => Scanned(StarToken, p + 1, NoValue, [])
    case '/' => Scanned(SlashToken, p + 1, NoValue, [])
    case '(' => Scanned(OpenParenthesisToken, p + 1, NoValue, [])
    case ')' => Scanned(CloseParenthesisToken, p + 1, NoValue, [])
    case '{' => Scanned(OpenBraceToken, p + 1, NoValue, [])
    case '}' => Scanned(CloseBraceToken, p + 1, NoValue, [])
    case '~' => Scanned(TildeToken, p + 1, NoValue, [])
    case '^' => Scanned(HatToken, p + 1, NoValue, [])
    case '&' => Pair(text, p, '&', AmpersandToken, AmpersandAmpersandToken)
    case '|' => Pair(text, p, '|', PipeToken, PipePipeToken)
    case '=' => Pair(text, p, '=', EqualsToken, EqualsEqualsToken)
    case '!' => Pair(text, p, '=', BangToken, BangEqualsToken)
    case '<' => Pair(text, p, '=', LessToken, LessOrEqualsToken)
    case _ => Pair(text, p, '=', GreaterToken, GreaterOrEqualsToken)
  }

  /** The switch on the current character in Lex. */
  function ScanToken(text: string, p: nat, facts: SyntaxFacts, chars: CharClass): (s: Scanned)
    requires chars.Valid() && p <= |text|
    ensures p <= s.next <= |text|
    ensures s.next == p <==> CharAt(text, p) == '\0'
    ensures s.kind == EndOfFileToken <==> CharAt(text, p) == '\0'
  {
    var c := CharAt(text, p);
    if c == '\0' then Scanned(EndOfFileToken, p, NoValue, [])
    else if IsOperatorStart(c) then ScanOperator(text, p)
    else if c == '"' then
      var r := ScanString(text, p + 1);
      Scanned(StringToken, r.end, StringValue(r.value), if r.terminated then [] else [UnterminatedAt(p)])
    else if IsAsciiDigit(c) then ScanNumber(text, p, chars)
    else if IsLineSpace(c) then Scanned(WhitespaceToken, RunEnd(text, p, IsWhiteSpace), NoValue, [])
    else ScanOther(text, p, facts, chars)
  }

  /** The default case of the switch in Lex: a word, other whitespace, or
      a bad character. */
  function ScanOther(text: string, p: nat, facts: SyntaxFacts, chars: CharClass): (s: Scanned)
    requires chars.Valid() && p < |text|
  {
    var c := text[p];
    if chars.isLetter(c) then ScanWord(text, p, facts, chars)
    else if IsWhiteSpace(c) then Scanned(WhitespaceToken, RunEnd(text, p, IsWhiteSpace), NoValue, [])
    else Scanned(BadToken, p + 1, NoValue, [BadCharacterAt(p, c)])
  }

  /** One step of the lexer: a token, the position after it and the
      diagnostics it adds. */
  datatype LexStep = LexStep(token: SyntaxToken, next: nat, diagnostics: seq<Diagnostic>)

  /** Lex from position p: the token starts at p, and its text is the
      kind's fixed text when it has one, else the text it was read from. */
  function LexAt(text: string, facts: SyntaxFacts, chars: CharClass, p: nat): (r: LexStep)
    requires chars.Valid() && p <= |text|
    ensures p <= r.next <= |text| && r.token.position == p
    ensures facts.getText(r.token.kind).Some? ==> r.token.text == facts.getText(r.token.kind)
    ensures facts.getText(r.token.kind).None? ==> r.token.text == Some(text[p..r.next])
  {
    var s := ScanToken(text, p, facts, chars);
    var t := if facts.getText(s.kind).Some? then facts.getText(s.kind).value else text[p..s.next];
    LexStep(SyntaxToken(s.kind, p, Some(t), s.value), s.next, s.diagnostics)
  }

  class Lexer {
    const source: SourceText
    const facts: SyntaxFacts
    const chars: CharClass
    var position: nat
    var start: nat
    var kind: SyntaxKind
    var value: TokenValue
    var diagnostics: seq<Diagnostic>

    ghost predicate Valid()
      reads this
    {
      chars.Valid() && position <= |source.text|
    }

    constructor (source: SourceText, facts: SyntaxFacts, chars: CharClass)
      requires chars.Valid()
      ensures Valid() && this.source == source && this.facts == facts && this.chars == chars
      ensures position == 0 && start == 0 && kind == BadToken && value == NoValue && diagnostics == []
    {
      this.source := source;
      this.facts := facts;
      this.chars := chars;
      position := 0;
      start := 0;
      kind := BadToken;
      value := NoValue;
      diagnostics := [];
    }

    /** Peek: the character `offset` places ahead, '\0' past the end. */
    function Peek(offset: nat): (c: char)
      reads this
      ensures position + offset < |source.text| ==> c == source.text[position + offset]
      ensures position + offset >= |source.text| ==> c == '\0'
    {
      CharAt(source.text, position + offset)
    }

    function Current(): char reads this { Peek(0) }

    function Lookahead(): char reads this { Peek(1) }

    /** Lex: reads the token at the current position. */
    method Lex() returns (t: SyntaxToken)
      requires Valid()
      modifies this
      ensures Valid()
      ensures var r := LexAt(source.text, facts, chars, old(position));
        t == r.token && position == r.next && diagnostics == old(diagnostics) + r.diagnostics
      ensures start == old(position) && kind == t.kind && value == t.value
    {
      start := position;
      kind := BadToken;
      value := NoValue;
      ReadToken();
      var length := position - start;
      var fixedText := facts.getText(kind);
      source.SubstringSlice(start, position);
      var text := if fixedText.Some? then fixedText.value else source.Substring(start, length).value;
      t := SyntaxToken(kind, start, Some(text), value);
      assert t == LexAt(source.text, facts, chars, start).token;
    }

    /** The switch of Lex on the current character. */
    method ReadToken()
      requires Valid() && start == position && kind == BadToken && value == NoValue
      modifies this
      ensures Valid() && start == old(start)
      ensures var s := ScanToken(source.text, old(position), facts, chars);
        kind == s.kind && position == s.next && value == s.value && diagnostics == old(diagnostics) + s.diagnostics
    {
      var c := Current();
      if c == '\0' {
        kind := EndOfFileToken;
      } else if IsOperatorStart(c) {
        ReadOperator();
      } else if c == '"' {
        ReadString();
      } else if IsAsciiDigit(c) {
        ReadNumber();
      } else if IsLineSpace(c) {
        ReadWhiteSpace();
      } else {
        ReadOther();
      }
    }

    /** The default case of Lex. */
    method ReadOther()
      requires Valid() && start == position && kind == BadToken && value == NoValue && position < |source.text|
      modifies this
      ensures Valid() && start == old(start)
      ensures var s := ScanOther(source.text, old(position), facts, chars);
        kind == s.kind && position == s.next && value == s.value && diagnostics == old(diagnostics) + s.diagnostics
    {
      var c := Current();
      if chars.isLetter(c) {
        ReadIdentifierOrKeyword();
      } else if IsWhiteSpace(c) {
        ReadWhiteSpace();
      } else {
        diagnostics := diagnostics + [BadCharacterAt(position, c)];
        position := position + 1;
      }
    }

    /** The operator and bracket cases of Lex: the one-character cases set
        the kind and step over the character; the others are ReadPair. */
    method ReadOperator()
      requires Valid() && IsOperatorStart(Current())
      modifies this
      ensures Valid() && start == old(start) && value == old(value) && diagnostics == old(diagnostics)
      ensures var s := ScanOperator(source.text, old(position)); kind == s.kind && position == s.next
    {
      var c := Current();
      OperatorTables(source.text, position);
      var single := SingleTable(c);
      if single.Some? {
        kind := single.value;
        position := position + 1;
      } else {
        var (second, one, two) := PairTable(c).value;
        ReadPair(second, one, two);
      }
    }

    /** The doubled-operator cases of ReadOperator: step over the first
        character, then take the second one too when it is `second`. */
    method ReadPair(second: char, single: SyntaxKind, double: SyntaxKind)
      requires Valid() && Current() != '\0' && second != '\0'
      modifies this
      ensures Valid() && start == old(start) && value == old(value) && diagnostics == old(diagnostics)
      ensures var s := Pair(source.text, old(position), second, single, double); kind == s.kind && position == s.next
    {
      position := position + 1;
      if Current() != second {
        kind := single;
      } else {
        position := position + 1;
        kind := double;
      }
    }

    /** ReadString: skips the opening quote and collects the body. */
    method ReadString()
      requires Valid() && Current() == '"' && start == position
      modifies this
      ensures Valid() && start == old(start)
      ensures var r := ScanString(source.text, old(position) + 1);
        && position == r.end && kind == StringToken && value == StringValue(r.value)
        && diagnostics == old(diagnostics) + (if r.terminated then [] else [UnterminatedAt(start)])
    {
      position := position + 1;
      var builder := "";
      var done := false;
      ghost var target := ScanString(source.text, position);
      while !done
        invariant Valid() && start == old(start)
        invariant !done ==> diagnostics == old(diagnostics)
        invariant !done ==> target == Prepend(builder, ScanString(source.text, position))
        invariant done ==> target.end == position && target.value == builder
        invariant done ==> diagnostics == old(diagnostics) + (if target.terminated then [] else [UnterminatedAt(start)])
        decreases if done then 0 else 1, |source.text| - position
      {
        ghost var before := position;
        builder, done := ReadStringCharacter(builder);
        if done {
          assert target == Prepend(builder, ScanString(source.text, before));
        }
      }
      kind := StringToken;
      value := StringValue(builder);
    }

    /** One turn of ReadString's loop: a line end or the end of the text
        stops the literal with a diagnostic, a doubled quote adds one quote,
        a single quote closes the literal, and any other character is added. */
    method ReadStringCharacter(builder: string) returns (builder': string, done: bool)
      requires Valid()
      modifies this
      ensures Valid() && start == old(start)
      ensures !done ==> diagnostics == old(diagnostics) && old(position) < position
      ensures !done ==> Prepend(builder, ScanString(source.text, old(position))) == Prepend(builder', ScanString(source.text, position))
      ensures done ==> var r := ScanString(source.text, old(position));
        && builder' == builder && r.value == "" && position == r.end
        && diagnostics == old(diagnostics) + (if r.terminated then [] else [UnterminatedAt(start)])
    {
      var c := Current();
      builder' := builder;
      done := false;
      match c {
        case '\0' | '\r' | '\n' =>
          diagnostics := diagnostics + [UnterminatedAt(start)];
          done := true;
        case '"' =>
          if Lookahead() == '"' {
            ghost var rest := ScanString(source.text, position + 2);
            assert ScanString(source.text, position) == StringScan(rest.end, [c] + rest.value, rest.terminated);
            PrependStep(builder, c, rest);
            builder' := builder + [c];
            position := position + 2;
          } else {
            position := position + 1;
            done := true;
          }
        case _ =>
          ghost var rest := ScanString(source.text, position + 1);
          assert ScanString(source.text, position) == StringScan(rest.end, [c] + rest.value, rest.terminated);
          PrependStep(builder, c, rest);
          builder' := builder + [c];
          position := position + 1;
      }
    }

    /** ReadWhiteSpace: skips the whitespace run. */
    method ReadWhiteSpace()
      requires Valid()
      modifies this
      ensures Valid() && start == old(start) && diagnostics == old(diagnostics) && value == old(value)
      ensures position == RunEnd(source.text, old(position), IsWhiteSpace) && kind == WhitespaceToken
    {
      NulIsNotWhiteSpace();
      while IsWhiteSpace(Current())
        invariant Valid() && start == old(start) && diagnostics == old(diagnostics) && value == old(value)
        invariant RunEnd(source.text, old(position), IsWhiteSpace) == RunEnd(source.text, position, IsWhiteSpace)
        decreases |source.text| - position
      {
        position := position + 1;
      }
      kind := WhitespaceToken;
    }

    /** ReadNumber: reads the digit run and parses it. */
    method ReadNumber()
      requires Valid() && start == position
      modifies this
      ensures Valid() && start == old(start)
      ensures var s := ScanNumber(source.text, old(position), chars);
        position == s.next && kind == s.kind && value == s.value && diagnostics == old(diagnostics) + s.diagnostics
    {
      SkipDigits();
      var length := position - start;
      var text := source.Substring(start, length).value;
      var parsed := TryParse(text);
      if parsed.None? {
        diagnostics := diagnostics + [Diagnostic(TextSpan(start, length), InvalidNumber(text))];
      }
      value := IntValue(parsed.GetOr(0));
      kind := NumberToken;
    }

    /** The loop of ReadNumber: steps over the digit run. */
    method SkipDigits()
      requires Valid()
      modifies this
      ensures Valid() && start == old(start) && diagnostics == old(diagnostics)
      ensures position == RunEnd(source.text, old(position), chars.isDigit)
    {
      while chars.isDigit(Current())
        invariant Valid() && start == old(start) && diagnostics == old(diagnostics)
        invariant RunEnd(source.text, old(position), chars.isDigit) == RunEnd(source.text, position, chars.isDigit)
        decreases |source.text| - position
      {
        position := position + 1;
      }
    }

    /** ReadIdentifierOrKeyword: reads the letter run and looks it up. */
    method ReadIdentifierOrKeyword()
      requires Valid() && start == position
      modifies this
      ensures Valid() && start == old(start) && diagnostics == old(diagnostics) && value == old(value)
      ensures var s := ScanWord(source.text, old(position), facts, chars);
        position == s.next && kind == s.kind
    {
      while chars.isLetter(Current())
        invariant Valid() && start == old(start) && diagnostics == old(diagnostics) && value == old(value)
        invariant RunEnd(source.text, old(position), chars.isLetter) == RunEnd(source.text, position, chars.isLetter)
        decreases |source.text| - position
      {
        position := position + 1;
      }
      var text := source.Substring(start, position - start).value;
      kind := facts.keywordKind(text);
    }
  }

  // Properties of one lexing step.

  /** At the end of the text, or at a NUL character, Lex produces the end of
      file token and stays put; anywhere else it moves forward. */
  lemma LexEndOfFile(text: string, facts: SyntaxFacts, chars: CharClass, p: nat)
    requires chars.Valid() && p <= |text|
    ensures var r := LexAt(text, facts, chars, p);
      && (r.token.kind == EndOfFileToken <==> CharAt(text, p) == '\0')
      && (r.next == p <==> CharAt(text, p) == '\0')
      && (CharAt(text, p) == '\0' ==> r.diagnostics == [] && r.token.value == NoValue)
  {
    if CharAt(text, p) == '\0' {
      assert ScanToken(text, p, facts, chars) == Scanned(EndOfFileToken, p, NoValue, []);
    }
  }

  /** The operators that may be doubled, with the second character and the
      two kinds. */
  function PairTable(c: char): Option<(char, SyntaxKind, SyntaxKind)>
  {
    if c == '&' then Some(('&', AmpersandToken, AmpersandAmpersandToken))
    else if c == '|' then Some(('|', PipeToken, PipePipeToken))
    else if c == '=' then Some(('=', EqualsToken, EqualsEqualsToken))
    else if c == '!' then Some(('=', BangToken, BangEqualsToken))
    else if c == '<' then Some(('=', LessToken, LessOrEqualsToken))
    else if c == '>' then Some(('=', GreaterToken, GreaterOrEqualsToken))
    else None
  }

  /** The operators and brackets that are always one character long. */
  function SingleTable(c: char): Option<SyntaxKind>
  {
    if c == '+' then Some(PlusToken) else if c == '-' then Some(MinusToken)
    else if c == '*' then Some(StarToken) else if c == '/' then Some(SlashToken)
    else if c == '(' then Some(OpenParenthesisToken) else if c == ')' then Some(CloseParenthesisToken)
    else if c == '{' then Some(OpenBraceToken) else if c == '}' then Some(CloseBraceToken)
    else if c == '~' then Some(TildeToken) else if c == '^' then Some(HatToken)
    else None
  }

  /** The operator cases of the switch in Lex are the two tables: each
      operator character is in exactly one of them. */
  lemma OperatorTables(text: string, p: nat)
    requires IsOperatorStart(CharAt(text, p))
    ensures SingleTable(CharAt(text, p)).Some? ==> PairTable(CharAt(text, p)).None?
    ensures SingleTable(CharAt(text, p)).Some? ==> ScanOperator(text, p) == Scanned(SingleTable(CharAt(text, p)).value, p + 1, NoValue, [])
    ensures SingleTable(CharAt(text, p)).None? ==> PairTable(CharAt(text, p)).Some?
    ensures SingleTable(CharAt(text, p)).None? ==> var (second, single, double) := PairTable(CharAt(text, p)).value;
      second != '\0' && ScanOperator(text, p) == Pair(text, p, second, single, double)
  {
  }

  /** &&, ||, ==, !=, <= and >= are taken whenever both characters are
      there, and otherwise the one-character operator is; neither reports
      anything. */
  lemma PairsAreGreedy(text: string, facts: SyntaxFacts, chars: CharClass, p: nat)
    requires chars.Valid() && p <= |text| && PairTable(CharAt(text, p)).Some?
    ensures var r := LexAt(text, facts, chars, p); var (second, single, double) := PairTable(CharAt(text, p)).value;
      && (CharAt(text, p + 1) == second ==> r.token.kind == double && r.next == p + 2)
      && (CharAt(text, p + 1) != second ==> r.token.kind == single && r.next == p + 1)
      && r.diagnostics == []
  {
    var c := CharAt(text, p);
    assert IsOperatorStart(c);
    var pair := PairTable(c).value;
    assert ScanOperator(text, p) == Pair(text, p, pair.0, pair.1, pair.2);
  }

  /** The other operators and the brackets are one character long. */
  lemma SinglesAreShort(text: string, facts: SyntaxFacts, chars: CharClass, p: nat)
    requires chars.Valid() && p <= |text| && SingleTable(CharAt(text, p)).Some?
    ensures var r := LexAt(text, facts, chars, p);
      r.token.kind == SingleTable(CharAt(text, p)).value && r.next == p + 1 && r.diagnostics == []
  {
    var c := CharAt(text, p);
    assert IsOperatorStart(c);
    assert ScanOperator(text, p) == Scanned(SingleTable(c).value, p + 1, NoValue, []);
  }

  /** A quote starts a string token. A line break or the end of the text
      before the closing quote adds one unterminated-string diagnostic over
      the opening quote; the token is a string token either way. */
  lemma StringTokens(text: string, facts: SyntaxFacts, chars: CharClass, p: nat)
    requires chars.Valid() && p <= |text| && CharAt(text, p) == '"'
    ensures var r := LexAt(text, facts, chars, p); var body := ScanString(text, p + 1);
      && r.token.kind == StringToken && r.token.value == StringValue(body.value) && r.next == body.end
      && (body.terminated ==> r.diagnostics == [] && text[r.next - 1] == '"')
      && (!body.terminated ==> r.diagnostics == [Diagnostic(TextSpan(p, 1), UnterminatedString)] && EndsLine(CharAt(text, r.next)))
  {
  }

  /** A doubled quote inside a string stands for one quote. */
  lemma DoubledQuote(text: string, p: nat)
    requires p + 1 < |text| && text[p] == '"' && text[p + 1] == '"'
    ensures ScanString(text, p).value == ['"'] + ScanString(text, p + 2).value
    ensures ScanString(text, p).end == ScanString(text, p + 2).end
  {
  }

  /** A digit starts a number token: the whole run of digits. Its value is
      the run's when that fits an int, and 0 with one invalid-number
      diagnostic over the run when it does not. */
  lemma NumberTokens(text: string, facts: SyntaxFacts, chars: CharClass, p: nat)
    requires chars.Valid() && p <= |text| && IsAsciiDigit(CharAt(text, p))
    ensures var r := LexAt(text, facts, chars, p); var digits := text[p..r.next];
      && r.token.kind == NumberToken
      && (forall k :: p <= k < r.next ==> chars.isDigit(text[k])) && !chars.isDigit(CharAt(text, r.next))
      && (TryParse(digits).Some? ==> r.token.value == IntValue(TryParse(digits).value) && r.diagnostics == [])
      && (TryParse(digits).None? ==>
           r.token.value == IntValue(0) && r.diagnostics == [Diagnostic(TextSpan(p, r.next - p), InvalidNumber(digits))])
  {
    DigitScansNumber(text, facts, chars, p);
  }

  /** The switch of Lex sends a digit to ReadNumber. */
  lemma DigitScansNumber(text: string, facts: SyntaxFacts, chars: CharClass, p: nat)
    requires chars.Valid() && p <= |text| && IsAsciiDigit(CharAt(text, p))
    ensures ScanToken(text, p, facts, chars) == ScanNumber(text, p, chars)
  {
    var c := CharAt(text, p);
    assert c != '\0' && c != '"' && !IsOperatorStart(c);
  }

  /** A run of ASCII digits whose value fits an int lexes as that value. */
  lemma SmallNumbersLex(text: string, facts: SyntaxFacts, chars: CharClass, p: nat, q: nat)
    requires chars.Valid() && p < q <= |text|
    requires forall k :: p <= k < q ==> IsAsciiDigit(text[k])
    requires forall k :: p <= k < q ==> chars.isDigit(text[k])
    requires !chars.isDigit(CharAt(text, q)) && DecimalValue(text[p..q]) <= MaxValue
    ensures LexAt(text, facts, chars, p).token == SyntaxToken(NumberToken, p, Some(facts.getText(NumberToken).GetOr(text[p..q])), IntValue(DecimalValue(text[p..q])))
    ensures LexAt(text, facts, chars, p).next == q && LexAt(text, facts, chars, p).diagnostics == []
  {
    RunEndIsFirstOutside(text, p, q, chars.isDigit);
    assert IsAsciiDigit(CharAt(text, p));
    DigitScansNumber(text, facts, chars, p);
    assert TryParse(text[p..q]) == Some(DecimalValue(text[p..q]));
  }

  /** A run ends at the first character outside its class. */
  lemma {:induction false} RunEndIsFirstOutside(text: string, p: nat, q: nat, inRun: char -> bool)
    requires !inRun('\0') && p <= q <= |text|
    requires forall k :: p <= k < q ==> inRun(text[k])
    requires !inRun(CharAt(text, q))
    ensures RunEnd(text, p, inRun) == q
    decreases q - p
  {
    if p < q {
      RunEndIsFirstOutside(text, p + 1, q, inRun);
    }
  }

  /** A letter starts a word: the whole run of letters, looked up as a
      keyword, so the kind is a keyword or an identifier. */
  lemma WordTokens(text: string, facts: SyntaxFacts, chars: CharClass, p: nat)
    requires chars.Valid() && p < |text|
    requires var c := text[p]; !IsOperatorStart(c) && c != '"' && !IsAsciiDigit(c) && !IsLineSpace(c) && chars.isLetter(c)
    ensures var r := LexAt(text, facts, chars, p);
      && r.token.kind == facts.keywordKind(text[p..r.next]) && IsWordKind(r.token.kind)
      && (forall k :: p <= k < r.next ==> chars.isLetter(text[k])) && !chars.isLetter(CharAt(text, r.next))
      && r.diagnostics == [] && r.token.value == NoValue
  {
  }

  /** Whitespace makes one token out of the whole whitespace run. */
  lemma WhitespaceTokens(text: string, facts: SyntaxFacts, chars: CharClass, p: nat)
    requires chars.Valid() && p < |text|
    requires var c := text[p]; !IsOperatorStart(c) && c != '"' && !IsAsciiDigit(c) && !chars.isLetter(c) && IsWhiteSpace(c)
    ensures var r := LexAt(text, facts, chars, p);
      && r.token.kind == WhitespaceToken && r.diagnostics == []
      && (forall k :: p <= k < r.next ==> IsWhiteSpace(text[k])) && !IsWhiteSpace(CharAt(text, r.next))
  {
    NulIsNotWhiteSpace();
  }

  /** Any other character is a bad token one character long, reported at
      its position. */
  lemma BadCharacters(text: string, facts: SyntaxFacts, chars: CharClass, p: nat)
    requires chars.Valid() && p < |text|
    requires var c := text[p];
      c != '\0' && !IsOperatorStart(c) && c != '"' && !IsAsciiDigit(c) && !chars.isLetter(c) && !IsWhiteSpace(c)
    ensures var r := LexAt(text, facts, chars, p);
      r.token.kind == BadToken && r.next == p + 1 && r.diagnostics == [BadCharacterAt(p, text[p])]
  {
    NulIsNotWhiteSpace();
  }
}
