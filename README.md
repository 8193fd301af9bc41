# Compiler.Demo in Dafny

A verified model of the two compilers in the Compiler.Demo repository.

## What is modelled

**Cocoa, the current compiler.**
- Text front end:
  - `SourceText` splits a text into lines and finds the line of a position by binary search (`source_text.dfy`).
  - The lexer turns characters into tokens (`lexer.dfy`, with `chars.dfy` and `numerals.dfy`).
  - The parser climbs precedences over the token array (`parser.dfy`, `tokens.dfy`).
  - `SeparatedSyntaxList` does the index arithmetic of separated lists (`separated_list.dfy`).
- Binding:
  - The scope chain keeps a table of variables and a table of functions (`scope.dfy`).
  - The binary and unary operator tables live in `operators.dfy`.
  - `expression_binder.dfy` binds expressions as functions of a snapshot of the scope chain.
  - `binder.dfy` binds statements, function declarations, submissions and the program; its methods swap the scope in and out.
- Back end:
  - The control-flow graph splits statements into basic blocks, wires and folds edges, prunes unentered blocks, and decides "all paths return" (`cfg.dfy`).
  - The goto-based evaluator runs programs (`evaluator.dfy`). It has a statement index, a label map, the caller's global dictionary, a stack of local frames and the shared last value.
  - The bound-tree printer writes through an indenting writer (`printer.dfy`).
  - `Compilation` chains submissions, binds each global scope once, and short-circuits on diagnostics (`compilation.dfy`).
- The interactive REPL:
  - the in-place editing of the submission buffer, the cursor setters and the history paging (`repl.dfy`);
  - the span ordering `TextSpanComparer` (`span_comparer.dfy`).

**The older calculators in `Compiler.Demo/CodeAnalysis`.** These are modelled separately from Cocoa:
- An arithmetic-only lexer and a term/factor parser (`arith_lexer.dfy`, `arith_parser.dfy`).
- A lexer with keywords and two-character operators, and a precedence-climbing parser (`demo_lexer.dfy`, `demo_parser.dfy`).
- An operator table, a binder, and a 32-bit integer evaluator (`demo_operators.dfy`, `demo_binder.dfy`, `demo_evaluator.dfy`).

**C# integer semantics.** `int32.dfy` spells these out:
- unchecked 32-bit wrap-around;
- division that truncates toward zero;
- the remainder sign rule;
- the two division exceptions: `DivideByZeroException`, and `OverflowException` for `int.MinValue / -1`.

**How the source's shape is kept.**
- Objects whose fields the source updates are classes whose methods are proved against specification functions. Each method's `ensures` ties the new state to a function of the old state, for example `Snapshot() == Assigned(v, x, old(Snapshot()))`. The properties are then proved about those functions. These classes are:
  - the lexers and parsers, with their position fields;
  - the binder, with its scope;
  - `BoundScope`, the graph builders and the evaluator;
  - the indenting writer, `Compilation`, the REPL and its submission view.
- Code that only computes is written as functions and lemmas: the operator tables, the old calculator's binder and evaluator, and the comparer.
- Exceptions the source throws are modelled as `Result` failures that name the cause.
- Diagnostics are sequences of (span, kind) values.

**Where the sources of different revisions disagree, the model follows the code that uses them.**
- `BoundScope.cs` has only a variable table, yet the binder declares and looks up functions too (`Binder.cs:124`, `Binder.cs:434`). The model's scope has a second table of functions with the same declare and look-up shape.
- The bound-node kinds are the union of those the binder, the evaluator and the printer switch on.
- `SyntaxToken.cs:24` computes a token's span from `Text.Length`, which throws a null-reference exception on a token the parser inserted (its text is null), and this revision has no `IsMissing`. The binder and the parser's `MatchToken` treat such tokens as missing, so the model follows them: an inserted token has no text, `IsMissing` holds, and its span is empty (`syntax.dfy`).
- In the second calculator, `LiteralExpressionSyntax.cs:10` has only a one-argument constructor and no `Value`. Yet `Parser.cs:126` passes a token and a value, and `Binder.cs:30` reads `syntax.Value ?? 0`. The model follows the callers: a literal holds its token and an optional value (`demo_parser.dfy`, `demo_binder.dfy`).
- In the second calculator, `BoundUnaryExpression.cs:10` takes a `BoundUnaryOperatorKind`, but `Binder.cs:46` passes the `BoundUnaryOperator` it looked up. The model stores the operator's kind, as the node declares, and its operator lookup returns that kind (`demo_binder.dfy`).

**What the proofs show about the source.**
- A pruned control-flow graph may keep blocks that are not reachable from Start. A cycle of blocks that only enter each other is never removed, because every block on it keeps an incoming edge. `CocoaControlFlow.UnreachableLoopSurvives` exhibits such a graph. `CocoaControlFlow.ReachableSurvives` proves the direction that does hold.
- In the second calculator, `true && false` binds without a diagnostic. Its evaluator, however, only computes integers, so every well-typed tree of type bool throws an invalid cast (`DemoEvaluator.BoolTreesThrow`).
- `AllPathsReturn` on an empty body throws. The bodiless graph links Start, which has no statements, to End, and `Statements.Last()` fails on it (`CocoaControlFlow.EmptyBodyFaults`).

## Model

| member | source | states |
|---|---|---|
| CocoaText.LineBreakWidth | src/Compiler.Demo/Cocoa/CodeAnalysis/Text/SourceText.cs:103-119 | the width is 2 exactly at "\r\n", 1 exactly at a lone '\r' or '\n', 0 exactly at any other character, and the break never runs past the end of the text |
| CocoaText.ParseLines | src/Compiler.Demo/Cocoa/CodeAnalysis/Text/SourceText.cs:62-101 | the lines tile the text: the first starts at 0, each inner line has no break inside and ends at a break whose width is the difference of its two lengths, the next line starts after that break, and the last line runs to the end of the text with no break; there is exactly one line more than there are line breaks |
| CocoaText.CoversExtend | src/Compiler.Demo/Cocoa/CodeAnalysis/Text/SourceText.cs:77-83 | adding the line that runs from the line start to a break, with the break's width, extends the covered prefix to just past the break |
| CocoaText.LastLineCloses | src/Compiler.Demo/Cocoa/CodeAnalysis/Text/SourceText.cs:86-89 | the rest of the text after the last break, even when empty, is a final line that completes the tiling |
| CocoaText.NoBreakSkips | src/Compiler.Demo/Cocoa/CodeAnalysis/Text/SourceText.cs:71-76 | characters that are no break add nothing to the number of breaks that follow |
| CocoaText.CoveredBreaks | src/Compiler.Demo/Cocoa/CodeAnalysis/Text/SourceText.cs:69-84 | the lines added so far are exactly the breaks scanned so far: the breaks of the whole text are the lines plus the breaks after them |
| CocoaText.TilesCount | src/Compiler.Demo/Cocoa/CodeAnalysis/Text/SourceText.cs:62-92 | any tiling of a text has one line more than the text has breaks |
| CocoaText.StartsIncrease | src/Compiler.Demo/Cocoa/CodeAnalysis/Text/SourceText.cs:79-82 | line starts strictly increase in a tiling |
| CocoaText.FirstStartsAtZero | src/Compiler.Demo/Cocoa/CodeAnalysis/Text/SourceText.cs:66-67 | the first line of a tiling starts at position 0 |
| CocoaText.TilesAscend | src/Compiler.Demo/Cocoa/CodeAnalysis/Text/SourceText.cs:29-55 | a tiling's line starts are ascending, which the binary search relies on |
| CocoaText.SearchStarts | src/Compiler.Demo/Cocoa/CodeAnalysis/Text/SourceText.cs:29-55 | the binary search returns -1 for a negative position, and otherwise the index of the last line starting at or before the position, the next line starting after it |
| CocoaText.SourceText.GetLineIndex | src/Compiler.Demo/Cocoa/CodeAnalysis/Text/SourceText.cs:29-55 | -1 for a negative position; otherwise a line index whose line starts at or before the position while the next line, if any, starts after it |
| CocoaText.SourceText.Substring | src/Compiler.Demo/Cocoa/CodeAnalysis/Text/SourceText.cs:123 | Substring succeeds exactly when start and length are non-negative and the range lies inside the text, and then gives the characters of that range; otherwise it throws |
| CocoaText.From | src/Compiler.Demo/Cocoa/CodeAnalysis/Text/SourceText.cs:14-19 | the source text keeps the text and file name, its lines tile the text, and there is one line more than there are breaks |
| CocoaText.BreakCountAppend | src/Compiler.Demo/Cocoa/CodeAnalysis/Text/SourceText.cs:103-119 | the breaks of two texts joined are the breaks of each, unless a trailing '\r' and a leading '\n' meet and make one "\r\n" |
| CocoaText.CrLfIsOneBreak | src/Compiler.Demo/Cocoa/CodeAnalysis/Text/SourceText.cs:103-119 | "\r\n" inserted anywhere in any text adds exactly one break, so it is never counted as two (and "a\r\nb\n" has two breaks) |
| SpanComparer.Compare | src/Compiler.Demo/Interactive.Demo/TextSpanComparer.cs:8-17 | the comparison is zero exactly when the two spans are equal |
| SpanComparer.DifferenceIsZero | src/Compiler.Demo/Interactive.Demo/TextSpanComparer.cs:10-13 | a wrapped 32-bit difference is zero exactly when the two ints are equal |
| SpanComparer.CompareIsLexicographic | src/Compiler.Demo/Interactive.Demo/TextSpanComparer.cs:8-17 | on non-negative spans the sign of the comparison is the order by start, then by length, in both directions |
| SpanComparer.StartDecides | src/Compiler.Demo/Interactive.Demo/TextSpanComparer.cs:10-11 | spans with different starts are ordered by start, whatever their lengths |
| SpanComparer.Antisymmetric | src/Compiler.Demo/Interactive.Demo/TextSpanComparer.cs:8-17 | swapping the arguments flips the sign and keeps zero |
| SpanComparer.Transitive | src/Compiler.Demo/Interactive.Demo/TextSpanComparer.cs:8-17 | the order is transitive, strictly so when either step is strict |
| SpanComparer.NegativeStartWraps | src/Compiler.Demo/Interactive.Demo/TextSpanComparer.cs:10 | the subtraction wraps: a span starting at int.MinValue compares after one starting at 1 |
| SeparatedLists.SeparatedList.Count | src/Compiler.Demo/Cocoa/CodeAnalysis/Syntax/SeparatedSyntaxList.cs:22 | Count is half the stored length, rounded up |
| SeparatedLists.SeparatedList.Get | src/Compiler.Demo/Cocoa/CodeAnalysis/Syntax/SeparatedSyntaxList.cs:24 | for a 32-bit index: 0 <= index < Count gives the item stored at 2 * index; below -2^30 the unchecked product wraps, giving the item at 2 * index + 2^32 when that lies inside the array; any other index throws |
| SeparatedLists.WrapOffset | src/Compiler.Demo/Cocoa/CodeAnalysis/Syntax/SeparatedSyntaxList.cs:24-33 | the unchecked offsets index * 2 and index * 2 + 1 are the true ones plus 2^32 below -2^30, the true ones between -2^30 and 2^30, and the true ones minus 2^32 above |
| SeparatedLists.SeparatedList.GetSeparator | src/Compiler.Demo/Cocoa/CodeAnalysis/Syntax/SeparatedSyntaxList.cs:26-34 | for a 32-bit index: null for the last node; the item at 2 * index + 1 for an earlier node; below -2^30 the wrapped offset 2 * index + 1 + 2^32 reads the array when it lies inside; a throw for any other index |
| SeparatedLists.SeparatedList.WhiteSeparators | src/Compiler.Demo/Cocoa/CodeAnalysis/Syntax/SeparatedSyntaxList.cs:36 | GetWhiteSeparators gives the stored array unchanged |
| SeparatedLists.NodesAreEvenPositions | src/Compiler.Demo/Cocoa/CodeAnalysis/Syntax/SeparatedSyntaxList.cs:22-24 | the nodes are the items at the even positions, in order, and there are Count of them |
| SeparatedLists.Enumerate | src/Compiler.Demo/Cocoa/CodeAnalysis/Syntax/SeparatedSyntaxList.cs:38-44 | the enumerator yields the nodes at the even positions, in order |
| SeparatedLists.InterleaveRoundTrip | src/Compiler.Demo/Cocoa/CodeAnalysis/Syntax/SeparatedSyntaxList.cs:17-44 | a list built from nodes with one separator between each two gives back those nodes through Count, the indexer and the enumerator, each separator through GetSeparator, and null after the last node |
| SeparatedLists.InterleavePositions | src/Compiler.Demo/Cocoa/CodeAnalysis/Syntax/SeparatedSyntaxList.cs:24-33 | in the stored array node i sits at 2i and separator i at 2i + 1 |
| CharClasses.NulIsNotWhiteSpace | src/Compiler.Demo/Cocoa/CodeAnalysis/Syntax/Lexer.cs:219-236 | '\0' is no whitespace, so the whitespace loop stops at the end of the text, while space, tab, '\n' and '\r' are whitespace |
| CharClasses.CharAt | src/Compiler.Demo/Cocoa/CodeAnalysis/Syntax/Lexer.cs:30-40 | the character at the index, or '\0' past the end of the text |
| CharClasses.RunEnd | src/Compiler.Demo/Cocoa/CodeAnalysis/Syntax/Lexer.cs:310-315 | the end of a run: every character before it is in the class and the one at it (or '\0' past the end) is not |
| Numerals.TryParse | src/Compiler.Demo/Cocoa/CodeAnalysis/Syntax/Lexer.cs:330 | int.TryParse on a digit run succeeds exactly when the text is a non-empty run of ASCII digits whose value fits an int, and then gives that value |
| Numerals.DigitsValue | src/Compiler.Demo/Cocoa/CodeAnalysis/Syntax/Lexer.cs:320-337 | the decimal digits of a natural number read back as that number |
| Numerals.ParseToString | src/Compiler.Demo/Cocoa/CodeAnalysis/Syntax/Lexer.cs:320-337 | the decimal text of a non-negative int parses back to the same int |
| Numerals.ParseTooLarge | src/Compiler.Demo/Cocoa/CodeAnalysis/Syntax/Lexer.cs:330-333 | the digits of a number above int.MaxValue do not parse |
| Numerals.DecimalValueLeadingZero | src/Compiler.Demo/Cocoa/CodeAnalysis/Syntax/Lexer.cs:330 | a leading zero does not change the value of any run of digits |
| Numerals.ParseLeadingZero | src/Compiler.Demo/Cocoa/CodeAnalysis/Syntax/Lexer.cs:330 | for every non-empty text, a leading zero changes neither whether it parses nor its value ("007" parses as 7) |
| CocoaLexer.ScanString | src/Compiler.Demo/Cocoa/CodeAnalysis/Syntax/Lexer.cs:256-308 | the string body ends in a closing quote when it is terminated, and otherwise stops at the end of the text or of a line |
| CocoaLexer.ScanOperator | src/Compiler.Demo/Cocoa/CodeAnalysis/Syntax/Lexer.cs:55-201 | an operator or bracket token is one or two characters long, has no value and reports nothing |
| CocoaLexer.ScanToken | src/Compiler.Demo/Cocoa/CodeAnalysis/Syntax/Lexer.cs:48-244 | the switch moves forward within the text, and makes an end-of-file token without moving exactly at '\0' or at the end of the text |
| CocoaLexer.LexAt | src/Compiler.Demo/Cocoa/CodeAnalysis/Syntax/Lexer.cs:42-254 | the token starts where Lex started; its text is the kind's fixed text when it has one and otherwise the characters read |
| CocoaLexer.Lexer.constructor | src/Compiler.Demo/Cocoa/CodeAnalysis/Syntax/Lexer.cs:19-22 | a new lexer is at position 0 of its text, with no diagnostics |
| CocoaLexer.Lexer.Peek | src/Compiler.Demo/Cocoa/CodeAnalysis/Syntax/Lexer.cs:30-40 | the character offset places ahead, or '\0' past the end |
| CocoaLexer.Lexer.Lex | src/Compiler.Demo/Cocoa/CodeAnalysis/Syntax/Lexer.cs:42-254 | Lex returns the token LexAt describes, moves to where it ends and adds its diagnostics |
| CocoaLexer.Lexer.ReadToken | src/Compiler.Demo/Cocoa/CodeAnalysis/Syntax/Lexer.cs:48-244 | the switch sets the kind, position, value and diagnostics ScanToken describes |
| CocoaLexer.Lexer.ReadOther | src/Compiler.Demo/Cocoa/CodeAnalysis/Syntax/Lexer.cs:227-243 | the default case: a letter starts a word, other whitespace a whitespace run, anything else a bad character |
| CocoaLexer.Lexer.ReadOperator | src/Compiler.Demo/Cocoa/CodeAnalysis/Syntax/Lexer.cs:55-201 | the operator cases set the kind and position ScanOperator describes and leave value and diagnostics alone |
| CocoaLexer.Lexer.ReadPair | src/Compiler.Demo/Cocoa/CodeAnalysis/Syntax/Lexer.cs:115-200 | a doubled-operator case steps over the first character and takes the second one too exactly when it is the expected one |
| CocoaLexer.Lexer.ReadString | src/Compiler.Demo/Cocoa/CodeAnalysis/Syntax/Lexer.cs:256-308 | the string token's value is the collected body, and an unterminated string reports one diagnostic at the opening quote |
| CocoaLexer.Lexer.ReadStringCharacter | src/Compiler.Demo/Cocoa/CodeAnalysis/Syntax/Lexer.cs:269-303 | one turn of the string loop: either it stops, with the diagnostic for an unterminated string, or it moves forward and keeps the body still to be collected |
| CocoaLexer.Lexer.ReadWhiteSpace | src/Compiler.Demo/Cocoa/CodeAnalysis/Syntax/Lexer.cs:310-318 | the position moves to the end of the whitespace run and the kind is whitespace |
| CocoaLexer.Lexer.ReadNumber | src/Compiler.Demo/Cocoa/CodeAnalysis/Syntax/Lexer.cs:320-337 | the digit run is read and parsed as ScanNumber describes, reporting an invalid number when it does not fit |
| CocoaLexer.Lexer.SkipDigits | src/Compiler.Demo/Cocoa/CodeAnalysis/Syntax/Lexer.cs:322-325 | the position moves to the end of the digit run |
| CocoaLexer.Lexer.ReadIdentifierOrKeyword | src/Compiler.Demo/Cocoa/CodeAnalysis/Syntax/Lexer.cs:339-350 | the letter run is read and its kind is the keyword lookup of its text |
| CocoaLexer.LexEndOfFile | src/Compiler.Demo/Cocoa/CodeAnalysis/Syntax/Lexer.cs:50-54 | Lex makes the end-of-file token, without moving, exactly at '\0' or at the end of the text; anywhere else it moves forward |
| CocoaLexer.OperatorTables | src/Compiler.Demo/Cocoa/CodeAnalysis/Syntax/Lexer.cs:55-201 | each operator character is in exactly one of the one-character and two-character tables, and the switch does what its table entry says |
| CocoaLexer.PairsAreGreedy | src/Compiler.Demo/Cocoa/CodeAnalysis/Syntax/Lexer.cs:115-200 | a doubled operator takes the second character exactly when it matches, and reports nothing |
| CocoaLexer.SinglesAreShort | src/Compiler.Demo/Cocoa/CodeAnalysis/Syntax/Lexer.cs:55-114 | the single operators and the brackets are one character long and report nothing |
| CocoaLexer.StringTokens | src/Compiler.Demo/Cocoa/CodeAnalysis/Syntax/Lexer.cs:202-204 | a quote starts a string token whose value is the body; a terminated one ends after the closing quote and reports nothing, an unterminated one reports a diagnostic at the quote and stops at a line end |
| CocoaLexer.DoubledQuote | src/Compiler.Demo/Cocoa/CodeAnalysis/Syntax/Lexer.cs:281-287 | a doubled quote inside a string stands for one quote |
| CocoaLexer.NumberTokens | src/Compiler.Demo/Cocoa/CodeAnalysis/Syntax/Lexer.cs:320-337 | a digit starts a number token over the whole digit run, with the parsed value when it fits and 0 with an invalid-number diagnostic over the run when it does not |
| CocoaLexer.DigitScansNumber | src/Compiler.Demo/Cocoa/CodeAnalysis/Syntax/Lexer.cs:205-218 | the switch sends an ASCII digit to ReadNumber |
| CocoaLexer.SmallNumbersLex | src/Compiler.Demo/Cocoa/CodeAnalysis/Syntax/Lexer.cs:320-337 | a run of ASCII digits whose value fits an int lexes as one number token of that value, without diagnostics |
| CocoaLexer.RunEndIsFirstOutside | src/Compiler.Demo/Cocoa/CodeAnalysis/Syntax/Lexer.cs:310-315 | a run ends at the first character outside its class |
| CocoaLexer.WordTokens | src/Compiler.Demo/Cocoa/CodeAnalysis/Syntax/Lexer.cs:229-232 | a letter starts a word over the whole letter run, whose kind is the keyword lookup of its text, a keyword or an identifier |
| CocoaLexer.WhitespaceTokens | src/Compiler.Demo/Cocoa/CodeAnalysis/Syntax/Lexer.cs:219-236 | whitespace makes one token of the whole whitespace run, without diagnostics |
| CocoaLexer.BadCharacters | src/Compiler.Demo/Cocoa/CodeAnalysis/Syntax/Lexer.cs:237-241 | any other character is a bad token one character long, reported at its position |
| CocoaParser.TokensEndWell | src/Compiler.Demo/Cocoa/CodeAnalysis/Syntax/Parser.cs:19-31 | the tokens the constructor keeps have text, are neither whitespace nor bad, and end in the end-of-file token, which appears only there |
| CocoaParser.StreamOfText | src/Compiler.Demo/Cocoa/CodeAnalysis/Syntax/Parser.cs:12-33 | the tokens of any text make an array the parser can work on: not empty, ending in end of file, every token with text |
| CocoaParser.TokensStep | src/Compiler.Demo/Cocoa/CodeAnalysis/Syntax/Parser.cs:19-29 | one turn of the lexing loop: the token is kept unless it is whitespace or bad, its diagnostics are added, and the loop ends exactly at the end-of-file token |
| CocoaParser.CollectToken | src/Compiler.Demo/Cocoa/CodeAnalysis/Syntax/Parser.cs:21-28 | one turn of the constructor's loop keeps what remains to be collected: the tokens and diagnostics so far followed by those still to come are those of the whole text; the lexer moves forward unless it has reached end of file |
| CocoaParser.LexAll | src/Compiler.Demo/Cocoa/CodeAnalysis/Syntax/Parser.cs:14-32 | the constructor's loop collects exactly the kept tokens of the whole text and the lexer's diagnostics |
| CocoaParser.Parser.constructor | src/Compiler.Demo/Cocoa/CodeAnalysis/Syntax/Parser.cs:12-33 | the parser starts at position 0 with the kept tokens of the text, which end well, and the lexer's diagnostics |
| CocoaParser.Parser.Peek | src/Compiler.Demo/Cocoa/CodeAnalysis/Syntax/Parser.cs:37-46 | the token offset places ahead, or the last token, end of file, past the end |
| CocoaParser.Parser.NextToken | src/Compiler.Demo/Cocoa/CodeAnalysis/Syntax/Parser.cs:50-56 | returns the current token and moves one step on, reporting nothing |
| CocoaParser.MatchAt | src/Compiler.Demo/Cocoa/CodeAnalysis/Syntax/Parser.cs:58-67 | a token of the expected kind is consumed; any other is reported as unexpected token, at its span, and a missing token of the expected kind is made up at its position without moving |
| CocoaParser.Parser.MatchToken | src/Compiler.Demo/Cocoa/CodeAnalysis/Syntax/Parser.cs:58-67 | MatchToken does what MatchAt describes to the position and the diagnostics |
| CocoaParser.Parser.Parse | src/Compiler.Demo/Cocoa/CodeAnalysis/Syntax/Parser.cs:69-75 | Parse returns the diagnostics, the expression and the matched end-of-file token ParseAt describes |
| CocoaParser.Parser.ParseExpression | src/Compiler.Demo/Cocoa/CodeAnalysis/Syntax/Parser.cs:77-80 | ParseExpression parses as ExpressionAt describes |
| CocoaParser.Parser.ParseAssignmentExpression | src/Compiler.Demo/Cocoa/CodeAnalysis/Syntax/Parser.cs:82-95 | ParseAssignmentExpression parses as AssignmentAt describes |
| CocoaParser.Parser.ParseBinaryExpression | src/Compiler.Demo/Cocoa/CodeAnalysis/Syntax/Parser.cs:97-126 | the precedence-climbing loop parses as BinaryAt describes |
| CocoaParser.Parser.ParseUnaryOrPrimary | src/Compiler.Demo/Cocoa/CodeAnalysis/Syntax/Parser.cs:99-110 | the start of ParseBinaryExpression: a prefix operator binding at least as tight as the parent applied to its operand, else a primary expression |
| CocoaParser.Parser.ParsePrimaryExpression | src/Compiler.Demo/Cocoa/CodeAnalysis/Syntax/Parser.cs:128-163 | ParsePrimaryExpression parses as PrimaryAt describes |
| CocoaParser.ExpressionAt | src/Compiler.Demo/Cocoa/CodeAnalysis/Syntax/Parser.cs:77-80 | parsing only moves forward, only adds diagnostics, and stops inside the token array |
| CocoaParser.AssignmentAt | src/Compiler.Demo/Cocoa/CodeAnalysis/Syntax/Parser.cs:82-95 | parsing only moves forward, only adds diagnostics, and stops inside the token array |
| CocoaParser.BinaryAt | src/Compiler.Demo/Cocoa/CodeAnalysis/Syntax/Parser.cs:97-126 | the loop stops at a token that is no binary operator or binds no tighter than the parent precedence |
| CocoaParser.OperandAt | src/Compiler.Demo/Cocoa/CodeAnalysis/Syntax/Parser.cs:99-110 | the operand is never a binary expression or an assignment |
| CocoaParser.BinaryTail | src/Compiler.Demo/Cocoa/CodeAnalysis/Syntax/Parser.cs:112-123 | the operator loop stops at a token that is no binary operator or binds no tighter than the parent |
| CocoaParser.PrimaryAt | src/Compiler.Demo/Cocoa/CodeAnalysis/Syntax/Parser.cs:128-163 | a primary expression is never binary, unary or an assignment, and parsing it moves forward |
| CocoaParser.ExpressionShape | src/Compiler.Demo/Cocoa/CodeAnalysis/Syntax/Parser.cs:77-126 | the tree is shaped by precedence: under a binary operator a binary left operand binds at least as tight and a binary right operand tighter, a binary operand of a prefix operator binds tighter than it, and no assignment sits under an operator |
| CocoaParser.AssignmentShape | src/Compiler.Demo/Cocoa/CodeAnalysis/Syntax/Parser.cs:82-95 | an assignment's right side is shaped by precedence |
| CocoaParser.BinaryShape | src/Compiler.Demo/Cocoa/CodeAnalysis/Syntax/Parser.cs:97-126 | a binary expression parsed under a parent precedence has only operators tighter than the parent at its top |
| CocoaParser.OperandShape | src/Compiler.Demo/Cocoa/CodeAnalysis/Syntax/Parser.cs:99-110 | the operand of the loop is shaped |
| CocoaParser.TailShape | src/Compiler.Demo/Cocoa/CodeAnalysis/Syntax/Parser.cs:112-123 | the operator loop keeps the tree shaped: operators of equal precedence nest to the left, tighter ones to the right |
| CocoaParser.PrimaryShape | src/Compiler.Demo/Cocoa/CodeAnalysis/Syntax/Parser.cs:128-163 | a primary expression is shaped |
| CocoaParser.OnlyLastEnds | src/Compiler.Demo/Cocoa/CodeAnalysis/Syntax/Parser.cs:19-29 | in the collected array, end of file is the last token only |
| CocoaParser.ExpressionTokens | src/Compiler.Demo/Cocoa/CodeAnalysis/Syntax/Parser.cs:77-80 | when nothing was reported, the tree's tokens, left to right, are exactly the tokens consumed: none is dropped, repeated or made up |
| CocoaParser.AssignmentTokens | src/Compiler.Demo/Cocoa/CodeAnalysis/Syntax/Parser.cs:82-95 | the same for an assignment expression |
| CocoaParser.BinaryTokens | src/Compiler.Demo/Cocoa/CodeAnalysis/Syntax/Parser.cs:97-126 | the same for a binary expression |
| CocoaParser.OperandTokens | src/Compiler.Demo/Cocoa/CodeAnalysis/Syntax/Parser.cs:99-110 | the same for the loop's first operand |
| CocoaParser.TailTokens | src/Compiler.Demo/Cocoa/CodeAnalysis/Syntax/Parser.cs:112-123 | the operator loop adds exactly the tokens it consumes after its left operand |
| CocoaParser.OperatorTokens | src/Compiler.Demo/Cocoa/CodeAnalysis/Syntax/Parser.cs:120-122 | one turn of the operator loop adds the operator token and the right operand's tokens |
| CocoaParser.PrimaryTokens | src/Compiler.Demo/Cocoa/CodeAnalysis/Syntax/Parser.cs:128-163 | the same for a primary expression |
| CocoaParser.ParenthesizedTokens | src/Compiler.Demo/Cocoa/CodeAnalysis/Syntax/Parser.cs:132-139 | a parenthesised expression's tokens are the open parenthesis, the inner tokens and the close parenthesis |
| CocoaParser.ParseWhole | src/Compiler.Demo/Cocoa/CodeAnalysis/Syntax/Parser.cs:69-75 | Parse yields a tree shaped by precedence, ends in an end-of-file token, only adds diagnostics, and when nothing was reported the tree's tokens followed by the end-of-file token are all the tokens from the start |
| CocoaParser.AssignmentExactly | src/Compiler.Demo/Cocoa/CodeAnalysis/Syntax/Parser.cs:82-95 | an expression is an assignment exactly when it starts with an identifier followed by '='; then its target is that identifier and its right side is the assignment expression after the '=', so assignment associates to the right |
| CocoaParser.TailKeepsAssignmentsOut | src/Compiler.Demo/Cocoa/CodeAnalysis/Syntax/Parser.cs:112-125 | the operator loop yields its left operand or a binary expression, never an assignment |
| ArithmeticLexer.OperatorKind | src/Compiler.Demo/Compiler.Demo/CodeAnalysis/Lexer.cs:70-75 | exactly the six characters + - * / ( ) have an operator kind |
| ArithmeticLexer.NextTokenAt | src/Compiler.Demo/Compiler.Demo/CodeAnalysis/Lexer.cs:22-79 | the token starts at the position; end of file comes exactly at the end of the text, with text "\0", without moving or reporting; any other token moves forward and its text is the characters read; at most one diagnostic |
| ArithmeticLexer.NumberIsMaximalRun | src/Compiler.Demo/Compiler.Demo/CodeAnalysis/Lexer.cs:33-51 | a digit starts a number token over the maximal digit run, whose value is the parsed int or 0, with one diagnostic quoting the whole text exactly when the run does not parse |
| ArithmeticLexer.WhitespaceIsMaximalRun | src/Compiler.Demo/Compiler.Demo/CodeAnalysis/Lexer.cs:53-68 | whitespace, when the character is no digit, makes one token of the maximal whitespace run, without diagnostics |
| ArithmeticLexer.OperatorIsOneCharacter | src/Compiler.Demo/Compiler.Demo/CodeAnalysis/Lexer.cs:70-75 | each of + - * / ( ) is a token of one character with its kind, its text and no value |
| ArithmeticLexer.OtherIsBadCharacter | src/Compiler.Demo/Compiler.Demo/CodeAnalysis/Lexer.cs:77-78 | any other character is a bad token of one character and one diagnostic naming it |
| ArithmeticLexer.AllTokensFrom | src/Compiler.Demo/Compiler.Demo/CodeAnalysis/Lexer.cs:22-31 | reading tokens from a position on ends with the end-of-file token |
| ArithmeticLexer.TokensSpellText | src/Compiler.Demo/Compiler.Demo/CodeAnalysis/Lexer.cs:22-79 | lexing loses and adds nothing: the texts of the tokens before end of file spell the text from the position on |
| ArithmeticLexer.EndOfFileOnlyLast | src/Compiler.Demo/Compiler.Demo/CodeAnalysis/Lexer.cs:28-31 | the first token starts at the position, and end of file comes only last, at the end of the text |
| ArithmeticLexer.Lexer.constructor | src/Compiler.Demo/Compiler.Demo/CodeAnalysis/Lexer.cs:11-14 | a new lexer is at position 0 of its text with no diagnostics |
| ArithmeticLexer.Lexer.Current | src/Compiler.Demo/Compiler.Demo/CodeAnalysis/Lexer.cs:18 | the character at the position, '\0' past the end |
| ArithmeticLexer.Lexer.NextToken | src/Compiler.Demo/Compiler.Demo/CodeAnalysis/Lexer.cs:22-79 | NextToken returns the token NextTokenAt describes, moves past it and adds its diagnostics |
| ArithmeticLexer.Lexer.SkipRun | src/Compiler.Demo/Compiler.Demo/CodeAnalysis/Lexer.cs:37-40 | the scanning loops move the position to the end of the run of the class |
| ArithmeticParser.Keep | src/Compiler.Demo/Compiler.Demo/CodeAnalysis/Parser.cs:22-26 | only tokens that are neither whitespace nor bad are kept, and none is added |
| ArithmeticParser.TokensAreKept | src/Compiler.Demo/Compiler.Demo/CodeAnalysis/Parser.cs:13-31 | the parser's token list is the lexer's tokens up to end of file without whitespace and bad ones, ending with the one end-of-file token, and its diagnostics are the lexer's |
| ArithmeticParser.TokensStep | src/Compiler.Demo/Compiler.Demo/CodeAnalysis/Parser.cs:18-28 | one turn of the do-while loop: the tokens still to come are the kept current token followed by those after it |
| ArithmeticParser.CollectToken | src/Compiler.Demo/Compiler.Demo/CodeAnalysis/Parser.cs:18-28 | one turn of the loop moves the lexer forward unless it read end of file, and what is collected plus what is still to come stays the full token list |
| ArithmeticParser.PeekAt | src/Compiler.Demo/Compiler.Demo/CodeAnalysis/Parser.cs:36-45 | the token offset places ahead, clamped to the last token |
| ArithmeticParser.MatchAt | src/Compiler.Demo/Compiler.Demo/CodeAnalysis/Parser.cs:57-66 | a token of the expected kind is consumed; otherwise one diagnostic naming both kinds is added, the position stays and a token of the expected kind without text or value is made up at the current position |
| ArithmeticParser.TermAt | src/Compiler.Demo/Compiler.Demo/CodeAnalysis/Parser.cs:81-94 | a term never moves back, stops inside the list, and stops at a token that is neither + nor - |
| ArithmeticParser.TermTail | src/Compiler.Demo/Compiler.Demo/CodeAnalysis/Parser.cs:85-91 | the loop of ParserTerm stops at a token that is neither + nor - |
| ArithmeticParser.FactorAt | src/Compiler.Demo/Compiler.Demo/CodeAnalysis/Parser.cs:96-109 | a factor stops at a token that is neither * nor / |
| ArithmeticParser.FactorTail | src/Compiler.Demo/Compiler.Demo/CodeAnalysis/Parser.cs:100-106 | the loop of ParserFactor stops at a token that is neither * nor / |
| ArithmeticParser.TermStep | src/Compiler.Demo/Compiler.Demo/CodeAnalysis/Parser.cs:85-91 | one turn of ParserTerm's loop: after the operator there is a further token, and the loop goes on with the left tree combined with the next factor |
| ArithmeticParser.FactorStep | src/Compiler.Demo/Compiler.Demo/CodeAnalysis/Parser.cs:100-106 | one turn of ParserFactor's loop, combining with the next primary expression |
| ArithmeticParser.PrimaryAt | src/Compiler.Demo/Compiler.Demo/CodeAnalysis/Parser.cs:111-124 | a primary expression is a number expression or a parenthesised one |
| ArithmeticParser.TermShape | src/Compiler.Demo/Compiler.Demo/CodeAnalysis/Parser.cs:81-94 | + and - associate to the left and bind looser than * and /: a term is a left-leaning chain of + and - over factors |
| ArithmeticParser.TermTailShape | src/Compiler.Demo/Compiler.Demo/CodeAnalysis/Parser.cs:85-91 | the loop of ParserTerm keeps that shape |
| ArithmeticParser.FactorShape | src/Compiler.Demo/Compiler.Demo/CodeAnalysis/Parser.cs:96-109 | a factor is a left-leaning chain of * and / over primary expressions |
| ArithmeticParser.FactorTailShape | src/Compiler.Demo/Compiler.Demo/CodeAnalysis/Parser.cs:100-106 | the loop of ParserFactor keeps that shape |
| ArithmeticParser.PrimaryShape | src/Compiler.Demo/Compiler.Demo/CodeAnalysis/Parser.cs:111-124 | a parenthesised expression holds a term, and a number expression holds a number token |
| ArithmeticParser.TermTokens | src/Compiler.Demo/Compiler.Demo/CodeAnalysis/Parser.cs:81-94 | when a term adds no diagnostic, its tree holds exactly the tokens it consumed, in order |
| ArithmeticParser.TermTailTokens | src/Compiler.Demo/Compiler.Demo/CodeAnalysis/Parser.cs:85-91 | the same for the loop of ParserTerm, after the left tree's tokens |
| ArithmeticParser.FactorTokens | src/Compiler.Demo/Compiler.Demo/CodeAnalysis/Parser.cs:96-109 | the same for a factor |
| ArithmeticParser.FactorTailTokens | src/Compiler.Demo/Compiler.Demo/CodeAnalysis/Parser.cs:100-106 | the same for the loop of ParserFactor |
| ArithmeticParser.PrimaryTokens | src/Compiler.Demo/Compiler.Demo/CodeAnalysis/Parser.cs:111-124 | the same for a primary expression |
| ArithmeticParser.MissingNumber | src/Compiler.Demo/Compiler.Demo/CodeAnalysis/Parser.cs:122-123 | where neither ( nor a number stands, the primary expression is a made-up number token at that position, with one diagnostic and no token consumed |
| ArithmeticParser.ParseWhole | src/Compiler.Demo/Compiler.Demo/CodeAnalysis/Parser.cs:73-79 | Parse yields a term-shaped root and an end-of-file token, only adds diagnostics, and without diagnostics root and end token are exactly the tokens from the start |
| ArithmeticParser.Parser.constructor | src/Compiler.Demo/Compiler.Demo/CodeAnalysis/Parser.cs:11-32 | the new parser is at position 0 with the kept token list and the lexer's diagnostics |
| ArithmeticParser.Parser.Peek | src/Compiler.Demo/Compiler.Demo/CodeAnalysis/Parser.cs:36-45 | the token offset places ahead, clamped to the last token |
| ArithmeticParser.Parser.NextToken | src/Compiler.Demo/Compiler.Demo/CodeAnalysis/Parser.cs:49-55 | NextToken returns the current token and moves one on |
| ArithmeticParser.Parser.Match | src/Compiler.Demo/Compiler.Demo/CodeAnalysis/Parser.cs:57-66 | Match does what MatchAt describes |
| ArithmeticParser.Parser.ParseExpression | src/Compiler.Demo/Compiler.Demo/CodeAnalysis/Parser.cs:68-71 | ParseExpression parses a term |
| ArithmeticParser.Parser.Parse | src/Compiler.Demo/Compiler.Demo/CodeAnalysis/Parser.cs:73-79 | Parse parses a term, then matches end of file, as ParseAt describes |
| ArithmeticParser.Parser.ParserTerm | src/Compiler.Demo/Compiler.Demo/CodeAnalysis/Parser.cs:81-94 | ParserTerm's loop computes TermAt |
| ArithmeticParser.Parser.ParserFactor | src/Compiler.Demo/Compiler.Demo/CodeAnalysis/Parser.cs:96-109 | ParserFactor's loop computes FactorAt |
| ArithmeticParser.Parser.ParserPrimaryExpression | src/Compiler.Demo/Compiler.Demo/CodeAnalysis/Parser.cs:111-124 | ParserPrimaryExpression computes PrimaryAt |
| DemoLexer.SingleKind | src/Compiler.Demo/Compiler.Demo/CodeAnalysis/Syntax/Lexer.cs:98-103 | exactly the six characters + - * / ( ) are one-character cases of the switch |
| DemoLexer.PairKind | src/Compiler.Demo/Compiler.Demo/CodeAnalysis/Syntax/Lexer.cs:104-123 | exactly & \| = ! are cases that look at the next character |
| DemoLexer.SwitchAt | src/Compiler.Demo/Compiler.Demo/CodeAnalysis/Syntax/Lexer.cs:96-127 | the switch and the bad-character fallback always move forward, and the token's text is the characters passed over |
| DemoLexer.LexAt | src/Compiler.Demo/Compiler.Demo/CodeAnalysis/Syntax/Lexer.cs:36-128 | end of file comes exactly at the end of the text, with text "\0", and does not move; every other token moves forward and its text is the characters read; at most one diagnostic |
| DemoLexer.RunsAreMaximal | src/Compiler.Demo/Compiler.Demo/CodeAnalysis/Syntax/Lexer.cs:43-94 | a digit starts a number token over the maximal digit run, valued by int.TryParse or 0 and reported exactly when it does not parse; whitespace makes a token of the maximal whitespace run; a letter makes a token of the maximal letter run whose kind the keyword lookup gives; none of the last two reports anything |
| DemoLexer.PairsReportTheirEnd | src/Compiler.Demo/Compiler.Demo/CodeAnalysis/Syntax/Lexer.cs:106-121 | && \|\| == != are single tokens of two characters whose reported position is two past their start |
| DemoLexer.SinglesReportTheirStart | src/Compiler.Demo/Compiler.Demo/CodeAnalysis/Syntax/Lexer.cs:98-103 | one-character operators, parentheses and a ! not followed by = report their start and move one on |
| DemoLexer.LoneOperatorIsBad | src/Compiler.Demo/Compiler.Demo/CodeAnalysis/Syntax/Lexer.cs:104-118 | a lone & \| or = falls out of the switch and is a bad character, reported, and passed over |
| DemoLexer.OtherIsBad | src/Compiler.Demo/Compiler.Demo/CodeAnalysis/Syntax/Lexer.cs:126-127 | any other character is a bad token of one character with one diagnostic naming it |
| DemoLexer.AllTokensFrom | src/Compiler.Demo/Compiler.Demo/CodeAnalysis/Syntax/Lexer.cs:38-41 | lexing from any position on ends with the end-of-file token |
| DemoLexer.TokensSpellText | src/Compiler.Demo/Compiler.Demo/CodeAnalysis/Syntax/Lexer.cs:36-128 | lexing loses and adds nothing: the tokens before end of file spell the rest of the text |
| DemoLexer.EndOfFileOnlyLast | src/Compiler.Demo/Compiler.Demo/CodeAnalysis/Syntax/Lexer.cs:38-41 | end of file comes only last, and at the end of the text |
| DemoLexer.Lexer.constructor | src/Compiler.Demo/Compiler.Demo/CodeAnalysis/Syntax/Lexer.cs:11-14 | a new lexer is at position 0 of its text with no diagnostics |
| DemoLexer.Lexer.Peek | src/Compiler.Demo/Compiler.Demo/CodeAnalysis/Syntax/Lexer.cs:22-32 | the character offset places ahead, '\0' past the end |
| DemoLexer.Lexer.Lex | src/Compiler.Demo/Compiler.Demo/CodeAnalysis/Syntax/Lexer.cs:36-128 | Lex returns the token LexAt describes, moves past it and adds its diagnostics |
| DemoLexer.Lexer.Switch | src/Compiler.Demo/Compiler.Demo/CodeAnalysis/Syntax/Lexer.cs:96-127 | the switch and its fallback do what SwitchAt describes |
| DemoLexer.Lexer.ReadRun | src/Compiler.Demo/Compiler.Demo/CodeAnalysis/Syntax/Lexer.cs:47-50 | the scanning loops move the position to the end of the run of the class, adding nothing |
| DemoParser.Keep | src/Compiler.Demo/Compiler.Demo/CodeAnalysis/Syntax/Parser.cs:22-26 | only tokens that are neither whitespace nor bad are kept, and none is added |
| DemoParser.TokensAreKept | src/Compiler.Demo/Compiler.Demo/CodeAnalysis/Syntax/Parser.cs:13-31 | the parser's token list is the lexer's tokens up to end of file without whitespace and bad ones, and its diagnostics are all the lexer's |
| DemoParser.TokensEndWell | src/Compiler.Demo/Compiler.Demo/CodeAnalysis/Syntax/Parser.cs:18-28 | the token list ends in its only end-of-file token and holds no whitespace or bad token |
| DemoParser.TokensStep | src/Compiler.Demo/Compiler.Demo/CodeAnalysis/Syntax/Parser.cs:18-28 | one turn of the do-while loop: the tokens still to come are the kept current token followed by those after it |
| DemoParser.CollectToken | src/Compiler.Demo/Compiler.Demo/CodeAnalysis/Syntax/Parser.cs:18-28 | one turn of the loop moves the lexer forward unless it read end of file, and what is collected plus what is still to come stays the full token list |
| DemoParser.LexAll | src/Compiler.Demo/Compiler.Demo/CodeAnalysis/Syntax/Parser.cs:13-31 | the constructor's loop yields exactly the kept token list and the lexer's diagnostics |
| DemoParser.PeekAt | src/Compiler.Demo/Compiler.Demo/CodeAnalysis/Syntax/Parser.cs:36-45 | the token offset places ahead, clamped to the last token |
| DemoParser.MatchAt | src/Compiler.Demo/Compiler.Demo/CodeAnalysis/Syntax/Parser.cs:57-66 | a token of the expected kind is consumed; otherwise one diagnostic naming both kinds is added, the position stays and a token of the expected kind without text or value is made up at the current position |
| DemoParser.ExpressionAt | src/Compiler.Demo/Compiler.Demo/CodeAnalysis/Syntax/Parser.cs:76-105 | an expression parsed under a parent precedence never moves back and stops at a token that is no binary operator or binds no tighter than the parent |
| DemoParser.OperandAt | src/Compiler.Demo/Compiler.Demo/CodeAnalysis/Syntax/Parser.cs:78-89 | the start of ParserExpression is a unary expression or a primary expression, never a binary one |
| DemoParser.BinaryTail | src/Compiler.Demo/Compiler.Demo/CodeAnalysis/Syntax/Parser.cs:91-102 | the operator loop stops at a token that is no binary operator or binds no tighter than the parent |
| DemoParser.PrimaryAt | src/Compiler.Demo/Compiler.Demo/CodeAnalysis/Syntax/Parser.cs:107-136 | a primary expression is a literal or a parenthesised expression |
| DemoParser.TailStep | src/Compiler.Demo/Compiler.Demo/CodeAnalysis/Syntax/Parser.cs:91-102 | one turn of the operator loop: past the operator there is a token, and the loop goes on with the left tree combined with a right operand parsed at the operator's precedence |
| DemoParser.ExpressionShape | src/Compiler.Demo/Compiler.Demo/CodeAnalysis/Syntax/Parser.cs:76-105 | precedence climbing shapes the tree: under a binary operator the left operand binds at least as tight and the right one tighter, so equal precedences associate to the left; a unary operand binds tighter than its operator if it is binary; keywords carry their bool value and numbers their token's value |
| DemoParser.OperandShape | src/Compiler.Demo/Compiler.Demo/CodeAnalysis/Syntax/Parser.cs:78-89 | the start of ParserExpression has that shape |
| DemoParser.TailShape | src/Compiler.Demo/Compiler.Demo/CodeAnalysis/Syntax/Parser.cs:91-102 | the operator loop keeps that shape |
| DemoParser.PrimaryShape | src/Compiler.Demo/Compiler.Demo/CodeAnalysis/Syntax/Parser.cs:107-136 | a primary expression has that shape: a parenthesised one holds a shaped expression between ( and ), a literal carries its value |
| DemoParser.ExpressionTokens | src/Compiler.Demo/Compiler.Demo/CodeAnalysis/Syntax/Parser.cs:76-105 | when ParserExpression adds no diagnostic, its tree holds exactly the tokens it consumed, in order |
| DemoParser.OperandTokens | src/Compiler.Demo/Compiler.Demo/CodeAnalysis/Syntax/Parser.cs:78-89 | the same for the start of ParserExpression |
| DemoParser.TailTokens | src/Compiler.Demo/Compiler.Demo/CodeAnalysis/Syntax/Parser.cs:91-102 | the same for the operator loop, after the left tree's tokens |
| DemoParser.OperatorTokens | src/Compiler.Demo/Compiler.Demo/CodeAnalysis/Syntax/Parser.cs:99-101 | the same for one turn of the operator loop |
| DemoParser.PrimaryTokens | src/Compiler.Demo/Compiler.Demo/CodeAnalysis/Syntax/Parser.cs:107-136 | the same for a primary expression |
| DemoParser.ParenthesizedTokens | src/Compiler.Demo/Compiler.Demo/CodeAnalysis/Syntax/Parser.cs:111-118 | the same for a parenthesised expression |
| DemoParser.MissingNumber | src/Compiler.Demo/Compiler.Demo/CodeAnalysis/Syntax/Parser.cs:129-134 | where neither ( nor a keyword nor a number stands, the primary expression is a made-up number literal without value at that position, with one diagnostic and no token consumed |
| DemoParser.ParseWhole | src/Compiler.Demo/Compiler.Demo/CodeAnalysis/Syntax/Parser.cs:68-74 | Parse yields a shaped root and an end-of-file token, only adds diagnostics, and without diagnostics root and end token are exactly the tokens from the start |
| DemoParser.Parser.constructor | src/Compiler.Demo/Compiler.Demo/CodeAnalysis/Syntax/Parser.cs:11-32 | the new parser is at position 0 with the kept token list and the lexer's diagnostics |
| DemoParser.Parser.Peek | src/Compiler.Demo/Compiler.Demo/CodeAnalysis/Syntax/Parser.cs:36-45 | the token offset places ahead, clamped to the last token |
| DemoParser.Parser.NextToken | src/Compiler.Demo/Compiler.Demo/CodeAnalysis/Syntax/Parser.cs:49-55 | NextToken returns the current token and moves one on |
| DemoParser.Parser.MatchToken | src/Compiler.Demo/Compiler.Demo/CodeAnalysis/Syntax/Parser.cs:57-66 | MatchToken does what MatchAt describes |
| DemoParser.Parser.Parse | src/Compiler.Demo/Compiler.Demo/CodeAnalysis/Syntax/Parser.cs:68-74 | Parse parses an expression, then matches end of file |
| DemoParser.Parser.ParserExpression | src/Compiler.Demo/Compiler.Demo/CodeAnalysis/Syntax/Parser.cs:76-105 | ParserExpression's loop computes ExpressionAt |
| DemoParser.Parser.ParseUnaryOrPrimary | src/Compiler.Demo/Compiler.Demo/CodeAnalysis/Syntax/Parser.cs:78-89 | the prefix-operator branch computes OperandAt |
| DemoParser.Parser.ParserPrimaryExpression | src/Compiler.Demo/Compiler.Demo/CodeAnalysis/Syntax/Parser.cs:107-136 | ParserPrimaryExpression computes PrimaryAt |
| DemoParser.ParseText | src/Compiler.Demo/Compiler.Demo/CodeAnalysis/Syntax/SyntaxTree.cs:22-26 | parsing a text parses the kept token list of the whole text, starting from the lexer's diagnostics |
| DemoOperators.FirstMatch | src/Compiler.Demo/Compiler.Demo/CodeAnalysis/Binding/BoundBinaryOperator.cs:45 | what FirstOrDefault finds is an entry of the table that matches the token kind and both operand types |
| DemoOperators.FirstMatchIsFirst | src/Compiler.Demo/Compiler.Demo/CodeAnalysis/Binding/BoundBinaryOperator.cs:45 | the entry found is preceded by no matching one, and nothing is found exactly when no entry matches |
| DemoOperators.Bind | src/Compiler.Demo/Compiler.Demo/CodeAnalysis/Binding/BoundBinaryOperator.cs:43-46 | a bound operator matches the token kind and both operand types |
| DemoOperators.EntriesAreUniform | src/Compiler.Demo/Compiler.Demo/CodeAnalysis/Binding/BoundBinaryOperator.cs:32-41 | every entry has one type for its operands and its result, and no token kind appears twice |
| DemoOperators.MixedTypesNeverBind | src/Compiler.Demo/Compiler.Demo/CodeAnalysis/Binding/BoundBinaryOperator.cs:43-46 | operands of different types never bind |
| DemoOperators.ArithmeticOnlyForInts | src/Compiler.Demo/Compiler.Demo/CodeAnalysis/Binding/BoundBinaryOperator.cs:34-37 | + - * / bind exactly for two ints, to their operation, with an int result |
| DemoOperators.LogicOnlyForBools | src/Compiler.Demo/Compiler.Demo/CodeAnalysis/Binding/BoundBinaryOperator.cs:39-40 | && and \|\| bind exactly for two bools, to their operation, with a bool result |
| DemoOperators.OthersNeverBind | src/Compiler.Demo/Compiler.Demo/CodeAnalysis/Binding/BoundBinaryOperator.cs:32-46 | no other token binds: == and != have no entry |
| DemoOperators.ResultIsLeftType | src/Compiler.Demo/Compiler.Demo/CodeAnalysis/Binding/BoundBinaryOperator.cs:32-46 | a bound operator's result has its left operand's type, and it is never Equals or NotEquals |
| DemoOperators.BindIsKeyed | src/Compiler.Demo/Compiler.Demo/CodeAnalysis/Binding/BoundBinaryOperator.cs:43-46 | the first-match search agrees with an independent lookup keyed by token kind |
| DemoBinder.ThrowsOnlyOnParentheses | src/Compiler.Demo/Compiler.Demo/CodeAnalysis/Binding/Binder.cs:16-25 | binding throws exactly when the tree holds a parenthesised expression, and then on that kind |
| DemoBinder.BindingIsWellTyped | src/Compiler.Demo/Compiler.Demo/CodeAnalysis/Binding/Binder.cs:16-62 | a bound tree is well typed: every binary node's operator was found for its operands' types |
| DemoBinder.DiagnosticsPerOperator | src/Compiler.Demo/Compiler.Demo/CodeAnalysis/Binding/Binder.cs:35-62 | binding reports at most one diagnostic per operator, and a binding without diagnostics keeps every node of the syntax tree |
| DemoBinder.MissingValueIsZero | src/Compiler.Demo/Compiler.Demo/CodeAnalysis/Binding/Binder.cs:28-33 | a literal without a value binds to the int 0, silently |
| DemoBinder.UndefinedUnaryKeepsOperand | src/Compiler.Demo/Compiler.Demo/CodeAnalysis/Binding/Binder.cs:35-47 | an undefined unary operator is reported with its text and the operand's type, and the operand stands for the whole expression |
| DemoBinder.UndefinedBinaryKeepsLeft | src/Compiler.Demo/Compiler.Demo/CodeAnalysis/Binding/Binder.cs:49-62 | an undefined binary operator is reported with its text and both types, after the operands' diagnostics, and the left operand stands for the whole expression |
| DemoBinder.Binder.constructor | src/Compiler.Demo/Compiler.Demo/CodeAnalysis/Binding/Binder.cs:10-14 | a new binder has no diagnostics |
| DemoBinder.Binder.BindExpression | src/Compiler.Demo/Compiler.Demo/CodeAnalysis/Binding/Binder.cs:16-25 | BindExpression's result and added diagnostics are those BindOf describes |
| DemoBinder.Binder.BindLiteralExpression | src/Compiler.Demo/Compiler.Demo/CodeAnalysis/Binding/Binder.cs:28-33 | binding a literal adds no diagnostic |
| DemoBinder.Binder.BindUnaryExpression | src/Compiler.Demo/Compiler.Demo/CodeAnalysis/Binding/Binder.cs:35-47 | BindUnaryExpression's result and diagnostics are those BindOf describes |
| DemoBinder.Binder.BindBinaryExpression | src/Compiler.Demo/Compiler.Demo/CodeAnalysis/Binding/Binder.cs:49-62 | BindBinaryExpression's result and diagnostics are those BindOf describes |
| DemoEvaluator.EvaluationWrapsExact | src/Compiler.Demo/Compiler.Demo/CodeAnalysis/Evaluator.cs:23-65 | without division, evaluation succeeds exactly when the unbounded-integer reference has a value, and then gives that value wrapped to 32 bits |
| DemoEvaluator.DivisionFaults | src/Compiler.Demo/Compiler.Demo/CodeAnalysis/Evaluator.cs:53 | division by zero throws DivideByZeroException, int.MinValue / -1 throws OverflowException, and any other division succeeds, truncating toward zero |
| DemoEvaluator.BoolTreesThrow | src/Compiler.Demo/Compiler.Demo/CodeAnalysis/Evaluator.cs:25-28 | the evaluator only computes ints: a well-typed tree of type bool always throws |
| DemoEvaluator.IntTreesThrowOnlyOnDivisionOrNot | src/Compiler.Demo/Compiler.Demo/CodeAnalysis/Evaluator.cs:23-65 | a well-typed int tree throws only for a division or a logical negation, never on the cast or an unknown binary operator |
| Int32.Wrap | src/Compiler.Demo/Cocoa/CodeAnalysis/Evaluator.cs:177-179 | unchecked int arithmetic: the result is congruent to the exact value modulo 2^32, and a value already in range is unchanged |
| Int32.TruncRem | src/Compiler.Demo/Cocoa/CodeAnalysis/Evaluator.cs:180 | the remainder of C#'s truncating division is zero or has the sign of the dividend |
| Int32.TruncDivRecombines | src/Compiler.Demo/Cocoa/CodeAnalysis/Evaluator.cs:180 | truncating quotient times divisor plus remainder is the dividend |
| Int32.TruncDivBounds | src/Compiler.Demo/Cocoa/CodeAnalysis/Evaluator.cs:180 | the remainder is smaller than the divisor and the quotient no larger than the dividend, in absolute value |
| Int32.TruncDivDiffersFromEuclidean | src/Compiler.Demo/Cocoa/CodeAnalysis/Evaluator.cs:180 | for all operands, C#'s truncating quotient and remainder equal Dafny's Euclidean ones when the dividend is non-negative or a multiple of the divisor, and otherwise the quotient is one nearer zero and the remainder is the Euclidean one minus the divisor's magnitude ((-7) / 2 is -3, not -4) |
| Int32.Div | src/Compiler.Demo/Cocoa/CodeAnalysis/Evaluator.cs:180 | int / int throws exactly for a zero divisor, as DivideByZeroException, or int.MinValue / -1, and otherwise is the truncating quotient |
| Int32.Unsigned | src/Compiler.Demo/Cocoa/CodeAnalysis/Evaluator.cs:164 | the 32-bit pattern of an int is below 2^32 |
| Int32.Signed | src/Compiler.Demo/Cocoa/CodeAnalysis/Evaluator.cs:164 | reading a 32-bit pattern as a signed int gives back the pattern |
| Int32.Bitwise | src/Compiler.Demo/Cocoa/CodeAnalysis/Evaluator.cs:181-183 | combining the low bits of two values stays within that many bits |
| Int32.OnesComplement | src/Compiler.Demo/Cocoa/CodeAnalysis/Evaluator.cs:164 | ~a is -a - 1 |
| Int32.BitwiseIdempotent | src/Compiler.Demo/Cocoa/CodeAnalysis/Evaluator.cs:181-183 | a & a and a \| a are a, and a ^ a is 0, for every int |
| Int32.AddWrapsAtMaxValue | src/Compiler.Demo/Cocoa/CodeAnalysis/Evaluator.cs:162 | for all 32-bit operands, a sum above int.MaxValue or below int.MinValue is off by exactly 2^32, and negation is exact except at int.MinValue, which is its own negation |
| Int32.WrapUnique | src/Compiler.Demo/Cocoa/CodeAnalysis/Evaluator.cs:177-179 | wrapping gives the one int congruent to its argument |
| Int32.WrappedNeg | src/Compiler.Demo/Cocoa/CodeAnalysis/Evaluator.cs:162 | negating the wrapped value gives the wrapped exact negation |
| Int32.WrappedAdd | src/Compiler.Demo/Cocoa/CodeAnalysis/Evaluator.cs:177 | adding wrapped values gives the wrapped exact sum |
| Int32.WrappedSub | src/Compiler.Demo/Cocoa/CodeAnalysis/Evaluator.cs:178 | the same for subtraction |
| Int32.WrappedMul | src/Compiler.Demo/Cocoa/CodeAnalysis/Evaluator.cs:179 | the same for multiplication |
| CocoaOperators.FirstBinary | src/Compiler.Demo/Cocoa/CodeAnalysis/Binding/BoundBinaryOperator.cs:69 | FirstOrDefault: the index found holds a matching entry preceded by none, and none is found only if no entry from there on matches |
| CocoaOperators.FirstUnary | src/Compiler.Demo/Cocoa/CodeAnalysis/Binding/BoundUnaryOperator.cs:42 | the same for the unary table |
| CocoaOperators.BindBinary | src/Compiler.Demo/Cocoa/CodeAnalysis/Binding/BoundBinaryOperator.cs:67-70 | the entry bound is the first in the table that matches all three keys, and null comes exactly when none matches |
| CocoaOperators.BindUnary | src/Compiler.Demo/Cocoa/CodeAnalysis/Binding/BoundUnaryOperator.cs:40-43 | the entry bound is the first that matches the token kind and operand type, and null comes exactly when none matches |
| CocoaOperators.BinaryEntriesAgree | src/Compiler.Demo/Cocoa/CodeAnalysis/Binding/BoundBinaryOperator.cs:38-65 | every entry takes two operands of one type and agrees with an independent reference table of operation and result type |
| CocoaOperators.BinaryTableComplete | src/Compiler.Demo/Cocoa/CodeAnalysis/Binding/BoundBinaryOperator.cs:38-65 | every key of the reference table has an entry that binds |
| CocoaOperators.ArithmeticAndBitwiseComplete | src/Compiler.Demo/Cocoa/CodeAnalysis/Binding/BoundBinaryOperator.cs:40-58 | the arithmetic and bitwise keys of the reference table bind |
| CocoaOperators.LogicalAndRelationalComplete | src/Compiler.Demo/Cocoa/CodeAnalysis/Binding/BoundBinaryOperator.cs:47-64 | the logical, equality and comparison keys of the reference table bind |
| CocoaOperators.MixedOperandsNeverBind | src/Compiler.Demo/Cocoa/CodeAnalysis/Binding/BoundBinaryOperator.cs:67-70 | operands of different types never bind |
| CocoaOperators.BindBinaryTable | src/Compiler.Demo/Cocoa/CodeAnalysis/Binding/BoundBinaryOperator.cs:38-70 | Bind succeeds exactly for equal operand types with a reference entry, and then gives the token, the types, the operation and the result type the reference says |
| CocoaOperators.BinaryEntriesReachable | src/Compiler.Demo/Cocoa/CodeAnalysis/Binding/BoundBinaryOperator.cs:38-65 | no entry is shadowed by an earlier one: each is what Bind gives for its own keys |
| CocoaOperators.ArithmeticOperators | src/Compiler.Demo/Cocoa/CodeAnalysis/Binding/BoundBinaryOperator.cs:41-43 | - * / bind only for two ints, with an int result |
| CocoaOperators.AdditionOperator | src/Compiler.Demo/Cocoa/CodeAnalysis/Binding/BoundBinaryOperator.cs:38-65 | + binds for two ints or two strings, with the operands' type as result |
| CocoaOperators.ComparisonOperators | src/Compiler.Demo/Cocoa/CodeAnalysis/Binding/BoundBinaryOperator.cs:49-52 | < <= > >= bind only for two ints, with a bool result |
| CocoaOperators.BitwiseOperators | src/Compiler.Demo/Cocoa/CodeAnalysis/Binding/BoundBinaryOperator.cs:44-58 | & \| ^ bind for two ints or two bools, with the operands' type as result |
| CocoaOperators.LogicalOperators | src/Compiler.Demo/Cocoa/CodeAnalysis/Binding/BoundBinaryOperator.cs:55-57 | && and \|\| bind only for two bools, with a bool result |
| CocoaOperators.EqualityOperators | src/Compiler.Demo/Cocoa/CodeAnalysis/Binding/BoundBinaryOperator.cs:47-64 | == and != bind for two ints, two bools or two strings, with a bool result |
| CocoaOperators.UnaryEntriesAgree | src/Compiler.Demo/Cocoa/CodeAnalysis/Binding/BoundUnaryOperator.cs:31-38 | every unary entry has its operand's type as result and agrees with the reference table |
| CocoaOperators.BindUnaryTable | src/Compiler.Demo/Cocoa/CodeAnalysis/Binding/BoundUnaryOperator.cs:31-43 | ! binds only for bool and + - ~ only for int, with the operand's type as result; every other pair gives null |
| CocoaOperators.UnaryResultIsOperandType | src/Compiler.Demo/Cocoa/CodeAnalysis/Binding/BoundUnaryOperator.cs:31-38 | every unary entry's result type is its operand type |
| CocoaScope.VariableNamed | src/Compiler.Demo/Cocoa/CodeAnalysis/Binding/BoundScope.cs:20 | a table finds a variable exactly when one of its entries has that name, and what it finds has that name |
| CocoaScope.FunctionNamed | src/Compiler.Demo/Cocoa/CodeAnalysis/Binding/Binder.cs:434 | the same for the function table |
| CocoaScope.LookUpVariable | src/Compiler.Demo/Cocoa/CodeAnalysis/Binding/BoundScope.cs:30-43 | lookup through a chain of tables finds the name in the first table that declares it, and nothing exactly when none does |
| CocoaScope.LookUpFunction | src/Compiler.Demo/Cocoa/CodeAnalysis/Binding/Binder.cs:434 | the same for functions |
| CocoaScope.VariableNamedAppend | src/Compiler.Demo/Cocoa/CodeAnalysis/Binding/BoundScope.cs:25 | adding an entry leaves every earlier name's lookup unchanged and makes the new name findable |
| CocoaScope.FunctionNamedAppend | src/Compiler.Demo/Cocoa/CodeAnalysis/Binding/Binder.cs:124 | the same for the function table |
| CocoaScope.DistinctVariablesFound | src/Compiler.Demo/Cocoa/CodeAnalysis/Binding/BoundScope.cs:45-48 | in a table of distinct names every entry is what lookup by its own name finds |
| CocoaScope.BoundScope.constructor | src/Compiler.Demo/Cocoa/CodeAnalysis/Binding/BoundScope.cs:11-14 | a new scope has its parent and empty tables |
| CocoaScope.BoundScope.Chain | src/Compiler.Demo/Cocoa/CodeAnalysis/Binding/BoundScope.cs:16 | the tables of a scope and its ancestors start with its own |
| CocoaScope.BoundScope.TryLookUpVariable | src/Compiler.Demo/Cocoa/CodeAnalysis/Binding/BoundScope.cs:30-35 | a name declared in this scope is found here, whatever the ancestors declare |
| CocoaScope.BoundScope.TryLookUpFunction | src/Compiler.Demo/Cocoa/CodeAnalysis/Binding/Binder.cs:434 | the same for functions |
| CocoaScope.BoundScope.LookUpFollowsChain | src/Compiler.Demo/Cocoa/CodeAnalysis/Binding/BoundScope.cs:30-43 | walking the parent links is lookup through the chain of tables, innermost first |
| CocoaScope.BoundScope.TryDeclareVariable | src/Compiler.Demo/Cocoa/CodeAnalysis/Binding/BoundScope.cs:18-28 | declaring fails and changes nothing exactly when the scope already has the name; otherwise the variable is added and lookup then finds it |
| CocoaScope.BoundScope.TryDeclareFunction | src/Compiler.Demo/Cocoa/CodeAnalysis/Binding/Binder.cs:124 | the same for functions, leaving the variables alone |
| CocoaScope.BoundScope.GetDeclaredVariables | src/Compiler.Demo/Cocoa/CodeAnalysis/Binding/BoundScope.cs:45-48 | exactly the scope's own variables in declaration order (the order of the dictionary's values), each found by its own name, never an ancestor's |
| CocoaSymbols.FunctionSymbol.constructor | src/Compiler.Demo/Cocoa/CodeAnalysis/Symbols/FunctionSymbol.cs:8-14 | a function symbol holds its name, parameters, return type and declaration |
| CocoaSymbols.CreateBuiltins | src/Compiler.Demo/Cocoa/CodeAnalysis/Symbols/BuiltinFunctions.cs:17-25 | print(text: string): void, input(): string and random(max: int): int, three new symbols without declarations |
| BoundTree.ConstantType | src/Compiler.Demo/Cocoa/CodeAnalysis/Binding/BoundLiteralExpression.cs:11-23 | a literal's type follows its value: bool, int or string |
| BoundTree.BoundSymbol.constructor | src/Compiler.Demo/Cocoa/CodeAnalysis/Binding/BoundSymbol.cs:5-8 | a label holds its name |
| CocoaExpressionBinder.LookupType | src/Compiler.Demo/Cocoa/CodeAnalysis/Binding/Binder.cs:510-520 | exactly the names bool, int and string are types, each the type of that name |
| CocoaExpressionBinder.BindConversion | src/Compiler.Demo/Cocoa/CodeAnalysis/Binding/Binder.cs:468-492 | no conversion gives an error expression, reported unless a side already is an error; an explicit conversion where none is allowed is reported and still built; the identity conversion returns the expression itself, any other wraps it in a conversion; at most one diagnostic, at the given span |
| CocoaExpressionBinder.BindUnaryOperation | src/Compiler.Demo/Cocoa/CodeAnalysis/Binding/Binder.cs:380-397 | an erroneous operand gives an error silently; an operator undefined for the operand's type gives an error reported at the operator with its text and the type; otherwise a unary expression over the operand with the operator bound for its type |
| CocoaExpressionBinder.BindBinaryOperation | src/Compiler.Demo/Cocoa/CodeAnalysis/Binding/Binder.cs:399-417 | the same for binary operators, with the left operand's diagnostics before the right one's and both operands of one type when bound |
| CocoaExpressionBinder.BindAssignmentTo | src/Compiler.Demo/Cocoa/CodeAnalysis/Binding/Binder.cs:355-378 | an undefined name is reported and the right-hand side stands for the assignment; a read-only variable is reported at the equals sign and binding goes on; a type mismatch is reported at the right-hand side, which then stands for the assignment; otherwise an assignment to the variable |
| CocoaExpressionBinder.FirstMismatch | src/Compiler.Demo/Cocoa/CodeAnalysis/Binding/Binder.cs:446-456 | the first argument whose type differs from its parameter's, with every earlier one matching, or none when all match |
| CocoaExpressionBinder.BindCallTo | src/Compiler.Demo/Cocoa/CodeAnalysis/Binding/Binder.cs:426-458 | an unknown function, a wrong argument count or the first argument of the wrong type adds exactly one diagnostic and gives an error; otherwise a call of the function on the arguments |
| CocoaExpressionBinder.BindExpression | src/Compiler.Demo/Cocoa/CodeAnalysis/Binding/Binder.cs:296-306 | where a value is needed a void expression never comes out |
| CocoaExpressionBinder.BindExpressionTo | src/Compiler.Demo/Cocoa/CodeAnalysis/Binding/Binder.cs:283-294 | binding to a target type binds as usual and adds one diagnostic exactly when neither side is an error and the types differ |
| CocoaBinder.DeclaredVariables | src/Compiler.Demo/Cocoa/CodeAnalysis/Binding/Binder.cs:151-154 | declaring variables in turn builds a table of distinct names |
| CocoaBinder.DeclaredFunctions | src/Compiler.Demo/Cocoa/CodeAnalysis/Binding/Binder.cs:146-149 | the same for functions |
| CocoaBinder.DeclaredDistinctVariables | src/Compiler.Demo/Cocoa/CodeAnalysis/Binding/Binder.cs:151-154 | variables of distinct names are all kept, in order |
| CocoaBinder.DeclaredDistinctFunctions | src/Compiler.Demo/Cocoa/CodeAnalysis/Binding/Binder.cs:146-149 | the same for functions |
| CocoaBinder.TypeClauseDiagnostics | src/Compiler.Demo/Cocoa/CodeAnalysis/Binding/Binder.cs:220-234 | a type clause reports at most one diagnostic, exactly when it names no known type |
| CocoaBinder.BindParametersKeepsFirst | src/Compiler.Demo/Cocoa/CodeAnalysis/Binding/Binder.cs:98-114 | the seen names are those of the kept parameters, every parameter's name is seen, kept names are distinct and every kept parameter is one of the given ones |
| CocoaBinder.SeenAreKeptNames | src/Compiler.Demo/Cocoa/CodeAnalysis/Binding/Binder.cs:105-113 | a name is seen exactly when a kept parameter has it |
| CocoaBinder.EveryNameSeen | src/Compiler.Demo/Cocoa/CodeAnalysis/Binding/Binder.cs:102-105 | every parameter's name ends up seen |
| CocoaBinder.KeptNamesDistinct | src/Compiler.Demo/Cocoa/CodeAnalysis/Binding/Binder.cs:105-113 | no two kept parameters share a name |
| CocoaBinder.KeptAreGiven | src/Compiler.Demo/Cocoa/CodeAnalysis/Binding/Binder.cs:111-112 | only given parameters are kept |
| CocoaBinder.GlobalStatements | src/Compiler.Demo/Cocoa/CodeAnalysis/Binding/Binder.cs:47 | the global statements are drawn from the members |
| CocoaBinder.Ancestors | src/Compiler.Demo/Cocoa/CodeAnalysis/Binding/Binder.cs:132-137 | the earlier submissions of nothing are none, of a submission at least itself |
| CocoaBinder.CreateRootScope | src/Compiler.Demo/Cocoa/CodeAnalysis/Binding/Binder.cs:162-172 | the root scope has no parent and holds exactly the built-in functions |
| CocoaBinder.DeclareAllFunctions | src/Compiler.Demo/Cocoa/CodeAnalysis/Binding/Binder.cs:146-149 | declaring each function in turn into an empty table leaves the table DeclaredFunctions describes |
| CocoaBinder.DeclareAllVariables | src/Compiler.Demo/Cocoa/CodeAnalysis/Binding/Binder.cs:151-154 | the same for variables |
| CocoaBinder.DeclareSubmission | src/Compiler.Demo/Cocoa/CodeAnalysis/Binding/Binder.cs:143-156 | one submission's scope sits on its parent and holds that submission's functions and variables |
| CocoaBinder.CollectSubmissions | src/Compiler.Demo/Cocoa/CodeAnalysis/Binding/Binder.cs:132-137 | the stack holds the submissions from the given one back to the first |
| CocoaBinder.CreateParentScopes | src/Compiler.Demo/Cocoa/CodeAnalysis/Binding/Binder.cs:130-160 | the scope chain holds one table per earlier submission, the latest innermost, over the root scope of built-ins |
| CocoaBinder.EarlierVariableVisible | src/Compiler.Demo/Cocoa/CodeAnalysis/Binding/Binder.cs:141-157 | a variable declared by any earlier submission is found by lookup through the chain of parent scopes |
| CocoaBinder.Binder.constructor | src/Compiler.Demo/Cocoa/CodeAnalysis/Binding/Binder.cs:21-33 | a binder works in a fresh scope under the parent that holds the enclosing function's parameters |
| CocoaBinder.Binder.BindExpression | src/Compiler.Demo/Cocoa/CodeAnalysis/Binding/Binder.cs:296-306 | the method binds as the expression function describes and appends its diagnostics |
| CocoaBinder.Binder.BindExpressionTo | src/Compiler.Demo/Cocoa/CodeAnalysis/Binding/Binder.cs:283-294 | the method binds to a target type as BindExpressionTo describes |
| CocoaBinder.Binder.BindTypeClause | src/Compiler.Demo/Cocoa/CodeAnalysis/Binding/Binder.cs:220-234 | the clause's type, if known, and its diagnostic otherwise |
| CocoaBinder.Binder.BindVariable | src/Compiler.Demo/Cocoa/CodeAnalysis/Binding/Binder.cs:494-508 | a symbol is always made; it is declared unless the identifier is missing, and a name the scope already has is reported at the identifier; the scope's variable names grow by exactly the declared name |
| CocoaBinder.Binder.BindStatement | src/Compiler.Demo/Cocoa/CodeAnalysis/Binding/Binder.cs:176-190 | statements only add variables and diagnostics and give bound statements of the same shape; blocks, for loops and expression statements leave the scope's variables as they were; the scope's variable names grow by exactly the names the statement declares in the current scope (a declaration, or one under a non-block if, while or do-while body), and each added variable is new |
| CocoaBinder.Binder.BindBlockStatement | src/Compiler.Demo/Cocoa/CodeAnalysis/Binding/Binder.cs:192-206 | a block binds in a child scope and then restores the scope unchanged |
| CocoaBinder.Binder.BindVariableDeclaration | src/Compiler.Demo/Cocoa/CodeAnalysis/Binding/Binder.cs:208-218 | a new variable of the declared type, or else the initializer's, read-only for let, with the initializer converted to that type |
| CocoaBinder.Binder.BindIfStatement | src/Compiler.Demo/Cocoa/CodeAnalysis/Binding/Binder.cs:236-243 | the condition is bound to bool first, and its diagnostics come first |
| CocoaBinder.Binder.BindWhileStatement | src/Compiler.Demo/Cocoa/CodeAnalysis/Binding/Binder.cs:245-251 | the same for while loops |
| CocoaBinder.Binder.BindDoWhileStatement | src/Compiler.Demo/Cocoa/CodeAnalysis/Binding/Binder.cs:253-259 | the body is bound before the condition, so the condition is bound to bool in the scope the body leaves and its diagnostics come last; the statement keeps its shape |
| CocoaBinder.Binder.BindForStatement | src/Compiler.Demo/Cocoa/CodeAnalysis/Binding/Binder.cs:261-274 | the lower and then the upper bound are bound to int in the current scope, their diagnostics in that order; the loop variable is a fresh read-only int in a child scope, and the scope is restored |
| CocoaBinder.Binder.BindParameterList | src/Compiler.Demo/Cocoa/CodeAnalysis/Binding/Binder.cs:98-114 | one read-only parameter symbol per kept parameter, with its name and declared type |
| CocoaBinder.Binder.BindFunctionDeclaration | src/Compiler.Demo/Cocoa/CodeAnalysis/Binding/Binder.cs:94-128 | the function symbol has the kept parameters, the declared return type or void; a non-void type, repeated parameters and a name already declared are each reported, in order; the function is declared unless its name is taken |
| CocoaBinder.BindFunctionMembers | src/Compiler.Demo/Cocoa/CodeAnalysis/Binding/Binder.cs:40-43 | the scope's functions grow by one new symbol per kept function member, in member order, each with that member as its declaration; a member is kept unless its name was already declared; every function member's name is declared afterwards |
| CocoaBinder.DeclareMember | src/Compiler.Demo/Cocoa/CodeAnalysis/Binding/Binder.cs:40-43 | one turn of the member loop: a global statement is skipped, a function member is bound and declared when its name is new, keeping the loop's invariant |
| CocoaBinder.DeclaredMembersStep | src/Compiler.Demo/Cocoa/CodeAnalysis/Binding/Binder.cs:122-126 | declaring a function whose name is new appends it as the next kept member; a taken name leaves the functions as they were |
| CocoaBinder.KeptFunctionMembersMeaning | src/Compiler.Demo/Cocoa/CodeAnalysis/Binding/Binder.cs:40-43 | the kept members have distinct names, none of them taken before, each is a function member of the unit, and every function member's name is taken or kept |
| CocoaBinder.BindMembers | src/Compiler.Demo/Cocoa/CodeAnalysis/Binding/Binder.cs:37-51 | in a fresh binder, the function members are declared first and the global statements bound after; the functions are the kept members in order, and the variable names are exactly those the global statements declare |
| CocoaBinder.BindGlobalStatements | src/Compiler.Demo/Cocoa/CodeAnalysis/Binding/Binder.cs:45-51 | one bound statement per global statement, in order, of the same shape; the scope's variable names grow by exactly the names those statements declare, earlier variables kept, each added one new |
| CocoaBinder.BindGlobalScope | src/Compiler.Demo/Cocoa/CodeAnalysis/Binding/Binder.cs:35-63 | the submission keeps its predecessor, follows its diagnostics, binds each global statement in order, holds new function symbols for the kept function members in member order with those members as declarations, holds new variables whose names are exactly those the global statements declare, all distinct-named and global |
| CocoaBinder.BindFunctionBodies | src/Compiler.Demo/Cocoa/CodeAnalysis/Binding/Binder.cs:76-84 | the fault is exactly the first exception of the loop (a function without a declaration, or one whose body is already recorded), and without one every function of the submission gets the lowering of a body bound from its declaration, earlier bodies kept and diagnostics only appended |
| CocoaBinder.BindNextBody | src/Compiler.Demo/Cocoa/CodeAnalysis/Binding/Binder.cs:77-83 | one function's turn of the inner loop: a missing declaration or an already recorded body is the first exception of the submission; otherwise the function's lowered bound body is added and the body binder's diagnostics `found` are appended: the new diagnostics are exactly the old ones followed by `found` |
| CocoaBinder.BindBody | src/Compiler.Demo/Cocoa/CodeAnalysis/Binding/Binder.cs:78-80 | a function's body binds, in a binder of its own, to a statement of the same shape |
| CocoaBinder.BindAllFunctionBodies | src/Compiler.Demo/Cocoa/CodeAnalysis/Binding/Binder.cs:72-87 | walking the submissions back to the first fails exactly with the first exception over all their functions in visiting order, and otherwise gives exactly their functions lowered bodies bound from their declarations |
| CocoaBinder.BindSubmissionBodies | src/Compiler.Demo/Cocoa/CodeAnalysis/Binding/Binder.cs:74-86 | one submission's turn of the outer loop keeps the loop's invariant: bodies for the functions visited so far, no exception among them, or else the first exception of the whole walk; without one the diagnostics only grow |
| CocoaBinder.BindProgram | src/Compiler.Demo/Cocoa/CodeAnalysis/Binding/Binder.cs:65-92 | binding fails exactly when visiting all functions raises, with the first exception; otherwise the program's statement is the lowered block of global statements and its bodies are lowered bound declarations keyed by exactly the functions of all submissions |
| CocoaBinder.FirstFaultAppend | src/Compiler.Demo/Cocoa/CodeAnalysis/Binding/Binder.cs:72-87 | visiting two lists of functions one after the other raises the first list's exception, or else the second list's with the first list's functions recorded |
| CocoaBinder.FirstFaultNone | src/Compiler.Demo/Cocoa/CodeAnalysis/Binding/Binder.cs:76-84 | the loop raises nothing exactly when every function has a declaration, none is already recorded and none appears twice |
| CocoaBinder.FirstFaultNames | src/Compiler.Demo/Cocoa/CodeAnalysis/Binding/Binder.cs:76-84 | an exception names a function of the list: one without a declaration, or one with a declaration that was recorded before |
| CocoaBinder.ProgramFaultOfNone | src/Compiler.Demo/Cocoa/CodeAnalysis/Binding/Binder.cs:65-92 | BindProgram raises nothing exactly when every function of every submission has a declaration and none is visited twice |
| CocoaBinder.FaultInFunctions | src/Compiler.Demo/Cocoa/CodeAnalysis/Binding/Binder.cs:72-87 | an exception of the walk names a function of the submissions: one without a declaration, or one visited twice |
| CocoaBinder.AllFunctionsSet | src/Compiler.Demo/Cocoa/CodeAnalysis/Binding/Binder.cs:72-87 | the functions BindProgram visits are, as a set, the functions of all submissions |
| CocoaControlFlow.FirstUnlowered | src/Compiler.Demo/Cocoa/CodeAnalysis/Binding/ControlFlowGraph.cs:96-114 | every statement before the index is of a kind a basic block may hold, and the one at the index is not |
| CocoaControlFlow.BuildingPlain | src/Compiler.Demo/Cocoa/CodeAnalysis/Binding/ControlFlowGraph.cs:108-111 | a declaration or expression statement joins the block under construction |
| CocoaControlFlow.BuildingLabel | src/Compiler.Demo/Cocoa/CodeAnalysis/Binding/ControlFlowGraph.cs:98-101 | a label closes the block under construction and starts the next one |
| CocoaControlFlow.BuildingJump | src/Compiler.Demo/Cocoa/CodeAnalysis/Binding/ControlFlowGraph.cs:102-107 | a goto, conditional goto or return ends its block |
| CocoaControlFlow.BuildingDone | src/Compiler.Demo/Cocoa/CodeAnalysis/Binding/ControlFlowGraph.cs:117-119 | closing the last block leaves well-formed blocks |
| CocoaControlFlow.SplitFlatten | src/Compiler.Demo/Cocoa/CodeAnalysis/Binding/ControlFlowGraph.cs:92-119 | the blocks hold the statements of the body, in order, none lost or added |
| CocoaControlFlow.SplitShaped | src/Compiler.Demo/Cocoa/CodeAnalysis/Binding/ControlFlowGraph.cs:92-119 | no block is empty, a label only starts a block and a jump only ends one |
| CocoaControlFlow.BasicBlocksPartition | src/Compiler.Demo/Cocoa/CodeAnalysis/Binding/ControlFlowGraph.cs:92-119 | the basic blocks partition the body into non-empty blocks, cut exactly before labels and after jumps |
| CocoaControlFlow.BasicBlockBuilder.constructor | src/Compiler.Demo/Cocoa/CodeAnalysis/Binding/ControlFlowGraph.cs:87-90 | a new builder has no statements and no blocks |
| CocoaControlFlow.BasicBlockBuilder.EndBlock | src/Compiler.Demo/Cocoa/CodeAnalysis/Binding/ControlFlowGraph.cs:127-136 | the pending statements, when there are any, become a block and are cleared |
| CocoaControlFlow.BasicBlockBuilder.StartBlock | src/Compiler.Demo/Cocoa/CodeAnalysis/Binding/ControlFlowGraph.cs:122-125 | starting a block closes the pending one |
| CocoaControlFlow.BasicBlockBuilder.Build | src/Compiler.Demo/Cocoa/CodeAnalysis/Binding/ControlFlowGraph.cs:92-120 | the basic blocks of a lowered body, or a fault naming the first statement of another kind |
| CocoaControlFlow.Negate | src/Compiler.Demo/Cocoa/CodeAnalysis/Binding/ControlFlowGraph.cs:258-269 | a bool literal is negated in place; a literal of another type fails the cast; any other condition is wrapped in logical not, of type bool |
| CocoaControlFlow.NegateBindsNot | src/Compiler.Demo/Cocoa/CodeAnalysis/Binding/ControlFlowGraph.cs:267 | the operator used is the one the unary table binds for ! on bool |
| CocoaControlFlow.CollectLabels | src/Compiler.Demo/Cocoa/CodeAnalysis/Binding/ControlFlowGraph.cs:155-164 | every label maps to a block that exists |
| CocoaControlFlow.ConnectedShape | src/Compiler.Demo/Cocoa/CodeAnalysis/Binding/ControlFlowGraph.cs:222-239 | a connected branch leaves a block and enters a block or End, and the branches only grow |
| CocoaControlFlow.StatementBranchesShape | src/Compiler.Demo/Cocoa/CodeAnalysis/Binding/ControlFlowGraph.cs:174-202 | one statement's branches keep that shape |
| CocoaControlFlow.WireShape | src/Compiler.Demo/Cocoa/CodeAnalysis/Binding/ControlFlowGraph.cs:166-204 | the second loop keeps that shape |
| CocoaControlFlow.WiredFacts | src/Compiler.Demo/Cocoa/CodeAnalysis/Binding/ControlFlowGraph.cs:150-204 | the first branch leaves Start for the first block or End; every other leaves a block; every target is a block or End |
| CocoaControlFlow.GreatestSupported | src/Compiler.Demo/Cocoa/CodeAnalysis/Binding/ControlFlowGraph.cs:206-214 | the blocks pruning leaves are the largest set of blocks each entered from Start or from the set |
| CocoaControlFlow.SurvivorsGreatest | src/Compiler.Demo/Cocoa/CodeAnalysis/Binding/ControlFlowGraph.cs:206-214 | the survivors support themselves and contain every self-supporting set |
| CocoaControlFlow.ReachableSurvives | src/Compiler.Demo/Cocoa/CodeAnalysis/Binding/ControlFlowGraph.cs:206-214 | every block on a walk from Start survives pruning |
| CocoaControlFlow.RemovalIsDetach | src/Compiler.Demo/Cocoa/CodeAnalysis/Binding/ControlFlowGraph.cs:241-256 | RemoveBlock's two loops together remove exactly the branches that touch the block |
| CocoaControlFlow.GraphShape | src/Compiler.Demo/Cocoa/CodeAnalysis/Binding/ControlFlowGraph.cs:148-220 | the graph starts with Start and ends with End, every other block is entered by some branch, every branch joins two of its blocks, and each block's lists are its branches in and out |
| CocoaControlFlow.PrunedEntered | src/Compiler.Demo/Cocoa/CodeAnalysis/Binding/ControlFlowGraph.cs:206-214 | every block left by pruning is entered by a branch left by pruning |
| CocoaControlFlow.PrunedClosed | src/Compiler.Demo/Cocoa/CodeAnalysis/Binding/ControlFlowGraph.cs:206-217 | every branch left by pruning joins two blocks left by pruning |
| CocoaControlFlow.GraphBuilder.constructor | src/Compiler.Demo/Cocoa/CodeAnalysis/Binding/ControlFlowGraph.cs:141-146 | a new builder has no blocks, branches or labels |
| CocoaControlFlow.GraphBuilder.Connect | src/Compiler.Demo/Cocoa/CodeAnalysis/Binding/ControlFlowGraph.cs:222-239 | a true literal condition is dropped, a false one adds nothing, a non-bool literal fails the cast; otherwise the branch is added to its source's outgoing list, its target's incoming list and the branch list |
| CocoaControlFlow.GraphBuilder.AddBranch | src/Compiler.Demo/Cocoa/CodeAnalysis/Binding/ControlFlowGraph.cs:234-238 | the three lists each gain the branch and stay consistent |
| CocoaControlFlow.GraphBuilder.DetachIncoming | src/Compiler.Demo/Cocoa/CodeAnalysis/Binding/ControlFlowGraph.cs:243-247 | every branch into the block leaves its source's outgoing list and the branch list |
| CocoaControlFlow.GraphBuilder.DetachOutgoing | src/Compiler.Demo/Cocoa/CodeAnalysis/Binding/ControlFlowGraph.cs:249-253 | every branch out of the block leaves its target's incoming list and the branch list |
| CocoaControlFlow.GraphBuilder.RemoveBlock | src/Compiler.Demo/Cocoa/CodeAnalysis/Binding/ControlFlowGraph.cs:241-256 | the block's branches leave every list and the block leaves the block list, nothing else changes |
| CocoaControlFlow.GraphBuilder.FirstUnentered | src/Compiler.Demo/Cocoa/CodeAnalysis/Binding/ControlFlowGraph.cs:207-213 | the first block with no incoming branch, every earlier one having one |
| CocoaControlFlow.GraphBuilder.Build | src/Compiler.Demo/Cocoa/CodeAnalysis/Binding/ControlFlowGraph.cs:148-220 | the builder computes the graph of the blocks: wired, pruned to the survivors, bracketed by Start and End |
| CocoaControlFlow.GraphBuilder.Graph | src/Compiler.Demo/Cocoa/CodeAnalysis/Binding/ControlFlowGraph.cs:216-219 | Start and End bracket the remaining blocks, and the graph takes the branch list and the blocks' lists |
| CocoaControlFlow.GraphBuilder.AddBlocks | src/Compiler.Demo/Cocoa/CodeAnalysis/Binding/ControlFlowGraph.cs:148 | the blocks Build is given, each with empty lists |
| CocoaControlFlow.GraphBuilder.IndexLabels | src/Compiler.Demo/Cocoa/CodeAnalysis/Binding/ControlFlowGraph.cs:155-164 | each label statement's label maps to its block, and a label seen before fails as Dictionary.Add does |
| CocoaControlFlow.GraphBuilder.WireStatement | src/Compiler.Demo/Cocoa/CodeAnalysis/Binding/ControlFlowGraph.cs:174-202 | the switch adds the branches of one statement as StatementBranches describes |
| CocoaControlFlow.GraphBuilder.ConditionalJump | src/Compiler.Demo/Cocoa/CodeAnalysis/Binding/ControlFlowGraph.cs:181-190 | a conditional goto connects to its label under the condition and to the next block under its negation, swapped when it jumps if false |
| CocoaControlFlow.GraphBuilder.ConnectPair | src/Compiler.Demo/Cocoa/CodeAnalysis/Binding/ControlFlowGraph.cs:188-189 | the then branch is connected before the else branch |
| CocoaControlFlow.GraphBuilder.FallThrough | src/Compiler.Demo/Cocoa/CodeAnalysis/Binding/ControlFlowGraph.cs:194-199 | only a block's last statement falls through to the next block, or to End after the last block |
| CocoaControlFlow.GraphBuilder.WireAll | src/Compiler.Demo/Cocoa/CodeAnalysis/Binding/ControlFlowGraph.cs:166-204 | the second loop wires every statement of every block in order |
| CocoaControlFlow.GraphBuilder.RemoveUnentered | src/Compiler.Demo/Cocoa/CodeAnalysis/Binding/ControlFlowGraph.cs:209-212 | a block with no incoming branch goes, and no self-supporting set is lost |
| CocoaControlFlow.GraphBuilder.Prune | src/Compiler.Demo/Cocoa/CodeAnalysis/Binding/ControlFlowGraph.cs:206-214 | rescanning until every block has an incoming branch leaves exactly the survivors, in their order |
| CocoaControlFlow.Create | src/Compiler.Demo/Cocoa/CodeAnalysis/Binding/ControlFlowGraph.cs:309-316 | the graph of the basic blocks of the body |
| CocoaControlFlow.ReturnsAlong | src/Compiler.Demo/Cocoa/CodeAnalysis/Binding/ControlFlowGraph.cs:322-329 | true exactly when every listed branch leaves a block ending in a return; a block without statements makes Last() throw |
| CocoaControlFlow.AllPathsReturn | src/Compiler.Demo/Cocoa/CodeAnalysis/Binding/ControlFlowGraph.cs:318-330 | the method computes what the graph's End list says |
| CocoaControlFlow.AllPathsReturnMeaning | src/Compiler.Demo/Cocoa/CodeAnalysis/Binding/ControlFlowGraph.cs:318-330 | for a non-empty body, all paths return exactly when every branch into End leaves a block whose last statement is a return |
| CocoaControlFlow.EmptyBodyFaults | src/Compiler.Demo/Cocoa/CodeAnalysis/Binding/ControlFlowGraph.cs:150-151 | an empty body links Start straight to End, and Start's Last() throws |
| CocoaControlFlow.UnreachableLoopSurvives | src/Compiler.Demo/Cocoa/CodeAnalysis/Binding/ControlFlowGraph.cs:206-214 | a block that jumps to itself after a return survives pruning although no path from Start reaches it |
| CocoaControlFlow.LoopGraph | src/Compiler.Demo/Cocoa/CodeAnalysis/Binding/ControlFlowGraph.cs:309-316 | that body splits into a return block and a looping block wired together |
| CocoaEvaluator.ApplyUnary | src/Compiler.Demo/Cocoa/CodeAnalysis/Evaluator.cs:155-168 | a unary operation that succeeds yields a bool for logical negation and an int otherwise |
| CocoaEvaluator.Convert | src/Compiler.Demo/Cocoa/CodeAnalysis/Evaluator.cs:242-261 | a conversion that succeeds yields a value of the target type; a failed one reports the bool, int or string conversion that threw, and any other target type is unexpected |
| CocoaEvaluator.Assigned | src/Compiler.Demo/Cocoa/CodeAnalysis/Evaluator.cs:263-274 | assignment keeps the number of frames |
| CocoaEvaluator.LabelMap | src/Compiler.Demo/Cocoa/CodeAnalysis/Evaluator.cs:39-47 | building the label map fails only on a label added twice |
| CocoaEvaluator.Eval | src/Compiler.Demo/Cocoa/CodeAnalysis/Evaluator.cs:105-126 | evaluating an expression never touches the frames below the current one, and on success leaves as many frames as it found |
| CocoaEvaluator.EvalCall | src/Compiler.Demo/Cocoa/CodeAnalysis/Evaluator.cs:197-240 | a call keeps the lower frames and, on success, pops the frame it pushed |
| CocoaEvaluator.EvalArgs | src/Compiler.Demo/Cocoa/CodeAnalysis/Evaluator.cs:222-229 | the argument loop keeps the frames |
| CocoaEvaluator.Step | src/Compiler.Demo/Cocoa/CodeAnalysis/Evaluator.cs:53-86 | one pass of the statement loop keeps the frames |
| CocoaEvaluator.Exec | src/Compiler.Demo/Cocoa/CodeAnalysis/Evaluator.cs:51-89 | the loop keeps the frames and, on leaving the body, yields the last value |
| CocoaEvaluator.Run | src/Compiler.Demo/Cocoa/CodeAnalysis/Evaluator.cs:37-90 | EvaluateStatement yields the last value |
| CocoaEvaluator.GlobalStore.constructor | src/Compiler.Demo/Cocoa/CodeAnalysis/Evaluator.cs:18 | the global dictionary holds the given values |
| CocoaEvaluator.Evaluator.constructor | src/Compiler.Demo/Cocoa/CodeAnalysis/Evaluator.cs:24-30 | the evaluator takes the global dictionary and pushes one empty frame |
| CocoaEvaluator.Evaluator.Evaluate | src/Compiler.Demo/Cocoa/CodeAnalysis/Evaluator.cs:32-35 | Evaluate runs the program's statement as Run describes |
| CocoaEvaluator.Evaluator.EvaluateStatement | src/Compiler.Demo/Cocoa/CodeAnalysis/Evaluator.cs:37-90 | the method builds the label map and runs the loop as Run describes |
| CocoaEvaluator.Evaluator.ExecuteStep | src/Compiler.Demo/Cocoa/CodeAnalysis/Evaluator.cs:53-86 | the switch runs one statement as Step describes |
| CocoaEvaluator.Evaluator.EvaluateExpression | src/Compiler.Demo/Cocoa/CodeAnalysis/Evaluator.cs:105-126 | the switch evaluates as Eval describes |
| CocoaEvaluator.Evaluator.EvaluateVariableExpression | src/Compiler.Demo/Cocoa/CodeAnalysis/Evaluator.cs:133-144 | a global reads the global dictionary and any other variable the top frame |
| CocoaEvaluator.Evaluator.Assign | src/Compiler.Demo/Cocoa/CodeAnalysis/Evaluator.cs:263-274 | an assignment stores into the global dictionary or the top frame, as Assigned describes |
| CocoaEvaluator.Evaluator.EvaluateCallExpression | src/Compiler.Demo/Cocoa/CodeAnalysis/Evaluator.cs:197-240 | the built-ins by reference, then a user function |
| CocoaEvaluator.Evaluator.CallPrint | src/Compiler.Demo/Cocoa/CodeAnalysis/Evaluator.cs:203-208 | print evaluates its argument, writes it as a line and yields null |
| CocoaEvaluator.Evaluator.CallRandom | src/Compiler.Demo/Cocoa/CodeAnalysis/Evaluator.cs:209-218 | random evaluates its bound and draws once |
| CocoaEvaluator.Evaluator.CallFunction | src/Compiler.Demo/Cocoa/CodeAnalysis/Evaluator.cs:220-239 | a user function's arguments fill a new frame, its body runs there, and the frame is popped |
| CocoaEvaluator.Evaluator.BindArguments | src/Compiler.Demo/Cocoa/CodeAnalysis/Evaluator.cs:222-229 | the arguments are evaluated in order into the new frame under their parameters |
| CocoaEvaluator.LabelMapMeaning | src/Compiler.Demo/Cocoa/CodeAnalysis/Evaluator.cs:39-47 | the label map is built exactly when no label is declared twice; it then maps each label to the index after its statement, and otherwise names a label declared twice |
| CocoaEvaluator.JumpLands | src/Compiler.Demo/Cocoa/CodeAnalysis/Evaluator.cs:67 | a jump succeeds exactly when the body has the target's label statement, and lands just after it |
| CocoaEvaluator.SequentialStepAdvances | src/Compiler.Demo/Cocoa/CodeAnalysis/Evaluator.cs:57-64 | a declaration, an expression statement and a label move on by one; a label always succeeds |
| CocoaEvaluator.GotoStepLands | src/Compiler.Demo/Cocoa/CodeAnalysis/Evaluator.cs:65-68 | a goto changes no state, succeeds exactly when the body declares its label, and lands just after the label statement |
| CocoaEvaluator.ConditionalStepLands | src/Compiler.Demo/Cocoa/CodeAnalysis/Evaluator.cs:69-80 | a conditional goto needs a bool condition, jumps just after its label when the condition equals jumpIfTrue and otherwise moves on by one |
| CocoaEvaluator.EmptyBodyReturnsCallerLast | src/Compiler.Demo/Cocoa/CodeAnalysis/Evaluator.cs:220-239 | calling a user function with an empty body changes nothing and yields the last value the caller left, since the last value is shared |
| CocoaEvaluator.AssignedThenLookup | src/Compiler.Demo/Cocoa/CodeAnalysis/Evaluator.cs:263-274 | reading a variable after assigning it yields the value; every other variable reads as before |
| CocoaEvaluator.AssignedTouchesOneStore | src/Compiler.Demo/Cocoa/CodeAnalysis/Evaluator.cs:263-274 | a global assignment changes only the global dictionary, any other only the top frame |
| CocoaEvaluator.AssignmentYieldsItsValue | src/Compiler.Demo/Cocoa/CodeAnalysis/Evaluator.cs:146-153 | an assignment stores its value and yields it: (a = 10) * a after a = 0 is 100 and leaves a at 10 |
| CocoaEvaluator.ConjunctionEvaluatesBothOperands | src/Compiler.Demo/Cocoa/CodeAnalysis/Evaluator.cs:170-184 | for every l && r, the left operand is evaluated first, then the right one in the state the left leaves whatever the left value is, and the result is their conjunction in the state the right leaves; an exception in either is the result (so false && (x = true) still assigns x) |
| CocoaEvaluator.BinaryTableWellTyped | src/Compiler.Demo/Cocoa/CodeAnalysis/Evaluator.cs:170-195 | every binary table entry on operands of its types yields its result type, and throws only for division by zero or int.MinValue / -1 |
| CocoaEvaluator.UnaryTableWellTyped | src/Compiler.Demo/Cocoa/CodeAnalysis/Evaluator.cs:155-168 | every unary table entry on an operand of its type succeeds with its result type |
| CocoaEvaluator.DivisionFaults | src/Compiler.Demo/Cocoa/CodeAnalysis/Evaluator.cs:180 | division by zero and int.MinValue / -1 throw, and any other division truncates toward zero |
| CocoaEvaluator.NegateEvaluatesOpposite | src/Compiler.Demo/Cocoa/CodeAnalysis/Evaluator.cs:163 | the condition the control-flow graph negates evaluates to the opposite truth value with the same effects |
| CocoaEvaluator.RandomInRange | src/Compiler.Demo/Cocoa/CodeAnalysis/Evaluator.cs:209-218 | random(max) throws for a negative bound, and otherwise yields a number in [0, max), or 0 for a bound of 0, drawing once |
| CocoaEvaluator.PrintWritesOneLine | src/Compiler.Demo/Cocoa/CodeAnalysis/Evaluator.cs:203-208 | print writes its text as one line, a null string as an empty line, and yields null |
| CocoaEvaluator.ArgumentsBindParameters | src/Compiler.Demo/Cocoa/CodeAnalysis/Evaluator.cs:222-229 | the new frame binds exactly the parameters that have arguments, and there are no more arguments than parameters |
| CocoaEvaluator.ArgumentsBindValues | src/Compiler.Demo/Cocoa/CodeAnalysis/Evaluator.cs:222-229 | when a call's arguments bind, the arguments were evaluated left to right, each in the state the previous one leaves, the k-th parameter holds the k-th value, the frame's earlier entries are kept, and the state is the one the last argument leaves |
| CocoaPrinter.Writer.constructor | src/Compiler.Demo/Cocoa/CodeAnalysis/Binding/BoundNodePrinter.cs:20 | a new indented writer holds no text, is at level 0 and has no tabs pending |
| CocoaPrinter.Writer.Write | src/Compiler.Demo/Cocoa/CodeAnalysis/Binding/BoundNodePrinter.cs:293 | a write puts the level's tabs first when a line is starting, then the text |
| CocoaPrinter.Writer.WriteLine | src/Compiler.Demo/Cocoa/CodeAnalysis/Binding/BoundNodePrinter.cs:140 | a line break, after the tabs when the line is empty, leaves the next write starting a line |
| CocoaPrinter.Writer.SetIndent | src/Compiler.Demo/Cocoa/CodeAnalysis/Binding/BoundNodePrinter.cs:93 | the Indent setter keeps the text and takes a negative level as 0 |
| CocoaPrinter.PutPut | src/Compiler.Demo/Cocoa/CodeAnalysis/Binding/BoundNodePrinter.cs:302-306 | two writes in a row write their concatenation, so piece-by-piece output equals the whole text |
| CocoaPrinter.DoubleQuotes | src/Compiler.Demo/Cocoa/CodeAnalysis/Binding/BoundNodePrinter.cs:267 | doubling the quotes never shortens the string |
| CocoaPrinter.QuotedLiteralLexes | src/Compiler.Demo/Cocoa/CodeAnalysis/Binding/BoundNodePrinter.cs:265-269 | a string literal as printed, quoted with its quotes doubled, lexes back to one string token with the same value, covering the whole text with no diagnostics |
| CocoaPrinter.WriteExpression | src/Compiler.Demo/Cocoa/CodeAnalysis/Binding/BoundNodePrinter.cs:24-85 | writing an expression appends exactly its text, after the tabs when a line is starting |
| CocoaPrinter.WriteCallExpression | src/Compiler.Demo/Cocoa/CodeAnalysis/Binding/BoundNodePrinter.cs:309-330 | a call is written as its name and its arguments' texts joined by ", " in parentheses |
| CocoaPrinter.WriteArgument | src/Compiler.Demo/Cocoa/CodeAnalysis/Binding/BoundNodePrinter.cs:317-326 | one argument, preceded by ", " unless it is the first |
| CocoaPrinter.WriteNestedExpression | src/Compiler.Demo/Cocoa/CodeAnalysis/Binding/BoundNodePrinter.cs:104-118 | a nested operand is written as NestedText describes |
| CocoaPrinter.WriteParenthesized | src/Compiler.Demo/Cocoa/CodeAnalysis/Binding/BoundNodePrinter.cs:120-135 | the operand is parenthesised exactly when the parent's precedence is at least its own |
| CocoaPrinter.NestedParenthesised | src/Compiler.Demo/Cocoa/CodeAnalysis/Binding/BoundNodePrinter.cs:104-135 | a nested operand gets parentheses exactly when it is a unary or binary expression whose operator's precedence is at most the parent's, and is written bare otherwise |
| CocoaPrinter.WriteStatement | src/Compiler.Demo/Cocoa/CodeAnalysis/Binding/BoundNodePrinter.cs:24-85 | writing a statement fails exactly where the page function fails and otherwise leaves the page it describes: "let " or "var " declarations, "goto L if c" or "goto L unless c", "?" for an error expression, "type(expr)" for a conversion |
| CocoaPrinter.WriteKeywordAndExpression | src/Compiler.Demo/Cocoa/CodeAnalysis/Binding/BoundNodePrinter.cs:179-180 | a keyword followed by the expression's text on the current line |
| CocoaPrinter.WriteForHeader | src/Compiler.Demo/Cocoa/CodeAnalysis/Binding/BoundNodePrinter.cs:197-202 | the for header: the variable, " = ", the lower bound, " to ", the upper bound |
| CocoaPrinter.WriteLabelStatement | src/Compiler.Demo/Cocoa/CodeAnalysis/Binding/BoundNodePrinter.cs:207-224 | a label is written as the page function describes, one level less indented when the level is positive |
| CocoaPrinter.WriteIfStatement | src/Compiler.Demo/Cocoa/CodeAnalysis/Binding/BoundNodePrinter.cs:162-175 | the condition line, the nested then-statement and, when present, the else line and nested else-statement |
| CocoaPrinter.WriteNestedStatement | src/Compiler.Demo/Cocoa/CodeAnalysis/Binding/BoundNodePrinter.cs:87-102 | a nested statement is written one level deeper unless it is a block |
| CocoaPrinter.WriteBlockStatement | src/Compiler.Demo/Cocoa/CodeAnalysis/Binding/BoundNodePrinter.cs:137-151 | braces on lines of their own with the statements one level deeper between them; fails exactly when a statement inside fails |
| CocoaPrinter.StatementShape | src/Compiler.Demo/Cocoa/CodeAnalysis/Binding/BoundNodePrinter.cs:24-85 | printing fails exactly when the statement holds a return, which the switch has no case for; otherwise it only appends text, leaves the level as it found it and ends with a finished line |
| CocoaPrinter.FirstLineIndented | src/Compiler.Demo/Cocoa/CodeAnalysis/Binding/BoundNodePrinter.cs:24-85 | every statement but a label, written on a fresh line, starts with the tabs of the current level |
| CocoaPrinter.NestedIndents | src/Compiler.Demo/Cocoa/CodeAnalysis/Binding/BoundNodePrinter.cs:87-102 | the body of an if, while, do or for that is not a block starts one level deeper than the statement around it |
| CocoaPrinter.LabelOutdented | src/Compiler.Demo/Cocoa/CodeAnalysis/Binding/BoundNodePrinter.cs:207-224 | inside a block a label is written one level less indented, on a line of its own, and the level is restored afterwards |
| CocoaCompilation.Compilation.constructor | src/Compiler.Demo/Cocoa/CodeAnalysis/Compilation.cs:18-21 | the first submission has no previous compilation and no global scope yet |
| CocoaCompilation.Compilation.Continuing | src/Compiler.Demo/Cocoa/CodeAnalysis/Compilation.cs:23-27 | a continued compilation records its previous one and its tree, and has no global scope yet |
| CocoaCompilation.Compilation.ContinueWith | src/Compiler.Demo/Cocoa/CodeAnalysis/Compilation.cs:46-49 | a fresh compilation whose previous one is the receiver, which is left unchanged |
| CocoaCompilation.Compilation.GetGlobalScope | src/Compiler.Demo/Cocoa/CodeAnalysis/Compilation.cs:32-44 | the scope is bound once, on top of the previous compilation's scope (binding that one first), and is returned as stored on every later use |
| CocoaCompilation.Compilation.Evaluate | src/Compiler.Demo/Cocoa/CodeAnalysis/Compilation.cs:51-70 | syntax or global-scope diagnostics are returned with no value and nothing run; then binding fails exactly when BindProgram raises, with that exception, and otherwise the program is one BindProgram can return; its diagnostics are returned likewise; otherwise the program runs over the caller's variables and its value is the result, with no diagnostics |
| CocoaCompilation.BindAndRun | src/Compiler.Demo/Cocoa/CodeAnalysis/Compilation.cs:59-69 | binding fails exactly when BindProgram raises, with that exception, and otherwise the program is one BindProgram can return (lowered statement, lowered bodies for exactly the functions of all submissions); its diagnostics are returned with no value and the variables untouched; otherwise the evaluator runs the program over the caller's variables |
| CocoaCompilation.ContinuedScopeChains | src/Compiler.Demo/Cocoa/CodeAnalysis/Compilation.cs:38 | the continued compilation's scope is chained to the receiver's, which is bound first if it was not yet |
| ReplEditing.WithLine | src/Compiler.Demo/Interactive.Demo/Repl.cs:102-114 | moving to another line clamps the column to that line's length; setting the same line changes nothing |
| ReplEditing.WithColumn | src/Compiler.Demo/Interactive.Demo/Repl.cs:116-127 | the CurrentCharacter setter moves the cursor to the column without clamping |
| ReplEditing.WithLineClamps | src/Compiler.Demo/Interactive.Demo/Repl.cs:110 | on a well-formed buffer a change of line leaves the cursor within the new line and never moves it right |
| ReplEditing.Escape | src/Compiler.Demo/Interactive.Demo/Repl.cs:211-217 | Escape leaves one empty line with the cursor at its start |
| ReplEditing.SplitAtCursor | src/Compiler.Demo/Interactive.Demo/Repl.cs:236-245 | InsertLine splits the current line at the cursor: the two pieces concatenate to the old line, the other lines are kept, and the cursor is at the start of the new line |
| ReplEditing.LeftArrow | src/Compiler.Demo/Interactive.Demo/Repl.cs:247-251 | one column left unless at the start of the line; document and line unchanged |
| ReplEditing.RightArrow | src/Compiler.Demo/Interactive.Demo/Repl.cs:253-259 | one column right unless at the end of the line; document and line unchanged |
| ReplEditing.UpArrow | src/Compiler.Demo/Interactive.Demo/Repl.cs:261-265 | the previous line when there is one, with the column clamped to it |
| ReplEditing.DownArrow | src/Compiler.Demo/Interactive.Demo/Repl.cs:267-271 | the next line when there is one, with the column clamped to it |
| ReplEditing.Backspace | src/Compiler.Demo/Interactive.Demo/Repl.cs:273-299 | inside a line the character before the cursor is removed; at the start of a later line the line joins the previous one with the cursor at the join; at the very start nothing changes |
| ReplEditing.Delete | src/Compiler.Demo/Interactive.Demo/Repl.cs:301-321 | inside a line the character at the cursor is removed; at the end of a line the next line is joined to it; at the end of the last line nothing changes; the cursor never moves |
| ReplEditing.Home | src/Compiler.Demo/Interactive.Demo/Repl.cs:323-326 | the cursor moves to the start of the line |
| ReplEditing.End | src/Compiler.Demo/Interactive.Demo/Repl.cs:328-331 | the cursor moves to the end of the line |
| ReplEditing.InsertAt | src/Compiler.Demo/Interactive.Demo/Repl.cs:384 | String.Insert: the line before the start, the text, then the rest of the line |
| ReplEditing.Typing | src/Compiler.Demo/Interactive.Demo/Repl.cs:379-386 | the text is inserted at the cursor, which moves past it; other lines are kept |
| ReplEditing.Tab | src/Compiler.Demo/Interactive.Demo/Repl.cs:333-341 | between one and four spaces are typed, taking the cursor to the next multiple of four |
| ReplEditing.JoinSplit | src/Compiler.Demo/Interactive.Demo/Repl.cs:369 | joining the pieces of a split with line breaks gives the text back |
| ReplEditing.SplitJoin | src/Compiler.Demo/Interactive.Demo/Repl.cs:147 | splitting a submission that was joined from break-free lines gives those lines back, so history entries reload line for line |
| ReplEditing.PreviousIndex | src/Compiler.Demo/Interactive.Demo/Repl.cs:345-347 | PageUp's index goes one back, wrapping from the first entry to the last |
| ReplEditing.NextIndex | src/Compiler.Demo/Interactive.Demo/Repl.cs:354-356 | PageDown's index goes one on, wrapping from the last entry to the first |
| ReplEditing.PagingIsCyclic | src/Compiler.Demo/Interactive.Demo/Repl.cs:343-359 | PageUp and PageDown undo each other |
| ReplEditing.FromHistory | src/Compiler.Demo/Interactive.Demo/Repl.cs:361-377 | the document becomes the entry's lines with the cursor at the end of the last one |
| ReplEditing.BackspaceUndoesInsertLine | src/Compiler.Demo/Interactive.Demo/Repl.cs:236-299 | Backspace right after InsertLine restores the buffer exactly |
| ReplEditing.BackspaceUndoesTyping | src/Compiler.Demo/Interactive.Demo/Repl.cs:273-386 | Backspace right after typing one character restores the buffer exactly |
| ReplEditing.DeleteUndoesInsertLine | src/Compiler.Demo/Interactive.Demo/Repl.cs:236-321 | Delete at the split point after InsertLine restores the document |
| ReplEditing.HomeEndBounds | src/Compiler.Demo/Interactive.Demo/Repl.cs:323-331 | Home and End only choose between the two ends of the line: each undoes the other's move |
| ReplEditing.SubmissionView.constructor | src/Compiler.Demo/Interactive.Demo/Repl.cs:43-50 | a view of the document starts with the cursor at line 0, column 0 |
| ReplEditing.SubmissionView.SetCurrentLine | src/Compiler.Demo/Interactive.Demo/Repl.cs:102-114 | the CurrentLine setter as WithLine describes |
| ReplEditing.SubmissionView.SetCurrentCharacter | src/Compiler.Demo/Interactive.Demo/Repl.cs:116-127 | the CurrentCharacter setter as WithColumn describes |
| ReplEditing.SubmissionView.SetLine | src/Compiler.Demo/Interactive.Demo/Repl.cs:339 | the document's indexer replaces one line and keeps the cursor |
| ReplEditing.Repl.constructor | src/Compiler.Demo/Interactive.Demo/Repl.cs:11-14 | an empty history, index 0, not done |
| ReplEditing.Repl.Record | src/Compiler.Demo/Interactive.Demo/Repl.cs:29-30 | after a submission is evaluated it joins the history and the index returns to the first entry |
| ReplEditing.Repl.ClearHistory | src/Compiler.Demo/Interactive.Demo/Repl.cs:388-391 | the history is emptied and the index left as it was |
| ReplEditing.Repl.HandleEscape | src/Compiler.Demo/Interactive.Demo/Repl.cs:211-217 | the buffer becomes as Escape describes |
| ReplEditing.Repl.HandleEnter | src/Compiler.Demo/Interactive.Demo/Repl.cs:219-229 | the submission is done when its text starts with '#' or is complete, with the buffer unchanged; otherwise a line is inserted at the cursor; the history is not touched |
| ReplEditing.Repl.HandleControlEnter | src/Compiler.Demo/Interactive.Demo/Repl.cs:231-234 | Control+Enter always inserts a line at the cursor |
| ReplEditing.Repl.InsertLine | src/Compiler.Demo/Interactive.Demo/Repl.cs:236-245 | the buffer becomes as SplitAtCursor describes |
| ReplEditing.Repl.HandleLeftArrow | src/Compiler.Demo/Interactive.Demo/Repl.cs:247-251 | the buffer becomes as LeftArrow describes |
| ReplEditing.Repl.HandleRightArrow | src/Compiler.Demo/Interactive.Demo/Repl.cs:253-259 | the buffer becomes as RightArrow describes |
| ReplEditing.Repl.HandleUpArrow | src/Compiler.Demo/Interactive.Demo/Repl.cs:261-265 | the buffer becomes as UpArrow describes |
| ReplEditing.Repl.HandleDownArrow | src/Compiler.Demo/Interactive.Demo/Repl.cs:267-271 | the buffer becomes as DownArrow describes |
| ReplEditing.Repl.HandleBackspace | src/Compiler.Demo/Interactive.Demo/Repl.cs:273-299 | the buffer becomes as Backspace describes |
| ReplEditing.Repl.HandleDelete | src/Compiler.Demo/Interactive.Demo/Repl.cs:301-321 | the buffer becomes as Delete describes |
| ReplEditing.Repl.HandleHome | src/Compiler.Demo/Interactive.Demo/Repl.cs:323-326 | the buffer becomes as Home describes |
| ReplEditing.Repl.HandleEnd | src/Compiler.Demo/Interactive.Demo/Repl.cs:328-331 | the buffer becomes as End describes |
| ReplEditing.Repl.HandleTab | src/Compiler.Demo/Interactive.Demo/Repl.cs:333-341 | the buffer becomes as Tab describes |
| ReplEditing.Repl.HandleTyping | src/Compiler.Demo/Interactive.Demo/Repl.cs:379-386 | the buffer becomes as Typing describes |
| ReplEditing.Repl.HandlePageUp | src/Compiler.Demo/Interactive.Demo/Repl.cs:343-350 | the index goes one back, wrapping to the last entry, and the document shows that entry; with an empty history nothing but the index changes |
| ReplEditing.Repl.HandlePageDown | src/Compiler.Demo/Interactive.Demo/Repl.cs:352-359 | the index goes one on, wrapping to the first entry, and the document shows that entry; with an empty history nothing but the index changes |
| ReplEditing.Repl.UpdateDocumentFromHistory | src/Compiler.Demo/Interactive.Demo/Repl.cs:361-377 | the document is rebuilt line by line from the current entry as FromHistory describes; with an empty history nothing changes |
| ReplEditing.Repl.HandleKey | src/Compiler.Demo/Interactive.Demo/Repl.cs:150-209 | the dispatch keeps the history and the buffer and index well formed |

## Left out

- Console I/O is left out: `Repl.Run`, `EditSubmission`, `SubmissionView.Render`, the `ReadKey` loop and the cursor and colour calls, because they act on the terminal. Only the buffer, the cursor and the history are modelled, plus `Record`, which stands for the end of a turn of `Run`.
- The evaluator's `input` and `print` built-ins act on a `Terminal` value, a queue of input lines and a log of output lines, not on the console.
- `Random.Next` is a parameter, a sequence of draws indexed by how many were made. `Convert.ToBoolean`, `ToInt32` and `ToString` form an uninterpreted `Converter`. Both are .NET library code.
- `Conversion.Classify` is an uninterpreted `Classifier`, and the lowerer an uninterpreted `Lowerer` from a statement to the lowered block's statements: their code is not part of this model.
- `SyntaxFacts` is a parameter, with the precedence tables, the keyword lookup and the fixed token texts. So are `char.IsLetter` and `char.IsDigit`, with only the facts the lexers rely on ('\0' is neither, and the ASCII digits are digits). `char.IsWhiteSpace` is defined outright (`CharClasses.IsWhiteSpace`), with the Unicode space separators, U+0009 to U+000D, U+0085, U+00A0 and the line and paragraph separators.
- `IndentedTextWriter` is modelled from its documented behaviour: tabs of four spaces before the first write of a line, and a negative `Indent` taken as 0. The colouring `Write*` extensions are plain writes.
- `Interlocked.CompareExchange` in `Compilation.GlobalScope` is a plain write of the memo cell: with one thread it publishes the first scope bound.
- Evaluation is bounded by a `fuel` parameter, one unit per pass of a statement loop and per call. A program that runs out of fuel fails, where the source would loop forever.
- Return, break and continue statements are not bound by the binder and have no case in the evaluator, so the model gives them no semantics. The printer's switch has no case for them and throws, which the model keeps.
- `BindStatement` in the old binder throws on parenthesised expressions, as does the source, which has no case for them (`DemoBinder.ThrowsOnlyOnParentheses`).
- `TextSpan.cs`, `TextLocation.cs`, `VariableSymbol.cs`, `ParameterSymbol.cs`, `SyntaxFacts.cs`, `BoundTreeRewriter.cs` and `Conversion.cs` are not part of this model. Their shapes are taken from their uses. `CocoaSymbols.VariableSymbol.constructor` therefore has no row.
- `DiagnosticBag` message texts are left out. A diagnostic is its span and its kind.
- `SyntaxNode.GetChildren` and its console printer use reflection and console colours. `ControlFlowGraph.WriteTo` is a Graphviz export. Both are left out.
- The Cocoa parser of this revision parses expressions only, while the binder walks the statement and member syntax of a later revision. The binder therefore takes syntax trees as values, and parsing statements and members is not modelled.
- `GraphBuilder.Build` finds a statement's block through `m_blockFromStatement`, keyed by statement object, so two equal statements in one body would make `Dictionary.Add` throw. The model keys statements by position, where every statement is distinct.
- The loops of `Parser` constructors, `BindGlobalScope`, `BindProgram` and `CreateParentScopes` are in helper methods (`CollectToken`, `BindFunctionMembers`, `BindGlobalStatements`, `BindAllFunctionBodies`, `CollectSubmissions`, `DeclareSubmission`). One turn of a loop, or one branch of a switch, is its own method in a few more places: `ParseBinaryOperand`, `ParseParenthesized`, `ParserTermOperand`, `ParserFactorOperand`, `ParserBinaryOperand`, `ParserParenthesized`, `ScanCharacter` (the scan of `ParseLines`), `PushSubmission`, `DeclareMember`, `BindMembers` (the member loops of `BindGlobalScope`) and `BindLoopScope` (the for statement's child scope). The steps and their order are those of the source.
- `ReplEditing.Repl.HandleKey`: its contract states only that the history is kept and the buffer and index stay well formed, not which handler runs. Each handler's exact effect is stated on the handler's own method.
- `CocoaPrinter.DoubleQuotes`: its own contract states only that the string never gets shorter. The meaning of the doubling is stated by `CocoaPrinter.QuotedLiteralLexes`, which lexes the quoted text back to the original string.
- A null literal and a literal of any type other than bool, int and string cannot be built in the model. The printer and the binder therefore never reach their "unexpected type" throws.
- `ClearHistory` leaves the history index as it is. An index out of range is harmless while the history is empty, and `Record` resets it.
- `CocoaSyntax.ParameterSyntax` and `CocoaSyntax.FunctionDeclarationSyntax`: the identifier of a parameter and of a function declaration is a token with a text (`PresentToken`). In the source such an identifier can be one the parser inserted, with a null text. That null name reaches `Binder.cs:102` and `:123`, and the scope's dictionary throws on the null key (`BoundScope.cs:20`). The model cannot build these nameless parameters and functions, so it does not model that exception.
- `ReplEditing.Repl.HandleEnter`, `ReplEditing.JoinLines`, `ReplEditing.SplitLines`, `ReplEditing.Repl.UpdateDocumentFromHistory` and `CocoaPrinter.Writer.WriteLine`: `Environment.NewLine` is taken as the single line feed it is on Unix (`NewLine` in `repl.dfy`). On Windows it is "\r\n", and the document join (`Repl.cs:147`, `:221`) and the history split (`Repl.cs:369`) then use two characters, as does the printer's `WriteLine` (`BoundNodePrinter.cs:140`, `NewLine` in `printer.dfy`); the model does not capture that platform.
- `ReplEditing.Repl.HandleEnter`: `StartsWith("#")` at `Repl.cs:222` compares with the current culture. The model's `StartsWithHash` compares the first character ordinally, so it misses a culture that ignores characters before the '#'.
- `CocoaBinder.BindBody`, `CocoaBinder.BindNextBody`, `CocoaBinder.BindFunctionBodies`, `CocoaBinder.BindSubmissionBodies`, `CocoaBinder.BindAllFunctionBodies` and `CocoaBinder.BindProgram`: each body is stated to be the lowering of a statement bound from the function's declaration with the right shape, not one particular statement. The statement binder allocates fresh symbols and child scopes, so its result is specified by shape, not as a function of its input. For the same reason the diagnostics a body's binder reports (`diagnostics` of `BindBody`, `found` of `BindNextBody`) are not stated. `BindNextBody` appends them exactly; `BindFunctionBodies` and `BindSubmissionBodies` state only that the diagnostics grow; `BindAllFunctionBodies` and `BindProgram` state nothing about the program's diagnostics. So the model does not promise that a body using an undefined name is reported, and `Compilation.Evaluate`'s branch on the program's diagnostics holds for any list.
- `CocoaBinder.BindGlobalScope`: the global variables are stated by their names (exactly those the global statements declare), as new, distinct-named global symbols, and not in the order `GetDeclaredVariables` lists them.
- `CocoaLexer.Lexer.Lex`, `DemoLexer.Lexer.Lex`, `ArithmeticLexer.Lexer.NextToken`, `CocoaText.From`, `CocoaText.ParseLines`, `CocoaText.SourceText.GetLineIndex`, `CocoaText.SourceText.Substring` and the `ReplEditing` cursor members: text is a sequence of Unicode scalar values, where a C# string is a sequence of UTF-16 code units. A character outside the Basic Multilingual Plane is one `char` in the model but two in the source, so every position, span, line start and REPL column after it differs. For "\U{1F600}1" the source lexes two bad-character tokens and a number at position 2, text length 3; the model gives one bad character and a number at position 1, length 2.
