// The editing half of the interactive loop: a submission is a list of lines
// with a cursor (a line and a column in it); each key edits the lines or
// moves the cursor, and PageUp/PageDown load earlier submissions from the
// history. Rendering to the console is not part of this model.
module ReplEditing {

  /** Environment.NewLine, taken as a line feed. */
  const NewLine: char := '\n'

  /** The tab stops are four columns apart. */
  const TabWidth: int := 4

  function Min(a: int, b: int): int { if a <= b then a else b }

  /** The lines of a submission and the cursor. */
  datatype Buffer = Buffer(document: seq<string>, line: int, column: int)

  /** There is always a line, the cursor is on one of them, and its column
      is at most that line's length. */
  predicate WellFormed(b: Buffer)
  {
    |b.document| >= 1 && 0 <= b.line < |b.document| && 0 <= b.column <= |b.document[b.line]|
  }

  // ---------------------------------------------------------------------
  // The cursor setters

  /** The CurrentLine setter: on a change of line the column is clamped to
      the new line's length; setting the same line changes nothing. */
  function WithLine(b: Buffer, value: int): (r: Buffer)
    requires 0 <= value < |b.document|
    ensures r.document == b.document && r.line == value
    ensures b.line != value ==> r.column == Min(|b.document[value]|, b.column)
    ensures b.line == value ==> r == b
  {
    if b.line != value then Buffer(b.document, value, Min(|b.document[value]|, b.column)) else b
  }

  /** The CurrentCharacter setter: no clamping. */
  function WithColumn(b: Buffer, value: int): (r: Buffer)
    ensures r.document == b.document && r.line == b.line && r.column == value
  {
    Buffer(b.document, b.line, value)
  }

  /** On a valid buffer a change of line keeps the cursor within the new
      line. */
  lemma WithLineClamps(b: Buffer, value: int)
    requires WellFormed(b) && 0 <= value < |b.document|
    ensures WellFormed(WithLine(b, value))
    ensures WithLine(b, value).column <= b.column
  {
  }

  // ---------------------------------------------------------------------
  // The edits, as functions of the buffer

  /** Escape: the document is one empty line and the cursor is at (0, 0). */
  function Escape(b: Buffer): (r: Buffer)
    ensures WellFormed(r) && r == Buffer([""], 0, 0)
  {
    WithColumn(WithLine(Buffer([""], b.line, b.column), 0), 0)
  }

  /** InsertLine, on the buffer: the current line is split at the cursor
      into a line before it and a new line after it, and the cursor goes to
      the start of the new line. */
  function SplitAtCursor(b: Buffer): (r: Buffer)
    requires WellFormed(b)
    ensures WellFormed(r) && |r.document| == |b.document| + 1
    ensures r.line == b.line + 1 && r.column == 0
    ensures r.document[b.line] + r.document[b.line + 1] == b.document[b.line]
    ensures |r.document[b.line]| == b.column
    ensures r.document[..b.line] == b.document[..b.line] && r.document[b.line + 2..] == b.document[b.line + 1..]
  {
    var text := b.document[b.line];
    var remainder := text[b.column..];
    var document := b.document[..b.line] + [text[..b.column]] + b.document[b.line + 1..];
    var inserted := document[..b.line + 1] + [remainder] + document[b.line + 1..];
    assert text[..b.column] + remainder == text;
    assert inserted[b.line] == text[..b.column] && inserted[b.line + 1] == remainder;
    assert inserted[..b.line] == b.document[..b.line];
    assert inserted[b.line + 2..] == b.document[b.line + 1..];
    WithLine(WithColumn(Buffer(inserted, b.line, b.column), 0), b.line + 1)
  }

  /** LeftArrow: one column left unless at the start of the line. */
  function LeftArrow(b: Buffer): (r: Buffer)
    requires WellFormed(b)
    ensures WellFormed(r) && r.document == b.document && r.line == b.line
    ensures r.column == if b.column > 0 then b.column - 1 else 0
  {
    if b.column > 0 then WithColumn(b, b.column - 1) else b
  }

  /** RightArrow: one column right unless at the end of the line. */
  function RightArrow(b: Buffer): (r: Buffer)
    requires WellFormed(b)
    ensures WellFormed(r) && r.document == b.document && r.line == b.line
    ensures r.column == if b.column < |b.document[b.line]| then b.column + 1 else b.column
  {
    if b.column <= |b.document[b.line]| - 1 then WithColumn(b, b.column + 1) else b
  }

  /** UpArrow: the previous line, if any, with the column clamped to it. */
  function UpArrow(b: Buffer): (r: Buffer)
    requires WellFormed(b)
    ensures WellFormed(r) && r.document == b.document
    ensures r.line == if b.line > 0 then b.line - 1 else 0
    ensures r.column == if b.line > 0 then Min(|b.document[b.line - 1]|, b.column) else b.column
  {
    if b.line > 0 then WithLine(b, b.line - 1) else b
  }

  /** DownArrow: the next line, if any, with the column clamped to it. */
  function DownArrow(b: Buffer): (r: Buffer)
    requires WellFormed(b)
    ensures WellFormed(r) && r.document == b.document
    ensures r.line == if b.line < |b.document| - 1 then b.line + 1 else b.line
    ensures r.column == if b.line < |b.document| - 1 then Min(|b.document[b.line + 1]|, b.column) else b.column
  {
    if b.line < |b.document| - 1 then WithLine(b, b.line + 1) else b
  }

  /** Backspace: at the start of a line after the first, that line is
      joined onto the previous one and the cursor goes to the join; in the
      middle of a line the character before the cursor is removed; at the
      very start nothing happens. */
  function Backspace(b: Buffer): (r: Buffer)
    requires WellFormed(b)
    ensures WellFormed(r)
    ensures b.column == 0 && b.line == 0 ==> r == b
    ensures b.column == 0 && b.line > 0 ==>
      && r.document == b.document[..b.line - 1] + [b.document[b.line - 1] + b.document[b.line]] + b.document[b.line + 1..]
      && r.line == b.line - 1 && r.column == |b.document[b.line - 1]|
    ensures b.column > 0 ==>
      && r.document == b.document[b.line := b.document[b.line][..b.column - 1] + b.document[b.line][b.column..]]
      && r.line == b.line && r.column == b.column - 1
  {
    if b.column == 0 then
      if b.line == 0 then b
      else
        var currentLine := b.document[b.line];
        var previousLine := b.document[b.line - 1];
        var removed := b.document[..b.line] + b.document[b.line + 1..];
        var moved := WithLine(Buffer(removed, b.line, b.column), b.line - 1);
        assert removed[..b.line - 1] == b.document[..b.line - 1];
        assert removed[b.line..] == b.document[b.line + 1..];
        assert removed[b.line - 1 := previousLine + currentLine]
          == b.document[..b.line - 1] + [previousLine + currentLine] + b.document[b.line + 1..];
        WithColumn(Buffer(moved.document[moved.line := previousLine + currentLine], moved.line, moved.column), |previousLine|)
    else
      var text := b.document[b.line];
      WithColumn(Buffer(b.document[b.line := text[..b.column - 1] + text[b.column..]], b.line, b.column), b.column - 1)
  }

  /** Delete: at the end of a line before the last, the next line is
      appended to it and removed; at the end of the last line nothing
      happens; otherwise the character under the cursor is removed. The
      cursor does not move. */
  function Delete(b: Buffer): (r: Buffer)
    requires WellFormed(b)
    ensures WellFormed(r) && r.line == b.line && r.column == b.column
    ensures b.column == |b.document[b.line]| && b.line == |b.document| - 1 ==> r == b
    ensures b.column == |b.document[b.line]| && b.line < |b.document| - 1 ==>
      r.document == b.document[..b.line] + [b.document[b.line] + b.document[b.line + 1]] + b.document[b.line + 2..]
    ensures b.column < |b.document[b.line]| ==>
      r.document == b.document[b.line := b.document[b.line][..b.column] + b.document[b.line][b.column + 1..]]
  {
    var text := b.document[b.line];
    if b.column >= |text| then
      if b.line == |b.document| - 1 then b
      else
        var appended := b.document[b.line := text + b.document[b.line + 1]];
        var removed := appended[..b.line + 1] + appended[b.line + 2..];
        assert removed == b.document[..b.line] + [text + b.document[b.line + 1]] + b.document[b.line + 2..];
        Buffer(removed, b.line, b.column)
    else
      Buffer(b.document[b.line := text[..b.column] + text[b.column + 1..]], b.line, b.column)
  }

  /** Home: the start of the line. */
  function Home(b: Buffer): (r: Buffer)
    requires WellFormed(b)
    ensures WellFormed(r) && r.document == b.document && r.line == b.line && r.column == 0
  {
    WithColumn(b, 0)
  }

  /** End: the end of the line. */
  function End(b: Buffer): (r: Buffer)
    requires WellFormed(b)
    ensures WellFormed(r) && r.document == b.document && r.line == b.line && r.column == |b.document[b.line]|
  {
    WithColumn(b, |b.document[b.line]|)
  }

  function Spaces(n: nat): (s: string)
    ensures |s| == n && forall k :: 0 <= k < n ==> s[k] == ' '
  {
    if n == 0 then "" else Spaces(n - 1) + " "
  }

  /** `line.Insert(start, text)`. */
  function InsertAt(line: string, start: int, text: string): (r: string)
    requires 0 <= start <= |line|
    ensures |r| == |line| + |text| && r[..start] == line[..start] && r[start..start + |text|] == text && r[start + |text|..] == line[start..]
  {
    var r := line[..start] + text + line[start..];
    assert r[..start] == line[..start];
    assert r[start..start + |text|] == text;
    assert r[start + |text|..] == line[start..];
    r
  }

  /** Typing: the text is inserted at the cursor and the cursor moves past
      it. */
  function Typing(b: Buffer, text: string): (r: Buffer)
    requires WellFormed(b)
    ensures WellFormed(r) && r.line == b.line && r.column == b.column + |text|
    ensures r.document == b.document[b.line := InsertAt(b.document[b.line], b.column, text)]
  {
    WithColumn(Buffer(b.document[b.line := InsertAt(b.document[b.line], b.column, text)], b.line, b.column), b.column + |text|)
  }

  /** Tab: as many spaces as take the cursor to the next tab stop, between
      one and four of them. */
  function Tab(b: Buffer): (r: Buffer)
    requires WellFormed(b)
    ensures WellFormed(r) && r.line == b.line
    ensures r.column % TabWidth == 0 && b.column < r.column <= b.column + TabWidth
    ensures r == Typing(b, Spaces(r.column - b.column))
  {
    var remainingSpaces := TabWidth - b.column % TabWidth;
    var line := b.document[b.line];
    var inserted := Buffer(b.document[b.line := InsertAt(line, b.column, Spaces(remainingSpaces))], b.line, b.column);
    WithColumn(inserted, b.column + remainingSpaces)
  }

  // ---------------------------------------------------------------------
  // Submissions as text

  /** `string.Join(NewLine, lines)`. */
  function JoinLines(lines: seq<string>): string
    requires |lines| >= 1
  {
    if |lines| == 1 then lines[0] else lines[0] + [NewLine] + JoinLines(lines[1..])
  }

  /** `text.Split(NewLine)`: the pieces between line breaks, at least
      one. */
  function SplitLines(text: string): (lines: seq<string>)
    ensures |lines| >= 1
    decreases |text|
  {
    if text == [] then [""]
    else
      var rest := SplitLines(text[1..]);
      if text[0] == NewLine then [""] + rest else [[text[0]] + rest[0]] + rest[1..]
  }

  /** `text.StartsWith("#")`: a meta-command. */
  predicate StartsWithHash(text: string) { |text| > 0 && text[0] == '#' }

  predicate NoBreak(s: string) { forall k :: 0 <= k < |s| ==> s[k] != NewLine }

  /** Joining the pieces of a split gives the text back. */
  lemma {:induction false} JoinSplit(text: string)
    ensures JoinLines(SplitLines(text)) == text
    decreases |text|
  {
    if text != [] {
      var rest := SplitLines(text[1..]);
      JoinSplit(text[1..]);
      if text[0] == NewLine {
        assert ([""] + rest)[1..] == rest;
      } else {
        JoinPrefixed(text[0], rest);
      }
      assert [text[0]] + text[1..] == text;
    }
  }

  /** A character put in front of the first line is in front of the
      join. */
  lemma JoinPrefixed(c: char, lines: seq<string>)
    requires |lines| >= 1
    ensures JoinLines([[c] + lines[0]] + lines[1..]) == [c] + JoinLines(lines)
  {
    var prefixed := [[c] + lines[0]] + lines[1..];
    if |lines| == 1 {
      assert prefixed == [[c] + lines[0]];
    } else {
      JoinPrefixedLonger(c, lines, prefixed);
    }
  }

  lemma JoinPrefixedLonger(c: char, lines: seq<string>, prefixed: seq<string>)
    requires |lines| > 1 && prefixed == [[c] + lines[0]] + lines[1..]
    ensures JoinLines(prefixed) == [c] + JoinLines(lines)
  {
    assert prefixed[0] == [c] + lines[0] && prefixed[1..] == lines[1..];
    var tail := [NewLine] + JoinLines(lines[1..]);
    assert ([c] + lines[0]) + tail == [c] + (lines[0] + tail);
  }

  /** Splitting text that starts with a piece without breaks puts that
      piece in front of the first line. */
  lemma {:induction false} SplitAfterPiece(piece: string, text: string)
    requires NoBreak(piece)
    ensures SplitLines(piece + text) == [piece + SplitLines(text)[0]] + SplitLines(text)[1..]
    decreases |piece|
  {
    if piece != [] {
      var tail := piece[1..];
      assert NoBreak(tail) by {
        forall k | 0 <= k < |tail| ensures tail[k] != NewLine {
          assert tail[k] == piece[k + 1];
        }
      }
      SplitAfterPiece(tail, text);
      assert (piece + text)[1..] == tail + text;
      assert [piece[0]] + (tail + SplitLines(text)[0]) == piece + SplitLines(text)[0];
    } else {
      var lines := SplitLines(text);
      assert piece + text == text && piece + lines[0] == lines[0];
      assert [lines[0]] + lines[1..] == lines;
    }
  }

  /** Splitting the join of lines without breaks gives the lines back: a
      submission is loaded from the history line for line. */
  lemma {:induction false} SplitJoin(lines: seq<string>)
    requires |lines| >= 1 && forall i :: 0 <= i < |lines| ==> NoBreak(lines[i])
    ensures SplitLines(JoinLines(lines)) == lines
    decreases |lines|
  {
    if |lines| == 1 {
      SplitAfterPiece(lines[0], "");
      assert lines[0] + "" == lines[0];
      assert SplitLines("") == [""];
      assert [lines[0] + ""] + [""][1..] == lines;
    } else {
      var tail := JoinLines(lines[1..]);
      forall i | 0 <= i < |lines[1..]| ensures NoBreak(lines[1..][i]) {
        assert lines[1..][i] == lines[i + 1];
      }
      SplitJoin(lines[1..]);
      assert lines[0] + [NewLine] + tail == lines[0] + ([NewLine] + tail);
      SplitAfterPiece(lines[0], [NewLine] + tail);
      assert ([NewLine] + tail)[1..] == tail;
      var broken := [NewLine] + tail;
      assert broken != [] && broken[0] == NewLine;
      assert SplitLines(broken) == [""] + lines[1..];
      assert lines[0] + "" == lines[0];
      assert [lines[0]] + lines[1..] == lines;
    }
  }

  // ---------------------------------------------------------------------
  // The history

  /** PageUp's index: one back, wrapping to the last entry. */
  function PreviousIndex(index: int, count: int): (r: int)
    requires count > 0 && 0 <= index < count
    ensures 0 <= r < count
    ensures r == if index == 0 then count - 1 else index - 1
  {
    if index - 1 < 0 then count - 1 else index - 1
  }

  /** PageDown's index: one on, wrapping to the first entry. */
  function NextIndex(index: int, count: int): (r: int)
    requires count > 0 && 0 <= index < count
    ensures 0 <= r < count
    ensures r == if index == count - 1 then 0 else index + 1
  {
    if index + 1 > count - 1 then 0 else index + 1
  }

  /** PageUp and PageDown undo each other. */
  lemma PagingIsCyclic(index: int, count: int)
    requires count > 0 && 0 <= index < count
    ensures NextIndex(PreviousIndex(index, count), count) == index
    ensures PreviousIndex(NextIndex(index, count), count) == index
  {
  }

  /** UpdateDocumentFromHistory: the entry's lines, with the cursor at the
      end of the last one. */
  function FromHistory(b: Buffer, entry: string): (r: Buffer)
    ensures WellFormed(r) && r.document == SplitLines(entry)
    ensures r.line == |r.document| - 1 && r.column == |r.document[r.line]|
  {
    var lines := SplitLines(entry);
    WithColumn(WithLine(Buffer(lines, b.line, b.column), |lines| - 1), |lines[|lines| - 1]|)
  }

  // ---------------------------------------------------------------------
  // What the edits promise together

  /** Backspace at the start of the line InsertLine made joins the two
      pieces again: the buffer is as it was. */
  lemma BackspaceUndoesInsertLine(b: Buffer)
    requires WellFormed(b)
    ensures Backspace(SplitAtCursor(b)) == b
  {
    var r := SplitAtCursor(b);
    var joined := r.document[..b.line] + [r.document[b.line] + r.document[b.line + 1]] + r.document[b.line + 2..];
    assert joined == b.document[..b.line] + [b.document[b.line]] + b.document[b.line + 1..];
    assert b.document[..b.line] + [b.document[b.line]] + b.document[b.line + 1..] == b.document;
  }

  /** Backspace after typing one character removes it again. */
  lemma BackspaceUndoesTyping(b: Buffer, c: char)
    requires WellFormed(b)
    ensures Backspace(Typing(b, [c])) == b
  {
    var text := b.document[b.line];
    var typed := InsertAt(text, b.column, [c]);
    assert typed[..b.column] + typed[b.column + 1..] == text;
    assert b.document[b.line := text] == b.document;
  }

  /** Delete at the end of the piece InsertLine left behind joins the two
      pieces again. */
  lemma DeleteUndoesInsertLine(b: Buffer)
    requires WellFormed(b)
    ensures var r := SplitAtCursor(b); Delete(Buffer(r.document, b.line, b.column)).document == b.document
  {
    var r := SplitAtCursor(b);
    assert r.document[..b.line] + [r.document[b.line] + r.document[b.line + 1]] + r.document[b.line + 2..]
      == b.document[..b.line] + [b.document[b.line]] + b.document[b.line + 1..];
    assert b.document[..b.line] + [b.document[b.line]] + b.document[b.line + 1..] == b.document;
  }

  /** Home and End only move the cursor to the ends of the line. */
  lemma HomeEndBounds(b: Buffer)
    requires WellFormed(b)
    ensures Home(End(b)) == Home(b) && End(Home(b)) == End(b)
  {
  }

  // ---------------------------------------------------------------------
  // The view and the loop

  /** SubmissionView: the document it shows and the cursor. */
  class SubmissionView {
    var document: seq<string>
    var currentLine: int
    var currentCharacter: int

    function State(): Buffer reads this { Buffer(document, currentLine, currentCharacter) }

    ghost predicate Valid() reads this { WellFormed(State()) }

    /** A view of a document, with the cursor at (0, 0). */
    constructor (submissionDocument: seq<string>)
      ensures State() == Buffer(submissionDocument, 0, 0)
    {
      document := submissionDocument;
      currentLine := 0;
      currentCharacter := 0;
    }

    /** The CurrentLine setter. */
    method SetCurrentLine(value: int)
      requires 0 <= value < |document|
      modifies this
      ensures State() == WithLine(old(State()), value)
    {
      if currentLine != value {
        currentLine := value;
        currentCharacter := Min(|document[currentLine]|, currentCharacter);
      }
    }

    /** The CurrentCharacter setter. */
    method SetCurrentCharacter(value: int)
      modifies this
      ensures State() == WithColumn(old(State()), value)
    {
      currentCharacter := value;
    }

    /** The document's indexer: one line replaced. */
    method SetLine(index: int, text: string)
      requires 0 <= index < |document|
      modifies this
      ensures State() == Buffer(old(document)[index := text], old(currentLine), old(currentCharacter))
    {
      document := document[index := text];
    }
  }

  /** The keys the loop tells apart; every other key is Other. */
  datatype ConsoleKey =
    | EscapeKey | EnterKey | LeftArrowKey | RightArrowKey | UpArrowKey | DownArrowKey
    | BackspaceKey | DeleteKey | HomeKey | EndKey | TabKey | PageUpKey | PageDownKey | OtherKey

  datatype Modifiers = NoModifiers | ControlModifier | OtherModifiers

  datatype KeyInfo = KeyInfo(key: ConsoleKey, modifiers: Modifiers, keyChar: char)

  class Repl {
    /** The submissions made so far and the one PageUp/PageDown shows. */
    var submissionHistory: seq<string>
    var submissionHistoryIndex: int
    /** Set by Enter on a complete submission. */
    var done: bool

    /** The index is an entry of a non-empty history. */
    ghost predicate Valid() reads this
    {
      |submissionHistory| > 0 ==> 0 <= submissionHistoryIndex < |submissionHistory|
    }

    constructor ()
      ensures Valid() && submissionHistory == [] && submissionHistoryIndex == 0 && !done
    {
      submissionHistory := [];
      submissionHistoryIndex := 0;
      done := false;
    }

    /** The end of a turn of Run: the submission joins the history and the
        index goes back to the first entry. */
    method Record(text: string)
      modifies this
      ensures Valid() && submissionHistory == old(submissionHistory) + [text] && submissionHistoryIndex == 0
      ensures done == old(done)
    {
      submissionHistory := submissionHistory + [text];
      submissionHistoryIndex := 0;
    }

    /** ClearHistory: the history is emptied and the index left as it is,
        which Valid allows for an empty history. */
    method ClearHistory()
      modifies this
      ensures Valid() && submissionHistory == [] && submissionHistoryIndex == old(submissionHistoryIndex)
      ensures done == old(done)
    {
      submissionHistory := [];
    }

    method HandleEscape(view: SubmissionView)
      modifies view
      ensures view.State() == Escape(old(view.State()))
    {
      view.document := [];
      view.document := view.document + [""];
      view.SetCurrentLine(0);
      view.SetCurrentCharacter(0);
    }

    /** Enter: the submission is done when it starts with '#' or is
        complete; otherwise a line is inserted. */
    method HandleEnter(view: SubmissionView, isCompleteSubmission: string -> bool)
      requires view.Valid()
      modifies this, view
      ensures var text := JoinLines(old(view.document));
        && (StartsWithHash(text) || isCompleteSubmission(text) ==> done && view.State() == old(view.State()))
        && (!(StartsWithHash(text) || isCompleteSubmission(text)) ==> done == old(done) && view.State() == SplitAtCursor(old(view.State())))
      ensures submissionHistory == old(submissionHistory) && submissionHistoryIndex == old(submissionHistoryIndex)
    {
      var submissionText := JoinLines(view.document);
      if StartsWithHash(submissionText) || isCompleteSubmission(submissionText) {
        done := true;
        return;
      }
      InsertLine(view);
    }

    /** Control+Enter always inserts a line. */
    method HandleControlEnter(view: SubmissionView)
      requires view.Valid()
      modifies view
      ensures view.State() == SplitAtCursor(old(view.State()))
    {
      InsertLine(view);
    }

    static method InsertLine(view: SubmissionView)
      requires view.Valid()
      modifies view
      ensures view.State() == SplitAtCursor(old(view.State()))
    {
      var text := view.document[view.currentLine];
      var remainder := text[view.currentCharacter..];
      view.SetLine(view.currentLine, text[..view.currentCharacter]);
      var lineIndex := view.currentLine + 1;
      view.document := view.document[..lineIndex] + [remainder] + view.document[lineIndex..];
      view.SetCurrentCharacter(0);
      view.SetCurrentLine(lineIndex);
    }

    method HandleLeftArrow(view: SubmissionView)
      requires view.Valid()
      modifies view
      ensures view.State() == LeftArrow(old(view.State()))
    {
      if view.currentCharacter > 0 {
        view.SetCurrentCharacter(view.currentCharacter - 1);
      }
    }

    method HandleRightArrow(view: SubmissionView)
      requires view.Valid()
      modifies view
      ensures view.State() == RightArrow(old(view.State()))
    {
      var line := view.document[view.currentLine];
      if view.currentCharacter <= |line| - 1 {
        view.SetCurrentCharacter(view.currentCharacter + 1);
      }
    }

    method HandleUpArrow(view: SubmissionView)
      requires view.Valid()
      modifies view
      ensures view.State() == UpArrow(old(view.State()))
    {
      if view.currentLine > 0 {
        view.SetCurrentLine(view.currentLine - 1);
      }
    }

    method HandleDownArrow(view: SubmissionView)
      requires view.Valid()
      modifies view
      ensures view.State() == DownArrow(old(view.State()))
    {
      if view.currentLine < |view.document| - 1 {
        view.SetCurrentLine(view.currentLine + 1);
      }
    }

    method HandleBackspace(view: SubmissionView)
      requires view.Valid()
      modifies view
      ensures view.State() == Backspace(old(view.State()))
    {
      var start := view.currentCharacter;
      if start == 0 {
        if view.currentLine == 0 {
          return;
        }
        var currentLine := view.document[view.currentLine];
        var previousLine := view.document[view.currentLine - 1];
        view.document := view.document[..view.currentLine] + view.document[view.currentLine + 1..];
        view.SetCurrentLine(view.currentLine - 1);
        view.SetLine(view.currentLine, previousLine + currentLine);
        view.SetCurrentCharacter(|previousLine|);
      } else {
        var lineIndex := view.currentLine;
        var line := view.document[lineIndex];
        var before := line[..start - 1];
        var after := line[start..];
        view.SetLine(lineIndex, before + after);
        view.SetCurrentCharacter(view.currentCharacter - 1);
      }
    }

    method HandleDelete(view: SubmissionView)
      requires view.Valid()
      modifies view
      ensures view.State() == Delete(old(view.State()))
    {
      var lineIndex := view.currentLine;
      var line := view.document[lineIndex];
      var start := view.currentCharacter;
      if start >= |line| {
        if view.currentLine == |view.document| - 1 {
          return;
        }
        var nextLine := view.document[view.currentLine + 1];
        view.SetLine(view.currentLine, view.document[view.currentLine] + nextLine);
        view.document := view.document[..view.currentLine + 1] + view.document[view.currentLine + 2..];
        return;
      }
      var before := line[..start];
      var after := line[start + 1..];
      view.SetLine(lineIndex, before + after);
    }

    method HandleHome(view: SubmissionView)
      requires view.Valid()
      modifies view
      ensures view.State() == Home(old(view.State()))
    {
      view.SetCurrentCharacter(0);
    }

    method HandleEnd(view: SubmissionView)
      requires view.Valid()
      modifies view
      ensures view.State() == End(old(view.State()))
    {
      view.SetCurrentCharacter(|view.document[view.currentLine]|);
    }

    method HandleTab(view: SubmissionView)
      requires view.Valid()
      modifies view
      ensures view.State() == Tab(old(view.State()))
    {
      var start := view.currentCharacter;
      var remainingSpaces := TabWidth - start % TabWidth;
      var line := view.document[view.currentLine];
      view.SetLine(view.currentLine, InsertAt(line, start, Spaces(remainingSpaces)));
      view.SetCurrentCharacter(view.currentCharacter + remainingSpaces);
    }

    method HandleTyping(view: SubmissionView, text: string)
      requires view.Valid()
      modifies view
      ensures view.State() == Typing(old(view.State()), text)
    {
      var lineIndex := view.currentLine;
      var start := view.currentCharacter;
      view.SetLine(lineIndex, InsertAt(view.document[lineIndex], start, text));
      view.SetCurrentCharacter(view.currentCharacter + |text|);
    }

    /** PageUp: the previous history entry, wrapping to the last. */
    method HandlePageUp(view: SubmissionView)
      requires Valid()
      modifies this, view
      ensures Valid() && submissionHistory == old(submissionHistory) && done == old(done)
      ensures |submissionHistory| == 0 ==> view.State() == old(view.State())
      ensures |submissionHistory| > 0 ==>
        && submissionHistoryIndex == (if old(submissionHistoryIndex) == 0 then |submissionHistory| - 1 else old(submissionHistoryIndex) - 1)
        && view.State() == FromHistory(old(view.State()), submissionHistory[submissionHistoryIndex])
    {
      submissionHistoryIndex := submissionHistoryIndex - 1;
      if submissionHistoryIndex < 0 {
        submissionHistoryIndex := |submissionHistory| - 1;
      }
      UpdateDocumentFromHistory(view);
    }

    /** PageDown: the next history entry, wrapping to the first. */
    method HandlePageDown(view: SubmissionView)
      requires Valid()
      modifies this, view
      ensures Valid() && submissionHistory == old(submissionHistory) && done == old(done)
      ensures |submissionHistory| == 0 ==> view.State() == old(view.State())
      ensures |submissionHistory| > 0 ==>
        && submissionHistoryIndex == (if old(submissionHistoryIndex) == |submissionHistory| - 1 then 0 else old(submissionHistoryIndex) + 1)
        && view.State() == FromHistory(old(view.State()), submissionHistory[submissionHistoryIndex])
    {
      submissionHistoryIndex := submissionHistoryIndex + 1;
      if submissionHistoryIndex > |submissionHistory| - 1 {
        submissionHistoryIndex := 0;
      }
      UpdateDocumentFromHistory(view);
    }

    /** The document becomes the lines of the current history entry, one
        added at a time, with the cursor at the end of the last one. */
    method UpdateDocumentFromHistory(view: SubmissionView)
      requires |submissionHistory| > 0 ==> 0 <= submissionHistoryIndex < |submissionHistory|
      modifies view
      ensures |submissionHistory| == 0 ==> view.State() == old(view.State())
      ensures |submissionHistory| > 0 ==> view.State() == FromHistory(old(view.State()), submissionHistory[submissionHistoryIndex])
    {
      if |submissionHistory| == 0 {
        return;
      }
      view.document := [];
      var historyItem := submissionHistory[submissionHistoryIndex];
      var lines := SplitLines(historyItem);
      var i := 0;
      while i < |lines|
        invariant 0 <= i <= |lines| && view.document == lines[..i]
        invariant view.currentLine == old(view.currentLine) && view.currentCharacter == old(view.currentCharacter)
      {
        view.document := view.document + [lines[i]];
        assert lines[..i + 1] == lines[..i] + [lines[i]];
        i := i + 1;
      }
      assert lines[..i] == lines;
      view.SetCurrentLine(|view.document| - 1);
      view.SetCurrentCharacter(|view.document[view.currentLine]|);
    }

    /** HandleKey: the key's handler when there are no modifiers, the line
        insertion for Control+Enter, and then the key's character typed
        unless it is Backspace or a control character. */
    method HandleKey(key: KeyInfo, view: SubmissionView, isCompleteSubmission: string -> bool)
      requires Valid() && view.Valid()
      modifies this, view
      ensures Valid() && view.Valid()
      ensures submissionHistory == old(submissionHistory)
    {
      if key.modifiers == NoModifiers {
        match key.key {
          case EscapeKey => HandleEscape(view);
          case EnterKey => HandleEnter(view, isCompleteSubmission);
          case LeftArrowKey => HandleLeftArrow(view);
          case RightArrowKey => HandleRightArrow(view);
          case UpArrowKey => HandleUpArrow(view);
          case DownArrowKey => HandleDownArrow(view);
          case BackspaceKey => HandleBackspace(view);
          case DeleteKey => HandleDelete(view);
          case HomeKey => HandleHome(view);
          case EndKey => HandleEnd(view);
          case TabKey => HandleTab(view);
          case PageUpKey => HandlePageUp(view);
          case PageDownKey => HandlePageDown(view);
          case OtherKey =>
        }
      } else if key.modifiers == ControlModifier && key.key == EnterKey {
        HandleControlEnter(view);
      }
      if key.key != BackspaceKey && key.keyChar >= ' ' {
        HandleTyping(view, [key.keyChar]);
      }
    }
  }
}
