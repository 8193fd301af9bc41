// SourceText: a program text with its lines. The lines are found once, when
// the text is created; each line records where it starts, its length
// without the line break and its length with it.
module CocoaText {
  import opened Wrappers
  import opened TextSpans

  datatype TextLine = TextLine(start: int, length: int, lengthIncludingLineBreak: int)
  {
    function End(): int { start + length }
    function Span(): TextSpan { TextSpan(start, length) }
    function SpanIncludingLineBreak(): TextSpan { TextSpan(start, lengthIncludingLineBreak) }
  }

  /** GetLineBreakWidth: 2 for "\r\n", 1 for a lone '\r' or '\n', and 0 at
      any other character. */
  function LineBreakWidth(text: string, position: nat): (w: nat)
    requires position < |text|
    ensures w == 2 <==> text[position] == '\r' && position + 1 < |text| && text[position + 1] == '\n'
    ensures w == 1 <==> (text[position] == '\r' || text[position] == '\n') && w != 2
    ensures w == 0 <==> text[position] != '\r' && text[position] != '\n'
    ensures position + w <= |text|
  {
    var c := text[position];
    var l := if position + 1 >= |text| then '\0' else text[position + 1];
    if c == '\r' && l == '\n' then 2
    else if c == '\r' || c == '\n' then 1
    else 0
  }

  /** No line break starts in [from, to). */
  ghost predicate NoBreakIn(text: string, from: nat, to: nat)
    requires to <= |text|
  {
    forall p :: from <= p < to ==> text[p] != '\r' && text[p] != '\n'
  }

  /** A line that is not the last one: it is followed by a break, whose width
      is the difference of its two lengths. */
  ghost predicate InnerLine(text: string, line: TextLine)
  {
    && 0 <= line.start <= line.End() < |text|
    && NoBreakIn(text, line.start, line.End())
    && LineBreakWidth(text, line.End()) > 0
    && line.lengthIncludingLineBreak == line.length + LineBreakWidth(text, line.End())
  }

  /** The last line: it runs to the end of the text and has no break. */
  ghost predicate FinalLine(text: string, line: TextLine)
  {
    && 0 <= line.start <= line.End() == |text|
    && NoBreakIn(text, line.start, line.End())
    && line.lengthIncludingLineBreak == line.length
  }

  /** `lines` are inner lines that cover [0, upto) one after another. */
  ghost predicate Covers(text: string, lines: seq<TextLine>, upto: int)
  {
    && (lines == [] ==> upto == 0)
    && (lines != [] ==> lines[0].start == 0 && lines[|lines| - 1].start + lines[|lines| - 1].lengthIncludingLineBreak == upto)
    && (forall i :: 0 <= i < |lines| - 1 ==> lines[i + 1].start == lines[i].start + lines[i].lengthIncludingLineBreak)
    && (forall i :: 0 <= i < |lines| ==> InnerLine(text, lines[i]))
  }

  /** The lines tile the text: the first starts at 0, each next one starts
      where the previous one's break ends, and the last runs to the end. */
  ghost predicate Tiles(text: string, lines: seq<TextLine>)
  {
    && |lines| >= 1
    && Covers(text, lines[..|lines| - 1], lines[|lines| - 1].start)
    && FinalLine(text, lines[|lines| - 1])
  }

  /** The number of line breaks from `position` on, taking "\r\n" as one. */
  function BreakCount(text: string, position: nat): nat
    decreases |text| - position
  {
    if position >= |text| then 0
    else if LineBreakWidth(text, position) == 0 then BreakCount(text, position + 1)
    else 1 + BreakCount(text, position + LineBreakWidth(text, position))
  }

  lemma BreakCountStep(text: string, position: nat)
    requires position < |text|
    ensures var w := LineBreakWidth(text, position);
      BreakCount(text, position) == if w == 0 then BreakCount(text, position + 1) else 1 + BreakCount(text, position + w)
  {
  }

  lemma NoBreakExtends(text: string, from: nat, to: nat)
    requires from <= to < |text| && NoBreakIn(text, from, to) && LineBreakWidth(text, to) == 0
    ensures NoBreakIn(text, from, to + 1)
  {
  }

  /** Closing the line that runs from `lineStart` to a break at `position`
      extends the covered prefix past the break. */
  lemma CoversExtend(text: string, lines: seq<TextLine>, lineStart: nat, position: nat)
    requires lineStart <= position < |text| && LineBreakWidth(text, position) > 0
    requires Covers(text, lines, lineStart) && NoBreakIn(text, lineStart, position)
    ensures var w := LineBreakWidth(text, position);
      Covers(text, lines + [TextLine(lineStart, position - lineStart, position - lineStart + w)], position + w)
  {
    var line := TextLine(lineStart, position - lineStart, position - lineStart + LineBreakWidth(text, position));
    assert InnerLine(text, line);
    var all := lines + [line];
    assert forall i :: 0 <= i < |lines| ==> all[i] == lines[i];
  }

  /** ParseLines: scans for breaks, adding a line at each one and a final,
      possibly empty, line at the end; so there is one line more than there
      are breaks. */
  method ParseLines(text: string) returns (lines: seq<TextLine>)
    ensures Tiles(text, lines)
    ensures |lines| == BreakCount(text, 0) + 1
  {
    var result: seq<TextLine> := [];
    var position := 0;
    var lineStart := 0;
    while position < |text|
      invariant 0 <= lineStart <= position <= |text|
      invariant Covers(text, result, lineStart)
      invariant NoBreakIn(text, lineStart, position)
      decreases |text| - position
    {
      result, lineStart, position := ScanCharacter(text, result, lineStart, position);
    }
    lines := result + [TextLine(lineStart, position - lineStart, position - lineStart)];
    LastLineCloses(text, result, lineStart);
    TilesCount(text, lines);
  }

  /** One turn of ParseLines' scan: a character that is not a break
      joins the current line; a break closes the line, and the next one
      starts after it. */
  method ScanCharacter(text: string, result: seq<TextLine>, lineStart: nat, position: nat)
    returns (result': seq<TextLine>, lineStart': nat, position': nat)
    requires lineStart <= position < |text|
    requires Covers(text, result, lineStart) && NoBreakIn(text, lineStart, position)
    ensures lineStart' <= position' <= |text| && position < position'
    ensures Covers(text, result', lineStart') && NoBreakIn(text, lineStart', position')
  {
    var lineBreakWidth := LineBreakWidth(text, position);
    if lineBreakWidth == 0 {
      NoBreakExtends(text, lineStart, position);
      result', lineStart', position' := result, lineStart, position + 1;
    } else {
      var line := TextLine(lineStart, position - lineStart, position - lineStart + lineBreakWidth);
      CoversExtend(text, result, lineStart, position);
      result', lineStart', position' := result + [line], position + lineBreakWidth, position + lineBreakWidth;
    }
  }

  /** The rest of the text after the last break is the final line. */
  lemma LastLineCloses(text: string, lines: seq<TextLine>, lineStart: nat)
    requires lineStart <= |text| && Covers(text, lines, lineStart) && NoBreakIn(text, lineStart, |text|)
    ensures Tiles(text, lines + [TextLine(lineStart, |text| - lineStart, |text| - lineStart)])
  {
    var all := lines + [TextLine(lineStart, |text| - lineStart, |text| - lineStart)];
    assert all[..|all| - 1] == lines;
  }

  /** Without a break in [from, to), the breaks from `from` on are those
      from `to` on. */
  lemma {:induction false} NoBreakSkips(text: string, from: nat, to: nat)
    requires from <= to <= |text| && NoBreakIn(text, from, to)
    ensures BreakCount(text, from) == BreakCount(text, to)
    decreases |text| - from
  {
    if from < to {
      NoBreakSkips(text, from + 1, to);
      BreakCountStep(text, from);
    }
  }

  /** Dropping the last of the covering lines covers up to its start. */
  lemma CoversPrefix(text: string, lines: seq<TextLine>, upto: int)
    requires Covers(text, lines, upto) && lines != []
    ensures Covers(text, lines[..|lines| - 1], lines[|lines| - 1].start)
  {
    var init := lines[..|lines| - 1];
    assert forall i :: 0 <= i < |init| ==> init[i] == lines[i];
    if |init| > 0 {
      assert init[|init| - 1] == lines[|lines| - 2];
    }
  }

  /** Each covering line holds exactly one break. */
  lemma {:induction false} CoveredBreaks(text: string, lines: seq<TextLine>, upto: int)
    requires Covers(text, lines, upto)
    ensures 0 <= upto <= |text| && BreakCount(text, 0) == |lines| + BreakCount(text, upto)
    decreases |lines|
  {
    if lines != [] {
      var last := lines[|lines| - 1];
      CoversPrefix(text, lines, upto);
      CoveredBreaks(text, lines[..|lines| - 1], last.start);
      InnerLineBreaks(text, last);
    }
  }

  /** An inner line holds one break. */
  lemma InnerLineBreaks(text: string, line: TextLine)
    requires InnerLine(text, line)
    ensures line.start + line.lengthIncludingLineBreak <= |text|
    ensures BreakCount(text, line.start) == 1 + BreakCount(text, line.start + line.lengthIncludingLineBreak)
  {
    NoBreakSkips(text, line.start, line.End());
    BreakCountStep(text, line.End());
  }

  /** There is one line more than there are breaks. */
  lemma TilesCount(text: string, lines: seq<TextLine>)
    requires Tiles(text, lines)
    ensures |lines| == BreakCount(text, 0) + 1
  {
    var last := lines[|lines| - 1];
    CoveredBreaks(text, lines[..|lines| - 1], last.start);
    NoBreakSkips(text, last.start, |text|);
  }

  /** Line starts strictly increase, since every line but the last is
      followed by a break. */
  lemma {:induction false} StartsIncrease(text: string, lines: seq<TextLine>, i: int, j: int)
    requires Tiles(text, lines)
    requires 0 <= i < j < |lines|
    ensures lines[i].start < lines[j].start
    decreases j - i
  {
    var inner := lines[..|lines| - 1];
    assert inner[i] == lines[i];
    assert InnerLine(text, inner[i]);
    if j == i + 1 {
      if j < |lines| - 1 {
        assert lines[j] == inner[j];
      }
    } else {
      StartsIncrease(text, lines, i + 1, j);
      assert inner[i + 1].start == inner[i].start + inner[i].lengthIncludingLineBreak || i + 1 == |lines| - 1;
    }
  }

  lemma FirstStartsAtZero(text: string, lines: seq<TextLine>)
    requires Tiles(text, lines)
    ensures lines[0].start == 0
  {
    if |lines| > 1 {
      assert lines[..|lines| - 1][0] == lines[0];
    }
  }

  datatype SourceText = SourceText(text: string, fileName: string, lines: seq<TextLine>)
  {
    /** The lines are the ones found in the text. */
    ghost predicate Valid() { Tiles(text, lines) }

    function Length(): nat { |text| }

    /** `ToString(start, length)` and `ToString(span)`: Substring, which
        throws when the range lies outside the text. */
    function Substring(start: int, length: int): (r: Option<string>)
      ensures r.Some? <==> 0 <= start && 0 <= length && start + length <= |text|
      ensures r.Some? ==> |r.value| == length && forall k :: 0 <= k < length ==> r.value[k] == text[start + k]
    {
      if 0 <= start && 0 <= length && start + length <= |text| then Some(text[start..start + length]) else None
    }

    /** A range inside the text is its slice. */
    lemma SubstringSlice(from: nat, to: nat)
      requires from <= to <= |text|
      ensures Substring(from, to - from) == Some(text[from..to])
    {
    }

    function SpanText(span: TextSpan): (r: Option<string>)
      ensures r == Substring(span.start, span.length)
    {
      Substring(span.start, span.length)
    }

    /** GetLineIndex: the last line starting at or before the position;
        -1 for a negative position. */
    method GetLineIndex(position: int) returns (r: int)
      requires Valid()
      ensures position < 0 ==> r == -1
      ensures position >= 0 ==> 0 <= r < |lines| && lines[r].start <= position
      ensures position >= 0 && r + 1 < |lines| ==> position < lines[r + 1].start
    {
      TilesAscend(text, lines);
      r := SearchStarts(lines, position);
    }
  }

  /** Line starts begin at 0 and strictly increase. */
  ghost predicate Ascending(lines: seq<TextLine>)
  {
    && |lines| >= 1 && lines[0].start == 0
    && forall i, j :: 0 <= i < j < |lines| ==> lines[i].start < lines[j].start
  }

  lemma TilesAscend(text: string, lines: seq<TextLine>)
    requires Tiles(text, lines)
    ensures Ascending(lines)
  {
    FirstStartsAtZero(text, lines);
    forall i, j | 0 <= i < j < |lines| ensures lines[i].start < lines[j].start {
      StartsIncrease(text, lines, i, j);
    }
  }

  /** The binary search of GetLineIndex over ascending line starts. */
  method SearchStarts(lines: seq<TextLine>, position: int) returns (r: int)
    requires Ascending(lines)
    ensures position < 0 ==> r == -1
    ensures position >= 0 ==> 0 <= r < |lines| && lines[r].start <= position
    ensures position >= 0 && r + 1 < |lines| ==> position < lines[r + 1].start
  {
    var lower := 0;
    var upper := |lines| - 1;
    while lower <= upper
      invariant 0 <= lower <= upper + 1 <= |lines|
      invariant lower > 0 ==> lines[lower - 1].start <= position
      invariant upper + 1 < |lines| ==> position < lines[upper + 1].start
      decreases upper - lower
    {
      var index := lower + (upper - lower) / 2;
      var start := lines[index].start;
      if position == start {
        return index;
      }
      if start > position {
        upper := index - 1;
      } else {
        lower := index + 1;
      }
    }
    r := lower - 1;
  }

  /** SourceText.From: the text, the file name and the text's lines. */
  method From(text: string, fileName: string) returns (s: SourceText)
    ensures s.Valid() && s.text == text && s.fileName == fileName
    ensures |s.lines| == BreakCount(text, 0) + 1
  {
    var lines := ParseLines(text);
    s := SourceText(text, fileName, lines);
  }

  /** Counting breaks from a position shifted by a prefix. */
  lemma {:induction false} BreakCountShift(a: string, c: string, q: nat)
    requires q <= |c|
    ensures BreakCount(a + c, |a| + q) == BreakCount(c, q)
    decreases |c| - q
  {
    if q < |c| {
      var t := a + c;
      assert t[|a| + q] == c[q];
      if q + 1 < |c| { assert t[|a| + q + 1] == c[q + 1]; }
      var w := LineBreakWidth(c, q);
      assert LineBreakWidth(t, |a| + q) == w;
      BreakCountStep(t, |a| + q);
      BreakCountStep(c, q);
      if w == 0 { BreakCountShift(a, c, q + 1); } else { BreakCountShift(a, c, q + w); }
    }
  }

  /** The breaks of a + c are those of a and those of c, unless a's last
      '\r' and c's first '\n' join into one "\r\n". */
  lemma {:induction false} BreakCountAppend(a: string, c: string, p: nat)
    requires p <= |a| && !(|a| > 0 && a[|a| - 1] == '\r' && |c| > 0 && c[0] == '\n')
    ensures BreakCount(a + c, p) == BreakCount(a, p) + BreakCount(c, 0)
    decreases |a| - p
  {
    if p == |a| {
      BreakCountShift(a, c, 0);
    } else {
      var t := a + c;
      assert t[p] == a[p];
      if p + 1 < |a| { assert t[p + 1] == a[p + 1]; }
      else if |c| > 0 { assert t[p + 1] == c[0]; }
      var w := LineBreakWidth(a, p);
      assert LineBreakWidth(t, p) == w;
      BreakCountStep(t, p);
      BreakCountStep(a, p);
      if w == 0 { BreakCountAppend(a, c, p + 1); } else { BreakCountAppend(a, c, p + w); }
    }
  }

  /** "\r\n" is one break wherever it stands: a text with "\r\n" inserted
      has one break more, so "a\r\nb\n" has two breaks and three lines. */
  lemma CrLfIsOneBreak(a: string, b: string)
    ensures BreakCount(a + "\r\n" + b, 0) == BreakCount(a, 0) + 1 + BreakCount(b, 0)
  {
    var crlf := "\r\n";
    assert LineBreakWidth(crlf, 0) == 2;
    assert BreakCount(crlf, 0) == 1 by { BreakCountStep(crlf, 0); }
    BreakCountAppend(a, crlf, 0);
    BreakCountAppend(a + crlf, b, 0);
  }
}
