// Text spans: a start position and a length in characters.
module TextSpans {
  datatype TextSpan = TextSpan(start: int, length: int)
  {
    function End(): int { start + length }
  }

  function FromBounds(start: int, end: int): (s: TextSpan)
    ensures s.start == start && s.End() == end
  {
    TextSpan(start, end - start)
  }
}
