// TextSpanComparer: orders text spans by start, then by length. The
// comparison is the C# difference of two ints, so it wraps around when the
// difference does not fit an int.
module SpanComparer {
  import opened Int32
  import opened TextSpans

  /** Both fields hold C# ints. */
  predicate Fits(s: TextSpan)
  {
    MinValue <= s.start <= MaxValue && MinValue <= s.length <= MaxValue
  }

  /** The spans the editor compares: positions and lengths are never
      negative. */
  predicate NonNegative(s: TextSpan)
  {
    0 <= s.start <= MaxValue && 0 <= s.length <= MaxValue
  }

  /** Start before end: the lexicographic order on (start, length). */
  predicate Before(x: TextSpan, y: TextSpan)
  {
    x.start < y.start || (x.start == y.start && x.length < y.length)
  }

  /** Compare: the difference of the starts, or of the lengths when the
      starts are equal. Zero exactly when the spans are equal. */
  function Compare(x: TextSpan, y: TextSpan): (r: i32)
    requires Fits(x) && Fits(y)
    ensures r == 0 <==> x == y
  {
    DifferenceIsZero(x.start, y.start);
    DifferenceIsZero(x.length, y.length);
    var cmp := Sub(x.start, y.start);
    if cmp == 0 then Sub(x.length, y.length) else cmp
  }

  /** A wrapped difference of two ints is zero only for equal ints. */
  lemma DifferenceIsZero(a: i32, b: i32)
    ensures Sub(a, b) == 0 <==> a == b
  {
    if Sub(a, b) == 0 {
      assert (0 - (a - b)) % Modulus == 0;
      assert -Modulus < b - a < Modulus;
    }
  }

  /** On spans that are not negative no difference wraps, so the sign of
      Compare is the lexicographic order. */
  lemma CompareIsLexicographic(x: TextSpan, y: TextSpan)
    requires NonNegative(x) && NonNegative(y)
    ensures Compare(x, y) < 0 <==> Before(x, y)
    ensures Compare(x, y) > 0 <==> Before(y, x)
  {
    assert Sub(x.start, y.start) == x.start - y.start;
    assert Sub(x.length, y.length) == x.length - y.length;
  }

  /** Spans with different starts are ordered by their starts, whatever
      their lengths. */
  lemma StartDecides(x: TextSpan, y: TextSpan)
    requires NonNegative(x) && NonNegative(y) && x.start != y.start
    ensures Compare(x, y) < 0 <==> x.start < y.start
  {
    CompareIsLexicographic(x, y);
  }

  /** Swapping the arguments flips the sign. */
  lemma Antisymmetric(x: TextSpan, y: TextSpan)
    requires NonNegative(x) && NonNegative(y)
    ensures Compare(x, y) < 0 <==> Compare(y, x) > 0
    ensures Compare(x, y) == 0 <==> Compare(y, x) == 0
  {
    CompareIsLexicographic(x, y);
    CompareIsLexicographic(y, x);
  }

  /** The order Compare induces is transitive. */
  lemma Transitive(x: TextSpan, y: TextSpan, z: TextSpan)
    requires NonNegative(x) && NonNegative(y) && NonNegative(z)
    requires Compare(x, y) <= 0 && Compare(y, z) <= 0
    ensures Compare(x, z) <= 0
    ensures Compare(x, y) < 0 || Compare(y, z) < 0 ==> Compare(x, z) < 0
  {
    CompareIsLexicographic(x, y);
    CompareIsLexicographic(y, z);
    CompareIsLexicographic(x, z);
  }

  /** Outside the non-negative spans the difference wraps: a span starting
      at int.MinValue compares after one starting at 1. */
  lemma NegativeStartWraps()
    ensures Compare(TextSpan(MinValue, 0), TextSpan(1, 0)) > 0
  {
    assert Sub(MinValue, 1) == MaxValue;
  }
}
