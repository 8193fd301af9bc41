// Character classification: the .NET `char` predicates the lexers call, and
// the character-run scanning all the lexers share.
module CharClasses {

  /** `char.IsWhiteSpace`: the Unicode space separators, line and paragraph
      separators, U+0009 to U+000D, U+0085 and U+00A0. */
  predicate IsWhiteSpace(c: char)
  {
    ('\U{9}' <= c <= '\U{D}') || c == ' ' || c == '\U{85}' || c == '\U{A0}'
    || c == '\U{1680}' || ('\U{2000}' <= c <= '\U{200A}') || c == '\U{2028}' || c == '\U{2029}'
    || c == '\U{202F}' || c == '\U{205F}' || c == '\U{3000}'
  }

  /** `char.IsLetter` and `char.IsDigit` follow the Unicode category tables,
      which the model does not spell out. They are kept as parameters, and
      only what the lexers rely on is assumed of them. */
  datatype CharClass = CharClass(isLetter: char -> bool, isDigit: char -> bool)
  {
    /** The ASCII digits are decimal digits and the NUL that stands for the
        end of the text is neither a letter nor a digit. */
    predicate Valid()
    {
      (forall c :: '0' <= c <= '9' ==> isDigit(c))
      && !isLetter('\0') && !isDigit('\0')
    }
  }

  lemma NulIsNotWhiteSpace()
    ensures !IsWhiteSpace('\0')
    ensures IsWhiteSpace(' ') && IsWhiteSpace('\t') && IsWhiteSpace('\n') && IsWhiteSpace('\r')
  {
  }

  /** The character at an index, or '\0' past the end of the text. */
  function CharAt(text: string, index: nat): (c: char)
    ensures index < |text| ==> c == text[index]
    ensures index >= |text| ==> c == '\0'
  {
    if index >= |text| then '\0' else text[index]
  }

  /** The end of the run of characters in a class that starts at p: every
      character before it is in the class and the one at it is not. */
  function RunEnd(text: string, p: nat, inRun: char -> bool): (q: nat)
    requires !inRun('\0')
    ensures p <= q && (p <= |text| ==> q <= |text|)
    ensures forall k :: p <= k < q ==> k < |text| && inRun(text[k])
    ensures !inRun(CharAt(text, q))
    decreases |text| - p
  {
    if inRun(CharAt(text, p)) then RunEnd(text, p + 1, inRun) else p
  }
}
