// Decimal text of 32-bit integers: `int.TryParse` on the digit runs both
// lexers hand it, and `int.ToString()` as the printer uses it.
module Numerals {
  import opened Int32
  import opened Wrappers

  predicate IsAsciiDigit(c: char) { '0' <= c <= '9' }

  function DigitValue(c: char): nat
    requires IsAsciiDigit(c)
  {
    (c as int) - ('0' as int)
  }

  /** The value of a string of ASCII digits, most significant first. */
  function DecimalValue(s: string): nat
    requires forall i :: 0 <= i < |s| ==> IsAsciiDigit(s[i])
  {
    if s == [] then 0 else DecimalValue(s[..|s| - 1]) * 10 + DigitValue(s[|s| - 1])
  }

  /** `int.TryParse` on text without whitespace or sign: it succeeds exactly
      when the text is a non-empty run of ASCII digits whose value fits in an
      int. (Other Unicode decimal digits satisfy `char.IsDigit` but are
      refused by the parser.) */
  function TryParse(s: string): (r: Option<i32>)
    ensures r.Some? <==> (s != [] && (forall i :: 0 <= i < |s| ==> IsAsciiDigit(s[i])) && DecimalValue(s) <= MaxValue)
    ensures r.Some? ==> r.value == DecimalValue(s)
  {
    if s != [] && (forall i :: 0 <= i < |s| ==> IsAsciiDigit(s[i])) && DecimalValue(s) <= MaxValue
    then Some(DecimalValue(s))
    else None
  }

  /** Decimal digits of a natural number, no leading zeros. */
  function Digits(n: nat): (s: string)
    ensures s != [] && forall i :: 0 <= i < |s| ==> IsAsciiDigit(s[i])
    decreases n
  {
    var d := ['0' + ((n % 10) as char)];
    if n < 10 then d else Digits(n / 10) + d
  }

  /** `int.ToString()`: a minus sign for negative values, then the digits. */
  function ToString(x: int): string
  {
    if x < 0 then "-" + Digits(-x) else Digits(x)
  }

  lemma {:induction false} DigitsValue(n: nat)
    ensures DecimalValue(Digits(n)) == n
    decreases n
  {
    var s := Digits(n);
    var d := '0' + ((n % 10) as char);
    assert DigitValue(d) == n % 10;
    if n >= 10 {
      DigitsValue(n / 10);
      assert s[..|s| - 1] == Digits(n / 10);
    } else {
      assert s[..|s| - 1] == [];
    }
  }

  /** Printing a non-negative int and parsing it back gives the same value. */
  lemma ParseToString(x: i32)
    requires x >= 0
    ensures TryParse(ToString(x)) == Some(x)
  {
    DigitsValue(x);
  }

  /** The digits of a number beyond int.MaxValue do not parse. */
  lemma ParseTooLarge(n: nat)
    requires n > MaxValue
    ensures TryParse(Digits(n)) == None
  {
    DigitsValue(n);
  }

  /** A leading zero does not change a run of digits' value. */
  lemma {:induction false} DecimalValueLeadingZero(s: string)
    requires forall i :: 0 <= i < |s| ==> IsAsciiDigit(s[i])
    ensures DecimalValue("0" + s) == DecimalValue(s)
    decreases |s|
  {
    var t := "0" + s;
    if s == [] {
      assert t[..0] == [];
    } else {
      DecimalValueLeadingZero(s[..|s| - 1]);
      assert t[..|t| - 1] == "0" + s[..|s| - 1];
    }
  }

  /** Leading zeros are accepted and ignored: "007" parses as 7. With the
      empty text and any non-digit (TryParse's own contract) these are the
      cases of the parse. */
  lemma ParseLeadingZero(s: string)
    requires s != []
    ensures TryParse("0" + s) == TryParse(s)
  {
    var t := "0" + s;
    assert forall i :: 0 <= i < |s| ==> s[i] == t[i + 1];
    if forall i :: 0 <= i < |s| ==> IsAsciiDigit(s[i]) {
      DecimalValueLeadingZero(s);
    } else {
      var i :| 0 <= i < |s| && !IsAsciiDigit(s[i]);
      assert !IsAsciiDigit(t[i + 1]);
    }
  }
}
