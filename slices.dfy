// Facts about slices of a sequence that the calculator parsers' token
// proofs use: a parsed tree's tokens are a slice of the token array.
module Slices {

  /** A slice is its first element and the rest. */
  lemma SliceCons<T>(s: seq<T>, i: nat, j: nat)
    requires i < j <= |s|
    ensures s[i..j] == [s[i]] + s[i + 1..j]
  {
  }

  /** A slice split at a midpoint. */
  lemma SliceSplit<T>(s: seq<T>, i: nat, j: nat, k: nat)
    requires i <= j <= k <= |s|
    ensures s[i..k] == s[i..j] + s[j..k]
  {
  }

  /** An element, a slice and the element after the slice are one longer
      slice. */
  lemma Enclosed<T>(s: seq<T>, i: nat, j: nat, inner: seq<T>, close: T)
    requires i < j < |s| && inner == s[i + 1..j] && close == s[j]
    ensures [s[i]] + inner + [close] == s[i..j + 1]
  {
    assert s[i..j + 1] == [s[i]] + s[i + 1..j] + [s[j]];
  }

  /** Elements read before a slice, then an element, a slice and a slice
      after it, are the earlier elements and one slice. */
  lemma Glue<T>(s: seq<T>, i: nat, j: nat, k: nat, before: seq<T>, inner: seq<T>, whole: seq<T>)
    requires i < j <= k <= |s|
    requires inner == s[i + 1..j] && whole == before + [s[i]] + inner + s[j..k]
    ensures whole == before + s[i..k]
  {
    SliceSplit(s, i + 1, j, k);
    SliceCons(s, i, k);
  }

  /** A slice up to the last element, and that element, are the suffix. */
  lemma LastOfSuffix<T>(s: seq<T>, i: nat)
    requires i < |s|
    ensures s[i..] == s[i..|s| - 1] + [s[|s| - 1]]
  {
  }

  /** The empty slice. */
  lemma EmptySlice<T>(s: seq<T>, i: nat)
    requires i <= |s|
    ensures s[i..i] == []
  {
  }

  /** A one-element slice. */
  lemma SingleSlice<T>(s: seq<T>, i: nat)
    requires i < |s|
    ensures s[i..i + 1] == [s[i]]
  {
  }
}
