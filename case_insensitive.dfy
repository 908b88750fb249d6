/** Case-insensitive comparison of names.

    The original compares names with culture-aware Unicode case folding; this model
    folds ASCII letters only, which is enough to state every property that depends on
    two names being "equal ignoring case": the relation is an equivalence and is
    decided by comparing folded forms. */
module CaseInsensitive {

  /** Maps 'A'..'Z' to 'a'..'z' and leaves every other character alone. */
  function Lower(c: char): (r: char)
    ensures 'A' <= c <= 'Z' ==> 'a' <= r <= 'z'
    ensures !('A' <= c <= 'Z') ==> r == c
  {
    if 'A' <= c <= 'Z' then (c as int + 32) as char else c
  }

  /** The folded form of a name, character by character. */
  function Fold(s: string): (r: string)
    ensures |r| == |s|
    ensures forall i :: 0 <= i < |s| ==> r[i] == Lower(s[i])
  {
    seq(|s|, i requires 0 <= i < |s| => Lower(s[i]))
  }

  /** Two names are equal ignoring case when their folded forms agree. */
  predicate EqualsIgnoreCase(a: string, b: string)
  {
    Fold(a) == Fold(b)
  }
}
