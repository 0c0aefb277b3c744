/**
 * Transformation: one OCR rule applied at one position of a word, replacing
 * the text original found at index by replacement. The fields are immutable,
 * so the class is a datatype here and its getters are the field selectors.
 */
module Transformations {

  datatype Transformation = Transformation(original: string, replacement: string, index: int)

  /** equals: the same original, the same replacement and the same index. */
  function Equals(a: Transformation, b: Transformation): (r: bool)
    ensures r <==> a.original == b.original && a.replacement == b.replacement && a.index == b.index
  {
    a == b
  }

  /**
   * String.hashCode as an unbounded polynomial in 31 over the characters;
   * Java's 32-bit wrap-around is not modelled.
   */
  function StringHash(s: string): int
  {
    if s == [] then 0 else 31 * StringHash(s[..|s| - 1]) + s[|s| - 1] as int
  }

  /** hashCode: the original's hash plus 31 times the replacement's, plus the index. */
  function HashCode(t: Transformation): int
  {
    StringHash(t.original) + 31 * StringHash(t.replacement) + t.index
  }

  /** equals is reflexive and symmetric. */
  lemma EqualsReflexiveSymmetric(a: Transformation, b: Transformation)
    ensures Equals(a, a)
    ensures Equals(a, b) == Equals(b, a)
  {
  }

  /** Equal transformations hash alike. */
  lemma HashCodeConsistent(a: Transformation, b: Transformation)
    requires Equals(a, b)
    ensures HashCode(a) == HashCode(b)
  {
  }

  /** The position just past the span the rule replaces. */
  function SpanEnd(t: Transformation): int
  {
    t.index + |t.original|
  }
}
