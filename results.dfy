/**
 * The result data model: a Score per suggestion, Suggestion records, and
 * the Misspelling that keeps its suggestions in a sorted set ordered by
 * SuggestionComparator.
 */
module Results {
  import opened Wrappers
  import opened JavaStrings
  import opened Transformations

  /**
   * A java.lang.String object. The source compares some strings with ==,
   * which looks at the object and not at its characters, so the object is
   * kept apart from its value.
   */
  class JString {
    const value: string

    constructor (value: string)
      ensures this.value == value
    {
      this.value := value;
    }
  }

  /** Score: three boxed values, each null (None) until its setter runs. */
  class Score {
    var levenshtein: Option<int>
    var bigram: Option<real>
    var trigram: Option<real>

    constructor ()
      ensures levenshtein == None && bigram == None && trigram == None
    {
      levenshtein := None;
      bigram := None;
      trigram := None;
    }

    method SetBigramScore(value: Option<real>)
      modifies this
      ensures bigram == value
      ensures levenshtein == old(levenshtein) && trigram == old(trigram)
    {
      bigram := value;
    }

    method SetTrigramScore(value: Option<real>)
      modifies this
      ensures trigram == value
      ensures levenshtein == old(levenshtein) && bigram == old(bigram)
    {
      trigram := value;
    }

    method SetLevenshteinScore(value: Option<int>)
      modifies this
      ensures levenshtein == value
      ensures bigram == old(bigram) && trigram == old(trigram)
    {
      levenshtein := value;
    }

    /**
     * getAggregateScore: the Levenshtein score as a double; unboxing an unset
     * score fails. The n-gram scores take no part in it.
     */
    function AggregateScore(): (r: real)
      reads this
      requires levenshtein.Some?
      ensures r.Floor == levenshtein.value && r == r.Floor as real
    {
      levenshtein.value as real
    }

    /**
     * compareTo: Double.compareTo of the two aggregate scores, so -1, 0 or 1
     * by the Levenshtein scores alone.
     */
    function CompareTo(other: Score): (r: int)
      reads this, other
      requires levenshtein.Some? && other.levenshtein.Some?
      ensures -1 <= r <= 1
      ensures r < 0 <==> levenshtein.value < other.levenshtein.value
      ensures r == 0 <==> levenshtein.value == other.levenshtein.value
    {
      var a := AggregateScore();
      var b := other.AggregateScore();
      if a < b then -1 else if a > b then 1 else 0
    }

    /** equals: the same object, or all three fields equal (two nulls are equal). */
    function Equals(other: Score): (r: bool)
      reads this, other
      ensures r <==> levenshtein == other.levenshtein && bigram == other.bigram && trigram == other.trigram
    {
      this == other || (bigram == other.bigram && levenshtein == other.levenshtein && trigram == other.trigram)
    }

    /** hashCode: 31-polynomial of the three fields' hashes, 0 for null; without 32-bit wrap-around. */
    function HashCode(): int
      reads this
    {
      31 * (31 * IntHash(levenshtein) + RealHash(bigram)) + RealHash(trigram)
    }
  }

  function IntHash(x: Option<int>): int
  {
    if x.None? then 0 else x.value
  }

  /** Double.hashCode mixes the bits of the double; any function of the value stands in for it. */
  function RealHash(x: Option<real>): int
  {
    if x.None? then 0 else x.value.Floor
  }

  /** Equal scores hash alike. */
  lemma ScoreHashConsistent(a: Score, b: Score)
    requires a.Equals(b)
    ensures a.HashCode() == b.HashCode()
  {
  }

  /**
   * compareTo ignores the n-gram scores: two scores with the same Levenshtein
   * score compare as 0, yet they are equal only when the n-gram scores agree.
   */
  lemma CompareToIgnoresNGrams(a: Score, b: Score)
    requires a.levenshtein.Some? && a.levenshtein == b.levenshtein
    ensures a.CompareTo(b) == 0
    ensures a.Equals(b) <==> a.bigram == b.bigram && a.trigram == b.trigram
  {
  }

  /** Suggestion: the candidate text, the rules that produced it, and a score set later. */
  class Suggestion {
    const misspelling: Misspelling
    const text: string
    const transformations: seq<Transformation>
    var score: Score?

    constructor (misspelling: Misspelling, text: string, transformations: seq<Transformation>)
      ensures this.misspelling == misspelling && this.text == text && this.transformations == transformations
      ensures score == null
    {
      this.misspelling := misspelling;
      this.text := text;
      this.transformations := transformations;
      score := null;
    }

    method SetScore(score: Score?)
      modifies this
      ensures this.score == score
    {
      this.score := score;
    }
  }

  /** The suggestion has a score whose Levenshtein part is set. */
  predicate Scored(s: Suggestion)
    reads s, s.score
  {
    s.score != null && s.score.levenshtein.Some?
  }

  /** The Levenshtein score of a scored suggestion. */
  function Lev(s: Suggestion): int
    reads s, s.score
    requires Scored(s)
  {
    s.score.levenshtein.value
  }

  /**
   * SuggestionComparator.compare: two different Score objects are compared by
   * compareTo; the same Score object (or two nulls) falls back to the texts.
   */
  function CompareSuggestions(s1: Suggestion, s2: Suggestion): (r: int)
    reads s1, s2, s1.score, s2.score
    requires s1.score == s2.score || (Scored(s1) && Scored(s2))
    ensures s1.score != s2.score ==> (r < 0 <==> Lev(s1) < Lev(s2)) && (r == 0 <==> Lev(s1) == Lev(s2))
    ensures s1.score == s2.score ==> (r == 0 <==> s1.text == s2.text)
  {
    if s1.score != s2.score then s1.score.CompareTo(s2.score)
    else
      CompareStringsProperties(s1.text, s2.text);
      CompareStrings(s1.text, s2.text)
  }

  /** Swapping two scored suggestions reverses the comparator's sign. */
  lemma CompareSuggestionsAntisymmetric(a: Suggestion, b: Suggestion)
    requires Scored(a) && Scored(b)
    ensures CompareSuggestions(a, b) < 0 <==> CompareSuggestions(b, a) > 0
    ensures CompareSuggestions(a, b) == 0 <==> CompareSuggestions(b, a) == 0
  {
    CompareStringsProperties(a.text, b.text);
  }

  /** The comparator orders scored suggestions transitively. */
  lemma CompareSuggestionsTransitive(a: Suggestion, b: Suggestion, c: Suggestion)
    requires Scored(a) && Scored(b) && Scored(c)
    requires CompareSuggestions(a, b) < 0 && CompareSuggestions(b, c) < 0
    ensures CompareSuggestions(a, c) < 0
  {
    if a.score == b.score && b.score == c.score {
      CompareStringsTransitive(a.text, b.text, c.text);
    }
  }

  /** Every suggestion is scored and the list is strictly ascending under the comparator. */
  ghost predicate Ascending(ss: seq<Suggestion>)
    reads ss, ScoresOf(ss)
  {
    (forall i :: 0 <= i < |ss| ==> Scored(ss[i])) &&
    (forall i, j :: 0 <= i < j < |ss| ==> CompareSuggestions(ss[i], ss[j]) < 0)
  }

  /** Every suggestion in ss was made for the misspelling m. */
  predicate BelongTo(ss: seq<Suggestion>, m: Misspelling)
  {
    forall i :: 0 <= i < |ss| ==> ss[i].misspelling == m
  }

  lemma InsertBelongs(ss: seq<Suggestion>, i: nat, s: Suggestion, m: Misspelling)
    requires BelongTo(ss, m) && s.misspelling == m && i <= |ss|
    ensures BelongTo(ss[..i] + [s] + ss[i..], m)
  {
    var t := ss[..i] + [s] + ss[i..];
    assert forall k :: 0 <= k < |t| ==> t[k] == if k < i then ss[k] else if k == i then s else ss[k - 1];
  }

  /**
   * Among suggestions holding distinct Score objects, as the pipeline
   * creates them, the comparator sees only the distance: the set refuses a
   * suggestion exactly when one already present has the same distance.
   */
  lemma TiesAreDuplicates(ss: seq<Suggestion>, s: Suggestion)
    requires Ascending(ss) && Scored(s)
    requires forall k :: 0 <= k < |ss| ==> ss[k].score != s.score
    ensures (forall k :: 0 <= k < |ss| ==> CompareSuggestions(ss[k], s) != 0) <==>
            (forall k :: 0 <= k < |ss| ==> Lev(ss[k]) != Lev(s))
  {
  }

  /** With distinct Score objects the set holds at most one suggestion per distance, in increasing order. */
  lemma DistinctScoresIncreasing(ss: seq<Suggestion>)
    requires Ascending(ss)
    requires forall i, j :: 0 <= i < j < |ss| ==> ss[i].score != ss[j].score
    ensures forall i, j :: 0 <= i < j < |ss| ==> Lev(ss[i]) < Lev(ss[j])
  {
  }

  /** The search of the sorted set: the number of leading elements that lie below s. */
  method InsertionPoint(ss: seq<Suggestion>, s: Suggestion) returns (i: nat)
    requires Ascending(ss) && Scored(s)
    ensures i <= |ss|
    ensures forall k :: 0 <= k < i ==> CompareSuggestions(ss[k], s) < 0
    ensures i < |ss| ==> CompareSuggestions(ss[i], s) >= 0
  {
    i := 0;
    while i < |ss| && CompareSuggestions(ss[i], s) < 0
      invariant i <= |ss|
      invariant forall k :: 0 <= k < i ==> CompareSuggestions(ss[k], s) < 0
    {
      i := i + 1;
    }
  }

  /**
   * When ss[i] is the first element not below s and it does not compare as 0
   * with s, then s lies strictly below ss[i] and everything after it.
   */
  lemma AboveInsertionPoint(ss: seq<Suggestion>, i: nat, s: Suggestion)
    requires Ascending(ss) && Scored(s) && i <= |ss|
    requires i < |ss| ==> CompareSuggestions(ss[i], s) >= 0 && CompareSuggestions(ss[i], s) != 0
    ensures forall k :: i <= k < |ss| ==> CompareSuggestions(ss[k], s) != 0 && CompareSuggestions(s, ss[k]) < 0
  {
    if i < |ss| {
      CompareSuggestionsAntisymmetric(ss[i], s);
      forall k | i <= k < |ss|
        ensures CompareSuggestions(ss[k], s) != 0 && CompareSuggestions(s, ss[k]) < 0
      {
        if k > i {
          CompareSuggestionsTransitive(s, ss[i], ss[k]);
        }
        CompareSuggestionsAntisymmetric(s, ss[k]);
      }
    }
  }

  /** Inserting s between the elements below it and those above it keeps the list ascending. */
  lemma InsertAscending(ss: seq<Suggestion>, i: nat, s: Suggestion)
    requires Ascending(ss) && Scored(s) && i <= |ss|
    requires forall k :: 0 <= k < i ==> CompareSuggestions(ss[k], s) < 0
    requires forall k :: i <= k < |ss| ==> CompareSuggestions(s, ss[k]) < 0
    ensures Ascending(ss[..i] + [s] + ss[i..])
  {
    var t := ss[..i] + [s] + ss[i..];
    assert forall k :: 0 <= k < |t| ==> t[k] == if k < i then ss[k] else if k == i then s else ss[k - 1];
    forall a, b | 0 <= a < b < |t|
      ensures CompareSuggestions(t[a], t[b]) < 0
    {
      if a < i && b > i {
        CompareSuggestionsTransitive(t[a], s, t[b]);
      }
    }
  }

  /** The Score objects of a list of suggestions. */
  ghost function ScoresOf(ss: seq<Suggestion>): set<Score?>
    reads ss
  {
    set s | s in ss :: s.score
  }

  /**
   * Misspelling: the misspelled text, its n-gram scores, and a TreeSet of
   * suggestions, kept here as a list in the comparator's ascending order.
   */
  class Misspelling {
    const word: JString
    const bigram: real
    const trigram: real
    var suggestions: seq<Suggestion>

    /**
     * Every suggestion belongs to this misspelling and is scored, and the
     * list is strictly ascending under the comparator.
     */
    ghost predicate Valid()
      reads this, suggestions, ScoresOf(suggestions)
    {
      BelongTo(suggestions, this) && Ascending(suggestions)
    }

    constructor (word: JString, bigram: real, trigram: real)
      ensures this.word == word && this.bigram == bigram && this.trigram == trigram
      ensures suggestions == [] && Valid()
    {
      this.word := word;
      this.bigram := bigram;
      this.trigram := trigram;
      suggestions := [];
    }

    /**
     * addSuggestion: a suggestion of another misspelling is refused with
     * IllegalArgumentException; otherwise the sorted set gains it unless an
     * element already compares as 0 with it, and the result says whether it
     * was added.
     */
    method AddSuggestion(s: Suggestion) returns (r: Result<bool>)
      requires Valid()
      requires s.misspelling == this ==> Scored(s)
      modifies this
      ensures Valid()
      ensures s.misspelling != this ==> r.Failure? && suggestions == old(suggestions)
      ensures s.misspelling == this ==>
                r.Success? && (r.value <==> forall k :: 0 <= k < |old(suggestions)| ==> CompareSuggestions(old(suggestions)[k], s) != 0)
      ensures r == Success(false) ==> suggestions == old(suggestions)
      ensures r == Success(true) ==>
                exists i :: 0 <= i <= |old(suggestions)| && suggestions == old(suggestions)[..i] + [s] + old(suggestions)[i..]
    {
      if s.misspelling != this {
        return Failure("IllegalArgumentException: misspelling mismatch");
      }
      var i := InsertionPoint(suggestions, s);
      if i < |suggestions| && CompareSuggestions(suggestions[i], s) == 0 {
        return Success(false);
      }
      AboveInsertionPoint(suggestions, i, s);
      InsertAt(i, s);
      return Success(true);
    }

    /** The TreeSet's insertion of s at its place in the order. */
    method InsertAt(i: nat, s: Suggestion)
      requires Valid() && s.misspelling == this && Scored(s) && i <= |suggestions|
      requires forall k :: 0 <= k < i ==> CompareSuggestions(suggestions[k], s) < 0
      requires forall k :: i <= k < |suggestions| ==> CompareSuggestions(s, suggestions[k]) < 0
      modifies this
      ensures Valid() && suggestions == old(suggestions)[..i] + [s] + old(suggestions)[i..]
    {
      InsertAscending(suggestions, i, s);
      InsertBelongs(suggestions, i, s, this);
      suggestions := suggestions[..i] + [s] + suggestions[i..];
    }

    /**
     * getBestSuggestion: null when there are no suggestions, otherwise the
     * first in the set's order, which has the lowest Levenshtein score.
     */
    function BestSuggestion(): (r: Suggestion?)
      reads this, suggestions, ScoresOf(suggestions)
      ensures r == null <==> suggestions == []
      ensures r != null && Valid() ==> r in suggestions && forall k :: 0 <= k < |suggestions| ==> Lev(r) <= Lev(suggestions[k])
    {
      if suggestions == [] then null else suggestions[0]
    }

    /** equals: the misspelled texts are the same String object. */
    function Equals(other: Misspelling): (r: bool)
      ensures r <==> word == other.word
    {
      this == other || word == other.word
    }

    /** hashCode: the hash of the misspelled text's characters. */
    function HashCode(): int
    {
      StringHash(word.value)
    }
  }

  /**
   * Equal misspellings hash alike; the converse direction fails, since two
   * String objects with the same characters hash alike but are not equal.
   */
  lemma MisspellingHashConsistent(a: Misspelling, b: Misspelling)
    requires a.Equals(b)
    ensures a.HashCode() == b.HashCode()
  {
  }
}
