# db-spellcheck OCR correction core, modelled in Dafny

db-spellcheck reads the tokens of OCR'd documents and finds the tokens that
are not dictionary words. For each such misspelling it proposes corrections.
It finds every place in the word where a known OCR confusion occurs (a rule
such as `rn -> m`). It applies every non-overlapping combination of those
rewrites. It keeps the rewritten words the dictionary knows, ranked by edit
distance to the misspelling.

This project models that core:

- `OCRChecks.OCRCheck` is the per-document driver (`processDocument`):
  - it reads tokens through a push-back iterator and joins a token that
    ends in a hyphen with the next one;
  - it cleans and normalises each token and skips tokens it has already
    seen (the static cache);
  - it splits long or composed words back into the token stream;
  - it records each misspelling with its ranked suggestions in the
    document's counts.
- `OCRChecks.ComputePossibleTransformations` builds the sorted set of
  rewrites, using the set's comparator exactly as written.
- `Candidates` is the candidate generator: an iterator over the applicable
  subsets of those rewrites. It splices them into the word, skips texts it
  already produced, and filters with the suggestion predicate.
- `PowerSet` and `SetUtils` are the lazy and the eager bit-mask power sets.
  Their masks are modelled with Java's `long` and `int` shift semantics.
- `PushBack` is the iterator with a queue of pushed-back elements. It
  includes the one-element buffering it inherits from Guava's
  `AbstractIterator`.
- `Results` holds `Score`, `Suggestion` and `Misspelling`:
  - suggestions are kept as a list ordered by the comparator;
  - `Misspelling.equals` compares the word `String` by reference, which is
    modelled through a `JString` object.
- `Documents` is the document with its misspelling counts.
- `Levenshtein.Distance` is the two-row edit-distance algorithm, proved
  equal to the recursive definition `EditDistance`.
- `JavaStrings` holds the `String` operations the core relies on: `trim`,
  `indexOf`, `compareTo`, `toLowerCase` and `split("\\W+")`.

Effects are parameters:

- the dictionary is a predicate `isCorrect`;
- the n-gram scorers are functions `bigramScore` and `trigramScore`;
- the OCR rule table is a `map<string, set<string>>`;
- the document's token source is the sequence of tokens it will yield.

`ProcessDocument` is proved to terminate. The measure is the total length
of the pending tokens, then their number. A split token pushes back parts
that are strictly shorter in total than the token they replace.

Two behaviours are modelled as written:

- The rule comparator compares boxed `Integer` indices with `!=`. Java
  caches boxes only for -128..127, so two rules at the same index of 128 or
  more but with different texts compare unequal there. The comparator then
  returns 0 and the set keeps only one of them
  (`OCRChecks.RulesCollapseAboveCache`). Such indices only arise in words
  longer than 128 characters. Those words are never checked for
  suggestions: they are split into parts or dropped, so no suggestion is
  affected.
- A last token ending in `-` finds no next token. The check for one marks
  the iterator as exhausted. Parts pushed back after that point (the split
  of that same token) are never read. `PushBack.PushBackIterator.PushBack`
  states that pushing after end of data leaves nothing pending.

Each misspelled word has one fate (`OCRChecks.FateOf`): it is kept and
recorded, split into parts that are pushed back, or dropped. The fate
depends on the word's length, on whether the generator has a candidate, on
its `\W+` parts and on the proper-name pattern. The candidates are stated
against the sorted set of possible rewrites. That set is unique for words
of at most 128 characters (`OCRChecks.PossibleSetUnique`). A word over 18
characters has the same fate with or without candidates
(`OCRChecks.FateFacts`). So the fate the driver promises is determined by
the word alone.

A misspelling's suggestions are a `TreeSet` whose comparator ties two
suggestions of equal edit distance. So it keeps, of the candidates in the
order the generator yields them, the first one of each distance
(`OCRChecks.FirstByDistance`, `OCRChecks.FirstByDistanceMembers`,
`OCRChecks.FirstByDistanceDistances`, `OCRChecks.FirstByDistanceDistinct`).

The whole document is stated as a run (`OCRChecks.Run`): a sequence of
streams and caches, each turn reading the first pending token and deciding
it (`OCRChecks.Turn`). `ProcessDocument` ends with such a run from the
stream it started with to a stream with nothing pending. It adds one
misspelling per word the run records, and no two of them hold the same
word. Each holds the suggestions recorded in its word's turn.

## Model

| member | source | states |
|---|---|---|
| JavaStrings.CompareStringsProperties | src/main/java/edu/illinois/i3/emop/apps/dbspellcheck/Misspelling.java:91 | String.compareTo is 0 exactly on equal strings and flips sign when its arguments are swapped |
| JavaStrings.CompareStringsTransitive | src/main/java/edu/illinois/i3/emop/apps/dbspellcheck/Misspelling.java:91 | String.compareTo is transitive on "less than" |
| JavaStrings.CommonPrefix | src/main/java/edu/illinois/i3/emop/apps/dbspellcheck/Misspelling.java:91 | the length of the longest common prefix: both strings agree up to it and differ at it or one of them ends there |
| JavaStrings.CompareStrings | src/main/java/edu/illinois/i3/emop/apps/dbspellcheck/Misspelling.java:91 | String.compareTo: the difference of the characters at the first index where the strings differ, else the difference of the lengths |
| JavaStrings.IndexOf | src/main/java/edu/illinois/i3/emop/apps/dbspellcheck/OCRCheck.java:196 | indexOf(sub, from) is -1 or an occurrence of sub, at or after from and with no occurrence between from and it (the first one); -1 means none from `from` on |
| JavaStrings.Trim | src/main/java/edu/illinois/i3/emop/apps/dbspellcheck/OCRCheck.java:55 | trim returns no longer a string, empty or starting and ending above ' ' |
| JavaStrings.TrimSlice | src/main/java/edu/illinois/i3/emop/apps/dbspellcheck/OCRCheck.java:55 | trim returns one slice of the string, and every character before and after that slice is at or below ' ' |
| JavaStrings.TrimKeepsCharacters | src/main/java/edu/illinois/i3/emop/apps/dbspellcheck/OCRCheck.java:55 | every character of the trimmed string comes from the input |
| JavaStrings.TrimNoop | src/main/java/edu/illinois/i3/emop/apps/dbspellcheck/OCRCheck.java:59-60 | trimming a string with no character at or below ' ' returns it unchanged |
| JavaStrings.ToLower | src/main/java/edu/illinois/i3/emop/apps/dbspellcheck/OCRCheck.java:40 | toLowerCase keeps the length and lowers every character position by position |
| JavaStrings.DropTrailingEmpty | src/main/java/edu/illinois/i3/emop/apps/dbspellcheck/OCRCheck.java:105 | split drops trailing empty strings: the result is a prefix of the fields, ends in a non-empty one, and every field it drops is empty |
| JavaStrings.SplitNonWord | src/main/java/edu/illinois/i3/emop/apps/dbspellcheck/OCRCheck.java:105 | every part split on \W+ is made of word characters only |
| JavaStrings.FieldsRebuild | src/main/java/edu/illinois/i3/emop/apps/dbspellcheck/OCRCheck.java:105 | the pieces between maximal \W runs, interleaved with those runs, give back the string |
| JavaStrings.SplitNonWordRebuild | src/main/java/edu/illinois/i3/emop/apps/dbspellcheck/OCRCheck.java:105 | split("\\W+") cuts the string at its maximal \W runs: the parts interleaved with the runs give back the string, the last part is non-empty, and there is no part exactly when the string is a non-empty run of \W |
| JavaStrings.IsProperName | src/main/java/edu/illinois/i3/emop/apps/dbspellcheck/OCRCheck.java:120 | a match of \p{Lu}\p{Ll}{3,} has at least four characters, an upper-case letter first and only there, and split on \W+ gives the word itself |
| JavaStrings.SplitMany | src/main/java/edu/illinois/i3/emop/apps/dbspellcheck/OCRCheck.java:115-116 | for a cleaned token (alphanumeric at both ends) split on \W+ gives more than one part exactly when the token holds a non-word character |
| JavaStrings.FieldsLastNonEmpty | src/main/java/edu/illinois/i3/emop/apps/dbspellcheck/OCRCheck.java:105 | the fields of a string ending in a word character end in a non-empty field, so split keeps all of them |
| Levenshtein.Distance | src/main/java/edu/illinois/i3/emop/apps/dbspellcheck/Levenshtein.java:12-48 | the two-row algorithm, degenerate cases included, returns the edit distance of the recursive definition |
| Levenshtein.InitRow | src/main/java/edu/illinois/i3/emop/apps/dbspellcheck/Levenshtein.java:25-26 | the first row holds the distance from the empty prefix of source to every prefix of target |
| Levenshtein.FillRow | src/main/java/edu/illinois/i3/emop/apps/dbspellcheck/Levenshtein.java:33-40 | from the row for source[..i] the next row holds the distance from source[..i+1] to every prefix of target |
| Levenshtein.CopyRow | src/main/java/edu/illinois/i3/emop/apps/dbspellcheck/Levenshtein.java:43-44 | after the copy loop v0 holds exactly v1's contents |
| Levenshtein.EditDistanceSelf | src/main/java/edu/illinois/i3/emop/apps/dbspellcheck/Levenshtein.java:14 | the distance from a string to itself is 0, as the reference-equality shortcut returns |
| Levenshtein.PrefixDistanceZero | src/main/java/edu/illinois/i3/emop/apps/dbspellcheck/Levenshtein.java:36-40 | a prefix distance is 0 exactly when the two prefixes are equal |
| Levenshtein.EditDistanceZero | src/main/java/edu/illinois/i3/emop/apps/dbspellcheck/Levenshtein.java:12-48 | the distance is 0 if and only if the strings are equal |
| Levenshtein.PrefixDistanceSymmetric | src/main/java/edu/illinois/i3/emop/apps/dbspellcheck/Levenshtein.java:36-40 | the recurrence gives the same value with source and target swapped, prefix by prefix |
| Levenshtein.EditDistanceSymmetric | src/main/java/edu/illinois/i3/emop/apps/dbspellcheck/Levenshtein.java:12-48 | distance(s, t) == distance(t, s) |
| Levenshtein.PrefixDistanceBounds | src/main/java/edu/illinois/i3/emop/apps/dbspellcheck/Levenshtein.java:36-40 | every prefix distance lies between the difference of the prefix lengths and the longer prefix length |
| Levenshtein.EditDistanceBounds | src/main/java/edu/illinois/i3/emop/apps/dbspellcheck/Levenshtein.java:12-48 | the distance is at least the difference of the lengths and at most the longer length |
| Levenshtein.EditDistanceEmpty | src/main/java/edu/illinois/i3/emop/apps/dbspellcheck/Levenshtein.java:15-16 | the distance to or from the empty string is the other string's length |
| PowerSet.SelectByLongMask | src/main/java/edu/illinois/i3/emop/apps/dbspellcheck/PowerSetGenerator.java:54-56 | the inner loop collects input[j] for each j whose bit is set in the long index, the shift distance taken mod 64 |
| PowerSet.LongPickIsPick | src/main/java/edu/illinois/i3/emop/apps/dbspellcheck/PowerSetGenerator.java:55 | up to 64 elements the long shift selects exactly the elements of the set bits |
| PowerSet.LongShiftExact | src/main/java/edu/illinois/i3/emop/apps/dbspellcheck/PowerSetGenerator.java:41 | up to 62 elements 1L << n is 2^n and every mask selects its plain bit subset |
| PowerSet.LongPickInInput | src/main/java/edu/illinois/i3/emop/apps/dbspellcheck/PowerSetGenerator.java:54-56 | every element of a long-mask selection comes from the input |
| PowerSet.PickIsSelection | src/main/java/edu/illinois/i3/emop/apps/dbspellcheck/PowerSetGenerator.java:54-56 | a selection is the input read at the set positions, in strictly increasing position order |
| PowerSet.PositionsMembers | src/main/java/edu/illinois/i3/emop/apps/dbspellcheck/PowerSetGenerator.java:54-55 | position j is selected exactly when j < n and bit j of the mask is set |
| PowerSet.PickMember | src/main/java/edu/illinois/i3/emop/apps/dbspellcheck/PowerSetGenerator.java:54-56 | a set bit puts its element in the selection, and for distinct elements only a set bit does |
| PowerSet.PickInInput | src/main/java/edu/illinois/i3/emop/apps/dbspellcheck/PowerSetGenerator.java:54-56 | every element of a selection comes from the input |
| PowerSet.SubsetOfZero | src/main/java/edu/illinois/i3/emop/utils/SetUtils.java:30-34 | mask 0 selects the empty list |
| PowerSet.SubsetOfAllOnes | src/main/java/edu/illinois/i3/emop/utils/SetUtils.java:30-34 | mask 2^n - 1 selects the whole input |
| PowerSet.SubsetInjective | src/main/java/edu/illinois/i3/emop/utils/SetUtils.java:30-37 | over distinct elements two different masks below 2^n select different lists |
| PowerSet.EnumerateSound | src/main/java/edu/illinois/i3/emop/apps/dbspellcheck/PowerSetGenerator.java:44-62 | the lists the iterator returns from masks lo..hi are at most hi - lo, each accepted by the predicate and selected by a mask in that range |
| PowerSet.EnumerateFromInput | src/main/java/edu/illinois/i3/emop/apps/dbspellcheck/PowerSetGenerator.java:44-62 | every list returned is accepted and made of input elements |
| PowerSet.EnumerateAllCount | src/main/java/edu/illinois/i3/emop/apps/dbspellcheck/PowerSetGenerator.java:16-22 | with the accept-all predicate mask lo + i yields the i-th list, one per mask |
| PowerSet.FullPowerSet | src/main/java/edu/illinois/i3/emop/apps/dbspellcheck/PowerSetGenerator.java:16-22 | up to 62 elements the accept-all generator returns 2^n lists, the m-th being the subset of mask m |
| PowerSet.PowerSetGenerator.constructor | src/main/java/edu/illinois/i3/emop/apps/dbspellcheck/PowerSetGenerator.java:24-27 | keeps the input list and the predicate |
| PowerSet.PowerSetGenerator.All | src/main/java/edu/illinois/i3/emop/apps/dbspellcheck/PowerSetGenerator.java:16-22 | the one-argument constructor's predicate accepts every list |
| PowerSet.PowerSetGenerator.Iterator | src/main/java/edu/illinois/i3/emop/apps/dbspellcheck/PowerSetGenerator.java:29-31 | a fresh iterator at mask 0 whose remaining output is the accepted selections of masks 0 .. (1L << n) - 1 |
| PowerSet.PowerSetIterator.constructor | src/main/java/edu/illinois/i3/emop/apps/dbspellcheck/PowerSetGenerator.java:39-42 | starts at index 0 with the size 1L << n |
| PowerSet.PowerSetIterator.ComputeNext | src/main/java/edu/illinois/i3/emop/apps/dbspellcheck/PowerSetGenerator.java:44-62 | returns the first accepted selection from the current index on and moves past it, skipping only rejected masks; end of data exactly when none is left |
| SetUtils.SelectByIntMask | src/main/java/edu/illinois/i3/emop/utils/SetUtils.java:31-34 | the inner loop collects list.get(j) for each j whose bit is set in the int mask, the shift distance taken mod 32 |
| SetUtils.IntShiftExact | src/main/java/edu/illinois/i3/emop/utils/SetUtils.java:26 | up to 30 elements 1 << n is 2^n and every mask selects its plain bit subset |
| SetUtils.PowerSetOf | src/main/java/edu/illinois/i3/emop/utils/SetUtils.java:23-40 | the set of selections of every mask below 1 << n, all made of input elements; up to 30 elements these are all 2^n subsets, including [] and the input, and 2^n lists for distinct elements; the result is a failure (IllegalArgumentException from the hash set's negative expected size, lines 26-28) exactly when n mod 32 is 31 |
| Transformations.Equals | src/main/java/edu/illinois/i3/emop/apps/dbspellcheck/Transformation.java:28-38 | equal exactly when original, replacement and index are equal |
| Transformations.EqualsReflexiveSymmetric | src/main/java/edu/illinois/i3/emop/apps/dbspellcheck/Transformation.java:28-38 | equals is reflexive and symmetric |
| Transformations.HashCodeConsistent | src/main/java/edu/illinois/i3/emop/apps/dbspellcheck/Transformation.java:40-43 | equal transformations have equal hash codes |
| Results.Score.constructor | src/main/java/edu/illinois/i3/emop/apps/dbspellcheck/Score.java:9-11 | a new score has all three fields null |
| Results.Score.SetBigramScore | src/main/java/edu/illinois/i3/emop/apps/dbspellcheck/Score.java:17-19 | sets the bigram score and nothing else |
| Results.Score.SetTrigramScore | src/main/java/edu/illinois/i3/emop/apps/dbspellcheck/Score.java:25-27 | sets the trigram score and nothing else |
| Results.Score.SetLevenshteinScore | src/main/java/edu/illinois/i3/emop/apps/dbspellcheck/Score.java:33-35 | sets the edit-distance score and nothing else |
| Results.Score.AggregateScore | src/main/java/edu/illinois/i3/emop/apps/dbspellcheck/Score.java:37-39 | the aggregate is the edit-distance score as a whole-valued double; the n-gram scores do not enter it |
| Results.Score.CompareTo | src/main/java/edu/illinois/i3/emop/apps/dbspellcheck/Score.java:74-77 | compares the edit-distance scores: -1, 0 or 1 as this one is smaller, equal or larger |
| Results.Score.Equals | src/main/java/edu/illinois/i3/emop/apps/dbspellcheck/Score.java:50-64 | equal exactly when all three fields are equal, null included |
| Results.ScoreHashConsistent | src/main/java/edu/illinois/i3/emop/apps/dbspellcheck/Score.java:66-72 | equal scores have equal hash codes |
| Results.CompareToIgnoresNGrams | src/main/java/edu/illinois/i3/emop/apps/dbspellcheck/Score.java:74-77 | scores with the same edit distance compare 0 whatever their n-gram scores, though they are equal only when those match too |
| Results.Suggestion.constructor | src/main/java/edu/illinois/i3/emop/apps/dbspellcheck/Suggestion.java:12-16 | keeps misspelling, text and rules, with no score yet |
| Results.Suggestion.SetScore | src/main/java/edu/illinois/i3/emop/apps/dbspellcheck/Suggestion.java:30-32 | sets the score |
| Results.CompareSuggestions | src/main/java/edu/illinois/i3/emop/apps/dbspellcheck/Misspelling.java:84-93 | different score objects order by edit distance; the same score object orders by text, 0 exactly on equal texts |
| Results.CompareSuggestionsAntisymmetric | src/main/java/edu/illinois/i3/emop/apps/dbspellcheck/Misspelling.java:84-93 | swapping the arguments flips the comparator's sign |
| Results.CompareSuggestionsTransitive | src/main/java/edu/illinois/i3/emop/apps/dbspellcheck/Misspelling.java:84-93 | the comparator's "less than" is transitive |
| Results.InsertBelongs | src/main/java/edu/illinois/i3/emop/apps/dbspellcheck/Misspelling.java:36-42 | inserting a suggestion of the misspelling keeps every stored suggestion belonging to it |
| Results.TiesAreDuplicates | src/main/java/edu/illinois/i3/emop/apps/dbspellcheck/Misspelling.java:42 | against separately scored suggestions the set sees a duplicate exactly when some stored suggestion has the same edit distance |
| Results.DistinctScoresIncreasing | src/main/java/edu/illinois/i3/emop/apps/dbspellcheck/Misspelling.java:84-93 | an ascending list of separately scored suggestions has strictly increasing edit distances |
| Results.InsertionPoint | src/main/java/edu/illinois/i3/emop/apps/dbspellcheck/Misspelling.java:42 | the position where the set places a suggestion: everything before compares below it, the next one does not |
| Results.AboveInsertionPoint | src/main/java/edu/illinois/i3/emop/apps/dbspellcheck/Misspelling.java:42 | when no tie sits at the insertion point, everything from there on compares above the new suggestion |
| Results.InsertAscending | src/main/java/edu/illinois/i3/emop/apps/dbspellcheck/Misspelling.java:42 | inserting between smaller and larger suggestions keeps the list strictly ascending |
| Results.Misspelling.constructor | src/main/java/edu/illinois/i3/emop/apps/dbspellcheck/Misspelling.java:16-22 | keeps word and n-gram scores, with an empty ordered suggestion set |
| Results.Misspelling.AddSuggestion | src/main/java/edu/illinois/i3/emop/apps/dbspellcheck/Misspelling.java:36-43 | a suggestion of another misspelling fails (IllegalArgumentException) and changes nothing; otherwise true exactly when no stored suggestion ties with it, inserting it in order, and false leaving the set unchanged |
| Results.Misspelling.InsertAt | src/main/java/edu/illinois/i3/emop/apps/dbspellcheck/Misspelling.java:42 | the tree-set insertion: the suggestion placed at its ordered position, the set kept ascending |
| Results.Misspelling.BestSuggestion | src/main/java/edu/illinois/i3/emop/apps/dbspellcheck/Misspelling.java:49-51 | null exactly when there is no suggestion, otherwise a stored suggestion with the smallest edit distance |
| Results.Misspelling.Equals | src/main/java/edu/illinois/i3/emop/apps/dbspellcheck/Misspelling.java:53-61 | equal exactly when both hold the same word String object |
| Results.MisspellingHashConsistent | src/main/java/edu/illinois/i3/emop/apps/dbspellcheck/Misspelling.java:63-66 | equal misspellings have equal hash codes |
| Documents.OCRDocument.constructor | src/main/java/edu/illinois/i3/emop/apps/dbspellcheck/OCRDocument.java:14-18 | a new document has no misspellings |
| Documents.OCRDocument.AddMisspelling | src/main/java/edu/illinois/i3/emop/apps/dbspellcheck/OCRDocument.java:36-44 | a misspelling equal to none stored is added with count 1; one equal to a stored key increments that key's count; the returned count is the new count and no two keys are equal |
| Documents.OCRDocument.Misspellings | src/main/java/edu/illinois/i3/emop/apps/dbspellcheck/OCRDocument.java:28-30 | the stored misspellings, one per count entry, no two of them holding the same word String object |
| PushBack.PushBackIterator.constructor | src/main/java/edu/illinois/i3/emop/apps/dbspellcheck/PushBackIterator.java:15-17 | an empty queue over the wrapped iterator; the pending elements are the wrapped ones |
| PushBack.PushBackIterator.PushBack | src/main/java/edu/illinois/i3/emop/apps/dbspellcheck/PushBackIterator.java:25-27 | appends to the queue and returns true; the pending elements gain it after any element already fetched, and none once end of data was reported |
| PushBack.PushBackIterator.PushBackAll | src/main/java/edu/illinois/i3/emop/apps/dbspellcheck/PushBackIterator.java:36-38 | appends the elements in order; true exactly when there was one |
| PushBack.PushBackIterator.PushBackArray | src/main/java/edu/illinois/i3/emop/apps/dbspellcheck/PushBackIterator.java:49-51 | appends the array's elements in array order; true exactly when it is non-empty |
| PushBack.PushBackIterator.ComputeNext | src/main/java/edu/illinois/i3/emop/apps/dbspellcheck/PushBackIterator.java:53-59 | the queue's head while the queue is non-empty, else the wrapped iterator's next element, else end of data |
| PushBack.PushBackIterator.HasNext | src/main/java/edu/illinois/i3/emop/apps/dbspellcheck/PushBackIterator.java:10 | the inherited hasNext: true exactly when an element is pending, without changing what is pending; true buffers the first pending element so that taking it leaves the same stream as before, false ends the stream |
| PushBack.PushBackIterator.Next | src/main/java/edu/illinois/i3/emop/apps/dbspellcheck/PushBackIterator.java:10 | the inherited next: the first pending element, which it removes from the stream, or none (NoSuchElementException) |
| PushBack.PushBackIterator.View | src/main/java/edu/illinois/i3/emop/apps/dbspellcheck/PushBackIterator.java:12-13 | the iterator seen as a stream (the buffered element and the queue in front, the wrapped elements behind) has exactly its pending elements |
| PushBack.Stream.Pop | src/main/java/edu/illinois/i3/emop/apps/dbspellcheck/PushBackIterator.java:53-59 | taking the next element of a stream leaves exactly the rest of its pending elements |
| Candidates.IsApplicable | src/main/java/edu/illinois/i3/emop/apps/dbspellcheck/OCRCandidateSuggestionsGenerator.java:54-68 | the loop's answer is the applicability predicate |
| Candidates.NonOverlappingFromIff | src/main/java/edu/illinois/i3/emop/apps/dbspellcheck/OCRCandidateSuggestionsGenerator.java:57-65 | the scan accepts exactly when the first rule starts at or after the bound and each rule starts at or after the end of the previous one |
| Candidates.ApplicableIff | src/main/java/edu/illinois/i3/emop/apps/dbspellcheck/OCRCandidateSuggestionsGenerator.java:54-68 | a rule list is applicable exactly when it is non-empty, its first rule starts at index -1 or later, and each span ends at or before the next one starts; then no two spans overlap at all |
| Candidates.ApplicableFromZero | src/main/java/edu/illinois/i3/emop/apps/dbspellcheck/OCRCandidateSuggestionsGenerator.java:57-65 | an applicable list of rules inside the word does not overlap from position 0 on |
| Candidates.RewriteLength | src/main/java/edu/illinois/i3/emop/apps/dbspellcheck/OCRCandidateSuggestionsGenerator.java:108-117 | the rewritten text grows by the sum of replacement minus original lengths |
| Candidates.RewriteIdentity | src/main/java/edu/illinois/i3/emop/apps/dbspellcheck/OCRCandidateSuggestionsGenerator.java:110-117 | rules that replace an occurrence with itself leave the word unchanged |
| Candidates.RewriteSingle | src/main/java/edu/illinois/i3/emop/apps/dbspellcheck/OCRCandidateSuggestionsGenerator.java:115 | a single rule inside the word is applicable and splices its replacement over its span |
| Candidates.RewriteStep | src/main/java/edu/illinois/i3/emop/apps/dbspellcheck/OCRCandidateSuggestionsGenerator.java:110-117 | the first rule's span lies after the position and inside the word, and the text is the gap, its replacement, then the rest rewritten |
| Candidates.ApplyRules | src/main/java/edu/illinois/i3/emop/apps/dbspellcheck/OCRCandidateSuggestionsGenerator.java:107-117 | the splicing loop with its running adjustment returns the word with every rule's span replaced, its length changed by the rules' growth |
| Candidates.AcceptedBounds | src/main/java/edu/illinois/i3/emop/apps/dbspellcheck/OCRCheck.java:241-249 | an accepted suggestion is non-empty, shorter than twice the misspelling and a dictionary word once lowered |
| Candidates.SuggestionFilter.constructor | src/main/java/edu/illinois/i3/emop/apps/dbspellcheck/OCRCheck.java:237-239 | keeps the predicate, with a zero count |
| Candidates.SuggestionFilter.Apply | src/main/java/edu/illinois/i3/emop/apps/dbspellcheck/OCRCheck.java:241-249 | accepts exactly when the distance between the lowered texts is below the misspelling's length and the dictionary knows the lowered suggestion; the dictionary predicate counts each call, the accept-all one keeps no count |
| Candidates.SuggestionFilter.ResetCount | src/main/java/edu/illinois/i3/emop/apps/dbspellcheck/OCRCheck.java:251-253 | the count is 0 |
| Candidates.Scan | src/main/java/edu/illinois/i3/emop/apps/dbspellcheck/OCRCandidateSuggestionsGenerator.java:98-123 | the search for the next suggestion: it returns the first list whose text is new and accepted, with that text, and end of data only after every list |
| Candidates.ScanCaches | src/main/java/edu/illinois/i3/emop/apps/dbspellcheck/OCRCandidateSuggestionsGenerator.java:118-120 | the cache afterwards is the old one plus the text of every list consumed |
| Candidates.ScanChecksNewTexts | src/main/java/edu/illinois/i3/emop/apps/dbspellcheck/OCRCandidateSuggestionsGenerator.java:118-123 | the predicate is called once for each text newly cached |
| Candidates.CandidatesDistinct | src/main/java/edu/illinois/i3/emop/apps/dbspellcheck/OCRCandidateSuggestionsGenerator.java:118-120 | the suggestions emitted have pairwise different texts, none already cached |
| Candidates.CandidatesSound | src/main/java/edu/illinois/i3/emop/apps/dbspellcheck/OCRCandidateSuggestionsGenerator.java:102-123 | at most one suggestion per rule list; each comes from an applicable list inside the word, is its rewritten text and is accepted |
| Candidates.ScanEnd | src/main/java/edu/illinois/i3/emop/apps/dbspellcheck/OCRCandidateSuggestionsGenerator.java:103-104 | with no list left there is no suggestion and no predicate call |
| Candidates.ScanStep | src/main/java/edu/illinois/i3/emop/apps/dbspellcheck/OCRCandidateSuggestionsGenerator.java:98-123 | one list: a cached text is skipped silently, a new accepted text is emitted, a new rejected text costs one predicate call |
| Candidates.EnumerateUsable | src/main/java/edu/illinois/i3/emop/apps/dbspellcheck/OCRCandidateSuggestionsGenerator.java:87-89 | every list the power set iterator returns is applicable and inside the word |
| Candidates.CandidatesComplete | src/main/java/edu/illinois/i3/emop/apps/dbspellcheck/OCRCandidateSuggestionsGenerator.java:98-123 | nothing accepted is lost: each list whose text is not cached and is accepted gives a suggestion with that text |
| Candidates.CandidatesExist | src/main/java/edu/illinois/i3/emop/apps/dbspellcheck/OCRCandidateSuggestionsGenerator.java:98-123 | the iterator yields some suggestion exactly when some list makes a text that is not cached and is accepted |
| Candidates.CandidatesForExist | src/main/java/edu/illinois/i3/emop/apps/dbspellcheck/OCRCheck.java:113 | hasNext() on a fresh iterator is true exactly when some applicable subset of the rules, inside the word, makes an accepted text |
| Candidates.CandidateGenerator.constructor | src/main/java/edu/illinois/i3/emop/apps/dbspellcheck/OCRCandidateSuggestionsGenerator.java:36-40 | keeps misspelling, rules and predicate |
| Candidates.CandidateGenerator.AcceptingAll | src/main/java/edu/illinois/i3/emop/apps/dbspellcheck/OCRCandidateSuggestionsGenerator.java:28-34 | the two-argument constructor: a fresh predicate that accepts every suggestion |
| Candidates.CandidateGenerator.Iterator | src/main/java/edu/illinois/i3/emop/apps/dbspellcheck/OCRCandidateSuggestionsGenerator.java:42-44 | a fresh iterator with an empty cache whose output is every candidate of the generator |
| Candidates.CandidateIterator.constructor | src/main/java/edu/illinois/i3/emop/apps/dbspellcheck/OCRCandidateSuggestionsGenerator.java:84-92 | a power set iterator over the rules filtered by applicability, at mask 0, and an empty cache |
| Candidates.CandidateIterator.RemainingUsable | src/main/java/edu/illinois/i3/emop/apps/dbspellcheck/OCRCandidateSuggestionsGenerator.java:87-89 | every rule list still to come is applicable and inside the word |
| Candidates.CandidateIterator.ComputeNext | src/main/java/edu/illinois/i3/emop/apps/dbspellcheck/OCRCandidateSuggestionsGenerator.java:94-126 | returns a fresh unscored suggestion, the first of the candidates still to come, accepted by the predicate, or end of data when none is left; the predicate's count grows by the calls made |
| OCRChecks.NormalizeToken | src/main/java/edu/illinois/i3/emop/apps/dbspellcheck/OCRCheck.java:39-41 | same length, no upper-case letter left, and a lower-case letter exactly where the token had a letter |
| OCRChecks.NormalizeIdempotent | src/main/java/edu/illinois/i3/emop/apps/dbspellcheck/OCRCheck.java:39-41 | normalising twice is normalising once |
| OCRChecks.LeadingJunk | src/main/java/edu/illinois/i3/emop/apps/dbspellcheck/OCRCheck.java:230 | the length of the leading run of non-alphanumeric characters |
| OCRChecks.TrailingJunk | src/main/java/edu/illinois/i3/emop/apps/dbspellcheck/OCRCheck.java:230 | the length of the trailing run of non-alphanumeric characters |
| OCRChecks.CleanToken | src/main/java/edu/illinois/i3/emop/apps/dbspellcheck/OCRCheck.java:226-231 | empty for a token of digits, periods and commas only; otherwise the token with non-alphanumeric runs cut from both ends, empty or alphanumeric at both ends |
| OCRChecks.CleanTokenKeeps | src/main/java/edu/illinois/i3/emop/apps/dbspellcheck/OCRCheck.java:226-231 | a token alphanumeric at both ends and not numeric junk is returned unchanged |
| OCRChecks.CleanTokenEmpty | src/main/java/edu/illinois/i3/emop/apps/dbspellcheck/OCRCheck.java:226-231 | the clean token is empty exactly when the token holds only digits, '.' and ',' or no alphanumeric character at all |
| OCRChecks.FieldsLength | src/main/java/edu/illinois/i3/emop/apps/dbspellcheck/OCRCheck.java:105 | the fields of a split and the separators between them fit in the string |
| OCRChecks.SplitShorter | src/main/java/edu/illinois/i3/emop/apps/dbspellcheck/OCRCheck.java:115-117 | parts pushed back after a split hold fewer characters than the token |
| OCRChecks.CompareRules | src/main/java/edu/illinois/i3/emop/apps/dbspellcheck/OCRCheck.java:169-188 | the comparator orders by index; it is 0 exactly for equal indices that are cached boxes of equal rules, or uncached boxes |
| OCRChecks.CompareRulesAntisymmetric | src/main/java/edu/illinois/i3/emop/apps/dbspellcheck/OCRCheck.java:169-188 | swapping the arguments flips the comparator's sign |
| OCRChecks.CompareRulesTransitive | src/main/java/edu/illinois/i3/emop/apps/dbspellcheck/OCRCheck.java:169-188 | the comparator's "less than" is transitive |
| OCRChecks.RulesCollapseAboveCache | src/main/java/edu/illinois/i3/emop/apps/dbspellcheck/OCRCheck.java:171-175 | two different rules at index 128 compare 0, while at index 127 they do not |
| OCRChecks.InsertRule | src/main/java/edu/illinois/i3/emop/apps/dbspellcheck/OCRCheck.java:198 | TreeSet.add: the elements are the old ones plus the new one unless one comparing 0 is present |
| OCRChecks.InsertRuleSorted | src/main/java/edu/illinois/i3/emop/apps/dbspellcheck/OCRCheck.java:198 | the set stays strictly ascending under the comparator |
| OCRChecks.InsertRuleCovers | src/main/java/edu/illinois/i3/emop/apps/dbspellcheck/OCRCheck.java:198 | whatever the set covered it still covers, and it now covers the added rule |
| OCRChecks.ComputePossibleTransformations | src/main/java/edu/illinois/i3/emop/apps/dbspellcheck/OCRCheck.java:168-202 | a sorted set holding only possible rewrites (a rule key occurring at the index, with one of its replacements) and covering every possible one |
| OCRChecks.PossibleExact | src/main/java/edu/illinois/i3/emop/apps/dbspellcheck/OCRCheck.java:168-202 | for words of at most 128 characters the set holds exactly the possible rewrites |
| OCRChecks.PossibleFits | src/main/java/edu/illinois/i3/emop/apps/dbspellcheck/OCRCheck.java:196-198 | the rewrites lie inside the word, in non-decreasing index order |
| OCRChecks.SortedSameElements | src/main/java/edu/illinois/i3/emop/apps/dbspellcheck/OCRCheck.java:168-202 | two strictly ascending rule lists with the same elements are the same list |
| OCRChecks.PossibleSetUnique | src/main/java/edu/illinois/i3/emop/apps/dbspellcheck/OCRCheck.java:168-202 | for words of at most 128 characters only one sorted set holds exactly the possible rewrites |
| OCRChecks.FateFacts | src/main/java/edu/illinois/i3/emop/apps/dbspellcheck/OCRCheck.java:104-125 | a kept word is at most 18 characters and, without candidates, neither composed nor a proper name; a split pushes back several parts shorter in total than the word; over 18 characters the candidates do not matter |
| OCRChecks.DecidesQueue | src/main/java/edu/illinois/i3/emop/apps/dbspellcheck/OCRCheck.java:104-118 | a turn either leaves the queue alone or, recording nothing, appends the cleaned word's \W+ parts |
| OCRChecks.InsertEvaluated | src/main/java/edu/illinois/i3/emop/apps/dbspellcheck/OCRCheck.java:135-153 | adding an accepted and scored suggestion keeps every stored one accepted and scored |
| OCRChecks.TokenCache.constructor | src/main/java/edu/illinois/i3/emop/apps/dbspellcheck/OCRCheck.java:25 | the static cache starts empty |
| OCRChecks.ReadShrinks | src/main/java/edu/illinois/i3/emop/apps/dbspellcheck/OCRCheck.java:54-61 | reading a token consumes at least one pending token and at least as many characters as it returns |
| OCRChecks.PushShrinks | src/main/java/edu/illinois/i3/emop/apps/dbspellcheck/OCRCheck.java:104-118 | pushing back a token's parts after reading it leaves fewer pending characters |
| OCRChecks.OCRCheck.constructor | src/main/java/edu/illinois/i3/emop/apps/dbspellcheck/OCRCheck.java:33-37 | a push-back iterator over the document's tokens, nothing fetched |
| OCRChecks.OCRCheck.ScoreSuggestion | src/main/java/edu/illinois/i3/emop/apps/dbspellcheck/OCRCheck.java:138-149 | the suggestion gets a fresh score holding its edit distance to the misspelling and its n-gram scores |
| OCRChecks.OCRCheck.NextSuggestion | src/main/java/edu/illinois/i3/emop/apps/dbspellcheck/OCRCheck.java:136 | the for-each step: a fresh accepted suggestion not yet stored, which is the first of the candidates still to come and leaves the rest, or none exactly when no candidate is left |
| OCRChecks.OCRCheck.Offer | src/main/java/edu/illinois/i3/emop/apps/dbspellcheck/OCRCheck.java:138-150 | after scoring and adding, the suggestions are still ranked, accepted and scored and every stored one is kept; a suggestion whose edit distance is already stored is refused and the list is unchanged, otherwise it is inserted at one position and the set of distances gains its distance |
| OCRChecks.OCRCheck.AddScored | src/main/java/edu/illinois/i3/emop/apps/dbspellcheck/Misspelling.java:36-43 | adding a scored suggestion keeps the set ranked and every stored suggestion; it is inserted at one position exactly when no stored suggestion has its edit distance, and otherwise nothing changes |
| OCRChecks.TextDistancesAppend | src/main/java/edu/illinois/i3/emop/apps/dbspellcheck/OCRCheck.java:136 | one more candidate adds exactly its edit distance to the set of candidate distances |
| OCRChecks.DistancesInsert | src/main/java/edu/illinois/i3/emop/apps/dbspellcheck/Misspelling.java:42 | inserting a suggestion keeps every stored one and adds exactly its edit distance |
| OCRChecks.TieDistance | src/main/java/edu/illinois/i3/emop/apps/dbspellcheck/Misspelling.java:42 | a suggestion the set refuses as a tie has an edit distance some stored suggestion already has |
| OCRChecks.NewDistance | src/main/java/edu/illinois/i3/emop/apps/dbspellcheck/Misspelling.java:84-92 | a scored suggestion that ties with no stored one has an edit distance no stored suggestion has |
| OCRChecks.Placed | src/main/java/edu/illinois/i3/emop/apps/dbspellcheck/Misspelling.java:42 | TreeSet.add through the comparator: refused exactly when a stored suggestion has the same edit distance, leaving the list as it was, otherwise inserted at one position; stored suggestions stay, and the set of distances gains the new one |
| OCRChecks.FirstByDistanceMembers | src/main/java/edu/illinois/i3/emop/apps/dbspellcheck/OCRCheck.java:136-150 | a candidate is kept exactly when it is the first of the candidates with its edit distance |
| OCRChecks.FirstByDistanceDistances | src/main/java/edu/illinois/i3/emop/apps/dbspellcheck/OCRCheck.java:136-150 | the kept candidates have exactly the edit distances of all the candidates |
| OCRChecks.FirstByDistanceDistinct | src/main/java/edu/illinois/i3/emop/apps/dbspellcheck/OCRCheck.java:136-150 | no two kept candidates have the same edit distance |
| OCRChecks.KeptDistances | src/main/java/edu/illinois/i3/emop/apps/dbspellcheck/OCRCheck.java:136-150 | suggestions that are, as candidates, the first of each distance among some candidates have exactly those candidates' edit distances |
| OCRChecks.KeepFirst | src/main/java/edu/illinois/i3/emop/apps/dbspellcheck/Misspelling.java:42 | offering one more candidate keeps the stored suggestions, as candidates, the first of each edit distance among the candidates offered so far |
| OCRChecks.OCRCheck.RankSuggestions | src/main/java/edu/illinois/i3/emop/apps/dbspellcheck/OCRCheck.java:135-153 | all suggestions are ranked, accepted and scored; as candidates they are exactly the first candidate of each edit distance in the order the iterator yields them, so their distances are those of all candidates and there is none exactly when there was no candidate |
| OCRChecks.OCRCheck.ReadToken | src/main/java/edu/illinois/i3/emop/apps/dbspellcheck/OCRCheck.java:54-61 | the trimmed next token, joined without its hyphen to the trimmed token after it when there is one, and the rest stays pending in order; none when nothing is pending |
| OCRChecks.ReadStreamPending | src/main/java/edu/illinois/i3/emop/apps/dbspellcheck/OCRCheck.java:54-61 | reading a token from a stream gives the token, and leaves the pending tokens, that reading from its pending list gives |
| OCRChecks.OCRCheck.PushBackParts | src/main/java/edu/illinois/i3/emop/apps/dbspellcheck/OCRCheck.java:107 | the parts are queued in order, nothing else changes |
| OCRChecks.OCRCheck.ProcessToken | src/main/java/edu/illinois/i3/emop/apps/dbspellcheck/OCRCheck.java:63-156 | junk, cached and dictionary tokens record nothing and push nothing; the cleaned token joins the cache; otherwise the word's fate is decided by its length, whether a candidate exists, its \W+ parts and the proper-name pattern; a recorded misspelling is new, counted once for the cleaned token, ranked, and holds as candidates the first of each edit distance among the accepted candidates of the word's rewrites; the snapshot of every stored misspelling's suggestions is unchanged and a recorded misspelling joins it with its own |
| OCRChecks.OCRCheck.CheckMisspelling | src/main/java/edu/illinois/i3/emop/apps/dbspellcheck/OCRCheck.java:92-156 | for a word the dictionary does not know, with its possible rewrites: recorded exactly when its fate is to be kept, its parts pushed back exactly when its fate is a split; a recorded misspelling is new, counted once and ranked, and holds as candidates the first of each edit distance among the accepted candidates of the word's rewrites |
| OCRChecks.OCRCheck.DecideMisspelling | src/main/java/edu/illinois/i3/emop/apps/dbspellcheck/OCRCheck.java:104-126 | over 18 characters the parts are pushed back when there are several and nothing is recorded; otherwise with a candidate the misspelling is recorded; with none a composed word is pushed back as parts, a proper name is dropped and any other word is recorded; a record counts it once, ranks it, and holds as candidates the first of each edit distance among the generator's candidates |
| OCRChecks.OCRCheck.RecordMisspelling | src/main/java/edu/illinois/i3/emop/apps/dbspellcheck/OCRCheck.java:126-153 | the misspelling is counted once and its suggestions are ranked, accepted and scored; as candidates they are exactly the first of each edit distance among the generator's candidates, so there is none exactly when it has no candidate |
| OCRChecks.OCRCheck.Step | src/main/java/edu/illinois/i3/emop/apps/dbspellcheck/OCRCheck.java:54-156 | one turn of the loop: done exactly when nothing is pending; otherwise a turn from the stream and cache before to those after: the token read is the first pending one (joined across a hyphen), every other pending token stays in order, with any parts of the cleaned word its decision pushes back placed after the queued tokens and before the document's own; the cache gains the cleaned word, and a recorded misspelling is new, counted once under that word, and holds the first candidate of each edit distance among the accepted candidates of its rewrites; stored misspellings keep their suggestions; the snapshot of every misspelling's suggestions is unchanged but for a recorded misspelling, which joins it with its own |
| OCRChecks.OCRCheck.Decide | src/main/java/edu/illinois/i3/emop/apps/dbspellcheck/OCRCheck.java:63-156 | the loop body after reading, on the stream as reading left it: the token is decided as in processToken, with any pushed-back parts at the end of the stream's front and the rest of the stream untouched; the cache gains the cleaned word, stored misspellings keep their suggestions (their snapshot is unchanged but for a recorded misspelling, which joins it with its own), and a recorded misspelling is new, counted once and ranked |
| OCRChecks.OCRCheck.ProcessDocument | src/main/java/edu/illinois/i3/emop/apps/dbspellcheck/OCRCheck.java:51-158 | there is a run of turns from the stream and cache before to a stream with nothing pending and the cache after; the misspellings added are one per word the run records, no two with the same word, each holding as candidates what its turn recorded; old misspellings keep their counts and the cache only grows |
| OCRChecks.ChainExtend | src/main/java/edu/illinois/i3/emop/apps/dbspellcheck/OCRCheck.java:54-157 | a chain of loop steps followed by one more step from its last config is a chain |
| OCRChecks.RunExtend | src/main/java/edu/illinois/i3/emop/apps/dbspellcheck/OCRCheck.java:54-157 | a run followed by one more turn from its last stream and cache is a run |
| OCRChecks.RecordingsExtend | src/main/java/edu/illinois/i3/emop/apps/dbspellcheck/OCRCheck.java:127 | a turn that records a misspelling maps its word to what it recorded; a turn recording nothing leaves the recordings alone |
| OCRChecks.NewWordsAdd | src/main/java/edu/illinois/i3/emop/apps/dbspellcheck/OCRCheck.java:127 | adding a misspelling not counted before adds exactly its word to the new words |
| OCRChecks.StoredAdd | src/main/java/edu/illinois/i3/emop/apps/dbspellcheck/OCRCheck.java:127 | adding a misspelling of a word not recorded before, recording its suggestions for that word and in the snapshot, keeps every new misspelling's suggestions in the snapshot equal to what its word's turn recorded |
| OCRChecks.TraceExtend | src/main/java/edu/illinois/i3/emop/apps/dbspellcheck/OCRCheck.java:54-157 | a turn that records nothing, or one new misspelling of a word not cached before, extends the run, records that word for the first time, keeps the recorded words those of the new misspellings, and keeps one new misspelling per word |
| OCRChecks.OnePerWordAdd | src/main/java/edu/illinois/i3/emop/apps/dbspellcheck/OCRCheck.java:72-75 | a misspelling of a word not yet cached, added to misspellings whose words are all cached, keeps one new misspelling per word |

## Left out

- The n-gram scores (`computeNGramScore`, OCRCheck.java:204-224) use floating-point products over count tables. They are modelled as the parameter functions `bigramScore` and `trigramScore`, and the misspelling's own scores as plain arguments. The -1 sentinel for a missing table is not modelled.
- The dictionary (`SpellDictionary`) is the predicate `isCorrect`. `getSuggestions(…, 300)` is only logged, so it is left out.
- Logging, the validity count's use in a log line, `Main`, `DBUtils`, the connection pool and `OCRCheckException` are I/O around the core and are not part of this model.
- The iteration order of the rule map and of each replacement set is not fixed in Java. `ComputePossibleTransformations` visits them in an arbitrary order, and its contract holds for every order.
- Hash codes are stated as consistency with `equals`, on unbounded integers. Their 32-bit wrap-around and the exact `String.hashCode`/`Double.hashCode` values are not modelled.
- `Double` scores are `real`. `Double.equals` is modelled as equality of values, so NaN and signed zeros are not covered.
- `\p{Alnum}` and `\W` are ASCII-only in Java by default and are modelled exactly. `\p{N}`, `\p{Lu}`, `\p{Ll}` and `toLowerCase` are modelled on ASCII only.
- `trim` removes characters at or below ' ', as Java does. Supplementary characters are one `char` each, with no surrogate pairs.
- The static `CACHE` is a `TokenCache` object passed to the driver, so sharing it across documents is explicit.
- The generator's and power set's `hasNext`/`next` come from Guava's `AbstractIterator`. The consumers always pair them, so each iterator is driven through its `ComputeNext`, which returns `None` for end of data. Buffering is modelled only for `PushBack.PushBackIterator`, where pushes interleave with reads.
- OCRChecks.OCRCheck.ProcessDocument: requires every rule key to be non-empty. With an empty key, `indexOf("", i)` returns `i` while `i` is within the word and the word's length once `i` passes its end, so it never returns -1 and the Java loop does not terminate.
- Results.Misspelling.AddSuggestion: requires a suggestion of this misspelling to be scored, and `Valid` keeps every stored one scored. Java orders two unscored suggestions by text and throws NullPointerException when a scored one meets an unscored one (Misspelling.java:85-91). Every caller in this core scores a suggestion before adding it, so neither case arises.
- OCRChecks.OCRCheck.ProcessDocument: the run it states records each turn's suggestions as candidates (text and rewrites). That each stored suggestion is accepted and scored, and that the misspelling is not a dictionary word, are stated per turn by `OCRChecks.OCRCheck.Step` and not re-stated for the whole document.
