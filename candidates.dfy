/**
 * OCRCandidateSuggestionsGenerator: every subset of the transformations
 * whose spans do not overlap is spliced into the misspelled word; each new
 * text is cached and, when the suggestion predicate accepts it, returned
 * as a Suggestion. Also the suggestion predicates the pipeline hands it.
 */
module Candidates {
  import opened Wrappers
  import opened JavaStrings
  import opened Levenshtein
  import opened PowerSet
  import opened Transformations
  import opened Results

  // ---------------------------------------------------------------------
  // ApplicableTransformationsPredicate

  /**
   * The overlap check continued from lastIndex = last: every rule starts at
   * or after the end of the one before it.
   */
  predicate NonOverlappingFrom(rules: seq<Transformation>, last: int)
    decreases |rules|
  {
    rules == [] || (last <= rules[0].index && NonOverlappingFrom(rules[1..], SpanEnd(rules[0])))
  }

  /** The check from last passed: every rule starts at or after last, and no two spans overlap. */
  lemma {:induction false} NonOverlappingPairs(rules: seq<Transformation>, last: int)
    requires NonOverlappingFrom(rules, last)
    ensures forall i :: 0 <= i < |rules| ==> last <= rules[i].index
    ensures forall i, j :: 0 <= i < j < |rules| ==> SpanEnd(rules[i]) <= rules[j].index
    decreases |rules|
  {
    if rules != [] {
      var rest := rules[1..];
      NonOverlappingPairs(rest, SpanEnd(rules[0]));
      forall j | 0 < j < |rules|
        ensures SpanEnd(rules[0]) <= rules[j].index
      {
        assert rules[j] == rest[j - 1];
      }
      forall i, j | 0 < i < j < |rules|
        ensures SpanEnd(rules[i]) <= rules[j].index
      {
        assert rules[i] == rest[i - 1] && rules[j] == rest[j - 1];
      }
    }
  }

  /** A rule subset is applicable when it is non-empty and, in list order, no span overlaps the previous one. */
  predicate Applicable(rules: seq<Transformation>)
  {
    rules != [] && NonOverlappingFrom(rules, -1)
  }

  /** ApplicableTransformationsPredicate.apply: the lastIndex loop. */
  method IsApplicable(rules: seq<Transformation>) returns (b: bool)
    ensures b == Applicable(rules)
  {
    if rules == [] {
      return false;
    }
    var lastIndex := -1;
    for k := 0 to |rules|
      invariant NonOverlappingFrom(rules, -1) == NonOverlappingFrom(rules[k..], lastIndex)
    {
      assert rules[k..][1..] == rules[k + 1..];
      var index := rules[k].index;
      if index < lastIndex {
        return false;
      }
      lastIndex := index + |rules[k].original|;
    }
    return true;
  }

  /**
   * The overlap check holds from last exactly when the first rule starts at
   * or after last and each later rule starts at or after the previous end;
   * spans that touch are allowed.
   */
  lemma {:induction false} NonOverlappingFromIff(rules: seq<Transformation>, last: int)
    ensures NonOverlappingFrom(rules, last) <==>
            (rules == [] || last <= rules[0].index) &&
            forall i :: 0 < i < |rules| ==> SpanEnd(rules[i - 1]) <= rules[i].index
    decreases |rules|
  {
    if rules != [] {
      NonOverlappingFromIff(rules[1..], SpanEnd(rules[0]));
      assert forall i :: 0 < i < |rules| - 1 ==> rules[1..][i - 1] == rules[i] && rules[1..][i] == rules[i + 1];
    }
  }

  /**
   * The predicate rejects the empty subset and accepts a non-empty one
   * exactly when consecutive spans do not overlap; then no two spans overlap.
   */
  lemma ApplicableIff(rules: seq<Transformation>)
    ensures Applicable(rules) <==>
            rules != [] && -1 <= rules[0].index &&
            forall i :: 0 < i < |rules| ==> SpanEnd(rules[i - 1]) <= rules[i].index
    ensures Applicable(rules) ==> forall i, j :: 0 <= i < j < |rules| ==> SpanEnd(rules[i]) <= rules[j].index
  {
    NonOverlappingFromIff(rules, -1);
    if Applicable(rules) {
      NonOverlappingPairs(rules, -1);
    }
  }

  // ---------------------------------------------------------------------
  // Splicing a rule subset into the word

  /** Every rule's span lies inside the word. */
  predicate Fits(word: string, rules: seq<Transformation>)
  {
    forall i :: 0 <= i < |rules| ==> 0 <= rules[i].index && SpanEnd(rules[i]) <= |word|
  }

  /**
   * word[pos..] with each rule's span replaced by its replacement, all
   * positions taken in the original word.
   */
  function Rewrite(word: string, rules: seq<Transformation>, pos: nat): string
    requires pos <= |word| && NonOverlappingFrom(rules, pos) && Fits(word, rules)
    decreases |rules|
  {
    if rules == [] then word[pos..]
    else word[pos..rules[0].index] + rules[0].replacement + Rewrite(word, rules[1..], SpanEnd(rules[0]))
  }

  lemma ApplicableFromZero(word: string, rules: seq<Transformation>)
    requires Applicable(rules) && Fits(word, rules)
    ensures NonOverlappingFrom(rules, 0)
  {
  }

  /** The candidate text an applicable rule subset makes of the word. */
  function CandidateText(word: string, rules: seq<Transformation>): string
    requires Applicable(rules) && Fits(word, rules)
  {
    ApplicableFromZero(word, rules);
    Rewrite(word, rules, 0)
  }

  /** The total change of length the rules make. */
  function Growth(rules: seq<Transformation>): int
  {
    if rules == [] then 0 else |rules[0].replacement| - |rules[0].original| + Growth(rules[1..])
  }

  /** The rewritten text's length is the original length plus the growth of every rule. */
  lemma {:induction false} RewriteLength(word: string, rules: seq<Transformation>, pos: nat)
    requires pos <= |word| && NonOverlappingFrom(rules, pos) && Fits(word, rules)
    ensures |Rewrite(word, rules, pos)| == |word| - pos + Growth(rules)
    decreases |rules|
  {
    if rules != [] {
      RewriteLength(word, rules[1..], SpanEnd(rules[0]));
    }
  }

  /** Rules that replace the text they find by itself leave the word unchanged. */
  lemma {:induction false} RewriteIdentity(word: string, rules: seq<Transformation>, pos: nat)
    requires pos <= |word| && NonOverlappingFrom(rules, pos) && Fits(word, rules)
    requires forall i :: 0 <= i < |rules| ==> OccursAt(word, rules[i].original, rules[i].index) && rules[i].replacement == rules[i].original
    ensures Rewrite(word, rules, pos) == word[pos..]
    decreases |rules|
  {
    if rules != [] {
      var t := rules[0];
      RewriteIdentity(word, rules[1..], SpanEnd(t));
      assert word[pos..] == word[pos..t.index] + word[t.index..SpanEnd(t)] + word[SpanEnd(t)..];
    }
  }

  /** A single rule replaces its span and keeps the text on both sides. */
  lemma RewriteSingle(word: string, t: Transformation)
    requires 0 <= t.index && SpanEnd(t) <= |word|
    ensures Applicable([t]) && Fits(word, [t])
    ensures CandidateText(word, [t]) == word[..t.index] + t.replacement + word[SpanEnd(t)..]
  {
    assert [t][1..] == [];
    assert NonOverlappingFrom([t], -1);
    assert Rewrite(word, [], SpanEnd(t)) == word[SpanEnd(t)..];
  }

  /** Unfolds Rewrite by one rule; the remaining rules still fit. */
  lemma RewriteStep(word: string, rules: seq<Transformation>, pos: nat)
    requires pos <= |word| && NonOverlappingFrom(rules, pos) && Fits(word, rules) && rules != []
    ensures pos <= rules[0].index <= SpanEnd(rules[0]) <= |word|
    ensures NonOverlappingFrom(rules[1..], SpanEnd(rules[0])) && Fits(word, rules[1..])
    ensures Rewrite(word, rules, pos) ==
            word[pos..rules[0].index] + rules[0].replacement + Rewrite(word, rules[1..], SpanEnd(rules[0]))
  {
    assert forall i :: 0 <= i < |rules| - 1 ==> rules[1..][i] == rules[i + 1];
  }

  /**
   * One turn of the splice loop, on the rules: the rule lies after end, the
   * rules after it still fit, and the text is target once they are applied.
   */
  lemma SpliceRules(word: string, rules: seq<Transformation>, k: nat, rule: Transformation, e: int,
                    head: string, end: nat, target: string)
    requires k < |rules| && rule == rules[k] && e == rule.index + |rule.original| && end <= |word|
    requires NonOverlappingFrom(rules[k..], end) && Fits(word, rules[k..])
    requires head + Rewrite(word, rules[k..], end) == target
    ensures end <= rule.index <= e <= |word|
    ensures NonOverlappingFrom(rules[k + 1..], e) && Fits(word, rules[k + 1..])
    ensures head + (word[end..rule.index] + rule.replacement) + Rewrite(word, rules[k + 1..], e) == target
  {
    RewriteStep(word, rules[k..], end);
    assert rules[k..][1..] == rules[k + 1..];
    ConcatAssoc(head, word[end..rule.index] + rule.replacement, Rewrite(word, rules[k + 1..], e));
  }

  /** One turn of the splice loop, on the text: splicing replacement over word[b..e] in head + word[end..]. */
  lemma SpliceText(head: string, word: string, end: nat, b: nat, e: nat, adjust: int, replacement: string, suggestion: string)
    requires end <= b <= e <= |word| && |head| == end + adjust && suggestion == head + word[end..]
    ensures 0 <= b + adjust <= e + adjust <= |suggestion|
    ensures |head + (word[end..b] + replacement)| == e + (adjust + |replacement| - (e - b))
    ensures suggestion[..b + adjust] + replacement + suggestion[e + adjust..] == head + (word[end..b] + replacement) + word[e..]
  {
    assert suggestion[..b + adjust] == head + word[end..b];
    assert suggestion[e + adjust..] == word[e..];
  }

  lemma ConcatAssoc(a: string, b: string, c: string)
    ensures a + b + c == a + (b + c)
  {
  }

  /** The splice loop's invariant after k rules: head is the rewritten text of word[..end]. */
  ghost predicate Spliced(word: string, rules: seq<Transformation>, k: nat, suggestion: string, adjust: int,
                          head: string, end: nat, target: string)
    requires k <= |rules|
  {
    end <= |word| && NonOverlappingFrom(rules[k..], end) && Fits(word, rules[k..]) &&
    |head| == end + adjust && suggestion == head + word[end..] &&
    head + Rewrite(word, rules[k..], end) == target
  }

  /** The span of rule k, shifted by adjust, lies inside the text spliced so far. */
  lemma SpliceBounds(word: string, rules: seq<Transformation>, k: nat, suggestion: string, adjust: int,
                     head: string, end: nat, target: string)
    requires k < |rules| && Spliced(word, rules, k, suggestion, adjust, head, end, target)
    ensures 0 <= rules[k].index + adjust <= rules[k].index + |rules[k].original| + adjust <= |suggestion|
    ensures end <= rules[k].index
  {
    var rule := rules[k];
    SpliceRules(word, rules, k, rule, rule.index + |rule.original|, head, end, target);
  }

  /** One turn of the splice loop keeps its invariant. */
  lemma SpliceStep(word: string, rules: seq<Transformation>, k: nat, suggestion: string, adjust: int,
                   head: string, end: nat, target: string,
                   suggestion': string, adjust': int, head': string, end': nat)
    requires k < |rules| && Spliced(word, rules, k, suggestion, adjust, head, end, target)
    requires end' == rules[k].index + |rules[k].original|
    requires end <= rules[k].index && 0 <= rules[k].index + adjust <= end' + adjust <= |suggestion|
    requires suggestion' == suggestion[..rules[k].index + adjust] + rules[k].replacement + suggestion[end' + adjust..]
    requires adjust' == adjust + |rules[k].replacement| - |rules[k].original|
    requires head' == head + (word[end..rules[k].index] + rules[k].replacement)
    ensures Spliced(word, rules, k + 1, suggestion', adjust', head', end', target)
  {
    var rule := rules[k];
    SpliceRules(word, rules, k, rule, end', head, end, target);
    SpliceText(head, word, end, rule.index, end', adjust, rule.replacement, suggestion);
  }

  /** Before the first rule nothing is spliced; after the last the text is the candidate. */
  lemma SplicedEnds(word: string, rules: seq<Transformation>, suggestion: string, adjust: int, head: string, end: nat)
    requires Applicable(rules) && Fits(word, rules)
    ensures Spliced(word, rules, 0, word, 0, [], 0, CandidateText(word, rules))
    ensures Spliced(word, rules, |rules|, suggestion, adjust, head, end, CandidateText(word, rules)) ==>
              suggestion == CandidateText(word, rules) && |suggestion| == |word| + Growth(rules)
  {
    ApplicableFromZero(word, rules);
    assert rules[0..] == rules && word[0..] == word;
    assert rules[|rules|..] == [];
    RewriteLength(word, rules, 0);
  }

  /**
   * The splice loop of computeNext: each rule is applied at its index
   * shifted by adjust, the growth of the rules applied before it.
   */
  method ApplyRules(word: string, rules: seq<Transformation>) returns (suggestion: string)
    requires Applicable(rules) && Fits(word, rules)
    ensures suggestion == CandidateText(word, rules)
    ensures |suggestion| == |word| + Growth(rules)
  {
    suggestion := word;
    var adjust := 0;
    ghost var head: string := [];
    ghost var end: nat := 0;
    ghost var target := CandidateText(word, rules);
    SplicedEnds(word, rules, suggestion, adjust, head, end);
    for k := 0 to |rules|
      invariant Spliced(word, rules, k, suggestion, adjust, head, end, target)
    {
      var rule := rules[k];
      var beginIndex := rule.index;
      var endIndex := beginIndex + |rule.original|;
      SpliceBounds(word, rules, k, suggestion, adjust, head, end, target);
      beginIndex := beginIndex + adjust;
      var spliced := suggestion[..beginIndex] + rule.replacement + suggestion[endIndex + adjust..];
      var adjust' := adjust + |rule.replacement| - |rule.original|;
      ghost var head' := head + (word[end..rule.index] + rule.replacement);
      SpliceStep(word, rules, k, suggestion, adjust, head, end, target, spliced, adjust', head', endIndex);
      suggestion, adjust, head, end := spliced, adjust', head', endIndex;
    }
    SplicedEnds(word, rules, suggestion, adjust, head, end);
  }

  // ---------------------------------------------------------------------
  // Suggestion predicates

  /**
   * The predicate a generator filters with: the one that accepts every
   * suggestion, or ValidSuggestionPredicate over a dictionary.
   */
  datatype Filter = AcceptAll | ValidSuggestion(isCorrect: string -> bool)

  /**
   * ValidSuggestionPredicate.apply's verdict: the lower-cased suggestion is
   * nearer to the lower-cased misspelling than its length, and is a word.
   */
  predicate Accepts(f: Filter, misspelled: string, text: string)
  {
    match f
    case AcceptAll => true
    case ValidSuggestion(isCorrect) =>
      EditDistance(ToLower(misspelled), ToLower(text)) < |ToLower(misspelled)| && isCorrect(ToLower(text))
  }

  /**
   * A suggestion the dictionary predicate accepts is a non-empty dictionary
   * word shorter than twice the misspelling.
   */
  lemma AcceptedBounds(isCorrect: string -> bool, misspelled: string, text: string)
    requires Accepts(ValidSuggestion(isCorrect), misspelled, text)
    ensures 0 < |text| < 2 * |misspelled|
    ensures isCorrect(ToLower(text))
  {
    EditDistanceBounds(ToLower(misspelled), ToLower(text));
  }

  /** A suggestion predicate object; ValidSuggestionPredicate counts every call. */
  class SuggestionFilter {
    const kind: Filter
    var count: nat

    constructor (kind: Filter)
      ensures this.kind == kind && count == 0
    {
      this.kind := kind;
      count := 0;
    }

    method Apply(s: Suggestion) returns (b: bool)
      modifies this
      ensures b == Accepts(kind, s.misspelling.word.value, s.text)
      ensures count == if kind.ValidSuggestion? then old(count) + 1 else old(count)
    {
      match kind {
        case AcceptAll =>
          b := true;
        case ValidSuggestion(isCorrect) =>
          count := count + 1;
          var normMisspelling := ToLower(s.misspelling.word.value);
          var normSuggestion := ToLower(s.text);
          var d := Distance(normMisspelling, normSuggestion);
          b := d < |normMisspelling| && isCorrect(normSuggestion);
      }
    }

    method ResetCount()
      modifies this
      ensures count == 0
    {
      count := 0;
    }
  }

  // ---------------------------------------------------------------------
  // What an iterator returns

  /** A suggestion an iterator returns: its text and the rules that made it. */
  datatype Candidate = Candidate(text: string, rules: seq<Transformation>)

  /** Every list is an applicable rule subset whose spans lie inside the word. */
  predicate AllUsable(word: string, lists: seq<seq<Transformation>>)
  {
    forall i :: 0 <= i < |lists| ==> Applicable(lists[i]) && Fits(word, lists[i])
  }

  /** The texts the lists make of the word. */
  ghost function TextsOf(word: string, lists: seq<seq<Transformation>>): set<string>
    requires AllUsable(word, lists)
    decreases |lists|
  {
    if lists == [] then {} else {CandidateText(word, lists[0])} + TextsOf(word, lists[1..])
  }

  /**
   * One computeNext over the rule lists still to come: how many lists it
   * consumes, the candidate it returns (None for end of data), the cache
   * afterwards, and how many times it calls the predicate.
   */
  datatype ScanResult = ScanResult(consumed: nat, found: Option<Candidate>, seen: set<string>, checks: nat)

  /**
   * The scan consumes lists up to and including the one whose text is new
   * and accepted, and returns that text with its rules; the cache only
   * grows, and the text returned was not cached before.
   */
  function Scan(word: string, lists: seq<seq<Transformation>>, seen: set<string>, f: Filter): (r: ScanResult)
    requires AllUsable(word, lists)
    ensures r.consumed <= |lists| && seen <= r.seen
    ensures r.found.None? ==> r.consumed == |lists|
    ensures r.found.Some? ==>
              1 <= r.consumed && r.found.value.rules == lists[r.consumed - 1] &&
              r.found.value.text == CandidateText(word, r.found.value.rules) &&
              r.found.value.text in r.seen && r.found.value.text !in seen &&
              Accepts(f, word, r.found.value.text)
    decreases |lists|
  {
    if lists == [] then ScanResult(0, None, seen, 0)
    else
      var text := CandidateText(word, lists[0]);
      if text in seen then
        var r := Scan(word, lists[1..], seen, f);
        r.(consumed := r.consumed + 1)
      else if Accepts(f, word, text) then
        ScanResult(1, Some(Candidate(text, lists[0])), seen + {text}, 1)
      else
        var r := Scan(word, lists[1..], seen + {text}, f);
        r.(consumed := r.consumed + 1, checks := r.checks + 1)
  }

  /** The candidates an iterator returns, in order, from the remaining lists and its cache. */
  function Candidates(word: string, lists: seq<seq<Transformation>>, seen: set<string>, f: Filter): seq<Candidate>
    requires AllUsable(word, lists)
    decreases |lists|
  {
    var r := Scan(word, lists, seen, f);
    if r.found.None? then [] else [r.found.value] + Candidates(word, lists[r.consumed..], r.seen, f)
  }

  /** A scan caches exactly the texts of the lists it consumes. */
  lemma {:induction false} ScanCaches(word: string, lists: seq<seq<Transformation>>, seen: set<string>, f: Filter)
    requires AllUsable(word, lists)
    ensures var r := Scan(word, lists, seen, f);
            r.seen == seen + TextsOf(word, lists[..r.consumed])
    decreases |lists|
  {
    if lists != [] {
      var text := CandidateText(word, lists[0]);
      var r := Scan(word, lists, seen, f);
      assert lists[..r.consumed][1..] == lists[1..][..r.consumed - 1];
      if text in seen {
        ScanCaches(word, lists[1..], seen, f);
      } else if !Accepts(f, word, text) {
        ScanCaches(word, lists[1..], seen + {text}, f);
      }
    }
  }

  /** The predicate is called once for each text the scan adds to the cache. */
  lemma {:induction false} ScanChecksNewTexts(word: string, lists: seq<seq<Transformation>>, seen: set<string>, f: Filter)
    requires AllUsable(word, lists)
    ensures var r := Scan(word, lists, seen, f);
            r.checks == |r.seen - seen|
    decreases |lists|
  {
    if lists != [] {
      var text := CandidateText(word, lists[0]);
      if text in seen {
        ScanChecksNewTexts(word, lists[1..], seen, f);
      } else if Accepts(f, word, text) {
        assert (seen + {text}) - seen == {text};
      } else {
        var r' := Scan(word, lists[1..], seen + {text}, f);
        ScanChecksNewTexts(word, lists[1..], seen + {text}, f);
        SetDifferenceStep(seen, text, r'.seen);
      }
    }
  }

  lemma SetDifferenceStep(seen: set<string>, text: string, after: set<string>)
    requires text !in seen && seen + {text} <= after
    ensures |after - seen| == |after - (seen + {text})| + 1
  {
    assert after - seen == (after - (seen + {text})) + {text};
  }

  /** No two of the candidates have the same text, and none of their texts is in seen. */
  predicate NewAndDistinct(c: seq<Candidate>, seen: set<string>)
  {
    (forall i :: 0 <= i < |c| ==> c[i].text !in seen) &&
    (forall i, j :: 0 <= i < j < |c| ==> c[i].text != c[j].text)
  }

  /** No two candidates have the same text, and none was in the cache to begin with. */
  lemma {:induction false} CandidatesDistinct(word: string, lists: seq<seq<Transformation>>, seen: set<string>, f: Filter)
    requires AllUsable(word, lists)
    ensures NewAndDistinct(Candidates(word, lists, seen, f), seen)
    decreases |lists|
  {
    var r := Scan(word, lists, seen, f);
    if r.found.Some? {
      var c := Candidates(word, lists, seen, f);
      var tail := Candidates(word, lists[r.consumed..], r.seen, f);
      CandidatesDistinct(word, lists[r.consumed..], r.seen, f);
      assert c == [r.found.value] + tail;
      forall i, j | 0 <= i < j < |c|
        ensures c[i].text != c[j].text
      {
        assert c[j] == tail[j - 1] && tail[j - 1].text !in r.seen;
        if i > 0 {
          assert c[i] == tail[i - 1];
        } else {
          assert c[i] == r.found.value && c[i].text in r.seen;
        }
      }
      forall i | 0 <= i < |c|
        ensures c[i].text !in seen
      {
        if i > 0 {
          assert c[i] == tail[i - 1] && tail[i - 1].text !in r.seen;
        } else {
          assert c[i] == r.found.value;
        }
      }
    }
  }

  /**
   * Every candidate is accepted by the predicate, comes from one of the
   * lists, and its text is what that list makes of the word.
   */
  lemma {:induction false} CandidatesSound(word: string, lists: seq<seq<Transformation>>, seen: set<string>, f: Filter)
    requires AllUsable(word, lists)
    ensures |Candidates(word, lists, seen, f)| <= |lists|
    ensures forall c :: c in Candidates(word, lists, seen, f) ==>
              c.rules in lists && Applicable(c.rules) && Fits(word, c.rules) &&
              c.text == CandidateText(word, c.rules) && Accepts(f, word, c.text)
    decreases |lists|
  {
    var r := Scan(word, lists, seen, f);
    if r.found.Some? {
      CandidatesSound(word, lists[r.consumed..], r.seen, f);
      forall c | c in Candidates(word, lists[r.consumed..], r.seen, f)
        ensures c.rules in lists
      {
        assert c.rules in lists[r.consumed..];
      }
    }
  }

  /** The list at i makes a text that is not cached and that the predicate accepts. */
  predicate NewAccepted(word: string, lists: seq<seq<Transformation>>, seen: set<string>, f: Filter, i: int)
    requires AllUsable(word, lists)
  {
    0 <= i < |lists| && CandidateText(word, lists[i]) !in seen && Accepts(f, word, CandidateText(word, lists[i]))
  }

  /** Some candidate has the text the list at i makes. */
  predicate HasCandidateFor(word: string, lists: seq<seq<Transformation>>, seen: set<string>, f: Filter, i: int)
    requires AllUsable(word, lists) && 0 <= i < |lists|
  {
    exists c :: c in Candidates(word, lists, seen, f) && c.text == CandidateText(word, lists[i])
  }

  /** The first list's turn: a list after it keeps the candidate the rest of the scan gives it. */
  lemma CompleteStep(word: string, lists: seq<seq<Transformation>>, seen: set<string>, f: Filter, i: int)
    requires AllUsable(word, lists) && NewAccepted(word, lists, seen, f, i)
    requires var text := CandidateText(word, lists[0]);
             var seen' := if text in seen then seen else seen + {text};
             i > 0 && CandidateText(word, lists[i]) != text ==> HasCandidateFor(word, lists[1..], seen', f, i - 1)
    ensures HasCandidateFor(word, lists, seen, f, i)
  {
    var text := CandidateText(word, lists[0]);
    var seen' := if text in seen then seen else seen + {text};
    ScanStep(word, lists, seen, f);
    var all := Candidates(word, lists, seen, f);
    if CandidateText(word, lists[i]) == text {
      assert Candidate(text, lists[0]) in all;
    } else {
      assert lists[1..][i - 1] == lists[i];
      var c :| c in Candidates(word, lists[1..], seen', f) && c.text == CandidateText(word, lists[i]);
      assert c in all;
    }
  }

  /**
   * Nothing accepted is lost: every list whose text is not cached and is
   * accepted yields a candidate with that text (the first list making it).
   */
  lemma {:induction false} CandidatesComplete(word: string, lists: seq<seq<Transformation>>, seen: set<string>, f: Filter)
    requires AllUsable(word, lists)
    ensures forall i :: NewAccepted(word, lists, seen, f, i) ==> HasCandidateFor(word, lists, seen, f, i)
    decreases |lists|
  {
    if lists != [] {
      var text := CandidateText(word, lists[0]);
      var seen' := if text in seen then seen else seen + {text};
      CandidatesComplete(word, lists[1..], seen', f);
      forall i | NewAccepted(word, lists, seen, f, i)
        ensures HasCandidateFor(word, lists, seen, f, i)
      {
        if i > 0 && CandidateText(word, lists[i]) != text {
          assert lists[1..][i - 1] == lists[i];
          assert NewAccepted(word, lists[1..], seen', f, i - 1);
        }
        CompleteStep(word, lists, seen, f, i);
      }
    }
  }

  /**
   * The iterator returns some candidate exactly when some list makes a text
   * that is not cached and that the predicate accepts.
   */
  lemma CandidatesExist(word: string, lists: seq<seq<Transformation>>, seen: set<string>, f: Filter)
    requires AllUsable(word, lists)
    ensures Candidates(word, lists, seen, f) != [] <==> exists i :: NewAccepted(word, lists, seen, f, i)
  {
    var all := Candidates(word, lists, seen, f);
    CandidatesComplete(word, lists, seen, f);
    if all != [] {
      CandidatesSound(word, lists, seen, f);
      CandidatesDistinct(word, lists, seen, f);
      assert all[0] in all;
      var i :| 0 <= i < |lists| && lists[i] == all[0].rules;
      assert NewAccepted(word, lists, seen, f, i);
    } else {
      forall i | 0 <= i < |lists|
        ensures !HasCandidateFor(word, lists, seen, f, i)
      {
      }
    }
  }

  /** With no list left there is no candidate and no call to the predicate. */
  lemma ScanEnd(word: string, seen: set<string>, f: Filter)
    ensures Candidates(word, [], seen, f) == [] && Scan(word, [], seen, f).checks == 0
  {
  }

  /**
   * One list of the scan: a cached text is skipped, a new text is cached and
   * checked once, and becomes the next candidate when it is accepted.
   */
  lemma ScanStep(word: string, lists: seq<seq<Transformation>>, seen: set<string>, f: Filter)
    requires AllUsable(word, lists) && lists != []
    ensures var text := CandidateText(word, lists[0]);
            var here := Scan(word, lists, seen, f);
            var rest := Scan(word, lists[1..], seen + {text}, f);
            (text in seen ==> Candidates(word, lists, seen, f) == Candidates(word, lists[1..], seen, f) &&
                              here.checks == Scan(word, lists[1..], seen, f).checks) &&
            (text !in seen && Accepts(f, word, text) ==>
               Candidates(word, lists, seen, f) == [Candidate(text, lists[0])] + Candidates(word, lists[1..], seen + {text}, f) &&
               here.checks == 1) &&
            (text !in seen && !Accepts(f, word, text) ==>
               Candidates(word, lists, seen, f) == Candidates(word, lists[1..], seen + {text}, f) &&
               here.checks == rest.checks + 1)
  {
    var text := CandidateText(word, lists[0]);
    var here := Scan(word, lists, seen, f);
    if text in seen {
      var r := Scan(word, lists[1..], seen, f);
      assert lists[here.consumed..] == lists[1..][r.consumed..];
    } else if Accepts(f, word, text) {
      assert lists[here.consumed..] == lists[1..];
    } else {
      var r := Scan(word, lists[1..], seen + {text}, f);
      assert lists[here.consumed..] == lists[1..][r.consumed..];
    }
  }

  // ---------------------------------------------------------------------
  // The generator and its iterator

  /** The subsets of transformations that fit the word, filtered by applicability, are usable lists. */
  lemma EnumerateUsable(word: string, input: seq<Transformation>, accept: seq<Transformation> -> bool, lo: nat, hi: nat)
    requires lo <= hi && Fits(word, input)
    requires forall l :: accept(l) == Applicable(l)
    ensures AllUsable(word, Enumerate(input, accept, lo, hi))
  {
    var ls := Enumerate(input, accept, lo, hi);
    EnumerateFromInput(input, accept, lo, hi);
    forall i | 0 <= i < |ls|
      ensures Applicable(ls[i]) && Fits(word, ls[i])
    {
      assert accept(ls[i]);
      forall j | 0 <= j < |ls[i]|
        ensures 0 <= ls[i][j].index && SpanEnd(ls[i][j]) <= |word|
      {
        assert ls[i][j] in ls[i];
        var n :| 0 <= n < |input| && input[n] == ls[i][j];
      }
    }
  }

  /** The lists a generator over ts walks: the applicable subsets of ts, in mask order. */
  function Subsets(ts: seq<Transformation>): seq<seq<Transformation>>
  {
    Enumerate(ts, Applicable, 0, LongPowerSetSize(|ts|))
  }

  /** Every candidate a generator over ts returns for word, in order, starting from an empty cache. */
  ghost function CandidatesFor(word: string, ts: seq<Transformation>, f: Filter): seq<Candidate>
    requires Fits(word, ts)
  {
    EnumerateUsable(word, ts, Applicable, 0, LongPowerSetSize(|ts|));
    Candidates(word, Subsets(ts), {}, f)
  }

  /**
   * A generator over ts yields some candidate exactly when some applicable
   * subset of ts makes a text the predicate accepts.
   */
  lemma CandidatesForExist(word: string, ts: seq<Transformation>, f: Filter)
    requires Fits(word, ts)
    ensures CandidatesFor(word, ts, f) != [] <==>
            exists rules :: rules in Subsets(ts) && Applicable(rules) && Fits(word, rules) &&
                            Accepts(f, word, CandidateText(word, rules))
  {
    var lists := Subsets(ts);
    EnumerateUsable(word, ts, Applicable, 0, LongPowerSetSize(|ts|));
    CandidatesExist(word, lists, {}, f);
    if exists rules :: rules in lists && Applicable(rules) && Fits(word, rules) && Accepts(f, word, CandidateText(word, rules)) {
      var rules :| rules in lists && Applicable(rules) && Fits(word, rules) && Accepts(f, word, CandidateText(word, rules));
      var i :| 0 <= i < |lists| && lists[i] == rules;
      assert NewAccepted(word, lists, {}, f, i);
    }
  }

  /** OCRCandidateSuggestionsGenerator: a misspelling, its transformations and a predicate. */
  class CandidateGenerator {
    const misspelling: Misspelling
    const transformations: seq<Transformation>
    const filter: SuggestionFilter

    constructor (misspelling: Misspelling, transformations: seq<Transformation>, filter: SuggestionFilter)
      ensures this.misspelling == misspelling && this.transformations == transformations && this.filter == filter
    {
      this.misspelling := misspelling;
      this.transformations := transformations;
      this.filter := filter;
    }

    /** The two-argument constructor: the predicate accepts every suggestion. */
    constructor AcceptingAll(misspelling: Misspelling, transformations: seq<Transformation>)
      ensures this.misspelling == misspelling && this.transformations == transformations
      ensures fresh(filter) && filter.kind == AcceptAll
    {
      this.misspelling := misspelling;
      this.transformations := transformations;
      filter := new SuggestionFilter(AcceptAll);
    }

    /** Every candidate an iterator of this generator returns, in order. */
    ghost function AllCandidates(): seq<Candidate>
      requires Fits(misspelling.word.value, transformations)
    {
      CandidatesFor(misspelling.word.value, transformations, filter.kind)
    }

    /**
     * iterator(): a fresh traversal of every applicable subset, with an
     * empty cache; it returns the candidates of all lists the power set of
     * the transformations yields.
     */
    method Iterator() returns (it: CandidateIterator)
      requires Fits(misspelling.word.value, transformations)
      ensures fresh(it) && fresh(it.subsets) && it.Valid()
      ensures it.misspelling == misspelling && it.filter == filter && it.cache == {}
      ensures it.subsets.input == transformations && it.subsets.accept == Applicable && it.subsets.index == 0
      ensures it.Emitted() == AllCandidates()
    {
      it := new CandidateIterator(misspelling, transformations, filter);
    }
  }

  /** OCRCandidateSuggestionsIterator: the lists still to come, the cache and the predicate. */
  class CandidateIterator {
    const misspelling: Misspelling
    const filter: SuggestionFilter
    const subsets: PowerSetIterator<Transformation>
    var cache: set<string>

    /** The power-set iterator runs over transformations inside the word, filtered by Applicable. */
    ghost predicate Valid()
      reads this, subsets
    {
      subsets.Valid() &&
      (forall l :: subsets.accept(l) == Applicable(l)) &&
      Fits(misspelling.word.value, subsets.input)
    }

    constructor (misspelling: Misspelling, transformations: seq<Transformation>, filter: SuggestionFilter)
      requires Fits(misspelling.word.value, transformations)
      ensures fresh(subsets) && Valid()
      ensures this.misspelling == misspelling && this.filter == filter && cache == {}
      ensures subsets.input == transformations && subsets.accept == Applicable && subsets.index == 0
    {
      this.misspelling := misspelling;
      this.filter := filter;
      var generator := new PowerSetGenerator(transformations, Applicable);
      var it := generator.Iterator();
      subsets := it;
      cache := {};
    }

    /** The lists still to come are applicable and fit the word. */
    lemma RemainingUsable()
      requires Valid()
      ensures AllUsable(misspelling.word.value, subsets.Remaining())
    {
      EnumerateUsable(misspelling.word.value, subsets.input, subsets.accept, subsets.index, subsets.size);
    }

    /** The candidates this iterator will still return. */
    ghost function Emitted(): seq<Candidate>
      reads this, subsets
      requires Valid()
    {
      RemainingUsable();
      Candidates(misspelling.word.value, subsets.Remaining(), cache, filter.kind)
    }

    /** How many times the predicate will still be called before the next candidate or end of data. */
    ghost function Checks(): nat
      reads this, subsets
      requires Valid()
    {
      RemainingUsable();
      Scan(misspelling.word.value, subsets.Remaining(), cache, filter.kind).checks
    }

    /**
     * computeNext: the next list whose text is not cached is spliced; the
     * text is cached before the predicate runs, and the first accepted one
     * is returned as a new Suggestion without a score. None is end of data.
     */
    method ComputeNext() returns (r: Option<Suggestion>)
      requires Valid()
      modifies this, subsets, filter
      ensures Valid()
      ensures r.None? ==> old(Emitted()) == []
      ensures r.Some? ==> fresh(r.value) && r.value.misspelling == misspelling && r.value.score == null &&
                          old(Emitted()) == [Candidate(r.value.text, r.value.transformations)] + Emitted()
      ensures r.Some? ==> Accepts(filter.kind, misspelling.word.value, r.value.text)
      ensures filter.count == old(filter.count) + if filter.kind.ValidSuggestion? then old(Checks()) else 0
    {
      var word := misspelling.word.value;
      ghost var emitted0 := Emitted();
      ghost var checks0 := Checks();
      ghost var count0 := filter.count;
      while true
        invariant Valid() && Emitted() == emitted0
        invariant filter.kind.ValidSuggestion? ==> filter.count + Checks() == count0 + checks0
        invariant filter.kind.AcceptAll? ==> filter.count == count0
        decreases subsets.size - subsets.index
      {
        var rules: seq<Transformation>;
        var suggestion: string;
        ghost var outerIndex := subsets.index;
        ghost var lists: seq<seq<Transformation>>;
        while true
          invariant Valid() && Emitted() == emitted0 && outerIndex <= subsets.index
          invariant filter.kind.ValidSuggestion? ==> filter.count + Checks() == count0 + checks0
          invariant filter.kind.AcceptAll? ==> filter.count == count0
          decreases subsets.size - subsets.index
        {
          RemainingUsable();
          lists := subsets.Remaining();
          var next := subsets.ComputeNext();
          if next.None? {
            ScanEnd(word, cache, filter.kind);
            return None;
          }
          rules := next.value;
          suggestion := ApplyRules(word, rules);
          ScanStep(word, lists, cache, filter.kind);
          if suggestion !in cache {
            break;
          }
        }
        cache := cache + {suggestion};
        var s := new Suggestion(misspelling, suggestion, rules);
        var ok := filter.Apply(s);
        if ok {
          return Some(s);
        }
      }
    }
  }
}
