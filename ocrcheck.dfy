/**
 * OCRCheck: the pipeline that reads the tokens of a document, cleans them,
 * looks them up in the dictionary and records each misspelling with its
 * ranked suggestions; also the transformations an OCR rule table yields for
 * a word, collected in a TreeSet ordered by position.
 */
module OCRChecks {
  import opened Wrappers
  import opened JavaStrings
  import opened Levenshtein
  import opened PowerSet
  import opened Transformations
  import opened Results
  import opened Documents
  import opened PushBack
  import opened Candidates

  // ---------------------------------------------------------------------
  // Token clean-up

  /** normalizeToken: the lower-cased token. */
  function NormalizeToken(token: string): (r: string)
    ensures |r| == |token|
    ensures forall i :: 0 <= i < |r| ==> !IsUpper(r[i]) && (IsLower(r[i]) <==> IsUpper(token[i]) || IsLower(token[i]))
  {
    ToLower(token)
  }

  /** Lower-casing a lower-cased token changes nothing. */
  lemma NormalizeIdempotent(token: string)
    ensures NormalizeToken(NormalizeToken(token)) == NormalizeToken(token)
  {
    var once := NormalizeToken(token);
    assert forall i :: 0 <= i < |once| ==> LowerChar(once[i]) == once[i];
  }

  /** The token holds nothing but digits, '.' and ','; the empty token is one too. */
  predicate NumericJunk(token: string)
  {
    forall i :: 0 <= i < |token| ==> IsDigit(token[i]) || token[i] == '.' || token[i] == ','
  }

  /** How many characters the leading run of non-alphanumerics holds. */
  function LeadingJunk(s: string): (n: nat)
    ensures n <= |s| && (forall i :: 0 <= i < n ==> !IsAlnum(s[i])) && (n == |s| || IsAlnum(s[n]))
  {
    if |s| > 0 && !IsAlnum(s[0]) then 1 + LeadingJunk(s[1..]) else 0
  }

  /** How many characters the trailing run of non-alphanumerics holds. */
  function TrailingJunk(s: string): (n: nat)
    ensures n <= |s| && (forall i :: |s| - n <= i < |s| ==> !IsAlnum(s[i])) && (n == |s| || IsAlnum(s[|s| - n - 1]))
  {
    if |s| > 0 && !IsAlnum(s[|s| - 1]) then 1 + TrailingJunk(s[..|s| - 1]) else 0
  }

  /**
   * cleanToken: "" for a token of digits, '.' and ',' only; otherwise the
   * token without its maximal leading and trailing runs of characters
   * outside \p{Alnum}.
   */
  function CleanToken(token: string): (r: string)
    ensures NumericJunk(token) ==> r == []
    ensures !NumericJunk(token) ==>
              exists a, b :: 0 <= a <= b <= |token| && r == token[a..b] &&
                             (forall i :: 0 <= i < a ==> !IsAlnum(token[i])) &&
                             (forall i :: b <= i < |token| ==> !IsAlnum(token[i]))
    ensures |r| <= |token|
    ensures r == [] || (IsAlnum(r[0]) && IsAlnum(r[|r| - 1]))
  {
    if NumericJunk(token) then []
    else
      var a := LeadingJunk(token);
      var rest := token[a..];
      var b := a + |rest| - TrailingJunk(rest);
      assert rest[..|rest| - TrailingJunk(rest)] == token[a..b];
      token[a..b]
  }

  /** A token that is not junk and starts and ends with an alphanumeric character is its own clean form. */
  lemma CleanTokenKeeps(token: string)
    requires !NumericJunk(token) && |token| > 0 && IsAlnum(token[0]) && IsAlnum(token[|token| - 1])
    ensures CleanToken(token) == token
  {
    assert LeadingJunk(token) == 0;
    assert token[0..] == token;
    assert TrailingJunk(token) == 0;
  }

  /**
   * The clean form is empty exactly when the token is numeric junk (digits,
   * '.' and ',' only) or holds no alphanumeric character at all.
   */
  lemma CleanTokenEmpty(token: string)
    ensures CleanToken(token) == [] <==>
            NumericJunk(token) || forall i :: 0 <= i < |token| ==> !IsAlnum(token[i])
  {
    if !NumericJunk(token) {
      if k :| 0 <= k < |token| && IsAlnum(token[k]) {
        var a := LeadingJunk(token);
        var rest := token[a..];
        assert rest[k - a] == token[k];
        assert |rest| - TrailingJunk(rest) > k - a;
      }
    }
  }

  /** token.endsWith("-") */
  predicate EndsWithHyphen(token: string)
  {
    |token| > 0 && token[|token| - 1] == '-'
  }

  /** The characters of a sequence of tokens, all counted. */
  function TotalLength(tokens: seq<string>): nat
  {
    if tokens == [] then 0 else |tokens[0]| + TotalLength(tokens[1..])
  }

  lemma {:induction false} TotalLengthAppend(a: seq<string>, b: seq<string>)
    ensures TotalLength(a + b) == TotalLength(a) + TotalLength(b)
    decreases |a|
  {
    if a == [] {
      assert a + b == b;
    } else {
      assert (a + b)[1..] == a[1..] + b;
      TotalLengthAppend(a[1..], b);
    }
  }

  lemma {:induction false} TotalLengthPrefix(a: seq<string>, n: nat)
    requires n <= |a|
    ensures TotalLength(a[..n]) <= TotalLength(a)
  {
    TotalLengthAppend(a[..n], a[n..]);
    assert a[..n] + a[n..] == a;
  }

  /** The fields of s hold its characters less at least one separator character between each two fields. */
  lemma {:induction false} FieldsLength(s: string)
    ensures TotalLength(Fields(s)) + |Fields(s)| - 1 <= |s|
    decreases |s|
  {
    if WordRun(s) < |s| {
      FieldsLength(AfterSeparator(s));
      assert Fields(s)[1..] == Fields(AfterSeparator(s));
    }
  }

  /** Splitting on \W+ into two or more parts leaves strictly fewer characters. */
  lemma SplitShorter(s: string)
    requires |SplitNonWord(s)| > 1
    ensures TotalLength(SplitNonWord(s)) < |s|
  {
    var parts := SplitNonWord(s);
    var fields := Fields(s);
    FieldsLength(s);
    TotalLengthPrefix(fields, |parts|);
  }

  // ---------------------------------------------------------------------
  // The TreeSet of transformations

  /**
   * Integer.valueOf caches the boxes of -128 .. 127; two boxes of the same
   * value are the same object only in that range, and boxes of different
   * values never are.
   */
  predicate SameBox(a: int, b: int)
  {
    a == b && -128 <= a <= 127
  }

  function Signum(x: int): int
  {
    if x < 0 then -1 else if x > 0 then 1 else 0
  }

  /**
   * The comparator as written: the boxed indices are compared with !=, and
   * only when that says they differ is Integer.compareTo used; otherwise the
   * originals, and then the replacements, decide.
   */
  function CompareRules(t1: Transformation, t2: Transformation): (r: int)
    ensures r == 0 <==> t1.index == t2.index && (!SameBox(t1.index, t2.index) || t1 == t2)
    ensures r < 0 ==> t1.index <= t2.index
    ensures t1.index < t2.index ==> r < 0
  {
    CompareStringsProperties(t1.original, t2.original);
    CompareStringsProperties(t1.replacement, t2.replacement);
    if !SameBox(t1.index, t2.index) then Signum(t1.index - t2.index)
    else if t1.original != t2.original then CompareStrings(t1.original, t2.original)
    else CompareStrings(t1.replacement, t2.replacement)
  }

  lemma CompareRulesAntisymmetric(a: Transformation, b: Transformation)
    ensures CompareRules(a, b) < 0 <==> CompareRules(b, a) > 0
  {
    CompareStringsProperties(a.original, b.original);
    CompareStringsProperties(a.replacement, b.replacement);
  }

  lemma CompareRulesTransitive(a: Transformation, b: Transformation, c: Transformation)
    requires CompareRules(a, b) < 0 && CompareRules(b, c) < 0
    ensures CompareRules(a, c) < 0
  {
    if SameBox(a.index, b.index) && SameBox(b.index, c.index) {
      CompareStringsProperties(a.original, c.original);
      CompareStringsProperties(a.original, b.original);
      CompareStringsProperties(b.original, c.original);
      if a.original != b.original && b.original != c.original {
        CompareStringsTransitive(a.original, b.original, c.original);
      } else if a.original == b.original && b.original == c.original {
        CompareStringsTransitive(a.replacement, b.replacement, c.replacement);
      }
    }
  }

  /** Two rules at one index of 128 or more compare as 0 whatever their texts. */
  lemma RulesCollapseAboveCache()
    ensures CompareRules(Transformation("a", "b", 128), Transformation("c", "d", 128)) == 0
    ensures CompareRules(Transformation("a", "b", 127), Transformation("c", "d", 127)) != 0
  {
  }

  /** The set's elements in ascending comparator order. */
  predicate SortedRules(ts: seq<Transformation>)
  {
    forall i, j :: 0 <= i < j < |ts| ==> CompareRules(ts[i], ts[j]) < 0
  }

  /** The set holds t, or an element the comparator cannot tell from t. */
  predicate Covered(ts: seq<Transformation>, t: Transformation)
  {
    exists u :: u in ts && CompareRules(u, t) == 0
  }

  /**
   * TreeSet.add: t goes in at its place in the order, unless an element
   * already compares as 0 with it.
   */
  function InsertRule(ts: seq<Transformation>, t: Transformation): (r: seq<Transformation>)
    requires SortedRules(ts)
    ensures forall u :: u in r <==> u in ts || (u == t && !Covered(ts, t))
  {
    if ts == [] then [t]
    else
      var c := CompareRules(t, ts[0]);
      if c < 0 then
        NotCoveredBelow(ts, t);
        [t] + ts
      else if c == 0 then
        CompareRulesAntisymmetric(t, ts[0]);
        assert ts[0] in ts && CompareRules(ts[0], t) == 0;
        ts
      else
        assert Covered(ts, t) <==> Covered(ts[1..], t) by {
          if Covered(ts, t) {
            var u :| u in ts && CompareRules(u, t) == 0;
            CompareRulesAntisymmetric(t, ts[0]);
            assert u != ts[0];
          }
        }
        [ts[0]] + InsertRule(ts[1..], t)
  }

  /** A rule below the first element of a sorted set compares as 0 with none of it. */
  lemma NotCoveredBelow(ts: seq<Transformation>, t: Transformation)
    requires SortedRules(ts) && ts != [] && CompareRules(t, ts[0]) < 0
    ensures !Covered(ts, t)
  {
    forall u | u in ts
      ensures CompareRules(u, t) != 0
    {
      var j :| 0 <= j < |ts| && ts[j] == u;
      if j > 0 {
        CompareRulesTransitive(t, ts[0], u);
      }
      CompareRulesAntisymmetric(u, t);
    }
  }

  /** Adding keeps the set sorted. */
  lemma {:induction false} InsertRuleSorted(ts: seq<Transformation>, t: Transformation)
    requires SortedRules(ts)
    ensures SortedRules(InsertRule(ts, t))
    decreases |ts|
  {
    if ts != [] {
      var c := CompareRules(t, ts[0]);
      if c < 0 {
        var r := [t] + ts;
        forall i, j | 0 <= i < j < |r|
          ensures CompareRules(r[i], r[j]) < 0
        {
          if i == 0 && j > 1 {
            CompareRulesTransitive(t, ts[0], ts[j - 1]);
          }
        }
      } else if c > 0 {
        InsertRuleSorted(ts[1..], t);
        var rest := InsertRule(ts[1..], t);
        var r := [ts[0]] + rest;
        CompareRulesAntisymmetric(t, ts[0]);
        forall i, j | 0 <= i < j < |r|
          ensures CompareRules(r[i], r[j]) < 0
        {
          if i == 0 {
            assert r[j] in rest;
            if r[j] != t {
              var k :| 0 <= k < |ts| && ts[k] == r[j];
              assert k > 0;
            }
          }
        }
      }
    }
  }

  /** Whatever the set covered it still covers after an add. */
  lemma InsertRuleCovers(ts: seq<Transformation>, t: Transformation)
    requires SortedRules(ts)
    ensures forall x :: Covered(ts, x) ==> Covered(InsertRule(ts, t), x)
    ensures Covered(InsertRule(ts, t), t)
  {
    var r := InsertRule(ts, t);
    forall x | Covered(ts, x)
      ensures Covered(r, x)
    {
      var u :| u in ts && CompareRules(u, x) == 0;
      assert u in r;
    }
    if !Covered(ts, t) {
      assert t in r && CompareRules(t, t) == 0;
    }
  }

  // ---------------------------------------------------------------------
  // computePossibleTransformations

  /** The rule table turns original into replacement, and original occurs in the word at index. */
  predicate Possible(word: string, rules: map<string, set<string>>, t: Transformation)
  {
    t.original in rules && t.replacement in rules[t.original] && OccursAt(word, t.original, t.index)
  }

  /**
   * computePossibleTransformations: for every rule key, every occurrence in
   * the word, found again from one past the previous one so that overlapping
   * occurrences count, and every replacement of that key, is added to the
   * sorted set. The keys and the replacements are visited in no fixed order.
   */
  method ComputePossibleTransformations(word: string, rules: map<string, set<string>>) returns (ts: seq<Transformation>)
    requires forall o :: o in rules ==> o != []
    ensures SortedRules(ts)
    ensures forall t :: t in ts ==> Possible(word, rules, t)
    ensures forall t :: Possible(word, rules, t) ==> Covered(ts, t)
  {
    ts := [];
    var keys := rules.Keys;
    while keys != {}
      invariant keys <= rules.Keys
      invariant SortedRules(ts)
      invariant forall t :: t in ts ==> Possible(word, rules, t)
      invariant forall t :: Possible(word, rules, t) && t.original !in keys ==> Covered(ts, t)
      decreases keys
    {
      var ocrErr :| ocrErr in keys;
      keys := keys - {ocrErr};
      var i := 0;
      var n := IndexOf(word, ocrErr, i);
      while n != -1
        invariant i <= |word| && n == IndexOf(word, ocrErr, i)
        invariant SortedRules(ts)
        invariant forall t :: t in ts ==> Possible(word, rules, t)
        invariant forall t :: Possible(word, rules, t) && t.original !in keys && t.original != ocrErr ==> Covered(ts, t)
        invariant forall t :: Possible(word, rules, t) && t.original == ocrErr && t.index < i ==> Covered(ts, t)
        decreases |word| - i
      {
        var replacements := rules[ocrErr];
        while replacements != {}
          invariant replacements <= rules[ocrErr]
          invariant SortedRules(ts)
          invariant forall t :: t in ts ==> Possible(word, rules, t)
          invariant forall t :: Possible(word, rules, t) && t.original !in keys && t.original != ocrErr ==> Covered(ts, t)
          invariant forall t :: Possible(word, rules, t) && t.original == ocrErr && t.index < i ==> Covered(ts, t)
          invariant forall r :: r in rules[ocrErr] && r !in replacements ==> Covered(ts, Transformation(ocrErr, r, n))
          decreases replacements
        {
          var replacement :| replacement in replacements;
          replacements := replacements - {replacement};
          var t := Transformation(ocrErr, replacement, n);
          InsertRuleSorted(ts, t);
          InsertRuleCovers(ts, t);
          ts := InsertRule(ts, t);
        }
        i := n + 1;
        n := IndexOf(word, ocrErr, i);
      }
    }
  }

  /**
   * For a word of at most 128 characters every index is inside the box
   * cache, so the set holds exactly the possible transformations.
   */
  lemma PossibleExact(word: string, rules: map<string, set<string>>, ts: seq<Transformation>)
    requires |word| <= 128 && forall o :: o in rules ==> o != []
    requires forall t :: t in ts ==> Possible(word, rules, t)
    requires forall t :: Possible(word, rules, t) ==> Covered(ts, t)
    ensures forall t :: t in ts <==> Possible(word, rules, t)
  {
    forall t | Possible(word, rules, t)
      ensures t in ts
    {
      var u :| u in ts && CompareRules(u, t) == 0;
      assert SameBox(u.index, t.index);
    }
  }

  /** The transformations fit the word and run in index order. */
  lemma PossibleFits(word: string, rules: map<string, set<string>>, ts: seq<Transformation>)
    requires SortedRules(ts) && forall t :: t in ts ==> Possible(word, rules, t)
    ensures Fits(word, ts)
    ensures forall i, j :: 0 <= i < j < |ts| ==> ts[i].index <= ts[j].index
  {
    forall i | 0 <= i < |ts|
      ensures 0 <= ts[i].index && SpanEnd(ts[i]) <= |word|
    {
      assert ts[i] in ts;
    }
  }

  /** What computePossibleTransformations promises of its result ts for word and the rule table. */
  ghost predicate PossibleSet(word: string, rules: map<string, set<string>>, ts: seq<Transformation>)
  {
    SortedRules(ts) &&
    (forall t :: t in ts ==> Possible(word, rules, t)) &&
    (forall t :: Possible(word, rules, t) ==> Covered(ts, t))
  }

  /** A sorted set holds no element twice: its first element is not in the rest. */
  lemma SortedHeadNotInTail(a: seq<Transformation>)
    requires SortedRules(a) && a != []
    ensures a[0] !in a[1..]
  {
    forall k | 1 <= k < |a|
      ensures a[k] != a[0]
    {
      assert CompareRules(a[0], a[k]) < 0;
    }
  }

  /** Two sorted sets that hold each other's first element start with the same element. */
  lemma SortedHeads(a: seq<Transformation>, b: seq<Transformation>)
    requires SortedRules(a) && SortedRules(b) && a != [] && b != []
    requires a[0] in b && b[0] in a
    ensures a[0] == b[0]
  {
    var j :| 0 <= j < |b| && b[j] == a[0];
    var i :| 0 <= i < |a| && a[i] == b[0];
    CompareRulesAntisymmetric(a[0], b[0]);
    assert i == 0 || j == 0;
  }

  /** Two sorted sets with the same elements are the same sequence. */
  lemma {:induction false} SortedSameElements(a: seq<Transformation>, b: seq<Transformation>)
    requires SortedRules(a) && SortedRules(b)
    requires forall t :: t in a <==> t in b
    ensures a == b
    decreases |a|
  {
    assert |b| > 0 ==> b[0] in b;
    if a != [] {
      assert a[0] in a;
      SortedHeads(a, b);
      SortedHeadNotInTail(a);
      SortedHeadNotInTail(b);
      forall t
        ensures t in a[1..] <==> t in b[1..]
      {
        assert t in a <==> t == a[0] || t in a[1..] by {
          assert a == [a[0]] + a[1..];
        }
        assert t in b <==> t == b[0] || t in b[1..] by {
          assert b == [b[0]] + b[1..];
        }
      }
      SortedSameElements(a[1..], b[1..]);
    }
  }

  /**
   * For a word of at most 128 characters the result is determined: any two
   * sequences meeting the promise for the same word and table are equal,
   * whatever order the keys and replacements were visited in.
   */
  lemma PossibleSetUnique(word: string, rules: map<string, set<string>>, ts1: seq<Transformation>, ts2: seq<Transformation>)
    requires |word| <= 128 && forall o :: o in rules ==> o != []
    requires PossibleSet(word, rules, ts1) && PossibleSet(word, rules, ts2)
    ensures ts1 == ts2
  {
    PossibleExact(word, rules, ts1);
    PossibleExact(word, rules, ts2);
    SortedSameElements(ts1, ts2);
  }

  // ---------------------------------------------------------------------
  // processDocument

  /** Cleaned tokens longer than this are split or dropped, never checked. */
  const MaxWordLength := 18

  /** What processDocument does with a cleaned word the dictionary does not know. */
  datatype Fate = Dropped | Split(parts: seq<string>) | Kept

  /**
   * The fate of w, given whether its generator returns any candidate: a
   * word longer than MaxWordLength is split when \W+ cuts it into two or
   * more parts and dropped otherwise; a word with candidates is kept; one
   * without is split in the same way, else dropped when it looks like a
   * proper name, else kept.
   */
  function FateOf(w: string, hasCandidates: bool): Fate
  {
    var parts := SplitNonWord(w);
    if |w| > MaxWordLength then (if |parts| > 1 then Split(parts) else Dropped)
    else if hasCandidates then Kept
    else if |parts| > 1 then Split(parts)
    else if IsProperName(w) then Dropped
    else Kept
  }

  /**
   * A kept word is short enough to check and, without candidates, neither
   * splits nor looks like a proper name; the parts of a split word are its
   * \W+ parts, two or more, holding fewer characters than the word; a word
   * too long to check meets the same fate with or without candidates.
   */
  lemma FateFacts(w: string, hasCandidates: bool)
    ensures var fate := FateOf(w, hasCandidates);
            (fate.Kept? ==> |w| <= MaxWordLength && (!hasCandidates ==> |SplitNonWord(w)| <= 1 && !IsProperName(w))) &&
            (fate.Split? ==> fate.parts == SplitNonWord(w) && |fate.parts| > 1 && TotalLength(fate.parts) < |w|) &&
            (|w| > MaxWordLength ==> fate == FateOf(w, !hasCandidates))
  {
    if FateOf(w, hasCandidates).Split? {
      SplitShorter(w);
    }
  }

  /** The effect of a fate: only a kept word is recorded, and a split word's parts go to the tail of the queue. */
  predicate Settles(fate: Fate, recorded: bool, queue0: seq<string>, queue: seq<string>)
  {
    (recorded <==> fate.Kept?) && queue == queue0 + (if fate.Split? then fate.parts else [])
  }

  /**
   * A cleaned word w the dictionary does not know meets its fate, with
   * candidates when the generator over the transformations the rule table
   * yields for w returns some; for a word short enough to check those
   * transformations are determined (PossibleSetUnique). The outcome is
   * None when nothing is recorded, and otherwise holds the recorded
   * suggestions as candidates: the first candidate of each distance.
   */
  ghost predicate Disposed(w: string, rules: map<string, set<string>>, isCorrect: string -> bool,
                           outcome: Option<set<Candidate>>, queue0: seq<string>, queue: seq<string>)
  {
    exists ts :: PossibleSet(w, rules, ts) && Fits(w, ts) &&
                 var candidates := CandidatesFor(w, ts, ValidSuggestion(isCorrect));
                 Settles(FateOf(w, candidates != []), outcome.Some?, queue0, queue) &&
                 (outcome.Some? ==> outcome.value == Elements(FirstByDistance(w, candidates)))
  }

  /** What a turn recorded: nothing, or a misspelling with these suggestions, as candidates. */
  ghost function OutcomeOf(recorded: Misspelling?): Option<set<Candidate>>
    reads recorded
  {
    if recorded == null then None else Some(AsCandidates(recorded.suggestions))
  }

  /**
   * processDocument's turn for a token: a token that cleans to nothing, a
   * word already cached and a dictionary word record nothing and leave the
   * queue alone; any other word meets its fate.
   */
  ghost predicate Decides(token: string, cached: set<string>, rules: map<string, set<string>>, isCorrect: string -> bool,
                          outcome: Option<set<Candidate>>, queue0: seq<string>, queue: seq<string>)
  {
    var w := CleanToken(token);
    if w == [] || w in cached || isCorrect(NormalizeToken(w)) then outcome.None? && queue == queue0
    else Disposed(w, rules, isCorrect, outcome, queue0, queue)
  }

  /** A turn leaves the queue alone or appends the \W+ parts, two or more, of the cleaned token. */
  lemma DecidesQueue(token: string, cached: set<string>, rules: map<string, set<string>>, isCorrect: string -> bool,
                     outcome: Option<set<Candidate>>, queue0: seq<string>, queue: seq<string>)
    requires Decides(token, cached, rules, isCorrect, outcome, queue0, queue)
    ensures queue == queue0 ||
            (outcome.None? && |SplitNonWord(CleanToken(token))| > 1 && queue == queue0 + SplitNonWord(CleanToken(token)))
  {
    var w := CleanToken(token);
    if !(w == [] || w in cached || isCorrect(NormalizeToken(w))) {
      var ts :| PossibleSet(w, rules, ts) && Fits(w, ts) &&
                Settles(FateOf(w, CandidatesFor(w, ts, ValidSuggestion(isCorrect)) != []), outcome.Some?, queue0, queue);
      if queue != queue0 {
        FateFacts(w, CandidatesFor(w, ts, ValidSuggestion(isCorrect)) != []);
      }
    }
  }

  /**
   * What the pipeline promises of a misspelling it records: a cleaned token
   * of at most MaxWordLength characters that the dictionary does not know,
   * its suggestions ranked and each a dictionary word scored with its edit
   * distance to the token; a token with no suggestion is one that neither
   * splits into parts nor looks like a proper name.
   */
  ghost predicate Recorded(m: Misspelling, isCorrect: string -> bool)
    reads m, m.suggestions, ScoresOf(m.suggestions)
  {
    var w := m.word.value;
    0 < |w| <= MaxWordLength && IsAlnum(w[0]) && IsAlnum(w[|w| - 1]) &&
    !isCorrect(NormalizeToken(w)) &&
    Ranked(m, isCorrect) &&
    (m.suggestions == [] ==> |SplitNonWord(w)| <= 1 && !IsProperName(w))
  }

  /**
   * The misspelling's suggestions are ranked, and each is a word the
   * predicate accepts, scored with its edit distance to the misspelled text.
   */
  ghost predicate Ranked(m: Misspelling, isCorrect: string -> bool)
    reads m, m.suggestions, ScoresOf(m.suggestions)
  {
    m.Valid() && AllEvaluated(m.suggestions, m.word.value, isCorrect)
  }

  /** The suggestion is a word the predicate accepts, scored with its edit distance to word. */
  ghost predicate Evaluated(s: Suggestion, word: string, isCorrect: string -> bool)
    reads s, s.score
  {
    Scored(s) && Lev(s) == EditDistance(word, s.text) && Accepts(ValidSuggestion(isCorrect), word, s.text)
  }

  ghost predicate AllEvaluated(ss: seq<Suggestion>, word: string, isCorrect: string -> bool)
    reads ss, ScoresOf(ss)
  {
    forall i :: 0 <= i < |ss| ==> Evaluated(ss[i], word, isCorrect)
  }

  lemma InsertEvaluated(ss: seq<Suggestion>, i: nat, s: Suggestion, word: string, isCorrect: string -> bool)
    requires i <= |ss| && AllEvaluated(ss, word, isCorrect) && Evaluated(s, word, isCorrect)
    ensures AllEvaluated(ss[..i] + [s] + ss[i..], word, isCorrect)
  {
    var r := ss[..i] + [s] + ss[i..];
    forall k | 0 <= k < |r|
      ensures Evaluated(r[k], word, isCorrect)
    {
      if k < i {
        assert r[k] == ss[k];
      } else if k > i {
        assert r[k] == ss[k - 1];
      }
    }
  }

  /**
   * The edit distances of the suggestions' texts to word; for a ranked
   * misspelling these are the distances its suggestions are scored with.
   */
  function Distances(word: string, ss: seq<Suggestion>): set<int>
  {
    set i | 0 <= i < |ss| :: EditDistance(word, ss[i].text)
  }

  /** The edit distances of the candidates' texts to word. */
  function TextDistances(word: string, cs: seq<Candidate>): set<int>
  {
    set i | 0 <= i < |cs| :: EditDistance(word, cs[i].text)
  }

  lemma TextDistancesAppend(word: string, cs: seq<Candidate>, c: Candidate)
    ensures TextDistances(word, cs + [c]) == TextDistances(word, cs) + {EditDistance(word, c.text)}
  {
    var r := cs + [c];
    assert r[|cs|] == c;
    forall i | 0 <= i < |cs|
      ensures r[i] == cs[i]
    {
    }
  }

  /** A suggestion inserted into the list keeps the others and adds its distance to the list's distances. */
  lemma DistancesInsert(word: string, ss: seq<Suggestion>, i: nat, s: Suggestion)
    requires i <= |ss|
    ensures forall x :: x in ss ==> x in ss[..i] + [s] + ss[i..]
    ensures Distances(word, ss[..i] + [s] + ss[i..]) == Distances(word, ss) + {EditDistance(word, s.text)}
  {
    var r := ss[..i] + [s] + ss[i..];
    assert r[i] == s;
    forall k | 0 <= k < |r| && k != i
      ensures r[k] == ss[if k < i then k else k - 1]
    {
    }
    forall k | 0 <= k < |ss|
      ensures ss[k] == r[if k < i then k else k + 1]
    {
    }
  }

  /**
   * A suggestion the ascending list refuses as a tie has the distance of
   * one already there.
   */
  lemma TieDistance(ss: seq<Suggestion>, s: Suggestion, word: string, isCorrect: string -> bool)
    requires Ascending(ss) && AllEvaluated(ss, word, isCorrect)
    requires Scored(s) && Lev(s) == EditDistance(word, s.text)
    requires forall k :: 0 <= k < |ss| ==> ss[k].score != s.score
    requires exists k :: 0 <= k < |ss| && CompareSuggestions(ss[k], s) == 0
    ensures EditDistance(word, s.text) in Distances(word, ss)
  {
    TiesAreDuplicates(ss, s);
    var k :| 0 <= k < |ss| && Lev(ss[k]) == Lev(s);
    assert Evaluated(ss[k], word, isCorrect);
  }

  /** A suggestion the ascending list takes in has a distance none of its suggestions has. */
  lemma NewDistance(ss: seq<Suggestion>, s: Suggestion, word: string, isCorrect: string -> bool)
    requires Ascending(ss) && AllEvaluated(ss, word, isCorrect)
    requires Scored(s) && Lev(s) == EditDistance(word, s.text)
    requires forall k :: 0 <= k < |ss| ==> ss[k].score != s.score
    requires forall k :: 0 <= k < |ss| ==> CompareSuggestions(ss[k], s) != 0
    ensures EditDistance(word, s.text) !in Distances(word, ss)
  {
    TiesAreDuplicates(ss, s);
    forall k | 0 <= k < |ss|
      ensures EditDistance(word, ss[k].text) != EditDistance(word, s.text)
    {
      assert Evaluated(ss[k], word, isCorrect);
    }
  }

  /**
   * Where the ascending list puts a suggestion scored with a new Score: in
   * at its place when its distance is new, nowhere when it ties.
   */
  lemma Placed(ss0: seq<Suggestion>, ss: seq<Suggestion>, s: Suggestion, word: string, isCorrect: string -> bool, added: bool)
    requires Ascending(ss0) && AllEvaluated(ss0, word, isCorrect) && Evaluated(s, word, isCorrect)
    requires forall k :: 0 <= k < |ss0| ==> ss0[k].score != s.score
    requires added <==> forall k :: 0 <= k < |ss0| ==> CompareSuggestions(ss0[k], s) != 0
    requires !added ==> ss == ss0
    requires added ==> exists i :: 0 <= i <= |ss0| && ss == ss0[..i] + [s] + ss0[i..]
    ensures AllEvaluated(ss, word, isCorrect)
    ensures forall x :: x in ss0 ==> x in ss
    ensures Distances(word, ss) == Distances(word, ss0) + {EditDistance(word, s.text)}
    ensures EditDistance(word, s.text) in Distances(word, ss0) ==> ss == ss0
    ensures EditDistance(word, s.text) !in Distances(word, ss0) ==>
              exists i :: 0 <= i <= |ss0| && ss == ss0[..i] + [s] + ss0[i..]
  {
    if added {
      var i :| 0 <= i <= |ss0| && ss == ss0[..i] + [s] + ss0[i..];
      InsertEvaluated(ss0, i, s, word, isCorrect);
      DistancesInsert(word, ss0, i, s);
      NewDistance(ss0, s, word, isCorrect);
    } else {
      TieDistance(ss0, s, word, isCorrect);
    }
  }

  /** The suggestions as the candidates they were made from: text and transformations. */
  function AsCandidates(ss: seq<Suggestion>): set<Candidate>
  {
    set i | 0 <= i < |ss| :: Candidate(ss[i].text, ss[i].transformations)
  }

  function Elements(cs: seq<Candidate>): set<Candidate>
  {
    set c | c in cs
  }

  /** No candidate of cs before index i has the edit distance to word that cs[i] has. */
  predicate FirstOfDistance(word: string, cs: seq<Candidate>, i: int)
    requires 0 <= i < |cs|
  {
    forall j :: 0 <= j < i ==> EditDistance(word, cs[j].text) != EditDistance(word, cs[i].text)
  }

  /**
   * What a set ordered by edit distance keeps of the candidates offered to
   * it in the order cs: each candidate whose distance to word no earlier
   * one has, in the order offered.
   */
  function FirstByDistance(word: string, cs: seq<Candidate>): seq<Candidate>
    decreases |cs|
  {
    if cs == [] then []
    else
      var init := cs[..|cs| - 1];
      if EditDistance(word, cs[|cs| - 1].text) in TextDistances(word, init) then FirstByDistance(word, init)
      else FirstByDistance(word, init) + [cs[|cs| - 1]]
  }

  /** A candidate is kept exactly when it is the first of cs with its distance to word. */
  lemma {:induction false} FirstByDistanceMembers(word: string, cs: seq<Candidate>)
    ensures forall c :: c in FirstByDistance(word, cs) <==>
              exists i :: 0 <= i < |cs| && cs[i] == c && FirstOfDistance(word, cs, i)
  {
    if cs != [] {
      var init := cs[..|cs| - 1];
      var last := cs[|cs| - 1];
      var d := EditDistance(word, last.text);
      FirstByDistanceMembers(word, init);
      assert cs == init + [last];
      forall i | 0 <= i < |init|
        ensures cs[i] == init[i] && (FirstOfDistance(word, cs, i) <==> FirstOfDistance(word, init, i))
      {
      }
      if d in TextDistances(word, init) {
        var j :| 0 <= j < |init| && EditDistance(word, init[j].text) == d;
        assert !FirstOfDistance(word, cs, |cs| - 1) by {
          assert EditDistance(word, cs[j].text) == EditDistance(word, cs[|cs| - 1].text);
        }
      } else {
        assert FirstOfDistance(word, cs, |cs| - 1) by {
          forall j | 0 <= j < |cs| - 1
            ensures EditDistance(word, cs[j].text) != d
          {
            assert cs[j] == init[j];
          }
        }
      }
    }
  }

  /** The kept candidates have, between them, every distance of cs. */
  lemma {:induction false} FirstByDistanceDistances(word: string, cs: seq<Candidate>)
    ensures TextDistances(word, FirstByDistance(word, cs)) == TextDistances(word, cs)
  {
    if cs != [] {
      var init := cs[..|cs| - 1];
      var last := cs[|cs| - 1];
      FirstByDistanceDistances(word, init);
      assert cs == init + [last];
      TextDistancesAppend(word, init, last);
      if EditDistance(word, last.text) !in TextDistances(word, init) {
        TextDistancesAppend(word, FirstByDistance(word, init), last);
      }
    }
  }

  /** No two kept candidates have the same distance to word. */
  lemma {:induction false} FirstByDistanceDistinct(word: string, cs: seq<Candidate>)
    ensures var f := FirstByDistance(word, cs);
            forall i, j :: 0 <= i < j < |f| ==> EditDistance(word, f[i].text) != EditDistance(word, f[j].text)
  {
    if cs != [] {
      var init := cs[..|cs| - 1];
      var last := cs[|cs| - 1];
      FirstByDistanceDistinct(word, init);
      var f0 := FirstByDistance(word, init);
      if EditDistance(word, last.text) !in TextDistances(word, init) {
        FirstByDistanceDistances(word, init);
        var f := f0 + [last];
        assert FirstByDistance(word, cs) == f;
        forall i, j | 0 <= i < j < |f|
          ensures EditDistance(word, f[i].text) != EditDistance(word, f[j].text)
        {
          assert f[i] == f0[i];
          if j == |f0| {
            assert EditDistance(word, f0[i].text) in TextDistances(word, f0);
          } else {
            assert f[j] == f0[j];
          }
        }
      } else {
        assert FirstByDistance(word, cs) == f0;
      }
    }
  }

  /** Suggestions holding the first candidate of each distance have, between them, every distance of the candidates. */
  lemma KeptDistances(word: string, ss: seq<Suggestion>, cs: seq<Candidate>)
    requires AsCandidates(ss) == Elements(FirstByDistance(word, cs))
    ensures Distances(word, ss) == TextDistances(word, cs)
  {
    FirstByDistanceMembers(word, cs);
    FirstByDistanceDistances(word, cs);
    var f := FirstByDistance(word, cs);
    forall d | d in Distances(word, ss)
      ensures d in TextDistances(word, cs)
    {
      var i :| 0 <= i < |ss| && EditDistance(word, ss[i].text) == d;
      var c := Candidate(ss[i].text, ss[i].transformations);
      assert c in Elements(f);
      var k :| 0 <= k < |f| && f[k] == c;
    }
    forall d | d in TextDistances(word, cs)
      ensures d in Distances(word, ss)
    {
      var k :| 0 <= k < |f| && EditDistance(word, f[k].text) == d;
      assert f[k] in AsCandidates(ss);
      var i :| 0 <= i < |ss| && Candidate(ss[i].text, ss[i].transformations) == f[k];
    }
  }

  lemma AsCandidatesInsert(ss: seq<Suggestion>, i: nat, s: Suggestion)
    requires i <= |ss|
    ensures AsCandidates(ss[..i] + [s] + ss[i..]) == AsCandidates(ss) + {Candidate(s.text, s.transformations)}
  {
    var r := ss[..i] + [s] + ss[i..];
    assert r[i] == s;
    forall k | 0 <= k < |r| && k != i
      ensures r[k] == ss[if k < i then k else k - 1]
    {
    }
    forall k | 0 <= k < |ss|
      ensures ss[k] == r[if k < i then k else k + 1]
    {
    }
  }

  /**
   * Offering the next candidate to a set that holds the first candidate of
   * each distance offered so far keeps it so: a new distance inserts the
   * suggestion, a tie leaves the set as it was.
   */
  lemma KeepFirst(word: string, ss0: seq<Suggestion>, ss: seq<Suggestion>, s: Suggestion, consumed: seq<Candidate>)
    requires AsCandidates(ss0) == Elements(FirstByDistance(word, consumed))
    requires Distances(word, ss0) == TextDistances(word, consumed)
    requires EditDistance(word, s.text) in Distances(word, ss0) ==> ss == ss0
    requires EditDistance(word, s.text) !in Distances(word, ss0) ==>
               exists i :: 0 <= i <= |ss0| && ss == ss0[..i] + [s] + ss0[i..]
    ensures AsCandidates(ss) == Elements(FirstByDistance(word, consumed + [Candidate(s.text, s.transformations)]))
  {
    var c := Candidate(s.text, s.transformations);
    var cs := consumed + [c];
    assert cs[..|cs| - 1] == consumed;
    var f0 := FirstByDistance(word, consumed);
    if EditDistance(word, s.text) !in Distances(word, ss0) {
      var i :| 0 <= i <= |ss0| && ss == ss0[..i] + [s] + ss0[i..];
      AsCandidatesInsert(ss0, i, s);
      assert FirstByDistance(word, cs) == f0 + [c];
      assert Elements(f0 + [c]) == Elements(f0) + {c};
    }
  }

  /** The static CACHE: the cleaned tokens already looked at, shared by every OCRCheck of a run. */
  class TokenCache {
    var tokens: set<string>

    constructor ()
      ensures tokens == {}
    {
      tokens := {};
    }
  }

  /**
   * The document's misspellings and the token cache after processing,
   * against before: old misspellings keep their counts, the cache only
   * grows, and each new misspelling is counted once, under a word newly
   * cached.
   */
  ghost predicate Extends(counts0: map<Misspelling, nat>, tokens0: set<string>,
                          counts: map<Misspelling, nat>, tokens: set<string>)
  {
    tokens0 <= tokens &&
    (forall k :: k in counts0 ==> k in counts && counts[k] == counts0[k]) &&
    (forall k :: k in counts && k !in counts0 ==> counts[k] == 1 && k.word.value in tokens - tokens0)
  }

  /** One turn that leaves the document alone, or records one new misspelling, keeps Extends. */
  lemma ExtendsStep(counts0: map<Misspelling, nat>, tokens0: set<string>,
                    counts1: map<Misspelling, nat>, tokens1: set<string>,
                    counts2: map<Misspelling, nat>, tokens2: set<string>, recorded: Misspelling?)
    requires Extends(counts0, tokens0, counts1, tokens1) && tokens1 <= tokens2
    requires recorded == null ==> counts2 == counts1
    requires recorded != null ==>
               recorded !in counts1 && counts2 == counts1[recorded := 1] && recorded.word.value in tokens2 - tokens1
    ensures Extends(counts0, tokens0, counts2, tokens2)
  {
  }

  /**
   * The token the head of processDocument's loop reads from the pending
   * tokens, and the tokens left: the first one trimmed, joined without its
   * trailing hyphen to the next one, trimmed, when there is one.
   */
  function ReadResult(pending: seq<string>): (string, seq<string>)
    requires pending != []
  {
    var t := Trim(pending[0]);
    if !EndsWithHyphen(t) then (t, pending[1..])
    else if |pending| == 1 then (t, [])
    else (t[..|t| - 1] + Trim(pending[1]), pending[2..])
  }

  /**
   * The same read on the token stream: the pending tokens are taken from
   * its front first; when a hyphen-ended token is the last one, the second
   * hasNext reports end of data.
   */
  function ReadStream(s: Stream<string>): (string, Stream<string>)
    requires s.Pending() != []
  {
    var t := Trim(s.Pending()[0]);
    var s1 := s.Pop();
    if !EndsWithHyphen(t) then (t, s1)
    else if s1.Pending() == [] then (t, s1.(live := false))
    else (t[..|t| - 1] + Trim(s1.Pending()[0]), s1.Pop())
  }

  /** Reading the stream returns the token ReadResult reads from its pending tokens and leaves the tokens ReadResult leaves. */
  lemma ReadStreamPending(s: Stream<string>)
    requires s.Pending() != []
    ensures ReadStream(s).0 == ReadResult(s.Pending()).0
    ensures ReadStream(s).1.Pending() == ReadResult(s.Pending()).1
  {
    var pending := s.Pending();
    if |pending| > 1 {
      assert pending[1..][1..] == pending[2..];
    }
  }

  /** Reading consumes at least one token and at least as many characters as it returns. */
  lemma ReadShrinks(pending: seq<string>)
    requires pending != []
    ensures |ReadResult(pending).1| < |pending|
    ensures TotalLength(ReadResult(pending).1) + |ReadResult(pending).0| <= TotalLength(pending)
  {
    if |pending| > 1 {
      assert pending[1..][1..] == pending[2..];
    }
  }

  /** Pushing back parts shorter than the token just read still leaves fewer characters pending. */
  lemma PushShrinks(pending: seq<string>, token: string, queue: seq<string>, parts: seq<string>, wrapped: seq<string>)
    requires TotalLength(queue + wrapped) + |token| <= TotalLength(pending)
    requires |SplitNonWord(CleanToken(token))| > 1 && parts == SplitNonWord(CleanToken(token))
    ensures Shrinks(pending, queue + parts + wrapped)
  {
    PushedLength(queue, parts, wrapped);
    SplitShorter(CleanToken(token));
  }

  /** The pending tokens after a turn hold fewer characters, or as many in fewer tokens. */
  ghost predicate Shrinks(before: seq<string>, after: seq<string>)
  {
    TotalLength(after) < TotalLength(before) ||
    (TotalLength(after) == TotalLength(before) && |after| < |before|)
  }

  lemma PushedLength(queue: seq<string>, parts: seq<string>, wrapped: seq<string>)
    ensures TotalLength(queue + parts + wrapped) == TotalLength(queue + wrapped) + TotalLength(parts)
  {
    TotalLengthAppend(queue + parts, wrapped);
    TotalLengthAppend(queue, parts);
    TotalLengthAppend(queue, wrapped);
  }

  /** The token stream and the cache between two turns of processDocument's loop. */
  datatype Config = Config(stream: Stream<string>, cached: set<string>)

  /**
   * One turn of processDocument's loop from c to c2: a token is read from
   * the stream, its cleaned form is cached, and it is decided with the
   * stream's front as reading left it, pushed-back parts going to the end
   * of the front, before the document's own tokens.
   */
  ghost predicate Turn(c: Config, rules: map<string, set<string>>, isCorrect: string -> bool,
                       outcome: Option<set<Candidate>>, c2: Config)
  {
    c.stream.Pending() != [] &&
    var (token, s1) := ReadStream(c.stream);
    var w := CleanToken(token);
    c2.stream.wrapped == s1.wrapped && c2.stream.live == s1.live &&
    c2.cached == c.cached + (if w == [] then {} else {w}) &&
    Decides(token, c.cached, rules, isCorrect, outcome, s1.front, c2.stream.front)
  }

  /** Reading a token and deciding it, as two halves, make one turn. */
  lemma TurnOfHalves(c: Config, rules: map<string, set<string>>, isCorrect: string -> bool,
                     outcome: Option<set<Candidate>>, token: string, s1: Stream<string>, c2: Config)
    requires c.stream.Pending() != [] && (token, s1) == ReadStream(c.stream)
    requires c2.stream.wrapped == s1.wrapped && c2.stream.live == s1.live
    requires c2.cached == c.cached + (if CleanToken(token) == [] then {} else {CleanToken(token)})
    requires Decides(token, c.cached, rules, isCorrect, outcome, s1.front, c2.stream.front)
    ensures Turn(c, rules, isCorrect, outcome, c2)
  {
  }

  /**
   * A chain of steps: configs[i] is the config before step i, outcomes[i]
   * what step i produced, and turn relates each config to the next.
   */
  ghost predicate Chain(configs: seq<Config>, outcomes: seq<Option<set<Candidate>>>,
                        turn: (Config, Option<set<Candidate>>, Config) -> bool)
  {
    |configs| == |outcomes| + 1 &&
    forall i {:trigger turn(configs[i], outcomes[i], configs[i + 1])} ::
      0 <= i < |outcomes| ==> turn(configs[i], outcomes[i], configs[i + 1])
  }

  /** A chain followed by one more step from its last config is a chain. */
  lemma ChainExtend(configs: seq<Config>, outcomes: seq<Option<set<Candidate>>>,
                    turn: (Config, Option<set<Candidate>>, Config) -> bool,
                    outcome: Option<set<Candidate>>, c: Config)
    requires Chain(configs, outcomes, turn)
    requires turn(configs[|configs| - 1], outcome, c)
    ensures Chain(configs + [c], outcomes + [outcome], turn)
  {
    var cs, os := configs + [c], outcomes + [outcome];
    forall i | 0 <= i < |os|
      ensures turn(cs[i], os[i], cs[i + 1])
    {
      if i < |outcomes| {
        assert cs[i] == configs[i] && cs[i + 1] == configs[i + 1] && os[i] == outcomes[i];
      }
    }
  }

  /** The turns of processDocument's loop under the given rules and dictionary. */
  ghost function Turns(rules: map<string, set<string>>, isCorrect: string -> bool): (Config, Option<set<Candidate>>, Config) -> bool
  {
    (c: Config, outcome: Option<set<Candidate>>, c2: Config) => Turn(c, rules, isCorrect, outcome, c2)
  }

  /**
   * A run of processDocument's loop: configs[i] is the stream and cache
   * before turn i, outcomes[i] what turn i recorded, and each turn leads
   * from one config to the next.
   */
  ghost predicate Run(configs: seq<Config>, outcomes: seq<Option<set<Candidate>>>,
                      rules: map<string, set<string>>, isCorrect: string -> bool)
  {
    Chain(configs, outcomes, Turns(rules, isCorrect))
  }

  /** A run followed by one more turn from its last config is a run. */
  lemma RunExtend(configs: seq<Config>, outcomes: seq<Option<set<Candidate>>>,
                  rules: map<string, set<string>>, isCorrect: string -> bool,
                  outcome: Option<set<Candidate>>, c: Config)
    requires Run(configs, outcomes, rules, isCorrect)
    requires Turn(configs[|configs| - 1], rules, isCorrect, outcome, c)
    ensures Run(configs + [c], outcomes + [outcome], rules, isCorrect)
  {
    ChainExtend(configs, outcomes, Turns(rules, isCorrect), outcome, c);
  }

  /** The cleaned token a turn from c reads. */
  function TurnWord(c: Config): string
    requires c.stream.Pending() != []
  {
    CleanToken(ReadStream(c.stream).0)
  }

  /** The words a run records, each mapped to its suggestions as candidates. */
  ghost function Recordings(configs: seq<Config>, outcomes: seq<Option<set<Candidate>>>): map<string, set<Candidate>>
    requires |configs| == |outcomes| + 1
    decreases |outcomes|
  {
    if outcomes == [] then map[]
    else
      var n := |outcomes| - 1;
      var earlier := Recordings(configs[..n + 1], outcomes[..n]);
      if outcomes[n].Some? && configs[n].stream.Pending() != [] then earlier[TurnWord(configs[n]) := outcomes[n].value]
      else earlier
  }

  lemma RecordingsExtend(configs: seq<Config>, outcomes: seq<Option<set<Candidate>>>,
                         outcome: Option<set<Candidate>>, c: Config)
    requires |configs| == |outcomes| + 1 && configs[|outcomes|].stream.Pending() != []
    ensures Recordings(configs + [c], outcomes + [outcome]) ==
            if outcome.Some? then Recordings(configs, outcomes)[TurnWord(configs[|outcomes|]) := outcome.value]
            else Recordings(configs, outcomes)
  {
    var cs, os := configs + [c], outcomes + [outcome];
    assert cs[..|configs|] == configs && os[..|outcomes|] == outcomes;
  }

  /** The words of the misspellings counts holds beyond counts0. */
  function NewWords(counts0: map<Misspelling, nat>, counts: map<Misspelling, nat>): set<string>
  {
    set k | k in counts && k !in counts0 :: k.word.value
  }

  lemma NewWordsAdd(counts0: map<Misspelling, nat>, counts: map<Misspelling, nat>, m: Misspelling)
    requires m !in counts0
    ensures NewWords(counts0, counts[m := 1]) == NewWords(counts0, counts) + {m.word.value}
  {
  }

  /** Each misspelling of counts with its suggestions, as candidates. */
  ghost function Snap(counts: map<Misspelling, nat>): (r: map<Misspelling, set<Candidate>>)
    reads counts.Keys
    ensures r.Keys == counts.Keys
  {
    map k | k in counts :: AsCandidates(k.suggestions)
  }

  /** A snapshot whose misspellings still hold the suggestions it gives them is the current one. */
  lemma SnapSame(counts: map<Misspelling, nat>, snap: map<Misspelling, set<Candidate>>)
    requires snap.Keys == counts.Keys
    requires forall k :: k in counts ==> snap[k] == AsCandidates(k.suggestions)
    ensures Snap(counts) == snap
  {
  }

  /** Adding a misspelling to such a snapshot adds it with its suggestions. */
  lemma SnapAdd(counts: map<Misspelling, nat>, snap: map<Misspelling, set<Candidate>>, m: Misspelling)
    requires snap.Keys == counts.Keys
    requires forall k :: k in counts ==> snap[k] == AsCandidates(k.suggestions)
    ensures Snap(counts[m := 1]) == snap[m := AsCandidates(m.suggestions)]
  {
  }

  /**
   * configs and outcomes are a run, and the misspellings counts holds beyond
   * counts0 are one per word the run records, each with the suggestions
   * (given by snap) its turn recorded.
   */
  ghost predicate Traced(configs: seq<Config>, outcomes: seq<Option<set<Candidate>>>,
                         rules: map<string, set<string>>, isCorrect: string -> bool,
                         counts0: map<Misspelling, nat>, counts: map<Misspelling, nat>,
                         snap: map<Misspelling, set<Candidate>>)
  {
    Run(configs, outcomes, rules, isCorrect) &&
    Recordings(configs, outcomes).Keys == NewWords(counts0, counts) &&
    OnePerWord(counts0, counts) &&
    Stored(Recordings(configs, outcomes), counts0, counts, snap)
  }

  /** No two misspellings counts holds beyond counts0 have the same word. */
  predicate OnePerWord(counts0: map<Misspelling, nat>, counts: map<Misspelling, nat>)
  {
    forall a, b :: a in counts && b in counts && a !in counts0 && b !in counts0 && a.word.value == b.word.value ==> a == b
  }

  /** Each misspelling counts holds beyond counts0 has in snap what recordings gives its word. */
  ghost predicate Stored(recordings: map<string, set<Candidate>>, counts0: map<Misspelling, nat>, counts: map<Misspelling, nat>,
                         snap: map<Misspelling, set<Candidate>>)
  {
    forall k :: k in counts && k !in counts0 ==>
      k in snap && k.word.value in recordings && recordings[k.word.value] == snap[k]
  }

  /** A new misspelling of a word not yet recorded, stored with its suggestions, keeps the recordings stored. */
  lemma StoredAdd(recordings: map<string, set<Candidate>>, counts0: map<Misspelling, nat>, counts: map<Misspelling, nat>,
                  snap: map<Misspelling, set<Candidate>>, m: Misspelling, suggestions: set<Candidate>)
    requires Stored(recordings, counts0, counts, snap) && m !in counts0 && m.word.value !in recordings
    ensures Stored(recordings[m.word.value := suggestions], counts0, counts[m := 1], snap[m := suggestions])
  {
  }

  /** Adding a misspelling of a word none of the new misspellings has keeps one misspelling per word. */
  lemma OnePerWordAdd(counts0: map<Misspelling, nat>, counts: map<Misspelling, nat>, tokens: set<string>, m: Misspelling)
    requires OnePerWord(counts0, counts)
    requires forall k :: k in counts && k !in counts0 ==> k.word.value in tokens
    requires m.word.value !in tokens
    ensures OnePerWord(counts0, counts[m := 1])
  {
  }

  /** A turn of a run that records nothing, or records one new misspelling of its word, keeps the run traced. */
  lemma TraceExtend(configs: seq<Config>, outcomes: seq<Option<set<Candidate>>>,
                    rules: map<string, set<string>>, isCorrect: string -> bool,
                    counts0: map<Misspelling, nat>, counts: map<Misspelling, nat>, snap: map<Misspelling, set<Candidate>>,
                    counts2: map<Misspelling, nat>, snap2: map<Misspelling, set<Candidate>>,
                    tokens: set<string>, recorded: Misspelling?, outcome: Option<set<Candidate>>, c: Config)
    requires Traced(configs, outcomes, rules, isCorrect, counts0, counts, snap)
    requires Turn(configs[|configs| - 1], rules, isCorrect, outcome, c)
    requires outcome.Some? <==> recorded != null
    requires recorded == null ==> counts2 == counts && snap2 == snap
    requires recorded != null ==>
               recorded !in counts0 && counts2 == counts[recorded := 1] && snap2 == snap[recorded := outcome.value] &&
               recorded.word.value == TurnWord(configs[|configs| - 1])
    requires forall k :: k in counts && k !in counts0 ==> k.word.value in tokens
    requires recorded != null ==> recorded.word.value !in tokens
    ensures Traced(configs + [c], outcomes + [outcome], rules, isCorrect, counts0, counts2, snap2)
  {
    var recordings := Recordings(configs, outcomes);
    RunExtend(configs, outcomes, rules, isCorrect, outcome, c);
    RecordingsExtend(configs, outcomes, outcome, c);
    if recorded != null {
      NewWordsAdd(counts0, counts, recorded);
      OnePerWordAdd(counts0, counts, tokens, recorded);
      assert recorded.word.value !in recordings;
      StoredAdd(recordings, counts0, counts, snap, recorded, outcome.value);
    }
  }

  /**
   * OCRCheck: a document, the push-back stream of its tokens, the run-wide
   * cache, and the n-gram scorers (computeNGramScore times the scale factor)
   * of the two tables.
   */
  class OCRCheck {
    const document: OCRDocument
    const tokenIterator: PushBackIterator<string>
    const cache: TokenCache
    const bigramScore: string -> real
    const trigramScore: string -> real

    constructor (document: OCRDocument, tokens: seq<string>, cache: TokenCache,
                 bigramScore: string -> real, trigramScore: string -> real)
      ensures this.document == document && this.cache == cache
      ensures this.bigramScore == bigramScore && this.trigramScore == trigramScore
      ensures fresh(tokenIterator) && tokenIterator.Pending() == tokens && tokenIterator.state.NotReady?
    {
      this.document := document;
      this.cache := cache;
      this.bigramScore := bigramScore;
      this.trigramScore := trigramScore;
      tokenIterator := new PushBackIterator(tokens);
    }

    /** A new Score for the suggestion: both n-gram scores of its text and its edit distance to word. */
    method ScoreSuggestion(suggestion: Suggestion, word: string)
      modifies suggestion
      ensures Scored(suggestion) && Lev(suggestion) == EditDistance(word, suggestion.text)
      ensures fresh(suggestion.score)
      ensures suggestion.score.bigram == Some(bigramScore(suggestion.text))
      ensures suggestion.score.trigram == Some(trigramScore(suggestion.text))
    {
      var text := suggestion.text;
      var levenshteinScore := Distance(word, text);
      var score := new Score();
      score.SetBigramScore(Some(bigramScore(text)));
      score.SetTrigramScore(Some(trigramScore(text)));
      score.SetLevenshteinScore(Some(levenshteinScore));
      suggestion.SetScore(score);
    }

    /**
     * The for-each loop's next(): the iterator's next suggestion, which
     * belongs to m, is not yet among its suggestions and is accepted; m is
     * left as it was.
     */
    method NextSuggestion(it: CandidateIterator, m: Misspelling, ghost isCorrect: string -> bool) returns (r: Option<Suggestion>)
      requires it.Valid() && it.misspelling == m && Ranked(m, isCorrect)
      requires it.filter.kind == ValidSuggestion(isCorrect)
      modifies it, it.subsets, it.filter
      ensures it.Valid() && Ranked(m, isCorrect)
      ensures r.None? ==> old(it.Emitted()) == []
      ensures r.Some? ==> fresh(r.value) && old(it.Emitted()) == [Candidate(r.value.text, r.value.transformations)] + it.Emitted() &&
                          r.value.misspelling == m && r.value !in m.suggestions &&
                          Accepts(ValidSuggestion(isCorrect), m.word.value, r.value.text)
    {
      ghost var ss := m.suggestions;
      ghost var scores := ScoresOf(ss);
      r := it.ComputeNext();
      assert ScoresOf(ss) == scores;
      assert m.Valid();
      assert AllEvaluated(ss, m.word.value, isCorrect);
    }

    /**
     * One turn of the suggestions loop: the suggestion is scored with its
     * edit distance and added to the misspelling's set, which keeps what it
     * held; the set's distances gain the suggestion's, whether it went in or
     * tied with a suggestion already there.
     */
    method Offer(m: Misspelling, suggestion: Suggestion, ghost isCorrect: string -> bool)
      requires Ranked(m, isCorrect) && suggestion.misspelling == m && suggestion !in m.suggestions
      requires Accepts(ValidSuggestion(isCorrect), m.word.value, suggestion.text)
      modifies m, suggestion
      ensures Ranked(m, isCorrect)
      ensures forall s :: s in old(m.suggestions) ==> s in m.suggestions
      ensures Distances(m.word.value, m.suggestions) ==
              Distances(m.word.value, old(m.suggestions)) + {EditDistance(m.word.value, suggestion.text)}
      ensures EditDistance(m.word.value, suggestion.text) in Distances(m.word.value, old(m.suggestions)) ==>
                m.suggestions == old(m.suggestions)
      ensures EditDistance(m.word.value, suggestion.text) !in Distances(m.word.value, old(m.suggestions)) ==>
                exists i :: 0 <= i <= |old(m.suggestions)| &&
                            m.suggestions == old(m.suggestions)[..i] + [suggestion] + old(m.suggestions)[i..]
    {
      ScoreSuggestion(suggestion, m.word.value);
      AddScored(m, suggestion, isCorrect);
    }

    /**
     * misspelling.addSuggestion for a suggestion scored with a new Score:
     * it goes in at its place unless a suggestion of the same distance is
     * there already.
     */
    method AddScored(m: Misspelling, suggestion: Suggestion, ghost isCorrect: string -> bool)
      requires Ranked(m, isCorrect) && suggestion.misspelling == m
      requires Evaluated(suggestion, m.word.value, isCorrect)
      requires forall k :: 0 <= k < |m.suggestions| ==> m.suggestions[k].score != suggestion.score
      modifies m
      ensures Ranked(m, isCorrect)
      ensures forall s :: s in old(m.suggestions) ==> s in m.suggestions
      ensures Distances(m.word.value, m.suggestions) ==
              Distances(m.word.value, old(m.suggestions)) + {EditDistance(m.word.value, suggestion.text)}
      ensures EditDistance(m.word.value, suggestion.text) in Distances(m.word.value, old(m.suggestions)) ==>
                m.suggestions == old(m.suggestions)
      ensures EditDistance(m.word.value, suggestion.text) !in Distances(m.word.value, old(m.suggestions)) ==>
                exists i :: 0 <= i <= |old(m.suggestions)| &&
                            m.suggestions == old(m.suggestions)[..i] + [suggestion] + old(m.suggestions)[i..]
    {
      var word := m.word.value;
      ghost var previous := m.suggestions;
      var added := m.AddSuggestion(suggestion);
      Placed(previous, m.suggestions, suggestion, word, isCorrect, added == Success(true));
    }

    /**
     * The suggestions loop of processDocument: every suggestion a fresh
     * iterator returns is scored and offered to the misspelling.
     */
    method RankSuggestions(m: Misspelling, it: CandidateIterator, ghost isCorrect: string -> bool)
      requires it.Valid() && it.misspelling == m && m.Valid() && m.suggestions == []
      requires it.filter.kind == ValidSuggestion(isCorrect)
      modifies m, it, it.subsets, it.filter
      ensures Ranked(m, isCorrect)
      ensures m.suggestions == [] <==> old(it.Emitted()) == []
      ensures Distances(m.word.value, m.suggestions) == TextDistances(m.word.value, old(it.Emitted()))
      ensures AsCandidates(m.suggestions) == Elements(FirstByDistance(m.word.value, old(it.Emitted())))
    {
      var word := m.word.value;
      ghost var emitted0 := it.Emitted();
      ghost var consumed: seq<Candidate> := [];
      while true
        invariant it.Valid() && it.misspelling == m && Ranked(m, isCorrect)
        invariant m.suggestions == [] ==> it.Emitted() == emitted0
        invariant emitted0 == [] ==> m.suggestions == [] && it.Emitted() == []
        invariant emitted0 == consumed + it.Emitted()
        invariant Distances(word, m.suggestions) == TextDistances(word, consumed)
        invariant AsCandidates(m.suggestions) == Elements(FirstByDistance(word, consumed))
        decreases |it.Emitted()|
      {
        ghost var rest := it.Emitted();
        var next := NextSuggestion(it, m, isCorrect);
        if next.None? {
          assert emitted0 == consumed;
          break;
        }
        var suggestion := next.value;
        ghost var c := Candidate(suggestion.text, suggestion.transformations);
        ghost var before := m.suggestions;
        Offer(m, suggestion, isCorrect);
        KeepFirst(word, before, m.suggestions, suggestion, consumed);
        Consume(emitted0, consumed, rest, c, it.Emitted());
        TextDistancesAppend(word, consumed, c);
        consumed := consumed + [c];
      }
    }

    lemma Consume(emitted0: seq<Candidate>, consumed: seq<Candidate>, rest: seq<Candidate>, c: Candidate, after: seq<Candidate>)
      requires emitted0 == consumed + rest && rest == [c] + after
      ensures emitted0 == (consumed + [c]) + after
    {
    }

    /**
     * The body of processDocument's loop, from a (joined) token: junk and
     * tokens already looked at are skipped; the cleaned token is cached; a
     * dictionary word ends there; any other word goes on to CheckMisspelling.
     */
    method ProcessToken(token: string, filter: SuggestionFilter, isCorrect: string -> bool,
                        rules: map<string, set<string>>) returns (recorded: Misspelling?)
      requires document.Valid() && forall o :: o in rules ==> o != []
      requires filter.kind == ValidSuggestion(isCorrect)
      modifies tokenIterator, document, cache, filter
      ensures document.Valid()
      ensures tokenIterator.wrapped == old(tokenIterator.wrapped) && tokenIterator.state == old(tokenIterator.state)
      ensures cache.tokens == old(cache.tokens) + (if CleanToken(token) == [] then {} else {CleanToken(token)})
      ensures Decides(token, old(cache.tokens), rules, isCorrect, OutcomeOf(recorded), old(tokenIterator.queue), tokenIterator.queue)
      ensures recorded == null ==> document.counts == old(document.counts)
      ensures recorded != null ==>
                fresh(recorded) && document.counts == old(document.counts)[recorded := 1] &&
                recorded.word.value == CleanToken(token) && recorded.word.value !in old(cache.tokens) &&
                Recorded(recorded, isCorrect)
      ensures recorded == null ==> Snap(document.counts) == old(Snap(document.counts))
      ensures recorded != null ==> Snap(document.counts) == old(Snap(document.counts))[recorded := AsCandidates(recorded.suggestions)]
    {
      ghost var counts, snap := document.counts, Snap(document.counts);
      var cleanedToken := CleanToken(token);
      var normWord := NormalizeToken(cleanedToken);
      if cleanedToken == [] {
        return null;
      }
      if cleanedToken in cache.tokens {
        return null;
      }
      cache.tokens := cache.tokens + {cleanedToken};
      var bigram := bigramScore(normWord);
      var trigram := trigramScore(normWord);
      if isCorrect(normWord) {
        return null;
      }
      recorded := CheckMisspelling(cleanedToken, bigram, trigram, filter, isCorrect, rules);
      assert forall k :: k in counts ==> snap[k] == AsCandidates(k.suggestions);
      if recorded == null {
        SnapSame(counts, snap);
      } else {
        SnapAdd(counts, snap, recorded);
      }
    }

    /**
     * A cleaned word that is not in the dictionary: a word too long to check
     * is split into its \W+ parts, which are pushed back, or dropped; a word
     * without candidates is split the same way, or dropped as a possible
     * proper name, or recorded without suggestions; any other word is
     * recorded with its ranked suggestions.
     */
    method CheckMisspelling(cleanedToken: string, bigram: real, trigram: real, filter: SuggestionFilter,
                            isCorrect: string -> bool, rules: map<string, set<string>>) returns (recorded: Misspelling?)
      requires document.Valid() && forall o :: o in rules ==> o != []
      requires filter.kind == ValidSuggestion(isCorrect)
      requires cleanedToken != [] && IsAlnum(cleanedToken[0]) && IsAlnum(cleanedToken[|cleanedToken| - 1])
      requires !isCorrect(NormalizeToken(cleanedToken))
      modifies tokenIterator, document, filter
      ensures document.Valid()
      ensures tokenIterator.wrapped == old(tokenIterator.wrapped) && tokenIterator.state == old(tokenIterator.state)
      ensures Disposed(cleanedToken, rules, isCorrect, OutcomeOf(recorded), old(tokenIterator.queue), tokenIterator.queue)
      ensures recorded == null ==> document.counts == old(document.counts)
      ensures recorded != null ==>
                fresh(recorded) && document.counts == old(document.counts)[recorded := 1] &&
                recorded.word.value == cleanedToken && Recorded(recorded, isCorrect)
    {
      filter.ResetCount();
      var word := new JString(cleanedToken);
      var misspelling := new Misspelling(word, bigram, trigram);
      var transformations := ComputePossibleTransformations(cleanedToken, rules);
      PossibleFits(cleanedToken, rules, transformations);
      var generator := new CandidateGenerator(misspelling, transformations, filter);
      forall k | k in document.counts
        ensures !k.Equals(misspelling)
      {
      }
      recorded := DecideMisspelling(misspelling, generator, isCorrect);
      assert PossibleSet(cleanedToken, rules, transformations);
    }

    /**
     * What becomes of a misspelling and its generator: a word too long to
     * check, or without candidates, is split and pushed back or dropped;
     * otherwise it is recorded.
     */
    method DecideMisspelling(misspelling: Misspelling, generator: CandidateGenerator, isCorrect: string -> bool)
      returns (recorded: Misspelling?)
      requires document.Valid() && forall k :: k in document.counts ==> !k.Equals(misspelling)
      requires misspelling.Valid() && misspelling.suggestions == []
      requires generator.misspelling == misspelling && Fits(misspelling.word.value, generator.transformations)
      requires generator.filter.kind == ValidSuggestion(isCorrect)
      requires var w := misspelling.word.value;
               w != [] && IsAlnum(w[0]) && IsAlnum(w[|w| - 1]) && !isCorrect(NormalizeToken(w))
      modifies tokenIterator, document, misspelling, generator.filter
      ensures document.Valid()
      ensures tokenIterator.wrapped == old(tokenIterator.wrapped) && tokenIterator.state == old(tokenIterator.state)
      ensures Settles(FateOf(misspelling.word.value, generator.AllCandidates() != []),
                      recorded != null, old(tokenIterator.queue), tokenIterator.queue)
      ensures recorded == null ==> document.counts == old(document.counts)
      ensures recorded != null ==>
                recorded == misspelling && document.counts == old(document.counts)[recorded := 1] &&
                Recorded(recorded, isCorrect) &&
                AsCandidates(recorded.suggestions) == Elements(FirstByDistance(misspelling.word.value, generator.AllCandidates()))
    {
      var cleanedToken := misspelling.word.value;
      if |cleanedToken| > MaxWordLength {
        var parts := SplitNonWord(cleanedToken);
        if |parts| > 1 {
          PushBackParts(parts);
        }
        return null;
      }
      var probe := generator.Iterator();
      var first := probe.ComputeNext();
      if first.None? {
        var parts := SplitNonWord(cleanedToken);
        if |parts| > 1 {
          PushBackParts(parts);
          return null;
        } else if IsProperName(cleanedToken) {
          return null;
        }
      }
      RecordMisspelling(misspelling, generator, isCorrect);
      recorded := misspelling;
    }

    /**
     * The word is added to the document's misspellings and every candidate
     * of a fresh iterator is scored and offered to it.
     */
    method RecordMisspelling(m: Misspelling, generator: CandidateGenerator, ghost isCorrect: string -> bool)
      requires document.Valid() && forall k :: k in document.counts ==> !k.Equals(m)
      requires m.Valid() && m.suggestions == []
      requires generator.misspelling == m && Fits(m.word.value, generator.transformations)
      requires generator.filter.kind == ValidSuggestion(isCorrect)
      modifies document, m, generator.filter
      ensures document.Valid() && document.counts == old(document.counts)[m := 1]
      ensures Ranked(m, isCorrect)
      ensures m.suggestions == [] <==> generator.AllCandidates() == []
      ensures Distances(m.word.value, m.suggestions) == TextDistances(m.word.value, generator.AllCandidates())
      ensures AsCandidates(m.suggestions) == Elements(FirstByDistance(m.word.value, generator.AllCandidates()))
    {
      var count := document.AddMisspelling(m);
      var it := generator.Iterator();
      RankSuggestions(m, it, isCorrect);
    }

    /**
     * processDocument: every token the iterator returns, pushed-back parts
     * included, is read (joined across a trailing hyphen) and processed,
     * until none is left. Misspellings already in the document keep their
     * counts; each one added is a newly cached word, recorded with its
     * ranked suggestions.
     */
    method ProcessDocument(isCorrect: string -> bool, rules: map<string, set<string>>)
      requires document.Valid() && forall o :: o in rules ==> o != []
      modifies tokenIterator, document, cache
      ensures document.Valid() && tokenIterator.Pending() == []
      ensures Extends(old(document.counts), old(cache.tokens), document.counts, cache.tokens)
      ensures exists configs: seq<Config>, outcomes: seq<Option<set<Candidate>>> ::
                Traced(configs, outcomes, rules, isCorrect, old(document.counts), document.counts, Snap(document.counts)) &&
                configs[0] == Config(old(tokenIterator.View()), old(cache.tokens)) &&
                configs[|configs| - 1].stream.Pending() == [] && configs[|configs| - 1].cached == cache.tokens
    {
      var validSuggestionPredicate := new SuggestionFilter(ValidSuggestion(isCorrect));
      ghost var configs := [Config(tokenIterator.View(), cache.tokens)];
      ghost var outcomes: seq<Option<set<Candidate>>> := [];
      ghost var counts0, tokens0 := document.counts, cache.tokens;
      while true
        invariant document.Valid() && validSuggestionPredicate.kind == ValidSuggestion(isCorrect)
        invariant fresh(validSuggestionPredicate)
        invariant Extends(counts0, tokens0, document.counts, cache.tokens)
        invariant Traced(configs, outcomes, rules, isCorrect, counts0, document.counts, Snap(document.counts))
        invariant configs[0] == Config(old(tokenIterator.View()), tokens0)
        invariant configs[|configs| - 1] == Config(tokenIterator.View(), cache.tokens)
        decreases TotalLength(tokenIterator.Pending()), |tokenIterator.Pending()|
      {
        var done;
        done, configs, outcomes := Advance(validSuggestionPredicate, isCorrect, rules, counts0, tokens0, configs, outcomes);
        if done {
          break;
        }
      }
    }

    /**
     * A turn of processDocument's loop together with the run so far:
     * unless no token was left, the run gains the turn, and the document's
     * new misspellings stay those the run records.
     */
    method Advance(filter: SuggestionFilter, isCorrect: string -> bool, rules: map<string, set<string>>,
                   ghost counts0: map<Misspelling, nat>, ghost tokens0: set<string>,
                   ghost configs: seq<Config>, ghost outcomes: seq<Option<set<Candidate>>>)
      returns (done: bool, ghost configs2: seq<Config>, ghost outcomes2: seq<Option<set<Candidate>>>)
      requires document.Valid() && forall o :: o in rules ==> o != []
      requires filter.kind == ValidSuggestion(isCorrect)
      requires Extends(counts0, tokens0, document.counts, cache.tokens)
      requires Traced(configs, outcomes, rules, isCorrect, counts0, document.counts, Snap(document.counts))
      requires configs[|configs| - 1] == Config(tokenIterator.View(), cache.tokens)
      modifies tokenIterator, document, cache, filter
      ensures document.Valid() && Extends(counts0, tokens0, document.counts, cache.tokens)
      ensures done <==> old(tokenIterator.Pending()) == []
      ensures done ==> tokenIterator.Pending() == [] && cache.tokens == old(cache.tokens) &&
                       configs2 == configs && outcomes2 == outcomes && document.counts == old(document.counts)
      ensures !done ==> Shrinks(old(tokenIterator.Pending()), tokenIterator.Pending())
      ensures Traced(configs2, outcomes2, rules, isCorrect, counts0, document.counts, Snap(document.counts)) && configs2[0] == configs[0]
      ensures !done ==> configs2[|configs2| - 1] == Config(tokenIterator.View(), cache.tokens)
    {
      ghost var counts, tokens, snap := document.counts, cache.tokens, Snap(document.counts);
      var recorded;
      done, recorded := Step(filter, isCorrect, rules);
      ExtendsStep(counts0, tokens0, counts, tokens, document.counts, cache.tokens, recorded);
      if done {
        return done, configs, outcomes;
      }
      ghost var next := Config(tokenIterator.View(), cache.tokens);
      ghost var outcome := OutcomeOf(recorded);
      TraceExtend(configs, outcomes, rules, isCorrect, counts0, counts, snap, document.counts, Snap(document.counts),
                  tokens, recorded, outcome, next);
      configs2, outcomes2 := configs + [next], outcomes + [outcome];
    }

    /** One turn of processDocument's loop: read a token and process it. */
    method Step(filter: SuggestionFilter, isCorrect: string -> bool, rules: map<string, set<string>>)
      returns (done: bool, recorded: Misspelling?)
      requires document.Valid() && forall o :: o in rules ==> o != []
      requires filter.kind == ValidSuggestion(isCorrect)
      modifies tokenIterator, document, cache, filter
      ensures document.Valid() && old(cache.tokens) <= cache.tokens
      ensures done <==> old(tokenIterator.Pending()) == []
      ensures done ==> tokenIterator.Pending() == [] && recorded == null && cache.tokens == old(cache.tokens)
      ensures !done ==> Shrinks(old(tokenIterator.Pending()), tokenIterator.Pending())
      ensures !done ==> Turn(Config(old(tokenIterator.View()), old(cache.tokens)), rules, isCorrect, OutcomeOf(recorded),
                             Config(tokenIterator.View(), cache.tokens))
      ensures forall k :: k in old(document.counts) ==> k.suggestions == old(k.suggestions)
      ensures recorded == null ==> Snap(document.counts) == old(Snap(document.counts))
      ensures recorded != null ==> Snap(document.counts) == old(Snap(document.counts))[recorded := AsCandidates(recorded.suggestions)]
      ensures recorded == null ==> document.counts == old(document.counts)
      ensures recorded != null ==>
                fresh(recorded) && document.counts == old(document.counts)[recorded := 1] &&
                recorded.word.value == TurnWord(Config(old(tokenIterator.View()), old(cache.tokens))) &&
                recorded.word.value in cache.tokens - old(cache.tokens) && Recorded(recorded, isCorrect)
    {
      ghost var pending, snap := tokenIterator.Pending(), Snap(document.counts);
      ghost var c := Config(tokenIterator.View(), cache.tokens);
      var next := ReadToken();
      assert Snap(document.counts) == snap;
      if next.None? {
        return true, null;
      }
      done := false;
      var token := next.value;
      ReadShrinks(pending);
      ghost var queue, wrapped, s1 := tokenIterator.queue, tokenIterator.wrapped, tokenIterator.View();
      recorded := Decide(token, filter, isCorrect, rules);
      TurnOfHalves(c, rules, isCorrect, OutcomeOf(recorded), token, s1, Config(tokenIterator.View(), cache.tokens));
      if tokenIterator.Pending() != ReadResult(pending).1 {
        PushShrinks(pending, token, queue, SplitNonWord(CleanToken(token)), wrapped);
      }
    }

    /**
     * The processing half of a turn, on the stream as reading left it: the
     * token is decided against the cache, pushed-back parts go to the end
     * of the stream's front, and the rest of the stream is untouched.
     */
    method Decide(token: string, filter: SuggestionFilter, isCorrect: string -> bool, rules: map<string, set<string>>)
      returns (recorded: Misspelling?)
      requires document.Valid() && forall o :: o in rules ==> o != []
      requires filter.kind == ValidSuggestion(isCorrect)
      requires tokenIterator.state.NotReady? || (tokenIterator.state.Done? && tokenIterator.Pending() == [])
      modifies tokenIterator, document, cache, filter
      ensures document.Valid()
      ensures tokenIterator.View().wrapped == old(tokenIterator.View()).wrapped
      ensures tokenIterator.View().live == old(tokenIterator.View()).live
      ensures cache.tokens == old(cache.tokens) + (if CleanToken(token) == [] then {} else {CleanToken(token)})
      ensures Decides(token, old(cache.tokens), rules, isCorrect, OutcomeOf(recorded),
                      old(tokenIterator.View()).front, tokenIterator.View().front)
      ensures tokenIterator.Pending() == old(tokenIterator.Pending()) ||
              (|SplitNonWord(CleanToken(token))| > 1 &&
               tokenIterator.Pending() == old(tokenIterator.queue) + SplitNonWord(CleanToken(token)) + old(tokenIterator.wrapped))
      ensures forall k :: k in old(document.counts) ==> k.suggestions == old(k.suggestions)
      ensures recorded == null ==> Snap(document.counts) == old(Snap(document.counts))
      ensures recorded != null ==> Snap(document.counts) == old(Snap(document.counts))[recorded := AsCandidates(recorded.suggestions)]
      ensures recorded == null ==> document.counts == old(document.counts)
      ensures recorded != null ==>
                fresh(recorded) && document.counts == old(document.counts)[recorded := 1] &&
                recorded.word.value == CleanToken(token) && recorded.word.value !in old(cache.tokens) &&
                Recorded(recorded, isCorrect)
    {
      recorded := ProcessToken(token, filter, isCorrect, rules);
      DecidesQueue(token, old(cache.tokens), rules, isCorrect, OutcomeOf(recorded), old(tokenIterator.queue), tokenIterator.queue);
    }

    /**
     * The head of processDocument's loop: the next token, trimmed; a token
     * ending with a hyphen is joined, without the hyphen, to the token after
     * it when there is one. None when no token is left.
     */
    method ReadToken() returns (token: Option<string>)
      modifies tokenIterator
      ensures tokenIterator.state.NotReady? || (tokenIterator.state.Done? && tokenIterator.Pending() == [])
      ensures old(tokenIterator.Pending()) == [] ==> token.None? && tokenIterator.Pending() == []
      ensures old(tokenIterator.Pending()) != [] ==>
                token == Some(ReadResult(old(tokenIterator.Pending())).0) &&
                tokenIterator.Pending() == ReadResult(old(tokenIterator.Pending())).1
      ensures old(tokenIterator.Pending()) != [] ==>
                token == Some(ReadStream(old(tokenIterator.View())).0) && tokenIterator.View() == ReadStream(old(tokenIterator.View())).1
    {
      ghost var view := tokenIterator.View();
      if view.Pending() != [] {
        ReadStreamPending(view);
      }
      var more := tokenIterator.HasNext();
      if !more {
        return None;
      }
      var next := tokenIterator.Next();
      var t := Trim(next.value);
      if EndsWithHyphen(t) {
        var hasFollowing := tokenIterator.HasNext();
        if hasFollowing {
          var following := tokenIterator.Next();
          return Some(t[..|t| - 1] + Trim(following.value));
        }
      }
      token := Some(t);
    }

    /** pushBack(String[]): the parts, as an array, go to the tail of the queue. */
    method PushBackParts(parts: seq<string>)
      modifies tokenIterator
      ensures tokenIterator.queue == old(tokenIterator.queue) + parts
      ensures tokenIterator.wrapped == old(tokenIterator.wrapped) && tokenIterator.state == old(tokenIterator.state)
    {
      var elems := new string[|parts|](i requires 0 <= i < |parts| => parts[i]);
      assert elems[..] == parts;
      var _ := tokenIterator.PushBackArray(elems);
    }
  }
}
