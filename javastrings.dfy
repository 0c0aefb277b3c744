/**
 * The java.lang.String operations the engine depends on: compareTo,
 * indexOf, trim, toLowerCase, split on "\W+", and the character classes of
 * the regular expressions it uses. \p{Alnum} and \W are ASCII classes in
 * Java's default regex mode and are modelled exactly; \p{N}, \p{Lu}, \p{Ll}
 * and toLowerCase are restricted to ASCII.
 */
module JavaStrings {

  predicate IsDigit(c: char) { '0' <= c <= '9' }
  predicate IsUpper(c: char) { 'A' <= c <= 'Z' }
  predicate IsLower(c: char) { 'a' <= c <= 'z' }

  /** \p{Alnum}: an ASCII letter or digit. */
  predicate IsAlnum(c: char) { IsDigit(c) || IsUpper(c) || IsLower(c) }

  /** \w: an ASCII letter, digit or underscore; \W is its complement. */
  predicate IsWordChar(c: char) { IsAlnum(c) || c == '_' }

  predicate AllWordChars(s: string)
  {
    forall i :: 0 <= i < |s| ==> IsWordChar(s[i])
  }

  /** The length of the longest common prefix of a and b. */
  function CommonPrefix(a: string, b: string): (k: nat)
    ensures k <= |a| && k <= |b| && a[..k] == b[..k]
    ensures k == |a| || k == |b| || a[k] != b[k]
  {
    if |a| == 0 || |b| == 0 || a[0] != b[0] then 0
    else
      var k := CommonPrefix(a[1..], b[1..]);
      assert a[..k + 1] == [a[0]] + a[1..][..k] && b[..k + 1] == [b[0]] + b[1..][..k];
      k + 1
  }

  /**
   * String.compareTo, walked character by character. As its documentation
   * defines it: at the first index where the strings differ, the difference
   * of the characters there; when one is a prefix of the other, the
   * difference of the lengths. Only its sign is used.
   */
  function CompareStrings(a: string, b: string): (r: int)
    ensures var k := CommonPrefix(a, b);
            r == if k < |a| && k < |b| then a[k] as int - b[k] as int else |a| - |b|
  {
    if |a| == 0 || |b| == 0 then |a| - |b|
    else if a[0] != b[0] then a[0] as int - b[0] as int
    else CompareStrings(a[1..], b[1..])
  }

  /** compareTo is 0 exactly on equal strings, and swapping the arguments negates it. */
  lemma {:induction false} CompareStringsProperties(a: string, b: string)
    ensures CompareStrings(a, b) == 0 <==> a == b
    ensures CompareStrings(b, a) == -CompareStrings(a, b)
  {
    if |a| > 0 && |b| > 0 && a[0] == b[0] {
      CompareStringsProperties(a[1..], b[1..]);
      assert a == [a[0]] + a[1..] && b == [b[0]] + b[1..];
    }
  }

  /** compareTo orders strings transitively. */
  lemma {:induction false} CompareStringsTransitive(a: string, b: string, c: string)
    requires CompareStrings(a, b) < 0 && CompareStrings(b, c) < 0
    ensures CompareStrings(a, c) < 0
  {
    if |a| > 0 && |b| > 0 && |c| > 0 && a[0] == b[0] && b[0] == c[0] {
      CompareStringsTransitive(a[1..], b[1..], c[1..]);
    }
  }

  /** s holds sub at position n. */
  predicate OccursAt(s: string, sub: string, n: int)
  {
    0 <= n && n + |sub| <= |s| && s[n..n + |sub|] == sub
  }

  /**
   * String.indexOf(sub, from): the first position at or after from where
   * sub occurs, or -1. An empty sub is found at from, or at |s| past the end.
   */
  function IndexOf(s: string, sub: string, from: nat): (r: int)
    ensures r == -1 || OccursAt(s, sub, r)
    ensures |sub| > 0 ==> (r == -1 || from <= r)
    ensures |sub| > 0 ==> forall n :: from <= n && (r == -1 || n < r) ==> !OccursAt(s, sub, n)
    decreases |s| - from
  {
    if |sub| == 0 then (if from <= |s| then from else |s|)
    else if from + |sub| > |s| then -1
    else if s[from..from + |sub|] == sub then from
    else IndexOf(s, sub, from + 1)
  }

  /** String.trim: drop the leading and trailing characters at or below ' '. */
  function Trim(s: string): (r: string)
    ensures |r| <= |s|
    ensures r == [] || (r[0] > ' ' && r[|r| - 1] > ' ')
    decreases |s|
  {
    if |s| > 0 && s[0] <= ' ' then Trim(s[1..])
    else if |s| > 0 && s[|s| - 1] <= ' ' then Trim(s[..|s| - 1])
    else s
  }

  /** Every character of s before a and from b on is at or below ' '. */
  predicate BlankOutside(s: string, a: nat, b: nat)
  {
    forall i :: 0 <= i < |s| && (i < a || b <= i) ==> s[i] <= ' '
  }

  lemma BlankOutsideFront(s: string, a: nat, b: nat)
    requires |s| > 0 && s[0] <= ' ' && BlankOutside(s[1..], a, b)
    ensures BlankOutside(s, a + 1, b + 1)
  {
    forall i | 0 < i < |s|
      ensures s[i] == s[1..][i - 1]
    {
    }
  }

  lemma BlankOutsideBack(s: string, a: nat, b: nat)
    requires |s| > 0 && s[|s| - 1] <= ' ' && BlankOutside(s[..|s| - 1], a, b)
    ensures BlankOutside(s, a, b)
  {
    forall i | 0 <= i < |s| - 1
      ensures s[i] == s[..|s| - 1][i]
    {
    }
  }

  /** Where the slice trim keeps begins and ends, following its recursion. */
  function TrimBounds(s: string): (ab: (nat, nat))
    ensures ab.0 <= ab.1 <= |s|
    decreases |s|
  {
    if |s| > 0 && s[0] <= ' ' then (var ab := TrimBounds(s[1..]); (ab.0 + 1, ab.1 + 1))
    else if |s| > 0 && s[|s| - 1] <= ' ' then TrimBounds(s[..|s| - 1])
    else (0, |s|)
  }

  /** r is the slice s[a..b] and everything of s outside it is at or below ' '. */
  predicate BlankAround(s: string, r: string, a: nat, b: nat)
  {
    a <= b <= |s| && r == s[a..b] && BlankOutside(s, a, b)
  }

  lemma BlankAroundFront(s: string, r: string, a: nat, b: nat)
    requires |s| > 0 && s[0] <= ' ' && BlankAround(s[1..], r, a, b)
    ensures BlankAround(s, r, a + 1, b + 1)
  {
    BlankOutsideFront(s, a, b);
    assert s[1..][a..b] == s[a + 1..b + 1];
  }

  lemma BlankAroundBack(s: string, r: string, a: nat, b: nat)
    requires |s| > 0 && s[|s| - 1] <= ' ' && BlankAround(s[..|s| - 1], r, a, b)
    ensures BlankAround(s, r, a, b)
  {
    BlankOutsideBack(s, a, b);
    assert s[..|s| - 1][a..b] == s[a..b];
  }

  lemma {:induction false} TrimAtBounds(s: string)
    ensures BlankAround(s, Trim(s), TrimBounds(s).0, TrimBounds(s).1)
    decreases |s|
  {
    if |s| > 0 && s[0] <= ' ' {
      TrimAtBounds(s[1..]);
      BlankAroundFront(s, Trim(s[1..]), TrimBounds(s[1..]).0, TrimBounds(s[1..]).1);
    } else if |s| > 0 && s[|s| - 1] <= ' ' {
      TrimAtBounds(s[..|s| - 1]);
      BlankAroundBack(s, Trim(s[..|s| - 1]), TrimBounds(s[..|s| - 1]).0, TrimBounds(s[..|s| - 1]).1);
    } else {
      assert s[0..|s|] == s;
    }
  }

  /**
   * trim keeps one slice of s and drops only characters at or below ' '
   * before and after it; with the ends of the result above ' ', the slice
   * is the longest such one.
   */
  lemma TrimSlice(s: string)
    ensures exists a, b :: 0 <= a <= b <= |s| && Trim(s) == s[a..b] && BlankOutside(s, a, b)
  {
    TrimAtBounds(s);
    var ab := TrimBounds(s);
    assert BlankAround(s, Trim(s), ab.0, ab.1);
  }

  /** Every character trim keeps comes from s. */
  lemma TrimKeepsCharacters(s: string)
    ensures forall i :: 0 <= i < |Trim(s)| ==> Trim(s)[i] in s
  {
    TrimAtBounds(s);
    var ab := TrimBounds(s);
    forall i | 0 <= i < |Trim(s)|
      ensures Trim(s)[i] in s
    {
      assert Trim(s)[i] == s[ab.0 + i];
    }
  }

  /** A string with no character at or below ' ' is its own trim. */
  lemma TrimNoop(s: string)
    requires forall i :: 0 <= i < |s| ==> s[i] > ' '
    ensures Trim(s) == s
  {
  }

  function LowerChar(c: char): char
  {
    if IsUpper(c) then (c as int + 32) as char else c
  }

  /** String.toLowerCase, on ASCII letters. */
  function ToLower(s: string): (r: string)
    ensures |r| == |s|
    ensures forall i :: 0 <= i < |s| ==> r[i] == LowerChar(s[i])
  {
    seq(|s|, i requires 0 <= i < |s| => LowerChar(s[i]))
  }

  /** Length of the leading run of word characters. */
  function WordRun(s: string): (n: nat)
    ensures n <= |s| && AllWordChars(s[..n]) && (n == |s| || !IsWordChar(s[n]))
  {
    if |s| > 0 && IsWordChar(s[0]) then 1 + WordRun(s[1..]) else 0
  }

  /** Length of the leading run of non-word characters. */
  function NonWordRun(s: string): (n: nat)
    ensures n <= |s| && (forall i :: 0 <= i < n ==> !IsWordChar(s[i])) && (n == |s| || IsWordChar(s[n]))
  {
    if |s| > 0 && !IsWordChar(s[0]) then 1 + NonWordRun(s[1..]) else 0
  }

  /** The leading word run covers s only when every character is a word character. */
  lemma WordRunWhole(s: string)
    ensures WordRun(s) == |s| ==> AllWordChars(s)
  {
    if WordRun(s) == |s| {
      assert s[..WordRun(s)] == s;
    }
  }

  /** What follows the first field of s and the run of \W after it; shorter than s. */
  function AfterSeparator(s: string): (r: string)
    requires WordRun(s) < |s|
    ensures |r| < |s|
  {
    var rest := s[WordRun(s)..];
    rest[NonWordRun(rest)..]
  }

  /** The pieces of s between maximal runs of \W, trailing empty pieces included. */
  function Fields(s: string): (r: seq<string>)
    ensures |r| >= 1
    ensures forall i :: 0 <= i < |r| ==> AllWordChars(r[i])
    decreases |s|
  {
    if WordRun(s) == |s| then [s]
    else [s[..WordRun(s)]] + Fields(AfterSeparator(s))
  }

  /** The trailing empty strings removed, as split's limit 0 does. */
  function DropTrailingEmpty(parts: seq<string>): (r: seq<string>)
    ensures |r| <= |parts| && r == parts[..|r|]
    ensures r == [] || r[|r| - 1] != []
    ensures forall i :: |r| <= i < |parts| ==> parts[i] == []
  {
    if |parts| > 0 && parts[|parts| - 1] == [] then DropTrailingEmpty(parts[..|parts| - 1]) else parts
  }

  /**
   * String.split("\\W+"): when no separator occurs the string itself;
   * otherwise the pieces between separators with trailing empty pieces removed.
   */
  function SplitNonWord(s: string): (parts: seq<string>)
    ensures forall i :: 0 <= i < |parts| ==> AllWordChars(parts[i])
  {
    if AllWordChars(s) then [s] else DropTrailingEmpty(Fields(s))
  }

  predicate NoWordChars(s: string)
  {
    forall i :: 0 <= i < |s| ==> !IsWordChar(s[i])
  }

  /** parts[0] + seps[0] + parts[1] + seps[1] + ...: each part followed by its separator. */
  function Interleave(parts: seq<string>, seps: seq<string>): string
    requires |seps| == |parts|
  {
    if parts == [] then [] else parts[0] + seps[0] + Interleave(parts[1..], seps[1..])
  }

  /**
   * The separators are runs of \W, each but the last non-empty, and every
   * part between two separators is non-empty: the parts are the maximal
   * runs of word characters.
   */
  predicate Separates(parts: seq<string>, seps: seq<string>)
    requires |seps| == |parts|
  {
    (forall i :: 0 <= i < |seps| ==> NoWordChars(seps[i])) &&
    (forall i :: 0 <= i < |seps| - 1 ==> seps[i] != []) &&
    (forall i :: 0 < i < |parts| - 1 ==> parts[i] != [])
  }

  lemma {:induction false} InterleaveLast(parts: seq<string>, seps: seq<string>)
    requires |seps| == |parts| && parts != []
    ensures Interleave(parts, seps) ==
            Interleave(parts[..|parts| - 1], seps[..|seps| - 1]) + parts[|parts| - 1] + seps[|seps| - 1]
  {
    if |parts| > 1 {
      InterleaveLast(parts[1..], seps[1..]);
      assert parts[..|parts| - 1][1..] == parts[1..][..|parts| - 2];
      assert seps[..|seps| - 1][1..] == seps[1..][..|seps| - 2];
    }
  }

  /** A non-empty run of \W splits into two empty fields. */
  lemma FieldsOfSeparator(s: string)
    requires s != [] && NoWordChars(s)
    ensures Fields(s) == [[], []]
  {
    assert WordRun(s) == 0;
    assert NonWordRun(s) == |s|;
    assert AfterSeparator(s) == [];
  }

  /** The run of \W after each field; the last field is followed by nothing. */
  function FieldSeparators(s: string): (seps: seq<string>)
    ensures |seps| == |Fields(s)|
    decreases |s|
  {
    if WordRun(s) == |s| then [[]]
    else
      var rest := s[WordRun(s)..];
      [rest[..NonWordRun(rest)]] + FieldSeparators(AfterSeparator(s))
  }

  /**
   * parts interleaved with seps give back s, the seps separate the parts
   * as maximal runs, and nothing follows the last part.
   */
  predicate Rebuilds(s: string, parts: seq<string>, seps: seq<string>)
  {
    |seps| == |parts| && parts != [] &&
    Interleave(parts, seps) == s && Separates(parts, seps) && seps[|seps| - 1] == []
  }

  /** A word run and a non-empty run of \W in front of a rebuilt remainder. */
  lemma RebuildsCons(s: string, p: string, e: string, rest: string, parts: seq<string>, seps: seq<string>)
    requires Rebuilds(rest, parts, seps) && s == p + e + rest
    requires e != [] && NoWordChars(e) && (|parts| > 1 ==> parts[0] != [])
    ensures Rebuilds(s, [p] + parts, [e] + seps)
  {
    var parts', seps' := [p] + parts, [e] + seps;
    assert parts'[1..] == parts && seps'[1..] == seps;
  }

  /** A run of \W at the front of a string that starts with one. */
  lemma SeparatorRun(rest: string)
    requires rest != [] && !IsWordChar(rest[0])
    ensures var e := rest[..NonWordRun(rest)]; e != [] && NoWordChars(e)
  {
  }

  lemma ThreeSlices(s: string, w: nat, k: nat)
    requires w <= |s| && k <= |s| - w
    ensures s == s[..w] + s[w..][..k] + s[w..][k..]
  {
  }

  /** After the separator comes a word character, so a later field is non-empty. */
  lemma NextFieldNonEmpty(s: string)
    requires WordRun(s) < |s|
    ensures var after := AfterSeparator(s); |Fields(after)| > 1 ==> Fields(after)[0] != []
  {
    var rest := s[WordRun(s)..];
    var k := NonWordRun(rest);
    var after := AfterSeparator(s);
    if |Fields(after)| > 1 {
      assert WordRun(after) < |after|;
      assert after[0] == rest[k];
    }
  }

  /** One field of s and the separator after it, when s holds a \W. */
  lemma FieldsUnfold(s: string)
    requires WordRun(s) < |s|
    ensures var w := WordRun(s);
            var e := s[w..][..NonWordRun(s[w..])];
            var after := AfterSeparator(s);
            Fields(s) == [s[..w]] + Fields(after) && FieldSeparators(s) == [e] + FieldSeparators(after) &&
            s == s[..w] + e + after && e != [] && NoWordChars(e) &&
            (|Fields(after)| > 1 ==> Fields(after)[0] != [])
  {
    var w := WordRun(s);
    assert s[w..][0] == s[w];
    SeparatorRun(s[w..]);
    ThreeSlices(s, w, NonWordRun(s[w..]));
    NextFieldNonEmpty(s);
  }

  /** The fields interleaved with the runs of \W between them give back s. */
  lemma {:induction false} FieldsRebuild(s: string)
    ensures Rebuilds(s, Fields(s), FieldSeparators(s))
    decreases |s|
  {
    var w := WordRun(s);
    if w == |s| {
      assert Fields(s) == [s] && FieldSeparators(s) == [[]];
      assert Interleave([s], [[]]) == s;
    } else {
      var after := AfterSeparator(s);
      FieldsRebuild(after);
      FieldsUnfold(s);
      RebuildsCons(s, s[..w], s[w..][..NonWordRun(s[w..])], after, Fields(after), FieldSeparators(after));
    }
  }

  /** Dropping an empty last part merges nothing: its separator is empty too. */
  lemma RebuildsDropLast(s: string, f: seq<string>, seps: seq<string>)
    requires Rebuilds(s, f, seps) && |f| >= 2 && f[|f| - 1] == []
    ensures var n := |f|;
            Interleave(f[..n - 1], seps[..n - 1]) == s && Separates(f[..n - 1], seps[..n - 1]) &&
            (n > 2 ==> f[n - 2] != [])
  {
    InterleaveLast(f, seps);
  }

  /**
   * split's removal of trailing empty strings keeps a decomposition of s
   * into maximal runs, and leaves nothing exactly when s is a run of \W.
   */
  lemma DropTrailingRebuilds(s: string, f: seq<string>, seps: seq<string>)
    requires Rebuilds(s, f, seps) && |f| >= 2 && s != []
    requires NoWordChars(s) ==> f == [[], []]
    ensures var parts := DropTrailingEmpty(f);
            (parts != [] ==> exists seps' :: |seps'| == |parts| && Interleave(parts, seps') == s && Separates(parts, seps')) &&
            (parts != [] ==> parts[|parts| - 1] != []) &&
            (parts == [] <==> NoWordChars(s))
  {
    var n := |f|;
    var parts := DropTrailingEmpty(f);
    if f[n - 1] != [] {
      assert parts == f;
    } else {
      RebuildsDropLast(s, f, seps);
      var f', seps' := f[..n - 1], seps[..n - 1];
      if n > 2 || f[0] != [] {
        assert f'[|f'| - 1] != [];
        assert DropTrailingEmpty(f') == f';
        assert parts == f';
      } else {
        assert f == [[], []];
        assert parts == [];
        assert Interleave(f, seps) == seps[0];
      }
    }
  }

  /**
   * split("\\W+") cuts s at its maximal runs of \W: the parts interleaved
   * with those runs give back s, every part after the first is non-empty,
   * and the result is empty exactly when s is a non-empty run of \W.
   */
  lemma SplitNonWordRebuild(s: string)
    ensures var parts := SplitNonWord(s);
            (parts != [] ==> exists seps :: |seps| == |parts| && Interleave(parts, seps) == s && Separates(parts, seps)) &&
            (parts != [] ==> parts[|parts| - 1] != [] || s == []) &&
            (parts == [] <==> s != [] && NoWordChars(s))
  {
    if AllWordChars(s) {
      assert Interleave([s], [[]]) == s;
      assert s != [] ==> IsWordChar(s[0]);
    } else {
      WordRunWhole(s);
      FieldsRebuild(s);
      if NoWordChars(s) {
        FieldsOfSeparator(s);
      }
      DropTrailingRebuilds(s, Fields(s), FieldSeparators(s));
    }
  }

  /**
   * A string that starts and ends with an alphanumeric character splits
   * into two or more parts exactly when it holds a non-word character.
   */
  lemma SplitMany(s: string)
    requires |s| > 0 && IsAlnum(s[0]) && IsAlnum(s[|s| - 1])
    ensures |SplitNonWord(s)| > 1 <==> !AllWordChars(s)
  {
    if !AllWordChars(s) {
      SeparatedTail(s);
      FieldsLastNonEmpty(AfterSeparator(s));
      var fields, tail := Fields(s), Fields(AfterSeparator(s));
      assert fields == [s[..WordRun(s)]] + tail;
      LastOfCons(s[..WordRun(s)], tail);
      assert DropTrailingEmpty(fields) == fields;
    }
  }

  /** The last field is not empty. */
  predicate LastFieldNonEmpty(s: string)
  {
    Fields(s)[|Fields(s)| - 1] != []
  }

  /**
   * A string ending in a word character, with a separator in it, has a
   * non-empty remainder after its first separator, ending the same way.
   */
  lemma SeparatedTail(s: string)
    requires |s| > 0 && IsWordChar(s[|s| - 1]) && WordRun(s) < |s|
    ensures var tail := AfterSeparator(s); |tail| > 0 && tail[|tail| - 1] == s[|s| - 1]
  {
    var rest := s[WordRun(s)..];
    assert rest[|rest| - 1] == s[|s| - 1];
  }

  /** A non-empty string ending in a word character has a non-empty last field. */
  lemma {:induction false} FieldsLastNonEmpty(s: string)
    requires |s| > 0 && IsWordChar(s[|s| - 1])
    ensures LastFieldNonEmpty(s)
    decreases |s|
  {
    if WordRun(s) < |s| {
      SeparatedTail(s);
      var after := AfterSeparator(s);
      FieldsLastNonEmpty(after);
      FieldsCons(s);
      ConsKeepsLast(Fields(s), s[..WordRun(s)], Fields(after));
    }
  }

  lemma FieldsCons(s: string)
    requires WordRun(s) < |s|
    ensures Fields(s) == [s[..WordRun(s)]] + Fields(AfterSeparator(s))
  {
  }

  lemma ConsKeepsLast(f: seq<string>, x: string, tail: seq<string>)
    requires f == [x] + tail && tail != [] && tail[|tail| - 1] != []
    ensures f[|f| - 1] != []
  {
  }

  lemma LastOfCons<T>(x: T, xs: seq<T>)
    requires xs != []
    ensures var ys := [x] + xs; |ys| > 1 && ys[|ys| - 1] == xs[|xs| - 1]
  {
  }

  /**
   * \p{Lu}\p{Ll}{3,}: one upper-case letter followed by at least three
   * lower-case ones. Such a word is a single \W+ part, so it is never split.
   */
  function IsProperName(s: string): (b: bool)
    ensures b ==> |s| >= 4 && SplitNonWord(s) == [s] && forall i :: 0 <= i < |s| ==> (IsUpper(s[i]) <==> i == 0)
  {
    var b := |s| >= 4 && IsUpper(s[0]) && forall i :: 1 <= i < |s| ==> IsLower(s[i]);
    assert b ==> AllWordChars(s) by {
      if b {
        forall i | 0 <= i < |s|
          ensures IsWordChar(s[i])
        {
          assert i == 0 || IsLower(s[i]);
        }
      }
    }
    b
  }
}
