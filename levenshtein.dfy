/**
 * Levenshtein edit distance: a recursive definition over prefix lengths, the
 * two-row dynamic program of Levenshtein.distance proved equal to it, and
 * the metric facts the rest of the engine relies on.
 */
module Levenshtein {

  function Min3(a: int, b: int, c: int): int
  {
    if a <= b && a <= c then a else if b <= c then b else c
  }

  /** 0 when the two characters are equal, 1 otherwise (the substitution cost). */
  function Cost(a: char, b: char): nat
  {
    if a == b then 0 else 1
  }

  /**
   * The edit distance of s[..i] and t[..j]: the fewest single-character
   * deletions, insertions and substitutions turning the one into the other.
   */
  function PrefixDistance(s: string, t: string, i: nat, j: nat): nat
    requires i <= |s| && j <= |t|
    decreases i + j
  {
    if i == 0 then j
    else if j == 0 then i
    else Min3(PrefixDistance(s, t, i - 1, j) + 1,
              PrefixDistance(s, t, i, j - 1) + 1,
              PrefixDistance(s, t, i - 1, j - 1) + Cost(s[i - 1], t[j - 1]))
  }

  /** The edit distance of two whole strings. */
  function EditDistance(s: string, t: string): nat
  {
    PrefixDistance(s, t, |s|, |t|)
  }

  /** Levenshtein.distance: two rows of length |target| + 1, the previous and the current. */
  method Distance(source: string, target: string) returns (d: nat)
    ensures d == EditDistance(source, target)
  {
    if source == target {
      EditDistanceSelf(source);
      return 0;
    }
    if |source| == 0 {
      return |target|;
    }
    if |target| == 0 {
      return |source|;
    }

    var v0 := new int[|target| + 1];
    var v1 := new int[|target| + 1];

    InitRow(source, target, v0);
    var i := 0;
    while i < |source|
      invariant 0 <= i <= |source|
      invariant forall m :: 0 <= m <= |target| ==> v0[m] == PrefixDistance(source, target, i, m)
      invariant i > 0 ==> v1[..] == v0[..]
    {
      FillRow(source, target, i, v0, v1);
      CopyRow(v1, v0);
      i := i + 1;
    }
    d := v1[|target|];
  }

  /** The row for the empty prefix of source: j edits for target[..j]. */
  method InitRow(source: string, target: string, v0: array<int>)
    requires v0.Length == |target| + 1
    modifies v0
    ensures forall m :: 0 <= m <= |target| ==> v0[m] == PrefixDistance(source, target, 0, m)
  {
    var k := 0;
    while k < v0.Length
      invariant 0 <= k <= v0.Length
      invariant forall m :: 0 <= m < k ==> v0[m] == PrefixDistance(source, target, 0, m)
    {
      v0[k] := k;
      k := k + 1;
    }
  }

  /** Copies the current row over the previous one. */
  method CopyRow(from: array<int>, to: array<int>)
    requires from.Length == to.Length && from != to
    modifies to
    ensures to[..] == from[..]
  {
    var j := 0;
    while j < to.Length
      invariant 0 <= j <= to.Length
      invariant to[..j] == from[..j]
    {
      to[j] := from[j];
      j := j + 1;
    }
    assert to[..] == to[..to.Length];
  }

  /** Computes the row for source[..i + 1] into v1 from the row for source[..i] held in v0. */
  method FillRow(source: string, target: string, i: nat, v0: array<int>, v1: array<int>)
    requires i < |source|
    requires v0.Length == v1.Length == |target| + 1 && v0 != v1
    requires forall m :: 0 <= m <= |target| ==> v0[m] == PrefixDistance(source, target, i, m)
    modifies v1
    ensures forall m :: 0 <= m <= |target| ==> v1[m] == PrefixDistance(source, target, i + 1, m)
  {
    v1[0] := i + 1;
    var j := 0;
    while j < |target|
      invariant 0 <= j <= |target|
      invariant forall m :: 0 <= m <= j ==> v1[m] == PrefixDistance(source, target, i + 1, m)
    {
      var cost := if source[i] == target[j] then 0 else 1;
      v1[j + 1] := Min3(v1[j] + 1, v0[j + 1] + 1, v0[j] + cost);
      j := j + 1;
    }
  }

  /** A string is at distance 0 from itself. */
  lemma {:induction false} EditDistanceSelf(s: string)
    ensures EditDistance(s, s) == 0
  {
    PrefixDistanceSelf(s, |s|);
  }

  lemma {:induction false} PrefixDistanceSelf(s: string, i: nat)
    requires i <= |s|
    ensures PrefixDistance(s, s, i, i) == 0
  {
    if i > 0 {
      PrefixDistanceSelf(s, i - 1);
    }
  }

  /** Distance 0 holds exactly for equal prefixes. */
  lemma {:induction false} PrefixDistanceZero(s: string, t: string, i: nat, j: nat)
    requires i <= |s| && j <= |t|
    ensures PrefixDistance(s, t, i, j) == 0 <==> s[..i] == t[..j]
    decreases i + j
  {
    if i > 0 && j > 0 {
      PrefixDistanceZero(s, t, i - 1, j - 1);
      assert s[..i] == s[..i - 1] + [s[i - 1]] && t[..j] == t[..j - 1] + [t[j - 1]];
      if s[..i] == t[..j] {
        assert s[..i - 1] == s[..i][..i - 1];
        assert t[..j - 1] == t[..j][..j - 1];
      }
    }
  }

  /** Distance 0 holds exactly for equal strings. */
  lemma EditDistanceZero(s: string, t: string)
    ensures EditDistance(s, t) == 0 <==> s == t
  {
    PrefixDistanceZero(s, t, |s|, |t|);
    assert s[..|s|] == s && t[..|t|] == t;
  }

  /** The distance does not depend on the direction: deletions and insertions swap roles. */
  lemma {:induction false} PrefixDistanceSymmetric(s: string, t: string, i: nat, j: nat)
    requires i <= |s| && j <= |t|
    ensures SymmetricAt(s, t, i, j)
    decreases i + j
  {
    if i > 0 && j > 0 {
      PrefixDistanceSymmetric(s, t, i - 1, j);
      PrefixDistanceSymmetric(s, t, i, j - 1);
      PrefixDistanceSymmetric(s, t, i - 1, j - 1);
      SymmetricStep(s, t, i, j);
    }
  }

  predicate SymmetricAt(s: string, t: string, i: nat, j: nat)
    requires i <= |s| && j <= |t|
  {
    PrefixDistance(s, t, i, j) == PrefixDistance(t, s, j, i)
  }

  /** One step of the recursion: equal sub-distances give equal distances. */
  lemma SymmetricStep(s: string, t: string, i: nat, j: nat)
    requires 0 < i <= |s| && 0 < j <= |t|
    requires PrefixDistance(s, t, i - 1, j) == PrefixDistance(t, s, j, i - 1)
    requires PrefixDistance(s, t, i, j - 1) == PrefixDistance(t, s, j - 1, i)
    requires PrefixDistance(s, t, i - 1, j - 1) == PrefixDistance(t, s, j - 1, i - 1)
    ensures PrefixDistance(s, t, i, j) == PrefixDistance(t, s, j, i)
  {
    var del, ins, sub := PrefixDistance(s, t, i - 1, j), PrefixDistance(s, t, i, j - 1), PrefixDistance(s, t, i - 1, j - 1);
    var c := Cost(s[i - 1], t[j - 1]);
    assert PrefixDistance(s, t, i, j) == Min3(del + 1, ins + 1, sub + c);
    assert PrefixDistance(t, s, j, i) == Min3(ins + 1, del + 1, sub + c);
  }

  lemma EditDistanceSymmetric(s: string, t: string)
    ensures EditDistance(s, t) == EditDistance(t, s)
  {
    PrefixDistanceSymmetric(s, t, |s|, |t|);
  }

  /** The distance lies between the difference of the lengths and the longer length. */
  lemma {:induction false} PrefixDistanceBounds(s: string, t: string, i: nat, j: nat)
    requires i <= |s| && j <= |t|
    ensures BoundedAt(s, t, i, j)
    decreases i + j
  {
    if i > 0 && j > 0 {
      PrefixDistanceBounds(s, t, i - 1, j);
      PrefixDistanceBounds(s, t, i, j - 1);
      PrefixDistanceBounds(s, t, i - 1, j - 1);
      BoundsStep(s, t, i, j);
    }
  }

  predicate BoundedAt(s: string, t: string, i: nat, j: nat)
    requires i <= |s| && j <= |t|
  {
    i - j <= PrefixDistance(s, t, i, j) && j - i <= PrefixDistance(s, t, i, j) &&
    PrefixDistance(s, t, i, j) <= if i <= j then j else i
  }

  /** One step of the recursion: bounded sub-distances give a bounded distance. */
  lemma BoundsStep(s: string, t: string, i: nat, j: nat)
    requires 0 < i <= |s| && 0 < j <= |t|
    requires BoundedAt(s, t, i - 1, j) && BoundedAt(s, t, i, j - 1) && BoundedAt(s, t, i - 1, j - 1)
    ensures BoundedAt(s, t, i, j)
  {
    var del, ins, sub := PrefixDistance(s, t, i - 1, j), PrefixDistance(s, t, i, j - 1), PrefixDistance(s, t, i - 1, j - 1);
    assert PrefixDistance(s, t, i, j) == Min3(del + 1, ins + 1, sub + Cost(s[i - 1], t[j - 1]));
  }

  lemma EditDistanceBounds(s: string, t: string)
    ensures |s| - |t| <= EditDistance(s, t) && |t| - |s| <= EditDistance(s, t)
    ensures EditDistance(s, t) <= if |s| <= |t| then |t| else |s|
  {
    PrefixDistanceBounds(s, t, |s|, |t|);
  }

  /** The distance from or to the empty string is the other string's length. */
  lemma EditDistanceEmpty(s: string)
    ensures EditDistance([], s) == |s| && EditDistance(s, []) == |s|
  {
  }
}
