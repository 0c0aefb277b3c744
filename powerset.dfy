/**
 * Bit-mask enumeration of sub-lists: mask m over a list selects element j
 * exactly when bit j of m is set. PowerSetGenerator walks the masks
 * 0 .. 2^k - 1 lazily and returns the selected lists that pass a predicate.
 */
module PowerSet {
  import opened Wrappers

  function Pow2(k: nat): (r: nat)
    ensures r >= 1
  {
    if k == 0 then 1 else 2 * Pow2(k - 1)
  }

  /** Bit j of mask, i.e. (mask >> j) % 2 == 1. */
  function Bit(mask: nat, j: nat): bool
  {
    if j == 0 then mask % 2 == 1 else Bit(mask / 2, j - 1)
  }

  /** The elements of input[..n] whose bit is set in mask, in position order. */
  function Pick<T>(input: seq<T>, mask: nat, n: nat): seq<T>
    requires n <= |input|
  {
    if n == 0 then [] else Pick(input, mask, n - 1) + (if Bit(mask, n - 1) then [input[n - 1]] else [])
  }

  /** The list that mask selects from input. */
  function Subset<T>(input: seq<T>, mask: nat): seq<T>
  {
    Pick(input, mask, |input|)
  }

  /** The positions below n whose bit is set in mask, in increasing order. */
  function Positions(mask: nat, n: nat): seq<nat>
  {
    if n == 0 then [] else Positions(mask, n - 1) + (if Bit(mask, n - 1) then [n - 1] else [])
  }

  /**
   * 1L << k in Java: the shift distance is taken mod 64, and 1L << 63 is
   * negative, so no mask lies below it.
   */
  function LongPowerSetSize(k: nat): nat
  {
    if k % 64 == 63 then 0 else Pow2(k % 64)
  }

  /** The selection made with (mask >> j) % 2 on a Java long, whose shift distance is j mod 64. */
  function LongPick<T>(input: seq<T>, mask: nat, n: nat): seq<T>
    requires n <= |input|
  {
    if n == 0 then [] else LongPick(input, mask, n - 1) + (if Bit(mask, (n - 1) % 64) then [input[n - 1]] else [])
  }

  function LongSubset<T>(input: seq<T>, mask: nat): seq<T>
  {
    LongPick(input, mask, |input|)
  }

  ghost predicate Distinct<T>(s: seq<T>)
  {
    forall i, j :: 0 <= i < j < |s| ==> s[i] != s[j]
  }

  /** The inner loop of PowerSetIterator.computeNext, over a long mask. */
  method SelectByLongMask<T>(input: seq<T>, mask: nat) returns (sub: seq<T>)
    ensures sub == LongSubset(input, mask)
  {
    sub := [];
    for j := 0 to |input|
      invariant sub == LongPick(input, mask, j)
    {
      if Bit(mask, j % 64) {
        sub := sub + [input[j]];
      }
    }
  }

  /** Up to 64 elements the long shift selects exactly what the plain bit test does. */
  lemma {:induction false} LongPickIsPick<T>(input: seq<T>, mask: nat, n: nat)
    requires n <= |input| && n <= 64
    ensures LongPick(input, mask, n) == Pick(input, mask, n)
  {
    if n > 0 {
      LongPickIsPick(input, mask, n - 1);
    }
  }

  /** Up to 62 elements 1L << k is 2^k and the long selection is the plain one. */
  lemma LongShiftExact<T>(input: seq<T>)
    requires |input| <= 62
    ensures LongPowerSetSize(|input|) == Pow2(|input|)
    ensures forall m :: LongSubset(input, m) == Subset(input, m)
  {
    var k := |input|;
    assert k % 64 == k;
    forall m: nat
      ensures LongSubset(input, m) == Subset(input, m)
    {
      LongPickIsPick(input, m, k);
    }
  }

  /** Every element of a long-mask selection comes from input. */
  lemma {:induction false} LongPickInInput<T>(input: seq<T>, mask: nat, n: nat)
    requires n <= |input|
    ensures forall x :: x in LongPick(input, mask, n) ==> x in input
  {
    if n > 0 {
      LongPickInInput(input, mask, n - 1);
    }
  }

  /**
   * The list a mask selects is input read at the set positions, in
   * strictly increasing position order.
   */
  lemma {:induction false} PickIsSelection<T>(input: seq<T>, mask: nat, n: nat)
    requires n <= |input|
    ensures |Pick(input, mask, n)| == |Positions(mask, n)|
    ensures forall i :: 0 <= i < |Positions(mask, n)| ==>
              Positions(mask, n)[i] < n && Pick(input, mask, n)[i] == input[Positions(mask, n)[i]]
    ensures forall i, k :: 0 <= i < k < |Positions(mask, n)| ==> Positions(mask, n)[i] < Positions(mask, n)[k]
  {
    if n > 0 {
      PickIsSelection(input, mask, n - 1);
    }
  }

  /** The set positions are exactly the positions below n whose bit is set. */
  lemma {:induction false} PositionsMembers(mask: nat, n: nat)
    ensures forall j: nat :: j in Positions(mask, n) <==> j < n && Bit(mask, j)
  {
    if n > 0 {
      PositionsMembers(mask, n - 1);
      var tail: seq<nat> := if Bit(mask, n - 1) then [n - 1] else [];
      assert Positions(mask, n) == Positions(mask, n - 1) + tail;
      forall j: nat
        ensures j in Positions(mask, n) <==> j < n && Bit(mask, j)
      {
        assert j in Positions(mask, n) <==> j in Positions(mask, n - 1) || j in tail;
      }
    }
  }

  /** Element j is in the selected list when its bit is set, and (for distinct elements) only then. */
  lemma {:induction false} PickMember<T>(input: seq<T>, mask: nat, n: nat, j: nat)
    requires j < n <= |input|
    ensures Bit(mask, j) ==> input[j] in Pick(input, mask, n)
    ensures Distinct(input) && input[j] in Pick(input, mask, n) ==> Bit(mask, j)
  {
    if j < n - 1 {
      PickMember(input, mask, n - 1, j);
    }
    if Distinct(input) && input[j] in Pick(input, mask, n) {
      PickIsSelection(input, mask, n);
      PositionsMembers(mask, n);
      var i :| 0 <= i < |Pick(input, mask, n)| && Pick(input, mask, n)[i] == input[j];
      assert Positions(mask, n)[i] in Positions(mask, n);
    }
  }

  /** Every list a mask selects is a sub-list of input: all its elements come from input. */
  lemma {:induction false} PickInInput<T>(input: seq<T>, mask: nat, n: nat)
    requires n <= |input|
    ensures forall x :: x in Pick(input, mask, n) ==> x in input
  {
    if n > 0 {
      PickInInput(input, mask, n - 1);
    }
  }

  lemma {:induction false} BitZero(j: nat)
    ensures !Bit(0, j)
  {
    if j > 0 {
      BitZero(j - 1);
    }
  }

  lemma {:induction false} BitAllOnes(k: nat, j: nat)
    requires j < k
    ensures Bit(Pow2(k) - 1, j)
  {
    if j > 0 {
      assert (Pow2(k) - 1) / 2 == Pow2(k - 1) - 1;
      BitAllOnes(k - 1, j - 1);
    }
  }

  /** Mask 0 selects the empty list. */
  lemma SubsetOfZero<T>(input: seq<T>)
    ensures Subset(input, 0) == []
  {
    PickOfZero(input, |input|);
  }

  lemma {:induction false} PickOfZero<T>(input: seq<T>, n: nat)
    requires n <= |input|
    ensures Pick(input, 0, n) == []
  {
    if n > 0 {
      PickOfZero(input, n - 1);
      BitZero(n - 1);
    }
  }

  /** Mask 2^k - 1 selects the whole list. */
  lemma SubsetOfAllOnes<T>(input: seq<T>)
    ensures Subset(input, Pow2(|input|) - 1) == input
  {
    var k := |input|;
    forall n | 0 <= n <= k
      ensures Pick(input, Pow2(k) - 1, n) == input[..n]
    {
      PickAllOnes(input, n);
    }
    assert input[..k] == input;
  }

  lemma {:induction false} PickAllOnes<T>(input: seq<T>, n: nat)
    requires n <= |input|
    ensures Pick(input, Pow2(|input|) - 1, n) == input[..n]
  {
    if n > 0 {
      PickAllOnes(input, n - 1);
      BitAllOnes(|input|, n - 1);
      assert input[..n] == input[..n - 1] + [input[n - 1]];
    }
  }

  /** Two different masks below 2^k differ in some bit below k. */
  lemma {:induction false} DifferingBit(m1: nat, m2: nat, k: nat) returns (j: nat)
    requires m1 < Pow2(k) && m2 < Pow2(k) && m1 != m2
    ensures j < k && Bit(m1, j) != Bit(m2, j)
  {
    if m1 % 2 != m2 % 2 {
      j := 0;
    } else {
      assert k > 0;
      var j' := DifferingBit(m1 / 2, m2 / 2, k - 1);
      j := j' + 1;
    }
  }

  /** Over distinct elements, different masks select different lists. */
  lemma SubsetInjective<T>(input: seq<T>, m1: nat, m2: nat)
    requires Distinct(input)
    requires m1 < Pow2(|input|) && m2 < Pow2(|input|) && m1 != m2
    ensures Subset(input, m1) != Subset(input, m2)
  {
    var j := DifferingBit(m1, m2, |input|);
    PickMember(input, m1, |input|, j);
    PickMember(input, m2, |input|, j);
  }

  /**
   * The lists a traversal returns for the masks lo .. hi - 1, in mask order,
   * each kept only when the predicate accepts it.
   */
  function Enumerate<T>(input: seq<T>, accept: seq<T> -> bool, lo: nat, hi: nat): seq<seq<T>>
    decreases hi - lo
  {
    if lo >= hi then []
    else (if accept(LongSubset(input, lo)) then [LongSubset(input, lo)] else []) + Enumerate(input, accept, lo + 1, hi)
  }

  /**
   * Every list returned is accepted and selected by some mask in range,
   * and there are at most hi - lo of them.
   */
  lemma {:induction false} EnumerateSound<T>(input: seq<T>, accept: seq<T> -> bool, lo: nat, hi: nat)
    requires lo <= hi
    ensures |Enumerate(input, accept, lo, hi)| <= hi - lo
    ensures forall i :: 0 <= i < |Enumerate(input, accept, lo, hi)| ==>
              accept(Enumerate(input, accept, lo, hi)[i]) &&
              exists m :: lo <= m < hi && Enumerate(input, accept, lo, hi)[i] == LongSubset(input, m)
    decreases hi - lo
  {
    if lo < hi {
      EnumerateSound(input, accept, lo + 1, hi);
    }
  }

  /** Every list returned is accepted and all its elements come from input. */
  lemma EnumerateFromInput<T>(input: seq<T>, accept: seq<T> -> bool, lo: nat, hi: nat)
    requires lo <= hi
    ensures forall i :: 0 <= i < |Enumerate(input, accept, lo, hi)| ==>
              accept(Enumerate(input, accept, lo, hi)[i]) && forall x :: x in Enumerate(input, accept, lo, hi)[i] ==> x in input
  {
    EnumerateSound(input, accept, lo, hi);
    forall m: nat
      ensures forall x :: x in LongSubset(input, m) ==> x in input
    {
      LongPickInInput(input, m, |input|);
    }
  }

  /** With a predicate that accepts everything, exactly hi - lo lists come out, one per mask. */
  lemma {:induction false} EnumerateAllCount<T>(input: seq<T>, accept: seq<T> -> bool, lo: nat, hi: nat)
    requires forall l :: accept(l)
    requires lo <= hi
    ensures |Enumerate(input, accept, lo, hi)| == hi - lo
    ensures forall i :: 0 <= i < hi - lo ==> Enumerate(input, accept, lo, hi)[i] == LongSubset(input, lo + i)
    decreases hi - lo
  {
    if lo < hi {
      EnumerateAllCount(input, accept, lo + 1, hi);
    }
  }

  /**
   * The one-argument generator over k <= 62 elements returns 2^k lists:
   * the list of mask m is the m-th one.
   */
  lemma FullPowerSet<T>(input: seq<T>, accept: seq<T> -> bool)
    requires |input| <= 62 && forall l :: accept(l)
    ensures |Enumerate(input, accept, 0, LongPowerSetSize(|input|))| == Pow2(|input|)
    ensures forall m :: 0 <= m < Pow2(|input|) ==> Enumerate(input, accept, 0, LongPowerSetSize(|input|))[m] == Subset(input, m)
  {
    LongShiftExact(input);
    EnumerateAllCount(input, accept, 0, Pow2(|input|));
  }

  /** The always-true predicate of the one-argument PowerSetGenerator constructor. */
  function AcceptAll<T>(l: seq<T>): bool
  {
    true
  }

  /** PowerSetGenerator: an immutable copy of the input list and the subset predicate. */
  class PowerSetGenerator<T> {
    const input: seq<T>
    const accept: seq<T> -> bool

    constructor (originalSet: seq<T>, filter: seq<T> -> bool)
      ensures input == originalSet && accept == filter
    {
      input := originalSet;
      accept := filter;
    }

    /** The one-argument constructor: every subset passes. */
    constructor All(originalSet: seq<T>)
      ensures input == originalSet
      ensures forall l :: accept(l)
    {
      input := originalSet;
      accept := AcceptAll;
    }

    /** iterator(): a fresh traversal from mask 0. */
    method Iterator() returns (it: PowerSetIterator<T>)
      ensures fresh(it) && it.Valid()
      ensures it.input == input && it.accept == accept && it.index == 0
      ensures it.Remaining() == Enumerate(input, accept, 0, LongPowerSetSize(|input|))
    {
      it := new PowerSetIterator(input, accept);
    }
  }

  /**
   * PowerSetIterator: the next mask to try is index; masks index .. size - 1
   * remain, where size is 1L << k as Java computes it.
   */
  class PowerSetIterator<T> {
    const input: seq<T>
    const accept: seq<T> -> bool
    const size: nat
    var index: nat

    ghost predicate Valid()
      reads this
    {
      size == LongPowerSetSize(|input|) && index <= size
    }

    /** The lists this traversal has still to return. */
    ghost function Remaining(): seq<seq<T>>
      reads this
      requires Valid()
    {
      Enumerate(input, accept, index, size)
    }

    constructor (input: seq<T>, accept: seq<T> -> bool)
      ensures Valid() && this.input == input && this.accept == accept && index == 0
    {
      this.input := input;
      this.accept := accept;
      size := LongPowerSetSize(|input|);
      index := 0;
    }

    /**
     * computeNext: try masks from index upward; return the first accepted
     * list, or None (end of data) once every mask has been tried.
     */
    method ComputeNext() returns (r: Option<seq<T>>)
      requires Valid()
      modifies this
      ensures Valid()
      ensures old(index) <= index
      ensures r.None? ==> index == size && old(Remaining()) == []
      ensures r.Some? ==> old(index) < index && r.value == LongSubset(input, index - 1) && accept(r.value)
      ensures forall m :: old(index) <= m < index - 1 ==> !accept(LongSubset(input, m))
      ensures r.Some? ==> old(Remaining()) == [r.value] + Remaining()
    {
      ghost var start := index;
      while true
        invariant Valid() && start <= index
        invariant forall m :: start <= m < index ==> !accept(LongSubset(input, m))
        invariant Enumerate(input, accept, start, size) == Enumerate(input, accept, index, size)
        decreases size - index
      {
        if index >= size {
          return None;
        }
        var subSet := SelectByLongMask(input, index);
        index := index + 1;
        if accept(subSet) {
          return Some(subSet);
        }
      }
    }
  }
}
