/** SetUtils.powerSet: the eager power set, every mask's list collected into a set. */
module SetUtils {
  import opened Wrappers
  import opened PowerSet

  /**
   * 1 << k on a Java int: the shift distance is taken mod 32, and 1 << 31
   * is negative, so no mask lies below it.
   */
  function IntPowerSetSize(k: nat): nat
  {
    if k % 32 == 31 then 0 else Pow2(k % 32)
  }

  /** The selection made with (i >> j) % 2 on a Java int, whose shift distance is j mod 32. */
  function IntPick<T>(input: seq<T>, mask: nat, n: nat): seq<T>
    requires n <= |input|
  {
    if n == 0 then [] else IntPick(input, mask, n - 1) + (if Bit(mask, (n - 1) % 32) then [input[n - 1]] else [])
  }

  function IntSubset<T>(input: seq<T>, mask: nat): seq<T>
  {
    IntPick(input, mask, |input|)
  }

  /** The inner loop of powerSet: collect list.get(j) for every set bit j of the int mask. */
  method SelectByIntMask<T>(input: seq<T>, mask: nat) returns (sub: seq<T>)
    ensures sub == IntSubset(input, mask)
  {
    sub := [];
    for j := 0 to |input|
      invariant sub == IntPick(input, mask, j)
    {
      if Bit(mask, j % 32) {
        sub := sub + [input[j]];
      }
    }
  }

  /** Up to 32 elements the int shift selects exactly what the plain bit test does. */
  lemma {:induction false} IntPickIsPick<T>(input: seq<T>, mask: nat, n: nat)
    requires n <= |input| && n <= 32
    ensures IntPick(input, mask, n) == Pick(input, mask, n)
  {
    if n > 0 {
      IntPickIsPick(input, mask, n - 1);
    }
  }

  /** Every element of an int-mask selection comes from input. */
  lemma {:induction false} IntPickInInput<T>(input: seq<T>, mask: nat, n: nat)
    requires n <= |input|
    ensures forall x :: x in IntPick(input, mask, n) ==> x in input
  {
    if n > 0 {
      IntPickInInput(input, mask, n - 1);
    }
  }

  /** Up to 30 elements 1 << n is 2^n and the int selection is the plain one. */
  lemma IntShiftExact<T>(input: seq<T>)
    requires |input| <= 30
    ensures IntPowerSetSize(|input|) == Pow2(|input|)
    ensures forall m :: IntSubset(input, m) == Subset(input, m)
  {
    var k := |input|;
    assert k % 32 == k;
    forall m: nat
      ensures IntSubset(input, m) == Subset(input, m)
    {
      IntPickIsPick(input, m, k);
    }
  }

  /** The lists of the masks below 1 << n are made of input elements. */
  lemma IntMasksFromInput<T>(input: seq<T>, lists: set<seq<T>>)
    requires lists == set m | 0 <= m < IntPowerSetSize(|input|) :: IntSubset(input, m)
    ensures forall l :: l in lists ==> forall x :: x in l ==> x in input
  {
    forall l | l in lists
      ensures forall x :: x in l ==> x in input
    {
      var m :| 0 <= m < IntPowerSetSize(|input|) && l == IntSubset(input, m);
      IntPickInInput(input, m, |input|);
    }
  }

  /** Up to 30 elements the masks below 1 << n select every bit subset, [] and the input among them. */
  lemma IntMasksAllSubsets<T>(input: seq<T>, lists: set<seq<T>>)
    requires |input| <= 30
    requires lists == set m | 0 <= m < IntPowerSetSize(|input|) :: IntSubset(input, m)
    ensures lists == set m | 0 <= m < Pow2(|input|) :: Subset(input, m)
    ensures [] in lists && input in lists
  {
    IntShiftExact(input);
    SubsetOfZero(input);
    SubsetOfAllOnes(input);
    assert IntSubset(input, 0) == [];
    assert IntSubset(input, Pow2(|input|) - 1) == input;
  }

  /** One more mask adds its list to the lists of the masks below it. */
  lemma IntMasksStep<T>(input: seq<T>, i: nat, lists: set<seq<T>>)
    requires lists == set m | 0 <= m < i :: IntSubset(input, m)
    ensures lists + {IntSubset(input, i)} == set m | 0 <= m < i + 1 :: IntSubset(input, m)
  {
  }

  /** Over distinct elements and up to 30 of them, a mask's list is not among those of smaller masks. */
  lemma IntMaskFresh<T>(input: seq<T>, i: nat, lists: set<seq<T>>)
    requires |input| <= 30 && Distinct(input) && i < IntPowerSetSize(|input|)
    requires lists == set m | 0 <= m < i :: IntSubset(input, m)
    ensures IntSubset(input, i) !in lists
  {
    IntShiftExact(input);
    forall m | 0 <= m < i
      ensures IntSubset(input, m) != IntSubset(input, i)
    {
      SubsetInjective(input, m, i);
    }
  }

  /**
   * The result holds the list of every mask below 1 << n. Up to 30 elements
   * that is every mask 0 .. 2^n - 1, so the empty list and the whole input
   * are members and, for distinct elements, there are 2^n lists. When n mod
   * 32 is 31, 1 << n is Integer.MIN_VALUE and the hash set refuses that
   * negative expected size with IllegalArgumentException before any mask is
   * visited.
   */
  method PowerSetOf<T(==)>(originalSet: seq<T>) returns (r: Result<set<seq<T>>>)
    ensures r.Failure? <==> |originalSet| % 32 == 31
    ensures r.Success? ==> r.value == set m | 0 <= m < IntPowerSetSize(|originalSet|) :: IntSubset(originalSet, m)
    ensures r.Success? ==> forall l :: l in r.value ==> forall x :: x in l ==> x in originalSet
    ensures |originalSet| <= 30 ==> r.Success? && r.value == set m | 0 <= m < Pow2(|originalSet|) :: Subset(originalSet, m)
    ensures |originalSet| <= 30 ==> r.Success? && [] in r.value && originalSet in r.value
    ensures |originalSet| <= 30 && Distinct(originalSet) ==> r.Success? && |r.value| == Pow2(|originalSet|)
  {
    var list := originalSet;
    var n := |list|;
    if n % 32 == 31 {
      return Failure("IllegalArgumentException: expectedSize cannot be negative");
    }
    var powerSetSize := IntPowerSetSize(n);
    var powerSet := {};
    for i := 0 to powerSetSize
      invariant powerSet == set m | 0 <= m < i :: IntSubset(list, m)
      invariant n <= 30 && Distinct(list) ==> |powerSet| == i
    {
      var subSet := SelectByIntMask(list, i);
      if n <= 30 && Distinct(list) {
        IntMaskFresh(list, i, powerSet);
      }
      IntMasksStep(list, i, powerSet);
      powerSet := powerSet + {subSet};
    }
    IntMasksFromInput(list, powerSet);
    if n <= 30 {
      IntShiftExact(list);
      IntMasksAllSubsets(list, powerSet);
    }
    return Success(powerSet);
  }
}
