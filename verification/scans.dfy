/**
 * Read-only scans over the controller's per-bay arrays.
 *
 * Every array of the controller has one entry per bay, with index 0 kept as a
 * "fail safe" slot that the real bays (1, 2, 3) never use.  The scans here only
 * read: counting the occupied bays, testing whether any flag is set, and
 * picking the fullest available battery.
 */
module Scans {

  /** bool_from_array_to_int: 1 when the entry at `index` is set, 0 otherwise. */
  function BoolFromArrayToInt(s: seq<bool>, index: int): (r: int)
    requires 0 <= index < |s|
    ensures r == 0 || r == 1
    ensures r == 1 <==> s[index]
  {
    if s[index] == true then 1 else 0
  }

  /**
   * The value parking_status_array computes: the number of set entries at
   * indices 1 .. size-1, summed from left to right.  Index 0 is never counted.
   */
  function CountParked(s: seq<bool>, size: int): (n: nat)
    requires size <= |s|
    ensures size <= 1 ==> n == 0
    ensures size > 1 ==> n <= size - 1
    decreases size
  {
    if size <= 1 then 0 else CountParked(s, size - 1) + BoolFromArrayToInt(s, size - 1)
  }

  /** The set of real bays (index 1 .. size-1) whose entry is set. */
  function ParkedBays(s: seq<bool>, size: int): set<int>
    requires size <= |s|
  {
    set i | 1 <= i < size && s[i]
  }

  /** The running count agrees with the size of the set of set entries. */
  lemma {:induction false} CountParkedIsCardinality(s: seq<bool>, size: int)
    requires size <= |s|
    ensures CountParked(s, size) == |ParkedBays(s, size)|
    decreases size
  {
    if size <= 1 {
      assert ParkedBays(s, size) == {};
    } else {
      CountParkedIsCardinality(s, size - 1);
      if s[size - 1] {
        assert ParkedBays(s, size) == ParkedBays(s, size - 1) + {size - 1};
      } else {
        assert ParkedBays(s, size) == ParkedBays(s, size - 1);
      }
    }
  }

  /** The count is positive exactly when some real bay is set. */
  lemma {:induction false} CountParkedPositive(s: seq<bool>, size: int)
    requires size <= |s|
    ensures CountParked(s, size) > 0 <==> exists i :: 1 <= i < size && s[i]
    decreases size
  {
    if size > 1 {
      CountParkedPositive(s, size - 1);
      if !s[size - 1] {
        assert forall i :: 1 <= i < size && s[i] ==> i < size - 1;
      }
    }
  }

  /** Clearing one set real bay lowers the count by exactly one. */
  lemma {:induction false} CountParkedClear(s: seq<bool>, size: int, k: int)
    requires size <= |s|
    requires 1 <= k < size && s[k]
    ensures CountParked(s[k := false], size) == CountParked(s, size) - 1
    decreases size
  {
    if k < size - 1 {
      CountParkedClear(s, size - 1, k);
    } else {
      CountParkedUnchanged(s, s[k := false], size - 1);
    }
  }

  /** The count only looks at indices 1 .. size-1. */
  lemma {:induction false} CountParkedUnchanged(s: seq<bool>, t: seq<bool>, size: int)
    requires size <= |s| && size <= |t|
    requires forall i :: 1 <= i < size ==> s[i] == t[i]
    ensures CountParked(s, size) == CountParked(t, size)
    decreases size
  {
    if size > 1 {
      CountParkedUnchanged(s, t, size - 1);
    }
  }

  /** parking_status_array: counts the set entries at indices 1 .. size-1. */
  method ParkingStatusArray(varArray: array<bool>, size: int) returns (sum: int)
    requires size <= varArray.Length
    ensures sum == CountParked(varArray[..], size)
    ensures sum == |ParkedBays(varArray[..], size)|
    ensures 0 <= sum && (size >= 1 ==> sum <= size - 1)
  {
    sum := 0;
    var i := 1;
    while i < size
      invariant 1 <= i && (size > 1 ==> i <= size)
      invariant sum == CountParked(varArray[..], if size > 1 then i else size)
    {
      sum := sum + BoolFromArrayToInt(varArray[..], i);
      i := i + 1;
    }
    CountParkedIsCardinality(varArray[..], size);
  }

  /** array_contains_true: whether any of the first `size` entries is set. */
  method ArrayContainsTrue(flags: array<bool>, size: int) returns (found: bool)
    requires size <= flags.Length
    ensures found <==> exists i :: 0 <= i < size && flags[i]
  {
    var i := 0;
    while i < size
      invariant 0 <= i <= (if size > 0 then size else 0)
      invariant forall j :: 0 <= j < i ==> !flags[j]
    {
      if flags[i] {
        return true;
      }
      i := i + 1;
    }
    return false;
  }

  /** The running state of find_max_index: the biggest element seen and its index. */
  datatype Best = Best(element: int, index: nat)

  /** An entry find_max_index can pick: available and strictly positive. */
  predicate Candidate(elements: seq<int>, available: seq<bool>, i: int)
    requires 0 <= i < |elements| && i < |available|
  {
    available[i] && elements[i] > 0
  }

  /**
   * The state of find_max_index after looking at the first n entries: it starts
   * from (0, 0) and moves to entry i only when i is available and its element
   * is strictly bigger than the biggest seen so far.
   */
  function Scan(elements: seq<int>, available: seq<bool>, n: nat): (b: Best)
    requires n <= |elements| && n <= |available|
    ensures b.element >= 0
    ensures b.index == 0 || b.index < n
  {
    if n == 0 then Best(0, 0)
    else
      var b := Scan(elements, available, n - 1);
      if available[n - 1] && elements[n - 1] > b.element then Best(elements[n - 1], n - 1) else b
  }

  /**
   * The scan picks the lowest-indexed maximum among the candidates, and index 0
   * with element 0 when there is no candidate at all.
   */
  lemma {:induction false} ScanFindsFirstMaximum(elements: seq<int>, available: seq<bool>, n: nat)
    requires n <= |elements| && n <= |available|
    ensures var b := Scan(elements, available, n);
      && ((b.element == 0 && b.index == 0) ||
          (b.index < n && Candidate(elements, available, b.index) && b.element == elements[b.index]))
      && (b.element == 0 <==> forall j :: 0 <= j < n ==> !Candidate(elements, available, j))
      && (forall j :: 0 <= j < n && available[j] ==> elements[j] <= b.element)
      && (forall j :: 0 <= j < b.index && available[j] ==> elements[j] < b.element)
  {
    if n > 0 {
      ScanFindsFirstMaximum(elements, available, n - 1);
    }
  }

  /**
   * find_max_index: the index of the biggest available positive element among
   * the first `size`; on a tie the lowest index wins, and 0 when there is none.
   */
  method FindMaxIndex(elements: array<int>, available: array<bool>, size: int) returns (index: int)
    requires size <= elements.Length && size <= available.Length
    ensures index == Scan(elements[..], available[..], if size > 0 then size else 0).index
    ensures 0 <= index && (index == 0 || index < size)
    ensures (exists i :: 0 <= i < size && available[i] && elements[i] > 0) ==>
      && index < size && available[index] && elements[index] > 0
      && (forall j :: 0 <= j < size && available[j] ==> elements[j] <= elements[index])
      && (forall j :: 0 <= j < index && available[j] ==> elements[j] < elements[index])
    ensures (forall i :: 0 <= i < size ==> !(available[i] && elements[i] > 0)) ==> index == 0
  {
    var biggest := 0;
    index := 0;
    var i := 0;
    while i < size
      invariant 0 <= i <= (if size > 0 then size else 0)
      invariant biggest == Scan(elements[..], available[..], i).element
      invariant index == Scan(elements[..], available[..], i).index
    {
      if available[i] {
        if elements[i] > biggest {
          biggest := elements[i];
          index := i;
        }
      }
      i := i + 1;
    }
    ScanFindsFirstMaximum(elements[..], available[..], i);
  }
}
