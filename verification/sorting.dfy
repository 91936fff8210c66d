/**
 * The three sort probes: `bubble`, `selection` and `mergeSort`/`merge`.
 *
 * Every copy of the service copies its input with `list(randomList)` and
 * sorts that private copy, so here each sort takes the list as a value and
 * sorts a freshly allocated array in place. `bubble` swaps neighbours when
 * `a[j] < a[j + 1]` and so sorts in DESCENDING order; `selection` and
 * `merge` take the smaller element first and so sort in ASCENDING order.
 */
module Sorting {

  /** Ascending order, as `selection` and `mergeSort` produce. */
  predicate NonDecreasing(s: seq<int>) {
    forall i, j :: 0 <= i < j < |s| ==> s[i] <= s[j]
  }

  /** Descending order, as `bubble` produces. */
  predicate NonIncreasing(s: seq<int>) {
    forall i, j :: 0 <= i < j < |s| ==> s[i] >= s[j]
  }

  /** A fresh array holding the elements of `s`: Python's `list(randomList)`. */
  method CopyToArray(s: seq<int>) returns (a: array<int>)
    ensures fresh(a) && a[..] == s
  {
    a := new int[|s|](k requires 0 <= k < |s| => s[k]);
    assert a[..] == s;
  }

  // ---------------------------------------------------------------- bubble

  /**
   * One pass of the inner loop of `bubble` over `a[0..last]`: neighbours are
   * swapped when the left one is smaller, so the smallest value of the
   * prefix sinks to position `last`. Everything from `last + 1` on is left
   * alone, and if every element of the prefix was at least every element
   * of the suffix, it still is.
   */
  method BubblePass(a: array<int>, last: nat)
    requires last < a.Length
    requires forall p, q :: 0 <= p <= last < q < a.Length ==> a[p] >= a[q]
    modifies a
    ensures multiset(a[..]) == old(multiset(a[..]))
    ensures forall k :: 0 <= k < last ==> a[k] >= a[last]
    ensures forall k :: last < k < a.Length ==> a[k] == old(a[k])
    ensures forall p, q :: 0 <= p <= last < q < a.Length ==> a[p] >= a[q]
  {
    for j := 0 to last
      invariant forall k :: 0 <= k < j ==> a[k] >= a[j]
      invariant forall k :: last < k < a.Length ==> a[k] == old(a[k])
      invariant forall p, q :: 0 <= p <= last < q < a.Length ==> a[p] >= a[q]
      invariant multiset(a[..]) == old(multiset(a[..]))
    {
      if a[j] < a[j + 1] {
        Swap(a, j, j + 1);
      }
    }
  }

  /**
   * `bubble`: after pass `i` the last `i + 1` slots hold the `i + 1`
   * smallest values in descending order; the result is a non-increasing
   * permutation of the input.
   */
  method Bubble(randomList: seq<int>) returns (bubbleList: seq<int>)
    ensures NonIncreasing(bubbleList)
    ensures multiset(bubbleList) == multiset(randomList)
  {
    var a := CopyToArray(randomList);
    var n := a.Length;
    for i := 0 to n
      invariant multiset(a[..]) == multiset(randomList)
      invariant NonIncreasing(a[n - i..])
      invariant forall p, q :: 0 <= p < n - i <= q < n ==> a[p] >= a[q]
    {
      BubblePass(a, n - i - 1);
    }
    bubbleList := a[..];
  }

  // ------------------------------------------------------------- selection

  /**
   * The inner loop of `selection`: the index of the first smallest element
   * of `a[i..]` (a later element replaces the candidate only when it is
   * strictly smaller).
   */
  method SmallestFrom(a: array<int>, i: nat) returns (smallestIndex: nat)
    requires i < a.Length
    ensures i <= smallestIndex < a.Length
    ensures forall k :: i <= k < a.Length ==> a[smallestIndex] <= a[k]
    ensures forall k :: i <= k < smallestIndex ==> a[k] > a[smallestIndex]
  {
    smallestIndex := i;
    for j := i + 1 to a.Length
      invariant i <= smallestIndex < j
      invariant forall k :: i <= k < j ==> a[smallestIndex] <= a[k]
      invariant forall k :: i <= k < smallestIndex ==> a[k] > a[smallestIndex]
    {
      if a[j] < a[smallestIndex] {
        smallestIndex := j;
      }
    }
  }

  /**
   * `selection`: after iteration `i`, positions `0..i` hold the `i + 1`
   * smallest elements in non-decreasing order; the result is a
   * non-decreasing permutation of the input.
   */
  method Selection(randomList: seq<int>) returns (selectionList: seq<int>)
    ensures NonDecreasing(selectionList)
    ensures multiset(selectionList) == multiset(randomList)
  {
    var a := CopyToArray(randomList);
    var n := a.Length;
    for i := 0 to n
      invariant multiset(a[..]) == multiset(randomList)
      invariant forall p, q :: 0 <= p < q < i ==> a[p] <= a[q]
      invariant forall p, q :: 0 <= p < i <= q < n ==> a[p] <= a[q]
    {
      var smallestIndex := SmallestFrom(a, i);
      Swap(a, i, smallestIndex);
    }
    selectionList := a[..];
  }

  /** Python's tuple swap `a[i], a[j] = a[j], a[i]`. */
  method Swap(a: array<int>, i: nat, j: nat)
    requires i < a.Length && j < a.Length
    modifies a
    ensures a[i] == old(a[j]) && a[j] == old(a[i])
    ensures forall k :: 0 <= k < a.Length && k != i && k != j ==> a[k] == old(a[k])
    ensures multiset(a[..]) == old(multiset(a[..]))
  {
    a[i], a[j] := a[j], a[i];
  }

  // ----------------------------------------------------------------- merge

  /**
   * What `merge` appends: the smaller head first, and the head of `right`
   * when the heads are equal (the test is `left[i] < right[j]`); once one
   * side is used up, the rest of the other.
   */
  function MergeOf(left: seq<int>, right: seq<int>): seq<int>
    decreases |left| + |right|
  {
    if left == [] then right
    else if right == [] then left
    else if left[0] < right[0] then [left[0]] + MergeOf(left[1..], right)
    else [right[0]] + MergeOf(left, right[1..])
  }

  /**
   * One turn of the `while` loop of `merge` keeps `result` followed by
   * the merge of what is left equal to the whole merge.
   */
  lemma MergeOfStep(left: seq<int>, right: seq<int>, i: int, j: int, result: seq<int>)
    requires 0 <= i < |left| && 0 <= j < |right|
    requires result + MergeOf(left[i..], right[j..]) == MergeOf(left, right)
    ensures left[i] < right[j] ==>
              result + [left[i]] + MergeOf(left[i + 1..], right[j..]) == MergeOf(left, right)
    ensures !(left[i] < right[j]) ==>
              result + [right[j]] + MergeOf(left[i..], right[j + 1..]) == MergeOf(left, right)
  {
    assert left[i..][1..] == left[i + 1..];
    assert right[j..][1..] == right[j + 1..];
    if left[i] < right[j] {
      assert MergeOf(left[i..], right[j..]) == [left[i]] + MergeOf(left[i + 1..], right[j..]);
    } else {
      assert MergeOf(left[i..], right[j..]) == [right[j]] + MergeOf(left[i..], right[j + 1..]);
    }
  }

  /** Once one side is used up, appending both remainders completes the merge. */
  lemma MergeOfDrain(left: seq<int>, right: seq<int>, i: int, j: int, result: seq<int>)
    requires 0 <= i <= |left| && 0 <= j <= |right| && (i == |left| || j == |right|)
    requires result + MergeOf(left[i..], right[j..]) == MergeOf(left, right)
    ensures result + left[i..] + right[j..] == MergeOf(left, right)
  {
    assert MergeOf(left[i..], right[j..]) == left[i..] + right[j..];
  }

  /** Merging loses and invents nothing. */
  lemma {:induction false} MergeOfPermutation(left: seq<int>, right: seq<int>)
    ensures multiset(MergeOf(left, right)) == multiset(left) + multiset(right)
    ensures |MergeOf(left, right)| == |left| + |right|
    decreases |left| + |right|
  {
    if left == [] || right == [] {
    } else if left[0] < right[0] {
      MergeOfPermutation(left[1..], right);
      ConsMultiset(left);
      ConsMultiset(MergeOf(left, right));
      assert MergeOf(left, right)[1..] == MergeOf(left[1..], right);
    } else {
      MergeOfPermutation(left, right[1..]);
      ConsMultiset(right);
      ConsMultiset(MergeOf(left, right));
      assert MergeOf(left, right)[1..] == MergeOf(left, right[1..]);
    }
  }

  /** A non-empty list holds its head and the elements of its tail. */
  lemma ConsMultiset(s: seq<int>)
    requires s != []
    ensures multiset(s) == multiset{s[0]} + multiset(s[1..])
  {
    assert s == [s[0]] + s[1..];
  }

  /** The first element of a merge is the head of one of its inputs. */
  lemma MergeOfHead(left: seq<int>, right: seq<int>)
    requires MergeOf(left, right) != []
    ensures (left != [] && MergeOf(left, right)[0] == left[0])
         || (right != [] && MergeOf(left, right)[0] == right[0])
  {
  }

  /** Merging two ascending lists gives an ascending list. */
  lemma {:induction false} MergeOfSorted(left: seq<int>, right: seq<int>)
    requires NonDecreasing(left) && NonDecreasing(right)
    ensures NonDecreasing(MergeOf(left, right))
    decreases |left| + |right|
  {
    if left == [] || right == [] {
    } else if left[0] < right[0] {
      var rest := MergeOf(left[1..], right);
      MergeOfSorted(left[1..], right);
      if rest != [] {
        MergeOfHead(left[1..], right);
      }
      assert forall k :: 0 <= k < |rest| ==> left[0] <= rest[k] by {
        forall k | 0 <= k < |rest| ensures left[0] <= rest[k] {
          if rest != [] { assert left[0] <= rest[0]; }
        }
      }
    } else {
      var rest := MergeOf(left, right[1..]);
      MergeOfSorted(left, right[1..]);
      if rest != [] {
        MergeOfHead(left, right[1..]);
      }
      assert forall k :: 0 <= k < |rest| ==> right[0] <= rest[k] by {
        forall k | 0 <= k < |rest| ensures right[0] <= rest[k] {
          if rest != [] { assert right[0] <= rest[0]; }
        }
      }
    }
  }

  /**
   * `merge`: the `while` loop appends the smaller head until one side is
   * used up, then both remainders are appended. The result is the merge of
   * the two lists, holds `len(left) + len(right)` elements, and is
   * non-decreasing when both inputs are.
   */
  method Merge(left: seq<int>, right: seq<int>) returns (result: seq<int>)
    ensures result == MergeOf(left, right)
    ensures multiset(result) == multiset(left) + multiset(right)
    ensures |result| == |left| + |right|
    ensures NonDecreasing(left) && NonDecreasing(right) ==> NonDecreasing(result)
  {
    result := [];
    var i, j := 0, 0;
    while i < |left| && j < |right|
      invariant 0 <= i <= |left| && 0 <= j <= |right|
      invariant result + MergeOf(left[i..], right[j..]) == MergeOf(left, right)
      decreases |left| - i + |right| - j
    {
      MergeOfStep(left, right, i, j, result);
      if left[i] < right[j] {
        result := result + [left[i]];
        i := i + 1;
      } else {
        result := result + [right[j]];
        j := j + 1;
      }
    }
    MergeOfDrain(left, right, i, j, result);
    result := result + left[i..];
    result := result + right[j..];
    MergeOfPermutation(left, right);
    if NonDecreasing(left) && NonDecreasing(right) {
      MergeOfSorted(left, right);
    }
  }

  /**
   * `mergeSort`: lists of length at most one come back unchanged; longer
   * ones are split at `int(len / 2)`, both halves sorted and merged. The
   * result is a non-decreasing permutation of the input.
   */
  method MergeSort(randomList: seq<int>) returns (mergeList: seq<int>)
    ensures NonDecreasing(mergeList)
    ensures multiset(mergeList) == multiset(randomList)
    ensures |mergeList| == |randomList|
    ensures |randomList| <= 1 ==> mergeList == randomList
    decreases |randomList|
  {
    if |randomList| <= 1 {
      return randomList;
    }
    var middle := |randomList| / 2;
    var left := MergeSort(randomList[..middle]);
    var right := MergeSort(randomList[middle..]);
    assert randomList == randomList[..middle] + randomList[middle..];
    mergeList := Merge(left, right);
  }

  // --------------------------------------------------- comparing the sorts

  /** The list read back to front. */
  function Reversed(s: seq<int>): seq<int>
  {
    if s == [] then [] else [s[|s| - 1]] + Reversed(s[..|s| - 1])
  }

  lemma {:induction false} ReversedIndex(s: seq<int>, k: int)
    requires 0 <= k < |s|
    ensures |Reversed(s)| == |s|
    ensures Reversed(s)[k] == s[|s| - 1 - k]
    decreases |s|
  {
    if k > 0 {
      ReversedIndex(s[..|s| - 1], k - 1);
    } else if |s| > 1 {
      ReversedIndex(s[..|s| - 1], 0);
    }
  }

  lemma {:induction false} ReversedMultiset(s: seq<int>)
    ensures multiset(Reversed(s)) == multiset(s)
    decreases |s|
  {
    if s != [] {
      ReversedMultiset(s[..|s| - 1]);
      assert s == s[..|s| - 1] + [s[|s| - 1]];
    }
  }

  /** The head of an ascending list is at most any of its elements. */
  lemma HeadIsLeast(s: seq<int>, x: int)
    requires NonDecreasing(s) && x in multiset(s)
    ensures s != [] && s[0] <= x
  {
    assert x in s;
  }

  /** Two ascending lists with the same elements are the same list. */
  lemma {:induction false} SortedPermutationsEqual(a: seq<int>, b: seq<int>)
    requires NonDecreasing(a) && NonDecreasing(b)
    requires multiset(a) == multiset(b)
    ensures a == b
    decreases |a|
  {
    if a != [] {
      HeadIsLeast(b, a[0]);
      HeadIsLeast(a, b[0]);
      assert a[0] == b[0];
      assert a == [a[0]] + a[1..];
      assert b == [b[0]] + b[1..];
      assert multiset(a[1..]) == multiset(a) - multiset{a[0]};
      assert multiset(b[1..]) == multiset(b) - multiset{b[0]};
      SortedPermutationsEqual(a[1..], b[1..]);
    }
  }

  /** Reversing a descending list gives an ascending one of the same length. */
  lemma ReversedDescending(d: seq<int>)
    requires NonIncreasing(d)
    ensures |Reversed(d)| == |d| && NonDecreasing(Reversed(d))
  {
    var r := Reversed(d);
    if d != [] {
      ReversedIndex(d, 0);
    }
    forall i, j | 0 <= i < j < |r| ensures r[i] <= r[j] {
      ReversedIndex(d, i);
      ReversedIndex(d, j);
    }
  }

  /** Reversing twice gives the list back. */
  lemma ReversedTwice(s: seq<int>)
    ensures Reversed(Reversed(s)) == s
  {
    var r := Reversed(s);
    if s != [] {
      ReversedIndex(s, 0);
      ReversedIndex(r, 0);
    }
    forall k | 0 <= k < |s| ensures Reversed(r)[k] == s[k] {
      ReversedIndex(r, k);
      ReversedIndex(s, |s| - 1 - k);
    }
  }

  /**
   * A descending list and an ascending list with the same elements are
   * each other's reverse.
   */
  lemma DescendingIsReversedAscending(d: seq<int>, s: seq<int>)
    requires NonIncreasing(d) && NonDecreasing(s)
    requires multiset(d) == multiset(s)
    ensures d == Reversed(s)
  {
    ReversedDescending(d);
    ReversedMultiset(d);
    SortedPermutationsEqual(Reversed(d), s);
    ReversedTwice(d);
  }
}
