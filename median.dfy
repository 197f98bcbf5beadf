/** The median filter of Sources/median.c: an exchange sort of a copy of the samples
    followed by the middle element (odd count) or the truncated mean of the two middle
    elements (even count). */
module Median {
  import opened Types

  // ---------------------------------------------------------------------------------------
  // Reference definitions

  predicate Sorted(s: seq<int16>)
  {
    forall p, q :: 0 <= p < q < |s| ==> s[p] <= s[q]
  }

  /** Inserts x into the ascending sequence s. */
  function Insert(x: int16, s: seq<int16>): (t: seq<int16>)
    requires Sorted(s)
    ensures Sorted(t) && multiset(t) == multiset(s) + multiset{x}
    ensures |t| == |s| + 1
  {
    if s == [] then [x]
    else if x <= s[0] then [x] + s
    else
      var r := Insert(x, s[1..]);
      LowerBound(s, x, r);
      ConsSorted(s[0], r);
      assert s == [s[0]] + s[1..];
      [s[0]] + r
  }

  /** Everything in the tail of an ascending sequence, and anything above its head, is
      at least its head. */
  lemma LowerBound(s: seq<int16>, x: int16, r: seq<int16>)
    requires Sorted(s) && s != [] && s[0] < x
    requires multiset(r) == multiset(s[1..]) + multiset{x}
    ensures forall k :: 0 <= k < |r| ==> s[0] <= r[k]
  {
    forall k | 0 <= k < |r|
      ensures s[0] <= r[k]
    {
      assert r[k] in multiset(r);
    }
  }

  lemma ConsSorted(x: int16, r: seq<int16>)
    requires Sorted(r) && forall k :: 0 <= k < |r| ==> x <= r[k]
    ensures Sorted([x] + r)
  {
  }

  /** The samples in ascending order, independently of how they are sorted. */
  function SortSeq(s: seq<int16>): (t: seq<int16>)
    ensures Sorted(t) && multiset(t) == multiset(s) && |t| == |s|
  {
    if s == [] then []
    else
      assert s == [s[0]] + s[1..];
      Insert(s[0], SortSeq(s[1..]))
  }

  /** Two ascending sequences holding the same samples are equal, so "the samples sorted"
      does not depend on the sorting algorithm. */
  lemma {:induction false} SortedUnique(s: seq<int16>, t: seq<int16>)
    requires Sorted(s) && Sorted(t) && multiset(s) == multiset(t)
    ensures s == t
    decreases |s|
  {
    assert |s| == |multiset(s)| == |multiset(t)| == |t|;
    if s != [] {
      SameHead(s, t);
      TailMultiset(s);
      TailMultiset(t);
      SortedUnique(s[1..], t[1..]);
      assert s == [s[0]] + s[1..] && t == [t[0]] + t[1..];
    }
  }

  /** Both heads are the smallest sample. */
  lemma SameHead(s: seq<int16>, t: seq<int16>)
    requires Sorted(s) && Sorted(t) && multiset(s) == multiset(t) && s != [] && t != []
    ensures s[0] == t[0]
  {
    assert s[0] in multiset(t) && t[0] in multiset(s);
    var i :| 0 <= i < |t| && t[i] == s[0];
    var j :| 0 <= j < |s| && s[j] == t[0];
  }

  lemma TailMultiset(s: seq<int16>)
    requires s != []
    ensures multiset(s[1..]) == multiset(s) - multiset{s[0]}
    ensures Sorted(s) ==> Sorted(s[1..])
  {
    assert s == [s[0]] + s[1..];
  }

  /** The return expression of Median_Filter on an ascending sequence: the middle element
      for an odd count, else the mean of the two middle elements computed in int with C's
      truncating division. */
  function MedianOfSorted(t: seq<int16>): (m: int16)
    requires |t| >= 1 && Sorted(t)
    ensures t[0] <= m <= t[|t| - 1]
    ensures |t| % 2 == 1 ==> m == t[|t| / 2]
    ensures |t| % 2 == 0 ==> t[|t| / 2 - 1] <= m <= t[|t| / 2]
  {
    if |t| % 2 == 1 then t[|t| / 2]
    else
      var lo, hi := t[|t| / 2 - 1], t[|t| / 2];
      var q := TruncDiv(hi + lo, 2);
      assert lo <= q <= hi;
      q
  }

  /** The median of the samples: it lies between the smallest and the largest sample, and
      for an odd count it is one of the samples. */
  function Median(s: seq<int16>): (m: int16)
    requires |s| >= 1
    ensures exists k :: 0 <= k < |s| && s[k] <= m
    ensures exists l :: 0 <= l < |s| && m <= s[l]
    ensures |s| % 2 == 1 ==> m in s
  {
    var t := SortSeq(s);
    assert t[0] in multiset(s) && t[|t| - 1] in multiset(s);
    assert t[|t| / 2] in multiset(s);
    MedianOfSorted(t)
  }

  // ---------------------------------------------------------------------------------------
  // Properties of the median

  /** The order in which the samples arrive does not change the median. */
  lemma MedianPermutation(s: seq<int16>, r: seq<int16>)
    requires |s| >= 1 && multiset(s) == multiset(r)
    ensures |r| == |s| && Median(s) == Median(r)
  {
    assert |r| == |multiset(r)| == |multiset(s)| == |s|;
    SortedUnique(SortSeq(s), SortSeq(r));
  }

  // ---------------------------------------------------------------------------------------
  // The filter

  /** Positions before i hold their final values: each is no larger than anything after it. */
  predicate Settled(s: seq<int16>, i: nat)
  {
    forall p, q :: 0 <= p < q < |s| && p < i ==> s[p] <= s[q]
  }

  /** The swap of the inner loop keeps the settled prefix, keeps position i the smallest of
      positions i..j, and only permutes the samples. */
  lemma SwapKeeps(s: seq<int16>, i: nat, j: nat)
    requires i < j < |s| && Settled(s, i) && s[i] > s[j]
    requires forall k :: i < k < j ==> s[i] <= s[k]
    ensures var t := s[i := s[j]][j := s[i]];
            && Settled(t, i) && (forall k :: i < k <= j ==> t[i] <= t[k])
            && multiset(t) == multiset(s)
  {
  }

  /** A finished inner loop settles position i. */
  lemma PassDone(s: seq<int16>, i: nat)
    requires i < |s| && Settled(s, i) && forall k :: i < k < |s| ==> s[i] <= s[k]
    ensures Settled(s, i + 1)
  {
  }

  lemma SettledSorted(s: seq<int16>)
    requires Settled(s, |s|)
    ensures Sorted(s)
  {
  }

  /** The nested loops of Median_Filter: after outer pass i, position i holds the smallest
      of positions i..size-1, so the array ends ascending and is a permutation of its
      initial contents. */
  method ExchangeSort(a: array<int16>)
    modifies a
    ensures Sorted(a[..]) && multiset(a[..]) == multiset(old(a[..]))
  {
    var n := a.Length;
    var i := 0;
    while i < n
      invariant 0 <= i <= n
      invariant Settled(a[..], i)
      invariant multiset(a[..]) == multiset(old(a[..]))
    {
      var j := 1 + i;
      while j < n
        invariant i < j <= n
        invariant Settled(a[..], i)
        invariant forall k :: i < k < j ==> a[i] <= a[k]
        invariant multiset(a[..]) == multiset(old(a[..]))
      {
        if a[i] > a[j] {
          ghost var s := a[..];
          SwapKeeps(s, i, j);
          var temp := a[i];
          a[i] := a[j];
          a[j] := temp;
          assert a[..] == s[i := s[j]][j := s[i]];
        }
        j := j + 1;
      }
      PassDone(a[..], i);
      i := i + 1;
    }
    SettledSorted(a[..]);
  }

  /** Median_Filter over the first `size` entries of `samples`, with the copy reading from
      `samples`, which itself is left unchanged. `size` must be at least 1: for 0 the even
      branch reads index -1. */
  method MedianFilter(samples: array<int16>, size: uint32) returns (m: int16)
    requires 1 <= size <= samples.Length
    ensures m == Median(samples[..size])
  {
    var sortedArray := new int16[size];
    for z := 0 to size
      invariant sortedArray[..z] == samples[..z]
    {
      sortedArray[z] := samples[z];
    }
    assert sortedArray[..] == samples[..size];
    ExchangeSort(sortedArray);
    SortedUnique(sortedArray[..], SortSeq(samples[..size]));
    m := MedianOfSorted(sortedArray[..]);
  }

  /** Median_Filter as written: the copy loop assigns each cell of the fresh local array to
      itself, so the sorted samples are the array's indeterminate initial contents, given
      here as `stale`, and `samples` is never read. */
  method MedianFilterAsWritten(samples: array<int16>, size: uint32, stale: seq<int16>)
    returns (m: int16)
    requires 1 <= size <= samples.Length && |stale| == size
    ensures m == Median(stale)
  {
    var sortedArray := new int16[size](k requires 0 <= k < size => stale[k]);
    for z := 0 to size
      invariant sortedArray[..] == stale
    {
      sortedArray[z] := sortedArray[z];
    }
    ExchangeSort(sortedArray);
    SortedUnique(sortedArray[..], SortSeq(stale));
    m := MedianOfSorted(sortedArray[..]);
  }

  /** The median of one sample is that sample. */
  lemma MedianSingle(x: int16)
    ensures Median([x]) == x
  {
    assert SortSeq([x]) == [x];
  }

  /** The Findings counterexample on both members: one sample 7, with the local array's
      storage holding 0. The code as written returns 0; the corrected copy returns 7. */
  method SelfCopyIgnoresSamples() returns (asWritten: int16, corrected: int16)
    ensures asWritten == 0 && corrected == 7
  {
    var samples := new int16[1];
    samples[0] := 7;
    assert samples[..1] == [7];
    asWritten := MedianFilterAsWritten(samples, 1, [0]);
    corrected := MedianFilter(samples, 1);
    MedianSingle(0);
    MedianSingle(7);
  }
}
