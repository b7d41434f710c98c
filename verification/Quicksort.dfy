/** The in-place quicksort of the external sorter, over any comparator that is a total preorder. */
module Quicksort {

  /** A comparator in the style of qsort: negative, zero or positive. */
  type Comparator<!T> = (T, T) -> int

  ghost predicate TotalPreorder<T(!new)>(cmp: Comparator<T>) {
    && (forall x, y :: cmp(x, y) < 0 <==> cmp(y, x) > 0)
    && (forall x, y, z :: cmp(x, y) <= 0 && cmp(y, z) <= 0 ==> cmp(x, z) <= 0)
  }

  ghost predicate SortedRange<T>(s: seq<T>, lo: int, hi: int, cmp: Comparator<T>)
    requires 0 <= lo <= hi <= |s|
  {
    forall i, j :: lo <= i < j < hi ==> cmp(s[i], s[j]) <= 0
  }

  ghost predicate Sorted<T>(s: seq<T>, cmp: Comparator<T>) {
    SortedRange(s, 0, |s|, cmp)
  }

  /** Entries lo..hi rearranged, all others in place. */
  ghost predicate Rearranged<T>(s: seq<T>, t: seq<T>, lo: int, hi: int)
    requires 0 <= lo <= hi <= |s|
  {
    |t| == |s| && t[..lo] == s[..lo] && t[hi..] == s[hi..] && multiset(t[lo..hi]) == multiset(s[lo..hi])
  }

  ghost predicate AllUpTo<T>(s: seq<T>, lo: int, hi: int, pivot: T, cmp: Comparator<T>)
    requires 0 <= lo <= hi <= |s|
  {
    forall k :: lo <= k < hi ==> cmp(s[k], pivot) <= 0
  }

  ghost predicate AllFrom<T>(s: seq<T>, lo: int, hi: int, pivot: T, cmp: Comparator<T>)
    requires 0 <= lo <= hi <= |s|
  {
    forall k :: lo <= k < hi ==> cmp(s[k], pivot) >= 0
  }

  lemma RearrangedWider<T>(s: seq<T>, t: seq<T>, lo: int, hi: int, lo': int, hi': int)
    requires 0 <= lo' <= lo <= hi <= hi' <= |s| && Rearranged(s, t, lo, hi)
    ensures Rearranged(s, t, lo', hi')
  {
    assert s[lo'..hi'] == s[lo'..lo] + s[lo..hi] + s[hi..hi'];
    assert t[lo'..hi'] == t[lo'..lo] + t[lo..hi] + t[hi..hi'];
    assert t[lo'..lo] == t[..lo][lo'..] && s[lo'..lo] == s[..lo][lo'..];
    assert t[hi..hi'] == t[hi..][..hi' - hi] && s[hi..hi'] == s[hi..][..hi' - hi];
    assert t[..lo'] == t[..lo][..lo'] && s[..lo'] == s[..lo][..lo'];
    assert t[hi'..] == t[hi..][hi' - hi..] && s[hi'..] == s[hi..][hi' - hi..];
  }

  lemma RearrangedTrans<T>(s: seq<T>, t: seq<T>, u: seq<T>, lo: int, hi: int)
    requires 0 <= lo <= hi <= |s| && Rearranged(s, t, lo, hi) && Rearranged(t, u, lo, hi)
    ensures Rearranged(s, u, lo, hi)
  {
  }

  function Swapping<T>(s: seq<T>, i: int, j: int): (t: seq<T>)
    requires 0 <= i <= j < |s|
    ensures |t| == |s| && t[i] == s[j] && t[j] == s[i] && forall k :: 0 <= k < |s| && k != i && k != j ==> t[k] == s[k]
  {
    s[i := s[j]][j := s[i]]
  }

  lemma Swapped<T>(s: seq<T>, i: int, j: int)
    requires 0 <= i <= j < |s|
    ensures Rearranged(s, Swapping(s, i, j), i, j + 1)
  {
    var t := Swapping(s, i, j);
    if i < j {
      assert s[i..j + 1] == [s[i]] + s[i + 1..j] + [s[j]];
      assert t[i..j + 1] == [s[j]] + s[i + 1..j] + [s[i]];
    }
  }

  /** A bound on a range survives its rearrangement. */
  lemma BoundSurvives<T>(s: seq<T>, t: seq<T>, lo: int, hi: int, pivot: T, cmp: Comparator<T>)
    requires 0 <= lo <= hi <= |s| && Rearranged(s, t, lo, hi)
    ensures AllUpTo(s, lo, hi, pivot, cmp) ==> AllUpTo(t, lo, hi, pivot, cmp)
    ensures AllFrom(s, lo, hi, pivot, cmp) ==> AllFrom(t, lo, hi, pivot, cmp)
  {
    forall k | lo <= k < hi ensures exists m :: lo <= m < hi && s[m] == t[k] {
      assert t[k] == t[lo..hi][k - lo];
      assert t[k] in multiset(t[lo..hi]);
      assert t[k] in multiset(s[lo..hi]);
      var m :| 0 <= m < hi - lo && s[lo..hi][m] == t[k];
      assert s[lo + m] == t[k];
    }
  }

  /** A range that stands where it stood keeps its bound. */
  lemma BoundStays<T>(s: seq<T>, t: seq<T>, lo: int, hi: int, a: int, b: int, pivot: T, cmp: Comparator<T>)
    requires 0 <= lo <= hi <= |s| && 0 <= a <= b <= |s| && Rearranged(s, t, lo, hi) && (b <= lo || hi <= a)
    ensures AllUpTo(s, a, b, pivot, cmp) ==> AllUpTo(t, a, b, pivot, cmp)
    ensures AllFrom(s, a, b, pivot, cmp) ==> AllFrom(t, a, b, pivot, cmp)
    ensures SortedRange(s, a, b, cmp) ==> SortedRange(t, a, b, cmp)
  {
    assert forall k :: a <= k < b ==> t[k] == s[k] by {
      forall k | a <= k < b ensures t[k] == s[k] {
        if k < lo { assert t[k] == t[..lo][k]; } else { assert t[k] == t[hi..][k - hi]; }
      }
    }
  }

  lemma Joined<T(!new)>(s: seq<T>, lo: int, m: int, hi: int, pivot: T, cmp: Comparator<T>)
    requires TotalPreorder(cmp) && 0 <= lo <= m <= hi <= |s|
    requires SortedRange(s, lo, m, cmp) && SortedRange(s, m, hi, cmp) && AllUpTo(s, lo, m, pivot, cmp) &&
        AllFrom(s, m, hi, pivot, cmp)
    ensures SortedRange(s, lo, hi, cmp)
  {
    forall i, j | lo <= i < j < hi ensures cmp(s[i], s[j]) <= 0 {
      if i < m <= j {
        assert cmp(s[i], pivot) <= 0 && cmp(pivot, s[j]) <= 0;
      }
    }
  }

  /** Scanning from the left stops at the latest on an entry that is not below the pivot. */
  method ScanUp<T>(a: array<T>, start: int, ghost stop: int, pivot: T, cmp: Comparator<T>) returns (i: int)
    requires 0 <= start <= stop < a.Length && cmp(a[stop], pivot) >= 0
    ensures start <= i <= stop && cmp(a[i], pivot) >= 0
    ensures forall k :: start <= k < i ==> cmp(a[k], pivot) < 0
  {
    i := start;
    while cmp(a[i], pivot) < 0
      invariant start <= i <= stop
      invariant forall k :: start <= k < i ==> cmp(a[k], pivot) < 0
      decreases stop - i
    {
      i := i + 1;
    }
  }

  method ScanDown<T>(a: array<T>, start: int, ghost stop: int, pivot: T, cmp: Comparator<T>) returns (j: int)
    requires 0 <= stop <= start < a.Length && cmp(a[stop], pivot) <= 0
    ensures stop <= j <= start && cmp(a[j], pivot) <= 0
    ensures forall k :: j < k <= start ==> cmp(a[k], pivot) > 0
  {
    j := start;
    while cmp(a[j], pivot) > 0
      invariant stop <= j <= start
      invariant forall k :: j < k <= start ==> cmp(a[k], pivot) > 0
      decreases j - stop
    {
      j := j - 1;
    }
  }

  method Swap<T>(a: array<T>, i: int, j: int)
    requires 0 <= i <= j < a.Length
    modifies a
    ensures a[..] == Swapping(old(a[..]), i, j)
    ensures Rearranged(old(a[..]), a[..], i, j + 1)
  {
    Swapped(a[..], i, j);
    var temp := a[i];
    a[i] := a[j];
    a[j] := temp;
  }

  /** Entries left of `i` and right of `j` are on their side; `up` and `down` stop the next scans. */
  ghost predicate Partitioning<T>(s: seq<T>, left: int, right: int, i: int, j: int, up: int, down: int, pivot: T,
      cmp: Comparator<T>) {
    && 0 <= left < right < |s| && left <= i <= right && left - 1 <= j <= right
    && (i == left ==> j == right && up == down < right) && (i > left ==> j < right)
    && AllUpTo(s, left, i, pivot, cmp) && AllFrom(s, j + 1, right + 1, pivot, cmp)
    && (i <= j ==> i <= up <= right && cmp(s[up], pivot) >= 0 && left <= down <= j && cmp(s[down], pivot) <= 0)
  }

  lemma ScannedOn<T>(s: seq<T>, left: int, right: int, i: int, j: int, i': int, j': int, pivot: T, cmp: Comparator<T>)
    requires 0 <= left <= i <= i' <= right < |s| && left - 1 <= j' <= j <= right
    requires AllUpTo(s, left, i, pivot, cmp) && AllFrom(s, j + 1, right + 1, pivot, cmp)
    requires (forall k :: i <= k < i' ==> cmp(s[k], pivot) < 0) && (forall k :: j' < k <= j ==> cmp(s[k], pivot) > 0)
    ensures AllUpTo(s, left, i', pivot, cmp) && AllFrom(s, j' + 1, right + 1, pivot, cmp)
  {
  }

  lemma SwappedOn<T>(s: seq<T>, left: int, right: int, i: int, j: int, pivot: T, cmp: Comparator<T>)
    requires 0 <= left <= i <= j <= right < |s|
    requires AllUpTo(s, left, i, pivot, cmp) && AllFrom(s, j + 1, right + 1, pivot, cmp)
    requires cmp(s[i], pivot) >= 0 && cmp(s[j], pivot) <= 0
    ensures var t := Swapping(s, i, j);
            && AllUpTo(t, left, i + 1, pivot, cmp) && AllFrom(t, j, right + 1, pivot, cmp)
            && cmp(t[j], pivot) >= 0 && cmp(t[i], pivot) <= 0
  {
  }

  /** One round: two scans and, unless they have crossed, an exchange. */
  method PartitionStep<T>(a: array<T>, left: int, right: int, i0: int, j0: int, ghost up0: int, ghost down0: int,
      pivot: T, cmp: Comparator<T>)
    returns (i: int, j: int, ghost up: int, ghost down: int)
    requires Partitioning(a[..], left, right, i0, j0, up0, down0, pivot, cmp) && i0 <= j0
    modifies a
    ensures Partitioning(a[..], left, right, i, j, up, down, pivot, cmp) && i > left && j - i < j0 - i0
    ensures Rearranged(old(a[..]), a[..], left, right + 1)
  {
    hide Rearranged, AllUpTo, AllFrom;
    i := ScanUp(a, i0, up0, pivot, cmp);
    j := ScanDown(a, j0, down0, pivot, cmp);
    ghost var s := a[..];
    ScannedOn(s, left, right, i0, j0, i, j, pivot, cmp);
    up, down := up0, down0;
    if i <= j {
      Exchange(a, left, right, i, j, pivot, cmp);
      up, down := j, i;
      i := i + 1;
      j := j - 1;
    } else {
      Unmoved(s, left, right + 1);
    }
  }

  method Exchange<T>(a: array<T>, left: int, right: int, i: int, j: int, pivot: T, cmp: Comparator<T>)
    requires 0 <= left <= i <= j <= right < a.Length
    requires AllUpTo(a[..], left, i, pivot, cmp) && AllFrom(a[..], j + 1, right + 1, pivot, cmp)
    requires cmp(a[i], pivot) >= 0 && cmp(a[j], pivot) <= 0
    modifies a
    ensures AllUpTo(a[..], left, i + 1, pivot, cmp) && AllFrom(a[..], j, right + 1, pivot, cmp)
    ensures cmp(a[j], pivot) >= 0 && cmp(a[i], pivot) <= 0
    ensures Rearranged(old(a[..]), a[..], left, right + 1)
  {
    hide Rearranged, AllUpTo, AllFrom, Swapping;
    ghost var s := a[..];
    Swap(a, i, j);
    SwappedOn(s, left, right, i, j, pivot, cmp);
    RearrangedWider(s, a[..], i, j + 1, left, right + 1);
    assert a[..][j] == a[j] && a[..][i] == a[i];
  }

  /** Splits left..right so that entries before the result are not above, the others not below a pivot. */
  method Partition<T(!new)>(a: array<T>, left: int, right: int, cmp: Comparator<T>) returns (i: int, ghost pivot: T)
    requires TotalPreorder(cmp) && 0 <= left < right < a.Length
    modifies a
    ensures left < i <= right && Rearranged(old(a[..]), a[..], left, right + 1)
    ensures AllUpTo(a[..], left, i, pivot, cmp) && AllFrom(a[..], i, right + 1, pivot, cmp)
  {
    hide TotalPreorder, Rearranged;
    var p := a[(left + right) / 2];
    pivot := p;
    i := left;
    var j := right;
    ghost var up, down := (left + right) / 2, (left + right) / 2;
    Reflexive(p, cmp);
    Unmoved(a[..], left, right + 1);
    while i <= j
      invariant Partitioning(a[..], left, right, i, j, up, down, p, cmp)
      invariant Rearranged(old(a[..]), a[..], left, right + 1)
      decreases j - i + 1
    {
      ghost var before := a[..];
      i, j, up, down := PartitionStep(a, left, right, i, j, up, down, p, cmp);
      RearrangedTrans(old(a[..]), before, a[..], left, right + 1);
    }
  }

  lemma Reflexive<T(!new)>(x: T, cmp: Comparator<T>)
    requires TotalPreorder(cmp)
    ensures cmp(x, x) == 0
  {
  }

  lemma Unmoved<T>(s: seq<T>, lo: int, hi: int)
    requires 0 <= lo <= hi <= |s|
    ensures Rearranged(s, s, lo, hi)
  {
  }

  method Sort<T(!new)>(a: array<T>, left: int, right: int, cmp: Comparator<T>)
    requires TotalPreorder(cmp) && 0 <= left <= right + 1 <= a.Length
    modifies a
    ensures SortedRange(a[..], left, right + 1, cmp) && Rearranged(old(a[..]), a[..], left, right + 1)
    decreases right - left + 1
  {
    hide TotalPreorder, Rearranged, AllUpTo, AllFrom;
    if left >= right {
      Unmoved(a[..], left, right + 1);
      return;
    }
    ghost var s := a[..];
    var i, pivot := Partition(a, left, right, cmp);
    ghost var t := a[..];
    Sort(a, left, i - 1, cmp);
    ghost var u := a[..];
    BoundSurvives(t, u, left, i, pivot, cmp);
    BoundStays(t, u, left, i, i, right + 1, pivot, cmp);
    Sort(a, i, right, cmp);
    BoundSurvives(u, a[..], i, right + 1, pivot, cmp);
    BoundStays(u, a[..], i, right + 1, left, i, pivot, cmp);
    Joined(a[..], left, i, right + 1, pivot, cmp);
    RearrangedWider(t, u, left, i, left, right + 1);
    RearrangedWider(u, a[..], i, right + 1, left, right + 1);
    RearrangedTrans(s, t, u, left, right + 1);
    RearrangedTrans(s, u, a[..], left, right + 1);
  }

  /** All entries of a buffer. */
  method SortAll<T(!new)>(a: array<T>, cmp: Comparator<T>)
    requires TotalPreorder(cmp)
    modifies a
    ensures Sorted(a[..], cmp) && multiset(a[..]) == multiset(old(a[..]))
  {
    hide TotalPreorder;
    ghost var s := a[..];
    Sort(a, 0, a.Length - 1, cmp);
    assert s[0..a.Length] == s && a[..][0..a.Length] == a[..];
  }
}
