/** Sorting one buffer in place, around pivots that are picked at random. */
module QuickSort {

  /** after differs from before by a rearrangement of the places l to r. */
  predicate Rearranged(before: seq<int>, after: seq<int>, l: nat, r: int) {
    && |after| == |before| && multiset(after) == multiset(before)
    && forall k | 0 <= k < |before| && !(l <= k <= r) :: after[k] == before[k]
  }

  /** Everything from l to p is at most, everything behind p up to r is more than what p holds. */
  predicate Split(a: seq<int>, l: nat, r: int, p: nat) {
    && l <= p <= r < |a|
    && (forall k | l <= k <= p :: a[k] <= a[p])
    && (forall k | p < k <= r :: a[p] < a[k])
  }

  /** What one call of part does, whichever pivot it picks. */
  predicate Partitioned(before: seq<int>, after: seq<int>, l: nat, r: int, p: nat) {
    Rearranged(before, after, l, r) && Split(after, l, r, p)
  }

  function Swapped(a: seq<int>, i: nat, j: nat): seq<int>
    requires i < |a| && j < |a|
  {
    a[i := a[j]][j := a[i]]
  }

  lemma SwappedIsRearranged(before: seq<int>, a: seq<int>, l: nat, r: nat, i: nat, j: nat)
    requires Rearranged(before, a, l, r) && l <= i <= r < |a| && l <= j <= r
    ensures Rearranged(before, Swapped(a, i, j), l, r)
  {
  }

  /** All of a from l up to i are at most v, all behind j up to r are more. */
  predicate Sides(a: seq<int>, l: nat, r: nat, v: int, i: nat, j: nat) {
    && l <= i <= r + 1 && l <= j <= r < |a| && a[l] == v
    && (forall k | l <= k < i :: a[k] <= v)
    && (forall k | j < k <= r :: v < a[k])
  }

  method Exchange(a: array<int>, i: nat, j: nat)
    requires i < a.Length && j < a.Length
    modifies a
    ensures a[..] == Swapped(old(a[..]), i, j)
  {
    var tmp := a[i];
    a[i] := a[j];
    a[j] := tmp;
  }

  /** The first loop inside: up to an element that belongs to the other side. */
  method ScanUp(a: array<int>, l: nat, r: nat, v: int, from: nat, j: nat) returns (i: nat)
    requires r < a.Length && Sides(a[..], l, r, v, from, j)
    ensures from <= i && Sides(a[..], l, r, v, i, j) && (i == r + 1 || v < a[i])
  {
    i := from;
    while i <= r && a[i] <= v
      invariant from <= i && Sides(a[..], l, r, v, i, j)
    {
      i := i + 1;
    }
  }

  /** The second loop inside: down to an element that belongs to the other side. */
  method ScanDown(a: array<int>, l: nat, r: nat, v: int, i: nat, from: nat) returns (j: nat)
    requires r < a.Length && Sides(a[..], l, r, v, i, from)
    ensures j <= from && Sides(a[..], l, r, v, i, j) && a[j] <= v
  {
    j := from;
    while v < a[j]
      invariant j <= from && Sides(a[..], l, r, v, i, j)
      decreases j
    {
      j := j - 1;
    }
  }

  /** part; random stands for what rand() returns. */
  method Part(a: array<int>, l: nat, r: nat, random: nat) returns (p: nat)
    requires l < r < a.Length
    modifies a
    ensures Partitioned(old(a[..]), a[..], l, r, p)
  {
    hide Rearranged;
    ghost var before := a[..];
    Unmoved(before, l, r);
    var v := random % (r + 1 - l) + l;
    Exchange(a, l, v);
    SwappedIsRearranged(before, before, l, r, l, v);
    v := a[l];
    var i, j := l, r;
    while i < j
      invariant Sides(a[..], l, r, v, i, j) && Rearranged(before, a[..], l, r)
      invariant if i < j then a[i] <= v else j < i && a[j] <= v
      decreases if i < j then j - i else 0
    {
      i := ScanUp(a, l, r, v, i, j);
      j := ScanDown(a, l, r, v, i, j);
      if i < j {
        SwappedIsRearranged(before, a[..], l, r, i, j);
        Exchange(a, i, j);
      }
    }
    SwappedIsRearranged(before, a[..], l, r, j, l);
    Exchange(a, j, l);
    p := j;
  }

  lemma Unmoved(a: seq<int>, l: nat, r: nat)
    ensures Rearranged(a, a, l, r)
  {
  }

  lemma Cancel(h: multiset<int>, a: multiset<int>, b: multiset<int>, t: multiset<int>)
    requires h + a + t == h + b + t
    ensures a == b
  {
    forall v
      ensures a[v] == b[v]
    {
      assert (h + a + t)[v] == (h + b + t)[v];
    }
  }

  /** Rearranging the places from l to r brings nothing else there. */
  lemma ComesFromThere(before: seq<int>, after: seq<int>, l: nat, r: int, y: nat) returns (x: nat)
    requires Rearranged(before, after, l, r) && l <= y <= r < |after|
    ensures l <= x <= r && before[x] == after[y]
  {
    var (head, mid, tail) := (before[..l], before[l..r + 1], before[r + 1..]);
    assert before == head + mid + tail;
    assert after == head + after[l..r + 1] + tail;
    assert multiset(before) == multiset(head) + multiset(mid) + multiset(tail);
    assert multiset(after) == multiset(head) + multiset(after[l..r + 1]) + multiset(tail);
    Cancel(multiset(head), multiset(after[l..r + 1]), multiset(mid), multiset(tail));
    assert after[l..r + 1][y - l] == after[y];
    assert after[y] in multiset(after[l..r + 1]);
    var k :| 0 <= k < |mid| && mid[k] == after[y];
    x := l + k;
  }

  predicate SortedBetween(a: seq<int>, l: nat, r: int) {
    forall x, y | l <= x < y <= r && y < |a| :: a[x] <= a[y]
  }

  lemma Chained(before: seq<int>, mid: seq<int>, after: seq<int>, l: nat, r: int, l': nat, r': int)
    requires Rearranged(before, mid, l, r) && Rearranged(mid, after, l', r') && l <= l' && r' <= r
    ensures Rearranged(before, after, l, r)
  {
  }

  /** Sorting both sides of a split sorts the whole. */
  lemma SidesSorted(split: seq<int>, left: seq<int>, both: seq<int>, l: nat, r: int, p: nat)
    requires Split(split, l, r, p)
    requires Rearranged(split, left, l, p - 1) && SortedBetween(left, l, p - 1)
    requires Rearranged(left, both, p + 1, r) && SortedBetween(both, p + 1, r)
    ensures SortedBetween(both, l, r)
  {
    forall x | l <= x < p
      ensures both[x] <= both[p]
    {
      var u := ComesFromThere(split, left, l, p - 1, x);
    }
    forall y | p < y <= r
      ensures both[p] < both[y]
    {
      var v := ComesFromThere(left, both, p + 1, r, y);
    }
  }

  /** quick_sort, when nobody else runs in between: any pivots lead to the sorted range. */
  method QuickSort(a: array<int>, l: nat, r: int)
    requires l <= r + 1 <= a.Length
    modifies a
    ensures Rearranged(old(a[..]), a[..], l, r) && SortedBetween(a[..], l, r)
    decreases r - l + 1
  {
    hide Rearranged, SortedBetween, Split;
    ghost var before := a[..];
    if l < r {
      var random: nat := *;
      var p := Part(a, l, r, random);
      ghost var split := a[..];
      SplitBounds(split, l, r, p);
      QuickSort(a, l, p as int - 1);
      ghost var left := a[..];
      QuickSort(a, p + 1, r);
      SidesSorted(split, left, a[..], l, r, p);
      Chained(before, split, left, l, r, l, p as int - 1);
      Chained(before, left, a[..], l, r, p + 1, r);
    } else {
      NothingToSort(before, l, r);
    }
  }

  lemma SplitBounds(a: seq<int>, l: nat, r: int, p: nat)
    requires Split(a, l, r, p)
    ensures l <= p <= r < |a|
  {
  }

  lemma NothingToSort(a: seq<int>, l: nat, r: int)
    requires r <= l
    ensures Rearranged(a, a, l, r) && SortedBetween(a, l, r)
  {
  }
}
