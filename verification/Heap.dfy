/** The heap sort of the array list: what it does to every list, and which lists it sorts. */
module Heap {

  datatype SortResult = Sorted | Equal | Unsorted

  ghost predicate TotalPreorder<T(!new)>(leq: (T, T) -> bool) {
    (forall a, b :: leq(a, b) || leq(b, a)) && forall a, b, c :: leq(a, b) && leq(b, c) ==> leq(a, c)
  }

  /** The sort function that goes with an order. */
  function Compare<T>(leq: (T, T) -> bool, a: T, b: T): SortResult {
    if !leq(a, b) then Unsorted else if leq(b, a) then Equal else Sorted
  }

  function Parent(k: int): int { (k - 1) / 2 }

  function Swapped<T>(s: seq<T>, i: int, j: int): seq<T>
    requires 0 <= i < |s| && 0 <= j < |s|
  {
    s[i := s[j]][j := s[i]]
  }

  // ---------------------------------------------------------------- what the sort computes

  /** The place that arr_siftdown goes on with; the root itself ends it. */
  function LargerChild<T>(leq: (T, T) -> bool, s: seq<T>, root: int, end: int): (swap: int)
    requires 0 <= root && root * 2 + 1 <= end < |s|
    ensures swap == root || (root < swap <= end && Parent(swap) == root)
  {
    var child := root * 2 + 1;
    var first := if Compare(leq, s[root], s[child]) == Sorted then child else root;
    if child + 1 <= end && Compare(leq, s[first], s[child + 1]) != Unsorted then child + 1 else first
  }

  function Sifted<T>(leq: (T, T) -> bool, s: seq<T>, root: int, end: int): (t: seq<T>)
    requires 0 <= root && end < |s|
    ensures |t| == |s|
    decreases end - root
  {
    if root * 2 + 1 > end then s
    else
      var swap := LargerChild(leq, s, root, end);
      if swap == root then s else Sifted(leq, Swapped(s, root, swap), swap, end)
  }

  /** Sifting down from every place before `start`, the last one first. */
  function HeapifiedFrom<T>(leq: (T, T) -> bool, s: seq<T>, start: int): (t: seq<T>)
    requires start <= |s|
    ensures |t| == |s|
    decreases start
  {
    if start <= 0 then s else HeapifiedFrom(leq, Sifted(leq, s, start - 1, |s| - 1), start - 1)
  }

  /** The extraction of everything up to `end`. */
  function ExtractedFrom<T>(leq: (T, T) -> bool, s: seq<T>, end: int): (t: seq<T>)
    requires end < |s|
    ensures |t| == |s|
    decreases end
  {
    if end < 0 then s else ExtractedFrom(leq, Sifted(leq, Swapped(s, 0, end), 0, end - 1), end - 1)
  }

  /** The loop of arr_heapify starts below the last parent. The division truncates in C; both roundings are at most 0
      for lists without a parent. */
  function LastParent(length: int): (start: int)
    requires length >= 0
    ensures -1 <= start <= length
  {
    (length as int - 2) / 2
  }

  function HeapSorted<T>(leq: (T, T) -> bool, s: seq<T>): seq<T> {
    ExtractedFrom(leq, HeapifiedFrom(leq, s, LastParent(|s|)), |s| - 1)
  }

  // ---------------------------------------------------------------- the methods that compute it

  /** arr_siftdown */
  method SiftDown<T>(leq: (T, T) -> bool, a: array<T>, start: int, end: int)
    requires 0 <= start && end < a.Length
    modifies a
    ensures a[..] == Sifted(leq, old(a[..]), start, end)
  {
    var root := start;
    while root * 2 + 1 <= end
      invariant 0 <= root && Sifted(leq, a[..], root, end) == Sifted(leq, old(a[..]), start, end)
      decreases end - root
    {
      ghost var was := a[..];
      var child := root * 2 + 1;
      var swap := root;
      var ra := Compare(leq, a[swap], a[child]);
      if ra == Sorted {
        swap := child;
      }
      if child + 1 <= end {
        var rb := Compare(leq, a[swap], a[child + 1]);
        if rb == Equal || rb == Sorted {
          swap := child + 1;
        }
      }
      assert swap == LargerChild(leq, was, root, end);
      if swap == root {
        return;
      }
      a[root], a[swap] := a[swap], a[root];
      assert a[..] == Swapped(was, root, swap);
      root := swap;
    }
  }

  /** One round of the loop of arr_heapify. */
  method SiftBefore<T>(leq: (T, T) -> bool, a: array<T>, start: int)
    requires 0 < start <= a.Length
    modifies a
    ensures HeapifiedFrom(leq, a[..], start - 1) == HeapifiedFrom(leq, old(a[..]), start)
  {
    SiftDown(leq, a, start - 1, a.Length - 1);
  }

  /** arr_heapify */
  method Heapify<T>(leq: (T, T) -> bool, a: array<T>)
    modifies a
    ensures a[..] == HeapifiedFrom(leq, old(a[..]), LastParent(a.Length))
  {
    var start := LastParent(a.Length);
    ghost var heap := HeapifiedFrom(leq, a[..], start);
    while start > 0
      invariant start <= a.Length && heap == HeapifiedFrom(leq, a[..], start)
    {
      SiftBefore(leq, a, start);
      start := start - 1;
    }
  }

  /** arr_heapsort */
  method HeapSort<T>(leq: (T, T) -> bool, a: array<T>)
    modifies a
    ensures a[..] == HeapSorted(leq, old(a[..]))
  {
    Heapify(leq, a);
    var end := a.Length - 1;
    ghost var result := ExtractedFrom(leq, a[..], end);
    while end >= 0
      invariant end < a.Length && ExtractedFrom(leq, a[..], end) == result
    {
      ghost var was := a[..];
      a[0], a[end] := a[end], a[0];
      assert a[..] == Swapped(was, 0, end);
      end := end - 1;
      SiftDown(leq, a, 0, end);
    }
  }

  // ---------------------------------------------------------------- permutations

  ghost predicate Permuted<T>(s: seq<T>, t: seq<T>) {
    multiset(s) == multiset(t)
  }

  /** Nothing beyond `end` has changed. */
  ghost predicate SameBeyond<T>(s: seq<T>, t: seq<T>, end: int) {
    |s| == |t| && forall k :: 0 <= k < |s| && k > end ==> t[k] == s[k]
  }

  lemma SwapPermutes<T>(s: seq<T>, i: int, j: int)
    requires 0 <= i < |s| && 0 <= j < |s|
    ensures Permuted(s, Swapped(s, i, j))
  {
  }

  lemma {:induction false} SiftPermutes<T>(leq: (T, T) -> bool, s: seq<T>, root: int, end: int)
    requires 0 <= root && end < |s|
    ensures Permuted(s, Sifted(leq, s, root, end)) && SameBeyond(s, Sifted(leq, s, root, end), end)
    decreases end - root
  {
    if root * 2 + 1 <= end {
      var swap := LargerChild(leq, s, root, end);
      if swap != root {
        SwapPermutes(s, root, swap);
        SiftPermutes(leq, Swapped(s, root, swap), swap, end);
      }
    }
  }

  lemma {:induction false} HeapifyPermutes<T>(leq: (T, T) -> bool, s: seq<T>, start: int)
    requires start <= |s|
    ensures Permuted(s, HeapifiedFrom(leq, s, start))
    decreases start
  {
    if start > 0 {
      SiftPermutes(leq, s, start - 1, |s| - 1);
      HeapifyPermutes(leq, Sifted(leq, s, start - 1, |s| - 1), start - 1);
    }
  }

  lemma {:induction false} ExtractPermutes<T>(leq: (T, T) -> bool, s: seq<T>, end: int)
    requires end < |s|
    ensures Permuted(s, ExtractedFrom(leq, s, end)) && SameBeyond(s, ExtractedFrom(leq, s, end), end)
    decreases end
  {
    if end >= 0 {
      var t := Swapped(s, 0, end);
      SwapPermutes(s, 0, end);
      SiftPermutes(leq, t, 0, end - 1);
      ExtractPermutes(leq, Sifted(leq, t, 0, end - 1), end - 1);
    }
  }

  /** The sort never loses or invents an entry. */
  lemma SortPermutes<T>(leq: (T, T) -> bool, s: seq<T>)
    ensures Permuted(s, HeapSorted(leq, s))
  {
    HeapifyPermutes(leq, s, LastParent(|s|));
    ExtractPermutes(leq, HeapifiedFrom(leq, s, LastParent(|s|)), |s| - 1);
  }

  /** A change among the entries up to `end` moves nothing across. */
  lemma PrefixPermuted<T>(s: seq<T>, t: seq<T>, end: int, i: int) returns (j: int)
    requires Permuted(s, t) && SameBeyond(s, t, end) && 0 <= i <= end < |s|
    ensures 0 <= j <= end && t[i] == s[j]
  {
    var n := end + 1;
    assert s[n..] == t[n..];
    assert s == s[..n] + s[n..] && t == t[..n] + t[n..];
    var x := t[i];
    assert multiset(s[..n] + s[n..])[x] == multiset(s[..n])[x] + multiset(s[n..])[x];
    assert multiset(t[..n] + t[n..])[x] == multiset(t[..n])[x] + multiset(t[n..])[x];
    assert t[..n][i] == x;
    assert x in multiset(s[..n]);
    j :| 0 <= j < n && s[..n][j] == t[i];
  }

  // ---------------------------------------------------------------- heaps

  /** No entry up to `end` is above its parent, as far as parents from `start` on go. */
  ghost predicate HeapFrom<T>(leq: (T, T) -> bool, s: seq<T>, start: int, end: int)
    requires end < |s| && 0 <= start
  {
    forall k, p {:trigger s[k], s[p]} :: 0 < k <= end && start <= p == Parent(k) ==> leq(s[k], s[p])
  }

  /** The same, but for the children of `root`, which are not above the parent of `root`. */
  ghost predicate HeapBut<T>(leq: (T, T) -> bool, s: seq<T>, start: int, root: int, end: int)
    requires end < |s| && 0 <= start <= root
  {
    (forall k, p {:trigger s[k], s[p]} :: 0 < k <= end && start <= p == Parent(k) && p != root ==> leq(s[k], s[p])) &&
    forall k, p {:trigger s[k], s[p]} ::
      0 < k <= end && Parent(k) == root && start <= p == Parent(root) && 0 < root <= end ==> leq(s[k], s[p])
  }

  /** No child is above the place chosen, and the root is not either. */
  lemma LargerChildIsTop<T(!new)>(leq: (T, T) -> bool, s: seq<T>, root: int, end: int)
    requires TotalPreorder(leq) && 0 <= root && root * 2 + 1 <= end < |s|
    ensures var swap := LargerChild(leq, s, root, end);
            leq(s[root], s[swap]) && forall k :: 0 < k <= end && Parent(k) == root ==> leq(s[k], s[swap])
  {
    var swap := LargerChild(leq, s, root, end);
    var child := root * 2 + 1;
    var first := if Compare(leq, s[root], s[child]) == Sorted then child else root;
    assert leq(s[child], s[first]) && leq(s[root], s[first]);
    assert leq(s[first], s[swap]) && (child + 1 <= end ==> leq(s[child + 1], s[swap]));
    forall k | 0 < k <= end && Parent(k) == root ensures leq(s[k], s[swap]) {
      assert k == child || k == child + 1;
    }
  }

  /** Moving the larger child up leaves only the children of that place out of order. */
  lemma SwapDown<T(!new)>(leq: (T, T) -> bool, s: seq<T>, start: int, root: int, end: int, child: int)
    requires TotalPreorder(leq) && end < |s| && 0 <= start <= root && HeapBut(leq, s, start, root, end)
    requires 0 < child <= end && Parent(child) == root && leq(s[root], s[child])
    requires forall k :: 0 < k <= end && Parent(k) == root ==> leq(s[k], s[child])
    ensures HeapBut(leq, Swapped(s, root, child), start, child, end)
  {
  }

  /** Sifting down from a place whose children alone are out of order completes the heap. */
  lemma {:induction false} SiftHeap<T(!new)>(leq: (T, T) -> bool, s: seq<T>, start: int, root: int, end: int)
    requires TotalPreorder(leq) && end < |s| && 0 <= start <= root && HeapBut(leq, s, start, root, end)
    ensures HeapFrom(leq, Sifted(leq, s, root, end), start, end)
    decreases end - root
  {
    if root * 2 + 1 <= end {
      LargerChildIsTop(leq, s, root, end);
      var swap := LargerChild(leq, s, root, end);
      if swap != root {
        SwapDown(leq, s, start, root, end, swap);
        SiftHeap(leq, Swapped(s, root, swap), start, swap, end);
      }
    }
  }

  /** If what is at and below `start` is in order, so is everything after heapifying. */
  lemma {:induction false} HeapifyHeap<T(!new)>(leq: (T, T) -> bool, s: seq<T>, start: int)
    requires TotalPreorder(leq) && 0 <= start <= |s| && HeapFrom(leq, s, start, |s| - 1)
    ensures HeapFrom(leq, HeapifiedFrom(leq, s, start), 0, |s| - 1)
    decreases start
  {
    if start > 0 {
      SiftHeap(leq, s, start - 1, start - 1, |s| - 1);
      HeapifyHeap(leq, Sifted(leq, s, start - 1, |s| - 1), start - 1);
    }
  }

  lemma {:induction false} TopIsLargest<T(!new)>(leq: (T, T) -> bool, s: seq<T>, end: int, k: int)
    requires TotalPreorder(leq) && end < |s| && HeapFrom(leq, s, 0, end) && 0 <= k <= end
    ensures leq(s[k], s[0])
    decreases k
  {
    if k > 0 {
      TopIsLargest(leq, s, end, Parent(k));
      assert leq(s[k], s[Parent(k)]);
    }
  }

  // ---------------------------------------------------------------- extraction

  /** What is beyond `end` is sorted, and nothing up to `end` is above it. */
  ghost predicate SortedBeyond<T>(leq: (T, T) -> bool, s: seq<T>, end: int) {
    forall i, j :: 0 <= i < j < |s| && j > end ==> leq(s[i], s[j])
  }

  ghost predicate IsSorted<T>(leq: (T, T) -> bool, s: seq<T>) {
    SortedBeyond(leq, s, -1)
  }

  /** No entry up to `end` is above the top. */
  ghost predicate Topped<T>(leq: (T, T) -> bool, s: seq<T>, end: int)
    requires 0 <= end < |s|
  {
    forall k {:trigger s[k]} :: 0 <= k <= end ==> leq(s[k], s[0])
  }

  /** The top goes to the end of the heap, where it belongs, and the rest is a heap below the top. */
  lemma ExtractTop<T(!new)>(leq: (T, T) -> bool, s: seq<T>, end: int)
    requires TotalPreorder(leq) && 0 <= end < |s| && Topped(leq, s, end) && HeapFrom(leq, s, 1, end - 1)
    requires SortedBeyond(leq, s, end)
    ensures HeapBut(leq, Swapped(s, 0, end), 0, 0, end - 1) && SortedBeyond(leq, Swapped(s, 0, end), end - 1)
  {
    var t := Swapped(s, 0, end);
    forall k | 0 < k <= end - 1 && 0 != Parent(k) ensures leq(t[k], t[Parent(k)]) {
      assert leq(s[k], s[Parent(k)]);
    }
    forall i, j | 0 <= i < j < |t| && j > end - 1 ensures leq(t[i], t[j]) {
      if j == end {
        assert leq(s[if i == 0 then end else i], s[0]);
      } else {
        assert leq(s[if i == 0 then end else if i == end then 0 else i], s[j]);
      }
    }
  }

  lemma SortedKept<T(!new)>(leq: (T, T) -> bool, s: seq<T>, t: seq<T>, end: int)
    requires Permuted(s, t) && SameBeyond(s, t, end) && end < |s| && SortedBeyond(leq, s, end)
    ensures SortedBeyond(leq, t, end)
  {
    forall i, j | 0 <= i < j < |t| && j > end ensures leq(t[i], t[j]) {
      if i <= end {
        var was := PrefixPermuted(s, t, end, i);
      }
    }
  }

  /** The extraction loop of arr_heapsort makes a sorted list of everything whose top is right and whose other entries,
      but for the last, are in order. */
  lemma {:induction false} ExtractSorts<T(!new)>(leq: (T, T) -> bool, s: seq<T>, end: int)
    requires TotalPreorder(leq) && -1 <= end < |s| && SortedBeyond(leq, s, end)
    requires end >= 0 ==> Topped(leq, s, end) && HeapFrom(leq, s, 1, end - 1)
    ensures IsSorted(leq, ExtractedFrom(leq, s, end))
    decreases end
  {
    if end >= 0 {
      var t := Swapped(s, 0, end);
      ExtractTop(leq, s, end);
      SiftHeap(leq, t, 0, 0, end - 1);
      SiftPermutes(leq, t, 0, end - 1);
      var u := Sifted(leq, t, 0, end - 1);
      SortedKept(leq, t, u, end - 1);
      forall k | 0 <= k <= end - 1 ensures leq(u[k], u[0]) {
        TopIsLargest(leq, u, end - 1, k);
      }
      ExtractSorts(leq, u, end - 1);
    }
  }

  // ---------------------------------------------------------------- which lists the whole sort sorts

  /** The guard of the iteration that arr_heapify leaves out: the last parent is not below its children. */
  ghost predicate LastParentAbove<T>(leq: (T, T) -> bool, s: seq<T>) {
    |s| >= 2 ==> HeapFrom(leq, s, LastParent(|s|), |s| - 1)
  }

  /** Lists whose last parent is in order are sorted. */
  lemma Sorts<T(!new)>(leq: (T, T) -> bool, s: seq<T>)
    requires TotalPreorder(leq) && LastParentAbove(leq, s)
    ensures IsSorted(leq, HeapSorted(leq, s))
  {
    if |s| >= 2 {
      var h := HeapifiedFrom(leq, s, LastParent(|s|));
      HeapifyHeap(leq, s, LastParent(|s|));
      forall k | 0 <= k < |s| ensures leq(h[k], h[0]) {
        TopIsLargest(leq, h, |s| - 1, k);
      }
      ExtractSorts(leq, h, |s| - 1);
    }
  }

  ghost predicate Largest<T>(leq: (T, T) -> bool, s: seq<T>, x: T) {
    forall k :: 0 <= k < |s| ==> leq(s[k], x)
  }

  /** A largest entry stands somewhere else than below the last parent. */
  ghost predicate LargestElsewhere<T>(leq: (T, T) -> bool, s: seq<T>) {
    |s| >= 2 ==> exists i {:trigger s[i]} :: 0 <= i < |s| && Parent(i) < LastParent(|s|) && Largest(leq, s, s[i])
  }

  /** The entries that are largest in `s` all have their parents at `start` or after it. */
  ghost predicate LargestBelow<T>(leq: (T, T) -> bool, s: seq<T>, t: seq<T>, start: int) {
    forall k {:trigger t[k]} :: 0 <= k < |t| && Largest(leq, s, t[k]) ==> start <= Parent(k)
  }

  /** One sift-down lifts a largest entry by one level at most. */
  lemma {:induction false} SiftLifts<T(!new)>(leq: (T, T) -> bool, s: seq<T>, t: seq<T>, start: int, root: int,
                                              end: int)
    requires 0 <= start <= root < |t| && end < |t| && (root > start ==> start <= Parent(root))
    requires LargestBelow(leq, s, t, start) && !Largest(leq, s, t[root])
    requires forall k {:trigger t[k]} :: root < k < |t| && Largest(leq, s, t[k]) ==> start < Parent(k)
    ensures LargestBelow(leq, s, Sifted(leq, t, root, end), start)
    decreases end - root
  {
    if root * 2 + 1 <= end {
      var swap := LargerChild(leq, t, root, end);
      if swap != root {
        SiftLifts(leq, s, Swapped(t, root, swap), start, swap, end);
      }
    }
  }

  /** A largest entry that starts below the last parent never reaches the top while the list is heapified. */
  lemma {:induction false} HeapifyLifts<T(!new)>(leq: (T, T) -> bool, s: seq<T>, t: seq<T>, start: int)
    requires 0 <= start <= |t| && LargestBelow(leq, s, t, start)
    ensures LargestBelow(leq, s, HeapifiedFrom(leq, t, start), 0)
    decreases start
  {
    if start > 0 {
      SiftLifts(leq, s, t, start - 1, start - 1, |t| - 1);
      HeapifyLifts(leq, s, Sifted(leq, t, start - 1, |t| - 1), start - 1);
    }
  }

  /** Sifting down changes nothing but the place it starts from and what is below that place. */
  lemma {:induction false} SiftFrame<T>(leq: (T, T) -> bool, t: seq<T>, root: int, end: int, k: int)
    requires 0 <= root && end < |t| && 0 <= k < |t| && k != root && Parent(k) < root
    ensures Sifted(leq, t, root, end)[k] == t[k]
    decreases end - root
  {
    if root * 2 + 1 <= end {
      var swap := LargerChild(leq, t, root, end);
      if swap != root {
        SiftFrame(leq, Swapped(t, root, swap), swap, end, k);
      }
    }
  }

  /** A largest entry at the place the sift starts from, or right below it, is there afterwards. */
  lemma SiftRaises<T(!new)>(leq: (T, T) -> bool, s: seq<T>, t: seq<T>, root: int, k: int)
    requires TotalPreorder(leq) && 0 <= root < |t| && 0 <= k < |t| && (k == root || (k > 0 && Parent(k) == root))
    requires Largest(leq, s, t[k])
    ensures Largest(leq, s, Sifted(leq, t, root, |t| - 1)[root])
  {
    var end := |t| - 1;
    if root * 2 + 1 <= end {
      LargerChildIsTop(leq, t, root, end);
      var swap := LargerChild(leq, t, root, end);
      assert leq(t[k], t[swap]);
      if swap != root {
        SiftFrame(leq, Swapped(t, root, swap), swap, end, root);
      }
    }
  }

  /** A largest entry that starts anywhere else comes to the top. */
  lemma {:induction false} HeapifyRaises<T(!new)>(leq: (T, T) -> bool, s: seq<T>, t: seq<T>, start: int, k: int)
    requires TotalPreorder(leq) && 0 <= start <= |t| && 0 <= k < |t| && Parent(k) < start && Largest(leq, s, t[k])
    ensures Largest(leq, s, HeapifiedFrom(leq, t, start)[0])
    decreases start
  {
    if start > 0 {
      var root := start - 1;
      if k == root || (k > 0 && Parent(k) == root) {
        SiftRaises(leq, s, t, root, k);
        HeapifyRaises(leq, s, Sifted(leq, t, root, |t| - 1), root, root);
      } else {
        SiftFrame(leq, t, root, |t| - 1, k);
        HeapifyRaises(leq, s, Sifted(leq, t, root, |t| - 1), root, k);
      }
    }
  }

  /** Exactly when heapifying brings a largest entry to the top. */
  lemma ToppedExactly<T(!new)>(leq: (T, T) -> bool, s: seq<T>)
    requires TotalPreorder(leq) && |s| >= 2
    ensures Largest(leq, s, HeapifiedFrom(leq, s, LastParent(|s|))[0]) <==> LargestElsewhere(leq, s)
  {
    if LargestElsewhere(leq, s) {
      var k :| 0 <= k < |s| && Parent(k) < LastParent(|s|) && Largest(leq, s, s[k]);
      HeapifyRaises(leq, s, s, LastParent(|s|), k);
    } else {
      HeapifyLifts(leq, s, s, LastParent(|s|));
    }
  }

  /** Only lists with a largest entry that is not below the last parent come out sorted. */
  lemma SortedOnly<T(!new)>(leq: (T, T) -> bool, s: seq<T>)
    requires TotalPreorder(leq) && IsSorted(leq, HeapSorted(leq, s))
    ensures LargestElsewhere(leq, s)
  {
    if |s| >= 2 {
      var end := |s| - 1;
      var h := HeapifiedFrom(leq, s, LastParent(|s|));
      var t := Swapped(h, 0, end);
      SiftPermutes(leq, t, 0, end - 1);
      ExtractPermutes(leq, Sifted(leq, t, 0, end - 1), end - 1);
      var r := HeapSorted(leq, s);
      assert r[end] == h[0];
      SortPermutes(leq, s);
      forall k | 0 <= k < |s| ensures leq(s[k], r[end]) {
        assert s[k] in multiset(r);
        var j :| 0 <= j < |r| && r[j] == s[k];
      }
      ToppedExactly(leq, s);
    }
  }

  /** Below the second entry of six there are only leaves, and the end of the list makes no difference to them. */
  lemma SecondOfSix<T(!new)>(leq: (T, T) -> bool, s: seq<T>)
    requires TotalPreorder(leq) && |s| == 6
    ensures HeapFrom(leq, Sifted(leq, s, 1, 5), 1, 4)
  {
    assert Sifted(leq, s, 1, 5) == Sifted(leq, s, 1, 4);
    SiftHeap(leq, s, 1, 1, 4);
  }

  lemma ThirdOfSix<T(!new)>(leq: (T, T) -> bool, t: seq<T>)
    requires TotalPreorder(leq) && |t| == 6 && HeapFrom(leq, t, 1, 4)
    ensures HeapFrom(leq, Sifted(leq, Swapped(t, 0, 2), 2, 5), 1, 4)
  {
    forall k | k in {1, 3, 4} ensures Sifted(leq, Swapped(t, 0, 2), 2, 5)[k] == t[k] {
      SiftFrame(leq, Swapped(t, 0, 2), 2, 5, k);
    }
  }

  /** Heapifying six entries leaves only the last one out of order, at most. */
  lemma SixInOrder<T(!new)>(leq: (T, T) -> bool, s: seq<T>)
    requires TotalPreorder(leq) && |s| == 6
    ensures HeapFrom(leq, HeapifiedFrom(leq, s, 2), 1, 4)
  {
    var t := Sifted(leq, s, 1, 5);
    SecondOfSix(leq, s);
    var swap := LargerChild(leq, t, 0, 5);
    if swap == 1 {
      SecondOfSix(leq, Swapped(t, 0, 1));
    } else if swap == 2 {
      ThirdOfSix(leq, t);
    }
    assert HeapifiedFrom(leq, s, 2) == HeapifiedFrom(leq, t, 1) == Sifted(leq, t, 0, 5);
  }

  /** A list with a largest entry elsewhere is sorted if heapifying orders all but the top and the last entry. */
  lemma NearHeapSorts<T(!new)>(leq: (T, T) -> bool, s: seq<T>)
    requires TotalPreorder(leq) && |s| >= 2 && LargestElsewhere(leq, s)
    requires HeapFrom(leq, HeapifiedFrom(leq, s, LastParent(|s|)), 1, |s| - 2)
    ensures IsSorted(leq, HeapSorted(leq, s))
  {
    var h := HeapifiedFrom(leq, s, LastParent(|s|));
    assert HeapSorted(leq, s) == ExtractedFrom(leq, h, |h| - 1);
    HeapTopped(leq, s);
    ExtractWhole(leq, h);
  }

  lemma ExtractWhole<T(!new)>(leq: (T, T) -> bool, h: seq<T>)
    requires TotalPreorder(leq) && h != [] && Topped(leq, h, |h| - 1) && HeapFrom(leq, h, 1, |h| - 2)
    ensures IsSorted(leq, ExtractedFrom(leq, h, |h| - 1))
  {
    ExtractSorts(leq, h, |h| - 1);
  }

  lemma HeapTopped<T(!new)>(leq: (T, T) -> bool, s: seq<T>)
    requires TotalPreorder(leq) && |s| >= 2 && LargestElsewhere(leq, s)
    ensures Topped(leq, HeapifiedFrom(leq, s, LastParent(|s|)), |s| - 1)
  {
    ToppedExactly(leq, s);
    HeapifyPermutes(leq, s, LastParent(|s|));
    LargestTops(leq, s, HeapifiedFrom(leq, s, LastParent(|s|)));
  }

  lemma LargestTops<T>(leq: (T, T) -> bool, s: seq<T>, h: seq<T>)
    requires Permuted(s, h) && h != [] && Largest(leq, s, h[0])
    ensures Topped(leq, h, |h| - 1)
  {
    forall k | 0 <= k < |h| ensures leq(h[k], h[0]) {
      assert h[k] in multiset(s);
      var j :| 0 <= j < |s| && s[j] == h[k];
    }
  }

  /** For up to four entries, and for six, the second condition is exact. */
  lemma SortsExactly<T(!new)>(leq: (T, T) -> bool, s: seq<T>)
    requires TotalPreorder(leq) && (|s| <= 4 || |s| == 6)
    ensures IsSorted(leq, HeapSorted(leq, s)) <==> LargestElsewhere(leq, s)
  {
    if |s| < 2 {
      Sorts(leq, s);
    } else if LargestElsewhere(leq, s) {
      if |s| == 6 {
        SixInOrder(leq, s);
      }
      NearHeapSorts(leq, s);
    } else if IsSorted(leq, HeapSorted(leq, s)) {
      SortedOnly(leq, s);
    }
  }

  /** Below four, where there is a single parent, both conditions are the same. */
  lemma OneParent<T(!new)>(leq: (T, T) -> bool, s: seq<T>)
    requires TotalPreorder(leq) && |s| < 4
    ensures LastParentAbove(leq, s) <==> LargestElsewhere(leq, s)
  {
    if |s| >= 2 {
      assert LastParent(|s|) == 0 && Parent(0) < 0 && forall i :: 0 < i < |s| ==> Parent(i) == 0;
      assert LargestElsewhere(leq, s) <==> Largest(leq, s, s[0]);
    }
  }

  /** Every list of two entries is reversed. */
  lemma TwoReversed<T>(leq: (T, T) -> bool, s: seq<T>)
    requires |s| == 2
    ensures HeapSorted(leq, s) == [s[1], s[0]]
  {
    var t := Swapped(s, 0, 1);
    assert HeapSorted(leq, s) == ExtractedFrom(leq, t, 0) == ExtractedFrom(leq, Swapped(t, 0, 0), -1);
  }

  /** From four entries on the first condition is not necessary: this list is sorted although its last parent is below
      its child. */
  lemma FirstNotNecessary()
    ensures var leq := (a: int, b: int) => a <= b;
            HeapSorted(leq, [5, 1, 2, 3]) == [1, 2, 3, 5] && !LastParentAbove(leq, [5, 1, 2, 3])
  {
    var leq := (a: int, b: int) => a <= b;
    assert [5, 1, 2, 3][3] > [5, 1, 2, 3][Parent(3)];
  }

  // ---------------------------------------------------------------- no other length

  predicate AtMost(a: int, b: int) { a <= b }

  /** A list with a single largest entry on top and a second-largest one, 2, that has not come far from the bottom. */
  ghost predicate Primed(t: seq<int>, start: int) {
    |t| >= 2 && t[0] == 4 && t[|t| - 1] < 2 && (forall k {:trigger t[k]} :: 0 < k < |t| ==> t[k] <= 2) &&
    (exists k :: 0 < k < |t| && t[k] == 2) &&
    forall k {:trigger t[k]} :: 0 < k < |t| && t[k] == 2 ==> start <= Parent(k)
  }

  /** A sift-down that has come to `root` lifts the 2 by one level at most, and does not sink it. */
  lemma {:induction false} SiftPrimed(t: seq<int>, start: int, root: int, end: int)
    requires Primed(t, start) && 0 < start <= root < |t| && end < |t| && (root > start ==> start <= Parent(root))
    requires t[root] < 2 && forall k {:trigger t[k]} :: root < k < |t| && t[k] == 2 ==> start < Parent(k)
    ensures Primed(Sifted(AtMost, t, root, end), start)
    decreases end - root
  {
    if root * 2 + 1 <= end {
      var swap := LargerChild(AtMost, t, root, end);
      if swap != root {
        var u := Swapped(t, root, swap);
        var k :| 0 < k < |t| && t[k] == 2;
        assert u[if k == swap then root else k] == 2;
        SiftPrimed(u, start, swap, end);
      }
    }
  }

  /** It never gets to the children of the top while the list is heapified. */
  lemma {:induction false} HeapifyPrimed(t: seq<int>, start: int)
    requires 0 < start <= LastParent(|t|) && Primed(t, start)
    ensures Primed(HeapifiedFrom(AtMost, t, start), 1)
    decreases start
  {
    if start > 1 {
      assert t[start - 1] < 2;
      SiftPrimed(t, start - 1, start - 1, |t| - 1);
      HeapifyPrimed(Sifted(AtMost, t, start - 1, |t| - 1), start - 1);
    } else {
      assert LargerChild(AtMost, t, 0, |t| - 1) == 0;
      assert HeapifiedFrom(AtMost, t, 1) == HeapifiedFrom(AtMost, Sifted(AtMost, t, 0, |t| - 1), 0) == t;
    }
  }

  lemma {:induction false} TopStays(t: seq<int>, root: int, end: int)
    requires 0 <= root < |t| && end < |t| && t[root] < 2
    requires forall k {:trigger t[k]} :: root < k <= end && t[k] == 2 ==> Parent(k) > root
    requires forall k {:trigger t[k]} :: root < k <= end ==> t[k] <= 2
    ensures Sifted(AtMost, t, root, end)[root] < 2
  {
    if root * 2 + 1 <= end {
      var swap := LargerChild(AtMost, t, root, end);
      if swap != root {
        SiftFrame(AtMost, Swapped(t, root, swap), swap, end, root);
      }
    }
  }

  /** After the first extraction something smaller is on top, which then stays in the second-last place. */
  lemma SecondPlaced(h: seq<int>)
    requires Primed(h, 1) && |h| >= 3
    ensures var r := ExtractedFrom(AtMost, h, |h| - 1); r[|h| - 2] < 2 && r[|h| - 1] == 4
  {
    var end := |h| - 1;
    var t := Swapped(h, 0, end);
    var u := Sifted(AtMost, t, 0, end - 1);
    TopStays(t, 0, end - 1);
    SiftPermutes(AtMost, t, 0, end - 1);
    ExtractPermutes(AtMost, u, end - 1);
    FirstOut(u, end - 1);
  }

  lemma FirstOut(u: seq<int>, end: int)
    requires 0 <= end < |u|
    ensures ExtractedFrom(AtMost, u, end)[end] == u[0]
  {
    var v := Swapped(u, 0, end);
    SiftPermutes(AtMost, v, 0, end - 1);
    ExtractPermutes(AtMost, Sifted(AtMost, v, 0, end - 1), end - 1);
  }

  /** So the 2 is overtaken by something smaller. */
  lemma PrimedUnsorted(h: seq<int>)
    requires Primed(h, 1) && |h| >= 3
    ensures !IsSorted(AtMost, ExtractedFrom(AtMost, h, |h| - 1))
  {
    var r, end := ExtractedFrom(AtMost, h, |h| - 1), |h| - 1;
    SecondPlaced(h);
    ExtractPermutes(AtMost, h, end);
    var j := FindTwo(h, r);
    assert !AtMost(r[j], r[end - 1]);
  }

  lemma FindTwo(h: seq<int>, r: seq<int>) returns (j: nat)
    requires Primed(h, 1) && Permuted(h, r) && |r| == |h| >= 3 && r[|h| - 2] < 2 && r[|h| - 1] == 4
    ensures j < |h| - 2 && r[j] == 2
  {
    var k :| 0 < k < |h| && h[k] == 2;
    assert h[k] in multiset(r);
    j :| 0 <= j < |r| && r[j] == 2;
  }

  function OddList(n: nat): seq<int> {
    seq(n, i => if i == 0 then 4 else if i == n - 2 then 2 else 0)
  }

  /** With a 1 in the last parent, so that the first sift-down of its parent comes to it and lifts the 2. */
  function EvenList(n: nat): seq<int> {
    seq(n, i => if i == 0 then 4 else if i == LastParent(n) then 1 else if i == n - 1 then 2 else 0)
  }

  predicate Quiet(s: seq<int>, root: int) {
    0 <= root && Sifted(AtMost, s, root, |s| - 1) == s
  }

  /** Sifting down from a place without children but zeros changes nothing. */
  lemma {:induction false} QuietSift(n: nat, root: int)
    requires n >= 8 && n % 2 == 0 && Parent(LastParent(n)) < root < n && root != LastParent(n)
    ensures Quiet(EvenList(n), root)
    decreases n - root
  {
    var s := EvenList(n);
    if root * 2 + 1 <= n - 1 {
      var swap := LargerChild(AtMost, s, root, n - 1);
      if swap != root {
        assert Swapped(s, root, swap) == s;
        QuietSift(n, swap);
      }
    }
  }

  lemma {:induction false} QuietHeapify(s: seq<int>, p: int, start: int)
    requires 0 <= p < start <= |s|
    requires forall k :: p < k < start ==> Quiet(s, k)
    ensures HeapifiedFrom(AtMost, s, start) == HeapifiedFrom(AtMost, s, p + 1)
    decreases start
  {
    if start > p + 1 {
      assert Quiet(s, start - 1);
      QuietHeapify(s, p, start - 1);
    }
  }

  /** The parent of the last parent sinks to the end. */
  lemma EvenLifted(n: nat)
    requires n >= 8 && n % 2 == 0
    ensures var p := Parent(LastParent(n)); Primed(Sifted(AtMost, EvenList(n), p, n - 1), p) && p > 0
  {
    var s, q := EvenList(n), LastParent(n);
    var p := Parent(q);
    assert LargerChild(AtMost, s, p, n - 1) == q;
    var t := Swapped(s, p, q);
    assert LargerChild(AtMost, t, q, n - 1) == n - 1;
    var u := Swapped(t, q, n - 1);
    assert Sifted(AtMost, s, p, n - 1) == Sifted(AtMost, t, q, n - 1) == Sifted(AtMost, u, n - 1, n - 1) == u;
    assert u[q] == 2;
  }

  lemma OddFails(n: nat)
    requires n >= 5 && n % 2 == 1
    ensures !IsSorted(AtMost, HeapSorted(AtMost, OddList(n)))
  {
    var s := OddList(n);
    assert s[n - 2] == 2;
    HeapifyPrimed(s, LastParent(n));
    PrimedUnsorted(HeapifiedFrom(AtMost, s, LastParent(n)));
  }

  lemma EvenHeap(n: nat)
    requires n >= 8 && n % 2 == 0
    ensures Primed(HeapifiedFrom(AtMost, EvenList(n), LastParent(n)), 1)
  {
    var s, q := EvenList(n), LastParent(n);
    var p := Parent(q);
    forall k | p < k < q ensures Quiet(s, k) {
      QuietSift(n, k);
    }
    QuietHeapify(s, p, q);
    EvenLifted(n);
    HeapifyPrimed(Sifted(AtMost, s, p, n - 1), p);
  }

  lemma EvenFails(n: nat)
    requires n >= 8 && n % 2 == 0
    ensures !IsSorted(AtMost, HeapSorted(AtMost, EvenList(n)))
  {
    EvenHeap(n);
    PrimedUnsorted(HeapifiedFrom(AtMost, EvenList(n), LastParent(n)));
  }

  /** Every other length has a list whose largest entry is on top and that does not come out sorted. */
  lemma OthersFail(n: nat) returns (s: seq<int>)
    requires n == 5 || n > 6
    ensures |s| == n && LargestElsewhere(AtMost, s) && !IsSorted(AtMost, HeapSorted(AtMost, s))
  {
    if n % 2 == 1 {
      s := OddList(n);
      OddFails(n);
    } else {
      s := EvenList(n);
      EvenFails(n);
    }
    TopElsewhere(s);
  }

  lemma TopElsewhere(s: seq<int>)
    requires |s| >= 2 && s[0] == 4 && forall k :: 0 <= k < |s| ==> s[k] <= 4
    ensures LargestElsewhere(AtMost, s)
  {
    assert Largest(AtMost, s, s[0]) && Parent(0) < LastParent(|s|);
  }

  /** The lengths for which the second condition is exact. */
  lemma ExactLengths(n: nat)
    ensures n <= 4 || n == 6 <==>
              forall s: seq<int> :: |s| == n ==>
                (IsSorted(AtMost, HeapSorted(AtMost, s)) <==> LargestElsewhere(AtMost, s))
  {
    if n <= 4 || n == 6 {
      forall s: seq<int> | |s| == n
        ensures IsSorted(AtMost, HeapSorted(AtMost, s)) <==> LargestElsewhere(AtMost, s)
      {
        SortsExactly(AtMost, s);
      }
    } else {
      var s := OthersFail(n);
    }
  }
}
