/**
  The sorts the menu runs over snapshot arrays: bubble sort of products and
  of suppliers ascending by id, and merge sort of stock entries descending by
  quantity. The arrays hold pointers and the sorts only reorder them, so a
  snapshot is modelled as a sequence of records and a sort as a method from
  the input sequence to the reordered one.
 */
module Sorting {
  import opened Records
  import opened Lists

  /** One pass of the bubble sort (the inner loop): compares and swaps the
      adjacent pairs of r[0..last], which carries the largest key of that
      prefix to position `last`. Entries after `last`, which earlier passes
      have put in place, are not touched. */
  method BubblePass<T>(a: seq<T>, key: T -> int, last: int) returns (r: seq<T>, swapped: bool)
    requires 0 <= last < |a|
    requires forall p, q | 0 <= p <= last < q < |a| :: key(a[p]) <= key(a[q])
    ensures |r| == |a| && multiset(r) == multiset(a)
    ensures forall q | last < q < |a| :: r[q] == a[q]
    ensures forall p, q | 0 <= p <= last < q < |a| :: key(r[p]) <= key(r[q])
    ensures forall p | 0 <= p <= last :: key(r[p]) <= key(r[last])
    ensures !swapped ==> r == a && forall p, q | 0 <= p < q <= last :: key(r[p]) <= key(r[q])
    ensures (forall p, q | 0 <= p < q <= last :: key(a[p]) <= key(a[q])) ==> !swapped
  {
    r := a;
    swapped := false;
    var j := 0;
    while j < last
      invariant PassInvariant(a, key, last, r, j, swapped)
    {
      if key(r[j]) > key(r[j + 1]) {
        SwapStep(a, key, last, r, j, swapped);
        r := Swap(r, j);
        swapped := true;
      } else {
        KeepStep(a, key, last, r, j, swapped);
      }
      j := j + 1;
    }
    if !swapped {
      AdjacentOrdered(a, key, last);
    }
  }

  /** What holds after the pass has compared the pairs below `j`: r is a
      permutation of `a` that agrees with it after `last` and still has
      every key up to `last` below every key after it; r[j] holds the
      largest key of r[0..j]; and while nothing has been swapped, r is `a`
      and a[0..j] is in order. A prefix that was sorted to begin with is
      never swapped. */
  ghost predicate PassInvariant<T>(a: seq<T>, key: T -> int, last: int, r: seq<T>, j: int, swapped: bool)
  {
    && 0 <= j <= last < |a|
    && |r| == |a| && multiset(r) == multiset(a)
    && (forall q | last < q < |a| :: r[q] == a[q])
    && (forall p, q | 0 <= p <= last < q < |a| :: key(r[p]) <= key(r[q]))
    && (forall p | 0 <= p < j :: key(r[p]) <= key(r[j]))
    && (!swapped ==> r == a && forall p | 0 <= p < j :: key(a[p]) <= key(a[p + 1]))
    && ((forall p, q | 0 <= p < q <= last :: key(a[p]) <= key(a[q])) ==> !swapped)
  }

  /** The step of a pass that swaps r[j] and r[j + 1]. */
  lemma SwapStep<T>(a: seq<T>, key: T -> int, last: int, r: seq<T>, j: int, swapped: bool)
    requires PassInvariant(a, key, last, r, j, swapped) && j < last
    requires key(r[j]) > key(r[j + 1])
    ensures PassInvariant(a, key, last, Swap(r, j), j + 1, true)
  {
    var r' := Swap(r, j);
    forall p, q | 0 <= p <= last < q < |a|
      ensures key(r'[p]) <= key(r'[q])
    {
      assert r'[q] == r[q];
    }
    forall p | 0 <= p < j + 1
      ensures key(r'[p]) <= key(r'[j + 1])
    {
      if p < j {
        assert r'[p] == r[p];
      }
    }
  }

  /** The step of a pass that leaves r[j] and r[j + 1] in place. */
  lemma KeepStep<T>(a: seq<T>, key: T -> int, last: int, r: seq<T>, j: int, swapped: bool)
    requires PassInvariant(a, key, last, r, j, swapped) && j < last
    requires key(r[j]) <= key(r[j + 1])
    ensures PassInvariant(a, key, last, r, j + 1, swapped)
  {
  }

  lemma {:induction false} AdjacentOrdered<T>(a: seq<T>, key: T -> int, last: int)
    requires 0 <= last < |a|
    requires forall p | 0 <= p < last :: key(a[p]) <= key(a[p + 1])
    ensures forall p, q | 0 <= p < q <= last :: key(a[p]) <= key(a[q])
  {
    if last > 0 {
      AdjacentOrdered(a, key, last - 1);
      forall p | 0 <= p < last
        ensures key(a[p]) <= key(a[last])
      {
        assert key(a[p]) <= key(a[last - 1]);
      }
    }
  }

  /** Exchanges the adjacent entries at `j` and `j + 1`. */
  function Swap<T>(s: seq<T>, j: int): (t: seq<T>)
    requires 0 <= j < |s| - 1
    ensures |t| == |s| && t[j] == s[j + 1] && t[j + 1] == s[j]
    ensures forall k | 0 <= k < |s| && k != j && k != j + 1 :: t[k] == s[k]
    ensures multiset(t) == multiset(s)
  {
    assert s == s[..j] + [s[j], s[j + 1]] + s[j + 2..];
    s[..j] + [s[j + 1], s[j]] + s[j + 2..]
  }

  /** The bubble sort shared by `bubbleSortProducts` and
      `bubbleSortSuppliers`: passes over a shrinking prefix, stopping after
      the first pass that swaps nothing. `passes` counts the passes begun. */
  method BubbleSort<T>(a: seq<T>, key: T -> int) returns (r: seq<T>, passes: nat)
    ensures SortedBy(r, key)
    ensures multiset(r) == multiset(a)
    ensures |a| <= 1 ==> passes == 0
    ensures |a| >= 2 ==> 1 <= passes <= |a| - 1
    ensures SortedBy(a, key) ==> r == a && passes == (if |a| <= 1 then 0 else 1)
  {
    r := a;
    passes := 0;
    var n := |a|;
    var i := 0;
    while i < n - 1
      invariant 0 <= i && (n == 0 || i <= n - 1)
      invariant passes == i
      invariant |r| == n && multiset(r) == multiset(a)
      invariant forall p, q | 0 <= n - i <= p < q < n :: key(r[p]) <= key(r[q])
      invariant forall p, q | 0 <= p < n - i <= q < n :: key(r[p]) <= key(r[q])
      invariant SortedBy(a, key) ==> r == a && i == 0
    {
      passes := passes + 1;
      var swapped;
      r, swapped := BubblePass(r, key, n - i - 1);
      if !swapped {
        break;
      }
      i := i + 1;
    }
  }

  /** `bubbleSortProducts`. */
  method BubbleSortProducts(a: seq<Product>) returns (r: seq<Product>, passes: nat)
    ensures forall i, j | 0 <= i < j < |r| :: r[i].id <= r[j].id
    ensures multiset(r) == multiset(a)
    ensures passes <= |a| - 1 || passes == 0
    ensures (forall i, j | 0 <= i < j < |a| :: a[i].id <= a[j].id) ==>
      r == a && passes == (if |a| <= 1 then 0 else 1)
  {
    r, passes := BubbleSort(a, ProductId);
    assert SortedBy(r, ProductId);
  }

  /** `bubbleSortSuppliers`. */
  method BubbleSortSuppliers(a: seq<Supplier>) returns (r: seq<Supplier>, passes: nat)
    ensures forall i, j | 0 <= i < j < |r| :: r[i].id <= r[j].id
    ensures multiset(r) == multiset(a)
    ensures passes <= |a| - 1 || passes == 0
    ensures (forall i, j | 0 <= i < j < |a| :: a[i].id <= a[j].id) ==>
      r == a && passes == (if |a| <= 1 then 0 else 1)
  {
    r, passes := BubbleSort(a, SupplierId);
    assert SortedBy(r, SupplierId);
  }

  /** Non-increasing by quantity. */
  ghost predicate SortedDesc(s: seq<Stock>)
  {
    forall i, j | 0 <= i < j < |s| :: s[i].quantity >= s[j].quantity
  }

  /** The entries of `s` whose quantity is `q`, in their order in `s`. A sort
      is stable when it leaves every such subsequence as it was. */
  function WithQuantity(s: seq<Stock>, q: int): seq<Stock>
  {
    if |s| == 0 then []
    else (if s[0].quantity == q then [s[0]] else []) + WithQuantity(s[1..], q)
  }

  lemma {:induction false} WithQuantityConcat(a: seq<Stock>, b: seq<Stock>)
    ensures forall q :: WithQuantity(a + b, q) == WithQuantity(a, q) + WithQuantity(b, q)
  {
    if |a| > 0 {
      WithQuantityConcat(a[1..], b);
      assert (a + b)[1..] == a[1..] + b;
    } else {
      assert a + b == b;
    }
  }

  lemma {:induction false} WithQuantityAbsent(s: seq<Stock>, q: int)
    requires AllAtMost(s, q - 1)
    ensures WithQuantity(s, q) == []
  {
    if |s| > 0 {
      WithQuantityAbsent(s[1..], q);
    }
  }

  /** The merge of left[i..] and right[j..] as a recursive definition: the
      next entry comes from the left run when the right run is used up or
      the left head's quantity is at least the right head's, and from the
      right run otherwise. */
  function MergeFrom(left: seq<Stock>, right: seq<Stock>, i: int, j: int): seq<Stock>
    requires 0 <= i <= |left| && 0 <= j <= |right|
    decreases |left| - i + |right| - j
  {
    if i == |left| && j == |right| then []
    else if j == |right| || (i < |left| && left[i].quantity >= right[j].quantity) then
      [left[i]] + MergeFrom(left, right, i + 1, j)
    else
      [right[j]] + MergeFrom(left, right, i, j + 1)
  }

  lemma {:induction false} MergeFromPermutes(left: seq<Stock>, right: seq<Stock>, i: int, j: int)
    requires 0 <= i <= |left| && 0 <= j <= |right|
    ensures multiset(MergeFrom(left, right, i, j)) == multiset(left[i..]) + multiset(right[j..])
    decreases |left| - i + |right| - j
  {
    if i == |left| && j == |right| {
    } else if j == |right| || (i < |left| && left[i].quantity >= right[j].quantity) {
      MergeFromPermutes(left, right, i + 1, j);
      assert MergeFrom(left, right, i, j) == [left[i]] + MergeFrom(left, right, i + 1, j);
      assert left[i..] == [left[i]] + left[i + 1..];
      PermutesStep(left[i], MergeFrom(left, right, i + 1, j), left[i + 1..], right[j..]);
    } else {
      MergeFromPermutes(left, right, i, j + 1);
      assert MergeFrom(left, right, i, j) == [right[j]] + MergeFrom(left, right, i, j + 1);
      assert right[j..] == [right[j]] + right[j + 1..];
      PermutesStep(right[j], MergeFrom(left, right, i, j + 1), left[i..], right[j + 1..]);
    }
  }

  /** Putting one entry in front of a merge of the rest accounts for it. */
  lemma PermutesStep(x: Stock, m: seq<Stock>, a: seq<Stock>, b: seq<Stock>)
    requires multiset(m) == multiset(a) + multiset(b)
    ensures multiset([x] + m) == multiset([x] + a) + multiset(b)
    ensures multiset([x] + m) == multiset(a) + multiset([x] + b)
  {
  }

  /** Every quantity in `s` is at most `v`. */
  ghost predicate AllAtMost(s: seq<Stock>, v: int)
  {
    forall k | 0 <= k < |s| :: s[k].quantity <= v
  }

  lemma {:induction false} MergeFromBelow(left: seq<Stock>, right: seq<Stock>, i: int, j: int, v: int)
    requires 0 <= i <= |left| && 0 <= j <= |right|
    requires AllAtMost(left[i..], v) && AllAtMost(right[j..], v)
    ensures AllAtMost(MergeFrom(left, right, i, j), v)
    decreases |left| - i + |right| - j
  {
    if i == |left| && j == |right| {
    } else if j == |right| || (i < |left| && left[i].quantity >= right[j].quantity) {
      assert left[i + 1..] == left[i..][1..];
      MergeFromBelow(left, right, i + 1, j, v);
      ConsBelow(left[i], MergeFrom(left, right, i + 1, j), v);
    } else {
      assert right[j + 1..] == right[j..][1..];
      MergeFromBelow(left, right, i, j + 1, v);
      ConsBelow(right[j], MergeFrom(left, right, i, j + 1), v);
    }
  }

  lemma ConsBelow(x: Stock, m: seq<Stock>, v: int)
    requires x.quantity <= v && AllAtMost(m, v)
    ensures AllAtMost([x] + m, v)
  {
  }

  /** An entry followed by a non-increasing run of quantities no larger
      than its own is non-increasing. */
  lemma ConsSorted(x: Stock, m: seq<Stock>)
    requires SortedDesc(m) && AllAtMost(m, x.quantity)
    ensures SortedDesc([x] + m)
  {
  }

  /** The suffix of a non-increasing run is bounded by the entry before it. */
  lemma SuffixBelow(s: seq<Stock>, i: int)
    requires SortedDesc(s) && 0 <= i < |s|
    ensures AllAtMost(s[i + 1..], s[i].quantity) && AllAtMost(s[i..], s[i].quantity)
  {
  }

  lemma {:induction false} MergeFromSorted(left: seq<Stock>, right: seq<Stock>, i: int, j: int)
    requires 0 <= i <= |left| && 0 <= j <= |right|
    requires SortedDesc(left) && SortedDesc(right)
    ensures SortedDesc(MergeFrom(left, right, i, j))
    decreases |left| - i + |right| - j
  {
    if i == |left| && j == |right| {
    } else if j == |right| || (i < |left| && left[i].quantity >= right[j].quantity) {
      MergeFromSorted(left, right, i + 1, j);
      SuffixBelow(left, i);
      if j < |right| {
        SuffixBelow(right, j);
      }
      MergeFromBelow(left, right, i + 1, j, left[i].quantity);
      ConsSorted(left[i], MergeFrom(left, right, i + 1, j));
    } else {
      MergeFromSorted(left, right, i, j + 1);
      SuffixBelow(right, j);
      if i < |left| {
        SuffixBelow(left, i);
      }
      MergeFromBelow(left, right, i, j + 1, right[j].quantity);
      ConsSorted(right[j], MergeFrom(left, right, i, j + 1));
    }
  }

  /** Stability of the merge: entries of equal quantity come out with all
      those of the left run first, each run in its own order. */
  lemma {:induction false} MergeFromStable(left: seq<Stock>, right: seq<Stock>, i: int, j: int)
    requires 0 <= i <= |left| && 0 <= j <= |right|
    requires SortedDesc(left)
    ensures forall q :: WithQuantity(MergeFrom(left, right, i, j), q) ==
                        WithQuantity(left[i..], q) + WithQuantity(right[j..], q)
    decreases |left| - i + |right| - j
  {
    if i == |left| && j == |right| {
    } else if j == |right| || (i < |left| && left[i].quantity >= right[j].quantity) {
      MergeFromStable(left, right, i + 1, j);
      assert left[i..] == [left[i]] + left[i + 1..];
      StableLeftStep(left[i], MergeFrom(left, right, i + 1, j), left[i + 1..], right[j..]);
    } else {
      MergeFromStable(left, right, i, j + 1);
      assert right[j..] == [right[j]] + right[j + 1..];
      if i < |left| {
        SuffixBelow(left, i);
      }
      WithQuantityAbsent(left[i..], right[j].quantity);
      StableRightStep(right[j], MergeFrom(left, right, i, j + 1), left[i..], right[j + 1..]);
    }
  }

  /** The head's quantity class gains the head in front. */
  lemma WithQuantityCons(x: Stock, s: seq<Stock>, q: int)
    ensures WithQuantity([x] + s, q) == (if x.quantity == q then [x] else []) + WithQuantity(s, q)
  {
    assert ([x] + s)[1..] == s;
  }

  /** Taking the left head keeps every quantity class in left-first order. */
  lemma StableLeftStep(x: Stock, m: seq<Stock>, a: seq<Stock>, b: seq<Stock>)
    requires forall q :: WithQuantity(m, q) == WithQuantity(a, q) + WithQuantity(b, q)
    ensures forall q :: WithQuantity([x] + m, q) == WithQuantity([x] + a, q) + WithQuantity(b, q)
  {
    forall q
      ensures WithQuantity([x] + m, q) == WithQuantity([x] + a, q) + WithQuantity(b, q)
    {
      WithQuantityCons(x, m, q);
      WithQuantityCons(x, a, q);
      var h := if x.quantity == q then [x] else [];
      assert h + (WithQuantity(a, q) + WithQuantity(b, q)) == (h + WithQuantity(a, q)) + WithQuantity(b, q);
    }
  }

  /** Taking the right head keeps every quantity class in left-first order,
      provided no left entry has the head's quantity. */
  lemma StableRightStep(x: Stock, m: seq<Stock>, a: seq<Stock>, b: seq<Stock>)
    requires forall q :: WithQuantity(m, q) == WithQuantity(a, q) + WithQuantity(b, q)
    requires WithQuantity(a, x.quantity) == []
    ensures forall q :: WithQuantity([x] + m, q) == WithQuantity(a, q) + WithQuantity([x] + b, q)
  {
    forall q
      ensures WithQuantity([x] + m, q) == WithQuantity(a, q) + WithQuantity([x] + b, q)
    {
      WithQuantityCons(x, m, q);
      WithQuantityCons(x, b, q);
      if x.quantity == q {
        assert WithQuantity(m, q) == WithQuantity(b, q);
      } else {
        assert WithQuantity([x] + m, q) == WithQuantity(m, q);
        assert WithQuantity([x] + b, q) == WithQuantity(b, q);
      }
    }
  }

  /** `merge`: merges two runs that are each non-increasing by quantity,
      taking from the left run while its head is at least the right run's
      head (`>=`), then copying whatever remains of either run. Entries of
      equal quantity keep left-run-first order. */
  method Merge(left: seq<Stock>, right: seq<Stock>) returns (r: seq<Stock>)
    requires SortedDesc(left) && SortedDesc(right)
    ensures SortedDesc(r)
    ensures multiset(r) == multiset(left) + multiset(right)
    ensures forall q :: WithQuantity(r, q) == WithQuantity(left, q) + WithQuantity(right, q)
  {
    r := MergeLoops(left, right);
    assert left[0..] == left && right[0..] == right;
    MergeFromSorted(left, right, 0, 0);
    MergeFromPermutes(left, right, 0, 0);
    MergeFromStable(left, right, 0, 0);
  }

  /** One step of `merge` that takes the left run's head. */
  lemma TakeLeft(left: seq<Stock>, right: seq<Stock>, i: int, j: int, r: seq<Stock>)
    requires 0 <= i < |left| && 0 <= j <= |right|
    requires j == |right| || left[i].quantity >= right[j].quantity
    requires r + MergeFrom(left, right, i, j) == MergeFrom(left, right, 0, 0)
    ensures (r + [left[i]]) + MergeFrom(left, right, i + 1, j) == MergeFrom(left, right, 0, 0)
  {
    assert MergeFrom(left, right, i, j) == [left[i]] + MergeFrom(left, right, i + 1, j);
  }

  /** One step of `merge` that takes the right run's head. */
  lemma TakeRight(left: seq<Stock>, right: seq<Stock>, i: int, j: int, r: seq<Stock>)
    requires 0 <= i <= |left| && 0 <= j < |right|
    requires i == |left| || left[i].quantity < right[j].quantity
    requires r + MergeFrom(left, right, i, j) == MergeFrom(left, right, 0, 0)
    ensures (r + [right[j]]) + MergeFrom(left, right, i, j + 1) == MergeFrom(left, right, 0, 0)
  {
    assert MergeFrom(left, right, i, j) == [right[j]] + MergeFrom(left, right, i, j + 1);
  }

  /** The three loops of `merge`, which compute MergeFrom(left, right, 0, 0). */
  method MergeLoops(left: seq<Stock>, right: seq<Stock>) returns (r: seq<Stock>)
    ensures r == MergeFrom(left, right, 0, 0)
  {
    r := [];
    var i, j := 0, 0;
    while i < |left| && j < |right|
      invariant 0 <= i <= |left| && 0 <= j <= |right|
      invariant r + MergeFrom(left, right, i, j) == MergeFrom(left, right, 0, 0)
    {
      if left[i].quantity >= right[j].quantity {
        TakeLeft(left, right, i, j, r);
        r, i := r + [left[i]], i + 1;
      } else {
        TakeRight(left, right, i, j, r);
        r, j := r + [right[j]], j + 1;
      }
    }
    while i < |left|
      invariant 0 <= i <= |left| && 0 <= j <= |right|
      invariant i < |left| ==> j == |right|
      invariant r + MergeFrom(left, right, i, j) == MergeFrom(left, right, 0, 0)
    {
      TakeLeft(left, right, i, j, r);
      r, i := r + [left[i]], i + 1;
    }
    while j < |right|
      invariant i == |left| && 0 <= j <= |right|
      invariant r + MergeFrom(left, right, i, j) == MergeFrom(left, right, 0, 0)
    {
      TakeRight(left, right, i, j, r);
      r, j := r + [right[j]], j + 1;
    }
    assert MergeFrom(left, right, i, j) == [];
  }

  /** `mergeSortStocks(arr, l, r)` on the slice arr[l..r]: splits at
      mid = l + (r - l) / 2, so the left half gets the extra element of an
      odd-length slice, sorts both halves, and merges them. */
  method MergeSortStocks(a: seq<Stock>) returns (r: seq<Stock>)
    ensures SortedDesc(r)
    ensures multiset(r) == multiset(a)
    ensures forall q :: WithQuantity(r, q) == WithQuantity(a, q)
    decreases |a|
  {
    if |a| <= 1 {
      return a;
    }
    var mid := (|a| - 1) / 2 + 1;
    var left := MergeSortStocks(a[..mid]);
    var right := MergeSortStocks(a[mid..]);
    r := Merge(left, right);
    assert a == a[..mid] + a[mid..];
    WithQuantityConcat(a[..mid], a[mid..]);
  }
}
