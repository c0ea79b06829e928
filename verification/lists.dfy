/**
  Operations shared by the two singly-linked lists and the snapshot arrays.
  A list is a sequence whose element 0 is the head node; a snapshot array of
  record pointers is a sequence of records (the program only ever reorders
  the pointers, so nothing aliases).
 */
module Lists {
  import opened Records

  /** The position of the first element whose key is `k`, scanning from the
      head, or None when no element has that key: the walk that
      `findSupplier`, `findStock` and the duplicate check of `addStock` make. */
  function FirstIndex<T, K(==)>(l: seq<T>, key: T -> K, k: K): (r: Option<nat>)
    ensures r.None? <==> forall i | 0 <= i < |l| :: key(l[i]) != k
    ensures r.Some? ==> r.value < |l| && key(l[r.value]) == k
    ensures r.Some? ==> forall i | 0 <= i < r.value :: key(l[i]) != k
  {
    if |l| == 0 then None
    else if key(l[0]) == k then Some(0)
    else
      match FirstIndex(l[1..], key, k)
      case None => None
      case Some(i) => Some(i + 1)
  }

  /** The first element from the head whose key is `k`, if any. */
  function FirstWith<T, K(==)>(l: seq<T>, key: T -> K, k: K): Option<T>
  {
    match FirstIndex(l, key, k)
    case None => None
    case Some(i) => Some(l[i])
  }

  /** Prepending an element with another key shifts the first index by one. */
  lemma ShiftedFirstIndex<T, K>(x: T, l: seq<T>, key: T -> K)
    ensures forall k | k != key(x) ::
      FirstIndex([x] + l, key, k) ==
        match FirstIndex(l, key, k)
        case None => None
        case Some(i) => Some(i + 1)
  {
    assert ([x] + l)[1..] == l;
  }

  /** Lists whose keys agree position by position agree on every first index. */
  lemma SameKeysFirstIndex<T, K>(l: seq<T>, l': seq<T>, key: T -> K)
    requires |l| == |l'|
    requires forall i | 0 <= i < |l| :: key(l[i]) == key(l'[i])
    ensures forall k :: FirstIndex(l, key, k) == FirstIndex(l', key, k)
  {
    forall k
      ensures FirstIndex(l, key, k) == FirstIndex(l', key, k)
    {
      var a, b := FirstIndex(l, key, k), FirstIndex(l', key, k);
      if a.Some? && b.Some? {
        assert !(a.value < b.value) && !(b.value < a.value);
      }
    }
  }

  /** Lists whose keys agree position by position have the same key set. */
  lemma SameKeysKeySet<T, K>(l: seq<T>, l': seq<T>, key: T -> K)
    requires |l| == |l'|
    requires forall i | 0 <= i < |l| :: key(l[i]) == key(l'[i])
    ensures KeySet(l, key) == KeySet(l', key)
  {
    forall k | k in KeySet(l', key)
      ensures k in KeySet(l, key)
    {
      var j :| 0 <= j < |l'| && key(l'[j]) == k;
      assert key(l[j]) == k;
    }
    forall k | k in KeySet(l, key)
      ensures k in KeySet(l', key)
    {
      var j :| 0 <= j < |l| && key(l[j]) == k;
      assert key(l'[j]) == k;
    }
  }

  /** The set of keys present in `l`. */
  ghost function KeySet<T, K>(l: seq<T>, key: T -> K): set<K>
  {
    set i | 0 <= i < |l| :: key(l[i])
  }

  /** The keys of a non-empty list: its head's key and those of the rest. */
  lemma KeySetCons<T, K>(l: seq<T>, key: T -> K)
    requires |l| > 0
    ensures KeySet(l, key) == {key(l[0])} + KeySet(l[1..], key)
  {
    forall k | k in KeySet(l, key) && k != key(l[0])
      ensures k in KeySet(l[1..], key)
    {
      var i :| 0 <= i < |l| && key(l[i]) == k;
      assert key(l[1..][i - 1]) == k;
    }
  }

  /** The keys of a concatenation are those of its parts. */
  lemma KeySetConcat<T, K>(a: seq<T>, b: seq<T>, key: T -> K)
    ensures KeySet(a + b, key) == KeySet(a, key) + KeySet(b, key)
  {
    var s := a + b;
    forall k | k in KeySet(s, key)
      ensures k in KeySet(a, key) + KeySet(b, key)
    {
      var i :| 0 <= i < |s| && key(s[i]) == k;
      if i >= |a| {
        assert key(b[i - |a|]) == k;
      }
    }
    forall k | k in KeySet(a, key)
      ensures k in KeySet(s, key)
    {
      var i :| 0 <= i < |a| && key(a[i]) == k;
      assert key(s[i]) == k;
    }
    forall k | k in KeySet(b, key)
      ensures k in KeySet(s, key)
    {
      var i :| 0 <= i < |b| && key(b[i]) == k;
      assert key(s[|a| + i]) == k;
    }
  }

  /** The elements of `l` from last to first. */
  function Reverse<T>(l: seq<T>): (r: seq<T>)
    ensures |r| == |l|
    ensures forall i | 0 <= i < |l| :: r[i] == l[|l| - 1 - i]
  {
    if |l| == 0 then [] else Reverse(l[1..]) + [l[0]]
  }

  /** No two elements of `l` share a key. */
  ghost predicate UniqueKeys<T, K>(l: seq<T>, key: T -> K)
  {
    forall i, j | 0 <= i < j < |l| :: key(l[i]) != key(l[j])
  }

  /** Dropping the head keeps the keys distinct. */
  lemma UniqueKeysTail<T, K>(l: seq<T>, key: T -> K)
    requires |l| > 0 && UniqueKeys(l, key)
    ensures UniqueKeys(l[1..], key)
  {
    var rest := l[1..];
    forall i, j | 0 <= i < j < |rest|
      ensures key(rest[i]) != key(rest[j])
    {
      assert rest[i] == l[i + 1] && rest[j] == l[j + 1];
    }
  }

  /** `l` is non-decreasing by `key`. */
  ghost predicate SortedBy<T>(l: seq<T>, key: T -> int)
  {
    forall i, j | 0 <= i < j < |l| :: key(l[i]) <= key(l[j])
  }

  /** `count()` of SupplierList and StockList: one step per node. */
  method Count<T>(l: seq<T>) returns (n: int)
    ensures n == |l|
  {
    n := 0;
    while n < |l|
      invariant 0 <= n <= |l|
    {
      n := n + 1;
    }
  }

  /** `getAllSuppliers` / `getAllStocks`: copies node references into an
      array of the given capacity, head first, stopping when the list or the
      array runs out. */
  method Snapshot<T>(l: seq<T>, capacity: int) returns (arr: seq<T>)
    ensures arr <= l
    ensures |arr| == if capacity <= 0 then 0 else if capacity < |l| then capacity else |l|
  {
    arr := [];
    var idx := 0;
    while idx < |l| && idx < capacity
      invariant 0 <= idx <= |l|
      invariant idx <= capacity || idx == 0
      invariant arr == l[..idx]
    {
      arr := arr + [l[idx]];
      idx := idx + 1;
    }
  }
}
