/**
  The searches the program offers over snapshot arrays of products and
  suppliers: a linear scan that finds the first match, and a binary search
  over an array sorted ascending by id.
 */
module Searching {
  import opened Records
  import opened Lists

  /** `linearSearchProduct` / `linearSearchSupplier`: the smallest index
      whose key is `id`, or -1 when no entry has it. */
  method LinearSearch<T>(a: seq<T>, key: T -> int, id: int) returns (r: int)
    ensures -1 <= r < |a|
    ensures r == -1 <==> forall i | 0 <= i < |a| :: key(a[i]) != id
    ensures r >= 0 ==> key(a[r]) == id && forall i | 0 <= i < r :: key(a[i]) != id
    ensures r == match FirstIndex(a, key, id) case None => -1 case Some(i) => i
  {
    var i := 0;
    while i < |a|
      invariant 0 <= i <= |a|
      invariant forall k | 0 <= k < i :: key(a[k]) != id
    {
      if key(a[i]) == id {
        return i;
      }
      i := i + 1;
    }
    return -1;
  }

  /** The probe of the binary search, `low + (high - low) / 2`. Written this
      way it never leaves [low, high], and since high - low is never
      negative the truncating C++ division agrees with Dafny's. */
  function Midpoint(low: int, high: int): (mid: int)
    requires low <= high
    ensures low <= mid <= high
    ensures mid - low == high - mid || mid - low + 1 == high - mid
  {
    low + (high - low) / 2
  }

  /** `binarySearchProduct` / `binarySearchSupplier` over an array sorted
      ascending by key: an index whose key is `id`, or -1 exactly when no
      entry has it. With repeated keys any matching index may come back. */
  method BinarySearch<T>(a: seq<T>, key: T -> int, id: int) returns (r: int)
    requires SortedBy(a, key)
    ensures -1 <= r < |a|
    ensures r == -1 <==> forall i | 0 <= i < |a| :: key(a[i]) != id
    ensures r >= 0 ==> key(a[r]) == id
  {
    var low, high := 0, |a| - 1;
    while low <= high
      invariant 0 <= low <= high + 1 <= |a|
      invariant forall i | 0 <= i < low :: key(a[i]) < id
      invariant forall i | high < i < |a| :: key(a[i]) > id
      decreases high - low
    {
      var mid := Midpoint(low, high);
      if key(a[mid]) == id {
        return mid;
      } else if key(a[mid]) < id {
        low := mid + 1;
      } else {
        high := mid - 1;
      }
    }
    return -1;
  }

  /** `linearSearchProduct`. */
  method LinearSearchProduct(a: seq<Product>, productId: int) returns (r: int)
    ensures -1 <= r < |a|
    ensures r == -1 <==> forall i | 0 <= i < |a| :: a[i].id != productId
    ensures r >= 0 ==> a[r].id == productId && forall i | 0 <= i < r :: a[i].id != productId
  {
    r := LinearSearch(a, ProductId, productId);
  }

  /** `binarySearchProduct`. */
  method BinarySearchProduct(a: seq<Product>, productId: int) returns (r: int)
    requires forall i, j | 0 <= i < j < |a| :: a[i].id <= a[j].id
    ensures -1 <= r < |a|
    ensures r == -1 <==> forall i | 0 <= i < |a| :: a[i].id != productId
    ensures r >= 0 ==> a[r].id == productId
  {
    assert SortedBy(a, ProductId);
    r := BinarySearch(a, ProductId, productId);
  }

  /** `linearSearchSupplier`. */
  method LinearSearchSupplier(a: seq<Supplier>, supplierId: int) returns (r: int)
    ensures -1 <= r < |a|
    ensures r == -1 <==> forall i | 0 <= i < |a| :: a[i].id != supplierId
    ensures r >= 0 ==> a[r].id == supplierId && forall i | 0 <= i < r :: a[i].id != supplierId
  {
    r := LinearSearch(a, SupplierId, supplierId);
  }

  /** `binarySearchSupplier`. */
  method BinarySearchSupplier(a: seq<Supplier>, supplierId: int) returns (r: int)
    requires forall i, j | 0 <= i < j < |a| :: a[i].id <= a[j].id
    ensures -1 <= r < |a|
    ensures r == -1 <==> forall i | 0 <= i < |a| :: a[i].id != supplierId
    ensures r >= 0 ==> a[r].id == supplierId
  {
    assert SortedBy(a, SupplierId);
    r := BinarySearch(a, SupplierId, supplierId);
  }
}
