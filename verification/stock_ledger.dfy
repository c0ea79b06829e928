/**
  StockList: a singly-linked list of stock entries keyed by the pair
  (productId, supplierId). Adding a pair that is already present adds the
  quantity into that node in place; a new pair is prepended. The ledger does
  not check that the product or supplier exists (the menu does that before
  calling it, see Catalog.AddStockFromMenu).
 */
module StockLedger {
  import opened Records
  import opened Lists

  /** The (productId, supplierId) pairs present in the ledger. */
  ghost function Pairs(l: seq<Stock>): set<(int, int)>
  {
    KeySet(l, StockPair)
  }

  /** The ledger invariant: at most one node per pair. */
  ghost predicate UniquePairs(l: seq<Stock>)
  {
    UniqueKeys(l, StockPair)
  }

  /** `findStock`: the first node from the head with that pair, or null. */
  function FindStock(l: seq<Stock>, productId: int, supplierId: int): (r: Option<Stock>)
    ensures r.None? <==> (productId, supplierId) !in Pairs(l)
    ensures r.Some? ==> StockPair(r.value) == (productId, supplierId) && r.value in l
    ensures UniquePairs(l) ==>
      forall i | 0 <= i < |l| && StockPair(l[i]) == (productId, supplierId) :: r == Some(l[i])
  {
    FirstWith(l, StockPair, (productId, supplierId))
  }

  /** The quantity the ledger records for a pair: that of the node
      `findStock` returns, or 0 when there is none. */
  function QuantityOf(l: seq<Stock>, k: (int, int)): int
  {
    match FindStock(l, k.0, k.1)
    case Some(x) => x.quantity
    case None => 0
  }

  /** `addStock`. The quantity lives in a 32-bit `int`, and signed overflow
      has no defined result in C++, so the caller must keep the new total in
      range. */
  function AddStock(l: seq<Stock>, s: Stock): (r: seq<Stock>)
    requires IsInt32(QuantityOf(l, StockPair(s)) + s.quantity)
    ensures StockPair(s) !in Pairs(l) ==> r == [s] + l
    ensures StockPair(s) in Pairs(l) ==>
      && |r| == |l|
      && (forall i | 0 <= i < |l| :: StockPair(r[i]) == StockPair(l[i]))
      && (forall i | 0 <= i < |l| && StockPair(l[i]) != StockPair(s) :: r[i] == l[i])
    ensures QuantityOf(r, StockPair(s)) == QuantityOf(l, StockPair(s)) + s.quantity
    ensures forall k | k != StockPair(s) :: QuantityOf(r, k) == QuantityOf(l, k)
    ensures Pairs(r) == Pairs(l) + {StockPair(s)}
    ensures UniquePairs(l) ==> UniquePairs(r)
  {
    match FirstIndex(l, StockPair, StockPair(s))
    case None =>
      AddNew(l, s);
      [s] + l
    case Some(i) =>
      AddInPlace(l, i, s);
      l[i := l[i].(quantity := l[i].quantity + s.quantity)]
  }

  /** Prepending a node for a pair the ledger lacks. */
  lemma AddNew(l: seq<Stock>, s: Stock)
    requires StockPair(s) !in Pairs(l)
    ensures var r := [s] + l;
            && QuantityOf(r, StockPair(s)) == QuantityOf(l, StockPair(s)) + s.quantity
            && (forall k | k != StockPair(s) :: QuantityOf(r, k) == QuantityOf(l, k))
            && Pairs(r) == Pairs(l) + {StockPair(s)}
            && (UniquePairs(l) ==> UniquePairs(r))
  {
    ShiftedFirstIndex(s, l, StockPair);
    KeySetConcat([s], l, StockPair);
    assert KeySet([s], StockPair) == {StockPair(s)} by {
      assert StockPair([s][0]) == StockPair(s);
    }
  }

  /** Adding into the node at `i`, the first with s's pair, changes only
      that node's quantity. */
  lemma AddInPlace(l: seq<Stock>, i: nat, s: Stock)
    requires FirstIndex(l, StockPair, StockPair(s)) == Some(i)
    requires IsInt32(l[i].quantity + s.quantity)
    ensures var r := l[i := l[i].(quantity := l[i].quantity + s.quantity)];
            && |r| == |l|
            && (forall j | 0 <= j < |l| :: StockPair(r[j]) == StockPair(l[j]))
            && (forall j | 0 <= j < |l| && StockPair(l[j]) != StockPair(s) :: r[j] == l[j])
            && QuantityOf(r, StockPair(s)) == QuantityOf(l, StockPair(s)) + s.quantity
            && (forall k | k != StockPair(s) :: QuantityOf(r, k) == QuantityOf(l, k))
            && Pairs(r) == Pairs(l) + {StockPair(s)}
            && (UniquePairs(l) ==> UniquePairs(r))
  {
    var r := l[i := l[i].(quantity := l[i].quantity + s.quantity)];
    SameKeysFirstIndex(l, r, StockPair);
    SameKeysKeySet(l, r, StockPair);
    forall k | k != StockPair(s)
      ensures QuantityOf(r, k) == QuantityOf(l, k)
    {
      var f := FirstIndex(l, StockPair, k);
      if f.Some? {
        assert f.value != i && r[f.value] == l[f.value];
      }
    }
    assert StockPair(s) in Pairs(l) by {
      assert StockPair(l[i]) == StockPair(s);
    }
  }

  /** Adding the same pair twice to a ledger that lacks it leaves exactly one
      node for the pair, holding the sum of both quantities. */
  lemma AddTwice(l: seq<Stock>, productId: int32, supplierId: int32, q1: int32, q2: int32)
    requires UniquePairs(l) && (productId, supplierId) !in Pairs(l)
    requires IsInt32(q1 + q2)
    ensures var l2 := AddStock(AddStock(l, Stock(productId, supplierId, q1)), Stock(productId, supplierId, q2));
            && UniquePairs(l2)
            && |l2| == |l| + 1
            && FindStock(l2, productId, supplierId) == Some(Stock(productId, supplierId, q1 + q2))
  {
    var l1 := AddStock(l, Stock(productId, supplierId, q1));
    assert l1[0] == Stock(productId, supplierId, q1);
    var l2 := AddStock(l1, Stock(productId, supplierId, q2));
    var x := FindStock(l2, productId, supplierId).value;
    assert x.quantity == q1 + q2;
  }
}
