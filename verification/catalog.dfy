/**
  The program-level operations built from the three containers: replaying the
  records of a data file into them (the part of `loadProductsFromFile`,
  `loadSuppliersFromFile` and `loadStocksFromFile` after each line has been
  parsed), the existence check the menu makes before adding stock, and the
  two sort commands, which sort a snapshot of a container.
 */
module Catalog {
  import opened Records
  import opened Lists
  import opened ProductIndex
  import opened SupplierRegistry
  import opened StockLedger
  import opened Sorting

  /** `loadProductsFromFile`: inserts the records in file order; a record
      whose id is already present is reported and skipped. */
  function LoadProducts(t: Tree, ps: seq<Product>): (r: Tree)
    requires IsBST(t)
    ensures IsBST(r)
    ensures Keys(r) == Keys(t) + KeySet(ps, ProductId)
    decreases |ps|
  {
    if |ps| == 0 then t
    else
      KeySetCons(ps, ProductId);
      match Insert(t, ps[0])
      case Ok(t') => LoadProducts(t', ps[1..])
      case Err(_) => LoadProducts(t, ps[1..])
  }

  /** After a load, an id already in the tree keeps its product, and an id
      that first appears in the file gets the first record with that id:
      later duplicates are the ones skipped. */
  lemma {:induction false} LoadProductsFirstWins(t: Tree, ps: seq<Product>, id: int)
    requires IsBST(t)
    ensures Search(LoadProducts(t, ps), id) ==
            if id in Keys(t) then Search(t, id) else FirstWith(ps, ProductId, id)
    decreases |ps|
  {
    if |ps| > 0 {
      var p := ps[0];
      match Insert(t, p)
      case Ok(t') =>
        LoadProductsFirstWins(t', ps[1..], id);
        InsertContents(t, p);
      case Err(_) =>
        LoadProductsFirstWins(t, ps[1..], id);
    }
  }

  /** `loadSuppliersFromFile`: adds the records in file order; a record
      whose id is already present is reported and skipped. */
  function LoadSuppliers(l: seq<Supplier>, ss: seq<Supplier>): seq<Supplier>
    decreases |ss|
  {
    if |ss| == 0 then l
    else
      match AddSupplier(l, ss[0])
      case Ok(l') => LoadSuppliers(l', ss[1..])
      case Err(_) => LoadSuppliers(l, ss[1..])
  }

  /** After a load, the list holds the ids it held and those of the file,
      still pairwise distinct. */
  lemma {:induction false} LoadSuppliersIds(l: seq<Supplier>, ss: seq<Supplier>)
    ensures Ids(LoadSuppliers(l, ss)) == Ids(l) + KeySet(ss, SupplierId)
    ensures DistinctIds(l) ==> DistinctIds(LoadSuppliers(l, ss))
    decreases |ss|
  {
    if |ss| > 0 {
      KeySetCons(ss, SupplierId);
      match AddSupplier(l, ss[0])
      case Ok(l') =>
        KeySetCons(l', SupplierId);
        assert Ids(l') == Ids(l) + {ss[0].id as int};
        LoadSuppliersIds(l', ss[1..]);
      case Err(_) =>
        LoadSuppliersIds(l, ss[1..]);
    }
  }

  /** After a load, an id already in the list is found as before, and an
      id that first appears in the file finds the first record with it. */
  lemma {:induction false} LoadSuppliersFirstWins(l: seq<Supplier>, ss: seq<Supplier>, id: int)
    ensures FindSupplier(LoadSuppliers(l, ss), id) ==
            if id in Ids(l) then FindSupplier(l, id) else FirstWith(ss, SupplierId, id)
    decreases |ss|
  {
    if |ss| > 0 {
      var s := ss[0];
      match AddSupplier(l, s)
      case Ok(l') =>
        LoadSuppliersFirstWins(l', ss[1..], id);
        AddThenFind(l, s, id);
      case Err(_) =>
        LoadSuppliersFirstWins(l, ss[1..], id);
    }
  }

  /** Loading a file of suppliers with distinct ids, none already listed,
      prepends each in turn: the file ends up in front of the list,
      reversed. */
  lemma {:induction false} LoadSuppliersOnto(acc: seq<Supplier>, ss: seq<Supplier>)
    requires DistinctIds(ss)
    requires forall i | 0 <= i < |ss| :: ss[i].id !in Ids(acc)
    ensures LoadSuppliers(acc, ss) == Reverse(ss) + acc
    decreases |ss|
  {
    if |ss| > 0 {
      var s, rest := ss[0], ss[1..];
      var acc' := [s] + acc;
      AddFresh(acc, s);
      UniqueKeysTail(ss, SupplierId);
      forall i | 0 <= i < |rest|
        ensures rest[i].id !in Ids(acc')
      {
        assert rest[i] == ss[i + 1];
      }
      assert LoadSuppliers(acc, ss) == LoadSuppliers(acc', rest);
      LoadSuppliersOnto(acc', rest);
      assert Reverse(rest) + acc' == (Reverse(rest) + [s]) + acc;
    }
  }

  /** The total quantity the records of `adds` carry for pair `k`. */
  function QuantitySum(adds: seq<Stock>, k: (int, int)): int
  {
    if |adds| == 0 then 0
    else (if StockPair(adds[0]) == k then adds[0].quantity as int else 0) + QuantitySum(adds[1..], k)
  }

  /** Every running total of a replay of `adds` onto `l` fits in an `int`. */
  ghost predicate ReplayFits(l: seq<Stock>, adds: seq<Stock>)
    decreases |adds|
  {
    |adds| == 0 ||
    (IsInt32(QuantityOf(l, StockPair(adds[0])) + adds[0].quantity) &&
     ReplayFits(AddStock(l, adds[0]), adds[1..]))
  }

  /** `loadStocksFromFile`: adds every record in file order; records for a
      pair already present accumulate into its node. */
  function LoadStocks(l: seq<Stock>, adds: seq<Stock>): seq<Stock>
    requires ReplayFits(l, adds)
    decreases |adds|
  {
    if |adds| == 0 then l
    else LoadStocks(AddStock(l, adds[0]), adds[1..])
  }

  /** After a load, each pair's quantity is what the ledger held plus the
      total the file carries for it. */
  lemma {:induction false} LoadStocksQuantities(l: seq<Stock>, adds: seq<Stock>, k: (int, int))
    requires ReplayFits(l, adds)
    ensures QuantityOf(LoadStocks(l, adds), k) == QuantityOf(l, k) + QuantitySum(adds, k)
    decreases |adds|
  {
    if |adds| > 0 {
      LoadStocksQuantities(AddStock(l, adds[0]), adds[1..], k);
    }
  }

  /** After a load, the ledger holds the pairs it held and those of the
      file, still one node per pair. */
  lemma {:induction false} LoadStocksPairs(l: seq<Stock>, adds: seq<Stock>)
    requires ReplayFits(l, adds)
    ensures Pairs(LoadStocks(l, adds)) == Pairs(l) + KeySet(adds, StockPair)
    ensures UniquePairs(l) ==> UniquePairs(LoadStocks(l, adds))
    decreases |adds|
  {
    if |adds| > 0 {
      LoadStocksPairs(AddStock(l, adds[0]), adds[1..]);
      KeySetCons(adds, StockPair);
    }
  }

  /** The menu's Add Stock command: the product must be in the tree and the
      supplier in the list (checked in that order), and only then is the
      ledger updated. */
  function AddStockFromMenu(t: Tree, sups: seq<Supplier>, l: seq<Stock>, s: Stock): (r: Result<seq<Stock>>)
    requires IsBST(t)
    requires s.productId in Keys(t) && s.supplierId in Ids(sups) ==>
             IsInt32(QuantityOf(l, StockPair(s)) + s.quantity)
    ensures r.Err? <==> s.productId !in Keys(t) || s.supplierId !in Ids(sups)
    ensures s.productId !in Keys(t) ==> r == Err(UnknownProduct(s.productId))
    ensures s.productId in Keys(t) && s.supplierId !in Ids(sups) ==> r == Err(UnknownSupplier(s.supplierId))
    ensures r.Ok? ==> QuantityOf(r.value, StockPair(s)) == QuantityOf(l, StockPair(s)) + s.quantity
    ensures r.Ok? ==> forall k | k != StockPair(s) :: QuantityOf(r.value, k) == QuantityOf(l, k)
  {
    if Search(t, s.productId).None? then Err(UnknownProduct(s.productId))
    else if FindSupplier(sups, s.supplierId).None? then Err(UnknownSupplier(s.supplierId))
    else Ok(AddStock(l, s))
  }

  /** Every stock entry names a product in the tree and a supplier in the
      list. */
  ghost predicate Referenced(t: Tree, sups: seq<Supplier>, l: seq<Stock>)
  {
    forall k | k in Pairs(l) :: k.0 in Keys(t) && k.1 in Ids(sups)
  }

  /** Stock added through the menu only ever names known products and
      suppliers. */
  lemma AddStockFromMenuReferenced(t: Tree, sups: seq<Supplier>, l: seq<Stock>, s: Stock)
    requires IsBST(t) && Referenced(t, sups, l)
    requires s.productId in Keys(t) && s.supplierId in Ids(sups) ==>
             IsInt32(QuantityOf(l, StockPair(s)) + s.quantity)
    ensures AddStockFromMenu(t, sups, l, s).Ok? ==> Referenced(t, sups, AddStockFromMenu(t, sups, l, s).value)
  {
  }

  /** Menu command 10: bubble-sorts a snapshot of the tree by id. The
      snapshot is already in ascending order, so the sort returns it as it
      is after a single pass that swaps nothing. */
  method SortProductsCommand(t: Tree) returns (arr: seq<Product>, passes: nat)
    requires IsBST(t)
    ensures arr == Inorder(t)
    ensures passes == if ProductIndex.Count(t) <= 1 then 0 else 1
  {
    var n := ProductIndex.Count(t);
    var snapshot := GetAllProducts(t, n);
    assert snapshot == Inorder(t);
    BSTInorderAscending(t);
    arr, passes := BubbleSortProducts(snapshot);
  }

  /** Menu command 11: merge-sorts a snapshot of the stock list by quantity,
      largest first; entries of equal quantity stay in list order. */
  method SortStocksCommand(l: seq<Stock>) returns (arr: seq<Stock>)
    ensures SortedDesc(arr)
    ensures multiset(arr) == multiset(l)
    ensures forall q :: WithQuantity(arr, q) == WithQuantity(l, q)
  {
    var n := Lists.Count(l);
    var snapshot := Snapshot(l, n);
    assert snapshot == l;
    arr := MergeSortStocks(snapshot);
  }

  /** The records `saveProductsToFile` writes, one line each: a snapshot of
      `getCount()` slots, which is every product in ascending id order. */
  method SaveProducts(t: Tree) returns (file: seq<Product>)
    ensures file == Inorder(t)
    ensures IsBST(t) ==> KeySet(file, ProductId) == Keys(t)
  {
    var count := ProductIndex.Count(t);
    file := GetAllProducts(t, count);
    InorderIdsOf(t);
  }

  /** The records `saveSuppliersToFile` and `saveStocksToFile` write: a
      snapshot of `count()` slots, which is the whole list, head first. */
  method SaveList<T>(l: seq<T>) returns (file: seq<T>)
    ensures file == l
  {
    var count := Lists.Count(l);
    file := Snapshot(l, count);
  }

  /** Saving the tree writes `getAllProducts(arr, getCount())`; loading that
      file into an empty tree gives back the same product for every id. */
  lemma SaveLoadProducts(t: Tree, id: int)
    requires IsBST(t)
    ensures var saved := GetAllProducts(t, ProductIndex.Count(t));
            Search(LoadProducts(Leaf, saved), id) == Search(t, id)
  {
    var saved := GetAllProducts(t, ProductIndex.Count(t));
    assert saved == Inorder(t);
    LoadProductsFirstWins(Leaf, saved, id);
    InorderIdsOf(t);
    match FirstIndex(saved, ProductId, id)
    case None =>
    case Some(i) =>
      InorderEntry(t, i);
  }

  /** Saving the supplier list writes it head first; loading that file into
      an empty list finds the same supplier for every id (the list itself
      comes back in reverse order, since each load prepends). */
  lemma SaveLoadSuppliers(l: seq<Supplier>, id: int)
    ensures FindSupplier(LoadSuppliers([], l), id) == FindSupplier(l, id)
    ensures DistinctIds(l) ==> LoadSuppliers([], l) == Reverse(l)
  {
    LoadSuppliersFirstWins([], l, id);
    if DistinctIds(l) {
      LoadSuppliersOnto([], l);
      assert Reverse(l) + [] == Reverse(l);
    }
  }

  /** Saving the ledger writes it head first; loading that file into an
      empty ledger never overflows and gives every pair the quantity it
      had, one node per pair. */
  lemma SaveLoadStocks(l: seq<Stock>)
    requires UniquePairs(l)
    ensures ReplayFits([], l)
    ensures forall k :: QuantityOf(LoadStocks([], l), k) == QuantityOf(l, k)
    ensures Pairs(LoadStocks([], l)) == Pairs(l) && UniquePairs(LoadStocks([], l))
  {
    FreshReplayFits([], l);
    LoadStocksPairs([], l);
    forall k
      ensures QuantityOf(LoadStocks([], l), k) == QuantityOf(l, k)
    {
      LoadStocksQuantities([], l, k);
      QuantitySumUnique(l, k);
    }
  }

  /** Replaying entries with pairwise distinct pairs, none yet in the
      ledger, only ever prepends fresh nodes, so no total can overflow. */
  lemma {:induction false} FreshReplayFits(acc: seq<Stock>, s: seq<Stock>)
    requires UniquePairs(s)
    requires forall i | 0 <= i < |s| :: StockPair(s[i]) !in Pairs(acc)
    ensures ReplayFits(acc, s)
    decreases |s|
  {
    if |s| > 0 {
      var acc' := AddStock(acc, s[0]);
      forall i | 0 <= i < |s[1..]|
        ensures StockPair(s[1..][i]) !in Pairs(acc')
      {
        assert s[1..][i] == s[i + 1];
      }
      FreshReplayFits(acc', s[1..]);
    }
  }

  /** In a ledger with one node per pair, a pair's quantity is the total of
      its nodes. */
  lemma {:induction false} QuantitySumUnique(l: seq<Stock>, k: (int, int))
    requires UniquePairs(l)
    ensures QuantitySum(l, k) == QuantityOf(l, k)
    decreases |l|
  {
    if |l| > 0 {
      QuantitySumUnique(l[1..], k);
      if StockPair(l[0]) == k {
        assert k !in Pairs(l[1..]) by {
          forall i | 0 <= i < |l[1..]|
            ensures StockPair(l[1..][i]) != k
          {
            assert l[1..][i] == l[i + 1];
          }
        }
      }
    }
  }
}
