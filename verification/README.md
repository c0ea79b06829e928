# Inventory catalog core in Dafny

A model of the data-structure layer of a small C++ inventory system
(`project.cpp`). The system has three containers and the algorithms that run
over snapshot arrays taken from them:

- **ProductBST**: an unbalanced binary search tree of products keyed by
  product id. It has recursive insert, delete-by-successor and search, an
  in-order collector and a node count. It is modelled as the inductive
  `ProductIndex.Tree` with the ordering invariant `IsBST`, and with the
  abstraction `Contents` (id to product).
- **SupplierList**: a singly-linked list with insertion at the head and
  unique ids. It is modelled as `seq<Supplier>` with element 0 as the head
  (`SupplierRegistry`).
- **StockList**: a singly-linked list keyed by the pair (productId,
  supplierId). Adding an existing pair sums the quantity into its node; a new
  pair is prepended (`StockLedger`).
- **Sorting and searching**:
  - bubble sort ascending by id, with early exit;
  - stable top-down merge sort of stock, descending by quantity;
  - linear search and binary search (`Sorting`, `Searching`).

  The C++ arrays hold pointers that are only reordered, so each snapshot is
  modelled as a sequence of records.
- **Program level** (`Catalog`):
  - the record-by-record part of the three load routines;
  - the Add Stock menu command's existence check;
  - the two sort commands;
  - the save-then-load round trip.

Exceptions become `Result.Err`. Every throwing path in the C++ throws before it
reassigns any link, so an `Err` carries no new container: on failure the
caller's container is the one it already had. A null pointer becomes
`Option.None`. Record fields are 32-bit `int`s (`Records.int32`). The only
addition of two of them, `quantity += s.quantity` in `addStock`, has no
defined result on overflow in C++. `StockLedger.AddStock` therefore requires
the new total to fit.

## Model

| member | source | states |
|---|---|---|
| ProductIndex.Insert | project.cpp:83-94 | Fails with DuplicateID exactly when the id is already in the tree. On success the tree is still a search tree and its ids are the old ids plus the new one. |
| ProductIndex.InsertContents | project.cpp:83-94 | A successful insert adds exactly the new id-to-product entry; every other product is kept. |
| ProductIndex.FindMin | project.cpp:96-100 | Null exactly for the empty tree. Otherwise it is the first product in in-order, held in the tree, with an id no larger than any id in a search tree. |
| ProductIndex.Remove | project.cpp:102-129 | Fails with NotFound exactly when the id is absent, including on the empty tree. On success the tree is still a search tree and its ids are the old ids minus that one. |
| ProductIndex.RemoveContents | project.cpp:102-129 | A successful remove drops exactly the entry for that id; every other product, including a successor moved up, keeps its id-to-product pairing. |
| ProductIndex.SuccessorNode | project.cpp:122-126 | Copying the least product of the right subtree into the node, then removing it from that subtree, keeps the ordering and removes exactly the node's id. |
| ProductIndex.Search | project.cpp:131-136 | Returns a product exactly when the id is in the tree. That product has the id and is the one the tree holds for it. |
| ProductIndex.Count | project.cpp:190-197 | The node count equals the length of the in-order sequence. |
| ProductIndex.CountIsKeyCount | project.cpp:190-197 | In a search tree the node count is the number of distinct ids. |
| ProductIndex.InorderIdsOf | project.cpp:145-150 | The ids reached by in-order traversal are exactly the ids of the tree. |
| ProductIndex.BSTInorderAscending | project.cpp:145-150 | In-order traversal of a search tree yields strictly ascending ids. |
| ProductIndex.InorderAscendingIffBST | project.cpp:145-150 | A tree is a search tree if and only if its in-order ids are strictly ascending. |
| ProductIndex.InorderEntry | project.cpp:145-150 | Each product met in in-order is the one the tree holds for its id. |
| ProductIndex.CollectAsWrittenFits | project.cpp:145-150 | As written, when the free slots hold the whole tree, the collector writes exactly the in-order sequence. |
| ProductIndex.CollectAsWrittenFills | project.cpp:145-150 | As written, the collector writes at least as many products as the smaller of the tree size and the free slots. |
| ProductIndex.CollectAsWrittenOverruns | project.cpp:145-150 | As written, when a left subtree alone fills the free slots, the node after it is still written, past the last slot. |
| ProductIndex.Collect | project.cpp:145-150 | Corrected collector: its writes are a prefix of the in-order sequence and never pass the capacity. They are the whole sequence unless the array filled up. |
| ProductIndex.GetAllProducts | project.cpp:200-204 | Built on the corrected collector: the snapshot is the first min(capacity, count) products in ascending id order, and none at all for a capacity of zero or less. |
| ProductIndex.GetAllProductsAsWritten | project.cpp:200-204 | When the array holds the whole tree, as both callers allocate it (`getCount()` slots), the corrected snapshot equals what the collector as written produces, which is the whole in-order sequence. |
| SupplierRegistry.FindSupplier | project.cpp:278-286 | Null exactly when no supplier has the id. Otherwise it is a listed supplier with that id, and the only one when ids are distinct. |
| SupplierRegistry.AddSupplier | project.cpp:269-276 | Fails with DuplicateID exactly when the id is present. On success the new supplier is the head, the old list follows unchanged, and distinct ids stay distinct. |
| SupplierRegistry.AddThenFind | project.cpp:269-286 | After a successful add, the new id finds the new supplier and every other id is found as before. |
| Lists.FirstIndex | project.cpp:278-286 | The head-first scan: no index when nothing matches. Otherwise an index whose key matches, with no match before it. |
| Lists.Count | project.cpp:303-311 | The list count is the list length. |
| Lists.Snapshot | project.cpp:314-322 | The snapshot is the first min(capacity, length) list elements, head first. |
| StockLedger.FindStock | project.cpp:415-423 | Null exactly when the pair is absent. Otherwise it is a listed entry with that pair, and the only one in a ledger with one node per pair. |
| StockLedger.AddStock | project.cpp:384-397 | A new pair is prepended; an existing pair keeps the length, the pairs and every other node. The pair's quantity grows by the added amount and every other pair's quantity is unchanged. One node per pair is preserved. |
| StockLedger.AddTwice | project.cpp:384-397 | Adding a fresh pair twice leaves one node for it, holding the sum of both quantities. |
| Sorting.BubblePass | project.cpp:454-460 | One inner pass permutes the prefix and leaves the settled suffix alone. It moves the prefix's largest id to its last slot. No swap happens exactly when the prefix was already in order, and then nothing changes. |
| Sorting.BubbleSort | project.cpp:451-463 | The result is a permutation of the input in non-decreasing key order. Already-ordered input is returned unchanged after one pass, so the early exit still leaves the result sorted. |
| Sorting.BubbleSortProducts | project.cpp:451-463 | Products come out as a permutation ordered by id; an ordered array is left as it is after a single pass. |
| Sorting.BubbleSortSuppliers | project.cpp:466-478 | Suppliers come out as a permutation ordered by id; an ordered array is left as it is after a single pass. |
| Sorting.MergeLoops | project.cpp:490-500 | The three merge loops produce exactly the recursive merge `MergeFrom`, which takes the left head on `>=`. |
| Sorting.MergeFromPermutes | project.cpp:481-501 | The merge is a permutation of the two runs together. |
| Sorting.MergeFromSorted | project.cpp:481-501 | Merging two non-increasing runs gives a non-increasing run. |
| Sorting.MergeFromStable | project.cpp:481-501 | For every quantity, the merged entries with that quantity are the left run's, in order, followed by the right run's. |
| Sorting.Merge | project.cpp:481-501 | The merged run is non-increasing, a permutation of both runs, and left-first stable. |
| Sorting.MergeSortStocks | project.cpp:503-510 | The result is non-increasing by quantity and a permutation of the input. For every quantity its entries keep their input order, so the sort is stable. |
| Searching.LinearSearch | project.cpp:515-520 | Returns -1 exactly when no key matches. Otherwise it is the smallest matching index, the same one the head-first scan finds. |
| Searching.Midpoint | project.cpp:526 | The probe lies in [low, high] and splits the range in half, so every array access stays in bounds. |
| Searching.BinarySearch | project.cpp:523-535 | On an array sorted by key it returns -1 exactly when no entry has the key; otherwise an index whose key matches. |
| Searching.LinearSearchProduct | project.cpp:515-520 | The smallest index with that product id, or -1 exactly when there is none. |
| Searching.BinarySearchProduct | project.cpp:523-535 | On an array sorted by id, an index with that product id, or -1 exactly when there is none. |
| Searching.LinearSearchSupplier | project.cpp:538-543 | The smallest index with that supplier id, or -1 exactly when there is none. |
| Searching.BinarySearchSupplier | project.cpp:546-558 | On an array sorted by id, an index with that supplier id, or -1 exactly when there is none. |
| Catalog.LoadProducts | project.cpp:577-592 | Loading keeps the search-tree ordering; the ids are the old ids plus those of the file. |
| Catalog.LoadProductsFirstWins | project.cpp:577-592 | After loading, an id already present keeps its product; a new id gets the first file record with that id, and later duplicates are skipped. |
| Catalog.LoadSuppliersIds | project.cpp:609-624 | Loading adds exactly the file's ids and keeps ids distinct. |
| Catalog.LoadSuppliersFirstWins | project.cpp:609-624 | After loading, an id already present is found as before; a new id finds the first file record with that id. |
| Catalog.LoadStocksQuantities | project.cpp:641-652 | After loading, each pair's quantity is its old quantity plus the file's total for that pair. |
| Catalog.LoadStocksPairs | project.cpp:641-652 | Loading adds exactly the file's pairs and keeps one node per pair. |
| Catalog.AddStockFromMenu | project.cpp:757-776 | An unknown product is reported first, then an unknown supplier. Only when both exist is the stock added, with the ledger's quantity semantics. |
| Catalog.AddStockFromMenuReferenced | project.cpp:757-776 | Stock added through the menu keeps every ledger pair pointing at an existing product and supplier. This covers adds only: removing a product (menu command 4, project.cpp:721-729) leaves its stock entries in place, so this is not an invariant of the whole program. |
| Catalog.SortProductsCommand | project.cpp:782-799 | Sorting the tree's snapshot returns the products in ascending id order, after one pass with no swap whenever there are two or more products. |
| Catalog.SortStocksCommand | project.cpp:800-817 | Sorting the ledger's snapshot gives its entries by decreasing quantity, ties in list order. |
| Catalog.SaveProducts | project.cpp:562-575 | The saved records are every product of the tree in ascending id order, so the file holds exactly the tree's ids. |
| Catalog.SaveList | project.cpp:594-607 | The saved records are the whole list, head first; `saveStocksToFile` (project.cpp:626-639) writes the ledger the same way. |
| Catalog.SaveLoadProducts | project.cpp:562-592 | Loading the saved records (`getAllProducts` with `getCount()` slots, as in `Catalog.SaveProducts`) into an empty tree gives the same product for every id. |
| Catalog.SaveLoadSuppliers | project.cpp:594-624 | Loading the saved records (the whole list, per `Catalog.SaveList`) into an empty list finds the same supplier for every id. When ids are distinct, as `addSupplier` keeps them, the reloaded list is the original reversed. |
| Catalog.LoadSuppliersOnto | project.cpp:609-624 | Loading suppliers with distinct ids that are not yet listed prepends each one, so the file's records end up in front of the list in reverse order. |
| Catalog.SaveLoadStocks | project.cpp:626-652 | For the saved records (the whole ledger, per `Catalog.SaveList`) of a ledger with one node per pair, which `addStock` maintains, loading the file into an empty ledger cannot overflow. It gives every pair its quantity, with the same pairs and one node per pair. |

## Left out

- File I/O: opening, reading and writing files and the FileException paths. The load routines are modelled from the point where each line has been parsed into a record.
- `toString` / `fromString`: the delimited text format depends on library number formatting. The round-trip lemmas assume that each record comes back from its line unchanged.
- The menu loop, the prompts and every `display` / `displayAll` routine: console output only. The Add Stock command and the two sort commands are modelled.
- Destructors, `clearHelper`, `delete` and the reset of the containers before a load: memory management with no observable behaviour in the model.
- The product price is a C++ `double`. It is carried as a `real` and never inspected.
- The `n` argument of the sorts and searches is taken to be the array length, and the model uses the sequence length. The program calls only `bubbleSortProducts` (project.cpp:792) and `mergeSortStocks` (project.cpp:810), both with the full snapshot. `bubbleSortSuppliers` and the four search functions have no caller in the program.
- Node counts, list counts and indices are unbounded here; the C++ `int` counters would overflow only past 2^31 - 1 nodes.
- StockLedger.AddStock: requires the new total to fit in 32 bits instead of modelling the C++ overflow. Signed overflow has no defined result in C++, so there is no behaviour to model.
- Catalog.LoadStocks: requires every running total of the replay to fit in 32 bits, for the same reason.
- Sorting.BubbleSortProducts: bounds the number of passes (at most n - 1) and fixes it only for already-sorted input. The exact pass count on other inputs is not stated.
- ProductIndex.GetAllProducts: uses the corrected collector, so for 0 < capacity < node count it returns `capacity` products where the source writes past the array (see Findings). `ProductIndex.GetAllProductsAsWritten` shows the two agree for every capacity the program passes.
- Searching.BinarySearch: requires input sorted by id, which is the stated precondition of `binarySearchProduct` / `binarySearchSupplier`. On an unsorted array the C++ still returns some value, and the model says nothing about it.
- `search` (project.cpp:174-177) returns a null pointer for an absent id and throws nothing; `ProductIndex.Search` returns `None`.

## Findings

| source | as written | input that shows it | evidently intended | confidence | as-written member | corrected member |
|---|---|---|---|---|---|---|
| project.cpp:145-150 | `collectInorder` tests `idx >= capacity` only on entry to a node. After the left subtree has filled the array, the node itself is still stored at `arr[capacity]`. | A root with id 2 and a left child with id 1, collected with capacity 1: the child fills slot 0, then the root is written to slot 1. | Stop writing once `capacity` products have been collected. | not executed; the program itself always passes the node count as capacity, so the overrun needs another caller | ProductIndex.CollectAsWrittenOverruns | ProductIndex.Collect, ProductIndex.GetAllProducts |
