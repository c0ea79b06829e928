/**
  SupplierList: a singly-linked list of suppliers with insertion at the head
  and unique ids, enforced by a full scan before every insertion. Element 0
  of the sequence is the head node, so iteration order is most recently
  added first.
 */
module SupplierRegistry {
  import opened Records
  import opened Lists

  /** The ids present in the list. */
  ghost function Ids(l: seq<Supplier>): set<int>
  {
    KeySet(l, SupplierId)
  }

  ghost predicate DistinctIds(l: seq<Supplier>)
  {
    UniqueKeys(l, SupplierId)
  }

  /** `findSupplier`: the first supplier from the head with that id, or
      null. In a list with distinct ids it is the only one. */
  function FindSupplier(l: seq<Supplier>, id: int): (r: Option<Supplier>)
    ensures r.None? <==> id !in Ids(l)
    ensures r.Some? ==> r.value.id == id && r.value in l
    ensures DistinctIds(l) ==> forall i | 0 <= i < |l| && l[i].id == id :: r == Some(l[i])
  {
    FirstWith(l, SupplierId, id)
  }

  /** `addSupplier`: throws DuplicateID when the id is already present;
      otherwise the new supplier becomes the head. */
  function AddSupplier(l: seq<Supplier>, s: Supplier): (r: Result<seq<Supplier>>)
    ensures r.Err? <==> s.id in Ids(l)
    ensures r.Err? ==> r.error == DuplicateID(s.id)
    ensures r.Ok? ==> |r.value| == |l| + 1 && r.value[0] == s && r.value[1..] == l
    ensures r.Ok? && DistinctIds(l) ==> DistinctIds(r.value)
  {
    if FindSupplier(l, s.id).Some? then Err(DuplicateID(s.id))
    else Ok([s] + l)
  }

  /** Adding a supplier whose id is not listed prepends it and adds its id. */
  lemma AddFresh(l: seq<Supplier>, s: Supplier)
    requires s.id !in Ids(l)
    ensures AddSupplier(l, s) == Ok([s] + l)
    ensures Ids([s] + l) == Ids(l) + {s.id as int}
  {
    var r := AddSupplier(l, s).value;
    assert r == [r[0]] + r[1..];
    KeySetCons([s] + l, SupplierId);
    assert ([s] + l)[1..] == l;
  }

  /** After a successful add, looking up the new id finds the new supplier
      and every other lookup is answered as before. */
  lemma AddThenFind(l: seq<Supplier>, s: Supplier, id: int)
    requires AddSupplier(l, s).Ok?
    ensures FindSupplier(AddSupplier(l, s).value, id) ==
            if id == s.id then Some(s) else FindSupplier(l, id)
  {
    ShiftedFirstIndex(s, l, SupplierId);
  }
}
