/**
  ProductBST: an unbalanced binary search tree of products keyed by id.
  Nodes own their product by value; a null child pointer is `Leaf`. The
  recursive helpers of the C++ class become pure functions on `Tree`, and a
  thrown exception becomes `Err`: since every helper throws before it
  reassigns any link, a failed call leaves the caller's tree as it was.
 */
module ProductIndex {
  import opened Records
  import opened Lists

  datatype Tree = Leaf | Node(left: Tree, data: Product, right: Tree)

  /** The ids stored in `t`. */
  function Keys(t: Tree): set<int>
  {
    match t
    case Leaf => {}
    case Node(l, d, r) => Keys(l) + {d.id as int} + Keys(r)
  }

  /** The ordering invariant: every id in a left subtree is smaller than the
      node's id, every id in a right subtree is larger. It rules out
      duplicate ids. */
  ghost predicate IsBST(t: Tree)
  {
    match t
    case Leaf => true
    case Node(l, d, r) =>
      && IsBST(l)
      && IsBST(r)
      && (forall k | k in Keys(l) :: k < d.id)
      && (forall k | k in Keys(r) :: d.id < k)
  }

  /** The catalog `t` represents: id to product. */
  ghost function Contents(t: Tree): (m: map<int, Product>)
    ensures m.Keys == Keys(t)
  {
    match t
    case Leaf => map[]
    case Node(l, d, r) => Contents(l) + Contents(r) + map[d.id as int := d]
  }

  /** The products of `t` in in-order (left subtree, node, right subtree). */
  function Inorder(t: Tree): seq<Product>
  {
    match t
    case Leaf => []
    case Node(l, d, r) => Inorder(l) + [d] + Inorder(r)
  }

  ghost predicate StrictlyAscending(s: seq<Product>)
  {
    forall i, j | 0 <= i < j < |s| :: s[i].id < s[j].id
  }

  /** `insertHelper`: descends left on a smaller id, right on a larger one,
      places a new leaf at the null position reached, and throws
      DuplicateID when it meets the id. */
  function Insert(t: Tree, p: Product): (r: Result<Tree>)
    requires IsBST(t)
    ensures r.Err? <==> p.id in Keys(t)
    ensures r.Err? ==> r.error == DuplicateID(p.id)
    ensures r.Ok? ==> IsBST(r.value) && Keys(r.value) == Keys(t) + {p.id as int}
  {
    match t
    case Leaf => Ok(Node(Leaf, p, Leaf))
    case Node(l, d, rt) =>
      if p.id < d.id then
        match Insert(l, p)
        case Ok(l') =>
          Ok(Node(l', d, rt))
        case Err(e) => Err(e)
      else if p.id > d.id then
        match Insert(rt, p)
        case Ok(rt') =>
          Ok(Node(l, d, rt'))
        case Err(e) => Err(e)
      else
        Err(DuplicateID(p.id))
  }

  /** `findMin`: follows left links; a null tree gives null. The result is
      the first product in in-order, which in a search tree has the least
      id. */
  function FindMin(t: Tree): (m: Option<Product>)
    ensures m.None? <==> t.Leaf?
    ensures m.Some? ==> |Inorder(t)| > 0 && m.value == Inorder(t)[0]
    ensures m.Some? && IsBST(t) ==>
      && m.value.id in Keys(t)
      && Contents(t)[m.value.id as int] == m.value
      && forall k | k in Keys(t) :: m.value.id <= k
  {
    match t
    case Leaf => None
    case Node(l, d, r) => if l.Leaf? then Some(d) else FindMin(l)
  }

  /** `removeHelper`: throws NotFound when the descent reaches null; a
      matched node with at most one child is replaced by that child; a
      matched node with two children takes its in-order successor's product,
      and the successor is then removed from the right subtree. */
  function Remove(t: Tree, id: int): (r: Result<Tree>)
    requires IsBST(t)
    ensures r.Err? <==> id !in Keys(t)
    ensures r.Err? ==> r.error == NotFound(id)
    ensures r.Ok? ==> IsBST(r.value) && Keys(r.value) == Keys(t) - {id}
  {
    match t
    case Leaf => Err(NotFound(id))
    case Node(l, d, rt) =>
      if id < d.id then
        match Remove(l, id)
        case Ok(l') =>
          ShrunkLeft(l, l', d, rt, id);
          Ok(Node(l', d, rt))
        case Err(e) => Err(e)
      else if id > d.id then
        match Remove(rt, id)
        case Ok(rt') =>
          ShrunkRight(l, d, rt, rt', id);
          Ok(Node(l, d, rt'))
        case Err(e) => Err(e)
      else if l.Leaf? then
        Ok(rt)
      else if rt.Leaf? then
        Ok(l)
      else
        var m := FindMin(rt).value;
        match Remove(rt, m.id)
        case Ok(rt') =>
          SuccessorNode(l, d, rt, rt', m);
          Ok(Node(l, m, rt'))
        case Err(e) => Err(e)
  }

  /** Removing `id` from the left subtree of a search-tree node with a
      larger id gives a search tree without `id`. */
  lemma ShrunkLeft(l: Tree, l': Tree, d: Product, r: Tree, id: int)
    requires IsBST(Node(l, d, r)) && id < d.id
    requires IsBST(l') && Keys(l') == Keys(l) - {id}
    ensures IsBST(Node(l', d, r)) && Keys(Node(l', d, r)) == Keys(Node(l, d, r)) - {id}
  {
    assert forall k | k in Keys(l') :: k in Keys(l);
    assert id !in Keys(r);
  }

  /** Removing `id` from the right subtree of a search-tree node with a
      smaller id gives a search tree without `id`. */
  lemma ShrunkRight(l: Tree, d: Product, r: Tree, r': Tree, id: int)
    requires IsBST(Node(l, d, r)) && d.id < id
    requires IsBST(r') && Keys(r') == Keys(r) - {id}
    ensures IsBST(Node(l, d, r')) && Keys(Node(l, d, r')) == Keys(Node(l, d, r)) - {id}
  {
    assert forall k | k in Keys(r') :: k in Keys(r);
    assert id !in Keys(l);
  }

  /** Replacing a node's product by the least product of its right subtree,
      and removing that product from the subtree, gives a search tree
      without the node's id. */
  lemma SuccessorNode(l: Tree, d: Product, r: Tree, r': Tree, m: Product)
    requires IsBST(Node(l, d, r))
    requires m.id in Keys(r) && forall k | k in Keys(r) :: m.id <= k
    requires IsBST(r') && Keys(r') == Keys(r) - {m.id as int}
    ensures IsBST(Node(l, m, r')) && Keys(Node(l, m, r')) == Keys(Node(l, d, r)) - {d.id as int}
  {
    assert Keys(Node(l, m, r')) == Keys(Node(l, d, r)) - {d.id as int} by {
      SwapKey(Keys(l), Keys(r), Keys(r'), d.id, m.id);
    }
    assert forall k | k in Keys(l) :: k < m.id by {
      assert d.id < m.id;
    }
    forall k | k in Keys(r')
      ensures m.id < k
    {
      assert k in Keys(r) && k != m.id;
    }
  }

  /** The key-set arithmetic of the successor case: with x in neither part
      and y in the right part, putting y at the node and taking it out of
      the right part removes x. */
  lemma SwapKey(a: set<int>, b: set<int>, b': set<int>, x: int, y: int)
    requires x !in a && x !in b && y in b && b' == b - {y}
    ensures a + {y} + b' == (a + {x} + b) - {x}
  {
  }

  /** `searchHelper` / `search`: the product with that id, or null. */
  function Search(t: Tree, id: int): (r: Option<Product>)
    requires IsBST(t)
    ensures r.Some? <==> id in Keys(t)
    ensures r.Some? ==> r.value.id == id && r.value == Contents(t)[id]
  {
    match t
    case Leaf => None
    case Node(l, d, rt) =>
      if id == d.id then Some(d)
      else if id < d.id then Search(l, id)
      else Search(rt, id)
  }

  /** `countNodes` / `getCount`: the number of products, recomputed on each
      call. */
  function Count(t: Tree): (n: nat)
    ensures n == |Inorder(t)|
  {
    match t
    case Leaf => 0
    case Node(l, _, r) => 1 + Count(l) + Count(r)
  }

  /** The writes `collectInorder` makes as written, into an array of
      `capacity` slots starting at index `idx`: the capacity test happens
      only on entry to a node, so once the left subtree has filled the
      array the node itself is still written one slot past the end. */
  function CollectAsWritten(t: Tree, idx: int, capacity: int): seq<Product>
  {
    match t
    case Leaf => []
    case Node(l, d, r) =>
      if idx >= capacity then []
      else
        var upTo := CollectAsWritten(l, idx, capacity) + [d];
        upTo + CollectAsWritten(r, idx + |upTo|, capacity)
  }

  /** As written, the writes are the whole in-order sequence whenever the
      tree fits in the free slots: the overrun needs a short array. */
  lemma {:induction false} CollectAsWrittenFits(t: Tree, idx: int, capacity: int)
    requires idx + Count(t) <= capacity
    ensures CollectAsWritten(t, idx, capacity) == Inorder(t)
  {
    match t
    case Leaf =>
    case Node(l, d, r) =>
      CollectAsWrittenFits(l, idx, capacity);
      CollectAsWrittenFits(r, idx + Count(l) + 1, capacity);
  }

  /** As written, the writes starting at `idx` cover the free slots or the
      whole tree, whichever is smaller. */
  lemma {:induction false} CollectAsWrittenFills(t: Tree, idx: int, capacity: int)
    requires idx < capacity
    ensures |CollectAsWritten(t, idx, capacity)| >= if Count(t) < capacity - idx then Count(t) else capacity - idx
  {
    match t
    case Leaf =>
    case Node(l, d, r) =>
      var wl := CollectAsWritten(l, idx, capacity);
      var wr := CollectAsWritten(r, idx + |wl| + 1, capacity);
      var n, c := |CollectAsWritten(t, idx, capacity)|, capacity - idx;
      assert n == |wl| + 1 + |wr|;
      assert Count(t) == Count(l) + 1 + Count(r);
      CollectAsWrittenFills(l, idx, capacity);
      var cl, cr := Count(l), Count(r);
      if |wl| + 1 >= c {
        assert n >= c;
      } else {
        assert |wl| >= cl;
        CollectAsWrittenFills(r, idx + |wl| + 1, capacity);
        assert |wr| >= if cr < c - |wl| - 1 then cr else c - |wl| - 1;
        assert n >= if cl + 1 + cr < c then cl + 1 + cr else c;
      }
  }

  /** As written, a node whose left subtree alone fills the rest of the
      array is still written: the writes run past the last slot. */
  lemma CollectAsWrittenOverruns(l: Tree, d: Product, r: Tree, idx: int, capacity: int)
    requires idx < capacity <= idx + Count(l)
    ensures idx + |CollectAsWritten(Node(l, d, r), idx, capacity)| > capacity
  {
    CollectAsWrittenFills(l, idx, capacity);
  }

  /** `collectInorder` with the capacity test also made before the node's
      own write: the writes are an in-order prefix that never passes the
      end of the array, and the whole in-order sequence when it fits. */
  function Collect(t: Tree, idx: int, capacity: int): (w: seq<Product>)
    ensures w <= Inorder(t)
    ensures idx >= capacity ==> w == []
    ensures idx < capacity ==> idx + |w| <= capacity
    ensures w == Inorder(t) || idx + |w| >= capacity
  {
    match t
    case Leaf => []
    case Node(l, d, r) =>
      if idx >= capacity then []
      else
        var left := Collect(l, idx, capacity);
        if idx + |left| >= capacity then left
        else
          var upTo := left + [d];
          upTo + Collect(r, idx + |upTo|, capacity)
  }

  /** `getAllProducts` built on the corrected collector: the products in
      ascending id order, as many as the array holds. */
  function GetAllProducts(t: Tree, capacity: int): (arr: seq<Product>)
    ensures arr <= Inorder(t)
    ensures |arr| == if capacity <= 0 then 0 else if capacity < Count(t) then capacity else Count(t)
  {
    Collect(t, 0, capacity)
  }

  /** With an array that holds the whole tree, as both callers in the
      program allocate, the corrected snapshot is exactly what the collector
      as written produces: the whole in-order sequence. */
  lemma GetAllProductsAsWritten(t: Tree, capacity: int)
    requires Count(t) <= capacity
    ensures GetAllProducts(t, capacity) == CollectAsWritten(t, 0, capacity) == Inorder(t)
  {
    CollectAsWrittenFits(t, 0, capacity);
  }

  /** The ids of a tree are the ids of its in-order sequence. */
  lemma {:induction false} InorderIdsOf(t: Tree)
    ensures Keys(t) == KeySet(Inorder(t), ProductId)
  {
    match t
    case Leaf =>
    case Node(l, d, r) =>
      InorderIdsOf(l);
      InorderIdsOf(r);
      KeySetConcat(Inorder(l), [d], ProductId);
      KeySetConcat(Inorder(l) + [d], Inorder(r), ProductId);
      assert KeySet([d], ProductId) == {d.id as int} by {
        assert ProductId([d][0]) == d.id;
      }
  }

  lemma {:induction false} BSTInorderAscending(t: Tree)
    requires IsBST(t)
    ensures StrictlyAscending(Inorder(t))
  {
    match t
    case Leaf =>
    case Node(l, d, r) =>
      BSTInorderAscending(l);
      BSTInorderAscending(r);
      InorderIdsOf(l);
      InorderIdsOf(r);
      var a, b := Inorder(l), Inorder(r);
      var s := Inorder(t);
      assert s == a + [d] + b;
      forall i | 0 <= i < |a|
        ensures a[i].id < d.id
      {
        assert ProductId(a[i]) in KeySet(a, ProductId);
      }
      forall i | 0 <= i < |b|
        ensures d.id < b[i].id
      {
        assert ProductId(b[i]) in KeySet(b, ProductId);
      }
  }

  lemma {:induction false} AscendingInorderBST(t: Tree)
    requires StrictlyAscending(Inorder(t))
    ensures IsBST(t)
  {
    match t
    case Leaf =>
    case Node(l, d, r) =>
      var a, b := Inorder(l), Inorder(r);
      AscendingSplit(a, d, b);
      AscendingInorderBST(l);
      AscendingInorderBST(r);
      InorderIdsOf(l);
      InorderIdsOf(r);
      forall k | k in Keys(l)
        ensures k < d.id
      {
        var i :| 0 <= i < |a| && ProductId(a[i]) == k;
      }
      forall k | k in Keys(r)
        ensures d.id < k
      {
        var i :| 0 <= i < |b| && ProductId(b[i]) == k;
      }
  }

  /** The parts of an ascending sequence around one product: both sides are
      ascending, ids before it are smaller and ids after it larger. */
  lemma AscendingSplit(a: seq<Product>, d: Product, b: seq<Product>)
    requires StrictlyAscending(a + [d] + b)
    ensures StrictlyAscending(a) && StrictlyAscending(b)
    ensures forall i | 0 <= i < |a| :: a[i].id < d.id
    ensures forall i | 0 <= i < |b| :: d.id < b[i].id
  {
    var s := a + [d] + b;
    assert forall i | 0 <= i < |a| :: s[i] == a[i];
    assert forall i | 0 <= i < |b| :: s[|a| + 1 + i] == b[i];
    assert s[|a|] == d;
  }

  /** The in-order sequence of a tree is strictly ascending by id exactly
      when the tree satisfies the ordering invariant. */
  lemma InorderAscendingIffBST(t: Tree)
    ensures IsBST(t) <==> StrictlyAscending(Inorder(t))
  {
    if IsBST(t) {
      BSTInorderAscending(t);
    }
    if StrictlyAscending(Inorder(t)) {
      AscendingInorderBST(t);
    }
  }

  /** In a search tree every product of the in-order sequence is the one
      the tree holds for its id. */
  lemma {:induction false} InorderEntry(t: Tree, i: int)
    requires IsBST(t) && 0 <= i < |Inorder(t)|
    ensures Inorder(t)[i].id in Contents(t) && Contents(t)[Inorder(t)[i].id as int] == Inorder(t)[i]
  {
    match t
    case Node(l, d, r) =>
      var a, b := Inorder(l), Inorder(r);
      var x := Inorder(t)[i];
      assert Inorder(t) == a + [d] + b;
      if i < |a| {
        assert x == a[i];
        InorderEntry(l, i);
        InorderIdsOf(l);
        assert ProductId(a[i]) in KeySet(a, ProductId);
        ContentsLeft(l, d, r, x.id);
      } else if i > |a| {
        assert x == b[i - |a| - 1];
        InorderEntry(r, i - |a| - 1);
        InorderIdsOf(r);
        assert ProductId(b[i - |a| - 1]) in KeySet(b, ProductId);
        ContentsRight(l, d, r, x.id);
      }
  }

  lemma ContentsLeft(l: Tree, d: Product, r: Tree, k: int)
    requires IsBST(Node(l, d, r)) && k in Keys(l)
    ensures Contents(Node(l, d, r))[k] == Contents(l)[k]
  {
    assert k < d.id && k !in Keys(r);
  }

  lemma ContentsRight(l: Tree, d: Product, r: Tree, k: int)
    requires IsBST(Node(l, d, r)) && k in Keys(r)
    ensures Contents(Node(l, d, r))[k] == Contents(r)[k]
  {
    assert d.id < k;
  }

  /** In a search tree the node count is the number of distinct ids. */
  lemma CountIsKeyCount(t: Tree)
    requires IsBST(t)
    ensures Count(t) == |Keys(t)|
  {
    BSTInorderAscending(t);
    InorderIdsOf(t);
    DistinctIdsCardinality(Inorder(t));
  }

  lemma {:induction false} DistinctIdsCardinality(s: seq<Product>)
    requires StrictlyAscending(s)
    ensures |KeySet(s, ProductId)| == |s|
  {
    if |s| > 0 {
      var init := s[..|s| - 1];
      DistinctIdsCardinality(init);
      assert KeySet(s, ProductId) == KeySet(init, ProductId) + {s[|s| - 1].id as int};
      assert s[|s| - 1].id !in KeySet(init, ProductId);
    }
  }

  /** A successful insert adds exactly the entry for the new product. */
  lemma {:induction false} InsertContents(t: Tree, p: Product)
    requires IsBST(t) && Insert(t, p).Ok?
    ensures Contents(Insert(t, p).value) == Contents(t)[p.id as int := p]
  {
    match t
    case Leaf =>
    case Node(l, d, r) =>
      if p.id < d.id {
        InsertContents(l, p);
        InsertedLeft(l, Insert(l, p).value, d, r, p);
      } else {
        InsertContents(r, p);
        InsertedRight(l, d, r, Insert(r, p).value, p);
      }
  }

  /** A successful remove drops exactly the entry for that id. */
  lemma {:induction false} RemoveContents(t: Tree, id: int)
    requires IsBST(t) && Remove(t, id).Ok?
    ensures Contents(Remove(t, id).value) == Contents(t) - {id}
  {
    match t
    case Node(l, d, r) =>
      if id < d.id {
        RemoveContents(l, id);
        RemovedLeft(l, Remove(l, id).value, d, r, id);
      } else if id > d.id {
        RemoveContents(r, id);
        RemovedRight(l, d, r, Remove(r, id).value, id);
      } else if l.Node? && r.Node? {
        var m := FindMin(r).value;
        RemoveContents(r, m.id);
        RemovedBySuccessor(l, d, r, Remove(r, m.id).value, m);
      }
  }

  // The Contents clauses of Insert and Remove, one node at a time: a node's
  // contents are its left subtree's, its right subtree's and its own entry,
  // and in a search tree these three have disjoint keys.

  lemma InsertedLeft(l: Tree, l': Tree, d: Product, r: Tree, p: Product)
    requires Contents(l') == Contents(l)[p.id as int := p]
    requires p.id !in Keys(r) && p.id != d.id
    ensures Contents(Node(l', d, r)) == Contents(Node(l, d, r))[p.id as int := p]
  {
    UpdateLeft(Contents(l), Contents(r), map[d.id as int := d], p.id, p);
  }

  lemma InsertedRight(l: Tree, d: Product, r: Tree, r': Tree, p: Product)
    requires Contents(r') == Contents(r)[p.id as int := p]
    requires p.id != d.id
    ensures Contents(Node(l, d, r')) == Contents(Node(l, d, r))[p.id as int := p]
  {
    UpdateMiddle(Contents(l), Contents(r), map[d.id as int := d], p.id, p);
  }

  lemma RemovedLeft(l: Tree, l': Tree, d: Product, r: Tree, id: int)
    requires Contents(l') == Contents(l) - {id}
    requires id !in Keys(r) && id != d.id
    ensures Contents(Node(l', d, r)) == Contents(Node(l, d, r)) - {id}
  {
    RemoveLeft(Contents(l), Contents(r), map[d.id as int := d], id);
  }

  lemma RemovedRight(l: Tree, d: Product, r: Tree, r': Tree, id: int)
    requires Contents(r') == Contents(r) - {id}
    requires id !in Keys(l) && id != d.id
    ensures Contents(Node(l, d, r')) == Contents(Node(l, d, r)) - {id}
  {
    RemoveMiddle(Contents(l), Contents(r), map[d.id as int := d], id);
  }

  lemma RemovedBySuccessor(l: Tree, d: Product, r: Tree, r': Tree, m: Product)
    requires Contents(r') == Contents(r) - {m.id as int}
    requires m.id in Keys(r) && Contents(r)[m.id as int] == m
    requires d.id !in Keys(l) && d.id !in Keys(r) && m.id !in Keys(l)
    ensures Contents(Node(l, m, r')) == Contents(Node(l, d, r)) - {d.id as int}
  {
    ReplaceBySuccessor(Contents(l), Contents(r), d.id, m.id, d, m);
  }

  // Map facts behind the Contents clauses of Insert and Remove: a node's
  // contents are left ++ right ++ {its own id}, with pairwise disjoint keys.

  lemma UpdateLeft<V>(a: map<int, V>, b: map<int, V>, c: map<int, V>, k: int, v: V)
    requires k !in b && k !in c
    ensures a[k := v] + b + c == (a + b + c)[k := v]
  {
  }

  lemma UpdateMiddle<V>(a: map<int, V>, b: map<int, V>, c: map<int, V>, k: int, v: V)
    requires k !in c
    ensures a + b[k := v] + c == (a + b + c)[k := v]
  {
  }

  lemma RemoveLeft<V>(a: map<int, V>, b: map<int, V>, c: map<int, V>, k: int)
    requires k !in b && k !in c
    ensures (a - {k}) + b + c == (a + b + c) - {k}
  {
  }

  lemma RemoveMiddle<V>(a: map<int, V>, b: map<int, V>, c: map<int, V>, k: int)
    requires k !in a && k !in c
    ensures a + (b - {k}) + c == (a + b + c) - {k}
  {
  }

  lemma ReplaceBySuccessor<V>(a: map<int, V>, b: map<int, V>, k: int, m: int, prior: V, succ: V)
    requires k !in a && k !in b && m !in a && m in b && b[m] == succ
    ensures a + (b - {m}) + map[m := succ] == (a + b + map[k := prior]) - {k}
  {
  }
}
