/** The forest builder of `ng-gateway-utils/src/tree.rs`: a list of records that name
    their parent becomes a list of trees.  The parent pointers may contain cycles. */
module Tree {
  import opened Collections
  import opened Filters
  import opened StableSort

  /** An input record; `data` stands for the fields that are only copied. */
  datatype Item = Item(id: int, parent: int, sortKey: int, data: int)

  datatype TreeNode = TreeNode(item: Item, children: seq<TreeNode>, hasChildren: bool)

  /** The conversion into a tree node: no children yet. */
  function Into(item: Item): TreeNode {
    TreeNode(item, [], false)
  }

  // ---------------------------------------------------------------- input lists

  ghost predicate UniqueIds(items: seq<Item>) {
    forall i, j | 0 <= i < j < |items| :: items[i].id != items[j].id
  }

  /** The record stored under each id; a later record replaces an earlier one. */
  function ById(items: seq<Item>): (m: map<int, Item>)
    ensures forall id | id in m :: m[id] in items && m[id].id == id
    ensures forall x | x in items :: x.id in m
  {
    if items == [] then map[] else
      var x := items[|items| - 1];
      assert items == items[..|items| - 1] + [x];
      ById(items[..|items| - 1])[x.id := x]
  }

  lemma ByIdFinds(items: seq<Item>, x: Item)
    requires UniqueIds(items) && x in items
    ensures x.id in ById(items) && ById(items)[x.id] == x
  {
    var y := ById(items)[x.id];
    var i :| 0 <= i < |items| && items[i] == x;
    var j :| 0 <= j < |items| && items[j] == y;
  }

  /** The records naming `p` as parent, in input order. */
  function NamedBy(items: seq<Item>, p: int): (r: seq<Item>)
    ensures forall x :: x in r <==> x in items && x.parent == p
  {
    if items == [] then [] else
      var x := items[|items| - 1];
      assert items == items[..|items| - 1] + [x];
      NamedBy(items[..|items| - 1], p) + (if x.parent == p then [x] else [])
  }

  const BySortKey: Item -> int := (x: Item) => x.sortKey

  /** The children of `p`: ascending sort key, ties in input order (`SortIsStable`). */
  ghost function HasParent(p: int): Item -> bool { (x: Item) => x.parent == p }

  lemma NamedBySnoc(init: seq<Item>, x: Item, p: int)
    ensures NamedBy(init + [x], p) == if x.parent == p then NamedBy(init, p) + [x] else NamedBy(init, p)
  {
    assert (init + [x])[..|init|] == init;
  }

  lemma NamedByStep(init: seq<Item>, x: Item, p: int, named: seq<Item>)
    requires named == NamedBy(init, p) && IsFilter(init, HasParent(p), named)
    ensures IsFilter(init + [x], HasParent(p), NamedBy(init + [x], p))
  {
    NamedBySnoc(init, x, p);
    FilterSnoc(init, x, HasParent(p), named, init + [x], NamedBy(init + [x], p));
  }

  /** The nodes naming a parent, all of them and in input order. */
  lemma {:induction false} NamedByIs(items: seq<Item>, p: int)
    ensures IsFilter(items, HasParent(p), NamedBy(items, p))
  {
    if items == [] {
      FilterNone(HasParent(p));
    } else {
      var init, last := items[..|items| - 1], items[|items| - 1];
      NamedByIs(init, p);
      NamedByStep(init, last, p, NamedBy(init, p));
      assert items == init + [last];
    }
  }

  lemma ByIdSnoc(init: seq<Item>, x: Item)
    ensures ById(init + [x]) == ById(init)[x.id := x]
  {
    assert (init + [x])[..|init|] == init;
  }

  lemma {:induction false} StaysUnder(front: seq<Item>, rest: seq<Item>, x: Item)
    requires x.id in ById(front) && ById(front)[x.id] == x
    requires forall j | 0 <= j < |rest| :: rest[j].id != x.id
    ensures x.id in ById(front + rest) && ById(front + rest)[x.id] == x
    decreases |rest|
  {
    var n := |rest| - 1;
    if rest == [] {
      assert front + rest == front;
    } else {
      var init, last := rest[..n], rest[n];
      assert front + rest == (front + init) + [last];
      StaysUnder(front, init, x);
      ByIdSnoc(front + init, last);
    }
  }

  /** Of several nodes with one id the last one is found under it. */
  lemma ByIdIsLast(front: seq<Item>, x: Item, rest: seq<Item>)
    requires forall j | 0 <= j < |rest| :: rest[j].id != x.id
    ensures var all := front + [x] + rest; x.id in ById(all) && ById(all)[x.id] == x
  {
    ByIdSnoc(front, x);
    StaysUnder(front + [x], rest, x);
  }

  function ChildrenOf(items: seq<Item>, p: int): (r: seq<Item>)
    ensures forall x :: x in r <==> x in items && x.parent == p
  {
    var r := SortByKey(NamedBy(items, p), BySortKey);
    assert forall x :: x in r <==> x in multiset(r);
    r
  }

  lemma {:induction false} NamedByUnique(items: seq<Item>, p: int)
    requires UniqueIds(items)
    ensures forall x :: multiset(NamedBy(items, p))[x] == (if x in items && x.parent == p then 1 else 0)
  {
    if items != [] {
      var init, x := items[..|items| - 1], items[|items| - 1];
      assert items == init + [x];
      NamedByUnique(init, p);
      assert x !in init;
    }
  }

  // ---------------------------------------------------------------- parent chains

  /** Following `k` parent links from `id`, all from records in `m`, ends at `o`. */
  ghost predicate Climbs(m: map<int, Item>, id: int, o: int, k: nat)
    decreases k
  {
    k > 0 && id in m && (if k == 1 then m[id].parent == o else Climbs(m, m[id].parent, o, k - 1))
  }

  ghost predicate Descends(m: map<int, Item>, id: int, o: int) {
    exists k: nat :: Climbs(m, id, o, k)
  }

  ghost predicate OnCycle(m: map<int, Item>, o: int) {
    Descends(m, o, o)
  }

  /** The parent chain of `id` leaves the data. */
  ghost predicate Grounded(m: map<int, Item>, id: int) {
    exists o: int :: o !in m && Descends(m, id, o)
  }

  lemma {:induction false} ClimbTwice(m: map<int, Item>, a: int, b: int, c: int, j: nat, k: nat)
    requires Climbs(m, a, b, j) && Climbs(m, b, c, k)
    ensures Climbs(m, a, c, j + k)
    decreases j
  {
    if j > 1 { ClimbTwice(m, m[a].parent, b, c, j - 1, k); }
  }

  /** Two climbs from the same record: the longer one passes through the end of the shorter. */
  lemma {:induction false} ClimbPrefix(m: map<int, Item>, a: int, b: int, c: int, j: nat, k: nat)
    requires Climbs(m, a, b, j) && Climbs(m, a, c, k) && j < k
    ensures Climbs(m, b, c, k - j)
    decreases j
  {
    if j > 1 { ClimbPrefix(m, m[a].parent, b, c, j - 1, k - 1); }
  }

  /** The records passed by a climb of `k` links. */
  ghost function Trail(m: map<int, Item>, id: int, k: nat): set<int>
    decreases k
  {
    if k == 0 || id !in m then {} else {id} + Trail(m, m[id].parent, k - 1)
  }

  lemma {:induction false} TrailIsShorter(m: map<int, Item>, id: int, o: int, k: nat, x: int) returns (j: nat)
    requires Climbs(m, id, o, k) && x in Trail(m, id, k)
    ensures j <= k && Climbs(m, x, o, j)
    decreases k
  {
    if x == id { j := k; } else { j := TrailIsShorter(m, m[id].parent, o, k - 1, x); }
  }

  /** Off the cycles a climb never repeats a record, so it is no longer than the data. */
  lemma {:induction false} ClimbIsBounded(m: map<int, Item>, id: int, o: int, k: nat)
    requires Climbs(m, id, o, k) && !OnCycle(m, o)
    ensures Trail(m, id, k) <= m.Keys && |Trail(m, id, k)| == k
    decreases k
  {
    if k > 1 {
      var p := m[id].parent;
      ClimbIsBounded(m, p, o, k - 1);
      if id in Trail(m, p, k - 1) {
        var j := TrailIsShorter(m, p, o, k - 1, id);
        ClimbPrefix(m, id, o, o, j, k);
        assert false;
      }
    } else {
      assert Trail(m, id, k) == {id};
    }
  }

  lemma DepthIsBounded(m: map<int, Item>, id: int, o: int, k: nat)
    requires Climbs(m, id, o, k) && !OnCycle(m, o)
    ensures k <= |m|
  {
    ClimbIsBounded(m, id, o, k);
    SubsetCardinality(Trail(m, id, k), m.Keys);
  }

  // ---------------------------------------------------------------- what a built tree is

  function Roots(ts: seq<TreeNode>): (r: seq<Item>)
    ensures |r| == |ts| && forall i | 0 <= i < |ts| :: r[i] == ts[i].item
  {
    seq(|ts|, i requires 0 <= i < |ts| => ts[i].item)
  }

  /** `t` is a record of the input together with the trees of exactly its children. */
  ghost predicate Built(items: seq<Item>, t: TreeNode) {
    && t.item in items
    && Roots(t.children) == ChildrenOf(items, t.item.id)
    && (t.hasChildren <==> t.children != [])
    && forall c | c in t.children :: Built(items, c)
  }

  ghost predicate AllBuilt(items: seq<Item>, ts: seq<TreeNode>) {
    forall t | t in ts :: Built(items, t)
  }

  /** All records of a forest, in preorder. */
  function Flat(ts: seq<TreeNode>): seq<Item>
    decreases ts
  {
    if ts == [] then [] else [ts[0].item] + Flat(ts[0].children) + Flat(ts[1..])
  }

  /** How often the record with id `id` occurs in a forest. */
  ghost function Count(ts: seq<TreeNode>, id: int): nat
    decreases ts
  {
    if ts == [] then 0 else
      (if ts[0].item.id == id then 1 else 0) + Count(ts[0].children, id) + Count(ts[1..], id)
  }

  ghost function RootCount(xs: seq<Item>, id: int): nat {
    if xs == [] then 0 else (if xs[0].id == id then 1 else 0) + RootCount(xs[1..], id)
  }

  lemma {:induction false} CountIsMultiplicity(ts: seq<TreeNode>, items: seq<Item>, x: Item)
    requires UniqueIds(items) && AllBuilt(items, ts) && x in items
    ensures multiset(Flat(ts))[x] == Count(ts, x.id)
    decreases ts
  {
    if ts != [] {
      assert ts[0] in ts;
      CountIsMultiplicity(ts[0].children, items, x);
      CountIsMultiplicity(ts[1..], items, x);
      ByIdFinds(items, x);
      ByIdFinds(items, ts[0].item);
    }
  }

  lemma {:induction false} RootCountIsMultiplicity(xs: seq<Item>, items: seq<Item>, x: Item)
    requires UniqueIds(items) && x in items && forall y | y in xs :: y in items
    ensures multiset(xs)[x] == RootCount(xs, x.id)
  {
    if xs != [] {
      assert xs == [xs[0]] + xs[1..];
      RootCountIsMultiplicity(xs[1..], items, x);
      ByIdFinds(items, x);
      ByIdFinds(items, xs[0]);
    }
  }

  lemma ChildCount(items: seq<Item>, p: int, x: Item)
    requires UniqueIds(items) && x in items
    ensures RootCount(ChildrenOf(items, p), x.id) == (if x.parent == p then 1 else 0)
  {
    RootCountIsMultiplicity(ChildrenOf(items, p), items, x);
    NamedByUnique(items, p);
  }

  /** The counting law: a record occurs once for each time it is a root and once for
      each occurrence of its parent. */
  lemma {:induction false} CountFollowsParent(items: seq<Item>, ts: seq<TreeNode>, x: Item)
    requires UniqueIds(items) && AllBuilt(items, ts) && x in items
    ensures Count(ts, x.id) == RootCount(Roots(ts), x.id) + Count(ts, x.parent)
    decreases ts
  {
    if ts != [] {
      var t := ts[0];
      assert t in ts;
      CountFollowsParent(items, t.children, x);
      CountFollowsParent(items, ts[1..], x);
      ChildCount(items, t.item.id, x);
      assert Roots(ts)[1..] == Roots(ts[1..]);
    }
  }

  lemma BelowItsParent(items: seq<Item>, x: Item)
    requires UniqueIds(items) && x in items
    ensures Descends(ById(items), x.id, x.parent)
  {
    ByIdFinds(items, x);
    assert Climbs(ById(items), x.id, x.parent, 1);
  }

  lemma DescendsTwice(m: map<int, Item>, a: int, b: int, c: int)
    requires Descends(m, a, b) && Descends(m, b, c)
    ensures Descends(m, a, c)
  {
    var j: nat :| Climbs(m, a, b, j);
    var k: nat :| Climbs(m, b, c, k);
    ClimbTwice(m, a, b, c, j, k);
  }

  lemma ChildNamesParent(items: seq<Item>, t: TreeNode, i: nat)
    requires Built(items, t) && i < |t.children|
    ensures t.children[i].item.parent == t.item.id
  {
    assert Roots(t.children)[i] in ChildrenOf(items, t.item.id);
  }

  /** Every record of a forest hangs below the parent of one of its roots. */
  lemma {:induction false} CountedDescends(items: seq<Item>, ts: seq<TreeNode>, id: int) returns (i: nat)
    requires UniqueIds(items) && AllBuilt(items, ts) && Count(ts, id) > 0
    ensures i < |ts| && Descends(ById(items), id, ts[i].item.parent)
    decreases ts
  {
    var t := ts[0];
    assert t in ts;
    BelowItsParent(items, t.item);
    if t.item.id == id {
      i := 0;
    } else if Count(t.children, id) > 0 {
      var c := CountedDescends(items, t.children, id);
      ChildNamesParent(items, t, c);
      DescendsTwice(ById(items), id, t.item.id, t.item.parent);
      i := 0;
    } else {
      i := CountedDescends(items, ts[1..], id);
      i := i + 1;
    }
  }

  // ---------------------------------------------------------------- forests below one record

  ghost predicate ForestBelow(items: seq<Item>, o: int, ts: seq<TreeNode>) {
    AllBuilt(items, ts) && Roots(ts) == ChildrenOf(items, o)
  }

  lemma {:induction false} BelowCountsAtLeast(items: seq<Item>, o: int, ts: seq<TreeNode>, id: int, k: nat)
    requires UniqueIds(items) && ForestBelow(items, o, ts) && Climbs(ById(items), id, o, k)
    ensures Count(ts, id) >= 1 + Count(ts, o)
    decreases k
  {
    var x := ById(items)[id];
    CountFollowsParent(items, ts, x);
    ChildCount(items, o, x);
    if k > 1 { BelowCountsAtLeast(items, o, ts, x.parent, k - 1); }
  }

  /** No finite list of trees solves the recursion when the root lies on a cycle. */
  lemma CyclicRootHasNoForest(items: seq<Item>, o: int, ts: seq<TreeNode>)
    requires UniqueIds(items) && OnCycle(ById(items), o)
    ensures !ForestBelow(items, o, ts)
  {
    if ForestBelow(items, o, ts) {
      var k: nat :| Climbs(ById(items), o, o, k);
      BelowCountsAtLeast(items, o, ts, o, k);
      assert false;
    }
  }

  lemma OriginIsAbsent(items: seq<Item>, o: int, ts: seq<TreeNode>)
    requires UniqueIds(items) && ForestBelow(items, o, ts) && !OnCycle(ById(items), o)
    ensures Count(ts, o) == 0
  {
    if Count(ts, o) > 0 {
      var i := CountedDescends(items, ts, o);
      assert false;
    }
  }

  lemma {:induction false} BelowCountsOnce(items: seq<Item>, o: int, ts: seq<TreeNode>, id: int, k: nat)
    requires UniqueIds(items) && ForestBelow(items, o, ts) && !OnCycle(ById(items), o)
    requires Climbs(ById(items), id, o, k)
    ensures Count(ts, id) == 1
    decreases k
  {
    var x := ById(items)[id];
    CountFollowsParent(items, ts, x);
    ChildCount(items, o, x);
    OriginIsAbsent(items, o, ts);
    if k > 1 {
      if x.parent == o { assert Descends(ById(items), o, o); assert false; }
      BelowCountsOnce(items, o, ts, x.parent, k - 1);
    }
  }

  /** Root mode: exactly the proper descendants of the root, each exactly once. */
  lemma RootModeIsExactCover(items: seq<Item>, o: int, ts: seq<TreeNode>)
    requires UniqueIds(items) && ForestBelow(items, o, ts)
    ensures forall x | x in items ::
      multiset(Flat(ts))[x] == (if Descends(ById(items), x.id, o) then 1 else 0)
    ensures forall x | x in Flat(ts) :: x in items
  {
    FlatStaysInside(items, ts);
    if OnCycle(ById(items), o) { CyclicRootHasNoForest(items, o, ts); }
    forall x | x in items
      ensures multiset(Flat(ts))[x] == (if Descends(ById(items), x.id, o) then 1 else 0)
    {
      CountIsMultiplicity(ts, items, x);
      if Descends(ById(items), x.id, o) {
        var k: nat :| Climbs(ById(items), x.id, o, k);
        BelowCountsOnce(items, o, ts, x.id, k);
      } else if Count(ts, x.id) > 0 {
        var i := CountedDescends(items, ts, x.id);
        assert false;
      }
    }
  }

  // ---------------------------------------------------------------- the whole forest

  ghost predicate TopLevel(items: seq<Item>, x: Item) {
    x in items && x.parent !in ById(items)
  }

  /** Forest mode: one tree per record whose parent is not in the data, by sort key. */
  ghost predicate WholeForest(items: seq<Item>, ts: seq<TreeNode>) {
    && AllBuilt(items, ts)
    && (forall x | x in items :: multiset(Roots(ts))[x] == (if TopLevel(items, x) then 1 else 0))
    && (forall x | x in Roots(ts) :: x in items)
    && Ascending(Roots(ts), BySortKey)
  }

  lemma {:induction false} GroundedCountsOnce(items: seq<Item>, ts: seq<TreeNode>, id: int, o: int, k: nat)
    requires UniqueIds(items) && WholeForest(items, ts)
    requires o !in ById(items) && Climbs(ById(items), id, o, k)
    ensures Count(ts, id) == 1
    decreases k
  {
    var m := ById(items);
    var x := m[id];
    CountFollowsParent(items, ts, x);
    RootCountIsMultiplicity(Roots(ts), items, x);
    if k == 1 {
      if Count(ts, o) > 0 {
        var i := CountedDescends(items, ts, o);
        assert false;
      }
    } else {
      GroundedCountsOnce(items, ts, x.parent, o, k - 1);
    }
  }

  /** Forest mode: exactly the records whose parent chain leaves the data, each exactly once. */
  lemma ForestModeIsExactCover(items: seq<Item>, ts: seq<TreeNode>)
    requires UniqueIds(items) && WholeForest(items, ts)
    ensures forall x | x in items ::
      multiset(Flat(ts))[x] == (if Grounded(ById(items), x.id) then 1 else 0)
    ensures forall x | x in Flat(ts) :: x in items
  {
    FlatStaysInside(items, ts);
    forall x | x in items
      ensures multiset(Flat(ts))[x] == (if Grounded(ById(items), x.id) then 1 else 0)
    {
      CountIsMultiplicity(ts, items, x);
      if Grounded(ById(items), x.id) {
        var o: int :| o !in ById(items) && Descends(ById(items), x.id, o);
        var k: nat :| Climbs(ById(items), x.id, o, k);
        GroundedCountsOnce(items, ts, x.id, o, k);
      } else if Count(ts, x.id) > 0 {
        var i := CountedDescends(items, ts, x.id);
        assert false;
      }
    }
  }

  lemma {:induction false} FlatStaysInside(items: seq<Item>, ts: seq<TreeNode>)
    requires AllBuilt(items, ts)
    ensures forall x | x in Flat(ts) :: x in items
    decreases ts
  {
    if ts != [] {
      assert ts[0] in ts;
      FlatStaysInside(items, ts[0].children);
      FlatStaysInside(items, ts[1..]);
    }
  }

  lemma {:induction false} UniqueMultiplicity(items: seq<Item>)
    requires UniqueIds(items)
    ensures forall x :: multiset(items)[x] == (if x in items then 1 else 0)
  {
    if items != [] {
      var init, x := items[..|items| - 1], items[|items| - 1];
      assert items == init + [x];
      UniqueMultiplicity(init);
      assert x !in init;
    }
  }

  /** Without cycles forest mode only rearranges the input. */
  lemma AcyclicForestIsPermutation(items: seq<Item>, ts: seq<TreeNode>)
    requires UniqueIds(items) && WholeForest(items, ts)
    requires forall x | x in items :: Grounded(ById(items), x.id)
    ensures multiset(Flat(ts)) == multiset(items)
  {
    ForestModeIsExactCover(items, ts);
    FlatStaysInside(items, ts);
    UniqueMultiplicity(items);
    forall x ensures multiset(Flat(ts))[x] == multiset(items)[x] {
      if x !in items { assert x !in Flat(ts); }
    }
  }

  // ---------------------------------------------------------------- the builder

  /** The two maps filled by the first pass. */
  datatype Index = Index(nodes: map<int, TreeNode>, children: map<int, seq<int>>)

  function ChildIds(ix: Index, id: int): seq<int> {
    if id in ix.children then ix.children[id] else []
  }

  ghost function Nodes(items: seq<Item>): (m: map<int, TreeNode>)
    ensures m.Keys == ById(items).Keys
    ensures forall id | id in m :: m[id] == Into(ById(items)[id])
  {
    if items == [] then map[] else
      var x := items[|items| - 1];
      Nodes(items[..|items| - 1])[x.id := Into(x)]
  }

  ghost predicate ListsChildren(ix: Index, items: seq<Item>, p: int) {
    && |ChildIds(ix, p)| == |ChildrenOf(items, p)|
    && forall i | 0 <= i < |ChildIds(ix, p)| :: ChildIds(ix, p)[i] == ChildrenOf(items, p)[i].id
  }

  ghost predicate Indexes(ix: Index, items: seq<Item>) {
    && ix.nodes == Nodes(items)
    && forall p :: ListsChildren(ix, items, p)
  }

  lemma ChildIdsClimb(ix: Index, items: seq<Item>, id: int, o: int, k: nat)
    requires UniqueIds(items) && Indexes(ix, items) && Climbs(ById(items), id, o, k)
    ensures forall c | c in ChildIds(ix, id) :: Climbs(ById(items), c, o, k + 1)
  {
    assert ListsChildren(ix, items, id);
    forall c | c in ChildIds(ix, id) ensures Climbs(ById(items), c, o, k + 1) {
      var i :| 0 <= i < |ChildIds(ix, id)| && ChildIds(ix, id)[i] == c;
      var x := ChildrenOf(items, id)[i];
      assert x in ChildrenOf(items, id);
      ByIdFinds(items, x);
    }
  }

  lemma ChildIdsAreChildren(ix: Index, items: seq<Item>, id: int, ts: seq<TreeNode>)
    requires UniqueIds(items) && Indexes(ix, items) && |ts| == |ChildIds(ix, id)|
    requires AllBuilt(items, ts) && forall i | 0 <= i < |ts| :: ts[i].item.id == ChildIds(ix, id)[i]
    ensures Roots(ts) == ChildrenOf(items, id)
  {
    assert ListsChildren(ix, items, id);
    forall i | 0 <= i < |ts| ensures Roots(ts)[i] == ChildrenOf(items, id)[i] {
      assert ChildrenOf(items, id)[i] in ChildrenOf(items, id);
      ByIdFinds(items, ChildrenOf(items, id)[i]);
      assert ts[i] in ts;
      ByIdFinds(items, ts[i].item);
    }
  }

  /** Every way down from `id` takes fewer than `n` links. */
  ghost predicate Shallow(ix: Index, id: int, n: nat)
    decreases n
  {
    n > 0 && id in ix.nodes && forall c | c in ChildIds(ix, id) :: Shallow(ix, c, n - 1)
  }

  /** The subtree of `id`; `n` bounds its height and is not part of the computation. */
  function BuildSubtree(ix: Index, id: int, ghost n: nat): TreeNode
    requires Shallow(ix, id, n)
    decreases n, 0
  {
    var node := ix.nodes[id];
    var ids := ChildIds(ix, id);
    if ids == [] then node else node.(children := BuildAll(ix, ids, n - 1), hasChildren := true)
  }

  function BuildAll(ix: Index, ids: seq<int>, ghost n: nat): seq<TreeNode>
    requires forall id | id in ids :: Shallow(ix, id, n)
    decreases n, |ids|
  {
    if ids == [] then [] else [BuildSubtree(ix, ids[0], n)] + BuildAll(ix, ids[1..], n)
  }

  /** Below a record that is on no cycle the recursion is bounded by the number of records. */
  lemma {:induction false} OffCycleIsShallow(ix: Index, items: seq<Item>, id: int, o: int, k: nat, n: nat)
    requires UniqueIds(items) && Indexes(ix, items)
    requires Climbs(ById(items), id, o, k) && !OnCycle(ById(items), o)
    requires n + k == |ById(items)| + 1
    ensures Shallow(ix, id, n)
    decreases n
  {
    DepthIsBounded(ById(items), id, o, k);
    ChildIdsClimb(ix, items, id, o, k);
    forall c | c in ChildIds(ix, id) ensures Shallow(ix, c, n - 1) {
      OffCycleIsShallow(ix, items, c, o, k + 1, n - 1);
    }
  }

  lemma {:induction false} SubtreeIsBuilt(ix: Index, items: seq<Item>, id: int, n: nat)
    requires UniqueIds(items) && Indexes(ix, items) && Shallow(ix, id, n)
    ensures BuildSubtree(ix, id, n).item.id == id && Built(items, BuildSubtree(ix, id, n))
    decreases n, 0
  {
    var ids := ChildIds(ix, id);
    if ids == [] {
      ChildIdsAreChildren(ix, items, id, []);
    } else {
      AllSubtreesBuilt(ix, items, ids, n - 1);
      ChildIdsAreChildren(ix, items, id, BuildAll(ix, ids, n - 1));
    }
  }

  lemma ConsIsBuilt(items: seq<Item>, t: TreeNode, rest: seq<TreeNode>)
    requires Built(items, t) && AllBuilt(items, rest)
    ensures AllBuilt(items, [t] + rest)
  {
    assert forall u | u in [t] + rest :: u == t || u in rest;
  }

  lemma {:induction false} AllSubtreesBuilt(ix: Index, items: seq<Item>, ids: seq<int>, n: nat)
    requires UniqueIds(items) && Indexes(ix, items) && forall id | id in ids :: Shallow(ix, id, n)
    ensures |BuildAll(ix, ids, n)| == |ids| && AllBuilt(items, BuildAll(ix, ids, n))
    ensures forall i | 0 <= i < |ids| :: BuildAll(ix, ids, n)[i].item.id == ids[i]
    decreases n, |ids|
  {
    if ids != [] {
      SubtreeIsBuilt(ix, items, ids[0], n);
      AllSubtreesBuilt(ix, items, ids[1..], n);
      var t, rest := BuildSubtree(ix, ids[0], n), BuildAll(ix, ids[1..], n);
      assert BuildAll(ix, ids, n) == [t] + rest;
      ConsIsBuilt(items, t, rest);
    }
  }

  // ---------------------------------------------------------------- existence

  const IdOf: Item -> int := (x: Item) => x.id

  ghost function IndexOf(items: seq<Item>): Index {
    var parents := set x | x in items :: x.parent;
    Index(Nodes(items),
          map p | p in parents :: Map(IdOf, ChildrenOf(items, p)))
  }

  lemma IndexOfIndexes(items: seq<Item>)
    ensures Indexes(IndexOf(items), items)
  {
    forall p ensures ListsChildren(IndexOf(items), items, p) {
      var r := ChildrenOf(items, p);
      assert r == [] || r[0] in r;
    }
  }

  lemma BuiltBelow(ix: Index, items: seq<Item>, o: int)
    requires UniqueIds(items) && Indexes(ix, items) && !OnCycle(ById(items), o)
    ensures forall id | id in ChildIds(ix, o) :: Shallow(ix, id, |ById(items)|)
    ensures ForestBelow(items, o, BuildAll(ix, ChildIds(ix, o), |ById(items)|))
  {
    var m, ids := ById(items), ChildIds(ix, o);
    assert ListsChildren(ix, items, o);
    forall id | id in ids ensures Shallow(ix, id, |m|) {
      var i :| 0 <= i < |ids| && ids[i] == id;
      var x := ChildrenOf(items, o)[i];
      assert x in ChildrenOf(items, o);
      ByIdFinds(items, x);
      assert Climbs(m, id, o, 1);
      OffCycleIsShallow(ix, items, id, o, 1, |m|);
    }
    AllSubtreesBuilt(ix, items, ids, |m|);
    ChildIdsAreChildren(ix, items, o, BuildAll(ix, ids, |m|));
  }

  /** Root mode has a finite answer exactly when the root lies on no cycle. */
  lemma RootForestExistsIff(items: seq<Item>, o: int)
    requires UniqueIds(items)
    ensures (exists ts :: ForestBelow(items, o, ts)) <==> !OnCycle(ById(items), o)
  {
    if OnCycle(ById(items), o) {
      forall ts ensures !ForestBelow(items, o, ts) { CyclicRootHasNoForest(items, o, ts); }
    } else {
      IndexOfIndexes(items);
      BuiltBelow(IndexOf(items), items, o);
    }
  }

  // ---------------------------------------------------------------- build_tree

  ghost predicate RawChildren(children: map<int, seq<int>>, items: seq<Item>, p: int) {
    (if p in children then children[p] else []) == Map(IdOf, NamedBy(items, p))
  }

  ghost predicate AllRaw(children: map<int, seq<int>>, items: seq<Item>) {
    forall p :: RawChildren(children, items, p)
  }

  ghost predicate SortedChildren(children: map<int, seq<int>>, items: seq<Item>, p: int) {
    (if p in children then children[p] else []) == Map(IdOf, ChildrenOf(items, p))
  }

  ghost predicate AllSorted(children: map<int, seq<int>>, items: seq<Item>) {
    forall p :: SortedChildren(children, items, p)
  }

  /** Append to the list under a key, creating the list when it is missing. */
  function Push(children: map<int, seq<int>>, p: int, id: int): map<int, seq<int>> {
    children[p := (if p in children then children[p] else []) + [id]]
  }

  lemma RawChildrenStep(children: map<int, seq<int>>, init: seq<Item>, x: Item, p: int)
    requires RawChildren(children, init, p)
    ensures RawChildren(Push(children, x.parent, x.id), init + [x], p)
  {
    assert (init + [x])[..|init|] == init;
    assert NamedBy(init + [x], p) == NamedBy(init, p) + (if x.parent == p then [x] else []);
    if x.parent == p {
      assert Map(IdOf, NamedBy(init, p) + [x]) == Map(IdOf, NamedBy(init, p)) + [x.id];
    }
  }

  lemma RawChildrenGrow(children: map<int, seq<int>>, init: seq<Item>, x: Item)
    requires AllRaw(children, init)
    ensures AllRaw(Push(children, x.parent, x.id), init + [x])
  {
    var items, grown := init + [x], Push(children, x.parent, x.id);
    forall p ensures RawChildren(grown, items, p) {
      assert RawChildren(children, init, p);
      RawChildrenStep(children, init, x, p);
    }
  }

  ghost predicate Filled(nodes: map<int, TreeNode>, children: map<int, seq<int>>, allIds: set<int>, items: seq<Item>) {
    nodes == Nodes(items) && allIds == ById(items).Keys && AllRaw(children, items)
  }

  lemma FillStart()
    ensures Filled(map[], map[], {}, [])
  {
    forall p ensures RawChildren(map[], [], p) {
      assert NamedBy([], p) == [];
    }
  }

  lemma FillStep(nodes: map<int, TreeNode>, children: map<int, seq<int>>, allIds: set<int>, init: seq<Item>, x: Item)
    requires Filled(nodes, children, allIds, init)
    ensures Filled(nodes[x.id := Into(x)], Push(children, x.parent, x.id), allIds + {x.id}, init + [x])
  {
    RawChildrenGrow(children, init, x);
    assert (init + [x])[..|init|] == init;
  }

  method FillOne(nodes0: map<int, TreeNode>, children0: map<int, seq<int>>, allIds0: set<int>, x: Item, ghost init: seq<Item>)
    returns (nodes: map<int, TreeNode>, children: map<int, seq<int>>, allIds: set<int>)
    requires Filled(nodes0, children0, allIds0, init)
    ensures Filled(nodes, children, allIds, init + [x])
  {
    allIds := allIds0 + {x.id};
    nodes := nodes0[x.id := Into(x)];
    children := Push(children0, x.parent, x.id);
    FillStep(nodes0, children0, allIds0, init, x);
  }

  /** First pass: the node map and the child ids of every parent, in input order. */
  method FillMaps(items: seq<Item>)
    returns (nodes: map<int, TreeNode>, children: map<int, seq<int>>, allIds: set<int>)
    ensures Filled(nodes, children, allIds, items)
  {
    nodes, children, allIds := map[], map[], {};
    FillStart();
    ghost var done: seq<Item> := [];
    for i := 0 to |items|
      invariant |done| == i && forall k | 0 <= k < i :: done[k] == items[k]
      invariant Filled(nodes, children, allIds, done)
    {
      nodes, children, allIds := FillOne(nodes, children, allIds, items[i], done);
      done := done + [items[i]];
    }
    assert done == items;
  }

  /** The comparison key of an id: the sort key of the node it names. */
  function KeyIn(nodes: map<int, TreeNode>): int -> int {
    (id: int) => if id in nodes then nodes[id].item.sortKey else 0
  }

  ghost predicate KeysOf(items: seq<Item>, key: int -> int) {
    forall id | id in ById(items) :: key(id) == ById(items)[id].sortKey
  }

  lemma SortedIdsAreChildren(items: seq<Item>, p: int, key: int -> int)
    requires UniqueIds(items)
    requires KeysOf(items, key)
    ensures SortByKey(Map(IdOf, NamedBy(items, p)), key) == Map(IdOf, ChildrenOf(items, p))
  {
    forall x | x in NamedBy(items, p) ensures BySortKey(x) == key(IdOf(x)) {
      ByIdFinds(items, x);
    }
    SortCommutesWithMap(NamedBy(items, p), IdOf, BySortKey, key);
  }

  /** The lists in `todo` are as filled, all others are sorted. */
  ghost predicate SortedOutside(children: map<int, seq<int>>, items: seq<Item>, todo: set<int>) {
    forall p :: SortedOrTodo(children, items, todo, p)
  }

  ghost predicate SortedOrTodo(children: map<int, seq<int>>, items: seq<Item>, todo: set<int>, p: int) {
    if p in todo then p in children && RawChildren(children, items, p) else SortedChildren(children, items, p)
  }

  lemma SortStart(raw: map<int, seq<int>>, items: seq<Item>)
    requires AllRaw(raw, items)
    ensures SortedOutside(raw, items, raw.Keys)
  {
    forall p ensures SortedOrTodo(raw, items, raw.Keys, p) {
      assert RawChildren(raw, items, p);
      if p !in raw {
        assert |NamedBy(items, p)| == |Map(IdOf, NamedBy(items, p))| == 0;
        assert ChildrenOf(items, p) == SortByKey([], BySortKey);
      }
    }
  }

  lemma SortStep(children: map<int, seq<int>>, items: seq<Item>, todo: set<int>, p: int, key: int -> int)
    requires UniqueIds(items) && SortedOutside(children, items, todo) && p in todo
    requires KeysOf(items, key)
    ensures p in children && SortedOutside(children[p := SortByKey(children[p], key)], items, todo - {p})
  {
    assert SortedOrTodo(children, items, todo, p);
    SortedIdsAreChildren(items, p, key);
    var sorted := children[p := SortByKey(children[p], key)];
    var rest := todo - {p};
    forall q ensures SortedOrTodo(sorted, items, rest, q) {
      assert SortedOrTodo(children, items, todo, q);
    }
  }

  lemma SortEnd(children: map<int, seq<int>>, items: seq<Item>)
    requires SortedOutside(children, items, {})
    ensures AllSorted(children, items)
  {
    forall p ensures SortedChildren(children, items, p) {
      assert SortedOrTodo(children, items, {}, p);
    }
  }

  /** Sort every child list by the sort key of the nodes it names. */
  method SortChildren(items: seq<Item>, nodes: map<int, TreeNode>, raw: map<int, seq<int>>)
    returns (children: map<int, seq<int>>)
    requires UniqueIds(items) && nodes == Nodes(items)
    requires AllRaw(raw, items)
    ensures AllSorted(children, items)
  {
    var key := KeyIn(nodes);
    children := raw;
    var todo := raw.Keys;
    SortStart(raw, items);
    while todo != {}
      invariant SortedOutside(children, items, todo)
    {
      var p := AnyOf(todo);
      SortStep(children, items, todo, p, key);
      children := children[p := SortByKey(children[p], key)];
      todo := todo - {p};
    }
    SortEnd(children, items);
  }

  lemma SortedChildrenIndex(ix: Index, items: seq<Item>)
    requires ix.nodes == Nodes(items)
    requires AllSorted(ix.children, items)
    ensures Indexes(ix, items)
  {
    forall p ensures ListsChildren(ix, items, p) {
      assert SortedChildren(ix.children, items, p);
    }
  }

  ghost predicate IsTop(items: seq<Item>, id: int) {
    id in ById(items) && TopLevel(items, ById(items)[id])
  }

  /** `ids` lists every top-level id outside `todo` once, and nothing else. */
  ghost predicate TopLevelOnce(items: seq<Item>, ids: seq<int>, todo: set<int>) {
    forall id :: multiset(ids)[id] == if IsTop(items, id) && id !in todo then 1 else 0
  }

  /** The ids whose parent is not in the data, in the arbitrary order of a hash map. */
  method TopLevelIds(items: seq<Item>, nodes: map<int, TreeNode>, allIds: set<int>) returns (ids: seq<int>)
    requires nodes == Nodes(items) && allIds == ById(items).Keys
    ensures TopLevelOnce(items, ids, {})
  {
    ids := [];
    var todo := nodes.Keys;
    while todo != {}
      invariant todo <= nodes.Keys
      invariant TopLevelOnce(items, ids, todo)
    {
      var id := AnyOf(todo);
      todo := todo - {id};
      if nodes[id].item.parent !in allIds {
        ids := ids + [id];
      }
    }
  }

  lemma {:induction false} RootCountOfIds(ts: seq<TreeNode>, ids: seq<int>, id: int)
    requires |ts| == |ids| && forall i | 0 <= i < |ts| :: ts[i].item.id == ids[i]
    ensures RootCount(Roots(ts), id) == multiset(ids)[id]
  {
    if ts != [] {
      assert Roots(ts)[1..] == Roots(ts[1..]);
      assert ids == [ids[0]] + ids[1..];
      RootCountOfIds(ts[1..], ids[1..], id);
    }
  }

  lemma TopLevelIsShallow(ix: Index, items: seq<Item>, id: int)
    requires UniqueIds(items) && Indexes(ix, items) && IsTop(items, id)
    ensures Shallow(ix, id, |ById(items)|)
  {
    var o := ById(items)[id].parent;
    assert Climbs(ById(items), id, o, 1);
    OffCycleIsShallow(ix, items, id, o, 1, |ById(items)|);
  }

  lemma RootsAscend(items: seq<Item>, ids: seq<int>, ts: seq<TreeNode>, key: int -> int)
    requires UniqueIds(items) && Ascending(ids, key) && KeysOf(items, key)
    requires AllBuilt(items, ts) && |ts| == |ids| && forall i | 0 <= i < |ids| :: ts[i].item.id == ids[i]
    ensures Ascending(Roots(ts), BySortKey) && forall x | x in Roots(ts) :: x in items
  {
    forall i | 0 <= i < |ts| ensures Roots(ts)[i] in items && BySortKey(Roots(ts)[i]) == key(ids[i]) {
      assert ts[i] in ts;
      ByIdFinds(items, ts[i].item);
    }
  }

  lemma TopLevelForest(ix: Index, items: seq<Item>, ids: seq<int>, key: int -> int)
    requires UniqueIds(items) && Indexes(ix, items) && Ascending(ids, key) && KeysOf(items, key)
    requires TopLevelOnce(items, ids, {})
    ensures forall id | id in ids :: Shallow(ix, id, |ById(items)|)
    ensures WholeForest(items, BuildAll(ix, ids, |ById(items)|))
  {
    var n := |ById(items)|;
    forall id | id in ids ensures Shallow(ix, id, n) {
      assert id in multiset(ids);
      TopLevelIsShallow(ix, items, id);
    }
    var ts := BuildAll(ix, ids, n);
    AllSubtreesBuilt(ix, items, ids, n);
    RootsAscend(items, ids, ts, key);
    forall x | x in items ensures multiset(Roots(ts))[x] == (if TopLevel(items, x) then 1 else 0) {
      RootCountIsMultiplicity(Roots(ts), items, x);
      RootCountOfIds(ts, ids, x.id);
      ByIdFinds(items, x);
      assert IsTop(items, x.id) <==> TopLevel(items, x);
    }
  }

  /** Build the tree below `root`, or the whole forest when there is none.  The only demand
      beyond distinct ids is the one `RootForestExistsIff` shows to be necessary. */
  method BuildTree(items: seq<Item>, root: Option<int>) returns (r: seq<TreeNode>)
    requires UniqueIds(items)
    requires root.Some? ==> !OnCycle(ById(items), root.value)
    ensures root.Some? ==> ForestBelow(items, root.value, r)
    ensures root.None? ==> WholeForest(items, r)
  {
    if items == [] {
      return [];
    }
    var nodes, raw, allIds := FillMaps(items);
    var children := SortChildren(items, nodes, raw);
    var ix := Index(nodes, children);
    SortedChildrenIndex(ix, items);
    match root
    case Some(o) =>
      BuiltBelow(ix, items, o);
      r := BuildAll(ix, ChildIds(ix, o), |ById(items)|);
    case None =>
      var key := KeyIn(nodes);
      var top := TopLevelIds(items, nodes, allIds);
      SortIsStable(top, key);
      top := SortByKey(top, key);
      TopLevelForest(ix, items, top, key);
      r := BuildAll(ix, top, |ById(items)|);
  }
}
