/** What batches of point updates do to the path map: who owns a path after a batch, and exactly
    when every point can still be found by its path. */
module PointPaths {
  import opened Collections
  import opened PointIndex

  ghost predicate DistinctIds(ps: seq<Point>) {
    forall i, j | 0 <= i < j < |ps| :: ps[i].id != ps[j].id
  }

  lemma DistinctSnoc(ps: seq<Point>)
    requires ps != [] && DistinctIds(ps)
    ensures DistinctIds(ps[..|ps| - 1]) && ps[|ps| - 1].id !in IdSet(ps[..|ps| - 1])
  {
  }

  lemma CompleteFrame(a: Index, b: Index)
    requires Complete(a) && a.entries == b.entries && a.byPath == b.byPath
    ensures Complete(b)
  {
    forall id ensures Found(b, id) { assert Found(a, id); }
  }

  /** In a complete index two points never have the same path. */
  lemma PathsDiffer(ix: Index, a: int, b: int)
    requires Complete(ix) && a in ix.entries && b in ix.entries && a != b
    ensures PathOf(ix.entries[a]) != PathOf(ix.entries[b])
  {
    assert Found(ix, a);
    assert Found(ix, b);
  }

  lemma {:induction false} DropAllKeeps(ix: Index, ps: seq<Point>)
    requires Sound(ix) && Complete(ix)
    ensures Sound(DropAll(ix, ps)) && Complete(DropAll(ix, ps))
  {
    if ps != [] {
      var mid := DropAll(ix, ps[..|ps| - 1]);
      DropAllKeeps(ix, ps[..|ps| - 1]);
      DropKeepsSound(mid, ps[|ps| - 1].id);
      DropKeepsComplete(mid, ps[|ps| - 1].id);
    }
  }

  // ---------------------------------------------------------------- who owns a path

  function NewPath(d: Device, p: Point): string { PathOf(EntryOf(d, p)) }

  function Owner(ix: Index, path: string): Option<int> {
    if path in ix.byPath then Some(ix.byPath[path]) else None
  }

  /** Writing the point neither takes the path nor frees it. */
  ghost predicate Spares(ix: Index, d: Device, p: Point, path: string) {
    NewPath(d, p) != path && path !in OldPath(ix, p.id)
  }

  /** The last point that takes or frees a path decides. */
  lemma OwnerAfter(ix: Index, d: Device, ps: seq<Point>, path: string)
    requires ps != [] && ps[|ps| - 1].id !in IdSet(ps[..|ps| - 1])
    ensures var last := ps[|ps| - 1];
            Owner(UpsertAll(ix, d, ps), path) ==
              if NewPath(d, last) == path then Some(last.id)
              else if path in OldPath(ix, last.id) then None
              else Owner(UpsertAll(ix, d, ps[..|ps| - 1]), path)
  {
    var init, last := ps[..|ps| - 1], ps[|ps| - 1];
    UpsertAllEntries(ix, d, init);
    assert last.id in UpsertAll(ix, d, init).entries <==> last.id in UpsertAll(ix, d, init).entries.Keys;
    assert OldPath(UpsertAll(ix, d, init), last.id) == OldPath(ix, last.id);
  }

  /** A point of the batch owns its new path afterwards exactly when no later point takes or frees it. */
  lemma {:induction false} OwnsNewPathIff(ix: Index, d: Device, ps: seq<Point>, i: int)
    requires DistinctIds(ps) && 0 <= i < |ps|
    ensures Owner(UpsertAll(ix, d, ps), NewPath(d, ps[i])) == Some(ps[i].id) <==>
      forall j | i < j < |ps| :: Spares(ix, d, ps[j], NewPath(d, ps[i]))
  {
    var init, n := ps[..|ps| - 1], |ps| - 1;
    DistinctSnoc(ps);
    OwnerAfter(ix, d, ps, NewPath(d, ps[i]));
    if i < n {
      OwnsNewPathIff(ix, d, init, i);
      assert init[i] == ps[i];
      assert forall j | i < j < n :: init[j] == ps[j];
      assert ps[n].id != ps[i].id;
    }
  }

  /** A path no point of the batch takes or frees keeps its owner. */
  lemma SparedKeepsOwner(ix: Index, d: Device, ps: seq<Point>, path: string)
    requires forall j | 0 <= j < |ps| :: Spares(ix, d, ps[j], path)
    ensures Owner(UpsertAll(ix, d, ps), path) == Owner(ix, path)
  {
    UpsertAllPaths(ix, d, ps, path);
  }

  /** A path the batch takes goes to a point of the batch or to nobody. */
  lemma TakenStaysInside(ix: Index, d: Device, ps: seq<Point>, i: int)
    requires 0 <= i < |ps|
    ensures var owner := Owner(UpsertAll(ix, d, ps), NewPath(d, ps[i]));
            owner.Some? ==> owner.value in IdSet(ps)
  {
    UpsertAllPaths(ix, d, ps, NewPath(d, ps[i]));
    assert Touched(ix, d, ps, NewPath(d, ps[i]));
  }

  // ---------------------------------------------------------------- an applied batch

  ghost predicate TakesNoOutsidePath(ix: Index, d: Device, ps: seq<Point>) {
    forall i, id | 0 <= i < |ps| && id in ix.entries && id !in IdSet(ps) :: PathOf(ix.entries[id]) != NewPath(d, ps[i])
  }

  /** No later point of the batch takes the new path of an earlier one or had it as its old path. */
  ghost predicate LaterSpareEarlier(ix: Index, d: Device, ps: seq<Point>) {
    forall i, j | 0 <= i < j < |ps| :: Spares(ix, d, ps[j], NewPath(d, ps[i]))
  }

  lemma BatchEntry(ix: Index, d: Device, ps: seq<Point>, i: int)
    requires DistinctIds(ps) && 0 <= i < |ps|
    ensures ps[i].id in UpsertAll(ix, d, ps).entries && UpsertAll(ix, d, ps).entries[ps[i].id] == EntryOf(d, ps[i])
  {
    UpsertAllEntries(ix, d, ps);
    assert ps[i].id in IdSet(ps);
    assert ps[i].id in UpsertAll(ix, d, ps).entries.Keys;
    var k := EntryFromBatch(ix, d, ps, ps[i].id);
  }

  lemma OutsideFoundIff(ix: Index, d: Device, ps: seq<Point>, id: int)
    requires Complete(ix) && id in ix.entries && id !in IdSet(ps)
    ensures Found(UpsertAll(ix, d, ps), id) <==> forall i | 0 <= i < |ps| :: PathOf(ix.entries[id]) != NewPath(d, ps[i])
  {
    var path := PathOf(ix.entries[id]);
    UpsertAllEntries(ix, d, ps);
    assert id in UpsertAll(ix, d, ps).entries.Keys;
    assert Found(ix, id);
    if forall i | 0 <= i < |ps| :: path != NewPath(d, ps[i]) {
      forall i | 0 <= i < |ps| ensures Spares(ix, d, ps[i], path) {
        assert ps[i].id in IdSet(ps);
        if ps[i].id in ix.entries { PathsDiffer(ix, ps[i].id, id); }
      }
      SparedKeepsOwner(ix, d, ps, path);
    } else {
      var i :| 0 <= i < |ps| && path == NewPath(d, ps[i]);
      TakenStaysInside(ix, d, ps, i);
    }
  }

  /** After a batch every point can be found by its path exactly when the batch takes no path of a
      point outside it and no later point of it takes or frees the path an earlier one was given. */
  lemma BatchKeepsCompleteIff(ix: Index, d: Device, ps: seq<Point>)
    requires Sound(ix) && Complete(ix) && DistinctIds(ps)
    ensures Complete(UpsertAll(ix, d, ps)) <==> TakesNoOutsidePath(ix, d, ps) && LaterSpareEarlier(ix, d, ps)
  {
    var to := UpsertAll(ix, d, ps);
    UpsertAllEntries(ix, d, ps);
    if Complete(to) {
      forall i, id | 0 <= i < |ps| && id in ix.entries && id !in IdSet(ps) ensures PathOf(ix.entries[id]) != NewPath(d, ps[i]) {
        assert Found(to, id);
        OutsideFoundIff(ix, d, ps, id);
      }
      forall i, j | 0 <= i < j < |ps| ensures Spares(ix, d, ps[j], NewPath(d, ps[i])) {
        BatchEntry(ix, d, ps, i);
        assert Found(to, ps[i].id);
        OwnsNewPathIff(ix, d, ps, i);
      }
    }
    if TakesNoOutsidePath(ix, d, ps) && LaterSpareEarlier(ix, d, ps) {
      forall id ensures Found(to, id) { FoundAfterBatch(ix, d, ps, id); }
    }
  }

  lemma FoundAfterBatch(ix: Index, d: Device, ps: seq<Point>, id: int)
    requires Complete(ix) && DistinctIds(ps) && TakesNoOutsidePath(ix, d, ps) && LaterSpareEarlier(ix, d, ps)
    ensures Found(UpsertAll(ix, d, ps), id)
  {
    var to := UpsertAll(ix, d, ps);
    UpsertAllEntries(ix, d, ps);
    assert id in to.entries <==> id in to.entries.Keys;
    if id in to.entries {
      if id in IdSet(ps) {
        var i := EntryFromBatch(ix, d, ps, id);
        OwnsNewPathIff(ix, d, ps, i);
      } else {
        OutsideFoundIff(ix, d, ps, id);
      }
    }
  }
}
