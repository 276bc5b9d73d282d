/** Replacing and removing points, taking either back, and the three mutations as the manager
    performs them: apply in memory, offer to the driver, revert on refusal. */
module PointMutations {
  import opened Collections
  import opened Filters
  import opened PointIndex
  import opened PointPaths

  ghost predicate Held(ix: Index, d: Device, p: Point) {
    && p.id in ix.entries && ix.entries[p.id].point == p
    && ix.entries[p.id].channel == d.channel && ix.entries[p.id].device == d.name
  }

  /** Lookups are sound and complete, and the entries of a device's points are those points. */
  ghost predicate Coherent(ix: Index, d: Device) {
    && Sound(ix) && Complete(ix)
    && DistinctIds(Slice(ix, d.id))
    && forall k | 0 <= k < |Slice(ix, d.id)| :: Held(ix, d, Slice(ix, d.id)[k])
  }

  // ---------------------------------------------------------------- removing points

  function Picked(s: seq<Point>, ids: set<int>): seq<Point> {
    if s == [] then [] else
      Picked(s[..|s| - 1], ids) + (if s[|s| - 1].id in ids then [s[|s| - 1]] else [])
  }

  function ApplyRemove(ix: Index, d: Device, ids: set<int>): Index {
    var s := Slice(ix, d.id);
    DropAll(WithSlice(ix, d.id, Retain(s, ids)), Picked(s, ids))
  }

  function UndoRemove(ix: Index, d: Device, removed: seq<Point>, ids: set<int>): Index {
    if removed == [] then ix else
      var s := Slice(ix, d.id) + removed;
      UpsertAll(WithSlice(ix, d.id, s), d, Picked(s, ids))
  }

  lemma {:induction false} PickedAppends(s: seq<Point>, t: seq<Point>, ids: set<int>)
    ensures Picked(s + t, ids) == Picked(s, ids) + Picked(t, ids)
  {
    if t == [] { assert s + t == s; } else {
      assert (s + t)[..|s + t| - 1] == s + t[..|t| - 1];
      PickedAppends(s, t[..|t| - 1], ids);
    }
  }

  lemma PickedOne(p: Point, ids: set<int>)
    ensures Picked([p], ids) == if p.id in ids then [p] else []
  {
    assert [p][..0] == [];
    assert Picked([], ids) == [];
  }

  lemma {:induction false} PickedTwice(s: seq<Point>, ids: set<int>)
    ensures Picked(Retain(s, ids), ids) == []
    ensures Picked(Picked(s, ids), ids) == Picked(s, ids)
  {
    if s != [] {
      var init, last := s[..|s| - 1], s[|s| - 1];
      PickedTwice(init, ids);
      PickedOne(last, ids);
      if last.id in ids {
        PickedAppends(Picked(init, ids), [last], ids);
        assert Picked(s, ids) == Picked(init, ids) + [last];
        assert Retain(s, ids) == Retain(init, ids);
      } else {
        PickedAppends(Retain(init, ids), [last], ids);
        assert Picked(s, ids) == Picked(init, ids);
        assert Retain(s, ids) == Retain(init, ids) + [last];
      }
    }
  }

  lemma {:induction false} PickedFrom(s: seq<Point>, ids: set<int>, i: int)
    requires 0 <= i < |Picked(s, ids)|
    ensures Picked(s, ids)[i] in s && Picked(s, ids)[i].id in ids
  {
    if i < |Picked(s[..|s| - 1], ids)| { PickedFrom(s[..|s| - 1], ids, i); }
  }

  lemma {:induction false} PartitionCounts(s: seq<Point>, ids: set<int>)
    ensures multiset(Retain(s, ids) + Picked(s, ids)) == multiset(s)
  {
    if s != [] {
      PartitionCounts(s[..|s| - 1], ids);
      assert s == s[..|s| - 1] + [s[|s| - 1]];
    }
  }

  lemma {:induction false} PickedDistinct(s: seq<Point>, ids: set<int>)
    requires DistinctIds(s)
    ensures DistinctIds(Picked(s, ids)) && IdSet(Picked(s, ids)) <= IdSet(s)
  {
    if s != [] {
      var init, last := s[..|s| - 1], s[|s| - 1];
      DistinctSnoc(s);
      PickedDistinct(init, ids);
      IdSetSnoc(s);
      var some := Picked(init, ids);
      if last.id in ids {
        assert Picked(s, ids) == some + [last];
        IdSetSnoc(some + [last]);
        assert (some + [last])[..|some|] == some;
        forall i | 0 <= i < |some| ensures some[i].id != last.id { assert some[i].id in IdSet(some); }
      } else {
        assert Picked(s, ids) == some;
      }
    }
  }

  ghost predicate SamePathsAndEntries(a: Index, b: Index) { a.entries == b.entries && a.byPath == b.byPath }

  lemma RemovedHeld(ix: Index, d: Device, ids: set<int>, i: int)
    requires Coherent(ix, d)
    requires 0 <= i < |Picked(Slice(ix, d.id), ids)|
    ensures Held(ix, d, Picked(Slice(ix, d.id), ids)[i])
  {
    var s := Slice(ix, d.id);
    PickedFrom(s, ids, i);
    var k :| 0 <= k < |s| && s[k] == Picked(s, ids)[i];
    assert Held(ix, d, s[k]);
  }

  lemma RemoveUndoneEntries(ix: Index, d: Device, ids: set<int>)
    requires Coherent(ix, d)
    ensures UpsertAll(ApplyRemove(ix, d, ids), d, Picked(Slice(ix, d.id), ids)).entries == ix.entries
  {
    var s := Slice(ix, d.id);
    var removed := Picked(s, ids);
    var mid := ApplyRemove(ix, d, ids);
    DropAllEntries(WithSlice(ix, d.id, Retain(s, ids)), removed);
    UpsertAllEntries(mid, d, removed);
    var back := UpsertAll(mid, d, removed);
    forall id ensures id in back.entries <==> id in ix.entries
              ensures id in back.entries ==> back.entries[id] == ix.entries[id]
    {
      assert id in back.entries <==> id in back.entries.Keys;
      if id in IdSet(removed) {
        var i := EntryFromBatch(mid, d, removed, id);
        RemovedHeld(ix, d, ids, i);
      }
    }
  }

  lemma RemoveUndonePaths(ix: Index, d: Device, ids: set<int>)
    requires Coherent(ix, d)
    ensures UpsertAll(ApplyRemove(ix, d, ids), d, Picked(Slice(ix, d.id), ids)).byPath == ix.byPath
  {
    var s := Slice(ix, d.id);
    var removed := Picked(s, ids);
    var start := WithSlice(ix, d.id, Retain(s, ids));
    var mid := ApplyRemove(ix, d, ids);
    SoundFrame(ix, start);
    CompleteFrame(ix, start);
    DropAllKeeps(start, removed);
    DropAllEntries(start, removed);
    PickedDistinct(s, ids);
    forall i, j | 0 <= i < j < |removed| ensures Spares(mid, d, removed[j], NewPath(d, removed[i])) {
      RemovedHeld(ix, d, ids, i);
      RemovedHeld(ix, d, ids, j);
      PathsDiffer(ix, removed[i].id, removed[j].id);
      assert removed[j].id in IdSet(removed);
    }
    forall i, id | 0 <= i < |removed| && id in mid.entries && id !in IdSet(removed)
      ensures PathOf(mid.entries[id]) != NewPath(d, removed[i])
    {
      RemovedHeld(ix, d, ids, i);
      assert removed[i].id in IdSet(removed);
      PathsDiffer(ix, id, removed[i].id);
    }
    BatchKeepsCompleteIff(mid, d, removed);
    UpsertAllSound(mid, d, removed);
    RemoveUndoneEntries(ix, d, ids);
    PathsDetermined(UpsertAll(mid, d, removed), ix);
  }

  lemma {:induction false} NonePicked(s: seq<Point>, ids: set<int>)
    requires Picked(s, ids) == []
    ensures Retain(s, ids) == s
  {
    if s != [] {
      var init, last := s[..|s| - 1], s[|s| - 1];
      assert |Picked(s, ids)| == |Picked(init, ids)| + (if last.id in ids then 1 else 0);
      NonePicked(init, ids);
      assert Retain(s, ids) == Retain(init, ids) + [last];
      assert s == init + [last];
    }
  }

  lemma PickedBack(s: seq<Point>, ids: set<int>)
    ensures Picked(Retain(s, ids) + Picked(s, ids), ids) == Picked(s, ids)
  {
    PickedTwice(s, ids);
    PickedAppends(Retain(s, ids), Picked(s, ids), ids);
  }

  lemma AppliedSlices(ix: Index, d: Device, ids: set<int>)
    ensures ApplyRemove(ix, d, ids).slices == ix.slices[d.id := Retain(Slice(ix, d.id), ids)]
  {
    DropAllEntries(WithSlice(ix, d.id, Retain(Slice(ix, d.id), ids)), Picked(Slice(ix, d.id), ids));
  }

  lemma UndoneIs(ix: Index, d: Device, kept: seq<Point>, removed: seq<Point>, ids: set<int>)
    requires removed != [] && Slice(ix, d.id) == kept && Picked(kept + removed, ids) == removed
    ensures UndoRemove(ix, d, removed, ids) == UpsertAll(ix, d, removed).(slices := ix.slices[d.id := kept + removed])
  {
    var put := WithSlice(ix, d.id, kept + removed);
    UpsertAllEntries(put, d, removed);
    SlicesApart(ix, put, d, removed);
  }

  /** What is put back when points were removed. */
  lemma PutBack(ix: Index, d: Device, ids: set<int>)
    requires Coherent(ix, d) && Picked(Slice(ix, d.id), ids) != []
    ensures var s := Slice(ix, d.id);
            UndoRemove(ApplyRemove(ix, d, ids), d, Picked(s, ids), ids)
              == ix.(slices := ix.slices[d.id := Retain(s, ids) + Picked(s, ids)])
  {
    var s := Slice(ix, d.id);
    var mid := ApplyRemove(ix, d, ids);
    AppliedSlices(ix, d, ids);
    PickedBack(s, ids);
    UndoneIs(mid, d, Retain(s, ids), Picked(s, ids), ids);
    RemoveUndoneEntries(ix, d, ids);
    RemoveUndonePaths(ix, d, ids);
  }

  lemma NothingRemoved(ix: Index, d: Device, ids: set<int>)
    requires Picked(Slice(ix, d.id), ids) == []
    ensures UndoRemove(ApplyRemove(ix, d, ids), d, [], ids) == ix.(slices := ix.slices[d.id := Slice(ix, d.id)])
  {
    NonePicked(Slice(ix, d.id), ids);
  }

  /** No point that stays stands behind one that goes. */
  ghost predicate RemovedWereLast(s: seq<Point>, ids: set<int>) {
    forall i, j | 0 <= i < j < |s| && s[i].id in ids :: s[j].id in ids
  }

  function KeptThenRemoved(s: seq<Point>, ids: set<int>): seq<Point> { Retain(s, ids) + Picked(s, ids) }

  lemma {:induction false} KeptFirstIff(s: seq<Point>, ids: set<int>)
    ensures KeptThenRemoved(s, ids) == s <==> RemovedWereLast(s, ids)
  {
    if s != [] {
      var init, last := s[..|s| - 1], s[|s| - 1];
      if last.id in ids {
        KeptFirstIff(init, ids);
        LastGoes(init, last, ids);
        assert s == init + [last];
        LastKeepsOrder(s, ids);
      } else {
        LastStays(s, ids);
      }
    }
  }

  lemma LastGoes(init: seq<Point>, last: Point, ids: set<int>)
    requires last.id in ids
    ensures KeptThenRemoved(init + [last], ids) == KeptThenRemoved(init, ids) + [last]
    ensures KeptThenRemoved(init + [last], ids) == init + [last] <==> KeptThenRemoved(init, ids) == init
  {
    var s, t := init + [last], KeptThenRemoved(init, ids);
    assert s[..|s| - 1] == init;
    assert KeptThenRemoved(s, ids) == t + [last];
    assert (t + [last])[..|t|] == t && (init + [last])[..|init|] == init;
  }

  lemma LastKeepsOrder(s: seq<Point>, ids: set<int>)
    requires s != [] && s[|s| - 1].id in ids
    ensures RemovedWereLast(s, ids) <==> RemovedWereLast(s[..|s| - 1], ids)
  {
    var init := s[..|s| - 1];
    assert forall i | 0 <= i < |init| :: init[i] == s[i];
  }

  lemma LastStays(s: seq<Point>, ids: set<int>)
    requires s != [] && s[|s| - 1].id !in ids
    ensures KeptThenRemoved(s, ids) == s <==> RemovedWereLast(s, ids)
  {
    var init, last, gone := s[..|s| - 1], s[|s| - 1], Picked(s, ids);
    NonePickedIff(s, ids);
    if gone == [] {
      NonePicked(s, ids);
    } else {
      var t := KeptThenRemoved(s, ids);
      PickedFrom(s, ids, |gone| - 1);
      assert t[|t| - 1] == gone[|gone| - 1];
      var i :| 0 <= i < |s| && s[i].id in ids;
      assert s[|s| - 1].id !in ids && i < |s| - 1;
    }
  }

  lemma {:induction false} NonePickedIff(s: seq<Point>, ids: set<int>)
    ensures Picked(s, ids) == [] <==> forall i | 0 <= i < |s| :: s[i].id !in ids
  {
    if s != [] {
      var init, last := s[..|s| - 1], s[|s| - 1];
      NonePickedIff(init, ids);
      assert |Picked(s, ids)| == |Picked(init, ids)| + (if last.id in ids then 1 else 0);
      assert forall i | 0 <= i < |init| :: init[i] == s[i];
    }
  }

  /** A refused removal puts back every entry and every path, and the device has the same points
      again; they stand in the same order exactly when the removed ones were the last ones. */
  lemma RemoveUndone(ix: Index, d: Device, ids: set<int>)
    requires Coherent(ix, d)
    ensures var s := Slice(ix, d.id);
            var back := UndoRemove(ApplyRemove(ix, d, ids), d, Picked(s, ids), ids);
            && SamePathsAndEntries(back, ix)
            && multiset(Slice(back, d.id)) == multiset(s)
            && (forall k | k != d.id :: Slice(back, k) == Slice(ix, k))
            && (SameView(back, ix) <==> RemovedWereLast(s, ids))
  {
    var s := Slice(ix, d.id);
    var t := Retain(s, ids) + Picked(s, ids);
    PartitionCounts(s, ids);
    if Picked(s, ids) == [] {
      NothingRemoved(ix, d, ids);
      NonePicked(s, ids);
      assert t == s;
    } else {
      PutBack(ix, d, ids);
    }
    OneSlice(ix, UndoRemove(ApplyRemove(ix, d, ids), d, Picked(s, ids), ids), d.id, t);
    KeptFirstIff(s, ids);
  }

  lemma OneSlice(ix: Index, back: Index, device: int, t: seq<Point>)
    requires back == ix.(slices := ix.slices[device := t])
    ensures Slice(back, device) == t && forall k | k != device :: Slice(back, k) == Slice(ix, k)
    ensures SameView(back, ix) <==> t == Slice(ix, device)
  {
    assert Slice(back, device) == t;
  }

  /** Upserts look at the entries and the paths only. */
  lemma {:induction false} SlicesApart(a: Index, b: Index, d: Device, ps: seq<Point>)
    requires SamePathsAndEntries(a, b)
    ensures SamePathsAndEntries(UpsertAll(a, d, ps), UpsertAll(b, d, ps))
  {
    if ps != [] { SlicesApart(a, b, d, ps[..|ps| - 1]); }
  }

  // ---------------------------------------------------------------- replacing points

  /** The first position of an id, or the length. */
  function Position(s: seq<Point>, id: int): (k: nat)
    ensures k <= |s| && (k < |s| <==> id in IdSet(s))
    ensures k < |s| ==> s[k].id == id
  {
    if s == [] then 0
    else if s[0].id == id then 0
    else
      var k := Position(s[1..], id);
      assert id in IdSet(s) <==> id in IdSet(s[1..]) by { IdSetCons(s, id); }
      k + 1
  }

  lemma IdSetCons(s: seq<Point>, id: int)
    requires s != [] && s[0].id != id
    ensures id in IdSet(s) <==> id in IdSet(s[1..])
  {
    if id in IdSet(s) {
      var i :| 0 <= i < |s| && s[i].id == id;
      assert s[1..][i - 1].id == id;
    }
    if id in IdSet(s[1..]) {
      var i :| 0 <= i < |s[1..]| && s[1..][i].id == id;
      assert s[i + 1].id == id;
    }
  }

  function ReplaceOne(s: seq<Point>, p: Point): seq<Point> {
    var k := Position(s, p.id);
    if k < |s| then s[k := p] else s + [p]
  }

  function ReplaceAll(s: seq<Point>, ps: seq<Point>): seq<Point> {
    if ps == [] then s else ReplaceOne(ReplaceAll(s, ps[..|ps| - 1]), ps[|ps| - 1])
  }

  /** The points of the batch that found nothing to replace. */
  function Added(s: seq<Point>, ps: seq<Point>): seq<Point> {
    if ps == [] then [] else
      var init, last := ps[..|ps| - 1], ps[|ps| - 1];
      var cur := ReplaceAll(s, init);
      Added(s, init) + (if Position(cur, last.id) < |cur| then [] else [last])
  }

  /** The points that were replaced, in the order of the batch. */
  function Replaced(s: seq<Point>, ps: seq<Point>): seq<Point> {
    if ps == [] then [] else
      var init, last := ps[..|ps| - 1], ps[|ps| - 1];
      var cur := ReplaceAll(s, init);
      var k := Position(cur, last.id);
      Replaced(s, init) + (if k < |cur| then [cur[k]] else [])
  }

  ghost predicate KeepsPlace(s: seq<Point>, ps: seq<Point>, t: seq<Point>, k: int)
    requires 0 <= k < |s| <= |t|
  {
    t[k].id == s[k].id && (if s[k].id in IdSet(ps) then t[k] in ps else t[k] == s[k])
  }

  /** After a batch: the old points in place, each replaced or kept, and then the added ones. */
  ghost predicate Shape(s: seq<Point>, ps: seq<Point>, added: seq<Point>, t: seq<Point>) {
    && |t| == |s| + |added|
    && t[|s|..] == added
    && forall k | 0 <= k < |s| :: KeepsPlace(s, ps, t, k)
  }

  lemma IdSetAppend(s: seq<Point>, t: seq<Point>)
    ensures IdSet(s + t) == IdSet(s) + IdSet(t)
  {
    forall id | id in IdSet(s + t) ensures id in IdSet(s) + IdSet(t) {
      var i :| 0 <= i < |s + t| && (s + t)[i].id == id;
      if i < |s| { assert s[i].id == id; } else { assert t[i - |s|].id == id; }
    }
    forall id | id in IdSet(s) + IdSet(t) ensures id in IdSet(s + t) {
      if id in IdSet(s) {
        var i :| 0 <= i < |s| && s[i].id == id;
        assert (s + t)[i].id == id;
      } else {
        var i :| 0 <= i < |t| && t[i].id == id;
        assert (s + t)[|s| + i].id == id;
      }
    }
  }

  lemma SameIds(s: seq<Point>, t: seq<Point>)
    requires |s| == |t| && forall k | 0 <= k < |s| :: s[k].id == t[k].id
    ensures IdSet(s) == IdSet(t)
  {
    forall id | id in IdSet(s) ensures id in IdSet(t) {
      var i :| 0 <= i < |s| && s[i].id == id;
      assert t[i].id == id;
    }
    forall id | id in IdSet(t) ensures id in IdSet(s) {
      var i :| 0 <= i < |t| && t[i].id == id;
      assert s[i].id == id;
    }
  }

  lemma ShapeIds(s: seq<Point>, ps: seq<Point>, added: seq<Point>, t: seq<Point>)
    requires Shape(s, ps, added, t)
    ensures IdSet(t[..|s|]) == IdSet(s) && IdSet(t) == IdSet(s) + IdSet(added)
  {
    forall k | 0 <= k < |s| ensures t[..|s|][k].id == s[k].id { assert KeepsPlace(s, ps, t, k); }
    SameIds(t[..|s|], s);
    IdSetAppend(t[..|s|], t[|s|..]);
    assert t == t[..|s|] + t[|s|..];
  }

  lemma IdSetPlus(ps: seq<Point>, p: Point)
    ensures IdSet(ps + [p]) == IdSet(ps) + {p.id}
  {
    IdSetSnoc(ps + [p]);
    assert (ps + [p])[..|ps|] == ps;
  }

  /** A point the device has is found at its old place, which the batch has not changed yet. */
  lemma FoundInPlace(s: seq<Point>, init: seq<Point>, added: seq<Point>, cur: seq<Point>, p: Point)
    requires Shape(s, init, added, cur)
    requires IdSet(added) <= IdSet(init) && p.id !in IdSet(init)
    ensures p.id in IdSet(s) ==> Position(cur, p.id) < |s| && cur[Position(cur, p.id)] == s[Position(cur, p.id)]
    ensures p.id !in IdSet(s) ==> Position(cur, p.id) == |cur|
  {
    ShapeIds(s, init, added, cur);
    var k := Position(cur, p.id);
    if k < |s| {
      assert KeepsPlace(s, init, cur, k);
      assert s[k].id in IdSet(s);
    }
  }

  lemma ShapeInPlace(s: seq<Point>, init: seq<Point>, added: seq<Point>, cur: seq<Point>, p: Point, k: nat)
    requires Shape(s, init, added, cur) && DistinctIds(s)
    requires k < |s| && s[k].id == p.id
    ensures Shape(s, init + [p], added, cur[k := p])
  {
    IdSetPlus(init, p);
    var to := cur[k := p];
    forall j | 0 <= j < |s| ensures KeepsPlace(s, init + [p], to, j) {
      assert KeepsPlace(s, init, cur, j);
      assert j != k ==> s[j].id != p.id;
    }
  }

  lemma ShapeAtEnd(s: seq<Point>, init: seq<Point>, added: seq<Point>, cur: seq<Point>, p: Point)
    requires Shape(s, init, added, cur) && p.id !in IdSet(s)
    ensures Shape(s, init + [p], added + [p], cur + [p])
  {
    IdSetPlus(init, p);
    forall j | 0 <= j < |s| ensures KeepsPlace(s, init + [p], cur + [p], j) {
      assert KeepsPlace(s, init, cur, j);
      assert s[j].id in IdSet(s);
    }
  }

  lemma {:induction false} BatchShape(s: seq<Point>, ps: seq<Point>)
    requires DistinctIds(s) && DistinctIds(ps)
    ensures Shape(s, ps, Added(s, ps), ReplaceAll(s, ps))
    ensures IdSet(Added(s, ps)) == IdSet(ps) - IdSet(s)
  {
    if ps != [] {
      var init, last := ps[..|ps| - 1], ps[|ps| - 1];
      var added, cur := Added(s, init), ReplaceAll(s, init);
      DistinctSnoc(ps);
      BatchShape(s, init);
      IdSetSnoc(ps);
      assert ps == init + [last];
      FoundInPlace(s, init, added, cur, last);
      if last.id in IdSet(s) {
        ShapeInPlace(s, init, added, cur, last, Position(cur, last.id));
      } else {
        ShapeAtEnd(s, init, added, cur, last);
        IdSetPlus(added, last);
      }
    }
  }

  /** The replaced points are old points of the device, one for each batch id it has. */
  lemma {:induction false} ReplacedAre(s: seq<Point>, ps: seq<Point>)
    requires DistinctIds(s) && DistinctIds(ps)
    ensures IdSet(Replaced(s, ps)) == IdSet(ps) * IdSet(s)
    ensures DistinctIds(Replaced(s, ps))
    ensures forall i | 0 <= i < |Replaced(s, ps)| :: Replaced(s, ps)[i] in s
  {
    if ps != [] {
      var init, last := ps[..|ps| - 1], ps[|ps| - 1];
      DistinctSnoc(ps);
      ReplacedAre(s, init);
      BatchShape(s, init);
      var cur := ReplaceAll(s, init);
      FoundInPlace(s, init, Added(s, init), cur, last);
      IdSetSnoc(ps);
      if last.id in IdSet(s) {
        var olds, k := Replaced(s, init), Position(cur, last.id);
        assert Replaced(s, ps) == olds + [s[k]];
        IdSetPlus(olds, s[k]);
        forall i | 0 <= i < |olds| ensures olds[i].id != last.id { assert olds[i].id in IdSet(olds); }
      } else {
        assert Replaced(s, ps) == Replaced(s, init);
      }
    }
  }

  /** Without the added points the old ones are left, in their places. */
  lemma HeadLeft(s: seq<Point>, ps: seq<Point>, added: seq<Point>, t: seq<Point>)
    requires Shape(s, ps, added, t) && IdSet(added) !! IdSet(s)
    ensures Retain(t, IdSet(added)) == t[..|s|]
  {
    ShapeIds(s, ps, added, t);
    var head := t[..|s|];
    assert t == head + added;
    RetainAppends(head, added, IdSet(added));
    RetainNone(added, IdSet(added));
    RetainAllIff(head, IdSet(added));
  }

  lemma HeadShape(s: seq<Point>, ps: seq<Point>, added: seq<Point>, t: seq<Point>)
    requires Shape(s, ps, added, t) && DistinctIds(s)
    ensures Shape(s, ps, [], t[..|s|]) && DistinctIds(t[..|s|])
  {
    var head := t[..|s|];
    forall k | 0 <= k < |s| ensures KeepsPlace(s, ps, head, k) { assert KeepsPlace(s, ps, t, k); }
    forall i, j | 0 <= i < j < |head| ensures head[i].id != head[j].id {
      assert KeepsPlace(s, ps, head, i) && KeepsPlace(s, ps, head, j);
    }
  }

  /** Dropping the added points and writing the replaced ones back gives the old list. */
  lemma ListRestored(s: seq<Point>, ps: seq<Point>)
    requires DistinctIds(s) && DistinctIds(ps)
    ensures ReplaceAll(Retain(ReplaceAll(s, ps), IdSet(Added(s, ps))), Replaced(s, ps)) == s
  {
    var t := ReplaceAll(s, ps);
    BatchShape(s, ps);
    ReplacedAre(s, ps);
    HeadLeft(s, ps, Added(s, ps), t);
    HeadShape(s, ps, Added(s, ps), t);
    WrittenBack(s, ps, t[..|s|], Replaced(s, ps));
  }

  lemma WrittenBack(s: seq<Point>, ps: seq<Point>, head: seq<Point>, olds: seq<Point>)
    requires Shape(s, ps, [], head) && DistinctIds(s) && DistinctIds(head) && DistinctIds(olds)
    requires IdSet(olds) == IdSet(ps) * IdSet(s)
    requires forall i | 0 <= i < |olds| :: olds[i] in s
    ensures ReplaceAll(head, olds) == s
  {
    ShapeIds(s, ps, [], head);
    assert head[..|s|] == head;
    BatchShape(head, olds);
    var r, added := ReplaceAll(head, olds), Added(head, olds);
    assert IdSet(added) == {};
    NoIds(added);
    forall k | 0 <= k < |s| ensures r[k] == s[k] { PlaceRestored(s, ps, head, olds, r, k); }
  }

  lemma NoIds(ps: seq<Point>)
    ensures IdSet(ps) == {} ==> ps == []
  {
    if ps != [] { assert ps[0].id in IdSet(ps); }
  }

  lemma PlaceRestored(s: seq<Point>, ps: seq<Point>, head: seq<Point>, olds: seq<Point>, r: seq<Point>, k: nat)
    requires k < |s| == |head| == |r| && DistinctIds(s)
    requires KeepsPlace(s, ps, head, k) && KeepsPlace(head, olds, r, k)
    requires IdSet(olds) == IdSet(ps) * IdSet(s)
    requires forall i | 0 <= i < |olds| :: olds[i] in s
    ensures r[k] == s[k]
  {
    assert s[k].id in IdSet(s);
    if s[k].id in IdSet(olds) {
      var i :| 0 <= i < |olds| && olds[i] == r[k];
      assert olds[i] in s;
      var j :| 0 <= j < |s| && s[j] == r[k];
    }
  }

  function ApplyReplace(ix: Index, d: Device, ps: seq<Point>): Index {
    var to := UpsertAll(ix, d, ps);
    WithSlice(to, d.id, ReplaceAll(Slice(to, d.id), ps))
  }

  function UndoReplace(ix: Index, d: Device, added: seq<Point>, olds: seq<Point>): Index {
    var s := ReplaceAll(Retain(Slice(ix, d.id), IdSet(added)), olds);
    UpsertAll(DropAll(WithSlice(ix, d.id, s), added), d, olds)
  }

  /** Each point of the batch is one of the device's points, or its id is new. */
  ghost predicate KnownOrNew(ix: Index, d: Device, ps: seq<Point>) {
    forall i | 0 <= i < |ps| :: ps[i].id in IdSet(Slice(ix, d.id)) || ps[i].id !in ix.entries
  }

  lemma OldsHeld(ix: Index, d: Device, ps: seq<Point>, i: int)
    requires Coherent(ix, d) && DistinctIds(ps)
    requires 0 <= i < |Replaced(Slice(ix, d.id), ps)|
    ensures Held(ix, d, Replaced(Slice(ix, d.id), ps)[i])
  {
    var s := Slice(ix, d.id);
    ReplacedAre(s, ps);
    var olds := Replaced(s, ps);
    assert olds[i] in s;
    var k :| 0 <= k < |s| && s[k] == olds[i];
    assert Held(ix, d, s[k]);
  }

  /** The entries before the old ones are written back: the batch's own, or untouched ones. */
  lemma DroppedEntries(ix: Index, d: Device, ps: seq<Point>)
    requires DistinctIds(Slice(ix, d.id)) && DistinctIds(ps)
    ensures var s := Slice(ix, d.id);
            var mid := DropAll(UpsertAll(ix, d, ps), Added(s, ps));
            && mid.entries.Keys == ix.entries.Keys + IdSet(ps) - IdSet(Added(s, ps))
            && forall id | id in mid.entries && id !in IdSet(ps) :: id in ix.entries && mid.entries[id] == ix.entries[id]
  {
    UpsertAllEntries(ix, d, ps);
    DropAllEntries(UpsertAll(ix, d, ps), Added(Slice(ix, d.id), ps));
  }

  ghost predicate SameAt(a: map<int, Entry>, b: map<int, Entry>, id: int) {
    (id in a <==> id in b) && (id in a && id in b ==> a[id] == b[id])
  }

  lemma SameEverywhere(a: map<int, Entry>, b: map<int, Entry>)
    requires forall id :: SameAt(a, b, id)
    ensures a == b
  {
    forall id ensures id in a <==> id in b { assert SameAt(a, b, id); }
    forall id | id in a ensures a[id] == b[id] { assert SameAt(a, b, id); }
  }

  lemma EntryRestored(ix: Index, d: Device, ps: seq<Point>, mid: Index, olds: seq<Point>, id: int)
    requires Coherent(ix, d) && DistinctIds(ps) && KnownOrNew(ix, d, ps)
    requires olds == Replaced(Slice(ix, d.id), ps) && IdSet(olds) == IdSet(ps) * IdSet(Slice(ix, d.id))
    requires mid.entries.Keys == ix.entries.Keys + IdSet(ps) - (IdSet(ps) - IdSet(Slice(ix, d.id)))
    requires forall k | k in mid.entries && k !in IdSet(ps) :: k in ix.entries && mid.entries[k] == ix.entries[k]
    ensures SameAt(UpsertAll(mid, d, olds).entries, ix.entries, id)
  {
    UpsertAllEntries(mid, d, olds);
    var back := UpsertAll(mid, d, olds);
    assert id in back.entries <==> id in back.entries.Keys;
    if id in IdSet(olds) {
      var i := EntryFromBatch(mid, d, olds, id);
      OldsHeld(ix, d, ps, i);
    } else if id in IdSet(ps) {
      var i :| 0 <= i < |ps| && ps[i].id == id;
      assert ps[i].id in IdSet(Slice(ix, d.id)) || ps[i].id !in ix.entries;
    } else {
      assert id in mid.entries <==> id in mid.entries.Keys;
    }
  }

  lemma ReplaceUndoneEntries(ix: Index, d: Device, ps: seq<Point>)
    requires Coherent(ix, d) && DistinctIds(ps) && KnownOrNew(ix, d, ps)
    ensures var s := Slice(ix, d.id);
            UpsertAll(DropAll(UpsertAll(ix, d, ps), Added(s, ps)), d, Replaced(s, ps)).entries == ix.entries
  {
    var s := Slice(ix, d.id);
    var olds := Replaced(s, ps);
    var mid := DropAll(UpsertAll(ix, d, ps), Added(s, ps));
    BatchShape(s, ps);
    ReplacedAre(s, ps);
    DroppedEntries(ix, d, ps);
    forall id ensures SameAt(UpsertAll(mid, d, olds).entries, ix.entries, id) { EntryRestored(ix, d, ps, mid, olds, id); }
    SameEverywhere(UpsertAll(mid, d, olds).entries, ix.entries);
  }

  lemma {:induction false} DropsApart(a: Index, b: Index, ps: seq<Point>)
    requires SamePathsAndEntries(a, b)
    ensures SamePathsAndEntries(DropAll(a, ps), DropAll(b, ps))
  {
    if ps != [] { DropsApart(a, b, ps[..|ps| - 1]); }
  }

  /** Undoing works on the paths and entries and on the slices separately. */
  lemma UndoSeparates(ix: Index, up: Index, d: Device, added: seq<Point>, olds: seq<Point>)
    requires SamePathsAndEntries(ix, up)
    ensures SamePathsAndEntries(UndoReplace(ix, d, added, olds), UpsertAll(DropAll(up, added), d, olds))
    ensures UndoReplace(ix, d, added, olds).slices
         == ix.slices[d.id := ReplaceAll(Retain(Slice(ix, d.id), IdSet(added)), olds)]
  {
    var cut := WithSlice(ix, d.id, ReplaceAll(Retain(Slice(ix, d.id), IdSet(added)), olds));
    DropsApart(cut, up, added);
    DropAllEntries(cut, added);
    SlicesApart(DropAll(cut, added), DropAll(up, added), d, olds);
    UpsertAllEntries(DropAll(cut, added), d, olds);
  }

  lemma AppliedIs(ix: Index, d: Device, ps: seq<Point>)
    ensures SamePathsAndEntries(ApplyReplace(ix, d, ps), UpsertAll(ix, d, ps))
    ensures ApplyReplace(ix, d, ps).slices == ix.slices[d.id := ReplaceAll(Slice(ix, d.id), ps)]
  {
    UpsertAllEntries(ix, d, ps);
  }

  lemma UndoneExactly(ix: Index, d: Device, ps: seq<Point>, added: seq<Point>, olds: seq<Point>)
    requires SamePathsAndEntries(UpsertAll(DropAll(UpsertAll(ix, d, ps), added), d, olds), ix)
    requires ReplaceAll(Retain(ReplaceAll(Slice(ix, d.id), ps), IdSet(added)), olds) == Slice(ix, d.id)
    ensures SameView(UndoReplace(ApplyReplace(ix, d, ps), d, added, olds), ix)
  {
    AppliedIs(ix, d, ps);
    UndoneView(ix, ApplyReplace(ix, d, ps), UpsertAll(ix, d, ps), d, added, olds, ReplaceAll(Slice(ix, d.id), ps));
  }

  lemma UndoneView(ix: Index, applied: Index, up: Index, d: Device, added: seq<Point>, olds: seq<Point>, t: seq<Point>)
    requires SamePathsAndEntries(applied, up) && applied.slices == ix.slices[d.id := t]
    requires SamePathsAndEntries(UpsertAll(DropAll(up, added), d, olds), ix)
    requires ReplaceAll(Retain(t, IdSet(added)), olds) == Slice(ix, d.id)
    ensures SameView(UndoReplace(applied, d, added, olds), ix)
  {
    UndoSeparates(applied, up, d, added, olds);
    assert Slice(applied, d.id) == t;
    SlicesBack(ix, applied, UndoReplace(applied, d, added, olds), d.id, t);
  }

  lemma SlicesBack(ix: Index, applied: Index, back: Index, device: int, t: seq<Point>)
    requires applied.slices == ix.slices[device := t]
    requires back.slices == applied.slices[device := Slice(ix, device)]
    requires SamePathsAndEntries(back, ix)
    ensures SameView(back, ix)
  {
  }

  // ---------------------------------------------------------------- a refused update

  /** The id `x` stands before `y`. */
  ghost predicate Precedes(ps: seq<Point>, x: int, y: int) {
    exists i, j :: 0 <= i < j < |ps| && ps[i].id == x && ps[j].id == y
  }

  lemma PrecedesPlus(ps: seq<Point>, p: Point, x: int, y: int)
    ensures Precedes(ps + [p], x, y) <==> Precedes(ps, x, y) || (x in IdSet(ps) && y == p.id)
  {
    var all := ps + [p];
    if Precedes(all, x, y) {
      var i, j :| 0 <= i < j < |all| && all[i].id == x && all[j].id == y;
      assert ps[i].id == x;
      if j < |ps| { assert ps[j].id == y; }
    }
    if Precedes(ps, x, y) {
      var i, j :| 0 <= i < j < |ps| && ps[i].id == x && ps[j].id == y;
      assert all[i].id == x && all[j].id == y;
    }
    if x in IdSet(ps) && y == p.id {
      var i :| 0 <= i < |ps| && ps[i].id == x;
      assert all[i].id == x && all[|ps|].id == y;
    }
  }

  /** Replaced points are written back in the order of the batch. */
  lemma {:induction false} ReplacedInOrder(s: seq<Point>, ps: seq<Point>, x: int, y: int)
    requires DistinctIds(s) && DistinctIds(ps)
    ensures Precedes(Replaced(s, ps), x, y) <==> Precedes(ps, x, y) && x in IdSet(s) && y in IdSet(s)
  {
    if ps != [] {
      var init, last := ps[..|ps| - 1], ps[|ps| - 1];
      var cur := ReplaceAll(s, init);
      DistinctSnoc(ps);
      ReplacedInOrder(s, init, x, y);
      ReplacedAre(s, init);
      BatchShape(s, init);
      FoundInPlace(s, init, Added(s, init), cur, last);
      assert ps == init + [last];
      PrecedesPlus(init, last, x, y);
      if last.id in IdSet(s) {
        var was := s[Position(cur, last.id)];
        assert Replaced(s, ps) == Replaced(s, init) + [was];
        PrecedesPlus(Replaced(s, init), was, x, y);
      } else {
        assert Replaced(s, ps) == Replaced(s, init);
      }
    }
  }

  /** No later point of the batch was to take the old path of an earlier one. */
  ghost predicate TakesNoEarlierPath(ix: Index, d: Device, ps: seq<Point>) {
    forall i, j | 0 <= i < j < |ps| && ps[i].id in IdSet(Slice(ix, d.id)) && ps[j].id in IdSet(Slice(ix, d.id))
                  && ps[i].id in ix.entries ::
      PathOf(ix.entries[ps[i].id]) != NewPath(d, ps[j])
  }

  /** Before the old points are written back. */
  function Emptied(ix: Index, d: Device, ps: seq<Point>): Index {
    DropAll(UpsertAll(ix, d, ps), Added(Slice(ix, d.id), ps))
  }

  function Reverted(ix: Index, d: Device, ps: seq<Point>): Index {
    UpsertAll(Emptied(ix, d, ps), d, Replaced(Slice(ix, d.id), ps))
  }

  /** A known point of the batch still has its new path then. */
  lemma EmptiedHasNew(ix: Index, d: Device, ps: seq<Point>, j: int)
    requires DistinctIds(Slice(ix, d.id)) && DistinctIds(ps) && 0 <= j < |ps| && ps[j].id in IdSet(Slice(ix, d.id))
    ensures OldPath(Emptied(ix, d, ps), ps[j].id) == {NewPath(d, ps[j])}
  {
    BatchShape(Slice(ix, d.id), ps);
    BatchEntry(ix, d, ps, j);
    DropAllEntries(UpsertAll(ix, d, ps), Added(Slice(ix, d.id), ps));
  }

  /** Writing a later point back frees an earlier one's old path exactly when it had taken it. */
  lemma SparesIff(ix: Index, d: Device, ps: seq<Point>, a: int, b: int, j: int)
    requires Coherent(ix, d) && DistinctIds(ps)
    requires var olds := Replaced(Slice(ix, d.id), ps);
             0 <= a < b < |olds| && 0 <= j < |ps| && ps[j].id == olds[b].id && ps[j].id in IdSet(Slice(ix, d.id))
    ensures var olds := Replaced(Slice(ix, d.id), ps);
            Spares(Emptied(ix, d, ps), d, olds[b], NewPath(d, olds[a])) <==> NewPath(d, ps[j]) != NewPath(d, olds[a])
  {
    var olds := Replaced(Slice(ix, d.id), ps);
    EmptiedHasNew(ix, d, ps, j);
    ReplacedAre(Slice(ix, d.id), ps);
    OldsHeld(ix, d, ps, a);
    OldsHeld(ix, d, ps, b);
    PathsDiffer(ix, olds[a].id, olds[b].id);
  }

  lemma AtIndex(ps: seq<Point>, x: int) returns (i: int)
    requires x in IdSet(ps)
    ensures 0 <= i < |ps| && ps[i].id == x
  {
    i :| 0 <= i < |ps| && ps[i].id == x;
  }

  /** An old point is found again exactly when no later point of the batch was to take its path. */
  lemma OldFoundIff(ix: Index, d: Device, ps: seq<Point>, a: int)
    requires Coherent(ix, d) && DistinctIds(ps) && KnownOrNew(ix, d, ps)
    requires 0 <= a < |Replaced(Slice(ix, d.id), ps)|
    ensures var x := Replaced(Slice(ix, d.id), ps)[a];
            Found(Reverted(ix, d, ps), x.id) <==>
              forall j | 0 <= j < |ps| && Precedes(ps, x.id, ps[j].id) && ps[j].id in IdSet(Slice(ix, d.id)) ::
                NewPath(d, ps[j]) != NewPath(d, x)
  {
    var s := Slice(ix, d.id);
    var olds := Replaced(s, ps);
    var x := olds[a];
    ReplacedAre(s, ps);
    OldsHeld(ix, d, ps, a);
    assert x.id in IdSet(olds);
    ReplaceUndoneEntries(ix, d, ps);
    OwnsNewPathIff(Emptied(ix, d, ps), d, olds, a);
    if Found(Reverted(ix, d, ps), x.id) {
      forall j | 0 <= j < |ps| && Precedes(ps, x.id, ps[j].id) && ps[j].id in IdSet(s) ensures NewPath(d, ps[j]) != NewPath(d, x) {
        ReplacedInOrder(s, ps, x.id, ps[j].id);
        var a', b :| 0 <= a' < b < |olds| && olds[a'].id == x.id && olds[b].id == ps[j].id;
        SparesIff(ix, d, ps, a, b, j);
      }
    }
    if forall j | 0 <= j < |ps| && Precedes(ps, x.id, ps[j].id) && ps[j].id in IdSet(s) :: NewPath(d, ps[j]) != NewPath(d, x) {
      forall b | a < b < |olds| ensures Spares(Emptied(ix, d, ps), d, olds[b], NewPath(d, x)) {
        assert olds[b].id in IdSet(olds);
        var j := AtIndex(ps, olds[b].id);
        assert Precedes(olds, x.id, olds[b].id);
        ReplacedInOrder(s, ps, x.id, ps[j].id);
        SparesIff(ix, d, ps, a, b, j);
      }
    }
  }

  lemma OutsideSpared(ix: Index, d: Device, ps: seq<Point>, id: int)
    requires Coherent(ix, d) && DistinctIds(ps) && KnownOrNew(ix, d, ps) && id in ix.entries && id !in IdSet(ps)
    requires forall i | 0 <= i < |ps| :: PathOf(ix.entries[id]) != NewPath(d, ps[i])
    ensures Owner(Reverted(ix, d, ps), PathOf(ix.entries[id])) == Some(id)
  {
    var s := Slice(ix, d.id);
    var path, olds, up := PathOf(ix.entries[id]), Replaced(s, ps), UpsertAll(ix, d, ps);
    OutsideFoundIff(ix, d, ps, id);
    UpsertAllEntries(ix, d, ps);
    assert id in up.entries.Keys;
    BatchShape(s, ps);
    forall x | x in IdSet(Added(s, ps)) ensures path !in OldPath(up, x) {
      var i := AtIndex(ps, x);
      BatchEntry(ix, d, ps, i);
    }
    DropAllPaths(up, Added(s, ps), path);
    ReplacedAre(s, ps);
    forall b | 0 <= b < |olds| ensures Spares(Emptied(ix, d, ps), d, olds[b], path) {
      assert olds[b].id in IdSet(olds);
      var j := AtIndex(ps, olds[b].id);
      EmptiedHasNew(ix, d, ps, j);
      OldsHeld(ix, d, ps, b);
      PathsDiffer(ix, olds[b].id, id);
    }
    SparedKeepsOwner(Emptied(ix, d, ps), d, olds, path);
  }

  /** A path the batch took never goes back to a point outside the batch. */
  lemma PathStaysTaken(ix: Index, d: Device, ps: seq<Point>, added: seq<Point>, olds: seq<Point>, i: int)
    requires 0 <= i < |ps| && IdSet(olds) <= IdSet(ps)
    ensures var owner := Owner(UpsertAll(DropAll(UpsertAll(ix, d, ps), added), d, olds), NewPath(d, ps[i]));
            owner.Some? ==> owner.value in IdSet(ps)
  {
    var up := UpsertAll(ix, d, ps);
    TakenStaysInside(ix, d, ps, i);
    DropAllPaths(up, added, NewPath(d, ps[i]));
    UpsertAllPaths(DropAll(up, added), d, olds, NewPath(d, ps[i]));
  }

  lemma OutsideFoundAgainIff(ix: Index, d: Device, ps: seq<Point>, id: int)
    requires Coherent(ix, d) && DistinctIds(ps) && KnownOrNew(ix, d, ps) && id in ix.entries && id !in IdSet(ps)
    ensures Found(Reverted(ix, d, ps), id) <==> forall i | 0 <= i < |ps| :: PathOf(ix.entries[id]) != NewPath(d, ps[i])
  {
    ReplaceUndoneEntries(ix, d, ps);
    if forall i | 0 <= i < |ps| :: PathOf(ix.entries[id]) != NewPath(d, ps[i]) {
      OutsideSpared(ix, d, ps, id);
    } else {
      var i :| 0 <= i < |ps| && PathOf(ix.entries[id]) == NewPath(d, ps[i]);
      ReplacedAre(Slice(ix, d.id), ps);
      PathStaysTaken(ix, d, ps, Added(Slice(ix, d.id), ps), Replaced(Slice(ix, d.id), ps), i);
    }
  }

  lemma RevertedComplete(ix: Index, d: Device, ps: seq<Point>)
    requires Coherent(ix, d) && DistinctIds(ps) && KnownOrNew(ix, d, ps)
    requires TakesNoOutsidePath(ix, d, ps) && TakesNoEarlierPath(ix, d, ps)
    ensures Complete(Reverted(ix, d, ps))
  {
    var s := Slice(ix, d.id);
    var olds := Replaced(s, ps);
    ReplacedAre(s, ps);
    ReplaceUndoneEntries(ix, d, ps);
    forall id ensures Found(Reverted(ix, d, ps), id) {
      if id in ix.entries && id in IdSet(ps) {
        var i := AtIndex(ps, id);
        var a := AtIndex(olds, id);
        OldsHeld(ix, d, ps, a);
        forall j | 0 <= j < |ps| && Precedes(ps, id, ps[j].id) && ps[j].id in IdSet(s) ensures NewPath(d, ps[j]) != NewPath(d, olds[a]) {
          var i', j' :| 0 <= i' < j' < |ps| && ps[i'].id == id && ps[j'].id == ps[j].id;
        }
        OldFoundIff(ix, d, ps, a);
      } else if id in ix.entries {
        OutsideFoundAgainIff(ix, d, ps, id);
      }
    }
  }

  lemma CompleteReverts(ix: Index, d: Device, ps: seq<Point>)
    requires Coherent(ix, d) && DistinctIds(ps) && KnownOrNew(ix, d, ps) && Complete(Reverted(ix, d, ps))
    ensures TakesNoOutsidePath(ix, d, ps) && TakesNoEarlierPath(ix, d, ps)
  {
    var s := Slice(ix, d.id);
    var olds := Replaced(s, ps);
    ReplacedAre(s, ps);
    forall i, id | 0 <= i < |ps| && id in ix.entries && id !in IdSet(ps) ensures PathOf(ix.entries[id]) != NewPath(d, ps[i]) {
      assert Found(Reverted(ix, d, ps), id);
      OutsideFoundAgainIff(ix, d, ps, id);
    }
    forall i, j | 0 <= i < j < |ps| && ps[i].id in IdSet(s) && ps[j].id in IdSet(s) && ps[i].id in ix.entries
      ensures PathOf(ix.entries[ps[i].id]) != NewPath(d, ps[j])
    {
      assert ps[i].id in IdSet(ps);
      var a := AtIndex(olds, ps[i].id);
      assert Found(Reverted(ix, d, ps), ps[i].id);
      assert Precedes(ps, ps[i].id, ps[j].id);
      OldFoundIff(ix, d, ps, a);
      OldsHeld(ix, d, ps, a);
    }
  }

  lemma RevertedSound(ix: Index, d: Device, ps: seq<Point>)
    requires Sound(ix)
    ensures Sound(Reverted(ix, d, ps))
  {
    UpsertAllSound(ix, d, ps);
    DropAllSound(UpsertAll(ix, d, ps), Added(Slice(ix, d.id), ps));
    UpsertAllSound(Emptied(ix, d, ps), d, Replaced(Slice(ix, d.id), ps));
  }

  lemma KnownUndoneIff(ix: Index, d: Device, ps: seq<Point>)
    requires Coherent(ix, d) && DistinctIds(ps) && KnownOrNew(ix, d, ps)
    ensures var s := Slice(ix, d.id);
            SameView(UndoReplace(ApplyReplace(ix, d, ps), d, Added(s, ps), Replaced(s, ps)), ix) <==>
            TakesNoOutsidePath(ix, d, ps) && TakesNoEarlierPath(ix, d, ps)
  {
    var s := Slice(ix, d.id);
    var added, olds := Added(s, ps), Replaced(s, ps);
    var back := Reverted(ix, d, ps);
    ReplaceUndoneEntries(ix, d, ps);
    if TakesNoOutsidePath(ix, d, ps) && TakesNoEarlierPath(ix, d, ps) {
      RevertedComplete(ix, d, ps);
      RevertedSound(ix, d, ps);
      PathsDetermined(back, ix);
      ListRestored(s, ps);
      UndoneExactly(ix, d, ps, added, olds);
    }
    if SameView(UndoReplace(ApplyReplace(ix, d, ps), d, added, olds), ix) {
      AppliedIs(ix, d, ps);
      UndoSeparates(ApplyReplace(ix, d, ps), UpsertAll(ix, d, ps), d, added, olds);
      CompleteFrame(ix, back);
      CompleteReverts(ix, d, ps);
    }
  }

  /** A refused update drops the entry of each point of the batch the device did not list, whoever else
      lists it. */
  lemma UnlistedIsDropped(ix: Index, d: Device, ps: seq<Point>, i: int)
    requires DistinctIds(Slice(ix, d.id)) && DistinctIds(ps)
    requires 0 <= i < |ps| && ps[i].id !in IdSet(Slice(ix, d.id))
    ensures var s := Slice(ix, d.id);
            ps[i].id !in UndoReplace(ApplyReplace(ix, d, ps), d, Added(s, ps), Replaced(s, ps)).entries
  {
    var s := Slice(ix, d.id);
    var added, olds := Added(s, ps), Replaced(s, ps);
    assert ps[i].id in IdSet(ps);
    BatchShape(s, ps);
    ReplacedAre(s, ps);
    DroppedEntries(ix, d, ps);
    UpsertAllEntries(Emptied(ix, d, ps), d, olds);
    assert ps[i].id !in Reverted(ix, d, ps).entries.Keys;
    AppliedIs(ix, d, ps);
    UndoSeparates(ApplyReplace(ix, d, ps), UpsertAll(ix, d, ps), d, added, olds);
  }

  /** A refused update leaves no trace exactly when each point of the batch is the device's own or new,
      the batch takes no path of a point outside it, and no later point of it takes the old path of an
      earlier one. */
  lemma ReplaceUndoneIff(ix: Index, d: Device, ps: seq<Point>)
    requires Coherent(ix, d) && DistinctIds(ps)
    ensures var s := Slice(ix, d.id);
            SameView(UndoReplace(ApplyReplace(ix, d, ps), d, Added(s, ps), Replaced(s, ps)), ix) <==>
            KnownOrNew(ix, d, ps) && TakesNoOutsidePath(ix, d, ps) && TakesNoEarlierPath(ix, d, ps)
  {
    if KnownOrNew(ix, d, ps) {
      KnownUndoneIff(ix, d, ps);
    } else {
      var i :| 0 <= i < |ps| && ps[i].id !in IdSet(Slice(ix, d.id)) && ps[i].id in ix.entries;
      UnlistedIsDropped(ix, d, ps, i);
    }
  }

  lemma MissingIsIncoherent(ix: Index, d: Device, id: int)
    requires id in IdSet(Slice(ix, d.id)) && id !in ix.entries
    ensures !Coherent(ix, d)
  {
    var s := Slice(ix, d.id);
    var k :| 0 <= k < |s| && s[k].id == id;
    assert !Held(ix, d, s[k]);
  }

  lemma OthersUntouched(ix: Index, d: Device, ps: seq<Point>, added: seq<Point>, olds: seq<Point>, k: int)
    requires k != d.id
    ensures Slice(UndoReplace(ApplyReplace(ix, d, ps), d, added, olds), k) == Slice(ix, k)
  {
    AppliedIs(ix, d, ps);
    UndoSeparates(ApplyReplace(ix, d, ps), UpsertAll(ix, d, ps), d, added, olds);
  }

  /** A refused update that would have moved a point here from another device: that device still lists
      the point, but its entry is gone. */
  lemma RefusedMoveLosesEntry(ix: Index, d: Device, other: Device, ps: seq<Point>, i: int)
    requires Coherent(ix, d) && DistinctIds(ps) && other.id != d.id
    requires 0 <= i < |ps| && ps[i].id in IdSet(Slice(ix, other.id)) && ps[i].id !in IdSet(Slice(ix, d.id))
    ensures var s := Slice(ix, d.id);
            var back := UndoReplace(ApplyReplace(ix, d, ps), d, Added(s, ps), Replaced(s, ps));
            && Slice(back, other.id) == Slice(ix, other.id)
            && ps[i].id !in back.entries && !Coherent(back, other)
  {
    var s := Slice(ix, d.id);
    var added, olds := Added(s, ps), Replaced(s, ps);
    UnlistedIsDropped(ix, d, ps, i);
    OthersUntouched(ix, d, ps, added, olds, other.id);
    MissingIsIncoherent(UndoReplace(ApplyReplace(ix, d, ps), d, added, olds), other, ps[i].id);
  }

  function TwoPoints(d: Device, p: Point, q: Point): Index {
    Index(map[p.id := EntryOf(d, p), q.id := EntryOf(d, q)],
          map[PathOf(EntryOf(d, p)) := p.id, PathOf(EntryOf(d, q)) := q.id],
          map[d.id := [p, q]])
  }

  lemma TwoPointsCoherent(d: Device, p: Point, q: Point)
    requires p.id != q.id && p.key != q.key
    ensures Coherent(TwoPoints(d, p, q), d)
  {
    KeysApart(d, p, q);
    var ix := TwoPoints(d, p, q);
    forall path ensures Owned(ix, path) { }
    forall id ensures Filed(ix, id) && Found(ix, id) { }
  }

  lemma TwoReplaced(p: Point, q: Point, p': Point, q': Point)
    requires p.id == p'.id && q.id == q'.id && p.id != q.id
    ensures Added([p, q], [p', q']) == [] && Replaced([p, q], [p', q']) == [p, q]
  {
    assert [p', q'][..1] == [p'] && [p'][..0] == [];
    assert ReplaceAll([p, q], [p']) == ReplaceOne(ReplaceAll([p, q], []), p');
    assert [p, q][1..] == [q] && [p', q][1..] == [q];
    assert Position([p, q], p.id) == 0;
    assert ReplaceAll([p, q], [p']) == [p', q];
    assert Position([p', q], q.id) == 1;
    assert Replaced([p, q], []) == [] && ReplaceAll([p, q], []) == [p, q];
    assert Replaced([p, q], [p']) == [] + [[p, q][0]];
    assert Added([p, q], [p']) == [];
  }

  /** The condition on paths is needed: when an exchange of two keys is refused, the old entries are
      back but one of the two points can no longer be found by its path. */
  lemma RefusedExchangeLosesAPath(d: Device, p: Point, q: Point)
    requires p.id != q.id && p.key != q.key
    ensures var ix := TwoPoints(d, p, q);
            var ps := [p.(key := q.key), q.(key := p.key)];
            var back := UndoReplace(ApplyReplace(ix, d, ps), d, Added([p, q], ps), Replaced([p, q], ps));
            Coherent(ix, d) && PathOf(EntryOf(d, p)) in ix.byPath && PathOf(EntryOf(d, p)) !in back.byPath
  {
    var ix, p', q' := TwoPoints(d, p, q), p.(key := q.key), q.(key := p.key);
    TwoPointsCoherent(d, p, q);
    KeysApart(d, p, q);
    TwoReplaced(p, q, p', q');
    AppliedIs(ix, d, [p', q']);
    UndoSeparates(ApplyReplace(ix, d, [p', q']), UpsertAll(ix, d, [p', q']), d, [], [p, q]);
    UpsertTwo(ix, d, p', q');
    var up := UpsertAll(ix, d, [p', q']);
    UpsertTwo(up, d, p, q);
    assert DropAll(up, []) == up;
  }

  // ---------------------------------------------------------------- the manager's operations

  /** What the driver answers to a delta. An unreachable driver reads the full state when it starts. */
  // ---------------------------------------------------------------- what an applied mutation leaves

  lemma {:induction false} AddedFrom(s: seq<Point>, ps: seq<Point>)
    requires DistinctIds(s) && DistinctIds(ps)
    ensures DistinctIds(Added(s, ps)) && forall k | 0 <= k < |Added(s, ps)| :: Added(s, ps)[k] in ps
  {
    if ps != [] {
      var init, last := ps[..|ps| - 1], ps[|ps| - 1];
      DistinctSnoc(ps);
      AddedFrom(s, init);
      BatchShape(s, init);
      var added := Added(s, init);
      forall k | 0 <= k < |added| ensures added[k] in ps && added[k].id != last.id {
        assert added[k] in init && added[k].id in IdSet(added);
      }
      assert Added(s, ps) == added || Added(s, ps) == added + [last];
      assert last in ps;
    }
  }

  ghost function IdIn(ids: set<int>, kept: bool): Point -> bool { (p: Point) => (p.id in ids) == kept }

  /** Filtering a list keeps the points without these ids, and picking those with them, in their order. */
  lemma {:induction false} RetainIs(s: seq<Point>, ids: set<int>)
    ensures IsFilter(s, IdIn(ids, false), Retain(s, ids))
    ensures IsFilter(s, IdIn(ids, true), Picked(s, ids))
  {
    if s == [] {
      FilterNone(IdIn(ids, false));
      FilterNone(IdIn(ids, true));
    } else {
      var init, last := s[..|s| - 1], s[|s| - 1];
      RetainIs(init, ids);
      FilterSnoc(init, last, IdIn(ids, false), Retain(init, ids), s, Retain(s, ids));
      FilterSnoc(init, last, IdIn(ids, true), Picked(init, ids), s, Picked(s, ids));
    }
  }

  lemma AddedStep(s: seq<Point>, init: seq<Point>, last: Point)
    requires DistinctIds(s) && DistinctIds(init + [last])
    ensures Added(s, init + [last]) == if last.id in IdSet(s) then Added(s, init) else Added(s, init) + [last]
  {
    var ps := init + [last];
    assert ps[..|ps| - 1] == init;
    DistinctSnoc(ps);
    BatchShape(s, init);
    FoundInPlace(s, init, Added(s, init), ReplaceAll(s, init), last);
  }

  /** The points that were not known, in the order of the batch. */
  lemma {:induction false} AddedIs(s: seq<Point>, ps: seq<Point>)
    requires DistinctIds(s) && DistinctIds(ps)
    ensures IsFilter(ps, IdIn(IdSet(s), false), Added(s, ps))
  {
    if ps == [] {
      FilterNone(IdIn(IdSet(s), false));
    } else {
      var init, last := ps[..|ps| - 1], ps[|ps| - 1];
      assert ps == init + [last];
      DistinctSnoc(ps);
      AddedIs(s, init);
      AddedStep(s, init, last);
      FilterSnoc(init, last, IdIn(IdSet(s), false), Added(s, init), ps, Added(s, ps));
    }
  }

  /** The lists of other devices and the entries of other points are as they were. */
  ghost predicate OthersAlone(ix: Index, to: Index, device: int, ids: set<int>) {
    && (forall k | k != device :: Slice(to, k) == Slice(ix, k))
    && (forall id | id !in ids :: SameAt(to.entries, ix.entries, id))
  }

  /** Each point of the batch has its entry, under the names of the device. */
  ghost predicate AllHeld(to: Index, d: Device, ps: seq<Point>) {
    forall i | 0 <= i < |ps| :: Held(to, d, ps[i])
  }

  ghost predicate AddedTo(ix: Index, to: Index, d: Device, ps: seq<Point>) {
    && |Slice(to, d.id)| == |Slice(ix, d.id)| + |ps|
    && Slice(ix, d.id) <= Slice(to, d.id) && Slice(to, d.id)[|Slice(ix, d.id)|..] == ps
    && (DistinctIds(ps) ==> AllHeld(to, d, ps))
    && OthersAlone(ix, to, d.id, IdSet(ps))
  }

  /** Known points in their places, each replaced or kept, and behind them those of the batch that were
      not known. */
  ghost predicate ReplacedIn(ix: Index, to: Index, d: Device, ps: seq<Point>) {
    var s, t := Slice(ix, d.id), Slice(to, d.id);
    && |s| <= |t| && (forall k | 0 <= k < |s| :: KeepsPlace(s, ps, t, k))
    && IsFilter(ps, IdIn(IdSet(s), false), t[|s|..])
    && AllHeld(to, d, ps)
    && OthersAlone(ix, to, d.id, IdSet(ps))
  }

  /** The listed points with these ids are gone from the list and from the entries; the others stay. */
  ghost predicate RemovedFrom(ix: Index, to: Index, d: Device, ids: set<int>) {
    var s, t := Slice(ix, d.id), Slice(to, d.id);
    && IsFilter(s, IdIn(ids, false), t)
    && (forall id | id in ids && id in IdSet(s) :: id !in to.entries)
    && OthersAlone(ix, to, d.id, ids * IdSet(s))
  }

  lemma WrittenEntries(ix: Index, d: Device, ps: seq<Point>)
    ensures var up := UpsertAll(ix, d, ps);
            && up.slices == ix.slices
            && (forall id | id !in IdSet(ps) :: SameAt(up.entries, ix.entries, id))
            && (DistinctIds(ps) ==> AllHeld(up, d, ps))
  {
    var up := UpsertAll(ix, d, ps);
    UpsertAllEntries(ix, d, ps);
    forall id | id !in IdSet(ps) ensures SameAt(up.entries, ix.entries, id) { assert id in up.entries <==> id in up.entries.Keys; }
    if DistinctIds(ps) {
      forall i | 0 <= i < |ps| ensures Held(up, d, ps[i]) { BatchEntry(ix, d, ps, i); }
    }
  }

  lemma AddApplied(ix: Index, d: Device, ps: seq<Point>)
    ensures AddedTo(ix, ApplyAdd(ix, d, ps), d, ps)
  {
    var up, to, s := UpsertAll(ix, d, ps), ApplyAdd(ix, d, ps), Slice(ix, d.id);
    WrittenEntries(ix, d, ps);
    assert to.entries == up.entries && up.slices == ix.slices;
    assert Slice(to, d.id) == s + ps;
    assert (s + ps)[|s|..] == ps;
    assert OthersAlone(ix, to, d.id, IdSet(ps));
    if DistinctIds(ps) {
      forall i | 0 <= i < |ps| ensures Held(to, d, ps[i]) { assert Held(up, d, ps[i]); }
    }
  }

  lemma ReplaceApplied(ix: Index, d: Device, ps: seq<Point>)
    requires DistinctIds(Slice(ix, d.id)) && DistinctIds(ps)
    ensures ReplacedIn(ix, ApplyReplace(ix, d, ps), d, ps)
  {
    var s, to := Slice(ix, d.id), ApplyReplace(ix, d, ps);
    var t := ReplaceAll(s, ps);
    AppliedIs(ix, d, ps);
    assert Slice(to, d.id) == t;
    BatchShape(s, ps);
    AddedIs(s, ps);
    WrittenEntries(ix, d, ps);
    forall i | 0 <= i < |ps| ensures Held(to, d, ps[i]) { assert Held(UpsertAll(ix, d, ps), d, ps[i]); }
  }

  lemma {:induction false} PickedIds(s: seq<Point>, ids: set<int>)
    ensures IdSet(Picked(s, ids)) == IdSet(s) * ids
  {
    if s != [] {
      PickedIds(s[..|s| - 1], ids);
      IdSetSnoc(s);
      var part := Picked(s[..|s| - 1], ids);
      if s[|s| - 1].id in ids { IdSetPlus(part, s[|s| - 1]); } else { assert Picked(s, ids) == part; }
    }
  }

  lemma RemoveApplied(ix: Index, d: Device, ids: set<int>)
    ensures RemovedFrom(ix, ApplyRemove(ix, d, ids), d, ids)
  {
    var s, to := Slice(ix, d.id), ApplyRemove(ix, d, ids);
    var start, removed := WithSlice(ix, d.id, Retain(s, ids)), Picked(s, ids);
    DropAllEntries(start, removed);
    PickedIds(s, ids);
    RetainIs(s, ids);
    assert Slice(to, d.id) == Retain(s, ids);
    forall id | id !in ids * IdSet(s) ensures SameAt(to.entries, ix.entries, id) { }
  }

  // ---------------------------------------------------------------- the mutations

  datatype Answer = Accepted | Unreachable | Refused

  class RuntimeIndex {
    var devices: map<int, Device>
    var entries: map<int, Entry>
    var byPath: map<string, int>
    var slices: map<int, seq<Point>>

    function View(): Index
      reads this
    {
      Index(entries, byPath, slices)
    }

    /** Every device is filed under its own id. */
    ghost predicate Valid()
      reads this
    {
      forall id | id in devices :: devices[id].id == id
    }

    method UpsertPointEntry(d: Device, p: Point)
      modifies `entries, `byPath
      ensures View() == Upsert(old(View()), EntryOf(d, p))
    {
      if p.id in entries { byPath := byPath - {PathOf(entries[p.id])}; }
      entries := entries[p.id := EntryOf(d, p)];
      byPath := byPath[PathOf(EntryOf(d, p)) := p.id];
    }

    method RemovePointEntryById(id: int)
      modifies `entries, `byPath
      ensures View() == Drop(old(View()), id)
    {
      if id in entries {
        byPath := byPath - {PathOf(entries[id])};
        entries := entries - {id};
      }
    }

    method UpsertEntries(d: Device, ps: seq<Point>)
      modifies `entries, `byPath
      ensures View() == UpsertAll(old(View()), d, ps)
    {
      for i := 0 to |ps|
        invariant View() == UpsertAll(old(View()), d, ps[..i])
      {
        assert ps[..i + 1][..i] == ps[..i];
        UpsertPointEntry(d, ps[i]);
      }
      assert ps[..|ps|] == ps;
    }

    method RemoveEntries(ps: seq<Point>)
      modifies `entries, `byPath
      ensures View() == DropAll(old(View()), ps)
    {
      for i := 0 to |ps|
        invariant View() == DropAll(old(View()), ps[..i])
      {
        assert ps[..i + 1][..i] == ps[..i];
        RemovePointEntryById(ps[i].id);
      }
      assert ps[..|ps|] == ps;
    }

    method SetSlice(device: int, s: seq<Point>)
      modifies `slices
      ensures View() == WithSlice(old(View()), device, s)
    {
      slices := slices[device := s];
    }

    method ApplyAddition(d: Device, ps: seq<Point>)
      modifies `entries, `byPath, `slices
      ensures View() == ApplyAdd(old(View()), d, ps)
    {
      UpsertEntries(d, ps);
      SetSlice(d.id, Slice(View(), d.id) + ps);
    }

    method RevertAdd(d: Device, ps: seq<Point>)
      modifies `entries, `byPath, `slices
      ensures View() == UndoAdd(old(View()), d, ps)
    {
      SetSlice(d.id, Retain(Slice(View(), d.id), IdSet(ps)));
      RemoveEntries(ps);
    }

    /** Appends points to a device; a refusal takes them out again. */
    method AddPoints(device: int, ps: seq<Point>, answer: Answer) returns (ok: bool)
      requires Valid()
      modifies `entries, `byPath, `slices
      ensures ok <==> ps == [] || device !in devices || answer != Refused
      ensures ps == [] || device !in devices ==> View() == old(View())
      ensures ps != [] && device in devices && ok ==> View() == ApplyAdd(old(View()), devices[device], ps)
      ensures ps != [] && device in devices && ok ==> AddedTo(old(View()), View(), devices[device], ps)
      ensures !ok && old(Sound(View())) ==>
        (SameView(View(), old(View())) <==> forall i | 0 <= i < |ps| :: NewPoint(old(View()), devices[device], ps[i]))
    {
      if ps == [] || device !in devices { return true; }
      var d := devices[device];
      ApplyAddition(d, ps);
      AddApplied(old(View()), d, ps);
      ok := answer != Refused;
      if !ok {
        RevertAdd(d, ps);
        if old(Sound(View())) { AddUndoneIff(old(View()), d, ps); }
      }
    }

    method ApplyRemoval(d: Device, ids: set<int>) returns (removed: seq<Point>)
      modifies `entries, `byPath, `slices
      ensures View() == ApplyRemove(old(View()), d, ids) && removed == Picked(Slice(old(View()), d.id), ids)
    {
      var s := Slice(View(), d.id);
      removed := Picked(s, ids);
      SetSlice(d.id, Retain(s, ids));
      RemoveEntries(removed);
    }

    method RevertRemove(d: Device, removed: seq<Point>, ids: set<int>)
      modifies `entries, `byPath, `slices
      ensures View() == UndoRemove(old(View()), d, removed, ids)
    {
      if removed != [] {
        var now := Slice(View(), d.id) + removed;
        SetSlice(d.id, now);
        UpsertEntries(d, Picked(now, ids));
      }
    }

    /** Takes points off a device; a refusal puts them back, at the end. */
    method RemovePoints(device: int, ids: set<int>, answer: Answer) returns (ok: bool)
      requires Valid()
      modifies `entries, `byPath, `slices
      ensures ok <==> ids == {} || device !in devices || Picked(Slice(old(View()), device), ids) == [] || answer != Refused
      ensures ids == {} || device !in devices ==> View() == old(View())
      ensures ids != {} && device in devices && ok ==> View() == ApplyRemove(old(View()), devices[device], ids)
      ensures ids != {} && device in devices && ok ==> RemovedFrom(old(View()), View(), devices[device], ids)
      ensures !ok && old(Coherent(View(), devices[device])) ==>
        && SamePathsAndEntries(View(), old(View()))
        && multiset(Slice(View(), device)) == multiset(Slice(old(View()), device))
        && (forall k | k != device :: Slice(View(), k) == Slice(old(View()), k))
        && (SameView(View(), old(View())) <==> RemovedWereLast(Slice(old(View()), device), ids))
    {
      if ids == {} || device !in devices { return true; }
      var d := devices[device];
      var removed := ApplyRemoval(d, ids);
      RemoveApplied(old(View()), d, ids);
      ok := removed == [] || answer != Refused;
      if !ok {
        RevertRemove(d, removed, ids);
        if old(Coherent(View(), devices[device])) { RemoveUndone(old(View()), d, ids); }
      }
    }

    /** The update of a device's list, point by point, with what is needed to take it back. */
    method ReplaceLoop(s: seq<Point>, ps: seq<Point>) returns (cur: seq<Point>, added: seq<Point>, olds: seq<Point>)
      ensures cur == ReplaceAll(s, ps) && added == Added(s, ps) && olds == Replaced(s, ps)
    {
      cur, added, olds := s, [], [];
      for i := 0 to |ps|
        invariant cur == ReplaceAll(s, ps[..i]) && added == Added(s, ps[..i]) && olds == Replaced(s, ps[..i])
      {
        assert ps[..i + 1][..i] == ps[..i];
        var k := Position(cur, ps[i].id);
        if k < |cur| {
          olds := olds + [cur[k]];
          cur := cur[k := ps[i]];
        } else {
          cur := cur + [ps[i]];
          added := added + [ps[i]];
        }
      }
      assert ps[..|ps|] == ps;
    }

    method ApplyReplacement(d: Device, ps: seq<Point>) returns (added: seq<Point>, olds: seq<Point>)
      modifies `entries, `byPath, `slices
      ensures View() == ApplyReplace(old(View()), d, ps)
      ensures added == Added(Slice(old(View()), d.id), ps) && olds == Replaced(Slice(old(View()), d.id), ps)
    {
      UpsertAllEntries(View(), d, ps);
      UpsertEntries(d, ps);
      var cur;
      cur, added, olds := ReplaceLoop(Slice(View(), d.id), ps);
      SetSlice(d.id, cur);
    }

    method RevertReplace(d: Device, added: seq<Point>, olds: seq<Point>)
      modifies `entries, `byPath, `slices
      ensures View() == UndoReplace(old(View()), d, added, olds)
    {
      var back, _, _ := ReplaceLoop(Retain(Slice(View(), d.id), IdSet(added)), olds);
      SetSlice(d.id, back);
      RemoveEntries(added);
      UpsertEntries(d, olds);
    }

    /** Updates a device's points by id, adding unknown ones; a refusal writes the old ones back. */
    method ReplacePoints(device: int, ps: seq<Point>, answer: Answer) returns (ok: bool)
      requires Valid()
      modifies `entries, `byPath, `slices
      ensures ok <==> ps == [] || device !in devices || answer != Refused
      ensures ps == [] || device !in devices ==> View() == old(View())
      ensures ps != [] && device in devices && ok ==> View() == ApplyReplace(old(View()), devices[device], ps)
      ensures ps != [] && device in devices && ok && DistinctIds(Slice(old(View()), device)) && DistinctIds(ps) ==>
        ReplacedIn(old(View()), View(), devices[device], ps)
      ensures !ok && old(Coherent(View(), devices[device])) && DistinctIds(ps) ==>
        (SameView(View(), old(View())) <==>
         && KnownOrNew(old(View()), devices[device], ps)
         && TakesNoOutsidePath(old(View()), devices[device], ps) && TakesNoEarlierPath(old(View()), devices[device], ps))
    {
      if ps == [] || device !in devices { return true; }
      var d := devices[device];
      var added, olds := ApplyReplacement(d, ps);
      if DistinctIds(Slice(old(View()), device)) && DistinctIds(ps) { ReplaceApplied(old(View()), d, ps); }
      ok := answer != Refused;
      if !ok {
        RevertReplace(d, added, olds);
        if old(Coherent(View(), devices[device])) && DistinctIds(ps) {
          ReplaceUndoneIff(old(View()), d, ps);
        }
      }
    }
  }
}
