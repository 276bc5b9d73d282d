/** The coherence the revert theorems start from: it holds of the empty index, applied mutations keep
    it under exact conditions on paths, and so does taking them back. */
module PointCoherence {
  import opened PointIndex
  import opened PointPaths
  import opened PointMutations

  lemma EmptyIsCoherent(d: Device)
    ensures Coherent(Index(map[], map[], map[]), d)
  {
    var ix := Index(map[], map[], map[]);
    forall path ensures Owned(ix, path) { }
    forall id ensures Filed(ix, id) && Found(ix, id) { }
  }

  lemma FrameSlices(a: Index, b: Index)
    requires SamePathsAndEntries(a, b) && Sound(a)
    ensures Sound(b) && (Complete(a) <==> Complete(b))
  {
    SoundFrame(a, b);
    if Complete(a) { CompleteFrame(a, b); }
    if Complete(b) { CompleteFrame(b, a); }
  }

  // ---------------------------------------------------------------- removal

  lemma {:induction false} RetainIds(s: seq<Point>, gone: set<int>)
    ensures IdSet(Retain(s, gone)) == IdSet(s) - gone
  {
    if s != [] {
      RetainIds(s[..|s| - 1], gone);
      IdSetSnoc(s);
      var kept := Retain(s[..|s| - 1], gone);
      if s[|s| - 1].id in gone { assert Retain(s, gone) == kept; } else { IdSetPlus(kept, s[|s| - 1]); }
    }
  }

  lemma {:induction false} RetainAre(s: seq<Point>, gone: set<int>)
    ensures forall k | 0 <= k < |Retain(s, gone)| :: Retain(s, gone)[k] in s
  {
    if s != [] {
      RetainAre(s[..|s| - 1], gone);
    }
  }

  lemma {:induction false} RetainFrom(s: seq<Point>, gone: set<int>)
    requires DistinctIds(s)
    ensures DistinctIds(Retain(s, gone)) && IdSet(Retain(s, gone)) == IdSet(s) - gone
    ensures forall k | 0 <= k < |Retain(s, gone)| :: Retain(s, gone)[k] in s
  {
    RetainIds(s, gone);
    RetainAre(s, gone);
    if s != [] {
      DistinctSnoc(s);
      var kept := Retain(s[..|s| - 1], gone);
      RetainFrom(s[..|s| - 1], gone);
      forall k | 0 <= k < |kept| ensures kept[k].id != s[|s| - 1].id { assert kept[k] in s[..|s| - 1]; }
    }
  }

  lemma RemoveKeepsCoherent(ix: Index, d: Device, ids: set<int>)
    requires Coherent(ix, d)
    ensures Coherent(ApplyRemove(ix, d, ids), d)
  {
    var s := Slice(ix, d.id);
    var start, removed, to := WithSlice(ix, d.id, Retain(s, ids)), Picked(s, ids), ApplyRemove(ix, d, ids);
    FrameSlices(ix, start);
    DropAllKeeps(start, removed);
    DropAllEntries(start, removed);
    RetainFrom(s, ids);
    var kept := Retain(s, ids);
    forall k | 0 <= k < |kept| ensures Held(to, d, kept[k]) {
      assert kept[k] in s;
      var i :| 0 <= i < |s| && s[i] == kept[k];
      assert Held(ix, d, s[i]);
      assert kept[k].id in IdSet(kept);
      if kept[k].id in IdSet(removed) {
        var j :| 0 <= j < |removed| && removed[j].id == kept[k].id;
        PickedFrom(s, ids, j);
      }
    }
  }

  /** A refused removal leaves the index coherent as well. */
  lemma RefusedRemovalKeepsCoherent(ix: Index, d: Device, ids: set<int>)
    requires Coherent(ix, d)
    ensures Coherent(UndoRemove(ApplyRemove(ix, d, ids), d, Picked(Slice(ix, d.id), ids), ids), d)
  {
    var s := Slice(ix, d.id);
    var back := UndoRemove(ApplyRemove(ix, d, ids), d, Picked(s, ids), ids);
    RemoveUndone(ix, d, ids);
    FrameSlices(ix, back);
    var t := Slice(back, d.id);
    SameElements(s, t);
    forall k | 0 <= k < |t| ensures Held(back, d, t[k]) {
      assert t[k] in multiset(t);
      assert t[k] in s;
      var i :| 0 <= i < |s| && s[i] == t[k];
      assert Held(ix, d, s[i]);
    }
  }

  lemma SameElements(s: seq<Point>, t: seq<Point>)
    requires multiset(s) == multiset(t) && DistinctIds(s)
    ensures DistinctIds(t)
  {
    forall i, j | 0 <= i < j < |t| ensures t[i].id != t[j].id {
      if t[i].id == t[j].id {
        assert t[i] in multiset(t) && t[j] in multiset(t);
        var a :| 0 <= a < |s| && s[a] == t[i];
        var b :| 0 <= b < |s| && s[b] == t[j];
        assert a == b;
        TwiceCounted(t, i, j);
        OnceCounted(s, a);
        assert false;
      }
    }
  }

  lemma TwiceCounted(t: seq<Point>, i: int, j: int)
    requires 0 <= i < j < |t| && t[i] == t[j]
    ensures multiset(t)[t[i]] >= 2
  {
    assert t == t[..i] + [t[i]] + t[i + 1..j] + [t[j]] + t[j + 1..];
  }

  lemma OnceCounted(s: seq<Point>, a: int)
    requires DistinctIds(s) && 0 <= a < |s|
    ensures multiset(s)[s[a]] == 1
  {
    assert s == s[..a] + [s[a]] + s[a + 1..];
    assert s[a] !in s[..a] && s[a] !in s[a + 1..];
  }

  // ---------------------------------------------------------------- addition

  ghost predicate DistinctPaths(d: Device, ps: seq<Point>) {
    forall i, j | 0 <= i < j < |ps| :: NewPath(d, ps[j]) != NewPath(d, ps[i])
  }

  ghost predicate AllNew(ix: Index, d: Device, ps: seq<Point>) {
    DistinctIds(ps) && forall i | 0 <= i < |ps| :: NewPoint(ix, d, ps[i])
  }

  lemma NewPathsFree(ix: Index, d: Device, ps: seq<Point>)
    requires Complete(ix) && AllNew(ix, d, ps)
    ensures TakesNoOutsidePath(ix, d, ps) && (LaterSpareEarlier(ix, d, ps) <==> DistinctPaths(d, ps))
  {
    forall i, id | 0 <= i < |ps| && id in ix.entries && id !in IdSet(ps) ensures PathOf(ix.entries[id]) != NewPath(d, ps[i]) {
      assert Found(ix, id);
      assert NewPoint(ix, d, ps[i]);
    }
    forall i, j | 0 <= i < j < |ps| ensures Spares(ix, d, ps[j], NewPath(d, ps[i])) <==> NewPath(d, ps[j]) != NewPath(d, ps[i]) {
      assert NewPoint(ix, d, ps[j]);
    }
  }

  /** Adding new points keeps the index coherent exactly when their paths are distinct. */
  lemma AddKeepsCoherentIff(ix: Index, d: Device, ps: seq<Point>)
    requires Coherent(ix, d) && AllNew(ix, d, ps)
    ensures Coherent(ApplyAdd(ix, d, ps), d) <==> DistinctPaths(d, ps)
  {
    var up, to := UpsertAll(ix, d, ps), ApplyAdd(ix, d, ps);
    UpsertAllSound(ix, d, ps);
    UpsertAllEntries(ix, d, ps);
    FrameSlices(up, to);
    NewPathsFree(ix, d, ps);
    BatchKeepsCompleteIff(ix, d, ps);
    AddedHeld(ix, d, ps);
  }

  lemma AddedHeld(ix: Index, d: Device, ps: seq<Point>)
    requires Coherent(ix, d) && AllNew(ix, d, ps)
    ensures var t := Slice(ApplyAdd(ix, d, ps), d.id);
            DistinctIds(t) && forall k | 0 <= k < |t| :: Held(ApplyAdd(ix, d, ps), d, t[k])
  {
    var s, to := Slice(ix, d.id), ApplyAdd(ix, d, ps);
    UpsertAllEntries(ix, d, ps);
    var t := s + ps;
    assert Slice(to, d.id) == t;
    forall i, j | 0 <= i < j < |t| ensures t[i].id != t[j].id {
      if i < |s| <= j {
        assert NewPoint(ix, d, ps[j - |s|]);
        assert s[i].id in IdSet(s);
      }
    }
    forall k | 0 <= k < |t| ensures Held(to, d, t[k]) {
      if k < |s| {
        assert Held(ix, d, s[k]);
        assert s[k].id in UpsertAll(ix, d, ps).entries.Keys;
      } else {
        BatchEntry(ix, d, ps, k - |s|);
      }
    }
  }

  // ---------------------------------------------------------------- update

  lemma UpdatedDistinct(s: seq<Point>, ps: seq<Point>)
    requires DistinctIds(s) && DistinctIds(ps)
    ensures DistinctIds(ReplaceAll(s, ps))
  {
    var t := ReplaceAll(s, ps);
    BatchShape(s, ps);
    AddedFrom(s, ps);
    HeadShape(s, ps, Added(s, ps), t);
    var head, added := t[..|s|], Added(s, ps);
    assert t == head + added;
    forall i, j | 0 <= i < j < |t| ensures t[i].id != t[j].id {
      if j < |s| {
        assert head[i].id != head[j].id;
      } else if i >= |s| {
        assert added[i - |s|].id != added[j - |s|].id;
      } else {
        assert KeepsPlace(s, ps, t, i);
        assert s[i].id in IdSet(s) && added[j - |s|].id in IdSet(added);
      }
    }
  }

  lemma UpdatedHeld(ix: Index, d: Device, ps: seq<Point>, k: int)
    requires Coherent(ix, d) && DistinctIds(ps) && 0 <= k < |ReplaceAll(Slice(ix, d.id), ps)|
    ensures Held(UpsertAll(ix, d, ps), d, ReplaceAll(Slice(ix, d.id), ps)[k])
  {
    var s := Slice(ix, d.id);
    var t := ReplaceAll(s, ps);
    BatchShape(s, ps);
    UpsertAllEntries(ix, d, ps);
    if k < |s| && s[k].id !in IdSet(ps) {
      assert KeepsPlace(s, ps, t, k);
      assert Held(ix, d, s[k]);
      assert s[k].id in UpsertAll(ix, d, ps).entries.Keys;
    } else {
      if k < |s| {
        assert KeepsPlace(s, ps, t, k);
      } else {
        AddedFrom(s, ps);
        assert t[k] == t[|s|..][k - |s|];
      }
      assert t[k] in ps;
      var i :| 0 <= i < |ps| && ps[i] == t[k];
      BatchEntry(ix, d, ps, i);
    }
  }

  /** An applied update keeps the index coherent exactly when the batch takes no path of a point
      outside it and no later point of it takes or frees the path an earlier one was given. */
  lemma ReplaceKeepsCoherentIff(ix: Index, d: Device, ps: seq<Point>)
    requires Coherent(ix, d) && DistinctIds(ps)
    ensures Coherent(ApplyReplace(ix, d, ps), d) <==> TakesNoOutsidePath(ix, d, ps) && LaterSpareEarlier(ix, d, ps)
  {
    var s, up, to := Slice(ix, d.id), UpsertAll(ix, d, ps), ApplyReplace(ix, d, ps);
    AppliedIs(ix, d, ps);
    UpsertAllSound(ix, d, ps);
    FrameSlices(up, to);
    BatchKeepsCompleteIff(ix, d, ps);
    UpdatedDistinct(s, ps);
    var t := ReplaceAll(s, ps);
    assert Slice(to, d.id) == t;
    forall k | 0 <= k < |t| ensures Held(to, d, t[k]) { UpdatedHeld(ix, d, ps, k); }
  }

  // ---------------------------------------------------------------- steps

  datatype Mutation = Add(ps: seq<Point>) | Update(ps: seq<Point>) | Remove(ids: set<int>)

  datatype Step = Step(mutation: Mutation, refused: bool)

  /** New ids and free paths, as the tables hand them out. */
  ghost predicate Allowed(ix: Index, d: Device, step: Step) {
    match step.mutation
    case Add(ps) => AllNew(ix, d, ps) && DistinctPaths(d, ps)
    case Update(ps) =>
      && DistinctIds(ps) && KnownOrNew(ix, d, ps) && TakesNoOutsidePath(ix, d, ps)
      && (if step.refused then TakesNoEarlierPath(ix, d, ps) else LaterSpareEarlier(ix, d, ps))
    case Remove(_) => true
  }

  function After(ix: Index, d: Device, step: Step): Index {
    match step.mutation
    case Add(ps) =>
      var to := ApplyAdd(ix, d, ps);
      if step.refused then UndoAdd(to, d, ps) else to
    case Update(ps) =>
      var to := ApplyReplace(ix, d, ps);
      if step.refused then UndoReplace(to, d, Added(Slice(ix, d.id), ps), Replaced(Slice(ix, d.id), ps)) else to
    case Remove(ids) =>
      var to := ApplyRemove(ix, d, ids);
      if step.refused then UndoRemove(to, d, Picked(Slice(ix, d.id), ids), ids) else to
  }

  lemma SameViewCoherent(ix: Index, back: Index, d: Device)
    requires Coherent(ix, d) && SameView(back, ix)
    ensures Coherent(back, d)
  {
    FrameSlices(ix, back);
    assert Slice(back, d.id) == Slice(ix, d.id);
    forall k | 0 <= k < |Slice(back, d.id)| ensures Held(back, d, Slice(back, d.id)[k]) { assert Held(ix, d, Slice(ix, d.id)[k]); }
  }

  lemma StepKeepsCoherent(ix: Index, d: Device, step: Step)
    requires Coherent(ix, d) && Allowed(ix, d, step)
    ensures Coherent(After(ix, d, step), d)
  {
    match step.mutation {
      case Add(ps) =>
        AddKeepsCoherentIff(ix, d, ps);
        AddUndoneIff(ix, d, ps);
        if step.refused { SameViewCoherent(ix, After(ix, d, step), d); }
      case Update(ps) =>
        ReplaceKeepsCoherentIff(ix, d, ps);
        ReplaceUndoneIff(ix, d, ps);
        if step.refused { SameViewCoherent(ix, After(ix, d, step), d); }
      case Remove(ids) =>
        RemoveKeepsCoherent(ix, d, ids);
        RefusedRemovalKeepsCoherent(ix, d, ids);
    }
  }
}
