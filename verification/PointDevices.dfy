/** All devices at once: each keeps its own points, whichever device is mutated, and the one thing that
    breaks this beside a path clash is an update that moves a point from one device to another. */
module PointDevices {
  import opened PointIndex
  import opened PointPaths
  import opened PointMutations
  import opened PointCoherence

  ghost predicate Apart(ix: Index, j: int, k: int) { IdSet(Slice(ix, j)) !! IdSet(Slice(ix, k)) }

  ghost predicate Listed(ix: Index, devices: map<int, Device>, id: int) {
    id in ix.entries ==> exists k :: k in devices && id in IdSet(Slice(ix, k))
  }

  ghost predicate Own(ix: Index, devices: map<int, Device>, k: int)
    requires k in devices
  {
    devices[k].id == k && Coherent(ix, devices[k])
  }

  /** Every device's points are coherent, no point is listed twice, and no entry is left unlisted. */
  ghost predicate AllCoherent(ix: Index, devices: map<int, Device>) {
    && (forall k | k in devices :: Own(ix, devices, k))
    && (forall j, k | j in devices && k in devices && j != k :: Apart(ix, j, k))
    && (forall id :: Listed(ix, devices, id))
  }

  /** What a mutation of `d` does to the device `k`. */
  ghost predicate Spared(ix: Index, to: Index, d: Device, k: int) {
    && Slice(to, k) == Slice(ix, k) && Apart(to, d.id, k)
    && forall id | id in IdSet(Slice(ix, k)) :: SameAt(to.entries, ix.entries, id)
  }

  /** Each entry belongs to the mutated device, or is one of the others' as before. */
  ghost predicate OwnedOrOther(ix: Index, to: Index, d: Device, id: int) {
    id in to.entries ==> id in IdSet(Slice(to, d.id)) || (id in ix.entries && id !in IdSet(Slice(ix, d.id)))
  }

  lemma SparedIsCoherent(ix: Index, to: Index, d: Device, other: Device)
    requires Coherent(ix, other) && Sound(to) && Complete(to) && Spared(ix, to, d, other.id)
    ensures Coherent(to, other)
  {
    var s := Slice(ix, other.id);
    forall k | 0 <= k < |s| ensures Held(to, other, s[k]) {
      assert Held(ix, other, s[k]);
      assert s[k].id in IdSet(s);
      assert SameAt(to.entries, ix.entries, s[k].id);
    }
  }

  lemma StillListed(ix: Index, to: Index, devices: map<int, Device>, d: Device, id: int)
    requires AllCoherent(ix, devices) && d.id in devices
    requires forall k | k in devices && k != d.id :: Spared(ix, to, d, k)
    requires OwnedOrOther(ix, to, d, id)
    ensures Listed(to, devices, id)
  {
    if id in to.entries && id !in IdSet(Slice(to, d.id)) {
      assert Listed(ix, devices, id);
      var k :| k in devices && id in IdSet(Slice(ix, k));
      assert Spared(ix, to, d, k);
    }
  }

  /** A mutation that leaves its own device coherent and spares the others keeps all of them. */
  lemma SparingKeepsAll(ix: Index, to: Index, devices: map<int, Device>, d: Device)
    requires AllCoherent(ix, devices) && d.id in devices && devices[d.id] == d && Coherent(to, d)
    requires forall k | k in devices && k != d.id :: Spared(ix, to, d, k)
    requires forall id :: OwnedOrOther(ix, to, d, id)
    ensures AllCoherent(to, devices)
  {
    forall k | k in devices ensures Own(to, devices, k) {
      assert Own(ix, devices, k);
      if k != d.id { SparedIsCoherent(ix, to, d, devices[k]); }
    }
    forall j, k | j in devices && k in devices && j != k ensures Apart(to, j, k) {
      assert Apart(ix, j, k);
      if j != d.id { assert Spared(ix, to, d, j); }
      if k != d.id { assert Spared(ix, to, d, k); }
    }
    forall id ensures Listed(to, devices, id) { StillListed(ix, to, devices, d, id); }
  }

  lemma SameViewKeepsAll(ix: Index, to: Index, devices: map<int, Device>)
    requires AllCoherent(ix, devices) && SameView(to, ix)
    ensures AllCoherent(to, devices)
  {
    forall k | k in devices ensures Own(to, devices, k) {
      assert Own(ix, devices, k);
      SameViewCoherent(ix, to, devices[k]);
    }
    forall j, k | j in devices && k in devices && j != k ensures Apart(to, j, k) {
      assert Apart(ix, j, k);
      assert Slice(to, j) == Slice(ix, j) && Slice(to, k) == Slice(ix, k);
    }
    forall id ensures Listed(to, devices, id) {
      assert Listed(ix, devices, id);
      if id in to.entries {
        var k :| k in devices && id in IdSet(Slice(ix, k));
        assert Slice(to, k) == Slice(ix, k);
      }
    }
  }

  lemma EmptyIsAllCoherent(devices: map<int, Device>)
    requires forall k | k in devices :: devices[k].id == k
    ensures AllCoherent(Index(map[], map[], map[]), devices)
  {
    var ix := Index(map[], map[], map[]);
    forall k | k in devices ensures Own(ix, devices, k) { EmptyIsCoherent(devices[k]); }
    forall j, k | j in devices && k in devices && j != k ensures Apart(ix, j, k) { }
    forall id ensures Listed(ix, devices, id) { }
  }

  // ---------------------------------------------------------------- one mutation

  lemma ListedHasEntry(ix: Index, d: Device, id: int)
    requires Coherent(ix, d) && id in IdSet(Slice(ix, d.id))
    ensures id in ix.entries
  {
    if id !in ix.entries { MissingIsIncoherent(ix, d, id); }
  }

  /** A point that is new, or known to its own device, is on no other device's list. */
  lemma NotOfOthers(ix: Index, devices: map<int, Device>, d: Device, k: int, id: int)
    requires AllCoherent(ix, devices) && d.id in devices && k in devices && k != d.id
    requires id in IdSet(Slice(ix, d.id)) || id !in ix.entries
    ensures id !in IdSet(Slice(ix, k))
  {
    assert Apart(ix, d.id, k);
    assert Own(ix, devices, k);
    if id in IdSet(Slice(ix, k)) { ListedHasEntry(ix, devices[k], id); }
  }

  /** Writing a batch into the device's list and the entries, when each of its points is its own or new. */
  lemma WritingSpares(ix: Index, to: Index, devices: map<int, Device>, d: Device, ps: seq<Point>)
    requires AllCoherent(ix, devices) && d.id in devices && devices[d.id] == d && KnownOrNew(ix, d, ps)
    requires to.entries.Keys == ix.entries.Keys + IdSet(ps)
    requires forall id | id in ix.entries && id !in IdSet(ps) :: to.entries[id] == ix.entries[id]
    requires IdSet(Slice(to, d.id)) == IdSet(Slice(ix, d.id)) + IdSet(ps)
    requires forall k | k != d.id :: Slice(to, k) == Slice(ix, k)
    requires Coherent(to, d)
    ensures AllCoherent(to, devices)
  {
    forall k | k in devices && k != d.id ensures Spared(ix, to, d, k) {
      forall id | id in IdSet(ps) + IdSet(Slice(ix, d.id)) ensures id !in IdSet(Slice(ix, k)) {
        if id !in IdSet(Slice(ix, d.id)) { var i :| 0 <= i < |ps| && ps[i].id == id; }
        NotOfOthers(ix, devices, d, k, id);
      }
      assert Own(ix, devices, k);
      forall id | id in IdSet(Slice(ix, k)) ensures SameAt(to.entries, ix.entries, id) {
        ListedHasEntry(ix, devices[k], id);
        assert id in to.entries.Keys;
      }
    }
    forall id ensures OwnedOrOther(ix, to, d, id) {
      assert id in to.entries <==> id in to.entries.Keys;
    }
    SparingKeepsAll(ix, to, devices, d);
  }

  lemma AddKeepsAll(ix: Index, devices: map<int, Device>, d: Device, ps: seq<Point>)
    requires AllCoherent(ix, devices) && d.id in devices && devices[d.id] == d
    requires AllNew(ix, d, ps) && DistinctPaths(d, ps)
    ensures AllCoherent(ApplyAdd(ix, d, ps), devices)
  {
    assert Own(ix, devices, d.id);
    AddKeepsCoherentIff(ix, d, ps);
    UpsertAllEntries(ix, d, ps);
    IdSetAppend(Slice(ix, d.id), ps);
    assert KnownOrNew(ix, d, ps) by {
      forall i | 0 <= i < |ps| ensures ps[i].id !in ix.entries { assert NewPoint(ix, d, ps[i]); }
    }
    WritingSpares(ix, ApplyAdd(ix, d, ps), devices, d, ps);
  }

  lemma UpdatedIds(ix: Index, d: Device, ps: seq<Point>)
    requires DistinctIds(Slice(ix, d.id)) && DistinctIds(ps)
    ensures IdSet(Slice(ApplyReplace(ix, d, ps), d.id)) == IdSet(Slice(ix, d.id)) + IdSet(ps)
  {
    var s := Slice(ix, d.id);
    AppliedIs(ix, d, ps);
    BatchShape(s, ps);
    ShapeIds(s, ps, Added(s, ps), ReplaceAll(s, ps));
  }

  /** The device that lists a point the updated one does not know. */
  lemma ListedElsewhere(ix: Index, devices: map<int, Device>, d: Device, ps: seq<Point>) returns (i: int, k: int)
    requires AllCoherent(ix, devices) && !KnownOrNew(ix, d, ps)
    ensures 0 <= i < |ps| && ps[i].id !in IdSet(Slice(ix, d.id))
    ensures k in devices && k != d.id && ps[i].id in IdSet(Slice(ix, k))
  {
    i :| 0 <= i < |ps| && ps[i].id !in IdSet(Slice(ix, d.id)) && ps[i].id in ix.entries;
    assert Listed(ix, devices, ps[i].id);
    k :| k in devices && ps[i].id in IdSet(Slice(ix, k));
  }

  lemma UpdateKeepsAllIff(ix: Index, devices: map<int, Device>, d: Device, ps: seq<Point>)
    requires AllCoherent(ix, devices) && d.id in devices && devices[d.id] == d && DistinctIds(ps)
    ensures AllCoherent(ApplyReplace(ix, d, ps), devices) <==>
            KnownOrNew(ix, d, ps) && TakesNoOutsidePath(ix, d, ps) && LaterSpareEarlier(ix, d, ps)
  {
    var to := ApplyReplace(ix, d, ps);
    assert Own(ix, devices, d.id);
    ReplaceKeepsCoherentIff(ix, d, ps);
    AppliedIs(ix, d, ps);
    UpdatedIds(ix, d, ps);
    if KnownOrNew(ix, d, ps) {
      UpsertAllEntries(ix, d, ps);
      if Coherent(to, d) { WritingSpares(ix, to, devices, d, ps); }
    } else {
      var i, k := ListedElsewhere(ix, devices, d, ps);
      assert ps[i].id in IdSet(ps);
      assert !Apart(to, d.id, k);
    }
    if AllCoherent(to, devices) { assert Own(to, devices, d.id); }
  }

  lemma RefusedUpdateKeepsAllIff(ix: Index, devices: map<int, Device>, d: Device, ps: seq<Point>)
    requires AllCoherent(ix, devices) && d.id in devices && devices[d.id] == d && DistinctIds(ps)
    ensures AllCoherent(After(ix, d, Step(Update(ps), true)), devices) <==>
            KnownOrNew(ix, d, ps) && TakesNoOutsidePath(ix, d, ps) && TakesNoEarlierPath(ix, d, ps)
  {
    var s := Slice(ix, d.id);
    var back := After(ix, d, Step(Update(ps), true));
    assert Own(ix, devices, d.id);
    ReplaceUndoneIff(ix, d, ps);
    if SameView(back, ix) { SameViewKeepsAll(ix, back, devices); }
    if AllCoherent(back, devices) {
      if KnownOrNew(ix, d, ps) {
        AppliedIs(ix, d, ps);
        UndoSeparates(ApplyReplace(ix, d, ps), UpsertAll(ix, d, ps), d, Added(s, ps), Replaced(s, ps));
        assert Own(back, devices, d.id);
        CompleteFrame(back, Reverted(ix, d, ps));
        CompleteReverts(ix, d, ps);
      } else {
        var i, k := ListedElsewhere(ix, devices, d, ps);
        assert Own(ix, devices, k) && Own(back, devices, k);
        RefusedMoveLosesEntry(ix, d, devices[k], ps, i);
      }
    }
  }

  lemma RemoveKeepsAll(ix: Index, devices: map<int, Device>, d: Device, ids: set<int>)
    requires AllCoherent(ix, devices) && d.id in devices && devices[d.id] == d
    ensures AllCoherent(ApplyRemove(ix, d, ids), devices)
  {
    var s, to := Slice(ix, d.id), ApplyRemove(ix, d, ids);
    assert Own(ix, devices, d.id);
    RemoveKeepsCoherent(ix, d, ids);
    DropAllEntries(WithSlice(ix, d.id, Retain(s, ids)), Picked(s, ids));
    RetainFrom(s, ids);
    PickedIds(s, ids);
    forall k | k in devices && k != d.id ensures Spared(ix, to, d, k) {
      assert Apart(ix, d.id, k);
    }
    SparingKeepsAll(ix, to, devices, d);
  }

  lemma SameMultisetIds(s: seq<Point>, t: seq<Point>)
    requires multiset(s) == multiset(t)
    ensures IdSet(s) <= IdSet(t)
  {
    forall id | id in IdSet(s) ensures id in IdSet(t) {
      var i :| 0 <= i < |s| && s[i].id == id;
      assert s[i] in multiset(s);
      assert s[i] in t;
      var j :| 0 <= j < |t| && t[j] == s[i];
      assert t[j].id == id;
    }
  }

  lemma RefusedRemovalKeepsAll(ix: Index, devices: map<int, Device>, d: Device, ids: set<int>)
    requires AllCoherent(ix, devices) && d.id in devices && devices[d.id] == d
    ensures AllCoherent(After(ix, d, Step(Remove(ids), true)), devices)
  {
    var back := After(ix, d, Step(Remove(ids), true));
    assert Own(ix, devices, d.id);
    RefusedRemovalKeepsCoherent(ix, d, ids);
    RemoveUndone(ix, d, ids);
    SameMultisetIds(Slice(ix, d.id), Slice(back, d.id));
    SameMultisetIds(Slice(back, d.id), Slice(ix, d.id));
    forall k | k in devices && k != d.id ensures Spared(ix, back, d, k) {
      assert Apart(ix, d.id, k);
    }
    SparingKeepsAll(ix, back, devices, d);
  }

  // ---------------------------------------------------------------- runs

  lemma StepKeepsAll(ix: Index, devices: map<int, Device>, d: Device, step: Step)
    requires AllCoherent(ix, devices) && d.id in devices && devices[d.id] == d && Allowed(ix, d, step)
    ensures AllCoherent(After(ix, d, step), devices)
  {
    match step.mutation {
      case Add(ps) =>
        assert Own(ix, devices, d.id);
        AddUndoneIff(ix, d, ps);
        if step.refused { SameViewKeepsAll(ix, After(ix, d, step), devices); } else { AddKeepsAll(ix, devices, d, ps); }
      case Update(ps) =>
        if step.refused { RefusedUpdateKeepsAllIff(ix, devices, d, ps); } else { UpdateKeepsAllIff(ix, devices, d, ps); }
      case Remove(ids) =>
        if step.refused { RefusedRemovalKeepsAll(ix, devices, d, ids); } else { RemoveKeepsAll(ix, devices, d, ids); }
    }
  }

  datatype Mutated = Mutated(device: int, step: Step)

  ghost predicate Goes(ix: Index, to: Index, devices: map<int, Device>, m: Mutated) {
    m.device in devices && Allowed(ix, devices[m.device], m.step) && to == After(ix, devices[m.device], m.step)
  }

  /** A run of mutations of any of the devices, from the empty index. */
  ghost predicate Run(states: seq<Index>, devices: map<int, Device>, ms: seq<Mutated>) {
    && (forall k | k in devices :: devices[k].id == k)
    && |states| == |ms| + 1 && states[0] == Index(map[], map[], map[])
    && forall k | 0 <= k < |ms| :: Goes(states[k], states[k + 1], devices, ms[k])
  }

  /** In every run of applied and refused mutations all devices stay coherent. */
  lemma {:induction false} CoherentAlways(states: seq<Index>, devices: map<int, Device>, ms: seq<Mutated>, k: nat)
    requires Run(states, devices, ms) && k <= |ms|
    ensures AllCoherent(states[k], devices)
  {
    if k == 0 {
      EmptyIsAllCoherent(devices);
    } else {
      var i := k - 1;
      CoherentAlways(states, devices, ms, i);
      assert Goes(states[i], states[i + 1], devices, ms[i]);
      StepKeepsAll(states[i], devices, devices[ms[i].device], ms[i].step);
    }
  }
}
