/** Grouping of a channel's devices into driver calls (`build_device_entries`,
    `build_group_calls`). */
module GroupCalls {
  import opened Collections
  import opened Filters
  import opened StableSort

  /** A collectable device with the group key its driver gives it, if any. */
  datatype Entry = Entry(device: int, key: Option<int>, points: seq<int>)

  const ByDevice: Entry -> int := (e: Entry) => e.device

  // ---------------------------------------------------------------- what a grouping is

  function Keyed(entries: seq<Entry>, k: int): seq<Entry> {
    if entries == [] then [] else
      var last := entries[|entries| - 1];
      Keyed(entries[..|entries| - 1], k) + (if last.key == Some(k) then [last] else [])
  }

  function Keyless(entries: seq<Entry>): seq<Entry> {
    if entries == [] then [] else
      var last := entries[|entries| - 1];
      Keyless(entries[..|entries| - 1]) + (if last.key == None then [last] else [])
  }

  ghost predicate Distinct(ks: seq<int>) {
    forall i, j | 0 <= i < j < |ks| :: ks[i] != ks[j]
  }

  ghost predicate HasKey(entries: seq<Entry>, k: int) {
    exists e :: e in entries && e.key == Some(k)
  }

  /** The distinct keys, in the order the hash map yields them. */
  ghost predicate KeyOrder(entries: seq<Entry>, ks: seq<int>) {
    (forall k :: k in ks <==> HasKey(entries, k)) && Distinct(ks)
  }

  ghost function WithKeyOf(k: Option<int>): Entry -> bool { (e: Entry) => e.key == k }

  /** The entries with one key, and those without any, all of them and in their order. */
  lemma {:induction false} KeyedIs(entries: seq<Entry>, k: int)
    ensures IsFilter(entries, WithKeyOf(Some(k)), Keyed(entries, k))
    ensures IsFilter(entries, WithKeyOf(None), Keyless(entries))
  {
    if entries == [] {
      FilterNone(WithKeyOf(Some(k)));
      FilterNone(WithKeyOf(None));
    } else {
      var init, last := entries[..|entries| - 1], entries[|entries| - 1];
      KeyedIs(init, k);
      FilterSnoc(init, last, WithKeyOf(Some(k)), Keyed(init, k), entries, Keyed(entries, k));
      FilterSnoc(init, last, WithKeyOf(None), Keyless(init), entries, Keyless(entries));
    }
  }

  function KeyedGroups(entries: seq<Entry>, ks: seq<int>): seq<seq<Entry>> {
    if ks == [] then [] else
      KeyedGroups(entries, ks[..|ks| - 1]) + [SortByKey(Keyed(entries, ks[|ks| - 1]), ByDevice)]
  }

  function Singletons(es: seq<Entry>): (r: seq<seq<Entry>>)
    ensures |r| == |es| && forall i | 0 <= i < |es| :: r[i] == [es[i]]
  {
    seq(|es|, i requires 0 <= i < |es| => [es[i]])
  }

  function Groups(entries: seq<Entry>, ks: seq<int>): seq<seq<Entry>> {
    KeyedGroups(entries, ks) + Singletons(Keyless(entries))
  }

  // ---------------------------------------------------------------- exact partition

  function Flatten(gs: seq<seq<Entry>>): seq<Entry> {
    if gs == [] then [] else Flatten(gs[..|gs| - 1]) + gs[|gs| - 1]
  }

  lemma {:induction false} FlattenAppend(gs: seq<seq<Entry>>, hs: seq<seq<Entry>>)
    ensures Flatten(gs + hs) == Flatten(gs) + Flatten(hs)
  {
    if hs == [] {
      assert gs + hs == gs;
    } else {
      assert (gs + hs)[..|gs + hs| - 1] == gs + hs[..|hs| - 1];
      FlattenAppend(gs, hs[..|hs| - 1]);
    }
  }

  lemma {:induction false} FlattenSingletons(es: seq<Entry>)
    ensures Flatten(Singletons(es)) == es
  {
    if es != [] {
      assert Singletons(es)[..|es| - 1] == Singletons(es[..|es| - 1]);
      FlattenSingletons(es[..|es| - 1]);
      assert es == es[..|es| - 1] + [es[|es| - 1]];
    }
  }

  lemma {:induction false} KeyedCount(entries: seq<Entry>, k: int, e: Entry)
    ensures multiset(Keyed(entries, k))[e] == if e.key == Some(k) then multiset(entries)[e] else 0
  {
    if entries != [] {
      assert entries == entries[..|entries| - 1] + [entries[|entries| - 1]];
      KeyedCount(entries[..|entries| - 1], k, e);
    }
  }

  lemma {:induction false} KeylessCount(entries: seq<Entry>, e: Entry)
    ensures multiset(Keyless(entries))[e] == if e.key == None then multiset(entries)[e] else 0
  {
    if entries != [] {
      assert entries == entries[..|entries| - 1] + [entries[|entries| - 1]];
      KeylessCount(entries[..|entries| - 1], e);
    }
  }

  lemma {:induction false} KeyedGroupsCount(entries: seq<Entry>, ks: seq<int>, e: Entry)
    requires Distinct(ks)
    ensures multiset(Flatten(KeyedGroups(entries, ks)))[e] ==
      if e.key.Some? && e.key.value in ks then multiset(entries)[e] else 0
  {
    if ks != [] {
      var init, k := ks[..|ks| - 1], ks[|ks| - 1];
      assert ks == init + [k];
      KeyedGroupsCount(entries, init, e);
      KeyedCount(entries, k, e);
      var gs, g := KeyedGroups(entries, init), SortByKey(Keyed(entries, k), ByDevice);
      assert (gs + [g])[..|gs|] == gs;
      assert Flatten(gs + [g]) == Flatten(gs) + g;
    }
  }

  lemma PartitionCount(entries: seq<Entry>, ks: seq<int>, e: Entry)
    requires Distinct(ks) && (e in entries && e.key.Some? ==> e.key.value in ks)
    ensures multiset(Flatten(Groups(entries, ks)))[e] == multiset(entries)[e]
  {
    var keyed, single := KeyedGroups(entries, ks), Singletons(Keyless(entries));
    FlattenAppend(keyed, single);
    FlattenSingletons(Keyless(entries));
    KeyedGroupsCount(entries, ks, e);
    KeylessCount(entries, e);
    assert multiset(Flatten(keyed + single)) == multiset(Flatten(keyed)) + multiset(Keyless(entries));
  }

  /** Every entry lands in exactly one call. */
  lemma GroupsPartition(entries: seq<Entry>, ks: seq<int>)
    requires KeyOrder(entries, ks)
    ensures multiset(Flatten(Groups(entries, ks))) == multiset(entries)
  {
    forall e ensures multiset(Flatten(Groups(entries, ks)))[e] == multiset(entries)[e] {
      if e in entries && e.key.Some? { assert HasKey(entries, e.key.value); }
      PartitionCount(entries, ks, e);
    }
  }

  // ---------------------------------------------------------------- who shares a call

  lemma {:induction false} KeyedGroupsAt(entries: seq<Entry>, ks: seq<int>)
    ensures |KeyedGroups(entries, ks)| == |ks|
    ensures forall i | 0 <= i < |ks| :: KeyedGroups(entries, ks)[i] == SortByKey(Keyed(entries, ks[i]), ByDevice)
  {
    if ks != [] { KeyedGroupsAt(entries, ks[..|ks| - 1]); }
  }

  lemma KeyedGroupHas(entries: seq<Entry>, k: int, e: Entry)
    ensures e in SortByKey(Keyed(entries, k), ByDevice) <==> e in entries && e.key == Some(k)
  {
    KeyedCount(entries, k, e);
    assert e in SortByKey(Keyed(entries, k), ByDevice) <==> e in multiset(SortByKey(Keyed(entries, k), ByDevice));
  }

  ghost predicate ShareCall(gs: seq<seq<Entry>>, a: Entry, b: Entry) {
    exists g :: g in gs && a in g && b in g
  }

  lemma GroupShape(entries: seq<Entry>, ks: seq<int>, g: seq<Entry>)
    requires KeyOrder(entries, ks) && g in Groups(entries, ks)
    ensures (exists k :: k in ks && g == SortByKey(Keyed(entries, k), ByDevice))
         || (exists e :: e in entries && e.key == None && g == [e])
  {
    KeyedGroupsAt(entries, ks);
    var i :| 0 <= i < |Groups(entries, ks)| && Groups(entries, ks)[i] == g;
    if i < |ks| {
      assert ks[i] in ks && g == SortByKey(Keyed(entries, ks[i]), ByDevice);
    } else {
      var e := Keyless(entries)[i - |ks|];
      KeylessCount(entries, e);
      assert e in multiset(Keyless(entries));
      assert e in entries && e.key == None && g == [e];
    }
  }

  /** Two keyed entries share a call if and only if their keys are equal. */
  lemma SharedIffSameKey(entries: seq<Entry>, ks: seq<int>, a: Entry, b: Entry)
    requires KeyOrder(entries, ks) && a in entries && b in entries && a.key.Some? && b.key.Some?
    ensures ShareCall(Groups(entries, ks), a, b) <==> a.key == b.key
  {
    if g :| g in Groups(entries, ks) && a in g && b in g {
      GroupShape(entries, ks, g);
      if k :| k in ks && g == SortByKey(Keyed(entries, k), ByDevice) {
        KeyedGroupHas(entries, k, a);
        KeyedGroupHas(entries, k, b);
      }
    }
    if a.key == b.key {
      var k := a.key.value;
      assert HasKey(entries, k);
      var i :| 0 <= i < |ks| && ks[i] == k;
      KeyedGroupsAt(entries, ks);
      KeyedGroupHas(entries, k, a);
      KeyedGroupHas(entries, k, b);
      assert Groups(entries, ks)[i] in Groups(entries, ks);
    }
  }

  /** An entry without a key is alone, and every call is ordered by device id. */
  lemma CallsAreOrdered(entries: seq<Entry>, ks: seq<int>, g: seq<Entry>)
    requires KeyOrder(entries, ks) && g in Groups(entries, ks)
    ensures Ascending(g, ByDevice) && g != []
    ensures (exists e :: e in g && e.key == None) ==> |g| == 1
  {
    GroupShape(entries, ks, g);
    if k :| k in ks && g == SortByKey(Keyed(entries, k), ByDevice) {
      SortIsStable(Keyed(entries, k), ByDevice);
      assert HasKey(entries, k);
      var e :| e in entries && e.key == Some(k);
      KeyedGroupHas(entries, k, e);
      forall x | x in g ensures x.key == Some(k) { KeyedGroupHas(entries, k, x); }
    }
  }

  function KeySet(entries: seq<Entry>): set<int> {
    set e | e in entries && e.key.Some? :: e.key.value
  }

  lemma KeySetOfOrder(entries: seq<Entry>, ks: seq<int>)
    requires KeyOrder(entries, ks)
    ensures KeySet(entries) == set k | k in ks
  {
    forall k | k in KeySet(entries) ensures k in ks {
      var e :| e in entries && e.key == Some(k);
      assert HasKey(entries, k);
    }
    forall k | k in ks ensures k in KeySet(entries) {
      assert HasKey(entries, k);
      var e :| e in entries && e.key == Some(k);
      assert e.key.value == k;
    }
  }

  /** The number of calls is the number of distinct keys plus the number of keyless entries. */
  lemma CallCount(entries: seq<Entry>, ks: seq<int>)
    requires KeyOrder(entries, ks)
    ensures |Groups(entries, ks)| == |KeySet(entries)| + |Keyless(entries)|
  {
    KeyedGroupsAt(entries, ks);
    KeySetOfOrder(entries, ks);
    DistinctCount(ks);
  }

  /** The calls for a key come first, one for each key, and then those for one device each, in the order of
      the entries. */
  lemma CallsAt(entries: seq<Entry>, ks: seq<int>, i: nat)
    requires KeyOrder(entries, ks) && i < |Groups(entries, ks)|
    ensures if i < |ks| then forall e | e in Groups(entries, ks)[i] :: e.key == Some(ks[i])
            else i - |ks| < |Keyless(entries)| && Groups(entries, ks)[i] == [Keyless(entries)[i - |ks|]]
  {
    KeyedGroupsAt(entries, ks);
    if i < |ks| {
      forall e | e in Groups(entries, ks)[i] ensures e.key == Some(ks[i]) { KeyedGroupHas(entries, ks[i], e); }
    }
  }

  lemma {:induction false} DistinctCount(ks: seq<int>)
    requires Distinct(ks)
    ensures |set k | k in ks| == |ks|
  {
    if ks != [] {
      var init, k := ks[..|ks| - 1], ks[|ks| - 1];
      DistinctCount(init);
      assert ks == init + [k];
      assert (set x | x in ks) == (set x | x in init) + {k};
      assert k !in init;
    }
  }

  function AddPoints(n: nat, e: Entry): nat {
    n + |e.points|
  }

  function Points(es: seq<Entry>): nat {
    Fold(AddPoints, 0, es)
  }

  /** No point is collected twice or dropped by the grouping. */
  lemma PointsConserved(entries: seq<Entry>, ks: seq<int>)
    requires KeyOrder(entries, ks)
    ensures Points(Flatten(Groups(entries, ks))) == Points(entries)
  {
    GroupsPartition(entries, ks);
    forall a, b ensures Commute(AddPoints, a, b) {
      forall n: nat ensures AddPoints(AddPoints(n, a), b) == AddPoints(AddPoints(n, b), a) {}
    }
    FoldAnyOrder(AddPoints, 0, Flatten(Groups(entries, ks)), entries);
  }

  // ---------------------------------------------------------------- the loops

  ghost predicate Holds(keyed: map<int, seq<Entry>>, entries: seq<Entry>, k: int) {
    if k in keyed then keyed[k] == Keyed(entries, k) && keyed[k] != [] else Keyed(entries, k) == []
  }

  ghost predicate Filled(keyed: map<int, seq<Entry>>, entries: seq<Entry>) {
    forall k :: Holds(keyed, entries, k)
  }

  lemma FillStep(keyed: map<int, seq<Entry>>, init: seq<Entry>, e: Entry, k: int)
    requires Filled(keyed, init) && e.key == Some(k)
    ensures Filled(keyed[k := (if k in keyed then keyed[k] else []) + [e]], init + [e])
  {
    var grown := keyed[k := (if k in keyed then keyed[k] else []) + [e]];
    var all := init + [e];
    assert all[..|init|] == init;
    forall j ensures Holds(grown, all, j) { assert Holds(keyed, init, j); }
  }

  lemma SkipStep(keyed: map<int, seq<Entry>>, init: seq<Entry>, e: Entry)
    requires Filled(keyed, init) && e.key == None
    ensures Filled(keyed, init + [e])
  {
    var all := init + [e];
    assert all[..|init|] == init;
    forall j ensures Holds(keyed, all, j) { assert Holds(keyed, init, j); }
  }

  method Collect(entries: seq<Entry>) returns (keyed: map<int, seq<Entry>>, singles: seq<Entry>)
    ensures Filled(keyed, entries) && singles == Keyless(entries)
  {
    keyed, singles := map[], [];
    for i := 0 to |entries|
      invariant Filled(keyed, entries[..i]) && singles == Keyless(entries[..i])
    {
      var e := entries[i];
      assert entries[..i] + [e] == entries[..i + 1];
      assert entries[..i + 1][..i] == entries[..i];
      match e.key
      case Some(k) =>
        FillStep(keyed, entries[..i], e, k);
        keyed := keyed[k := (if k in keyed then keyed[k] else []) + [e]];
      case None =>
        SkipStep(keyed, entries[..i], e);
        singles := singles + [e];
    }
    assert entries[..|entries|] == entries;
  }

  lemma FilledKeys(keyed: map<int, seq<Entry>>, entries: seq<Entry>, k: int)
    requires Filled(keyed, entries)
    ensures k in keyed <==> HasKey(entries, k)
  {
    assert Holds(keyed, entries, k);
    if k in keyed {
      var e := keyed[k][0];
      KeyedCount(entries, k, e);
      assert e in multiset(keyed[k]);
    }
    if e :| e in entries && e.key == Some(k) {
      KeyedCount(entries, k, e);
      assert e in multiset(Keyed(entries, k));
    }
  }

  method BuildGroupCalls(entries: seq<Entry>) returns (groups: seq<seq<Entry>>, ghost ks: seq<int>)
    ensures KeyOrder(entries, ks) && groups == Groups(entries, ks)
    ensures multiset(Flatten(groups)) == multiset(entries)
    ensures |groups| == |KeySet(entries)| + |Keyless(entries)|
  {
    var keyed, singles := Collect(entries);
    groups, ks := [], [];
    var todo := keyed.Keys;
    while todo != {}
      invariant todo <= keyed.Keys
      invariant forall k :: k in ks <==> k in keyed && k !in todo
      invariant Distinct(ks)
      invariant groups == KeyedGroups(entries, ks)
    {
      var k := AnyOf(todo);
      todo := todo - {k};
      assert Holds(keyed, entries, k);
      var items := SortByKey(keyed[k], ByDevice);
      SortedNotEmpty(keyed[k]);
      if items != [] {
        groups := groups + [items];
      }
      assert (ks + [k])[..|ks|] == ks;
      ks := ks + [k];
    }
    forall k ensures k in ks <==> HasKey(entries, k) { FilledKeys(keyed, entries, k); }
    groups := AddSingles(groups, singles);
    GroupsPartition(entries, ks);
    CallCount(entries, ks);
  }

  method AddSingles(groups: seq<seq<Entry>>, singles: seq<Entry>) returns (r: seq<seq<Entry>>)
    ensures r == groups + Singletons(singles)
  {
    r := groups;
    for i := 0 to |singles|
      invariant r == groups + Singletons(singles[..i])
    {
      r := r + [[singles[i]]];
    }
    assert singles[..|singles|] == singles;
  }

  lemma SortedNotEmpty(es: seq<Entry>)
    requires es != []
    ensures SortByKey(es, ByDevice) != []
  {
    assert es[0] in multiset(SortByKey(es, ByDevice));
  }

  // ---------------------------------------------------------------- device entries

  datatype Device = Device(driver: int, key: Option<int>, points: seq<int>)

  /** The collectable devices: those with points, in the order given. */
  function EntriesOf(runtime: map<int, Device>, ids: seq<int>): seq<Entry>
    requires forall id | id in ids :: id in runtime
  {
    if ids == [] then [] else
      var last := ids[|ids| - 1];
      EntriesOf(runtime, ids[..|ids| - 1])
      + (if runtime[last].points == [] then [] else [Entry(last, runtime[last].key, runtime[last].points)])
  }

  ghost function Collectable(runtime: map<int, Device>): int -> bool {
    (id: int) => id in runtime && runtime[id].points != []
  }

  ghost predicate EntryOfDevice(runtime: map<int, Device>, e: Entry) {
    && e.device in runtime && e.key == runtime[e.device].key
    && e.points == runtime[e.device].points && e.points != []
  }

  lemma {:induction false} EntriesCarry(runtime: map<int, Device>, ids: seq<int>)
    requires forall id | id in ids :: id in runtime
    ensures forall e | e in EntriesOf(runtime, ids) :: EntryOfDevice(runtime, e)
  {
    if ids != [] { EntriesCarry(runtime, ids[..|ids| - 1]); }
  }

  /** The listed devices that have points, in the order of the list, are those with an entry, and each entry
      has its device's own key and points. */
  lemma {:induction false} EntriesAre(runtime: map<int, Device>, ids: seq<int>)
    requires forall id | id in ids :: id in runtime
    ensures IsFilter(ids, Collectable(runtime), Map(ByDevice, EntriesOf(runtime, ids)))
    ensures forall e | e in EntriesOf(runtime, ids) :: EntryOfDevice(runtime, e)
  {
    EntriesCarry(runtime, ids);
    if ids == [] {
      FilterNone(Collectable(runtime));
      assert Map(ByDevice, EntriesOf(runtime, [])) == [];
    } else {
      var init, last := ids[..|ids| - 1], ids[|ids| - 1];
      forall id | id in init ensures id in runtime { assert id in ids; }
      EntriesAre(runtime, init);
      assert last in ids;
      var before, after := Map(ByDevice, EntriesOf(runtime, init)), Map(ByDevice, EntriesOf(runtime, ids));
      assert after == if runtime[last].points == [] then before else before + [last];
      FilterSnoc(init, last, Collectable(runtime), before, ids, after);
    }
  }

  method BuildDeviceEntries(runtime: map<int, Device>, ids: seq<int>)
    returns (r: Option<(Option<int>, seq<Entry>)>)
    ensures r.None? <==> exists id :: id in ids && id !in runtime
    ensures r.Some? ==> (forall id | id in ids :: id in runtime) && r.value.1 == EntriesOf(runtime, ids)
    ensures r.Some? ==> (r.value.0.Some? <==> r.value.1 != [])
    ensures r.Some? && r.value.1 != [] ==>
      r.value.1[0].device in runtime && r.value.0 == Some(runtime[r.value.1[0].device].driver)
  {
    var driver: Option<int> := None;
    var entries: seq<Entry> := [];
    for i := 0 to |ids|
      invariant forall id | id in ids[..i] :: id in runtime
      invariant entries == EntriesOf(runtime, ids[..i])
      invariant forall e | e in entries :: e.device in runtime
      invariant driver.Some? <==> entries != []
      invariant entries != [] ==> driver == Some(runtime[entries[0].device].driver)
    {
      var id := ids[i];
      if id !in runtime {
        return None;
      }
      assert ids[..i + 1] == ids[..i] + [id] && ids[..i + 1][..i] == ids[..i];
      if runtime[id].points != [] {
        if driver.None? {
          driver := Some(runtime[id].driver);
        }
        entries := entries + [Entry(id, runtime[id].key, runtime[id].points)];
      }
    }
    assert ids[..|ids|] == ids;
    r := Some((driver, entries));
  }
}
