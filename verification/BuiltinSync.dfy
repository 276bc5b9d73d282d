/** Reconciling the table of builtin drivers (or plugins) with the libraries found on disk. */
module BuiltinSync {
  import opened Collections

  /** What is probed from a library and rewritten on every start. */
  datatype Info = Info(version: string, path: string, checksum: string, rest: int)

  /** `fixed` stands for the columns that are set on insertion and never updated. */
  datatype Row = Row(name: string, builtin: bool, info: Info, fixed: int, updatedAt: Option<int>)

  datatype Found = Found(name: string, info: Info, fixed: int)

  type Rows = map<int, Row>

  function Updated(r: Row, f: Found, now: int): Row { r.(info := f.info, updatedAt := Some(now)) }

  function NewRow(f: Found): Row { Row(f.name, true, f.info, f.fixed, None) }

  function BuiltinIds(rows: Rows): set<int> { set id | id in rows && rows[id].builtin }

  function NamesOf(rows: Rows, ids: set<int>): set<string>
    requires ids <= rows.Keys
  {
    set id | id in ids :: rows[id].name
  }

  function BuiltinNames(rows: Rows): set<string> { NamesOf(rows, BuiltinIds(rows)) }

  function DiskNames(disk: seq<Found>): set<string> { set i | 0 <= i < |disk| :: disk[i].name }

  // ---------------------------------------------------------------- what a sync should do

  ghost predicate UniqueOnDisk(disk: seq<Found>) {
    forall i, j | 0 <= i < j < |disk| :: disk[i].name != disk[j].name
  }

  ghost predicate UniqueBuiltin(rows: Rows) {
    forall a, b | a in BuiltinIds(rows) && b in BuiltinIds(rows) && a != b :: rows[a].name != rows[b].name
  }

  /** Exactly one builtin row per name on disk. */
  ghost predicate OnePerName(rows: Rows, disk: seq<Found>) {
    BuiltinNames(rows) == DiskNames(disk) && UniqueBuiltin(rows)
  }

  /** Rows that are not builtin are the same before and after. */
  ghost predicate OthersUntouched(rows: Rows, to: Rows) {
    && (forall id | id in rows && !rows[id].builtin :: id in to && to[id] == rows[id])
    && (forall id | id in to && !to[id].builtin :: id in rows && !rows[id].builtin)
  }

  /** A row that is still on disk keeps its id, its name and its fixed columns, gets what was probed and the
      time of the sync. */
  ghost predicate Survives(rows: Rows, to: Rows, f: Found, now: int, id: int) {
    id in BuiltinIds(rows) && rows[id].name == f.name ==>
      && id in to && to[id].name == rows[id].name && to[id].builtin && to[id].fixed == rows[id].fixed
      && to[id].info == f.info && to[id].updatedAt == Some(now)
  }

  /** Every row carries what was probed; a new one also its own fixed columns, and no update time. */
  ghost predicate Carried(rows: Rows, to: Rows, f: Found, id: int) {
    id in BuiltinIds(to) && to[id].name == f.name ==>
      && to[id].info == f.info
      && (f.name !in BuiltinNames(rows) ==> to[id].fixed == f.fixed && to[id].updatedAt == None)
  }

  ghost predicate Matches(rows: Rows, to: Rows, f: Found, now: int) {
    (forall id :: Survives(rows, to, f, now, id)) && (forall id :: Carried(rows, to, f, id))
  }

  ghost predicate Synced(rows: Rows, to: Rows, disk: seq<Found>, now: int) {
    && OnePerName(to, disk)
    && OthersUntouched(rows, to)
    && forall i | 0 <= i < |disk| :: Matches(rows, to, disk[i], now)
  }

  // ---------------------------------------------------------------- syncing twice

  lemma NameListed(disk: seq<Found>, name: string) returns (i: int)
    requires name in DiskNames(disk)
    ensures 0 <= i < |disk| && disk[i].name == name
  {
    i :| 0 <= i < |disk| && disk[i].name == name;
  }

  function Later(r: Row, now: int): Row { if r.builtin then r.(updatedAt := Some(now)) else r }

  lemma StaysAfterSecond(r0: Rows, r1: Rows, r2: Rows, disk: seq<Found>, t1: int, t2: int, id: int)
    requires Synced(r0, r1, disk, t1) && Synced(r1, r2, disk, t2) && id in r1
    ensures id in r2 && r2[id] == Later(r1[id], t2)
  {
    if r1[id].builtin {
      assert id in BuiltinIds(r1);
      assert r1[id].name in BuiltinNames(r1);
      var i := NameListed(disk, r1[id].name);
      assert Matches(r0, r1, disk[i], t1) && Matches(r1, r2, disk[i], t2);
      assert Carried(r0, r1, disk[i], id);
      assert Survives(r1, r2, disk[i], t2, id);
    }
  }

  lemma NothingNewOnSecond(r0: Rows, r1: Rows, r2: Rows, disk: seq<Found>, t1: int, t2: int, id: int)
    requires Synced(r0, r1, disk, t1) && Synced(r1, r2, disk, t2) && id in r2
    ensures id in r1
  {
    if r2[id].builtin {
      assert id in BuiltinIds(r2);
      assert r2[id].name in BuiltinNames(r2);
      assert r2[id].name in BuiltinNames(r1);
      var old1 :| old1 in BuiltinIds(r1) && r1[old1].name == r2[id].name;
      StaysAfterSecond(r0, r1, r2, disk, t1, t2, old1);
      assert old1 in BuiltinIds(r2);
    }
  }

  /** A second sync against the same disk changes nothing but the update times. */
  lemma SecondSyncOnlyTouchesTime(r0: Rows, r1: Rows, r2: Rows, disk: seq<Found>, t1: int, t2: int)
    requires Synced(r0, r1, disk, t1) && Synced(r1, r2, disk, t2)
    ensures r2 == map id | id in r1 :: Later(r1[id], t2)
  {
    forall id | id in r1 ensures id in r2 && r2[id] == Later(r1[id], t2) { StaysAfterSecond(r0, r1, r2, disk, t1, t2, id); }
    forall id | id in r2 ensures id in r1 { NothingNewOnSecond(r0, r1, r2, disk, t1, t2, id); }
  }

  // ---------------------------------------------------------------- counting names

  lemma {:induction false} NamesCount(rows: Rows, ids: set<int>)
    requires ids <= rows.Keys
    ensures |NamesOf(rows, ids)| <= |ids|
    ensures |NamesOf(rows, ids)| == |ids| <==> forall a, b | a in ids && b in ids && a != b :: rows[a].name != rows[b].name
    decreases |ids|
  {
    if ids != {} {
      var x := Pick(ids);
      var rest := ids - {x};
      NamesCount(rows, rest);
      assert NamesOf(rows, ids) == NamesOf(rows, rest) + {rows[x].name};
      if rows[x].name in NamesOf(rows, rest) {
        assert NamesOf(rows, ids) == NamesOf(rows, rest);
        var y :| y in rest && rows[y].name == rows[x].name;
        assert x in ids && y in ids && x != y;
      } else {
        assert |NamesOf(rows, ids)| == |NamesOf(rows, rest)| + 1;
        forall a | a in rest ensures rows[a].name != rows[x].name { assert rows[a].name in NamesOf(rows, rest); }
      }
    }
  }

  lemma {:induction false} DiskCount(disk: seq<Found>)
    ensures |DiskNames(disk)| <= |disk|
    ensures |DiskNames(disk)| == |disk| <==> UniqueOnDisk(disk)
  {
    if disk != [] {
      var init, last := disk[..|disk| - 1], disk[|disk| - 1];
      DiskCount(init);
      DiskSnoc(disk);
      if last.name in DiskNames(init) {
        var i := NameListed(init, last.name);
        assert DiskNames(disk) == DiskNames(init);
        assert disk[i].name == disk[|disk| - 1].name;
      } else {
        assert |DiskNames(disk)| == |DiskNames(init)| + 1;
        LastIsNew(disk);
      }
    }
  }

  lemma DiskSnoc(disk: seq<Found>)
    requires disk != []
    ensures DiskNames(disk) == DiskNames(disk[..|disk| - 1]) + {disk[|disk| - 1].name}
  {
    var init, n := disk[..|disk| - 1], |disk| - 1;
    forall name | name in DiskNames(disk) ensures name in DiskNames(init) + {disk[n].name} {
      var i := NameListed(disk, name);
      if i < n { assert init[i].name == name; }
    }
    forall name | name in DiskNames(init) ensures name in DiskNames(disk) {
      var i := NameListed(init, name);
      assert disk[i].name == name;
    }
  }

  lemma LastIsNew(disk: seq<Found>)
    requires disk != [] && disk[|disk| - 1].name !in DiskNames(disk[..|disk| - 1])
    ensures UniqueOnDisk(disk) <==> UniqueOnDisk(disk[..|disk| - 1])
  {
    var init, n := disk[..|disk| - 1], |disk| - 1;
    forall i | 0 <= i < n ensures disk[i].name != disk[n].name { assert init[i].name in DiskNames(init); }
    if UniqueOnDisk(init) {
      forall i, j | 0 <= i < j < |disk| ensures disk[i].name != disk[j].name {
        if j < n { assert init[i].name != init[j].name; }
      }
    }
    if UniqueOnDisk(disk) {
      forall i, j | 0 <= i < j < |init| ensures init[i].name != init[j].name { assert disk[i].name != disk[j].name; }
    }
  }

  /** Each start adds one builtin row per library and takes away one per known name. */
  ghost predicate CountLaw(rows: Rows, to: Rows, disk: seq<Found>) {
    |BuiltinIds(to)| + |BuiltinNames(rows)| == |BuiltinIds(rows)| + |disk|
  }

  /** So a non-empty disk gives one row per name only if no name was doubled on either side. */
  lemma OnlyUniqueNamesSync(rows: Rows, to: Rows, disk: seq<Found>)
    requires CountLaw(rows, to, disk) && OnePerName(to, disk)
    ensures UniqueOnDisk(disk) && UniqueBuiltin(rows)
  {
    NamesCount(rows, BuiltinIds(rows));
    NamesCount(to, BuiltinIds(to));
    DiskCount(disk);
  }

  // ---------------------------------------------------------------- the pass over the disk

  /** One builtin row for each builtin name. */
  ghost predicate IsIndex(rows: Rows, index: map<string, int>) {
    && index.Keys == BuiltinNames(rows)
    && forall n | n in index :: index[n] in BuiltinIds(rows) && rows[index[n]].name == n
  }

  /** Nothing but probed columns and update times of builtin rows has changed. */
  ghost predicate Kept(rows0: Rows, rows: Rows) {
    && rows.Keys == rows0.Keys
    && forall id | id in rows0 :: rows[id].builtin == rows0[id].builtin && rows[id].name == rows0[id].name
                               && (!rows0[id].builtin ==> rows[id] == rows0[id])
  }

  lemma KeptIds(rows0: Rows, rows: Rows)
    requires Kept(rows0, rows)
    ensures BuiltinIds(rows) == BuiltinIds(rows0)
  {
    forall id ensures id in BuiltinIds(rows) <==> id in BuiltinIds(rows0) {
      assert id in rows <==> id in rows.Keys;
      assert id in rows0 <==> id in rows0.Keys;
    }
  }

  /** What holds after any number of libraries, whatever the names. */
  ghost predicate Tallied(rows0: Rows, rows: Rows, index0: map<string, int>, index: map<string, int>, seen: nat, queued: seq<Found>) {
    && Kept(rows0, rows)
    && (forall n | n in index :: n in index0 && index[n] == index0[n])
    && |queued| + |index0| == seen + |index|
  }

  ghost predicate RowIs(rows0: Rows, rows: Rows, seen: seq<Found>, now: int, id: int) {
    id in BuiltinIds(rows0) && id in rows ==>
      && (forall j | 0 <= j < |seen| && seen[j].name == rows0[id].name :: rows[id] == Updated(rows0[id], seen[j], now))
      && (rows0[id].name !in DiskNames(seen) ==> rows[id] == rows0[id])
  }

  /** What holds in addition when names are unique. */
  ghost predicate Sorted(rows0: Rows, rows: Rows, index0: map<string, int>, index: map<string, int>, seen: seq<Found>,
                         queued: seq<Found>, now: int)
  {
    && index.Keys == index0.Keys - DiskNames(seen)
    && DiskNames(queued) == DiskNames(seen) - index0.Keys
    && UniqueOnDisk(queued)
    && (forall k | 0 <= k < |queued| :: queued[k] in seen)
    && (forall id :: RowIs(rows0, rows, seen, now, id))
  }

  ghost predicate Unique(rows: Rows, disk: seq<Found>) { UniqueOnDisk(disk) && UniqueBuiltin(rows) }

  lemma DiskPlus(seen: seq<Found>, f: Found)
    ensures DiskNames(seen + [f]) == DiskNames(seen) + {f.name}
  {
    DiskSnoc(seen + [f]);
    assert (seen + [f])[..|seen|] == seen;
  }

  lemma NotSeenYet(seen: seq<Found>, f: Found)
    requires UniqueOnDisk(seen + [f])
    ensures UniqueOnDisk(seen) && f.name !in DiskNames(seen)
  {
    var all := seen + [f];
    forall i | 0 <= i < |seen| ensures seen[i].name != f.name { assert all[i].name != all[|seen|].name; }
    forall i, j | 0 <= i < j < |seen| ensures seen[i].name != seen[j].name { assert all[i].name != all[j].name; }
  }

  /** A known library updates its row and is struck off the index. */
  lemma KnownTallied(rows0: Rows, rows: Rows, index0: map<string, int>, index: map<string, int>, seen: nat, queued: seq<Found>,
                     f: Found, now: int)
    requires Tallied(rows0, rows, index0, index, seen, queued) && IsIndex(rows0, index0) && f.name in index
    ensures index[f.name] in rows
    ensures Tallied(rows0, rows[index[f.name] := Updated(rows[index[f.name]], f, now)], index0, index - {f.name}, seen + 1, queued)
  {
    var id := index[f.name];
    assert id in BuiltinIds(rows0);
    assert index.Keys == (index - {f.name}).Keys + {f.name};
    assert |index.Keys| == |index| && |(index - {f.name}).Keys| == |index - {f.name}|;
  }

  lemma KnownSorted(rows0: Rows, rows: Rows, index0: map<string, int>, index: map<string, int>, seen: seq<Found>,
                    queued: seq<Found>, f: Found, now: int)
    requires UniqueBuiltin(rows0) && UniqueOnDisk(seen + [f]) && IsIndex(rows0, index0)
    requires Tallied(rows0, rows, index0, index, |seen|, queued) && Sorted(rows0, rows, index0, index, seen, queued, now)
    requires f.name in index && index[f.name] in rows
    ensures Sorted(rows0, rows[index[f.name] := Updated(rows[index[f.name]], f, now)], index0, index - {f.name}, seen + [f], queued, now)
  {
    NotSeenYet(seen, f);
    KnownRows(rows0, rows, rows[index[f.name] := Updated(rows[index[f.name]], f, now)], index0, index, seen, f, now);
    KnownNames(index0, index, seen, queued, f);
    forall k | 0 <= k < |queued| ensures queued[k] in seen + [f] { assert queued[k] in seen; }
  }

  lemma KnownNames(index0: map<string, int>, index: map<string, int>, seen: seq<Found>, queued: seq<Found>, f: Found)
    requires index.Keys == index0.Keys - DiskNames(seen) && DiskNames(queued) == DiskNames(seen) - index0.Keys
    requires f.name in index
    ensures (index - {f.name}).Keys == index0.Keys - DiskNames(seen + [f])
    ensures DiskNames(queued) == DiskNames(seen + [f]) - index0.Keys
  {
    DiskPlus(seen, f);
    assert f.name in index.Keys;
  }

  lemma KnownRows(rows0: Rows, rows: Rows, to: Rows, index0: map<string, int>, index: map<string, int>, seen: seq<Found>,
                  f: Found, now: int)
    requires UniqueBuiltin(rows0) && IsIndex(rows0, index0) && f.name !in DiskNames(seen)
    requires forall id :: RowIs(rows0, rows, seen, now, id)
    requires f.name in index && f.name in index0 && index[f.name] == index0[f.name] && index[f.name] in rows
    requires to == rows[index[f.name] := Updated(rows[index[f.name]], f, now)]
    ensures forall id :: RowIs(rows0, to, seen + [f], now, id)
  {
    var id0 := index[f.name];
    assert id0 in BuiltinIds(rows0) && rows0[id0].name == f.name;
    forall id ensures RowIs(rows0, to, seen + [f], now, id) {
      assert RowIs(rows0, rows, seen, now, id) && RowIs(rows0, rows, seen, now, id0);
      RowStays(rows0, rows, to, seen, f, now, id0, id);
    }
  }

  lemma RowStays(rows0: Rows, rows: Rows, to: Rows, seen: seq<Found>, f: Found, now: int, id0: int, id: int)
    requires UniqueBuiltin(rows0) && id0 in BuiltinIds(rows0) && rows0[id0].name == f.name && id0 in rows
    requires f.name !in DiskNames(seen)
    requires to == rows[id0 := Updated(rows[id0], f, now)]
    requires RowIs(rows0, rows, seen, now, id0) && RowIs(rows0, rows, seen, now, id)
    ensures RowIs(rows0, to, seen + [f], now, id)
  {
    DiskPlus(seen, f);
    if id in BuiltinIds(rows0) && id in to {
      assert id != id0 ==> rows0[id].name != f.name;
      forall j | 0 <= j < |seen + [f]| && (seen + [f])[j].name == rows0[id].name
        ensures to[id] == Updated(rows0[id], (seen + [f])[j], now)
      {
        if j < |seen| { assert seen[j].name in DiskNames(seen); }
      }
    }
  }

  /** An unknown library is queued for insertion. */
  lemma UnknownSorted(rows0: Rows, rows: Rows, index0: map<string, int>, index: map<string, int>, seen: seq<Found>,
                      queued: seq<Found>, f: Found, now: int)
    requires UniqueBuiltin(rows0) && UniqueOnDisk(seen + [f]) && IsIndex(rows0, index0)
    requires Sorted(rows0, rows, index0, index, seen, queued, now)
    requires f.name !in index
    ensures Sorted(rows0, rows, index0, index, seen + [f], queued + [f], now)
  {
    DiskPlus(seen, f);
    DiskPlus(queued, f);
    NotSeenYet(seen, f);
    assert f.name !in index0.Keys;
    forall id ensures RowIs(rows0, rows, seen + [f], now, id) {
      assert RowIs(rows0, rows, seen, now, id);
      if id in BuiltinIds(rows0) { assert rows0[id].name in BuiltinNames(rows0); }
    }
    forall i, j | 0 <= i < j < |queued + [f]| ensures (queued + [f])[i].name != (queued + [f])[j].name {
      assert queued[i].name in DiskNames(queued);
    }
    forall k | 0 <= k < |queued + [f]| ensures (queued + [f])[k] in seen + [f] {
      if k < |queued| { assert queued[k] in seen; } else { assert (seen + [f])[|seen|] == f; }
    }
  }

  /** What holds after the libraries in `seen`. */
  ghost predicate Progress(rows0: Rows, rows: Rows, index0: map<string, int>, index: map<string, int>, seen: seq<Found>,
                           queued: seq<Found>, now: int)
  {
    && Tallied(rows0, rows, index0, index, |seen|, queued)
    && (Unique(rows0, seen) ==> Sorted(rows0, rows, index0, index, seen, queued, now))
  }

  lemma KnownProgress(rows0: Rows, rows: Rows, to: Rows, index0: map<string, int>, index: map<string, int>, seen: seq<Found>,
                      queued: seq<Found>, f: Found, now: int)
    requires IsIndex(rows0, index0) && Progress(rows0, rows, index0, index, seen, queued, now)
    requires f.name in index && index[f.name] in rows
    requires to == rows[index[f.name] := Updated(rows[index[f.name]], f, now)]
    ensures Progress(rows0, to, index0, index - {f.name}, seen + [f], queued, now)
  {
    KnownTallied(rows0, rows, index0, index, |seen|, queued, f, now);
    if Unique(rows0, seen + [f]) {
      NotSeenYet(seen, f);
      KnownSorted(rows0, rows, index0, index, seen, queued, f, now);
    }
  }

  lemma UnknownProgress(rows0: Rows, rows: Rows, index0: map<string, int>, index: map<string, int>, seen: seq<Found>,
                        queued: seq<Found>, f: Found, now: int)
    requires IsIndex(rows0, index0) && Progress(rows0, rows, index0, index, seen, queued, now)
    requires f.name !in index
    ensures Progress(rows0, rows, index0, index, seen + [f], queued + [f], now)
  {
    if Unique(rows0, seen + [f]) {
      NotSeenYet(seen, f);
      UnknownSorted(rows0, rows, index0, index, seen, queued, f, now);
    }
  }

  lemma IndexedHere(rows0: Rows, rows: Rows, index0: map<string, int>, index: map<string, int>, seen: nat, queued: seq<Found>,
                    name: string)
    requires IsIndex(rows0, index0) && Tallied(rows0, rows, index0, index, seen, queued) && name in index
    ensures index[name] in rows
  {
    assert index0[name] in BuiltinIds(rows0);
    assert index[name] in rows.Keys;
  }

  lemma StartsSorted(rows: Rows, index: map<string, int>, now: int)
    ensures Progress(rows, rows, index, index, [], [], now)
  {
  }

  lemma KeptBelow(rows0: Rows, rows: Rows, n: int)
    requires Kept(rows0, rows) && Below(rows0, n)
    ensures Below(rows, n)
  {
    forall id | id in rows ensures id < n { assert id in rows.Keys; }
  }

  // ---------------------------------------------------------------- inserting and deleting

  function Insert(rows: Rows, n: int, fs: seq<Found>): Rows {
    if fs == [] then rows else Insert(rows, n, fs[..|fs| - 1])[n + |fs| - 1 := NewRow(fs[|fs| - 1])]
  }

  ghost predicate Below(rows: Rows, n: int) { forall id | id in rows :: id < n }

  lemma {:induction false} InsertIs(rows: Rows, n: int, fs: seq<Found>)
    requires Below(rows, n)
    ensures Below(Insert(rows, n, fs), n + |fs|)
    ensures forall id :: id in Insert(rows, n, fs) <==> id in rows || n <= id < n + |fs|
    ensures forall id | id in rows :: Insert(rows, n, fs)[id] == rows[id]
    ensures forall k | 0 <= k < |fs| :: Insert(rows, n, fs)[n + k] == NewRow(fs[k])
  {
    if fs != [] { InsertIs(rows, n, fs[..|fs| - 1]); }
  }

  lemma {:induction false} InsertCount(rows: Rows, n: int, fs: seq<Found>)
    requires Below(rows, n)
    ensures |BuiltinIds(Insert(rows, n, fs))| == |BuiltinIds(rows)| + |fs|
  {
    if fs != [] {
      var init := fs[..|fs| - 1];
      InsertCount(rows, n, init);
      InsertIs(rows, n, init);
      var mid := Insert(rows, n, init);
      var id := n + |fs| - 1;
      assert BuiltinIds(Insert(rows, n, fs)) == BuiltinIds(mid) + {id};
    }
  }

  lemma {:induction false} IdsCount(rows: Rows, index: map<string, int>, names: set<string>)
    requires names <= index.Keys
    requires forall n | n in index :: index[n] in BuiltinIds(rows) && rows[index[n]].name == n
    ensures |set n | n in names :: index[n]| == |names|
    decreases |names|
  {
    if names != {} {
      var x := Pick(names);
      var rest := names - {x};
      IdsCount(rows, index, rest);
      assert (set n | n in names :: index[n]) == (set n | n in rest :: index[n]) + {index[x]};
      assert index[x] !in set n | n in rest :: index[n];
    }
  }

  function Obsolete(index: map<string, int>): set<int> { set n | n in index :: index[n] }

  ghost predicate StillIndexed(rows: Rows, index: map<string, int>) {
    forall n | n in index :: index[n] in BuiltinIds(rows) && rows[index[n]].name == n
  }

  lemma DeleteCount(rows: Rows, index: map<string, int>)
    requires StillIndexed(rows, index)
    ensures |BuiltinIds(rows - Obsolete(index))| + |index| == |BuiltinIds(rows)|
  {
    IdsCount(rows, index, index.Keys);
    assert Obsolete(index) == set n | n in index.Keys :: index[n];
    assert Obsolete(index) <= BuiltinIds(rows);
    assert BuiltinIds(rows - Obsolete(index)) == BuiltinIds(rows) - Obsolete(index);
    assert |index.Keys| == |index|;
  }

  lemma CountsAddUp(rows0: Rows, rows: Rows, index0: map<string, int>, index: map<string, int>, disk: seq<Found>,
                    queued: seq<Found>, n: int)
    requires IsIndex(rows0, index0) && Tallied(rows0, rows, index0, index, |disk|, queued) && Below(rows, n)
    ensures CountLaw(rows0, Insert(rows, n, queued) - Obsolete(index), disk)
  {
    var full := Insert(rows, n, queued);
    InsertIs(rows, n, queued);
    InsertCount(rows, n, queued);
    forall m | m in index ensures index[m] in BuiltinIds(full) && full[index[m]].name == m {
      assert index0[m] in BuiltinIds(rows0);
    }
    DeleteCount(full, index);
    KeptIds(rows0, rows);
    assert |index0.Keys| == |index0|;
  }

  // ---------------------------------------------------------------- the result

  /** All facts at the end of the pass, for unique names. */
  ghost predicate Passed(rows0: Rows, rows: Rows, index0: map<string, int>, index: map<string, int>, disk: seq<Found>,
                         queued: seq<Found>, now: int, n: int)
  {
    && Unique(rows0, disk) && IsIndex(rows0, index0) && Below(rows, n)
    && Tallied(rows0, rows, index0, index, |disk|, queued)
    && Sorted(rows0, rows, index0, index, disk, queued, now)
  }

  function Result(rows: Rows, index: map<string, int>, queued: seq<Found>, n: int): Rows {
    Insert(rows, n, queued) - Obsolete(index)
  }

  /** An old builtin row is there afterwards exactly when its name is on disk. */
  lemma OldRow(rows0: Rows, rows: Rows, index0: map<string, int>, index: map<string, int>, disk: seq<Found>,
               queued: seq<Found>, now: int, n: int, id: int)
    requires Passed(rows0, rows, index0, index, disk, queued, now, n) && id in rows0
    ensures var to := Result(rows, index, queued, n);
            && id < n && id in rows
            && (id in to <==> (rows0[id].builtin ==> rows0[id].name in DiskNames(disk)))
            && (id in to ==> to[id] == rows[id])
  {
    InsertIs(rows, n, queued);
    assert id in rows.Keys;
    if rows0[id].builtin {
      assert id in BuiltinIds(rows0);
      assert rows0[id].name in BuiltinNames(rows0);
      assert index0[rows0[id].name] == id;
    }
    if id in Obsolete(index) {
      var m :| m in index && index[m] == id;
      assert index0[m] == id && rows0[id].name == m;
    } else if rows0[id].builtin {
      assert rows0[id].name !in index.Keys;
    }
  }

  /** Every other row is one of the queued libraries. */
  lemma NewRowIs(rows0: Rows, rows: Rows, index0: map<string, int>, index: map<string, int>, disk: seq<Found>,
                 queued: seq<Found>, now: int, n: int, id: int)
    requires Passed(rows0, rows, index0, index, disk, queued, now, n)
    ensures var to := Result(rows, index, queued, n);
            id in to && id !in rows0 ==> 0 <= id - n < |queued| && to[id] == NewRow(queued[id - n])
  {
    InsertIs(rows, n, queued);
    assert id in rows.Keys <==> id in rows0.Keys;
    var full := Insert(rows, n, queued);
    if id in full && id !in rows0 { assert full[n + (id - n)] == NewRow(queued[id - n]); }
  }

  lemma QueuedStays(rows0: Rows, rows: Rows, index0: map<string, int>, index: map<string, int>, disk: seq<Found>,
                    queued: seq<Found>, now: int, n: int, k: int)
    requires Passed(rows0, rows, index0, index, disk, queued, now, n) && 0 <= k < |queued|
    ensures var to := Result(rows, index, queued, n);
            n + k in to && to[n + k] == NewRow(queued[k]) && n + k !in rows0
  {
    InsertIs(rows, n, queued);
    assert n + k !in rows.Keys;
    assert forall m | m in index :: index0[m] in BuiltinIds(rows0);
  }

  lemma ResultNames(rows0: Rows, rows: Rows, index0: map<string, int>, index: map<string, int>, disk: seq<Found>,
                    queued: seq<Found>, now: int, n: int)
    requires Passed(rows0, rows, index0, index, disk, queued, now, n)
    ensures BuiltinNames(Result(rows, index, queued, n)) == DiskNames(disk)
  {
    var to := Result(rows, index, queued, n);
    forall name | name in BuiltinNames(to) ensures name in DiskNames(disk) {
      var id :| id in BuiltinIds(to) && to[id].name == name;
      if id in rows0 {
        OldRow(rows0, rows, index0, index, disk, queued, now, n, id);
      } else {
        NewRowIs(rows0, rows, index0, index, disk, queued, now, n, id);
        assert queued[id - n].name in DiskNames(queued);
      }
    }
    forall name | name in DiskNames(disk) ensures name in BuiltinNames(to) {
      if name in index0 {
        var id := index0[name];
        assert id in BuiltinIds(rows0);
        OldRow(rows0, rows, index0, index, disk, queued, now, n, id);
        assert id in BuiltinIds(to) && to[id].name == name;
      } else {
        assert name in DiskNames(queued);
        var k := NameListed(queued, name);
        QueuedStays(rows0, rows, index0, index, disk, queued, now, n, k);
        assert n + k in BuiltinIds(to) && to[n + k].name == name;
      }
    }
  }

  lemma ResultUnique(rows0: Rows, rows: Rows, index0: map<string, int>, index: map<string, int>, disk: seq<Found>,
                     queued: seq<Found>, now: int, n: int, a: int, b: int)
    requires Passed(rows0, rows, index0, index, disk, queued, now, n)
    requires a in BuiltinIds(Result(rows, index, queued, n)) && b in BuiltinIds(Result(rows, index, queued, n)) && a < b
    ensures Result(rows, index, queued, n)[a].name != Result(rows, index, queued, n)[b].name
  {
    if a in rows0 { OldRow(rows0, rows, index0, index, disk, queued, now, n, a); }
    if b in rows0 { OldRow(rows0, rows, index0, index, disk, queued, now, n, b); }
    NewRowIs(rows0, rows, index0, index, disk, queued, now, n, a);
    NewRowIs(rows0, rows, index0, index, disk, queued, now, n, b);
    if b !in rows0 { assert queued[b - n].name in DiskNames(queued); }
    if a in rows0 {
      assert a in BuiltinIds(rows0);
      assert rows0[a].name in BuiltinNames(rows0);
    }
  }

  lemma ResultMatches(rows0: Rows, rows: Rows, index0: map<string, int>, index: map<string, int>, disk: seq<Found>,
                      queued: seq<Found>, now: int, n: int, j: int)
    requires Passed(rows0, rows, index0, index, disk, queued, now, n) && 0 <= j < |disk|
    ensures Matches(rows0, Result(rows, index, queued, n), disk[j], now)
  {
    var to, f := Result(rows, index, queued, n), disk[j];
    assert f.name in DiskNames(disk);
    forall id ensures Survives(rows0, to, f, now, id) {
      if id in BuiltinIds(rows0) && rows0[id].name == f.name {
        OldRow(rows0, rows, index0, index, disk, queued, now, n, id);
        assert RowIs(rows0, rows, disk, now, id);
      }
    }
    forall id ensures Carried(rows0, to, f, id) {
      if id in BuiltinIds(to) && to[id].name == f.name {
        if id in rows0 {
          OldRow(rows0, rows, index0, index, disk, queued, now, n, id);
          assert id in BuiltinIds(rows0);
          assert rows0[id].name in BuiltinNames(rows0);
          assert RowIs(rows0, rows, disk, now, id);
        } else {
          NewRowIs(rows0, rows, index0, index, disk, queued, now, n, id);
          QueuedIs(disk, queued, id - n, j);
        }
      }
    }
  }

  lemma QueuedIs(disk: seq<Found>, queued: seq<Found>, k: int, j: int)
    requires UniqueOnDisk(disk) && forall i | 0 <= i < |queued| :: queued[i] in disk
    requires 0 <= k < |queued| && 0 <= j < |disk| && queued[k].name == disk[j].name
    ensures queued[k] == disk[j]
  {
    assert queued[k] in disk;
    var i :| 0 <= i < |disk| && disk[i] == queued[k];
  }

  lemma ResultOthers(rows0: Rows, rows: Rows, index0: map<string, int>, index: map<string, int>, disk: seq<Found>,
                     queued: seq<Found>, now: int, n: int)
    requires Passed(rows0, rows, index0, index, disk, queued, now, n)
    ensures OthersUntouched(rows0, Result(rows, index, queued, n))
  {
    var to := Result(rows, index, queued, n);
    forall id | id in rows0 && !rows0[id].builtin ensures id in to && to[id] == rows0[id] {
      OldRow(rows0, rows, index0, index, disk, queued, now, n, id);
    }
    forall id | id in to && !to[id].builtin ensures id in rows0 && !rows0[id].builtin {
      NewRowIs(rows0, rows, index0, index, disk, queued, now, n, id);
      if id in rows0 { OldRow(rows0, rows, index0, index, disk, queued, now, n, id); }
    }
  }

  lemma ResultSynced(rows0: Rows, rows: Rows, index0: map<string, int>, index: map<string, int>, disk: seq<Found>,
                     queued: seq<Found>, now: int, n: int)
    requires Passed(rows0, rows, index0, index, disk, queued, now, n)
    ensures Synced(rows0, Result(rows, index, queued, n), disk, now)
  {
    var to := Result(rows, index, queued, n);
    ResultNames(rows0, rows, index0, index, disk, queued, now, n);
    ResultOthers(rows0, rows, index0, index, disk, queued, now, n);
    forall a, b | a in BuiltinIds(to) && b in BuiltinIds(to) && a != b ensures to[a].name != to[b].name {
      ResultUnique(rows0, rows, index0, index, disk, queued, now, n, if a < b then a else b, if a < b then b else a);
    }
    forall j | 0 <= j < |disk| ensures Matches(rows0, to, disk[j], now) {
      ResultMatches(rows0, rows, index0, index, disk, queued, now, n, j);
    }
  }

  // ---------------------------------------------------------------- the synchroniser

  class Store {
    var rows: Rows
    var nextId: int

    ghost predicate Valid()
      reads this
    {
      Below(rows, nextId)
    }

    /** The map from name to row; of rows with the same name one stays. */
    method LoadExisting() returns (index: map<string, int>)
      ensures IsIndex(rows, index)
    {
      index := map[];
      var left := BuiltinIds(rows);
      while left != {}
        invariant left <= BuiltinIds(rows)
        invariant index.Keys == NamesOf(rows, BuiltinIds(rows) - left)
        invariant StillIndexed(rows, index)
        decreases |left|
      {
        var id := AnyOf(left);
        index := index[rows[id].name := id];
        ghost var seen := BuiltinIds(rows) - left;
        left := left - {id};
        assert BuiltinIds(rows) - left == seen + {id};
      }
      assert BuiltinIds(rows) - left == BuiltinIds(rows);
    }

    /** One library: update its row and strike it off, or queue it. */
    method PassOne(f: Found, now: int, index1: map<string, int>, queued1: seq<Found>,
                   ghost rows0: Rows, ghost index0: map<string, int>, ghost seen: seq<Found>)
      returns (index: map<string, int>, queued: seq<Found>)
      requires IsIndex(rows0, index0) && Progress(rows0, rows, index0, index1, seen, queued1, now)
      modifies `rows
      ensures Progress(rows0, rows, index0, index, seen + [f], queued, now)
    {
      if f.name in index1 {
        IndexedHere(rows0, rows, index0, index1, |seen|, queued1, f.name);
        var to := rows[index1[f.name] := Updated(rows[index1[f.name]], f, now)];
        KnownProgress(rows0, rows, to, index0, index1, seen, queued1, f, now);
        rows, index, queued := to, index1 - {f.name}, queued1;
      } else {
        UnknownProgress(rows0, rows, index0, index1, seen, queued1, f, now);
        index, queued := index1, queued1 + [f];
      }
    }

    /** The pass over the disk: known libraries are updated, the others queued. */
    method PassDisk(disk: seq<Found>, now: int, index0: map<string, int>)
      returns (index: map<string, int>, queued: seq<Found>)
      requires Valid() && IsIndex(rows, index0)
      modifies `rows
      ensures Progress(old(rows), rows, index0, index, disk, queued, now)
    {
      index, queued := index0, [];
      ghost var rows0 := rows;
      StartsSorted(rows0, index0, now);
      ghost var seen: seq<Found> := [];
      for i := 0 to |disk|
        invariant seen == disk[..i]
        invariant Progress(rows0, rows, index0, index, seen, queued, now)
      {
        index, queued := PassOne(disk[i], now, index, queued, rows0, index0, seen);
        seen := seen + [disk[i]];
      }
      assert seen == disk;
    }

    method InsertMany(fs: seq<Found>)
      requires Valid()
      modifies this
      ensures Valid() && rows == Insert(old(rows), old(nextId), fs)
    {
      ghost var rows0, n := rows, nextId;
      for i := 0 to |fs|
        invariant rows == Insert(rows0, n, fs[..i]) && nextId == n + i
      {
        assert fs[..i + 1][..i] == fs[..i];
        rows := rows[nextId := NewRow(fs[i])];
        nextId := nextId + 1;
      }
      assert fs[..|fs|] == fs;
      InsertIs(rows0, n, fs);
    }

    /** `sync_drivers`, and `sync_plugins` when its insertion does not fail. */
    method Sync(disk: seq<Found>, now: int)
      requires Valid()
      modifies this
      ensures Valid()
      ensures disk == [] || Unique(old(rows), disk) ==> Synced(old(rows), rows, disk, now)
      ensures disk != [] ==> CountLaw(old(rows), rows, disk)
      ensures OnePerName(rows, disk) <==> disk == [] || Unique(old(rows), disk)
    {
      ghost var rows0 := rows;
      if disk == [] {
        rows := rows - BuiltinIds(rows);
        EmptyDisk(rows0, now);
        return;
      }
      var index0 := LoadExisting();
      var index, queued := PassDisk(disk, now, index0);
      ghost var rows1, n := rows, nextId;
      KeptBelow(rows0, rows1, n);
      InsertMany(queued);
      rows := rows - Obsolete(index);
      assert rows == Result(rows1, index, queued, n);
      CountsAddUp(rows0, rows1, index0, index, disk, queued, n);
      if Unique(rows0, disk) { ResultSynced(rows0, rows1, index0, index, disk, queued, now, n); }
      if OnePerName(rows, disk) { OnlyUniqueNamesSync(rows0, rows, disk); }
    }
  }

  /** The branch for an empty disk does what the general one would. */
  lemma EmptyDisk(rows: Rows, now: int)
    ensures Synced(rows, rows - BuiltinIds(rows), [], now)
  {
    assert BuiltinIds(rows - BuiltinIds(rows)) == {};
  }
}
