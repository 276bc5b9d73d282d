/** The in-memory point index (`RuntimeIndex`) and the point mutations on it: every mutation is
    applied in memory first, offered to the driver, and taken back when the driver refuses it. */
module PointIndex {

  datatype Point = Point(id: int, key: string, data: int)

  datatype Device = Device(id: int, channel: string, name: string)

  /** A runtime point with the names its metadata was built from. */
  datatype Entry = Entry(channel: string, device: string, point: Point)

  datatype Index = Index(entries: map<int, Entry>, byPath: map<string, int>, slices: map<int, seq<Point>>)

  const SEP: char := 31 as char

  function PathKey(channel: string, device: string, key: string): string {
    channel + [SEP] + device + [SEP] + key
  }

  function PathOf(e: Entry): string { PathKey(e.channel, e.device, e.point.key) }

  function EntryOf(d: Device, p: Point): Entry { Entry(d.channel, d.name, p) }

  function Slice(ix: Index, device: int): seq<Point> {
    if device in ix.slices then ix.slices[device] else []
  }

  function WithSlice(ix: Index, device: int, s: seq<Point>): Index { ix.(slices := ix.slices[device := s]) }

  function OldPath(ix: Index, id: int): set<string> {
    if id in ix.entries then {PathOf(ix.entries[id])} else {}
  }

  function Upsert(ix: Index, e: Entry): Index {
    var free := ix.byPath - OldPath(ix, e.point.id);
    ix.(entries := ix.entries[e.point.id := e], byPath := free[PathOf(e) := e.point.id])
  }

  function Drop(ix: Index, id: int): Index {
    ix.(entries := ix.entries - {id}, byPath := ix.byPath - OldPath(ix, id))
  }

  function UpsertAll(ix: Index, d: Device, ps: seq<Point>): Index {
    if ps == [] then ix else
      Upsert(UpsertAll(ix, d, ps[..|ps| - 1]), EntryOf(d, ps[|ps| - 1]))
  }

  function DropAll(ix: Index, ps: seq<Point>): Index {
    if ps == [] then ix else Drop(DropAll(ix, ps[..|ps| - 1]), ps[|ps| - 1].id)
  }

  function IdSet(ps: seq<Point>): set<int> { set i | 0 <= i < |ps| :: ps[i].id }

  /** A path reads back as its three names, when the first two do not contain the separator. */
  lemma PathReadsBack(channel: string, device: string, key: string, i: nat, j: nat)
    requires SEP !in channel && SEP !in device
    requires i < j < |PathKey(channel, device, key)|
    requires PathKey(channel, device, key)[i] == SEP && PathKey(channel, device, key)[j] == SEP
    requires forall k | 0 <= k < j && k != i :: PathKey(channel, device, key)[k] != SEP
    ensures var path := PathKey(channel, device, key);
            path[..i] == channel && path[i + 1..j] == device && path[j + 1..] == key
  {
    var path, m := PathKey(channel, device, key), |channel|;
    var n := m + 1 + |device|;
    assert path[m] == SEP && path[n] == SEP;
    assert forall k | 0 <= k < m :: path[k] == channel[k];
    assert forall k | m < k < n :: path[k] == device[k - m - 1];
    assert i == m && j == n;
  }

  // ---------------------------------------------------------------- what every run keeps

  ghost predicate Owned(ix: Index, path: string) {
    path in ix.byPath ==> ix.byPath[path] in ix.entries && PathOf(ix.entries[ix.byPath[path]]) == path
  }

  ghost predicate Filed(ix: Index, id: int) {
    id in ix.entries ==> ix.entries[id].point.id == id
  }

  /** A lookup by path never returns a point that is gone or that has another path. */
  ghost predicate Sound(ix: Index) {
    (forall path :: Owned(ix, path)) && (forall id :: Filed(ix, id))
  }

  ghost predicate Found(ix: Index, id: int) {
    id in ix.entries ==> PathOf(ix.entries[id]) in ix.byPath && ix.byPath[PathOf(ix.entries[id])] == id
  }

  /** Every point can be found by its path. */
  ghost predicate Complete(ix: Index) { forall id :: Found(ix, id) }

  lemma UpsertKeepsSound(ix: Index, e: Entry)
    requires Sound(ix)
    ensures Sound(Upsert(ix, e))
  {
    var to := Upsert(ix, e);
    forall path ensures Owned(to, path) { assert Owned(ix, path); }
    forall id ensures Filed(to, id) { assert Filed(ix, id); }
  }

  lemma DropKeepsSound(ix: Index, id: int)
    requires Sound(ix)
    ensures Sound(Drop(ix, id))
  {
    var to := Drop(ix, id);
    forall path ensures Owned(to, path) { assert Owned(ix, path); }
    forall k ensures Filed(to, k) { assert Filed(ix, k); }
  }

  datatype Op = Up(entry: Entry) | Down(id: int)

  function Run(ix: Index, ops: seq<Op>): Index {
    if ops == [] then ix else
      var before := Run(ix, ops[..|ops| - 1]);
      match ops[|ops| - 1]
      case Up(e) => Upsert(before, e)
      case Down(id) => Drop(before, id)
  }

  /** Whatever is written and removed, in whatever order and with whatever clashes, lookups stay sound. */
  lemma {:induction false} SoundAlways(ix: Index, ops: seq<Op>)
    requires Sound(ix)
    ensures Sound(Run(ix, ops))
  {
    if ops != [] {
      SoundAlways(ix, ops[..|ops| - 1]);
      var before := Run(ix, ops[..|ops| - 1]);
      match ops[|ops| - 1] {
        case Up(e) => UpsertKeepsSound(before, e);
        case Down(id) => DropKeepsSound(before, id);
      }
    }
  }

  ghost predicate PathFree(ix: Index, e: Entry) {
    forall id | id in ix.entries && id != e.point.id :: PathOf(ix.entries[id]) != PathOf(e)
  }

  /** Writing a point keeps every point findable exactly when no other point has its path. */
  lemma UpsertKeepsCompleteIff(ix: Index, e: Entry)
    requires Sound(ix) && Complete(ix)
    ensures Complete(Upsert(ix, e)) <==> PathFree(ix, e)
  {
    var to := Upsert(ix, e);
    if PathFree(ix, e) {
      forall id ensures Found(to, id) {
        assert Found(ix, id);
        assert Found(ix, e.point.id);
      }
    }
    if Complete(to) {
      forall id | id in ix.entries && id != e.point.id ensures PathOf(ix.entries[id]) != PathOf(e) {
        assert Found(to, id);
      }
    }
  }

  lemma DropKeepsComplete(ix: Index, id: int)
    requires Complete(ix)
    ensures Complete(Drop(ix, id))
  {
    var to := Drop(ix, id);
    forall k ensures Found(to, k) {
      assert Found(ix, k);
      assert Found(ix, id);
    }
  }

  /** A sound and complete path map is determined by the entries. */
  lemma PathsDetermined(a: Index, b: Index)
    requires Sound(a) && Complete(a) && Sound(b) && Complete(b)
    requires a.entries == b.entries
    ensures a.byPath == b.byPath
  {
    PathsIncluded(a, b);
    PathsIncluded(b, a);
  }

  lemma PathsIncluded(a: Index, b: Index)
    requires Sound(a) && Complete(b)
    requires a.entries == b.entries
    ensures forall path | path in a.byPath :: path in b.byPath && a.byPath[path] == b.byPath[path]
  {
    forall path | path in a.byPath ensures path in b.byPath && a.byPath[path] == b.byPath[path] {
      assert Owned(a, path);
      assert Found(b, a.byPath[path]);
    }
  }

  /** Exchanging the keys of two points in one update: the new paths are distinct again, but one of
      the points can no longer be found by its path. */
  lemma ExchangeLosesAPath(d: Device, p: Point, q: Point)
    requires p.id != q.id && p.key != q.key
    ensures var start := UpsertAll(Index(map[], map[], map[]), d, [p, q]);
            var to := UpsertAll(start, d, [p.(key := q.key), q.(key := p.key)]);
            && Complete(start)
            && p.id in to.entries && q.id in to.entries
            && PathOf(to.entries[p.id]) != PathOf(to.entries[q.id])
            && PathOf(to.entries[p.id]) !in to.byPath
  {
    var empty := Index(map[], map[], map[]);
    var p', q' := p.(key := q.key), q.(key := p.key);
    KeysApart(d, p, q);
    UpsertTwo(empty, d, p, q);
    var start := UpsertAll(empty, d, [p, q]);
    assert start.entries == map[p.id := EntryOf(d, p), q.id := EntryOf(d, q)];
    assert start.byPath == map[PathOf(EntryOf(d, p)) := p.id, PathOf(EntryOf(d, q)) := q.id];
    assert Complete(start) by {
      forall id ensures Found(start, id) { }
    }
    UpsertTwo(start, d, p', q');
  }

  lemma UpsertTwo(ix: Index, d: Device, p: Point, q: Point)
    ensures UpsertAll(ix, d, [p, q]) == Upsert(Upsert(ix, EntryOf(d, p)), EntryOf(d, q))
  {
    assert [p, q][..1] == [p];
    assert [p][..0] == [];
    assert UpsertAll(ix, d, [p]) == Upsert(UpsertAll(ix, d, []), EntryOf(d, p));
  }

  lemma KeysApart(d: Device, p: Point, q: Point)
    requires p.key != q.key
    ensures PathOf(EntryOf(d, p)) != PathOf(EntryOf(d, q))
  {
    var n := |d.channel| + |d.name| + 2;
    assert PathOf(EntryOf(d, p))[n..] == p.key;
    assert PathOf(EntryOf(d, q))[n..] == q.key;
  }

  // ---------------------------------------------------------------- batches

  ghost predicate Touched(ix: Index, d: Device, ps: seq<Point>, path: string) {
    exists i :: 0 <= i < |ps| && (PathOf(EntryOf(d, ps[i])) == path || path in OldPath(ix, ps[i].id))
  }

  lemma IdSetSnoc(ps: seq<Point>)
    requires ps != []
    ensures IdSet(ps) == IdSet(ps[..|ps| - 1]) + {ps[|ps| - 1].id}
  {
    var init, n := ps[..|ps| - 1], |ps| - 1;
    forall id | id in IdSet(ps) ensures id in IdSet(init) + {ps[n].id} {
      var i :| 0 <= i < |ps| && ps[i].id == id;
      if i < n { assert init[i].id == id; }
    }
    forall id | id in IdSet(init) + {ps[n].id} ensures id in IdSet(ps) {
      if id == ps[n].id { assert ps[n].id == id; } else {
        var i :| 0 <= i < |init| && init[i].id == id;
        assert ps[i].id == id;
      }
    }
  }

  lemma {:induction false} UpsertAllEntries(ix: Index, d: Device, ps: seq<Point>)
    ensures UpsertAll(ix, d, ps).entries.Keys == ix.entries.Keys + IdSet(ps)
    ensures forall id | id in ix.entries && id !in IdSet(ps) :: UpsertAll(ix, d, ps).entries[id] == ix.entries[id]
    ensures UpsertAll(ix, d, ps).slices == ix.slices
  {
    if ps != [] {
      UpsertAllEntries(ix, d, ps[..|ps| - 1]);
      IdSetSnoc(ps);
    }
  }

  /** The entry of a written point comes from the batch. */
  lemma {:induction false} EntryFromBatch(ix: Index, d: Device, ps: seq<Point>, id: int) returns (i: int)
    requires id in IdSet(ps) && id in UpsertAll(ix, d, ps).entries
    ensures 0 <= i < |ps| && ps[i].id == id && UpsertAll(ix, d, ps).entries[id] == EntryOf(d, ps[i])
  {
    if ps != [] {
      IdSetSnoc(ps);
      UpsertAllEntries(ix, d, ps[..|ps| - 1]);
      i := |ps| - 1;
      if ps[i].id != id { i := EntryFromBatch(ix, d, ps[..|ps| - 1], id); }
    }
  }

  lemma {:induction false} UpsertAllSound(ix: Index, d: Device, ps: seq<Point>)
    requires Sound(ix)
    ensures Sound(UpsertAll(ix, d, ps))
  {
    if ps != [] {
      UpsertAllSound(ix, d, ps[..|ps| - 1]);
      UpsertKeepsSound(UpsertAll(ix, d, ps[..|ps| - 1]), EntryOf(d, ps[|ps| - 1]));
    }
  }

  lemma {:induction false} DropAllSound(ix: Index, ps: seq<Point>)
    requires Sound(ix)
    ensures Sound(DropAll(ix, ps))
  {
    if ps != [] {
      DropAllSound(ix, ps[..|ps| - 1]);
      DropKeepsSound(DropAll(ix, ps[..|ps| - 1]), ps[|ps| - 1].id);
    }
  }

  lemma TouchedSnoc(ix: Index, d: Device, ps: seq<Point>, path: string)
    requires ps != []
    ensures Touched(ix, d, ps, path) <==>
      (Touched(ix, d, ps[..|ps| - 1], path)
       || PathOf(EntryOf(d, ps[|ps| - 1])) == path || path in OldPath(ix, ps[|ps| - 1].id))
  {
    var init := ps[..|ps| - 1];
    if Touched(ix, d, init, path) {
      var i :| 0 <= i < |init| && (PathOf(EntryOf(d, init[i])) == path || path in OldPath(ix, init[i].id));
      assert ps[i] == init[i];
    }
    if Touched(ix, d, ps, path) {
      var i :| 0 <= i < |ps| && (PathOf(EntryOf(d, ps[i])) == path || path in OldPath(ix, ps[i].id));
      if i < |init| { assert ps[i] == init[i]; }
    }
  }

  /** The old path an upsert frees is one the batch has touched. */
  lemma FreedIsTouched(ix: Index, d: Device, ps: seq<Point>, id: int, path: string)
    requires path in OldPath(UpsertAll(ix, d, ps), id)
    ensures Touched(ix, d, ps, path) || path in OldPath(ix, id)
  {
    UpsertAllEntries(ix, d, ps);
    if id in IdSet(ps) {
      var i := EntryFromBatch(ix, d, ps, id);
    }
  }

  lemma {:induction false} UpsertAllPaths(ix: Index, d: Device, ps: seq<Point>, path: string)
    ensures var to := UpsertAll(ix, d, ps);
            && (!Touched(ix, d, ps, path) ==>
                 (path in to.byPath <==> path in ix.byPath) && (path in ix.byPath ==> to.byPath[path] == ix.byPath[path]))
            && (Touched(ix, d, ps, path) && path in to.byPath ==> to.byPath[path] in IdSet(ps))
  {
    if ps != [] {
      var init, last := ps[..|ps| - 1], ps[|ps| - 1];
      UpsertAllPaths(ix, d, init, path);
      TouchedSnoc(ix, d, ps, path);
      IdSetSnoc(ps);
      var mid := UpsertAll(ix, d, init);
      if path in OldPath(mid, last.id) { FreedIsTouched(ix, d, init, last.id, path); }
      if path in OldPath(ix, last.id) && !Touched(ix, d, init, path) {
        UpsertAllEntries(ix, d, init);
      }
    }
  }

  lemma {:induction false} DropAllEntries(ix: Index, ps: seq<Point>)
    ensures DropAll(ix, ps).entries == ix.entries - IdSet(ps)
    ensures DropAll(ix, ps).slices == ix.slices
  {
    if ps != [] {
      DropAllEntries(ix, ps[..|ps| - 1]);
      IdSetSnoc(ps);
    }
  }

  lemma {:induction false} DropAllPaths(ix: Index, ps: seq<Point>, path: string)
    ensures var to := DropAll(ix, ps);
            && (path in to.byPath ==> path in ix.byPath && to.byPath[path] == ix.byPath[path])
            && (path in ix.byPath && (forall id | id in IdSet(ps) :: path !in OldPath(ix, id)) ==> path in to.byPath)
  {
    if ps != [] {
      var init, last := ps[..|ps| - 1], ps[|ps| - 1];
      DropAllPaths(ix, init, path);
      DropAllEntries(ix, init);
      IdSetSnoc(ps);
      if forall id | id in IdSet(ps) :: path !in OldPath(ix, id) {
        assert last.id in IdSet(ps);
      }
    }
  }

  // ---------------------------------------------------------------- adding points

  function Retain(s: seq<Point>, gone: set<int>): seq<Point> {
    if s == [] then [] else
      Retain(s[..|s| - 1], gone) + (if s[|s| - 1].id in gone then [] else [s[|s| - 1]])
  }

  lemma {:induction false} RetainAppends(s: seq<Point>, t: seq<Point>, gone: set<int>)
    ensures Retain(s + t, gone) == Retain(s, gone) + Retain(t, gone)
  {
    if t == [] { assert s + t == s; } else {
      assert (s + t)[..|s + t| - 1] == s + t[..|t| - 1];
      RetainAppends(s, t[..|t| - 1], gone);
    }
  }

  lemma {:induction false} RetainNone(t: seq<Point>, gone: set<int>)
    requires IdSet(t) <= gone
    ensures Retain(t, gone) == []
  {
    if t != [] {
      IdSetSnoc(t);
      RetainNone(t[..|t| - 1], gone);
    }
  }

  /** Filtering changes nothing exactly when nothing is to go. */
  lemma {:induction false} RetainAllIff(s: seq<Point>, gone: set<int>)
    ensures |Retain(s, gone)| <= |s|
    ensures Retain(s, gone) == s <==> IdSet(s) !! gone
  {
    if s != [] {
      var init, last := s[..|s| - 1], s[|s| - 1];
      IdSetSnoc(s);
      RetainAllIff(init, gone);
      assert s == init + [last];
    }
  }

  function ApplyAdd(ix: Index, d: Device, ps: seq<Point>): Index {
    var to := UpsertAll(ix, d, ps);
    WithSlice(to, d.id, Slice(to, d.id) + ps)
  }

  function UndoAdd(ix: Index, d: Device, ps: seq<Point>): Index {
    DropAll(WithSlice(ix, d.id, Retain(Slice(ix, d.id), IdSet(ps))), ps)
  }

  /** Nothing a reader can see differs: the entries, the paths and every device's points. */
  ghost predicate SameView(a: Index, b: Index) {
    a.entries == b.entries && a.byPath == b.byPath && forall k :: Slice(a, k) == Slice(b, k)
  }

  ghost predicate NewPoint(ix: Index, d: Device, p: Point) {
    p.id !in ix.entries && p.id !in IdSet(Slice(ix, d.id)) && PathOf(EntryOf(d, p)) !in ix.byPath
  }

  lemma SameOutside(a: map<int, Entry>, b: map<int, Entry>, s: set<int>)
    requires a.Keys == b.Keys + s
    requires forall id | id in b && id !in s :: a[id] == b[id]
    ensures a - s == b - s
  {
    forall id ensures id in a - s <==> id in b - s
              ensures id in a - s ==> (a - s)[id] == (b - s)[id]
    {
      assert id in a <==> id in a.Keys;
      assert id in b <==> id in b.Keys;
    }
  }

  lemma AddUndoneEntries(ix: Index, d: Device, ps: seq<Point>)
    ensures UndoAdd(ApplyAdd(ix, d, ps), d, ps).entries == ix.entries - IdSet(ps)
    ensures Slice(UndoAdd(ApplyAdd(ix, d, ps), d, ps), d.id) == Retain(Slice(ix, d.id), IdSet(ps))
    ensures forall k | k != d.id :: Slice(UndoAdd(ApplyAdd(ix, d, ps), d, ps), k) == Slice(ix, k)
  {
    UpsertAllEntries(ix, d, ps);
    var to := ApplyAdd(ix, d, ps);
    var s := Slice(ix, d.id);
    RetainAppends(s, ps, IdSet(ps));
    RetainNone(ps, IdSet(ps));
    assert Retain(s + ps, IdSet(ps)) == Retain(s, IdSet(ps));
    DropAllEntries(WithSlice(to, d.id, Retain(Slice(to, d.id), IdSet(ps))), ps);
    SameOutside(to.entries, ix.entries, IdSet(ps));
  }

  /** After an undone addition exactly the touched paths are gone. */
  lemma AddUndonePaths(ix: Index, d: Device, ps: seq<Point>, path: string)
    requires Sound(ix)
    ensures var back := UndoAdd(ApplyAdd(ix, d, ps), d, ps);
            && (path in back.byPath <==> path in ix.byPath && !Touched(ix, d, ps, path))
            && (path in back.byPath ==> back.byPath[path] == ix.byPath[path])
  {
    var up := UpsertAll(ix, d, ps);
    var mid := WithSlice(ApplyAdd(ix, d, ps), d.id, Retain(Slice(ApplyAdd(ix, d, ps), d.id), IdSet(ps)));
    assert mid.entries == up.entries && mid.byPath == up.byPath;
    UpsertAllPaths(ix, d, ps, path);
    UpsertAllEntries(ix, d, ps);
    DropAllPaths(mid, ps, path);
    DropAllEntries(mid, ps);
    UpsertAllSound(ix, d, ps);
    SoundFrame(up, mid);
    DropAllSound(mid, ps);
    var back := DropAll(mid, ps);
    assert Owned(back, path);
    if !Touched(ix, d, ps, path) {
      forall id | id in IdSet(ps) ensures path !in OldPath(mid, id) {
        var i := EntryFromBatch(ix, d, ps, id);
      }
    }
  }

  lemma SoundFrame(a: Index, b: Index)
    requires Sound(a) && a.entries == b.entries && a.byPath == b.byPath
    ensures Sound(b)
  {
    forall path ensures Owned(b, path) { assert Owned(a, path); }
    forall id ensures Filed(b, id) { assert Filed(a, id); }
  }

  /** A refused addition leaves no trace exactly when every added id and every added path was new. */
  lemma AddUndoneIff(ix: Index, d: Device, ps: seq<Point>)
    requires Sound(ix)
    ensures SameView(UndoAdd(ApplyAdd(ix, d, ps), d, ps), ix) <==> forall i | 0 <= i < |ps| :: NewPoint(ix, d, ps[i])
  {
    var back := UndoAdd(ApplyAdd(ix, d, ps), d, ps);
    AddUndoneEntries(ix, d, ps);
    RetainAllIff(Slice(ix, d.id), IdSet(ps));
    if SameView(back, ix) {
      forall i | 0 <= i < |ps| ensures NewPoint(ix, d, ps[i]) {
        assert ps[i].id in IdSet(ps);
        assert Slice(back, d.id) == Slice(ix, d.id);
        AddUndonePaths(ix, d, ps, PathOf(EntryOf(d, ps[i])));
      }
    }
    if forall i | 0 <= i < |ps| :: NewPoint(ix, d, ps[i]) {
      AllNewGivesBack(ix, d, ps);
    }
  }

  lemma AllNewGivesBack(ix: Index, d: Device, ps: seq<Point>)
    requires Sound(ix)
    requires forall i | 0 <= i < |ps| :: NewPoint(ix, d, ps[i])
    ensures SameView(UndoAdd(ApplyAdd(ix, d, ps), d, ps), ix)
  {
    var back := UndoAdd(ApplyAdd(ix, d, ps), d, ps);
    AddUndoneEntries(ix, d, ps);
    RetainAllIff(Slice(ix, d.id), IdSet(ps));
    forall id | id in IdSet(ps) ensures id !in ix.entries && id !in IdSet(Slice(ix, d.id)) {
      var i :| 0 <= i < |ps| && ps[i].id == id;
      assert NewPoint(ix, d, ps[i]);
    }
    assert back.entries == ix.entries;
    forall path ensures path in back.byPath <==> path in ix.byPath
                ensures path in back.byPath ==> back.byPath[path] == ix.byPath[path]
    {
      AddUndonePaths(ix, d, ps, path);
      if Touched(ix, d, ps, path) {
        var i :| 0 <= i < |ps| && (PathOf(EntryOf(d, ps[i])) == path || path in OldPath(ix, ps[i].id));
        assert NewPoint(ix, d, ps[i]);
      }
    }
    assert back.byPath == ix.byPath;
  }
}
