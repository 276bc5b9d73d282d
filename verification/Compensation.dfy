/** Point and action commands: the database first, then the running devices group by group, and
    when a group is refused the database rows of that group are put back. */
module Compensation {
  import opened Collections

  /** A point row or an action row. */
  datatype Row = Row(id: int, device: int, data: int)

  /** What a command does to one row; `device` is the group the row is handed to the runtime in. */
  datatype Change = Change(device: int, was: Option<Row>, now: Option<Row>)

  type Batch = map<int, Change>

  /** The running rows are held per device. */
  datatype State = State(db: map<int, Row>, runtime: map<(int, int), Row>, loaded: set<int>)

  function Look<K, V>(m: map<K, V>, k: K): Option<V> {
    if k in m then Some(m[k]) else None
  }

  function Put<K, V>(m: map<K, V>, k: K, v: Option<V>): map<K, V> {
    if v.Some? then m[k := v.value] else m - {k}
  }

  function Groups(batch: Batch): set<int> { set id | id in batch :: batch[id].device }

  // ---------------------------------------------------------------- database against runtime

  /** What a device should be running for a row with this content. */
  function Shown(loaded: set<int>, device: int, row: Option<Row>): Option<Row> {
    if device in loaded && row.Some? && row.value.device == device then row else None
  }

  ghost predicate Differs(s: State, device: int, id: int) {
    Look(s.runtime, (device, id)) != Shown(s.loaded, device, Look(s.db, id))
  }

  ghost predicate Consistent(s: State) { forall device, id :: !Differs(s, device, id) }

  // ---------------------------------------------------------------- one command

  /** A command and how it went: the groups in `done` were applied, the group in `failed` was refused,
      the others were never tried. `restores` says whether the update that is to put an old row back
      writes its columns; the code hands it a row none of whose columns is marked as set. */
  datatype Command = Command(batch: Batch, done: set<int>, failed: set<int>, restores: bool)

  ghost predicate ChangeFits(db: map<int, Row>, id: int, c: Change) {
    && c.was == Look(db, id)
    && (c.now.Some? ==> c.now.value.id == id && c.now.value.device == c.device)
    && (c.now.None? ==> c.was.Some? && c.was.value.device == c.device)
  }

  ghost predicate Fits(db: map<int, Row>, batch: Batch) {
    forall id | id in batch :: ChangeFits(db, id, batch[id])
  }

  predicate IsUpdate(c: Change) { c.was.Some? && c.now.Some? }

  /** What a refused row is left as: creations are deleted and deletions inserted again. */
  function PutBack(c: Change, restores: bool): Option<Row> {
    if restores || !IsUpdate(c) then c.was else c.now
  }

  function DbAfter(db: map<int, Row>, batch: Batch, failed: set<int>, restores: bool, id: int): Option<Row> {
    if id !in batch then Look(db, id)
    else if batch[id].device in failed then PutBack(batch[id], restores)
    else batch[id].now
  }

  function RuntimeAfter(s: State, batch: Batch, done: set<int>, device: int, id: int): Option<Row> {
    if id in batch && batch[id].device == device && device in done && device in s.loaded then batch[id].now
    else Look(s.runtime, (device, id))
  }

  ghost predicate DbIs(db: map<int, Row>, was: map<int, Row>, batch: Batch, failed: set<int>, restores: bool) {
    forall id :: Look(db, id) == DbAfter(was, batch, failed, restores, id)
  }

  ghost predicate RuntimeIs(m: map<(int, int), Row>, s: State, batch: Batch, done: set<int>) {
    forall device, id :: Look(m, (device, id)) == RuntimeAfter(s, batch, done, device, id)
  }

  ghost predicate Outcome(s: State, to: State, c: Command) {
    && to.loaded == s.loaded
    && c.done !! c.failed && c.done + c.failed <= Groups(c.batch) && c.failed <= s.loaded
    && (c.failed == {} ==> c.done == Groups(c.batch))
    && DbIs(to.db, s.db, c.batch, c.failed, c.restores)
    && RuntimeIs(to.runtime, s, c.batch, c.done)
  }

  ghost predicate Step(s: State, to: State, c: Command) {
    Fits(s.db, c.batch) && Outcome(s, to, c)
  }

  ghost predicate Unreached(c: Command, id: int) {
    id in c.batch && c.batch[id].device !in c.done + c.failed
  }

  /** A refused update whose old row was not written back. */
  ghost predicate NotPutBack(c: Command, id: int) {
    id in c.batch && c.batch[id].device in c.failed && IsUpdate(c.batch[id]) && !c.restores
  }

  /** The row's new content is in the database but was not given to its device. */
  ghost predicate OnlyStored(c: Command, id: int) { Unreached(c, id) || NotPutBack(c, id) }

  /** The row was applied under another device while this one still runs it. */
  ghost predicate MovedAway(loaded: set<int>, c: Command, device: int, id: int) {
    && id in c.batch && c.batch[id].device in c.done && c.batch[id].device != device
    && Shown(loaded, device, c.batch[id].was).Some?
  }

  ghost predicate ChangeShows(loaded: set<int>, c: Command, device: int, id: int)
    requires id in c.batch
  {
    Shown(loaded, device, c.batch[id].now) != Shown(loaded, device, c.batch[id].was)
  }

  /** From agreement, a command leaves a difference exactly on rows that were only stored, on the
      devices where the change shows, and on rows it moved to another device. */
  lemma DiffersIff(s: State, to: State, c: Command, device: int, id: int)
    requires Consistent(s) && Step(s, to, c)
    ensures Differs(to, device, id) <==>
      ((OnlyStored(c, id) && ChangeShows(s.loaded, c, device, id)) || MovedAway(s.loaded, c, device, id))
  {
    assert !Differs(s, device, id);
    assert Look(to.db, id) == DbAfter(s.db, c.batch, c.failed, c.restores, id);
    assert Look(to.runtime, (device, id)) == RuntimeAfter(s, c.batch, c.done, device, id);
    if id in c.batch {
      assert ChangeFits(s.db, id, c.batch[id]);
      assert c.batch[id].device in Groups(c.batch);
    }
  }

  /** Without agreement beforehand: a new difference is still the fault of one of these. */
  lemma NewDifference(s: State, to: State, c: Command, device: int, id: int)
    requires Step(s, to, c) && Differs(to, device, id) && !Differs(s, device, id)
    ensures (OnlyStored(c, id) && ChangeShows(s.loaded, c, device, id)) || MovedAway(s.loaded, c, device, id)
  {
    assert Look(to.db, id) == DbAfter(s.db, c.batch, c.failed, c.restores, id);
    assert Look(to.runtime, (device, id)) == RuntimeAfter(s, c.batch, c.done, device, id);
    if id in c.batch { assert ChangeFits(s.db, id, c.batch[id]); }
  }

  ghost predicate Moves(batch: Batch, id: int) {
    id in batch && batch[id].was.Some? && batch[id].was.value.device != batch[id].device
  }

  lemma OneGroup(c: Command, device: int)
    requires forall id | id in c.batch :: c.batch[id].device == device
    requires c.done + c.failed <= Groups(c.batch) && (c.failed == {} ==> c.done == Groups(c.batch))
    ensures forall id :: !Unreached(c, id)
  {
    forall id ensures !Unreached(c, id) {
      if id in c.batch {
        assert c.batch[id].device in Groups(c.batch);
        if c.failed != {} {
          var f := Pick(c.failed);
          assert f in Groups(c.batch);
        }
      }
    }
  }

  ghost predicate ForOneDevice(c: Command, device: int) {
    forall id | id in c.batch :: c.batch[id].device == device && !Moves(c.batch, id)
  }

  /** A batch for one device that moves no row keeps database and runtime in step exactly when it is
      not refused, or refused updates are written back, or they would have changed nothing. */
  lemma OneDeviceInStepIff(s: State, to: State, c: Command, device: int)
    requires Consistent(s) && Step(s, to, c) && ForOneDevice(c, device)
    ensures Consistent(to) <==>
      (c.failed == {} || c.restores || forall id | id in c.batch && IsUpdate(c.batch[id]) :: c.batch[id].was == c.batch[id].now)
  {
    OneGroup(c, device);
    if c.failed == {} || c.restores || forall id | id in c.batch && IsUpdate(c.batch[id]) :: c.batch[id].was == c.batch[id].now {
      forall d, id ensures !Differs(to, d, id) {
        DiffersIff(s, to, c, d, id);
        if id in c.batch { assert ChangeFits(s.db, id, c.batch[id]) && !Moves(c.batch, id); }
      }
    } else {
      var f := Pick(c.failed);
      assert f in Groups(c.batch);
      var id :| id in c.batch && IsUpdate(c.batch[id]) && c.batch[id].was != c.batch[id].now;
      assert ChangeFits(s.db, id, c.batch[id]) && !Moves(c.batch, id);
      DiffersIff(s, to, c, device, id);
    }
  }

  /** An update that moves a row off a running device leaves the old row running there. */
  lemma MoveLeavesRowBehind(s: State, to: State, c: Command, id: int)
    requires Consistent(s) && Step(s, to, c)
    requires Moves(c.batch, id) && c.batch[id].device in c.done && c.batch[id].was.value.device in s.loaded
    ensures Differs(to, c.batch[id].was.value.device, id)
  {
    DiffersIff(s, to, c, c.batch[id].was.value.device, id);
  }

  /** A command that is not refused anywhere keeps the two in step exactly when every row it moves
      leaves a device that is not running. */
  lemma SuccessInStepIff(s: State, to: State, c: Command)
    requires Consistent(s) && Step(s, to, c) && c.failed == {}
    ensures Consistent(to) <==> forall id | Moves(c.batch, id) :: c.batch[id].was.value.device !in s.loaded
  {
    if forall id | Moves(c.batch, id) :: c.batch[id].was.value.device !in s.loaded {
      forall d, id ensures !Differs(to, d, id) {
        DiffersIff(s, to, c, d, id);
        if id in c.batch {
          assert ChangeFits(s.db, id, c.batch[id]);
          assert c.batch[id].device in Groups(c.batch);
          assert Moves(c.batch, id) ==> c.batch[id].was.value.device !in s.loaded;
        }
      }
    } else {
      var id :| Moves(c.batch, id) && c.batch[id].was.value.device in s.loaded;
      assert c.batch[id].device in Groups(c.batch);
      MoveLeavesRowBehind(s, to, c, id);
    }
  }

  // ---------------------------------------------------------------- sequences of commands

  ghost predicate Run(states: seq<State>, commands: seq<Command>) {
    |states| == |commands| + 1 && forall k | 0 <= k < |commands| :: Step(states[k], states[k + 1], commands[k])
  }

  ghost predicate Blamed(s: State, c: Command, device: int, id: int) {
    (OnlyStored(c, id) && ChangeShows(s.loaded, c, device, id)) || MovedAway(s.loaded, c, device, id)
  }

  /** Over any sequence of commands, every difference at the end goes back to one command that only
      stored the row, or that moved it. */
  lemma {:induction false} EveryDifferenceIsBlamed(states: seq<State>, commands: seq<Command>, device: int, id: int)
    requires Run(states, commands) && Consistent(states[0])
    requires Differs(states[|commands|], device, id)
    ensures exists k :: 0 <= k < |commands| && Blamed(states[k], commands[k], device, id)
  {
    var n := |commands|;
    if n > 0 && Differs(states[n - 1], device, id) {
      var before, past := states[..n], commands[..n - 1];
      forall k | 0 <= k < n - 1 ensures Step(before[k], before[k + 1], past[k]) {
        assert Step(states[k], states[k + 1], commands[k]);
      }
      EveryDifferenceIsBlamed(before, past, device, id);
      var k :| 0 <= k < |past| && Blamed(before[k], past[k], device, id);
      assert Blamed(states[k], commands[k], device, id);
    } else if n > 0 {
      assert Step(states[n - 1], states[n], commands[n - 1]);
      NewDifference(states[n - 1], states[n], commands[n - 1], device, id);
      assert Blamed(states[n - 1], commands[n - 1], device, id);
    }
  }

  // ---------------------------------------------------------------- the commands

  /** Writes or removes every listed key, in any order. */
  method WriteAll<K(==), V>(m0: map<K, V>, values: map<K, Option<V>>) returns (m: map<K, V>)
    ensures forall k :: Look(m, k) == if k in values then values[k] else Look(m0, k)
  {
    m := m0;
    var left := values.Keys;
    while left != {}
      invariant left <= values.Keys
      invariant forall k :: Look(m, k) == if k in values && k !in left then values[k] else Look(m0, k)
      decreases |left|
    {
      var key := AnyOf(left);
      m := Put(m, key, values[key]);
      left := left - {key};
    }
  }

  function Nows(batch: Batch): map<int, Option<Row>> { map id | id in batch :: batch[id].now }

  function Olds(batch: Batch, device: int, restores: bool): map<int, Option<Row>> {
    map id | id in batch && batch[id].device == device :: PutBack(batch[id], restores)
  }

  function Running(batch: Batch, device: int): map<(int, int), Option<Row>> {
    map id | id in batch && batch[id].device == device :: (device, id) := batch[id].now
  }

  lemma RunningAt(batch: Batch, device: int, d: int, id: int)
    ensures (d, id) in Running(batch, device) <==> d == device && id in batch && batch[id].device == device
    ensures (d, id) in Running(batch, device) ==> Running(batch, device)[(d, id)] == batch[id].now
  {
  }

  lemma GroupApplied(m: map<(int, int), Row>, to: map<(int, int), Row>, s: State, batch: Batch, done: set<int>, device: int)
    requires RuntimeIs(m, s, batch, done) && device in s.loaded && device !in done
    requires forall k :: Look(to, k) == if k in Running(batch, device) then Running(batch, device)[k] else Look(m, k)
    ensures RuntimeIs(to, s, batch, done + {device})
  {
    forall d, id ensures Look(to, (d, id)) == RuntimeAfter(s, batch, done + {device}, d, id) {
      RunningAt(batch, device, d, id);
      assert Look(m, (d, id)) == RuntimeAfter(s, batch, done, d, id);
    }
  }

  lemma GroupSkipped(m: map<(int, int), Row>, s: State, batch: Batch, done: set<int>, device: int)
    requires RuntimeIs(m, s, batch, done) && device !in s.loaded
    ensures RuntimeIs(m, s, batch, done + {device})
  {
    forall d, id ensures Look(m, (d, id)) == RuntimeAfter(s, batch, done + {device}, d, id) {
      assert Look(m, (d, id)) == RuntimeAfter(s, batch, done, d, id);
    }
  }

  lemma AllWritten(was: map<int, Row>, db: map<int, Row>, batch: Batch)
    requires forall id :: Look(db, id) == if id in Nows(batch) then Nows(batch)[id] else Look(was, id)
    ensures DbIs(db, was, batch, {}, false)
  {
    forall id ensures Look(db, id) == DbAfter(was, batch, {}, false, id) { }
  }

  /** Putting back the rows of the refused group undoes the database step on that group only. */
  lemma GroupPutBack(db: map<int, Row>, to: map<int, Row>, was: map<int, Row>, batch: Batch, device: int, restores: bool)
    requires DbIs(db, was, batch, {}, false)
    requires forall id :: Look(to, id) == if id in Olds(batch, device, restores) then Olds(batch, device, restores)[id] else Look(db, id)
    ensures DbIs(to, was, batch, {device}, restores)
  {
    forall id ensures Look(to, id) == DbAfter(was, batch, {device}, restores, id) {
      assert Look(db, id) == DbAfter(was, batch, {}, false, id);
    }
  }

  lemma NothingFailed(db: map<int, Row>, was: map<int, Row>, batch: Batch, restores: bool)
    requires DbIs(db, was, batch, {}, false)
    ensures DbIs(db, was, batch, {}, restores)
  {
    forall id ensures Look(db, id) == DbAfter(was, batch, {}, restores, id) {
      assert Look(db, id) == DbAfter(was, batch, {}, false, id);
    }
  }

  function CreateBatch(rows: seq<Row>): Batch
    requires forall i, j | 0 <= i < j < |rows| :: rows[i].id != rows[j].id
  {
    map i | 0 <= i < |rows| :: rows[i].id := Change(rows[i].device, None, Some(rows[i]))
  }

  function UpdateBatch(db: map<int, Row>, rows: seq<Row>): Batch
    requires forall i, j | 0 <= i < j < |rows| :: rows[i].id != rows[j].id
  {
    map i | 0 <= i < |rows| :: rows[i].id := Change(rows[i].device, Look(db, rows[i].id), Some(rows[i]))
  }

  /** Ids that are not in the table are not reported as deleted. */
  function DeleteBatch(db: map<int, Row>, ids: set<int>): Batch {
    map id | id in ids && id in db :: Change(db[id].device, Some(db[id]), None)
  }

  // ---------------------------------------------------------------- what the commands promise of their rows

  ghost predicate Among(rows: seq<Row>, id: int) { exists i :: 0 <= i < |rows| && rows[i].id == id }

  ghost predicate AmongOn(rows: seq<Row>, device: int, id: int) {
    exists i :: 0 <= i < |rows| && rows[i].id == id && rows[i].device == device
  }

  /** Rows that are not named are left alone, in the table and on every device. */
  ghost predicate OthersStay(s: State, to: State, rows: seq<Row>) {
    && to.loaded == s.loaded
    && (forall id | !Among(rows, id) :: Look(to.db, id) == Look(s.db, id))
    && (forall device, id | !AmongOn(rows, device, id) :: Look(to.runtime, (device, id)) == Look(s.runtime, (device, id)))
  }

  /** A created or updated row, by whether its device took it, refused it or was not asked; `refused` is
      what the table is left with when it was refused. */
  ghost predicate RowStored(s: State, to: State, row: Row, done: set<int>, failed: set<int>, refused: Option<Row>) {
    && Look(to.db, row.id) == (if row.device in failed then refused else Some(row))
    && Look(to.runtime, (row.device, row.id)) ==
         if row.device in done && row.device in s.loaded then Some(row) else Look(s.runtime, (row.device, row.id))
  }

  /** The rows are in the table, and running wherever their device is. */
  ghost predicate InPlace(to: State, rows: seq<Row>) {
    forall i | 0 <= i < |rows| ::
      && Look(to.db, rows[i].id) == Some(rows[i])
      && (rows[i].device in to.loaded ==> Look(to.runtime, (rows[i].device, rows[i].id)) == Some(rows[i]))
  }

  /** The rows of one table among the ids. */
  ghost predicate Deleted(s: State, to: State, id: int, done: set<int>, failed: set<int>)
    requires id in s.db
  {
    var device := s.db[id].device;
    && Look(to.db, id) == (if device in failed then Some(s.db[id]) else None)
    && Look(to.runtime, (device, id)) == if device in done && device in s.loaded then None else Look(s.runtime, (device, id))
  }

  /** Nothing of the ids is left, in the table or on the devices they were on. */
  ghost predicate Gone(s: State, to: State, ids: set<int>) {
    forall id | id in ids ::
      && id !in to.db
      && (id in s.db && s.db[id].device in to.loaded ==> (s.db[id].device, id) !in to.runtime)
  }

  /** What is left of a refused row: nothing of a created one, and the old or the new of an updated one. */
  function LeftWith(db: map<int, Row>, row: Row, restores: bool): Option<Row> {
    if row.id !in db then None else Some(if restores then db[row.id] else row)
  }

  lemma StoredRow(s: State, to: State, c: Command, row: Row)
    requires Outcome(s, to, c) && row.id in c.batch
    requires c.batch[row.id] == Change(row.device, Look(s.db, row.id), Some(row))
    ensures RowStored(s, to, row, c.done, c.failed, LeftWith(s.db, row, c.restores)) && row.device in Groups(c.batch)
  {
    assert Look(to.db, row.id) == DbAfter(s.db, c.batch, c.failed, c.restores, row.id);
    assert Look(to.runtime, (row.device, row.id)) == RuntimeAfter(s, c.batch, c.done, row.device, row.id);
  }

  lemma UnnamedStay(s: State, to: State, c: Command, rows: seq<Row>)
    requires Outcome(s, to, c)
    requires forall id | id in c.batch :: AmongOn(rows, c.batch[id].device, id)
    ensures OthersStay(s, to, rows)
  {
    forall id | !Among(rows, id) ensures Look(to.db, id) == Look(s.db, id) {
      assert Look(to.db, id) == DbAfter(s.db, c.batch, c.failed, c.restores, id);
    }
    forall device, id | !AmongOn(rows, device, id) ensures Look(to.runtime, (device, id)) == Look(s.runtime, (device, id)) {
      assert Look(to.runtime, (device, id)) == RuntimeAfter(s, c.batch, c.done, device, id);
    }
  }

  ghost predicate SameIds(rows: seq<Row>, batch: Batch) {
    && (forall i | 0 <= i < |rows| :: rows[i].id in batch && batch[rows[i].id].device == rows[i].device)
    && forall id | id in batch :: AmongOn(rows, batch[id].device, id)
  }

  /** A command succeeds exactly when no running device among its rows refuses. */
  lemma SucceedsIff(s: State, to: State, c: Command, rows: seq<Row>, refuses: set<int>)
    requires Outcome(s, to, c) && SameIds(rows, c.batch)
    requires c.failed <= refuses && c.done !! (refuses * s.loaded)
    ensures c.failed == {} <==> forall i | 0 <= i < |rows| :: rows[i].device !in refuses * s.loaded
  {
    if c.failed == {} {
      forall i | 0 <= i < |rows| ensures rows[i].device !in refuses * s.loaded {
        assert rows[i].device == c.batch[rows[i].id].device;
        assert rows[i].device in Groups(c.batch);
      }
    } else {
      var f := Pick(c.failed);
      assert f in Groups(c.batch);
      var id :| id in c.batch && c.batch[id].device == f;
      var i :| 0 <= i < |rows| && rows[i].id == id && rows[i].device == c.batch[id].device;
      assert rows[i].device in refuses * s.loaded;
    }
  }

  ghost predicate Stores(db: map<int, Row>, rows: seq<Row>, batch: Batch) {
    && SameIds(rows, batch)
    && forall i | 0 <= i < |rows| :: batch[rows[i].id] == Change(rows[i].device, Look(db, rows[i].id), Some(rows[i]))
  }

  lemma CreateBatchStores(db: map<int, Row>, rows: seq<Row>)
    requires forall i, j | 0 <= i < j < |rows| :: rows[i].id != rows[j].id
    requires forall i | 0 <= i < |rows| :: rows[i].id !in db
    ensures Stores(db, rows, CreateBatch(rows))
  {
  }

  lemma UpdateBatchStores(db: map<int, Row>, rows: seq<Row>)
    requires forall i, j | 0 <= i < j < |rows| :: rows[i].id != rows[j].id
    ensures Stores(db, rows, UpdateBatch(db, rows))
  {
  }

  lemma StoredRows(s: State, to: State, c: Command, rows: seq<Row>)
    requires Outcome(s, to, c) && Stores(s.db, rows, c.batch)
    ensures forall i | 0 <= i < |rows| :: RowStored(s, to, rows[i], c.done, c.failed, LeftWith(s.db, rows[i], c.restores))
    ensures c.failed == {} ==> InPlace(to, rows)
  {
    forall i | 0 <= i < |rows|
      ensures RowStored(s, to, rows[i], c.done, c.failed, LeftWith(s.db, rows[i], c.restores)) && rows[i].device in Groups(c.batch)
    {
      StoredRow(s, to, c, rows[i]);
    }
  }

  /** What a deletion leaves alone. */
  ghost predicate UndeletedStay(s: State, to: State, ids: set<int>) {
    && to.loaded == s.loaded
    && (forall id | id !in ids :: Look(to.db, id) == Look(s.db, id))
    && (forall device, id | !(id in ids && id in s.db && s.db[id].device == device) ::
          Look(to.runtime, (device, id)) == Look(s.runtime, (device, id)))
  }

  lemma DeletedRows(s: State, to: State, c: Command, ids: set<int>)
    requires c.batch == DeleteBatch(s.db, ids) && Outcome(s, to, c)
    ensures UndeletedStay(s, to, ids)
    ensures forall id | id in ids && id in s.db :: Deleted(s, to, id, c.done, c.failed)
    ensures c.failed == {} ==> Gone(s, to, ids)
  {
    forall id ensures Look(to.db, id) == DbAfter(s.db, c.batch, c.failed, c.restores, id) { }
    forall device, id ensures Look(to.runtime, (device, id)) == RuntimeAfter(s, c.batch, c.done, device, id) { }
    forall id | id in ids && id in s.db ensures Deleted(s, to, id, c.done, c.failed) && s.db[id].device in Groups(c.batch) {
      assert c.batch[id].device in Groups(c.batch);
    }
    if c.failed == {} {
      forall id | id in ids
        ensures id !in to.db && (id in s.db && s.db[id].device in to.loaded ==> (s.db[id].device, id) !in to.runtime)
      {
        if id in s.db { assert Deleted(s, to, id, c.done, c.failed); } else { assert Look(to.db, id) == None; }
      }
    }
  }

  lemma DeleteSucceedsIff(s: State, to: State, c: Command, ids: set<int>, refuses: set<int>)
    requires c.batch == DeleteBatch(s.db, ids) && Outcome(s, to, c)
    requires c.failed <= refuses && c.done !! (refuses * s.loaded)
    ensures c.failed == {} <==> forall id | id in ids && id in s.db :: s.db[id].device !in refuses * s.loaded
  {
    if c.failed == {} {
      forall id | id in ids && id in s.db ensures s.db[id].device !in refuses * s.loaded {
        assert c.batch[id].device in Groups(c.batch);
      }
    } else {
      var f := Pick(c.failed);
      assert f in Groups(c.batch);
      var id :| id in c.batch && c.batch[id].device == f;
      assert id in ids && id in s.db && s.db[id].device == f;
    }
  }

  class Gateway {
    var db: map<int, Row>
    var runtime: map<(int, int), Row>
    var loaded: set<int>

    function View(): State
      reads this
    {
      State(db, runtime, loaded)
    }

    /** One group: an unloaded device takes it without doing anything, a refusal puts the rows back. */
    method TryGroup(batch: Batch, device: int, refuses: set<int>, restores: bool, ghost s: State, ghost done: set<int>)
      returns (ok: bool)
      requires loaded == s.loaded && device !in done
      requires DbIs(db, s.db, batch, {}, false) && RuntimeIs(runtime, s, batch, done)
      modifies `db, `runtime
      ensures ok <==> device !in refuses * loaded
      ensures ok ==> db == old(db) && RuntimeIs(runtime, s, batch, done + {device})
      ensures !ok ==> DbIs(db, s.db, batch, {device}, restores) && runtime == old(runtime)
    {
      if device !in loaded {
        GroupSkipped(runtime, s, batch, done, device);
        return true;
      }
      if device in refuses {
        db := WriteAll(db, Olds(batch, device, restores));
        GroupPutBack(old(db), db, s.db, batch, device, restores);
        return false;
      }
      runtime := WriteAll(runtime, Running(batch, device));
      GroupApplied(old(runtime), runtime, s, batch, done, device);
      ok := true;
    }

    /** The loop over the groups, in any order, up to the first refusal. */
    method ApplyGroups(batch: Batch, groups: set<int>, refuses: set<int>, restores: bool, ghost s: State)
      returns (ok: bool, ghost done: set<int>, ghost failed: set<int>)
      requires loaded == s.loaded
      requires DbIs(db, s.db, batch, {}, false) && RuntimeIs(runtime, s, batch, {})
      modifies `db, `runtime
      ensures DbIs(db, s.db, batch, failed, restores) && RuntimeIs(runtime, s, batch, done)
      ensures done !! failed && done + failed <= groups && (failed == {} ==> done == groups)
      ensures ok <==> failed == {}
      ensures failed <= refuses * loaded && done !! (refuses * loaded)
    {
      var left := groups;
      done, failed, ok := {}, {}, true;
      while left != {}
        invariant left <= groups && done == groups - left && done !! (refuses * loaded)
        invariant DbIs(db, s.db, batch, {}, false) && RuntimeIs(runtime, s, batch, done)
        decreases |left|
      {
        var device := AnyOf(left);
        left := left - {device};
        var taken := TryGroup(batch, device, refuses, restores, s, done);
        if !taken {
          failed, ok := {device}, false;
          return;
        }
        done := done + {device};
      }
      NothingFailed(db, s.db, batch, restores);
    }

    /** The part the commands share: all rows to the database, then the groups to the runtime. A
        device in `refuses` turns its group down if it is loaded. */
    method Execute(batch: Batch, refuses: set<int>, restores: bool) returns (ok: bool, ghost c: Command)
      modifies `db, `runtime
      ensures c.batch == batch && c.restores == restores && Outcome(old(View()), View(), c)
      ensures ok <==> c.failed == {}
      ensures c.failed <= refuses && c.done !! (refuses * loaded)
    {
      ghost var s := View();
      db := WriteAll(db, Nows(batch));
      AllWritten(s.db, db, batch);
      assert RuntimeIs(runtime, s, batch, {});
      ghost var done, failed;
      ok, done, failed := ApplyGroups(batch, Groups(batch), refuses, restores, s);
      c := Command(batch, done, failed, restores);
    }

    /** The database gives created rows new ids. */
    method CreateRows(rows: seq<Row>, refuses: set<int>) returns (ok: bool, ghost c: Command)
      requires forall i, j | 0 <= i < j < |rows| :: rows[i].id != rows[j].id
      requires forall i | 0 <= i < |rows| :: rows[i].id !in db
      modifies `db, `runtime
      ensures ok <==> forall i | 0 <= i < |rows| :: rows[i].device !in refuses * loaded
      ensures ok ==> InPlace(View(), rows)
      ensures OthersStay(old(View()), View(), rows)
      ensures forall i | 0 <= i < |rows| :: RowStored(old(View()), View(), rows[i], c.done, c.failed, None)
      ensures c.batch == CreateBatch(rows) && Step(old(View()), View(), c)
      ensures (forall id :: !NotPutBack(c, id)) && (ok <==> c.failed == {})
      ensures c.failed <= refuses
    {
      forall id | id in CreateBatch(rows) ensures ChangeFits(db, id, CreateBatch(rows)[id]) { }
      CreateBatchStores(db, rows);
      ok, c := Execute(CreateBatch(rows), refuses, true);
      StoredRows(old(View()), View(), c, rows);
      UnnamedStay(old(View()), View(), c, rows);
      SucceedsIff(old(View()), View(), c, rows, refuses);
    }

    /** Updates of rows that exist; the old rows are read first. */
    method UpdateRows(rows: seq<Row>, refuses: set<int>, restores: bool) returns (ok: bool, ghost c: Command)
      requires forall i, j | 0 <= i < j < |rows| :: rows[i].id != rows[j].id
      requires forall i | 0 <= i < |rows| :: rows[i].id in db
      modifies `db, `runtime
      ensures ok <==> forall i | 0 <= i < |rows| :: rows[i].device !in refuses * loaded
      ensures ok ==> InPlace(View(), rows)
      ensures OthersStay(old(View()), View(), rows)
      ensures forall i | 0 <= i < |rows| ::
        RowStored(old(View()), View(), rows[i], c.done, c.failed, Some(if restores then old(db)[rows[i].id] else rows[i]))
      ensures c.batch == UpdateBatch(old(db), rows) && c.restores == restores && Step(old(View()), View(), c)
      ensures ok <==> c.failed == {}
      ensures c.failed <= refuses
    {
      forall id | id in UpdateBatch(db, rows) ensures ChangeFits(db, id, UpdateBatch(db, rows)[id]) { }
      UpdateBatchStores(db, rows);
      ok, c := Execute(UpdateBatch(db, rows), refuses, restores);
      StoredRows(old(View()), View(), c, rows);
      UnnamedStay(old(View()), View(), c, rows);
      SucceedsIff(old(View()), View(), c, rows, refuses);
    }

    /** Deletions; ids that are not in the table are passed over. */
    method DeleteRows(ids: set<int>, refuses: set<int>) returns (ok: bool, ghost c: Command)
      modifies `db, `runtime
      ensures ok <==> forall id | id in ids && id in old(db) :: old(db)[id].device !in refuses * loaded
      ensures ok ==> Gone(old(View()), View(), ids)
      ensures UndeletedStay(old(View()), View(), ids)
      ensures forall id | id in ids && id in old(db) :: Deleted(old(View()), View(), id, c.done, c.failed)
      ensures c.batch == DeleteBatch(old(db), ids) && Step(old(View()), View(), c)
      ensures (forall id :: !NotPutBack(c, id)) && (ok <==> c.failed == {})
      ensures c.failed <= refuses
    {
      ok, c := Execute(DeleteBatch(db, ids), refuses, true);
      DeletedRows(old(View()), View(), c, ids);
      DeleteSucceedsIff(old(View()), View(), c, ids, refuses);
    }
  }
}
