/** The start-up join of channels, devices, points and actions (`load_southward_config`): rows are
    grouped into hash maps by device and taken out device by device. */
module Topology {
  import opened Filters

  datatype Device = Device(id: int, data: int)

  /** A point or an action. */
  datatype Child = Child(id: int, device: int, data: int)

  datatype ChannelRow = ChannelRow(channel: int, devices: seq<Device>)

  datatype LoadedDevice = LoadedDevice(device: Device, points: seq<Child>, actions: seq<Child>)

  datatype LoadedChannel = LoadedChannel(channel: int, devices: seq<LoadedDevice>)

  // ---------------------------------------------------------------- the nested-loop join

  /** The rows of one device, in query order. */
  function OfDevice(rows: seq<Child>, id: int): seq<Child> {
    if rows == [] then [] else
      var last := rows[|rows| - 1];
      OfDevice(rows[..|rows| - 1], id) + (if last.device == id then [last] else [])
  }

  ghost function OnDevice(id: int): Child -> bool { (r: Child) => r.device == id }

  lemma {:induction false} OfDeviceIs(rows: seq<Child>, id: int)
    ensures IsFilter(rows, OnDevice(id), OfDevice(rows, id))
  {
    if rows == [] {
      FilterNone(OnDevice(id));
    } else {
      var init, last := rows[..|rows| - 1], rows[|rows| - 1];
      OfDeviceIs(init, id);
      FilterSnoc(init, last, OnDevice(id), OfDevice(init, id), rows, OfDevice(rows, id));
    }
  }

  function JoinDevices(ds: seq<Device>, points: seq<Child>, actions: seq<Child>): seq<LoadedDevice> {
    if ds == [] then [] else
      [LoadedDevice(ds[0], OfDevice(points, ds[0].id), OfDevice(actions, ds[0].id))]
      + JoinDevices(ds[1..], points, actions)
  }

  function Join(cs: seq<ChannelRow>, points: seq<Child>, actions: seq<Child>): seq<LoadedChannel> {
    if cs == [] then [] else
      [LoadedChannel(cs[0].channel, JoinDevices(cs[0].devices, points, actions))]
      + Join(cs[1..], points, actions)
  }

  lemma {:induction false} JoinDevicesAt(ds: seq<Device>, points: seq<Child>, actions: seq<Child>, j: nat)
    ensures |JoinDevices(ds, points, actions)| == |ds|
    ensures j < |ds| ==>
      JoinDevices(ds, points, actions)[j] == LoadedDevice(ds[j], OfDevice(points, ds[j].id), OfDevice(actions, ds[j].id))
  {
    if ds != [] { JoinDevicesAt(ds[1..], points, actions, if j == 0 then 0 else j - 1); }
  }

  lemma {:induction false} JoinAt(cs: seq<ChannelRow>, points: seq<Child>, actions: seq<Child>, i: nat)
    ensures |Join(cs, points, actions)| == |cs|
    ensures i < |cs| ==>
      Join(cs, points, actions)[i] == LoadedChannel(cs[i].channel, JoinDevices(cs[i].devices, points, actions))
  {
    if cs != [] { JoinAt(cs[1..], points, actions, if i == 0 then 0 else i - 1); }
  }

  ghost predicate LoadedAs(d: Device, l: LoadedDevice, points: seq<Child>, actions: seq<Child>) {
    l.device == d && IsFilter(points, OnDevice(d.id), l.points) && IsFilter(actions, OnDevice(d.id), l.actions)
  }

  /** The join has every channel and every device in its place, with all points and all actions of that
      device in query order. */
  lemma JoinIs(cs: seq<ChannelRow>, points: seq<Child>, actions: seq<Child>, i: nat, j: nat)
    requires i < |cs| && j < |cs[i].devices|
    ensures var r := Join(cs, points, actions);
            && |r| == |cs| && r[i].channel == cs[i].channel && |r[i].devices| == |cs[i].devices|
            && LoadedAs(cs[i].devices[j], r[i].devices[j], points, actions)
  {
    JoinAt(cs, points, actions, i);
    JoinDevicesAt(cs[i].devices, points, actions, j);
    OfDeviceIs(points, cs[i].devices[j].id);
    OfDeviceIs(actions, cs[i].devices[j].id);
  }

  function Ids(ds: seq<Device>): seq<int> {
    if ds == [] then [] else [ds[0].id] + Ids(ds[1..])
  }

  function AllIds(cs: seq<ChannelRow>): seq<int> {
    if cs == [] then [] else Ids(cs[0].devices) + AllIds(cs[1..])
  }

  /** The rows the database returns for a list of device ids. */
  function Query(rows: seq<Child>, ids: seq<int>): seq<Child> {
    if rows == [] then [] else
      var last := rows[|rows| - 1];
      Query(rows[..|rows| - 1], ids) + (if last.device in ids then [last] else [])
  }

  lemma {:induction false} QueryKeeps(rows: seq<Child>, ids: seq<int>, id: int)
    requires id in ids
    ensures OfDevice(Query(rows, ids), id) == OfDevice(rows, id)
  {
    if rows != [] {
      var init, last := rows[..|rows| - 1], rows[|rows| - 1];
      QueryKeeps(init, ids, id);
      var q := Query(init, ids);
      if last.device in ids {
        assert (q + [last])[..|q|] == q;
        assert Query(rows, ids) == q + [last];
      } else {
        assert Query(rows, ids) == q;
        assert last.device != id;
      }
    }
  }

  // ---------------------------------------------------------------- taking rows out of a map

  /** What is left for a device once the devices in `taken` have been served. */
  function Left(rows: seq<Child>, taken: set<int>, id: int): seq<Child> {
    if id in taken then [] else OfDevice(rows, id)
  }

  function TakeDevices(ds: seq<Device>, points: seq<Child>, actions: seq<Child>, taken: set<int>): seq<LoadedDevice> {
    if ds == [] then [] else
      [LoadedDevice(ds[0], Left(points, taken, ds[0].id), Left(actions, taken, ds[0].id))]
      + TakeDevices(ds[1..], points, actions, taken + {ds[0].id})
  }

  function IdSet(ds: seq<Device>): set<int> {
    if ds == [] then {} else {ds[0].id} + IdSet(ds[1..])
  }

  function Take(cs: seq<ChannelRow>, points: seq<Child>, actions: seq<Child>, taken: set<int>): seq<LoadedChannel> {
    if cs == [] then [] else
      [LoadedChannel(cs[0].channel, TakeDevices(cs[0].devices, points, actions, taken))]
      + Take(cs[1..], points, actions, taken + IdSet(cs[0].devices))
  }

  // ---------------------------------------------------------------- when the two agree

  ghost predicate Bare(points: seq<Child>, actions: seq<Child>, id: int) {
    OfDevice(points, id) == [] && OfDevice(actions, id) == []
  }

  /** Every id met again, or met before in `taken`, has no points and no actions. */
  ghost predicate RepeatsBare(ids: seq<int>, points: seq<Child>, actions: seq<Child>, taken: set<int>) {
    ids == [] ||
      ((ids[0] in taken ==> Bare(points, actions, ids[0])) && RepeatsBare(ids[1..], points, actions, taken + {ids[0]}))
  }

  lemma {:induction false} DevicesAgreeIff(ds: seq<Device>, points: seq<Child>, actions: seq<Child>, taken: set<int>)
    ensures TakeDevices(ds, points, actions, taken) == JoinDevices(ds, points, actions)
       <==> RepeatsBare(Ids(ds), points, actions, taken)
  {
    if ds != [] {
      var d := ds[0];
      DevicesAgreeIff(ds[1..], points, actions, taken + {d.id});
      assert Ids(ds)[1..] == Ids(ds[1..]);
      var a, b := TakeDevices(ds, points, actions, taken), JoinDevices(ds, points, actions);
      assert a[1..] == TakeDevices(ds[1..], points, actions, taken + {d.id});
      assert b[1..] == JoinDevices(ds[1..], points, actions);
      assert a == [a[0]] + a[1..] && b == [b[0]] + b[1..];
    }
  }

  lemma {:induction false} RepeatsSplit(ids: seq<int>, more: seq<int>, points: seq<Child>, actions: seq<Child>, taken: set<int>)
    ensures RepeatsBare(ids + more, points, actions, taken)
       <==> RepeatsBare(ids, points, actions, taken) && RepeatsBare(more, points, actions, taken + (set x | x in ids))
  {
    if ids == [] {
      assert ids + more == more;
      assert taken + (set x | x in ids) == taken;
    } else {
      assert (ids + more)[1..] == ids[1..] + more;
      RepeatsSplit(ids[1..], more, points, actions, taken + {ids[0]});
      assert taken + {ids[0]} + (set x | x in ids[1..]) == taken + (set x | x in ids);
    }
  }

  lemma {:induction false} IdSetOfIds(ds: seq<Device>)
    ensures IdSet(ds) == set x | x in Ids(ds)
  {
    if ds != [] { IdSetOfIds(ds[1..]); }
  }

  lemma {:induction false} ChannelsAgreeIff(cs: seq<ChannelRow>, points: seq<Child>, actions: seq<Child>, taken: set<int>)
    ensures Take(cs, points, actions, taken) == Join(cs, points, actions)
       <==> RepeatsBare(AllIds(cs), points, actions, taken)
  {
    if cs != [] {
      var ds := cs[0].devices;
      DevicesAgreeIff(ds, points, actions, taken);
      ChannelsAgreeIff(cs[1..], points, actions, taken + IdSet(ds));
      RepeatsSplit(Ids(ds), AllIds(cs[1..]), points, actions, taken);
      IdSetOfIds(ds);
      var a, b := Take(cs, points, actions, taken), Join(cs, points, actions);
      assert a[1..] == Take(cs[1..], points, actions, taken + IdSet(ds));
      assert b[1..] == Join(cs[1..], points, actions);
      assert a == [a[0]] + a[1..] && b == [b[0]] + b[1..];
    }
  }

  lemma {:induction false} RepeatsBareIff(ids: seq<int>, points: seq<Child>, actions: seq<Child>, taken: set<int>)
    ensures RepeatsBare(ids, points, actions, taken) <==>
      (forall j | 0 <= j < |ids| :: ids[j] in taken || ids[j] in ids[..j] ==> Bare(points, actions, ids[j]))
  {
    if ids != [] {
      var rest := ids[1..];
      RepeatsBareIff(rest, points, actions, taken + {ids[0]});
      forall j | 0 <= j < |rest|
        ensures (rest[j] in taken + {ids[0]} || rest[j] in rest[..j]) <==> (ids[j + 1] in taken || ids[j + 1] in ids[..j + 1])
      {
        assert ids[..j + 1] == [ids[0]] + rest[..j];
      }
      if forall j | 0 <= j < |ids| :: ids[j] in taken || ids[j] in ids[..j] ==> Bare(points, actions, ids[j]) {
        forall j | 0 <= j < |rest| && (rest[j] in taken + {ids[0]} || rest[j] in rest[..j]) ensures Bare(points, actions, rest[j]) {
          assert rest[j] == ids[j + 1];
        }
      }
    }
  }

  /** The loader equals the nested-loop join exactly when no device id that has points or actions
      is listed twice; unique ids are enough. */
  lemma LoaderIsJoinIff(cs: seq<ChannelRow>, points: seq<Child>, actions: seq<Child>)
    ensures Take(cs, points, actions, {}) == Join(cs, points, actions) <==>
      (forall j | 0 <= j < |AllIds(cs)| :: AllIds(cs)[j] in AllIds(cs)[..j] ==> Bare(points, actions, AllIds(cs)[j]))
  {
    ChannelsAgreeIff(cs, points, actions, {});
    RepeatsBareIff(AllIds(cs), points, actions, {});
  }

  lemma UniqueIdsGiveJoin(cs: seq<ChannelRow>, points: seq<Child>, actions: seq<Child>)
    requires forall i, j | 0 <= i < j < |AllIds(cs)| :: AllIds(cs)[i] != AllIds(cs)[j]
    ensures Take(cs, points, actions, {}) == Join(cs, points, actions)
  {
    LoaderIsJoinIff(cs, points, actions);
  }

  // ---------------------------------------------------------------- the loader

  function Lookup(m: map<int, seq<Child>>, id: int): seq<Child> {
    if id in m then m[id] else []
  }

  method GroupByDevice(rows: seq<Child>) returns (m: map<int, seq<Child>>)
    ensures forall id :: Lookup(m, id) == OfDevice(rows, id)
  {
    m := map[];
    for i := 0 to |rows|
      invariant forall id :: Lookup(m, id) == OfDevice(rows[..i], id)
    {
      var r := rows[i];
      assert rows[..i + 1][..i] == rows[..i];
      m := m[r.device := Lookup(m, r.device) + [r]];
    }
    assert rows[..|rows|] == rows;
  }

  lemma {:induction false} TakeAppends(ds: seq<Device>, d: Device, points: seq<Child>, actions: seq<Child>, taken: set<int>)
    ensures TakeDevices(ds + [d], points, actions, taken) == TakeDevices(ds, points, actions, taken)
      + [LoadedDevice(d, Left(points, taken + IdSet(ds), d.id), Left(actions, taken + IdSet(ds), d.id))]
    ensures IdSet(ds + [d]) == IdSet(ds) + {d.id}
  {
    if ds == [] {
      assert ds + [d] == [d];
      assert taken + IdSet(ds) == taken;
    } else {
      assert (ds + [d])[1..] == ds[1..] + [d];
      TakeAppends(ds[1..], d, points, actions, taken + {ds[0].id});
      assert taken + {ds[0].id} + IdSet(ds[1..]) == taken + IdSet(ds);
    }
  }

  function ChannelIds(cs: seq<ChannelRow>): set<int> {
    if cs == [] then {} else IdSet(cs[0].devices) + ChannelIds(cs[1..])
  }

  lemma {:induction false} TakeAppendsChannel(cs: seq<ChannelRow>, c: ChannelRow, points: seq<Child>, actions: seq<Child>,
                                              taken: set<int>)
    ensures Take(cs + [c], points, actions, taken) == Take(cs, points, actions, taken)
      + [LoadedChannel(c.channel, TakeDevices(c.devices, points, actions, taken + ChannelIds(cs)))]
    ensures ChannelIds(cs + [c]) == ChannelIds(cs) + IdSet(c.devices)
  {
    if cs == [] {
      assert cs + [c] == [c];
      assert taken + ChannelIds(cs) == taken;
    } else {
      assert (cs + [c])[1..] == cs[1..] + [c];
      TakeAppendsChannel(cs[1..], c, points, actions, taken + IdSet(cs[0].devices));
      assert taken + IdSet(cs[0].devices) + ChannelIds(cs[1..]) == taken + ChannelIds(cs);
    }
  }

  ghost predicate Remaining(m: map<int, seq<Child>>, rows: seq<Child>, taken: set<int>) {
    forall id :: Lookup(m, id) == Left(rows, taken, id)
  }

  lemma TakingOut(m: map<int, seq<Child>>, rows: seq<Child>, taken: set<int>, id: int)
    requires Remaining(m, rows, taken)
    ensures Remaining(m - {id}, rows, taken + {id})
  {
    forall k ensures Lookup(m - {id}, k) == Left(rows, taken + {id}, k) {
      assert Lookup(m, k) == Left(rows, taken, k);
    }
  }

  /** One channel's devices, each taking its rows out of the two maps. */
  method TakeChannel(ds: seq<Device>, pm0: map<int, seq<Child>>, am0: map<int, seq<Child>>,
                     ghost points: seq<Child>, ghost actions: seq<Child>, ghost taken: set<int>)
    returns (out: seq<LoadedDevice>, pm: map<int, seq<Child>>, am: map<int, seq<Child>>)
    requires Remaining(pm0, points, taken) && Remaining(am0, actions, taken)
    ensures out == TakeDevices(ds, points, actions, taken)
    ensures Remaining(pm, points, taken + IdSet(ds)) && Remaining(am, actions, taken + IdSet(ds))
  {
    out, pm, am := [], pm0, am0;
    assert taken + IdSet(ds[..0]) == taken;
    for i := 0 to |ds|
      invariant out == TakeDevices(ds[..i], points, actions, taken)
      invariant Remaining(pm, points, taken + IdSet(ds[..i])) && Remaining(am, actions, taken + IdSet(ds[..i]))
    {
      var d := ds[i];
      TakeAppends(ds[..i], d, points, actions, taken);
      assert ds[..i + 1] == ds[..i] + [d];
      assert taken + IdSet(ds[..i + 1]) == taken + IdSet(ds[..i]) + {d.id};
      out := out + [LoadedDevice(d, Lookup(pm, d.id), Lookup(am, d.id))];
      TakingOut(pm, points, taken + IdSet(ds[..i]), d.id);
      TakingOut(am, actions, taken + IdSet(ds[..i]), d.id);
      pm, am := pm - {d.id}, am - {d.id};
    }
    assert ds[..|ds|] == ds;
  }

  lemma {:induction false} NoIdsNoRows(cs: seq<ChannelRow>, points: seq<Child>, actions: seq<Child>)
    requires AllIds(cs) == []
    ensures Join(cs, points, actions) == Join(cs, [], [])
  {
    if cs != [] {
      assert Ids(cs[0].devices) == [];
      NoIdsNoRows(cs[1..], points, actions);
    }
  }

  lemma {:induction false} IdIsListed(cs: seq<ChannelRow>, c: int, d: int)
    requires 0 <= c < |cs| && 0 <= d < |cs[c].devices|
    ensures cs[c].devices[d].id in AllIds(cs)
  {
    if c == 0 { IdOfDevice(cs[0].devices, d); } else { IdIsListed(cs[1..], c - 1, d); }
  }

  lemma {:induction false} IdOfDevice(ds: seq<Device>, d: int)
    requires 0 <= d < |ds|
    ensures ds[d].id in Ids(ds)
  {
    if d > 0 { IdOfDevice(ds[1..], d - 1); }
  }

  lemma {:induction false} QueriedDevices(ds: seq<Device>, points: seq<Child>, actions: seq<Child>, ids: seq<int>, taken: set<int>)
    requires forall d | 0 <= d < |ds| :: ds[d].id in ids
    ensures TakeDevices(ds, Query(points, ids), Query(actions, ids), taken) == TakeDevices(ds, points, actions, taken)
  {
    if ds != [] {
      assert ds[0].id in ids;
      QueryKeeps(points, ids, ds[0].id);
      QueryKeeps(actions, ids, ds[0].id);
      QueriedDevices(ds[1..], points, actions, ids, taken + {ds[0].id});
    }
  }

  ghost predicate Lists(ids: seq<int>, cs: seq<ChannelRow>) {
    forall c, d | 0 <= c < |cs| && 0 <= d < |cs[c].devices| :: cs[c].devices[d].id in ids
  }

  /** Asking the database only for the listed devices loses nothing. */
  lemma {:induction false} QueriedChannels(cs: seq<ChannelRow>, points: seq<Child>, actions: seq<Child>, ids: seq<int>, taken: set<int>)
    requires Lists(ids, cs)
    ensures Take(cs, Query(points, ids), Query(actions, ids), taken) == Take(cs, points, actions, taken)
  {
    if cs != [] {
      QueriedDevices(cs[0].devices, points, actions, ids, taken);
      QueriedChannels(cs[1..], points, actions, ids, taken + IdSet(cs[0].devices));
    }
  }

  lemma {:induction false} NoIdsTakeIsJoin(cs: seq<ChannelRow>, points: seq<Child>, actions: seq<Child>, taken: set<int>)
    requires AllIds(cs) == []
    ensures Take(cs, points, actions, taken) == Join(cs, points, actions)
  {
    ChannelsAgreeIff(cs, points, actions, taken);
  }

  /** The two grouping loops and the loop over channels, on the rows the database returned. */
  method TakeAll(cs: seq<ChannelRow>, qp: seq<Child>, qa: seq<Child>) returns (out: seq<LoadedChannel>)
    ensures out == Take(cs, qp, qa, {})
  {
    var pm := GroupByDevice(qp);
    var am := GroupByDevice(qa);
    out := [];
    for i := 0 to |cs|
      invariant out == Take(cs[..i], qp, qa, {})
      invariant Remaining(pm, qp, ChannelIds(cs[..i])) && Remaining(am, qa, ChannelIds(cs[..i]))
    {
      TakeAppendsChannel(cs[..i], cs[i], qp, qa, {});
      assert cs[..i + 1] == cs[..i] + [cs[i]];
      assert {} + ChannelIds(cs[..i]) == ChannelIds(cs[..i]);
      var devices;
      devices, pm, am := TakeChannel(cs[i].devices, pm, am, qp, qa, ChannelIds(cs[..i]));
      out := out + [LoadedChannel(cs[i].channel, devices)];
    }
    assert cs[..|cs|] == cs;
  }

  /** `load_southward_config` over the whole point and action tables. */
  method LoadSouthwardConfig(cs: seq<ChannelRow>, points: seq<Child>, actions: seq<Child>) returns (out: seq<LoadedChannel>)
    ensures out == Take(cs, points, actions, {})
    ensures (forall j | 0 <= j < |AllIds(cs)| :: AllIds(cs)[j] in AllIds(cs)[..j] ==> Bare(points, actions, AllIds(cs)[j]))
       <==> out == Join(cs, points, actions)
  {
    LoaderIsJoinIff(cs, points, actions);
    var ids := AllIds(cs);
    if ids == [] {
      NoIdsTakeIsJoin(cs, points, actions, {});
      NoIdsNoRows(cs, points, actions);
      out := Join(cs, [], []);
      return;
    }
    forall c, d | 0 <= c < |cs| && 0 <= d < |cs[c].devices| ensures cs[c].devices[d].id in ids { IdIsListed(cs, c, d); }
    QueriedChannels(cs, points, actions, ids, {});
    out := TakeAll(cs, Query(points, ids), Query(actions, ids));
  }
}
