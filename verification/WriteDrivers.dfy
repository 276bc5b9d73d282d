/** Which driver a write ends in.  The permit belongs to the channel of the point's index entry, the
    driver to the channel the device is on when it is called, so the promise of one write per channel
    holds of the drivers exactly as far as the two are the same. */
module WriteDrivers {
  import opened Collections
  import opened WriteProtocol

  ghost predicate Inside(s: State, id: int, driver: int) {
    id in s.tasks && s.tasks[id].phase.InDriver? && s.tasks[id].phase.driver == driver
  }

  /** A call whose driver is that of the channel whose permit it holds. */
  predicate AtHome(e: Event) { e.Start? ==> e.rw.channel == e.driver }

  // ---------------------------------------------------------------- calls into one driver

  /** The call that was started last in a driver and has not ended. */
  function OpenIn(log: seq<Event>, driver: int): Option<int> {
    if log == [] then None else
      match log[|log| - 1]
      case Start(id, _, _, _, d, _, _) => if d == driver then Some(id) else OpenIn(log[..|log| - 1], driver)
      case End(_, _, d, _) => if d == driver then None else OpenIn(log[..|log| - 1], driver)
  }

  /** In this driver each call starts when none is open, and ends the open one. */
  ghost predicate SerialIn(log: seq<Event>, driver: int) {
    forall i | 0 <= i < |log| :: InOrderIn(log[..i], log[i], driver)
  }

  predicate InOrderIn(before: seq<Event>, e: Event, driver: int) {
    match e
    case Start(_, _, _, _, d, _, _) => d == driver ==> OpenIn(before, driver) == None
    case End(id, _, d, _) => d == driver ==> OpenIn(before, driver) == Some(id)
  }

  /** Every call into the driver was made under its own channel's permit. */
  ghost predicate HomeCalls(log: seq<Event>, driver: int) {
    forall i | 0 <= i < |log| && log[i].Start? && log[i].driver == driver :: AtHome(log[i])
  }

  lemma SerialInit(log: seq<Event>, driver: int)
    requires log != [] && Serial(log) && HomeCalls(log, driver)
    ensures Serial(log[..|log| - 1]) && HomeCalls(log[..|log| - 1], driver)
    ensures InOrder(log[..|log| - 1], log[|log| - 1])
  {
    var init := log[..|log| - 1];
    forall i | 0 <= i < |init| ensures InOrder(init[..i], init[i]) {
      assert InOrder(log[..i], log[i]);
      assert init[..i] == log[..i];
    }
    assert forall i | 0 <= i < |init| :: init[i] == log[i];
  }

  lemma {:induction false} OpenWasStarted(log: seq<Event>, channel: int)
    requires OpenCall(log, channel).Some?
    ensures exists i :: 0 <= i < |log| && log[i].Start? && log[i].rw.channel == channel
                        && log[i].driver == OpenCall(log, channel).value.driver
  {
    var last := log[|log| - 1];
    if last.Start? && last.rw.channel == channel {
      assert log[|log| - 1].driver == OpenCall(log, channel).value.driver;
    } else {
      var init := log[..|log| - 1];
      OpenWasStarted(init, channel);
      var i :| 0 <= i < |init| && init[i].Start? && init[i].rw.channel == channel
               && init[i].driver == OpenCall(init, channel).value.driver;
      assert log[i] == init[i];
    }
  }

  lemma OpenIsAtHome(log: seq<Event>, driver: int, channel: int)
    requires HomeCalls(log, driver) && OpenCall(log, channel).Some? && OpenCall(log, channel).value.driver == driver
    ensures channel == driver
  {
    OpenWasStarted(log, channel);
    var i :| 0 <= i < |log| && log[i].Start? && log[i].rw.channel == channel && log[i].driver == driver;
    assert AtHome(log[i]);
  }

  /** What is open in a driver is what is open under its own permit, if that is in this driver. */
  lemma {:induction false} OpenInIs(log: seq<Event>, driver: int)
    requires Serial(log) && HomeCalls(log, driver)
    ensures OpenIn(log, driver) ==
      (match OpenCall(log, driver)
       case Some(c) => if c.driver == driver then Some(c.id) else None
       case None => None)
  {
    if log != [] {
      var init, e := log[..|log| - 1], log[|log| - 1];
      SerialInit(log, driver);
      OpenInIs(init, driver);
      match e {
        case Start(_, _, rw, _, d, _, _) =>
          assert d == driver ==> AtHome(log[|log| - 1]);
        case End(id, c, d, _) =>
          if d == driver { OpenIsAtHome(init, driver, c); }
      }
    }
  }

  lemma {:induction false} HomeCallsAreSerial(log: seq<Event>, driver: int)
    requires Serial(log) && HomeCalls(log, driver)
    ensures SerialIn(log, driver)
  {
    forall i | 0 <= i < |log| ensures InOrderIn(log[..i], log[i], driver) {
      PrefixSerial(log, driver, i);
      OpenInIs(log[..i], driver);
      assert InOrder(log[..i], log[i]);
      if log[i].Start? && log[i].driver == driver { assert AtHome(log[i]); }
      if log[i].End? && log[i].driver == driver { OpenIsAtHome(log[..i], driver, log[i].channel); }
    }
  }

  lemma PrefixSerial(log: seq<Event>, driver: int, i: int)
    requires Serial(log) && HomeCalls(log, driver) && 0 <= i <= |log|
    ensures Serial(log[..i]) && HomeCalls(log[..i], driver)
  {
    var part := log[..i];
    forall k | 0 <= k < i ensures InOrder(part[..k], part[k]) {
      assert InOrder(log[..k], log[k]);
      assert part[..k] == log[..k];
    }
    assert forall k | 0 <= k < i :: part[k] == log[k];
  }

  /** When every call into a driver so far was made under its own channel's permit, calls into it never
      overlap, whatever happens to other drivers. */
  lemma HomeCallsNeverOverlap(env: Env, states: seq<State>, i: nat, driver: int)
    requires Run(env, states) && i < |states| && HomeCalls(states[i].log, driver)
    ensures SerialIn(states[i].log, driver)
  {
    CallsPerPermitNeverOverlap(env, states, i);
    HomeCallsAreSerial(states[i].log, driver);
  }

  /** Two requests in one driver hold the permits of different channels, so one at least is astray. */
  lemma TogetherMeansAstray(env: Env, states: seq<State>, i: nat, a: int, b: int, driver: int)
    requires Run(env, states) && i < |states| && a != b && Inside(states[i], a, driver) && Inside(states[i], b, driver)
    ensures states[i].tasks[a].phase.rw.channel != states[i].tasks[b].phase.rw.channel
    ensures states[i].tasks[a].phase.rw.channel != driver || states[i].tasks[b].phase.rw.channel != driver
  {
    if states[i].tasks[a].phase.rw.channel == states[i].tasks[b].phase.rw.channel {
      OneCallPerPermit(env, states, i, a, b);
    }
  }

  /** The channel of the called driver was connected when a home call was resolved. */
  lemma HomeCallWasConnected(env: Env, states: seq<State>, i: nat, e: Event)
    requires Run(env, states) && i < |states| && e in states[i].log && e.Start? && AtHome(e)
    ensures e.driver in e.seen.connected
  {
    OnlyAdmissibleWrites(env, states, i, e);
  }

  // ---------------------------------------------------------------- reaching a driver

  lemma {:induction false} RunExtends(env: Env, states: seq<State>, more: seq<State>)
    requires Run(env, states) && (more == [] || Next(env, states[|states| - 1], more[0]))
    requires forall i | 0 <= i < |more| - 1 :: Next(env, more[i], more[i + 1])
    ensures Run(env, states + more)
  {
    var all, n := states + more, |states|;
    forall i | 0 <= i < |all| - 1 ensures Next(env, all[i], all[i + 1]) {
      if i < n - 1 {
        assert Next(env, states[i], states[i + 1]);
      } else if i >= n {
        assert Next(env, more[i - n], more[i - n + 1]);
      }
    }
  }

  /** `more` leads on from `s`, through worlds out of the two. */
  ghost predicate LeadsOn(env: Env, s: State, more: seq<State>, w: World, called: World) {
    && more != [] && Next(env, s, more[0])
    && (forall i | 0 <= i < |more| - 1 :: Next(env, more[i], more[i + 1]))
    && (forall i | 0 <= i < |more| :: more[i].world == w || more[i].world == called)
  }

  lemma LeadsOnAndOn(env: Env, s: State, m: seq<State>, n: seq<State>, w: World, called: World)
    requires LeadsOn(env, s, m, w, called) && LeadsOn(env, m[|m| - 1], n, w, called)
    ensures LeadsOn(env, s, m + n, w, called)
  {
    var all := m + n;
    forall i | 0 <= i < |all| - 1 ensures Next(env, all[i], all[i + 1]) {
      if i < |m| - 1 {
        assert Next(env, m[i], m[i + 1]);
      } else if i >= |m| {
        assert Next(env, n[i - |m|], n[i - |m| + 1]);
      }
    }
  }

  /** A write can be resolved in a world and take its permit, from any state in which that is free. */
  lemma CanHold(env: Env, s: State, id: int, w: World, called: World, req: Request, rw: ResolvedWrite) returns (more: seq<State>)
    requires Admissible(env, w, req.point, req.value, rw) && id !in s.tasks
    requires rw.channel in s.free ==> s.free[rw.channel] > 0
    ensures LeadsOn(env, s, more, w, called)
    ensures var t := more[|more| - 1]; t.tasks == s.tasks[id := Task(req, Holding(rw, w, s.clock))] && t.clock == s.clock
  {
    var c := rw.channel;
    var s1 := s.(world := w);
    var s2 := s1.(tasks := s.tasks[id := Task(req, Submitted)]);
    var s3 := At(s2, id, Resolved(rw, w));
    var s4 := At(s3, id, Queued(rw, w, s.clock)).(free := if c in s.free then s.free else s.free[c := 1]);
    var s5 := At(s4, id, Holding(rw, w, s.clock)).(free := s4.free[c := s4.free[c] - 1]);
    AcceptedIffAdmissible(env, w, req.point, req.value, rw);
    assert Outside(s, s1);
    assert Submit(s1, s2, id, req);
    assert TaskStep(env, s2, s3, id) by { assert Resolve(env, s2, s3, id); }
    assert TaskStep(env, s3, s4, id) by { assert Enqueue(s3, s4, id); }
    assert TaskStep(env, s4, s5, id) by { assert Acquire(s4, s5, id); }
    more := [s1, s2, s3, s4, s5];
  }

  /** From there it can be called in any other world that has its device. */
  lemma CanCall(env: Env, s: State, id: int, called: World, req: Request, rw: ResolvedWrite, seen: World) returns (more: seq<State>)
    requires id in s.tasks && s.tasks[id] == Task(req, Holding(rw, seen, s.clock)) && rw.device in called.devices
    ensures LeadsOn(env, s, more, seen, called)
    ensures more[|more| - 1].tasks == s.tasks[id := Task(req, InDriver(rw, seen, called.devices[rw.device]))]
  {
    var d := called.devices[rw.device];
    var s1 := s.(world := called);
    var s2 := At(s1, id, InDriver(rw, seen, d)).(log := s.log + [Start(id, req, rw, seen, d, 0, Remaining(req.timeoutMs, 0))]);
    assert Outside(s, s1);
    assert TaskStep(env, s1, s2, id) by { assert CallDriver(s1, s2, id); }
    more := [s1, s2];
  }

  /** So a write can be resolved in one world and enter the driver its device has in another. */
  lemma CanEnter(env: Env, s: State, id: int, w: World, called: World, req: Request, rw: ResolvedWrite) returns (more: seq<State>)
    requires Admissible(env, w, req.point, req.value, rw) && rw.device in called.devices && id !in s.tasks
    requires rw.channel in s.free ==> s.free[rw.channel] > 0
    ensures LeadsOn(env, s, more, w, called)
    ensures more[|more| - 1].tasks == s.tasks[id := Task(req, InDriver(rw, w, called.devices[rw.device]))]
  {
    var held := CanHold(env, s, id, w, called, req, rw);
    var call := CanCall(env, held[|held| - 1], id, called, req, rw, w);
    LeadsOnAndOn(env, s, held, call, w, called);
    more := held + call;
    assert more[|more| - 1] == call[|call| - 1];
  }

  /** An admissible write reaches a driver: that of the channel its device is on when it is called. That
      need not be the channel whose permit it holds, nor one that is connected in any state of the run. */
  lemma WriteReachesDriver(env: Env, w: World, called: World, req: Request, rw: ResolvedWrite) returns (states: seq<State>)
    requires Admissible(env, w, req.point, req.value, rw) && rw.device in called.devices
    ensures Run(env, states) && states[0].world == w
    ensures states[|states| - 1].tasks == map[0 := Task(req, InDriver(rw, w, called.devices[rw.device]))]
    ensures forall i | 0 <= i < |states| :: states[i].world == w || states[i].world == called
  {
    var s0 := State(w, 0, map[], map[], [], []);
    var more := CanEnter(env, s0, 0, w, called, req, rw);
    assert Run(env, [s0]);
    RunExtends(env, [s0], more);
    states := [s0] + more;
  }

  // ---------------------------------------------------------------- when a call can be joined

  ghost predicate SomeWrite(env: Env, w: World, req: Request, rw: ResolvedWrite, channel: int) {
    Admissible(env, w, req.point, req.value, rw) && rw.channel == channel
  }

  /** Some value can be written to some point of the channel. */
  ghost predicate Writable(env: Env, channel: int) {
    exists w: World, req: Request, rw: ResolvedWrite :: SomeWrite(env, w, req, rw, channel)
  }

  /** `all` goes on from `states` to where `b`, with the driver's own permit, is in the driver with `a`. */
  ghost predicate JoinedBy(env: Env, states: seq<State>, all: seq<State>, a: int, b: int, driver: int) {
    states <= all && Run(env, all) && Joined(all[|all| - 1], a, b, driver)
  }

  ghost predicate Joined(s: State, a: int, b: int, driver: int) {
    a != b && Inside(s, a, driver) && Inside(s, b, driver) && s.tasks[b].phase.rw.channel == driver
  }

  ghost predicate CanBeJoined(env: Env, states: seq<State>, a: int, driver: int) {
    exists all: seq<State>, b: int :: JoinedBy(env, states, all, a, b, driver)
  }

  /** A request in a driver stays as it is until it is done. */
  ghost predicate StillOrDone(s: State, t: State, id: int)
    requires id in s.tasks
  {
    id in t.tasks && (t.tasks[id] == s.tasks[id] || t.tasks[id].phase.Done?)
  }

  ghost predicate KeepsCall(s: State, t: State, a: int) {
    a in s.tasks && (s.tasks[a].phase.InDriver? || s.tasks[a].phase.Done?) ==> StillOrDone(s, t, a)
  }

  lemma TaskStepKeepsCall(env: Env, s: State, t: State, id: int, a: int)
    requires TaskStep(env, s, t, id)
    ensures KeepsCall(s, t, a)
  {}

  lemma NextKeepsCall(env: Env, s: State, t: State, a: int)
    requires Next(env, s, t)
    ensures KeepsCall(s, t, a)
  {
    if id :| TaskStep(env, s, t, id) {
      TaskStepKeepsCall(env, s, t, id, a);
    }
  }

  lemma {:induction false} CallStays(states: seq<State>, i: nat, j: nat, a: int)
    requires i <= j < |states| && forall k | 0 <= k < |states| - 1 :: KeepsCall(states[k], states[k + 1], a)
    requires a in states[i].tasks && states[i].tasks[a].phase.InDriver?
    ensures StillOrDone(states[i], states[j], a)
  {
    if i < j {
      CallStays(states, i, j - 1, a);
      assert KeepsCall(states[j - 1], states[j - 1 + 1], a);
    }
  }

  lemma HomeCallIsNotJoined(env: Env, states: seq<State>, all: seq<State>, a: int, b: int, driver: int)
    requires Run(env, states) && Inside(states[|states| - 1], a, driver)
    requires states[|states| - 1].tasks[a].phase.rw.channel == driver
    ensures !JoinedBy(env, states, all, a, b, driver)
  {
    if JoinedBy(env, states, all, a, b, driver) {
      forall k | 0 <= k < |all| - 1 ensures KeepsCall(all[k], all[k + 1], a) {
        NextKeepsCall(env, all[k], all[k + 1], a);
      }
      CallStays(all, |states| - 1, |all| - 1, a);
      OneCallPerPermit(env, all, |all| - 1, a, b);
    }
  }

  lemma {:induction false} NewId(ids: set<int>) returns (x: int)
    ensures forall y | y in ids :: y < x
    decreases |ids|
  {
    x := 0;
    if ids != {} {
      var y := Pick(ids);
      var z := NewId(ids - {y});
      x := if z > y then z else y + 1;
      forall v | v in ids ensures v < x { assert v == y || v in ids - {y}; }
    }
  }

  /** Whoever holds a permit may be abandoned, which frees it and leaves everyone else where they are. */
  lemma CanFree(env: Env, s: State, channel: int) returns (t: State)
    requires Inv(env, s)
    ensures t == s || Next(env, s, t)
    ensures channel in t.free ==> t.free[channel] > 0
    ensures forall x | x in s.tasks && !HasPermit(s.tasks[x], channel) :: x in t.tasks && t.tasks[x] == s.tasks[x]
  {
    t := s;
    assert Permits(s, channel);
    var hs := Holders(s, channel);
    if hs != {} {
      var b := Pick(hs);
      assert Registered(s, s.tasks[b]);
      var p := s.tasks[b].phase;
      var u := GiveBack(At(s, b, Done(Abandoned, true)), channel);
      t := if p.Holding? then u else u.(log := s.log + [End(b, channel, p.driver, Cut)]);
      assert TaskStep(env, s, t, b) by { assert Drop(s, t, b); }
    }
  }

  lemma RunCanFree(env: Env, states: seq<State>, channel: int, a: int) returns (all: seq<State>)
    requires Run(env, states) && a in states[|states| - 1].tasks && !HasPermit(states[|states| - 1].tasks[a], channel)
    ensures states <= all && Run(env, all)
    ensures var t := all[|all| - 1]; && (channel in t.free ==> t.free[channel] > 0)
                                     && a in t.tasks && t.tasks[a] == states[|states| - 1].tasks[a]
  {
    InvAlways(env, states, |states| - 1);
    var t := CanFree(env, states[|states| - 1], channel);
    all := states;
    if t != states[|states| - 1] {
      RunExtends(env, states, [t]);
      all := states + [t];
    }
  }

  lemma AstrayIsJoined(env: Env, states: seq<State>, a: int, driver: int, w: World, req: Request, rw: ResolvedWrite)
    requires Run(env, states) && Inside(states[|states| - 1], a, driver) && SomeWrite(env, w, req, rw, driver)
    requires states[|states| - 1].tasks[a].phase.rw.channel != driver
    ensures CanBeJoined(env, states, a, driver)
  {
    var freed := RunCanFree(env, states, driver, a);
    var t := freed[|freed| - 1];
    var id := NewId(t.tasks.Keys);
    var called := w.(devices := map[rw.device := driver]);
    var enter := CanEnter(env, t, id, w, called, req, rw);
    RunExtends(env, freed, enter);
    assert JoinedBy(env, states, freed + enter, a, id, driver);
  }

  /** While a call is in a driver, a request that holds the driver's own permit can come to be in it at
      the same time exactly when the call is astray. */
  lemma CanBeJoinedIff(env: Env, states: seq<State>, a: int, driver: int)
    requires Run(env, states) && Inside(states[|states| - 1], a, driver) && Writable(env, driver)
    ensures CanBeJoined(env, states, a, driver) <==> states[|states| - 1].tasks[a].phase.rw.channel != driver
  {
    if states[|states| - 1].tasks[a].phase.rw.channel != driver {
      var w: World, req: Request, rw: ResolvedWrite :| SomeWrite(env, w, req, rw, driver);
      AstrayIsJoined(env, states, a, driver, w, req, rw);
    } else {
      forall all: seq<State>, b: int ensures !JoinedBy(env, states, all, a, b, driver) {
        HomeCallIsNotJoined(env, states, all, a, b, driver);
      }
    }
  }

  /** A device moved to another channel after its write was resolved: two requests in one driver. */
  lemma MovedDeviceOverlaps(env: Env, w: World, req: Request, rw: ResolvedWrite, driver: int)
    returns (states: seq<State>, b: int)
    requires Admissible(env, w, req.point, req.value, rw) && rw.device in w.devices && w.devices[rw.device] == rw.channel
    requires driver != rw.channel && Writable(env, driver)
    ensures Run(env, states) && states[0].world == w
    ensures var last := states[|states| - 1]; b != 0 && Inside(last, 0, driver) && Inside(last, b, driver)
  {
    var called := w.(devices := w.devices[rw.device := driver]);
    var first := WriteReachesDriver(env, w, called, req, rw);
    CanBeJoinedIff(env, first, 0, driver);
    states, b :| JoinedBy(env, first, states, 0, b, driver);
  }
}
