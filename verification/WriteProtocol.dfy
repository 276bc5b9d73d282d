/** The control-plane write pipeline of `ng-gateway-core/src/gateway.rs`: resolve, queue on the
    channel's one-permit semaphore, write through the driver.  Requests from northward apps
    and from the REST interface interleave arbitrarily; the runtime index, the device table and
    the connections may change between any two steps.  The permit is that of the channel in the
    point's index entry; the driver is that of the channel the device is on when it is called. */
module WriteProtocol {
  import opened Collections
  import opened Values

  datatype AccessMode = Read | Write | ReadWrite

  datatype PointMeta = PointMeta(device: int, channel: int, access: AccessMode, logicalType: DataType,
                                 min: Option<real>, max: Option<real>, handle: int)

  /** What a request can see of the southward runtime; a device has the driver of a channel. */
  datatype World = World(points: map<int, PointMeta>, devices: map<int, int>, connected: set<int>)

  datatype ErrorKind = NotFound | NotWriteable | TypeMismatch | OutOfRange | NotConnected | DriverError | QueueTimeout

  datatype CodecResult = Wire(value: NGValue) | CodecOutOfRange | CodecInvalid | CodecOther

  /** The float reading of a value and the logical-to-wire codec. */
  datatype Env = Env(asF64: NGValue -> Option<real>, toWire: (NGValue, PointMeta) -> CodecResult)

  datatype ResolvedWrite = ResolvedWrite(point: int, device: int, channel: int, handle: int, wire: NGValue)

  datatype Resolution = Accepted(rw: ResolvedWrite) | Rejected(kind: ErrorKind)

  // ---------------------------------------------------------------- resolve_write

  predicate OutsideLimits(env: Env, m: PointMeta, v: NGValue) {
    && m.min.Some? && m.max.Some? && env.asF64(v).Some?
    && (env.asF64(v).value < m.min.value || env.asF64(v).value > m.max.value)
  }

  function ResolveWrite(env: Env, w: World, point: int, v: NGValue): Resolution {
    if point !in w.points then Rejected(NotFound) else
      var m := w.points[point];
      if m.access.Read? then Rejected(NotWriteable)
      else if TypeOf(v) != m.logicalType then Rejected(TypeMismatch)
      else if OutsideLimits(env, m, v) then Rejected(ErrorKind.OutOfRange)
      else if m.channel !in w.connected then Rejected(NotConnected)
      else match env.toWire(v, m)
        case Wire(x) => Accepted(ResolvedWrite(point, m.device, m.channel, m.handle, x))
        case CodecOutOfRange => Rejected(ErrorKind.OutOfRange)
        case CodecInvalid => Rejected(TypeMismatch)
        case CodecOther => Rejected(DriverError)
  }

  /** All that has to hold of a write at the moment it is resolved. */
  ghost predicate Admissible(env: Env, w: World, point: int, v: NGValue, rw: ResolvedWrite) {
    && point in w.points
    && var m := w.points[point];
    && (m.access.Write? || m.access.ReadWrite?)
    && TypeOf(v) == m.logicalType
    && (m.min.Some? && m.max.Some? ==> forall x | env.asF64(v) == Some(x) :: m.min.value <= x <= m.max.value)
    && m.channel in w.connected
    && env.toWire(v, m) == Wire(rw.wire)
    && rw == ResolvedWrite(point, m.device, m.channel, m.handle, rw.wire)
  }

  lemma AcceptedIffAdmissible(env: Env, w: World, point: int, v: NGValue, rw: ResolvedWrite)
    ensures ResolveWrite(env, w, point, v) == Accepted(rw) <==> Admissible(env, w, point, v, rw)
  {
  }

  // ---------------------------------------------------------------- state

  datatype Origin = Northward(app: int) | Rest

  datatype Request = Request(origin: Origin, point: int, value: NGValue, timeoutMs: Option<nat>)

  datatype Outcome = Success | Failed(kind: ErrorKind) | Abandoned

  /** Where a request is; `seen` is the world its resolve step looked at, `driver` the channel whose
      driver was called. */
  datatype Phase =
    | Submitted
    | Resolved(rw: ResolvedWrite, seen: World)
    | Queued(rw: ResolvedWrite, seen: World, since: nat)
    | Holding(rw: ResolvedWrite, seen: World, since: nat)
    | InDriver(rw: ResolvedWrite, seen: World, driver: int)
    | Done(outcome: Outcome, replied: bool)

  datatype Task = Task(req: Request, phase: Phase)

  /** How a driver call ended: with the driver's answer, or because the caller was dropped. */
  datatype Ending = Answered(ok: bool) | Cut

  datatype Event =
    | Start(id: int, req: Request, rw: ResolvedWrite, seen: World, driver: int, waited: nat, budget: Option<nat>)
    | End(id: int, channel: int, driver: int, ending: Ending)

  datatype State = State(world: World, clock: nat, tasks: map<int, Task>, free: map<int, nat>,
                         log: seq<Event>, replies: seq<(int, Outcome)>)

  ghost predicate Init(s: State) {
    s.tasks == map[] && s.free == map[] && s.log == [] && s.replies == []
  }

  function At(s: State, id: int, phase: Phase): State
    requires id in s.tasks
  {
    s.(tasks := s.tasks[id := Task(s.tasks[id].req, phase)])
  }

  /** The time left for the driver: at least one millisecond. */
  function Remaining(timeoutMs: Option<nat>, waited: nat): Option<nat> {
    match timeoutMs
    case None => None
    case Some(ms) => Some(if waited < ms then ms - waited else 1)
  }

  function GiveBack(s: State, channel: int): State
    requires channel in s.free
  {
    s.(free := s.free[channel := s.free[channel] + 1])
  }

  // ---------------------------------------------------------------- steps

  ghost predicate Submit(s: State, t: State, id: int, req: Request) {
    id !in s.tasks && t == s.(tasks := s.tasks[id := Task(req, Submitted)])
  }

  /** Devices, points and connections come and go, and time passes. */
  ghost predicate Outside(s: State, t: State) {
    t.clock >= s.clock && t == s.(world := t.world, clock := t.clock)
  }

  ghost predicate Resolve(env: Env, s: State, t: State, id: int) {
    && id in s.tasks && s.tasks[id].phase.Submitted?
    && var req := s.tasks[id].req;
    match ResolveWrite(env, s.world, req.point, req.value)
    case Accepted(rw) => t == At(s, id, Resolved(rw, s.world))
    case Rejected(kind) => t == At(s, id, Done(Failed(kind), false))
  }

  /** Look up the channel's semaphore, creating it with one permit, and start waiting. */
  ghost predicate Enqueue(s: State, t: State, id: int) {
    && id in s.tasks && s.tasks[id].phase.Resolved?
    && var p := s.tasks[id].phase;
    && var c := p.rw.channel;
    t == At(s, id, Queued(p.rw, p.seen, s.clock)).(free := if c in s.free then s.free else s.free[c := 1])
  }

  ghost predicate Acquire(s: State, t: State, id: int) {
    && id in s.tasks && s.tasks[id].phase.Queued?
    && var p := s.tasks[id].phase;
    && var c := p.rw.channel;
    && c in s.free && s.free[c] > 0
    && t == At(s, id, Holding(p.rw, p.seen, p.since)).(free := s.free[c := s.free[c] - 1])
  }

  ghost predicate TimeOut(s: State, t: State, id: int) {
    && id in s.tasks && s.tasks[id].phase.Queued?
    && var ms := s.tasks[id].req.timeoutMs;
    && ms.Some? && s.clock >= s.tasks[id].phase.since + ms.value
    && t == At(s, id, Done(Failed(QueueTimeout), false))
  }

  ghost predicate DeviceMissing(s: State, t: State, id: int) {
    && id in s.tasks && s.tasks[id].phase.Holding?
    && var rw := s.tasks[id].phase.rw;
    && rw.device !in s.world.devices && rw.channel in s.free
    && t == GiveBack(At(s, id, Done(Failed(NotFound), false)), rw.channel)
  }

  ghost predicate CallDriver(s: State, t: State, id: int) {
    && id in s.tasks && s.tasks[id].phase.Holding?
    && var p := s.tasks[id].phase;
    && p.rw.device in s.world.devices
    && var waited := if s.clock >= p.since then s.clock - p.since else 0;
    && var req := s.tasks[id].req;
    && var driver := s.world.devices[p.rw.device];
    t == At(s, id, InDriver(p.rw, p.seen, driver)).(
      log := s.log + [Start(id, req, p.rw, p.seen, driver, waited, Remaining(req.timeoutMs, waited))])
  }

  ghost predicate DriverReturns(s: State, t: State, id: int, ok: bool) {
    && id in s.tasks && s.tasks[id].phase.InDriver?
    && var c := s.tasks[id].phase.rw.channel;
    && c in s.free
    && t == GiveBack(At(s, id, Done(if ok then Success else Failed(DriverError), false)), c).(
         log := s.log + [End(id, c, s.tasks[id].phase.driver, Answered(ok))])
  }

  /** The request's future is dropped; a held permit is returned by its destructor. */
  ghost predicate Drop(s: State, t: State, id: int) {
    && id in s.tasks && !s.tasks[id].phase.Done?
    && var p := s.tasks[id].phase;
    && var u := At(s, id, Done(Abandoned, true));
    if p.Holding? then p.rw.channel in s.free && t == GiveBack(u, p.rw.channel)
    else if p.InDriver? then
      p.rw.channel in s.free && t == GiveBack(u, p.rw.channel).(log := s.log + [End(id, p.rw.channel, p.driver, Cut)])
    else t == u
  }

  ghost predicate Reply(s: State, t: State, id: int) {
    && id in s.tasks && s.tasks[id].phase.Done? && !s.tasks[id].phase.replied
    && var o := s.tasks[id].phase.outcome;
    t == At(s, id, Done(o, true)).(replies := s.replies + [(id, o)])
  }

  ghost predicate TaskStep(env: Env, s: State, t: State, id: int) {
    || Resolve(env, s, t, id) || Enqueue(s, t, id) || Acquire(s, t, id) || TimeOut(s, t, id)
    || DeviceMissing(s, t, id) || CallDriver(s, t, id)
    || DriverReturns(s, t, id, true) || DriverReturns(s, t, id, false)
    || Drop(s, t, id) || Reply(s, t, id)
  }

  ghost predicate Next(env: Env, s: State, t: State) {
    || Outside(s, t)
    || (exists id, req :: Submit(s, t, id, req))
    || (exists id :: TaskStep(env, s, t, id))
  }

  ghost predicate Run(env: Env, states: seq<State>) {
    && states != [] && Init(states[0])
    && forall i | 0 <= i < |states| - 1 :: Next(env, states[i], states[i + 1])
  }

  // ---------------------------------------------------------------- invariant

  predicate HasPermit(task: Task, channel: int) {
    (task.phase.Holding? || task.phase.InDriver?) && task.phase.rw.channel == channel
  }

  /** The requests that hold the permit of a channel. */
  function Holders(s: State, channel: int): set<int> {
    set id | id in s.tasks && HasPermit(s.tasks[id], channel)
  }

  /** Free and held permits of a channel add up to one; before its first use there are none. */
  ghost predicate Permits(s: State, channel: int) {
    if channel in s.free then s.free[channel] + |Holders(s, channel)| == 1 else Holders(s, channel) == {}
  }

  predicate Validated(env: Env, task: Task) {
    (task.phase.Resolved? || task.phase.Queued? || task.phase.Holding? || task.phase.InDriver?) ==>
      ResolveWrite(env, task.phase.seen, task.req.point, task.req.value) == Accepted(task.phase.rw)
  }

  /** Only the queue creates waiting or holding requests, so their semaphore exists. */
  predicate Registered(s: State, task: Task) {
    (task.phase.Queued? || task.phase.Holding? || task.phase.InDriver?) ==> task.phase.rw.channel in s.free
  }

  datatype Call = Call(id: int, driver: int)

  /** The driver call that is open under a channel's permit after the logged events. */
  function OpenCall(log: seq<Event>, channel: int): Option<Call> {
    if log == [] then None else
      match log[|log| - 1]
      case Start(id, _, rw, _, d, _, _) => if rw.channel == channel then Some(Call(id, d)) else OpenCall(log[..|log| - 1], channel)
      case End(_, c, _, _) => if c == channel then None else OpenCall(log[..|log| - 1], channel)
  }

  /** Calls under one permit never overlap: each starts when none is open, and ends the open one. */
  ghost predicate Serial(log: seq<Event>) {
    forall i | 0 <= i < |log| :: InOrder(log[..i], log[i])
  }

  predicate InOrder(before: seq<Event>, e: Event) {
    match e
    case Start(_, _, rw, _, _, _, _) => OpenCall(before, rw.channel) == None
    case End(id, c, d, _) => OpenCall(before, c) == Some(Call(id, d))
  }

  /** A driver call was resolved as admissible, and its time budget respects the timeout. */
  ghost predicate GoodStart(env: Env, e: Event) {
    e.Start? ==>
      && Admissible(env, e.seen, e.req.point, e.req.value, e.rw)
      && (e.req.timeoutMs.None? <==> e.budget.None?)
      && (e.budget.Some? ==> if e.waited < e.req.timeoutMs.value then e.waited + e.budget.value == e.req.timeoutMs.value
                             else e.budget.value == 1)
  }

  ghost predicate CallsMatchLog(s: State, channel: int) {
    match OpenCall(s.log, channel)
    case Some(call) =>
      && call.id in s.tasks && s.tasks[call.id].phase.InDriver?
      && s.tasks[call.id].phase.rw.channel == channel && s.tasks[call.id].phase.driver == call.driver
    case None => forall id | id in Holders(s, channel) :: !s.tasks[id].phase.InDriver?
  }

  ghost predicate RepliesMatch(s: State) {
    && (forall i | 0 <= i < |s.replies| ::
          s.replies[i].0 in s.tasks && s.tasks[s.replies[i].0].phase == Done(s.replies[i].1, true))
    && (forall i, j | 0 <= i < j < |s.replies| :: s.replies[i].0 != s.replies[j].0)
    && (forall id | id in s.tasks && s.tasks[id].phase.Done? && s.tasks[id].phase.replied
                    && !s.tasks[id].phase.outcome.Abandoned? :: (id, s.tasks[id].phase.outcome) in s.replies)
  }

  ghost predicate Inv(env: Env, s: State) {
    && (forall c :: Permits(s, c))
    && (forall id | id in s.tasks :: Validated(env, s.tasks[id]) && Registered(s, s.tasks[id]))
    && (forall c :: CallsMatchLog(s, c))
    && Serial(s.log)
    && (forall i | 0 <= i < |s.log| :: GoodStart(env, s.log[i]))
    && RepliesMatch(s)
  }

  // ---------------------------------------------------------------- permits

  /** How a step moves permits: not at all, creating a semaphore, taking one or giving it back. */
  ghost predicate MovesPermit(s: State, t: State, id: int) {
    && id in s.tasks && id in t.tasks && t.tasks == s.tasks[id := t.tasks[id]]
    && var old_, new_ := s.tasks[id], t.tasks[id];
    || (Holdless(old_) && Holdless(new_) && t.free == s.free)
    || (Holdless(old_) && Holdless(new_) && exists c :: c !in s.free && t.free == s.free[c := 1])
    || (old_.phase.Holding? && new_.phase.InDriver? && new_.phase.rw == old_.phase.rw && t.free == s.free)
    || (Holdless(old_) && !Holdless(new_) && Moved(s.free, t.free, new_.phase.rw.channel, -1))
    || (!Holdless(old_) && Holdless(new_) && Moved(s.free, t.free, old_.phase.rw.channel, 1))
  }

  predicate Holdless(task: Task) {
    !task.phase.Holding? && !task.phase.InDriver?
  }

  ghost predicate Moved(before: map<int, nat>, after: map<int, nat>, c: int, d: int) {
    c in before && before[c] + d >= 0 && after == before[c := before[c] + d]
  }

  lemma StepMovesPermit(env: Env, s: State, t: State, id: int)
    requires TaskStep(env, s, t, id)
    ensures MovesPermit(s, t, id)
  {
  }

  lemma PermitsKept(s: State, t: State, id: int, c: int)
    requires MovesPermit(s, t, id) && Permits(s, c) && Registered(s, s.tasks[id])
    ensures Permits(t, c)
  {
    var gained, lost := HasPermit(t.tasks[id], c), HasPermit(s.tasks[id], c);
    assert Holders(t, c) == if gained then Holders(s, c) + {id} else Holders(s, c) - {id};
    assert lost <==> id in Holders(s, c);
  }

  /** Mutual exclusion follows from conservation. */
  lemma OnePermit(s: State, c: int, a: int, b: int)
    requires Permits(s, c) && a in Holders(s, c) && b in Holders(s, c)
    ensures a == b
  {
    if a != b { SubsetCardinality({a, b}, Holders(s, c)); }
  }

  lemma RegisteredKept(env: Env, s: State, t: State, id: int, other: int)
    requires TaskStep(env, s, t, id) && MovesPermit(s, t, id)
    requires other in s.tasks && Registered(s, s.tasks[other]) && Registered(s, s.tasks[id])
    ensures Registered(t, t.tasks[other])
  {
    assert s.free.Keys <= t.free.Keys;
  }

  lemma ValidatedKept(env: Env, s: State, t: State, id: int)
    requires TaskStep(env, s, t, id) && Validated(env, s.tasks[id])
    ensures Validated(env, t.tasks[id])
  {
  }

  // ---------------------------------------------------------------- the driver log

  /** How a step extends the log: not at all, or by the start or the end of its own call. */
  ghost predicate LogsCall(env: Env, s: State, t: State, id: int) {
    && id in s.tasks && id in t.tasks && t.tasks == s.tasks[id := t.tasks[id]]
    && var p, q := s.tasks[id].phase, t.tasks[id].phase;
    || (t.log == s.log && !p.InDriver? && !q.InDriver?)
    || (exists e: Event :: e.Start? && e.id == id && t.log == s.log + [e] && GoodStart(env, e)
                    && p.Holding? && q.InDriver? && p.rw == e.rw && q.rw == e.rw && q.driver == e.driver)
    || (p.InDriver? && q.Done? && exists n :: t.log == s.log + [End(id, p.rw.channel, p.driver, n)])
  }

  lemma StepLogs(env: Env, s: State, t: State, id: int)
    requires TaskStep(env, s, t, id) && Validated(env, s.tasks[id])
    ensures LogsCall(env, s, t, id)
  {
    if CallDriver(s, t, id) {
      var e := t.log[|s.log|];
      AcceptedIffAdmissible(env, e.seen, e.req.point, e.req.value, e.rw);
      assert GoodStart(env, e);
    }
  }

  lemma OpenCallSnoc(log: seq<Event>, e: Event, c: int)
    ensures OpenCall(log + [e], c) ==
      match e
      case Start(id, _, rw, _, d, _, _) => if rw.channel == c then Some(Call(id, d)) else OpenCall(log, c)
      case End(_, d, _, _) => if d == c then None else OpenCall(log, c)
  {
    assert (log + [e])[..|log|] == log;
  }

  lemma SerialSnoc(log: seq<Event>, e: Event)
    requires Serial(log) && InOrder(log, e)
    ensures Serial(log + [e])
  {
    var l := log + [e];
    forall i | 0 <= i < |l| ensures InOrder(l[..i], l[i]) {
      assert l[..i] == log[..i];
      if i < |log| { assert l[i] == log[i]; } else { assert log[..i] == log; }
    }
  }

  /** While a request waits for the driver to start, no call is open on its channel. */
  lemma NoneOpenWhileHolding(s: State, id: int)
    requires id in s.tasks && s.tasks[id].phase.Holding?
    requires Permits(s, s.tasks[id].phase.rw.channel) && CallsMatchLog(s, s.tasks[id].phase.rw.channel)
    ensures OpenCall(s.log, s.tasks[id].phase.rw.channel) == None
  {
    var c := s.tasks[id].phase.rw.channel;
    match OpenCall(s.log, c)
    case Some(x) => OnePermit(s, c, id, x.id);
    case None =>
  }

  lemma OwnCallIsOpen(s: State, id: int)
    requires id in s.tasks && s.tasks[id].phase.InDriver?
    requires Permits(s, s.tasks[id].phase.rw.channel) && CallsMatchLog(s, s.tasks[id].phase.rw.channel)
    ensures OpenCall(s.log, s.tasks[id].phase.rw.channel) == Some(Call(id, s.tasks[id].phase.driver))
  {
    var c := s.tasks[id].phase.rw.channel;
    assert id in Holders(s, c);
    match OpenCall(s.log, c)
    case Some(x) => OnePermit(s, c, id, x.id);
    case None =>
  }

  lemma SerialKept(env: Env, s: State, t: State, id: int)
    requires LogsCall(env, s, t, id) && Serial(s.log)
    requires forall c :: Permits(s, c)
    requires forall c :: CallsMatchLog(s, c)
    ensures Serial(t.log)
  {
    if t.log != s.log {
      var p := s.tasks[id].phase;
      assert p.Holding? || p.InDriver?;
      assert Permits(s, p.rw.channel) && CallsMatchLog(s, p.rw.channel);
      if p.Holding? { NoneOpenWhileHolding(s, id); } else { OwnCallIsOpen(s, id); }
      SerialSnoc(s.log, t.log[|s.log|]);
    }
  }

  lemma CallsKept(env: Env, s: State, t: State, id: int, c: int)
    requires LogsCall(env, s, t, id) && Permits(s, c) && CallsMatchLog(s, c) && Permits(t, c)
    ensures CallsMatchLog(t, c)
  {
    var p, q := s.tasks[id].phase, t.tasks[id].phase;
    if t.log == s.log {
      assert forall x | x in Holders(t, c) && t.tasks[x].phase.InDriver? :: x in Holders(s, c) && s.tasks[x].phase.InDriver?;
    } else {
      OpenCallSnoc(s.log, t.log[|s.log|], c);
      if p.rw.channel == c && p.InDriver? {
        forall x | x in Holders(t, c) ensures !t.tasks[x].phase.InDriver? {
          if x != id { assert x in Holders(s, c) && id in Holders(s, c); OnePermit(s, c, x, id); }
        }
      } else if p.rw.channel != c {
        assert forall x | x in Holders(t, c) :: x in Holders(s, c) && x != id;
      }
    }
  }

  // ---------------------------------------------------------------- replies

  ghost predicate SendsReply(s: State, t: State, id: int) {
    && id in s.tasks && id in t.tasks && t.tasks == s.tasks[id := t.tasks[id]]
    && var p, q := s.tasks[id].phase, t.tasks[id].phase;
    || (t.replies == s.replies && !p.Done? && (q.Done? && q.replied ==> q.outcome.Abandoned?))
    || (p.Done? && !p.replied && q == Done(p.outcome, true) && t.replies == s.replies + [(id, p.outcome)])
  }

  lemma StepReplies(env: Env, s: State, t: State, id: int)
    requires TaskStep(env, s, t, id)
    ensures SendsReply(s, t, id)
  {
  }

  lemma RepliesKept(s: State, t: State, id: int)
    requires SendsReply(s, t, id) && RepliesMatch(s)
    ensures RepliesMatch(t)
  {
    forall i | 0 <= i < |s.replies| ensures s.replies[i].0 != id {
      assert s.tasks[s.replies[i].0].phase == Done(s.replies[i].1, true);
    }
  }

  // ---------------------------------------------------------------- all runs

  lemma TaskStepKeepsInv(env: Env, s: State, t: State, id: int)
    requires Inv(env, s) && TaskStep(env, s, t, id)
    ensures Inv(env, t)
  {
    StepMovesPermit(env, s, t, id);
    StepLogs(env, s, t, id);
    StepReplies(env, s, t, id);
    forall c ensures Permits(t, c) { assert Permits(s, c); PermitsKept(s, t, id, c); }
    forall c ensures CallsMatchLog(t, c) {
      assert Permits(s, c) && CallsMatchLog(s, c) && Permits(t, c);
      CallsKept(env, s, t, id, c);
    }
    forall x | x in t.tasks ensures Validated(env, t.tasks[x]) && Registered(t, t.tasks[x]) {
      if x == id { ValidatedKept(env, s, t, id); }
      RegisteredKept(env, s, t, id, x);
    }
    SerialKept(env, s, t, id);
    RepliesKept(s, t, id);
  }

  lemma SubmitKeepsInv(env: Env, s: State, t: State, id: int, req: Request)
    requires Inv(env, s) && Submit(s, t, id, req)
    ensures Inv(env, t)
  {
    forall c ensures Permits(t, c) && CallsMatchLog(t, c) {
      assert Permits(s, c) && CallsMatchLog(s, c);
      assert Holders(t, c) == Holders(s, c);
    }
  }

  lemma OutsideKeepsInv(env: Env, s: State, t: State)
    requires Inv(env, s) && Outside(s, t)
    ensures Inv(env, t)
  {
    forall c ensures Permits(t, c) && CallsMatchLog(t, c) {
      assert Permits(s, c) && CallsMatchLog(s, c);
      assert Holders(t, c) == Holders(s, c);
    }
  }

  lemma InitInv(env: Env, s: State)
    requires Init(s)
    ensures Inv(env, s)
  {
    forall c ensures Permits(s, c) && CallsMatchLog(s, c) { assert Holders(s, c) == {}; }
  }

  /** The invariant holds in every state of every run. */
  lemma {:induction false} InvAlways(env: Env, states: seq<State>, i: nat)
    requires Run(env, states) && i < |states|
    ensures Inv(env, states[i])
  {
    if i == 0 {
      InitInv(env, states[0]);
    } else {
      InvAlways(env, states, i - 1);
      var s, t := states[i - 1], states[i];
      assert Next(env, states[i - 1], states[i - 1 + 1]);
      if Outside(s, t) { OutsideKeepsInv(env, s, t); }
      else if id, req :| Submit(s, t, id, req) { SubmitKeepsInv(env, s, t, id, req); }
      else { var id :| TaskStep(env, s, t, id); TaskStepKeepsInv(env, s, t, id); }
    }
  }

  /** At most one request is inside a driver under the permit of a channel. */
  lemma OneCallPerPermit(env: Env, states: seq<State>, i: nat, a: int, b: int)
    requires Run(env, states) && i < |states|
    requires a in states[i].tasks && states[i].tasks[a].phase.InDriver?
    requires b in states[i].tasks && states[i].tasks[b].phase.InDriver?
    requires states[i].tasks[a].phase.rw.channel == states[i].tasks[b].phase.rw.channel
    ensures a == b
  {
    InvAlways(env, states, i);
    var c := states[i].tasks[a].phase.rw.channel;
    assert Permits(states[i], c);
    OnePermit(states[i], c, a, b);
  }

  /** Calls under one permit never overlap, over the whole of every run. */
  lemma CallsPerPermitNeverOverlap(env: Env, states: seq<State>, i: nat)
    requires Run(env, states) && i < |states|
    ensures Serial(states[i].log)
  {
    InvAlways(env, states, i);
  }

  // ---------------------------------------------------------------- where a write was resolved

  predicate Active(p: Phase) { p.Resolved? || p.Queued? || p.Holding? || p.InDriver? }

  predicate Waited(p: Phase) { p.Queued? || p.Holding? }

  /** The request was resolved in step `j` of the run, looking at the world of that state. */
  ghost predicate ResolvedIn(states: seq<State>, j: nat, id: int, req: Request, seen: World) {
    && j + 1 < |states|
    && states[j].world == seen
    && id in states[j].tasks && states[j].tasks[id] == Task(req, Submitted)
    && id in states[j + 1].tasks && states[j + 1].tasks[id].phase.Resolved?
  }

  /** The request began to queue in step `q`, at the time of that state. */
  ghost predicate QueuedIn(states: seq<State>, q: nat, id: int, since: nat) {
    && q + 1 < |states|
    && id in states[q].tasks && states[q].tasks[id].phase.Resolved?
    && id in states[q + 1].tasks && states[q + 1].tasks[id].phase.Queued?
    && states[q].clock == since
  }

  ghost predicate TaskTraced(states: seq<State>, i: nat, id: int)
    requires i < |states|
  {
    id in states[i].tasks ==>
      var task := states[i].tasks[id];
      && (Active(task.phase) ==> exists j: nat | j < i :: ResolvedIn(states, j, id, task.req, task.phase.seen))
      && (Waited(task.phase) ==> task.phase.since <= states[i].clock
                                 && exists q: nat | q < i :: QueuedIn(states, q, id, task.phase.since))
  }

  /** The call was made in step `k` of the run, to the driver the device had in that state. */
  ghost predicate CalledIn(states: seq<State>, k: nat, e: Event) {
    && k + 1 < |states| && e.Start?
    && states[k + 1].log == states[k].log + [e]
    && e.id in states[k].tasks && states[k].tasks[e.id].phase.Holding?
    && e.rw.device in states[k].world.devices && states[k].world.devices[e.rw.device] == e.driver
  }

  /** Its queue wait was the time between its queueing and the call. */
  ghost predicate WaitedFrom(states: seq<State>, q: nat, k: nat, e: Event)
    requires e.Start?
  {
    && q < |states| && k < |states| && QueuedIn(states, q, e.id, states[q].clock)
    && states[q].clock + e.waited == states[k].clock
  }

  /** It was made in step `k`, after the same request had been resolved and queued in earlier ones. */
  ghost predicate CalledAfterResolve(states: seq<State>, k: nat, e: Event) {
    && CalledIn(states, k, e)
    && (exists j: nat | j < k :: ResolvedIn(states, j, e.id, e.req, e.seen))
    && (exists q: nat | q < k :: WaitedFrom(states, q, k, e))
  }

  ghost predicate CallTraced(states: seq<State>, i: nat, e: Event) {
    e.Start? ==> exists k: nat | k < i :: CalledAfterResolve(states, k, e)
  }

  /** An active request was active before with the same request and world, or is being resolved. */
  ghost predicate ActiveFrom(s: State, t: State, id: int) {
    id in t.tasks && Active(t.tasks[id].phase) ==>
      && id in s.tasks && s.tasks[id].req == t.tasks[id].req
      && (if Active(s.tasks[id].phase) then s.tasks[id].phase.seen == t.tasks[id].phase.seen
          else s.tasks[id].phase.Submitted? && t.tasks[id].phase.Resolved? && t.tasks[id].phase.seen == s.world)
  }

  /** A waiting request waited before since the same time, or begins to now. */
  ghost predicate WaitedSince(s: State, t: State, id: int) {
    id in t.tasks && Waited(t.tasks[id].phase) ==>
      && id in s.tasks && s.clock <= t.clock
      && (if Waited(s.tasks[id].phase) then s.tasks[id].phase.since == t.tasks[id].phase.since
          else s.tasks[id].phase.Resolved? && t.tasks[id].phase.Queued? && t.tasks[id].phase.since == s.clock)
  }

  /** A logged call is an old one or is being made, by a request that holds its permit. */
  ghost predicate CallFrom(s: State, t: State, e: Event) {
    e in s.log || (e.Start? ==>
      && t.log == s.log + [e]
      && e.id in s.tasks && s.tasks[e.id].phase.Holding? && s.tasks[e.id].req == e.req && s.tasks[e.id].phase.seen == e.seen
      && (s.tasks[e.id].phase.since <= s.clock ==> s.tasks[e.id].phase.since + e.waited == s.clock)
      && e.rw.device in s.world.devices && s.world.devices[e.rw.device] == e.driver)
  }

  lemma TaskStepTraces(env: Env, s: State, t: State, id: int, x: int)
    requires TaskStep(env, s, t, id)
    ensures ActiveFrom(s, t, x)
  {
    if x != id { assert x in t.tasks ==> x in s.tasks && t.tasks[x] == s.tasks[x]; }
  }

  lemma TaskStepWaits(env: Env, s: State, t: State, id: int, x: int)
    requires TaskStep(env, s, t, id)
    ensures WaitedSince(s, t, x)
  {
    if x != id { assert x in t.tasks ==> x in s.tasks && t.tasks[x] == s.tasks[x]; }
  }

  lemma TaskStepCalls(env: Env, s: State, t: State, id: int, e: Event)
    requires TaskStep(env, s, t, id) && e in t.log
    ensures CallFrom(s, t, e)
  {
  }

  lemma NextTraces(env: Env, s: State, t: State)
    requires Next(env, s, t)
    ensures s.clock <= t.clock
    ensures forall x :: ActiveFrom(s, t, x) && WaitedSince(s, t, x)
    ensures forall e | e in t.log :: CallFrom(s, t, e)
  {
    if id :| TaskStep(env, s, t, id) {
      forall x ensures ActiveFrom(s, t, x) && WaitedSince(s, t, x) {
        TaskStepTraces(env, s, t, id, x);
        TaskStepWaits(env, s, t, id, x);
      }
      forall e | e in t.log ensures CallFrom(s, t, e) { TaskStepCalls(env, s, t, id, e); }
    }
  }

  lemma {:induction false} AllTraced(env: Env, states: seq<State>, i: nat)
    requires Run(env, states) && i < |states|
    ensures forall id :: TaskTraced(states, i, id)
    ensures forall e | e in states[i].log :: CallTraced(states, i, e)
  {
    if i > 0 {
      var h := i - 1;
      AllTraced(env, states, h);
      assert Next(env, states[h], states[h + 1]);
      NextTraces(env, states[h], states[h + 1]);
      forall id ensures TaskTraced(states, i, id) {
        assert TaskTraced(states, h, id);
        assert ActiveFrom(states[h], states[h + 1], id) && WaitedSince(states[h], states[h + 1], id);
        TaskTracedOn(states, h, id);
      }
      forall e | e in states[i].log ensures CallTraced(states, i, e) { CallTracedOn(states, h, e); }
    }
  }

  lemma TaskTracedOn(states: seq<State>, h: nat, id: int)
    requires h + 1 < |states| && TaskTraced(states, h, id) && states[h].clock <= states[h + 1].clock
    requires ActiveFrom(states[h], states[h + 1], id) && WaitedSince(states[h], states[h + 1], id)
    ensures TaskTraced(states, h + 1, id)
  {
    if id in states[h + 1].tasks {
      var task := states[h + 1].tasks[id];
      if Active(task.phase) {
        if Active(states[h].tasks[id].phase) {
          var j: nat :| j < h && ResolvedIn(states, j, id, states[h].tasks[id].req, states[h].tasks[id].phase.seen);
        } else {
          assert ResolvedIn(states, h, id, task.req, task.phase.seen);
        }
      }
      if Waited(task.phase) {
        if Waited(states[h].tasks[id].phase) {
          var q: nat :| q < h && QueuedIn(states, q, id, states[h].tasks[id].phase.since);
        } else {
          assert QueuedIn(states, h, id, task.phase.since);
        }
      }
    }
  }

  lemma CallTracedOn(states: seq<State>, h: nat, e: Event)
    requires h + 1 < |states| && CallFrom(states[h], states[h + 1], e)
    requires forall x | x in states[h].log :: CallTraced(states, h, x)
    requires forall id :: TaskTraced(states, h, id)
    ensures CallTraced(states, h + 1, e)
  {
    if e.Start? {
      if e in states[h].log {
        assert CallTraced(states, h, e);
        var k: nat :| k < h && CalledAfterResolve(states, k, e);
      } else {
        assert TaskTraced(states, h, e.id);
        var q: nat :| q < h && QueuedIn(states, q, e.id, states[h].tasks[e.id].phase.since);
        assert WaitedFrom(states, q, h, e);
        assert CalledAfterResolve(states, h, e);
      }
    }
  }

  /** Every driver call ever started was made after that same request had been resolved in an earlier
      state of the run, in whose world it was admissible; it went to the driver its device had then, with
      the part of its timeout that its queue wait had left, and one millisecond at least. */
  lemma OnlyAdmissibleWrites(env: Env, states: seq<State>, i: nat, e: Event)
    requires Run(env, states) && i < |states| && e in states[i].log && e.Start?
    ensures exists k: nat | k < i :: CalledAfterResolve(states, k, e)
    ensures Admissible(env, e.seen, e.req.point, e.req.value, e.rw)
    ensures e.budget.Some? <==> e.req.timeoutMs.Some?
    ensures e.budget.Some? ==> e.budget.value == if e.waited < e.req.timeoutMs.value then e.req.timeoutMs.value - e.waited else 1
  {
    InvAlways(env, states, i);
    AllTraced(env, states, i);
    assert CallTraced(states, i, e);
    assert GoodStart(env, e);
  }

  /** Once no request holds a channel its permit is free again, however the requests ended. */
  lemma PermitsComeBack(env: Env, states: seq<State>, i: nat, c: int)
    requires Run(env, states) && i < |states| && c in states[i].free
    requires forall id | id in states[i].tasks :: states[i].tasks[id].phase.Done?
    ensures states[i].free[c] == 1
  {
    InvAlways(env, states, i);
    assert Permits(states[i], c);
    var s := states[i];
    assert forall id | id in s.tasks :: !HasPermit(s.tasks[id], c);
    assert Holders(s, c) == {};
  }

  /** The ways in which a holder goes on by itself. */
  ghost predicate GoesOn(s: State, t: State, id: int) {
    DeviceMissing(s, t, id) || CallDriver(s, t, id) || DriverReturns(s, t, id, true)
  }

  lemma HolderGoesOn(env: Env, s: State, id: int)
    requires id in s.tasks && (s.tasks[id].phase.Holding? || s.tasks[id].phase.InDriver?) && Registered(s, s.tasks[id])
    ensures exists t :: GoesOn(s, t, id)
  {
    var p := s.tasks[id].phase;
    var c := p.rw.channel;
    if p.InDriver? {
      var t := GiveBack(At(s, id, Done(Success, false)), c).(log := s.log + [End(id, c, p.driver, Answered(true))]);
      assert DriverReturns(s, t, id, true);
      assert GoesOn(s, t, id);
    } else if p.rw.device in s.world.devices {
      var waited := if s.clock >= p.since then s.clock - p.since else 0;
      var req := s.tasks[id].req;
      var driver := s.world.devices[p.rw.device];
      var t := At(s, id, InDriver(p.rw, p.seen, driver)).(
        log := s.log + [Start(id, req, p.rw, p.seen, driver, waited, Remaining(req.timeoutMs, waited))]);
      assert CallDriver(s, t, id);
      assert GoesOn(s, t, id);
    } else {
      var t := GiveBack(At(s, id, Done(Failed(NotFound), false)), c);
      assert DeviceMissing(s, t, id);
      assert GoesOn(s, t, id);
    }
  }

  /** A waiting request is never stuck: it can take the permit, or the one holder can go on. */
  lemma NoDeadlock(env: Env, s: State, id: int)
    requires Inv(env, s) && id in s.tasks && s.tasks[id].phase.Queued?
    ensures (exists t :: Acquire(s, t, id)) || exists x, t :: x in Holders(s, s.tasks[id].phase.rw.channel) && GoesOn(s, t, x)
  {
    var p := s.tasks[id].phase;
    var c := p.rw.channel;
    assert Permits(s, c) && Registered(s, s.tasks[id]);
    if s.free[c] > 0 {
      var t := At(s, id, Holding(p.rw, p.seen, p.since)).(free := s.free[c := s.free[c] - 1]);
      assert Acquire(s, t, id);
    } else {
      var hs := Holders(s, c);
      assert |hs| == 1;
      var x := Pick(hs);
      HolderGoesOn(env, s, x);
    }
  }
}
