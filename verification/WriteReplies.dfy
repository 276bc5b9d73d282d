/** What a reply says about the run: which answer a request gets, told from the driver log, the worlds and
    the clock alone. */
module WriteReplies {
  import opened Collections
  import opened Values
  import opened WriteProtocol

  // ---------------------------------------------------------------- why a write is refused

  /** The checks of a write in the order they are documented in; `n` is the number of the check. */
  ghost predicate Fails(env: Env, w: World, point: int, v: NGValue, n: int) {
    if n == 1 then point !in w.points else
      && point in w.points
      && var m := w.points[point];
      || (n == 2 && !m.access.Write? && !m.access.ReadWrite?)
      || (n == 3 && TypeOf(v) != m.logicalType)
      || (n == 4 && m.min.Some? && m.max.Some? && exists x :: env.asF64(v) == Some(x) && !(m.min.value <= x <= m.max.value))
      || (n == 5 && m.channel !in w.connected)
      || (n == 6 && !env.toWire(v, m).Wire?)
  }

  /** The error that belongs to a check, for the last one by what the codec reports. */
  ghost predicate Kind(env: Env, w: World, point: int, v: NGValue, n: int, kind: ErrorKind) {
    match kind
    case NotFound => n == 1
    case NotWriteable => n == 2
    case TypeMismatch => n == 3 || (n == 6 && point in w.points && env.toWire(v, w.points[point]).CodecInvalid?)
    case OutOfRange => n == 4 || (n == 6 && point in w.points && env.toWire(v, w.points[point]).CodecOutOfRange?)
    case NotConnected => n == 5
    case DriverError => n == 6 && point in w.points && env.toWire(v, w.points[point]).CodecOther?
    case QueueTimeout => false
  }

  ghost predicate FailsFirst(env: Env, w: World, point: int, v: NGValue, n: int, kind: ErrorKind) {
    && 1 <= n <= 6 && Fails(env, w, point, v, n) && Kind(env, w, point, v, n, kind)
    && forall m | 1 <= m < n :: !Fails(env, w, point, v, m)
  }

  /** The first check that fails is the one reported. */
  ghost predicate Refused(env: Env, w: World, point: int, v: NGValue, kind: ErrorKind) {
    exists n :: FailsFirst(env, w, point, v, n, kind)
  }

  lemma RejectedIsRefused(env: Env, w: World, point: int, v: NGValue, kind: ErrorKind)
    requires ResolveWrite(env, w, point, v) == Rejected(kind)
    ensures Refused(env, w, point, v, kind)
  {
    var n :=
      if point !in w.points then 1 else
        var m := w.points[point];
        if m.access.Read? then 2 else if TypeOf(v) != m.logicalType then 3 else if OutsideLimits(env, m, v) then 4
        else if m.channel !in w.connected then 5 else 6;
    assert FailsFirst(env, w, point, v, n, kind);
  }

  lemma RefusedOnce(env: Env, w: World, point: int, v: NGValue, a: ErrorKind, b: ErrorKind)
    requires Refused(env, w, point, v, a) && Refused(env, w, point, v, b)
    ensures a == b
  {
    var m :| FailsFirst(env, w, point, v, m, a);
    var n :| FailsFirst(env, w, point, v, n, b);
    assert m == n;
  }

  lemma RefusedIsRejected(env: Env, w: World, point: int, v: NGValue, kind: ErrorKind)
    requires Refused(env, w, point, v, kind)
    ensures ResolveWrite(env, w, point, v) == Rejected(kind)
  {
    var n :| FailsFirst(env, w, point, v, n, kind);
    match ResolveWrite(env, w, point, v)
    case Accepted(rw) => AcceptedIffAdmissible(env, w, point, v, rw);
    case Rejected(other) => RejectedIsRefused(env, w, point, v, other); RefusedOnce(env, w, point, v, kind, other);
  }

  /** A write is rejected with an error exactly when that is the error of the first check it fails. */
  lemma RejectedIffRefused(env: Env, w: World, point: int, v: NGValue, kind: ErrorKind)
    ensures ResolveWrite(env, w, point, v) == Rejected(kind) <==> Refused(env, w, point, v, kind)
  {
    if ResolveWrite(env, w, point, v) == Rejected(kind) { RejectedIsRefused(env, w, point, v, kind); }
    if Refused(env, w, point, v, kind) { RefusedIsRejected(env, w, point, v, kind); }
  }

  // ---------------------------------------------------------------- the calls of one request

  /** The events of one request, in order. */
  function EventsOf(log: seq<Event>, id: int): seq<Event> {
    if log == [] then [] else
      var e := log[|log| - 1];
      EventsOf(log[..|log| - 1], id) + (if e.id == id then [e] else [])
  }

  lemma EventsSnoc(log: seq<Event>, e: Event, id: int)
    ensures EventsOf(log + [e], id) == EventsOf(log, id) + (if e.id == id then [e] else [])
  {
    assert (log + [e])[..|log|] == log;
  }

  lemma {:induction false} EventsAre(log: seq<Event>, id: int, e: Event)
    ensures e in EventsOf(log, id) <==> e in log && e.id == id
  {
    if log != [] {
      EventsAre(log[..|log| - 1], id, e);
      assert log == log[..|log| - 1] + [log[|log| - 1]];
    }
  }

  predicate CalledOnce(es: seq<Event>) { |es| == 1 && es[0].Start? }

  predicate EndedWith(es: seq<Event>, n: Ending) { |es| == 2 && es[0].Start? && es[1].End? && es[1].ending == n }

  /** What the log holds of a request, by where the request is. */
  ghost predicate LogTells(s: State, id: int) {
    var es := EventsOf(s.log, id);
    if id !in s.tasks then es == [] else
      match s.tasks[id].phase
      case InDriver(_, _, _) => CalledOnce(es)
      case Done(Success, _) => EndedWith(es, Answered(true))
      case Done(Failed(k), _) => es == [] || (k == DriverError && EndedWith(es, Answered(false)))
      case Done(Abandoned, replied) => replied && (es == [] || EndedWith(es, Cut))
      case _ => es == []
  }

  /** A step concerns one request only. */
  ghost predicate Concerns(s: State, t: State, id: int) {
    && id in s.tasks && id in t.tasks && t.tasks == s.tasks[id := t.tasks[id]]
    && (t.log == s.log || exists e: Event :: e.id == id && t.log == s.log + [e])
  }

  lemma StepConcerns(env: Env, s: State, t: State, id: int)
    requires TaskStep(env, s, t, id)
    ensures Concerns(s, t, id)
  {
    if t.log != s.log {
      var e := t.log[|s.log|];
      assert e.id == id && t.log == s.log + [e];
    }
  }

  lemma OthersStay(s: State, t: State, id: int, x: int)
    requires Concerns(s, t, id) && x != id && LogTells(s, x)
    ensures LogTells(t, x)
  {
    if t.log != s.log { EventsSnoc(s.log, t.log[|s.log|], x); }
  }

  ghost predicate EndsAs(q: Phase, n: Ending) {
    q == Done(if n.Cut? then Abandoned else if n.ok then Success else Failed(DriverError), n.Cut?)
  }

  /** How a step adds to the log and ends a request. */
  ghost predicate Advances(s: State, t: State, id: int) {
    && id in s.tasks && id in t.tasks
    && var p, q := s.tasks[id].phase, t.tasks[id].phase;
    || (t.log == s.log && p.Holding? && (q == Done(Failed(NotFound), false) || q == Done(Abandoned, true)))
    || (t.log == s.log && !p.Done? && !p.InDriver? && !p.Holding? && !q.InDriver? && (q.Done? ==> q.outcome != Success)
        && (q.Done? && q.outcome.Abandoned? ==> q.replied))
    || (t.log == s.log && p.Done? && !p.replied && q == Done(p.outcome, true))
    || (p.Holding? && q.InDriver? && exists e: Event :: e.Start? && e.id == id && t.log == s.log + [e])
    || (p.InDriver? && exists e: Event :: e.End? && e.id == id && t.log == s.log + [e] && EndsAs(q, e.ending))
  }

  lemma StepAdvances(env: Env, s: State, t: State, id: int)
    requires TaskStep(env, s, t, id)
    ensures Advances(s, t, id)
  {
    if t.log != s.log {
      var e := t.log[|s.log|];
      assert t.log == s.log + [e];
    }
  }

  lemma AdvanceTells(s: State, t: State, id: int)
    requires Advances(s, t, id) && LogTells(s, id)
    ensures LogTells(t, id)
  {
    if t.log != s.log {
      EventsSnoc(s.log, t.log[|s.log|], id);
    }
  }

  lemma StepKeepsTelling(env: Env, s: State, t: State, id: int, x: int)
    requires TaskStep(env, s, t, id) && LogTells(s, x)
    ensures LogTells(t, x)
  {
    if x == id {
      StepAdvances(env, s, t, id);
      AdvanceTells(s, t, id);
    } else {
      StepConcerns(env, s, t, id);
      OthersStay(s, t, id, x);
    }
  }

  lemma {:induction false} LogAlwaysTells(env: Env, states: seq<State>, i: nat, x: int)
    requires Run(env, states) && i < |states|
    ensures LogTells(states[i], x)
  {
    if i > 0 {
      var h := i - 1;
      LogAlwaysTells(env, states, h, x);
      var s, t := states[h], states[h + 1];
      assert Next(env, s, t);
      if id :| TaskStep(env, s, t, id) { StepKeepsTelling(env, s, t, id, x); }
    }
  }

  // ---------------------------------------------------------------- requests that were never called

  /** Step `j` took the request up, in a world in which its first failing check is reported as `kind`. */
  ghost predicate RefusedIn(env: Env, states: seq<State>, j: nat, id: int, req: Request, kind: ErrorKind) {
    && j + 1 < |states|
    && id in states[j].tasks && states[j].tasks[id] == Task(req, Submitted)
    && id in states[j + 1].tasks && states[j + 1].tasks[id].phase.Done?
    && Refused(env, states[j].world, req.point, req.value, kind)
  }

  /** From its queueing in step `q` to step `k` its whole timeout went by. */
  ghost predicate TimedOutIn(states: seq<State>, q: nat, k: nat, id: int, req: Request) {
    && q < k < |states| && QueuedIn(states, q, id, states[q].clock)
    && req.timeoutMs.Some? && states[q].clock + req.timeoutMs.value <= states[k].clock
  }

  /** It was resolved in step `j` for a device that was missing in step `k`. */
  ghost predicate DeviceGoneIn(env: Env, states: seq<State>, j: nat, k: nat, id: int, req: Request, rw: ResolvedWrite) {
    && j < k < |states| && ResolvedIn(states, j, id, req, states[j].world)
    && Admissible(env, states[j].world, req.point, req.value, rw)
    && rw.device !in states[k].world.devices
  }

  /** Why a request that never reached a driver failed. */
  ghost predicate NeverCalled(env: Env, states: seq<State>, i: nat, id: int, req: Request, kind: ErrorKind) {
    || (exists j: nat | j < i :: RefusedIn(env, states, j, id, req, kind))
    || (kind == QueueTimeout && exists q: nat, k: nat | k < i :: TimedOutIn(states, q, k, id, req))
    || (kind == NotFound && exists j: nat, k: nat, rw | k < i :: DeviceGoneIn(env, states, j, k, id, req, rw))
  }

  /** A request that has just failed, by where it was. */
  ghost predicate FailsFrom(env: Env, s: State, t: State, id: int) {
    id in t.tasks && t.tasks[id].phase.Done? && t.tasks[id].phase.outcome.Failed? ==>
      && id in s.tasks && s.tasks[id].req == t.tasks[id].req
      && var p, req, kind := s.tasks[id].phase, s.tasks[id].req, t.tasks[id].phase.outcome.kind;
      || (p.Done? && p.outcome == Failed(kind))
      || (p.Submitted? && Refused(env, s.world, req.point, req.value, kind))
      || (p.Queued? && kind == QueueTimeout && req.timeoutMs.Some? && p.since + req.timeoutMs.value <= s.clock)
      || (p.Holding? && kind == NotFound && p.rw.device !in s.world.devices)
      || p.InDriver?
  }

  lemma StepFails(env: Env, s: State, t: State, id: int, x: int)
    requires TaskStep(env, s, t, id)
    ensures FailsFrom(env, s, t, x)
  {
    if x != id {
      assert x in t.tasks ==> x in s.tasks && t.tasks[x] == s.tasks[x];
    } else if Resolve(env, s, t, id) {
      var req := s.tasks[id].req;
      if t.tasks[id].phase.Done? { RejectedIsRefused(env, s.world, req.point, req.value, t.tasks[id].phase.outcome.kind); }
    }
  }

  ghost predicate Explained(env: Env, states: seq<State>, i: nat, id: int)
    requires i < |states|
  {
    id in states[i].tasks && states[i].tasks[id].phase.Done? && states[i].tasks[id].phase.outcome.Failed?
    && EventsOf(states[i].log, id) == [] ==>
      NeverCalled(env, states, i, id, states[i].tasks[id].req, states[i].tasks[id].phase.outcome.kind)
  }

  lemma NeverCalledStays(env: Env, states: seq<State>, h: nat, id: int, req: Request, kind: ErrorKind)
    requires h + 1 < |states| && NeverCalled(env, states, h, id, req, kind)
    ensures NeverCalled(env, states, h + 1, id, req, kind)
  {
    if j: nat :| j < h && RefusedIn(env, states, j, id, req, kind) {
    } else if kind == QueueTimeout {
      var q: nat, k: nat :| k < h && TimedOutIn(states, q, k, id, req);
    } else {
      var j: nat, k: nat, rw :| k < h && DeviceGoneIn(env, states, j, k, id, req, rw);
    }
  }

  lemma FailureExplained(env: Env, states: seq<State>, h: nat, id: int)
    requires h + 1 < |states| && Explained(env, states, h, id) && TaskTraced(states, h, id)
    requires id in states[h].tasks ==> Validated(env, states[h].tasks[id])
    requires FailsFrom(env, states[h], states[h + 1], id) && LogTells(states[h], id) && states[h].log <= states[h + 1].log
    requires EventsOf(states[h + 1].log, id) == [] ==> EventsOf(states[h].log, id) == []
    ensures Explained(env, states, h + 1, id)
  {
    var s, t := states[h], states[h + 1];
    if id in t.tasks && t.tasks[id].phase.Done? && t.tasks[id].phase.outcome.Failed? && EventsOf(t.log, id) == [] {
      var p, req, kind := s.tasks[id].phase, s.tasks[id].req, t.tasks[id].phase.outcome.kind;
      if p.Done? {
        NeverCalledStays(env, states, h, id, req, kind);
      } else if p.Submitted? {
        assert RefusedIn(env, states, h, id, req, kind);
      } else if p.Queued? {
        var q: nat :| q < h && QueuedIn(states, q, id, p.since);
        assert TimedOutIn(states, q, h, id, req);
      } else if p.Holding? {
        var j: nat :| j < h && ResolvedIn(states, j, id, req, p.seen);
        AcceptedIffAdmissible(env, p.seen, req.point, req.value, p.rw);
        assert DeviceGoneIn(env, states, j, h, id, req, p.rw);
      }
    }
  }

  lemma {:induction false} EventsGrow(log: seq<Event>, more: seq<Event>, id: int)
    requires log <= more
    ensures EventsOf(log, id) <= EventsOf(more, id)
  {
    if |log| < |more| {
      EventsGrow(log, more[..|more| - 1], id);
    } else {
      assert log == more;
    }
  }

  lemma NextFails(env: Env, s: State, t: State, x: int)
    requires Next(env, s, t)
    ensures FailsFrom(env, s, t, x) && s.log <= t.log
  {
    if id :| TaskStep(env, s, t, id) { StepFails(env, s, t, id, x); StepAdvances(env, s, t, id); }
  }

  lemma {:induction false} AlwaysExplained(env: Env, states: seq<State>, i: nat, id: int)
    requires Run(env, states) && i < |states|
    ensures Explained(env, states, i, id)
  {
    if i > 0 {
      var h := i - 1;
      AlwaysExplained(env, states, h, id);
      assert Next(env, states[h], states[h + 1]);
      NextFails(env, states[h], states[h + 1], id);
      InvAlways(env, states, h);
      AllTraced(env, states, h);
      LogAlwaysTells(env, states, h, id);
      EventsGrow(states[h].log, states[h + 1].log, id);
      FailureExplained(env, states, h, id);
    }
  }

  // ---------------------------------------------------------------- replies

  /** The driver answered the one call of the request. */
  ghost predicate DriverSaid(log: seq<Event>, id: int, ok: bool) {
    exists e :: e in log && e.End? && e.id == id && e.ending == Answered(ok)
  }

  ghost predicate WasCalled(log: seq<Event>, id: int) {
    exists e :: e in log && e.Start? && e.id == id
  }

  lemma EndedMeansSaid(log: seq<Event>, id: int, ok: bool)
    requires EndedWith(EventsOf(log, id), Answered(ok))
    ensures DriverSaid(log, id, ok) && !DriverSaid(log, id, !ok) && WasCalled(log, id)
  {
    var es := EventsOf(log, id);
    forall e ensures e in es <==> e in log && e.id == id { EventsAre(log, id, e); }
    assert es[0] in es && es[1] in es;
  }

  lemma NoEventsMeansNothing(log: seq<Event>, id: int)
    requires EventsOf(log, id) == []
    ensures !WasCalled(log, id) && forall ok :: !DriverSaid(log, id, ok)
  {
    forall e ensures !(e in log && e.id == id) { EventsAre(log, id, e); }
  }

  /** Every reply is the truth: success exactly when the driver said so, the driver's error when it refused,
      and otherwise the reason for which the driver was never called. */
  lemma ReplyTellsWhatHappened(env: Env, states: seq<State>, i: nat, id: int, o: Outcome)
    requires Run(env, states) && i < |states| && (id, o) in states[i].replies
    ensures id in states[i].tasks && !o.Abandoned?
    ensures o == Success <==> DriverSaid(states[i].log, id, true)
    ensures o == Failed(DriverError) && WasCalled(states[i].log, id) <==> DriverSaid(states[i].log, id, false)
    ensures WasCalled(states[i].log, id) ==> o == Success || o == Failed(DriverError)
    ensures !WasCalled(states[i].log, id) ==> o.Failed? && NeverCalled(env, states, i, id, states[i].tasks[id].req, o.kind)
  {
    var s := states[i];
    InvAlways(env, states, i);
    LogAlwaysTells(env, states, i, id);
    AlwaysExplained(env, states, i, id);
    NoReplyForAbandoned(env, states, i, id, o);
    if EventsOf(s.log, id) == [] {
      NoEventsMeansNothing(s.log, id);
    } else {
      EndedMeansSaid(s.log, id, o == Success);
    }
  }

  lemma {:induction false} NoReplyForAbandoned(env: Env, states: seq<State>, i: nat, id: int, o: Outcome)
    requires Run(env, states) && i < |states| && (id, o) in states[i].replies
    ensures !o.Abandoned? && id in states[i].tasks && states[i].tasks[id].phase == Done(o, true)
  {
    InvAlways(env, states, i);
    var h := i - 1;
    assert Init(states[0]);
    assert i > 0;
    assert Next(env, states[h], states[h + 1]);
    LogAlwaysTells(env, states, h, id);
    if (id, o) in states[h].replies {
      NoReplyForAbandoned(env, states, h, id, o);
    } else {
      NextReplies(env, states[h], states[h + 1], id, o);
    }
  }

  lemma NextReplies(env: Env, s: State, t: State, id: int, o: Outcome)
    requires Next(env, s, t) && (id, o) in t.replies && (id, o) !in s.replies
    ensures id in s.tasks && s.tasks[id].phase == Done(o, false)
  {
    if x :| TaskStep(env, s, t, x) { StepReplies(env, s, t, x); }
  }

  lemma SaidIsOutcome(s: State, id: int, ok: bool)
    requires LogTells(s, id) && DriverSaid(s.log, id, ok)
    ensures id in s.tasks && s.tasks[id].phase.Done?
    ensures s.tasks[id].phase.outcome == if ok then Success else Failed(DriverError)
  {
    var es := EventsOf(s.log, id);
    var e :| e in s.log && e.End? && e.id == id && e.ending == Answered(ok);
    EventsAre(s.log, id, e);
    assert e in es;
  }

  lemma CanReply(env: Env, s: State, id: int)
    requires id in s.tasks && s.tasks[id].phase.Done? && !s.tasks[id].phase.replied
    ensures exists t :: Next(env, s, t) && t.replies == s.replies + [(id, s.tasks[id].phase.outcome)]
  {
    var o := s.tasks[id].phase.outcome;
    var t := At(s, id, Done(o, true)).(replies := s.replies + [(id, o)]);
    assert TaskStep(env, s, t, id) by { assert Reply(s, t, id); }
    assert Next(env, s, t);
  }

  /** What a driver answered has been passed on, or can be in the next step. */
  lemma AnswerIsPassedOn(env: Env, states: seq<State>, i: nat, id: int, ok: bool)
    requires Run(env, states) && i < |states| && DriverSaid(states[i].log, id, ok)
    ensures var o := if ok then Success else Failed(DriverError);
            (id, o) in states[i].replies || exists t :: Next(env, states[i], t) && t.replies == states[i].replies + [(id, o)]
  {
    LogAlwaysTells(env, states, i, id);
    SaidIsOutcome(states[i], id, ok);
    if states[i].tasks[id].phase.replied {
      InvAlways(env, states, i);
    } else {
      CanReply(env, states[i], id);
    }
  }
}
