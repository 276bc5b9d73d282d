/** The retry controller (`ng-gateway-sdk/src/retry.rs`) and the group collection loop that
    uses it (`collect_one_group`).  Driver answers, backoff delays, cancellation and timer
    lateness come from an arbitrary environment; time is in nanoseconds from the start. */
module Retry {
  import opened Collections

  const U32_MAX: nat := 0xFFFF_FFFF

  // ---------------------------------------------------------------- the controller

  datatype Decision = RetryAfter(delay: nat) | Exhausted

  datatype Snapshot = Snapshot(exhausted: bool, remaining: Option<nat>)

  ghost predicate IsU32(max: Option<nat>) {
    max.Some? ==> max.value <= U32_MAX
  }

  /** May another retry be granted, as far as the count goes? */
  predicate CountAllows(max: Option<nat>, used: nat) {
    max.None? || used < max.value
  }

  function Saturating(n: nat): nat {
    if n < U32_MAX then n + 1 else U32_MAX
  }

  class RetryController {
    const maxAttempts: Option<nat>
    var retriesUsed: nat

    ghost predicate Valid()
      reads this
    {
      retriesUsed <= U32_MAX && IsU32(maxAttempts) && (maxAttempts.Some? ==> retriesUsed <= maxAttempts.value)
    }

    constructor (max: Option<nat>)
      requires IsU32(max)
      ensures Valid() && maxAttempts == max && retriesUsed == 0
    {
      maxAttempts, retriesUsed := max, 0;
    }

    method Reset()
      modifies this
      requires Valid()
      ensures Valid() && retriesUsed == 0
    {
      retriesUsed := 0;
    }

    /** One failure; `next` is what the backoff source would answer, `None` when its own time
        budget is spent.  The source is only asked when the count allows a retry. */
    method OnFailure(next: Option<nat>) returns (d: Decision)
      requires Valid()
      modifies this
      ensures Valid()
      ensures d.RetryAfter? <==> CountAllows(maxAttempts, old(retriesUsed)) && next.Some?
      ensures d.RetryAfter? ==> d.delay == next.value && retriesUsed == Saturating(old(retriesUsed))
      ensures d.Exhausted? ==> retriesUsed == old(retriesUsed)
    {
      if maxAttempts.Some? && retriesUsed >= maxAttempts.value {
        return Exhausted;
      }
      match next
      case Some(delay) =>
        retriesUsed := Saturating(retriesUsed);
        d := RetryAfter(delay);
      case None =>
        d := Exhausted;
    }

    /** The snapshot says exhausted exactly when no answer of the backoff source could still
        lead to a retry. */
    method BudgetSnapshot() returns (s: Snapshot)
      requires Valid()
      ensures s.exhausted <==> !CountAllows(maxAttempts, retriesUsed)
      ensures s.remaining.Some? <==> maxAttempts.Some?
      ensures s.remaining.Some? ==> retriesUsed + s.remaining.value == maxAttempts.value
    {
      match maxAttempts
      case Some(max) =>
        var remaining := if max > retriesUsed then max - retriesUsed else 0;
        s := Snapshot(remaining == 0, Some(remaining));
      case None =>
        s := Snapshot(false, None);
    }
  }

  // ---------------------------------------------------------------- the environment

  /** How the `k`-th driver call and the `k`-th wait turn out.  A call takes `duration(k)` and then
      succeeds or fails; `delay(k)` answers the `k`-th question to the backoff source; a timer of
      wait `k` fires `late(k)` after its deadline; `cancelled(k)` says that the token fires during
      wait `k`, that long after its start. */
  datatype Env = Env(duration: nat -> nat, succeeds: nat -> bool, delay: nat -> Option<nat>,
                     late: nat -> nat, cancelled: nat -> Option<nat>)

  /** What a wait is for: the driver call with that number, or the delay after it. */
  datatype Purpose = Call(k: nat) | Delay(k: nat)

  datatype Wait = Wait(what: Purpose, start: nat, deadline: nat, end: nat)

  datatype Outcome = Answered | Cancelled | Failed(timeout: bool)

  /** The loop between two iterations. */
  datatype Loop = Loop(now: nat, used: nat, calls: nat, waits: seq<Wait>)

  datatype Progress = Going(l: Loop) | Stopped(outcome: Outcome, l: Loop)

  function Min(a: nat, b: nat): nat {
    if a <= b then a else b
  }

  /** When a wait ends that would finish by itself after `own`, and whether its timer cut it off; a
      wait that finishes at its deadline is not cut off. */
  function AwaitUntil(env: Env, l: Loop, own: Option<nat>, deadline: nat): (nat, bool)
    requires l.now <= deadline
  {
    if own.Some? && l.now + own.value <= deadline then (l.now + own.value, false)
    else (deadline + env.late(|l.waits|), true)
  }

  predicate CancelledBefore(env: Env, l: Loop, end: nat) {
    env.cancelled(|l.waits|).Some? && l.now + env.cancelled(|l.waits|).value <= end
  }

  function Record(l: Loop, what: Purpose, deadline: nat, end: nat): Loop {
    l.(now := if end > l.now then end else l.now, waits := l.waits + [Wait(what, l.now, deadline, end)])
  }

  function CancelAt(env: Env, l: Loop, what: Purpose, deadline: nat): Loop
    requires env.cancelled(|l.waits|).Some?
  {
    Record(l, what, deadline, l.now + env.cancelled(|l.waits|).value)
  }

  /** Sleep for the delay, but not past the budget. */
  function SleepStep(env: Env, budget: nat, l: Loop, delay: nat): Progress
    requires l.now < budget && l.calls > 0
  {
    var sleep := Min(delay, budget - l.now);
    if sleep == 0 then Going(l) else
      var deadline := l.now + sleep;
      var (end, _) := AwaitUntil(env, l, None, deadline);
      if CancelledBefore(env, l, end) then Stopped(Cancelled, CancelAt(env, l, Delay(l.calls - 1), deadline))
      else Going(Record(l, Delay(l.calls - 1), deadline, end))
  }

  /** After a failed call: ask the controller, then sleep. */
  function FailStep(env: Env, budget: nat, max: Option<nat>, l: Loop, timeout: bool): Progress
    requires l.calls > 0
  {
    if !CountAllows(max, l.used) || env.delay(l.calls).None? then Stopped(Failed(timeout), l)
    else
      var m := l.(used := Saturating(l.used));
      if m.now >= budget then Stopped(Failed(true), m)
      else SleepStep(env, budget, m, env.delay(l.calls).value)
  }

  /** One iteration of the loop. */
  function Iterate(env: Env, budget: nat, max: Option<nat>, l: Loop): Progress {
    if l.now >= budget then Stopped(Failed(true), l)
    else
      var (end, timedOut) := AwaitUntil(env, l, Some(env.duration(l.calls)), budget);
      var called := l.(calls := l.calls + 1);
      if CancelledBefore(env, l, end) then Stopped(Cancelled, CancelAt(env, called, Call(l.calls), budget))
      else if !timedOut && env.succeeds(l.calls) then Stopped(Answered, Record(called, Call(l.calls), budget, end))
      else FailStep(env, budget, max, Record(called, Call(l.calls), budget, end), timedOut)
  }

  function Start(): Loop {
    Loop(0, 0, 0, [])
  }

  /** The loop after `n` iterations, or where it stopped. */
  function After(env: Env, budget: nat, max: Option<nat>, n: nat): Progress {
    if n == 0 then Going(Start()) else
      match After(env, budget, max, n - 1)
      case Stopped(o, l) => Stopped(o, l)
      case Going(l) => Iterate(env, budget, max, l)
  }

  // ---------------------------------------------------------------- what every run keeps

  function LastLateness(env: Env, l: Loop): nat {
    if l.waits == [] then 0 else env.late(|l.waits| - 1)
  }

  ghost predicate Deadlines(budget: nat, l: Loop) {
    forall w | w in l.waits :: w.start <= w.deadline <= budget
  }

  /** Between iterations: as many retries were granted as calls made, no wait was given a deadline
      beyond the budget, and the clock is past the budget by at most the lateness of the last timer. */
  ghost predicate LoopInv(env: Env, budget: nat, max: Option<nat>, l: Loop) {
    && l.used == Min(l.calls, U32_MAX)
    && (max.Some? ==> l.used <= max.value && l.calls == l.used)
    && Deadlines(budget, l)
    && l.now <= budget + LastLateness(env, l)
  }

  /** The same once the loop has stopped; then one more call than retries was made. */
  ghost predicate StopInv(env: Env, budget: nat, max: Option<nat>, l: Loop) {
    && (max.Some? ==> l.calls <= max.value + 1)
    && Deadlines(budget, l)
    && l.now <= budget + LastLateness(env, l)
  }

  ghost predicate Keeps(env: Env, budget: nat, max: Option<nat>, p: Progress, calls: nat) {
    match p
    case Going(m) => LoopInv(env, budget, max, m) && m.calls == calls
    case Stopped(_, m) => StopInv(env, budget, max, m)
  }

  /** One more wait that was given a deadline within the budget. */
  lemma RecordKeeps(env: Env, budget: nat, l: Loop, what: Purpose, deadline: nat, end: nat)
    requires Deadlines(budget, l) && l.now <= deadline <= budget
    requires end <= deadline + env.late(|l.waits|)
    ensures Deadlines(budget, Record(l, what, deadline, end))
    ensures Record(l, what, deadline, end).now <= budget + LastLateness(env, Record(l, what, deadline, end))
  {
  }

  lemma SleepKeeps(env: Env, budget: nat, max: Option<nat>, l: Loop, delay: nat)
    requires LoopInv(env, budget, max, l) && l.now < budget && l.calls > 0
    ensures Keeps(env, budget, max, SleepStep(env, budget, l, delay), l.calls)
  {
    var sleep := Min(delay, budget - l.now);
    if sleep != 0 {
      var deadline := l.now + sleep;
      var (end, _) := AwaitUntil(env, l, None, deadline);
      RecordKeeps(env, budget, l, Delay(l.calls - 1), deadline, end);
      if CancelledBefore(env, l, end) {
        RecordKeeps(env, budget, l, Delay(l.calls - 1), deadline, l.now + env.cancelled(|l.waits|).value);
      }
    }
  }

  lemma FailKeeps(env: Env, budget: nat, max: Option<nat>, l: Loop, timeout: bool)
    requires IsU32(max) && l.calls > 0 && l.used == Min(l.calls - 1, U32_MAX)
    requires max.Some? ==> l.used <= max.value && l.calls == l.used + 1
    requires Deadlines(budget, l) && l.now <= budget + LastLateness(env, l)
    ensures Keeps(env, budget, max, FailStep(env, budget, max, l, timeout), l.calls)
  {
    var m := l.(used := Saturating(l.used));
    if CountAllows(max, l.used) && env.delay(l.calls).Some? && m.now < budget {
      SleepKeeps(env, budget, max, m, env.delay(l.calls).value);
    }
  }

  lemma IterateKeeps(env: Env, budget: nat, max: Option<nat>, l: Loop)
    requires LoopInv(env, budget, max, l) && IsU32(max)
    ensures Keeps(env, budget, max, Iterate(env, budget, max, l), l.calls + 1)
  {
    if l.now < budget {
      var (end, timedOut) := AwaitUntil(env, l, Some(env.duration(l.calls)), budget);
      var called := l.(calls := l.calls + 1);
      RecordKeeps(env, budget, called, Call(l.calls), budget, end);
      if CancelledBefore(env, l, end) {
        RecordKeeps(env, budget, called, Call(l.calls), budget, l.now + env.cancelled(|l.waits|).value);
      } else if timedOut || !env.succeeds(l.calls) {
        FailKeeps(env, budget, max, Record(called, Call(l.calls), budget, end), timedOut);
      }
    }
  }

  /** Every run: at most `n + 1` driver calls under `max_attempts = n`; every deadline within the
      budget; the end past the budget by no more than the lateness of the last timer, so within the
      budget when timers are exact. */
  lemma {:induction false} EveryRunKeeps(env: Env, budget: nat, max: Option<nat>, n: nat)
    requires IsU32(max)
    ensures Keeps(env, budget, max, After(env, budget, max, n), n)
  {
    if n > 0 {
      EveryRunKeeps(env, budget, max, n - 1);
      match After(env, budget, max, n - 1)
      case Stopped(_, _) =>
      case Going(l) => IterateKeeps(env, budget, max, l);
    }
  }

  /** With exact timers the loop ends within its budget. */
  lemma ExactTimersMeetBudget(env: Env, budget: nat, max: Option<nat>, n: nat)
    requires IsU32(max) && (forall k :: env.late(k) == 0) && After(env, budget, max, n).Stopped?
    ensures After(env, budget, max, n).l.now <= budget
  {
    EveryRunKeeps(env, budget, max, n);
  }

  // ---------------------------------------------------------------- termination

  /** A count budget stops the loop after at most one iteration more than the retries it grants. */
  lemma CountBudgetStops(env: Env, budget: nat, max: Option<nat>)
    requires IsU32(max) && max.Some?
    ensures After(env, budget, max, max.value + 1).Stopped?
  {
    EveryRunKeeps(env, budget, max, max.value + 1);
  }

  /** Every attempt takes time, or the delay after it does. */
  ghost predicate TakesTime(env: Env) {
    forall k: nat :: env.duration(k) > 0 || env.delay(k + 1) != Some(0)
  }

  lemma IterateAdvances(env: Env, budget: nat, max: Option<nat>, l: Loop)
    requires TakesTime(env) && Iterate(env, budget, max, l).Going?
    ensures l.now < budget && Iterate(env, budget, max, l).l.now > l.now
  {
    assert env.duration(l.calls) > 0 || env.delay(l.calls + 1) != Some(0);
  }

  lemma {:induction false} GoingTakesTime(env: Env, budget: nat, max: Option<nat>, n: nat)
    requires TakesTime(env) && After(env, budget, max, n).Going?
    ensures After(env, budget, max, n).l.now >= n && n <= budget
  {
    if n > 0 {
      GoingTakesTime(env, budget, max, n - 1);
      IterateAdvances(env, budget, max, After(env, budget, max, n - 1).l);
    }
  }

  /** Even with unlimited attempts the loop stops when attempts or delays take time. */
  lemma TakingTimeStops(env: Env, budget: nat, max: Option<nat>)
    requires TakesTime(env)
    ensures After(env, budget, max, budget + 1).Stopped?
  {
    if After(env, budget, max, budget + 1).Going? { GoingTakesTime(env, budget, max, budget + 1); }
  }

  lemma PositiveDelaysStop(env: Env, budget: nat, max: Option<nat>)
    requires forall k :: env.delay(k) != Some(0)
    ensures After(env, budget, max, budget + 1).Stopped?
  {
    TakingTimeStops(env, budget, max);
  }

  lemma {:induction false} GoingBefore(env: Env, budget: nat, max: Option<nat>, m: nat, n: nat)
    requires m <= n && After(env, budget, max, n).Going?
    ensures After(env, budget, max, m).Going?
  {
    if m < n { GoingBefore(env, budget, max, m, n - 1); }
  }

  // ---------------------------------------------------------------- runs without end

  /** The attempt fails at once, its delay is zero and it is not cancelled. */
  ghost predicate Idle(env: Env, calls: nat, waits: nat) {
    env.duration(calls) == 0 && !env.succeeds(calls) && env.delay(calls + 1) == Some(0) && env.cancelled(waits) != Some(0)
  }

  /** Every attempt from this one on is idle. */
  ghost predicate IdleFrom(env: Env, calls: nat, waits: nat) {
    forall c: nat, w: nat | c >= calls && w - c == waits - calls :: Idle(env, c, w)
  }

  /** The loop is going after `n` iterations, has time left, and every attempt from there on is idle. */
  ghost predicate SpinsFrom(env: Env, budget: nat, n: nat) {
    && After(env, budget, None, n).Going?
    && var l := After(env, budget, None, n).l;
    l.now < budget && IdleFrom(env, l.calls, |l.waits|)
  }

  ghost predicate RunsForEver(env: Env, budget: nat) { exists n: nat :: SpinsFrom(env, budget, n) }

  /** An unlimited iteration goes on without the clock moving exactly when it is idle. */
  lemma IdleIff(env: Env, budget: nat, l: Loop)
    ensures StepFacts(Iterate(env, budget, None, l), budget, l, Idle(env, l.calls, |l.waits|))
  {
  }

  /** What is known of one unlimited iteration. */
  ghost predicate StepFacts(p: Progress, budget: nat, l: Loop, idle: bool) {
    && (p.Going? ==> l.now < budget && p.l.now >= l.now)
    && (l.now < budget && idle ==> p.Going? && p.l.calls == l.calls + 1 && |p.l.waits| == |l.waits| + 1)
    && (l.now < budget ==> (idle <==> p.Going? && p.l.now == l.now))
  }

  lemma AfterNext(env: Env, budget: nat, n: nat)
    requires After(env, budget, None, n).Going?
    ensures var l := After(env, budget, None, n).l;
            StepFacts(After(env, budget, None, n + 1), budget, l, Idle(env, l.calls, |l.waits|))
  {
    var l := After(env, budget, None, n).l;
    assert After(env, budget, None, n + 1) == Iterate(env, budget, None, l);
    IdleIff(env, budget, l);
  }

  ghost predicate AlwaysGoing(run: nat -> Progress) { forall n: nat :: run(n).Going? }

  ghost predicate Steps(run: nat -> Progress, budget: nat, idle: (nat, nat) -> bool) {
    forall n: nat :: run(n).Going? ==> StepFacts(run(n + 1), budget, run(n).l, idle(run(n).l.calls, |run(n).l.waits|))
  }

  lemma {:induction false} ClockGoesUp(run: nat -> Progress, budget: nat, idle: (nat, nat) -> bool, m: nat, n: nat)
    requires AlwaysGoing(run) && Steps(run, budget, idle) && m <= n
    ensures run(m).l.now <= run(n).l.now < budget
  {
    assert run(n).Going? && run(n + 1).Going?;
    if m < n {
      ClockGoesUp(run, budget, idle, m, n - 1);
      assert run(n - 1).Going?;
    }
  }

  /** A clock that never reaches the budget stands still from some iteration on. */
  lemma {:induction false} ClockStandsStill(run: nat -> Progress, budget: nat, idle: (nat, nat) -> bool, n: nat) returns (at: nat)
    requires AlwaysGoing(run) && Steps(run, budget, idle)
    ensures forall m: nat | m >= at :: run(m).l.now == run(at).l.now
    decreases budget - run(n).l.now
  {
    ClockGoesUp(run, budget, idle, n, n);
    if m: nat :| m >= n && run(m).l.now != run(n).l.now {
      ClockGoesUp(run, budget, idle, n, m);
      at := ClockStandsStill(run, budget, idle, m);
    } else {
      at := n;
    }
  }

  lemma {:induction false} StandingIsIdle(run: nat -> Progress, budget: nat, idle: (nat, nat) -> bool, n: nat, k: nat)
    requires AlwaysGoing(run) && Steps(run, budget, idle)
    requires forall m: nat | m >= n :: run(m).l.now == run(n).l.now
    ensures var m := run(n + k).l;
            m.calls == run(n).l.calls + k && |m.waits| == |run(n).l.waits| + k && idle(m.calls, |m.waits|)
  {
    if k > 0 {
      StandingIsIdle(run, budget, idle, n, k - 1);
      assert run(n + k - 1).Going?;
      ClockGoesUp(run, budget, idle, n, n + k - 1);
    }
    assert run(n + k).Going? && run(n + k + 1).Going?;
    ClockGoesUp(run, budget, idle, n, n + k);
    assert run(n + k + 1).l.now == run(n).l.now == run(n + k).l.now;
  }

  lemma {:induction false} SpinningGoesOn(run: nat -> Progress, budget: nat, idle: (nat, nat) -> bool, n: nat, k: nat)
    requires Steps(run, budget, idle) && run(n).Going? && run(n).l.now < budget
    requires forall c: nat, w: nat | c >= run(n).l.calls && w - c == |run(n).l.waits| - run(n).l.calls :: idle(c, w)
    ensures var m := run(n + k).l;
            && run(n + k).Going? && m.now == run(n).l.now
            && m.calls == run(n).l.calls + k && |m.waits| == |run(n).l.waits| + k
  {
    if k > 0 {
      SpinningGoesOn(run, budget, idle, n, k - 1);
      var m := run(n + k - 1).l;
      assert idle(m.calls, |m.waits|);
      assert StepFacts(run((n + k - 1) + 1), budget, m, true);
    }
  }

  lemma StandingIdleFrom(run: nat -> Progress, budget: nat, idle: (nat, nat) -> bool, n: nat)
    requires AlwaysGoing(run) && Steps(run, budget, idle)
    requires forall m: nat | m >= n :: run(m).l.now == run(n).l.now
    ensures forall c: nat, w: nat | c >= run(n).l.calls && w - c == |run(n).l.waits| - run(n).l.calls :: idle(c, w)
  {
    forall c: nat, w: nat | c >= run(n).l.calls && w - c == |run(n).l.waits| - run(n).l.calls ensures idle(c, w) {
      StandingIsIdle(run, budget, idle, n, c - run(n).l.calls);
    }
  }

  /** The unlimited run: the loop after each number of iterations. */
  ghost function RunOf(env: Env, budget: nat): nat -> Progress { (n: nat) => After(env, budget, None, n) }

  ghost function IdleOf(env: Env): (nat, nat) -> bool { (c: nat, w: nat) => Idle(env, c, w) }

  lemma RunSteps(env: Env, budget: nat)
    ensures Steps(RunOf(env, budget), budget, IdleOf(env))
  {
    var run := RunOf(env, budget);
    forall n: nat | run(n).Going? ensures StepFacts(run(n + 1), budget, run(n).l, IdleOf(env)(run(n).l.calls, |run(n).l.waits|)) {
      AfterNext(env, budget, n);
    }
  }

  lemma StandingSpins(env: Env, budget: nat)
    requires AlwaysGoing(RunOf(env, budget))
    ensures RunsForEver(env, budget)
  {
    RunSteps(env, budget);
    var run, idle := RunOf(env, budget), IdleOf(env);
    var n := ClockStandsStill(run, budget, idle, 0);
    ClockGoesUp(run, budget, idle, n, n);
    StandingIdleFrom(run, budget, idle, n);
    var l := run(n).l;
    forall c: nat, w: nat | c >= l.calls && w - c == |l.waits| - l.calls ensures Idle(env, c, w) { assert idle(c, w); }
    assert SpinsFrom(env, budget, n);
  }

  lemma SpinningNeverStops(env: Env, budget: nat, n: nat, m: nat)
    requires SpinsFrom(env, budget, n)
    ensures RunOf(env, budget)(m).Going?
  {
    if m < n {
      GoingBefore(env, budget, None, m, n);
    } else {
      RunSteps(env, budget);
      var l := RunOf(env, budget)(n).l;
      assert IdleFrom(env, l.calls, |l.waits|);
      SpinningGoesOn(RunOf(env, budget), budget, IdleOf(env), n, m - n);
    }
  }

  /** Without a limit on attempts the loop runs for ever exactly when from some iteration on every
      attempt fails at once, is followed by a zero delay and is not cancelled. */
  lemma NeverStopsIff(env: Env, budget: nat)
    ensures AlwaysGoing(RunOf(env, budget)) <==> RunsForEver(env, budget)
  {
    if AlwaysGoing(RunOf(env, budget)) {
      StandingSpins(env, budget);
    }
    if RunsForEver(env, budget) {
      var n: nat :| SpinsFrom(env, budget, n);
      forall m: nat ensures RunOf(env, budget)(m).Going? { SpinningNeverStops(env, budget, n, m); }
    }
  }

  /** In every other case there is an iteration after which the loop has stopped. */
  lemma StopsSomewhere(env: Env, budget: nat, max: Option<nat>) returns (n: nat)
    requires IsU32(max) && (max.None? ==> !RunsForEver(env, budget))
    ensures After(env, budget, max, n).Stopped?
  {
    if max.Some? {
      CountBudgetStops(env, budget, max);
      n := max.value + 1;
    } else {
      NeverStopsIff(env, budget);
      n :| !RunOf(env, budget)(n).Going?;
    }
  }
}
