/** The group collection loop itself (`collect_one_group`). */
module CollectLoop {
  import opened Collections
  import opened Retry
  import opened RetryHistory

  const ONE_MS: nat := 1_000_000

  ghost predicate Ends(env: Env, budget: nat, max: Option<nat>, o: Outcome, l: Loop) {
    exists n :: After(env, budget, max, n) == Stopped(o, l)
  }

  /** Sleep before the next attempt, in small enough a portion to stay within the budget. */
  method SleepWithin(env: Env, budget: nat, l: Loop, delay: nat) returns (p: Progress)
    requires l.now < budget && l.calls > 0
    ensures p == SleepStep(env, budget, l, delay)
  {
    var sleep := Min(delay, budget - l.now);
    if sleep == 0 {
      return Going(l);
    }
    var deadline := l.now + sleep;
    var (wake, _) := AwaitUntil(env, l, None, deadline);
    if CancelledBefore(env, l, wake) {
      return Stopped(Cancelled, CancelAt(env, l, Delay(l.calls - 1), deadline));
    }
    p := Going(Record(l, Delay(l.calls - 1), deadline, wake));
  }

  /** What follows a failed attempt. */
  method AfterFailure(env: Env, budget: nat, retry: RetryController, l: Loop, timedOut: bool) returns (p: Progress)
    requires retry.Valid() && retry.retriesUsed == l.used && l.calls > 0
    modifies retry
    ensures retry.Valid() && p == FailStep(env, budget, retry.maxAttempts, l, timedOut)
    ensures p.Going? ==> retry.retriesUsed == p.l.used
  {
    var decision := retry.OnFailure(env.delay(l.calls));
    match decision
    case Exhausted =>
      p := Stopped(Failed(timedOut), l);
    case RetryAfter(delay) =>
      var m := l.(used := retry.retriesUsed);
      if m.now >= budget {
        p := Stopped(Failed(true), m);
      } else {
        p := SleepWithin(env, budget, m, delay);
      }
  }

  /** One attempt is one driver call under the remaining budget. */
  method Attempt(env: Env, budget: nat, retry: RetryController, l: Loop) returns (p: Progress)
    requires retry.Valid() && retry.retriesUsed == l.used && l.now < budget
    modifies retry
    ensures retry.Valid() && p == Iterate(env, budget, retry.maxAttempts, l)
    ensures p.Going? ==> retry.retriesUsed == p.l.used
  {
    var (end, timedOut) := AwaitUntil(env, l, Some(env.duration(l.calls)), budget);
    var called := l.(calls := l.calls + 1);
    if CancelledBefore(env, l, end) {
      return Stopped(Cancelled, CancelAt(env, called, Call(l.calls), budget));
    }
    var done := Record(called, Call(l.calls), budget, end);
    if !timedOut && env.succeeds(l.calls) {
      return Stopped(Answered, done);
    }
    p := AfterFailure(env, budget, retry, done, timedOut);
  }

  /** The loop; it is only not called where it would not end. Its waits are a legal history, in which a retry
      is made whenever one is allowed, and the last wait decides the outcome. */
  method CollectOneGroup(env: Env, totalBudget: nat, max: Option<nat>) returns (o: Outcome, l: Loop)
    requires IsU32(max) && (max.None? ==> !RunsForEver(env, if totalBudget == 0 then ONE_MS else totalBudget))
    ensures var budget := if totalBudget == 0 then ONE_MS else totalBudget;
      Told(env, budget, max, o, l) && Ends(env, budget, max, o, l) && StopInv(env, budget, max, l)
  {
    var budget := if totalBudget == 0 then ONE_MS else totalBudget;
    var retry := new RetryController(max);
    l := Start();
    ghost var n: nat := 0;
    ghost var last: nat := StopsSomewhere(env, budget, max);
    while true
      invariant retry.Valid() && fresh(retry) && retry.maxAttempts == max && retry.retriesUsed == l.used
      invariant After(env, budget, max, n) == Going(l)
      decreases last as int - n
    {
      if last <= n { GoingBefore(env, budget, max, last, n); }
      assert After(env, budget, max, n + 1) == Iterate(env, budget, max, l);
      EveryRunKeeps(env, budget, max, n + 1);
      RunTells(env, budget, max, n + 1);
      if l.now >= budget {
        return Failed(true), l;
      }
      var p := Attempt(env, budget, retry, l);
      match p {
        case Stopped(outcome, end) =>
          return outcome, end;
        case Going(next) =>
          l := next;
      }
      n := n + 1;
    }
  }
}
