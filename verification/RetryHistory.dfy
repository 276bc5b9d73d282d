/** What the waits of a collection run tell: each follows from the one before by the calls, the delays, the
    token and the budget, and the last one decides the outcome. */
module RetryHistory {
  import opened Collections
  import opened Retry

  // ---------------------------------------------------------------- one wait

  /** The call finishes by its deadline. */
  ghost predicate InTime(env: Env, w: Wait) { w.what.Call? && w.start + env.duration(w.what.k) <= w.deadline }

  /** When wait `j` ends by itself: with its call, or else when its timer fires. */
  ghost function OwnEnd(env: Env, j: nat, w: Wait): nat {
    if InTime(env, w) then w.start + env.duration(w.what.k) else w.deadline + env.late(j)
  }

  /** The token fires during wait `j`. */
  ghost predicate Cut(env: Env, j: nat, w: Wait) {
    exists c :: env.cancelled(j) == Some(c) && w.start + c <= OwnEnd(env, j, w)
  }

  /** The call of wait `j` succeeds in time. */
  ghost predicate Succeeds(env: Env, j: nat, w: Wait) {
    InTime(env, w) && env.succeeds(w.what.k) && !Cut(env, j, w)
  }

  ghost predicate EndsRight(env: Env, j: nat, w: Wait) {
    if Cut(env, j, w) then env.cancelled(j) == Some(w.end - w.start) else w.end == OwnEnd(env, j, w)
  }

  /** After call `k` the count and the delays grant a retry. */
  ghost predicate Granted(env: Env, max: Option<nat>, k: nat) { (max.Some? ==> k < max.value) && env.delay(k + 1).Some? }

  /** And there is time for it. */
  ghost predicate RetryAllowed(env: Env, budget: nat, max: Option<nat>, k: nat, at: nat) { Granted(env, max, k) && at < budget }

  // ---------------------------------------------------------------- a run

  /** The next wait begins when the one before ended, and is for what has to follow it. */
  ghost predicate Follows(env: Env, budget: nat, max: Option<nat>, i: nat, v: Wait, w: Wait) {
    && !Cut(env, i, v) && !Succeeds(env, i, v) && w.start == v.end < budget
    && match v.what
       case Delay(k) => w.what == Call(k + 1) && w.deadline == budget
       case Call(k) =>
         && RetryAllowed(env, budget, max, k, v.end)
         && if env.delay(k + 1) == Some(0) then w.what == Call(k + 1) && w.deadline == budget
            else w.what == Delay(k) && w.deadline == Min(v.end + env.delay(k + 1).value, budget)
  }

  ghost predicate First(budget: nat, w: Wait) { w.what == Call(0) && w.start == 0 && w.deadline == budget }

  ghost predicate LegalAt(env: Env, budget: nat, max: Option<nat>, waits: seq<Wait>, j: nat)
    requires j < |waits|
  {
    && EndsRight(env, j, waits[j])
    && if j == 0 then First(budget, waits[0]) else Follows(env, budget, max, j - 1, waits[j - 1], waits[j])
  }

  /** The waits of a run, in order. */
  ghost predicate Legal(env: Env, budget: nat, max: Option<nat>, waits: seq<Wait>) {
    forall j: nat | j < |waits| :: LegalAt(env, budget, max, waits, j)
  }

  /** What the last wait says about the outcome. */
  ghost predicate Tells(env: Env, budget: nat, max: Option<nat>, o: Outcome, j: nat, w: Wait) {
    && (o == Answered <==> Succeeds(env, j, w))
    && (o == Cancelled <==> Cut(env, j, w))
    && (o.Failed? ==>
          match w.what
          case Call(k) =>
            && !RetryAllowed(env, budget, max, k, w.end)
            && (o.timeout <==> !InTime(env, w) || Granted(env, max, k))
          case Delay(_) => w.end >= budget && o.timeout)
  }

  /** Where the loop stands between two iterations: about to make a call, if there is time. */
  ghost predicate Standing(env: Env, budget: nat, max: Option<nat>, l: Loop) {
    && Legal(env, budget, max, l.waits)
    && (l.waits == [] ==> l.now == 0 && l.calls == 0)
    && (l.waits != [] ==>
          var j: nat := |l.waits| - 1;
          && l.now == l.waits[j].end && !Cut(env, j, l.waits[j])
          && l.calls == l.waits[j].what.k + 1
          && (l.waits[j].what.Call? ==>
                && !Succeeds(env, j, l.waits[j]) && RetryAllowed(env, budget, max, l.calls - 1, l.now)
                && env.delay(l.calls) == Some(0)))
  }

  /** Where it stands right after a failed call. */
  ghost predicate JustFailed(env: Env, budget: nat, max: Option<nat>, l: Loop, timeout: bool) {
    && Legal(env, budget, max, l.waits) && l.waits != [] && l.calls > 0
    && var j: nat := |l.waits| - 1;
    && l.waits[j].what == Call(l.calls - 1) && l.now == l.waits[j].end
    && !Cut(env, j, l.waits[j]) && !Succeeds(env, j, l.waits[j]) && (timeout <==> !InTime(env, l.waits[j]))
  }

  ghost predicate Told(env: Env, budget: nat, max: Option<nat>, o: Outcome, l: Loop) {
    && Legal(env, budget, max, l.waits) && l.waits != []
    && l.now == l.waits[|l.waits| - 1].end && l.calls == l.waits[|l.waits| - 1].what.k + 1
    && Tells(env, budget, max, o, |l.waits| - 1, l.waits[|l.waits| - 1])
  }

  ghost predicate Goes(env: Env, budget: nat, max: Option<nat>, p: Progress) {
    match p
    case Going(l) => Standing(env, budget, max, l)
    case Stopped(o, l) => Told(env, budget, max, o, l)
  }

  // ---------------------------------------------------------------- the steps

  lemma LegalSnoc(env: Env, budget: nat, max: Option<nat>, waits: seq<Wait>, w: Wait)
    requires Legal(env, budget, max, waits) && EndsRight(env, |waits|, w)
    requires if waits == [] then First(budget, w) else Follows(env, budget, max, |waits| - 1, waits[|waits| - 1], w)
    ensures Legal(env, budget, max, waits + [w])
  {
    var all := waits + [w];
    forall j: nat | j < |all| ensures LegalAt(env, budget, max, all, j) {
      if j < |waits| { assert LegalAt(env, budget, max, waits, j); }
    }
  }

  /** The functions of the loop and the facts about a wait agree. */
  lemma AwaitIs(env: Env, l: Loop, own: Option<nat>, w: Wait)
    requires l.now == w.start <= w.deadline
    requires own == if w.what.Call? then Some(env.duration(w.what.k)) else None
    ensures AwaitUntil(env, l, own, w.deadline) == (OwnEnd(env, |l.waits|, w), !InTime(env, w))
    ensures CancelledBefore(env, l, OwnEnd(env, |l.waits|, w)) <==> Cut(env, |l.waits|, w)
  {
  }

  lemma CutIsTold(env: Env, budget: nat, max: Option<nat>, l: Loop, w: Wait)
    requires Legal(env, budget, max, l.waits) && w.start == l.now && Cut(env, |l.waits|, w) && EndsRight(env, |l.waits|, w)
    requires w.end >= w.start && l.calls == w.what.k + 1
    requires if l.waits == [] then First(budget, w) else Follows(env, budget, max, |l.waits| - 1, l.waits[|l.waits| - 1], w)
    ensures Told(env, budget, max, Cancelled, l.(now := w.end, waits := l.waits + [w]))
  {
    LegalSnoc(env, budget, max, l.waits, w);
  }

  lemma SleepTells(env: Env, budget: nat, max: Option<nat>, l: Loop, timeout: bool)
    requires JustFailed(env, budget, max, l, timeout) && RetryAllowed(env, budget, max, l.calls - 1, l.now)
    ensures Goes(env, budget, max, SleepStep(env, budget, l, env.delay(l.calls).value))
  {
    var delay := env.delay(l.calls).value;
    if delay != 0 {
      var w := Wait(Delay(l.calls - 1), l.now, Min(l.now + delay, budget), 0);
      AwaitIs(env, l, None, w);
      if Cut(env, |l.waits|, w) { SleepCut(env, budget, max, l, timeout, w); } else { SleepEnds(env, budget, max, l, timeout, w); }
    }
  }

  ghost predicate IsDelay(env: Env, budget: nat, l: Loop, w: Wait) {
    && l.calls > 0 && env.delay(l.calls).Some? && env.delay(l.calls) != Some(0)
    && w.what == Delay(l.calls - 1) && w.start == l.now && w.deadline == Min(l.now + env.delay(l.calls).value, budget)
  }

  lemma SleepCut(env: Env, budget: nat, max: Option<nat>, l: Loop, timeout: bool, w: Wait)
    requires JustFailed(env, budget, max, l, timeout) && RetryAllowed(env, budget, max, l.calls - 1, l.now)
    requires IsDelay(env, budget, l, w) && Cut(env, |l.waits|, w)
    ensures Told(env, budget, max, Cancelled, CancelAt(env, l, w.what, w.deadline))
  {
    CutIsTold(env, budget, max, l, w.(end := l.now + env.cancelled(|l.waits|).value));
  }

  lemma SleepEnds(env: Env, budget: nat, max: Option<nat>, l: Loop, timeout: bool, w: Wait)
    requires JustFailed(env, budget, max, l, timeout) && RetryAllowed(env, budget, max, l.calls - 1, l.now)
    requires IsDelay(env, budget, l, w) && !Cut(env, |l.waits|, w)
    ensures Standing(env, budget, max, Record(l, w.what, w.deadline, OwnEnd(env, |l.waits|, w)))
  {
    LegalSnoc(env, budget, max, l.waits, w.(end := OwnEnd(env, |l.waits|, w)));
  }

  lemma UsedIsIgnored(env: Env, budget: nat, max: Option<nat>, l: Loop, used: nat, timeout: bool)
    requires JustFailed(env, budget, max, l, timeout)
    ensures JustFailed(env, budget, max, l.(used := used), timeout)
  {
  }

  lemma FailTells(env: Env, budget: nat, max: Option<nat>, l: Loop, timeout: bool)
    requires JustFailed(env, budget, max, l, timeout)
    requires CountAllows(max, l.used) <==> (max.Some? ==> l.calls - 1 < max.value)
    ensures Goes(env, budget, max, FailStep(env, budget, max, l, timeout))
  {
    var m := l.(used := Saturating(l.used));
    if CountAllows(max, l.used) && env.delay(l.calls).Some? && m.now < budget {
      UsedIsIgnored(env, budget, max, l, m.used, timeout);
      SleepTells(env, budget, max, m, timeout);
    }
  }

  lemma NextCallFollows(env: Env, budget: nat, max: Option<nat>, l: Loop, w: Wait)
    requires Standing(env, budget, max, l) && l.now < budget
    requires w.what == Call(l.calls) && w.start == l.now && w.deadline == budget
    ensures if l.waits == [] then First(budget, w) else Follows(env, budget, max, |l.waits| - 1, l.waits[|l.waits| - 1], w)
  {
  }

  ghost predicate IsCall(budget: nat, l: Loop, w: Wait) {
    w.what == Call(l.calls) && w.start == l.now && w.deadline == budget
  }

  lemma CallCut(env: Env, budget: nat, max: Option<nat>, l: Loop, w: Wait)
    requires Standing(env, budget, max, l) && l.now < budget && IsCall(budget, l, w) && Cut(env, |l.waits|, w)
    ensures Told(env, budget, max, Cancelled, CancelAt(env, l.(calls := l.calls + 1), w.what, budget))
  {
    var v := w.(end := l.now + env.cancelled(|l.waits|).value);
    NextCallFollows(env, budget, max, l, v);
    CutIsTold(env, budget, max, l.(calls := l.calls + 1), v);
  }

  lemma CallEnds(env: Env, budget: nat, max: Option<nat>, l: Loop, w: Wait)
    requires Standing(env, budget, max, l) && l.now < budget && IsCall(budget, l, w) && !Cut(env, |l.waits|, w)
    ensures var done := Record(l.(calls := l.calls + 1), w.what, budget, OwnEnd(env, |l.waits|, w));
            if Succeeds(env, |l.waits|, w) then Told(env, budget, max, Answered, done)
            else JustFailed(env, budget, max, done, !InTime(env, w))
  {
    var v := w.(end := OwnEnd(env, |l.waits|, w));
    NextCallFollows(env, budget, max, l, v);
    LegalSnoc(env, budget, max, l.waits, v);
  }

  lemma IterateTells(env: Env, budget: nat, max: Option<nat>, l: Loop)
    requires Standing(env, budget, max, l) && budget > 0
    requires CountAllows(max, l.used) <==> (max.Some? ==> l.calls < max.value)
    ensures Goes(env, budget, max, Iterate(env, budget, max, l))
  {
    if l.now < budget {
      var w := Wait(Call(l.calls), l.now, budget, 0);
      AwaitIs(env, l, Some(env.duration(l.calls)), w);
      if Cut(env, |l.waits|, w) {
        CallCut(env, budget, max, l, w);
      } else {
        CallEnds(env, budget, max, l, w);
        if !Succeeds(env, |l.waits|, w) {
          var done := Record(l.(calls := l.calls + 1), w.what, budget, OwnEnd(env, |l.waits|, w));
          FailTells(env, budget, max, done, !InTime(env, w));
        }
      }
    }
  }

  lemma {:induction false} RunTells(env: Env, budget: nat, max: Option<nat>, n: nat)
    requires IsU32(max) && budget > 0
    ensures Goes(env, budget, max, After(env, budget, max, n))
  {
    if n > 0 {
      RunTells(env, budget, max, n - 1);
      EveryRunKeeps(env, budget, max, n - 1);
      match After(env, budget, max, n - 1)
      case Stopped(_, _) =>
      case Going(l) => IterateTells(env, budget, max, l);
    }
  }
}
