/** Bounded concurrency of group collections with a semaphore that is swapped at run time
    (`set_max_concurrent_collections`, `collect_one_group`).  A call acquires from the semaphore
    it loaded; a swap only affects later loads. */
module SemaphoreSwap {
  import opened Collections

  datatype Generation = Generation(limit: nat, free: nat, holders: set<int>)

  datatype Call = Waiting(gen: nat) | Running(gen: nat) | Ended

  /** `asked` lists the limits that were asked for, the one the engine starts with first. */
  datatype State = State(gens: seq<Generation>, current: nat, calls: map<int, Call>, asked: seq<nat>)

  ghost predicate Init(s: State) {
    exists limit: nat :: s == State([Generation(limit, limit, {})], 0, map[], [limit])
  }

  // ---------------------------------------------------------------- steps

  /** A new call loads the current semaphore and waits on it. */
  ghost predicate Load(s: State, t: State, c: int) {
    c !in s.calls && t == s.(calls := s.calls[c := Waiting(s.current)])
  }

  ghost predicate Acquire(s: State, t: State, c: int) {
    && c in s.calls && s.calls[c].Waiting? && s.calls[c].gen < |s.gens|
    && var g := s.calls[c].gen;
    && s.gens[g].free > 0
    && t == s.(calls := s.calls[c := Running(g)],
               gens := s.gens[g := s.gens[g].(free := s.gens[g].free - 1, holders := s.gens[g].holders + {c})])
  }

  /** The token is cancelled while the call waits. */
  ghost predicate Cancel(s: State, t: State, c: int) {
    c in s.calls && s.calls[c].Waiting? && t == s.(calls := s.calls[c := Ended])
  }

  /** The call returns, for whatever reason, and drops its permit. */
  ghost predicate Release(s: State, t: State, c: int) {
    && c in s.calls && s.calls[c].Running? && s.calls[c].gen < |s.gens|
    && var g := s.calls[c].gen;
    && t == s.(calls := s.calls[c := Ended],
               gens := s.gens[g := s.gens[g].(free := s.gens[g].free + 1, holders := s.gens[g].holders - {c})])
  }

  ghost predicate Swap(s: State, t: State, max: nat) {
    var limit := if max == 0 then 1 else max;
    t == s.(gens := s.gens + [Generation(limit, limit, {})], current := |s.gens|, asked := s.asked + [max])
  }

  ghost predicate CallStep(s: State, t: State, c: int) {
    Load(s, t, c) || Acquire(s, t, c) || Cancel(s, t, c) || Release(s, t, c)
  }

  ghost predicate Next(s: State, t: State) {
    (exists c :: CallStep(s, t, c)) || (exists max: nat :: Swap(s, t, max))
  }

  ghost predicate Run(states: seq<State>) {
    && states != [] && Init(states[0])
    && forall i | 0 <= i < |states| - 1 :: Next(states[i], states[i + 1])
  }

  // ---------------------------------------------------------------- invariant

  /** Permits are conserved, and a generation is held by exactly the calls running on it. */
  ghost predicate Sound(s: State, g: nat)
    requires g < |s.gens|
  {
    && s.gens[g].free + |s.gens[g].holders| == s.gens[g].limit
    && forall c :: c in s.gens[g].holders <==> c in s.calls && s.calls[c] == Running(g)
  }

  ghost predicate Placed(s: State, c: int)
    requires c in s.calls
  {
    !s.calls[c].Ended? ==> s.calls[c].gen < |s.gens|
  }

  ghost predicate Inv(s: State) {
    && s.current < |s.gens|
    && (forall g: nat | g < |s.gens| :: Sound(s, g))
    && (forall c | c in s.calls :: Placed(s, c))
  }

  lemma CallStepKeepsSound(s: State, t: State, c: int, g: nat)
    requires CallStep(s, t, c) && g < |s.gens| && Sound(s, g)
    ensures Sound(t, g)
  {
  }

  lemma NextKeepsInv(s: State, t: State)
    requires Inv(s) && Next(s, t)
    ensures Inv(t)
  {
    if c :| CallStep(s, t, c) {
      forall g: nat | g < |t.gens| ensures Sound(t, g) { CallStepKeepsSound(s, t, c, g); }
      forall d | d in t.calls ensures Placed(t, d) { assert d in s.calls ==> Placed(s, d); }
    } else {
      forall g: nat | g < |t.gens| ensures Sound(t, g) {
        if g < |s.gens| { assert Sound(s, g); }
        else { assert forall d | d in s.calls :: Placed(s, d); }
      }
      forall d | d in t.calls ensures Placed(t, d) { assert Placed(s, d); }
    }
  }

  lemma {:induction false} InvAlways(states: seq<State>, i: nat)
    requires Run(states) && i < |states|
    ensures Inv(states[i])
  {
    if i > 0 {
      InvAlways(states, i - 1);
      assert Next(states[i - 1], states[i - 1 + 1]);
      NextKeepsInv(states[i - 1], states[i]);
    }
  }

  // ---------------------------------------------------------------- which limit applies

  /** Each limit asked for made one generation, with at least one permit after the first; the last one
      is in use. */
  ghost predicate AsAsked(s: State) {
    && |s.gens| == |s.asked| && s.current + 1 == |s.gens|
    && forall g: nat | g < |s.gens| :: s.gens[g].limit == if g > 0 && s.asked[g] == 0 then 1 else s.asked[g]
  }

  lemma {:induction false} LimitsAreAsAsked(states: seq<State>, i: nat)
    requires Run(states) && i < |states|
    ensures AsAsked(states[i])
  {
    if i > 0 {
      LimitsAreAsAsked(states, i - 1);
      assert Next(states[i - 1], states[i - 1 + 1]);
    }
  }

  /** The call was not there in state `i`, and so loaded a semaphore that was in use after it. */
  ghost predicate LoadedSince(s: State, t: State, c: int) {
    c !in s.calls && c in t.calls && !t.calls[c].Ended? ==> s.current <= t.calls[c].gen <= t.current
  }

  /** A call keeps the semaphore it loaded, and a new one loads the one in use. */
  lemma NextLoads(s: State, t: State, c: int)
    requires Next(s, t) && AsAsked(s)
    ensures s.current <= t.current && (c in s.calls ==> c in t.calls)
    ensures c in t.calls && !t.calls[c].Ended? ==>
      if c in s.calls then !s.calls[c].Ended? && t.calls[c].gen == s.calls[c].gen else t.calls[c].gen == s.current
  {
  }

  lemma {:induction false} NewCallsUseNewLimit(states: seq<State>, i: nat, j: nat, c: int)
    requires Run(states) && i <= j < |states|
    ensures LoadedSince(states[i], states[j], c) && states[i].current <= states[j].current
  {
    if i < j {
      var h := j - 1;
      NewCallsUseNewLimit(states, i, h, c);
      LimitsAreAsAsked(states, h);
      var s, t := states[h], states[h + 1];
      assert Next(s, t);
      NextLoads(s, t, c);
    }
  }

  // ---------------------------------------------------------------- bounds

  function RunningBelow(s: State, n: nat): set<int> {
    set c | c in s.calls && s.calls[c].Running? && s.calls[c].gen < n
  }

  function RunningCalls(s: State): set<int> {
    set c | c in s.calls && s.calls[c].Running?
  }

  /** The limits of the generations that are still held, added up. */
  function HeldLimits(gens: seq<Generation>): nat {
    if gens == [] then 0 else
      var last := gens[|gens| - 1];
      HeldLimits(gens[..|gens| - 1]) + (if last.holders == {} then 0 else last.limit)
  }

  lemma {:induction false} RunningBelowBound(s: State, n: nat)
    requires Inv(s) && n <= |s.gens|
    ensures |RunningBelow(s, n)| <= HeldLimits(s.gens[..n])
  {
    if n == 0 {
      assert RunningBelow(s, 0) == {};
    } else {
      RunningBelowBound(s, n - 1);
      assert Sound(s, n - 1);
      forall c | c in RunningBelow(s, n) ensures c in RunningBelow(s, n - 1) || c in s.gens[n - 1].holders {
        assert s.calls[c] == Running(s.calls[c].gen);
      }
      var below, here := RunningBelow(s, n - 1), s.gens[n - 1].holders;
      assert RunningBelow(s, n) <= below + here;
      SubsetCardinality(RunningBelow(s, n), below + here);
      assert s.gens[..n][..n - 1] == s.gens[..n - 1];
    }
  }

  /** At every moment of every run the running calls are bounded by the limits of the semaphores
      still held. */
  lemma RunningWithinHeldLimits(states: seq<State>, i: nat)
    requires Run(states) && i < |states|
    ensures |RunningCalls(states[i])| <= HeldLimits(states[i].gens)
  {
    InvAlways(states, i);
    var s := states[i];
    RunningBelowBound(s, |s.gens|);
    assert s.gens[..|s.gens|] == s.gens;
    forall c | c in RunningCalls(s) ensures c in RunningBelow(s, |s.gens|) { assert Placed(s, c); }
    assert RunningCalls(s) == RunningBelow(s, |s.gens|);
  }

  /** Once the older semaphores have drained, the current limit alone bounds the running calls. */
  lemma RunningWithinCurrentLimit(states: seq<State>, i: nat)
    requires Run(states) && i < |states|
    requires forall g: nat | g < |states[i].gens| && g != states[i].current :: states[i].gens[g].holders == {}
    ensures states[i].current < |states[i].gens|
    ensures |RunningCalls(states[i])| <= states[i].gens[states[i].current].limit
  {
    InvAlways(states, i);
    var s := states[i];
    assert Sound(s, s.current);
    forall c | c in RunningCalls(s) ensures c in s.gens[s.current].holders {
      assert Placed(s, c);
      assert Sound(s, s.calls[c].gen);
    }
    SubsetCardinality(RunningCalls(s), s.gens[s.current].holders);
  }

  /** A running call holds a permit of its own generation and of no other, and permits are
      conserved in every generation. */
  lemma OnePermitEach(states: seq<State>, i: nat, c: int, g: nat)
    requires Run(states) && i < |states| && g < |states[i].gens|
    ensures c in states[i].gens[g].holders <==> c in states[i].calls && states[i].calls[c] == Running(g)
    ensures states[i].gens[g].free + |states[i].gens[g].holders| == states[i].gens[g].limit
  {
    InvAlways(states, i);
    assert Sound(states[i], g);
  }
}
