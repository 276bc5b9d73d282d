/** The collector's outbound queue, which is replaced at run time: `rebuild_outbound_queue`
    installs a new bounded queue and starts a forwarder for it, while batches that began
    earlier keep sending to the queue they loaded and old forwarders drain.  Producers,
    forwarders, rebuilds and shutdown interleave arbitrarily. */
module OutboundQueue {
  import opened Collections

  /** The `index`-th item of one `send_data` batch. */
  datatype Item = Item(batch: int, index: nat)

  /** The consumer of one queue: the receiver may still be waiting for its task. */
  datatype Forwarder = Unspawned | Idle | Routing(item: Item) | Exited

  datatype Generation = Generation(capacity: nat, queue: seq<Item>, forwarder: Forwarder, lost: seq<Item>)

  /** A `send_data` call: the queue it loaded, its items, those not sent, and whether it still runs. */
  datatype Batch = Batch(gen: nat, items: seq<Item>, pending: seq<Item>, open: bool)

  /** `asked` lists the capacities that were asked for. */
  datatype State = State(gens: seq<Generation>, current: nat, batches: map<int, Batch>,
                         routed: seq<Item>, shutdown: bool, asked: seq<nat>)

  function ItemsOf(b: int, n: nat): (r: seq<Item>)
    ensures |r| == n && forall i | 0 <= i < n :: r[i] == Item(b, i)
  {
    seq(n, i requires 0 <= i < n => Item(b, i))
  }

  function NewGeneration(capacity: nat): Generation {
    Generation(if capacity == 0 then 1 else capacity, [], Unspawned, [])
  }

  ghost predicate Init(s: State) {
    exists capacity: nat :: s == State([NewGeneration(capacity)], 0, map[], [], false, [capacity])
  }

  // ---------------------------------------------------------------- steps

  /** Create a queue and point the bus at it; its forwarder starts in a later step. */
  ghost predicate Rebuild(s: State, t: State, capacity: nat) {
    t == s.(gens := s.gens + [NewGeneration(capacity)], current := |s.gens|, asked := s.asked + [capacity])
  }

  ghost predicate Spawn(s: State, t: State, g: nat) {
    && g < |s.gens| && s.gens[g].forwarder.Unspawned?
    && t == s.(gens := s.gens[g := s.gens[g].(forwarder := Idle)])
  }

  /** `send_data` loads the current sender once for the whole batch. */
  ghost predicate Begin(s: State, t: State, b: int, n: nat) {
    && b !in s.batches
    && t == s.(batches := s.batches[b := Batch(s.current, ItemsOf(b, n), ItemsOf(b, n), true)])
  }

  /** Send one item: wait for room, or fail when the receiver is gone. */
  ghost predicate Send(s: State, t: State, b: int) {
    && b in s.batches && s.batches[b].open && s.batches[b].pending != []
    && var batch := s.batches[b];
    && var x := batch.pending[0];
    && batch.gen < |s.gens|
    && var gen := s.gens[batch.gen];
    && (gen.forwarder.Exited? || |gen.queue| < gen.capacity)
    && t == s.(batches := s.batches[b := batch.(pending := batch.pending[1..])],
               gens := s.gens[batch.gen :=
                 if gen.forwarder.Exited? then gen.(lost := gen.lost + [x]) else gen.(queue := gen.queue + [x])])
  }

  ghost predicate Finish(s: State, t: State, b: int) {
    && b in s.batches && s.batches[b].open && s.batches[b].pending == []
    && t == s.(batches := s.batches[b := s.batches[b].(open := false)])
  }

  /** The call is dropped before it has sent everything: the rest is never sent. */
  ghost predicate Abandon(s: State, t: State, b: int) {
    && b in s.batches && s.batches[b].open && s.batches[b].pending != []
    && t == s.(batches := s.batches[b := s.batches[b].(open := false)])
  }

  ghost predicate Take(s: State, t: State, g: nat) {
    && g < |s.gens| && s.gens[g].forwarder.Idle? && s.gens[g].queue != []
    && t == s.(gens := s.gens[g := s.gens[g].(forwarder := Routing(s.gens[g].queue[0]), queue := s.gens[g].queue[1..])])
  }

  ghost predicate Route(s: State, t: State, g: nat) {
    && g < |s.gens| && s.gens[g].forwarder.Routing?
    && t == s.(gens := s.gens[g := s.gens[g].(forwarder := Idle)], routed := s.routed + [s.gens[g].forwarder.item])
  }

  /** Some sender of the queue is alive: the bus itself or an open batch. */
  ghost predicate HasSender(s: State, g: nat) {
    g == s.current || exists b :: b in s.batches && s.batches[b].open && s.batches[b].gen == g
  }

  /** The forwarder ends when its queue is empty and can never be filled again. */
  ghost predicate Drained(s: State, t: State, g: nat) {
    && g < |s.gens| && s.gens[g].forwarder.Idle? && s.gens[g].queue == [] && !HasSender(s, g)
    && t == s.(gens := s.gens[g := s.gens[g].(forwarder := Exited)])
  }

  ghost predicate Shutdown(s: State, t: State) {
    t == s.(shutdown := true)
  }

  /** A forwarder that sees the cancelled token drops its receiver with all it holds. */
  ghost predicate Cancelled(s: State, t: State, g: nat) {
    && s.shutdown && g < |s.gens| && s.gens[g].forwarder.Idle?
    && t == s.(gens := s.gens[g := s.gens[g].(forwarder := Exited, queue := [], lost := s.gens[g].lost + s.gens[g].queue)])
  }

  ghost predicate GenStep(s: State, t: State, g: nat) {
    Spawn(s, t, g) || Take(s, t, g) || Route(s, t, g) || Drained(s, t, g) || Cancelled(s, t, g)
  }

  ghost predicate Next(s: State, t: State) {
    || (exists capacity: nat :: Rebuild(s, t, capacity))
    || (exists b: int, n: nat :: Begin(s, t, b, n))
    || (exists b: int :: Send(s, t, b) || Finish(s, t, b) || Abandon(s, t, b))
    || (exists g: nat :: GenStep(s, t, g))
    || Shutdown(s, t)
  }

  ghost predicate Run(states: seq<State>) {
    && states != [] && Init(states[0])
    && forall i | 0 <= i < |states| - 1 :: Next(states[i], states[i + 1])
  }

  // ---------------------------------------------------------------- invariant

  /** The items of one batch, in order. */
  function Of(b: int, xs: seq<Item>): seq<Item> {
    if xs == [] then [] else (if xs[0].batch == b then [xs[0]] else []) + Of(b, xs[1..])
  }

  function InHand(f: Forwarder): seq<Item> {
    if f.Routing? then [f.item] else []
  }

  /** What a generation still has, oldest first: being routed, queued, lost. */
  function Contents(gen: Generation): seq<Item> {
    InHand(gen.forwarder) + gen.queue + gen.lost
  }

  /** Exactly-once accounting of a batch: what was routed, what its own generation still has and
      what is not sent yet make up the batch, in batch order. */
  ghost predicate Accounted(s: State, b: int)
    requires b in s.batches
  {
    var batch := s.batches[b];
    batch.gen < |s.gens| &&
    Of(b, s.routed) + Of(b, Contents(s.gens[batch.gen])) + batch.pending == batch.items
  }

  /** A generation only holds items of batches that loaded it. */
  ghost predicate AtHome(s: State, g: nat)
    requires g < |s.gens|
  {
    forall x | x in Contents(s.gens[g]) :: x.batch in s.batches && s.batches[x.batch].gen == g
  }

  ghost predicate Healthy(s: State, g: nat)
    requires g < |s.gens|
  {
    var gen := s.gens[g];
    && 1 <= gen.capacity && |gen.queue| <= gen.capacity
    && (gen.forwarder.Exited? ==> gen.queue == [])
    && (gen.lost != [] ==> gen.forwarder.Exited? && s.shutdown)
    && (gen.forwarder.Exited? && !s.shutdown ==> !HasSender(s, g))
  }

  ghost predicate Known(s: State, b: int)
    requires b in s.batches
  {
    var batch := s.batches[b];
    batch.items == ItemsOf(b, |batch.items|)
  }

  ghost predicate Inv(s: State) {
    && s.current < |s.gens|
    && (forall g: nat | g < |s.gens| :: AtHome(s, g))
    && (forall g: nat | g < |s.gens| :: Healthy(s, g))
    && (forall b | b in s.batches :: Accounted(s, b))
    && (forall b | b in s.batches :: Known(s, b))
    && (forall x | x in s.routed :: x.batch in s.batches)
  }

  // ---------------------------------------------------------------- filters

  lemma {:induction false} OfAppend(b: int, xs: seq<Item>, ys: seq<Item>)
    ensures Of(b, xs + ys) == Of(b, xs) + Of(b, ys)
  {
    if xs == [] {
      assert xs + ys == ys;
    } else {
      assert (xs + ys)[0] == xs[0] && (xs + ys)[1..] == xs[1..] + ys;
      OfAppend(b, xs[1..], ys);
      var head := if xs[0].batch == b then [xs[0]] else [];
      assert head + (Of(b, xs[1..]) + Of(b, ys)) == (head + Of(b, xs[1..])) + Of(b, ys);
    }
  }

  lemma {:induction false} OfNone(b: int, xs: seq<Item>)
    requires forall x | x in xs :: x.batch != b
    ensures Of(b, xs) == []
  {
    if xs != [] { OfNone(b, xs[1..]); }
  }

  lemma {:induction false} OfKeeps(b: int, xs: seq<Item>, x: Item)
    ensures x in Of(b, xs) <==> x in xs && x.batch == b
  {
    if xs != [] { OfKeeps(b, xs[1..], x); }
  }

  // ---------------------------------------------------------------- forwarder steps

  /** A forwarder only ever moves the oldest item on: what was routed followed by what is left
      of the generation stays the same sequence. */
  lemma GenStepFlows(s: State, t: State, g: nat)
    requires GenStep(s, t, g) && Healthy(s, g)
    ensures s.routed + Contents(s.gens[g]) == t.routed + Contents(t.gens[g])
    ensures s.routed <= t.routed
    ensures forall x | x in Contents(t.gens[g]) :: x in Contents(s.gens[g])
    ensures forall x | x in t.routed :: x in s.routed || x in Contents(s.gens[g])
  {
    var a, b := s.gens[g], t.gens[g];
    if Route(s, t, g) {
      assert Contents(a) == [a.forwarder.item] + Contents(b);
    } else if Take(s, t, g) {
      assert a.queue == [a.queue[0]] + a.queue[1..];
      assert Contents(a) == Contents(b);
    } else {
      assert Contents(a) == Contents(b);
    }
  }

  lemma GenStepKeepsAccount(s: State, t: State, g: nat, b: int)
    requires GenStep(s, t, g) && Healthy(s, g) && AtHome(s, g) && b in s.batches && Accounted(s, b)
    ensures Accounted(t, b)
  {
    GenStepFlows(s, t, g);
    var batch := s.batches[b];
    OfAppend(b, s.routed, Contents(s.gens[g]));
    OfAppend(b, t.routed, Contents(t.gens[g]));
    if batch.gen != g {
      OfNone(b, Contents(s.gens[g]));
      OfNone(b, Contents(t.gens[g]));
      assert Of(b, s.routed) + [] == Of(b, s.routed) && Of(b, t.routed) + [] == Of(b, t.routed);
      assert t.gens[batch.gen] == s.gens[batch.gen];
    }
  }

  lemma GenStepKeepsHealth(s: State, t: State, g: nat, h: nat)
    requires GenStep(s, t, g) && h < |s.gens| && Healthy(s, h)
    ensures Healthy(t, h)
  {
    assert HasSender(t, h) <==> HasSender(s, h);
  }

  lemma GenStepKeepsHome(s: State, t: State, g: nat, h: nat)
    requires GenStep(s, t, g) && h < |s.gens| && AtHome(s, h) && Healthy(s, g)
    ensures AtHome(t, h)
  {
    GenStepFlows(s, t, g);
    if h != g { assert t.gens[h] == s.gens[h]; }
  }

  lemma GenStepKeepsKnown(s: State, t: State, g: nat)
    requires GenStep(s, t, g) && Healthy(s, g) && AtHome(s, g) && forall x | x in s.routed :: x.batch in s.batches
    ensures forall x | x in t.routed :: x.batch in t.batches
  {
    GenStepFlows(s, t, g);
  }

  lemma GenStepKeepsInv(s: State, t: State, g: nat)
    requires Inv(s) && GenStep(s, t, g)
    ensures Inv(t)
  {
    assert Healthy(s, g) && AtHome(s, g);
    GenStepKeepsKnown(s, t, g);
    forall h: nat | h < |t.gens| ensures Healthy(t, h) { GenStepKeepsHealth(s, t, g, h); }
    forall h: nat | h < |t.gens| ensures AtHome(t, h) { GenStepKeepsHome(s, t, g, h); }
    forall b | b in t.batches ensures Accounted(t, b) { GenStepKeepsAccount(s, t, g, b); }
    forall b | b in t.batches ensures Known(t, b) { assert Known(s, b); }
  }

  // ---------------------------------------------------------------- producer steps

  /** The next item of a batch is its own, and it lands at the end of its generation. */
  lemma SendAppends(s: State, t: State, b: int)
    requires Inv(s) && Send(s, t, b)
    ensures var g := s.batches[b].gen; var x := s.batches[b].pending[0];
      x.batch == b && Contents(t.gens[g]) == Contents(s.gens[g]) + [x]
  {
    var batch := s.batches[b];
    var x, g := batch.pending[0], batch.gen;
    assert Accounted(s, b) && Known(s, b) && Healthy(s, g);
    assert x in batch.items;
  }

  lemma MovesOver(r: seq<Item>, c: seq<Item>, x: Item, rest: seq<Item>)
    ensures r + (c + [x]) + rest == r + c + ([x] + rest)
  {
  }

  lemma SendKeepsOwnAccount(s: State, t: State, b: int)
    requires Inv(s) && Send(s, t, b)
    ensures Accounted(t, b)
  {
    SendAppends(s, t, b);
    var g, x, rest := s.batches[b].gen, s.batches[b].pending[0], s.batches[b].pending[1..];
    assert Accounted(s, b);
    OfAppend(b, Contents(s.gens[g]), [x]);
    assert Of(b, [x]) == [x];
    assert s.batches[b].pending == [x] + rest;
    var r, c := Of(b, s.routed), Of(b, Contents(s.gens[g]));
    MovesOver(r, c, x, rest);
  }

  lemma SendKeepsOtherAccount(s: State, t: State, b: int, c: int)
    requires Inv(s) && Send(s, t, b) && c in s.batches && c != b
    ensures Accounted(t, c)
  {
    SendAppends(s, t, b);
    var g, x := s.batches[b].gen, s.batches[b].pending[0];
    assert Accounted(s, c);
    OfAppend(c, Contents(s.gens[g]), [x]);
    assert Of(c, [x]) == [];
    assert t.batches[c] == s.batches[c];
    if s.batches[c].gen == g {
      assert Of(c, Contents(t.gens[g])) == Of(c, Contents(s.gens[g]));
    } else {
      assert t.gens[s.batches[c].gen] == s.gens[s.batches[c].gen];
    }
  }

  lemma SendKeepsHealth(s: State, t: State, b: int, h: nat)
    requires Inv(s) && Send(s, t, b) && h < |s.gens|
    ensures Healthy(t, h)
  {
    assert Healthy(s, h);
    assert HasSender(t, h) ==> HasSender(s, h);
    assert HasSender(s, s.batches[b].gen);
  }

  lemma SendKeepsInv(s: State, t: State, b: int)
    requires Inv(s) && Send(s, t, b)
    ensures Inv(t)
  {
    SendAppends(s, t, b);
    forall h: nat | h < |t.gens| ensures Healthy(t, h) { SendKeepsHealth(s, t, b, h); }
    forall h: nat | h < |t.gens| ensures AtHome(t, h) { assert AtHome(s, h); }
    forall c | c in t.batches ensures Accounted(t, c) {
      if c == b { SendKeepsOwnAccount(s, t, b); } else { SendKeepsOtherAccount(s, t, b, c); }
    }
    forall c | c in t.batches ensures Known(t, c) { assert Known(s, c); }
  }

  lemma ClosingKeepsInv(s: State, t: State, b: int)
    requires Inv(s) && (Finish(s, t, b) || Abandon(s, t, b))
    ensures Inv(t)
  {
    forall h: nat | h < |t.gens| ensures Healthy(t, h) {
      assert Healthy(s, h);
      assert HasSender(t, h) ==> HasSender(s, h);
    }
    forall h: nat | h < |t.gens| ensures AtHome(t, h) { assert AtHome(s, h); }
    forall c | c in t.batches ensures Accounted(t, c) && Known(t, c) { assert Accounted(s, c) && Known(s, c); }
  }

  lemma BeginKeepsInv(s: State, t: State, b: int, n: nat)
    requires Inv(s) && Begin(s, t, b, n)
    ensures Inv(t)
  {
    forall h: nat | h < |t.gens| ensures Healthy(t, h) {
      assert Healthy(s, h);
      assert HasSender(t, h) ==> HasSender(s, h);
    }
    forall h: nat | h < |t.gens| ensures AtHome(t, h) { assert AtHome(s, h); }
    forall c | c in t.batches ensures Accounted(t, c) && Known(t, c) {
      if c == b {
        assert AtHome(s, s.current);
        OfNone(b, s.routed);
        OfNone(b, Contents(s.gens[s.current]));
      } else {
        assert Accounted(s, c) && Known(s, c);
      }
    }
  }

  lemma RebuildKeepsInv(s: State, t: State, capacity: nat)
    requires Inv(s) && Rebuild(s, t, capacity)
    ensures Inv(t)
  {
    forall h: nat | h < |t.gens| ensures Healthy(t, h) && AtHome(t, h) {
      if h < |s.gens| {
        assert Healthy(s, h) && AtHome(s, h);
        assert HasSender(t, h) ==> HasSender(s, h);
      }
    }
    forall c | c in t.batches ensures Accounted(t, c) && Known(t, c) { assert Accounted(s, c) && Known(s, c); }
  }

  lemma ShutdownKeepsInv(s: State, t: State)
    requires Inv(s) && Shutdown(s, t)
    ensures Inv(t)
  {
    forall h: nat | h < |t.gens| ensures Healthy(t, h) && AtHome(t, h) { assert Healthy(s, h) && AtHome(s, h); }
    forall c | c in t.batches ensures Accounted(t, c) && Known(t, c) { assert Accounted(s, c) && Known(s, c); }
  }

  // ---------------------------------------------------------------- all runs

  lemma NextKeepsInv(s: State, t: State)
    requires Inv(s) && Next(s, t)
    ensures Inv(t)
  {
    if capacity: nat :| Rebuild(s, t, capacity) { RebuildKeepsInv(s, t, capacity); }
    else if b: int, n: nat :| Begin(s, t, b, n) { BeginKeepsInv(s, t, b, n); }
    else if b: int :| Send(s, t, b) || Finish(s, t, b) || Abandon(s, t, b) {
      if Send(s, t, b) { SendKeepsInv(s, t, b); } else { ClosingKeepsInv(s, t, b); }
    }
    else if g: nat :| GenStep(s, t, g) { GenStepKeepsInv(s, t, g); }
    else { ShutdownKeepsInv(s, t); }
  }

  /** The invariant holds in every state of every run, across any number of rebuilds. */
  lemma {:induction false} InvAlways(states: seq<State>, i: nat)
    requires Run(states) && i < |states|
    ensures Inv(states[i])
  {
    if i > 0 {
      InvAlways(states, i - 1);
      assert Next(states[i - 1], states[i - 1 + 1]);
      NextKeepsInv(states[i - 1], states[i]);
    }
  }

  // ---------------------------------------------------------------- which queue is used

  /** Each capacity asked for made one queue, with room for one item at least; the last one is in use. */
  ghost predicate AsAsked(s: State) {
    && |s.gens| == |s.asked| && s.current + 1 == |s.gens|
    && forall g: nat | g < |s.gens| :: s.gens[g].capacity == if s.asked[g] == 0 then 1 else s.asked[g]
  }

  /** A step other than a rebuild leaves the queues their capacities. */
  ghost predicate SameQueues(s: State, t: State) {
    && t.asked == s.asked && t.current == s.current && |t.gens| == |s.gens|
    && forall g: nat | g < |s.gens| :: t.gens[g].capacity == s.gens[g].capacity
  }

  lemma GenStepSameQueues(s: State, t: State, g: nat)
    requires GenStep(s, t, g)
    ensures SameQueues(s, t)
  {
  }

  lemma BatchStepSameQueues(s: State, t: State, b: int)
    requires Send(s, t, b) || Finish(s, t, b) || Abandon(s, t, b)
    ensures SameQueues(s, t)
  {
  }

  lemma NextKeepsAsked(s: State, t: State)
    requires Next(s, t) && AsAsked(s)
    ensures AsAsked(t) && s.current <= t.current
  {
    if g: nat :| GenStep(s, t, g) { GenStepSameQueues(s, t, g); }
    else if b: int :| Send(s, t, b) || Finish(s, t, b) || Abandon(s, t, b) { BatchStepSameQueues(s, t, b); }
  }

  lemma {:induction false} CapacitiesAreAsAsked(states: seq<State>, i: nat)
    requires Run(states) && i < |states|
    ensures AsAsked(states[i])
  {
    if i > 0 {
      CapacitiesAreAsAsked(states, i - 1);
      assert Next(states[i - 1], states[i - 1 + 1]);
      NextKeepsAsked(states[i - 1], states[i]);
    }
  }

  /** A batch keeps the queue it loaded, and a new one loads the queue in use. */
  ghost predicate BatchLoads(s: State, t: State, b: int) {
    b in t.batches ==> t.batches[b].gen == if b in s.batches then s.batches[b].gen else s.current
  }

  lemma NextLoads(s: State, t: State, b: int)
    requires Next(s, t)
    ensures BatchLoads(s, t, b) && (b in s.batches ==> b in t.batches)
  {
  }

  /** A batch that begins after a rebuild is sent to a queue that is as new or newer, and one that began
      before keeps its own. */
  lemma {:induction false} NewBatchesUseNewQueue(states: seq<State>, i: nat, j: nat, b: int)
    requires Run(states) && i <= j < |states| && b in states[j].batches
    ensures states[i].current <= states[j].current
    ensures if b in states[i].batches then states[j].batches[b].gen == states[i].batches[b].gen
            else states[i].current <= states[j].batches[b].gen <= states[j].current
  {
    if i < j {
      var h := j - 1;
      assert Next(states[h], states[h + 1]);
      CapacitiesAreAsAsked(states, h);
      NextKeepsAsked(states[h], states[h + 1]);
      NextLoads(states[h], states[h + 1], b);
      if b in states[h].batches {
        NewBatchesUseNewQueue(states, i, h, b);
      } else {
        QueuesOnlyGetNewer(states, i, h);
        if b in states[i].batches { BatchesStay(states, i, h, b); }
      }
    }
  }

  lemma {:induction false} QueuesOnlyGetNewer(states: seq<State>, i: nat, j: nat)
    requires Run(states) && i <= j < |states|
    ensures states[i].current <= states[j].current
  {
    if i < j {
      var h := j - 1;
      QueuesOnlyGetNewer(states, i, h);
      assert Next(states[h], states[h + 1]);
      CapacitiesAreAsAsked(states, h);
      NextKeepsAsked(states[h], states[h + 1]);
    }
  }

  lemma {:induction false} BatchesStay(states: seq<State>, i: nat, j: nat, b: int)
    requires Run(states) && i <= j < |states| && b in states[i].batches
    ensures b in states[j].batches
  {
    if i < j {
      var h := j - 1;
      BatchesStay(states, i, h, b);
      assert Next(states[h], states[h + 1]);
      NextLoads(states[h], states[h + 1], b);
    }
  }

  // ---------------------------------------------------------------- items

  /** The items of a batch are routed in batch order: what has been routed of it is a prefix. */
  lemma RoutedInBatchOrder(states: seq<State>, i: nat, b: int)
    requires Run(states) && i < |states| && b in states[i].batches
    ensures Of(b, states[i].routed) <= states[i].batches[b].items
  {
    InvAlways(states, i);
    assert Accounted(states[i], b);
  }

  lemma {:induction false} OfCount(b: int, xs: seq<Item>, x: Item)
    requires x.batch == b
    ensures multiset(Of(b, xs))[x] == multiset(xs)[x]
  {
    if xs != [] {
      assert xs == [xs[0]] + xs[1..];
      OfCount(b, xs[1..], x);
    }
  }

  lemma {:induction false} ItemsOnce(b: int, n: nat, x: Item)
    ensures multiset(ItemsOf(b, n))[x] == if x.batch == b && x.index < n then 1 else 0
  {
    if n > 0 {
      assert ItemsOf(b, n) == ItemsOf(b, n - 1) + [Item(b, n - 1)];
      ItemsOnce(b, n - 1, x);
    }
  }

  /** Every item of a batch is in exactly one place: not yet sent, in the one generation its
      batch loaded, or routed; it is never duplicated. */
  lemma ExactlyOnePlace(states: seq<State>, i: nat, b: int, k: nat)
    requires Run(states) && i < |states| && b in states[i].batches && k < |states[i].batches[b].items|
    ensures
      var s, x := states[i], Item(b, k);
      s.batches[b].gen < |s.gens| &&
      multiset(s.routed)[x] + multiset(Contents(s.gens[s.batches[b].gen]))[x] + multiset(s.batches[b].pending)[x] == 1
  {
    InvAlways(states, i);
    var s, x := states[i], Item(b, k);
    assert Accounted(s, b) && Known(s, b);
    ItemsOnce(b, |s.batches[b].items|, x);
    OfCount(b, s.routed, x);
    OfCount(b, Contents(s.gens[s.batches[b].gen]), x);
  }

  /** No other generation ever holds an item of the batch. */
  lemma OnlyItsGeneration(states: seq<State>, i: nat, g: nat, x: Item)
    requires Run(states) && i < |states| && g < |states[i].gens| && x in Contents(states[i].gens[g])
    ensures x.batch in states[i].batches && states[i].batches[x.batch].gen == g
  {
    InvAlways(states, i);
    assert AtHome(states[i], g);
  }

  /** Before shutdown nothing is lost, no queue is over capacity, and a queue with items has a
      receiver that has not ended. */
  lemma QueuesStayServed(states: seq<State>, i: nat, g: nat)
    requires Run(states) && i < |states| && g < |states[i].gens|
    ensures |states[i].gens[g].queue| <= states[i].gens[g].capacity
    ensures !states[i].shutdown ==> states[i].gens[g].lost == []
    ensures states[i].gens[g].queue != [] ==> !states[i].gens[g].forwarder.Exited?
  {
    InvAlways(states, i);
    assert Healthy(states[i], g);
  }

  /** A queue with items can always make progress once its forwarder is spawned. */
  lemma ForwarderNeverStuck(s: State, g: nat)
    requires Inv(s) && g < |s.gens| && Contents(s.gens[g]) != [] && !s.shutdown
    ensures exists t :: Spawn(s, t, g) || Take(s, t, g) || Route(s, t, g)
  {
    assert Healthy(s, g);
    var gen := s.gens[g];
    if gen.forwarder.Routing? {
      var t := s.(gens := s.gens[g := gen.(forwarder := Idle)], routed := s.routed + [gen.forwarder.item]);
      assert Route(s, t, g);
    } else if gen.forwarder.Unspawned? {
      var t := s.(gens := s.gens[g := gen.(forwarder := Idle)]);
      assert Spawn(s, t, g);
    } else {
      var t := s.(gens := s.gens[g := gen.(forwarder := Routing(gen.queue[0]), queue := gen.queue[1..])]);
      assert Take(s, t, g);
    }
  }

  /** When everything has drained without a shutdown, every finished batch was routed completely
      and in order. */
  lemma DrainedMeansDelivered(states: seq<State>, i: nat, b: int)
    requires Run(states) && i < |states| && b in states[i].batches && states[i].batches[b].pending == []
    requires forall g: nat | g < |states[i].gens| :: Contents(states[i].gens[g]) == []
    ensures Of(b, states[i].routed) == states[i].batches[b].items
  {
    InvAlways(states, i);
    assert Accounted(states[i], b);
  }
}
