/** Metrics on their way from producers to aggregator shards (src/engine/mod.rs): a bounded
    channel, several consumer threads, and remote batches built by the first consumer. A shard is
    the multiset of metrics added to it. */
module MetricFanout {

  /** Metrics are told apart by an id. */
  datatype Metric = Metric(id: nat)

  const U64: nat := 0x1_0000_0000_0000_0000

  const REMOTE_BATCH: nat := 100

  /** `remote` says whether a metrics URL is configured. */
  datatype Config = Config(consumers: nat, shards: nat, capacity: nat, remote: bool)

  datatype Hand = Idle | Holding(metric: Metric) | Exited

  datatype Consumer = Consumer(hand: Hand, localCounter: nat)

  datatype State = State(
    channel: seq<Metric>,
    open: bool,                 // some producer is still alive
    consumers: seq<Consumer>,
    shards: seq<multiset<Metric>>,
    batch: seq<Metric>,              // first consumer's unsent remote batch
    remote: seq<seq<Metric>>,        // batches handed to the remote endpoint
    sent: seq<Metric>,               // history: everything producers sent, in order
    taken: seq<Metric>,              // history: everything consumers took from the channel, in order
    primary: seq<Metric>,            // history: what the first consumer stored, in order
    others: multiset<Metric>)        // history: what the other consumers stored

  datatype Event =
    | Send(metric: Metric) | CloseProducers | Receive(a: nat) | Store(a: nat, secondPassed: bool) | Exit(a: nat)

  ghost predicate Init(c: Config, s: State) {
    && s == State([], true, s.consumers, s.shards, [], [], [], [], [], multiset{})
    && |s.consumers| == c.consumers && |s.shards| == c.shards
    && (forall a :: 0 <= a < c.consumers ==> s.consumers[a] == Consumer(Idle, a))
    && (forall k :: 0 <= k < c.shards ==> s.shards[k] == multiset{})
  }

  predicate Enabled(c: Config, s: State, e: Event) {
    match e
    case Send(_) => s.open && |s.channel| < c.capacity
    case CloseProducers => s.open
    case Receive(a) => a < |s.consumers| && s.consumers[a].hand.Idle? && s.channel != []
    case Store(a, _) => a < |s.consumers| && s.consumers[a].hand.Holding?
    case Exit(a) => a < |s.consumers| && s.consumers[a].hand.Idle? && s.channel == [] && !s.open
  }

  function ShardIndex(c: Config, localCounter: nat): (k: nat)
    requires c.shards > 0
    ensures k < c.shards
  {
    localCounter % c.shards
  }

  /** Wrapping addition on `u64`. */
  function Bump(c: Config, localCounter: nat): nat {
    (localCounter + c.consumers) % U64
  }

  function Apply(c: Config, s: State, e: Event): State
    requires c.shards > 0 && |s.shards| == c.shards && Enabled(c, s, e)
  {
    match e
    case Send(m) => s.(channel := s.channel + [m], sent := s.sent + [m])
    case CloseProducers => s.(open := false)
    case Receive(a) =>
      s.(channel := s.channel[1..], taken := s.taken + [s.channel[0]],
         consumers := s.consumers[a := s.consumers[a].(hand := Holding(s.channel[0]))])
    case Exit(a) => s.(consumers := s.consumers[a := s.consumers[a].(hand := Exited)])
    case Store(a, secondPassed) =>
      var m, n := s.consumers[a].hand.metric, s.consumers[a].localCounter;
      var k := ShardIndex(c, n);
      var flush := secondPassed || |s.batch| + 1 >= REMOTE_BATCH;
      var reports := a == 0 && c.remote;
      s.(consumers := s.consumers[a := Consumer(Idle, Bump(c, n))],
         shards := s.shards[k := s.shards[k] + multiset{m}],
         batch := if !reports then s.batch else if flush then [] else s.batch + [m],
         remote := if reports && flush then s.remote + [s.batch + [m]] else s.remote,
         primary := if a == 0 then s.primary + [m] else s.primary,
         others := if a == 0 then s.others else s.others + multiset{m})
  }

  ghost predicate Step(c: Config, s: State, e: Event, t: State) {
    c.shards > 0 && |s.shards| == c.shards && Enabled(c, s, e) && t == Apply(c, s, e)
  }

  /** A run is its events and the states between them. */
  ghost predicate IsRun(c: Config, run: seq<State>, events: seq<Event>) {
    && c.shards > 0 && |run| == |events| + 1 && Init(c, run[0])
    && forall i, j :: 0 <= i < |events| && j == i + 1 ==> Step(c, run[i], events[i], run[j])
  }

  // ---------------------------------------------------------------- counting

  /** How often `m` occurs in all shards together. */
  function Stored(shards: seq<multiset<Metric>>, m: Metric): nat {
    if shards == [] then 0 else shards[0][m] + Stored(shards[1..], m)
  }

  /** How many consumers hold `m` between the channel and a shard. */
  function InHand(consumers: seq<Consumer>, m: Metric): nat {
    if consumers == [] then 0 else Holds(consumers[0], m) + InHand(consumers[1..], m)
  }

  function Holds(consumer: Consumer, m: Metric): nat {
    if consumer.hand == Holding(m) then 1 else 0
  }

  function Is(m: Metric, n: Metric): nat {
    if m == n then 1 else 0
  }

  function Concat(batches: seq<seq<Metric>>): seq<Metric> {
    if batches == [] then [] else Concat(batches[..|batches| - 1]) + batches[|batches| - 1]
  }

  lemma {:induction false} StoredUpdate(shards: seq<multiset<Metric>>, k: nat, added: Metric, m: Metric)
    requires k < |shards|
    ensures Stored(shards[k := shards[k] + multiset{added}], m) == Stored(shards, m) + Is(added, m)
    decreases |shards|
  {
    var updated := shards[k := shards[k] + multiset{added}];
    if k == 0 {
      assert updated[1..] == shards[1..];
    } else {
      assert updated[1..] == shards[1..][k - 1 := shards[1..][k - 1] + multiset{added}];
      StoredUpdate(shards[1..], k - 1, added, m);
    }
  }

  lemma {:induction false} InHandUpdate(consumers: seq<Consumer>, a: nat, consumer: Consumer, m: Metric)
    requires a < |consumers|
    ensures InHand(consumers[a := consumer], m) == InHand(consumers, m) - Holds(consumers[a], m) + Holds(consumer, m)
    decreases |consumers|
  {
    var updated := consumers[a := consumer];
    if a == 0 {
      assert updated[1..] == consumers[1..];
    } else {
      assert updated[1..] == consumers[1..][a - 1 := consumer];
      InHandUpdate(consumers[1..], a - 1, consumer, m);
    }
  }

  lemma {:induction false} NothingYet(shards: seq<multiset<Metric>>, consumers: seq<Consumer>, m: Metric)
    requires forall k :: 0 <= k < |shards| ==> shards[k] == multiset{}
    requires forall a :: 0 <= a < |consumers| ==> !consumers[a].hand.Holding?
    ensures Stored(shards, m) == 0 && InHand(consumers, m) == 0
    decreases |shards| + |consumers|
  {
    if shards != [] {
      NothingYet(shards[1..], consumers, m);
    }
    if consumers != [] {
      NothingYet(shards, consumers[1..], m);
    }
  }

  // ---------------------------------------------------------------- the invariant

  predicate ConservedFor(s: State, m: Metric) {
    && multiset(s.sent)[m] == Stored(s.shards, m) + multiset(s.channel)[m] + InHand(s.consumers, m)
    && Stored(s.shards, m) == multiset(s.primary)[m] + s.others[m]
  }

  ghost predicate Reported(c: Config, s: State) {
    && |s.batch| < REMOTE_BATCH
    && (forall i :: 0 <= i < |s.remote| ==> 1 <= |s.remote[i]| <= REMOTE_BATCH)
    && (if c.remote then Concat(s.remote) + s.batch == s.primary else s.remote == [] && s.batch == [])
  }

  ghost predicate Shaped(c: Config, s: State) {
    c.shards > 0 && |s.shards| == c.shards && |s.consumers| == c.consumers && |s.channel| <= c.capacity
  }

  ghost predicate Inv(c: Config, s: State) {
    Shaped(c, s) && Reported(c, s) && s.sent == s.taken + s.channel && forall m :: ConservedFor(s, m)
  }

  lemma ReceiveConserves(c: Config, s: State, a: nat, m: Metric)
    requires Shaped(c, s) && ConservedFor(s, m) && Enabled(c, s, Receive(a))
    ensures ConservedFor(Apply(c, s, Receive(a)), m)
  {
    var t := Apply(c, s, Receive(a));
    InHandUpdate(s.consumers, a, t.consumers[a], m);
    assert s.channel == [s.channel[0]] + t.channel;
  }

  lemma StoreConserves(c: Config, s: State, a: nat, secondPassed: bool, m: Metric)
    requires Shaped(c, s) && ConservedFor(s, m) && Enabled(c, s, Store(a, secondPassed))
    ensures ConservedFor(Apply(c, s, Store(a, secondPassed)), m)
  {
    var t := Apply(c, s, Store(a, secondPassed));
    InHandUpdate(s.consumers, a, t.consumers[a], m);
    StoredUpdate(s.shards, ShardIndex(c, s.consumers[a].localCounter), s.consumers[a].hand.metric, m);
  }

  lemma StepConserves(c: Config, s: State, e: Event, m: Metric)
    requires Shaped(c, s) && ConservedFor(s, m) && Enabled(c, s, e)
    ensures ConservedFor(Apply(c, s, e), m)
  {
    match e {
      case Send(_) =>
      case CloseProducers =>
      case Receive(a) => ReceiveConserves(c, s, a, m);
      case Exit(a) => InHandUpdate(s.consumers, a, Apply(c, s, e).consumers[a], m);
      case Store(a, secondPassed) => StoreConserves(c, s, a, secondPassed, m);
    }
  }

  lemma StoreReported(c: Config, s: State, a: nat, secondPassed: bool)
    requires Shaped(c, s) && Reported(c, s) && Enabled(c, s, Store(a, secondPassed))
    ensures Reported(c, Apply(c, s, Store(a, secondPassed)))
  {
    hide Concat, ShardIndex, Bump;
    BatchStep(s.remote, s.batch, s.consumers[a].hand.metric);
  }

  lemma OrderKept(c: Config, s: State, e: Event)
    requires Shaped(c, s) && Enabled(c, s, e) && s.sent == s.taken + s.channel
    ensures var t := Apply(c, s, e); t.sent == t.taken + t.channel && Shaped(c, t)
    ensures !e.Store? && Reported(c, s) ==> Reported(c, Apply(c, s, e))
  {
    hide ShardIndex, Bump, Concat;
    if e.Receive? {
      assert s.channel == [s.channel[0]] + s.channel[1..];
    }
  }

  lemma StepInv(c: Config, s: State, e: Event)
    requires Inv(c, s) && Enabled(c, s, e)
    ensures Inv(c, Apply(c, s, e))
  {
    hide Apply, Enabled, ConservedFor, Reported;
    OrderKept(c, s, e);
    forall m ensures ConservedFor(Apply(c, s, e), m) {
      StepConserves(c, s, e, m);
    }
    if e.Store? {
      StoreReported(c, s, e.a, e.secondPassed);
    }
  }

  lemma BatchStep(remote: seq<seq<Metric>>, batch: seq<Metric>, m: Metric)
    ensures Concat(remote + [batch + [m]]) == Concat(remote) + batch + [m]
  {
    assert (remote + [batch + [m]])[..|remote|] == remote;
  }

  lemma {:induction false} RunInv(c: Config, run: seq<State>, events: seq<Event>, i: nat)
    requires IsRun(c, run, events) && i < |run|
    ensures Inv(c, run[i])
    decreases i
  {
    if i == 0 {
      forall m ensures ConservedFor(run[0], m) {
        NothingYet(run[0].shards, run[0].consumers, m);
      }
    } else {
      RunInv(c, run, events, i - 1);
      assert Step(c, run[i - 1], events[i - 1], run[i]);
      StepInv(c, run[i - 1], events[i - 1]);
    }
  }

  // ---------------------------------------------------------------- what every run keeps

  /** No metric is lost, invented or counted twice between producers and shards. */
  lemma MetricsConserved(c: Config, run: seq<State>, events: seq<Event>, i: nat, m: Metric)
    requires IsRun(c, run, events) && i < |run|
    ensures multiset(run[i].sent)[m] == Stored(run[i].shards, m) + multiset(run[i].channel)[m] + InHand(run[i].consumers, m)
    ensures |run[i].channel| <= c.capacity
  {
    RunInv(c, run, events, i);
    assert ConservedFor(run[i], m);
  }

  /** The channel keeps the order: what consumers have taken and what is in the channel, one behind
      the other, is what was sent. */
  lemma FirstInFirstOut(c: Config, run: seq<State>, events: seq<Event>, i: nat)
    requires IsRun(c, run, events) && i < |run|
    ensures run[i].sent == run[i].taken + run[i].channel
  {
    RunInv(c, run, events, i);
  }

  predicate DrainedIfExited(s: State, a: nat)
    requires a < |s.consumers|
  {
    s.consumers[a].hand.Exited? ==> s.channel == [] && !s.open
  }

  lemma ExitStep(c: Config, s: State, e: Event, a: nat)
    requires Shaped(c, s) && Enabled(c, s, e) && a < |Apply(c, s, e).consumers|
    ensures |Apply(c, s, e).consumers| == |s.consumers|
    ensures DrainedIfExited(s, a) ==> DrainedIfExited(Apply(c, s, e), a)
  {
  }

  /** A consumer leaves only when every producer is gone and the channel is empty for good. */
  lemma {:induction false} ExitMeansDrained(c: Config, run: seq<State>, events: seq<Event>, i: nat, a: nat)
    requires IsRun(c, run, events) && i < |run| && a < |run[i].consumers| && run[i].consumers[a].hand.Exited?
    ensures run[i].channel == [] && !run[i].open
    decreases i
  {
    if i > 0 {
      hide Apply, ConservedFor, Reported;
      RunInv(c, run, events, i - 1);
      assert Step(c, run[i - 1], events[i - 1], run[i]);
      ExitStep(c, run[i - 1], events[i - 1], a);
      if run[i - 1].consumers[a].hand.Exited? {
        ExitMeansDrained(c, run, events, i - 1, a);
      }
    }
  }

  /** Once every consumer has left, the shards hold everything that was sent. */
  lemma EverythingAggregatedAtExit(c: Config, run: seq<State>, events: seq<Event>, i: nat, m: Metric)
    requires IsRun(c, run, events) && i < |run| && c.consumers > 0
    requires forall a :: 0 <= a < |run[i].consumers| ==> run[i].consumers[a].hand.Exited?
    ensures Stored(run[i].shards, m) == multiset(run[i].sent)[m]
  {
    RunInv(c, run, events, i);
    ExitMeansDrained(c, run, events, i, 0);
    MetricsConserved(c, run, events, i, m);
    NothingYet([], run[i].consumers, m);
  }

  /** With a metrics URL, the batches of 1 to 100 metrics plus the unsent remainder are exactly
      what the first consumer stored, in order. */
  lemma RemoteBatches(c: Config, run: seq<State>, events: seq<Event>, i: nat)
    requires IsRun(c, run, events) && i < |run| && c.remote
    ensures Concat(run[i].remote) + run[i].batch == run[i].primary
    ensures |run[i].batch| < REMOTE_BATCH
    ensures forall k :: 0 <= k < |run[i].remote| ==> 1 <= |run[i].remote[k]| <= REMOTE_BATCH
  {
    RunInv(c, run, events, i);
  }

  /** The endpoint has seen a metric as often as the shards hold it exactly when no other
      consumer stored it and it is not in the unsent remainder: other consumers never report. */
  lemma RemoteIsCompleteIff(c: Config, run: seq<State>, events: seq<Event>, i: nat, m: Metric)
    requires IsRun(c, run, events) && i < |run| && c.remote
    ensures multiset(Concat(run[i].remote))[m] <= Stored(run[i].shards, m)
    ensures multiset(Concat(run[i].remote))[m] == Stored(run[i].shards, m) <==> run[i].others[m] == 0 && m !in run[i].batch
  {
    RunInv(c, run, events, i);
    var s := run[i];
    assert ConservedFor(s, m);
    assert multiset(s.primary) == multiset(Concat(s.remote)) + multiset(s.batch);
    assert m in s.batch <==> multiset(s.batch)[m] > 0;
  }

  // ---------------------------------------------------------------- what one store does

  /** When the first consumer of a run with a metrics URL stores a metric, the batch goes out with
      it once a second has passed or it makes 100, and only then; other stores leave the batch. */
  lemma StoreReports(c: Config, run: seq<State>, events: seq<Event>, j: nat, a: nat, secondPassed: bool)
    requires IsRun(c, run, events) && j < |events| && events[j] == Store(a, secondPassed)
    ensures a < |run[j].consumers| && run[j].consumers[a].hand.Holding?
    ensures var s, t, m := run[j], run[j + 1], run[j].consumers[a].hand.metric;
            if a == 0 && c.remote then
              if secondPassed || |s.batch| + 1 == 100 then t.batch == [] && t.remote == s.remote + [s.batch + [m]]
              else t.batch == s.batch + [m] && t.remote == s.remote
            else t.batch == s.batch && t.remote == s.remote
  {
    hide Bump, ShardIndex, ConservedFor;
    RunInv(c, run, events, j);
    assert Step(c, run[j], events[j], run[j + 1]);
  }

  /** How many metrics a consumer has stored. */
  function Stores(events: seq<Event>, a: nat): nat {
    if events == [] then 0
    else
      var last := events[|events| - 1];
      Stores(events[..|events| - 1], a) + if last.Store? && last.a == a then 1 else 0
  }

  function CounterAfter(a: nat, n: nat, consumers: nat): nat {
    (a + n * consumers) % 0x1_0000_0000_0000_0000
  }

  lemma CounterAfterNext(a: nat, n: nat, consumers: nat)
    ensures a < U64 ==> CounterAfter(a, 0, consumers) == a
    ensures (CounterAfter(a, n, consumers) + consumers) % U64 == CounterAfter(a, n + 1, consumers)
  {
    var x := a + n * consumers;
    assert 0 * consumers == 0 && x + consumers == a + (n + 1) * consumers;
    assert x == x / U64 * U64 + x % U64;
    AddMultiple(x % U64 + consumers, x / U64);
  }

  lemma {:induction false} AddMultiple(y: nat, k: nat)
    ensures (y + k * U64) % U64 == y % U64
    decreases k
  {
    if k > 0 {
      AddMultiple(y, k - 1);
    }
  }

  lemma CounterStep(c: Config, s: State, e: Event, a: nat)
    requires Shaped(c, s) && Enabled(c, s, e) && a < |s.consumers|
    ensures var t := Apply(c, s, e);
            && |t.consumers| == |s.consumers|
            && t.consumers[a].localCounter ==
               if e.Store? && e.a == a then (s.consumers[a].localCounter + c.consumers) % U64 else s.consumers[a].localCounter
  {
  }

  lemma {:induction false} CounterIs(c: Config, run: seq<State>, events: seq<Event>, i: nat, a: nat)
    requires IsRun(c, run, events) && i < |run| && a < c.consumers <= 0x1_0000_0000_0000_0000
    ensures |run[i].consumers| == c.consumers
    ensures run[i].consumers[a].localCounter == CounterAfter(a, Stores(events[..i], a), c.consumers)
    decreases i
  {
    hide Apply, ConservedFor, Reported, Stores, CounterAfter;
    if i == 0 {
      NothingStored(a);
      CounterAfterNext(a, 0, c.consumers);
      assert events[..0] == [];
    } else {
      RunInv(c, run, events, i - 1);
      assert Step(c, run[i - 1], events[i - 1], run[i]);
      CounterStep(c, run[i - 1], events[i - 1], a);
      CounterIs(c, run, events, i - 1, a);
      StoresNext(events, i - 1, a);
      CounterAfterNext(a, Stores(events[..i - 1], a), c.consumers);
    }
  }

  lemma NothingStored(a: nat)
    ensures Stores([], a) == 0
  {
  }

  lemma StoresNext(events: seq<Event>, k: nat, a: nat)
    requires k < |events|
    ensures Stores(events[..k + 1], a) == Stores(events[..k], a) + if events[k].Store? && events[k].a == a then 1 else 0
  {
    assert events[..k + 1][..k] == events[..k];
  }

  /** Metrics go round the shards: the n-th metric that consumer `a` stores (from 0) goes to shard
      `a + n * consumers`, wrapped at 64 bits, modulo the number of shards, and to no other. */
  lemma RoundRobin(c: Config, run: seq<State>, events: seq<Event>, j: nat, a: nat, secondPassed: bool)
    requires IsRun(c, run, events) && j < |events| && events[j] == Store(a, secondPassed)
    requires c.consumers <= 0x1_0000_0000_0000_0000
    ensures a < c.consumers == |run[j].consumers| && run[j].consumers[a].hand.Holding?
    ensures |run[j].shards| == |run[j + 1].shards| == c.shards
    ensures var k := (a + Stores(events[..j], a) * c.consumers) % 0x1_0000_0000_0000_0000 % c.shards;
            forall l :: 0 <= l < c.shards ==>
              run[j + 1].shards[l] == if l == k then run[j].shards[l] + multiset{run[j].consumers[a].hand.metric} else run[j].shards[l]
  {
    hide ConservedFor, Reported, Stores;
    RunInv(c, run, events, j);
    assert Step(c, run[j], events[j], run[j + 1]);
    CounterIs(c, run, events, j, a);
  }

  // ---------------------------------------------------------------- everything can get through

  lemma Extend(c: Config, run: seq<State>, events: seq<Event>, e: Event) returns (more: seq<State>, longer: seq<Event>)
    requires IsRun(c, run, events) && |run[|run| - 1].shards| == c.shards && Enabled(c, run[|run| - 1], e)
    ensures IsRun(c, more, longer) && more[|more| - 1] == Apply(c, run[|run| - 1], e)
  {
    hide Apply, Enabled;
    var s := run[|run| - 1];
    more, longer := run + [Apply(c, s, e)], events + [e];
    forall i, j | 0 <= i < |longer| && j == i + 1 ensures Step(c, more[i], longer[i], more[j]) {
      if i < |events| {
        assert Step(c, run[i], events[i], run[j]);
        assert more[i] == run[i] && longer[i] == events[i] && more[j] == run[j];
      }
    }
  }

  /** The first `gone` consumers have left and the others wait. */
  predicate Resting(c: Config, s: State, sent: seq<Metric>, gone: nat) {
    && |s.shards| == c.shards && |s.consumers| == c.consumers && s.channel == [] && s.sent == sent
    && forall a :: 0 <= a < c.consumers ==> s.consumers[a].hand == if a < gone then Exited else Idle
  }

  lemma {:induction false} PassOn(c: Config, sent: seq<Metric>) returns (run: seq<State>, events: seq<Event>)
    requires c.consumers > 0 && c.shards > 0 && c.capacity > 0
    ensures IsRun(c, run, events) && Resting(c, run[|run| - 1], sent, 0) && run[|run| - 1].open
    decreases |sent|
  {
    if sent == [] {
      run := [State([], true, seq(c.consumers, a requires 0 <= a => Consumer(Idle, a)), seq(c.shards, _ => multiset{}), [], [], [], [], [], multiset{})];
      events := [];
    } else {
      var n := |sent| - 1;
      run, events := PassOn(c, sent[..n]);
      run, events := Extend(c, run, events, Send(sent[n]));
      run, events := Extend(c, run, events, Receive(0));
      run, events := Extend(c, run, events, Store(0, false));
      assert sent[..n] + [sent[n]] == sent;
    }
  }

  lemma {:induction false} AllLeave(c: Config, sent: seq<Metric>, gone: nat) returns (run: seq<State>, events: seq<Event>)
    requires c.consumers > 0 && c.shards > 0 && c.capacity > 0 && gone <= c.consumers
    ensures IsRun(c, run, events) && Resting(c, run[|run| - 1], sent, gone) && !run[|run| - 1].open
    decreases gone
  {
    if gone == 0 {
      run, events := PassOn(c, sent);
      run, events := Extend(c, run, events, CloseProducers);
    } else {
      run, events := AllLeave(c, sent, gone - 1);
      run, events := Extend(c, run, events, Exit(gone - 1));
    }
  }

  /** Whatever is sent, some run aggregates all of it and ends with every consumer gone. */
  lemma EverythingCanGetThrough(c: Config, sent: seq<Metric>) returns (run: seq<State>, events: seq<Event>)
    requires c.consumers > 0 && c.shards > 0 && c.capacity > 0
    ensures IsRun(c, run, events) && run[|run| - 1].sent == sent
    ensures var s := run[|run| - 1]; |s.consumers| == c.consumers && forall a :: 0 <= a < c.consumers ==> s.consumers[a].hand == Exited
    ensures forall m :: Stored(run[|run| - 1].shards, m) == multiset(sent)[m]
  {
    run, events := AllLeave(c, sent, c.consumers);
    forall m ensures Stored(run[|run| - 1].shards, m) == multiset(sent)[m] {
      EverythingAggregatedAtExit(c, run, events, |run| - 1, m);
    }
  }
}
