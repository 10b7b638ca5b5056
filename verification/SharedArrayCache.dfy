/** `SharedArray::new` (src/bridge/data.rs): look under a read lock, look again under the write
    lock, and only then run the factory. Constructors run concurrently; every interleaving is a
    run of the step relation below. */
module SharedArrayCache {
  import opened Wrappers

  /** A converted factory result; `maker` is the constructor call that made it, so equal arrays
      are the same shared allocation. */
  datatype Array = Array(maker: nat, items: seq<string>)

  datatype Outcome = Handle(data: Array) | Error

  /** A constructor call: before the read lock; holding it; after the read lookup; wanting and
      holding the write lock; running the factory; about to release the write lock; returned. */
  datatype Phase =
    | Begin | Reading | HasRead(found: Option<Array>) | WantWrite | Rechecking | Calling | Releasing(outcome: Outcome)
    | Returned(outcome: Outcome)

  datatype Call = Call(name: string, phase: Phase)

  datatype Entry = Entry(name: string, data: Array)

  datatype State = State(
    store: map<string, Array>,
    readers: set<nat>,
    writer: Option<nat>,
    calls: seq<Call>,
    made: seq<Entry>)    // history: factory results inserted, in order

  datatype Event =
    | LockRead(t: nat) | Look(t: nat) | UnlockRead(t: nat) | LockWrite(t: nat) | Recheck(t: nat)
    | FactoryReturns(t: nat, items: seq<string>) | FactoryFails(t: nat) | UnlockWrite(t: nat)

  ghost predicate Init(s: State) {
    && s == State(map[], {}, None, s.calls, [])
    && forall t :: 0 <= t < |s.calls| ==> s.calls[t].phase == Begin
  }

  predicate Enabled(s: State, e: Event) {
    && e.t < |s.calls|
    && var phase := s.calls[e.t].phase;
       match e
       case LockRead(_) => phase == Begin && s.writer == None
       case Look(_) => phase == Reading
       case UnlockRead(_) => phase.HasRead?
       case LockWrite(_) => phase == WantWrite && s.writer == None && s.readers == {}
       case Recheck(_) => phase == Rechecking
       case FactoryReturns(_, _) => phase == Calling
       case FactoryFails(_) => phase == Calling
       case UnlockWrite(_) => phase.Releasing?
  }

  function Move(s: State, t: nat, phase: Phase): seq<Call>
    requires t < |s.calls|
  {
    s.calls[t := s.calls[t].(phase := phase)]
  }

  function Apply(s: State, e: Event): State
    requires Enabled(s, e)
  {
    var t, name, phase := e.t, s.calls[e.t].name, s.calls[e.t].phase;
    match e
    case LockRead(_) => s.(readers := s.readers + {t}, calls := Move(s, t, Reading))
    case Look(_) => s.(calls := Move(s, t, HasRead(if name in s.store then Some(s.store[name]) else None)))
    case UnlockRead(_) =>
      s.(readers := s.readers - {t},
         calls := Move(s, t, if phase.found.Some? then Returned(Handle(phase.found.value)) else WantWrite))
    case LockWrite(_) => s.(writer := Some(t), calls := Move(s, t, Rechecking))
    case Recheck(_) => s.(calls := Move(s, t, if name in s.store then Releasing(Handle(s.store[name])) else Calling))
    case FactoryReturns(_, items) =>
      var data := Array(t, items);
      s.(store := s.store[name := data], calls := Move(s, t, Releasing(Handle(data))), made := s.made + [Entry(name, data)])
    // not a function, threw, not an array, or an item that does not convert
    case FactoryFails(_) => s.(calls := Move(s, t, Releasing(Error)))
    case UnlockWrite(_) => s.(writer := None, calls := Move(s, t, Returned(phase.outcome)))
  }

  predicate Step(s: State, e: Event, u: State) {
    Enabled(s, e) && u == Apply(s, e)
  }

  /** A run is its events and the states between them. */
  ghost predicate IsRun(run: seq<State>, events: seq<Event>) {
    && |run| == |events| + 1 && Init(run[0])
    && forall i, j :: 0 <= i < |events| && j == i + 1 ==> Step(run[i], events[i], run[j])
  }

  // ---------------------------------------------------------------- the invariant

  predicate HoldsWriteLock(phase: Phase) {
    phase.Rechecking? || phase.Calling? || phase.Releasing?
  }

  predicate HoldsReadLock(phase: Phase) {
    phase.Reading? || phase.HasRead?
  }

  /** The array a call has got hold of, if any. */
  function Got(phase: Phase): Option<Array> {
    match phase
    case HasRead(found) => found
    case Releasing(Handle(data)) => Some(data)
    case Returned(Handle(data)) => Some(data)
    case _ => None
  }

  predicate CallOk(s: State, t: nat)
    requires t < |s.calls|
  {
    var name, phase := s.calls[t].name, s.calls[t].phase;
    && (HoldsWriteLock(phase) <==> s.writer == Some(t))
    && (HoldsReadLock(phase) <==> t in s.readers)
    && (phase.Calling? ==> name !in s.store)
    && (Got(phase).Some? ==> name in s.store && s.store[name] == Got(phase).value)
  }

  ghost predicate Inv(s: State) {
    && (forall t :: 0 <= t < |s.calls| ==> CallOk(s, t))
    && (s.writer.Some? ==> s.writer.value < |s.calls| && s.readers == {})
    && (forall i :: 0 <= i < |s.made| ==> s.made[i].name in s.store && s.store[s.made[i].name] == s.made[i].data)
    && (forall i, j :: 0 <= i < j < |s.made| ==> s.made[i].name != s.made[j].name)
  }

  lemma StepInv(s: State, e: Event)
    requires Inv(s) && Enabled(s, e)
    ensures Inv(Apply(s, e))
  {
    var u := Apply(s, e);
    assert CallOk(s, e.t);
    forall t | 0 <= t < |u.calls| ensures CallOk(u, t) {
      assert CallOk(s, t);
    }
  }

  lemma {:induction false} RunInv(run: seq<State>, events: seq<Event>, i: nat)
    requires IsRun(run, events) && i < |run|
    ensures Inv(run[i])
    decreases i
  {
    if i > 0 {
      RunInv(run, events, i - 1);
      assert Step(run[i - 1], events[i - 1], run[i]);
      StepInv(run[i - 1], events[i - 1]);
    }
  }

  // ---------------------------------------------------------------- what every run keeps

  /** At most one factory result is ever stored under a name. */
  lemma OneResultPerName(run: seq<State>, events: seq<Event>, i: nat, k: nat, l: nat)
    requires IsRun(run, events) && i < |run| && k < |run[i].made| && l < |run[i].made|
    requires run[i].made[k].name == run[i].made[l].name
    ensures k == l
  {
    RunInv(run, events, i);
  }

  /** Every handle returned for a name is the one stored under that name, so two constructors
      of the same name share it, whoever made it. */
  lemma HandlesAgree(run: seq<State>, events: seq<Event>, i: nat, t: nat, u: nat)
    requires IsRun(run, events) && i < |run| && t < |run[i].calls| && u < |run[i].calls|
    requires run[i].calls[t].phase.Returned? && run[i].calls[t].phase.outcome.Handle?
    ensures run[i].calls[t].name in run[i].store
    ensures run[i].store[run[i].calls[t].name] == run[i].calls[t].phase.outcome.data
    ensures run[i].calls[u].phase.Returned? && run[i].calls[u].phase.outcome.Handle? && run[i].calls[u].name == run[i].calls[t].name
            ==> run[i].calls[u].phase == run[i].calls[t].phase
  {
    RunInv(run, events, i);
    assert CallOk(run[i], t) && CallOk(run[i], u);
  }

  /** Only one constructor at a time holds the write lock, and nobody reads meanwhile. */
  lemma FactoriesRunAlone(run: seq<State>, events: seq<Event>, i: nat, t: nat, u: nat)
    requires IsRun(run, events) && i < |run| && t < |run[i].calls| && u < |run[i].calls| && t != u
    requires run[i].calls[t].phase.Calling?
    ensures !HoldsWriteLock(run[i].calls[u].phase) && !HoldsReadLock(run[i].calls[u].phase)
  {
    RunInv(run, events, i);
    assert CallOk(run[i], t) && CallOk(run[i], u);
  }

  predicate Keeps(s: State, u: State) {
    forall name :: name in s.store ==> name in u.store && u.store[name] == s.store[name]
  }

  /** A step never changes a stored entry, and only a factory that returns adds one: a failing
      factory leaves the map as it was. */
  lemma StepKeeps(s: State, e: Event)
    requires Inv(s) && Enabled(s, e)
    ensures Keeps(s, Apply(s, e))
    ensures !e.FactoryReturns? ==> Apply(s, e).store == s.store
    ensures e.FactoryReturns? ==> s.calls[e.t].name !in s.store
  {
    assert CallOk(s, e.t);
  }

  lemma {:induction false} EntriesNeverChange(run: seq<State>, events: seq<Event>, i: nat, j: nat)
    requires IsRun(run, events) && i <= j < |run|
    ensures Keeps(run[i], run[j])
    decreases j
  {
    if i < j {
      EntriesNeverChange(run, events, i, j - 1);
      RunInv(run, events, j - 1);
      assert Step(run[j - 1], events[j - 1], run[j]);
      StepKeeps(run[j - 1], events[j - 1]);
    }
  }

  /** A constructor whose factory fails reports the error and has stored nothing; a later
      constructor of that name may still succeed. */
  lemma ErrorMeansNothingMade(run: seq<State>, events: seq<Event>, i: nat, t: nat, k: nat)
    requires IsRun(run, events) && i < |run| && t < |run[i].calls| && k < |run[i].made|
    requires run[i].calls[t].phase == Returned(Error)
    ensures run[i].made[k].data.maker != t
  {
    MakersHaveTheirArray(run, events, i, k);
  }

  ghost predicate MakerOk(s: State, entry: Entry) {
    entry.data.maker < |s.calls| && s.calls[entry.data.maker].name == entry.name && Got(s.calls[entry.data.maker].phase) == Some(entry.data)
  }

  lemma {:induction false} MakersHaveTheirArray(run: seq<State>, events: seq<Event>, i: nat, k: nat)
    requires IsRun(run, events) && i < |run| && k < |run[i].made|
    ensures MakerOk(run[i], run[i].made[k])
    decreases i
  {
    if i > 0 {
      var e := events[i - 1];
      assert Step(run[i - 1], e, run[i]);
      if k < |run[i - 1].made| {
        MakersHaveTheirArray(run, events, i - 1, k);
        RunInv(run, events, i - 1);
        assert CallOk(run[i - 1], e.t);
        MakerStep(run[i - 1], e, run[i - 1].made[k]);
      }
    }
  }

  lemma MakerStep(s: State, e: Event, entry: Entry)
    requires Inv(s) && Enabled(s, e) && MakerOk(s, entry)
    ensures MakerOk(Apply(s, e), entry)
  {
    assert CallOk(s, e.t);
  }

  // ---------------------------------------------------------------- what a factory's result becomes

  /** Every stored array holds what its maker's factory returned: the items of that step. */
  lemma {:induction false} ItemsAreTheFactorys(run: seq<State>, events: seq<Event>, i: nat, k: nat)
    requires IsRun(run, events) && i < |run| && k < |run[i].made|
    ensures var data := run[i].made[k].data;
            exists j :: 0 <= j < i && events[j] == FactoryReturns(data.maker, data.items)
                        && data.maker < |run[j].calls| && run[j].calls[data.maker].name == run[i].made[k].name
    decreases i
  {
    if i > 0 {
      assert Step(run[i - 1], events[i - 1], run[i]);
      if k < |run[i - 1].made| {
        ItemsAreTheFactorys(run, events, i - 1, k);
      }
    }
  }

  lemma {:induction false} NamesStay(run: seq<State>, events: seq<Event>, i: nat)
    requires IsRun(run, events) && i < |run|
    ensures |run[i].calls| == |run[0].calls| && forall t :: 0 <= t < |run[i].calls| ==> run[i].calls[t].name == run[0].calls[t].name
    decreases i
  {
    if i > 0 {
      NamesStay(run, events, i - 1);
      assert Step(run[i - 1], events[i - 1], run[i]);
    }
  }

  /** What a factory returns is stored, whole and in order, under its call's name for good, and
      every handle ever returned under that name holds just those items. */
  lemma ReturnsAreStored(run: seq<State>, events: seq<Event>, i: nat, j: nat, t: nat, items: seq<string>, u: nat)
    requires IsRun(run, events) && j < i < |run| && events[j] == FactoryReturns(t, items)
    requires u < |run[i].calls| && t < |run[i].calls|
    ensures run[i].calls[t].name in run[i].store && run[i].store[run[i].calls[t].name] == Array(t, items)
    ensures var call := run[i].calls[u];
            call.name == run[i].calls[t].name && call.phase.Returned? && call.phase.outcome.Handle? ==> call.phase.outcome.data == Array(t, items)
  {
    assert Step(run[j], events[j], run[j + 1]);
    NamesStay(run, events, j);
    NamesStay(run, events, j + 1);
    NamesStay(run, events, i);
    EntriesNeverChange(run, events, j + 1, i);
    RunInv(run, events, i);
    assert CallOk(run[i], u);
  }

  /** Every handle returned holds what some factory returned under its name. */
  lemma HandlesAreMade(run: seq<State>, events: seq<Event>, i: nat, t: nat)
    requires IsRun(run, events) && i < |run| && t < |run[i].calls|
    requires run[i].calls[t].phase.Returned? && run[i].calls[t].phase.outcome.Handle?
    ensures var data := run[i].calls[t].phase.outcome.data;
            exists j :: 0 <= j < i && events[j] == FactoryReturns(data.maker, data.items)
  {
    RunInv(run, events, i);
    assert CallOk(run[i], t);
    StoredIsMade(run, events, i, run[i].calls[t].name);
    var k :| 0 <= k < |run[i].made| && run[i].made[k].data == run[i].calls[t].phase.outcome.data;
    ItemsAreTheFactorys(run, events, i, k);
  }

  lemma {:induction false} StoredIsMade(run: seq<State>, events: seq<Event>, i: nat, name: string)
    requires IsRun(run, events) && i < |run| && name in run[i].store
    ensures exists k :: 0 <= k < |run[i].made| && run[i].made[k] == Entry(name, run[i].store[name])
    decreases i
  {
    if i > 0 {
      assert Step(run[i - 1], events[i - 1], run[i]);
      if name in run[i - 1].store && run[i - 1].store[name] == run[i].store[name] {
        StoredIsMade(run, events, i - 1, name);
        var k :| 0 <= k < |run[i - 1].made| && run[i - 1].made[k] == Entry(name, run[i - 1].store[name]);
        assert run[i].made[k] == Entry(name, run[i].store[name]);
      } else {
        assert run[i].made[|run[i].made| - 1] == Entry(name, run[i].store[name]);
      }
    }
  }

  predicate Failed(phase: Phase) {
    phase == Releasing(Error) || phase == Returned(Error)
  }

  lemma {:induction false} FailedIff(run: seq<State>, events: seq<Event>, i: nat, t: nat)
    requires IsRun(run, events) && i < |run| && t < |run[i].calls|
    ensures Failed(run[i].calls[t].phase) <==> exists j :: 0 <= j < i && events[j] == FactoryFails(t)
    decreases i
  {
    if i > 0 {
      hide Apply, Failed;
      assert Step(run[i - 1], events[i - 1], run[i]);
      FailsStep(run[i - 1], events[i - 1], t);
      FailedIff(run, events, i - 1, t);
    } else {
      assert run[0].calls[t].phase == Begin;
    }
  }

  lemma FailsStep(s: State, e: Event, t: nat)
    requires Enabled(s, e) && t < |Apply(s, e).calls|
    ensures |Apply(s, e).calls| == |s.calls|
    ensures Failed(Apply(s, e).calls[t].phase) <==> Failed(s.calls[t].phase) || e == FactoryFails(t)
  {
  }

  /** A constructor ends in an error exactly when its own factory failed: one that finds the array
      made meanwhile gets it. */
  lemma ErrorIffFactoryFailed(run: seq<State>, events: seq<Event>, i: nat, t: nat)
    requires IsRun(run, events) && i < |run| && t < |run[i].calls| && run[i].calls[t].phase.Returned?
    ensures run[i].calls[t].phase.outcome == Error <==> exists j :: 0 <= j < i && events[j] == FactoryFails(t)
  {
    FailedIff(run, events, i, t);
  }
}
