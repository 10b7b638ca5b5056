/** The controller's worker registry and test dispatch (src/cluster/mod.rs). */
module ClusterRegistry {
  import opened Wrappers

  const CHANNEL_CAPACITY: nat := 100

  // ---------------------------------------------------------------- the registry object

  /** A channel's contents as a value. */
  datatype ChannelState = ChannelState(queue: seq<nat>, open: bool) {
    predicate Accepts() {
      open && |queue| < CHANNEL_CAPACITY
    }

    function Offer(command: nat): ChannelState {
      if Accepts() then ChannelState(queue + [command], open) else this
    }
  }

  /** An offered command is taken exactly by an open channel with fewer than 100 commands waiting. */
  lemma OfferIs(channels: map<string, ChannelState>, command: nat)
    ensures forall id :: id in channels ==>
              && (channels[id].Accepts() <==> channels[id].open && |channels[id].queue| < 100)
              && channels[id].Offer(command).open == channels[id].open
              && channels[id].Offer(command).queue == if channels[id].Accepts() then channels[id].queue + [command] else channels[id].queue
  {
  }

  /** One worker's command channel; a command is known by the number of its dispatch. */
  class Channel {
    var queue: seq<nat>
    var open: bool

    constructor ()
      ensures State() == ChannelState([], true)
    {
      queue, open := [], true;
    }

    function State(): ChannelState
      reads this
    {
      ChannelState(queue, open)
    }

    method TrySend(command: nat) returns (ok: bool)
      modifies this`queue
      ensures ok == old(State()).Accepts()
      ensures State() == old(State()).Offer(command)
      ensures ok == (open && |old(queue)| < 100)
      ensures queue == if ok then old(queue) + [command] else old(queue)
    {
      ok := open && |queue| < CHANNEL_CAPACITY;
      if ok {
        queue := queue + [command];
      }
    }
  }

  class Registry {
    var workers: map<string, Channel>

    /** Every connection has its own channel. */
    ghost predicate Valid()
      reads this
    {
      forall a, b :: a in workers && b in workers && workers[a] == workers[b] ==> a == b
    }

    constructor ()
      ensures Valid() && workers == map[]
    {
      workers := map[];
    }

    /** The registration message: a fresh channel under the worker's id, replacing any other. */
    method Register(id: string) returns (channel: Channel)
      requires Valid()
      modifies this
      ensures Valid() && fresh(channel) && channel.State() == ChannelState([], true)
      ensures workers == old(workers)[id := channel]
    {
      channel := new Channel();
      workers := workers[id := channel];
    }

    /** Clean-up when the worker's stream ends. */
    method Unregister(id: string)
      requires Valid()
      modifies this
      ensures Valid() && workers == old(workers) - {id}
    {
      workers := workers - {id};
    }

    /** What every channel holds, by worker id. */
    ghost function Contents(): map<string, ChannelState>
      reads this, workers.Values
    {
      map id | id in workers :: workers[id].State()
    }

    /** Offers one command to every channel, in whatever order the map is walked: those that are
        open with fewer than 100 commands waiting take it, and are counted. */
    method OfferAll(command: nat) returns (sent: nat)
      requires Valid()
      modifies workers.Values
      ensures sent == |set id | id in workers && old(workers[id].open) && |old(workers[id].queue)| < 100|
      ensures forall id :: id in workers ==>
                && workers[id].open == old(workers[id].open)
                && workers[id].queue == if old(workers[id].open) && |old(workers[id].queue)| < 100 then old(workers[id].queue) + [command]
                                        else old(workers[id].queue)
    {
      hide ChannelState.Accepts, ChannelState.Offer;
      sent := 0;
      var todo := workers.Keys;
      ghost var accepted: set<string> := {};
      while todo != {}
        invariant todo <= workers.Keys
        invariant sent == |accepted|
        invariant forall id :: id in accepted <==> id in workers && id !in todo && old(workers[id].open) && |old(workers[id].queue)| < 100
        invariant forall id :: id in workers ==> workers[id].open == old(workers[id].open)
        invariant forall id :: id in todo ==> workers[id].queue == old(workers[id].queue)
        invariant forall id :: id in workers && id !in todo ==>
                    workers[id].queue == if old(workers[id].open) && |old(workers[id].queue)| < 100 then old(workers[id].queue) + [command]
                                         else old(workers[id].queue)
        decreases todo
      {
        var id :| id in todo;
        var ok := workers[id].TrySend(command);
        todo := todo - {id};
        if ok {
          sent := sent + 1;
          accepted := accepted + {id};
        }
      }
      assert accepted == set id | id in workers && old(workers[id].open) && |old(workers[id].queue)| < 100;
    }

    method Dispatch(command: nat) returns (r: Result<nat, string>)
      requires Valid()
      modifies workers.Values
      ensures r.Err? <==> workers == map[]
      ensures r.Ok? ==> r.value == |set id | id in workers && old(workers[id].open) && |old(workers[id].queue)| < 100|
      ensures forall id :: id in workers ==>
                && workers[id].open == old(workers[id].open)
                && workers[id].queue == if old(workers[id].open) && |old(workers[id].queue)| < 100 then old(workers[id].queue) + [command]
                                        else old(workers[id].queue)
      // in the terms of the protocol below
      ensures Contents() == map id | id in workers :: old(Contents())[id].Offer(command)
    {
      OfferIs(Contents(), command);
      hide ChannelState.Accepts, ChannelState.Offer;
      if |workers| == 0 {
        return Err("No workers connected");
      }
      var sent := OfferAll(command);
      r := Ok(sent);
    }
  }

  // ---------------------------------------------------------------- the protocol

  datatype Phase = Connected | Registered(id: string) | Gone

  /** A worker connection: its stream's phase, its channel, and (history) what it has read. */
  datatype Connection = Connection(phase: Phase, channel: ChannelState, received: seq<nat>)

  /** A dispatch: the ids it has yet to offer its command to, its count so far, whether it has
      returned, and (history) the connections that took the command and the dispatches that had
      returned when it began. */
  datatype Dispatching = Dispatching(todo: set<string>, count: nat, returned: bool, takers: set<nat>, after: set<nat>)

  datatype State = State(
    connections: seq<Connection>,
    registry: map<string, nat>,
    log: seq<Dispatching>)

  datatype Event =
    | Connect | Register(c: nat, id: string) | Reject(c: nat) | Disconnect(c: nat) | CloseReceiver(c: nat) | Read(c: nat)
    | Begin | Offer(k: nat, id: string) | Return(k: nat)

  const INITIAL := State([], map[], [])

  /** No dispatch holds the read lock, so the registry may be written. */
  predicate Unread(s: State) {
    forall k :: 0 <= k < |s.log| ==> s.log[k].returned
  }

  /** Dispatches share the read lock, so they may overlap. */
  predicate Enabled(s: State, e: Event) {
    match e
    case Connect => true
    case Register(c, _) => c < |s.connections| && s.connections[c].phase == Connected && Unread(s)
    case Reject(c) => c < |s.connections| && s.connections[c].phase == Connected
    case Disconnect(c) => c < |s.connections| && s.connections[c].phase.Registered? && Unread(s)
    case CloseReceiver(c) => c < |s.connections|
    case Read(c) => c < |s.connections| && s.connections[c].channel.queue != []
    case Begin => s.registry != map[]
    case Offer(k, id) => k < |s.log| && id in s.log[k].todo && id in s.registry && s.registry[id] < |s.connections|
    case Return(k) => k < |s.log| && s.log[k].todo == {} && !s.log[k].returned
  }

  function Apply(s: State, e: Event): State
    requires Enabled(s, e)
  {
    match e
    case Connect => s.(connections := s.connections + [Connection(Connected, ChannelState([], true), [])])
    case Register(c, id) =>
      s.(connections := s.connections[c := s.connections[c].(phase := Registered(id))], registry := s.registry[id := c])
    // the stream ended first, or its first message was not a registration
    case Reject(c) => s.(connections := s.connections[c := s.connections[c].(phase := Gone)])
    case Disconnect(c) =>
      s.(connections := s.connections[c := s.connections[c].(phase := Gone)],
         registry := s.registry - {s.connections[c].phase.id})
    case CloseReceiver(c) => s.(connections := s.connections[c := s.connections[c].(channel := ChannelState(s.connections[c].channel.queue, false))])
    case Read(c) =>
      var x := s.connections[c];
      s.(connections := s.connections[c := x.(channel := ChannelState(x.channel.queue[1..], x.channel.open), received := x.received + [x.channel.queue[0]])])
    case Begin => s.(log := s.log + [Dispatching(s.registry.Keys, 0, false, {}, set k | 0 <= k < |s.log| && s.log[k].returned)])
    case Offer(k, id) =>
      var c, d := s.registry[id], s.log[k];
      var taken := s.connections[c].channel.Accepts();
      s.(connections := s.connections[c := s.connections[c].(channel := s.connections[c].channel.Offer(k))],
         log := s.log[k := d.(todo := d.todo - {id},
                              count := d.count + if taken then 1 else 0,
                              takers := if taken then d.takers + {c} else d.takers)])
    case Return(k) => s.(log := s.log[k := s.log[k].(returned := true)])
  }

  predicate Step(s: State, e: Event, t: State) {
    Enabled(s, e) && t == Apply(s, e)
  }

  /** A run is its events and the states between them. */
  ghost predicate IsRun(states: seq<State>, events: seq<Event>) {
    && |states| == |events| + 1 && states[0] == INITIAL
    && forall i, j :: 0 <= i < |events| && j == i + 1 ==> Step(states[i], events[i], states[j])
  }

  // ---------------------------------------------------------------- invariants of every run

  /** Everything a connection has been given, read or not, in channel order. */
  function Given(connection: Connection): seq<nat> {
    connection.received + connection.channel.queue
  }

  /** Commands once each, and none behind one of a dispatch that began after its own returned. */
  predicate InOrder(log: seq<Dispatching>, commands: seq<nat>) {
    && (forall i :: 0 <= i < |commands| ==> commands[i] < |log|)
    && (forall i, j :: 0 <= i < j < |commands| ==> commands[i] != commands[j] && commands[j] !in log[commands[i]].after)
  }

  /** Registry entries point to live connections registered under that very id. */
  predicate EntriesLive(s: State) {
    forall id :: id in s.registry ==> s.registry[id] < |s.connections| && s.connections[s.registry[id]].phase == Registered(id)
  }

  predicate GivenOk(s: State, c: nat)
    requires c < |s.connections|
  {
    InOrder(s.log, Given(s.connections[c])) && |s.connections[c].channel.queue| <= CHANNEL_CAPACITY
  }

  predicate TakersOk(s: State, c: nat, k: nat)
    requires c < |s.connections| && k < |s.log|
  {
    c in s.log[k].takers <==> k in Given(s.connections[c])
  }

  predicate DispatchOk(s: State, k: nat)
    requires k < |s.log|
  {
    var d := s.log[k];
    && d.count == |d.takers|
    && (d.returned ==> d.todo == {})
    && (forall id :: id in d.todo ==> id in s.registry && s.registry[id] !in d.takers)
    && (forall c :: c in d.takers ==> c < |s.connections|)
    && (forall l :: l in d.after ==> l < k && s.log[l].returned)
  }

  ghost predicate Inv(s: State) {
    && EntriesLive(s)
    && (forall c :: 0 <= c < |s.connections| ==> GivenOk(s, c))
    && (forall c, k :: 0 <= c < |s.connections| && 0 <= k < |s.log| ==> TakersOk(s, c, k))
    && (forall k :: 0 <= k < |s.log| ==> DispatchOk(s, k))
  }

  lemma OfferGiven(s: State, k: nat, id: string, c: nat)
    requires Inv(s) && Enabled(s, Offer(k, id)) && c < |s.connections|
    ensures var t, target := Apply(s, Offer(k, id)), s.registry[id];
            && Given(t.connections[c]) ==
               (if c == target && s.connections[c].channel.Accepts() then Given(s.connections[c]) + [k] else Given(s.connections[c]))
            && k !in Given(s.connections[target])
  {
    assert DispatchOk(s, k) && TakersOk(s, s.registry[id], k);
    if c == s.registry[id] && s.connections[c].channel.Accepts() {
      assert s.connections[c].received + (s.connections[c].channel.queue + [k]) == Given(s.connections[c]) + [k];
    }
  }

  lemma InOrderSnoc(log: seq<Dispatching>, later: seq<Dispatching>, commands: seq<nat>, k: nat)
    requires InOrder(log, commands) && |later| == |log| && forall l :: 0 <= l < |log| ==> later[l].after == log[l].after
    ensures InOrder(later, commands)
    ensures k < |log| && k !in commands && (forall i :: 0 <= i < |commands| ==> k !in log[commands[i]].after) ==> InOrder(later, commands + [k])
  {
  }

  lemma OfferConnection(s: State, k: nat, id: string, c: nat)
    requires Inv(s) && Enabled(s, Offer(k, id)) && c < |s.connections|
    ensures GivenOk(Apply(s, Offer(k, id)), c)
  {
    OfferGiven(s, k, id, c);
    assert GivenOk(s, c) && DispatchOk(s, k);
    var t, commands := Apply(s, Offer(k, id)), Given(s.connections[c]);
    forall i | 0 <= i < |commands| ensures k !in s.log[commands[i]].after {
      assert DispatchOk(s, commands[i]);
    }
    InOrderSnoc(s.log, t.log, commands, k);
  }

  lemma OfferTakers(s: State, k: nat, id: string, c: nat, l: nat)
    requires Inv(s) && Enabled(s, Offer(k, id)) && c < |s.connections| && l < |s.log|
    ensures TakersOk(Apply(s, Offer(k, id)), c, l)
  {
    OfferGiven(s, k, id, c);
    assert TakersOk(s, c, l);
  }

  lemma OfferDispatch(s: State, k: nat, id: string, l: nat)
    requires Inv(s) && Enabled(s, Offer(k, id)) && l < |s.log|
    ensures DispatchOk(Apply(s, Offer(k, id)), l)
  {
    assert DispatchOk(s, l) && DispatchOk(s, k);
    var t := Apply(s, Offer(k, id));
    forall other | other in s.log[k].todo && other != id ensures s.registry[other] != s.registry[id] {
      assert s.connections[s.registry[other]].phase == Registered(other);
    }
    forall m | 0 <= m < |s.log| ensures t.log[m].returned == s.log[m].returned && t.log[m].after == s.log[m].after { }
  }

  lemma OfferInv(s: State, k: nat, id: string)
    requires Inv(s) && Enabled(s, Offer(k, id))
    ensures Inv(Apply(s, Offer(k, id)))
  {
    var t := Apply(s, Offer(k, id));
    assert EntriesLive(t);
    forall c | 0 <= c < |t.connections| ensures GivenOk(t, c) {
      OfferConnection(s, k, id, c);
    }
    forall c, l | 0 <= c < |t.connections| && 0 <= l < |t.log| ensures TakersOk(t, c, l) {
      OfferTakers(s, k, id, c, l);
    }
    forall l | 0 <= l < |t.log| ensures DispatchOk(t, l) {
      OfferDispatch(s, k, id, l);
    }
  }

  lemma LogStepInv(s: State, e: Event)
    requires Inv(s) && Enabled(s, e) && (e.Begin? || e.Return?)
    ensures Inv(Apply(s, e))
  {
    var t := Apply(s, e);
    forall c | 0 <= c < |t.connections| ensures GivenOk(t, c) {
      assert GivenOk(s, c);
    }
    forall c, k | 0 <= c < |t.connections| && 0 <= k < |t.log| ensures TakersOk(t, c, k) {
      assert GivenOk(s, c);
      if k < |s.log| {
        assert TakersOk(s, c, k);
      }
    }
    forall k | 0 <= k < |t.log| ensures DispatchOk(t, k) {
      if k < |s.log| {
        assert DispatchOk(s, k);
      }
    }
  }

  lemma ConnectionKeepsGiven(s: State, e: Event, c: nat)
    requires Enabled(s, e) && !e.Begin? && !e.Offer? && !e.Return? && c < |s.connections|
    ensures Given(Apply(s, e).connections[c]) == Given(s.connections[c])
    ensures |Apply(s, e).connections[c].channel.queue| <= |s.connections[c].channel.queue|
  {
    if e.Read? && c == e.c {
      var x := s.connections[c];
      assert x.channel.queue == [x.channel.queue[0]] + x.channel.queue[1..];
    }
  }

  lemma ConnectionKeepsDispatch(s: State, e: Event, k: nat)
    requires Inv(s) && Enabled(s, e) && !e.Begin? && !e.Offer? && !e.Return? && k < |s.log|
    ensures DispatchOk(Apply(s, e), k)
  {
    assert DispatchOk(s, k);
  }

  /** Steps of one connection leave what it has been given alone, and write the registry only
      when no dispatch is under way. */
  lemma ConnectionStepInv(s: State, e: Event)
    requires Inv(s) && Enabled(s, e) && !e.Begin? && !e.Offer? && !e.Return?
    ensures Inv(Apply(s, e))
  {
    var t := Apply(s, e);
    forall c | 0 <= c < |t.connections| ensures GivenOk(t, c) {
      NothingInOrder(s.log);
      if c < |s.connections| {
        assert GivenOk(s, c);
        ConnectionKeepsGiven(s, e, c);
      }
    }
    forall c, k | 0 <= c < |t.connections| && 0 <= k < |t.log| ensures TakersOk(t, c, k) {
      assert DispatchOk(s, k);
      if c < |s.connections| {
        assert TakersOk(s, c, k);
        ConnectionKeepsGiven(s, e, c);
      }
    }
    forall k | 0 <= k < |t.log| ensures DispatchOk(t, k) {
      ConnectionKeepsDispatch(s, e, k);
    }
  }

  lemma NothingInOrder(log: seq<Dispatching>)
    ensures InOrder(log, [])
  {
  }

  lemma StepInv(s: State, e: Event)
    requires Inv(s) && Enabled(s, e)
    ensures Inv(Apply(s, e))
  {
    if e.Offer? {
      OfferInv(s, e.k, e.id);
    } else if e.Begin? || e.Return? {
      LogStepInv(s, e);
    } else {
      ConnectionStepInv(s, e);
    }
  }

  lemma {:induction false} RunInv(states: seq<State>, events: seq<Event>, i: nat)
    requires IsRun(states, events) && i < |states|
    ensures Inv(states[i])
    decreases i
  {
    if i > 0 {
      RunInv(states, events, i - 1);
      assert Step(states[i - 1], events[i - 1], states[i]);
      StepInv(states[i - 1], events[i - 1]);
    }
  }

  /** Each worker gets a command at most once, and never behind that of a dispatch begun after
      the command's own had returned; at most 100 commands wait unread. */
  lemma CommandsInDispatchOrder(states: seq<State>, events: seq<Event>, i: nat, c: nat)
    requires IsRun(states, events) && i < |states| && c < |states[i].connections|
    ensures InOrder(states[i].log, Given(states[i].connections[c]))
    ensures |states[i].connections[c].channel.queue| <= 100
  {
    RunInv(states, events, i);
    assert GivenOk(states[i], c);
  }

  /** A dispatch returns exactly the number of connections that were given its command. */
  lemma DispatchCountIsExact(states: seq<State>, events: seq<Event>, i: nat, k: nat)
    requires IsRun(states, events) && i < |states| && k < |states[i].log|
    ensures states[i].log[k].count == |set c | 0 <= c < |states[i].connections| && k in Given(states[i].connections[c])|
  {
    RunInv(states, events, i);
    var s := states[i];
    assert DispatchOk(s, k);
    forall c | 0 <= c < |s.connections| ensures c in s.log[k].takers <==> k in Given(s.connections[c]) {
      assert TakersOk(s, c, k);
    }
    assert s.log[k].takers == set c | 0 <= c < |s.connections| && k in Given(s.connections[c]);
  }

  /** While a dispatch is under way nobody can register or leave, so every id it has yet to
      serve still has its live connection. */
  lemma DispatchSeesOneRegistry(states: seq<State>, events: seq<Event>, i: nat, k: nat, id: string, e: Event)
    requires IsRun(states, events) && i < |states| && k < |states[i].log| && id in states[i].log[k].todo
    ensures Enabled(states[i], Offer(k, id))
    ensures states[i].connections[states[i].registry[id]].phase == Registered(id)
    ensures e.Register? || e.Disconnect? ==> !Enabled(states[i], e)
  {
    RunInv(states, events, i);
    assert DispatchOk(states[i], k);
    assert !Unread(states[i]);
  }

  // ---------------------------------------------------------------- who is given a command

  /** What one offer does: the live connection under the id is given the command, behind everything
      else, exactly if its channel is open and has fewer than 100 commands waiting; the dispatch counts
      it then, and nobody else is given anything. */
  lemma OfferDelivers(states: seq<State>, events: seq<Event>, j: nat, k: nat, id: string)
    requires IsRun(states, events) && j < |events| && events[j] == Offer(k, id)
    ensures var s, t := states[j], states[j + 1];
            && id in s.registry && s.registry[id] < |s.connections| == |t.connections| && k < |s.log| == |t.log|
            && var target := s.registry[id];
            var taken := s.connections[target].channel.open && |s.connections[target].channel.queue| < 100;
            && s.connections[target].phase == Registered(id)
            && t.log[k].count == s.log[k].count + (if taken then 1 else 0)
            && forall c :: 0 <= c < |s.connections| ==>
                 Given(t.connections[c]) == Given(s.connections[c]) + if c == target && taken then [k] else []
  {
    RunInv(states, events, j);
    assert Step(states[j], events[j], states[j + 1]);
    var s, t := states[j], states[j + 1];
    forall c | 0 <= c < |s.connections|
      ensures Given(t.connections[c]) == if c == s.registry[id] && s.connections[c].channel.Accepts() then Given(s.connections[c]) + [k] else Given(s.connections[c])
    {
      OfferGiven(s, k, id, c);
    }
  }

  /** A dispatch begins owing its command to every registered id, behind the dispatches that have
      returned; it returns when it owes nothing more. */
  lemma BeginAndReturn(states: seq<State>, events: seq<Event>, j: nat, k: nat)
    requires IsRun(states, events) && j < |events|
    ensures var s, t := states[j], states[j + 1];
            && (events[j] == Begin ==>
                  && t.log == s.log + [Dispatching(s.registry.Keys, 0, false, {}, t.log[|s.log|].after)]
                  && (forall l: nat :: l in t.log[|s.log|].after <==> l < |s.log| && s.log[l].returned))
            && (events[j] == Return(k) ==> k < |s.log| && s.log[k].todo == {} && t.log == s.log[k := s.log[k].(returned := true)])
  {
    assert Step(states[j], events[j], states[j + 1]);
  }

  /** A dispatch can be made and return, and the next one come behind it. */
  lemma DispatchesCanFollow() returns (states: seq<State>, events: seq<Event>)
    ensures IsRun(states, events)
    ensures var s := states[|states| - 1];
            && |s.log| == 2 && s.log[0].returned && s.log[0].count == 1 && s.log[1].after == {0} && s.log[1].todo == {"a"}
            && |s.connections| == 1 && Given(s.connections[0]) == [0]
  {
    states, events := [INITIAL], [];
    states, events := Extend(states, events, Connect);
    states, events := Extend(states, events, Register(0, "a"));
    states, events := Extend(states, events, Begin);
    states, events := Extend(states, events, Offer(0, "a"));
    states, events := Extend(states, events, Return(0));
    states, events := Extend(states, events, Begin);
  }

  predicate Closed(s: State, c: nat, given: seq<nat>) {
    c < |s.connections| && !s.connections[c].channel.open && Given(s.connections[c]) == given
  }

  lemma ClosedStep(s: State, e: Event, c: nat, given: seq<nat>)
    requires Inv(s) && Enabled(s, e) && Closed(s, c, given)
    ensures Closed(Apply(s, e), c, given)
  {
    if e.Offer? {
      OfferGiven(s, e.k, e.id, c);
    } else if !e.Begin? && !e.Return? {
      ConnectionKeepsGiven(s, e, c);
    }
  }

  /** A connection whose receiver is closed is never given another command, in any run. */
  lemma {:induction false} ClosedTakesNothing(states: seq<State>, events: seq<Event>, i: nat, j: nat, c: nat)
    requires IsRun(states, events) && i <= j < |states| && c < |states[i].connections| && !states[i].connections[c].channel.open
    ensures Closed(states[j], c, Given(states[i].connections[c]))
    decreases j
  {
    if i < j {
      hide Apply, Inv, Given;
      ClosedTakesNothing(states, events, i, j - 1, c);
      RunInv(states, events, j - 1);
      assert Step(states[j - 1], events[j - 1], states[j]);
      ClosedStep(states[j - 1], events[j - 1], c, Given(states[i].connections[c]));
    }
  }

  /** A connection that is not registered, never was or no longer is, is given nothing. */
  lemma OnlyRegisteredAreGiven(states: seq<State>, events: seq<Event>, j: nat, c: nat)
    requires IsRun(states, events) && j < |events| && c < |states[j].connections| && !states[j].connections[c].phase.Registered?
    ensures c < |states[j + 1].connections| && Given(states[j + 1].connections[c]) == Given(states[j].connections[c])
  {
    RunInv(states, events, j);
    assert Step(states[j], events[j], states[j + 1]);
    var s, e := states[j], events[j];
    if e.Offer? {
      OfferGiven(s, e.k, e.id, c);
    } else if !e.Begin? && !e.Return? {
      ConnectionKeepsGiven(s, e, c);
    }
  }

  lemma PhaseStep(s: State, e: Event, c: nat)
    requires Enabled(s, e) && c < |s.connections|
    ensures c < |Apply(s, e).connections|
    ensures Apply(s, e).connections[c].phase ==
            if e == Reject(c) || e == Disconnect(c) then Gone
            else if e.Register? && e.c == c then Registered(e.id) else s.connections[c].phase
  {
  }

  /** A connection that was rejected or has left stays away, in every run. */
  lemma {:induction false} GoneForGood(states: seq<State>, events: seq<Event>, j: nat, i: nat, c: nat)
    requires IsRun(states, events) && j < i < |states| && (events[j] == Reject(c) || events[j] == Disconnect(c))
    ensures c < |states[i].connections| && states[i].connections[c].phase == Gone
    decreases i
  {
    assert Step(states[i - 1], events[i - 1], states[i]);
    if i > j + 1 {
      hide Apply;
      GoneForGood(states, events, j, i - 1, c);
      PhaseStep(states[i - 1], events[i - 1], c);
    }
  }

  lemma TodoStep(s: State, e: Event, k: nat, id: string)
    requires Enabled(s, e) && k < |s.log|
    ensures var t := Apply(s, e); k < |t.log| && (id in t.log[k].todo <==> id in s.log[k].todo && e != Offer(k, id))
  {
  }

  /** A dispatch offers its command to every id registered when it began: until it has, the id is
      among those it still owes, so one that has returned has offered it to all of them. */
  lemma {:induction false} EverybodyIsOffered(states: seq<State>, events: seq<Event>, b: nat, i: nat, id: string)
    requires IsRun(states, events) && b < i < |states| && events[b] == Begin && id in states[b].registry
    ensures var k := |states[b].log|;
            && k < |states[i].log|
            && (id in states[i].log[k].todo || exists j :: b < j < i && events[j] == Offer(k, id))
            && (states[i].log[k].returned ==> exists j :: b < j < i && events[j] == Offer(k, id))
    decreases i
  {
    var k := |states[b].log|;
    assert Step(states[i - 1], events[i - 1], states[i]);
    RunInv(states, events, i);
    if i == b + 1 {
      assert states[i].log[k].todo == states[b].registry.Keys;
    } else {
      hide Apply;
      EverybodyIsOffered(states, events, b, i - 1, id);
      TodoStep(states[i - 1], events[i - 1], k, id);
    }
    assert DispatchOk(states[i], k);
  }

  lemma Extend(states: seq<State>, events: seq<Event>, e: Event) returns (more: seq<State>, longer: seq<Event>)
    requires IsRun(states, events) && Enabled(states[|states| - 1], e)
    ensures IsRun(more, longer) && more[|more| - 1] == Apply(states[|states| - 1], e)
  {
    var s := states[|states| - 1];
    var t := Apply(s, e);
    more, longer := states + [t], events + [e];
    forall i, j | 0 <= i < |longer| && j == i + 1 ensures Step(more[i], longer[i], more[j]) {
      if i < |events| {
        assert Step(states[i], events[i], states[j]);
        assert more[i] == states[i] && longer[i] == events[i] && more[j] == states[j];
      } else {
        assert more[i] == s && longer[i] == e && more[j] == t;
      }
    }
    assert more[0] == states[0] && more[|more| - 1] == t;
  }

  /** Dispatch `k` has still to serve both ids. */
  predicate Owes(s: State, k: nat, a: string, b: string) {
    k < |s.log| && a in s.log[k].todo && b in s.log[k].todo
  }

  predicate RoomForTwo(channel: ChannelState) {
    channel.open && |channel.queue| + 2 <= CHANNEL_CAPACITY
  }

  lemma OfferTo(states: seq<State>, events: seq<Event>, k: nat, id: string) returns (more: seq<State>, longer: seq<Event>)
    requires IsRun(states, events)
    requires var s := states[|states| - 1]; Inv(s) && Enabled(s, Offer(k, id)) && s.connections[s.registry[id]].channel.Accepts()
    ensures IsRun(more, longer) && more[|more| - 1] == Apply(states[|states| - 1], Offer(k, id))
    ensures Inv(more[|more| - 1])
    ensures var s, t := states[|states| - 1], more[|more| - 1];
            && |t.connections| == |s.connections| && t.registry == s.registry && |t.log| == |s.log|
            && (forall l :: 0 <= l < |s.log| ==> t.log[l].todo == if l == k then s.log[l].todo - {id} else s.log[l].todo)
            && (forall c :: 0 <= c < |s.connections| ==>
                  t.connections[c].channel == if c == s.registry[id] then s.connections[c].channel.Offer(k) else s.connections[c].channel)
            && (forall c :: 0 <= c < |s.connections| ==>
                  Given(t.connections[c]) == if c == s.registry[id] then Given(s.connections[c]) + [k] else Given(s.connections[c]))
  {
    hide Inv, GivenOk, DispatchOk, TakersOk, InOrder;
    var s := states[|states| - 1];
    more, longer := Extend(states, events, Offer(k, id));
    OfferInv(s, k, id);
    forall c | 0 <= c < |s.connections|
      ensures Given(more[|more| - 1].connections[c]) == if c == s.registry[id] then Given(s.connections[c]) + [k] else Given(s.connections[c])
    {
      OfferGiven(s, k, id, c);
    }
  }

  /** Two dispatches serve one worker, one after the other. */
  lemma OfferBoth(states: seq<State>, events: seq<Event>, k: nat, l: nat, id: string) returns (more: seq<State>, longer: seq<Event>)
    requires IsRun(states, events) && k != l
    requires var s := states[|states| - 1];
             Inv(s) && Enabled(s, Offer(k, id)) && Enabled(s, Offer(l, id)) && RoomForTwo(s.connections[s.registry[id]].channel)
    ensures IsRun(more, longer) && Inv(more[|more| - 1])
    ensures var s, t := states[|states| - 1], more[|more| - 1];
            && |t.connections| == |s.connections| && t.registry == s.registry && |t.log| == |s.log|
            && (forall m, other :: 0 <= m < |s.log| && other != id && other in s.log[m].todo ==> other in t.log[m].todo)
            && (forall c :: 0 <= c < |s.connections| && c != s.registry[id] ==>
                  t.connections[c].channel == s.connections[c].channel && Given(t.connections[c]) == Given(s.connections[c]))
            && Given(t.connections[s.registry[id]]) == Given(s.connections[s.registry[id]]) + [k, l]
  {
    hide Inv, Given, Apply;
    var s := states[|states| - 1];
    more, longer := OfferTo(states, events, k, id);
    more, longer := OfferTo(more, longer, l, id);
    assert Given(s.connections[s.registry[id]]) + [k] + [l] == Given(s.connections[s.registry[id]]) + [k, l];
  }

  /** From every reachable state with two dispatches under way that both have two workers left to
      serve, whose channels are open and have room, the run can go on so that the two workers get
      the two commands in opposite orders. */
  lemma OverlappingDispatchesReorder(states: seq<State>, events: seq<Event>, k: nat, l: nat, a: string, b: string)
    returns (more: seq<State>, longer: seq<Event>)
    requires IsRun(states, events) && k != l && a != b
    requires var s := states[|states| - 1];
             && Owes(s, k, a, b) && Owes(s, l, a, b) && a in s.registry && b in s.registry
             && s.registry[a] < |s.connections| && s.registry[b] < |s.connections|
             && RoomForTwo(s.connections[s.registry[a]].channel) && RoomForTwo(s.connections[s.registry[b]].channel)
    ensures IsRun(more, longer)
    ensures var s, t := states[|states| - 1], more[|more| - 1];
            && |t.connections| == |s.connections|
            && Given(t.connections[s.registry[a]]) == Given(s.connections[s.registry[a]]) + [k, l]
            && Given(t.connections[s.registry[b]]) == Given(s.connections[s.registry[b]]) + [l, k]
  {
    RunInv(states, events, |states| - 1);
    var s := states[|states| - 1];
    assert s.registry[a] != s.registry[b];
    hide Inv, EntriesLive, Given, Apply, RoomForTwo;
    more, longer := OfferBoth(states, events, k, l, a);
    more, longer := OfferBoth(more, longer, l, k, b);
  }

  /** Such states are reachable. */
  lemma DispatchesCanOverlap() returns (states: seq<State>, events: seq<Event>)
    ensures IsRun(states, events)
    ensures var s := states[|states| - 1];
            && Owes(s, 0, "a", "b") && Owes(s, 1, "a", "b") && s.registry == map["a" := 0, "b" := 1] && |s.connections| == 2
            && RoomForTwo(s.connections[0].channel) && RoomForTwo(s.connections[1].channel)
  {
    states, events := [INITIAL], [];
    states, events := Extend(states, events, Connect);
    states, events := Extend(states, events, Connect);
    states, events := Extend(states, events, Register(0, "a"));
    states, events := Extend(states, events, Register(1, "b"));
    states, events := Extend(states, events, Begin);
    states, events := Extend(states, events, Begin);
  }

  // ---------------------------------------------------------------- who is registered

  /** The registry lists exactly the live registered connections. */
  predicate Exact(s: State) {
    && EntriesLive(s)
    && forall c :: 0 <= c < |s.connections| && s.connections[c].phase.Registered? ==>
                     s.connections[c].phase.id in s.registry && s.registry[s.connections[c].phase.id] == c
  }

  /** Registering under an id that is taken is the one step that breaks the registry: the old
      connection is hidden at once. */
  lemma StepKeepsExactIff(s: State, e: Event)
    requires Exact(s) && Enabled(s, e)
    ensures Exact(Apply(s, e)) <==> (e.Register? ==> e.id !in s.registry)
  {
    var t := Apply(s, e);
    if e.Register? {
      if e.id in s.registry {
        var hidden := s.registry[e.id];
        assert t.connections[hidden].phase == Registered(e.id) && t.registry[e.id] != hidden;
      }
    } else if e.Disconnect? {
      var id := s.connections[e.c].phase.id;
      assert t.registry == s.registry - {id} && s.registry[id] == e.c;
    } else if e.Offer? {
      assert forall c :: 0 <= c < |s.connections| ==> t.connections[c].phase == s.connections[c].phase;
    }
  }

  /** With distinct ids among the registered, the registry is exact in every reachable state. */
  lemma {:induction false} RegistryIsExact(states: seq<State>, events: seq<Event>, i: nat)
    requires IsRun(states, events) && i < |states|
    requires forall k :: 0 <= k < |events| && events[k].Register? ==> events[k].id !in states[k].registry
    ensures Exact(states[i])
    decreases i
  {
    if i > 0 {
      RegistryIsExact(states, events, i - 1);
      assert Step(states[i - 1], events[i - 1], states[i]);
      StepKeepsExactIff(states[i - 1], events[i - 1]);
    }
  }

  /** Two workers with one id: when the first goes, the second stays connected but can no
      longer be dispatched to. */
  lemma DuplicateIdLosesLiveWorker() returns (states: seq<State>, events: seq<Event>)
    ensures IsRun(states, events)
    ensures |states[|states| - 1].connections| == 2
    ensures states[|states| - 1].connections[1].phase == Registered("w") && states[|states| - 1].registry == map[]
  {
    var s0 := INITIAL;
    var s1 := Apply(s0, Connect);
    var s2 := Apply(s1, Connect);
    var s3 := Apply(s2, Register(0, "w"));
    var s4 := Apply(s3, Register(1, "w"));
    var s5 := Apply(s4, Disconnect(0));
    events := [Connect, Connect, Register(0, "w"), Register(1, "w"), Disconnect(0)];
    states := [s0, s1, s2, s3, s4, s5];
  }
}
