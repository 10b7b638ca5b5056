/** The arrival-rate executor (src/engine/mod.rs): a dispatcher numbers iterations and offers
    them to a bounded queue, and a pool of workers takes them from it. Every interleaving is a
    run of the step relation below; a send and its counter update are separate steps. */
module ArrivalRate {
  import opened Wrappers

  /** `workers` is W; the queue holds 2W; `limit` is the scenario's `iterations`. */
  datatype Config = Config(workers: nat, limit: Option<nat>) {
    function Capacity(): nat { workers * 2 }
  }

  /** Where the dispatcher stands: at the loop head, just after an accepted or refused send,
      about to close the channel, about to report started and then completed iterations, or done. */
  datatype Dispatcher = AtHead | Accepted | Refused | Closing | ReportStarted | ReportCompleted | Done

  /** Where a worker stands: building its runtime, at its loop head, waiting on the queue, running
      an iteration, or gone. */
  datatype Worker = Starting | AtTop | Waiting | Busy(iteration: nat) | Exited

  datatype State = State(
    dispatcher: Dispatcher,
    counter: nat,             // next iteration number
    started: nat,
    dropped: nat,
    completed: nat,
    queue: seq<nat>,
    running: bool,            // the pool's shared run flag
    stopRequested: bool,      // global stop
    channelOpen: bool,
    workers: seq<Worker>,
    reported: Report,         // what the two counters read when they were sent
    handedOut: seq<nat>)      // history: numbers received by workers, in order

  /** The iterations_started and iterations_completed metrics, and (history) how many iterations
      were in flight or queued when the second was read. */
  datatype Report = Report(started: nat, completed: nat, unfinished: nat)

  const UNREPORTED := Report(0, 0, 0)

  datatype Event =
    | TimeUp | Offer | CountStarted | CountDropped | SeeDisconnect | ClearRunning | CloseChannel | LoadStarted | LoadCompleted | RequestStop
    | SetUp(w: nat) | FailSetUp(w: nat) | CheckFlags(w: nat) | Receive(w: nat) | TimeOut(w: nat)
    | SeeClosed(w: nat) | Complete(w: nat)

  ghost predicate Init(c: Config, s: State) {
    && s == State(AtHead, 0, 0, 0, 0, [], true, false, true, s.workers, UNREPORTED, [])
    && |s.workers| == c.workers
    && forall w :: 0 <= w < |s.workers| ==> s.workers[w] == Starting
  }

  predicate AllExited(s: State) {
    forall w :: 0 <= w < |s.workers| ==> s.workers[w] == Exited
  }

  /** After one attempt the dispatcher sleeps and goes on, or leaves at the iteration limit. */
  function AfterAttempt(c: Config, counter: nat): Dispatcher {
    if c.limit.Some? && counter >= c.limit.value then Closing else AtHead
  }

  predicate Enabled(c: Config, s: State, e: Event) {
    match e
    case TimeUp => s.dispatcher == AtHead
    case Offer => s.dispatcher == AtHead && s.running && !AllExited(s)
    case CountStarted => s.dispatcher == Accepted
    case CountDropped => s.dispatcher == Refused
    case SeeDisconnect => s.dispatcher == AtHead && AllExited(s)
    case ClearRunning => s.dispatcher == Closing && s.running
    case CloseChannel => s.dispatcher == Closing && !s.running
    case LoadStarted => s.dispatcher == ReportStarted
    case LoadCompleted => s.dispatcher == ReportCompleted
    case RequestStop => true
    case SetUp(w) => w < |s.workers| && s.workers[w] == Starting
    case FailSetUp(w) => w < |s.workers| && s.workers[w] == Starting
    case CheckFlags(w) => w < |s.workers| && s.workers[w] == AtTop
    case Receive(w) => w < |s.workers| && s.workers[w] == Waiting && s.queue != []
    case TimeOut(w) => w < |s.workers| && s.workers[w] == Waiting
    case SeeClosed(w) => w < |s.workers| && s.workers[w] == Waiting && s.queue == [] && !s.channelOpen
    case Complete(w) => w < |s.workers| && s.workers[w].Busy?
  }

  function Apply(c: Config, s: State, e: Event): State
    requires Enabled(c, s, e)
  {
    match e
    // the scenario's time is over, or the stop flag was seen
    case TimeUp => s.(dispatcher := Closing)
    case Offer =>
      if |s.queue| < c.Capacity() then s.(dispatcher := Accepted, queue := s.queue + [s.counter])
      else s.(dispatcher := Refused)
    case CountStarted =>
      s.(dispatcher := AfterAttempt(c, s.counter + 1), started := s.started + 1, counter := s.counter + 1)
    case CountDropped =>
      s.(dispatcher := AfterAttempt(c, s.counter + 1), dropped := s.dropped + 1, counter := s.counter + 1)
    // every receiver is gone: the send fails and the loop is left without an attempt
    case SeeDisconnect => s.(dispatcher := Closing)
    case ClearRunning => s.(running := false)
    case CloseChannel => s.(channelOpen := false, dispatcher := ReportStarted)
    // the counters are read and sent at once; the workers are joined only afterwards
    case LoadStarted => s.(dispatcher := ReportCompleted, reported := s.reported.(started := s.started))
    case LoadCompleted =>
      s.(dispatcher := Done,
         reported := s.reported.(completed := s.completed, unfinished := InFlight(s.workers) + |s.queue|))
    case RequestStop => s.(stopRequested := true)
    case SetUp(w) => s.(workers := s.workers[w := AtTop])
    case FailSetUp(w) => s.(workers := s.workers[w := Exited])
    case CheckFlags(w) => s.(workers := s.workers[w := if s.running && !s.stopRequested then Waiting else Exited])
    case Receive(w) =>
      s.(workers := s.workers[w := Busy(s.queue[0])], queue := s.queue[1..], handedOut := s.handedOut + [s.queue[0]])
    case TimeOut(w) => s.(workers := s.workers[w := AtTop])
    case SeeClosed(w) => s.(workers := s.workers[w := Exited])
    case Complete(w) => s.(workers := s.workers[w := AtTop], completed := s.completed + 1)
  }

  ghost predicate Next(c: Config, s: State, t: State) {
    exists e :: Enabled(c, s, e) && t == Apply(c, s, e)
  }

  ghost predicate IsRun(c: Config, run: seq<State>) {
    && run != []
    && Init(c, run[0])
    && forall i, j :: 0 <= i < |run| && j == i + 1 && j < |run| ==> Next(c, run[i], run[j])
  }

  // ---------------------------------------------------------------- the invariant

  function InFlight(ws: seq<Worker>): nat {
    if ws == [] then 0 else (if ws[0].Busy? then 1 else 0) + InFlight(ws[1..])
  }

  /** An accepted send that has not been counted yet. */
  function Uncounted(s: State): nat {
    if s.dispatcher == Accepted then 1 else 0
  }

  /** Numbers already used: the pending attempt's number is used but not yet counted. */
  function Used(s: State): nat {
    s.counter + if s.dispatcher == Accepted || s.dispatcher == Refused then 1 else 0
  }

  predicate Dispatching(s: State) {
    s.dispatcher.AtHead? || s.dispatcher.Accepted? || s.dispatcher.Refused?
  }

  /** The started counter stands still from the end of dispatching on. */
  predicate ReportOk(c: Config, s: State) {
    && (s.dispatcher == ReportCompleted || s.dispatcher == Done ==> s.reported.started == s.started)
    && (s.dispatcher == Done ==>
          && s.reported.started == s.reported.completed + s.reported.unfinished
          && s.reported.unfinished <= 3 * c.workers
          && s.reported.completed <= s.completed)
  }

  predicate Increasing(xs: seq<nat>, bound: nat) {
    && (forall i, j :: 0 <= i < j < |xs| ==> xs[i] < xs[j])
    && (forall i :: 0 <= i < |xs| ==> xs[i] < bound)
  }

  ghost predicate Inv(c: Config, s: State) {
    && |s.workers| == c.workers
    // conservation
    && s.started + s.dropped == s.counter
    && s.started + Uncounted(s) == s.completed + InFlight(s.workers) + |s.queue|
    && |s.handedOut| == s.completed + InFlight(s.workers)
    // bounds
    && |s.queue| <= c.Capacity()
    && (c.limit.Some? ==> s.counter <= Max(1, c.limit.value))
    && (c.limit.Some? && Dispatching(s) ==> s.counter < Max(1, c.limit.value))
    // each number goes out once, in order
    && Increasing(s.handedOut + s.queue, Used(s))
    // shutting down
    && (Dispatching(s) ==> s.running && s.channelOpen)
    && (s.channelOpen <==> Dispatching(s) || s.dispatcher == Closing)
    && (!s.channelOpen ==> !s.running)
    && ReportOk(c, s)
  }

  function Max(a: nat, b: nat): nat {
    if a >= b then a else b
  }

  lemma {:induction false} InFlightBound(ws: seq<Worker>)
    ensures InFlight(ws) <= |ws|
    decreases |ws|
  {
    if ws != [] {
      InFlightBound(ws[1..]);
    }
  }

  lemma {:induction false} InFlightUpdate(ws: seq<Worker>, w: nat, worker: Worker)
    requires w < |ws|
    ensures InFlight(ws[w := worker]) == InFlight(ws) - (if ws[w].Busy? then 1 else 0) + (if worker.Busy? then 1 else 0)
    decreases |ws|
  {
    if w > 0 {
      assert ws[w := worker][1..] == ws[1..][w - 1 := worker];
      InFlightUpdate(ws[1..], w - 1, worker);
    } else {
      assert ws[w := worker][1..] == ws[1..];
    }
  }

  lemma {:induction false} NobodyInFlight(ws: seq<Worker>)
    requires forall w :: 0 <= w < |ws| ==> !ws[w].Busy?
    ensures InFlight(ws) == 0
    decreases |ws|
  {
    if ws != [] {
      NobodyInFlight(ws[1..]);
    }
  }

  lemma InitInv(c: Config, s: State)
    requires Init(c, s)
    ensures Inv(c, s)
  {
    NobodyInFlight(s.workers);
  }

  lemma LeaveOrEnterInv(c: Config, s: State, e: Event, w: nat)
    requires Inv(c, s) && Enabled(c, s, e) && (e == SetUp(w) || e == FailSetUp(w) || e == SeeClosed(w))
    ensures Inv(c, Apply(c, s, e))
  {
    InFlightUpdate(s.workers, w, Apply(c, s, e).workers[w]);
  }

  lemma LoopTurnInv(c: Config, s: State, e: Event, w: nat)
    requires Inv(c, s) && Enabled(c, s, e) && (e == CheckFlags(w) || e == TimeOut(w) || e == Complete(w))
    ensures Inv(c, Apply(c, s, e))
  {
    InFlightUpdate(s.workers, w, Apply(c, s, e).workers[w]);
  }

  lemma ReceiveInv(c: Config, s: State, w: nat)
    requires Inv(c, s) && Enabled(c, s, Receive(w))
    ensures Inv(c, Apply(c, s, Receive(w)))
  {
    var t := Apply(c, s, Receive(w));
    InFlightUpdate(s.workers, w, t.workers[w]);
    assert t.handedOut + t.queue == s.handedOut + s.queue;
  }

  lemma OfferInv(c: Config, s: State)
    requires Inv(c, s) && Enabled(c, s, Offer)
    ensures Inv(c, Apply(c, s, Offer))
  {
    var t := Apply(c, s, Offer);
    if t.dispatcher == Accepted {
      assert t.handedOut + t.queue == (s.handedOut + s.queue) + [s.counter];
    }
  }

  lemma QuietInv(c: Config, s: State, e: Event)
    requires Inv(c, s) && Enabled(c, s, e)
    requires e.TimeUp? || e.CountStarted? || e.CountDropped? || e.SeeDisconnect? || e.ClearRunning? || e.CloseChannel? || e.RequestStop?
    ensures Inv(c, Apply(c, s, e))
  {
    hide InFlight;
  }

  lemma ReportInv(c: Config, s: State, e: Event)
    requires Inv(c, s) && Enabled(c, s, e) && (e.LoadStarted? || e.LoadCompleted?)
    ensures Inv(c, Apply(c, s, e))
  {
    InFlightBound(s.workers);
  }

  lemma StepInv(c: Config, s: State, e: Event)
    requires Inv(c, s) && Enabled(c, s, e)
    ensures Inv(c, Apply(c, s, e))
  {
    hide *;
    match e {
      case Offer => OfferInv(c, s);
      case Receive(w) => ReceiveInv(c, s, w);
      case LoadStarted => ReportInv(c, s, e);
      case LoadCompleted => ReportInv(c, s, e);
      case SetUp(w) => LeaveOrEnterInv(c, s, e, w);
      case FailSetUp(w) => LeaveOrEnterInv(c, s, e, w);
      case CheckFlags(w) => LoopTurnInv(c, s, e, w);
      case TimeOut(w) => LoopTurnInv(c, s, e, w);
      case SeeClosed(w) => LeaveOrEnterInv(c, s, e, w);
      case Complete(w) => LoopTurnInv(c, s, e, w);
      case _ => QuietInv(c, s, e);
    }
  }

  lemma {:induction false} RunInv(c: Config, run: seq<State>, i: nat)
    requires IsRun(c, run) && i < |run|
    ensures Inv(c, run[i])
    decreases i
  {
    if i == 0 {
      InitInv(c, run[0]);
    } else {
      RunInv(c, run, i - 1);
      assert Next(c, run[i - 1], run[i]);
      var e :| Enabled(c, run[i - 1], e) && run[i] == Apply(c, run[i - 1], e);
      StepInv(c, run[i - 1], e);
    }
  }

  // ---------------------------------------------------------------- what every run keeps

  /** In every reachable state: attempts are started or dropped; accepted iterations are
      completed, in flight or queued; so started minus completed never exceeds 3W. */
  lemma Conservation(c: Config, run: seq<State>, i: nat)
    requires IsRun(c, run) && i < |run|
    ensures run[i].started + run[i].dropped == run[i].counter
    ensures run[i].started + Uncounted(run[i]) == run[i].completed + InFlight(run[i].workers) + |run[i].queue|
    ensures |run[i].queue| <= 2 * c.workers && InFlight(run[i].workers) <= c.workers
    ensures run[i].started - run[i].completed <= 3 * c.workers
  {
    RunInv(c, run, i);
    InFlightBound(run[i].workers);
  }

  /** An iteration limit bounds the attempts, but a limit of 0 still lets one through. */
  lemma AttemptLimit(c: Config, run: seq<State>, i: nat)
    requires IsRun(c, run) && i < |run| && c.limit.Some?
    ensures run[i].counter <= Max(1, c.limit.value)
  {
    RunInv(c, run, i);
  }

  /** Workers receive iteration numbers once each and in increasing order, oldest first. */
  lemma NumbersHandedOutOnce(c: Config, run: seq<State>, i: nat)
    requires IsRun(c, run) && i < |run|
    ensures Increasing(run[i].handedOut + run[i].queue, Used(run[i]))
    ensures |run[i].handedOut| == run[i].completed + InFlight(run[i].workers)
  {
    RunInv(c, run, i);
  }

  /** The two metrics sent at the end differ by exactly what was in flight or queued when the
      second was read, at most 3W. When everybody has left, what was reported as started and has
      not completed is exactly what still sits in the queue. */
  lemma ReportedGap(c: Config, run: seq<State>, i: nat)
    requires IsRun(c, run) && i < |run| && run[i].dispatcher == Done
    ensures run[i].reported.started == run[i].reported.completed + run[i].reported.unfinished
    ensures run[i].reported.unfinished <= 3 * c.workers
    ensures run[i].reported.completed <= run[i].completed
    ensures AllExited(run[i]) ==> run[i].reported.started == run[i].completed + |run[i].queue|
  {
    RunInv(c, run, i);
    if AllExited(run[i]) {
      NobodyInFlight(run[i].workers);
    }
  }

  /** `unfinished` is what was in flight or queued at the moment the completed counter was read. */
  lemma ReportIsOfItsMoment(c: Config, run: seq<State>, j: nat)
    requires IsRun(c, run) && 0 < j < |run| && run[j - 1].dispatcher == ReportCompleted && run[j].dispatcher == Done
    ensures run[j].reported.unfinished == InFlight(run[j - 1].workers) + |run[j - 1].queue|
    ensures run[j].reported.completed == run[j - 1].completed && run[j].reported.started == run[j - 1].started
  {
    var e := RunStep(c, run, j);
    RunInv(c, run, j - 1);
  }

  // ---------------------------------------------------------------- history along a run

  lemma RunStep(c: Config, run: seq<State>, j: nat) returns (e: Event)
    requires IsRun(c, run) && 0 < j < |run|
    ensures Inv(c, run[j - 1]) && Enabled(c, run[j - 1], e) && run[j] == Apply(c, run[j - 1], e)
  {
    RunInv(c, run, j - 1);
    assert Next(c, run[j - 1], run[j]);
    e :| Enabled(c, run[j - 1], e) && run[j] == Apply(c, run[j - 1], e);
  }

  /** `t` may follow `s`: no counter falls, and the numbers handed out are only added to. */
  predicate Extends(s: State, t: State) {
    s.handedOut <= t.handedOut && s.started <= t.started && s.completed <= t.completed && s.dropped <= t.dropped
  }

  lemma StepExtends(c: Config, s: State, e: Event)
    requires Enabled(c, s, e)
    ensures Extends(s, Apply(c, s, e))
  {
  }

  lemma RunExtends(c: Config, run: seq<State>, j: nat)
    requires IsRun(c, run) && 0 < j < |run|
    ensures Extends(run[j - 1], run[j])
  {
    var e := RunStep(c, run, j);
    StepExtends(c, run[j - 1], e);
  }

  lemma ExtendsTransitive(s: State, t: State, u: State)
    requires Extends(s, t) && Extends(t, u)
    ensures Extends(s, u)
  {
  }

  lemma {:induction false} ExtendsChain(states: seq<State>, i: nat, j: nat)
    requires i <= j < |states|
    requires forall k, l :: 0 <= k < |states| && l == k + 1 && l < |states| ==> Extends(states[k], states[l])
    ensures Extends(states[i], states[j])
    decreases j
  {
    if i < j {
      ExtendsChain(states, i, j - 1);
      ExtendsTransitive(states[i], states[j - 1], states[j]);
    }
  }

  lemma HistoryGrows(c: Config, run: seq<State>, i: nat, j: nat)
    requires IsRun(c, run) && i <= j < |run|
    ensures Extends(run[i], run[j])
  {
    forall k, l | 0 <= k < |run| && l == k + 1 && l < |run| ensures Extends(run[k], run[l]) {
      RunExtends(c, run, l);
    }
    ExtendsChain(run, i, j);
  }

  // ---------------------------------------------------------------- step by step

  lemma WorkerStep(c: Config, s: State, e: Event, w: nat)
    requires Inv(c, s) && Enabled(c, s, e) && w < |s.workers|
    ensures var t := Apply(c, s, e);
            |t.workers| == |s.workers| &&
            (t.workers[w] != s.workers[w] ==>
               match s.workers[w]
               case Starting => t.workers[w] == AtTop || t.workers[w] == Exited
               case AtTop => t.workers[w] == if s.running && !s.stopRequested then Waiting else Exited
               case Waiting =>
                 || t.workers[w] == AtTop
                 || (s.queue != [] && t.workers[w] == Busy(s.queue[0]) && t.queue == s.queue[1..])
                 || (s.queue == [] && !s.channelOpen && t.workers[w] == Exited)
               case Busy(_) => t.workers[w] == AtTop && t.completed == s.completed + 1
               case Exited => false)
  {
    hide Inv;
  }

  /** What a worker does next, in every run: it leaves when it finds the run flag cleared or a stop
      requested at its loop head, and only then, or when its start-up fails, or when the channel is
      closed and empty; it takes the oldest iteration and completes the one it has taken. */
  lemma WorkerMoves(c: Config, run: seq<State>, j: nat, w: nat)
    requires IsRun(c, run) && 0 < j < |run| && w < c.workers
    ensures var s, t := run[j - 1], run[j];
            |t.workers| == |s.workers| == c.workers &&
            (t.workers[w] != s.workers[w] ==>
               match s.workers[w]
               case Starting => t.workers[w] == AtTop || t.workers[w] == Exited
               case AtTop => t.workers[w] == if s.running && !s.stopRequested then Waiting else Exited
               case Waiting =>
                 || t.workers[w] == AtTop
                 || (s.queue != [] && t.workers[w] == Busy(s.queue[0]) && t.queue == s.queue[1..])
                 || (s.queue == [] && !s.channelOpen && t.workers[w] == Exited)
               case Busy(_) => t.workers[w] == AtTop && t.completed == s.completed + 1
               case Exited => false)
  {
    hide Apply, Increasing, InFlight;
    var e := RunStep(c, run, j);
    WorkerStep(c, run[j - 1], e, w);
  }

  lemma DispatcherStep(c: Config, s: State, e: Event)
    requires Inv(c, s) && Enabled(c, s, e)
    ensures var t := Apply(c, s, e);
            t.dispatcher != s.dispatcher ==>
              match s.dispatcher
              case AtHead =>
                || (|s.queue| < 2 * c.workers && t.dispatcher == Accepted && t.queue == s.queue + [s.counter])
                || (|s.queue| == 2 * c.workers && t.dispatcher == Refused && t.queue == s.queue)
                || t.dispatcher == Closing
              case Accepted =>
                && t.counter == s.counter + 1 && t.started == s.started + 1 && t.dropped == s.dropped
                && t.dispatcher == if c.limit.Some? && t.counter >= c.limit.value then Closing else AtHead
              case Refused =>
                && t.counter == s.counter + 1 && t.started == s.started && t.dropped == s.dropped + 1
                && t.dispatcher == if c.limit.Some? && t.counter >= c.limit.value then Closing else AtHead
              case Closing => t.dispatcher == ReportStarted && !t.running && !t.channelOpen
              case ReportStarted => t.dispatcher == ReportCompleted && t.reported.started == s.started
              case ReportCompleted => t.dispatcher == Done && t.reported.completed == s.completed
              case Done => false
  {
    hide InFlight, Increasing;
  }

  /** What the dispatcher does next, in every run: an attempt is accepted exactly if the queue holds
      fewer than twice as many iterations as there are workers, and dropped only if it is full; each
      takes a number; the limit or the end of time leads to shutting down, once and in order. */
  lemma DispatcherMoves(c: Config, run: seq<State>, j: nat)
    requires IsRun(c, run) && 0 < j < |run|
    ensures var s, t := run[j - 1], run[j];
            t.dispatcher != s.dispatcher ==>
              match s.dispatcher
              case AtHead =>
                || (|s.queue| < 2 * c.workers && t.dispatcher == Accepted && t.queue == s.queue + [s.counter])
                || (|s.queue| == 2 * c.workers && t.dispatcher == Refused && t.queue == s.queue)
                || t.dispatcher == Closing
              case Accepted =>
                && t.counter == s.counter + 1 && t.started == s.started + 1 && t.dropped == s.dropped
                && t.dispatcher == if c.limit.Some? && t.counter >= c.limit.value then Closing else AtHead
              case Refused =>
                && t.counter == s.counter + 1 && t.started == s.started && t.dropped == s.dropped + 1
                && t.dispatcher == if c.limit.Some? && t.counter >= c.limit.value then Closing else AtHead
              case Closing => t.dispatcher == ReportStarted && !t.running && !t.channelOpen
              case ReportStarted => t.dispatcher == ReportCompleted && t.reported.started == s.started
              case ReportCompleted => t.dispatcher == Done && t.reported.completed == s.completed
              case Done => false
  {
    hide Apply, Inv;
    var e := RunStep(c, run, j);
    DispatcherStep(c, run[j - 1], e);
  }

  /** What ends a part of the run: a stop may be requested at any moment; the end of time, a stop seen
      and a failed send end the dispatching, a failed start-up and a closed, empty channel a worker;
      nothing else changes. */
  lemma EndsAre(c: Config, s: State, e: Event)
    requires Enabled(c, s, e)
    ensures Enabled(c, s, RequestStop) && Apply(c, s, RequestStop) == s.(stopRequested := true)
    ensures e == TimeUp || e == SeeDisconnect ==> Apply(c, s, e) == s.(dispatcher := Closing)
    ensures e.FailSetUp? || e.SeeClosed? ==> Apply(c, s, e) == s.(workers := s.workers[e.w := Exited])
    ensures e == SeeDisconnect ==> forall w :: 0 <= w < |s.workers| ==> s.workers[w] == Exited
  {
  }

  lemma NobodyLeftStep(c: Config, s: State, e: Event)
    requires Enabled(c, s, e) && AllExited(s)
    ensures var t := Apply(c, s, e); AllExited(t) && t.queue == s.queue && Used(t) == Used(s)
  {
  }

  /** Once every worker has left nothing more is attempted, however the run goes on: the numbers
      used and the queue stay as they are. */
  lemma {:induction false} NothingWithoutWorkers(c: Config, run: seq<State>, i: nat, j: nat)
    requires IsRun(c, run) && i <= j < |run| && AllExited(run[i])
    ensures AllExited(run[j]) && run[j].queue == run[i].queue && Used(run[j]) == Used(run[i])
    decreases j
  {
    hide *;
    if i < j {
      NothingWithoutWorkers(c, run, i, j - 1);
      var e := RunStep(c, run, j);
      NobodyLeftStep(c, run[j - 1], e);
    }
  }

  // ---------------------------------------------------------------- stopping

  function Waiters(ws: seq<Worker>): nat {
    if ws == [] then 0 else (if ws[0] == Waiting then 1 else 0) + Waiters(ws[1..])
  }

  lemma {:induction false} WaitersUpdate(ws: seq<Worker>, w: nat, worker: Worker)
    requires w < |ws|
    ensures Waiters(ws[w := worker]) == Waiters(ws) - (if ws[w] == Waiting then 1 else 0) + (if worker == Waiting then 1 else 0)
    ensures Waiters(ws) <= |ws|
    decreases |ws|
  {
    if w > 0 {
      assert ws[w := worker][1..] == ws[1..][w - 1 := worker];
      WaitersUpdate(ws[1..], w - 1, worker);
    } else {
      assert ws[w := worker][1..] == ws[1..];
      if |ws| > 1 {
        WaitersUpdate(ws[1..], 0, ws[1]);
      }
    }
  }

  predicate Stopping(s: State) {
    s.stopRequested || !s.running
  }

  lemma StoppingStep(c: Config, s: State, e: Event)
    requires Enabled(c, s, e) && Stopping(s)
    ensures var t := Apply(c, s, e);
            Stopping(t) && |t.handedOut| + Waiters(t.workers) <= |s.handedOut| + Waiters(s.workers)
  {
    hide InFlight;
    match e {
      case SetUp(w) => WaitersUpdate(s.workers, w, Apply(c, s, e).workers[w]);
      case FailSetUp(w) => WaitersUpdate(s.workers, w, Apply(c, s, e).workers[w]);
      case CheckFlags(w) => WaitersUpdate(s.workers, w, Apply(c, s, e).workers[w]);
      case Receive(w) => WaitersUpdate(s.workers, w, Apply(c, s, e).workers[w]);
      case TimeOut(w) => WaitersUpdate(s.workers, w, Apply(c, s, e).workers[w]);
      case SeeClosed(w) => WaitersUpdate(s.workers, w, Apply(c, s, e).workers[w]);
      case Complete(w) => WaitersUpdate(s.workers, w, Apply(c, s, e).workers[w]);
      case _ =>
    }
  }

  /** From the moment a stop is requested or the run flag cleared, however the run goes on, no
      more iterations are begun than workers were waiting on the queue at that moment. */
  lemma {:induction false} StopBound(c: Config, run: seq<State>, i: nat, j: nat)
    requires IsRun(c, run) && i <= j < |run| && (run[i].stopRequested || !run[i].running)
    ensures |run[j].handedOut| + Waiters(run[j].workers) <= |run[i].handedOut| + Waiters(run[i].workers)
    ensures Stopping(run[j])
    decreases j
  {
    hide Apply, Inv, Enabled, Waiters, IsRun;
    if i < j {
      StopBound(c, run, i, j - 1);
      var e := RunStep(c, run, j);
      StoppingStep(c, run[j - 1], e);
    }
  }

  predicate Drained(s: State, started: nat) {
    !s.channelOpen && s.queue == [] && s.started == started
  }

  lemma DrainedStep(c: Config, s: State, e: Event, started: nat)
    requires Inv(c, s) && Enabled(c, s, e) && Drained(s, started)
    ensures Drained(Apply(c, s, e), started)
  {
  }

  lemma {:induction false} DrainedForGood(c: Config, run: seq<State>, i: nat, j: nat)
    requires IsRun(c, run) && i <= j < |run| && Drained(run[i], run[i].started)
    ensures Drained(run[j], run[i].started)
    decreases j
  {
    if i < j {
      DrainedForGood(c, run, i, j - 1);
      var e := RunStep(c, run, j);
      DrainedStep(c, run[j - 1], e, run[i].started);
    }
  }

  /** A worker that leaves because the channel is closed leaves an empty queue for good, so
      nothing that was accepted is lost: all of it ends up completed or in flight. */
  lemma NothingLostAfterDrain(c: Config, run: seq<State>, i: nat, j: nat)
    requires IsRun(c, run) && i <= j < |run| && !run[i].channelOpen && run[i].queue == []
    ensures run[i].started == run[j].started == run[j].completed + InFlight(run[j].workers)
  {
    DrainedForGood(c, run, i, j);
    RunInv(c, run, j);
  }

  // ---------------------------------------------------------------- the bounds are reached

  lemma Extend(c: Config, run: seq<State>, e: Event) returns (longer: seq<State>)
    requires IsRun(c, run) && Enabled(c, run[|run| - 1], e)
    ensures IsRun(c, longer) && longer[|longer| - 1] == Apply(c, run[|run| - 1], e)
  {
    var s, t := run[|run| - 1], Apply(c, run[|run| - 1], e);
    longer := run + [t];
    assert Next(c, s, t);
  }

  /** The most attempts a limit lets through, out of `n`. */
  function Allowed(c: Config, n: nat): nat {
    if c.limit.Some? && Max(1, c.limit.value) < n then Max(1, c.limit.value) else n
  }

  /** After `k` accepted attempts, of which the first `busy` are being run. */
  predicate Filled(c: Config, s: State, k: nat, busy: nat) {
    && |s.workers| == c.workers && busy <= c.workers
    && (forall w :: 0 <= w < c.workers ==> if w < busy then s.workers[w].Busy? else s.workers[w] == Starting)
    && s.running && !s.stopRequested && s.channelOpen
    && s.counter == s.started == k && s.completed == s.dropped == 0 && |s.queue| == k - busy
    && s.dispatcher == if k == 0 then AtHead else AfterAttempt(c, k)
  }

  lemma Start(c: Config) returns (run: seq<State>)
    ensures IsRun(c, run) && Filled(c, run[|run| - 1], 0, 0)
  {
    run := [State(AtHead, 0, 0, 0, 0, [], true, false, true, seq(c.workers, _ => Starting), UNREPORTED, [])];
  }

  lemma Attempt(c: Config, run: seq<State>, k: nat, busy: nat) returns (longer: seq<State>)
    requires IsRun(c, run) && Filled(c, run[|run| - 1], k, busy)
    requires c.workers > 0 && k < Allowed(c, k + 1) && k - busy < c.Capacity()
    ensures IsRun(c, longer) && Filled(c, longer[|longer| - 1], k + 1, busy)
  {
    var s := run[|run| - 1];
    assert s.workers[0] != Exited;
    longer := Extend(c, run, Offer);
    longer := Extend(c, longer, CountStarted);
  }

  /** `n` accepted attempts, as many of them as there are workers for being run. */
  lemma {:induction false} FillUp(c: Config, n: nat) returns (run: seq<State>)
    requires c.workers > 0 && n <= Allowed(c, 3 * c.workers)
    ensures IsRun(c, run) && Filled(c, run[|run| - 1], n, if n < c.workers then n else c.workers)
    decreases n
  {
    if n == 0 {
      run := Start(c);
    } else {
      var busy := if n - 1 < c.workers then n - 1 else c.workers;
      run := FillUp(c, n - 1);
      run := Attempt(c, run, n - 1, busy);
      if busy < c.workers {
        run := Extend(c, run, SetUp(busy));
        run := Extend(c, run, CheckFlags(busy));
        run := Extend(c, run, Receive(busy));
      }
    }
  }

  /** The gap between started and completed reaches 3W, or the limit if that is less: for every
      pool and limit the bound cannot be lowered. */
  lemma GapIsReached(c: Config)
    ensures exists run: seq<State> :: IsRun(c, run) && run[|run| - 1].started - run[|run| - 1].completed == Allowed(c, 3 * c.workers)
  {
    var run: seq<State>;
    if c.workers == 0 {
      run := Start(c);
    } else {
      run := FillUp(c, Allowed(c, 3 * c.workers));
    }
    assert IsRun(c, run) && run[|run| - 1].started - run[|run| - 1].completed == Allowed(c, 3 * c.workers);
  }

  lemma GapIsBounded(c: Config, run: seq<State>, i: nat)
    requires IsRun(c, run) && i < |run|
    ensures run[i].started - run[i].completed <= Allowed(c, 3 * c.workers)
  {
    Conservation(c, run, i);
    RunInv(c, run, i);
  }

  // ---------------------------------------------------------------- stopping abandons the queue

  /** `n` attempts queued while every worker is still starting. */
  lemma {:induction false} QueueUp(c: Config, n: nat) returns (run: seq<State>)
    requires c.workers > 0 && n <= Allowed(c, 2 * c.workers)
    ensures IsRun(c, run) && Filled(c, run[|run| - 1], n, 0)
    decreases n
  {
    if n == 0 {
      run := Start(c);
    } else {
      run := QueueUp(c, n - 1);
      run := Attempt(c, run, n - 1, 0);
    }
  }

  predicate ShutDown(s: State, k: nat, left: nat) {
    && s.dispatcher == Done && !s.running && s.started == s.reported.started == k && s.completed == s.reported.completed == 0
    && |s.queue| == k && left <= |s.workers|
    && forall w :: 0 <= w < |s.workers| ==> s.workers[w] == if w < left then Exited else Starting
  }

  /** Closing down before any worker looks at the queue. */
  lemma CloseDown(c: Config, run: seq<State>, k: nat) returns (longer: seq<State>)
    requires IsRun(c, run) && Filled(c, run[|run| - 1], k, 0)
    ensures IsRun(c, longer) && ShutDown(longer[|longer| - 1], k, 0) && |longer[|longer| - 1].workers| == c.workers
  {
    longer := run;
    if longer[|longer| - 1].dispatcher == AtHead {
      longer := Extend(c, longer, TimeUp);
    }
    longer := Extend(c, longer, ClearRunning);
    longer := Extend(c, longer, CloseChannel);
    longer := Extend(c, longer, LoadStarted);
    longer := Extend(c, longer, LoadCompleted);
  }

  lemma {:induction false} LeaveOneByOne(c: Config, run: seq<State>, k: nat, left: nat) returns (longer: seq<State>)
    requires IsRun(c, run) && ShutDown(run[|run| - 1], k, 0) && left <= |run[|run| - 1].workers| == c.workers
    ensures IsRun(c, longer) && ShutDown(longer[|longer| - 1], k, left) && |longer[|longer| - 1].workers| == c.workers
    decreases left
  {
    if left == 0 {
      longer := run;
    } else {
      longer := LeaveOneByOne(c, run, k, left - 1);
      longer := Extend(c, longer, SetUp(left - 1));
      longer := Extend(c, longer, CheckFlags(left - 1));
    }
  }

  /** The end of a run: reported, and nobody left. */
  predicate Over(s: State) {
    s.dispatcher == Done && AllExited(s)
  }

  /** A full queue can be abandoned: 2W iterations reported as started, or as many as the limit
      lets through, never run. */
  lemma QueueCanBeAbandoned(c: Config) returns (run: seq<State>)
    ensures IsRun(c, run) && Over(run[|run| - 1])
    ensures run[|run| - 1].reported.started - run[|run| - 1].completed == Allowed(c, 2 * c.workers)
  {
    if c.workers == 0 {
      run := Start(c);
    } else {
      run := QueueUp(c, Allowed(c, 2 * c.workers));
    }
    run := CloseDown(c, run, Allowed(c, 2 * c.workers));
    run := LeaveOneByOne(c, run, Allowed(c, 2 * c.workers), c.workers);
  }

  /** No run abandons more. */
  lemma AbandonedBound(c: Config, run: seq<State>, i: nat)
    requires IsRun(c, run) && i < |run| && Over(run[i])
    ensures 0 <= run[i].reported.started - run[i].completed <= Allowed(c, 2 * c.workers)
  {
    ReportedGap(c, run, i);
    RunInv(c, run, i);
  }

  ghost predicate CanAbandon(c: Config) {
    exists run: seq<State> :: IsRun(c, run) && Over(run[|run| - 1]) && run[|run| - 1].reported.started > run[|run| - 1].completed
  }

  /** Without workers nothing is attempted. */
  lemma {:induction false} NoWorkersNoAttempts(c: Config, run: seq<State>, i: nat)
    requires IsRun(c, run) && i < |run| && c.workers == 0
    ensures run[i].counter == run[i].started == run[i].completed == 0 && run[i].queue == []
    ensures run[i].dispatcher != Accepted && run[i].dispatcher != Refused
    decreases i
  {
    if i > 0 {
      NoWorkersNoAttempts(c, run, i - 1);
      var e := RunStep(c, run, i);
    }
  }

  /** Some run leaves iterations that were reported as started undone exactly when there are
      workers; without them nothing is attempted. */
  lemma AbandonsIff(c: Config)
    ensures CanAbandon(c) <==> c.workers > 0
  {
    if c.workers > 0 {
      var run := QueueCanBeAbandoned(c);
      assert IsRun(c, run) && Over(run[|run| - 1]) && run[|run| - 1].reported.started > run[|run| - 1].completed;
    }
    if CanAbandon(c) {
      var run: seq<State> :| IsRun(c, run) && Over(run[|run| - 1]) && run[|run| - 1].reported.started > run[|run| - 1].completed;
      AbandonedBound(c, run, |run| - 1);
    }
  }
}
