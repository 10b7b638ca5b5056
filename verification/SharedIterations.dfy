/** The shared-iterations executor (src/engine/mod.rs): workers run the script and then claim a
    number from one shared counter, leaving when the number is beyond the pool. Every
    interleaving is a run of the step relation below. */
module SharedIterations {

  datatype Config = Config(workers: nat, total: nat)

  /** Building the runtime; at the loop head; past the flag checks; in the script; about to
      claim; gone after claiming a number past the pool; gone for another reason. */
  datatype Worker = Starting | AtTop | Ready | InCall | Claiming | LeftByClaim(number: nat) | LeftEarly

  datatype Main = Waiting | PoolUsedUp | TimeUp

  datatype Claim = Claim(worker: nat, number: nat)

  datatype State = State(
    counter: nat,
    workers: seq<Worker>,
    flags: seq<bool>,        // one stop flag a worker
    stopRequested: bool,
    main: Main,
    started: nat,            // history: calls begun
    finished: nat,           // history: calls returned
    claims: seq<Claim>)      // history: numbers claimed, in order

  datatype Event =
    | SetUp(w: nat) | FailSetUp(w: nat) | CheckFlags(w: nat) | Begin(w: nat) | Return(w: nat) | TakeNumber(w: nat)
    | RequestStop | SeePoolUsedUp | SeeTimeUp | ClearFlag(w: nat)

  ghost predicate Init(c: Config, s: State) {
    && s == State(0, s.workers, s.flags, false, Waiting, 0, 0, [])
    && |s.workers| == |s.flags| == c.workers
    && (forall w :: 0 <= w < c.workers ==> s.workers[w] == Starting && s.flags[w])
  }

  predicate Enabled(c: Config, s: State, e: Event) {
    match e
    case SetUp(w) => w < |s.workers| && s.workers[w] == Starting
    case FailSetUp(w) => w < |s.workers| && s.workers[w] == Starting
    case CheckFlags(w) => w < |s.workers| && w < |s.flags| && s.workers[w] == AtTop
    case Begin(w) => w < |s.workers| && s.workers[w] == Ready
    case Return(w) => w < |s.workers| && s.workers[w] == InCall
    case TakeNumber(w) => w < |s.workers| && s.workers[w] == Claiming
    case RequestStop => true
    case SeePoolUsedUp => s.main == Waiting && s.counter >= c.total
    case SeeTimeUp => s.main == Waiting
    case ClearFlag(w) => s.main != Waiting && w < |s.flags|
  }

  function Apply(c: Config, s: State, e: Event): State
    requires Enabled(c, s, e)
  {
    match e
    case SetUp(w) => s.(workers := s.workers[w := AtTop])
    case FailSetUp(w) => s.(workers := s.workers[w := LeftEarly])
    case CheckFlags(w) => s.(workers := s.workers[w := if s.flags[w] && !s.stopRequested then Ready else LeftEarly])
    case Begin(w) => s.(workers := s.workers[w := InCall], started := s.started + 1)
    case Return(w) => s.(workers := s.workers[w := Claiming], finished := s.finished + 1)
    case TakeNumber(w) =>
      s.(workers := s.workers[w := if s.counter >= c.total then LeftByClaim(s.counter) else AtTop],
         counter := s.counter + 1,
         claims := s.claims + [Claim(w, s.counter)])
    case RequestStop => s.(stopRequested := true)
    case SeePoolUsedUp => s.(main := PoolUsedUp)
    case SeeTimeUp => s.(main := TimeUp)
    case ClearFlag(w) => s.(flags := s.flags[w := false])
  }

  ghost predicate Next(c: Config, s: State, t: State) {
    exists e :: Enabled(c, s, e) && t == Apply(c, s, e)
  }

  ghost predicate IsRun(c: Config, run: seq<State>) {
    && run != []
    && Init(c, run[0])
    && forall i, j :: 0 <= i < |run| && j == i + 1 && j < |run| ==> Next(c, run[i], run[j])
  }

  // ---------------------------------------------------------------- the invariant

  datatype Tally = Tally(calling: nat, claiming: nat, left: nat)

  function One(w: Worker): Tally {
    Tally(if w.InCall? then 1 else 0, if w.Claiming? then 1 else 0, if w.LeftByClaim? then 1 else 0)
  }

  /** How many workers are in the script, about to claim, and gone after a claim. */
  function Count(ws: seq<Worker>): Tally {
    if ws == [] then Tally(0, 0, 0)
    else
      var a, b := One(ws[0]), Count(ws[1..]);
      Tally(a.calling + b.calling, a.claiming + b.claiming, a.left + b.left)
  }

  lemma {:induction false} CountUpdate(ws: seq<Worker>, w: nat, worker: Worker)
    requires w < |ws|
    ensures var a, b, was, now := Count(ws), Count(ws[w := worker]), One(ws[w]), One(worker);
            && b.calling == a.calling - was.calling + now.calling
            && b.claiming == a.claiming - was.claiming + now.claiming
            && b.left == a.left - was.left + now.left
    decreases |ws|
  {
    if w > 0 {
      assert ws[w := worker][1..] == ws[1..][w - 1 := worker];
      CountUpdate(ws[1..], w - 1, worker);
    } else {
      assert ws[w := worker][1..] == ws[1..];
    }
  }

  lemma {:induction false} CountBound(ws: seq<Worker>)
    ensures Count(ws).calling + Count(ws).claiming + Count(ws).left <= |ws|
    ensures (forall w :: 0 <= w < |ws| ==> ws[w].LeftByClaim?) ==> Count(ws) == Tally(0, 0, |ws|)
    ensures (forall w :: 0 <= w < |ws| ==> ws[w] == Starting) ==> Count(ws) == Tally(0, 0, 0)
    decreases |ws|
  {
    if ws != [] {
      CountBound(ws[1..]);
    }
  }

  function Excess(counter: nat, total: nat): nat {
    if counter >= total then counter - total else 0
  }

  ghost predicate Inv(c: Config, s: State) {
    && |s.workers| == |s.flags| == c.workers
    && s.finished == s.counter + Count(s.workers).claiming
    && s.started == s.finished + Count(s.workers).calling
    && Count(s.workers).left == Excess(s.counter, c.total)
    && |s.claims| == s.counter
    && (forall i :: 0 <= i < |s.claims| ==> s.claims[i].number == i)
    && (forall w :: 0 <= w < c.workers && s.workers[w].LeftByClaim? ==> c.total <= s.workers[w].number < s.counter)
    && (s.main == PoolUsedUp ==> s.counter >= c.total)
    && (s.main == Waiting ==> forall w :: 0 <= w < c.workers ==> s.flags[w])
  }

  lemma LoopHeadInv(c: Config, s: State, e: Event, w: nat)
    requires Inv(c, s) && Enabled(c, s, e) && (e == SetUp(w) || e == FailSetUp(w) || e == CheckFlags(w))
    ensures Inv(c, Apply(c, s, e))
  {
    CountUpdate(s.workers, w, Apply(c, s, e).workers[w]);
  }

  lemma CallInv(c: Config, s: State, e: Event, w: nat)
    requires Inv(c, s) && Enabled(c, s, e) && (e == Begin(w) || e == Return(w) || e == TakeNumber(w))
    ensures Inv(c, Apply(c, s, e))
  {
    CountUpdate(s.workers, w, Apply(c, s, e).workers[w]);
  }

  lemma StepInv(c: Config, s: State, e: Event)
    requires Inv(c, s) && Enabled(c, s, e)
    ensures Inv(c, Apply(c, s, e))
  {
    match e {
      case SetUp(w) => LoopHeadInv(c, s, e, w);
      case FailSetUp(w) => LoopHeadInv(c, s, e, w);
      case CheckFlags(w) => LoopHeadInv(c, s, e, w);
      case Begin(w) => CallInv(c, s, e, w);
      case Return(w) => CallInv(c, s, e, w);
      case TakeNumber(w) => CallInv(c, s, e, w);
      case _ =>
    }
  }

  lemma {:induction false} RunInv(c: Config, run: seq<State>, i: nat)
    requires IsRun(c, run) && i < |run|
    ensures Inv(c, run[i])
    decreases i
  {
    if i == 0 {
      CountBound(run[0].workers);
    } else {
      RunInv(c, run, i - 1);
      assert Next(c, run[i - 1], run[i]);
      var e :| Enabled(c, run[i - 1], e) && run[i] == Apply(c, run[i - 1], e);
      StepInv(c, run[i - 1], e);
    }
  }

  // ---------------------------------------------------------------- what every run keeps

  /** Claimed numbers are 0, 1, 2, ... without repetition, and a number past the pool is exactly
      what makes a worker leave through a claim. */
  lemma ClaimsAreDistinct(c: Config, run: seq<State>, i: nat)
    requires IsRun(c, run) && i < |run|
    ensures |run[i].claims| == run[i].counter
    ensures forall k :: 0 <= k < |run[i].claims| ==> run[i].claims[k].number == k
    ensures Count(run[i].workers).left == Excess(run[i].counter, c.total)
  {
    RunInv(c, run, i);
  }

  /** The script never starts more than `total` plus one time a worker. */
  lemma StartedBound(c: Config, run: seq<State>, i: nat)
    requires IsRun(c, run) && i < |run|
    ensures run[i].started <= c.total + c.workers
  {
    RunInv(c, run, i);
    CountBound(run[i].workers);
  }

  /** If the scenario stops waiting because the pool is used up, the whole pool has been run. */
  lemma UsedUpMeansRun(c: Config, run: seq<State>, i: nat)
    requires IsRun(c, run) && i < |run| && run[i].main == PoolUsedUp
    ensures run[i].finished >= c.total
  {
    RunInv(c, run, i);
  }

  /** Claiming after the call costs one extra call a worker: when everybody leaves through a
      claim, exactly `total + workers` calls have been made. */
  lemma ExactWhenAllLeaveByClaim(c: Config, run: seq<State>, i: nat)
    requires IsRun(c, run) && i < |run| && c.workers > 0
    requires forall w :: 0 <= w < |run[i].workers| ==> run[i].workers[w].LeftByClaim?
    ensures run[i].started == run[i].finished == c.total + c.workers
  {
    RunInv(c, run, i);
    CountBound(run[i].workers);
  }

  // ---------------------------------------------------------------- step by step

  lemma RunStep(c: Config, run: seq<State>, j: nat) returns (e: Event)
    requires IsRun(c, run) && 0 < j < |run|
    ensures Inv(c, run[j - 1]) && Enabled(c, run[j - 1], e) && run[j] == Apply(c, run[j - 1], e)
  {
    RunInv(c, run, j - 1);
    assert Next(c, run[j - 1], run[j]);
    e :| Enabled(c, run[j - 1], e) && run[j] == Apply(c, run[j - 1], e);
  }

  lemma WorkerStep(c: Config, s: State, e: Event, w: nat)
    requires Inv(c, s) && Enabled(c, s, e) && w < c.workers
    ensures var t := Apply(c, s, e);
            |t.workers| == c.workers &&
            (t.workers[w] != s.workers[w] ==>
               match s.workers[w]
               case Starting => t.workers[w] == AtTop || t.workers[w] == LeftEarly
               case AtTop => t.workers[w] == if s.flags[w] && !s.stopRequested then Ready else LeftEarly
               case Ready => t.workers[w] == InCall && t.started == s.started + 1
               case InCall => t.workers[w] == Claiming && t.finished == s.finished + 1
               case Claiming =>
                 && t.counter == s.counter + 1 && t.claims == s.claims + [Claim(w, s.counter)]
                 && t.workers[w] == if s.counter >= c.total then LeftByClaim(s.counter) else AtTop
               case LeftByClaim(_) => false
               case LeftEarly => false)
  {
    hide Count;
  }

  /** What a worker does next, in every run: it leaves when it finds its flag cleared or a stop
      requested at its loop head, and only then, or when its start-up fails, or when the number it
      claims after a call is not below the total. */
  lemma WorkerMoves(c: Config, run: seq<State>, j: nat, w: nat)
    requires IsRun(c, run) && 0 < j < |run| && w < c.workers
    ensures var s, t := run[j - 1], run[j];
            |t.workers| == |s.workers| == |s.flags| == c.workers &&
            (t.workers[w] != s.workers[w] ==>
               match s.workers[w]
               case Starting => t.workers[w] == AtTop || t.workers[w] == LeftEarly
               case AtTop => t.workers[w] == if s.flags[w] && !s.stopRequested then Ready else LeftEarly
               case Ready => t.workers[w] == InCall && t.started == s.started + 1
               case InCall => t.workers[w] == Claiming && t.finished == s.finished + 1
               case Claiming =>
                 && t.counter == s.counter + 1 && t.claims == s.claims + [Claim(w, s.counter)]
                 && t.workers[w] == if s.counter >= c.total then LeftByClaim(s.counter) else AtTop
               case LeftByClaim(_) => false
               case LeftEarly => false)
  {
    hide Apply;
    var e := RunStep(c, run, j);
    WorkerStep(c, run[j - 1], e, w);
  }

  /** What ends a part of the run: a stop may be requested at any moment; a failed start-up ends a
      worker, and time, or a counter that has reached the total, the waiting; nothing else changes. */
  lemma EndsAre(c: Config, s: State, e: Event)
    requires Enabled(c, s, e)
    ensures Enabled(c, s, RequestStop) && Apply(c, s, RequestStop) == s.(stopRequested := true)
    ensures s.main == Waiting ==> Enabled(c, s, SeeTimeUp) && (Enabled(c, s, SeePoolUsedUp) <==> s.counter >= c.total)
    ensures e.FailSetUp? ==> Apply(c, s, e) == s.(workers := s.workers[e.w := LeftEarly])
    ensures e == SeeTimeUp ==> Apply(c, s, e) == s.(main := TimeUp)
    ensures e == SeePoolUsedUp ==> s.counter >= c.total && Apply(c, s, e) == s.(main := PoolUsedUp)
    ensures e.ClearFlag? ==> s.main != Waiting && Apply(c, s, e) == s.(flags := s.flags[e.w := false])
  {
  }

  /** No flag is cleared while the scenario still waits for the pool. */
  lemma FlagsStandWhileWaiting(c: Config, run: seq<State>, i: nat, w: nat)
    requires IsRun(c, run) && i < |run| && w < c.workers && run[i].main == Waiting
    ensures |run[i].flags| == c.workers && run[i].flags[w]
  {
    RunInv(c, run, i);
  }

  // ---------------------------------------------------------------- stopping

  function ReadyOnes(ws: seq<Worker>): nat {
    if ws == [] then 0 else (if ws[0] == Ready then 1 else 0) + ReadyOnes(ws[1..])
  }

  lemma {:induction false} ReadyUpdate(ws: seq<Worker>, w: nat, worker: Worker)
    requires w < |ws|
    ensures ReadyOnes(ws[w := worker]) == ReadyOnes(ws) - (if ws[w] == Ready then 1 else 0) + (if worker == Ready then 1 else 0)
    decreases |ws|
  {
    if w > 0 {
      assert ws[w := worker][1..] == ws[1..][w - 1 := worker];
      ReadyUpdate(ws[1..], w - 1, worker);
    } else {
      assert ws[w := worker][1..] == ws[1..];
    }
  }

  lemma StoppingStep(c: Config, s: State, e: Event)
    requires Enabled(c, s, e) && s.stopRequested
    ensures var t := Apply(c, s, e);
            t.stopRequested && t.started + ReadyOnes(t.workers) <= s.started + ReadyOnes(s.workers)
  {
    match e {
      case SetUp(w) => ReadyUpdate(s.workers, w, Apply(c, s, e).workers[w]);
      case FailSetUp(w) => ReadyUpdate(s.workers, w, Apply(c, s, e).workers[w]);
      case CheckFlags(w) => ReadyUpdate(s.workers, w, Apply(c, s, e).workers[w]);
      case Begin(w) => ReadyUpdate(s.workers, w, Apply(c, s, e).workers[w]);
      case Return(w) => ReadyUpdate(s.workers, w, Apply(c, s, e).workers[w]);
      case TakeNumber(w) => ReadyUpdate(s.workers, w, Apply(c, s, e).workers[w]);
      case _ =>
    }
  }

  /** From the moment a stop is requested, however the run goes on, no more calls begin than workers
      had already passed the check. */
  lemma {:induction false} StopBound(c: Config, run: seq<State>, i: nat, j: nat)
    requires IsRun(c, run) && i <= j < |run| && run[i].stopRequested
    ensures run[j].stopRequested && run[j].started + ReadyOnes(run[j].workers) <= run[i].started + ReadyOnes(run[i].workers)
    decreases j
  {
    hide Apply, Inv, Enabled, ReadyOnes, IsRun;
    if i < j {
      StopBound(c, run, i, j - 1);
      var e := RunStep(c, run, j);
      StoppingStep(c, run[j - 1], e);
    }
  }

  // ---------------------------------------------------------------- the bound is reached

  lemma Extend(c: Config, run: seq<State>, e: Event) returns (longer: seq<State>)
    requires IsRun(c, run) && Enabled(c, run[|run| - 1], e)
    ensures IsRun(c, longer) && longer[|longer| - 1] == Apply(c, run[|run| - 1], e)
  {
    var s, t := run[|run| - 1], Apply(c, run[|run| - 1], e);
    longer := run + [t];
    assert Next(c, s, t);
  }

  /** `rounds` calls by the first worker, everyone else still starting. */
  predicate Solo(c: Config, s: State, rounds: nat) {
    && c.workers > 0 && |s.workers| == |s.flags| == c.workers
    && !s.stopRequested && (forall w :: 0 <= w < c.workers ==> s.flags[w])
    && s.workers[0] == AtTop && (forall w :: 1 <= w < c.workers ==> s.workers[w] == Starting)
    && s.started == s.counter == rounds
  }

  lemma {:induction false} RunSolo(c: Config, rounds: nat) returns (run: seq<State>)
    requires c.workers > 0 && rounds <= c.total
    ensures IsRun(c, run) && Solo(c, run[|run| - 1], rounds)
    decreases rounds
  {
    if rounds == 0 {
      run := [State(0, seq(c.workers, _ => Starting), seq(c.workers, _ => true), false, Waiting, 0, 0, [])];
      run := Extend(c, run, SetUp(0));
    } else {
      run := RunSolo(c, rounds - 1);
      run := Extend(c, run, CheckFlags(0));
      run := Extend(c, run, Begin(0));
      run := Extend(c, run, Return(0));
      run := Extend(c, run, TakeNumber(0));
    }
  }

  lemma {:induction false} RunTogether(c: Config, n: nat) returns (run: seq<State>)
    requires 1 <= n <= c.workers
    ensures IsRun(c, run) && run[|run| - 1].started == c.total + n
    ensures var s := run[|run| - 1];
            && |s.workers| == |s.flags| == c.workers
            && !s.stopRequested && (forall w :: 0 <= w < c.workers ==> s.flags[w])
            && (forall w :: n <= w < c.workers ==> s.workers[w] == Starting)
    decreases n
  {
    if n == 1 {
      run := RunSolo(c, c.total);
    } else {
      run := RunTogether(c, n - 1);
      run := Extend(c, run, SetUp(n - 1));
    }
    run := Extend(c, run, CheckFlags(n - 1));
    run := Extend(c, run, Begin(n - 1));
  }

  /** For every pool and every number of workers some interleaving starts the script
      `total + workers` times, so the bound cannot be lowered. */
  lemma StartedBoundIsReached(c: Config)
    requires c.workers > 0
    ensures exists run: seq<State> :: IsRun(c, run) && run[|run| - 1].started == c.total + c.workers
  {
    var run := RunTogether(c, c.workers);
    assert IsRun(c, run) && run[|run| - 1].started == c.total + c.workers;
  }
}
