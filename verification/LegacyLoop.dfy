/** The single-scenario main loop (src/engine/mod.rs): live control commands and scaling. */
module LegacyLoop {
  import opened Wrappers
  import opened PauseClock
  import opened Schedule
  import opened WorkerPool

  datatype Command = Ramp(workers: nat) | PauseAll | ResumeAll | Tag(key: string, value: string) | Status | Stop

  /** A command and the clock reading taken while it is carried out. */
  datatype Issued = Issued(command: Command, at: nat)

  /** The clock is read twice, first for the time since the start and then inside `total_paused`. */
  datatype Reading = Reading(elapsed: nat, paused: nat) {
    function Gap(): nat { SaturatingSub(paused, elapsed) }
  }

  /** What one turn reads: whether somebody else who holds the control state has stopped it before
      the turn, the clock at the finish check, the commands waiting, whether it is stopped while
      they are carried out, the clock at scaling, whether the memory monitor has raised its flag,
      and whether memory has recovered. */
  datatype Turn = Turn(
    stopBefore: bool, check: Reading, commands: seq<Issued>, stopDuring: bool, scale: Reading, warned: bool, recovered: bool)

  datatype Flow = Continue | Finished | Stopped

  /** The loop's state with the pool reduced to its size. */
  datatype State = State(events: seq<Event>, dynamic: Option<nat>, workers: nat, stopped: bool, throttled: bool)

  const INITIAL := State([], None, 0, false, false)

  // ---------------------------------------------------------------- specification

  /** Elapsed run time without the reported pauses; `base` is the clock when the run began. */
  function Elapsed(events: seq<Event>, base: nat, now: Reading): nat {
    SaturatingSub(SaturatingSub(now.elapsed, base), TotalPaused(Replay(events), now.paused))
  }

  function ApplyCommand(s: State, c: Issued): State {
    match c.command
    case Ramp(n) => s.(dynamic := if n == 0 then None else Some(n))
    case PauseAll => s.(events := s.events + [Pause(c.at)])
    case ResumeAll => s.(events := s.events + [Resume(c.at)])
    case Stop => s.(stopped := true)
    case Tag(_, _) => s
    case Status => s
  }

  /** Commands in order; nothing after a stop is looked at. */
  function ApplyCommands(s: State, cs: seq<Issued>): State
    decreases |cs|
  {
    if cs == [] || s.stopped then s else ApplyCommands(ApplyCommand(s, cs[0]), cs[1..])
  }

  predicate Blocked(s: State, t: Turn) {
    (s.throttled || t.warned) && !t.recovered
  }

  ghost function ScheduledTarget(schedule: seq<Stage>, base: nat, s: State, now: Reading): nat {
    TargetAt(schedule, Elapsed(s.events, base, now))
  }

  ghost function Scaled(schedule: seq<Stage>, base: nat, s: State, now: Reading, warned: bool, recovered: bool): State {
    var scheduled := ScheduledTarget(schedule, base, s, now);
    var target := if s.dynamic.Some? then s.dynamic.value else scheduled;
    var flag := s.throttled || warned;
    if target > s.workers then
      if flag && !recovered then s.(throttled := true)
      else s.(throttled := false, workers := target)
    else if s.dynamic.Some? then s.(throttled := flag, workers := target)
    else s.(throttled := flag)
  }

  ghost function Next(schedule: seq<Stage>, base: nat, s: State, t: Turn): (State, Flow) {
    if s.stopped || t.stopBefore then (s.(stopped := true), Stopped)
    else if Elapsed(s.events, base, t.check) >= End(schedule) then (s, Finished)
    else
      var after := ApplyCommands(s, t.commands);
      if after.stopped then (after, Stopped)
      else (RestOfTurn(schedule, base, after, t), Continue)
  }

  ghost function RestOfTurn(schedule: seq<Stage>, base: nat, s: State, t: Turn): State {
    if t.stopDuring then s.(stopped := true, throttled := s.throttled || t.warned)
    else Scaled(schedule, base, s, t.scale, t.warned, t.recovered)
  }

  // ---------------------------------------------------------------- the loop

  class Controller {
    const schedule: seq<Stage>
    const base: nat
    const control: ControlState
    const pool: Pool
    var dynamicTarget: Option<nat>
    var memoryThrottle: bool

    ghost predicate Valid()
      reads this, control, pool, pool.active, pool.stopped
    {
      control.Valid() && pool.Valid()
    }

    ghost function Snapshot(): State
      reads this, control, pool
    {
      State(control.history, dynamicTarget, |pool.active|, control.stopped, memoryThrottle)
    }

    constructor (schedule: seq<Stage>, base: nat, initialWorkers: nat)
      ensures Valid() && Snapshot() == INITIAL
      ensures this.schedule == schedule && this.base == base
      ensures fresh(control) && fresh(pool)
    {
      this.schedule, this.base := schedule, base;
      dynamicTarget, memoryThrottle := None, false;
      control := new ControlState(initialWorkers);
      pool := new Pool();
    }

    method Execute(issued: Issued)
      requires Valid()
      modifies this`dynamicTarget, control
      ensures Valid()
      ensures Snapshot() == ApplyCommand(old(Snapshot()), issued)
      ensures issued.command.PauseAll? ==>
                && control.paused && control.pauseStartedMs == issued.at && control.totalPausedMs == old(control.totalPausedMs)
                && control.history == old(control.history) + [Pause(issued.at)]
      ensures issued.command.ResumeAll? ==>
                && !control.paused && control.pauseStartedMs == 0
                && control.history == old(control.history) + [Resume(issued.at)]
      ensures !issued.command.PauseAll? && !issued.command.ResumeAll? ==>
                && control.paused == old(control.paused) && control.pauseStartedMs == old(control.pauseStartedMs)
                && control.totalPausedMs == old(control.totalPausedMs) && control.history == old(control.history)
      ensures dynamicTarget ==
              match issued.command
              case Ramp(n) => if n == 0 then None else Some(n)
              case _ => old(dynamicTarget)
      ensures control.targetWorkers ==
              if issued.command.Ramp? && issued.command.workers > 0 then issued.command.workers else old(control.targetWorkers)
      ensures control.tags ==
              if issued.command.Tag? then old(control.tags)[issued.command.key := issued.command.value] else old(control.tags)
      ensures control.stopped == (old(control.stopped) || issued.command.Stop?)
    {
      match issued.command {
        case Ramp(n) =>
          if n == 0 {
            dynamicTarget := None;
          } else {
            control.targetWorkers := n;
            dynamicTarget := Some(n);
          }
        case PauseAll => control.DoPause(issued.at);
        case ResumeAll => control.DoResume(issued.at);
        case Tag(key, value) => control.tags := control.tags[key := value];
        case Status =>
        case Stop => control.stopped := true;
      }
    }

    /** Carries out the waiting commands; true when one of them is a stop. */
    method ProcessCommands(commands: seq<Issued>) returns (stop: bool)
      requires Valid() && !control.stopped
      modifies this`dynamicTarget, control
      ensures Valid()
      ensures Snapshot() == ApplyCommands(old(Snapshot()), commands)
      ensures stop == control.stopped
    {
      for k := 0 to |commands|
        invariant Valid() && !control.stopped
        invariant ApplyCommands(Snapshot(), commands[k..]) == ApplyCommands(old(Snapshot()), commands)
      {
        assert commands[k..][1..] == commands[k + 1..];
        Execute(commands[k]);
        if commands[k].command.Stop? {
          return true;
        }
      }
      return false;
    }

    method ReadScheduledTarget(now: Reading) returns (target: nat)
      requires Valid()
      ensures target == TargetAt(schedule, Elapsed(control.history, base, now))
      ensures target == TargetAt(schedule, SaturatingSub(SaturatingSub(now.elapsed, base), TotalPaused(Replay(control.history), now.paused)))
    {
      var paused := control.ReadTotalPaused(now.paused);
      target := CalculateTarget(schedule, SaturatingSub(SaturatingSub(now.elapsed, base), paused));
    }

    /** The target of this turn, and whether to go there: a raised flag blocks spawning until
        memory has recovered. */
    method Decide(now: Reading, warned: bool, recovered: bool) returns (target: nat, go: bool)
      requires Valid()
      modifies this`memoryThrottle
      ensures target == if dynamicTarget.Some? then dynamicTarget.value else TargetAt(schedule, Elapsed(control.history, base, now))
      ensures var spawn, flag := target > |pool.active|, old(memoryThrottle) || warned;
              go == !(spawn && flag && !recovered) && memoryThrottle == (flag && !(spawn && recovered))
    {
      hide TargetAt, Elapsed, Replay;
      memoryThrottle := memoryThrottle || warned;
      var scheduled := ReadScheduledTarget(now);
      target, go := if dynamicTarget.Some? then dynamicTarget.value else scheduled, true;
      if target > |pool.active| {
        if memoryThrottle {
          if recovered {
            memoryThrottle := false;
          } else {
            go := false;
          }
        }
      }
    }

    /** Spawns up to the target, and shrinks only to a target set by a ramp command. */
    method Scale(now: Reading, warned: bool, recovered: bool)
      requires Valid()
      modifies this`memoryThrottle, pool, pool.active
      ensures Valid()
      ensures Snapshot() == Scaled(schedule, base, old(Snapshot()), now, warned, recovered)
      ensures var before, flag := |old(pool.active)|, old(memoryThrottle) || warned;
              var target := if dynamicTarget.Some? then dynamicTarget.value else TargetAt(schedule, Elapsed(control.history, base, now));
              && |pool.active| == (if target > before then (if flag && !recovered then before else target)
                                   else if dynamicTarget.Some? then target else before)
              && memoryThrottle == (flag && !(target > before && recovered))
      ensures forall i :: 0 <= i < |pool.active| && i < |old(pool.active)| ==> pool.active[i] == old(pool.active)[i]
      ensures forall i :: |old(pool.active)| <= i < |pool.active| ==> fresh(pool.active[i])
    {
      hide TargetAt, Elapsed, Replay;
      var target, go := Decide(now, warned, recovered);
      if go {
        Resize(target, dynamicTarget.Some?);
      }
    }

    /** Grows to the target, or shrinks to it if that is asked for. */
    method Resize(target: nat, shrink: bool)
      requires pool.Valid()
      modifies pool, pool.active
      ensures pool.Valid()
      ensures |pool.active| == if target > |old(pool.active)| || shrink then target else |old(pool.active)|
      ensures forall i :: 0 <= i < |pool.active| && i < |old(pool.active)| ==> pool.active[i] == old(pool.active)[i]
      ensures forall i :: |old(pool.active)| <= i < |pool.active| ==> fresh(pool.active[i])
    {
      if target > |pool.active| {
        pool.Spawn(target - |pool.active|);
      } else if shrink {
        pool.StopDownTo(target);
      }
    }

    /** The flag is read again before scaling. */
    method FinishTurn(t: Turn)
      requires Valid() && !control.stopped
      modifies this`memoryThrottle, control`stopped, pool, pool.active
      ensures Valid()
      ensures Snapshot() == RestOfTurn(schedule, base, old(Snapshot()), t)
      ensures t.stopDuring ==> control.stopped && pool.active == old(pool.active)
      ensures forall i :: |old(pool.active)| <= i < |pool.active| ==> fresh(pool.active[i])
    {
      hide Scaled;
      if t.stopDuring {
        control.stopped := true;
      }
      if control.stopped {
        memoryThrottle := memoryThrottle || t.warned;
      } else {
        Scale(t.scale, t.warned, t.recovered);
      }
    }

    method TimeIsUp(now: Reading) returns (up: bool)
      requires Valid()
      ensures up == (Elapsed(control.history, base, now) >= End(schedule))
      ensures up == (SaturatingSub(SaturatingSub(now.elapsed, base), TotalPaused(Replay(control.history), now.paused)) >= End(schedule))
    {
      var paused := control.ReadTotalPaused(now.paused);
      up := SaturatingSub(SaturatingSub(now.elapsed, base), paused) >= End(schedule);
    }

    method Tick(t: Turn) returns (flow: Flow)
      requires Valid()
      modifies this`dynamicTarget, this`memoryThrottle, control, pool, pool.active
      ensures Valid()
      ensures (Snapshot(), flow) == Next(schedule, base, old(Snapshot()), t)
      ensures flow == Finished <==>
              !old(control.stopped) && !t.stopBefore && Elapsed(old(control.history), base, t.check) >= End(schedule)
      ensures flow != Continue ==> |pool.active| == |old(pool.active)|
      ensures flow == Stopped ==> control.stopped
      ensures old(control.stopped) || t.stopBefore ==> flow == Stopped
      ensures t.stopDuring && flow == Continue ==> control.stopped && pool.active == old(pool.active)
      ensures forall i :: |old(pool.active)| <= i < |pool.active| ==> fresh(pool.active[i])
    {
      hide Elapsed, ApplyCommands, RestOfTurn, End;
      if t.stopBefore {
        control.stopped := true;
      }
      var up := TimeIsUp(t.check);
      if up && !control.stopped {
        return Finished;
      }
      if control.stopped {
        return Stopped;
      }
      var stop := ProcessCommands(t.commands);
      if stop {
        return Stopped;
      }
      FinishTurn(t);
      return Continue;
    }
  }

  // ---------------------------------------------------------------- whole runs

  ghost function Run(schedule: seq<Stage>, base: nat, s: State, turns: seq<Turn>): (State, Flow)
    decreases |turns|
  {
    if turns == [] then (s, Continue)
    else
      var (after, flow) := Next(schedule, base, s, turns[0]);
      if flow == Continue then Run(schedule, base, after, turns[1..]) else (after, flow)
  }

  /** The scheduled targets a run computes, one for every turn that gets as far as scaling. */
  ghost function Seen(schedule: seq<Stage>, base: nat, s: State, turns: seq<Turn>): seq<nat>
    decreases |turns|
  {
    if turns == [] || Next(schedule, base, s, turns[0]).1 != Continue then []
    else
      (if turns[0].stopDuring then [] else [ScheduledTarget(schedule, base, ApplyCommands(s, turns[0].commands), turns[0].scale)])
      + Seen(schedule, base, Next(schedule, base, s, turns[0]).0, turns[1..])
  }

  function Largest(xs: seq<nat>, least: nat): nat {
    if xs == [] then least else Largest(xs[1..], if xs[0] > least then xs[0] else least)
  }

  predicate NoRamp(cs: seq<Issued>) {
    forall i :: 0 <= i < |cs| ==> !cs[i].command.Ramp?
  }

  /** Nobody stops the run in this turn. */
  predicate NoStop(t: Turn) {
    !t.stopBefore && !t.stopDuring && forall i :: 0 <= i < |t.commands| ==> !t.commands[i].command.Stop?
  }

  predicate NoPauseChange(cs: seq<Issued>) {
    forall i :: 0 <= i < |cs| ==> !cs[i].command.PauseAll? && !cs[i].command.ResumeAll?
  }

  lemma {:induction false} CommandsFrame(s: State, cs: seq<Issued>)
    ensures ApplyCommands(s, cs).workers == s.workers && ApplyCommands(s, cs).throttled == s.throttled
    ensures NoRamp(cs) ==> ApplyCommands(s, cs).dynamic == s.dynamic
    ensures NoPauseChange(cs) ==> ApplyCommands(s, cs).events == s.events
    decreases |cs|
  {
    if cs != [] && !s.stopped {
      CommandsFrame(ApplyCommand(s, cs[0]), cs[1..]);
    }
  }

  /** Nothing behind a stop is looked at. */
  lemma {:induction false} NothingAfterStop(s: State, cs: seq<Issued>, k: nat)
    requires k < |cs| && cs[k].command.Stop?
    ensures ApplyCommands(s, cs) == ApplyCommands(s, cs[..k + 1]) && ApplyCommands(s, cs).stopped
    decreases k
  {
    var after := ApplyCommand(s, cs[0]);
    assert cs[..k + 1][0] == cs[0] && cs[..k + 1][1..] == cs[1..][..k];
    if k > 0 && !s.stopped {
      NothingAfterStop(after, cs[1..], k - 1);
    }
  }

  /** Without ramp commands or memory throttling the worker count is the running maximum of
      the scheduled targets seen: the loop never shrinks on its own. */
  lemma {:induction false} WorkersAreRunningMaximum(schedule: seq<Stage>, base: nat, s: State, turns: seq<Turn>)
    requires s.dynamic == None && !s.throttled
    requires forall i :: 0 <= i < |turns| ==> NoRamp(turns[i].commands) && !turns[i].warned
    ensures Run(schedule, base, s, turns).0.workers == Largest(Seen(schedule, base, s, turns), s.workers)
    decreases |turns|
  {
    if turns != [] {
      CommandsFrame(s, turns[0].commands);
      var (after, flow) := Next(schedule, base, s, turns[0]);
      if flow == Continue {
        WorkersAreRunningMaximum(schedule, base, after, turns[1..]);
      }
    }
  }

  /** The last ramp command of a batch decides the dynamic target. */
  lemma {:induction false} LastRampWins(s: State, cs: seq<Issued>, k: nat)
    requires k < |cs| && cs[k].command.Ramp? && NoRamp(cs[k + 1..])
    requires forall i :: 0 <= i < |cs| ==> !cs[i].command.Stop?
    requires !s.stopped
    ensures !ApplyCommands(s, cs).stopped
    ensures ApplyCommands(s, cs).dynamic == if cs[k].command.workers == 0 then None else Some(cs[k].command.workers)
    decreases |cs|
  {
    var after := ApplyCommand(s, cs[0]);
    if k > 0 {
      assert cs[1..][k..] == cs[k + 1..];
      LastRampWins(after, cs[1..], k - 1);
    } else {
      CommandsFrame(after, cs[1..]);
      NoStopStaysUp(after, cs[1..]);
    }
  }

  lemma {:induction false} NoStopStaysUp(s: State, cs: seq<Issued>)
    requires !s.stopped && forall i :: 0 <= i < |cs| ==> !cs[i].command.Stop?
    ensures !ApplyCommands(s, cs).stopped
    decreases |cs|
  {
    if cs != [] {
      NoStopStaysUp(ApplyCommand(s, cs[0]), cs[1..]);
    }
  }

  /** A turn whose last ramp command is Ramp(n) with n > 0 leaves n workers, unless it needed
      more workers while spawning was blocked; a blocked turn changes nothing. */
  lemma RampSetsWorkers(schedule: seq<Stage>, base: nat, s: State, t: Turn, k: nat)
    requires k < |t.commands| && t.commands[k].command.Ramp? && NoRamp(t.commands[k + 1..])
    requires NoStop(t)
    requires Next(schedule, base, s, t).1 != Finished && !s.stopped
    ensures Next(schedule, base, s, t).1 == Continue
    ensures var n, after := t.commands[k].command.workers, Next(schedule, base, s, t).0;
            n > 0 ==> after.dynamic == Some(n) &&
                      after.workers == (if Blocked(s, t) && n > s.workers then s.workers else n)
  {
    LastRampWins(s, t.commands, k);
    CommandsFrame(s, t.commands);
  }

  /** While the memory flag is up and memory has not recovered nobody is spawned, whatever is asked
      for, and the flag stays up; without a ramp target the count stays as it is. */
  lemma ThrottledTurn(schedule: seq<Stage>, base: nat, s: State, t: Turn)
    requires (s.throttled || t.warned) && !t.recovered
    ensures var (after, flow) := Next(schedule, base, s, t);
            && after.workers <= s.workers
            && (after.dynamic == None ==> after.workers == s.workers)
            && (flow == Continue ==> after.throttled)
  {
    CommandsFrame(s, t.commands);
  }

  /** Over every run in which memory does not recover, the count never grows from then on. */
  lemma {:induction false} ThrottledRun(schedule: seq<Stage>, base: nat, s: State, turns: seq<Turn>)
    requires s.throttled && forall i :: 0 <= i < |turns| ==> !turns[i].recovered
    ensures Run(schedule, base, s, turns).0.workers <= s.workers
    decreases |turns|
  {
    hide Next;
    if turns != [] {
      ThrottledTurn(schedule, base, s, turns[0]);
      var (after, flow) := Next(schedule, base, s, turns[0]);
      if flow == Continue {
        ThrottledRun(schedule, base, after, turns[1..]);
      }
    }
  }

  /** Ramp(0) hands control back to the schedule, which only ever adds workers. */
  lemma RampZeroReturnsToSchedule(schedule: seq<Stage>, base: nat, s: State, t: Turn, k: nat)
    requires k < |t.commands| && t.commands[k].command == Ramp(0) && NoRamp(t.commands[k + 1..])
    requires NoStop(t)
    requires Next(schedule, base, s, t).1 != Finished && !s.stopped && !Blocked(s, t)
    ensures var scheduled := ScheduledTarget(schedule, base, ApplyCommands(s, t.commands), t.scale);
            Next(schedule, base, s, t).0.workers == if scheduled > s.workers then scheduled else s.workers
  {
    LastRampWins(s, t.commands, k);
    CommandsFrame(s, t.commands);
  }

  /** The dynamic target holds the count until the next ramp command, whatever the schedule says. */
  lemma {:induction false} RampHolds(schedule: seq<Stage>, base: nat, s: State, turns: seq<Turn>)
    requires s.dynamic == Some(s.workers)
    requires forall i :: 0 <= i < |turns| ==> NoRamp(turns[i].commands)
    ensures Run(schedule, base, s, turns).0.workers == s.workers
    decreases |turns|
  {
    if turns != [] {
      CommandsFrame(s, turns[0].commands);
      var (after, flow) := Next(schedule, base, s, turns[0]);
      if flow == Continue {
        RampHolds(schedule, base, after, turns[1..]);
      }
    }
  }

  // ---------------------------------------------------------------- pausing

  predicate PausedSince(events: seq<Event>, at: nat) {
    events != [] && events[|events| - 1] == Pause(at) && at > 0
  }

  /** During a pause the time seen stands still but for the gap between the two readings. */
  lemma ElapsedFrozen(events: seq<Event>, base: nat, at: nat, later: Reading)
    requires PausedSince(events, at) && Ordered(events, at) && base <= at <= later.elapsed <= later.paused
    ensures Elapsed(events, base, later) == SaturatingSub(Elapsed(events, base, Reading(at, at)), later.Gap())
  {
    ReplayShape(events);
  }

  /** While paused (not at clock value 0) and until a resume or a stop, the run cannot finish and
      every turn sees the target that was scheduled when the pause began, at a time that is short
      by no more than the gap between its two clock readings. */
  lemma {:induction false} PauseFreezesTheRun(schedule: seq<Stage>, base: nat, s: State, turns: seq<Turn>, at: nat)
    requires PausedSince(s.events, at) && Ordered(s.events, at) && base <= at && !s.stopped
    requires Elapsed(s.events, base, Reading(at, at)) < End(schedule)
    requires forall i :: 0 <= i < |turns| ==> at <= turns[i].check.elapsed <= turns[i].check.paused
    requires forall i :: 0 <= i < |turns| ==> at <= turns[i].scale.elapsed <= turns[i].scale.paused
    requires forall i :: 0 <= i < |turns| ==> NoPauseChange(turns[i].commands) && NoStop(turns[i])
    ensures Run(schedule, base, s, turns).1 == Continue
    ensures |Seen(schedule, base, s, turns)| == |turns|
    ensures forall i :: 0 <= i < |turns| ==>
              Seen(schedule, base, s, turns)[i] ==
              TargetAt(schedule, SaturatingSub(Elapsed(s.events, base, Reading(at, at)), turns[i].scale.Gap()))
    decreases |turns|
  {
    hide TargetAt, Elapsed, End, ApplyCommands, Ordered;
    if turns != [] {
      var t := turns[0];
      CommandsFrame(s, t.commands);
      NoStopStaysUp(s, t.commands);
      ElapsedFrozen(s.events, base, at, t.check);
      ElapsedFrozen(s.events, base, at, t.scale);
      PauseFreezesTheRun(schedule, base, Next(schedule, base, s, t).0, turns[1..], at);
    }
  }

  /** A batch's last pause or resume is the last event there is. */
  lemma {:induction false} LastPauseCommand(s: State, cs: seq<Issued>, k: nat)
    requires k < |cs| && (cs[k].command.PauseAll? || cs[k].command.ResumeAll?) && NoPauseChange(cs[k + 1..])
    requires !s.stopped && forall i :: 0 <= i < |cs| ==> !cs[i].command.Stop?
    ensures var events := ApplyCommands(s, cs).events;
            events != [] && events[|events| - 1] == if cs[k].command.PauseAll? then Pause(cs[k].at) else Resume(cs[k].at)
    decreases |cs|
  {
    var after := ApplyCommand(s, cs[0]);
    if k > 0 {
      assert cs[1..][k..] == cs[k + 1..];
      LastPauseCommand(after, cs[1..], k - 1);
    } else {
      CommandsFrame(after, cs[1..]);
    }
  }

  /** Commands carried out on a clock that never goes back keep the history in order. */
  lemma {:induction false} CommandsOrdered(s: State, cs: seq<Issued>, first: nat, last: nat)
    requires Ordered(s.events, first) && first <= last
    requires (forall i :: 0 <= i < |cs| ==> first <= cs[i].at <= last) && forall i, j :: 0 <= i < j < |cs| ==> cs[i].at <= cs[j].at
    ensures Ordered(ApplyCommands(s, cs).events, last)
    decreases |cs|
  {
    if cs != [] && !s.stopped {
      CommandsOrdered(ApplyCommand(s, cs[0]), cs[1..], cs[0].at, last);
    }
  }

  lemma RestKeepsEvents(schedule: seq<Stage>, base: nat, s: State, t: Turn)
    ensures RestOfTurn(schedule, base, s, t).events == s.events
    ensures !t.stopDuring ==> RestOfTurn(schedule, base, s, t).stopped == s.stopped
  {
    hide ScheduledTarget;
  }

  /** The last pause event is that of a turn's last pause command. */
  lemma PauseTurn(schedule: seq<Stage>, base: nat, s: State, t: Turn, k: nat)
    requires k < |t.commands| && t.commands[k].command.PauseAll? && NoPauseChange(t.commands[k + 1..])
    requires NoStop(t) && !s.stopped && Elapsed(s.events, base, t.check) < End(schedule)
    ensures var (after, flow) := Next(schedule, base, s, t);
            && flow == Continue && !after.stopped && after.events != [] && after.events[|after.events| - 1] == Pause(t.commands[k].at)
            && after.events == ApplyCommands(s, t.commands).events
  {
    hide Elapsed, End, ApplyCommands, NoPauseChange, RestOfTurn;
    NoStopStaysUp(s, t.commands);
    RestKeepsEvents(schedule, base, ApplyCommands(s, t.commands), t);
    assert Next(schedule, base, s, t) == (RestOfTurn(schedule, base, ApplyCommands(s, t.commands), t), Continue);
    hide Next;
    LastPauseCommand(s, t.commands, k);
  }

  /** A pause command, above clock value 0 and not followed by another pause or a resume, freezes
      the run from its turn on: whatever turns follow, until a resume or a stop, the test goes on
      and every turn sees the target scheduled at the pause. */
  lemma PauseCommandFreezes(schedule: seq<Stage>, base: nat, s: State, t: Turn, k: nat, first: nat, turns: seq<Turn>)
    requires k < |t.commands| && t.commands[k].command.PauseAll? && NoPauseChange(t.commands[k + 1..])
    requires NoStop(t) && !s.stopped && Elapsed(s.events, base, t.check) < End(schedule)
    // the clock never goes back
    requires Ordered(s.events, first) && first <= t.commands[k].at && 0 < t.commands[k].at && base <= t.commands[k].at
    requires forall i :: 0 <= i <= k ==> first <= t.commands[i].at <= t.commands[k].at
    requires forall i, j :: 0 <= i < j <= k ==> t.commands[i].at <= t.commands[j].at
    requires forall i :: 0 <= i < |turns| ==> t.commands[k].at <= turns[i].check.elapsed <= turns[i].check.paused
    requires forall i :: 0 <= i < |turns| ==> t.commands[k].at <= turns[i].scale.elapsed <= turns[i].scale.paused
    requires forall i :: 0 <= i < |turns| ==> NoPauseChange(turns[i].commands) && NoStop(turns[i])
    // the time was not up when the pause was carried out
    requires var at := t.commands[k].at; Elapsed(ApplyCommands(s, t.commands).events, base, Reading(at, at)) < End(schedule)
    ensures Run(schedule, base, s, [t] + turns).1 == Continue
    ensures var at, after := t.commands[k].at, Next(schedule, base, s, t).0;
            && |Seen(schedule, base, after, turns)| == |turns|
            && forall i :: 0 <= i < |turns| ==>
                 Seen(schedule, base, after, turns)[i] ==
                 TargetAt(schedule, SaturatingSub(Elapsed(ApplyCommands(s, t.commands).events, base, Reading(at, at)), turns[i].scale.Gap()))
  {
    var at, after, cs := t.commands[k].at, Next(schedule, base, s, t).0, t.commands;
    PauseTurn(schedule, base, s, t, k);
    CommandsInOrder(s, cs, k, first);
    hide Elapsed, TargetAt, End, ApplyCommands, Ordered, Next, Seen;
    PauseFreezesTheRun(schedule, base, after, turns, at);
    assert ([t] + turns)[1..] == turns;
  }

  /** Commands after the last pause or resume add no event. */
  lemma CommandsInOrder(s: State, cs: seq<Issued>, k: nat, first: nat)
    requires k < |cs| && NoPauseChange(cs[k + 1..]) && !s.stopped && forall i :: 0 <= i < |cs| ==> !cs[i].command.Stop?
    requires Ordered(s.events, first)
    requires forall i :: 0 <= i <= k ==> first <= cs[i].at <= cs[k].at
    requires forall i, j :: 0 <= i < j <= k ==> cs[i].at <= cs[j].at
    ensures Ordered(ApplyCommands(s, cs).events, cs[k].at)
  {
    CommandsSplit(s, cs, k + 1);
    NoStopStaysUp(s, cs[..k + 1]);
    CommandsOrdered(s, cs[..k + 1], first, cs[k].at);
    CommandsFrame(ApplyCommands(s, cs[..k + 1]), cs[k + 1..]);
  }

  lemma {:induction false} CommandsSplit(s: State, cs: seq<Issued>, k: nat)
    requires k <= |cs|
    ensures ApplyCommands(s, cs) == ApplyCommands(ApplyCommands(s, cs[..k]), cs[k..])
    decreases k
  {
    if k > 0 && !s.stopped {
      CommandsSplit(ApplyCommand(s, cs[0]), cs[1..], k - 1);
      assert cs[..k][1..] == cs[1..][..k - 1] && cs[1..][k - 1..] == cs[k..];
    } else if k == 0 {
      assert cs[k..] == cs;
    }
  }

  /** Resuming picks the schedule up where the pause left it: from then on the time seen is what
      it would have been with pauses read at the resume. */
  lemma ResumeContinues(events: seq<Event>, base: nat, at: nat, now: Reading)
    requires Ordered(events, at) && at <= now.paused
    ensures Elapsed(events + [Resume(at)], base, now) == Elapsed(events, base, Reading(now.elapsed, at))
  {
    ReplayShape(events);
    assert (events + [Resume(at)])[..|events|] == events;
  }
}
