/** Pause and resume accounting (src/engine/control.rs) over an explicit millisecond clock.
    Clock readings are milliseconds since the `ControlState` was created. */
module PauseClock {

  datatype Event = Pause(at: nat) | Resume(at: nat)

  /** The three atomics: `paused`, `total_paused_ms` and `pause_started_ms` (0 for none). */
  datatype PauseState = PauseState(paused: bool, total: nat, started: nat)

  const RUNNING := PauseState(false, 0, 0)

  function SaturatingSub(a: nat, b: nat): nat {
    if a >= b then a - b else 0
  }

  function Apply(st: PauseState, e: Event): PauseState {
    match e
    case Pause(now) => PauseState(true, st.total, now)
    case Resume(now) =>
      PauseState(false, st.total + if st.started > 0 then SaturatingSub(now, st.started) else 0, 0)
  }

  /** What `total_paused` reports. */
  function TotalPaused(st: PauseState, now: nat): nat {
    st.total + if st.paused && st.started > 0 then SaturatingSub(now, st.started) else 0
  }

  function Replay(es: seq<Event>): PauseState {
    if es == [] then RUNNING else Apply(Replay(es[..|es| - 1]), es[|es| - 1])
  }

  /** Readings of a clock that never goes back, the last of them before `now`. */
  predicate Ordered(es: seq<Event>, now: nat) {
    && (forall i, j :: 0 <= i < j < |es| ==> es[i].at <= es[j].at)
    && (es != [] ==> es[|es| - 1].at <= now)
  }

  // ---------------------------------------------------------------- the object

  class ControlState {
    var paused: bool
    var totalPausedMs: nat
    var pauseStartedMs: nat
    var targetWorkers: nat
    var tags: map<string, string>
    var stopped: bool
    ghost var history: seq<Event>

    ghost predicate Valid()
      reads this
    {
      Accounting() == Replay(history)
    }

    function Accounting(): PauseState
      reads this
    {
      PauseState(paused, totalPausedMs, pauseStartedMs)
    }

    constructor (initialWorkers: nat)
      ensures Valid() && history == [] && !paused && !stopped && targetWorkers == initialWorkers && tags == map[]
    {
      paused, totalPausedMs, pauseStartedMs := false, 0, 0;
      targetWorkers, tags, stopped := initialWorkers, map[], false;
      history := [];
    }

    method DoPause(now: nat)
      requires Valid()
      modifies this`paused, this`pauseStartedMs, this`history
      ensures Valid() && history == old(history) + [Pause(now)]
      ensures paused && pauseStartedMs == now && totalPausedMs == old(totalPausedMs)
    {
      pauseStartedMs := now;
      paused := true;
      history := history + [Pause(now)];
      assert history[..|history| - 1] == old(history);
    }

    method DoResume(now: nat)
      requires Valid()
      modifies this`paused, this`totalPausedMs, this`pauseStartedMs, this`history
      ensures Valid() && history == old(history) + [Resume(now)]
      ensures !paused && pauseStartedMs == 0
      ensures totalPausedMs == old(totalPausedMs) + if 0 < old(pauseStartedMs) <= now then now - old(pauseStartedMs) else 0
      // resuming never moves the reported total
      ensures old(paused) ==> totalPausedMs == TotalPaused(old(Accounting()), now)
    {
      ghost var before := Accounting();
      paused := false;
      var started := pauseStartedMs;
      pauseStartedMs := 0;
      if started > 0 {
        var pausedFor := if now >= started then now - started else 0;
        totalPausedMs := totalPausedMs + pausedFor;
      }
      history := history + [Resume(now)];
      assert history[..|history| - 1] == old(history);
    }

    method ReadTotalPaused(now: nat) returns (ms: nat)
      requires Valid()
      ensures ms == TotalPaused(Replay(history), now)
      ensures ms == totalPausedMs + if paused && 0 < pauseStartedMs <= now then now - pauseStartedMs else 0
      ensures Ordered(history, now) ==> ms + Lost(history, now) == PausedTime(history, now)
    {
      ms := totalPausedMs;
      if paused {
        var started := pauseStartedMs;
        if started > 0 {
          ms := ms + if now >= started then now - started else 0;
        }
      }
      if Ordered(history, now) {
        AccountingGap(history, now);
      }
    }
  }

  // ---------------------------------------------------------------- real paused time

  /** Time from each pause to the next event, or to `now`. */
  function PausedTime(es: seq<Event>, now: nat): nat
    requires Ordered(es, now)
  {
    if es == [] then 0
    else
      var last := es[|es| - 1];
      PausedTime(es[..|es| - 1], last.at) + if last.Pause? then now - last.at else 0
  }

  /** At clock value `m` the last event is a pause. */
  predicate PausedAt(es: seq<Event>, m: nat) {
    exists i :: 0 <= i < |es| && es[i].Pause? && es[i].at <= m && (i + 1 < |es| ==> m < es[i + 1].at)
  }

  predicate Within(low: nat, m: nat, high: nat) {
    low <= m < high
  }

  function Interval(low: nat, high: nat): set<nat> {
    set m: nat | m < high && Within(low, m, high)
  }

  lemma {:induction false} IntervalSize(low: nat, high: nat)
    requires low <= high
    ensures |Interval(low, high)| == high - low
    decreases high
  {
    if low == high {
      assert Interval(low, high) == {};
    } else {
      IntervalSize(low, high - 1);
      assert Interval(low, high) == Interval(low, high - 1) + {high - 1};
    }
  }

  lemma PausedAtSnoc(es: seq<Event>, m: nat)
    requires es != [] && Ordered(es, es[|es| - 1].at)
    ensures var last := es[|es| - 1];
            PausedAt(es, m) <==> if m < last.at then PausedAt(es[..|es| - 1], m) else last.Pause?
  {
    var front, last := es[..|es| - 1], es[|es| - 1];
    if m < last.at && PausedAt(front, m) {
      var i :| 0 <= i < |front| && front[i].Pause? && front[i].at <= m && (i + 1 < |front| ==> m < front[i + 1].at);
      assert es[i].Pause? && (i + 1 < |es| ==> m < es[i + 1].at);
    }
    if PausedAt(es, m) {
      var i :| 0 <= i < |es| && es[i].Pause? && es[i].at <= m && (i + 1 < |es| ==> m < es[i + 1].at);
      if i + 1 < |es| {
        assert es[i + 1].at <= last.at;
        assert front[i].Pause?;
      }
    }
    if m >= last.at && last.Pause? {
      assert es[|es| - 1].Pause?;
    }
  }

  /** The time really spent paused is the number of clock values at which the last event is a pause. */
  lemma {:induction false} PausedTimeIsCount(es: seq<Event>, now: nat)
    requires Ordered(es, now)
    ensures PausedTime(es, now) == |set m: nat | 0 <= m < now && PausedAt(es, m)|
    decreases |es|
  {
    hide PausedAt;
    var whole := set m: nat | 0 <= m < now && PausedAt(es, m);
    if es == [] {
      NothingPaused(now);
    } else {
      var front, last := es[..|es| - 1], es[|es| - 1];
      PausedTimeIsCount(front, last.at);
      forall m: nat ensures PausedAt(es, m) <==> if m < last.at then PausedAt(front, m) else last.Pause? {
        PausedAtSnoc(es, m);
      }
      var before, after := (set m: nat | 0 <= m < last.at && PausedAt(front, m)), Interval(last.at, now);
      IntervalSize(last.at, now);
      if last.Pause? {
        assert whole == before + after;
      } else {
        assert whole == before;
      }
    }
  }

  lemma NothingPaused(now: nat)
    ensures (set m: nat | 0 <= m < now && PausedAt([], m)) == {}
  {
  }

  /** Paused intervals that are never counted: one that a second pause cuts short, and one
      that starts when the clock reads 0. */
  function Lost(es: seq<Event>, now: nat): nat
    requires Ordered(es, now)
  {
    LostBefore(es) + if es != [] && es[|es| - 1] == Pause(0) then now else 0
  }

  function LostBefore(es: seq<Event>): nat
    requires es == [] || Ordered(es, es[|es| - 1].at)
  {
    if |es| < 2 then 0
    else
      var p, e := es[|es| - 2], es[|es| - 1];
      LostBefore(es[..|es| - 1]) + if p.Pause? && (p.at == 0 || e.Pause?) then e.at - p.at else 0
  }

  lemma {:induction false} ReplayShape(es: seq<Event>)
    ensures Replay(es).paused <==> es != [] && es[|es| - 1].Pause?
    ensures Replay(es).started == if es != [] && es[|es| - 1].Pause? then es[|es| - 1].at else 0
  {
  }

  /** Over every sequence of pauses and resumes the report falls short of the time really
      spent paused by exactly the lost intervals. */
  lemma {:induction false} AccountingGap(es: seq<Event>, now: nat)
    requires Ordered(es, now)
    ensures TotalPaused(Replay(es), now) + Lost(es, now) == PausedTime(es, now)
    decreases |es|
  {
    if es != [] {
      var front, last := es[..|es| - 1], es[|es| - 1];
      AccountingGap(front, last.at);
      ReplayShape(front);
      if front != [] {
        assert front[|front| - 1] == es[|es| - 2];
      }
    }
  }

  /** The interval from `e` to the next event is counted, or has no length. */
  predicate Counted(e: Event, next: Event) {
    e.Pause? && e.at < next.at ==> e.at > 0 && next.Resume?
  }

  /** No pause repeated while paused, and no pause begun at clock value 0. */
  predicate NothingLost(es: seq<Event>, now: nat) {
    && (forall i, j :: 0 <= i < |es| && j == i + 1 && j < |es| ==> Counted(es[i], es[j]))
    && (es != [] ==> Counted(es[|es| - 1], Resume(now)))
  }

  lemma {:induction false} LostBeforeIsZero(es: seq<Event>)
    requires es == [] || Ordered(es, es[|es| - 1].at)
    ensures LostBefore(es) == 0 <==> forall i, j :: 0 <= i < |es| && j == i + 1 && j < |es| ==> Counted(es[i], es[j])
    decreases |es|
  {
    if |es| >= 2 {
      var front := es[..|es| - 1];
      LostBeforeIsZero(front);
      assert LostBefore(es) == 0 <==> LostBefore(front) == 0 && Counted(es[|es| - 2], es[|es| - 1]);
    }
  }

  /** The report equals the time really spent paused exactly when no non-empty interval is
      cut by a repeated pause or starts at clock value 0. */
  lemma ReportIsExactIff(es: seq<Event>, now: nat)
    requires Ordered(es, now)
    ensures TotalPaused(Replay(es), now) == PausedTime(es, now) <==> NothingLost(es, now)
  {
    AccountingGap(es, now);
    LostBeforeIsZero(es);
  }

  // ---------------------------------------------------------------- bounds

  lemma {:induction false} PausedTimeBound(es: seq<Event>, now: nat, first: nat)
    requires Ordered(es, now) && first <= |es|
    requires forall i :: 0 <= i < first ==> es[i].Resume?
    ensures PausedTime(es, now) <= if first < |es| then now - es[first].at else 0
    decreases |es|
  {
    if es != [] {
      var front, last := es[..|es| - 1], es[|es| - 1];
      PausedTimeBound(front, last.at, if first < |front| then first else |front|);
    }
  }

  /** The report never exceeds the time since the first pause, so it cannot overflow while the
      clock fits. Nothing is reported before a first pause. */
  lemma ReportWithinFirstPause(es: seq<Event>, now: nat, first: nat)
    requires Ordered(es, now) && first <= |es|
    requires forall i :: 0 <= i < first ==> es[i].Resume?
    ensures TotalPaused(Replay(es), now) <= if first < |es| then now - es[first].at else 0
  {
    AccountingGap(es, now);
    PausedTimeBound(es, now, first);
  }

  // ---------------------------------------------------------------- active time

  /** What the schedule sees: clock minus reported pauses, never below 0. */
  function ActiveTime(es: seq<Event>, now: nat): nat {
    SaturatingSub(now, TotalPaused(Replay(es), now))
  }

  /** With no further event the schedule's clock stands still exactly when the last event is a
      pause that did not fall on clock value 0; otherwise it runs with the wall clock. */
  lemma FrozenWhilePaused(es: seq<Event>, now: nat, later: nat)
    requires Ordered(es, now) && now <= later
    ensures ActiveTime(es, later) - ActiveTime(es, now) ==
            if es != [] && es[|es| - 1].Pause? && es[|es| - 1].at > 0 then 0 else later - now
  {
    ReplayShape(es);
    ReportWithinFirstPause(es, now, 0);
    ReportWithinFirstPause(es, later, 0);
  }

  lemma ActiveAcrossEvent(es: seq<Event>, e: Event)
    requires Ordered(es, e.at)
    ensures ActiveTime(es, e.at) <= ActiveTime(es + [e], e.at)
    ensures es == [] || es[|es| - 1].Resume? || e.Resume? ==> ActiveTime(es, e.at) == ActiveTime(es + [e], e.at)
  {
    ReplayShape(es);
    assert (es + [e])[..|es|] == es;
  }

  /** Whatever is paused or resumed, the schedule's clock never goes back. */
  lemma {:induction false} ActiveNeverDecreases(es: seq<Event>, more: seq<Event>, now: nat, later: nat)
    requires Ordered(es, now) && Ordered(es + more, later) && now <= later
    requires forall i :: 0 <= i < |more| ==> now <= more[i].at
    ensures ActiveTime(es, now) <= ActiveTime(es + more, later)
    decreases |more|
  {
    hide ActiveTime, Replay;
    if more == [] {
      assert es + more == es;
      FrozenWhilePaused(es, now, later);
    } else {
      var front, e := more[..|more| - 1], more[|more| - 1];
      var whole := es + more;
      assert whole == (es + front) + [e] && whole[|whole| - 1] == e;
      assert forall i :: 0 <= i < |es + front| ==> (es + front)[i] == whole[i];
      ActiveNeverDecreases(es, front, now, e.at);
      ActiveAcrossEvent(es + front, e);
      FrozenWhilePaused(whole, e.at, later);
    }
  }
}
