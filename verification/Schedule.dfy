/** Piecewise-linear ramp schedules (src/engine/mod.rs, `calculate_target` and `calculate_rate`).
    Durations are whole clock ticks; the loops divide exactly, over `real`, and truncate. */
module Schedule {

  /** Ramp from the previous stage's target to this one during `duration` ticks. */
  datatype Stage = Stage(duration: nat, target: nat)

  // ---------------------------------------------------------------- breakpoints

  /** When stage `i` begins; `Break(s, |s|)` is the end of the schedule. */
  function Break(s: seq<Stage>, i: nat): nat
    requires i <= |s|
  {
    if i == 0 then 0 else Break(s, i - 1) + s[i - 1].duration
  }

  /** The target reached at breakpoint `i`; every schedule ramps from 0. */
  function Level(s: seq<Stage>, i: nat): nat
    requires i <= |s|
  {
    if i == 0 then 0 else s[i - 1].target
  }

  function End(s: seq<Stage>): nat {
    Break(s, |s|)
  }

  ghost predicate InStage(s: seq<Stage>, elapsed: nat, i: nat) {
    i < |s| && Break(s, i) <= elapsed < Break(s, i + 1)
  }

  /** The point `at` of the way through `span` ticks from `from` to `to`, as a weighted mean
      rounded down. */
  function Interpolate(from: nat, to: nat, at: nat, span: nat): int
    requires at < span
  {
    (from * (span - at) + to * at) / span
  }

  lemma InterpolateBounds(from: nat, to: nat, at: nat, span: nat)
    requires at < span
    ensures from <= to ==> from <= Interpolate(from, to, at, span) <= to
    ensures to <= from ==> to <= Interpolate(from, to, at, span) <= from
  {
    var lo, hi := if from <= to then from else to, if from <= to then to else from;
    WeightedMean(lo, hi, from, to, span - at, at);
    DivBounds(from * (span - at) + to * at, span, lo, hi);
  }

  lemma WeightedMean(lo: nat, hi: nat, a: nat, b: nat, v: nat, w: nat)
    requires lo <= a <= hi && lo <= b <= hi
    ensures lo * (v + w) <= a * v + b * w <= hi * (v + w)
  {
    ScaleMono(lo, a, v);
    ScaleMono(lo, b, w);
    ScaleMono(a, hi, v);
    ScaleMono(b, hi, w);
  }

  lemma ScaleMono(a: int, b: int, k: nat)
    requires a <= b
    ensures a * k <= b * k && k * a <= k * b
  {
  }

  lemma DivBounds(n: int, d: nat, lo: int, hi: int)
    requires d > 0 && lo * d <= n <= hi * d
    ensures lo <= n / d <= hi
  {
    var q := n / d;
    assert q * d <= n < (q + 1) * d;
    if q < lo {
      ScaleMono(q + 1, lo, d);
    } else if q > hi {
      ScaleMono(hi + 1, q, d);
    }
  }

  lemma DivMono(m: int, n: int, d: nat)
    requires d > 0 && m <= n
    ensures m / d <= n / d
  {
    var p, q := m / d, n / d;
    assert p * d <= m && n < (q + 1) * d;
    if p > q {
      ScaleMono(q + 1, p, d);
    }
  }

  // ---------------------------------------------------------------- the stage in force

  lemma {:induction false} BreaksIncrease(s: seq<Stage>, i: nat, j: nat)
    requires i <= j <= |s|
    ensures Break(s, i) <= Break(s, j)
    decreases j
  {
    if i < j {
      BreaksIncrease(s, i, j - 1);
    }
  }

  lemma StageIsUnique(s: seq<Stage>, elapsed: nat, i: nat, j: nat)
    requires InStage(s, elapsed, i) && InStage(s, elapsed, j)
    ensures i == j
  {
    if i < j {
      BreaksIncrease(s, i + 1, j);
    } else if j < i {
      BreaksIncrease(s, j + 1, i);
    }
  }

  lemma {:induction false} StageExists(s: seq<Stage>, elapsed: nat, n: nat) returns (i: nat)
    requires n <= |s| && elapsed < Break(s, n)
    ensures InStage(s, elapsed, i) && i < n
    decreases n
  {
    if Break(s, n - 1) <= elapsed {
      i := n - 1;
    } else {
      i := StageExists(s, elapsed, n - 1);
    }
  }

  lemma StageIffBeforeEnd(s: seq<Stage>, elapsed: nat)
    ensures (exists i :: InStage(s, elapsed, i)) <==> elapsed < End(s)
  {
    if elapsed < End(s) {
      var i := StageExists(s, elapsed, |s|);
    }
    if i: nat :| InStage(s, elapsed, i) {
      BreaksIncrease(s, i + 1, |s|);
    }
  }

  /** The one stage in force; a stage of no length never is. */
  ghost function CurrentStage(s: seq<Stage>, elapsed: nat): (i: nat)
    requires elapsed < End(s)
    ensures InStage(s, elapsed, i) && s[i].duration > 0
  {
    StageIffBeforeEnd(s, elapsed);
    var i :| InStage(s, elapsed, i);
    i
  }

  /** What the schedule prescribes before its end. */
  ghost function Prescribed(s: seq<Stage>, elapsed: nat): nat
    requires elapsed < End(s)
  {
    var i := CurrentStage(s, elapsed);
    InterpolateBounds(Level(s, i), Level(s, i + 1), elapsed - Break(s, i), s[i].duration);
    Interpolate(Level(s, i), Level(s, i + 1), elapsed - Break(s, i), s[i].duration)
  }

  ghost function TargetAt(s: seq<Stage>, elapsed: nat): nat {
    if elapsed < End(s) then Prescribed(s, elapsed) else 0
  }

  ghost function RateAt(s: seq<Stage>, elapsed: nat): nat {
    if elapsed < End(s) then Prescribed(s, elapsed) else Level(s, |s|)
  }

  // ---------------------------------------------------------------- the loops

  /** Rust's `as usize` on a real number: truncation toward zero, negatives to 0. */
  function AsUsize(x: real): nat {
    if x < 0.0 then 0 else x.Floor
  }

  lemma RealCancel(a: real, b: real, k: real)
    requires k > 0.0
    ensures a * k <= b * k ==> a <= b
    ensures a * k < b * k ==> a < b
  {
  }

  lemma CastMul(a: int, b: int)
    ensures (a * b) as real == a as real * b as real
  {
  }

  lemma QuotientBounds(n: nat, span: nat)
    requires span > 0
    ensures n / span >= 0
    ensures (n / span) as real * span as real <= n as real < (n / span + 1) as real * span as real
  {
    var q := n / span;
    assert q * span <= n < (q + 1) * span;
    CastMul(q, span);
    CastMul(q + 1, span);
  }

  lemma RealBetween(x: real, a: real, b: real, k: real)
    requires k > 0.0 && a * k <= x * k < b * k
    ensures a <= x < b
  {
    RealCancel(a, x, k);
    RealCancel(x, b, k);
  }

  lemma FloorBetween(x: real, q: nat)
    requires q as real <= x < (q + 1) as real
    ensures AsUsize(x) == q
  {
  }

  /** Over `real`, `x` rounds down to `n / span` as soon as `x * span` is `n`. */
  lemma FloorOfQuotient(x: real, n: nat, span: nat)
    requires span > 0 && x * span as real == n as real
    ensures AsUsize(x) == n / span
  {
    hide AsUsize;
    var q := n / span;
    QuotientBounds(n, span);
    RealBetween(x, q as real, (q + 1) as real, span as real);
    FloorBetween(x, q);
  }

  /** The loop's line on reals, scaled by the span. */
  lemma ScaledLine(from: real, to: real, at: real, span: real)
    requires span > 0.0
    ensures (from + (to - from) * (at / span)) * span == from * (span - at) + to * at
  {
    var progress := at / span;
    assert progress * span == at;
    calc {
      (from + (to - from) * progress) * span;
      from * span + (to - from) * (progress * span);
      from * span + (to - from) * at;
    }
  }

  /** The value one stage of the loops returns, computed over `real`. */
  function StageValue(prev: nat, target: nat, activeTime: nat, duration: nat, elapsed: nat): nat
    requires duration > 0
  {
    var progress := (elapsed as real - activeTime as real) / (duration as real);
    var diff := target as real - prev as real;
    AsUsize(prev as real + diff * progress)
  }

  /** The loop's arithmetic on reals is the interpolation on naturals. */
  lemma StageValueInterpolates(prev: nat, target: nat, activeTime: nat, duration: nat, elapsed: nat)
    requires activeTime <= elapsed < activeTime + duration
    ensures StageValue(prev, target, activeTime, duration, elapsed) == Interpolate(prev, target, elapsed - activeTime, duration)
  {
    var at := elapsed - activeTime;
    assert at as real == elapsed as real - activeTime as real;
    ScaledLine(prev as real, target as real, at as real, duration as real);
    CastMul(prev, duration - at);
    CastMul(target, at);
    FloorOfQuotient(prev as real + (target as real - prev as real) * (at as real / duration as real), prev * (duration - at) + target * at, duration);
  }

  method CalculateTarget(schedule: seq<Stage>, elapsed: nat) returns (target: nat)
    ensures target == TargetAt(schedule, elapsed)
  {
    var activeTime, prevTarget := 0, 0;
    for k := 0 to |schedule|
      invariant activeTime == Break(schedule, k) && prevTarget == Level(schedule, k)
      invariant activeTime <= elapsed
    {
      var stage := schedule[k];
      if elapsed < activeTime + stage.duration {
        StageFound(schedule, elapsed, k);
        StageValueInterpolates(prevTarget, stage.target, activeTime, stage.duration, elapsed);
        return StageValue(prevTarget, stage.target, activeTime, stage.duration, elapsed);
      }
      activeTime := activeTime + stage.duration;
      prevTarget := stage.target;
    }
    return 0;
  }

  method CalculateRate(schedule: seq<Stage>, elapsed: nat) returns (rate: nat)
    ensures rate == RateAt(schedule, elapsed)
  {
    var activeTime, prevRate := 0, 0;
    for k := 0 to |schedule|
      invariant activeTime == Break(schedule, k) && prevRate == Level(schedule, k)
      invariant activeTime <= elapsed
    {
      var stage := schedule[k];
      if elapsed < activeTime + stage.duration {
        StageFound(schedule, elapsed, k);
        StageValueInterpolates(prevRate, stage.target, activeTime, stage.duration, elapsed);
        return StageValue(prevRate, stage.target, activeTime, stage.duration, elapsed);
      }
      activeTime := activeTime + stage.duration;
      prevRate := stage.target;
    }
    return prevRate;
  }

  lemma StageFound(s: seq<Stage>, elapsed: nat, i: nat)
    requires InStage(s, elapsed, i)
    ensures elapsed < End(s) && CurrentStage(s, elapsed) == i
    ensures Prescribed(s, elapsed) == Interpolate(Level(s, i), Level(s, i + 1), elapsed - Break(s, i), s[i].duration)
  {
    StageIffBeforeEnd(s, elapsed);
    StageIsUnique(s, elapsed, i, CurrentStage(s, elapsed));
  }

  // ---------------------------------------------------------------- what the schedule promises

  /** The two loops agree until the end, and then give 0 and the last rate. */
  lemma TargetAndRateAgree(s: seq<Stage>, elapsed: nat)
    ensures elapsed < End(s) ==> TargetAt(s, elapsed) == RateAt(s, elapsed)
    ensures elapsed >= End(s) ==> TargetAt(s, elapsed) == 0 && RateAt(s, elapsed) == if s == [] then 0 else s[|s| - 1].target
  {
  }

  lemma QuotientIs(n: int, d: nat)
    requires d > 0
    ensures n / d * d <= n < (n / d + 1) * d
  {
  }

  /** Inside stage `i` the target is the exact point on the line between the stage's two end
      targets, rounded down: up ramps and down ramps alike. */
  lemma TargetIsOnTheLine(s: seq<Stage>, elapsed: nat, i: nat)
    requires InStage(s, elapsed, i)
    ensures var at, span := elapsed - Break(s, i), s[i].duration;
            var n := Level(s, i) * (span - at) + Level(s, i + 1) * at;
            && TargetAt(s, elapsed) * span <= n < (TargetAt(s, elapsed) + 1) * span
            && RateAt(s, elapsed) * span <= n < (RateAt(s, elapsed) + 1) * span
  {
    StageFound(s, elapsed, i);
    var at, span := elapsed - Break(s, i), s[i].duration;
    QuotientIs(Level(s, i) * (span - at) + Level(s, i + 1) * at, span);
  }

  lemma {:induction false} BreaksOfPrefix(s: seq<Stage>, more: seq<Stage>, i: nat)
    requires i <= |s|
    ensures Break(s + more, i) == Break(s, i) && Level(s + more, i) == Level(s, i)
    decreases i
  {
    if i > 0 {
      BreaksOfPrefix(s, more, i - 1);
    }
  }

  /** One more stage: nothing changes before it, it ramps from the last target to its own during
      its length, and after it the target is 0 and the rate its own. This says what every schedule
      prescribes at every time, stage by stage. */
  lemma OneMoreStage(s: seq<Stage>, last: Stage, elapsed: nat)
    ensures End([]) == 0 && End(s + [last]) == End(s) + last.duration
    ensures elapsed < End(s) ==>
              TargetAt(s + [last], elapsed) == TargetAt(s, elapsed) && RateAt(s + [last], elapsed) == RateAt(s, elapsed)
    ensures End(s) <= elapsed < End(s) + last.duration ==>
              var from, at := if s == [] then 0 else s[|s| - 1].target, elapsed - End(s);
              var n, target := from * (last.duration - at) + last.target * at, TargetAt(s + [last], elapsed);
              target * last.duration <= n < (target + 1) * last.duration && RateAt(s + [last], elapsed) == target
    ensures elapsed >= End(s) + last.duration ==> TargetAt(s + [last], elapsed) == 0 && RateAt(s + [last], elapsed) == last.target
  {
    var longer := s + [last];
    BreaksOfPrefix(s, [last], |s|);
    if elapsed < End(s) {
      var i := StageExists(s, elapsed, |s|);
      BreaksOfPrefix(s, [last], i);
      BreaksOfPrefix(s, [last], i + 1);
      StageFound(s, elapsed, i);
      StageFound(longer, elapsed, i);
    } else if elapsed < End(longer) {
      TargetIsOnTheLine(longer, elapsed, |s|);
    }
  }

  /** Between its breakpoints a stage stays between its two end targets and moves one way. */
  lemma MonotoneInStage(s: seq<Stage>, i: nat, t: nat, u: nat)
    requires InStage(s, t, i) && InStage(s, u, i) && t <= u
    ensures Level(s, i) <= Level(s, i + 1) ==> Level(s, i) <= TargetAt(s, t) <= TargetAt(s, u) <= Level(s, i + 1)
    ensures Level(s, i) >= Level(s, i + 1) ==> Level(s, i) >= TargetAt(s, t) >= TargetAt(s, u) >= Level(s, i + 1)
  {
    StageFound(s, t, i);
    StageFound(s, u, i);
    InterpolateBounds(Level(s, i), Level(s, i + 1), t - Break(s, i), s[i].duration);
    InterpolateBounds(Level(s, i), Level(s, i + 1), u - Break(s, i), s[i].duration);
    InterpolateMonotone(Level(s, i), Level(s, i + 1), t - Break(s, i), u - Break(s, i), s[i].duration);
  }

  lemma InterpolateMonotone(from: nat, to: nat, a: nat, b: nat, span: nat)
    requires a <= b < span
    ensures from <= to ==> Interpolate(from, to, a, span) <= Interpolate(from, to, b, span)
    ensures to <= from ==> Interpolate(from, to, b, span) <= Interpolate(from, to, a, span)
  {
    var m, n := from * (span - a) + to * a, from * (span - b) + to * b;
    assert n - m == (to - from) * (b - a);
    if from <= to {
      ScaleMono(0, to - from, b - a);
      DivMono(m, n, span);
    }
    if to <= from {
      ScaleMono(to - from, 0, b - a);
      DivMono(n, m, span);
    }
  }

  /** A stage with length starts exactly on the previous target. */
  lemma StageStartsOnPreviousTarget(s: seq<Stage>, i: nat)
    requires i < |s| && s[i].duration > 0
    ensures TargetAt(s, Break(s, i)) == Level(s, i)
  {
    StageFound(s, Break(s, i), i);
    var from, span := Level(s, i), s[i].duration;
    DivBounds(from * span, span, from, from);
  }

  lemma NeverAboveLargestTarget(s: seq<Stage>, elapsed: nat, bound: nat)
    requires forall i :: 0 <= i < |s| ==> s[i].target <= bound
    ensures TargetAt(s, elapsed) <= bound && RateAt(s, elapsed) <= bound
  {
    if elapsed < End(s) {
      var i := CurrentStage(s, elapsed);
      assert Level(s, i + 1) == s[i].target;
      InterpolateBounds(Level(s, i), Level(s, i + 1), elapsed - Break(s, i), s[i].duration);
    }
  }

  // ---------------------------------------------------------------- the two default schedules

  /** Legacy mode's default really is constant: its first stage has no length. */
  lemma LegacyDefaultIsConstant(duration: nat, workers: nat, elapsed: nat)
    ensures elapsed < duration ==> TargetAt([Stage(0, workers), Stage(duration, workers)], elapsed) == workers
  {
    var s := [Stage(0, workers), Stage(duration, workers)];
    assert Break(s, 1) == 0 && Break(s, 2) == duration;
    if elapsed < duration {
      StageFound(s, elapsed, 1);
      InterpolateBounds(workers, workers, elapsed, duration);
    }
  }

  /** The ramping-workers default is described as constant but climbs from 0, and meets the
      configured worker count only when that count is 0. */
  lemma RampingDefaultIsNotConstant(duration: nat, workers: nat, elapsed: nat)
    requires elapsed < duration
    ensures TargetAt([Stage(duration, workers)], elapsed) == workers * elapsed / duration
    ensures TargetAt([Stage(duration, workers)], elapsed) == workers <==> workers == 0
  {
    var s := [Stage(duration, workers)];
    assert Break(s, 0) == 0 && Break(s, 1) == duration;
    StageFound(s, elapsed, 0);
    assert 0 * (duration - elapsed) + workers * elapsed == workers * elapsed;
    if workers > 0 {
      ScaleMono(elapsed + 1, duration, workers);
      DivBounds(workers * elapsed, duration, 0, workers);
      assert workers * elapsed < workers * duration;
    }
  }
}
