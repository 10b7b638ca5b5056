/** The ramping-workers executor's control loop (src/engine/mod.rs). */
module RampingWorkers {
  import opened Schedule
  import opened WorkerPool

  /** The clock and stop-flag readings of one turn: the loop guard's, the stop check's, and the
      elapsed time the target is computed from. */
  datatype Turn = Turn(guard: nat, stopRequested: bool, elapsed: nat)

  class Controller {
    const schedule: seq<Stage>
    const duration: nat
    const pool: Pool
    var vus: seq<nat>  // the `vus` gauge, one value a turn

    ghost predicate Valid()
      reads this, pool, pool.active, pool.stopped
    {
      pool.Valid()
    }

    constructor (schedule: seq<Stage>, duration: nat)
      ensures Valid() && fresh(pool) && pool.active == [] && vus == []
      ensures this.schedule == schedule && this.duration == duration
    {
      this.schedule, this.duration, vus := schedule, duration, [];
      pool := new Pool();
    }

    /** One turn: whatever the list was, it ends with exactly the scheduled number of workers,
        the oldest ones kept; workers leave from the end only. */
    method Adjust(elapsed: nat)
      requires Valid()
      modifies this`vus, pool, pool.active
      ensures Valid()
      ensures forall i :: |old(pool.active)| <= i < |pool.active| ==> fresh(pool.active[i])
      ensures |pool.active| == TargetAt(schedule, elapsed)
      ensures vus == old(vus) + [|pool.active|]
      ensures forall i :: 0 <= i < |pool.active| && i < |old(pool.active)| ==> pool.active[i] == old(pool.active)[i]
      ensures |pool.stopped| >= |old(pool.stopped)|
      ensures forall i :: 0 <= i < |old(pool.stopped)| ==> pool.stopped[i] == old(pool.stopped)[i]
    {
      hide TargetAt;
      var targetWorkers := CalculateTarget(schedule, elapsed);
      var currentWorkers := |pool.active|;
      if currentWorkers < targetWorkers {
        pool.Spawn(targetWorkers - currentWorkers);
      } else if currentWorkers > targetWorkers {
        pool.StopDownTo(targetWorkers);
      }
      vus := vus + [|pool.active|];
    }

    /** The whole loop over the readings it takes, up to the first turn at which the time is up or
        a stop is requested: every turn before it shows the target of its own reading. */
    method Run(turns: seq<Turn>)
      requires Valid() && pool.active == [] && pool.stopped == [] && vus == []
      requires exists k :: 0 <= k < |turns| && (turns[k].guard >= duration || turns[k].stopRequested)
      modifies this`vus, pool
      ensures |vus| < |turns| && (turns[|vus|].guard >= duration || turns[|vus|].stopRequested)
      ensures forall i :: 0 <= i < |vus| ==> turns[i].guard < duration && !turns[i].stopRequested
      ensures forall i :: 0 <= i < |vus| ==> vus[i] == TargetAt(schedule, turns[i].elapsed)
      // nobody is left running, and every worker ever spawned is accounted for
      ensures forall i :: 0 <= i < |pool.active| ==> !pool.active[i].running
      ensures forall i :: 0 <= i < |pool.stopped| ==> !pool.stopped[i].running
      ensures pool.nextWorkerId == |pool.active| + |pool.stopped| + 1
      ensures |pool.active| == if vus == [] then 0 else vus[|vus| - 1]
    {
      var k := 0;
      while turns[k].guard < duration
        invariant 0 <= k < |turns| && Valid()
        invariant forall i :: 0 <= i < k ==> turns[i].guard < duration && !turns[i].stopRequested
        invariant |vus| == k
        invariant forall i :: 0 <= i < k ==> vus[i] == TargetAt(schedule, turns[i].elapsed)
        invariant |pool.active| == if k == 0 then 0 else vus[k - 1]
        invariant forall i :: 0 <= i < |pool.active| ==> fresh(pool.active[i])
        decreases |turns| - k
      {
        if turns[k].stopRequested {
          break;
        }
        Adjust(turns[k].elapsed);
        k := k + 1;
      }
      pool.StopAll();
    }
  }
}
