/** The stack of workers both controllers scale (src/engine/mod.rs): each worker is a stop flag
    shared with its coroutine; new workers are pushed, and stopped ones are popped. */
module WorkerPool {

  class Worker {
    const id: nat
    var running: bool

    constructor (id: nat)
      ensures this.id == id && running
    {
      this.id := id;
      running := true;
    }
  }

  class Pool {
    var active: seq<Worker>
    var nextWorkerId: nat
    ghost var stopped: seq<Worker>  // popped workers, in the order they were stopped

    ghost predicate Valid()
      reads this, active, stopped
    {
      // every id from 1 up to the next one was given to exactly one worker
      && nextWorkerId == |active| + |stopped| + 1
      && (forall i :: 0 <= i < |active| ==> 1 <= active[i].id < nextWorkerId && active[i].running)
      && (forall i :: 0 <= i < |stopped| ==> 1 <= stopped[i].id < nextWorkerId && !stopped[i].running)
      && (forall i, j :: 0 <= i < j < |active| ==> active[i].id < active[j].id)
      && (forall i, j :: 0 <= i < j < |stopped| ==> stopped[i].id != stopped[j].id)
      && (forall i, j :: 0 <= i < |active| && 0 <= j < |stopped| ==> active[i].id != stopped[j].id)
    }

    constructor ()
      ensures Valid() && active == [] && stopped == [] && nextWorkerId == 1
    {
      active, nextWorkerId, stopped := [], 1, [];
    }

    /** Pushes one more worker, running, under the next id. */
    method Push()
      requires Valid()
      modifies this
      ensures Valid() && stopped == old(stopped) && nextWorkerId == old(nextWorkerId) + 1
      ensures |active| == |old(active)| + 1 && active[..|old(active)|] == old(active)
      ensures var worker := active[|old(active)|]; fresh(worker) && worker.running && worker.id == old(nextWorkerId)
    {
      var worker := new Worker(nextWorkerId);
      active := active + [worker];
      nextWorkerId := nextWorkerId + 1;
    }

    method Spawn(count: nat)
      requires Valid()
      modifies this
      ensures Valid() && stopped == old(stopped)
      ensures |active| == |old(active)| + count
      ensures forall i :: 0 <= i < |old(active)| ==> active[i] == old(active)[i]
      ensures forall i :: |old(active)| <= i < |active| ==> fresh(active[i])
      ensures forall i :: |old(active)| <= i < |active| ==> active[i].running && active[i].id == old(nextWorkerId) + (i - |old(active)|)
    {
      for k := 0 to count
        invariant Valid() && stopped == old(stopped) && nextWorkerId == old(nextWorkerId) + k
        invariant |active| == |old(active)| + k && active[..|old(active)|] == old(active)
        invariant forall i :: |old(active)| <= i < |active| ==>
                    fresh(active[i]) && active[i].id == old(nextWorkerId) + (i - |old(active)|)
      {
        ghost var before := active;
        Push();
        assert forall i :: 0 <= i < |before| ==> active[i] == active[..|before|][i] == before[i];
      }
      assert forall i :: 0 <= i < |old(active)| ==> active[i] == active[..|old(active)|][i];
    }

    /** Pops the last worker and tells it to stop. */
    method StopLast()
      requires Valid() && active != []
      modifies this, active
      ensures Valid() && nextWorkerId == old(nextWorkerId)
      ensures active == old(active)[..|old(active)| - 1]
      ensures stopped == old(stopped) + [old(active)[|old(active)| - 1]]
      ensures !old(active)[|old(active)| - 1].running && forall i :: 0 <= i < |active| ==> active[i].running
    {
      var worker := active[|active| - 1];
      active := active[..|active| - 1];
      worker.running := false;
      stopped := stopped + [worker];
    }

    method StopDownTo(target: nat)
      requires Valid()
      modifies this, active
      ensures Valid() && nextWorkerId == old(nextWorkerId)
      ensures active == if target < |old(active)| then old(active)[..target] else old(active)
      ensures |stopped| >= |old(stopped)|
      ensures forall i :: 0 <= i < |old(stopped)| ==> stopped[i] == old(stopped)[i]
      ensures forall i :: 0 <= i < |old(active)| ==> (old(active)[i].running <==> i < |active|)
    {
      while target < |active| && active != []
        invariant Valid() && nextWorkerId == old(nextWorkerId)
        invariant |active| <= |old(active)| && active == old(active)[..|active|]
        invariant target < |old(active)| ==> target <= |active|
        invariant target >= |old(active)| ==> active == old(active)
        invariant |stopped| >= |old(stopped)|
        invariant forall i :: 0 <= i < |old(stopped)| ==> stopped[i] == old(stopped)[i]
        invariant forall i :: |active| <= i < |old(active)| ==> !old(active)[i].running
      {
        StopLast();
      }
    }

    /** End of the run: every remaining flag is cleared, and nobody is popped. */
    method StopAll()
      requires Valid()
      modifies active
      ensures active == old(active) && stopped == old(stopped)
      ensures forall i :: 0 <= i < |active| ==> !active[i].running
      ensures forall i :: 0 <= i < |stopped| ==> !stopped[i].running
    {
      for k := 0 to |active|
        invariant forall i :: 0 <= i < k ==> !active[i].running
        invariant forall i :: 0 <= i < |stopped| ==> !stopped[i].running
      {
        active[k].running := false;
      }
    }
  }
}
