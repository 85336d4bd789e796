/**
 * The job ring of a client (mining_state.rs): 300 slots, each holding a job and its id.
 * It refines an unbounded log of all jobs ever added.
 */
module JobRing {
  import opened Util

  const MAX_JOBS: nat := 300

  function Slot(id: nat): nat {
    id % 300
  }

  /** Lookup in the unbounded log, restricted to the last `MAX_JOBS` jobs. Ids start at 1. */
  function Recent<Job>(log: seq<Job>, id: nat): Option<Job> {
    if 1 <= id <= |log| && |log| < id + 300 then Some(log[id - 1]) else None
  }

  /** Each slot holds the recent job with that slot number, under its own id. */
  ghost predicate RingOf<Job>(jobs: map<nat, Job>, jobIds: map<nat, nat>, log: seq<Job>) {
    && jobs.Keys == jobIds.Keys
    && (forall slot :: slot in jobIds ==>
          Slot(jobIds[slot]) == slot && Recent(log, jobIds[slot]) == Some(jobs[slot]))
    && (forall id: nat :: Recent(log, id).Some? ==> Slot(id) in jobIds && jobIds[Slot(id)] == id)
  }

  /** Adding a job moves the window by one: the new id enters, the id 300 below leaves. */
  lemma WindowMoves<Job>(log: seq<Job>, job: Job, id: nat)
    ensures Recent(log + [job], id)
         == if id == |log| + 1 then Some(job)
            else if id + 300 == |log| + 1 then None
            else Recent(log, id)
  {
  }

  lemma SlotFacts(id: nat, i: nat)
    ensures Slot(id + 300) == Slot(id)
    ensures i <= id < i + 300 && Slot(i) == Slot(id) ==> i == id
  {
  }

  lemma RingExtends<Job>(jobs: map<nat, Job>, jobIds: map<nat, nat>, log: seq<Job>, job: Job)
    requires RingOf(jobs, jobIds, log)
    ensures var id := |log| + 1;
            RingOf(jobs[Slot(id) := job], jobIds[Slot(id) := id], log + [job])
  {
    hide Slot, Recent;
    var id := |log| + 1;
    var jobs', jobIds', log' := jobs[Slot(id) := job], jobIds[Slot(id) := id], log + [job];
    WindowMoves(log, job, id);
    forall slot | slot in jobIds'
      ensures Slot(jobIds'[slot]) == slot && Recent(log', jobIds'[slot]) == Some(jobs'[slot])
    {
      if slot != Slot(id) {
        WindowMoves(log, job, jobIds[slot]);
        SlotFacts(jobIds[slot], 0);
      }
    }
    forall i: nat | Recent(log', i).Some?
      ensures Slot(i) in jobIds' && jobIds'[Slot(i)] == i
    {
      WindowMoves(log, job, i);
      InWindow(log, i);
      SlotFacts(id, i);
    }
  }

  lemma InWindow<Job>(log: seq<Job>, i: nat)
    ensures Recent(log, i).Some? ==> 1 <= i <= |log| < i + 300
  {
  }

  class MiningState<Job> {
    var jobs: map<nat, Job>
    var jobIds: map<nat, nat>
    var jobCounter: nat
    /** Every job added so far, oldest first. */
    ghost var log: seq<Job>

    ghost predicate Valid()
      reads this
    {
      jobCounter == |log| && RingOf(jobs, jobIds, log)
    }

    constructor ()
      ensures Valid() && log == []
    {
      jobs, jobIds, jobCounter, log := map[], map[], 0, [];
    }

    method AddJob(job: Job) returns (id: nat)
      requires Valid()
      modifies this
      ensures Valid() && log == old(log) + [job] && id == |log|
    {
      RingExtends(jobs, jobIds, log, job);
      jobCounter := jobCounter + 1;
      id := jobCounter;
      var slot := id % MAX_JOBS;
      jobs := jobs[slot := job];
      jobIds := jobIds[slot := id];
      log := log + [job];
    }

    /** A job is found exactly when its id is one of the last 300, and it is the job added under that id. */
    method GetJob(id: nat) returns (r: Option<Job>)
      requires Valid()
      ensures r == Recent(log, id)
    {
      var slot := id % MAX_JOBS;
      if slot !in jobIds || jobIds[slot] != id {
        return None;
      }
      return Some(jobs[slot]);
    }
  }
}
