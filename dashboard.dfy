/** The customer's dashboard: the list of the customer's own jobs, fetched
    newest first, and the three callbacks that keep it in step with what the
    forms and the modal do. */
module Dashboard {
  import opened Common
  import opened Records
  import Lists

  /** Removing a job just added, by its id, gives back the list as it was,
      provided no job in it had that id. */
  lemma RemoveUndoesAdd(jobs: seq<Job>, newJob: Job)
    requires forall i :: 0 <= i < |jobs| ==> jobs[i].id != newJob.id
    ensures Lists.Without([newJob] + jobs, JobKey, newJob.id) == jobs
  {
    Lists.WithoutConcat([newJob], jobs, JobKey, newJob.id);
    Lists.WithoutAbsent(jobs, JobKey, newJob.id);
    assert Lists.Without([newJob], JobKey, newJob.id) == [];
  }

  /** Replacing a job and then removing it is the same as removing it. */
  lemma {:induction false} RemoveAfterUpdate(jobs: seq<Job>, updated: Job)
    ensures Lists.Without(Lists.UpdateWhere(jobs, JobKey, updated.id, (j: Job) => updated), JobKey, updated.id)
         == Lists.Without(jobs, JobKey, updated.id)
  {
    var f := (j: Job) => updated;
    if jobs != [] {
      var u := Lists.UpdateWhere(jobs, JobKey, updated.id, f);
      assert u == [u[0]] + u[1..];
      assert u[1..] == Lists.UpdateWhere(jobs[1..], JobKey, updated.id, f);
      assert jobs == [jobs[0]] + jobs[1..];
      Lists.WithoutConcat([u[0]], u[1..], JobKey, updated.id);
      Lists.WithoutConcat([jobs[0]], jobs[1..], JobKey, updated.id);
      RemoveAfterUpdate(jobs[1..], updated);
      assert Lists.Without([u[0]], JobKey, updated.id) == Lists.Without([jobs[0]], JobKey, updated.id);
    }
  }

  /** Replacing a job keeps every position's id, so the list's order and
      membership by id are unchanged. */
  lemma UpdateKeepsIds(jobs: seq<Job>, updated: Job)
    ensures var u := Lists.UpdateWhere(jobs, JobKey, updated.id, (j: Job) => updated);
            |u| == |jobs| && forall i :: 0 <= i < |jobs| ==> u[i].id == jobs[i].id
  {
  }

  class Dashboard {
    const userId: UserId
    var jobs: seq<Job>
    var loading: bool

    constructor (userId: UserId)
      ensures this.userId == userId && jobs == [] && loading
    {
      this.userId := userId;
      jobs := [];
      loading := true;
    }

    /** `fetchJobs`: `result` is the customer's jobs as the query returns
        them, or `None` on error, in which case the list is kept. */
    method FetchJobs(result: Option<seq<Job>>)
      modifies this
      ensures jobs == if result.Some? then result.value else old(jobs)
      ensures !loading
    {
      loading := true;
      if result.Some? {
        jobs := result.value;
      }
      loading := false;
    }

    /** The effect on first render: jobs are fetched only for a user with an
        id. */
    method Mount(result: Option<seq<Job>>)
      modifies this
      ensures userId == "" ==> jobs == old(jobs) && loading == old(loading)
      ensures userId != "" ==> jobs == (if result.Some? then result.value else old(jobs)) && !loading
    {
      if userId != "" {
        FetchJobs(result);
      }
    }

    /** `addJobToList`: the new job goes first. */
    method AddJobToList(newJob: Job)
      modifies this`jobs
      ensures jobs == [newJob] + old(jobs)
    {
      jobs := [newJob] + jobs;
    }

    /** `removeJobFromList` */
    method RemoveJobFromList(deletedJobId: JobId)
      modifies this`jobs
      ensures jobs == Lists.Without(old(jobs), JobKey, deletedJobId)
    {
      jobs := Lists.Without(jobs, JobKey, deletedJobId);
    }

    /** `updateJobInList`: every job with the updated job's id is replaced by
        it. */
    method UpdateJobInList(updatedJob: Job)
      modifies this`jobs
      ensures jobs == Lists.UpdateWhere(old(jobs), JobKey, updatedJob.id, (j: Job) => updatedJob)
    {
      jobs := Lists.UpdateWhere(jobs, JobKey, updatedJob.id, (j: Job) => updatedJob);
    }
  }
}
