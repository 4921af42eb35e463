/** A job's checklist of tasks: who may tick tasks, what ticking a task
    writes, and the roll-up that marks the job completed once every task is
    done. The backend writes are steps that succeed or fail, given as
    parameters; so are the two timestamps the handler takes from the clock. */
module TaskChecklist {
  import opened Common
  import opened Records
  import Lists

  /** `canMarkTasks`: only the service provider the job is assigned to. */
  predicate CanMarkTasks(role: Role, userId: UserId, providerId: Option<UserId>)
    ensures CanMarkTasks(role, userId, providerId) ==> role == ServiceProvider && providerId.Some?
    ensures CanMarkTasks(role, userId, providerId) ==> providerId.value == userId
  {
    role == ServiceProvider && providerId == Some(userId)
  }

  /** Nobody may tick the tasks of an unassigned job, and of two users who
      may tick the tasks of the same job, both are the same user. */
  lemma OnlyTheAssignedProvider(role: Role, role': Role, u: UserId, u': UserId, providerId: Option<UserId>)
    ensures providerId.None? ==> !CanMarkTasks(role, u, providerId)
    ensures role != ServiceProvider ==> !CanMarkTasks(role, u, providerId)
    ensures CanMarkTasks(role, u, providerId) && CanMarkTasks(role', u', providerId) ==> u == u'
  {
  }

  /** The values a task update writes to a row: `is_done`, and
      `completed_at`/`completed_by` set when that task becomes done and
      cleared when it becomes not done. */
  function Stamped(t: Task, isNowDone: bool, userId: UserId, at: Timestamp): (r: Task)
    ensures r.id == t.id && r.category == t.category && r.description == t.description
    ensures r.isDone == isNowDone
    ensures isNowDone ==> r.completedAt == Some(at) && r.completedBy == Some(userId)
    ensures !isNowDone ==> r.completedAt.None? && r.completedBy.None?
  {
    t.(isDone := isNowDone,
       completedAt := if isNowDone then Some(at) else None,
       completedBy := if isNowDone then Some(userId) else None)
  }

  /** Task rows after `update(...).eq('id', id)`. */
  function WriteToggle(tasks: seq<Task>, id: TaskId, isNowDone: bool, userId: UserId, at: Timestamp): (r: seq<Task>)
    ensures |r| == |tasks|
    ensures forall i :: 0 <= i < |r| ==>
              r[i].id == tasks[i].id && r[i].isDone == (if tasks[i].id == id then isNowDone else tasks[i].isDone)
  {
    Lists.UpdateWhere(tasks, TaskKey, id, (t: Task) => Stamped(t, isNowDone, userId, at))
  }

  /** `updatedTasks`: the component's own copy, with only `is_done`
      changed. */
  function LocalToggle(tasks: seq<Task>, id: TaskId, isNowDone: bool): (r: seq<Task>)
    ensures |r| == |tasks|
    ensures forall i :: 0 <= i < |r| ==> r[i] == if tasks[i].id == id then tasks[i].(isDone := isNowDone) else tasks[i]
  {
    Lists.UpdateWhere(tasks, TaskKey, id, (t: Task) => t.(isDone := isNowDone))
  }

  /** The write touches only the rows with the toggled id, and leaves each of
      them with the new `is_done`. */
  lemma WriteToggleTouchesOnlyTarget(tasks: seq<Task>, id: TaskId, isNowDone: bool, userId: UserId, at: Timestamp)
    ensures var r := WriteToggle(tasks, id, isNowDone, userId, at);
            && |r| == |tasks|
            && (forall i :: 0 <= i < |tasks| && tasks[i].id != id ==> r[i] == tasks[i])
            && (forall i :: 0 <= i < |tasks| && tasks[i].id == id ==> r[i] == Stamped(tasks[i], isNowDone, userId, at))
  {
  }

  /** The roll-up test on the component's copy agrees with the rows the
      write leaves: stamping does not change `is_done`. */
  lemma LocalCopyAgreesWithRows(tasks: seq<Task>, id: TaskId, isNowDone: bool, userId: UserId, at: Timestamp)
    ensures AllDone(LocalToggle(tasks, id, isNowDone)) <==> AllDone(WriteToggle(tasks, id, isNowDone, userId, at))
  {
    var l, w := LocalToggle(tasks, id, isNowDone), WriteToggle(tasks, id, isNowDone, userId, at);
    assert forall i :: 0 <= i < |tasks| ==> l[i].isDone == w[i].isDone;
  }

  /** Marking a task done completes the list exactly when every task with
      another id is done already. */
  lemma CompletingTheLastTask(tasks: seq<Task>, id: TaskId)
    ensures AllDone(LocalToggle(tasks, id, true)) <==> forall i :: 0 <= i < |tasks| && tasks[i].id != id ==> tasks[i].isDone
  {
    var l := LocalToggle(tasks, id, true);
    assert forall i :: 0 <= i < |tasks| ==> l[i].isDone == (tasks[i].id == id || tasks[i].isDone);
  }

  /** Undoing a task that is in the list never leaves every task done, so the
      roll-up never runs on an undo. */
  lemma UndoNeverCompletes(tasks: seq<Task>, k: nat)
    requires k < |tasks|
    ensures !AllDone(LocalToggle(tasks, tasks[k].id, false))
  {
    var l := LocalToggle(tasks, tasks[k].id, false);
    assert !l[k].isDone;
  }

  /** Toggling a task that is not done, and then toggling it back, restores
      the rows exactly. */
  lemma ToggleTwiceRestores(tasks: seq<Task>, id: TaskId, userId: UserId, at: Timestamp, at': Timestamp)
    requires forall i :: 0 <= i < |tasks| && tasks[i].id == id
               ==> !tasks[i].isDone && tasks[i].completedAt.None? && tasks[i].completedBy.None?
    ensures WriteToggle(WriteToggle(tasks, id, true, userId, at), id, false, userId, at') == tasks
  {
    var once := WriteToggle(tasks, id, true, userId, at);
    var twice := WriteToggle(once, id, false, userId, at');
    assert forall i :: 0 <= i < |tasks| ==> once[i].id == tasks[i].id;
    assert forall i :: 0 <= i < |tasks| ==> twice[i] == tasks[i];
  }

  /** What the checklist works with between two clicks: the job's
      `job_tasks` rows in the database, the `tasks` the component shows (the
      list `refreshTasks` last read back), the job row's `status` and
      `job_completed_at`, and how many refreshes have run. */
  datatype State = State(rows: seq<Task>, tasks: seq<Task>, status: Status, jobCompletedAt: Option<Timestamp>,
                         refreshes: nat)

  /** The shown list is the rows, as after a refresh that succeeded. */
  predicate InSync(s: State) {
    s.tasks == s.rows
  }

  /** The toasts a toggle raises, in order; `RefreshFailed` is the toast of
      the refresh `fetchTasks` runs. */
  datatype Notice = UpdateFailed | TaskCompleted | TaskMarkedNotDone | JobComplete | RefreshFailed

  /** `handleToggle(tasks[k])`: write that task's row; on success, when every
      task of the updated copy is done, write `status: 'completed'` and
      `job_completed_at` to the job row, then refresh. Nothing reverts the
      job when a task is undone. The result of the job write is not checked:
      its toast is raised whether or not it succeeded. The refresh replaces
      the shown list with the rows when it succeeds and keeps the old list
      when it fails. */
  function Toggle(s: State, k: nat, userId: UserId, taskAt: Timestamp, jobAt: Timestamp,
                  taskWriteOk: bool, jobWriteOk: bool, refreshOk: bool): (r: (State, seq<Notice>))
    requires k < |s.tasks|
    ensures !taskWriteOk ==> r == (s, [UpdateFailed])
    ensures taskWriteOk ==> && r.0.refreshes == s.refreshes + 1
                            && r.0.rows == WriteToggle(s.rows, s.tasks[k].id, !s.tasks[k].isDone, userId, taskAt)
                            && r.0.tasks == (if refreshOk then r.0.rows else s.tasks)
                            && (RefreshFailed in r.1 <==> !refreshOk)
                            && UpdateFailed !in r.1
    ensures r.0.status == s.status || r.0.status == Completed
  {
    if !taskWriteOk then (s, [UpdateFailed])
    else
      var task := s.tasks[k];
      var isNowDone := !task.isDone;
      var rows := WriteToggle(s.rows, task.id, isNowDone, userId, taskAt);
      var allTasksDone := AllDone(LocalToggle(s.tasks, task.id, isNowDone));
      var first := if isNowDone then TaskCompleted else TaskMarkedNotDone;
      var shown := if refreshOk then rows else s.tasks;
      var last := if refreshOk then [] else [RefreshFailed];
      if allTasksDone then
        var job := if jobWriteOk then (Completed, Some(jobAt)) else (s.status, s.jobCompletedAt);
        (State(rows, shown, job.0, job.1, s.refreshes + 1), [first, JobComplete] + last)
      else
        (State(rows, shown, s.status, s.jobCompletedAt, s.refreshes + 1), [first] + last)
  }

  /** A toggle keeps the shown list in step with the rows exactly when its
      refresh succeeds (or nothing was written). */
  lemma ToggleKeepsSync(s: State, k: nat, userId: UserId, taskAt: Timestamp, jobAt: Timestamp,
                        taskWriteOk: bool, jobWriteOk: bool, refreshOk: bool)
    requires k < |s.tasks| && InSync(s)
    ensures InSync(Toggle(s, k, userId, taskAt, jobAt, taskWriteOk, jobWriteOk, refreshOk).0)
            <==> !taskWriteOk || refreshOk
  {
    if taskWriteOk && !refreshOk {
      var rows := WriteToggle(s.rows, s.tasks[k].id, !s.tasks[k].isDone, userId, taskAt);
      WriteToggleTouchesOnlyTarget(s.rows, s.tasks[k].id, !s.tasks[k].isDone, userId, taskAt);
      assert rows[k].isDone != s.tasks[k].isDone;
    }
  }

  /** After a refresh that fails, the box still shows the old state, so a
      second click writes the same value again instead of undoing the first
      one. */
  lemma StaleClickRepeatsWrite(s: State, k: nat, userId: UserId, taskAt: Timestamp, taskAt': Timestamp,
                               jobAt: Timestamp, jobAt': Timestamp, jobWriteOk: bool, jobWriteOk': bool,
                               refreshOk': bool)
    requires k < |s.tasks| && InSync(s)
    ensures var once := Toggle(s, k, userId, taskAt, jobAt, true, jobWriteOk, false).0;
            var twice := Toggle(once, k, userId, taskAt', jobAt', true, jobWriteOk', refreshOk').0;
            && once.tasks[k].isDone == s.tasks[k].isDone
            && once.rows[k].isDone == twice.rows[k].isDone == !s.tasks[k].isDone
  {
    var isNowDone := !s.tasks[k].isDone;
    var once := Toggle(s, k, userId, taskAt, jobAt, true, jobWriteOk, false).0;
    WriteToggleTouchesOnlyTarget(s.rows, s.tasks[k].id, isNowDone, userId, taskAt);
    assert once.tasks == s.tasks;
    WriteToggleTouchesOnlyTarget(once.rows, s.tasks[k].id, isNowDone, userId, taskAt');
  }

  /** Once completed, a job stays completed whatever is toggled. */
  lemma CompletedIsSticky(s: State, k: nat, userId: UserId, taskAt: Timestamp, jobAt: Timestamp,
                          taskWriteOk: bool, jobWriteOk: bool, refreshOk: bool)
    requires k < |s.tasks| && s.status == Completed
    ensures Toggle(s, k, userId, taskAt, jobAt, taskWriteOk, jobWriteOk, refreshOk).0.status == Completed
  {
  }

  /** Ticking the last open task with both writes succeeding completes the
      job and stamps `job_completed_at`; every row is then done. */
  lemma LastTaskCompletesJob(s: State, k: nat, userId: UserId, taskAt: Timestamp, jobAt: Timestamp, refreshOk: bool)
    requires k < |s.tasks| && InSync(s) && !s.tasks[k].isDone
    requires forall i :: 0 <= i < |s.tasks| && s.tasks[i].id != s.tasks[k].id ==> s.tasks[i].isDone
    ensures var r := Toggle(s, k, userId, taskAt, jobAt, true, true, refreshOk);
            && r.0.status == Completed && r.0.jobCompletedAt == Some(jobAt)
            && AllDone(r.0.rows)
            && r.1 == [TaskCompleted, JobComplete] + (if refreshOk then [] else [RefreshFailed])
  {
    CompletingTheLastTask(s.tasks, s.tasks[k].id);
    LocalCopyAgreesWithRows(s.tasks, s.tasks[k].id, true, userId, taskAt);
  }

  /** While some task other than the toggled one is open, the job row is not
      written at all. */
  lemma OpenTaskLeavesJobAlone(s: State, k: nat, userId: UserId, taskAt: Timestamp, jobAt: Timestamp,
                               taskWriteOk: bool, jobWriteOk: bool, refreshOk: bool, j: nat)
    requires k < |s.tasks| && j < |s.tasks|
    requires s.tasks[j].id != s.tasks[k].id && !s.tasks[j].isDone
    ensures var r := Toggle(s, k, userId, taskAt, jobAt, taskWriteOk, jobWriteOk, refreshOk);
            r.0.status == s.status && r.0.jobCompletedAt == s.jobCompletedAt
  {
    var l := LocalToggle(s.tasks, s.tasks[k].id, !s.tasks[k].isDone);
    assert !l[j].isDone;
  }

  /** Undoing a task of a completed job leaves the job `completed` with a
      row that is not done: the client keeps no "completed exactly when all
      tasks are done" invariant. */
  lemma UndoKeepsJobCompleted(s: State, k: nat, userId: UserId, taskAt: Timestamp, jobAt: Timestamp,
                              jobWriteOk: bool, refreshOk: bool)
    requires k < |s.tasks| && InSync(s) && s.tasks[k].isDone && s.status == Completed
    ensures var r := Toggle(s, k, userId, taskAt, jobAt, true, jobWriteOk, refreshOk);
            && r.0.status == Completed
            && !AllDone(r.0.rows)
            && r.1 == [TaskMarkedNotDone] + (if refreshOk then [] else [RefreshFailed])
  {
    UndoNeverCompletes(s.tasks, k);
    var rows := WriteToggle(s.rows, s.tasks[k].id, false, userId, taskAt);
    assert !rows[k].isDone;
  }

  /** The checklist component. Its fields are the rows `handleToggle`
      writes, the `tasks` it shows and the job row it may complete. */
  class Checklist {
    const jobId: JobId
    const userId: UserId
    const userRole: Role
    const providerId: Option<UserId>
    var rows: seq<Task>
    var tasks: seq<Task>
    var status: Status
    var jobCompletedAt: Option<Timestamp>
    var refreshes: nat

    function Current(): State
      reads this
    {
      State(rows, tasks, status, jobCompletedAt, refreshes)
    }

    /** The component starts from the fetched rows. */
    constructor (jobId: JobId, userId: UserId, userRole: Role, providerId: Option<UserId>,
                 tasks: seq<Task>, status: Status, jobCompletedAt: Option<Timestamp>)
      ensures this.jobId == jobId && this.userId == userId
      ensures this.userRole == userRole && this.providerId == providerId
      ensures Current() == State(tasks, tasks, status, jobCompletedAt, 0) && InSync(Current())
    {
      this.jobId := jobId;
      this.userId := userId;
      this.userRole := userRole;
      this.providerId := providerId;
      this.rows := tasks;
      this.tasks := tasks;
      this.status := status;
      this.jobCompletedAt := jobCompletedAt;
      this.refreshes := 0;
    }

    /** `handleToggle(tasks[k])`, step by step. */
    method HandleToggle(k: nat, taskAt: Timestamp, jobAt: Timestamp, taskWriteOk: bool, jobWriteOk: bool,
                        refreshOk: bool)
      returns (notices: seq<Notice>)
      requires k < |tasks|
      modifies this
      ensures (Current(), notices) == Toggle(old(Current()), k, userId, taskAt, jobAt, taskWriteOk, jobWriteOk, refreshOk)
    {
      var task := tasks[k];
      var isNowDone := !task.isDone;
      if !taskWriteOk {
        notices := [UpdateFailed];
        return;
      }
      var first := if isNowDone then TaskCompleted else TaskMarkedNotDone;
      rows := WriteToggle(rows, task.id, isNowDone, userId, taskAt);
      var updatedTasks := LocalToggle(tasks, task.id, isNowDone);
      var allTasksDone := AllDone(updatedTasks);
      var last := if refreshOk then [] else [RefreshFailed];
      if allTasksDone {
        if jobWriteOk {
          status := Completed;
          jobCompletedAt := Some(jobAt);
        }
        notices := [first, JobComplete] + last;
      } else {
        notices := [first] + last;
      }
      refreshes := refreshes + 1;
      if refreshOk {
        tasks := rows;
      }
    }

    /** A click on the button of `tasks[k]`: the button is disabled unless the
        user may tick tasks, and then the click does nothing. */
    method Click(k: nat, taskAt: Timestamp, jobAt: Timestamp, taskWriteOk: bool, jobWriteOk: bool, refreshOk: bool)
      returns (notices: seq<Notice>)
      requires k < |tasks|
      modifies this
      ensures !CanMarkTasks(userRole, userId, providerId) ==> Current() == old(Current()) && notices == []
      ensures CanMarkTasks(userRole, userId, providerId)
              ==> (Current(), notices)
                  == Toggle(old(Current()), k, userId, taskAt, jobAt, taskWriteOk, jobWriteOk, refreshOk)
    {
      if !CanMarkTasks(userRole, userId, providerId) {
        return [];
      }
      notices := HandleToggle(k, taskAt, jobAt, taskWriteOk, jobWriteOk, refreshOk);
    }
  }
}
