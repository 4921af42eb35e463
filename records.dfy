/** The rows of the `jobs` and `job_tasks` tables as the client reads them,
    and the user's role. */
module Records {
  import opened Common
  import Text

  /** The `role` of the signed-in user's profile. `OtherRole` stands for any
      value besides the two the client tests for. */
  datatype Role = Customer | ServiceProvider | OtherRole

  /** The `status` column. The client writes `'in_progress'` and
      `'completed'` and tests only for `'completed'`; `Listed` stands for the
      value a new job has and for any other value. */
  datatype Status = Listed | InProgress | Completed

  /** A `job_tasks` row (or a task being edited before it is saved). */
  datatype Task = Task(
    id: TaskId,
    category: string,
    description: string,
    isDone: bool,
    completedAt: Option<Timestamp>,
    completedBy: Option<UserId>)

  /** A `jobs` row. `jobTasks` is the embedded `job_tasks` list when the
      query selected it. */
  datatype Job = Job(
    id: JobId,
    clientId: UserId,
    providerId: Option<UserId>,
    title: string,
    description: Option<string>,
    location: Option<string>,
    date: Option<string>,
    time: Option<string>,
    budget: Option<real>,
    status: Status,
    jobCompletedAt: Option<Timestamp>,
    jobTasks: Option<seq<Task>>)

  function TaskKey(t: Task): TaskId { t.id }

  function JobKey(j: Job): JobId { j.id }

  /** `tasks.every(t => t.is_done)`; true of the empty list. */
  predicate AllDone(tasks: seq<Task>) {
    forall i :: 0 <= i < |tasks| ==> tasks[i].isDone
  }

  /** `tasks.some(t => t.is_done)` */
  predicate SomeDone(tasks: seq<Task>) {
    exists i :: 0 <= i < |tasks| && tasks[i].isDone
  }

  /** `tasks.filter(t => t.is_done).length` */
  function CountDone(tasks: seq<Task>): (n: nat)
    ensures n <= |tasks|
  {
    if tasks == [] then 0 else (if tasks[0].isDone then 1 else 0) + CountDone(tasks[1..])
  }

  /** Every task is counted as done exactly when every task is done. */
  lemma {:induction false} CountDoneAll(tasks: seq<Task>)
    ensures CountDone(tasks) == |tasks| <==> AllDone(tasks)
  {
    if tasks != [] {
      CountDoneAll(tasks[1..]);
      assert AllDone(tasks) <==> tasks[0].isDone && AllDone(tasks[1..]) by {
        assert forall i :: 1 <= i < |tasks| ==> tasks[i] == tasks[1..][i - 1];
      }
    }
  }

  /** No task is counted as done exactly when no task is done. */
  lemma {:induction false} CountDoneNone(tasks: seq<Task>)
    ensures CountDone(tasks) == 0 <==> !SomeDone(tasks)
  {
    if tasks != [] {
      CountDoneNone(tasks[1..]);
      assert SomeDone(tasks) <==> tasks[0].isDone || SomeDone(tasks[1..]) by {
        if SomeDone(tasks) && !tasks[0].isDone {
          var i :| 0 <= i < |tasks| && tasks[i].isDone;
          assert tasks[1..][i - 1] == tasks[i];
        }
        if SomeDone(tasks[1..]) {
          var i :| 0 <= i < |tasks[1..]| && tasks[1..][i].isDone;
          assert tasks[i + 1] == tasks[1..][i];
        }
      }
    }
  }

  /** `category.trim() || 'General'`: the category a new checklist item
      gets. */
  function CategoryOrDefault(category: string): (r: string)
    ensures r != []
    ensures Text.Trim(category) != [] ==> r == Text.Trim(category)
    ensures Text.Blank(category) ==> r == "General"
  {
    Text.TrimEmptyIffBlank(category);
    if Text.Trim(category) == [] then "General" else Text.Trim(category)
  }
}
