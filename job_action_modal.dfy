/** The job detail modal: who sees which control, the accept action that
    assigns an unassigned job to the accepting provider with a conditional
    write, and the edit view with its local checklist editor. */
module JobActionModal {
  import opened Common
  import opened Records
  import Text
  import Lists
  import Validation

  /** `isOwner`: the viewer is the customer who posted the job. */
  predicate IsOwner(currentUserId: UserId, job: Job)
    ensures IsOwner(currentUserId, job) <==> job.clientId == currentUserId
  {
    currentUserId == job.clientId
  }

  /** `canEdit`: the owner, on a job that is not completed and has no task
      done. */
  predicate CanEdit(currentUserId: UserId, job: Job, tasks: seq<Task>)
    ensures CanEdit(currentUserId, job, tasks) ==> IsOwner(currentUserId, job) && !DeleteDisabled(job, tasks)
  {
    IsOwner(currentUserId, job) && job.status != Completed && !SomeDone(tasks)
  }

  /** The `disabled` condition of the Delete button. */
  predicate DeleteDisabled(job: Job, tasks: seq<Task>)
    ensures !DeleteDisabled(job, tasks) <==> job.status != Completed && forall i :: 0 <= i < |tasks| ==> !tasks[i].isDone
  {
    job.status == Completed || SomeDone(tasks)
  }

  /** The condition under which the Accept button is rendered. */
  predicate ShowsAccept(role: Role, currentUserId: UserId, job: Job)
    ensures ShowsAccept(role, currentUserId, job) ==>
              role == ServiceProvider && job.clientId != currentUserId
              && (job.providerId.None? || job.providerId.value == "")
  {
    role == ServiceProvider && !IsOwner(currentUserId, job) && !Present(job.providerId)
  }

  /** `mode` */
  datatype Mode = ViewMode | EditMode | ConfirmDeleteMode

  /** What the modal renders: the edit form, or the details with the controls
      that are present and whether each is enabled. */
  datatype Screen =
    | EditScreen
    | DetailsScreen(ownerButtons: bool, deleteEnabled: bool, editEnabled: bool,
                    acceptButton: bool, confirmDelete: bool, completedTag: bool)

  function ScreenFor(mode: Mode, role: Role, currentUserId: UserId, job: Job, tasks: seq<Task>): (s: Screen)
    ensures s == EditScreen <==> mode == EditMode && CanEdit(currentUserId, job, tasks)
    ensures s.DetailsScreen? ==>
              && (s.ownerButtons <==> IsOwner(currentUserId, job) && mode == ViewMode)
              && (s.editEnabled <==> CanEdit(currentUserId, job, tasks))
              && (s.deleteEnabled <==> !DeleteDisabled(job, tasks))
              && (s.acceptButton <==> ShowsAccept(role, currentUserId, job))
              && (s.confirmDelete <==> mode == ConfirmDeleteMode && IsOwner(currentUserId, job))
              && (s.completedTag <==> job.status == Completed)
  {
    if mode == EditMode && CanEdit(currentUserId, job, tasks) then EditScreen
    else DetailsScreen(
      ownerButtons := IsOwner(currentUserId, job) && mode == ViewMode,
      deleteEnabled := !DeleteDisabled(job, tasks),
      editEnabled := CanEdit(currentUserId, job, tasks),
      acceptButton := ShowsAccept(role, currentUserId, job),
      confirmDelete := mode == ConfirmDeleteMode && IsOwner(currentUserId, job),
      completedTag := job.status == Completed)
  }

  /** How the controls relate: whoever may edit may also delete; nobody sees
      both the owner's buttons and the Accept button; a completed job or one
      with a task done can be neither edited nor deleted. */
  lemma ControlsAreConsistent(mode: Mode, role: Role, currentUserId: UserId, job: Job, tasks: seq<Task>)
    ensures var s := ScreenFor(mode, role, currentUserId, job, tasks);
            && (s.DetailsScreen? && s.editEnabled ==> s.deleteEnabled)
            && (s.DetailsScreen? ==> !(s.ownerButtons && s.acceptButton))
            && ((job.status == Completed || SomeDone(tasks)) ==>
                  s.DetailsScreen? && !s.editEnabled && !s.deleteEnabled)
  {
  }

  /** The `jobs` rows after `update({ provider_id, status: 'in_progress' })
      .eq('id', id).is('provider_id', null).select().single()`, and the row
      returned. The update applies only while the row has no provider; when
      no row matches, `single()` reports an error. `select()` returns the
      `jobs` columns only, so the returned row has no embedded tasks.
      `reachable` is false when the request itself fails. */
  function AcceptWrite(rows: map<JobId, Job>, id: JobId, currentUserId: UserId, reachable: bool)
    : (r: (map<JobId, Job>, Option<Job>))
    ensures r.1.Some? <==> reachable && id in rows && rows[id].providerId.None?
    ensures r.1.Some? ==> && r.0 == rows[id := rows[id].(providerId := Some(currentUserId), status := InProgress)]
                          && r.1.value == r.0[id].(jobTasks := None)
                          && r.1.value.jobTasks.None?
    ensures r.1.None? ==> r.0 == rows
  {
    if reachable && id in rows && rows[id].providerId.None? then
      var updated := rows[id].(providerId := Some(currentUserId), status := InProgress);
      (rows[id := updated], Some(updated.(jobTasks := None)))
    else (rows, None)
  }

  /** Once a provider is set it is never replaced: a job that already has a
      provider keeps its row, and every other job keeps its row too. */
  lemma AcceptNeverOverwrites(rows: map<JobId, Job>, id: JobId, currentUserId: UserId, reachable: bool)
    ensures var after := AcceptWrite(rows, id, currentUserId, reachable).0;
            && after.Keys == rows.Keys
            && (forall j :: j in rows && (j != id || rows[j].providerId.Some?) ==> after[j] == rows[j])
  {
  }

  /** Of two accepts of the same job, the second one fails and changes
      nothing, whoever makes it: the job stays with the first provider. */
  lemma SecondAcceptFails(rows: map<JobId, Job>, id: JobId, first: UserId, second: UserId, reachable: bool)
    requires AcceptWrite(rows, id, first, true).1.Some?
    ensures var once := AcceptWrite(rows, id, first, true).0;
            var twice := AcceptWrite(once, id, second, reachable);
            && twice.1.None?
            && twice.0 == once
            && once[id].providerId == Some(first)
  {
  }

  /** The `jobs` table as seen by this client. */
  class JobsTable {
    var rows: map<JobId, Job>

    constructor (rows: map<JobId, Job>)
      ensures this.rows == rows
    {
      this.rows := rows;
    }

    /** The conditional update behind Accept. */
    method AcceptIfUnassigned(id: JobId, currentUserId: UserId, reachable: bool) returns (data: Option<Job>)
      modifies this
      ensures (rows, data) == AcceptWrite(old(rows), id, currentUserId, reachable)
    {
      if reachable && id in rows && rows[id].providerId.None? {
        var updated := rows[id].(providerId := Some(currentUserId), status := InProgress);
        rows := rows[id := updated];
        data := Some(updated.(jobTasks := None));
      } else {
        data := None;
      }
    }
  }

  /** The modal. `updates` and `deletions` record the calls made to the
      `onUpdate` and `onDelete` callbacks. */
  class ActionModal {
    const job: Job
    const currentUserId: UserId
    const userRole: Role
    var mode: Mode
    var tasks: seq<Task>
    var isAccepting: bool
    var updates: seq<Job>
    var deletions: seq<JobId>

    constructor (job: Job, currentUserId: UserId, userRole: Role)
      ensures this.job == job && this.currentUserId == currentUserId && this.userRole == userRole
      ensures mode == ViewMode && tasks == [] && !isAccepting && updates == [] && deletions == []
    {
      this.job := job;
      this.currentUserId := currentUserId;
      this.userRole := userRole;
      mode := ViewMode;
      tasks := [];
      isAccepting := false;
      updates := [];
      deletions := [];
    }

    function Screen(): Screen
      reads this
    {
      ScreenFor(mode, userRole, currentUserId, job, tasks)
    }

    /** `fetchTasks`: nothing for a job without an id; otherwise on success
        the fetched rows replace `tasks` and on error they are kept. */
    method FetchTasks(result: Option<seq<Task>>)
      modifies this`tasks
      ensures tasks == if job.id != "" && result.Some? then result.value else old(tasks)
    {
      if job.id == "" {
        return;
      }
      if result.Some? {
        tasks := result.value;
      }
    }

    /** `handleAcceptJob`: the conditional write, then `onUpdate` with the
        returned row when there is one. */
    method HandleAcceptJob(db: JobsTable, reachable: bool) returns (accepted: bool)
      modifies this`isAccepting, this`updates, db
      ensures var (rows, data) := AcceptWrite(old(db.rows), job.id, currentUserId, reachable);
              && db.rows == rows
              && accepted == data.Some?
              && updates == old(updates) + (if data.Some? then [data.value] else [])
      ensures !isAccepting
    {
      isAccepting := true;
      var data := db.AcceptIfUnassigned(job.id, currentUserId, reachable);
      accepted := data.Some?;
      if data.Some? {
        updates := updates + [data.value];
      }
      isAccepting := false;
    }

    /** A click on Accept; the button is rendered only for a provider who
        does not own the job, while the job shows no provider. */
    method ClickAccept(db: JobsTable, reachable: bool) returns (accepted: bool)
      modifies this`isAccepting, this`updates, db
      ensures !ShowsAccept(userRole, currentUserId, job) ==> !accepted && db.rows == old(db.rows) && updates == old(updates)
      ensures accepted ==> ShowsAccept(userRole, currentUserId, job)
      ensures accepted ==> job.id in db.rows && db.rows[job.id].providerId == Some(currentUserId) && db.rows[job.id].status == InProgress
      ensures ShowsAccept(userRole, currentUserId, job) ==>
                var (rows, data) := AcceptWrite(old(db.rows), job.id, currentUserId, reachable);
                && db.rows == rows
                && accepted == data.Some?
                && updates == old(updates) + (if data.Some? then [data.value] else [])
      ensures isAccepting == (if ShowsAccept(userRole, currentUserId, job) then false else old(isAccepting))
    {
      if !ShowsAccept(userRole, currentUserId, job) {
        return false;
      }
      accepted := HandleAcceptJob(db, reachable);
    }

    /** A click on Edit: only an enabled Edit button on the details screen
        switches to the edit view. */
    method ClickEdit()
      modifies this`mode
      ensures var s := old(Screen());
              mode == if s.DetailsScreen? && s.ownerButtons && s.editEnabled then EditMode else old(mode)
      ensures mode == EditMode && old(mode) != EditMode ==> Screen() == EditScreen
    {
      var s := Screen();
      if s.DetailsScreen? && s.ownerButtons && s.editEnabled {
        mode := EditMode;
      }
    }

    /** A click on Delete asks for confirmation; only an enabled button does. */
    method ClickDelete()
      modifies this`mode
      ensures var s := old(Screen());
              mode == if s.DetailsScreen? && s.ownerButtons && s.deleteEnabled then ConfirmDeleteMode else old(mode)
    {
      var s := Screen();
      if s.DetailsScreen? && s.ownerButtons && s.deleteEnabled {
        mode := ConfirmDeleteMode;
      }
    }

    /** Confirm Delete: `onDelete(job.id)`, offered only on the confirmation
        panel. */
    method ConfirmDelete()
      modifies this`deletions
      ensures var s := Screen();
              deletions == old(deletions) + (if s.DetailsScreen? && s.confirmDelete then [job.id] else [])
    {
      var s := Screen();
      if s.DetailsScreen? && s.confirmDelete {
        deletions := deletions + [job.id];
      }
    }

    /** Cancel on the confirmation panel or in the edit view. */
    method Cancel()
      modifies this`mode
      ensures mode == ViewMode
    {
      mode := ViewMode;
    }
  }

  /** A checklist item as `update_job_with_tasks` receives it. */
  datatype SavedTask = SavedTask(category: string, description: string)

  /** `tasks.map(({ category, task_description }) => ({ category, task_description }))` */
  function TasksToSave(tasks: seq<Task>): (r: seq<SavedTask>)
    ensures |r| == |tasks|
    ensures forall i :: 0 <= i < |tasks| ==>
              r[i].category == tasks[i].category && r[i].description == tasks[i].description
  {
    if tasks == [] then [] else [SavedTask(tasks[0].category, tasks[0].description)] + TasksToSave(tasks[1..])
  }

  /** The projection keeps the list structure: saving a list built by
      appending saves the two parts one after the other. */
  lemma {:induction false} TasksToSaveAppend(s: seq<Task>, t: seq<Task>)
    ensures TasksToSave(s + t) == TasksToSave(s) + TasksToSave(t)
  {
    if s == [] {
      assert s + t == t;
    } else {
      assert (s + t)[0] == s[0] && (s + t)[1..] == s[1..] + t;
      TasksToSaveAppend(s[1..], t);
    }
  }

  /** The item `handleAddTask` appends: trimmed description, trimmed
      category or `'General'`, not done, with a temporary id. */
  function NewTask(tempId: TaskId, category: string, description: string): (t: Task)
    requires !Text.Blank(description)
    ensures t.id == tempId && t.description == Text.Trim(description) && t.category == CategoryOrDefault(category)
    ensures t.description != [] && !Text.IsWhitespace(t.description[0])
    ensures !Text.IsWhitespace(t.description[|t.description| - 1])
    ensures t.category != [] && !t.isDone
    ensures t.completedAt.None? && t.completedBy.None?
    ensures Text.Trim(t.description) == t.description
  {
    Text.TrimEmptyIffBlank(description);
    Text.TrimIdempotent(description);
    Task(tempId, CategoryOrDefault(category), Text.Trim(description), false, None, None)
  }

  /** The arguments of the `update_job_with_tasks` call. */
  datatype SaveCall = SaveCall(
    jobId: JobId, title: string, location: string, date: string, time: string,
    budget: Option<real>, tasks: seq<SavedTask>)

  /** The edit view of the modal, with its form fields as state. */
  class EditView {
    const job: Job
    var title: string
    var location: string
    var date: string
    var time: string
    var budget: BudgetInput
    var saving: bool
    var tasks: seq<Task>
    var currentCategory: string
    var currentTask: string
    var message: string
    var updates: seq<Job>
    var closed: bool

    /** The fields start from the job; a missing budget is the empty
        string. */
    constructor (job: Job, initialTasks: seq<Task>)
      ensures this.job == job && title == job.title
      ensures location == job.location.GetOr("") && date == job.date.GetOr("") && time == job.time.GetOr("")
      ensures budget == (if job.budget.Some? then Stored(job.budget.value) else Blank)
      ensures tasks == initialTasks && currentCategory == "" && currentTask == "" && message == ""
      ensures !saving && updates == [] && !closed
    {
      this.job := job;
      title := job.title;
      location := job.location.GetOr("");
      date := job.date.GetOr("");
      time := job.time.GetOr("");
      budget := if job.budget.Some? then Stored(job.budget.value) else Blank;
      saving := false;
      tasks := initialTasks;
      currentCategory := "";
      currentTask := "";
      message := "";
      updates := [];
      closed := false;
    }

    function Form(): Validation.JobFormInput
      reads this
    {
      Validation.JobFormInput(title, date, time, budget)
    }

    /** `handleAddTask` */
    method AddTask(tempId: TaskId)
      modifies this`tasks, this`currentTask, this`currentCategory
      ensures Text.Blank(old(currentTask)) ==>
                tasks == old(tasks) && currentTask == old(currentTask) && currentCategory == old(currentCategory)
      ensures !Text.Blank(old(currentTask)) ==>
                && tasks == old(tasks) + [NewTask(tempId, old(currentCategory), old(currentTask))]
                && currentTask == "" && currentCategory == ""
    {
      var description, category := currentTask, currentCategory;
      Text.TrimEmptyIffBlank(description);
      if Text.Trim(description) == [] {
        return;
      }
      var task := NewTask(tempId, category, description);
      tasks := tasks + [task];
      currentTask := "";
      currentCategory := "";
    }

    /** `handleDeleteTask(id)` */
    method DeleteTask(id: TaskId)
      modifies this`tasks
      ensures tasks == Lists.Without(old(tasks), TaskKey, id)
    {
      tasks := Lists.Without(tasks, TaskKey, id);
    }

    /** A click on Remove for `tasks[k]`: disabled for a task that is done. */
    method ClickRemove(k: nat)
      requires k < |tasks|
      modifies this`tasks
      ensures tasks == if old(tasks[k]).isDone then old(tasks) else Lists.Without(old(tasks), TaskKey, old(tasks[k]).id)
    {
      if !tasks[k].isDone {
        DeleteTask(tasks[k].id);
      }
    }

    /** `handleSubmit`: validate; on failure show the message and stop;
        otherwise call `update_job_with_tasks` and, when it succeeds, pass
        the edited job to `onUpdate` and close. `call` is the request sent. */
    method Submit(todayStr: string, maxStr: string, rpcOk: bool) returns (call: Option<SaveCall>)
      modifies this`message, this`saving, this`updates, this`closed
      ensures message == Validation.ValidateJobForm(old(Form()), todayStr, maxStr).message
      ensures !Validation.ValidateJobForm(old(Form()), todayStr, maxStr).isValid ==>
                call.None? && updates == old(updates) && closed == old(closed) && saving == old(saving)
      ensures Validation.ValidateJobForm(old(Form()), todayStr, maxStr).isValid ==>
                call == Some(Request()) && !saving
                && updates == old(updates) + (if rpcOk then [Edited()] else [])
                && closed == (rpcOk || old(closed))
    {
      var form := Form();
      message := "";
      var validation := Validation.ValidateJobForm(form, todayStr, maxStr);
      if !validation.isValid {
        message := validation.message;
        return None;
      }
      saving := true;
      var tasksToSave := TasksToSave(tasks);
      var amount := AsColumn(budget.ParseFloat());
      call := Some(SaveCall(job.id, title, location, date, time, amount, tasksToSave));
      saving := false;
      if rpcOk {
        var updatedJob := job.(title := title, location := Some(location), date := Some(date),
                               time := Some(time), budget := amount);
        updates := updates + [updatedJob];
        closed := true;
      }
    }

    /** The arguments of `update_job_with_tasks`: the fields, the budget as
        `parseFloat` gives it and the projected tasks. */
    function Request(): (c: SaveCall)
      reads this
      ensures c.jobId == job.id && c.tasks == TasksToSave(tasks)
      ensures c.budget == AsColumn(budget.ParseFloat())
    {
      SaveCall(job.id, title, location, date, time, AsColumn(budget.ParseFloat()), TasksToSave(tasks))
    }

    /** `updatedJob`: the job with the edited fields. */
    function Edited(): (j: Job)
      reads this
      ensures j.id == job.id && j.clientId == job.clientId && j.providerId == job.providerId
      ensures j.status == job.status && j.title == title && j.budget == AsColumn(budget.ParseFloat())
    {
      job.(title := title, location := Some(location), date := Some(date),
           time := Some(time), budget := AsColumn(budget.ParseFloat()))
    }
  }
}
