/** The checklist job form: a draft job with a list of tasks built one at a
    time; submitting assembles the job data and does not save it. */
module ChecklistJobForm {
  import opened Common
  import opened Records
  import Text
  import Lists

  /** A task in the draft list; `id` is a temporary numeric key. */
  datatype DraftTask = DraftTask(id: int, category: string, description: string)

  function DraftKey(t: DraftTask): int { t.id }

  /** The new task `handleAddTask` appends for non-blank inputs. */
  function NewDraft(tempId: int, category: string, description: string): (t: DraftTask)
    requires !Text.Blank(description)
    ensures t.id == tempId && t.description == Text.Trim(description) && t.category == CategoryOrDefault(category)
    ensures t.category != [] && t.description != []
    ensures !Text.IsWhitespace(t.description[0]) && !Text.IsWhitespace(t.description[|t.description| - 1])
    ensures Text.Trim(t.description) == t.description
  {
    Text.TrimEmptyIffBlank(description);
    Text.TrimIdempotent(description);
    DraftTask(tempId, CategoryOrDefault(category), Text.Trim(description))
  }

  /** The `jobData` object `handleSubmit` assembles. */
  datatype JobData = JobData(title: string, date: string, time: string, budget: Option<JsNumber>,
                             clientId: UserId, tasks: seq<DraftTask>)

  class ChecklistJobForm {
    const userId: UserId
    var title: string
    var date: string
    var time: string
    var budget: BudgetInput
    var currentCategory: string
    var currentTask: string
    var tasks: seq<DraftTask>

    constructor (userId: UserId)
      ensures this.userId == userId
      ensures title == "" && date == "" && time == "" && budget == Blank
      ensures currentCategory == "" && currentTask == "" && tasks == []
    {
      this.userId := userId;
      title := "";
      date := "";
      time := "";
      budget := Blank;
      currentCategory := "";
      currentTask := "";
      tasks := [];
    }

    /** `handleAddTask`: blank descriptions are ignored; only the new-task input
        is cleared, the category is kept for the next task. */
    method AddTask(tempId: int)
      modifies this`tasks, this`currentTask
      ensures Text.Blank(old(currentTask)) ==> tasks == old(tasks) && currentTask == old(currentTask)
      ensures !Text.Blank(old(currentTask)) ==>
                tasks == old(tasks) + [NewDraft(tempId, currentCategory, old(currentTask))] && currentTask == ""
    {
      Text.TrimEmptyIffBlank(currentTask);
      if Text.Trim(currentTask) == [] {
        return;
      }
      tasks := tasks + [NewDraft(tempId, currentCategory, currentTask)];
      currentTask := "";
    }

    /** `handleDeleteTask(id)` */
    method DeleteTask(id: int)
      modifies this`tasks
      ensures tasks == Lists.Without(old(tasks), DraftKey, id)
    {
      tasks := Lists.Without(tasks, DraftKey, id);
    }

    /** `handleSubmit`: the job data for the signed-in user; a falsy budget
        (empty text or a stored 0) becomes null. Nothing is validated and
        nothing changes. */
    method Submit() returns (data: JobData)
      ensures data.title == title && data.date == date && data.time == time
      ensures data.clientId == userId && data.tasks == tasks
      ensures data.budget.None? <==> !budget.Truthy()
      ensures data.budget.Some? ==> data.budget.value == budget.ParseFloat()
    {
      data := JobData(title, date, time, BudgetOrNull(budget), userId, tasks);
    }
  }
}
