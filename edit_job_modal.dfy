/** The older edit modal: the same checks as `validateJobForm`, written out
    step by step, and a direct update of the job's row. */
module EditJobModal {
  import opened Common
  import opened Records
  import Text
  import Validation

  /** The columns `handleSubmit` writes. */
  datatype JobColumns = JobColumns(title: string, description: Option<string>, location: string,
                                   date: string, time: string, budget: Option<real>)

  /** The row after the update, as `.select().single()` returns it: the
      database's row `current` as it stands when the update runs (which
      other users may have changed since the modal opened) with the written
      columns replaced; the `jobs` columns only, with no embedded tasks. */
  function Saved(current: Job, c: JobColumns): (r: Job)
    ensures r.id == current.id && r.clientId == current.clientId && r.providerId == current.providerId
    ensures r.status == current.status && r.jobTasks.None?
    ensures r.title == c.title && r.description == c.description && r.budget == c.budget
    ensures r.location == Some(c.location) && r.date == Some(c.date) && r.time == Some(c.time)
  {
    current.(title := c.title, description := c.description, location := Some(c.location),
             date := Some(c.date), time := Some(c.time), budget := c.budget, jobTasks := None)
  }

  /** Saving twice is saving the last columns: every written column is
      overwritten and the rest of the row is kept. */
  lemma SaveTwiceKeepsLast(current: Job, c: JobColumns, c': JobColumns)
    ensures Saved(Saved(current, c), c') == Saved(current, c')
  {
  }

  class EditJobModal {
    const job: Job
    var title: string
    var description: Option<string>
    var location: string
    var date: string
    var time: string
    var budget: BudgetInput
    var saving: bool
    var message: string
    var updates: seq<Job>

    /** The fields start from the job; a missing or zero budget becomes the
        empty string. */
    constructor (job: Job)
      ensures this.job == job && title == job.title && description == job.description
      ensures location == job.location.GetOr("") && date == job.date.GetOr("") && time == job.time.GetOr("")
      ensures budget == (if job.budget.Some? && job.budget.value != 0.0 then Stored(job.budget.value) else Blank)
      ensures !saving && message == "" && updates == []
    {
      this.job := job;
      title := job.title;
      description := job.description;
      location := job.location.GetOr("");
      date := job.date.GetOr("");
      time := job.time.GetOr("");
      budget := if job.budget.Some? && job.budget.value != 0.0 then Stored(job.budget.value) else Blank;
      saving := false;
      message := "";
      updates := [];
    }

    function Form(): Validation.JobFormInput
      reads this
    {
      Validation.JobFormInput(title, date, time, budget)
    }

    /** `validateForm`: the first failing check writes its message. It makes
        the same decision, with the same message, as `validateJobForm`. */
    method ValidateForm(todayStr: string, maxStr: string) returns (ok: bool)
      modifies this`message
      ensures var v := Validation.ValidateJobForm(Form(), todayStr, maxStr);
              ok == v.isValid && message == (if ok then old(message) else v.message)
    {
      Text.TrimEmptyIffBlank(title);
      if Text.Trim(title) == [] {
        message := Validation.TitleRequired;
        return false;
      }
      if date == "" {
        message := Validation.DateRequired;
        return false;
      }
      if time == "" {
        message := Validation.TimeRequired;
        return false;
      }
      if Text.Less(date, todayStr) {
        message := Validation.DateInPast;
        return false;
      }
      if Text.Less(maxStr, date) {
        message := Validation.DateTooFar;
        return false;
      }
      if budget.Truthy() {
        var numericBudget := budget.ParseFloat();
        if numericBudget.IsNaN() {
          message := Validation.BudgetNotANumber;
          return false;
        }
        if numericBudget.Negative() {
          message := Validation.BudgetNegative;
          return false;
        }
        if numericBudget.Exceeds(Validation.MaxBudget) {
          message := Validation.BudgetTooHigh;
          return false;
        }
      }
      return true;
    }

    /** `handleSubmit`: clear the message, validate, then update the row;
        `error` is the update's error message, if any, and `current` the
        row `.eq("id", job.id)` matches, as the database holds it. A failed
        update shows "❌ " and the error and does not call `onUpdate`.
        `sent` is the columns written. */
    method Submit(todayStr: string, maxStr: string, current: Job, error: Option<string>)
      returns (sent: Option<JobColumns>)
      requires current.id == job.id
      modifies this`message, this`saving, this`updates
      ensures !Validation.ValidateJobForm(old(Form()), todayStr, maxStr).isValid ==>
                sent.None? && message == Validation.ValidateJobForm(old(Form()), todayStr, maxStr).message
                && updates == old(updates) && saving == old(saving)
      ensures Validation.ValidateJobForm(old(Form()), todayStr, maxStr).isValid ==>
                sent == Some(JobColumns(title, description, location, date, time,
                                        if budget.Truthy() then Some(budget.ParseFloat().value) else None))
                && !saving
      ensures Validation.ValidateJobForm(old(Form()), todayStr, maxStr).isValid && error.Some? ==>
                message == "❌ " + error.value && updates == old(updates)
      ensures Validation.ValidateJobForm(old(Form()), todayStr, maxStr).isValid && error.None? ==>
                message == "" && updates == old(updates) + [Saved(current, sent.value)]
    {
      var form := Form();
      message := "";
      var ok := ValidateForm(todayStr, maxStr);
      if !ok {
        return None;
      }
      saving := true;
      Validation.AcceptedBudgetIsStorable(form, todayStr, maxStr);
      var amount := BudgetOrNull(budget);
      var columns := JobColumns(title, description, location, date, time, AsColumn(amount.GetOr(NaN)));
      sent := Some(columns);
      if error.Some? {
        message := "❌ " + error.value;
      } else {
        updates := updates + [Saved(current, columns)];
      }
      saving := false;
    }
  }
}
