/** The job posting form: validate, insert the job for the signed-in user,
    and report the outcome. The branches on the insert's outcome are
    inverted in the code; `AfterInsertAsWritten` keeps them as written and
    `AfterInsert` is the evident intent, which the form here uses. */
module JobForm {
  import opened Common
  import opened Records
  import Validation

  const PostedMessage := "✅ Job posted successfully."
  const NotAuthenticated := "❌ Not authenticated."

  /** The insert's outcome: the new row, or an error message. */
  datatype InsertOutcome = Inserted(job: Job) | Failed(error: string)

  /** What handling the outcome does: the message shown, the argument
      `onNewJob` is called with (`None` when it is not called; `Some(None)`
      for `onNewJob(null)`) and whether the fields are cleared. */
  datatype Effect = Effect(message: string, notified: Option<Option<Job>>, cleared: bool)

  /** The branches as written: the success path runs when there is an
      error, with the `null` row; the `else if (error)` branch can never
      run, so a successful insert does nothing and leaves the message
      empty. */
  function AfterInsertAsWritten(outcome: InsertOutcome): (e: Effect)
    ensures e.message == PostedMessage <==> outcome.Failed?
    ensures e.notified.Some? <==> outcome.Failed?
  {
    match outcome
    case Failed(_) => Effect(PostedMessage, Some(None), true)
    case Inserted(_) => Effect("", None, false)
  }

  /** The discrepancy: a failed insert is reported as posted and hands
      `null` to `onNewJob`, which puts it at the head of the dashboard's
      list; a successful one is never reported. */
  lemma AsWrittenInvertsOutcome(job: Job, error: string)
    ensures AfterInsertAsWritten(Failed(error)) == Effect(PostedMessage, Some(None), true)
    ensures AfterInsertAsWritten(Inserted(job)).notified.None?
    ensures AfterInsertAsWritten(Inserted(job)).message == ""
  {
  }

  /** The intended handling: on success show the posted message, pass the
      new row to `onNewJob` and clear the fields; on error show the error. */
  function AfterInsert(outcome: InsertOutcome): (e: Effect)
    ensures e.message == PostedMessage <==> outcome.Inserted?
    ensures e.notified.Some? <==> outcome.Inserted?
    ensures e.notified.Some? ==> e.notified.value == Some(outcome.job)
    ensures e.cleared <==> outcome.Inserted?
    ensures outcome.Failed? ==> e.message == "❌ " + outcome.error
  {
    match outcome
    case Inserted(job) => Effect(PostedMessage, Some(Some(job)), true)
    case Failed(error) =>
      assert ("❌ " + error)[0] != PostedMessage[0];
      Effect("❌ " + error, None, false)
  }

  /** Corrected and as-written handling agree on no outcome: they differ in
      the message for every outcome. */
  lemma CorrectionChangesEveryOutcome(outcome: InsertOutcome)
    ensures AfterInsert(outcome).message != AfterInsertAsWritten(outcome).message
  {
    if outcome.Failed? {
      assert AfterInsert(outcome).message[0] == '❌';
    }
  }

  /** The row `insert` receives. */
  datatype NewJobRow = NewJobRow(clientId: UserId, title: string, description: string, location: string,
                                 date: string, time: string, budget: Option<real>)

  class JobForm {
    var title: string
    var description: string
    var location: string
    var date: string
    var time: string
    var budget: BudgetInput
    var message: string
    var posted: seq<Job>

    constructor ()
      ensures title == "" && description == "" && location == "" && date == "" && time == ""
      ensures budget == Blank && message == "" && posted == []
    {
      title := "";
      description := "";
      location := "";
      date := "";
      time := "";
      budget := Blank;
      message := "";
      posted := [];
    }

    function Form(): Validation.JobFormInput
      reads this
    {
      Validation.JobFormInput(title, date, time, budget)
    }

    /** `handleSubmit`, with the outcome handled as intended. `user` is
        `None` when nobody is signed in; `outcome` is what the insert
        returns; `row` is the row sent, if any. */
    method HandleSubmit(todayStr: string, maxStr: string, user: Option<UserId>, outcome: InsertOutcome)
      returns (row: Option<NewJobRow>)
      modifies this
      ensures !Validation.ValidateJobForm(old(Form()), todayStr, maxStr).isValid ==>
                row.None? && message == Validation.ValidateJobForm(old(Form()), todayStr, maxStr).message
                && posted == old(posted) && Form() == old(Form())
                && description == old(description) && location == old(location)
      ensures Validation.ValidateJobForm(old(Form()), todayStr, maxStr).isValid && user.None? ==>
                row.None? && message == NotAuthenticated && posted == old(posted) && Form() == old(Form())
                && description == old(description) && location == old(location)
      ensures Validation.ValidateJobForm(old(Form()), todayStr, maxStr).isValid && user.Some? ==>
                && row == Some(NewJobRow(user.value, old(title), old(description), old(location), old(date), old(time),
                                         if old(budget).Truthy() then Some(old(budget).ParseFloat().value) else None))
                && message == AfterInsert(outcome).message
      ensures Validation.ValidateJobForm(old(Form()), todayStr, maxStr).isValid && user.Some? && outcome.Inserted? ==>
                posted == old(posted) + [outcome.job] && description == "" && location == ""
                && Form() == Validation.JobFormInput("", "", "", Blank)
      ensures Validation.ValidateJobForm(old(Form()), todayStr, maxStr).isValid && user.Some? && outcome.Failed? ==>
                posted == old(posted) && Form() == old(Form())
                && description == old(description) && location == old(location)
    {
      var form := Form();
      message := "";
      var validation := Validation.ValidateJobForm(form, todayStr, maxStr);
      if !validation.isValid {
        message := validation.message;
        return None;
      }
      if user.None? {
        message := NotAuthenticated;
        return None;
      }
      Validation.AcceptedBudgetIsStorable(form, todayStr, maxStr);
      var amount := BudgetOrNull(budget);
      row := Some(NewJobRow(user.value, title, description, location, date, time, AsColumn(amount.GetOr(NaN))));
      var effect := AfterInsert(outcome);
      message := effect.message;
      if effect.notified.Some? && effect.notified.value.Some? {
        posted := posted + [effect.notified.value.value];
      }
      if effect.cleared {
        title := "";
        description := "";
        location := "";
        date := "";
        time := "";
        budget := Blank;
      }
    }
  }
}
