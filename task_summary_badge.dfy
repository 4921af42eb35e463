/** The badge that summarises a job's checklist as "done / total Tasks". */
module TaskSummaryBadge {
  import opened Common
  import opened Records
  import Text

  datatype TaskSummary = TaskSummary(completed: nat, total: nat, isComplete: bool)

  /** `TaskSummaryBadge({ job })`: nothing without a job, without embedded
      tasks, or with no tasks. */
  function Summary(job: Option<Job>): (r: Option<TaskSummary>)
    ensures r.Some? <==> job.Some? && job.value.jobTasks.Some? && job.value.jobTasks.value != []
    ensures r.Some? ==> r.value.total == |job.value.jobTasks.value| > 0
    ensures r.Some? ==> r.value.completed == CountDone(job.value.jobTasks.value) <= r.value.total
  {
    if job.None? || job.value.jobTasks.None? then None
    else
      var tasks := job.value.jobTasks.value;
      var total := |tasks|;
      var completed := CountDone(tasks);
      if total == 0 then None
      else Some(TaskSummary(completed, total, total > 0 && completed == total))
  }

  /** The badge is green exactly when every task of the job is done, and it
      counts no task done exactly when none is. */
  lemma SummaryMeaning(job: Job)
    requires job.jobTasks.Some? && job.jobTasks.value != []
    ensures var r := Summary(Some(job)).value;
            && (r.isComplete <==> AllDone(job.jobTasks.value))
            && (r.completed == 0 <==> !SomeDone(job.jobTasks.value))
  {
    CountDoneAll(job.jobTasks.value);
    CountDoneNone(job.jobTasks.value);
  }

  /** `{completedTasks} / {totalTasks} Tasks` */
  function Caption(s: TaskSummary): (t: string)
    ensures |t| > |" /  Tasks"|
    ensures t[|t| - 6..] == " Tasks"
    ensures |Text.NatToString(s.completed)| < |t| && Text.AllDigits(t[..|Text.NatToString(s.completed)|])
    ensures t == Text.NatToString(s.completed) + " / " + Text.NatToString(s.total) + " Tasks"
  {
    var digits := Text.NatToString(s.completed);
    var t := digits + (" / " + (Text.NatToString(s.total) + " Tasks"));
    assert t[..|digits|] == digits;
    t
  }

  /** In `x + u` with `x` made of digits and `u` starting with a space, the
      first space is at `|x|`. */
  lemma FirstSpaceAt(x: string, u: string)
    requires Text.AllDigits(x) && u != [] && u[0] == ' '
    ensures (x + u)[|x|] == ' '
    ensures forall i :: 0 <= i < |x| ==> (x + u)[i] != ' '
  {
  }

  /** So digits followed by a space-led tail split in one way only. */
  lemma DigitsEndAtSpace(x: string, u: string, x': string, u': string)
    requires Text.AllDigits(x) && Text.AllDigits(x')
    requires u != [] && u[0] == ' ' && u' != [] && u'[0] == ' '
    requires x + u == x' + u'
    ensures x == x' && u == u'
  {
    FirstSpaceAt(x, u);
    FirstSpaceAt(x', u');
    assert |x| == |x'|;
    assert x == (x + u)[..|x|] && x' == (x' + u')[..|x'|];
    assert u == (x + u)[|x|..] && u' == (x' + u')[|x'|..];
  }

  /** The caption shows both counts: different counts give different
      captions. */
  lemma CaptionInjective(a: TaskSummary, b: TaskSummary)
    requires Caption(a) == Caption(b)
    ensures a.completed == b.completed && a.total == b.total
  {
    var ca, cb := Text.NatToString(a.completed), Text.NatToString(b.completed);
    var ta, tb := Text.NatToString(a.total), Text.NatToString(b.total);
    DigitsEndAtSpace(ca, " / " + (ta + " Tasks"), cb, " / " + (tb + " Tasks"));
    assert (" / " + (ta + " Tasks"))[3..] == ta + " Tasks";
    assert (" / " + (tb + " Tasks"))[3..] == tb + " Tasks";
    DigitsEndAtSpace(ta, " Tasks", tb, " Tasks");
    Text.NatToStringRoundTrip(a.completed);
    Text.NatToStringRoundTrip(b.completed);
    Text.NatToStringRoundTrip(a.total);
    Text.NatToStringRoundTrip(b.total);
  }
}
