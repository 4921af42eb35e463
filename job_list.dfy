/** The job list: its loading and empty states, one entry per job with the
    budget label, and the older provider-only status badge the list uses. */
module JobList {
  import opened Common
  import opened Records
  import JobStatusBadge

  /** The badge of the list's own `JobStatusBadge`: nothing unless the
      viewer is a provider; otherwise decided by the provider column alone. */
  function LegacyBadge(role: Role, job: Job, currentUserId: UserId): (r: Option<JobStatusBadge.Badge>)
    ensures r.None? <==> role != ServiceProvider
    ensures r.Some? ==> r.value in {JobStatusBadge.YouAccepted, JobStatusBadge.Taken, JobStatusBadge.Open}
  {
    if role != ServiceProvider then None
    else if Present(job.providerId) then
      if job.providerId == Some(currentUserId) then Some(JobStatusBadge.YouAccepted) else Some(JobStatusBadge.Taken)
    else Some(JobStatusBadge.Open)
  }

  /** The list's badge agrees with the shared badge for a provider on any job
      that is not completed, as long as the viewer's id is not empty; the
      list's badge ignores completion, and a customer sees no badge there. */
  lemma LegacyAgreesWhileOpen(job: Job, currentUserId: UserId)
    requires currentUserId != ""
    ensures job.status != Completed ==>
              LegacyBadge(ServiceProvider, job, currentUserId)
              == JobStatusBadge.StatusBadge(ServiceProvider, job, currentUserId)
    ensures job.status == Completed ==>
              LegacyBadge(ServiceProvider, job, currentUserId) != Some(JobStatusBadge.CompletedBadge)
              && LegacyBadge(ServiceProvider, job, currentUserId)
                 == JobStatusBadge.StatusBadge(ServiceProvider, job.(status := InProgress), currentUserId)
    ensures LegacyBadge(Customer, job, currentUserId).None?
  {
  }

  /** The list's badge ignores the job's status: a completed job shows the
      badge it showed while it was open or in progress. */
  lemma LegacyIgnoresStatus(role: Role, job: Job, currentUserId: UserId, status: Status)
    ensures LegacyBadge(role, job.(status := status), currentUserId) == LegacyBadge(role, job, currentUserId)
  {
  }

  /** `job.budget ? `£${job.budget}` : 'No budget set'`: a budget of 0 is
      shown as no budget. */
  datatype BudgetLabel = NoBudgetSet | Pounds(amount: real)

  function BudgetLabelOf(budget: Option<real>): (l: BudgetLabel)
    ensures l.Pounds? <==> budget.Some? && budget.value != 0.0
    ensures l.Pounds? ==> l.amount == budget.value
  {
    if budget.Some? && budget.value != 0.0 then Pounds(budget.value) else NoBudgetSet
  }

  /** One list entry. */
  datatype Item = Item(id: JobId, title: string, location: Option<string>, budget: BudgetLabel,
                       badge: Option<JobStatusBadge.Badge>)

  /** What the list renders. */
  datatype View = LoadingMessage | NoJobsMessage | Items(items: seq<Item>)

  function ItemFor(job: Job, role: Role, currentUserId: UserId): Item {
    Item(job.id, job.title, job.location, BudgetLabelOf(job.budget), LegacyBadge(role, job, currentUserId))
  }

  /** `JobList({ jobs, loading, … })`; `jobs` is `None` when it is null. */
  function Render(loading: bool, jobs: Option<seq<Job>>, role: Role, currentUserId: UserId): (v: View)
    ensures v == LoadingMessage <==> loading
    ensures v == NoJobsMessage <==> !loading && (jobs.None? || jobs.value == [])
    ensures v.Items? ==> jobs.Some? && |v.items| == |jobs.value| > 0
    ensures v.Items? ==> forall i :: 0 <= i < |v.items| ==>
              v.items[i].id == jobs.value[i].id && v.items[i].title == jobs.value[i].title
              && v.items[i] == ItemFor(jobs.value[i], role, currentUserId)
  {
    if loading then LoadingMessage
    else if jobs.None? || jobs.value == [] then NoJobsMessage
    else Items(seq(|jobs.value|, i requires 0 <= i < |jobs.value| => ItemFor(jobs.value[i], role, currentUserId)))
  }
}
