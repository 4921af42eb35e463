/** The status badge shown on a job: what a customer and what a service
    provider see for each state of the job. */
module JobStatusBadge {
  import opened Common
  import opened Records
  import JobActionModal

  /** The badges, by their text. */
  datatype Badge = Complete | Accepted | ListedBadge | CompletedBadge | YouAccepted | Taken | Open

  function Label(b: Badge): (s: string)
    ensures s != ""
  {
    match b
    case Complete => "Complete"
    case Accepted => "Accepted"
    case ListedBadge => "Listed"
    case CompletedBadge => "Completed"
    case YouAccepted => "You Accepted"
    case Taken => "Taken"
    case Open => "Open"
  }

  /** Different badges have different texts. */
  lemma LabelInjective(a: Badge, b: Badge)
    ensures Label(a) == Label(b) <==> a == b
  {
  }

  /** `JobStatusBadge({ job, currentUserId, userRole })`; `None` when nothing
      is rendered. */
  function StatusBadge(role: Role, job: Job, currentUserId: UserId): (r: Option<Badge>)
    ensures r.None? <==> role == OtherRole
    ensures role == Customer ==> r.value in {Complete, Accepted, ListedBadge}
    ensures role == ServiceProvider ==> r.value in {CompletedBadge, YouAccepted, Taken, Open}
  {
    match role
    case Customer =>
      if job.status == Completed then Some(Complete)
      else if Present(job.providerId) then Some(Accepted)
      else Some(ListedBadge)
    case ServiceProvider =>
      if job.status == Completed then Some(CompletedBadge)
      else if job.providerId == Some(currentUserId) then Some(YouAccepted)
      else if Present(job.providerId) then Some(Taken)
      else Some(Open)
    case OtherRole => None
  }

  /** Each badge names one state of the job: completion comes first, then
      whether a provider is assigned and, for a provider, whether it is the
      viewer. */
  lemma BadgeMeaning(role: Role, job: Job, currentUserId: UserId)
    ensures var r := StatusBadge(role, job, currentUserId);
            && (r == Some(Complete) <==> role == Customer && job.status == Completed)
            && (r == Some(CompletedBadge) <==> role == ServiceProvider && job.status == Completed)
            && (r == Some(Accepted) <==> role == Customer && job.status != Completed && Present(job.providerId))
            && (r == Some(ListedBadge) <==> role == Customer && job.status != Completed && !Present(job.providerId))
            && (r == Some(YouAccepted) <==>
                  role == ServiceProvider && job.status != Completed && job.providerId == Some(currentUserId))
            && (r == Some(Taken) <==>
                  role == ServiceProvider && job.status != Completed && Present(job.providerId)
                  && job.providerId != Some(currentUserId))
            && (r == Some(Open) <==>
                  role == ServiceProvider && job.status != Completed && !Present(job.providerId)
                  && job.providerId != Some(currentUserId))
  {
  }

  /** For a provider looking at somebody else's open job, the Open badge and
      the Accept button go together. */
  lemma OpenBadgeOffersAccept(job: Job, currentUserId: UserId)
    requires !JobActionModal.IsOwner(currentUserId, job) && job.status != Completed
    requires currentUserId != ""
    ensures StatusBadge(ServiceProvider, job, currentUserId) == Some(Open)
        <==> JobActionModal.ShowsAccept(ServiceProvider, currentUserId, job)
  {
  }

  /** After a successful accept the job reads "You Accepted" to the provider
      who accepted it, "Taken" to every other provider and "Accepted" to the
      customer. */
  lemma BadgesAfterAccept(rows: map<JobId, Job>, id: JobId, provider: UserId, other: UserId)
    requires JobActionModal.AcceptWrite(rows, id, provider, true).1.Some?
    requires provider != "" && other != provider
    ensures var job := JobActionModal.AcceptWrite(rows, id, provider, true).1.value;
            && StatusBadge(ServiceProvider, job, provider) == Some(YouAccepted)
            && StatusBadge(ServiceProvider, job, other) == Some(Taken)
            && StatusBadge(Customer, job, job.clientId) == Some(Accepted)
  {
  }
}
