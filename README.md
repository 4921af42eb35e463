# Cleaning-jobs client: a Dafny model

This project models the logic of a React client for a cleaning-jobs marketplace. Customers post jobs with a checklist of tasks. Service providers accept jobs and tick tasks off. The model covers these parts of the client:

- the job-form checks;
- a job's checklist of tasks and the roll-up of a job to `completed`;
- the job detail modal: permissions, the conditional accept, and the edit view with its task editor;
- the two status badges and the badge summing up tasks;
- the job list and the dashboard's local list of jobs;
- the checklist draft form;
- the older edit modal;
- the audit-history helpers;
- the job posting form, whose inverted result branches are recorded under Findings.

Most calls to the backend are parameters of the operation that makes them. The parameter says whether the call succeeded and what it returned; the row `EditJobModal.EditJobModal.Submit` gets back is built from the database's row, which is a parameter too. Two calls work on modelled tables instead:
- the conditional accept runs against a `JobsTable`, whose rows may hold anything when the click happens, including another provider's accept;
- the task refresh after a toggle reads back the `job_tasks` rows the checklist holds.

`getToday()` and `getMaxDate()` are parameters too: the `YYYY-MM-DD` texts they return.

Modules, one per file:

- `Common`: Option, JavaScript truthiness of nullable strings, the result of `parseFloat` (`JsNumber`), and the budget field (`BudgetInput`).
- `Text`: `trim`, JavaScript's `<` on strings, and decimal digits.
- `Lists`: filter by key and replace by key.
- `Dates`: calendar dates, the date 60 days ahead, and ISO text.
- `Records`: the `jobs` and `job_tasks` rows.
- One module for each source file: `Validation`, `TaskChecklist`, `JobActionModal`, `JobStatusBadge`, `JobList`, `TaskSummaryBadge`, `Dashboard`, `ChecklistJobForm`, `EditJobModal`, `JobHistory` and `JobForm`.

Components whose handlers change their state step by step are classes. Their fields are the component's state, and each handler is a method. Most methods are specified by a pure function of the old state, for example `Checklist.HandleToggle` by `Toggle`. The properties are proved as lemmas about those functions.

One might expect a job to count as completed exactly when all its tasks are done. The code instead completes a job when its last task is ticked and never reverts it when a task is undone. The model follows the code: see `TaskChecklist.UndoKeepsJobCompleted`.

## Model

| member | source | states |
|---|---|---|
| Validation.ValidateJobForm | src/utils/validation.js:28-63 | a result is valid exactly when its message is empty |
| Validation.ValidateFollowsRules | src/utils/validation.js:33-60 | the outcome is the first broken check, in the order title, date, time, past, window, NaN, negative, above 999 |
| Validation.FirstFailureValid | src/utils/validation.js:62 | the form passes exactly when no check is broken, and the passing result is `{ true, "" }` |
| Validation.FirstFailureReports | src/utils/validation.js:33-60 | when check k is the first broken one, its message is returned |
| Validation.AcceptedIffNoRuleBroken | src/utils/validation.js:33-62 | accepted exactly when none of the eight checks is broken; every rejection carries a non-empty message |
| Validation.BlankTitleFirst | src/utils/validation.js:33-35 | a blank or whitespace-only title gives the title message, whatever the other fields hold |
| Validation.FalsyBudgetSkipsBudgetChecks | src/utils/validation.js:49 | an empty or zero budget gives the same outcome as no budget |
| Validation.BudgetChecks | src/utils/validation.js:49-59 | a truthy budget is checked for NaN, then negative, then above 999, each with its own message; a value in [0, 999] passes |
| Validation.CalendarWindow | src/utils/validation.js:42-47 | with the ISO texts of today and of today + 60 days, a date is accepted exactly when it falls from today to 60 days ahead on the calendar |
| Validation.WindowEnds | src/utils/validation.js:42-47 | today and the 60th day are both accepted, because the comparisons are strict, and any earlier day is rejected |
| Validation.AcceptedBudgetIsStorable | src/utils/validation.js:49-59 | a truthy budget that passes parses to a finite amount from 0 to 999 |
| Dates.AddDaysSnoc | src/utils/validation.js:13-17 | adding one more day is taking the next day of the sum |
| Dates.AddDaysCrossesOneYear | src/utils/validation.js:13-17 | fewer than 339 days ahead, the year has advanced at most once, and only into the first days of the next year |
| Dates.MaxDate | src/utils/validation.js:13-17 | `getMaxDate` is a valid calendar day strictly after today, in the same year or the next |
| Dates.NextDay | src/utils/validation.js:15 | the next day is a valid date after the given one, and no valid date lies between them |
| Dates.IsoOrder | src/utils/validation.js:42-47 | comparing two `YYYY-MM-DD` texts with `<` is comparing the dates on the calendar |
| Dates.IsoInjective | src/utils/validation.js:7 | different dates have different ISO texts |
| Text.Trim | src/utils/validation.js:33 | `trim` returns a slice with blank prefix and suffix cut off, neither starting nor ending with whitespace |
| Text.TrimEmptyIffBlank | src/utils/validation.js:33 | `!s.trim()` holds exactly when every character of s is whitespace |
| Text.TrimIdempotent | src/utils/validation.js:33 | trimming twice is trimming once |
| Text.Less | src/utils/validation.js:42-47 | JavaScript's `<` on strings: a proper prefix is smaller, and no string is smaller than a prefix of itself |
| Text.LessIrreflexive | src/utils/validation.js:42 | no string is `<` itself |
| Text.LessTotal | src/utils/validation.js:42-45 | of two different strings of the same length, exactly one is `<` the other |
| Text.LessConcat | src/utils/validation.js:42-45 | for prefixes of equal length, the comparison is decided by the prefixes, or by the rest when they are equal |
| Text.NatToStringRoundTrip | src/components/TaskSummaryBadge.jsx:25 | reading back the decimal text of a count gives the count |
| TaskChecklist.CanMarkTasks | src/components/TaskChecklist.jsx:11 | only a service provider who is the job's assigned provider may tick tasks |
| TaskChecklist.OnlyTheAssignedProvider | src/components/TaskChecklist.jsx:11 | no one may tick the tasks of an unassigned job or as a non-provider, and at most one user may tick a job's tasks |
| TaskChecklist.Stamped | src/components/TaskChecklist.jsx:19-23 | a task marked done gets the time and `completed_by` set to the user; one marked not done gets both cleared |
| TaskChecklist.WriteToggle | src/components/TaskChecklist.jsx:17-24 | the update by id keeps the length and every id, and sets `is_done` exactly on the rows with the toggled id |
| TaskChecklist.LocalToggle | src/components/TaskChecklist.jsx:31 | the local copy changes only `is_done`, and only on the task with the toggled id |
| TaskChecklist.Checklist.constructor | src/components/TaskChecklist.jsx:7-8 | the checklist starts from the fetched rows, showing exactly those rows |
| TaskChecklist.WriteToggleTouchesOnlyTarget | src/components/TaskChecklist.jsx:17-24 | the write changes only the rows with the toggled id, and the length stays the same |
| TaskChecklist.LocalCopyAgreesWithRows | src/components/TaskChecklist.jsx:31-32 | the all-done test on the local copy agrees with the rows written |
| TaskChecklist.CompletingTheLastTask | src/components/TaskChecklist.jsx:31-32 | marking a task done completes the list exactly when every other task is done |
| TaskChecklist.UndoNeverCompletes | src/components/TaskChecklist.jsx:31-34 | undoing a task never leaves every task done |
| TaskChecklist.ToggleTwiceRestores | src/components/TaskChecklist.jsx:15-24 | toggling a task that is not done, then toggling it back, restores the rows |
| TaskChecklist.Toggle | src/components/TaskChecklist.jsx:13-47 | a failed task write changes nothing and raises only the failure toast; otherwise the toggled row is written with the flipped `is_done`, one refresh runs, the shown list becomes the rows only if the refresh succeeds (else its error toast is raised), and the status either stays or becomes `completed` |
| TaskChecklist.ToggleKeepsSync | src/modals/JobActionModal.jsx:84-90 | starting in step, the shown list stays in step with the rows exactly when nothing was written or the refresh succeeded |
| TaskChecklist.StaleClickRepeatsWrite | src/modals/JobActionModal.jsx:84-90 | after a failed refresh the box still shows the old state, so a second click writes the same `is_done` again instead of undoing the first |
| TaskChecklist.CompletedIsSticky | src/components/TaskChecklist.jsx:34-40 | a completed job stays completed whatever is toggled |
| TaskChecklist.LastTaskCompletesJob | src/components/TaskChecklist.jsx:31-39 | ticking the last open task completes the job, stamps `job_completed_at`, leaves every row done, and raises both toasts (and the refresh's error toast if it fails) |
| TaskChecklist.OpenTaskLeavesJobAlone | src/components/TaskChecklist.jsx:34-40 | while another task is open, the job row is not written |
| TaskChecklist.UndoKeepsJobCompleted | src/components/TaskChecklist.jsx:34-40 | undoing a task of a completed job leaves it completed with a row not done; there is no revert |
| TaskChecklist.Checklist.HandleToggle | src/components/TaskChecklist.jsx:13-47 | the new state and the toasts are those of `Toggle` on the old state |
| TaskChecklist.Checklist.Click | src/components/TaskChecklist.jsx:76-77 | a click does nothing unless `canMarkTasks` holds; otherwise it runs the toggle |
| JobActionModal.IsOwner | src/modals/JobActionModal.jsx:78 | the owner is the viewer whose id is the job's client id |
| JobActionModal.CanEdit | src/modals/JobActionModal.jsx:79-83 | whoever may edit is the owner and may also delete |
| JobActionModal.DeleteDisabled | src/modals/JobActionModal.jsx:144 | Delete is enabled exactly when the job is not completed and no task is done |
| JobActionModal.ShowsAccept | src/modals/JobActionModal.jsx:148 | Accept is shown only to a provider who is not the owner, on a job whose provider is null or empty |
| JobActionModal.ScreenFor | src/modals/JobActionModal.jsx:78-153 | the edit view shows exactly in edit mode when `canEdit` holds; otherwise the details show the owner buttons, Accept, the confirm panel and the completed tag under their exact conditions |
| JobActionModal.ControlsAreConsistent | src/modals/JobActionModal.jsx:141-148 | whoever may edit may delete; the owner buttons and Accept never show together; a completed job or one with a done task can be neither edited nor deleted |
| JobActionModal.AcceptWrite | src/modals/JobActionModal.jsx:99-100 | the update succeeds exactly when the row exists and has no provider; it then sets the provider and `in_progress`, and the returned row carries the `jobs` columns without embedded tasks; otherwise no row changes |
| JobActionModal.AcceptNeverOverwrites | src/modals/JobActionModal.jsx:99 | the ids stay the same; a job that has a provider, and every other job, keeps its row |
| JobActionModal.SecondAcceptFails | src/modals/JobActionModal.jsx:99-101 | after a successful accept, a second accept by anyone fails and changes nothing |
| JobActionModal.JobsTable.constructor | src/modals/JobActionModal.jsx:99 | the table holds the given rows |
| JobActionModal.JobsTable.AcceptIfUnassigned | src/modals/JobActionModal.jsx:99 | the table and the returned row are those of `AcceptWrite` |
| JobActionModal.ActionModal.constructor | src/modals/JobActionModal.jsx:73-77 | the modal opens in view mode with no tasks, not accepting, and no callback called |
| JobActionModal.ActionModal.FetchTasks | src/modals/JobActionModal.jsx:85-91 | nothing happens for a job without an id; fetched rows replace the tasks; on error the tasks are kept |
| JobActionModal.ActionModal.HandleAcceptJob | src/modals/JobActionModal.jsx:97-107 | the table changes as `AcceptWrite` says; `onUpdate` gets the returned row only on success; `isAccepting` ends false |
| JobActionModal.ActionModal.ClickAccept | src/modals/JobActionModal.jsx:97-149 | a hidden Accept button changes nothing; a shown one changes the table as `AcceptWrite` says, appends the returned row to `onUpdate`'s calls only on success, and leaves `isAccepting` false; a success leaves the job with this provider and `in_progress` |
| JobActionModal.ActionModal.ClickEdit | src/modals/JobActionModal.jsx:145 | only an enabled Edit button switches to edit mode, which then shows the edit view |
| JobActionModal.ActionModal.ClickDelete | src/modals/JobActionModal.jsx:144 | only an enabled Delete button asks for confirmation |
| JobActionModal.ActionModal.ConfirmDelete | src/modals/JobActionModal.jsx:109-153 | `onDelete(job.id)` is called only from the confirmation panel |
| JobActionModal.ActionModal.Cancel | src/modals/JobActionModal.jsx:122-153 | Cancel in the edit view or on the confirmation panel returns to view mode |
| JobActionModal.TasksToSave | src/modals/JobActionModal.jsx:42 | the saved tasks have the same length and order, each holding its task's category and description |
| JobActionModal.TasksToSaveAppend | src/modals/JobActionModal.jsx:42 | the projection of two lists joined is the two projections joined |
| JobActionModal.NewTask | src/modals/JobActionModal.jsx:25 | a new task has the temporary id, the trimmed description (non-empty, no whitespace at either end, unchanged by trimming again) and the trimmed category or `General`; it is not done and has no completion stamps |
| JobActionModal.EditView.constructor | src/modals/JobActionModal.jsx:12-21 | the fields start from the job; a missing location, date or time is `''` and a missing budget is empty |
| JobActionModal.EditView.AddTask | src/modals/JobActionModal.jsx:23-29 | a blank description changes nothing; otherwise one new task is appended and both inputs are cleared |
| JobActionModal.EditView.DeleteTask | src/modals/JobActionModal.jsx:31 | the tasks become those without the id, in order |
| JobActionModal.EditView.ClickRemove | src/modals/JobActionModal.jsx:65 | Remove does nothing for a done task |
| JobActionModal.EditView.Submit | src/modals/JobActionModal.jsx:33-54 | a failed check shows its message and sends nothing; otherwise the call carries the fields and the projected tasks, and a successful call updates the job and closes the modal |
| JobStatusBadge.StatusBadge | src/components/JobStatusBadge.jsx:3-46 | no badge exactly for a role other than customer or provider; a customer gets one of three badges and a provider one of four |
| JobStatusBadge.BadgeMeaning | src/components/JobStatusBadge.jsx:5-45 | each badge holds exactly in its case: completion first, then provider presence and, for a provider, whether it is the viewer |
| JobStatusBadge.LabelInjective | src/components/JobStatusBadge.jsx:7-40 | different badges have different texts |
| JobStatusBadge.OpenBadgeOffersAccept | src/components/JobStatusBadge.jsx:38-42 | for a provider viewing another user's open job, the Open badge shows exactly when Accept is offered |
| JobStatusBadge.BadgesAfterAccept | src/components/JobStatusBadge.jsx:9-36 | after an accept, the job reads "You Accepted" to that provider, "Taken" to other providers and "Accepted" to the customer |
| JobList.LegacyBadge | src/JobList.jsx:5-20 | no badge for a non-provider; otherwise one of You Accepted, Taken or Open |
| JobList.LegacyIgnoresStatus | src/JobList.jsx:5-20 | the list's badge does not depend on the job's status, so a completed job keeps the badge it had while open |
| JobList.LegacyAgreesWhileOpen | src/JobList.jsx:11-19 | for a job that is not completed it agrees with the shared badge; a completed job shows what the shared badge shows for it in progress, never Completed; a customer sees none |
| JobList.BudgetLabelOf | src/JobList.jsx:41 | an amount is shown exactly for a present, non-zero budget |
| JobList.Render | src/JobList.jsx:22-52 | loading shows only the loading text; a missing or empty list shows the empty text; otherwise one item per job, in order |
| TaskSummaryBadge.Summary | src/components/TaskSummaryBadge.jsx:3-16 | a badge shows exactly for a job with a non-empty task list; total is the length and completed is the number of done tasks, at most the total |
| TaskSummaryBadge.SummaryMeaning | src/components/TaskSummaryBadge.jsx:9-16 | the badge is complete exactly when every task is done; it counts zero done exactly when none is |
| TaskSummaryBadge.Caption | src/components/TaskSummaryBadge.jsx:25 | the caption is the done count's decimal digits, " / ", the total's digits and " Tasks" (with `CaptionInjective`, it determines both counts) |
| TaskSummaryBadge.CaptionInjective | src/components/TaskSummaryBadge.jsx:25 | the caption determines both counts |
| Records.CountDone | src/components/TaskSummaryBadge.jsx:9 | the count of done tasks is at most the number of tasks |
| Records.CountDoneAll | src/components/TaskSummaryBadge.jsx:16 | every task is counted done exactly when every task is done |
| Records.CountDoneNone | src/components/TaskSummaryBadge.jsx:9 | no task is counted done exactly when none is done |
| Records.CategoryOrDefault | src/modals/JobActionModal.jsx:25 | the category is the trimmed input, or 'General' when the input is blank; never empty |
| Lists.Without | src/Dashboard.jsx:36-38 | keeps exactly the elements whose key differs, never more than before |
| Lists.WithoutConcat | src/Dashboard.jsx:37 | filtering distributes over joining, so the order of the rest is kept |
| Lists.WithoutAbsent | src/Dashboard.jsx:37 | removing an id not present changes nothing |
| Lists.WithoutIdempotent | src/Dashboard.jsx:36-38 | removing twice is removing once |
| Lists.WithoutLength | src/Dashboard.jsx:37 | the length drops by the number of elements with that id |
| Lists.UpdateWhere | src/Dashboard.jsx:40-44 | same length; matching elements are replaced, the rest unchanged |
| Lists.UpdateWhereAbsent | src/Dashboard.jsx:40-44 | replacing an id not present changes nothing |
| Dashboard.RemoveUndoesAdd | src/Dashboard.jsx:32-38 | removing a job just added, by its new id, restores the list |
| Dashboard.RemoveAfterUpdate | src/Dashboard.jsx:36-44 | replacing a job then removing it is the same as removing it |
| Dashboard.UpdateKeepsIds | src/Dashboard.jsx:40-44 | every position keeps its id after a replace |
| Dashboard.Dashboard.constructor | src/Dashboard.jsx:8-9 | the dashboard starts with no jobs and loading |
| Dashboard.Dashboard.FetchJobs | src/Dashboard.jsx:12-22 | rows returned replace the list; on error it is kept; loading ends either way |
| Dashboard.Dashboard.Mount | src/Dashboard.jsx:24-26 | a user without an id fetches nothing |
| Dashboard.Dashboard.AddJobToList | src/Dashboard.jsx:32-34 | the new job goes first, followed by the old list |
| Dashboard.Dashboard.RemoveJobFromList | src/Dashboard.jsx:36-38 | the list becomes the jobs without that id |
| Dashboard.Dashboard.UpdateJobInList | src/Dashboard.jsx:40-44 | jobs with the updated id are replaced by it |
| ChecklistJobForm.NewDraft | src/components/ChecklistJobForm.jsx:25-29 | the new draft task has the given id, the trimmed category or `General`, and the trimmed description, non-empty with no whitespace at either end and unchanged by trimming again |
| ChecklistJobForm.ChecklistJobForm.constructor | src/components/ChecklistJobForm.jsx:10-21 | every field starts empty and the task list is empty |
| ChecklistJobForm.ChecklistJobForm.AddTask | src/components/ChecklistJobForm.jsx:23-33 | a blank description changes nothing; otherwise one task is appended and only the new-task input is cleared |
| ChecklistJobForm.ChecklistJobForm.DeleteTask | src/components/ChecklistJobForm.jsx:35-37 | the tasks become those without the id, in order |
| ChecklistJobForm.ChecklistJobForm.Submit | src/components/ChecklistJobForm.jsx:39-54 | the data carries the fields, the user's id and the tasks; the budget is null exactly when falsy, otherwise its parsed value |
| Common.BudgetOrNull | src/components/ChecklistJobForm.jsx:46 | `budget ? parseFloat(budget) : null` is null exactly for a falsy budget |
| Common.AsColumn | src/modals/JobActionModal.jsx:43 | only a finite number is stored; NaN is sent as null |
| EditJobModal.EditJobModal.constructor | src/EditJobModal.jsx:6-13 | the fields start from the job; a missing or zero budget becomes empty |
| EditJobModal.EditJobModal.ValidateForm | src/EditJobModal.jsx:24-64 | returns true exactly when `validateJobForm` accepts the same fields, and on failure writes the same message |
| EditJobModal.EditJobModal.Submit | src/EditJobModal.jsx:66-90 | a failed check sends nothing; otherwise the columns are sent; an error shows "❌ " and its text without calling `onUpdate`; success calls it with the database's row for the job's id after the update |
| EditJobModal.Saved | src/EditJobModal.jsx:75-82 | the row returned is the database's current row with the written columns replaced: it keeps that row's id, owner, provider and status, whatever other users wrote to them, and carries no embedded tasks, since `select()` returns the `jobs` columns only |
| EditJobModal.SaveTwiceKeepsLast | src/EditJobModal.jsx:75-82 | saving twice gives the row of the last save: the written columns are overwritten and the rest is kept |
| JobHistory.DisplayName | src/components/JobHistory.jsx:6 | the name is never empty: it is a present field or 'Unknown', with the company name first |
| JobHistory.DisplayNameChoice | src/components/JobHistory.jsx:6 | full name, then e-mail, then 'Unknown' are used as the fallbacks |
| JobHistory.FmtTime | src/components/JobHistory.jsx:5 | 'N/A' exactly for a missing or empty timestamp |
| JobHistory.Fmt | src/components/JobHistory.jsx:93 | null and undefined print as 'null' and strings as themselves |
| JobHistory.FmtNullMeaning | src/components/JobHistory.jsx:93 | 'null' is printed exactly for null, undefined or the string "null" |
| JobHistory.FieldLabel | src/components/JobHistory.jsx:94 | the label is the field (or empty) with every underscore replaced by a space and every other character kept |
| JobHistory.DiffCandidates | src/components/JobHistory.jsx:42-45 | a diff contributes exactly its truthy old and new values, and only for `provider_id` |
| JobHistory.DedupMembers | src/components/JobHistory.jsx:38-48 | the distinct values are exactly the values seen |
| JobHistory.DedupDistinct | src/components/JobHistory.jsx:38-48 | no value appears twice |
| JobHistory.ListCandidatesHas | src/components/JobHistory.jsx:41-46 | every truthy old or new value of a `provider_id` diff in the list is collected |
| JobHistory.ListCandidatesFrom | src/components/JobHistory.jsx:41-46 | every collected value comes from some `provider_id` diff in the list, as a truthy old or new value |
| JobHistory.ListCandidatesMembers | src/components/JobHistory.jsx:41-46 | a value comes from a diff list exactly when some diff in it contributes it |
| JobHistory.CandidatesHas | src/components/JobHistory.jsx:37-49 | every value collected from one entry's diffs is among the candidates of all entries |
| JobHistory.CandidatesFrom | src/components/JobHistory.jsx:37-49 | every candidate of the entries was collected from the diffs of one of them |
| JobHistory.CandidatesMembers | src/components/JobHistory.jsx:39-47 | a value comes from the entries exactly when some entry contributes it |
| JobHistory.ProviderIds | src/components/JobHistory.jsx:37-49 | `providerIds` holds exactly the collected candidates, each once |
| JobHistory.ProviderIdsMeaning | src/components/JobHistory.jsx:37-49 | `providerIds` holds exactly the truthy old/new values of provider diffs, each once |
| JobHistory.EntryWithoutDiffsAddsNothing | src/components/JobHistory.jsx:40 | an entry without `details.details` adds no id |
| JobHistory.DedupStep | src/components/JobHistory.jsx:42-45 | one diff's adds extend the distinct values of the longer sequence |
| JobHistory.AddProviderIds | src/components/JobHistory.jsx:42-45 | the inner-loop body adds as `AddDiff` says |
| JobHistory.AddEntryIds | src/components/JobHistory.jsx:40-46 | the inner loop extends the distinct values by one entry's candidates |
| JobHistory.CollectProviderIds | src/components/JobHistory.jsx:37-49 | the nested loops compute `ProviderIds` |
| JobHistory.ProfilesById | src/components/JobHistory.jsx:65-66 | every profile is found in the map, and each entry is stored under its own id |
| JobHistory.ProfilesByIdMeaning | src/components/JobHistory.jsx:65-66 | each returned profile is found under its id, and the one found is the last with that id |
| JobHistory.BuildProfileMap | src/components/JobHistory.jsx:65-66 | the loop computes `ProfilesById` of `data || []` |
| JobHistory.OldLabel | src/components/JobHistory.jsx:80-82 | 'Unassigned' for a falsy or unknown old provider; otherwise the profile's display name |
| JobHistory.NewLabel | src/components/JobHistory.jsx:81-83 | 'Unassigned' for a falsy new provider, 'Unknown' for an unknown one; otherwise the display name |
| JobHistory.LabelsOfUnknownProvider | src/components/JobHistory.jsx:82-83 | an unknown old provider reads 'Unassigned' and an unknown new one 'Unknown' |
| JobHistory.RenderDetail | src/components/JobHistory.jsx:77-102 | provider diffs get the two labels; other fields get the field label and both formatted values |
| JobHistory.History.constructor | src/components/JobHistory.jsx:9-11 | the history starts with no entries, no profiles and loading |
| JobHistory.History.LoadEntries | src/components/JobHistory.jsx:14-34 | nothing without a job id; rows returned replace the entries, kept on error; loading ends |
| JobHistory.History.LoadProfiles | src/components/JobHistory.jsx:52-72 | a lookup is made exactly when there are provider ids; on error the map is kept, otherwise rebuilt |
| JobForm.AfterInsertAsWritten | src/JobForm.jsx:38-45 | as written, the posted message and `onNewJob` happen exactly when the insert failed |
| JobForm.AsWrittenInvertsOutcome | src/JobForm.jsx:38-45 | a failure is reported as posted and hands `null` to `onNewJob`; a success is never reported |
| JobForm.AfterInsert | src/JobForm.jsx:38-45 | as intended, the posted message, `onNewJob` with the new row and clearing happen exactly on success; an error shows "❌ " and its text |
| JobForm.CorrectionChangesEveryOutcome | src/JobForm.jsx:38-45 | the corrected message differs from the as-written one for every outcome |
| JobForm.JobForm.constructor | src/JobForm.jsx:6-12 | every field and the message start empty |
| JobForm.JobForm.HandleSubmit | src/JobForm.jsx:14-46 | a failed check or a missing user sends nothing and keeps every field; otherwise the row carries the user's id, the form's fields and the budget or null; the outcome is handled as intended, and only a successful insert appends the job and clears the fields, while a failed one keeps them |

## Left out

- The backend: queries, inserts, updates, RPCs and auth. Except for the accept and the task refresh, each call is a parameter saying whether it succeeded and what it returned. What `update_job_with_tasks` does on the server is not visible in the client.
- TaskChecklist.Toggle: the refresh reads back exactly the rows this checklist holds, so writes by other users to the job's `job_tasks` rows between two clicks are not modelled.
- Toasts are not modelled, except in `TaskChecklist`. There they are the `Notice` list, because their order shows which branch ran.
- Interest and arbitration between providers: no code for them exists in the client.
- Races between users accepting the same job. `AcceptWrite` is a sequential compare-and-set, and the atomicity of the conditional update is the database's concern.
- The clock:
  - `getToday` and `getMaxDate` are parameters.
  - `Dates` relates them to the calendar day in the time zone used. `toISOString` gives the UTC date while `setDate` steps local days; that difference is not modelled.
  - Years are kept below 9999, so that the 60-day window, which ends in the same year or the next, stays within four-digit ISO years.
- `parseFloat`: its prefix parsing of text is not modelled. A typed budget is the number it parses to, or NaN.
- Number formatting (`£${budget}`, `toLocaleString`): `BudgetLabel` and `TimeText` keep the value, not its text.
- Timestamps and temporary ids from `Date.now()` are opaque parameters.
- The in-flight flags `loadingId` (TaskChecklist.jsx:8,14,46) and `isLoadingTasks` (JobActionModal.jsx:76) are not modelled, and neither are the effects' `cancelled` guards. Each handler runs to completion before the next event.
- TaskChecklist.Toggle: assumes `refreshTasks` is passed, as every caller does; the `if (refreshTasks)` guard is not modelled. The refresh is not awaited in the source; the model runs it to completion within the toggle, so its error toast comes last.
- JobHistory.Value: numbers are integers; a fractional value in a diff is not modelled.
- JobHistory.Fmt: arrays and objects in diff values are not modelled; `String(v)` would give their comma-joined elements or `[object Object]`.
- JobHistory.Diff: a `null` entry in a diff list is not modelled. `renderDetail` would throw on it.
- Strings are sequences of code points, while JavaScript compares UTF-16 units. They agree for the digit and dash texts compared here.
- EditJobModal.EditJobModal.constructor: a `null` title is not modelled. `title.trim()` would throw on it.
- JobActionModal.EditView.Submit: a NaN budget in `updatedJob` is represented as an absent budget, which is what the JSON request carries.
- The JSX layout and CSS classes beyond the badge texts and labels named above.
- The auth forms, the profile and avatar pages, the maps wrappers, the bootstrap, the mock data, the presentational components and the archived job card: they hold no logic of their own beyond I/O.

## Findings

| source | as written | input that shows it | evidently intended | confidence | as-written member | corrected member |
|---|---|---|---|---|---|---|
| src/JobForm.jsx:38-45 | `if (error)` runs the success branch, and `else if (error)` can never run | an insert that fails: the form shows "✅ Job posted successfully.", calls `onNewJob(null)` and clears the fields. A successful insert shows nothing and never reaches `onNewJob` | on success, show the posted message, pass the new row to `onNewJob` and clear the fields; on error, show "❌ " and the error | high (not executed) | JobForm.AfterInsertAsWritten, JobForm.AsWrittenInvertsOutcome | JobForm.AfterInsert, JobForm.JobForm.HandleSubmit |
