/** `validateJobForm`: the ordered checks a job form must pass before it is
    saved. The clock reads `getToday()` and `getMaxDate()` are parameters:
    `todayStr` and `maxStr` are the `YYYY-MM-DD` texts they return. */
module Validation {
  import opened Common
  import Text
  import Dates

  /** The form fields the checks read. A missing `date` or `time` is the
      empty string. */
  datatype JobFormInput = JobFormInput(title: string, date: string, time: string, budget: BudgetInput)

  /** `{ isValid, message }` */
  datatype Outcome = Outcome(isValid: bool, message: string)

  const TitleRequired := "❌ Job title is required."
  const DateRequired := "❌ Job date is required."
  const TimeRequired := "❌ Job time is required."
  const DateInPast := "❌ Job date cannot be in the past."
  const DateTooFar := "❌ Job date cannot be more than 60 days from now."
  const BudgetNotANumber := "❌ Budget must be a valid number."
  const BudgetNegative := "❌ Budget cannot be negative."
  const BudgetTooHigh := "❌ Budget cannot exceed £999."

  const MaxBudget: real := 999.0

  /** One check: whether the form breaks it and the message it reports. */
  datatype Rule = Rule(broken: bool, message: string)

  /** The checks in the order they are made. The three budget checks apply
      only to a truthy budget; dates are compared as strings. */
  function Rules(f: JobFormInput, todayStr: string, maxStr: string): (rules: seq<Rule>)
    ensures |rules| == 8
    ensures forall i :: 0 <= i < |rules| ==> rules[i].message != ""
  {
    var n := f.budget.ParseFloat();
    [ Rule(Text.Blank(f.title), TitleRequired),
      Rule(f.date == "", DateRequired),
      Rule(f.time == "", TimeRequired),
      Rule(Text.Less(f.date, todayStr), DateInPast),
      Rule(Text.Less(maxStr, f.date), DateTooFar),
      Rule(f.budget.Truthy() && n.IsNaN(), BudgetNotANumber),
      Rule(f.budget.Truthy() && n.Negative(), BudgetNegative),
      Rule(f.budget.Truthy() && n.Exceeds(MaxBudget), BudgetTooHigh) ]
  }

  /** The message of the first broken check, or success. */
  function FirstFailure(rules: seq<Rule>): Outcome
  {
    if rules == [] then Outcome(true, "")
    else if rules[0].broken then Outcome(false, rules[0].message)
    else FirstFailure(rules[1..])
  }

  /** The form passes exactly when no check is broken. */
  lemma {:induction false} FirstFailureValid(rules: seq<Rule>)
    ensures FirstFailure(rules).isValid <==> forall i :: 0 <= i < |rules| ==> !rules[i].broken
    ensures FirstFailure(rules).isValid ==> FirstFailure(rules) == Outcome(true, "")
  {
    if rules != [] {
      FirstFailureValid(rules[1..]);
      assert forall i :: 1 <= i < |rules| ==> rules[i] == rules[1..][i - 1];
    }
  }

  /** When check `k` is the first broken one, its message is reported. */
  lemma {:induction false} FirstFailureReports(rules: seq<Rule>, k: nat)
    requires k < |rules| && rules[k].broken
    requires forall i :: 0 <= i < k ==> !rules[i].broken
    ensures FirstFailure(rules) == Outcome(false, rules[k].message)
  {
    if k > 0 {
      FirstFailureReports(rules[1..], k - 1);
    }
  }

  /** `validateJobForm({ title, date, time, budget })` */
  function ValidateJobForm(f: JobFormInput, todayStr: string, maxStr: string): (r: Outcome)
    ensures r.isValid <==> r.message == ""
  {
    if Text.Trim(f.title) == [] then Outcome(false, TitleRequired)
    else if f.date == "" then Outcome(false, DateRequired)
    else if f.time == "" then Outcome(false, TimeRequired)
    else if Text.Less(f.date, todayStr) then Outcome(false, DateInPast)
    else if Text.Less(maxStr, f.date) then Outcome(false, DateTooFar)
    else if f.budget.Truthy() then
      var n := f.budget.ParseFloat();
      if n.IsNaN() then Outcome(false, BudgetNotANumber)
      else if n.Negative() then Outcome(false, BudgetNegative)
      else if n.Exceeds(MaxBudget) then Outcome(false, BudgetTooHigh)
      else Outcome(true, "")
    else Outcome(true, "")
  }

  /** The checks are made in the order `Rules` lists them and the first
      broken one decides the outcome. */
  lemma ValidateFollowsRules(f: JobFormInput, todayStr: string, maxStr: string)
    ensures ValidateJobForm(f, todayStr, maxStr) == FirstFailure(Rules(f, todayStr, maxStr))
  {
    var rules := Rules(f, todayStr, maxStr);
    Text.TrimEmptyIffBlank(f.title);
    if rules[0].broken {
      FirstFailureReports(rules, 0);
    } else if rules[1].broken {
      FirstFailureReports(rules, 1);
    } else if rules[2].broken {
      FirstFailureReports(rules, 2);
    } else if rules[3].broken {
      FirstFailureReports(rules, 3);
    } else if rules[4].broken {
      FirstFailureReports(rules, 4);
    } else if rules[5].broken {
      FirstFailureReports(rules, 5);
    } else if rules[6].broken {
      FirstFailureReports(rules, 6);
    } else if rules[7].broken {
      FirstFailureReports(rules, 7);
    } else {
      FirstFailureValid(rules);
    }
  }

  /** A form is accepted exactly when it breaks none of the checks, and a
      rejected form always carries a message. */
  lemma AcceptedIffNoRuleBroken(f: JobFormInput, todayStr: string, maxStr: string)
    ensures ValidateJobForm(f, todayStr, maxStr).isValid
        <==> forall i :: 0 <= i < 8 ==> !Rules(f, todayStr, maxStr)[i].broken
    ensures !ValidateJobForm(f, todayStr, maxStr).isValid
        ==> ValidateJobForm(f, todayStr, maxStr).message != ""
  {
    ValidateFollowsRules(f, todayStr, maxStr);
    FirstFailureValid(Rules(f, todayStr, maxStr));
  }

  /** A blank title is reported before anything else, whatever the other
      fields hold. */
  lemma BlankTitleFirst(f: JobFormInput, todayStr: string, maxStr: string)
    requires Text.Blank(f.title)
    ensures ValidateJobForm(f, todayStr, maxStr) == Outcome(false, TitleRequired)
  {
    ValidateFollowsRules(f, todayStr, maxStr);
    FirstFailureReports(Rules(f, todayStr, maxStr), 0);
  }

  /** A falsy budget (empty, or the number 0) skips every budget check: the
      outcome is that of the same form with no budget. */
  lemma FalsyBudgetSkipsBudgetChecks(f: JobFormInput, todayStr: string, maxStr: string)
    requires !f.budget.Truthy()
    ensures ValidateJobForm(f, todayStr, maxStr) == ValidateJobForm(f.(budget := Blank), todayStr, maxStr)
  {
  }

  /** The budget checks in order: NaN, then negative, then above 999; a
      present budget in [0, 999] passes. */
  lemma BudgetChecks(f: JobFormInput, todayStr: string, maxStr: string)
    requires !Text.Blank(f.title) && f.date != "" && f.time != ""
    requires !Text.Less(f.date, todayStr) && !Text.Less(maxStr, f.date)
    requires f.budget.Truthy()
    ensures var r := ValidateJobForm(f, todayStr, maxStr);
            var n := f.budget.ParseFloat();
            && (n.IsNaN() ==> r == Outcome(false, BudgetNotANumber))
            && (n.Negative() ==> r == Outcome(false, BudgetNegative))
            && (n.Exceeds(MaxBudget) ==> r == Outcome(false, BudgetTooHigh))
            && (n.Finite? && 0.0 <= n.value <= MaxBudget ==> r.isValid)
  {
    var rules := Rules(f, todayStr, maxStr);
    var n := f.budget.ParseFloat();
    ValidateFollowsRules(f, todayStr, maxStr);
    if n.IsNaN() {
      FirstFailureReports(rules, 5);
    } else if n.Negative() {
      FirstFailureReports(rules, 6);
    } else if n.Exceeds(MaxBudget) {
      FirstFailureReports(rules, 7);
    } else {
      FirstFailureValid(rules);
    }
  }

  /** A form with a title, a time and a falsy budget, whose date is a calendar
      day `d` written as `YYYY-MM-DD`, checked on day `today`: it is accepted
      exactly when `d` lies from today to 60 days ahead, both ends
      included. */
  lemma CalendarWindow(f: JobFormInput, d: Dates.Date, today: Dates.Date)
    requires !Text.Blank(f.title) && f.time != "" && !f.budget.Truthy()
    requires Dates.Valid(d) && d.year < 10000
    requires Dates.Valid(today) && today.year < 9999
    requires f.date == Dates.Iso(d)
    ensures var maxDay := Dates.MaxDate(today);
            var accepted := ValidateJobForm(f, Dates.Iso(today), Dates.Iso(maxDay)).isValid;
            accepted <==> !Dates.Before(d, today) && !Dates.Before(maxDay, d)
  {
    var maxDay := Dates.MaxDate(today);
    Dates.IsoOrder(d, today);
    Dates.IsoOrder(maxDay, d);
    ValidateFollowsRules(f, Dates.Iso(today), Dates.Iso(maxDay));
    FirstFailureValid(Rules(f, Dates.Iso(today), Dates.Iso(maxDay)));
  }

  /** The comparisons are strict: a job for today and a job for the last day
      of the window are both accepted, and a job for any earlier day, such
      as yesterday, is not. */
  lemma WindowEnds(f: JobFormInput, today: Dates.Date, earlier: Dates.Date)
    requires !Text.Blank(f.title) && f.time != "" && !f.budget.Truthy()
    requires Dates.Valid(today) && today.year < 9999
    requires Dates.Valid(earlier) && Dates.Before(earlier, today)
    ensures var todayStr, maxStr := Dates.Iso(today), Dates.Iso(Dates.MaxDate(today));
            && ValidateJobForm(f.(date := todayStr), todayStr, maxStr).isValid
            && ValidateJobForm(f.(date := maxStr), todayStr, maxStr).isValid
            && !ValidateJobForm(f.(date := Dates.Iso(earlier)), todayStr, maxStr).isValid
  {
    var maxDay := Dates.MaxDate(today);
    CalendarWindow(f.(date := Dates.Iso(today)), today, today);
    CalendarWindow(f.(date := Dates.Iso(maxDay)), maxDay, today);
    CalendarWindow(f.(date := Dates.Iso(earlier)), earlier, today);
  }

  /** A form that passes carries either a falsy budget or one that parses to
      a finite amount from 0 to 999, which a numeric column can hold. */
  lemma AcceptedBudgetIsStorable(f: JobFormInput, todayStr: string, maxStr: string)
    requires ValidateJobForm(f, todayStr, maxStr).isValid
    ensures f.budget.Truthy() ==>
              var n := f.budget.ParseFloat();
              n.Finite? && 0.0 <= n.value <= MaxBudget
  {
  }
}
