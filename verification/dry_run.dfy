/** The dry run and what it predicts about the run
    (crates/ferridriver-bdd/src/dry_run.rs:47-119, 181-227). */
module DryRun {
  import opened Json
  import opened Registry
  import opened World
  import opened Executor

  datatype Kind = UndefinedIssue | AmbiguousIssue

  datatype StepIssue = StepIssue(kind: Kind, text: string, line: nat, message: Message)

  /** The problem with one step, if there is one. */
  function IssueOf(b: Behaviour, step: Step, text: string): Option<StepIssue> {
    match Found(b.defs, text, b.matcher)
    case Ok(_) => None
    case Err(Undefined(t)) => Some(StepIssue(UndefinedIssue, t, step.line, UndefinedStep(step, t)))
    case Err(Ambiguous(t, matches, expressions)) =>
      Some(StepIssue(AmbiguousIssue, t, step.line, AmbiguousStep(t, matches, expressions)))
  }

  /** `check_scenario`, with the row's values substituted as the executor will. */
  function Checked(b: Behaviour, steps: seq<Step>, values: Option<map<string, string>>): seq<StepIssue> {
    if steps == [] then []
    else
      var issue := IssueOf(b, steps[0], Substituted(steps[0].text, values, b.wide));
      (if issue.Some? then [issue.value] else []) + Checked(b, steps[1..], values)
  }

  /** How a dry run reports a step. */
  datatype Report =
    | ReportSkipped(reason: Option<Message>)
    | ReportPending(message: Message)
    | ReportFailed(message: Message)

  function IssueAt(issues: seq<StepIssue>, line: nat): Option<StepIssue> {
    if issues == [] then None else if issues[0].line == line then Some(issues[0]) else IssueAt(issues[1..], line)
  }

  function ReportOf(issue: Option<StepIssue>, failure: Option<Message>, strict: bool): Report {
    if failure.Some? then ReportSkipped(Some(AfterFailure))
    else if issue.None? then ReportSkipped(None)
    else if issue.value.kind == UndefinedIssue && !strict then ReportPending(issue.value.message)
    else ReportFailed(issue.value.message)
  }

  datatype Dry = Dry(reports: seq<Report>, failure: Option<Message>)

  function DryRan(steps: seq<Step>, issues: seq<StepIssue>, strict: bool): Dry {
    if steps == [] then Dry([], None)
    else
      var before, step := DryRan(steps[..|steps| - 1], issues, strict), steps[|steps| - 1];
      var report := ReportOf(IssueAt(issues, step.line), before.failure, strict);
      Dry(before.reports + [report], if report.ReportFailed? then Some(report.message) else before.failure)
  }

  /** The body of a dry-run test. */
  method DryRunBody(steps: seq<Step>, issues: seq<StepIssue>, strict: bool)
    returns (reports: seq<Report>, failure: Option<Message>)
    ensures Dry(reports, failure) == DryRan(steps, issues, strict)
  {
    reports, failure := [], None;
    for n := 0 to |steps|
      invariant Dry(reports, failure) == DryRan(steps[..n], issues, strict)
    {
      assert steps[..n + 1][..n] == steps[..n];
      var issue := IssueAt(issues, steps[n].line);
      if failure.Some? {
        reports := reports + [ReportSkipped(Some(AfterFailure))];
      } else if issue.Some? && issue.value.kind == UndefinedIssue && !strict {
        reports := reports + [ReportPending(issue.value.message)];
      } else if issue.Some? {
        reports := reports + [ReportFailed(issue.value.message)];
        failure := Some(issue.value.message);
      } else {
        reports := reports + [ReportSkipped(None)];
      }
    }
    assert steps[..|steps|] == steps;
  }

  // ---------------------------------------------------------------- the prediction

  predicate DistinctLines(steps: seq<Step>) {
    forall i, j :: 0 <= i < j < |steps| ==> steps[i].line != steps[j].line
  }

  lemma {:induction false} CheckedLines(b: Behaviour, steps: seq<Step>, values: Option<map<string, string>>, line: nat)
    requires forall i :: 0 <= i < |steps| ==> steps[i].line != line
    ensures forall k :: 0 <= k < |Checked(b, steps, values)| ==> Checked(b, steps, values)[k].line != line
  {
    if steps != [] {
      CheckedLines(b, steps[1..], values, line);
    }
  }

  lemma {:induction false} NoIssueElsewhere(issues: seq<StepIssue>, line: nat)
    requires forall k :: 0 <= k < |issues| ==> issues[k].line != line
    ensures IssueAt(issues, line) == None
  {
    if issues != [] {
      NoIssueElsewhere(issues[1..], line);
    }
  }

  /** When lines are distinct, the issue found at a step's line is that step's own. */
  lemma {:induction false} OwnIssue(b: Behaviour, steps: seq<Step>, values: Option<map<string, string>>, n: nat)
    requires DistinctLines(steps) && n < |steps|
    ensures IssueAt(Checked(b, steps, values), steps[n].line) ==
            IssueOf(b, steps[n], Substituted(steps[n].text, values, b.wide))
    decreases |steps|
  {
    var issue := IssueOf(b, steps[0], Substituted(steps[0].text, values, b.wide));
    var rest := Checked(b, steps[1..], values);
    assert forall i :: 0 <= i < |steps[1..]| ==> steps[1..][i] == steps[i + 1];
    if issue.Some? {
      assert Checked(b, steps, values)[1..] == rest;
    } else {
      assert Checked(b, steps, values) == rest;
    }
    if n == 0 {
      if issue.None? {
        CheckedLines(b, steps[1..], values, steps[0].line);
        NoIssueElsewhere(rest, steps[0].line);
      }
    } else {
      OwnIssue(b, steps[1..], values, n - 1);
    }
  }

  /** No hook changes the world or refuses the scenario. */
  ghost predicate NoHooks(b: Behaviour) {
    (forall w :: b.beforeScenario(w) == (true, w)) &&
    (forall t, w :: b.beforeStep(t, w) == w) &&
    (forall t, w :: b.afterStep(t, w) == w) &&
    forall w :: b.afterScenario(w) == w
  }

  /** Every handler succeeds and leaves the variables alone. */
  ghost predicate HandlersSucceed(b: Behaviour) {
    forall def, params, step, w ::
      b.handler(def, params, step, w).0 == Done && b.handler(def, params, step, w).1.vars == w.vars
  }

  function RowValues(values: Option<map<string, string>>): map<string, string> {
    if values.Some? then values.value else map[]
  }

  /** The row has values, or no step's text doubles a dollar: the texts are read alike. */
  predicate ReadAlike(steps: seq<Step>, values: Option<map<string, string>>) {
    RowValues(values) != map[] || forall i :: 0 <= i < |steps| ==> !DoubledDollar(steps[i].text)
  }

  /** The report of a dry run says what the run will make of the step. */
  predicate Predicts(report: Report, result: StepResult) {
    match report
    case ReportSkipped(None) => result.status == Passed && result.error == None
    case ReportSkipped(Some(reason)) => result.status == Skipped && result.error == Some(reason)
    case ReportPending(message) => result.status == Pending && result.error == Some(message)
    case ReportFailed(message) => result.status == Failed && result.error == Some(message)
  }

  lemma StepPredicted(b: Behaviour, step: Step, values: Option<map<string, string>>, failure: Option<Message>,
      w: Contents)
    requires NoHooks(b) && HandlersSucceed(b) && w.vars == RowValues(values)
    requires RowValues(values) != map[] || !DoubledDollar(step.text)
    ensures var a := Advanced(b, step, failure, w);
            var report := ReportOf(IssueOf(b, step, Substituted(step.text, values, b.wide)), failure, b.strict);
            Predicts(report, a.result) && a.world.vars == w.vars &&
            a.failure == (if report.ReportFailed? then Some(report.message) else failure)
  {
    SubstituteAgrees(step.text, values, b.wide);
  }

  lemma DryLast(steps: seq<Step>, step: Step, issues: seq<StepIssue>, strict: bool)
    ensures var before := DryRan(steps, issues, strict);
            var report := ReportOf(IssueAt(issues, step.line), before.failure, strict);
            DryRan(steps + [step], issues, strict) ==
            Dry(before.reports + [report], if report.ReportFailed? then Some(report.message) else before.failure)
  {
    assert (steps + [step])[..|steps|] == steps;
  }

  /** Report by report and result by result. */
  predicate AllPredicted(reports: seq<Report>, results: seq<StepResult>) {
    |reports| == |results| && forall i :: 0 <= i < |reports| ==> Predicts(reports[i], results[i])
  }

  lemma OneMorePredicted(reports: seq<Report>, results: seq<StepResult>, report: Report, result: StepResult)
    requires AllPredicted(reports, results) && Predicts(report, result)
    ensures AllPredicted(reports + [report], results + [result])
  {
  }

  /** What the dry run of the first `n` steps says of their run. */
  ghost predicate Predicted(b: Behaviour, all: seq<Step>, n: nat, values: Option<map<string, string>>, w: Contents)
    requires n <= |all|
  {
    var dry, p := DryRan(all[..n], Checked(b, all, values), b.strict), Ran(b, all[..n], w);
    AllPredicted(dry.reports, p.results) && |p.results| == n && dry.failure == p.failure && p.world.vars == w.vars
  }

  lemma OneMoreStep(b: Behaviour, all: seq<Step>, n: nat, values: Option<map<string, string>>, w: Contents)
    requires NoHooks(b) && HandlersSucceed(b) && DistinctLines(all) && ReadAlike(all, values)
    requires n < |all| && w.vars == RowValues(values) && Predicted(b, all, n, values, w)
    ensures Predicted(b, all, n + 1, values, w)
  {
    var issues, step := Checked(b, all, values), all[n];
    var dry, p := DryRan(all[..n], issues, b.strict), Ran(b, all[..n], w);
    assert all[..n + 1] == all[..n] + [step];
    OwnIssue(b, all, values, n);
    StepPredicted(b, step, values, p.failure, p.world);
    DryLast(all[..n], step, issues, b.strict);
    RanNext(b, all, n, w);
    OneMorePredicted(dry.reports, p.results, ReportOf(IssueAt(issues, step.line), dry.failure, b.strict),
                     Advanced(b, step, p.failure, p.world).result);
  }

  lemma {:induction false} RunPredicted(b: Behaviour, all: seq<Step>, n: nat, values: Option<map<string, string>>,
      w: Contents)
    requires NoHooks(b) && HandlersSucceed(b) && DistinctLines(all) && ReadAlike(all, values)
    requires n <= |all| && w.vars == RowValues(values)
    ensures Predicted(b, all, n, values, w)
  {
    if n > 0 {
      RunPredicted(b, all, n - 1, values, w);
      OneMoreStep(b, all, n - 1, values, w);
    } else {
      assert all[..n] == [];
    }
  }

  /** The dry run predicts the run: without hooks, with handlers that succeed and set no variables,
      distinct lines and texts read alike, the dry run fails exactly when the run fails, at the same
      step and with the same message, and reports the same steps pending and skipped. */
  lemma DryRunPredictsRun(b: Behaviour, scenario: Scenario, w: Contents)
    requires NoHooks(b) && HandlersSucceed(b) && DistinctLines(scenario.steps)
    requires ReadAlike(scenario.steps, scenario.values) && w.vars == map[]
    ensures var dry := DryRan(scenario.steps, Checked(b, scenario.steps, scenario.values), b.strict);
            var p := Ran(b, scenario.steps, b.beforeScenario(WithValues(w, scenario.values)).1);
            AllPredicted(dry.reports, p.results) && |p.results| == |scenario.steps| && dry.failure == p.failure &&
            (dry.failure.Some? <==> StatusOf(p) == ScenarioFailed)
  {
    var steps, n := scenario.steps, |scenario.steps|;
    var start := WithValues(w, scenario.values);
    assert map[] + RowValues(scenario.values) == RowValues(scenario.values);
    RunPredicted(b, steps, n, scenario.values, start);
    assert steps[..n] == steps;
  }
}
