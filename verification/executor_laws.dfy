/** What every step of a run sees and how it is judged (crates/ferridriver-bdd/src/executor.rs:97-280,
    crates/ferridriver-bdd/src/translate.rs:575-619). */
module ExecutorLaws {
  import opened Json
  import opened Registry
  import opened World
  import opened Executor

  /** The result of a step that failed or not, with what it leaves to the steps after it. */
  predicate Judges(a: Advance, status: StepStatus, error: Option<Message>) {
    a.result.status == status && a.result.error == error &&
    a.failure == if status == Failed then error else None
  }

  /** How the answer of a handler is judged: a pending one fails a strict run and no other. */
  predicate Answered(outcome: Outcome, strict: bool, a: Advance) {
    match outcome
    case Done => Judges(a, Passed, None)
    case PendingError(msg) => Judges(a, if strict then Failed else Pending, Some(msg))
    case Error(msg) => Judges(a, Failed, Some(msg))
  }

  /** A step that runs in world `w`: its text is read there, `BeforeStep` gets that world, the handler the world
      `BeforeStep` leaves, `AfterStep` the one the handler leaves, and the next step what `AfterStep` leaves. A step
      that no one definition matches leaves the world to the hooks. */
  ghost predicate RunsIn(b: Behaviour, step: Step, w: Contents, a: Advance) {
    var text := Interpolated(step.text, w.vars, b.wide);
    var prepared := b.beforeStep(text, w);
    a.result.keyword == step.keyword && a.result.text == text &&
    match Found(b.defs, text, b.matcher)
    case Ok(m) =>
      var answer := b.handler(m.def, m.params, step, prepared);
      Answered(answer.0, b.strict, a) && a.world == b.afterStep(text, answer.1)
    case Err(Undefined(t)) =>
      a.world == b.afterStep(text, prepared) &&
      Judges(a, if b.strict then Failed else Pending, Some(UndefinedStep(step, t)))
    case Err(Ambiguous(t, matches, expressions)) =>
      a.world == b.afterStep(text, prepared) && Judges(a, Failed, Some(AmbiguousStep(t, matches, expressions)))
  }

  /** A step after a failure is reported as written and touches nothing. */
  predicate SkippedIn(step: Step, failure: Option<Message>, w: Contents, a: Advance) {
    a.result == StepResult(step.keyword, step.text, Skipped, Some(AfterFailure)) && a.failure == failure && a.world == w
  }

  lemma OneStep(b: Behaviour, step: Step, failure: Option<Message>, w: Contents)
    ensures var a := Advanced(b, step, failure, w);
            if failure.Some? then SkippedIn(step, failure, w, a) else RunsIn(b, step, w, a)
  {
  }

  lemma {:induction false} ResultsPrefix(b: Behaviour, steps: seq<Step>, w: Contents, n: nat)
    requires n <= |steps|
    ensures |Ran(b, steps, w).results| == |steps| && Ran(b, steps[..n], w).results == Ran(b, steps, w).results[..n]
    decreases |steps|
  {
    if n == |steps| {
      assert steps[..n] == steps;
      if steps != [] {
        ResultsPrefix(b, steps[..n - 1], w, n - 1);
      }
    } else {
      var init := steps[..|steps| - 1];
      ResultsPrefix(b, init, w, n);
      assert init[..n] == steps[..n];
    }
  }

  /** The `i`-th step of any run: what the run was before it, what it made of it and what the run was after it. */
  lemma EveryStep(b: Behaviour, steps: seq<Step>, w: Contents, i: nat)
    requires i < |steps|
    ensures |Ran(b, steps, w).results| == |steps|
    ensures var before, after := Ran(b, steps[..i], w), Ran(b, steps[..i + 1], w);
            var a := Advance(Ran(b, steps, w).results[i], after.failure, [], after.world);
            if before.failure.Some? then SkippedIn(steps[i], before.failure, before.world, a)
            else RunsIn(b, steps[i], before.world, a)
    ensures Ran(b, steps[..0], w).world == w && Ran(b, steps[..0], w).failure == None
  {
    var before := Ran(b, steps[..i], w);
    RanNext(b, steps, i, w);
    ResultsPrefix(b, steps, w, i + 1);
    ResultsPrefix(b, steps, w, i);
    assert Ran(b, steps, w).results[..i + 1][i] == Ran(b, steps, w).results[i];
    OneStep(b, steps[i], before.failure, before.world);
  }

  /** No step of a strict run is pending, so the scenario passes or fails. */
  lemma StrictNeverPends(b: Behaviour, steps: seq<Step>, w: Contents)
    requires b.strict
    ensures |Ran(b, steps, w).results| == |steps|
    ensures forall i :: 0 <= i < |steps| ==> Ran(b, steps, w).results[i].status != Pending
    ensures StatusOf(Ran(b, steps, w)) != ScenarioUndefined
  {
    ResultsPrefix(b, steps, w, 0);
    forall i | 0 <= i < |steps| ensures Ran(b, steps, w).results[i].status != Pending {
      EveryStep(b, steps, w, i);
    }
  }

  /** A scenario is undefined exactly when some step is pending and none failed. */
  lemma UndefinedMeans(b: Behaviour, steps: seq<Step>, w: Contents)
    ensures StatusOf(Ran(b, steps, w)) == ScenarioUndefined <==>
            (exists r :: r in Ran(b, steps, w).results && r.status == Pending) &&
            (forall r :: r in Ran(b, steps, w).results ==> r.status != Failed)
  {
    var p := Ran(b, steps, w);
    StatusDecided(b, steps, w);
    assert (exists r :: r in p.results && r.status == Pending) <==>
           (exists i :: 0 <= i < |p.results| && p.results[i].status == Pending);
  }

  /** The step whose handler answers that it is pending fails exactly when the run is strict, and then ends it. */
  lemma PendingFailsStrict(b: Behaviour, steps: seq<Step>, w: Contents, i: nat, m: StepMatch, msg: Message)
    requires i < |steps| && Ran(b, steps[..i], w).failure == None
    requires var world := Ran(b, steps[..i], w).world;
             var text := Interpolated(steps[i].text, world.vars, b.wide);
             Found(b.defs, text, b.matcher) == Ok(m) &&
             b.handler(m.def, m.params, steps[i], b.beforeStep(text, world)).0 == PendingError(msg)
    ensures i < |Ran(b, steps, w).results|
    ensures var result := Ran(b, steps, w).results[i];
            result.error == Some(msg) &&
            (result.status == Failed <==> b.strict) && (result.status == Pending <==> !b.strict)
    ensures Ran(b, steps[..i + 1], w).failure == if b.strict then Some(msg) else None
  {
    EveryStep(b, steps, w, i);
  }

  /** A row's values are the variables the scenario starts with; a variable the row does not name keeps its value. */
  lemma RowValuesWin(w: Contents, values: map<string, string>, name: string)
    ensures var vars := WithValues(w, Some(values)).vars;
            (name in values ==> name in vars && vars[name] == values[name]) &&
            (name !in values ==> (name in vars <==> name in w.vars) && (name in vars ==> vars[name] == w.vars[name]))
    ensures WithValues(w, Some(values)).state == w.state && WithValues(w, None) == w
  {
  }
}
