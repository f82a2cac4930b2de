/** Running one scenario (crates/ferridriver-bdd/src/executor.rs:97-280) under the observer that
    reports its steps (crates/ferridriver-bdd/src/translate.rs:472-545, 575-624). */
module Executor {
  import opened Json
  import opened Registry
  import opened World

  datatype Step = Step(keyword: string, text: string, line: nat)

  datatype Scenario = Scenario(steps: seq<Step>, values: Option<map<string, string>>)

  datatype StepStatus = Passed | Failed | Skipped | Pending

  datatype ScenarioStatus = ScenarioPassed | ScenarioFailed | ScenarioUndefined

  datatype Message =
    | UndefinedStep(step: Step, text: string)
    | AmbiguousStep(text: string, matches: seq<string>, expressions: seq<string>)
    | FromHandler(reason: string)
    | AfterFailure

  datatype StepResult = StepResult(keyword: string, text: string, status: StepStatus, error: Option<Message>)

  /** How matching and running one step ends; a timeout is an `Error`. */
  datatype Outcome = Done | PendingError(pending: Message) | Error(error: Message)

  /** Everything the run depends on besides the scenario: the definitions, how they match, what
      their handlers and the hooks do to the world, and the configuration. */
  datatype Behaviour = Behaviour(
    defs: seq<StepDef>,
    matcher: Matcher,
    handler: (StepDef, Params, Step, Contents) -> (Outcome, Contents),
    beforeScenario: Contents -> (bool, Contents),
    beforeStep: (string, Contents) -> Contents,
    afterStep: (string, Contents) -> Contents,
    afterScenario: Contents -> Contents,
    strict: bool,
    wide: char -> bool)

  // ---------------------------------------------------------------- one step

  /** `execute_bdd_step`. */
  function Executed(b: Behaviour, text: string, step: Step, w: Contents): (Outcome, Contents) {
    match Found(b.defs, text, b.matcher)
    case Ok(m) => b.handler(m.def, m.params, step, w)
    case Err(Undefined(t)) =>
      (if b.strict then Error(UndefinedStep(step, t)) else PendingError(UndefinedStep(step, t)), w)
    case Err(Ambiguous(t, matches, expressions)) => (Error(AmbiguousStep(t, matches, expressions)), w)
  }

  function Judged(step: Step, text: string, outcome: Outcome, strict: bool): StepResult {
    match outcome
    case Done => StepResult(step.keyword, text, Passed, None)
    case PendingError(msg) => StepResult(step.keyword, text, if strict then Failed else Pending, Some(msg))
    case Error(msg) => StepResult(step.keyword, text, Failed, Some(msg))
  }

  function SkippedResult(step: Step): StepResult {
    StepResult(step.keyword, step.text, Skipped, Some(AfterFailure))
  }

  datatype Dispatch = BeforeScenario | BeforeStep(line: nat) | AfterStep(line: nat) | AfterScenario

  /** What a run has done: the results, the hooks dispatched and the world left behind. */
  datatype Progress = Progress(
    results: seq<StepResult>, failure: Option<Message>, hooks: seq<Dispatch>, world: Contents)

  /** What the loop makes of one step: its result, the failure so far, the hooks dispatched around
      it and the world after it. */
  datatype Advance = Advance(result: StepResult, failure: Option<Message>, hooks: seq<Dispatch>, world: Contents)

  function Advanced(b: Behaviour, step: Step, failure: Option<Message>, w: Contents): Advance {
    if failure.Some? then Advance(SkippedResult(step), failure, [], w)
    else
      var text := Interpolated(step.text, w.vars, b.wide);
      var (outcome, after) := Executed(b, text, step, b.beforeStep(text, w));
      var result := Judged(step, text, outcome, b.strict);
      Advance(result, if result.status == Failed then result.error else None,
              [BeforeStep(step.line), AfterStep(step.line)], b.afterStep(text, after))
  }

  function Stepped(b: Behaviour, step: Step, p: Progress): Progress {
    var a := Advanced(b, step, p.failure, p.world);
    Progress(p.results + [a.result], a.failure, p.hooks + a.hooks, a.world)
  }

  function Ran(b: Behaviour, steps: seq<Step>, w: Contents): Progress {
    if steps == [] then Progress([], None, [BeforeScenario], w)
    else Stepped(b, steps[|steps| - 1], Ran(b, steps[..|steps| - 1], w))
  }

  // ---------------------------------------------------------------- the observer

  datatype HandleEvent = Opened(handle: nat, line: nat) | Closed(handle: nat, status: StepStatus)

  /** Opens a reported step when it starts and closes it with its result; a step that never started
      gets both at once. */
  class TestInfoObserver {
    var open: Option<nat>
    var next: nat
    var log: seq<HandleEvent>

    constructor ()
      ensures open == None && next == 0 && log == []
    {
      open, next, log := None, 0, [];
    }

    method Begin(step: Step) returns (handle: nat)
      modifies this`next, this`log
      ensures handle == old(next) && next == old(next) + 1 && log == old(log) + [Opened(handle, step.line)]
    {
      handle := next;
      next := next + 1;
      log := log + [Opened(handle, step.line)];
    }

    method OnStepStart(step: Step)
      modifies this
      ensures open == Some(old(next)) && next == old(next) + 1 && log == old(log) + [Opened(old(next), step.line)]
    {
      var handle := Begin(step);
      open := Some(handle);
    }

    method OnStep(step: Step, result: StepResult)
      modifies this
      ensures open == None
      ensures match old(open)
              case Some(handle) => next == old(next) && log == old(log) + [Closed(handle, result.status)]
              case None =>
                next == old(next) + 1 &&
                log == old(log) + [Opened(old(next), step.line), Closed(old(next), result.status)]
    {
      var taken := open;
      open := None;
      var handle: nat;
      if taken.Some? {
        handle := taken.value;
      } else {
        handle := Begin(step);
      }
      log := log + [Closed(handle, result.status)];
    }
  }

  /** One handle per step, opened and closed before the next one opens. */
  function Reported(steps: seq<Step>, results: seq<StepResult>, handle: nat): seq<HandleEvent>
    requires |steps| == |results|
  {
    if steps == [] then []
    else
      var n := |steps| - 1;
      Reported(steps[..n], results[..n], handle) +
      [Opened(handle + n, steps[n].line), Closed(handle + n, results[n].status)]
  }

  // ---------------------------------------------------------------- the run

  datatype ScenarioResult = ScenarioResult(status: ScenarioStatus, steps: seq<StepResult>, error: Option<Message>)

  function StatusOf(p: Progress): ScenarioStatus {
    if p.failure.Some? then ScenarioFailed
    else if exists i :: 0 <= i < |p.results| && p.results[i].status == Pending then ScenarioUndefined
    else ScenarioPassed
  }

  function WithValues(w: Contents, values: Option<map<string, string>>): Contents {
    if values.Some? then w.(vars := w.vars + values.value) else w
  }

  method RunScenarioObserved(b: Behaviour, world: BrowserWorld, scenario: Scenario, observer: TestInfoObserver)
    returns (result: ScenarioResult, hooks: seq<Dispatch>)
    requires observer.open == None
    modifies world, observer
    ensures observer.open == None
    ensures var (ok, w) := b.beforeScenario(WithValues(old(world.Value()), scenario.values));
            if ok then
              var p := Ran(b, scenario.steps, w);
              result == ScenarioResult(StatusOf(p), p.results, p.failure) &&
              hooks == p.hooks + [AfterScenario] &&
              world.Value() == b.afterScenario(p.world) &&
              |p.results| == |scenario.steps| &&
              observer.log == old(observer.log) + Reported(scenario.steps, p.results, old(observer.next))
            else
              result.status == ScenarioFailed && result.steps == [] && hooks == [BeforeScenario] &&
              world.Value() == w && observer.log == old(observer.log)
  {
    if scenario.values.Some? {
      world.SetVars(scenario.values.value);
    }
    hooks := [BeforeScenario];
    var (ok, prepared) := b.beforeScenario(world.Value());
    world.Become(prepared);
    if !ok {
      return ScenarioResult(ScenarioFailed, [], Some(FromHandler("BeforeScenario hook failed"))), hooks;
    }
    var results, failure;
    results, failure, hooks := RunSteps(b, world, observer, scenario.steps, hooks);
    result := ScenarioResult(StatusOf(Progress(results, failure, hooks, world.Value())), results, failure);
    world.Become(b.afterScenario(world.Value()));
    hooks := hooks + [AfterScenario];
  }

  /** The loop over the steps (crates/ferridriver-bdd/src/executor.rs:149-237). */
  method RunSteps(b: Behaviour, world: BrowserWorld, observer: TestInfoObserver, steps: seq<Step>,
      before: seq<Dispatch>)
    returns (results: seq<StepResult>, failure: Option<Message>, hooks: seq<Dispatch>)
    requires observer.open == None && before == [BeforeScenario]
    modifies world, observer
    ensures observer.open == None && |results| == |steps|
    ensures Progress(results, failure, hooks, world.Value()) == Ran(b, steps, old(world.Value()))
    ensures observer.log == old(observer.log) + Reported(steps, results, old(observer.next))
  {
    results, failure, hooks := [], None, before;
    ghost var w, log, handle := world.Value(), observer.log, observer.next;
    for n := 0 to |steps|
      invariant observer.open == None && observer.next == handle + n
      invariant Underway(b, steps, n, w, Progress(results, failure, hooks, world.Value()), log, handle, observer.log)
    {
      UnderwayNext(b, steps, n, w, Progress(results, failure, hooks, world.Value()), log, handle, observer.log);
      var done, dispatched;
      done, failure, dispatched := RunStep(b, world, observer, steps[n], failure);
      results, hooks := results + [done], hooks + dispatched;
    }
    assert steps[..|steps|] == steps;
  }

  /** The first `n` steps are run and reported. */
  ghost predicate Underway(b: Behaviour, steps: seq<Step>, n: nat, w: Contents, p: Progress,
                           log0: seq<HandleEvent>, handle: nat, log: seq<HandleEvent>)
  {
    n <= |steps| && p == Ran(b, steps[..n], w) && |p.results| == n &&
    log == log0 + Reported(steps[..n], p.results, handle)
  }

  lemma UnderwayNext(b: Behaviour, steps: seq<Step>, n: nat, w: Contents, p: Progress,
                     log0: seq<HandleEvent>, handle: nat, log: seq<HandleEvent>)
    requires n < |steps| && Underway(b, steps, n, w, p, log0, handle, log)
    ensures var a := Advanced(b, steps[n], p.failure, p.world);
            Underway(b, steps, n + 1, w, Progress(p.results + [a.result], a.failure, p.hooks + a.hooks, a.world),
                     log0, handle,
                     log + [Opened(handle + n, steps[n].line), Closed(handle + n, a.result.status)])
  {
    var a := Advanced(b, steps[n], p.failure, p.world);
    RanNext(b, steps, n, w);
    LogNext(steps, n, p.results, handle, a.result, log0, log);
  }

  lemma LogNext(steps: seq<Step>, n: nat, results: seq<StepResult>, handle: nat, result: StepResult,
                log0: seq<HandleEvent>, log: seq<HandleEvent>)
    requires n < |steps| && |results| == n && log == log0 + Reported(steps[..n], results, handle)
    ensures log + [Opened(handle + n, steps[n].line), Closed(handle + n, result.status)] ==
            log0 + Reported(steps[..n + 1], results + [result], handle)
  {
    ReportedNext(steps[..n], results, handle, steps[n], result);
    assert steps[..n + 1] == steps[..n] + [steps[n]];
  }

  /** The loop body (crates/ferridriver-bdd/src/executor.rs:150-237). */
  method RunStep(b: Behaviour, world: BrowserWorld, observer: TestInfoObserver, step: Step, failed: Option<Message>)
    returns (done: StepResult, failure: Option<Message>, hooks: seq<Dispatch>)
    requires observer.open == None
    modifies world, observer
    ensures Advance(done, failure, hooks, world.Value()) == Advanced(b, step, failed, old(world.Value()))
    ensures observer.open == None && observer.next == old(observer.next) + 1
    ensures observer.log ==
            old(observer.log) + [Opened(old(observer.next), step.line), Closed(old(observer.next), done.status)]
  {
    failure := failed;
    if failure.Some? {
      done, hooks := SkippedResult(step), [];
      observer.OnStep(step, done);
      return;
    }
    var text := world.Interpolate(step.text, b.wide);
    observer.OnStepStart(step);
    world.Become(b.beforeStep(text, world.Value()));
    var (outcome, after) := Executed(b, text, step, world.Value());
    done := Judged(step, text, outcome, b.strict);
    if done.status == Failed {
      failure := done.error;
    }
    world.Become(after);
    observer.OnStep(step, done);
    world.Become(b.afterStep(text, world.Value()));
    hooks := [BeforeStep(step.line), AfterStep(step.line)];
  }

  lemma RanNext(b: Behaviour, steps: seq<Step>, n: nat, w: Contents)
    requires n < |steps|
    ensures Ran(b, steps[..n + 1], w) == Stepped(b, steps[n], Ran(b, steps[..n], w))
  {
    assert steps[..n + 1][..n] == steps[..n];
  }

  lemma ReportedNext(steps: seq<Step>, results: seq<StepResult>, handle: nat, step: Step, result: StepResult)
    requires |steps| == |results|
    ensures Reported(steps + [step], results + [result], handle) ==
            Reported(steps, results, handle) +
            [Opened(handle + |steps|, step.line), Closed(handle + |steps|, result.status)]
  {
    assert (steps + [step])[..|steps|] == steps && (results + [result])[..|steps|] == results;
  }

  // ---------------------------------------------------------------- what every run looks like

  /** `n` steps passed or are pending; the next one, if any, failed, and all the rest are skipped. */
  predicate Shape(results: seq<StepResult>, n: nat) {
    n <= |results| &&
    (forall i :: 0 <= i < n ==> results[i].status == Passed || results[i].status == Pending) &&
    (n < |results| ==> results[n].status == Failed) &&
    (forall i :: n < i < |results| ==> results[i].status == Skipped)
  }

  lemma AdvanceShape(b: Behaviour, step: Step, failure: Option<Message>, w: Contents)
    ensures var a := Advanced(b, step, failure, w);
            a.result.keyword == step.keyword &&
            (failure.Some? ==> a.result.status == Skipped && a.failure == failure && a.hooks == []) &&
            (failure.None? ==>
              a.hooks == [BeforeStep(step.line), AfterStep(step.line)] &&
              (a.failure.None? ==> a.result.status == Passed || a.result.status == Pending) &&
              (a.failure.Some? ==> a.result.status == Failed && a.result.error == a.failure))
  {
  }

  lemma ShapeNext(results: seq<StepResult>, n: nat, r: StepResult)
    requires Shape(results, n)
    requires if n < |results| then r.status == Skipped else r.status != Skipped
    ensures Shape(results + [r], if n < |results| || r.status == Failed then n else n + 1)
  {
  }

  lemma RanLast(b: Behaviour, steps: seq<Step>, w: Contents)
    requires steps != []
    ensures var before, step := Ran(b, steps[..|steps| - 1], w), steps[|steps| - 1];
            var a, p := Advanced(b, step, before.failure, before.world), Ran(b, steps, w);
            p.results == before.results + [a.result] && p.failure == a.failure && p.hooks == before.hooks + a.hooks
  {
  }

  /** Results answer the steps one to one, read (Passed or Pending)*, then at most one Failed
      followed only by Skipped, and the failure reported is that of the failed step. */
  lemma {:induction false} RunShape(b: Behaviour, steps: seq<Step>, w: Contents) returns (n: nat)
    ensures var p := Ran(b, steps, w);
            |p.results| == |steps| && Shape(p.results, n) &&
            (p.failure.Some? <==> n < |p.results|) &&
            (n < |p.results| ==> p.results[n].error == p.failure) &&
            forall i :: 0 <= i < |steps| ==> p.results[i].keyword == steps[i].keyword
  {
    n := 0;
    if steps != [] {
      var init, last := steps[..|steps| - 1], steps[|steps| - 1];
      n := RunShape(b, init, w);
      var before := Ran(b, init, w);
      var a := Advanced(b, last, before.failure, before.world);
      AdvanceShape(b, last, before.failure, before.world);
      ShapeNext(before.results, n, a.result);
      RanLast(b, steps, w);
      if a.failure.None? {
        n := n + 1;
      }
    }
  }

  /** The status is decided by the results: failed exactly when a step failed, undefined exactly
      when none did and one is pending, passed exactly when every step passed. */
  lemma StatusDecided(b: Behaviour, steps: seq<Step>, w: Contents)
    ensures var p := Ran(b, steps, w);
            (StatusOf(p) == ScenarioFailed <==> exists i :: 0 <= i < |p.results| && p.results[i].status == Failed) &&
            (StatusOf(p) == ScenarioPassed <==> forall i :: 0 <= i < |p.results| ==> p.results[i].status == Passed)
  {
    var n := RunShape(b, steps, w);
    var p := Ran(b, steps, w);
    if n < |p.results| {
      assert p.results[n].status == Failed;
    }
  }

  /** Hooks: one before the scenario, then a pair around each of the first `ran` steps, which are
      those that were not skipped. */
  lemma {:induction false} HooksDispatched(b: Behaviour, steps: seq<Step>, w: Contents) returns (ran: nat)
    ensures DispatchedIn(Ran(b, steps, w), steps, ran)
  {
    if steps == [] {
      ran := 0;
    } else {
      var init, last := steps[..|steps| - 1], steps[|steps| - 1];
      assert steps == init + [last];
      ran := HooksDispatched(b, init, w);
      ran := OneMoreDispatched(b, init, last, w, ran);
    }
  }

  /** The first `ran` steps were run, the rest skipped. */
  predicate DispatchedIn(p: Progress, steps: seq<Step>, ran: nat) {
    |p.results| == |steps| && ran <= |steps| &&
    (forall i :: 0 <= i < |steps| ==> (i < ran <==> p.results[i].status != Skipped)) &&
    (p.failure.None? ==> ran == |steps|) && p.hooks == [BeforeScenario] + Pairs(steps[..ran])
  }

  lemma OneMoreDispatched(b: Behaviour, init: seq<Step>, last: Step, w: Contents, before: nat) returns (ran: nat)
    requires DispatchedIn(Ran(b, init, w), init, before)
    ensures DispatchedIn(Ran(b, init + [last], w), init + [last], ran)
  {
    var steps, p := init + [last], Ran(b, init, w);
    assert steps[..|init|] == init;
    RanLast(b, steps, w);
    AdvanceShape(b, last, p.failure, p.world);
    ran := if p.failure.None? then |steps| else before;
    if p.failure.None? {
      RunOnePair(p, Ran(b, steps, w), init, last);
    } else {
      SkipNoPair(p, Ran(b, steps, w), init, last, before);
    }
  }

  /** A step that runs adds one pair of hooks to those around all the steps before it. */
  lemma RunOnePair(p: Progress, q: Progress, init: seq<Step>, last: Step)
    requires DispatchedIn(p, init, |init|) && |q.results| == |init| + 1 && q.results[..|init|] == p.results
    requires q.hooks == p.hooks + [BeforeStep(last.line), AfterStep(last.line)] && q.results[|init|].status != Skipped
    ensures DispatchedIn(q, init + [last], |init| + 1)
  {
    assert init[..|init|] == init && (init + [last])[..|init| + 1] == init + [last];
    PairsNext(init, last);
    assert forall i :: 0 <= i < |init| ==> q.results[i] == p.results[i];
  }

  /** A skipped step adds none. */
  lemma SkipNoPair(p: Progress, q: Progress, init: seq<Step>, last: Step, ran: nat)
    requires DispatchedIn(p, init, ran) && |q.results| == |init| + 1 && q.results[..|init|] == p.results
    requires q.hooks == p.hooks && q.results[|init|].status == Skipped && q.failure.Some?
    ensures DispatchedIn(q, init + [last], ran)
  {
    assert (init + [last])[..ran] == init[..ran];
    assert forall i :: 0 <= i < |init| ==> q.results[i] == p.results[i];
  }

  lemma PairsNext(steps: seq<Step>, step: Step)
    ensures [BeforeScenario] + Pairs(steps + [step]) ==
            [BeforeScenario] + Pairs(steps) + [BeforeStep(step.line), AfterStep(step.line)]
  {
    assert (steps + [step])[..|steps|] == steps;
  }

  function Pairs(steps: seq<Step>): seq<Dispatch> {
    if steps == [] then []
    else Pairs(steps[..|steps| - 1]) + [BeforeStep(steps[|steps| - 1].line), AfterStep(steps[|steps| - 1].line)]
  }

  /** The log holds nothing but one open and close per step, in order: between two steps no handle
      is held. */
  lemma {:induction false} OneHandlePerStep(steps: seq<Step>, results: seq<StepResult>, handle: nat)
    requires |steps| == |results|
    ensures var log := Reported(steps, results, handle);
            |log| == 2 * |steps| &&
            forall i :: 0 <= i < |steps| ==>
              log[2 * i] == Opened(handle + i, steps[i].line) && log[2 * i + 1] == Closed(handle + i, results[i].status)
  {
    if steps != [] {
      var n := |steps| - 1;
      OneHandlePerStep(steps[..n], results[..n], handle);
      assert forall i :: 0 <= i < n ==> steps[..n][i] == steps[i] && results[..n][i] == results[i];
    }
  }
}
